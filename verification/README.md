# Verification model of Cosvian's fee engine, price feed and wire codec

This project models three parts of the Cosvian chain in Dafny and proves properties of the model.

* **Wire codec** (`Wire`, `Skip`, `Messages`, `CodecLaws`, `Buffers`, `FieldTables`, `WireFormats`). The generated
  protobuf code of `x/fees/types` and `x/oracle/types`: a writer that fills a sized buffer from its
  end towards its start, the size computed beforehand, and an index-advancing 64-bit parser with a
  group-nesting skip. The generated functions are one text repeated with a different field table, so
  the table is an argument and every law is proved for all tables, nested to any depth; `FieldTables`
  lists the tables of the concrete messages, and `WireFormats` spells out their bytes tag by tag. `Messages` says what is computed, `Buffers` is the
  buffer code itself (array writes, loops, shift-and-or accumulation) proved to compute it.
  Integers wrap as Go's do: lengths and end indices at 2^63, field numbers at 2^31, the tenth varint
  group at 2^64. The format follows the Protocol Buffers Encoding specification, sections "Base 128
  Varints", "Message Structure", "Length-Delimited Records", "Groups" and "Last One Wins".
* **Interchain-query price feed** (`PendingKeys`, `IcqProtocol`, `Decimal`, `PriceGuard`,
  `PriceFeed`, `FeedOutcomes`, `Keepers`). The controller of `x/icqcontroller`, the consumer and begin-block
  scheduler of `x/osmosisicq` and the price of `x/oracle`, as one state machine over channel events,
  sends, acknowledgements, timeouts, blocks and parameter changes. `IcqProtocol` and `PriceFeed` give
  the atomic steps and the theorems over all runs; `Keepers` holds the keepers as classes that take
  the source's steps in the source's order and are proved to amount to those atomic steps.
* **Fee engine** (`FeeParams`, `Classify`, `FeeEstimate`, `Ledger`, `Distribution`, `FeeCollection`,
  `FeeKeeper`, `FeePricing`, `FeeRecipients`, `FeeFlow`). Parameter validation, unwrapping and classification of messages, the fee
  estimate and its rails, the ante handlers' admission, and the four-way split paid out on a bank
  ledger. `FeePricing` and `FeeRecipients` say in plain arithmetic, category by category and wallet by
  wallet, what is charged and who is paid. `FeeKeeper` is the code that reassigns amounts and moves coins step by step.

`LegacyDec` is an integer scaled by 10^18, with `Mul` and `Quo` rounding half to even as the decimal
library does. IBC core is taken from ICS-4 ("Sending packets", "Processing acknowledgements",
"Timeouts"): a successful send returns the current next sequence and bumps it, a packet is resolved
at most once, and a callback that errs is rolled back. In the ledger an error return and a panic are
the same thing: the step does not happen.

Results where the code does not do what one might expect, each with its exact condition:

* `PriceGuard.PositivityNeedsGuard`: for each stored price, every accepted result is positive exactly
  when the stored one is and 0 < MaxDeviation < 1. At 1 and above a zero price is accepted, at 0
  anything is, and so is anything while no price is stored.
* `PriceFeed.RateLimitIff`: the update interval holds the next round back exactly when adding it to
  the block time does not overflow int64; exactly when it does, every later block is due, which an
  interval of 2^63 or more brings about at any non-negative time.
* `FeeEstimate.MinimumHoldsIffGasFits`: the fee handler respects the minimum gas price exactly when
  the gas fits int64; from there on one ucsv is enough for it exactly when the negative estimate
  truncates to zero ucsv (`OneUcsvPassesIff`), and `HugeGasSlipsUnderTheRail` is such a transaction.
  The fee handler runs in front of the SDK's own ante chain, which is not part of this model and
  whose basic validation refuses gas above 2^63 - 1.
* `FeeEstimate.ZeroGasAdmission`: with no gas asked for the rails do not apply, and a transaction whose
  fee converts to zero is admitted whatever it pays.
* `FeeEstimate.ExceedsMaxIff`: the maximum rail is applied to a truncated price, so the fee exceeds
  Max·gas exactly when the converted fee lies strictly between Max·gas and (Max + 10^-18)·gas.
* `CodecLaws.PrefixKeepsErrorIff`: which error a truncated field gives depends on what was decoded in
  front of it; the error stays the same exactly when the end index the field claims fits 63 bits both
  with and without the bytes in front, or neither. Success and the decoded value never depend on it
  (`DecodeAt`). Every message with a string field shows it (`ErrorDependsOnPosition`).
* `Distribution.SplitFollowsChargeIff`: the POS and wizard categories are charged by their own table
  entry but split by the native-transfer entry, because the distribution switch does not know the
  strings the ante handler passes.
* `Distribution.SharesNonNegativeIff`: the shares of a split are non-negative for every amount exactly
  when no part is negative and the parts beside the treasury's come to at most one. Validation checks
  neither: it looks at the total alone, and not even at that for an entry whose fee is zero and which
  the minimum gas price still turns into a fee (`ValidSplitCanBeNegative`, both ways). A negative
  share is a panic (`FeeCollection.DistributedIsNonNegative`), and with the funds there and nobody
  blocked it is the only way a distribution fails (`DistributionFailsIff`).
* `Distribution.DustIff`: three units bound what is left undistributed of every amount exactly for the
  splits that sum to one or more.
* `IcqProtocol.CloseKeepsMappingIff`: closing a channel unmaps its connection even when the
  connection is already mapped to a newer channel.
* `Classify.ScanOrderIff`: the order in which the two type-URL lists are scanned is irrelevant
  exactly when the lists share no URL (the transfer's apart), which validation guarantees for
  non-empty URLs only.

Where comments and code disagree the model follows the code. The ante handler's comment says that a
system transaction has no deduction; the deduct decorator still collects any fee it carries and
splits it as a native transfer. The comment in `isSystemMsg` says the exempt list overrides the
system list; the system list is scanned first. The comment on `ScheduleQueriesIfDue` calls it a
placeholder; it registers the queries. `MsgSetPrice` answers a price that is not positive by wrapping
a nil error, so the message succeeds and stores nothing.

## Model

| member | source | states |
|---|---|---|
| Wire.SovIsLength | x/oracle/types/tx.pb.go:583-585 | the closed-form size equals the number of bytes a varint takes, for every number |
| Wire.SovIsLeast | x/oracle/types/tx.pb.go:583-585 | no byte string that the parser reads as v is shorter than that size |
| Wire.ReadOfEncode | x/oracle/types/tx.pb.go:518-528 | every 64-bit value written as a varint reads back, whatever follows it, in at most ten bytes |
| Wire.OrDisjointAdds | x/fees/types/guard_rails.pb.go:335-348 | or-ing a group shifted past the bits already present adds it, which is why the accumulation spells a number |
| Wire.EncodeSpells | x/oracle/types/tx.pb.go:518-528 | what is written is a chain of seven-bit groups, least significant first, that stands for the number and has none to spare |
| Wire.ReadIff | x/oracle/types/tx.pb.go:760-773 | reading is the chain of at most ten bytes at the head of the buffer as the number it stands for; overflow exactly when ten bytes do not end one; end of buffer exactly when it ends before |
| Skip.SkipReturnsLength | x/oracle/types/tx.pb.go:950-1027 | skip returns exactly the length of any well-formed field, groups nested to any depth, whatever follows |
| Skip.SkipIsGrammar | x/oracle/types/tx.pb.go:950-1027 | both directions: skip returns n inside the buffer exactly when the first n bytes are one well-formed field |
| Skip.SkipExtend | x/oracle/types/tx.pb.go:950-1027 | bytes after a skipped field do not change how far skip goes |
| CodecLaws.Concatenation | x/fees/types/params.pb.go:905-1342 | if a decodes, decoding a++b is decoding b on top of its result, errors included |
| CodecLaws.DecodeShift | x/fees/types/params.pb.go:953-962 | where a message starts in a buffer decides at most which error is reported, never success or the value |
| CodecLaws.DecodeAt | x/fees/types/params.pb.go:953-962 | parsing at any start is parsing at 0, except that a claim beyond the message is "unexpected EOF" or "invalid length" by whether its end index fits 63 bits |
| CodecLaws.SameResultIff | x/fees/types/params.pb.go:953-962 | two starts give the very same result if and only if the claimed end index fits 63 bits from both or from neither |
| CodecLaws.PrefixKeepsErrorIff | x/fees/types/params.pb.go:905-962 | in one buffer, what decodes in front of a part leaves the error of that part as it was if and only if its claimed end index fits 63 bits with and without it, or neither |
| CodecLaws.ErrorDependsOnPosition | x/fees/types/params.pb.go:953-962 | in every message with a string field: two bytes that decode, put in front of a truncated one, turn its "unexpected EOF" into "invalid length" by overflow of the end index |
| CodecLaws.UnknownFieldIsTransparent | x/oracle/types/tx.pb.go:878-892 | a well-formed field with an unlisted positive number, inserted at any field boundary, changes nothing in what is decoded |
| CodecLaws.TagErrors | x/oracle/types/tx.pb.go:774-790 | the errors by the tag: an end-group tag, a field number that is not positive as an int32, a listed field under a foreign wire type, an unlisted one under a wire type that does not exist |
| CodecLaws.NegativeLengthRefused | x/oracle/types/tx.pb.go:803-813 | a length from 2^63 on is refused as invalid |
| CodecLaws.DecodeOnto | x/fees/types/params.pb.go:905-1342 | decoding an encoded message on top of x merges it into x: scalars replace unless default, lists append, nested messages merge |
| CodecLaws.RoundTrip | x/fees/types/params.pb.go:522-645 | whatever Marshal writes for a message whose size fits an int, Unmarshal into a new message reads back, for every table |
| CodecLaws.ConcatenatedEncodings | x/fees/types/params.pb.go:905-1342 | the concatenation of two encodings decodes to the merge of the two messages |
| CodecLaws.EncodeIsInjective | x/fees/types/params.pb.go:537-645 | different messages have different encodings |
| Buffers.SizeIsLength | x/fees/types/params.pb.go:804-897 | Size() is the length of what is written, field by field and through nesting |
| Buffers.EncodeVarintAt | x/fees/types/guard_rails.pb.go:197-207 | the writer fills exactly the reserved bytes below its offset with the varint and leaves every other byte of the buffer alone |
| Buffers.PutAll | x/fees/types/params.pb.go:551-568 | a repeated string field, written last item first, ends up in order |
| Buffers.PutField | x/fees/types/params.pb.go:569-645 | one field is written so that it ends at the given index; empty and zero fields write nothing; a nested message writes its body first |
| Buffers.MarshalToSizedBuffer | x/fees/types/params.pb.go:537-645 | the bytes below `end` become the encoding, nothing else changes, and the count returned is its length |
| Buffers.Marshal | x/fees/types/params.pb.go:522-530 | a buffer of Size() bytes is filled down to index 0 with the encoding |
| Buffers.OrNextGroup | x/oracle/types/tx.pb.go:760-773 | the shift-and-or of the next group gives the sum modulo 2^64; only the tenth group can lose bits |
| Buffers.ReadVarint | x/oracle/types/tx.pb.go:760-773 | the reading loop gives the spelled number modulo 2^64 and the next index, or the error, overflow before end of buffer |
| Buffers.SkipField | x/oracle/types/tx.pb.go:950-1027 | the skip loop computes the specified index or error on every byte string, with index wrap-around |
| Buffers.UnmarshalField | x/fees/types/params.pb.go:933-1321 | one case of the field switch: wire-type check, length checks with signed overflow, store, append or merge |
| Buffers.Unmarshal | x/oracle/types/tx.pb.go:754-899 | on every byte string the parser ends with the specified record or error; each round advances and every index is inside the buffer |
| FieldTables.ParamsTableIsGood | x/fees/types/params.pb.go:29-50 | the field numbers of Params and of every message nested in it are distinct and fit one-byte tags, so the laws apply |
| FieldTables.MsgSetPriceBytes | x/oracle/types/tx.pb.go:466-493 | MsgSetPrice on the wire is its three strings under the tags 0x0a, 0x12 and 0x1a, empty ones omitted |
| FieldTables.MsgSetPriceRoundTrip | x/oracle/types/tx.pb.go:754-899 | those bytes unmarshal to the three strings |
| FieldTables.ParamsRoundTrip | x/fees/types/params.pb.go:522-645 | Params, with messages nested three levels deep, round-trips, and concatenated encodings merge |
| FieldTables.ParamsMerge | x/fees/types/params.pb.go:1226-1321 | merging Params appends the three lists, lets a later non-empty wallet or mode win, and merges the guard rails' gas limits inside the nested message |
| WireFormats.FeeSplitWire | x/fees/types/fee_config.pb.go:264-311 | the encoding is, byte for byte, four decimals under 0x0a, 0x12, 0x1a, 0x22 |
| WireFormats.FeeSplitSets | x/fees/types/fee_config.pb.go:476-660 | those bytes of one field, read on top of any record, set the field of that name and no other |
| WireFormats.FeeConfigWire | x/fees/types/fee_config.pb.go:221-248 | the encoding is, byte for byte, a decimal under 0x0a and the split under 0x12 |
| WireFormats.FeeConfigSets | x/fees/types/fee_config.pb.go:359-475 | those bytes of one field, read on top of any record, set the field of that name and no other |
| WireFormats.FeeTableWire | x/fees/types/params.pb.go:662-739 | the encoding is, byte for byte, seven entries under 0x0a to 0x3a |
| WireFormats.FeeTableSets | x/fees/types/params.pb.go:1343-1623 | those bytes of one field, read on top of any record, set the field of that name and no other |
| WireFormats.OracleParamsWire | x/fees/types/oracle_params.pb.go:187-232 | the encoding is, byte for byte, a number under 0x08, a decimal under 0x1a, durations under 0x12, 0x22, 0x2a |
| WireFormats.OracleParamsSets | x/fees/types/oracle_params.pb.go:271-420 | those bytes of one field, read on top of any record, set the field of that name and no other |
| WireFormats.GuardRailsWire | x/fees/types/guard_rails.pb.go:159-196 | the encoding is, byte for byte, decimals under 0x0a and 0x12, numbers under 0x18 and 0x20, omitted when zero |
| WireFormats.GuardRailsSets | x/fees/types/guard_rails.pb.go:233-388 | those bytes of one field, read on top of any record, set the field of that name and no other |
| WireFormats.MinGasPolicyWire | x/fees/types/params.pb.go:755-791 | the encoding is, byte for byte, flags under 0x08 and 0x18, omitted when false, and a decimal under 0x12 |
| WireFormats.MinGasPolicySets | x/fees/types/params.pb.go:1624-1750 | those bytes of one field, read on top of any record, set the field of that name and no other |
| WireFormats.ParamsWire | x/fees/types/params.pb.go:537-645 | the encoding is, byte for byte, four sections under 0x0a to 0x22, five texts under 0x2a to 0x4a, omitted when empty, and three lists under 0x52, 0x5a, 0x62, all nested bytes spelled out |
| WireFormats.ParamsSectionsSets | x/fees/types/params.pb.go:933-1064 | the bytes of a section are read on top of the section of that name |
| WireFormats.ParamsTextsSets | x/fees/types/params.pb.go:1065-1321 | the bytes of a text replace the text of that name, those of a list item are appended to the list of that name |
| WireFormats.ParamsReadBack | x/fees/types/params.pb.go:905-1342 | a new message unmarshals the bytes to the named fields they were written from |
| PendingKeys.PendingKeyInjective | x/icqcontroller/keeper/keeper.go:127-129 | no two (channel, sequence) pairs share a pending key, for all channel strings, even with "/" |
| PendingKeys.FormatUintIsDecimal | x/icqcontroller/keeper/keeper.go:127-129 | the number in a key is its decimal spelling without leading zeros |
| IcqProtocol.StepKeepsInv | x/icqcontroller/keeper/keeper.go:138-290 | every step keeps: pending entries are exactly those of the packets in flight, each holding the store, key and connection of its packet, below the channel's next sequence |
| IcqProtocol.RunKeepsInv | x/icqcontroller/keeper/keeper_icq_async.go:18-61 | the invariant holds in every reachable state, whatever relayers, the remote chain and the consumer do |
| IcqProtocol.DeliveredAtMostOnce | x/icqcontroller/keeper/keeper.go:168-270 | no packet's value is delivered twice, and each is delivered with exactly the store and key sent in that packet |
| IcqProtocol.SendKeyIsFree | x/icqcontroller/keeper/keeper_icq_async.go:44-51 | the key written before a send is never occupied, so a send never overwrites a correlation |
| IcqProtocol.OpenOutcome | x/icqcontroller/module/module_ibc.go:33-74 | an open of a new channel with version icq-1 maps its first hop to it; any other changes nothing |
| IcqProtocol.SendOutcome | x/icqcontroller/keeper/keeper_icq_async.go:18-61 | the packet carries the path /store/<store>/key and the key as data, its correlation is kept under channel/sequence, and the identifier is port/channel#sequence |
| IcqProtocol.AckOutcome | x/icqcontroller/keeper/keeper.go:168-270 | what becomes of packet, correlation and delivery for each kind of acknowledgement, with and without a consumer |
| IcqProtocol.TimeoutOutcome | x/icqcontroller/keeper/keeper.go:273-290 | a timeout of a packet in flight drops it and its correlation and nothing else |
| IcqProtocol.FirstValueIsLeftmost | x/icqcontroller/keeper/ack_icq_async.go:38-51 | the value is the leftmost one that is not empty, and empty exactly when all are |
| IcqProtocol.PendingCount | x/icqcontroller/keeper/keeper_icq_async.go:44-61 | over any run the number of pending entries is successful sends less resolved packets |
| IcqProtocol.CloseKeepsMappingIff | x/icqcontroller/module/module_ibc.go:112-124 | a close leaves a connection's mapping to another channel alone exactly when the closed channel ran over another connection |
| IcqProtocol.ClosingTheOldChannelUnmapsTheNewOne | x/icqcontroller/module/module_ibc.go:112-124 | after two opens over one connection, closing the first channel leaves no channel to send on |
| PriceGuard.GuardBounds | x/osmosisicq/keeper/keeper.go:199-222 | the guard passes every price within the exact ratio and none further off than one unit in the last place beyond it |
| PriceGuard.AcceptedStep | x/osmosisicq/keeper/keeper.go:168-238 | with a guard between 0 and 1 an accepted price is positive and within MaxDeviation plus 10^-18 of the stored one |
| PriceGuard.PositivityNeedsGuard | x/osmosisicq/keeper/keeper.go:199-222 | for each stored price, every accepted one is positive if and only if the stored one is and 0 < MaxDeviation < 1 |
| PriceGuard.ReciprocalBound | x/osmosisicq/keeper/keeper.go:244-262 | for the ucsv/uusdc pair the stored reciprocal is within half a unit plus 10^-18 unit in the last place of the true one |
| PriceGuard.ReciprocalAntitone | x/osmosisicq/keeper/keeper.go:244-262 | a higher price never has a higher reciprocal, through truncation and half-even rounding |
| Decimal.ChopIsNearest | x/osmosisicq/keeper/keeper.go:208 | the decimal division and multiplication round to a nearest unit, and to the even one in a tie |
| PriceFeed.RunKeepsInv | x/osmosisicq/keeper/keeper.go:80-159 | the protocol invariant survives every run of the scheduler, the consumer and parameter changes together |
| PriceFeed.OnlyAcceptedMoves | x/osmosisicq/keeper/keeper.go:168-238 | only an accepted result changes the price and the result time; dropped and failed ones change neither |
| FeedOutcomes.ResultStoredIff | x/osmosisicq/keeper/keeper.go:168-238 | with both parameters parsing, a result is stored with its time if and only if its liquidity, counted from zero, is at least the minimum and, when price and guard are there, its rounded deviation is at most the maximum; else nothing changes |
| FeedOutcomes.ResultErrorIff | x/osmosisicq/keeper/keeper.go:168-195 | it is an error if and only if parameters are missing or the one looked at does not parse; low liquidity drops a result before the deviation is looked at |
| FeedOutcomes.NormalizeLiteral | x/osmosisicq/keeper/keeper.go:244-262 | only the ucsv/uusdc price is turned over, a zero one left zero |
| FeedOutcomes.AckSetsPriceIff | x/osmosisicq/keeper/decode.go:19-54 | from acknowledgement to price: the price and its time are set if and only if the packet is in flight, its query was of one of the two stores, a value is there, a quote is in it, and that is good enough |
| FeedOutcomes.OnlyLiquidAnswersMove | x/osmosisicq/keeper/keeper.go:179-192 | over any run, whatever moves the price but a setting by hand is an acknowledgement whose quote has at least the minimum liquidity then in force |
| PriceFeed.PriceDrift | x/osmosisicq/keeper/keeper.go:168-238 | after n accepted results in any run, parameter changes included that keep the guard on and at most d < 1, the price is positive and within the n-th power of 1 ± (d + 10^-18) of the start |
| PriceFeed.RateLimitIff | x/osmosisicq/keeper/keeper.go:85-107 | a round holds the next one back for its interval if and only if the 64-bit addition does not overflow, and makes every later block due if and only if it does |
| PriceFeed.ClockIsLatestRound | x/osmosisicq/keeper/keeper.go:144-150 | in every state of a run LastUpdate is the time of the latest round and NextUpdate is LastUpdate plus the interval in force then, when that fits |
| PriceFeed.FiringsAreSpaced | x/osmosisicq/keeper/keeper.go:85-150 | over any run, consecutive rounds are at least the interval in force at the earlier one apart, whatever the parameters do in between |
| PriceFeed.FiringRate | x/osmosisicq/keeper/keeper.go:85-150 | k rounds at intervals no shorter than a given one span at least k - 1 of those |
| PriceFeed.AcceptedWithinQueries | x/osmosisicq/keeper/keeper.go:108-129 | over any run, accepted results and pending queries together are at most the queries pending at the start and two for each round |
| PriceFeed.DriftOverTime | x/osmosisicq/keeper/keeper.go:85-238 | scheduler, protocol and guard together bound the drift by time: within the n-th power of 1 ± (d + 10^-18), where n counts the queries pending at the start and two for each interval begun |
| PriceFeed.RoundAsksTwice | x/osmosisicq/keeper/keeper.go:108-129 | a TWAP round whose sends succeed puts exactly the TWAP and the pool query in flight, under consecutive sequence numbers, with their correlations |
| FeedOutcomes.RoundAsks | x/osmosisicq/keeper/keeper.go:108-150 | a round asks the pool, in TWAP mode the TWAP before it, each unless its own send is refused and with the literal path, key, number and recorded identifier; without a mapped connection nothing; and marks the clock |
| FeedOutcomes.NoRound | x/osmosisicq/keeper/keeper.go:80-107 | a block before the next time, or before the last one plus the interval when only that is recorded, changes nothing; nor does one without parameters or with a zero interval |
| PriceFeed.AnsweredQuerySetsPrice | x/osmosisicq/keeper/decode.go:19-54 | from block to price: the answer to that query, when it passes the guards, becomes the stored price and resolves that query alone |
| Keepers.FeedKeeper.ValidateAndPersistPrice | x/osmosisicq/keeper/keeper.go:168-238 | the guarded update in the source's order is the specified decision; on error or drop nothing changes |
| Keepers.FeedKeeper.OnKVResult | x/osmosisicq/keeper/decode.go:19-54 | dispatch by store, with unknown stores ignored and empty or undecodable values refused |
| Keepers.FeedKeeper.ScheduleQueriesIfDue | x/osmosisicq/keeper/keeper.go:80-159 | the begin-block method on the two keepers is the atomic scheduler step, failed registrations included; without a client or controller a due round is only marked |
| Keepers.Controller.OnChanOpen | x/icqcontroller/module/module_ibc.go:33-74 | an open with the right version maps the first hop's connection to the channel |
| Keepers.Controller.OnChanCloseConfirm | x/icqcontroller/module/module_ibc.go:112-124 | a close removes the mapping of the closed channel's connection |
| Keepers.Controller.SendKVQuery | x/icqcontroller/keeper/keeper_icq_async.go:18-61 | writing the correlation first and removing it on failure amounts to an atomic send: a failed one changes nothing at all |
| Keepers.ClientAdapter.RegisterKVQuery | x/osmosisicq/module/icq_async_provider.go:45-67 | without a controller or a mapped channel nothing is sent; otherwise it is the send |
| Keepers.Controller.ExtractValue | x/icqcontroller/keeper/ack_icq_async.go:17-51 | the loop finds the first non-empty response value, or the empty value when there is none |
| Keepers.Controller.HandlePacketAcknowledgement | x/icqcontroller/keeper/keeper.go:168-270 | the correlation is removed on every path past the lookup; the consumer is called once, with the recorded store, only for a decoded non-empty value; without a consumer the correlation is dropped and nothing else happens |
| Keepers.Controller.AcknowledgePacket | x/icqcontroller/module/module_ibc.go:148-160 | with rollback on error, relaying an acknowledgement is the atomic step on controller, core and feed together |
| Keepers.Controller.TimeoutPacket | x/icqcontroller/module/module_ibc.go:163-174 | a timeout clears the packet and its correlation |
| Keepers.OracleKeeper.GetExchangeRate | x/oracle/keeper/keeper.go:88-100 | an unset or zero price and a foreign symbol give no rate |
| Keepers.OracleKeeper.SetPrice | x/oracle/keeper/msg_server_set_price.go:14-55 | only a positive price for CSV or ucsv from a valid address is stored; a price that is not positive is no error |
| FeeParams.ValidateHybridFields | x/fees/types/params.go:160-186 | accepts if and only if the mode is known, non-empty system URLs are pairwise distinct and none of the exempt ones is among them |
| FeeParams.ValidateFeeTable | x/fees/types/params.go:188-236 | accepts if and only if no fee is negative and every non-zero fee's split sums to one, entries with a nil fee skipped and nil parts counted as zero |
| FeeParams.ValidateOracleParams | x/fees/types/params.go:238-256 | accepts if and only if the request number and the three durations are positive and the deviation limit is there and between 0 and 1 |
| FeeParams.ValidateGuardRails | x/fees/types/params.go:258-275 | accepts if and only if the two prices are there, not negative and in order, and both gas limits are positive |
| FeeParams.ValidateMinGasPolicy | x/fees/types/params.go:277-283 | accepts if and only if the global price is there and not negative |
| FeeParams.Validate | x/fees/types/params.go:137-158 | accepts if and only if the parameters look unset or every section is valid, and no nil decimal is asked a question that panics on it |
| FeeParams.ValidStoredIff | x/fees/types/params.go:188-274 | for parameters without nil decimals that is the validity the fee engine's theorems speak of |
| Classify.ExpandMessages | x/fees/keeper/fee_calculator.go:257-277 | the nested loops compute the recursive unwrapping to the depth limit, sealed Anys skipped |
| Classify.ExpandConcat | x/fees/keeper/fee_calculator.go:257-277 | unwrapping distributes over concatenation of message lists |
| Classify.ExpandAllIsLeaves | x/fees/keeper/fee_calculator.go:257-277 | within the depth limit, unwrapping is exactly the left-to-right list of leaves of the authz trees |
| Classify.ScanOrderIff | x/fees/keeper/fee_calculator.go:159-178 | scanning the exempt list first gives the same verdict for every URL if and only if no URL but the transfer's is in both lists; validated lists give it for every non-empty URL |
| Classify.ClassifyTransaction | x/fees/keeper/fee_calculator.go:182-251 | hints first, then all, some or no system messages, then the first message with a category of its own |
| Classify.SystemUrlIff | x/fees/keeper/fee_calculator.go:151-178 | a type URL is a system one if and only if it is not the ICS-20 transfer's and is listed, or is not exempt and starts with /ibc.core. |
| Classify.HintedCategory | x/fees/keeper/fee_calculator.go:182-200 | the category of each memo hint, in the order the hints take precedence |
| Classify.MixedIff | x/fees/keeper/fee_calculator.go:202-221 | without a hint, mixed if and only if some messages are system ones and some are not; system if and only if there are messages and all are |
| Classify.EconomicCategory | x/fees/keeper/fee_calculator.go:223-247 | without hint and system messages the leftmost message of an economic kind decides, each kind with its own category, whatever stands around it |
| Classify.UneconomicCategory | x/fees/keeper/fee_calculator.go:249-251 | without any such message it is a native transfer |
| Classify.SystemIff | x/fees/keeper/fee_calculator.go:182-277 | a transaction is a system transaction if and only if it has no memo hint and its authz trees, at any depth, have a leaf, only system leaves, and at most four levels of MsgExec |
| Classify.SealedMessageChangesNothing | x/fees/keeper/fee_calculator.go:265-271 | an inner message that was not unpacked can be left out anywhere without changing the category |
| Classify.SealedMessageIsSkipped | x/fees/keeper/fee_calculator.go:265-271 | an inner message that was not unpacked does not keep a transaction from being a system transaction |
| FeeEstimate.GuardRailsClamp | x/fees/keeper/fee_calculator.go:323-344 | the clamped fee is at least Min·gas, exceeds Max·gas by less than gas units, reports a price inside the rails, and clamping is idempotent |
| FeeEstimate.ExceedsMaxIff | x/fees/keeper/fee_calculator.go:329-341 | the clamped fee exceeds Max·gas if and only if the converted one does by less than one unit in the last place per unit of gas |
| FeeEstimate.ClampIsNotExact | x/fees/keeper/fee_calculator.go:338-341 | a fee above Max·gas that the rails leave alone exists |
| FeeEstimate.EstimateFee | x/fees/keeper/fee_calculator.go:55-148 | the estimate by category: free for system and zero-priced deploy and wizard within the gas cap, else converted and clamped |
| FeePricing.ConversionIsNearest | x/fees/keeper/oracle_adapter.go:120-129 | CSV is USD times the rate to the nearest unit, the even one in a tie; without a rate or at zero a USD is a CSV |
| FeePricing.ConversionIsMonotone | x/fees/keeper/oracle_adapter.go:120-129 | more USD or a higher positive rate never comes to less |
| FeePricing.EstimateByCategory | x/fees/keeper/fee_calculator.go:55-148 | for each category its own table entry is charged: the conversion itself between the rails, else the rail it is beyond; deploy and wizard are free up to their own gas caps when their entry is zero; system is free |
| FeeEstimate.FeeAcceptedIff | x/fees/keeper/fee_calculator.go:347-398 | a positive fee is accepted if and only if the ucsv paid is within a twentieth, rounded down, of the amount asked |
| FeePricing.AskedLiteral | x/fees/keeper/fee_calculator.go:347-364 | a charged fee asks for its millionths of a CSV rounded down, and for one when that is none |
| FeePricing.FeeCheckIff | x/fees/keeper/fee_calculator.go:367-398 | the check of a fee, whole: free means no fee, zero is paid by anything, positive within a twentieth, negative by a single ucsv when it truncates to none |
| FeeEstimate.AnteHandle | x/fees/keeper/ante_handler.go:33-130 | the handler's branches over mode and category give the specified admission; it fails open without parameters |
| FeeEstimate.AdmissionInterval | x/fees/keeper/ante_handler.go:79-120 | in table and hybrid mode a transaction admitted with positive gas that fits int64 is system, or free with no fee and its gas within the cap, or pays within a twentieth of an amount between the rails; and paying that is enough |
| FeeEstimate.ZeroGasAdmission | x/fees/keeper/ante_handler.go:79-120 | with gas 0, admitted if and only if the converted fee is zero, whatever is paid; or positive and paid within a twentieth; or negative, truncating to zero ucsv, and paid with one |
| FeePricing.AdmissionByMode | x/fees/keeper/ante_handler.go:33-130 | skipped when simulating or without parameters; the fee is checked in every mode but gas_only, and but for system transactions in hybrid mode; what can be estimated and passes is admitted |
| FeePricing.FreeTierAdmission | x/fees/keeper/ante_handler.go:110-118 | a deploy or wizard transaction with a zero entry is admitted if and only if its gas is within its own cap and, outside gas_only mode, it carries no fee |
| FeePricing.GasOnlyAdmission | x/fees/keeper/ante_handler.go:81-84 | in gas_only mode a transaction that is not free is admitted whatever it pays |
| FeeEstimate.MinimumHoldsIffGasFits | x/fees/keeper/fee_calculator.go:329-341 | the amount asked respects the minimum gas price if and only if the gas fits int64 |
| FeeEstimate.OneUcsvPassesIff | x/fees/keeper/fee_calculator.go:323-398 | with gas from 2^63 on, the fee handler admits a fee of one ucsv if and only if the negative estimate is above -10^-6 CSV |
| FeeEstimate.HugeGasSlipsUnderTheRail | x/fees/keeper/fee_calculator.go:329-341 | at gas 2^64 - 1 the fee handler admits a fee of one ucsv although the rail asks for over eighteen million |
| Ledger.TransferEffect | x/fees/keeper/keeper.go:333-359 | a transfer moves its amount between two balances and keeps every supply, sender and recipient the same or not |
| Distribution.SplitAlgebra | x/fees/keeper/keeper.go:129-201 | for non-negative splits whose parts beside the treasury's sum to at most one, the final shares are non-negative and sum to the lesser of the amount and the sum of floors, for all combinations of missing recipients |
| Distribution.DustIsAtMostThree | x/fees/keeper/keeper.go:268-333 | a split that sums to one or more shares out everything but at most three units, and no split more than there is |
| Distribution.DustIff | x/fees/keeper/keeper.go:268-333 | three units bound the dust of every amount if and only if the split sums to one or more |
| Distribution.SharesNonNegativeIff | x/fees/types/params.go:226-232 | for every split, the shares are non-negative for all amounts and recipients if and only if no part is negative and those beside the treasury's sum to at most one |
| Distribution.DistributionFailsIff | x/fees/keeper/keeper.go:319-359 | with the funds there and nobody blocked, a distribution fails if and only if a final share is negative, however payer and recipients coincide |
| Distribution.DistributionNeverFailsIff | x/fees/keeper/keeper.go:319-359 | every split can be paid out for every amount within the balance if and only if it meets that same condition |
| Distribution.ValidSplitCanBeNegative | x/fees/types/params.go:188-236 | a validated entry can yield a negative share: a charged one by a negative part, one with a zero fee by non-negative parts beyond one |
| Distribution.SplitFollowsChargeIff | x/fees/keeper/keeper.go:250-266 | the split comes from the entry the fee was estimated from, for every table, if and only if the category is neither POS nor wizard |
| FeeRecipients.SplitEntries | x/fees/keeper/keeper.go:250-266 | the table entry of each fee type, text by text; deploy from the module only, all unknown texts as native transfer |
| Distribution.RightfulIff | x/fees/keeper/keeper.go:280-317 | an address named by the metadata beats the wallet parameter, a developer or creator named alone stands for both, and without either each has the wallet of his own; these are the recipients and no others |
| Distribution.PaySharesEffect | x/fees/keeper/keeper.go:336-359 | the four sends take the sum of the shares from the payer and give each recipient its shares, however they coincide |
| FeeRecipients.ModulePaysOwed | x/fees/keeper/keeper.go:244-364 | on the balances: whoever a wallet parameter decodes to gains the cut of that part of the split, rounded down, the treasury its own and those of missing wallets, however the accounts coincide |
| FeeRecipients.SenderPaysOwed | x/fees/keeper/keeper.go:104-239 | the same from a paying account, with the addresses named in the metadata first |
| FeeRecipients.FourWallets | x/fees/keeper/keeper.go:268-364 | four different accounts and a split that sums to one: each gains exactly its own part of the amount, rounded down, and nobody else anything |
| FeeRecipients.CollectPaysOwed | x/fees/keeper/ante_handler.go:248-323 | collecting a fee of many coins pays every account but payer and module what it is owed of each |
| FeeCollection.DistributedIsNonNegative | x/fees/keeper/keeper.go:336-359 | what a distribution from the module pays out is never negative |
| FeeCollection.CollectConserves | x/fees/keeper/ante_handler.go:248-323 | deduct-then-distribute keeps every supply for any aliasing and any split; a fees account that is neither payer nor recipient never loses, and keeps at most 3 units per coin when the split sums to one or more |
| FeeCollection.RunConserves | x/fees/keeper/ante_handler.go:304-323 | over any run of any transactions the supply is constant; a fees account that is neither payer nor recipient never loses, and accumulates at most 3 units per coin distributed when the splits sum to one or more |
| FeeCollection.CollectIff | x/fees/keeper/ante_handler.go:248-323 | with the fees account neither payer nor recipient and nobody blocked, collection succeeds if and only if there is no fee, or the payer is known and covers positive coins none of which has a negative share |
| FeeCollection.ChargeFeeMovesTheFee | x/fees/keeper/msg_server_charge_fee.go:14-111 | charging keeps every supply, is free for deploy and wizard, and otherwise pays out non-negative shares of at most the reported fee, less at most 3 units when the split sums to one or more |
| FeeCollection.ChargeFeeIff | x/fees/keeper/msg_server_charge_fee.go:14-111 | charging succeeds if and only if the address and category are good and the fee is free, or non-negative, covered, within the gas meter and without a negative share |
| FeePricing.ChargeByCategory | x/fees/keeper/msg_server_charge_fee.go:28-66 | category by category, the fee reported is the conversion of its own table entry in ucsv, rounded down; nothing for deploy and wizard |
| FeePricing.ChargeEntries | x/fees/keeper/msg_server_charge_fee.go:28-46 | the table entry of each chargeable category |
| FeeKeeper.ComputeShares | x/fees/keeper/keeper.go:268-333 | the reassigned amounts are the truncated, clamped and remapped shares |
| FeeKeeper.ResolveRecipients | x/fees/keeper/keeper.go:280-317 | metadata first, developer and creator standing in for each other, then the parameters |
| FeeKeeper.Keeper.DistributeFeeFromModule | x/fees/keeper/keeper.go:244-364 | the sequential sends from the module account are the specified distribution, failing when any send fails |
| FeeKeeper.Keeper.DistributeFee | x/fees/keeper/keeper.go:104-239 | the same from a paying account, with the table that has no deploy case |
| FeeKeeper.Keeper.CollectFees | x/fees/keeper/ante_handler.go:248-323 | the deduct decorator with the category of the estimate, rolled back as a whole when any part fails |
| FeeKeeper.Keeper.ChargeFee | x/fees/keeper/msg_server_charge_fee.go:14-111 | the message handler is the specified step, rolled back on every error and panic |
| FeeFlow.AdmittedPayerPaysWithinRails | x/fees/keeper/ante_handler.go:79-130 | from estimate to ledger: the payer of an admitted, collected fee loses ucsv within a twentieth of an amount between the rails for his gas |

## Left out

- Unmarshal: on an error the generated code leaves the message partly filled; the model returns the error alone.
- CodecLaws.RoundTrip: custom leaves (LegacyDec, Duration) are byte strings with an arbitrary reading function, assumed to read their own printed form back; the decimal and duration text formats belong to other libraries.
- FeeEstimate and Distribution: parameters with nil decimals, on which the fee arithmetic panics; `FeeParams` validates them.
- Keepers.Controller: there is one port; sequence numbers are unbounded, and the stored JSON text of a correlation is the record it encodes.
- IcqProtocol.State: channel ordering, counterparties, capabilities, timeouts' clock and the handshake inside IBC core are environment; a send's acceptance and a relayed packet are arbitrary inputs.
- PriceFeed.Decoder: the text formats of query values are one arbitrary partial function.
- Decimal: the panic on values above 315 bits.
- Classify.Memo: the keyword searches in memos and contract messages are flags.
- FeeEstimate.AmountOf: takes the first coin of a denomination; on an unsorted list, which the bank refuses later, the library's binary search may differ.
- FeeEstimate.EstimateFee: parameters are present; the fallback to default parameters is reached only outside the ante handler.
- Ledger: locked balances, send restrictions other than blocked addresses, and coin sorting.
- FeeKeeper.Keeper.ChargeFee: the metadata JSON is a map of its string values, and gas is metered without a limit.
- Events, logging, the parsing of fee metadata for events, genesis, CLI and gRPC code have no state effect of interest here.
- The remaining generated message files have the same shapes and would add only further tables.
