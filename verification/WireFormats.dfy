/** The bytes of each message of x/fees, field by field under the tags of the generated code, and what
    those bytes set when they are read. The messages are records of named fields here. */
module WireFormats {
  import opened Wire
  import opened Messages
  import opened CodecLaws
  import opened FieldTables

  /* ---------- the messages, by field name ---------- */

  datatype FeeSplitMsg = FeeSplitMsg(treasury: Bytes, retailWallet: Bytes, tokenDev: Bytes, tokenCreator: Bytes) {
    function Rec(): Record {
      [LeafV(treasury), LeafV(retailWallet), LeafV(tokenDev), LeafV(tokenCreator)]
    }
  }

  datatype FeeConfigMsg = FeeConfigMsg(usdAmount: Bytes, split: FeeSplitMsg) {
    function Rec(): Record {
      [LeafV(usdAmount), MessageV(split.Rec())]
    }
  }

  datatype FeeTableMsg = FeeTableMsg(
    posPayment: FeeConfigMsg, tokenInteraction: FeeConfigMsg, nativeTransfer: FeeConfigMsg, dexNative: FeeConfigMsg,
    dexUser: FeeConfigMsg, deploy: FeeConfigMsg, wizard: FeeConfigMsg) {
    function Rec(): Record {
      [MessageV(posPayment.Rec()), MessageV(tokenInteraction.Rec()), MessageV(nativeTransfer.Rec()),
       MessageV(dexNative.Rec()), MessageV(dexUser.Rec()), MessageV(deploy.Rec()), MessageV(wizard.Rec())]
    }
  }

  datatype OracleParamsMsg = OracleParamsMsg(bandRequestId: UInt64, twapWindow: Bytes, deviationLimit: Bytes,
    fallbackTtl: Bytes, maxPriceAge: Bytes) {
    function Rec(): Record {
      [UIntV(bandRequestId), LeafV(twapWindow), LeafV(deviationLimit), LeafV(fallbackTtl), LeafV(maxPriceAge)]
    }
  }

  datatype GuardRailsMsg = GuardRailsMsg(minGasPriceCsv: Bytes, maxGasPriceCsv: Bytes, maxGasWizard: UInt64,
    maxGasDeploy: UInt64) {
    function Rec(): Record {
      [LeafV(minGasPriceCsv), LeafV(maxGasPriceCsv), UIntV(maxGasWizard), UIntV(maxGasDeploy)]
    }
  }

  datatype MinGasPolicyMsg = MinGasPolicyMsg(enabled: bool, globalMinGasPrice: Bytes, allowPerTxOverride: bool) {
    function Rec(): Record {
      [BoolV(enabled), LeafV(globalMinGasPrice), BoolV(allowPerTxOverride)]
    }
  }

  datatype ParamsMsg = ParamsMsg(
    feeTableUsd: FeeTableMsg, oracleParams: OracleParamsMsg, guardRails: GuardRailsMsg, minGasPolicy: MinGasPolicyMsg,
    treasuryWallet: Bytes, retailWallet: Bytes, tokenDevWallet: Bytes, tokenCreatorWallet: Bytes, feeMode: Bytes,
    systemMsgTypeUrls: seq<Bytes>, exemptMsgTypeUrls: seq<Bytes>, exemptAddresses: seq<Bytes>) {
    function Rec(): Record {
      [MessageV(feeTableUsd.Rec()), MessageV(oracleParams.Rec()), MessageV(guardRails.Rec()),
       MessageV(minGasPolicy.Rec()), StrV(treasuryWallet), StrV(retailWallet), StrV(tokenDevWallet),
       StrV(tokenCreatorWallet), StrV(feeMode), ListV(systemMsgTypeUrls), ListV(exemptMsgTypeUrls),
       ListV(exemptAddresses)]
    }
  }

  /* ---------- the bytes of one field ---------- */

  /** A field that is always written: its tag, its length, its bytes. */
  function Tagged(tag: Byte, payload: Bytes): Bytes {
    [tag] + EncodeVarint(|payload|) + payload
  }

  function TaggedList(tag: Byte, items: seq<Bytes>): Bytes {
    if items == [] then [] else Tagged(tag, items[0]) + TaggedList(tag, items[1..])
  }

  function TaggedUInt(tag: Byte, n: UInt64): Bytes {
    if n == 0 then [] else [tag] + EncodeVarint(n)
  }

  function TaggedBool(tag: Byte, b: bool): Bytes {
    if b then [tag, 1] else []
  }

  lemma {:induction false} LeafBytes(num: nat, read: (Bytes, Bytes) -> Result<Bytes>, zero: Bytes, text: Bytes)
    requires num <= 15
    ensures EncodeField(Leaf(num, read, zero), LeafV(text)) == Tagged(num * 8 + 2, text)
  {
  }

  lemma {:induction false} MessageBytes(num: nat, slots: seq<Slot>, m: Record)
    requires num <= 15 && GoodTable(slots) && Fits(slots, m)
    ensures EncodeField(Message(num, slots), MessageV(m)) == Tagged(num * 8 + 2, Encode(slots, m))
  {
  }

  lemma {:induction false} UIntBytes(num: nat, n: UInt64)
    requires num <= 15
    ensures EncodeField(UInt(num), UIntV(n)) == TaggedUInt(num * 8, n)
  {
  }

  lemma {:induction false} BoolBytes(num: nat, b: bool)
    requires num <= 15
    ensures EncodeField(Bool(num), BoolV(b)) == TaggedBool(num * 8, b)
  {
  }

  lemma {:induction false} ListBytes(num: nat, items: seq<Bytes>)
    requires num <= 15
    ensures EncodeField(Repeated(num), ListV(items)) == TaggedList(num * 8 + 2, items)
    decreases items
  {
    if items != [] {
      ListBytes(num, items[1..]);
    }
  }

  /** The encoding starts with the bytes `done` for the fields before k. */
  ghost predicate Begins(slots: seq<Slot>, m: Record, k: nat, done: Bytes) {
    GoodTable(slots) && Fits(slots, m) && k <= |slots| && Encode(slots, m) == done + EncodeFrom(slots, m, k)
  }

  lemma {:induction false} FirstField(slots: seq<Slot>, m: Record, field: Bytes)
    requires GoodTable(slots) && Fits(slots, m) && slots != [] && EncodeField(slots[0], m[0]) == field
    ensures Begins(slots, m, 1, field)
  {
    hide EncodeField, GoodTable, Fits;
  }

  lemma {:induction false} MoreFields(slots: seq<Slot>, m: Record, k: nat, done: Bytes, field: Bytes)
    requires GoodTable(slots) && Fits(slots, m) && k < |slots| && EncodeField(slots[k], m[k]) == field
    requires Begins(slots, m, k, done)
    ensures Begins(slots, m, k + 1, done + field)
  {
    hide EncodeField, GoodTable, Fits;
    assert done + (field + EncodeFrom(slots, m, k + 1)) == done + field + EncodeFrom(slots, m, k + 1);
  }

  lemma {:induction false} TextField(slots: seq<Slot>, m: Record, k: nat, done: Bytes, text: Bytes)
    requires Begins(slots, m, k, done) && k < |slots| && k < 15 && slots[k] == Str(k + 1) && m[k] == StrV(text)
    ensures Begins(slots, m, k + 1, done + TaggedString(k * 8 + 10, text))
  {
    StringFieldBytes(k + 1, text);
    MoreFields(slots, m, k, done, TaggedString(k * 8 + 10, text));
  }

  lemma {:induction false} ListField(slots: seq<Slot>, m: Record, k: nat, done: Bytes, items: seq<Bytes>)
    requires Begins(slots, m, k, done) && k < |slots| && k < 15 && slots[k] == Repeated(k + 1) && m[k] == ListV(items)
    ensures Begins(slots, m, k + 1, done + TaggedList(k * 8 + 10, items))
  {
    ListBytes(k + 1, items);
    MoreFields(slots, m, k, done, TaggedList(k * 8 + 10, items));
  }

  lemma {:induction false} AllFields(slots: seq<Slot>, m: Record, done: Bytes)
    requires Begins(slots, m, |slots|, done)
    ensures GoodTable(slots) && Fits(slots, m) && Encode(slots, m) == done
  {
    hide GoodTable, Fits;
  }

  lemma {:induction false} LastField(slots: seq<Slot>, m: Record, k: nat, done: Bytes, field: Bytes)
    requires GoodTable(slots) && Fits(slots, m) && k + 1 == |slots| && EncodeField(slots[k], m[k]) == field
    requires Begins(slots, m, k, done)
    ensures Encode(slots, m) == done + field
  {
    MoreFields(slots, m, k, done, field);
    assert EncodeFrom(slots, m, |slots|) == [];
    assert done + field + [] == done + field;
    hide EncodeField, GoodTable, Fits, Encode, EncodeFrom;
  }

  /* ---------- the bytes of each message ---------- */

  function FeeSplitBytes(x: FeeSplitMsg): Bytes {
    Tagged(0x0a, x.treasury) + Tagged(0x12, x.retailWallet) + Tagged(0x1a, x.tokenDev)
    + Tagged(0x22, x.tokenCreator)
  }

  lemma {:induction false} FeeSplitFits(t: Leaves, x: FeeSplitMsg)
    ensures GoodTable(FeeSplitTable(t)) && Fits(FeeSplitTable(t), x.Rec())
  {
    SplitTableIsGood(t);
  }

  /** The encoding of a FeeSplit is those bytes. */
  lemma {:induction false} FeeSplitWire(t: Leaves, x: FeeSplitMsg)
    ensures GoodTable(FeeSplitTable(t)) && Fits(FeeSplitTable(t), x.Rec())
    ensures Encode(FeeSplitTable(t), x.Rec()) == FeeSplitBytes(x)
  {
    var slots, m := FeeSplitTable(t), x.Rec();
    FeeSplitFits(t, x);
    LeafBytes(1, t.readDec, t.zeroDec, x.treasury);
    LeafBytes(2, t.readDec, t.zeroDec, x.retailWallet);
    LeafBytes(3, t.readDec, t.zeroDec, x.tokenDev);
    LeafBytes(4, t.readDec, t.zeroDec, x.tokenCreator);
    hide Encode, EncodeField, EncodeFrom, GoodTable, Fits, Begins, Tagged;
    var done := Tagged(0x0a, x.treasury);
    FirstField(slots, m, done);
    MoreFields(slots, m, 1, done, Tagged(0x12, x.retailWallet));
    done := done + Tagged(0x12, x.retailWallet);
    MoreFields(slots, m, 2, done, Tagged(0x1a, x.tokenDev));
    done := done + Tagged(0x1a, x.tokenDev);
    LastField(slots, m, 3, done, Tagged(0x22, x.tokenCreator));
  }

  function FeeConfigBytes(x: FeeConfigMsg): Bytes {
    Tagged(0x0a, x.usdAmount) + Tagged(0x12, FeeSplitBytes(x.split))
  }

  lemma {:induction false} FeeConfigFits(t: Leaves, x: FeeConfigMsg)
    ensures GoodTable(FeeConfigTable(t)) && Fits(FeeConfigTable(t), x.Rec())
  {
    SplitTableIsGood(t);
    FeeSplitFits(t, x.split);
    hide FeeSplitTable, GoodTable;
  }

  /** The encoding of a FeeConfig is those bytes. */
  lemma {:induction false} FeeConfigWire(t: Leaves, x: FeeConfigMsg)
    ensures GoodTable(FeeConfigTable(t)) && Fits(FeeConfigTable(t), x.Rec())
    ensures Encode(FeeConfigTable(t), x.Rec()) == FeeConfigBytes(x)
  {
    var slots, m := FeeConfigTable(t), x.Rec();
    FeeConfigFits(t, x);
    LeafBytes(1, t.readDec, t.zeroDec, x.usdAmount);
    FeeSplitWire(t, x.split);
    MessageBytes(2, FeeSplitTable(t), x.split.Rec());
    hide Encode, EncodeField, EncodeFrom, GoodTable, Fits, Begins, Tagged, FeeSplitTable, FeeSplitBytes;
    var done := Tagged(0x0a, x.usdAmount);
    FirstField(slots, m, done);
    LastField(slots, m, 1, done, Tagged(0x12, FeeSplitBytes(x.split)));
  }

  function FeeTableBytes(x: FeeTableMsg): Bytes {
    Tagged(0x0a, FeeConfigBytes(x.posPayment)) + Tagged(0x12, FeeConfigBytes(x.tokenInteraction))
    + Tagged(0x1a, FeeConfigBytes(x.nativeTransfer)) + Tagged(0x22, FeeConfigBytes(x.dexNative))
    + Tagged(0x2a, FeeConfigBytes(x.dexUser)) + Tagged(0x32, FeeConfigBytes(x.deploy))
    + Tagged(0x3a, FeeConfigBytes(x.wizard))
  }

  lemma {:induction false} FeeTableFits(t: Leaves, x: FeeTableMsg)
    ensures GoodTable(FeeTableUsdTable(t)) && Fits(FeeTableUsdTable(t), x.Rec())
  {
    FeeTableIsGood(t);
    FeeConfigFits(t, x.posPayment);
    FeeConfigFits(t, x.tokenInteraction);
    FeeConfigFits(t, x.nativeTransfer);
    FeeConfigFits(t, x.dexNative);
    FeeConfigFits(t, x.dexUser);
    FeeConfigFits(t, x.deploy);
    FeeConfigFits(t, x.wizard);
    hide FeeConfigTable, GoodTable;
  }

  /** The encoding of a FeeTableUSD is those bytes. */
  lemma {:induction false} FeeTableWire(t: Leaves, x: FeeTableMsg)
    ensures GoodTable(FeeTableUsdTable(t)) && Fits(FeeTableUsdTable(t), x.Rec())
    ensures Encode(FeeTableUsdTable(t), x.Rec()) == FeeTableBytes(x)
  {
    var slots, m := FeeTableUsdTable(t), x.Rec();
    FeeTableFits(t, x);
    FeeConfigWire(t, x.posPayment);
    MessageBytes(1, FeeConfigTable(t), x.posPayment.Rec());
    FeeConfigWire(t, x.tokenInteraction);
    MessageBytes(2, FeeConfigTable(t), x.tokenInteraction.Rec());
    FeeConfigWire(t, x.nativeTransfer);
    MessageBytes(3, FeeConfigTable(t), x.nativeTransfer.Rec());
    FeeConfigWire(t, x.dexNative);
    MessageBytes(4, FeeConfigTable(t), x.dexNative.Rec());
    FeeConfigWire(t, x.dexUser);
    MessageBytes(5, FeeConfigTable(t), x.dexUser.Rec());
    FeeConfigWire(t, x.deploy);
    MessageBytes(6, FeeConfigTable(t), x.deploy.Rec());
    FeeConfigWire(t, x.wizard);
    MessageBytes(7, FeeConfigTable(t), x.wizard.Rec());
    hide Encode, EncodeField, EncodeFrom, GoodTable, Fits, Begins, Tagged, FeeConfigTable, FeeConfigBytes;
    var done := Tagged(0x0a, FeeConfigBytes(x.posPayment));
    FirstField(slots, m, done);
    MoreFields(slots, m, 1, done, Tagged(0x12, FeeConfigBytes(x.tokenInteraction)));
    done := done + Tagged(0x12, FeeConfigBytes(x.tokenInteraction));
    MoreFields(slots, m, 2, done, Tagged(0x1a, FeeConfigBytes(x.nativeTransfer)));
    done := done + Tagged(0x1a, FeeConfigBytes(x.nativeTransfer));
    MoreFields(slots, m, 3, done, Tagged(0x22, FeeConfigBytes(x.dexNative)));
    done := done + Tagged(0x22, FeeConfigBytes(x.dexNative));
    MoreFields(slots, m, 4, done, Tagged(0x2a, FeeConfigBytes(x.dexUser)));
    done := done + Tagged(0x2a, FeeConfigBytes(x.dexUser));
    MoreFields(slots, m, 5, done, Tagged(0x32, FeeConfigBytes(x.deploy)));
    done := done + Tagged(0x32, FeeConfigBytes(x.deploy));
    LastField(slots, m, 6, done, Tagged(0x3a, FeeConfigBytes(x.wizard)));
  }

  function OracleParamsBytes(x: OracleParamsMsg): Bytes {
    TaggedUInt(0x08, x.bandRequestId) + Tagged(0x12, x.twapWindow) + Tagged(0x1a, x.deviationLimit)
    + Tagged(0x22, x.fallbackTtl) + Tagged(0x2a, x.maxPriceAge)
  }

  lemma {:induction false} OracleParamsFits(t: Leaves, x: OracleParamsMsg)
    ensures GoodTable(OracleParamsTable(t)) && Fits(OracleParamsTable(t), x.Rec())
  {
    SectionTablesAreGood(t);
  }

  /** The encoding of OracleParams is those bytes. */
  lemma {:induction false} OracleParamsWire(t: Leaves, x: OracleParamsMsg)
    ensures GoodTable(OracleParamsTable(t)) && Fits(OracleParamsTable(t), x.Rec())
    ensures Encode(OracleParamsTable(t), x.Rec()) == OracleParamsBytes(x)
  {
    var slots, m := OracleParamsTable(t), x.Rec();
    OracleParamsFits(t, x);
    UIntBytes(1, x.bandRequestId);
    LeafBytes(2, t.readDuration, t.zeroDuration, x.twapWindow);
    LeafBytes(3, t.readDec, t.zeroDec, x.deviationLimit);
    LeafBytes(4, t.readDuration, t.zeroDuration, x.fallbackTtl);
    LeafBytes(5, t.readDuration, t.zeroDuration, x.maxPriceAge);
    hide Encode, EncodeField, EncodeFrom, GoodTable, Fits, Begins, Tagged, TaggedUInt;
    var done := TaggedUInt(0x08, x.bandRequestId);
    FirstField(slots, m, done);
    MoreFields(slots, m, 1, done, Tagged(0x12, x.twapWindow));
    done := done + Tagged(0x12, x.twapWindow);
    MoreFields(slots, m, 2, done, Tagged(0x1a, x.deviationLimit));
    done := done + Tagged(0x1a, x.deviationLimit);
    MoreFields(slots, m, 3, done, Tagged(0x22, x.fallbackTtl));
    done := done + Tagged(0x22, x.fallbackTtl);
    LastField(slots, m, 4, done, Tagged(0x2a, x.maxPriceAge));
  }

  function GuardRailsBytes(x: GuardRailsMsg): Bytes {
    Tagged(0x0a, x.minGasPriceCsv) + Tagged(0x12, x.maxGasPriceCsv) + TaggedUInt(0x18, x.maxGasWizard)
    + TaggedUInt(0x20, x.maxGasDeploy)
  }

  lemma {:induction false} GuardRailsFits(t: Leaves, x: GuardRailsMsg)
    ensures GoodTable(GuardRailsTable(t)) && Fits(GuardRailsTable(t), x.Rec())
  {
    SectionTablesAreGood(t);
  }

  /** The encoding of GuardRails is those bytes. */
  lemma {:induction false} GuardRailsWire(t: Leaves, x: GuardRailsMsg)
    ensures GoodTable(GuardRailsTable(t)) && Fits(GuardRailsTable(t), x.Rec())
    ensures Encode(GuardRailsTable(t), x.Rec()) == GuardRailsBytes(x)
  {
    var slots, m := GuardRailsTable(t), x.Rec();
    GuardRailsFits(t, x);
    LeafBytes(1, t.readDec, t.zeroDec, x.minGasPriceCsv);
    LeafBytes(2, t.readDec, t.zeroDec, x.maxGasPriceCsv);
    UIntBytes(3, x.maxGasWizard);
    UIntBytes(4, x.maxGasDeploy);
    hide Encode, EncodeField, EncodeFrom, GoodTable, Fits, Begins, Tagged, TaggedUInt;
    var done := Tagged(0x0a, x.minGasPriceCsv);
    FirstField(slots, m, done);
    MoreFields(slots, m, 1, done, Tagged(0x12, x.maxGasPriceCsv));
    done := done + Tagged(0x12, x.maxGasPriceCsv);
    MoreFields(slots, m, 2, done, TaggedUInt(0x18, x.maxGasWizard));
    done := done + TaggedUInt(0x18, x.maxGasWizard);
    LastField(slots, m, 3, done, TaggedUInt(0x20, x.maxGasDeploy));
  }

  function MinGasPolicyBytes(x: MinGasPolicyMsg): Bytes {
    TaggedBool(0x08, x.enabled) + Tagged(0x12, x.globalMinGasPrice) + TaggedBool(0x18, x.allowPerTxOverride)
  }

  lemma {:induction false} MinGasPolicyFits(t: Leaves, x: MinGasPolicyMsg)
    ensures GoodTable(MinGasPolicyTable(t)) && Fits(MinGasPolicyTable(t), x.Rec())
  {
    SectionTablesAreGood(t);
  }

  /** The encoding of a MinGasPolicy is those bytes. */
  lemma {:induction false} MinGasPolicyWire(t: Leaves, x: MinGasPolicyMsg)
    ensures GoodTable(MinGasPolicyTable(t)) && Fits(MinGasPolicyTable(t), x.Rec())
    ensures Encode(MinGasPolicyTable(t), x.Rec()) == MinGasPolicyBytes(x)
  {
    var slots, m := MinGasPolicyTable(t), x.Rec();
    MinGasPolicyFits(t, x);
    BoolBytes(1, x.enabled);
    LeafBytes(2, t.readDec, t.zeroDec, x.globalMinGasPrice);
    BoolBytes(3, x.allowPerTxOverride);
    hide Encode, EncodeField, EncodeFrom, GoodTable, Fits, Begins, Tagged, TaggedBool;
    var done := TaggedBool(0x08, x.enabled);
    FirstField(slots, m, done);
    MoreFields(slots, m, 1, done, Tagged(0x12, x.globalMinGasPrice));
    done := done + Tagged(0x12, x.globalMinGasPrice);
    LastField(slots, m, 2, done, TaggedBool(0x18, x.allowPerTxOverride));
  }

  function SectionsBytes(x: ParamsMsg): Bytes {
    Tagged(0x0a, FeeTableBytes(x.feeTableUsd)) + Tagged(0x12, OracleParamsBytes(x.oracleParams))
    + Tagged(0x1a, GuardRailsBytes(x.guardRails)) + Tagged(0x22, MinGasPolicyBytes(x.minGasPolicy))
  }

  function AndTextsBytes(x: ParamsMsg): Bytes {
    SectionsBytes(x)
    + TaggedString(0x2a, x.treasuryWallet) + TaggedString(0x32, x.retailWallet) + TaggedString(0x3a, x.tokenDevWallet)
    + TaggedString(0x42, x.tokenCreatorWallet) + TaggedString(0x4a, x.feeMode)
  }

  function ParamsBytes(x: ParamsMsg): Bytes {
    AndTextsBytes(x)
    + TaggedList(0x52, x.systemMsgTypeUrls) + TaggedList(0x5a, x.exemptMsgTypeUrls)
    + TaggedList(0x62, x.exemptAddresses)
  }

  lemma {:induction false} ParamsFits(t: Leaves, x: ParamsMsg)
    ensures GoodTable(ParamsTable(t)) && Fits(ParamsTable(t), x.Rec())
  {
    ParamsTableIsGood(t);
    FeeTableFits(t, x.feeTableUsd);
    OracleParamsFits(t, x.oracleParams);
    GuardRailsFits(t, x.guardRails);
    MinGasPolicyFits(t, x.minGasPolicy);
    hide FeeTableUsdTable, GuardRailsTable, MinGasPolicyTable, OracleParamsTable, GoodTable;
  }

  /** The rows of the table and the fields of the record, one by one. */
  lemma {:induction false} ParamsRows(t: Leaves, x: ParamsMsg)
    ensures var slots, m := ParamsTable(t), x.Rec();
            && |slots| == |m| == 12
            && slots[0] == Message(1, FeeTableUsdTable(t)) && m[0] == MessageV(x.feeTableUsd.Rec())
            && slots[1] == Message(2, OracleParamsTable(t)) && m[1] == MessageV(x.oracleParams.Rec())
            && slots[2] == Message(3, GuardRailsTable(t)) && m[2] == MessageV(x.guardRails.Rec())
            && slots[3] == Message(4, MinGasPolicyTable(t)) && m[3] == MessageV(x.minGasPolicy.Rec())
            && slots[4] == Str(5) && m[4] == StrV(x.treasuryWallet)
            && slots[5] == Str(6) && m[5] == StrV(x.retailWallet)
            && slots[6] == Str(7) && m[6] == StrV(x.tokenDevWallet)
            && slots[7] == Str(8) && m[7] == StrV(x.tokenCreatorWallet) && slots[8] == Str(9) && m[8] == StrV(x.feeMode)
            && slots[9] == Repeated(10) && m[9] == ListV(x.systemMsgTypeUrls)
            && slots[10] == Repeated(11) && m[10] == ListV(x.exemptMsgTypeUrls)
            && slots[11] == Repeated(12) && m[11] == ListV(x.exemptAddresses)
  {
    hide FeeTableUsdTable, OracleParamsTable, GuardRailsTable, MinGasPolicyTable;
  }

  lemma {:induction false} SectionsWire(t: Leaves, x: ParamsMsg)
    ensures GoodTable(ParamsTable(t)) && Fits(ParamsTable(t), x.Rec())
    ensures Begins(ParamsTable(t), x.Rec(), 4, SectionsBytes(x))
  {
    assert SectionsBytes(x)
      == Tagged(0x0a, FeeTableBytes(x.feeTableUsd)) + Tagged(0x12, OracleParamsBytes(x.oracleParams))
      + Tagged(0x1a, GuardRailsBytes(x.guardRails)) + Tagged(0x22, MinGasPolicyBytes(x.minGasPolicy));
    hide *;
    var slots, m := ParamsTable(t), x.Rec();
    ParamsRows(t, x);
    ParamsFits(t, x);
    FeeTableWire(t, x.feeTableUsd);
    MessageBytes(1, FeeTableUsdTable(t), x.feeTableUsd.Rec());
    OracleParamsWire(t, x.oracleParams);
    MessageBytes(2, OracleParamsTable(t), x.oracleParams.Rec());
    GuardRailsWire(t, x.guardRails);
    MessageBytes(3, GuardRailsTable(t), x.guardRails.Rec());
    MinGasPolicyWire(t, x.minGasPolicy);
    MessageBytes(4, MinGasPolicyTable(t), x.minGasPolicy.Rec());
    var done := Tagged(0x0a, FeeTableBytes(x.feeTableUsd));
    FirstField(slots, m, done);
    MoreFields(slots, m, 1, done, Tagged(0x12, OracleParamsBytes(x.oracleParams)));
    done := done + Tagged(0x12, OracleParamsBytes(x.oracleParams));
    MoreFields(slots, m, 2, done, Tagged(0x1a, GuardRailsBytes(x.guardRails)));
    done := done + Tagged(0x1a, GuardRailsBytes(x.guardRails));
    MoreFields(slots, m, 3, done, Tagged(0x22, MinGasPolicyBytes(x.minGasPolicy)));
    done := done + Tagged(0x22, MinGasPolicyBytes(x.minGasPolicy));
  }

  lemma {:induction false} AndTextsWire(t: Leaves, x: ParamsMsg)
    ensures Begins(ParamsTable(t), x.Rec(), 9, AndTextsBytes(x))
  {
    var d4 := SectionsBytes(x);
    var d5 := d4 + TaggedString(0x2a, x.treasuryWallet);
    var d6 := d5 + TaggedString(0x32, x.retailWallet);
    var d7 := d6 + TaggedString(0x3a, x.tokenDevWallet);
    var d8 := d7 + TaggedString(0x42, x.tokenCreatorWallet);
    assert AndTextsBytes(x) == d8 + TaggedString(0x4a, x.feeMode);
    hide *;
    var slots, m := ParamsTable(t), x.Rec();
    ParamsRows(t, x);
    SectionsWire(t, x);
    TextField(slots, m, 4, d4, x.treasuryWallet);
    TextField(slots, m, 5, d5, x.retailWallet);
    TextField(slots, m, 6, d6, x.tokenDevWallet);
    TextField(slots, m, 7, d7, x.tokenCreatorWallet);
    TextField(slots, m, 8, d8, x.feeMode);
  }

  /** The encoding of Params is those bytes. */
  lemma {:induction false} ParamsWire(t: Leaves, x: ParamsMsg)
    ensures GoodTable(ParamsTable(t)) && Fits(ParamsTable(t), x.Rec())
    ensures Encode(ParamsTable(t), x.Rec()) == ParamsBytes(x)
  {
    var d9 := AndTextsBytes(x);
    var d10 := d9 + TaggedList(0x52, x.systemMsgTypeUrls);
    var d11 := d10 + TaggedList(0x5a, x.exemptMsgTypeUrls);
    assert ParamsBytes(x) == d11 + TaggedList(0x62, x.exemptAddresses);
    hide *;
    var slots, m := ParamsTable(t), x.Rec();
    ParamsRows(t, x);
    AndTextsWire(t, x);
    ListField(slots, m, 9, d9, x.systemMsgTypeUrls);
    ListField(slots, m, 10, d10, x.exemptMsgTypeUrls);
    ListField(slots, m, 11, d11, x.exemptAddresses);
    AllFields(slots, m, ParamsBytes(x));
  }

  /** Reading the bytes on top of a record makes it that other one. */
  ghost predicate Sets(slots: seq<Slot>, z: Record, bytes: Bytes, z': Record) {
    Fits(slots, z) && |bytes| < TWO_TO_THE_63 && Decode(slots, z, bytes, 0) == Ok(z')
  }

  ghost predicate PrintsBack(slots: seq<Slot>, m: Record) {
    Fits(slots, m) && Printable(slots, m)
  }

  lemma {:induction false} ReadsBack(slots: seq<Slot>, m: Record, bytes: Bytes)
    requires GoodTable(slots) && Fits(slots, m) && Encode(slots, m) == bytes
    requires PrintsBack(slots, m) && |bytes| < TWO_TO_THE_63
    ensures Sets(slots, Fresh(slots), bytes, m)
  {
    hide Decode, Encode, GoodTable, Fits, Fresh, Printable;
    RoundTrip(slots, m);
  }

  /** Params read back: a new message unmarshals those bytes to the record they were written from. */
  lemma {:induction false} ParamsReadBack(t: Leaves, x: ParamsMsg)
    requires PrintsBack(ParamsTable(t), x.Rec()) && |ParamsBytes(x)| < TWO_TO_THE_63
    ensures Sets(ParamsTable(t), Fresh(ParamsTable(t)), ParamsBytes(x), x.Rec())
  {
    hide *;
    ParamsWire(t, x);
    ReadsBack(ParamsTable(t), x.Rec(), ParamsBytes(x));
  }

  /* ---------- what the bytes of one field set ---------- */

  /** One occurrence of a field that is not a scalar stores its payload at the field's place. */
  lemma {:induction false} TaggedSets(slots: seq<Slot>, k: nat, tag: Byte, z: Record, payload: Bytes, v: Value)
    requires GoodTable(slots) && Fits(slots, z) && k < |slots| && !slots[k].UInt? && !slots[k].Bool?
    requires tag == slots[k].num * 8 + 2 && |payload| < TWO_TO_THE_63 - 11
    requires Store(slots[k], z[k], payload) == Ok(v)
    ensures |z| == |slots| && Sets(slots, z, Tagged(tag, payload), z[k := v])
  {
    ReadOfEncode(|payload|, []);
    hide EncodeVarint;
    assert Delimited(slots[k].num, payload) == Tagged(tag, payload);
    hide Decode, Store, Delimited;
    DelimitedOnto(slots, k, z, payload, 0);
  }

  lemma {:induction false} ScalarSets(slots: seq<Slot>, k: nat, tag: Byte, z: Record, n: UInt64)
    requires GoodTable(slots) && Fits(slots, z) && k < |slots| && (slots[k].UInt? || slots[k].Bool?)
    requires tag == slots[k].num * 8
    ensures |z| == |slots|
    ensures Sets(slots, z, [tag] + EncodeVarint(n), z[k := if slots[k].UInt? then UIntV(n) else BoolV(n != 0)])
  {
    ReadOfEncode(n, []);
    hide Decode, EncodeVarint, RawVarint;
    ScalarOnto(slots, k, z, n, 0);
  }

  /** The bytes of one field of a FeeSplit, read on top of any other, set that field alone. */
  lemma {:induction false} FeeSplitSets(t: Leaves, x: FeeSplitMsg, s: Bytes, text: Bytes)
    requires |s| < TWO_TO_THE_63 - 11
    ensures t.readDec(x.treasury, s) == Ok(text) ==>
              Sets(FeeSplitTable(t), x.Rec(), Tagged(0x0a, s), x.(treasury := text).Rec())
    ensures t.readDec(x.retailWallet, s) == Ok(text) ==>
              Sets(FeeSplitTable(t), x.Rec(), Tagged(0x12, s), x.(retailWallet := text).Rec())
    ensures t.readDec(x.tokenDev, s) == Ok(text) ==>
              Sets(FeeSplitTable(t), x.Rec(), Tagged(0x1a, s), x.(tokenDev := text).Rec())
    ensures t.readDec(x.tokenCreator, s) == Ok(text) ==>
              Sets(FeeSplitTable(t), x.Rec(), Tagged(0x22, s), x.(tokenCreator := text).Rec())
  {
    var slots, z := FeeSplitTable(t), x.Rec();
    FeeSplitFits(t, x);
    hide Decode, EncodeVarint, GoodTable, Fits, Tagged;
    if t.readDec(x.treasury, s) == Ok(text) {
      TaggedSets(slots, 0, 0x0a, z, s, LeafV(text));
      assert z[0 := LeafV(text)] == x.(treasury := text).Rec();
    }
    if t.readDec(x.retailWallet, s) == Ok(text) {
      TaggedSets(slots, 1, 0x12, z, s, LeafV(text));
      assert z[1 := LeafV(text)] == x.(retailWallet := text).Rec();
    }
    if t.readDec(x.tokenDev, s) == Ok(text) {
      TaggedSets(slots, 2, 0x1a, z, s, LeafV(text));
      assert z[2 := LeafV(text)] == x.(tokenDev := text).Rec();
    }
    if t.readDec(x.tokenCreator, s) == Ok(text) {
      TaggedSets(slots, 3, 0x22, z, s, LeafV(text));
      assert z[3 := LeafV(text)] == x.(tokenCreator := text).Rec();
    }
  }

  /** The bytes of one field of a FeeConfig, read on top of any other, set that field alone. */
  lemma {:induction false} FeeConfigSets(t: Leaves, x: FeeConfigMsg, s: Bytes, text: Bytes, y: FeeSplitMsg)
    requires |s| < TWO_TO_THE_63 - 11
    ensures t.readDec(x.usdAmount, s) == Ok(text) ==>
              Sets(FeeConfigTable(t), x.Rec(), Tagged(0x0a, s), x.(usdAmount := text).Rec())
    ensures Sets(FeeSplitTable(t), x.split.Rec(), s, y.Rec()) ==>
              Sets(FeeConfigTable(t), x.Rec(), Tagged(0x12, s), x.(split := y).Rec())
  {
    var slots, z := FeeConfigTable(t), x.Rec();
    FeeConfigFits(t, x);
    hide Decode, EncodeVarint, GoodTable, Fits, Tagged, FeeSplitTable;
    if t.readDec(x.usdAmount, s) == Ok(text) {
      TaggedSets(slots, 0, 0x0a, z, s, LeafV(text));
      assert z[0 := LeafV(text)] == x.(usdAmount := text).Rec();
    }
    if Sets(FeeSplitTable(t), x.split.Rec(), s, y.Rec()) {
      TaggedSets(slots, 1, 0x12, z, s, MessageV(y.Rec()));
      assert z[1 := MessageV(y.Rec())] == x.(split := y).Rec();
    }
  }

  /** The bytes of one field of a FeeTableUSD, read on top of any other, set that field alone. */
  lemma {:induction false} FeeTableSets(t: Leaves, x: FeeTableMsg, s: Bytes, y: FeeConfigMsg)
    requires |s| < TWO_TO_THE_63 - 11
    ensures Sets(FeeConfigTable(t), x.posPayment.Rec(), s, y.Rec()) ==>
              Sets(FeeTableUsdTable(t), x.Rec(), Tagged(0x0a, s), x.(posPayment := y).Rec())
    ensures Sets(FeeConfigTable(t), x.tokenInteraction.Rec(), s, y.Rec()) ==>
              Sets(FeeTableUsdTable(t), x.Rec(), Tagged(0x12, s), x.(tokenInteraction := y).Rec())
    ensures Sets(FeeConfigTable(t), x.nativeTransfer.Rec(), s, y.Rec()) ==>
              Sets(FeeTableUsdTable(t), x.Rec(), Tagged(0x1a, s), x.(nativeTransfer := y).Rec())
    ensures Sets(FeeConfigTable(t), x.dexNative.Rec(), s, y.Rec()) ==>
              Sets(FeeTableUsdTable(t), x.Rec(), Tagged(0x22, s), x.(dexNative := y).Rec())
    ensures Sets(FeeConfigTable(t), x.dexUser.Rec(), s, y.Rec()) ==>
              Sets(FeeTableUsdTable(t), x.Rec(), Tagged(0x2a, s), x.(dexUser := y).Rec())
    ensures Sets(FeeConfigTable(t), x.deploy.Rec(), s, y.Rec()) ==>
              Sets(FeeTableUsdTable(t), x.Rec(), Tagged(0x32, s), x.(deploy := y).Rec())
    ensures Sets(FeeConfigTable(t), x.wizard.Rec(), s, y.Rec()) ==>
              Sets(FeeTableUsdTable(t), x.Rec(), Tagged(0x3a, s), x.(wizard := y).Rec())
  {
    var slots, z := FeeTableUsdTable(t), x.Rec();
    FeeTableFits(t, x);
    hide Decode, EncodeVarint, GoodTable, Fits, Tagged, FeeConfigTable;
    if Sets(FeeConfigTable(t), x.posPayment.Rec(), s, y.Rec()) {
      TaggedSets(slots, 0, 0x0a, z, s, MessageV(y.Rec()));
      assert z[0 := MessageV(y.Rec())] == x.(posPayment := y).Rec();
    }
    if Sets(FeeConfigTable(t), x.tokenInteraction.Rec(), s, y.Rec()) {
      TaggedSets(slots, 1, 0x12, z, s, MessageV(y.Rec()));
      assert z[1 := MessageV(y.Rec())] == x.(tokenInteraction := y).Rec();
    }
    if Sets(FeeConfigTable(t), x.nativeTransfer.Rec(), s, y.Rec()) {
      TaggedSets(slots, 2, 0x1a, z, s, MessageV(y.Rec()));
      assert z[2 := MessageV(y.Rec())] == x.(nativeTransfer := y).Rec();
    }
    if Sets(FeeConfigTable(t), x.dexNative.Rec(), s, y.Rec()) {
      TaggedSets(slots, 3, 0x22, z, s, MessageV(y.Rec()));
      assert z[3 := MessageV(y.Rec())] == x.(dexNative := y).Rec();
    }
    if Sets(FeeConfigTable(t), x.dexUser.Rec(), s, y.Rec()) {
      TaggedSets(slots, 4, 0x2a, z, s, MessageV(y.Rec()));
      assert z[4 := MessageV(y.Rec())] == x.(dexUser := y).Rec();
    }
    if Sets(FeeConfigTable(t), x.deploy.Rec(), s, y.Rec()) {
      TaggedSets(slots, 5, 0x32, z, s, MessageV(y.Rec()));
      assert z[5 := MessageV(y.Rec())] == x.(deploy := y).Rec();
    }
    if Sets(FeeConfigTable(t), x.wizard.Rec(), s, y.Rec()) {
      TaggedSets(slots, 6, 0x3a, z, s, MessageV(y.Rec()));
      assert z[6 := MessageV(y.Rec())] == x.(wizard := y).Rec();
    }
  }

  /** The bytes of one field of OracleParams, read on top of any other, set that field alone. */
  lemma {:induction false} OracleParamsSets(t: Leaves, x: OracleParamsMsg, s: Bytes, text: Bytes, n: UInt64)
    requires |s| < TWO_TO_THE_63 - 11
    ensures Sets(OracleParamsTable(t), x.Rec(), [0x08] + EncodeVarint(n), x.(bandRequestId := n).Rec())
    ensures t.readDuration(x.twapWindow, s) == Ok(text) ==>
              Sets(OracleParamsTable(t), x.Rec(), Tagged(0x12, s), x.(twapWindow := text).Rec())
    ensures t.readDec(x.deviationLimit, s) == Ok(text) ==>
              Sets(OracleParamsTable(t), x.Rec(), Tagged(0x1a, s), x.(deviationLimit := text).Rec())
    ensures t.readDuration(x.fallbackTtl, s) == Ok(text) ==>
              Sets(OracleParamsTable(t), x.Rec(), Tagged(0x22, s), x.(fallbackTtl := text).Rec())
    ensures t.readDuration(x.maxPriceAge, s) == Ok(text) ==>
              Sets(OracleParamsTable(t), x.Rec(), Tagged(0x2a, s), x.(maxPriceAge := text).Rec())
  {
    var slots, z := OracleParamsTable(t), x.Rec();
    OracleParamsFits(t, x);
    hide Decode, EncodeVarint, GoodTable, Fits, Tagged;
    ScalarSets(slots, 0, 0x08, z, n);
    assert z[0 := UIntV(n)] == x.(bandRequestId := n).Rec();
    if t.readDuration(x.twapWindow, s) == Ok(text) {
      TaggedSets(slots, 1, 0x12, z, s, LeafV(text));
      assert z[1 := LeafV(text)] == x.(twapWindow := text).Rec();
    }
    if t.readDec(x.deviationLimit, s) == Ok(text) {
      TaggedSets(slots, 2, 0x1a, z, s, LeafV(text));
      assert z[2 := LeafV(text)] == x.(deviationLimit := text).Rec();
    }
    if t.readDuration(x.fallbackTtl, s) == Ok(text) {
      TaggedSets(slots, 3, 0x22, z, s, LeafV(text));
      assert z[3 := LeafV(text)] == x.(fallbackTtl := text).Rec();
    }
    if t.readDuration(x.maxPriceAge, s) == Ok(text) {
      TaggedSets(slots, 4, 0x2a, z, s, LeafV(text));
      assert z[4 := LeafV(text)] == x.(maxPriceAge := text).Rec();
    }
  }

  /** The bytes of one field of GuardRails, read on top of any other, set that field alone. */
  lemma {:induction false} GuardRailsSets(t: Leaves, x: GuardRailsMsg, s: Bytes, text: Bytes, n: UInt64)
    requires |s| < TWO_TO_THE_63 - 11
    ensures t.readDec(x.minGasPriceCsv, s) == Ok(text) ==>
              Sets(GuardRailsTable(t), x.Rec(), Tagged(0x0a, s), x.(minGasPriceCsv := text).Rec())
    ensures t.readDec(x.maxGasPriceCsv, s) == Ok(text) ==>
              Sets(GuardRailsTable(t), x.Rec(), Tagged(0x12, s), x.(maxGasPriceCsv := text).Rec())
    ensures Sets(GuardRailsTable(t), x.Rec(), [0x18] + EncodeVarint(n), x.(maxGasWizard := n).Rec())
    ensures Sets(GuardRailsTable(t), x.Rec(), [0x20] + EncodeVarint(n), x.(maxGasDeploy := n).Rec())
  {
    var slots, z := GuardRailsTable(t), x.Rec();
    GuardRailsFits(t, x);
    hide Decode, EncodeVarint, GoodTable, Fits, Tagged;
    if t.readDec(x.minGasPriceCsv, s) == Ok(text) {
      TaggedSets(slots, 0, 0x0a, z, s, LeafV(text));
      assert z[0 := LeafV(text)] == x.(minGasPriceCsv := text).Rec();
    }
    if t.readDec(x.maxGasPriceCsv, s) == Ok(text) {
      TaggedSets(slots, 1, 0x12, z, s, LeafV(text));
      assert z[1 := LeafV(text)] == x.(maxGasPriceCsv := text).Rec();
    }
    ScalarSets(slots, 2, 0x18, z, n);
    assert z[2 := UIntV(n)] == x.(maxGasWizard := n).Rec();
    ScalarSets(slots, 3, 0x20, z, n);
    assert z[3 := UIntV(n)] == x.(maxGasDeploy := n).Rec();
  }

  /** The bytes of one field of a MinGasPolicy, read on top of any other, set that field alone. */
  lemma {:induction false} MinGasPolicySets(t: Leaves, x: MinGasPolicyMsg, s: Bytes, text: Bytes, n: UInt64)
    requires |s| < TWO_TO_THE_63 - 11
    ensures Sets(MinGasPolicyTable(t), x.Rec(), [0x08] + EncodeVarint(n), x.(enabled := n != 0).Rec())
    ensures t.readDec(x.globalMinGasPrice, s) == Ok(text) ==>
              Sets(MinGasPolicyTable(t), x.Rec(), Tagged(0x12, s), x.(globalMinGasPrice := text).Rec())
    ensures Sets(MinGasPolicyTable(t), x.Rec(), [0x18] + EncodeVarint(n), x.(allowPerTxOverride := n != 0).Rec())
  {
    var slots, z := MinGasPolicyTable(t), x.Rec();
    MinGasPolicyFits(t, x);
    hide Decode, EncodeVarint, GoodTable, Fits, Tagged;
    ScalarSets(slots, 0, 0x08, z, n);
    assert z[0 := BoolV(n != 0)] == x.(enabled := n != 0).Rec();
    if t.readDec(x.globalMinGasPrice, s) == Ok(text) {
      TaggedSets(slots, 1, 0x12, z, s, LeafV(text));
      assert z[1 := LeafV(text)] == x.(globalMinGasPrice := text).Rec();
    }
    ScalarSets(slots, 2, 0x18, z, n);
    assert z[2 := BoolV(n != 0)] == x.(allowPerTxOverride := n != 0).Rec();
  }

  /** The bytes of a section of Params are read on top of that section. */
  lemma {:induction false} ParamsSectionsSets(t: Leaves, x: ParamsMsg, s: Bytes, feeTable: FeeTableMsg,
                           guardRails: GuardRailsMsg,
                           minGasPolicy: MinGasPolicyMsg, oracleParams: OracleParamsMsg)
    requires |s| < TWO_TO_THE_63 - 11
    ensures Sets(FeeTableUsdTable(t), x.feeTableUsd.Rec(), s, feeTable.Rec()) ==>
              Sets(ParamsTable(t), x.Rec(), Tagged(0x0a, s), x.(feeTableUsd := feeTable).Rec())
    ensures Sets(OracleParamsTable(t), x.oracleParams.Rec(), s, oracleParams.Rec()) ==>
              Sets(ParamsTable(t), x.Rec(), Tagged(0x12, s), x.(oracleParams := oracleParams).Rec())
    ensures Sets(GuardRailsTable(t), x.guardRails.Rec(), s, guardRails.Rec()) ==>
              Sets(ParamsTable(t), x.Rec(), Tagged(0x1a, s), x.(guardRails := guardRails).Rec())
    ensures Sets(MinGasPolicyTable(t), x.minGasPolicy.Rec(), s, minGasPolicy.Rec()) ==>
              Sets(ParamsTable(t), x.Rec(), Tagged(0x22, s), x.(minGasPolicy := minGasPolicy).Rec())
  {
    var slots, z := ParamsTable(t), x.Rec();
    ParamsFits(t, x);
    hide Decode, EncodeVarint, GoodTable, Fits, Tagged, FeeTableUsdTable, GuardRailsTable, MinGasPolicyTable,
         OracleParamsTable;
    if Sets(FeeTableUsdTable(t), x.feeTableUsd.Rec(), s, feeTable.Rec()) {
      TaggedSets(slots, 0, 0x0a, z, s, MessageV(feeTable.Rec()));
      assert z[0 := MessageV(feeTable.Rec())] == x.(feeTableUsd := feeTable).Rec();
    }
    if Sets(OracleParamsTable(t), x.oracleParams.Rec(), s, oracleParams.Rec()) {
      TaggedSets(slots, 1, 0x12, z, s, MessageV(oracleParams.Rec()));
      assert z[1 := MessageV(oracleParams.Rec())] == x.(oracleParams := oracleParams).Rec();
    }
    if Sets(GuardRailsTable(t), x.guardRails.Rec(), s, guardRails.Rec()) {
      TaggedSets(slots, 2, 0x1a, z, s, MessageV(guardRails.Rec()));
      assert z[2 := MessageV(guardRails.Rec())] == x.(guardRails := guardRails).Rec();
    }
    if Sets(MinGasPolicyTable(t), x.minGasPolicy.Rec(), s, minGasPolicy.Rec()) {
      TaggedSets(slots, 3, 0x22, z, s, MessageV(minGasPolicy.Rec()));
      assert z[3 := MessageV(minGasPolicy.Rec())] == x.(minGasPolicy := minGasPolicy).Rec();
    }
  }

  /** A text of Params is replaced, a list appended to. */
  lemma {:induction false} ParamsTextsSets(t: Leaves, x: ParamsMsg, s: Bytes)
    requires |s| < TWO_TO_THE_63 - 11
    ensures Sets(ParamsTable(t), x.Rec(), Tagged(0x2a, s), x.(treasuryWallet := s).Rec())
    ensures Sets(ParamsTable(t), x.Rec(), Tagged(0x32, s), x.(retailWallet := s).Rec())
    ensures Sets(ParamsTable(t), x.Rec(), Tagged(0x3a, s), x.(tokenDevWallet := s).Rec())
    ensures Sets(ParamsTable(t), x.Rec(), Tagged(0x42, s), x.(tokenCreatorWallet := s).Rec())
    ensures Sets(ParamsTable(t), x.Rec(), Tagged(0x4a, s), x.(feeMode := s).Rec())
    ensures Sets(ParamsTable(t), x.Rec(), Tagged(0x52, s), x.(systemMsgTypeUrls := x.systemMsgTypeUrls + [s]).Rec())
    ensures Sets(ParamsTable(t), x.Rec(), Tagged(0x5a, s), x.(exemptMsgTypeUrls := x.exemptMsgTypeUrls + [s]).Rec())
    ensures Sets(ParamsTable(t), x.Rec(), Tagged(0x62, s), x.(exemptAddresses := x.exemptAddresses + [s]).Rec())
  {
    var slots, z := ParamsTable(t), x.Rec();
    ParamsFits(t, x);
    hide Decode, EncodeVarint, GoodTable, Fits, Tagged, FeeTableUsdTable, GuardRailsTable, MinGasPolicyTable,
         OracleParamsTable;
    TaggedSets(slots, 4, 0x2a, z, s, StrV(s));
    assert z[4 := StrV(s)] == x.(treasuryWallet := s).Rec();
    TaggedSets(slots, 5, 0x32, z, s, StrV(s));
    assert z[5 := StrV(s)] == x.(retailWallet := s).Rec();
    TaggedSets(slots, 6, 0x3a, z, s, StrV(s));
    assert z[6 := StrV(s)] == x.(tokenDevWallet := s).Rec();
    TaggedSets(slots, 7, 0x42, z, s, StrV(s));
    assert z[7 := StrV(s)] == x.(tokenCreatorWallet := s).Rec();
    TaggedSets(slots, 8, 0x4a, z, s, StrV(s));
    assert z[8 := StrV(s)] == x.(feeMode := s).Rec();
    TaggedSets(slots, 9, 0x52, z, s, ListV(x.systemMsgTypeUrls + [s]));
    assert z[9 := ListV(x.systemMsgTypeUrls + [s])] == x.(systemMsgTypeUrls := x.systemMsgTypeUrls + [s]).Rec();
    TaggedSets(slots, 10, 0x5a, z, s, ListV(x.exemptMsgTypeUrls + [s]));
    assert z[10 := ListV(x.exemptMsgTypeUrls + [s])] == x.(exemptMsgTypeUrls := x.exemptMsgTypeUrls + [s]).Rec();
    TaggedSets(slots, 11, 0x62, z, s, ListV(x.exemptAddresses + [s]));
    assert z[11 := ListV(x.exemptAddresses + [s])] == x.(exemptAddresses := x.exemptAddresses + [s]).Rec();
  }
}
