/** The field tables of the messages of x/fees and x/oracle, in the order the fields are written,
    and what the laws of the codec say about them. */
module FieldTables {
  import opened Wire
  import opened Messages
  import opened CodecLaws

  /** How the two custom leaf types unmarshal, and what their zero values marshal to. */
  datatype Leaves = Leaves(
    readDec: (Bytes, Bytes) -> Result<Bytes>, zeroDec: Bytes,
    readDuration: (Bytes, Bytes) -> Result<Bytes>, zeroDuration: Bytes)
  {
    function Dec(num: nat): Slot { Leaf(num, readDec, zeroDec) }

    function Duration(num: nat): Slot { Leaf(num, readDuration, zeroDuration) }
  }

  /** creator, denom, price */
  const MSG_SET_PRICE: seq<Slot> := [Str(1), Str(2), Str(3)]

  /** treasury, retail_wallet, token_dev, token_creator */
  function FeeSplitTable(t: Leaves): seq<Slot> {
    [t.Dec(1), t.Dec(2), t.Dec(3), t.Dec(4)]
  }

  /** usd_amount, split */
  function FeeConfigTable(t: Leaves): seq<Slot> {
    [t.Dec(1), Message(2, FeeSplitTable(t))]
  }

  /** pos_payment, token_interaction, native_transfer, dex_native, dex_user, deploy, wizard */
  function FeeTableUsdTable(t: Leaves): seq<Slot> {
    var config := FeeConfigTable(t);
    [Message(1, config), Message(2, config), Message(3, config), Message(4, config),
     Message(5, config), Message(6, config), Message(7, config)]
  }

  /** band_request_id, twap_window, deviation_limit, fallback_ttl, max_price_age */
  function OracleParamsTable(t: Leaves): seq<Slot> {
    [UInt(1), t.Duration(2), t.Dec(3), t.Duration(4), t.Duration(5)]
  }

  /** min_gas_price_csv, max_gas_price_csv, max_gas_wizard, max_gas_deploy */
  function GuardRailsTable(t: Leaves): seq<Slot> {
    [t.Dec(1), t.Dec(2), UInt(3), UInt(4)]
  }

  /** enabled, global_min_gas_price, allow_per_tx_override */
  function MinGasPolicyTable(t: Leaves): seq<Slot> {
    [Bool(1), t.Dec(2), Bool(3)]
  }

  /** fee_table_usd, oracle_params, guard_rails, min_gas_policy, the four wallets, fee_mode,
      system_msg_type_urls, exempt_msg_type_urls, exempt_addresses */
  function ParamsTable(t: Leaves): seq<Slot> {
    [Message(1, FeeTableUsdTable(t)), Message(2, OracleParamsTable(t)),
     Message(3, GuardRailsTable(t)), Message(4, MinGasPolicyTable(t)),
     Str(5), Str(6), Str(7), Str(8), Str(9), Repeated(10), Repeated(11), Repeated(12)]
  }

  lemma {:induction false} SplitTableIsGood(t: Leaves)
    ensures GoodTable(FeeSplitTable(t)) && GoodTable(FeeConfigTable(t))
  {
    assert GoodTable(FeeSplitTable(t));
  }

  lemma {:induction false} FeeTableIsGood(t: Leaves)
    ensures GoodTable(FeeTableUsdTable(t))
  {
    SplitTableIsGood(t);
    hide FeeConfigTable;
  }

  lemma {:induction false} SectionTablesAreGood(t: Leaves)
    ensures GoodTable(OracleParamsTable(t)) && GoodTable(GuardRailsTable(t)) && GoodTable(MinGasPolicyTable(t))
  {
    assert GoodTable(OracleParamsTable(t)) by { hide GuardRailsTable, MinGasPolicyTable; }
    assert GoodTable(GuardRailsTable(t)) by { hide OracleParamsTable, MinGasPolicyTable; }
    assert GoodTable(MinGasPolicyTable(t)) by { hide OracleParamsTable, GuardRailsTable; }
    hide *;
  }

  /** The parameter table meets the conditions of the laws: numbers distinct and below 16. */
  lemma {:induction false} ParamsTableIsGood(t: Leaves)
    ensures GoodTable(ParamsTable(t))
  {
    FeeTableIsGood(t);
    SectionTablesAreGood(t);
    hide FeeTableUsdTable, OracleParamsTable, GuardRailsTable, MinGasPolicyTable;
  }

  /** A string field exactly as MsgSetPrice writes it: nothing when empty, else its literal tag,
      its length and its bytes. */
  function TaggedString(tag: Byte, s: Bytes): Bytes {
    if |s| > 0 then [tag] + EncodeVarint(|s|) + s else []
  }

  lemma {:induction false} StringFieldBytes(num: nat, s: Bytes)
    requires num <= 15
    ensures EncodeField(Str(num), StrV(s)) == TaggedString(num * 8 + 2, s)
  {
  }

  lemma {:induction false} MsgSetPriceTable(creator: Bytes, denom: Bytes, price: Bytes)
    ensures GoodTable(MSG_SET_PRICE)
    ensures Fits(MSG_SET_PRICE, [StrV(creator), StrV(denom), StrV(price)])
  {
  }

  lemma {:induction false} NextField(slots: seq<Slot>, m: Record, k: nat)
    requires GoodTable(slots) && Fits(slots, m) && k < |slots|
    ensures EncodeFrom(slots, m, k) == EncodeField(slots[k], m[k]) + EncodeFrom(slots, m, k + 1)
    ensures EncodeFrom(slots, m, |slots|) == []
  {
  }

  /** MsgSetPrice on the wire is its three strings under the tags 0x0a, 0x12 and 0x1a. */
  lemma {:induction false} MsgSetPriceBytes(creator: Bytes, denom: Bytes, price: Bytes)
    ensures GoodTable(MSG_SET_PRICE)
    ensures Encode(MSG_SET_PRICE, [StrV(creator), StrV(denom), StrV(price)])
         == TaggedString(0x0a, creator) + TaggedString(0x12, denom) + TaggedString(0x1a, price)
  {
    MsgSetPriceTable(creator, denom, price);
    StringFieldBytes(1, creator);
    StringFieldBytes(2, denom);
    StringFieldBytes(3, price);
    hide EncodeField, EncodeFrom, TaggedString, GoodTable, Fits;
    var m := [StrV(creator), StrV(denom), StrV(price)];
    NextField(MSG_SET_PRICE, m, 0);
    NextField(MSG_SET_PRICE, m, 1);
    NextField(MSG_SET_PRICE, m, 2);
    assert |MSG_SET_PRICE| == 3;
  }

  /** Unmarshalling those bytes gives the three strings back. */
  lemma {:induction false} MsgSetPriceRoundTrip(creator: Bytes, denom: Bytes, price: Bytes)
    requires |TaggedString(0x0a, creator) + TaggedString(0x12, denom) + TaggedString(0x1a, price)| < TWO_TO_THE_63
    ensures Decode(MSG_SET_PRICE, [StrV([]), StrV([]), StrV([])],
                   TaggedString(0x0a, creator) + TaggedString(0x12, denom) + TaggedString(0x1a, price), 0)
         == Ok([StrV(creator), StrV(denom), StrV(price)])
  {
    hide Decode, TaggedString;
    MsgSetPriceBytes(creator, denom, price);
    assert Fresh(MSG_SET_PRICE) == [StrV([]), StrV([]), StrV([])];
    RoundTrip(MSG_SET_PRICE, [StrV(creator), StrV(denom), StrV(price)]);
  }

  /** The module parameters, with four messages nested up to three levels deep, survive the wire:
      the record read back is the record written, and merging happens on concatenation. */
  lemma {:induction false} ParamsRoundTrip(t: Leaves, x: Record, y: Record)
    requires var table := ParamsTable(t); Fits(table, x) && Fits(table, y) && Printable(table, x) && Printable(table, y)
    requires GoodTable(ParamsTable(t))
    requires |Encode(ParamsTable(t), x) + Encode(ParamsTable(t), y)| < TWO_TO_THE_63
    ensures var table := ParamsTable(t);
            Decode(table, Fresh(table), Encode(table, y), 0) == Ok(y)
    ensures var table := ParamsTable(t);
            Decode(table, Fresh(table), Encode(table, x) + Encode(table, y), 0) == Ok(Merge(table, x, y))
  {
    hide Decode;
    RoundTrip(ParamsTable(t), y);
    ConcatenatedEncodings(ParamsTable(t), x, y);
  }

  /** What merging means for the parameters: the URL lists append, a later wallet or mode wins when
      it is set, and the two gas limits inside the nested guard rails do the same. */
  lemma {:induction false} ParamsMerge(t: Leaves, x: Record, y: Record)
    requires Fits(ParamsTable(t), x) && Fits(ParamsTable(t), y)
    ensures x[2].MessageV? && Fits(GuardRailsTable(t), x[2].fields)
    ensures y[2].MessageV? && Fits(GuardRailsTable(t), y[2].fields)
    ensures var z := Merge(ParamsTable(t), x, y);
            (forall k :: 4 <= k < 9 ==> x[k].StrV? && y[k].StrV? && z[k] == if y[k].s == [] then x[k] else y[k])
            && (forall k :: 9 <= k < 12 ==> x[k].ListV? && y[k].ListV? && z[k] == ListV(x[k].items + y[k].items))
            && z[2] == MessageV(Merge(GuardRailsTable(t), x[2].fields, y[2].fields))
    ensures var rails := Merge(GuardRailsTable(t), x[2].fields, y[2].fields);
            forall k :: 2 <= k < 4 ==>
              var a, b := x[2].fields[k], y[2].fields[k];
              a.UIntV? && b.UIntV? && rails[k] == if b.n == 0 then a else b
  {
    var table, rails := ParamsTable(t), GuardRailsTable(t);
    forall k | 0 <= k < 12
      ensures FitsSlot(table[k], x[k]) && FitsSlot(table[k], y[k])
    {
    }
    RailsFit(t, x, y);
    forall k | 0 <= k < 4
      ensures FitsSlot(rails[k], x[2].fields[k]) && FitsSlot(rails[k], y[2].fields[k])
    {
    }
  }

  lemma {:induction false} RailsFit(t: Leaves, x: Record, y: Record)
    requires Fits(ParamsTable(t), x) && Fits(ParamsTable(t), y)
    ensures x[2].MessageV? && y[2].MessageV?
    ensures Fits(GuardRailsTable(t), x[2].fields) && Fits(GuardRailsTable(t), y[2].fields)
  {
    assert ParamsTable(t)[2] == Message(3, GuardRailsTable(t));
    assert FitsSlot(ParamsTable(t)[2], x[2]) && FitsSlot(ParamsTable(t)[2], y[2]);
  }
}
