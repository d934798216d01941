/** What the generated Marshal and Unmarshal functions compute. They are one text repeated with a
    different field table, so the table (`seq<Slot>`) is an argument here and a message is the
    sequence of its field values in table order. */
module Messages {
  import opened Wire
  import opened Skip

  /** One row of a field table: the number and how the field is stored and written. `Leaf` is a
      custom type (LegacyDec, Duration) held as the bytes it marshals to; `read` is its Unmarshal,
      given the old value and the new bytes. */
  datatype Slot =
    | Str(num: nat)
    | Repeated(num: nat)
    | UInt(num: nat)
    | Bool(num: nat)
    | Leaf(num: nat, read: (Bytes, Bytes) -> Result<Bytes>, zero: Bytes)
    | Message(num: nat, slots: seq<Slot>)

  datatype Value =
    | StrV(s: Bytes)
    | ListV(items: seq<Bytes>)
    | UIntV(n: UInt64)
    | BoolV(b: bool)
    | LeafV(text: Bytes)
    | MessageV(fields: seq<Value>)

  type Record = seq<Value>

  ghost predicate FitsSlot(slot: Slot, v: Value)
    decreases slot
  {
    match slot
    case Str(num) => v.StrV?
    case Repeated(num) => v.ListV?
    case UInt(num) => v.UIntV?
    case Bool(num) => v.BoolV?
    case Leaf(num, _, _) => v.LeafV?
    case Message(num, slots) => v.MessageV? && Fits(slots, v.fields)
  }

  ghost predicate Fits(slots: seq<Slot>, m: Record)
    decreases slots
  {
    |m| == |slots| && forall k :: 0 <= k < |slots| ==> FitsSlot(slots[k], m[k])
  }

  /** Field numbers are distinct and small enough for one-byte tags, at every level. */
  ghost predicate GoodTable(slots: seq<Slot>)
    decreases slots
  {
    && (forall k :: 0 <= k < |slots| ==> 1 <= slots[k].num <= 15)
    && (forall j, k :: 0 <= j < k < |slots| ==> slots[j].num != slots[k].num)
    && (forall k :: 0 <= k < |slots| && slots[k].Message? ==> GoodTable(slots[k].slots))
  }

  /** Every custom leaf prints bytes that it reads back as itself, over any old value. */
  ghost predicate PrintableSlot(slot: Slot, v: Value)
    requires FitsSlot(slot, v)
    decreases slot
  {
    match slot
    case Leaf(_, read, _) => forall previous :: read(previous, v.text) == Ok(v.text)
    case Message(num, slots) => Printable(slots, v.fields)
    case _ => true
  }

  ghost predicate Printable(slots: seq<Slot>, m: Record)
    requires Fits(slots, m)
    decreases slots
  {
    forall k :: 0 <= k < |slots| ==> PrintableSlot(slots[k], m[k])
  }

  /* ---------- marshalling ---------- */

  function Delimited(num: nat, payload: Bytes): Bytes
    requires num <= 15
  {
    [num * 8 + 2] + EncodeVarint(|payload|) + payload
  }

  function DelimitedAll(num: nat, items: seq<Bytes>): Bytes
    requires num <= 15
  {
    if items == [] then [] else Delimited(num, items[0]) + DelimitedAll(num, items[1..])
  }

  /** One field: strings and scalars are omitted when empty or zero, leaves and messages never. */
  function EncodeField(slot: Slot, v: Value): Bytes
    requires slot.num <= 15 && FitsSlot(slot, v) && (slot.Message? ==> GoodTable(slot.slots))
    decreases slot
  {
    match slot
    case Str(num) => if v.s == [] then [] else Delimited(num, v.s)
    case Repeated(num) => DelimitedAll(num, v.items)
    case UInt(num) => if v.n == 0 then [] else [num * 8] + EncodeVarint(v.n)
    case Bool(num) => if v.b then [num * 8, 1] else []
    case Leaf(num, _, _) => Delimited(num, v.text)
    case Message(num, slots) => Delimited(num, EncodeFrom(slots, v.fields, 0))
  }

  /** The fields from table position k on. */
  function EncodeFrom(slots: seq<Slot>, m: Record, k: nat): Bytes
    requires GoodTable(slots) && Fits(slots, m) && k <= |slots|
    decreases slots, |slots| - k
  {
    if k == |slots| then []
    else EncodeField(slots[k], m[k]) + EncodeFrom(slots, m, k + 1)
  }

  function Encode(slots: seq<Slot>, m: Record): Bytes
    requires GoodTable(slots) && Fits(slots, m)
  {
    EncodeFrom(slots, m, 0)
  }

  /* ---------- unmarshalling ---------- */

  /** A length-delimited payload after a tag of k bytes: where it starts and ends. `at` is the
      index of s in the whole buffer, which decides when the end index wraps. */
  function DelimitedSpan(s: Bytes, k: nat, at: nat): (r: Result<(nat, nat)>)
    requires k <= |s|
    ensures r.Ok? ==> k < r.value.0 <= r.value.1 <= |s|
  {
    match RawVarint(s[k..], 0)
    case Err(e) => Err(e)
    case Ok(v) =>
      var length := AsInt64(v.raw);
      var start := k + v.len;
      if length < 0 || AsInt64(at + start + length) < 0 then Err(InvalidLength)
      else if start + length > |s| then Err(UnexpectedEOF)
      else Ok((start, start + length))
  }

  /** Storing a payload in a field: strings and leaves replace, lists append, messages merge. */
  function Store(slot: Slot, v: Value, payload: Bytes): (r: Result<Value>)
    requires FitsSlot(slot, v) && !slot.UInt? && !slot.Bool?
    requires |payload| < TWO_TO_THE_63
    ensures r.Ok? ==> FitsSlot(slot, r.value)
    decreases slot, |payload|, 3
  {
    match slot
    case Str(num) => Ok(StrV(payload))
    case Repeated(num) => Ok(ListV(v.items + [payload]))
    case Leaf(_, read, _) =>
      (match read(v.text, payload)
       case Err(e) => Err(e)
       case Ok(text) => Ok(LeafV(text)))
    case Message(num, slots) =>
      (match Decode(slots, v.fields, payload, 0)
       case Err(e) => Err(e)
       case Ok(fields) => Ok(MessageV(fields)))
  }

  /** The case of the switch for one known field, after a tag of k bytes. */
  function DecodeField(slot: Slot, v: Value, wireType: nat, s: Bytes, k: nat, at: nat): (r: Result<(Value, nat)>)
    requires FitsSlot(slot, v) && 0 < k <= |s| && at + |s| < TWO_TO_THE_63
    ensures r.Ok? ==> FitsSlot(slot, r.value.0) && 0 < r.value.1 <= |s|
    decreases slot, |s|, 4
  {
    if slot.UInt? || slot.Bool? then
      if wireType != 0 then Err(WrongWireType)
      else
        match RawVarint(s[k..], 0)
        case Err(e) => Err(e)
        case Ok(n) =>
          var bits := n.raw % TWO_TO_THE_64;
          Ok((if slot.UInt? then UIntV(bits) else BoolV(bits != 0), k + n.len))
    else if wireType != 2 then Err(WrongWireType)
    else
      match DelimitedSpan(s, k, at)
      case Err(e) => Err(e)
      case Ok(span) =>
        match Store(slot, v, s[span.0..span.1])
        case Err(e) => Err(e)
        case Ok(v') => Ok((v', span.1))
  }

  /** Table position of a field number, or the table's length when it is unknown. */
  function SlotOf(slots: seq<Slot>, num: int): (k: nat)
    ensures k <= |slots|
    ensures k < |slots| ==> slots[k].num == num
    ensures k == |slots| ==> forall j :: 0 <= j < |slots| ==> slots[j].num != num
  {
    if slots == [] then 0 else if slots[0].num == num then 0 else 1 + SlotOf(slots[1..], num)
  }

  function FieldNumber(raw: nat): int {
    AsInt32(raw % TWO_TO_THE_64 / 8)
  }

  /** One round of the parsing loop: the record after it and the bytes it consumed. */
  function Step(slots: seq<Slot>, m: Record, s: Bytes, at: nat): (r: Result<(Record, nat)>)
    requires Fits(slots, m) && s != [] && at + |s| < TWO_TO_THE_63
    ensures r.Ok? ==> Fits(slots, r.value.0) && 0 < r.value.1 <= |s|
    decreases slots, |s|, 1
  {
    match RawVarint(s, 0)
    case Err(e) => Err(e)
    case Ok(tag) =>
      var wireType := tag.raw % 8;
      var num := FieldNumber(tag.raw);
      if wireType == 4 then Err(EndGroupForNonGroup)
      else if num <= 0 then Err(IllegalTag)
      else
        var k := SlotOf(slots, num);
        if k < |slots| then
          match DecodeField(slots[k], m[k], wireType, s, tag.len, at)
          case Err(e) => Err(e)
          case Ok(done) => Ok((m[k := done.0], done.1))
        else
          match SkipFrom(s, 0, 0)
          case Err(e) => Err(e)
          case Ok(n) =>
            if AsInt64(at + n) < 0 then Err(InvalidLength)
            else if n > |s| then Err(UnexpectedEOF)
            else Ok((m, n))
  }

  /** Unmarshal from the point where s is left, into a record already partly filled. */
  function Decode(slots: seq<Slot>, m: Record, s: Bytes, at: nat): (r: Result<Record>)
    requires Fits(slots, m) && at + |s| < TWO_TO_THE_63
    ensures r.Ok? ==> Fits(slots, r.value)
    decreases slots, |s|, 2
  {
    if s == [] then Ok(m)
    else
      match Step(slots, m, s, at)
      case Err(e) => Err(e)
      case Ok(round) => Decode(slots, round.0, s[round.1..], at + round.1)
  }
}
