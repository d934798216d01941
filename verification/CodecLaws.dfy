/** Laws of the codec for every field table: concatenation, merging, round trip, unknown fields. */
module CodecLaws {
  import opened Wire
  import opened Skip
  import opened Messages

  /* ---------- what follows a field does not change how it parses ---------- */

  lemma {:induction false} SpanExtend(s: Bytes, t: Bytes, k: nat, at: nat)
    requires k <= |s| && DelimitedSpan(s, k, at).Ok?
    ensures DelimitedSpan(s + t, k, at) == DelimitedSpan(s, k, at)
  {
    hide RawVarint;
    assert (s + t)[k..] == s[k..] + t;
    RawVarintExtend(s[k..], t, 0);
  }

  lemma {:induction false} DecodeFieldExtend(slot: Slot, v: Value, wireType: nat, s: Bytes, t: Bytes, k: nat, at: nat)
    requires FitsSlot(slot, v) && 0 < k <= |s| && at + |s + t| < TWO_TO_THE_63
    requires DecodeField(slot, v, wireType, s, k, at).Ok?
    ensures DecodeField(slot, v, wireType, s + t, k, at) == DecodeField(slot, v, wireType, s, k, at)
  {
    hide RawVarint, Store;
    if slot.UInt? || slot.Bool? {
      assert (s + t)[k..] == s[k..] + t;
      RawVarintExtend(s[k..], t, 0);
    } else {
      SpanExtend(s, t, k, at);
      var span := DelimitedSpan(s, k, at).value;
      assert (s + t)[span.0..span.1] == s[span.0..span.1];
    }
  }

  lemma {:induction false} StepExtend(slots: seq<Slot>, m: Record, s: Bytes, t: Bytes, at: nat)
    requires Fits(slots, m) && s != [] && at + |s + t| < TWO_TO_THE_63
    requires Step(slots, m, s, at).Ok?
    ensures Step(slots, m, s + t, at) == Step(slots, m, s, at)
  {
    hide RawVarint, DecodeField, SkipFrom;
    RawVarintExtend(s, t, 0);
    var tag := RawVarint(s, 0).value;
    var k := SlotOf(slots, FieldNumber(tag.raw));
    if k < |slots| {
      DecodeFieldExtend(slots[k], m[k], tag.raw % 8, s, t, tag.len, at);
    } else {
      SkipExtend(s, t);
    }
  }

  /** The concatenation law: decoding a and then b on top of the result is decoding a ++ b. */
  lemma {:induction false} Concatenation(slots: seq<Slot>, m: Record, a: Bytes, b: Bytes, at: nat)
    requires Fits(slots, m) && at + |a + b| < TWO_TO_THE_63
    requires Decode(slots, m, a, at).Ok?
    ensures Decode(slots, m, a + b, at) == Decode(slots, Decode(slots, m, a, at).value, b, at + |a|)
    decreases |a|
  {
    hide Step;
    if a == [] {
      assert a + b == b;
    } else {
      StepExtend(slots, m, a, b, at);
      var (m', n) := Step(slots, m, a, at).value;
      assert (a + b)[n..] == a[n..] + b;
      Concatenation(slots, m', a[n..], b, at + n);
    }
  }

  /* ---------- where a message starts only decides which error is reported ---------- */

  /** Both succeed with the same value, or both fail. */
  ghost predicate Agree<T(!new)>(x: Result<T>, y: Result<T>) {
    x == y || (x.Err? && y.Err?)
  }

  /** The end of a length-delimited payload by its length prefix, wherever the buffer ends; zero when
      there is no prefix or it is negative as a signed number. */
  ghost function PrefixedEnd(s: Bytes, k: nat): (end: nat)
    requires k <= |s|
  {
    match RawVarint(s[k..], 0)
    case Err(_) => 0
    case Ok(v) => if AsInt64(v.raw) < 0 then 0 else k + v.len + AsInt64(v.raw)
  }

  /** The end that the field at the head of s claims: by its length prefix when it is a listed
      length-delimited one, by skip when it is unknown. */
  ghost function ClaimedEnd(slots: seq<Slot>, s: Bytes): (end: nat)
    requires s != [] && |s| < TWO_TO_THE_63
  {
    match RawVarint(s, 0)
    case Err(_) => 0
    case Ok(tag) =>
      var num := FieldNumber(tag.raw);
      if tag.raw % 8 == 4 || num <= 0 then 0
      else
        var k := SlotOf(slots, num);
        if k == |slots| then
          match SkipFrom(s, 0, 0)
          case Err(_) => 0
          case Ok(n) => n
        else if slots[k].UInt? || slots[k].Bool? || tag.raw % 8 != 2 then 0
        else PrefixedEnd(s, tag.len)
  }

  /** How far into s the parser is led by the fields it reads: past the end of s exactly when it
      stops at a field that claims more bytes than there are. */
  ghost function Reach(slots: seq<Slot>, m: Record, s: Bytes): (end: nat)
    requires Fits(slots, m) && |s| < TWO_TO_THE_63
    decreases |s|
  {
    if s == [] then 0
    else
      match Step(slots, m, s, 0)
      case Err(_) => ClaimedEnd(slots, s)
      case Ok(round) => round.1 + Reach(slots, round.0, s[round.1..])
  }

  /** What overrunning the buffer is reported as: the 64-bit end index wraps or it does not. */
  ghost function Overrun(end: nat): WireError {
    if end < TWO_TO_THE_63 then UnexpectedEOF else InvalidLength
  }

  lemma {:induction false} SkipStaysInt64(s: Bytes, i: nat, depth: nat)
    requires |s| < TWO_TO_THE_63 && SkipFrom(s, i, depth).Ok?
    ensures SkipFrom(s, i, depth).value < TWO_TO_THE_63
    decreases |s| - i
  {
    hide RawVarint, SkipToken;
    var next := SkipToken(s, i, depth).value;
    if next.1 == 0 {
      SkipTokenStaysInt64(s, i, depth);
    } else {
      SkipStaysInt64(s, next.0, next.1);
    }
  }

  lemma {:induction false} SkipTokenStaysInt64(s: Bytes, i: nat, depth: nat)
    requires i < |s| < TWO_TO_THE_63 && SkipToken(s, i, depth).Ok?
    ensures SkipToken(s, i, depth).value.0 < TWO_TO_THE_63
  {
    hide RawVarint;
  }

  lemma {:induction false} SpanAt(s: Bytes, k: nat, at: nat)
    requires k <= |s| && at + |s| < TWO_TO_THE_63
    ensures var e := PrefixedEnd(s, k);
            DelimitedSpan(s, k, at) == if e <= |s| then DelimitedSpan(s, k, 0) else Err(Overrun(at + e))
  {
    hide RawVarint;
  }

  lemma {:induction false} DecodeFieldAt(slot: Slot, v: Value, wireType: nat, s: Bytes, k: nat, at: nat)
    requires FitsSlot(slot, v) && 0 < k <= |s| && at + |s| < TWO_TO_THE_63
    ensures var e := if slot.UInt? || slot.Bool? || wireType != 2 then 0 else PrefixedEnd(s, k);
            DecodeField(slot, v, wireType, s, k, at)
            == if e <= |s| then DecodeField(slot, v, wireType, s, k, 0) else Err(Overrun(at + e))
  {
    hide RawVarint, Store, DelimitedSpan, PrefixedEnd, Overrun;
    SpanAt(s, k, at);
  }

  lemma {:induction false} StepAt(slots: seq<Slot>, m: Record, s: Bytes, at: nat)
    requires Fits(slots, m) && s != [] && at + |s| < TWO_TO_THE_63
    ensures var e := ClaimedEnd(slots, s);
            Step(slots, m, s, at) == if e <= |s| then Step(slots, m, s, 0) else Err(Overrun(at + e))
  {
    hide RawVarint, DecodeField, SkipFrom, PrefixedEnd;
    if RawVarint(s, 0).Ok? {
      var tag := RawVarint(s, 0).value;
      var k := SlotOf(slots, FieldNumber(tag.raw));
      if k < |slots| {
        DecodeFieldAt(slots[k], m[k], tag.raw % 8, s, tag.len, at);
      } else if SkipFrom(s, 0, 0).Ok? {
        SkipStaysInt64(s, 0, 0);
      }
    }
  }

  /** Parsing a message that starts at index `at` of a buffer is parsing it at index 0, but for the
      error when a field claims more than the message has: that one depends on whether its end
      index, counted from the start of the buffer, fits 63 bits. */
  lemma {:induction false} DecodeAt(slots: seq<Slot>, m: Record, s: Bytes, at: nat)
    requires Fits(slots, m) && at + |s| < TWO_TO_THE_63
    ensures var e := Reach(slots, m, s);
            Decode(slots, m, s, at) == if e <= |s| then Decode(slots, m, s, 0) else Err(Overrun(at + e))
    decreases |s|
  {
    hide Step, ClaimedEnd, Overrun;
    if s != [] {
      StepAt(slots, m, s, at);
      StepAt(slots, m, s, 0);
      if Step(slots, m, s, 0).Ok? {
        var (m', n) := Step(slots, m, s, 0).value;
        DecodeAt(slots, m', s[n..], at + n);
        DecodeAt(slots, m', s[n..], n);
      }
    }
  }

  /** Where a message starts decides at most which error is reported. */
  lemma {:induction false} DecodeShift(slots: seq<Slot>, m: Record, s: Bytes, at: nat, at': nat)
    requires Fits(slots, m) && at + |s| < TWO_TO_THE_63 && at' + |s| < TWO_TO_THE_63
    ensures Agree(Decode(slots, m, s, at), Decode(slots, m, s, at'))
  {
    hide Decode, Reach;
    DecodeAt(slots, m, s, at);
    DecodeAt(slots, m, s, at');
  }

  /** Two starts give the very same result exactly when the end index that the parser is led to
      fits 63 bits from both of them or from neither. */
  lemma {:induction false} SameResultIff(slots: seq<Slot>, m: Record, s: Bytes, at: nat, at': nat)
    requires Fits(slots, m) && at + |s| < TWO_TO_THE_63 && at' + |s| < TWO_TO_THE_63
    ensures var e := Reach(slots, m, s);
            Decode(slots, m, s, at) == Decode(slots, m, s, at')
            <==> (at + e < TWO_TO_THE_63 <==> at' + e < TWO_TO_THE_63)
  {
    hide Decode, Reach;
    DecodeAt(slots, m, s, at);
    DecodeAt(slots, m, s, at');
  }

  lemma {:induction false} LongLength()
    ensures |EncodeVarint(TWO_TO_THE_63 - 11)| == 9
  {
    hide EncodeVarint, RawVarint;
    var v, n := TWO_TO_THE_63 - 11, |EncodeVarint(TWO_TO_THE_63 - 11)|;
    ReadOfEncode(v, []);
    RawVarintBound(EncodeVarint(v) + [], 0);
    EncodeIsTight(v);
    assert Pow128(2) == 128 * 128 && Pow128(4) == 128 * 128 * Pow128(2);
    assert Pow128(6) == 128 * 128 * Pow128(4) && Pow128(8) == 128 * 128 * Pow128(6) && Pow128(9) == 128 * Pow128(8);
    if n <= 8 { Pow128Monotone(n, 8); }
  }

  /** In one buffer: what a part that decodes does to the error of the part behind it. The error stays
      the same exactly when the end index claimed behind it still fits 63 bits, or did not before. */
  lemma {:induction false} PrefixKeepsErrorIff(slots: seq<Slot>, m: Record, a: Bytes, s: Bytes)
    requires Fits(slots, m) && |a + s| < TWO_TO_THE_63 && Decode(slots, m, a, 0).Ok?
    ensures var m' := Decode(slots, m, a, 0).value;
            var e := Reach(slots, m', s);
            Decode(slots, m, a + s, 0) == Decode(slots, m', s, 0)
            <==> (|a| + e < TWO_TO_THE_63 <==> e < TWO_TO_THE_63)
  {
    hide Decode, Reach;
    Concatenation(slots, m, a, s, 0);
    SameResultIff(slots, Decode(slots, m, a, 0).value, s, |a|, 0);
  }

  /** A string field of which only the tag and a length just short of 2^63 are there. */
  function LongField(num: nat): Bytes
    requires num <= 15
  {
    [num * 8 + 2] + EncodeVarint(TWO_TO_THE_63 - 11)
  }

  lemma {:induction false} LongFieldSpan(num: nat, at: nat)
    requires num <= 15 && at < 100
    ensures |LongField(num)| == 10
    ensures DelimitedSpan(LongField(num), 1, at) == Err(if at == 0 then UnexpectedEOF else InvalidLength)
  {
    hide RawVarint, EncodeVarint;
    var length := TWO_TO_THE_63 - 11;
    LongLength();
    ReadOfEncode(length, []);
    assert LongField(num)[1..] == EncodeVarint(length) + [];
  }

  lemma {:induction false} LongFieldFails(slots: seq<Slot>, k: nat, m: Record, at: nat)
    requires GoodTable(slots) && Fits(slots, m) && k < |slots| && slots[k].Str? && at < 100
    ensures |LongField(slots[k].num)| == 10
    ensures Decode(slots, m, LongField(slots[k].num), at) == Err(if at == 0 then UnexpectedEOF else InvalidLength)
  {
    var s := LongField(slots[k].num);
    LongFieldSpan(slots[k].num, at);
    OneByteTag(slots[k].num, 2, EncodeVarint(TWO_TO_THE_63 - 11));
    SlotFound(slots, k);
    hide LongField, RawVarint, EncodeVarint, SkipFrom, DelimitedSpan, SlotOf, FieldNumber, GoodTable;
    assert DecodeField(slots[k], m[k], 2, s, 1, at) == Err(DelimitedSpan(s, 1, at).error);
    hide DecodeField;
    assert Step(slots, m, s, at) == Err(DelimitedSpan(s, 1, at).error);
  }

  lemma {:induction false} EmptyFieldDecodes(slots: seq<Slot>, k: nat, m: Record)
    requires GoodTable(slots) && Fits(slots, m) && k < |slots| && slots[k].Str?
    ensures |Delimited(slots[k].num, [])| == 2 && Fits(slots, m[k := StrV([])])
    ensures Decode(slots, m, Delimited(slots[k].num, []), 0) == Ok(m[k := StrV([])])
  {
    hide Decode, DelimitedSpan, RawVarint;
    DelimitedOnto(slots, k, m, [], 0);
  }

  lemma {:induction false} ErrorBehind(slots: seq<Slot>, m: Record, a: Bytes, m': Record, s: Bytes, error: WireError)
    requires Fits(slots, m) && Fits(slots, m') && |a + s| < TWO_TO_THE_63
    requires Decode(slots, m, a, 0) == Ok(m') && Decode(slots, m', s, |a|) == Err(error)
    ensures Decode(slots, m, a + s, 0) == Err(error)
  {
    hide *;
    Concatenation(slots, m, a, s, 0);
  }

  /** The reported error really can differ, in every message that has a string field: a length that
      still fits the 64-bit index in a buffer of its own overflows it behind two bytes that decode. */
  lemma {:induction false} ErrorDependsOnPosition(slots: seq<Slot>, k: nat, m: Record)
    requires GoodTable(slots) && Fits(slots, m) && k < |slots| && slots[k].Str?
    ensures exists a: Bytes, s: Bytes ::
              0 < |a + s| < 100 && Decode(slots, m, a, 0).Ok?
              && Decode(slots, m, s, 0) == Err(UnexpectedEOF)
              && Decode(slots, m, a + s, 0) == Err(InvalidLength)
  {
    var a, m', s := Delimited(slots[k].num, []), m[k := StrV([])], LongField(slots[k].num);
    hide *;
    EmptyFieldDecodes(slots, k, m);
    LongFieldFails(slots, k, m, 0);
    LongFieldFails(slots, k, m', 2);
    assert |a + s| == 12;
    ErrorBehind(slots, m, a, m', s, InvalidLength);
  }

  /* ---------- unknown fields ---------- */

  /** The number an unparsed field carries in its tag. */
  ghost function NumberOf(f: WireField): int
    requires WellFormed(f)
  {
    FieldNumber(RawVarint(f.tag, 0).value.raw)
  }

  /** A well-formed field with a positive number that the table does not list. */
  ghost predicate Unknown(slots: seq<Slot>, f: WireField) {
    WellFormed(f) && NumberOf(f) > 0 && SlotOf(slots, NumberOf(f)) == |slots|
  }

  lemma {:induction false} TagLeads(f: WireField, b: Bytes)
    requires WellFormed(f)
    ensures Spell(f) != [] && RawVarint(Spell(f) + b, 0) == RawVarint(f.tag, 0)
    ensures RawVarint(f.tag, 0).Ok? && RawVarint(f.tag, 0).value.raw % 8 != 4
  {
    hide RawVarint;
    var rest := Spell(f)[|f.tag|..];
    assert Spell(f) == f.tag + rest;
    assert Spell(f) + b == f.tag + (rest + b);
    RawVarintExtend(f.tag, rest + b, 0);
  }

  lemma {:induction false} UnknownStep(slots: seq<Slot>, m: Record, f: WireField, b: Bytes, at: nat)
    requires Fits(slots, m) && Unknown(slots, f) && at + |Spell(f) + b| < TWO_TO_THE_63
    ensures Spell(f) != [] && Step(slots, m, Spell(f) + b, at) == Ok((m, |Spell(f)|))
  {
    hide RawVarint, DecodeField, SkipFrom, WellFormed, Spell, FieldNumber;
    SkipReturnsLength(f, b);
    TagLeads(f, b);
  }

  lemma {:induction false} UnknownDecodes(slots: seq<Slot>, m: Record, f: WireField, b: Bytes, at: nat)
    requires Fits(slots, m) && Unknown(slots, f) && at + |Spell(f) + b| < TWO_TO_THE_63
    ensures Decode(slots, m, Spell(f) + b, at) == Decode(slots, m, b, at + |Spell(f)|)
  {
    hide Step;
    UnknownStep(slots, m, f, b, at);
    assert (Spell(f) + b)[|Spell(f)|..] == b;
  }

  /** Unknown fields are transparent: one inserted at any field boundary, of any wire type and
      with groups nested to any depth, changes nothing in what is decoded. */
  lemma {:induction false} UnknownFieldIsTransparent(slots: seq<Slot>, m: Record, a: Bytes, f: WireField, b: Bytes)
    requires Fits(slots, m) && Unknown(slots, f) && |a + Spell(f) + b| < TWO_TO_THE_63
    requires Decode(slots, m, a, 0).Ok?
    ensures Agree(Decode(slots, m, a + Spell(f) + b, 0), Decode(slots, m, a + b, 0))
  {
    hide Decode;
    var u := Spell(f);
    assert a + u + b == a + (u + b);
    Concatenation(slots, m, a, u + b, 0);
    Concatenation(slots, m, a, b, 0);
    var m1 := Decode(slots, m, a, 0).value;
    UnknownDecodes(slots, m1, f, b, |a|);
    DecodeShift(slots, m1, b, |a| + |u|, |a|);
  }

  /* ---------- what the parser refuses ---------- */

  /** The field number of a tag: 32 bits of it, as Go's int32 holds them. */
  lemma {:induction false} NumberOfTag(raw: nat)
    ensures var n := raw / 8 % 0x1_0000_0000;
            FieldNumber(raw) == if n < 0x8000_0000 then n else n - 0x1_0000_0000
  {
    var q, r := raw / TWO_TO_THE_64, raw % TWO_TO_THE_64;
    assert raw / 8 == (q * 0x2000_0000) * 0x1_0000_0000 + r / 8;
    ModMultiple(q * 0x2000_0000, r / 8);
  }

  lemma {:induction false} ModMultiple(m: nat, n: nat)
    ensures (m * 0x1_0000_0000 + n) % 0x1_0000_0000 == n % 0x1_0000_0000
  {
  }

  /** The errors of a message by the tag at its head: an end-group tag, a field number that is not
      positive, a listed field under a wire type that is not its own, an unlisted one under a wire type
      that does not exist. */
  lemma {:induction false} TagErrors(slots: seq<Slot>, m: Record, tag: Bytes, rest: Bytes)
    requires Fits(slots, m) && IsVarint(tag) && |tag + rest| < TWO_TO_THE_63
    ensures var raw := RawVarint(tag, 0).value.raw;
            var n, wireType, result := raw / 8 % 0x1_0000_0000, raw % 8, Decode(slots, m, tag + rest, 0);
            && (wireType == 4 ==> result == Err(EndGroupForNonGroup))
            && (wireType != 4 && (n == 0 || n >= 0x8000_0000) ==> result == Err(IllegalTag))
            && (wireType != 4 && 0 < n < 0x8000_0000 ==>
                  (forall k :: 0 <= k < |slots| && SlotOf(slots, n) == k ==>
                     (slots[k].UInt? || slots[k].Bool? ==> wireType != 0 ==> result == Err(WrongWireType))
                     && (!slots[k].UInt? && !slots[k].Bool? ==> wireType != 2 ==> result == Err(WrongWireType)))
                  && ((forall k :: 0 <= k < |slots| ==> slots[k].num != n) && wireType >= 6 ==>
                        result == Err(IllegalWireType)))
  {
    var s := tag + rest;
    RawVarintExtend(tag, rest, 0);
    var raw := RawVarint(tag, 0).value.raw;
    NumberOfTag(raw);
    assert |tag| > 0;
    hide RawVarint, FieldNumber;
    TagStep(slots, m, s, raw, |tag|);
    hide Step;
    assert Step(slots, m, s, 0).Err? ==> Decode(slots, m, s, 0) == Err(Step(slots, m, s, 0).error);
  }

  lemma {:induction false} TagStep(slots: seq<Slot>, m: Record, s: Bytes, raw: nat, length: nat)
    requires Fits(slots, m) && s != [] && |s| < TWO_TO_THE_63 && RawVarint(s, 0) == Ok(Varint(raw, length))
    ensures var n, wireType, result := FieldNumber(raw), raw % 8, Step(slots, m, s, 0);
            && (wireType == 4 ==> result == Err(EndGroupForNonGroup))
            && (wireType != 4 && n <= 0 ==> result == Err(IllegalTag))
            && (wireType != 4 && n > 0 ==>
                  (forall k :: 0 <= k < |slots| && SlotOf(slots, n) == k ==>
                     (slots[k].UInt? || slots[k].Bool? ==> wireType != 0 ==> result == Err(WrongWireType))
                     && (!slots[k].UInt? && !slots[k].Bool? ==> wireType != 2 ==> result == Err(WrongWireType)))
                  && ((forall k :: 0 <= k < |slots| ==> slots[k].num != n) && wireType >= 6 ==>
                        result == Err(IllegalWireType)))
  {
    assert s[0..] == s;
    hide RawVarint, FieldNumber, DelimitedSpan, Store;
  }

  lemma {:induction false} NegativeSpan(tag: Byte, length: UInt64, rest: Bytes)
    requires length >= TWO_TO_THE_63
    ensures DelimitedSpan([tag] + EncodeVarint(length) + rest, 1, 0) == Err(InvalidLength)
  {
    assert ([tag] + EncodeVarint(length) + rest)[1..] == EncodeVarint(length) + rest;
    ReadOfEncode(length, rest);
    hide EncodeVarint, RawVarint;
  }

  lemma {:induction false} SpanErrorStops(slots: seq<Slot>, k: nat, m: Record, s: Bytes, tag: nat)
    requires Fits(slots, m) && k < |slots| && !slots[k].UInt? && !slots[k].Bool?
    requires s != [] && |s| < TWO_TO_THE_63 && RawVarint(s, 0) == Ok(Varint(tag, 1)) && tag % 8 == 2
    requires FieldNumber(tag) > 0 && SlotOf(slots, FieldNumber(tag)) == k && DelimitedSpan(s, 1, 0).Err?
    ensures Decode(slots, m, s, 0) == Err(DelimitedSpan(s, 1, 0).error)
  {
    hide RawVarint, SlotOf, FieldNumber, DelimitedSpan, Store, SkipFrom;
    assert DecodeField(slots[k], m[k], 2, s, 1, 0) == Err(DelimitedSpan(s, 1, 0).error);
    hide DecodeField;
    assert Step(slots, m, s, 0) == Err(DelimitedSpan(s, 1, 0).error);
  }

  /** A length that is negative as a signed number is refused, wherever the buffer ends. */
  lemma {:induction false} NegativeLengthRefused(slots: seq<Slot>, k: nat, m: Record, length: UInt64, rest: Bytes)
    requires GoodTable(slots) && Fits(slots, m) && k < |slots| && !slots[k].UInt? && !slots[k].Bool?
    requires length >= TWO_TO_THE_63
    requires |[slots[k].num * 8 + 2] + EncodeVarint(length) + rest| < TWO_TO_THE_63
    ensures Decode(slots, m, [slots[k].num * 8 + 2] + EncodeVarint(length) + rest, 0) == Err(InvalidLength)
  {
    var tag: Byte := slots[k].num * 8 + 2;
    var s := [tag] + EncodeVarint(length) + rest;
    NegativeSpan(tag, length, rest);
    OneByteTag(slots[k].num, 2, EncodeVarint(length) + rest);
    SlotFound(slots, k);
    assert s == [tag] + (EncodeVarint(length) + rest);
    hide EncodeVarint, RawVarint, SlotOf, FieldNumber, DelimitedSpan, Decode;
    SpanErrorStops(slots, k, m, s, tag);
  }

  /* ---------- merging and the round trip ---------- */

  function MergeSlot(slot: Slot, x: Value, y: Value): (r: Value)
    requires FitsSlot(slot, x) && FitsSlot(slot, y)
    ensures FitsSlot(slot, r)
    decreases slot
  {
    match slot
    case Str(_) => if y.s == [] then x else y
    case Repeated(_) => ListV(x.items + y.items)
    case UInt(_) => if y.n == 0 then x else y
    case Bool(_) => BoolV(x.b || y.b)
    case Leaf(_, _, _) => y
    case Message(_, slots) => MessageV(Merge(slots, x.fields, y.fields))
  }

  /** "Last One Wins" field by field: scalars of y replace those of x unless y leaves them at their
      default, lists append, nested messages merge. */
  function Merge(slots: seq<Slot>, x: Record, y: Record): (r: Record)
    requires Fits(slots, x) && Fits(slots, y)
    ensures Fits(slots, r)
    ensures forall k :: 0 <= k < |slots| ==> r[k] == MergeSlot(slots[k], x[k], y[k])
    decreases slots
  {
    seq(|slots|, k requires 0 <= k < |slots| => MergeSlot(slots[k], x[k], y[k]))
  }

  function FreshSlot(slot: Slot): (r: Value)
    ensures FitsSlot(slot, r)
    decreases slot
  {
    match slot
    case Str(_) => StrV([])
    case Repeated(_) => ListV([])
    case UInt(_) => UIntV(0)
    case Bool(_) => BoolV(false)
    case Leaf(_, _, zero) => LeafV(zero)
    case Message(_, slots) => MessageV(Fresh(slots))
  }

  /** A newly declared message: every field at its Go zero value. */
  function Fresh(slots: seq<Slot>): (r: Record)
    ensures Fits(slots, r)
    ensures forall k :: 0 <= k < |slots| ==> r[k] == FreshSlot(slots[k])
    decreases slots
  {
    seq(|slots|, k requires 0 <= k < |slots| => FreshSlot(slots[k]))
  }

  lemma {:induction false} MergeIntoFreshSlot(slot: Slot, y: Value)
    requires FitsSlot(slot, y)
    ensures MergeSlot(slot, FreshSlot(slot), y) == y
    decreases slot
  {
    match slot
    case Repeated(_) => assert [] + y.items == y.items;
    case Message(_, slots) => MergeIntoFresh(slots, y.fields);
    case _ =>
  }

  lemma {:induction false} MergeIntoFresh(slots: seq<Slot>, y: Record)
    requires Fits(slots, y)
    ensures Merge(slots, Fresh(slots), y) == y
    decreases slots
  {
    forall k | 0 <= k < |slots|
      ensures Merge(slots, Fresh(slots), y)[k] == y[k]
    {
      MergeIntoFreshSlot(slots[k], y[k]);
    }
  }

  lemma {:induction false} OneByteTag(num: nat, wireType: nat, rest: Bytes)
    requires 1 <= num <= 15 && wireType < 8
    ensures var tag := num * 8 + wireType;
            RawVarint([tag] + rest, 0) == Ok(Varint(tag, 1)) && tag % 8 == wireType && FieldNumber(tag) == num
  {
  }

  lemma {:induction false} SlotFound(slots: seq<Slot>, k: nat)
    requires GoodTable(slots) && k < |slots|
    ensures SlotOf(slots, slots[k].num) == k
  {
  }

  lemma {:induction false} SpanOfDelimited(num: nat, payload: Bytes, at: nat)
    requires num <= 15 && at + |Delimited(num, payload)| < TWO_TO_THE_63
    ensures var s := Delimited(num, payload);
            DelimitedSpan(s, 1, at) == Ok((|s| - |payload|, |s|)) && s[|s| - |payload|..|s|] == payload
  {
    hide RawVarint, EncodeVarint;
    var s := Delimited(num, payload);
    assert s[1..] == EncodeVarint(|payload|) + payload;
    ReadOfEncode(|payload|, payload);
  }

  /** A buffer holding exactly one field is one round of the loop. */
  lemma {:induction false} OneRound(slots: seq<Slot>, z: Record, s: Bytes, at: nat, z': Record)
    requires Fits(slots, z) && Fits(slots, z') && s != [] && at + |s| < TWO_TO_THE_63
    requires Step(slots, z, s, at) == Ok((z', |s|))
    ensures Decode(slots, z, s, at) == Ok(z')
  {
    hide Step;
    assert s[|s|..] == [];
  }

  /** Decoding one length-delimited occurrence of a listed field stores its payload. */
  lemma {:induction false} DelimitedOnto(slots: seq<Slot>, k: nat, z: Record, payload: Bytes, at: nat)
    requires GoodTable(slots) && Fits(slots, z) && k < |slots| && !slots[k].UInt? && !slots[k].Bool?
    requires at + |Delimited(slots[k].num, payload)| < TWO_TO_THE_63
    requires Store(slots[k], z[k], payload).Ok?
    ensures Decode(slots, z, Delimited(slots[k].num, payload), at)
         == Ok(z[k := Store(slots[k], z[k], payload).value])
  {
    hide RawVarint, EncodeVarint, Store, SkipFrom, DelimitedSpan;
    var s := Delimited(slots[k].num, payload);
    assert s == [slots[k].num * 8 + 2] + (EncodeVarint(|payload|) + payload);
    OneByteTag(slots[k].num, 2, EncodeVarint(|payload|) + payload);
    SlotFound(slots, k);
    SpanOfDelimited(slots[k].num, payload, at);
    OneRound(slots, z, s, at, z[k := Store(slots[k], z[k], payload).value]);
  }

  lemma {:induction false} ScalarOnto(slots: seq<Slot>, k: nat, z: Record, n: UInt64, at: nat)
    requires GoodTable(slots) && Fits(slots, z) && k < |slots| && (slots[k].UInt? || slots[k].Bool?)
    requires at + |[slots[k].num * 8] + EncodeVarint(n)| < TWO_TO_THE_63
    ensures Decode(slots, z, [slots[k].num * 8] + EncodeVarint(n), at)
         == Ok(z[k := if slots[k].UInt? then UIntV(n) else BoolV(n != 0)])
  {
    hide RawVarint, EncodeVarint, SkipFrom;
    var s := [slots[k].num * 8] + EncodeVarint(n);
    OneByteTag(slots[k].num, 0, EncodeVarint(n));
    SlotFound(slots, k);
    assert s[1..] == EncodeVarint(n) + [];
    ReadOfEncode(n, []);
    OneRound(slots, z, s, at, z[k := if slots[k].UInt? then UIntV(n) else BoolV(n != 0)]);
  }

  lemma {:induction false} ListOnto(slots: seq<Slot>, k: nat, z: Record, items: seq<Bytes>, at: nat)
    requires GoodTable(slots) && Fits(slots, z) && k < |slots| && slots[k].Repeated? && FitsSlot(slots[k], z[k])
    requires at + |DelimitedAll(slots[k].num, items)| < TWO_TO_THE_63
    ensures Decode(slots, z, DelimitedAll(slots[k].num, items), at) == Ok(z[k := ListV(z[k].items + items)])
    decreases items
  {
    hide Decode, Step;
    var num := slots[k].num;
    if items == [] {
      DecodeNothing(slots, z, at);
      assert z[k].items + items == z[k].items && z[k] == ListV(z[k].items);
      assert z[k := z[k]] == z;
    } else {
      var first, rest := Delimited(num, items[0]), DelimitedAll(num, items[1..]);
      var z' := z[k := ListV(z[k].items + [items[0]])];
      assert |items[0]| <= |first|;
      DelimitedOnto(slots, k, z, items[0], at);
      Concatenation(slots, z, first, rest, at);
      assert Store(slots[k], z[k], items[0]) == Ok(z'[k]);
      ListOnto(slots, k, z', items[1..], at + |first|);
      assert z'[k].items + items[1..] == z[k].items + items;
      assert z'[k := ListV(z[k].items + items)] == z[k := ListV(z[k].items + items)];
    }
  }

  lemma {:induction false} DecodeNothing(slots: seq<Slot>, z: Record, at: nat)
    requires Fits(slots, z) && at < TWO_TO_THE_63
    ensures Decode(slots, z, [], at) == Ok(z)
  {
  }

  /** Decoding one encoded field merges it into the record. */
  lemma {:induction false} FieldOnto(slots: seq<Slot>, k: nat, z: Record, v: Value, at: nat)
    requires GoodTable(slots) && Fits(slots, z) && k < |slots|
    requires FitsSlot(slots[k], v) && PrintableSlot(slots[k], v)
    requires at + |EncodeField(slots[k], v)| < TWO_TO_THE_63
    ensures Decode(slots, z, EncodeField(slots[k], v), at) == Ok(z[k := MergeSlot(slots[k], z[k], v)])
    decreases slots, 0
  {
    hide Decode, Step;
    DecodeNothing(slots, z, at);
    assert z[k := z[k]] == z;
    match slots[k]
    case Str(_) =>
      if v.s != [] { DelimitedOnto(slots, k, z, v.s, at); }
    case Repeated(_) => ListOnto(slots, k, z, v.items, at);
    case UInt(_) =>
      if v.n != 0 { ScalarOnto(slots, k, z, v.n, at); }
    case Bool(_) =>
      assert BoolV(z[k].b || false) == z[k];
      assert [slots[k].num * 8, 1] == [slots[k].num * 8] + EncodeVarint(1);
      if v.b { ScalarOnto(slots, k, z, 1, at); }
    case Leaf(_, _, _) => DelimitedOnto(slots, k, z, v.text, at);
    case Message(_, inner) =>
      DecodeOnto(inner, z[k].fields, v.fields, 0);
      DelimitedOnto(slots, k, z, EncodeFrom(inner, v.fields, 0), at);
  }

  /** The record once the fields before k have been merged. */
  ghost function Midway(slots: seq<Slot>, x: Record, y: Record, k: nat): (r: Record)
    requires Fits(slots, x) && Fits(slots, y) && k <= |slots|
    ensures Fits(slots, r)
  {
    Merge(slots, x, y)[..k] + x[k..]
  }

  lemma {:induction false} MidwayStep(slots: seq<Slot>, x: Record, y: Record, k: nat)
    requires Fits(slots, x) && Fits(slots, y) && k < |slots|
    ensures var z := Midway(slots, x, y, k);
            |z| == |slots| && FitsSlot(slots[k], z[k]) && FitsSlot(slots[k], y[k])
            && z[k := MergeSlot(slots[k], z[k], y[k])] == Midway(slots, x, y, k + 1)
  {
    hide MergeSlot, FitsSlot;
  }

  lemma {:induction false} MidwayEnd(slots: seq<Slot>, x: Record, y: Record, at: nat)
    requires GoodTable(slots) && Fits(slots, x) && Fits(slots, y) && at < TWO_TO_THE_63
    ensures EncodeFrom(slots, y, |slots|) == []
    ensures Decode(slots, Midway(slots, x, y, |slots|), [], at) == Ok(Merge(slots, x, y))
  {
    hide MergeSlot, FitsSlot, GoodTable;
    assert Midway(slots, x, y, |slots|) == Merge(slots, x, y);
  }

  /** What comes next in an encoding, and that it is fit to be read back. */
  lemma {:induction false} NextPart(slots: seq<Slot>, y: Record, k: nat)
    requires GoodTable(slots) && Fits(slots, y) && Printable(slots, y) && k < |slots|
    ensures |y| == |slots| && FitsSlot(slots[k], y[k]) && PrintableSlot(slots[k], y[k])
    ensures slots[k].num <= 15 && (slots[k].Message? ==> GoodTable(slots[k].slots))
    ensures EncodeFrom(slots, y, k) == EncodeField(slots[k], y[k]) + EncodeFrom(slots, y, k + 1)
  {
    hide EncodeField, FitsSlot, PrintableSlot;
  }

  /** Decoding field k takes the record from one midway point to the next. */
  lemma {:induction false} FieldMoves(slots: seq<Slot>, x: Record, y: Record, k: nat, at: nat)
    requires GoodTable(slots) && Fits(slots, x) && Fits(slots, y) && k < |slots| && |y| == |slots|
    requires FitsSlot(slots[k], y[k]) && PrintableSlot(slots[k], y[k])
    requires slots[k].num <= 15 && (slots[k].Message? ==> GoodTable(slots[k].slots))
    requires at + |EncodeField(slots[k], y[k])| < TWO_TO_THE_63
    ensures Decode(slots, Midway(slots, x, y, k), EncodeField(slots[k], y[k]), at) == Ok(Midway(slots, x, y, k + 1))
    decreases slots, 1
  {
    hide *;
    MidwayStep(slots, x, y, k);
    FieldOnto(slots, k, Midway(slots, x, y, k), y[k], at);
  }

  /** Decoding what is left at one midway point is decoding what is left at the next. */
  lemma {:induction false} MoveOn(slots: seq<Slot>, x: Record, y: Record, k: nat, at: nat, rest: Bytes)
    requires GoodTable(slots) && Fits(slots, x) && Fits(slots, y) && Printable(slots, y) && k < |slots|
    requires rest == EncodeFrom(slots, y, k + 1) && at + |EncodeFrom(slots, y, k)| < TWO_TO_THE_63
    ensures |rest| <= |EncodeFrom(slots, y, k)|
    ensures Decode(slots, Midway(slots, x, y, k), EncodeFrom(slots, y, k), at)
         == Decode(slots, Midway(slots, x, y, k + 1), rest, at + (|EncodeFrom(slots, y, k)| - |rest|))
    decreases slots, 2
  {
    hide *;
    NextPart(slots, y, k);
    FieldMoves(slots, x, y, k, at);
    Concatenation(slots, Midway(slots, x, y, k), EncodeField(slots[k], y[k]), rest, at);
  }

  lemma {:induction false} DecodeOntoFrom(slots: seq<Slot>, x: Record, y: Record, k: nat, at: nat)
    requires GoodTable(slots) && Fits(slots, x) && Fits(slots, y) && Printable(slots, y) && k <= |slots|
    requires at + |EncodeFrom(slots, y, k)| < TWO_TO_THE_63
    ensures Decode(slots, Midway(slots, x, y, k), EncodeFrom(slots, y, k), at) == Ok(Merge(slots, x, y))
    decreases slots, 3, |slots| - k
  {
    hide *;
    if k == |slots| {
      MidwayEnd(slots, x, y, at);
    } else {
      var all, rest := EncodeFrom(slots, y, k), EncodeFrom(slots, y, k + 1);
      MoveOn(slots, x, y, k, at, rest);
      DecodeOntoFrom(slots, x, y, k + 1, at + (|all| - |rest|));
    }
  }

  /** The merge law: decoding the encoding of y on top of x is merging y into x. */
  lemma {:induction false} DecodeOnto(slots: seq<Slot>, x: Record, y: Record, at: nat)
    requires GoodTable(slots) && Fits(slots, x) && Fits(slots, y) && Printable(slots, y)
    requires at + |Encode(slots, y)| < TWO_TO_THE_63
    ensures Decode(slots, x, Encode(slots, y), at) == Ok(Merge(slots, x, y))
    decreases slots, 4
  {
    assert Midway(slots, x, y, 0) == x;
    DecodeOntoFrom(slots, x, y, 0, at);
  }

  /** The round trip: whatever Marshal writes, Unmarshal into a new message reads back. */
  lemma {:induction false} RoundTrip(slots: seq<Slot>, y: Record)
    requires GoodTable(slots) && Fits(slots, y) && Printable(slots, y)
    requires |Encode(slots, y)| < TWO_TO_THE_63
    ensures Decode(slots, Fresh(slots), Encode(slots, y), 0) == Ok(y)
  {
    DecodeOnto(slots, Fresh(slots), y, 0);
    MergeIntoFresh(slots, y);
  }

  /** Concatenating two encodings encodes the merge: it decodes to x with y merged into it. */
  lemma {:induction false} ConcatenatedEncodings(slots: seq<Slot>, x: Record, y: Record)
    requires GoodTable(slots) && Fits(slots, x) && Fits(slots, y)
    requires Printable(slots, x) && Printable(slots, y)
    requires |Encode(slots, x) + Encode(slots, y)| < TWO_TO_THE_63
    ensures Decode(slots, Fresh(slots), Encode(slots, x) + Encode(slots, y), 0) == Ok(Merge(slots, x, y))
  {
    hide Decode, Encode, Fresh, Merge, Printable, GoodTable;
    RoundTrip(slots, x);
    Concatenation(slots, Fresh(slots), Encode(slots, x), Encode(slots, y), 0);
    DecodeOnto(slots, x, y, |Encode(slots, x)|);
  }

  /** Different messages have different encodings. */
  lemma {:induction false} EncodeIsInjective(slots: seq<Slot>, x: Record, y: Record)
    requires GoodTable(slots) && Fits(slots, x) && Fits(slots, y)
    requires Printable(slots, x) && Printable(slots, y)
    requires |Encode(slots, x)| < TWO_TO_THE_63
    requires Encode(slots, x) == Encode(slots, y)
    ensures x == y
  {
    hide Decode, Encode, Fresh, Printable, GoodTable;
    RoundTrip(slots, x);
    RoundTrip(slots, y);
  }
}
