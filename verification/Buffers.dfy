/** The buffer code itself: the writer that fills a sized buffer from its end towards its start,
    and the index-advancing readers. Each is proved to compute the functions of `Messages`. */
module Buffers {
  import opened Wire
  import opened Skip
  import opened Messages

  /* ---------- the size computed before writing ---------- */

  function SizeDelimited(length: nat): nat {
    1 + length + Sov(length)
  }

  function SizeAll(items: seq<Bytes>): nat {
    if items == [] then 0 else SizeDelimited(|items[0]|) + SizeAll(items[1..])
  }

  function SizeField(slot: Slot, v: Value): nat
    requires FitsSlot(slot, v)
    decreases slot
  {
    match slot
    case Str(_) => if v.s == [] then 0 else SizeDelimited(|v.s|)
    case Repeated(_) => SizeAll(v.items)
    case UInt(_) => if v.n == 0 then 0 else 1 + Sov(v.n)
    case Bool(_) => if v.b then 2 else 0
    case Leaf(_, _, _) => SizeDelimited(|v.text|)
    case Message(_, slots) => SizeDelimited(SizeFrom(slots, v.fields, 0))
  }

  function SizeFrom(slots: seq<Slot>, m: Record, k: nat): nat
    requires Fits(slots, m) && k <= |slots|
    decreases slots, |slots| - k
  {
    if k == |slots| then 0 else SizeField(slots[k], m[k]) + SizeFrom(slots, m, k + 1)
  }

  lemma {:induction false} SizeOfDelimited(num: nat, payload: Bytes)
    requires num <= 15
    ensures |Delimited(num, payload)| == SizeDelimited(|payload|)
  {
    SovIsLength(|payload|);
  }

  lemma {:induction false} SizeOfAll(num: nat, items: seq<Bytes>)
    requires num <= 15
    ensures |DelimitedAll(num, items)| == SizeAll(items)
  {
    if items != [] {
      SizeOfDelimited(num, items[0]);
      SizeOfAll(num, items[1..]);
    }
  }

  lemma {:induction false} SizeOfField(slot: Slot, v: Value)
    requires slot.num <= 15 && FitsSlot(slot, v) && (slot.Message? ==> GoodTable(slot.slots))
    ensures |EncodeField(slot, v)| == SizeField(slot, v)
    decreases slot, 0
  {
    match slot
    case Str(num) => SizeOfDelimited(num, v.s);
    case Repeated(num) => SizeOfAll(num, v.items);
    case UInt(_) => SovIsLength(v.n);
    case Bool(_) =>
    case Leaf(num, _, _) => SizeOfDelimited(num, v.text);
    case Message(num, slots) =>
      SizeIsLength(slots, v.fields, 0);
      SizeOfDelimited(num, EncodeFrom(slots, v.fields, 0));
  }

  /** Size() is the length of what Marshal writes. */
  lemma {:induction false} SizeIsLength(slots: seq<Slot>, m: Record, k: nat)
    requires GoodTable(slots) && Fits(slots, m) && k <= |slots|
    ensures |EncodeFrom(slots, m, k)| == SizeFrom(slots, m, k)
    decreases slots, 1, |slots| - k
  {
    if k < |slots| {
      SizeOfField(slots[k], m[k]);
      SizeIsLength(slots, m, k + 1);
    }
  }

  /* ---------- the backward writer ---------- */

  /** `before` with the bytes [i, end) replaced by `written`. */
  ghost function Splice(before: Bytes, i: nat, written: Bytes, end: nat): Bytes
    requires i <= end <= |before|
  {
    before[..i] + written + before[end..]
  }

  lemma {:induction false} SpliceTwice(before: Bytes, j: nat, front: Bytes, i: nat, back: Bytes, end: nat)
    requires j + |front| == i && i + |back| == end <= |before|
    ensures Splice(Splice(before, i, back, end), j, front, i) == Splice(before, j, front + back, end)
  {
  }

  lemma {:induction false} SpliceNext(before: Bytes, i: nat, written: Bytes, end: nat, b: Byte)
    requires i + |written| == end < |before|
    ensures Splice(before, i, written, end)[end := b] == Splice(before, i, written + [b], end + 1)
  {
  }

  lemma {:induction false} SpliceNothing(before: Bytes, i: nat)
    requires i <= |before|
    ensures Splice(before, i, [], i) == before
  {
  }

  method EncodeVarintAt(dAtA: array<Byte>, offset: nat, v: UInt64) returns (base: nat)
    requires Sov(v) <= offset <= dAtA.Length
    modifies dAtA
    ensures base + Sov(v) == offset
    ensures dAtA[..] == Splice(old(dAtA[..]), base, EncodeVarint(v), offset)
  {
    SovIsLength(v);
    base := offset - Sov(v);
    var at: nat, rest: nat := base, v;
    ghost var before, done: Bytes := dAtA[..], [];
    SpliceNothing(before, base);
    assert [] + EncodeVarint(v) == EncodeVarint(v);
    assert Written(before, dAtA[..], base, done, at, rest, v, offset);
    hide Sov, Splice, EncodeVarint, Written;
    while rest >= 128
      invariant Written(before, dAtA[..], base, done, at, rest, v, offset)
      decreases rest
    {
      ghost var now := dAtA[..];
      WriteNext(before, now, base, done, at, rest, v, offset);
      var b: Byte := rest % 128 + 128;
      done := done + [b];
      dAtA[at] := b;
      assert dAtA[..] == now[at := b];
      rest := rest / 128;
      at := at + 1;
    }
    ghost var now := dAtA[..];
    WriteLast(before, now, base, done, at, rest, v, offset);
    var b: Byte := rest;
    dAtA[at] := b;
    assert dAtA[..] == now[at := b];
  }

  /** The groups of v in `done` are written from base up to at; those of `rest` are still to come. */
  ghost predicate Written(before: Bytes, now: Bytes, base: nat, done: Bytes, at: nat, rest: nat, v: nat, offset: nat) {
    && base <= at && at + |EncodeVarint(rest)| == offset <= |before|
    && |done| == at - base && done + EncodeVarint(rest) == EncodeVarint(v)
    && now == Splice(before, base, done, at)
  }

  lemma {:induction false} WriteNext(before: Bytes, now: Bytes, base: nat, done: Bytes, at: nat, rest: nat,
                                     v: nat, offset: nat)
    requires Written(before, now, base, done, at, rest, v, offset) && rest >= 128
    ensures at < |now| && rest / 128 < rest && rest % 128 + 128 < 256
    ensures var b: Byte := rest % 128 + 128;
            Written(before, now[at := b], base, done + [b], at + 1, rest / 128, v, offset)
  {
    NextGroup(done, rest);
    hide EncodeVarint;
    var b: Byte := rest % 128 + 128;
    SpliceNext(before, base, done, at, b);
  }

  lemma {:induction false} WriteLast(before: Bytes, now: Bytes, base: nat, done: Bytes, at: nat, rest: nat,
                                     v: nat, offset: nat)
    requires Written(before, now, base, done, at, rest, v, offset) && rest < 128
    ensures at < |now|
    ensures var b: Byte := rest;
            now[at := b] == Splice(before, base, EncodeVarint(v), offset)
  {
    LastGroup(rest);
    hide EncodeVarint;
    var b: Byte := rest;
    SpliceNext(before, base, done, at, b);
  }

  lemma {:induction false} NextGroup(done: Bytes, rest: nat)
    requires rest >= 128
    ensures done + EncodeVarint(rest) == done + [rest % 128 + 128] + EncodeVarint(rest / 128)
    ensures |EncodeVarint(rest)| == 1 + |EncodeVarint(rest / 128)|
    ensures rest / 128 < rest && rest % 128 + 128 < 256
  {
    var b: Byte, tail := rest % 128 + 128, EncodeVarint(rest / 128);
    assert EncodeVarint(rest) == [b] + tail;
    Associate(done, [b], tail);
  }

  lemma {:induction false} Associate(a: Bytes, b: Bytes, c: Bytes)
    ensures a + (b + c) == a + b + c
  {
  }

  lemma {:induction false} LastGroup(rest: nat)
    requires rest < 128
    ensures EncodeVarint(rest) == [rest]
  {
  }

  method PutTag(dAtA: array<Byte>, i: nat, tag: Byte) returns (j: nat)
    requires 0 < i <= dAtA.Length
    modifies dAtA
    ensures j == i - 1
    ensures dAtA[..] == Splice(old(dAtA[..]), j, [tag], i)
  {
    j := i - 1;
    dAtA[j] := tag;
  }

  /** The length and tag in front of a payload that already occupies [i, i + length). */
  method PutHeader(dAtA: array<Byte>, i: nat, num: nat, length: UInt64) returns (j: nat)
    requires num <= 15 && 1 + Sov(length) <= i <= dAtA.Length
    modifies dAtA
    ensures j + 1 + Sov(length) == i
    ensures |EncodeVarint(length)| == Sov(length)
    ensures dAtA[..] == Splice(old(dAtA[..]), j, [num * 8 + 2] + EncodeVarint(length), i)
  {
    SovIsLength(length);
    ghost var before := dAtA[..];
    var base := EncodeVarintAt(dAtA, i, length);
    j := PutTag(dAtA, base, num * 8 + 2);
    SpliceTwice(before, j, [num * 8 + 2], base, EncodeVarint(length), i);
  }

  method PutDelimited(dAtA: array<Byte>, end: nat, num: nat, payload: Bytes) returns (j: nat)
    requires num <= 15 && |payload| < TWO_TO_THE_64 && SizeDelimited(|payload|) <= end <= dAtA.Length
    modifies dAtA
    ensures j + SizeDelimited(|payload|) == end && |Delimited(num, payload)| == SizeDelimited(|payload|)
    ensures dAtA[..] == Splice(old(dAtA[..]), j, Delimited(num, payload), end)
  {
    ghost var before := dAtA[..];
    var i := end - |payload|;
    forall k | 0 <= k < |payload| {
      dAtA[i + k] := payload[k];
    }
    assert dAtA[..] == Splice(before, i, payload, end);
    j := PutHeader(dAtA, i, num, |payload|);
    DelimitedSpliced(before, j, num, i, payload, end);
  }

  /** A header spliced in front of its payload makes up the field. */
  lemma {:induction false} DelimitedSpliced(before: Bytes, j: nat, num: nat, i: nat, payload: Bytes, end: nat)
    requires num <= 15 && i + |payload| == end <= |before|
    requires j + 1 + |EncodeVarint(|payload|)| == i
    ensures Splice(Splice(before, i, payload, end), j, [num * 8 + 2] + EncodeVarint(|payload|), i)
         == Splice(before, j, Delimited(num, payload), end)
  {
    hide EncodeVarint, Splice;
    SpliceTwice(before, j, [num * 8 + 2] + EncodeVarint(|payload|), i, payload, end);
  }

  /** A repeated string field, last item first. */
  method PutAll(dAtA: array<Byte>, end: nat, num: nat, items: seq<Bytes>) returns (j: nat)
    requires num <= 15 && SizeAll(items) <= end <= dAtA.Length < TWO_TO_THE_63
    modifies dAtA
    ensures j + SizeAll(items) == end && |DelimitedAll(num, items)| == SizeAll(items)
    ensures dAtA[..] == Splice(old(dAtA[..]), j, DelimitedAll(num, items), end)
  {
    ghost var before := dAtA[..];
    SizeOfAll(num, items);
    j := end;
    for k := |items| downto 0
      invariant SizeAll(items[k..]) <= end && j == end - SizeAll(items[k..])
      invariant dAtA[..] == Splice(before, j, DelimitedAll(num, items[k..]), end)
    {
      assert items[k..][1..] == items[k + 1..];
      SizeSuffix(items, k);
      SizeOfAll(num, items[k + 1..]);
      var i := j;
      j := PutDelimited(dAtA, i, num, items[k]);
      SpliceTwice(before, j, Delimited(num, items[k]), i, DelimitedAll(num, items[k + 1..]), end);
    }
    assert items[0..] == items;
  }

  lemma {:induction false} SizeSuffix(items: seq<Bytes>, k: nat)
    requires k < |items|
    ensures SizeAll(items[k..]) == SizeDelimited(|items[k]|) + SizeAll(items[k + 1..])
    ensures SizeAll(items[k..]) <= SizeAll(items)
    decreases k
  {
    assert items[k..][1..] == items[k + 1..];
    if k == 0 {
      assert items[0..] == items;
    } else {
      assert items[1..][k - 1..] == items[k..] && items[1..][k..] == items[k + 1..];
      SizeSuffix(items[1..], k - 1);
    }
  }

  method PutUInt(dAtA: array<Byte>, end: nat, num: nat, v: UInt64) returns (j: nat)
    requires num <= 15 && 1 + Sov(v) <= end <= dAtA.Length
    modifies dAtA
    ensures j + 1 + Sov(v) == end
    ensures |EncodeVarint(v)| == Sov(v) && dAtA[..] == Splice(old(dAtA[..]), j, [num * 8] + EncodeVarint(v), end)
  {
    SovIsLength(v);
    ghost var before := dAtA[..];
    var i := EncodeVarintAt(dAtA, end, v);
    j := PutTag(dAtA, i, num * 8);
    SpliceTwice(before, j, [num * 8], i, EncodeVarint(v), end);
  }

  method PutTrue(dAtA: array<Byte>, end: nat, num: nat) returns (j: nat)
    requires num <= 15 && 2 <= end <= dAtA.Length
    modifies dAtA
    ensures j + 2 == end && dAtA[..] == Splice(old(dAtA[..]), j, [num * 8, 1], end)
  {
    ghost var before := dAtA[..];
    hide Splice;
    var i := PutTag(dAtA, end, 1);
    j := PutTag(dAtA, i, num * 8);
    SpliceTwice(before, j, [num * 8], i, [1], end);
    assert [num * 8] + [1] == [num * 8, 1];
  }

  /** A nested message writes its own body first and gets its length and tag afterwards. */
  method PutMessage(dAtA: array<Byte>, end: nat, num: nat, slots: seq<Slot>, m: Record) returns (j: nat)
    requires num <= 15 && GoodTable(slots) && Fits(slots, m)
    requires SizeDelimited(SizeFrom(slots, m, 0)) <= end <= dAtA.Length < TWO_TO_THE_63
    modifies dAtA
    ensures j + SizeDelimited(SizeFrom(slots, m, 0)) == end
    ensures |Delimited(num, Encode(slots, m))| == SizeDelimited(SizeFrom(slots, m, 0))
    ensures dAtA[..] == Splice(old(dAtA[..]), j, Delimited(num, Encode(slots, m)), end)
    decreases slots, 2
  {
    ghost var before := dAtA[..];
    SizeIsLength(slots, m, 0);
    SizeOfDelimited(num, Encode(slots, m));
    assert SizeDelimited(|Encode(slots, m)|) == 1 + |Encode(slots, m)| + Sov(|Encode(slots, m)|);
    hide *;
    var size := MarshalToSizedBuffer(dAtA, end, slots, m);
    j := PutHeader(dAtA, end - size, num, size);
    DelimitedSpliced(before, j, num, end - size, Encode(slots, m), end);
  }

  /** One field, written so that it ends at `end`. */
  method PutField(dAtA: array<Byte>, end: nat, slot: Slot, v: Value) returns (j: nat)
    requires slot.num <= 15 && FitsSlot(slot, v) && (slot.Message? ==> GoodTable(slot.slots))
    requires SizeField(slot, v) <= end <= dAtA.Length < TWO_TO_THE_63
    modifies dAtA
    ensures j + SizeField(slot, v) == end && |EncodeField(slot, v)| == SizeField(slot, v)
    ensures dAtA[..] == Splice(old(dAtA[..]), j, EncodeField(slot, v), end)
    decreases slot, 0
  {
    SizeOfField(slot, v);
    j := end;
    assert dAtA[..] == Splice(dAtA[..], end, [], end);
    match slot
    case Str(num) =>
      if |v.s| > 0 { j := PutDelimited(dAtA, end, num, v.s); }
    case Repeated(num) =>
      j := PutAll(dAtA, end, num, v.items);
    case UInt(num) =>
      if v.n != 0 { j := PutUInt(dAtA, end, num, v.n); }
    case Bool(num) =>
      if v.b { j := PutTrue(dAtA, end, num); }
    case Leaf(num, _, _) =>
      j := PutDelimited(dAtA, end, num, v.text);
    case Message(num, slots) =>
      j := PutMessage(dAtA, end, num, slots, v.fields);
  }

  /** MarshalToSizedBuffer on dAtA[:end]: the fields from the last table row to the first, each in
      front of the previous one. Returns how many bytes it wrote. */
  method MarshalToSizedBuffer(dAtA: array<Byte>, end: nat, slots: seq<Slot>, m: Record) returns (n: nat)
    requires GoodTable(slots) && Fits(slots, m)
    requires SizeFrom(slots, m, 0) <= end <= dAtA.Length < TWO_TO_THE_63
    modifies dAtA
    ensures n == SizeFrom(slots, m, 0) == |Encode(slots, m)|
    ensures dAtA[..] == Splice(old(dAtA[..]), end - n, Encode(slots, m), end)
    decreases slots, 1
  {
    ghost var before := dAtA[..];
    SizeIsLength(slots, m, 0);
    var i := end;
    for k := |slots| downto 0
      invariant SizeFrom(slots, m, k) <= end && i == end - SizeFrom(slots, m, k)
      invariant dAtA[..] == Splice(before, i, EncodeFrom(slots, m, k), end)
    {
      SizeTail(slots, m, k);
      SizeIsLength(slots, m, k + 1);
      var next := i;
      i := PutField(dAtA, next, slots[k], m[k]);
      SpliceTwice(before, i, EncodeField(slots[k], m[k]), next, EncodeFrom(slots, m, k + 1), end);
    }
    n := end - i;
  }

  lemma {:induction false} SizeTail(slots: seq<Slot>, m: Record, k: nat)
    requires Fits(slots, m) && k <= |slots|
    ensures SizeFrom(slots, m, k) <= SizeFrom(slots, m, 0)
    decreases k
  {
    if k > 0 {
      SizeTail(slots, m, k - 1);
    }
  }

  /** Marshal: a buffer of exactly Size() bytes is filled down to index 0. */
  method Marshal(slots: seq<Slot>, m: Record) returns (r: Bytes)
    requires GoodTable(slots) && Fits(slots, m)
    requires SizeFrom(slots, m, 0) < TWO_TO_THE_63
    ensures r == Encode(slots, m)
  {
    var size := SizeFrom(slots, m, 0);
    var dAtA := new Byte[size];
    var n := MarshalToSizedBuffer(dAtA, size, slots, m);
    r := dAtA[..n];
  }

  /* ---------- the readers ---------- */

  /** Go's `x << shift` on 64 bits. */
  function Shl64(x: nat, shift: nat): (r: nat)
    ensures r < TWO_TO_THE_64
  {
    x * Pow2(shift) % TWO_TO_THE_64
  }

  lemma {:induction false} NineGroupsFit()
    ensures Pow128(9) == TWO_TO_THE_63
  {
    assert Pow128(2) == 128 * 128;
    assert Pow128(4) == 128 * 128 * Pow128(2);
    assert Pow128(6) == 128 * 128 * Pow128(4);
    assert Pow128(8) == 128 * 128 * Pow128(6);
    assert Pow128(9) == 128 * Pow128(8);
  }

  /** A group of seven bits in position n, as a number. */
  function Group(group: nat, n: nat): nat { group * Pow128(n) }

  /** Or-ing the next group into what n groups spell: only the tenth group can lose bits, and then
      the sum is taken modulo 2^64. */
  lemma {:induction false} OrNextGroup(acc: nat, group: nat, n: nat)
    requires n <= 9 && acc < Pow128(n) && group < 128
    ensures BitOr(acc, Shl64(group, 7 * n)) == (acc + Group(group, n)) % TWO_TO_THE_64
    ensures n < 9 ==> acc + Group(group, n) < Pow128(n + 1) <= TWO_TO_THE_63
  {
    hide BitOr, Shl64, Pow128, Group;
    if n < 9 { OrInnerGroup(acc, group, n); } else { OrTenthGroup(acc, group); }
  }

  lemma {:induction false} OrInnerGroup(acc: nat, group: nat, n: nat)
    requires n < 9 && acc < Pow128(n) && group < 128
    ensures acc + Group(group, n) < Pow128(n + 1) <= TWO_TO_THE_63
    ensures BitOr(acc, Shl64(group, 7 * n)) == acc + Group(group, n)
  {
    hide BitOr;
    var p := Pow128(n);
    Pow128IsPow2(n);
    NineGroupsFit();
    Pow128Monotone(n + 1, 9);
    assert group * p <= 127 * p;
    assert Pow128(n + 1) == 128 * p;
    assert Shl64(group, 7 * n) == group * p;
    OrDisjointAdds(acc, group, 7 * n);
  }

  /** The tenth group sits at bit 63: its lowest bit stays, the others are shifted out. */
  lemma {:induction false} TenthGroup(group: nat)
    ensures Shl64(group, 63) == (group % 2) * TWO_TO_THE_63
    ensures Group(group, 9) == (group % 2) * TWO_TO_THE_63 + (group / 2) * TWO_TO_THE_64
    ensures Pow2(63) == Pow128(9) == TWO_TO_THE_63
  {
    Pow128IsPow2(9);
    NineGroupsFit();
    hide Pow128, Pow2;
    assert group == group % 2 + 2 * (group / 2);
  }

  lemma {:induction false} OrTenthGroup(acc: nat, group: nat)
    requires acc < Pow128(9) && group < 128
    ensures BitOr(acc, Shl64(group, 63)) == (acc + Group(group, 9)) % TWO_TO_THE_64
  {
    TenthGroup(group);
    hide BitOr, Pow128, Pow2, Shl64, Group;
    OrDisjointAdds(acc, group % 2, 63);
    TenthSum(acc, group % 2, group / 2);
  }

  lemma {:induction false} TenthSum(acc: nat, bit: nat, lost: nat)
    requires acc < TWO_TO_THE_63 && bit <= 1
    ensures (acc + (bit * TWO_TO_THE_63 + lost * TWO_TO_THE_64)) % TWO_TO_THE_64 == acc + bit * TWO_TO_THE_63
  {
  }

  /** `whole` is what a varint reads as when n groups spelling `acc` have been read and the rest
      of it reads as `rest`. */
  ghost predicate Continues(whole: Result<Varint>, rest: Result<Varint>, acc: nat, n: nat) {
    match rest
    case Err(_) => whole == rest
    case Ok(v) => whole == Ok(Varint(acc + Pow128(n) * v.raw, n + v.len))
  }

  lemma {:induction false} ContinuesPast(whole: Result<Varint>, s: Bytes, acc: nat, n: nat)
    requires n < 10 && s != [] && s[0] >= 128 && Continues(whole, RawVarint(s, n), acc, n)
    ensures Continues(whole, RawVarint(s[1..], n + 1), acc + Group(s[0] - 128, n), n + 1)
  {
    var rest := RawVarint(s[1..], n + 1);
    if rest.Ok? {
      assert RawVarint(s, n) == Ok(Varint(s[0] - 128 + 128 * rest.value.raw, rest.value.len + 1));
      hide RawVarint;
      Regroup(acc, s[0] - 128, Pow128(n), rest.value.raw);
    }
  }

  lemma {:induction false} Regroup(acc: nat, group: nat, p: nat, raw: nat)
    ensures acc + p * (group + 128 * raw) == acc + group * p + (128 * p) * raw
  {
    assert p * (group + 128 * raw) == p * group + p * (128 * raw);
    assert p * (128 * raw) == (128 * p) * raw;
  }

  lemma {:induction false} ContinuesToEnd(whole: Result<Varint>, s: Bytes, acc: nat, n: nat)
    requires n <= 10 && Continues(whole, RawVarint(s, n), acc, n)
    ensures n == 10 ==> whole == Err(IntOverflow)
    ensures n < 10 && s == [] ==> whole == Err(UnexpectedEOF)
    ensures n < 10 && s != [] && s[0] < 128 ==> whole == Ok(Varint(acc + Group(s[0], n), n + 1))
  {
  }

  lemma {:induction false} NothingReadYet(s: Bytes)
    ensures Continues(RawVarint(s, 0), RawVarint(s, 0), 0, 0) && Pow128(0) == 1
  {
  }

  /** The reading loop that every tag, length and scalar is unrolled into: from index i, the value
      modulo 2^64 and the index after it. */
  method ReadVarint(dAtA: Bytes, i: nat) returns (r: Result<UInt64>, next: nat)
    requires i <= |dAtA|
    ensures RawVarint(dAtA[i..], 0).Err? ==> r == Err(RawVarint(dAtA[i..], 0).error)
    ensures RawVarint(dAtA[i..], 0).Ok? ==>
              var v := RawVarint(dAtA[i..], 0).value;
              r == Ok(v.raw % TWO_TO_THE_64) && next == i + v.len <= |dAtA|
  {
    hide Pow128, Shl64, BitOr, Group, RawVarint, Continues;
    next := i;
    var wire: nat, shift: nat := 0, 0;
    ghost var n: nat, acc: nat, whole := 0, 0, RawVarint(dAtA[i..], 0);
    NothingReadYet(dAtA[i..]);
    while true
      invariant n <= 10 && shift == 7 * n && next == i + n <= |dAtA|
      invariant Continues(whole, RawVarint(dAtA[next..], n), acc, n)
      invariant n < 10 ==> wire == acc < Pow128(n)
      decreases 10 - n
    {
      ContinuesToEnd(whole, dAtA[next..], acc, n);
      if shift >= 64 { return Err(IntOverflow), next; }
      if next >= |dAtA| { return Err(UnexpectedEOF), next; }
      var b := dAtA[next];
      OrNextGroup(wire, b % 128, n);
      wire := BitOr(wire, Shl64(b % 128, shift));
      if b < 0x80 { return Ok(wire), next + 1; }
      ContinuesPast(whole, dAtA[next..], acc, n);
      assert dAtA[next..][1..] == dAtA[next + 1..];
      acc := acc + Group(b - 128, n);
      next, shift, n := next + 1, shift + 7, n + 1;
    }
  }

  lemma {:induction false} LowBits(raw: nat)
    ensures raw % TWO_TO_THE_64 % 8 == raw % 8
  {
  }

  /** The bytes of one skipped token after its tag, as skip advances over them. */
  method SkipPayloadFrom(dAtA: Bytes, iNdEx: nat, wireType: nat) returns (r: Result<int>)
    requires iNdEx <= |dAtA|
    ensures r == SkipPayload(dAtA, iNdEx, wireType)
  {
    hide RawVarint;
    match wireType
    case 0 =>
      var v, next := ReadVarint(dAtA, iNdEx);
      if v.Err? { return Err(v.error); }
      r := Ok(next);
    case 1 => r := Ok(AsInt64(iNdEx + 8));
    case 2 =>
      var v, next := ReadVarint(dAtA, iNdEx);
      if v.Err? { return Err(v.error); }
      var length := AsInt64(v.value);
      if length < 0 { return Err(InvalidLength); }
      r := Ok(AsInt64(next + length));
    case 5 => r := Ok(AsInt64(iNdEx + 4));
    case _ => r := Err(IllegalWireType);
  }

  /** One token: its tag, and the depth and index it leaves. */
  method SkipTokenFrom(dAtA: Bytes, iNdEx: nat, depth: nat) returns (r: Result<(int, nat)>)
    requires iNdEx < |dAtA|
    ensures r == SkipToken(dAtA, iNdEx, depth)
  {
    hide RawVarint, SkipPayload;
    var wire, next := ReadVarint(dAtA, iNdEx);
    if wire.Err? { return Err(wire.error); }
    var wireType := wire.value % 8;
    LowBits(RawVarint(dAtA[iNdEx..], 0).value.raw);
    if wireType == 3 { return Ok((next, depth + 1)); }
    if wireType == 4 {
      if depth == 0 { return Err(UnexpectedEndOfGroup); }
      return Ok((next, depth - 1));
    }
    var past := SkipPayloadFrom(dAtA, next, wireType);
    if past.Err? { return Err(past.error); }
    r := Ok((past.value, depth));
  }

  /** skipXxx: the index after the field at the head of the slice. */
  method SkipField(dAtA: Bytes) returns (r: Result<int>)
    requires |dAtA| < TWO_TO_THE_63
    ensures r == SkipFrom(dAtA, 0, 0)
  {
    hide RawVarint, SkipToken;
    var iNdEx: nat, depth: nat := 0, 0;
    while iNdEx < |dAtA|
      invariant SkipFrom(dAtA, 0, 0) == SkipFrom(dAtA, iNdEx, depth)
      decreases |dAtA| - iNdEx
    {
      var round := SkipTokenFrom(dAtA, iNdEx, depth);
      if round.Err? { return Err(round.error); }
      var moved := round.value.0;
      depth := round.value.1;
      if moved < 0 { return Err(InvalidLength); }
      if depth == 0 { return Ok(moved); }
      iNdEx := moved;
    }
    r := Err(UnexpectedEOF);
  }

  /** The length in front of a payload, with the checks on it and on the end index. */
  method ReadSpan(dAtA: Bytes, iNdEx: nat) returns (r: Result<(nat, nat)>)
    requires iNdEx <= |dAtA| < TWO_TO_THE_63
    ensures r == DelimitedSpan(dAtA, iNdEx, 0)
  {
    hide RawVarint;
    var v, start := ReadVarint(dAtA, iNdEx);
    if v.Err? { return Err(v.error); }
    var length := AsInt64(v.value);
    if length < 0 { return Err(InvalidLength); }
    var postIndex := AsInt64(start + length);
    if postIndex < 0 { return Err(InvalidLength); }
    if postIndex > |dAtA| { return Err(UnexpectedEOF); }
    r := Ok((start, postIndex));
  }

  lemma {:induction false} SpanShift(dAtA: Bytes, i: nat, k: nat)
    requires i + k <= |dAtA|
    ensures DelimitedSpan(dAtA, i + k, 0)
         == match DelimitedSpan(dAtA[i..], k, i)
            case Err(e) => Err(e)
            case Ok(span) => Ok((i + span.0, i + span.1))
  {
    hide RawVarint;
    assert dAtA[i..][k..] == dAtA[i + k..];
  }

  /** The case of the switch for a listed field whose tag lies in [preIndex, iNdEx). */
  method UnmarshalField(slot: Slot, v: Value, wireType: nat, dAtA: Bytes, preIndex: nat, iNdEx: nat)
    returns (r: Result<(Value, nat)>)
    requires FitsSlot(slot, v) && preIndex < iNdEx <= |dAtA| < TWO_TO_THE_63
    ensures r == match DecodeField(slot, v, wireType, dAtA[preIndex..], iNdEx - preIndex, preIndex)
                 case Err(e) => Err(e)
                 case Ok(done) => Ok((done.0, preIndex + done.1))
    decreases slot, 0
  {
    hide RawVarint, DelimitedSpan;
    var k := iNdEx - preIndex;
    assert dAtA[preIndex..][k..] == dAtA[iNdEx..];
    if slot.UInt? || slot.Bool? {
      if wireType != 0 { return Err(WrongWireType); }
      var bits, next := ReadVarint(dAtA, iNdEx);
      if bits.Err? { return Err(bits.error); }
      return Ok((if slot.UInt? then UIntV(bits.value) else BoolV(bits.value != 0), next));
    }
    if wireType != 2 { return Err(WrongWireType); }
    SpanShift(dAtA, preIndex, k);
    var span := ReadSpan(dAtA, iNdEx);
    if span.Err? { return Err(span.error); }
    var (start, postIndex) := span.value;
    var payload := dAtA[start..postIndex];
    assert dAtA[preIndex..][start - preIndex..postIndex - preIndex] == payload;
    match slot
    case Str(_) => r := Ok((StrV(payload), postIndex));
    case Repeated(_) => r := Ok((ListV(v.items + [payload]), postIndex));
    case Leaf(_, read, _) =>
      var text := read(v.text, payload);
      if text.Err? { return Err(text.error); }
      r := Ok((LeafV(text.value), postIndex));
    case Message(_, slots) =>
      var fields := Unmarshal(slots, v.fields, payload);
      if fields.Err? { return Err(fields.error); }
      r := Ok((MessageV(fields.value), postIndex));
  }

  /** Unmarshal: on every byte string it ends with the record the specification gives, or with its
      error; every index it uses is inside the slice and every round advances. */
  method Unmarshal(slots: seq<Slot>, m0: Record, dAtA: Bytes) returns (r: Result<Record>)
    requires Fits(slots, m0) && |dAtA| < TWO_TO_THE_63
    ensures r == Decode(slots, m0, dAtA, 0)
    decreases slots, 1
  {
    hide RawVarint, DecodeField, SkipFrom;
    var m, iNdEx: nat := m0, 0;
    assert dAtA[0..] == dAtA;
    while iNdEx < |dAtA|
      invariant iNdEx <= |dAtA| && Fits(slots, m)
      invariant Decode(slots, m0, dAtA, 0) == Decode(slots, m, dAtA[iNdEx..], iNdEx)
      decreases |dAtA| - iNdEx
    {
      ghost var s, at := dAtA[iNdEx..], iNdEx;
      var preIndex := iNdEx;
      var wire, next := ReadVarint(dAtA, iNdEx);
      if wire.Err? { return Err(wire.error); }
      LowBits(RawVarint(s, 0).value.raw);
      var fieldNum := AsInt32(wire.value / 8);
      var wireType := wire.value % 8;
      if wireType == 4 { return Err(EndGroupForNonGroup); }
      if fieldNum <= 0 { return Err(IllegalTag); }
      var k := SlotOf(slots, fieldNum);
      if k < |slots| {
        var done := UnmarshalField(slots[k], m[k], wireType, dAtA, preIndex, next);
        if done.Err? { return Err(done.error); }
        m := m[k := done.value.0];
        iNdEx := done.value.1;
      } else {
        var skippy := SkipField(dAtA[preIndex..]);
        if skippy.Err? { return Err(skippy.error); }
        if skippy.value < 0 || AsInt64(iNdEx + skippy.value) < 0 { return Err(InvalidLength); }
        if iNdEx + skippy.value > |dAtA| { return Err(UnexpectedEOF); }
        iNdEx := iNdEx + skippy.value;
      }
      assert s[iNdEx - at..] == dAtA[iNdEx..];
    }
    assert dAtA[iNdEx..] == [];
    r := Ok(m);
  }
}
