/** Base-128 varints as the generated protobuf code reads and writes them, over mathematical
    integers with the 64-bit wrap-around written out. A `Bytes` is a Go byte slice. */
module Wire {

  const TWO_TO_THE_63 := 0x8000_0000_0000_0000
  const TWO_TO_THE_64 := 0x1_0000_0000_0000_0000

  type Byte = b: int | 0 <= b < 256
  type Bytes = seq<Byte>
  type UInt64 = v: int | 0 <= v < TWO_TO_THE_64

  datatype WireError =
    | IntOverflow
    | UnexpectedEOF
    | InvalidLength
    | UnexpectedEndOfGroup
    | IllegalWireType
    | EndGroupForNonGroup
    | IllegalTag
    | WrongWireType
    | BadLeaf

  datatype Result<+T> = Ok(value: T) | Err(error: WireError)

  /** Go's `int(x)` for a 64-bit x, and the value a wrapping 64-bit addition leaves behind. */
  function AsInt64(v: int): (r: int)
    ensures -TWO_TO_THE_63 <= r < TWO_TO_THE_63
    ensures -TWO_TO_THE_63 <= v < TWO_TO_THE_63 ==> r == v
    ensures TWO_TO_THE_63 <= v < TWO_TO_THE_63 + TWO_TO_THE_64 ==> r == v - TWO_TO_THE_64
  {
    var low := v % TWO_TO_THE_64;
    if low < TWO_TO_THE_63 then low else low - TWO_TO_THE_64
  }

  /** Go's `int32(x)`. */
  function AsInt32(v: int): (r: int)
    ensures -0x8000_0000 <= v < 0x8000_0000 ==> r == v
  {
    var low := v % 0x1_0000_0000;
    if low < 0x8000_0000 then low else low - 0x1_0000_0000
  }

  function Pow2(n: nat): (p: nat)
    ensures p > 0
  {
    if n == 0 then 1 else 2 * Pow2(n - 1)
  }

  function Pow128(n: nat): (p: nat)
    ensures p > 0
  {
    if n == 0 then 1 else 128 * Pow128(n - 1)
  }

  lemma {:induction false} Pow128IsPow2(n: nat)
    ensures Pow128(n) == Pow2(7 * n)
  {
    if n > 0 {
      Pow128IsPow2(n - 1);
      var k := 7 * n;
      assert Pow2(k) == 2 * Pow2(k - 1) && Pow2(k - 1) == 2 * Pow2(k - 2) && Pow2(k - 2) == 2 * Pow2(k - 3);
      assert Pow2(k - 3) == 2 * Pow2(k - 4) && Pow2(k - 4) == 2 * Pow2(k - 5);
      assert Pow2(k - 5) == 2 * Pow2(k - 6) && Pow2(k - 6) == 2 * Pow2(k - 7);
    }
  }

  /* ---------- writing ---------- */

  /** The bytes of a varint, least significant group first. */
  function EncodeVarint(v: nat): (s: Bytes)
    ensures |s| > 0
  {
    if v < 128 then [v] else [v % 128 + 128] + EncodeVarint(v / 128)
  }

  /** Number of bits up to the highest set one: `bits.Len64`. */
  function BitLen(v: nat): nat {
    if v == 0 then 0 else 1 + BitLen(v / 2)
  }

  /** The closed-form size `sovXxx` of a varint; `x|1` sets the lowest bit. */
  function Sov(x: nat): nat {
    (BitLen(if x % 2 == 0 then x + 1 else x) + 6) / 7
  }

  lemma {:induction false} BitLenShift7(v: nat)
    requires v >= 128
    ensures BitLen(v) == 7 + BitLen(v / 128)
  {
    assert v / 2 / 2 / 2 / 2 / 2 / 2 / 2 == v / 128;
    assert BitLen(v / 2 / 2) == 2 + BitLen(v / 2 / 2 / 2 / 2);
    assert BitLen(v / 2 / 2 / 2 / 2) == 2 + BitLen(v / 2 / 2 / 2 / 2 / 2 / 2);
  }

  /** The size the writer reserves is exactly the number of bytes it writes. */
  lemma {:induction false} SovIsLength(x: nat)
    ensures Sov(x) == |EncodeVarint(x)|
  {
    var odd := if x % 2 == 0 then x + 1 else x;
    if x < 128 {
      assert BitLen(odd) <= 7 by {
        assert BitLen(odd / 2 / 2) <= 5 by {
          assert odd / 2 / 2 < 32;
          assert BitLen(odd / 2 / 2 / 2 / 2) <= 3;
        }
      }
      assert 1 <= BitLen(odd) <= 7;
    } else {
      BitLenShift7(odd);
      SovIsLength(x / 128);
      OddShift(x);
    }
  }

  /** Setting the lowest bit of x leaves the bit length of `x / 128 | 1` unchanged. */
  lemma OddShift(x: nat)
    requires x >= 128
    ensures BitLen((if x % 2 == 0 then x + 1 else x) / 128)
         == BitLen(if x / 128 % 2 == 0 then x / 128 + 1 else x / 128)
  {
    var y := x / 128;
    assert (if x % 2 == 0 then x + 1 else x) / 128 == y;
    assert y > 0;
    if y % 2 == 0 {
      assert (y + 1) / 2 == y / 2;
    }
  }

  /* ---------- reading ---------- */

  /** A varint at the head of a buffer: the number its groups spell out before any truncation,
      and the bytes it occupies. */
  datatype Varint = Varint(raw: nat, len: nat)

  /** The hand-unrolled reading loop after k groups: the eleventh group overflows before the end
      of the buffer is looked at. */
  function RawVarint(s: Bytes, k: nat): (r: Result<Varint>)
    requires k <= 10
    ensures r.Ok? ==> 1 <= r.value.len <= |s| && r.value.len <= 10 - k
    decreases |s|
  {
    if k == 10 then Err(IntOverflow)
    else if s == [] then Err(UnexpectedEOF)
    else if s[0] < 128 then Ok(Varint(s[0], 1))
    else
      match RawVarint(s[1..], k + 1)
      case Err(e) => Err(e)
      case Ok(rest) => Ok(Varint(s[0] - 128 + 128 * rest.raw, rest.len + 1))
  }

  /** What follows a complete varint does not change how it reads. */
  lemma {:induction false} RawVarintExtend(s: Bytes, t: Bytes, k: nat)
    requires k <= 10 && RawVarint(s, k).Ok?
    ensures RawVarint(s + t, k) == RawVarint(s, k)
    decreases |s|
  {
    if s[0] >= 128 {
      assert (s + t)[1..] == s[1..] + t;
      RawVarintExtend(s[1..], t, k + 1);
    }
  }

  /** Cutting the buffer right after a varint does not change it either. */
  lemma {:induction false} RawVarintPrefix(s: Bytes, n: nat, k: nat)
    requires k <= 10 && RawVarint(s, k).Ok? && RawVarint(s, k).value.len <= n <= |s|
    ensures RawVarint(s[..n], k) == RawVarint(s, k)
    decreases |s|
  {
    if s[0] >= 128 {
      assert s[..n][1..] == s[1..][..n - 1];
      RawVarintPrefix(s[1..], n - 1, k + 1);
    }
  }

  /** Reading undoes writing: every 64-bit value comes back, whatever follows it. */
  lemma {:induction false} RawVarintOfEncode(v: nat, t: Bytes, k: nat)
    requires k < 10 && v < Pow128(10 - k)
    ensures RawVarint(EncodeVarint(v) + t, k) == Ok(Varint(v, |EncodeVarint(v)|))
    decreases v
  {
    var s := EncodeVarint(v) + t;
    if v >= 128 {
      assert Pow128(10 - k) == 128 * Pow128(9 - k);
      assert k < 9 by { assert Pow128(1) == 128; }
      assert s[1..] == EncodeVarint(v / 128) + t;
      RawVarintOfEncode(v / 128, t, k + 1);
    }
  }

  lemma TenGroupsHoldUInt64()
    ensures TWO_TO_THE_64 <= Pow128(10)
  {
    assert Pow128(2) == 128 * 128;
    assert Pow128(4) == 128 * 128 * 128 * 128;
    assert Pow128(6) == 128 * 128 * Pow128(4);
    assert Pow128(8) == 128 * 128 * Pow128(6);
    assert Pow128(10) == 128 * 128 * Pow128(8);
  }

  lemma ReadOfEncode(v: UInt64, t: Bytes)
    ensures RawVarint(EncodeVarint(v) + t, 0) == Ok(Varint(v, |EncodeVarint(v)|))
    ensures |EncodeVarint(v)| <= 10
  {
    TenGroupsHoldUInt64();
    RawVarintOfEncode(v, t, 0);
  }

  lemma {:induction false} RawVarintBound(s: Bytes, k: nat)
    requires k <= 10 && RawVarint(s, k).Ok?
    ensures RawVarint(s, k).value.raw < Pow128(RawVarint(s, k).value.len)
    decreases |s|
  {
    if s[0] >= 128 {
      RawVarintBound(s[1..], k + 1);
    }
  }

  lemma {:induction false} EncodeIsTight(v: nat)
    ensures |EncodeVarint(v)| == 1 || v >= Pow128(|EncodeVarint(v)| - 1)
  {
    if v >= 128 {
      EncodeIsTight(v / 128);
    }
  }

  lemma {:induction false} Pow128Monotone(m: nat, n: nat)
    requires m <= n
    ensures Pow128(m) <= Pow128(n)
    decreases n - m
  {
    if m < n {
      Pow128Monotone(m, n - 1);
    }
  }

  /* ---------- what a varint is ---------- */

  /** The number that seven-bit groups stand for, the least significant first. */
  function Spelled(s: Bytes): nat {
    if s == [] then 0 else s[0] % 128 + 128 * Spelled(s[1..])
  }

  /** Every byte but the last has its high bit set. */
  ghost predicate Chained(s: Bytes) {
    s != [] && s[|s| - 1] < 128 && forall k :: 0 <= k < |s| - 1 ==> s[k] >= 128
  }

  /** What is written is such a chain that stands for the number, without a group to spare. */
  lemma {:induction false} EncodeSpells(v: nat)
    ensures var s := EncodeVarint(v);
            Chained(s) && Spelled(s) == v && (|s| > 1 ==> s[|s| - 1] != 0)
  {
    var s := EncodeVarint(v);
    if v >= 128 {
      EncodeSpells(v / 128);
      assert s[1..] == EncodeVarint(v / 128);
      assert forall k :: 0 < k < |s| ==> s[k] == s[1..][k - 1];
    } else {
      assert s[1..] == [];
    }
  }

  lemma {:induction false} ReadsChain(s: Bytes, k: nat)
    requires k <= 10
    ensures match RawVarint(s, k)
            case Ok(v) => v.len <= |s| && v.len <= 10 - k && Chained(s[..v.len]) && v.raw == Spelled(s[..v.len])
            case Err(e) =>
              (e == IntOverflow || e == UnexpectedEOF)
              && (e == IntOverflow <==> |s| >= 10 - k)
              && forall j :: 0 <= j < |s| && j < 10 - k ==> s[j] >= 128
    decreases |s|
  {
    if k < 10 && s != [] {
      if s[0] < 128 {
        assert s[..1] == [s[0]] && s[..1][1..] == [];
      } else {
        ReadsChain(s[1..], k + 1);
        assert forall j :: 0 < j < |s| ==> s[j] == s[1..][j - 1];
        if RawVarint(s, k).Ok? {
          var n := RawVarint(s, k).value.len;
          assert s[..n][1..] == s[1..][..n - 1];
          assert forall j :: 0 < j < n ==> s[..n][j] == s[1..][..n - 1][j - 1];
        }
      }
    }
  }

  /** Reading, whole: the chain of at most ten bytes at the head of the buffer, as the number it stands
      for; when the first ten bytes do not end one, an overflow; when the buffer ends before, that. */
  lemma {:induction false} ReadIff(s: Bytes)
    ensures forall n :: 1 <= n <= 10 && n <= |s| && Chained(s[..n]) ==>
              RawVarint(s, 0) == Ok(Varint(Spelled(s[..n]), n))
    ensures RawVarint(s, 0).Ok? ==>
              var n := RawVarint(s, 0).value.len;
              1 <= n <= 10 && n <= |s| && Chained(s[..n])
    ensures RawVarint(s, 0) == Err(IntOverflow) <==> |s| >= 10 && forall k :: 0 <= k < 10 ==> s[k] >= 128
    ensures RawVarint(s, 0) == Err(UnexpectedEOF) <==> |s| < 10 && forall k :: 0 <= k < |s| ==> s[k] >= 128
  {
    ReadsChain(s, 0);
    forall n | 1 <= n <= 10 && n <= |s| && Chained(s[..n])
      ensures RawVarint(s, 0) == Ok(Varint(Spelled(s[..n]), n))
    {
      assert s[n - 1] == s[..n][n - 1];
      if RawVarint(s, 0).Ok? {
        var m := RawVarint(s, 0).value.len;
        assert s[m - 1] == s[..m][m - 1];
        assert forall k :: 0 <= k < n - 1 ==> s[k] == s[..n][k];
        assert forall k :: 0 <= k < m - 1 ==> s[k] == s[..m][k];
      }
    }
    if RawVarint(s, 0).Ok? {
      var m := RawVarint(s, 0).value.len;
      assert s[m - 1] == s[..m][m - 1];
    }
    hide RawVarint, Spelled;
  }

  /** The reserved size is the least one: no byte string that reads as v is shorter. */
  lemma SovIsLeast(s: Bytes, v: UInt64)
    requires RawVarint(s, 0).Ok? && RawVarint(s, 0).value.raw % TWO_TO_THE_64 == v
    ensures Sov(v) <= RawVarint(s, 0).value.len
  {
    var n := RawVarint(s, 0).value.len;
    RawVarintBound(s, 0);
    SovIsLength(v);
    EncodeIsTight(v);
    if n < |EncodeVarint(v)| {
      Pow128Monotone(n, |EncodeVarint(v)| - 1);
    }
  }

  /* ---------- the shift-and-or accumulation ---------- */

  /** Bitwise or of two naturals, bit by bit. */
  function BitOr(x: nat, y: nat): nat
    decreases x + y
  {
    if x == 0 && y == 0 then 0
    else (if x % 2 == 1 || y % 2 == 1 then 1 else 0) + 2 * BitOr(x / 2, y / 2)
  }

  /** Or-ing in a group shifted past every bit already present adds it. */
  lemma {:induction false} OrDisjointAdds(acc: nat, group: nat, shift: nat)
    requires acc < Pow2(shift)
    ensures BitOr(acc, group * Pow2(shift)) == acc + group * Pow2(shift)
  {
    if shift == 0 {
      OrZero(group);
    } else {
      var p := Pow2(shift - 1);
      hide BitOr, Pow2;
      Double(group, p);
      OrEven(acc, group * p);
      OrDisjointAdds(acc / 2, group, shift - 1);
    }
  }

  lemma Double(group: nat, p: nat)
    ensures group * (2 * p) == 2 * (group * p)
  {
  }

  lemma OrEven(x: nat, half: nat)
    ensures BitOr(x, 2 * half) == x % 2 + 2 * BitOr(x / 2, half)
  {
  }

  lemma {:induction false} OrZero(y: nat)
    ensures BitOr(0, y) == y
  {
    if y > 0 {
      OrZero(y / 2);
    }
  }
}
