/** The text keys of the pending-query map. */
module PendingKeys {

  /** strconv.FormatUint(n, 10) */
  function FormatUint(n: nat): (s: string)
    ensures |s| > 0 && forall k :: 0 <= k < |s| ==> '0' <= s[k] <= '9'
  {
    var digit := ('0' as int + n % 10) as char;
    if n < 10 then [digit] else FormatUint(n / 10) + [digit]
  }

  /** What decimal digits stand for, read from the left. */
  function ParseUint(s: string): int {
    if s == "" then 0 else 10 * ParseUint(s[..|s| - 1]) + (s[|s| - 1] as int - '0' as int)
  }

  /** The text is the decimal spelling: it reads as the number and has no leading zero. */
  lemma {:induction false} FormatUintIsDecimal(n: nat)
    ensures ParseUint(FormatUint(n)) == n
    ensures FormatUint(n)[0] == '0' ==> n == 0
  {
    if n >= 10 {
      FormatUintIsDecimal(n / 10);
      var s := FormatUint(n);
      assert s[..|s| - 1] == FormatUint(n / 10);
    } else {
      var s := FormatUint(n);
      assert s[..0] == "" && ParseUint(s[..0]) == 0;
    }
  }

  lemma {:induction false} FormatUintInjective(m: nat, n: nat)
    requires FormatUint(m) == FormatUint(n)
    ensures m == n
  {
    var s, t := FormatUint(m), FormatUint(n);
    assert s[|s| - 1] as int - '0' as int == m % 10 && t[|t| - 1] as int - '0' as int == n % 10;
    assert |s| == if m < 10 then 1 else |FormatUint(m / 10)| + 1;
    assert |t| == if n < 10 then 1 else |FormatUint(n / 10)| + 1;
    if m >= 10 && n >= 10 {
      assert s[..|s| - 1] == FormatUint(m / 10) && t[..|t| - 1] == FormatUint(n / 10);
      FormatUintInjective(m / 10, n / 10);
    }
  }

  datatype PacketId = PacketId(channel: string, sequence: nat)

  function PendingKey(id: PacketId): string {
    id.channel + "/" + FormatUint(id.sequence)
  }

  /** No two packets share a key, even when channel names contain "/": the last "/" is the one
      before the digits. */
  lemma PendingKeyInjective(a: PacketId, b: PacketId)
    requires PendingKey(a) == PendingKey(b)
    ensures a == b
  {
    var key, s, t := PendingKey(a), FormatUint(a.sequence), FormatUint(b.sequence);
    SlashPosition(a);
    SlashPosition(b);
    assert |s| == |t|;
    assert s == key[|key| - |s|..] && t == key[|key| - |t|..];
    FormatUintInjective(a.sequence, b.sequence);
    assert a.channel == key[..|key| - |s| - 1] && b.channel == key[..|key| - |t| - 1];
  }

  lemma SlashPosition(id: PacketId)
    ensures var key, s := PendingKey(id), FormatUint(id.sequence);
            |key| == |id.channel| + 1 + |s| && key[|key| - |s| - 1] == '/'
            && forall k :: |key| - |s| <= k < |key| ==> key[k] != '/'
  {
  }
}
