/** The group-nesting skip of the generated parsers, and the grammar of fields it accepts. */
module Skip {
  import opened Wire

  /** The index after the payload of a token whose tag ended at j, before the sign check. */
  function SkipPayload(s: Bytes, j: nat, wireType: nat): (r: Result<int>)
    requires j <= |s|
  {
    match wireType
    case 0 =>
      (match RawVarint(s[j..], 0)
       case Err(e) => Err(e)
       case Ok(v) => Ok(j + v.len))
    case 1 => Ok(AsInt64(j + 8))
    case 2 =>
      (match RawVarint(s[j..], 0)
       case Err(e) => Err(e)
       case Ok(v) =>
         var length := AsInt64(v.raw);
         if length < 0 then Err(InvalidLength) else Ok(AsInt64(j + v.len + length)))
    case 5 => Ok(AsInt64(j + 4))
    case _ => Err(IllegalWireType)
  }

  /** One round of the skip loop: the next index and the nesting depth left open. */
  function SkipToken(s: Bytes, i: nat, depth: nat): (r: Result<(int, nat)>)
    requires i < |s|
    ensures r.Ok? && r.value.0 >= 0 && |s| < TWO_TO_THE_63 ==> i < r.value.0
  {
    match RawVarint(s[i..], 0)
    case Err(e) => Err(e)
    case Ok(tag) =>
      var wireType := tag.raw % 8;
      var j := i + tag.len;
      if wireType == 3 then Ok((j, depth + 1))
      else if wireType == 4 then
        if depth == 0 then Err(UnexpectedEndOfGroup) else Ok((j, depth - 1))
      else
        match SkipPayload(s, j, wireType)
        case Err(e) => Err(e)
        case Ok(next) => Ok((next, depth))
  }

  /** The skip loop from index i with `depth` groups open. The index it returns may lie past the
      end of the buffer; the callers check that. */
  function SkipFrom(s: Bytes, i: nat, depth: nat): (r: Result<int>)
    requires |s| < TWO_TO_THE_63
    ensures r.Ok? ==> r.value > i
    decreases |s| - i
  {
    if i >= |s| then Err(UnexpectedEOF)
    else
      match SkipToken(s, i, depth)
      case Err(e) => Err(e)
      case Ok(next) =>
        if next.0 < 0 then Err(InvalidLength)
        else if next.1 == 0 then Ok(next.0)
        else SkipFrom(s, next.0, next.1)
  }

  /* ---------- the grammar ---------- */

  /** A field as the encoding specification describes it ("Message Structure", "Groups"): any
      spelling of the tag and of the lengths, groups nested to any depth. */
  datatype WireField =
    | VarintField(tag: Bytes, payload: Bytes)
    | FixedField(tag: Bytes, payload: Bytes)
    | DelimitedField(tag: Bytes, length: Bytes, payload: Bytes)
    | GroupField(tag: Bytes, items: seq<WireField>, endTag: Bytes)

  ghost predicate IsVarint(s: Bytes) {
    RawVarint(s, 0).Ok? && RawVarint(s, 0).value.len == |s|
  }

  ghost predicate IsTag(s: Bytes, wireType: nat) {
    IsVarint(s) && RawVarint(s, 0).value.raw % 8 == wireType
  }

  ghost predicate WellFormed(f: WireField) {
    match f
    case VarintField(tag, payload) => IsTag(tag, 0) && IsVarint(payload)
    case FixedField(tag, payload) => (IsTag(tag, 1) && |payload| == 8) || (IsTag(tag, 5) && |payload| == 4)
    case DelimitedField(tag, length, payload) =>
      IsTag(tag, 2) && IsVarint(length) && AsInt64(RawVarint(length, 0).value.raw) == |payload|
    case GroupField(tag, items, endTag) =>
      IsTag(tag, 3) && IsTag(endTag, 4) && forall k :: 0 <= k < |items| ==> WellFormed(items[k])
  }

  ghost function Spell(f: WireField): Bytes
    decreases f
  {
    match f
    case VarintField(tag, payload) => tag + payload
    case FixedField(tag, payload) => tag + payload
    case DelimitedField(tag, length, payload) => tag + length + payload
    case GroupField(tag, items, endTag) => tag + SpellAll(items) + endTag
  }

  ghost function SpellAll(fs: seq<WireField>): Bytes
    decreases fs
  {
    if fs == [] then [] else Spell(fs[0]) + SpellAll(fs[1..])
  }

  /** A varint found in the middle of a buffer. */
  lemma {:induction false} VarintAt(pre: Bytes, v: Bytes, post: Bytes)
    requires IsVarint(v)
    ensures RawVarint((pre + v + post)[|pre|..], 0) == RawVarint(v, 0)
  {
    assert (pre + v + post)[|pre|..] == v + post;
    RawVarintExtend(v, post, 0);
  }

  /** What skipping must do on a field spelled at |pre|: stop right after it at depth 0, carry on
      from there inside a group. */
  ghost predicate Skips(s: Bytes, i: nat, j: nat, depth: nat)
    requires |s| < TWO_TO_THE_63
  {
    SkipFrom(s, i, depth) == if depth == 0 then Ok(j) else SkipFrom(s, j, depth)
  }

  /** A tag found in the middle of a buffer fixes what the round of the loop there does. */
  lemma {:induction false} TagStarts(pre: Bytes, tag: Bytes, rest: Bytes, wireType: nat)
    requires IsTag(tag, wireType)
    ensures var s := pre + tag + rest;
            RawVarint(s[|pre|..], 0) == RawVarint(tag, 0) && |tag| > 0
  {
    VarintAt(pre, tag, rest);
  }

  lemma {:induction false} SkipsVarint(pre: Bytes, tag: Bytes, payload: Bytes, post: Bytes, depth: nat)
    requires IsTag(tag, 0) && IsVarint(payload)
    ensures SkipToken(pre + (tag + payload) + post, |pre|, depth) == Ok((|pre| + |tag + payload|, depth))
  {
    hide RawVarint;
    TagStarts(pre, tag, payload + post, 0);
    assert pre + (tag + payload) + post == pre + tag + (payload + post);
    VarintAt(pre + tag, payload, post);
    assert pre + (tag + payload) + post == (pre + tag) + payload + post;
  }

  lemma {:induction false} SkipsFixed(pre: Bytes, tag: Bytes, payload: Bytes, post: Bytes, depth: nat)
    requires (IsTag(tag, 1) && |payload| == 8) || (IsTag(tag, 5) && |payload| == 4)
    requires |pre + (tag + payload) + post| < TWO_TO_THE_63
    ensures SkipToken(pre + (tag + payload) + post, |pre|, depth) == Ok((|pre| + |tag + payload|, depth))
  {
    hide RawVarint;
    TagStarts(pre, tag, payload + post, if |payload| == 8 then 1 else 5);
    assert pre + (tag + payload) + post == pre + tag + (payload + post);
  }

  lemma {:induction false} SkipsDelimited(pre: Bytes, tag: Bytes, length: Bytes, payload: Bytes, post: Bytes,
                                          depth: nat)
    requires IsTag(tag, 2) && IsVarint(length) && AsInt64(RawVarint(length, 0).value.raw) == |payload|
    requires |pre + (tag + length + payload) + post| < TWO_TO_THE_63
    ensures SkipToken(pre + (tag + length + payload) + post, |pre|, depth)
         == Ok((|pre| + |tag + length + payload|, depth))
  {
    hide RawVarint;
    TagStarts(pre, tag, length + payload + post, 2);
    assert pre + (tag + length + payload) + post == pre + tag + (length + payload + post);
    VarintAt(pre + tag, length, payload + post);
    assert pre + (tag + length + payload) + post == (pre + tag) + length + (payload + post);
  }

  lemma {:induction false} SkipsScalar(pre: Bytes, f: WireField, post: Bytes, depth: nat)
    requires WellFormed(f) && !f.GroupField?
    requires |pre + Spell(f) + post| < TWO_TO_THE_63
    ensures SkipToken(pre + Spell(f) + post, |pre|, depth) == Ok((|pre| + |Spell(f)|, depth))
  {
    hide RawVarint, SkipToken;
    match f
    case VarintField(tag, payload) => SkipsVarint(pre, tag, payload, post, depth);
    case FixedField(tag, payload) => SkipsFixed(pre, tag, payload, post, depth);
    case DelimitedField(tag, length, payload) => SkipsDelimited(pre, tag, length, payload, post, depth);
  }

  lemma {:induction false} SpellsSomething(f: WireField)
    requires WellFormed(f)
    ensures |Spell(f)| > 0
  {
    hide RawVarint;
    assert |f.tag| > 0;
  }

  lemma {:induction false} SkipsField(pre: Bytes, f: WireField, post: Bytes, depth: nat)
    requires WellFormed(f)
    requires |pre + Spell(f) + post| < TWO_TO_THE_63
    ensures Skips(pre + Spell(f) + post, |pre|, |pre| + |Spell(f)|, depth)
    ensures |Spell(f)| > 0
    decreases f, 0
  {
    SpellsSomething(f);
    hide RawVarint, SkipToken, SkipFrom;
    match f
    case GroupField(tag, items, endTag) =>
      SkipsGroup(pre, tag, items, endTag, post, depth);
    case _ =>
      SkipsScalar(pre, f, post, depth);
      AfterRound(pre + Spell(f) + post, |pre|, depth, |pre| + |Spell(f)|, depth);
  }

  lemma {:induction false} RoundOnGroupTag(pre: Bytes, tag: Bytes, rest: Bytes, depth: nat)
    requires IsTag(tag, 3) || (IsTag(tag, 4) && depth > 0)
    ensures SkipToken(pre + tag + rest, |pre|, depth)
         == Ok((|pre + tag|, if IsTag(tag, 3) then depth + 1 else depth - 1))
  {
    hide RawVarint;
    TagStarts(pre, tag, rest, if IsTag(tag, 3) then 3 else 4);
  }

  /** The loop after a round that stays inside the buffer. */
  lemma {:induction false} AfterRound(s: Bytes, i: nat, depth: nat, next: nat, left: nat)
    requires i < |s| < TWO_TO_THE_63 && SkipToken(s, i, depth) == Ok((next, left))
    ensures SkipFrom(s, i, depth) == if left == 0 then Ok(next) else SkipFrom(s, next, left)
  {
    hide SkipToken;
  }

  lemma {:induction false} SkipsGroup(pre: Bytes, tag: Bytes, items: seq<WireField>, endTag: Bytes, post: Bytes,
                                      depth: nat)
    requires IsTag(tag, 3) && IsTag(endTag, 4) && forall k :: 0 <= k < |items| ==> WellFormed(items[k])
    requires |pre + (tag + SpellAll(items) + endTag) + post| < TWO_TO_THE_63
    ensures Skips(pre + (tag + SpellAll(items) + endTag) + post, |pre|,
                  |pre| + |tag + SpellAll(items) + endTag|, depth)
    decreases items, 2
  {
    hide RawVarint, SkipToken, SkipFrom;
    var body := SpellAll(items);
    var s := pre + (tag + body + endTag) + post;
    var inside, closing := pre + tag, pre + tag + body;
    assert |tag| > 0 && |endTag| > 0;
    assert s == pre + tag + (body + endTag + post);
    RoundOnGroupTag(pre, tag, body + endTag + post, depth);
    AfterRound(s, |pre|, depth, |inside|, depth + 1);
    assert s == inside + body + (endTag + post);
    SkipsAll(inside, items, endTag + post, depth + 1);
    assert s == closing + endTag + post;
    RoundOnGroupTag(closing, endTag, post, depth + 1);
    AfterRound(s, |closing|, depth + 1, |closing + endTag|, depth);
  }

  lemma {:induction false} SkipsAll(pre: Bytes, fs: seq<WireField>, post: Bytes, depth: nat)
    requires depth > 0
    requires forall k :: 0 <= k < |fs| ==> WellFormed(fs[k])
    requires |pre + SpellAll(fs) + post| < TWO_TO_THE_63
    ensures SkipFrom(pre + SpellAll(fs) + post, |pre|, depth)
         == SkipFrom(pre + SpellAll(fs) + post, |pre| + |SpellAll(fs)|, depth)
    decreases fs, 1
  {
    hide RawVarint, SkipToken, SkipFrom;
    if fs != [] {
      var s := pre + SpellAll(fs) + post;
      assert s == pre + Spell(fs[0]) + (SpellAll(fs[1..]) + post);
      SkipsField(pre, fs[0], SpellAll(fs[1..]) + post, depth);
      assert s == (pre + Spell(fs[0])) + SpellAll(fs[1..]) + post;
      SkipsAll(pre + Spell(fs[0]), fs[1..], post, depth);
    }
  }

  /** Skipping a well-formed field returns exactly its length, whatever follows it. */
  lemma {:induction false} SkipReturnsLength(f: WireField, post: Bytes)
    requires WellFormed(f)
    requires |Spell(f) + post| < TWO_TO_THE_63
    ensures SkipFrom(Spell(f) + post, 0, 0) == Ok(|Spell(f)|)
  {
    assert [] + Spell(f) + post == Spell(f) + post;
    SkipsField([], f, post, 0);
  }

  /* ---------- the converse: whatever skip steps over is a field ---------- */

  /** The tag at i, cut out of the buffer. */
  lemma {:induction false} TagAt(s: Bytes, i: nat) returns (tag: Bytes)
    requires i < |s| && RawVarint(s[i..], 0).Ok?
    ensures IsVarint(tag) && RawVarint(tag, 0) == RawVarint(s[i..], 0)
    ensures i + |tag| <= |s| && s[i..i + |tag|] == tag
  {
    var n := RawVarint(s[i..], 0).value.len;
    tag := s[i..][..n];
    RawVarintPrefix(s[i..], n, 0);
    assert s[i..i + n] == tag;
  }

  /** A token that opens and closes nothing is a field by itself. */
  lemma {:induction false} ScalarAt(s: Bytes, i: nat, depth: nat, tag: Bytes) returns (f: WireField)
    requires i < |s| < TWO_TO_THE_63
    requires SkipToken(s, i, depth).Ok? && SkipToken(s, i, depth).value.1 == depth
    requires 0 <= SkipToken(s, i, depth).value.0 <= |s|
    requires IsVarint(tag) && RawVarint(tag, 0) == RawVarint(s[i..], 0)
    requires i + |tag| <= |s| && s[i..i + |tag|] == tag
    ensures WellFormed(f) && Spell(f) == s[i..SkipToken(s, i, depth).value.0]
  {
    hide RawVarint;
    var next := SkipToken(s, i, depth).value.0;
    var wireType := RawVarint(tag, 0).value.raw % 8;
    var j := i + |tag|;
    assert SkipPayload(s, j, wireType) == Ok(next) && i < next;
    hide SkipToken, SkipPayload;
    if wireType == 0 {
      f := VarintFieldAt(s, i, next, tag);
    } else if wireType == 2 {
      f := DelimitedFieldAt(s, i, next, tag);
    } else {
      f := FixedFieldAt(s, i, next, tag, wireType);
    }
  }

  lemma {:induction false} VarintFieldAt(s: Bytes, i: nat, next: nat, tag: Bytes) returns (f: WireField)
    requires IsTag(tag, 0) && i + |tag| <= |s| && s[i..i + |tag|] == tag
    requires SkipPayload(s, i + |tag|, 0) == Ok(next) && next <= |s|
    ensures WellFormed(f) && Spell(f) == s[i..next]
  {
    hide RawVarint;
    var payload := TagAt(s, i + |tag|);
    f := VarintField(tag, payload);
    SliceJoin(s, i, i + |tag|, next);
  }

  lemma {:induction false} DelimitedFieldAt(s: Bytes, i: nat, next: nat, tag: Bytes) returns (f: WireField)
    requires |s| < TWO_TO_THE_63
    requires IsTag(tag, 2) && i + |tag| <= |s| && s[i..i + |tag|] == tag
    requires SkipPayload(s, i + |tag|, 2) == Ok(next) && next <= |s|
    ensures WellFormed(f) && Spell(f) == s[i..next]
  {
    hide RawVarint;
    var j := i + |tag|;
    var length := TagAt(s, j);
    var k := j + |length|;
    f := DelimitedField(tag, length, s[k..next]);
    SliceJoin(s, i, j, k);
    SliceJoin(s, i, k, next);
  }

  lemma {:induction false} FixedFieldAt(s: Bytes, i: nat, next: nat, tag: Bytes, wireType: nat) returns (f: WireField)
    requires |s| < TWO_TO_THE_63 && wireType != 0 && wireType != 2
    requires IsTag(tag, wireType) && i + |tag| <= |s| && s[i..i + |tag|] == tag
    requires SkipPayload(s, i + |tag|, wireType) == Ok(next) && next <= |s|
    ensures WellFormed(f) && Spell(f) == s[i..next]
  {
    hide RawVarint;
    f := FixedField(tag, s[i + |tag|..next]);
    SliceJoin(s, i, i + |tag|, next);
  }

  lemma {:induction false} SliceJoin(s: Bytes, i: nat, j: nat, k: nat)
    requires i <= j <= k <= |s|
    ensures s[i..j] + s[j..k] == s[i..k]
  {
  }

  /** The first round of a successful skip: its tag, where it ends and the depth it leaves. */
  lemma {:induction false} FirstRound(s: Bytes, i: nat, depth: nat) returns (tag: Bytes, next: nat, left: nat)
    requires |s| < TWO_TO_THE_63
    requires SkipFrom(s, i, depth).Ok? && SkipFrom(s, i, depth).value <= |s|
    ensures i < next <= |s| && SkipToken(s, i, depth) == Ok((next, left))
    ensures SkipFrom(s, i, depth) == if left == 0 then Ok(next) else SkipFrom(s, next, left)
    ensures IsVarint(tag) && RawVarint(tag, 0) == RawVarint(s[i..], 0)
    ensures 0 < |tag| && i + |tag| <= |s| && s[i..i + |tag|] == tag
    ensures IsTag(tag, 3) ==> left == depth + 1 && next == i + |tag|
    ensures IsTag(tag, 4) ==> depth > 0 && left == depth - 1 && next == i + |tag|
    ensures !IsTag(tag, 3) && !IsTag(tag, 4) ==> left == depth
  {
    hide RawVarint;
    tag := TagAt(s, i);
    var round := SkipToken(s, i, depth).value;
    next, left := round.0, round.1;
  }

  /** With a group open, a successful skip first steps over some fields and their end-group tag,
      up to m, and then carries on with one group fewer. */
  lemma {:induction false} GroupBody(s: Bytes, i: nat, depth: nat)
    returns (items: seq<WireField>, endTag: Bytes, m: nat)
    requires |s| < TWO_TO_THE_63 && depth > 0
    requires SkipFrom(s, i, depth).Ok? && SkipFrom(s, i, depth).value <= |s|
    ensures forall k :: 0 <= k < |items| ==> WellFormed(items[k])
    ensures IsTag(endTag, 4)
    ensures i < m <= |s| && s[i..m] == SpellAll(items) + endTag
    ensures SkipFrom(s, i, depth) == if depth == 1 then Ok(m) else SkipFrom(s, m, depth - 1)
    decreases |s| - i
  {
    hide RawVarint, SkipToken, SkipFrom;
    var tag, next, left := FirstRound(s, i, depth);
    if IsTag(tag, 4) {
      items, endTag, m := [], tag, next;
    } else {
      var f: WireField, from: nat;
      if IsTag(tag, 3) {
        var inner, et, m1 := GroupBody(s, next, left);
        f, from := GroupField(tag, inner, et), m1;
        GroupSpelled(s, i, tag, inner, et, m1);
      } else {
        f := ScalarAt(s, i, depth, tag);
        from := next;
      }
      var rest: seq<WireField>;
      rest, endTag, m := GroupBody(s, from, depth);
      items := [f] + rest;
      ConsSpelled(s, i, from, f, rest, endTag, m);
    }
  }

  /** A start-group tag, fields and an end-group tag, one after the other in a buffer, are a group. */
  lemma {:induction false} GroupSpelled(s: Bytes, i: nat, tag: Bytes, items: seq<WireField>, endTag: Bytes, m: nat)
    requires IsTag(tag, 3) && IsTag(endTag, 4) && forall k :: 0 <= k < |items| ==> WellFormed(items[k])
    requires i + |tag| <= m <= |s| && s[i..i + |tag|] == tag && s[i + |tag|..m] == SpellAll(items) + endTag
    ensures var f := GroupField(tag, items, endTag);
            WellFormed(f) && Spell(f) == s[i..m]
  {
    hide *;
    GroupIsWellFormed(tag, items, endTag);
    SpellOfGroup(tag, items, endTag);
    SliceJoinThree(s, i, i + |tag|, m, tag, SpellAll(items), endTag);
  }

  lemma {:induction false} GroupIsWellFormed(tag: Bytes, items: seq<WireField>, endTag: Bytes)
    requires IsTag(tag, 3) && IsTag(endTag, 4) && forall k :: 0 <= k < |items| ==> WellFormed(items[k])
    ensures WellFormed(GroupField(tag, items, endTag))
  {
    hide IsTag;
  }

  lemma {:induction false} SpellOfGroup(tag: Bytes, items: seq<WireField>, endTag: Bytes)
    ensures Spell(GroupField(tag, items, endTag)) == tag + SpellAll(items) + endTag
  {
    hide SpellAll;
  }

  lemma {:induction false} SliceJoinThree(s: Bytes, i: nat, j: nat, m: nat, a: Bytes, b: Bytes, c: Bytes)
    requires i <= j <= m <= |s| && s[i..j] == a && s[j..m] == b + c
    ensures a + b + c == s[i..m]
  {
    SliceJoin(s, i, j, m);
    assert a + b + c == a + (b + c);
  }

  /** One field in front of the fields of a group. */
  lemma {:induction false} ConsSpelled(s: Bytes, i: nat, from: nat, f: WireField, rest: seq<WireField>,
                                       endTag: Bytes, m: nat)
    requires i <= from <= m <= |s| && s[i..from] == Spell(f) && s[from..m] == SpellAll(rest) + endTag
    ensures s[i..m] == SpellAll([f] + rest) + endTag
  {
    hide Spell;
    assert ([f] + rest)[1..] == rest;
    SliceJoinThree(s, i, from, m, Spell(f), SpellAll(rest), endTag);
  }

  /** The group case of what follows. */
  lemma {:induction false} GroupAtStart(s: Bytes, tag: Bytes) returns (f: WireField)
    requires |s| < TWO_TO_THE_63
    requires SkipFrom(s, 0, 0).Ok? && SkipFrom(s, 0, 0).value <= |s|
    requires IsTag(tag, 3) && RawVarint(tag, 0) == RawVarint(s[0..], 0) && |tag| <= |s| && s[0..|tag|] == tag
    ensures WellFormed(f) && Spell(f) == s[0..SkipFrom(s, 0, 0).value]
  {
    hide RawVarint;
    assert SkipToken(s, 0, 0) == Ok((|tag|, 1));
    AfterRound(s, 0, 0, |tag|, 1);
    hide SkipToken, SkipFrom;
    var items, endTag, m := GroupBody(s, |tag|, 1);
    f := GroupField(tag, items, endTag);
    GroupSpelled(s, 0, tag, items, endTag, m);
  }

  /** Everything skip steps over inside the buffer is one well-formed field. */
  lemma {:induction false} SkippedIsField(s: Bytes) returns (f: WireField)
    requires |s| < TWO_TO_THE_63
    requires SkipFrom(s, 0, 0).Ok? && SkipFrom(s, 0, 0).value <= |s|
    ensures WellFormed(f) && Spell(f) == s[..SkipFrom(s, 0, 0).value]
  {
    hide RawVarint;
    var n := SkipFrom(s, 0, 0).value;
    var tag := TagAt(s, 0);
    if RawVarint(tag, 0).value.raw % 8 == 3 {
      f := GroupAtStart(s, tag);
    } else {
      f := ScalarAt(s, 0, 0, tag);
      assert s[0..n] == s[..n];
    }
  }

  /** Skip decides the grammar: a buffer starts with a field of length n exactly when skip
      returns n and n lies inside it. */
  lemma {:induction false} SkipIsGrammar(s: Bytes, n: nat)
    requires |s| < TWO_TO_THE_63 && n <= |s|
    ensures SkipFrom(s, 0, 0) == Ok(n) <==> exists f :: WellFormed(f) && Spell(f) == s[..n]
  {
    hide SkipFrom, WellFormed, Spell;
    if SkipFrom(s, 0, 0) == Ok(n) {
      var f := SkippedIsField(s);
      assert WellFormed(f) && Spell(f) == s[..n];
    } else if f :| WellFormed(f) && Spell(f) == s[..n] {
      assert s == Spell(f) + s[n..];
      SkipReturnsLength(f, s[n..]);
      assert false;
    }
  }

  /** What follows a skipped field does not change how far skip goes. */
  lemma {:induction false} SkipExtend(s: Bytes, t: Bytes)
    requires |s + t| < TWO_TO_THE_63
    requires SkipFrom(s, 0, 0).Ok? && SkipFrom(s, 0, 0).value <= |s|
    ensures SkipFrom(s + t, 0, 0) == SkipFrom(s, 0, 0)
  {
    hide SkipFrom, WellFormed, Spell;
    var n := SkipFrom(s, 0, 0).value;
    var f := SkippedIsField(s);
    assert s + t == Spell(f) + (s[n..] + t);
    SkipReturnsLength(f, s[n..] + t);
  }
}
