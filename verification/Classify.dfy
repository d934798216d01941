/** Unwrapping nested authz messages and classifying a transaction. */
module Classify {
  import opened Common
  import opened FeeParams

  const EXEC_URL := "/cosmos.authz.v1beta1.MsgExec"
  const TRANSFER_URL := "/ibc.applications.transfer.v1.MsgTransfer"
  const CORE_PREFIX := "/ibc.core."

  datatype Kind =
    | BankSend | BankMultiSend | StoreCode | InstantiateContract
    | ExecuteContract(tokenKeyword: bool, dexKeyword: bool)
    | MigrateContract | UpdateAdmin | Other

  /** A message: MsgExec with its inner Anys, None standing for one that is not unpacked, or any
      other message by its type URL. */
  datatype Msg =
    | Exec(inner: seq<Option<Msg>>)
    | Plain(typeUrl: string, kind: Kind)

  /** Which keywords the lower-cased memo contains. */
  datatype Memo = Memo(pos: bool, payment: bool, dex: bool, native: bool, deploy: bool, wizard: bool)

  datatype Category =
    | POS | TokenInteraction | NativeTransfer | DexNative | DexUser | Deploy | Wizard | Default | System | Mixed

  function TypeUrl(m: Msg): string {
    if m.Exec? then EXEC_URL else m.typeUrl
  }

  /* ---------- expandMessages ---------- */

  function Expand(msgs: seq<Msg>, depth: nat): seq<Msg>
    decreases depth, |msgs|
  {
    if depth == 0 || msgs == [] then msgs
    else
      (match msgs[0]
       case Exec(inner) => ExpandInner(inner, depth)
       case Plain(_, _) => [msgs[0]])
      + Expand(msgs[1..], depth)
  }

  function ExpandInner(inner: seq<Option<Msg>>, depth: nat): seq<Msg>
    requires depth > 0
    decreases depth - 1, |inner| + 2
  {
    if inner == [] then []
    else (if inner[0].None? then [] else Expand([inner[0].value], depth - 1)) + ExpandInner(inner[1..], depth)
  }

  /** The inner loop: the unpacked Anys of one MsgExec, each unwrapped one level further. */
  method ExpandExec(inner: seq<Option<Msg>>, depth: nat) returns (out: seq<Msg>)
    requires depth > 0
    ensures out == ExpandInner(inner, depth)
    decreases depth, 0
  {
    assert ExpandInner([], depth) == [] && inner[0..] == inner;
    hide Expand, ExpandInner;
    out := [];
    var j := 0;
    while j < |inner|
      invariant j <= |inner| && out + ExpandInner(inner[j..], depth) == ExpandInner(inner, depth)
    {
      ExpandInnerStep(out, inner, j, depth);
      if inner[j].Some? {
        var unwrapped := ExpandMessages([inner[j].value], depth - 1);
        out := out + unwrapped;
      }
      j := j + 1;
    }
    assert inner[j..] == [];
  }

  /** One Any fewer to unwrap: appending what it unwraps to leaves the whole the same. */
  lemma {:induction false} ExpandInnerStep(out: seq<Msg>, inner: seq<Option<Msg>>, j: nat, depth: nat)
    requires depth > 0 && j < |inner|
    ensures var part := if inner[j].None? then [] else Expand([inner[j].value], depth - 1);
            out + ExpandInner(inner[j..], depth) == (out + part) + ExpandInner(inner[j + 1..], depth)
    ensures out + [] == out
  {
    assert inner[j..][1..] == inner[j + 1..];
    hide Expand;
  }

  method ExpandMessages(msgs: seq<Msg>, depth: nat) returns (out: seq<Msg>)
    ensures out == Expand(msgs, depth)
    decreases depth, 1
  {
    if depth <= 0 { return msgs; }
    hide ExpandInner;
    out := [];
    var i := 0;
    while i < |msgs|
      invariant i <= |msgs| && out + Expand(msgs[i..], depth) == Expand(msgs, depth)
    {
      assert msgs[i..][1..] == msgs[i + 1..];
      var part := [msgs[i]];
      if msgs[i].Exec? {
        part := ExpandExec(msgs[i].inner, depth);
      }
      assert Expand(msgs[i..], depth) == part + Expand(msgs[i + 1..], depth);
      assert out + (part + Expand(msgs[i + 1..], depth)) == (out + part) + Expand(msgs[i + 1..], depth);
      out := out + part;
      i := i + 1;
    }
  }

  /* ---------- the authz tree ---------- */

  /** The leaves of a message, left to right, at any depth. */
  function Leaves(m: Msg): seq<Msg>
    decreases m, 0
  {
    match m
    case Plain(_, _) => [m]
    case Exec(inner) => LeavesInner(inner)
  }

  function LeavesInner(inner: seq<Option<Msg>>): seq<Msg>
    decreases inner, 1
  {
    if inner == [] then []
    else LeavesOfAny(inner[0]) + LeavesInner(inner[1..])
  }

  /** An Any that is not unpacked shows no leaves. */
  function LeavesOfAny(packed: Option<Msg>): seq<Msg>
    decreases packed, 2
  {
    match packed
    case None => []
    case Some(m) => Leaves(m)
  }

  function AllLeaves(msgs: seq<Msg>): seq<Msg> {
    if msgs == [] then [] else Leaves(msgs[0]) + AllLeaves(msgs[1..])
  }

  /** How many MsgExec lie on the longest way down. */
  function Nesting(m: Msg): nat
    decreases m, 0
  {
    match m
    case Plain(_, _) => 0
    case Exec(inner) => 1 + NestingInner(inner)
  }

  function NestingInner(inner: seq<Option<Msg>>): nat
    decreases inner, 1
  {
    if inner == [] then 0
    else
      var first, rest := NestingOfAny(inner[0]), NestingInner(inner[1..]);
      if first > rest then first else rest
  }

  function NestingOfAny(packed: Option<Msg>): nat
    decreases packed, 2
  {
    match packed
    case None => 0
    case Some(m) => Nesting(m)
  }

  ghost predicate NestsAtMost(msgs: seq<Msg>, depth: nat) {
    forall k :: 0 <= k < |msgs| ==> Nesting(msgs[k]) <= depth
  }

  /* ---------- unwrapping and the tree ---------- */

  lemma {:induction false} ExpandConcat(a: seq<Msg>, b: seq<Msg>, depth: nat)
    ensures Expand(a + b, depth) == Expand(a, depth) + Expand(b, depth)
    decreases |a|
  {
    if a == [] {
      assert a + b == b;
    } else if depth > 0 {
      assert (a + b)[1..] == a[1..] + b;
      ExpandConcat(a[1..], b, depth);
    }
  }

  /** Within the depth limit, unwrapping is exactly the left-to-right list of leaves. */
  lemma {:induction false} ExpandIsLeaves(m: Msg, depth: nat)
    requires Nesting(m) <= depth
    ensures Expand([m], depth) == Leaves(m)
    decreases depth, m, 1
  {
    assert [m][1..] == [];
    if depth > 0 && m.Exec? {
      ExpandInnerIsLeaves(m.inner, depth);
    }
  }

  lemma {:induction false} ExpandInnerIsLeaves(inner: seq<Option<Msg>>, depth: nat)
    requires depth > 0 && 1 + NestingInner(inner) <= depth
    ensures ExpandInner(inner, depth) == LeavesInner(inner)
    decreases depth, inner, 0
  {
    if inner != [] {
      if inner[0].Some? {
        ExpandIsLeaves(inner[0].value, depth - 1);
      }
      ExpandInnerIsLeaves(inner[1..], depth);
    }
  }

  lemma {:induction false} ExpandAllIsLeaves(msgs: seq<Msg>, depth: nat)
    requires NestsAtMost(msgs, depth)
    ensures Expand(msgs, depth) == AllLeaves(msgs)
    decreases |msgs|
  {
    if msgs != [] {
      assert msgs == [msgs[0]] + msgs[1..];
      ExpandConcat([msgs[0]], msgs[1..], depth);
      ExpandIsLeaves(msgs[0], depth);
      ExpandAllIsLeaves(msgs[1..], depth);
    }
  }

  ghost predicate NoExec(msgs: seq<Msg>) {
    forall k :: 0 <= k < |msgs| ==> msgs[k].Plain?
  }

  /** When nothing is left wrapped, the depth limit was not reached. */
  lemma {:induction false} NoExecMeansShallow(m: Msg, depth: nat)
    requires NoExec(Expand([m], depth))
    ensures Nesting(m) <= depth
    decreases depth, m, 1
  {
    assert [m][1..] == [] && [m][0] == m;
    assert depth == 0 ==> Expand([m], depth) == [m];
    if m.Exec? {
      assert Expand([m], depth) == ExpandInner(m.inner, depth);
      NoExecMeansShallowInner(m.inner, depth);
    }
  }

  lemma {:induction false} NoExecMeansShallowInner(inner: seq<Option<Msg>>, depth: nat)
    requires depth > 0 && NoExec(ExpandInner(inner, depth))
    ensures 1 + NestingInner(inner) <= depth
    decreases depth, inner, 0
  {
    if inner != [] {
      var rest := ExpandInner(inner[1..], depth);
      if inner[0].Some? {
        var first := Expand([inner[0].value], depth - 1);
        assert ExpandInner(inner, depth) == first + rest;
        NoExecParts(first, rest);
        NoExecMeansShallow(inner[0].value, depth - 1);
      } else {
        assert ExpandInner(inner, depth) == [] + rest == rest;
      }
      NoExecMeansShallowInner(inner[1..], depth);
    }
  }

  lemma {:induction false} NoExecParts(a: seq<Msg>, b: seq<Msg>)
    requires NoExec(a + b)
    ensures NoExec(a) && NoExec(b)
  {
    forall k | 0 <= k < |a| ensures a[k].Plain? { assert (a + b)[k] == a[k]; }
    forall k | 0 <= k < |b| ensures b[k].Plain? { assert (a + b)[|a| + k] == b[k]; }
  }

  lemma {:induction false} NoExecMeansAllShallow(msgs: seq<Msg>, depth: nat)
    requires NoExec(Expand(msgs, depth))
    ensures NestsAtMost(msgs, depth)
    decreases |msgs|
  {
    if msgs != [] {
      assert msgs == [msgs[0]] + msgs[1..];
      ExpandConcat([msgs[0]], msgs[1..], depth);
      NoExecParts(Expand([msgs[0]], depth), Expand(msgs[1..], depth));
      NoExecMeansShallow(msgs[0], depth);
      NoExecMeansAllShallow(msgs[1..], depth);
    }
  }

  /* ---------- system messages ---------- */

  predicate HasPrefix(s: string, prefix: string) { prefix <= s }

  /** isSystemMsg */
  function IsSystem(p: Params, url: string): bool {
    if url == TRANSFER_URL then false
    else if url in p.systemMsgTypeUrls then true
    else if url in p.exemptMsgTypeUrls then false
    else HasPrefix(url, CORE_PREFIX)
  }

  method IsSystemMsg(p: Params, url: string) returns (r: bool)
    ensures r == IsSystem(p, url)
  {
    if url == "/ibc.applications.transfer.v1.MsgTransfer" { return false; }
    for i := 0 to |p.systemMsgTypeUrls|
      invariant forall j :: 0 <= j < i ==> p.systemMsgTypeUrls[j] != url
    {
      if p.systemMsgTypeUrls[i] == url { return true; }
    }
    for i := 0 to |p.exemptMsgTypeUrls|
      invariant forall j :: 0 <= j < i ==> p.exemptMsgTypeUrls[j] != url
    {
      if p.exemptMsgTypeUrls[i] == url { return false; }
    }
    r := HasPrefix(url, "/ibc.core.");
  }

  /** The same scan with the exempt list first. */
  function IsSystemExemptFirst(p: Params, url: string): bool {
    if url == TRANSFER_URL then false
    else if url in p.exemptMsgTypeUrls then false
    else if url in p.systemMsgTypeUrls then true
    else HasPrefix(url, CORE_PREFIX)
  }

  /** The order of the two scans never matters exactly when no URL but the transfer's is in both
      lists, which validation guarantees for every real (non-empty) URL. */
  lemma {:induction false} ScanOrderIff(p: Params)
    ensures (forall url :: IsSystem(p, url) == IsSystemExemptFirst(p, url))
       <==> (forall url :: url in p.systemMsgTypeUrls && url in p.exemptMsgTypeUrls ==> url == TRANSFER_URL)
    ensures GoodLists(p.systemMsgTypeUrls, p.exemptMsgTypeUrls)
       ==> forall url :: url != "" ==> IsSystem(p, url) == IsSystemExemptFirst(p, url)
  {
    if forall url :: IsSystem(p, url) == IsSystemExemptFirst(p, url) {
      forall url | url in p.systemMsgTypeUrls && url in p.exemptMsgTypeUrls
        ensures url == TRANSFER_URL
      {
        assert IsSystem(p, url) == IsSystemExemptFirst(p, url);
      }
    }
  }

  /* ---------- classifyTransaction ---------- */

  function CategoryOf(m: Msg): Option<Category> {
    if m.Exec? then None
    else
      match m.kind
      case BankSend => Some(NativeTransfer)
      case BankMultiSend => Some(NativeTransfer)
      case StoreCode => Some(Deploy)
      case InstantiateContract => Some(Deploy)
      case ExecuteContract(tokenKeyword, dexKeyword) =>
        Some(if tokenKeyword then TokenInteraction else if dexKeyword then DexUser else TokenInteraction)
      case MigrateContract => Some(TokenInteraction)
      case UpdateAdmin => Some(TokenInteraction)
      case Other => None
  }

  function FirstCategory(msgs: seq<Msg>): Category {
    if msgs == [] then NativeTransfer
    else if CategoryOf(msgs[0]).Some? then CategoryOf(msgs[0]).value
    else FirstCategory(msgs[1..])
  }

  predicate Hinted(memo: Memo) {
    memo.pos || memo.payment || memo.dex || memo.deploy || memo.wizard
  }

  ghost predicate AllSystem(p: Params, msgs: seq<Msg>) {
    forall k :: 0 <= k < |msgs| ==> IsSystem(p, TypeUrl(msgs[k]))
  }

  ghost predicate AnySystem(p: Params, msgs: seq<Msg>) {
    exists k :: 0 <= k < |msgs| && IsSystem(p, TypeUrl(msgs[k]))
  }

  function MemoCategory(memo: Memo): Category {
    if memo.pos || memo.payment then POS
    else if memo.dex then (if memo.native then DexNative else DexUser)
    else if memo.deploy then Deploy
    else Wizard
  }

  /** What the classification amounts to: memo hints first, then whether all, some or none of the
      unwrapped messages are system messages, then the first message with a kind of its own. */
  ghost function Classification(p: Params, msgs: seq<Msg>, memo: Memo): Category {
    if Hinted(memo) then MemoCategory(memo)
    else if msgs != [] && AllSystem(p, msgs) then System
    else if AnySystem(p, msgs) then Mixed
    else FirstCategory(msgs)
  }

  method SystemFlags(p: Params, msgs: seq<Msg>) returns (allSystem: bool, anySystem: bool, anyUser: bool)
    ensures allSystem == AllSystem(p, msgs) && anySystem == AnySystem(p, msgs) && anyUser == !AllSystem(p, msgs)
  {
    hide IsSystem;
    allSystem, anySystem, anyUser := true, false, false;
    for i := 0 to |msgs|
      invariant allSystem <==> forall k :: 0 <= k < i ==> IsSystem(p, TypeUrl(msgs[k]))
      invariant anySystem <==> exists k :: 0 <= k < i && IsSystem(p, TypeUrl(msgs[k]))
      invariant anyUser == !allSystem
    {
      var system := IsSystemMsg(p, TypeUrl(msgs[i]));
      if system {
        anySystem := true;
      } else {
        allSystem, anyUser := false, true;
      }
    }
  }

  method FirstEconomic(msgs: seq<Msg>) returns (category: Category)
    ensures category == FirstCategory(msgs)
  {
    var i := 0;
    while i < |msgs|
      invariant i <= |msgs| && FirstCategory(msgs) == FirstCategory(msgs[i..])
    {
      assert msgs[i..][1..] == msgs[i + 1..];
      var c := CategoryOf(msgs[i]);
      if c.Some? { return c.value; }
      i := i + 1;
    }
    category := NativeTransfer;
  }

  method ClassifyTransaction(p: Params, msgs: seq<Msg>, memo: Memo) returns (category: Category)
    ensures category == Classification(p, msgs, memo)
  {
    hide IsSystem;
    if memo.pos || memo.payment { return POS; }
    if memo.dex {
      if memo.native { return DexNative; }
      return DexUser;
    }
    if memo.deploy { return Deploy; }
    if memo.wizard { return Wizard; }
    assert msgs != [] ==> (AllSystem(p, msgs) ==> IsSystem(p, TypeUrl(msgs[0])));
    var allSystem, anySystem, anyUser := SystemFlags(p, msgs);
    if allSystem && anySystem {
      return System;
    }
    if anySystem && anyUser {
      return Mixed;
    }
    category := FirstEconomic(msgs);
  }

  /** The category of a transaction, whose messages are unwrapped to four levels first. */
  ghost function TxCategory(p: Params, msgs: seq<Msg>, memo: Memo): Category {
    Classification(p, Expand(msgs, 4), memo)
  }

  /* ---------- the categories, literally ---------- */

  /** Which type URLs are system ones. */
  lemma {:induction false} SystemUrlIff(p: Params, url: string)
    ensures IsSystem(p, url)
       <==> url != "/ibc.applications.transfer.v1.MsgTransfer"
            && (url in p.systemMsgTypeUrls
                || (url !in p.exemptMsgTypeUrls && |url| >= 10 && url[..10] == "/ibc.core."))
    ensures forall inner :: TypeUrl(Exec(inner)) == "/cosmos.authz.v1beta1.MsgExec"
    ensures forall kind :: TypeUrl(Plain(url, kind)) == url
  {
  }

  /** A memo hint decides alone, whatever the messages: pos and payment before dex, dex before deploy,
      deploy before wizard; native counts with dex only. */
  lemma {:induction false} HintedCategory(p: Params, msgs: seq<Msg>, memo: Memo)
    ensures var c := Classification(p, msgs, memo);
            && (memo.pos || memo.payment ==> c == POS)
            && (!memo.pos && !memo.payment && memo.dex && memo.native ==> c == DexNative)
            && (!memo.pos && !memo.payment && memo.dex && !memo.native ==> c == DexUser)
            && (!memo.pos && !memo.payment && !memo.dex && memo.deploy ==> c == Deploy)
            && (!memo.pos && !memo.payment && !memo.dex && !memo.deploy && memo.wizard ==> c == Wizard)
  {
  }

  /** No hint in the memo; "native" alone is none. */
  ghost predicate Plainly(memo: Memo) {
    !memo.pos && !memo.payment && !memo.dex && !memo.deploy && !memo.wizard
  }

  /** Without a hint, mixed is exactly: some messages are system ones and some are not. System is: there
      are messages and all are. */
  lemma {:induction false} MixedIff(p: Params, msgs: seq<Msg>, memo: Memo)
    ensures Classification(p, msgs, memo) == Mixed
       <==> Plainly(memo) && (exists k :: 0 <= k < |msgs| && IsSystem(p, TypeUrl(msgs[k])))
            && (exists k :: 0 <= k < |msgs| && !IsSystem(p, TypeUrl(msgs[k])))
    ensures Classification(p, msgs, memo) == System
       <==> Plainly(memo) && msgs != [] && forall k :: 0 <= k < |msgs| ==> IsSystem(p, TypeUrl(msgs[k]))
  {
    hide IsSystem;
    FirstIsEconomic(msgs);
    hide FirstCategory;
  }

  lemma {:induction false} FirstIsEconomic(msgs: seq<Msg>)
    ensures FirstCategory(msgs) in {NativeTransfer, Deploy, TokenInteraction, DexUser}
  {
    if msgs != [] { FirstIsEconomic(msgs[1..]); }
  }

  /** A message that decides nothing by its kind: one still wrapped, or of no listed kind. */
  ghost predicate NonEconomic(m: Msg) { m.Exec? || m.kind == Other }

  /** The category of a message that decides. */
  ghost predicate Decides(m: Msg, c: Category) {
    && m.Plain?
    && (m.kind == BankSend || m.kind == BankMultiSend ==> c == NativeTransfer)
    && (m.kind == StoreCode || m.kind == InstantiateContract ==> c == Deploy)
    && (m.kind == MigrateContract || m.kind == UpdateAdmin ==> c == TokenInteraction)
    && (m.kind.ExecuteContract? && m.kind.tokenKeyword ==> c == TokenInteraction)
    && (m.kind.ExecuteContract? && !m.kind.tokenKeyword && m.kind.dexKeyword ==> c == DexUser)
    && (m.kind.ExecuteContract? && !m.kind.tokenKeyword && !m.kind.dexKeyword ==> c == TokenInteraction)
  }

  /** Without a hint and without system messages, the leftmost message of an economic kind decides,
      whatever stands around it. */
  lemma {:induction false} EconomicCategory(p: Params, pre: seq<Msg>, m: Msg, post: seq<Msg>, memo: Memo)
    requires Plainly(memo) && !NonEconomic(m)
    requires forall k :: 0 <= k < |pre| ==> NonEconomic(pre[k])
    requires forall k :: 0 <= k < |pre + [m] + post| ==> !IsSystem(p, TypeUrl((pre + [m] + post)[k]))
    ensures Decides(m, Classification(p, pre + [m] + post, memo))
  {
    hide IsSystem;
    SkipNonEconomic(pre, [m] + post);
    assert pre + [m] + post == pre + ([m] + post);
    assert Decides(m, FirstCategory([m] + post));
    assert !IsSystem(p, TypeUrl((pre + [m] + post)[0]));
    hide FirstCategory;
  }

  /** And when there is none, the transaction is a native transfer. */
  lemma {:induction false} UneconomicCategory(p: Params, msgs: seq<Msg>, memo: Memo)
    requires Plainly(memo)
    requires forall k :: 0 <= k < |msgs| ==> NonEconomic(msgs[k]) && !IsSystem(p, TypeUrl(msgs[k]))
    ensures Classification(p, msgs, memo) == NativeTransfer
  {
    hide IsSystem;
    SkipNonEconomic(msgs, []);
    assert msgs + [] == msgs;
  }

  lemma {:induction false} SkipNonEconomic(pre: seq<Msg>, rest: seq<Msg>)
    requires forall k :: 0 <= k < |pre| ==> NonEconomic(pre[k])
    ensures FirstCategory(pre + rest) == FirstCategory(rest)
    decreases |pre|
  {
    if pre == [] {
      assert pre + rest == rest;
    } else {
      assert (pre + rest)[1..] == pre[1..] + rest;
      assert NonEconomic(pre[0]);
      SkipNonEconomic(pre[1..], rest);
    }
  }

  lemma {:induction false} SystemAreNoExec(p: Params, msgs: seq<Msg>)
    requires AllSystem(p, msgs) && EXEC_URL !in p.systemMsgTypeUrls
    ensures NoExec(msgs)
  {
    forall k | 0 <= k < |msgs| ensures msgs[k].Plain? {
      assert IsSystem(p, TypeUrl(msgs[k]));
      assert !HasPrefix(EXEC_URL, CORE_PREFIX) by { assert EXEC_URL[1] != CORE_PREFIX[1]; }
    }
  }

  lemma {:induction false} CategoryOfIsNeverSystem(msgs: seq<Msg>)
    ensures FirstCategory(msgs) != System
  {
    FirstIsEconomic(msgs);
  }

  /** Which transactions are system transactions, when MsgExec itself is not listed: those without
      a memo hint whose authz trees, however deep, have at least one leaf, only system leaves, and
      no more than four levels of MsgExec. Nothing hides behind the depth limit. */
  lemma {:induction false} SystemIff(p: Params, msgs: seq<Msg>, memo: Memo)
    requires EXEC_URL !in p.systemMsgTypeUrls
    ensures TxCategory(p, msgs, memo) == System
       <==> !Hinted(memo) && AllLeaves(msgs) != [] && AllSystem(p, AllLeaves(msgs)) && NestsAtMost(msgs, 4)
  {
    hide IsSystem;
    var expanded := Expand(msgs, 4);
    CategoryOfIsNeverSystem(expanded);
    if !Hinted(memo) && AllSystem(p, expanded) {
      SystemAreNoExec(p, expanded);
      NoExecMeansAllShallow(msgs, 4);
    }
    if NestsAtMost(msgs, 4) {
      ExpandAllIsLeaves(msgs, 4);
    }
  }

  lemma {:induction false} ExpandInnerConcat(a: seq<Option<Msg>>, b: seq<Option<Msg>>, depth: nat)
    requires depth > 0
    ensures ExpandInner(a + b, depth) == ExpandInner(a, depth) + ExpandInner(b, depth)
    decreases |a|
  {
    hide Expand;
    if a == [] {
      assert a + b == b;
    } else {
      assert (a + b)[1..] == a[1..] + b;
      ExpandInnerConcat(a[1..], b, depth);
    }
  }

  lemma {:induction false} ExpandSealed(a: seq<Option<Msg>>, b: seq<Option<Msg>>, depth: nat)
    requires depth > 0
    ensures ExpandInner(a + [None] + b, depth) == ExpandInner(a + b, depth)
  {
    var sealed: seq<Option<Msg>> := [None];
    assert ExpandInner(sealed, depth) == [] by { assert sealed[1..] == []; }
    hide ExpandInner;
    ExpandInnerConcat(a + [None], b, depth);
    ExpandInnerConcat(a, [None], depth);
    ExpandInnerConcat(a, b, depth);
  }

  lemma {:induction false} ExpandOneExec(pre: seq<Msg>, inner: seq<Option<Msg>>, post: seq<Msg>, depth: nat)
    requires depth > 0
    ensures Expand(pre + [Exec(inner)] + post, depth)
         == Expand(pre, depth) + ExpandInner(inner, depth) + Expand(post, depth)
  {
    var m := Exec(inner);
    assert Expand([m], depth) == ExpandInner(inner, depth) by { assert [m][1..] == []; }
    hide Expand;
    ExpandConcat(pre + [m], post, depth);
    ExpandConcat(pre, [m], depth);
  }

  /** Sealed messages never matter: whatever surrounds it, an inner message that is not unpacked can
      be left out without changing the category. */
  lemma {:induction false} SealedMessageChangesNothing(
      p: Params, pre: seq<Msg>, a: seq<Option<Msg>>, b: seq<Option<Msg>>, post: seq<Msg>, memo: Memo)
    ensures TxCategory(p, pre + [Exec(a + [None] + b)] + post, memo)
         == TxCategory(p, pre + [Exec(a + b)] + post, memo)
  {
    hide Expand, ExpandInner, Classification;
    ExpandOneExec(pre, a + [None] + b, post, 4);
    ExpandOneExec(pre, a + b, post, 4);
    ExpandSealed(a, b, 4);
  }

  /** An inner message that was not unpacked is skipped, so it does not keep a transaction from
      being a system transaction: the guarantee above is about the unpacked ones. */
  lemma {:induction false} SealedMessageIsSkipped(p: Params, url: string, kind: Kind)
    requires IsSystem(p, url)
    ensures TxCategory(p, [Exec([None, Some(Plain(url, kind))])], Memo(false, false, false, false, false, false))
         == System
  {
    hide IsSystem;
    var m := Plain(url, kind);
    assert Expand([m], 3) == [m] by { assert [m][1..] == []; }
    assert [Some(m)][1..] == [];
    assert [None, Some(m)][1..] == [Some(m)];
    assert ExpandInner([Some(m)], 4) == [m];
    assert [Exec([None, Some(m)])][1..] == [];
    assert Expand([Exec([None, Some(m)])], 4) == [m];
  }
}
