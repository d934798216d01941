/** Who ends up with what: the balances after a distribution, by the names in the message metadata
    and the wallets in the parameters. */
module FeeRecipients {
  import opened Common
  import opened Decimal
  import opened Wire
  import opened FeeParams
  import opened FeeEstimate
  import opened Ledger
  import opened Distribution
  import opened FeeCollection

  /** A part of an amount, rounded down. */
  function Cut(part: Dec, amount: int): int { part * amount / 1_000_000_000_000_000_000 }

  /** What the four cuts take together. */
  function AllCuts(split: FeeSplit, amount: int): int {
    Cut(split.treasury, amount) + Cut(split.retailWallet, amount)
    + Cut(split.tokenDev, amount) + Cut(split.tokenCreator, amount)
  }

  function If(b: bool, amount: int): int { if b then amount else 0 }

  /** What an address is owed of an amount: the cuts of the roles it has; and the treasury its own
      cut, or what the others leave of the amount, with the cuts nobody is there for. */
  function Owed(split: FeeSplit, amount: int, r: Recipients, a: string): int {
    var retail, dev := Cut(split.retailWallet, amount), Cut(split.tokenDev, amount);
    var creator := Cut(split.tokenCreator, amount);
    var rest :=
      if AllCuts(split, amount) > amount then amount - retail - dev - creator else Cut(split.treasury, amount);
    If(r.retail == Some(a), retail) + If(r.dev == Some(a), dev) + If(r.creator == Some(a), creator)
    + If(a == "treasury", rest + If(r.retail == None, retail) + If(r.dev == None, dev) + If(r.creator == None, creator))
  }

  /** What the payer is out of before he receives anything himself. */
  function Spent(split: FeeSplit, amount: int): int {
    if AllCuts(split, amount) > amount then amount else AllCuts(split, amount)
  }

  lemma CutIsShare(part: Dec, amount: int)
    requires part >= 0 && amount >= 0
    ensures Cut(part, amount) == Share(part, amount)
  {
    assert part * amount >= 0;
  }

  lemma CutsAreShares(split: FeeSplit, amount: int)
    requires NonNegativeSplit(split) && amount >= 0
    ensures Floors(split, amount) == Shares(Cut(split.treasury, amount), Cut(split.retailWallet, amount),
                                            Cut(split.tokenDev, amount), Cut(split.tokenCreator, amount))
  {
    CutIsShare(split.treasury, amount);
    CutIsShare(split.retailWallet, amount);
    CutIsShare(split.tokenDev, amount);
    CutIsShare(split.tokenCreator, amount);
    hide Share, Cut;
  }

  lemma ReceivedIsOwed(split: FeeSplit, amount: int, r: Recipients, a: string)
    requires NonNegativeSplit(split) && amount >= 0
    ensures Received(FinalShares(split, amount, r), r, a) == Owed(split, amount, r, a)
    ensures FinalShares(split, amount, r).Sum() == Spent(split, amount)
  {
    CutsAreShares(split, amount);
    hide Floors, Cut;
  }

  /** `after` is `book` with everybody paid what he is owed of an amount of `denom` by `from`. */
  ghost predicate PaidOwed(book: Book, after: Book, denom: string, from: string, split: FeeSplit, amount: int,
                           r: Recipients) {
    forall d, a :: Balance(after, d, a) == Balance(book, d, a)
      + (if d == denom then Owed(split, amount, r, a) - If(a == from, Spent(split, amount)) else 0)
  }

  lemma PaySharesPaysOwed(book: Book, denom: string, from: string, split: FeeSplit, amount: int, r: Recipients,
                          blocked: set<string>)
    requires NonNegativeSplit(split) && amount >= 0
    requires PayShares(book, denom, from, FinalShares(split, amount, r), r, blocked).Some?
    ensures PaidOwed(book, PayShares(book, denom, from, FinalShares(split, amount, r), r, blocked).value,
                     denom, from, split, amount, r)
  {
    hide Balance, Supply, PayShares, FinalShares, Owed, Spent, Received;
    RemapClears(split, amount, r);
    PaySharesEffect(book, denom, from, FinalShares(split, amount, r), r, blocked);
    forall a
      ensures Received(FinalShares(split, amount, r), r, a) == Owed(split, amount, r, a)
    {
      ReceivedIsOwed(split, amount, r, a);
    }
    ReceivedIsOwed(split, amount, r, "");
  }

  /** A distribution from the fees account pays the rightful recipients what they are owed: without
      metadata, those the wallet parameters decode to. */
  lemma ModulePaysOwed(book: Book, c: Chain, p: Params, feeType: string, coin: Coin, r: Recipients)
    requires DistributeFromModule(book, c, p, feeType, coin).Some? && coin.amount >= 0
    requires NonNegativeSplit(ConfigByType(p.feeTableUsd, feeType, true).split)
    requires Wallet(p.retailWallet, c.decode, r.retail) && Wallet(p.tokenDevWallet, c.decode, r.dev)
    requires Wallet(p.tokenCreatorWallet, c.decode, r.creator)
    ensures PaidOwed(book, DistributeFromModule(book, c, p, feeType, coin).value, coin.denom, "fees",
                     ConfigByType(p.feeTableUsd, feeType, true).split, coin.amount, r)
  {
    RightfulIff(p, map[], c.decode, r);
    hide Resolve, PayShares, FinalShares, PaidOwed, ConfigByType;
    var split := ConfigByType(p.feeTableUsd, feeType, true).split;
    PaySharesPaysOwed(book, coin.denom, FEES, split, coin.amount, r, c.blocked);
  }

  /** A distribution from a paying account pays the rightful recipients, those named first. */
  lemma SenderPaysOwed(book: Book, c: Chain, p: Params, sender: string, feeType: string, coin: Coin,
                       md: map<string, string>, r: Recipients)
    requires DistributeFrom(book, c, p, sender, feeType, coin, md).Some? && coin.amount >= 0
    requires NonNegativeSplit(ConfigByType(p.feeTableUsd, feeType, false).split)
    requires Rightful(p, md, c.decode, r)
    ensures PaidOwed(book, DistributeFrom(book, c, p, sender, feeType, coin, md).value, coin.denom, sender,
                     ConfigByType(p.feeTableUsd, feeType, false).split, coin.amount, r)
  {
    RightfulIff(p, md, c.decode, r);
    hide Resolve, PayShares, FinalShares, PaidOwed, ConfigByType, Rightful;
    PaySharesPaysOwed(book, coin.denom, sender, ConfigByType(p.feeTableUsd, feeType, false).split, coin.amount, r, {});
  }

  /** The usual case: four different accounts and a split that sums to one. Each gains the cut of its
      own part, rounded down, and nobody else anything. */
  lemma FourWallets(book: Book, c: Chain, p: Params, feeType: string, coin: Coin,
                    retail: string, dev: string, creator: string)
    requires DistributeFromModule(book, c, p, feeType, coin).Some? && coin.amount >= 0
    requires p.retailWallet != "" && c.decode(p.retailWallet) == Some(retail)
    requires p.tokenDevWallet != "" && c.decode(p.tokenDevWallet) == Some(dev)
    requires p.tokenCreatorWallet != "" && c.decode(p.tokenCreatorWallet) == Some(creator)
    requires |{retail, dev, creator, "treasury", "fees"}| == 5
    requires var split := ConfigByType(p.feeTableUsd, feeType, true).split;
             NonNegativeSplit(split) && SplitTotal(split) == ONE
    ensures var after := DistributeFromModule(book, c, p, feeType, coin).value;
            var split, d := ConfigByType(p.feeTableUsd, feeType, true).split, coin.denom;
            && Balance(after, d, retail) == Balance(book, d, retail) + split.retailWallet * coin.amount / ONE
            && Balance(after, d, dev) == Balance(book, d, dev) + split.tokenDev * coin.amount / ONE
            && Balance(after, d, creator) == Balance(book, d, creator) + split.tokenCreator * coin.amount / ONE
            && Balance(after, d, "treasury") == Balance(book, d, "treasury") + split.treasury * coin.amount / ONE
            && forall a :: a !in {retail, dev, creator, "treasury", "fees"} ==>
                 Balance(after, d, a) == Balance(book, d, a)
  {
    var split := ConfigByType(p.feeTableUsd, feeType, true).split;
    var r := Recipients(Some(retail), Some(dev), Some(creator));
    ModulePaysOwed(book, c, p, feeType, coin, r);
    FloorsBounds(split, coin.amount);
    CutsAreShares(split, coin.amount);
    AllDistinct(retail, dev, creator, "treasury", "fees");
    hide Balance, ConfigByType, DistributeFromModule, Floors, Wallet;
  }

  lemma AllDistinct(a: string, b: string, c: string, d: string, e: string)
    requires |{a, b, c, d, e}| == 5
    ensures a != b && a != c && a != d && a != e && b != c && b != d && b != e && c != d && c != e && d != e
  {
    assert {a, b, c, d, e} == {a} + {b} + {c} + {d} + {e};
  }

  /* ---------- a whole fee ---------- */

  /** What an address is owed of the coins of one denomination. */
  function OwedInAll(split: FeeSplit, r: Recipients, fee: seq<Coin>, denom: string, a: string): int {
    if fee == [] then 0
    else If(fee[0].denom == denom, Owed(split, fee[0].amount, r, a)) + OwedInAll(split, r, fee[1..], denom, a)
  }

  lemma {:induction false} DistributeAllPaysOwed(book: Book, c: Chain, p: Params, feeType: string, fee: seq<Coin>,
                                                 r: Recipients, denom: string, a: string)
    requires DistributeAll(book, c, p, feeType, fee).Some? && Positive(fee) && a != "fees"
    requires NonNegativeSplit(ConfigByType(p.feeTableUsd, feeType, true).split)
    requires Wallet(p.retailWallet, c.decode, r.retail) && Wallet(p.tokenDevWallet, c.decode, r.dev)
    requires Wallet(p.tokenCreatorWallet, c.decode, r.creator)
    ensures Balance(DistributeAll(book, c, p, feeType, fee).value, denom, a)
         == Balance(book, denom, a) + OwedInAll(ConfigByType(p.feeTableUsd, feeType, true).split, r, fee, denom, a)
    decreases |fee|
  {
    hide Balance, DistributeFromModule, ConfigByType, Owed, Wallet, NonNegativeSplit, Spent;
    if fee != [] {
      var b := DistributeFromModule(book, c, p, feeType, fee[0]).value;
      ModulePaysOwed(book, c, p, feeType, fee[0], r);
      assert forall k :: 0 <= k < |fee[1..]| ==> fee[1..][k] == fee[k + 1];
      DistributeAllPaysOwed(b, c, p, feeType, fee[1..], r, denom, a);
    }
  }

  /** Collecting a fee pays every account but the payer's and the module's exactly what it is owed of
      the coins, by the wallet parameters. */
  lemma CollectPaysOwed(book: Book, c: Chain, p: Params, payer: string, fee: seq<Coin>, feeType: string,
                        r: Recipients, denom: string, a: string)
    requires Collect(book, c, p, payer, fee, feeType).Some? && !IsZero(fee) && a != payer && a != "fees"
    requires NonNegativeSplit(ConfigByType(p.feeTableUsd, feeType, true).split)
    requires Wallet(p.retailWallet, c.decode, r.retail) && Wallet(p.tokenDevWallet, c.decode, r.dev)
    requires Wallet(p.tokenCreatorWallet, c.decode, r.creator)
    ensures Balance(Collect(book, c, p, payer, fee, feeType).value, denom, a)
         == Balance(book, denom, a) + OwedInAll(ConfigByType(p.feeTableUsd, feeType, true).split, r, fee, denom, a)
  {
    var b := DeductAll(book, payer, fee).value;
    DeductEffect(book, payer, fee);
    DeductSparesOthers(book, payer, fee, denom, a);
    DistributeAllPaysOwed(b, c, p, feeType, fee, r, denom, a);
    hide *;
  }

  lemma {:induction false} DeductSparesOthers(book: Book, payer: string, fee: seq<Coin>, denom: string, a: string)
    requires DeductAll(book, payer, fee).Some? && a != payer && a != "fees"
    ensures Balance(DeductAll(book, payer, fee).value, denom, a) == Balance(book, denom, a)
    decreases |fee|
  {
    hide Balance, Supply, Transfer;
    if fee != [] {
      var b := Transfer(book, fee[0].denom, payer, FEES, fee[0].amount).value;
      TransferEffect(book, fee[0].denom, payer, FEES, fee[0].amount);
      DeductSparesOthers(b, payer, fee[1..], denom, a);
    }
  }

  /* ---------- the literal tables ---------- */

  /** The entry a fee type is split by, type for type; the text "deploy" is known to distributions from
      the module only. */
  lemma SplitEntries(t: FeeTableUSD, inModule: bool)
    ensures ConfigByType(t, "pos_payment", inModule) == t.posPayment
    ensures ConfigByType(t, "token_interaction", inModule) == t.tokenInteraction
    ensures ConfigByType(t, "native_transfer", inModule) == t.nativeTransfer
    ensures ConfigByType(t, "dex_swap_native", inModule) == ConfigByType(t, "dex_native", inModule) == t.dexNative
    ensures ConfigByType(t, "dex_swap_user", inModule) == ConfigByType(t, "dex_user", inModule) == t.dexUser
    ensures ConfigByType(t, "token_creation", inModule) == ConfigByType(t, "contract_deploy", inModule) == t.deploy
    ensures ConfigByType(t, "deploy", inModule) == if inModule then t.deploy else t.nativeTransfer
    ensures forall s :: s !in {"pos_payment", "token_interaction", "dex_swap_native", "dex_native", "dex_swap_user",
                               "dex_user", "token_creation", "contract_deploy", "deploy"} ==>
              ConfigByType(t, s, inModule) == t.nativeTransfer
  {
  }
}
