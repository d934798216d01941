/** Splitting a fee four ways with truncation, clamping and remapping, and paying it out. */
module Distribution {
  import opened Common
  import opened Decimal
  import opened FeeParams
  import opened Classify
  import opened FeeEstimate
  import opened Ledger

  const FEES := "fees"
  const TREASURY := "treasury"

  /* ---------- the split ---------- */

  datatype Shares = Shares(treasury: int, retail: int, dev: int, creator: int) {
    function Sum(): int { treasury + retail + dev + creator }

    predicate NonNegative() { treasury >= 0 && retail >= 0 && dev >= 0 && creator >= 0 }
  }

  function Share(part: Dec, amount: int): int { TruncateInt(MulInt(part, amount)) }

  /** The four truncated shares. */
  function Floors(split: FeeSplit, amount: int): Shares {
    Shares(Share(split.treasury, amount), Share(split.retailWallet, amount),
           Share(split.tokenDev, amount), Share(split.tokenCreator, amount))
  }

  /** When they exceed the amount, the treasury gets what the others leave. */
  function Clamp(s: Shares, amount: int): Shares {
    if s.Sum() > amount then s.(treasury := amount - s.retail - s.dev - s.creator) else s
  }

  datatype Recipients = Recipients(retail: Option<string>, dev: Option<string>, creator: Option<string>)

  /** The shares of missing recipients go to the treasury. */
  function Remap(s: Shares, r: Recipients): Shares {
    var retail := if r.retail.None? then s.retail else 0;
    var dev := if r.dev.None? then s.dev else 0;
    var creator := if r.creator.None? then s.creator else 0;
    Shares(s.treasury + (retail + dev + creator), s.retail - retail, s.dev - dev, s.creator - creator)
  }

  function FinalShares(split: FeeSplit, amount: int, r: Recipients): Shares {
    Remap(Clamp(Floors(split, amount), amount), r)
  }

  predicate NonNegativeSplit(s: FeeSplit) {
    s.treasury >= 0 && s.retailWallet >= 0 && s.tokenDev >= 0 && s.tokenCreator >= 0
  }

  lemma ShareBounds(part: Dec, amount: int)
    requires part >= 0 && amount >= 0
    ensures Share(part, amount) >= 0
    ensures ONE * Share(part, amount) <= part * amount < ONE * Share(part, amount) + ONE
  {
    assert part * amount >= 0;
    DivBounds(part * amount, ONE);
    DivAtLeast(part * amount, ONE, 0);
  }

  lemma FloorsBounds(split: FeeSplit, amount: int)
    requires NonNegativeSplit(split) && amount >= 0
    ensures Floors(split, amount).NonNegative()
    ensures var s, others := Floors(split, amount), split.retailWallet + split.tokenDev + split.tokenCreator;
            ONE * s.Sum() <= SplitTotal(split) * amount < ONE * s.Sum() + 4 * ONE
            && ONE * (s.retail + s.dev + s.creator) <= others * amount
  {
    hide Share;
    ShareBounds(split.treasury, amount);
    ShareBounds(split.retailWallet, amount);
    ShareBounds(split.tokenDev, amount);
    ShareBounds(split.tokenCreator, amount);
    var t, r, d, c := split.treasury, split.retailWallet, split.tokenDev, split.tokenCreator;
    assert (r + d + c) * amount == r * amount + d * amount + c * amount;
    assert (t + r + d + c) * amount == t * amount + (r + d + c) * amount;
  }

  /** No part is negative, and those beside the treasury's leave the treasury something. */
  predicate Payable(split: FeeSplit) {
    NonNegativeSplit(split) && split.retailWallet + split.tokenDev + split.tokenCreator <= ONE
  }

  /** For every amount and every payable split the final shares are non-negative and sum to the
      lesser of the amount and the sum of the floors, whichever recipients are missing. */
  lemma SplitAlgebra(split: FeeSplit, amount: int, r: Recipients)
    requires Payable(split) && amount >= 0
    ensures FinalShares(split, amount, r).NonNegative()
    ensures FinalShares(split, amount, r).Sum() == Min(amount, Floors(split, amount).Sum())
  {
    hide Share;
    FloorsBounds(split, amount);
    MulLe(amount, split.retailWallet + split.tokenDev + split.tokenCreator, ONE);
    var s := Floors(split, amount);
    assert ONE * (s.retail + s.dev + s.creator) <= ONE * amount;
  }

  function Min(a: int, b: int): int { if a < b then a else b }

  /** Truncation moves a share of either sign by less than a unit. */
  lemma ShareNear(part: Dec, amount: int)
    ensures part * amount - ONE < ONE * Share(part, amount) < part * amount + ONE
  {
    var x := part * amount;
    if x >= 0 {
      DivBounds(x, ONE);
    } else {
      DivBounds(-x, ONE);
    }
  }

  lemma FloorsNear(split: FeeSplit, amount: int)
    ensures SplitTotal(split) * amount - 4 * ONE < ONE * Floors(split, amount).Sum()
              < SplitTotal(split) * amount + 4 * ONE
  {
    hide Share;
    ShareNear(split.treasury, amount);
    ShareNear(split.retailWallet, amount);
    ShareNear(split.tokenDev, amount);
    ShareNear(split.tokenCreator, amount);
    var t, r, d, c := split.treasury, split.retailWallet, split.tokenDev, split.tokenCreator;
    assert (t + r + d + c) * amount == t * amount + r * amount + d * amount + c * amount;
  }

  /** A split that sums to one or more shares out everything but at most three units, and no split
      more than there is. */
  lemma DustIsAtMostThree(split: FeeSplit, amount: int, r: Recipients)
    requires amount >= 0
    ensures FinalShares(split, amount, r).Sum() <= amount
    ensures SplitTotal(split) >= ONE ==> amount - 3 <= FinalShares(split, amount, r).Sum()
    ensures Payable(split) ==> FinalShares(split, amount, r).NonNegative()
  {
    SumWithinAmount(split, amount, r);
    if SplitTotal(split) >= ONE {
      FloorsNear(split, amount);
      MulLe(amount, ONE, SplitTotal(split));
      hide Share;
    }
    if Payable(split) {
      SplitAlgebra(split, amount, r);
    }
  }

  /** Three units bound the dust of every amount exactly for the splits that sum to one or more. */
  lemma DustIff(split: FeeSplit, r: Recipients)
    ensures (forall amount :: amount >= 0 ==> amount - 3 <= FinalShares(split, amount, r).Sum())
       <==> SplitTotal(split) >= ONE
  {
    hide FinalShares;
    if SplitTotal(split) >= ONE {
      forall amount | amount >= 0
        ensures amount - 3 <= FinalShares(split, amount, r).Sum()
      {
        DustIsAtMostThree(split, amount, r);
      }
    } else {
      var amount := 8 * ONE;
      FloorsNear(split, amount);
      MulLe(amount, SplitTotal(split), ONE - 1);
      assert FinalShares(split, amount, r).Sum() <= Floors(split, amount).Sum() by {
        SumWithinFloors(split, amount, r);
      }
      assert FinalShares(split, amount, r).Sum() < amount - 3;
    }
  }

  lemma SumWithinFloors(split: FeeSplit, amount: int, r: Recipients)
    ensures FinalShares(split, amount, r).Sum() <= Floors(split, amount).Sum()
  {
    hide Share;
  }

  /** At amount ONE, with all recipients present, the shares are the parts of the split; but for the
      treasury's, which is what the others leave when the parts come to more than one. */
  lemma WholeShares(split: FeeSplit)
    ensures var s := FinalShares(split, ONE, Recipients(Some(""), Some(""), Some("")));
            s.retail == split.retailWallet && s.dev == split.tokenDev && s.creator == split.tokenCreator
            && s.treasury == if SplitTotal(split) <= ONE then split.treasury else ONE - s.retail - s.dev - s.creator
  {
    WholeShare(split.treasury);
    WholeShare(split.retailWallet);
    WholeShare(split.tokenDev);
    WholeShare(split.tokenCreator);
    hide Share;
  }

  lemma WholeShare(part: Dec)
    ensures Share(part, ONE) == part
  {
    if part >= 0 {
      DivIs(part * ONE, ONE, part);
    } else {
      DivIs(-part * ONE, ONE, -part);
    }
  }

  /** The shares of a split are non-negative for every amount and every combination of recipients
      exactly when the split is payable. Validation checks neither half of that: not the signs, and
      for an entry with a zero fee not the total either. */
  lemma SharesNonNegativeIff(split: FeeSplit)
    ensures (forall amount, r :: amount >= 0 ==> FinalShares(split, amount, r).NonNegative())
       <==> Payable(split)
  {
    hide FinalShares;
    if Payable(split) {
      forall amount, r | amount >= 0
        ensures FinalShares(split, amount, r).NonNegative()
      {
        SplitAlgebra(split, amount, r);
      }
    } else {
      WholeShares(split);
      assert !FinalShares(split, ONE, Recipients(Some(""), Some(""), Some(""))).NonNegative();
    }
  }

  /** So a validated entry can have a negative share: one that is charged, by a negative part; one
      with a zero fee, which the minimum gas price still turns into a fee, by parts beyond one. */
  lemma ValidSplitCanBeNegative()
    ensures exists c: FeeConfig, amount: int, r: Recipients ::
              GoodConfig(c) && c.usdAmount > 0 && amount > 0 && !FinalShares(c.split, amount, r).NonNegative()
    ensures exists c: FeeConfig, amount: int, r: Recipients ::
              GoodConfig(c) && c.usdAmount == 0 && NonNegativeSplit(c.split) && amount > 0
              && !FinalShares(c.split, amount, r).NonNegative()
  {
    var c := FeeConfig(ONE, FeeSplit(2 * ONE, -ONE, 0, 0));
    assert Share(-ONE, 5) == -5;
    assert FinalShares(c.split, 5, Recipients(Some("r"), None, None)).retail == -5;
    var part := 600_000_000_000_000_000;
    var free := FeeConfig(0, FeeSplit(0, part, part, 0));
    assert Share(part, 5) == 3 && Share(0, 5) == 0;
    assert FinalShares(free.split, 5, Recipients(Some("r"), Some("d"), None)).treasury == -1;
  }

  /** Whatever the split, at most the amount is paid out. */
  lemma SumWithinAmount(split: FeeSplit, amount: int, r: Recipients)
    ensures FinalShares(split, amount, r).Sum() <= amount
  {
    hide Share;
  }

  lemma RemapClears(split: FeeSplit, amount: int, r: Recipients)
    ensures var s := FinalShares(split, amount, r);
            (r.retail.None? ==> s.retail == 0) && (r.dev.None? ==> s.dev == 0) && (r.creator.None? ==> s.creator == 0)
  {
    hide Share;
  }

  /* ---------- recipients ---------- */

  /** The address codec: None for text that is not an address. */
  type AddressCodec = string -> Option<string>

  function FromMetadata(md: map<string, string>, key: string, decode: AddressCodec): Option<string> {
    if key in md && md[key] != "" then decode(md[key]) else None
  }

  function FromParams(text: string, decode: AddressCodec): Option<string> {
    if text != "" then decode(text) else None
  }

  function OrElse(a: Option<string>, b: Option<string>): Option<string> {
    if a.Some? then a else b
  }

  /** Metadata first, developer and creator standing in for each other, then the parameters. */
  function Resolve(p: Params, md: map<string, string>, decode: AddressCodec): Recipients {
    var creator := FromMetadata(md, "creator_address", decode);
    var dev := FromMetadata(md, "dev_address", decode);
    Recipients(
      OrElse(FromMetadata(md, "retail_address", decode), FromParams(p.retailWallet, decode)),
      OrElse(OrElse(dev, creator), FromParams(p.tokenDevWallet, decode)),
      OrElse(OrElse(creator, dev), FromParams(p.tokenCreatorWallet, decode)))
  }

  /** Metadata names an address under a key. */
  ghost predicate Names(md: map<string, string>, key: string, decode: AddressCodec, a: string) {
    key in md && md[key] != "" && decode(md[key]) == Some(a)
  }

  ghost predicate Nameless(md: map<string, string>, key: string, decode: AddressCodec) {
    forall a :: !Names(md, key, decode, a)
  }

  /** A wallet parameter stands for the address it decodes to, if it does. */
  ghost predicate Wallet(text: string, decode: AddressCodec, r: Option<string>) {
    if text == "" then r == None else r == decode(text)
  }

  /** Who the recipients have to be, case by case: an address named by the metadata beats the
      parameter; a developer or a creator named alone stands for both; and without either, each has
      the wallet of his own. */
  ghost predicate Rightful(p: Params, md: map<string, string>, decode: AddressCodec, r: Recipients) {
    && (forall a :: Names(md, "retail_address", decode, a) ==> r.retail == Some(a))
    && (Nameless(md, "retail_address", decode) ==> Wallet(p.retailWallet, decode, r.retail))
    && (forall a :: Names(md, "dev_address", decode, a) ==> r.dev == Some(a))
    && (forall a :: Names(md, "creator_address", decode, a) ==> r.creator == Some(a))
    && (Nameless(md, "dev_address", decode) ==>
          forall a :: Names(md, "creator_address", decode, a) ==> r.dev == Some(a))
    && (Nameless(md, "creator_address", decode) ==>
          forall a :: Names(md, "dev_address", decode, a) ==> r.creator == Some(a))
    && (Nameless(md, "dev_address", decode) && Nameless(md, "creator_address", decode) ==>
          Wallet(p.tokenDevWallet, decode, r.dev) && Wallet(p.tokenCreatorWallet, decode, r.creator))
  }

  lemma NamedOrNot(md: map<string, string>, key: string, decode: AddressCodec)
    ensures match FromMetadata(md, key, decode)
            case None => Nameless(md, key, decode)
            case Some(a) => Names(md, key, decode, a) && !Nameless(md, key, decode)
  {
  }

  /** The recipients resolved are the rightful ones, and there are no others. */
  lemma RightfulIff(p: Params, md: map<string, string>, decode: AddressCodec, r: Recipients)
    ensures Rightful(p, md, decode, r) <==> r == Resolve(p, md, decode)
  {
    NamedOrNot(md, "retail_address", decode);
    NamedOrNot(md, "dev_address", decode);
    NamedOrNot(md, "creator_address", decode);
    hide Nameless;
  }

  /* ---------- the fee-type tables ---------- */

  /** The switch of DistributeFee; `deploy` is a case of DistributeFeeFromModule only. */
  function ConfigByType(t: FeeTableUSD, feeType: string, fromModule: bool): FeeConfig {
    if feeType == "pos_payment" then t.posPayment
    else if feeType == "token_interaction" then t.tokenInteraction
    else if feeType == "native_transfer" then t.nativeTransfer
    else if feeType == "dex_swap_native" || feeType == "dex_native" then t.dexNative
    else if feeType == "dex_swap_user" || feeType == "dex_user" then t.dexUser
    else if feeType == "token_creation" || feeType == "contract_deploy" then t.deploy
    else if fromModule && feeType == "deploy" then t.deploy
    else t.nativeTransfer
  }

  function CategoryText(c: Category): string {
    match c
    case POS => "pos"
    case TokenInteraction => "token_interaction"
    case NativeTransfer => "native_transfer"
    case DexNative => "dex_native"
    case DexUser => "dex_user"
    case Deploy => "deploy"
    case Wizard => "wizard"
    case Default => "default"
    case System => "system"
    case Mixed => "mixed"
  }

  /** A fee is distributed by the table entry it was estimated from, whatever the table, exactly for
      the categories other than POS and wizard: those two are charged by their own entry and split
      by the one for native transfers. */
  lemma SplitFollowsChargeIff(c: Category)
    ensures (forall t: FeeTableUSD :: ConfigByType(t, CategoryText(c), true) == ConfigFor(t, c))
       <==> c != POS && c != Wizard
  {
    var zero, one := FeeConfig(0, FeeSplit(0, 0, 0, 0)), FeeConfig(1, FeeSplit(ONE, 0, 0, 0));
    var t := FeeTableUSD(zero, zero, one, zero, zero, zero, zero);
    if c == POS || c == Wizard {
      assert ConfigByType(t, CategoryText(c), true) != ConfigFor(t, c);
    } else {
      forall u: FeeTableUSD
        ensures ConfigByType(u, CategoryText(c), true) == ConfigFor(u, c)
      {
        match c
        case Deploy => assert "deploy" != "pos_payment";
        case _ =>
      }
    }
  }

  /* ---------- paying out ---------- */

  /** One of the four sends: nothing for a zero share, a panic for a negative one. A module account
      may not pay a blocked address. */
  function Pay(book: Book, denom: string, from: string, to: string, amount: int, refused: bool): Option<Book> {
    if amount == 0 then Some(book) else if refused then None else Transfer(book, denom, from, to, amount)
  }

  function PayOptional(book: Book, denom: string, from: string, to: Option<string>, amount: int,
                       blocked: set<string>): Option<Book> {
    if to.None? then Some(book) else Pay(book, denom, from, to.value, amount, to.value in blocked)
  }

  /** The four sends in order; None when any of them fails, which rolls the step back. */
  function PayShares(book: Book, denom: string, from: string, s: Shares, r: Recipients,
                     blocked: set<string>): Option<Book> {
    var b1 :- Pay(book, denom, from, TREASURY, s.treasury, false);
    var b2 :- PayOptional(b1, denom, from, r.retail, s.retail, blocked);
    var b3 :- PayOptional(b2, denom, from, r.dev, s.dev, blocked);
    PayOptional(b3, denom, from, r.creator, s.creator, blocked)
  }

  function To(r: Option<string>, a: string, amount: int): int {
    if r == Some(a) then amount else 0
  }

  /** What address a receives of the shares. */
  function Received(s: Shares, r: Recipients, a: string): int {
    To(Some(TREASURY), a, s.treasury) + To(r.retail, a, s.retail) + To(r.dev, a, s.dev) + To(r.creator, a, s.creator)
  }

  /** `after` is `book` with `amount` of `denom` moved, and no supply changed. */
  ghost predicate Moved(book: Book, after: Book, denom: string, from: string, to: Option<string>, amount: int) {
    && (forall d :: Supply(after, d) == Supply(book, d))
    && (forall d, a :: Balance(after, d, a)
          == Balance(book, d, a) - (if d == denom && a == from then amount else 0)
                                 + (if d == denom then To(to, a, amount) else 0))
  }

  lemma PayMoves(book: Book, denom: string, from: string, to: string, amount: int, refused: bool)
    requires Pay(book, denom, from, to, amount, refused).Some?
    ensures Moved(book, Pay(book, denom, from, to, amount, refused).value, denom, from, Some(to), amount)
  {
    if amount != 0 {
      TransferEffect(book, denom, from, to, amount);
    }
  }

  lemma PayOptionalMoves(book: Book, denom: string, from: string, to: Option<string>, amount: int, blocked: set<string>)
    requires PayOptional(book, denom, from, to, amount, blocked).Some?
    requires to.None? ==> amount == 0
    ensures Moved(book, PayOptional(book, denom, from, to, amount, blocked).value, denom, from, to, amount)
  {
    if to.Some? {
      PayMoves(book, denom, from, to.value, amount, to.value in blocked);
    }
  }

  /** Paying out takes the sum of the shares from the payer, gives each recipient its shares, and
      keeps every supply, however payer and recipients coincide. */
  lemma PaySharesEffect(book: Book, denom: string, from: string, s: Shares, r: Recipients, blocked: set<string>)
    requires PayShares(book, denom, from, s, r, blocked).Some?
    requires r.retail.None? ==> s.retail == 0
    requires r.dev.None? ==> s.dev == 0
    requires r.creator.None? ==> s.creator == 0
    ensures var after := PayShares(book, denom, from, s, r, blocked).value;
            (forall d :: Supply(after, d) == Supply(book, d))
            && forall d, a :: Balance(after, d, a)
                 == Balance(book, d, a) - (if d == denom && a == from then s.Sum() else 0)
                                        + (if d == denom then Received(s, r, a) else 0)
  {
    hide Pay, PayOptional, Balance, Supply;
    var b1 := Pay(book, denom, from, TREASURY, s.treasury, false).value;
    PayMoves(book, denom, from, TREASURY, s.treasury, false);
    var b2 := PayOptional(b1, denom, from, r.retail, s.retail, blocked).value;
    PayOptionalMoves(b1, denom, from, r.retail, s.retail, blocked);
    var b3 := PayOptional(b2, denom, from, r.dev, s.dev, blocked).value;
    PayOptionalMoves(b2, denom, from, r.dev, s.dev, blocked);
    PayOptionalMoves(b3, denom, from, r.creator, s.creator, blocked);
  }

  /* ---------- when a distribution succeeds ---------- */

  /** No recipient is one the bank refuses to pay. */
  predicate Unblocked(r: Recipients, blocked: set<string>) {
    && (r.retail.Some? ==> r.retail.value !in blocked)
    && (r.dev.Some? ==> r.dev.value !in blocked)
    && (r.creator.Some? ==> r.creator.value !in blocked)
  }

  /** Of four payments that leave the payer at least the sum of those still to come, all go through. */
  lemma AffordablePays(book: Book, denom: string, from: string, to: Option<string>, amount: int,
                       blocked: set<string>, later: nat)
    requires amount >= 0 && Balance(book, denom, from) >= amount + later
    requires to.None? ==> amount == 0
    requires to.Some? ==> to.value !in blocked
    ensures var after := PayOptional(book, denom, from, to, amount, blocked);
            after.Some? && Balance(after.value, denom, from) >= later
  {
    hide Balance, Supply;
    if to.Some? && amount != 0 {
      TransferEffect(book, denom, from, to.value, amount);
    }
  }

  /** Paying out what is no more than the payer's balance to recipients that are not blocked fails
      only on a negative share; however payer and recipients coincide. */
  lemma PaySharesIff(book: Book, denom: string, from: string, s: Shares, r: Recipients, blocked: set<string>)
    requires r.retail.None? ==> s.retail == 0
    requires r.dev.None? ==> s.dev == 0
    requires r.creator.None? ==> s.creator == 0
    requires Balance(book, denom, from) >= s.Sum() && Unblocked(r, blocked)
    ensures PayShares(book, denom, from, s, r, blocked).Some? <==> s.NonNegative()
  {
    if s.NonNegative() {
      hide Balance, Transfer;
      AffordablePays(book, denom, from, Some(TREASURY), s.treasury, {}, s.retail + s.dev + s.creator);
      var b1 := Pay(book, denom, from, TREASURY, s.treasury, false).value;
      hide Pay, PayOptional;
      AffordablePays(b1, denom, from, r.retail, s.retail, blocked, s.dev + s.creator);
      var b2 := PayOptional(b1, denom, from, r.retail, s.retail, blocked).value;
      AffordablePays(b2, denom, from, r.dev, s.dev, blocked, s.creator);
      var b3 := PayOptional(b2, denom, from, r.dev, s.dev, blocked).value;
      AffordablePays(b3, denom, from, r.creator, s.creator, blocked, 0);
    } else if PayShares(book, denom, from, s, r, blocked).Some? {
      PaidAreNonNegative(book, denom, from, s, r, blocked);
    }
  }

  /** A negative share is a panic: what is paid out is never negative. */
  lemma PaidAreNonNegative(book: Book, denom: string, from: string, s: Shares, r: Recipients, blocked: set<string>)
    requires PayShares(book, denom, from, s, r, blocked).Some?
    requires r.retail.None? ==> s.retail == 0
    requires r.dev.None? ==> s.dev == 0
    requires r.creator.None? ==> s.creator == 0
    ensures s.NonNegative()
  {
    hide Balance;
  }

  /** With the funds there and nobody blocked, distributing an amount fails exactly when one of its
      final shares is negative. */
  lemma DistributionFailsIff(book: Book, denom: string, from: string, split: FeeSplit, amount: int,
                             r: Recipients, blocked: set<string>)
    requires Balance(book, denom, from) >= amount && Unblocked(r, blocked)
    ensures PayShares(book, denom, from, FinalShares(split, amount, r), r, blocked).None?
       <==> !FinalShares(split, amount, r).NonNegative()
  {
    hide FinalShares, PayShares, Balance;
    SumWithinAmount(split, amount, r);
    RemapClears(split, amount, r);
    PaySharesIff(book, denom, from, FinalShares(split, amount, r), r, blocked);
  }

  /** A split can be distributed for every amount that the payer has, to any recipients, exactly when
      it is payable. */
  lemma DistributionNeverFailsIff(split: FeeSplit, denom: string, from: string)
    ensures (forall book, amount, r :: 0 <= amount <= Balance(book, denom, from) ==>
               PayShares(book, denom, from, FinalShares(split, amount, r), r, {}).Some?)
       <==> Payable(split)
  {
    hide FinalShares, PayShares;
    if Payable(split) {
      forall book, amount, r | 0 <= amount <= Balance(book, denom, from)
        ensures PayShares(book, denom, from, FinalShares(split, amount, r), r, {}).Some?
      {
        SplitAlgebra(split, amount, r);
        DistributionFailsIff(book, denom, from, split, amount, r, {});
      }
    } else {
      var book: Book, all := map[denom := map[from := ONE]], Recipients(Some(""), Some(""), Some(""));
      WholeShares(split);
      DistributionFailsIff(book, denom, from, split, ONE, all, {});
      assert Balance(book, denom, from) == ONE;
      assert PayShares(book, denom, from, FinalShares(split, ONE, all), all, {}).None?;
    }
  }
}
