/** Deducting a transaction's fee, distributing it from the module account, and charging a fee by
    message: the ledger before and after, for one step and over runs. */
module FeeCollection {
  import opened Common
  import opened Decimal
  import opened Wire
  import opened FeeParams
  import opened FeeEstimate
  import opened Ledger
  import opened Distribution

  /** The accounts known to x/auth, the addresses the bank refuses to pay from a module, and the
      address codec. */
  datatype Chain = Chain(known: set<string>, blocked: set<string>, decode: AddressCodec)

  /* ---------- specification ---------- */

  /** DistributeFeeFromModule on the fees account. The ante handler passes no metadata. */
  function DistributeFromModule(book: Book, c: Chain, p: Params, feeType: string, coin: Coin): Option<Book> {
    var r := Resolve(p, map[], c.decode);
    var split := ConfigByType(p.feeTableUsd, feeType, true).split;
    PayShares(book, coin.denom, FEES, FinalShares(split, coin.amount, r), r, c.blocked)
  }

  /** DistributeFee from a paying account. */
  function DistributeFrom(book: Book, c: Chain, p: Params, sender: string, feeType: string, coin: Coin,
                          md: map<string, string>): Option<Book> {
    var r := Resolve(p, md, c.decode);
    var split := ConfigByType(p.feeTableUsd, feeType, false).split;
    PayShares(book, coin.denom, sender, FinalShares(split, coin.amount, r), r, {})
  }

  /** The bank takes positive amounts only. */
  function DeductAll(book: Book, payer: string, fee: seq<Coin>): Option<Book>
    decreases |fee|
  {
    if fee == [] then Some(book)
    else if fee[0].amount <= 0 then None
    else
      var b :- Transfer(book, fee[0].denom, payer, FEES, fee[0].amount);
      DeductAll(b, payer, fee[1..])
  }

  function DistributeAll(book: Book, c: Chain, p: Params, feeType: string, fee: seq<Coin>): Option<Book>
    decreases |fee|
  {
    if fee == [] then Some(book)
    else
      var b :- DistributeFromModule(book, c, p, feeType, fee[0]);
      DistributeAll(b, c, p, feeType, fee[1..])
  }

  /** DeductFeeDecorator.AnteHandle when not simulating. */
  function Collect(book: Book, c: Chain, p: Params, payer: string, fee: seq<Coin>, feeType: string): Option<Book> {
    if IsZero(fee) then Some(book)
    else if payer !in c.known then None
    else
      var b :- DeductAll(book, payer, fee);
      DistributeAll(b, c, p, feeType, fee)
  }

  /* ---------- what it does to the ledger ---------- */

  function CoinTotal(fee: seq<Coin>, denom: string): int {
    if fee == [] then 0 else (if fee[0].denom == denom then fee[0].amount else 0) + CoinTotal(fee[1..], denom)
  }

  function CoinCount(fee: seq<Coin>, denom: string): nat {
    if fee == [] then 0 else (if fee[0].denom == denom then 1 else 0) + CoinCount(fee[1..], denom)
  }

  /** What the shares of the coins of one denomination add up to. */
  function PaidOut(split: FeeSplit, r: Recipients, fee: seq<Coin>, denom: string): int {
    if fee == [] then 0
    else
      (if fee[0].denom == denom then FinalShares(split, fee[0].amount, r).Sum() else 0)
      + PaidOut(split, r, fee[1..], denom)
  }

  lemma {:induction false} DeductEffect(book: Book, payer: string, fee: seq<Coin>)
    requires DeductAll(book, payer, fee).Some?
    ensures var after := DeductAll(book, payer, fee).value;
            (forall d :: Supply(after, d) == Supply(book, d))
            && (forall k :: 0 <= k < |fee| ==> fee[k].amount > 0)
            && (payer != FEES ==> forall d ::
                  Balance(after, d, FEES) == Balance(book, d, FEES) + CoinTotal(fee, d)
                  && Balance(after, d, payer) == Balance(book, d, payer) - CoinTotal(fee, d))
    decreases |fee|
  {
    hide Balance, Supply, Transfer;
    if fee != [] {
      var b := Transfer(book, fee[0].denom, payer, FEES, fee[0].amount).value;
      TransferEffect(book, fee[0].denom, payer, FEES, fee[0].amount);
      DeductEffect(b, payer, fee[1..]);
      assert forall k :: 0 < k < |fee| ==> fee[k] == fee[1..][k - 1];
    }
  }

  /** None of the recipients is the fees module account. */
  ghost predicate Outside(r: Recipients) {
    r.retail != Some(FEES) && r.dev != Some(FEES) && r.creator != Some(FEES)
  }

  /** What a distribution pays out is never negative: a negative share is a panic. */
  lemma DistributedIsNonNegative(book: Book, c: Chain, p: Params, feeType: string, coin: Coin)
    requires DistributeFromModule(book, c, p, feeType, coin).Some?
    ensures FinalShares(ConfigByType(p.feeTableUsd, feeType, true).split, coin.amount,
                        Resolve(p, map[], c.decode)).NonNegative()
  {
    hide FinalShares, PayShares, ConfigByType, Resolve;
    var split, r := ConfigByType(p.feeTableUsd, feeType, true).split, Resolve(p, map[], c.decode);
    RemapClears(split, coin.amount, r);
    PaidAreNonNegative(book, coin.denom, FEES, FinalShares(split, coin.amount, r), r, c.blocked);
  }

  lemma {:induction false} DistributeEffect(book: Book, c: Chain, p: Params, feeType: string, fee: seq<Coin>)
    requires DistributeAll(book, c, p, feeType, fee).Some?
    ensures var after := DistributeAll(book, c, p, feeType, fee).value;
            var split, r := ConfigByType(p.feeTableUsd, feeType, true).split, Resolve(p, map[], c.decode);
            (forall d :: Supply(after, d) == Supply(book, d))
            && (Outside(r) ==>
                  forall d :: Balance(after, d, FEES) == Balance(book, d, FEES) - PaidOut(split, r, fee, d))
    decreases |fee|
  {
    hide Balance, Supply, PayShares, FinalShares, ConfigByType, Resolve;
    if fee != [] {
      var split, r := ConfigByType(p.feeTableUsd, feeType, true).split, Resolve(p, map[], c.decode);
      var s := FinalShares(split, fee[0].amount, r);
      var b := DistributeFromModule(book, c, p, feeType, fee[0]).value;
      RemapClears(split, fee[0].amount, r);
      PaySharesEffect(book, fee[0].denom, FEES, s, r, c.blocked);
      assert Outside(r) ==> Received(s, r, FEES) == 0;
      DistributeEffect(b, c, p, feeType, fee[1..]);
    }
  }

  lemma {:induction false} DustBounds(split: FeeSplit, r: Recipients, fee: seq<Coin>, denom: string)
    requires forall k :: 0 <= k < |fee| ==> fee[k].amount > 0
    ensures 0 <= CoinTotal(fee, denom) - PaidOut(split, r, fee, denom)
    ensures SplitTotal(split) >= ONE ==>
              CoinTotal(fee, denom) - PaidOut(split, r, fee, denom) <= 3 * CoinCount(fee, denom)
    decreases |fee|
  {
    hide FinalShares;
    if fee != [] {
      DustIsAtMostThree(split, fee[0].amount, r);
      DustBounds(split, r, fee[1..], denom);
    }
  }

  /** Deduct-then-distribute keeps the supply of every denomination, whoever payer and recipients
      are and whatever the split. When the fees account is none of them, it never loses; and when the
      split sums to one or more, it keeps at most three units per coin of a denomination. */
  lemma CollectConserves(book: Book, c: Chain, p: Params, payer: string, fee: seq<Coin>, feeType: string)
    requires Collect(book, c, p, payer, fee, feeType).Some?
    ensures var after := Collect(book, c, p, payer, fee, feeType).value;
            forall d :: Supply(after, d) == Supply(book, d)
    ensures var after := Collect(book, c, p, payer, fee, feeType).value;
            var split := ConfigByType(p.feeTableUsd, feeType, true).split;
            payer != FEES && Outside(Resolve(p, map[], c.decode)) ==>
              forall d ::
                var kept := Balance(after, d, FEES) - Balance(book, d, FEES);
                0 <= kept && (SplitTotal(split) >= ONE ==> kept <= 3 * CoinCount(fee, d))
  {
    hide Balance, Supply, ConfigByType, Resolve, DeductAll, DistributeAll;
    if !IsZero(fee) {
      var b := DeductAll(book, payer, fee).value;
      DeductEffect(book, payer, fee);
      DistributeEffect(b, c, p, feeType, fee);
      var split, r := ConfigByType(p.feeTableUsd, feeType, true).split, Resolve(p, map[], c.decode);
      forall d
        ensures 0 <= CoinTotal(fee, d) - PaidOut(split, r, fee, d)
        ensures SplitTotal(split) >= ONE ==> CoinTotal(fee, d) - PaidOut(split, r, fee, d) <= 3 * CoinCount(fee, d)
      {
        DustBounds(split, r, fee, d);
      }
    }
  }

  /* ---------- runs ---------- */

  /** A transaction as the decorator sees it, with the parameters in force at its block. */
  datatype Tx = Tx(params: Params, payer: string, fee: seq<Coin>, feeType: string)

  /** A transaction whose fee cannot be collected leaves the ledger as it was. */
  function CollectTx(book: Book, c: Chain, tx: Tx): Book {
    var after := Collect(book, c, tx.params, tx.payer, tx.fee, tx.feeType);
    if after.Some? then after.value else book
  }

  function CollectRun(book: Book, c: Chain, txs: seq<Tx>): Book
    decreases |txs|
  {
    if txs == [] then book else CollectRun(CollectTx(book, c, txs[0]), c, txs[1..])
  }

  function RunCount(txs: seq<Tx>, denom: string): nat {
    if txs == [] then 0 else CoinCount(txs[0].fee, denom) + RunCount(txs[1..], denom)
  }

  /** The fees account is neither payer nor recipient. */
  ghost predicate Separate(c: Chain, tx: Tx) {
    tx.payer != FEES && Outside(Resolve(tx.params, map[], c.decode))
  }

  /** And the split that applies, as every charged one that validates, sums to one; or more. */
  ghost predicate Proper(c: Chain, tx: Tx) {
    Separate(c, tx) && SplitTotal(SplitOfTx(tx)) >= ONE
  }

  function SplitOfTx(tx: Tx): FeeSplit {
    ConfigByType(tx.params.feeTableUsd, tx.feeType, true).split
  }

  lemma CollectTxEffect(book: Book, c: Chain, tx: Tx)
    ensures var after := CollectTx(book, c, tx);
            (forall d :: Supply(after, d) == Supply(book, d))
            && (Separate(c, tx) ==> forall d :: Balance(after, d, FEES) >= Balance(book, d, FEES))
            && (Proper(c, tx) ==> forall d ::
                  Balance(after, d, FEES) - Balance(book, d, FEES) <= 3 * CoinCount(tx.fee, d))
  {
    hide Balance, Supply, ConfigByType, Resolve, Collect;
    if Collect(book, c, tx.params, tx.payer, tx.fee, tx.feeType).Some? {
      CollectConserves(book, c, tx.params, tx.payer, tx.fee, tx.feeType);
    }
  }

  /** Over any run of any transactions no supply ever changes. While the fees account is neither payer
      nor recipient it never loses; and over a run of proper transactions, what it accumulates is
      bounded by three units per coin ever distributed. */
  lemma {:induction false} RunConserves(book: Book, c: Chain, txs: seq<Tx>, denom: string)
    ensures Supply(CollectRun(book, c, txs), denom) == Supply(book, denom)
    ensures (forall k :: 0 <= k < |txs| ==> Separate(c, txs[k])) ==>
              Balance(CollectRun(book, c, txs), denom, FEES) >= Balance(book, denom, FEES)
    ensures (forall k :: 0 <= k < |txs| ==> Proper(c, txs[k])) ==>
              Balance(CollectRun(book, c, txs), denom, FEES) - Balance(book, denom, FEES) <= 3 * RunCount(txs, denom)
    decreases |txs|
  {
    hide Balance, Supply, CollectTx, Proper, Separate;
    if txs != [] {
      CollectTxEffect(book, c, txs[0]);
      RunConserves(CollectTx(book, c, txs[0]), c, txs[1..], denom);
      assert forall k :: 0 <= k < |txs[1..]| ==> txs[1..][k] == txs[k + 1];
    }
  }

  /* ---------- when collection succeeds ---------- */

  ghost predicate Positive(fee: seq<Coin>) {
    forall k :: 0 <= k < |fee| ==> fee[k].amount > 0
  }

  ghost predicate Covers(book: Book, addr: string, fee: seq<Coin>) {
    forall d :: Balance(book, d, addr) >= CoinTotal(fee, d)
  }

  lemma {:induction false} PositiveTotal(fee: seq<Coin>, denom: string)
    requires Positive(fee)
    ensures CoinTotal(fee, denom) >= 0
  {
    if fee != [] {
      assert forall k :: 0 <= k < |fee[1..]| ==> fee[1..][k] == fee[k + 1];
      PositiveTotal(fee[1..], denom);
    }
  }

  /** Deduction succeeds exactly for positive coins that the payer's balances cover. */
  lemma {:induction false} DeductIff(book: Book, payer: string, fee: seq<Coin>)
    requires payer != FEES
    ensures DeductAll(book, payer, fee).Some? <==> Positive(fee) && Covers(book, payer, fee)
    decreases |fee|
  {
    hide Balance, Supply;
    if DeductAll(book, payer, fee).Some? {
      DeductEffect(book, payer, fee);
    } else if Positive(fee) && Covers(book, payer, fee) {
      var d0, rest := fee[0].denom, fee[1..];
      assert forall k :: 0 <= k < |rest| ==> rest[k] == fee[k + 1];
      PositiveTotal(rest, d0);
      assert Balance(book, d0, payer) >= CoinTotal(fee, d0);
      var b := Transfer(book, d0, payer, FEES, fee[0].amount).value;
      TransferEffect(book, d0, payer, FEES, fee[0].amount);
      hide Transfer;
      assert Covers(b, payer, rest) by {
        forall d ensures Balance(b, d, payer) >= CoinTotal(rest, d) {
          assert Balance(book, d, payer) >= CoinTotal(fee, d);
        }
      }
      DeductIff(b, payer, rest);
    }
  }

  /** None of the coins has a negative share. */
  ghost predicate SharesOk(split: FeeSplit, r: Recipients, fee: seq<Coin>) {
    forall k :: 0 <= k < |fee| ==> FinalShares(split, fee[k].amount, r).NonNegative()
  }

  /** From funds that cover the coins, to recipients that are not blocked, distribution fails exactly
      on a negative share. */
  lemma {:induction false} DistributeIff(book: Book, c: Chain, p: Params, feeType: string, fee: seq<Coin>)
    requires var r := Resolve(p, map[], c.decode); Outside(r) && Unblocked(r, c.blocked)
    requires Positive(fee) && Covers(book, FEES, fee)
    ensures DistributeAll(book, c, p, feeType, fee).Some?
       <==> SharesOk(ConfigByType(p.feeTableUsd, feeType, true).split, Resolve(p, map[], c.decode), fee)
    decreases |fee|
  {
    hide Balance, Supply, PayShares, FinalShares, ConfigByType, Resolve, Unblocked;
    if fee != [] {
      var split, r := ConfigByType(p.feeTableUsd, feeType, true).split, Resolve(p, map[], c.decode);
      var d0, rest, s := fee[0].denom, fee[1..], FinalShares(split, fee[0].amount, r);
      assert forall k :: 0 <= k < |rest| ==> rest[k] == fee[k + 1];
      assert SharesOk(split, r, fee) <==> s.NonNegative() && SharesOk(split, r, rest) by {
        assert forall k :: 0 < k < |fee| ==> fee[k] == rest[k - 1];
      }
      PositiveTotal(rest, d0);
      assert Balance(book, d0, FEES) >= CoinTotal(fee, d0);
      DistributionFailsIff(book, d0, FEES, split, fee[0].amount, r, c.blocked);
      if s.NonNegative() {
        var b := DistributeFromModule(book, c, p, feeType, fee[0]).value;
        SumWithinAmount(split, fee[0].amount, r);
        RemapClears(split, fee[0].amount, r);
        PaySharesEffect(book, d0, FEES, s, r, c.blocked);
        assert Received(s, r, FEES) == 0;
        assert Covers(b, FEES, rest) by {
          forall d ensures Balance(b, d, FEES) >= CoinTotal(rest, d) {
            assert Balance(book, d, FEES) >= CoinTotal(fee, d);
          }
        }
        DistributeIff(b, c, p, feeType, rest);
      }
    }
  }

  /** When the fees account is neither payer nor recipient and no recipient is blocked, collecting a
      fee succeeds exactly when there is none, or the payer is a known account that covers positive
      coins none of which has a negative share; however payer and recipients coincide. A payable
      split has no negative shares. */
  lemma CollectIff(book: Book, c: Chain, tx: Tx)
    requires Separate(c, tx) && Unblocked(Resolve(tx.params, map[], c.decode), c.blocked)
    ensures Collect(book, c, tx.params, tx.payer, tx.fee, tx.feeType).Some?
       <==> IsZero(tx.fee)
            || (tx.payer in c.known && Positive(tx.fee) && Covers(book, tx.payer, tx.fee)
                && SharesOk(SplitOfTx(tx), Resolve(tx.params, map[], c.decode), tx.fee))
    ensures Payable(SplitOfTx(tx)) && Positive(tx.fee) ==>
              SharesOk(SplitOfTx(tx), Resolve(tx.params, map[], c.decode), tx.fee)
  {
    hide Balance, Supply, ConfigByType, Resolve, Unblocked, DeductAll, DistributeAll, FinalShares, Payable;
    DeductIff(book, tx.payer, tx.fee);
    if DeductAll(book, tx.payer, tx.fee).Some? {
      var b := DeductAll(book, tx.payer, tx.fee).value;
      DeductEffect(book, tx.payer, tx.fee);
      assert Covers(b, FEES, tx.fee);
      DistributeIff(b, c, tx.params, tx.feeType, tx.fee);
    }
    if Payable(SplitOfTx(tx)) && Positive(tx.fee) {
      forall k | 0 <= k < |tx.fee|
        ensures FinalShares(SplitOfTx(tx), tx.fee[k].amount, Resolve(tx.params, map[], c.decode)).NonNegative()
      {
        SplitAlgebra(SplitOfTx(tx), tx.fee[k].amount, Resolve(tx.params, map[], c.decode));
      }
    }
  }

  /* ---------- ChargeFee ---------- */

  /** The table entry of a chargeable category. */
  function ChargeConfig(t: FeeTableUSD, category: string): Option<FeeConfig> {
    if category == "pos_payment" then Some(t.posPayment)
    else if category == "token_interaction" then Some(t.tokenInteraction)
    else if category == "native_transfer" then Some(t.nativeTransfer)
    else if category == "dex_native" then Some(t.dexNative)
    else if category == "dex_user" then Some(t.dexUser)
    else if category == "deploy" then Some(t.deploy)
    else if category == "wizard" then Some(t.wizard)
    else None
  }

  function FeeInUcsv(usd: Dec, rate: Option<Dec>): int {
    TruncateInt(MulInt(ConvertUSDToCSV(usd, rate), MICRO))
  }

  /** ChargeFee: the ledger after it and the fee it reports. None is an error or a panic: a bad
      address or category, too little balance, a negative fee or one that does not fit the gas
      meter, or a failed payment. */
  function ChargeFee(book: Book, c: Chain, p: Params, creator: string, category: string,
                     md: map<string, string>, rate: Option<Dec>): Option<(Book, int)> {
    var sender :- c.decode(creator);
    var config :- ChargeConfig(p.feeTableUsd, category);
    if category == "deploy" || category == "wizard" then Some((book, 0))
    else
      var fee := FeeInUcsv(config.usdAmount, rate);
      if Balance(book, CSV_DENOM, sender) < fee || fee < 0 then None
      else
        var after :- DistributeFrom(book, c, p, sender, category, Coin(CSV_DENOM, fee), md);
        if fee >= TWO_TO_THE_64 then None else Some((after, fee))
  }

  /** The entry a fee is charged by is the one it is distributed by. */
  lemma ChargedAndDistributedAlike(t: FeeTableUSD, category: string)
    requires ChargeConfig(t, category).Some? && category != "deploy" && category != "wizard"
    ensures ConfigByType(t, category, false) == ChargeConfig(t, category).value
  {
  }

  /** Charging keeps every supply. Free categories move nothing. For the others the sender pays out
      shares that are non-negative and at most the reported fee, gets back what he is a recipient of
      himself, and no other denomination is touched; and with a split that sums to one or more he
      pays out the reported fee less at most three units. */
  lemma ChargeFeeMovesTheFee(book: Book, c: Chain, p: Params, creator: string, category: string,
                             md: map<string, string>, rate: Option<Dec>)
    requires ChargeFee(book, c, p, creator, category, md, rate).Some?
    ensures var (after, charged) := ChargeFee(book, c, p, creator, category, md, rate).value;
            var sender, r := c.decode(creator).value, Resolve(p, md, c.decode);
            var split := ChargeConfig(p.feeTableUsd, category).value.split;
            var s := FinalShares(split, charged, r);
            (forall d :: Supply(after, d) == Supply(book, d))
            && (category == "deploy" || category == "wizard" ==> after == book && charged == 0)
            && (category != "deploy" && category != "wizard" ==>
                  s.NonNegative() && s.Sum() <= charged && (SplitTotal(split) >= ONE ==> charged - 3 <= s.Sum())
                  && Balance(after, CSV_DENOM, sender)
                       == Balance(book, CSV_DENOM, sender) - s.Sum() + Received(s, r, sender)
                  && forall d, a :: d != CSV_DENOM ==> Balance(after, d, a) == Balance(book, d, a))
  {
    hide Balance, Supply, PayShares, FinalShares, ConfigByType, ChargeConfig, Resolve, FeeInUcsv;
    var (after, charged) := ChargeFee(book, c, p, creator, category, md, rate).value;
    var sender, r := c.decode(creator).value, Resolve(p, md, c.decode);
    var split := ChargeConfig(p.feeTableUsd, category).value.split;
    if category != "deploy" && category != "wizard" {
      ChargedAndDistributedAlike(p.feeTableUsd, category);
      RemapClears(split, charged, r);
      PaidAreNonNegative(book, CSV_DENOM, sender, FinalShares(split, charged, r), r, {});
      PaySharesEffect(book, CSV_DENOM, sender, FinalShares(split, charged, r), r, {});
      DustIsAtMostThree(split, charged, r);
    }
  }

  /** A charge succeeds exactly when the address decodes, the category is chargeable and, unless it is
      free, the fee is not negative, fits the gas meter, is covered by the sender's balance and has
      no negative share, as it has none with a payable split. */
  lemma ChargeFeeIff(book: Book, c: Chain, p: Params, creator: string, category: string,
                     md: map<string, string>, rate: Option<Dec>)
    ensures ChargeFee(book, c, p, creator, category, md, rate).Some?
       <==> c.decode(creator).Some? && ChargeConfig(p.feeTableUsd, category).Some?
            && (category == "deploy" || category == "wizard"
                || var config := ChargeConfig(p.feeTableUsd, category).value;
                   var fee := FeeInUcsv(config.usdAmount, rate);
                   0 <= fee < TWO_TO_THE_64 && fee <= Balance(book, CSV_DENOM, c.decode(creator).value)
                   && (Payable(config.split) || FinalShares(config.split, fee, Resolve(p, md, c.decode)).NonNegative()))
  {
    hide Balance, PayShares, FinalShares, ConfigByType, ChargeConfig, Resolve, FeeInUcsv, Payable;
    var sender, config := c.decode(creator), ChargeConfig(p.feeTableUsd, category);
    if sender.Some? && config.Some? && category != "deploy" && category != "wizard" {
      var fee, r := FeeInUcsv(config.value.usdAmount, rate), Resolve(p, md, c.decode);
      if 0 <= fee <= Balance(book, CSV_DENOM, sender.value) {
        ChargedAndDistributedAlike(p.feeTableUsd, category);
        DustIsAtMostThree(config.value.split, fee, r);
        DistributionFailsIff(book, CSV_DENOM, sender.value, config.value.split, fee, r, {});
      }
    }
  }
}
