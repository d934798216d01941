/** From the estimate to the ledger: what an admitted transaction's payer ends up paying. */
module FeeFlow {
  import opened Common
  import opened Decimal
  import opened Wire
  import opened FeeParams
  import opened Classify
  import opened FeeEstimate
  import opened Ledger
  import opened Distribution
  import opened FeeCollection

  /** The denominations of a coin list are distinct, as the bank demands. */
  ghost predicate DistinctDenoms(fee: seq<Coin>) {
    forall i, j :: 0 <= i < j < |fee| ==> fee[i].denom != fee[j].denom
  }

  lemma {:induction false} AbsentTotal(fee: seq<Coin>, denom: string)
    requires forall k :: 0 <= k < |fee| ==> fee[k].denom != denom
    ensures CoinTotal(fee, denom) == 0
  {
    if fee != [] {
      AbsentTotal(fee[1..], denom);
    }
  }

  lemma {:induction false} AmountIsTotal(fee: seq<Coin>, denom: string)
    requires DistinctDenoms(fee)
    ensures AmountOf(fee, denom) == CoinTotal(fee, denom)
  {
    if fee != [] {
      if fee[0].denom == denom {
        AbsentTotal(fee[1..], denom);
      } else {
        AmountIsTotal(fee[1..], denom);
      }
    }
  }

  /** An address that receives nothing from a distribution. */
  ghost predicate Bystander(r: Recipients, a: string) {
    a != FEES && a != TREASURY && r.retail != Some(a) && r.dev != Some(a) && r.creator != Some(a)
  }

  /** Distribution touches the balances of the module, the treasury and the recipients only. */
  lemma {:induction false} DistributeSparesOthers(book: Book, c: Chain, p: Params, feeType: string,
                                                  fee: seq<Coin>, a: string)
    requires DistributeAll(book, c, p, feeType, fee).Some? && Bystander(Resolve(p, map[], c.decode), a)
    ensures forall d :: Balance(DistributeAll(book, c, p, feeType, fee).value, d, a) == Balance(book, d, a)
    decreases |fee|
  {
    hide Balance, Supply, PayShares, FinalShares, ConfigByType, Resolve;
    if fee != [] {
      var split, r := ConfigByType(p.feeTableUsd, feeType, true).split, Resolve(p, map[], c.decode);
      var s := FinalShares(split, fee[0].amount, r);
      var b := DistributeFromModule(book, c, p, feeType, fee[0]).value;
      RemapClears(split, fee[0].amount, r);
      PaySharesEffect(book, fee[0].denom, FEES, s, r, c.blocked);
      assert Received(s, r, a) == 0;
      DistributeSparesOthers(b, c, p, feeType, fee[1..], a);
    }
  }

  /** What a bystander pays for a collected fee is the fee. */
  lemma PayerPaysTheFee(book: Book, c: Chain, p: Params, payer: string, fee: seq<Coin>, feeType: string)
    requires Collect(book, c, p, payer, fee, feeType).Some? && Bystander(Resolve(p, map[], c.decode), payer)
    requires DistinctDenoms(fee)
    ensures var after := Collect(book, c, p, payer, fee, feeType).value;
            forall d :: Balance(after, d, payer) == Balance(book, d, payer) - AmountOf(fee, d)
  {
    hide Balance, DeductAll, DistributeAll, Resolve;
    forall d ensures AmountOf(fee, d) == CoinTotal(fee, d) {
      AmountIsTotal(fee, d);
    }
    if IsZero(fee) {
      forall d ensures AmountOf(fee, d) == 0 {
        ZeroCoinsHaveNone(fee, d);
      }
    } else {
      var b := DeductAll(book, payer, fee).value;
      DeductEffect(book, payer, fee);
      DistributeSparesOthers(b, c, p, feeType, fee, payer);
    }
  }

  /** The whole path of a transaction that is admitted in table or hybrid mode, is not free, and
      whose fee is collected: its payer, when he is none of the recipients, loses an amount of ucsv
      within a twentieth of what the estimate asks, which is at least what the minimum gas price
      asks and at most what the maximum one does; and no supply changes. */
  lemma AdmittedPayerPaysWithinRails(book: Book, c: Chain, p: Params, msgs: seq<Msg>, memo: Memo,
                                     payer: string, fee: seq<Coin>, gasWanted: UInt64, rate: Option<Dec>)
    requires GoodRails(p.guardRails) && p.guardRails.minGasPriceCsv > 0 && 0 < gasWanted < TWO_TO_THE_63
    requires p.feeMode != GAS_ONLY && DistinctDenoms(fee) && Bystander(Resolve(p, map[], c.decode), payer)
    requires var admission := Ante(Some(p), false, TxCategory(p, msgs, memo), fee, gasWanted, rate);
             admission.Admitted? && !admission.estimate.isFree
             && Collect(book, c, p, payer, fee, CategoryText(admission.estimate.category)).Some?
    ensures var estimate := Ante(Some(p), false, TxCategory(p, msgs, memo), fee, gasWanted, rate).estimate;
            var after := Collect(book, c, p, payer, fee, CategoryText(estimate.category)).value;
            var lost := Balance(book, CSV_DENOM, payer) - Balance(after, CSV_DENOM, payer);
            var asked := Asked(estimate.csvAmount);
            asked - asked / 20 <= lost <= asked + asked / 20
            && Asked(p.guardRails.minGasPriceCsv * gasWanted) <= asked
               <= Asked(p.guardRails.maxGasPriceCsv * gasWanted + gasWanted - 1)
            && forall d :: Supply(after, d) == Supply(book, d)
  {
    hide Balance, Supply, Collect, Ante, Asked, Resolve, TxCategory, DistinctDenoms;
    var category := TxCategory(p, msgs, memo);
    AdmissionInterval(p, category, fee, gasWanted, rate);
    var feeType := CategoryText(Ante(Some(p), false, category, fee, gasWanted, rate).estimate.category);
    PayerPaysTheFee(book, c, p, payer, fee, feeType);
    CollectConserves(book, c, p, payer, fee, feeType);
  }
}
