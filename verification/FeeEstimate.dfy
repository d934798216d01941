/** Estimating a fee, clamping it to the gas-price rails, and admitting a transaction that pays it
    within the tolerance. */
module FeeEstimate {
  import opened Common
  import opened Decimal
  import opened Wire
  import opened FeeParams
  import opened Classify

  const MICRO := 1_000_000
  const CSV_DENOM := "ucsv"
  /** LegacyNewDecWithPrec(5, 2) */
  const TOLERANCE: Dec := 50_000_000_000_000_000

  datatype Coin = Coin(denom: string, amount: int)

  /** `gasPrice` is a nil decimal when no gas was asked for. */
  datatype Estimate = Estimate(
    category: Category, usdAmount: Dec, csvAmount: Dec, gasWanted: UInt64, gasPrice: Option<Dec>, isFree: bool)

  /* ---------- the guard rails ---------- */

  /** int64(gasWanted) is negative from 2^63 on. */
  function GasInt(gasWanted: UInt64): int { AsInt64(gasWanted) }

  function ApplyGuardRails(csvAmount: Dec, gasWanted: UInt64, rails: GuardRails): Dec {
    if gasWanted == 0 then csvAmount
    else
      var gasPrice := QuoInt(csvAmount, GasInt(gasWanted));
      var raised :=
        if gasPrice < rails.minGasPriceCsv then MulInt(rails.minGasPriceCsv, GasInt(gasWanted)) else csvAmount;
      if gasPrice > rails.maxGasPriceCsv then MulInt(rails.maxGasPriceCsv, GasInt(gasWanted)) else raised
  }

  /** For validated rails and gas that fits int64, the clamped fee is at least Min * gas, exceeds
      Max * gas by less than one unit in the last place per unit of gas, reports a gas price inside
      the rails, and clamping again changes nothing. */
  lemma GuardRailsClamp(csvAmount: Dec, gasWanted: UInt64, rails: GuardRails)
    requires GoodRails(rails) && csvAmount >= 0 && 0 < gasWanted < TWO_TO_THE_63
    ensures var fee := ApplyGuardRails(csvAmount, gasWanted, rails);
            rails.minGasPriceCsv * gasWanted <= fee < rails.maxGasPriceCsv * gasWanted + gasWanted
            && rails.minGasPriceCsv <= QuoInt(fee, gasWanted) <= rails.maxGasPriceCsv
            && ApplyGuardRails(fee, gasWanted, rails) == fee
  {
    ClampBounds(csvAmount, gasWanted, rails.minGasPriceCsv, rails.maxGasPriceCsv);
  }

  lemma ClampBounds(csv: int, gas: int, min: int, max: int)
    requires 0 <= min <= max && csv >= 0 && gas > 0
    ensures var fee := if csv / gas > max then max * gas else if csv / gas < min then min * gas else csv;
            min * gas <= fee < max * gas + gas && min <= fee / gas <= max && fee >= 0
  {
    var price := csv / gas;
    MulLe(gas, 0, min);
    MulLe(gas, min, max);
    if price > max {
      DivIs(max * gas, gas, max);
    } else if price < min {
      DivIs(min * gas, gas, min);
    } else {
      DivBounds(csv, gas);
      MulLe(gas, min, price);
      MulLe(gas, price, max);
    }
  }

  /** When a clamped fee exceeds Max * gas: exactly when the converted fee already did, by less than
      one unit in the last place per unit of gas, because the rail is applied to a truncated price. */
  lemma ExceedsMaxIff(csvAmount: Dec, gasWanted: UInt64, rails: GuardRails)
    requires GoodRails(rails) && csvAmount >= 0 && 0 < gasWanted < TWO_TO_THE_63
    ensures var max := rails.maxGasPriceCsv * gasWanted;
            ApplyGuardRails(csvAmount, gasWanted, rails) > max <==> max < csvAmount < max + gasWanted
  {
    ClampAboveIff(csvAmount, gasWanted, rails.minGasPriceCsv, rails.maxGasPriceCsv);
  }

  lemma ClampAboveIff(csv: int, gas: int, min: int, max: int)
    requires 0 <= min <= max && csv >= 0 && gas > 0
    ensures var fee := if csv / gas > max then max * gas else if csv / gas < min then min * gas else csv;
            fee > max * gas <==> max * gas < csv < max * gas + gas
  {
    DivAtLeast(csv, gas, max + 1);
    DivAtLeast(csv, gas, min);
    MulLe(gas, min, max);
    NextMultiple(gas, max);
  }

  lemma NextMultiple(gas: int, max: int)
    ensures gas * (max + 1) == max * gas + gas
  {
  }

  /** There are such fees. */
  lemma ClampIsNotExact()
    ensures exists csvAmount: Dec, gasWanted: UInt64, rails ::
              GoodRails(rails) && csvAmount >= 0 && 0 < gasWanted < TWO_TO_THE_63
              && ApplyGuardRails(csvAmount, gasWanted, rails) > rails.maxGasPriceCsv * gasWanted
  {
    var rails := GuardRails(0, 1, 1, 1);
    assert ApplyGuardRails(3, 2, rails) == 3;
  }

  /* ---------- the price ---------- */

  /** GetCSVUSDPrice: the oracle's rate when there is one and it is not zero, else one. */
  function CsvPerUsd(rate: Option<Dec>): Dec {
    if rate.Some? && rate.value != 0 then rate.value else ONE
  }

  function ConvertUSDToCSV(usd: Dec, rate: Option<Dec>): Dec { Mul(usd, CsvPerUsd(rate)) }

  /* ---------- EstimateFee ---------- */

  function ConfigFor(t: FeeTableUSD, category: Category): FeeConfig {
    match category
    case POS => t.posPayment
    case TokenInteraction => t.tokenInteraction
    case NativeTransfer => t.nativeTransfer
    case DexNative => t.dexNative
    case DexUser => t.dexUser
    case Deploy => t.deploy
    case Wizard => t.wizard
    case _ => t.nativeTransfer
  }

  function MaxGasForFree(category: Category, rails: GuardRails): UInt64 {
    match category
    case Deploy => rails.maxGasDeploy
    case Wizard => rails.maxGasWizard
    case _ => 0
  }

  /** EstimateFee after classification; None is the free tier's gas error. */
  function EstimateFor(p: Params, category: Category, gasWanted: UInt64, rate: Option<Dec>): Option<Estimate> {
    if category == System then Some(Estimate(category, 0, 0, gasWanted, Some(0), true))
    else
      var config := ConfigFor(p.feeTableUsd, category);
      if (category == Deploy || category == Wizard) && config.usdAmount == 0 then
        if gasWanted > MaxGasForFree(category, p.guardRails) then None
        else Some(Estimate(category, 0, 0, gasWanted, Some(0), true))
      else
        var csv := ApplyGuardRails(ConvertUSDToCSV(config.usdAmount, rate), gasWanted, p.guardRails);
        Some(Estimate(category, config.usdAmount, csv, gasWanted,
                      if gasWanted > 0 then Some(QuoInt(csv, GasInt(gasWanted))) else None, false))
  }

  method EstimateFee(p: Params, msgs: seq<Msg>, memo: Memo, gasWanted: UInt64, rate: Option<Dec>)
    returns (estimate: Option<Estimate>)
    ensures estimate == EstimateFor(p, TxCategory(p, msgs, memo), gasWanted, rate)
  {
    hide Mul, QuoInt, MulInt;
    var expanded := ExpandMessages(msgs, 4);
    var category := ClassifyTransaction(p, expanded, memo);
    if category == System {
      return Some(Estimate(category, 0, 0, gasWanted, Some(0), true));
    }
    var config := ConfigFor(p.feeTableUsd, category);
    var isFree := false;
    if category == Deploy || category == Wizard {
      isFree := config.usdAmount == 0;
    }
    if isFree {
      if gasWanted > MaxGasForFree(category, p.guardRails) { return None; }
      return Some(Estimate(category, 0, 0, gasWanted, Some(0), true));
    }
    var csv := ApplyGuardRails(ConvertUSDToCSV(config.usdAmount, rate), gasWanted, p.guardRails);
    var gasPrice := None;
    if gasWanted > 0 {
      gasPrice := Some(QuoInt(csv, GasInt(gasWanted)));
    }
    estimate := Some(Estimate(category, config.usdAmount, csv, gasWanted, gasPrice, false));
  }

  /* ---------- the expected fee and the check against it ---------- */

  /** BuildFeeFromEstimate in ucsv: the amount, zero standing for no coins. None is the panic of
      building a coin with a negative amount. */
  function ExpectedFee(estimate: Estimate): Option<int> {
    if estimate.isFree || estimate.csvAmount == 0 then Some(0)
    else
      var amount := TruncateInt(MulInt(estimate.csvAmount, MICRO));
      if amount == 0 then Some(1) else if amount < 0 then None else Some(amount)
  }

  function AmountOf(coins: seq<Coin>, denom: string): int {
    if coins == [] then 0 else if coins[0].denom == denom then coins[0].amount else AmountOf(coins[1..], denom)
  }

  predicate IsZero(coins: seq<Coin>) {
    forall k :: 0 <= k < |coins| ==> coins[k].amount == 0
  }

  /** ValidateFeeAgainstEstimate; false is an error or a panic. */
  predicate FeeAccepted(provided: seq<Coin>, estimate: Estimate, tolerance: Dec) {
    var expected := ExpectedFee(estimate);
    if expected.None? then false
    else if estimate.isFree then IsZero(provided)
    else if IsZero(provided) && expected.value != 0 then false
    else if expected.value == 0 then true
    else
      var diff := AmountOf(provided, CSV_DENOM) - expected.value;
      (if diff < 0 then -diff else diff) <= TruncateInt(MulInt(tolerance, expected.value))
  }

  function Max(a: int, b: int): int { if a < b then b else a }

  /** The amount a positive fee asks for, in ucsv. */
  function Asked(csvAmount: Dec): int {
    Max(1, csvAmount * MICRO / ONE)
  }

  lemma {:induction false} ZeroCoinsHaveNone(coins: seq<Coin>, denom: string)
    requires IsZero(coins)
    ensures AmountOf(coins, denom) == 0
  {
    if coins != [] {
      assert IsZero(coins[1..]);
      ZeroCoinsHaveNone(coins[1..], denom);
    }
  }

  /** For a fee that is not free and positive, the check is exactly: the ucsv paid is within a
      twentieth, rounded down, of the amount asked. */
  lemma FeeAcceptedIff(provided: seq<Coin>, estimate: Estimate)
    requires !estimate.isFree && estimate.csvAmount > 0
    ensures FeeAccepted(provided, estimate, TOLERANCE)
       <==> var asked := Asked(estimate.csvAmount);
            asked - asked / 20 <= AmountOf(provided, CSV_DENOM) <= asked + asked / 20
  {
    var asked := Asked(estimate.csvAmount);
    assert ExpectedFee(estimate) == Some(asked) by {
      DivAtLeast(estimate.csvAmount * MICRO, ONE, 0);
    }
    assert TruncateInt(MulInt(TOLERANCE, asked)) == asked / 20 by {
      DivBounds(asked, 20);
      DivIs(TOLERANCE * asked, ONE, asked / 20);
    }
    if IsZero(provided) {
      ZeroCoinsHaveNone(provided, CSV_DENOM);
    }
  }

  /* ---------- FeeAnteHandler ---------- */

  /** Refused, or passed on: with no fee logic at all, as a system transaction, or with an estimate
      kept for the distribution. */
  datatype Admission = Refused | Skipped | SystemTx | Admitted(estimate: Estimate)

  /** AnteHandle. `params` is None while the store has none: the handler then fails open. */
  method AnteHandle(params: Option<Params>, simulate: bool, msgs: seq<Msg>, memo: Memo, fee: seq<Coin>,
                    gasWanted: UInt64, rate: Option<Dec>) returns (r: Admission)
    ensures r == Ante(params, simulate, if params.None? then Default else TxCategory(params.value, msgs, memo),
                      fee, gasWanted, rate)
  {
    hide EstimateFor, FeeAccepted, TxCategory, MaxGasForFree;
    if simulate || params.None? { return Skipped; }
    var p := params.value;
    var estimated := EstimateFee(p, msgs, memo, gasWanted, rate);
    if estimated.None? { return Refused; }
    var estimate := estimated.value;
    if p.feeMode == GAS_ONLY {
    } else if p.feeMode == HYBRID {
      if estimate.category != System {
        if !FeeAccepted(fee, estimate, TOLERANCE) { return Refused; }
      }
    } else {
      if !FeeAccepted(fee, estimate, TOLERANCE) { return Refused; }
    }
    if estimate.category == System { return SystemTx; }
    if estimate.isFree && gasWanted > MaxGasForFree(estimate.category, p.guardRails) { return Refused; }
    r := Admitted(estimate);
  }

  function Ante(params: Option<Params>, simulate: bool, category: Category, fee: seq<Coin>,
                gasWanted: UInt64, rate: Option<Dec>): Admission {
    if simulate || params.None? then Skipped
    else
      var p := params.value;
      match EstimateFor(p, category, gasWanted, rate)
      case None => Refused
      case Some(estimate) =>
        if p.feeMode != GAS_ONLY && (p.feeMode != HYBRID || estimate.category != System)
           && !FeeAccepted(fee, estimate, TOLERANCE) then Refused
        else if estimate.category == System then SystemTx
        else if estimate.isFree && gasWanted > MaxGasForFree(estimate.category, p.guardRails) then Refused
        else Admitted(estimate)
  }

  lemma AskedMonotone(a: Dec, b: Dec)
    requires a <= b
    ensures Asked(a) <= Asked(b)
  {
    DivMonotone(a * MICRO, b * MICRO, ONE);
  }

  /** The fee charged for a category that is not free lies between the rails, in CSV and in ucsv. */
  lemma EstimateBounds(p: Params, category: Category, gasWanted: UInt64, rate: Option<Dec>)
    requires GoodRails(p.guardRails) && p.guardRails.minGasPriceCsv > 0 && 0 < gasWanted < TWO_TO_THE_63
    requires EstimateFor(p, category, gasWanted, rate).Some? && !EstimateFor(p, category, gasWanted, rate).value.isFree
    ensures var csv := EstimateFor(p, category, gasWanted, rate).value.csvAmount;
            var min := p.guardRails.minGasPriceCsv * gasWanted;
            var max := p.guardRails.maxGasPriceCsv * gasWanted + gasWanted - 1;
            min <= csv <= max && 0 < csv && Asked(min) <= Asked(csv) <= Asked(max)
  {
    hide Mul, Asked;
    var amount := ConvertUSDToCSV(ConfigFor(p.feeTableUsd, category).usdAmount, rate);
    var min, max := p.guardRails.minGasPriceCsv, p.guardRails.maxGasPriceCsv;
    var csv := EstimateFor(p, category, gasWanted, rate).value.csvAmount;
    if amount >= 0 {
      ClampBounds(amount, gasWanted, min, max);
    } else {
      DivAtLeast(-amount, gasWanted, 0);
      MulLe(gasWanted, min, max);
    }
    MulLe(gasWanted, 1, min);
    AskedMonotone(min * gasWanted, csv);
    AskedMonotone(csv, max * gasWanted + gasWanted - 1);
  }

  /** The admission interval. With valid rails, a positive minimum gas price and gas that fits
      int64, a transaction that is not simulated and that a table or hybrid chain admits is a
      system transaction; or free, with no fee at all and its gas within the cap of its category;
      or pays ucsv within a twentieth of an amount that lies between the rails for its gas. And
      whoever pays that, is admitted. */
  lemma AdmissionInterval(p: Params, category: Category, fee: seq<Coin>, gasWanted: UInt64, rate: Option<Dec>)
    requires GoodRails(p.guardRails) && p.guardRails.minGasPriceCsv > 0 && 0 < gasWanted < TWO_TO_THE_63
    requires p.feeMode != GAS_ONLY
    ensures var r := Ante(Some(p), false, category, fee, gasWanted, rate);
            (r == SystemTx <==> category == System && (p.feeMode == HYBRID || IsZero(fee)))
            && (r.Admitted? ==> r.estimate.category == category != System)
            && (r.Admitted? && r.estimate.isFree ==>
                  (category == Deploy || category == Wizard)
                  && IsZero(fee) && gasWanted <= MaxGasForFree(category, p.guardRails))
            && (r.Admitted? && !r.estimate.isFree ==>
                  var asked, paid := Asked(r.estimate.csvAmount), AmountOf(fee, CSV_DENOM);
                  asked - asked / 20 <= paid <= asked + asked / 20 && paid > 0
                  && Asked(p.guardRails.minGasPriceCsv * gasWanted) <= asked
                     <= Asked(p.guardRails.maxGasPriceCsv * gasWanted + gasWanted - 1))
    ensures var e := EstimateFor(p, category, gasWanted, rate);
            e.Some? && !e.value.isFree ==>
              var asked := Asked(e.value.csvAmount);
              (Ante(Some(p), false, category, fee, gasWanted, rate) == Admitted(e.value)
               <==> asked - asked / 20 <= AmountOf(fee, CSV_DENOM) <= asked + asked / 20)
  {
    var e := EstimateFor(p, category, gasWanted, rate);
    if e.Some? && !e.value.isFree {
      EstimateBounds(p, category, gasWanted, rate);
      FeeAcceptedIff(fee, e.value);
      DivBounds(Asked(e.value.csvAmount), 20);
    }
  }

  /** With no gas asked for the rails do not apply: outside gas_only mode a transaction that is not
      free is admitted exactly when its converted fee is zero, whatever it pays; or positive and paid
      within a twentieth; or negative, truncating to zero ucsv, and paid with one. With no fee at all
      only the first is left. */
  lemma ZeroGasAdmission(p: Params, category: Category, fee: seq<Coin>, rate: Option<Dec>)
    requires p.feeMode != GAS_ONLY
    requires var e := EstimateFor(p, category, 0, rate); e.Some? && !e.value.isFree
    ensures var csv := ConvertUSDToCSV(ConfigFor(p.feeTableUsd, category).usdAmount, rate);
            var asked, paid := Asked(csv), AmountOf(fee, CSV_DENOM);
            Ante(Some(p), false, category, fee, 0, rate).Admitted?
            <==> csv == 0 || (csv > 0 && asked - asked / 20 <= paid <= asked + asked / 20)
                 || (-ONE < csv * MICRO < 0 && paid == 1)
    ensures Ante(Some(p), false, category, [], 0, rate).Admitted?
       <==> ConvertUSDToCSV(ConfigFor(p.feeTableUsd, category).usdAmount, rate) == 0
  {
    hide ConvertUSDToCSV;
    var e := EstimateFor(p, category, 0, rate).value;
    if e.csvAmount > 0 {
      FeeAcceptedIff(fee, e);
      FeeAcceptedIff([], e);
      DivBounds(Asked(e.csvAmount), 20);
    } else if e.csvAmount < 0 {
      NegativeFeeAccepted(fee, e);
      NegativeFeeAccepted([], e);
    }
  }

  /** A negative estimate is paid for with exactly one ucsv when it truncates to zero; else it cannot
      be built. */
  lemma NegativeFeeAccepted(fee: seq<Coin>, e: Estimate)
    requires !e.isFree && e.csvAmount < 0
    ensures FeeAccepted(fee, e, TOLERANCE) <==> e.csvAmount * MICRO > -ONE && AmountOf(fee, CSV_DENOM) == 1
  {
    DivAtLeast(-e.csvAmount * MICRO, ONE, 0);
    DivAtLeast(-e.csvAmount * MICRO, ONE, 1);
    if IsZero(fee) {
      ZeroCoinsHaveNone(fee, CSV_DENOM);
    }
  }

  /** The bound on gas cannot be dropped: for a fee that can be built at all, it respects the
      minimum gas price exactly when the gas fits int64. From 2^63 on the signed gas is negative,
      the clamp makes the fee negative, and what is left to ask for is a single ucsv. */
  lemma MinimumHoldsIffGasFits(p: Params, category: Category, gasWanted: UInt64, rate: Option<Dec>)
    requires GoodRails(p.guardRails) && p.guardRails.minGasPriceCsv > 0 && gasWanted > 0
    requires var e := EstimateFor(p, category, gasWanted, rate);
             e.Some? && !e.value.isFree && ExpectedFee(e.value).Some?
    ensures ExpectedFee(EstimateFor(p, category, gasWanted, rate).value).value
              >= Asked(p.guardRails.minGasPriceCsv * gasWanted)
       <==> gasWanted < TWO_TO_THE_63
  {
    hide ConvertUSDToCSV, Asked, ExpectedFee;
    var e := EstimateFor(p, category, gasWanted, rate).value;
    if gasWanted < TWO_TO_THE_63 {
      EstimateBounds(p, category, gasWanted, rate);
      ExpectedIsAsked(e);
    } else {
      var amount := ConvertUSDToCSV(ConfigFor(p.feeTableUsd, category).usdAmount, rate);
      NegativeGasClamp(amount, gasWanted, p.guardRails);
      NegativeAsksOne(e);
      MinimumIsMany(p.guardRails.minGasPriceCsv, gasWanted);
    }
  }

  lemma ExpectedIsAsked(e: Estimate)
    requires !e.isFree && e.csvAmount > 0
    ensures ExpectedFee(e) == Some(Asked(e.csvAmount))
  {
    DivAtLeast(e.csvAmount * MICRO, ONE, 0);
  }

  lemma NegativeGasClamp(amount: Dec, gasWanted: UInt64, rails: GuardRails)
    requires GoodRails(rails) && rails.minGasPriceCsv > 0 && gasWanted >= TWO_TO_THE_63
    ensures ApplyGuardRails(amount, gasWanted, rails) < 0
  {
    var gas := GasInt(gasWanted);
    assert gas == gasWanted - TWO_TO_THE_64 < 0;
    if amount >= 0 {
      DivAtLeast(amount, -gas, 0);
      assert QuoInt(amount, gas) <= 0;
    }
    MulLe(-gas, 1, rails.minGasPriceCsv);
    MulLe(-gas, 1, rails.maxGasPriceCsv);
  }

  lemma NegativeAsksOne(e: Estimate)
    requires !e.isFree && e.csvAmount < 0 && ExpectedFee(e).Some?
    ensures ExpectedFee(e) == Some(1)
  {
    DivAtLeast(-e.csvAmount * MICRO, ONE, 0);
  }

  lemma MinimumIsMany(min: Dec, gasWanted: UInt64)
    requires min > 0 && gasWanted >= TWO_TO_THE_63
    ensures Asked(min * gasWanted) > 1
  {
    MulLe(gasWanted, 1, min);
    AskedMonotone(TWO_TO_THE_63, min * gasWanted);
  }

  /** And the fee handler admits such a transaction for a single ucsv exactly when the negative fee it is
      estimated at truncates to zero ucsv; otherwise building the fee panics. */
  lemma OneUcsvPassesIff(p: Params, category: Category, gasWanted: UInt64, rate: Option<Dec>)
    requires GoodRails(p.guardRails) && p.guardRails.minGasPriceCsv > 0 && gasWanted >= TWO_TO_THE_63
    requires p.feeMode != GAS_ONLY
    requires var e := EstimateFor(p, category, gasWanted, rate); e.Some? && !e.value.isFree
    ensures Ante(Some(p), false, category, [Coin(CSV_DENOM, 1)], gasWanted, rate).Admitted?
       <==> EstimateFor(p, category, gasWanted, rate).value.csvAmount * MICRO > -ONE
  {
    hide ConvertUSDToCSV, ApplyGuardRails;
    var e := EstimateFor(p, category, gasWanted, rate).value;
    NegativeGasClamp(ConvertUSDToCSV(ConfigFor(p.feeTableUsd, category).usdAmount, rate), gasWanted, p.guardRails);
    NegativeFeeAccepted([Coin(CSV_DENOM, 1)], e);
    assert AmountOf([Coin(CSV_DENOM, 1)], CSV_DENOM) == 1;
  }

  /** The fee handler admits such a transaction: at gas 2^64 - 1 one ucsv passes although the rail asks
      for more than eighteen million. The limit of 2^63 - 1 that the SDK's basic validation puts on
      gas comes behind this handler. */
  lemma HugeGasSlipsUnderTheRail(p: Params)
    requires p.guardRails == GuardRails(1, ONE, 1, 1) && p.feeMode == HYBRID
    requires p.feeTableUsd.nativeTransfer.usdAmount == 0
    ensures var gas := TWO_TO_THE_64 - 1;
            Ante(Some(p), false, NativeTransfer, [Coin(CSV_DENOM, 1)], gas, None).Admitted?
            && Asked(p.guardRails.minGasPriceCsv * gas) > 18_000_000
  {
    var gas := TWO_TO_THE_64 - 1;
    assert GasInt(gas) == -1;
    assert ConvertUSDToCSV(0, None) == 0;
    assert ApplyGuardRails(0, gas, p.guardRails) == -1;
    var e := EstimateFor(p, NativeTransfer, gas, None).value;
    assert e.csvAmount == -1;
    assert ExpectedFee(e) == Some(1);
    assert AmountOf([Coin(CSV_DENOM, 1)], CSV_DENOM) == 1;
    assert !IsZero([Coin(CSV_DENOM, 1)]) by { assert [Coin(CSV_DENOM, 1)][0].amount == 1; }
  }
}
