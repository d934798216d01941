/** What a fee comes to, in plain arithmetic: the conversion at the oracle's rate, the table entry of
    each category, the rails, and the admission that follows in each mode. */
module FeePricing {
  import opened Common
  import opened Decimal
  import opened Wire
  import opened FeeParams
  import opened Classify
  import opened FeeEstimate
  import opened Ledger
  import opened Distribution
  import opened FeeCollection

  /* ---------- the conversion ---------- */

  /** csv is usd at a rate of CSV per USD, to the nearest unit and the even one in a tie; without a
      rate, or at a zero one, a USD is a CSV. */
  ghost predicate Converts(usd: Dec, rate: Option<Dec>, csv: Dec) {
    var one := 1_000_000_000_000_000_000;
    if rate.Some? && rate.value != 0 then
      var off := 2 * (one * csv - usd * rate.value);
      -one <= off <= one && (off == one || off == -one ==> csv % 2 == 0)
    else csv == usd
  }

  lemma ConversionIsNearest(usd: Dec, rate: Option<Dec>)
    ensures Converts(usd, rate, ConvertUSDToCSV(usd, rate))
  {
    ChopExact(usd);
    ChopIsNearest(usd * CsvPerUsd(rate));
    hide Chop;
  }

  /** There is only one such amount. */
  lemma ConversionIsUnique(usd: Dec, rate: Option<Dec>, x: Dec, y: Dec)
    requires Converts(usd, rate, x) && Converts(usd, rate, y)
    ensures x == y
  {
    if rate.Some? && rate.value != 0 {
      NearestIsUnique(usd * rate.value, x, y);
    }
  }

  lemma NearestIsUnique(product: int, x: int, y: int)
    requires -ONE <= 2 * (ONE * x - product) <= ONE && -ONE <= 2 * (ONE * y - product) <= ONE
    requires 2 * (ONE * x - product) == ONE || 2 * (ONE * x - product) == -ONE ==> x % 2 == 0
    requires 2 * (ONE * y - product) == ONE || 2 * (ONE * y - product) == -ONE ==> y % 2 == 0
    ensures x == y
  {
    assert -1 <= x - y <= 1;
  }

  lemma ConversionIsConvert(usd: Dec, rate: Option<Dec>, csv: Dec)
    ensures Converts(usd, rate, csv) <==> csv == ConvertUSDToCSV(usd, rate)
  {
    ConversionIsNearest(usd, rate);
    if Converts(usd, rate, csv) {
      ConversionIsUnique(usd, rate, csv, ConvertUSDToCSV(usd, rate));
    }
    hide *;
  }

  /** More USD, or a higher rate, never comes to less. */
  lemma ConversionIsMonotone(usd: Dec, more: Dec, rate: Dec, higher: Dec)
    requires 0 <= usd <= more && 0 < rate <= higher
    ensures ConvertUSDToCSV(usd, Some(rate)) <= ConvertUSDToCSV(more, Some(higher))
  {
    MulLe(usd, rate, higher);
    MulLe(higher, usd, more);
    ChopMonotone(usd * rate, more * higher);
    hide Chop;
  }

  /* ---------- the estimate of each category ---------- */

  /** A fee of `usd`: the conversion as it is when no gas is asked for; with gas, as long as it lies
      between the rails, and else the rail it is beyond. */
  ghost predicate Charges(e: Option<Estimate>, category: Category, usd: Dec, gas: UInt64, rate: Option<Dec>,
                          g: GuardRails) {
    && e.Some? && !e.value.isFree && e.value.category == category && e.value.usdAmount == usd
    && e.value.gasWanted == gas
    && forall raw :: Converts(usd, rate, raw) ==>
         var csv := e.value.csvAmount;
         && (gas == 0 ==> csv == raw && e.value.gasPrice == None)
         && (0 < gas < 0x8000_0000_0000_0000 && csv >= 0 ==> e.value.gasPrice == Some(csv / gas))
         && (0 < gas < 0x8000_0000_0000_0000 && raw >= 0 ==>
               csv == if raw >= (g.maxGasPriceCsv + 1) * gas then g.maxGasPriceCsv * gas
                      else if raw < g.minGasPriceCsv * gas then g.minGasPriceCsv * gas
                      else raw)
  }

  /** Free, with the gas capped. */
  ghost predicate FreeUpTo(e: Option<Estimate>, category: Category, gas: UInt64, cap: UInt64) {
    e == if gas > cap then None else Some(Estimate(category, 0, 0, gas, Some(0), true))
  }

  lemma ClampLiteral(raw: int, gas: int, g: GuardRails)
    requires 0 < gas < TWO_TO_THE_63 && raw >= 0
    ensures ApplyGuardRails(raw, gas, g)
         == if raw >= (g.maxGasPriceCsv + 1) * gas then g.maxGasPriceCsv * gas
            else if raw < g.minGasPriceCsv * gas then g.minGasPriceCsv * gas
            else raw
  {
    DivAtLeast(raw, gas, g.maxGasPriceCsv + 1);
    DivAtLeast(raw, gas, g.minGasPriceCsv);
  }

  lemma ChargesEntry(p: Params, category: Category, gas: UInt64, rate: Option<Dec>)
    requires var e := EstimateFor(p, category, gas, rate); e.Some? && !e.value.isFree
    ensures Charges(EstimateFor(p, category, gas, rate), category, ConfigFor(p.feeTableUsd, category).usdAmount,
                    gas, rate, p.guardRails)
  {
    var usd := ConfigFor(p.feeTableUsd, category).usdAmount;
    var csv := ConvertUSDToCSV(usd, rate);
    forall raw | Converts(usd, rate, raw)
      ensures raw == csv
    {
      ConversionIsConvert(usd, rate, raw);
    }
    if 0 < gas < TWO_TO_THE_63 && csv >= 0 {
      ClampLiteral(csv, gas, p.guardRails);
    }
    hide Converts, ConvertUSDToCSV, ConfigFor;
    if gas > 0 {
      hide ApplyGuardRails;
    }
  }

  lemma ChargesPlain(p: Params, category: Category, gas: UInt64, rate: Option<Dec>)
    requires category != Deploy && category != Wizard && category != System
    ensures Charges(EstimateFor(p, category, gas, rate), category, ConfigFor(p.feeTableUsd, category).usdAmount,
                    gas, rate, p.guardRails)
  {
    assert EstimateFor(p, category, gas, rate).Some? && !EstimateFor(p, category, gas, rate).value.isFree;
    hide *;
    ChargesEntry(p, category, gas, rate);
  }

  lemma ChargesOrFree(p: Params, category: Category, gas: UInt64, rate: Option<Dec>)
    requires category == Deploy || category == Wizard
    ensures var usd, e := ConfigFor(p.feeTableUsd, category).usdAmount, EstimateFor(p, category, gas, rate);
            if usd == 0 then FreeUpTo(e, category, gas, MaxGasForFree(category, p.guardRails))
            else Charges(e, category, usd, gas, rate, p.guardRails)
  {
    hide ApplyGuardRails, ConvertUSDToCSV, Charges, MaxGasForFree, ConfigFor;
    if ConfigFor(p.feeTableUsd, category).usdAmount != 0 {
      ChargesEntry(p, category, gas, rate);
      hide EstimateFor;
    }
  }

  lemma SystemIsFree(p: Params, gas: UInt64, rate: Option<Dec>)
    ensures EstimateFor(p, System, gas, rate) == Some(Estimate(System, 0, 0, gas, Some(0), true))
  {
  }

  /** Category by category: what is charged, and what is free up to which gas. */
  lemma EstimateByCategory(p: Params, gas: UInt64, rate: Option<Dec>)
    ensures var t, g := p.feeTableUsd, p.guardRails;
            && Charges(EstimateFor(p, POS, gas, rate), POS, t.posPayment.usdAmount, gas, rate, g)
            && Charges(EstimateFor(p, TokenInteraction, gas, rate), TokenInteraction,
                       t.tokenInteraction.usdAmount, gas, rate, g)
            && Charges(EstimateFor(p, NativeTransfer, gas, rate), NativeTransfer,
                       t.nativeTransfer.usdAmount, gas, rate, g)
            && Charges(EstimateFor(p, DexNative, gas, rate), DexNative, t.dexNative.usdAmount, gas, rate, g)
            && Charges(EstimateFor(p, DexUser, gas, rate), DexUser, t.dexUser.usdAmount, gas, rate, g)
            && Charges(EstimateFor(p, Default, gas, rate), Default, t.nativeTransfer.usdAmount, gas, rate, g)
            && Charges(EstimateFor(p, Mixed, gas, rate), Mixed, t.nativeTransfer.usdAmount, gas, rate, g)
    ensures var t, g, e := p.feeTableUsd, p.guardRails, EstimateFor(p, Deploy, gas, rate);
            if t.deploy.usdAmount == 0 then FreeUpTo(e, Deploy, gas, g.maxGasDeploy)
            else Charges(e, Deploy, t.deploy.usdAmount, gas, rate, g)
    ensures var t, g, e := p.feeTableUsd, p.guardRails, EstimateFor(p, Wizard, gas, rate);
            if t.wizard.usdAmount == 0 then FreeUpTo(e, Wizard, gas, g.maxGasWizard)
            else Charges(e, Wizard, t.wizard.usdAmount, gas, rate, g)
    ensures EstimateFor(p, System, gas, rate) == Some(Estimate(System, 0, 0, gas, Some(0), true))
  {
    ChargesPlain(p, POS, gas, rate);
    ChargesPlain(p, TokenInteraction, gas, rate);
    ChargesPlain(p, NativeTransfer, gas, rate);
    ChargesPlain(p, DexNative, gas, rate);
    ChargesPlain(p, DexUser, gas, rate);
    ChargesPlain(p, Default, gas, rate);
    ChargesPlain(p, Mixed, gas, rate);
    ChargesOrFree(p, Deploy, gas, rate);
    ChargesOrFree(p, Wizard, gas, rate);
    SystemIsFree(p, gas, rate);
    hide Charges, FreeUpTo, EstimateFor;
  }

  /* ---------- the message that charges ---------- */

  /** The ucsv of a positive fee: millionths of a CSV, rounded down. */
  ghost predicate InUcsv(usd: Dec, rate: Option<Dec>, ucsv: int) {
    forall csv :: Converts(usd, rate, csv) && csv >= 0 ==> ucsv == csv / 1_000_000_000_000
  }

  lemma FeeInUcsvIs(usd: Dec, rate: Option<Dec>)
    ensures InUcsv(usd, rate, FeeInUcsv(usd, rate))
  {
    forall csv | Converts(usd, rate, csv) && csv >= 0
      ensures FeeInUcsv(usd, rate) == csv / 1_000_000_000_000
    {
      ConversionIsConvert(usd, rate, csv);
      hide Converts, ConvertUSDToCSV;
      Millionths(csv);
    }
  }

  lemma Millionths(csv: int)
    requires csv >= 0
    ensures csv * MICRO / ONE == csv / 1_000_000_000_000
  {
    DivBounds(csv, 1_000_000_000_000);
    DivIs(csv * MICRO, ONE, csv / 1_000_000_000_000);
  }

  /** Category by category: what MsgChargeFee reports and takes. */
  lemma ChargeByCategory(book: Book, c: Chain, p: Params, creator: string, category: string,
                         md: map<string, string>, rate: Option<Dec>)
    requires ChargeFee(book, c, p, creator, category, md, rate).Some?
    ensures var charged, t := ChargeFee(book, c, p, creator, category, md, rate).value.1, p.feeTableUsd;
            && (category == "pos_payment" ==> InUcsv(t.posPayment.usdAmount, rate, charged))
            && (category == "token_interaction" ==> InUcsv(t.tokenInteraction.usdAmount, rate, charged))
            && (category == "native_transfer" ==> InUcsv(t.nativeTransfer.usdAmount, rate, charged))
            && (category == "dex_native" ==> InUcsv(t.dexNative.usdAmount, rate, charged))
            && (category == "dex_user" ==> InUcsv(t.dexUser.usdAmount, rate, charged))
            && (category == "deploy" || category == "wizard" ==> charged == 0)
            && category in {"pos_payment", "token_interaction", "native_transfer", "dex_native", "dex_user",
                            "deploy", "wizard"}
  {
    FeeInUcsvIs(ChargeConfig(p.feeTableUsd, category).value.usdAmount, rate);
    hide InUcsv, FeeInUcsv, DistributeFrom, Balance;
  }

  /** And the split is that of the same entry. */
  lemma ChargeEntries(t: FeeTableUSD)
    ensures ChargeConfig(t, "pos_payment") == Some(t.posPayment)
    ensures ChargeConfig(t, "token_interaction") == Some(t.tokenInteraction)
    ensures ChargeConfig(t, "native_transfer") == Some(t.nativeTransfer)
    ensures ChargeConfig(t, "dex_native") == Some(t.dexNative) && ChargeConfig(t, "dex_user") == Some(t.dexUser)
    ensures ChargeConfig(t, "deploy") == Some(t.deploy) && ChargeConfig(t, "wizard") == Some(t.wizard)
  {
  }

  /* ---------- the admission ---------- */

  /** What a charged fee asks for: the ucsv of it, and one when that is less than one. */
  lemma AskedLiteral(csv: Dec)
    requires csv >= 0
    ensures Asked(csv) == if csv < 1_000_000_000_000 then 1 else csv / 1_000_000_000_000
  {
    Millionths(csv);
    DivAtLeast(csv, 1_000_000_000_000, 1);
  }

  /** The check of a fee against an estimate, whole: a free one must not be paid for, a zero one is
      paid by anything, a positive one within a twentieth, and a negative one by a single ucsv as
      long as it truncates to none. */
  lemma FeeCheckIff(fee: seq<Coin>, e: Estimate)
    ensures FeeAccepted(fee, e, TOLERANCE)
       <==> var csv, paid := e.csvAmount, AmountOf(fee, "ucsv");
            var asked := if csv < 1_000_000_000_000 then 1 else csv / 1_000_000_000_000;
            if e.isFree then IsZero(fee)
            else if csv == 0 then true
            else if csv > 0 then asked - asked / 20 <= paid <= asked + asked / 20
            else csv > -1_000_000_000_000 && paid == 1
  {
    if !e.isFree && e.csvAmount > 0 {
      FeeAcceptedIff(fee, e);
      AskedLiteral(e.csvAmount);
      hide FeeAccepted, Asked;
    } else if !e.isFree && e.csvAmount < 0 {
      NegativeFeeAccepted(fee, e);
      hide FeeAccepted;
    }
  }

  /** The handler, mode by mode. In gas_only mode whatever can be estimated passes; in hybrid mode a
      system transaction passes unchecked; in all others the fee is checked. An estimate that is free
      passes only within the gas cap, which the estimate itself has checked. */
  lemma AdmissionByMode(params: Option<Params>, simulate: bool, category: Category, fee: seq<Coin>, gas: UInt64,
                        rate: Option<Dec>)
    ensures var r := Ante(params, simulate, category, fee, gas, rate);
            && (simulate || params.None? ==> r == Skipped)
            && (!simulate && params.Some? ==>
                  var p := params.value;
                  var e := EstimateFor(p, category, gas, rate);
                  var checked := p.feeMode != "gas_only" && (p.feeMode != "hybrid" || category != System);
                  r == if e.None? || (checked && !FeeAccepted(fee, e.value, TOLERANCE)) then Refused
                       else if category == System then SystemTx
                       else Admitted(e.value))
  {
    hide FeeAccepted, ApplyGuardRails, ConvertUSDToCSV, ConfigFor;
  }

  /** The free tier: with a zero entry, a deploy or wizard transaction is admitted exactly within its
      gas cap and, outside gas_only mode, when it pays nothing. */
  lemma FreeTierAdmission(p: Params, fee: seq<Coin>, gas: UInt64, rate: Option<Dec>)
    ensures p.feeTableUsd.deploy.usdAmount == 0 ==>
              (Ante(Some(p), false, Deploy, fee, gas, rate).Admitted?
               <==> gas <= p.guardRails.maxGasDeploy && (p.feeMode == "gas_only" || IsZero(fee)))
    ensures p.feeTableUsd.wizard.usdAmount == 0 ==>
              (Ante(Some(p), false, Wizard, fee, gas, rate).Admitted?
               <==> gas <= p.guardRails.maxGasWizard && (p.feeMode == "gas_only" || IsZero(fee)))
  {
    AdmissionByMode(Some(p), false, Deploy, fee, gas, rate);
    AdmissionByMode(Some(p), false, Wizard, fee, gas, rate);
    EstimateByCategory(p, gas, rate);
    hide Ante, EstimateFor, Charges;
    hide ApplyGuardRails;
  }

  /** In gas_only mode the fee paid does not matter: a transaction that is not free is admitted. */
  lemma GasOnlyAdmission(p: Params, category: Category, fee: seq<Coin>, gas: UInt64, rate: Option<Dec>)
    requires p.feeMode == "gas_only" && category != System
    requires (category == Deploy ==> p.feeTableUsd.deploy.usdAmount != 0)
    requires (category == Wizard ==> p.feeTableUsd.wizard.usdAmount != 0)
    ensures Ante(Some(p), false, category, fee, gas, rate).Admitted?
  {
    hide FeeAccepted, ApplyGuardRails, ConvertUSDToCSV;
  }
}
