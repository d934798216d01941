/** The parameters of x/fees and their validation. A decimal in the store may be nil; the records are
    generic in the type of their decimals, so that validation reads nilable ones and the fee engine,
    whose arithmetic panics on nil, is modelled on `Dec`. */
module FeeParams {
  import opened Common
  import opened Decimal
  import opened Wire

  datatype SplitOf<D> = FeeSplit(treasury: D, retailWallet: D, tokenDev: D, tokenCreator: D)

  datatype ConfigOf<D> = FeeConfig(usdAmount: D, split: SplitOf<D>)

  datatype TableOf<D> = FeeTableUSD(
    posPayment: ConfigOf<D>, tokenInteraction: ConfigOf<D>, nativeTransfer: ConfigOf<D>,
    dexNative: ConfigOf<D>, dexUser: ConfigOf<D>, deploy: ConfigOf<D>, wizard: ConfigOf<D>)

  datatype OracleOf<D> = OracleParams(
    bandRequestId: UInt64, twapWindow: int, deviationLimit: D, fallbackTtl: int, maxPriceAge: int)

  datatype RailsOf<D> = GuardRails(
    minGasPriceCsv: D, maxGasPriceCsv: D, maxGasWizard: UInt64, maxGasDeploy: UInt64)

  datatype PolicyOf<D> = MinGasPolicy(enabled: bool, globalMinGasPrice: D, allowPerTxOverride: bool)

  datatype ParamsOf<D> = Params(
    feeTableUsd: TableOf<D>, oracleParams: OracleOf<D>, guardRails: RailsOf<D>, minGasPolicy: PolicyOf<D>,
    treasuryWallet: string, retailWallet: string, tokenDevWallet: string, tokenCreatorWallet: string,
    feeMode: string, systemMsgTypeUrls: seq<string>, exemptMsgTypeUrls: seq<string>, exemptAddresses: seq<string>)

  type FeeSplit = SplitOf<Dec>
  type FeeConfig = ConfigOf<Dec>
  type FeeTableUSD = TableOf<Dec>
  type GuardRails = RailsOf<Dec>
  type Params = ParamsOf<Dec>

  /** A decimal as decoded: one that was absent on the wire is nil. */
  type NilDec = Option<Dec>
  type StoredParams = ParamsOf<NilDec>

  const HYBRID := "hybrid"
  const GAS_ONLY := "gas_only"

  function Configs<D>(t: TableOf<D>): seq<ConfigOf<D>> {
    [t.posPayment, t.tokenInteraction, t.nativeTransfer, t.dexNative, t.dexUser, t.deploy, t.wizard]
  }

  function SplitTotal(s: FeeSplit): Dec {
    s.treasury + s.retailWallet + s.tokenDev + s.tokenCreator
  }

  /** A fee is not negative, and the split of a fee that is charged sums to one. */
  ghost predicate GoodConfig(c: FeeConfig) {
    c.usdAmount >= 0 && (c.usdAmount != 0 ==> SplitTotal(c.split) == ONE)
  }

  ghost predicate GoodRails(g: GuardRails) {
    0 <= g.minGasPriceCsv <= g.maxGasPriceCsv && g.maxGasWizard != 0 && g.maxGasDeploy != 0
  }

  ghost predicate GoodOracle(o: OracleOf<Dec>) {
    o.bandRequestId != 0 && o.twapWindow > 0 && 0 <= o.deviationLimit <= ONE && o.fallbackTtl > 0 && o.maxPriceAge > 0
  }

  ghost predicate KnownMode(mode: string) {
    mode == "" || mode == "table" || mode == HYBRID || mode == GAS_ONLY
  }

  /** No type URL twice among the system messages, and none in both lists; empty entries apart. */
  ghost predicate GoodLists(system: seq<string>, exempt: seq<string>) {
    && (forall i, j :: 0 <= i < j < |system| && system[i] != "" ==> system[i] != system[j])
    && (forall i, j :: 0 <= i < |system| && 0 <= j < |exempt| && exempt[j] != "" ==> system[i] != exempt[j])
  }

  /* ---------- nil decimals ---------- */

  function OrZero(d: NilDec): Dec { if d.None? then 0 else d.value }

  /** Nil parts of a split count as zero. */
  function Normalized(s: SplitOf<NilDec>): FeeSplit {
    FeeSplit(OrZero(s.treasury), OrZero(s.retailWallet), OrZero(s.tokenDev), OrZero(s.tokenCreator))
  }

  /** An entry whose fee is nil is skipped. */
  ghost predicate GoodStoredConfig(c: ConfigOf<NilDec>) {
    c.usdAmount.Some? ==> GoodConfig(FeeConfig(c.usdAmount.value, Normalized(c.split)))
  }

  /** The checks of the other sections panic on nil. */
  ghost predicate GoodStoredSections(o: OracleOf<NilDec>, g: RailsOf<NilDec>, m: PolicyOf<NilDec>) {
    && o.deviationLimit.Some?
    && GoodOracle(OracleParams(o.bandRequestId, o.twapWindow, o.deviationLimit.value, o.fallbackTtl, o.maxPriceAge))
    && g.minGasPriceCsv.Some? && g.maxGasPriceCsv.Some?
    && GoodRails(GuardRails(g.minGasPriceCsv.value, g.maxGasPriceCsv.value, g.maxGasWizard, g.maxGasDeploy))
    && m.globalMinGasPrice.Some? && m.globalMinGasPrice.value >= 0
  }

  /** The parameters Validate lets through as not configured yet. */
  predicate Unset(p: StoredParams) {
    p.feeMode == "" && p.feeTableUsd.posPayment.usdAmount == Some(0)
    && p.systemMsgTypeUrls == [] && p.exemptMsgTypeUrls == []
  }

  /** Without a mode the question whether they are panics on a nil fee. */
  predicate Unanswerable(p: StoredParams) {
    p.feeMode == "" && p.feeTableUsd.posPayment.usdAmount.None?
  }

  ghost predicate ValidStored(p: StoredParams) {
    && (forall c :: c in Configs(p.feeTableUsd) ==> GoodStoredConfig(c))
    && GoodStoredSections(p.oracleParams, p.guardRails, p.minGasPolicy)
    && KnownMode(p.feeMode) && GoodLists(p.systemMsgTypeUrls, p.exemptMsgTypeUrls)
  }

  /* ---------- without nil decimals ---------- */

  ghost predicate Valid(p: Params) {
    && (forall c :: c in Configs(p.feeTableUsd) ==> GoodConfig(c))
    && GoodOracle(p.oracleParams) && GoodRails(p.guardRails) && p.minGasPolicy.globalMinGasPrice >= 0
    && KnownMode(p.feeMode) && GoodLists(p.systemMsgTypeUrls, p.exemptMsgTypeUrls)
  }

  function StoredConfig(c: FeeConfig): ConfigOf<NilDec> {
    FeeConfig(Some(c.usdAmount), FeeSplit(Some(c.split.treasury), Some(c.split.retailWallet),
                                          Some(c.split.tokenDev), Some(c.split.tokenCreator)))
  }

  function StoredTable(t: FeeTableUSD): TableOf<NilDec> {
    FeeTableUSD(StoredConfig(t.posPayment), StoredConfig(t.tokenInteraction), StoredConfig(t.nativeTransfer),
                StoredConfig(t.dexNative), StoredConfig(t.dexUser), StoredConfig(t.deploy), StoredConfig(t.wizard))
  }

  /** How parameters without nil decimals are stored. */
  function Stored(p: Params): StoredParams {
    var (o, g, m) := (p.oracleParams, p.guardRails, p.minGasPolicy);
    Params(
      StoredTable(p.feeTableUsd),
      OracleParams(o.bandRequestId, o.twapWindow, Some(o.deviationLimit), o.fallbackTtl, o.maxPriceAge),
      GuardRails(Some(g.minGasPriceCsv), Some(g.maxGasPriceCsv), g.maxGasWizard, g.maxGasDeploy),
      MinGasPolicy(m.enabled, Some(m.globalMinGasPrice), m.allowPerTxOverride),
      p.treasuryWallet, p.retailWallet, p.tokenDevWallet, p.tokenCreatorWallet,
      p.feeMode, p.systemMsgTypeUrls, p.exemptMsgTypeUrls, p.exemptAddresses)
  }

  /** For parameters without nil decimals, what Validate accepts is what the fee engine calls valid. */
  lemma ValidStoredIff(p: Params)
    ensures ValidStored(Stored(p)) <==> Valid(p)
    ensures !Unanswerable(Stored(p))
  {
    assert !Unanswerable(Stored(p));
    hide GoodLists, GoodOracle, GoodRails, GoodStoredConfig, GoodConfig, Configs, StoredTable, Unanswerable;
    TableStoredIff(p.feeTableUsd);
  }

  lemma ConfigStoredIff(c: FeeConfig)
    ensures GoodStoredConfig(StoredConfig(c)) <==> GoodConfig(c)
  {
  }

  lemma TableStoredIff(t: FeeTableUSD)
    ensures (forall c :: c in Configs(StoredTable(t)) ==> GoodStoredConfig(c))
       <==> (forall c :: c in Configs(t) ==> GoodConfig(c))
  {
    var stored, plain := Configs(StoredTable(t)), Configs(t);
    assert forall k :: 0 <= k < 7 ==> stored[k] == StoredConfig(plain[k]);
    hide StoredConfig, GoodStoredConfig, GoodConfig, StoredTable, Configs;
    forall k | 0 <= k < 7
      ensures GoodStoredConfig(stored[k]) <==> GoodConfig(plain[k])
      ensures stored[k] in stored && plain[k] in plain
    {
      ConfigStoredIff(plain[k]);
    }
  }

  method ValidateHybridFields<D>(p: ParamsOf<D>) returns (ok: bool)
    ensures ok <==> KnownMode(p.feeMode) && GoodLists(p.systemMsgTypeUrls, p.exemptMsgTypeUrls)
    ensures ok <==> var system, exempt := p.systemMsgTypeUrls, p.exemptMsgTypeUrls;
            && p.feeMode in {"", "table", "hybrid", "gas_only"}
            && (forall i, j :: 0 <= i < j < |system| && system[i] == system[j] ==> system[i] == "")
            && (forall s :: s in system && s in exempt ==> s == "")
  {
    if p.feeMode != "" && p.feeMode != "table" && p.feeMode != "hybrid" && p.feeMode != "gas_only" {
      return false;
    }
    var system, exempt := p.systemMsgTypeUrls, p.exemptMsgTypeUrls;
    var seen: set<string> := {};
    var i := 0;
    while i < |system|
      invariant i <= |system|
      invariant forall s :: s in seen <==> s != "" && s in system[..i]
      invariant forall j, k :: 0 <= j < k < i && system[j] != "" ==> system[j] != system[k]
    {
      if system[i] != "" {
        if system[i] in seen {
          var j :| 0 <= j < i && system[j] == system[i];
          return false;
        }
        seen := seen + {system[i]};
      }
      assert system[..i + 1] == system[..i] + [system[i]];
      i := i + 1;
    }
    assert system[..i] == system;
    i := 0;
    while i < |exempt|
      invariant i <= |exempt|
      invariant forall j :: 0 <= j < i && exempt[j] != "" ==> exempt[j] !in seen
    {
      if exempt[i] != "" && exempt[i] in seen {
        var j :| 0 <= j < |system| && system[j] == exempt[i];
        return false;
      }
      i := i + 1;
    }
    ok := true;
  }

  /** What an entry with a fee must meet. */
  ghost predicate ChargeableEntry(c: ConfigOf<NilDec>) {
    c.usdAmount == None || c.usdAmount == Some(0)
    || (c.usdAmount.value > 0
        && OrZero(c.split.treasury) + OrZero(c.split.retailWallet) + OrZero(c.split.tokenDev)
           + OrZero(c.split.tokenCreator) == 1_000_000_000_000_000_000)
  }

  lemma EntryIff(c: ConfigOf<NilDec>)
    ensures GoodStoredConfig(c) <==> ChargeableEntry(c)
  {
  }

  lemma SevenEntries(t: TableOf<NilDec>)
    ensures (forall c :: c in Configs(t) ==> GoodStoredConfig(c))
       <==> ChargeableEntry(t.posPayment) && ChargeableEntry(t.tokenInteraction)
            && ChargeableEntry(t.nativeTransfer) && ChargeableEntry(t.dexNative)
            && ChargeableEntry(t.dexUser) && ChargeableEntry(t.deploy) && ChargeableEntry(t.wizard)
  {
    forall c ensures GoodStoredConfig(c) <==> ChargeableEntry(c) { EntryIff(c); }
    hide GoodStoredConfig, ChargeableEntry;
    assert forall k :: 0 <= k < 7 ==> Configs(t)[k] in Configs(t);
    assert Configs(t)[0] == t.posPayment && Configs(t)[1] == t.tokenInteraction && Configs(t)[2] == t.nativeTransfer;
    assert Configs(t)[3] == t.dexNative && Configs(t)[4] == t.dexUser;
    assert Configs(t)[5] == t.deploy && Configs(t)[6] == t.wizard;
  }

  method ValidateFeeTable(t: TableOf<NilDec>) returns (ok: bool)
    ensures ok <==> forall c :: c in Configs(t) ==> GoodStoredConfig(c)
    ensures ok <==> ChargeableEntry(t.posPayment) && ChargeableEntry(t.tokenInteraction)
                    && ChargeableEntry(t.nativeTransfer) && ChargeableEntry(t.dexNative)
                    && ChargeableEntry(t.dexUser) && ChargeableEntry(t.deploy) && ChargeableEntry(t.wizard)
  {
    SevenEntries(t);
    hide ChargeableEntry;
    var configs := Configs(t);
    var i := 0;
    while i < |configs|
      invariant i <= |configs|
      invariant forall j :: 0 <= j < i ==> GoodStoredConfig(configs[j])
    {
      var config := configs[i];
      assert config in configs;
      if config.usdAmount.Some? {
        if config.usdAmount.value < 0 { return false; }
        var split := config.split;
        var treasury, retail, dev, creator := split.treasury, split.retailWallet, split.tokenDev, split.tokenCreator;
        if treasury.None? {
          treasury := Some(0);
        }
        if retail.None? {
          retail := Some(0);
        }
        if dev.None? {
          dev := Some(0);
        }
        if creator.None? {
          creator := Some(0);
        }
        var total := treasury.value + retail.value + dev.value + creator.value;
        if config.usdAmount.value != 0 && total != ONE { return false; }
      }
      i := i + 1;
    }
    ok := true;
  }

  method ValidateOracleParams(o: OracleOf<NilDec>) returns (ok: bool)
    ensures ok <==> o.bandRequestId > 0 && o.twapWindow > 0 && o.fallbackTtl > 0 && o.maxPriceAge > 0
                    && o.deviationLimit.Some? && 0 <= o.deviationLimit.value <= 1_000_000_000_000_000_000
  {
    if o.bandRequestId == 0 { return false; }
    if o.twapWindow <= 0 { return false; }
    if o.deviationLimit.None? { return false; }
    if o.deviationLimit.value < 0 || o.deviationLimit.value > ONE { return false; }
    if o.fallbackTtl <= 0 { return false; }
    if o.maxPriceAge <= 0 { return false; }
    ok := true;
  }

  method ValidateGuardRails(g: RailsOf<NilDec>) returns (ok: bool)
    ensures ok <==> g.minGasPriceCsv.Some? && g.maxGasPriceCsv.Some?
                    && 0 <= g.minGasPriceCsv.value <= g.maxGasPriceCsv.value
                    && g.maxGasWizard > 0 && g.maxGasDeploy > 0
  {
    if g.minGasPriceCsv.None? { return false; }
    if g.minGasPriceCsv.value < 0 { return false; }
    if g.maxGasPriceCsv.None? { return false; }
    if g.maxGasPriceCsv.value < 0 { return false; }
    if g.minGasPriceCsv.value > g.maxGasPriceCsv.value { return false; }
    if g.maxGasWizard == 0 { return false; }
    if g.maxGasDeploy == 0 { return false; }
    ok := true;
  }

  method ValidateMinGasPolicy(m: PolicyOf<NilDec>) returns (ok: bool)
    ensures ok <==> m.globalMinGasPrice.Some? && m.globalMinGasPrice.value >= 0
  {
    if m.globalMinGasPrice.None? { return false; }
    ok := m.globalMinGasPrice.value >= 0;
  }

  /** Validate: everything is checked unless the parameters look unset; false is an error or a
      panic. */
  method Validate(p: StoredParams) returns (ok: bool)
    ensures ok <==> !Unanswerable(p) && (Unset(p) || ValidStored(p))
  {
    if p.feeMode == "" {
      var fee := p.feeTableUsd.posPayment.usdAmount;
      if fee.None? { return false; }
      if fee.value == 0 && |p.systemMsgTypeUrls| == 0 && |p.exemptMsgTypeUrls| == 0 { return true; }
    }
    ok := ValidateFeeTable(p.feeTableUsd);
    if !ok { return; }
    ok := ValidateOracleParams(p.oracleParams);
    if !ok { return; }
    ok := ValidateGuardRails(p.guardRails);
    if !ok { return; }
    ok := ValidateMinGasPolicy(p.minGasPolicy);
    if !ok { return; }
    ok := ValidateHybridFields(p);
  }
}
