/** The fee keeper and its callers as the source writes them: amounts reassigned by clamp and remap,
    then sends one after the other on the bank's ledger. */
module FeeKeeper {
  import opened Common
  import opened Decimal
  import opened Wire
  import opened FeeParams
  import opened FeeEstimate
  import opened Ledger
  import opened Distribution
  import opened FeeCollection

  /** The amounts of one distribution: truncated, clamped, remapped. */
  method ComputeShares(split: FeeSplit, amount: int, r: Recipients) returns (s: Shares)
    ensures s == FinalShares(split, amount, r)
  {
    var treasuryAmount := TruncateInt(MulInt(split.treasury, amount));
    var retailWalletAmount := TruncateInt(MulInt(split.retailWallet, amount));
    var tokenDevAmount := TruncateInt(MulInt(split.tokenDev, amount));
    var tokenCreatorAmount := TruncateInt(MulInt(split.tokenCreator, amount));
    hide TruncateInt;
    var total := treasuryAmount + retailWalletAmount + tokenDevAmount + tokenCreatorAmount;
    if total > amount {
      treasuryAmount := amount - retailWalletAmount - tokenDevAmount - tokenCreatorAmount;
    }
    var remap := 0;
    if r.retail.None? {
      remap := remap + retailWalletAmount;
      retailWalletAmount := 0;
    }
    if r.dev.None? {
      remap := remap + tokenDevAmount;
      tokenDevAmount := 0;
    }
    if r.creator.None? {
      remap := remap + tokenCreatorAmount;
      tokenCreatorAmount := 0;
    }
    if remap != 0 {
      treasuryAmount := treasuryAmount + remap;
    }
    s := Shares(treasuryAmount, retailWalletAmount, tokenDevAmount, tokenCreatorAmount);
  }

  method ResolveRecipients(p: Params, md: map<string, string>, decode: AddressCodec) returns (r: Recipients)
    ensures r == Resolve(p, md, decode) && Rightful(p, md, decode, r)
  {
    RightfulIff(p, md, decode, Resolve(p, md, decode));
    hide Rightful;
    var retailAddr, devAddr, creatorAddr := None, None, None;
    if "retail_address" in md && md["retail_address"] != "" {
      retailAddr := decode(md["retail_address"]);
    }
    if "creator_address" in md && md["creator_address"] != "" {
      creatorAddr := decode(md["creator_address"]);
    }
    if "dev_address" in md && md["dev_address"] != "" {
      devAddr := decode(md["dev_address"]);
    }
    if creatorAddr.None? && devAddr.Some? {
      creatorAddr := devAddr;
    }
    if devAddr.None? && creatorAddr.Some? {
      devAddr := creatorAddr;
    }
    if retailAddr.None? && p.retailWallet != "" {
      retailAddr := decode(p.retailWallet);
    }
    if devAddr.None? && p.tokenDevWallet != "" {
      devAddr := decode(p.tokenDevWallet);
    }
    if creatorAddr.None? && p.tokenCreatorWallet != "" {
      creatorAddr := decode(p.tokenCreatorWallet);
    }
    r := Recipients(retailAddr, devAddr, creatorAddr);
  }

  class Keeper {
    const chain: Chain
    var book: Book

    constructor (chain: Chain, book: Book)
      ensures this.chain == chain && this.book == book
    {
      this.chain, this.book := chain, book;
    }

    /** The bank's SendCoins for one coin; false is its error or the panic on a negative amount. */
    method SendCoin(denom: string, from: string, to: string, amount: int) returns (ok: bool)
      modifies this
      ensures ok == Transfer(old(book), denom, from, to, amount).Some?
      ensures book == if ok then Transfer(old(book), denom, from, to, amount).value else old(book)
    {
      if amount < 0 || Balance(book, denom, from) < amount { return false; }
      book := Put(book, denom, from, Balance(book, denom, from) - amount);
      book := Put(book, denom, to, Balance(book, denom, to) + amount);
      ok := true;
    }

    /** SendCoinsFromModuleToAccount and SendCoins differ in the blocked addresses only. */
    method PayShare(denom: string, from: string, to: Option<string>, amount: int, blocked: set<string>)
      returns (ok: bool)
      modifies this
      ensures ok == PayOptional(old(book), denom, from, to, amount, blocked).Some?
      ensures ok ==> book == PayOptional(old(book), denom, from, to, amount, blocked).value
    {
      if amount == 0 || to.None? { return true; }
      if to.value in blocked { return false; }
      ok := SendCoin(denom, from, to.value, amount);
    }

    method SendShares(denom: string, from: string, s: Shares, r: Recipients, blocked: set<string>) returns (ok: bool)
      modifies this
      ensures ok == PayShares(old(book), denom, from, s, r, blocked).Some?
      ensures ok ==> book == PayShares(old(book), denom, from, s, r, blocked).value
    {
      hide Transfer;
      if s.treasury != 0 {
        ok := SendCoin(denom, from, TREASURY, s.treasury);
        if !ok { return; }
      }
      ok := PayShare(denom, from, r.retail, s.retail, blocked);
      if !ok { return; }
      ok := PayShare(denom, from, r.dev, s.dev, blocked);
      if !ok { return; }
      ok := PayShare(denom, from, r.creator, s.creator, blocked);
    }

    method DistributeFeeFromModule(p: Params, feeType: string, coin: Coin) returns (ok: bool)
      modifies this
      ensures ok == DistributeFromModule(old(book), chain, p, feeType, coin).Some?
      ensures ok ==> book == DistributeFromModule(old(book), chain, p, feeType, coin).value
    {
      hide PayShares, FinalShares;
      var config := ConfigByType(p.feeTableUsd, feeType, true);
      var r := ResolveRecipients(p, map[], chain.decode);
      var s := ComputeShares(config.split, coin.amount, r);
      ok := SendShares(coin.denom, FEES, s, r, chain.blocked);
    }

    method DistributeFee(p: Params, sender: string, feeType: string, coin: Coin, md: map<string, string>)
      returns (ok: bool)
      modifies this
      ensures ok == DistributeFrom(old(book), chain, p, sender, feeType, coin, md).Some?
      ensures ok ==> book == DistributeFrom(old(book), chain, p, sender, feeType, coin, md).value
    {
      hide PayShares, FinalShares;
      var config := ConfigByType(p.feeTableUsd, feeType, false);
      var r := ResolveRecipients(p, md, chain.decode);
      var s := ComputeShares(config.split, coin.amount, r);
      ok := SendShares(coin.denom, sender, s, r, {});
    }

    /** deductFees */
    method DeductFees(payer: string, fee: seq<Coin>) returns (ok: bool)
      modifies this
      ensures ok == (payer in chain.known && DeductAll(old(book), payer, fee).Some?)
      ensures ok ==> book == DeductAll(old(book), payer, fee).value
    {
      hide Transfer;
      if payer !in chain.known { return false; }
      var i := 0;
      while i < |fee|
        invariant i <= |fee| && DeductAll(old(book), payer, fee) == DeductAll(book, payer, fee[i..])
      {
        assert fee[i..][1..] == fee[i + 1..];
        if fee[i].amount <= 0 { return false; }
        var sent := SendCoin(fee[i].denom, payer, FEES, fee[i].amount);
        if !sent { return false; }
        i := i + 1;
      }
      ok := true;
    }

    /** distributeFees: each coin by the category of the estimate. */
    method DistributeFees(p: Params, fee: seq<Coin>, feeType: string) returns (ok: bool)
      modifies this
      ensures ok == DistributeAll(old(book), chain, p, feeType, fee).Some?
      ensures ok ==> book == DistributeAll(old(book), chain, p, feeType, fee).value
    {
      hide DistributeFromModule;
      var i := 0;
      while i < |fee|
        invariant i <= |fee|
        invariant DistributeAll(old(book), chain, p, feeType, fee) == DistributeAll(book, chain, p, feeType, fee[i..])
      {
        assert fee[i..][1..] == fee[i + 1..];
        var done := DistributeFeeFromModule(p, feeType, fee[i]);
        if !done { return false; }
        i := i + 1;
      }
      ok := true;
    }

    /** DeductFeeDecorator.AnteHandle, with the rollback of a refused transaction. The category is
        the one the estimate left in the context, native_transfer when there is none. */
    method CollectFees(p: Params, payer: string, fee: seq<Coin>, admission: Admission) returns (ok: bool)
      modifies this
      ensures var feeType :=
                if admission.Admitted? then CategoryText(admission.estimate.category) else "native_transfer";
              ok == Collect(old(book), chain, p, payer, fee, feeType).Some?
              && book == CollectTx(old(book), chain, Tx(p, payer, fee, feeType))
    {
      hide DeductAll, DistributeAll;
      var feeType := "native_transfer";
      if admission.Admitted? {
        feeType := CategoryText(admission.estimate.category);
      }
      if IsZero(fee) { return true; }
      var before := book;
      ok := DeductFees(payer, fee);
      if ok {
        ok := DistributeFees(p, fee, feeType);
      }
      if !ok {
        book := before;
      }
    }

    /** MsgChargeFee, with the rollback of a failed message. */
    method ChargeFee(p: Params, creator: string, category: string, md: map<string, string>, rate: Option<Dec>)
      returns (charged: Option<int>)
      modifies this
      ensures var r := FeeCollection.ChargeFee(old(book), chain, p, creator, category, md, rate);
              match r
              case None => charged == None && book == old(book)
              case Some(done) => charged == Some(done.1) && book == done.0
    {
      hide ConvertUSDToCSV, DistributeFrom, TruncateInt, Balance;
      var sender := chain.decode(creator);
      if sender.None? { return None; }
      var config := ChargeConfig(p.feeTableUsd, category);
      if config.None? { return None; }
      if category == "deploy" || category == "wizard" { return Some(0); }
      var csvAmount := ConvertUSDToCSV(config.value.usdAmount, rate);
      var feeucsv := TruncateInt(MulInt(csvAmount, 1_000_000));
      if Balance(book, CSV_DENOM, sender.value) < feeucsv { return None; }
      if feeucsv < 0 { return None; }
      var before := book;
      var ok := DistributeFee(p, sender.value, category, Coin(CSV_DENOM, feeucsv), md);
      if !ok || feeucsv >= TWO_TO_THE_64 {
        book := before;
        return None;
      }
      charged := Some(feeucsv);
    }
  }
}
