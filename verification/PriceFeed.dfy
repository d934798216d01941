/** The price feed on top of the query protocol: the begin-block scheduler, the consumer that turns
    delivered values into the stored price, and runs of the two together. */
module PriceFeed {
  import opened Common
  import opened Decimal
  import opened PendingKeys
  import opened PriceGuard
  import Icq = IcqProtocol
  import opened Wire

  datatype Params = Params(
    connectionId: string, updateInterval: UInt64, poolId: UInt64,
    baseDenom: string, quoteDenom: string, useTwap: bool, twapWindow: UInt64,
    minLiquidity: Option<Dec>, maxDeviation: Option<Dec>)

  datatype Feed = Feed(
    params: Option<Params>,
    lastUpdate: Option<int>, nextUpdate: Option<int>, lastResultTime: Option<int>,
    queryIds: map<string, string>,
    csvPrice: Option<Dec>)

  datatype Quote = Quote(price: Dec, liquidity: Dec)

  /** The decoder of query values; the real one parses JSON or "price|liquidity" text. */
  type Decoder = string -> Option<Quote>

  /** GetCSVPerUSD: zero until a price is set. */
  function StoredPrice(f: Feed): Dec {
    if f.csvPrice.None? then 0 else f.csvPrice.value
  }

  /* ---------- the consumer ---------- */

  /** ValidateAndPersistPrice; None is an error return. */
  function Persist(f: Feed, price: Dec, liquidity: Dec, now: int): Option<Feed> {
    if f.params.None? then None
    else
      match Judge(f.params.value.minLiquidity, f.params.value.maxDeviation, StoredPrice(f), price, liquidity)
      case BadParams => None
      case LowLiquidity => Some(f)
      case TooFar => Some(f)
      case Accepted => Some(f.(csvPrice := Some(price), lastResultTime := Some(now)))
  }

  /** HandleTwapResult and HandleSpotResult, which are the same text. */
  function HandleResult(f: Feed, quote: Quote, now: int): Option<Feed> {
    var price := if f.params.None? then quote.price
                 else Normalize(f.params.value.baseDenom, f.params.value.quoteDenom, quote.price);
    Persist(f, price, quote.liquidity, now)
  }

  /** OnKVResult */
  function OnKVResult(f: Feed, decode: Decoder, store: string, value: string, now: int): Option<Feed> {
    if value == "" then None
    else if store != "twap" && store != "gamm" then Some(f)
    else if f.params.None? then None
    else
      match decode(value)
      case None => None
      case Some(quote) => HandleResult(f, quote, now)
  }

  /* ---------- the scheduler ---------- */

  function TwapKey(p: Params): string {
    "twap/" + p.baseDenom + "/" + p.quoteDenom + "/" + FormatUint(p.twapWindow)
  }

  function PoolKey(p: Params): string {
    "pool/" + FormatUint(p.poolId)
  }

  /** Whether ScheduleQueriesIfDue goes past its gates at time `now`. */
  predicate Due(f: Feed, now: int) {
    && f.params.Some? && f.params.value.updateInterval != 0
    && (match f.nextUpdate
        case Some(next) => now >= next
        case None => f.lastUpdate.None? || now >= AsInt64(f.lastUpdate.value + f.params.value.updateInterval))
  }

  /** Marking the round: the last and the next time, with Go's wrapping addition. */
  function Mark(f: Feed, now: int): Feed
    requires f.params.Some?
  {
    f.(lastUpdate := Some(now), nextUpdate := Some(AsInt64(now + f.params.value.updateInterval)))
  }

  datatype World = World(icq: Icq.State, feed: Feed)

  /** RegisterKVQuery, whose failures the scheduler swallows. */
  function Register(w: World, name: string, connection: string, store: string, key: string, accepted: bool): World {
    var (icq, qid) := Icq.Send(w.icq, connection, store, key, accepted);
    World(icq, if qid.None? then w.feed else w.feed.(queryIds := w.feed.queryIds[name := qid.value]))
  }

  /** The registrations of one round: TWAP with the pool as fallback, or the pool alone. */
  function RegisterAll(w: World, p: Params, accepted: (bool, bool)): World {
    if p.connectionId == "" then w
    else
      var w1 := if p.useTwap then Register(w, "twap", p.connectionId, "twap", TwapKey(p), accepted.0) else w;
      Register(w1, "spot", p.connectionId, "gamm", PoolKey(p), accepted.1)
  }

  /** ScheduleQueriesIfDue at the begin of a block; `accepted` is what IBC core answers to the two
      sends. */
  function Schedule(w: World, now: int, accepted: (bool, bool)): World {
    if !Due(w.feed, now) then w
    else
      var w1 := RegisterAll(w, w.feed.params.value, accepted);
      w1.(feed := Mark(w1.feed, now))
  }

  /* ---------- runs of the whole ---------- */

  datatype Event =
    | BlockEv(now: int, accepted: (bool, bool))
    | OpenEv(channel: string, hops: seq<string>, version: string)
    | CloseEv(channel: string)
    | AckEv(id: PacketId, ack: Icq.Ack, now: int)
    | TimeoutEv(id: PacketId)
    | ParamsEv(params: Params)
    | SetPriceEv(price: Dec)

  /** An acknowledgement with the feed as the consumer; an error rolls the whole step back. */
  function Acknowledge(w: World, decode: Decoder, id: PacketId, ack: Icq.Ack, now: int): World {
    if id !in w.icq.inFlight then w
    else
      match Icq.OnAck(w.icq, id, ack, true)
      case Deliver(c, value) =>
        (match OnKVResult(w.feed, decode, c.store, value, now)
         case None => World(Icq.Acknowledge(w.icq, id, ack, true, false), w.feed)
         case Some(feed) => World(Icq.Acknowledge(w.icq, id, ack, true, true), feed))
      case _ => World(Icq.Acknowledge(w.icq, id, ack, true, false), w.feed)
  }

  function Step(w: World, decode: Decoder, e: Event): World {
    match e
    case BlockEv(now, accepted) => Schedule(w, now, accepted)
    case OpenEv(channel, hops, version) => w.(icq := Icq.Open(w.icq, channel, hops, version))
    case CloseEv(channel) => w.(icq := Icq.Close(w.icq, channel))
    case AckEv(id, ack, now) => Acknowledge(w, decode, id, ack, now)
    case TimeoutEv(id) => w.(icq := Icq.Timeout(w.icq, id))
    case ParamsEv(params) => w.(feed := w.feed.(params := Some(params)))
    case SetPriceEv(price) => if price > 0 then w.(feed := w.feed.(csvPrice := Some(price))) else w
  }

  function Run(w: World, decode: Decoder, events: seq<Event>): World
    decreases |events|
  {
    if events == [] then w else Run(Step(w, decode, events[0]), decode, events[1..])
  }

  /* ---------- the protocol invariant survives the scheduler and the consumer ---------- */

  lemma RegisterKeepsInv(w: World, name: string, connection: string, store: string, key: string, accepted: bool)
    requires Icq.Inv(w.icq)
    ensures var w' := Register(w, name, connection, store, key, accepted);
            Icq.Inv(w'.icq) && w'.feed == w.feed.(queryIds := w'.feed.queryIds)
  {
    hide Icq.Inv, Icq.Send;
    Icq.SendKeepsInv(w.icq, connection, store, key, accepted);
  }

  lemma RegisterAllKeepsInv(w: World, p: Params, accepted: (bool, bool))
    requires Icq.Inv(w.icq)
    ensures var w' := RegisterAll(w, p, accepted);
            Icq.Inv(w'.icq) && w'.feed == w.feed.(queryIds := w'.feed.queryIds)
  {
    hide Icq.Inv, Register;
    if p.connectionId != "" {
      var w1 := w;
      if p.useTwap {
        RegisterKeepsInv(w, "twap", p.connectionId, "twap", TwapKey(p), accepted.0);
        w1 := Register(w, "twap", p.connectionId, "twap", TwapKey(p), accepted.0);
      }
      RegisterKeepsInv(w1, "spot", p.connectionId, "gamm", PoolKey(p), accepted.1);
    }
  }

  lemma StepKeepsInv(w: World, decode: Decoder, e: Event)
    requires Icq.Inv(w.icq)
    ensures Icq.Inv(Step(w, decode, e).icq)
  {
    hide Icq.Inv, RegisterAll, Icq.Acknowledge, OnKVResult;
    match e
    case BlockEv(now, accepted) =>
      if Due(w.feed, now) { RegisterAllKeepsInv(w, w.feed.params.value, accepted); }
    case OpenEv(channel, hops, version) => Icq.OpenKeepsInv(w.icq, channel, hops, version);
    case CloseEv(channel) => Icq.CloseKeepsInv(w.icq, channel);
    case AckEv(id, ack, now) =>
      Icq.AcknowledgeKeepsInv(w.icq, id, ack, true, true);
      Icq.AcknowledgeKeepsInv(w.icq, id, ack, true, false);
    case TimeoutEv(id) => Icq.StepKeepsInv(w.icq, Icq.TimeoutEv(id));
    case ParamsEv(params) =>
    case SetPriceEv(price) =>
  }

  /** In every reachable state of the whole system the query protocol's invariant holds. */
  lemma {:induction false} RunKeepsInv(w: World, decode: Decoder, events: seq<Event>)
    requires Icq.Inv(w.icq)
    ensures Icq.Inv(Run(w, decode, events).icq)
    decreases |events|
  {
    hide Icq.Inv, Step;
    if events != [] {
      StepKeepsInv(w, decode, events[0]);
      RunKeepsInv(Step(w, decode, events[0]), decode, events[1..]);
    }
  }

  /* ---------- price drift ---------- */

  /** Whether a step stores a price that the guards accepted. */
  predicate Accepts(w: World, decode: Decoder, e: Event) {
    && e.AckEv? && e.id in w.icq.inFlight && w.feed.params.Some?
    && var action := Icq.OnAck(w.icq, e.id, e.ack, true);
       action.Deliver? && (action.correlation.store == "twap" || action.correlation.store == "gamm")
       && var quote := decode(action.payload);
          quote.Some? && Verdict(w.feed, quote.value) == Accepted
  }

  function NewPrice(f: Feed, quote: Quote): Dec
    requires f.params.Some?
  {
    Normalize(f.params.value.baseDenom, f.params.value.quoteDenom, quote.price)
  }

  function Verdict(f: Feed, quote: Quote): PriceGuard.Verdict
    requires f.params.Some?
  {
    Judge(f.params.value.minLiquidity, f.params.value.maxDeviation, StoredPrice(f), NewPrice(f, quote), quote.liquidity)
  }

  /** Only an accepted result touches the price or the result time, unless the parameters or the
      price are set by hand; a dropped or failed one leaves both. */
  lemma OnlyAcceptedMoves(w: World, decode: Decoder, e: Event)
    requires !e.ParamsEv? && !e.SetPriceEv?
    ensures var w' := Step(w, decode, e);
            w'.feed.params == w.feed.params
            && (Accepts(w, decode, e) ==>
                  var quote := decode(Icq.OnAck(w.icq, e.id, e.ack, true).payload).value;
                  w'.feed.csvPrice == Some(NewPrice(w.feed, quote)) && w'.feed.lastResultTime == Some(e.now))
            && (!Accepts(w, decode, e) ==>
                  w'.feed.csvPrice == w.feed.csvPrice && w'.feed.lastResultTime == w.feed.lastResultTime)
  {
    hide Icq.Send, Icq.Acknowledge, Judge, Normalize;
  }

  function AcceptedCount(w: World, decode: Decoder, events: seq<Event>): nat
    decreases |events|
  {
    if events == [] then 0
    else
      (if Accepts(w, decode, events[0]) then 1 else 0)
      + AcceptedCount(Step(w, decode, events[0]), decode, events[1..])
  }

  /** A deviation guard that is on and allows no more than d, if it parses at all. */
  predicate GuardWithin(p: Params, d: Dec) {
    p.maxDeviation.Some? ==> 0 < p.maxDeviation.value <= d
  }

  predicate Guarded(f: Feed, d: Dec) {
    f.params.Some? ==> GuardWithin(f.params.value, d)
  }

  /** The price is not set by hand, and new parameters leave the guard on and within d. */
  predicate Steady(e: Event, d: Dec) {
    !e.SetPriceEv? && (e.ParamsEv? ==> GuardWithin(e.params, d))
  }

  lemma DriftOneStep(w: World, decode: Decoder, e: Event, d: Dec, p0: Dec, n: nat)
    requires 0 < d < ONE && Guarded(w.feed, d) && Steady(e, d) && p0 > 0
    requires WithinDrift(p0, StoredPrice(w.feed), d, n)
    ensures var w' := Step(w, decode, e);
            Guarded(w'.feed, d)
            && WithinDrift(p0, StoredPrice(w'.feed), d, n + if Accepts(w, decode, e) then 1 else 0)
  {
    hide WithinDrift, Judge, Normalize, Icq.Send, Icq.Acknowledge;
    if !e.ParamsEv? {
      OnlyAcceptedMoves(w, decode, e);
      hide Step;
      if Accepts(w, decode, e) {
        var quote := decode(Icq.OnAck(w.icq, e.id, e.ack, true).payload).value;
        AcceptedDrift(w.feed, quote, d, p0, n);
      }
    }
  }

  lemma AcceptedDrift(f: Feed, quote: Quote, d: Dec, p0: Dec, n: nat)
    requires 0 < d < ONE && f.params.Some? && Guarded(f, d) && p0 > 0
    requires WithinDrift(p0, StoredPrice(f), d, n) && Verdict(f, quote) == Accepted
    ensures WithinDrift(p0, NewPrice(f, quote), d, n + 1)
  {
    hide WithinDrift, Normalize;
    var p := f.params.value;
    DriftStep(p.minLiquidity.value, p.maxDeviation.value, d, p0, StoredPrice(f), n,
              NewPrice(f, quote), quote.liquidity);
  }

  lemma {:induction false} DriftFrom(w: World, decode: Decoder, events: seq<Event>, d: Dec, p0: Dec, n: nat)
    requires 0 < d < ONE && Guarded(w.feed, d) && p0 > 0 && forall e :: e in events ==> Steady(e, d)
    requires WithinDrift(p0, StoredPrice(w.feed), d, n)
    ensures WithinDrift(p0, StoredPrice(Run(w, decode, events).feed), d, n + AcceptedCount(w, decode, events))
    decreases |events|
  {
    hide Step, WithinDrift, Accepts, Guarded, Steady;
    if events != [] {
      DriftOneStep(w, decode, events[0], d, p0, n);
      var n' := n + if Accepts(w, decode, events[0]) then 1 else 0;
      DriftFrom(Step(w, decode, events[0]), decode, events[1..], d, p0, n');
    }
  }

  /** Over any run of blocks, channel events, acknowledgements, timeouts and parameter changes, with
      a positive starting price and every deviation guard on and at most d < 1, the price after n
      accepted results is positive and within the n-th power of (1 ± (d + 10^-18)) of where it
      started. With a constant guard, d is MaxDeviation. */
  lemma PriceDrift(w: World, decode: Decoder, events: seq<Event>, d: Dec)
    requires 0 < d < ONE && Guarded(w.feed, d) && StoredPrice(w.feed) > 0
    requires forall e :: e in events ==> Steady(e, d)
    ensures var n := AcceptedCount(w, decode, events);
            var p0, p := StoredPrice(w.feed), StoredPrice(Run(w, decode, events).feed);
            p > 0 && p0 * Pow(ONE - d - 1, n) <= p * Pow(ONE, n) <= p0 * Pow(ONE + d + 1, n)
  {
    hide Step, Accepts, Guarded, Steady;
    DriftFrom(w, decode, events, d, StoredPrice(w.feed), 0);
  }

  /* ---------- the scheduler's rate ---------- */

  datatype Firing = Firing(time: int, interval: UInt64)

  /** The rounds a run of blocks fires, with the interval in force at each. */
  function Firings(w: World, decode: Decoder, events: seq<Event>): seq<Firing>
    decreases |events|
  {
    if events == [] then []
    else
      var rest := Firings(Step(w, decode, events[0]), decode, events[1..]);
      if events[0].BlockEv? && Due(w.feed, events[0].now)
      then [Firing(events[0].now, w.feed.params.value.updateInterval)] + rest
      else rest
  }

  /** The next due time of a round fits the 64-bit clock. */
  predicate Fits(firing: Firing) {
    -TWO_TO_THE_63 <= firing.time && firing.time + firing.interval < TWO_TO_THE_63
  }

  /** A round fired at `now` holds the next one back for its interval exactly when the addition of
      the interval to the clock does not overflow; when it overflows, every later block is due. A
      non-negative clock plus an interval of 2^63 or more always overflows. */
  lemma RateLimitIff(f: Feed, now: int)
    requires Due(f, now) && -TWO_TO_THE_63 <= now < TWO_TO_THE_63
    ensures (forall later :: later >= now && Due(Mark(f, now), later) ==> later >= now + f.params.value.updateInterval)
       <==> now + f.params.value.updateInterval < TWO_TO_THE_63
    ensures (forall later :: later >= now ==> Due(Mark(f, now), later))
       <==> now + f.params.value.updateInterval >= TWO_TO_THE_63
  {
    var I := f.params.value.updateInterval;
    var next := AsInt64(now + I);
    if now + I >= TWO_TO_THE_63 {
      assert next == now + I - TWO_TO_THE_64;
    }
    assert Due(Mark(f, now), now) <==> next <= now;
  }

  lemma ScheduleClock(w: World, decode: Decoder, e: Event)
    ensures var w' := Step(w, decode, e);
            if e.BlockEv? && Due(w.feed, e.now) then
              w'.feed.lastUpdate == Some(e.now)
              && w'.feed.nextUpdate == Some(AsInt64(e.now + w.feed.params.value.updateInterval))
            else w'.feed.lastUpdate == w.feed.lastUpdate && w'.feed.nextUpdate == w.feed.nextUpdate
  {
    hide Icq.Send, Icq.Acknowledge, Judge, Normalize;
  }

  /** In every state of a run the clock is that of the latest round, however long ago and whatever
      parameters came since: LastUpdate is its time, and NextUpdate is LastUpdate plus the interval
      in force then, when that fits. */
  lemma {:induction false} ClockIsLatestRound(w: World, decode: Decoder, events: seq<Event>)
    ensures var log, f := Firings(w, decode, events), Run(w, decode, events).feed;
            if log == [] then f.lastUpdate == w.feed.lastUpdate && f.nextUpdate == w.feed.nextUpdate
            else
              var latest := log[|log| - 1];
              f.lastUpdate == Some(latest.time)
              && (Fits(latest) ==> f.nextUpdate == Some(f.lastUpdate.value + latest.interval))
    decreases |events|
  {
    hide Step, Due;
    if events != [] {
      ScheduleClock(w, decode, events[0]);
      ClockIsLatestRound(Step(w, decode, events[0]), decode, events[1..]);
    }
  }

  lemma FittingClock(firing: Firing)
    requires Fits(firing)
    ensures AsInt64(firing.time + firing.interval) == firing.time + firing.interval
  {
  }

  /** Every round from here on fires no earlier than the scheduled time. */
  lemma {:induction false} FiresFrom(w: World, decode: Decoder, events: seq<Event>, next: int)
    requires w.feed.nextUpdate == Some(next)
    requires forall k :: 0 <= k < |Firings(w, decode, events)| ==> Fits(Firings(w, decode, events)[k])
    ensures var log := Firings(w, decode, events);
            (log != [] ==> log[0].time >= next)
            && forall k :: 0 <= k < |log| - 1 ==> log[k + 1].time >= log[k].time + log[k].interval
    decreases |events|
  {
    hide Step;
    if events != [] {
      var e, log := events[0], Firings(w, decode, events);
      var w' := Step(w, decode, e);
      var rest := Firings(w', decode, events[1..]);
      ScheduleClock(w, decode, e);
      if e.BlockEv? && Due(w.feed, e.now) {
        assert Fits(log[0]) && forall k :: 0 <= k < |rest| ==> rest[k] == log[k + 1];
        FittingClock(log[0]);
        FiresFrom(w', decode, events[1..], e.now + log[0].interval);
      } else {
        FiresFrom(w', decode, events[1..], next);
      }
    }
  }

  /** Over any run, whatever happens to the parameters in between, two consecutive rounds are at
      least the interval in force at the earlier one apart. */
  lemma {:induction false} FiringsAreSpaced(w: World, decode: Decoder, events: seq<Event>)
    requires forall k :: 0 <= k < |Firings(w, decode, events)| ==> Fits(Firings(w, decode, events)[k])
    ensures var log := Firings(w, decode, events);
            forall k :: 0 <= k < |log| - 1 ==> log[k + 1].time >= log[k].time + log[k].interval
    decreases |events|
  {
    hide Step;
    if events != [] {
      var e, log := events[0], Firings(w, decode, events);
      var w' := Step(w, decode, e);
      var rest := Firings(w', decode, events[1..]);
      ScheduleClock(w, decode, e);
      if e.BlockEv? && Due(w.feed, e.now) {
        assert Fits(log[0]) && forall k :: 0 <= k < |rest| ==> rest[k] == log[k + 1];
        FittingClock(log[0]);
        FiresFrom(w', decode, events[1..], e.now + log[0].interval);
      } else {
        FiringsAreSpaced(w', decode, events[1..]);
      }
    }
  }

  lemma {:induction false} SpacingAdds(log: seq<Firing>, interval: nat)
    requires log != [] && forall k :: 0 <= k < |log| ==> log[k].interval >= interval
    requires forall k :: 0 <= k < |log| - 1 ==> log[k + 1].time >= log[k].time + log[k].interval
    ensures log[|log| - 1].time - log[0].time >= (|log| - 1) * interval
    decreases |log|
  {
    if |log| > 1 {
      SpacingAdds(log[..|log| - 1], interval);
    }
  }

  /** So k rounds at intervals no shorter than a given one span at least k - 1 of those. */
  lemma FiringRate(w: World, decode: Decoder, events: seq<Event>, interval: nat)
    requires var log := Firings(w, decode, events);
             log != [] && forall k :: 0 <= k < |log| ==> Fits(log[k]) && log[k].interval >= interval
    ensures var log := Firings(w, decode, events);
            log[|log| - 1].time - log[0].time >= (|log| - 1) * interval
  {
    FiringsAreSpaced(w, decode, events);
    SpacingAdds(Firings(w, decode, events), interval);
  }

  /* ---------- how far the price can drift in a given time ---------- */

  lemma RegisterAddsOne(w: World, name: string, connection: string, store: string, key: string, accepted: bool)
    requires Icq.Inv(w.icq)
    ensures |Register(w, name, connection, store, key, accepted).icq.pending| <= |w.icq.pending| + 1
  {
    if Icq.Send(w.icq, connection, store, key, accepted).1.Some? {
      Icq.SendSize(w.icq, connection, store, key, accepted);
    } else {
      Icq.SendCases(w.icq, connection, store, key, accepted);
    }
    hide Icq.Inv, Icq.Send;
  }

  lemma RoundAddsTwo(w: World, p: Params, accepted: (bool, bool))
    requires Icq.Inv(w.icq)
    ensures |RegisterAll(w, p, accepted).icq.pending| <= |w.icq.pending| + 2
  {
    hide Icq.Inv, Register;
    if p.connectionId != "" {
      var w1 := w;
      if p.useTwap {
        RegisterKeepsInv(w, "twap", p.connectionId, "twap", TwapKey(p), accepted.0);
        RegisterAddsOne(w, "twap", p.connectionId, "twap", TwapKey(p), accepted.0);
        w1 := Register(w, "twap", p.connectionId, "twap", TwapKey(p), accepted.0);
      }
      RegisterAddsOne(w1, "spot", p.connectionId, "gamm", PoolKey(p), accepted.1);
    }
  }

  /** An acknowledgement that sets the price resolves a pending query; no other adds one. */
  lemma AckSpends(w: World, decode: Decoder, e: Event)
    requires Icq.Inv(w.icq) && e.AckEv?
    ensures (if Accepts(w, decode, e) then 1 else 0) + |Step(w, decode, e).icq.pending| <= |w.icq.pending|
  {
    var consumed := AckIcq(w, decode, e);
    Icq.AckCount(w.icq, e.id, e.ack, true, consumed);
    if Accepts(w, decode, e) {
      Icq.ConsumedResolves(w.icq, e.id, e.ack);
    }
    hide *;
  }

  /** What an acknowledgement does to the controller and core, and that an accepted result was
      delivered. */
  lemma AckIcq(w: World, decode: Decoder, e: Event) returns (consumed: bool)
    requires e.AckEv?
    ensures Step(w, decode, e).icq == Icq.Acknowledge(w.icq, e.id, e.ack, true, consumed)
    ensures Accepts(w, decode, e) ==>
              consumed && e.id in w.icq.inFlight && Icq.OnAck(w.icq, e.id, e.ack, true).Deliver?
  {
    hide Icq.OnAck, Judge, Normalize, Icq.Resolve, Icq.Inv;
    var action := Icq.OnAck(w.icq, e.id, e.ack, true);
    consumed := action.Deliver? && OnKVResult(w.feed, decode, action.correlation.store, action.payload, e.now).Some?;
    if Accepts(w, decode, e) {
      DeliveredValue(w.icq, e.id, e.ack);
    }
  }

  lemma DeliveredValue(s: Icq.State, id: PacketId, ack: Icq.Ack)
    requires Icq.OnAck(s, id, ack, true).Deliver?
    ensures Icq.OnAck(s, id, ack, true).payload != ""
  {
    hide Icq.ExtractValue, PendingKey;
  }

  lemma TimeoutSpends(s: Icq.State, id: PacketId)
    requires Icq.Inv(s)
    ensures |Icq.Timeout(s, id).pending| <= |s.pending|
  {
    if id in s.inFlight { Icq.ResolveSize(s, id); }
    hide Icq.Inv, Icq.Resolve;
  }

  lemma BlockSpends(w: World, now: int, accepted: (bool, bool))
    requires Icq.Inv(w.icq)
    ensures |Schedule(w, now, accepted).icq.pending| <= |w.icq.pending| + (if Due(w.feed, now) then 2 else 0)
  {
    if Due(w.feed, now) { RoundAddsTwo(w, w.feed.params.value, accepted); }
    hide Icq.Inv, RegisterAll, Due;
  }

  lemma OtherSpends(w: World, decode: Decoder, e: Event)
    requires e.OpenEv? || e.CloseEv? || e.ParamsEv? || e.SetPriceEv?
    ensures Step(w, decode, e).icq.pending == w.icq.pending
  {
  }

  lemma StepSpends(w: World, decode: Decoder, e: Event)
    requires Icq.Inv(w.icq)
    ensures (if Accepts(w, decode, e) then 1 else 0) + |Step(w, decode, e).icq.pending|
         <= |w.icq.pending| + (if e.BlockEv? && Due(w.feed, e.now) then 2 else 0)
  {
    if e.AckEv? {
      AckSpends(w, decode, e);
      hide *;
    } else {
      assert !Accepts(w, decode, e);
      hide Icq.Inv, Due, Accepts, Schedule, Icq.Timeout;
      match e
      case BlockEv(now, accepted) => BlockSpends(w, now, accepted);
      case TimeoutEv(id) => TimeoutSpends(w.icq, id);
      case _ => OtherSpends(w, decode, e);
    }
  }

  /** Every accepted result uses up a query, and only a round asks for two: over any run, the results
      accepted and the queries left are at most those pending at the start and two for each round. */
  lemma {:induction false} AcceptedWithinQueries(w: World, decode: Decoder, events: seq<Event>)
    requires Icq.Inv(w.icq)
    ensures AcceptedCount(w, decode, events) + |Run(w, decode, events).icq.pending|
         <= |w.icq.pending| + 2 * |Firings(w, decode, events)|
    decreases |events|
  {
    hide Icq.Inv, Step, Accepts, Due;
    if events != [] {
      StepSpends(w, decode, events[0]);
      StepKeepsInv(w, decode, events[0]);
      AcceptedWithinQueries(Step(w, decode, events[0]), decode, events[1..]);
    }
  }

  /** How many results can be accepted while rounds at least `interval` apart fire within `elapsed`. */
  function Budget(w: World, interval: nat, elapsed: nat): nat
    requires interval > 0
  {
    |w.icq.pending| + 2 * (elapsed / interval + 1)
  }

  lemma RoundsWithin(w: World, decode: Decoder, events: seq<Event>, interval: nat, start: int, elapsed: nat)
    requires interval > 0
    requires forall k :: 0 <= k < |Firings(w, decode, events)| ==>
               var f := Firings(w, decode, events)[k];
               Fits(f) && f.interval >= interval && start <= f.time <= start + elapsed
    ensures |Firings(w, decode, events)| <= elapsed / interval + 1
  {
    hide Firings;
    var log := Firings(w, decode, events);
    DivAtLeast(elapsed, interval, 0);
    if log != [] {
      FiringRate(w, decode, events, interval);
      DivAtLeast(elapsed, interval, |log| - 1);
    }
  }

  /** Drift over time: whatever relayers and the remote chain do, while rounds are at least `interval`
      apart and every deviation guard is on and at most d < 1, the price after `elapsed` seconds of
      rounds is positive and within the n-th power of (1 ± (d + 10^-18)) of where it started, where n
      counts the queries pending at the start and two for each interval begun. */
  lemma DriftOverTime(w: World, decode: Decoder, events: seq<Event>, d: Dec, interval: nat, start: int, elapsed: nat)
    requires Icq.Inv(w.icq) && 0 < d < ONE && Guarded(w.feed, d) && StoredPrice(w.feed) > 0
    requires forall e :: e in events ==> Steady(e, d)
    requires interval > 0
    requires forall k :: 0 <= k < |Firings(w, decode, events)| ==>
               var f := Firings(w, decode, events)[k];
               Fits(f) && f.interval >= interval && start <= f.time <= start + elapsed
    ensures var n := Budget(w, interval, elapsed);
            var p0, p := StoredPrice(w.feed), StoredPrice(Run(w, decode, events).feed);
            p > 0 && p0 * Pow(ONE - d - 1, n) <= p * Pow(ONE, n) <= p0 * Pow(ONE + d + 1, n)
  {
    hide Icq.Inv, Step, Accepts, Guarded, Steady, Firings, Run, AcceptedCount, Fits, Pow;
    var n, p := AcceptedCount(w, decode, events), StoredPrice(Run(w, decode, events).feed);
    PriceDrift(w, decode, events, d);
    AcceptedWithinQueries(w, decode, events);
    RoundsWithin(w, decode, events, interval, start, elapsed);
    DriftWidens(StoredPrice(w.feed), p, d, n, Budget(w, interval, elapsed));
  }

  /* ---------- one query from the block that asks to the price it sets ---------- */

  /** A connection that queries can go out on. */
  ghost predicate Mapped(icq: Icq.State, connection: string) {
    connection in icq.active && icq.active[connection] != "" && icq.active[connection] in icq.channels
  }

  /** A TWAP round over a mapped connection whose two sends are accepted puts exactly two packets in
      flight, under consecutive sequence numbers: the TWAP query and the pool query. */
  lemma RoundAsksTwice(w: World, now: int)
    requires Due(w.feed, now)
    requires var p := w.feed.params.value; p.useTwap && p.connectionId != "" && Mapped(w.icq, p.connectionId)
    ensures var p := w.feed.params.value;
            var channel := w.icq.active[p.connectionId];
            var n := w.icq.channels[channel].nextSequence;
            var w' := Schedule(w, now, (true, true));
            w'.icq.inFlight == w.icq.inFlight[PacketId(channel, n) := Icq.QueryPacket("twap", TwapKey(p))]
                                             [PacketId(channel, n + 1) := Icq.QueryPacket("gamm", PoolKey(p))]
            && w'.icq.pending == w.icq.pending
                 [PendingKey(PacketId(channel, n)) := Icq.Correlation("twap", TwapKey(p), p.connectionId)]
                 [PendingKey(PacketId(channel, n + 1)) := Icq.Correlation("gamm", PoolKey(p), p.connectionId)]
            && w'.feed.params == w.feed.params && w'.feed.csvPrice == w.feed.csvPrice
  {
    hide PendingKey, TwapKey, PoolKey, Icq.QueryPacket, FormatUint;
  }

  /** The answer to the first of them, when it decodes and passes the guards, becomes the stored
      price and resolves that query alone: the pool query stays pending. */
  lemma AnsweredQuerySetsPrice(w: World, decode: Decoder, now: int, values: seq<string>, later: int)
    requires Due(w.feed, now)
    requires var p := w.feed.params.value; p.useTwap && p.connectionId != "" && Mapped(w.icq, p.connectionId)
    requires var quote := decode(Icq.FirstValue(values));
             Icq.FirstValue(values) != "" && quote.Some? && Verdict(w.feed, quote.value) == Accepted
    ensures var channel := w.icq.active[w.feed.params.value.connectionId];
            var n := w.icq.channels[channel].nextSequence;
            var id, other := PacketId(channel, n), PacketId(channel, n + 1);
            var w' := Step(Schedule(w, now, (true, true)), decode, AckEv(id, Icq.Responses(values), later));
            w'.feed.csvPrice == Some(NewPrice(w.feed, decode(Icq.FirstValue(values)).value))
            && w'.feed.lastResultTime == Some(later)
            && id !in w'.icq.inFlight && PendingKey(id) !in w'.icq.pending
            && other in w'.icq.inFlight && PendingKey(other) in w'.icq.pending
  {
    var p := w.feed.params.value;
    var channel := w.icq.active[p.connectionId];
    var n := w.icq.channels[channel].nextSequence;
    var id, other := PacketId(channel, n), PacketId(channel, n + 1);
    RoundAsksTwice(w, now);
    if PendingKey(id) == PendingKey(other) {
      PendingKeyInjective(id, other);
    }
    var w1 := Schedule(w, now, (true, true));
    hide PendingKey, Schedule, Judge, Normalize, Icq.QueryPacket, Icq.FirstValue, TwapKey, PoolKey;
    assert Accepts(w1, decode, AckEv(id, Icq.Responses(values), later));
    OnlyAcceptedMoves(w1, decode, AckEv(id, Icq.Responses(values), later));
  }
}
