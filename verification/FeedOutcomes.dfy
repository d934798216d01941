/** What the price feed's operations do to its state, in plain terms: when a result is stored, from the
    acknowledgement on, when a block starts a round, and what the round asks. */
module FeedOutcomes {
  import opened Common
  import opened Decimal
  import opened PendingKeys
  import opened PriceGuard
  import opened PriceFeed
  import Icq = IcqProtocol
  import opened Wire

  /* ---------- a result ---------- */

  function AtLeastZero(liquidity: Dec): Dec { if liquidity < 0 then 0 else liquidity }

  /** A result good enough for a minimum liquidity and a maximum deviation from the stored price: a
      stored price of zero and a deviation that is not positive switch the second check off. */
  ghost predicate GoodEnough(minLiquidity: Dec, maxDeviation: Dec, stored: Dec, price: Dec, liquidity: Dec) {
    && AtLeastZero(liquidity) >= minLiquidity
    && (stored == 0 || maxDeviation <= 0 || Quo(Abs(price - stored), stored) <= maxDeviation)
  }

  /** With both parameters parsing, a result becomes the price, at its time, exactly when it is good
      enough; else nothing at all changes, and that is no error. */
  lemma ResultStoredIff(f: Feed, price: Dec, liquidity: Dec, now: int)
    requires f.params.Some? && f.params.value.minLiquidity.Some? && f.params.value.maxDeviation.Some?
    ensures var stored := if f.csvPrice.None? then 0 else f.csvPrice.value;
            var good := GoodEnough(f.params.value.minLiquidity.value, f.params.value.maxDeviation.value,
                                   stored, price, liquidity);
            Persist(f, price, liquidity, now)
            == Some(if good then f.(csvPrice := Some(price), lastResultTime := Some(now)) else f)
  {
    hide Quo;
  }

  /** Parameters that are missing or do not parse are an error, unless the liquidity is too low to
      look at the deviation. */
  lemma ResultErrorIff(f: Feed, price: Dec, liquidity: Dec, now: int)
    ensures Persist(f, price, liquidity, now).None?
       <==> f.params.None? || f.params.value.minLiquidity.None?
            || (f.params.value.maxDeviation.None? && AtLeastZero(liquidity) >= f.params.value.minLiquidity.value)
    ensures f.params.Some? && f.params.value.minLiquidity.Some?
            && AtLeastZero(liquidity) < f.params.value.minLiquidity.value
        ==> Persist(f, price, liquidity, now) == Some(f)
  {
    hide Quo;
  }

  /** The price of the ucsv/uusdc pair is turned over, a zero one left zero; any other pair's is taken
      as it is. */
  lemma NormalizeLiteral(base: string, quote: string, price: Dec)
    ensures base == "ucsv" && quote == "uusdc" && price != 0 ==> Normalize(base, quote, price) == Quo(ONE, price)
    ensures price == 0 || base != "ucsv" || quote != "uusdc" ==> Normalize(base, quote, price) == price
  {
    hide Quo;
  }

  /** The first value of an acknowledgement that carries one. */
  ghost predicate Carries(ack: Icq.Ack, value: string) {
    ack.Responses? && value != ""
    && exists k :: 0 <= k < |ack.values| && ack.values[k] == value && forall j :: 0 <= j < k ==> ack.values[j] == ""
  }

  /** What has to be there for an acknowledgement to set the price: a packet in flight whose query was of
      one of the two stores, a value, a quote in it, and that good enough under the parameters. */
  ghost predicate Answers(w: World, decode: Decoder, id: PacketId, ack: Icq.Ack, value: string, quote: Quote) {
    var key := id.channel + "/" + FormatUint(id.sequence);
    && id in w.icq.inFlight && key in w.icq.pending
    && (w.icq.pending[key].store == "twap" || w.icq.pending[key].store == "gamm")
    && Carries(ack, value) && decode(value) == Some(quote)
    && w.feed.params.Some? && w.feed.params.value.minLiquidity.Some? && w.feed.params.value.maxDeviation.Some?
    && var p := w.feed.params.value;
       var stored := if w.feed.csvPrice.None? then 0 else w.feed.csvPrice.value;
       GoodEnough(p.minLiquidity.value, p.maxDeviation.value, stored,
                  Normalize(p.baseDenom, p.quoteDenom, quote.price), quote.liquidity)
  }

  lemma CarriesIff(ack: Icq.Ack, value: string)
    ensures Carries(ack, value) <==> value != "" && Icq.ExtractValue(ack) == Some(value)
  {
    if ack.Responses? {
      Icq.FirstValueIsLeftmost(ack.values);
    }
  }

  lemma AcceptsIff(w: World, decode: Decoder, id: PacketId, ack: Icq.Ack, now: int, value: string, quote: Quote)
    requires Carries(ack, value) && decode(value) == Some(quote)
    ensures Accepts(w, decode, AckEv(id, ack, now)) <==> Answers(w, decode, id, ack, value, quote)
  {
    CarriesIff(ack, value);
    hide Quo, Carries, Icq.ExtractValue, FormatUint, Normalize;
  }

  /** From acknowledgement to price, whole: an acknowledgement that answers sets price and result time;
      any other leaves both. */
  lemma AckSetsPriceIff(w: World, decode: Decoder, id: PacketId, ack: Icq.Ack, now: int)
    ensures var w' := Step(w, decode, AckEv(id, ack, now));
            && (forall value, quote :: Answers(w, decode, id, ack, value, quote) ==>
                  w'.feed == w.feed.(csvPrice := Some(Normalize(w.feed.params.value.baseDenom,
                                                                w.feed.params.value.quoteDenom, quote.price)),
                                     lastResultTime := Some(now)))
            && ((forall value, quote :: !Answers(w, decode, id, ack, value, quote)) ==> w'.feed == w.feed)
  {
    var e := AckEv(id, ack, now);
    forall value, quote | Answers(w, decode, id, ack, value, quote)
      ensures Accepts(w, decode, e) && decode(Icq.OnAck(w.icq, id, ack, true).payload) == Some(quote)
    {
      CarriesIff(ack, value);
      AcceptsIff(w, decode, id, ack, now, value, quote);
      hide *;
      AnswerIsPayload(w, id, ack, value);
    }
    if Accepts(w, decode, e) {
      var value := Icq.OnAck(w.icq, id, ack, true).payload;
      PayloadCarries(w.icq, id, ack);
      AcceptsIff(w, decode, id, ack, now, value, decode(value).value);
    }
    AckFeed(w, decode, id, ack, now);
    hide *;
  }

  lemma AnswerIsPayload(w: World, id: PacketId, ack: Icq.Ack, value: string)
    requires Icq.OnAck(w.icq, id, ack, true).Deliver? && Icq.ExtractValue(ack) == Some(value)
    ensures Icq.OnAck(w.icq, id, ack, true).payload == value
  {
    hide Icq.ExtractValue, PendingKey;
  }

  lemma PayloadCarries(s: Icq.State, id: PacketId, ack: Icq.Ack)
    requires Icq.OnAck(s, id, ack, true).Deliver?
    ensures Carries(ack, Icq.OnAck(s, id, ack, true).payload)
  {
    CarriesIff(ack, Icq.OnAck(s, id, ack, true).payload);
    hide Icq.ExtractValue, PendingKey, Carries;
  }

  /** The feed after an acknowledgement. */
  lemma AckFeed(w: World, decode: Decoder, id: PacketId, ack: Icq.Ack, now: int)
    ensures var e, w' := AckEv(id, ack, now), Step(w, decode, AckEv(id, ack, now));
            w'.feed == if Accepts(w, decode, e) then
                         var quote := decode(Icq.OnAck(w.icq, id, ack, true).payload).value;
                         w.feed.(csvPrice := Some(NewPrice(w.feed, quote)), lastResultTime := Some(now))
                       else w.feed
  {
    hide Icq.Acknowledge, Judge, Normalize;
    if id in w.icq.inFlight && Icq.OnAck(w.icq, id, ack, true).Deliver? {
      DeliveredValue(w.icq, id, ack);
    }
    hide Icq.OnAck;
  }

  /** Over any run: whatever changes the price or the result time, unless it is set by hand, is an
      acknowledgement whose quote has at least the minimum liquidity then in force. */
  lemma OnlyLiquidAnswersMove(w: World, decode: Decoder, events: seq<Event>, k: nat)
    requires k < |events| && !events[k].SetPriceEv?
    requires var before := Run(w, decode, events[..k]);
             var after := Step(before, decode, events[k]);
             after.feed.csvPrice != before.feed.csvPrice || after.feed.lastResultTime != before.feed.lastResultTime
    ensures var before, e := Run(w, decode, events[..k]), events[k];
            e.AckEv? && exists value, quote ::
              Answers(before, decode, e.id, e.ack, value, quote)
              && AtLeastZero(quote.liquidity) >= before.feed.params.value.minLiquidity.value
  {
    var before, e := Run(w, decode, events[..k]), events[k];
    MovedByAck(before, decode, e);
    AckSetsPriceIff(before, decode, e.id, e.ack, e.now);
    var value, quote :| Answers(before, decode, e.id, e.ack, value, quote);
    assert AtLeastZero(quote.liquidity) >= before.feed.params.value.minLiquidity.value;
    hide *;
  }

  lemma MovedByAck(w: World, decode: Decoder, e: Event)
    requires !e.SetPriceEv?
    requires var w' := Step(w, decode, e);
             w'.feed.csvPrice != w.feed.csvPrice || w'.feed.lastResultTime != w.feed.lastResultTime
    ensures e.AckEv?
  {
    hide Icq.Send, Icq.Acknowledge, OnKVResult;
  }

  /* ---------- a round ---------- */

  /** Whether a block starts a round: never without parameters or with a zero interval; from the next
      time on when one is recorded; else from the last time plus the interval, if there was one. */
  ghost predicate StartsRound(f: Feed, now: int) {
    && f.params.Some? && f.params.value.updateInterval != 0
    && (f.nextUpdate.Some? ==> now >= f.nextUpdate.value)
    && (f.nextUpdate.None? && f.lastUpdate.Some? ==>
          now >= AsInt64(f.lastUpdate.value + f.params.value.updateInterval))
  }

  /** The query packets of a round, as they travel. */
  function TwapPacket(p: Params): Icq.Packet {
    Icq.Packet("/store/twap/key", "twap/" + p.baseDenom + "/" + p.quoteDenom + "/" + FormatUint(p.twapWindow))
  }

  function PoolPacket(p: Params): Icq.Packet {
    Icq.Packet("/store/gamm/key", "pool/" + FormatUint(p.poolId))
  }

  /** One query over a channel: it takes the next number, and its correlation and identifier are kept. */
  ghost predicate Asked(w: World, w': World, channel: string, connection: string, name: string, store: string,
                        packet: Icq.Packet)
    requires channel in w.icq.channels
  {
    var n := w.icq.channels[channel].nextSequence;
    && w'.icq == w.icq.(pending := w'.icq.pending, channels := w'.icq.channels,
                        inFlight := w'.icq.inFlight, sent := w'.icq.sent)
    && w'.icq.inFlight == w.icq.inFlight[PacketId(channel, n) := packet]
    && w'.icq.pending == w.icq.pending[channel + "/" + FormatUint(n) := Icq.Correlation(store, packet.data, connection)]
    && w'.icq.channels == w.icq.channels[channel := Icq.ChannelEnd(w.icq.channels[channel].hops, n + 1)]
    && w'.feed == w.feed.(queryIds := w.feed.queryIds[name :=
         (if w.icq.port.Some? && w.icq.port.value != "" then w.icq.port.value else "icqcontroller")
         + "/" + channel + "#" + FormatUint(n)])
  }

  lemma RegisterAsks(w: World, name: string, connection: string, store: string, key: string)
    requires Mapped(w.icq, connection)
    ensures Asked(w, Register(w, name, connection, store, key, true), w.icq.active[connection], connection, name, store,
                  Icq.Packet("/store/" + store + "/key", key))
    ensures Mapped(Register(w, name, connection, store, key, true).icq, connection)
    ensures Register(w, name, connection, store, key, true).icq.active == w.icq.active
  {
    Icq.SendOutcome(w.icq, connection, store, key);
    hide Icq.Send, FormatUint;
  }

  lemma RegisterFails(w: World, name: string, connection: string, store: string, key: string, accepted: bool)
    requires !accepted || !Mapped(w.icq, connection)
    ensures Register(w, name, connection, store, key, accepted) == w
  {
    Icq.SendCases(w.icq, connection, store, key, accepted);
    hide Icq.Send;
  }

  /** A round marks its time and the next one, and asks exactly this. Without a connection, or over one
      that is not mapped to a known channel, nothing. Else the pool's query, and in TWAP mode the TWAP's
      before it; each of them unless its own send is refused. */
  lemma RoundAsks(w: World, now: int, accepted: (bool, bool))
    requires StartsRound(w.feed, now)
    ensures var p, w' := w.feed.params.value, Schedule(w, now, accepted);
            exists twap: World, pool: World ::
              && w' == pool.(feed := pool.feed.(lastUpdate := Some(now),
                                                nextUpdate := Some(AsInt64(now + p.updateInterval))))
              && var c := p.connectionId;
                 var sends := c != "" && Mapped(w.icq, c);
                 && (if sends && p.useTwap && accepted.0
                     then Asked(w, twap, w.icq.active[c], c, "twap", "twap", TwapPacket(p))
                     else twap == w)
                 && (if sends && accepted.1
                     then w.icq.active[c] in twap.icq.channels
                          && Asked(twap, pool, w.icq.active[c], c, "spot", "gamm", PoolPacket(p))
                     else pool == twap)
  {
    var p := w.feed.params.value;
    var twap := if p.connectionId != "" && p.useTwap
                then Register(w, "twap", p.connectionId, "twap", TwapKey(p), accepted.0) else w;
    var pool := RegisterAll(w, p, accepted);
    assert Due(w.feed, now);
    if p.connectionId != "" {
      assert pool == Register(twap, "spot", p.connectionId, "gamm", PoolKey(p), accepted.1);
      assert "/store/" + "twap" + "/key" == "/store/twap/key" && "/store/" + "gamm" + "/key" == "/store/gamm/key";
      assert TwapPacket(p) == Icq.Packet("/store/twap/key", TwapKey(p));
      assert PoolPacket(p) == Icq.Packet("/store/gamm/key", PoolKey(p));
      hide Register, TwapKey, PoolKey, FormatUint, RegisterAll, TwapPacket, PoolPacket;
      if p.useTwap {
        if Mapped(w.icq, p.connectionId) && accepted.0 {
          RegisterAsks(w, "twap", p.connectionId, "twap", TwapKey(p));
        } else {
          RegisterFails(w, "twap", p.connectionId, "twap", TwapKey(p), accepted.0);
        }
      }
      if Mapped(twap.icq, p.connectionId) && accepted.1 {
        RegisterAsks(twap, "spot", p.connectionId, "gamm", PoolKey(p));
      } else {
        RegisterFails(twap, "spot", p.connectionId, "gamm", PoolKey(p), accepted.1);
      }
    }
    hide *;
  }

  /** Any other block changes nothing. */
  lemma NoRound(w: World, now: int, accepted: (bool, bool))
    requires !StartsRound(w.feed, now)
    ensures Schedule(w, now, accepted) == w
  {
    hide RegisterAll;
  }
}
