/** The keepers as the source writes them: stores that are fields, steps in the source's order,
    proved to amount to the atomic steps of `IcqProtocol` and `PriceFeed`. */
module Keepers {
  import opened Common
  import opened Decimal
  import opened PendingKeys
  import opened PriceGuard
  import opened PriceFeed
  import Icq = IcqProtocol
  import opened Wire

  /** x/oracle: the stored CSV price. */
  class OracleKeeper {
    const isAddress: string -> bool
    var csvPrice: Option<Dec>

    constructor (isAddress: string -> bool)
      ensures this.isAddress == isAddress && csvPrice == None
    {
      this.isAddress, csvPrice := isAddress, None;
    }

    method GetCSVPerUSD() returns (price: Dec)
      ensures price == if csvPrice.None? then 0 else csvPrice.value
    {
      match csvPrice
      case None => price := 0;
      case Some(p) => price := p;
    }

    method SetCSVPerUSD(price: Dec)
      modifies this
      ensures csvPrice == Some(price)
    {
      csvPrice := Some(price);
    }

    /** GetExchangeRate: an unset price, a zero price and a foreign symbol are errors. */
    method GetExchangeRate(symbol: string) returns (rate: Option<Dec>)
      ensures rate == if symbol == "CSV" && csvPrice.Some? && csvPrice.value != 0 then csvPrice else None
    {
      rate := None;
      if symbol == "CSV" {
        var price := GetCSVPerUSD();
        if price != 0 {
          rate := Some(price);
        }
      }
    }

    /** MsgSetPrice, with the price text parsed. A price that is not positive is not stored, and is
        no error either: the handler wraps a nil error. */
    method SetPrice(creator: string, denom: string, price: Option<Dec>) returns (ok: bool)
      modifies this
      ensures ok <==> isAddress(creator) && (denom == "CSV" || denom == "ucsv") && price.Some?
      ensures csvPrice == if ok && price.value > 0 then price else old(csvPrice)
    {
      if !isAddress(creator) { return false; }
      if (denom != "CSV" && denom != "ucsv") || price.None? { return false; }
      if price.value <= 0 { return true; }
      SetCSVPerUSD(price.value);
      ok := true;
    }
  }

  /** x/osmosisicq */
  class FeedKeeper {
    const oracle: OracleKeeper
    const decode: Decoder
    var params: Option<Params>
    var lastUpdate: Option<int>
    var nextUpdate: Option<int>
    var lastResultTime: Option<int>
    var queryIds: map<string, string>

    constructor (oracle: OracleKeeper, decode: Decoder, params: Params)
      ensures this.oracle == oracle && this.decode == decode
      ensures State() == Feed(Some(params), None, None, None, map[], oracle.csvPrice)
    {
      this.oracle, this.decode, this.params := oracle, decode, Some(params);
      lastUpdate, nextUpdate, lastResultTime, queryIds := None, None, None, map[];
    }

    function State(): Feed
      reads this, oracle
    {
      Feed(params, lastUpdate, nextUpdate, lastResultTime, queryIds, oracle.csvPrice)
    }

    method ValidateAndPersistPrice(price: Dec, liquidity: Dec, now: int) returns (ok: bool)
      modifies this`lastResultTime, oracle
      ensures ok == Persist(old(State()), price, liquidity, now).Some?
      ensures State() == if ok then Persist(old(State()), price, liquidity, now).value else old(State())
    {
      if params.None? { return false; }
      var p := params.value;
      if p.minLiquidity.None? { return false; }
      var liq := liquidity;
      if liq < 0 {
        liq := 0;
      }
      if liq < p.minLiquidity.value { return true; }
      if p.maxDeviation.None? { return false; }
      var lgp := oracle.GetCSVPerUSD();
      if lgp != 0 && p.maxDeviation.value > 0 {
        var diff := price - lgp;
        if diff < 0 {
          diff := -diff;
        }
        var dev := Quo(diff, lgp);
        if dev > p.maxDeviation.value { return true; }
      }
      oracle.SetCSVPerUSD(price);
      lastResultTime := Some(now);
      ok := true;
    }

    method HandleResult(quote: Quote, now: int) returns (ok: bool)
      modifies this`lastResultTime, oracle
      ensures ok == PriceFeed.HandleResult(old(State()), quote, now).Some?
      ensures State() == if ok then PriceFeed.HandleResult(old(State()), quote, now).value else old(State())
    {
      var price := quote.price;
      if params.Some? {
        price := Normalize(params.value.baseDenom, params.value.quoteDenom, price);
      }
      ok := ValidateAndPersistPrice(price, quote.liquidity, now);
    }

    method OnKVResult(store: string, value: string, now: int) returns (ok: bool)
      modifies this`lastResultTime, oracle
      ensures ok == PriceFeed.OnKVResult(old(State()), decode, store, value, now).Some?
      ensures State()
           == if ok then PriceFeed.OnKVResult(old(State()), decode, store, value, now).value else old(State())
    {
      if |value| == 0 { return false; }
      if store == "twap" || store == "gamm" {
        if params.None? { return false; }
        var quote := decode(value);
        if quote.None? { return false; }
        ok := HandleResult(quote.value, now);
      } else {
        ok := true;
      }
    }

    /** One registration: a failed send is swallowed, a successful one records its identifier. */
    method RegisterQuery(client: ClientAdapter, name: string, connection: string, store: string, key: string,
                         accepted: bool)
      requires client.ctrl != null ==> Icq.Inv(client.ctrl.View())
      modifies this`queryIds, client.Target()
      ensures client.ctrl == null ==> State() == old(State())
      ensures client.ctrl != null ==>
                Icq.Inv(client.ctrl.View())
                && World(client.ctrl.View(), State())
                   == Register(old(World(client.ctrl.View(), State())), name, connection, store, key, accepted)
    {
      hide Icq.Inv, Icq.Send;
      if client.ctrl != null {
        Icq.SendKeepsInv(client.ctrl.View(), connection, store, key, accepted);
      }
      var qid := client.RegisterKVQuery(connection, store, key, accepted);
      if qid.Some? {
        queryIds := queryIds[name := qid.value];
      }
    }

    /** The registrations of a round. */
    method RegisterQueries(client: ClientAdapter, p: Params, accepted: (bool, bool))
      requires client.ctrl != null ==> Icq.Inv(client.ctrl.View())
      requires p.connectionId != ""
      modifies this`queryIds, client.Target()
      ensures client.ctrl == null ==> State() == old(State())
      ensures client.ctrl != null ==>
                Icq.Inv(client.ctrl.View())
                && World(client.ctrl.View(), State())
                   == RegisterAll(old(World(client.ctrl.View(), State())), p, accepted)
    {
      hide Icq.Inv, Register;
      if p.useTwap {
        RegisterQuery(client, "twap", p.connectionId, "twap", TwapKey(p), accepted.0);
        RegisterQuery(client, "spot", p.connectionId, "gamm", PoolKey(p), accepted.1);
      } else {
        RegisterQuery(client, "spot", p.connectionId, "gamm", PoolKey(p), accepted.1);
      }
    }

    /** With a controller behind the client this is the atomic step of the scheduler; without a
        client or a controller a due round is marked and nothing is asked. */
    method ScheduleQueriesIfDue(client: ClientAdapter?, now: int, accepted: (bool, bool))
      requires client != null && client.ctrl != null ==> Icq.Inv(client.ctrl.View())
      modifies this, if client != null then client.Target() else {}
      ensures client != null && client.ctrl != null ==>
                Icq.Inv(client.ctrl.View())
                && World(client.ctrl.View(), State())
                   == Schedule(old(World(client.ctrl.View(), State())), now, accepted)
      ensures client == null || client.ctrl == null ==>
                State() == if Due(old(State()), now) then Mark(old(State()), now) else old(State())
    {
      hide Icq.Inv, RegisterAll;
      if params.None? { return; }
      var p := params.value;
      var interval := p.updateInterval;
      if interval == 0 { return; }
      if nextUpdate.Some? {
        if now < nextUpdate.value { return; }
      } else if lastUpdate.Some? {
        if now < AsInt64(lastUpdate.value + interval) { return; }
      }
      assert Due(State(), now);
      if client != null && p.connectionId != "" {
        RegisterQueries(client, p, accepted);
      } else if client != null && client.ctrl != null {
        NothingToRegister(World(client.ctrl.View(), State()), p, accepted);
      }
      lastUpdate := Some(now);
      nextUpdate := Some(AsInt64(now + interval));
    }
  }

  lemma NothingToRegister(w: World, p: Params, accepted: (bool, bool))
    requires p.connectionId == ""
    ensures RegisterAll(w, p, accepted) == w
  {
  }

  /** The adapter that hands the scheduler's queries to the controller, which may not be wired. */
  class ClientAdapter {
    const ctrl: Controller?

    constructor (ctrl: Controller?)
      ensures this.ctrl == ctrl
    {
      this.ctrl := ctrl;
    }

    ghost function Target(): set<object> {
      if ctrl == null then {} else {ctrl}
    }

    /** RegisterKVQuery: no controller and no mapped channel are errors, else it is the send. */
    method RegisterKVQuery(connection: string, store: string, key: string, accepted: bool) returns (qid: Option<string>)
      requires ctrl != null ==> Icq.Inv(ctrl.View())
      modifies Target()
      ensures ctrl == null ==> qid == None
      ensures ctrl != null ==> (ctrl.View(), qid) == Icq.Send(old(ctrl.View()), connection, store, key, accepted)
    {
      if ctrl == null { return None; }
      var channel := ctrl.GetChannelForConnection(connection);
      if channel.None? { return None; }
      qid := ctrl.SendKVQuery(connection, store, key, accepted);
    }
  }

  /** x/icqcontroller over IBC core, with its consumer when one is wired. The first three fields are
      the controller's stores, the next two belong to core; the ghost fields record what was sent
      and delivered. */
  class Controller {
    const consumer: FeedKeeper?
    var port: Option<string>
    var active: map<string, string>
    var pending: map<string, Icq.Correlation>
    var channels: map<string, Icq.ChannelEnd>
    var inFlight: map<PacketId, Icq.Packet>
    ghost var sent: map<PacketId, Icq.Packet>
    ghost var delivered: seq<Icq.Delivery>

    constructor (consumer: FeedKeeper?)
      ensures this.consumer == consumer && Icq.Initial(View())
    {
      this.consumer, port := consumer, None;
      active, pending, channels, inFlight := map[], map[], map[], map[];
      sent, delivered := map[], [];
    }

    ghost function View(): Icq.State
      reads this
    {
      Icq.State(port, active, pending, channels, inFlight, sent, delivered)
    }

    ghost function Consumer(): set<object> {
      if consumer == null then {} else {consumer, consumer.oracle}
    }

    /* ---------- channel callbacks ---------- */

    method OnChanOpen(channel: string, hops: seq<string>, version: string)
      modifies this`active, this`channels
      ensures View() == Icq.Open(old(View()), channel, hops, version)
    {
      if channel in channels || version != Icq.VERSION { return; }
      if |hops| > 0 {
        active := active[hops[0] := channel];
      }
      channels := channels[channel := Icq.ChannelEnd(hops, 1)];
    }

    method OnChanCloseConfirm(channel: string)
      modifies this`active
      ensures View() == Icq.Close(old(View()), channel)
    {
      if channel in channels && |channels[channel].hops| > 0 {
        active := active - {channels[channel].hops[0]};
      }
    }

    /* ---------- the pending store ---------- */

    method SetPending(id: PacketId, store: string, key: string, connection: string)
      modifies this`pending
      ensures pending == old(pending)[PendingKey(id) := Icq.Correlation(store, key, connection)]
    {
      pending := pending[PendingKey(id) := Icq.Correlation(store, key, connection)];
    }

    method GetPending(id: PacketId) returns (c: Option<Icq.Correlation>)
      ensures c == if PendingKey(id) in pending then Some(pending[PendingKey(id)]) else None
    {
      c := if PendingKey(id) in pending then Some(pending[PendingKey(id)]) else None;
    }

    method RemovePending(id: PacketId)
      modifies this`pending
      ensures pending == old(pending) - {PendingKey(id)}
    {
      pending := pending - {PendingKey(id)};
    }

    /* ---------- sending ---------- */

    /** IBC core's SendPacket: on success it returns the sequence it used and bumps the next one. */
    method SendPacket(channel: string, packet: Icq.Packet, accepted: bool) returns (sequence: Option<nat>)
      requires channel in channels
      modifies this`channels, this`inFlight, this`sent
      ensures !accepted ==> sequence == None && unchanged(this)
      ensures accepted ==>
                var end := old(channels[channel]);
                var id := PacketId(channel, end.nextSequence);
                sequence == Some(end.nextSequence)
                && channels == old(channels)[channel := end.(nextSequence := end.nextSequence + 1)]
                && inFlight == old(inFlight)[id := packet] && sent == old(sent)[id := packet]
    {
      if !accepted { return None; }
      var end := channels[channel];
      var id := PacketId(channel, end.nextSequence);
      channels := channels[channel := end.(nextSequence := end.nextSequence + 1)];
      inFlight, sent := inFlight[id := packet], sent[id := packet];
      sequence := Some(end.nextSequence);
    }

    method GetChannelForConnection(connection: string) returns (channel: Option<string>)
      ensures channel == if connection in active then Some(active[connection]) else None
    {
      channel := if connection in active then Some(active[connection]) else None;
    }

    /** SendKVQuery: the correlation is written before the packet is sent and taken back when the
        send fails. Under the invariant that is the atomic step: a failed send changes nothing. */
    method SendKVQuery(connection: string, store: string, key: string, accepted: bool) returns (qid: Option<string>)
      requires Icq.Inv(View())
      modifies this`pending, this`channels, this`inFlight, this`sent
      ensures (View(), qid) == Icq.Send(old(View()), connection, store, key, accepted)
      ensures qid.None? ==> View() == old(View())
    {
      hide PendingKey, Icq.QueryPacket, Icq.Inv, FormatUint, Icq.Sent, Icq.Send;
      Icq.SendCases(View(), connection, store, key, accepted);
      var portId := Icq.DEFAULT_PORT;
      if port.Some? && port.value != "" {
        portId := port.value;
      }
      var mapped := GetChannelForConnection(connection);
      if mapped.None? || mapped.value == "" { return None; }
      var channel := mapped.value;
      if channel !in channels { return None; }
      var next := PacketId(channel, channels[channel].nextSequence);
      Icq.SendKeyIsFree(View(), channel);
      ghost var before := View();
      SetPending(next, store, key, connection);
      var sequence := SendPacket(channel, Icq.QueryPacket(store, key), accepted);
      if sequence.None? {
        RemovePending(next);
        assert pending == before.pending;
        return None;
      }
      Icq.SentFields(before, View(), connection, next, store, key);
      qid := Some(portId + "/" + channel + "#" + FormatUint(sequence.value));
    }

    /* ---------- acknowledgements and timeouts ---------- */

    /** extractValueFromAck: the loop stops at the first response that carries a value. */
    static method ExtractValue(ack: Icq.Ack) returns (value: Option<string>)
      ensures value == Icq.ExtractValue(ack)
    {
      match ack
      case NotJson => value := None;
      case ErrorAck => value := Some("");
      case BadInner => value := None;
      case BadResponses => value := None;
      case Responses(values) =>
        var v, i := "", 0;
        while i < |values|
          invariant i <= |values| && v == "" && Icq.FirstValue(values) == Icq.FirstValue(values[i..])
        {
          if |values[i]| > 0 {
            v := values[i];
            break;
          }
          i := i + 1;
        }
        value := Some(v);
    }

    /** HandlePacketAcknowledgement. The pending entry is removed on every path past the lookup; with
        no consumer that is all that happens. */
    method HandlePacketAcknowledgement(id: PacketId, ack: Icq.Ack, now: int) returns (ok: bool)
      modifies this`pending, this`delivered, Consumer()
      ensures pending == old(pending) - {PendingKey(id)}
      ensures consumer == null ==> ok && delivered == old(delivered)
      ensures consumer != null ==>
              match Icq.OnAck(old(View()), id, ack, true)
              case Ignore => ok && delivered == old(delivered) && consumer.State() == old(consumer.State())
              case Reject => !ok && delivered == old(delivered) && consumer.State() == old(consumer.State())
              case Clear => ok && delivered == old(delivered) && consumer.State() == old(consumer.State())
              case Deliver(c, value) =>
                var result := OnKVResult(old(consumer.State()), consumer.decode, c.store, value, now);
                ok == result.Some?
                && consumer.State() == (if ok then result.value else old(consumer.State()))
                && delivered == old(delivered) + (if ok then [Icq.Delivery(id, c.store, c.key, value)] else [])
    {
      var c := GetPending(id);
      if c.None? {
        assert pending - {PendingKey(id)} == pending;
        return true;
      }
      if consumer == null {
        RemovePending(id);
        return true;
      }
      var value := ExtractValue(ack);
      if value.None? {
        ok := false;
      } else if |value.value| == 0 {
        ok := true;
      } else {
        ok := consumer.OnKVResult(c.value.store, value.value, now);
        if ok {
          delivered := delivered + [Icq.Delivery(id, c.value.store, c.value.key, value.value)];
        }
      }
      RemovePending(id);
    }

    /** IBC core relaying an acknowledgement: it accepts one for a packet in flight, forgets the
        packet, calls the module and rolls the whole step back when the module errs. */
    method AcknowledgePacket(id: PacketId, ack: Icq.Ack, now: int)
      modifies this`pending, this`inFlight, this`delivered, Consumer()
      ensures consumer == null ==> View() == Icq.Acknowledge(old(View()), id, ack, false, false)
      ensures consumer != null ==>
                World(View(), consumer.State())
                == Acknowledge(old(World(View(), consumer.State())), consumer.decode, id, ack, now)
    {
      if id !in inFlight { return; }
      hide Icq.ExtractValue, OnKVResult, PendingKey;
      ghost var before := View();
      var pendingBefore, inFlightBefore := pending, inFlight;
      inFlight := inFlight - {id};
      SameAction(before, View(), id, ack);
      hide Icq.OnAck;
      var ok := HandlePacketAcknowledgement(id, ack, now);
      if !ok {
        pending, inFlight := pendingBefore, inFlightBefore;
      }
    }

    /** What an acknowledgement does is decided by the pending store alone; when it is ignored there
        is nothing to remove. */
    static lemma SameAction(s: Icq.State, t: Icq.State, id: PacketId, ack: Icq.Ack)
      requires s.pending == t.pending
      ensures Icq.OnAck(s, id, ack, true) == Icq.OnAck(t, id, ack, true)
      ensures Icq.OnAck(s, id, ack, false).Ignore? || Icq.OnAck(s, id, ack, false).Clear?
      ensures Icq.OnAck(s, id, ack, false).Ignore? ==> s.pending - {PendingKey(id)} == s.pending
      ensures Icq.OnAck(s, id, ack, true).Ignore? ==> s.pending - {PendingKey(id)} == s.pending
    {
      hide PendingKey, Icq.ExtractValue;
    }

    /** IBC core relaying a timeout; HandlePacketTimeout clears the correlation. */
    method TimeoutPacket(id: PacketId)
      modifies this`pending, this`inFlight
      ensures View() == Icq.Timeout(old(View()), id)
    {
      if id !in inFlight { return; }
      inFlight := inFlight - {id};
      RemovePending(id);
    }
  }
}
