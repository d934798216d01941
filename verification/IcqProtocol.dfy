/** The interchain-query controller as a protocol: channel callbacks, sends that record a pending
    correlation, acknowledgements and timeouts, against an IBC core that numbers packets and
    resolves each at most once (ICS-4, "Sending packets", "Processing acknowledgements",
    "Timeouts"). Steps are atomic: a step that returns an error leaves the state as it was. */
module IcqProtocol {
  import opened Common
  import opened PendingKeys

  const VERSION := "icq-1"
  const DEFAULT_PORT := "icqcontroller"

  /** The record kept for a query until its packet is resolved. */
  datatype Correlation = Correlation(store: string, key: string, connection: string)

  /** The query as it travels: the ABCI path and the key bytes. */
  datatype Packet = Packet(path: string, data: string)

  datatype ChannelEnd = ChannelEnd(hops: seq<string>, nextSequence: nat)

  datatype Delivery = Delivery(id: PacketId, store: string, key: string, value: string)

  /** `port`, `active` and `pending` are the controller's stores; `channels` and `inFlight` belong
      to IBC core; `sent` and `delivered` record the past and steer nothing. */
  datatype State = State(
    port: Option<string>,
    active: map<string, string>,
    pending: map<string, Correlation>,
    channels: map<string, ChannelEnd>,
    inFlight: map<PacketId, Packet>,
    sent: map<PacketId, Packet>,
    delivered: seq<Delivery>)

  /** An acknowledgement, by how far it decodes: the ICS-4 wrapper, the inner JSON, the response
      list with each response's value bytes. */
  datatype Ack =
    | NotJson
    | ErrorAck
    | BadInner
    | BadResponses
    | Responses(values: seq<string>)

  function QueryPacket(store: string, key: string): Packet {
    Packet("/store/" + store + "/key", key)
  }

  function ResolvePort(port: Option<string>): string {
    if port.None? || port.value == "" then DEFAULT_PORT else port.value
  }

  /** extractValueFromAck: the first response that has a value, or the empty value. */
  function FirstValue(values: seq<string>): string {
    if values == [] then "" else if |values[0]| > 0 then values[0] else FirstValue(values[1..])
  }

  function ExtractValue(ack: Ack): Option<string> {
    match ack
    case NotJson => None
    case ErrorAck => Some("")
    case BadInner => None
    case BadResponses => None
    case Responses(values) => Some(FirstValue(values))
  }

  /** The value found is the leftmost one that is not empty; it is empty exactly when all are. */
  lemma {:induction false} FirstValueIsLeftmost(values: seq<string>)
    ensures FirstValue(values) == "" <==> forall k :: 0 <= k < |values| ==> values[k] == ""
    ensures FirstValue(values) != "" ==>
              exists k :: 0 <= k < |values| && FirstValue(values) == values[k]
                          && forall j :: 0 <= j < k ==> values[j] == ""
  {
    if values != [] && values[0] == "" {
      var rest := values[1..];
      FirstValueIsLeftmost(rest);
      assert forall k :: 0 < k < |values| ==> values[k] == rest[k - 1];
      if FirstValue(rest) != "" {
        var k :| 0 <= k < |rest| && FirstValue(rest) == rest[k] && forall j :: 0 <= j < k ==> rest[j] == "";
        assert FirstValue(values) == values[k + 1];
      }
    }
  }

  /* ---------- the steps ---------- */

  /** OnChanOpenInit and OnChanOpenTry: core creates the channel, the callback maps its connection. */
  function Open(s: State, channel: string, hops: seq<string>, version: string): State {
    if channel in s.channels || version != VERSION then s
    else s.(channels := s.channels[channel := ChannelEnd(hops, 1)],
            active := if hops == [] then s.active else s.active[hops[0] := channel])
  }

  /** OnChanCloseConfirm: the connection of the closed channel is unmapped. */
  function Close(s: State, channel: string): State {
    if channel in s.channels && s.channels[channel].hops != [] then
      s.(active := s.active - {s.channels[channel].hops[0]})
    else s
  }

  /** The state after a packet `id` over `connection` went out. */
  function Sent(s: State, connection: string, id: PacketId, store: string, key: string): State
    requires id.channel in s.channels
  {
    var end := s.channels[id.channel];
    s.(pending := s.pending[PendingKey(id) := Correlation(store, key, connection)],
       channels := s.channels[id.channel := end.(nextSequence := end.nextSequence + 1)],
       inFlight := s.inFlight[id := QueryPacket(store, key)],
       sent := s.sent[id := QueryPacket(store, key)])
  }

  /** SendKVQuery; `accepted` is what IBC core answers to SendPacket. */
  function Send(s: State, connection: string, store: string, key: string, accepted: bool): (State, Option<string>) {
    if connection !in s.active || s.active[connection] == "" then (s, None)
    else if s.active[connection] !in s.channels || !accepted then (s, None)
    else
      var channel := s.active[connection];
      var end := s.channels[channel];
      (Sent(s, connection, PacketId(channel, end.nextSequence), store, key),
       Some(ResolvePort(s.port) + "/" + channel + "#" + FormatUint(end.nextSequence)))
  }

  /** Core forgets the packet and the controller its correlation. */
  function Resolve(s: State, id: PacketId): State {
    s.(inFlight := s.inFlight - {id}, pending := s.pending - {PendingKey(id)})
  }

  /** What an acknowledgement makes the controller do. */
  datatype AckAction = Ignore | Reject | Clear | Deliver(correlation: Correlation, payload: string)

  /** HandlePacketAcknowledgement up to the call of the consumer. */
  function OnAck(s: State, id: PacketId, ack: Ack, wired: bool): AckAction {
    if PendingKey(id) !in s.pending then Ignore
    else if !wired then Clear
    else
      var value := ExtractValue(ack);
      if value.None? then Reject
      else if value.value == "" then Clear
      else Deliver(s.pending[PendingKey(id)], value.value)
  }

  /** An acknowledgement relayed for a packet; `consumed` is whether the consumer took the value. */
  function Acknowledge(s: State, id: PacketId, ack: Ack, wired: bool, consumed: bool): State {
    if id !in s.inFlight then s
    else
      match OnAck(s, id, ack, wired)
      case Ignore => s.(inFlight := s.inFlight - {id})
      case Reject => s
      case Clear => Resolve(s, id)
      case Deliver(c, value) =>
        if consumed then Resolve(s, id).(delivered := s.delivered + [Delivery(id, c.store, c.key, value)]) else s
  }

  function Timeout(s: State, id: PacketId): State {
    if id in s.inFlight then Resolve(s, id) else s
  }

  datatype Event =
    | OpenEv(channel: string, hops: seq<string>, version: string)
    | CloseEv(channel: string)
    | SendEv(connection: string, store: string, key: string, accepted: bool)
    | AckEv(id: PacketId, ack: Ack, wired: bool, consumed: bool)
    | TimeoutEv(id: PacketId)

  function Step(s: State, e: Event): State {
    match e
    case OpenEv(channel, hops, version) => Open(s, channel, hops, version)
    case CloseEv(channel) => Close(s, channel)
    case SendEv(connection, store, key, accepted) => Send(s, connection, store, key, accepted).0
    case AckEv(id, ack, wired, consumed) => Acknowledge(s, id, ack, wired, consumed)
    case TimeoutEv(id) => Timeout(s, id)
  }

  function Run(s: State, events: seq<Event>): State
    decreases |events|
  {
    if events == [] then s else Run(Step(s, events[0]), events[1..])
  }

  ghost predicate Initial(s: State) {
    s == State(s.port, map[], map[], map[], map[], map[], [])
  }

  /* ---------- the steps, literally ---------- */

  /** An open of a new channel with version icq-1 records the channel and maps its first hop to it; any
      other changes nothing. A send starts counting at one. */
  lemma OpenOutcome(s: State, channel: string, hops: seq<string>, version: string)
    ensures var s' := Open(s, channel, hops, version);
            if channel in s.channels || version != "icq-1" then s' == s
            else
              && s' == s.(channels := s'.channels, active := s'.active)
              && s'.channels == s.channels[channel := ChannelEnd(hops, 1)]
              && (|hops| == 0 ==> s'.active == s.active)
              && (|hops| > 0 ==> s'.active == s.active[hops[0] := channel])
  {
  }

  /** A query travels as the ABCI path of its store with its key as data; its identifier names the port,
      the channel and the sequence number. */
  lemma SendOutcome(s: State, connection: string, store: string, key: string)
    requires connection in s.active && s.active[connection] != "" && s.active[connection] in s.channels
    ensures var (s', qid) := Send(s, connection, store, key, true);
            var channel := s.active[connection];
            var n := s.channels[channel].nextSequence;
            && s' == s.(pending := s'.pending, channels := s'.channels, inFlight := s'.inFlight, sent := s'.sent)
            && s'.inFlight == s.inFlight[PacketId(channel, n) := Packet("/store/" + store + "/key", key)]
            && s'.pending == s.pending[channel + "/" + FormatUint(n) := Correlation(store, key, connection)]
            && s'.channels == s.channels[channel := ChannelEnd(s.channels[channel].hops, n + 1)]
            && qid == Some((if s.port.Some? && s.port.value != "" then s.port.value else "icqcontroller")
                           + "/" + channel + "#" + FormatUint(n))
  {
    hide FormatUint;
  }

  /** What becomes of a packet in flight and its correlation when it is acknowledged. Without a consumer,
      with an error acknowledgement and with no value, both are gone and nothing is delivered; one that
      does not decode is rejected, and so is one the consumer refuses: everything stays. */
  lemma AckOutcome(s: State, id: PacketId, ack: Ack, wired: bool, consumed: bool)
    requires Inv(s) && id in s.inFlight
    ensures var s' := Acknowledge(s, id, ack, wired, consumed);
            var key := id.channel + "/" + FormatUint(id.sequence);
            && key in s.pending
            && (wired && (ack.NotJson? || ack.BadInner? || ack.BadResponses?) ==> s' == s)
            && (!wired || ack.ErrorAck? || (ack.Responses? && forall k :: 0 <= k < |ack.values| ==> ack.values[k] == "")
                ==> s' == s.(inFlight := s.inFlight - {id}, pending := s.pending - {key}))
            && (wired && ack.Responses? && FirstValue(ack.values) != "" ==>
                  s' == if !consumed then s
                        else s.(inFlight := s.inFlight - {id}, pending := s.pending - {key},
                                delivered := s.delivered + [Delivery(id, s.pending[key].store, s.pending[key].key,
                                                                     FirstValue(ack.values))]))
  {
    InFlightIsPending(s, id);
    if ack.Responses? { FirstValueIsLeftmost(ack.values); }
    hide Inv, FormatUint, FirstValue;
  }

  /** A timeout drops the packet and its correlation; for a packet that is not in flight it is nothing. */
  lemma TimeoutOutcome(s: State, id: PacketId)
    ensures Timeout(s, id)
         == if id in s.inFlight
            then s.(inFlight := s.inFlight - {id}, pending := s.pending - {id.channel + "/" + FormatUint(id.sequence)})
            else s
  {
    hide FormatUint;
  }

  /* ---------- the invariant ---------- */

  /** A mapped connection names a known channel over that connection. */
  ghost predicate ActiveOk(s: State) {
    forall c :: c in s.active ==>
      s.active[c] in s.channels && s.channels[s.active[c]].hops != [] && s.channels[s.active[c]].hops[0] == c
  }

  /** Every packet ever sent has a number its channel has already passed. */
  ghost predicate SentOk(s: State) {
    forall id :: id in s.sent ==> id.channel in s.channels && id.sequence < s.channels[id.channel].nextSequence
  }

  ghost predicate InFlightOk(s: State) {
    forall id :: id in s.inFlight ==> id in s.sent && s.sent[id] == s.inFlight[id]
  }

  /** The record is the query of the packet and the connection of the packet's channel. */
  ghost predicate Matches(s: State, id: PacketId, c: Correlation) {
    && id in s.inFlight && s.inFlight[id] == QueryPacket(c.store, c.key)
    && id.channel in s.channels && s.channels[id.channel].hops != []
    && s.channels[id.channel].hops[0] == c.connection
  }

  ghost predicate PendingOk(s: State) {
    && (forall id :: id in s.inFlight ==> PendingKey(id) in s.pending && Matches(s, id, s.pending[PendingKey(id)]))
    && (forall k :: k in s.pending ==> exists id :: id in s.inFlight && k == PendingKey(id))
  }

  /** Values were delivered for packets that were sent and are resolved, with their own query, and
      never twice for the same packet. */
  ghost predicate DeliveredOk(s: State) {
    && (forall j :: 0 <= j < |s.delivered| ==>
          var d := s.delivered[j];
          d.id in s.sent && d.id !in s.inFlight && s.sent[d.id] == QueryPacket(d.store, d.key) && d.value != "")
    && (forall i, j :: 0 <= i < j < |s.delivered| ==> s.delivered[i].id != s.delivered[j].id)
  }

  ghost predicate Inv(s: State) {
    ActiveOk(s) && SentOk(s) && InFlightOk(s) && PendingOk(s) && DeliveredOk(s)
  }

  /** A send in its two halves: without a mapped, known channel or acceptance it is nothing at all,
      else it is the next packet of that channel. */
  lemma SendCases(s: State, connection: string, store: string, key: string, accepted: bool)
    ensures var ready := connection in s.active && s.active[connection] != "" && s.active[connection] in s.channels;
            (!ready || !accepted ==> Send(s, connection, store, key, accepted) == (s, None))
            && (ready && accepted ==>
                  var channel := s.active[connection];
                  var n := s.channels[channel].nextSequence;
                  Send(s, connection, store, key, accepted)
                  == (Sent(s, connection, PacketId(channel, n), store, key),
                      Some(ResolvePort(s.port) + "/" + channel + "#" + FormatUint(n))))
  {
    hide FormatUint, Sent;
  }

  /** The stores after a send, written one by one, make up the state after it. */
  lemma SentFields(s: State, s': State, connection: string, id: PacketId, store: string, key: string)
    requires id.channel in s.channels
    requires s' == State(s.port, s.active, s'.pending, s'.channels, s'.inFlight, s'.sent, s.delivered)
    requires s'.pending == s.pending[PendingKey(id) := Correlation(store, key, connection)]
    requires var end := s.channels[id.channel];
             s'.channels == s.channels[id.channel := end.(nextSequence := end.nextSequence + 1)]
    requires s'.inFlight == s.inFlight[id := QueryPacket(store, key)]
    requires s'.sent == s.sent[id := QueryPacket(store, key)]
    ensures s' == Sent(s, connection, id, store, key)
  {
    hide PendingKey, QueryPacket;
  }

  lemma SentKeepsPending(s: State, connection: string, id: PacketId, store: string, key: string)
    requires Inv(s) && id.channel in s.channels && id.sequence == s.channels[id.channel].nextSequence
    requires connection in s.active && s.active[connection] == id.channel
    ensures PendingOk(Sent(s, connection, id, store, key))
  {
    hide PendingKey, QueryPacket;
    var s' := Sent(s, connection, id, store, key);
    forall other | other in s'.inFlight
      ensures PendingKey(other) in s'.pending && Matches(s', other, s'.pending[PendingKey(other)])
    {
      if other != id {
        assert Matches(s, other, s.pending[PendingKey(other)]);
        if PendingKey(other) == PendingKey(id) {
          PendingKeyInjective(other, id);
        }
      }
    }
    forall k | k in s'.pending
      ensures exists o :: o in s'.inFlight && k == PendingKey(o)
    {
      if k == PendingKey(id) {
        assert id in s'.inFlight;
      } else {
        var o :| o in s.inFlight && k == PendingKey(o);
        assert o in s'.inFlight;
      }
    }
  }

  lemma SentKeepsActive(s: State, connection: string, id: PacketId, store: string, key: string)
    requires ActiveOk(s) && id.channel in s.channels
    ensures ActiveOk(Sent(s, connection, id, store, key))
  {
    hide PendingKey, QueryPacket;
  }

  lemma SentKeepsSent(s: State, connection: string, id: PacketId, store: string, key: string)
    requires SentOk(s) && InFlightOk(s) && id.channel in s.channels
    requires id.sequence == s.channels[id.channel].nextSequence
    ensures var s' := Sent(s, connection, id, store, key);
            SentOk(s') && InFlightOk(s') && id !in s.sent
  {
    hide PendingKey, QueryPacket;
  }

  lemma SentKeepsDelivered(s: State, connection: string, id: PacketId, store: string, key: string)
    requires DeliveredOk(s) && id.channel in s.channels && id !in s.sent
    ensures DeliveredOk(Sent(s, connection, id, store, key))
  {
    hide PendingKey, QueryPacket;
  }

  lemma SendKeepsInv(s: State, connection: string, store: string, key: string, accepted: bool)
    requires Inv(s)
    ensures Inv(Send(s, connection, store, key, accepted).0)
  {
    if Send(s, connection, store, key, accepted).1.Some? {
      var id := PacketId(s.active[connection], s.channels[s.active[connection]].nextSequence);
      hide PendingKey, QueryPacket, ActiveOk, SentOk, InFlightOk, PendingOk, DeliveredOk;
      SentKeepsPending(s, connection, id, store, key);
      SentKeepsActive(s, connection, id, store, key);
      SentKeepsSent(s, connection, id, store, key);
      SentKeepsDelivered(s, connection, id, store, key);
    }
  }

  lemma ResolveKeepsPending(s: State, id: PacketId)
    requires PendingOk(s) && id in s.inFlight
    ensures PendingOk(Resolve(s, id))
  {
    hide PendingKey, QueryPacket;
    var s' := Resolve(s, id);
    forall other | other in s'.inFlight
      ensures PendingKey(other) in s'.pending && Matches(s', other, s'.pending[PendingKey(other)])
    {
      assert Matches(s, other, s.pending[PendingKey(other)]);
      if PendingKey(other) == PendingKey(id) {
        PendingKeyInjective(other, id);
      }
    }
    forall k | k in s'.pending
      ensures exists o :: o in s'.inFlight && k == PendingKey(o)
    {
      var o :| o in s.inFlight && k == PendingKey(o);
      assert o in s'.inFlight;
    }
  }

  lemma ResolveKeepsInv(s: State, id: PacketId)
    requires Inv(s) && id in s.inFlight
    ensures Inv(Resolve(s, id))
  {
    ResolveKeepsPending(s, id);
    hide PendingKey, QueryPacket, PendingOk;
  }

  /** The correlation of a packet in flight is there and is its own. */
  lemma PendingMatches(s: State, id: PacketId)
    requires PendingOk(s) && id in s.inFlight
    ensures PendingKey(id) in s.pending && Matches(s, id, s.pending[PendingKey(id)])
  {
    hide PendingKey, QueryPacket;
  }

  /** One more delivery, of a packet that is no longer in flight and was in none before. */
  lemma DeliverKeepsDelivered(s: State, d: Delivery)
    requires DeliveredOk(s) && d.id in s.sent && d.id !in s.inFlight && d.value != ""
    requires s.sent[d.id] == QueryPacket(d.store, d.key)
    requires forall j :: 0 <= j < |s.delivered| ==> s.delivered[j].id != d.id
    ensures DeliveredOk(s.(delivered := s.delivered + [d]))
  {
    hide QueryPacket;
  }

  lemma NotYetDelivered(s: State, id: PacketId)
    requires DeliveredOk(s) && id in s.inFlight
    ensures forall j :: 0 <= j < |s.delivered| ==> s.delivered[j].id != id
  {
    hide QueryPacket;
  }

  /** What was delivered is beside the other parts of the invariant. */
  lemma DeliveredAside(s: State, deliveries: seq<Delivery>)
    requires ActiveOk(s) && SentOk(s) && InFlightOk(s) && PendingOk(s)
    ensures var s' := s.(delivered := deliveries);
            ActiveOk(s') && SentOk(s') && InFlightOk(s') && PendingOk(s')
  {
    hide PendingKey, QueryPacket;
  }

  lemma DeliverKeepsInv(s: State, id: PacketId, value: string)
    requires Inv(s) && id in s.inFlight && value != ""
    ensures PendingKey(id) in s.pending
    ensures var c := s.pending[PendingKey(id)];
            Inv(Resolve(s, id).(delivered := s.delivered + [Delivery(id, c.store, c.key, value)]))
  {
    ResolveKeepsInv(s, id);
    PendingMatches(s, id);
    NotYetDelivered(s, id);
    assert id in s.sent && s.sent[id] == s.inFlight[id] by { hide ActiveOk, SentOk, PendingOk, DeliveredOk; }
    hide PendingKey, QueryPacket, ActiveOk, SentOk, InFlightOk, PendingOk, DeliveredOk;
    var c, resolved := s.pending[PendingKey(id)], Resolve(s, id);
    var d := Delivery(id, c.store, c.key, value);
    DeliverKeepsDelivered(resolved, d);
    DeliveredAside(resolved, s.delivered + [d]);
  }

  lemma AcknowledgeKeepsInv(s: State, id: PacketId, ack: Ack, wired: bool, consumed: bool)
    requires Inv(s)
    ensures Inv(Acknowledge(s, id, ack, wired, consumed))
  {
    if id in s.inFlight {
      InFlightIsPending(s, id);
      hide Inv, PendingKey, QueryPacket, ExtractValue, Resolve;
      match OnAck(s, id, ack, wired)
      case Deliver(c, value) => DeliverKeepsInv(s, id, value);
      case Reject =>
      case Clear => ResolveKeepsInv(s, id);
    }
  }

  lemma InFlightIsPending(s: State, id: PacketId)
    requires Inv(s) && id in s.inFlight
    ensures PendingKey(id) in s.pending
  {
    PendingMatches(s, id);
    hide Inv, Matches, PendingOk;
  }

  lemma OpenKeepsPending(s: State, channel: string, hops: seq<string>, version: string)
    requires PendingOk(s)
    ensures PendingOk(Open(s, channel, hops, version))
  {
    hide PendingKey, QueryPacket;
    var s' := Open(s, channel, hops, version);
    forall id | id in s.inFlight
      ensures PendingKey(id) in s'.pending && Matches(s', id, s'.pending[PendingKey(id)])
    {
      assert Matches(s, id, s.pending[PendingKey(id)]);
    }
  }

  lemma OpenKeepsInv(s: State, channel: string, hops: seq<string>, version: string)
    requires Inv(s)
    ensures Inv(Open(s, channel, hops, version))
  {
    OpenKeepsPending(s, channel, hops, version);
    hide PendingOk, PendingKey, QueryPacket;
  }

  lemma CloseKeepsInv(s: State, channel: string)
    requires Inv(s)
    ensures Inv(Close(s, channel))
  {
    hide PendingKey, QueryPacket;
    var s' := Close(s, channel);
    forall id | id in s.inFlight
      ensures PendingKey(id) in s'.pending && Matches(s', id, s'.pending[PendingKey(id)])
    {
      assert Matches(s, id, s.pending[PendingKey(id)]);
    }
  }

  lemma StepKeepsInv(s: State, e: Event)
    requires Inv(s)
    ensures Inv(Step(s, e))
  {
    hide Inv;
    match e
    case OpenEv(channel, hops, version) => OpenKeepsInv(s, channel, hops, version);
    case CloseEv(channel) => CloseKeepsInv(s, channel);
    case SendEv(connection, store, key, accepted) => SendKeepsInv(s, connection, store, key, accepted);
    case AckEv(id, ack, wired, consumed) => AcknowledgeKeepsInv(s, id, ack, wired, consumed);
    case TimeoutEv(id) =>
      if id in s.inFlight { ResolveKeepsInv(s, id); }
  }

  /** In every reachable state the invariant holds. */
  lemma {:induction false} RunKeepsInv(s: State, events: seq<Event>)
    requires Inv(s)
    ensures Inv(Run(s, events))
    decreases |events|
  {
    hide Inv, Step;
    if events != [] {
      StepKeepsInv(s, events[0]);
      RunKeepsInv(Step(s, events[0]), events[1..]);
    }
  }

  /* ---------- consequences ---------- */

  lemma InitialInv(s: State)
    requires Initial(s)
    ensures Inv(s)
  {
  }

  /** The path keeps the store apart, so a packet determines the query. */
  lemma QueryPacketInjective(store: string, key: string, store': string, key': string)
    requires QueryPacket(store, key) == QueryPacket(store', key')
    ensures store == store' && key == key'
  {
    var path, path' := QueryPacket(store, key).path, QueryPacket(store', key').path;
    assert path[7..|path| - 4] == store && path'[7..|path'| - 4] == store';
  }

  /** At most once, with the right query: whatever the relayers, the remote chain and the consumer
      do, no packet's value is delivered twice, and each value is delivered with exactly the store
      and key that were sent in that packet, after which the packet is no longer in flight. */
  lemma DeliveredAtMostOnce(s: State, events: seq<Event>)
    requires Initial(s)
    ensures var f := Run(s, events);
            (forall i, j :: 0 <= i < j < |f.delivered| ==> f.delivered[i].id != f.delivered[j].id)
            && forall i :: 0 <= i < |f.delivered| ==>
                 var d := f.delivered[i];
                 d.id in f.sent && d.id !in f.inFlight
                 && forall store, key :: f.sent[d.id] == QueryPacket(store, key) ==> d.store == store && d.key == key
  {
    InitialInv(s);
    RunKeepsInv(s, events);
    var f := Run(s, events);
    forall i, store, key | 0 <= i < |f.delivered| && f.sent[f.delivered[i].id] == QueryPacket(store, key)
      ensures f.delivered[i].store == store && f.delivered[i].key == key
    {
      QueryPacketInjective(f.delivered[i].store, f.delivered[i].key, store, key);
    }
  }

  /** A key about to be written is free: a successful send never overwrites a correlation. */
  lemma SendKeyIsFree(s: State, channel: string)
    requires Inv(s) && channel in s.channels
    ensures PendingKey(PacketId(channel, s.channels[channel].nextSequence)) !in s.pending
  {
    var id := PacketId(channel, s.channels[channel].nextSequence);
    assert id !in s.inFlight;
    if PendingKey(id) in s.pending {
      var o :| o in s.inFlight && PendingKey(id) == PendingKey(o);
      PendingKeyInjective(id, o);
    }
  }

  function SendCount(s: State, e: Event): nat {
    if e.SendEv? && Send(s, e.connection, e.store, e.key, e.accepted).1.Some? then 1 else 0
  }

  function ResolveCount(s: State, e: Event): nat {
    if (e.AckEv? || e.TimeoutEv?) && e.id in s.inFlight && e.id !in Step(s, e).inFlight then 1 else 0
  }

  function Sends(s: State, events: seq<Event>): nat
    decreases |events|
  {
    if events == [] then 0 else SendCount(s, events[0]) + Sends(Step(s, events[0]), events[1..])
  }

  function Resolutions(s: State, events: seq<Event>): nat
    decreases |events|
  {
    if events == [] then 0 else ResolveCount(s, events[0]) + Resolutions(Step(s, events[0]), events[1..])
  }

  lemma MapSizes(m: map<string, Correlation>, k: string, c: Correlation)
    ensures k !in m ==> |m[k := c]| == |m| + 1
    ensures k in m ==> |m - {k}| == |m| - 1
  {
    if k !in m {
      assert m[k := c].Keys == m.Keys + {k};
    } else {
      assert (m - {k}).Keys == m.Keys - {k};
    }
  }

  lemma ResolveSize(s: State, id: PacketId)
    requires Inv(s) && id in s.inFlight
    ensures PendingKey(id) in s.pending && |Resolve(s, id).pending| == |s.pending| - 1
    ensures id !in Resolve(s, id).inFlight
  {
    hide PendingKey, QueryPacket, ActiveOk, SentOk, DeliveredOk;
    MapSizes(s.pending, PendingKey(id), s.pending[PendingKey(id)]);
  }

  lemma SendSize(s: State, connection: string, store: string, key: string, accepted: bool)
    requires Inv(s) && Send(s, connection, store, key, accepted).1.Some?
    ensures |Send(s, connection, store, key, accepted).0.pending| == |s.pending| + 1
  {
    hide PendingKey, QueryPacket, Inv;
    var channel := s.active[connection];
    SendKeyIsFree(s, channel);
    var next := PacketId(channel, s.channels[channel].nextSequence);
    MapSizes(s.pending, PendingKey(next), Correlation(store, key, connection));
  }

  lemma AckCount(s: State, id: PacketId, ack: Ack, wired: bool, consumed: bool)
    requires Inv(s)
    ensures var s' := Acknowledge(s, id, ack, wired, consumed);
            |s'.pending| + (if id in s.inFlight && id !in s'.inFlight then 1 else 0) == |s.pending|
  {
    hide PendingKey, QueryPacket, Inv, ExtractValue, Resolve;
    if id in s.inFlight {
      ResolveSize(s, id);
      match OnAck(s, id, ack, wired)
      case Ignore =>
      case Reject =>
      case Clear =>
      case Deliver(c, value) =>
    }
  }

  lemma ConsumedResolves(s: State, id: PacketId, ack: Ack)
    requires id in s.inFlight && OnAck(s, id, ack, true).Deliver?
    ensures id !in Acknowledge(s, id, ack, true, true).inFlight
  {
    hide PendingKey, ExtractValue;
  }

  lemma StepCount(s: State, e: Event)
    requires Inv(s)
    ensures |Step(s, e).pending| + ResolveCount(s, e) == |s.pending| + SendCount(s, e)
  {
    hide PendingKey, QueryPacket, Inv, Acknowledge, FormatUint, Sent;
    match e
    case SendEv(connection, store, key, accepted) =>
      if SendCount(s, e) == 1 { SendSize(s, connection, store, key, accepted); }
    case AckEv(id, ack, wired, consumed) => AckCount(s, id, ack, wired, consumed);
    case TimeoutEv(id) =>
      if id in s.inFlight { ResolveSize(s, id); }
    case _ =>
  }

  /** Conservation: over any run, the correlations held are the successful sends less the packets
      resolved. */
  lemma {:induction false} PendingCount(s: State, events: seq<Event>)
    requires Inv(s)
    ensures |Run(s, events).pending| + Resolutions(s, events) == |s.pending| + Sends(s, events)
    decreases |events|
  {
    hide Inv, Step, SendCount, ResolveCount;
    if events != [] {
      StepCount(s, events[0]);
      StepKeepsInv(s, events[0]);
      PendingCount(Step(s, events[0]), events[1..]);
    }
  }

  /** Closing a channel leaves the mapping of a connection to another channel alone exactly when
      the closed channel ran over another connection. */
  lemma CloseKeepsMappingIff(s: State, channel: string, connection: string)
    requires channel in s.channels && s.channels[channel].hops != []
    requires connection in s.active && s.active[connection] != channel
    ensures (connection in Close(s, channel).active && Close(s, channel).active[connection] == s.active[connection])
       <==> s.channels[channel].hops[0] != connection
  {
  }

  /** So once a second channel opened over a connection, the close of the first one unmaps it. */
  lemma ClosingTheOldChannelUnmapsTheNewOne(s: State, connection: string, first: string, second: string)
    requires first !in s.channels && second !in s.channels && first != second
    ensures var both := Open(Open(s, first, [connection], VERSION), second, [connection], VERSION);
            both.active[connection] == second && connection !in Close(both, first).active
            && forall store, key, accepted :: Send(Close(both, first), connection, store, key, accepted).1.None?
  {
  }
}
