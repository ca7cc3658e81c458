/** The in-process notification broker (workspace/notification.go): tenants' subscribers,
    their bounded channels, and the live-stream gauge around them. */
module Broker {
  import opened Basics

  type Tenant = string
  type SubId = nat

  datatype Message = Message(tenant: Tenant, body: string)

  const CAPACITY := 16

  /** One non-blocking send: how full the buffer was, and whether the message went in. */
  datatype Offer = Offer(message: Message, buffered: nat, taken: bool)

  /** A subscriber's channel. `from` and `until` mark, in the broker's log of broadcasts,
      when it was subscribed and closed; `offers` is every send it was offered. */
  datatype Channel = Channel(
    tenant: Tenant,
    from: nat,
    until: Option<nat>,
    buffer: seq<Message>,
    received: seq<Message>,
    offers: seq<Offer>)

  /** `panicked` records a send on, or a close of, a closed channel; `counted` holds the
      subscriptions whose once-guarded unsubscribe has not run. */
  datatype State = State(
    subs: map<Tenant, set<SubId>>,
    channels: seq<Channel>,
    log: seq<Message>,
    panicked: bool,
    gauge: int,
    counted: set<SubId>)

  const START := State(map[], [], [], false, 0, {})

  predicate IsOpen(c: Channel) { c.until.None? }

  // ---- Operations ----

  /** Broker.Subscribe inside the service's counted Subscribe; the fresh channel's id is
      its position. */
  function Subscribe(s: State, tenant: Tenant): State {
    var id, peers := |s.channels|, if tenant in s.subs then s.subs[tenant] else {};
    s.(subs := s.subs[tenant := peers + {id}],
       channels := s.channels + [Channel(tenant, |s.log|, None, [], [], [])],
       gauge := s.gauge + 1, counted := s.counted + {id})
  }

  function CloseChannel(s: State, id: SubId): State
    requires id < |s.channels|
  {
    if IsOpen(s.channels[id]) then s.(channels := s.channels[id := s.channels[id].(until := Some(|s.log|))])
    else s.(panicked := true)
  }

  /** The broker's cancel function, as often as it is called. */
  function Cancel(s: State, id: SubId): State {
    if id >= |s.channels| || s.channels[id].tenant !in s.subs then s
    else
      var tenant := s.channels[id].tenant;
      var left := s.subs[tenant] - {id};
      var closed := if id in s.subs[tenant] then CloseChannel(s, id) else s;
      closed.(subs := if left == {} then s.subs - {tenant} else s.subs[tenant := left])
  }

  /** countedUnsubscribe's returned function: once, decrement and cancel. */
  function Unsubscribe(s: State, id: SubId): State {
    if id !in s.counted then s
    else Cancel(s.(counted := s.counted - {id}, gauge := s.gauge - 1), id)
  }

  function Offered(c: Channel, m: Message): Channel {
    var taken := |c.buffer| < CAPACITY;
    c.(buffer := if taken then c.buffer + [m] else c.buffer, offers := c.offers + [Offer(m, |c.buffer|, taken)])
  }

  /** Broadcast: offer the message to every subscriber of its tenant. */
  function Broadcast(s: State, m: Message): State {
    var targets := if m.tenant in s.subs then s.subs[m.tenant] else {};
    s.(channels := seq(|s.channels|, id requires 0 <= id < |s.channels| =>
                         if id in targets then Offered(s.channels[id], m) else s.channels[id]),
       log := s.log + [m],
       panicked := s.panicked || exists id :: id in targets && id < |s.channels| && !IsOpen(s.channels[id]))
  }

  /** The consumer takes the oldest buffered message; a closed channel still drains. */
  function Receive(s: State, id: SubId): State {
    if id >= |s.channels| || s.channels[id].buffer == [] then s
    else
      var c := s.channels[id];
      s.(channels := s.channels[id := c.(buffer := c.buffer[1..], received := c.received + [c.buffer[0]])])
  }

  datatype Op =
    | SubscribeOp(tenant: Tenant)
    | CancelOp(id: SubId)
    | UnsubscribeOp(id: SubId)
    | BroadcastOp(message: Message)
    | ReceiveOp(id: SubId)

  function Perform(s: State, op: Op): State {
    match op
    case SubscribeOp(tenant) => Subscribe(s, tenant)
    case CancelOp(id) => Cancel(s, id)
    case UnsubscribeOp(id) => Unsubscribe(s, id)
    case BroadcastOp(m) => Broadcast(s, m)
    case ReceiveOp(id) => Receive(s, id)
  }

  /** The calls of an interleaving, in the order the broker's lock admits them. */
  function Run(s: State, ops: seq<Op>): State
    decreases |ops|
  {
    if ops == [] then s else Run(Perform(s, ops[0]), ops[1..])
  }

  // ---- What every run keeps ----

  function OfTenant(log: seq<Message>, tenant: Tenant): seq<Message> {
    if log == [] then []
    else
      var front, last := OfTenant(log[..|log| - 1], tenant), log[|log| - 1];
      if last.tenant == tenant then front + [last] else front
  }

  function Messages(offers: seq<Offer>): seq<Message> {
    if offers == [] then [] else Messages(offers[..|offers| - 1]) + [offers[|offers| - 1].message]
  }

  function Taken(offers: seq<Offer>): seq<Message> {
    if offers == [] then []
    else
      var front, last := Taken(offers[..|offers| - 1]), offers[|offers| - 1];
      if last.taken then front + [last.message] else front
  }

  /** The broadcasts made while the channel was subscribed. */
  function Span(c: Channel, log: seq<Message>): seq<Message>
    requires c.from <= |log| && (c.until.Some? ==> c.from <= c.until.value <= |log|)
  {
    if IsOpen(c) then log[c.from..] else log[c.from..c.until.value]
  }

  /** The channel was offered exactly its tenant's broadcasts while it was subscribed, took
      each unless 16 were waiting, and has lost or reordered none it took. */
  ghost predicate Exact(c: Channel, log: seq<Message>) {
    && c.from <= |log| && (c.until.Some? ==> c.from <= c.until.value <= |log|)
    && Messages(c.offers) == OfTenant(Span(c, log), c.tenant)
    && (forall i :: 0 <= i < |c.offers| ==> (c.offers[i].taken <==> c.offers[i].buffered < CAPACITY))
    && c.received + c.buffer == Taken(c.offers) && |c.buffer| <= CAPACITY
  }

  ghost predicate AllExact(s: State) {
    forall id :: 0 <= id < |s.channels| ==> Exact(s.channels[id], s.log)
  }

  ghost predicate Subscribed(s: State, tenant: Tenant, id: SubId) {
    tenant in s.subs && id in s.subs[tenant]
  }

  ghost predicate OpenFor(s: State, tenant: Tenant, id: SubId) {
    id < |s.channels| && s.channels[id].tenant == tenant && IsOpen(s.channels[id])
  }

  /** The subscriber sets are exactly the open channels, tenant by tenant, none empty. */
  ghost predicate Registered(s: State) {
    && (forall tenant :: tenant in s.subs ==> s.subs[tenant] != {})
    && (forall tenant, id :: Subscribed(s, tenant, id) <==> OpenFor(s, tenant, id))
  }

  ghost predicate Gauged(s: State) {
    s.gauge == |s.counted| && forall id :: id in s.counted ==> id < |s.channels|
  }

  ghost predicate Invariant(s: State) {
    !s.panicked && Registered(s) && AllExact(s) && Gauged(s)
  }

  // ---- Registration ----

  lemma SubscribeRegistered(s: State, tenant: Tenant)
    requires Registered(s)
    ensures Registered(Subscribe(s, tenant))
  {
    var s', id := Subscribe(s, tenant), |s.channels|;
    forall t, k ensures Subscribed(s', t, k) <==> OpenFor(s', t, k) {
      assert Subscribed(s, t, k) <==> OpenFor(s, t, k);
    }
  }

  lemma CancelRegistered(s: State, id: SubId)
    requires Registered(s)
    ensures Registered(Cancel(s, id)) && Cancel(s, id).panicked == s.panicked
  {
    var s' := Cancel(s, id);
    if id < |s.channels| {
      var tenant := s.channels[id].tenant;
      assert Subscribed(s, tenant, id) <==> OpenFor(s, tenant, id);
      forall t, k ensures Subscribed(s', t, k) <==> OpenFor(s', t, k) {
        assert Subscribed(s, t, k) <==> OpenFor(s, t, k);
        assert Subscribed(s, tenant, k) && k != id ==> k in s.subs[tenant] - {id};
      }
    }
  }

  lemma SameChannelsRegistered(s: State, s': State)
    requires Registered(s) && s'.subs == s.subs && |s'.channels| == |s.channels|
    requires forall id :: 0 <= id < |s.channels| ==> s'.channels[id].tenant == s.channels[id].tenant && s'.channels[id].until == s.channels[id].until
    ensures Registered(s')
  {
    forall t, k ensures Subscribed(s', t, k) <==> OpenFor(s', t, k) {
      assert Subscribed(s, t, k) <==> OpenFor(s, t, k);
    }
  }

  // ---- Exactness ----

  lemma OfTenantAppend(log: seq<Message>, m: Message, tenant: Tenant)
    ensures OfTenant(log + [m], tenant) == OfTenant(log, tenant) + (if m.tenant == tenant then [m] else [])
  {
    assert (log + [m])[..|log|] == log;
  }

  lemma SpanGrows(c: Channel, log: seq<Message>, m: Message)
    requires c.from <= |log| && (c.until.Some? ==> c.from <= c.until.value <= |log|)
    ensures Span(c, log + [m]) == if IsOpen(c) then Span(c, log) + [m] else Span(c, log)
  {
  }

  lemma OffersGrow(offers: seq<Offer>, o: Offer)
    ensures Messages(offers + [o]) == Messages(offers) + [o.message]
    ensures Taken(offers + [o]) == Taken(offers) + (if o.taken then [o.message] else [])
  {
    assert (offers + [o])[..|offers|] == offers;
  }

  lemma OfferedExact(c: Channel, log: seq<Message>, m: Message)
    requires Exact(c, log) && IsOpen(c) && m.tenant == c.tenant
    ensures Exact(Offered(c, m), log + [m])
  {
    SpanGrows(c, log, m);
    OfTenantAppend(Span(c, log), m, c.tenant);
    OffersGrow(c.offers, Offer(m, |c.buffer|, |c.buffer| < CAPACITY));
    assert Span(Offered(c, m), log + [m]) == Span(c, log + [m]);
    assert c.received + (c.buffer + [m]) == (c.received + c.buffer) + [m];
  }

  lemma BystanderExact(c: Channel, log: seq<Message>, m: Message)
    requires Exact(c, log) && (IsOpen(c) ==> m.tenant != c.tenant)
    ensures Exact(c, log + [m])
  {
    SpanGrows(c, log, m);
    OfTenantAppend(Span(c, log), m, c.tenant);
  }

  lemma ClosedExact(c: Channel, log: seq<Message>)
    requires Exact(c, log) && IsOpen(c)
    ensures Exact(c.(until := Some(|log|)), log)
  {
    assert log[c.from..|log|] == log[c.from..];
  }

  lemma ReceivedExact(c: Channel, log: seq<Message>)
    requires Exact(c, log) && c.buffer != []
    ensures Exact(c.(buffer := c.buffer[1..], received := c.received + [c.buffer[0]]), log)
  {
    var c' := c.(buffer := c.buffer[1..], received := c.received + [c.buffer[0]]);
    assert c'.received + c'.buffer == c.received + c.buffer;
    assert Span(c', log) == Span(c, log);
  }

  // ---- Every operation keeps the invariant ----

  lemma SubscribeKeeps(s: State, tenant: Tenant)
    requires Invariant(s)
    ensures Invariant(Subscribe(s, tenant))
  {
    SubscribeRegistered(s, tenant);
    assert s.log[|s.log|..] == [];
    assert |s.channels| !in s.counted;
  }

  lemma CancelKeeps(s: State, id: SubId)
    requires Invariant(s)
    ensures Invariant(Cancel(s, id)) && Cancel(s, id).gauge == s.gauge
  {
    CancelRegistered(s, id);
    if id < |s.channels| && IsOpen(s.channels[id]) { ClosedExact(s.channels[id], s.log); }
  }

  lemma UnsubscribeKeeps(s: State, id: SubId)
    requires Invariant(s)
    ensures Invariant(Unsubscribe(s, id))
  {
    if id in s.counted {
      var s' := s.(counted := s.counted - {id}, gauge := s.gauge - 1);
      SameChannelsRegistered(s, s');
      CancelKeeps(s', id);
    }
  }

  lemma BroadcastKeeps(s: State, m: Message)
    requires Invariant(s)
    ensures Invariant(Broadcast(s, m))
  {
    var s' := Broadcast(s, m);
    SameChannelsRegistered(s, s');
    forall id | 0 <= id < |s'.channels| ensures Exact(s'.channels[id], s'.log) {
      var c := s.channels[id];
      assert Subscribed(s, m.tenant, id) <==> OpenFor(s, m.tenant, id);
      if Subscribed(s, m.tenant, id) { OfferedExact(c, s.log, m); } else { BystanderExact(c, s.log, m); }
    }
    forall id: SubId | Subscribed(s, m.tenant, id) ensures id < |s.channels| && IsOpen(s.channels[id]) {
      assert OpenFor(s, m.tenant, id);
    }
  }

  lemma ReceiveKeeps(s: State, id: SubId)
    requires Invariant(s)
    ensures Invariant(Receive(s, id))
  {
    SameChannelsRegistered(s, Receive(s, id));
    if id < |s.channels| && s.channels[id].buffer != [] { ReceivedExact(s.channels[id], s.log); }
  }

  lemma PerformKeeps(s: State, op: Op)
    requires Invariant(s)
    ensures Invariant(Perform(s, op))
  {
    match op {
      case SubscribeOp(tenant) => SubscribeKeeps(s, tenant);
      case CancelOp(id) => CancelKeeps(s, id);
      case UnsubscribeOp(id) => UnsubscribeKeeps(s, id);
      case BroadcastOp(m) => BroadcastKeeps(s, m);
      case ReceiveOp(id) => ReceiveKeeps(s, id);
    }
  }

  /** Over every interleaving: no send after close, no second close, no empty tenant set,
      every channel exact, and the gauge counts the unsubscribes still due. */
  lemma {:induction false} RunKeeps(s: State, ops: seq<Op>)
    requires Invariant(s)
    ensures Invariant(Run(s, ops))
    decreases |ops|
  {
    if ops != [] {
      PerformKeeps(s, ops[0]);
      RunKeeps(Perform(s, ops[0]), ops[1..]);
    }
  }

  // ---- What a subscriber sees ----

  /** a can be had from b by leaving messages out. */
  ghost predicate Subsequence(a: seq<Message>, b: seq<Message>)
    decreases |b|
  {
    || a == []
    || (b != [] && a[|a| - 1] == b[|b| - 1] && Subsequence(a[..|a| - 1], b[..|b| - 1]))
    || (b != [] && Subsequence(a, b[..|b| - 1]))
  }

  lemma {:induction false} TakenIsSubsequence(offers: seq<Offer>)
    ensures Subsequence(Taken(offers), Messages(offers))
  {
    if offers != [] {
      var front, last := offers[..|offers| - 1], offers[|offers| - 1];
      TakenIsSubsequence(front);
      assert Messages(offers)[..|Messages(offers)| - 1] == Messages(front);
      if last.taken { assert Taken(offers)[..|Taken(offers)| - 1] == Taken(front); }
    }
  }

  /** In every run from an empty broker, what a subscriber has received and has waiting is
      an in-order subsequence of its own tenant's broadcasts since it subscribed; and with
      nothing dropped it is all of them. */
  lemma SubscriberView(ops: seq<Op>, id: SubId)
    requires id < |Run(START, ops).channels|
    ensures var s := Run(START, ops);
            var c := s.channels[id];
            && Exact(c, s.log)
            && Subsequence(c.received + c.buffer, OfTenant(Span(c, s.log), c.tenant))
            && (forall i :: 0 <= i < |c.offers| && !c.offers[i].taken ==> c.offers[i].buffered >= CAPACITY)
  {
    RunKeeps(START, ops);
    TakenIsSubsequence(Run(START, ops).channels[id].offers);
  }

  lemma ClosedCancelIdle(s: State, id: SubId)
    requires Registered(s) && (id < |s.channels| ==> !IsOpen(s.channels[id]))
    ensures Cancel(s, id) == s
  {
    if id < |s.channels| && s.channels[id].tenant in s.subs {
      var tenant := s.channels[id].tenant;
      assert Subscribed(s, tenant, id) <==> OpenFor(s, tenant, id);
      var left := s.subs[tenant] - {id};
      assert left == s.subs[tenant] != {};
      assert s.subs[tenant := left] == s.subs;
    }
  }

  lemma CancelCloses(s: State, id: SubId)
    requires Registered(s)
    ensures id < |Cancel(s, id).channels| ==> !IsOpen(Cancel(s, id).channels[id])
  {
    if id < |s.channels| {
      assert Subscribed(s, s.channels[id].tenant, id) <==> OpenFor(s, s.channels[id].tenant, id);
    }
  }

  /** Cancelling again, and unsubscribing again, changes nothing. */
  lemma CancelTwice(s: State, id: SubId)
    requires Invariant(s)
    ensures Cancel(Cancel(s, id), id) == Cancel(s, id)
    ensures Unsubscribe(Unsubscribe(s, id), id) == Unsubscribe(s, id)
  {
    CancelKeeps(s, id);
    CancelCloses(s, id);
    ClosedCancelIdle(Cancel(s, id), id);
  }

  /** A subscriber's first unsubscribe, or cancel, closes its channel, takes it out of its
      tenant's set and lowers the gauge by one; nobody else's channel changes. */
  lemma UnsubscribeCloses(s: State, id: SubId)
    requires Invariant(s) && id < |s.channels| && id in s.counted
    ensures var s' := Unsubscribe(s, id);
            && !IsOpen(s'.channels[id]) && s'.gauge == s.gauge - 1 && id !in s'.counted && !s'.panicked
            && (forall tenant :: tenant in s'.subs ==> id !in s'.subs[tenant])
            && |s'.channels| == |s.channels| && (forall j :: 0 <= j < |s.channels| && j != id ==> s'.channels[j] == s.channels[j])
            && s'.channels[id].buffer == s.channels[id].buffer && s'.channels[id].received == s.channels[id].received && s'.log == s.log
  {
    UnsubscribeKeeps(s, id);
    assert OpenFor(s, s.channels[id].tenant, id) <==> Subscribed(s, s.channels[id].tenant, id);
    var s' := Unsubscribe(s, id);
    forall tenant | tenant in s'.subs ensures id !in s'.subs[tenant] {
      assert Subscribed(s', tenant, id) <==> OpenFor(s', tenant, id);
    }
  }

  /** A receive takes the oldest waiting message, if there is one, from that channel alone. */
  lemma ReceiveTakes(s: State, id: SubId)
    requires id < |s.channels|
    ensures var c, c' := s.channels[id], Receive(s, id).channels[id];
            && (if c.buffer == [] then c' == c
                else c'.received == c.received + [c.buffer[0]] && [c.buffer[0]] + c'.buffer == c.buffer && c'.until == c.until)
            && Receive(s, id).log == s.log && Receive(s, id).subs == s.subs
            && |Receive(s, id).channels| == |s.channels|
            && (forall j :: 0 <= j < |s.channels| && j != id ==> Receive(s, id).channels[j] == s.channels[j])
  {
  }

  /** A subscribe opens an empty channel that hears what is broadcast from now on. */
  lemma SubscribeOpens(s: State, tenant: Tenant)
    ensures var s', id := Subscribe(s, tenant), |s.channels|;
            && |s'.channels| == id + 1 && s'.channels[..id] == s.channels && IsOpen(s'.channels[id])
            && s'.channels[id].tenant == tenant && s'.channels[id].from == |s.log|
            && s'.channels[id].buffer == [] && s'.channels[id].received == [] && s'.gauge == s.gauge + 1 && Subscribed(s', tenant, id)
  {
  }

  // ---- As it runs ----

  /** The broker object; `log`, `panicked` and a channel's marks and offers only observe. */
  class NotificationBroker {
    var subs: map<Tenant, set<SubId>>
    var channels: seq<Channel>
    var gauge: int
    var counted: set<SubId>
    var panicked: bool
    var log: seq<Message>

    ghost function View(): State
      reads this
    {
      State(subs, channels, log, panicked, gauge, counted)
    }

    constructor ()
      ensures View() == START
    {
      subs, channels, gauge, counted, panicked, log := map[], [], 0, {}, false, [];
    }

    method SubscribeLive(tenant: Tenant) returns (id: SubId)
      modifies this
      ensures View() == Subscribe(old(View()), tenant) && id == |old(channels)|
    {
      id := |channels|;
      if tenant !in subs {
        subs := subs[tenant := {}];
      }
      subs := subs[tenant := subs[tenant] + {id}];
      channels := channels + [Channel(tenant, |log|, None, [], [], [])];
      gauge, counted := gauge + 1, counted + {id};
    }

    method CancelLive(id: SubId)
      requires id < |channels|
      modifies this
      ensures View() == Cancel(old(View()), id)
    {
      var tenant := channels[id].tenant;
      if tenant in subs {
        if id in subs[tenant] {
          subs := subs[tenant := subs[tenant] - {id}];
          if channels[id].until.Some? {
            panicked := true;
          } else {
            channels := channels[id := channels[id].(until := Some(|log|))];
          }
        }
        if subs[tenant] == {} {
          subs := subs - {tenant};
        }
      }
      assert tenant in old(subs) && id !in old(subs)[tenant] ==> old(subs)[tenant] - {id} == old(subs)[tenant];
    }

    method UnsubscribeLive(id: SubId)
      requires id < |channels|
      modifies this
      ensures View() == Unsubscribe(old(View()), id)
    {
      if id in counted {
        counted, gauge := counted - {id}, gauge - 1;
        CancelLive(id);
      }
    }

    method BroadcastLive(m: Message)
      requires Registered(View())
      modifies this`channels, this`log
      ensures View() == Broadcast(old(View()), m)
    {
      log := log + [m];
      assert forall id :: Subscribed(old(View()), m.tenant, id) ==> OpenFor(old(View()), m.tenant, id);
      if m.tenant !in subs { return; }
      var targets := subs[m.tenant];
      assert forall id :: id in targets <==> Subscribed(old(View()), m.tenant, id);
      var rest := targets;
      while rest != {}
        invariant rest <= targets && log == old(log) + [m]
        invariant |channels| == |old(channels)|
        invariant forall id :: 0 <= id < |channels| ==>
                    channels[id] == if id in targets && id !in rest then Offered(old(channels)[id], m) else old(channels)[id]
        decreases |rest|
      {
        var id :| id in rest;
        assert OpenFor(old(View()), m.tenant, id);
        rest := rest - {id};
        var c := channels[id];
        var full := |c.buffer| >= CAPACITY;
        channels := channels[id := c.(buffer := if full then c.buffer else c.buffer + [m],
                                      offers := c.offers + [Offer(m, |c.buffer|, !full)])];
      }
    }

    method ReceiveLive(id: SubId)
      requires id < |channels|
      modifies this
      ensures View() == Receive(old(View()), id)
    {
      var c := channels[id];
      if c.buffer != [] {
        channels := channels[id := c.(buffer := c.buffer[1..], received := c.received + [c.buffer[0]])];
      }
    }
  }
}
