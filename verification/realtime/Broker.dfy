/**
 Fan-out of live trace messages to the open event streams of an organization
 (realtime/broker.py): bounded queues that drop their oldest message when a client lags.
 */
module Broker {
  import opened Wrappers

  /** The text of a message. */
  type Message = string

  /******* What a client can rely on *******/

  /**
   A queue and its history: all that was sent to it, the positions its client has
   received, and the positions that were dropped.
   */
  datatype Mailbox = Mailbox(items: seq<Message>, sent: seq<Message>, got: seq<nat>, dropped: set<nat>)

  const EMPTY := Mailbox([], [], [], {})

  /** Not a positive number: no bound. */
  predicate Full(maxsize: int, n: nat) {
    0 < maxsize <= n
  }

  function Put(b: Mailbox, m: Message): Mailbox {
    b.(items := b.items + [m], sent := b.sent + [m])
  }

  function Oldest(b: Mailbox): int {
    |b.sent| - |b.items|
  }

  function Drop(b: Mailbox): Mailbox
    requires b.items != [] && Oldest(b) >= 0
  {
    b.(items := b.items[1..], dropped := b.dropped + {Oldest(b)})
  }

  function Deliver(maxsize: int, b: Mailbox, m: Message): Mailbox
    requires Oldest(b) >= 0
  {
    Put(if Full(maxsize, |b.items|) then Drop(b) else b, m)
  }

  /** On an empty queue the client waits. */
  function Receive(b: Mailbox): Mailbox
    requires Oldest(b) >= 0
  {
    if b.items == [] then b else b.(items := b.items[1..], got := b.got + [Oldest(b)])
  }

  /**
   The queue is a bounded suffix of what was sent; before it, everything was either
   received, once and in order, or dropped, and only for as many newer messages as fit.
   */
  ghost predicate Faithful(maxsize: int, b: Mailbox) {
    && Oldest(b) >= 0
    && b.items == b.sent[Oldest(b)..]
    && (maxsize > 0 ==> |b.items| <= maxsize)
    && (forall i, j | 0 <= i < j < |b.got| :: b.got[i] < b.got[j])
    && (forall k :: 0 <= k < Oldest(b) <==> k in b.got || k in b.dropped)
    && (forall k | k in b.dropped :: k !in b.got && 0 < maxsize && k + maxsize < |b.sent|)
  }

  lemma DeliverKeeps(maxsize: int, b: Mailbox, m: Message)
    requires Faithful(maxsize, b)
    ensures Faithful(maxsize, Deliver(maxsize, b, m))
  {
    var c := Deliver(maxsize, b, m);
    if Full(maxsize, |b.items|) {
      assert c.items == c.sent[Oldest(c)..];
      assert Oldest(c) == Oldest(b) + 1;
      assert c.dropped == b.dropped + {Oldest(b)};
    }
  }

  lemma ReceiveKeeps(maxsize: int, b: Mailbox)
    requires Faithful(maxsize, b)
    ensures Faithful(maxsize, Receive(b))
  {
    var c := Receive(b);
    if b.items != [] {
      assert forall i | 0 <= i < |b.got| :: b.got[i] in b.got;
      assert c.got[|b.got|] == Oldest(b);
      assert forall k :: k in c.got <==> k in b.got || k == Oldest(b);
    }
  }

  lemma DeliverSent(maxsize: int, b: Mailbox, m: Message)
    requires Oldest(b) >= 0
    ensures Deliver(maxsize, b, m).sent == b.sent + [m]
  {
  }

  datatype Event = Sent(message: Message) | Read

  function Next(maxsize: int, b: Mailbox, e: Event): Mailbox
    requires Oldest(b) >= 0
  {
    match e case Sent(m) => Deliver(maxsize, b, m) case Read => Receive(b)
  }

  /** The mailbox after any interleaving of messages and reads. */
  function Run(maxsize: int, events: seq<Event>): (b: Mailbox)
    ensures Oldest(b) >= 0
  {
    if events == [] then EMPTY else Next(maxsize, Run(maxsize, events[..|events| - 1]), events[|events| - 1])
  }

  lemma {:induction false} EveryRunIsFaithful(maxsize: int, events: seq<Event>)
    ensures Faithful(maxsize, Run(maxsize, events))
  {
    if events != [] {
      var before := events[..|events| - 1];
      EveryRunIsFaithful(maxsize, before);
      match events[|events| - 1]
      case Sent(m) => DeliverKeeps(maxsize, Run(maxsize, before), m);
      case Read => ReceiveKeeps(maxsize, Run(maxsize, before));
    }
  }

  lemma RunNext(maxsize: int, events: seq<Event>, e: Event)
    ensures Run(maxsize, events + [e]) == Next(maxsize, Run(maxsize, events), e)
  {
    assert (events + [e])[..|events|] == events;
  }

  /** A client that is never more than `maxsize` behind. */
  ghost predicate KeepsUp(maxsize: int, events: seq<Event>) {
    forall n | 0 <= n <= |events| :: |Run(0, events[..n]).items| <= maxsize
  }

  /** A bound is noticed exactly by the clients that fall behind it. */
  lemma {:induction false} NothingIsLostExactly(maxsize: int, events: seq<Event>)
    requires maxsize > 0
    ensures Run(maxsize, events).dropped == {} <==> KeepsUp(maxsize, events)
    ensures KeepsUp(maxsize, events) ==> Run(maxsize, events) == Run(0, events)
  {
    if events == [] {
    } else {
      var n := |events| - 1;
      var before := events[..n];
      NothingIsLostExactly(maxsize, before);
      KeepsUpNext(maxsize, before, events[n]);
      assert before + [events[n]] == events;
      var b, u := Run(maxsize, before), Run(0, before);
      NextDrops(maxsize, b, events[n]);
    }
  }

  lemma KeepsUpNext(maxsize: int, events: seq<Event>, e: Event)
    ensures KeepsUp(maxsize, events + [e]) <==> KeepsUp(maxsize, events) && |Run(0, events + [e]).items| <= maxsize
  {
    var all := events + [e];
    assert forall k | 0 <= k <= |events| :: all[..k] == events[..k];
    assert all[..|all|] == all;
    if KeepsUp(maxsize, all) {
      forall k | 0 <= k <= |events| ensures |Run(0, events[..k]).items| <= maxsize {
        assert |Run(0, all[..k]).items| <= maxsize;
      }
    }
  }

  lemma NextDrops(maxsize: int, b: Mailbox, e: Event)
    requires maxsize > 0 && Oldest(b) >= 0
    ensures b.dropped <= Next(maxsize, b, e).dropped
    ensures b.dropped == {} ==> (Next(maxsize, b, e).dropped == {} <==> e.Read? || |b.items| < maxsize)
    ensures e.Read? || |b.items| < maxsize ==> Next(maxsize, b, e) == Next(0, b, e)
    ensures e.Sent? ==> |Next(0, b, e).items| == |b.items| + 1
    ensures e.Read? ==> |Next(0, b, e).items| <= |b.items|
  {
    if e.Sent? && |b.items| >= maxsize { assert Oldest(b) in Next(maxsize, b, e).dropped; }
  }

  /******* The code *******/

  /** `asyncio.Queue`, with the history of the client it belongs to. */
  class Queue {
    const maxsize: int
    /** Whom the client listens to, and how many messages it missed before subscribing. */
    ghost const org: string
    ghost const since: nat
    var items: seq<Message>
    ghost var events: seq<Event>

    ghost function Box(): Mailbox
      reads this
    {
      Run(maxsize, events)
    }

    ghost predicate Valid()
      reads this
    {
      items == Box().items
    }

    /** The queue has been sent exactly what was published to its organization since it subscribed. */
    ghost predicate UpToDate(size: int, o: string, history: seq<Message>)
      reads this
    {
      Valid() && maxsize == size && org == o && since <= |history| && Box().sent == history[since..]
    }

    constructor (maxsize: int, ghost org: string, ghost since: nat)
      ensures Valid() && this.maxsize == maxsize && this.org == org && this.since == since && Box() == EMPTY
    {
      this.maxsize, this.org, this.since := maxsize, org, since;
      items := [];
      events := [];
    }

    /** `put_nowait`; false stands for QueueFull */
    method PutNowait(m: Message) returns (ok: bool)
      modifies this`items
      ensures ok == !Full(maxsize, |old(items)|)
      ensures items == if ok then old(items) + [m] else old(items)
    {
      ok := !(0 < maxsize <= |items|);
      if ok {
        items := items + [m];
      }
    }

    /** `get_nowait`; None stands for QueueEmpty */
    method GetNowait() returns (m: Option<Message>)
      modifies this`items
      ensures m == if old(items) == [] then None else Some(old(items)[0])
      ensures items == if old(items) == [] then [] else old(items)[1..]
    {
      m := None;
      if items != [] {
        m, items := Some(items[0]), items[1..];
      }
    }

    /** What `publish` does with one queue. The second put always finds room, so every message gets in. */
    method Offer(m: Message) returns (delivered: bool)
      requires Valid()
      modifies this
      ensures Valid() && delivered && Box() == Deliver(maxsize, old(Box()), m)
    {
      RunNext(maxsize, events, Sent(m));
      EveryRunIsFaithful(maxsize, events);
      delivered := PutNowait(m);
      if !delivered {
        var _ := GetNowait();
        delivered := PutNowait(m);
      }
      events := events + [Sent(m)];
    }

    /** The client's `queue.get()`, once there is a message */
    method Get() returns (m: Option<Message>)
      requires Valid()
      modifies this
      ensures Valid() && Box() == Receive(old(Box()))
      ensures m == if old(items) == [] then None else Some(old(items)[0])
    {
      RunNext(maxsize, events, Read);
      m := GetNowait();
      events := events + [Read];
    }
  }

  class TraceBroker {
    const queueMaxsize: int
    var subscribers: map<string, set<Queue>>
    /** All that was ever published to each organization. */
    ghost var published: map<string, seq<Message>>
    /** Every queue that ever subscribed. */
    ghost var queues: set<Queue>

    ghost function History(org: string): seq<Message>
      reads this
    {
      if org in published then published[org] else []
    }

    /** The queue listens to the organization and has been sent all it should have. */
    ghost predicate Hears(org: string, q: Queue, history: seq<Message>)
      reads this, q
    {
      q in queues && q.UpToDate(queueMaxsize, org, history)
    }

    ghost predicate Valid()
      reads this, queues
    {
      && (forall org | org in subscribers :: subscribers[org] != {} && subscribers[org] <= queues)
      && (forall org, q | org in subscribers && q in subscribers[org] :: Hears(org, q, History(org)))
    }

    constructor (maxsize: int)
      ensures Valid() && queueMaxsize == maxsize && subscribers == map[] && published == map[] && queues == {}
    {
      queueMaxsize := maxsize;
      subscribers := map[];
      published := map[];
      queues := {};
    }

    method FanOut(targets: set<Queue>, org: string, ghost history: seq<Message>, m: Message)
      requires forall q | q in targets :: q.UpToDate(queueMaxsize, org, history)
      modifies targets
      ensures forall q | q in targets :: q.UpToDate(queueMaxsize, org, history + [m])
      ensures forall q | q in targets :: q.Box() == Deliver(q.maxsize, old(q.Box()), m)
    {
      var rest := targets;
      while rest != {}
        invariant rest <= targets
        invariant forall q | q in rest :: unchanged(q)
        invariant forall q | q in targets && q !in rest :: q.UpToDate(queueMaxsize, org, history + [m])
        invariant forall q | q in targets && q !in rest :: q.Box() == Deliver(q.maxsize, old(q.Box()), m)
      {
        var q :| q in rest;
        assert old(q.UpToDate(queueMaxsize, org, history));
        var delivered := q.Offer(m);
        DeliverSent(q.maxsize, old(q.Box()), m);
        assert (history + [m])[q.since..] == history[q.since..] + [m];
        rest := rest - {q};
      }
    }

    /** Every subscriber of the organization is sent the message; nobody else is. */
    method Publish(org: string, m: Message)
      requires Valid()
      modifies `published, queues
      ensures Valid()
      ensures published == if org == "" then old(published) else old(published)[org := old(History(org)) + [m]]
      ensures forall q | q in queues ::
        if org != "" && org in subscribers && q in subscribers[org] then q.Box() == Deliver(q.maxsize, old(q.Box()), m) else unchanged(q)
    {
      if org == "" {
        return;
      }
      if org in subscribers {
        SendAll(org, m);
      }
      published := published[org := History(org) + [m]];
      forall o, q | o in subscribers && q in subscribers[o] ensures Hears(o, q, History(o)) {
        assert Sent(o, q, old(History(o)), org, m);
      }
    }

    /** Where the organizations are after `m` was sent to one of them. */
    ghost predicate Sent(o: string, q: Queue, history: seq<Message>, org: string, m: Message)
      reads this, q
    {
      Hears(o, q, if o == org then history + [m] else history)
    }

    method SendAll(org: string, m: Message)
      requires Valid() && org in subscribers
      modifies queues
      ensures forall o, q | o in subscribers && q in subscribers[o] :: Sent(o, q, History(o), org, m)
      ensures forall q | q in queues ::
        if q in subscribers[org] then q.Box() == Deliver(q.maxsize, old(q.Box()), m) else unchanged(q)
    {
      forall q | q in subscribers[org] ensures q.UpToDate(queueMaxsize, org, History(org)) && q.org == org {
        assert Hears(org, q, History(org));
      }
      FanOut(subscribers[org], org, History(org), m);
      forall o, q | o in subscribers && q in subscribers[o] ensures Sent(o, q, History(o), org, m) {
        assert old(Hears(o, q, History(o)));
        assert q.org == o;
      }
    }

    /** `subscribe`: a new queue is added to its organization. */
    method Subscribe(org: string) returns (q: Queue)
      requires Valid()
      modifies this
      ensures Valid() && fresh(q) && q.Valid() && q.maxsize == queueMaxsize && q.Box() == EMPTY && published == old(published)
      ensures queues == old(queues) + {q}
      ensures org in subscribers && subscribers == old(subscribers)[org := subscribers[org]]
      ensures subscribers[org] == (if org in old(subscribers) then old(subscribers)[org] else {}) + {q}
    {
      q := new Queue(queueMaxsize, org, |History(org)|);
      assert History(org)[|History(org)|..] == [];
      Add(org, q);
    }

    /** `_add` */
    method Add(org: string, q: Queue)
      requires Valid() && q.UpToDate(queueMaxsize, org, History(org))
      modifies `subscribers, `queues
      ensures Valid() && queues == old(queues) + {q}
      ensures subscribers == old(subscribers)[org := (if org in old(subscribers) then old(subscribers)[org] else {}) + {q}]
    {
      var subs := if org in subscribers then subscribers[org] else {};
      ghost var was := subscribers;
      subscribers := subscribers[org := subs + {q}];
      queues := queues + {q};
      forall o, p | o in subscribers && p in subscribers[o] ensures Hears(o, p, History(o)) {
        if !(o == org && p == q) {
          assert o in was && p in was[o];
          assert old(Hears(o, p, History(o)));
        }
      }
    }

    /** `_remove`: the last queue to leave takes the organization's entry with it. */
    method Remove(org: string, q: Queue)
      requires Valid()
      modifies this
      ensures Valid() && published == old(published) && queues == old(queues)
      ensures forall o :: o in subscribers <==> o in old(subscribers) && (o == org ==> old(subscribers)[o] - {q} != {})
      ensures forall o | o in subscribers :: subscribers[o] == if o == org then old(subscribers)[o] - {q} else old(subscribers)[o]
    {
      if org !in subscribers {
        return;
      }
      var subs := subscribers[org] - {q};
      if subs == {} {
        subscribers := subscribers - {org};
      } else {
        subscribers := subscribers[org := subs];
      }
    }
  }

  /******* Whole runs *******/

  /** Clients are numbered in the order in which they subscribe. */
  datatype Operation = Joins(org: string) | Publishes(org: string, message: Message) | Reads(client: nat) | Leaves(client: nat)

  /** The organizations of the clients. */
  function Clients(ops: seq<Operation>): seq<string> {
    if ops == [] then [] else
    var op := ops[|ops| - 1];
    Clients(ops[..|ops| - 1]) + (if op.Joins? then [op.org] else [])
  }

  predicate Listens(ops: seq<Operation>, k: nat) {
    ops != [] &&
    var before, op := ops[..|ops| - 1], ops[|ops| - 1];
    if k >= |Clients(before)| then k < |Clients(ops)| else Listens(before, k) && op != Leaves(k)
  }

  /** What happens to the mailbox of a client. */
  function Inbox(ops: seq<Operation>, k: nat): seq<Event> {
    if ops == [] then [] else
    var before, op := ops[..|ops| - 1], ops[|ops| - 1];
    Inbox(before, k) + Arrives(before, op, k)
  }

  function Arrives(before: seq<Operation>, op: Operation, k: nat): seq<Event> {
    if k >= |Clients(before)| then []
    else if op.Publishes? && op.org != "" && op.org == Clients(before)[k] && Listens(before, k) then [Event.Sent(op.message)]
    else if op == Reads(k) then [Read]
    else []
  }

  lemma ClientsNext(ops: seq<Operation>, op: Operation)
    ensures Clients(ops + [op]) == Clients(ops) + (if op.Joins? then [op.org] else [])
  {
    assert (ops + [op])[..|ops|] == ops;
  }

  lemma InboxNext(ops: seq<Operation>, op: Operation, k: nat)
    ensures Inbox(ops + [op], k) == Inbox(ops, k) + Arrives(ops, op, k)
    ensures Arrives(ops, op, k) == [] ==> Inbox(ops + [op], k) == Inbox(ops, k)
  {
    assert (ops + [op])[..|ops|] == ops;
  }

  lemma ListensNext(ops: seq<Operation>, op: Operation, k: nat)
    ensures Listens(ops + [op], k) <==>
      if k >= |Clients(ops)| then k < |Clients(ops + [op])| else Listens(ops, k) && op != Leaves(k)
  {
    assert (ops + [op])[..|ops|] == ops;
  }

  /** Nothing reaches a client before it has subscribed. */
  lemma {:induction false} NotYet(ops: seq<Operation>, k: nat)
    requires k >= |Clients(ops)|
    ensures Inbox(ops, k) == [] && !Listens(ops, k)
  {
    if ops != [] { NotYet(ops[..|ops| - 1], k); }
  }

  /** The k-th client subscribes at `start` and leaves at `end`, or never. */
  ghost predicate Attends(ops: seq<Operation>, k: nat, start: nat, end: nat) {
    && start < end <= |ops| && ops[start].Joins? && |Clients(ops[..start])| == k
    && Leaves(k) !in ops[start..end] && (end < |ops| ==> ops[end] == Leaves(k))
  }

  function Posted(ops: seq<Operation>, org: string): seq<Message> {
    if ops == [] then [] else
    var op := ops[|ops| - 1];
    Posted(ops[..|ops| - 1], org) + (if op.Publishes? && op.org == org != "" then [op.message] else [])
  }

  lemma AttendsBefore(ops: seq<Operation>, k: nat, start: nat, end: nat)
    requires Attends(ops, k, start, end) && start < |ops| - 1
    ensures Attends(ops[..|ops| - 1], k, start, if end == |ops| then end - 1 else end)
  {
    var n := |ops| - 1;
    var last := if end == |ops| then end - 1 else end;
    assert ops[..n][..start] == ops[..start];
    assert ops[..n][start..last] == ops[start..last];
    assert forall op | op in ops[start..last] :: op in ops[start..end];
  }

  lemma {:induction false} ListensWhileAttending(ops: seq<Operation>, k: nat, start: nat, end: nat)
    requires Attends(ops, k, start, end)
    ensures k < |Clients(ops)| && Clients(ops)[k] == ops[start].org
    ensures Listens(ops, k) <==> end == |ops|
  {
    var n := |ops| - 1;
    if start < n {
      AttendsBefore(ops, k, start, end);
      ListensWhileAttending(ops[..n], k, start, if end == |ops| then n else end);
      if end == |ops| { assert ops[n] == ops[start..end][n - start]; }
    }
  }

  /** Every client has one stay. */
  lemma {:induction false} EveryClientAttends(ops: seq<Operation>, k: nat) returns (start: nat, end: nat)
    requires k < |Clients(ops)|
    ensures Attends(ops, k, start, end)
  {
    var n := |ops| - 1;
    var before := ops[..n];
    if k >= |Clients(before)| {
      start, end := n, n + 1;
    } else {
      start, end := EveryClientAttends(before, k);
      AttendsNext(before, ops[n], k, start, end);
      assert ops == before + [ops[n]];
      end := if end == n && ops[n] != Leaves(k) then n + 1 else end;
    }
  }

  lemma AttendsNext(ops: seq<Operation>, op: Operation, k: nat, start: nat, end: nat)
    requires Attends(ops, k, start, end)
    ensures Attends(ops + [op], k, start, if end == |ops| && op != Leaves(k) then end + 1 else end)
  {
    assert (ops + [op])[..start] == ops[..start];
    Slices(ops, op, start, end);
  }

  /** The k-th client, subscribed from `start` to `end`, has been sent what was published to its organization meanwhile. */
  ghost predicate SentStay(maxsize: int, ops: seq<Operation>, k: nat, start: nat, end: nat)
    requires start < end <= |ops| && ops[start].Joins?
  {
    Run(maxsize, Inbox(ops, k)).sent == Posted(ops[start + 1..end], ops[start].org)
  }

  /** A client is sent exactly what is published to its organization from its subscription until it leaves. */
  lemma {:induction false} SentExactly(maxsize: int, ops: seq<Operation>, k: nat, start: nat, end: nat)
    requires Attends(ops, k, start, end)
    ensures SentStay(maxsize, ops, k, start, end)
  {
    var n := |ops| - 1;
    var before, op := ops[..n], ops[n];
    assert ops == before + [op];
    if start == n {
      SentFirst(maxsize, before, op, k);
    } else {
      var last := if end == |ops| then n else end;
      AttendsBefore(ops, k, start, end);
      SentExactly(maxsize, before, k, start, last);
      SentLast(maxsize, before, op, k, start, last, end == |ops|);
    }
  }

  lemma SentFirst(maxsize: int, ops: seq<Operation>, op: Operation, k: nat)
    requires |Clients(ops)| == k && op.Joins?
    ensures SentStay(maxsize, ops + [op], k, |ops|, |ops| + 1)
  {
    NotYet(ops, k);
    InboxNext(ops, op, k);
    assert Run(maxsize, []) == EMPTY;
  }

  lemma PostedNext(ops: seq<Operation>, op: Operation, org: string)
    ensures Posted(ops + [op], org) == Posted(ops, org) + (if op.Publishes? && op.org == org != "" then [op.message] else [])
  {
    assert (ops + [op])[..|ops|] == ops;
  }

  lemma SentLast(maxsize: int, ops: seq<Operation>, op: Operation, k: nat, start: nat, end: nat, stays: bool)
    requires Attends(ops, k, start, end) && (stays ==> end == |ops|) && (!stays && end == |ops| ==> op == Leaves(k))
    requires Run(maxsize, Inbox(ops, k)).sent == Posted(ops[start + 1..end], ops[start].org)
    ensures Run(maxsize, Inbox(ops + [op], k)).sent == Posted((ops + [op])[start + 1..if stays then end + 1 else end], ops[start].org)
  {
    ListensWhileAttending(ops, k, start, end);
    SentNext(maxsize, ops, op, k);
    Slices(ops, op, start + 1, end);
    if stays {
      PostedNext(ops[start + 1..end], op, ops[start].org);
    }
  }

  lemma Slices(ops: seq<Operation>, op: Operation, start: nat, end: nat)
    requires start <= end <= |ops|
    ensures (ops + [op])[start..end] == ops[start..end]
    ensures end == |ops| ==> (ops + [op])[start..end + 1] == ops[start..end] + [op]
  {
  }

  lemma SentNext(maxsize: int, ops: seq<Operation>, op: Operation, k: nat)
    requires k < |Clients(ops)|
    ensures (var hears := op.Publishes? && op.org == Clients(ops)[k] != "" && Listens(ops, k);
             Run(maxsize, Inbox(ops + [op], k)).sent == Run(maxsize, Inbox(ops, k)).sent + (if hears then [op.message] else []))
  {
    InboxNext(ops, op, k);
    var arrives, b := Arrives(ops, op, k), Run(maxsize, Inbox(ops, k));
    if arrives != [] {
      RunNext(maxsize, Inbox(ops, k), arrives[0]);
      if arrives[0].Sent? { DeliverSent(maxsize, b, op.message); }
    }
  }

  function At(subscribers: map<string, set<Queue>>, org: string): set<Queue> {
    if org in subscribers then subscribers[org] else {}
  }

  /** A client is subscribed to its organization, as long as it listens, and to no other. */
  ghost predicate Listed(subscribers: map<string, set<Queue>>, q: Queue, ops: seq<Operation>, k: nat)
    requires k < |Clients(ops)|
  {
    forall org :: q in At(subscribers, org) <==> org == Clients(ops)[k] && Listens(ops, k)
  }

  /** Exactly the clients that listen are subscribed, each with a queue of its own. */
  ghost predicate Roster(subscribers: map<string, set<Queue>>, clients: seq<Queue>, ops: seq<Operation>) {
    && |clients| == |Clients(ops)|
    && (forall j, k | 0 <= j < k < |clients| :: clients[j] != clients[k])
    && (forall k | 0 <= k < |clients| :: Listed(subscribers, clients[k], ops, k))
    && (forall org | org in subscribers :: forall q | q in subscribers[org] :: q in clients)
  }

  lemma ListedNext(subscribers: map<string, set<Queue>>, q: Queue, ops: seq<Operation>, op: Operation, k: nat)
    requires k < |Clients(ops)| && Listed(subscribers, q, ops, k) && op != Leaves(k)
    ensures k < |Clients(ops + [op])| && Listed(subscribers, q, ops + [op], k)
  {
    ClientsNext(ops, op);
    ListensNext(ops, op, k);
  }

  lemma RosterStays(subscribers: map<string, set<Queue>>, clients: seq<Queue>, ops: seq<Operation>, op: Operation)
    requires Roster(subscribers, clients, ops) && !op.Joins? && (op.Leaves? ==> op.client >= |clients|)
    ensures Roster(subscribers, clients, ops + [op])
  {
    ClientsNext(ops, op);
    forall k: nat | k < |clients| ensures Listed(subscribers, clients[k], ops + [op], k) {
      ListedNext(subscribers, clients[k], ops, op, k);
    }
  }

  lemma RosterJoins(subscribers: map<string, set<Queue>>, clients: seq<Queue>, ops: seq<Operation>, org: string, q: Queue)
    requires Roster(subscribers, clients, ops) && q !in clients
    ensures Roster(subscribers[org := At(subscribers, org) + {q}], clients + [q], ops + [Joins(org)])
  {
    var n, op, now := |clients|, Joins(org), subscribers[org := At(subscribers, org) + {q}];
    ClientsNext(ops, op);
    NotYet(ops, n);
    ListensNext(ops, op, n);
    forall k: nat | k < n ensures Listed(now, clients[k], ops + [op], k) {
      ListedNext(subscribers, clients[k], ops, op, k);
      assert forall o :: clients[k] in At(now, o) <==> clients[k] in At(subscribers, o);
    }
    assert forall o :: q !in At(subscribers, o);
    assert forall p | p in clients :: p in clients + [q];
  }

  lemma RosterLeaves(was: map<string, set<Queue>>, subscribers: map<string, set<Queue>>, clients: seq<Queue>, ops: seq<Operation>, j: nat)
    requires Roster(was, clients, ops) && j < |clients|
    requires forall o :: At(subscribers, o) == if o == Clients(ops)[j] then At(was, o) - {clients[j]} else At(was, o)
    ensures Roster(subscribers, clients, ops + [Leaves(j)])
  {
    var op := Leaves(j);
    ClientsNext(ops, op);
    ListensNext(ops, op, j);
    forall k: nat | k < |clients| && k != j ensures Listed(subscribers, clients[k], ops + [op], k) {
      ListedNext(was, clients[k], ops, op, k);
      assert forall o :: clients[k] in At(subscribers, o) <==> clients[k] in At(was, o);
    }
    assert Listed(was, clients[j], ops, j);
    forall o | o in subscribers ensures forall q | q in subscribers[o] :: q in clients {
      assert subscribers[o] == At(subscribers, o) <= At(was, o);
    }
  }

  /** The queue is that of the k-th client. */
  ghost predicate IsClient(q: Queue, size: int, ops: seq<Operation>, k: nat)
    reads q
  {
    q.Valid() && q.maxsize == size && q.Box() == Run(size, Inbox(ops, k))
  }

  ghost predicate AreClients(clients: seq<Queue>, size: int, ops: seq<Operation>)
    reads clients
  {
    forall k | 0 <= k < |clients| :: IsClient(clients[k], size, ops, k)
  }

  /** An operation that brings a client nothing. */
  lemma ClientStays(q: Queue, size: int, ops: seq<Operation>, op: Operation, k: nat)
    requires IsClient(q, size, ops, k) && Arrives(ops, op, k) == []
    ensures IsClient(q, size, ops + [op], k)
  {
    InboxNext(ops, op, k);
  }

  /** An operation that brings a client an event. */
  lemma ClientNext(q: Queue, size: int, ops: seq<Operation>, op: Operation, k: nat, e: Event)
    requires q.Valid() && q.maxsize == size && q.Box() == Next(size, Run(size, Inbox(ops, k)), e) && Arrives(ops, op, k) == [e]
    ensures IsClient(q, size, ops + [op], k)
  {
    InboxNext(ops, op, k);
    RunNext(size, Inbox(ops, k), e);
  }

  lemma ClientsStay(clients: seq<Queue>, size: int, ops: seq<Operation>, op: Operation)
    requires AreClients(clients, size, ops) && forall k: nat | k < |clients| :: Arrives(ops, op, k) == []
    ensures AreClients(clients, size, ops + [op])
  {
    forall k: nat | k < |clients| ensures IsClient(clients[k], size, ops + [op], k) {
      ClientStays(clients[k], size, ops, op, k);
    }
  }

  lemma ClientJoins(clients: seq<Queue>, q: Queue, size: int, ops: seq<Operation>, org: string)
    requires AreClients(clients, size, ops) && |clients| == |Clients(ops)|
    requires q.Valid() && q.maxsize == size && q.Box() == EMPTY
    ensures AreClients(clients + [q], size, ops + [Joins(org)])
  {
    var k := |Clients(ops)|;
    ClientsStay(clients, size, ops, Joins(org));
    NotYet(ops, k);
    InboxNext(ops, Joins(org), k);
    assert Run(size, []) == EMPTY;
  }

  /** The broker and its clients after some operations. */
  ghost predicate Serves(broker: TraceBroker, clients: seq<Queue>, ops: seq<Operation>)
    reads broker, broker.queues, clients
  {
    && broker.Valid()
    && Roster(broker.subscribers, clients, ops)
    && (forall k | 0 <= k < |clients| :: clients[k] in broker.queues)
    && AreClients(clients, broker.queueMaxsize, ops)
  }

  method Join(broker: TraceBroker, clients: seq<Queue>, ghost ops: seq<Operation>, org: string) returns (q: Queue)
    requires Serves(broker, clients, ops)
    modifies broker
    ensures Serves(broker, clients + [q], ops + [Joins(org)])
    ensures fresh(q) && broker.queues == old(broker.queues) + {q}
  {
    q := broker.Subscribe(org);
    RosterJoins(old(broker.subscribers), clients, ops, org, q);
    ClientJoins(clients, q, broker.queueMaxsize, ops, org);
  }

  method Send(broker: TraceBroker, clients: seq<Queue>, ghost ops: seq<Operation>, org: string, m: Message)
    requires Serves(broker, clients, ops)
    modifies broker`published, broker.queues
    ensures Serves(broker, clients, ops + [Publishes(org, m)]) && broker.queues == old(broker.queues)
  {
    ghost var size := broker.queueMaxsize;
    broker.Publish(org, m);
    RosterStays(broker.subscribers, clients, ops, Publishes(org, m));
    forall k: nat | k < |clients| ensures IsClient(clients[k], size, ops + [Publishes(org, m)], k) {
      var q := clients[k];
      if org != "" && q in At(broker.subscribers, org) {
        assert broker.Hears(org, q, broker.History(org));
      }
      Reaches(broker.subscribers, q, Run(size, Inbox(ops, k)), ops, org, m, k);
    }
  }

  /** A message reaches the clients that listen to its organization, and no others. */
  lemma Reaches(subscribers: map<string, set<Queue>>, q: Queue, was: Mailbox, ops: seq<Operation>, org: string, m: Message, k: nat)
    requires k < |Clients(ops)| && Listed(subscribers, q, ops, k) && was == Run(q.maxsize, Inbox(ops, k)) && q.Valid()
    requires q.Box() == if org != "" && q in At(subscribers, org) then Deliver(q.maxsize, was, m) else was
    ensures IsClient(q, q.maxsize, ops + [Publishes(org, m)], k)
  {
    if org != "" && q in At(subscribers, org) {
      ClientNext(q, q.maxsize, ops, Publishes(org, m), k, Event.Sent(m));
    } else {
      ClientStays(q, q.maxsize, ops, Publishes(org, m), k);
    }
  }

  method Take(broker: TraceBroker, clients: seq<Queue>, ghost ops: seq<Operation>, k: nat)
    requires Serves(broker, clients, ops) && k < |clients|
    modifies clients[k]
    ensures Serves(broker, clients, ops + [Reads(k)]) && broker.queues == old(broker.queues)
  {
    var size, q := broker.queueMaxsize, clients[k];
    var _ := q.Get();
    forall o, p | o in broker.subscribers && p in broker.subscribers[o] ensures broker.Hears(o, p, broker.History(o)) {
      assert old(broker.Hears(o, p, broker.History(o)));
    }
    RosterStays(broker.subscribers, clients, ops, Reads(k));
    ClientNext(q, size, ops, Reads(k), k, Read);
    forall j: nat | j < |clients| && j != k ensures IsClient(clients[j], size, ops + [Reads(k)], j) {
      ClientStays(clients[j], size, ops, Reads(k), j);
    }
  }

  method Leave(broker: TraceBroker, clients: seq<Queue>, ghost ops: seq<Operation>, org: string, k: nat)
    requires Serves(broker, clients, ops) && k < |clients| && org == Clients(ops)[k]
    modifies broker
    ensures Serves(broker, clients, ops + [Leaves(k)]) && broker.queues == old(broker.queues)
  {
    broker.Remove(org, clients[k]);
    RosterLeaves(old(broker.subscribers), broker.subscribers, clients, ops, k);
    ClientsStay(clients, broker.queueMaxsize, ops, Leaves(k));
  }

  /** An operation of a client that is not there does nothing. */
  lemma Nobody(broker: TraceBroker, clients: seq<Queue>, ops: seq<Operation>, op: Operation)
    requires Serves(broker, clients, ops) && (op.Reads? || op.Leaves?) && op.client >= |clients|
    ensures Serves(broker, clients, ops + [op])
  {
    RosterStays(broker.subscribers, clients, ops, op);
    ClientsStay(clients, broker.queueMaxsize, ops, op);
  }

  method Step(broker: TraceBroker, clients: seq<Queue>, orgs: seq<string>, ghost ops: seq<Operation>, op: Operation)
    returns (more: seq<Queue>, moreOrgs: seq<string>)
    requires Serves(broker, clients, ops) && orgs == Clients(ops)
    modifies broker, broker.queues
    ensures Serves(broker, more, ops + [op]) && moreOrgs == Clients(ops + [op])
    ensures fresh(broker.queues - old(broker.queues))
  {
    ClientsNext(ops, op);
    more, moreOrgs := clients, orgs;
    if (op.Reads? || op.Leaves?) && op.client >= |clients| {
      Nobody(broker, clients, ops, op);
      return;
    }
    match op
    case Joins(org) =>
      var q := Join(broker, clients, ops, org);
      more, moreOrgs := clients + [q], orgs + [org];
    case Publishes(org, m) => Send(broker, clients, ops, org, m);
    case Reads(k) => Take(broker, clients, ops, k);
    case Leaves(k) => Leave(broker, clients, ops, orgs[k], k);
  }

  lemma Prefix(ops: seq<Operation>, n: nat)
    requires n < |ops|
    ensures ops[..n + 1] == ops[..n] + [ops[n]]
  {
  }

  /** Any run from a new broker: each client has been brought exactly the events of its own inbox. */
  method Serve(maxsize: int, ops: seq<Operation>) returns (broker: TraceBroker, clients: seq<Queue>)
    ensures fresh(broker) && broker.queueMaxsize == maxsize && Serves(broker, clients, ops)
  {
    broker := new TraceBroker(maxsize);
    clients := [];
    var orgs := [];
    for n := 0 to |ops|
      invariant fresh(broker) && broker.queueMaxsize == maxsize && fresh(broker.queues)
      invariant Serves(broker, clients, ops[..n]) && orgs == Clients(ops[..n])
    {
      clients, orgs := Step(broker, clients, orgs, ops[..n], ops[n]);
      Prefix(ops, n);
    }
    assert ops[..|ops|] == ops;
  }

  /** What a client of the broker can rely on after any run. */
  lemma EveryClientIsServed(broker: TraceBroker, clients: seq<Queue>, ops: seq<Operation>, k: nat, start: nat, end: nat)
    requires Serves(broker, clients, ops) && k < |clients| && Attends(ops, k, start, end)
    ensures (var b := clients[k].Box();
             && clients[k].items == b.items && Faithful(broker.queueMaxsize, b)
             && b.sent == Posted(ops[start + 1..end], ops[start].org))
  {
    assert IsClient(clients[k], broker.queueMaxsize, ops, k);
    EveryRunIsFaithful(broker.queueMaxsize, Inbox(ops, k));
    SentExactly(broker.queueMaxsize, ops, k, start, end);
  }
}
