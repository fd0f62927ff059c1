/**
 Alert summaries buffered per organization and handed to its webhook on an interval
 (realtime/alert_consumer.py, `_DigestBuffer`). While a batch is being posted, more
 summaries may arrive.
 */
module Digest {
  import opened Wrappers

  datatype Item = Item(kind: string, summary: string)

  /** The arguments of one `add`, and the time at which it comes. */
  datatype Arrival = Arrival(org: string, webhook: string, digest: string, item: Item, at: real)

  /** A batch handed to a webhook. */
  datatype Batch = Batch(org: string, webhook: string, items: seq<Item>)

  function Interval(digest: string): Option<real> {
    if digest == "hourly" then Some(3600.0) else if digest == "daily" then Some(86400.0) else None
  }

  /** The organization wants digests. */
  predicate Wanted(a: Arrival) {
    a.digest == "hourly" || a.digest == "daily"
  }

  lemma WantedExactly(a: Arrival)
    ensures Wanted(a) <==> Interval(a.digest).Some?
  {
  }

  /** The summaries that were to be buffered for an organization, in the order of arrival. */
  function Arrived(log: seq<Arrival>, org: string): seq<Item> {
    if log == [] then [] else
    var a := log[|log| - 1];
    Arrived(log[..|log| - 1], org) + (if a.org == org && Wanted(a) then [a.item] else [])
  }

  /** The summaries that were handed over for an organization, batch by batch. */
  function Handed(posted: seq<Batch>, org: string): seq<Item> {
    if posted == [] then [] else
    var b := posted[|posted| - 1];
    Handed(posted[..|posted| - 1], org) + (if b.org == org then b.items else [])
  }

  lemma ArrivedNext(log: seq<Arrival>, a: Arrival)
    ensures forall org :: Arrived(log + [a], org) == Arrived(log, org) + (if a.org == org && Wanted(a) then [a.item] else [])
  {
    assert (log + [a])[..|log|] == log;
  }

  lemma HandedNext(posted: seq<Batch>, b: Batch, org: string)
    ensures Handed(posted + [b], org) == Handed(posted, org) + (if b.org == org then b.items else [])
  {
    assert (posted + [b])[..|posted|] == posted;
  }

  class Bucket {
    ghost const org: string
    var webhook: string
    var interval: real
    var items: seq<Item>
    var next: real

    constructor (ghost org: string, webhook: string, interval: real, next: real)
      ensures this.org == org && items == [] && this.next == next
    {
      this.org, this.webhook, this.interval, this.next := org, webhook, interval, next;
      items := [];
    }
  }

  /** The summaries still pending, by organization. */
  type Pending = map<string, seq<Item>>

  function Kept(pending: Pending, org: string): seq<Item> {
    if org in pending then pending[org] else []
  }

  /** Every summary is in exactly one batch or still pending, in the order of arrival. */
  ghost predicate Conserved(log: seq<Arrival>, posted: seq<Batch>, pending: Pending) {
    forall org :: Arrived(log, org) == Handed(posted, org) + Kept(pending, org)
  }

  lemma ConservedAppend(log: seq<Arrival>, posted: seq<Batch>, pending: Pending, a: Arrival)
    requires Conserved(log, posted, pending)
    ensures Conserved(log + [a], posted, if !Wanted(a) then pending else pending[a.org := Kept(pending, a.org) + [a.item]])
  {
    ArrivedNext(log, a);
  }

  lemma ConservedDrain(log: seq<Arrival>, posted: seq<Batch>, pending: Pending, b: Batch)
    requires Conserved(log, posted, pending) && b.items == Kept(pending, b.org)
    ensures Conserved(log, posted + [b], pending[b.org := []])
    ensures forall o | o != b.org :: Handed(posted + [b], o) == Handed(posted, o)
  {
    forall org ensures Arrived(log, org) == Handed(posted + [b], org) + Kept(pending[b.org := []], org)
      ensures org != b.org ==> Handed(posted + [b], org) == Handed(posted, org)
    {
      DrainAt(Arrived(log, org), posted, pending, b, org);
    }
  }

  lemma DrainAt(arrived: seq<Item>, posted: seq<Batch>, pending: Pending, b: Batch, org: string)
    requires arrived == Handed(posted, org) + Kept(pending, org) && b.items == Kept(pending, b.org)
    ensures arrived == Handed(posted + [b], org) + Kept(pending[b.org := []], org)
    ensures org != b.org ==> Handed(posted + [b], org) == Handed(posted, org)
  {
    HandedNext(posted, b, org);
  }

  class DigestBuffer {
    var buckets: map<string, Bucket>
    ghost var all: set<Bucket>
    ghost var pending: Pending
    ghost var log: seq<Arrival>
    ghost var posted: seq<Batch>

    ghost predicate Holds(org: string, b: Bucket)
      requires org in pending
      reads this, b
    {
      b in all && b.org == org && b.items == pending[org]
    }

    ghost predicate Valid()
      reads this, all
    {
      && buckets.Keys == pending.Keys && Conserved(log, posted, pending)
      && forall org | org in buckets :: buckets[org] in all && Holds(org, buckets[org])
    }

    twostate predicate NewOnly()
      reads this
    {
      forall b | b in all && b !in old(all) :: fresh(b)
    }

    constructor ()
      ensures Valid() && buckets == map[] && all == {} && log == [] && posted == []
    {
      buckets, all, pending, log, posted := map[], {}, map[], [], [];
    }

    method Create(org: string, webhook: string, interval: real, now: real)
      requires Valid() && org !in buckets
      modifies `buckets, `all, `pending
      ensures Valid() && org in buckets && fresh(buckets[org]) && all == old(all) + {buckets[org]}
      ensures buckets == old(buckets)[org := buckets[org]] && buckets[org].next == now + interval
    {
      var b := new Bucket(org, webhook, interval, now + interval);
      all := all + {b};
      buckets := buckets[org := b];
      pending := pending[org := []];
      forall o | o in buckets && o != org ensures Holds(o, buckets[o]) {
        assert old(Holds(o, buckets[o]));
      }
    }

    /** The bucket knows the latest webhook and interval; a new one is due an interval after its creation. */
    ghost predicate Told(b: Bucket, a: Arrival, created: Option<real>)
      reads b
    {
      var interval := if a.digest == "hourly" then 3600.0 else 86400.0;
      b.webhook == a.webhook && b.interval == interval && (created.Some? ==> b.next == created.value + interval)
    }

    method Append(a: Arrival, interval: real)
      requires Valid() && a.org in buckets && Wanted(a)
      modifies `log, `pending, all
      ensures Valid() && log == old(log) + [a]
      ensures buckets[a.org].webhook == a.webhook && buckets[a.org].interval == interval
      ensures forall b | b in all :: b.next == old(b.next)
    {
      var bucket := buckets[a.org];
      assert Holds(a.org, bucket);
      ConservedAppend(log, posted, pending, a);
      bucket.webhook, bucket.interval := a.webhook, interval;
      bucket.items := bucket.items + [a.item];
      log := log + [a];
      pending := pending[a.org := pending[a.org] + [a.item]];
      forall o | o in buckets && o != a.org ensures Holds(o, buckets[o]) {
        assert old(Holds(o, buckets[o]));
      }
    }

    method Add(a: Arrival)
      requires Valid()
      modifies this, all
      ensures Valid() && log == old(log) + [a] && posted == old(posted)
      ensures Wanted(a) ==> a.org in buckets && Told(buckets[a.org], a, if a.org in old(buckets) then None else Some(a.at))
      ensures !Wanted(a) ==> buckets == old(buckets)
      ensures old(all) <= all && NewOnly() && forall b | b in old(all) :: b.next == old(b.next)
      ensures forall org | org in old(buckets) :: org in buckets && buckets[org] == old(buckets)[org]
    {
      var interval := Interval(a.digest);
      WantedExactly(a);
      if interval.None? {
        ConservedAppend(log, posted, pending, a);
        log := log + [a];
        return;
      }
      if a.org !in buckets {
        Create(a.org, a.webhook, interval.value, a.at);
      }
      Append(a, interval.value);
    }

    /** Takes the bucket's pending summaries, if it is due; whether there is something to post. */
    method Drain(org: string, now: real) returns (post: bool)
      requires Valid() && org in buckets
      modifies `posted, `pending, all
      ensures Valid()
      ensures now >= old(buckets[org].next) ==> Kept(pending, org) == []
      ensures now >= old(buckets[org].next) ==> buckets[org].next == now + old(buckets[org].interval)
      ensures now < old(buckets[org].next) ==> posted == old(posted) && pending == old(pending) && unchanged(buckets[org])
      ensures post ==> posted == old(posted) + [Batch(org, old(buckets[org].webhook), old(buckets[org].items))]
      ensures !post ==> posted == old(posted)
      ensures forall o | o != org :: Handed(posted, o) == Handed(old(posted), o)
      ensures forall b | b in all && b != buckets[org] :: b.next == old(b.next)
    {
      var bucket := buckets[org];
      assert Holds(org, bucket);
      if now < bucket.next {
        return false;
      }
      var items := bucket.items;
      bucket.items := [];
      bucket.next := now + bucket.interval;
      post := items != [];
      if post {
        ConservedDrain(log, posted, pending, Batch(org, bucket.webhook, items));
        posted := posted + [Batch(org, bucket.webhook, items)];
        pending := pending[org := []];
      }
      forall o | o in buckets && o != org ensures Holds(o, buckets[o]) {
        assert old(Holds(o, buckets[o]));
      }
    }

    /** Everything that arrives during one await. */
    method Land(arrivals: seq<Arrival>)
      requires Valid()
      modifies this, all
      ensures Valid() && log == old(log) + arrivals && posted == old(posted)
      ensures old(all) <= all && NewOnly() && forall b | b in old(all) :: b.next == old(b.next)
      ensures forall org | org in old(buckets) :: org in buckets && buckets[org] == old(buckets)[org]
    {
      for i := 0 to |arrivals|
        invariant Valid() && log == old(log) + arrivals[..i] && posted == old(posted)
        invariant old(all) <= all && NewOnly() && forall b | b in old(all) :: b.next == old(b.next)
        invariant forall org | org in old(buckets) :: org in buckets && buckets[org] == old(buckets)[org]
      {
        Add(arrivals[i]);
        Extend(old(log), arrivals, i);
      }
    }

    /** One bucket's turn in a flush, with what arrives while its batch is being posted. */
    method Attend(org: string, now: real, landing: seq<Arrival>) returns (awaited: bool)
      requires Valid() && org in buckets
      modifies this, all
      ensures Valid() && log == old(log) + (if awaited then landing else [])
      ensures old(posted) <= posted && |posted| == |old(posted)| + (if awaited then 1 else 0)
      ensures forall o | o != org :: Handed(posted, o) == Handed(old(posted), o)
      ensures old(buckets[org].next) <= now ==> Handed(posted, org) == Arrived(old(log), org)
      ensures now < old(buckets[org].next) ==> posted == old(posted)
      ensures old(all) <= all && NewOnly() && forall b | b in old(all) && b != old(buckets[org]) :: b.next == old(b.next)
      ensures forall o | o in old(buckets) :: o in buckets && buckets[o] == old(buckets)[o]
    {
      awaited := Drain(org, now);
      assert Conserved(log, posted, pending);
      if awaited {
        Land(landing);
      }
    }

    /**
     One flush; `landings` are the arrivals during its awaits, one list for each. Whatever
     was pending in a bucket that was due has been handed over in the end, and every other
     summary is still kept or was handed over as well: none is lost, none is sent twice.
     */
    method FlushDue(now: real, landings: seq<seq<Arrival>>) returns (awaits: nat)
      requires Valid()
      modifies this, all
      ensures Valid() && log == old(log) + Joined(Take(landings, awaits)) && old(all) <= all && NewOnly()
      ensures |posted| == |old(posted)| + awaits && old(posted) <= posted
      ensures forall org | org in old(buckets) && old(buckets[org].next) <= now :: Arrived(old(log), org) <= Handed(posted, org)
      ensures forall org | org in old(buckets) && now < old(buckets[org].next) :: Handed(posted, org) == Handed(old(posted), org)
    {
      awaits := 0;
      var rest := buckets.Keys;
      ghost var early := set org | org in buckets && now < buckets[org].next;
      ghost var buckets0, log0, posted0 := buckets, log, posted;
      ghost var landed: seq<Arrival> := [];
      while rest != {}
        invariant Valid() && log == log0 + landed && landed == Joined(Take(landings, awaits))
        invariant |posted| == |posted0| + awaits && posted0 <= posted
        invariant rest <= buckets0.Keys && old(all) <= all && NewOnly()
        invariant forall org | org in buckets0 :: org in buckets && buckets[org] == buckets0[org]
        invariant forall org | org in rest :: buckets0[org].next == old(buckets[org].next)
        invariant Settled(log0, posted0, posted, buckets0.Keys, rest, early)
      {
        var org :| org in rest;
        ghost var logBefore := log;
        TakeNext(landings, awaits);
        Distinct(rest, org);
        var landing := if awaits < |landings| then landings[awaits] else [];
        ghost var before := posted;
        var awaited := Attend(org, now, landing);
        PrefixTransitive(posted0, before, posted);
        if awaited {
          Associative(log0, landed, landing);
          awaits, landed := awaits + 1, landed + landing;
        }
        SettledNext(log0, logBefore, posted0, before, posted, buckets0.Keys, rest, early, org);
        rest := rest - {org};
      }
    }

    /** No two organizations share a bucket. */
    lemma Distinct(orgs: set<string>, org: string)
      requires Valid() && org in buckets && orgs <= buckets.Keys
      ensures forall o | o in orgs && o != org :: buckets[o] != buckets[org]
    {
      assert Holds(org, buckets[org]);
      forall o | o in orgs && o != org ensures buckets[o] != buckets[org] {
        assert Holds(o, buckets[o]);
      }
    }
  }

  /** How far a flush has come: whose turn is over has been handed all, unless it was not due. */
  ghost predicate Settled(log0: seq<Arrival>, posted0: seq<Batch>, posted: seq<Batch>, orgs: set<string>, rest: set<string>, early: set<string>) {
    && (forall org | org in rest || org in early :: Handed(posted, org) == Handed(posted0, org))
    && (forall org | org in orgs && org !in rest && org !in early :: Arrived(log0, org) <= Handed(posted, org))
  }

  lemma SettledNext(log0: seq<Arrival>, log: seq<Arrival>, posted0: seq<Batch>, before: seq<Batch>, posted: seq<Batch>,
                    orgs: set<string>, rest: set<string>, early: set<string>, org: string)
    requires Settled(log0, posted0, before, orgs, rest, early) && log0 <= log && org in rest
    requires forall o | o != org :: Handed(posted, o) == Handed(before, o)
    requires if org in early then posted == before else Handed(posted, org) == Arrived(log, org)
    ensures Settled(log0, posted0, posted, orgs, rest - {org}, early)
  {
    LogGrows(log0, log, org);
    forall o | o in orgs && o !in rest - {org} && o !in early ensures Arrived(log0, o) <= Handed(posted, o) {
      if o != org { assert Handed(posted, o) == Handed(before, o); }
    }
  }

  lemma Extend(log: seq<Arrival>, more: seq<Arrival>, i: nat)
    requires i < |more|
    ensures log + more[..i] + [more[i]] == log + more[..i + 1]
  {
  }

  lemma Associative(a: seq<Arrival>, b: seq<Arrival>, c: seq<Arrival>)
    ensures (a + b) + c == a + (b + c)
  {
  }

  lemma PrefixTransitive(a: seq<Batch>, b: seq<Batch>, c: seq<Batch>)
    requires a <= b <= c
    ensures a <= c
  {
  }

  lemma {:induction false} LogGrows(log: seq<Arrival>, more: seq<Arrival>, org: string)
    requires log <= more
    ensures Arrived(log, org) <= Arrived(more, org)
    decreases |more|
  {
    if log != more {
      var shorter := more[..|more| - 1];
      LogGrows(log, shorter, org);
      assert more == shorter + [more[|more| - 1]];
    }
  }

  function Take(landings: seq<seq<Arrival>>, n: nat): seq<seq<Arrival>> {
    if n <= |landings| then landings[..n] else landings
  }

  function Joined(landings: seq<seq<Arrival>>): seq<Arrival> {
    if landings == [] then [] else Joined(landings[..|landings| - 1]) + landings[|landings| - 1]
  }

  lemma TakeNext(landings: seq<seq<Arrival>>, n: nat)
    ensures Joined(Take(landings, n + 1)) == Joined(Take(landings, n)) + (if n < |landings| then landings[n] else [])
  {
    if n < |landings| {
      assert landings[..n + 1][..n] == landings[..n];
    } else {
      assert Take(landings, n) == landings == Take(landings, n + 1);
    }
  }

  /******* Whole runs *******/

  datatype Operation = Adds(arrival: Arrival) | Flushes(now: real, landings: seq<seq<Arrival>>)

  /** All that arrives, when each flush awaits that many posts. */
  function Arrivals(ops: seq<Operation>, awaits: seq<nat>): seq<Arrival>
    requires |awaits| == |ops|
  {
    if ops == [] then [] else
    var n := |ops| - 1;
    Arrivals(ops[..n], awaits[..n]) + ArrivesWith(ops[n], awaits[n])
  }

  function ArrivesWith(op: Operation, n: nat): seq<Arrival> {
    match op case Adds(a) => [a] case Flushes(_, landings) => Joined(Take(landings, n))
  }

  function Sum(s: seq<nat>): nat {
    if s == [] then 0 else Sum(s[..|s| - 1]) + s[|s| - 1]
  }

  lemma ArrivalsNext(ops: seq<Operation>, awaits: seq<nat>, op: Operation, n: nat)
    requires |awaits| == |ops|
    ensures Arrivals(ops + [op], awaits + [n]) == Arrivals(ops, awaits) + ArrivesWith(op, n)
    ensures Sum(awaits + [n]) == Sum(awaits) + n
  {
    assert (ops + [op])[..|ops|] == ops && (awaits + [n])[..|ops|] == awaits;
  }

  method Perform(buffer: DigestBuffer, op: Operation) returns (n: nat)
    requires buffer.Valid()
    modifies buffer, buffer.all
    ensures buffer.Valid() && fresh(buffer.all - old(buffer.all))
    ensures buffer.log == old(buffer.log) + ArrivesWith(op, n) && |buffer.posted| == |old(buffer.posted)| + n
  {
    match op
    case Adds(a) =>
      n := 0;
      buffer.Add(a);
    case Flushes(now, landings) =>
      n := buffer.FlushDue(now, landings);
  }

  /**
   Any run from a new buffer: for each organization, the batches handed over and then what
   is still pending are the summaries that arrived, none lost, none sent twice.
   */
  method Live(ops: seq<Operation>) returns (buffer: DigestBuffer, awaits: seq<nat>)
    ensures fresh(buffer) && buffer.Valid() && |awaits| == |ops| && |buffer.posted| == Sum(awaits)
    ensures forall org :: Handed(buffer.posted, org) + Kept(buffer.pending, org) == Arrived(Arrivals(ops, awaits), org)
  {
    buffer := new DigestBuffer();
    awaits := [];
    for i := 0 to |ops|
      invariant fresh(buffer) && fresh(buffer.all) && buffer.Valid()
      invariant |awaits| == i && buffer.log == Arrivals(ops[..i], awaits) && |buffer.posted| == Sum(awaits)
    {
      var n := Perform(buffer, ops[i]);
      ArrivalsNext(ops[..i], awaits, ops[i], n);
      assert ops[..i + 1] == ops[..i] + [ops[i]];
      awaits := awaits + [n];
    }
    assert ops[..|ops|] == ops;
  }
}
