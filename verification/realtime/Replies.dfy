/**
 Requests that wait for a worker's reply (db_queues/kafka/reply_consumer.py): a table of
 futures by correlation id, resolved by the consumer of the reply topic. Waits that share
 an id displace each other in the table.
 The playground's table is this one with no organization expected.
 */
module Replies {
  import opened Wrappers

  /** A reply's message; "" stands for a missing id or organization. */
  datatype Reply = Reply(id: string, org: string, result: Option<string>)

  /******* The history, and what it means for one wait *******/

  /**
   A wait put its future into the table; a reply arrived; a wait timed out or was cancelled;
   a wait ended and removed the entry of its id. Waits are numbered as they join.
   */
  datatype Event = Joined(id: string) | Arrived(reply: Reply) | GaveUp(wait: nat) | Left(id: string)

  datatype Outcome = Pending | Answered(result: Option<string>) | Cancelled

  /** Whether the wait's future is still the one in the table. */
  datatype State = State(outcome: Outcome, listed: bool)

  predicate Contradicts(expected: string, org: string) {
    expected != "" && org != "" && org != expected
  }

  predicate Answers(r: Reply, id: string, expected: string) {
    r.id == id && id != "" && !Contradicts(expected, r.org)
  }

  predicate Displaces(e: Event, id: string) {
    e == Joined(id) || e == Left(id)
  }

  /** What an event makes of a wait. */
  function Decided(before: State, e: Event, k: nat, id: string, expected: string): State {
    match e
    case Arrived(r) =>
      if before == State(Pending, true) && Answers(r, id, expected) then State(Answered(r.result), true) else before
    case GaveUp(w) => if w == k && before.outcome == Pending then before.(outcome := Cancelled) else before
    case _ => if Displaces(e, id) then before.(listed := false) else before
  }

  /** What has become of a wait after the events since it joined. */
  function After(events: seq<Event>, k: nat, id: string, expected: string): State {
    if events == [] then State(Pending, true) else
    var n := |events| - 1;
    Decided(After(events[..n], k, id, expected), events[n], k, id, expected)
  }

  lemma AfterNext(events: seq<Event>, e: Event, k: nat, id: string, expected: string)
    ensures After(events + [e], k, id, expected) == Decided(After(events, k, id, expected), e, k, id, expected)
  {
    assert (events + [e])[..|events|] == events;
  }

  lemma AfterLater(events: seq<Event>, since: nat, e: Event, k: nat, id: string, expected: string)
    requires since <= |events|
    ensures After((events + [e])[since..], k, id, expected) == Decided(After(events[since..], k, id, expected), e, k, id, expected)
  {
    assert (events + [e])[since..] == events[since..] + [e];
    AfterNext(events[since..], e, k, id, expected);
  }

  /** A reply to this wait that arrives while its future is in the table. */
  ghost predicate Reaches(events: seq<Event>, i: nat, id: string, expected: string)
    requires i < |events|
  {
    && events[i].Arrived?
    && (var r := events[i].reply; r.id == id && id != "" && (expected == "" || r.org == "" || r.org == expected))
    && forall j | 0 <= j < i :: events[j] != Joined(id) && events[j] != Left(id)
  }

  /** Nothing has decided the wait. */
  ghost predicate Quiet(events: seq<Event>, k: nat, id: string, expected: string) {
    forall i | 0 <= i < |events| :: events[i] != GaveUp(k) && !Reaches(events, i, id, expected)
  }

  ghost predicate Undisplaced(events: seq<Event>, id: string) {
    forall i | 0 <= i < |events| :: events[i] != Joined(id) && events[i] != Left(id)
  }

  lemma QuietNext(events: seq<Event>, e: Event, k: nat, id: string, expected: string)
    ensures Undisplaced(events + [e], id) <==> Undisplaced(events, id) && !Displaces(e, id)
    ensures Quiet(events + [e], k, id, expected)
       <==> Quiet(events, k, id, expected) && e != GaveUp(k) && !(Undisplaced(events, id) && e.Arrived? && Answers(e.reply, id, expected))
  {
    var all := events + [e];
    assert all[|events|] == e;
    assert forall i | 0 <= i < |events| :: all[i] == events[i];
    assert forall i: nat | i < |events| :: Reaches(all, i, id, expected) <==> Reaches(events, i, id, expected);
    assert Reaches(all, |events|, id, expected) <==> Undisplaced(events, id) && e.Arrived? && Answers(e.reply, id, expected);
  }

  /** A wait is pending, and its future in the table, exactly as long as no event says otherwise. */
  lemma {:induction false} PendingExactly(events: seq<Event>, k: nat, id: string, expected: string)
    ensures After(events, k, id, expected).outcome == Pending <==> Quiet(events, k, id, expected)
    ensures After(events, k, id, expected).listed <==> Undisplaced(events, id)
  {
    if events != [] {
      var n := |events| - 1;
      PendingExactly(events[..n], k, id, expected);
      QuietNext(events[..n], events[n], k, id, expected);
      assert events[..n] + [events[n]] == events;
    }
  }

  /** The reply that answers a wait: the first that reaches it, before it gave up. */
  ghost predicate Decides(events: seq<Event>, i: nat, k: nat, id: string, expected: string) {
    i < |events| && Reaches(events, i, id, expected) && Quiet(events[..i], k, id, expected)
  }

  lemma DecidesBefore(events: seq<Event>, e: Event, i: nat, k: nat, id: string, expected: string)
    requires i < |events|
    ensures Decides(events + [e], i, k, id, expected) <==> Decides(events, i, k, id, expected)
  {
    var all := events + [e];
    assert forall j | 0 <= j < |events| :: all[j] == events[j];
    assert all[..i] == events[..i];
  }

  lemma {:induction false} DecidesAtOnce(events: seq<Event>, i: nat, k: nat, id: string, expected: string)
    requires Decides(events, i, k, id, expected)
    ensures After(events, k, id, expected).outcome == Answered(events[i].reply.result)
  {
    var n := |events| - 1;
    var before := events[..n];
    assert events == before + [events[n]];
    if i == n {
      PendingExactly(before, k, id, expected);
    } else {
      DecidesBefore(before, events[n], i, k, id, expected);
      DecidesAtOnce(before, i, k, id, expected);
    }
  }

  lemma {:induction false} Decider(events: seq<Event>, k: nat, id: string, expected: string) returns (i: nat)
    requires After(events, k, id, expected).outcome.Answered?
    ensures Decides(events, i, k, id, expected)
  {
    i := |events| - 1;
    var before, e := events[..i], events[i];
    PendingExactly(before, k, id, expected);
    if After(before, k, id, expected).outcome.Answered? {
      i := Decider(before, k, id, expected);
      DecidesBefore(before, e, i, k, id, expected);
      assert events == before + [e];
    }
  }

  /**
   A wait is answered exactly by the first reply with its id that comes while its future is
   in the table, from no contradicting organization, and before it gave up.
   */
  lemma AnsweredExactly(events: seq<Event>, k: nat, id: string, expected: string, result: Option<string>)
    ensures After(events, k, id, expected).outcome == Answered(result)
       <==> exists i: nat :: Decides(events, i, k, id, expected) && events[i].reply.result == result
  {
    if After(events, k, id, expected).outcome.Answered? {
      var i := Decider(events, k, id, expected);
      DecidesAtOnce(events, i, k, id, expected);
    }
    forall i: nat | Decides(events, i, k, id, expected)
      ensures After(events, k, id, expected).outcome == Answered(events[i].reply.result)
    {
      DecidesAtOnce(events, i, k, id, expected);
    }
  }

  /******* The code *******/

  class Future {
    var outcome: Outcome

    constructor ()
      ensures outcome == Pending
    {
      outcome := Pending;
    }

    predicate Done()
      reads this
    {
      outcome != Pending
    }

    /** On a future that is done, `set_result` raises InvalidStateError. */
    method SetResult(result: Option<string>)
      requires !Done()
      modifies this
      ensures outcome == Answered(result)
    {
      outcome := Answered(result);
    }

    /** What `_consume` does with the entry of the reply's id. */
    method Offer(expected: string, r: Reply)
      modifies this
      ensures outcome == if old(outcome) == Pending && !Contradicts(expected, r.org) then Answered(r.result) else old(outcome)
    {
      if !Done() && !(expected != "" && r.org != "" && r.org != expected) {
        SetResult(r.result);
      }
    }

    /** `cancel`, which does nothing to a future that is done */
    method Cancel()
      modifies this
      ensures outcome == if old(Done()) then old(outcome) else Cancelled
    {
      if !Done() {
        outcome := Cancelled;
      }
    }
  }

  /** One call of `wait_for_reply`, and how much had happened when it joined. */
  datatype Wait = Wait(future: Future, id: string, expected: string, since: nat)

  /** What has become of each wait. */
  ghost predicate Follows(states: seq<State>, waits: seq<Wait>, events: seq<Event>) {
    |states| == |waits|
    && forall k | 0 <= k < |waits| ::
         waits[k].since <= |events| && states[k] == After(events[waits[k].since..], k, waits[k].id, waits[k].expected)
  }

  ghost function Next(states: seq<State>, waits: seq<Wait>, e: Event): (r: seq<State>)
    requires |states| == |waits|
    ensures |r| == |states|
    ensures forall k | 0 <= k < |r| :: r[k] == Decided(states[k], e, k, waits[k].id, waits[k].expected)
  {
    seq(|states|, k requires 0 <= k < |states| => Decided(states[k], e, k, waits[k].id, waits[k].expected))
  }

  lemma FollowsNext(states: seq<State>, waits: seq<Wait>, events: seq<Event>, e: Event)
    requires Follows(states, waits, events)
    ensures Follows(Next(states, waits, e), waits, events + [e])
  {
    forall k: nat | k < |waits|
      ensures Next(states, waits, e)[k] == After((events + [e])[waits[k].since..], k, waits[k].id, waits[k].expected)
    {
      AfterLater(events, waits[k].since, e, k, waits[k].id, waits[k].expected);
    }
  }

  lemma FollowsJoined(states: seq<State>, waits: seq<Wait>, events: seq<Event>, w: Wait)
    requires Follows(states, waits, events) && w.since == |events|
    ensures Follows(states + [State(Pending, true)], waits + [w], events)
  {
    assert events[w.since..] == [];
  }

  /** The table holds exactly the futures of the waits that were not displaced. */
  ghost predicate Lists(pending: map<string, (Future, string)>, owner: map<string, nat>, waits: seq<Wait>, states: seq<State>) {
    && owner.Keys == pending.Keys && |states| == |waits|
    && (forall id | id in pending :: owner[id] < |waits| && IsEntry(pending[id], waits[owner[id]], id))
    && (forall k | 0 <= k < |waits| :: states[k].listed <==> waits[k].id in owner && owner[waits[k].id] == k)
  }

  ghost predicate IsEntry(entry: (Future, string), w: Wait, id: string) {
    w.id == id && entry == (w.future, w.expected)
  }

  lemma ListsStays(pending: map<string, (Future, string)>, owner: map<string, nat>, waits: seq<Wait>, states: seq<State>, e: Event)
    requires Lists(pending, owner, waits, states) && (e.Arrived? || e.GaveUp?)
    ensures Lists(pending, owner, waits, Next(states, waits, e))
  {
  }

  lemma ListsLeft(pending: map<string, (Future, string)>, owner: map<string, nat>, waits: seq<Wait>, states: seq<State>, id: string)
    requires Lists(pending, owner, waits, states)
    ensures Lists(pending - {id}, owner - {id}, waits, Next(states, waits, Left(id)))
    ensures forall k | 0 <= k < |states| :: Next(states, waits, Left(id))[k].outcome == states[k].outcome
  {
  }

  lemma ListsJoined(pending: map<string, (Future, string)>, owner: map<string, nat>, waits: seq<Wait>, states: seq<State>, w: Wait)
    requires Lists(pending, owner, waits, states)
    ensures (var now := Next(states, waits, Joined(w.id)) + [State(Pending, true)];
             && Lists(pending[w.id := (w.future, w.expected)], owner[w.id := |waits|], waits + [w], now)
             && forall k | 0 <= k < |states| :: now[k].outcome == states[k].outcome)
  {
  }

  /** A reply concerns at most the wait whose future is in the table. */
  lemma Concerns(pending: map<string, (Future, string)>, owner: map<string, nat>, waits: seq<Wait>, states: seq<State>, r: Reply, k: nat)
    requires Lists(pending, owner, waits, states) && k < |waits|
    ensures Next(states, waits, Arrived(r))[k].outcome ==
      if r.id != "" && r.id in pending && owner[r.id] == k && states[k].outcome == Pending && !Contradicts(waits[k].expected, r.org)
      then Answered(r.result) else states[k].outcome
  {
  }

  class ReplyTable {
    /** `_pending`, and whose entries they are. */
    var pending: map<string, (Future, string)>
    ghost var owner: map<string, nat>
    /** All waits that ever joined, what has become of them, and all that happened. */
    ghost var waits: seq<Wait>
    ghost var states: seq<State>
    ghost var events: seq<Event>

    ghost function Futures(): set<Future>
      reads this
    {
      set w | w in waits :: w.future
    }

    ghost predicate Valid()
      reads this, Futures()
    {
      && Lists(pending, owner, waits, states) && Follows(states, waits, events)
      && (forall a, b | 0 <= a < b < |waits| :: waits[a].future != waits[b].future)
      && (forall k | 0 <= k < |waits| :: waits[k] in waits && waits[k].future.outcome == states[k].outcome)
    }

    constructor ()
      ensures Valid() && pending == map[] && waits == [] && events == []
    {
      pending, owner, waits, states, events := map[], map[], [], [], [];
    }

    /** The ghost part of a step. */
    ghost method Record(e: Event)
      requires Follows(states, waits, events)
      modifies `states, `events
      ensures Follows(states, waits, events) && events == old(events) + [e] && states == Next(old(states), waits, e)
    {
      FollowsNext(states, waits, events, e);
      states, events := Next(states, waits, e), events + [e];
    }

    /** One round of `_consume`. */
    method Consume(r: Reply)
      requires Valid()
      modifies `events, `states, Futures()
      ensures Valid() && events == old(events) + [Arrived(r)]
    {
      ListsStays(pending, owner, waits, states, Arrived(r));
      forall k: nat | k < |waits|
        ensures Next(states, waits, Arrived(r))[k].outcome ==
          if r.id != "" && r.id in pending && owner[r.id] == k && states[k].outcome == Pending && !Contradicts(waits[k].expected, r.org)
          then Answered(r.result) else states[k].outcome
      {
        Concerns(pending, owner, waits, states, r, k);
      }
      if r.id != "" && r.id in pending {
        assert IsEntry(pending[r.id], waits[owner[r.id]], r.id);
        var (future, expected) := pending[r.id];
        future.Offer(expected, r);
      }
      Record(Arrived(r));
    }

    /** `wait_for_reply` up to its await. An entry that the id already had is overwritten. */
    method Register(id: string, expected: string) returns (future: Future)
      requires Valid()
      modifies this
      ensures Valid() && fresh(future) && events == old(events) + [Joined(id)]
      ensures pending == old(pending)[id := (future, expected)]
      ensures waits == old(waits) + [Wait(future, id, expected, |events|)] && owner == old(owner)[id := |old(waits)|]
    {
      future := new Future();
      ghost var w := Wait(future, id, expected, |events| + 1);
      ListsJoined(pending, owner, waits, states, w);
      Record(Joined(id));
      pending := pending[id := (future, expected)];
      owner := owner[id := |waits|];
      FollowsJoined(states, waits, events, w);
      waits, states := waits + [w], states + [State(Pending, true)];
    }

    /** The time is up, or the caller was cancelled. */
    method GiveUp(future: Future, ghost k: nat)
      requires Valid() && k < |waits| && waits[k].future == future
      modifies `events, `states, future
      ensures Valid() && events == old(events) + [GaveUp(k)]
    {
      ListsStays(pending, owner, waits, states, GaveUp(k));
      future.Cancel();
      Record(GaveUp(k));
    }

    /** `_pending.pop(id, None)` */
    method Remove(id: string)
      requires Valid()
      modifies `pending, `owner, `states, `events
      ensures Valid() && events == old(events) + [Left(id)]
      ensures pending == old(pending) - {id} && owner == old(owner) - {id}
    {
      ListsLeft(pending, owner, waits, states, id);
      pending := pending - {id};
      owner := owner - {id};
      Record(Left(id));
    }

    /**
     The end of `wait_for_reply`, once its future is done; a caller that is cancelled at this
     moment gets None as well. Whatever entry its id has is removed.
     */
    method Resume(id: string, future: Future, interrupted: bool, ghost k: nat) returns (answer: Option<string>)
      requires Valid() && k < |waits| && waits[k].future == future && waits[k].id == id && future.Done()
      modifies this
      ensures Valid() && events == old(events) + [Left(id)] && waits == old(waits)
      ensures pending == old(pending) - {id} && owner == old(owner) - {id}
      ensures (var outcome := After(old(events)[waits[k].since..], k, id, waits[k].expected).outcome;
               && outcome != Pending
               && answer == if outcome.Answered? && !interrupted then outcome.result else None)
    {
      answer := if future.outcome.Answered? && !interrupted then future.outcome.result else None;
      Remove(id);
    }
  }
}
