/**
 The registry of traces that are still running (realtime/running_registry.py): starts are
 remembered until they complete, and swept lazily when they are listed too late.
 */
module RunningRegistry {
  import opened Wrappers
  import R = Relations

  const RUNNING_TTL_SECONDS := 600.0

  /** An organization and a trace. */
  datatype Key = Key(org: string, trace: string)

  /** `ingestedAt` is 0 where the message names no time. */
  datatype Entry = Entry(prefix: string, trace: string, ingestedAt: int, event: string, registeredAt: real)

  /******* The history, and what it means *******/

  datatype Event = Started(key: Key, entry: Entry) | Completed(key: Key)

  predicate Named(key: Key) {
    key.org != "" && key.trace != ""
  }

  /** The entry of the latest event of the key, if that is a start. */
  function Running(history: seq<Event>, key: Key): Option<Entry> {
    if history == [] then None else
    var e := history[|history| - 1];
    if e.key == key then (if e.Started? then Some(e.entry) else None) else Running(history[..|history| - 1], key)
  }

  predicate Stale(now: real, e: Entry) {
    e.registeredAt < now - RUNNING_TTL_SECONDS
  }

  /** What a caller is to see at time `now`; without a prefix, the entries of every key. */
  predicate Visible(history: seq<Event>, now: real, org: string, prefix: Option<string>, key: Key) {
    var e := Running(history, key);
    key.org == org && e.Some? && !Stale(now, e.value) && (prefix.Some? ==> e.value.prefix == prefix.value)
  }

  /** Newest first. */
  predicate Newer(d: Entry, e: Entry) {
    d.ingestedAt >= e.ingestedAt
  }

  /** The list shows the visible keys, each once, newest first. */
  ghost predicate Shows(list: seq<Entry>, history: seq<Event>, now: real, org: string, prefix: Option<string>) {
    && R.Sorted(Newer, list)
    && exists keys :: Lists(keys, history, now, org, prefix) && multiset(list) == multiset(EntriesOf(history, keys))
  }

  ghost predicate Distinct(keys: seq<Key>) {
    forall i, j | 0 <= i < j < |keys| :: keys[i] != keys[j]
  }

  ghost predicate Lists(keys: seq<Key>, history: seq<Event>, now: real, org: string, prefix: Option<string>) {
    Distinct(keys) && forall k :: k in keys <==> Visible(history, now, org, prefix, k)
  }

  ghost function EntriesOf(history: seq<Event>, keys: seq<Key>): (es: seq<Entry>)
    ensures |es| <= |keys|
  {
    if keys == [] then [] else
    var e := Running(history, keys[|keys| - 1]);
    EntriesOf(history, keys[..|keys| - 1]) + (if e.Some? then [e.value] else [])
  }

  /******* The code *******/

  class Registry {
    /** A dictionary: the keys in the order of their insertion, and their entries. */
    var keys: seq<Key>
    var entries: map<Key, Entry>
    /** Every start and every completion so far, and the latest reading of the clock. */
    ghost var history: seq<Event>
    ghost var clock: real

    /** What was swept was stale, and the clock does not go back. */
    ghost predicate Valid()
      reads this
    {
      && Distinct(keys) && (forall k :: k in keys <==> k in entries)
      && (forall k | k in entries :: Running(history, k) == Some(entries[k]))
      && (forall k | k !in entries && Running(history, k).Some? :: Stale(clock, Running(history, k).value))
    }

    constructor (ghost now: real)
      ensures Valid() && history == [] && clock == now
    {
      keys, entries, history, clock := [], map[], [], now;
    }

    method Register(key: Key, prefix: string, ingestedAt: int, event: string, now: real)
      requires Valid() && clock <= now
      modifies this
      ensures Valid() && clock == now
      ensures history == if Named(key) then old(history) + [Started(key, Entry(prefix, key.trace, ingestedAt, event, now))] else old(history)
    {
      clock := now;
      if key.org == "" || key.trace == "" {
        return;
      }
      var entry := Entry(prefix, key.trace, ingestedAt, event, now);
      if key !in entries {
        keys := keys + [key];
      }
      entries := entries[key := entry];
      history := history + [Started(key, entry)];
      assert history[..|history| - 1] == old(history);
    }

    method Complete(key: Key)
      requires Valid()
      modifies this
      ensures Valid() && clock == old(clock)
      ensures history == if Named(key) then old(history) + [Completed(key)] else old(history)
    {
      if key.org == "" || key.trace == "" {
        return;
      }
      Pop(key);
      history := history + [Completed(key)];
      assert history[..|history| - 1] == old(history);
    }

    /** `_entries.pop(key, None)` */
    method Pop(key: Key)
      modifies `keys, `entries
      ensures entries == old(entries) - {key} && keys == Without(old(keys), key)
    {
      keys := Without(keys, key);
      entries := entries - {key};
    }

    /** The keys to show and the keys to sweep. */
    method Scan(org: string, prefix: Option<string>, now: real) returns (keep: seq<Entry>, staleKeys: seq<Key>, ghost shown: seq<Key>)
      requires Valid() && clock == now
      ensures keep == EntriesOf(history, shown)
      ensures Lists(shown, history, now, org, prefix)
      ensures forall k | k in staleKeys :: k in entries && Stale(now, entries[k])
    {
      var cutoff := now - RUNNING_TTL_SECONDS;
      keep, staleKeys, shown := [], [], [];
      for i := 0 to |keys|
        invariant keep == EntriesOf(history, shown)
        invariant forall k | k in shown :: k in keys[..i]
        invariant Distinct(shown)
        invariant forall k | k in keys[..i] :: k in shown <==> Visible(history, now, org, prefix, k)
        invariant forall k | k in staleKeys :: k in entries && Stale(now, entries[k])
      {
        var key := keys[i];
        PrefixNext(keys, i);
        var entry := entries[key];
        if key.org != org {
          continue;
        }
        if entry.registeredAt < cutoff {
          staleKeys := staleKeys + [key];
          continue;
        }
        if prefix.Some? && entry.prefix != prefix.value {
          continue;
        }
        keep := keep + [entry];
        assert (shown + [key])[..|shown|] == shown;
        shown := shown + [key];
      }
      assert keys[..|keys|] == keys;
    }

    method ListFor(org: string, prefix: Option<string>, now: real) returns (list: seq<Entry>)
      requires Valid() && clock <= now
      modifies this
      ensures Valid() && history == old(history) && clock == now
      ensures org != "" ==> Shows(list, history, now, org, prefix)
      ensures org == "" ==> list == []
    {
      clock := now;
      if org == "" {
        return [];
      }
      var keep, staleKeys, shown := Scan(org, prefix, now);
      Sweep(staleKeys);
      list := R.Sort(Newer, keep);
      R.SortSorts(Newer, keep);
      assert multiset(list) == multiset(EntriesOf(history, shown));
    }

    method Sweep(staleKeys: seq<Key>)
      requires Valid() && forall k | k in staleKeys :: k in entries ==> Stale(clock, entries[k])
      modifies `keys, `entries
      ensures Valid()
    {
      for i := 0 to |staleKeys|
        invariant Valid() && entries.Keys <= old(entries).Keys && forall k | k in entries :: entries[k] == old(entries)[k]
      {
        Pop(staleKeys[i]);
      }
    }
  }

  function Without(keys: seq<Key>, key: Key): (rest: seq<Key>)
    ensures forall k :: k in rest <==> k in keys && k != key
    ensures Distinct(keys) ==> Distinct(rest)
  {
    if keys == [] then [] else
    var last, rest := keys[|keys| - 1], Without(keys[..|keys| - 1], key);
    assert keys == keys[..|keys| - 1] + [last];
    assert Distinct(keys) ==> last !in keys[..|keys| - 1] && Distinct(keys[..|keys| - 1]);
    if last == key then rest else rest + [last]
  }

  lemma PrefixNext(keys: seq<Key>, i: nat)
    requires i < |keys| && Distinct(keys)
    ensures keys[i] !in keys[..i] && forall k :: k in keys[..i + 1] <==> k in keys[..i] || k == keys[i]
  {
    assert keys[..i + 1] == keys[..i] + [keys[i]];
  }

  /******* Sweeping is invisible *******/

  lemma {:induction false} EntriesPermuted(history: seq<Event>, ks: seq<Key>, ls: seq<Key>)
    requires Distinct(ks) && Distinct(ls)
    requires forall k :: k in ks <==> k in ls
    ensures multiset(EntriesOf(history, ks)) == multiset(EntriesOf(history, ls))
  {
    if ks == [] {
      assert forall i | 0 <= i < |ls| :: ls[i] in ls;
    } else {
      var last, rest := ks[|ks| - 1], ks[..|ks| - 1];
      assert ks == rest + [last] && last in ls;
      EntriesWithout(history, ls, last);
      EntriesPermuted(history, rest, Without(ls, last));
    }
  }

  lemma {:induction false} EntriesWithout(history: seq<Event>, ks: seq<Key>, key: Key)
    requires key in ks && Distinct(ks)
    ensures (var e := Running(history, key);
             multiset(EntriesOf(history, ks))
             == multiset(EntriesOf(history, Without(ks, key))) + multiset(if e.Some? then [e.value] else []))
  {
    var last, rest := ks[|ks| - 1], ks[..|ks| - 1];
    assert ks == rest + [last];
    if last == key {
      WithoutAbsent(rest, key);
    } else {
      EntriesWithout(history, rest, key);
      EntriesNext(history, Without(rest, key), last);
    }
  }

  lemma EntriesNext(history: seq<Event>, ks: seq<Key>, key: Key)
    ensures (var e := Running(history, key); EntriesOf(history, ks + [key]) == EntriesOf(history, ks) + if e.Some? then [e.value] else [])
  {
    assert (ks + [key])[..|ks|] == ks;
  }

  lemma {:induction false} WithoutAbsent(ks: seq<Key>, key: Key)
    requires key !in ks
    ensures Without(ks, key) == ks
  {
    if ks != [] { WithoutAbsent(ks[..|ks| - 1], key); }
  }

  /** Two registries with the same history list the same entries, whatever each has swept before, and in the same order where no two came at the same time. */
  lemma SweepingIsInvisible(l: seq<Entry>, m: seq<Entry>, history: seq<Event>, now: real, org: string, prefix: Option<string>)
    requires Shows(l, history, now, org, prefix) && Shows(m, history, now, org, prefix)
    ensures multiset(l) == multiset(m)
    ensures (forall i, j | 0 <= i < j < |l| :: l[i].ingestedAt != l[j].ingestedAt) ==> l == m
  {
    var ks :| Lists(ks, history, now, org, prefix) && multiset(l) == multiset(EntriesOf(history, ks));
    var ls :| Lists(ls, history, now, org, prefix) && multiset(m) == multiset(EntriesOf(history, ls));
    EntriesPermuted(history, ks, ls);
    if forall i, j | 0 <= i < j < |l| :: l[i].ingestedAt != l[j].ingestedAt { SortedAreEqual(l, m); }
  }

  lemma {:induction false} SortedAreEqual(l: seq<Entry>, m: seq<Entry>)
    requires R.Sorted(Newer, l) && R.Sorted(Newer, m) && multiset(l) == multiset(m)
    requires forall i, j | 0 <= i < j < |l| :: l[i].ingestedAt != l[j].ingestedAt
    ensures l == m
  {
    assert |l| == |multiset(l)| == |m|;
    if l != [] {
      SameFirst(l, m);
      SameRest(l, m);
      SortedAreEqual(l[1..], m[1..]);
      assert l == [l[0]] + l[1..] && m == [m[0]] + m[1..];
    }
  }

  lemma SameFirst(l: seq<Entry>, m: seq<Entry>)
    requires R.Sorted(Newer, l) && R.Sorted(Newer, m) && multiset(l) == multiset(m) && l != [] && m != []
    requires forall i, j | 0 <= i < j < |l| :: l[i].ingestedAt != l[j].ingestedAt
    ensures l[0] == m[0]
  {
    assert l[0] in multiset(m) && m[0] in multiset(l);
    FirstIsNewest(l, m[0]);
    FirstIsNewest(m, l[0]);
  }

  lemma SameRest(l: seq<Entry>, m: seq<Entry>)
    requires multiset(l) == multiset(m) && l != [] && m != [] && l[0] == m[0]
    ensures multiset(l[1..]) == multiset(m[1..])
  {
    assert l == [l[0]] + l[1..] && m == [m[0]] + m[1..];
    assert multiset(l[1..]) == multiset(l) - multiset{l[0]};
    assert multiset(m[1..]) == multiset(m) - multiset{m[0]};
  }

  lemma FirstIsNewest(l: seq<Entry>, e: Entry)
    requires R.Sorted(Newer, l) && e in l
    ensures l[0].ingestedAt >= e.ingestedAt && exists i :: 0 <= i < |l| && l[i] == e
  {
    var i :| 0 <= i < |l| && l[i] == e;
    if i > 0 { assert Newer(l[0], l[i]); }
  }

  /******* Whole runs *******/

  datatype Operation =
    | Starts(key: Key, prefix: string, ingestedAt: int, event: string, now: real)
    | Completes(key: Key)
    | Asks(org: string, only: Option<string>, now: real)

  function ClockAfter(start: real, ops: seq<Operation>): real {
    if ops == [] then start else
    var op := ops[|ops| - 1];
    if op.Completes? then ClockAfter(start, ops[..|ops| - 1]) else op.now
  }

  /** The clock does not go back. */
  predicate Timely(start: real, ops: seq<Operation>) {
    ops == [] || (var n := |ops| - 1;
                  Timely(start, ops[..n]) && (ops[n].Completes? || ClockAfter(start, ops[..n]) <= ops[n].now))
  }

  /** What is remembered of an operation. */
  function EventOf(op: Operation): Option<Event> {
    if op.Asks? || !Named(op.key) then None
    else if op.Starts? then Some(Started(op.key, Entry(op.prefix, op.key.trace, op.ingestedAt, op.event, op.now)))
    else Some(Completed(op.key))
  }

  function HistoryOf(ops: seq<Operation>): seq<Event> {
    if ops == [] then [] else
    var e := EventOf(ops[|ops| - 1]);
    HistoryOf(ops[..|ops| - 1]) + (if e.Some? then [e.value] else [])
  }

  /** The list is what the operations before it, and nothing else, call for. */
  ghost predicate Answers(list: seq<Entry>, before: seq<Operation>, op: Operation) {
    op.Asks? ==> if op.org == "" then list == [] else Shows(list, HistoryOf(before), op.now, op.org, op.only)
  }

  lemma {:induction false} TimelyBefore(start: real, ops: seq<Operation>, n: nat)
    requires Timely(start, ops) && n <= |ops|
    ensures Timely(start, ops[..n])
  {
    if n < |ops| {
      assert ops[..|ops| - 1][..n] == ops[..n];
      TimelyBefore(start, ops[..|ops| - 1], n);
    } else {
      assert ops[..n] == ops;
    }
  }

  method Perform(registry: Registry, ghost start: real, ghost before: seq<Operation>, op: Operation) returns (list: seq<Entry>)
    requires registry.Valid() && registry.history == HistoryOf(before) && registry.clock == ClockAfter(start, before)
    requires Timely(start, before + [op])
    modifies registry
    ensures registry.Valid() && registry.history == HistoryOf(before + [op]) && registry.clock == ClockAfter(start, before + [op])
    ensures Answers(list, before, op)
  {
    assert (before + [op])[..|before|] == before;
    list := [];
    match op
    case Starts(key, prefix, ingestedAt, event, now) => registry.Register(key, prefix, ingestedAt, event, now);
    case Completes(key) => registry.Complete(key);
    case Asks(org, prefix, now) => list := registry.ListFor(org, prefix, now);
  }

  /** Any run of a new registry: every list shows exactly what the starts and completions before it call for. */
  method Serve(ghost start: real, ops: seq<Operation>) returns (registry: Registry, lists: seq<seq<Entry>>)
    requires Timely(start, ops)
    ensures fresh(registry) && registry.Valid() && |lists| == |ops|
    ensures forall i | 0 <= i < |ops| :: Answers(lists[i], ops[..i], ops[i])
  {
    registry := new Registry(start);
    lists := [];
    for n := 0 to |ops|
      invariant fresh(registry) && registry.Valid() && |lists| == n
      invariant registry.history == HistoryOf(ops[..n]) && registry.clock == ClockAfter(start, ops[..n])
      invariant forall i | 0 <= i < n :: Answers(lists[i], ops[..i], ops[i])
    {
      TimelyBefore(start, ops, n + 1);
      assert ops[..n + 1] == ops[..n] + [ops[n]];
      var list := Perform(registry, start, ops[..n], ops[n]);
      lists := lists + [list];
    }
  }
}
