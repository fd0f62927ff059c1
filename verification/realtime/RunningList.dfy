/**
 Which running traces a list shows (realtime/running_registry.py), in terms of the starts
 and completions that came before it and of nothing else.
 */
module RunningList {
  import opened Wrappers
  import opened RunningRegistry
  import R = Relations

  /** A start or a completion of the key. */
  predicate Touches(op: Operation, key: Key) {
    match op
    case Starts(k, _, _, _, _) => k == key
    case Completes(k) => k == key
    case Asks(_, _, _) => false
  }

  /** The i-th operation is a start of the key that nothing came after. */
  predicate LastStart(ops: seq<Operation>, i: nat, key: Key) {
    i < |ops| && ops[i].Starts? && ops[i].key == key && forall j | i < j < |ops| :: !Touches(ops[j], key)
  }

  function EntryOf(op: Operation): Entry
    requires op.Starts?
  {
    Entry(op.prefix, op.key.trace, op.ingestedAt, op.event, op.now)
  }

  predicate Proper(key: Key) {
    |key.org| > 0 && |key.trace| > 0
  }

  lemma {:induction false} RunningExactly(ops: seq<Operation>, key: Key) returns (i: nat)
    requires Proper(key)
    ensures (var e := Running(HistoryOf(ops), key);
             if e.Some? then LastStart(ops, i, key) && e.value == EntryOf(ops[i]) else forall k :: !LastStart(ops, k, key))
  {
    i := 0;
    if ops != [] {
      var n := |ops| - 1;
      var op, before := ops[n], HistoryOf(ops[..n]);
      HistoryNext(before, EventOf(op), key);
      i := RunningExactly(ops[..n], key);
      if Touches(op, key) {
        i := n;
      } else if Running(before, key).None? {
        forall k: nat ensures !LastStart(ops, k, key) { LastStartBefore(ops, k, key); }
      }
    }
  }

  lemma LastStartBefore(ops: seq<Operation>, k: nat, key: Key)
    requires ops != [] && !Touches(ops[|ops| - 1], key)
    ensures LastStart(ops, k, key) ==> LastStart(ops[..|ops| - 1], k, key)
  {
  }

  lemma HistoryNext(before: seq<Event>, e: Option<Event>, key: Key)
    ensures (var after := before + if e.Some? then [e.value] else [];
             Running(after, key) ==
               if e.Some? && e.value.key == key then (if e.value.Started? then Some(e.value.entry) else None) else Running(before, key))
  {
    if e.Some? { assert (before + [e.value])[..|before|] == before; }
    assert before + [] == before;
  }

  /** The i-th operation started a trace of the organization that still runs, not more than ten minutes ago, under the prefix asked for. */
  predicate Runs(ops: seq<Operation>, i: nat, asks: Operation)
    requires asks.Asks?
  {
    && i < |ops| && ops[i].Starts? && LastStart(ops, i, ops[i].key)
    && ops[i].key.org == asks.org && ops[i].key.trace != ""
    && asks.now - ops[i].now <= 600.0
    && (asks.only == None || asks.only == Some(ops[i].prefix))
  }

  lemma VisibleExactly(ops: seq<Operation>, asks: Operation, key: Key) returns (i: nat)
    requires asks.Asks? && Proper(key)
    ensures (if Visible(HistoryOf(ops), asks.now, asks.org, asks.only, key)
             then Runs(ops, i, asks) && ops[i].key == key && Running(HistoryOf(ops), key) == Some(EntryOf(ops[i]))
             else forall k: nat | Runs(ops, k, asks) :: ops[k].key != key)
  {
    i := RunningExactly(ops, key);
    forall k: nat | Runs(ops, k, asks) && ops[k].key == key ensures Running(HistoryOf(ops), key).Some? && k == i {
      assert LastStart(ops, k, key);
    }
  }

  lemma {:induction false} NamelessNeverRuns(ops: seq<Operation>, key: Key)
    requires !Proper(key)
    ensures Running(HistoryOf(ops), key) == None
  {
    if ops != [] {
      var n := |ops| - 1;
      HistoryNext(HistoryOf(ops[..n]), EventOf(ops[n]), key);
      NamelessNeverRuns(ops[..n], key);
    }
  }

  lemma {:induction false} EntriesMember(history: seq<Event>, keys: seq<Key>, e: Entry)
    ensures e in EntriesOf(history, keys) <==> exists k :: k in keys && Running(history, k) == Some(e)
  {
    if keys != [] {
      var n := |keys| - 1;
      EntriesMember(history, keys[..n], e);
      assert keys == keys[..n] + [keys[n]];
    }
  }

  /** Entries of different traces of one organization are different. */
  lemma {:induction false} EntriesDistinct(ops: seq<Operation>, keys: seq<Key>, e: Entry)
    requires Distinct(keys) && forall i, j | 0 <= i < j < |keys| :: keys[i].org == keys[j].org
    ensures multiset(EntriesOf(HistoryOf(ops), keys))[e] <= 1
  {
    if keys != [] {
      var n := |keys| - 1;
      var key, rest, last := keys[n], keys[..n], Running(HistoryOf(ops), keys[n]);
      EntriesDistinct(ops, rest, e);
      if last == Some(e) {
        EntriesMember(HistoryOf(ops), rest, e);
        TraceOfKey(ops, key, e);
        forall k | k in rest ensures Running(HistoryOf(ops), k) != Some(e) { OtherEntry(ops, keys, k, e); }
        assert e !in EntriesOf(HistoryOf(ops), rest);
      }
    }
  }

  lemma OtherEntry(ops: seq<Operation>, keys: seq<Key>, k: Key, e: Entry)
    requires Distinct(keys) && forall i, j | 0 <= i < j < |keys| :: keys[i].org == keys[j].org
    requires keys != [] && k in keys[..|keys| - 1] && keys[|keys| - 1].trace == e.trace
    ensures Running(HistoryOf(ops), k) != Some(e)
  {
    var n := |keys| - 1;
    var j :| 0 <= j < n && keys[..n][j] == k;
    assert keys[j] == k && keys[j] != keys[n] && k.trace != e.trace;
    if Running(HistoryOf(ops), k).Some? { TraceOfKey(ops, k, Running(HistoryOf(ops), k).value); }
  }

  lemma TraceOfKey(ops: seq<Operation>, key: Key, e: Entry)
    requires Running(HistoryOf(ops), key) == Some(e)
    ensures e.trace == key.trace
  {
    if Proper(key) {
      var i := RunningExactly(ops, key);
    } else {
      NamelessNeverRuns(ops, key);
    }
  }

  /**
   The list shows the entry of exactly those starts that nothing followed, that are recent
   and asked for: each once, and newest first.
   */
  lemma ListExactly(ops: seq<Operation>, asks: Operation, list: seq<Entry>)
    requires asks.Asks? && asks.org != "" && Answers(list, ops, asks)
    ensures forall e :: e in list <==> exists i: nat :: Runs(ops, i, asks) && EntryOf(ops[i]) == e
    ensures forall i, j | 0 <= i < j < |list| :: list[i] != list[j] && list[i].ingestedAt >= list[j].ingestedAt
  {
    var history := HistoryOf(ops);
    var keys :| Lists(keys, history, asks.now, asks.org, asks.only) && multiset(list) == multiset(EntriesOf(history, keys));
    forall e ensures e in list <==> exists i: nat :: Runs(ops, i, asks) && EntryOf(ops[i]) == e {
      assert e in list <==> e in multiset(list);
      assert e in EntriesOf(history, keys) <==> e in multiset(EntriesOf(history, keys));
      EntriesMember(history, keys, e);
      ShownExactly(ops, asks, keys, e);
    }
    forall i, j | 0 <= i < j < |list| ensures list[i] != list[j] && list[i].ingestedAt >= list[j].ingestedAt {
      ListedOnce(ops, asks, keys, list, i, j);
      assert Newer(list[i], list[j]);
    }
  }

  lemma ShownExactly(ops: seq<Operation>, asks: Operation, keys: seq<Key>, e: Entry)
    requires asks.Asks? && asks.org != "" && Lists(keys, HistoryOf(ops), asks.now, asks.org, asks.only)
    ensures (exists k :: k in keys && Running(HistoryOf(ops), k) == Some(e)) <==> exists i: nat :: Runs(ops, i, asks) && EntryOf(ops[i]) == e
  {
    if k :| k in keys && Running(HistoryOf(ops), k) == Some(e) {
      if !Proper(k) { NamelessNeverRuns(ops, k); }
      var i := VisibleExactly(ops, asks, k);
    }
    if i: nat :| Runs(ops, i, asks) && EntryOf(ops[i]) == e {
      var k := VisibleExactly(ops, asks, ops[i].key);
      assert LastStart(ops, i, ops[i].key) && LastStart(ops, k, ops[i].key);
      assert ops[i].key in keys;
    }
  }

  lemma ListedOnce(ops: seq<Operation>, asks: Operation, keys: seq<Key>, list: seq<Entry>, i: nat, j: nat)
    requires asks.Asks? && Lists(keys, HistoryOf(ops), asks.now, asks.org, asks.only)
    requires multiset(list) == multiset(EntriesOf(HistoryOf(ops), keys)) && i < j < |list|
    ensures list[i] != list[j]
  {
    forall a, b | 0 <= a < b < |keys| ensures keys[a].org == keys[b].org {
      assert keys[a] in keys && keys[b] in keys;
    }
    EntriesDistinct(ops, keys, list[i]);
    if list[i] == list[j] { Twice(list, i, j); }
  }

  lemma Twice(list: seq<Entry>, i: nat, j: nat)
    requires i < j < |list| && list[i] == list[j]
    ensures multiset(list)[list[i]] >= 2
  {
    assert list == list[..j] + list[j..];
    assert list[..j][i] == list[i] && list[j..][0] == list[j];
    assert multiset(list) == multiset(list[..j]) + multiset(list[j..]);
    assert list[i] in list[..j] && list[i] in list[j..];
  }
}
