/**
 The stored rows of dataset runs (db_queues/postgresql/dataset_runs.py) and the summary
 that decides whether a run is finished (routes/datasets/__init__.py:1211-1266).
 */
module RunStore {
  import opened Wrappers

  type RunId = nat
  type OrgId = nat
  type TraceId = nat

  datatype Status = Running | Complete
  datatype Kind = Agentic | Metrics | Security
  datatype Summary = Summary(total: nat, completed: nat, genFailed: nat)

  datatype Run = Run(org: OrgId, kind: Kind, task: bool, total: nat, generated: nat, genFailed: nat,
                     status: Status, summary: Option<Summary>)
  datatype Item = Item(trace: TraceId, output: Option<string>, genError: Option<string>)
  datatype StoredItem = StoredItem(run: RunId, org: OrgId, item: Item)

  /** A row a worker writes for one trace. */
  datatype Result = Result(trace: TraceId, evaluator: string, scored: bool)

  /******* What each statement does to the rows of one run *******/

  function NewRun(org: OrgId, kind: Kind, task: bool): Run {
    Run(org, kind, task, 0, 0, 0, Running, None)
  }

  function Record(item: Item, trace: TraceId, output: Option<string>, error: Option<string>): Item {
    if item.trace == trace then item.(output := output, genError := error) else item
  }

  function RecordAll(items: seq<Item>, trace: TraceId, output: Option<string>, error: Option<string>): (r: seq<Item>)
    ensures |r| == |items|
    ensures forall i | 0 <= i < |items| :: r[i] == if items[i].trace == trace then Item(trace, output, error) else items[i]
  {
    if items == [] then [] else [Record(items[0], trace, output, error)] + RecordAll(items[1..], trace, output, error)
  }

  /** `gen_failed + $3`, where an empty message counts as no error. */
  function Count(run: Run, error: Option<string>): Run {
    run.(generated := run.generated + 1, genFailed := run.genFailed + (if Failed(error) then 1 else 0))
  }

  predicate Failed(error: Option<string>) {
    error.Some? && error.value != ""
  }

  function Finalized(run: Run, summary: Summary): Run {
    run.(status := Complete, summary := Some(summary))
  }

  /******* The summary *******/

  /** The rows that count as a result, by kind of run. */
  predicate Counts(kind: Kind, r: Result) {
    kind == Metrics ==> r.evaluator == "fluiq.eval" && r.scored
  }

  function FailedCount(items: seq<Item>): nat {
    if items == [] then 0 else (if Failed(items[0].genError) then 1 else 0) + FailedCount(items[1..])
  }

  /** `fetch_dataset_eval_results`: the rows of the given traces. */
  function Fetch(rows: seq<Result>, items: seq<Item>): (found: seq<Result>)
    ensures forall r :: r in found <==> r in rows && exists i | 0 <= i < |items| :: items[i].trace == r.trace
  {
    if rows == [] then [] else
    (if exists i | 0 <= i < |items| :: items[i].trace == rows[0].trace then [rows[0]] else []) + Fetch(rows[1..], items)
  }

  /** The traces that have a result. */
  function Covered(kind: Kind, rows: seq<Result>): set<TraceId> {
    set r | r in rows && Counts(kind, r) :: r.trace
  }

  function Summarize(kind: Kind, items: seq<Item>, rows: seq<Result>): Summary {
    Summary(|items|, |Covered(kind, rows)|, FailedCount(items))
  }

  /** Whether a reader that holds these three reads finalizes the run. */
  predicate Settles(run: Run, items: seq<Item>, rows: seq<Result>) {
    && !(run.task && run.generated < |items|)
    && |Covered(run.kind, rows)| >= |items| - FailedCount(items)
    && run.status == Running
  }

  /** The traces that an evaluation has scored. */
  function ScoredTraces(rows: seq<Result>): set<TraceId> {
    set r | r in rows && r.evaluator == "fluiq.eval" && r.scored :: r.trace
  }

  /** A metrics run is covered by scored evaluations, any other by any result. */
  lemma CoveredExactly(kind: Kind, rows: seq<Result>)
    ensures Covered(kind, rows) == if kind == Metrics then ScoredTraces(rows) else set r | r in rows :: r.trace
  {
  }

  function FailedAt(items: seq<Item>): set<nat> {
    set i: nat | i < |items| && items[i].genError.Some? && items[i].genError.value != ""
  }

  /** The number of items with an error that says something. */
  lemma {:induction false} FailedExactly(items: seq<Item>)
    ensures FailedCount(items) == |FailedAt(items)|
  {
    if items == [] {
      assert FailedAt(items) == {};
    } else {
      var n := |items| - 1;
      FailedExactly(items[..n]);
      FailedLast(items);
      FailedAtLast(items);
    }
  }

  lemma FailedAtLast(items: seq<Item>)
    requires items != []
    ensures (var n := |items| - 1;
             FailedAt(items) == FailedAt(items[..n]) + (if Failed(items[n].genError) then {n} else {}) && n !in FailedAt(items[..n]))
  {
  }

  lemma {:induction false} FailedLast(items: seq<Item>)
    requires items != []
    ensures FailedCount(items) == FailedCount(items[..|items| - 1]) + (if Failed(items[|items| - 1].genError) then 1 else 0)
  {
    if |items| > 1 {
      FailedLast(items[1..]);
      assert items[1..][..|items| - 2] == items[..|items| - 1][1..];
    } else {
      assert items[1..] == [] && items[..0] == [];
    }
  }

  /******* The tables *******/

  class Store {
    var runs: map<RunId, Run>
    var items: seq<StoredItem>

    constructor ()
      ensures runs == map[] && items == []
    {
      runs, items := map[], [];
    }

    /** The rows of one run, in insertion order. */
    ghost function ItemsOf(run: RunId, org: OrgId): seq<Item>
      reads this
    {
      Select(items, run, org)
    }

    method CreateRun(owned: bool, id: RunId, org: OrgId, kind: Kind, task: bool) returns (r: Option<Run>)
      requires id !in runs
      modifies this`runs
      ensures r == if owned then Some(Run(org, kind, task, 0, 0, 0, Running, None)) else None
      ensures runs == if owned then old(runs)[id := Run(org, kind, task, 0, 0, 0, Running, None)] else old(runs)
    {
      if !owned {
        return None;
      }
      var run := NewRun(org, kind, task);
      runs := runs[id := run];
      r := Some(run);
    }

    /** The first statement of `add_run_items`; the run's total follows in a second one. */
    method InsertItems(run: RunId, org: OrgId, traces: seq<TraceId>)
      modifies this`items
      ensures ItemsOf(run, org) == old(ItemsOf(run, org)) + Blank(traces)
      ensures forall other: RunId, o: OrgId | (other, o) != (run, org) :: ItemsOf(other, o) == old(ItemsOf(other, o))
    {
      ghost var before := items;
      for i := 0 to |traces|
        invariant ItemsOf(run, org) == Select(before, run, org) + Blank(traces[..i])
        invariant forall other: RunId, o: OrgId | (other, o) != (run, org) :: ItemsOf(other, o) == Select(before, other, o)
      {
        var row := StoredItem(run, org, Item(traces[i], None, None));
        ghost var was := items;
        items := items + [row];
        forall other: RunId, o: OrgId ensures Select(items, other, o) == Select(was, other, o) + Select([row], other, o) {
          SelectAppend(was, [row], other, o);
        }
        forall other: RunId, o: OrgId ensures Select([row], other, o) == if (other, o) == (run, org) then [row.item] else [] {
          assert [row][1..] == [];
        }
        assert Blank(traces[..i + 1]) == Blank(traces[..i]) + [row.item];
      }
      assert traces[..|traces|] == traces;
    }

    method SetTotal(run: RunId, n: nat)
      modifies this`runs
      ensures runs == if run in old(runs) then old(runs)[run := old(runs)[run].(total := n)] else old(runs)
    {
      if run in runs {
        runs := runs[run := runs[run].(total := n)];
      }
    }

    /** The row that a statement on a run of an organization finds. */
    predicate Owned(run: RunId, org: OrgId)
      reads this`runs
    {
      run in runs && runs[run].org == org
    }

    /** One transaction: the item's outcome, whichever organization it is of, and the run's counters. */
    method RecordGeneration(run: RunId, org: OrgId, trace: TraceId, output: Option<string>, error: Option<string>)
      modifies this
      ensures forall o: OrgId :: ItemsOf(run, o) == RecordAll(old(ItemsOf(run, o)), trace, output, error)
      ensures run !in old(runs) || old(runs)[run].org != org ==> runs == old(runs)
      ensures run in old(runs) && old(runs)[run].org == org ==>
        (var was := old(runs)[run];
         var failures := if error.Some? && error.value != "" then 1 else 0;
         runs == old(runs)[run := was.(generated := was.generated + 1, genFailed := was.genFailed + failures)])
      ensures forall other: RunId, o: OrgId | other != run :: ItemsOf(other, o) == old(ItemsOf(other, o))
    {
      ghost var before := items;
      var i := 0;
      while i < |items|
        invariant i <= |items| == |before| && runs == old(runs)
        invariant forall j | i <= j < |items| :: items[j] == before[j]
        invariant forall j | 0 <= j < i :: items[j] == Updated(before[j], run, trace, output, error)
      {
        if items[i].run == run {
          items := items[i := items[i].(item := Record(items[i].item, trace, output, error))];
        }
        i := i + 1;
      }
      forall o: OrgId ensures Select(items, run, o) == RecordAll(Select(before, run, o), trace, output, error) {
        SelectUpdated(before, items, run, o, run, trace, output, error);
      }
      forall other: RunId, o: OrgId | other != run ensures Select(items, other, o) == Select(before, other, o) {
        SelectUpdated(before, items, other, o, run, trace, output, error);
      }
      if Owned(run, org) {
        runs := runs[run := Count(runs[run], error)];
      }
    }

    method FinalizeRun(run: RunId, org: OrgId, summary: Summary)
      modifies this`runs
      ensures run !in old(runs) || old(runs)[run].org != org ==> runs == old(runs)
      ensures run in old(runs) && old(runs)[run].org == org ==>
        runs == old(runs)[run := old(runs)[run].(status := Complete, summary := Some(summary))]
    {
      if Owned(run, org) {
        runs := runs[run := Finalized(runs[run], summary)];
      }
    }

    /** `_summarize_and_finalize` on a run row, the items and the result rows read before. */
    method SummarizeAndFinalize(id: RunId, org: OrgId, run: Run, read: seq<Item>, rows: seq<Result>)
      returns (summary: Summary, done: bool)
      modifies this`runs
      ensures summary == Summarize(run.kind, read, rows)
      ensures summary.total == |read|
      ensures summary.completed == if run.kind == Metrics then |ScoredTraces(rows)| else |set r | r in rows :: r.trace|
      ensures summary.genFailed == |FailedAt(read)|
      ensures done == Settles(run, read, rows)
      ensures done <==> run.status == Running && (run.task ==> run.generated >= |read|) && summary.completed + summary.genFailed >= |read|
      ensures !done || id !in old(runs) || old(runs)[id].org != org ==> runs == old(runs)
      ensures done && id in old(runs) && old(runs)[id].org == org ==>
        runs == old(runs)[id := old(runs)[id].(status := Complete, summary := Some(summary))]
    {
      var failed := 0;
      for i := 0 to |read|
        invariant failed + FailedCount(read[i..]) == FailedCount(read)
        invariant unchanged(this)
      {
        if Failed(read[i].genError) {
          failed := failed + 1;
        }
        assert read[i..][1..] == read[i + 1..];
      }
      var byTrace: map<TraceId, seq<Result>> := map[];
      for i := 0 to |rows|
        invariant byTrace.Keys == Covered(run.kind, rows[..i])
        invariant unchanged(this)
      {
        var r := rows[i];
        if Counts(run.kind, r) {
          byTrace := byTrace[r.trace := (if r.trace in byTrace then byTrace[r.trace] else []) + [r]];
        }
        CoveredNext(run.kind, rows, i);
      }
      assert rows[..|rows|] == rows;
      assert |byTrace| == |byTrace.Keys|;
      summary := Summary(|read|, |byTrace|, failed);
      var generating := run.task && run.generated < |read|;
      done := !generating && summary.completed >= |read| - failed && run.status == Running;
      CoveredExactly(run.kind, rows);
      FailedExactly(read);
      if done {
        FinalizeRun(id, org, summary);
      }
    }
  }

  /******* Lemmas about the tables *******/

  function Select(rows: seq<StoredItem>, run: RunId, org: OrgId): seq<Item> {
    if rows == [] then [] else
    (if rows[0].run == run && rows[0].org == org then [rows[0].item] else []) + Select(rows[1..], run, org)
  }

  /** The rows of a run are its own, in order: `at` says where they are stored. */
  ghost predicate Selects(rows: seq<StoredItem>, run: RunId, org: OrgId, items: seq<Item>, at: seq<nat>) {
    && |at| == |items|
    && (forall i, j | 0 <= i < j < |at| :: at[i] < at[j])
    && (forall i | 0 <= i < |at| :: at[i] < |rows| && rows[at[i]] == StoredItem(run, org, items[i]))
    && (forall k: nat | k < |rows| && rows[k].run == run && rows[k].org == org :: k in at)
  }

  lemma {:induction false} SelectExactly(rows: seq<StoredItem>, run: RunId, org: OrgId) returns (at: seq<nat>)
    ensures Selects(rows, run, org, Select(rows, run, org), at)
  {
    at := [];
    if rows != [] {
      var n := |rows| - 1;
      var last := rows[n];
      at := SelectExactly(rows[..n], run, org);
      SelectAppend(rows[..n], [last], run, org);
      assert rows == rows[..n] + [last] && [last][1..] == [];
      SelectsNext(rows, run, org, Select(rows[..n], run, org), at);
      if last.run == run && last.org == org { at := at + [n]; }
    }
  }

  lemma SelectsNext(rows: seq<StoredItem>, run: RunId, org: OrgId, items: seq<Item>, at: seq<nat>)
    requires rows != [] && Selects(rows[..|rows| - 1], run, org, items, at)
    ensures (var n := |rows| - 1;
             if rows[n].run == run && rows[n].org == org then Selects(rows, run, org, items + [rows[n].item], at + [n])
             else Selects(rows, run, org, items, at))
  {
    var n := |rows| - 1;
    forall k: nat | k < |rows| && rows[k].run == run && rows[k].org == org ensures k == n || k in at {
      if k < n { assert rows[..n][k] == rows[k]; }
    }
  }

  function Blank(traces: seq<TraceId>): (r: seq<Item>)
    ensures |r| == |traces| && forall i | 0 <= i < |traces| :: r[i] == Item(traces[i], None, None)
  {
    seq(|traces|, i requires 0 <= i < |traces| => Item(traces[i], None, None))
  }

  function Updated(row: StoredItem, run: RunId, trace: TraceId, output: Option<string>, error: Option<string>): StoredItem {
    if row.run == run then row.(item := Record(row.item, trace, output, error)) else row
  }

  lemma {:induction false} SelectAppend(a: seq<StoredItem>, b: seq<StoredItem>, run: RunId, org: OrgId)
    ensures Select(a + b, run, org) == Select(a, run, org) + Select(b, run, org)
  {
    if a == [] {
      assert a + b == b;
    } else {
      assert (a + b)[1..] == a[1..] + b;
      SelectAppend(a[1..], b, run, org);
    }
  }

  lemma {:induction false} SelectUpdated(before: seq<StoredItem>, after: seq<StoredItem>, run: RunId, org: OrgId,
                                         changed: RunId, trace: TraceId, output: Option<string>, error: Option<string>)
    requires |after| == |before|
    requires forall j | 0 <= j < |before| :: after[j] == Updated(before[j], changed, trace, output, error)
    ensures Select(after, run, org) ==
      if run == changed then RecordAll(Select(before, run, org), trace, output, error) else Select(before, run, org)
  {
    if before != [] {
      SelectUpdated(before[1..], after[1..], run, org, changed, trace, output, error);
      SelectFirst(before, run, org);
      SelectFirst(after, run, org);
      if before[0].run == run && before[0].org == org && run == changed {
        RecordFirst(before[0].item, Select(before[1..], run, org), trace, output, error);
      }
    }
  }

  lemma SelectFirst(rows: seq<StoredItem>, run: RunId, org: OrgId)
    requires rows != []
    ensures rows[0].run == run && rows[0].org == org ==> Select(rows, run, org) == [rows[0].item] + Select(rows[1..], run, org)
    ensures !(rows[0].run == run && rows[0].org == org) ==> Select(rows, run, org) == Select(rows[1..], run, org)
  {
  }

  lemma RecordFirst(item: Item, items: seq<Item>, trace: TraceId, output: Option<string>, error: Option<string>)
    ensures RecordAll([item] + items, trace, output, error) == [Record(item, trace, output, error)] + RecordAll(items, trace, output, error)
  {
    assert ([item] + items)[1..] == items;
  }

  lemma CoveredNext(kind: Kind, rows: seq<Result>, i: nat)
    requires i < |rows|
    ensures Covered(kind, rows[..i + 1]) ==
      Covered(kind, rows[..i]) + (if Counts(kind, rows[i]) then {rows[i].trace} else {})
  {
    assert rows[..i + 1] == rows[..i] + [rows[i]];
  }
}
