/**
 Importing an agent's past runs (routes/datasets/__init__.py, `_import_agent_runs`): pages
 of a newest-first list, which may grow at the front between two pages, are read by
 offset and deduplicated against the stored examples (db_queues/postgresql/datasets.py).
 */
module AgentImport {
  import opened Wrappers
  import Text

  const IMPORT_PAGE := 200
  const IMPORT_CAP := 2000

  /** What the import reads of one run; `snapshot` is the input and output derived from its pinned spans, if there are any. */
  datatype Run = Run(isObject: bool, id: Option<string>, input: string, output: Option<string>,
                     snapshot: Option<(string, string)>)

  /** An example and the trace id its metadata names. */
  datatype Example = Example(input: string, expected: Option<string>, source: Option<string>)

  function InputOf(r: Run): string {
    if Text.Blank(r.input) && r.snapshot.Some? && !Text.Blank(r.snapshot.value.0) then r.snapshot.value.0 else r.input
  }

  function OutputOf(r: Run): Option<string> {
    if Text.Blank(r.input) && r.snapshot.Some? && r.output in {None, Some("")} && r.snapshot.value.1 != ""
    then Some(r.snapshot.value.1) else r.output
  }

  predicate HasContent(r: Run) {
    !Text.Blank(InputOf(r)) || (OutputOf(r).Some? && !Text.Blank(OutputOf(r).value))
  }

  function ExampleOf(r: Run): Example {
    Example(InputOf(r), OutputOf(r), if r.id == Some("") then None else r.id)
  }

  datatype Progress = Progress(seen: set<string>, added: seq<Example>)

  function Take(p: Progress, r: Run): Progress {
    if !r.isObject || (r.id.Some? && r.id.value in p.seen) then p else
    var seen := if r.id.Some? then p.seen + {r.id.value} else p.seen;
    Progress(seen, if HasContent(r) then p.added + [ExampleOf(r)] else p.added)
  }

  function TakeAll(p: Progress, rows: seq<Run>): Progress
    decreases |rows|
  {
    if rows == [] || |p.added| >= IMPORT_CAP then p else TakeAll(Take(p, rows[0]), rows[1..])
  }

  function Page(runs: seq<Run>, offset: nat): (rows: seq<Run>)
    ensures |rows| <= IMPORT_PAGE
  {
    var rest := if offset <= |runs| then runs[offset..] else [];
    if |rest| > IMPORT_PAGE then rest[..IMPORT_PAGE] else rest
  }

  /** `bursts` are the runs that arrive, newest first, after each page. */
  function Import(p: Progress, runs: seq<Run>, bursts: seq<seq<Run>>, offset: nat): Progress
    decreases |bursts|, if |runs| >= offset then |runs| - offset else 0
  {
    var rows := Page(runs, offset);
    if |p.added| >= IMPORT_CAP || rows == [] then p else
    var q := TakeAll(p, rows);
    if |rows| < IMPORT_PAGE then q
    else if bursts == [] then Import(q, runs, bursts, offset + IMPORT_PAGE)
    else Import(q, bursts[0] + runs, bursts[1..], offset + IMPORT_PAGE)
  }

  /******* The code *******/

  class Store {
    var examples: seq<Example>

    constructor ()
      ensures examples == []
    {
      examples := [];
    }

    /** `existing_source_trace_ids` */
    method ExistingIds() returns (ids: set<string>)
      ensures ids == Sources(examples)
    {
      ids := {};
      for i := 0 to |examples|
        invariant ids == Sources(examples[..i])
      {
        var s := examples[i].source;
        SourcesNext(examples, i);
        if s.Some? && s.value != "" {
          ids := ids + {s.value};
        }
      }
      assert examples[..|examples|] == examples;
    }

    /** `add_examples_bulk` */
    method AddBulk(owned: bool, more: seq<Example>) returns (n: nat)
      modifies this
      ensures examples == if owned then old(examples) + more else old(examples)
      ensures n == |examples| - |old(examples)|
    {
      n := 0;
      if more != [] && owned {
        examples := examples + more;
        n := |more|;
      }
    }
  }

  /** The list of an agent's runs, growing in front by one burst after each read. */
  class Feed {
    var runs: seq<Run>
    var bursts: seq<seq<Run>>

    method Fetch(offset: nat) returns (rows: seq<Run>)
      modifies this
      ensures rows == Page(old(runs), offset)
      ensures runs == if old(bursts) == [] then old(runs) else old(bursts)[0] + old(runs)
      ensures bursts == if old(bursts) == [] then [] else old(bursts)[1..]
    {
      rows := Page(runs, offset);
      if bursts != [] {
        runs, bursts := bursts[0] + runs, bursts[1..];
      }
    }
  }

  function Sources(es: seq<Example>): set<string> {
    set i | 0 <= i < |es| && es[i].source.Some? && es[i].source.value != "" :: es[i].source.value
  }

  lemma SourcesNext(es: seq<Example>, i: nat)
    requires i < |es|
    ensures var s := es[i].source;
      Sources(es[..i + 1]) == Sources(es[..i]) + (if s.Some? && s.value != "" then {s.value} else {})
  {
    var a, b := es[..i + 1], es[..i];
    assert forall k | 0 <= k < i :: a[k] == b[k];
    assert a[i] == es[i];
    forall x | x in Sources(b) ensures x in Sources(a) {
      var k :| 0 <= k < i && b[k].source == Some(x);
      assert a[k].source == Some(x);
    }
  }

  method ImportAgentRuns(store: Store, owned: bool, feed: Feed) returns (imported: nat)
    modifies store, feed
    ensures var p := Import(Progress(Sources(old(store.examples)), []), old(feed.runs), old(feed.bursts), 0);
      store.examples == if owned then old(store.examples) + p.added else old(store.examples)
    ensures imported == |store.examples| - |old(store.examples)|
  {
    var seen := store.ExistingIds();
    var toAdd: seq<Example> := [];
    var offset: nat := 0;
    var more := true;
    ghost var goal := Import(Progress(seen, []), feed.runs, feed.bursts, 0);
    while more && |toAdd| < IMPORT_CAP
      modifies feed
      invariant store.examples == old(store.examples)
      invariant goal == if more then Import(Progress(seen, toAdd), feed.runs, feed.bursts, offset) else Progress(seen, toAdd)
      decreases more, |feed.bursts|, if |feed.runs| >= offset then |feed.runs| - offset else 0
    {
      ghost var before := Progress(seen, toAdd);
      var rows := feed.Fetch(offset);
      if rows == [] {
        more := false;
      } else {
        var i := 0;
        while i < |rows| && |toAdd| < IMPORT_CAP
          invariant 0 <= i <= |rows|
          invariant TakeAll(Progress(seen, toAdd), rows[i..]) == TakeAll(before, rows)
        {
          var r := rows[i];
          assert rows[i..][1..] == rows[i + 1..];
          i := i + 1;
          if !r.isObject {
            continue;
          }
          if r.id.Some? {
            if r.id.value in seen {
              continue;
            }
            seen := seen + {r.id.value};
          }
          if !HasContent(r) {
            continue;
          }
          toAdd := toAdd + [ExampleOf(r)];
        }
        if |rows| < IMPORT_PAGE {
          more := false;
        }
        offset := offset + IMPORT_PAGE;
      }
    }
    imported := store.AddBulk(owned, toAdd);
  }

  /******* What an import finds *******/

  /** A run is the same wherever its id turns up. */
  ghost predicate Consistent(all: set<Run>) {
    forall r, s | r in all && s in all && r.id.Some? && r.id == s.id :: r == s
  }

  ghost predicate From(all: set<Run>, rows: seq<Run>) {
    forall i | 0 <= i < |rows| :: rows[i] in all
  }

  ghost predicate AllFrom(all: set<Run>, bursts: seq<seq<Run>>) {
    forall i | 0 <= i < |bursts| :: From(all, bursts[i])
  }

  ghost predicate New(stored: set<string>, r: Run) {
    r.isObject && r.id.Some? && r.id.value !in stored && HasContent(r)
  }

  /** What holds after every run: ids are remembered, what is remembered and new was added, once. */
  ghost predicate Sound(all: set<Run>, stored: set<string>, p: Progress) {
    && stored <= p.seen
    && |p.added| <= IMPORT_CAP
    && (forall r | r in all && New(stored, r) && r.id.value in p.seen :: ExampleOf(r) in p.added)
    && (forall i | 0 <= i < |p.added| && p.added[i].source.Some? ::
          p.added[i].source.value != "" && p.added[i].source.value in p.seen && p.added[i].source.value !in stored)
    && (forall i, j | 0 <= i < j < |p.added| && p.added[i].source.Some? :: p.added[i].source != p.added[j].source)
  }

  ghost predicate Visited(p: Progress, r: Run) {
    r.isObject && r.id.Some? ==> r.id.value in p.seen
  }

  lemma TakeSound(all: set<Run>, stored: set<string>, p: Progress, r: Run)
    requires Consistent(all) && r in all && Sound(all, stored, p) && |p.added| < IMPORT_CAP
    ensures Sound(all, stored, Take(p, r)) && Visited(Take(p, r), r) && p.seen <= Take(p, r).seen
  {
  }

  lemma {:induction false} TakeAllSound(all: set<Run>, stored: set<string>, p: Progress, rows: seq<Run>)
    requires Consistent(all) && From(all, rows) && Sound(all, stored, p)
    ensures var q := TakeAll(p, rows);
      Sound(all, stored, q) && p.seen <= q.seen && |p.added| <= |q.added|
      && (|q.added| < IMPORT_CAP ==> forall i | 0 <= i < |rows| :: Visited(q, rows[i]))
    decreases |rows|
  {
    if rows != [] && |p.added| < IMPORT_CAP {
      TakeSound(all, stored, p, rows[0]);
      TakeAllSound(all, stored, Take(p, rows[0]), rows[1..]);
      assert forall i | 1 <= i < |rows| :: rows[i] == rows[1..][i - 1];
    }
  }

  /** The runs the list started with are the last ones of it, and those in front of the offset have been visited. */
  ghost predicate Behind(start: seq<Run>, p: Progress, runs: seq<Run>, offset: nat) {
    && |start| <= |runs| && runs[|runs| - |start|..] == start
    && forall j | 0 <= j < |start| && j + (|runs| - |start|) < offset :: Visited(p, start[j])
  }

  lemma PageVisits(all: set<Run>, stored: set<string>, start: seq<Run>, p: Progress, runs: seq<Run>, offset: nat)
    requires Consistent(all) && From(all, runs) && Sound(all, stored, p) && Behind(start, p, runs, offset)
    ensures var q := TakeAll(p, Page(runs, offset));
      Sound(all, stored, q) && |p.added| <= |q.added|
      && (|q.added| < IMPORT_CAP ==> Behind(start, q, runs, offset + IMPORT_PAGE))
      && (|q.added| < IMPORT_CAP && |Page(runs, offset)| < IMPORT_PAGE ==> forall j | 0 <= j < |start| :: Visited(q, start[j]))
  {
    var rows := Page(runs, offset);
    TakeAllSound(all, stored, p, rows);
    var q := TakeAll(p, rows);
    if |q.added| < IMPORT_CAP {
      forall j | 0 <= j < |start| && j + (|runs| - |start|) < offset + IMPORT_PAGE ensures Visited(q, start[j]) {
        var at := j + (|runs| - |start|);
        assert runs[at] == start[j];
        if at >= offset { assert rows[at - offset] == start[j]; }
      }
    }
  }

  lemma {:induction false} ImportSound(all: set<Run>, stored: set<string>, start: seq<Run>, p: Progress,
                                       runs: seq<Run>, bursts: seq<seq<Run>>, offset: nat)
    requires Consistent(all) && From(all, runs) && AllFrom(all, bursts) && Sound(all, stored, p) && Behind(start, p, runs, offset)
    ensures var q := Import(p, runs, bursts, offset);
      Sound(all, stored, q) && (|q.added| < IMPORT_CAP ==> forall j | 0 <= j < |start| :: Visited(q, start[j]))
    decreases |bursts|, if |runs| >= offset then |runs| - offset else 0
  {
    var rows := Page(runs, offset);
    if |p.added| < IMPORT_CAP && rows != [] {
      PageVisits(all, stored, start, p, runs, offset);
      var q := TakeAll(p, rows);
      if |rows| == IMPORT_PAGE {
        if |q.added| >= IMPORT_CAP {
        } else if bursts == [] {
          ImportSound(all, stored, start, q, runs, bursts, offset + IMPORT_PAGE);
        } else {
          var grown := bursts[0] + runs;
          assert From(all, bursts[0]) && From(all, grown) && AllFrom(all, bursts[1..]);
          assert grown[|grown| - |start|..] == start;
          ImportSound(all, stored, start, q, grown, bursts[1..], offset + IMPORT_PAGE);
        }
      }
    }
  }

  predicate Worth(x: Example) {
    Text.Says(x.input) || (x.expected.Some? && Text.Says(x.expected.value))
  }

  /**
   The example is of this run: its own input and output, unless its input says nothing,
   where the pinned spans' input stands in if that says something, and their output if the
   run has none.
   */
  predicate Summarises(x: Example, r: Run) {
    && x.source == (if r.id == Some("") then None else r.id)
    && if Text.Says(r.input) || r.snapshot.None? then x.input == r.input && x.expected == r.output
       else
         && x.input == (if Text.Says(r.snapshot.value.0) then r.snapshot.value.0 else r.input)
         && x.expected == (if (r.output.None? || r.output.value == "") && r.snapshot.value.1 != "" then Some(r.snapshot.value.1) else r.output)
  }

  lemma SaysExactly(s: string)
    ensures Text.Says(s) <==> !Text.Blank(s)
  {
  }

  lemma SummarisesExactly(x: Example, r: Run)
    ensures Summarises(x, r) <==> x == ExampleOf(r)
    ensures Summarises(x, r) ==> (Worth(x) <==> HasContent(r))
  {
    SaysExactly(r.input);
    if r.snapshot.Some? { SaysExactly(r.snapshot.value.0); }
    assert r.output in {None, Some("")} <==> r.output.None? || r.output.value == "" by {
      if r.output.Some? && r.output.value == "" { assert r.output == Some(""); }
    }
    if Summarises(x, r) { assert x == ExampleOf(r); }
    WorthExactly(r);
  }

  lemma WorthExactly(r: Run)
    ensures Worth(ExampleOf(r)) <==> HasContent(r)
  {
    var x := ExampleOf(r);
    SaysExactly(x.input);
    if x.expected.Some? { SaysExactly(x.expected.value); }
  }

  /** Every example is one of a run that is worth keeping. */
  ghost predicate OfRuns(all: set<Run>, added: seq<Example>) {
    forall i | 0 <= i < |added| :: OfSome(all, added[i])
  }

  ghost predicate OfSome(all: set<Run>, x: Example) {
    Worth(x) && exists r :: r in all && r.isObject && Summarises(x, r)
  }

  lemma {:induction false} TakeAllOfRuns(all: set<Run>, p: Progress, rows: seq<Run>)
    requires From(all, rows) && OfRuns(all, p.added)
    ensures OfRuns(all, TakeAll(p, rows).added)
    decreases |rows|
  {
    if rows != [] && |p.added| < IMPORT_CAP {
      SummarisesExactly(ExampleOf(rows[0]), rows[0]);
      if HasContent(rows[0]) && rows[0].isObject { assert OfSome(all, ExampleOf(rows[0])); }
      TakeAllOfRuns(all, Take(p, rows[0]), rows[1..]);
    }
  }

  lemma {:induction false} ImportOfRuns(all: set<Run>, p: Progress, runs: seq<Run>, bursts: seq<seq<Run>>, offset: nat)
    requires From(all, runs) && AllFrom(all, bursts) && OfRuns(all, p.added)
    ensures OfRuns(all, Import(p, runs, bursts, offset).added)
    decreases |bursts|, if |runs| >= offset then |runs| - offset else 0
  {
    var rows := Page(runs, offset);
    if |p.added| < IMPORT_CAP && rows != [] {
      TakeAllOfRuns(all, p, rows);
      if |rows| == IMPORT_PAGE && bursts == [] {
        ImportOfRuns(all, TakeAll(p, rows), runs, bursts, offset + IMPORT_PAGE);
      } else if |rows| == IMPORT_PAGE {
        assert From(all, bursts[0]) && AllFrom(all, bursts[1..]);
        ImportOfRuns(all, TakeAll(p, rows), bursts[0] + runs, bursts[1..], offset + IMPORT_PAGE);
      }
    }
  }

  /** The run is an object with an id that no stored example names. */
  predicate Unknown(stored: set<string>, r: Run) {
    r.isObject && r.id.Some? && r.id.value !in stored
  }

  /**
   However the list grows in front between the pages, no run it started with is skipped:
   unless the cap is hit, the example of every one with a new id and something to say is
   imported, exactly once, and nothing stored before is imported again. Nothing else is
   imported but examples of runs.
   */
  lemma ImportFindsEveryRun(all: set<Run>, stored: set<string>, runs: seq<Run>, bursts: seq<seq<Run>>)
    requires Consistent(all) && From(all, runs) && AllFrom(all, bursts)
    ensures var p := Import(Progress(stored, []), runs, bursts, 0);
      && |p.added| <= 2000
      && (|p.added| < 2000 ==>
            forall j, x | 0 <= j < |runs| && Unknown(stored, runs[j]) && Summarises(x, runs[j]) && Worth(x) :: x in p.added)
      && (forall i | 0 <= i < |p.added| && p.added[i].source.Some? :: p.added[i].source.value !in stored)
      && (forall i, j | 0 <= i < j < |p.added| && p.added[i].source.Some? :: p.added[i].source != p.added[j].source)
      && OfRuns(all, p.added)
  {
    assert runs[|runs| - |runs|..] == runs;
    ImportSound(all, stored, runs, Progress(stored, []), runs, bursts, 0);
    ImportOfRuns(all, Progress(stored, []), runs, bursts, 0);
    var p := Import(Progress(stored, []), runs, bursts, 0);
    if |p.added| < 2000 {
      forall j, x | 0 <= j < |runs| && Unknown(stored, runs[j]) && Summarises(x, runs[j]) && Worth(x) ensures x in p.added {
        SummarisesExactly(x, runs[j]);
        assert runs[j] in all && New(stored, runs[j]);
      }
    }
  }

  /******* Importing again *******/

  /** The run adds nothing: no object, an id already known, or no content. */
  predicate Inert(seen: set<string>, r: Run) {
    !r.isObject || (r.id.Some? && r.id.value in seen) || !HasContent(r)
  }

  lemma {:induction false} TakeAllInert(p: Progress, rows: seq<Run>)
    requires forall i | 0 <= i < |rows| :: Inert(p.seen, rows[i])
    ensures TakeAll(p, rows).added == p.added && p.seen <= TakeAll(p, rows).seen
    decreases |rows|
  {
    if rows != [] && |p.added| < IMPORT_CAP { TakeAllInert(Take(p, rows[0]), rows[1..]); }
  }

  lemma {:induction false} ImportInert(p: Progress, runs: seq<Run>, offset: nat)
    requires forall i | 0 <= i < |runs| :: Inert(p.seen, runs[i])
    ensures Import(p, runs, [], offset).added == p.added
    decreases if |runs| >= offset then |runs| - offset else 0
  {
    var rows := Page(runs, offset);
    if |p.added| < IMPORT_CAP && rows != [] {
      TakeAllInert(p, rows);
      if |rows| == IMPORT_PAGE { ImportInert(TakeAll(p, rows), runs, offset + IMPORT_PAGE); }
    }
  }

  /** The run has content, and no id that an earlier run or a stored example carries. */
  predicate Fresh(seen: set<string>, runs: seq<Run>, offset: nat, i: nat)
    requires offset <= i < |runs|
  {
    && runs[i].isObject && HasContent(runs[i])
    && (runs[i].id.Some? ==> runs[i].id.value !in seen)
    && forall j | offset <= j < i && runs[i].id.Some? :: runs[j].id != runs[i].id
  }

  lemma {:induction false} TakeAllGrows(p: Progress, rows: seq<Run>, i: nat)
    requires i < |rows| && |p.added| < IMPORT_CAP && Fresh(p.seen, rows, 0, i)
    ensures |TakeAll(p, rows).added| > |p.added|
    decreases |rows|
  {
    var q := Take(p, rows[0]);
    if i > 0 && |q.added| < IMPORT_CAP {
      assert forall j | 0 <= j < i :: rows[1..][j] == rows[j + 1];
      TakeAllGrows(q, rows[1..], i - 1);
    }
    TakeAllMore(q, rows[1..]);
  }

  lemma {:induction false} TakeAllMore(p: Progress, rows: seq<Run>)
    ensures |TakeAll(p, rows).added| >= |p.added|
    ensures forall x | x in TakeAll(p, rows).seen && x !in p.seen :: exists k :: 0 <= k < |rows| && rows[k].id == Some(x)
    decreases |rows|
  {
    if rows != [] && |p.added| < IMPORT_CAP {
      var q, rest := Take(p, rows[0]), rows[1..];
      TakeAllMore(q, rest);
      forall x | x in TakeAll(q, rest).seen && x !in p.seen
        ensures exists k :: 0 <= k < |rows| && rows[k].id == Some(x)
      {
        if x in q.seen {
          assert rows[0].id == Some(x);
        } else {
          var k :| 0 <= k < |rest| && rest[k].id == Some(x);
          assert rows[k + 1].id == Some(x);
        }
      }
    }
  }

  lemma {:induction false} ImportGrows(p: Progress, runs: seq<Run>, offset: nat, i: nat)
    requires offset <= i < |runs| && |p.added| < IMPORT_CAP && Fresh(p.seen, runs, offset, i)
    ensures |Import(p, runs, [], offset).added| > |p.added|
    decreases |runs| - offset
  {
    var rows := Page(runs, offset);
    var q := TakeAll(p, rows);
    TakeAllMore(p, rows);
    assert forall k | 0 <= k < |rows| :: rows[k] == runs[offset + k];
    if i - offset < |rows| {
      TakeAllGrows(p, rows, i - offset);
      if |rows| == IMPORT_PAGE { ImportMore(q, runs, offset + IMPORT_PAGE); }
    } else if |q.added| < IMPORT_CAP {
      ImportGrows(q, runs, offset + IMPORT_PAGE, i);
    }
  }

  lemma {:induction false} ImportMore(p: Progress, runs: seq<Run>, offset: nat)
    ensures |Import(p, runs, [], offset).added| >= |p.added|
    decreases if |runs| >= offset then |runs| - offset else 0
  {
    var rows := Page(runs, offset);
    if |p.added| < IMPORT_CAP && rows != [] {
      TakeAllMore(p, rows);
      if |rows| == IMPORT_PAGE { ImportMore(TakeAll(p, rows), runs, offset + IMPORT_PAGE); }
    }
  }

  predicate HasId(r: Run) {
    r.id.Some? && r.id.value != ""
  }

  lemma {:induction false} FirstOfItsId(runs: seq<Run>, i: nat) returns (k: nat)
    requires i < |runs|
    ensures k <= i && runs[k].id == runs[i].id && forall j | 0 <= j < k :: runs[j].id != runs[k].id
  {
    if j :| 0 <= j < i && runs[j].id == runs[i].id { k := FirstOfItsId(runs, j); } else { k := i; }
  }

  /**
   Importing the same list again, after an import that met no cap, adds nothing exactly
   when no run with content lacks an id: such a run is imported every time.
   */
  lemma ImportingAgain(all: set<Run>, before: seq<Example>, runs: seq<Run>)
    requires Consistent(all) && From(all, runs)
    requires |Import(Progress(Sources(before), []), runs, [], 0).added| < IMPORT_CAP
    ensures (var added := Import(Progress(Sources(before), []), runs, [], 0).added;
             Import(Progress(Sources(before + added), []), runs, [], 0).added == [])
      <==> forall i | 0 <= i < |runs| && runs[i].isObject && HasContent(runs[i]) :: HasId(runs[i])
  {
    var stored := Sources(before);
    var added := Import(Progress(stored, []), runs, [], 0).added;
    var now := Sources(before + added);
    ImportFindsEveryRun(all, stored, runs, []);
    if forall i | 0 <= i < |runs| && runs[i].isObject && HasContent(runs[i]) :: HasId(runs[i]) {
      forall i | 0 <= i < |runs| ensures Inert(now, runs[i]) {
        if runs[i].isObject && HasContent(runs[i]) { Stored(before, added, runs[i]); }
      }
      ImportInert(Progress(now, []), runs, 0);
    } else {
      var i :| 0 <= i < |runs| && runs[i].isObject && HasContent(runs[i]) && !HasId(runs[i]);
      if runs[i].id.Some? { i := FirstOfItsId(runs, i); }
      ImportGrows(Progress(now, []), runs, 0, i);
    }
  }

  lemma Stored(before: seq<Example>, added: seq<Example>, r: Run)
    requires r.id.Some? && r.id.value != "" && (New(Sources(before), r) ==> ExampleOf(r) in added) && r.isObject && HasContent(r)
    ensures r.id.value in Sources(before + added)
  {
    var es := before + added;
    if r.id.value in Sources(before) {
      var k :| 0 <= k < |before| && before[k].source == Some(r.id.value);
      assert es[k].source == r.id;
    } else {
      var k :| 0 <= k < |added| && added[k] == ExampleOf(r);
      assert es[|before| + k].source == r.id;
    }
  }
}
