/**
 What a comparison report says, in the fields of the two runs' items and rows
 (routes/datasets/__init__.py:1486-1608).
 */
module ComparisonReport {
  import opened Wrappers
  import opened RunComparison
  import R = Relations

  /******* Which rows are an example's *******/

  /** The last trial of an example. */
  ghost predicate LastTrial(items: seq<Item>, id: string, i: nat) {
    i < |items| && items[i].example == id && forall j | i < j < |items| :: items[j].example != id
  }

  lemma LastTrialNext(items: seq<Item>, id: string, i: nat)
    requires items != []
    ensures (var n := |items| - 1;
             LastTrial(items, id, i) <==> if items[n].example == id then i == n else i < n && LastTrial(items[..n], id, i))
  {
    var n := |items| - 1;
    assert forall j | 0 <= j < n :: items[..n][j] == items[j];
  }

  /** Of several trials of an example, the last counts. */
  lemma {:induction false} LastTrialCounts(items: seq<Item>, id: string, i: nat)
    ensures LastTrial(items, id, i) ==> id in TraceOf(items) && TraceOf(items)[id] == items[i].trace
  {
    if items != [] {
      LastTrialNext(items, id, i);
      LastTrialCounts(items[..|items| - 1], id, i);
    }
  }

  lemma {:induction false} TrialOf(items: seq<Item>, id: string) returns (i: nat)
    requires id in TraceOf(items)
    ensures LastTrial(items, id, i)
  {
    var n := |items| - 1;
    i := n;
    if items[n].example != id {
      i := TrialOf(items[..n], id);
      LastTrialNext(items, id, i);
    }
  }

  /** The rows of a trace, each as often as it is there, in their order. */
  lemma {:induction false} RowsOfTrace(rows: seq<Row>, trace: string)
    ensures forall r :: multiset(RowsOf(rows, trace))[r] == if r.trace == trace then multiset(rows)[r] else 0
  {
    if rows != [] {
      var n := |rows| - 1;
      RowsOfTrace(rows[..n], trace);
      assert rows == rows[..n] + [rows[n]];
    }
  }

  /******* The scores of an example, from its rows *******/

  /** The last row of its layer that has a score. */
  ghost predicate LastOfLayer(rows: seq<Row>, i: nat) {
    && i < |rows| && rows[i].layer != "" && rows[i].score.Some?
    && forall j | i < j < |rows| :: !(rows[j].layer == rows[i].layer && rows[j].score.Some?)
  }

  /** The last deterministic row that has a run score. */
  ghost predicate LastRunScore(rows: seq<Row>, i: nat) {
    && i < |rows| && rows[i].layer == "deterministic" && rows[i].runScore.Some?
    && forall j | i < j < |rows| :: !(rows[j].layer == "deterministic" && rows[j].runScore.Some?)
  }

  lemma {:induction false} LayersExactly(rows: seq<Row>, name: string)
    ensures name in LayerScores(rows) <==> exists i: nat :: LastOfLayer(rows, i) && rows[i].layer == name
    ensures forall i: nat | LastOfLayer(rows, i) && rows[i].layer == name :: LayerScores(rows)[name] == rows[i].score.value
  {
    if rows != [] {
      var n := |rows| - 1;
      var before, r := rows[..n], rows[n];
      LayersExactly(before, name);
      if r.layer == name && r.layer != "" && r.score.Some? {
        assert LastOfLayer(rows, n);
      } else {
        forall i: nat | i < n && rows[i].layer == name ensures LastOfLayer(rows, i) <==> LastOfLayer(before, i) {
          assert forall j | 0 <= j < n :: before[j] == rows[j];
        }
        if i: nat :| LastOfLayer(before, i) && before[i].layer == name { assert LastOfLayer(rows, i); }
      }
    }
  }

  /** The last evaluation of its metric that has a score. */
  ghost predicate LastOfMetric(rows: seq<Row>, i: nat) {
    && i < |rows| && rows[i].evaluator == "fluiq.eval" && rows[i].score.Some?
    && forall j | i < j < |rows| :: !(rows[j].evaluator == "fluiq.eval" && rows[j].metric == rows[i].metric && rows[j].score.Some?)
  }

  lemma {:induction false} MetricsExactly(rows: seq<Row>, name: string)
    ensures name in MetricScores(rows).0 <==> exists i: nat :: LastOfMetric(rows, i) && rows[i].metric == name
    ensures forall i: nat | LastOfMetric(rows, i) && rows[i].metric == name :: MetricScores(rows).0[name] == rows[i].score.value
  {
    if rows != [] {
      var n := |rows| - 1;
      var before, r := rows[..n], rows[n];
      MetricsExactly(before, name);
      if r.metric == name && r.evaluator == "fluiq.eval" && r.score.Some? {
        assert LastOfMetric(rows, n);
      } else {
        forall i: nat | i < n && rows[i].metric == name ensures LastOfMetric(rows, i) <==> LastOfMetric(before, i) {
          assert forall j | 0 <= j < n :: before[j] == rows[j];
        }
        if i: nat :| LastOfMetric(before, i) && before[i].metric == name { assert LastOfMetric(rows, i); }
      }
    }
  }

  /** What is reported for each layer, or for each metric: its last score. */
  lemma ScoresExactly(kind: Kind, rows: seq<Row>, name: string)
    ensures (var per := ScoresOf(kind, rows).per;
             if kind == Agentic then
               && (name in per <==> exists i: nat :: LastOfLayer(rows, i) && rows[i].layer == name)
               && forall i: nat | LastOfLayer(rows, i) && rows[i].layer == name :: per[name] == rows[i].score.value
             else
               && (name in per <==> exists i: nat :: LastOfMetric(rows, i) && rows[i].metric == name)
               && forall i: nat | LastOfMetric(rows, i) && rows[i].metric == name :: per[name] == rows[i].score.value)
  {
    LayersExactly(rows, name);
    MetricsExactly(rows, name);
  }

  lemma {:induction false} RunScoreExactly(rows: seq<Row>)
    ensures RunScore(rows).Some? <==> exists i: nat :: LastRunScore(rows, i)
    ensures forall i: nat | LastRunScore(rows, i) :: RunScore(rows) == rows[i].runScore
  {
    if rows != [] {
      var n := |rows| - 1;
      var before, r := rows[..n], rows[n];
      RunScoreExactly(before);
      if r.layer == "deterministic" && r.runScore.Some? {
        assert LastRunScore(rows, n);
      } else {
        forall i: nat | i < n ensures LastRunScore(rows, i) <==> LastRunScore(before, i) {
          assert forall j | 0 <= j < n :: before[j] == rows[j];
        }
        if i: nat :| LastRunScore(before, i) { assert LastRunScore(rows, i); }
      }
    }
  }

  /** An agentic example: the run score of the last deterministic row that has one, or else the least of the layers' last scores. */
  lemma AgenticOverall(rows: seq<Row>)
    ensures (var overall := ScoresOf(Agentic, rows).overall;
             && (forall i: nat | LastRunScore(rows, i) :: overall == rows[i].runScore)
             && ((forall i: nat :: !LastRunScore(rows, i)) ==>
                   && (overall.None? <==> forall i: nat :: !LastOfLayer(rows, i))
                   && (overall.Some? ==> exists i: nat :: LastOfLayer(rows, i) && rows[i].score == overall)
                   && (overall.Some? ==> forall i: nat | LastOfLayer(rows, i) :: overall.value <= rows[i].score.value)))
  {
    RunScoreExactly(rows);
    var per := LayerScores(rows);
    if RunScore(rows).None? {
      forall i: nat | LastOfLayer(rows, i) ensures rows[i].layer in per && per[rows[i].layer] == rows[i].score.value {
        LayersExactly(rows, rows[i].layer);
      }
      if per != map[] {
        var k :| k in per && per[k] == Least(per);
        LayersExactly(rows, k);
        var i: nat :| LastOfLayer(rows, i) && rows[i].layer == k;
        assert rows[i].score == Some(Least(per));
      }
    }
  }

  /** The scores of the evaluation rows. */
  function EvalScores(rows: seq<Row>): seq<real> {
    if rows == [] then [] else
    (if rows[0].evaluator == "fluiq.eval" && rows[0].score.Some? then [rows[0].score.value] else []) + EvalScores(rows[1..])
  }

  function Sum(xs: seq<real>): real {
    if xs == [] then 0.0 else Sum(xs[..|xs| - 1]) + xs[|xs| - 1]
  }

  lemma {:induction false} EvalScoresNext(rows: seq<Row>)
    requires rows != []
    ensures (var n := |rows| - 1;
             EvalScores(rows) == EvalScores(rows[..n])
               + (if rows[n].evaluator == "fluiq.eval" && rows[n].score.Some? then [rows[n].score.value] else []))
  {
    if |rows| > 1 {
      EvalScoresNext(rows[1..]);
      assert rows[1..][..|rows| - 2] == rows[..|rows| - 1][1..];
    } else {
      assert rows[1..] == [] && rows[..0] == [];
    }
  }

  /** A metrics example: the mean of its evaluations' scores. */
  lemma {:induction false} MetricsTotals(rows: seq<Row>)
    ensures (var (_, total, n) := MetricScores(rows); total == Sum(EvalScores(rows)) && n == |EvalScores(rows)|)
  {
    if rows != [] {
      var n := |rows| - 1;
      MetricsTotals(rows[..n]);
      EvalScoresNext(rows);
      var before := EvalScores(rows[..n]);
      if EvalScores(rows) != before { assert EvalScores(rows)[..|before|] == before; }
    }
  }

  lemma MetricsOverall(rows: seq<Row>)
    ensures ScoresOf(Metrics, rows).overall
         == (var xs := EvalScores(rows); if xs == [] then None else Some(Sum(xs) / |xs| as real))
  {
    MetricsTotals(rows);
  }

  /******* Labels and counts *******/

  /** What an entry says of an example that both runs have. */
  ghost predicate WellLabelled(e: Entry) {
    var a, b := e.scores.overall, e.baseline.overall;
    && (e.status == Pending <==> a == None || b == None)
    && (e.status == Regressed <==> a.Some? && b.Some? && b.value - a.value > 0.05)
    && (e.status == Improved <==> a.Some? && b.Some? && a.value - b.value > 0.05)
    && (e.status == Unchanged <==> a.Some? && b.Some? && -0.05 <= a.value - b.value <= 0.05)
    && e.status != Added
  }

  function StatusesOf(es: seq<Entry>): seq<Status> {
    seq(|es|, i requires 0 <= i < |es| => es[i].status)
  }

  /** Regressions, then improvements, then the others; of two with the same label, first the one that fell further or rose less. */
  ghost predicate WorstFirst(es: seq<Entry>) {
    forall i, j | 0 <= i < j < |es| ::
      var d, e := es[i], es[j];
      && (e.status == Regressed ==> d.status == Regressed)
      && (e.status == Improved ==> d.status in {Regressed, Improved})
      && (e.status == Unchanged ==> d.status in {Regressed, Improved, Unchanged})
      && (e.status == Added ==> d.status != Pending)
      && (d.status == e.status && d.scores.overall.Some? && d.baseline.overall.Some? && e.scores.overall.Some? && e.baseline.overall.Some? ==>
            d.scores.overall.value - d.baseline.overall.value <= e.scores.overall.value - e.baseline.overall.value)
  }

  lemma {:induction false} StatusesPermuted(xs: seq<Entry>, ys: seq<Entry>)
    requires multiset(xs) == multiset(ys)
    ensures multiset(StatusesOf(xs)) == multiset(StatusesOf(ys))
  {
    if xs == [] {
      assert |multiset(ys)| == 0;
    } else {
      var n := |xs| - 1;
      assert xs[n] in multiset(ys);
      var i :| 0 <= i < |ys| && ys[i] == xs[n];
      Without(xs, n);
      Without(ys, i);
      assert xs[..n] + xs[n + 1..] == xs[..n];
      StatusesPermuted(xs[..n], ys[..i] + ys[i + 1..]);
      StatusesWithout(xs, n);
      StatusesWithout(ys, i);
    }
  }

  lemma Without(ys: seq<Entry>, i: nat)
    requires i < |ys|
    ensures multiset(ys[..i] + ys[i + 1..]) == multiset(ys) - multiset{ys[i]}
  {
    assert ys == ys[..i] + [ys[i]] + ys[i + 1..];
  }

  lemma StatusesWithout(ys: seq<Entry>, i: nat)
    requires i < |ys|
    ensures multiset(StatusesOf(ys)) == multiset(StatusesOf(ys[..i] + ys[i + 1..])) + multiset{ys[i].status}
  {
    var ss := StatusesOf(ys);
    assert StatusesOf(ys[..i] + ys[i + 1..]) == ss[..i] + ss[i + 1..];
    assert ss == ss[..i] + [ss[i]] + ss[i + 1..];
  }

  lemma StatusesNext(kind: Kind, a: Run, b: Run, ids: seq<string>, id: string)
    requires (forall x | x in ids :: x in Examples(a)) && id in Examples(a)
    ensures StatusesOf(Entries(kind, a, b, ids + [id])) == StatusesOf(Entries(kind, a, b, ids)) + [StatusIn(kind, a, b, id)]
  {
    EntriesNext(kind, a, b, ids, id);
  }

  lemma {:induction false} StatusesCounted(kind: Kind, a: Run, b: Run, ids: seq<string>, s: Status)
    requires (forall id | id in ids :: id in Examples(a)) && forall i, j | 0 <= i < j < |ids| :: ids[i] != ids[j]
    ensures multiset(StatusesOf(Entries(kind, a, b, ids)))[s] == |LabelledIn(kind, a, b, ids, s)|
  {
    if ids == [] {
      assert LabelledIn(kind, a, b, ids, s) == {};
    } else {
      var rest, id := ids[..|ids| - 1], ids[|ids| - 1];
      assert ids == rest + [id];
      StatusesCounted(kind, a, b, rest, s);
      StatusesNext(kind, a, b, rest, id);
      if s == StatusIn(kind, a, b, id) { LabelledHit(kind, a, b, rest, id); } else { LabelledMiss(kind, a, b, rest, id, s); }
    }
  }

  /** The items of a run have a trial of the example. */
  ghost predicate HasExample(r: Run, id: string) {
    exists i :: 0 <= i < |r.items| && r.items[i].example == id
  }

  lemma HasExampleExactly(r: Run, id: string)
    ensures id in Examples(r) <==> HasExample(r, id)
  {
    if id in Examples(r) { var i := TrialOf(r.items, id); }
    if HasExample(r, id) {
      var i :| 0 <= i < |r.items| && r.items[i].example == id;
      var last := FindLast(r.items, id, i);
      LastTrialCounts(r.items, id, last);
    }
  }

  lemma FindLast(items: seq<Item>, id: string, i: nat) returns (last: nat)
    requires i < |items| && items[i].example == id
    ensures LastTrial(items, id, last)
    decreases |items| - i
  {
    last := i;
    if j :| i < j < |items| && items[j].example == id { last := FindLast(items, id, j); }
  }

  lemma LabelExactly(e: Entry)
    requires e.status == Label(e.scores.overall, e.baseline.overall)
    ensures WellLabelled(e)
  {
  }

  /** Each entry is labelled by its own two scores, and is an addition exactly if the baseline lacks the example. */
  lemma EveryEntryIsWellLabelled(kind: Kind, a: Run, b: Run, r: Report, e: Entry)
    requires IsComparison(kind, a, b, r) && e in r.examples
    ensures HasExample(a, e.example)
    ensures if HasExample(b, e.example) then WellLabelled(e) else e.status == Added && e.baseline == Scores(None, map[])
  {
    EntryIsOf(kind, a, b, r, e);
    HasExampleExactly(a, e.example);
    HasExampleExactly(b, e.example);
    if HasExample(b, e.example) { LabelExactly(e); }
  }

  lemma EntryIsOf(kind: Kind, a: Run, b: Run, r: Report, e: Entry)
    requires IsComparison(kind, a, b, r) && e in r.examples
    ensures e.example in Examples(a) && e == EntryOf(kind, a, b, e.example)
  {
    ReportsEveryExampleOnce(kind, a, b, r);
  }

  /** An entry's scores are those of the rows of the last trial's trace. */
  lemma EntryScores(kind: Kind, a: Run, b: Run, r: Report, e: Entry, i: nat, j: nat)
    requires IsComparison(kind, a, b, r) && e in r.examples
    requires LastTrial(a.items, e.example, i)
    ensures e.scores == ScoresOf(kind, RowsOf(a.rows, a.items[i].trace))
    ensures LastTrial(b.items, e.example, j) ==> e.baseline == ScoresOf(kind, RowsOf(b.rows, b.items[j].trace))
  {
    EntryIsOf(kind, a, b, r, e);
    LastTrialCounts(a.items, e.example, i);
    LastTrialCounts(b.items, e.example, j);
  }

  lemma SortedIsWorstFirst(es: seq<Entry>)
    requires R.Sorted(ComesFirst, es)
    ensures WorstFirst(es)
  {
    forall i, j | 0 <= i < j < |es| ensures ComesFirst(es[i], es[j]) {
    }
  }

  /** The counts are the numbers of entries with that label, and the order is worst first. */
  lemma CountsAreEntries(kind: Kind, a: Run, b: Run, r: Report)
    requires IsComparison(kind, a, b, r)
    ensures (var labels := multiset(StatusesOf(r.examples));
             && r.counts.regressed == labels[Regressed] && r.counts.improved == labels[Improved]
             && r.counts.level == labels[Unchanged] && r.counts.added == labels[Added])
    ensures WorstFirst(r.examples)
  {
    ReportsEveryExampleOnce(kind, a, b, r);
    SortedIsWorstFirst(r.examples);
    var es := Entries(kind, a, b, Order(a.items));
    SortsEntries(es);
    StatusesPermuted(r.examples, es);
    LabelledAreCounted(kind, a, b, Regressed);
    LabelledAreCounted(kind, a, b, Improved);
    LabelledAreCounted(kind, a, b, Unchanged);
    LabelledAreCounted(kind, a, b, Added);
  }

  lemma LabelledAreCounted(kind: Kind, a: Run, b: Run, s: Status)
    ensures multiset(StatusesOf(Entries(kind, a, b, Order(a.items))))[s] == |Labelled(kind, a, b, s)|
  {
    StatusesCounted(kind, a, b, Order(a.items), s);
    assert LabelledIn(kind, a, b, Order(a.items), s) == Labelled(kind, a, b, s);
  }

  /** The missing ones are the baseline's examples that the run lacks. */
  lemma MissingExactly(kind: Kind, a: Run, b: Run, r: Report, missing: set<string>)
    requires IsComparison(kind, a, b, r) && forall id :: id in missing <==> HasExample(b, id) && !HasExample(a, id)
    ensures r.counts.missing == |missing|
  {
    forall id ensures id in missing <==> id in Examples(b) - Examples(a) {
      HasExampleExactly(a, id);
      HasExampleExactly(b, id);
    }
    assert missing == Examples(b) - Examples(a);
  }

  /******* Averages *******/

  lemma {:induction false} TotalAtLeast(ids: set<string>, f: map<string, real>, low: real)
    requires ids <= f.Keys && forall id | id in ids :: low <= f[id]
    ensures Times(low, |ids|) <= Total(ids, f)
    decreases |ids|
  {
    if ids != {} {
      var id :| id in ids;
      var rest := ids - {id};
      assert rest + {id} == ids;
      TotalAtLeast(rest, f, low);
      TotalPlus(rest, id, f);
    }
  }

  lemma {:induction false} TotalAtMost(ids: set<string>, f: map<string, real>, high: real)
    requires ids <= f.Keys && forall id | id in ids :: f[id] <= high
    ensures Total(ids, f) <= Times(high, |ids|)
    decreases |ids|
  {
    if ids != {} {
      var id :| id in ids;
      var rest := ids - {id};
      assert rest + {id} == ids;
      TotalAtMost(rest, f, high);
      TotalPlus(rest, id, f);
    }
  }

  function Times(x: real, n: nat): real {
    if n == 0 then 0.0 else Times(x, n - 1) + x
  }

  lemma {:induction false} TimesIsProduct(x: real, n: nat)
    ensures Times(x, n) == x * n as real
  {
    if n > 0 {
      TimesIsProduct(x, n - 1);
      OneMore(x, (n - 1) as real);
      assert n as real == (n - 1) as real + 1.0;
    }
  }

  lemma OneMore(x: real, k: real)
    ensures x * (k + 1.0) == x * k + x
  {
  }

  lemma MeanAtLeast(total: real, n: nat, low: real)
    requires n > 0 && Times(low, n) <= total
    ensures low <= total / n as real
  {
    TimesIsProduct(low, n);
  }

  lemma MeanAtMost(total: real, n: nat, high: real)
    requires n > 0 && total <= Times(high, n)
    ensures total / n as real <= high
  {
    TimesIsProduct(high, n);
  }

  lemma MovementBounds(f: map<string, real>, g: map<string, real>, low: real, high: real)
    requires f.Keys * g.Keys != {}
    ensures (forall id | id in f && id in g :: low <= f[id] <= high) ==> low <= MovementOf(f, g).avg <= high
    ensures (forall id | id in f && id in g :: low <= g[id] <= high) ==> low <= MovementOf(f, g).baseline <= high
  {
    var both := f.Keys * g.Keys;
    if forall id | id in f && id in g :: low <= f[id] <= high {
      TotalAtLeast(both, f, low);
      TotalAtMost(both, f, high);
      MeanAtLeast(Total(both, f), |both|, low);
      MeanAtMost(Total(both, f), |both|, high);
    }
    if forall id | id in f && id in g :: low <= g[id] <= high {
      TotalAtLeast(both, g, low);
      TotalAtMost(both, g, high);
      MeanAtLeast(Total(both, g), |both|, low);
      MeanAtMost(Total(both, g), |both|, high);
    }
  }

  /** A metric's averages lie between the scores that the respective run gave the common examples. */
  lemma AveragesLieBetween(kind: Kind, a: Run, b: Run, r: Report, name: string, low: real, high: real)
    requires IsComparison(kind, a, b, r) && name in r.metrics
    ensures (forall id | Scored(kind, a, id, name) && Scored(kind, b, id, name) :: low <= ScoresIn(kind, a, id).per[name] <= high)
              ==> low <= r.metrics[name].avg <= high
    ensures (forall id | Scored(kind, a, id, name) && Scored(kind, b, id, name) :: low <= ScoresIn(kind, b, id).per[name] <= high)
              ==> low <= r.metrics[name].baseline <= high
  {
    var f, g := MetricOf(kind, a)(name), MetricOf(kind, b)(name);
    assert Moves(r.metrics, name, f, g);
    MetricExactly(kind, a, name);
    MetricExactly(kind, b, name);
    MovementBounds(f, g, low, high);
  }

  ghost predicate Scored(kind: Kind, r: Run, id: string, name: string) {
    id in Examples(r) && name in ScoresIn(kind, r, id).per
  }

  lemma MetricExactly(kind: Kind, r: Run, name: string)
    ensures forall id :: id in MetricOf(kind, r)(name) <==> Scored(kind, r, id, name)
    ensures forall id | Scored(kind, r, id, name) :: MetricOf(kind, r)(name)[id] == ScoresIn(kind, r, id).per[name]
  {
  }
}
