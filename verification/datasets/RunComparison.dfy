/**
 Comparing a dataset run with a baseline run (routes/datasets/__init__.py,
 `compare_dataset_runs`): every example is labelled, every metric averaged over the
 examples that both runs scored. Scores are reals and nothing is rounded.
 */
module RunComparison {
  import opened Wrappers
  import R = Relations

  const EPSILON := 0.05

  datatype Kind = Agentic | Metrics

  datatype Item = Item(example: string, trace: string)

  /** One stored evaluation result; "" stands for a missing layer. */
  datatype Row = Row(trace: string, evaluator: string, layer: string, metric: string, score: Option<real>, runScore: Option<real>)

  /** What is read of one run: its items and the results of their traces. */
  datatype Run = Run(items: seq<Item>, rows: seq<Row>)

  datatype Scores = Scores(overall: Option<real>, per: map<string, real>)

  datatype Status = Regressed | Improved | Unchanged | Added | Pending

  datatype Entry = Entry(example: string, scores: Scores, baseline: Scores, status: Status)

  datatype Counts = Counts(regressed: nat, improved: nat, level: nat, added: nat, missing: nat)

  datatype Movement = Movement(avg: real, baseline: real, delta: real)

  datatype Report = Report(examples: seq<Entry>, counts: Counts, metrics: map<string, Movement>)

  /******* The scores of one example *******/

  function LayerScores(rows: seq<Row>): map<string, real> {
    if rows == [] then map[] else
    var r, m := rows[|rows| - 1], LayerScores(rows[..|rows| - 1]);
    if r.layer != "" && r.score.Some? then m[r.layer := r.score.value] else m
  }

  function RunScore(rows: seq<Row>): Option<real> {
    if rows == [] then None else
    var r := rows[|rows| - 1];
    if r.layer == "deterministic" && r.runScore.Some? then r.runScore else RunScore(rows[..|rows| - 1])
  }

  /** The metric scores, their sum and their number. */
  function MetricScores(rows: seq<Row>): (map<string, real>, real, nat) {
    if rows == [] then (map[], 0.0, 0) else
    var r, (per, total, n) := rows[|rows| - 1], MetricScores(rows[..|rows| - 1]);
    if r.evaluator == "fluiq.eval" && r.score.Some? then (per[r.metric := r.score.value], total + r.score.value, n + 1)
    else (per, total, n)
  }

  ghost function Least(m: map<string, real>): (least: real)
    requires m != map[]
    ensures (exists k :: k in m && m[k] == least) && forall k | k in m :: least <= m[k]
    decreases |m|
  {
    var k :| k in m;
    var rest := m - {k};
    assert m.Keys == rest.Keys + {k} && k !in rest;
    if rest == map[] then
      m[k]
    else
      if m[k] <= Least(rest) then m[k] else Least(rest)
  }

  ghost function ScoresOf(kind: Kind, rows: seq<Row>): Scores {
    if kind == Agentic then
      var per := LayerScores(rows);
      Scores(if RunScore(rows).Some? then RunScore(rows) else if per != map[] then Some(Least(per)) else None, per)
    else
      var (per, total, n) := MetricScores(rows);
      Scores(if n > 0 then Some(total / n as real) else None, per)
  }

  method LeastValue(m: map<string, real>) returns (least: real)
    requires m != map[]
    ensures least == Least(m)
  {
    var keys := m.Keys;
    var k :| k in keys;
    least, keys := m[k], keys - {k};
    while keys != {}
      invariant keys <= m.Keys
      invariant exists k :: k in m && m[k] == least
      invariant forall k | k in m && k !in keys :: least <= m[k]
    {
      k :| k in keys;
      if m[k] < least {
        least := m[k];
      }
      keys := keys - {k};
    }
  }

  /** `_example_scores` */
  method ExampleScores(kind: Kind, rows: seq<Row>) returns (s: Scores)
    ensures s == ScoresOf(kind, rows)
  {
    var per: map<string, real> := map[];
    var overall: Option<real> := None;
    if kind == Agentic {
      for i := 0 to |rows|
        invariant per == LayerScores(rows[..i]) && overall == RunScore(rows[..i])
      {
        assert rows[..i + 1][..i] == rows[..i];
        if rows[i].layer != "" && rows[i].score.Some? {
          per := per[rows[i].layer := rows[i].score.value];
        }
        if rows[i].layer == "deterministic" && rows[i].runScore.Some? {
          overall := rows[i].runScore;
        }
      }
      assert rows[..|rows|] == rows;
      if overall == None && per != map[] {
        var least := LeastValue(per);
        overall := Some(least);
      }
    } else {
      var total, n := 0.0, 0;
      for i := 0 to |rows|
        invariant (per, total, n) == MetricScores(rows[..i])
      {
        assert rows[..i + 1][..i] == rows[..i];
        if rows[i].evaluator == "fluiq.eval" && rows[i].score.Some? {
          per, total, n := per[rows[i].metric := rows[i].score.value], total + rows[i].score.value, n + 1;
        }
      }
      assert rows[..|rows|] == rows;
      if n > 0 {
        overall := Some(total / n as real);
      }
    }
    s := Scores(overall, per);
  }

  /******* The two sides *******/

  function RowsOf(rows: seq<Row>, trace: string): seq<Row> {
    if rows == [] then [] else
    RowsOf(rows[..|rows| - 1], trace) + (if rows[|rows| - 1].trace == trace then [rows[|rows| - 1]] else [])
  }

  function Get(m: map<string, seq<Row>>, trace: string): seq<Row> {
    if trace in m then m[trace] else []
  }

  method ByTrace(rows: seq<Row>) returns (m: map<string, seq<Row>>)
    ensures forall t :: Get(m, t) == RowsOf(rows, t)
  {
    m := map[];
    for i := 0 to |rows|
      invariant forall t :: Get(m, t) == RowsOf(rows[..i], t)
    {
      assert rows[..i + 1][..i] == rows[..i];
      m := m[rows[i].trace := Get(m, rows[i].trace) + [rows[i]]];
    }
    assert rows[..|rows|] == rows;
  }

  /** The examples of a run in the order in which a dictionary keeps them. */
  function Order(items: seq<Item>): (ids: seq<string>)
    ensures forall i, j | 0 <= i < j < |ids| :: ids[i] != ids[j]
  {
    if items == [] then [] else
    var rest, id := Order(items[..|items| - 1]), items[|items| - 1].example;
    if id in rest then rest else rest + [id]
  }

  /** The trace of each example: of several trials, the last. */
  function TraceOf(items: seq<Item>): (traces: map<string, string>)
    ensures forall id :: id in traces <==> id in Order(items)
  {
    if items == [] then map[] else
    var rest, it := TraceOf(items[..|items| - 1]), items[|items| - 1];
    rest[it.example := it.trace]
  }

  method ByExample(items: seq<Item>) returns (ids: seq<string>, traces: map<string, string>)
    ensures ids == Order(items) && traces == TraceOf(items)
  {
    ids, traces := [], map[];
    for i := 0 to |items|
      invariant ids == Order(items[..i]) && traces == TraceOf(items[..i])
    {
      assert items[..i + 1][..i] == items[..i];
      if items[i].example !in traces {
        ids := ids + [items[i].example];
      }
      traces := traces[items[i].example := items[i].trace];
    }
    assert items[..|items|] == items;
  }

  ghost function Examples(r: Run): set<string> {
    TraceOf(r.items).Keys
  }

  ghost function ScoresIn(kind: Kind, r: Run, id: string): Scores
    requires id in Examples(r)
  {
    ScoresOf(kind, RowsOf(r.rows, TraceOf(r.items)[id]))
  }

  /******* Labels *******/

  function Label(a: Option<real>, b: Option<real>): Status {
    if a.None? || b.None? then Pending
    else if a.value < b.value - EPSILON then Regressed
    else if a.value > b.value + EPSILON then Improved
    else Unchanged
  }

  ghost function StatusIn(kind: Kind, a: Run, b: Run, id: string): Status
    requires id in Examples(a)
  {
    if id !in Examples(b) then Added else Label(ScoresIn(kind, a, id).overall, ScoresIn(kind, b, id).overall)
  }

  ghost function Labelled(kind: Kind, a: Run, b: Run, s: Status): set<string> {
    set id | id in Examples(a) && StatusIn(kind, a, b, id) == s
  }

  ghost function EntryOf(kind: Kind, a: Run, b: Run, id: string): Entry
    requires id in Examples(a)
  {
    Entry(id, ScoresIn(kind, a, id), if id in Examples(b) then ScoresIn(kind, b, id) else Scores(None, map[]),
          StatusIn(kind, a, b, id))
  }

  ghost function Entries(kind: Kind, a: Run, b: Run, ids: seq<string>): (es: seq<Entry>)
    requires forall id | id in ids :: id in Examples(a)
  {
    if ids == [] then [] else Entries(kind, a, b, ids[..|ids| - 1]) + [EntryOf(kind, a, b, ids[|ids| - 1])]
  }

  function Rank(s: Status): nat {
    match s case Regressed => 0 case Improved => 1 case Unchanged => 2 case Added => 3 case Pending => 4
  }

  function Delta(e: Entry): real {
    if e.scores.overall.Some? && e.baseline.overall.Some? then e.scores.overall.value - e.baseline.overall.value else 0.0
  }

  /** The report's order: regressions first, the biggest drop on top. */
  predicate ComesFirst(d: Entry, e: Entry) {
    Rank(d.status) < Rank(e.status) || (d.status == e.status && Delta(d) <= Delta(e))
  }

  /******* Metrics *******/

  ghost function Total(ids: set<string>, f: map<string, real>): real
    requires ids <= f.Keys
    decreases |ids|
  {
    if ids == {} then 0.0 else
    var id :| id in ids;
    f[id] + Total(ids - {id}, f)
  }

  lemma {:induction false} TotalPlus(ids: set<string>, id: string, f: map<string, real>)
    requires id !in ids && ids + {id} <= f.Keys
    ensures Total(ids + {id}, f) == Total(ids, f) + f[id]
    decreases |ids|
  {
    var all := ids + {id};
    var x :| x in all && Total(all, f) == f[x] + Total(all - {x}, f);
    if x == id {
      assert all - {x} == ids;
    } else {
      assert all - {x} == (ids - {x}) + {id};
      TotalPlus(ids - {x}, id, f);
      TotalPlus(ids - {x}, x, f);
      assert (ids - {x}) + {x} == ids;
    }
  }

  /** For each metric, its score in each example that has one. */
  type Metric = string -> map<string, real>

  ghost function MetricOf(kind: Kind, r: Run): Metric {
    name => map id | id in Examples(r) && name in ScoresIn(kind, r, id).per :: ScoresIn(kind, r, id).per[name]
  }

  ghost function Difference(f: map<string, real>, g: map<string, real>): map<string, real> {
    map id | id in f && id in g :: f[id] - g[id]
  }

  /** Averages over the examples that both runs scored on the metric. */
  ghost function MovementOf(f: map<string, real>, g: map<string, real>): Movement
    requires f.Keys * g.Keys != {}
  {
    var both := f.Keys * g.Keys;
    var n := |both| as real;
    Movement(Total(both, f) / n, Total(both, g) / n, Total(both, Difference(f, g)) / n)
  }

  ghost predicate Moves(metrics: map<string, Movement>, name: string, f: map<string, real>, g: map<string, real>) {
    && (name in metrics <==> f.Keys * g.Keys != {})
    && (name in metrics ==> metrics[name] == MovementOf(f, g))
  }

  ghost function CountsOf(kind: Kind, a: Run, b: Run): Counts {
    Counts(|Labelled(kind, a, b, Regressed)|, |Labelled(kind, a, b, Improved)|, |Labelled(kind, a, b, Unchanged)|,
           |Labelled(kind, a, b, Added)|, |Examples(b) - Examples(a)|)
  }

  ghost predicate IsComparison(kind: Kind, a: Run, b: Run, r: Report) {
    && r.examples == R.Sort(ComesFirst, Entries(kind, a, b, Order(a.items)))
    && r.counts == CountsOf(kind, a, b)
    && forall name :: Moves(r.metrics, name, MetricOf(kind, a)(name), MetricOf(kind, b)(name))
  }

  /******* The loop *******/

  /** The pairs of a metric's scores in the examples that both runs scored, in order. */
  ghost function PairsOf(f: map<string, real>, g: map<string, real>, ids: seq<string>): seq<(real, real)> {
    if ids == [] then [] else
    var id := ids[|ids| - 1];
    PairsOf(f, g, ids[..|ids| - 1]) + (if id in f && id in g then [(f[id], g[id])] else [])
  }

  ghost predicate Collected(f: map<string, real>, g: map<string, real>, ids: seq<string>,
                            pairs: Pairs, name: string)
  {
    var ps := PairsOf(f, g, ids);
    (name in pairs <==> ps != []) && (name in pairs ==> pairs[name] == ps)
  }

  ghost predicate CollectedIn(fs: Metric, gs: Metric, ids: seq<string>, pairs: Pairs, name: string) {
    Collected(fs(name), gs(name), ids, pairs, name)
  }

  function Sums(ps: seq<(real, real)>): (real, real, real) {
    if ps == [] then (0.0, 0.0, 0.0) else
    var ((x, y, d), p) := (Sums(ps[..|ps| - 1]), ps[|ps| - 1]);
    (x + p.0, y + p.1, d + (p.0 - p.1))
  }

  method AddUp(ps: seq<(real, real)>) returns (x: real, y: real, d: real)
    ensures (x, y, d) == Sums(ps)
  {
    x, y, d := 0.0, 0.0, 0.0;
    for i := 0 to |ps|
      invariant (x, y, d) == Sums(ps[..i])
    {
      assert ps[..i + 1][..i] == ps[..i];
      x, y, d := x + ps[i].0, y + ps[i].1, d + (ps[i].0 - ps[i].1);
    }
    assert ps[..|ps|] == ps;
  }

  ghost function Shared(f: map<string, real>, g: map<string, real>, ids: seq<string>): (both: set<string>)
    ensures both <= f.Keys && both <= g.Keys && both <= Difference(f, g).Keys
    ensures forall id | id in both :: id in ids
  {
    set id | id in ids && id in f && id in g
  }

  lemma SharedNext(f: map<string, real>, g: map<string, real>, ids: seq<string>, id: string)
    ensures Shared(f, g, ids + [id]) == Shared(f, g, ids) + (if id in f && id in g then {id} else {})
  {
  }

  ghost predicate Balanced(f: map<string, real>, g: map<string, real>, both: set<string>, ps: seq<(real, real)>)
    requires both <= f.Keys && both <= g.Keys && both <= Difference(f, g).Keys
  {
    |ps| == |both| && Sums(ps) == (Total(both, f), Total(both, g), Total(both, Difference(f, g)))
  }

  /** The sums over the list of pairs are the totals over the set of examples. */
  lemma {:induction false} SumsAreTotals(f: map<string, real>, g: map<string, real>, ids: seq<string>)
    requires forall i, j | 0 <= i < j < |ids| :: ids[i] != ids[j]
    ensures Balanced(f, g, Shared(f, g, ids), PairsOf(f, g, ids))
  {
    if ids == [] {
      assert Shared(f, g, ids) == {};
    } else {
      var rest, id := ids[..|ids| - 1], ids[|ids| - 1];
      SumsAreTotals(f, g, rest);
      BalancedStep(f, g, rest, id);
      assert rest + [id] == ids;
    }
  }

  lemma BalancedStep(f: map<string, real>, g: map<string, real>, ids: seq<string>, id: string)
    requires id !in ids && Balanced(f, g, Shared(f, g, ids), PairsOf(f, g, ids))
    ensures Balanced(f, g, Shared(f, g, ids + [id]), PairsOf(f, g, ids + [id]))
  {
    SharedNext(f, g, ids, id);
    PairsNext(f, g, ids, id);
    var both, ps := Shared(f, g, ids), PairsOf(f, g, ids);
    if id in f && id in g {
      BalancedNext(f, g, both, ps, id);
    } else {
      assert Shared(f, g, ids + [id]) == both && PairsOf(f, g, ids + [id]) == ps;
    }
  }

  lemma BalancedNext(f: map<string, real>, g: map<string, real>, both: set<string>, ps: seq<(real, real)>, id: string)
    requires id !in both && id in f && id in g && both <= f.Keys && both <= g.Keys && both <= Difference(f, g).Keys
    requires Balanced(f, g, both, ps)
    ensures Balanced(f, g, both + {id}, ps + [(f[id], g[id])])
  {
    TotalPlus(both, id, f);
    TotalPlus(both, id, g);
    TotalPlus(both, id, Difference(f, g));
    SumsPlus(ps, (f[id], g[id]));
  }

  lemma PairsNext(f: map<string, real>, g: map<string, real>, ids: seq<string>, id: string)
    ensures PairsOf(f, g, ids + [id]) == PairsOf(f, g, ids) + (if id in f && id in g then [(f[id], g[id])] else [])
  {
    assert (ids + [id])[..|ids|] == ids;
  }

  lemma SumsPlus(ps: seq<(real, real)>, p: (real, real))
    ensures (var (x, y, d) := Sums(ps); Sums(ps + [p]) == (x + p.0, y + p.1, d + (p.0 - p.1)))
  {
    assert (ps + [p])[..|ps|] == ps;
  }

  method Average(ps: seq<(real, real)>, ghost f: map<string, real>, ghost g: map<string, real>, ghost ids: seq<string>)
    returns (m: Movement)
    requires ps == PairsOf(f, g, ids) && ps != [] && (forall i, j | 0 <= i < j < |ids| :: ids[i] != ids[j])
    requires forall id | id in f && id in g :: id in ids
    ensures f.Keys * g.Keys != {} && m == MovementOf(f, g)
  {
    var x, y, d := AddUp(ps);
    var n := |ps| as real;
    m := Movement(x / n, y / n, d / n);
    SumsAreTotals(f, g, ids);
    assert Shared(f, g, ids) == f.Keys * g.Keys;
  }

  lemma CollectedSkip(fs: Metric, gs: Metric, ids: seq<string>, id: string, pairs: Pairs, name: string)
    requires CollectedIn(fs, gs, ids, pairs, name)
    requires id !in fs(name) || id !in gs(name)
    ensures CollectedIn(fs, gs, ids + [id], pairs, name)
  {
    PairsNext(fs(name), gs(name), ids, id);
  }

  lemma CollectedAdd(fs: Metric, gs: Metric, ids: seq<string>, id: string, pairs: Pairs, name: string)
    requires CollectedIn(fs, gs, ids, pairs, name)
    requires id in fs(name) && id in gs(name)
    ensures CollectedIn(fs, gs, ids + [id],
                        pairs[name := (if name in pairs then pairs[name] else []) + [(fs(name)[id], gs(name)[id])]], name)
  {
    PairsNext(fs(name), gs(name), ids, id);
  }

  method Pair(ghost fs: Metric, ghost gs: Metric, ghost ids: seq<string>, id: string, perA: map<string, real>,
              perB: map<string, real>, before: Pairs) returns (pairs: Pairs)
    requires forall name :: (name in perA <==> id in fs(name)) && (name in perA ==> perA[name] == fs(name)[id])
    requires forall name :: (name in perB <==> id in gs(name)) && (name in perB ==> perB[name] == gs(name)[id])
    requires forall name :: CollectedIn(fs, gs, ids, before, name)
    ensures forall name :: CollectedIn(fs, gs, ids + [id], pairs, name)
  {
    pairs := before;
    var names := perA.Keys * perB.Keys;
    forall name | name !in names ensures CollectedIn(fs, gs, ids + [id], pairs, name) {
      CollectedSkip(fs, gs, ids, id, pairs, name);
    }
    while names != {}
      invariant names <= perA.Keys * perB.Keys
      invariant forall name | name in names :: CollectedIn(fs, gs, ids, pairs, name)
      invariant forall name | name !in names :: CollectedIn(fs, gs, ids + [id], pairs, name)
    {
      var name :| name in names;
      CollectedAdd(fs, gs, ids, id, pairs, name);
      pairs := pairs[name := (if name in pairs then pairs[name] else []) + [(perA[name], perB[name])]];
      names := names - {name};
    }
  }

  /** The averages of every metric that was paired at least once. */
  method Averages(ghost fs: Metric, ghost gs: Metric, ghost ids: seq<string>, pairs: Pairs)
    returns (metrics: map<string, Movement>)
    requires forall i, j | 0 <= i < j < |ids| :: ids[i] != ids[j]
    requires forall name, id | id in fs(name) && id in gs(name) :: id in ids
    requires forall name :: CollectedIn(fs, gs, ids, pairs, name)
    ensures forall name :: Moves(metrics, name, fs(name), gs(name))
  {
    metrics := map[];
    var names := pairs.Keys;
    while names != {}
      invariant names <= pairs.Keys
      invariant metrics.Keys == pairs.Keys - names
      invariant forall name | name in metrics :: Moves(metrics, name, fs(name), gs(name))
    {
      var name :| name in names;
      assert CollectedIn(fs, gs, ids, pairs, name);
      var m := Average(pairs[name], fs(name), gs(name), ids);
      metrics := metrics[name := m];
      names := names - {name};
    }
    forall name | name !in pairs ensures Moves(metrics, name, fs(name), gs(name)) {
      Unpaired(fs, gs, ids, pairs, name);
    }
  }

  lemma Unpaired(fs: Metric, gs: Metric, ids: seq<string>, pairs: Pairs, name: string)
    requires (forall i, j | 0 <= i < j < |ids| :: ids[i] != ids[j]) && forall id | id in fs(name) && id in gs(name) :: id in ids
    requires CollectedIn(fs, gs, ids, pairs, name) && name !in pairs
    ensures fs(name).Keys * gs(name).Keys == {}
  {
    SumsAreTotals(fs(name), gs(name), ids);
    assert Shared(fs(name), gs(name), ids) == fs(name).Keys * gs(name).Keys;
  }

  ghost function LabelledIn(kind: Kind, a: Run, b: Run, ids: seq<string>, s: Status): set<string> {
    set id | id in ids && id in Examples(a) && StatusIn(kind, a, b, id) == s
  }

  lemma LabelledHit(kind: Kind, a: Run, b: Run, ids: seq<string>, id: string)
    requires id !in ids && id in Examples(a)
    ensures (var s := StatusIn(kind, a, b, id);
             |LabelledIn(kind, a, b, ids + [id], s)| == |LabelledIn(kind, a, b, ids, s)| + 1)
  {
    var s := StatusIn(kind, a, b, id);
    assert LabelledIn(kind, a, b, ids + [id], s) == LabelledIn(kind, a, b, ids, s) + {id};
  }

  lemma LabelledMiss(kind: Kind, a: Run, b: Run, ids: seq<string>, id: string, s: Status)
    requires id !in ids && id in Examples(a) && s != StatusIn(kind, a, b, id)
    ensures LabelledIn(kind, a, b, ids + [id], s) == LabelledIn(kind, a, b, ids, s)
  {
  }

  ghost function Tally(kind: Kind, a: Run, b: Run, ids: seq<string>): Counts {
    Counts(|LabelledIn(kind, a, b, ids, Regressed)|, |LabelledIn(kind, a, b, ids, Improved)|,
           |LabelledIn(kind, a, b, ids, Unchanged)|, |LabelledIn(kind, a, b, ids, Added)|, 0)
  }

  function Counted(c: Counts, s: Status): Counts {
    match s
    case Regressed => c.(regressed := c.regressed + 1)
    case Improved => c.(improved := c.improved + 1)
    case Unchanged => c.(level := c.level + 1)
    case Added => c.(added := c.added + 1)
    case Pending => c
  }

  lemma TallyNext(kind: Kind, a: Run, b: Run, ids: seq<string>, id: string)
    requires id !in ids && id in Examples(a)
    ensures Tally(kind, a, b, ids + [id]) == Counted(Tally(kind, a, b, ids), StatusIn(kind, a, b, id))
  {
    LabelledHit(kind, a, b, ids, id);
    forall s | s != StatusIn(kind, a, b, id) ensures LabelledIn(kind, a, b, ids + [id], s) == LabelledIn(kind, a, b, ids, s) {
      LabelledMiss(kind, a, b, ids, id, s);
    }
  }

  /** The label of an example that both runs have. */
  method Classify(a: Option<real>, b: Option<real>, before: Counts) returns (status: Status, counts: Counts)
    ensures status == Label(a, b) && counts == Counted(before, status)
  {
    counts := before;
    if a.None? || b.None? {
      status := Pending;
    } else if a.value < b.value - EPSILON {
      counts, status := counts.(regressed := counts.regressed + 1), Regressed;
    } else if a.value > b.value + EPSILON {
      counts, status := counts.(improved := counts.improved + 1), Improved;
    } else {
      counts, status := counts.(level := counts.level + 1), Unchanged;
    }
  }

  type Pairs = map<string, seq<(real, real)>>

  /** What the loop has built after the examples `ids`. */
  ghost predicate Built(kind: Kind, a: Run, b: Run, ids: seq<string>, examples: seq<Entry>, counts: Counts, pairs: Pairs) {
    && (forall id | id in ids :: id in Examples(a))
    && examples == Entries(kind, a, b, ids) && counts == Tally(kind, a, b, ids)
    && forall name :: CollectedIn(MetricOf(kind, a), MetricOf(kind, b), ids, pairs, name)
  }

  /** One round of the loop; without a baseline item there are no baseline results. */
  method CompareExample(kind: Kind, ghost a: Run, ghost b: Run, ghost ids: seq<string>, id: string, rows: seq<Row>,
                        baseRows: Option<seq<Row>>, examples: seq<Entry>, counts: Counts, pairs: Pairs)
    returns (examples': seq<Entry>, counts': Counts, pairs': Pairs)
    requires id !in ids && Built(kind, a, b, ids, examples, counts, pairs)
    requires id in Examples(a) && rows == RowsOf(a.rows, TraceOf(a.items)[id])
    requires baseRows == if id in Examples(b) then Some(RowsOf(b.rows, TraceOf(b.items)[id])) else None
    ensures Built(kind, a, b, ids + [id], examples', counts', pairs')
  {
    var scores := ExampleScores(kind, rows);
    var baseline, status := Scores(None, map[]), Added;
    if baseRows.None? {
      counts', pairs' := counts.(added := counts.added + 1), pairs;
      Skip(kind, a, b, ids, id, pairs);
    } else {
      baseline := ExampleScores(kind, baseRows.value);
      status, counts' := Classify(scores.overall, baseline.overall, counts);
      pairs' := Pair(MetricOf(kind, a), MetricOf(kind, b), ids, id, scores.per, baseline.per, pairs);
    }
    examples' := examples + [Entry(id, scores, baseline, status)];
    BuiltNext(kind, a, b, ids, id, examples, counts, pairs, pairs');
  }

  lemma BuiltNext(kind: Kind, a: Run, b: Run, ids: seq<string>, id: string, examples: seq<Entry>, counts: Counts, pairs: Pairs, pairs': Pairs)
    requires id in Examples(a) && id !in ids && Built(kind, a, b, ids, examples, counts, pairs)
    requires forall name :: CollectedIn(MetricOf(kind, a), MetricOf(kind, b), ids + [id], pairs', name)
    ensures Built(kind, a, b, ids + [id], examples + [EntryOf(kind, a, b, id)], Counted(counts, StatusIn(kind, a, b, id)), pairs')
  {
    TallyNext(kind, a, b, ids, id);
    EntriesNext(kind, a, b, ids, id);
  }

  method CompareExamples(kind: Kind, ghost a: Run, ghost b: Run, ids: seq<string>, tracesA: map<string, string>,
                         tracesB: map<string, string>, byTraceA: map<string, seq<Row>>, byTraceB: map<string, seq<Row>>)
    returns (examples: seq<Entry>, counts: Counts, pairs: Pairs)
    requires ids == Order(a.items) && tracesA == TraceOf(a.items) && tracesB == TraceOf(b.items)
    requires forall t :: Get(byTraceA, t) == RowsOf(a.rows, t) && Get(byTraceB, t) == RowsOf(b.rows, t)
    ensures Built(kind, a, b, ids, examples, counts, pairs)
  {
    examples, counts, pairs := [], Counts(0, 0, 0, 0, 0), map[];
    NothingYet(kind, a, b);
    for i := 0 to |ids|
      invariant Built(kind, a, b, ids[..i], examples, counts, pairs)
    {
      var id := ids[i];
      Prefix(ids, i);
      var baseRows := if id in tracesB then Some(Get(byTraceB, tracesB[id])) else None;
      examples, counts, pairs :=
        CompareExample(kind, a, b, ids[..i], id, Get(byTraceA, tracesA[id]), baseRows, examples, counts, pairs);
    }
    assert ids[..|ids|] == ids;
  }

  lemma Prefix(ids: seq<string>, i: nat)
    requires i < |ids|
    ensures ids[..i + 1] == ids[..i] + [ids[i]]
  {
  }

  method CompareRuns(kind: Kind, a: Run, b: Run) returns (report: Report)
    ensures IsComparison(kind, a, b, report)
  {
    var byTraceA := ByTrace(a.rows);
    var byTraceB := ByTrace(b.rows);
    var ids, tracesA := ByExample(a.items);
    var _, tracesB := ByExample(b.items);
    var examples, counts, pairs := CompareExamples(kind, a, b, ids, tracesA, tracesB, byTraceA, byTraceB);
    counts := counts.(missing := |tracesB.Keys - tracesA.Keys|);
    EveryExample(kind, a, b);
    var metrics := Averages(MetricOf(kind, a), MetricOf(kind, b), ids, pairs);
    report := Report(R.Sort(ComesFirst, examples), counts, metrics);
  }

  lemma NothingYet(kind: Kind, a: Run, b: Run)
    ensures Tally(kind, a, b, []) == Counts(0, 0, 0, 0, 0)
  {
    forall s ensures LabelledIn(kind, a, b, [], s) == {} {
    }
  }

  lemma Skip(kind: Kind, a: Run, b: Run, ids: seq<string>, id: string, pairs: Pairs)
    requires id !in Examples(b) && forall name :: CollectedIn(MetricOf(kind, a), MetricOf(kind, b), ids, pairs, name)
    ensures forall name :: CollectedIn(MetricOf(kind, a), MetricOf(kind, b), ids + [id], pairs, name)
  {
    forall name ensures CollectedIn(MetricOf(kind, a), MetricOf(kind, b), ids + [id], pairs, name) {
      CollectedSkip(MetricOf(kind, a), MetricOf(kind, b), ids, id, pairs, name);
    }
  }

  lemma EntriesNext(kind: Kind, a: Run, b: Run, ids: seq<string>, id: string)
    requires id in Examples(a) && forall x | x in ids :: x in Examples(a)
    ensures Entries(kind, a, b, ids + [id]) == Entries(kind, a, b, ids) + [EntryOf(kind, a, b, id)]
  {
    assert (ids + [id])[..|ids|] == ids;
  }

  lemma EveryExample(kind: Kind, a: Run, b: Run)
    ensures forall s :: LabelledIn(kind, a, b, Order(a.items), s) == Labelled(kind, a, b, s)
  {
  }

  /******* What the comparison promises *******/

  function Mirror(s: Status): Status {
    match s case Regressed => Improved case Improved => Regressed case _ => s
  }

  /** Exchanging the two scores exchanges a regression and an improvement. */
  lemma LabelMirrors(a: Option<real>, b: Option<real>)
    ensures Label(b, a) == Mirror(Label(a, b))
  {
  }

  lemma {:induction false} TotalDifference(ids: set<string>, f: map<string, real>, g: map<string, real>)
    requires ids <= f.Keys && ids <= g.Keys
    ensures Total(ids, Difference(f, g)) == Total(ids, f) - Total(ids, g)
    decreases |ids|
  {
    if ids != {} {
      var id :| id in ids;
      var rest := ids - {id};
      assert rest + {id} == ids;
      TotalDifference(rest, f, g);
      TotalPlus(rest, id, f);
      TotalPlus(rest, id, g);
      TotalPlus(rest, id, Difference(f, g));
    }
  }

  /** The mean of a metric's differences is the difference of its means. */
  lemma DeltaIsDifferenceOfMeans(f: map<string, real>, g: map<string, real>)
    requires f.Keys * g.Keys != {}
    ensures (var m := MovementOf(f, g); m.delta == m.avg - m.baseline)
  {
    TotalDifference(f.Keys * g.Keys, f, g);
  }

  /** What holds of two reports that compare the same runs the other way round. */
  ghost predicate Opposite(r: Report, s: Report) {
    && s.counts.regressed == r.counts.improved && s.counts.improved == r.counts.regressed
    && s.counts.added == r.counts.missing && s.counts.missing == r.counts.added
    && s.counts.level == r.counts.level
    && s.metrics.Keys == r.metrics.Keys
    && forall name | name in r.metrics ::
      (var m := r.metrics[name]; s.metrics[name] == Movement(m.baseline, m.avg, -m.delta))
  }

  lemma {:induction false} EntryAt(kind: Kind, a: Run, b: Run, ids: seq<string>)
    requires forall id | id in ids :: id in Examples(a)
    ensures |Entries(kind, a, b, ids)| == |ids| && forall i | 0 <= i < |ids| :: Entries(kind, a, b, ids)[i] == EntryOf(kind, a, b, ids[i])
  {
    if ids != [] { EntryAt(kind, a, b, ids[..|ids| - 1]); }
  }

  /** One entry for each example of the run, and no other. */
  ghost predicate Complete(kind: Kind, a: Run, b: Run, es: seq<Entry>) {
    && |es| == |Examples(a)|
    && (forall e | e in es :: e.example in Examples(a) && e == EntryOf(kind, a, b, e.example))
    && (forall id | id in Examples(a) :: EntryOf(kind, a, b, id) in es)
  }

  /** Every example of the run is reported exactly once, whatever the sorting does. */
  lemma ReportsEveryExampleOnce(kind: Kind, a: Run, b: Run, r: Report)
    requires IsComparison(kind, a, b, r)
    ensures R.Sorted(ComesFirst, r.examples) && Complete(kind, a, b, r.examples)
  {
    var es := Entries(kind, a, b, Order(a.items));
    EntriesComplete(kind, a, b);
    SortCompletes(kind, a, b, es);
  }

  lemma SortCompletes(kind: Kind, a: Run, b: Run, es: seq<Entry>)
    requires Complete(kind, a, b, es)
    ensures R.Sorted(ComesFirst, R.Sort(ComesFirst, es)) && Complete(kind, a, b, R.Sort(ComesFirst, es))
  {
    SortsEntries(es);
    SameMembers(R.Sort(ComesFirst, es), es);
  }

  lemma SortsEntries(es: seq<Entry>)
    ensures R.Sorted(ComesFirst, R.Sort(ComesFirst, es)) && multiset(R.Sort(ComesFirst, es)) == multiset(es)
  {
    R.SortSorts(ComesFirst, es);
  }

  lemma EntriesComplete(kind: Kind, a: Run, b: Run)
    ensures Complete(kind, a, b, Entries(kind, a, b, Order(a.items)))
  {
    var ids := Order(a.items);
    var es := Entries(kind, a, b, ids);
    EntryAt(kind, a, b, ids);
    forall id | id in Examples(a) ensures EntryOf(kind, a, b, id) in es {
      var i :| 0 <= i < |ids| && ids[i] == id;
      assert es[i] in es;
    }
    ExamplesCount(a);
  }

  lemma SameMembers(xs: seq<Entry>, ys: seq<Entry>)
    requires multiset(xs) == multiset(ys)
    ensures |xs| == |ys| && forall e :: e in xs <==> e in ys
  {
    assert |multiset(xs)| == |multiset(ys)|;
    forall e ensures e in xs <==> e in ys {
      assert e in multiset(xs) <==> e in multiset(ys);
    }
  }

  lemma ExamplesCount(r: Run)
    ensures |Examples(r)| == |Order(r.items)|
  {
    Distinct(Order(r.items));
    assert (set id | id in Order(r.items)) == Examples(r);
  }

  lemma {:induction false} Distinct(ids: seq<string>)
    requires forall i, j | 0 <= i < j < |ids| :: ids[i] != ids[j]
    ensures |set id | id in ids| == |ids|
  {
    if ids != [] {
      var rest, id := ids[..|ids| - 1], ids[|ids| - 1];
      Distinct(rest);
      assert ids == rest + [id];
      assert (set x | x in ids) == (set x | x in rest) + {id};
    } else {
      assert (set id | id in ids) == {};
    }
  }

  lemma SwapStatus(kind: Kind, a: Run, b: Run, id: string)
    requires id in Examples(a) && id in Examples(b)
    ensures StatusIn(kind, b, a, id) == Mirror(StatusIn(kind, a, b, id))
  {
    LabelMirrors(ScoresIn(kind, a, id).overall, ScoresIn(kind, b, id).overall);
  }

  lemma SwapEveryStatus(kind: Kind, a: Run, b: Run)
    ensures forall id | id in Examples(a) && id in Examples(b) :: StatusIn(kind, b, a, id) == Mirror(StatusIn(kind, a, b, id))
  {
    forall id | id in Examples(a) && id in Examples(b) ensures StatusIn(kind, b, a, id) == Mirror(StatusIn(kind, a, b, id)) {
      SwapStatus(kind, a, b, id);
    }
  }

  lemma SwapLabelled(kind: Kind, a: Run, b: Run, s: Status)
    requires s != Added
    ensures Labelled(kind, b, a, Mirror(s)) == Labelled(kind, a, b, s)
  {
    forall id ensures id in Labelled(kind, b, a, Mirror(s)) <==> id in Labelled(kind, a, b, s) {
      if id in Examples(a) && id in Examples(b) { SwapStatus(kind, a, b, id); }
    }
  }

  lemma SwapCounts(kind: Kind, a: Run, b: Run)
    ensures (var c := CountsOf(kind, a, b);
             CountsOf(kind, b, a) == Counts(c.improved, c.regressed, c.level, c.missing, c.added))
  {
    SwapLabelled(kind, a, b, Regressed);
    SwapLabelled(kind, a, b, Improved);
    SwapLabelled(kind, a, b, Unchanged);
    AddedAreMissing(kind, a, b);
    AddedAreMissing(kind, b, a);
  }

  lemma AddedAreMissing(kind: Kind, a: Run, b: Run)
    ensures Labelled(kind, a, b, Added) == Examples(a) - Examples(b)
  {
  }

  /** Comparing the other way round exchanges what the report says, and no more. */
  lemma SwapExchanges(kind: Kind, a: Run, b: Run, r: Report, s: Report)
    requires IsComparison(kind, a, b, r) && IsComparison(kind, b, a, s)
    ensures Opposite(r, s)
    ensures forall id | id in Examples(a) && id in Examples(b) :: StatusIn(kind, b, a, id) == Mirror(StatusIn(kind, a, b, id))
    ensures Labelled(kind, b, a, Pending) == Labelled(kind, a, b, Pending)
  {
    SwapEveryStatus(kind, a, b);
    SwapCounts(kind, a, b);
    SwapLabelled(kind, a, b, Pending);
    SwapMetrics(r.metrics, s.metrics, MetricOf(kind, a), MetricOf(kind, b));
  }

  lemma SwapMetrics(r: map<string, Movement>, s: map<string, Movement>, fs: Metric, gs: Metric)
    requires forall name :: Moves(r, name, fs(name), gs(name))
    requires forall name :: Moves(s, name, gs(name), fs(name))
    ensures s.Keys == r.Keys
    ensures forall name | name in r :: (var m := r[name]; s[name] == Movement(m.baseline, m.avg, -m.delta))
  {
    forall name ensures name in s <==> name in r
      ensures name in r ==> (var m := r[name]; s[name] == Movement(m.baseline, m.avg, -m.delta))
    {
      SwapMetric(r, s, name, fs(name), gs(name));
    }
  }

  lemma SwapMetric(r: map<string, Movement>, s: map<string, Movement>, name: string, f: map<string, real>, g: map<string, real>)
    requires Moves(r, name, f, g) && Moves(s, name, g, f)
    ensures name in s <==> name in r
    ensures name in r ==> (var m := r[name]; s[name] == Movement(m.baseline, m.avg, -m.delta))
  {
    assert f.Keys * g.Keys == g.Keys * f.Keys;
    if name in r {
      DeltaIsDifferenceOfMeans(f, g);
      DeltaIsDifferenceOfMeans(g, f);
    }
  }

  /** The five labels partition the run's examples; with the missing ones, they cover both runs. */
  lemma LabelsPartition(kind: Kind, a: Run, b: Run)
    ensures (var c := CountsOf(kind, a, b);
             && c.regressed + c.improved + c.level + c.added + |Labelled(kind, a, b, Pending)| == |Examples(a)|
             && |Examples(a)| + c.missing == |Examples(a) + Examples(b)|)
  {
    var p, q, u := Labelled(kind, a, b, Regressed), Labelled(kind, a, b, Improved), Labelled(kind, a, b, Unchanged);
    var n, w := Labelled(kind, a, b, Added), Labelled(kind, a, b, Pending);
    LabelsCover(kind, a, b);
    LabelsDisjoint(kind, a, b);
    FiveParts(Examples(a), p, q, u, n, w);
    Missing(Examples(a), Examples(b));
  }

  lemma Missing(x: set<string>, y: set<string>)
    ensures |x + y| == |x| + |y - x|
  {
    Union(x, y - x);
    assert x + y == x + (y - x);
  }

  lemma LabelsCover(kind: Kind, a: Run, b: Run)
    ensures Examples(a) == Labelled(kind, a, b, Regressed) + Labelled(kind, a, b, Improved) + Labelled(kind, a, b, Unchanged)
                           + Labelled(kind, a, b, Added) + Labelled(kind, a, b, Pending)
  {
    forall s ensures Labelled(kind, a, b, s) <= Examples(a) {
    }
    forall id | id in Examples(a)
      ensures id in Labelled(kind, a, b, Regressed) + Labelled(kind, a, b, Improved) + Labelled(kind, a, b, Unchanged)
                    + Labelled(kind, a, b, Added) + Labelled(kind, a, b, Pending) {
      assert id in Labelled(kind, a, b, StatusIn(kind, a, b, id));
    }
  }

  lemma LabelsDisjoint(kind: Kind, a: Run, b: Run)
    ensures forall s, t | s != t :: Labelled(kind, a, b, s) !! Labelled(kind, a, b, t)
  {
  }

  lemma Union(x: set<string>, y: set<string>)
    requires x !! y
    ensures |x + y| == |x| + |y|
  {
  }

  lemma FiveParts(all: set<string>, p: set<string>, q: set<string>, u: set<string>, n: set<string>, w: set<string>)
    requires all == p + q + u + n + w && p !! q !! u !! n !! w
    ensures |all| == |p| + |q| + |u| + |n| + |w|
  {
    Union(p, q);
    Union(p + q, u);
    Union(p + q + u, n);
    Union(p + q + u + n, w);
  }

  /** A changed example mix is no score movement: where both runs score their common examples alike, no metric moves. */
  lemma MixDoesNotMove(kind: Kind, a: Run, b: Run, r: Report)
    requires IsComparison(kind, a, b, r)
    requires forall id | id in Examples(a) && id in Examples(b) :: ScoresIn(kind, a, id) == ScoresIn(kind, b, id)
    ensures forall name | name in r.metrics :: r.metrics[name].delta == 0.0
    ensures r.counts.regressed == 0 && r.counts.improved == 0
  {
    var fs, gs := MetricOf(kind, a), MetricOf(kind, b);
    forall name | name in r.metrics ensures r.metrics[name].delta == 0.0 {
      SameMetric(kind, a, b, name);
      assert Moves(r.metrics, name, fs(name), gs(name));
      NoMovement(fs(name), gs(name));
    }
    NoneLabelled(kind, a, b, Regressed);
    NoneLabelled(kind, a, b, Improved);
  }

  lemma NoneLabelled(kind: Kind, a: Run, b: Run, s: Status)
    requires s == Regressed || s == Improved
    requires forall id | id in Examples(a) && id in Examples(b) :: ScoresIn(kind, a, id) == ScoresIn(kind, b, id)
    ensures Labelled(kind, a, b, s) == {}
  {
    forall id | id in Examples(a) ensures StatusIn(kind, a, b, id) != s {
      if id in Examples(b) { assert ScoresIn(kind, a, id) == ScoresIn(kind, b, id); }
    }
  }

  lemma SameMetric(kind: Kind, a: Run, b: Run, name: string)
    requires forall id | id in Examples(a) && id in Examples(b) :: ScoresIn(kind, a, id) == ScoresIn(kind, b, id)
    ensures (var f, g := MetricOf(kind, a)(name), MetricOf(kind, b)(name); forall id | id in f && id in g :: f[id] == g[id])
  {
  }

  lemma NoMovement(f: map<string, real>, g: map<string, real>)
    requires f.Keys * g.Keys != {} && forall id | id in f && id in g :: f[id] == g[id]
    ensures MovementOf(f, g).delta == 0.0
  {
    DeltaIsDifferenceOfMeans(f, g);
    TotalSame(f.Keys * g.Keys, f, g);
  }

  lemma {:induction false} TotalSame(ids: set<string>, f: map<string, real>, g: map<string, real>)
    requires ids <= f.Keys && ids <= g.Keys && forall id | id in ids :: f[id] == g[id]
    ensures Total(ids, f) == Total(ids, g)
    decreases |ids|
  {
    if ids != {} {
      var id :| id in ids;
      assert (ids - {id}) + {id} == ids;
      TotalSame(ids - {id}, f, g);
      TotalPlus(ids - {id}, id, f);
      TotalPlus(ids - {id}, id, g);
    }
  }
}
