/**
 The two shapes of the trace list query and when they mean the same
 (db_queues/clickhouse/queries.py:218-349).
 */
module TracePaging {
  import opened Wrappers
  import opened Relations
  import opened TraceQuery

  /******* The joined relation *******/

  predicate CostOf(t: Trace, c: Cost) { t.org == c.org && t.id == c.id }
  predicate GroupOf(t: Trace, g: Group) { t.org == g.org && t.id == g.id }
  predicate ScanOf(t: Trace, s: Scan) { t.org == s.org && t.id == s.id }
  predicate EvaluationOf(t: Trace, e: Evaluation) { t.org == e.org && t.id == e.id }

  /** `GROUP BY organization_id, trace_id` with `groupArray` */
  function GroupBy(es: seq<Evaluation>): seq<Group>
    decreases |es|
  {
    if es == [] then [] else
    var k := es[0];
    [Group(k.org, k.id, Filter(SameKey(k), es))] + GroupBy(Filter(OtherKey(k), es[1..]))
  }

  function SameKey(k: Evaluation): Evaluation -> bool { (e: Evaluation) => e.org == k.org && e.id == k.id }
  function OtherKey(k: Evaluation): Evaluation -> bool { (e: Evaluation) => !(e.org == k.org && e.id == k.id) }

  type WithCost = (Trace, Option<Cost>)
  type WithGroup = (WithCost, Option<Group>)

  function OnCost(): (Trace, Cost) -> bool { (t, c) => CostOf(t, c) }
  function OnGroup(): (WithCost, Group) -> bool { (x: WithCost, g) => GroupOf(x.0, g) }
  function OnScan(): (WithGroup, Scan) -> bool { (y: WithGroup, s) => ScanOf(y.0.0, s) }
  function ToRow(): ((WithGroup, Option<Scan>)) -> Row { (z: (WithGroup, Option<Scan>)) => Row(z.0.0.0, z.0.0.1, z.0.1, z.1) }

  /** The three left joins, in the order of the query. */
  function JoinAll(ts: seq<Trace>, costs: seq<Cost>, groups: seq<Group>, scans: seq<Scan>): seq<Row> {
    Map(ToRow(), LeftJoin(OnScan(), LeftJoin(OnGroup(), LeftJoin(OnCost(), ts, costs), groups), scans))
  }

  /******* Ordering and post-join filters *******/

  predicate SortsOnJoin(sort: string) {
    sort == "cost_desc" || sort == "cost_asc"
  }

  /** Nulls come last in either direction. */
  predicate LeReal(descending: bool, a: Option<real>, b: Option<real>) {
    if a.None? then b.None? else b.None? || (if descending then a.value >= b.value else a.value <= b.value)
  }

  predicate LeTrace(sort: string, a: Trace, b: Trace) {
    if sort == "oldest" then a.ingestedAt <= b.ingestedAt
    else if sort == "latency_desc" then LeReal(true, a.latency, b.latency)
    else if sort == "latency_asc" then LeReal(false, a.latency, b.latency)
    else a.ingestedAt >= b.ingestedAt
  }

  function Total(r: Row): Option<real> {
    if r.c.Some? then r.c.value.total else None
  }

  predicate LeRow(sort: string, a: Row, b: Row) {
    if SortsOnJoin(sort) then LeReal(sort == "cost_desc", Total(a), Total(b)) else LeTrace(sort, a.t, b.t)
  }

  function ByTrace(sort: string): (Trace, Trace) -> bool { (a, b) => LeTrace(sort, a, b) }
  function ByRow(sort: string): (Row, Row) -> bool { (a, b) => LeRow(sort, a, b) }

  predicate FiltersAfterJoin(p: Params) {
    p.security in {"clean", "low", "medium", "high"} || p.quality in {"none", "high", "medium", "low"}
  }

  function Scores(r: Row): seq<real> {
    if r.e.None? then [] else Present(r.e.value.rows)
  }

  function Present(es: seq<Evaluation>): seq<real> {
    if es == [] then [] else (if es[0].score.Some? then [es[0].score.value] else []) + Present(es[1..])
  }

  predicate LowestIn(xs: seq<real>, low: real, high: Option<real>) {
    && xs != []
    && (forall i | 0 <= i < |xs| :: low <= xs[i])
    && (high.Some? ==> exists i | 0 <= i < |xs| :: xs[i] < high.value)
  }

  predicate PassesJoined(p: Params, r: Row) {
    && (match p.security
        case "clean" => r.s.None? || r.s.value.level == ""
        case "low" => r.s.Some? && r.s.value.level == "low"
        case "medium" => r.s.Some? && r.s.value.level == "medium"
        case "high" => r.s.Some? && r.s.value.level == "high"
        case _ => true)
    && (match p.quality
        case "none" => Scores(r) == []
        case "high" => LowestIn(Scores(r), 0.8, None)
        case "medium" => LowestIn(Scores(r), 0.5, Some(0.8))
        case "low" => Scores(r) != [] && exists i | 0 <= i < |Scores(r)| :: Scores(r)[i] < 0.5
        case _ => true)
  }

  /******* The two queries *******/

  function Keeps(db: Db, org: Id, where_: seq<Condition>): Trace -> bool { (t: Trace) => AllHold(db, org, where_, t, None) }

  function KeepsRow(db: Db, p: Params, where_: seq<Condition>): Row -> bool {
    (r: Row) => AllHold(db, p.org, where_, r.t, r.c) && PassesJoined(p, r)
  }

  function CostIn(org: Id, ids: set<Id>): Cost -> bool { (c: Cost) => c.org == org && c.id in ids }
  function EvaluationIn(org: Id, ids: set<Id>): Evaluation -> bool { (e: Evaluation) => e.org == org && e.id in ids }
  function ScanIn(org: Id, ids: set<Id>): Scan -> bool { (s: Scan) => s.org == org && s.id in ids }
  function OfOrg(org: Id): Evaluation -> bool { (e: Evaluation) => e.org == org }

  /** The `page` CTE. */
  function FirstPage(db: Db, p: Params, where_: seq<Condition>): seq<Trace> {
    Page(Sort(ByTrace(p.sort), Filter(Keeps(db, p.org, where_), db.traces)), p.limit, p.offset)
  }

  /** Every right side narrowed to the keys of the page, the evaluations before they are grouped. */
  function JoinPage(db: Db, org: Id, page: seq<Trace>): seq<Row> {
    var ids := set t | t in page :: t.id;
    JoinAll(page,
            Filter(CostIn(org, ids), db.costs),
            GroupBy(Filter(EvaluationIn(org, ids), db.evaluations)),
            Filter(ScanIn(org, ids), db.scans))
  }

  function PageFirst(db: Db, p: Params, where_: seq<Condition>): seq<Row> {
    Sort(ByRow(p.sort), JoinPage(db, p.org, FirstPage(db, p, where_)))
  }

  function OrgGroups(db: Db, org: Id): seq<Group> {
    GroupBy(Filter(OfOrg(org), db.evaluations))
  }

  function Everything(db: Db, org: Id, ts: seq<Trace>): seq<Row> {
    JoinAll(ts, db.costs, OrgGroups(db, org), db.scans)
  }

  function JoinFirst(db: Db, p: Params, where_: seq<Condition>): seq<Row> {
    Page(Sort(ByRow(p.sort), Filter(KeepsRow(db, p, where_), Everything(db, p.org, db.traces))), p.limit, p.offset)
  }

  /** What the caller asked for, without a query plan: join, keep what is wanted, sort, limit. */
  function Listing(db: Db, p: Params): seq<Row> {
    Page(Sort(ByRow(p.sort), Filter(WantedRow(db, p), Everything(db, p.org, db.traces))), p.limit, p.offset)
  }

  function WantedRow(db: Db, p: Params): Row -> bool { (r: Row) => Wanted(db, p, r.t, r.c) && PassesJoined(p, r) }

  predicate FastPath(p: Params) {
    !FiltersAfterJoin(p) && !SortsOnJoin(p.sort)
  }

  ghost predicate Means(db: Db, p: Params, where_: seq<Condition>) {
    forall t, cost :: AllHold(db, p.org, where_, t, cost) <==> Wanted(db, p, t, cost)
  }

  /******* What the rows are, in their fields *******/

  /** The order in which a caller sees them; rows without the value that is sorted by come last. */
  ghost predicate InOrder(sort: string, rows: seq<Row>) {
    forall i, j | 0 <= i < j < |rows| ::
      var a, b := rows[i], rows[j];
      && (sort == "oldest" ==> a.t.ingestedAt <= b.t.ingestedAt)
      && (sort == "latency_desc" && b.t.latency.Some? ==> a.t.latency.Some? && a.t.latency.value >= b.t.latency.value)
      && (sort == "latency_asc" && b.t.latency.Some? ==> a.t.latency.Some? && a.t.latency.value <= b.t.latency.value)
      && (sort == "cost_desc" && b.c.Some? && b.c.value.total.Some? ==>
            a.c.Some? && a.c.value.total.Some? && a.c.value.total.value >= b.c.value.total.value)
      && (sort == "cost_asc" && b.c.Some? && b.c.value.total.Some? ==>
            a.c.Some? && a.c.value.total.Some? && a.c.value.total.value <= b.c.value.total.value)
      && (sort !in {"oldest", "latency_desc", "latency_asc", "cost_desc", "cost_asc"} ==> a.t.ingestedAt >= b.t.ingestedAt)
  }

  /** What the filters on the joined columns ask of a row: its scan's level, and its least score. */
  ghost predicate Selected(p: Params, r: Row) {
    var evaluated := if r.e.Some? then r.e.value.rows else [];
    && (p.security == "clean" ==> r.s.Some? ==> r.s.value.level == "")
    && (p.security in {"low", "medium", "high"} ==> r.s.Some? && r.s.value.level == p.security)
    && (p.quality == "none" ==> forall e | e in evaluated :: e.score == None)
    && (p.quality in {"high", "medium", "low"} ==> exists e :: e in evaluated && e.score.Some?)
    && (p.quality == "high" ==> forall e | e in evaluated && e.score.Some? :: e.score.value >= 0.8)
    && (p.quality == "medium" ==> forall e | e in evaluated && e.score.Some? :: e.score.value >= 0.5)
    && (p.quality == "medium" ==> exists e :: e in evaluated && e.score.Some? && e.score.value < 0.8)
    && (p.quality == "low" ==> exists e :: e in evaluated && e.score.Some? && e.score.value < 0.5)
  }

  lemma {:induction false} PresentHas(es: seq<Evaluation>, e: Evaluation)
    requires e in es && e.score.Some?
    ensures e.score.value in Present(es)
  {
    if e == es[0] { assert Present(es)[0] == e.score.value; } else { PresentHas(es[1..], e); }
  }

  lemma {:induction false} PresentFrom(es: seq<Evaluation>, i: nat) returns (e: Evaluation)
    requires i < |Present(es)|
    ensures e in es && e.score == Some(Present(es)[i])
  {
    if es[0].score.None? {
      e := PresentFrom(es[1..], i);
    } else if i == 0 {
      e := es[0];
    } else {
      e := PresentFrom(es[1..], i - 1);
    }
  }

  /** What the least of some scores tells of the evaluations that have them. */
  lemma NoScore(es: seq<Evaluation>)
    ensures Present(es) == [] <==> forall e | e in es :: e.score == None
  {
    if e :| e in es && e.score.Some? { PresentHas(es, e); }
    if Present(es) != [] { var e := PresentFrom(es, 0); }
  }

  lemma ScoresAtLeast(es: seq<Evaluation>, x: real)
    ensures (forall i | 0 <= i < |Present(es)| :: x <= Present(es)[i]) <==> forall e | e in es && e.score.Some? :: e.score.value >= x
  {
    ScoreBelow(es, x);
  }

  lemma ScoreBelow(es: seq<Evaluation>, x: real)
    ensures (exists i :: 0 <= i < |Present(es)| && Present(es)[i] < x) <==> exists e :: e in es && e.score.Some? && e.score.value < x
  {
    var xs := Present(es);
    if e :| e in es && e.score.Some? && e.score.value < x {
      PresentHas(es, e);
      var i :| 0 <= i < |xs| && xs[i] == e.score.value;
    }
    if i: nat :| i < |xs| && xs[i] < x { var e := PresentFrom(es, i); }
  }

  lemma SelectedExactly(p: Params, r: Row)
    ensures PassesJoined(p, r) <==> Selected(p, r)
  {
    var es := if r.e.Some? then r.e.value.rows else [];
    assert Scores(r) == Present(es);
    NoScore(es);
    ScoresAtLeast(es, 0.8);
    ScoreBelow(es, 0.8);
    ScoresAtLeast(es, 0.5);
    ScoreBelow(es, 0.5);
  }

  lemma SortedRows(sort: string, rows: seq<Row>)
    ensures InOrder(sort, Sort(ByRow(sort), rows)) && multiset(Sort(ByRow(sort), rows)) == multiset(rows)
  {
    SortSorts(ByRow(sort), rows);
    var sorted := Sort(ByRow(sort), rows);
    forall i, j | 0 <= i < j < |sorted| ensures ByRow(sort)(sorted[i], sorted[j]) { }
  }

  lemma PageInOrder(sort: string, rows: seq<Row>, limit: nat, offset: nat)
    requires InOrder(sort, rows)
    ensures InOrder(sort, Page(rows, limit, offset))
  {
  }

  /** `fetch_traces`: None is a query the database refuses, for the unknown alias of the cost table. */
  method FetchTraces(db: Db, p: Params) returns (r: Option<seq<Row>>)
    ensures r.None? <==> FastPath(p) && p.agentKey.Some? && p.agentKind == Some("llm")
    ensures r.Some? && (FastPath(p) ==> Unique(db, p)) ==> r.value == Listing(db, p)
    ensures r.Some? ==> InOrder(p.sort, r.value) && forall x | x in r.value :: Selected(p, x)
  {
    var where_ := BuildWhere(db, p);
    RowsAsAsked(db, p, where_);
    if !FiltersAfterJoin(p) && !SortsOnJoin(p.sort) {
      if NeedsCost(where_) {
        return None;
      }
      r := Some(PageFirst(db, p, where_));
      if Unique(db, p) {
        PagingFirstIsEquivalent(db, p, where_);
        JoinFirstLists(db, p, where_);
      }
    } else {
      r := Some(JoinFirst(db, p, where_));
      JoinFirstLists(db, p, where_);
    }
  }

  lemma RowsAsAsked(db: Db, p: Params, where_: seq<Condition>)
    ensures (var r := PageFirst(db, p, where_); FastPath(p) ==> InOrder(p.sort, r) && forall x | x in r :: Selected(p, x))
    ensures (var r := JoinFirst(db, p, where_); InOrder(p.sort, r) && forall x | x in r :: Selected(p, x))
  {
    SortedRows(p.sort, JoinPage(db, p.org, FirstPage(db, p, where_)));
    var kept := Filter(KeepsRow(db, p, where_), Everything(db, p.org, db.traces));
    var sorted := Sort(ByRow(p.sort), kept);
    SortedRows(p.sort, kept);
    PageInOrder(p.sort, sorted, p.limit, p.offset);
    forall x | x in JoinFirst(db, p, where_) ensures Selected(p, x) {
      assert x in multiset(sorted);
      assert KeepsRow(db, p, where_)(x);
      SelectedExactly(p, x);
    }
  }

  lemma JoinFirstLists(db: Db, p: Params, where_: seq<Condition>)
    requires Means(db, p, where_)
    ensures JoinFirst(db, p, where_) == Listing(db, p)
  {
    FilterSame(KeepsRow(db, p, where_), WantedRow(db, p), Everything(db, p.org, db.traces));
  }

  /******* Joins one trace at a time *******/

  /** At most one cost row and one scan for every trace the query wants. */
  ghost predicate Unique(db: Db, p: Params) {
    forall t | t in db.traces && Wanted(db, p, t, None) :: SingleRow(db, t)
  }

  ghost predicate SingleRow(db: Db, t: Trace) {
    |CostsOf(t, db.costs)| == 1 && |ScansOf(t, db.scans)| == 1
  }

  lemma JoinAllAppend(a: seq<Trace>, b: seq<Trace>, costs: seq<Cost>, groups: seq<Group>, scans: seq<Scan>)
    ensures JoinAll(a + b, costs, groups, scans) == JoinAll(a, costs, groups, scans) + JoinAll(b, costs, groups, scans)
  {
    LeftJoinAppend(OnCost(), a, b, costs);
    var a1, b1 := LeftJoin(OnCost(), a, costs), LeftJoin(OnCost(), b, costs);
    LeftJoinAppend(OnGroup(), a1, b1, groups);
    LeftJoinAppend(OnScan(), LeftJoin(OnGroup(), a1, groups), LeftJoin(OnGroup(), b1, groups), scans);
  }

  /******* A single trace *******/

  /** The rows of one trace. */
  function Expand(t: Trace, costs: seq<Cost>, groups: seq<Group>, scans: seq<Scan>): seq<Row> {
    JoinAll([t], costs, groups, scans)
  }

  function Expander(costs: seq<Cost>, groups: seq<Group>, scans: seq<Scan>): Trace -> seq<Row> {
    (t: Trace) => Expand(t, costs, groups, scans)
  }

  lemma {:induction false} JoinAllExpands(ts: seq<Trace>, costs: seq<Cost>, groups: seq<Group>, scans: seq<Scan>)
    ensures JoinAll(ts, costs, groups, scans) == FlatMap(Expander(costs, groups, scans), ts)
  {
    if ts != [] {
      assert ts == [ts[0]] + ts[1..];
      JoinAllAppend([ts[0]], ts[1..], costs, groups, scans);
      JoinAllExpands(ts[1..], costs, groups, scans);
    }
  }

  function CostsOf(t: Trace, costs: seq<Cost>): seq<Option<Cost>> { Partners(OnCost(), t, costs) }
  function GroupsOf(t: Trace, groups: seq<Group>): seq<Option<Group>> { Partners(OfGroup(), t, groups) }
  function ScansOf(t: Trace, scans: seq<Scan>): seq<Option<Scan>> { Partners(OfScan(), t, scans) }
  function OfGroup(): (Trace, Group) -> bool { (t, g) => GroupOf(t, g) }
  function OfScan(): (Trace, Scan) -> bool { (t, s) => ScanOf(t, s) }

  /** A partner list depends on the trace alone, however far the join has gone. */
  lemma PartnersOfTrace(t: Trace, c: Option<Cost>, g: Option<Group>, groups: seq<Group>, scans: seq<Scan>)
    ensures Partners(OnGroup(), (t, c), groups) == GroupsOf(t, groups)
    ensures Partners(OnScan(), ((t, c), g), scans) == ScansOf(t, scans)
  {
    FoundSame(OnGroup(), (t, c), OfGroup(), t, groups);
    FoundSame(OnScan(), ((t, c), g), OfScan(), t, scans);
  }

  /** One partner on each side: one row. */
  lemma ExpandSingle(t: Trace, costs: seq<Cost>, groups: seq<Group>, scans: seq<Scan>)
    requires |CostsOf(t, costs)| == |GroupsOf(t, groups)| == |ScansOf(t, scans)| == 1
    ensures Expand(t, costs, groups, scans) == [Row(t, CostsOf(t, costs)[0], GroupsOf(t, groups)[0], ScansOf(t, scans)[0])]
  {
    var c, g := CostsOf(t, costs)[0], GroupsOf(t, groups)[0];
    LeftJoinOne(OnCost(), t, costs);
    assert LeftJoin(OnCost(), [t], costs) == [(t, c)];
    PartnersOfTrace(t, c, g, groups, scans);
    LeftJoinOne(OnGroup(), (t, c), groups);
    assert LeftJoin(OnGroup(), [(t, c)], groups) == [((t, c), g)];
    LeftJoinOne(OnScan(), ((t, c), g), scans);
  }

  /** A second cost row or scan: a second row. */
  lemma ExpandMany(t: Trace, costs: seq<Cost>, groups: seq<Group>, scans: seq<Scan>)
    requires |CostsOf(t, costs)| > 1 || |ScansOf(t, scans)| > 1
    ensures |Expand(t, costs, groups, scans)| > 1
  {
    LeftJoinOne(OnCost(), t, costs);
    var a := LeftJoin(OnCost(), [t], costs);
    LeftJoinAtLeast(OnGroup(), a, groups);
    var b := LeftJoin(OnGroup(), a, groups);
    LeftJoinAtLeast(OnScan(), b, scans);
    if |a| == 1 {
      var c := a[0].1;
      LeftJoinOne(OnGroup(), (t, c), groups);
      assert a == [(t, c)];
      var g := b[0].1;
      assert b[0] == ((t, c), g);
      PartnersOfTrace(t, c, g, groups, scans);
      LeftJoinOne(OnScan(), b[0], scans);
      LeftJoinAppend(OnScan(), [b[0]], b[1..], scans);
      assert b == [b[0]] + b[1..];
    }
  }

  /** The rows depend on the right sides only through the partners. */
  lemma ExpandSame(t: Trace, costs: seq<Cost>, groups: seq<Group>, scans: seq<Scan>,
                   costs': seq<Cost>, groups': seq<Group>, scans': seq<Scan>)
    requires CostsOf(t, costs) == CostsOf(t, costs') && GroupsOf(t, groups) == GroupsOf(t, groups') && ScansOf(t, scans) == ScansOf(t, scans')
    ensures Expand(t, costs, groups, scans) == Expand(t, costs', groups', scans')
  {
    LeftJoinOne(OnCost(), t, costs);
    LeftJoinOne(OnCost(), t, costs');
    var a := LeftJoin(OnCost(), [t], costs);
    LeftJoinKeeps(OnCost(), [t], costs);
    forall x | x in a ensures Partners(OnGroup(), x, groups) == Partners(OnGroup(), x, groups') {
      PartnersOfTrace(t, x.1, None, groups, scans);
      PartnersOfTrace(t, x.1, None, groups', scans');
    }
    LeftJoinSame(OnGroup(), a, groups, groups');
    var b := LeftJoin(OnGroup(), a, groups);
    LeftJoinKeeps(OnGroup(), a, groups);
    forall y | y in b ensures Partners(OnScan(), y, scans) == Partners(OnScan(), y, scans') {
      PartnersOfTrace(t, y.0.1, y.1, groups, scans);
      PartnersOfTrace(t, y.0.1, y.1, groups', scans');
    }
    LeftJoinSame(OnScan(), b, scans, scans');
  }

  /** Every row of a trace's expansion is a row of that trace. */
  lemma ExpandTrace(t: Trace, costs: seq<Cost>, groups: seq<Group>, scans: seq<Scan>)
    ensures forall r | r in Expand(t, costs, groups, scans) :: r.t == t
  {
    var a := LeftJoin(OnCost(), [t], costs);
    LeftJoinKeeps(OnCost(), [t], costs);
    LeftJoinKeeps(OnGroup(), a, groups);
    LeftJoinKeeps(OnScan(), LeftJoin(OnGroup(), a, groups), scans);
  }

  /******* Narrowing the right sides to the page *******/

  function OfEvaluation(): (Trace, Evaluation) -> bool { (t, e) => EvaluationOf(t, e) }

  lemma {:induction false} FilterKey(t: Trace, k: Evaluation, es: seq<Evaluation>)
    requires EvaluationOf(t, k)
    ensures Filter(SameKey(k), es) == Found(OfEvaluation(), t, es)
    ensures Found(OfEvaluation(), t, Filter(OtherKey(k), es)) == []
  {
    if es != [] {
      FilterKey(t, k, es[1..]);
      if OtherKey(k)(es[0]) {
        assert Filter(OtherKey(k), es)[1..] == Filter(OtherKey(k), es[1..]);
      } else {
        assert Filter(OtherKey(k), es) == Filter(OtherKey(k), es[1..]);
      }
    }
  }

  /** Grouping gives a trace one group, with its rows in order, or none. */
  lemma {:induction false} GroupByFinds(t: Trace, es: seq<Evaluation>)
    ensures Found(OfGroup(), t, GroupBy(es)) ==
      (var rows := Found(OfEvaluation(), t, es); if rows == [] then [] else [Group(t.org, t.id, rows)])
    decreases |es|
  {
    if es != [] {
      var k, rest := es[0], es[1..];
      var others := Filter(OtherKey(k), rest);
      var first := Group(k.org, k.id, Filter(SameKey(k), es));
      assert GroupBy(es) == [first] + GroupBy(others) && ([first] + GroupBy(others))[1..] == GroupBy(others);
      GroupByFinds(t, others);
      if EvaluationOf(t, k) {
        FilterKey(t, k, es);
        FilterKey(t, k, rest);
        assert Found(OfGroup(), t, GroupBy(es)) == [first] + Found(OfGroup(), t, GroupBy(others));
      } else {
        FoundFilter(OfEvaluation(), t, OtherKey(k), rest);
        assert Found(OfGroup(), t, GroupBy(es)) == Found(OfGroup(), t, GroupBy(others));
        assert Found(OfEvaluation(), t, es) == Found(OfEvaluation(), t, rest);
      }
    }
  }

  /** For a trace of the page the narrowed right sides hold the same partners. */
  lemma NarrowingIsInvisible(db: Db, org: Id, ids: set<Id>, t: Trace)
    requires t.org == org && t.id in ids
    ensures Expand(t, Filter(CostIn(org, ids), db.costs), GroupBy(Filter(EvaluationIn(org, ids), db.evaluations)),
                   Filter(ScanIn(org, ids), db.scans))
         == Expand(t, db.costs, OrgGroups(db, org), db.scans)
  {
    FoundFilter(OnCost(), t, CostIn(org, ids), db.costs);
    FoundFilter(OfScan(), t, ScanIn(org, ids), db.scans);
    GroupByFinds(t, Filter(EvaluationIn(org, ids), db.evaluations));
    GroupByFinds(t, Filter(OfOrg(org), db.evaluations));
    FoundFilter(OfEvaluation(), t, EvaluationIn(org, ids), db.evaluations);
    FoundFilter(OfEvaluation(), t, OfOrg(org), db.evaluations);
    ExpandSame(t, Filter(CostIn(org, ids), db.costs), GroupBy(Filter(EvaluationIn(org, ids), db.evaluations)),
               Filter(ScanIn(org, ids), db.scans), db.costs, OrgGroups(db, org), db.scans);
  }

  lemma JoinPageExpands(db: Db, org: Id, page: seq<Trace>)
    requires forall t | t in page :: t.org == org
    ensures JoinPage(db, org, page) == Everything(db, org, page)
  {
    var ids := set t | t in page :: t.id;
    var c, g, s := Filter(CostIn(org, ids), db.costs), GroupBy(Filter(EvaluationIn(org, ids), db.evaluations)), Filter(ScanIn(org, ids), db.scans);
    JoinAllExpands(page, c, g, s);
    JoinAllExpands(page, db.costs, OrgGroups(db, org), db.scans);
    forall t | t in page ensures Expander(c, g, s)(t) == Expander(db.costs, OrgGroups(db, org), db.scans)(t) {
      NarrowingIsInvisible(db, org, ids, t);
    }
    FlatMapSame(Expander(c, g, s), Expander(db.costs, OrgGroups(db, org), db.scans), page);
  }

  /******* Paging first *******/

  predicate UsesCost(p: Params) {
    p.agentKey.Some? && p.agentKind == Some("llm")
  }

  lemma WantedIgnoresCost(db: Db, p: Params, t: Trace, cost: Option<Cost>)
    requires !UsesCost(p)
    ensures Wanted(db, p, t, cost) == Wanted(db, p, t, None)
  {
  }

  /** The one row of a trace, when it has one. */
  function RowOf(db: Db, org: Id): Trace -> Row {
    (t: Trace) => Row(t, CostsOf(t, db.costs)[0], GroupsOf(t, OrgGroups(db, org))[0], ScansOf(t, db.scans)[0])
  }

  lemma JoinIsMap(db: Db, org: Id, ts: seq<Trace>)
    requires forall t | t in ts :: SingleRow(db, t)
    ensures Everything(db, org, ts) == Map(RowOf(db, org), ts)
  {
    var g := OrgGroups(db, org);
    JoinAllExpands(ts, db.costs, g, db.scans);
    forall t | t in ts ensures Expander(db.costs, g, db.scans)(t) == [RowOf(db, org)(t)] {
      GroupByFinds(t, Filter(OfOrg(org), db.evaluations));
      ExpandSingle(t, db.costs, g, db.scans);
    }
    FlatMapSingle(Expander(db.costs, g, db.scans), RowOf(db, org), ts);
  }

  lemma ByTraceOrders(sort: string)
    ensures TotalPreorder(ByTrace(sort))
  {
  }

  lemma FilteredRows(db: Db, p: Params, where_: seq<Condition>)
    requires FastPath(p) && !UsesCost(p) && Means(db, p, where_)
    ensures Filter(KeepsRow(db, p, where_), Everything(db, p.org, db.traces))
         == Everything(db, p.org, Filter(Keeps(db, p.org, where_), db.traces))
  {
    var g := OrgGroups(db, p.org);
    var f := Expander(db.costs, g, db.scans);
    JoinAllExpands(db.traces, db.costs, g, db.scans);
    JoinAllExpands(Filter(Keeps(db, p.org, where_), db.traces), db.costs, g, db.scans);
    forall t | t in db.traces ensures forall r | r in f(t) :: KeepsRow(db, p, where_)(r) == Keeps(db, p.org, where_)(t) {
      ExpandTrace(t, db.costs, g, db.scans);
      forall r | r in f(t) ensures KeepsRow(db, p, where_)(r) == Keeps(db, p.org, where_)(t) {
        WantedIgnoresCost(db, p, t, r.c);
      }
    }
    FilterFlatMap(f, Keeps(db, p.org, where_), KeepsRow(db, p, where_), db.traces);
  }

  lemma KeptIsWanted(db: Db, p: Params, where_: seq<Condition>, t: Trace)
    requires Means(db, p, where_) && t in Filter(Keeps(db, p.org, where_), db.traces)
    ensures t in db.traces && Wanted(db, p, t, None) && t.org == p.org
  {
    assert Keeps(db, p.org, where_)(t);
    assert AllHold(db, p.org, where_, t, None);
  }

  lemma PageIsWanted(db: Db, p: Params, where_: seq<Condition>)
    requires Means(db, p, where_) && Unique(db, p)
    ensures Sorted(ByTrace(p.sort), Sort(ByTrace(p.sort), Filter(Keeps(db, p.org, where_), db.traces)))
    ensures forall t | t in Filter(Keeps(db, p.org, where_), db.traces) :: SingleRow(db, t)
    ensures forall t | t in FirstPage(db, p, where_) :: SingleRow(db, t) && t.org == p.org
  {
    var kept := Filter(Keeps(db, p.org, where_), db.traces);
    var sorted := Sort(ByTrace(p.sort), kept);
    ByTraceOrders(p.sort);
    SortSorts(ByTrace(p.sort), kept);
    forall t | t in kept ensures SingleRow(db, t) { KeptIsWanted(db, p, where_, t); }
    forall t | t in FirstPage(db, p, where_) ensures SingleRow(db, t) && t.org == p.org {
      assert t in multiset(sorted);
      KeptIsWanted(db, p, where_, t);
    }
  }

  lemma PageFirstRows(db: Db, p: Params, where_: seq<Condition>)
    requires FastPath(p) && Means(db, p, where_) && Unique(db, p)
    ensures PageFirst(db, p, where_) == Map(RowOf(db, p.org), FirstPage(db, p, where_))
  {
    var le, page := ByTrace(p.sort), FirstPage(db, p, where_);
    PageIsWanted(db, p, where_);
    JoinPageExpands(db, p.org, page);
    JoinIsMap(db, p.org, page);
    SortMap(RowOf(db, p.org), le, ByRow(p.sort), page);
    PageSorted(le, Sort(le, Filter(Keeps(db, p.org, where_), db.traces)), p.limit, p.offset);
    SortKeepsSorted(le, page);
  }

  lemma JoinFirstRows(db: Db, p: Params, where_: seq<Condition>)
    requires FastPath(p) && !UsesCost(p) && Means(db, p, where_) && Unique(db, p)
    ensures JoinFirst(db, p, where_) == Map(RowOf(db, p.org), FirstPage(db, p, where_))
  {
    var le, kept := ByTrace(p.sort), Filter(Keeps(db, p.org, where_), db.traces);
    PageIsWanted(db, p, where_);
    FilteredRows(db, p, where_);
    JoinIsMap(db, p.org, kept);
    SortMap(RowOf(db, p.org), le, ByRow(p.sort), kept);
    PageMap(RowOf(db, p.org), Sort(le, kept), p.limit, p.offset);
  }

  /** With one row a trace, no filter after the join and a sort key of the base table, the two queries return the same rows in the same order. */
  lemma PagingFirstIsEquivalent(db: Db, p: Params, where_: seq<Condition>)
    requires FastPath(p) && !UsesCost(p) && Means(db, p, where_) && Unique(db, p)
    ensures PageFirst(db, p, where_) == JoinFirst(db, p, where_)
  {
    PageFirstRows(db, p, where_);
    JoinFirstRows(db, p, where_);
  }

  /** A trace with two rows makes the first query overrun a page of one. */
  lemma SecondRowOverruns(db: Db, p: Params, where_: seq<Condition>, t: Trace) returns (offset: nat)
    requires FastPath(p) && !UsesCost(p) && Means(db, p, where_)
    requires t in db.traces && Wanted(db, p, t, None) && !SingleRow(db, t)
    ensures var q := p.(limit := 1, offset := offset);
      |PageFirst(db, q, where_)| > 1 && |JoinFirst(db, q, where_)| <= 1
  {
    var kept := Filter(Keeps(db, p.org, where_), db.traces);
    FilterMember(Keeps(db, p.org, where_), db.traces, t);
    ByTraceOrders(p.sort);
    SortSorts(ByTrace(p.sort), kept);
    var sorted := Sort(ByTrace(p.sort), kept);
    assert t in multiset(sorted);
    offset :| 0 <= offset < |sorted| && sorted[offset] == t;
    var q := p.(limit := 1, offset := offset);
    assert FirstPage(db, q, where_) == [t];
    JoinPageExpands(db, p.org, [t]);
    ExpandMany(t, db.costs, OrgGroups(db, p.org), db.scans);
    SortLength(ByRow(p.sort), JoinPage(db, p.org, [t]));
  }

  lemma {:induction false} SortLength<A>(le: (A, A) -> bool, xs: seq<A>)
    ensures |Sort(le, xs)| == |xs|
  {
    if xs != [] {
      SortLength(le, xs[1..]);
      InsertLength(le, xs[0], Sort(le, xs[1..]));
    }
  }

  lemma {:induction false} InsertLength<A>(le: (A, A) -> bool, x: A, xs: seq<A>)
    ensures |Insert(le, x, xs)| == |xs| + 1
  {
    if xs != [] && !le(x, xs[0]) { InsertLength(le, x, xs[1..]); }
  }

  /** The rewrite is right for every page exactly when no wanted trace has a second cost row or scan. */
  lemma PagingFirstExactly(db: Db, p: Params, where_: seq<Condition>)
    requires FastPath(p) && !UsesCost(p) && Means(db, p, where_)
    ensures (forall limit: nat, offset: nat ::
        PageFirst(db, p.(limit := limit, offset := offset), where_) == JoinFirst(db, p.(limit := limit, offset := offset), where_))
      <==> Unique(db, p)
  {
    if Unique(db, p) {
      forall limit: nat, offset: nat ensures
          PageFirst(db, p.(limit := limit, offset := offset), where_) == JoinFirst(db, p.(limit := limit, offset := offset), where_)
      {
        var q := p.(limit := limit, offset := offset);
        assert forall t, cost :: Wanted(db, q, t, cost) == Wanted(db, p, t, cost);
        PagingFirstIsEquivalent(db, q, where_);
      }
    } else {
      var t :| t in db.traces && Wanted(db, p, t, None) && !SingleRow(db, t);
      var offset := SecondRowOverruns(db, p, where_, t);
      var q := p.(limit := 1, offset := offset);
      assert PageFirst(db, q, where_) != JoinFirst(db, q, where_);
    }
  }
}
