/**
 What the trace list shows, in the fields of the tables (db_queues/clickhouse/queries.py:82-352).
 */
module TraceListing {
  import opened Wrappers
  import opened Relations
  import opened TraceQuery
  import opened TracePaging

  /******* The joined relation *******/

  /** The row has a trace of the table, a cost row, a scan and the scored evaluations of this trace, or none if there is none. */
  ghost predicate Joined(db: Db, org: Id, r: Row) {
    && r.t in db.traces
    && (r.c.Some? ==> r.c.value in db.costs && r.c.value.org == r.t.org && r.c.value.id == r.t.id)
    && (r.c.None? ==> forall c | c in db.costs :: !(c.org == r.t.org && c.id == r.t.id))
    && (r.s.Some? ==> r.s.value in db.scans && r.s.value.org == r.t.org && r.s.value.id == r.t.id)
    && (r.s.None? ==> forall s | s in db.scans :: !(s.org == r.t.org && s.id == r.t.id))
    && (r.e.Some? ==> r.e.value.org == r.t.org == org && r.e.value.id == r.t.id && r.e.value.rows != []
                      && forall e :: e in r.e.value.rows <==> e in db.evaluations && e.org == r.t.org && e.id == r.t.id)
    && (r.e.None? ==> forall e | e in db.evaluations :: !(e.org == r.t.org == org && e.id == r.t.id))
  }

  lemma JoinAllMembers(db: Db, org: Id, r: Row)
    ensures r in Everything(db, org, db.traces)
       <==> && r.t in db.traces
            && (if r.c.Some? then r.c.value in db.costs && CostOf(r.t, r.c.value) else forall c | c in db.costs :: !CostOf(r.t, c))
            && (if r.e.Some? then r.e.value in OrgGroups(db, org) && GroupOf(r.t, r.e.value) else forall g | g in OrgGroups(db, org) :: !GroupOf(r.t, g))
            && (if r.s.Some? then r.s.value in db.scans && ScanOf(r.t, r.s.value) else forall s | s in db.scans :: !ScanOf(r.t, s))
  {
    var a := LeftJoin(OnCost(), db.traces, db.costs);
    var b := LeftJoin(OnGroup(), a, OrgGroups(db, org));
    var c := LeftJoin(OnScan(), b, db.scans);
    LeftJoinMembers(OnCost(), db.traces, db.costs, r.t, r.c);
    LeftJoinMembers(OnGroup(), a, OrgGroups(db, org), (r.t, r.c), r.e);
    LeftJoinMembers(OnScan(), b, db.scans, ((r.t, r.c), r.e), r.s);
    var z := (((r.t, r.c), r.e), r.s);
    var rows := Map(ToRow(), c);
    if z in c { var i :| 0 <= i < |c| && c[i] == z; assert rows[i] == r; }
    if r in rows { var i :| 0 <= i < |rows| && rows[i] == r; assert c[i] == z; }
  }

  /** The evaluations of one trace make one group. */
  lemma GroupOfTrace(db: Db, org: Id, t: Trace, g: Group)
    ensures g in OrgGroups(db, org) && GroupOf(t, g) ==>
      t.org == org && g.org == t.org && g.id == t.id && g.rows != []
      && forall e :: e in g.rows <==> e in db.evaluations && e.org == t.org && e.id == t.id
  {
    var ofOrg := Filter(OfOrg(org), db.evaluations);
    var rows := Found(OfEvaluation(), t, ofOrg);
    GroupByFinds(t, ofOrg);
    FoundMember(OfGroup(), t, OrgGroups(db, org), g);
    if g in OrgGroups(db, org) && GroupOf(t, g) {
      assert g == Group(t.org, t.id, rows);
      FoundMember(OfEvaluation(), t, ofOrg, rows[0]);
      OfOrgMember(db, org, rows[0]);
      forall e ensures e in g.rows <==> e in db.evaluations && e.org == t.org && e.id == t.id {
        OfOrgMember(db, org, e);
        FoundMember(OfEvaluation(), t, ofOrg, e);
      }
    }
  }

  lemma OfOrgMember(db: Db, org: Id, e: Evaluation)
    ensures e in Filter(OfOrg(org), db.evaluations) <==> e in db.evaluations && e.org == org
  {
    if e in db.evaluations && e.org == org { FilterMember(OfOrg(org), db.evaluations, e); }
  }

  lemma NoGroup(db: Db, org: Id, t: Trace, e: Evaluation)
    requires e in db.evaluations && e.org == t.org == org && e.id == t.id
    ensures exists g :: g in OrgGroups(db, org) && GroupOf(t, g)
  {
    var ofOrg := Filter(OfOrg(org), db.evaluations);
    GroupByFinds(t, ofOrg);
    OfOrgMember(db, org, e);
    FoundMember(OfEvaluation(), t, ofOrg, e);
    var g := Group(t.org, t.id, Found(OfEvaluation(), t, ofOrg));
    assert Found(OfGroup(), t, OrgGroups(db, org)) == [g] && g in [g];
    FoundMember(OfGroup(), t, OrgGroups(db, org), g);
  }

  /** Every row of the join is one of the joined relation, and every combination of partners is a row. */
  lemma JoinedExactly(db: Db, org: Id, r: Row)
    ensures r in Everything(db, org, db.traces) ==> Joined(db, org, r)
    ensures Joined(db, org, r) && r.e.None? ==> r in Everything(db, org, db.traces)
  {
    JoinAllMembers(db, org, r);
    if r.e.Some? { GroupOfTrace(db, org, r.t, r.e.value); }
    if e :| e in db.evaluations && e.org == r.t.org == org && e.id == r.t.id { NoGroup(db, org, r.t, e); }
    if g :| g in OrgGroups(db, org) && GroupOf(r.t, g) {
      GroupOfTrace(db, org, r.t, g);
      assert g.rows[0] in g.rows;
    }
  }

  /******* The wanted traces *******/

  /** Some span of the trace's tree is blocked, or failed. */
  ghost predicate SubtreeHas(db: Db, org: Id, root: Id, blocked: bool) {
    exists u :: u in db.traces && u.org == org && u.root == root
      && (if blocked then u.status == "blocked" else u.success == Some(false) && u.status != "blocked")
  }

  ghost predicate AgentAsked(p: Params, t: Trace, cost: Option<Cost>) {
    && (p.agentKey.Some? && p.agentKind == Some("llm") ==> cost.Some? && cost.value.provider + ":" + cost.value.model == p.agentKey.value)
    && (p.agentKey.Some? && p.agentKind != Some("llm") ==> p.agentKey.value == t.agentKey)
    && (p.agentKey.Some? && p.agentKind in {Some("function"), Some("chain"), Some("langgraph_node")} ==> p.agentKind.value == t.agentKind)
  }

  ghost predicate StatusAsked(db: Db, p: Params, t: Trace) {
    var roots := p.rootsOnly || p.agentKey.Some?;
    && (p.status == "running" ==> t.status == "running")
    && (p.status == "blocked" ==> if roots then SubtreeHas(db, p.org, t.root, true) else t.status == "blocked")
    && (p.status == "failed" ==> if roots then SubtreeHas(db, p.org, t.root, false) else t.success == Some(false) && t.status != "blocked")
    && (p.status == "completed" ==> t.status !in {"running", "blocked"} && (t.success.Some? ==> t.success.value))
  }

  /** What is asked of a trace and its cost row, in fields. */
  ghost predicate Asked(db: Db, p: Params, t: Trace, cost: Option<Cost>) {
    && t.org == p.org
    && (p.prefix.Some? ==> p.prefix.value == t.prefix)
    && (forall tag | tag in p.tags :: exists g :: g in db.tags && g.org == p.org && g.id == t.id && g.tag == tag && !g.deleted)
    && (p.root.Some? ==> p.root.value == t.root)
    && (p.rootsOnly || p.agentKey.Some? ==> t.isRoot || t.root == t.id)
    && AgentAsked(p, t, cost) && StatusAsked(db, p, t)
    && (p.integration != "all" ==> p.integration == t.integration)
    && (p.security == "flagged" ==>
          || SubtreeHas(db, p.org, t.root, true)
          || exists s :: s in db.scans && s.org == p.org && s.root == t.root && s.level in {"low", "medium", "high"})
  }

  lemma AskedExactly(db: Db, p: Params, t: Trace, cost: Option<Cost>)
    ensures Wanted(db, p, t, cost) <==> Asked(db, p, t, cost)
  {
    StatusExactly(db, p, t, cost);
    AgentExactly(db, p, t, cost);
    TagsExactly(db, p, t, cost);
    FlaggedExactly(db, p.org, t, cost);
  }

  lemma AgentExactly(db: Db, p: Params, t: Trace, cost: Option<Cost>)
    ensures (p.agentKey.Some? ==> AgentWanted(db, p, t, cost)) <==> AgentAsked(p, t, cost)
  {
  }

  lemma StatusExactly(db: Db, p: Params, t: Trace, cost: Option<Cost>)
    ensures StatusWanted(db, p, t, cost) <==> StatusAsked(db, p, t)
  {
    SubtreeExactly(db, p.org, t, cost);
  }

  lemma SubtreeExactly(db: Db, org: Id, t: Trace, cost: Option<Cost>)
    ensures Holds(db, org, SubtreeBlocked, t, cost) <==> SubtreeHas(db, org, t.root, true)
    ensures Holds(db, org, SubtreeFailed, t, cost) <==> SubtreeHas(db, org, t.root, false)
  {
  }

  lemma FlaggedExactly(db: Db, org: Id, t: Trace, cost: Option<Cost>)
    ensures Holds(db, org, Flagged, t, cost) <==>
      || SubtreeHas(db, org, t.root, true)
      || exists s :: s in db.scans && s.org == org && s.root == t.root && s.level in {"low", "medium", "high"}
  {
  }

  lemma TagsExactly(db: Db, p: Params, t: Trace, cost: Option<Cost>)
    ensures (forall i | 0 <= i < |p.tags| :: Holds(db, p.org, HasTag(p.tags[i]), t, cost))
       <==> forall tag | tag in p.tags :: exists g :: g in db.tags && g.org == p.org && g.id == t.id && g.tag == tag && !g.deleted
  {
    assert forall i | 0 <= i < |p.tags| :: p.tags[i] in p.tags;
  }

  /******* The listing *******/

  /**
   What `fetch_traces` returns is a page of all the joined rows that are asked for and
   selected, each of them and no other, in the order asked for.
   */
  lemma ListingExactly(db: Db, p: Params) returns (all: seq<Row>)
    ensures Listing(db, p) == Page(all, p.limit, p.offset) && InOrder(p.sort, all)
    ensures forall r :: r in all <==> r in Everything(db, p.org, db.traces) && Asked(db, p, r.t, r.c) && Selected(p, r)
  {
    var rows := Everything(db, p.org, db.traces);
    var kept := Filter(WantedRow(db, p), rows);
    all := Sort(ByRow(p.sort), kept);
    SortedRows(p.sort, kept);
    forall r ensures r in all <==> r in rows && Asked(db, p, r.t, r.c) && Selected(p, r) {
      assert r in all <==> r in multiset(all);
      AskedExactly(db, p, r.t, r.c);
      SelectedExactly(p, r);
      if r in rows && WantedRow(db, p)(r) { FilterMember(WantedRow(db, p), rows, r); }
    }
  }

  /** The rows of a page are those after the offset, up to the limit. */
  lemma PageExactly<A>(rows: seq<A>, limit: nat, offset: nat)
    ensures (var page := Page(rows, limit, offset);
             && |page| == (if |rows| <= offset then 0 else if |rows| - offset < limit then |rows| - offset else limit)
             && forall i | 0 <= i < |page| :: page[i] == rows[offset + i])
  {
  }
}
