/**
 The trace list query (db_queues/clickhouse/queries.py, `fetch_traces`): one query pages
 the traces first and joins only the page, the other joins everything, filters, sorts
 and then limits.
 */
module TraceQuery {
  import opened Wrappers

  type Id = nat

  datatype Trace = Trace(
    org: Id, id: Id, root: Id, prefix: string, isRoot: bool, agentKey: string, agentKind: string,
    ingestedAt: int, latency: Option<real>, status: string, success: Option<bool>, integration: string)
  datatype Cost = Cost(org: Id, id: Id, total: Option<real>, currency: string, provider: string, model: string)
  datatype Evaluation = Evaluation(org: Id, id: Id, metric: string, score: Option<real>)
  datatype Scan = Scan(org: Id, id: Id, root: Id, level: string)
  datatype Tag = Tag(org: Id, id: Id, tag: string, deleted: bool)
  datatype Db = Db(traces: seq<Trace>, costs: seq<Cost>, evaluations: seq<Evaluation>, scans: seq<Scan>, tags: seq<Tag>)

  /** All evaluations of one trace, as the aggregated arrays hold them. */
  datatype Group = Group(org: Id, id: Id, rows: seq<Evaluation>)
  datatype Row = Row(t: Trace, c: Option<Cost>, e: Option<Group>, s: Option<Scan>)

  datatype Params = Params(
    org: Id, prefix: Option<string>, agentKey: Option<string>, agentKind: Option<string>, root: Option<Id>,
    rootsOnly: bool, limit: nat, offset: nat, sort: string, status: string, security: string,
    integration: string, quality: string, tags: seq<string>)

  /******* Conditions on the base table *******/

  datatype Condition =
    | InOrg(org: Id) | HasPrefix(prefix: string) | HasTag(tag: string) | HasRoot(root: Id) | IsRootRow
    | HasAgentKey(key: string) | HasAgentKind(kind: string) | ProviderModel(key: string)
    | IsRunning | Blocked | Failed | SubtreeBlocked | SubtreeFailed | Completed
    | HasIntegration(name: string) | Flagged

  predicate RowBlocked(t: Trace) {
    t.status == "blocked"
  }

  predicate RowFailed(t: Trace) {
    t.success == Some(false) && t.status != "blocked"
  }

  /** One condition of the WHERE clause on a trace; only `ProviderModel` looks at the joined cost row. */
  predicate Holds(db: Db, org: Id, c: Condition, t: Trace, cost: Option<Cost>) {
    match c
    case InOrg(o) => t.org == o
    case HasPrefix(p) => t.prefix == p
    case HasTag(tag) => exists g | g in db.tags :: g.org == org && g.tag == tag && !g.deleted && g.id == t.id
    case HasRoot(r) => t.root == r
    case IsRootRow => t.isRoot || t.id == t.root
    case HasAgentKey(k) => t.agentKey == k
    case HasAgentKind(k) => t.agentKind == k
    case ProviderModel(k) => cost.Some? && cost.value.provider + ":" + cost.value.model == k
    case IsRunning => t.status == "running"
    case Blocked => RowBlocked(t)
    case Failed => RowFailed(t)
    case SubtreeBlocked => exists u | u in db.traces :: u.org == org && RowBlocked(u) && u.root == t.root
    case SubtreeFailed => exists u | u in db.traces :: u.org == org && RowFailed(u) && u.root == t.root
    case Completed => t.status != "running" && t.status != "blocked" && t.success != Some(false)
    case HasIntegration(n) => t.integration == n
    case Flagged =>
      || (exists u | u in db.traces :: u.org == org && RowBlocked(u) && u.root == t.root)
      || (exists s | s in db.scans :: s.org == org && s.level in {"low", "medium", "high"} && s.root == t.root)
  }

  predicate AllHold(db: Db, org: Id, where_: seq<Condition>, t: Trace, cost: Option<Cost>) {
    forall i | 0 <= i < |where_| :: Holds(db, org, where_[i], t, cost)
  }

  predicate AgentWanted(db: Db, p: Params, t: Trace, cost: Option<Cost>)
    requires p.agentKey.Some?
  {
    if p.agentKind == Some("llm") then Holds(db, p.org, ProviderModel(p.agentKey.value), t, cost)
    else t.agentKey == p.agentKey.value
         && (p.agentKind in {Some("function"), Some("chain"), Some("langgraph_node")} ==> t.agentKind == p.agentKind.value)
  }

  /** A listing of roots looks for the status anywhere in the subtree, a listing of spans on the span itself. */
  predicate StatusWanted(db: Db, p: Params, t: Trace, cost: Option<Cost>) {
    var roots := p.rootsOnly || p.agentKey.Some?;
    match p.status
    case "running" => t.status == "running"
    case "blocked" => Holds(db, p.org, if roots then SubtreeBlocked else Blocked, t, cost)
    case "failed" => Holds(db, p.org, if roots then SubtreeFailed else Failed, t, cost)
    case "completed" => t.status != "running" && t.status != "blocked" && t.success != Some(false)
    case _ => true
  }

  /** What the parameters ask of a trace, in one reading. */
  predicate Wanted(db: Db, p: Params, t: Trace, cost: Option<Cost>) {
    var roots := p.rootsOnly || p.agentKey.Some?;
    && t.org == p.org
    && (p.prefix.Some? ==> t.prefix == p.prefix.value)
    && (forall i | 0 <= i < |p.tags| :: Holds(db, p.org, HasTag(p.tags[i]), t, cost))
    && (p.root.Some? ==> t.root == p.root.value)
    && (roots ==> t.isRoot || t.id == t.root)
    && (p.agentKey.Some? ==> AgentWanted(db, p, t, cost))
    && StatusWanted(db, p, t, cost)
    && (p.integration != "all" ==> t.integration == p.integration)
    && (p.security == "flagged" ==> Holds(db, p.org, Flagged, t, cost))
  }

  /** The WHERE clause, condition by condition. */
  method BuildWhere(db: Db, p: Params) returns (where_: seq<Condition>)
    ensures forall t, cost :: AllHold(db, p.org, where_, t, cost) <==> Wanted(db, p, t, cost)
    ensures NeedsCost(where_) <==> p.agentKey.Some? && p.agentKind == Some("llm")
  {
    where_ := [InOrg(p.org)];
    if p.prefix.Some? {
      where_ := where_ + [HasPrefix(p.prefix.value)];
    }
    ghost var before := where_;
    for i := 0 to |p.tags|
      invariant |where_| == |before| + i && where_[..|before|] == before
      invariant forall j | 0 <= j < i :: where_[|before| + j] == HasTag(p.tags[j])
    {
      where_ := where_ + [HasTag(p.tags[i])];
    }
    ghost var tagged := where_;
    where_ := where_ + RootConditions(p) + StatusConditions(p);
    forall t, cost ensures AllHold(db, p.org, where_, t, cost) <==> Wanted(db, p, t, cost) {
      AllHoldOne(db, p.org, InOrg(p.org), t, cost);
      if p.prefix.Some? {
        AllHoldAppend(db, p.org, [InOrg(p.org)], [HasPrefix(p.prefix.value)], t, cost);
        AllHoldOne(db, p.org, HasPrefix(p.prefix.value), t, cost);
      }
      AllHoldAppend(db, p.org, tagged + RootConditions(p), StatusConditions(p), t, cost);
      AllHoldAppend(db, p.org, tagged, RootConditions(p), t, cost);
      AllHoldTags(db, p.org, before, tagged, p.tags, t, cost);
      RootConditionsMean(db, p, t, cost);
      StatusConditionsMean(db, p, t, cost);
    }
    forall i | 0 <= i < |tagged| ensures !tagged[i].ProviderModel? {
      if i < |before| {
        assert tagged[i] == before[i];
      } else {
        assert tagged[|before| + (i - |before|)] == HasTag(p.tags[i - |before|]);
      }
    }
    NeedsCostAppend(tagged, RootConditions(p), StatusConditions(p));
  }

  /** The query mentions the alias of the cost table in its WHERE clause. */
  predicate NeedsCost(where_: seq<Condition>) {
    exists i | 0 <= i < |where_| :: where_[i].ProviderModel?
  }

  function RootConditions(p: Params): (cs: seq<Condition>)
    ensures NeedsCost(cs) <==> p.agentKey.Some? && p.agentKind == Some("llm")
  {
    var root := if p.root.Some? then [HasRoot(p.root.value)] else [];
    var roots := if p.rootsOnly then [IsRootRow] else [];
    if p.agentKey.None? then root + roots else
    var cs := root + roots + [IsRootRow];
    if p.agentKind in {Some("function"), Some("chain"), Some("langgraph_node")} then
      cs + [HasAgentKey(p.agentKey.value)] + [HasAgentKind(p.agentKind.value)]
    else if p.agentKind == Some("llm") then
      assert (cs + [ProviderModel(p.agentKey.value)])[|cs|].ProviderModel?;
      cs + [ProviderModel(p.agentKey.value)]
    else cs + [HasAgentKey(p.agentKey.value)]
  }

  function StatusOnly(p: Params): (cs: seq<Condition>)
    ensures |cs| <= 1 && !NeedsCost(cs)
  {
    var roots := p.rootsOnly || p.agentKey.Some?;
    match p.status
    case "running" => [IsRunning]
    case "blocked" => [if roots then SubtreeBlocked else Blocked]
    case "failed" => [if roots then SubtreeFailed else Failed]
    case "completed" => [Completed]
    case _ => []
  }

  function StatusConditions(p: Params): (cs: seq<Condition>)
    ensures !NeedsCost(cs)
  {
    StatusOnly(p)
    + (if p.integration != "all" then [HasIntegration(p.integration)] else [])
    + (if p.security == "flagged" then [Flagged] else [])
  }

  lemma NeedsCostAppend(a: seq<Condition>, b: seq<Condition>, c: seq<Condition>)
    ensures NeedsCost(a + b + c) <==> NeedsCost(a) || NeedsCost(b) || NeedsCost(c)
  {
    var all := a + b + c;
    assert forall i | 0 <= i < |a| :: all[i] == a[i];
    assert forall i | 0 <= i < |b| :: all[|a| + i] == b[i];
    assert forall i | 0 <= i < |c| :: all[|a| + |b| + i] == c[i];
  }

  lemma AllHoldOne(db: Db, org: Id, c: Condition, t: Trace, cost: Option<Cost>)
    ensures AllHold(db, org, [c], t, cost) <==> Holds(db, org, c, t, cost)
  {
    assert [c][0] == c;
  }

  lemma RootConditionsMean(db: Db, p: Params, t: Trace, cost: Option<Cost>)
    ensures AllHold(db, p.org, RootConditions(p), t, cost) <==>
      && (p.root.Some? ==> t.root == p.root.value)
      && (p.rootsOnly || p.agentKey.Some? ==> t.isRoot || t.id == t.root)
      && (p.agentKey.Some? ==> AgentWanted(db, p, t, cost))
  {
    var root := if p.root.Some? then [HasRoot(p.root.value)] else [];
    var roots := if p.rootsOnly then [IsRootRow] else [];
    AllHoldAppend(db, p.org, root, roots, t, cost);
    AllHoldOne(db, p.org, IsRootRow, t, cost);
    if p.root.Some? { AllHoldOne(db, p.org, HasRoot(p.root.value), t, cost); }
    if p.agentKey.Some? {
      var cs, key := root + roots + [IsRootRow], p.agentKey.value;
      AllHoldAppend(db, p.org, root + roots, [IsRootRow], t, cost);
      AllHoldAppend(db, p.org, cs, [HasAgentKey(key)], t, cost);
      AllHoldAppend(db, p.org, cs, [ProviderModel(key)], t, cost);
      AllHoldOne(db, p.org, HasAgentKey(key), t, cost);
      AllHoldOne(db, p.org, ProviderModel(key), t, cost);
      if p.agentKind.Some? {
        AllHoldAppend(db, p.org, cs + [HasAgentKey(key)], [HasAgentKind(p.agentKind.value)], t, cost);
        AllHoldOne(db, p.org, HasAgentKind(p.agentKind.value), t, cost);
      }
    }
  }

  lemma StatusConditionsMean(db: Db, p: Params, t: Trace, cost: Option<Cost>)
    ensures AllHold(db, p.org, StatusConditions(p), t, cost) <==>
      && StatusWanted(db, p, t, cost)
      && (p.integration != "all" ==> t.integration == p.integration)
      && (p.security == "flagged" ==> Holds(db, p.org, Flagged, t, cost))
  {
    var a := if p.integration != "all" then [HasIntegration(p.integration)] else [];
    var b := if p.security == "flagged" then [Flagged] else [];
    var c := StatusOnly(p);
    assert StatusConditions(p) == c + a + b;
    AllHoldAppend(db, p.org, c + a, b, t, cost);
    AllHoldAppend(db, p.org, c, a, t, cost);
    AllHoldOne(db, p.org, HasIntegration(p.integration), t, cost);
    AllHoldOne(db, p.org, Flagged, t, cost);
    if c != [] { AllHoldOne(db, p.org, c[0], t, cost); }
  }

  lemma AllHoldAppend(db: Db, org: Id, a: seq<Condition>, b: seq<Condition>, t: Trace, cost: Option<Cost>)
    ensures AllHold(db, org, a + b, t, cost) <==> AllHold(db, org, a, t, cost) && AllHold(db, org, b, t, cost)
  {
    if AllHold(db, org, a + b, t, cost) {
      forall i | 0 <= i < |a| ensures Holds(db, org, a[i], t, cost) { assert (a + b)[i] == a[i]; }
      forall i | 0 <= i < |b| ensures Holds(db, org, b[i], t, cost) { assert (a + b)[|a| + i] == b[i]; }
    }
  }

  lemma AllHoldTags(db: Db, org: Id, before: seq<Condition>, tagged: seq<Condition>, tags: seq<string>, t: Trace, cost: Option<Cost>)
    requires |tagged| == |before| + |tags| && tagged[..|before|] == before
    requires forall j | 0 <= j < |tags| :: tagged[|before| + j] == HasTag(tags[j])
    ensures AllHold(db, org, tagged, t, cost) <==>
      AllHold(db, org, before, t, cost) && forall j | 0 <= j < |tags| :: Holds(db, org, HasTag(tags[j]), t, cost)
  {
    var rest := tagged[|before|..];
    assert tagged == before + rest;
    AllHoldAppend(db, org, before, rest, t, cost);
    assert forall j | 0 <= j < |tags| :: rest[j] == HasTag(tags[j]);
  }
}
