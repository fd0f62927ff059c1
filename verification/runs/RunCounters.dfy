/**
 What a run's row says of its items (db_queues/postgresql/dataset_runs.py:62-114,
 routes/datasets/__init__.py:1114-1174): at every moment of every run the counters are
 those of the stored rows, and a row that was recorded holds an answer or an error.
 */
module RunCounters {
  import opened Wrappers
  import opened RunStore
  import opened RunProtocol
  import Text

  predicate Untouched(item: Item) {
    item.output == None && item.genError == None
  }

  /** An answer that says something, or else an error with a message. */
  predicate Filled(item: Item) {
    if item.output.Some? then Text.Says(item.output.value) && item.genError == None
    else item.genError.Some? && item.genError.value != ""
  }

  function FilledAt(items: seq<Item>): set<nat> {
    set i: nat | i < |items| && Filled(items[i])
  }

  ghost predicate ItemsAre(items: seq<Item>, recorded: set<TraceId>) {
    forall i | 0 <= i < |items| :: if items[i].trace in recorded then Filled(items[i]) else Untouched(items[i])
  }

  /** What the generators hold is what may be stored. */
  ghost predicate OutcomesAre(generators: map<TraceId, Generator>) {
    forall t | t in generators && !generators[t].Waiting? :: Storable(generators[t].outcome)
  }

  predicate Storable(o: Outcome) {
    match o
    case Output(text) => Text.Says(text)
    case Error(message) => message != ""
  }

  /** The row counts its items. */
  ghost predicate Tallied(w: World) {
    && w.run.total == (if w.launch == Spawned then |w.plan| else 0)
    && w.run.generated == |FilledAt(w.items)|
    && w.run.genFailed == |FailedAt(w.items)|
    && ItemsAre(w.items, w.recorded) && OutcomesAre(w.generators)
  }

  lemma NormalizedIsStorable(o: Outcome)
    ensures Storable(Normalized(o))
    ensures Storable(o) ==> Normalized(o) == o
    ensures Normalized(o).Output? ==> Normalized(o) == o
  {
  }

  lemma OneFilled(items: seq<Item>, k: nat, item: Item)
    requires k < |items| && Untouched(items[k]) && Filled(item)
    ensures |FilledAt(items[k := item])| == |FilledAt(items)| + 1
    ensures |FailedAt(items[k := item])| == |FailedAt(items)| + if item.genError.Some? then 1 else 0
  {
    assert FilledAt(items[k := item]) == FilledAt(items) + {k};
    assert FailedAt(items[k := item]) == FailedAt(items) + if item.genError.Some? then {k} else {};
  }

  /** Recording a trace changes its one item. */
  lemma RecordOne(items: seq<Item>, plan: seq<TraceId>, k: nat, output: Option<string>, error: Option<string>)
    requires Traces(items, plan) && Distinct(plan) && k < |plan|
    ensures RecordAll(items, plan[k], output, error) == items[k := Item(plan[k], output, error)]
  {
  }

  lemma StillAre(items: seq<Item>, plan: seq<TraceId>, recorded: set<TraceId>, k: nat, item: Item)
    requires Traces(items, plan) && Distinct(plan) && k < |plan| && ItemsAre(items, recorded)
    requires item.trace == plan[k] && Filled(item)
    ensures ItemsAre(items[k := item], recorded + {plan[k]})
  {
  }

  lemma RecordTallies(w: World, t: TraceId)
    requires Core(w) && Tallied(w) && Enabled(w, RecordIt(t))
    ensures Tallied(Next(w, RecordIt(t)))
  {
    var o := w.generators[t].outcome;
    assert Storable(o) && t !in w.recorded && t in Plan(w);
    var k: nat :| k < |w.plan| && w.plan[k] == t;
    var item := Item(t, TextOf(o), ErrorOf(o));
    assert Untouched(w.items[k]) && Filled(item);
    RecordOne(w.items, w.plan, k, TextOf(o), ErrorOf(o));
    OneFilled(w.items, k, item);
    StillAre(w.items, w.plan, w.recorded, k, item);
    StillStorable(w.generators, t);
  }

  lemma StillStorable(generators: map<TraceId, Generator>, t: TraceId)
    requires OutcomesAre(generators) && t in generators && generators[t].Made?
    ensures OutcomesAre(generators[t := Noted(generators[t].outcome)])
  {
  }

  lemma EnrolTallies(w: World)
    requires Core(w) && Tallied(w) && Enabled(w, Enrol)
    ensures Tallied(Next(w, Enrol))
  {
    var w' := Next(w, Enrol);
    assert w.items == [] && FilledAt([]) == {} && FailedAt([]) == {};
    assert FilledAt(w'.items) == {} && FailedAt(w'.items) == {};
    assert w.recorded == {} by { assert forall t :: t !in w.recorded; }
  }

  lemma OtherTallies(w: World, s: Step)
    requires Core(w) && Tallied(w) && Enabled(w, s) && !s.RecordIt? && !s.Enrol?
    ensures Tallied(Next(w, s))
  {
    if s.Generate? { NormalizedIsStorable(s.outcome); }
  }

  lemma InitTallies(w: World)
    requires Init(w)
    ensures Tallied(w)
  {
    assert FilledAt([]) == {} && FailedAt([]) == {};
  }

  /** At every moment of every run the row's total and counters are those of its items. */
  lemma {:induction false} CountersMatchItems(ws: seq<World>, steps: seq<Step>, k: nat)
    requires Behavior(ws, steps) && Init(ws[0]) && k < |ws|
    ensures Tallied(ws[k])
  {
    if k == 0 {
      InitTallies(ws[0]);
    } else {
      CountersMatchItems(ws, steps, k - 1);
      InitInvariant(ws[0]);
      BehaviorInvariant(ws, steps, k - 1);
      var w, s := ws[k - 1], steps[k - 1];
      match s
      case RecordIt(t) => RecordTallies(w, t);
      case Enrol => EnrolTallies(w);
      case _ => OtherTallies(w, s);
    }
  }
}
