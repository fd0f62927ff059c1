/**
 The life of one task run (routes/datasets/__init__.py:838-870, 1114-1266): the launcher
 enrols every example, background generators record outcomes and publish scoring jobs,
 workers write result rows, and readers, each with its own three reads taken at
 different times, finalize the run. Any step of any of them may come next.
 */
module RunProtocol {
  import opened Wrappers
  import opened RunStore
  import Text

  type ReaderId = nat

  datatype Outcome = Output(text: string) | Error(message: string) {
    predicate Ok() { Output? }
  }

  datatype Generator = Waiting | Made(outcome: Outcome) | Noted(outcome: Outcome)

  datatype Reader =
    | Idle
    | HasRun(run: Run)
    | HasItems(run: Run, items: seq<Item>)
    | HasResults(run: Run, items: seq<Item>, rows: seq<Result>)

  datatype Launch = Created | Enrolled | Spawned

  datatype World = World(
    plan: seq<TraceId>,  // the traces the launcher will enrol
    launch: Launch,
    run: Run,
    items: seq<Item>,
    generators: map<TraceId, Generator>,
    recorded: set<TraceId>,
    jobs: set<TraceId>,
    rows: seq<Result>,
    readers: map<ReaderId, Reader>,
    early: bool)  // some reader finalized a run it saw no items of

  datatype Step =
    | Enrol | SetTotal
    | Generate(trace: TraceId, outcome: Outcome) | RecordIt(trace: TraceId) | RecordFails(trace: TraceId) | Publish(trace: TraceId)
    | Work(row: Result)
    | ReadRun(reader: ReaderId) | ReadItems(reader: ReaderId) | ReadResults(reader: ReaderId) | Finish(reader: ReaderId)

  ghost predicate Distinct(xs: seq<TraceId>) {
    forall i, j | 0 <= i < j < |xs| :: xs[i] != xs[j]
  }

  /** A fresh task run, with fresh trace ids for its examples. A run without examples is finalized on the spot and never gets here. */
  ghost predicate Init(w: World) {
    && w.plan != [] && Distinct(w.plan)
    && w.launch == Created
    && w.run.task && w.run.generated == 0 && w.run.genFailed == 0 && w.run.total == 0 && w.run.status == Running
    && w.items == [] && w.recorded == {} && w.jobs == {} && w.rows == [] && !w.early
    && w.generators == (map t | t in w.plan :: Waiting)
    && forall r | r in w.readers :: w.readers[r] == Idle
  }

  /** An outcome as it is stored: an answer of blanks is turned into an error first. */
  function Normalized(o: Outcome): Outcome {
    if o.Output? && Text.Blank(o.text) then Error("Task returned an empty response.")
    else if o.Error? && o.message == "" then Error("Exception") else o
  }

  function ErrorOf(o: Outcome): Option<string> {
    if o.Error? then Some(o.message) else None
  }

  function TextOf(o: Outcome): Option<string> {
    if o.Output? then Some(o.text) else None
  }

  predicate Enabled(w: World, s: Step) {
    match s
    case Enrol => w.launch == Created
    case SetTotal => w.launch == Enrolled
    case Generate(t, _) => w.launch == Spawned && t in w.generators && w.generators[t] == Waiting
    case RecordIt(t) => t in w.generators && w.generators[t].Made?
    case RecordFails(t) => t in w.generators && w.generators[t].Made?
    case Publish(t) => t in w.generators && w.generators[t].Noted? && w.generators[t].outcome.Ok()
    case Work(row) => row.trace in w.jobs
    case ReadRun(r) => r in w.readers && w.readers[r].Idle?
    case ReadItems(r) => r in w.readers && w.readers[r].HasRun?
    case ReadResults(r) => r in w.readers && w.readers[r].HasItems?
    case Finish(r) => r in w.readers && w.readers[r].HasResults?
  }

  function Next(w: World, s: Step): World
    requires Enabled(w, s)
  {
    match s
    case Enrol => w.(launch := Enrolled, items := RunStore.Blank(w.plan))
    case SetTotal => w.(launch := Spawned, run := w.run.(total := |w.plan|))
    case Generate(t, o) => w.(generators := w.generators[t := Made(Normalized(o))])
    case RecordIt(t) =>
      var o := w.generators[t].outcome;
      w.(items := RecordAll(w.items, t, TextOf(o), ErrorOf(o)), run := Count(w.run, ErrorOf(o)),
         recorded := w.recorded + {t}, generators := w.generators[t := Noted(o)])
    case RecordFails(t) => w.(generators := w.generators[t := Noted(w.generators[t].outcome)])
    case Publish(t) => w.(jobs := w.jobs + {t})
    case Work(row) => w.(rows := w.rows + [row])
    case ReadRun(r) => w.(readers := w.readers[r := HasRun(w.run)])
    case ReadItems(r) => w.(readers := w.readers[r := HasItems(w.readers[r].run, w.items)])
    case ReadResults(r) =>
      var q := w.readers[r];
      w.(readers := w.readers[r := HasResults(q.run, q.items, Fetch(w.rows, q.items))])
    case Finish(r) =>
      var q := w.readers[r];
      var w' := w.(readers := w.readers[r := Idle]);
      if Settles(q.run, q.items, q.rows) then
        w'.(run := Finalized(w.run, Summarize(q.run.kind, q.items, q.rows)), early := w.early || q.items == [])
      else w'
  }

  /** A run of the whole system: worlds joined by enabled steps. */
  ghost predicate Behavior(ws: seq<World>, steps: seq<Step>) {
    && |ws| == |steps| + 1
    && forall i | 0 <= i < |steps| :: Enabled(ws[i], steps[i]) && ws[i + 1] == Next(ws[i], steps[i])
  }

  /** Every enrolled item was recorded, and every item without a generation error has a result row. */
  ghost predicate Settled(w: World) {
    && w.launch == Spawned
    && (forall i | 0 <= i < |w.plan| :: w.plan[i] in w.recorded)
    && (forall i | 0 <= i < |w.items| :: Failed(w.items[i].genError) || w.items[i].trace in Covered(w.run.kind, w.rows))
  }

  /******* The invariant *******/

  ghost predicate Traces(items: seq<Item>, plan: seq<TraceId>) {
    |items| == |plan| && forall i | 0 <= i < |plan| :: items[i].trace == plan[i]
  }

  function Elements(xs: seq<TraceId>): set<TraceId> {
    set t | t in xs
  }

  function Plan(w: World): set<TraceId> {
    Elements(w.plan)
  }

  /** Recorded items carry their generator's outcome, the others nothing. */
  ghost predicate ItemsTell(w: World) {
    forall i | 0 <= i < |w.items| ::
      var t := w.items[i].trace;
      && (t !in w.recorded ==> w.items[i].genError == None)
      && (t in w.recorded ==> t in w.generators && w.generators[t].Noted? && w.items[i].genError == ErrorOf(w.generators[t].outcome))
  }

  ghost predicate GeneratorsTell(w: World) {
    && (forall t | t in w.generators && !w.generators[t].Waiting? && w.generators[t].outcome.Error? ::
          w.generators[t].outcome.message != "")
    && (forall t | t in w.generators && !w.generators[t].Waiting? :: w.launch == Spawned)
    && (forall t | t in w.recorded :: t in w.generators && w.generators[t].Noted?)
    && (forall t | t in w.jobs :: t in w.generators && w.generators[t].Noted? && w.generators[t].outcome.Ok())
    && (forall r | r in w.rows :: r.trace in w.jobs)
  }

  /** What a reader holds is an earlier state of what is stored now. */
  ghost predicate ReaderTells(w: World, q: Reader) {
    && (!q.Idle? ==> q.run.task && q.run.kind == w.run.kind && q.run.generated <= w.run.generated
                     && (q.run.total > 0 ==> w.launch == Spawned))
    && (q.HasItems? || q.HasResults? ==>
          if q.items == [] then q.run.total == 0 else (Traces(q.items, w.plan) && (q.run.generated >= |w.plan| ==>
            |w.items| == |w.plan| && forall i | 0 <= i < |w.plan| :: q.items[i].genError == w.items[i].genError)))
    && (q.HasResults? ==> forall x | x in q.rows :: x in w.rows)
  }

  ghost predicate Core(w: World) {
    && w.plan != [] && Distinct(w.plan) && w.run.task && (w.run.total > 0 ==> w.launch == Spawned)
    && w.generators.Keys == Plan(w)
    && (if w.launch == Created then w.items == [] else Traces(w.items, w.plan))
    && w.recorded <= Plan(w)
    && w.run.generated == |w.recorded|
    && ItemsTell(w) && GeneratorsTell(w)
  }

  ghost predicate Readers(w: World) {
    forall r | r in w.readers :: ReaderTells(w, w.readers[r])
  }

  ghost predicate Invariant(w: World) {
    Core(w) && Readers(w) && (w.run.status == Complete ==> w.early || Settled(w))
  }

  lemma {:induction false} PlanSize(xs: seq<TraceId>)
    requires Distinct(xs)
    ensures |Elements(xs)| == |xs|
  {
    if xs != [] {
      var n := |xs| - 1;
      PlanSize(xs[..n]);
      assert Elements(xs) == Elements(xs[..n]) + {xs[n]};
      assert xs[n] !in Elements(xs[..n]);
    }
  }

  lemma SubsetEqual(a: set<TraceId>, b: set<TraceId>)
    requires a <= b && |a| >= |b|
    ensures a == b
  {
    assert b == a + (b - a);
    assert |b| == |a| + |b - a|;
  }

  /** The counter has reached the plan: every planned trace is recorded. */
  lemma AllRecorded(w: World)
    requires Core(w) && w.run.generated >= |w.plan|
    ensures w.recorded == Plan(w) && w.launch == Spawned
  {
    PlanSize(w.plan);
    SubsetEqual(w.recorded, Plan(w));
    assert w.plan[0] in w.recorded;
  }

  /** How many items carry no error. */
  lemma {:induction false} HealthyCount(items: seq<Item>)
    requires forall i, j | 0 <= i < j < |items| :: items[i].trace != items[j].trace
    ensures |Healthy(items)| == |items| - FailedCount(items)
  {
    if items != [] {
      HealthyCount(items[1..]);
      var h := Healthy(items[1..]);
      if Failed(items[0].genError) {
        assert Healthy(items) == h;
      } else {
        assert Healthy(items) == h + {items[0].trace};
        assert items[0].trace !in h;
      }
    }
  }

  function Healthy(items: seq<Item>): set<TraceId> {
    set i | 0 <= i < |items| && !Failed(items[i].genError) :: items[i].trace
  }

  /** Only a trace whose generation succeeded has a result. */
  lemma CoveredAreHealthy(w: World, r: ReaderId)
    requires Invariant(w) && Enabled(w, Finish(r))
    requires (var q := w.readers[r]; q.items != [] && Settles(q.run, q.items, q.rows))
    ensures (var q := w.readers[r]; Covered(q.run.kind, q.rows) <= Healthy(q.items))
  {
    var q := w.readers[r];
    assert ReaderTells(w, q);
    AllRecorded(w);
    forall t | t in Covered(q.run.kind, q.rows) ensures t in Healthy(q.items) {
      var x :| x in q.rows && x.trace == t;
      assert x in w.rows && t in w.jobs && t in Plan(w);
      var i :| 0 <= i < |w.plan| && w.plan[i] == t;
      assert w.items[i].trace == t && w.items[i].genError == None;
    }
  }

  /** The counting argument: a reader that sees items and decides to finalize has seen a settled run. */
  lemma FinishIsSettled(w: World, r: ReaderId)
    requires Invariant(w) && Enabled(w, Finish(r))
    requires var q := w.readers[r]; q.items != [] && Settles(q.run, q.items, q.rows)
    ensures Settled(w)
  {
    var q := w.readers[r];
    assert ReaderTells(w, q);
    AllRecorded(w);
    assert forall i, j | 0 <= i < j < |q.items| :: q.items[i].trace != q.items[j].trace;
    HealthyCount(q.items);
    var covered := Covered(q.run.kind, q.rows);
    CoveredAreHealthy(w, r);
    SubsetEqual(covered, Healthy(q.items));
    forall i | 0 <= i < |w.items| ensures Failed(w.items[i].genError) || w.items[i].trace in Covered(w.run.kind, w.rows) {
      if !Failed(w.items[i].genError) {
        assert q.items[i].trace in Healthy(q.items);
        var x :| x in q.rows && Counts(q.run.kind, x) && x.trace == q.items[i].trace;
        assert x in w.rows;
      }
    }
  }

  lemma InitInvariant(w: World)
    requires Init(w)
    ensures Invariant(w)
  {
  }

  /** In a settled run nothing is left to record. */
  lemma NothingToRecord(w: World, t: TraceId)
    requires Core(w) && Settled(w)
    ensures !Enabled(w, RecordIt(t))
  {
    if t in w.generators { assert t in w.plan; }
  }

  /** A settled run stays settled, whatever happens next. */
  lemma SettledStays(w: World, s: Step)
    requires Core(w) && Settled(w) && Enabled(w, s)
    ensures Settled(Next(w, s)) && Next(w, s).items == w.items
  {
    var w' := Next(w, s);
    if s.RecordIt? {
      NothingToRecord(w, s.trace);
    } else if s.Work? {
      assert forall x | x in w.rows :: x in w'.rows;
    }
  }

  lemma CoreStep(w: World, s: Step)
    requires Core(w) && Enabled(w, s)
    ensures Core(Next(w, s))
  {
    match s
    case RecordIt(t) => RecordCore(w, t);
    case RecordFails(_) => GenerationCore(w, s);
    case Generate(_, _) => GenerationCore(w, s);
    case Publish(_) => GenerationCore(w, s);
    case Enrol => EnrolCore(w);
    case _ => OtherCore(w, s);
  }

  lemma EnrolCore(w: World)
    requires Core(w) && Enabled(w, Enrol)
    ensures Core(Next(w, Enrol))
  {
    assert forall t :: t !in w.recorded;
  }

  lemma OtherCore(w: World, s: Step)
    requires Core(w) && Enabled(w, s) && (s.SetTotal? || s.Work? || s.ReadRun? || s.ReadItems? || s.ReadResults? || s.Finish?)
    ensures Core(Next(w, s))
  {
    var w' := Next(w, s);
    assert w'.generators == w.generators && w'.recorded == w.recorded && w'.items == w.items && w'.jobs == w.jobs;
  }

  lemma GenerationCore(w: World, s: Step)
    requires Core(w) && Enabled(w, s) && (s.Generate? || s.RecordFails? || s.Publish?)
    ensures Core(Next(w, s))
  {
    var w' := Next(w, s);
    assert w'.generators.Keys == w.generators.Keys;
    assert GeneratorsTell(w');
    assert ItemsTell(w');
  }

  lemma RecordCore(w: World, t: TraceId)
    requires Core(w) && Enabled(w, RecordIt(t))
    ensures Core(Next(w, RecordIt(t)))
  {
    var w' := Next(w, RecordIt(t));
    RecordItems(w, t);
    assert t !in w.recorded;
    assert |w'.recorded| == |w.recorded| + 1;
  }

  lemma RecordItems(w: World, t: TraceId)
    requires Core(w) && Enabled(w, RecordIt(t))
    ensures var w' := Next(w, RecordIt(t));
      w'.generators.Keys == w.generators.Keys && Traces(w'.items, w.plan) && ItemsTell(w') && GeneratorsTell(w')
  {
    RecordGenerators(w, t);
    RecordTraces(w, t);
    var w' := Next(w, RecordIt(t));
    forall i | 0 <= i < |w'.items|
      ensures (var x := w'.items[i].trace;
               && (x !in w'.recorded ==> w'.items[i].genError == None)
               && (x in w'.recorded ==> x in w'.generators && w'.generators[x].Noted? && w'.items[i].genError == ErrorOf(w'.generators[x].outcome)))
    {
      RecordTells(w, t, i);
    }
  }

  lemma RecordTraces(w: World, t: TraceId)
    requires Core(w) && Enabled(w, RecordIt(t))
    ensures Traces(Next(w, RecordIt(t)).items, w.plan)
  {
  }

  lemma RecordTells(w: World, t: TraceId, i: nat)
    requires Core(w) && Enabled(w, RecordIt(t)) && i < |w.items|
    ensures (var w' := Next(w, RecordIt(t));
             var x := w'.items[i].trace;
             && (x !in w'.recorded ==> w'.items[i].genError == None)
             && (x in w'.recorded ==> x in w'.generators && w'.generators[x].Noted? && w'.items[i].genError == ErrorOf(w'.generators[x].outcome)))
  {
  }

  lemma RecordGenerators(w: World, t: TraceId)
    requires Core(w) && Enabled(w, RecordIt(t))
    ensures var w' := Next(w, RecordIt(t));
      w'.generators.Keys == w.generators.Keys && GeneratorsTell(w')
  {
    NotedTells(w, t, w.(generators := w.generators[t := Noted(w.generators[t].outcome)], recorded := w.recorded + {t}));
  }

  lemma NotedTells(w: World, t: TraceId, v: World)
    requires GeneratorsTell(w) && t in w.generators && w.generators[t].Made?
    requires v == w.(generators := w.generators[t := Noted(w.generators[t].outcome)], recorded := w.recorded + {t})
    ensures v.generators.Keys == w.generators.Keys && GeneratorsTell(v)
  {
  }

  /** The steps of others do not change what a reader holds, and what it holds stays an earlier state. */
  lemma ReaderStep(w: World, s: Step, q: Reader)
    requires Core(w) && Enabled(w, s) && ReaderTells(w, q)
    ensures ReaderTells(Next(w, s), q)
  {
    var w' := Next(w, s);
    if s.RecordIt? {
      assert s.trace !in w.recorded && s.trace in Plan(w);
      if !q.Idle? && q.run.generated >= |w.plan| { AllRecorded(w); }
    } else if s.Work? {
      assert forall x | x in w.rows :: x in w'.rows;
    }
  }

  lemma ReadTells(w: World, s: Step, r: ReaderId)
    requires Core(w) && Readers(w) && Enabled(w, s)
    requires s == ReadRun(r) || s == ReadItems(r) || s == ReadResults(r)
    ensures ReaderTells(Next(w, s), Next(w, s).readers[r])
  {
    assert ReaderTells(w, w.readers[r]);
    if s.ReadItems? {
      if w.launch != Created { assert w.items != []; }
      if w.readers[r].run.generated >= |w.plan| { AllRecorded(w); }
    }
  }

  lemma OneReader(w: World, s: Step, r: ReaderId)
    requires Core(w) && Readers(w) && Enabled(w, s) && r in Next(w, s).readers
    ensures ReaderTells(Next(w, s), Next(w, s).readers[r])
  {
    if s == ReadRun(r) || s == ReadItems(r) || s == ReadResults(r) {
      ReadTells(w, s, r);
    } else if s != Finish(r) {
      assert Next(w, s).readers[r] == w.readers[r];
      ReaderStep(w, s, w.readers[r]);
    }
  }

  lemma VerdictStep(w: World, s: Step)
    requires Invariant(w) && Enabled(w, s) && Next(w, s).run.status == Complete
    ensures Next(w, s).early || Settled(Next(w, s))
  {
    if Settled(w) { SettledStays(w, s); }
    if s.Finish? {
      var q := w.readers[s.reader];
      if q.items != [] && Settles(q.run, q.items, q.rows) { FinishIsSettled(w, s.reader); SettledStays(w, s); }
    }
  }

  /** Every step keeps the invariant. */
  lemma StepInvariant(w: World, s: Step)
    requires Invariant(w) && Enabled(w, s)
    ensures Invariant(Next(w, s))
  {
    var w' := Next(w, s);
    CoreStep(w, s);
    forall r | r in w'.readers ensures ReaderTells(w', w'.readers[r]) { OneReader(w, s, r); }
    if w'.run.status == Complete { VerdictStep(w, s); }
  }

  /******* Safety *******/

  lemma {:induction false} BehaviorInvariant(ws: seq<World>, steps: seq<Step>, i: nat)
    requires Behavior(ws, steps) && Init(ws[0]) && i < |ws|
    ensures Invariant(ws[i])
  {
    if i == 0 {
      InitInvariant(ws[0]);
    } else {
      BehaviorInvariant(ws, steps, i - 1);
      StepInvariant(ws[i - 1], steps[i - 1]);
    }
  }

  lemma CompleteUnlessEarly(ws: seq<World>, steps: seq<Step>, i: nat)
    requires Behavior(ws, steps) && Init(ws[0]) && i < |ws|
    ensures ws[i].run.status == Complete && !ws[i].early ==> Settled(ws[i])
  {
    BehaviorInvariant(ws, steps, i);
  }

  /** Every reader starts from a run row that the guard lets through. */
  ghost predicate Guarded(guard: Run -> bool, ws: seq<World>, steps: seq<Step>)
    requires Behavior(ws, steps)
  {
    forall k | 0 <= k < |steps| && steps[k].ReadRun? :: guard(ws[k].run)
  }

  /** Until the items are enrolled and counted, the row is as it was created and nobody holds it. */
  ghost predicate Calm(created: Run, w: World) {
    && !w.early
    && (if w.launch == Spawned then w.run.total > 0 else w.run == created)
    && forall r | r in w.readers && !w.readers[r].Idle? :: w.readers[r].run.total > 0
  }

  lemma CalmStep(created: Run, w: World, s: Step)
    requires Invariant(w) && Enabled(w, s) && Calm(created, w) && (s.ReadRun? ==> w.run != created)
    ensures Calm(created, Next(w, s))
  {
    var w' := Next(w, s);
    if s.Finish? { assert ReaderTells(w, w.readers[s.reader]); }
    forall r | r in w'.readers && !w'.readers[r].Idle? ensures w'.readers[r].run.total > 0 {
      if w.readers[r].Idle? { assert s == ReadRun(r); } else { assert w.readers[r].run.total > 0; }
    }
  }

  lemma {:induction false} CalmAlways(guard: Run -> bool, ws: seq<World>, steps: seq<Step>, i: nat)
    requires Behavior(ws, steps) && Init(ws[0]) && Guarded(guard, ws, steps) && !guard(ws[0].run) && i < |ws|
    ensures Calm(ws[0].run, ws[i])
  {
    if i > 0 {
      CalmAlways(guard, ws, steps, i - 1);
      BehaviorInvariant(ws, steps, i - 1);
      CalmStep(ws[0].run, ws[i - 1], steps[i - 1]);
    }
  }

  /** Whenever the run is complete, every item is recorded and every one without an error has a result. */
  ghost predicate Safe(ws: seq<World>) {
    forall i | 0 <= i < |ws| :: ws[i].run.status == Complete ==> Settled(ws[i])
  }

  lemma GuardedIsSafe(guard: Run -> bool, ws: seq<World>, steps: seq<Step>)
    requires Behavior(ws, steps) && Init(ws[0]) && Guarded(guard, ws, steps) && !guard(ws[0].run)
    ensures Safe(ws)
  {
    forall i | 0 <= i < |ws| ensures ws[i].run.status == Complete ==> Settled(ws[i]) {
      CalmAlways(guard, ws, steps, i);
      CompleteUnlessEarly(ws, steps, i);
    }
  }

  /**
   Whatever rows the readers agree to start from: all interleavings of a new run are safe
   if and only if the row as it was created is not one of them.
   */
  lemma SafeExactly(w: World, guard: Run -> bool, r: ReaderId)
    requires Init(w) && r in w.readers
    ensures (forall ws, steps | Behavior(ws, steps) && ws[0] == w && Guarded(guard, ws, steps) :: Safe(ws)) <==> !guard(w.run)
  {
    if guard(w.run) {
      var ws, steps := EarlyReportCompletes(w, r);
      assert Guarded(guard, ws, steps);
      assert !Safe(ws);
    } else {
      forall ws, steps | Behavior(ws, steps) && ws[0] == w && Guarded(guard, ws, steps) ensures Safe(ws) {
        GuardedIsSafe(guard, ws, steps);
      }
    }
  }

  function TotalIsSet(): Run -> bool {
    (run: Run) => run.total > 0
  }

  /** The guard of the runs list is one: no run that it finalizes is complete before it is settled. */
  lemma CompleteMeansSettled(ws: seq<World>, steps: seq<Step>, i: nat)
    requires Behavior(ws, steps) && Init(ws[0]) && i < |ws|
    requires forall k | 0 <= k < |steps| && steps[k].ReadRun? :: ws[k].run.total > 0
    ensures ws[i].run.status == Complete ==> Settled(ws[i])
    ensures ws[i].run.status == Complete ==> forall x | x in ws[i].items :: HasResult(ws[i], x)
  {
    assert Guarded(TotalIsSet(), ws, steps);
    GuardedIsSafe(TotalIsSet(), ws, steps);
    var w := ws[i];
    if w.run.status == Complete {
      CoveredExactly(w.run.kind, w.rows);
      forall x | x in w.items ensures HasResult(w, x) { }
    }
  }

  /** The item has an error that says something, or there is a result for it: for a metrics run, a scored evaluation. */
  ghost predicate HasResult(w: World, x: Item) {
    || (x.genError.Some? && x.genError.value != "")
    || exists r :: r in w.rows && r.trace == x.trace && (w.run.kind == Metrics ==> r.evaluator == "fluiq.eval" && r.scored)
  }

  /** A reader that finalizes on no items read the run row before its total was set. The runs list skips such rows, so only the report can do it. */
  lemma EarlyReaderSawNoTotal(ws: seq<World>, steps: seq<Step>, i: nat)
    requires Behavior(ws, steps) && Init(ws[0]) && i < |steps|
    requires !ws[i].early && ws[i + 1].early
    ensures steps[i].Finish? && ws[i].readers[steps[i].reader].run.total == 0
  {
    BehaviorInvariant(ws, steps, i);
    if steps[i].Finish? { assert ReaderTells(ws[i], ws[i].readers[steps[i].reader]); }
  }

  /** A reader of the row as it was created: a report opened at once completes a run that has generated nothing. */
  lemma EarlyReportCompletes(w: World, r: ReaderId) returns (ws: seq<World>, steps: seq<Step>)
    requires Init(w) && r in w.readers
    ensures Behavior(ws, steps) && ws[0] == w && forall k | 0 <= k < |steps| && steps[k].ReadRun? :: k == 0
    ensures ws[|ws| - 1].run.status == Complete && ws[|ws| - 1].recorded == {} && !Settled(ws[|ws| - 1])
  {
    steps := [ReadRun(r), ReadItems(r), ReadResults(r), Finish(r), Enrol, SetTotal];
    var w1, w2, w3, w4 := ReadAtOnce(w, r);
    var w5 := Next(w4, Enrol);
    var w6 := Next(w5, SetTotal);
    ws := [w, w1, w2, w3, w4, w5, w6];
    assert w.plan[0] !in w6.recorded;
  }

  lemma ReadAtOnce(w: World, r: ReaderId) returns (w1: World, w2: World, w3: World, w4: World)
    requires Init(w) && r in w.readers
    ensures Enabled(w, ReadRun(r)) && w1 == Next(w, ReadRun(r))
    ensures Enabled(w1, ReadItems(r)) && w2 == Next(w1, ReadItems(r))
    ensures Enabled(w2, ReadResults(r)) && w3 == Next(w2, ReadResults(r))
    ensures Enabled(w3, Finish(r)) && w4 == Next(w3, Finish(r))
    ensures w4.run.status == Complete && w4.recorded == {} && w4.launch == Created && w4.plan == w.plan
  {
    w1 := Next(w, ReadRun(r));
    w2 := Next(w1, ReadItems(r));
    w3 := Next(w2, ReadResults(r));
    assert w3.readers[r] == HasResults(w.run, [], Fetch([], []));
    assert Covered(w.run.kind, []) == {};
    w4 := Next(w3, Finish(r));
  }

  /** A run never goes back to running. */
  lemma {:induction false} CompleteForGood(ws: seq<World>, steps: seq<Step>, i: nat, j: nat)
    requires Behavior(ws, steps) && i <= j < |ws| && ws[i].run.status == Complete
    ensures ws[j].run.status == Complete
    decreases j - i
  {
    if i < j { CompleteForGood(ws, steps, i + 1, j); }
  }

  /******* Progress *******/

  /** What a reader holds that began reading after the run was settled. */
  ghost predicate Informed(w: World, q: Reader) {
    !q.Idle? ==>
      && (w.run.status == Complete || q.run.status == Running)
      && q.run.generated >= |w.plan| && q.run.kind == w.run.kind
      && (q.HasItems? || q.HasResults? ==> q.items == w.items)
      && (q.HasResults? ==> Healthy(w.items) <= Covered(q.run.kind, q.rows))
  }

  lemma InformedStep(w: World, s: Step, r: ReaderId)
    requires Invariant(w) && Settled(w) && Enabled(w, s) && r in w.readers && Informed(w, w.readers[r])
    ensures Informed(Next(w, s), Next(w, s).readers[r])
    ensures s == Finish(r) ==> Next(w, s).run.status == Complete
  {
    SettledStays(w, s);
    if s == Finish(r) {
      InformedFinish(w, r);
    } else if s == ReadRun(r) {
      PlanSize(w.plan);
      SubsetSize(Plan(w), w.recorded);
    } else if s == ReadResults(r) {
      HealthyFetched(w);
    } else if s != ReadItems(r) {
      assert Next(w, s).readers[r] == w.readers[r];
    }
  }

  lemma InformedFinish(w: World, r: ReaderId)
    requires Invariant(w) && Settled(w) && Enabled(w, Finish(r)) && Informed(w, w.readers[r])
    ensures Next(w, Finish(r)).run.status == Complete
  {
    var q := w.readers[r];
    assert ReaderTells(w, q);
    assert forall i, j | 0 <= i < j < |w.items| :: w.items[i].trace != w.items[j].trace;
    HealthyCount(w.items);
    SubsetSize(Healthy(w.items), Covered(q.run.kind, q.rows));
    assert q.run.status == Running ==> Settles(q.run, q.items, q.rows);
  }

  lemma HealthyFetched(w: World)
    requires Settled(w)
    ensures Healthy(w.items) <= Covered(w.run.kind, Fetch(w.rows, w.items))
  {
    forall t | t in Healthy(w.items) ensures t in Covered(w.run.kind, Fetch(w.rows, w.items)) {
      var i :| 0 <= i < |w.items| && !Failed(w.items[i].genError) && w.items[i].trace == t;
      var x :| x in w.rows && Counts(w.run.kind, x) && x.trace == t;
      assert x in Fetch(w.rows, w.items);
    }
  }

  lemma SubsetSize(a: set<TraceId>, b: set<TraceId>)
    requires a <= b
    ensures |a| <= |b|
  {
    assert b == a + (b - a);
    assert |b| == |a| + |b - a|;
  }

  /** Progress: a reader that starts once the run is settled leaves it complete, whatever happens in between. */
  lemma {:induction false} NextReadFinalizes(ws: seq<World>, steps: seq<Step>, a: nat, b: nat, r: ReaderId)
    requires Behavior(ws, steps) && Init(ws[0]) && a <= b < |steps|
    requires Settled(ws[a]) && r in ws[a].readers && ws[a].readers[r] == Idle && steps[b] == Finish(r)
    ensures ws[b + 1].run.status == Complete
  {
    var k := a;
    BehaviorInvariant(ws, steps, a);
    while k < b
      invariant a <= k <= b && Settled(ws[k]) && r in ws[k].readers && Informed(ws[k], ws[k].readers[r])
    {
      BehaviorInvariant(ws, steps, k);
      InformedStep(ws[k], steps[k], r);
      SettledStays(ws[k], steps[k]);
      k := k + 1;
    }
    BehaviorInvariant(ws, steps, b);
    InformedStep(ws[b], steps[b], r);
  }
}
