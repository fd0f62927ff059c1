/**
 Resolving a dataset run's task (routes/datasets/task_runner.py, `resolve_task`): an inline
 template, or a saved prompt, as it is or pinned to one of its versions. The model names
 that have a provider and the tools that a prompt's settings hold are parameters.
 */
module TaskResolution {
  import opened Wrappers
  import opened PromptVersions
  import Text

  /** What is asked for; "" and [] stand for what is left out. */
  datatype Request = Request(template: string, model: string, pinned: Option<int>, tools: seq<string>, conversation: bool)

  /** A saved prompt as it is read. */
  datatype Saved = Saved(head: Snapshot, config: Option<string>, history: seq<Snapshot>)

  datatype Refusal = NotFound | NoVersion | NoModel | UnknownProvider | NoTemplate

  datatype Outcome = Refused(why: Refusal) | Task(template: string, model: string, tools: seq<string>,
                                                  version: Option<int>, name: Option<string>)

  function Given(m: Option<string>): string {
    if m.Some? then m.value else ""
  }

  function FirstOf(a: string, b: string): string {
    if a != "" then a else b
  }

  /** The checks that every task goes through in the end. */
  function Finish(req: Request, template: string, model: string, tools: seq<string>, version: Option<int>, name: Option<string>,
                  known: string -> bool): Outcome
  {
    var m := Text.Strip(FirstOf(req.model, model));
    if m == "" then Refused(NoModel)
    else if !known(m) then Refused(UnknownProvider)
    else if !req.conversation && Text.Blank(template) then Refused(NoTemplate)
    else Task(template, m, if req.tools != [] then req.tools else tools, version, name)
  }

  /** What a pinned or an unpinned task runs, in terms of the versions' bodies. */
  ghost function Resolution(first: int, bodies: seq<Body>, saved: Saved, req: Request, known: string -> bool,
                            toolsOf: Option<string> -> seq<string>): Outcome
    requires Recorded(first, bodies, saved.head, saved.history)
  {
    var v := if req.pinned.Some? then req.pinned.value else saved.head.version;
    if !(first <= v <= saved.head.version) then Refused(NoVersion) else
    var b := bodies[v - first];
    Finish(req, b.template, FirstOf(Given(b.model), Given(saved.head.body.model)), toolsOf(saved.config), Some(v),
           Some(saved.head.body.name), known)
  }

  /**
   `resolve_task`; `saved` is the prompt that the request names, if it names one and it is
   found. A task that is pinned to a version runs that version's template and is refused
   exactly if there is no such version; its tools are the head's all the same.
   */
  method ResolveTask(named: bool, saved: Option<Saved>, req: Request, known: string -> bool,
                     toolsOf: Option<string> -> seq<string>, ghost first: int, ghost bodies: seq<Body>) returns (outcome: Outcome)
    requires saved.Some? ==> Recorded(first, bodies, saved.value.head, saved.value.history)
    ensures !named ==> outcome == Finish(req, req.template, "", [], None, None, known)
    ensures named && saved.None? ==> outcome == Refused(NotFound)
    ensures named && saved.Some? ==> outcome == Resolution(first, bodies, saved.value, req, known, toolsOf)
    ensures named && saved.Some? && req.pinned.Some? ==>
      (outcome == Refused(NoVersion) <==> !(first <= req.pinned.value <= saved.value.head.version))
    ensures named && saved.Some? && req.pinned.Some? && outcome.Task? ==>
      outcome.version == req.pinned && outcome.template == bodies[req.pinned.value - first].template
    ensures named && saved.Some? && outcome.Task? && req.tools == [] ==> outcome.tools == toolsOf(saved.value.config)
  {
    var template, promptModel, promptTools := req.template, "", [];
    var version: Option<int>, name: Option<string> := None, None;
    if named {
      if saved.None? {
        return Refused(NotFound);
      }
      var head := saved.value.head;
      name, template, version := Some(head.body.name), head.body.template, Some(head.version);
      promptModel, promptTools := Given(head.body.model), toolsOf(saved.value.config);
      if req.pinned.Some? && req.pinned.value != head.version {
        var v := req.pinned.value;
        var found := FirstMatch(Reversed(saved.value.history), v);
        PinnedVersion(first, bodies, head, saved.value.history, v, found);
        if found.None? {
          return Refused(NoVersion);
        }
        template, version := found.value.body.template, Some(v);
        promptModel := FirstOf(Given(found.value.body.model), promptModel);
      }
    }
    var model := Text.Strip(FirstOf(req.model, promptModel));
    if model == "" {
      return Refused(NoModel);
    }
    if !known(model) {
      return Refused(UnknownProvider);
    }
    if !req.conversation && Text.Blank(template) {
      return Refused(NoTemplate);
    }
    outcome := Task(template, model, if req.tools != [] then req.tools else promptTools, version, name);
  }

  method FirstMatch(rows: seq<Snapshot>, version: int) returns (found: Option<Snapshot>)
    ensures found.Some? ==> found.value in rows && found.value.version == version
    ensures found.None? ==> forall i | 0 <= i < |rows| :: rows[i].version != version
  {
    for i := 0 to |rows|
      invariant forall j | 0 <= j < i :: rows[j].version != version
    {
      if rows[i].version == version {
        return Some(rows[i]);
      }
    }
    found := None;
  }

  /** The row that is found for a version in the past is the version's. */
  lemma PinnedVersion(first: int, bodies: seq<Body>, head: Snapshot, history: seq<Snapshot>, v: int, found: Option<Snapshot>)
    requires Recorded(first, bodies, head, history) && v != head.version
    requires found.Some? ==> found.value in Reversed(history) && found.value.version == v
    requires found.None? ==> forall i | 0 <= i < |history| :: Reversed(history)[i].version != v
    ensures found.Some? <==> first <= v <= head.version
    ensures found.Some? ==> found.value.body == bodies[v - first]
  {
    if first <= v <= head.version {
      assert Reversed(history)[|history| - 1 - (v - first)] == history[v - first];
    }
  }

  /******* What pinning promises *******/

  /** An edit in its two statements: the head that was read is snapshot, then the current head is advanced. */
  function AfterEdit(read: Snapshot, saved: Saved, e: Edit): Saved {
    Saved(Snapshot(saved.head.version + 1, Edited(saved.head.body, e)), Configured(saved.config, e), saved.history + [read])
  }

  /** Neither the head's model nor a later one matters, or the two are the same. */
  ghost predicate SameModel(b: Body, head: Body, later: Body, req: Request) {
    req.model != "" || Given(b.model) != "" || Text.Strip(Given(later.model)) == Text.Strip(Given(head.model))
  }

  /**
   A pinned task keeps its template, and is the same task after any later edits if and only
   if they leave alone what it takes from the head: the prompt's name, the tools, unless it
   brings its own, and the model, unless it or its version names one.
   */
  lemma PinSurvivesExactly(first: int, bodies: seq<Body>, saved: Saved, more: seq<Body>, later: Saved, req: Request,
                           known: string -> bool, toolsOf: Option<string> -> seq<string>, v: int)
    requires Recorded(first, bodies, saved.head, saved.history) && Recorded(first, more, later.head, later.history)
    requires bodies <= more && req.pinned == Some(v) && first <= v <= saved.head.version
    ensures (var o, p := Resolution(first, bodies, saved, req, known, toolsOf), Resolution(first, more, later, req, known, toolsOf);
             && (o.Task? && p.Task? ==> p.template == o.template && p.version == o.version)
             && (o.Task? ==> (p == o <==>
                   && (req.tools != [] || toolsOf(later.config) == toolsOf(saved.config))
                   && SameModel(bodies[v - first], saved.head.body, later.head.body, req)
                   && later.head.body.name == saved.head.body.name)))
  {
    assert more[v - first] == bodies[v - first];
  }

  /** A saved prompt after updates, one after the other. */
  function AfterEdits(saved: Saved, es: seq<Edit>): Saved {
    if es == [] then saved else
    var before := AfterEdits(saved, es[..|es| - 1]);
    AfterEdit(before.head, before, es[|es| - 1])
  }

  function BodiesAfter(bodies: seq<Body>, saved: Saved, es: seq<Edit>): seq<Body> {
    if es == [] then bodies else BodiesAfter(bodies, saved, es[..|es| - 1]) + [AfterEdits(saved, es).head.body]
  }

  lemma {:induction false} EditsRecorded(first: int, bodies: seq<Body>, saved: Saved, es: seq<Edit>)
    requires Recorded(first, bodies, saved.head, saved.history)
    ensures (var later := AfterEdits(saved, es);
             Recorded(first, BodiesAfter(bodies, saved, es), later.head, later.history) && bodies <= BodiesAfter(bodies, saved, es))
  {
    if es != [] {
      var n := |es| - 1;
      EditsRecorded(first, bodies, saved, es[..n]);
      var before := AfterEdits(saved, es[..n]);
      RecordedNext(first, BodiesAfter(bodies, saved, es[..n]), before.head, before.history, Edited(before.head.body, es[n]));
    }
  }

  /** The edit leaves alone all that a pinned task takes from the head. */
  predicate Harmless(e: Edit) {
    e.name.None? && e.model.None? && e.config.None? && !e.clearConfig
  }

  lemma {:induction false} HarmlessEdits(saved: Saved, es: seq<Edit>)
    requires forall i | 0 <= i < |es| :: Harmless(es[i])
    ensures (var later := AfterEdits(saved, es);
             && later.head.body.name == saved.head.body.name && later.head.body.model == saved.head.body.model
             && later.config == saved.config)
  {
    if es != [] { HarmlessEdits(saved, es[..|es| - 1]); }
  }

  /** However often a prompt's template and variables are edited, a pinned task stays the same. */
  lemma PinIgnoresTemplates(first: int, bodies: seq<Body>, saved: Saved, es: seq<Edit>, req: Request,
                            known: string -> bool, toolsOf: Option<string> -> seq<string>, v: int)
    requires Recorded(first, bodies, saved.head, saved.history) && req.pinned == Some(v) && first <= v <= saved.head.version
    requires forall i | 0 <= i < |es| :: Harmless(es[i])
    ensures (var later, more := AfterEdits(saved, es), BodiesAfter(bodies, saved, es);
             && Recorded(first, more, later.head, later.history)
             && (var o := Resolution(first, bodies, saved, req, known, toolsOf);
                 o.Task? ==> Resolution(first, more, later, req, known, toolsOf) == o))
  {
    EditsRecorded(first, bodies, saved, es);
    HarmlessEdits(saved, es);
    PinSurvivesExactly(first, bodies, saved, BodiesAfter(bodies, saved, es), AfterEdits(saved, es), req, known, toolsOf, v);
  }

  /** An update of the settings alone changes the tools that a task pinned to any version runs with, and nothing else of it. */
  lemma SettingsReachPins(first: int, bodies: seq<Body>, saved: Saved, config: string, req: Request,
                          known: string -> bool, toolsOf: Option<string> -> seq<string>, v: int)
    requires Recorded(first, bodies, saved.head, saved.history) && req.pinned == Some(v) && first <= v <= saved.head.version
    requires req.tools == [] && toolsOf(Some(config)) != toolsOf(saved.config)
    ensures (var e := Edit(None, None, None, None, Some(config), false);
             var later, more := AfterEdit(saved.head, saved, e), bodies + [saved.head.body];
             && Recorded(first, more, later.head, later.history)
             && (var o, p := Resolution(first, bodies, saved, req, known, toolsOf), Resolution(first, more, later, req, known, toolsOf);
                 o.Task? ==> p == o.(tools := toolsOf(Some(config))) && p != o))
  {
    RecordedNext(first, bodies, saved.head, saved.history, saved.head.body);
  }

  /******* Edits that are not serial *******/

  /** An edit keeps the history complete if and only if the head that it snapshots is the head that it replaces. */
  lemma EditKeepsHistoryExactly(first: int, bodies: seq<Body>, saved: Saved, read: Snapshot, e: Edit)
    requires Recorded(first, bodies, saved.head, saved.history)
    ensures (var after := AfterEdit(read, saved, e);
             Recorded(first, bodies + [Edited(saved.head.body, e)], after.head, after.history) <==> read == saved.head)
  {
    var after, more := AfterEdit(read, saved, e), bodies + [Edited(saved.head.body, e)];
    if Recorded(first, more, after.head, after.history) {
      assert after.history[|saved.history|] == read && more[|bodies| - 1] == bodies[|bodies| - 1];
    } else if read == saved.head {
      RecordedNext(first, bodies, saved.head, saved.history, Edited(saved.head.body, e));
    }
  }

  /** An edit that read an older head loses the version that it replaces. */
  lemma StaleEditLosesItsVersion(first: int, bodies: seq<Body>, saved: Saved, read: Snapshot, e: Edit)
    requires Recorded(first, bodies, saved.head, saved.history) && read.version < saved.head.version
    ensures (var after := AfterEdit(read, saved, e);
             after.head.version == saved.head.version + 1 && Find(after.history, saved.head.version) == None)
  {
    FindNothing(AfterEdit(read, saved, e).history, saved.head.version);
  }

  /** So two edits that read the same head lose the version in between. */
  lemma OverlappingEditsLoseAVersion(first: int, bodies: seq<Body>, saved: Saved, d: Edit, e: Edit)
    requires Recorded(first, bodies, saved.head, saved.history)
    ensures (var overlapped := AfterEdit(saved.head, AfterEdit(saved.head, saved, d), e);
             var lost := saved.head.version + 1;
             && overlapped.head.version == lost + 1
             && Find(overlapped.history, lost) == None
             && overlapped.history[|saved.history|] == overlapped.history[|saved.history| + 1] == saved.head)
  {
    EditKeepsHistoryExactly(first, bodies, saved, saved.head, d);
    StaleEditLosesItsVersion(first, bodies + [Edited(saved.head.body, d)], AfterEdit(saved.head, saved, d), saved.head, e);
  }
}
