/**
 Which template, model and tools a task runs with (routes/datasets/task_runner.py,
 `resolve_task`), spelled out: what the request names comes first, then the version it is
 pinned to, then the prompt as it is.
 */
module TaskChoice {
  import opened Wrappers
  import opened Text
  import opened PromptVersions
  import opened TaskResolution

  /** `core` is `s` without the white space at both ends. */
  ghost predicate Trims(s: string, core: string) {
    Ends(core) && exists left, right :: s == left + core + right && Blank(left) && Blank(right)
  }

  /** The outcome for a template, a model as it was written, and the tools that were found. */
  ghost predicate Decides(o: Outcome, req: Request, template: string, written: string, model: string, tools: seq<string>,
                          version: Option<int>, name: Option<string>, known: string -> bool)
  {
    if !Says(written) then o == Refused(NoModel)
    else if !known(model) then o == Refused(UnknownProvider)
    else if !req.conversation && !Says(template) then o == Refused(NoTemplate)
    else
      && o.Task? && o.template == template && o.model == model && o.version == version && o.name == name
      && (req.tools != [] ==> o.tools == req.tools) && (req.tools == [] ==> o.tools == tools)
  }

  lemma FinishExactly(req: Request, template: string, fallback: string, tools: seq<string>, version: Option<int>, name: Option<string>,
                      known: string -> bool) returns (model: string)
    ensures (var written := if |req.model| > 0 then req.model else fallback;
             && Trims(written, model)
             && Decides(Finish(req, template, fallback, tools, version, name, known), req, template, written, model, tools, version, name, known))
  {
    var written := if |req.model| > 0 then req.model else fallback;
    model := Strip(written);
    var left, right := StripExactly(written);
    StripBlank(written);
    assert FirstOf(req.model, fallback) == written;
  }

  /** The first of these that names a model: the request, the body that runs, the prompt's head. */
  function Written(req: Request, body: Body, head: Body): string {
    if |req.model| > 0 then req.model
    else match body.model
      case Some(m) => if |m| > 0 then m else OfHead(head)
      case None => OfHead(head)
  }

  function OfHead(head: Body): string {
    match head.model
    case Some(m) => m
    case None => ""
  }

  lemma WrittenExactly(req: Request, body: Body, head: Body)
    ensures Written(req, body, head) == if |req.model| > 0 then req.model else FirstOf(Given(body.model), Given(head.model))
  {
    assert FirstOf(Given(body.model), Given(head.model)) == if |Given(body.model)| > 0 then Given(body.model) else Given(head.model);
  }

  /** A saved prompt: a missing version is refused; the body of the pinned one, or of the head, gives the template. */
  lemma ResolutionExactly(first: int, bodies: seq<Body>, saved: Saved, req: Request, known: string -> bool,
                          toolsOf: Option<string> -> seq<string>) returns (model: string)
    requires Recorded(first, bodies, saved.head, saved.history)
    ensures (var o := Resolution(first, bodies, saved, req, known, toolsOf);
             var v := if req.pinned == None then saved.head.version else req.pinned.value;
             if v < first || saved.head.version < v then o == Refused(NoVersion)
             else
               var body := bodies[v - first];
               var written := Written(req, body, saved.head.body);
               && Trims(written, model)
               && Decides(o, req, body.template, written, model, toolsOf(saved.config), Some(v), Some(saved.head.body.name), known))
  {
    model := "";
    var v := if req.pinned == None then saved.head.version else req.pinned.value;
    if first <= v <= saved.head.version {
      var body, head := bodies[v - first], saved.head.body;
      WrittenExactly(req, body, head);
      model := FinishExactly(req, body.template, FirstOf(Given(body.model), Given(head.model)), toolsOf(saved.config), Some(v), Some(head.name), known);
    }
  }

  /** An inline task: its own template and model, no version and no name. */
  lemma InlineExactly(req: Request, known: string -> bool) returns (model: string)
    ensures Trims(req.model, model)
    ensures Decides(Finish(req, req.template, "", [], None, None, known), req, req.template, req.model, model, [], None, None, known)
  {
    model := FinishExactly(req, req.template, "", [], None, None, known);
  }
}
