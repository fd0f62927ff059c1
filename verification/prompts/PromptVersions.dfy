/**
 Saved prompts with their version history and environments
 (db_queues/postgresql/prompts.py), and how a task is resolved against them
 (routes/datasets/task_runner.py). Edits are serial.
 */
module PromptVersions {
  import opened Wrappers

  /** What a version snapshots. A prompt's other settings, its `config`, are not part of it. */
  datatype Body = Body(name: string, template: string, model: Option<string>, variables: seq<string>)

  datatype Snapshot = Snapshot(version: int, body: Body)

  /** What an environment serves. */
  datatype Deployed = Deployed(version: int, template: string, model: Option<string>, variables: seq<string>)

  /** The arguments of an update; an omitted one leaves its column untouched. */
  datatype Edit = Edit(name: Option<string>, template: Option<string>, model: Option<string>, variables: Option<seq<string>>,
                       config: Option<string>, clearConfig: bool)

  function Or<T>(x: Option<T>, otherwise: T): T {
    if x.Some? then x.value else otherwise
  }

  function Edited(b: Body, e: Edit): Body {
    Body(Or(e.name, b.name), Or(e.template, b.template), if e.model.Some? then e.model else b.model, Or(e.variables, b.variables))
  }

  function Configured(config: Option<string>, e: Edit): Option<string> {
    if e.clearConfig then None else if e.config.Some? then e.config else config
  }

  /******* What the history holds *******/

  /** The bodies of the versions from `first` on, one after the other; the last is the head's. */
  ghost predicate Recorded(first: int, bodies: seq<Body>, head: Snapshot, history: seq<Snapshot>) {
    && bodies != []
    && head == Snapshot(first + |bodies| - 1, bodies[|bodies| - 1])
    && |history| == |bodies| - 1
    && forall i | 0 <= i < |history| :: history[i] == Snapshot(first + i, bodies[i])
  }

  lemma RecordedNext(first: int, bodies: seq<Body>, head: Snapshot, history: seq<Snapshot>, b: Body)
    requires Recorded(first, bodies, head, history)
    ensures Recorded(first, bodies + [b], Snapshot(head.version + 1, b), history + [head])
  {
  }

  /** Each past version is in the history exactly once, with the body it had; the head's version is not. */
  lemma EveryVersionOnce(first: int, bodies: seq<Body>, head: Snapshot, history: seq<Snapshot>, version: int)
    requires Recorded(first, bodies, head, history)
    ensures first <= version < head.version
       <==> exists i :: 0 <= i < |history| && history[i].version == version
    ensures first <= version < head.version ==> Find(history, version) == Some(Snapshot(version, bodies[version - first]))
    ensures forall i, j | 0 <= i < j < |history| :: history[i].version != history[j].version
  {
    if first <= version < head.version {
      assert history[version - first].version == version;
      FindAt(history, version - first);
    }
  }

  /** The first row of the version. */
  function Find(history: seq<Snapshot>, version: int): Option<Snapshot> {
    if history == [] then None
    else if history[0].version == version then Some(history[0])
    else Find(history[1..], version)
  }

  lemma {:induction false} FindAt(history: seq<Snapshot>, i: nat)
    requires i < |history| && forall j, k | 0 <= j < k < |history| :: history[j].version != history[k].version
    ensures Find(history, history[i].version) == Some(history[i])
  {
    if i > 0 { FindAt(history[1..], i - 1); }
  }

  lemma {:induction false} FindNothing(history: seq<Snapshot>, version: int)
    ensures Find(history, version) == None <==> forall i | 0 <= i < |history| :: history[i].version != version
  {
    if history != [] {
      FindNothing(history[1..], version);
      assert forall i | 0 < i < |history| :: history[i] == history[1..][i - 1];
      assert forall i | 0 <= i < |history| - 1 :: history[1..][i] == history[i + 1];
    }
  }

  function Reversed(history: seq<Snapshot>): (rows: seq<Snapshot>)
    ensures |rows| == |history| && forall i | 0 <= i < |rows| :: rows[i] == history[|history| - 1 - i]
  {
    seq(|history|, i requires 0 <= i < |history| => history[|history| - 1 - i])
  }

  /******* The code *******/

  class Prompt {
    const org: string
    var body: Body
    var config: Option<string>
    var version: int
    /** `prompt_versions`, in the order of insertion, and `prompt_environments` */
    var history: seq<Snapshot>
    var environments: map<string, Deployed>
    ghost const first: int
    ghost var bodies: seq<Body>

    function Head(): Snapshot
      reads this
    {
      Snapshot(version, body)
    }

    /** What a version was, or is. */
    ghost function BodyOf(v: int): Body
      requires first <= v < first + |bodies|
      reads this
    {
      bodies[v - first]
    }

    ghost predicate Valid()
      reads this
    {
      && Recorded(first, bodies, Head(), history)
      && forall env | env in environments :: Serves(environments[env])
    }

    /** An environment serves what its version was when it was deployed, and still is. */
    ghost predicate Serves(d: Deployed)
      reads this
    {
      first <= d.version < first + |bodies|
      && (var b := BodyOf(d.version); d == Deployed(d.version, b.template, b.model, b.variables))
    }

    /** `create_prompt`; the first version's number is the database's default. */
    constructor (org: string, body: Body, config: Option<string>, first: int)
      ensures Valid() && this.org == org && this.body == body && this.config == config && version == first == this.first
      ensures history == [] && environments == map[] && bodies == [body]
    {
      this.org, this.body, this.config, this.version, this.first := org, body, config, first, first;
      history, environments, bodies := [], map[], [body];
    }

    method Advance(b: Body)
      requires Valid()
      modifies `body, `version, `history, `bodies
      ensures Valid() && body == b && version == old(version) + 1 && history == old(history) + [old(Head())]
      ensures bodies == old(bodies) + [b]
    {
      RecordedNext(first, bodies, Head(), history, b);
      history := history + [Head()];
      body, version, bodies := b, version + 1, bodies + [b];
      forall env | env in environments ensures Serves(environments[env]) {
        assert old(Serves(environments[env]));
      }
    }

    /** `update_prompt`; false stands for a prompt that the organization does not have. */
    method Update(caller: string, e: Edit) returns (ok: bool)
      requires Valid()
      modifies `body, `config, `version, `history, `bodies
      ensures Valid() && ok == (caller == org)
      ensures bodies == if ok then old(bodies) + [Edited(old(body), e)] else old(bodies)
      ensures config == if ok then Configured(old(config), e) else old(config)
      ensures !ok ==> body == old(body) && version == old(version)
      ensures ok ==> version == old(version) + 1
      ensures ok ==> body.name == (if e.name.Some? then e.name.value else old(body.name))
      ensures ok ==> body.template == (if e.template.Some? then e.template.value else old(body.template))
      ensures ok ==> body.model == (if e.model.Some? then e.model else old(body.model))
      ensures ok ==> body.variables == (if e.variables.Some? then e.variables.value else old(body.variables))
      ensures ok && e.clearConfig ==> config == None
      ensures ok && !e.clearConfig ==> config == (if e.config.Some? then e.config else old(config))
    {
      ok := caller == org;
      if ok {
        Advance(Edited(body, e));
        config := if e.clearConfig then None else if e.config.Some? then e.config else config;
      }
    }

    /** `list_versions`: exactly the past versions with their bodies, newest first */
    method ListVersions(caller: string) returns (rows: seq<Snapshot>)
      requires Valid()
      ensures caller != org ==> rows == []
      ensures caller == org ==> |rows| == version - first
      ensures caller == org ==> forall i | 0 <= i < |rows| :: rows[i] == Snapshot(version - 1 - i, BodyOf(version - 1 - i))
    {
      rows := if caller == org then Reversed(history) else [];
    }

    /** `restore_version` */
    method Restore(caller: string, v: int) returns (ok: bool)
      requires Valid()
      modifies `body, `version, `history, `bodies
      ensures Valid() && ok == (caller == org && old(first <= v < version))
      ensures bodies == if ok then old(bodies) + [old(bodies)[v - first]] else old(bodies)
      ensures if ok then version == old(version) + 1 && body == old(BodyOf(v)) else version == old(version) && body == old(body)
    {
      EveryVersionOnce(first, bodies, Head(), history, v);
      FindNothing(history, v);
      var snap := if caller == org then Find(history, v) else None;
      ok := snap.Some?;
      if ok {
        Advance(snap.value.body);
      }
    }

    /** `deploy_to_environment` */
    method Deploy(caller: string, environment: string) returns (ok: bool)
      requires Valid()
      modifies `environments
      ensures Valid() && ok == (caller == org)
      ensures environments == if ok then old(environments)[environment := Deployed(version, body.template, body.model, body.variables)]
                              else old(environments)
    {
      ok := caller == org;
      if ok {
        environments := environments[environment := Deployed(version, body.template, body.model, body.variables)];
        assert BodyOf(version) == body;
      }
    }

    /** `undeploy_from_environment` */
    method Undeploy(caller: string, environment: string) returns (ok: bool)
      requires Valid()
      modifies `environments
      ensures Valid() && ok == (caller == org)
      ensures environments == if ok then old(environments) - {environment} else old(environments)
    {
      ok := caller == org;
      if ok {
        environments := environments - {environment};
      }
    }
  }
}
