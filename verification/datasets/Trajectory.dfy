/**
 The step list of a trajectory (routes/datasets/__init__.py, `_trajectory_summary`): spans
 are named, linked to their parents and walked depth first into one list.
 */
module Trajectory {
  import opened Wrappers
  import opened Forest
  import opened Text

  /** What the walk reads of a span; "" stands for a missing value. */
  datatype Span = Span(id: string, parent: string, kind: string)

  /******* Names *******/

  function Anon(k: nat): Id {
    "_anon_" + Decimal(k)
  }

  lemma AnonInjective(j: nat, k: nat)
    ensures Anon(j) == Anon(k) ==> j == k
  {
    if Anon(j) == Anon(k) {
      assert Anon(j)[6..] == Decimal(j) && Anon(k)[6..] == Decimal(k);
      DecimalInjective(j, k);
    }
  }

  datatype Index = Index(byId: map<Id, Span>, order: seq<Id>)

  /** A span without an id, or with one already taken, gets a synthetic one. */
  function NameOf(e: Span, seen: map<Id, Span>, k: nat): Id {
    if e.id == "" || e.id in seen then Anon(k) else e.id
  }

  function IndexOf(events: seq<Span>): (x: Index)
    ensures |x.order| == |events|
    ensures forall n :: n in x.byId <==> n in x.order
  {
    if events == [] then Index(map[], []) else
    var k := |events| - 1;
    var before := IndexOf(events[..k]);
    var name := NameOf(events[k], before.byId, k);
    Index(before.byId[name := events[k]], before.order + [name])
  }

  /** The parent, unless it is missing, the span itself or not among the spans. */
  function ParentName(byId: map<Id, Span>, x: Id): Option<Id>
    requires x in byId
  {
    var p := byId[x].parent;
    if p == "" || p == x || p !in byId then None else Some(p)
  }

  function TreeOf(x: Index): Tree
    requires forall n :: n in x.byId <==> n in x.order
  {
    Tree(x.order, map n | n in x.order && ParentName(x.byId, n).Some? :: ParentName(x.byId, n).value)
  }

  function SpanTree(events: seq<Span>): Tree {
    TreeOf(IndexOf(events))
  }

  predicate Anonymous(events: seq<Span>, k: nat)
    requires k < |events|
  {
    events[k].id == "" || events[k].id in IndexOf(events[..k]).byId
  }

  lemma PrefixIndex(events: seq<Span>, k: nat, j: nat)
    requires j < k <= |events|
    ensures events[..k][j] == events[j] && (Anonymous(events[..k], j) <==> Anonymous(events, j))
  {
    assert events[..k][..j] == events[..j];
  }

  /** A name is in the index because a span carries it as its id or got it as a synthetic one. */
  lemma {:induction false} IndexedNames(events: seq<Span>, n: Id) returns (j: nat)
    requires n in IndexOf(events).byId
    ensures j < |events| && (events[j].id == n || (Anonymous(events, j) && n == Anon(j)))
  {
    var k := |events| - 1;
    if n in IndexOf(events[..k]).byId {
      j := IndexedNames(events[..k], n);
      PrefixIndex(events, k, j);
    } else {
      j := k;
    }
  }

  lemma {:induction false} IdsAreIndexed(events: seq<Span>, j: nat)
    requires j < |events| && events[j].id != ""
    ensures events[j].id in IndexOf(events).byId
  {
    var k := |events| - 1;
    if j < k {
      assert events[..k][j] == events[j];
      IdsAreIndexed(events[..k], j);
    }
  }

  /** The synthetic name of a span is the real id of an earlier one. */
  ghost predicate Clash(events: seq<Span>) {
    exists j, k | 0 <= j < k < |events| :: Anonymous(events, k) && events[j].id == Anon(k)
  }

  ghost predicate Distinct(names: seq<Id>) {
    forall i, j | 0 <= i < j < |names| :: names[i] != names[j]
  }

  lemma ClashPrefix(events: seq<Span>)
    requires events != []
    ensures var k := |events| - 1;
      Clash(events) <==> Clash(events[..k]) || (Anonymous(events, k) && exists j | 0 <= j < k :: events[j].id == Anon(k))
  {
    var k := |events| - 1;
    forall j | 0 <= j < k ensures events[..k][j] == events[j] && (Anonymous(events[..k], j) <==> Anonymous(events, j)) {
      PrefixIndex(events, k, j);
    }
  }

  /** Every span keeps a name of its own exactly when no real id takes a synthetic name. */
  lemma {:induction false} NamesDistinct(events: seq<Span>)
    ensures Distinct(IndexOf(events).order) <==> !Clash(events)
  {
    if events != [] {
      var k := |events| - 1;
      var before := IndexOf(events[..k]);
      var name := NameOf(events[k], before.byId, k);
      NamesDistinct(events[..k]);
      ClashPrefix(events);
      assert Distinct(before.order + [name]) <==> Distinct(before.order) && name !in before.order by {
        assert forall i | 0 <= i < k :: (before.order + [name])[i] == before.order[i];
        assert (before.order + [name])[k] == name;
      }
      if Anonymous(events, k) {
        assert forall j | 0 <= j < k :: events[..k][j] == events[j];
        if name in before.byId {
          var j := IndexedNames(events[..k], name);
          AnonInjective(j, k);
        } else if j :| 0 <= j < k && events[j].id == name {
          IdsAreIndexed(events[..k], j);
        }
      }
    }
  }

  lemma SpanTreeProper(events: seq<Span>)
    requires !Clash(events)
    ensures Proper(SpanTree(events))
  {
    NamesDistinct(events);
  }

  /******* The loops *******/

  /** The type of every step. */
  function Kinds(w: seq<Step>, kinds: map<Id, string>): seq<string> {
    seq(|w|, i requires 0 <= i < |w| => if w[i].id in kinds then kinds[w[i].id] else "llm")
  }

  function KindsOf(byId: map<Id, Span>): (kinds: map<Id, string>)
    ensures kinds.Keys == byId.Keys
  {
    map n | n in byId :: KindOf(byId[n])
  }

  function KindOf(e: Span): string {
    if e.kind == "" then "llm" else e.kind
  }

  function Tally(counts: map<string, nat>, kind: string): nat {
    if kind in counts then counts[kind] else 0
  }

  /** One more for each occurrence. */
  function CountKinds(ks: seq<string>): map<string, nat> {
    if ks == [] then map[] else
    var n := |ks| - 1;
    var before := CountKinds(ks[..n]);
    before[ks[n] := Tally(before, ks[n]) + 1]
  }

  lemma {:induction false} CountKindsCounts(ks: seq<string>, k: string)
    ensures Tally(CountKinds(ks), k) == multiset(ks)[k]
  {
    if ks != [] {
      var n := |ks| - 1;
      CountKindsCounts(ks[..n], k);
      CountKindsCounts(ks[..n], ks[n]);
      assert ks == ks[..n] + [ks[n]];
    }
  }

  method BuildIndex(events: seq<Span>) returns (byId: map<Id, Span>, order: seq<Id>)
    ensures Index(byId, order) == IndexOf(events)
  {
    byId, order := map[], [];
    for i := 0 to |events|
      invariant Index(byId, order) == IndexOf(events[..i])
    {
      var name := events[i].id;
      if name == "" || name in byId {
        name := Anon(|order|);
      }
      byId := byId[name := events[i]];
      order := order + [name];
      assert events[..i + 1][..i] == events[..i];
    }
    assert events[..|events|] == events;
  }

  function Listed(children: map<Option<Id>, seq<Id>>, p: Option<Id>): seq<Id> {
    if p in children then children[p] else []
  }

  lemma {:induction false} SelectNext(names: seq<Id>, f: Tree, x: Id, p: Option<Id>)
    ensures Select(names + [x], f, p) == Select(names, f, p) + (if ParentOf(f, x) == p then [x] else [])
  {
    if names == [] {
      assert [x][1..] == [];
    } else {
      assert (names + [x])[1..] == names[1..] + [x];
      SelectNext(names[1..], f, x, p);
    }
  }

  method BuildChildren(x: Index) returns (children: map<Option<Id>, seq<Id>>)
    requires forall n :: n in x.byId <==> n in x.order
    ensures forall p :: Listed(children, p) == Children(TreeOf(x), p)
  {
    children := map[];
    for i := 0 to |x.order|
      invariant forall p :: Listed(children, p) == Select(x.order[..i], TreeOf(x), p)
    {
      var tid := x.order[i];
      var pid := ParentName(x.byId, tid);
      assert x.order[..i + 1] == x.order[..i] + [tid];
      forall p { SelectNext(x.order[..i], TreeOf(x), tid, p); }
      children := children[pid := Listed(children, pid) + [tid]];
    }
    assert x.order[..|x.order|] == x.order;
  }

  lemma Associative<T>(a: seq<T>, b: seq<T>, c: seq<T>)
    ensures (a + b) + c == a + (b + c)
  {
  }

  /** What is listed already, then what a walk lists. */
  ghost function Then(done: seq<Step>, w: Option<seq<Step>>): Option<seq<Step>> {
    if w.None? then None else Some(done + w.value)
  }

  lemma ThenNothing(w: Option<seq<Step>>)
    ensures Then([], w) == w
  {
    if w.Some? { assert [] + w.value == w.value; }
  }

  lemma WalkAllStep(f: Tree, room: nat, tids: seq<Id>, i: nat, depth: int, done: seq<Step>)
    requires i < |tids|
    ensures Then(done, WalkAll(f, room, tids[i..], depth)) ==
      (var h := Walk(f, room, tids[i], depth);
       if h.None? then None else Then(done + h.value, WalkAll(f, room, tids[i + 1..], depth)))
  {
    assert tids[i..][1..] == tids[i + 1..];
    var h, rest := Walk(f, room, tids[i], depth), WalkAll(f, room, tids[i + 1..], depth);
    if h.Some? && rest.Some? { Associative(done, h.value, rest.value); }
  }

  lemma NetStep(f: Tree, limit: nat, names: seq<Id>, i: nat, reached: set<Id>, done: seq<Step>)
    requires i < |names|
    ensures Then(done, Net(f, limit, names[i..], reached)) ==
      (var h := Rescue(f, limit, names[i], reached);
       if h.None? then None else Then(done + h.value, Net(f, limit, names[i + 1..], reached)))
  {
    assert names[i..][1..] == names[i + 1..];
    var h, rest := Rescue(f, limit, names[i], reached), Net(f, limit, names[i + 1..], reached);
    if h.Some? && rest.Some? { Associative(done, h.value, rest.value); }
  }

  class Walker {
    const f: Tree
    const kinds: map<Id, string>
    const children: map<Option<Id>, seq<Id>>
    var steps: seq<Step>
    var typeCounts: map<string, nat>

    ghost predicate Valid()
      reads this
    {
      && (forall p :: Listed(children, p) == Children(f, p))
      && typeCounts == CountKinds(Kinds(steps, kinds))
    }

    constructor (f: Tree, kinds: map<Id, string>, children: map<Option<Id>, seq<Id>>)
      requires forall p :: Listed(children, p) == Children(f, p)
      ensures Valid() && steps == [] && this.f == f && this.kinds == kinds && this.children == children
    {
      this.f, this.kinds, this.children := f, kinds, children;
      steps, typeCounts := [], map[];
    }

    method Append(tid: Id, depth: int)
      requires Valid()
      modifies this
      ensures Valid() && steps == old(steps) + [Step(tid, depth)]
    {
      var kind := if tid in kinds then kinds[tid] else "llm";
      typeCounts := typeCounts[kind := Tally(typeCounts, kind) + 1];
      assert Kinds(steps + [Step(tid, depth)], kinds) == Kinds(steps, kinds) + [kind];
      assert (Kinds(steps, kinds) + [kind])[..|steps|] == Kinds(steps, kinds);
      steps := steps + [Step(tid, depth)];
    }

    /** `visit`, with `room` levels of recursion left; false is a recursion error. */
    method Visit(tid: Id, depth: int, room: nat) returns (ok: bool)
      requires Valid()
      modifies this
      ensures Valid()
      ensures var w := Walk(f, room, tid, depth); ok == w.Some? && (ok ==> steps == old(steps) + w.value)
      decreases room, 0
    {
      if room == 0 {
        return false;
      }
      ghost var below := WalkAll(f, room - 1, Children(f, Some(tid)), depth + 1);
      Append(tid, depth);
      ok := VisitAll(Listed(children, Some(tid)), depth + 1, room - 1);
      if ok { Associative(old(steps), [Step(tid, depth)], below.value); }
    }

    method VisitAll(tids: seq<Id>, depth: int, room: nat) returns (ok: bool)
      requires Valid()
      modifies this
      ensures Valid()
      ensures var w := WalkAll(f, room, tids, depth); ok == w.Some? && (ok ==> steps == old(steps) + w.value)
      decreases room, 1
    {
      ghost var done: seq<Step> := [];
      var i := 0;
      ThenNothing(WalkAll(f, room, tids, depth));
      assert tids[0..] == tids;
      while i < |tids|
        invariant 0 <= i <= |tids| && Valid() && steps == old(steps) + done
        invariant Then(done, WalkAll(f, room, tids[i..], depth)) == WalkAll(f, room, tids, depth)
      {
        WalkAllStep(f, room, tids, i, depth, done);
        ghost var here := Walk(f, room, tids[i], depth);
        ok := Visit(tids[i], depth, room);
        if !ok {
          assert WalkAll(f, room, tids, depth) == None;
          return;
        }
        Associative(old(steps), done, here.value);
        done := done + here.value;
        i := i + 1;
      }
      ok := true;
    }

    /** The safety net over the spans the roots did not lead to. */
    method VisitRest(reached: set<Id>, limit: nat) returns (ok: bool)
      requires Valid()
      modifies this
      ensures Valid()
      ensures var w := Net(f, limit, f.names, reached); ok == w.Some? && (ok ==> steps == old(steps) + w.value)
    {
      ghost var done: seq<Step> := [];
      var i := 0;
      ThenNothing(Net(f, limit, f.names, reached));
      assert f.names[0..] == f.names;
      while i < |f.names|
        invariant 0 <= i <= |f.names| && Valid() && steps == old(steps) + done
        invariant Then(done, Net(f, limit, f.names[i..], reached)) == Net(f, limit, f.names, reached)
      {
        NetStep(f, limit, f.names, i, reached, done);
        ghost var here := Rescue(f, limit, f.names[i], reached);
        ok := VisitUnreached(f.names[i], reached, limit);
        if !ok {
          assert Net(f, limit, f.names, reached) == None;
          return;
        }
        Associative(old(steps), done, here.value);
        done := done + here.value;
        i := i + 1;
      }
      ok := true;
    }

    method VisitUnreached(tid: Id, reached: set<Id>, limit: nat) returns (ok: bool)
      requires Valid()
      modifies this
      ensures Valid()
      ensures var w := Rescue(f, limit, tid, reached); ok == w.Some? && (ok ==> steps == old(steps) + w.value)
    {
      if tid in reached {
        return true;
      }
      ok := Visit(tid, 0, limit);
    }

    /** From the roots, then from whatever they did not reach. */
    method List(limit: nat) returns (ok: bool)
      requires Valid() && steps == []
      modifies this
      ensures Valid()
      ensures ok == Listing(f, limit).Some? && (ok ==> steps == Listing(f, limit).value)
    {
      ghost var main := WalkAll(f, limit, Children(f, None), 0);
      ThenNothing(main);
      ok := VisitAll(Listed(children, None), 0, limit);
      if ok {
        assert steps == main.value;
        ok := VisitRest(Ids(steps), limit);
      }
    }
  }

  /******* What a summary lists, in the fields of the spans *******/

  /** Every span has an id of its own. */
  ghost predicate OwnIds(events: seq<Span>) {
    && (forall k | 0 <= k < |events| :: events[k].id != "")
    && forall j, k | 0 <= j < k < |events| :: events[j].id != events[k].id
  }

  /** The span names another one as its parent. */
  ghost predicate HasParent(events: seq<Span>, k: nat)
    requires k < |events|
  {
    events[k].parent != "" && exists m :: 0 <= m < |events| && m != k && events[m].id == events[k].parent
  }

  /** The step of a span stands inside the subtree of its parent's step, one level deeper, or at the top if it has none. */
  ghost predicate Placed(events: seq<Span>, w: seq<Step>, k: nat, i: nat)
    requires k < |events| && i < |w|
  {
    if HasParent(events, k)
    then exists p :: 0 <= p < i && w[p].id == events[k].parent && w[i].depth == w[p].depth + 1
                     && forall q | p < q <= i :: w[q].depth > w[p].depth
    else w[i].depth == 0
  }

  /** Every span once, below its parent, after the siblings that came before it. */
  ghost predicate Indented(events: seq<Span>, w: seq<Step>) {
    && |w| == |events|
    && (forall k | 0 <= k < |events| :: exists i :: 0 <= i < |w| && w[i].id == events[k].id)
    && (forall k, i | 0 <= k < |events| && 0 <= i < |w| && w[i].id == events[k].id :: Placed(events, w, k, i))
    && (forall k, m, i, j | 0 <= k < m < |events| && 0 <= i < |w| && 0 <= j < |w| && w[i].id == events[k].id && w[j].id == events[m].id ::
          SameParent(events, k, m) ==> i < j)
  }

  ghost predicate SameParent(events: seq<Span>, k: nat, m: nat)
    requires k < |events| && m < |events|
  {
    if HasParent(events, k) then HasParent(events, m) && events[k].parent == events[m].parent else !HasParent(events, m)
  }

  /** The types of the spans; a missing one is "llm". */
  function TypesOf(events: seq<Span>): seq<string> {
    seq(|events|, k requires 0 <= k < |events| => if events[k].kind == "" then "llm" else events[k].kind)
  }

  lemma {:induction false} NameFrom(events: seq<Span>, n: Id) returns (k: nat)
    requires OwnIds(events) && n in IndexOf(events).byId
    ensures k < |events| && events[k].id == n
  {
    var last := |events| - 1;
    k := last;
    if n in IndexOf(events[..last]).byId {
      k := NameFrom(events[..last], n);
    } else if Anonymous(events, last) {
      var j := NameFrom(events[..last], events[last].id);
    }
  }

  lemma {:induction false} IdAt(events: seq<Span>, k: nat)
    requires OwnIds(events) && k < |events|
    ensures (var x := IndexOf(events); x.order[k] == events[k].id && events[k].id in x.byId && x.byId[events[k].id] == events[k])
  {
    var last := |events| - 1;
    NotTaken(events);
    if k < last { IdAt(events[..last], k); }
  }

  lemma NotTaken(events: seq<Span>)
    requires OwnIds(events) && events != []
    ensures !Anonymous(events, |events| - 1)
  {
    var last := |events| - 1;
    if events[last].id in IndexOf(events[..last]).byId {
      var j := NameFrom(events[..last], events[last].id);
    }
  }

  lemma NoClash(events: seq<Span>)
    requires OwnIds(events)
    ensures !Clash(events)
  {
    forall k: nat | k < |events| ensures !Anonymous(events, k) {
      NotTaken(events[..k + 1]);
      PrefixIndex(events, k + 1, k);
    }
  }

  lemma ParentFromFields(events: seq<Span>, k: nat)
    requires OwnIds(events) && k < |events|
    ensures (var f := SpanTree(events);
             f.names[k] == events[k].id && ParentOf(f, events[k].id) == if HasParent(events, k) then Some(events[k].parent) else None)
  {
    IdAt(events, k);
    var x := IndexOf(events);
    if events[k].parent in x.byId {
      var m := NameFrom(events, events[k].parent);
    }
    if m: nat :| m < |events| && events[m].id == events[k].parent { IdAt(events, m); }
  }

  lemma EverySpanListed(events: seq<Span>, limit: nat, k: nat)
    requires OwnIds(events) && Listing(SpanTree(events), limit).Some? && k < |events|
    ensures (var w := Listing(SpanTree(events), limit).value; |w| == |events| && exists i :: 0 <= i < |w| && w[i].id == events[k].id)
  {
    NoClash(events);
    SpanTreeProper(events);
    ListingIsPreorder(SpanTree(events), limit);
    ParentFromFields(events, k);
    assert events[k].id in Ids(Listing(SpanTree(events), limit).value);
  }

  lemma PlacedExactly(events: seq<Span>, limit: nat, k: nat, i: nat)
    requires OwnIds(events) && Listing(SpanTree(events), limit).Some? && k < |events|
    requires i < |Listing(SpanTree(events), limit).value| && Listing(SpanTree(events), limit).value[i].id == events[k].id
    ensures Placed(events, Listing(SpanTree(events), limit).value, k, i)
  {
    NoClash(events);
    SpanTreeProper(events);
    ParentFromFields(events, k);
    var p := ListedBelowParent(SpanTree(events), limit, i);
  }

  lemma SiblingsListed(events: seq<Span>, limit: nat, k: nat, m: nat, i: nat, j: nat)
    requires OwnIds(events) && Listing(SpanTree(events), limit).Some? && k < m < |events| && SameParent(events, k, m)
    requires (var w := Listing(SpanTree(events), limit).value; i < |w| && j < |w| && w[i].id == events[k].id && w[j].id == events[m].id)
    ensures i < j
  {
    NoClash(events);
    SpanTreeProper(events);
    ParentFromFields(events, k);
    ParentFromFields(events, m);
    SiblingsInOrder(SpanTree(events), limit, k, m, i, j);
  }

  lemma IndentedExactly(events: seq<Span>, limit: nat)
    requires OwnIds(events) && Listing(SpanTree(events), limit).Some?
    ensures Indented(events, Listing(SpanTree(events), limit).value)
  {
    var w := Listing(SpanTree(events), limit).value;
    NoClash(events);
    SpanTreeProper(events);
    ListingIsPreorder(SpanTree(events), limit);
    forall k | 0 <= k < |events| ensures exists i :: 0 <= i < |w| && w[i].id == events[k].id { EverySpanListed(events, limit, k); }
    forall k, i | 0 <= k < |events| && 0 <= i < |w| && w[i].id == events[k].id ensures Placed(events, w, k, i) {
      PlacedExactly(events, limit, k, i);
    }
    forall k, m, i, j | 0 <= k < m < |events| && 0 <= i < |w| && 0 <= j < |w| && w[i].id == events[k].id && w[j].id == events[m].id
                        && SameParent(events, k, m)
      ensures i < j
    {
      SiblingsListed(events, limit, k, m, i, j);
    }
  }

  function KindAt(kinds: map<Id, string>, x: Id): string {
    if x in kinds then kinds[x] else "llm"
  }

  function OfKind(xs: set<Id>, kinds: map<Id, string>, kind: string): set<Id> {
    set x | x in xs && KindAt(kinds, x) == kind
  }

  /** Where every span is listed once, its type is counted once, in whatever order. */
  lemma {:induction false} KindCount(w: seq<Step>, kinds: map<Id, string>, kind: string)
    requires Once(w)
    ensures multiset(Kinds(w, kinds))[kind] == |OfKind(Ids(w), kinds, kind)|
  {
    if w == [] {
      assert OfKind(Ids(w), kinds, kind) == {};
    } else {
      var n := |w| - 1;
      KindCount(w[..n], kinds, kind);
      assert Kinds(w, kinds) == Kinds(w[..n], kinds) + [KindAt(kinds, w[n].id)];
      OfKindNext(w, kinds, kind);
    }
  }

  lemma OfKindNext(w: seq<Step>, kinds: map<Id, string>, kind: string)
    requires Once(w) && w != []
    ensures (var n := |w| - 1;
             |OfKind(Ids(w), kinds, kind)| == |OfKind(Ids(w[..n]), kinds, kind)| + (if KindAt(kinds, w[n].id) == kind then 1 else 0))
  {
    var n := |w| - 1;
    IdsNext(w);
    assert OfKind(Ids(w), kinds, kind) == OfKind(Ids(w[..n]), kinds, kind) + (if KindAt(kinds, w[n].id) == kind then {w[n].id} else {});
  }

  lemma IdsNext(w: seq<Step>)
    requires w != []
    ensures Ids(w) == Ids(w[..|w| - 1]) + {w[|w| - 1].id}
    ensures Once(w) ==> w[|w| - 1].id !in Ids(w[..|w| - 1])
  {
    var n := |w| - 1;
    forall x ensures x in Ids(w) <==> x in Ids(w[..n]) || x == w[n].id {
      if i :| 0 <= i < |w| && w[i].id == x { if i < n { assert w[..n][i].id == x; } }
      if i :| 0 <= i < n && w[..n][i].id == x { assert w[i].id == x; }
    }
  }

  /** The spans as they came, each at the top. */
  function Flat(events: seq<Span>): seq<Step> {
    seq(|events|, k requires 0 <= k < |events| => Step(events[k].id, 0))
  }

  lemma FlatNames(events: seq<Span>)
    requires OwnIds(events)
    ensures Once(Flat(events)) && forall x :: x in Ids(Flat(events)) <==> x in SpanTree(events).names
  {
    var flat, names := Flat(events), SpanTree(events).names;
    forall k | 0 <= k < |events| ensures names[k] == flat[k].id { IdAt(events, k); }
    forall x ensures x in Ids(flat) <==> x in names {
      if x in names { var k :| 0 <= k < |events| && names[k] == x; assert flat[k].id == x; }
      if k :| 0 <= k < |flat| && flat[k].id == x { assert names[k] == x; }
    }
  }

  lemma FlatKinds(events: seq<Span>)
    requires OwnIds(events)
    ensures Kinds(Flat(events), KindsOf(IndexOf(events).byId)) == TypesOf(events)
  {
    forall k | 0 <= k < |events| ensures Kinds(Flat(events), KindsOf(IndexOf(events).byId))[k] == TypesOf(events)[k] { IdAt(events, k); }
  }

  lemma TypesCounted(events: seq<Span>, limit: nat, kind: string)
    requires OwnIds(events) && Listing(SpanTree(events), limit).Some?
    ensures multiset(Kinds(Listing(SpanTree(events), limit).value, KindsOf(IndexOf(events).byId)))[kind] == multiset(TypesOf(events))[kind]
  {
    var f, kinds := SpanTree(events), KindsOf(IndexOf(events).byId);
    var w := Listing(f, limit).value;
    NoClash(events);
    SpanTreeProper(events);
    ListingIsPreorder(f, limit);
    FlatNames(events);
    FlatKinds(events);
    assert Ids(Flat(events)) == Ids(w);
    KindCount(w, kinds, kind);
    KindCount(Flat(events), kinds, kind);
  }

  /** `_trajectory_summary`: the steps and the count of spans by type, or None for a recursion error. */
  method TrajectorySummary(events: seq<Span>, limit: nat) returns (r: Option<(seq<Step>, map<string, nat>)>)
    ensures r.Some? <==> Listing(SpanTree(events), limit).Some?
    ensures r.Some? ==> r.value.0 == Listing(SpanTree(events), limit).value
    ensures r.Some? ==> forall k :: Tally(r.value.1, k) == multiset(Kinds(r.value.0, KindsOf(IndexOf(events).byId)))[k]
    ensures r.Some? && OwnIds(events) ==> Indented(events, r.value.0) && forall k :: Tally(r.value.1, k) == multiset(TypesOf(events))[k]
  {
    var byId, order := BuildIndex(events);
    var x := Index(byId, order);
    var children := BuildChildren(x);
    var f := TreeOf(x);
    var walker := new Walker(f, KindsOf(byId), children);
    var ok := walker.List(limit);
    r := if ok then Some((walker.steps, walker.typeCounts)) else None;
    forall k ensures Tally(walker.typeCounts, k) == multiset(Kinds(walker.steps, walker.kinds))[k] {
      CountKindsCounts(Kinds(walker.steps, walker.kinds), k);
    }
    if ok && OwnIds(events) {
      IndentedExactly(events, limit);
      forall k { TypesCounted(events, limit, k); }
    }
  }

  /**
   What a summary of spans lists: when no id takes a synthetic name, it succeeds exactly if
   the parent links have no cycle, and then lists every span once, in preorder, at the
   depth of its ancestors; the type counts add up to the number of spans.
   */
  lemma SummaryListsEverySpan(events: seq<Span>, limit: nat)
    requires !Clash(events) && limit >= |events|
    ensures Listing(SpanTree(events), limit).Some? <==> Acyclic(SpanTree(events))
    ensures Listing(SpanTree(events), limit).Some? ==>
      var f := SpanTree(events);
      var w := Listing(f, limit).value;
      && |w| == |events| && Once(w) && Preorder(f, w)
      && (forall x :: x in f.names <==> x in Ids(w))
      && (forall i | 0 <= i < |w| :: AtLevel(f, w[i]))
      && |multiset(Kinds(w, KindsOf(IndexOf(events).byId)))| == |events|
  {
    var f := SpanTree(events);
    SpanTreeProper(events);
    OnlyCyclesFail(f, limit);
    if Listing(f, limit).Some? { ListingIsPreorder(f, limit); }
  }
}
