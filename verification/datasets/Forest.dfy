/**
 Depth-first walks of a forest given by parent links, with a limit on the recursion
 depth (routes/datasets/__init__.py:2118-2203).
 */
module Forest {
  import opened Wrappers

  type Id = string

  datatype Tree = Tree(names: seq<Id>, parent: map<Id, Id>)
  datatype Step = Step(id: Id, depth: int)

  ghost predicate Proper(f: Tree) {
    && (forall i, j | 0 <= i < j < |f.names| :: f.names[i] != f.names[j])
    && (forall x | x in f.parent :: x in f.names && f.parent[x] in f.names)
  }

  function ParentOf(f: Tree, x: Id): Option<Id> {
    if x in f.parent then Some(f.parent[x]) else None
  }

  function Select(names: seq<Id>, f: Tree, p: Option<Id>): (cs: seq<Id>)
    ensures forall c :: c in cs <==> c in names && ParentOf(f, c) == p
  {
    if names == [] then [] else
    (if ParentOf(f, names[0]) == p then [names[0]] else []) + Select(names[1..], f, p)
  }

  /** The children of `p`, or the roots, in the order the spans were seen. */
  function Children(f: Tree, p: Option<Id>): seq<Id> {
    Select(f.names, f, p)
  }

  /** `visit` with `room` levels of recursion left; None is a recursion error. */
  function Walk(f: Tree, room: nat, x: Id, depth: int): Option<seq<Step>>
    decreases room, 0
  {
    if room == 0 then None else
    var below := WalkAll(f, room - 1, Children(f, Some(x)), depth + 1);
    if below.None? then None else Some([Step(x, depth)] + below.value)
  }

  function WalkAll(f: Tree, room: nat, xs: seq<Id>, depth: int): Option<seq<Step>>
    decreases room, 1, |xs|
  {
    if xs == [] then Some([]) else
    var first := Walk(f, room, xs[0], depth);
    if first.None? then None else
    var rest := WalkAll(f, room, xs[1..], depth);
    if rest.None? then None else Some(first.value + rest.value)
  }

  /** The ancestor `k` levels up. */
  function Climb(f: Tree, x: Id, k: nat): Option<Id> {
    if k == 0 then Some(x) else
    var y := Climb(f, x, k - 1);
    if y.Some? then ParentOf(f, y.value) else None
  }

  /** Following parents from `x` ends at a root. */
  ghost predicate Grounded(f: Tree, x: Id) {
    exists k: nat :: Climb(f, x, k) == None
  }

  ghost predicate Acyclic(f: Tree) {
    forall x | x in f.names :: Grounded(f, x)
  }

  /** No span has `limit` ancestors or more. */
  ghost predicate Shallow(f: Tree, limit: nat) {
    forall x | x in f.names :: Climb(f, x, limit) == None
  }

  /******* Climbing *******/

  lemma {:induction false} ClimbAdd(f: Tree, x: Id, a: nat, b: nat)
    ensures Climb(f, x, a + b) == (var y := Climb(f, x, a); if y.Some? then Climb(f, y.value, b) else None)
  {
    if b > 0 { ClimbAdd(f, x, a, b - 1); }
  }

  lemma {:induction false} ClimbNames(f: Tree, x: Id, k: nat)
    requires Proper(f) && x in f.names
    ensures Climb(f, x, k).Some? ==> Climb(f, x, k).value in f.names
  {
    if k > 0 { ClimbNames(f, x, k - 1); }
  }

  lemma ClimbEnds(f: Tree, x: Id, a: nat, b: nat)
    requires a <= b && Climb(f, x, a) == None
    ensures Climb(f, x, b) == None
  {
    ClimbAdd(f, x, a, b - a);
  }

  /** A span that is its own ancestor climbs for ever. */
  lemma {:induction false} CycleClimbs(f: Tree, x: Id, period: nat, k: nat)
    requires period > 0 && Climb(f, x, period) == Some(x)
    ensures Climb(f, x, k).Some? && Climb(f, x, k * period) == Some(x)
    decreases k
  {
    if k > 0 {
      CycleClimbs(f, x, period, k - 1);
      ClimbAdd(f, x, (k - 1) * period, period);
      assert (k - 1) * period + period == k * period;
    }
    if Climb(f, x, k) == None {
      assert k * period >= k by { Product(k, period); }
      ClimbEnds(f, x, k, k * period);
    }
  }

  lemma Product(k: nat, p: nat)
    requires p > 0
    ensures k * p >= k
  {
    if k > 0 { assert k * p == k + k * (p - 1); }
  }

  lemma GroundedHasNoCycle(f: Tree, x: Id, k: nat, y: Id, period: nat)
    requires Grounded(f, x) && Climb(f, x, k) == Some(y) && period > 0
    ensures Climb(f, y, period) != Some(y)
  {
    if Climb(f, y, period) == Some(y) {
      var end: nat :| Climb(f, x, end) == None;
      CycleClimbs(f, y, period, end);
      ClimbAdd(f, x, k, end);
      ClimbEnds(f, x, end, k + end);
    }
  }

  /** Two different siblings have no common descendant, unless that climbs for ever. */
  lemma SiblingsApart(f: Tree, x: Id, a: nat, c: Id, b: nat, d: Id)
    requires Grounded(f, x) && Climb(f, x, a) == Some(c) && Climb(f, x, b) == Some(d) && c != d
    ensures ParentOf(f, c) != ParentOf(f, d)
  {
    if ParentOf(f, c) == ParentOf(f, d) {
      if a < b {
        ClimbAdd(f, x, a, b - a);
        DescentLoops(f, x, a, c, b - a, d);
      } else {
        ClimbAdd(f, x, b, a - b);
        DescentLoops(f, x, b, d, a - b, c);
      }
    }
  }

  lemma DescentLoops(f: Tree, x: Id, a: nat, c: Id, gap: nat, d: Id)
    requires Climb(f, x, a) == Some(c) && Climb(f, c, gap) == Some(d) && c != d && ParentOf(f, c) == ParentOf(f, d)
    ensures !Grounded(f, x)
  {
    assert gap > 0;
    ClimbAdd(f, c, 1, gap - 1);
    var p := ParentOf(f, c).value;
    assert Climb(f, p, gap - 1) == Some(d) && Climb(f, p, gap) == Some(p);
    ClimbAdd(f, x, a, 1);
    assert Climb(f, c, 1) == Some(p) by { assert Climb(f, c, 0) == Some(c); }
    assert Climb(f, x, a + 1) == Some(p);
    if Grounded(f, x) { GroundedHasNoCycle(f, x, a + 1, p, gap); }
  }

  /******* When the walk runs out of room *******/

  /** Some span is `room` levels below `x`. */
  ghost predicate Deep(f: Tree, x: Id, room: nat) {
    exists y :: y in f.names && Climb(f, y, room) == Some(x)
  }

  lemma DeepChild(f: Tree, x: Id, room: nat)
    requires Proper(f) && room > 0
    ensures Deep(f, x, room) <==> exists c :: c in Children(f, Some(x)) && Deep(f, c, room - 1)
  {
    if Deep(f, x, room) {
      var y :| y in f.names && Climb(f, y, room) == Some(x);
      ClimbNames(f, y, room - 1);
      var c := Climb(f, y, room - 1).value;
      assert c in Children(f, Some(x)) && Deep(f, c, room - 1);
    }
    if c :| c in Children(f, Some(x)) && Deep(f, c, room - 1) {
      var y :| y in f.names && Climb(f, y, room - 1) == Some(c);
      assert Climb(f, y, room) == Some(x);
    }
  }

  /** The walk below `x` runs out of room exactly when some span is that far below it. */
  lemma {:induction false} WalkFails(f: Tree, room: nat, x: Id, depth: int)
    requires Proper(f) && x in f.names
    ensures Walk(f, room, x, depth) == None <==> Deep(f, x, room)
    decreases room, 0
  {
    if room == 0 {
      assert Climb(f, x, 0) == Some(x);
    } else {
      WalkAllFails(f, room - 1, Children(f, Some(x)), depth + 1);
      DeepChild(f, x, room);
    }
  }

  lemma {:induction false} WalkAllFails(f: Tree, room: nat, xs: seq<Id>, depth: int)
    requires Proper(f) && forall x | x in xs :: x in f.names
    ensures WalkAll(f, room, xs, depth) == None <==> exists x :: x in xs && Deep(f, x, room)
    decreases room, 1, |xs|
  {
    if xs != [] {
      WalkFails(f, room, xs[0], depth);
      WalkAllFails(f, room, xs[1..], depth);
      assert forall x :: x in xs <==> x == xs[0] || x in xs[1..];
    }
  }

  /** More names than there are to choose from: one occurs twice. */
  lemma Repeated(names: seq<Id>, path: seq<Id>) returns (a: nat, b: nat)
    requires |path| > |names| && forall y | y in path :: y in names
    ensures a < b < |path| && path[a] == path[b]
  {
    if forall i, j | 0 <= i < j < |path| :: path[i] != path[j] { DistinctBound(names, path); }
    a, b :| 0 <= a < b < |path| && path[a] == path[b];
  }

  /** A span that never reaches a root has an ancestor on a cycle. */
  lemma UngroundedCycle(f: Tree, x: Id) returns (i: nat, y: Id, period: nat)
    requires Proper(f) && x in f.names && !Grounded(f, x)
    ensures Climb(f, x, i) == Some(y) && y in f.names && period > 0 && Climb(f, y, period) == Some(y)
  {
    var k := |f.names|;
    var path := seq(k + 1, i requires 0 <= i <= k => PathAt(f, x, k, i));
    forall i | 0 <= i <= k ensures path[i] in f.names { ClimbNames(f, x, i); }
    var a, b := Repeated(f.names, path);
    ClimbAdd(f, x, a, b - a);
    i, y, period := a, path[a], b - a;
  }

  ghost function PathAt(f: Tree, x: Id, k: nat, i: nat): (y: Id)
    requires Climb(f, x, k).Some? && i <= k
    ensures Climb(f, x, i) == Some(y)
  {
    if Climb(f, x, i) == None then
      ClimbEnds(f, x, i, k);
      assert false; x
    else Climb(f, x, i).value
  }

  lemma {:induction false} DistinctBound(names: seq<Id>, path: seq<Id>)
    requires forall i, j | 0 <= i < j < |path| :: path[i] != path[j]
    requires forall y | y in path :: y in names
    ensures |path| <= |names|
  {
    if path != [] {
      assert path[0] in names;
      var k :| 0 <= k < |names| && names[k] == path[0];
      var rest := names[..k] + names[k + 1..];
      forall y | y in path[1..] ensures y in rest {
        var i :| 0 <= i < |path[1..]| && path[1..][i] == y;
        assert path[i + 1] == y && y in names && y != path[0];
        var j :| 0 <= j < |names| && names[j] == y;
        assert y == if j < k then rest[j] else rest[j - 1];
      }
      DistinctBound(rest, path[1..]);
    }
  }

  /** With room for every span, only a cycle runs out of it. */
  lemma ShallowIsAcyclic(f: Tree, limit: nat)
    requires Proper(f)
    ensures Shallow(f, limit) ==> Acyclic(f)
    ensures limit >= |f.names| && Acyclic(f) ==> Shallow(f, limit)
  {
    if limit >= |f.names| && Acyclic(f) {
      forall x | x in f.names ensures Climb(f, x, limit) == None {
        if Climb(f, x, limit).Some? {
          var path := seq(limit + 1, i requires 0 <= i <= limit => PathAt(f, x, limit, i));
          forall i, j | 0 <= i < j <= limit ensures path[i] != path[j] {
            ClimbAdd(f, x, i, j - i);
            GroundedHasNoCycle(f, x, i, path[i], j - i);
          }
          forall i | 0 <= i <= limit ensures path[i] in f.names { ClimbNames(f, x, i); }
          DistinctBound(f.names, path);
        }
      }
    }
  }

  /******* What a walk lists *******/

  /** The step `t` stands as far below one of `xs` as its depth says. */
  ghost predicate Under(f: Tree, xs: seq<Id>, depth: int, t: Step) {
    t.depth >= depth && (var c := Climb(f, t.id, t.depth - depth); c.Some? && c.value in xs)
  }

  ghost predicate Lists(f: Tree, xs: seq<Id>, depth: int, w: seq<Step>) {
    && (forall i | 0 <= i < |w| :: w[i].id in f.names && Under(f, xs, depth, w[i]))
    && (forall y, k: nat | y in f.names && Climb(f, y, k).Some? && Climb(f, y, k).value in xs :: Step(y, depth + k) in w)
  }

  lemma {:induction false} WalkLists(f: Tree, room: nat, x: Id, depth: int)
    requires Proper(f) && x in f.names && Walk(f, room, x, depth).Some?
    ensures Lists(f, [x], depth, Walk(f, room, x, depth).value)
    decreases room, 0
  {
    var cs := Children(f, Some(x));
    WalkAllLists(f, room - 1, cs, depth + 1);
    HeadLists(f, x, depth, WalkAll(f, room - 1, cs, depth + 1).value);
  }

  lemma HeadLists(f: Tree, x: Id, depth: int, below: seq<Step>)
    requires Proper(f) && x in f.names && Lists(f, Children(f, Some(x)), depth + 1, below)
    ensures Lists(f, [x], depth, [Step(x, depth)] + below)
  {
    var w := [Step(x, depth)] + below;
    forall i | 0 <= i < |w| ensures w[i].id in f.names && Under(f, [x], depth, w[i]) {
      if i > 0 {
        ChildUnder(f, x, depth, below[i - 1]);
      } else {
        assert Climb(f, x, 0) == Some(x);
      }
    }
    forall y, k: nat | y in f.names && Climb(f, y, k).Some? && Climb(f, y, k).value in [x] ensures Step(y, depth + k) in w {
      if k > 0 {
        ClimbNames(f, y, k - 1);
        assert Climb(f, y, k - 1).value in Children(f, Some(x));
        assert Step(y, depth + 1 + (k - 1)) in below;
      } else {
        assert w[0] == Step(y, depth);
      }
    }
  }

  lemma ChildUnder(f: Tree, x: Id, depth: int, t: Step)
    requires Under(f, Children(f, Some(x)), depth + 1, t)
    ensures Under(f, [x], depth, t)
  {
    var k := t.depth - depth - 1;
    assert Climb(f, t.id, k + 1) == Some(x);
  }

  lemma {:induction false} WalkAllLists(f: Tree, room: nat, xs: seq<Id>, depth: int)
    requires Proper(f) && (forall x | x in xs :: x in f.names) && WalkAll(f, room, xs, depth).Some?
    ensures Lists(f, xs, depth, WalkAll(f, room, xs, depth).value)
    decreases room, 1, |xs|
  {
    if xs != [] {
      WalkLists(f, room, xs[0], depth);
      WalkAllLists(f, room, xs[1..], depth);
      JoinLists(f, xs, depth, Walk(f, room, xs[0], depth).value, WalkAll(f, room, xs[1..], depth).value);
    }
  }

  lemma JoinLists(f: Tree, xs: seq<Id>, depth: int, a: seq<Step>, b: seq<Step>)
    requires xs != [] && Lists(f, [xs[0]], depth, a) && Lists(f, xs[1..], depth, b)
    ensures Lists(f, xs, depth, a + b)
  {
    var w := a + b;
    forall i | 0 <= i < |w| ensures w[i].id in f.names && Under(f, xs, depth, w[i]) {
      assert w[i] == if i < |a| then a[i] else b[i - |a|];
    }
    forall y, k: nat | y in f.names && Climb(f, y, k).Some? && Climb(f, y, k).value in xs ensures Step(y, depth + k) in w {
      assert Climb(f, y, k).value in [xs[0]] || Climb(f, y, k).value in xs[1..];
    }
  }

  /******* Each span once, in preorder *******/

  ghost predicate Once(w: seq<Step>) {
    forall i, j | 0 <= i < j < |w| :: w[i].id != w[j].id
  }

  ghost predicate Beneath(f: Tree, a: Step, b: Step) {
    b.depth > a.depth && Climb(f, b.id, b.depth - a.depth) == Some(a.id)
  }

  /** Step `j` comes after step `i`, and everything in between is deeper than `i`, as `j` is. */
  ghost predicate Follows(w: seq<Step>, i: nat, j: nat)
    requires i < |w| && j < |w|
  {
    i < j && forall t | i < t <= j :: w[t].depth > w[i].depth
  }

  /** The descendants of a step are exactly the deeper steps that follow it without a gap. */
  ghost predicate Preorder(f: Tree, w: seq<Step>) {
    forall i, j | 0 <= i < |w| && 0 <= j < |w| :: Beneath(f, w[i], w[j]) <==> Follows(w, i, j)
  }

  lemma FollowsInSecond(a: seq<Step>, b: seq<Step>, i: nat, j: nat)
    requires i < |b| && j < |b|
    ensures Follows(a + b, |a| + i, |a| + j) <==> Follows(b, i, j)
  {
    var w := a + b;
    assert forall t | |a| + i < t <= |a| + j :: w[t] == b[t - |a|];
    assert forall t | i < t <= j :: b[t] == w[|a| + t];
  }

  lemma FollowsInFirst(a: seq<Step>, b: seq<Step>, i: nat, j: nat)
    requires i < |a| && j < |a|
    ensures Follows(a + b, i, j) <==> Follows(a, i, j)
  {
    assert forall t | i <= t <= j :: (a + b)[t] == a[t];
  }

  ghost predicate Siblings(f: Tree, xs: seq<Id>) {
    && (forall i, j | 0 <= i < j < |xs| :: xs[i] != xs[j])
    && (forall x, y | x in xs && y in xs :: ParentOf(f, x) == ParentOf(f, y))
  }

  lemma {:induction false} SelectDistinct(names: seq<Id>, f: Tree, p: Option<Id>)
    requires forall i, j | 0 <= i < j < |names| :: names[i] != names[j]
    ensures forall i, j | 0 <= i < j < |Select(names, f, p)| :: Select(names, f, p)[i] != Select(names, f, p)[j]
  {
    if names != [] {
      SelectDistinct(names[1..], f, p);
      assert forall c | c in Select(names[1..], f, p) :: c in names[1..];
    }
  }

  lemma ChildrenSiblings(f: Tree, p: Option<Id>)
    requires Proper(f)
    ensures Siblings(f, Children(f, p))
  {
    SelectDistinct(f.names, f, p);
  }

  /** Each span once, in preorder, at or below a depth. */
  ghost predicate Ordered(f: Tree, w: seq<Step>) {
    Once(w) && Preorder(f, w)
  }

  lemma {:induction false} WalkOrders(f: Tree, room: nat, x: Id, depth: int)
    requires Proper(f) && Acyclic(f) && x in f.names && Walk(f, room, x, depth).Some?
    ensures Ordered(f, Walk(f, room, x, depth).value)
    decreases room, 0
  {
    var cs := Children(f, Some(x));
    ChildrenSiblings(f, Some(x));
    WalkAllOrders(f, room - 1, cs, depth + 1);
    WalkAllLists(f, room - 1, cs, depth + 1);
    HeadOrders(f, x, depth, WalkAll(f, room - 1, cs, depth + 1).value);
  }

  lemma HeadAbove(f: Tree, x: Id, depth: int, t: Step)
    requires Acyclic(f) && x in f.names && Under(f, Children(f, Some(x)), depth + 1, t)
    ensures t.id != x && Beneath(f, Step(x, depth), t)
  {
    ChildUnder(f, x, depth, t);
    if t.id == x { GroundedHasNoCycle(f, x, 0, x, t.depth - depth); }
  }

  lemma HeadOrders(f: Tree, x: Id, depth: int, below: seq<Step>)
    requires Proper(f) && Acyclic(f) && x in f.names
    requires Lists(f, Children(f, Some(x)), depth + 1, below) && Ordered(f, below)
    ensures Ordered(f, [Step(x, depth)] + below)
  {
    var w := [Step(x, depth)] + below;
    forall i | 0 <= i < |below| ensures below[i].id != x && Beneath(f, Step(x, depth), below[i]) { HeadAbove(f, x, depth, below[i]); }
    assert Once(w) by {
      assert forall k | 0 < k < |w| :: w[k] == below[k - 1];
    }
    forall i, j | 0 <= i < |w| && 0 <= j < |w| ensures Beneath(f, w[i], w[j]) <==> Follows(w, i, j) {
      HeadPair(f, x, depth, below, i, j);
    }
  }

  lemma HeadPair(f: Tree, x: Id, depth: int, below: seq<Step>, i: nat, j: nat)
    requires Preorder(f, below) && i <= |below| && j <= |below|
    requires forall k | 0 <= k < |below| :: Beneath(f, Step(x, depth), below[k])
    ensures var w := [Step(x, depth)] + below; Beneath(f, w[i], w[j]) <==> Follows(w, i, j)
  {
    var w := [Step(x, depth)] + below;
    assert forall k | 0 < k < |w| :: w[k] == below[k - 1];
    if i > 0 && j > 0 {
      FollowsInSecond([Step(x, depth)], below, i - 1, j - 1);
    } else if i == 0 && j > 0 {
      assert Beneath(f, w[0], below[j - 1]);
      assert forall t | 0 <= t < j :: Beneath(f, w[0], below[t]);
    } else if i > 0 {
      assert Beneath(f, w[0], below[i - 1]);
    }
  }

  lemma {:induction false} WalkAllOrders(f: Tree, room: nat, xs: seq<Id>, depth: int)
    requires Proper(f) && Acyclic(f) && (forall x | x in xs :: x in f.names) && Siblings(f, xs) && WalkAll(f, room, xs, depth).Some?
    ensures Ordered(f, WalkAll(f, room, xs, depth).value)
    decreases room, 1, |xs|
  {
    if xs != [] {
      var rest := xs[1..];
      assert forall x | x in rest :: x in xs && x != xs[0];
      WalkOrders(f, room, xs[0], depth);
      WalkAllOrders(f, room, rest, depth);
      WalkLists(f, room, xs[0], depth);
      WalkAllLists(f, room, rest, depth);
      FirstStep(f, room, rest, depth);
      JoinOrders(f, xs[0], rest, depth, Walk(f, room, xs[0], depth).value, WalkAll(f, room, rest, depth).value);
    }
  }

  lemma FirstStep(f: Tree, room: nat, xs: seq<Id>, depth: int)
    requires WalkAll(f, room, xs, depth).Some?
    ensures WalkAll(f, room, xs, depth).value != [] ==> WalkAll(f, room, xs, depth).value[0].depth == depth
  {
  }

  /** Two blocks below different siblings: no span in common and no step of one below a step of the other. */
  lemma JoinOrders(f: Tree, x: Id, rest: seq<Id>, depth: int, a: seq<Step>, b: seq<Step>)
    requires Proper(f) && Acyclic(f) && x in f.names && (forall y | y in rest :: y in f.names && y != x && ParentOf(f, y) == ParentOf(f, x))
    requires Lists(f, [x], depth, a) && Lists(f, rest, depth, b)
    requires Ordered(f, a) && Ordered(f, b) && (b != [] ==> b[0].depth == depth)
    ensures Ordered(f, a + b)
  {
    var w := a + b;
    forall i, j | 0 <= i < |a| && 0 <= j < |b| ensures Apart(f, a[i], b[j]) { BlocksApart(f, x, rest, depth, a[i], b[j]); }
    OnceJoins(f, a, b);
    forall i | 0 <= i < |a| ensures a[i].depth >= depth { assert Under(f, [x], depth, a[i]); }
    forall i, j | 0 <= i < |w| && 0 <= j < |w| ensures Beneath(f, w[i], w[j]) <==> Follows(w, i, j) {
      JoinPair(f, depth, a, b, i, j);
    }
  }

  lemma JoinPair(f: Tree, depth: int, a: seq<Step>, b: seq<Step>, i: nat, j: nat)
    requires Preorder(f, a) && Preorder(f, b) && i < |a + b| && j < |a + b|
    requires (b != [] ==> b[0].depth == depth) && forall k | 0 <= k < |a| :: a[k].depth >= depth
    requires forall m, n | 0 <= m < |a| && 0 <= n < |b| :: Apart(f, a[m], b[n])
    ensures Beneath(f, (a + b)[i], (a + b)[j]) <==> Follows(a + b, i, j)
  {
    var w := a + b;
    if i < |a| && j < |a| {
      FollowsInFirst(a, b, i, j);
    } else if i < |a| {
      assert Apart(f, a[i], b[j - |a|]);
      assert w[|a|] == b[0];
    } else if j >= |a| {
      FollowsInSecond(a, b, i - |a|, j - |a|);
    } else {
      assert Apart(f, a[j], b[i - |a|]);
    }
  }

  lemma OnceJoins(f: Tree, a: seq<Step>, b: seq<Step>)
    requires Once(a) && Once(b) && forall i, j | 0 <= i < |a| && 0 <= j < |b| :: Apart(f, a[i], b[j])
    ensures Once(a + b)
  {
    var w := a + b;
    forall i, j | 0 <= i < j < |w| ensures w[i].id != w[j].id {
      if i < |a| <= j { assert Apart(f, a[i], b[j - |a|]); }
    }
  }

  ghost predicate Apart(f: Tree, s: Step, t: Step) {
    s.id != t.id && !Beneath(f, s, t) && !Beneath(f, t, s)
  }

  lemma BlocksApart(f: Tree, x: Id, rest: seq<Id>, depth: int, s: Step, t: Step)
    requires Acyclic(f) && (forall y | y in rest :: y != x && ParentOf(f, y) == ParentOf(f, x))
    requires s.id in f.names && t.id in f.names && Under(f, [x], depth, s) && Under(f, rest, depth, t)
    ensures Apart(f, s, t)
  {
    var y := Climb(f, t.id, t.depth - depth).value;
    if s.id == t.id { SiblingsApart(f, s.id, s.depth - depth, x, t.depth - depth, y); }
    if Beneath(f, s, t) {
      ClimbAdd(f, t.id, t.depth - s.depth, s.depth - depth);
    }
    if Beneath(f, t, s) {
      ClimbAdd(f, s.id, s.depth - t.depth, t.depth - depth);
    }
  }

  /******* The whole listing *******/

  function Ids(w: seq<Step>): set<Id> {
    set i | 0 <= i < |w| :: w[i].id
  }

  /** The safety net walks from a span the roots did not lead to. */
  function Rescue(f: Tree, limit: nat, x: Id, reached: set<Id>): Option<seq<Step>> {
    if x in reached then Some([]) else Walk(f, limit, x, 0)
  }

  function Net(f: Tree, limit: nat, names: seq<Id>, reached: set<Id>): Option<seq<Step>> {
    if names == [] then Some([]) else
    var first := Rescue(f, limit, names[0], reached);
    if first.None? then None else
    var rest := Net(f, limit, names[1..], reached);
    if rest.None? then None else Some(first.value + rest.value)
  }

  function Listing(f: Tree, limit: nat): Option<seq<Step>> {
    var main := WalkAll(f, limit, Children(f, None), 0);
    if main.None? then None else
    var net := Net(f, limit, f.names, Ids(main.value));
    if net.None? then None else Some(main.value + net.value)
  }

  lemma {:induction false} NetFails(f: Tree, limit: nat, names: seq<Id>, reached: set<Id>, x: Id)
    requires x in names && x !in reached && Walk(f, limit, x, 0) == None
    ensures Net(f, limit, names, reached) == None
  {
    if names[0] != x { NetFails(f, limit, names[1..], reached, x); }
  }

  lemma {:induction false} NetIdle(f: Tree, limit: nat, names: seq<Id>, reached: set<Id>)
    requires forall x | x in names :: x in reached
    ensures Net(f, limit, names, reached) == Some([])
  {
    if names != [] {
      NetIdle(f, limit, names[1..], reached);
      var nothing: seq<Step> := [];
      assert names[0] in reached && nothing + nothing == nothing;
    }
  }

  /** The last span before the climb ends is a root. */
  lemma {:induction false} ClimbToRoot(f: Tree, x: Id, end: nat) returns (k: nat)
    requires Proper(f) && x in f.names && Climb(f, x, end) == None
    ensures k < end && Climb(f, x, k).Some? && Climb(f, x, k).value in Children(f, None)
  {
    if Climb(f, x, end - 1).Some? {
      k := end - 1;
      ClimbNames(f, x, k);
    } else {
      k := ClimbToRoot(f, x, end - 1);
    }
  }

  lemma ShallowLists(f: Tree, limit: nat)
    requires Proper(f) && Shallow(f, limit)
    ensures var main := WalkAll(f, limit, Children(f, None), 0);
      main.Some? && Listing(f, limit) == main && forall x | x in f.names :: x in Ids(main.value)
  {
    WalkAllFails(f, limit, Children(f, None), 0);
    assert forall x :: !Deep(f, x, limit);
    var main := WalkAll(f, limit, Children(f, None), 0);
    RootsReachAll(f, limit);
    NetIdle(f, limit, f.names, Ids(main.value));
    assert main.value + [] == main.value;
  }

  lemma RootsReachAll(f: Tree, limit: nat)
    requires Proper(f) && Shallow(f, limit) && WalkAll(f, limit, Children(f, None), 0).Some?
    ensures forall x | x in f.names :: x in Ids(WalkAll(f, limit, Children(f, None), 0).value)
  {
    var main := WalkAll(f, limit, Children(f, None), 0);
    WalkAllLists(f, limit, Children(f, None), 0);
    forall x | x in f.names ensures x in Ids(main.value) {
      var k := ClimbToRoot(f, x, limit);
      assert Step(x, 0 + k) in main.value;
    }
  }

  lemma DeepFails(f: Tree, limit: nat, y: Id)
    requires Proper(f) && y in f.names && Climb(f, y, limit).Some?
    ensures Listing(f, limit) == None
  {
    if Grounded(f, y) {
      DeepRootFails(f, limit, y);
    } else {
      var i, a, period := UngroundedCycle(f, y);
      CycleFails(f, limit, a, period);
    }
  }

  /** A span deep below a root stops the walk from the roots. */
  lemma DeepRootFails(f: Tree, limit: nat, y: Id)
    requires Proper(f) && y in f.names && Climb(f, y, limit).Some? && Grounded(f, y)
    ensures WalkAll(f, limit, Children(f, None), 0) == None
  {
    var end: nat :| Climb(f, y, end) == None;
    var k := ClimbToRoot(f, y, end);
    var r := Climb(f, y, k).value;
    if k < limit {
      ClimbAdd(f, y, k, 1);
      assert Climb(f, r, 1) == None by { assert Climb(f, r, 0) == Some(r); }
      ClimbEnds(f, y, k + 1, limit);
    }
    Lower(f, y, k, limit);
    WalkAllFails(f, limit, Children(f, None), 0);
  }

  /** A span on a cycle is not reached from the roots, and the safety net never returns from it. */
  lemma CycleFails(f: Tree, limit: nat, a: Id, period: nat)
    requires Proper(f) && a in f.names && period > 0 && Climb(f, a, period) == Some(a)
    ensures Listing(f, limit) == None
  {
    var roots := Children(f, None);
    var main := WalkAll(f, limit, roots, 0);
    CycleClimbs(f, a, period, limit);
    Product(limit, period);
    Lower(f, a, limit * period, limit);
    WalkFails(f, limit, a, 0);
    if main.Some? {
      WalkAllLists(f, limit, roots, 0);
      if a in Ids(main.value) {
        var j :| 0 <= j < |main.value| && main.value[j].id == a;
        assert Under(f, roots, 0, main.value[j]);
        CycleClimbs(f, a, period, main.value[j].depth + 1);
      }
      NetFails(f, limit, f.names, Ids(main.value), a);
    }
  }

  lemma Lower(f: Tree, y: Id, k: nat, limit: nat)
    requires Proper(f) && y in f.names && limit <= k && Climb(f, y, k).Some?
    ensures Deep(f, Climb(f, y, k).value, limit)
  {
    ClimbAdd(f, y, k - limit, limit);
    ClimbNames(f, y, k - limit);
  }

  /**
   The listing succeeds exactly when no span has `limit` ancestors; otherwise it ends in
   a recursion error. When it succeeds the safety net has added nothing.
   */
  lemma ListingExactly(f: Tree, limit: nat)
    requires Proper(f)
    ensures Listing(f, limit).Some? <==> Shallow(f, limit)
    ensures Listing(f, limit).Some? ==> Listing(f, limit) == WalkAll(f, limit, Children(f, None), 0)
  {
    if Shallow(f, limit) {
      ShallowLists(f, limit);
    } else {
      var y :| y in f.names && Climb(f, y, limit).Some?;
      DeepFails(f, limit, y);
    }
  }

  /** With recursion room for every span, cycles are what makes it fail: the safety net never rescues one. */
  lemma OnlyCyclesFail(f: Tree, limit: nat)
    requires Proper(f) && limit >= |f.names|
    ensures Listing(f, limit).Some? <==> Acyclic(f)
  {
    ListingExactly(f, limit);
    ShallowIsAcyclic(f, limit);
  }

  /** Every span exactly once, at a depth that is the number of its ancestors, in preorder. */
  lemma ListingIsPreorder(f: Tree, limit: nat)
    requires Proper(f) && Listing(f, limit).Some?
    ensures var w := Listing(f, limit).value;
      && |w| == |f.names| && Once(w)
      && (forall x :: x in f.names <==> x in Ids(w))
      && (forall i | 0 <= i < |w| :: AtLevel(f, w[i]))
      && Preorder(f, w)
  {
    ListingExactly(f, limit);
    ShallowLists(f, limit);
    ShallowIsAcyclic(f, limit);
    var roots := Children(f, None);
    var w := Listing(f, limit).value;
    ChildrenSiblings(f, None);
    WalkAllOrders(f, limit, roots, 0);
    WalkAllLists(f, limit, roots, 0);
    forall i | 0 <= i < |w| ensures AtLevel(f, w[i]) { assert Under(f, roots, 0, w[i]); }
    OnceCounts(f.names, w);
  }

  /** The depth of a step is the number of its ancestors. */
  ghost predicate AtLevel(f: Tree, t: Step) {
    t.depth >= 0 && Climb(f, t.id, t.depth).Some? && Climb(f, t.id, t.depth + 1) == None
  }

  lemma OnceCounts(names: seq<Id>, w: seq<Step>)
    requires forall i, j | 0 <= i < j < |names| :: names[i] != names[j]
    requires Once(w) && (forall x | x in names :: x in Ids(w)) && forall i | 0 <= i < |w| :: w[i].id in names
    ensures |w| == |names|
  {
    var ids := seq(|w|, i requires 0 <= i < |w| => w[i].id);
    DistinctBound(names, ids);
    forall x | x in names ensures x in ids {
      var i :| 0 <= i < |w| && w[i].id == x;
      assert ids[i] == x;
    }
    DistinctBound(ids, names);
  }

  /******* Siblings, in the order of the spans *******/

  lemma {:induction false} HeadAt(f: Tree, room: nat, xs: seq<Id>, depth: int, j: nat) returns (q: nat)
    requires j < |xs| && WalkAll(f, room, xs, depth).Some?
    ensures q < |WalkAll(f, room, xs, depth).value| && WalkAll(f, room, xs, depth).value[q].id == xs[j]
    decreases |xs|
  {
    var first := Walk(f, room, xs[0], depth).value;
    q := 0;
    if j > 0 {
      q := HeadAt(f, room, xs[1..], depth, j - 1);
      q := |first| + q;
    }
  }

  lemma {:induction false} HeadsInOrder(f: Tree, room: nat, xs: seq<Id>, depth: int, i: nat, j: nat) returns (p: nat, q: nat)
    requires i < j < |xs| && WalkAll(f, room, xs, depth).Some?
    ensures var w := WalkAll(f, room, xs, depth).value; p < q < |w| && w[p].id == xs[i] && w[q].id == xs[j]
    decreases |xs|
  {
    var first := Walk(f, room, xs[0], depth).value;
    if i == 0 {
      p := 0;
      q := HeadAt(f, room, xs[1..], depth, j - 1);
    } else {
      p, q := HeadsInOrder(f, room, xs[1..], depth, i - 1, j - 1);
      p := |first| + p;
    }
    q := |first| + q;
  }

  /** Wherever a span is listed, its children follow in their order. */
  lemma {:induction false} ChildrenInWalk(f: Tree, room: nat, x: Id, depth: int, y: Id, i: nat, j: nat) returns (p: nat, q: nat)
    requires Walk(f, room, x, depth).Some? && y in Ids(Walk(f, room, x, depth).value) && i < j < |Children(f, Some(y))|
    ensures var w := Walk(f, room, x, depth).value;
      p < q < |w| && w[p].id == Children(f, Some(y))[i] && w[q].id == Children(f, Some(y))[j]
    decreases room, 0
  {
    var xs := Children(f, Some(x));
    var w, below := Walk(f, room, x, depth).value, WalkAll(f, room - 1, xs, depth + 1).value;
    assert w == [Step(x, depth)] + below;
    if y == x {
      p, q := HeadsInOrder(f, room - 1, xs, depth + 1, i, j);
    } else {
      var k :| 0 <= k < |w| && w[k].id == y;
      assert below[k - 1].id == y;
      p, q := ChildrenInWalkAll(f, room - 1, xs, depth + 1, y, i, j);
    }
    p, q := p + 1, q + 1;
  }

  lemma {:induction false} ChildrenInWalkAll(f: Tree, room: nat, xs: seq<Id>, depth: int, y: Id, i: nat, j: nat) returns (p: nat, q: nat)
    requires WalkAll(f, room, xs, depth).Some? && y in Ids(WalkAll(f, room, xs, depth).value) && i < j < |Children(f, Some(y))|
    ensures var w := WalkAll(f, room, xs, depth).value;
      p < q < |w| && w[p].id == Children(f, Some(y))[i] && w[q].id == Children(f, Some(y))[j]
    decreases room, 1, |xs|
  {
    var w, first, rest := WalkAll(f, room, xs, depth).value, Walk(f, room, xs[0], depth).value, WalkAll(f, room, xs[1..], depth).value;
    assert w == first + rest;
    if y in Ids(first) {
      p, q := ChildrenInWalk(f, room, xs[0], depth, y, i, j);
    } else {
      var k :| 0 <= k < |w| && w[k].id == y;
      assert rest[k - |first|].id == y;
      p, q := ChildrenInWalkAll(f, room, xs[1..], depth, y, i, j);
      p, q := |first| + p, |first| + q;
    }
  }

  lemma {:induction false} SelectInOrder(names: seq<Id>, f: Tree, p: Option<Id>, k: nat, m: nat) returns (i: nat, j: nat)
    requires k < m < |names| && ParentOf(f, names[k]) == ParentOf(f, names[m]) == p
    ensures i < j < |Select(names, f, p)| && Select(names, f, p)[i] == names[k] && Select(names, f, p)[j] == names[m]
  {
    var rest := names[1..];
    assert rest[m - 1] == names[m];
    if k == 0 {
      j := SelectHas(rest, f, p, m - 1);
      i, j := 0, j + 1;
    } else {
      assert rest[k - 1] == names[k];
      i, j := SelectInOrder(rest, f, p, k - 1, m - 1);
      i := SelectShifts(names, f, p, i);
      j := SelectShifts(names, f, p, j);
    }
  }

  /** Where a selected span stands once one more span is put before the rest. */
  lemma SelectShifts(names: seq<Id>, f: Tree, p: Option<Id>, i: nat) returns (j: nat)
    requires names != [] && i < |Select(names[1..], f, p)|
    ensures j == (if ParentOf(f, names[0]) == p then i + 1 else i) && j < |Select(names, f, p)|
    ensures Select(names, f, p)[j] == Select(names[1..], f, p)[i]
  {
    j := if ParentOf(f, names[0]) == p then i + 1 else i;
  }

  lemma SelectHas(names: seq<Id>, f: Tree, p: Option<Id>, m: nat) returns (j: nat)
    requires m < |names| && ParentOf(f, names[m]) == p
    ensures j < |Select(names, f, p)| && Select(names, f, p)[j] == names[m]
  {
    assert names[m] in Select(names, f, p);
    j :| 0 <= j < |Select(names, f, p)| && Select(names, f, p)[j] == names[m];
  }

  /** Spans with the same parent, or without any, are listed in the order in which they came. */
  lemma SiblingsInOrder(f: Tree, limit: nat, k: nat, m: nat, i: nat, j: nat)
    requires Proper(f) && Listing(f, limit).Some? && k < m < |f.names| && ParentOf(f, f.names[k]) == ParentOf(f, f.names[m])
    requires i < |Listing(f, limit).value| && j < |Listing(f, limit).value|
    requires Listing(f, limit).value[i].id == f.names[k] && Listing(f, limit).value[j].id == f.names[m]
    ensures i < j
  {
    var w, parent := Listing(f, limit).value, ParentOf(f, f.names[k]);
    ListingExactly(f, limit);
    ListingIsPreorder(f, limit);
    var a, b := SelectInOrder(f.names, f, parent, k, m);
    var p, q: nat;
    if parent.None? {
      p, q := HeadsInOrder(f, limit, Children(f, None), 0, a, b);
    } else {
      assert parent.value in f.names;
      p, q := ChildrenInWalkAll(f, limit, Children(f, None), 0, parent.value, a, b);
    }
    assert w[p].id == w[i].id && w[q].id == w[j].id;
  }

  /** A span with a parent is listed below it, one level deeper; one without is at the top. */
  lemma ListedBelowParent(f: Tree, limit: nat, i: nat) returns (p: nat)
    requires Proper(f) && Listing(f, limit).Some? && i < |Listing(f, limit).value|
    ensures (var w := Listing(f, limit).value; var parent := ParentOf(f, w[i].id);
             if parent.None? then w[i].depth == 0
             else p < |w| && w[p].id == parent.value && w[i].depth == w[p].depth + 1 && Follows(w, p, i))
  {
    var w := Listing(f, limit).value;
    var parent := ParentOf(f, w[i].id);
    ListingIsPreorder(f, limit);
    assert AtLevel(f, w[i]);
    assert Climb(f, w[i].id, 0) == Some(w[i].id);
    p := 0;
    if parent.None? {
      if w[i].depth > 0 { ClimbEnds(f, w[i].id, 1, w[i].depth); }
    } else {
      assert parent.value in f.names;
      p :| 0 <= p < |w| && w[p].id == parent.value;
      assert AtLevel(f, w[p]);
      OneLevelUp(f, w[i], w[p]);
      assert Beneath(f, w[p], w[i]);
    }
  }

  lemma OneLevelUp(f: Tree, x: Step, y: Step)
    requires AtLevel(f, x) && AtLevel(f, y) && ParentOf(f, x.id) == Some(y.id)
    ensures x.depth == y.depth + 1 && Climb(f, x.id, 1) == Some(y.id)
  {
    assert Climb(f, x.id, 0) == Some(x.id);
    ClimbAdd(f, x.id, 1, y.depth);
    ClimbAdd(f, x.id, 1, y.depth + 1);
    if x.depth > y.depth + 1 { ClimbEnds(f, x.id, y.depth + 2, x.depth); }
    if x.depth < y.depth + 1 { ClimbEnds(f, x.id, x.depth + 1, y.depth + 1); }
  }
}
