/**
 Sets and dictionaries (shared/code_scorer.py:325-333, 513-531): which values are one key to
 Python, which spelling of a key stays and which value it ends up with, and in which order the
 parts of a construct are evaluated.
 */
module ScorerDisplays {
  import opened Wrappers
  import opened ScorerSyntax
  import opened ScorerSemantics
  import opened ScorerLiterals
  import opened ScorerLoops
  import opened ScorerOperations

  /******* Equal keys *******/

  /** Python's equality of keys: numbers by value, whatever their type, and tuples item by item. */
  predicate Same(a: Value, b: Value)
    decreases a
  {
    if Number(a).Some? || Number(b).Some? then Number(a) == Number(b)
    else if a.Tuple? && b.Tuple? then
      |a.items| == |b.items| && forall i | 0 <= i < |a.items| :: Same(a.items[i], b.items[i])
    else a == b
  }

  lemma {:induction false} CanonicalExactly(a: Value, b: Value)
    ensures Canonical(a) == Canonical(b) <==> Same(a, b)
    decreases a
  {
    if a.Tuple? && b.Tuple? {
      var xs, ys := Canonical(a).items, Canonical(b).items;
      assert |xs| == |a.items| && |ys| == |b.items|;
      assert forall i | 0 <= i < |xs| :: xs[i] == Canonical(a.items[i]);
      assert forall i | 0 <= i < |ys| :: ys[i] == Canonical(b.items[i]);
      if |xs| == |ys| {
        forall i | 0 <= i < |xs| ensures xs[i] == ys[i] <==> Same(a.items[i], b.items[i]) {
          CanonicalExactly(a.items[i], b.items[i]);
        }
        assert xs == ys <==> Same(a, b);
      }
      assert Canonical(a) == Canonical(b) <==> xs == ys;
    }
  }

  /** What stands at a path into nested tuples. */
  function Part(v: Value, path: seq<nat>): Option<Value>
    decreases |path|
  {
    if path == [] then Some(v)
    else if v.Tuple? && path[0] < |v.items| then Part(v.items[path[0]], path[1..])
    else None
  }

  predicate Changeable(v: Value) {
    v.List? || v.Set? || v.Dict?
  }

  /** A key may be anything but a list, a set or a dictionary, or a tuple with one of these inside. */
  lemma {:induction false} HashableExactly(v: Value)
    ensures Hashable(v) <==> forall path | Part(v, path).Some? :: !Changeable(Part(v, path).value)
    decreases v
  {
    if Hashable(v) {
      forall path | Part(v, path).Some? ensures !Changeable(Part(v, path).value) { PartHashable(v, path); }
    } else {
      var path := ChangeablePart(v);
    }
  }

  lemma {:induction false} PartHashable(v: Value, path: seq<nat>)
    requires Hashable(v) && Part(v, path).Some?
    ensures !Changeable(Part(v, path).value)
    decreases |path|
  {
    if path != [] { PartHashable(v.items[path[0]], path[1..]); }
  }

  lemma {:induction false} ChangeablePart(v: Value) returns (path: seq<nat>)
    requires !Hashable(v)
    ensures Part(v, path).Some? && Changeable(Part(v, path).value)
    decreases v
  {
    path := [];
    if v.Tuple? {
      var i: nat :| i < |v.items| && !Hashable(v.items[i]);
      var inner := ChangeablePart(v.items[i]);
      path := [i] + inner;
      assert path[1..] == inner;
    }
  }

  /******* Sets *******/

  /** `s` holds, for each of `xs`, the first one that is equal to it, once. */
  ghost predicate Firsts(xs: seq<Value>, s: seq<Value>) {
    Distinct(s) && AllFirst(xs, s) && AllStand(s, xs)
  }

  ghost predicate Distinct(s: seq<Value>) {
    forall i, j | 0 <= i < j < |s| :: !Same(s[i], s[j])
  }

  ghost predicate AllFirst(xs: seq<Value>, s: seq<Value>) {
    forall i | 0 <= i < |s| :: FirstOf(xs, s[i])
  }

  ghost predicate AllStand(s: seq<Value>, xs: seq<Value>) {
    forall k | 0 <= k < |xs| :: Stands(s, xs[k])
  }

  /** `x` comes before everything in `xs` that is equal to it. */
  ghost predicate FirstOf(xs: seq<Value>, x: Value) {
    exists k :: 0 <= k < |xs| && xs[k] == x && forall j | 0 <= j < k :: !Same(xs[j], x)
  }

  predicate Stands(s: seq<Value>, x: Value) {
    exists i :: 0 <= i < |s| && Same(s[i], x)
  }

  lemma SameChains(a: Value, b: Value, c: Value)
    requires Same(a, b) && Same(b, c)
    ensures Same(a, c)
  {
    CanonicalExactly(a, b);
    CanonicalExactly(b, c);
    CanonicalExactly(a, c);
  }

  function Added(s: seq<Value>, x: Value): seq<Value> {
    if Stands(s, x) then s else s + [x]
  }

  lemma FirstsStep(xs: seq<Value>, s: seq<Value>, x: Value)
    requires Firsts(xs, s)
    ensures Firsts(xs + [x], Added(s, x))
  {
    AddedDistinct(s, x);
    AddedFirst(xs, s, x);
    AddedStand(xs, s, x);
  }

  lemma AddedDistinct(s: seq<Value>, x: Value)
    requires Distinct(s)
    ensures Distinct(Added(s, x))
  {
  }

  lemma AddedFirst(xs: seq<Value>, s: seq<Value>, x: Value)
    requires Firsts(xs, s)
    ensures AllFirst(xs + [x], Added(s, x))
  {
    var s' := Added(s, x);
    forall i | 0 <= i < |s'| ensures FirstOf(xs + [x], s'[i]) {
      if i < |s| {
        StillFirst(xs, x, s[i]);
      } else {
        NewFirst(xs, s, x);
      }
    }
  }

  lemma AddedStand(xs: seq<Value>, s: seq<Value>, x: Value)
    requires AllStand(s, xs)
    ensures AllStand(Added(s, x), xs + [x])
  {
    forall k | 0 <= k < |xs + [x]| ensures Stands(Added(s, x), (xs + [x])[k]) {
      if k < |xs| {
        StandsStill(s, x, xs[k]);
      } else {
        NowStands(s, x);
      }
    }
  }

  lemma StandsStill(s: seq<Value>, x: Value, y: Value)
    requires Stands(s, y)
    ensures Stands(Added(s, x), y)
  {
    var i :| 0 <= i < |s| && Same(s[i], y);
    assert Added(s, x)[i] == s[i];
  }

  lemma NowStands(s: seq<Value>, x: Value)
    ensures Stands(Added(s, x), x)
  {
    if !Stands(s, x) {
      CanonicalExactly(x, x);
      assert Added(s, x)[|s|] == x;
    }
  }

  lemma StillFirst(xs: seq<Value>, x: Value, y: Value)
    requires FirstOf(xs, y)
    ensures FirstOf(xs + [x], y)
  {
    var k :| 0 <= k < |xs| && xs[k] == y && forall j | 0 <= j < k :: !Same(xs[j], y);
    assert (xs + [x])[k] == y;
  }

  lemma NewFirst(xs: seq<Value>, s: seq<Value>, x: Value)
    requires Firsts(xs, s) && !Stands(s, x)
    ensures FirstOf(xs + [x], x)
  {
    forall j | 0 <= j < |xs| ensures !Same(xs[j], x) {
      assert Stands(s, xs[j]);
      var i :| 0 <= i < |s| && Same(s[i], xs[j]);
      if Same(xs[j], x) { SameChains(s[i], xs[j], x); }
    }
    assert (xs + [x])[|xs|] == x;
  }

  predicate AllHashable(xs: seq<Value>) {
    forall i | 0 <= i < |xs| :: Hashable(xs[i])
  }

  /** Adding the elements from `k` on, once those before it are in. */
  lemma {:induction false} InsertAllExactly(s: seq<Value>, xs: seq<Value>, k: nat)
    requires k <= |xs| && Firsts(xs[..k], s) && AllHashable(xs)
    ensures InsertAll(s, xs[k..]).Ok? && Firsts(xs, InsertAll(s, xs[k..]).value)
    decreases |xs| - k
  {
    if k == |xs| {
      assert xs[..k] == xs;
    } else {
      assert xs[k..][0] == xs[k] && xs[k..][1..] == xs[k + 1..] && xs[..k] + [xs[k]] == xs[..k + 1];
      InsertStep(s, xs[k..]);
      FirstsStep(xs[..k], s, xs[k]);
      InsertAllExactly(Added(s, xs[k]), xs, k + 1);
    }
  }

  lemma {:induction false} InsertAllEscapes(s: seq<Value>, xs: seq<Value>)
    requires !AllHashable(xs)
    ensures InsertAll(s, xs) == Err(Escaped)
    decreases |xs|
  {
    HeadAndTail(xs);
    if Hashable(xs[0]) {
      InsertStep(s, xs);
      InsertAllEscapes(Added(s, xs[0]), xs[1..]);
    }
  }

  lemma InsertStep(s: seq<Value>, xs: seq<Value>)
    requires xs != [] && Hashable(xs[0])
    ensures InsertAll(s, xs) == InsertAll(Added(s, xs[0]), xs[1..])
  {
    StandsExactly(s, xs[0]);
  }

  lemma HeadAndTail(xs: seq<Value>)
    requires xs != []
    ensures AllHashable(xs) <==> Hashable(xs[0]) && AllHashable(xs[1..])
  {
    if Hashable(xs[0]) && AllHashable(xs[1..]) {
      forall i | 0 <= i < |xs| ensures Hashable(xs[i]) { if i > 0 { assert xs[i] == xs[1..][i - 1]; } }
    }
  }

  lemma StandsExactly(s: seq<Value>, x: Value)
    ensures Stands(s, x) <==> exists i :: 0 <= i < |s| && Canonical(s[i]) == Canonical(x)
  {
    forall i | 0 <= i < |s| ensures Canonical(s[i]) == Canonical(x) <==> Same(s[i], x) {
      CanonicalExactly(s[i], x);
    }
  }

  /** `{v, ...}`: the first of equal elements stays; one that is no key ends in Python's own TypeError. */
  lemma SetExactly(m: Machine, vs: seq<Value>)
    requires Room(m, 1 + |vs|, 1)
    ensures (var r := Run(m, SetDisplay(Literals(vs))).result;
             if !Allows(m.lim.items, |vs|) then r == Err(Limit(ItemLimit))
             else if AllHashable(vs) then r.Ok? && r.value.Set? && Firsts(vs, r.value.items)
             else r == Err(Escaped))
  {
    StrictRuns(m, SetDisplay(Literals(vs)), vs);
    MakeSetExactly(vs);
  }

  lemma MakeSetExactly(vs: seq<Value>)
    ensures (var r := MakeSet(Ok(List(vs)));
             if AllHashable(vs) then r.Ok? && r.value.Set? && Firsts(vs, r.value.items) else r == Err(Escaped))
  {
    assert vs[0..] == vs;
    if AllHashable(vs) {
      InsertAllExactly([], vs, 0);
    } else {
      InsertAllEscapes([], vs);
    }
  }

  /** `{id for id in v}`, or with `if id` */
  lemma SetCompExactly(m: Machine, e: Expr, id: string, v: Value, tested: bool, items: seq<Value>)
    requires e.SetComp? && Visits(e, id, v, tested) && Yields(v, items)
    requires Room(m, 2 + 2 * |items|, 1) && Allows(m.lim.items, |items|)
    ensures (var r := Run(m, e).result;
             var kept := if tested then Kept(true, items) else items;
             if AllHashable(kept) then r.Ok? && r.value.Set? && Firsts(kept, r.value.items) else r == Err(Escaped))
  {
    LoopVisitsInOrder(m, e, id, v, tested, items);
    MakeSetExactly(if tested then Kept(true, items) else items);
  }

  /******* Dictionaries *******/

  /**
   Entry `i` stands for the keys equal to `ks[firsts[i]]`: the first of them gives its
   spelling and its place, and the last of them, at `lasts[i]`, its value.
   */
  ghost predicate Collected(ks: seq<Value>, vs: seq<Value>, es: seq<Entry>, firsts: seq<nat>, lasts: seq<nat>)
    requires |ks| == |vs|
  {
    && |firsts| == |lasts| == |es|
    && Increasing(firsts)
    && (forall i | 0 <= i < |es| :: StandsFor(ks, vs, es[i], firsts[i], lasts[i]))
    && (forall k | 0 <= k < |ks| :: HasKey(es, ks[k]))
  }

  predicate Increasing(firsts: seq<nat>) {
    forall i, j | 0 <= i < j < |firsts| :: firsts[i] < firsts[j]
  }

  ghost predicate StandsFor(ks: seq<Value>, vs: seq<Value>, e: Entry, first: nat, last: nat)
    requires |ks| == |vs|
  {
    && first <= last < |ks| && e == Entry(ks[first], vs[last])
    && Same(ks[first], ks[last])
    && (forall j | 0 <= j < first :: !Same(ks[j], ks[first]))
    && (forall j | last < j < |ks| :: !Same(ks[j], ks[first]))
  }

  predicate HasKey(es: seq<Entry>, key: Value) {
    exists i :: 0 <= i < |es| && Same(es[i].key, key)
  }

  /** The same of the first `n` keys, with the keys' canonical forms `cs` in place of their equality. */
  ghost predicate Indexed(cs: seq<Value>, n: nat, firsts: seq<nat>, lasts: seq<nat>)
    requires n <= |cs|
  {
    && |firsts| == |lasts|
    && Increasing(firsts)
    && (forall i | 0 <= i < |firsts| :: Spans(cs, n, firsts[i], lasts[i]))
    && (forall k | 0 <= k < n :: InFirsts(cs, firsts, cs[k]))
  }

  ghost predicate Spans(cs: seq<Value>, n: nat, first: nat, last: nat)
    requires n <= |cs|
  {
    && first <= last < n && cs[first] == cs[last]
    && (forall j | 0 <= j < first :: cs[j] != cs[first])
    && (forall j | last < j < n :: cs[j] != cs[first])
  }

  ghost predicate InFirsts(cs: seq<Value>, firsts: seq<nat>, c: Value) {
    exists i :: 0 <= i < |firsts| && firsts[i] < |cs| && cs[firsts[i]] == c
  }

  function Forms(ks: seq<Value>): (cs: seq<Value>)
    ensures |cs| == |ks| && forall i | 0 <= i < |cs| :: cs[i] == Canonical(ks[i])
  {
    seq(|ks|, i requires 0 <= i < |ks| => Canonical(ks[i]))
  }

  lemma OldKey(cs: seq<Value>, n: nat, firsts: seq<nat>, lasts: seq<nat>, i: nat)
    requires n < |cs| && Indexed(cs, n, firsts, lasts) && i < |firsts| && Spans(cs, n, firsts[i], lasts[i]) && cs[firsts[i]] == cs[n]
    ensures Indexed(cs, n + 1, firsts, lasts[i := n])
  {
    forall j | 0 <= j < |firsts| ensures Spans(cs, n + 1, firsts[j], lasts[i := n][j]) {
      assert Spans(cs, n, firsts[j], lasts[j]);
    }
    forall k | 0 <= k < n + 1 ensures InFirsts(cs, firsts, cs[k]) { assert k == n || InFirsts(cs, firsts, cs[k]); }
  }

  lemma NewKey(cs: seq<Value>, n: nat, firsts: seq<nat>, lasts: seq<nat>)
    requires n < |cs| && Indexed(cs, n, firsts, lasts) && forall i | 0 <= i < |firsts| && firsts[i] < n :: cs[firsts[i]] != cs[n]
    ensures Indexed(cs, n + 1, firsts + [n], lasts + [n])
  {
    var fs, ls := firsts + [n], lasts + [n];
    NewSpan(cs, n, firsts, lasts);
    forall i | 0 <= i < |firsts| ensures firsts[i] < n && Spans(cs, n + 1, firsts[i], lasts[i]) { StillSpans(cs, n, firsts[i], lasts[i]); }
    forall i | 0 <= i < |fs| ensures Spans(cs, n + 1, fs[i], ls[i]) {
      assert i < |firsts| ==> fs[i] == firsts[i] && ls[i] == lasts[i];
    }
    forall k | 0 <= k < n + 1 ensures InFirsts(cs, fs, cs[k]) { AddedFirsts(cs, firsts, n, k); }
  }

  lemma NewSpan(cs: seq<Value>, n: nat, firsts: seq<nat>, lasts: seq<nat>)
    requires n < |cs| && Indexed(cs, n, firsts, lasts) && forall i | 0 <= i < |firsts| && firsts[i] < n :: cs[firsts[i]] != cs[n]
    ensures Spans(cs, n + 1, n, n)
  {
    forall j | 0 <= j < n ensures cs[j] != cs[n] {
      assert InFirsts(cs, firsts, cs[j]);
      var i :| 0 <= i < |firsts| && firsts[i] < |cs| && cs[firsts[i]] == cs[j];
      assert Spans(cs, n, firsts[i], lasts[i]);
    }
  }

  lemma StillSpans(cs: seq<Value>, n: nat, first: nat, last: nat)
    requires n < |cs| && Spans(cs, n, first, last) && (first < n ==> cs[first] != cs[n])
    ensures first < n && Spans(cs, n + 1, first, last)
  {
  }

  lemma AddedFirsts(cs: seq<Value>, firsts: seq<nat>, n: nat, k: nat)
    requires k <= n < |cs| && (k < n ==> InFirsts(cs, firsts, cs[k]))
    ensures InFirsts(cs, firsts + [n], cs[k])
  {
    var fs := firsts + [n];
    if k == n {
      assert fs[|firsts|] == n;
    } else {
      var i :| 0 <= i < |firsts| && firsts[i] < |cs| && cs[firsts[i]] == cs[k];
      assert fs[i] == firsts[i];
    }
  }

  lemma {:induction false} PutExactly(es: seq<Entry>, key: Value, value: Value) returns (i: nat)
    ensures i <= |es| && forall j | 0 <= j < i :: Canonical(es[j].key) != Canonical(key)
    ensures i < |es| ==> Canonical(es[i].key) == Canonical(key) && Put(es, key, value) == es[i := Entry(es[i].key, value)]
    ensures i == |es| ==> Put(es, key, value) == es + [Entry(key, value)]
  {
    i := 0;
    if es != [] && Canonical(es[0].key) != Canonical(key) {
      var k := PutExactly(es[1..], key, value);
      i := k + 1;
      PutRest(es, key, value, k);
    }
  }

  lemma PutRest(es: seq<Entry>, key: Value, value: Value, k: nat)
    requires es != [] && k < |es|
    ensures k + 1 < |es| ==> [es[0]] + es[1..][k := Entry(es[1..][k].key, value)] == es[k + 1 := Entry(es[k + 1].key, value)]
    ensures [es[0]] + (es[1..] + [Entry(key, value)]) == es + [Entry(key, value)]
  {
  }

  ghost predicate Zipped(ks: seq<Value>, vs: seq<Value>, n: nat, es: seq<Entry>, firsts: seq<nat>, lasts: seq<nat>)
    requires |ks| == |vs| && n <= |ks|
  {
    && Indexed(Forms(ks), n, firsts, lasts) && |es| == |firsts|
    && forall i | 0 <= i < |es| :: firsts[i] < n && lasts[i] < n && es[i] == Entry(ks[firsts[i]], vs[lasts[i]])
  }

  /** One more key and value. */
  lemma PutCollects(ks: seq<Value>, vs: seq<Value>, n: nat, es: seq<Entry>, firsts: seq<nat>, lasts: seq<nat>)
      returns (fs: seq<nat>, ls: seq<nat>)
    requires |ks| == |vs| && n < |ks| && Zipped(ks, vs, n, es, firsts, lasts)
    ensures Zipped(ks, vs, n + 1, Put(es, ks[n], vs[n]), fs, ls)
  {
    var i := PutExactly(es, ks[n], vs[n]);
    if i < |es| {
      OldKey(Forms(ks), n, firsts, lasts, i);
      fs, ls := firsts, lasts[i := n];
    } else {
      NewKey(Forms(ks), n, firsts, lasts);
      fs, ls := firsts + [n], lasts + [n];
    }
  }

  /** Zipping in the keys and values from `n` on, once those before are in. */
  lemma {:induction false} ZipExactly(ks: seq<Value>, vs: seq<Value>, n: nat, es: seq<Entry>, firsts: seq<nat>, lasts: seq<nat>)
      returns (fs: seq<nat>, ls: seq<nat>)
    requires |ks| == |vs| && n <= |ks| && Zipped(ks, vs, n, es, firsts, lasts) && AllHashable(ks)
    ensures ZipInto(es, ks[n..], vs[n..]).Ok? && Zipped(ks, vs, |ks|, ZipInto(es, ks[n..], vs[n..]).value, fs, ls)
    decreases |ks| - n
  {
    fs, ls := firsts, lasts;
    if n < |ks| {
      ZipStep(es, ks, vs, n);
      fs, ls := PutCollects(ks, vs, n, es, firsts, lasts);
      fs, ls := ZipExactly(ks, vs, n + 1, Put(es, ks[n], vs[n]), fs, ls);
    }
  }

  lemma ZippedCollects(ks: seq<Value>, vs: seq<Value>, es: seq<Entry>, firsts: seq<nat>, lasts: seq<nat>)
    requires |ks| == |vs| && Zipped(ks, vs, |ks|, es, firsts, lasts)
    ensures Collected(ks, vs, es, firsts, lasts)
  {
    forall i | 0 <= i < |es| ensures StandsFor(ks, vs, es[i], firsts[i], lasts[i]) {
      SpansStands(ks, vs, firsts[i], lasts[i]);
    }
    forall k | 0 <= k < |ks| ensures HasKey(es, ks[k]) { FirstsHaveKey(ks, vs, es, firsts, lasts, k); }
  }

  lemma SpansStands(ks: seq<Value>, vs: seq<Value>, first: nat, last: nat)
    requires |ks| == |vs| && Spans(Forms(ks), |ks|, first, last)
    ensures StandsFor(ks, vs, Entry(ks[first], vs[last]), first, last)
  {
    forall j | 0 <= j < |ks| { CanonicalExactly(ks[j], ks[first]); }
    CanonicalExactly(ks[first], ks[last]);
  }

  lemma FirstsHaveKey(ks: seq<Value>, vs: seq<Value>, es: seq<Entry>, firsts: seq<nat>, lasts: seq<nat>, k: nat)
    requires |ks| == |vs| && Zipped(ks, vs, |ks|, es, firsts, lasts) && k < |ks|
    ensures HasKey(es, ks[k])
  {
    var cs := Forms(ks);
    assert InFirsts(cs, firsts, cs[k]);
    var i :| 0 <= i < |firsts| && firsts[i] < |cs| && cs[firsts[i]] == cs[k];
    CanonicalExactly(ks[firsts[i]], ks[k]);
    assert es[i].key == ks[firsts[i]];
  }

  lemma ZipStep(es: seq<Entry>, ks: seq<Value>, vs: seq<Value>, n: nat)
    requires n < |ks| == |vs| && Hashable(ks[n])
    ensures ZipInto(es, ks[n..], vs[n..]) == ZipInto(Put(es, ks[n], vs[n]), ks[n + 1..], vs[n + 1..])
  {
    assert ks[n..][0] == ks[n] && vs[n..][0] == vs[n] && ks[n..][1..] == ks[n + 1..] && vs[n..][1..] == vs[n + 1..];
  }

  lemma {:induction false} ZipEscapes(es: seq<Entry>, ks: seq<Value>, vs: seq<Value>)
    requires |ks| == |vs| && !AllHashable(ks)
    ensures ZipInto(es, ks, vs) == Err(Escaped)
    decreases |ks|
  {
    HeadAndTail(ks);
    if Hashable(ks[0]) { ZipEscapes(Put(es, ks[0], vs[0]), ks[1..], vs[1..]); }
  }

  function SomeLiterals(vs: seq<Value>): (os: seq<Option<Expr>>)
    ensures |os| == |vs| && forall i | 0 <= i < |os| :: os[i] == Some(Constant(vs[i]))
  {
    seq(|vs|, i requires 0 <= i < |vs| => Some(Constant(vs[i])))
  }

  lemma {:induction false} PresentLiterals(vs: seq<Value>)
    ensures Present(SomeLiterals(vs)) == Literals(vs)
  {
    if vs != [] {
      assert SomeLiterals(vs)[1..] == SomeLiterals(vs[1..]);
      PresentLiterals(vs[1..]);
    }
  }

  /** `{k: v, ...}`: one entry for equal keys, with the first one's spelling and place and the last one's value. */
  lemma DictExactly(m: Machine, ks: seq<Value>, vs: seq<Value>) returns (firsts: seq<nat>, lasts: seq<nat>)
    requires |ks| == |vs| && Room(m, 1 + |ks| + |vs|, 1)
    ensures (var r := Run(m, DictDisplay(SomeLiterals(ks), Literals(vs))).result;
             if !Allows(m.lim.items, |vs|) then r == Err(Limit(ItemLimit))
             else if !AllHashable(ks) then r == Err(Escaped)
             else r.Ok? && r.value.Dict? && Collected(ks, vs, r.value.entries, firsts, lasts))
  {
    firsts, lasts := [], [];
    DictRuns(m, ks, vs);
    if AllHashable(ks) {
      firsts, lasts := ZipExactly(ks, vs, 0, [], [], []);
      assert ks[0..] == ks && vs[0..] == vs;
      ZippedCollects(ks, vs, ZipInto([], ks, vs).value, firsts, lasts);
    } else {
      ZipEscapes([], ks, vs);
    }
  }

  lemma DictRuns(m: Machine, ks: seq<Value>, vs: seq<Value>)
    requires |ks| == |vs| && Room(m, 1 + |ks| + |vs|, 1)
    ensures Run(m, DictDisplay(SomeLiterals(ks), Literals(vs))).result == ApplyDict(m, ks, vs)
  {
    var e := DictDisplay(SomeLiterals(ks), Literals(vs));
    PresentLiterals(ks);
    assert Literals(ks) + Literals(vs) == Literals(ks + vs);
    StrictRuns(m, e, ks + vs);
    assert (ks + vs)[..|ks|] == ks && (ks + vs)[|ks|..] == vs;
  }

  /** `{key: elt for id in [v]}`: the value is evaluated before the key. */
  lemma DictCompExactly(m: Machine, key: Expr, elt: Expr, id: string, v: Value)
    requires Room(m, 2, 1) && Allows(m.lim.items, 1)
    ensures (var r := Run(m, DictComp(key, elt, [Once(id, v)])).result;
             var x := Eval(m, elt, map[id := v], 1, State(2, 1, 1));
             var k := Eval(m, key, map[id := v], 1, x.st).result;
             if x.result.Err? then r == x.result
             else if k.Err? then r == k
             else if !Hashable(k.value) then r == Err(Escaped)
             else r == Ok(Dict([Entry(k.value, x.result.value)])))
  {
    var e, none: Env, st2 := DictComp(key, elt, [Once(id, v)]), map[], State(2, 1, 1);
    var bound := none[id := v];
    DispatchCases(m, e, none, 1, State(1, 0, 0));
    OnePass(m, e, 0, id, v, none, Pairs([]), none, 1, State(1, 0, 0));
    assert none + bound == bound;
    assert Generate(m, e, 1, bound, Pairs([]), none, 1, st2) == Yield(m, e, bound, Pairs([]), none, 1, st2);
  }

  /******* The order of evaluation *******/

  /** `es` is what the construct evaluates, in turn: left to right, a dictionary's keys before its values, a call's keywords last. */
  ghost predicate InTurn(e: Expr, es: seq<Expr>) {
    match e
    case ListDisplay(xs, _) => es == xs
    case TupleDisplay(xs, _) => es == xs
    case SetDisplay(xs) => es == xs
    case JoinedStr(xs) => es == xs
    case DictDisplay(ks, vs) =>
      && |es| == |ks| + |vs|
      && (forall i | 0 <= i < |ks| :: ks[i] == Some(es[i]))
      && (forall i | 0 <= i < |vs| :: vs[i] == es[|ks| + i])
    case Binary(l, _, r) => es == [l, r]
    case Subscript(x, i, _) => es == [x, i]
    case Call(f, args, kws) =>
      && |es| == 1 + |args| + |kws| && es[0] == f
      && (forall i | 0 <= i < |args| :: args[i] == es[1 + i])
      && (forall i | 0 <= i < |kws| :: kws[i].value == es[1 + |args| + i])
    case _ => false
  }

  lemma {:induction false} AllPresent(ks: seq<Option<Expr>>, es: seq<Expr>)
    requires |es| >= |ks| && forall i | 0 <= i < |ks| :: ks[i] == Some(es[i])
    ensures Present(ks) == es[..|ks|]
  {
    if ks != [] {
      AllPresent(ks[1..], es[1..]);
      assert [es[0]] + es[1..][..|ks| - 1] == es[..|ks|];
    }
  }

  lemma InTurnExactly(e: Expr, es: seq<Expr>)
    requires InTurn(e, es)
    ensures Strict(e) && Precheck(e).None? && Operands(e) == es
  {
    match e
    case DictDisplay(ks, vs) =>
      AllPresent(ks, es);
      assert es[..|ks|] + vs == es;
    case Call(f, args, kws) =>
      assert [f] + args + KeywordValues(kws) == es;
    case _ =>
  }

  /** The first part that fails is the whole construct's failure; those after it are not evaluated. */
  lemma FirstFailureWins(m: Machine, e: Expr, es: seq<Expr>, vs: seq<Value>)
    requires InTurn(e, es) && |vs| < |es| && forall i | 0 <= i < |vs| :: es[i] == Constant(vs[i])
    requires Room(m, 1 + |vs|, 1)
    ensures (var x := Eval(m, es[|vs|], map[], 1, Spent(State(1, 0, 0), |vs|, 1)).result;
             x.Err? ==> Run(m, e).result == x)
  {
    InTurnExactly(e, es);
    DispatchCases(m, e, map[], 1, State(1, 0, 0));
    LiteralsFirst(m, e, es, vs, map[], 1, State(1, 0, 0));
  }
}
