/**
 The relational operators of the trace list's queries, on lists of rows: filter, stable
 sort, limit with offset, left join and group-by.
 */
module Relations {
  import opened Wrappers

  function Map<A, B>(f: A -> B, xs: seq<A>): (ys: seq<B>)
    ensures |ys| == |xs| && forall i | 0 <= i < |xs| :: ys[i] == f(xs[i])
  {
    seq(|xs|, i requires 0 <= i < |xs| => f(xs[i]))
  }

  function FlatMap<A, B>(f: A -> seq<B>, xs: seq<A>): seq<B> {
    if xs == [] then [] else f(xs[0]) + FlatMap(f, xs[1..])
  }

  function Filter<A>(p: A -> bool, xs: seq<A>): (ys: seq<A>)
    ensures forall y | y in ys :: y in xs && p(y)
    ensures |ys| <= |xs|
  {
    if xs == [] then [] else (if p(xs[0]) then [xs[0]] else []) + Filter(p, xs[1..])
  }

  /** `LIMIT limit OFFSET offset` */
  function Page<A>(xs: seq<A>, limit: nat, offset: nat): (ys: seq<A>)
    ensures |ys| <= limit
    ensures forall y | y in ys :: y in xs
  {
    var rest := if offset <= |xs| then xs[offset..] else [];
    if limit <= |rest| then rest[..limit] else rest
  }

  function Insert<A>(le: (A, A) -> bool, x: A, xs: seq<A>): seq<A> {
    if xs == [] || le(x, xs[0]) then [x] + xs else [xs[0]] + Insert(le, x, xs[1..])
  }

  /** Stable: of two rows that are level, the earlier stays first. */
  function Sort<A>(le: (A, A) -> bool, xs: seq<A>): seq<A> {
    if xs == [] then [] else Insert(le, xs[0], Sort(le, xs[1..]))
  }

  ghost predicate Sorted<A>(le: (A, A) -> bool, xs: seq<A>) {
    forall i, j | 0 <= i < j < |xs| :: le(xs[i], xs[j])
  }

  ghost predicate TotalPreorder<A(!new)>(le: (A, A) -> bool) {
    && (forall x, y :: le(x, y) || le(y, x))
    && (forall x, y, z :: le(x, y) && le(y, z) ==> le(x, z))
  }

  function Found<L, R>(on: (L, R) -> bool, l: L, rs: seq<R>): seq<R> {
    if rs == [] then [] else (if on(l, rs[0]) then [rs[0]] else []) + Found(on, l, rs[1..])
  }

  /** The rows of `rs` that match `l`, or one row without a partner. */
  function Partners<L, R>(on: (L, R) -> bool, l: L, rs: seq<R>): (ps: seq<Option<R>>)
    ensures |ps| >= 1
  {
    var found := Found(on, l, rs);
    if found == [] then [None] else seq(|found|, i requires 0 <= i < |found| => Some(found[i]))
  }

  function Pairs<L, R>(l: L, ps: seq<R>): (rows: seq<(L, R)>)
    ensures |rows| == |ps| && forall i | 0 <= i < |ps| :: rows[i] == (l, ps[i])
  {
    seq(|ps|, i requires 0 <= i < |ps| => (l, ps[i]))
  }

  function LeftJoin<L, R>(on: (L, R) -> bool, ls: seq<L>, rs: seq<R>): seq<(L, Option<R>)> {
    if ls == [] then [] else Pairs(ls[0], Partners(on, ls[0], rs)) + LeftJoin(on, ls[1..], rs)
  }

  /******* Joins *******/

  lemma {:induction false} FoundSame<L, M, R>(on: (L, R) -> bool, l: L, on': (M, R) -> bool, l': M, rs: seq<R>)
    requires forall r | r in rs :: on(l, r) == on'(l', r)
    ensures Found(on, l, rs) == Found(on', l', rs)
  {
    if rs != [] { FoundSame(on, l, on', l', rs[1..]); }
  }

  /** A filter that keeps every match changes no match. */
  lemma {:induction false} FoundFilter<L, R>(on: (L, R) -> bool, l: L, p: R -> bool, rs: seq<R>)
    requires forall r | r in rs && on(l, r) :: p(r)
    ensures Found(on, l, Filter(p, rs)) == Found(on, l, rs)
  {
    if rs != [] {
      FoundFilter(on, l, p, rs[1..]);
      if p(rs[0]) {
        assert Filter(p, rs)[1..] == Filter(p, rs[1..]);
      } else {
        assert Filter(p, rs) == Filter(p, rs[1..]);
      }
    }
  }

  lemma {:induction false} LeftJoinAppend<L, R>(on: (L, R) -> bool, a: seq<L>, b: seq<L>, rs: seq<R>)
    ensures LeftJoin(on, a + b, rs) == LeftJoin(on, a, rs) + LeftJoin(on, b, rs)
  {
    if a == [] {
      assert a + b == b;
    } else {
      assert (a + b)[1..] == a[1..] + b;
      LeftJoinAppend(on, a[1..], b, rs);
    }
  }

  lemma LeftJoinOne<L, R>(on: (L, R) -> bool, l: L, rs: seq<R>)
    ensures LeftJoin(on, [l], rs) == Pairs(l, Partners(on, l, rs))
  {
    assert LeftJoin(on, [l][1..], rs) == [];
  }

  lemma {:induction false} LeftJoinAtLeast<L, R>(on: (L, R) -> bool, ls: seq<L>, rs: seq<R>)
    ensures |LeftJoin(on, ls, rs)| >= |ls|
  {
    if ls != [] { LeftJoinAtLeast(on, ls[1..], rs); }
  }

  lemma {:induction false} LeftJoinSame<L, R>(on: (L, R) -> bool, ls: seq<L>, rs: seq<R>, rs': seq<R>)
    requires forall l | l in ls :: Partners(on, l, rs) == Partners(on, l, rs')
    ensures LeftJoin(on, ls, rs) == LeftJoin(on, ls, rs')
  {
    if ls != [] { LeftJoinSame(on, ls[1..], rs, rs'); }
  }

  lemma {:induction false} LeftJoinKeeps<L, R>(on: (L, R) -> bool, ls: seq<L>, rs: seq<R>)
    ensures forall y | y in LeftJoin(on, ls, rs) :: y.0 in ls
  {
    if ls != [] { LeftJoinKeeps(on, ls[1..], rs); }
  }

  lemma {:induction false} FoundMember<L, R>(on: (L, R) -> bool, l: L, rs: seq<R>, r: R)
    ensures r in Found(on, l, rs) <==> r in rs && on(l, r)
  {
    if rs != [] { FoundMember(on, l, rs[1..], r); }
  }

  /** A row of a left join pairs a left row with a partner, and with none only if there is none. */
  lemma {:induction false} LeftJoinMembers<L, R>(on: (L, R) -> bool, ls: seq<L>, rs: seq<R>, l: L, r: Option<R>)
    ensures (l, r) in LeftJoin(on, ls, rs)
       <==> l in ls && (if r.Some? then r.value in rs && on(l, r.value) else forall x | x in rs :: !on(l, x))
  {
    if ls != [] {
      LeftJoinMembers(on, ls[1..], rs, l, r);
      PartnersMembers(on, ls[0], rs, r);
      var here := Pairs(ls[0], Partners(on, ls[0], rs));
      if r in Partners(on, ls[0], rs) { var i :| 0 <= i < |here| && Partners(on, ls[0], rs)[i] == r; assert here[i] == (ls[0], r); }
      assert LeftJoin(on, ls, rs) == here + LeftJoin(on, ls[1..], rs);
    }
  }

  lemma PartnersMembers<L, R>(on: (L, R) -> bool, l: L, rs: seq<R>, r: Option<R>)
    ensures r in Partners(on, l, rs) <==> if r.Some? then r.value in rs && on(l, r.value) else forall x | x in rs :: !on(l, x)
  {
    var found, ps := Found(on, l, rs), Partners(on, l, rs);
    if r.Some? { FoundMember(on, l, rs, r.value); }
    if found == [] {
      assert ps[0] == None;
      forall x | x in rs ensures !on(l, x) { FoundMember(on, l, rs, x); }
    } else if r.Some? {
      if r in ps { var i :| 0 <= i < |ps| && ps[i] == r; assert found[i] in found; }
      if r.value in found { var i :| 0 <= i < |found| && found[i] == r.value; assert ps[i] == r; }
    } else {
      assert forall i | 0 <= i < |ps| :: ps[i].Some?;
      FoundMember(on, l, rs, found[0]);
    }
  }

  /******* Sorting *******/

  lemma {:induction false} InsertSorted<A(!new)>(le: (A, A) -> bool, x: A, xs: seq<A>)
    requires TotalPreorder(le) && Sorted(le, xs)
    ensures Sorted(le, Insert(le, x, xs)) && multiset(Insert(le, x, xs)) == multiset(xs) + multiset{x}
  {
    if xs == [] || le(x, xs[0]) {
    } else {
      InsertSorted(le, x, xs[1..]);
      var rest := Insert(le, x, xs[1..]);
      InsertMember(le, x, xs[1..]);
      assert forall i | 0 < i < |xs| :: le(xs[0], xs[i]);
      assert forall y | y in rest :: le(xs[0], y);
      assert xs == [xs[0]] + xs[1..];
    }
  }

  lemma {:induction false} InsertMember<A>(le: (A, A) -> bool, x: A, xs: seq<A>)
    ensures forall y | y in Insert(le, x, xs) :: y == x || y in xs
  {
    if xs != [] && !le(x, xs[0]) { InsertMember(le, x, xs[1..]); }
  }

  lemma {:induction false} SortSorts<A(!new)>(le: (A, A) -> bool, xs: seq<A>)
    requires TotalPreorder(le)
    ensures Sorted(le, Sort(le, xs)) && multiset(Sort(le, xs)) == multiset(xs)
  {
    if xs != [] {
      SortSorts(le, xs[1..]);
      InsertSorted(le, xs[0], Sort(le, xs[1..]));
      assert xs == [xs[0]] + xs[1..];
    }
  }

  lemma {:induction false} SortKeepsSorted<A>(le: (A, A) -> bool, xs: seq<A>)
    requires Sorted(le, xs)
    ensures Sort(le, xs) == xs
  {
    if xs != [] {
      SortKeepsSorted(le, xs[1..]);
      assert xs == [xs[0]] + xs[1..];
    }
  }

  lemma {:induction false} InsertMap<A, B>(f: A -> B, le: (A, A) -> bool, leB: (B, B) -> bool, x: A, xs: seq<A>)
    requires leB(f(x), f(x)) == le(x, x) && forall y | y in xs :: leB(f(x), f(y)) == le(x, y)
    ensures Insert(leB, f(x), Map(f, xs)) == Map(f, Insert(le, x, xs))
  {
    if xs != [] && !le(x, xs[0]) {
      InsertMap(f, le, leB, x, xs[1..]);
      assert Map(f, xs)[1..] == Map(f, xs[1..]);
    }
  }

  /** Sorting images that compare as their originals do. */
  lemma {:induction false} SortMap<A(!new), B>(f: A -> B, le: (A, A) -> bool, leB: (B, B) -> bool, xs: seq<A>)
    requires forall x, y :: leB(f(x), f(y)) == le(x, y)
    ensures Sort(leB, Map(f, xs)) == Map(f, Sort(le, xs))
  {
    if xs != [] {
      SortMap(f, le, leB, xs[1..]);
      assert Map(f, xs)[1..] == Map(f, xs[1..]);
      InsertMap(f, le, leB, xs[0], Sort(le, xs[1..]));
    }
  }

  /******* Filters, pages and flat maps *******/

  lemma PageMap<A, B>(f: A -> B, xs: seq<A>, limit: nat, offset: nat)
    ensures Page(Map(f, xs), limit, offset) == Map(f, Page(xs, limit, offset))
  {
  }

  lemma PageSorted<A>(le: (A, A) -> bool, xs: seq<A>, limit: nat, offset: nat)
    requires Sorted(le, xs)
    ensures Sorted(le, Page(xs, limit, offset))
  {
  }

  lemma {:induction false} FlatMapSame<A, B>(f: A -> seq<B>, g: A -> seq<B>, xs: seq<A>)
    requires forall x | x in xs :: f(x) == g(x)
    ensures FlatMap(f, xs) == FlatMap(g, xs)
  {
    if xs != [] { FlatMapSame(f, g, xs[1..]); }
  }

  /** A flat map whose every image is a single row is a map. */
  lemma {:induction false} FlatMapSingle<A, B>(f: A -> seq<B>, g: A -> B, xs: seq<A>)
    requires forall x | x in xs :: f(x) == [g(x)]
    ensures FlatMap(f, xs) == Map(g, xs)
  {
    if xs != [] {
      FlatMapSingle(f, g, xs[1..]);
      assert Map(g, xs)[1..] == Map(g, xs[1..]);
    }
  }

  lemma {:induction false} FilterSame<A>(p: A -> bool, q: A -> bool, xs: seq<A>)
    requires forall x | x in xs :: p(x) == q(x)
    ensures Filter(p, xs) == Filter(q, xs)
  {
    if xs != [] { FilterSame(p, q, xs[1..]); }
  }

  lemma {:induction false} FilterFlatMap<A, B>(f: A -> seq<B>, p: A -> bool, q: B -> bool, xs: seq<A>)
    requires forall x | x in xs :: forall y | y in f(x) :: q(y) == p(x)
    ensures Filter(q, FlatMap(f, xs)) == FlatMap(f, Filter(p, xs))
  {
    if xs != [] {
      FilterFlatMap(f, p, q, xs[1..]);
      FilterAppend(q, f(xs[0]), FlatMap(f, xs[1..]));
      FilterConstant(q, p(xs[0]), f(xs[0]));
      if p(xs[0]) {
        assert Filter(p, xs)[1..] == Filter(p, xs[1..]);
      } else {
        assert Filter(p, xs) == Filter(p, xs[1..]);
      }
    }
  }

  lemma {:induction false} FilterAppend<A>(p: A -> bool, xs: seq<A>, ys: seq<A>)
    ensures Filter(p, xs + ys) == Filter(p, xs) + Filter(p, ys)
  {
    if xs == [] {
      assert xs + ys == ys;
    } else {
      assert (xs + ys)[1..] == xs[1..] + ys;
      FilterAppend(p, xs[1..], ys);
    }
  }

  lemma {:induction false} FilterConstant<A>(p: A -> bool, b: bool, xs: seq<A>)
    requires forall x | x in xs :: p(x) == b
    ensures Filter(p, xs) == if b then xs else []
  {
    if xs != [] { FilterConstant(p, b, xs[1..]); }
  }

  lemma {:induction false} FilterMember<A>(p: A -> bool, xs: seq<A>, x: A)
    requires x in xs && p(x)
    ensures x in Filter(p, xs)
  {
    if xs[0] != x { FilterMember(p, xs[1..], x); }
  }
}
