/**
 Dictionary displays with `**` (shared/code_scorer.py:333-337): the interpreter evaluates
 the keys that are written and then all values, and zips the two, so the values slide past
 the places of the `**`. For which displays that is what Python does.
 */
module ScorerUnpacking {
  import opened Wrappers
  import opened ScorerSyntax
  import opened ScorerSemantics
  import opened ScorerReference
  import S = ScorerSoundness

  /** The places of a display, and which of them are `**`. */
  ghost predicate HasShape(e: Expr, shape: seq<bool>) {
    && e.DictDisplay? && |e.keys| == |e.values| == |shape|
    && forall i | 0 <= i < |shape| :: e.keys[i].None? <==> shape[i]
  }

  ghost predicate PlainEntries(e: Expr)
    requires e.DictDisplay?
  {
    && (forall i | 0 <= i < |e.keys| && e.keys[i].Some? :: Everywhere(Plain, ExprNode(e.keys[i].value)))
    && (forall i | 0 <= i < |e.values| :: Everywhere(Plain, ExprNode(e.values[i])))
  }

  /** Interpreter and reference return the same values. */
  ghost predicate SameValues(m: Machine, e: Expr) {
    forall v :: Run(m, e).result == Ok(v) <==> Meaning(m, e, map[]) == Ok(v)
  }

  /******* Without `**` *******/

  lemma PlainDisplay(e: Expr, shape: seq<bool>)
    requires HasShape(e, shape) && PlainEntries(e) && forall i | 0 <= i < |shape| :: !shape[i]
    ensures Everywhere(Plain, ExprNode(e))
  {
    var n := ExprNode(e);
    forall i | 0 <= i < |Children(n)| ensures Everywhere(Plain, Children(n)[i]) {
      if i < |Present(e.keys)| {
        var k := PresentMember(e.keys, i);
      } else {
        assert Children(n)[i] == ExprNode(e.values[i - |Present(e.keys)|]);
      }
    }
  }

  lemma PlainAgrees(m: Machine, e: Expr)
    requires S.Unbounded(m) && Everywhere(Plain, ExprNode(e))
    ensures SameValues(m, e)
  {
    S.CheckedFrom(m, S.Nothing, ExprNode(e));
    S.EvalFine(m, S.Nothing, e, map[], 0, State(0, 0, 0));
    EvalAgree(m, m, e, map[], 0, State(0, 0, 0));
  }

  /******* With `**` *******/

  /** `{0: 0}` */
  const ZERO := DictDisplay([Some(Constant(Int(0)))], [Constant(Int(0))])

  /** `ZERO` behind every `**`, and distinct positive numbers for the keys. */
  function Witness(shape: seq<bool>): (e: Expr)
    ensures e.DictDisplay? && |e.keys| == |e.values| == |shape|
    ensures forall i | 0 <= i < |shape| :: e.keys[i] == if shape[i] then None else Some(Constant(Int(i + 1)))
    ensures forall i | 0 <= i < |shape| :: e.values[i] == if shape[i] then ZERO else Constant(Int(0))
  {
    DictDisplay(seq(|shape|, i requires 0 <= i < |shape| => if shape[i] then None else Some(Constant(Int(i + 1)))),
                seq(|shape|, i requires 0 <= i < |shape| => if shape[i] then ZERO else Constant(Int(0))))
  }

  predicate Simple(x: Expr) {
    x.Constant? || x == ZERO
  }

  function ValueOf(x: Expr): Value
    requires Simple(x)
  {
    if x.Constant? then x.value else Dict([Entry(Int(0), Int(0))])
  }

  lemma SimplePlain(x: Expr)
    requires Simple(x)
    ensures Everywhere(Plain, ExprNode(x))
  {
    var zero := Constant(Int(0));
    assert Everywhere(Plain, ExprNode(zero)) by { assert Children(ExprNode(zero)) == []; }
    if x == ZERO {
      PlainDisplay(x, [false]);
    } else {
      assert Children(ExprNode(x)) == [];
    }
  }

  lemma ConstantMeans(m: Machine, x: Expr, local: Env)
    requires x.Constant?
    ensures Meaning(m, x, local) == Ok(x.value)
  {
    assert Operands(x) == [] && All(m, x, [], local) == Ok([]);
    assert StrictMeaning(m, x, local) == Ok(x.value);
  }

  lemma SimpleMeans(m: Machine, x: Expr, local: Env)
    requires Simple(x)
    ensures Meaning(m, x, local) == Ok(ValueOf(x))
  {
    if x.Constant? {
      ConstantMeans(m, x, local);
    } else {
      ConstantMeans(m, Constant(Int(0)), local);
      assert DictMeaning(m, x, 1, [Entry(Int(0), Int(0))], local) == Ok(Dict([Entry(Int(0), Int(0))]));
      assert DictMeaning(m, x, 0, [], local) == Ok(Dict([Entry(Int(0), Int(0))]));
      assert StrictMeaning(m, x, local) == Ok(Dict([Entry(Int(0), Int(0))]));
    }
  }

  lemma {:induction false} AllSimple(m: Machine, parent: Expr, es: seq<Expr>, local: Env)
    requires m.lim == UNLIMITED && forall i | 0 <= i < |es| :: es[i] < parent && Simple(es[i])
    ensures (var r := All(m, parent, es, local);
             r.Ok? && |r.value| == |es| && forall i | 0 <= i < |es| :: r.value[i] == ValueOf(es[i]))
    decreases |es|
  {
    if es != [] {
      SimpleMeans(m, es[0], local);
      AllSimple(m, parent, es[1..], local);
    }
  }

  /** The dictionary has the key 0. */
  ghost predicate HasZero(es: seq<Entry>) {
    exists i :: 0 <= i < |es| && Canonical(es[i].key) == Canonical(Int(0))
  }

  lemma {:induction false} PutZero(es: seq<Entry>, key: Value, value: Value)
    ensures HasZero(Put(es, key, value)) <==> HasZero(es) || Canonical(key) == Canonical(Int(0))
  {
    var after := Put(es, key, value);
    if es == [] {
      assert after[0] == Entry(key, value);
    } else if Canonical(es[0].key) == Canonical(key) {
      assert forall i | 0 <= i < |es| :: after[i].key == es[i].key;
    } else {
      PutZero(es[1..], key, value);
      ZeroFirst(es);
      ZeroFirst(after);
      assert after[1..] == Put(es[1..], key, value);
    }
  }

  lemma ZeroFirst(es: seq<Entry>)
    requires es != []
    ensures HasZero(es) <==> Canonical(es[0].key) == Canonical(Int(0)) || HasZero(es[1..])
  {
    if HasZero(es) {
      var i :| 0 <= i < |es| && Canonical(es[i].key) == Canonical(Int(0));
      if i > 0 { assert es[1..][i - 1] == es[i]; }
    }
    if HasZero(es[1..]) {
      var i :| 0 <= i < |es[1..]| && Canonical(es[1..][i].key) == Canonical(Int(0));
      assert es[i + 1] == es[1..][i];
    }
  }

  /** Keys that are positive numbers make no entry for 0. */
  lemma {:induction false} ZipHasNoZero(es: seq<Entry>, keys: seq<Value>, vals: seq<Value>)
    requires !HasZero(es) && forall i | 0 <= i < |keys| :: keys[i].Int? && keys[i].i > 0
    ensures ZipInto(es, keys, vals).Ok? && !HasZero(ZipInto(es, keys, vals).value)
    decreases |keys|
  {
    if keys != [] && vals != [] {
      PutZero(es, keys[0], vals[0]);
      ZipHasNoZero(Put(es, keys[0], vals[0]), keys[1..], vals[1..]);
    }
  }

  /** Whether a place is `**` or not, Python puts one entry. */
  lemma WitnessStep(m: Machine, shape: seq<bool>, i: nat, es: seq<Entry>)
    requires i < |shape|
    ensures DictMeaning(m, Witness(shape), i, es, map[])
         == DictMeaning(m, Witness(shape), i + 1, Put(es, Int(if shape[i] then 0 else i + 1), Int(0)), map[])
  {
    var e := Witness(shape);
    SimpleMeans(m, e.values[i], map[]);
    if shape[i] {
      var zero := [Entry(Int(0), Int(0))];
      assert Merge(es, zero) == Put(es, Int(0), Int(0)) by { assert zero[1..] == []; }
    } else {
      SimpleMeans(m, e.keys[i].value, map[]);
    }
  }

  /** Python's dictionary has the key 0 as soon as a `**` is reached. */
  lemma {:induction false} MergedHasZero(m: Machine, shape: seq<bool>, i: nat, es: seq<Entry>)
    requires i <= |shape|
    ensures (var r := DictMeaning(m, Witness(shape), i, es, map[]);
             r.Ok? && r.value.Dict? && (HasZero(r.value.entries) <==> HasZero(es) || exists j :: i <= j < |shape| && shape[j]))
    decreases |shape| - i
  {
    if i < |shape| {
      var key := Int(if shape[i] then 0 else i + 1);
      WitnessStep(m, shape, i, es);
      PutZero(es, key, Int(0));
      MergedHasZero(m, shape, i + 1, Put(es, key, Int(0)));
    } else {
      assert DictMeaning(m, Witness(shape), i, es, map[]) == Ok(Dict(es));
    }
  }

  lemma WitnessOperand(m: Machine, shape: seq<bool>, i: nat)
    requires m.lim == UNLIMITED && i < |Operands(Witness(shape))|
    ensures (var e := Witness(shape); var x := Operands(e)[i];
             && Simple(x) && Compared(m, m, x)
             && (i < |Present(e.keys)| ==> x.Constant? && x.value.Int? && x.value.i > 0))
  {
    var e := Witness(shape);
    var n := |Present(e.keys)|;
    if i < n { var k := PresentMember(e.keys, i); } else { assert Operands(e)[i] == e.values[i - n]; }
    SimplePlain(Operands(e)[i]);
  }

  /** The operands of the witness evaluate to their values. */
  lemma WitnessOperands(m: Machine, shape: seq<bool>, st: State)
    requires S.Unbounded(m)
    ensures (var e := Witness(shape); var o := EvalAll(m, e, Operands(e), [], map[], 1, st).result;
             && o.Ok? && |o.value| == |Operands(e)|
             && forall i | 0 <= i < |Present(e.keys)| :: o.value[i].Int? && o.value[i].i > 0)
  {
    var e := Witness(shape);
    var es := Operands(e);
    forall i | 0 <= i < |es|
      ensures Simple(es[i]) && Compared(m, m, es[i]) && (i < |Present(e.keys)| ==> es[i].Constant? && es[i].value.Int? && es[i].value.i > 0) {
      WitnessOperand(m, shape, i);
    }
    AllAgree(m, m, e, es, [], map[], 1, st);
    assert es[0..] == es;
    AllSimple(m, e, es, map[]);
    forall i | 0 <= i < |es| ensures S.Checked(m, S.Nothing, es[i]) { S.CheckedFrom(m, S.Nothing, ExprNode(es[i])); }
    S.EvalAllFine(m, S.Nothing, e, es, [], map[], 1, st);
    var vals := All(m, e, es, map[]).value;
    assert [] + vals == vals;
  }

  /** The interpreter's dictionary for the witness has no key 0. */
  lemma WitnessRuns(m: Machine, shape: seq<bool>)
    requires S.Unbounded(m)
    ensures (var r := Run(m, Witness(shape)).result; r.Ok? && r.value.Dict? && !HasZero(r.value.entries))
  {
    var e, st := Witness(shape), State(1, 0, 0);
    var n := |Present(e.keys)|;
    WitnessOperands(m, shape, st);
    var vals := EvalAll(m, e, Operands(e), [], map[], 1, st).result.value;
    ZipHasNoZero([], vals[..n], vals[n..]);
    assert ApplyDict(m, vals[..n], vals[n..]) == Ok(Dict(ZipInto([], vals[..n], vals[n..]).value));
    assert Apply(m, e, vals, map[]) == ApplyDict(m, vals[..n], vals[n..]);
    assert EvalStrict(m, e, map[], 1, st).result == Apply(m, e, vals, map[]);
    assert Dispatch(m, e, map[], 1, st) == EvalStrict(m, e, map[], 1, st);
    assert Run(m, e) == Dispatch(m, e, map[], 1, st);
  }

  /**
   Interpreter and Python build the same dictionary, whatever the entries of a display of
   this shape are, if and only if no place is a `**`.
   */
  lemma UnpackingSlidesExactly(m: Machine, shape: seq<bool>)
    requires S.Unbounded(m)
    ensures (forall e | HasShape(e, shape) && PlainEntries(e) :: SameValues(m, e))
       <==> (forall i | 0 <= i < |shape| :: !shape[i])
  {
    if forall i | 0 <= i < |shape| :: !shape[i] {
      forall e | HasShape(e, shape) && PlainEntries(e) ensures SameValues(m, e) {
        PlainDisplay(e, shape);
        PlainAgrees(m, e);
      }
    } else {
      WitnessIsPlain(shape);
      WitnessDiffers(m, shape);
    }
  }

  lemma WitnessIsPlain(shape: seq<bool>)
    ensures HasShape(Witness(shape), shape) && PlainEntries(Witness(shape))
  {
    var e := Witness(shape);
    forall i | 0 <= i < |shape|
      ensures Everywhere(Plain, ExprNode(e.values[i])) && (!shape[i] ==> Everywhere(Plain, ExprNode(e.keys[i].value))) {
      SimplePlain(e.values[i]);
      if !shape[i] { SimplePlain(e.keys[i].value); }
    }
  }

  lemma WitnessDiffers(m: Machine, shape: seq<bool>)
    requires S.Unbounded(m) && exists i :: 0 <= i < |shape| && shape[i]
    ensures !SameValues(m, Witness(shape))
  {
    var e := Witness(shape);
    WitnessRuns(m, shape);
    MergedHasZero(m, shape, 0, []);
    assert Meaning(m, e, map[]) == DictMeaning(m, e, 0, [], map[]);
    assert Run(m, e).result == Ok(Run(m, e).result.value);
  }
}
