/**
 What each number and each verdict of a judge's report says of the examples
 (shared/judge_agreement.py, `compare` and `_verdict`).
 */
module JudgeReport {
  import opened Wrappers
  import opened Agreement

  /******* The examples that count *******/

  predicate Complete(e: Example) {
    e.judge.Some? && e.human.Some?
  }

  /** `at` are the examples with both scores, in order, and `ps` their scores. */
  ghost predicate Picks(examples: seq<Example>, ps: seq<Pair>, at: seq<nat>) {
    && |at| == |ps|
    && (forall i, j | 0 <= i < j < |at| :: at[i] < at[j])
    && (forall i | 0 <= i < |at| :: at[i] < |examples| && examples[at[i]] == Example(Some(ps[i].judge), Some(ps[i].human)))
    && (forall k: nat | k < |examples| && Complete(examples[k]) :: k in at)
  }

  lemma {:induction false} UsableExactly(examples: seq<Example>) returns (at: seq<nat>)
    ensures Picks(examples, Usable(examples), at)
  {
    at := [];
    if examples != [] {
      var n := |examples| - 1;
      var before := UsableExactly(examples[..n]);
      at := if Complete(examples[n]) then before + [n] else before;
      PicksNext(examples, Usable(examples[..n]), before);
    }
  }

  lemma PicksNext(examples: seq<Example>, ps: seq<Pair>, at: seq<nat>)
    requires examples != [] && Picks(examples[..|examples| - 1], ps, at)
    ensures (var n := |examples| - 1; var e := examples[n];
             if Complete(e) then Picks(examples, ps + [Pair(e.judge.value, e.human.value)], at + [n]) else Picks(examples, ps, at))
  {
    var n := |examples| - 1;
    forall k: nat | k < |examples| && Complete(examples[k]) ensures k == n || k in at {
      if k < n { assert examples[..n][k] == examples[k]; }
    }
  }

  /******* Counts and sums *******/

  function AgreeingAt(ps: seq<Pair>, threshold: real): set<int> {
    set i | 0 <= i < |ps| && (ps[i].judge >= threshold <==> ps[i].human >= threshold)
  }

  function PositiveAt(ps: seq<Pair>): set<int> {
    set i | 0 <= i < |ps| && ps[i].human >= 0.5
  }

  lemma {:induction false} AgreeingExactly(ps: seq<Pair>, threshold: real)
    ensures Agreeing(ps, threshold) == |AgreeingAt(ps, threshold)|
  {
    if ps == [] {
      assert AgreeingAt(ps, threshold) == {};
    } else {
      var n := |ps| - 1;
      AgreeingExactly(ps[..n], threshold);
      assert AgreeingAt(ps, threshold) == AgreeingAt(ps[..n], threshold) + if SameSide(ps[n], threshold) then {n} else {};
    }
  }

  lemma {:induction false} PositivesExactly(ps: seq<Pair>)
    ensures Positives(ps, 0.5) == |PositiveAt(ps)|
  {
    if ps == [] {
      assert PositiveAt(ps) == {};
    } else {
      var n := |ps| - 1;
      PositivesExactly(ps[..n]);
      assert PositiveAt(ps) == PositiveAt(ps[..n]) + if ps[n].human >= 0.5 then {n} else {};
    }
  }

  /** The numbers from `i` on, from left to right. */
  function Total(xs: seq<real>, i: nat): real
    requires i <= |xs|
    decreases |xs| - i
  {
    if i == |xs| then 0.0 else xs[i] + Total(xs, i + 1)
  }

  lemma {:induction false} SumIsTotal(xs: seq<real>, k: nat)
    requires k <= |xs|
    ensures Sum(xs[..k]) + Total(xs, k) == Total(xs, 0)
  {
    if k > 0 {
      SumIsTotal(xs, k - 1);
      assert xs[..k][..k - 1] == xs[..k - 1];
    }
  }

  lemma MeanExactly(xs: seq<real>)
    requires xs != []
    ensures Mean(xs) == Total(xs, 0) / |xs| as real
  {
    SumIsTotal(xs, |xs|);
    assert xs[..|xs|] == xs;
  }

  function Gaps(ps: seq<Pair>): (xs: seq<real>)
    ensures |xs| == |ps| && forall i | 0 <= i < |ps| :: xs[i] == if ps[i].judge > ps[i].human then ps[i].judge - ps[i].human else ps[i].human - ps[i].judge
  {
    seq(|ps|, i requires 0 <= i < |ps| => if ps[i].judge > ps[i].human then ps[i].judge - ps[i].human else ps[i].human - ps[i].judge)
  }

  /**
   The report counts the examples with both scores; the agreement is the share of them with
   both scores on one side of the threshold, the error the mean distance, the bias the mean
   by which the judge is above the humans.
   */
  lemma NumbersExactly(examples: seq<Example>, threshold: real, root: real -> real) returns (ps: seq<Pair>, at: seq<nat>)
    requires IsRoot(root)
    ensures Picks(examples, ps, at)
    ensures (var r := Compare(examples, threshold, root);
             && r.compared == |ps|
             && (ps == [] ==> r.agreement == r.correlation == r.meanError == r.bias == None)
             && (ps != [] ==>
                   && r.agreement == Some(|AgreeingAt(ps, threshold)| as real / |ps| as real)
                   && r.correlation == Pearson(Judges(ps), Humans(ps), root)
                   && r.meanError == Some(Total(Gaps(ps), 0) / |ps| as real)
                   && r.bias == Some(Mean(Judges(ps)) - Mean(Humans(ps)))))
  {
    at := UsableExactly(examples);
    ps := Usable(examples);
    if ps != [] {
      AgreementIsShare(ps, threshold);
      MeanErrorIsTotal(ps);
      MeanErrorBounds(ps);
    }
  }

  lemma AgreementIsShare(ps: seq<Pair>, threshold: real)
    requires ps != []
    ensures Share(Agreeing(ps, threshold), |ps|) == |AgreeingAt(ps, threshold)| as real / |ps| as real
  {
    AgreeingExactly(ps, threshold);
  }

  lemma MeanErrorIsTotal(ps: seq<Pair>)
    requires ps != []
    ensures Mean(AbsErrors(ps)) == Total(Gaps(ps), 0) / |ps| as real
  {
    MeanExactly(AbsErrors(ps));
    assert AbsErrors(ps) == Gaps(ps);
  }

  /******* The verdict *******/

  /** How many labels are of the commoner kind, counted at one half. */
  function Commoner(ps: seq<Pair>): int {
    var good := |PositiveAt(ps)|;
    if good < |ps| - good then |ps| - good else good
  }

  /** The judge agrees about as often as always giving the commoner label would. */
  predicate Echoes(ps: seq<Pair>, agreement: real)
    requires ps != []
  {
    agreement >= Commoner(ps) as real / |ps| as real - 0.05
  }

  ghost predicate AllSame(xs: seq<real>) {
    forall i, j | 0 <= i < |xs| && 0 <= j < |xs| :: xs[i] == xs[j]
  }

  /** The judge moves with the humans. */
  predicate Tracks(correlation: Option<real>) {
    correlation.Some? && correlation.value >= 0.3
  }

  /** When each verdict is given. */
  ghost predicate Deserves(v: Verdict, ps: seq<Pair>, agreement: real, correlation: Option<real>, bias: real) {
    match v
    case NoData => ps == []
    case Insufficient => 1 <= |ps| <= 9
    case Undetermined => |ps| >= 10 && correlation.None? && !AllSame(Judges(ps))
    case MatchesBaseRate => |ps| >= 10 && !Tracks(correlation) && (correlation.Some? || AllSame(Judges(ps))) && Echoes(ps, agreement)
    case Weak => |ps| >= 10 && !Tracks(correlation) && (correlation.Some? || AllSame(Judges(ps))) && !Echoes(ps, agreement)
    case Lenient => |ps| >= 10 && Tracks(correlation) && bias > 0.15
    case Harsh => |ps| >= 10 && Tracks(correlation) && bias < -0.15
    case Good => |ps| >= 10 && Tracks(correlation) && -0.15 <= bias <= 0.15 && agreement >= 0.8
    case Mixed => |ps| >= 10 && Tracks(correlation) && -0.15 <= bias <= 0.15 && agreement < 0.8
  }

  lemma BaseRateExactly(ps: seq<Pair>)
    requires ps != []
    ensures BaseRate(ps) == Commoner(ps) as real / |ps| as real
  {
    PositivesExactly(ps);
  }

  lemma ConstantExactly(xs: seq<real>)
    ensures Constant(xs) <==> AllSame(xs)
  {
  }

  lemma VerdictOnExactly(ps: seq<Pair>, agreement: real, correlation: Option<real>, bias: real, v: Verdict)
    requires ps != [] && (Constant(Judges(ps)) ==> correlation == None)
    ensures VerdictOn(ps, agreement, correlation, bias) == v <==> Deserves(v, ps, agreement, correlation, bias)
  {
    BaseRateExactly(ps);
    ConstantExactly(Judges(ps));
  }

  /** Every report's verdict is the one that its numbers deserve, and no other. */
  lemma VerdictExactly(examples: seq<Example>, threshold: real, root: real -> real, v: Verdict)
    requires IsRoot(root)
    ensures (var r, ps := Compare(examples, threshold, root), Usable(examples);
             r.verdict == v <==>
             Deserves(v, ps, if ps == [] then 0.0 else r.agreement.value, r.correlation, if ps == [] then 0.0 else r.bias.value))
  {
    var ps := Usable(examples);
    if ps != [] {
      if Constant(Judges(ps)) { ConstantHasNoCorrelation(Judges(ps), Humans(ps), Judges(ps)[0], root); }
      var r := Compare(examples, threshold, root);
      VerdictOnExactly(ps, r.agreement.value, r.correlation, r.bias.value, v);
    }
  }
}
