/**
 When an evaluation raises which alert (realtime/alert_consumer.py, `_handle_eval`), in terms
 of the evaluations that arrived and of nothing else.
 */
module AlertRules {
  import opened Wrappers
  import opened RateAlerts

  /** The organization watches the metric. */
  predicate Counts(a: Arrival) {
    && a.settings.Some?
    && a.settings.value.enabled
    && (a.settings.value.metrics == {} || a.e.metric in a.settings.value.metrics)
  }

  /** Without a verdict of its own an evaluation fails below the organization's threshold. */
  predicate Fails(a: Arrival) {
    match a.e.passed
    case Some(passed) => !passed
    case None => a.settings.Some? && a.e.score < a.settings.value.scoreBelow
  }

  /** The evaluations of one organization and metric that were watched, in order. */
  function Relevant(arrivals: seq<Arrival>, org: string, metric: string): (r: seq<Arrival>)
    ensures forall i | 0 <= i < |r| :: Counts(r[i]) && r[i].org == org && r[i].e.metric == metric
  {
    if arrivals == [] then [] else
    var n := |arrivals| - 1;
    Relevant(arrivals[..n], org, metric)
    + if Counts(arrivals[n]) && arrivals[n].org == org && arrivals[n].e.metric == metric then [arrivals[n]] else []
  }

  /** Up to thirty evaluations of its key, the one at hand last. */
  function Recent(before: seq<Arrival>, a: Arrival): (r: seq<Arrival>)
    ensures 1 <= |r| <= 30
  {
    var all := Relevant(before, a.org, a.e.metric) + [a];
    if |all| <= 30 then all else all[|all| - 30..]
  }

  function FailingAt(recent: seq<Arrival>): set<int> {
    set i | 0 <= i < |recent| && Fails(recent[i])
  }

  function VerdictsOf(rs: seq<Arrival>): (bs: seq<bool>)
    ensures |bs| == |rs| && forall i | 0 <= i < |bs| :: bs[i] == Fails(rs[i])
  {
    seq(|rs|, i requires 0 <= i < |rs| => Fails(rs[i]))
  }

  /** The outcomes kept for a key are those of its watched evaluations. */
  lemma {:induction false} OutcomesAreRelevant(arrivals: seq<Arrival>, org: string, metric: string)
    ensures Verdicts(Of(OutcomesOf(arrivals), Key(org, metric))) == VerdictsOf(Relevant(arrivals, org, metric))
  {
    if arrivals != [] {
      var n := |arrivals| - 1;
      OutcomesAreRelevant(arrivals[..n], org, metric);
    }
  }

  function Trues(bs: seq<bool>): set<int> {
    set i | 0 <= i < |bs| && bs[i]
  }

  /** The failures are counted one by one. */
  lemma {:induction false} FailuresExactly(bs: seq<bool>)
    ensures Failures(bs) == |Trues(bs)|
  {
    if bs != [] {
      var n := |bs| - 1;
      FailuresExactly(bs[..n]);
      assert Trues(bs) == Trues(bs[..n]) + if bs[n] then {n} else {};
    } else {
      assert Trues(bs) == {};
    }
  }

  lemma SameVerdicts(os: seq<Outcome>, rs: seq<Arrival>, a: Arrival)
    requires Verdicts(os) == VerdictsOf(rs)
    ensures Verdicts(os + [Outcome(Fails(a), None)]) == VerdictsOf(rs + [a])
  {
    assert Verdicts(os + [Outcome(Fails(a), None)]) == Verdicts(os) + [Fails(a)];
    assert VerdictsOf(rs + [a]) == VerdictsOf(rs) + [Fails(a)];
  }

  /** The verdicts of the last thirty are the last thirty verdicts. */
  lemma LastThirty(all: seq<Outcome>, rs: seq<Arrival>)
    requires Verdicts(all) == VerdictsOf(rs)
    ensures Verdicts(Latest(all)) == VerdictsOf(if |rs| <= 30 then rs else rs[|rs| - 30..])
  {
    assert |all| == |Verdicts(all)| == |rs|;
    if |rs| > 30 {
      assert Verdicts(all[|all| - 30..]) == Verdicts(all)[|all| - 30..];
      assert VerdictsOf(rs[|rs| - 30..]) == VerdictsOf(rs)[|rs| - 30..];
    }
  }

  lemma WindowIsRecent(before: seq<Arrival>, a: Arrival)
    requires Counts(a)
    ensures Window(Of(OutcomesOf(before), KeyOf(a)), Fails(a)) == VerdictsOf(Recent(before, a))
  {
    var os, rs := Of(OutcomesOf(before), KeyOf(a)), Relevant(before, a.org, a.e.metric);
    OutcomesAreRelevant(before, a.org, a.e.metric);
    SameVerdicts(os, rs, a);
    LastThirty(os + [Outcome(Fails(a), None)], rs + [a]);
  }

  /** The share of the recent evaluations that failed, in percent. */
  function FailureRate(before: seq<Arrival>, a: Arrival): real {
    var recent := Recent(before, a);
    100.0 * |FailingAt(recent)| as real / |recent| as real
  }

  lemma RateIsFailureRate(before: seq<Arrival>, a: Arrival)
    ensures Rate(VerdictsOf(Recent(before, a))) == FailureRate(before, a)
  {
    var recent := Recent(before, a);
    FailuresExactly(VerdictsOf(recent));
    assert Trues(VerdictsOf(recent)) == FailingAt(recent);
  }

  /** It is ten minutes since the key's last alert on its rate, counted from the record of it, and since time 0. */
  ghost predicate Cool(before: seq<Arrival>, a: Arrival) {
    && a.now >= 600.0
    && forall i | 0 <= i < |before| && before[i].org == a.org && before[i].e.metric == a.e.metric && RaisesRate(before[..i], before[i]) ::
         a.now - before[i].later >= 600.0
  }

  /** The time of the key's last alert is that of an evaluation which raised it. */
  lemma {:induction false} LastAlertRaised(arrivals: seq<Arrival>, key: Key) returns (i: nat)
    ensures (var last := LastAlert(Of(OutcomesOf(arrivals), key));
             last == 0.0 || (i < |arrivals| && KeyOf(arrivals[i]) == key && RaisesRate(arrivals[..i], arrivals[i]) && arrivals[i].later == last))
  {
    i := 0;
    if arrivals != [] {
      var n := |arrivals| - 1;
      var before, a := arrivals[..n], arrivals[n];
      LastAlertNext(OutcomesOf(before), a, key);
      if key == KeyOf(a) && Alarms(Of(OutcomesOf(before), key), a) {
        RaisesExactly(before, a);
        i := n;
      } else {
        i := LastAlertRaised(before, key);
        if i < n { assert arrivals[..i] == before[..i] && arrivals[i] == before[i]; }
      }
    }
  }

  lemma CoolExactly(start: real, before: seq<Arrival>, a: Arrival)
    requires start >= 0.0 && Timely(start, before)
    ensures Cool(before, a) <==> a.now - LastAlert(Of(OutcomesOf(before), KeyOf(a))) >= 600.0
  {
    var last := LastAlert(Of(OutcomesOf(before), KeyOf(a)));
    var i := LastAlertRaised(before, KeyOf(a));
    if a.now - last >= 600.0 {
      forall j | 0 <= j < |before| && before[j].org == a.org && before[j].e.metric == a.e.metric && RaisesRate(before[..j], before[j])
        ensures a.now - before[j].later >= 600.0
      {
        LastAlertStays(start, before, j);
      }
    }
  }

  /**
   An alert for a low score comes exactly below the threshold, and one for the failure rate
   exactly if at least ten of the recent evaluations are there, too many of them failed and
   the key's last such alert is ten minutes ago.
   */
  lemma AlertsExactly(start: real, before: seq<Arrival>, a: Arrival)
    requires start >= 0.0 && Timely(start, before)
    ensures !Counts(a) ==> AlertsAfter(before, a) == []
    ensures Counts(a) ==>
      (var s, rate, samples := a.settings.value, FailureRate(before, a), |Recent(before, a)|;
       var low := if a.e.score < s.scoreBelow then [LowScore(a.e.score)] else [];
       var high := if samples >= 10 && rate > s.rateAbove && Cool(before, a) then [HighRate(rate, samples)] else [];
       AlertsAfter(before, a) == low + high)
  {
    if Counts(a) {
      CoolExactly(start, before, a);
      WindowIsRecent(before, a);
      RateIsFailureRate(before, a);
    }
  }
}
