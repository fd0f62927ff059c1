/**
 Alerts on evaluation results (realtime/alert_consumer.py, `_handle_eval`): one for each
 low score, and a debounced one for a high failure rate over the latest results.
 */
module RateAlerts {
  import opened Wrappers

  const RATE_WINDOW := 30
  const RATE_MIN_SAMPLES := 10
  const RATE_COOLDOWN := 600.0

  /** An organization and a metric. */
  datatype Key = Key(org: string, metric: string)

  /** `passed` is the evaluator's own verdict, if it gave one. */
  datatype Evaluation = Evaluation(metric: string, score: real, passed: Option<bool>)

  /** No watched metrics: all of them. */
  datatype Settings = Settings(enabled: bool, metrics: set<string>, scoreBelow: real, rateAbove: real)

  datatype Alert = LowScore(score: real) | HighRate(rate: real, samples: nat)

  /******* What the alerts mean *******/

  /** An evaluation that was watched: whether it failed, and when a failure-rate alert was due for it, if one was. */
  datatype Outcome = Outcome(failed: bool, alerted: Option<real>)

  predicate Watched(s: Option<Settings>, metric: string) {
    s.Some? && s.value.enabled && (s.value.metrics == {} || metric in s.value.metrics)
  }

  predicate Failed(s: Settings, e: Evaluation) {
    if e.passed.Some? then !e.passed.value else e.score < s.scoreBelow
  }

  function Verdicts(os: seq<Outcome>): (bs: seq<bool>)
    ensures |bs| == |os| && forall i | 0 <= i < |os| :: bs[i] == os[i].failed
  {
    seq(|os|, i requires 0 <= i < |os| => os[i].failed)
  }

  function Failures(bs: seq<bool>): (n: nat)
    ensures n <= |bs|
  {
    if bs == [] then 0 else Failures(bs[..|bs| - 1]) + (if bs[|bs| - 1] then 1 else 0)
  }

  function Latest(os: seq<Outcome>): (w: seq<Outcome>)
    ensures |w| == if |os| <= RATE_WINDOW then |os| else RATE_WINDOW
  {
    if |os| <= RATE_WINDOW then os else os[|os| - RATE_WINDOW..]
  }

  /** The verdicts of the latest outcomes, the one at hand included. */
  function Window(before: seq<Outcome>, failed: bool): (w: seq<bool>)
    ensures |w| == if |before| + 1 <= RATE_WINDOW then |before| + 1 else RATE_WINDOW
  {
    Verdicts(Latest(before + [Outcome(failed, None)]))
  }

  function Percent(part: nat, all: nat): real
    requires all > 0
  {
    100.0 * part as real / all as real
  }

  function Rate(w: seq<bool>): real
    requires w != []
  {
    Percent(Failures(w), |w|)
  }

  /** The time of the latest failure-rate alert, and 0 before the first. */
  function LastAlert(os: seq<Outcome>): real {
    if os == [] then 0.0 else
    var o := os[|os| - 1];
    if o.alerted.Some? then o.alerted.value else LastAlert(os[..|os| - 1])
  }

  /** Whether the latest outcome calls for an alert at the time `now`. */
  predicate Alarming(before: seq<Outcome>, failed: bool, above: real, now: real) {
    var w := Window(before, failed);
    |w| >= RATE_MIN_SAMPLES && Rate(w) > above && now - LastAlert(before) >= RATE_COOLDOWN
  }

  function RateAlert(before: seq<Outcome>, failed: bool, above: real, now: real): Option<Alert> {
    var w := Window(before, failed);
    if Alarming(before, failed, above, now) then Some(HighRate(Rate(w), |w|)) else None
  }

  /** The outcomes with the new one; an alert is recorded at the time `later`. */
  function Recorded(outcomes: map<Key, seq<Outcome>>, key: Key, failed: bool, above: real, now: real, later: real): map<Key, seq<Outcome>> {
    var before := Of(outcomes, key);
    outcomes[key := before + [Outcome(failed, if Alarming(before, failed, above, now) then Some(later) else None)]]
  }

  function Updated(outcomes: map<Key, seq<Outcome>>, org: string, e: Evaluation, s: Settings, now: real, later: real): map<Key, seq<Outcome>> {
    Recorded(outcomes, Key(org, e.metric), Failed(s, e), s.rateAbove, now, later)
  }

  function AlertsFor(outcomes: map<Key, seq<Outcome>>, org: string, e: Evaluation, s: Settings, now: real): seq<Alert> {
    (if e.score < s.scoreBelow then [LowScore(e.score)] else [])
    + ListOf(RateAlert(Of(outcomes, Key(org, e.metric)), Failed(s, e), s.rateAbove, now))
  }

  /** Every alert came on a high rate, after the cooldown. */
  ghost predicate Debounced(os: seq<Outcome>, clock: real) {
    && LastAlert(os) <= clock
    && forall i | 0 <= i < |os| && os[i].alerted.Some? ::
      i + 1 >= RATE_MIN_SAMPLES && os[i].alerted.value - LastAlert(os[..i]) >= RATE_COOLDOWN
  }

  /** Any two failure-rate alerts for one key are a cooldown apart. */
  lemma {:induction false} AlertsAreApart(os: seq<Outcome>, clock: real, i: nat, j: nat)
    requires Debounced(os, clock) && i < j < |os| && os[i].alerted.Some? && os[j].alerted.Some?
    ensures os[j].alerted.value - os[i].alerted.value >= 600.0
  {
    assert os[..j][i] == os[i];
    forall k | 0 <= k < j && os[..j][k].alerted.Some? ensures os[..j][k].alerted.value >= LastAlert(os[..j][..k]) {
      assert os[..j][..k] == os[..k] && os[..j][k] == os[k];
    }
    LastAlertAtLeast(os[..j], i);
  }

  /** The latest alert is later than any before it. */
  lemma {:induction false} LastAlertAtLeast(os: seq<Outcome>, i: nat)
    requires i < |os| && os[i].alerted.Some?
    requires forall k | 0 <= k < |os| && os[k].alerted.Some? :: os[k].alerted.value >= LastAlert(os[..k])
    ensures LastAlert(os) >= os[i].alerted.value
  {
    var before := os[..|os| - 1];
    if i < |before| {
      forall k | 0 <= k < |before| && before[k].alerted.Some? ensures before[k].alerted.value >= LastAlert(before[..k]) {
        assert before[..k] == os[..k] && os[k] == before[k];
      }
      LastAlertAtLeast(before, i);
    }
  }

  function AlertedAt(os: seq<Outcome>): set<int> {
    set i | 0 <= i < |os| && os[i].alerted.Some?
  }

  /** By any time there have been at most as many alerts for a key as cooldowns on the clock. */
  lemma {:induction false} AlertsAreFew(os: seq<Outcome>, clock: real)
    requires Debounced(os, clock)
    ensures |AlertedAt(os)| as real * 600.0 <= LastAlert(os) <= clock
  {
    if os != [] {
      var n := |os| - 1;
      var before := os[..n];
      assert os[n].alerted.Some? ==> os[n].alerted.value - LastAlert(before) >= RATE_COOLDOWN;
      forall i | 0 <= i < n && before[i].alerted.Some?
        ensures i + 1 >= RATE_MIN_SAMPLES && before[i].alerted.value - LastAlert(before[..i]) >= RATE_COOLDOWN {
        assert before[..i] == os[..i] && before[i] == os[i];
      }
      AlertsAreFew(before, LastAlert(before));
      assert AlertedAt(os) == AlertedAt(before) + if os[n].alerted.Some? then {n} else {};
    } else {
      assert AlertedAt(os) == {};
    }
  }

  /** The deque and the time that are kept for a key are those of its outcomes. */
  ghost predicate Follows(os: seq<Outcome>, hist: seq<bool>, last: real, clock: real) {
    Debounced(os, clock) && hist == Verdicts(Latest(os)) && last == LastAlert(os)
  }

  function Of<T>(m: map<Key, seq<T>>, key: Key): seq<T> {
    if key in m then m[key] else []
  }

  function ListOf(a: Option<Alert>): seq<Alert> {
    if a.Some? then [a.value] else []
  }

  function Last(m: map<Key, real>, key: Key): real {
    if key in m then m[key] else 0.0
  }

  ghost predicate Tracks(history: map<Key, seq<bool>>, lastAlert: map<Key, real>, outcomes: map<Key, seq<Outcome>>, clock: real) {
    forall key :: Follows(Of(outcomes, key), Of(history, key), Last(lastAlert, key), clock)
  }

  /** The window slides. */
  function Pushed(hist: seq<bool>, failed: bool): seq<bool> {
    (if |hist| == RATE_WINDOW then hist[1..] else hist) + [failed]
  }

  lemma TracksNext(history: map<Key, seq<bool>>, lastAlert: map<Key, real>, outcomes: map<Key, seq<Outcome>>, clock: real,
                   key: Key, failed: bool, alerted: Option<real>)
    requires Tracks(history, lastAlert, outcomes, clock)
    requires alerted.Some? ==> |Of(outcomes, key)| + 1 >= RATE_MIN_SAMPLES
                               && alerted.value - Last(lastAlert, key) >= RATE_COOLDOWN && alerted.value <= clock
    ensures (var l := if alerted.Some? then lastAlert[key := alerted.value] else lastAlert;
             Tracks(history[key := Pushed(Of(history, key), failed)], l,
                    outcomes[key := Of(outcomes, key) + [Outcome(failed, alerted)]], clock))
  {
    FollowsNext(Of(outcomes, key), Of(history, key), Last(lastAlert, key), failed, alerted, clock);
    var os, h := outcomes[key := Of(outcomes, key) + [Outcome(failed, alerted)]], history[key := Pushed(Of(history, key), failed)];
    var l := if alerted.Some? then lastAlert[key := alerted.value] else lastAlert;
    forall other | other != key ensures Follows(Of(os, other), Of(h, other), Last(l, other), clock) {
      assert Follows(Of(outcomes, other), Of(history, other), Last(lastAlert, other), clock);
    }
  }

  lemma TracksLater(history: map<Key, seq<bool>>, lastAlert: map<Key, real>, outcomes: map<Key, seq<Outcome>>, clock: real, later: real)
    requires Tracks(history, lastAlert, outcomes, clock) && clock <= later
    ensures Tracks(history, lastAlert, outcomes, later)
  {
    forall key ensures Follows(Of(outcomes, key), Of(history, key), Last(lastAlert, key), later) {
      assert Follows(Of(outcomes, key), Of(history, key), Last(lastAlert, key), clock);
    }
  }

  /** Whether the outcome that completes the window calls for an alert. */
  method Decide(hist: seq<bool>, last: real, above: real, now: real, ghost before: seq<Outcome>, ghost failed: bool)
    returns (alert: Option<Alert>)
    requires hist == Pushed(Verdicts(Latest(before)), failed) && last == LastAlert(before)
    ensures alert == RateAlert(before, failed, above, now)
    ensures alert.Some? <==> Alarming(before, failed, above, now)
    ensures alert.Some? ==> |before| + 1 >= RATE_MIN_SAMPLES && now - last >= RATE_COOLDOWN
  {
    alert := None;
    SameWindow(before, failed, None);
    if |hist| >= RATE_MIN_SAMPLES {
      var n := Count(hist);
      var rate := Percent(n, |hist|);
      if rate > above && now - last >= RATE_COOLDOWN {
        alert := Some(HighRate(rate, |hist|));
      }
    }
  }

  method Count(bs: seq<bool>) returns (n: nat)
    ensures n == Failures(bs)
  {
    n := 0;
    for i := 0 to |bs|
      invariant n == Failures(bs[..i])
    {
      assert bs[..i + 1][..i] == bs[..i];
      n := if bs[i] then n + 1 else n;
    }
    assert bs[..|bs|] == bs;
  }

  /******* The code *******/

  class EvalAlerts {
    /** `_eval_history`, each a deque of bounded length, and `_last_rate_alert` */
    var history: map<Key, seq<bool>>
    var lastAlert: map<Key, real>
    ghost var outcomes: map<Key, seq<Outcome>>
    ghost var clock: real

    ghost predicate Valid()
      reads this
    {
      0.0 <= clock && Tracks(history, lastAlert, outcomes, clock)
    }

    /** The clock never reads less than 0. */
    constructor (ghost now: real)
      requires now >= 0.0
      ensures Valid() && outcomes == map[] && clock == now
    {
      history, lastAlert, outcomes, clock := map[], map[], map[], now;
    }

    /**
     The clock is read twice when an alert is due: once for the cooldown, once for the
     record. An alert for a low score does not depend on the ones before it.
     */
    method HandleEval(org: string, e: Evaluation, settings: Option<Settings>, now: real, later: real) returns (alerts: seq<Alert>)
      requires Valid() && clock <= now <= later
      modifies this
      ensures Valid() && clock == later
      ensures !Watched(settings, e.metric) ==> alerts == [] && outcomes == old(outcomes)
      ensures Watched(settings, e.metric) ==> outcomes == Updated(old(outcomes), org, e, settings.value, now, later)
      ensures Watched(settings, e.metric) ==> alerts == AlertsFor(old(outcomes), org, e, settings.value, now)
    {
      alerts := [];
      TracksLater(history, lastAlert, outcomes, clock, later);
      clock := later;
      if settings.None? || !settings.value.enabled {
        return;
      }
      var s := settings.value;
      if s.metrics != {} && e.metric !in s.metrics {
        return;
      }
      alerts := HandleWatched(org, e, s, now, later);
    }

    method HandleWatched(org: string, e: Evaluation, s: Settings, now: real, later: real) returns (alerts: seq<Alert>)
      requires Valid() && clock == later && now <= later
      modifies `history, `lastAlert, `outcomes
      ensures Valid()
      ensures outcomes == Updated(old(outcomes), org, e, s, now, later)
      ensures alerts == AlertsFor(old(outcomes), org, e, s, now)
    {
      var failed := if e.passed.Some? then !e.passed.value else e.score < s.scoreBelow;
      alerts := [];
      if e.score < s.scoreBelow {
        alerts := alerts + [LowScore(e.score)];
      }
      var rate := Record(Key(org, e.metric), failed, s.rateAbove, now, later);
      alerts := alerts + ListOf(rate);
    }

    /** The rolling window and the cooldown of one key. */
    method Record(key: Key, failed: bool, above: real, now: real, later: real) returns (alert: Option<Alert>)
      requires Valid() && clock == later && now <= later
      modifies `history, `lastAlert, `outcomes
      ensures Valid()
      ensures outcomes == Recorded(old(outcomes), key, failed, above, now, later)
      ensures alert == RateAlert(Of(old(outcomes), key), failed, above, now)
    {
      ghost var before := Of(outcomes, key);
      alert := DecideFor(key, failed, above, now);
      ghost var alerted := if alert.Some? then Some(later) else None;
      TracksNext(history, lastAlert, outcomes, clock, key, failed, alerted);
      history := history[key := Pushed(Of(history, key), failed)];
      lastAlert := if alert.Some? then lastAlert[key := later] else lastAlert;
      outcomes := outcomes[key := before + [Outcome(failed, alerted)]];
    }

    method DecideFor(key: Key, failed: bool, above: real, now: real) returns (alert: Option<Alert>)
      requires Valid()
      ensures alert == RateAlert(Of(outcomes, key), failed, above, now)
      ensures alert.Some? <==> Alarming(Of(outcomes, key), failed, above, now)
      ensures alert.Some? ==> |Of(outcomes, key)| + 1 >= RATE_MIN_SAMPLES && now - Last(lastAlert, key) >= RATE_COOLDOWN
    {
      assert Follows(Of(outcomes, key), Of(history, key), Last(lastAlert, key), clock);
      alert := Decide(Pushed(Of(history, key), failed), Last(lastAlert, key), above, now, Of(outcomes, key), failed);
    }
  }

  /** The deque holds the verdicts of the latest outcomes. */
  lemma SameWindow(before: seq<Outcome>, failed: bool, alerted: Option<real>)
    ensures Pushed(Verdicts(Latest(before)), failed) == Verdicts(Latest(before + [Outcome(failed, alerted)]))
  {
  }

  lemma FollowsNext(before: seq<Outcome>, hist: seq<bool>, last: real, failed: bool, alerted: Option<real>, clock: real)
    requires Follows(before, hist, last, clock)
    requires alerted.Some? ==> |before| + 1 >= RATE_MIN_SAMPLES && alerted.value - last >= RATE_COOLDOWN && alerted.value <= clock
    ensures Follows(before + [Outcome(failed, alerted)], Pushed(hist, failed), if alerted.Some? then alerted.value else last, clock)
  {
    SameWindow(before, failed, alerted);
    DebouncedNext(before, Outcome(failed, alerted), clock);
  }

  lemma DebouncedNext(before: seq<Outcome>, o: Outcome, clock: real)
    requires Debounced(before, clock)
    requires o.alerted.Some? ==>
      |before| + 1 >= RATE_MIN_SAMPLES && o.alerted.value - LastAlert(before) >= RATE_COOLDOWN && o.alerted.value <= clock
    ensures Debounced(before + [o], clock)
    ensures LastAlert(before + [o]) == if o.alerted.Some? then o.alerted.value else LastAlert(before)
  {
    var os := before + [o];
    assert os[..|before|] == before;
    forall i | 0 <= i < |os| && os[i].alerted.Some?
      ensures i + 1 >= RATE_MIN_SAMPLES && os[i].alerted.value - LastAlert(os[..i]) >= RATE_COOLDOWN {
      if i < |before| { assert os[..i] == before[..i] && os[i] == before[i]; }
    }
  }

  /******* Whole runs *******/

  /** An evaluation with the settings of its organization, and the two readings of the clock. */
  datatype Arrival = Arrival(org: string, e: Evaluation, settings: Option<Settings>, now: real, later: real)

  /** The clock does not go back. */
  predicate Timely(start: real, arrivals: seq<Arrival>) {
    && (forall i | 0 <= i < |arrivals| :: start <= arrivals[i].now <= arrivals[i].later)
    && (forall i, j | 0 <= i < j < |arrivals| :: arrivals[i].later <= arrivals[j].now)
  }

  function OutcomesOf(arrivals: seq<Arrival>): map<Key, seq<Outcome>> {
    if arrivals == [] then map[] else
    var n := |arrivals| - 1;
    OutcomesAfter(OutcomesOf(arrivals[..n]), arrivals[n])
  }

  function OutcomesAfter(before: map<Key, seq<Outcome>>, a: Arrival): map<Key, seq<Outcome>> {
    if Watched(a.settings, a.e.metric) then Updated(before, a.org, a.e, a.settings.value, a.now, a.later) else before
  }

  /** The alerts that an evaluation calls for after the ones before it. */
  function AlertsAfter(before: seq<Arrival>, a: Arrival): seq<Alert> {
    if Watched(a.settings, a.e.metric) then AlertsFor(OutcomesOf(before), a.org, a.e, a.settings.value, a.now) else []
  }

  /** The evaluation raises an alert for its key's failure rate. */
  ghost predicate RaisesRate(before: seq<Arrival>, a: Arrival) {
    exists i :: 0 <= i < |AlertsAfter(before, a)| && AlertsAfter(before, a)[i].HighRate?
  }

  function KeyOf(a: Arrival): Key {
    Key(a.org, a.e.metric)
  }

  predicate Alarms(before: seq<Outcome>, a: Arrival) {
    Watched(a.settings, a.e.metric) && Alarming(before, Failed(a.settings.value, a.e), a.settings.value.rateAbove, a.now)
  }

  lemma RaisesExactly(before: seq<Arrival>, a: Arrival)
    ensures RaisesRate(before, a) <==> Alarms(Of(OutcomesOf(before), KeyOf(a)), a)
  {
    if Watched(a.settings, a.e.metric) {
      var low := if a.e.score < a.settings.value.scoreBelow then [LowScore(a.e.score)] else [];
      var rate := ListOf(RateAlert(Of(OutcomesOf(before), KeyOf(a)), Failed(a.settings.value, a.e), a.settings.value.rateAbove, a.now));
      assert AlertsAfter(before, a) == low + rate;
      if rate != [] { assert AlertsAfter(before, a)[|low|] == rate[0]; }
    }
  }

  lemma {:induction false} LastAlertStays(start: real, arrivals: seq<Arrival>, i: nat)
    requires Timely(start, arrivals) && i < |arrivals| && RaisesRate(arrivals[..i], arrivals[i])
    ensures LastAlert(Of(OutcomesOf(arrivals), KeyOf(arrivals[i]))) >= arrivals[i].later
  {
    var n := |arrivals| - 1;
    var before, a := arrivals[..n], arrivals[n];
    LastAlertNext(OutcomesOf(before), a, KeyOf(arrivals[i]));
    if i < n {
      assert before[..i] == arrivals[..i];
      LastAlertStays(start, before, i);
      assert arrivals[i].later <= a.now <= a.later;
    } else {
      RaisesExactly(before, a);
    }
  }

  /** The latest alert after one more evaluation. */
  lemma LastAlertNext(before: map<Key, seq<Outcome>>, a: Arrival, key: Key)
    ensures LastAlert(Of(OutcomesAfter(before, a), key))
         == if key == KeyOf(a) && Alarms(Of(before, key), a) then a.later else LastAlert(Of(before, key))
  {
    if Watched(a.settings, a.e.metric) && key == KeyOf(a) {
      var os, o := Of(before, key), Outcome(Failed(a.settings.value, a.e), if Alarms(Of(before, key), a) then Some(a.later) else None);
      assert (os + [o])[..|os|] == os;
    }
  }

  /** In any run two failure-rate alerts for one key, whatever the settings were, are a cooldown apart. */
  lemma AlertsOfARunAreApart(start: real, arrivals: seq<Arrival>, i: nat, j: nat)
    requires Timely(start, arrivals) && i < j < |arrivals| && KeyOf(arrivals[i]) == KeyOf(arrivals[j])
    requires RaisesRate(arrivals[..i], arrivals[i]) && RaisesRate(arrivals[..j], arrivals[j])
    ensures arrivals[j].now - arrivals[i].later >= 600.0
  {
    assert arrivals[..j][..i] == arrivals[..i];
    LastAlertStays(start, arrivals[..j], i);
    RaisesExactly(arrivals[..j], arrivals[j]);
  }

  lemma OutcomesNext(arrivals: seq<Arrival>, n: nat)
    requires n < |arrivals|
    ensures OutcomesOf(arrivals[..n + 1]) == OutcomesAfter(OutcomesOf(arrivals[..n]), arrivals[n])
  {
    assert arrivals[..n + 1][..n] == arrivals[..n];
  }

  method Receive(consumer: EvalAlerts, ghost before: seq<Arrival>, a: Arrival) returns (alerts: seq<Alert>)
    requires consumer.Valid() && consumer.clock <= a.now <= a.later && consumer.outcomes == OutcomesOf(before)
    modifies consumer
    ensures consumer.Valid() && consumer.clock == a.later && consumer.outcomes == OutcomesAfter(OutcomesOf(before), a)
    ensures alerts == AlertsAfter(before, a)
  {
    alerts := consumer.HandleEval(a.org, a.e, a.settings, a.now, a.later);
  }

  /** Any run of a new consumer raises exactly these alerts. */
  method Watch(start: real, arrivals: seq<Arrival>) returns (consumer: EvalAlerts, alerts: seq<seq<Alert>>)
    requires start >= 0.0 && Timely(start, arrivals)
    ensures fresh(consumer) && consumer.Valid() && |alerts| == |arrivals|
    ensures forall i | 0 <= i < |arrivals| :: alerts[i] == AlertsAfter(arrivals[..i], arrivals[i])
  {
    consumer := new EvalAlerts(start);
    alerts := [];
    for n := 0 to |arrivals|
      invariant fresh(consumer) && consumer.Valid() && |alerts| == n
      invariant consumer.clock == if n == 0 then start else arrivals[n - 1].later
      invariant consumer.outcomes == OutcomesOf(arrivals[..n])
      invariant forall i | 0 <= i < n :: alerts[i] == AlertsAfter(arrivals[..i], arrivals[i])
    {
      assert consumer.clock <= arrivals[n].now <= arrivals[n].later;
      OutcomesNext(arrivals, n);
      var raised := Receive(consumer, arrivals[..n], arrivals[n]);
      alerts := alerts + [raised];
    }
  }
}
