/** The current estimator of `parse_status`: the device's own current reading
    is noisy, so the driver also derives a current from how fast the reported
    remaining capacity falls or rises, and publishes that derived value while
    it is fresh and close to what was published before, and otherwise the mean
    of the last five raw readings. `Step` is one poll; `Run` is many. */
module CurrentEstimator {

  /** Raw readings kept for the rolling mean. */
  const WindowSize: nat := 5
  /** Seconds without a capacity change after which the derived current is stale. */
  const StaleSeconds: int := 120
  /** Seconds after a capacity change during which the derived current is trusted
      whatever its distance from the published one. */
  const ConfirmSeconds: int := 5
  /** Amperes the derived current may differ from the published one. */
  const MaxDivergence: real := 3.0
  const SecondsPerHour: real := 3600.0

  /** The estimator fields of the driver object. */
  datatype State = State(
    lastRemainAh: real,           // Last_remianAh: 0 means "no baseline yet"
    lastRemainAhTime: real,       // Last_remianAh_time, seconds
    initiation: int,              // Last_remianAh_initiation: 0, 1 or 2
    basedOnRemaining: real,       // current_based_on_remaning, amperes
    lastFewCurrents: seq<real>,   // last_few_currents, oldest first
    current: real                 // the published current, self.current
  )

  predicate Valid(st: State) {
    0 <= st.initiation <= 2 && |st.lastFewCurrents| <= WindowSize
  }

  /** The class-level defaults every driver starts from. */
  const Initial: State := State(0.0, 0.0, 0, 0.0, [], 0.0)

  /** One poll either completes or stops at the division by the elapsed
      hours, which raises when no time has passed; by then the new capacity
      and its time are already stored. */
  datatype Outcome = Stepped(next: State) | ZeroDivision(partial: State)
  {
    function After(): State {
      match this
      case Stepped(s) => s
      case ZeroDivision(s) => s
    }
  }

  /** Python's `int()` of a float: truncation toward zero. */
  function Trunc(x: real): (r: int)
    ensures 0.0 <= x ==> 0 <= r && r as real <= x < r as real + 1.0
    ensures x < 0.0 ==> r <= 0 && r as real - 1.0 < x <= r as real
  {
    if x >= 0.0 then x.Floor else -((-x).Floor)
  }

  /** The last `WindowSize` elements of `s` (all of them when there are fewer). */
  function Recent(s: seq<real>): seq<real> {
    if |s| <= WindowSize then s else s[|s| - WindowSize..]
  }

  /** `append` followed by at most one `pop(0)`. */
  function Push(window: seq<real>, c: real): (r: seq<real>)
    ensures |r| >= 1 && r[|r| - 1] == c
    ensures |window| <= WindowSize ==> |r| <= WindowSize && r == Recent(window + [c])
  {
    var a := window + [c];
    if |a| > WindowSize then a[1..] else a
  }

  function Sum(w: seq<real>): real {
    if |w| == 0 then 0.0 else Sum(w[..|w| - 1]) + w[|w| - 1]
  }

  function Mean(w: seq<real>): real
    requires |w| > 0
  {
    Sum(w) / |w| as real
  }

  lemma {:induction false} SumBounds(w: seq<real>, lo: real, hi: real)
    requires forall i :: 0 <= i < |w| ==> lo <= w[i] <= hi
    ensures |w| as real * lo <= Sum(w) <= |w| as real * hi
  {
    if |w| > 0 {
      SumBounds(w[..|w| - 1], lo, hi);
    }
  }

  /** The rolling value lies between the smallest and largest reading it averages. */
  lemma MeanBounds(w: seq<real>, lo: real, hi: real)
    requires |w| > 0
    requires forall i :: 0 <= i < |w| ==> lo <= w[i] <= hi
    ensures lo <= Mean(w) <= hi
  {
    SumBounds(w, lo, hi);
    var n := |w| as real;
    assert Sum(w) / n >= (n * lo) / n;
    assert Sum(w) / n <= (n * hi) / n;
  }

  function Abs(x: real): real {
    if x < 0.0 then -x else x
  }

  /** Which value the poll publishes, given the truncated seconds since the
      last capacity change, the initiation flag after the update, the derived
      current, the previously published current and the rolling mean. */
  function Published(elapsed: int, initiation: int, based: real, previous: real, mean: real): (r: real)
    ensures r == based || r == mean
  {
    if elapsed > StaleSeconds then mean
    else if initiation != 2 then mean
    else if elapsed > ConfirmSeconds
         && (based + MaxDivergence < previous || based - MaxDivergence > previous) then mean
    else based
  }

  /** The derived current is published exactly when it is fresh, ready, and
      either recent or within `MaxDivergence` of the published current. */
  predicate TrustsDerived(elapsed: int, initiation: int, based: real, previous: real) {
    elapsed <= StaleSeconds && initiation == 2
    && (elapsed <= ConfirmSeconds || Abs(based - previous) <= MaxDivergence)
  }

  lemma PublishedChoice(elapsed: int, initiation: int, based: real, previous: real, mean: real)
    ensures Published(elapsed, initiation, based, previous, mean)
            == if TrustsDerived(elapsed, initiation, based, previous) then based else mean
  {
  }

  /** The baseline: with no stored capacity the reading becomes the stored
      one, timestamped now, and the published current is reset to 0. */
  function Rebase(st: State, remaining: real, now: real): State {
    if st.lastRemainAh == 0.0
    then st.(current := 0.0, lastRemainAh := remaining, lastRemainAhTime := now)
    else st
  }

  /** The division by the elapsed hours raises: a capacity change after the
      first one, at the very instant of the stored one. */
  predicate Raises(s0: State, remaining: real, now: real) {
    s0.lastRemainAh != remaining && s0.initiation != 0 && now == s0.lastRemainAhTime
  }

  /** Recording a capacity change: store the reading and its time, and either
      raise the flag from 0 to 1 or derive the current from the change. */
  function Record(s0: State, remaining: real, now: real): State
    requires !Raises(s0, remaining, now)
  {
    if s0.lastRemainAh == remaining then s0
    else if s0.initiation == 0 then
      s0.(lastRemainAh := remaining, lastRemainAhTime := now, initiation := 1)
    else
      var hours := (now - s0.lastRemainAhTime) / SecondsPerHour;
      s0.(lastRemainAh := remaining, lastRemainAhTime := now, initiation := 2,
          basedOnRemaining := (remaining - s0.lastRemainAh) / hours)
  }

  /** Pushing the raw reading into the window and choosing what to publish. */
  function Publish(s1: State, raw: real, elapsed: int): State {
    var window := Push(s1.lastFewCurrents, raw);
    s1.(lastFewCurrents := window,
        current := Published(elapsed, s1.initiation, s1.basedOnRemaining, s1.current, Mean(window)))
  }

  /** One poll of the estimator with capacity reading `remaining` (Ah), raw
      current `raw` (A) and wall-clock time `now` (s). The elapsed seconds are
      taken after the baseline is set and before the change is recorded. */
  function Step(st: State, remaining: real, raw: real, now: real): (r: Outcome)
    ensures r.After().lastRemainAh == remaining
    ensures r.Stepped? ==> r.next.lastRemainAhTime == now || r.next.lastRemainAhTime == st.lastRemainAhTime
  {
    var s0 := Rebase(st, remaining, now);
    if Raises(s0, remaining, now) then
      ZeroDivision(s0.(lastRemainAh := remaining, lastRemainAhTime := now))
    else
      Stepped(Publish(Record(s0, remaining, now), raw, Trunc(now - s0.lastRemainAhTime)))
  }

  /** A poll that does not raise is the three stages one after the other. */
  lemma StepStages(st: State, remaining: real, raw: real, now: real, elapsed: int)
    requires !Raises(Rebase(st, remaining, now), remaining, now)
    requires elapsed == Trunc(now - Rebase(st, remaining, now).lastRemainAhTime)
    ensures Step(st, remaining, raw, now)
            == Stepped(Publish(Record(Rebase(st, remaining, now), remaining, now), raw, elapsed))
  {
  }

  /** A capacity change is seen when a baseline exists and the reading differs from it. */
  predicate ChangeSeen(st: State, remaining: real) {
    st.lastRemainAh != 0.0 && st.lastRemainAh != remaining
  }

  /** The poll raises exactly when a second capacity change arrives at the
      same instant as the stored one; the stored capacity and time are then
      updated and nothing else. */
  lemma StepRaises(st: State, remaining: real, raw: real, now: real)
    ensures Step(st, remaining, raw, now).ZeroDivision?
            <==> ChangeSeen(st, remaining) && st.initiation != 0 && now == st.lastRemainAhTime
    ensures Step(st, remaining, raw, now).ZeroDivision? ==>
            Step(st, remaining, raw, now).partial == st.(lastRemainAh := remaining, lastRemainAhTime := now)
  {
  }

  /** A clock that has moved on since the stored time never makes the poll raise. */
  lemma StepTotalWhenTimeAdvances(st: State, remaining: real, raw: real, now: real)
    requires now > st.lastRemainAhTime
    ensures Step(st, remaining, raw, now).Stepped?
    ensures Step(st, remaining, raw, now).next.lastRemainAhTime <= now
  {
  }

  /** With no baseline, the reading and the time become the baseline, no
      change is seen in the same poll, and the flag and the derived current
      keep their values. */
  lemma StepBaseline(st: State, remaining: real, raw: real, now: real)
    requires st.lastRemainAh == 0.0
    ensures Step(st, remaining, raw, now).Stepped?
    ensures var n := Step(st, remaining, raw, now).next;
            && n.lastRemainAh == remaining && n.lastRemainAhTime == now
            && n.initiation == st.initiation && n.basedOnRemaining == st.basedOnRemaining
            && n.current == (if st.initiation == 2 then st.basedOnRemaining else Mean(n.lastFewCurrents))
  {
  }

  /** The initiation flag goes 0 -> 1 on the first capacity change, to 2 on
      every later one, stays put otherwise, and never decreases. */
  lemma StepInitiation(st: State, remaining: real, raw: real, now: real)
    requires Valid(st)
    requires Step(st, remaining, raw, now).Stepped?
    ensures var n := Step(st, remaining, raw, now).next;
            && Valid(n)
            && st.initiation <= n.initiation
            && (ChangeSeen(st, remaining) ==> n.initiation == (if st.initiation == 0 then 1 else 2))
            && (!ChangeSeen(st, remaining) ==> n.initiation == st.initiation)
  {
  }

  /** The derived current changes only on a capacity change seen after the
      first one; it is then the rate that, over the hours since the stored
      time, accounts for exactly the change in amp-hours. */
  lemma StepDerivedCurrent(st: State, remaining: real, raw: real, now: real)
    requires Step(st, remaining, raw, now).Stepped?
    ensures var n := Step(st, remaining, raw, now).next;
            && (n.basedOnRemaining != st.basedOnRemaining ==> ChangeSeen(st, remaining) && st.initiation != 0)
            && (ChangeSeen(st, remaining) && st.initiation != 0 ==>
                  n.basedOnRemaining * (now - st.lastRemainAhTime) == (remaining - st.lastRemainAh) * SecondsPerHour)
  {
    var n := Step(st, remaining, raw, now).next;
    if ChangeSeen(st, remaining) && st.initiation != 0 {
      var d := now - st.lastRemainAhTime;
      assert d != 0.0;
      var hours := d / SecondsPerHour;
      assert n.basedOnRemaining == (remaining - st.lastRemainAh) / hours;
      assert n.basedOnRemaining * hours == remaining - st.lastRemainAh;
      assert hours * SecondsPerHour == d;
    }
  }

  /** The raw-current window after a poll is the last (at most five) raw
      readings, the new one last. */
  lemma StepWindow(st: State, remaining: real, raw: real, now: real)
    requires Valid(st)
    requires Step(st, remaining, raw, now).Stepped?
    ensures var w := Step(st, remaining, raw, now).next.lastFewCurrents;
            && 1 <= |w| <= WindowSize
            && w == Recent(st.lastFewCurrents + [raw])
  {
  }

  /** The published current is the derived one exactly when it is trusted
      (fresh, ready, and recent or close to the previously published value),
      and the rolling mean otherwise. In particular a derived current older
      than `StaleSeconds` is never published. */
  lemma StepPublished(st: State, remaining: real, raw: real, now: real)
    requires Step(st, remaining, raw, now).Stepped?
    ensures var n := Step(st, remaining, raw, now).next;
            var s0 := Rebase(st, remaining, now);
            var elapsed := Trunc(now - s0.lastRemainAhTime);
            && (TrustsDerived(elapsed, n.initiation, n.basedOnRemaining, s0.current) ==> n.current == n.basedOnRemaining)
            && (!TrustsDerived(elapsed, n.initiation, n.basedOnRemaining, s0.current) ==> n.current == Mean(n.lastFewCurrents))
            && (elapsed > StaleSeconds ==> n.current == Mean(n.lastFewCurrents))
  {
    var n := Step(st, remaining, raw, now).next;
    var s0 := Rebase(st, remaining, now);
    PublishedChoice(Trunc(now - s0.lastRemainAhTime), n.initiation, n.basedOnRemaining, s0.current, Mean(n.lastFewCurrents));
  }

  /** One poll's inputs. */
  datatype Poll = Poll(remaining: real, raw: real, now: real)

  function Raws(polls: seq<Poll>): (r: seq<real>)
    ensures |r| == |polls|
  {
    if |polls| == 0 then [] else [polls[0].raw] + Raws(polls[1..])
  }

  /** Successive polls, stopping at the first that raises. */
  function Run(st: State, polls: seq<Poll>): Outcome
    decreases |polls|
  {
    if |polls| == 0 then Stepped(st)
    else
      match Step(st, polls[0].remaining, polls[0].raw, polls[0].now)
      case ZeroDivision(p) => ZeroDivision(p)
      case Stepped(n) => Run(n, polls[1..])
  }

  /** Over any run the fields stay within their ranges and the flag never
      decreases. */
  lemma {:induction false} RunValid(st: State, polls: seq<Poll>)
    requires Valid(st)
    requires Run(st, polls).Stepped?
    ensures Valid(Run(st, polls).next)
    ensures Run(st, polls).next.initiation >= st.initiation
    decreases |polls|
  {
    if |polls| > 0 {
      var n := RunFirst(st, polls);
      RunValid(n, polls[1..]);
    }
  }

  /** Over any run, the window holds the last (at most five) raw readings in
      arrival order. */
  lemma {:induction false} RunWindow(st: State, polls: seq<Poll>)
    requires Valid(st)
    requires Run(st, polls).Stepped?
    ensures Run(st, polls).next.lastFewCurrents == Recent(st.lastFewCurrents + Raws(polls))
    decreases |polls|
  {
    if |polls| > 0 {
      var n := RunFirst(st, polls);
      RunWindow(n, polls[1..]);
      assert Raws(polls) == [polls[0].raw] + Raws(polls[1..]);
      RecentAfterPush(st.lastFewCurrents, polls[0].raw, Raws(polls[1..]));
    } else {
      assert st.lastFewCurrents + Raws(polls) == st.lastFewCurrents;
    }
  }

  /** A run that completes completes its first poll and continues from
      there; that poll keeps the ranges, raises no flag backwards and pushes
      its raw reading into the window. */
  lemma RunFirst(st: State, polls: seq<Poll>) returns (n: State)
    requires Valid(st) && |polls| > 0 && Run(st, polls).Stepped?
    ensures Run(st, polls) == Run(n, polls[1..])
    ensures Valid(n) && n.initiation >= st.initiation
    ensures n.lastFewCurrents == Recent(st.lastFewCurrents + [polls[0].raw])
  {
    var p := polls[0];
    var o := Step(st, p.remaining, p.raw, p.now);
    assert o.Stepped?;
    n := o.next;
    StepInitiation(st, p.remaining, p.raw, p.now);
    StepWindow(st, p.remaining, p.raw, p.now);
  }

  /** Pushing one reading and then a batch leaves the same last five as
      pushing them all at once. */
  lemma RecentAfterPush(w: seq<real>, raw: real, rest: seq<real>)
    ensures Recent(Recent(w + [raw]) + rest) == Recent(w + ([raw] + rest))
  {
    assert w + ([raw] + rest) == (w + [raw]) + rest;
    RecentOfAppend(w + [raw], rest);
  }

  /** Only the last five matter: trimming the front first changes nothing. */
  lemma RecentOfAppend(s: seq<real>, t: seq<real>)
    ensures Recent(Recent(s) + t) == Recent(s + t)
  {
    if |s| > WindowSize {
      var u, v := Recent(s) + t, s + t;
      assert |u| >= WindowSize && |v| > WindowSize;
      var r, q := Recent(u), Recent(v);
      assert r == u[|u| - WindowSize..];
      assert q == v[|v| - WindowSize..];
      forall i | 0 <= i < WindowSize ensures r[i] == q[i] {
        var j := |u| - WindowSize + i;
        if j < WindowSize {
          assert u[j] == s[|s| - WindowSize + j] == v[|v| - WindowSize + i];
        } else {
          assert u[j] == t[j - WindowSize] == v[|v| - WindowSize + i];
        }
      }
    }
  }

  /** Clock readings that strictly increase from after the stored time. */
  predicate ClockAdvances(st: State, polls: seq<Poll>) {
    (|polls| > 0 ==> polls[0].now > st.lastRemainAhTime)
    && forall i :: 0 < i < |polls| ==> polls[i - 1].now < polls[i].now
  }

  /** With a clock that strictly advances, no poll of a run raises. */
  lemma {:induction false} RunNeverRaises(st: State, polls: seq<Poll>)
    requires ClockAdvances(st, polls)
    ensures Run(st, polls).Stepped?
    decreases |polls|
  {
    if |polls| > 0 {
      var p := polls[0];
      StepTotalWhenTimeAdvances(st, p.remaining, p.raw, p.now);
      var n := Step(st, p.remaining, p.raw, p.now).next;
      assert ClockAdvances(n, polls[1..]) by {
        forall i | 0 < i < |polls[1..]| ensures polls[1..][i - 1].now < polls[1..][i].now {
          assert polls[1..][i - 1] == polls[i] && polls[1..][i] == polls[i + 1];
        }
      }
      RunNeverRaises(n, polls[1..]);
    }
  }

  /** Until the flag reaches 2, every poll publishes the rolling mean. */
  lemma {:induction false} RunPublishesMeanUntilReady(st: State, polls: seq<Poll>)
    requires |polls| > 0 && Run(st, polls).Stepped?
    requires Run(st, polls).next.initiation != 2
    ensures |Run(st, polls).next.lastFewCurrents| > 0
    ensures Run(st, polls).next.current == Mean(Run(st, polls).next.lastFewCurrents)
    decreases |polls|
  {
    var p := polls[0];
    var n := Step(st, p.remaining, p.raw, p.now).next;
    if |polls| == 1 {
      StepPublished(st, p.remaining, p.raw, p.now);
    } else {
      RunPublishesMeanUntilReady(n, polls[1..]);
    }
  }

  /** While every reading equals the baseline (or no baseline exists yet),
      the flag keeps its value. */
  lemma {:induction false} RunSteadyCapacity(st: State, polls: seq<Poll>, c: real)
    requires st.lastRemainAh == 0.0 || st.lastRemainAh == c
    requires forall i :: 0 <= i < |polls| ==> polls[i].remaining == c
    requires Run(st, polls).Stepped?
    ensures Run(st, polls).next.initiation == st.initiation
    decreases |polls|
  {
    if |polls| > 0 {
      var p := polls[0];
      var n := Step(st, p.remaining, p.raw, p.now).next;
      RunSteadyCapacity(n, polls[1..], c);
    }
  }

  lemma RawsExample(polls: seq<Poll>)
    requires |polls| == 6 && forall i :: 0 <= i < 6 ==> polls[i].raw == (i + 1) as real
    ensures Raws(polls) == [1.0, 2.0, 3.0, 4.0, 5.0, 6.0]
    ensures Recent(Initial.lastFewCurrents + Raws(polls)) == [2.0, 3.0, 4.0, 5.0, 6.0]
  {
    assert Raws(polls[5..]) == [6.0];
    assert Raws(polls[4..]) == [5.0, 6.0] by { assert polls[4..][1..] == polls[5..]; }
    assert Raws(polls[3..]) == [4.0, 5.0, 6.0] by { assert polls[3..][1..] == polls[4..]; }
    assert Raws(polls[2..]) == [3.0, 4.0, 5.0, 6.0] by { assert polls[2..][1..] == polls[3..]; }
    assert Raws(polls[1..]) == [2.0, 3.0, 4.0, 5.0, 6.0] by { assert polls[1..][1..] == polls[2..]; }
    assert Initial.lastFewCurrents + Raws(polls) == [1.0, 2.0, 3.0, 4.0, 5.0, 6.0];
  }

  lemma MeanExample()
    ensures Mean([2.0, 3.0, 4.0, 5.0, 6.0]) == 4.0
  {
    assert Sum([2.0]) == 2.0 by { assert [2.0][..0] == []; }
    assert Sum([2.0, 3.0]) == 5.0 by { assert [2.0, 3.0][..1] == [2.0]; }
    assert Sum([2.0, 3.0, 4.0]) == 9.0 by { assert [2.0, 3.0, 4.0][..2] == [2.0, 3.0]; }
    assert Sum([2.0, 3.0, 4.0, 5.0]) == 14.0 by { assert [2.0, 3.0, 4.0, 5.0][..3] == [2.0, 3.0, 4.0]; }
    assert Sum([2.0, 3.0, 4.0, 5.0, 6.0]) == 20.0 by { assert [2.0, 3.0, 4.0, 5.0, 6.0][..4] == [2.0, 3.0, 4.0, 5.0]; }
  }

  /** Raw currents 1, 2, ..., 6 A fed one per poll, ten seconds apart, at a
      steady capacity of 50 Ah leave 2..6 in the window, and the last poll
      publishes their mean, 4 A. */
  lemma RollingMeanExample(polls: seq<Poll>)
    requires |polls| == 6
    requires forall i :: 0 <= i < 6 ==> polls[i] == Poll(50.0, (i + 1) as real, 10.0 * (i + 1) as real)
    requires ClockAdvances(Initial, polls)
    ensures Run(Initial, polls).Stepped?
    ensures Run(Initial, polls).next.lastFewCurrents == [2.0, 3.0, 4.0, 5.0, 6.0]
    ensures Run(Initial, polls).next.current == 4.0
  {
    RunNeverRaises(Initial, polls);
    RunWindow(Initial, polls);
    RawsExample(polls);
    RunSteadyCapacity(Initial, polls, 50.0);
    RunPublishesMeanUntilReady(Initial, polls);
    MeanExample();
  }

  /** A window of equal readings averages to that reading. */
  lemma MeanOfSteady(w: seq<real>, c: real)
    requires |w| > 0 && forall i :: 0 <= i < |w| ==> w[i] == c
    ensures Mean(w) == c
  {
    MeanBounds(w, c, c);
  }

  /** Capacity readings 50, 50, 49, 48 Ah at 0, 5, 10 and 70 s with a raw
      current of -1 A, poll one: with no baseline, the reading becomes the
      baseline and the rolling mean is published. */
  lemma CapacityScenarioFirst()
    ensures Step(Initial, 50.0, -1.0, 0.0) == Stepped(State(50.0, 0.0, 0, 0.0, [-1.0], -1.0))
  {
    assert Trunc(0.0) == 0;
    assert Push([], -1.0) == [-1.0];
    MeanOfSteady([-1.0], -1.0);
  }

  /** Poll two, at 5 s: no change, so the flag stays 0 and the mean is published. */
  lemma CapacityScenarioSecond()
    ensures Step(State(50.0, 0.0, 0, 0.0, [-1.0], -1.0), 50.0, -1.0, 5.0)
            == Stepped(State(50.0, 0.0, 0, 0.0, [-1.0, -1.0], -1.0))
  {
    assert Trunc(5.0) == 5;
    assert Push([-1.0], -1.0) == [-1.0, -1.0];
    MeanOfSteady([-1.0, -1.0], -1.0);
  }

  /** Poll three, at 10 s: the first change sets the flag to 1 and records
      49 Ah at 10 s; no current is derived from it yet. */
  lemma CapacityScenarioThird()
    ensures Step(State(50.0, 0.0, 0, 0.0, [-1.0, -1.0], -1.0), 49.0, -1.0, 10.0)
            == Stepped(State(49.0, 10.0, 1, 0.0, [-1.0, -1.0, -1.0], -1.0))
  {
    assert Trunc(10.0) == 10;
    assert Push([-1.0, -1.0], -1.0) == [-1.0, -1.0, -1.0];
    MeanOfSteady([-1.0, -1.0, -1.0], -1.0);
  }

  /** Poll four, at 70 s: the second change sets the flag to 2 and derives
      -60 A (1 Ah lost in a minute); as that is more than 3 A away from the
      -1 A published before, and 60 s have passed since the previous change,
      the rolling mean is published instead. */
  lemma CapacityScenarioFourth()
    ensures Step(State(49.0, 10.0, 1, 0.0, [-1.0, -1.0, -1.0], -1.0), 48.0, -1.0, 70.0)
            == Stepped(State(48.0, 70.0, 2, -60.0, [-1.0, -1.0, -1.0, -1.0], -1.0))
  {
    assert Trunc(60.0) == 60;
    assert Push([-1.0, -1.0, -1.0], -1.0) == [-1.0, -1.0, -1.0, -1.0];
    MeanOfSteady([-1.0, -1.0, -1.0, -1.0], -1.0);
    assert (48.0 - 49.0) / ((70.0 - 10.0) / SecondsPerHour) == -60.0;
  }
}
