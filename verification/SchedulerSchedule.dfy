/** The round in which each module starts, and what it decides: whether the loop ends, for jobs of any kind; and what
    decides it where the chains of dependencies do not fit. */
module SchedulerSchedule {
  import opened Prelude
  import opened Scheduler
  import opened SchedulerSafety
  import opened SchedulerTermination
  import opened SchedulerSuccess

  // ----- the schedule of a configuration

  /** The rounds in which the job is seen running. */
  function Length(p: Plan): nat {
    if p.Starts? then |p.job.polls| else 0
  }

  function Max(a: nat, b: nat): nat {
    if a >= b then a else b
  }

  /** The round in which module m starts if nothing goes wrong before: the one after its dependencies have ended. */
  function StartRound(g: Graph, m: nat, depth: nat): nat
    requires ValidGraph(g) && m < |g.deps|
    decreases depth, 0
  {
    if depth == 0 then 0 else 1 + LatestEnd(g, m, 0, depth - 1)
  }

  /** The last round that one of the dependencies from the i-th on needs. */
  function LatestEnd(g: Graph, m: nat, i: nat, depth: nat): nat
    requires ValidGraph(g) && m < |g.deps| && i <= |g.deps[m]|
    decreases depth, |g.deps[m]| - i + 1
  {
    if i == |g.deps[m]| then 0
    else
      var d := g.deps[m][i];
      Max(StartRound(g, d, depth) + Length(g.plans[d]), LatestEnd(g, m, i + 1, depth))
  }

  /** The job shows a failure in round r or before, if it starts in round s: it raises or ends without success. */
  predicate FailsBy(p: Plan, s: nat, r: int) {
    && p.Starts?
    && ((exists j :: 0 <= j < |p.job.polls| && p.job.polls[j] && s + j <= r)
        || (!p.job.succeeds && s + |p.job.polls| <= r))
  }

  /** Some job shows a failure in round r or before. */
  ghost predicate SomeFailsBy(g: Graph, limit: nat, r: int)
    requires ValidGraph(g)
  {
    exists k :: 0 <= k < |g.deps| && FailsBy(g.plans[k], StartRound(g, k, limit), r)
  }

  lemma {:induction false} StartStable(g: Graph, m: nat, depth: nat, more: nat)
    requires ValidGraph(g) && m < |g.deps| && Fits(g, m, depth) && depth <= more
    ensures StartRound(g, m, depth) == StartRound(g, m, more)
    decreases depth, 0
  {
    EndStable(g, m, 0, depth - 1, more - 1);
  }

  lemma {:induction false} EndStable(g: Graph, m: nat, i: nat, depth: nat, more: nat)
    requires ValidGraph(g) && m < |g.deps| && i <= |g.deps[m]| && depth <= more
    requires forall j :: 0 <= j < |g.deps[m]| ==> Fits(g, g.deps[m][j], depth)
    ensures LatestEnd(g, m, i, depth) == LatestEnd(g, m, i, more)
    decreases depth, |g.deps[m]| - i + 1
  {
    if i < |g.deps[m]| {
      StartStable(g, g.deps[m][i], depth, more);
      EndStable(g, m, i + 1, depth, more);
    }
  }

  lemma {:induction false} EndIff(g: Graph, m: nat, i: nat, depth: nat, r: nat)
    requires ValidGraph(g) && m < |g.deps| && i <= |g.deps[m]|
    ensures LatestEnd(g, m, i, depth) <= r <==>
            forall j :: i <= j < |g.deps[m]| ==>
              StartRound(g, g.deps[m][j], depth) + Length(g.plans[g.deps[m][j]]) <= r
    decreases |g.deps[m]| - i
  {
    if i < |g.deps[m]| {
      EndIff(g, m, i + 1, depth, r);
    }
  }

  /** All dependencies have ended by round r. */
  ghost predicate EndedBy(g: Graph, limit: nat, m: nat, r: nat)
    requires ValidGraph(g) && m < |g.deps|
  {
    forall j :: 0 <= j < |g.deps[m]| ==>
      StartRound(g, g.deps[m][j], limit) + Length(g.plans[g.deps[m][j]]) <= r
  }

  /** A module starts in the round after its dependencies have ended. */
  lemma ReadyIff(g: Graph, limit: nat, m: nat, r: nat)
    requires ValidGraph(g) && AllFit(g, limit) && m < |g.deps|
    ensures StartRound(g, m, limit) >= 1
    ensures EndedBy(g, limit, m, r) <==> StartRound(g, m, limit) <= r + 1
  {
    assert Fits(g, m, limit);
    forall j | 0 <= j < |g.deps[m]|
      ensures StartRound(g, g.deps[m][j], limit - 1) == StartRound(g, g.deps[m][j], limit)
    {
      StartStable(g, g.deps[m][j], limit - 1, limit);
    }
    EndIff(g, m, 0, limit - 1, r);
  }

  // ----- a run on schedule

  /** A module whose job starts in round s, after round r, if it has shown no failure. */
  ghost predicate Placed(p: Plan, s: nat, x: Module, r: nat) {
    if r < s then x == NEW
    else
      && p.Starts? && !FailsBy(p, s, r)
      && var polls := p.job.polls;
         if r < s + |polls|
         then x == Module(false, true, true, Some(Job(polls[r - s + 1..], p.job.succeeds)))
         else x == Module(true, false, true, Some(Job([], p.job.succeeds)))
  }

  ghost predicate OnSchedule(g: Graph, limit: nat, l: Loop, r: nat) {
    && Inv(g, l) && !l.error
    && forall k :: 0 <= k < |l.s| ==> Placed(g.plans[k], StartRound(g, k, limit), l.s[k], r)
  }

  /** The same module between the start phase and the check phase of round r. */
  ghost predicate Started1(p: Plan, s: nat, x: Module, r: nat)
    requires r >= 1
  {
    if r == s then p.Starts? && x == Module(false, true, true, Some(p.job)) else Placed(p, s, x, r - 1)
  }

  /** What a check finds. */
  lemma CheckPlaces(p: Plan, s: nat, x: Module, r: nat)
    requires r >= 1 && s >= 1 && Started1(p, s, x, r)
    ensures FailsBy(p, s, r) <==> Check(x).1 || !Check(x).0.success
    ensures !FailsBy(p, s, r) ==> Placed(p, s, Check(x).0, r)
    ensures Check(x).0.upgrading ==> Check(x).0.job.Some?
  {
    if r >= s {
      var polls := p.job.polls;
      if r < s + |polls| {
        var i := r - s;
        assert x.job.value.polls == polls[i..];
        assert polls[i..][0] == polls[i] && polls[i..][1..] == polls[i + 1..];
        assert polls[i] ==> s + i <= r;
      }
    }
  }

  /** A start phase without an exception starts every module that is ready. */
  lemma {:induction false} ReadyStarts(g: Graph, s: State, m: nat, limit: nat, k: nat)
    requires Fit(g, s) && m <= k < |s| && AllDone(g, s, k) && !StartFrom(g, s, m, limit).1
    ensures Started(StartFrom(g, s, m, limit).0[k])
    decreases k - m
  {
    var s1 := UpgradeModule(g, s, m, limit).0;
    UpgradeGrows(g, s, m, limit);
    SameDone(g, s, s1);
    StartGrows(g, s1, m + 1, limit);
    if m == k {
      ReadyModule(g, s, k, limit);
    } else {
      ReadyStarts(g, s1, m + 1, limit, k);
    }
  }

  lemma ReadyModule(g: Graph, s: State, m: nat, depth: nat)
    requires Fit(g, s) && m < |s| && AllDone(g, s, m) && !UpgradeModule(g, s, m, depth).1
    ensures Started(UpgradeModule(g, s, m, depth).0[m])
  {
    if !Started(s[m]) {
      var s1 := Walk(g, s, m, 0, depth - 1).0;
      WalkGrows(g, s, m, 0, depth - 1);
      SameDone(g, s, s1);
    }
  }

  /** A check phase that raises has found a module whose check raises. */
  lemma {:induction false} CheckRaises(s: State, m: nat) returns (k: nat)
    requires m <= |s| && CheckFrom(s, m).1
    ensures m <= k < |s| && Check(s[k]).1
    decreases |s| - m
  {
    if Check(s[m]).1 {
      k := m;
    } else {
      k := CheckRaises(s[m := Check(s[m]).0], m + 1);
    }
  }

  // ----- one round

  lemma PlacedDone(p: Plan, s: nat, x: Module, r: nat)
    requires Placed(p, s, x, r)
    ensures x.done <==> s + Length(p) <= r
    ensures Started(x) <==> s <= r
    ensures x.upgrading ==> x.job.Some?
  {
  }

  /** On schedule, a waiting module is ready exactly if its round is the next one. */
  lemma ReadyNext(g: Graph, limit: nat, l: Loop, r: nat, k: nat)
    requires OnSchedule(g, limit, l, r) && AllFit(g, limit) && k < |l.s| && !Started(l.s[k])
    ensures AllDone(g, l.s, k) <==> StartRound(g, k, limit) == r + 1
  {
    ReadyIff(g, limit, k, r);
    PlacedDone(g.plans[k], StartRound(g, k, limit), l.s[k], r);
    forall j | 0 <= j < |g.deps[k]|
      ensures l.s[g.deps[k][j]].done
              <==> StartRound(g, g.deps[k][j], limit) + Length(g.plans[g.deps[k][j]]) <= r
    {
      var d := g.deps[k][j];
      PlacedDone(g.plans[d], StartRound(g, d, limit), l.s[d], r);
    }
  }

  /** Some job that starts in round r cannot be constructed. */
  ghost predicate RaisesIn(g: Graph, limit: nat, r: nat)
    requires ValidGraph(g)
  {
    exists k :: 0 <= k < |g.deps| && g.plans[k].Raises? && StartRound(g, k, limit) == r
  }

  /** A start phase that gets stuck does so in a round in which a job cannot be constructed. */
  lemma StuckStart(g: Graph, limit: nat, l: Loop, r: nat, s1: State)
    requires OnSchedule(g, limit, l, r) && AllFit(g, limit) && Grown(g, l.s, s1) && Stuck(s1)
    ensures RaisesIn(g, limit, r + 1)
  {
    var k :| 0 <= k < |s1| && s1[k].upgrading && s1[k].job.None?;
    PlacedDone(g.plans[k], StartRound(g, k, limit), l.s[k], r);
    ReadyNext(g, limit, l, r, k);
  }

  /** A start phase that does not get stuck starts the modules of its round, all of which can be constructed. */
  lemma StartPlaces(g: Graph, limit: nat, l: Loop, r: nat, k: nat)
    requires OnSchedule(g, limit, l, r) && AllFit(g, limit) && k < |l.s|
    requires !StartFrom(g, l.s, 0, limit).1 && !Stuck(StartFrom(g, l.s, 0, limit).0)
    ensures Started1(g.plans[k], StartRound(g, k, limit), StartFrom(g, l.s, 0, limit).0[k], r + 1)
  {
    var s1 := StartFrom(g, l.s, 0, limit).0;
    StartGrows(g, l.s, 0, limit);
    PlacedDone(g.plans[k], StartRound(g, k, limit), l.s[k], r);
    if !Started(l.s[k]) {
      ReadyNext(g, limit, l, r, k);
      if AllDone(g, l.s, k) {
        ReadyStarts(g, l.s, 0, limit, k);
      }
    }
  }

  lemma CheckUnsticks(g: Graph, limit: nat, s1: State, r: nat)
    requires ValidGraph(g) && |s1| == |g.deps| && AllFit(g, limit)
    requires forall k :: 0 <= k < |s1| ==> Started1(g.plans[k], StartRound(g, k, limit), s1[k], r + 1)
    ensures !Stuck(CheckFrom(s1, 0).0)
  {
    var s2 := CheckFrom(s1, 0).0;
    CheckFromChecks(s1, 0);
    forall k | 0 <= k < |s2| && s2[k].upgrading ensures s2[k].job.Some? {
      ReadyIff(g, limit, k, r);
      CheckPlaces(g.plans[k], StartRound(g, k, limit), s1[k], r + 1);
    }
  }

  /** The check phase of round r + 1 records an error exactly if a job shows a failure by then; otherwise the run
      stays on schedule. */
  lemma CheckDecides(g: Graph, limit: nat, s1: State, r: nat)
    requires ValidGraph(g) && |s1| == |g.deps| && AllFit(g, limit)
    requires forall k :: 0 <= k < |s1| ==> Started1(g.plans[k], StartRound(g, k, limit), s1[k], r + 1)
    ensures var (s2, raised) := CheckFrom(s1, 0);
            && (raised || !AllSucceed(s2) ==> SomeFailsBy(g, limit, r + 1))
            && (!raised && AllSucceed(s2) ==>
                  forall k :: 0 <= k < |s2| ==> Placed(g.plans[k], StartRound(g, k, limit), s2[k], r + 1))
  {
    var (s2, raised) := CheckFrom(s1, 0);
    CheckFromChecks(s1, 0);
    forall k | 0 <= k < |s1|
      ensures var p, s := g.plans[k], StartRound(g, k, limit);
              && (FailsBy(p, s, r + 1) <==> Check(s1[k]).1 || !Check(s1[k]).0.success)
              && (!FailsBy(p, s, r + 1) ==> Placed(p, s, Check(s1[k]).0, r + 1))
    {
      ReadyIff(g, limit, k, r);
      CheckPlaces(g.plans[k], StartRound(g, k, limit), s1[k], r + 1);
    }
    if raised {
      var k := CheckRaises(s1, 0);
      assert FailsBy(g.plans[k], StartRound(g, k, limit), r + 1);
    }
  }

  /** The next round of a run on schedule stays on schedule, gets stuck because a job that starts in it cannot be
      constructed, or records an error because a job has shown a failure, while none of those that start cannot be
      constructed. */
  lemma NextRound(g: Graph, limit: nat, l: Loop, r: nat)
    requires OnSchedule(g, limit, l, r) && AllFit(g, limit) && !l.exited
    ensures var l1 := Round(g, limit, l);
            || OnSchedule(g, limit, l1, r + 1)
            || (Stuck(l1.s) && RaisesIn(g, limit, r + 1))
            || (l1.error && !Stuck(l1.s) && SomeFailsBy(g, limit, r + 1) && !RaisesIn(g, limit, r + 1))
  {
    var (s1, raised) := StartFrom(g, l.s, 0, limit);
    StartGrows(g, l.s, 0, limit);
    RoundKeeps(g, limit, l);
    if raised {
      StartRaiseSticks(g, l.s, 0, limit);
      StuckStart(g, limit, l, r, s1);
    } else if Stuck(s1) {
      StuckStart(g, limit, l, r, s1);
      CheckFromChecks(s1, 0);
      StaysStuck(s1, CheckFrom(s1, 0).0);
    } else {
      forall k | 0 <= k < |s1| ensures Started1(g.plans[k], StartRound(g, k, limit), s1[k], r + 1) {
        StartPlaces(g, limit, l, r, k);
      }
      CheckDecides(g, limit, s1, r);
      CheckUnsticks(g, limit, s1, r);
      NoneRaises(g, limit, s1, r);
    }
  }

  lemma NoneRaises(g: Graph, limit: nat, s1: State, r: nat)
    requires ValidGraph(g) && |s1| == |g.deps|
    requires forall k :: 0 <= k < |s1| ==> Started1(g.plans[k], StartRound(g, k, limit), s1[k], r + 1)
    ensures !RaisesIn(g, limit, r + 1)
  {
    forall k | 0 <= k < |g.deps| && StartRound(g, k, limit) == r + 1 ensures g.plans[k].Starts? {
      assert Started1(g.plans[k], StartRound(g, k, limit), s1[k], r + 1);
    }
  }

  // ----- whole runs

  lemma {:induction false} ErrorNeverSticks(g: Graph, limit: nat, l: Loop, n: nat)
    requires Inv(g, l) && l.error && !Stuck(l.s)
    ensures !Stuck(Rounds(g, limit, l, n).s)
    decreases n
  {
    if n > 0 {
      RoundKeeps(g, limit, l);
      CheckFromChecks(l.s, 0);
      ErrorNeverSticks(g, limit, Round(g, limit, l), n - 1);
    }
  }

  lemma OnScheduleNotStuck(g: Graph, limit: nat, l: Loop, r: nat)
    requires OnSchedule(g, limit, l, r)
    ensures !Stuck(l.s)
    ensures forall k :: 0 <= k < |g.deps| ==> !FailsBy(g.plans[k], StartRound(g, k, limit), r)
  {
    forall k | 0 <= k < |l.s|
      ensures (l.s[k].upgrading ==> l.s[k].job.Some?) && !FailsBy(g.plans[k], StartRound(g, k, limit), r)
    {
      PlacedDone(g.plans[k], StartRound(g, k, limit), l.s[k], r);
    }
  }

  /** Every job that cannot be constructed would start only after another job has shown a failure. */
  ghost predicate FailuresFirst(g: Graph, limit: nat)
    requires ValidGraph(g)
  {
    forall m :: 0 <= m < |g.deps| && g.plans[m].Raises? ==> SomeFailsBy(g, limit, StartRound(g, m, limit) - 1)
  }

  lemma NoRaiseYet(g: Graph, limit: nat, l: Loop, r: nat)
    requires OnSchedule(g, limit, l, r) && FailuresFirst(g, limit)
    ensures !RaisesIn(g, limit, r + 1)
  {
    OnScheduleNotStuck(g, limit, l, r);
    assert !SomeFailsBy(g, limit, r);
  }

  lemma {:induction false} FailuresUnstick(g: Graph, limit: nat, l: Loop, r: nat, n: nat)
    requires OnSchedule(g, limit, l, r) && AllFit(g, limit) && FailuresFirst(g, limit)
    ensures !Stuck(Rounds(g, limit, l, n).s)
    decreases n
  {
    OnScheduleNotStuck(g, limit, l, r);
    if l.exited {
      ExitedStays(g, limit, l, n);
    } else if n > 0 {
      var l1 := Round(g, limit, l);
      NextRound(g, limit, l, r);
      RoundKeeps(g, limit, l);
      NoRaiseYet(g, limit, l, r);
      if OnSchedule(g, limit, l1, r + 1) {
        FailuresUnstick(g, limit, l1, r + 1, n - 1);
      } else {
        ErrorNeverSticks(g, limit, l1, n - 1);
      }
    }
  }

  lemma Later(g: Graph, limit: nat, r: int, more: int)
    requires ValidGraph(g) && SomeFailsBy(g, limit, r) && r <= more
    ensures SomeFailsBy(g, limit, more)
  {
    var k :| 0 <= k < |g.deps| && FailsBy(g.plans[k], StartRound(g, k, limit), r);
    assert FailsBy(g.plans[k], StartRound(g, k, limit), more);
  }

  /** A run that never gets stuck does not come to a job that cannot be constructed without a failure before. */
  lemma {:induction false} UnstuckNeedsFailure(g: Graph, limit: nat, l: Loop, r: nat, m: nat)
    requires OnSchedule(g, limit, l, r) && AllFit(g, limit)
    requires m < |g.deps| && g.plans[m].Raises? && r < StartRound(g, m, limit)
    requires forall n: nat :: !Stuck(Rounds(g, limit, l, n).s)
    ensures SomeFailsBy(g, limit, StartRound(g, m, limit) - 1)
    decreases StartRound(g, m, limit) - r
  {
    var l1 := Round(g, limit, l);
    assert Placed(g.plans[m], StartRound(g, m, limit), l.s[m], r);
    assert !l.s[m].done;
    NextRound(g, limit, l, r);
    assert Rounds(g, limit, l, 1) == Rounds(g, limit, l1, 0) == l1;
    if OnSchedule(g, limit, l1, r + 1) {
      assert Placed(g.plans[m], StartRound(g, m, limit), l1.s[m], r + 1);
      forall n: nat ensures !Stuck(Rounds(g, limit, l1, n).s) {
        assert Rounds(g, limit, l1, n) == Rounds(g, limit, l, n + 1);
      }
      UnstuckNeedsFailure(g, limit, l1, r + 1, m);
    } else {
      assert StartRound(g, m, limit) != r + 1;
      Later(g, limit, r + 1, StartRound(g, m, limit) - 1);
    }
  }

  lemma BeginsOnSchedule(g: Graph, limit: nat)
    requires ValidGraph(g) && AllFit(g, limit)
    ensures OnSchedule(g, limit, Begin(g), 0)
  {
    BeginInv(g);
    forall k | 0 <= k < |g.deps| ensures Placed(g.plans[k], StartRound(g, k, limit), Begin(g).s[k], 0) {
      ReadyIff(g, limit, k, 0);
    }
  }

  lemma FailuresEndIt(g: Graph, limit: nat)
    requires ValidGraph(g) && AllFit(g, limit) && FailuresFirst(g, limit)
    ensures exists n: nat :: Rounds(g, limit, Begin(g), n).exited
  {
    BeginsOnSchedule(g, limit);
    BeginInv(g);
    EndsOrSticks(g, limit, Begin(g), Enough(g));
    FailuresUnstick(g, limit, Begin(g), 0, Enough(g));
    assert Rounds(g, limit, Begin(g), Enough(g)).exited;
  }

  lemma EndNeedsFailures(g: Graph, limit: nat, n: nat)
    requires ValidGraph(g) && AllFit(g, limit) && Rounds(g, limit, Begin(g), n).exited
    ensures FailuresFirst(g, limit)
  {
    BeginsOnSchedule(g, limit);
    BeginInv(g);
    forall k: nat ensures !Stuck(Rounds(g, limit, Begin(g), k).s) {
      NotBoth(g, limit, Begin(g), n, k);
    }
    forall m | 0 <= m < |g.deps| && g.plans[m].Raises?
      ensures SomeFailsBy(g, limit, StartRound(g, m, limit) - 1)
    {
      ReadyIff(g, limit, m, 0);
      UnstuckNeedsFailure(g, limit, Begin(g), 0, m);
    }
  }

  /** For every configuration whose chains of dependencies fit, and jobs of any kind: the loop ends if and only if
      every job that cannot be constructed would start only after another has shown a failure. */
  lemma EndsIffFailuresFirst(g: Graph, limit: nat)
    requires ValidGraph(g) && AllFit(g, limit)
    ensures (exists n: nat :: Rounds(g, limit, Begin(g), n).exited) <==> FailuresFirst(g, limit)
  {
    if n: nat :| Rounds(g, limit, Begin(g), n).exited {
      EndNeedsFailures(g, limit, n);
    }
    if FailuresFirst(g, limit) {
      FailuresEndIt(g, limit);
    }
  }

  // ----- configurations whose chains do not fit

  /** What first stops the depth-first walk of the first round: a chain that is too deep, or a module without
      dependencies whose job cannot be constructed. */
  datatype Stop = TooDeep | NoJob

  function Visit(g: Graph, m: nat, depth: nat): Option<Stop>
    requires ValidGraph(g) && m < |g.deps|
    decreases depth, 0
  {
    if depth == 0 then Some(TooDeep)
    else if g.deps[m] == [] then (if g.plans[m].Raises? then Some(NoJob) else None)
    else VisitFrom(g, m, 0, depth - 1)
  }

  function VisitFrom(g: Graph, m: nat, i: nat, depth: nat): Option<Stop>
    requires ValidGraph(g) && m < |g.deps| && i <= |g.deps[m]|
    decreases depth, |g.deps[m]| - i + 1
  {
    if i == |g.deps[m]| then None
    else
      var stop := Visit(g, g.deps[m][i], depth);
      if stop.Some? then stop else VisitFrom(g, m, i + 1, depth)
  }

  function FirstStop(g: Graph, m: nat, limit: nat): Option<Stop>
    requires ValidGraph(g) && m <= |g.deps|
    decreases |g.deps| - m
  {
    if m == |g.deps| then None
    else
      var stop := Visit(g, m, limit);
      if stop.Some? then stop else FirstStop(g, m + 1, limit)
  }

  /** A state of the first start phase that nothing has stopped. */
  ghost predicate Unstopped(g: Graph, s: State) {
    && FirstRound(g, s)
    && forall k :: 0 <= k < |s| ==> if s[k].upgrading then s[k].job.Some? && g.plans[k].Starts? else s[k] == NEW
  }

  /** A part of the first start phase goes as far as the first stop, and only a job without constructor is left
      stuck. */
  ghost predicate StopsAt(g: Graph, stop: Option<Stop>, r: (State, bool)) {
    match stop
    case None => !r.1 && Unstopped(g, r.0)
    case Some(why) => r.1 && (Stuck(r.0) <==> why.NoJob?)
  }

  lemma {:induction false} UpgradeStops(g: Graph, s: State, m: nat, depth: nat)
    requires Unstopped(g, s) && m < |s|
    ensures StopsAt(g, Visit(g, m, depth), UpgradeModule(g, s, m, depth))
    decreases depth, 0
  {
    if depth > 0 && g.deps[m] != [] {
      WalkStops(g, s, m, 0, depth - 1);
      var s1 := Walk(g, s, m, 0, depth - 1).0;
      if VisitFrom(g, m, 0, depth - 1).None? {
        DependentWaits(g, s1, m);
      }
    } else if depth > 0 && !Started(s[m]) {
      assert Walk(g, s, m, 0, depth - 1) == (s, false) && AllDone(g, s, m);
      var x := Launch(g.plans[m], s[m]).0;
      assert s[m := x][m] == x && (g.plans[m].Raises? <==> x.job.None?);
    }
  }

  lemma {:induction false} WalkStops(g: Graph, s: State, m: nat, i: nat, depth: nat)
    requires Unstopped(g, s) && m < |s| && i <= |g.deps[m]|
    ensures StopsAt(g, VisitFrom(g, m, i, depth), Walk(g, s, m, i, depth))
    decreases depth, |g.deps[m]| - i + 1
  {
    if i < |g.deps[m]| {
      UpgradeStops(g, s, g.deps[m][i], depth);
      if Visit(g, g.deps[m][i], depth).None? {
        WalkStops(g, UpgradeModule(g, s, g.deps[m][i], depth).0, m, i + 1, depth);
      }
    }
  }

  lemma {:induction false} StartStops(g: Graph, s: State, m: nat, limit: nat)
    requires Unstopped(g, s) && m <= |s|
    ensures StopsAt(g, FirstStop(g, m, limit), StartFrom(g, s, m, limit))
    decreases |s| - m
  {
    if m < |s| {
      UpgradeStops(g, s, m, limit);
      if Visit(g, m, limit).None? {
        StartStops(g, UpgradeModule(g, s, m, limit).0, m + 1, limit);
      }
    }
  }

  /** A start phase that raises decides whether the loop ends. */
  lemma RaisingStartDecides(g: Graph, limit: nat)
    requires ValidGraph(g) && StartFrom(g, Initial(g), 0, limit).1
    ensures (exists n: nat :: Rounds(g, limit, Begin(g), n).exited)
            <==> !Stuck(StartFrom(g, Initial(g), 0, limit).0)
  {
    var l := Begin(g);
    var l1 := Round(g, limit, l);
    BeginInv(g);
    RoundKeeps(g, limit, l);
    EndsIffNeverStuck(g, limit);
    if Stuck(l1.s) {
      assert Rounds(g, limit, l, 1) == Rounds(g, limit, l1, 0);
    }
    forall n: nat | !Stuck(l1.s) ensures !Stuck(Rounds(g, limit, l, n).s) {
      if n > 0 {
        ErrorNeverSticks(g, limit, l1, n - 1);
      }
    }
  }

  /** If the chains fit, every job that cannot be constructed would start only after another has shown a failure; if
      they do not, the first walk finds one that is too deep before it comes to a job that cannot be constructed. */
  ghost predicate Ending(g: Graph, limit: nat)
    requires ValidGraph(g)
  {
    if AllFit(g, limit) then FailuresFirst(g, limit) else FirstStop(g, 0, limit) == Some(TooDeep)
  }

  /** For every configuration and jobs of any kind: what decides whether the loop ends. */
  lemma EndsIff(g: Graph, limit: nat)
    requires ValidGraph(g)
    ensures (exists n: nat :: Rounds(g, limit, Begin(g), n).exited) <==> Ending(g, limit)
  {
    if AllFit(g, limit) {
      EndsIffFailuresFirst(g, limit);
    } else {
      var s := Initial(g);
      StartStops(g, s, 0, limit);
      if !StartFrom(g, s, 0, limit).1 {
        StartNeedsFit(g, s, 0, limit);
      }
      RaisingStartDecides(g, limit);
    }
  }

  lemma EndingNeverStuck(g: Graph, limit: nat, n: nat)
    requires ValidGraph(g) && Ending(g, limit)
    ensures !Stuck(Rounds(g, limit, Begin(g), n).s)
  {
    EndsIff(g, limit);
    EndsIffNeverStuck(g, limit);
  }
}
