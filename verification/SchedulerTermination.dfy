/** When the scheduler's loop ends, and when it ends without an error. */
module SchedulerTermination {
  import opened Scheduler
  import opened SchedulerSafety

  // ----- progress: a start phase without an exception leaves something to wait for

  ghost predicate SomeUpgrading(s: State) {
    exists k :: 0 <= k < |s| && s[k].upgrading
  }

  lemma GrownUpgrading(g: Graph, s: State, s1: State)
    requires Grown(g, s, s1) && SomeUpgrading(s)
    ensures SomeUpgrading(s1)
  {
    var k :| 0 <= k < |s| && s[k].upgrading;
    assert s1[k] == s[k];
  }

  /** The walk below an unfinished module starts a module or finds one that is upgrading; or it raises. */
  lemma {:induction false} UpgradeFinds(g: Graph, s: State, m: nat, depth: nat)
    requires Fit(g, s) && m < |s| && !s[m].done && !UpgradeModule(g, s, m, depth).1
    ensures SomeUpgrading(UpgradeModule(g, s, m, depth).0)
    decreases depth, 0
  {
    if !s[m].upgrading {
      WalkFinds(g, s, m, 0, depth - 1);
      var s1 := Walk(g, s, m, 0, depth - 1).0;
      WalkGrows(g, s, m, 0, depth - 1);
      SameDone(g, s, s1);
      if AllDone(g, s1, m) && Started(s1[m]) {
        assert s1[m].upgrading;
      }
      var s2 := UpgradeModule(g, s, m, depth).0;
      assert AllDone(g, s1, m) ==> s2[m].upgrading;
    }
  }

  lemma {:induction false} WalkFinds(g: Graph, s: State, m: nat, i: nat, depth: nat)
    requires Fit(g, s) && m < |s| && i <= |g.deps[m]| && !Walk(g, s, m, i, depth).1
    ensures SomeUpgrading(Walk(g, s, m, i, depth).0)
            || forall j :: i <= j < |g.deps[m]| ==> s[g.deps[m][j]].done
    decreases depth, |g.deps[m]| - i + 1
  {
    if i < |g.deps[m]| {
      var d := g.deps[m][i];
      if s[d].done {
        WalkFinds(g, s, m, i + 1, depth);
      } else {
        UpgradeFinds(g, s, d, depth);
        var s1 := UpgradeModule(g, s, d, depth).0;
        WalkGrows(g, s1, m, i + 1, depth);
        GrownUpgrading(g, s1, Walk(g, s1, m, i + 1, depth).0);
      }
    }
  }

  /** A start phase without an exception leaves every module finished or some module upgrading, on every graph. */
  lemma {:induction false} StartFinds(g: Graph, s: State, m: nat, limit: nat)
    requires Fit(g, s) && m <= |s| && !StartFrom(g, s, m, limit).1
    ensures SomeUpgrading(StartFrom(g, s, m, limit).0) || forall k :: m <= k < |s| ==> s[k].done
    decreases |s| - m
  {
    if m < |s| {
      var s1 := UpgradeModule(g, s, m, limit).0;
      UpgradeGrows(g, s, m, limit);
      SameDone(g, s, s1);
      StartGrows(g, s1, m + 1, limit);
      StartFinds(g, s1, m + 1, limit);
      if !s[m].done {
        UpgradeFinds(g, s, m, limit);
        GrownUpgrading(g, s1, StartFrom(g, s1, m + 1, limit).0);
      }
    }
  }

  // ----- a decreasing measure

  /** The rounds a module may still need. */
  function Weight(p: Plan, x: Module): nat {
    if x.done then 0
    else if x.upgrading then (if x.job.Some? then |x.job.value.polls| + 1 else 0)
    else if p.Starts? then |p.job.polls| + 2
    else 1
  }

  function Weights(g: Graph, s: State, m: nat): nat
    requires |g.plans| == |s| && m <= |s|
    decreases |s| - m
  {
    if m == |s| then 0 else Weight(g.plans[m], s[m]) + Weights(g, s, m + 1)
  }

  ghost predicate Lighter(g: Graph, s: State, s1: State) {
    && |g.plans| == |s| == |s1|
    && forall k :: 0 <= k < |s| ==> Weight(g.plans[k], s1[k]) <= Weight(g.plans[k], s[k])
  }

  lemma {:induction false} WeightsDrop(g: Graph, s: State, s1: State, m: nat, j: nat)
    requires Lighter(g, s, s1) && m <= |s|
    ensures Weights(g, s1, m) <= Weights(g, s, m)
    ensures m <= j < |s| && Weight(g.plans[j], s1[j]) < Weight(g.plans[j], s[j]) ==>
              Weights(g, s1, m) < Weights(g, s, m)
    decreases |s| - m
  {
    if m < |s| {
      WeightsDrop(g, s, s1, m + 1, j);
    }
  }

  /** Some module waits forever for a job that was never made. */
  ghost predicate Stuck(s: State) {
    exists k :: 0 <= k < |s| && s[k].upgrading && s[k].job.None?
  }

  lemma GrownLighter(g: Graph, s: State, s1: State)
    requires Grown(g, s, s1) && forall k :: 0 <= k < |s| ==> Started(s[k]) || s[k] == NEW
    ensures Lighter(g, s, s1)
  {
  }

  lemma CheckedLighter(g: Graph, s: State, s1: State)
    requires Checked(s, s1) && |g.plans| == |s|
    ensures Lighter(g, s, s1)
  {
  }

  /** A check phase with a module upgrading makes some module lighter, even if it raises. */
  lemma {:induction false} CheckProgress(g: Graph, s: State, m: nat, j: nat) returns (k: nat)
    requires |g.plans| == |s| && m <= j < |s| && s[j].upgrading && !s[j].done && !Stuck(s)
    requires forall i :: 0 <= i < |s| ==> !(s[i].done && s[i].upgrading)
    ensures k < |s| && Weight(g.plans[k], CheckFrom(s, m).0[k]) < Weight(g.plans[k], s[k])
    decreases |s| - m
  {
    var (x, raised) := Check(s[m]);
    var s1 := s[m := x];
    if s[m].upgrading {
      k := m;
      if !raised {
        CheckFromChecks(s1, m + 1);
        assert CheckFrom(s1, m + 1).0[..m + 1][m] == s1[..m + 1][m];
      }
    } else {
      assert s1 == s;
      k := CheckProgress(g, s, m + 1, j);
    }
  }

  function Measure(g: Graph, l: Loop): nat
    requires |g.plans| == |l.s|
  {
    Weights(g, l.s, 0) + if l.error then 0 else 1
  }

  lemma CheckDrops(g: Graph, s: State)
    requires |g.plans| == |s| && SomeUpgrading(s) && !Stuck(s)
    requires forall i :: 0 <= i < |s| ==> !(s[i].done && s[i].upgrading)
    ensures Weights(g, CheckFrom(s, 0).0, 0) < Weights(g, s, 0)
  {
    var j :| 0 <= j < |s| && s[j].upgrading;
    var k := CheckProgress(g, s, 0, j);
    CheckFromChecks(s, 0);
    CheckedLighter(g, s, CheckFrom(s, 0).0);
    WeightsDrop(g, s, CheckFrom(s, 0).0, 0, k);
  }

  /** A check phase without anything upgrading changes nothing. */
  lemma IdleCheck(s: State)
    requires NoneUpgrading(s)
    ensures CheckFrom(s, 0) == (s, false)
  {
    IdleCheckFrom(s, 0);
  }

  lemma {:induction false} IdleCheckFrom(s: State, m: nat)
    requires NoneUpgrading(s) && m <= |s|
    ensures CheckFrom(s, m) == (s, false)
    decreases |s| - m
  {
    if m < |s| {
      assert s[m := s[m]] == s;
      IdleCheckFrom(s, m + 1);
    }
  }

  /** A round ends the loop, gets stuck, or makes the measure smaller. */
  lemma RoundDrops(g: Graph, limit: nat, l: Loop)
    requires Inv(g, l) && !l.exited && !Stuck(l.s)
    ensures var l1 := Round(g, limit, l); l1.exited || Stuck(l1.s) || Measure(g, l1) < Measure(g, l)
  {
    var l1 := Round(g, limit, l);
    if l.error {
      if SomeUpgrading(l.s) {
        CheckDrops(g, l.s);
      } else {
        IdleCheck(l.s);
      }
    } else {
      var (s1, raised) := StartFrom(g, l.s, 0, limit);
      StartGrows(g, l.s, 0, limit);
      GrownLighter(g, l.s, s1);
      WeightsDrop(g, l.s, s1, 0, 0);
      if !raised {
        StartFinds(g, l.s, 0, limit);
        RestOfRound(g, limit, l, s1);
      }
    }
  }

  lemma RestOfRound(g: Graph, limit: nat, l: Loop, s1: State)
    requires Inv(g, l) && !l.exited && !l.error && StartFrom(g, l.s, 0, limit) == (s1, false) && Grown(g, l.s, s1)
    requires SomeUpgrading(s1) || AllFinished(l.s)
    requires Weights(g, s1, 0) <= Weights(g, l.s, 0)
    ensures var l1 := Round(g, limit, l); l1.exited || Stuck(l1.s) || Measure(g, l1) < Measure(g, l)
  {
    GrownKeeps(g, l, s1, false);
    if Stuck(s1) {
      CheckFromChecks(s1, 0);
      StaysStuck(s1, CheckFrom(s1, 0).0);
    } else if SomeUpgrading(s1) {
      CheckDrops(g, s1);
    } else {
      assert s1 == l.s;
      IdleCheck(s1);
    }
  }

  lemma StaysStuck(s: State, s1: State)
    requires Stuck(s) && Checked(s, s1)
    ensures Stuck(s1)
  {
    var k :| 0 <= k < |s| && s[k].upgrading && s[k].job.None?;
    assert s1[k] == s[k];
  }

  lemma GrownStuck(g: Graph, s: State, s1: State)
    requires Stuck(s) && Grown(g, s, s1)
    ensures Stuck(s1)
  {
    var k :| 0 <= k < |s| && s[k].upgrading && s[k].job.None?;
    assert s1[k] == s[k];
  }

  // ----- when the loop ends

  lemma {:induction false} ExitedStays(g: Graph, limit: nat, l: Loop, n: nat)
    requires Fit(g, l.s) && l.exited
    ensures Rounds(g, limit, l, n) == l
    decreases n
  {
    if n > 0 {
      ExitedStays(g, limit, l, n - 1);
    }
  }

  lemma OneMore(g: Graph, limit: nat, n: nat)
    requires ValidGraph(g)
    ensures Rounds(g, limit, Begin(g), n + 1) == Round(g, limit, Rounds(g, limit, Begin(g), n))
  {
    RoundLast(g, limit, Begin(g), n);
  }

  lemma {:induction false} RoundLast(g: Graph, limit: nat, l: Loop, n: nat)
    requires Fit(g, l.s)
    ensures Rounds(g, limit, l, n + 1) == Round(g, limit, Rounds(g, limit, l, n))
    decreases n
  {
    if n > 0 {
      RoundLast(g, limit, Round(g, limit, l), n - 1);
    }
  }

  /** A loop that has exited after n rounds is where it stays. */
  lemma StaysFrom(g: Graph, limit: nat, n: nat, more: nat)
    requires ValidGraph(g) && n <= more && Rounds(g, limit, Begin(g), n).exited
    ensures Rounds(g, limit, Begin(g), more) == Rounds(g, limit, Begin(g), n)
    decreases more
  {
    if n < more {
      StaysFrom(g, limit, n, more - 1);
      OneMore(g, limit, more - 1);
    }
  }

  lemma RoundStuck(g: Graph, limit: nat, l: Loop)
    requires Inv(g, l) && Stuck(l.s)
    ensures Stuck(Round(g, limit, l).s)
  {
    if !l.exited {
      if l.error {
        CheckFromChecks(l.s, 0);
        StaysStuck(l.s, CheckFrom(l.s, 0).0);
      } else {
        var s1 := StartFrom(g, l.s, 0, limit).0;
        StartGrows(g, l.s, 0, limit);
        GrownStuck(g, l.s, s1);
        CheckFromChecks(s1, 0);
        StaysStuck(s1, CheckFrom(s1, 0).0);
      }
    }
  }

  /** Once a job constructor has raised, the loop never exits. */
  lemma {:induction false} StuckForever(g: Graph, limit: nat, l: Loop, n: nat)
    requires Inv(g, l) && Stuck(l.s)
    ensures Stuck(Rounds(g, limit, l, n).s) && !Rounds(g, limit, l, n).exited
    decreases n
  {
    RoundKeeps(g, limit, l);
    if n > 0 {
      RoundStuck(g, limit, l);
      StuckForever(g, limit, Round(g, limit, l), n - 1);
    }
  }

  lemma {:induction false} EndsOrSticks(g: Graph, limit: nat, l: Loop, n: nat)
    requires Inv(g, l) && n > Measure(g, l)
    ensures Rounds(g, limit, l, n).exited || Stuck(Rounds(g, limit, l, n).s)
    decreases n
  {
    if Stuck(l.s) {
      StuckForever(g, limit, l, n);
    } else if l.exited {
      ExitedStays(g, limit, l, n);
    } else {
      RoundDrops(g, limit, l);
      RoundKeeps(g, limit, l);
      var l1 := Round(g, limit, l);
      if l1.exited {
        ExitedStays(g, limit, l1, n - 1);
      } else if Stuck(l1.s) {
        StuckForever(g, limit, l1, n - 1);
      } else {
        EndsOrSticks(g, limit, l1, n - 1);
      }
    }
  }

  /** The number of rounds that always suffices: two and the polls of its job for each module, and two more. */
  function Enough(g: Graph): nat
    requires ValidGraph(g)
  {
    Measure(g, Begin(g)) + 1
  }

  /** For every graph, even a cyclic one, and all finite jobs, the loop ends if and only if no job constructor raises
      on the way; if it ends, it does so within Enough(g) rounds. */
  lemma EndsIffNeverStuck(g: Graph, limit: nat)
    requires ValidGraph(g)
    ensures (exists n: nat :: Rounds(g, limit, Begin(g), n).exited)
            <==> (forall n: nat :: !Stuck(Rounds(g, limit, Begin(g), n).s))
    ensures (exists n: nat :: Rounds(g, limit, Begin(g), n).exited) ==> Rounds(g, limit, Begin(g), Enough(g)).exited
  {
    var l, enough := Begin(g), Enough(g);
    BeginInv(g);
    EndsOrSticks(g, limit, l, enough);
    if n: nat :| Rounds(g, limit, l, n).exited {
      forall k: nat ensures !Stuck(Rounds(g, limit, l, k).s) {
        NotBoth(g, limit, l, n, k);
      }
    }
  }

  /** No run both exits and gets stuck. */
  lemma {:induction false} NotBoth(g: Graph, limit: nat, l: Loop, n: nat, k: nat)
    requires Inv(g, l)
    ensures !Rounds(g, limit, l, n).exited || !Stuck(Rounds(g, limit, l, k).s)
    decreases n
  {
    if Stuck(l.s) {
      StuckForever(g, limit, l, n);
    } else if l.exited {
      ExitedStays(g, limit, l, k);
    } else if n > 0 && k > 0 {
      RoundKeeps(g, limit, l);
      NotBoth(g, limit, Round(g, limit, l), n - 1, k - 1);
    }
  }

  /** No job constructor raises. */
  predicate Constructs(g: Graph) {
    forall m :: 0 <= m < |g.plans| ==> g.plans[m].Starts?
  }

  lemma RoundConstructs(g: Graph, limit: nat, l: Loop)
    requires Inv(g, l) && Constructs(g) && !Stuck(l.s)
    ensures !Stuck(Round(g, limit, l).s)
  {
    var s1 := StartFrom(g, l.s, 0, limit).0;
    StartGrows(g, l.s, 0, limit);
    CheckFromChecks(s1, 0);
    CheckFromChecks(l.s, 0);
  }

  lemma {:induction false} NeverStuck(g: Graph, limit: nat, l: Loop, n: nat)
    requires Inv(g, l) && Constructs(g) && !Stuck(l.s)
    ensures !Stuck(Rounds(g, limit, l, n).s)
    decreases n
  {
    if n > 0 {
      RoundConstructs(g, limit, l);
      RoundKeeps(g, limit, l);
      NeverStuck(g, limit, Round(g, limit, l), n - 1);
    }
  }

  /** In particular the loop ends whenever all constructors succeed. */
  lemma Ends(g: Graph, limit: nat)
    requires ValidGraph(g) && Constructs(g)
    ensures Rounds(g, limit, Begin(g), Enough(g)).exited
  {
    BeginInv(g);
    NeverStuck(g, limit, Begin(g), Enough(g));
    EndsOrSticks(g, limit, Begin(g), Enough(g));
  }
}
