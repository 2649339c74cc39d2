/** Exactly when an upgrade succeeds, as a condition on the configuration and the jobs alone. */
module SchedulerSuccess {
  import opened Prelude
  import opened Scheduler
  import opened SchedulerSafety
  import opened SchedulerTermination

  // ----- the depth of the recursion

  /** Every chain of dependencies from m has at most `depth` modules. */
  ghost predicate Fits(g: Graph, m: nat, depth: nat)
    requires ValidGraph(g) && m < |g.deps|
    decreases depth
  {
    depth > 0 && forall i :: 0 <= i < |g.deps[m]| ==> Fits(g, g.deps[m][i], depth - 1)
  }

  /** It is the longest chain that decides. */
  lemma {:induction false} FitsIffShortChains(g: Graph, m: nat, depth: nat)
    requires ValidGraph(g) && m < |g.deps|
    ensures Fits(g, m, depth) <==> forall path :: Chain(g, path) && path[0] == m ==> |path| <= depth
    decreases depth
  {
    if depth == 0 {
      assert Chain(g, [m]);
    } else if Fits(g, m, depth) {
      forall path | Chain(g, path) && path[0] == m ensures |path| <= depth {
        if |path| > 1 {
          var rest := path[1..];
          assert path[1] in g.deps[path[0]];
          var i :| 0 <= i < |g.deps[m]| && g.deps[m][i] == path[1];
          assert forall j :: 0 <= j < |rest| ==> rest[j] == path[j + 1];
          FitsIffShortChains(g, rest[0], depth - 1);
          assert Chain(g, rest);
        }
      }
    } else {
      var i :| 0 <= i < |g.deps[m]| && !Fits(g, g.deps[m][i], depth - 1);
      var d := g.deps[m][i];
      FitsIffShortChains(g, d, depth - 1);
      var rest :| Chain(g, rest) && rest[0] == d && |rest| > depth - 1;
      var path := [m] + rest;
      assert forall j :: 0 <= j < |path| - 1 ==> path[j + 1] == rest[j];
      assert Chain(g, path) && |path| > depth;
    }
  }

  ghost predicate DependsOnOneOf(g: Graph, c: nat, cycle: set<nat>) {
    c < |g.deps| && exists i :: 0 <= i < |g.deps[c]| && g.deps[c][i] in cycle
  }

  /** A module from which a cycle can be reached never fits: a set of modules each depending on a member of the set. */
  lemma {:induction false} CyclesNeverFit(g: Graph, cycle: set<nat>, m: nat, depth: nat)
    requires ValidGraph(g) && m in cycle && forall c :: c in cycle ==> DependsOnOneOf(g, c, cycle)
    ensures m < |g.deps| && !Fits(g, m, depth)
    decreases depth
  {
    assert DependsOnOneOf(g, m, cycle);
    if depth > 0 {
      var i :| 0 <= i < |g.deps[m]| && g.deps[m][i] in cycle;
      CyclesNeverFit(g, cycle, g.deps[m][i], depth - 1);
    }
  }

  /** A topological rank bounds the depth. */
  lemma {:induction false} RanksFit(g: Graph, rank: seq<nat>, m: nat, depth: nat)
    requires ValidGraph(g) && |rank| == |g.deps| && m < |g.deps| && rank[m] < depth
    requires forall k, i :: 0 <= k < |g.deps| && 0 <= i < |g.deps[k]| ==> rank[g.deps[k][i]] < rank[k]
    ensures Fits(g, m, depth)
    decreases depth
  {
    forall i | 0 <= i < |g.deps[m]| ensures Fits(g, g.deps[m][i], depth - 1) {
      RanksFit(g, rank, g.deps[m][i], depth - 1);
    }
  }

  lemma {:induction false} FitsDeeper(g: Graph, m: nat, depth: nat, more: nat)
    requires ValidGraph(g) && m < |g.deps| && Fits(g, m, depth) && depth <= more
    ensures Fits(g, m, more)
    decreases depth
  {
    forall i | 0 <= i < |g.deps[m]| ensures Fits(g, g.deps[m][i], more - 1) {
      FitsDeeper(g, g.deps[m][i], depth - 1, more - 1);
    }
  }

  // ----- the first round raises unless all modules fit

  /** No module is done yet, so that only modules without dependencies have started. */
  ghost predicate FirstRound(g: Graph, s: State) {
    && Fit(g, s)
    && forall k :: 0 <= k < |s| ==> !s[k].done && (s[k].upgrading ==> g.deps[k] == [])
  }

  lemma DependentWaits(g: Graph, s: State, k: nat)
    requires FirstRound(g, s) && k < |s| && g.deps[k] != []
    ensures !AllDone(g, s, k)
  {
    assert !s[g.deps[k][0]].done;
  }

  lemma GrownFirst(g: Graph, s: State, s1: State)
    requires FirstRound(g, s) && Grown(g, s, s1)
    ensures FirstRound(g, s1)
  {
    forall k | 0 <= k < |s| && g.deps[k] != [] ensures !AllDone(g, s, k) {
      DependentWaits(g, s, k);
    }
  }

  lemma {:induction false} UpgradeNeedsFit(g: Graph, s: State, m: nat, depth: nat)
    requires FirstRound(g, s) && m < |s| && !UpgradeModule(g, s, m, depth).1
    ensures Fits(g, m, depth)
    decreases depth, 0
  {
    if !s[m].upgrading {
      WalkNeedsFit(g, s, m, 0, depth - 1);
    }
  }

  lemma {:induction false} WalkNeedsFit(g: Graph, s: State, m: nat, i: nat, depth: nat)
    requires FirstRound(g, s) && m < |s| && i <= |g.deps[m]| && !Walk(g, s, m, i, depth).1
    ensures forall j :: i <= j < |g.deps[m]| ==> Fits(g, g.deps[m][j], depth)
    decreases depth, |g.deps[m]| - i + 1
  {
    if i < |g.deps[m]| {
      var d := g.deps[m][i];
      UpgradeNeedsFit(g, s, d, depth);
      UpgradeGrows(g, s, d, depth);
      var s1 := UpgradeModule(g, s, d, depth).0;
      GrownFirst(g, s, s1);
      WalkNeedsFit(g, s1, m, i + 1, depth);
    }
  }

  lemma {:induction false} StartNeedsFit(g: Graph, s: State, m: nat, limit: nat)
    requires FirstRound(g, s) && m <= |s| && !StartFrom(g, s, m, limit).1
    ensures forall k :: m <= k < |s| ==> Fits(g, k, limit)
    decreases |s| - m
  {
    if m < |s| {
      UpgradeNeedsFit(g, s, m, limit);
      UpgradeGrows(g, s, m, limit);
      var s1 := UpgradeModule(g, s, m, limit).0;
      GrownFirst(g, s, s1);
      StartNeedsFit(g, s1, m + 1, limit);
    }
  }

  // ----- modules that fit are started without an exception

  lemma {:induction false} FitUpgrades(g: Graph, s: State, m: nat, depth: nat)
    requires Fit(g, s) && m < |s| && Constructs(g) && Fits(g, m, depth)
    ensures !UpgradeModule(g, s, m, depth).1
    decreases depth, 0
  {
    if !Started(s[m]) {
      FitWalks(g, s, m, 0, depth - 1);
    }
  }

  lemma {:induction false} FitWalks(g: Graph, s: State, m: nat, i: nat, depth: nat)
    requires Fit(g, s) && m < |s| && i <= |g.deps[m]| && Constructs(g)
    requires forall j :: 0 <= j < |g.deps[m]| ==> Fits(g, g.deps[m][j], depth)
    ensures !Walk(g, s, m, i, depth).1
    decreases depth, |g.deps[m]| - i + 1
  {
    if i < |g.deps[m]| {
      FitUpgrades(g, s, g.deps[m][i], depth);
      FitWalks(g, if s[g.deps[m][i]].done then s else UpgradeModule(g, s, g.deps[m][i], depth).0, m, i + 1, depth);
    }
  }

  lemma {:induction false} FitStarts(g: Graph, s: State, m: nat, limit: nat)
    requires Fit(g, s) && m <= |s| && Constructs(g) && forall k :: 0 <= k < |s| ==> Fits(g, k, limit)
    ensures !StartFrom(g, s, m, limit).1
    decreases |s| - m
  {
    if m < |s| {
      FitUpgrades(g, s, m, limit);
      FitStarts(g, UpgradeModule(g, s, m, limit).0, m + 1, limit);
    }
  }

  // ----- the history of the jobs in a run without an error

  predicate Quiet(polls: seq<bool>) {
    forall i :: 0 <= i < |polls| ==> !polls[i]
  }

  /** The job runs to its end without an exception and succeeds. */
  predicate GoodJob(p: Plan) {
    p.Starts? && Quiet(p.job.polls) && p.job.succeeds
  }

  /** What is left of a job tells whether the whole job is good. */
  ghost predicate Tells(p: Plan, x: Module) {
    && (x.upgrading ==> x.job.Some? && (GoodJob(p) <==> GoodJob(Starts(x.job.value))))
    && (x.done ==> (GoodJob(p) <==> x.success))
  }

  ghost predicate AllTell(g: Graph, s: State) {
    |g.plans| == |s| && forall k :: 0 <= k < |s| ==> Tells(g.plans[k], s[k])
  }

  lemma CheckTells(p: Plan, x: Module)
    requires Tells(p, x) && !(x.done && x.upgrading) && !Check(x).1
    ensures Tells(p, Check(x).0)
  {
    if x.upgrading && x.job.value.polls != [] {
      var polls := x.job.value.polls;
      assert forall i :: 0 <= i < |polls[1..]| ==> polls[1..][i] == polls[i + 1];
      assert Quiet(polls[1..]) ==> forall i :: 1 <= i < |polls| ==> polls[i] == polls[1..][i - 1];
    }
  }

  lemma {:induction false} UpgradeTells(g: Graph, s: State, m: nat, depth: nat)
    requires Fit(g, s) && m < |s| && AllTell(g, s) && !UpgradeModule(g, s, m, depth).1
    ensures AllTell(g, UpgradeModule(g, s, m, depth).0)
    decreases depth, 0
  {
    if !Started(s[m]) {
      WalkTells(g, s, m, 0, depth - 1);
    }
  }

  lemma {:induction false} WalkTells(g: Graph, s: State, m: nat, i: nat, depth: nat)
    requires Fit(g, s) && m < |s| && i <= |g.deps[m]| && AllTell(g, s) && !Walk(g, s, m, i, depth).1
    ensures AllTell(g, Walk(g, s, m, i, depth).0)
    decreases depth, |g.deps[m]| - i + 1
  {
    if i < |g.deps[m]| {
      var d := g.deps[m][i];
      if s[d].done {
        WalkTells(g, s, m, i + 1, depth);
      } else {
        UpgradeTells(g, s, d, depth);
        WalkTells(g, UpgradeModule(g, s, d, depth).0, m, i + 1, depth);
      }
    }
  }

  lemma {:induction false} StartTells(g: Graph, s: State, m: nat, limit: nat)
    requires Fit(g, s) && m <= |s| && AllTell(g, s) && !StartFrom(g, s, m, limit).1
    ensures AllTell(g, StartFrom(g, s, m, limit).0)
    decreases |s| - m
  {
    if m < |s| {
      UpgradeTells(g, s, m, limit);
      StartTells(g, UpgradeModule(g, s, m, limit).0, m + 1, limit);
    }
  }

  lemma RoundTells(g: Graph, limit: nat, l: Loop)
    requires Inv(g, l) && !l.error && AllTell(g, l.s) && !Round(g, limit, l).error
    ensures AllTell(g, Round(g, limit, l).s)
  {
    if !l.exited {
      var s1 := StartFrom(g, l.s, 0, limit).0;
      StartTells(g, l.s, 0, limit);
      StartGrows(g, l.s, 0, limit);
      GrownKeeps(g, l, s1, false);
      CheckFromChecks(s1, 0);
      forall k | 0 <= k < |s1| ensures Tells(g.plans[k], CheckFrom(s1, 0).0[k]) {
        CheckTells(g.plans[k], s1[k]);
      }
    }
  }

  lemma {:induction false} ErrorStays(g: Graph, limit: nat, l: Loop, n: nat)
    requires Inv(g, l) && l.error
    ensures Rounds(g, limit, l, n).error
    decreases n
  {
    if n > 0 {
      RoundKeeps(g, limit, l);
      ErrorStays(g, limit, Round(g, limit, l), n - 1);
    }
  }

  lemma {:induction false} RoundsTell(g: Graph, limit: nat, l: Loop, n: nat)
    requires Inv(g, l) && AllTell(g, l.s) && !Rounds(g, limit, l, n).error
    ensures AllTell(g, Rounds(g, limit, l, n).s)
    decreases n
  {
    if l.error {
      ErrorStays(g, limit, l, n);
    } else if n > 0 {
      var l1 := Round(g, limit, l);
      RoundKeeps(g, limit, l);
      if l1.error {
        ErrorStays(g, limit, l1, n - 1);
      } else {
        RoundTells(g, limit, l);
        RoundsTell(g, limit, l1, n - 1);
      }
    }
  }

  // ----- good jobs cause no error

  /** Every job in the state is good, as far as it is left. */
  ghost predicate Promising(s: State) {
    forall k :: 0 <= k < |s| ==> s[k].success && (s[k].upgrading ==> s[k].job.Some? && GoodJob(Starts(s[k].job.value)))
  }

  lemma {:induction false} CheckPromising(s: State, m: nat)
    requires Promising(s) && m <= |s|
    ensures Promising(CheckFrom(s, m).0) && !CheckFrom(s, m).1
    decreases |s| - m
  {
    if m < |s| {
      CheckPromising(s[m := Check(s[m]).0], m + 1);
    }
  }

  ghost predicate GoodJobs(g: Graph) {
    forall k :: 0 <= k < |g.plans| ==> GoodJob(g.plans[k])
  }

  ghost predicate AllFit(g: Graph, limit: nat)
    requires ValidGraph(g)
  {
    forall m :: 0 <= m < |g.deps| ==> Fits(g, m, limit)
  }

  lemma RoundPromising(g: Graph, limit: nat, l: Loop)
    requires Inv(g, l) && !l.error && Promising(l.s) && GoodJobs(g) && AllFit(g, limit)
    ensures !Round(g, limit, l).error && Promising(Round(g, limit, l).s)
  {
    if !l.exited {
      FitStarts(g, l.s, 0, limit);
      var s1 := StartFrom(g, l.s, 0, limit).0;
      StartGrows(g, l.s, 0, limit);
      assert Promising(s1);
      CheckPromising(s1, 0);
    }
  }

  lemma {:induction false} RoundsPromising(g: Graph, limit: nat, l: Loop, n: nat)
    requires Inv(g, l) && !l.error && Promising(l.s) && GoodJobs(g) && AllFit(g, limit)
    ensures !Rounds(g, limit, l, n).error
    decreases n
  {
    if n > 0 {
      RoundPromising(g, limit, l);
      RoundKeeps(g, limit, l);
      RoundsPromising(g, limit, Round(g, limit, l), n - 1);
    }
  }

  // ----- main result

  ghost predicate Succeeds(g: Graph, limit: nat)
    requires ValidGraph(g)
  {
    exists n: nat :: Rounds(g, limit, Begin(g), n).exited && !Rounds(g, limit, Begin(g), n).error
  }

  lemma SuccessNeeds(g: Graph, limit: nat, n: nat)
    requires ValidGraph(g) && Rounds(g, limit, Begin(g), n).exited && !Rounds(g, limit, Begin(g), n).error
    ensures GoodJobs(g) && AllFit(g, limit)
  {
    var l := Begin(g);
    var last := Rounds(g, limit, l, n);
    BeginInv(g);
    RoundsKeep(g, limit, l, n);
    RoundsTell(g, limit, l, n);
    assert forall k :: 0 <= k < |last.s| ==> Tells(g.plans[k], last.s[k]);
    RoundKeeps(g, limit, l);
    if Round(g, limit, l).error {
      ErrorStays(g, limit, Round(g, limit, l), n - 1);
    } else {
      StartNeedsFit(g, l.s, 0, limit);
    }
  }

  /** For every graph and all finite jobs: the upgrade ends without an error if and only if every job can be
      constructed, runs without an exception and succeeds, and no chain of dependencies is longer than the recursion
      limit (so that none is cyclic). */
  lemma SucceedsIff(g: Graph, limit: nat)
    requires ValidGraph(g)
    ensures Succeeds(g, limit) <==> GoodJobs(g) && AllFit(g, limit)
  {
    if n: nat :| Rounds(g, limit, Begin(g), n).exited && !Rounds(g, limit, Begin(g), n).error {
      SuccessNeeds(g, limit, n);
    }
    if GoodJobs(g) && AllFit(g, limit) {
      BeginInv(g);
      Ends(g, limit);
      RoundsPromising(g, limit, Begin(g), Enough(g));
    }
  }

  /** A loop that has exited has its final outcome. */
  lemma OutcomeIsFinal(g: Graph, limit: nat, n: nat)
    requires ValidGraph(g) && Rounds(g, limit, Begin(g), n).exited
    ensures Succeeds(g, limit) <==> !Rounds(g, limit, Begin(g), n).error
  {
    if k: nat :| Rounds(g, limit, Begin(g), k).exited && !Rounds(g, limit, Begin(g), k).error {
      SameEnd(g, limit, Begin(g), n, k);
    }
  }

  lemma {:induction false} SameEnd(g: Graph, limit: nat, l: Loop, n: nat, k: nat)
    requires Fit(g, l.s) && Rounds(g, limit, l, n).exited && Rounds(g, limit, l, k).exited
    ensures Rounds(g, limit, l, n) == Rounds(g, limit, l, k)
    decreases n
  {
    if l.exited {
      ExitedStays(g, limit, l, n);
      ExitedStays(g, limit, l, k);
    } else {
      SameEnd(g, limit, Round(g, limit, l), n - 1, k - 1);
    }
  }

  // ----- when a raising constructor keeps the loop from ending

  ghost predicate Untouched(s: State) {
    forall k :: 0 <= k < |s| ==> Started(s[k]) || s[k] == NEW
  }

  /** Within the recursion limit only a job constructor raises, and its module is stuck. */
  lemma {:induction false} RaiseSticks(g: Graph, s: State, m: nat, depth: nat)
    requires Fit(g, s) && m < |s| && Untouched(s) && Fits(g, m, depth) && UpgradeModule(g, s, m, depth).1
    ensures Stuck(UpgradeModule(g, s, m, depth).0)
    decreases depth, 0
  {
    var (s1, raised) := Walk(g, s, m, 0, depth - 1);
    WalkGrows(g, s, m, 0, depth - 1);
    if raised {
      WalkRaiseSticks(g, s, m, 0, depth - 1);
    } else {
      var s2 := UpgradeModule(g, s, m, depth).0;
      assert s2[m].upgrading && s2[m].job.None?;
    }
  }

  lemma {:induction false} WalkRaiseSticks(g: Graph, s: State, m: nat, i: nat, depth: nat)
    requires Fit(g, s) && m < |s| && i <= |g.deps[m]| && Untouched(s) && Walk(g, s, m, i, depth).1
    requires forall j :: 0 <= j < |g.deps[m]| ==> Fits(g, g.deps[m][j], depth)
    ensures Stuck(Walk(g, s, m, i, depth).0)
    decreases depth, |g.deps[m]| - i + 1
  {
    var d := g.deps[m][i];
    if s[d].done {
      WalkRaiseSticks(g, s, m, i + 1, depth);
    } else {
      var (s1, raised) := UpgradeModule(g, s, d, depth);
      UpgradeGrows(g, s, d, depth);
      if raised {
        RaiseSticks(g, s, d, depth);
      } else {
        WalkRaiseSticks(g, s1, m, i + 1, depth);
      }
    }
  }

  lemma {:induction false} StartRaiseSticks(g: Graph, s: State, m: nat, limit: nat)
    requires Fit(g, s) && m <= |s| && Untouched(s) && AllFit(g, limit) && StartFrom(g, s, m, limit).1
    ensures Stuck(StartFrom(g, s, m, limit).0)
    decreases |s| - m
  {
    var (s1, raised) := UpgradeModule(g, s, m, limit);
    UpgradeGrows(g, s, m, limit);
    if raised {
      RaiseSticks(g, s, m, limit);
    } else {
      StartRaiseSticks(g, s1, m + 1, limit);
    }
  }

  /** Every job that can be constructed is good. */
  ghost predicate GoodIfConstructed(g: Graph) {
    forall k :: 0 <= k < |g.plans| ==> g.plans[k].Raises? || GoodJob(g.plans[k])
  }

  lemma GrownPromising(g: Graph, s: State, s1: State)
    requires Grown(g, s, s1) && Promising(s) && Untouched(s) && GoodIfConstructed(g) && !Stuck(s1)
    ensures Promising(s1)
  {
  }

  lemma SmoothRound(g: Graph, limit: nat, l: Loop)
    requires Inv(g, l) && !l.error && Promising(l.s) && AllFit(g, limit) && GoodIfConstructed(g)
    requires !Stuck(Round(g, limit, l).s)
    ensures !Round(g, limit, l).error && Promising(Round(g, limit, l).s)
  {
    if !l.exited {
      var (s1, raised) := StartFrom(g, l.s, 0, limit);
      StartGrows(g, l.s, 0, limit);
      if raised {
        StartRaiseSticks(g, l.s, 0, limit);
      } else {
        CheckFromChecks(s1, 0);
        if Stuck(s1) {
          StaysStuck(s1, CheckFrom(s1, 0).0);
        }
        GrownPromising(g, l.s, s1);
        CheckPromising(s1, 0);
      }
    }
  }

  lemma {:induction false} SmoothRounds(g: Graph, limit: nat, l: Loop, n: nat)
    requires Inv(g, l) && !l.error && Promising(l.s) && AllFit(g, limit) && GoodIfConstructed(g)
    requires !Stuck(Rounds(g, limit, l, n).s)
    ensures !Rounds(g, limit, l, n).error
    decreases n
  {
    if n > 0 {
      var l1 := Round(g, limit, l);
      RoundKeeps(g, limit, l);
      if Stuck(l1.s) {
        StuckForever(g, limit, l1, n - 1);
      } else {
        SmoothRound(g, limit, l);
        SmoothRounds(g, limit, l1, n - 1);
      }
    }
  }

  /** If the chains of dependencies fit and every job that can be constructed is good, the loop ends if and only if
      every job can be constructed. */
  lemma EndsIffConstructs(g: Graph, limit: nat)
    requires ValidGraph(g) && AllFit(g, limit) && GoodIfConstructed(g)
    ensures (exists n: nat :: Rounds(g, limit, Begin(g), n).exited) <==> Constructs(g)
  {
    BeginInv(g);
    EndsIffNeverStuck(g, limit);
    if n: nat :| Rounds(g, limit, Begin(g), n).exited {
      SmoothRounds(g, limit, Begin(g), n);
      SuccessNeeds(g, limit, n);
    }
    if Constructs(g) {
      Ends(g, limit);
    }
  }

  /** In particular an upgrade whose job constructors all raise never ends: not even for one module without
      dependencies, which is stuck after the first round. */
  lemma OneRaisingModule(limit: nat)
    requires limit > 0
    ensures var g := Graph([[]], [Raises]);
            && ValidGraph(g)
            && Round(g, limit, Begin(g)) == Loop([Module(false, true, true, None)], true, false)
            && Stuck(Round(g, limit, Begin(g)).s)
            && forall n: nat :: !Rounds(g, limit, Begin(g), n).exited
  {
    var g := Graph([[]], [Raises]);
    var stuck := Module(false, true, true, None);
    assert Walk(g, [NEW], 0, 0, limit - 1) == ([NEW], false);
    assert AllDone(g, [NEW], 0);
    assert [NEW][0 := stuck] == [stuck];
    assert UpgradeModule(g, [NEW], 0, limit) == ([stuck], true);
    assert Initial(g) == [NEW];
    assert StartFrom(g, [NEW], 0, limit) == ([stuck], true);
    assert [stuck][0].upgrading;
    assert Fits(g, 0, limit);
    EndsIffConstructs(g, limit);
  }
}
