/** What every run of the scheduler keeps: dependencies first, no start after an error, no exit while a job runs. */
module SchedulerSafety {
  import opened Scheduler

  // ----- the start phase

  /** s1 is s with some waiting modules started, all of whose dependencies were done. */
  ghost predicate Grown(g: Graph, s: State, s1: State) {
    && Fit(g, s) && |s1| == |s|
    && forall k :: 0 <= k < |s| ==>
         s1[k] == s[k] || (!Started(s[k]) && AllDone(g, s, k) && s1[k] == Launch(g.plans[k], s[k]).0)
  }

  lemma SameDone(g: Graph, s: State, s1: State)
    requires Grown(g, s, s1)
    ensures forall k :: 0 <= k < |s| ==> s1[k].done == s[k].done
    ensures forall k :: 0 <= k < |s| ==> AllDone(g, s1, k) == AllDone(g, s, k)
  {
  }

  lemma GrownTwice(g: Graph, s: State, s1: State, s2: State)
    requires Grown(g, s, s1) && Grown(g, s1, s2)
    ensures Grown(g, s, s2)
  {
    SameDone(g, s, s1);
  }

  lemma {:induction false} UpgradeGrows(g: Graph, s: State, m: nat, depth: nat)
    requires Fit(g, s) && m < |s|
    ensures Grown(g, s, UpgradeModule(g, s, m, depth).0)
    decreases depth, 0
  {
    if depth > 0 && !Started(s[m]) {
      WalkGrows(g, s, m, 0, depth - 1);
      var (s1, raised) := Walk(g, s, m, 0, depth - 1);
      if !raised && AllDone(g, s1, m) {
        GrownTwice(g, s, s1, s1[m := Launch(g.plans[m], s1[m]).0]);
      }
    }
  }

  lemma {:induction false} WalkGrows(g: Graph, s: State, m: nat, i: nat, depth: nat)
    requires Fit(g, s) && m < |s| && i <= |g.deps[m]|
    ensures Grown(g, s, Walk(g, s, m, i, depth).0)
    decreases depth, |g.deps[m]| - i + 1
  {
    if i < |g.deps[m]| {
      if s[g.deps[m][i]].done {
        WalkGrows(g, s, m, i + 1, depth);
      } else {
        var (s1, raised) := UpgradeModule(g, s, g.deps[m][i], depth);
        UpgradeGrows(g, s, g.deps[m][i], depth);
        if !raised {
          WalkGrows(g, s1, m, i + 1, depth);
          GrownTwice(g, s, s1, Walk(g, s1, m, i + 1, depth).0);
        }
      }
    }
  }

  lemma {:induction false} StartGrows(g: Graph, s: State, m: nat, limit: nat)
    requires Fit(g, s) && m <= |s|
    ensures Grown(g, s, StartFrom(g, s, m, limit).0)
    decreases |s| - m
  {
    if m < |s| {
      var (s1, raised) := UpgradeModule(g, s, m, limit);
      UpgradeGrows(g, s, m, limit);
      if !raised {
        StartGrows(g, s1, m + 1, limit);
        GrownTwice(g, s, s1, StartFrom(g, s1, m + 1, limit).0);
      }
    }
  }

  // ----- the check phase

  /** s1 is s with some modules checked once. */
  ghost predicate Checked(s: State, s1: State) {
    && |s1| == |s|
    && forall k :: 0 <= k < |s| ==> s1[k] == s[k] || s1[k] == Check(s[k]).0
  }

  lemma {:induction false} CheckFromChecks(s: State, m: nat)
    requires m <= |s|
    ensures Checked(s, CheckFrom(s, m).0) && CheckFrom(s, m).0[..m] == s[..m]
    ensures !CheckFrom(s, m).1 ==>
              forall k :: m <= k < |s| ==> CheckFrom(s, m).0[k] == Check(s[k]).0 && !Check(s[k]).1
    decreases |s| - m
  {
    if m < |s| {
      var (x, raised) := Check(s[m]);
      var s1 := s[m := x];
      if !raised {
        CheckFromChecks(s1, m + 1);
        var s2 := CheckFrom(s1, m + 1).0;
        assert forall k :: 0 <= k <= m ==> s2[k] == s2[..m + 1][k] == s1[k];
      }
    }
  }

  // ----- the invariant

  /** A module that has started has all its dependencies done and successful; a waiting module is untouched; without
      an error every module is successful so far. */
  ghost predicate Inv(g: Graph, l: Loop) {
    && Fit(g, l.s)
    && (forall k :: 0 <= k < |l.s| ==> !(l.s[k].done && l.s[k].upgrading))
    && (forall k :: 0 <= k < |l.s| ==> Started(l.s[k]) || l.s[k] == NEW)
    && (forall k :: 0 <= k < |l.s| && Started(l.s[k]) ==> Served(g, l.s, k))
    && (!l.error ==> AllSucceed(l.s))
    && (l.exited ==> NoneUpgrading(l.s) && (l.error || AllFinished(l.s)))
  }

  ghost predicate Served(g: Graph, s: State, m: nat)
    requires Fit(g, s) && m < |s|
  {
    forall i :: 0 <= i < |g.deps[m]| ==> s[g.deps[m][i]].done && s[g.deps[m][i]].success
  }

  lemma GrownKeeps(g: Graph, l: Loop, s1: State, error: bool)
    requires Inv(g, l) && !l.error && !l.exited && Grown(g, l.s, s1)
    ensures Inv(g, Loop(s1, error, false))
  {
    SameDone(g, l.s, s1);
    forall k | 0 <= k < |s1| && Started(s1[k]) ensures Served(g, s1, k) {
      if s1[k] == l.s[k] {
        assert Served(g, l.s, k);
      } else {
        assert AllDone(g, l.s, k);
      }
    }
  }

  lemma CheckedKeeps(g: Graph, l: Loop, s1: State, error: bool, exited: bool)
    requires Inv(g, l) && !l.exited && Checked(l.s, s1)
    requires !error ==> AllSucceed(s1)
    requires exited ==> NoneUpgrading(s1) && (error || AllFinished(s1))
    ensures Inv(g, Loop(s1, error, exited))
  {
    forall k | 0 <= k < |s1| && Started(s1[k]) ensures Served(g, s1, k) {
      assert Served(g, l.s, k);
    }
  }

  lemma FinishedAreIdle(g: Graph, l: Loop, s1: State)
    requires Inv(g, l) && Checked(l.s, s1) && AllFinished(s1)
    ensures NoneUpgrading(s1)
  {
  }

  lemma RoundKeeps(g: Graph, limit: nat, l: Loop)
    requires Inv(g, l)
    ensures Inv(g, Round(g, limit, l))
  {
    if l.exited {
    } else if l.error {
      CheckFromChecks(l.s, 0);
      var (s1, raised) := CheckFrom(l.s, 0);
      CheckedKeeps(g, l, s1, true, !raised && NoneUpgrading(s1));
    } else {
      StartGrows(g, l.s, 0, limit);
      var (s1, raised) := StartFrom(g, l.s, 0, limit);
      GrownKeeps(g, l, s1, raised);
      if !raised {
        CheckFromChecks(s1, 0);
        var (s2, raises) := CheckFrom(s1, 0);
        var l1 := Loop(s1, false, false);
        if AllFinished(s2) {
          FinishedAreIdle(g, l1, s2);
        }
        CheckedKeeps(g, l1, s2, raises || !AllSucceed(s2), !raises && AllFinished(s2));
      }
    }
  }

  lemma {:induction false} RoundsKeep(g: Graph, limit: nat, l: Loop, n: nat)
    requires Inv(g, l)
    ensures Inv(g, Rounds(g, limit, l, n))
    decreases n
  {
    if n > 0 {
      RoundKeeps(g, limit, l);
      RoundsKeep(g, limit, Round(g, limit, l), n - 1);
    }
  }

  lemma BeginInv(g: Graph)
    requires ValidGraph(g)
    ensures Inv(g, Begin(g))
  {
  }

  // ----- main results

  /** A chain of dependencies. */
  ghost predicate Chain(g: Graph, path: seq<nat>)
    requires ValidGraph(g)
  {
    && path != [] && path[0] < |g.deps|
    && forall i :: 0 <= i < |path| - 1 ==> path[i] < |g.deps| && path[i + 1] in g.deps[path[i]]
  }

  lemma {:induction false} ChainServed(g: Graph, l: Loop, path: seq<nat>)
    requires Inv(g, l) && Chain(g, path) && |path| > 1 && Started(l.s[path[0]])
    ensures var last := path[|path| - 1]; last < |l.s| && l.s[last].done && l.s[last].success
    decreases |path|
  {
    assert Served(g, l.s, path[0]);
    var i :| 0 <= i < |g.deps[path[0]]| && g.deps[path[0]][i] == path[1];
    if |path| > 2 {
      assert forall i :: 0 <= i < |path| - 1 ==> path[1..][i] == path[i + 1];
      ChainServed(g, l, path[1..]);
    }
  }

  /** In every state of every run, on every graph: each direct or indirect dependency of a module that is upgrading
      or done is done and successful; and the loop exits only if no job is running, without an error only if every
      module is done and successful. */
  lemma DependenciesFirst(g: Graph, limit: nat, n: nat)
    requires ValidGraph(g)
    ensures var l := Rounds(g, limit, Begin(g), n);
            && (forall path :: Chain(g, path) && |path| > 1 && Started(l.s[path[0]]) ==>
                  var last := path[|path| - 1]; last < |l.s| && l.s[last].done && l.s[last].success)
            && (l.exited ==> NoneUpgrading(l.s))
            && (l.exited && !l.error ==> AllFinished(l.s) && AllSucceed(l.s))
  {
    BeginInv(g);
    RoundsKeep(g, limit, Begin(g), n);
    var l := Rounds(g, limit, Begin(g), n);
    forall path | Chain(g, path) && |path| > 1 && Started(l.s[path[0]])
      ensures var last := path[|path| - 1]; last < |l.s| && l.s[last].done && l.s[last].success
    {
      ChainServed(g, l, path);
    }
  }

  /** A round takes no module back: what is done stays as it is, what has started stays started, and once an error is
      recorded nothing starts. Hence every module starts at most once. */
  lemma RoundOnlyAdvances(g: Graph, limit: nat, l: Loop, k: nat)
    requires Inv(g, l) && k < |l.s|
    ensures var l1 := Round(g, limit, l);
            && (l.s[k].done ==> l1.s[k] == l.s[k])
            && (Started(l.s[k]) ==> Started(l1.s[k]))
            && (l.error ==> l1.error && (!Started(l.s[k]) ==> l1.s[k] == l.s[k]))
  {
    if l.exited {
    } else if l.error {
      CheckFromChecks(l.s, 0);
    } else {
      StartGrows(g, l.s, 0, limit);
      CheckFromChecks(StartFrom(g, l.s, 0, limit).0, 0);
    }
  }
}
