/** The module upgrade scheduler as functions on values: the recursive walk over dependencies and the rounds of the
    polling loop. */
module Scheduler {
  import opened Prelude

  /** A job as the scheduler sees it: the answers of is_running while it runs (does the call raise?), then its
      success. */
  datatype Job = Job(polls: seq<bool>, succeeds: bool)

  /** What the job constructor does for a module. */
  datatype Plan = Raises | Starts(job: Job)

  /** Module: upgrade_done, in_upgrading, upgrade_success, upgrade_job. */
  datatype Module = Module(done: bool, upgrading: bool, success: bool, job: Option<Job>)

  /** dependen_modules of every module, in the order of the configuration, and what its job will do. */
  datatype Graph = Graph(deps: seq<seq<nat>>, plans: seq<Plan>)

  type State = seq<Module>

  /** Dependencies are modules, and a module's dependency on itself has been dropped. */
  ghost predicate ValidGraph(g: Graph) {
    && |g.plans| == |g.deps|
    && forall m, i :: 0 <= m < |g.deps| && 0 <= i < |g.deps[m]| ==> g.deps[m][i] < |g.deps| && g.deps[m][i] != m
  }

  ghost predicate Fit(g: Graph, s: State) {
    ValidGraph(g) && |s| == |g.deps|
  }

  const NEW := Module(false, false, true, None)

  function Initial(g: Graph): (s: State)
    ensures |s| == |g.deps|
  {
    seq(|g.deps|, _ => NEW)
  }

  predicate Started(x: Module) {
    x.done || x.upgrading
  }

  // ----- starting

  predicate AllDone(g: Graph, s: State, m: nat)
    requires Fit(g, s) && m < |s|
  {
    forall i :: 0 <= i < |g.deps[m]| ==> s[g.deps[m][i]].done
  }

  /** Module.upgrade: the module after it, and whether the job constructor raised. */
  function Launch(p: Plan, x: Module): (r: (Module, bool)) {
    if Started(x) then (x, false)
    else if p.Raises? then (x.(upgrading := true), true)
    else (x.(upgrading := true, job := Some(p.job)), false)
  }

  /** Modules.upgrade_module within `depth` nested calls: the state after it, and whether it raised. One call too
      many is Python's RecursionError. */
  function UpgradeModule(g: Graph, s: State, m: nat, depth: nat): (r: (State, bool))
    requires Fit(g, s) && m < |s|
    ensures |r.0| == |s|
    decreases depth, 0
  {
    if depth == 0 then (s, true)
    else if Started(s[m]) then (s, false)
    else
      var (s1, raised) := Walk(g, s, m, 0, depth - 1);
      if raised then (s1, true)
      else if AllDone(g, s1, m) then
        var (x, raises) := Launch(g.plans[m], s1[m]);
        (s1[m := x], raises)
      else (s1, false)
  }

  /** The loop over the dependencies of m, from the i-th on. */
  function Walk(g: Graph, s: State, m: nat, i: nat, depth: nat): (r: (State, bool))
    requires Fit(g, s) && m < |s| && i <= |g.deps[m]|
    ensures |r.0| == |s|
    decreases depth, |g.deps[m]| - i + 1
  {
    if i == |g.deps[m]| then (s, false)
    else if s[g.deps[m][i]].done then Walk(g, s, m, i + 1, depth)
    else
      var (s1, raised) := UpgradeModule(g, s, g.deps[m][i], depth);
      if raised then (s1, true) else Walk(g, s1, m, i + 1, depth)
  }

  /** `for module in self.modules.values(): self.upgrade_module(module)`, from module m on. */
  function StartFrom(g: Graph, s: State, m: nat, limit: nat): (r: (State, bool))
    requires Fit(g, s) && m <= |s|
    ensures |r.0| == |s|
    decreases |s| - m
  {
    if m == |s| then (s, false)
    else
      var (s1, raised) := UpgradeModule(g, s, m, limit);
      if raised then (s1, true) else StartFrom(g, s1, m + 1, limit)
  }

  // ----- checking

  /** Module.check_upgrade_done: the module after it, and whether it raised; without a job there is nothing to ask. */
  function Check(x: Module): (r: (Module, bool)) {
    if !x.upgrading then (x, false)
    else if x.job.None? then (x, true)
    else
      var job := x.job.value;
      if job.polls == [] then (Module(true, false, job.succeeds, x.job), false)
      else (x.(job := Some(Job(job.polls[1..], job.succeeds))), job.polls[0])
  }

  /** Checking every module from m on, as far as the first exception. */
  function CheckFrom(s: State, m: nat): (r: (State, bool))
    requires m <= |s|
    ensures |r.0| == |s|
    decreases |s| - m
  {
    if m == |s| then (s, false)
    else
      var (x, raised) := Check(s[m]);
      if raised then (s[m := x], true) else CheckFrom(s[m := x], m + 1)
  }

  // ----- the loop

  datatype Loop = Loop(s: State, error: bool, exited: bool)

  predicate AllFinished(s: State) {
    forall m :: 0 <= m < |s| ==> s[m].done
  }

  predicate AllSucceed(s: State) {
    forall m :: 0 <= m < |s| ==> s[m].success
  }

  predicate NoneUpgrading(s: State) {
    forall m :: 0 <= m < |s| ==> !s[m].upgrading
  }

  /** One pass of `while not exit_upgrade`; every exception is caught and recorded as an error. */
  function Round(g: Graph, limit: nat, l: Loop): (r: Loop)
    requires Fit(g, l.s)
    ensures |r.s| == |l.s|
  {
    if l.exited then l
    else if l.error then
      var (s1, raised) := CheckFrom(l.s, 0);
      Loop(s1, true, !raised && NoneUpgrading(s1))
    else
      var (s1, raised) := StartFrom(g, l.s, 0, limit);
      if raised then Loop(s1, true, false)
      else
        var (s2, raises) := CheckFrom(s1, 0);
        Loop(s2, raises || !AllSucceed(s2), !raises && AllFinished(s2))
  }

  function Rounds(g: Graph, limit: nat, l: Loop, n: nat): (r: Loop)
    requires Fit(g, l.s)
    ensures |r.s| == |l.s|
    decreases n
  {
    if n == 0 then l else Rounds(g, limit, Round(g, limit, l), n - 1)
  }

  function Begin(g: Graph): Loop {
    Loop(Initial(g), false, false)
  }
}
