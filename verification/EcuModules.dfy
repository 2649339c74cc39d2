/** The classes Module and Modules: flags that a polling loop and a recursive walk update in place. */
module EcuModules {
  import opened Prelude
  import opened Scheduler
  import opened SchedulerSafety
  import opened SchedulerTermination
  import SchedulerSuccess
  import SchedulerSchedule
  import opened ModuleConfig

  class Module {
    /** What the job of this module will do. */
    const plan: Plan
    var dependenModules: seq<Module>
    var upgradeDone: bool
    var inUpgrading: bool
    var upgradeSuccess: bool
    var upgradeJob: Option<Job>
    ghost const index: nat

    ghost function View(): Scheduler.Module
      reads this
    {
      Scheduler.Module(upgradeDone, inUpgrading, upgradeSuccess, upgradeJob)
    }

    constructor (plan: Plan, ghost index: nat)
      ensures View() == NEW && dependenModules == [] && this.plan == plan && this.index == index
    {
      this.plan, this.index := plan, index;
      dependenModules := [];
      upgradeDone, inUpgrading, upgradeSuccess, upgradeJob := false, false, true, None;
    }

    /** check_upgrade_done. */
    method CheckUpgradeDone() returns (raised: bool)
      modifies this`upgradeDone, this`inUpgrading, this`upgradeSuccess, this`upgradeJob
      ensures (View(), raised) == Check(old(View()))
    {
      raised := false;
      if inUpgrading {
        if upgradeJob.None? {
          return true;
        }
        var job := upgradeJob.value;
        if job.polls == [] {
          upgradeDone := true;
          inUpgrading := false;
          upgradeSuccess := job.succeeds;
        } else {
          upgradeJob := Some(Job(job.polls[1..], job.succeeds));
          raised := job.polls[0];
        }
      }
    }

    /** upgrade. */
    method Upgrade() returns (raised: bool)
      modifies this`inUpgrading, this`upgradeJob
      ensures (View(), raised) == Launch(plan, old(View()))
    {
      if upgradeDone || inUpgrading {
        return false;
      }
      inUpgrading := true;
      if plan.Raises? {
        return true;
      }
      upgradeJob := Some(plan.job);
      return false;
    }
  }

  /** What a loop that has come as far as module k knows. */
  datatype Flags = Flags(allDone: bool, allSucceed: bool, noneUpgrading: bool)

  ghost function FlagsOf(s: State): Flags {
    Flags(AllFinished(s), AllSucceed(s), NoneUpgrading(s))
  }

  lemma OneFurther(s: State, s1: State, k: nat, f: Flags)
    requires k < |s| == |s1| && s1 == s[k := s1[k]] && FlagsOf(s[..k]) == f
    ensures FlagsOf(s1[..k + 1])
            == Flags(f.allDone && s1[k].done, f.allSucceed && s1[k].success, f.noneUpgrading && !s1[k].upgrading)
  {
    assert s1[..k] == s[..k] && s1[..k + 1] == s1[..k] + [s1[k]];
  }

  class Modules {
    const modules: seq<Module>
    ghost const graph: Graph

    ghost function States(): (s: State)
      reads modules
      ensures |s| == |modules|
    {
      seq(|modules|, i requires 0 <= i < |modules| reads modules => modules[i].View())
    }

    ghost predicate IsModule(m: Module) {
      m.index < |modules| && modules[m.index] == m
    }

    ghost predicate Valid()
      reads modules`dependenModules
    {
      && ValidGraph(graph) && |modules| == |graph.deps|
      && (forall i :: 0 <= i < |modules| ==> modules[i].index == i && modules[i].plan == graph.plans[i])
      && (forall i :: 0 <= i < |modules| ==> |modules[i].dependenModules| == |graph.deps[i]|)
      && (forall i, j :: 0 <= i < |modules| && 0 <= j < |graph.deps[i]| ==>
            modules[i].dependenModules[j] == modules[graph.deps[i][j]])
    }

    /** The modules of a configuration, linked to the modules they depend on. */
    constructor (g: Graph)
      requires ValidGraph(g)
      ensures Valid() && graph == g && States() == Initial(g)
      ensures forall i :: 0 <= i < |modules| ==> fresh(modules[i])
    {
      var ms: seq<Module> := [];
      for i := 0 to |g.deps|
        invariant |ms| == i
        invariant forall k :: 0 <= k < i ==>
          fresh(ms[k]) && ms[k].index == k && ms[k].plan == g.plans[k] && ms[k].View() == NEW
      {
        var m := new Module(g.plans[i], i);
        ms := ms + [m];
      }
      modules, graph := ms, g;
      new;
      for i := 0 to |g.deps|
        invariant |modules| == |g.deps|
        invariant forall k :: 0 <= k < |modules| ==>
          fresh(modules[k]) && modules[k].index == k && modules[k].plan == g.plans[k] && modules[k].View() == NEW
        invariant forall k :: 0 <= k < i ==> modules[k].dependenModules == Links(modules, g.deps[k])
      {
        modules[i].dependenModules := Links(modules, g.deps[i]);
      }
    }

    static function Links(ms: seq<Module>, deps: seq<nat>): (links: seq<Module>)
      requires forall j :: 0 <= j < |deps| ==> deps[j] < |ms|
      ensures |links| == |deps| && forall j :: 0 <= j < |deps| ==> links[j] == ms[deps[j]]
    {
      seq(|deps|, j requires 0 <= j < |deps| => ms[deps[j]])
    }

    method StartModule(m: Module) returns (raised: bool)
      requires Valid() && IsModule(m)
      modifies m`inUpgrading, m`upgradeJob
      ensures Valid()
      ensures var (x, raises) := Launch(graph.plans[m.index], old(States())[m.index]);
              States() == old(States())[m.index := x] && raised == raises
    {
      assert States()[m.index] == m.View();
      raised := m.Upgrade();
    }

    /** upgrade_module; `depth` is what the interpreter's recursion limit leaves. */
    method UpgradeModule(m: Module, depth: nat) returns (raised: bool)
      requires Valid() && IsModule(m)
      modifies modules`inUpgrading, modules`upgradeJob
      ensures Valid()
      ensures (States(), raised) == Scheduler.UpgradeModule(graph, old(States()), m.index, depth)
      decreases depth, 0
    {
      if depth == 0 {
        return true;
      }
      assert States()[m.index] == m.View();
      if m.upgradeDone || m.inUpgrading {
        return false;
      }
      var allDependenDone;
      allDependenDone, raised := UpgradeDependens(m, depth - 1);
      if !raised && allDependenDone {
        raised := StartModule(m);
      }
    }

    /** The loop over the dependencies. */
    method UpgradeDependens(m: Module, depth: nat) returns (allDependenDone: bool, raised: bool)
      requires Valid() && IsModule(m)
      modifies modules`inUpgrading, modules`upgradeJob
      ensures Valid()
      ensures (States(), raised) == Walk(graph, old(States()), m.index, 0, depth)
      ensures !raised ==> (allDependenDone <==> AllDone(graph, States(), m.index))
      decreases depth, 1
    {
      allDependenDone, raised := true, false;
      var i := 0;
      while i < |m.dependenModules|
        invariant Valid() && i <= |graph.deps[m.index]|
        invariant Walk(graph, old(States()), m.index, 0, depth) == Walk(graph, States(), m.index, i, depth)
        invariant allDependenDone <==> forall j :: 0 <= j < i ==> States()[graph.deps[m.index][j]].done
      {
        var depModule := m.dependenModules[i];
        ghost var d, before := graph.deps[m.index][i], States();
        assert before[d] == depModule.View();
        if !depModule.upgradeDone {
          allDependenDone := false;
          raised := UpgradeModule(depModule, depth);
          UpgradeGrows(graph, before, d, depth);
          SameDone(graph, before, States());
          if raised {
            return;
          }
        }
        i := i + 1;
      }
    }

    /** The first loop of a round. */
    method UpgradeAll(limit: nat) returns (raised: bool)
      requires Valid()
      modifies modules`inUpgrading, modules`upgradeJob
      ensures Valid()
      ensures (States(), raised) == StartFrom(graph, old(States()), 0, limit)
    {
      raised := false;
      for k := 0 to |modules|
        invariant Valid()
        invariant StartFrom(graph, old(States()), 0, limit) == StartFrom(graph, States(), k, limit)
      {
        raised := UpgradeModule(modules[k], limit);
        if raised {
          return;
        }
      }
    }

    /** The second loop of a round, with the flags it computes on the way. */
    method CheckAll() returns (raised: bool, f: Flags)
      requires Valid()
      modifies modules`upgradeDone, modules`inUpgrading, modules`upgradeSuccess, modules`upgradeJob
      ensures Valid()
      ensures (States(), raised) == CheckFrom(old(States()), 0)
      ensures !raised ==> f == FlagsOf(States())
    {
      raised, f := false, Flags(true, true, true);
      for k := 0 to |modules|
        invariant Valid()
        invariant CheckFrom(old(States()), 0) == CheckFrom(States(), k)
        invariant FlagsOf(States()[..k]) == f
      {
        raised, f := CheckNext(k, f);
        if raised {
          return;
        }
      }
      assert States()[..|modules|] == States();
    }

    /** The k-th module is checked, and the flags go one module further. */
    method CheckNext(k: nat, f: Flags) returns (raised: bool, f1: Flags)
      requires Valid() && k < |modules| && FlagsOf(States()[..k]) == f
      modifies modules`upgradeDone, modules`inUpgrading, modules`upgradeSuccess, modules`upgradeJob
      ensures Valid()
      ensures CheckFrom(old(States()), k) == if raised then (States(), true) else CheckFrom(States(), k + 1)
      ensures FlagsOf(States()[..k + 1]) == f1
    {
      ghost var before := States();
      raised := CheckModule(modules[k]);
      OneFurther(before, States(), k, f);
      f1 := Flags(f.allDone && modules[k].upgradeDone, f.allSucceed && modules[k].upgradeSuccess,
                  f.noneUpgrading && !modules[k].inUpgrading);
    }

    method CheckModule(m: Module) returns (raised: bool)
      requires Valid() && IsModule(m)
      modifies m`upgradeDone, m`inUpgrading, m`upgradeSuccess, m`upgradeJob
      ensures Valid() && States()[m.index] == m.View()
      ensures var (x, raises) := Check(old(States())[m.index]);
              States() == old(States())[m.index := x] && raised == raises
    {
      assert States()[m.index] == m.View();
      raised := m.CheckUpgradeDone();
    }

    /** One pass of the polling loop. */
    method Pass(limit: nat, error: bool) returns (upgradeError: bool, exitUpgrade: bool)
      requires Valid()
      modifies modules`upgradeDone, modules`inUpgrading, modules`upgradeSuccess, modules`upgradeJob
      ensures Valid()
      ensures Loop(States(), upgradeError, exitUpgrade) == Round(graph, limit, Loop(old(States()), error, false))
    {
      var raised, f;
      if error {
        raised, f := CheckAll();
        return true, !raised && f.noneUpgrading;
      }
      raised := UpgradeAll(limit);
      if raised {
        return true, false;
      }
      raised, f := CheckAll();
      return raised || !f.allSucceed, !raised && f.allDone;
    }

    /** At most `budget` passes of the loop of upgrade, for any configuration and any jobs, raising ones included. */
    method UpgradeFor(limit: nat, budget: nat) returns (upgradeError: bool, exitUpgrade: bool)
      requires Valid() && States() == Initial(graph)
      modifies modules`upgradeDone, modules`inUpgrading, modules`upgradeSuccess, modules`upgradeJob
      ensures Valid()
      ensures Loop(States(), upgradeError, exitUpgrade) == Rounds(graph, limit, Begin(graph), budget)
    {
      upgradeError, exitUpgrade := false, false;
      var passes := 0;
      while !exitUpgrade && passes < budget
        invariant Valid() && passes <= budget
        invariant Loop(States(), upgradeError, exitUpgrade) == Rounds(graph, limit, Begin(graph), passes)
      {
        OneMore(graph, limit, passes);
        upgradeError, exitUpgrade := Pass(limit, upgradeError);
        passes := passes + 1;
      }
      if exitUpgrade {
        StaysFrom(graph, limit, passes, budget);
      }
    }

    /** upgrade: whether it ends without raising "upgrade failed". The loop has no bound of its own; by
        SchedulerSchedule.EndsIff it ends for exactly the configurations and jobs that are Ending. */
    method Upgrade(limit: nat) returns (succeeded: bool)
      requires Valid() && States() == Initial(graph) && SchedulerSchedule.Ending(graph, limit)
      modifies modules`upgradeDone, modules`inUpgrading, modules`upgradeSuccess, modules`upgradeJob
      ensures Valid() && NoneUpgrading(States())
      ensures succeeded <==> SchedulerSuccess.GoodJobs(graph) && SchedulerSuccess.AllFit(graph, limit)
      ensures succeeded ==> AllFinished(States()) && AllSucceed(States())
    {
      var upgradeError, exitUpgrade := false, false;
      ghost var n := 0;
      BeginInv(graph);
      while !exitUpgrade
        invariant Valid()
        invariant Inv(graph, Loop(States(), upgradeError, exitUpgrade)) && !Stuck(States())
        invariant Loop(States(), upgradeError, exitUpgrade) == Rounds(graph, limit, Begin(graph), n)
        decreases !exitUpgrade, Measure(graph, Loop(States(), upgradeError, exitUpgrade))
      {
        ghost var l := Loop(States(), upgradeError, false);
        RoundKeeps(graph, limit, l);
        RoundDrops(graph, limit, l);
        OneMore(graph, limit, n);
        SchedulerSchedule.EndingNeverStuck(graph, limit, n + 1);
        upgradeError, exitUpgrade := Pass(limit, upgradeError);
        n := n + 1;
      }
      SchedulerSuccess.SucceedsIff(graph, limit);
      SchedulerSuccess.OutcomeIsFinal(graph, limit, n);
      return !upgradeError;
    }
  }

  /** Modules(json_config): the linked modules, or None where it raises. */
  method LoadModules(entries: seq<Entry>) returns (r: Option<Modules>)
    ensures r.None? <==> Configure(entries).None?
    ensures r.Some? ==>
              && fresh(r.value) && r.value.Valid() && r.value.States() == Initial(r.value.graph)
              && r.value.graph == Configure(entries).value
  {
    ConfiguredIff(entries);
    var g := Configure(entries);
    if g.None? {
      return None;
    }
    var m := new Modules(g.value);
    return Some(m);
  }
}
