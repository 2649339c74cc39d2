/** The configuration of the scheduler: a dictionary of modules by name, and their dependencies by name. */
module ModuleConfig {
  import opened Prelude
  import opened Scheduler

  /** An entry of the configuration, with what the job of the module will do. */
  datatype Entry = Entry(name: string, dependens: seq<string>, plan: Plan)

  function IndexOf(d: seq<Entry>, name: string): (r: Option<nat>)
    ensures r.Some? ==> r.value < |d| && d[r.value].name == name
    ensures r.None? ==> forall i :: 0 <= i < |d| ==> d[i].name != name
    decreases |d|
  {
    if d == [] then None
    else if d[|d| - 1].name == name then Some(|d| - 1)
    else IndexOf(d[..|d| - 1], name)
  }

  /** A new name goes to the end of a dictionary; a repeated one keeps its place and takes the later value. */
  function Put(d: seq<Entry>, e: Entry): seq<Entry> {
    match IndexOf(d, e.name)
    case Some(i) => d[i := e]
    case None => d + [e]
  }

  function Dictionary(entries: seq<Entry>): seq<Entry>
    decreases |entries|
  {
    if entries == [] then [] else Put(Dictionary(entries[..|entries| - 1]), entries[|entries| - 1])
  }

  ghost predicate Distinct(d: seq<Entry>) {
    forall i, j :: 0 <= i < j < |d| ==> d[i].name != d[j].name
  }

  predicate Known(d: seq<Entry>, name: string) {
    IndexOf(d, name).Some?
  }

  /** The modules behind the names, without the module's own name; None for an unknown name. */
  function Resolve(d: seq<Entry>, own: string, names: seq<string>): (r: Option<seq<nat>>)
    decreases |names|
  {
    if names == [] then Some([])
    else
      match IndexOf(d, names[0])
      case None => None
      case Some(i) =>
        match Resolve(d, own, names[1..])
        case None => None
        case Some(rest) => Some(if names[0] == own then rest else [i] + rest)
  }

  /** The dependencies of the modules from the m-th on. */
  function ResolveAll(d: seq<Entry>, m: nat): (r: Option<seq<seq<nat>>>)
    requires m <= |d|
    decreases |d| - m
  {
    if m == |d| then Some([])
    else
      match Resolve(d, d[m].name, d[m].dependens)
      case None => None
      case Some(deps) =>
        match ResolveAll(d, m + 1)
        case None => None
        case Some(rest) => Some([deps] + rest)
  }

  /** The graph of a configuration, or None where the constructor of Modules raises. */
  function Configure(entries: seq<Entry>): Option<Graph> {
    var d := Dictionary(entries);
    match ResolveAll(d, 0)
    case None => None
    case Some(deps) => Some(Graph(deps, seq(|d|, i requires 0 <= i < |d| => d[i].plan)))
  }

  // ----- what the dictionary and the graph are

  lemma PutPuts(d: seq<Entry>, e: Entry)
    requires Distinct(d)
    ensures Distinct(Put(d, e)) && |d| <= |Put(d, e)|
    ensures exists i :: 0 <= i < |Put(d, e)| && Put(d, e)[i] == e
    ensures forall i :: 0 <= i < |d| && d[i].name != e.name ==> Put(d, e)[i] == d[i]
    ensures forall i :: 0 <= i < |Put(d, e)| ==>
              Put(d, e)[i] == e || (i < |d| && Put(d, e)[i] == d[i] && d[i].name != e.name)
  {
    var r := Put(d, e);
    assert r[if IndexOf(d, e.name).Some? then IndexOf(d, e.name).value else |d|] == e;
  }

  /** Entry e is the last one of its name. */
  ghost predicate IsLast(entries: seq<Entry>, e: Entry) {
    exists i :: 0 <= i < |entries| && entries[i] == e && forall j :: i < j < |entries| ==> entries[j].name != e.name
  }

  ghost predicate Listed(d: seq<Entry>, name: string) {
    exists i :: 0 <= i < |d| && d[i].name == name
  }

  lemma PutListed(d: seq<Entry>, e: Entry, name: string)
    requires Distinct(d) && (Listed(d, name) || name == e.name)
    ensures Listed(Put(d, e), name)
  {
    PutPuts(d, e);
    var r := Put(d, e);
    if name == e.name {
      var i :| 0 <= i < |r| && r[i] == e;
      assert r[i].name == name;
    } else {
      var i :| 0 <= i < |d| && d[i].name == name;
      assert r[i].name == name;
    }
  }

  lemma StillLast(entries: seq<Entry>, e: Entry)
    requires entries != [] && IsLast(entries[..|entries| - 1], e) && entries[|entries| - 1].name != e.name
    ensures IsLast(entries, e)
  {
    var init := entries[..|entries| - 1];
    var i :| 0 <= i < |init| && init[i] == e && forall j :: i < j < |init| ==> init[j].name != e.name;
    assert entries[i] == e && forall j :: i < j < |init| ==> entries[j] == init[j];
  }

  /** One more entry: every name is listed, and every value is the last of its name. */
  lemma PutIsIt(entries: seq<Entry>, d: seq<Entry>, e: Entry)
    requires Distinct(d) && (forall i :: 0 <= i < |entries| ==> Listed(d, entries[i].name))
    requires forall i :: 0 <= i < |d| ==> IsLast(entries, d[i])
    ensures forall i :: 0 <= i < |entries| ==> Listed(Put(d, e), entries[i].name)
    ensures Listed(Put(d, e), e.name)
    ensures forall i :: 0 <= i < |Put(d, e)| ==> IsLast(entries + [e], Put(d, e)[i])
  {
    PutPuts(d, e);
    forall i | 0 <= i < |entries| ensures Listed(Put(d, e), entries[i].name) {
      PutListed(d, e, entries[i].name);
    }
    PutListed(d, e, e.name);
    var r, more := Put(d, e), entries + [e];
    assert more[|entries|] == e && more[..|more| - 1] == entries;
    forall i | 0 <= i < |r| ensures IsLast(more, r[i]) {
      if r[i] != e {
        StillLast(more, r[i]);
      }
    }
  }

  /** The dictionary has each name of the configuration once, with its last entry. */
  lemma {:induction false} DictionaryIsIt(entries: seq<Entry>)
    ensures Distinct(Dictionary(entries))
    ensures forall i :: 0 <= i < |entries| ==> Listed(Dictionary(entries), entries[i].name)
    ensures forall i :: 0 <= i < |Dictionary(entries)| ==> IsLast(entries, Dictionary(entries)[i])
    decreases |entries|
  {
    if entries != [] {
      var init, e := entries[..|entries| - 1], entries[|entries| - 1];
      DictionaryIsIt(init);
      PutPuts(Dictionary(init), e);
      PutIsIt(init, Dictionary(init), e);
      assert entries == init + [e];
    }
  }

  function Others(own: string, names: seq<string>): seq<string> {
    if names == [] then [] else (if names[0] == own then [] else [names[0]]) + Others(own, names[1..])
  }

  /** The names of the modules that a module depends on. */
  ghost predicate Named(d: seq<Entry>, deps: seq<nat>, names: seq<string>) {
    |deps| == |names| && forall i :: 0 <= i < |deps| ==> deps[i] < |d| && d[deps[i]].name == names[i]
  }

  lemma {:induction false} ResolvedIff(d: seq<Entry>, own: string, names: seq<string>)
    ensures Resolve(d, own, names).None? <==> exists i :: 0 <= i < |names| && !Known(d, names[i])
    decreases |names|
  {
    if names != [] {
      var rest := names[1..];
      ResolvedIff(d, own, rest);
      if i :| 0 <= i < |names| && !Known(d, names[i]) {
        assert i > 0 ==> !Known(d, rest[i - 1]);
      }
      if i :| 0 <= i < |rest| && !Known(d, rest[i]) {
        assert !Known(d, names[i + 1]);
      }
    }
  }

  lemma NamedMore(d: seq<Entry>, i: nat, deps: seq<nat>, names: seq<string>)
    requires i < |d| && Named(d, deps, names)
    ensures Named(d, [i] + deps, [d[i].name] + names)
  {
  }

  lemma {:induction false} ResolvedNames(d: seq<Entry>, own: string, names: seq<string>)
    requires Resolve(d, own, names).Some?
    ensures Named(d, Resolve(d, own, names).value, Others(own, names))
    decreases |names|
  {
    if names != [] {
      var rest, i := names[1..], IndexOf(d, names[0]).value;
      ResolvedNames(d, own, rest);
      if names[0] == own {
        assert [] + Others(own, rest) == Others(own, rest);
      } else {
        NamedMore(d, i, Resolve(d, own, rest).value, Others(own, rest));
      }
    }
  }

  ghost predicate Unknown(d: seq<Entry>, m: nat)
    requires m < |d|
  {
    exists i :: 0 <= i < |d[m].dependens| && !Known(d, d[m].dependens[i])
  }

  ghost predicate SomeUnknown(d: seq<Entry>, m: nat) {
    exists k: nat :: m <= k < |d| && Unknown(d, k)
  }

  lemma {:induction false} ResolvedAll(d: seq<Entry>, m: nat)
    requires m <= |d|
    ensures ResolveAll(d, m).None? <==> SomeUnknown(d, m)
    ensures ResolveAll(d, m).Some? ==>
              var deps := ResolveAll(d, m).value;
              && |deps| == |d| - m
              && forall k :: m <= k < |d| ==> Named(d, deps[k - m], Others(d[k].name, d[k].dependens))
    decreases |d| - m
  {
    if m < |d| {
      ResolvedIff(d, d[m].name, d[m].dependens);
      ResolvedAll(d, m + 1);
      assert Resolve(d, d[m].name, d[m].dependens).None? <==> Unknown(d, m);
      if ResolveAll(d, m).Some? {
        AllNamed(d, m);
      }
    }
  }

  lemma AllNamed(d: seq<Entry>, m: nat)
    requires m < |d| && ResolveAll(d, m).Some? && ResolveAll(d, m + 1).Some?
    requires var rest := ResolveAll(d, m + 1).value;
             && |rest| == |d| - m - 1
             && forall k :: m < k < |d| ==> Named(d, rest[k - m - 1], Others(d[k].name, d[k].dependens))
    ensures var deps := ResolveAll(d, m).value;
            && |deps| == |d| - m
            && forall k :: m <= k < |d| ==> Named(d, deps[k - m], Others(d[k].name, d[k].dependens))
  {
    ResolvedNames(d, d[m].name, d[m].dependens);
    var deps, rest := ResolveAll(d, m).value, ResolveAll(d, m + 1).value;
    forall k | m <= k < |d| ensures Named(d, deps[k - m], Others(d[k].name, d[k].dependens)) {
      if k > m {
        assert deps[k - m] == rest[k - m - 1];
      }
    }
  }

  lemma {:induction false} OthersAreOthers(own: string, names: seq<string>)
    ensures forall i :: 0 <= i < |Others(own, names)| ==> Others(own, names)[i] != own
    decreases |names|
  {
    if names != [] {
      OthersAreOthers(own, names[1..]);
    }
  }

  /** What a graph says about the modules of dictionary d. */
  ghost predicate Describes(d: seq<Entry>, g: Graph) {
    && ValidGraph(g) && |g.deps| == |d|
    && forall k :: 0 <= k < |d| ==>
         g.plans[k] == d[k].plan && Named(d, g.deps[k], Others(d[k].name, d[k].dependens))
  }

  lemma ConfiguredDescribes(entries: seq<Entry>)
    requires Configure(entries).Some?
    ensures Describes(Dictionary(entries), Configure(entries).value)
  {
    var d := Dictionary(entries);
    ResolvedAll(d, 0);
    var deps := ResolveAll(d, 0).value;
    forall k | 0 <= k < |d| ensures Named(d, deps[k], Others(d[k].name, d[k].dependens)) {
      assert deps[k - 0] == deps[k];
    }
    NamedIsValid(d, Configure(entries).value);
  }

  /** The constructor of Modules raises exactly if some module of the dictionary depends on an unknown name; otherwise
      every module depends, in order, on the modules it names, but not on itself. */
  lemma ConfiguredIff(entries: seq<Entry>)
    ensures Configure(entries).None? <==> SomeUnknown(Dictionary(entries), 0)
    ensures Configure(entries).Some? ==> Describes(Dictionary(entries), Configure(entries).value)
  {
    ResolvedAll(Dictionary(entries), 0);
    if Configure(entries).Some? {
      ConfiguredDescribes(entries);
    }
  }

  lemma NamedIsValid(d: seq<Entry>, g: Graph)
    requires |g.deps| == |g.plans| == |d|
    requires forall k :: 0 <= k < |d| ==> Named(d, g.deps[k], Others(d[k].name, d[k].dependens))
    ensures ValidGraph(g)
  {
    forall m, i | 0 <= m < |d| && 0 <= i < |g.deps[m]| ensures g.deps[m][i] < |g.deps| && g.deps[m][i] != m {
      OthersAreOthers(d[m].name, d[m].dependens);
    }
  }
}
