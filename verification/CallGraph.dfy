/** Which functions of a package check a module, in their own body or in any function they call, however deep. */
module CallGraph {

  /** The bodies of a package's functions, and the two text searches over them. */
  datatype Package = Package(bodies: map<string, string>, checks: string -> bool, mentions: (string, string) -> bool) {

    /** Whether a function checks a module in its own body. */
    predicate ChecksItself(f: string) {
      f in bodies && checks(bodies[f])
    }

    /** Whether a function calls another of the package. */
    predicate Calls(f: string, g: string) {
      f in bodies && g in bodies && f != g && mentions(bodies[f], g)
    }

    /** A chain of calls from the first function to the last. */
    predicate IsChain(path: seq<string>) {
      forall i :: 0 <= i < |path| - 1 ==> Calls(path[i], path[i + 1])
    }

    /** Whether a body with a module check can be reached from a function. */
    ghost predicate Reaches(f: string) {
      exists path :: path != [] && path[0] == f && IsChain(path) && ChecksItself(path[|path| - 1])
    }
  }

  lemma ReachesThrough(p: Package, f: string, g: string)
    requires p.Calls(f, g) && p.Reaches(g)
    ensures p.Reaches(f)
  {
    var path :| path != [] && path[0] == g && p.IsChain(path) && p.ChecksItself(path[|path| - 1]);
    var longer := [f] + path;
    assert forall i :: 0 <= i < |longer| - 1 ==> p.Calls(longer[i], longer[i + 1]);
    assert longer[0] == f && longer[|longer| - 1] == path[|path| - 1];
  }

  lemma ReachesItself(p: Package, f: string)
    requires p.ChecksItself(f)
    ensures f in p.bodies && p.Reaches(f)
  {
    assert [f][0] == f && p.IsChain([f]);
  }

  /** Mentions from the first function to the last, whose body checks; a function may mention itself. */
  predicate LeadsToCheck(p: Package, path: seq<string>) {
    path != [] && (forall i :: 0 <= i < |path| ==> path[i] in p.bodies) &&
    (forall i :: 0 <= i < |path| - 1 ==> p.mentions(p.bodies[path[i]], path[i + 1])) &&
    p.checks(p.bodies[path[|path| - 1]])
  }

  lemma {:induction false} LeadingReaches(p: Package, path: seq<string>)
    requires LeadsToCheck(p, path)
    ensures p.Reaches(path[0])
  {
    if |path| == 1 {
      ReachesItself(p, path[0]);
    } else {
      var rest := path[1..];
      forall i | 0 <= i < |rest| - 1 ensures p.mentions(p.bodies[rest[i]], rest[i + 1]) {
        assert rest[i] == path[i + 1] && rest[i + 1] == path[i + 2];
      }
      LeadingReaches(p, rest);
      if path[0] != path[1] {
        ReachesThrough(p, path[0], path[1]);
      }
    }
  }

  /** Leaving out that a function calls itself loses nothing: what is reached is what any mentions lead to. */
  lemma ReachesExactly(p: Package, f: string)
    ensures p.Reaches(f) <==> exists path :: LeadsToCheck(p, path) && path[0] == f
  {
    if p.Reaches(f) {
      var path :| path != [] && path[0] == f && p.IsChain(path) && p.ChecksItself(path[|path| - 1]);
      forall i | 0 <= i < |path| ensures path[i] in p.bodies {
        if i < |path| - 1 {
          assert p.Calls(path[i], path[i + 1]);
        }
      }
      assert LeadsToCheck(p, path);
    }
    if path :| LeadsToCheck(p, path) && path[0] == f {
      LeadingReaches(p, path);
    }
  }

  /**
   * A set that has every function that checks, and every caller of one it has, has every function that reaches a
   * check.
   */
  lemma {:induction false} ClosedHasChain(p: Package, checked: set<string>, path: seq<string>)
    requires forall f :: p.ChecksItself(f) ==> f in checked
    requires forall f, g :: p.Calls(f, g) && g in checked ==> f in checked
    requires path != [] && p.IsChain(path) && p.ChecksItself(path[|path| - 1])
    ensures path[0] in checked
  {
    if |path| > 1 {
      assert p.Calls(path[0], path[1]);
      assert forall i :: 0 <= i < |path[1..]| - 1 ==> p.Calls(path[1..][i], path[1..][i + 1]) by {
        forall i | 0 <= i < |path[1..]| - 1 ensures p.Calls(path[1..][i], path[1..][i + 1]) {
          assert p.Calls(path[i + 1], path[i + 2]);
        }
      }
      ClosedHasChain(p, checked, path[1..]);
    }
  }

  /** The functions called from each body, collected in whatever order the maps are iterated. */
  method CollectCalls(p: Package) returns (calls: map<string, seq<string>>)
    ensures forall f, g :: p.Calls(f, g) <==> f in calls && g in calls[f]
  {
    calls := map[];
    var names := p.bodies.Keys;
    while names != {}
      invariant names <= p.bodies.Keys
      invariant forall f, g :: f in calls && g in calls[f] <==> f !in names && p.Calls(f, g)
    {
      var name :| name in names;
      names := names - {name};
      var callees: seq<string> := [];
      var others := p.bodies.Keys;
      while others != {}
        invariant others <= p.bodies.Keys
        invariant forall g :: g in callees <==> g !in others && p.Calls(name, g)
      {
        var callee :| callee in others;
        others := others - {callee};
        if callee != name && p.mentions(p.bodies[name], callee) {
          callees := callees + [callee];
        }
      }
      calls := calls[name := callees];
    }
  }

  method CollectChecks(p: Package) returns (checked: set<string>)
    ensures forall f :: f in checked <==> p.ChecksItself(f)
  {
    checked := {};
    var names := p.bodies.Keys;
    while names != {}
      invariant names <= p.bodies.Keys
      invariant forall f :: f in checked <==> f !in names && p.ChecksItself(f)
    {
      var name :| name in names;
      names := names - {name};
      if p.checks(p.bodies[name]) {
        checked := checked + {name};
      }
    }
  }

  /** One pass over the calls: callers of a marked function are marked. */
  method Pass(p: Package, calls: map<string, seq<string>>, start: set<string>)
    returns (checked: set<string>, grew: bool)
    requires forall f, g :: p.Calls(f, g) <==> f in calls && g in calls[f]
    requires start <= p.bodies.Keys && forall f :: f in start ==> p.Reaches(f)
    ensures start <= checked <= p.bodies.Keys && forall f :: f in checked ==> p.Reaches(f)
    ensures forall f :: f in checked && f !in start ==> exists g :: p.Calls(f, g) && g in checked
    ensures grew ==> start < checked
    ensures !grew ==> checked == start && forall f, g :: p.Calls(f, g) && g in checked ==> f in checked
  {
    hide Package.Reaches, Package.Calls;
    checked, grew := start, false;
    var names := calls.Keys;
    while names != {}
      invariant names <= calls.Keys && start <= checked <= p.bodies.Keys
      invariant forall f :: f in checked ==> p.Reaches(f)
      invariant forall f :: f in checked && f !in start ==> exists g :: p.Calls(f, g) && g in checked
      invariant if grew then start < checked else checked == start
      invariant !grew ==> forall f, g :: f in calls && f !in names && g in calls[f] && g in checked ==> f in checked
    {
      var name :| name in names;
      names := names - {name};
      if name in checked {
        continue;
      }
      var i := 0;
      while i < |calls[name]|
        invariant 0 <= i <= |calls[name]|
        invariant forall k :: 0 <= k < i ==> calls[name][k] !in checked
      {
        if calls[name][i] in checked {
          assert p.Calls(name, calls[name][i]);
          ReachesThrough(p, name, calls[name][i]);
          CallerHasBody(p, name, calls[name][i]);
          checked, grew := checked + {name}, true;
          break;
        }
        i := i + 1;
      }
    }
  }

  lemma CallerHasBody(p: Package, f: string, g: string)
    requires p.Calls(f, g)
    ensures f in p.bodies
  {}

  /** The passes end, and mark exactly the functions from which a body with a module check can be reached. */
  method ModuleChecker(p: Package) returns (checked: set<string>)
    ensures forall f :: f in checked <==> p.Reaches(f)
  {
    hide Package.Reaches, Package.Calls, Package.ChecksItself;
    var calls := CollectCalls(p);
    checked := CollectChecks(p);
    forall f | f in checked ensures f in p.bodies && p.Reaches(f) {
      ReachesItself(p, f);
    }
    var grew := true;
    while grew
      invariant checked <= p.bodies.Keys && forall f :: f in checked ==> p.Reaches(f)
      invariant forall f :: p.ChecksItself(f) ==> f in checked
      invariant !grew ==> forall f, g :: p.Calls(f, g) && g in checked ==> f in checked
      decreases p.bodies.Keys - checked, grew
    {
      checked, grew := Pass(p, calls, checked);
    }
    forall f | p.Reaches(f) ensures f in checked {
      InClosed(p, checked, f);
    }
  }

  lemma InClosed(p: Package, checked: set<string>, f: string)
    requires forall g :: p.ChecksItself(g) ==> g in checked
    requires forall g, h :: p.Calls(g, h) && h in checked ==> g in checked
    requires p.Reaches(f)
    ensures f in checked
  {
    var path :| path != [] && path[0] == f && p.IsChain(path) && p.ChecksItself(path[|path| - 1]);
    ClosedHasChain(p, checked, path);
  }
}
