// The worklist of scripts/ci/check-unused-code.ts that finds the modules production code keeps alive.
module ProductionReach {
  import opened Paths
  import opened ExportUsage

  // A live module keeps `to` alive: it depends on it, and `to` is no test or fixture.
  ghost function LiveHop(g: Graph, excluded: File -> bool): (File, File) -> bool {
    (from: File, to: File) =>
      from in g.dependencies && to in g.files && !excluded(to) && exists d :: d in g.dependencies[from] && d.resolved == to
  }

  predicate IsRoot(g: Graph, entry: File -> bool, excluded: File -> bool, f: File) {
    f in g.files && entry(f) && !excluded(f)
  }

  ghost predicate KeptAlive(g: Graph, entry: File -> bool, excluded: File -> bool, f: File) {
    exists root :: IsRoot(g, entry, excluded, root) && Reaches(LiveHop(g, excluded), root, f)
  }

  // The queued modules are reachable and the others have handed on what they keep alive.
  ghost predicate Searching(g: Graph, entry: File -> bool, excluded: File -> bool, reachable: set<File>, queue: seq<File>) {
    && reachable <= FileSet(g)
    && (forall f :: f in reachable ==> KeptAlive(g, entry, excluded, f))
    && (forall f :: f in queue ==> f in reachable)
    && (forall f, to :: f in reachable && f !in queue && LiveHop(g, excluded)(f, to) ==> to in reachable)
  }

  lemma RootKeptAlive(g: Graph, entry: File -> bool, excluded: File -> bool, f: File)
    requires IsRoot(g, entry, excluded, f)
    ensures KeptAlive(g, entry, excluded, f)
  {
    ReachesItself(LiveHop(g, excluded), f);
  }

  lemma KeptAliveFurther(g: Graph, entry: File -> bool, excluded: File -> bool, f: File, to: File)
    requires KeptAlive(g, entry, excluded, f) && LiveHop(g, excluded)(f, to)
    ensures KeptAlive(g, entry, excluded, to)
  {
    hide IsRoot;
    var root :| IsRoot(g, entry, excluded, root) && Reaches(LiveHop(g, excluded), root, f);
    hide LiveHop;
    ReachesFurther(LiveHop(g, excluded), root, f, to);
  }

  lemma SearchComplete(g: Graph, entry: File -> bool, excluded: File -> bool, reachable: set<File>)
    requires Searching(g, entry, excluded, reachable, [])
    requires forall f :: IsRoot(g, entry, excluded, f) ==> f in reachable
    ensures forall f :: f in reachable <==> KeptAlive(g, entry, excluded, f)
  {
    hide LiveHop, IsRoot;
    var holds := (f: File) => f in reachable;
    forall f | KeptAlive(g, entry, excluded, f)
      ensures f in reachable
    {
      var root :| IsRoot(g, entry, excluded, root) && Reaches(LiveHop(g, excluded), root, f);
      ReachesKeeps(LiveHop(g, excluded), holds, root, f);
    }
  }

  // The worklist computes exactly the modules that some root reaches without entering a
  // test or fixture.
  method ProductionReachable(g: Graph, entry: File -> bool, excluded: File -> bool) returns (reachable: set<File>)
    requires WellFormed(g)
    ensures forall f :: f in reachable <==> KeptAlive(g, entry, excluded, f)
  {
    hide LiveHop, KeptAlive;
    reachable := {};
    var queue: seq<File> := [];
    for i := 0 to |g.files|
      invariant reachable <= FileSet(g)
      invariant forall f :: f in reachable ==> KeptAlive(g, entry, excluded, f)
      invariant forall f :: f in queue <==> f in reachable
      invariant forall f :: f in g.files[..i] && IsRoot(g, entry, excluded, f) ==> f in reachable
    {
      var file := g.files[i];
      if !excluded(file) && entry(file) {
        RootKeptAlive(g, entry, excluded, file);
        reachable := reachable + {file};
        queue := queue + [file];
      }
    }
    while queue != []
      invariant Searching(g, entry, excluded, reachable, queue)
      invariant forall f :: IsRoot(g, entry, excluded, f) ==> f in reachable
      decreases FileSet(g) - reachable, |queue|
    {
      reachable, queue := Expand(g, entry, excluded, reachable, queue);
    }
    SearchComplete(g, entry, excluded, reachable);
  }

  lemma DependencyIsHop(g: Graph, excluded: File -> bool, file: File, d: Dependency)
    requires file in g.dependencies && d in g.dependencies[file]
    ensures d.resolved in g.files && !excluded(d.resolved) ==> LiveHop(g, excluded)(file, d.resolved)
  {
  }

  lemma HopIsDependency(g: Graph, excluded: File -> bool, file: File, to: File)
    requires LiveHop(g, excluded)(file, to)
    ensures file in g.dependencies && to in g.files && !excluded(to) && exists d :: d in g.dependencies[file] && d.resolved == to
  {
  }

  // One turn of the worklist: the last module is taken off and its dependencies put on.
  method Expand(g: Graph, entry: File -> bool, excluded: File -> bool, reachable: set<File>, queue: seq<File>)
    returns (more: set<File>, rest: seq<File>)
    requires WellFormed(g) && queue != [] && Searching(g, entry, excluded, reachable, queue)
    ensures Searching(g, entry, excluded, more, rest)
    ensures reachable <= more
    ensures FileSet(g) - more < FileSet(g) - reachable || (more == reachable && |rest| < |queue|)
  {
    hide KeptAlive, IsRoot, LiveHop;
    var file := queue[|queue| - 1];
    assert file in queue && file in reachable && file in FileSet(g);
    more, rest := reachable, queue[..|queue| - 1];
    var dependencies := g.dependencies[file];
    for j := 0 to |dependencies|
      invariant reachable <= more <= FileSet(g)
      invariant more == reachable ==> rest == queue[..|queue| - 1]
      invariant forall f :: f in more ==> KeptAlive(g, entry, excluded, f)
      invariant forall f :: f in rest ==> f in more
      invariant forall f :: f in queue[..|queue| - 1] ==> f in rest
      invariant forall f :: f in more - reachable ==> f in rest
      invariant forall d :: d in dependencies[..j] && d.resolved in g.files && !excluded(d.resolved) ==> d.resolved in more
    {
      var to := dependencies[j].resolved;
      DependencyIsHop(g, excluded, file, dependencies[j]);
      if to in g.files && to !in more && !excluded(to) {
        KeptAliveFurther(g, entry, excluded, file, to);
        more := more + {to};
        rest := rest + [to];
      }
    }
    assert dependencies[..|dependencies|] == dependencies;
    forall to | LiveHop(g, excluded)(file, to)
      ensures to in more
    {
      HopIsDependency(g, excluded, file, to);
    }
  }
}
