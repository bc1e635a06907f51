// `walk` of scripts/ci/check-architecture-boundaries.ts: a depth-first search of the module graph
// that goes no further at vetted gateways, reports every forbidden module that it meets and every
// error or network use of those that it visits, and names with each the chain that led there.
module BoundaryWalk {
  import opened Paths

  type File = string

  // What the dependency graph knows of a module.
  datatype Module = Module(dependencies: seq<File>, errors: seq<string>, network: bool)

  // Each violation names the chain of modules that leads to it.
  datatype Violation =
    | NoEntrypoints
    | Forbidden(path: seq<File>)
    | Broken(path: seq<File>, error: string)
    | Network(path: seq<File>)

  // The graph, and the policy of one rule: which modules it forbids, whether it checks for
  // network use, and where it stops.
  datatype Policy = Policy(
    modules: map<File, Module>, forbidden: set<File>, checkNetwork: bool, networkPackages: set<File>, gateways: set<File>)

  ghost predicate Complete(p: Policy) {
    forall f, d :: f in p.modules && d in p.modules[f].dependencies ==> d in p.modules
  }

  // The search goes on from `from`, which is no gateway, to what it depends on.
  ghost function Follows(p: Policy): (File, File) -> bool {
    (from: File, to: File) =>
      from in p.modules && from !in p.gateways && to in p.modules[from].dependencies
  }

  // A real chain from an entry: gateways stand nowhere but at its end.
  ghost predicate Chain(p: Policy, entries: seq<File>, path: seq<File>) {
    IsPath(Follows(p), path) && path[0] in entries
  }

  ghost predicate ChainTo(p: Policy, entries: seq<File>, path: seq<File>, f: File) {
    Chain(p, entries, path) && path[|path| - 1] == f
  }

  ghost predicate Reached(p: Policy, entries: seq<File>, f: File) {
    exists path :: ChainTo(p, entries, path, f)
  }

  predicate UsesNetwork(p: Policy, f: File)
    requires f in p.modules
  {
    p.checkNetwork && (p.modules[f].network || f in p.networkPackages)
  }

  // The violation is real: its chain is, and ends where the violation is.
  ghost predicate Real(p: Policy, entries: seq<File>, v: Violation) {
    match v
    case NoEntrypoints => entries == []
    case Forbidden(path) => Chain(p, entries, path) && path[|path| - 1] in p.forbidden
    case Broken(path, error) =>
      Chain(p, entries, path) && var f := path[|path| - 1]; f in p.modules && f !in p.gateways && error in p.modules[f].errors
    case Network(path) =>
      && Chain(p, entries, path) && p.checkNetwork
      && var f := path[|path| - 1]; f in p.modules && f !in p.gateways && (p.modules[f].network || f in p.networkPackages)
  }

  ghost predicate ReportsForbidden(vs: set<Violation>, f: File) {
    exists v :: v in vs && v.Forbidden? && v.path != [] && v.path[|v.path| - 1] == f
  }

  ghost predicate ReportsError(vs: set<Violation>, f: File, error: string) {
    exists v :: v in vs && v.Broken? && v.path != [] && v.path[|v.path| - 1] == f && v.error == error
  }

  ghost predicate ReportsNetwork(vs: set<Violation>, f: File) {
    exists v :: v in vs && v.Network? && v.path != [] && v.path[|v.path| - 1] == f
  }

  // Everything the search owes for a module it has met.
  ghost predicate Met(p: Policy, visited: set<File>, vs: set<Violation>, f: File) {
    && (f in visited || f in p.gateways)
    && (f in p.forbidden ==> ReportsForbidden(vs, f))
  }

  // And for one it has visited to the end.
  ghost predicate Finished(p: Policy, visited: set<File>, vs: set<Violation>, f: File) {
    && f in p.modules && f !in p.gateways
    && (forall d :: d in p.modules[f].dependencies ==> Met(p, visited, vs, d))
    && (forall e :: e in p.modules[f].errors ==> ReportsError(vs, f, e))
    && (UsesNetwork(p, f) ==> ReportsNetwork(vs, f))
  }

  lemma ChainFurther(p: Policy, entries: seq<File>, path: seq<File>, f: File, d: File)
    requires Complete(p) && ChainTo(p, entries, path, f)
    requires f in p.modules && f !in p.gateways && d in p.modules[f].dependencies
    ensures ChainTo(p, entries, path + [d], d) && d in p.modules
  {
    var further := path + [d];
    forall i | 0 <= i < |further| - 1
      ensures Follows(p)(further[i], further[i + 1])
    {
      if i + 1 < |path| {
        assert Follows(p)(path[i], path[i + 1]);
      }
    }
  }

  // Visiting more, and reporting more, discharges no less.
  lemma StaysMet(p: Policy, v0: set<File>, r0: set<Violation>, v1: set<File>, r1: set<Violation>)
    requires v0 <= v1 && r0 <= r1
    ensures forall f :: Met(p, v0, r0, f) ==> Met(p, v1, r1, f)
    ensures forall f :: Finished(p, v0, r0, f) ==> Finished(p, v1, r1, f)
  {
    forall f | Met(p, v0, r0, f)
      ensures Met(p, v1, r1, f)
    {
    }
    forall f | Finished(p, v0, r0, f)
      ensures Finished(p, v1, r1, f)
    {
      forall d | d in p.modules[f].dependencies
        ensures Met(p, v1, r1, d)
      {
        assert Met(p, v0, r0, d);
      }
    }
  }

  // When every entry is met and every visited module finished, all that a chain reaches is met.
  lemma {:induction false} ChainIsMet(
    p: Policy, entries: seq<File>, visited: set<File>, vs: set<Violation>, path: seq<File>)
    requires Chain(p, entries, path)
    requires forall f :: f in entries ==> Met(p, visited, vs, f)
    requires forall f :: f in visited ==> Finished(p, visited, vs, f)
    ensures Met(p, visited, vs, path[|path| - 1])
  {
    var n := |path|;
    if n > 1 {
      var before := path[..n - 1];
      assert forall i :: 0 <= i < |before| - 1 ==> Follows(p)(before[i], before[i + 1]);
      ChainIsMet(p, entries, visited, vs, before);
      assert Follows(p)(path[n - 2], path[n - 1]);
      assert Finished(p, visited, vs, path[n - 2]);
    }
  }

  // The search is exact: it visits what chains reach and is no gateway, and reports a module
  // exactly when one reaches it and something is wrong there.
  ghost predicate Exact(p: Policy, entries: seq<File>, visited: set<File>, vs: set<Violation>) {
    && (forall f :: f in visited <==> Reached(p, entries, f) && f !in p.gateways)
    && (forall f :: ReportsForbidden(vs, f) <==> Reached(p, entries, f) && f in p.forbidden)
    && (forall f, e :: ReportsError(vs, f, e) <==> f in visited && f in p.modules && e in p.modules[f].errors)
    && (forall f :: ReportsNetwork(vs, f) <==>
          p.checkNetwork && f in visited && f in p.modules && (p.modules[f].network || f in p.networkPackages))
    && (NoEntrypoints in vs <==> entries == [])
    && (forall v :: v in vs ==> Real(p, entries, v))
  }

  lemma SearchIsExact(p: Policy, entries: seq<File>, visited: set<File>, vs: set<Violation>)
    requires forall f :: f in entries ==> Met(p, visited, vs, f)
    requires forall f :: f in visited ==> Finished(p, visited, vs, f) && Reached(p, entries, f)
    requires forall v :: v in vs ==> Real(p, entries, v)
    requires NoEntrypoints in vs <==> entries == []
    ensures Exact(p, entries, visited, vs)
  {
    forall f | Reached(p, entries, f)
      ensures Met(p, visited, vs, f)
    {
      var path :| ChainTo(p, entries, path, f);
      ChainIsMet(p, entries, visited, vs, path);
    }
    forall v | v in vs && !v.NoEntrypoints?
      ensures v.path != [] && Reached(p, entries, v.path[|v.path| - 1])
    {
      assert Real(p, entries, v);
      assert ChainTo(p, entries, v.path, v.path[|v.path| - 1]);
    }
    forall f, e | ReportsError(vs, f, e)
      ensures f in visited && f in p.modules && e in p.modules[f].errors
    {
      var v :| v in vs && v.Broken? && v.path != [] && v.path[|v.path| - 1] == f && v.error == e;
      assert Real(p, entries, v);
      assert Met(p, visited, vs, f);
    }
    forall f | ReportsNetwork(vs, f)
      ensures f in visited && f in p.modules && UsesNetwork(p, f)
    {
      var v :| v in vs && v.Network? && v.path != [] && v.path[|v.path| - 1] == f;
      assert Real(p, entries, v);
      assert Met(p, visited, vs, f);
    }
  }

  // Everything visited or reported is real.
  ghost predicate Sound(p: Policy, entries: seq<File>, visited: set<File>, vs: set<Violation>) {
    && Complete(p)
    && (forall f :: f in entries ==> f in p.modules)
    && visited <= p.modules.Keys
    && (forall f :: f in visited ==> f !in p.gateways && Reached(p, entries, f))
    && (forall v :: v in vs ==> Real(p, entries, v))
  }

  lemma SoundIsComplete(p: Policy, entries: seq<File>, visited: set<File>, vs: set<Violation>)
    requires Sound(p, entries, visited, vs)
    ensures Complete(p)
  {
  }

  lemma SoundMore(p: Policy, entries: seq<File>, visited: set<File>, vs: set<Violation>, v: Violation)
    requires Sound(p, entries, visited, vs) && Real(p, entries, v)
    ensures Sound(p, entries, visited, vs + {v})
  {
    hide Real, Reached, Complete;
  }

  // A chain to a forbidden module makes its report real,
  lemma ForbiddenHere(p: Policy, entries: seq<File>, visited: set<File>, vs: set<Violation>, path: seq<File>, f: File)
    requires Sound(p, entries, visited, vs) && ChainTo(p, entries, path, f) && f in p.forbidden
    ensures Sound(p, entries, visited, vs + {Forbidden(path)}) && ReportsForbidden(vs + {Forbidden(path)}, f)
  {
    SoundMore(p, entries, visited, vs, Forbidden(path));
    assert Forbidden(path) in vs + {Forbidden(path)};
  }

  // one to a module that is no gateway visits it,
  lemma VisitedHere(p: Policy, entries: seq<File>, visited: set<File>, vs: set<Violation>, path: seq<File>, f: File)
    requires Sound(p, entries, visited, vs) && ChainTo(p, entries, path, f) && f in p.modules && f !in p.gateways
    ensures Sound(p, entries, visited + {f}, vs)
  {
    hide Real, ChainTo, Complete;
  }

  // and makes real what is wrong there.
  lemma NetworkHere(p: Policy, entries: seq<File>, visited: set<File>, vs: set<Violation>, path: seq<File>, f: File)
    requires Sound(p, entries, visited, vs) && ChainTo(p, entries, path, f)
    requires f in p.modules && f !in p.gateways && UsesNetwork(p, f)
    ensures Sound(p, entries, visited, vs + {Network(path)}) && ReportsNetwork(vs + {Network(path)}, f)
  {
    SoundMore(p, entries, visited, vs, Network(path));
    assert Network(path) in vs + {Network(path)};
  }

  lemma ErrorHere(
    p: Policy, entries: seq<File>, visited: set<File>, vs: set<Violation>, path: seq<File>, f: File, error: string)
    requires Sound(p, entries, visited, vs) && ChainTo(p, entries, path, f)
    requires f in p.modules && f !in p.gateways && error in p.modules[f].errors
    ensures Sound(p, entries, visited, vs + {Broken(path, error)}) && ReportsError(vs + {Broken(path, error)}, f, error)
  {
    SoundMore(p, entries, visited, vs, Broken(path, error));
    assert Broken(path, error) in vs + {Broken(path, error)};
  }

  lemma ErrorStays(vs: set<Violation>, more: set<Violation>, f: File)
    requires vs <= more
    ensures forall e :: ReportsError(vs, f, e) ==> ReportsError(more, f, e)
    ensures ReportsForbidden(vs, f) ==> ReportsForbidden(more, f)
    ensures ReportsNetwork(vs, f) ==> ReportsNetwork(more, f)
  {
  }

  // A module all of whose dependencies are met, whose errors and network use are reported.
  lemma FinishedHere(p: Policy, visited: set<File>, vs: set<Violation>, f: File)
    requires f in p.modules && f !in p.gateways
    requires forall d :: d in p.modules[f].dependencies ==> Met(p, visited, vs, d)
    requires forall e :: e in p.modules[f].errors ==> ReportsError(vs, f, e)
    requires UsesNetwork(p, f) ==> ReportsNetwork(vs, f)
    ensures Finished(p, visited, vs, f)
  {
  }

  lemma MetHere(p: Policy, visited: set<File>, vs: set<Violation>, f: File)
    requires f in visited || f in p.gateways
    requires f in p.forbidden ==> ReportsForbidden(vs, f)
    ensures Met(p, visited, vs, f)
  {
  }

  // The dependencies met so far, and the modules visited on their account.
  ghost predicate Progress(p: Policy, before: set<File>, visited: set<File>, vs: set<Violation>, file: File, done: seq<File>) {
    && (forall d :: d in done ==> Met(p, visited, vs, d))
    && (forall f :: f in visited && f !in before && f != file ==> Finished(p, visited, vs, f))
  }

  // What one more visit keeps.
  lemma ProgressMore(
    p: Policy, before: set<File>, v0: set<File>, r0: set<Violation>, v1: set<File>, r1: set<Violation>, file: File,
    done: seq<File>, d: File)
    requires Progress(p, before, v0, r0, file, done) && v0 <= v1 && r0 <= r1
    requires Met(p, v1, r1, d) && forall f :: f in v1 && f !in v0 ==> Finished(p, v1, r1, f)
    ensures Progress(p, before, v1, r1, file, done + [d])
  {
    StaysMet(p, v0, r0, v1, r1);
    hide Met, Finished;
  }

  class Walk {
    const policy: Policy
    const entries: seq<File>
    var visited: set<File>
    var violations: set<Violation>

    ghost predicate Valid()
      reads this
    {
      Sound(policy, entries, visited, violations)
    }

    constructor (p: Policy, entries: seq<File>)
      requires Complete(p) && forall f :: f in entries ==> f in p.modules
      ensures policy == p && this.entries == entries && Valid() && visited == {} && violations == {}
    {
      policy := p;
      this.entries := entries;
      visited, violations := {}, {};
    }

    method AddErrors(path: seq<File>, file: File, errors: seq<string>)
      requires Valid() && ChainTo(policy, entries, path, file)
      requires file in policy.modules && file !in policy.gateways && errors == policy.modules[file].errors
      modifies this`violations
      ensures Valid() && old(violations) <= violations
      ensures NoEntrypoints in violations ==> NoEntrypoints in old(violations)
      ensures forall e :: e in errors ==> ReportsError(violations, file, e)
    {
      hide Sound, ChainTo, ReportsError, ReportsForbidden, ReportsNetwork;
      for j := 0 to |errors|
        invariant Valid() && old(violations) <= violations
        invariant NoEntrypoints in violations ==> NoEntrypoints in old(violations)
        invariant forall e :: e in errors[..j] ==> ReportsError(violations, file, e)
      {
        ErrorHere(policy, entries, visited, violations, path, file, errors[j]);
        ErrorStays(violations, violations + {Broken(path, errors[j])}, file);
        violations := violations + {Broken(path, errors[j])};
      }
    }

    method Visit(file: File, chain: seq<File>)
      requires Valid() && file in policy.modules && ChainTo(policy, entries, chain + [file], file)
      modifies this
      ensures Valid() && old(visited) <= visited && old(violations) <= violations
      ensures NoEntrypoints in violations ==> NoEntrypoints in old(violations)
      ensures Met(policy, visited, violations, file)
      ensures forall f :: f in visited && f !in old(visited) ==> Finished(policy, visited, violations, f)
      decreases policy.modules.Keys - visited
    {
      hide Sound, ChainTo, Met, Finished, Progress, ReportsForbidden, ReportsError, ReportsNetwork, UsesNetwork;
      var path := chain + [file];
      if file in policy.forbidden {
        ForbiddenHere(policy, entries, visited, violations, path, file);
        violations := violations + {Forbidden(path)};
      }
      if file in policy.gateways || file in visited {
        MetHere(policy, visited, violations, file);
        return;
      }
      ghost var before, reported := visited, violations;
      VisitedHere(policy, entries, visited, violations, path, file);
      visited := visited + {file};
      var resolved := policy.modules[file];
      AddErrors(path, file, resolved.errors);
      if UsesNetwork(policy, file) {
        NetworkHere(policy, entries, visited, violations, path, file);
        ErrorStays(violations, violations + {Network(path)}, file);
        violations := violations + {Network(path)};
      }
      ErrorStays(reported, violations, file);
      reported := violations;
      NoProgress(policy, before, visited, violations, file);
      assert resolved.dependencies[..0] == [];
      for j := 0 to |resolved.dependencies|
        invariant Valid() && before + {file} <= visited && reported <= violations
        invariant NoEntrypoints in violations ==> NoEntrypoints in old(violations)
        invariant Progress(policy, before, visited, violations, file, resolved.dependencies[..j])
      {
        var dependency := resolved.dependencies[j];
        ghost var v0, r0 := visited, violations;
        SoundIsComplete(policy, entries, visited, violations);
        ChainFurther(policy, entries, path, file, dependency);
        Visit(dependency, path);
        ProgressMore(
          policy, before, v0, r0, visited, violations, file, resolved.dependencies[..j], dependency);
        assert resolved.dependencies[..j + 1] == resolved.dependencies[..j] + [dependency];
      }
      assert resolved.dependencies[..|resolved.dependencies|] == resolved.dependencies;
      ErrorStays(reported, violations, file);
      VisitEnds(policy, before, visited, violations, file);
    }

    // One run over all entries.
    method Run()
      requires Valid() && visited == {} && violations == {}
      modifies this
      ensures Exact(policy, entries, visited, violations)
    {
      hide ChainTo, Met, Finished, Progress, Exact, Real, Reached;
      if |entries| == 0 {
        EmptyIsReal(policy, entries);
        SoundMore(policy, entries, visited, violations, NoEntrypoints);
        violations := violations + {NoEntrypoints};
      }
      assert entries[..0] == [];
      for j := 0 to |entries|
        invariant Valid()
        invariant NoEntrypoints in violations <==> entries == []
        invariant forall f :: f in entries[..j] ==> Met(policy, visited, violations, f)
        invariant forall f :: f in visited ==> Finished(policy, visited, violations, f)
      {
        ghost var v0, r0 := visited, violations;
        var none: seq<File> := [];
        EntryIsChain(policy, entries, entries[j]);
        assert none + [entries[j]] == [entries[j]];
        Visit(entries[j], none);
        StaysMet(policy, v0, r0, visited, violations);
      }
      assert entries[..|entries|] == entries;
      SearchIsExact(policy, entries, visited, violations);
    }
  }

  lemma EmptyIsReal(p: Policy, entries: seq<File>)
    requires entries == []
    ensures Real(p, entries, NoEntrypoints)
  {
  }

  lemma EntryIsChain(p: Policy, entries: seq<File>, entry: File)
    requires entry in entries
    ensures ChainTo(p, entries, [entry], entry)
  {
  }

  lemma NoProgress(p: Policy, before: set<File>, visited: set<File>, vs: set<Violation>, file: File)
    requires visited <= before + {file}
    ensures Progress(p, before, visited, vs, file, [])
  {
  }

  // Once all dependencies are met, the module and all that was visited on its account is finished.
  lemma VisitEnds(p: Policy, before: set<File>, visited: set<File>, vs: set<Violation>, file: File)
    requires file in p.modules && file !in p.gateways && file in visited
    requires Progress(p, before, visited, vs, file, p.modules[file].dependencies)
    requires forall e :: e in p.modules[file].errors ==> ReportsError(vs, file, e)
    requires UsesNetwork(p, file) ==> ReportsNetwork(vs, file)
    requires file in p.forbidden ==> ReportsForbidden(vs, file)
    ensures Met(p, visited, vs, file)
    ensures forall f :: f in visited && f !in before ==> Finished(p, visited, vs, f)
  {
    MetHere(p, visited, vs, file);
    FinishedHere(p, visited, vs, file);
    hide Met, Finished;
  }
}
