// `findExportDefinition` of scripts/ci/check-unused-code.ts: the search along re-exports for the module
// that declares a symbol. It marks modules, not symbols, as visited, and so is exact where each module is
// asked for one name only.
module ExportDefinitions {
  import opened Options
  import opened Paths
  import opened ExportUsage

  // The names that each module declares itself.
  type Declarations = map<File, set<Name>>

  // A chain of re-exports leads from the symbol to a name that `file` declares.
  ghost predicate Defines(g: Graph, declared: Declarations, from: File, symbol: Name, file: File, name: Name)
    requires WellFormed(g)
  {
    && file in declared && name in declared[file]
    && Reaches(NameHop(Edges(g)), (from, symbol), (file, name))
  }

  ghost predicate IsFirst(reExports: seq<ReExport>, exported: Name, i: nat) {
    i < |reExports| && reExports[i].exported == exported && forall j :: 0 <= j < i ==> reExports[j].exported != exported
  }

  // The first re-export of a list under the given name.
  function FirstNamed(reExports: seq<ReExport>, exported: Name): (r: Option<Name>)
    ensures r.Some? ==> ReExport(r.value, exported) in reExports
    ensures forall i: nat :: IsFirst(reExports, exported, i) ==> r == Some(reExports[i].imported)
  {
    if reExports == [] then None
    else if reExports[0].exported == exported then Some(reExports[0].imported)
    else
      assert forall i: nat :: IsFirst(reExports, exported, i) ==> i > 0 && IsFirst(reExports[1..], exported, i - 1);
      FirstNamed(reExports[1..], exported)
  }

  lemma DefinedBehind(g: Graph, declared: Declarations, e: Edge, symbol: Name, imported: Name, file: File)
    requires WellFormed(g) && e in Edges(g) && IsReExport(e.1) && imported in Carried(e.1, {symbol})
    requires exists name :: Defines(g, declared, e.1.resolved, imported, file, name)
    ensures exists name :: Defines(g, declared, e.0, symbol, file, name)
  {
    var hop := NameHop(Edges(g));
    var name :| Defines(g, declared, e.1.resolved, imported, file, name);
    assert CarriesName(e, (e.0, symbol), (e.1.resolved, imported));
    hide Edges, WellFormed;
    ReachesItself(hop, (e.0, symbol));
    ReachesFurther(hop, (e.0, symbol), (e.0, symbol), (e.1.resolved, imported));
    ReachesTrans(hop, (e.0, symbol), (e.1.resolved, imported), (file, name));
    assert Defines(g, declared, e.0, symbol, file, name);
  }

  lemma DefinedHere(g: Graph, declared: Declarations, file: File, symbol: Name)
    requires WellFormed(g) && file in declared && symbol in declared[file]
    ensures Defines(g, declared, file, symbol, file, symbol)
  {
    ReachesItself(NameHop(Edges(g)), (file, symbol));
  }

  lemma EdgeIn(g: Graph, file: File, d: Dependency)
    requires WellFormed(g) && file in g.files && d in g.dependencies[file] && d.resolved in g.files
    ensures (file, d) in Edges(g)
  {
  }

  // Both searches agree: a use of a symbol is a use of the name that defines it.
  lemma UseReachesDefinition(g: Graph, declared: Declarations, from: File, symbol: Name, file: File, name: Name)
    requires WellFormed(g) && Defines(g, declared, from, symbol, file, name)
    requires UseReaches(Edges(g), from, symbol)
    ensures UseReaches(Edges(g), file, name)
  {
    hide Edges, WellFormed;
    var hop := NameHop(Edges(g));
    var seed: (File, Name) :| SeedName(Edges(g), seed.0, seed.1) && Reaches(hop, seed, (from, symbol));
    ReachesTrans(hop, seed, (from, symbol), (file, name));
  }

  // The name that a dependency asks its target for, if it passes the symbol on.
  function Asked(d: Dependency, symbol: Name): (r: Option<Name>)
    ensures r.Some? ==> IsReExport(d) && r.value in Carried(d, {symbol})
  {
    if d.kind == ReExportNamed then FirstNamed(d.reExports, symbol)
    else if d.kind == ReExportAll then Some(symbol)
    else None
  }

  // The search, with the modules it has visited.
  ghost function Search(g: Graph, declared: Declarations, file: File, symbol: Name, visited: set<File>): (r: (Option<File>, set<File>))
    requires WellFormed(g) && declared.Keys == FileSet(g)
    ensures visited + {file} <= r.1
    decreases FileSet(g) - visited, 0
  {
    if file in visited then (None, visited)
    else if file !in g.files then (None, visited + {file})
    else if symbol in declared[file] then (Some(file), visited + {file})
    else
      assert file in FileSet(g);
      SearchAll(g, declared, g.dependencies[file], symbol, visited + {file})
  }

  ghost function SearchAll(g: Graph, declared: Declarations, dependencies: seq<Dependency>, symbol: Name, visited: set<File>)
    : (r: (Option<File>, set<File>))
    requires WellFormed(g) && declared.Keys == FileSet(g)
    ensures visited <= r.1
    decreases FileSet(g) - visited, |dependencies|
  {
    if dependencies == [] then (None, visited)
    else
      var next := Asked(dependencies[0], symbol);
      if next.None? then SearchAll(g, declared, dependencies[1..], symbol, visited)
      else
        var r := Search(g, declared, dependencies[0].resolved, next.value, visited);
        if r.0.Some? then r else SearchAll(g, declared, dependencies[1..], symbol, r.1)
  }

  class DefinitionSearch {
    const graph: Graph
    const declared: Declarations
    var visited: set<File>

    constructor (g: Graph, declared: Declarations)
      ensures this.graph == g && this.declared == declared && visited == {}
    {
      this.graph := g;
      this.declared := declared;
      visited := {};
    }

    // Visited modules are not searched again, whatever the symbol.
    method Find(file: File, symbol: Name) returns (definition: Option<File>)
      requires WellFormed(graph) && declared.Keys == FileSet(graph)
      modifies this
      ensures (definition, visited) == Search(graph, declared, file, symbol, old(visited))
      ensures definition.Some? ==> file in graph.files
      ensures definition.Some? ==> exists name :: Defines(graph, declared, file, symbol, definition.value, name)
      decreases FileSet(graph) - visited
    {
      FoundIsDefined(graph, declared, file, symbol, visited);
      hide Defines, Edges;
      if file in visited {
        return None;
      }
      ghost var before := visited;
      visited := visited + {file};
      if file !in graph.files {
        return None;
      }
      if symbol in declared[file] {
        return Some(file);
      }
      var dependencies := graph.dependencies[file];
      ghost var start := visited;
      assert dependencies[0..] == dependencies;
      for j := 0 to |dependencies|
        invariant before + {file} <= visited
        invariant SearchAll(graph, declared, dependencies[j..], symbol, visited)
          == SearchAll(graph, declared, dependencies, symbol, start)
      {
        var d := dependencies[j];
        assert dependencies[j..][0] == d && dependencies[j..][1..] == dependencies[j + 1..];
        if d.kind == ReExportNamed {
          var hit := FirstNamed(d.reExports, symbol);
          if hit.Some? {
            definition := Find(d.resolved, hit.value);
            if definition.Some? {
              return;
            }
          }
        }
        if d.kind == ReExportAll {
          definition := Find(d.resolved, symbol);
          if definition.Some? {
            return;
          }
        }
      }
      return None;
    }
  }

  // ------------------------------------------------------------------- what it finds

  // What is found declares the symbol, under the name that the re-exports on the way give it.
  lemma {:induction false} FoundIsDefined(g: Graph, declared: Declarations, file: File, symbol: Name, visited: set<File>)
    requires WellFormed(g) && declared.Keys == FileSet(g)
    ensures var r := Search(g, declared, file, symbol, visited);
      r.0.Some? ==> file in g.files && exists name :: Defines(g, declared, file, symbol, r.0.value, name)
    decreases FileSet(g) - visited, 0
  {
    hide Defines, Edges;
    if file !in visited && file in g.files {
      if symbol in declared[file] {
        DefinedHere(g, declared, file, symbol);
      } else {
        assert file in FileSet(g);
        FoundBehind(g, declared, file, g.dependencies[file], symbol, visited + {file});
      }
    }
  }

  lemma {:induction false} FoundBehind(
    g: Graph, declared: Declarations, file: File, dependencies: seq<Dependency>, symbol: Name, visited: set<File>)
    requires WellFormed(g) && declared.Keys == FileSet(g) && file in g.files
    requires forall d :: d in dependencies ==> d in g.dependencies[file]
    ensures var r := SearchAll(g, declared, dependencies, symbol, visited);
      r.0.Some? ==> exists name :: Defines(g, declared, file, symbol, r.0.value, name)
    decreases FileSet(g) - visited, |dependencies|
  {
    hide Defines, Edges;
    if dependencies != [] {
      var d := dependencies[0];
      var next := Asked(d, symbol);
      if next.None? {
        FoundBehind(g, declared, file, dependencies[1..], symbol, visited);
      } else {
        var r := Search(g, declared, d.resolved, next.value, visited);
        FoundIsDefined(g, declared, d.resolved, next.value, visited);
        if r.0.Some? {
          EdgeIn(g, file, d);
          DefinedBehind(g, declared, (file, d), symbol, next.value, r.0.value);
        } else {
          FoundBehind(g, declared, file, dependencies[1..], symbol, r.1);
        }
      }
    }
  }

  // ------------------------------------------------------------------ what it misses

  // Chains of re-exports from the symbol ask for a name of a module.
  ghost predicate Leads(g: Graph, from: (File, Name), file: File, name: Name)
    requires WellFormed(g)
  {
    Reaches(NameHop(Edges(g)), from, (file, name))
  }

  // They ask no module for two names.
  ghost predicate OneName(g: Graph, from: (File, Name))
    requires WellFormed(g)
  {
    forall file, a, b :: Leads(g, from, file, a) && Leads(g, from, file, b) ==> a == b
  }

  // All that passes the name of a module on is among the visited, and the module does not declare it.
  ghost predicate Handled(g: Graph, declared: Declarations, visited: set<File>, file: File, name: Name)
    requires WellFormed(g) && declared.Keys == FileSet(g)
  {
    file in g.files ==>
      && name !in declared[file]
      && forall d :: d in g.dependencies[file] && Asked(d, name).Some? ==> d.resolved in visited
  }

  // Whatever chains ask of these modules is handled.
  ghost predicate AllHandled(g: Graph, declared: Declarations, from: (File, Name), files: set<File>, visited: set<File>)
    requires WellFormed(g) && declared.Keys == FileSet(g)
  {
    forall file, name :: file in files && Leads(g, from, file, name) ==> Handled(g, declared, visited, file, name)
  }

  lemma LeadsOn(g: Graph, from: (File, Name), file: File, name: Name, d: Dependency)
    requires WellFormed(g) && file in g.files && d in g.dependencies[file] && d.resolved in g.files
    requires Leads(g, from, file, name) && Asked(d, name).Some?
    ensures Leads(g, from, d.resolved, Asked(d, name).value)
  {
    EdgeIn(g, file, d);
    assert CarriesName((file, d), (file, name), (d.resolved, Asked(d, name).value));
    hide Edges;
    ReachesFurther(NameHop(Edges(g)), from, (file, name), (d.resolved, Asked(d, name).value));
  }

  lemma HandledGrows(
    g: Graph, declared: Declarations, from: (File, Name), files: set<File>, visited: set<File>, others: set<File>, more: set<File>)
    requires WellFormed(g) && declared.Keys == FileSet(g)
    requires AllHandled(g, declared, from, files, visited) && AllHandled(g, declared, from, others, more) && visited <= more
    ensures AllHandled(g, declared, from, files + others, more)
  {
    hide Leads, Asked;
  }

  lemma {:induction false} NoneIsHandled(
    g: Graph, declared: Declarations, from: (File, Name), file: File, symbol: Name, visited: set<File>)
    requires WellFormed(g) && declared.Keys == FileSet(g) && OneName(g, from)
    requires file in g.files ==> Leads(g, from, file, symbol)
    ensures var r := Search(g, declared, file, symbol, visited);
      r.0.None? ==> AllHandled(g, declared, from, r.1 - visited, r.1)
    decreases FileSet(g) - visited, 0
  {
    hide Leads, Edges, Asked;
    var r := Search(g, declared, file, symbol, visited);
    if file !in visited && r.0.None? {
      if file in g.files {
        assert file in FileSet(g);
        AllNoneIsHandled(g, declared, from, file, g.dependencies[file], symbol, visited + {file});
        assert AllHandled(g, declared, from, {file}, r.1);
        assert r.1 - visited == {file} + (r.1 - (visited + {file}));
      } else {
        assert r.1 - visited == {file};
      }
    }
  }

  lemma {:induction false} AllNoneIsHandled(
    g: Graph, declared: Declarations, from: (File, Name), file: File, dependencies: seq<Dependency>, symbol: Name, visited: set<File>)
    requires WellFormed(g) && declared.Keys == FileSet(g) && OneName(g, from) && file in g.files
    requires Leads(g, from, file, symbol) && forall d :: d in dependencies ==> d in g.dependencies[file]
    ensures var r := SearchAll(g, declared, dependencies, symbol, visited);
      r.0.None? ==>
        && AllHandled(g, declared, from, r.1 - visited, r.1)
        && forall d :: d in dependencies && Asked(d, symbol).Some? ==> d.resolved in r.1
    decreases FileSet(g) - visited, |dependencies|
  {
    hide Leads, Edges, Asked, OneName, AllHandled;
    var r := SearchAll(g, declared, dependencies, symbol, visited);
    if dependencies == [] {
      NothingHandled(g, declared, from, visited);
      assert visited - visited == {};
    } else if r.0.None? {
      var d := dependencies[0];
      var next := Asked(d, symbol);
      if next.None? {
        AllNoneIsHandled(g, declared, from, file, dependencies[1..], symbol, visited);
      } else {
        var first := Search(g, declared, d.resolved, next.value, visited);
        if d.resolved in g.files {
          LeadsOn(g, from, file, symbol, d);
        }
        NoneIsHandled(g, declared, from, d.resolved, next.value, visited);
        AllNoneIsHandled(g, declared, from, file, dependencies[1..], symbol, first.1);
        HandledGrows(g, declared, from, first.1 - visited, first.1, r.1 - first.1, r.1);
        assert r.1 - visited == (first.1 - visited) + (r.1 - first.1);
      }
      assert forall e :: e in dependencies ==> e == d || e in dependencies[1..];
    }
  }

  lemma NothingHandled(g: Graph, declared: Declarations, from: (File, Name), visited: set<File>)
    requires WellFormed(g) && declared.Keys == FileSet(g)
    ensures AllHandled(g, declared, from, {}, visited)
  {
  }

  // Where everything visited is handled, chains lead to nothing else.
  lemma HandledIsClosed(g: Graph, declared: Declarations, from: (File, Name), visited: set<File>, file: File, name: Name)
    requires WellFormed(g) && declared.Keys == FileSet(g)
    requires from.0 in visited && AllHandled(g, declared, from, visited, visited) && Leads(g, from, file, name)
    ensures Handled(g, declared, visited, file, name)
  {
    var hop := NameHop(Edges(g));
    var holds := (x: (File, Name)) => x.0 in visited && Leads(g, from, x.0, x.1);
    ReachesItself(hop, from);
    assert holds(from);
    forall a, b | holds(a) && hop(a, b)
      ensures holds(b)
    {
      ReachesFurther(hop, from, a, b);
      var e :| e in Edges(g) && CarriesName(e, a, b);
      assert Handled(g, declared, visited, a.0, a.1);
      HopIsAsked(g, e, a, b);
    }
    ReachesKeeps(hop, holds, from, (file, name));
  }

  lemma HopIsAsked(g: Graph, e: Edge, a: (File, Name), b: (File, Name))
    requires WellFormed(g) && e in Edges(g) && CarriesName(e, a, b)
    ensures a.0 in g.files && e.1 in g.dependencies[a.0] && e.1.resolved == b.0 && Asked(e.1, a.1).Some?
  {
    if e.1.kind == ReExportNamed {
      var r :| r in e.1.reExports && r.exported == a.1 && r.imported == b.1;
      FirstNamedExists(e.1.reExports, r);
    }
  }

  lemma {:induction false} FirstNamedExists(reExports: seq<ReExport>, r: ReExport)
    requires r in reExports
    ensures FirstNamed(reExports, r.exported).Some?
  {
    if reExports[0].exported != r.exported {
      FirstNamedExists(reExports[1..], r);
    }
  }

  // Where no module is asked for two names, a search from nothing finds a definition exactly if there
  // is one.
  lemma {:induction false} FindsExactly(g: Graph, declared: Declarations, file: File, symbol: Name)
    requires WellFormed(g) && declared.Keys == FileSet(g) && OneName(g, (file, symbol))
    ensures Search(g, declared, file, symbol, {}).0.Some? <==> exists f, name :: Defines(g, declared, file, symbol, f, name)
  {
    hide Search, OneName, Edges;
    var r := Search(g, declared, file, symbol, {});
    FoundIsDefined(g, declared, file, symbol, {});
    if r.0.None? {
      ReachesItself(NameHop(Edges(g)), (file, symbol));
      NoneIsHandled(g, declared, (file, symbol), file, symbol, {});
      assert r.1 - {} == r.1;
      forall f, name
        ensures !Defines(g, declared, file, symbol, f, name)
      {
        if Leads(g, (file, symbol), f, name) {
          HandledIsClosed(g, declared, (file, symbol), r.1, f, name);
        }
      }
    }
  }

  // The search finds a definition exactly if there is one.
  ghost predicate Exact(g: Graph, declared: Declarations, file: File, symbol: Name)
    requires WellFormed(g) && declared.Keys == FileSet(g)
  {
    Search(g, declared, file, symbol, {}).0.Some? <==> exists f, name :: Defines(g, declared, file, symbol, f, name)
  }

  // One name, declared by one module.
  function Only(g: Graph, at: File, name: Name): (declared: Declarations)
    ensures declared.Keys == set f | f in g.files
  {
    map f | f in g.files :: if f == at then {name} else {}
  }

  // Once that module is visited, nothing more can be found,
  lemma {:induction false} NoneOnceVisited(g: Graph, at: File, n: Name, file: File, symbol: Name, visited: set<File>)
    requires WellFormed(g) && at in visited
    ensures Search(g, Only(g, at, n), file, symbol, visited).0.None?
    decreases FileSet(g) - visited, 0
  {
    if file !in visited && file in g.files {
      assert file in FileSet(g);
      AllNoneOnceVisited(g, at, n, g.dependencies[file], symbol, visited + {file});
    }
  }

  lemma {:induction false} AllNoneOnceVisited(
    g: Graph, at: File, n: Name, dependencies: seq<Dependency>, symbol: Name, visited: set<File>)
    requires WellFormed(g) && at in visited
    ensures SearchAll(g, Only(g, at, n), dependencies, symbol, visited).0.None?
    decreases FileSet(g) - visited, |dependencies|
  {
    if dependencies != [] {
      var next := Asked(dependencies[0], symbol);
      if next.None? {
        AllNoneOnceVisited(g, at, n, dependencies[1..], symbol, visited);
      } else {
        var r := Search(g, Only(g, at, n), dependencies[0].resolved, next.value, visited);
        NoneOnceVisited(g, at, n, dependencies[0].resolved, next.value, visited);
        AllNoneOnceVisited(g, at, n, dependencies[1..], symbol, r.1);
      }
    }
  }

  // and until then the search does the same whichever name it is: so it finds at most one of two.
  ghost predicate NotBoth(at: File, r: (Option<File>, set<File>), s: (Option<File>, set<File>)) {
    && (r.0.None? || s.0.None?)
    && (at in r.1 <==> at in s.1)
    && (at !in r.1 ==> r == s && r.0.None?)
  }

  lemma {:induction false} FindsAtMostOne(g: Graph, at: File, m: Name, n: Name, file: File, symbol: Name, visited: set<File>)
    requires WellFormed(g) && m != n && at !in visited
    ensures NotBoth(at, Search(g, Only(g, at, m), file, symbol, visited), Search(g, Only(g, at, n), file, symbol, visited))
    decreases FileSet(g) - visited, 0
  {
    if file in g.files {
      assert file in FileSet(g);
      if file == at {
        AllNoneOnceVisited(g, at, m, g.dependencies[file], symbol, visited + {file});
        AllNoneOnceVisited(g, at, n, g.dependencies[file], symbol, visited + {file});
      } else if file !in visited {
        AllFindAtMostOne(g, at, m, n, g.dependencies[file], symbol, visited + {file});
      }
    }
  }

  lemma {:induction false} AllFindAtMostOne(
    g: Graph, at: File, m: Name, n: Name, dependencies: seq<Dependency>, symbol: Name, visited: set<File>)
    requires WellFormed(g) && m != n && at !in visited
    ensures NotBoth(
      at, SearchAll(g, Only(g, at, m), dependencies, symbol, visited), SearchAll(g, Only(g, at, n), dependencies, symbol, visited))
    decreases FileSet(g) - visited, |dependencies|
  {
    if dependencies != [] {
      var next := Asked(dependencies[0], symbol);
      var rest := dependencies[1..];
      if next.None? {
        AllFindAtMostOne(g, at, m, n, rest, symbol, visited);
      } else {
        var r := Search(g, Only(g, at, m), dependencies[0].resolved, next.value, visited);
        var s := Search(g, Only(g, at, n), dependencies[0].resolved, next.value, visited);
        FindsAtMostOne(g, at, m, n, dependencies[0].resolved, next.value, visited);
        if at in r.1 {
          AllNoneOnceVisited(g, at, m, rest, symbol, r.1);
          AllNoneOnceVisited(g, at, n, rest, symbol, s.1);
        } else {
          AllFindAtMostOne(g, at, m, n, rest, symbol, r.1);
        }
      }
    }
  }

  lemma TwoNamesMissOne(g: Graph, file: File, symbol: Name, at: File, m: Name, n: Name)
    requires WellFormed(g) && m != n && at in g.files
    requires Leads(g, (file, symbol), at, m) && Leads(g, (file, symbol), at, n)
    ensures !Exact(g, Only(g, at, m), file, symbol) || !Exact(g, Only(g, at, n), file, symbol)
  {
    FindsAtMostOne(g, at, m, n, file, symbol, {});
    hide Search;
    assert Defines(g, Only(g, at, m), file, symbol, at, m);
    assert Defines(g, Only(g, at, n), file, symbol, at, n);
  }

  // Chains lead nowhere but into the graph.
  lemma LeadsInside(g: Graph, from: (File, Name), file: File, name: Name)
    requires WellFormed(g) && Leads(g, from, file, name)
    ensures (file, name) == from || file in g.files
  {
    var hop := NameHop(Edges(g));
    var holds := (x: (File, Name)) => x == from || x.0 in g.files;
    forall a, b | holds(a) && hop(a, b)
      ensures holds(b)
    {
      var e :| e in Edges(g) && CarriesName(e, a, b);
    }
    ReachesKeeps(hop, holds, from, (file, name));
  }

  // So the search is exact for everything that modules may declare exactly if no module is asked for
  // two names.
  lemma ExactExactly(g: Graph, file: File, symbol: Name)
    requires WellFormed(g)
    ensures OneName(g, (file, symbol)) <==>
      forall declared: Declarations :: declared.Keys == FileSet(g) ==> Exact(g, declared, file, symbol)
  {
    hide Search, Edges, Defines, Leads;
    if OneName(g, (file, symbol)) {
      forall declared: Declarations | declared.Keys == FileSet(g)
        ensures Exact(g, declared, file, symbol)
      {
        FindsExactly(g, declared, file, symbol);
      }
    } else {
      var at, m, n :| Leads(g, (file, symbol), at, m) && Leads(g, (file, symbol), at, n) && m != n;
      LeadsInside(g, (file, symbol), at, m);
      LeadsInside(g, (file, symbol), at, n);
      TwoNamesMissOne(g, file, symbol, at, m, n);
    }
  }

  // A definition that is missed: `r` re-exports two modules, which both rename an export of `m` to `x`;
  // the name of the first is not declared there, that of the second is.
  function Star(to: File): Dependency {
    Dependency(to, ReExportAll, [], [], false)
  }

  function Renaming(to: File, imported: Name, exported: Name): Dependency {
    Dependency(to, ReExportNamed, [], [ReExport(imported, exported)], false)
  }

  function Crossed(p: Name, q: Name, x: Name): Graph {
    Graph(["r", "a", "b", "m"], map["r" := [Star("a"), Star("b")], "a" := [Renaming("m", p, x)], "b" := [Renaming("m", q, x)], "m" := []])
  }

  function OnlyIn(q: Name): Declarations {
    map["r" := {}, "a" := {}, "b" := {}, "m" := {q}]
  }

  lemma CrossedFits(p: Name, q: Name, x: Name)
    ensures WellFormed(Crossed(p, q, x)) && OnlyIn(q).Keys == FileSet(Crossed(p, q, x))
  {
    var g := Crossed(p, q, x);
    forall f
      ensures f in OnlyIn(q) <==> f in g.files
    {
      assert g.files[0] == "r" && g.files[1] == "a" && g.files[2] == "b" && g.files[3] == "m";
    }
  }

  // One module with a single dependency that passes the symbol on, and is not itself visited.
  lemma {:induction false} SearchOne(g: Graph, declared: Declarations, file: File, d: Dependency, symbol: Name, visited: set<File>)
    requires WellFormed(g) && declared.Keys == FileSet(g)
    requires file !in visited && file in g.files && symbol !in declared[file]
    requires g.dependencies[file] == [d] && Asked(d, symbol).Some?
    ensures Search(g, declared, file, symbol, visited)
      == Search(g, declared, d.resolved, Asked(d, symbol).value, visited + {file})
  {
    var r := Search(g, declared, d.resolved, Asked(d, symbol).value, visited + {file});
    assert [d][1..] == [];
    assert SearchAll(g, declared, [], symbol, r.1) == (None, r.1);
    assert r == (r.0, r.1);
  }

  lemma CrossedDefines(p: Name, q: Name, x: Name)
    ensures var g := Crossed(p, q, x);
      && WellFormed(g) && OnlyIn(q).Keys == FileSet(g) && Defines(g, OnlyIn(q), "r", x, "m", q)
  {
    var g, declared := Crossed(p, q, x), OnlyIn(q);
    CrossedFits(p, q, x);
    assert g.files[0] == "r" && g.files[2] == "b" && g.files[3] == "m";
    EdgeIn(g, "r", Star("b"));
    EdgeIn(g, "b", Renaming("m", q, x));
    DefinedHere(g, declared, "m", q);
    hide Edges, Reaches;
    DefinedBehind(g, declared, ("b", Renaming("m", q, x)), x, q, "m");
    DefinedBehind(g, declared, ("r", Star("b")), x, x, "m");
  }

  // The first branch visits `m` for `p`, and so the second finds it visited.
  lemma {:induction false} CrossedBranches(p: Name, q: Name, x: Name)
    requires p != q
    ensures var g := Crossed(p, q, x);
      && WellFormed(g) && OnlyIn(q).Keys == FileSet(g)
      && Search(g, OnlyIn(q), "a", x, {"r"}) == (None, {"r", "a", "m"})
      && Search(g, OnlyIn(q), "b", x, {"r", "a", "m"}).0.None?
  {
    var g, declared := Crossed(p, q, x), OnlyIn(q);
    CrossedFits(p, q, x);
    assert g.files[1] == "a" && g.files[2] == "b" && g.files[3] == "m";
    SearchOne(g, declared, "a", Renaming("m", p, x), x, {"r"});
    SearchOne(g, declared, "b", Renaming("m", q, x), x, {"r", "a", "m"});
    assert SearchAll(g, declared, [], p, {"r", "a", "m"}) == (None, {"r", "a", "m"});
    assert {"r"} + {"a"} == {"r", "a"} && {"r", "a"} + {"m"} == {"r", "a", "m"};
    assert Search(g, declared, "m", p, {"r", "a"}) == (None, {"r", "a", "m"});
  }

  lemma {:induction false} SearchTwo(g: Graph, declared: Declarations, file: File, d: Dependency, e: Dependency, symbol: Name)
    requires WellFormed(g) && declared.Keys == FileSet(g)
    requires file in g.files && symbol !in declared[file] && g.dependencies[file] == [d, e]
    requires d.kind == e.kind == ReExportAll
    requires Search(g, declared, d.resolved, symbol, {file}).0.None?
    requires Search(g, declared, e.resolved, symbol, Search(g, declared, d.resolved, symbol, {file}).1).0.None?
    ensures Search(g, declared, file, symbol, {}).0.None?
  {
    assert [d, e][1..] == [e] && [e][1..] == [] && {} + {file} == {file};
    var next := Search(g, declared, d.resolved, symbol, {file}).1;
    var last := Search(g, declared, e.resolved, symbol, next);
    assert SearchAll(g, declared, [e], symbol, next) == SearchAll(g, declared, [], symbol, last.1);
  }

  lemma {:induction false} CrossedMissed(p: Name, q: Name, x: Name)
    requires p != q
    ensures var g := Crossed(p, q, x);
      && WellFormed(g) && OnlyIn(q).Keys == FileSet(g)
      && Search(g, OnlyIn(q), "r", x, {}).0.None? && Defines(g, OnlyIn(q), "r", x, "m", q)
  {
    var g := Crossed(p, q, x);
    CrossedDefines(p, q, x);
    CrossedBranches(p, q, x);
    assert g.files[0] == "r";
    hide Defines, Search;
    SearchTwo(g, OnlyIn(q), "r", Star("a"), Star("b"), x);
  }
}
