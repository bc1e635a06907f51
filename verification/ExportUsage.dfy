// Which exports are used: the seeding of used names and the propagation loop of
// scripts/ci/check-unused-code.ts over an abstract dependency graph, against chains of re-export hops.
// A name is used if a consumer names it, or names what some chain of re-exports leads back to it.
module ExportUsage {
  import opened Paths

  type File = string
  type Name = string

  datatype DependencyKind = Import | Namespace | ReExportNamed | ReExportAll

  datatype ReExport = ReExport(imported: Name, exported: Name)

  // An import or re-export of one module by another. `opaque` marks a namespace whose
  // members cannot be told apart.
  datatype Dependency = Dependency(
    resolved: File, kind: DependencyKind, names: seq<Name>, reExports: seq<ReExport>, opaqueUse: bool)

  datatype Graph = Graph(files: seq<File>, dependencies: map<File, seq<Dependency>>)

  ghost predicate WellFormed(g: Graph) {
    forall f :: f in g.files ==> f in g.dependencies
  }

  predicate IsReExport(d: Dependency) {
    d.kind == ReExportNamed || d.kind == ReExportAll
  }

  predicate UsesWholeModule(d: Dependency) {
    d.kind == Namespace && d.opaqueUse
  }

  type Edge = (File, Dependency)

  // The dependencies between modules of the graph.
  ghost function Edges(g: Graph): set<Edge>
    requires WellFormed(g)
  {
    set f, d | f in g.files && d in g.dependencies[f] && d.resolved in g.files :: (f, d)
  }

  // ------------------------------------------------------------ uses and their routes

  // A consumer names `n` of the module `f`.
  predicate NamesUse(e: Edge, f: File, n: Name) {
    e.1.resolved == f && !IsReExport(e.1) && !UsesWholeModule(e.1) && n in e.1.names
  }

  predicate WholeUse(e: Edge, f: File) {
    e.1.resolved == f && UsesWholeModule(e.1)
  }

  ghost predicate SeedName(edges: set<Edge>, f: File, n: Name) {
    exists e :: e in edges && NamesUse(e, f, n)
  }

  ghost predicate SeedAmbiguous(edges: set<Edge>, f: File) {
    exists e :: e in edges && WholeUse(e, f)
  }

  // The names that a re-export asks of its target when `names` are asked of it.
  function Carried(d: Dependency, names: set<Name>): set<Name> {
    if d.kind == ReExportAll then names
    else if d.kind == ReExportNamed then set r | r in d.reExports && r.exported in names :: r.imported
    else {}
  }

  predicate CarriesName(e: Edge, from: (File, Name), to: (File, Name)) {
    IsReExport(e.1) && e.0 == from.0 && e.1.resolved == to.0 && to.1 in Carried(e.1, {from.1})
  }

  predicate CarriesAmbiguity(e: Edge, from: File, to: File) {
    IsReExport(e.1) && e.0 == from && e.1.resolved == to
  }

  // One re-export hop: a use of the one name is a use of the other.
  ghost function NameHop(edges: set<Edge>): ((File, Name), (File, Name)) -> bool {
    (from: (File, Name), to: (File, Name)) => exists e :: e in edges && CarriesName(e, from, to)
  }

  ghost function FileHop(edges: set<Edge>): (File, File) -> bool {
    (from: File, to: File) => exists e :: e in edges && CarriesAmbiguity(e, from, to)
  }

  // A chain of re-export hops carries some consumer's use to the name.
  ghost predicate UseReaches(edges: set<Edge>, f: File, n: Name) {
    exists from: (File, Name) :: SeedName(edges, from.0, from.1) && Reaches(NameHop(edges), from, (f, n))
  }

  ghost predicate AmbiguityReaches(edges: set<Edge>, f: File) {
    exists from :: SeedAmbiguous(edges, from) && Reaches(FileHop(edges), from, f)
  }

  // ------------------------------------------------------------------- termination

  function NamesOf(d: Dependency): set<Name> {
    (set n | n in d.names) + (set r | r in d.reExports :: r.imported)
  }

  ghost function AllNames(g: Graph): set<Name>
    requires WellFormed(g)
  {
    set f, d, n | f in g.files && d in g.dependencies[f] && n in NamesOf(d) :: n
  }

  ghost function Marks(used: map<File, set<Name>>): set<(File, Name)> {
    set f, n | f in used && n in used[f] :: (f, n)
  }

  ghost function AllMarks(g: Graph): set<(File, Name)>
    requires WellFormed(g)
  {
    set f, n | f in g.files && n in AllNames(g) :: (f, n)
  }

  ghost function FileSet(g: Graph): set<File> {
    set f | f in g.files
  }

  // The state of the loop: the used names of each module and the modules whose use is
  // ambiguous.
  datatype Marking = Marking(used: map<File, set<Name>>, ambiguous: set<File>)

  ghost predicate Known(g: Graph, m: Marking)
    requires WellFormed(g)
  {
    && m.used.Keys == FileSet(g)
    && (forall f :: f in m.used ==> m.used[f] <= AllNames(g))
    && m.ambiguous <= FileSet(g)
  }

  // Every mark has a consumer and a chain of hops behind it.
  ghost predicate Sound(g: Graph, m: Marking)
    requires WellFormed(g)
  {
    && (forall f, n :: f in m.used && n in m.used[f] ==> UseReaches(Edges(g), f, n))
    && (forall f :: f in m.ambiguous ==> AmbiguityReaches(Edges(g), f))
  }

  ghost predicate Seeded(g: Graph, m: Marking)
    requires WellFormed(g)
  {
    && (forall f, n :: f in m.used && SeedName(Edges(g), f, n) ==> n in m.used[f])
    && (forall f :: SeedAmbiguous(Edges(g), f) ==> f in m.ambiguous)
  }

  ghost predicate Good(g: Graph, m: Marking)
    requires WellFormed(g)
  {
    Known(g, m) && Sound(g, m) && Seeded(g, m)
  }

  // How many marks the loop can still add.
  ghost function Missing(g: Graph, m: Marking): nat
    requires WellFormed(g)
  {
    |AllMarks(g) - Marks(m.used)| + |FileSet(g) - m.ambiguous|
  }

  // Nothing is left to carry along the edge.
  ghost predicate Settled(m: Marking, e: Edge) {
    IsReExport(e.1) && e.0 in m.used && e.1.resolved in m.used ==>
      && Carried(e.1, m.used[e.0]) <= m.used[e.1.resolved]
      && (e.0 in m.ambiguous ==> e.1.resolved in m.ambiguous)
  }

  // `m` has gone on to `n`, which differs from it only by more marks.
  ghost predicate Grows(g: Graph, m: Marking, n: Marking, changed: bool)
    requires WellFormed(g)
  {
    && Missing(g, n) <= Missing(g, m)
    && (changed ==> Missing(g, n) < Missing(g, m))
    && (!changed ==> n == m)
  }

  class Usage {
    const graph: Graph
    var used: map<File, set<Name>>
    var ambiguous: set<File>

    ghost function Now(): Marking
      reads this
    {
      Marking(used, ambiguous)
    }

    ghost predicate Valid()
      reads this
    {
      WellFormed(graph) && Known(graph, Now())
    }

    constructor (g: Graph)
      requires WellFormed(g)
      ensures graph == g && Valid()
      ensures ambiguous == {} && forall f :: f in used ==> used[f] == {}
    {
      graph := g;
      used := map f | f in g.files :: {};
      ambiguous := {};
    }

    // What one dependency contributes before any propagation.
    method SeedEdge(e: Edge)
      requires Valid() && e in Edges(graph)
      modifies this
      ensures Valid()
      ensures forall f, n :: f in used ==> (n in used[f] <==> n in old(used[f]) || NamesUse(e, f, n))
      ensures forall f :: f in ambiguous <==> f in old(ambiguous) || WholeUse(e, f)
    {
      var d := e.1;
      if IsReExport(d) {
        return;
      }
      if UsesWholeModule(d) {
        ambiguous := ambiguous + {d.resolved};
        return;
      }
      var usedNames := used[d.resolved];
      for i := 0 to |d.names|
        invariant usedNames == used[d.resolved] + set n | n in d.names[..i]
      {
        usedNames := usedNames + {d.names[i]};
      }
      EdgeNamesKnown(graph, e);
      used := used[d.resolved := usedNames];
    }

    method Seed()
      requires Valid() && ambiguous == {} && forall f :: f in used ==> used[f] == {}
      modifies this
      ensures Valid()
      ensures forall f, n :: f in used ==> (n in used[f] <==> SeedName(Edges(graph), f, n))
      ensures forall f :: f in ambiguous <==> SeedAmbiguous(Edges(graph), f)
    {
      ghost var seen: set<Edge> := {};
      for i := 0 to |graph.files|
        invariant Valid() && seen <= Edges(graph)
        invariant forall e :: e in Edges(graph) && e.0 in graph.files[..i] ==> e in seen
        invariant forall f, n :: f in used ==> (n in used[f] <==> SeedName(seen, f, n))
        invariant forall f :: f in ambiguous <==> SeedAmbiguous(seen, f)
      {
        var file := graph.files[i];
        var dependencies := graph.dependencies[file];
        for j := 0 to |dependencies|
          invariant Valid() && seen <= Edges(graph)
          invariant forall e :: e in Edges(graph) && e.0 in graph.files[..i] ==> e in seen
          invariant forall d :: d in dependencies[..j] && d.resolved in graph.files ==> (file, d) in seen
          invariant forall f, n :: f in used ==> (n in used[f] <==> SeedName(seen, f, n))
          invariant forall f :: f in ambiguous <==> SeedAmbiguous(seen, f)
        {
          var d := dependencies[j];
          if d.resolved in graph.files {
            SeedEdge((file, d));
            seen := seen + {(file, d)};
          }
        }
      }
      assert seen == Edges(graph);
    }

    // One re-export of the inner loop: the target takes over what is asked of the barrel.
    method PropagateEdge(e: Edge) returns (changed: bool)
      requires WellFormed(graph) && Good(graph, Now()) && e in Edges(graph)
      modifies this
      ensures Good(graph, Now()) && Grows(graph, old(Now()), Now(), changed)
      ensures !changed ==> Settled(Now(), e)
    {
      hide Good, Known, Missing, Carried, Edges, WellFormed, Settled, Grows;
      changed := false;
      var d := e.1;
      ghost var before := Now();
      GrowsNot(graph, before);
      if !IsReExport(d) {
        SettledWhen(before, e);
        return;
      }
      assert e.0 in used && d.resolved in used by {
        EdgeFiles(graph, e);
        GoodParts(graph, before);
        KnownIs(graph, before);
      }
      if e.0 in ambiguous && d.resolved !in ambiguous {
        MoreAmbiguity(graph, before, e);
        ambiguous := ambiguous + {d.resolved};
        GrowsMore(graph, before, Now());
        changed := true;
      }
      ghost var between := Now();
      var propagated := Carried(d, used[e.0]) - used[d.resolved];
      if propagated != {} {
        MoreNames(graph, between, e, propagated);
        used := used[d.resolved := used[d.resolved] + propagated];
        GrowsMore(graph, between, Now());
        GrowsTwice(graph, before, between, Now(), changed);
        changed := true;
      }
      SettledWhen(between, e);
    }

    // One pass over the modules and their re-exports.
    method PropagatePass() returns (changed: bool)
      requires WellFormed(graph) && Good(graph, Now())
      modifies this
      ensures Good(graph, Now())
      ensures !changed ==> forall e :: e in Edges(graph) ==> Settled(Now(), e)
      ensures Grows(graph, old(Now()), Now(), changed)
    {
      hide Good, Known, Missing, Settled;
      changed := false;
      ghost var start := Now();
      for i := 0 to |graph.files|
        invariant Good(graph, Now()) && Grows(graph, start, Now(), changed)
        invariant !changed ==> forall e :: e in Edges(graph) && e.0 in graph.files[..i] ==> Settled(start, e)
      {
        var file := graph.files[i];
        var dependencies := graph.dependencies[file];
        for j := 0 to |dependencies|
          invariant Good(graph, Now()) && Grows(graph, start, Now(), changed)
          invariant !changed ==> forall e :: e in Edges(graph) && e.0 in graph.files[..i] ==> Settled(start, e)
          invariant !changed ==>
            forall d :: d in dependencies[..j] && d.resolved in graph.files ==> Settled(start, (file, d))
        {
          if dependencies[j].resolved in graph.files {
            var more := PropagateEdge((file, dependencies[j]));
            changed := changed || more;
          }
        }
      }
    }

    // The propagation loop ends, and marks exactly the names and modules that a chain of
    // re-export hops joins to a consumer.
    method Propagate()
      requires Valid()
      requires forall f, n :: f in used ==> (n in used[f] <==> SeedName(Edges(graph), f, n))
      requires forall f :: f in ambiguous <==> SeedAmbiguous(Edges(graph), f)
      modifies this
      ensures Valid()
      ensures forall f, n :: f in used ==> (n in used[f] <==> UseReaches(Edges(graph), f, n))
      ensures forall f :: f in ambiguous <==> AmbiguityReaches(Edges(graph), f)
    {
      SeedsReach(graph);
      var changed := true;
      while changed
        invariant WellFormed(graph) && Good(graph, Now())
        invariant !changed ==> forall e :: e in Edges(graph) ==> Settled(Now(), e)
        decreases Missing(graph, Now()), changed
      {
        changed := PropagatePass();
      }
      NamesComplete(graph, Now());
    }
  }

  // Usage from nothing: seeded, then propagated.
  method UsageOf(g: Graph) returns (u: Usage)
    requires WellFormed(g)
    ensures fresh(u) && u.graph == g && u.Valid()
    ensures forall f :: f in u.used <==> f in g.files
    ensures forall f, n :: f in u.used ==> (n in u.used[f] <==> UseReaches(Edges(g), f, n))
    ensures forall f :: f in u.ambiguous <==> AmbiguityReaches(Edges(g), f)
  {
    hide UseReaches, AmbiguityReaches, SeedName, SeedAmbiguous, Edges;
    u := new Usage(g);
    u.Seed();
    u.Propagate();
  }

  // --------------------------------------------------------------------- the proof

  // `n` is `m` with more names used of the module `to`, or with `to` made ambiguous.
  ghost predicate Extends(m: Marking, n: Marking, to: File, names: set<Name>) {
    && to in m.used && n.used.Keys == m.used.Keys
    && (forall f :: f in m.used && f != to ==> n.used[f] == m.used[f])
    && n.used[to] == m.used[to] + names
    && m.ambiguous <= n.ambiguous <= m.ambiguous + {to}
  }

  lemma ExtendedKnown(g: Graph, m: Marking, n: Marking, to: File, names: set<Name>)
    requires WellFormed(g) && Known(g, m) && Extends(m, n, to, names) && names <= AllNames(g)
    ensures Known(g, n)
  {
    hide AllNames, FileSet, WellFormed;
    assert to in FileSet(g);
  }

  lemma ExtendedSound(g: Graph, m: Marking, n: Marking, to: File, names: set<Name>)
    requires WellFormed(g) && Sound(g, m) && Extends(m, n, to, names)
    requires forall name :: name in names ==> UseReaches(Edges(g), to, name)
    requires to in n.ambiguous ==> AmbiguityReaches(Edges(g), to)
    ensures Sound(g, n)
  {
    hide Edges, UseReaches, AmbiguityReaches, WellFormed;
    forall f, name | f in n.used && name in n.used[f]
      ensures UseReaches(Edges(g), f, name)
    {
      assert f in m.used;
      if f != to || name !in names {
        assert name in m.used[f];
      }
    }
  }

  lemma ExtendedSeeded(g: Graph, m: Marking, n: Marking, to: File, names: set<Name>)
    requires WellFormed(g) && Seeded(g, m) && Extends(m, n, to, names)
    ensures Seeded(g, n)
  {
    hide Edges, SeedName, SeedAmbiguous, WellFormed;
    forall f, name | f in n.used && SeedName(Edges(g), f, name)
      ensures name in n.used[f]
    {
      assert f in m.used && name in m.used[f];
    }
  }

  lemma MoreAmbiguity(g: Graph, m: Marking, e: Edge)
    requires WellFormed(g) && Good(g, m) && e in Edges(g) && IsReExport(e.1)
    requires e.0 in m.ambiguous && e.1.resolved !in m.ambiguous
    ensures Good(g, Marking(m.used, m.ambiguous + {e.1.resolved}))
    ensures Missing(g, Marking(m.used, m.ambiguous + {e.1.resolved})) < Missing(g, m)
  {
    var to := e.1.resolved;
    var n := Marking(m.used, m.ambiguous + {to});
    hide *;
    GoodParts(g, m);
    KnownIs(g, m);
    EdgeFiles(g, e);
    SoundIs(g, m, e.0);
    AmbiguityFurther(g, e);
    assert Extends(m, n, to, {}) by { NoNames(m, n, to); }
    ExtendedKnown(g, m, n, to, {});
    ExtendedSound(g, m, n, to, {});
    ExtendedSeeded(g, m, n, to, {});
    FewerLeft(FileSet(g), m.ambiguous, {to});
    GoodWhole(g, n);
    MissingIs(g, m);
    MissingIs(g, n);
  }

  lemma NoNames(m: Marking, n: Marking, to: File)
    requires to in m.used && n.used == m.used && n.ambiguous == m.ambiguous + {to}
    ensures Extends(m, n, to, {})
  {
    assert m.used[to] + {} == m.used[to];
  }

  lemma SomeNames(m: Marking, n: Marking, to: File, names: set<Name>)
    requires to in m.used && n.used == m.used[to := m.used[to] + names] && n.ambiguous == m.ambiguous
    ensures Extends(m, n, to, names)
  {
  }

  lemma GoodParts(g: Graph, m: Marking)
    requires WellFormed(g) && Good(g, m)
    ensures Known(g, m) && Sound(g, m) && Seeded(g, m)
  {
    hide Known, Sound, Seeded;
  }

  lemma GoodWhole(g: Graph, m: Marking)
    requires WellFormed(g) && Known(g, m) && Sound(g, m) && Seeded(g, m)
    ensures Good(g, m)
  {
    hide Known, Sound, Seeded;
  }

  lemma MissingIs(g: Graph, m: Marking)
    requires WellFormed(g)
    ensures Missing(g, m) == |AllMarks(g) - Marks(m.used)| + |FileSet(g) - m.ambiguous|
  {
    hide AllMarks, Marks, FileSet;
  }

  lemma EdgeFiles(g: Graph, e: Edge)
    requires WellFormed(g) && e in Edges(g)
    ensures e.0 in FileSet(g) && e.1.resolved in FileSet(g)
  {
  }

  lemma SoundIs(g: Graph, m: Marking, f: File)
    requires WellFormed(g) && Sound(g, m)
    ensures f in m.ambiguous ==> AmbiguityReaches(Edges(g), f)
    ensures f in m.used ==> forall n :: n in m.used[f] ==> UseReaches(Edges(g), f, n)
  {
    hide Edges, UseReaches, AmbiguityReaches;
  }

  lemma KnownIs(g: Graph, m: Marking)
    requires WellFormed(g) && Known(g, m)
    ensures m.used.Keys == FileSet(g) && m.ambiguous <= FileSet(g)
    ensures forall f :: f in m.used ==> m.used[f] <= AllNames(g)
  {
    hide FileSet, AllNames;
  }

  lemma MoreNames(g: Graph, m: Marking, e: Edge, names: set<Name>)
    requires WellFormed(g) && Good(g, m) && e in Edges(g) && IsReExport(e.1)
    requires e.0 in m.used && e.1.resolved in m.used
    requires names == Carried(e.1, m.used[e.0]) - m.used[e.1.resolved] && names != {}
    ensures Good(g, Marking(m.used[e.1.resolved := m.used[e.1.resolved] + names], m.ambiguous))
    ensures Missing(g, Marking(m.used[e.1.resolved := m.used[e.1.resolved] + names], m.ambiguous)) < Missing(g, m)
  {
    var to := e.1.resolved;
    var n := Marking(m.used[to := m.used[to] + names], m.ambiguous);
    hide *;
    GoodParts(g, m);
    KnownIs(g, m);
    SoundIs(g, m, e.0);
    SoundIs(g, m, to);
    assert Extends(m, n, to, names) by { SomeNames(m, n, to, names); }
    UsesFurther(g, e, m.used[e.0]);
    EdgeNamesKnown(g, e);
    ExtendedKnown(g, m, n, to, names);
    ExtendedSound(g, m, n, to, names);
    ExtendedSeeded(g, m, n, to, names);
    GoodWhole(g, n);
    FewerMarks(g, m, n, to, names);
  }

  lemma FewerMarks(g: Graph, m: Marking, n: Marking, to: File, names: set<Name>)
    requires WellFormed(g) && Known(g, m) && Known(g, n) && Extends(m, n, to, names)
    requires names != {} && names !! m.used[to] && n.ambiguous == m.ambiguous
    ensures Missing(g, n) < Missing(g, m)
  {
    MarksKnown(g, m.used);
    MarksKnown(g, n.used);
    hide Known, WellFormed, AllNames, AllMarks, FileSet;
    var before, after := Marks(m.used), Marks(n.used);
    var name :| name in names;
    assert (to, name) in after - before;
    assert before <= after;
    assert before + after == after;
    FewerLeft(AllMarks(g), before, after);
  }

  lemma GrowsNot(g: Graph, m: Marking)
    requires WellFormed(g)
    ensures Grows(g, m, m, false)
  {
    hide Missing;
  }

  lemma GrowsMore(g: Graph, m: Marking, n: Marking)
    requires WellFormed(g) && Missing(g, n) < Missing(g, m)
    ensures Grows(g, m, n, true)
  {
    hide Missing;
  }

  lemma GrowsTwice(g: Graph, l: Marking, m: Marking, n: Marking, changed: bool)
    requires WellFormed(g) && Grows(g, l, m, changed) && Grows(g, m, n, true)
    ensures Grows(g, l, n, true)
  {
    hide Missing;
  }

  lemma SettledWhen(m: Marking, e: Edge)
    ensures !IsReExport(e.1) ==> Settled(m, e)
    ensures e.0 in m.used && e.1.resolved in m.used ==>
      (Carried(e.1, m.used[e.0]) - m.used[e.1.resolved] == {} ==>
        (e.0 in m.ambiguous ==> e.1.resolved in m.ambiguous) ==> Settled(m, e))
  {
    hide Carried;
    if e.0 in m.used && e.1.resolved in m.used && Carried(e.1, m.used[e.0]) - m.used[e.1.resolved] == {} {
      forall n | n in Carried(e.1, m.used[e.0])
        ensures n in m.used[e.1.resolved]
      {
        assert n !in Carried(e.1, m.used[e.0]) - m.used[e.1.resolved];
      }
    }
  }

  lemma SeedsReach(g: Graph)
    requires WellFormed(g)
    ensures forall f, n :: SeedName(Edges(g), f, n) ==> UseReaches(Edges(g), f, n)
    ensures forall f :: SeedAmbiguous(Edges(g), f) ==> AmbiguityReaches(Edges(g), f)
  {
    forall f, n | SeedName(Edges(g), f, n)
      ensures UseReaches(Edges(g), f, n)
    {
      var from := (f, n);
      ReachesItself(NameHop(Edges(g)), from);
      assert SeedName(Edges(g), from.0, from.1);
    }
    forall f | SeedAmbiguous(Edges(g), f)
      ensures AmbiguityReaches(Edges(g), f)
    {
      ReachesItself(FileHop(Edges(g)), f);
    }
  }

  lemma UsesFurther(g: Graph, e: Edge, names: set<Name>)
    requires WellFormed(g) && e in Edges(g) && IsReExport(e.1)
    requires forall n :: n in names ==> UseReaches(Edges(g), e.0, n)
    ensures forall m :: m in Carried(e.1, names) ==> UseReaches(Edges(g), e.1.resolved, m)
  {
    forall m | m in Carried(e.1, names)
      ensures UseReaches(Edges(g), e.1.resolved, m)
    {
      var n :| n in names && m in Carried(e.1, {n});
      var from: (File, Name) :| SeedName(Edges(g), from.0, from.1) && Reaches(NameHop(Edges(g)), from, (e.0, n));
      assert CarriesName(e, (e.0, n), (e.1.resolved, m));
      ReachesFurther(NameHop(Edges(g)), from, (e.0, n), (e.1.resolved, m));
    }
  }

  lemma AmbiguityFurther(g: Graph, e: Edge)
    requires WellFormed(g) && e in Edges(g) && IsReExport(e.1) && AmbiguityReaches(Edges(g), e.0)
    ensures AmbiguityReaches(Edges(g), e.1.resolved)
  {
    var from :| SeedAmbiguous(Edges(g), from) && Reaches(FileHop(Edges(g)), from, e.0);
    assert CarriesAmbiguity(e, e.0, e.1.resolved);
    ReachesFurther(FileHop(Edges(g)), from, e.0, e.1.resolved);
  }

  lemma MarksKnown(g: Graph, used: map<File, set<Name>>)
    requires WellFormed(g) && used.Keys == FileSet(g)
    requires forall f :: f in used ==> used[f] <= AllNames(g)
    ensures Marks(used) <= AllMarks(g)
  {
  }

  lemma FewerLeft<T>(all: set<T>, before: set<T>, after: set<T>)
    requires after <= all && after - before != {} 
    ensures |all - (before + after)| < |all - before|
  {
    var x :| x in after - before;
    assert all - (before + after) <= (all - before) - {x};
    Smaller(all - (before + after), (all - before) - {x});
  }

  lemma Smaller<T>(a: set<T>, b: set<T>)
    requires a <= b
    ensures |a| <= |b|
  {
    assert b == a + (b - a);
  }

  ghost predicate Marked(m: Marking, x: (File, Name)) {
    x.0 in m.used && x.1 in m.used[x.0]
  }

  // Where every edge is settled, a seeded mark has followed every chain of hops.
  lemma NamesComplete(g: Graph, m: Marking)
    requires WellFormed(g) && Good(g, m) && forall e :: e in Edges(g) ==> Settled(m, e)
    ensures forall f, n :: f in m.used && UseReaches(Edges(g), f, n) ==> n in m.used[f]
    ensures forall f :: AmbiguityReaches(Edges(g), f) ==> f in m.ambiguous
  {
    AmbiguityComplete(g, m);
    hide Known, Sound, AmbiguityReaches, SeedAmbiguous, Settled, Edges, WellFormed;
    var marked := (x: (File, Name)) => Marked(m, x);
    forall a, b | marked(a) && NameHop(Edges(g))(a, b)
      ensures marked(b)
    {
    }
    forall f, n | f in m.used && UseReaches(Edges(g), f, n)
      ensures n in m.used[f]
    {
      SeedIsMarked(g, m, f, n, marked);
    }
  }

  lemma SeedIsMarked(g: Graph, m: Marking, f: File, n: Name, marked: ((File, Name)) -> bool)
    requires WellFormed(g) && Good(g, m) && UseReaches(Edges(g), f, n)
    requires forall x :: marked(x) == Marked(m, x)
    requires forall a, b :: marked(a) && NameHop(Edges(g))(a, b) ==> marked(b)
    ensures Marked(m, (f, n))
  {
    hide Edges, SeedAmbiguous, AmbiguityReaches;
    var from: (File, Name) :| SeedName(Edges(g), from.0, from.1) && Reaches(NameHop(Edges(g)), from, (f, n));
    assert from.0 in FileSet(g) by { SeedInGraph(g, from.0, from.1); }
    assert Marked(m, from);
    hide *;
    ReachesKeeps(NameHop(Edges(g)), marked, from, (f, n));
  }

  lemma SeedInGraph(g: Graph, f: File, n: Name)
    requires WellFormed(g) && SeedName(Edges(g), f, n)
    ensures f in FileSet(g)
  {
  }

  lemma AmbiguityComplete(g: Graph, m: Marking)
    requires WellFormed(g) && Good(g, m) && forall e :: e in Edges(g) ==> Settled(m, e)
    ensures forall f :: AmbiguityReaches(Edges(g), f) ==> f in m.ambiguous
  {
    var edges := Edges(g);
    var marked := (f: File) => f in m.ambiguous;
    assert forall a, b :: marked(a) && FileHop(edges)(a, b) ==> marked(b) by {
      forall a, b | marked(a) && FileHop(edges)(a, b)
        ensures marked(b)
      {
        var e :| e in edges && CarriesAmbiguity(e, a, b);
      }
    }
    forall f | AmbiguityReaches(edges, f)
      ensures f in m.ambiguous
    {
      var from :| SeedAmbiguous(edges, from) && Reaches(FileHop(edges), from, f);
      ReachesKeeps(FileHop(edges), marked, from, f);
    }
  }

  lemma EdgeNamesKnown(g: Graph, e: Edge)
    requires WellFormed(g) && e in Edges(g)
    ensures (set n | n in e.1.names) <= AllNames(g)
    ensures forall names :: names <= AllNames(g) ==> Carried(e.1, names) <= AllNames(g)
  {
    assert forall n :: n in e.1.names ==> n in NamesOf(e.1);
    assert forall r :: r in e.1.reExports ==> r.imported in NamesOf(e.1);
  }

  // ------------------------------------------------------------- in terms of the graph

  // A dependency of one module of the graph on another.
  ghost predicate DependsOn(g: Graph, from: File, d: Dependency, to: File)
    requires WellFormed(g)
  {
    from in g.files && d in g.dependencies[from] && d.resolved == to && to in g.files
  }

  // A name is used from the start if a module imports it, or names it of a namespace whose members can
  // be told apart; all names of a module are if a namespace of it cannot.
  lemma SeedsMean(g: Graph, f: File, n: Name)
    requires WellFormed(g)
    ensures SeedName(Edges(g), f, n) <==>
      exists from, d :: DependsOn(g, from, d, f) && n in d.names && (d.kind == Import || (d.kind == Namespace && !d.opaqueUse))
    ensures SeedAmbiguous(Edges(g), f) <==> exists from, d :: DependsOn(g, from, d, f) && d.kind == Namespace && d.opaqueUse
  {
    if from, d :| DependsOn(g, from, d, f) && n in d.names && (d.kind == Import || (d.kind == Namespace && !d.opaqueUse)) {
      assert (from, d) in Edges(g) && NamesUse((from, d), f, n);
    }
    if from, d :| DependsOn(g, from, d, f) && d.kind == Namespace && d.opaqueUse {
      assert (from, d) in Edges(g) && WholeUse((from, d), f);
    }
    if SeedName(Edges(g), f, n) {
      var e :| e in Edges(g) && NamesUse(e, f, n);
      assert DependsOn(g, e.0, e.1, f);
    }
    if SeedAmbiguous(Edges(g), f) {
      var e :| e in Edges(g) && WholeUse(e, f);
      assert DependsOn(g, e.0, e.1, f);
    }
  }

  // A re-export of everything asks its target for the same name, one of named exports for what it
  // imports under that name; and both hand on ambiguity.
  predicate PassesOn(d: Dependency, n: Name, m: Name) {
    (d.kind == ReExportAll && m == n) || (d.kind == ReExportNamed && ReExport(m, n) in d.reExports)
  }

  lemma NameHopsMean(g: Graph, from: (File, Name), to: (File, Name))
    requires WellFormed(g)
    ensures NameHop(Edges(g))(from, to) <==> exists d :: DependsOn(g, from.0, d, to.0) && PassesOn(d, from.1, to.1)
  {
    if d :| DependsOn(g, from.0, d, to.0) && PassesOn(d, from.1, to.1) {
      assert (from.0, d) in Edges(g) && CarriesName((from.0, d), from, to);
    }
    if NameHop(Edges(g))(from, to) {
      var e :| e in Edges(g) && CarriesName(e, from, to);
      assert DependsOn(g, from.0, e.1, to.0);
    }
  }

  lemma FileHopsMean(g: Graph, from: File, to: File)
    requires WellFormed(g)
    ensures FileHop(Edges(g))(from, to) <==>
      exists d :: DependsOn(g, from, d, to) && (d.kind == ReExportAll || d.kind == ReExportNamed)
  {
    if d :| DependsOn(g, from, d, to) && (d.kind == ReExportAll || d.kind == ReExportNamed) {
      assert (from, d) in Edges(g) && CarriesAmbiguity((from, d), from, to);
    }
    if FileHop(Edges(g))(from, to) {
      var e :| e in Edges(g) && CarriesAmbiguity(e, from, to);
      assert DependsOn(g, from, e.1, to);
    }
  }
}
