// What the lane artefact conserves, and what it does not depend on.
module LaneLaws {
  import opened Options
  import opened SortedText
  import opened DeploymentIds
  import opened LaneAdmission
  import opened LaneDescriptors

  lemma {:induction false} OutcomesSplit(outcomes: seq<Verdict>)
    ensures |Descriptors(outcomes)| + |NotReviewed(outcomes)| == |outcomes|
  {
    if outcomes != [] {
      OutcomesSplit(outcomes[..|outcomes| - 1]);
    }
  }

  lemma {:induction false} IncreasingSize(keys: seq<string>, all: set<string>)
    requires Increasing(keys) && forall k :: k in keys <==> k in all
    ensures |keys| == |all|
  {
    if keys == [] {
    } else {
      forall k
        ensures k in keys[1..] <==> k in all - {keys[0]}
      {
        TailMembers(keys, k);
      }
      assert keys[0] in keys;
      IncreasingSize(keys[1..], all - {keys[0]});
    }
  }

  // The nine counts of a map of reasons.
  function SumOf(count: Reason -> nat): nat {
    count(InvalidInventoryLane) + count(ContributorMismatch) + count(ContributorWithoutEmitter)
    + count(EmitterPinNotDecoded) + count(EmitterAbiBasisUnverified) + count(EmitterAbiEventsEmpty)
    + count(LookbackBelowFloor) + count(AbiNotCovered) + count(NoReviewedInventory)
  }

  lemma {:induction false} ReasonsCoverListed(listed: seq<Listed>)
    ensures SumOf(r => CountReason(listed, r)) == |listed|
  {
    if listed != [] {
      var n := |listed| - 1;
      ReasonsCoverListed(listed[..n]);
      assert listed == listed[..n] + [listed[n]];
      forall r
        ensures CountReason(listed, r) == CountReason(listed[..n], r) + if listed[n].reason == r then 1 else 0
      {
      }
      hide CountReason;
    }
  }

  lemma {:induction false} KindsSplit(kinds: seq<RefKind>)
    ensures |kinds| == CountNonEvm(kinds) + CountMalformed(kinds) + |Entries(kinds)|
  {
    if kinds != [] {
      KindsSplit(kinds[..|kinds| - 1]);
    }
  }

  // Nothing is lost: every lane is covered or listed, the reasons add up to the lanes listed and the
  // inventory subjects that are no lane, and every route reference counts once.
  lemma {:induction false} Conservation(env: Env, registry: Registry, input: Input, keys: seq<string>, a: Artifact)
    requires Derived(env, registry, input, keys, a)
    ensures a.lanes == |a.descriptors| + |a.notReviewed|
    ensures var lanes := LanesOf(Entries(Kinds(registry, input.records)));
      SumOf(r => Tally(a.byReason, r)) == |a.notReviewed| + |Unmatched(input.inventory, lanes)|
    ensures a.routeRefs == a.nonEvm + a.malformed + |Entries(Kinds(registry, input.records))|
  {
    var kinds := Kinds(registry, input.records);
    var lanes := LanesOf(Entries(kinds));
    KindsSplit(kinds);
    OutcomesSplit(Outcomes(env, input, lanes, keys));
    IncreasingSize(keys, lanes.Keys);
    ReasonsCoverListed(a.notReviewed);
    hide CountReason, LanesOf, Entries, Kinds, Outcomes, Descriptors, NotReviewed, CountNonEvm, CountMalformed, Tally, Unmatched;
  }

  // A key is a lane exactly when an entry has it; the lane's chain is that of its first entry, and
  // its contributors are those of its entries.
  ghost predicate EntryOf(entries: seq<Entry>, k: string, c: Contributor) {
    exists e :: e in entries && e.key == k && e.contributor == c
  }

  ghost predicate Chains(entries: seq<Entry>, k: string, chain: string) {
    exists e :: e in entries && e.key == k && e.chain == chain
  }

  ghost predicate Grouped(entries: seq<Entry>, lanes: Lanes) {
    && (forall k :: k in lanes <==> exists e :: e in entries && e.key == k)
    && (forall k :: k in lanes ==>
          && lanes[k].subject == k && Chains(entries, k, lanes[k].chain)
          && forall c :: c in lanes[k].contributors <==> EntryOf(entries, k, c))
  }

  lemma GroupedMore(entries: seq<Entry>, lanes: Lanes, e: Entry)
    requires Grouped(entries, lanes)
    ensures Grouped(entries + [e], AddEntry(lanes, e))
  {
    var more, after := entries + [e], AddEntry(lanes, e);
    assert e in more;
    forall k
      ensures k in after <==> exists f :: f in more && f.key == k
    {
      if k in lanes {
        var f :| f in entries && f.key == k;
        assert f in more;
      }
    }
    forall k | k in after
      ensures after[k].subject == k && Chains(more, k, after[k].chain)
      ensures forall c :: c in after[k].contributors <==> EntryOf(more, k, c)
    {
      if k in lanes {
        var f :| f in entries && f.key == k && f.chain == lanes[k].chain;
        assert f in more;
        forall c
          ensures c in after[k].contributors <==> EntryOf(more, k, c)
        {
        }
      } else {
        forall c
          ensures c in after[k].contributors <==> EntryOf(more, k, c)
        {
        }
      }
    }
  }

  lemma {:induction false} LanesGrouped(entries: seq<Entry>)
    ensures Grouped(entries, LanesOf(entries))
  {
    hide Grouped;
    if entries == [] {
      NothingGrouped();
    } else {
      var n := |entries| - 1;
      LanesGrouped(entries[..n]);
      GroupedMore(entries[..n], LanesOf(entries[..n]), entries[n]);
      assert entries == entries[..n] + [entries[n]];
    }
  }

  lemma NothingGrouped()
    ensures Grouped([], map[])
  {
  }

  // No two references spell the chain of one lane differently.
  ghost predicate ChainConsistent(entries: seq<Entry>) {
    forall e, f :: e in entries && f in entries && e.key == f.key ==> e.chain == f.chain
  }

  lemma SameIdLists(a: seq<Contributor>, b: seq<Contributor>)
    requires forall c :: c in a <==> c in b
    ensures SortedValues(ControlIds(a)) == SortedValues(ControlIds(b))
    ensures SortedValues(AssetIds(a)) == SortedValues(AssetIds(b))
  {
    IdsIncluded(a, b);
    IdsIncluded(b, a);
    SortedValuesOf(ControlIds(a), ControlIds(b));
    SortedValuesOf(AssetIds(a), AssetIds(b));
  }

  lemma IdsIncluded(a: seq<Contributor>, b: seq<Contributor>)
    requires forall c :: c in a ==> c in b
    ensures forall y :: y in ControlIds(a) ==> y in ControlIds(b)
    ensures forall y :: y in AssetIds(a) ==> y in AssetIds(b)
  {
    forall y | y in ControlIds(a)
      ensures y in ControlIds(b)
    {
      var i :| 0 <= i < |a| && ControlIds(a)[i] == y;
      assert a[i] in a;
      var j :| 0 <= j < |b| && b[j] == a[i];
      assert ControlIds(b)[j] == y;
    }
    forall y | y in AssetIds(a)
      ensures y in AssetIds(b)
    {
      var i :| 0 <= i < |a| && AssetIds(a)[i] == y;
      assert a[i] in a;
      var j :| 0 <= j < |b| && b[j] == a[i];
      assert AssetIds(b)[j] == y;
    }
  }

  lemma SameOutcomes(env: Env, x: Input, y: Input, la: Lanes, lb: Lanes, keys: seq<string>, a: seq<Entry>, b: seq<Entry>)
    requires Grouped(a, la) && Grouped(b, lb) && ChainConsistent(a) && forall e :: e in a <==> e in b
    requires x.inventory == y.inventory && x.lookbacks == y.lookbacks
    requires (forall k :: k in keys ==> k in la) && (forall k :: k in keys ==> k in lb)
    ensures Outcomes(env, x, la, keys) == Outcomes(env, y, lb, keys)
  {
    forall i | 0 <= i < |keys|
      ensures Outcomes(env, x, la, keys)[i] == Outcomes(env, y, lb, keys)[i]
    {
      assert keys[i] in keys;
      SameIdLists(la[keys[i]].contributors, lb[keys[i]].contributors);
      hide OutcomeOf, SortedValues;
    }
  }

  // Two artefacts that read the same.
  ghost predicate SameArtifact(a: Artifact, b: Artifact) {
    a == b.(byReason := a.byReason) && forall r :: Tally(a.byReason, r) == Tally(b.byReason, r)
  }

  ghost predicate SameKinds(x: seq<RefKind>, y: seq<RefKind>) {
    multiset(x) == multiset(y)
  }

  lemma {:induction false} EntriesMean(kinds: seq<RefKind>)
    ensures forall e :: e in Entries(kinds) <==> Route(e) in kinds
  {
    if kinds != [] {
      var n := |kinds| - 1;
      EntriesMean(kinds[..n]);
      assert kinds == kinds[..n] + [kinds[n]];
    }
  }

  lemma {:induction false} CountsOfAppend(a: seq<RefKind>, b: seq<RefKind>)
    ensures CountMalformed(a + b) == CountMalformed(a) + CountMalformed(b)
    ensures CountNonEvm(a + b) == CountNonEvm(a) + CountNonEvm(b)
  {
    if b == [] {
      assert a + b == a;
    } else {
      var n := |b| - 1;
      CountsOfAppend(a, b[..n]);
      assert (a + b)[..|a + b| - 1] == a + b[..n];
    }
  }

  // The last element of one sequence, found and taken out of another that holds the same.
  lemma TakeOut<T>(x: seq<T>, y: seq<T>) returns (i: nat)
    requires multiset(x) == multiset(y) && x != []
    ensures i < |y| && y[i] == x[|x| - 1]
    ensures multiset(x[..|x| - 1]) == multiset(y[..i] + y[i + 1..])
    ensures y == y[..i] + ([y[i]] + y[i + 1..])
  {
    var n := |x| - 1;
    var last := x[n];
    assert x == x[..n] + [last];
    assert last in multiset(y);
    i :| 0 <= i < |y| && y[i] == last;
    assert y == y[..i] + ([y[i]] + y[i + 1..]);
    assert multiset(x[..n]) == multiset(x) - multiset{last};
    assert multiset(y[..i] + y[i + 1..]) == multiset(y) - multiset{last};
  }

  lemma {:induction false} CountsOfBag(x: seq<RefKind>, y: seq<RefKind>)
    requires SameKinds(x, y)
    ensures CountMalformed(x) == CountMalformed(y) && CountNonEvm(x) == CountNonEvm(y) && |x| == |y|
    decreases |x|
  {
    if x == [] {
      assert |multiset(y)| == 0;
      assert y == [];
    } else {
      var i := TakeOut(x, y);
      hide SameKinds;
      var n := |x| - 1;
      var last, rest := [x[n]], y[..i] + y[i + 1..];
      CountsOfBag(x[..n], rest);
      CountsOfAppend(y[..i], last + y[i + 1..]);
      CountsOfAppend(last, y[i + 1..]);
      CountsOfAppend(y[..i], y[i + 1..]);
      CountsOfAppend(x[..n], last);
      assert x == x[..n] + last;
    }
  }

  lemma NonEvmKeysOfBag(x: seq<RefKind>, y: seq<RefKind>)
    requires forall k :: k in x ==> k in y
    ensures NonEvmKeys(x) <= NonEvmKeys(y)
  {
    forall key | key in NonEvmKeys(x)
      ensures key in NonEvmKeys(y)
    {
      var i :| 0 <= i < |x| && x[i].NonEvm? && x[i].laneKey == key;
      assert x[i] in x;
      var j :| 0 <= j < |y| && y[j] == x[i];
      assert y[j].NonEvm?;
    }
  }

  lemma SameMembers<T>(x: seq<T>, y: seq<T>)
    requires multiset(x) == multiset(y)
    ensures forall t :: t in x <==> t in y
  {
    forall t
      ensures t in x <==> t in y
    {
      assert t in x <==> t in multiset(x);
      assert t in y <==> t in multiset(y);
    }
  }

  lemma {:induction false} DerivedFields(env: Env, registry: Registry, input: Input, keys: seq<string>, a: Artifact)
    requires Derived(env, registry, input, keys, a)
    ensures var kinds := Kinds(registry, input.records);
      var lanes := LanesOf(Entries(kinds));
      && KeysOf(keys, lanes) && (forall k :: k in keys ==> k in lanes)
      && a.lanes == |lanes.Keys|
      && a.descriptors == Descriptors(Outcomes(env, input, lanes, keys))
      && a.notReviewed == NotReviewed(Outcomes(env, input, lanes, keys))
      && a.routeRefs == |kinds| && a.nonEvm == CountNonEvm(kinds) && a.malformed == CountMalformed(kinds)
      && a.lanesNonEvm == |NonEvmKeys(kinds)|
  {
    hide Kinds, LanesOf, Entries, Outcomes, Descriptors, NotReviewed, CountNonEvm, CountMalformed, NonEvmKeys, CountReason, Increasing;
  }

  lemma {:induction false} DerivedTallies(env: Env, registry: Registry, input: Input, keys: seq<string>, a: Artifact)
    requires Derived(env, registry, input, keys, a)
    ensures var unmatched := |Subjects(input.inventory) - LanesOf(Entries(Kinds(registry, input.records))).Keys|;
      forall r :: Tally(a.byReason, r) == CountReason(a.notReviewed, r) + if r.InvalidInventoryLane? then unmatched else 0
  {
    hide Kinds, LanesOf, Entries, Outcomes, Descriptors, NotReviewed, CountNonEvm, CountMalformed, NonEvmKeys, CountReason, Increasing,
      Tally, Subjects;
  }

  // The lanes of the same references.
  lemma {:induction false} LanesAgree(p: seq<RefKind>, q: seq<RefKind>)
    requires SameKinds(p, q)
    ensures var a, b := Entries(p), Entries(q);
      && (forall e :: e in a <==> e in b)
      && Grouped(a, LanesOf(a)) && Grouped(b, LanesOf(b)) && LanesOf(a).Keys == LanesOf(b).Keys
      && NonEvmKeys(p) == NonEvmKeys(q)
  {
    SameMembers(p, q);
    EntriesMean(p);
    EntriesMean(q);
    NonEvmKeysOfBag(p, q);
    NonEvmKeysOfBag(q, p);
    LanesGrouped(Entries(p));
    LanesGrouped(Entries(q));
    hide Entries, LanesOf, NonEvmKeys, Grouped, SameKinds;
    assert forall e :: e in Entries(p) <==> e in Entries(q);
  }

  lemma SameKeyLists(kx: seq<string>, ky: seq<string>, la: Lanes, lb: Lanes)
    requires KeysOf(kx, la) && KeysOf(ky, lb) && la.Keys == lb.Keys
    ensures kx == ky
  {
    hide Increasing;
    IncreasingUnique(kx, ky);
  }

  // The same references, in whatever order, make the same artefact.
  lemma {:induction false} KindsDecide(env: Env, registry: Registry, x: Input, y: Input, kx: seq<string>, ky: seq<string>, a: Artifact, b: Artifact)
    requires Derived(env, registry, x, kx, a) && Derived(env, registry, y, ky, b)
    requires x.inventory == y.inventory && x.lookbacks == y.lookbacks
    requires SameKinds(Kinds(registry, x.records), Kinds(registry, y.records))
    requires ChainConsistent(Entries(Kinds(registry, x.records)))
    ensures SameArtifact(a, b)
  {
    hide *;
    var p, q := Kinds(registry, x.records), Kinds(registry, y.records);
    var la, lb := LanesOf(Entries(p)), LanesOf(Entries(q));
    DerivedFields(env, registry, x, kx, a);
    DerivedFields(env, registry, y, ky, b);
    DerivedTallies(env, registry, x, kx, a);
    DerivedTallies(env, registry, y, ky, b);
    CountsOfBag(p, q);
    LanesAgree(p, q);
    SameKeyLists(kx, ky, la, lb);
    SameOutcomes(env, x, y, la, lb, kx, Entries(p), Entries(q));
    FieldsAgree(a, b);
  }

  lemma FieldsAgree(a: Artifact, b: Artifact)
    requires a.lanes == b.lanes && a.descriptors == b.descriptors && a.notReviewed == b.notReviewed
    requires a.routeRefs == b.routeRefs && a.nonEvm == b.nonEvm && a.malformed == b.malformed && a.lanesNonEvm == b.lanesNonEvm
    requires forall r :: Tally(a.byReason, r) == Tally(b.byReason, r)
    ensures SameArtifact(a, b)
  {
  }

  // A record up to the order of its references.
  datatype Shape = Shape(isBridge: bool, assetId: string, controlId: string, refs: multiset<string>)

  ghost function ShapeOf(r: Record): Shape {
    Shape(r.isBridge, r.assetId, r.controlId, multiset(r.routeRefs))
  }

  ghost function Shapes(records: seq<Record>): (shapes: seq<Shape>)
    ensures |shapes| == |records| && forall i :: 0 <= i < |records| ==> shapes[i] == ShapeOf(records[i])
  {
    seq(|records|, i requires 0 <= i < |records| => ShapeOf(records[i]))
  }

  // The same records in another order, each with the same references in another order.
  ghost predicate Reordered(x: seq<Record>, y: seq<Record>) {
    multiset(Shapes(x)) == multiset(Shapes(y))
  }

  function KindsOfRecord(registry: Registry, r: Record): seq<RefKind> {
    if r.isBridge then KindsOfRefs(registry, r, r.routeRefs) else []
  }

  lemma {:induction false} KindsAppend(registry: Registry, a: seq<Record>, b: seq<Record>)
    ensures Kinds(registry, a + b) == Kinds(registry, a) + Kinds(registry, b)
  {
    hide KindsOfRefs;
    if b == [] {
      assert a + b == a;
    } else {
      var n := |b| - 1;
      KindsAppend(registry, a, b[..n]);
      assert (a + b)[..|a + b| - 1] == a + b[..n];
    }
  }

  lemma {:induction false} KindsOne(registry: Registry, r: Record)
    ensures Kinds(registry, [r]) == KindsOfRecord(registry, r)
  {
    assert [r][..0] == [];
  }

  lemma {:induction false} RefsBag(registry: Registry, r: Record, s: Record, x: seq<string>, y: seq<string>)
    requires multiset(x) == multiset(y) && r.assetId == s.assetId && r.controlId == s.controlId
    ensures multiset(KindsOfRefs(registry, r, x)) == multiset(KindsOfRefs(registry, s, y))
    decreases |x|
  {
    hide KindOf;
    if x == [] {
      assert |multiset(y)| == 0;
      assert y == [];
    } else {
      var i := TakeOut(x, y);
      var n := |x| - 1;
      var rest := y[..i] + y[i + 1..];
      RefsBag(registry, r, s, x[..n], rest);
      SameKind(registry, r, s, x[n]);
      var kx, ky := KindsOfRefs(registry, r, x), KindsOfRefs(registry, s, y);
      assert kx == KindsOfRefs(registry, r, x[..n]) + [kx[n]];
      var front, back := KindsOfRefs(registry, s, y[..i]), KindsOfRefs(registry, s, y[i + 1..]);
      assert ky == front + ([ky[i]] + back);
      assert KindsOfRefs(registry, s, rest) == front + back;
    }
  }

  lemma SameKind(registry: Registry, r: Record, s: Record, ref: string)
    requires r.assetId == s.assetId && r.controlId == s.controlId
    ensures KindOf(registry, r, ref) == KindOf(registry, s, ref)
  {
  }

  lemma ShapeDecides(registry: Registry, r: Record, s: Record)
    requires ShapeOf(r) == ShapeOf(s)
    ensures multiset(KindsOfRecord(registry, r)) == multiset(KindsOfRecord(registry, s))
  {
    RefsBag(registry, r, s, r.routeRefs, s.routeRefs);
  }

  // One record taken out of the other order, where it has the same shape as the last of the first.
  lemma ReorderedWithout(x: seq<Record>, y: seq<Record>) returns (i: nat)
    requires Reordered(x, y) && x != []
    ensures i < |y| && ShapeOf(y[i]) == ShapeOf(x[|x| - 1])
    ensures Reordered(x[..|x| - 1], y[..i] + y[i + 1..])
  {
    i := TakeOut(Shapes(x), Shapes(y));
    hide ShapeOf;
    assert Shapes(x)[..|x| - 1] == Shapes(x[..|x| - 1]);
    assert Shapes(y)[..i] + Shapes(y)[i + 1..] == Shapes(y[..i] + y[i + 1..]);
  }

  lemma {:induction false} KindsWithout(registry: Registry, y: seq<Record>, i: nat)
    requires i < |y|
    ensures multiset(Kinds(registry, y)) ==
      multiset(Kinds(registry, y[..i] + y[i + 1..])) + multiset(KindsOfRecord(registry, y[i]))
  {
    hide *;
    var front, back := y[..i], y[i + 1..];
    KindsAppend(registry, front, [y[i]] + back);
    KindsAppend(registry, [y[i]], back);
    KindsAppend(registry, front, back);
    KindsOne(registry, y[i]);
    assert y == front + ([y[i]] + back);
  }

  lemma {:induction false} ReorderedKinds(registry: Registry, x: seq<Record>, y: seq<Record>)
    requires Reordered(x, y)
    ensures SameKinds(Kinds(registry, x), Kinds(registry, y))
    decreases |x|
  {
    if x == [] {
      assert |multiset(Shapes(y))| == 0;
      assert y == [];
    } else {
      var i := ReorderedWithout(x, y);
      var n := |x| - 1;
      assert x[..n] + x[n + 1..] == x[..n];
      ReorderedKinds(registry, x[..n], y[..i] + y[i + 1..]);
      KindsWithout(registry, x, n);
      KindsWithout(registry, y, i);
      ShapeDecides(registry, x[n], y[i]);
      hide Kinds, KindsOfRecord, Reordered, ShapeOf;
    }
  }

  // An entry's key names its chain.
  ghost predicate NamesChain(e: Entry) {
    Colon(e.key) < |e.key| && e.key[..Colon(e.key)] == e.chain
  }

  lemma RefNamesChain(registry: Registry, r: Record, ref: string)
    requires Lawful(registry)
    ensures var kind := KindOf(registry, r, ref); kind.Route? ==> NamesChain(kind.entry)
  {
    hide Normalize, ChainOf, IsEvm, Lawful;
    if IsEvm(registry, ref) && Normalize(registry, ref) != "" {
      NormalFormNamesChain(registry, ref);
    }
  }

  lemma {:induction false} KindsNameChains(registry: Registry, records: seq<Record>)
    requires Lawful(registry)
    ensures forall kind :: kind in Kinds(registry, records) && kind.Route? ==> NamesChain(kind.entry)
  {
    hide KindOf, NamesChain, Lawful;
    if records != [] {
      var r := records[|records| - 1];
      KindsNameChains(registry, records[..|records| - 1]);
      forall i | 0 <= i < |r.routeRefs|
        ensures KindOf(registry, r, r.routeRefs[i]).Route? ==> NamesChain(KindOf(registry, r, r.routeRefs[i]).entry)
      {
        RefNamesChain(registry, r, r.routeRefs[i]);
      }
    }
  }

  // Under a registry whose ids stand for themselves a lane has one chain, whatever the records.
  lemma {:induction false} LawfulChains(registry: Registry, records: seq<Record>)
    requires Lawful(registry)
    ensures ChainConsistent(Entries(Kinds(registry, records)))
  {
    hide Kinds, Entries, Lawful;
    KindsNameChains(registry, records);
    EntriesMean(Kinds(registry, records));
  }

  // The artefact depends on the order neither of records nor of their references.
  lemma OrderIndependent(env: Env, registry: Registry, x: Input, y: Input, kx: seq<string>, ky: seq<string>, a: Artifact, b: Artifact)
    requires Lawful(registry)
    requires Derived(env, registry, x, kx, a) && Derived(env, registry, y, ky, b)
    requires x.inventory == y.inventory && x.lookbacks == y.lookbacks && Reordered(x.records, y.records)
    ensures SameArtifact(a, b)
  {
    hide *;
    LawfulChains(registry, x.records);
    ReorderedKinds(registry, x.records, y.records);
    KindsDecide(env, registry, x, y, kx, ky, a, b);
  }

  // What the law is for: of two entries with one key and two chains, the first stands for the lane, and a
  // descriptor granted under its chain is refused when the other comes first.
  lemma FirstChain(e: Entry, f: Entry)
    requires e.key == f.key
    ensures LanesOf([e, f]) == map[e.key := Lane(e.key, e.chain, [e.contributor, f.contributor])]
  {
    LanesMore([], e);
    LanesMore([e], f);
    assert [] + [e] == [e] && [e] + [f] == [e, f];
    assert [] + [e.contributor] == [e.contributor] && [e.contributor] + [f.contributor] == [e.contributor, f.contributor];
  }

  lemma EmitterOnChain(env: Env, lane: Lane, record: Inventory, lookbacks: map<string, nat>, emitter: Emitter)
    requires emitter in record.emitters
    ensures Admit(env, lane, record, lookbacks).descriptor.Some? ==> emitter.chain == lane.chain
    ensures emitter.chain != lane.chain ==> Admit(env, lane, record, lookbacks).reason == Some(InvalidInventoryLane)
  {
    var reasons := Reasons(env, lane.chain, SortedValues(ControlIds(lane.contributors)), record, lookbacks);
    hide Admit, SortedValues, Known, Mismatched, UnmappedIds, Repeats, AllFaults;
    AllFaultsMean(env, lane.chain, record.emitters);
    AdmittedExactly(env, lane, record, lookbacks);
    if emitter.chain != lane.chain {
      assert InvalidInventoryLane in Faults(env, lane.chain, emitter);
      assert InvalidInventoryLane in reasons;
    }
  }

  lemma FirstChainDecides(env: Env, e: Entry, f: Entry, record: Inventory, lookbacks: map<string, nat>)
    requires e.key == f.key && e.chain != f.chain && record.emitters != []
    requires Admit(env, Lane(e.key, e.chain, [e.contributor, f.contributor]), record, lookbacks).descriptor.Some?
    ensures LanesOf([e, f]).Keys == LanesOf([f, e]).Keys == {e.key}
    ensures Admit(env, LanesOf([e, f])[e.key], record, lookbacks).descriptor.Some?
    ensures Admit(env, LanesOf([f, e])[e.key], record, lookbacks).reason == Some(InvalidInventoryLane)
  {
    hide *;
    FirstChain(e, f);
    FirstChain(f, e);
    EmitterOnChain(env, LanesOf([e, f])[e.key], record, lookbacks, record.emitters[0]);
    EmitterOnChain(env, LanesOf([f, e])[e.key], record, lookbacks, record.emitters[0]);
  }
}
