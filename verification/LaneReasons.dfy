// What speaks against a reviewed lane, reason by reason, and what an admission lists and screens.
module LaneReasons {
  import opened Options
  import opened SortedText
  import opened LaneAdmission

  // `REASON_PRIORITY`, the strongest first.
  const ORDER := [
    InvalidInventoryLane, ContributorMismatch, ContributorWithoutEmitter, EmitterPinNotDecoded, EmitterAbiBasisUnverified,
    EmitterAbiEventsEmpty, LookbackBelowFloor, AbiNotCovered, NoReviewedInventory]

  lemma PriorityIsOrder()
    ensures forall i, j :: 0 <= i < j < |ORDER| ==> Priority(ORDER[i]) < Priority(ORDER[j])
    ensures forall r: Reason :: r in ORDER
  {
    forall r: Reason
      ensures r in ORDER
    {
      assert r == ORDER[0] || r == ORDER[1] || r == ORDER[2] || r == ORDER[3] || r == ORDER[4] || r == ORDER[5]
        || r == ORDER[6] || r == ORDER[7] || r == ORDER[8];
    }
  }

  // -------------------------------------------------------------- the reasons

  ghost predicate Mapped(record: Inventory, id: string) {
    exists m :: m in record.contributors && m.controlId == id
  }

  // The ids that the record maps, in order and each once.
  ghost predicate MapsIds(record: Inventory, ids: seq<string>) {
    Increasing(ids) && forall id :: id in ids <==> Mapped(record, id)
  }

  // The lists of ids read differently.
  ghost predicate Differs(ids: seq<string>, record: Inventory) {
    exists mapped :: MapsIds(record, mapped) && AllPieces(ids) != AllPieces(mapped)
  }

  ghost predicate Lists(env: Env, record: Inventory, address: string) {
    exists e :: e in record.emitters && env.lower(e.address) == env.lower(address)
  }

  // A mapping that names no emitter, or one that is not listed.
  ghost predicate Loose(env: Env, record: Inventory, m: Mapping) {
    m in record.contributors && (m.emitterAddresses == [] || exists a :: a in m.emitterAddresses && !Lists(env, record, a))
  }

  // How far an emitter comes: its chain, its pin, its basis, its events.
  predicate OnChain(chain: string, e: Emitter) {
    e.chain == chain
  }

  predicate Pinned(env: Env, chain: string, e: Emitter) {
    OnChain(chain, e) && env.pin(e.runtimeIdentity).Some?
  }

  predicate Based(env: Env, chain: string, e: Emitter) {
    Pinned(env, chain, e) && e.abiBasis.Some?
  }

  ghost predicate Strange(env: Env, e: Emitter, event: string) {
    event in e.adminEvents && event !in env.families
  }

  ghost predicate SameAddress(env: Env, record: Inventory) {
    exists i, j :: 0 <= i < j < |record.emitters| && env.lower(record.emitters[i].address) == env.lower(record.emitters[j].address)
  }

  ghost predicate Holds(
    env: Env, chain: string, ids: seq<string>, record: Inventory, lookbacks: map<string, nat>, r: Reason)
  {
    match r
    case InvalidInventoryLane => SameAddress(env, record) || exists e :: e in record.emitters && !OnChain(chain, e)
    case ContributorMismatch => Differs(ids, record)
    case ContributorWithoutEmitter => exists m :: Loose(env, record, m)
    case EmitterPinNotDecoded => exists e :: e in record.emitters && OnChain(chain, e) && !Pinned(env, chain, e)
    case EmitterAbiBasisUnverified => exists e :: e in record.emitters && Pinned(env, chain, e) && !Based(env, chain, e)
    case EmitterAbiEventsEmpty => exists e :: e in record.emitters && Based(env, chain, e) && e.adminEvents == []
    case LookbackBelowFloor => chain in lookbacks ==> lookbacks[chain] < 50_000
    case AbiNotCovered => exists e, x :: e in record.emitters && Based(env, chain, e) && Strange(env, e, x)
    case NoReviewedInventory => false
  }

  lemma {:induction false} MappedIdsMean(mappings: seq<Mapping>)
    ensures forall id :: id in MappedIds(mappings) <==> exists m :: m in mappings && m.controlId == id
  {
    if mappings != [] {
      var n := |mappings| - 1;
      MappedIdsMean(mappings[..n]);
      assert mappings == mappings[..n] + [mappings[n]];
      assert MappedIds(mappings) == MappedIds(mappings[..n]) + [mappings[n].controlId];
    }
  }

  lemma MappedSorted(record: Inventory)
    ensures MapsIds(record, SortedValues(MappedIds(record.contributors)))
    ensures forall ids :: MapsIds(record, ids) ==> ids == SortedValues(MappedIds(record.contributors))
  {
    MappedIdsMean(record.contributors);
    SortedValuesMeans(MappedIds(record.contributors));
    hide Increasing, SortedValues;
    forall ids | MapsIds(record, ids)
      ensures ids == SortedValues(MappedIds(record.contributors))
    {
      IncreasingUnique(ids, SortedValues(MappedIds(record.contributors)));
    }
  }

  lemma DiffersExactly(ids: seq<string>, record: Inventory)
    ensures Mismatched(ids, SortedValues(MappedIds(record.contributors))) <==> Differs(ids, record)
  {
    hide MapsIds, AllPieces, Mismatched;
    MappedSorted(record);
    MismatchedExactly(ids, SortedValues(MappedIds(record.contributors)));
  }

  lemma {:induction false} AddressesMean(env: Env, emitters: seq<Emitter>, address: string)
    ensures address in Addresses(env, emitters) <==> exists e :: e in emitters && env.lower(e.address) == address
  {
    if e :| e in emitters && env.lower(e.address) == address {
      var i :| 0 <= i < |emitters| && emitters[i] == e;
      assert Addresses(env, emitters)[i] == address;
    }
  }

  lemma LooseExactly(env: Env, record: Inventory, m: Mapping)
    requires m in record.contributors
    ensures Unmapped(env, record, m) <==> Loose(env, record, m)
  {
    hide Addresses;
    forall a
      ensures env.lower(a) in Addresses(env, record.emitters) <==> Lists(env, record, a)
    {
      AddressesMean(env, record.emitters, env.lower(a));
    }
    assert forall a :: 0 <= a < |m.emitterAddresses| ==> m.emitterAddresses[a] in m.emitterAddresses;
  }

  lemma {:induction false} UnmappedExactly(env: Env, record: Inventory, mappings: seq<Mapping>)
    requires forall m :: m in mappings ==> m in record.contributors
    ensures forall id :: id in UnmappedIds(env, record, mappings) <==>
      exists m :: m in mappings && Loose(env, record, m) && m.controlId == id
  {
    hide Unmapped, Loose;
    if mappings != [] {
      var n := |mappings| - 1;
      UnmappedExactly(env, record, mappings[..n]);
      LooseExactly(env, record, mappings[n]);
      assert mappings == mappings[..n] + [mappings[n]];
    }
  }

  // What one emitter speaks against.
  ghost predicate Faulty(env: Env, chain: string, e: Emitter, r: Reason) {
    match r
    case InvalidInventoryLane => !OnChain(chain, e)
    case EmitterPinNotDecoded => OnChain(chain, e) && !Pinned(env, chain, e)
    case EmitterAbiBasisUnverified => Pinned(env, chain, e) && !Based(env, chain, e)
    case EmitterAbiEventsEmpty => Based(env, chain, e) && e.adminEvents == []
    case AbiNotCovered => exists x :: Based(env, chain, e) && Strange(env, e, x)
    case _ => false
  }

  lemma FaultsExactly(env: Env, chain: string, e: Emitter, r: Reason)
    ensures r in Faults(env, chain, e) <==> Faulty(env, chain, e, r)
  {
    EventsMean(env, e.adminEvents);
    hide SortedValues, Known;
    if x :| x in e.adminEvents && x !in env.families {
      assert Strange(env, e, x);
    }
  }

  lemma {:induction false} EmitterFaults(env: Env, chain: string, record: Inventory, r: Reason)
    ensures r in AllFaults(env, chain, record.emitters) <==> exists e :: e in record.emitters && Faulty(env, chain, e, r)
  {
    AllFaultsMean(env, chain, record.emitters);
    hide AllFaults, Faults, Faulty;
    forall e: Emitter
      ensures r in Faults(env, chain, e) <==> Faulty(env, chain, e, r)
    {
      FaultsExactly(env, chain, e, r);
    }
  }

  lemma RepeatsExactly(env: Env, record: Inventory)
    ensures Repeats(Addresses(env, record.emitters)) <==> SameAddress(env, record)
  {
  }

  // The reasons collected are exactly those that hold.
  lemma ReasonsExactly(env: Env, chain: string, ids: seq<string>, record: Inventory, lookbacks: map<string, nat>, r: Reason)
    ensures r in Reasons(env, chain, ids, record, lookbacks) <==> Holds(env, chain, ids, record, lookbacks, r)
  {
    DiffersExactly(ids, record);
    EmitterFaults(env, chain, record, r);
    RepeatsExactly(env, record);
    NoneUnmapped(env, record);
    hide Mismatched, Repeats, SortedValues, UnmappedIds, AllFaults, Differs, SameAddress, Loose, Strange, Addresses, OnChain,
      Pinned, Based;
  }

  lemma {:induction false} NoneUnmapped(env: Env, record: Inventory)
    ensures UnmappedIds(env, record, record.contributors) != [] <==> exists m :: Loose(env, record, m)
  {
    UnmappedExactly(env, record, record.contributors);
    hide UnmappedIds;
    var ids := UnmappedIds(env, record, record.contributors);
    assert ids == [] || ids[0] in ids;
    if m :| Loose(env, record, m) {
      assert m.controlId in ids;
    }
  }

  ghost predicate Unhindered(env: Env, chain: string, ids: seq<string>, record: Inventory, lookbacks: map<string, nat>) {
    forall r :: !Holds(env, chain, ids, record, lookbacks, r)
  }

  // The strongest reason of those that hold.
  ghost predicate HoldsFirst(
    env: Env, chain: string, ids: seq<string>, record: Inventory, lookbacks: map<string, nat>, r: Reason)
  {
    exists i :: 0 <= i < |ORDER| && ORDER[i] == r && Holds(env, chain, ids, record, lookbacks, r)
      && forall j :: 0 <= j < i ==> !Holds(env, chain, ids, record, lookbacks, ORDER[j])
  }

  lemma StrongestFirst(env: Env, chain: string, ids: seq<string>, record: Inventory, lookbacks: map<string, nat>)
    ensures var reasons := Reasons(env, chain, ids, record, lookbacks);
      && (reasons == {} <==> Unhindered(env, chain, ids, record, lookbacks))
      && (reasons != {} ==> HoldsFirst(env, chain, ids, record, lookbacks, Strongest(reasons)))
  {
    hide Reasons, Holds, Strongest, Priority;
    var reasons := Reasons(env, chain, ids, record, lookbacks);
    PriorityIsOrder();
    forall r: Reason
      ensures r in reasons <==> Holds(env, chain, ids, record, lookbacks, r)
    {
      ReasonsExactly(env, chain, ids, record, lookbacks, r);
    }
    if reasons != {} {
      var r := Strongest(reasons);
      assert r in reasons && r in ORDER;
      var i :| 0 <= i < |ORDER| && ORDER[i] == r;
      forall j | 0 <= j < i
        ensures !Holds(env, chain, ids, record, lookbacks, ORDER[j])
      {
        assert Priority(ORDER[j]) < Priority(ORDER[i]);
      }
    } else {
      assert forall r :: r !in reasons;
    }
  }

  // -------------------------------------------------------------- the lists

  // The ids without an emitter: reviewed but not mapped where the lists differ, or mapped loosely.
  ghost predicate Unpinned(env: Env, ids: seq<string>, record: Inventory, id: string) {
    || (Differs(ids, record) && id in ids && !Mapped(record, id))
    || exists m :: Loose(env, record, m) && m.controlId == id
  }

  lemma {:induction false} NotInMeans(ids: seq<string>, others: seq<string>)
    ensures forall y :: y in NotIn(ids, others) <==> y in ids && y !in others
  {
    if ids != [] {
      var n := |ids| - 1;
      NotInMeans(ids[..n], others);
      assert ids == ids[..n] + [ids[n]];
    }
  }

  lemma UnpinnedMeans(env: Env, ids: seq<string>, record: Inventory)
    ensures var unpinned := SortedValues(UnpinnedIds(env, ids, record));
      Increasing(unpinned) && forall id :: id in unpinned <==> Unpinned(env, ids, record, id)
  {
    SortedValuesMeans(UnpinnedIds(env, ids, record));
    DiffersExactly(ids, record);
    MappedSorted(record);
    UnmappedExactly(env, record, record.contributors);
    NotInMeans(ids, SortedValues(MappedIds(record.contributors)));
    hide SortedValues, Increasing, Mismatched, Differs, UnmappedIds, NotIn, Mapped;
    forall id
      ensures id in UnpinnedIds(env, ids, record) <==> Unpinned(env, ids, record, id)
    {
      LooseNamed(env, record, id);
    }
  }

  lemma LooseNamed(env: Env, record: Inventory, id: string)
    ensures (exists m :: m in record.contributors && Loose(env, record, m) && m.controlId == id) <==>
      exists m :: Loose(env, record, m) && m.controlId == id
  {
  }

  ghost predicate Uncoverable(env: Env, chain: string, record: Inventory, event: string) {
    exists e :: e in record.emitters && Based(env, chain, e) && Strange(env, e, event)
  }

  lemma UncoveredOne(env: Env, chain: string, e: Emitter)
    ensures forall x :: x in Uncovered(env, chain, e) <==> Based(env, chain, e) && Strange(env, e, x)
  {
    SortedValuesMeans(e.adminEvents);
    KnownMeans(env, SortedValues(e.adminEvents), false);
    hide SortedValues, Known;
    if SortedValues(e.adminEvents) != [] {
      assert SortedValues(e.adminEvents)[0] in e.adminEvents;
    }
  }

  lemma {:induction false} AllUncoveredMean(env: Env, chain: string, emitters: seq<Emitter>)
    ensures forall x :: x in AllUncovered(env, chain, emitters) <==>
      exists e :: e in emitters && Based(env, chain, e) && Strange(env, e, x)
  {
    hide Uncovered, Strange, Based;
    if emitters != [] {
      var n := |emitters| - 1;
      AllUncoveredMean(env, chain, emitters[..n]);
      UncoveredOne(env, chain, emitters[n]);
      assert emitters == emitters[..n] + [emitters[n]];
    }
  }

  lemma {:induction false} UncoveredMeans(env: Env, chain: string, record: Inventory)
    ensures var uncovered := SortedValues(AllUncovered(env, chain, record.emitters));
      Increasing(uncovered) && forall x :: x in uncovered <==> Uncoverable(env, chain, record, x)
  {
    SortedValuesMeans(AllUncovered(env, chain, record.emitters));
    AllUncoveredMean(env, chain, record.emitters);
    hide SortedValues, Increasing, AllUncovered, Based, Strange;
  }

  // The mappings of a descriptor: those of the record by control id, each with its addresses in lower
  // case, in order and each once.
  ghost predicate Restated(env: Env, m: Mapping, d: Mapping) {
    && d.controlId == m.controlId && Increasing(d.emitterAddresses)
    && forall a :: a in d.emitterAddresses <==> exists b :: b in m.emitterAddresses && env.lower(b) == a
  }

  ghost predicate RestatesAll(env: Env, mappings: seq<Mapping>, restated: seq<Mapping>) {
    |restated| == |mappings| && forall i :: 0 <= i < |mappings| ==> Restated(env, mappings[i], restated[i])
  }

  ghost predicate Provided(env: Env, record: Inventory, mappings: seq<Mapping>) {
    exists sorted ::
      && AscendingBy(ByControl, sorted) && multiset(sorted) == multiset(record.contributors)
      && RestatesAll(env, sorted, mappings)
  }

  lemma LoweredMean(env: Env, addresses: seq<string>)
    ensures forall a :: a in LoweredAll(env, addresses) <==> exists b :: b in addresses && env.lower(b) == a
  {
    var lowered := LoweredAll(env, addresses);
    forall b | b in addresses
      ensures env.lower(b) in lowered
    {
      var i :| 0 <= i < |addresses| && addresses[i] == b;
      assert lowered[i] == env.lower(b);
    }
  }

  lemma RestatedOne(env: Env, m: Mapping)
    ensures Restated(env, m, Mapping(m.controlId, SortedValues(LoweredAll(env, m.emitterAddresses))))
  {
    LoweredMean(env, m.emitterAddresses);
    SortedValuesMeans(LoweredAll(env, m.emitterAddresses));
    hide SortedValues, Increasing, LoweredAll;
  }

  lemma ProvenanceMeans(env: Env, record: Inventory)
    ensures Provided(env, record, Provenance(env, record.contributors))
  {
    var sorted := SortBy(ByControl, record.contributors);
    SortByMeans(ByControl, record.contributors);
    hide SortBy, Restated, SortedValues, AscendingBy;
    forall i | 0 <= i < |sorted|
      ensures Restated(env, sorted[i], Provenance(env, record.contributors)[i])
    {
      RestatedOne(env, sorted[i]);
    }
    assert RestatesAll(env, sorted, Provenance(env, record.contributors));
  }

  // The screen of a record: every emitter with its pin, for exactly its events, by address.
  ghost predicate ScreenedAs(env: Env, e: Emitter, s: Screened) {
    && s.address == e.address && env.pin(e.runtimeIdentity) == Some(s.pin)
    && Increasing(s.families) && forall x :: x in s.families <==> x in e.adminEvents
  }

  ghost predicate ScreensAll(env: Env, emitters: seq<Emitter>, screens: seq<Screened>) {
    |screens| == |emitters| && forall i :: 0 <= i < |emitters| ==> ScreenedAs(env, emitters[i], screens[i])
  }

  ghost predicate Screening(env: Env, record: Inventory, screens: seq<Screened>) {
    && AscendingBy(ByAddress, screens)
    && exists unsorted :: ScreensAll(env, record.emitters, unsorted) && multiset(unsorted) == multiset(screens)
  }

  lemma {:induction false} ScreeningMeans(env: Env, chain: string, record: Inventory)
    requires AllFaults(env, chain, record.emitters) == {}
    ensures Screening(env, record, SortBy(ByAddress, AllScreened(env, chain, record.emitters)))
  {
    var screens := AllScreened(env, chain, record.emitters);
    FaultlessScreens(env, chain, record.emitters);
    SortByMeans(ByAddress, screens);
    hide SortBy, AllScreened, AscendingBy, SortedValues, AllFaults;
    forall i | 0 <= i < |screens|
      ensures ScreenedAs(env, record.emitters[i], screens[i])
    {
      assert ScreenOf(env, record.emitters[i], screens[i]);
      SortedValuesMeans(record.emitters[i].adminEvents);
    }
    assert ScreensAll(env, record.emitters, screens);
  }

  // -------------------------------------------------------------- the whole admission

  // A lane is admitted exactly if nothing holds against it. Its descriptor then keeps the lane's key and
  // ids, screens the emitters as reviewed, for the lookback of its chain; and otherwise the reason is the
  // strongest that holds. Either way the ids without emitter and the events without screen are all told.
  ghost predicate Admits(
    env: Env, subject: string, chain: string, assetIds: seq<string>, ids: seq<string>, record: Inventory,
    lookbacks: map<string, nat>, a: Admission)
  {
    && Increasing(a.unpinned) && (forall id :: id in a.unpinned <==> Unpinned(env, ids, record, id))
    && Increasing(a.uncovered) && (forall x :: x in a.uncovered <==> Uncoverable(env, chain, record, x))
    && if Unhindered(env, chain, ids, record, lookbacks) then
         a.reason.None? && a.descriptor.Some? && Describes(env, subject, chain, assetIds, ids, record, lookbacks, a.descriptor.value)
       else
         a.descriptor.None? && a.reason.Some? && HoldsFirst(env, chain, ids, record, lookbacks, a.reason.value)
  }

  ghost predicate Describes(
    env: Env, subject: string, chain: string, assetIds: seq<string>, ids: seq<string>, record: Inventory,
    lookbacks: map<string, nat>, d: Descriptor)
  {
    && d.subject == subject && d.assetIds == assetIds && d.controlIds == ids
    && chain in lookbacks && d.lookback == lookbacks[chain]
    && Screening(env, record, d.emitters) && Provided(env, record, d.contributors)
  }

  lemma AdmissionMeans(
    env: Env, subject: string, chain: string, assetIds: seq<string>, ids: seq<string>, record: Inventory,
    lookbacks: map<string, nat>)
    ensures Admits(
      env, subject, chain, assetIds, ids, record, lookbacks, AdmissionOf(env, subject, chain, assetIds, ids, record, lookbacks))
  {
    UnpinnedMeans(env, ids, record);
    UncoveredMeans(env, chain, record);
    StrongestFirst(env, chain, ids, record, lookbacks);
    ProvenanceMeans(env, record);
    FaultsAmong(env, chain, ids, record, lookbacks);
    hide SortedValues, UnpinnedIds, AllUncovered, AllScreened, SortBy, Provenance, Reasons, Strongest, Unpinned, Uncoverable, HoldsFirst,
      Increasing, Screening, Provided, Unhindered;
    if Reasons(env, chain, ids, record, lookbacks) == {} {
      ScreeningMeans(env, chain, record);
    }
  }

  lemma {:induction false} FaultsAmong(env: Env, chain: string, ids: seq<string>, record: Inventory, lookbacks: map<string, nat>)
    ensures Reasons(env, chain, ids, record, lookbacks) == {} ==> AllFaults(env, chain, record.emitters) == {} && chain in lookbacks
  {
    NoReasonExactly(env, chain, ids, record, lookbacks);
    hide Reasons, AllFaults, SortedValues, Mismatched, Repeats, Addresses, UnmappedIds;
  }
}
