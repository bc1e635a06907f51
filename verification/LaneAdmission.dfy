// `admitInventoryLane` of scripts/build-data/generate-safety-score-v9-lane-emitter-descriptors.ts:
// whether the reviewed inventory of a bridge lane may become a screening descriptor, and if not,
// for which reason.
module LaneAdmission {
  import opened Options
  import opened SortedText

  datatype Reason =
    | InvalidInventoryLane
    | ContributorMismatch
    | ContributorWithoutEmitter
    | EmitterPinNotDecoded
    | EmitterAbiBasisUnverified
    | EmitterAbiEventsEmpty
    | LookbackBelowFloor
    | AbiNotCovered
    | NoReviewedInventory

  function Priority(r: Reason): nat {
    match r
    case InvalidInventoryLane => 0
    case ContributorMismatch => 1
    case ContributorWithoutEmitter => 2
    case EmitterPinNotDecoded => 3
    case EmitterAbiBasisUnverified => 4
    case EmitterAbiEventsEmpty => 5
    case LookbackBelowFloor => 6
    case AbiNotCovered => 7
    case NoReviewedInventory => 8
  }

  const MINIMUM_LOOKBACK_BLOCKS: nat := 50_000

  // What comes from elsewhere: lower case, the hash inside a decoded runtime pin, and the frozen
  // vocabulary of admin events.
  datatype Env = Env(lower: string -> string, pin: string -> Option<string>, families: seq<string>)

  datatype Emitter = Emitter(address: string, chain: string, runtimeIdentity: string, abiBasis: Option<string>, adminEvents: seq<string>)

  datatype Mapping = Mapping(controlId: string, emitterAddresses: seq<string>)

  datatype Inventory = Inventory(subject: string, contributors: seq<Mapping>, emitters: seq<Emitter>)

  // A lane as the records give it; several controls may contribute to it.
  datatype Contributor = Contributor(assetId: string, controlId: string)
  datatype Lane = Lane(subject: string, chain: string, contributors: seq<Contributor>)

  datatype Screened = Screened(address: string, pin: string, families: seq<string>)

  datatype Descriptor = Descriptor(
    subject: string, emitters: seq<Screened>, lookback: nat, assetIds: seq<string>, controlIds: seq<string>,
    contributors: seq<Mapping>)

  datatype Admission = Admission(
    descriptor: Option<Descriptor>, reason: Option<Reason>, unpinned: seq<string>, uncovered: seq<string>)

  // `join("\u0000")`.
  function Join(s: seq<string>): string {
    if s == [] then "" else if |s| == 1 then s[0] else s[0] + ['\U{0000}'] + Join(s[1..])
  }

  function ControlIds(contributors: seq<Contributor>): (ids: seq<string>)
    ensures |ids| == |contributors|
  {
    seq(|contributors|, i requires 0 <= i < |contributors| => contributors[i].controlId)
  }

  function AssetIds(contributors: seq<Contributor>): (ids: seq<string>)
    ensures |ids| == |contributors|
  {
    seq(|contributors|, i requires 0 <= i < |contributors| => contributors[i].assetId)
  }

  function MappedIds(mappings: seq<Mapping>): (ids: seq<string>)
    ensures |ids| == |mappings|
  {
    seq(|mappings|, i requires 0 <= i < |mappings| => mappings[i].controlId)
  }

  function Addresses(env: Env, emitters: seq<Emitter>): (a: seq<string>)
    ensures |a| == |emitters| && forall i :: 0 <= i < |a| ==> a[i] == env.lower(emitters[i].address)
  {
    seq(|emitters|, i requires 0 <= i < |emitters| => env.lower(emitters[i].address))
  }

  function LoweredAll(env: Env, addresses: seq<string>): (a: seq<string>)
    ensures |a| == |addresses| && forall i :: 0 <= i < |a| ==> a[i] == env.lower(addresses[i])
  {
    seq(|addresses|, i requires 0 <= i < |addresses| => env.lower(addresses[i]))
  }

  predicate Unmapped(env: Env, record: Inventory, m: Mapping) {
    m.emitterAddresses == []
    || exists a :: 0 <= a < |m.emitterAddresses| && env.lower(m.emitterAddresses[a]) !in Addresses(env, record.emitters)
  }

  predicate Repeats(s: seq<string>) {
    exists i, j :: 0 <= i < j < |s| && s[i] == s[j]
  }

  // The first thing wrong with an emitter, if it cannot be screened at all.
  function Fault(env: Env, chain: string, e: Emitter): Option<Reason> {
    if e.chain != chain then Some(InvalidInventoryLane)
    else if env.pin(e.runtimeIdentity).None? then Some(EmitterPinNotDecoded)
    else if e.abiBasis.None? then Some(EmitterAbiBasisUnverified)
    else if SortedValues(e.adminEvents) == [] then Some(EmitterAbiEventsEmpty)
    else None
  }

  function Known(env: Env, events: seq<string>, known: bool): seq<string> {
    if events == [] then []
    else
      var n := |events| - 1;
      Known(env, events[..n], known) + if (events[n] in env.families) == known then [events[n]] else []
  }

  // All that one emitter adds to the reasons, to the events not covered, and to the screen.
  function Faults(env: Env, chain: string, e: Emitter): set<Reason> {
    match Fault(env, chain, e)
    case Some(r) => {r}
    case None => if Known(env, SortedValues(e.adminEvents), false) == [] then {} else {AbiNotCovered}
  }

  function Uncovered(env: Env, chain: string, e: Emitter): seq<string> {
    if Fault(env, chain, e).Some? then [] else Known(env, SortedValues(e.adminEvents), false)
  }

  function Screen(env: Env, chain: string, e: Emitter): seq<Screened> {
    if Fault(env, chain, e).Some? || env.pin(e.runtimeIdentity).None? then []
    else [Screened(e.address, env.pin(e.runtimeIdentity).value, Known(env, SortedValues(e.adminEvents), true))]
  }

  function AllFaults(env: Env, chain: string, emitters: seq<Emitter>): set<Reason> {
    if emitters == [] then {}
    else AllFaults(env, chain, emitters[..|emitters| - 1]) + Faults(env, chain, emitters[|emitters| - 1])
  }

  function AllUncovered(env: Env, chain: string, emitters: seq<Emitter>): seq<string> {
    if emitters == [] then []
    else AllUncovered(env, chain, emitters[..|emitters| - 1]) + Uncovered(env, chain, emitters[|emitters| - 1])
  }

  function AllScreened(env: Env, chain: string, emitters: seq<Emitter>): seq<Screened> {
    if emitters == [] then []
    else AllScreened(env, chain, emitters[..|emitters| - 1]) + Screen(env, chain, emitters[|emitters| - 1])
  }

  function UnmappedIds(env: Env, record: Inventory, mappings: seq<Mapping>): seq<string> {
    if mappings == [] then []
    else
      var n := |mappings| - 1;
      UnmappedIds(env, record, mappings[..n]) + if Unmapped(env, record, mappings[n]) then [mappings[n].controlId] else []
  }

  function NotIn(ids: seq<string>, others: seq<string>): seq<string> {
    if ids == [] then []
    else
      var n := |ids| - 1;
      NotIn(ids[..n], others) + if ids[n] in others then [] else [ids[n]]
  }

  // Two control-id lists are taken for equal when their joined text is.
  predicate Mismatched(reviewed: seq<string>, mapped: seq<string>) {
    Join(reviewed) != Join(mapped)
  }

  predicate LookbackShort(lookbacks: map<string, nat>, chain: string) {
    chain !in lookbacks || lookbacks[chain] < MINIMUM_LOOKBACK_BLOCKS
  }

  function When(b: bool, r: Reason): set<Reason> {
    if b then {r} else {}
  }

  function Reasons(env: Env, chain: string, reviewed: seq<string>, record: Inventory, lookbacks: map<string, nat>): set<Reason> {
    When(Mismatched(reviewed, SortedValues(MappedIds(record.contributors))), ContributorMismatch)
    + When(UnmappedIds(env, record, record.contributors) != [], ContributorWithoutEmitter)
    + AllFaults(env, chain, record.emitters)
    + When(Repeats(Addresses(env, record.emitters)), InvalidInventoryLane)
    + When(LookbackShort(lookbacks, chain), LookbackBelowFloor)
  }

  // The reason of the highest priority.
  function Strongest(reasons: set<Reason>): (r: Reason)
    ensures reasons != {} ==> r in reasons
    ensures forall other :: other in reasons ==> Priority(r) <= Priority(other)
  {
    if InvalidInventoryLane in reasons then InvalidInventoryLane
    else if ContributorMismatch in reasons then ContributorMismatch
    else if ContributorWithoutEmitter in reasons then ContributorWithoutEmitter
    else if EmitterPinNotDecoded in reasons then EmitterPinNotDecoded
    else if EmitterAbiBasisUnverified in reasons then EmitterAbiBasisUnverified
    else if EmitterAbiEventsEmpty in reasons then EmitterAbiEventsEmpty
    else if LookbackBelowFloor in reasons then LookbackBelowFloor
    else if AbiNotCovered in reasons then AbiNotCovered
    else
      assert forall r :: r in reasons ==> r == NoReviewedInventory;
      assert reasons != {} ==> exists r :: r in reasons;
      NoReviewedInventory
  }

  // `strongestReason`: whatever order the set comes in.
  method StrongestReason(reasons: set<Reason>) returns (strongest: Reason)
    ensures strongest == Strongest(reasons)
  {
    strongest := NoReviewedInventory;
    var rest := reasons;
    while rest != {}
      invariant rest <= reasons
      invariant strongest == NoReviewedInventory || strongest in reasons
      invariant forall r :: r in reasons && r !in rest ==> Priority(strongest) <= Priority(r)
      decreases |rest|
    {
      var r :| r in rest;
      if Priority(r) < Priority(strongest) {
        strongest := r;
      }
      rest := rest - {r};
    }
    ghost var best := Strongest(reasons);
    assert reasons != {} ==> best in reasons && Priority(strongest) == Priority(best);
  }

  function ByAddress(s: Screened): string {
    s.address
  }

  function ByControl(m: Mapping): string {
    m.controlId
  }

  function Provenance(env: Env, mappings: seq<Mapping>): seq<Mapping> {
    var sorted := SortBy(ByControl, mappings);
    seq(|sorted|, i requires 0 <= i < |sorted| =>
      Mapping(sorted[i].controlId, SortedValues(LoweredAll(env, sorted[i].emitterAddresses))))
  }

  function UnpinnedIds(env: Env, reviewed: seq<string>, record: Inventory): seq<string> {
    var mapped := SortedValues(MappedIds(record.contributors));
    (if Mismatched(reviewed, mapped) then NotIn(reviewed, mapped) else []) + UnmappedIds(env, record, record.contributors)
  }

  // What an admission depends on: the lane's key, chain and sorted ids, not its contributors' order.
  function AdmissionOf(
    env: Env, subject: string, chain: string, assetIds: seq<string>, controlIds: seq<string>, record: Inventory,
    lookbacks: map<string, nat>): Admission
  {
    var reasons := Reasons(env, chain, controlIds, record, lookbacks);
    var unpinned := SortedValues(UnpinnedIds(env, controlIds, record));
    var uncovered := SortedValues(AllUncovered(env, chain, record.emitters));
    if reasons == {} && chain in lookbacks then
      Admission(
        Some(Descriptor(
          subject, SortBy(ByAddress, AllScreened(env, chain, record.emitters)), lookbacks[chain], assetIds, controlIds,
          Provenance(env, record.contributors))),
        None, unpinned, uncovered)
    else
      Admission(None, Some(Strongest(reasons)), unpinned, uncovered)
  }

  function Admit(env: Env, lane: Lane, record: Inventory, lookbacks: map<string, nat>): Admission {
    AdmissionOf(
      env, lane.subject, lane.chain, SortedValues(AssetIds(lane.contributors)), SortedValues(ControlIds(lane.contributors)),
      record, lookbacks)
  }

  method FindUnmapped(env: Env, record: Inventory) returns (ids: seq<string>)
    ensures ids == UnmappedIds(env, record, record.contributors)
  {
    var addresses := Addresses(env, record.emitters);
    ids := [];
    for i := 0 to |record.contributors|
      invariant ids == UnmappedIds(env, record, record.contributors[..i])
    {
      assert record.contributors[..i + 1][..i] == record.contributors[..i];
      var m := record.contributors[i];
      var lowered := LoweredAll(env, m.emitterAddresses);
      if |lowered| == 0 || exists a :: 0 <= a < |lowered| && lowered[a] !in addresses {
        ids := ids + [m.controlId];
      }
    }
    assert record.contributors[..|record.contributors|] == record.contributors;
  }

  method SplitEvents(env: Env, events: seq<string>) returns (screened: seq<string>, uncovered: seq<string>)
    ensures screened == Known(env, events, true) && uncovered == Known(env, events, false)
  {
    screened, uncovered := [], [];
    for i := 0 to |events|
      invariant screened == Known(env, events[..i], true) && uncovered == Known(env, events[..i], false)
    {
      assert events[..i + 1][..i] == events[..i];
      if events[i] in env.families {
        screened := screened + [events[i]];
      } else {
        uncovered := uncovered + [events[i]];
      }
    }
    assert events[..|events|] == events;
  }

  method ScreenEmitter(env: Env, chain: string, e: Emitter)
    returns (reasons: set<Reason>, uncovered: seq<string>, screen: seq<Screened>)
    ensures reasons == Faults(env, chain, e) && uncovered == Uncovered(env, chain, e) && screen == Screen(env, chain, e)
  {
    if e.chain != chain {
      return {InvalidInventoryLane}, [], [];
    }
    if env.pin(e.runtimeIdentity).None? {
      return {EmitterPinNotDecoded}, [], [];
    }
    if e.abiBasis.None? {
      return {EmitterAbiBasisUnverified}, [], [];
    }
    var events := SortedValues(e.adminEvents);
    if |events| == 0 {
      return {EmitterAbiEventsEmpty}, [], [];
    }
    var families, rest := SplitEvents(env, events);
    reasons := if |rest| == 0 then {} else {AbiNotCovered};
    uncovered := rest;
    screen := [Screened(e.address, env.pin(e.runtimeIdentity).value, families)];
  }

  method ScreenEmitters(env: Env, chain: string, emitters: seq<Emitter>)
    returns (reasons: set<Reason>, uncovered: seq<string>, screen: seq<Screened>)
    ensures reasons == AllFaults(env, chain, emitters)
    ensures uncovered == AllUncovered(env, chain, emitters) && screen == AllScreened(env, chain, emitters)
  {
    hide Faults, Uncovered, Screen;
    reasons, uncovered, screen := {}, [], [];
    for i := 0 to |emitters|
      invariant reasons == AllFaults(env, chain, emitters[..i])
      invariant uncovered == AllUncovered(env, chain, emitters[..i]) && screen == AllScreened(env, chain, emitters[..i])
    {
      assert emitters[..i + 1][..i] == emitters[..i];
      var r, u, s := ScreenEmitter(env, chain, emitters[i]);
      reasons, uncovered, screen := reasons + r, uncovered + u, screen + s;
    }
    assert emitters[..|emitters|] == emitters;
  }

  method AdmitInventoryLane(env: Env, lane: Lane, record: Inventory, lookbacks: map<string, nat>) returns (a: Admission)
    ensures a == Admit(env, lane, record, lookbacks)
  {
    hide SortedValues, UnmappedIds, AllFaults, AllUncovered, AllScreened, Join, Strongest, Provenance, NotIn;
    var reviewed := SortedValues(ControlIds(lane.contributors));
    var mapped := SortedValues(MappedIds(record.contributors));
    var reasons: set<Reason> := {};
    var unpinned: seq<string> := [];
    if Join(reviewed) != Join(mapped) {
      reasons := reasons + {ContributorMismatch};
      unpinned := NotIn(reviewed, mapped);
    }
    var unmapped := FindUnmapped(env, record);
    if |unmapped| > 0 {
      reasons := reasons + {ContributorWithoutEmitter};
      unpinned := unpinned + unmapped;
    }
    var faults, uncovered, screen := ScreenEmitters(env, lane.chain, record.emitters);
    reasons := reasons + faults;
    if Repeats(Addresses(env, record.emitters)) {
      reasons := reasons + {InvalidInventoryLane};
    }
    if lane.chain !in lookbacks || lookbacks[lane.chain] < MINIMUM_LOOKBACK_BLOCKS {
      reasons := reasons + {LookbackBelowFloor};
    }
    var unpinnedIds := SortedValues(unpinned);
    assert unpinned == UnpinnedIds(env, reviewed, record);
    assert reasons == Reasons(env, lane.chain, reviewed, record, lookbacks);
    if reasons == {} {
      return Admission(
        Some(Descriptor(
          lane.subject, SortBy(ByAddress, screen), lookbacks[lane.chain], SortedValues(AssetIds(lane.contributors)), reviewed,
          Provenance(env, record.contributors))),
        None, unpinnedIds, SortedValues(uncovered));
    }
    var strongest := StrongestReason(reasons);
    return Admission(None, Some(strongest), unpinnedIds, SortedValues(uncovered));
  }

  // A lane gets a descriptor exactly when no reason speaks against it, and otherwise the one reason
  // of the highest priority.
  lemma AdmittedExactly(env: Env, lane: Lane, record: Inventory, lookbacks: map<string, nat>)
    ensures var reasons := Reasons(env, lane.chain, SortedValues(ControlIds(lane.contributors)), record, lookbacks);
      var a := Admit(env, lane, record, lookbacks);
      && (a.descriptor.Some? <==> reasons == {}) && (a.reason.None? <==> a.descriptor.Some?)
      && (a.reason.Some? ==>
            && a.reason.value in reasons
            && forall other :: other in reasons && other != a.reason.value ==> Priority(a.reason.value) < Priority(other))
  {
    hide SortedValues, UnmappedIds, AllFaults, AllUncovered, AllScreened, Provenance, Mismatched, Repeats;
    var reasons := Reasons(env, lane.chain, SortedValues(ControlIds(lane.contributors)), record, lookbacks);
    if lane.chain !in lookbacks {
      assert LookbackBelowFloor in reasons;
    }
    forall other | other in reasons && other != Strongest(reasons)
      ensures Priority(Strongest(reasons)) < Priority(other)
    {
    }
  }

  // What each reason means.
  lemma {:induction false} AllFaultsMean(env: Env, chain: string, emitters: seq<Emitter>)
    ensures forall r :: r in AllFaults(env, chain, emitters) <==> exists e :: e in emitters && r in Faults(env, chain, e)
  {
    hide Faults;
    if emitters != [] {
      var n := |emitters| - 1;
      AllFaultsMean(env, chain, emitters[..n]);
      assert emitters == emitters[..n] + [emitters[n]];
    }
  }

  lemma {:induction false} UnmappedIdsMean(env: Env, record: Inventory, mappings: seq<Mapping>)
    ensures UnmappedIds(env, record, mappings) == [] <==> forall m :: m in mappings ==> !Unmapped(env, record, m)
  {
    hide Unmapped;
    if mappings != [] {
      var n := |mappings| - 1;
      UnmappedIdsMean(env, record, mappings[..n]);
      assert mappings == mappings[..n] + [mappings[n]];
    }
  }

  lemma {:induction false} KnownMeans(env: Env, events: seq<string>, known: bool)
    ensures forall x :: x in Known(env, events, known) <==> x in events && ((x in env.families) == known)
    ensures (forall x :: x in events ==> ((x in env.families) == known)) ==> Known(env, events, known) == events
  {
    if events != [] {
      var n := |events| - 1;
      var before, last := events[..n], events[n];
      KnownMeans(env, before, known);
      assert events == before + [last];
      hide Known;
      forall x
        ensures x in events <==> x in before || x == last
      {
      }
    }
  }

  // An emitter that nothing speaks against is screened, on its own address and for exactly the
  // events reviewed for it, all of them in the vocabulary.
  lemma FaultlessScreen(env: Env, chain: string, e: Emitter)
    requires Faults(env, chain, e) == {}
    ensures e.chain == chain && env.pin(e.runtimeIdentity).Some?
    ensures Screen(env, chain, e) ==
      [Screened(e.address, env.pin(e.runtimeIdentity).value, SortedValues(e.adminEvents))]
    ensures e.adminEvents != [] && forall x :: x in e.adminEvents ==> x in env.families
  {
    var events := SortedValues(e.adminEvents);
    SortedValuesMeans(e.adminEvents);
    KnownMeans(env, events, false);
    KnownMeans(env, events, true);
    forall x | x in e.adminEvents
      ensures x in env.families
    {
      assert x in events;
      assert x !in Known(env, events, false);
    }
  }

  ghost predicate ScreenOf(env: Env, e: Emitter, s: Screened) {
    env.pin(e.runtimeIdentity) == Some(s.pin) && s.address == e.address && s.families == SortedValues(e.adminEvents)
  }

  // The screen that the inventory reviewed, emitter by emitter.
  ghost predicate Screens(env: Env, emitters: seq<Emitter>, screens: seq<Screened>) {
    |screens| == |emitters| && forall i :: 0 <= i < |emitters| ==> ScreenOf(env, emitters[i], screens[i])
  }

  lemma FaultlessScreenOf(env: Env, chain: string, e: Emitter)
    requires Faults(env, chain, e) == {}
    ensures |Screen(env, chain, e)| == 1 && ScreenOf(env, e, Screen(env, chain, e)[0])
  {
    FaultlessScreen(env, chain, e);
  }

  lemma {:induction false} FaultlessScreens(env: Env, chain: string, emitters: seq<Emitter>)
    requires AllFaults(env, chain, emitters) == {}
    ensures Screens(env, emitters, AllScreened(env, chain, emitters))
  {
    hide Faults, Screen, ScreenOf;
    if emitters != [] {
      var n := |emitters| - 1;
      assert Faults(env, chain, emitters[n]) == {} && AllFaults(env, chain, emitters[..n]) == {};
      FaultlessScreens(env, chain, emitters[..n]);
      FaultlessScreenOf(env, chain, emitters[n]);
    }
  }

  predicate NulFree(s: string) {
    '\U{0000}' !in s
  }

  ghost predicate AllNulFree(ids: seq<string>) {
    forall i :: 0 <= i < |ids| ==> NulFree(ids[i])
  }

  // One more character in front.
  function Before(c: char, p: seq<string>): seq<string>
    requires p != []
  {
    if c == '\U{0000}' then [""] + p else [[c] + p[0]] + p[1..]
  }

  // A text split at its separators, and what the joined text of a list shows: its ids split there,
  // and one empty id where there is none.
  function Pieces(s: string): (p: seq<string>)
    ensures p != []
  {
    if s == "" then [""] else Before(s[0], Pieces(s[1..]))
  }

  function AllPieces(ids: seq<string>): seq<string> {
    if ids == [] then [""] else if |ids| == 1 then Pieces(ids[0]) else Pieces(ids[0]) + AllPieces(ids[1..])
  }

  lemma BeforeMore(c: char, p: seq<string>, q: seq<string>)
    requires p != []
    ensures Before(c, p + q) == Before(c, p) + q
  {
  }

  lemma {:induction false} PiecesOfTwo(a: string, b: string)
    ensures Pieces(a + ['\U{0000}'] + b) == Pieces(a) + Pieces(b)
  {
    var s := a + ['\U{0000}'] + b;
    if a == "" {
      assert s[1..] == b;
    } else {
      PiecesOfTwo(a[1..], b);
      BeforeMore(a[0], Pieces(a[1..]), Pieces(b));
      assert s[1..] == a[1..] + ['\U{0000}'] + b;
      hide Before;
    }
  }

  lemma {:induction false} PiecesOfJoin(ids: seq<string>)
    ensures Pieces(Join(ids)) == AllPieces(ids)
  {
    if |ids| > 1 {
      PiecesOfTwo(ids[0], Join(ids[1..]));
      PiecesOfJoin(ids[1..]);
    }
  }

  lemma {:induction false} JoinOfPieces(s: string)
    ensures Join(Pieces(s)) == s
  {
    if s != "" {
      JoinOfPieces(s[1..]);
      var rest := Pieces(s[1..]);
      assert ([""] + rest)[1..] == rest;
      assert ([[s[0]] + rest[0]] + rest[1..])[1..] == rest[1..];
    }
  }

  lemma {:induction false} PiecesOfPlain(s: string)
    requires NulFree(s)
    ensures Pieces(s) == [s]
  {
    if s != "" {
      assert s[0] in s;
      PiecesOfPlain(s[1..]);
      assert s == [s[0]] + s[1..];
    }
  }

  lemma {:induction false} AllPiecesOfPlain(ids: seq<string>)
    requires ids != [] && AllNulFree(ids)
    ensures AllPieces(ids) == ids
  {
    PiecesOfPlain(ids[0]);
    if |ids| > 1 {
      AllPiecesOfPlain(ids[1..]);
    }
    assert ids == [ids[0]] + ids[1..];
  }

  // The lists read alike exactly when they are alike once every id is split at the separator; so for
  // ids without it, and no empty list, exactly when they are equal.
  lemma {:induction false} MismatchedExactly(reviewed: seq<string>, mapped: seq<string>)
    ensures Mismatched(reviewed, mapped) <==> AllPieces(reviewed) != AllPieces(mapped)
    ensures reviewed != [] && mapped != [] && AllNulFree(reviewed) && AllNulFree(mapped) ==>
      (Mismatched(reviewed, mapped) <==> reviewed != mapped)
  {
    PiecesOfJoin(reviewed);
    PiecesOfJoin(mapped);
    JoinOfPieces(Join(reviewed));
    JoinOfPieces(Join(mapped));
    if reviewed != [] && mapped != [] && AllNulFree(reviewed) && AllNulFree(mapped) {
      AllPiecesOfPlain(reviewed);
      AllPiecesOfPlain(mapped);
    }
  }

  // So two different lists may read alike: one id that holds the separator, and its two halves.
  lemma {:induction false} SeparatorHides(x: string, y: string)
    requires Precedes(x, y)
    ensures var one, two := [x + ['\U{0000}'] + y], [x, y];
      Increasing(one) && Increasing(two) && one != two && !Mismatched(one, two)
  {
    var one, two := [x + ['\U{0000}'] + y], [x, y];
    PiecesOfTwo(x, y);
    MismatchedExactly(one, two);
    assert two[1..] == [y] && |one| != |two| && Increasing([y]);
  }

  // What the review asks of an emitter.
  ghost predicate Reviewed(env: Env, chain: string, e: Emitter) {
    && e.chain == chain && env.pin(e.runtimeIdentity).Some? && e.abiBasis.Some? && e.adminEvents != []
    && forall x :: x in e.adminEvents ==> x in env.families
  }

  lemma {:induction false} EventsMean(env: Env, events: seq<string>)
    ensures SortedValues(events) == [] <==> events == []
    ensures Known(env, SortedValues(events), false) == [] <==> forall x :: x in events ==> x in env.families
  {
    var sorted := SortedValues(events);
    var rest := Known(env, sorted, false);
    SortedValuesMeans(events);
    KnownMeans(env, sorted, false);
    hide SortedValues, Known;
    assert events == [] || events[0] in sorted;
    assert sorted == [] || sorted[0] in events;
    assert rest == [] || rest[0] in rest;
    if rest == [] {
      assert forall x :: x in events ==> x in sorted && x !in rest;
    }
  }

  lemma ReviewedExactly(env: Env, chain: string, e: Emitter)
    ensures Faults(env, chain, e) == {} <==> Reviewed(env, chain, e)
  {
    EventsMean(env, e.adminEvents);
    hide SortedValues, Known;
    if Fault(env, chain, e).Some? {
      assert Fault(env, chain, e).value in Faults(env, chain, e);
    } else {
      assert AbiNotCovered in {AbiNotCovered};
    }
  }

  // A lane gets a descriptor exactly when its sorted controls and those mapped read alike, every
  // mapping names emitters and only listed ones, no two emitters share an address, each is as the
  // review asks, and the chain's lookback reaches the floor.
  lemma DescriptorExactly(env: Env, lane: Lane, record: Inventory, lookbacks: map<string, nat>)
    ensures Admit(env, lane, record, lookbacks).descriptor.Some? <==>
      && AllPieces(SortedValues(ControlIds(lane.contributors))) == AllPieces(SortedValues(MappedIds(record.contributors)))
      && (forall m :: m in record.contributors ==> !Unmapped(env, record, m))
      && !Repeats(Addresses(env, record.emitters))
      && (forall e :: e in record.emitters ==> Reviewed(env, lane.chain, e))
      && lane.chain in lookbacks && lookbacks[lane.chain] >= MINIMUM_LOOKBACK_BLOCKS
  {
    var ids, mapped := SortedValues(ControlIds(lane.contributors)), SortedValues(MappedIds(record.contributors));
    AdmittedExactly(env, lane, record, lookbacks);
    MismatchedExactly(ids, mapped);
    UnmappedIdsMean(env, record, record.contributors);
    NoFaultsExactly(env, lane.chain, record.emitters);
    hide SortedValues, UnmappedIds, AllFaults, Mismatched, Repeats, Unmapped, Reviewed, Addresses, AllPieces, Admit;
    var reasons := Reasons(env, lane.chain, ids, record, lookbacks);
    NoReasonExactly(env, lane.chain, ids, record, lookbacks);
  }

  lemma {:induction false} NoReasonExactly(env: Env, chain: string, ids: seq<string>, record: Inventory, lookbacks: map<string, nat>)
    ensures Reasons(env, chain, ids, record, lookbacks) == {} <==>
      && !Mismatched(ids, SortedValues(MappedIds(record.contributors)))
      && UnmappedIds(env, record, record.contributors) == []
      && AllFaults(env, chain, record.emitters) == {}
      && !Repeats(Addresses(env, record.emitters))
      && !LookbackShort(lookbacks, chain)
  {
    hide SortedValues, UnmappedIds, AllFaults, Mismatched, Repeats, Addresses, LookbackShort;
  }

  lemma {:induction false} NoFaultsExactly(env: Env, chain: string, emitters: seq<Emitter>)
    ensures AllFaults(env, chain, emitters) == {} <==> forall e :: e in emitters ==> Reviewed(env, chain, e)
  {
    hide Faults, Reviewed;
    AllFaultsMean(env, chain, emitters);
    forall e | e in emitters
      ensures Faults(env, chain, e) == {} <==> Reviewed(env, chain, e)
    {
      ReviewedExactly(env, chain, e);
    }
    if AllFaults(env, chain, emitters) == {} {
      forall e | e in emitters
        ensures Reviewed(env, chain, e)
      {
        NoFaults(env, chain, emitters, e);
      }
    }
  }

  // And then it certifies: its emitters are those reviewed, each screened for exactly its events, and
  // where ids hold no separator, the controls reviewed for the lane are exactly those mapped.
  lemma {:induction false} DescriptorCertifies(env: Env, lane: Lane, record: Inventory, lookbacks: map<string, nat>)
    requires Admit(env, lane, record, lookbacks).descriptor.Some?
    ensures var d := Admit(env, lane, record, lookbacks).descriptor.value;
      var screens := AllScreened(env, lane.chain, record.emitters);
      && Screens(env, record.emitters, screens) && multiset(d.emitters) == multiset(screens)
      && lane.chain in lookbacks && d.lookback == lookbacks[lane.chain] >= MINIMUM_LOOKBACK_BLOCKS
    ensures var ids, mapped := ControlIds(lane.contributors), MappedIds(record.contributors);
      ids != [] && mapped != [] && AllNulFree(ids) && AllNulFree(mapped) ==> forall id :: id in ids <==> id in mapped
  {
    var ids, mapped := ControlIds(lane.contributors), MappedIds(record.contributors);
    DescriptorExactly(env, lane, record, lookbacks);
    NoFaultsExactly(env, lane.chain, record.emitters);
    hide SortedValues, UnmappedIds, AllFaults, AllScreened, Mismatched, Repeats, Unmapped, Faults, Screens, Addresses, SortBy,
      AllPieces, Reviewed;
    FaultlessScreens(env, lane.chain, record.emitters);
    MismatchedExactly(SortedValues(ids), SortedValues(mapped));
    if ids != [] && mapped != [] && AllNulFree(ids) && AllNulFree(mapped) {
      SameIds(ids, mapped);
    }
    SortByMeans(ByAddress, AllScreened(env, lane.chain, record.emitters));
  }

  lemma {:induction false} NoFaults(env: Env, chain: string, emitters: seq<Emitter>, e: Emitter)
    requires AllFaults(env, chain, emitters) == {} && e in emitters
    ensures Faults(env, chain, e) == {}
  {
    AllFaultsMean(env, chain, emitters);
    hide Faults;
    assert forall r :: r in Faults(env, chain, e) ==> r in AllFaults(env, chain, emitters);
  }

  lemma {:induction false} SameIds(ids: seq<string>, mapped: seq<string>)
    requires ids != [] && mapped != [] && AllNulFree(ids) && AllNulFree(mapped)
    requires !Mismatched(SortedValues(ids), SortedValues(mapped))
    ensures forall id :: id in ids <==> id in mapped
  {
    SortedValuesMeans(ids);
    SortedValuesMeans(mapped);
    assert ids[0] in ids && mapped[0] in mapped;
    forall i | 0 <= i < |SortedValues(ids)|
      ensures NulFree(SortedValues(ids)[i])
    {
      assert SortedValues(ids)[i] in ids;
    }
    forall i | 0 <= i < |SortedValues(mapped)|
      ensures NulFree(SortedValues(mapped)[i])
    {
      assert SortedValues(mapped)[i] in mapped;
    }
    MismatchedExactly(SortedValues(ids), SortedValues(mapped));
    SortedValuesOf(ids, mapped);
  }
}
