// The digest keys of scripts/build-data/generate-safety-score-v9-incident-review-key-migration.ts:
// every key that the compiler can emit for an asset, the identity that names it, and the key
// derived back from that identity.
module MigrationKeys {
  import opened Options
  import opened SortedText

  datatype BridgeControl = BridgeControl(id: string, routeRefs: seq<string>)

  // `details` stands for all other fields that enter a mint digest.
  datatype MintControl = MintControl(mintLabel: string, details: string)

  datatype Asset = Asset(routes: seq<string>, bridgeControls: seq<BridgeControl>, mintControls: seq<MintControl>)

  const NO_CONTROLS := Asset([], [], [])

  datatype Adjudication = Adjudication(collision: bool, reason: string)

  // What the migration takes from elsewhere: the normal form of deployment ids, the four digest
  // namespaces, the form of stable review ids, and two tables.
  datatype Env = Env(
    normalize: string -> string,
    bridgeKey: (string, string) -> string,
    structuredKey: (string, string, string) -> string,
    aggregateKey: (string, string, seq<string>) -> string,
    mintKey: (string, MintControl) -> string,
    canonical: string -> bool,
    mintId: (string, string, int) -> string,
    bridgeId: (string, string, string, int) -> string,
    adjudications: map<string, Adjudication>,
    mintRoutes: map<(string, string), string>
  )

  datatype Candidate =
    | Lane(routeId: string)
    | Control(routeId: string, controlId: string)
    | LaneAggregate(routeId: string, controlIds: seq<string>)
    | Mint(mintLabel: string, mintRoute: Option<string>)

  datatype Resolution = ByLane | ByControl | ByLaneAggregate | ByMintControl | ByDeployment | ByRetirement

  datatype Identity = Identity(
    assetId: string, routeId: Option<string>, controlId: Option<string>, controlIds: Option<seq<string>>)

  datatype Keyed = Keyed(key: string, candidate: Candidate)

  function Normalized(env: Env, ids: seq<string>): (r: seq<string>)
    ensures |r| == |ids| && forall i :: 0 <= i < |ids| ==> r[i] == env.normalize(ids[i])
  {
    seq(|ids|, i requires 0 <= i < |ids| => env.normalize(ids[i]))
  }

  // The distinct route ids of a control, in order, without those that do not normalise.
  function ControlRoutes(env: Env, refs: seq<string>): seq<string> {
    if refs == [] then []
    else
      var n := |refs| - 1;
      var before := ControlRoutes(env, refs[..n]);
      var id := env.normalize(refs[n]);
      if id == "" || id in before then before else before + [id]
  }

  function LaneEntries(env: Env, assetId: string, routeIds: seq<string>): seq<Keyed> {
    if routeIds == [] then []
    else
      var n := |routeIds| - 1;
      LaneEntries(env, assetId, routeIds[..n])
      + if routeIds[n] == "" then [] else [Keyed(env.bridgeKey(assetId, routeIds[n]), Lane(routeIds[n]))]
  }

  function ControlEntry(env: Env, assetId: string, controlId: string, routeId: string): Keyed {
    Keyed(env.structuredKey(assetId, controlId, routeId), Control(routeId, controlId))
  }

  function RoutesOfControl(env: Env, assetId: string, controlId: string, routeIds: seq<string>): seq<Keyed> {
    seq(|routeIds|, i requires 0 <= i < |routeIds| => ControlEntry(env, assetId, controlId, routeIds[i]))
  }

  function ControlEntries(env: Env, assetId: string, controls: seq<BridgeControl>): seq<Keyed> {
    if controls == [] then []
    else
      var n := |controls| - 1;
      ControlEntries(env, assetId, controls[..n])
      + RoutesOfControl(env, assetId, controls[n].id, ControlRoutes(env, controls[n].routeRefs))
  }

  // The ids of the controls that refer to a route.
  function Contributors(env: Env, controls: seq<BridgeControl>, routeId: string): seq<string> {
    if controls == [] then []
    else
      var n := |controls| - 1;
      Contributors(env, controls[..n], routeId)
      + if exists k :: 0 <= k < |controls[n].routeRefs| && env.normalize(controls[n].routeRefs[k]) == routeId
        then [controls[n].id] else []
  }

  function AggregateEntry(env: Env, assetId: string, controls: seq<BridgeControl>, routeId: string): seq<Keyed> {
    var ids := Sorted(Contributors(env, controls, routeId));
    if routeId == "" || ids == [] then []
    else
      [Keyed(
         env.aggregateKey(assetId, routeId, ids),
         if |ids| == 1 then Control(routeId, ids[0]) else LaneAggregate(routeId, ids))]
  }

  function AggregateEntries(env: Env, assetId: string, controls: seq<BridgeControl>, routeIds: seq<string>): seq<Keyed> {
    if routeIds == [] then []
    else
      var n := |routeIds| - 1;
      AggregateEntries(env, assetId, controls, routeIds[..n]) + AggregateEntry(env, assetId, controls, routeIds[n])
  }

  function MintEntry(env: Env, assetId: string, control: MintControl): Keyed {
    var at := (assetId, control.mintLabel);
    Keyed(env.mintKey(assetId, control), Mint(control.mintLabel, if at in env.mintRoutes then Some(env.mintRoutes[at]) else None))
  }

  function MintEntries(env: Env, assetId: string, controls: seq<MintControl>): seq<Keyed> {
    seq(|controls|, i requires 0 <= i < |controls| => MintEntry(env, assetId, controls[i]))
  }

  // All candidates of an asset, in the order in which they are added.
  function AllEntries(env: Env, assetId: string, asset: Asset): seq<Keyed> {
    var routeIds := Normalized(env, asset.routes);
    LaneEntries(env, assetId, routeIds)
    + ControlEntries(env, assetId, asset.bridgeControls)
    + AggregateEntries(env, assetId, asset.bridgeControls, routeIds)
    + MintEntries(env, assetId, asset.mintControls)
  }

  type Candidates = map<string, Candidate>

  // `add`: a key already taken throws, and nothing comes after that.
  function AddTo(candidates: Outcome<Candidates>, e: Keyed): Outcome<Candidates> {
    if candidates.Threw? || e.key in candidates.value then Threw
    else Returned(candidates.value[e.key := e.candidate])
  }

  function Collected(entries: seq<Keyed>): Outcome<Candidates> {
    if entries == [] then Returned(map[])
    else AddTo(Collected(entries[..|entries| - 1]), entries[|entries| - 1])
  }

  lemma {:induction false} CollectedMore(a: seq<Keyed>, b: seq<Keyed>, e: Keyed)
    ensures Collected(a + (b + [e])) == AddTo(Collected(a + b), e)
  {
    assert (a + (b + [e]))[..|a| + |b|] == a + b;
  }

  // The map holds exactly the entries, and builds exactly when no key comes twice.
  lemma {:induction false} CollectedMeans(entries: seq<Keyed>)
    ensures Collected(entries).Returned? <==> forall i, j :: 0 <= i < j < |entries| ==> entries[i].key != entries[j].key
    ensures Collected(entries).Returned? ==>
      forall k, c :: k in Collected(entries).value && Collected(entries).value[k] == c <==> Keyed(k, c) in entries
  {
    if entries != [] {
      var n := |entries| - 1;
      var before, last := entries[..n], entries[n];
      CollectedMeans(before);
      assert entries == before + [last];
      if Collected(before).Returned? {
        if last.key in Collected(before).value {
          var c := Collected(before).value[last.key];
          assert Keyed(last.key, c) in before;
          var i :| 0 <= i < n && before[i] == Keyed(last.key, c);
          assert entries[i].key == entries[n].key;
        } else {
          forall i | 0 <= i < n
            ensures entries[i].key != last.key
          {
            assert before[i] == Keyed(before[i].key, before[i].candidate);
            assert before[i] in before;
          }
        }
      } else {
        var i, j :| 0 <= i < j < |before| && before[i].key == before[j].key;
        assert entries[i].key == entries[j].key;
      }
    }
  }

  method AddLanes(env: Env, assetId: string, routeIds: seq<string>) returns (candidates: Outcome<Candidates>)
    ensures candidates == Collected(LaneEntries(env, assetId, routeIds))
  {
    candidates := Returned(map[]);
    for i := 0 to |routeIds|
      invariant candidates == Collected(LaneEntries(env, assetId, routeIds[..i]))
    {
      assert routeIds[..i + 1][..i] == routeIds[..i];
      ghost var done := LaneEntries(env, assetId, routeIds[..i]);
      if routeIds[i] == "" {
        NothingBefore(done);
      } else {
        var e := Keyed(env.bridgeKey(assetId, routeIds[i]), Lane(routeIds[i]));
        CollectedMore([], done, e);
        NothingBefore(done);
        NothingBefore(done + [e]);
        candidates := AddTo(candidates, e);
      }
    }
    assert routeIds[..|routeIds|] == routeIds;
  }

  lemma NothingBefore(s: seq<Keyed>)
    ensures [] + s == s && s + [] == s
  {
  }

  // Adds the routes of one control after all that is there.
  method AddRoutes(env: Env, assetId: string, controlId: string, routeIds: seq<string>,
                   candidates: Outcome<Candidates>, ghost before: seq<Keyed>)
    returns (r: Outcome<Candidates>)
    requires candidates == Collected(before)
    ensures r == Collected(before + RoutesOfControl(env, assetId, controlId, routeIds))
  {
    hide Collected, AddTo, ControlEntry;
    r := candidates;
    assert RoutesOfControl(env, assetId, controlId, routeIds[..0]) == [];
    NothingBefore(before);
    for i := 0 to |routeIds|
      invariant r == Collected(before + RoutesOfControl(env, assetId, controlId, routeIds[..i]))
    {
      var e := ControlEntry(env, assetId, controlId, routeIds[i]);
      CollectedMore(before, RoutesOfControl(env, assetId, controlId, routeIds[..i]), e);
      assert RoutesOfControl(env, assetId, controlId, routeIds[..i + 1]) ==
        RoutesOfControl(env, assetId, controlId, routeIds[..i]) + [e];
      r := AddTo(r, e);
    }
    assert routeIds[..|routeIds|] == routeIds;
  }

  lemma Regroup(a: seq<Keyed>, b: seq<Keyed>, c: seq<Keyed>)
    ensures (a + b) + c == a + (b + c)
  {
  }

  method AddControls(env: Env, assetId: string, controls: seq<BridgeControl>,
                     candidates: Outcome<Candidates>, ghost before: seq<Keyed>)
    returns (r: Outcome<Candidates>)
    requires candidates == Collected(before)
    ensures r == Collected(before + ControlEntries(env, assetId, controls))
  {
    hide Collected, RoutesOfControl, ControlRoutes;
    r := candidates;
    NothingBefore(before);
    for i := 0 to |controls|
      invariant r == Collected(before + ControlEntries(env, assetId, controls[..i]))
    {
      assert controls[..i + 1][..i] == controls[..i];
      ghost var done := ControlEntries(env, assetId, controls[..i]);
      var routeIds := DistinctRoutes(env, controls[i].routeRefs);
      r := AddRoutes(env, assetId, controls[i].id, routeIds, r, before + done);
      Regroup(before, done, RoutesOfControl(env, assetId, controls[i].id, routeIds));
    }
    assert controls[..|controls|] == controls;
  }

  method DistinctRoutes(env: Env, refs: seq<string>) returns (routeIds: seq<string>)
    ensures routeIds == ControlRoutes(env, refs)
  {
    routeIds := [];
    for i := 0 to |refs|
      invariant routeIds == ControlRoutes(env, refs[..i])
    {
      assert refs[..i + 1][..i] == refs[..i];
      var id := env.normalize(refs[i]);
      if id != "" && id !in routeIds {
        routeIds := routeIds + [id];
      }
    }
    assert refs[..|refs|] == refs;
  }

  method AddAggregates(env: Env, assetId: string, controls: seq<BridgeControl>, routeIds: seq<string>,
                       candidates: Outcome<Candidates>, ghost before: seq<Keyed>)
    returns (r: Outcome<Candidates>)
    requires candidates == Collected(before)
    ensures r == Collected(before + AggregateEntries(env, assetId, controls, routeIds))
  {
    hide Collected, Contributors, Sorted;
    r := candidates;
    NothingBefore(before);
    for i := 0 to |routeIds|
      invariant r == Collected(before + AggregateEntries(env, assetId, controls, routeIds[..i]))
    {
      assert routeIds[..i + 1][..i] == routeIds[..i];
      ghost var done := AggregateEntries(env, assetId, controls, routeIds[..i]);
      var controlIds := Sorted(Contributors(env, controls, routeIds[i]));
      if routeIds[i] == "" || |controlIds| == 0 {
        NothingBefore(done);
      } else {
        var e := Keyed(
          env.aggregateKey(assetId, routeIds[i], controlIds),
          if |controlIds| == 1 then Control(routeIds[i], controlIds[0]) else LaneAggregate(routeIds[i], controlIds));
        CollectedMore(before, done, e);
        r := AddTo(r, e);
      }
    }
    assert routeIds[..|routeIds|] == routeIds;
  }

  method AddMints(env: Env, assetId: string, controls: seq<MintControl>,
                  candidates: Outcome<Candidates>, ghost before: seq<Keyed>)
    returns (r: Outcome<Candidates>)
    requires candidates == Collected(before)
    ensures r == Collected(before + MintEntries(env, assetId, controls))
  {
    hide Collected, AddTo, MintEntry;
    r := candidates;
    assert MintEntries(env, assetId, controls[..0]) == [];
    NothingBefore(before);
    for i := 0 to |controls|
      invariant r == Collected(before + MintEntries(env, assetId, controls[..i]))
    {
      var e := MintEntry(env, assetId, controls[i]);
      CollectedMore(before, MintEntries(env, assetId, controls[..i]), e);
      assert MintEntries(env, assetId, controls[..i + 1]) == MintEntries(env, assetId, controls[..i]) + [e];
      r := AddTo(r, e);
    }
    assert controls[..|controls|] == controls;
  }

  method BuildAuthoredCandidates(env: Env, assetId: string, asset: Asset) returns (candidates: Outcome<Candidates>)
    ensures candidates == Collected(AllEntries(env, assetId, asset))
  {
    hide Collected, LaneEntries, ControlEntries, AggregateEntries, MintEntries;
    var routeIds := Normalized(env, asset.routes);
    ghost var lanes := LaneEntries(env, assetId, routeIds);
    ghost var controls := ControlEntries(env, assetId, asset.bridgeControls);
    ghost var aggregates := AggregateEntries(env, assetId, asset.bridgeControls, routeIds);
    candidates := AddLanes(env, assetId, routeIds);
    candidates := AddControls(env, assetId, asset.bridgeControls, candidates, lanes);
    candidates := AddAggregates(env, assetId, asset.bridgeControls, routeIds, candidates, lanes + controls);
    candidates := AddMints(env, assetId, asset.mintControls, candidates, lanes + controls + aggregates);
  }
}
