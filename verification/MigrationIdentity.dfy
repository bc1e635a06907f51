// The authored identity of a candidate, the legacy key derived back from an identity, and when the
// one undoes the other.
module MigrationIdentity {
  import opened Options
  import opened SortedText
  import opened MigrationKeys

  function ResolutionOf(c: Candidate): Resolution {
    match c
    case Lane(_) => ByLane
    case Control(_, _) => ByControl
    case LaneAggregate(_, _) => ByLaneAggregate
    case Mint(_, _) => ByMintControl
  }

  function AuthoredIdentity(assetId: string, c: Candidate): Identity {
    match c
    case Mint(mintLabel, mintRoute) => Identity(assetId, mintRoute, Some(mintLabel), None)
    case LaneAggregate(routeId, controlIds) => Identity(assetId, Some(routeId), None, Some(controlIds))
    case Control(routeId, controlId) => Identity(assetId, Some(routeId), Some(controlId), None)
    case Lane(routeId) => Identity(assetId, Some(routeId), Some("*"), None)
  }

  function FirstMint(controls: seq<MintControl>, mintLabel: string): Option<MintControl> {
    if controls == [] then None
    else if controls[0].mintLabel == mintLabel then Some(controls[0])
    else FirstMint(controls[1..], mintLabel)
  }

  ghost predicate IsFirstMint(controls: seq<MintControl>, mintLabel: string, m: nat) {
    && m < |controls| && controls[m].mintLabel == mintLabel
    && forall l :: 0 <= l < m ==> controls[l].mintLabel != mintLabel
  }

  ghost predicate HasMint(controls: seq<MintControl>, mintLabel: string) {
    exists m :: 0 <= m < |controls| && controls[m].mintLabel == mintLabel
  }

  lemma {:induction false} FirstMintMeans(controls: seq<MintControl>, mintLabel: string)
    ensures FirstMint(controls, mintLabel).Some? <==> HasMint(controls, mintLabel)
    ensures forall m: nat :: IsFirstMint(controls, mintLabel, m) ==> FirstMint(controls, mintLabel) == Some(controls[m])
  {
    if controls != [] {
      FirstMintMeans(controls[1..], mintLabel);
      if HasMint(controls, mintLabel) && controls[0].mintLabel != mintLabel {
        var m :| 0 <= m < |controls| && controls[m].mintLabel == mintLabel;
        assert controls[1..][m - 1].mintLabel == mintLabel;
      }
      if HasMint(controls[1..], mintLabel) {
        var m :| 0 <= m < |controls[1..]| && controls[1..][m].mintLabel == mintLabel;
        assert controls[m + 1].mintLabel == mintLabel;
      }
      forall m: nat | IsFirstMint(controls, mintLabel, m)
        ensures FirstMint(controls, mintLabel) == Some(controls[m])
      {
        if m > 0 {
          assert controls[0].mintLabel != mintLabel;
          assert forall l :: 0 <= l < m - 1 ==> controls[1..][l].mintLabel == controls[l + 1].mintLabel;
          assert IsFirstMint(controls[1..], mintLabel, m - 1);
          assert controls[1..][m - 1] == controls[m];
        }
      }
    }
  }

  // The control that an identity names as a mint control, if it may name one and does.
  function NamedMint(asset: Asset, id: Identity, resolution: Resolution): Option<MintControl> {
    if (id.routeId.None? || resolution.ByMintControl?) && id.controlId.Some? && id.controlId.value != "*" then
      FirstMint(asset.mintControls, id.controlId.value)
    else
      None
  }

  function LegacyKey(env: Env, asset: Asset, assetId: string, id: Identity, resolution: Resolution): Option<string> {
    var mint := NamedMint(asset, id, resolution);
    if mint.Some? then Some(env.mintKey(assetId, mint.value))
    else if id.routeId.None? then None
    else
      var routeId := env.normalize(id.routeId.value);
      if id.controlIds.Some? then Some(env.aggregateKey(assetId, routeId, id.controlIds.value))
      else if id.controlId == Some("*") then Some(env.bridgeKey(assetId, routeId))
      else if id.controlId.None? then None
      else Some(env.structuredKey(assetId, id.controlId.value, routeId))
  }

  // An identity that may name a mint control: a wildcard never does.
  ghost predicate MayNameMint(id: Identity, resolution: Resolution) {
    (id.routeId.None? || resolution.ByMintControl?) && id.controlId.Some? && id.controlId.value != "*"
  }

  // The key derived back: that of the first mint control of the label, else by the normal form of the
  // route that of a list of controls, of a whole lane or of one control, and otherwise none.
  ghost predicate KeySays(
    env: Env, asset: Asset, assetId: string, id: Identity, resolution: Resolution, key: Option<string>)
  {
    if MayNameMint(id, resolution) && HasMint(asset.mintControls, id.controlId.value) then
      forall m: nat :: IsFirstMint(asset.mintControls, id.controlId.value, m) ==> key == Some(env.mintKey(assetId, asset.mintControls[m]))
    else
      && (key.Some? <==> id.routeId.Some? && (id.controlId.Some? || id.controlIds.Some?))
      && forall routeId :: id.routeId == Some(routeId) ==>
           var n := env.normalize(routeId);
           && (forall ids :: id.controlIds == Some(ids) ==> key == Some(env.aggregateKey(assetId, n, ids)))
           && (id.controlIds.None? && id.controlId == Some("*") ==> key == Some(env.bridgeKey(assetId, n)))
           && forall c :: id.controlIds.None? && id.controlId == Some(c) && c != "*" ==> key == Some(env.structuredKey(assetId, c, n))
  }

  lemma LegacyKeyMeans(env: Env, asset: Asset, assetId: string, id: Identity, resolution: Resolution)
    ensures KeySays(env, asset, assetId, id, resolution, LegacyKey(env, asset, assetId, id, resolution))
  {
    hide FirstMint, IsFirstMint, HasMint;
    if id.controlId.Some? {
      FirstMintMeans(asset.mintControls, id.controlId.value);
    }
  }

  // The aggregate form in which a lane of one control may have been keyed.
  function OneIdKey(env: Env, assetId: string, id: Identity): Option<string> {
    if id.routeId.Some? && id.controlId.Some? && id.controlId.value != "*" && id.controlIds.None? then
      Some(env.aggregateKey(assetId, env.normalize(id.routeId.value), [id.controlId.value]))
    else
      None
  }

  predicate Derives(env: Env, asset: Asset, assetId: string, id: Identity, resolution: Resolution, key: Option<string>) {
    LegacyKey(env, asset, assetId, id, resolution) == key || OneIdKey(env, assetId, id) == key
  }

  // Where a candidate of an asset comes from.
  ghost predicate RouteOf(env: Env, asset: Asset, routeId: string) {
    routeId != "" &&
    ((exists i :: 0 <= i < |asset.routes| && env.normalize(asset.routes[i]) == routeId)
     || (exists c, k :: 0 <= c < |asset.bridgeControls| && 0 <= k < |asset.bridgeControls[c].routeRefs|
           && env.normalize(asset.bridgeControls[c].routeRefs[k]) == routeId))
  }

  ghost predicate ControlOf(asset: Asset, id: string) {
    exists c :: 0 <= c < |asset.bridgeControls| && asset.bridgeControls[c].id == id
  }

  ghost predicate MintOf(env: Env, asset: Asset, assetId: string, e: Keyed) {
    exists m :: 0 <= m < |asset.mintControls| && e == MintEntry(env, assetId, asset.mintControls[m])
  }

  ghost predicate Sourced(env: Env, asset: Asset, assetId: string, e: Keyed) {
    match e.candidate
    case Lane(routeId) => RouteOf(env, asset, routeId) && e.key == env.bridgeKey(assetId, routeId)
    case Control(routeId, controlId) =>
      && RouteOf(env, asset, routeId) && ControlOf(asset, controlId)
      && (e.key == env.structuredKey(assetId, controlId, routeId) || e.key == env.aggregateKey(assetId, routeId, [controlId]))
    case LaneAggregate(routeId, controlIds) =>
      RouteOf(env, asset, routeId) && e.key == env.aggregateKey(assetId, routeId, controlIds)
    case Mint(_, _) => MintOf(env, asset, assetId, e)
  }

  // The condition, checkable on the metadata, under which an identity leads back to its key: routes
  // are in normal form, no control id is the wildcard, and a mint label names a control whose key is
  // the one in question.
  ghost predicate Recoverable(env: Env, asset: Asset, assetId: string, e: Keyed) {
    match e.candidate
    case Lane(routeId) => env.normalize(routeId) == routeId
    case Control(routeId, controlId) => env.normalize(routeId) == routeId && controlId != "*"
    case LaneAggregate(routeId, _) => env.normalize(routeId) == routeId
    case Mint(mintLabel, _) =>
      && mintLabel != "*"
      && var first := FirstMint(asset.mintControls, mintLabel);
      && first.Some? && env.mintKey(assetId, first.value) == e.key
  }

  predicate Recovers(env: Env, asset: Asset, assetId: string, e: Keyed) {
    Derives(env, asset, assetId, AuthoredIdentity(assetId, e.candidate), ResolutionOf(e.candidate), Some(e.key))
  }

  // The few digests that are compared for one candidate do not collide: its key is equal to the one that
  // its identity leads to only where both are made of the same route, and never to one of another form.
  predicate Distinct(env: Env, assetId: string, e: Keyed) {
    match e.candidate
    case Lane(routeId) =>
      var n := env.normalize(routeId);
      env.bridgeKey(assetId, n) == e.key ==> n == routeId
    case Control(routeId, controlId) =>
      var n := env.normalize(routeId);
      if controlId == "*" then env.bridgeKey(assetId, n) != e.key
      else
        env.structuredKey(assetId, controlId, n) == e.key || env.aggregateKey(assetId, n, [controlId]) == e.key ==> n == routeId
    case LaneAggregate(routeId, controlIds) =>
      var n := env.normalize(routeId);
      env.aggregateKey(assetId, n, controlIds) == e.key ==> n == routeId
    case Mint(mintLabel, mintRoute) =>
      mintRoute.Some? ==>
        var n := env.normalize(mintRoute.value);
        && env.bridgeKey(assetId, n) != e.key && env.structuredKey(assetId, mintLabel, n) != e.key
        && env.aggregateKey(assetId, n, [mintLabel]) != e.key
  }

  // Under that condition an identity leads back to its key, and where those digests differ, exactly then.
  lemma RecoversExactly(env: Env, asset: Asset, assetId: string, e: Keyed)
    requires Sourced(env, asset, assetId, e)
    ensures Recoverable(env, asset, assetId, e) ==> Recovers(env, asset, assetId, e)
    ensures Distinct(env, assetId, e) ==> (Recovers(env, asset, assetId, e) <==> Recoverable(env, asset, assetId, e))
  {
    hide FirstMint, RouteOf, ControlOf;
    if e.candidate.Mint? {
      var m :| 0 <= m < |asset.mintControls| && e == MintEntry(env, assetId, asset.mintControls[m]);
      assert e.key == env.mintKey(assetId, asset.mintControls[m]);
    }
  }

  // Metadata that a registry would call well formed.
  ghost predicate WellFormed(env: Env, asset: Asset) {
    && (forall c :: 0 <= c < |asset.bridgeControls| ==> asset.bridgeControls[c].id != "*")
    && (forall m :: 0 <= m < |asset.mintControls| ==> asset.mintControls[m].mintLabel != "*")
    && (forall m, n :: 0 <= m < n < |asset.mintControls| ==> asset.mintControls[m].mintLabel != asset.mintControls[n].mintLabel)
    && (forall routeId :: RouteOf(env, asset, routeId) ==> env.normalize(routeId) == routeId)
  }

  lemma {:induction false} FirstMintFound(controls: seq<MintControl>, m: nat)
    requires m < |controls|
    requires forall i, j :: 0 <= i < j < |controls| ==> controls[i].mintLabel != controls[j].mintLabel
    ensures FirstMint(controls, controls[m].mintLabel) == Some(controls[m])
  {
    if m > 0 {
      assert controls[0].mintLabel != controls[m].mintLabel;
      FirstMintFound(controls[1..], m - 1);
    }
  }

  lemma WellFormedRecovers(env: Env, asset: Asset, assetId: string, e: Keyed)
    requires WellFormed(env, asset) && Sourced(env, asset, assetId, e)
    ensures Recovers(env, asset, assetId, e)
  {
    match e.candidate
    case Mint(_, _) =>
      var m :| 0 <= m < |asset.mintControls| && e == MintEntry(env, assetId, asset.mintControls[m]);
      FirstMintFound(asset.mintControls, m);
    case _ =>
  }

  // Every candidate that is added has such a source.
  lemma {:induction false} LanesSourced(env: Env, asset: Asset, assetId: string, n: nat, e: Keyed)
    requires n <= |asset.routes| && e in LaneEntries(env, assetId, Normalized(env, asset.routes)[..n])
    ensures Sourced(env, asset, assetId, e)
  {
    var ids := Normalized(env, asset.routes);
    if n > 0 {
      assert ids[..n][..n - 1] == ids[..n - 1];
      if e in LaneEntries(env, assetId, ids[..n - 1]) {
        LanesSourced(env, asset, assetId, n - 1, e);
      } else {
        assert env.normalize(asset.routes[n - 1]) == ids[n - 1];
      }
    }
  }

  lemma {:induction false} ControlRoutesMean(env: Env, refs: seq<string>)
    ensures forall id :: id in ControlRoutes(env, refs) <==>
      id != "" && exists k :: 0 <= k < |refs| && env.normalize(refs[k]) == id
  {
    if refs != [] {
      var n := |refs| - 1;
      ControlRoutesMean(env, refs[..n]);
      forall id
        ensures id in ControlRoutes(env, refs) <==> id != "" && exists k :: 0 <= k < |refs| && env.normalize(refs[k]) == id
      {
        if id in ControlRoutes(env, refs[..n]) {
          var k :| 0 <= k < n && env.normalize(refs[..n][k]) == id;
          assert env.normalize(refs[k]) == id;
        }
        if id != "" && exists k :: 0 <= k < |refs| && env.normalize(refs[k]) == id {
          var k :| 0 <= k < |refs| && env.normalize(refs[k]) == id;
          if k < n {
            assert env.normalize(refs[..n][k]) == id;
          }
        }
      }
    }
  }

  lemma {:induction false} ControlsSourced(env: Env, asset: Asset, assetId: string, n: nat, e: Keyed)
    requires n <= |asset.bridgeControls| && e in ControlEntries(env, assetId, asset.bridgeControls[..n])
    ensures Sourced(env, asset, assetId, e)
  {
    var controls := asset.bridgeControls;
    if n > 0 {
      assert controls[..n][..n - 1] == controls[..n - 1];
      if e in ControlEntries(env, assetId, controls[..n - 1]) {
        ControlsSourced(env, asset, assetId, n - 1, e);
      } else {
        var control := controls[n - 1];
        var routeIds := ControlRoutes(env, control.routeRefs);
        var i :| 0 <= i < |routeIds| && e == ControlEntry(env, assetId, control.id, routeIds[i]);
        ControlRoutesMean(env, control.routeRefs);
        assert routeIds[i] in routeIds;
        assert RouteOf(env, asset, routeIds[i]);
        assert ControlOf(asset, control.id);
      }
    }
  }

  lemma {:induction false} ContributorsMean(env: Env, asset: Asset, n: nat, routeId: string, id: string)
    requires n <= |asset.bridgeControls| && id in Contributors(env, asset.bridgeControls[..n], routeId)
    ensures ControlOf(asset, id)
  {
    var controls := asset.bridgeControls;
    if n > 0 {
      assert controls[..n][..n - 1] == controls[..n - 1];
      if id in Contributors(env, controls[..n - 1], routeId) {
        ContributorsMean(env, asset, n - 1, routeId, id);
      } else {
        assert controls[n - 1].id == id;
      }
    }
  }

  lemma {:induction false} AggregatesSourced(env: Env, asset: Asset, assetId: string, n: nat, e: Keyed)
    requires n <= |asset.routes|
    requires e in AggregateEntries(env, assetId, asset.bridgeControls, Normalized(env, asset.routes)[..n])
    ensures Sourced(env, asset, assetId, e)
  {
    hide Contributors, Sorted;
    var ids, controls := Normalized(env, asset.routes), asset.bridgeControls;
    if n > 0 {
      assert ids[..n][..n - 1] == ids[..n - 1];
      if e in AggregateEntries(env, assetId, controls, ids[..n - 1]) {
        AggregatesSourced(env, asset, assetId, n - 1, e);
      } else {
        var routeId := ids[n - 1];
        var contributors := Contributors(env, controls, routeId);
        assert env.normalize(asset.routes[n - 1]) == routeId;
        SortedMeans(contributors);
        var sorted := Sorted(contributors);
        if |sorted| == 1 {
          assert sorted == [sorted[0]];
          assert sorted[0] in multiset(sorted);
          assert sorted[0] in contributors;
          assert controls[..|controls|] == controls;
          ContributorsMean(env, asset, |controls|, routeId, sorted[0]);
        }
      }
    }
  }

  lemma EntriesSourced(env: Env, asset: Asset, assetId: string, e: Keyed)
    requires e in AllEntries(env, assetId, asset)
    ensures Sourced(env, asset, assetId, e)
  {
    hide Sourced, LaneEntries, ControlEntries, AggregateEntries;
    var ids := Normalized(env, asset.routes);
    assert ids[..|asset.routes|] == ids;
    assert asset.bridgeControls[..|asset.bridgeControls|] == asset.bridgeControls;
    if e in LaneEntries(env, assetId, ids) {
      LanesSourced(env, asset, assetId, |asset.routes|, e);
    } else if e in ControlEntries(env, assetId, asset.bridgeControls) {
      ControlsSourced(env, asset, assetId, |asset.bridgeControls|, e);
    } else if e in AggregateEntries(env, assetId, asset.bridgeControls, ids) {
      AggregatesSourced(env, asset, assetId, |asset.routes|, e);
    } else {
      MintsSourced(env, asset, assetId, e);
    }
  }

  lemma MintsSourced(env: Env, asset: Asset, assetId: string, e: Keyed)
    requires e in MintEntries(env, assetId, asset.mintControls)
    ensures Sourced(env, asset, assetId, e)
  {
  }

  // What a collected map gives for a key is one of the entries, and so has a source.
  lemma CandidateSourced(env: Env, asset: Asset, assetId: string, key: string)
    requires var m := Collected(AllEntries(env, assetId, asset)); m.Returned? && key in m.value
    ensures Sourced(env, asset, assetId, Keyed(key, Collected(AllEntries(env, assetId, asset)).value[key]))
  {
    hide AllEntries, Sourced;
    var entries := AllEntries(env, assetId, asset);
    CollectedMeans(entries);
    EntriesSourced(env, asset, assetId, Keyed(key, Collected(entries).value[key]));
  }

  // Every candidate of well-formed metadata leads back to its own key.
  lemma EveryCandidateRecovers(env: Env, asset: Asset, assetId: string, key: string)
    requires var m := Collected(AllEntries(env, assetId, asset)); m.Returned? && key in m.value
    requires WellFormed(env, asset)
    ensures Recovers(env, asset, assetId, Keyed(key, Collected(AllEntries(env, assetId, asset)).value[key]))
  {
    hide AllEntries, Sourced, WellFormed, Recovers;
    CandidateSourced(env, asset, assetId, key);
    WellFormedRecovers(env, asset, assetId, Keyed(key, Collected(AllEntries(env, assetId, asset)).value[key]));
  }
}
