// `buildIncidentReviewKeyMigration`, `assertMigrationPreservesLegacyKeys` and
// `applyIncidentReviewMigration` of
// scripts/build-data/generate-safety-score-v9-incident-review-key-migration.ts.
module KeyMigration {
  import opened Options
  import opened SortedText
  import opened MigrationKeys
  import opened MigrationIdentity
  import opened MigrationSources

  datatype Scope =
    | IssuerSurface
    | Provider
    | Deployment(deploymentKey: string)
    | Legacy(controlKey: string)
    | Authored(routeId: Option<string>, controlId: Option<string>, controlIds: Option<seq<string>>)

  // A review as the migration reads it; `retired` is the reason of a retirement.
  datatype Review = Review(
    reviewId: string, assetId: Option<string>, windowEnd: int, scope: Scope, retired: Option<string>)

  datatype Applied = AsAuthored | Unchanged | AsRetired | LegacyBlocked

  datatype Row = Row(
    reviewId: string, assetId: string, legacyKey: Option<string>, resolution: Resolution, authored: Option<Identity>,
    digestMatch: bool, collides: bool, applied: Applied, reason: string, stableId: string)

  datatype Artifact = Artifact(rows: seq<Row>, skipped: nat)

  type Metadata = map<string, Asset>

  function AssetOf(metadata: Metadata, assetId: string): (asset: Asset)
    ensures assetId in metadata ==> metadata[assetId] == asset
    ensures assetId !in metadata ==> asset.routes == [] && asset.bridgeControls == [] && asset.mintControls == []
  {
    if assetId in metadata then metadata[assetId] else NO_CONTROLS
  }

  // The stable ids that are composed are canonical by construction.
  ghost predicate Composes(env: Env) {
    && (forall a, c, w :: env.canonical(env.mintId(a, c, w)))
    && (forall a, r, c, w :: env.canonical(env.bridgeId(a, r, c, w)))
  }

  function CanonicalId(env: Env, id: string): Outcome<string> {
    if env.canonical(id) then Returned(id) else Threw
  }

  function StableId(env: Env, review: Review, assetId: string, resolution: Resolution, id: Identity): Outcome<string> {
    if resolution.ByMintControl? && id.controlId.Some? then
      CanonicalId(env, env.mintId(assetId, id.controlId.value, review.windowEnd))
    else if id.routeId.Some? then
      CanonicalId(
        env,
        env.bridgeId(assetId, id.routeId.value, if id.controlId.Some? then id.controlId.value else "lane", review.windowEnd))
    else CanonicalId(env, review.reviewId)
  }

  function RetiredRow(review: Review, assetId: string, legacyKey: Option<string>, collides: bool, reason: string): Row {
    Row(review.reviewId, assetId, legacyKey, ByRetirement, None, false, collides, AsRetired, reason, review.reviewId)
  }

  function AuthoredRow(
    env: Env, review: Review, assetId: string, legacyKey: Option<string>, resolution: Resolution, id: Identity): Outcome<Row>
  {
    match StableId(env, review, assetId, resolution, id)
    case Threw => Threw
    case Returned(stableId) =>
      Returned(Row(review.reviewId, assetId, legacyKey, resolution, Some(id), true, false, AsAuthored, "", stableId))
  }

  predicate NamesMint(asset: Asset, scope: Scope)
    requires scope.Authored?
  {
    scope.controlId.Some? && scope.controlId.value != "*" && FirstMint(asset.mintControls, scope.controlId.value).Some?
  }

  // How a scope already authored resolves on a second run.
  function ResolutionOfScope(asset: Asset, scope: Scope): Resolution
    requires scope.Authored?
  {
    if scope.controlIds.Some? then ByLaneAggregate
    else if NamesMint(asset, scope) then ByMintControl
    else if scope.routeId.None? then ByMintControl
    else if scope.controlId == Some("*") then ByLane
    else ByControl
  }

  // The row of a review, none for one that is no subject of the migration.
  function RowFor(env: Env, metadata: Metadata, review: Review): Outcome<Option<Row>> {
    if review.scope.IssuerSurface? || review.scope.Provider? then Returned(None)
    else if review.assetId.None? then Threw
    else
      var assetId := review.assetId.value;
      var asset := AssetOf(metadata, assetId);
      if review.retired.Some? && !review.scope.Legacy? then
        Returned(Some(RetiredRow(review, assetId, None, false, review.retired.value)))
      else
        match review.scope
        case Deployment(_) =>
          Returned(Some(Row(
            review.reviewId, assetId, None, ByDeployment, Some(Identity(assetId, None, None, None)), true, false, Unchanged,
            "", review.reviewId)))
        case Authored(routeId, controlId, controlIds) =>
          var id := Identity(assetId, routeId, controlId, controlIds);
          var resolution := ResolutionOfScope(asset, review.scope);
          WithRow(AuthoredRow(env, review, assetId, LegacyKey(env, asset, assetId, id, resolution), resolution, id))
        case Legacy(key) => LegacyRow(env, asset, review, assetId, key)
        case _ => Threw
  }

  function WithRow(row: Outcome<Row>): Outcome<Option<Row>> {
    if row.Threw? then Threw else Returned(Some(row.value))
  }

  function LegacyRow(env: Env, asset: Asset, review: Review, assetId: string, key: string): Outcome<Option<Row>> {
    if key in env.adjudications then
      var a := env.adjudications[key];
      Returned(Some(RetiredRow(review, assetId, Some(key), a.collision, a.reason)))
    else
      var candidates := Collected(AllEntries(env, assetId, asset));
      if candidates.Threw? || key !in candidates.value then Threw
      else
        var c := candidates.value[key];
        WithRow(AuthoredRow(env, review, assetId, Some(key), ResolutionOf(c), AuthoredIdentity(assetId, c)))
  }

  // The envelope: a provider-wide review names no asset, and any other does.
  predicate Enveloped(review: Review) {
    review.scope.Provider? <==> review.assetId.None?
  }

  function RowsOf(env: Env, metadata: Metadata, reviews: seq<Review>): Outcome<seq<Row>> {
    if reviews == [] then Returned([])
    else
      var n := |reviews| - 1;
      match (RowsOf(env, metadata, reviews[..n]), RowFor(env, metadata, reviews[n]))
      case (Returned(rows), Returned(None)) => Returned(rows)
      case (Returned(rows), Returned(Some(row))) => Returned(rows + [row])
      case _ => Threw
  }

  function SkippedOf(reviews: seq<Review>): nat {
    if reviews == [] then 0
    else
      var n := |reviews| - 1;
      SkippedOf(reviews[..n]) + if reviews[n].scope.IssuerSurface? || reviews[n].scope.Provider? then 1 else 0
  }

  function RowId(row: Row): string {
    row.reviewId
  }

  function SortRows(rows: seq<Row>): seq<Row> {
    SortBy(RowId, rows)
  }

  lemma SortRowsKeeps(rows: seq<Row>)
    ensures |SortRows(rows)| == |rows| && multiset(SortRows(rows)) == multiset(rows) && AscendingBy(RowId, SortRows(rows))
  {
    SortByMeans(RowId, rows);
  }

  function Built(env: Env, metadata: Metadata, reviews: seq<Review>): Outcome<Artifact> {
    if exists i :: 0 <= i < |reviews| && !Enveloped(reviews[i]) then Threw
    else
      match RowsOf(env, metadata, reviews)
      case Threw => Threw
      case Returned(rows) => Returned(Artifact(SortRows(rows), SkippedOf(reviews)))
  }

  // Each review has a row or is skipped, never both: the guard on coverage cannot fire.
  lemma {:induction false} RowsCover(env: Env, metadata: Metadata, reviews: seq<Review>)
    requires RowsOf(env, metadata, reviews).Returned?
    ensures |RowsOf(env, metadata, reviews).value| + SkippedOf(reviews) == |reviews|
  {
    hide LegacyRow, AuthoredRow, LegacyKey, ResolutionOfScope;
    if reviews != [] {
      var n := |reviews| - 1;
      RowsCover(env, metadata, reviews[..n]);
      SkippedHasNoRow(env, metadata, reviews[n]);
    }
  }

  // What a review is to the migration: a subject or not, and a subject to retire, to rewrite or to
  // leave.
  predicate IsSubject(review: Review) {
    !review.scope.IssuerSurface? && !review.scope.Provider?
  }

  predicate Retires(env: Env, review: Review) {
    || (review.scope.Legacy? && review.scope.controlKey in env.adjudications)
    || (review.retired.Some? && (review.scope.Authored? || review.scope.Deployment?))
  }

  predicate Rewrites(env: Env, review: Review) {
    || (review.scope.Legacy? && review.scope.controlKey !in env.adjudications)
    || (review.retired.None? && review.scope.Authored?)
  }

  // How a scope already authored resolves: a list is an aggregate; one that is no list a mint control
  // where it has no route or its control id is a mint label, else the lane or the one control.
  ghost predicate ScopeResolves(asset: Asset, scope: Scope, resolution: Resolution)
    requires scope.Authored?
  {
    var labelled := scope.controlId.Some? && scope.controlId.value != "*" && HasMint(asset.mintControls, scope.controlId.value);
    && (resolution.ByLaneAggregate? <==> scope.controlIds.Some?)
    && (resolution.ByMintControl? <==> scope.controlIds.None? && (scope.routeId.None? || labelled))
    && (resolution.ByLane? <==> scope.controlIds.None? && scope.routeId.Some? && scope.controlId == Some("*"))
    && !resolution.ByDeployment? && !resolution.ByRetirement?
  }

  // The identity and the key of a row that rewrites its review: for a digest those of the place in the
  // metadata that has it, for a scope already authored that scope itself.
  ghost predicate IdentitySays(env: Env, metadata: Metadata, review: Review, row: Row)
    requires row.authored.Some?
  {
    var asset := AssetOf(metadata, row.assetId);
    var id := row.authored.value;
    match review.scope
    case Legacy(key) => row.legacyKey == Some(key) && NamesKey(env, row.assetId, asset, key, id, row.resolution)
    case Authored(routeId, controlId, controlIds) =>
      && id == Identity(row.assetId, routeId, controlId, controlIds)
      && ScopeResolves(asset, review.scope, row.resolution)
      && KeySays(env, asset, row.assetId, id, row.resolution, row.legacyKey)
    case _ => true
  }

  // The stable id: a mint control by its label, anything else by its route, with the control id or else
  // "lane"; what has neither keeps its review id.
  ghost predicate StableSays(env: Env, review: Review, row: Row, id: Identity) {
    && env.canonical(row.stableId)
    && (forall mintLabel :: row.resolution.ByMintControl? && id.controlId == Some(mintLabel) ==>
          row.stableId == env.mintId(row.assetId, mintLabel, review.windowEnd))
    && (forall routeId :: id.routeId == Some(routeId) && !(row.resolution.ByMintControl? && id.controlId.Some?) ==>
          && (id.controlId.None? ==> row.stableId == env.bridgeId(row.assetId, routeId, "lane", review.windowEnd))
          && forall c :: id.controlId == Some(c) ==> row.stableId == env.bridgeId(row.assetId, routeId, c, review.windowEnd))
    && (id.routeId.None? && (id.controlId.None? || !row.resolution.ByMintControl?) ==> row.stableId == review.reviewId)
  }

  // What a row says of its review: none exactly for no subject; the review's ids; what is applied by
  // what the review is; a retirement keeps its reason, its digest if it has one and its review id; a
  // deployment stays as it is; and a rewriting has the identity, key and stable id told above.
  ghost predicate RowSays(env: Env, metadata: Metadata, review: Review, row: Option<Row>) {
    && (row.None? <==> !IsSubject(review))
    && (row.Some? ==>
          var r := row.value;
          && r.reviewId == review.reviewId && review.assetId == Some(r.assetId)
          && (r.applied.AsRetired? <==> Retires(env, review))
          && (r.applied.AsAuthored? <==> Rewrites(env, review))
          && (r.applied.Unchanged? <==> review.scope.Deployment? && review.retired.None?)
          && (r.digestMatch <==> !Retires(env, review)) && (r.authored.Some? <==> !Retires(env, review))
          && (r.collides <==>
                && review.scope.Legacy? && review.scope.controlKey in env.adjudications
                && env.adjudications[review.scope.controlKey].collision)
          && (Retires(env, review) ==>
                && r.resolution.ByRetirement? && r.stableId == review.reviewId
                && r.legacyKey == (if review.scope.Legacy? then Some(review.scope.controlKey) else None)
                && r.reason ==
                     if review.scope.Legacy? then env.adjudications[review.scope.controlKey].reason else review.retired.value)
          && (r.applied.Unchanged? ==>
                && r.resolution.ByDeployment? && r.stableId == review.reviewId && r.legacyKey.None?
                && r.authored == Some(Identity(r.assetId, None, None, None)))
          && (Rewrites(env, review) ==>
                IdentitySays(env, metadata, review, r) && StableSays(env, review, r, r.authored.value)))
  }

  // The reviews that stop the migration: a subject without an asset, a digest that is not adjudicated
  // and belongs to no place of the metadata or to an asset of which two places share one, or an identity
  // with neither a route nor one control whose review id is not canonical.
  ghost predicate Stops(env: Env, metadata: Metadata, review: Review) {
    IsSubject(review)
    && (|| review.assetId.None?
        || (review.scope.Legacy? && review.scope.controlKey !in env.adjudications
              && !Known(env, metadata, review.assetId.value, review.scope.controlKey))
        || (review.scope.Authored? && review.retired.None? && review.scope.routeId.None?
              && (review.scope.controlId.None? || review.scope.controlIds.Some?) && !env.canonical(review.reviewId)))
  }

  ghost predicate Known(env: Env, metadata: Metadata, assetId: string, key: string) {
    var asset := AssetOf(metadata, assetId);
    KeysApart(env, assetId, asset) && HasKey(env, assetId, asset, key)
  }

  lemma LegacyRowMeans(env: Env, metadata: Metadata, review: Review)
    requires review.scope.Legacy?
    ensures RowFor(env, metadata, review).Returned? ==> RowSays(env, metadata, review, RowFor(env, metadata, review).value)
    ensures Composes(env) ==> (RowFor(env, metadata, review).Threw? <==> Stops(env, metadata, review))
  {
    hide LegacyKey, AllEntries, Collected, ResolutionOfScope, KeysApart, HasKey, NamesKey, AuthoredIdentity, ResolutionOf,
      AuthoredRow, StableSays;
    if review.assetId.Some? && review.scope.controlKey !in env.adjudications {
      var assetId, key := review.assetId.value, review.scope.controlKey;
      var asset := AssetOf(metadata, assetId);
      KnownExactly(env, assetId, asset, key);
      var m := Collected(AllEntries(env, assetId, asset));
      if m.Returned? && key in m.value {
        var c := m.value[key];
        CandidateIsNamed(assetId, c);
        AuthoredRowMeans(env, review, assetId, Some(key), ResolutionOf(c), AuthoredIdentity(assetId, c));
      }
    }
  }

  // Only an identity with neither a route nor a control under its mint resolution falls back on the
  // review id.
  predicate Named(resolution: Resolution, id: Identity) {
    id.routeId.Some? || (resolution.ByMintControl? && id.controlId.Some?)
  }

  lemma CandidateIsNamed(assetId: string, c: Candidate)
    ensures Named(ResolutionOf(c), AuthoredIdentity(assetId, c)) && AuthoredIdentity(assetId, c).assetId == assetId
  {
  }

  lemma AuthoredRowMeans(
    env: Env, review: Review, assetId: string, legacyKey: Option<string>, resolution: Resolution, id: Identity)
    ensures var row := AuthoredRow(env, review, assetId, legacyKey, resolution, id);
      && (row.Returned? ==>
            && StableSays(env, review, row.value, id)
            && row.value.(stableId := "") ==
                 Row(review.reviewId, assetId, legacyKey, resolution, Some(id), true, false, AsAuthored, "", ""))
      && (Composes(env) ==> (row.Threw? <==> !Named(resolution, id) && !env.canonical(review.reviewId)))
  {
  }

  lemma ScopeResolved(asset: Asset, scope: Scope)
    requires scope.Authored?
    ensures ScopeResolves(asset, scope, ResolutionOfScope(asset, scope))
  {
    hide FirstMint, HasMint;
    if scope.controlId.Some? {
      FirstMintMeans(asset.mintControls, scope.controlId.value);
    }
  }

  lemma AuthoredScopeMeans(env: Env, metadata: Metadata, review: Review)
    requires review.scope.Authored? && review.retired.None?
    ensures RowFor(env, metadata, review).Returned? ==> RowSays(env, metadata, review, RowFor(env, metadata, review).value)
    ensures Composes(env) ==> (RowFor(env, metadata, review).Threw? <==> Stops(env, metadata, review))
  {
    hide LegacyKey, AllEntries, Collected;
    if review.assetId.Some? {
      var assetId := review.assetId.value;
      var asset := AssetOf(metadata, assetId);
      var id := Identity(assetId, review.scope.routeId, review.scope.controlId, review.scope.controlIds);
      var resolution := ResolutionOfScope(asset, review.scope);
      assert Named(resolution, id) <==>
        review.scope.routeId.Some? || (review.scope.controlId.Some? && review.scope.controlIds.None?);
      AuthoredRowMeans(env, review, assetId, LegacyKey(env, asset, assetId, id, resolution), resolution, id);
      ScopeResolved(asset, review.scope);
      LegacyKeyMeans(env, asset, assetId, id, resolution);
      hide ResolutionOfScope, AuthoredRow, StableId, AssetOf, ScopeResolves, KeySays, StableSays;
    }
  }

  lemma OtherRowMeans(env: Env, metadata: Metadata, review: Review)
    requires !review.scope.Legacy? && (review.scope.Authored? ==> review.retired.Some?)
    ensures RowFor(env, metadata, review).Returned? ==> RowSays(env, metadata, review, RowFor(env, metadata, review).value)
    ensures Composes(env) ==> (RowFor(env, metadata, review).Threw? <==> Stops(env, metadata, review))
  {
    hide LegacyKey, AllEntries, Collected, AuthoredRow, LegacyRow;
  }

  lemma RowMeans(env: Env, metadata: Metadata, review: Review)
    ensures RowFor(env, metadata, review).Returned? ==> RowSays(env, metadata, review, RowFor(env, metadata, review).value)
    ensures Composes(env) ==> (RowFor(env, metadata, review).Threw? <==> Stops(env, metadata, review))
  {
    hide *;
    if review.scope.Legacy? {
      LegacyRowMeans(env, metadata, review);
    } else if review.scope.Authored? && review.retired.None? {
      AuthoredScopeMeans(env, metadata, review);
    } else {
      OtherRowMeans(env, metadata, review);
    }
  }

  lemma SkippedHasNoRow(env: Env, metadata: Metadata, review: Review)
    requires RowFor(env, metadata, review).Returned?
    ensures RowFor(env, metadata, review).value.None? <==> review.scope.IssuerSurface? || review.scope.Provider?
    ensures RowFor(env, metadata, review).value.Some? ==> RowFor(env, metadata, review).value.value.reviewId == review.reviewId
  {
    hide LegacyKey, ResolutionOfScope, AllEntries, Collected;
  }

  method RowOf(env: Env, metadata: Metadata, review: Review) returns (row: Outcome<Option<Row>>)
    ensures row == RowFor(env, metadata, review)
    ensures row.Returned? ==> RowSays(env, metadata, review, row.value)
    ensures Composes(env) ==> (row.Threw? <==> Stops(env, metadata, review))
  {
    RowMeans(env, metadata, review);
    hide RowSays, Stops, Composes;
    if review.scope.IssuerSurface? || review.scope.Provider? {
      return Returned(None);
    }
    if review.assetId.None? {
      return Threw;
    }
    var assetId := review.assetId.value;
    var asset := AssetOf(metadata, assetId);
    if review.retired.Some? && !review.scope.Legacy? {
      return Returned(Some(RetiredRow(review, assetId, None, false, review.retired.value)));
    }
    if review.scope.Deployment? {
      return Returned(Some(Row(
        review.reviewId, assetId, None, ByDeployment, Some(Identity(assetId, None, None, None)), true, false, Unchanged, "",
        review.reviewId)));
    }
    if review.scope.Authored? {
      var id := Identity(assetId, review.scope.routeId, review.scope.controlId, review.scope.controlIds);
      var resolution := ResolutionOfScope(asset, review.scope);
      return WithRow(AuthoredRow(env, review, assetId, LegacyKey(env, asset, assetId, id, resolution), resolution, id));
    }
    var key := review.scope.controlKey;
    if key in env.adjudications {
      var a := env.adjudications[key];
      return Returned(Some(RetiredRow(review, assetId, Some(key), a.collision, a.reason)));
    }
    var candidates := BuildAuthoredCandidates(env, assetId, asset);
    if candidates.Threw? || key !in candidates.value {
      return Threw;
    }
    var c := candidates.value[key];
    return WithRow(AuthoredRow(env, review, assetId, Some(key), ResolutionOf(c), AuthoredIdentity(assetId, c)));
  }

  lemma {:induction false} ThrownStays(env: Env, metadata: Metadata, reviews: seq<Review>, n: nat)
    requires n <= |reviews| && RowsOf(env, metadata, reviews[..n]).Threw?
    ensures RowsOf(env, metadata, reviews).Threw?
    decreases |reviews|
  {
    hide RowFor;
    if n < |reviews| {
      var m := |reviews| - 1;
      assert reviews[..m][..n] == reviews[..n];
      ThrownStays(env, metadata, reviews[..m], n);
    } else {
      assert reviews[..n] == reviews;
    }
  }

  method Build(env: Env, metadata: Metadata, reviews: seq<Review>) returns (r: Outcome<Artifact>)
    ensures r == Built(env, metadata, reviews)
  {
    hide RowFor, SortRows;
    if exists i :: 0 <= i < |reviews| && !Enveloped(reviews[i]) {
      return Threw;
    }
    var rows: seq<Row> := [];
    var skipped := 0;
    for i := 0 to |reviews|
      invariant RowsOf(env, metadata, reviews[..i]) == Returned(rows)
      invariant skipped == SkippedOf(reviews[..i])
    {
      assert reviews[..i + 1][..i] == reviews[..i];
      var row := RowOf(env, metadata, reviews[i]);
      if row.Threw? {
        ThrownStays(env, metadata, reviews, i + 1);
        return Threw;
      }
      SkippedHasNoRow(env, metadata, reviews[i]);
      if row.value.None? {
        skipped := skipped + 1;
      } else {
        rows := rows + [row.value.value];
      }
    }
    assert reviews[..|reviews|] == reviews;
    RowsCover(env, metadata, reviews);
    SortRowsKeeps(rows);
    var sorted := SortRows(rows);
    if |sorted| + skipped != |reviews| {
      return Threw;
    }
    return Returned(Artifact(sorted, skipped));
  }

  // A row with an authored identity must lead back to the key it came from.
  predicate Accepted(env: Env, metadata: Metadata, row: Row) {
    if !row.applied.AsAuthored? then !(row.applied.AsRetired? && row.digestMatch)
    else
      && row.authored.Some?
      && Derives(env, AssetOf(metadata, row.assetId), row.assetId, row.authored.value, row.resolution, row.legacyKey)
  }

  // `assertMigrationPreservesLegacyKeys`.
  method PreservesLegacyKeys(env: Env, metadata: Metadata, artifact: Artifact) returns (ok: bool)
    ensures ok <==> forall i :: 0 <= i < |artifact.rows| ==> Accepted(env, metadata, artifact.rows[i])
  {
    var failures: seq<string> := [];
    for i := 0 to |artifact.rows|
      invariant failures == [] <==> forall j :: 0 <= j < i ==> Accepted(env, metadata, artifact.rows[j])
    {
      var row := artifact.rows[i];
      if !row.applied.AsAuthored? {
        if row.applied.AsRetired? && row.digestMatch {
          failures := failures + [row.reviewId];
        }
      } else if row.authored.None? {
        failures := failures + [row.reviewId];
      } else if !Derives(env, AssetOf(metadata, row.assetId), row.assetId, row.authored.value, row.resolution, row.legacyKey) {
        failures := failures + [row.reviewId];
      }
    }
    return |failures| == 0;
  }

  // A review whose digest is looked up among the candidates.
  predicate LooksUp(env: Env, review: Review) {
    review.scope.Legacy? && review.scope.controlKey !in env.adjudications && review.assetId.Some?
  }

  function CandidateOf(env: Env, metadata: Metadata, review: Review): Keyed
    requires LooksUp(env, review) && RowFor(env, metadata, review).Returned?
  {
    var assetId, key := review.assetId.value, review.scope.controlKey;
    Keyed(key, Collected(AllEntries(env, assetId, AssetOf(metadata, assetId))).value[key])
  }

  // A row is accepted unless it was looked up and does not lead back.
  lemma RowAccepted(env: Env, metadata: Metadata, review: Review)
    requires RowFor(env, metadata, review).Returned? && RowFor(env, metadata, review).value.Some?
    ensures Accepted(env, metadata, RowFor(env, metadata, review).value.value) <==>
      (LooksUp(env, review) ==>
         Recovers(
           env, AssetOf(metadata, review.assetId.value), review.assetId.value, CandidateOf(env, metadata, review)))
  {
    hide AllEntries, Collected, LegacyKey, OneIdKey, AuthoredIdentity, ResolutionOf, ResolutionOfScope, StableId;
  }

  lemma LookedUpCandidate(env: Env, metadata: Metadata, review: Review)
    requires LooksUp(env, review) && RowFor(env, metadata, review).Returned?
    ensures var assetId := review.assetId.value;
      var m := Collected(AllEntries(env, assetId, AssetOf(metadata, assetId)));
      m.Returned? && review.scope.controlKey in m.value
  {
    hide AllEntries, Collected;
  }

  // The rows are exactly the rows of the reviews.
  lemma {:induction false} RowsAreOfReviews(env: Env, metadata: Metadata, reviews: seq<Review>)
    requires RowsOf(env, metadata, reviews).Returned?
    ensures forall review :: review in reviews ==> RowFor(env, metadata, review).Returned?
    ensures forall row :: row in RowsOf(env, metadata, reviews).value <==>
      exists review :: review in reviews && RowFor(env, metadata, review) == Returned(Some(row))
  {
    hide RowFor;
    if reviews != [] {
      var n := |reviews| - 1;
      RowsAreOfReviews(env, metadata, reviews[..n]);
      assert reviews == reviews[..n] + [reviews[n]];
      var rows := RowsOf(env, metadata, reviews).value;
      forall row | row in rows
        ensures exists review :: review in reviews && RowFor(env, metadata, review) == Returned(Some(row))
      {
        if row in RowsOf(env, metadata, reviews[..n]).value {
          var review :| review in reviews[..n] && RowFor(env, metadata, review) == Returned(Some(row));
          assert review in reviews;
        } else {
          assert reviews[n] in reviews && RowFor(env, metadata, reviews[n]) == Returned(Some(row));
        }
      }
    }
  }

  // So are those of the artefact, in the order of their review ids, and with the reviews that are skipped
  // they make up all.
  lemma ArtifactRows(env: Env, metadata: Metadata, reviews: seq<Review>, row: Row)
    requires Built(env, metadata, reviews).Returned?
    ensures var a := Built(env, metadata, reviews).value;
      AscendingBy(RowId, a.rows) && |a.rows| + a.skipped == |reviews|
    ensures row in Built(env, metadata, reviews).value.rows <==>
      exists review :: review in reviews && RowFor(env, metadata, review) == Returned(Some(row))
    ensures forall review :: review in reviews ==> RowFor(env, metadata, review).Returned?
  {
    hide RowFor, SortRows, RowsOf, SkippedOf;
    RowsAreOfReviews(env, metadata, reviews);
    RowsCover(env, metadata, reviews);
    var rows := RowsOf(env, metadata, reviews).value;
    SortRowsKeeps(rows);
    assert row in SortRows(rows) <==> row in multiset(SortRows(rows));
    assert row in rows <==> row in multiset(rows);
  }

  ghost predicate Preserving(env: Env, metadata: Metadata, a: Artifact) {
    forall row :: row in a.rows ==> Accepted(env, metadata, row)
  }

  // The assertion accepts every artefact that is built over well-formed metadata.
  lemma BuiltIsAccepted(env: Env, metadata: Metadata, reviews: seq<Review>)
    requires Built(env, metadata, reviews).Returned?
    requires forall assetId :: WellFormed(env, AssetOf(metadata, assetId))
    ensures Preserving(env, metadata, Built(env, metadata, reviews).value)
  {
    hide Accepted, Built, RowFor, WellFormed, Recovers;
    forall row | row in Built(env, metadata, reviews).value.rows
      ensures Accepted(env, metadata, row)
    {
      ArtifactRows(env, metadata, reviews, row);
      var review :| review in reviews && RowFor(env, metadata, review) == Returned(Some(row));
      RowAccepted(env, metadata, review);
      if LooksUp(env, review) {
        LookedUpCandidate(env, metadata, review);
        var assetId := review.assetId.value;
        EveryCandidateRecovers(env, AssetOf(metadata, assetId), assetId, review.scope.controlKey);
      }
    }
  }

  ghost predicate LookupRecoverable(env: Env, metadata: Metadata, review: Review)
    requires LooksUp(env, review) && RowFor(env, metadata, review).Returned?
  {
    var assetId := review.assetId.value;
    Recoverable(env, AssetOf(metadata, assetId), assetId, CandidateOf(env, metadata, review))
  }

  // The digests compared for what was looked up differ.
  predicate LookupDistinct(env: Env, metadata: Metadata, review: Review)
    requires LooksUp(env, review) && RowFor(env, metadata, review).Returned?
  {
    Distinct(env, review.assetId.value, CandidateOf(env, metadata, review))
  }

  lemma LookupAccepted(env: Env, metadata: Metadata, review: Review)
    requires LooksUp(env, review) && RowFor(env, metadata, review).Returned?
    ensures RowFor(env, metadata, review).value.Some?
    ensures var accepted := Accepted(env, metadata, RowFor(env, metadata, review).value.value);
      && (LookupRecoverable(env, metadata, review) ==> accepted)
      && (LookupDistinct(env, metadata, review) ==> (accepted <==> LookupRecoverable(env, metadata, review)))
  {
    var assetId := review.assetId.value;
    SkippedHasNoRow(env, metadata, review);
    hide Accepted, RowFor, Recovers, Recoverable, Distinct, AllEntries, Collected;
    LookedUpCandidate(env, metadata, review);
    CandidateSourced(env, AssetOf(metadata, assetId), assetId, review.scope.controlKey);
    RecoversExactly(env, AssetOf(metadata, assetId), assetId, CandidateOf(env, metadata, review));
    RowAccepted(env, metadata, review);
  }

  // It accepts an artefact if every digest that was looked up belongs to a candidate that its identity
  // leads back to; and where the digests compared for these differ, exactly then.
  lemma AcceptedExactly(env: Env, metadata: Metadata, reviews: seq<Review>)
    requires Built(env, metadata, reviews).Returned?
    ensures forall review :: review in reviews ==> RowFor(env, metadata, review).Returned?
    ensures var preserving := Preserving(env, metadata, Built(env, metadata, reviews).value);
      var recoverable := forall review :: review in reviews && LooksUp(env, review) ==> LookupRecoverable(env, metadata, review);
      var distinct := forall review :: review in reviews && LooksUp(env, review) ==> LookupDistinct(env, metadata, review);
      (recoverable ==> preserving) && (distinct ==> (preserving <==> recoverable))
  {
    hide Accepted, Built, RowFor, LooksUp, LookupRecoverable, LookupDistinct, Recovers;
    var rows := Built(env, metadata, reviews).value.rows;
    forall row: Row
      ensures row in rows <==> exists review :: review in reviews && RowFor(env, metadata, review) == Returned(Some(row))
      ensures forall review :: review in reviews ==> RowFor(env, metadata, review).Returned?
    {
      ArtifactRows(env, metadata, reviews, row);
    }
    EveryRowReturned(env, metadata, reviews);
    forall review | review in reviews && LooksUp(env, review)
      ensures RowFor(env, metadata, review).value.Some?
      ensures var accepted := Accepted(env, metadata, RowFor(env, metadata, review).value.value);
        && (LookupRecoverable(env, metadata, review) ==> accepted)
        && (LookupDistinct(env, metadata, review) ==> (accepted <==> LookupRecoverable(env, metadata, review)))
      ensures RowFor(env, metadata, review).value.value in rows
    {
      LookupAccepted(env, metadata, review);
      var row := RowFor(env, metadata, review).value.value;
      assert RowFor(env, metadata, review) == Returned(Some(row));
    }
    forall review | review in reviews && !LooksUp(env, review) && RowFor(env, metadata, review).value.Some?
      ensures Accepted(env, metadata, RowFor(env, metadata, review).value.value)
    {
      RowAccepted(env, metadata, review);
    }
  }

  lemma EveryRowReturned(env: Env, metadata: Metadata, reviews: seq<Review>)
    requires Built(env, metadata, reviews).Returned?
    ensures forall review :: review in reviews ==> RowFor(env, metadata, review).Returned?
  {
    RowsAreOfReviews(env, metadata, reviews);
  }
}
