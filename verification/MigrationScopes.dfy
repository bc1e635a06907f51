// What a migration of incident reviews writes, in terms of the registry and of the asset metadata, and
// whether the digests still follow from it.
module MigrationScopes {
  import opened Options
  import opened MigrationKeys
  import opened MigrationIdentity
  import opened MigrationSources
  import opened KeyMigration
  import opened MigrationApply

  // The identity that a scope already authored is read as.
  function IdentityOf(assetId: string, scope: Scope): Identity
    requires scope.Authored?
  {
    Identity(assetId, scope.routeId, scope.controlId, scope.controlIds)
  }

  // The scope of an identity: its route; its list, if it has a route; and without a list its control id,
  // or the wildcard where a route stands alone.
  ghost predicate ScopeSays(id: Identity, scope: Scope) {
    && scope.Authored? && scope.routeId == id.routeId
    && scope.controlIds == (if id.routeId.Some? then id.controlIds else None)
    && (scope.controlId.None? <==> id.routeId.Some? && id.controlIds.Some?)
    && (scope.controlId.Some? ==>
          if id.controlId.Some? then scope.controlId == id.controlId else id.routeId.Some? && scope.controlId.value == "*")
  }

  lemma ScopeMeans(id: Identity)
    ensures ScopeFor(id).Threw? <==> id.routeId.None? && id.controlId.None?
    ensures ScopeFor(id).Returned? ==> ScopeSays(id, ScopeFor(id).value)
  {
  }

  // The identity of a candidate is read back from its scope.
  lemma CandidateReadBack(assetId: string, c: Candidate)
    ensures var id := AuthoredIdentity(assetId, c);
      ScopeFor(id).Returned? && ScopeFor(id).value.Authored? && IdentityOf(assetId, ScopeFor(id).value) == id
  {
  }

  // So is its resolution, but for a control whose id is the wildcard or a mint label, and a mint control
  // with a route and the wildcard for its label.
  ghost predicate ReadsAlike(asset: Asset, c: Candidate) {
    match c
    case Lane(_) => true
    case Control(_, controlId) => controlId != "*" && !HasMint(asset.mintControls, controlId)
    case LaneAggregate(_, _) => true
    case Mint(mintLabel, mintRoute) => mintLabel != "*" || mintRoute.None?
  }

  lemma ResolutionReadBack(env: Env, assetId: string, asset: Asset, e: Keyed)
    requires HasCandidate(env, assetId, asset, e)
    ensures var scope := ScopeFor(AuthoredIdentity(assetId, e.candidate)).value;
      ResolutionOfScope(asset, scope) == ResolutionOf(e.candidate) <==> ReadsAlike(asset, e.candidate)
  {
    CandidateReadBack(assetId, e.candidate);
    var p :| Deserves(env, asset, p) && Belongs(env, assetId, asset, p, e);
    var scope := ScopeFor(AuthoredIdentity(assetId, e.candidate)).value;
    ScopeResolved(asset, scope);
    if p.MintAt? {
      assert asset.mintControls[p.m].mintLabel == e.candidate.mintLabel;
      assert HasMint(asset.mintControls, e.candidate.mintLabel);
    }
    hide AreContributors, FirstRef, Shared, HasMint, ResolutionOfScope;
  }

  // -------------------------------------------------------------- one review

  // A scope already authored that names nothing cannot be written.
  predicate Writable(subject: Review) {
    subject.scope.Authored? && subject.retired.None? ==> subject.scope.routeId.Some? || subject.scope.controlId.Some?
  }

  // What a review becomes under the subject that decides for its id. A retirement keeps the reason that
  // is there or takes that of the adjudication or of the subject; a rewriting replaces the scope alone,
  // by that of the place which has the digest, or by what the subject's own scope says; and a deployment
  // changes nothing.
  ghost predicate ReviewSays(env: Env, metadata: Metadata, subject: Review, review: Review, migrated: Review)
    requires subject.assetId.Some?
  {
    var assetId := subject.assetId.value;
    var asset := AssetOf(metadata, assetId);
    && migrated == review.(scope := migrated.scope, retired := migrated.retired)
    && (!Rewrites(env, subject) ==> migrated.scope == review.scope)
    && (!Retires(env, subject) || review.retired.Some? ==> migrated.retired == review.retired)
    && (Retires(env, subject) && review.retired.None? ==>
          migrated.retired ==
            if subject.scope.Legacy? then Some(env.adjudications[subject.scope.controlKey].reason) else subject.retired)
    && (Rewrites(env, subject) ==>
          && migrated.scope.Authored?
          && (subject.scope.Authored? ==> ScopeSays(IdentityOf(assetId, subject.scope), migrated.scope))
          && (subject.scope.Legacy? ==> NamesDigest(env, assetId, asset, subject.scope.controlKey, migrated.scope)))
  }

  // A scope whose identity names the candidate of a digest.
  ghost predicate NamesDigest(env: Env, assetId: string, asset: Asset, key: string, scope: Scope)
    requires scope.Authored?
  {
    exists resolution :: NamesKey(env, assetId, asset, key, IdentityOf(assetId, scope), resolution)
  }

  lemma NamedIsWritten(env: Env, assetId: string, asset: Asset, key: string, id: Identity, resolution: Resolution)
    requires NamesKey(env, assetId, asset, key, id, resolution)
    ensures ScopeFor(id).Returned? && ScopeFor(id).value.Authored? && IdentityOf(assetId, ScopeFor(id).value) == id
    ensures NamesDigest(env, assetId, asset, key, ScopeFor(id).value)
  {
    hide AreContributors, FirstRef, Shared, Belongs;
    var p, e :| Deserves(env, asset, p) && Belongs(env, assetId, asset, p, e) && e.key == key
      && NamesPlace(env, assetId, asset, p, id, resolution);
    hide NamesKey;
  }

  lemma ReviewMigrated(env: Env, metadata: Metadata, subject: Review, review: Review)
    requires Composes(env)
    ensures MigrateBy(env, metadata, subject, review).Returned? <==>
      IsSubject(subject) && !Stops(env, metadata, subject) && Writable(subject)
    ensures MigrateBy(env, metadata, subject, review).Returned? ==>
      subject.assetId.Some? && ReviewSays(env, metadata, subject, review, MigrateBy(env, metadata, subject, review).value)
  {
    hide RowFor, Known, NamesKey, NamesDigest, StableSays, KeySays, ScopeResolves, Composes, ScopeFor, ScopeSays;
    RowMeans(env, metadata, subject);
    if RowFor(env, metadata, subject).Returned? && IsSubject(subject) && Rewrites(env, subject) {
      var row := RowFor(env, metadata, subject).value.value;
      var id := row.authored.value;
      ScopeMeans(id);
      if subject.scope.Legacy? {
        NamedIsWritten(env, row.assetId, AssetOf(metadata, row.assetId), subject.scope.controlKey, id, row.resolution);
      }
    }
  }

  // -------------------------------------------------------------- a whole registry

  // The last subject of a review's id decides for it.
  ghost predicate Decides(reviews: seq<Review>, id: string, j: nat) {
    && j < |reviews| && reviews[j].reviewId == id && IsSubject(reviews[j])
    && forall k :: j < k < |reviews| && reviews[k].reviewId == id ==> !IsSubject(reviews[k])
  }

  lemma {:induction false} DecidesExactly(reviews: seq<Review>, id: string, j: nat)
    ensures LastAt(reviews, id, false) == Some(j) <==> Decides(reviews, id, j)
  {
    if Decides(reviews, id, j) {
      LastAtIs(reviews, id, false, j);
    }
  }

  // What can be migrated: every review has its envelope and stops nothing, and for each some subject
  // decides that can be written.
  ghost predicate Migratable(env: Env, metadata: Metadata, reviews: seq<Review>) {
    forall i :: 0 <= i < |reviews| ==>
      && Enveloped(reviews[i]) && !Stops(env, metadata, reviews[i])
      && WritablyDecided(reviews, i)
  }

  ghost predicate WritablyDecided(reviews: seq<Review>, i: nat)
    requires i < |reviews|
  {
    exists j: nat :: Decides(reviews, reviews[i].reviewId, j) && Writable(reviews[j])
  }

  lemma MigratesAtExactly(env: Env, metadata: Metadata, reviews: seq<Review>, i: nat)
    requires Composes(env) && i < |reviews| && forall k :: 0 <= k < |reviews| ==> !Stops(env, metadata, reviews[k])
    ensures var r := MigrateAt(env, metadata, reviews, reviews[i]);
      && (r.Returned? <==> WritablyDecided(reviews, i))
      && (r.Returned? ==> Decided(env, metadata, reviews, i, r.value))
  {
    hide MigrateBy, Stops, Composes, ReviewSays;
    var id := reviews[i].reviewId;
    var last := LastAt(reviews, id, false);
    forall j: nat
      ensures LastAt(reviews, id, false) == Some(j) <==> Decides(reviews, id, j)
    {
      DecidesExactly(reviews, id, j);
    }
    if last.Some? {
      ReviewMigrated(env, metadata, reviews[last.value], reviews[i]);
    }
  }

  ghost predicate Decided(env: Env, metadata: Metadata, reviews: seq<Review>, i: nat, migrated: Review)
    requires i < |reviews|
  {
    exists j: nat ::
      && Decides(reviews, reviews[i].reviewId, j) && reviews[j].assetId.Some?
      && ReviewSays(env, metadata, reviews[j], reviews[i], migrated)
  }

  // A migration is defined exactly there, and makes of each review what its deciding subject says.
  lemma MigrateMeans(env: Env, metadata: Metadata, reviews: seq<Review>)
    requires Composes(env)
    ensures Migrate(env, metadata, reviews).Returned? <==> Migratable(env, metadata, reviews)
    ensures Migrate(env, metadata, reviews).Returned? ==>
      var migrated := Migrate(env, metadata, reviews).value;
      |migrated| == |reviews| && forall i :: 0 <= i < |reviews| ==> Decided(env, metadata, reviews, i, migrated[i])
  {
    hide RowFor, Stops, Composes, MigrateAt, Decided, WritablyDecided, Enveloped, Migrate;
    MigrateExactly(env, metadata, reviews);
    forall i | 0 <= i < |reviews|
      ensures RowFor(env, metadata, reviews[i]).Threw? <==> Stops(env, metadata, reviews[i])
    {
      RowMeans(env, metadata, reviews[i]);
    }
    if forall k :: 0 <= k < |reviews| ==> !Stops(env, metadata, reviews[k]) {
      forall i | 0 <= i < |reviews|
        ensures var r := MigrateAt(env, metadata, reviews, reviews[i]);
          && (r.Returned? <==> WritablyDecided(reviews, i))
          && (r.Returned? ==> Decided(env, metadata, reviews, i, r.value))
      {
        MigratesAtExactly(env, metadata, reviews, i);
      }
    }
  }

  // -------------------------------------------------------------- the digest, end to end

  // Where keys are apart, what names the key of a candidate is the identity of that candidate.
  lemma OnePlace(env: Env, assetId: string, asset: Asset, p: Place, e: Keyed, id: Identity, resolution: Resolution)
    requires Deserves(env, asset, p) && Belongs(env, assetId, asset, p, e) && NamesPlace(env, assetId, asset, p, id, resolution)
    ensures id == AuthoredIdentity(assetId, e.candidate) && resolution == ResolutionOf(e.candidate)
  {
    hide AreContributors, FirstRef, Shared;
    if p.AggregateAt? {
      var routeId := env.normalize(asset.routes[p.i]);
      var a :| AreContributors(env, asset, routeId, a) && a != [] && e.key == env.aggregateKey(assetId, routeId, a)
        && e.candidate == if |a| == 1 then Control(routeId, a[0]) else LaneAggregate(routeId, a);
      var b :| AreContributors(env, asset, routeId, b)
        && if |b| == 1 then resolution.ByControl? && id == Identity(assetId, Some(routeId), Some(b[0]), None)
           else resolution.ByLaneAggregate? && id == Identity(assetId, Some(routeId), None, Some(b));
      SameContributors(env, asset, routeId, a, b);
    }
  }

  lemma NamedOnce(env: Env, assetId: string, asset: Asset, e: Keyed, id: Identity, resolution: Resolution)
    requires KeysApart(env, assetId, asset) && HasCandidate(env, assetId, asset, e)
    requires NamesKey(env, assetId, asset, e.key, id, resolution)
    ensures id == AuthoredIdentity(assetId, e.candidate) && resolution == ResolutionOf(e.candidate)
  {
    hide Deserves, Belongs, NamesPlace, AuthoredIdentity, ResolutionOf;
    var p :| Deserves(env, asset, p) && Belongs(env, assetId, asset, p, e);
    var q, f :| Deserves(env, asset, q) && Belongs(env, assetId, asset, q, f) && f.key == e.key
      && NamesPlace(env, assetId, asset, q, id, resolution);
    assert p == q;
    OnePlace(env, assetId, asset, p, e, id, resolution);
  }

  // A digest decided on by lookup: the scope that is written has the identity of the candidate, from
  // which the digest is derived again if the candidate can be recovered, and where the digests compared
  // differ exactly then.
  lemma DigestKept(env: Env, metadata: Metadata, reviews: seq<Review>, i: nat, j: nat, e: Keyed)
    requires Composes(env) && Migrate(env, metadata, reviews).Returned? && i < |reviews|
    requires Decides(reviews, reviews[i].reviewId, j) && LooksUp(env, reviews[j])
    requires var assetId := reviews[j].assetId.value;
      e.key == reviews[j].scope.controlKey && HasCandidate(env, assetId, AssetOf(metadata, assetId), e)
    ensures |Migrate(env, metadata, reviews).value| == |reviews|
    ensures var assetId := reviews[j].assetId.value;
      var asset := AssetOf(metadata, assetId);
      var scope := Migrate(env, metadata, reviews).value[i].scope;
      && scope.Authored? && IdentityOf(assetId, scope) == AuthoredIdentity(assetId, e.candidate)
      && var derives := Derives(env, asset, assetId, IdentityOf(assetId, scope), ResolutionOf(e.candidate), Some(e.key));
      && (Recoverable(env, asset, assetId, e) ==> derives)
      && (Distinct(env, assetId, e) ==> (derives <==> Recoverable(env, asset, assetId, e)))
  {
    var assetId := reviews[j].assetId.value;
    var asset := AssetOf(metadata, assetId);
    MigrateMeans(env, metadata, reviews);
    MigratableApart(env, metadata, reviews, j);
    hide Migrate, Composes, Belongs, Deserves, KeysApart, Derives, Recoverable, Distinct, AuthoredIdentity, ResolutionOf,
      NamesKey, HasCandidate, Migratable;
    var migrated := Migrate(env, metadata, reviews).value[i];
    assert Decided(env, metadata, reviews, i, migrated);
    var k: nat :| Decides(reviews, reviews[i].reviewId, k) && reviews[k].assetId.Some?
      && ReviewSays(env, metadata, reviews[k], reviews[i], migrated);
    assert k == j;
    assert NamesDigest(env, assetId, asset, e.key, migrated.scope);
    var resolution :| NamesKey(env, assetId, asset, e.key, IdentityOf(assetId, migrated.scope), resolution);
    NamedOnce(env, assetId, asset, e, IdentityOf(assetId, migrated.scope), resolution);
    CandidateRecovers(env, assetId, asset, e);
  }

  lemma MigratableApart(env: Env, metadata: Metadata, reviews: seq<Review>, j: nat)
    requires Migratable(env, metadata, reviews) && j < |reviews| && LooksUp(env, reviews[j])
    ensures var assetId := reviews[j].assetId.value; KeysApart(env, assetId, AssetOf(metadata, assetId))
  {
    hide KeysApart, HasKey;
    assert !Stops(env, metadata, reviews[j]);
  }

  lemma CandidateRecovers(env: Env, assetId: string, asset: Asset, e: Keyed)
    requires KeysApart(env, assetId, asset) && HasCandidate(env, assetId, asset, e)
    ensures var recovers := Derives(
        env, asset, assetId, AuthoredIdentity(assetId, e.candidate), ResolutionOf(e.candidate), Some(e.key));
      && (Recoverable(env, asset, assetId, e) ==> recovers)
      && (Distinct(env, assetId, e) ==> (recovers <==> Recoverable(env, asset, assetId, e)))
  {
    hide KeysApart, HasCandidate, Derives, Recoverable, Distinct, AuthoredIdentity, ResolutionOf, Collected, AllEntries, Sourced;
    CandidatesExactly(env, assetId, asset);
    var m := Collected(AllEntries(env, assetId, asset)).value;
    assert e == Keyed(e.key, e.candidate);
    assert e.key in m && m[e.key] == e.candidate;
    CandidateSourced(env, asset, assetId, e.key);
    RecoversExactly(env, asset, assetId, e);
  }

  // The row that a second run makes of such a review has that identity too; and exactly where the
  // resolution is read back alike, it has the resolution of the first row. Then it keeps the stable id,
  // and the digest is derived from it as before.
  lemma RowAgain(env: Env, metadata: Metadata, review: Review, e: Keyed)
    requires Composes(env) && LooksUp(env, review) && review.retired.None? && MigrateOne(env, metadata, review).Returned?
    requires var assetId := review.assetId.value;
      e.key == review.scope.controlKey && HasCandidate(env, assetId, AssetOf(metadata, assetId), e)
    ensures var asset := AssetOf(metadata, review.assetId.value);
      var first, again := RowFor(env, metadata, review), RowFor(env, metadata, MigrateOne(env, metadata, review).value);
      && first.Returned? && first.value.Some? && again.Returned? && again.value.Some?
      && var r, s := first.value.value, again.value.value;
      && r.authored == s.authored == Some(AuthoredIdentity(review.assetId.value, e.candidate))
      && (s.resolution == r.resolution <==> ReadsAlike(asset, e.candidate))
      && (s.resolution == r.resolution ==>
            && s.stableId == r.stableId
            && (Recoverable(env, asset, review.assetId.value, e) ==>
                  Derives(env, asset, review.assetId.value, s.authored.value, s.resolution, Some(e.key))))
  {
    var assetId, key := review.assetId.value, review.scope.controlKey;
    var asset := AssetOf(metadata, assetId);
    var c := e.candidate;
    var id := AuthoredIdentity(assetId, c);
    FirstRow(env, metadata, review, e);
    CandidateReadBack(assetId, c);
    ResolutionReadBack(env, assetId, asset, e);
    CandidateIsNamed(assetId, c);
    var scope := ScopeFor(id).value;
    CandidateRecovers(env, assetId, asset, e);
    SecondRow(env, metadata, review.(scope := scope));
    hide HasCandidate, Derives, Recoverable, Distinct, AuthoredIdentity, ResolutionOf, ResolutionOfScope, KeysApart, RowFor,
      ReadsAlike, Composes, ScopeFor, Named, LegacyKey, AssetOf;
  }

  lemma FirstRow(env: Env, metadata: Metadata, review: Review, e: Keyed)
    requires Composes(env) && LooksUp(env, review) && RowFor(env, metadata, review).Returned?
    requires var assetId := review.assetId.value;
      e.key == review.scope.controlKey && HasCandidate(env, assetId, AssetOf(metadata, assetId), e)
    ensures var assetId := review.assetId.value;
      var asset, id, resolution := AssetOf(metadata, assetId), AuthoredIdentity(assetId, e.candidate), ResolutionOf(e.candidate);
      && KeysApart(env, assetId, asset)
      && RowFor(env, metadata, review) == WithRow(AuthoredRow(env, review, assetId, Some(e.key), resolution, id))
  {
    hide HasCandidate, KeysApart, AuthoredIdentity, ResolutionOf, Collected, AllEntries, AuthoredRow;
    var assetId := review.assetId.value;
    CandidatesExactly(env, assetId, AssetOf(metadata, assetId));
    assert e == Keyed(e.key, e.candidate);
  }

  lemma SecondRow(env: Env, metadata: Metadata, review: Review)
    requires review.scope.Authored? && review.retired.None? && review.assetId.Some?
    ensures var assetId := review.assetId.value;
      var asset, id := AssetOf(metadata, assetId), IdentityOf(assetId, review.scope);
      var resolution := ResolutionOfScope(asset, review.scope);
      RowFor(env, metadata, review) ==
        WithRow(AuthoredRow(env, review, assetId, LegacyKey(env, asset, assetId, id, resolution), resolution, id))
  {
    hide LegacyKey, AuthoredRow, ResolutionOfScope;
  }
}
