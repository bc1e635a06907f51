// Applying the migration, and applying it again.
module MigrationApply {
  import opened Options
  import opened SortedText
  import opened MigrationKeys
  import opened MigrationIdentity
  import opened KeyMigration

  // `scopeForAuthored`.
  function ScopeFor(id: Identity): Outcome<Scope> {
    if id.routeId.None? then
      if id.controlId.None? then Threw else Returned(Authored(None, id.controlId, None))
    else if id.controlIds.Some? then Returned(Authored(id.routeId, None, id.controlIds))
    else Returned(Authored(id.routeId, Some(if id.controlId.Some? then id.controlId.value else "*"), None))
  }

  // The map from review ids to rows keeps the last row of an id.
  function LastRow(rows: seq<Row>, id: string): Option<Row> {
    if rows == [] then None
    else
      var later := LastRow(rows[1..], id);
      if later.Some? then later else if rows[0].reviewId == id then Some(rows[0]) else None
  }

  function ApplyRow(review: Review, row: Row): Outcome<Review> {
    if row.applied.AsRetired? then
      Returned(if review.retired.Some? then review else review.(retired := Some(row.reason)))
    else if !row.applied.AsAuthored? then Returned(review)
    else if row.authored.None? then Threw
    else
      match ScopeFor(row.authored.value)
      case Threw => Threw
      case Returned(scope) => Returned(review.(scope := scope))
  }

  function ApplyOne(review: Review, rows: seq<Row>): Outcome<Review> {
    var row := LastRow(rows, review.reviewId);
    if row.None? then Threw else ApplyRow(review, row.value)
  }

  // `applyIncidentReviewMigration`: in the order of the reviews; one without a row throws.
  function Apply(reviews: seq<Review>, rows: seq<Row>): Outcome<seq<Review>> {
    if reviews == [] then Returned([])
    else
      var n := |reviews| - 1;
      match (Apply(reviews[..n], rows), ApplyOne(reviews[n], rows))
      case (Returned(before), Returned(review)) => Returned(before + [review])
      case _ => Threw
  }

  // One whole migration of a registry.
  function Migrate(env: Env, metadata: Metadata, reviews: seq<Review>): Outcome<seq<Review>> {
    match Built(env, metadata, reviews)
    case Threw => Threw
    case Returned(artifact) => Apply(reviews, artifact.rows)
  }

  // The sort is stable, so that it changes no lookup.
  lemma {:induction false} LastRowInsert(row: Row, rows: seq<Row>, id: string)
    ensures LastRow(InsertBy(RowId, row, rows), id) ==
      if LastRow(rows, id).Some? then LastRow(rows, id) else if row.reviewId == id then Some(row) else None
  {
    if rows == [] || NotAfter(row.reviewId, rows[0].reviewId) {
      assert ([row] + rows)[1..] == rows;
    } else {
      LastRowInsert(row, rows[1..], id);
      assert InsertBy(RowId, row, rows)[1..] == InsertBy(RowId, row, rows[1..]);
    }
  }

  lemma {:induction false} LastRowSort(rows: seq<Row>, id: string)
    ensures LastRow(SortRows(rows), id) == LastRow(rows, id)
  {
    if rows != [] {
      LastRowSort(rows[1..], id);
      LastRowInsert(rows[0], SortRows(rows[1..]), id);
    }
  }

  lemma {:induction false} LastRowAppend(rows: seq<Row>, row: Row, id: string)
    ensures LastRow(rows + [row], id) == if row.reviewId == id then Some(row) else LastRow(rows, id)
  {
    if rows == [] {
      assert rows + [row] == [row] && [row][1..] == rows;
    } else {
      LastRowAppend(rows[1..], row, id);
      assert (rows + [row])[1..] == rows[1..] + [row];
    }
  }

  lemma {:induction false} ApplyMeans(reviews: seq<Review>, rows: seq<Row>)
    ensures Apply(reviews, rows).Returned? <==> forall i :: 0 <= i < |reviews| ==> ApplyOne(reviews[i], rows).Returned?
    ensures Apply(reviews, rows).Returned? ==> |Apply(reviews, rows).value| == |reviews|
    ensures Apply(reviews, rows).Returned? ==>
      forall i :: 0 <= i < |reviews| ==> ApplyOne(reviews[i], rows) == Returned(Apply(reviews, rows).value[i])
  {
    hide ApplyOne;
    if reviews != [] {
      var n := |reviews| - 1;
      ApplyMeans(reviews[..n], rows);
      assert forall i :: 0 <= i < n ==> reviews[..n][i] == reviews[i];
    }
  }

  lemma {:induction false} AllRowsReturned(env: Env, metadata: Metadata, reviews: seq<Review>)
    requires forall i :: 0 <= i < |reviews| ==> RowFor(env, metadata, reviews[i]).Returned?
    ensures RowsOf(env, metadata, reviews).Returned?
  {
    hide RowFor;
    if reviews != [] {
      var n := |reviews| - 1;
      assert forall i :: 0 <= i < n ==> reviews[..n][i] == reviews[i];
      AllRowsReturned(env, metadata, reviews[..n]);
    }
  }

  predicate Counts(review: Review, id: string, any: bool) {
    review.reviewId == id && (any || IsSubject(review))
  }

  // The last review of an id, or the last subject of it.
  function LastAt(reviews: seq<Review>, id: string, any: bool): (i: Option<nat>)
    ensures i.Some? ==> i.value < |reviews| && Counts(reviews[i.value], id, any)
    ensures forall j :: 0 <= j < |reviews| && Counts(reviews[j], id, any) ==> i.Some? && j <= i.value
  {
    if reviews == [] then None
    else
      var n := |reviews| - 1;
      if Counts(reviews[n], id, any) then Some(n)
      else
        var i := LastAt(reviews[..n], id, any);
        assert forall j :: 0 <= j < n ==> reviews[..n][j] == reviews[j];
        i
  }

  lemma {:induction false} LastAtIs(reviews: seq<Review>, id: string, any: bool, i: nat)
    requires i < |reviews| && Counts(reviews[i], id, any)
    requires forall j :: i < j < |reviews| ==> !Counts(reviews[j], id, any)
    ensures LastAt(reviews, id, any) == Some(i)
  {
    var k := LastAt(reviews, id, any).value;
    assert Counts(reviews[k], id, any);
  }

  // The row that stands for an id is the row of its last subject.
  lemma {:induction false} LastRowOfSubject(env: Env, metadata: Metadata, reviews: seq<Review>, id: string)
    requires RowsOf(env, metadata, reviews).Returned?
    ensures var i := LastAt(reviews, id, false);
      if i.None? then LastRow(RowsOf(env, metadata, reviews).value, id) == None
      else RowFor(env, metadata, reviews[i.value]) == Returned(LastRow(RowsOf(env, metadata, reviews).value, id))
  {
    hide RowFor;
    if reviews != [] {
      var n := |reviews| - 1;
      var last := reviews[n];
      LastRowOfSubject(env, metadata, reviews[..n], id);
      SkippedHasNoRow(env, metadata, last);
      if RowFor(env, metadata, last).value.Some? {
        LastRowAppend(RowsOf(env, metadata, reviews[..n]).value, RowFor(env, metadata, last).value.value, id);
      }
    }
  }

  // One review migrated by the row of another, or by its own.
  function MigrateBy(env: Env, metadata: Metadata, subject: Review, review: Review): Outcome<Review> {
    match RowFor(env, metadata, subject)
    case Returned(Some(row)) => ApplyRow(review, row)
    case _ => Threw
  }

  function MigrateOne(env: Env, metadata: Metadata, review: Review): Outcome<Review> {
    MigrateBy(env, metadata, review, review)
  }

  function MigrateAt(env: Env, metadata: Metadata, reviews: seq<Review>, review: Review): Outcome<Review> {
    var i := LastAt(reviews, review.reviewId, false);
    if i.None? then Threw else MigrateBy(env, metadata, reviews[i.value], review)
  }

  lemma {:induction false} ApplyAt(env: Env, metadata: Metadata, reviews: seq<Review>, review: Review)
    requires RowsOf(env, metadata, reviews).Returned?
    ensures ApplyOne(review, SortRows(RowsOf(env, metadata, reviews).value)) == MigrateAt(env, metadata, reviews, review)
  {
    hide RowFor, SortRows, RowsOf, ApplyRow;
    LastRowOfSubject(env, metadata, reviews, review.reviewId);
    LastRowSort(RowsOf(env, metadata, reviews).value, review.reviewId);
    var i := LastAt(reviews, review.reviewId, false);
    if i.Some? {
      SkippedHasNoRow(env, metadata, reviews[i.value]);
    }
  }

  // What can be migrated at all.
  ghost predicate Admitted(env: Env, metadata: Metadata, reviews: seq<Review>) {
    forall i :: 0 <= i < |reviews| ==> Enveloped(reviews[i]) && RowFor(env, metadata, reviews[i]).Returned?
  }

  lemma {:induction false} BuiltExactly(env: Env, metadata: Metadata, reviews: seq<Review>)
    ensures Built(env, metadata, reviews).Returned? <==> Admitted(env, metadata, reviews)
    ensures Admitted(env, metadata, reviews) ==>
      && RowsOf(env, metadata, reviews).Returned?
      && Built(env, metadata, reviews).value.rows == SortRows(RowsOf(env, metadata, reviews).value)
  {
    hide RowFor, Enveloped, SortRows;
    if RowsOf(env, metadata, reviews).Returned? {
      RowsAreOfReviews(env, metadata, reviews);
      assert forall i :: 0 <= i < |reviews| ==> reviews[i] in reviews;
    }
    if Admitted(env, metadata, reviews) {
      AllRowsReturned(env, metadata, reviews);
    }
    hide RowsOf;
  }

  // A migration, review by review: it is defined exactly where all rows are and every review finds
  // the row of a subject of its id, and that row decides what becomes of it.
  lemma MigrateExactly(env: Env, metadata: Metadata, reviews: seq<Review>)
    ensures Migrate(env, metadata, reviews).Returned? <==>
      Admitted(env, metadata, reviews) && forall i :: 0 <= i < |reviews| ==> MigrateAt(env, metadata, reviews, reviews[i]).Returned?
    ensures Migrate(env, metadata, reviews).Returned? ==>
      var migrated := Migrate(env, metadata, reviews).value;
      |migrated| == |reviews| && forall i :: 0 <= i < |reviews| ==> MigrateAt(env, metadata, reviews, reviews[i]) == Returned(migrated[i])
  {
    hide MigrateAt, ApplyOne, Built, Apply, RowsOf, SortRows, Admitted;
    BuiltExactly(env, metadata, reviews);
    if Admitted(env, metadata, reviews) {
      var rows := Built(env, metadata, reviews).value.rows;
      ApplyMeans(reviews, rows);
      forall i | 0 <= i < |reviews|
        ensures ApplyOne(reviews[i], rows) == MigrateAt(env, metadata, reviews, reviews[i])
      {
        ApplyAt(env, metadata, reviews, reviews[i]);
      }
    }
  }

  // A scope that some identity is written as.
  ghost predicate Written(scope: Scope) {
    exists id :: ScopeFor(id) == Returned(scope)
  }

  lemma ByForm(env: Env, metadata: Metadata, subject: Review, review: Review)
    requires MigrateBy(env, metadata, subject, review).Returned?
    ensures var migrated := MigrateBy(env, metadata, subject, review).value;
      && IsSubject(subject) && subject.assetId.Some?
      && (Retires(env, subject) ==> migrated == review.(retired := migrated.retired) && migrated.retired.Some?)
      && (Rewrites(env, subject) ==> migrated == review.(scope := migrated.scope) && Written(migrated.scope))
      && (!Retires(env, subject) && !Rewrites(env, subject) ==> migrated == review)
  {
    hide LegacyKey, ResolutionOfScope, StableId, AllEntries, Collected, AuthoredIdentity;
    var row := RowFor(env, metadata, subject).value.value;
    if row.applied.AsAuthored? {
      assert ScopeFor(row.authored.value).Returned?;
    }
  }

  // The scope that is written does not depend on the review that gets it.
  lemma ByScope(env: Env, metadata: Metadata, subject: Review, a: Review, b: Review)
    requires Rewrites(env, subject)
    requires MigrateBy(env, metadata, subject, a).Returned? && MigrateBy(env, metadata, subject, b).Returned?
    ensures MigrateBy(env, metadata, subject, a).value.scope == MigrateBy(env, metadata, subject, b).value.scope
  {
    hide LegacyKey, ResolutionOfScope, StableId, AllEntries, Collected, AuthoredIdentity, ScopeFor;
  }

  // A scope that was written is read back as the identity it was written from.
  lemma ScopeStable(env: Env, asset: Asset, id: Identity)
    requires ScopeFor(id).Returned?
    ensures var scope := ScopeFor(id).value;
      && scope.Authored?
      && ScopeFor(Identity(id.assetId, scope.routeId, scope.controlId, scope.controlIds)) == Returned(scope)
      && (scope.routeId.Some? || (ResolutionOfScope(asset, scope).ByMintControl? && scope.controlId.Some?))
  {
  }

  lemma AuthoredAgain(env: Env, metadata: Metadata, subject: Review, review: Review)
    requires Composes(env) && subject.assetId.Some? && subject.retired.None?
    requires Written(subject.scope) && review.scope == subject.scope
    ensures MigrateBy(env, metadata, subject, review) == Returned(review) && RowFor(env, metadata, subject).Returned?
  {
    var id :| ScopeFor(id) == Returned(subject.scope);
    var assetId := subject.assetId.value;
    ScopeStable(env, AssetOf(metadata, assetId), id);
    var own := Identity(assetId, subject.scope.routeId, subject.scope.controlId, subject.scope.controlIds);
    var resolution := ResolutionOfScope(AssetOf(metadata, assetId), subject.scope);
    assert StableId(env, subject, assetId, resolution, own).Returned?;
    hide LegacyKey, ResolutionOfScope, StableId;
    assert review.(scope := review.scope) == review;
  }

  lemma RetiredAgain(env: Env, metadata: Metadata, subject: Review, review: Review)
    requires subject.assetId.Some? && Retires(env, subject)
    ensures MigrateBy(env, metadata, subject, review).Returned? && RowFor(env, metadata, subject).Returned?
    ensures MigrateBy(env, metadata, subject, review) == Returned(review) <==> review.retired.Some?
  {
    hide LegacyKey, ResolutionOfScope, StableId;
  }

  lemma LeftAgain(env: Env, metadata: Metadata, subject: Review, review: Review)
    requires subject.assetId.Some? && IsSubject(subject) && !Retires(env, subject) && !Rewrites(env, subject)
    ensures MigrateBy(env, metadata, subject, review) == Returned(review)
  {
  }

  // Marking a review retired takes no row away.
  lemma RetiringKeepsRow(env: Env, metadata: Metadata, review: Review, retired: Option<string>)
    requires RowFor(env, metadata, review).Returned? && retired.Some?
    ensures RowFor(env, metadata, review.(retired := retired)).Returned?
  {
    hide LegacyKey, ResolutionOfScope, AllEntries, Collected;
  }

  // One review by itself: what was migrated stays as it is.
  lemma MigratedOnce(env: Env, metadata: Metadata, review: Review)
    requires Composes(env) && MigrateOne(env, metadata, review).Returned?
    ensures var migrated := MigrateOne(env, metadata, review).value;
      && MigrateOne(env, metadata, migrated) == Returned(migrated)
      && RowFor(env, metadata, migrated).Returned?
      && migrated.reviewId == review.reviewId && Enveloped(migrated)
  {
    hide RowFor, ScopeFor, Written, ApplyRow, MigrateBy;
    ByForm(env, metadata, review, review);
    var migrated := MigrateOne(env, metadata, review).value;
    if Rewrites(env, review) && review.retired.None? {
      WrittenIsAuthored(migrated.scope);
      AuthoredAgain(env, metadata, migrated, migrated);
    } else if Rewrites(env, review) || Retires(env, review) {
      if Rewrites(env, review) {
        WrittenIsAuthored(migrated.scope);
      }
      RetiredAgain(env, metadata, migrated, migrated);
    } else {
      LeftAgain(env, metadata, review, review);
      OwnRowReturned(env, metadata, review);
    }
  }

  lemma WrittenIsAuthored(scope: Scope)
    requires Written(scope)
    ensures scope.Authored?
  {
    var id :| ScopeFor(id) == Returned(scope);
  }

  lemma OwnRowReturned(env: Env, metadata: Metadata, review: Review)
    requires MigrateOne(env, metadata, review).Returned?
    ensures RowFor(env, metadata, review).Returned?
  {
    hide RowFor, ApplyRow;
  }
}
