// Migrating what was migrated: exactly when a second run is defined, and when it changes nothing.
module MigrationTwice {
  import opened Options
  import opened MigrationKeys
  import opened MigrationIdentity
  import opened KeyMigration
  import opened MigrationApply

  ghost predicate AnyProvider(reviews: seq<Review>, id: string) {
    exists m :: 0 <= m < |reviews| && reviews[m].reviewId == id && reviews[m].scope.Provider?
  }

  ghost predicate AllRetired(reviews: seq<Review>, id: string) {
    forall m :: 0 <= m < |reviews| && reviews[m].reviewId == id ==> reviews[m].retired.Some?
  }

  // Whether the reviews of an id get their scopes rewritten: their last subject decides.
  ghost predicate Rewritten(env: Env, reviews: seq<Review>, id: string) {
    var i := LastAt(reviews, id, false);
    i.Some? && Rewrites(env, reviews[i.value])
  }

  ghost predicate LastRetired(reviews: seq<Review>, id: string) {
    var i := LastAt(reviews, id, true);
    i.Some? && reviews[i.value].retired.Some?
  }

  // No review of a rewritten id is provider-wide,
  ghost predicate Repeatable(env: Env, reviews: seq<Review>) {
    forall i :: 0 <= i < |reviews| && Rewritten(env, reviews, reviews[i].reviewId) ==> !AnyProvider(reviews, reviews[i].reviewId)
  }

  // and if the last review of one is retired, all are.
  ghost predicate Stable(env: Env, reviews: seq<Review>) {
    && Repeatable(env, reviews)
    && forall i :: 0 <= i < |reviews| && Rewritten(env, reviews, reviews[i].reviewId) && LastRetired(reviews, reviews[i].reviewId) ==>
         AllRetired(reviews, reviews[i].reviewId)
  }

  // The reviews of one id, before and after.
  ghost predicate SameIds(x: seq<Review>, y: seq<Review>) {
    |x| == |y| && forall m :: 0 <= m < |x| ==> x[m].reviewId == y[m].reviewId
  }

  ghost predicate ScopesKept(x: seq<Review>, y: seq<Review>, id: string)
    requires SameIds(x, y)
  {
    forall m :: 0 <= m < |x| && x[m].reviewId == id ==> y[m] == x[m].(retired := y[m].retired)
  }

  ghost predicate ScopesSet(x: seq<Review>, y: seq<Review>, id: string, scope: Scope)
    requires SameIds(x, y)
  {
    forall m :: 0 <= m < |x| && x[m].reviewId == id ==> y[m] == x[m].(scope := scope)
  }

  // Where scopes are kept the last subject stays where it is,
  lemma {:induction false} KeptSubject(x: seq<Review>, y: seq<Review>, id: string)
    requires SameIds(x, y) && ScopesKept(x, y, id) && LastAt(x, id, false).Some?
    ensures LastAt(y, id, false) == LastAt(x, id, false)
  {
    LastAtIs(y, id, false, LastAt(x, id, false).value);
  }

  // and where they are rewritten the last review becomes it.
  lemma {:induction false} SetSubject(x: seq<Review>, y: seq<Review>, id: string, scope: Scope)
    requires SameIds(x, y) && ScopesSet(x, y, id, scope) && scope.Authored? && LastAt(x, id, true).Some?
    ensures LastAt(y, id, false) == LastAt(x, id, true)
  {
    LastAtIs(y, id, false, LastAt(x, id, true).value);
  }

  ghost predicate Migrated(env: Env, metadata: Metadata, x: seq<Review>, y: seq<Review>) {
    && Admitted(env, metadata, x) && |y| == |x|
    && forall i :: 0 <= i < |x| ==> MigrateAt(env, metadata, x, x[i]) == Returned(y[i])
  }

  // The subject of an id, with what it did to each of its reviews.
  lemma SubjectOf(env: Env, metadata: Metadata, x: seq<Review>, y: seq<Review>, i: nat) returns (j: nat)
    requires Migrated(env, metadata, x, y) && i < |x|
    ensures LastAt(x, x[i].reviewId, false) == Some(j)
    ensures forall m :: 0 <= m < |x| && x[m].reviewId == x[i].reviewId ==> MigrateBy(env, metadata, x[j], x[m]) == Returned(y[m])
  {
    hide MigrateBy, Admitted;
    j := LastAt(x, x[i].reviewId, false).value;
  }

  lemma IdsKept(env: Env, metadata: Metadata, x: seq<Review>, y: seq<Review>)
    requires Migrated(env, metadata, x, y)
    ensures SameIds(x, y)
  {
    hide MigrateBy, Admitted;
    forall m | 0 <= m < |x|
      ensures x[m].reviewId == y[m].reviewId
    {
      var j := SubjectOf(env, metadata, x, y, m);
      ByForm(env, metadata, x[j], x[m]);
    }
  }

  // An id whose scopes are not rewritten is as it will be.
  lemma UnwrittenAgain(env: Env, metadata: Metadata, x: seq<Review>, y: seq<Review>, i: nat)
    requires Migrated(env, metadata, x, y) && SameIds(x, y) && i < |x| && !Rewritten(env, x, x[i].reviewId)
    ensures Enveloped(y[i]) && RowFor(env, metadata, y[i]).Returned?
    ensures MigrateAt(env, metadata, y, y[i]) == Returned(y[i]) && !Rewritten(env, y, x[i].reviewId)
  {
    hide MigrateBy, RowFor;
    var id := x[i].reviewId;
    var j := SubjectOf(env, metadata, x, y, i);
    forall m | 0 <= m < |x| && x[m].reviewId == id
      ensures y[m] == x[m].(retired := y[m].retired)
      ensures Retires(env, x[j]) ==> y[m].retired.Some?
      ensures !Retires(env, x[j]) ==> y[m] == x[m]
      ensures IsSubject(x[j]) && x[j].assetId.Some?
    {
      ByForm(env, metadata, x[j], x[m]);
    }
    KeptSubject(x, y, id);
    if Retires(env, x[j]) {
      RetiringKeepsRow(env, metadata, x[i], y[i].retired);
      RetiredAgain(env, metadata, y[j], y[i]);
    } else {
      LeftAgain(env, metadata, y[j], y[i]);
    }
  }

  // All reviews of a rewritten id get one scope, and its last review becomes its subject.
  lemma ScopesWritten(env: Env, metadata: Metadata, x: seq<Review>, y: seq<Review>, i: nat) returns (k: nat)
    requires Migrated(env, metadata, x, y) && SameIds(x, y) && i < |x| && Rewritten(env, x, x[i].reviewId)
    ensures ScopesSet(x, y, x[i].reviewId, y[i].scope) && Written(y[i].scope) && y[i].scope.Authored?
    ensures LastAt(x, x[i].reviewId, true) == LastAt(y, x[i].reviewId, false) == LastAt(y, x[i].reviewId, true) == Some(k)
  {
    hide MigrateBy, RowFor, Written;
    var id, scope := x[i].reviewId, y[i].scope;
    var j := SubjectOf(env, metadata, x, y, i);
    forall m | 0 <= m < |x| && x[m].reviewId == id
      ensures y[m] == x[m].(scope := scope) && Written(scope)
    {
      ByForm(env, metadata, x[j], x[m]);
      ByForm(env, metadata, x[j], x[i]);
      ByScope(env, metadata, x[j], x[m], x[i]);
    }
    WrittenIsAuthored(scope);
    k := LastAt(x, id, true).value;
    SetSubject(x, y, id, scope);
    LastAtIs(y, id, true, k);
  }

  // A rewritten review has the envelope exactly if it was not provider-wide, and then a row; and the
  // last review of its id decides anew.
  lemma WrittenAgain(env: Env, metadata: Metadata, x: seq<Review>, y: seq<Review>, i: nat)
    requires Composes(env)
    requires Migrated(env, metadata, x, y) && SameIds(x, y) && i < |x| && Rewritten(env, x, x[i].reviewId)
    ensures Enveloped(y[i]) <==> !x[i].scope.Provider?
    ensures Enveloped(y[i]) ==> RowFor(env, metadata, y[i]).Returned?
    ensures !AnyProvider(x, x[i].reviewId) ==>
      && MigrateAt(env, metadata, y, y[i]).Returned?
      && (MigrateAt(env, metadata, y, y[i]) == Returned(y[i]) <==> (LastRetired(x, x[i].reviewId) ==> x[i].retired.Some?))
    ensures !AnyProvider(y, x[i].reviewId) && (Rewritten(env, y, x[i].reviewId) ==> !LastRetired(y, x[i].reviewId))
  {
    var k := ScopesWritten(env, metadata, x, y, i);
    hide MigrateBy, RowFor, Written, Composes, LastAt, MigrateAt, Rewritten;
    if Enveloped(y[i]) {
      SubjectAgain(env, metadata, y[i], y[i]);
    }
    if !AnyProvider(x, x[i].reviewId) {
      assert Enveloped(x[k]) && !x[k].scope.Provider?;
      SubjectAgain(env, metadata, y[k], y[i]);
      MigratesAt(env, metadata, y, y[i], k);
    }
    if Rewritten(env, y, x[i].reviewId) {
      RewrittenAt(env, y, x[i].reviewId, k);
    }
  }

  lemma {:induction false} MigratesAt(env: Env, metadata: Metadata, y: seq<Review>, review: Review, k: nat)
    requires LastAt(y, review.reviewId, false) == Some(k)
    ensures k < |y| && MigrateAt(env, metadata, y, review) == MigrateBy(env, metadata, y[k], review)
  {
    hide MigrateBy;
  }

  lemma {:induction false} RewrittenAt(env: Env, y: seq<Review>, id: string, k: nat)
    requires LastAt(y, id, false) == Some(k) && Rewritten(env, y, id) && y[k].scope.Authored?
    ensures y[k].retired.None?
  {
  }

  lemma SubjectAgain(env: Env, metadata: Metadata, subject: Review, review: Review)
    requires Composes(env) && subject.assetId.Some? && Written(subject.scope) && review.scope == subject.scope
    ensures MigrateBy(env, metadata, subject, review).Returned? && RowFor(env, metadata, subject).Returned?
    ensures MigrateBy(env, metadata, subject, review) == Returned(review) <==> (subject.retired.Some? ==> review.retired.Some?)
  {
    hide MigrateBy, RowFor, Composes;
    WrittenIsAuthored(subject.scope);
    hide Written;
    if subject.retired.Some? {
      RetiredAgain(env, metadata, subject, review);
    } else {
      AuthoredAgain(env, metadata, subject, review);
    }
  }

  // What a second run makes of each review.
  ghost predicate Again(env: Env, metadata: Metadata, x: seq<Review>, y: seq<Review>, i: nat)
    requires |x| == |y| && i < |x|
  {
    var id := x[i].reviewId;
    if Rewritten(env, x, id) then
      && (Enveloped(y[i]) <==> !x[i].scope.Provider?)
      && (Enveloped(y[i]) ==> RowFor(env, metadata, y[i]).Returned?)
      && (!AnyProvider(x, id) ==>
            && MigrateAt(env, metadata, y, y[i]).Returned?
            && (MigrateAt(env, metadata, y, y[i]) == Returned(y[i]) <==> (LastRetired(x, id) ==> x[i].retired.Some?)))
    else Enveloped(y[i]) && RowFor(env, metadata, y[i]).Returned? && MigrateAt(env, metadata, y, y[i]) == Returned(y[i])
  }

  lemma EachAgain(env: Env, metadata: Metadata, x: seq<Review>, y: seq<Review>)
    requires Composes(env) && Migrated(env, metadata, x, y)
    ensures forall i :: 0 <= i < |x| ==> Again(env, metadata, x, y, i)
  {
    hide Composes, MigrateAt, RowFor, Migrated, Rewritten, LastRetired, SameIds, AnyProvider, Enveloped;
    IdsKept(env, metadata, x, y);
    MigratedSize(env, metadata, x, y);
    forall i | 0 <= i < |x|
      ensures Again(env, metadata, x, y, i)
    {
      if Rewritten(env, x, x[i].reviewId) {
        WrittenAgain(env, metadata, x, y, i);
      } else {
        UnwrittenAgain(env, metadata, x, y, i);
      }
    }
  }

  lemma MigratedSize(env: Env, metadata: Metadata, x: seq<Review>, y: seq<Review>)
    requires Migrated(env, metadata, x, y)
    ensures |y| == |x|
  {
  }

  lemma AgainAdmitted(env: Env, metadata: Metadata, x: seq<Review>, y: seq<Review>)
    requires |x| == |y| && forall i :: 0 <= i < |x| ==> Again(env, metadata, x, y, i)
    ensures Admitted(env, metadata, y) <==> Repeatable(env, x)
  {
    hide MigrateAt, RowFor, Rewritten, LastRetired, Enveloped;
    if Admitted(env, metadata, y) {
      forall i | 0 <= i < |x| && Rewritten(env, x, x[i].reviewId)
        ensures !AnyProvider(x, x[i].reviewId)
      {
        forall m | 0 <= m < |x| && x[m].reviewId == x[i].reviewId
          ensures !x[m].scope.Provider?
        {
          assert Again(env, metadata, x, y, m) && Enveloped(y[m]);
        }
      }
    }
    if Repeatable(env, x) {
      forall i | 0 <= i < |x|
        ensures Enveloped(y[i]) && RowFor(env, metadata, y[i]).Returned?
      {
        assert Again(env, metadata, x, y, i);
        assert Rewritten(env, x, x[i].reviewId) ==> !AnyProvider(x, x[i].reviewId) && !x[i].scope.Provider?;
      }
    }
  }

  lemma AgainSame(env: Env, metadata: Metadata, x: seq<Review>, y: seq<Review>)
    requires |x| == |y| && forall i :: 0 <= i < |x| ==> Again(env, metadata, x, y, i)
    requires Repeatable(env, x)
    ensures forall i :: 0 <= i < |x| ==> MigrateAt(env, metadata, y, y[i]).Returned?
    ensures (forall i :: 0 <= i < |x| ==> MigrateAt(env, metadata, y, y[i]) == Returned(y[i])) <==> Stable(env, x)
  {
    hide MigrateAt, RowFor, Rewritten, LastRetired, Enveloped, AnyProvider;
    forall i | 0 <= i < |x|
      ensures MigrateAt(env, metadata, y, y[i]).Returned?
      ensures MigrateAt(env, metadata, y, y[i]) == Returned(y[i]) <==>
        (Rewritten(env, x, x[i].reviewId) && LastRetired(x, x[i].reviewId) ==> x[i].retired.Some?)
    {
      assert Again(env, metadata, x, y, i);
    }
  }

  // A second migration is defined exactly if no review of a rewritten id is provider-wide, and
  // changes nothing exactly if besides no rewritten id ends in a retired review unless all its
  // reviews are retired.
  lemma MigrateAgain(env: Env, metadata: Metadata, reviews: seq<Review>)
    requires Composes(env) && Migrate(env, metadata, reviews).Returned?
    ensures var migrated := Migrate(env, metadata, reviews).value;
      && (Migrate(env, metadata, migrated).Returned? <==> Repeatable(env, reviews))
      && (Migrate(env, metadata, migrated) == Returned(migrated) <==> Stable(env, reviews))
  {
    hide Composes, MigrateAt, Admitted, Migrate, Repeatable, Again;
    var x, y := reviews, Migrate(env, metadata, reviews).value;
    MigrateExactly(env, metadata, x);
    MigrateExactly(env, metadata, y);
    EachAgain(env, metadata, x, y);
    AgainAdmitted(env, metadata, x, y);
    if Repeatable(env, x) {
      AgainSame(env, metadata, x, y);
      hide Stable;
      var z := Migrate(env, metadata, y).value;
      assert z == y <==> forall i :: 0 <= i < |x| ==> z[i] == y[i];
    }
  }

  // So whatever is migrated twice is settled: a third run changes nothing.
  lemma MigratedIsStable(env: Env, metadata: Metadata, x: seq<Review>, y: seq<Review>)
    requires Composes(env) && Migrated(env, metadata, x, y)
    ensures Stable(env, y)
  {
    hide Composes, RowFor, Migrated, Rewritten, LastRetired, AnyProvider, Enveloped, MigrateAt, AllRetired;
    IdsKept(env, metadata, x, y);
    forall i | 0 <= i < |y| && Rewritten(env, y, y[i].reviewId)
      ensures !AnyProvider(y, y[i].reviewId) && !LastRetired(y, y[i].reviewId)
    {
      if Rewritten(env, x, x[i].reviewId) {
        WrittenAgain(env, metadata, x, y, i);
      } else {
        UnwrittenAgain(env, metadata, x, y, i);
      }
    }
  }

  lemma MigrateThrice(env: Env, metadata: Metadata, reviews: seq<Review>)
    requires Composes(env) && Migrate(env, metadata, reviews).Returned? && Repeatable(env, reviews)
    ensures var once := Migrate(env, metadata, reviews).value;
      && Migrate(env, metadata, once).Returned?
      && var twice := Migrate(env, metadata, once).value;
         Migrate(env, metadata, twice) == Returned(twice)
  {
    hide Composes, Migrate, Repeatable, Stable, Admitted, MigrateAt;
    var once := Migrate(env, metadata, reviews).value;
    MigrateAgain(env, metadata, reviews);
    MigrateExactly(env, metadata, reviews);
    MigratedIsStable(env, metadata, reviews, once);
    MigrateAgain(env, metadata, once);
  }

  predicate UniqueIds(reviews: seq<Review>) {
    forall i, j :: 0 <= i < j < |reviews| ==> reviews[i].reviewId != reviews[j].reviewId
  }

  // With unique ids that is always so.
  lemma MigrateTwice(env: Env, metadata: Metadata, reviews: seq<Review>)
    requires Composes(env) && UniqueIds(reviews) && Migrate(env, metadata, reviews).Returned?
    ensures var migrated := Migrate(env, metadata, reviews).value;
      Migrate(env, metadata, migrated) == Returned(migrated)
  {
    MigrateAgain(env, metadata, reviews);
    hide Composes, Migrate;
    assert Stable(env, reviews);
  }

  // An instance where it is not: a review that is no subject of the migration takes the row of its
  // namesake, becomes a subject by it, and on the second run retires that namesake.
  function Subject(id: string, assetId: string): Review {
    Review(id, Some(assetId), 0, Authored(None, Some("c"), None), None)
  }

  function Namesake(id: string, assetId: string, scope: Scope): Review {
    Review(id, Some(assetId), 0, scope, Some("gone"))
  }

  lemma SubjectRow(env: Env, metadata: Metadata, id: string, assetId: string)
    requires Composes(env)
    ensures var r := RowFor(env, metadata, Subject(id, assetId));
      && r.Returned? && r.value.Some?
      && r.value.value.reviewId == id && r.value.value.applied.AsAuthored?
      && r.value.value.authored == Some(Identity(assetId, None, Some("c"), None))
  {
    hide LegacyKey, FirstMint;
  }

  lemma NamesakeRow(env: Env, metadata: Metadata, id: string, assetId: string, scope: Scope)
    requires scope.Authored?
    ensures RowFor(env, metadata, Namesake(id, assetId, scope)) ==
      Returned(Some(RetiredRow(Namesake(id, assetId, scope), assetId, None, false, "gone")))
    ensures RowFor(env, metadata, Namesake(id, assetId, IssuerSurface)) == Returned(None)
  {
  }

  lemma {:induction false} RowsOfMore(env: Env, metadata: Metadata, reviews: seq<Review>, review: Review, rows: seq<Row>)
    requires RowsOf(env, metadata, reviews) == Returned(rows) && RowFor(env, metadata, review).Returned?
    ensures RowsOf(env, metadata, reviews + [review]) ==
      Returned(match RowFor(env, metadata, review).value case Some(row) => rows + [row] case None => rows)
  {
    hide RowFor;
    assert (reviews + [review])[..|reviews|] == reviews;
  }

  lemma RowsOfTwo(env: Env, metadata: Metadata, a: Review, b: Review)
    requires RowFor(env, metadata, a).Returned? && RowFor(env, metadata, a).value.Some? && RowFor(env, metadata, b).Returned?
    requires Enveloped(a) && Enveloped(b) && a.reviewId == b.reviewId
    ensures var r, s := RowFor(env, metadata, a).value.value, RowFor(env, metadata, b).value;
      && Built(env, metadata, [a, b]).Returned?
      && LastRow(Built(env, metadata, [a, b]).value.rows, a.reviewId) == if s.Some? then s else Some(r)
  {
    SkippedHasNoRow(env, metadata, a);
    SkippedHasNoRow(env, metadata, b);
    hide RowFor, Enveloped, SortRows;
    var r, s := RowFor(env, metadata, a).value.value, RowFor(env, metadata, b).value;
    assert [] + [a] == [a] && [] + [r] == [r] && [a] + [b] == [a, b];
    RowsOfMore(env, metadata, [], a, []);
    RowsOfMore(env, metadata, [a], b, [r]);
    var rows := if s.Some? then [r] + [s.value] else [r];
    LastRowSort(rows, a.reviewId);
    LastRowAppend([], r, a.reviewId);
    if s.Some? {
      LastRowAppend([r], s.value, a.reviewId);
    }
  }

  lemma {:induction false} ApplyTwo(a: Review, b: Review, rows: seq<Row>)
    requires ApplyOne(a, rows).Returned? && ApplyOne(b, rows).Returned?
    ensures Apply([a, b], rows) == Returned([ApplyOne(a, rows).value, ApplyOne(b, rows).value])
  {
    ApplyMeans([a, b], rows);
    assert [a, b][0] == a && [a, b][1] == b;
    var r := Apply([a, b], rows).value;
    assert r == [r[0], r[1]];
  }

  lemma DuplicateIdsDrift(env: Env, metadata: Metadata, id: string, assetId: string)
    requires Composes(env)
    ensures var a := Subject(id, assetId);
      var once := [a, Namesake(id, assetId, a.scope)];
      && Migrate(env, metadata, [a, Namesake(id, assetId, IssuerSurface)]) == Returned(once)
      && Migrate(env, metadata, once) == Returned([a.(retired := Some("gone")), Namesake(id, assetId, a.scope)])
  {
    var a := Subject(id, assetId);
    var b, c := Namesake(id, assetId, IssuerSurface), Namesake(id, assetId, a.scope);
    SubjectRow(env, metadata, id, assetId);
    NamesakeRow(env, metadata, id, assetId, a.scope);
    hide RowFor, Built, LastRow, Apply;
    RowsOfTwo(env, metadata, a, b);
    ApplyTwo(a, b, Built(env, metadata, [a, b]).value.rows);
    RowsOfTwo(env, metadata, a, c);
    ApplyTwo(a, c, Built(env, metadata, [a, c]).value.rows);
  }
}
