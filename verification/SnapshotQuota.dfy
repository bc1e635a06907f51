// The durable daily write quota of functions/selector-snapshot/[[path]].ts: one counter for each
// UTC day and client, charged before the recomputation and refunded when that fails.
module SnapshotQuota {
  import opened Options
  import opened SnapshotCodec

  type Ip = string
  type Date = int

  datatype Bucket = Bucket(date: Date, ip: Ip)

  type Rows = map<Bucket, int>

  const DAILY_QUOTA := 100

  function Count(rows: Rows, b: Bucket): int {
    if b in rows then rows[b] else 0
  }

  // The conditional upsert: it inserts 1, or adds 1 where the count is below the quota.
  function Charged(rows: Rows, b: Bucket): Rows {
    if b !in rows then rows[b := 1]
    else if rows[b] < DAILY_QUOTA then rows[b := rows[b] + 1]
    else rows
  }

  // The guarded update: nothing where there is no row, and never below zero.
  function Refunded(rows: Rows, b: Bucket): Rows {
    if b !in rows then rows
    else rows[b := if rows[b] > 0 then rows[b] - 1 else 0]
  }

  class QuotaTable {
    var rows: Rows

    constructor ()
      ensures rows == map[]
    {
      rows := map[];
    }

    // Whether the statement changed a row tells the caller whether the request is within quota.
    method Consume(b: Bucket) returns (changed: bool)
      modifies this
      ensures rows == Charged(old(rows), b)
      ensures changed <==> Count(old(rows), b) < DAILY_QUOTA
      ensures Count(rows, b) == Count(old(rows), b) + if changed then 1 else 0
      ensures forall other :: other != b ==> Count(rows, other) == Count(old(rows), other)
    {
      if b !in rows {
        rows := rows[b := 1];
        changed := true;
      } else {
        changed := rows[b] < DAILY_QUOTA;
        if changed {
          rows := rows[b := rows[b] + 1];
        }
      }
    }

    method Refund(b: Bucket)
      modifies this
      ensures rows == Refunded(old(rows), b)
      ensures Count(old(rows), b) > 0 ==> Count(rows, b) == Count(old(rows), b) - 1
      ensures forall other :: other != b ==> Count(rows, other) == Count(old(rows), other)
    {
      if b in rows {
        rows := rows[b := if rows[b] > 0 then rows[b] - 1 else 0];
      }
    }
  }

  // A database statement can take effect and have its answer lost, or fail without effect.
  datatype Ack = Applied | AnswerLost | NotApplied

  // Where a request stands in `handlePost`, between two awaits.
  datatype Phase =
    | Captured
    | Recomputing
    | Refunding
    | Looking(snapshot: Json)
    | Writing(snapshot: Json)
    | Done

  // A request: the bucket whose date it captured (none for a caller without an address), whether
  // a charge of its own took effect, whether its refund did, and whether it wrote its snapshot.
  datatype Post = Post(bucket: Option<Bucket>, charged: bool, refunded: bool, wrote: bool, phase: Phase)

  function Capture(ip: Option<Ip>, today: Date): Post {
    Post(if ip.Some? then Some(Bucket(today, ip.value)) else None, false, false, false, Captured)
  }

  // `consumeDailyPostQuota`: an unmetered request passes; a full bucket, a failed statement or a
  // lost answer ends the request.
  function Reserve(rows: Rows, p: Post, ack: Ack): (Rows, Post) {
    if p.bucket.None? then (rows, p.(phase := Recomputing))
    else if ack.NotApplied? then (rows, p.(phase := Done))
    else
      var fits := Count(rows, p.bucket.value) < DAILY_QUOTA;
      var charged := p.(charged := fits, phase := if fits && ack.Applied? then Recomputing else Done);
      (Charged(rows, p.bucket.value), charged)
  }

  // `refundDailyPostQuota`: the bucket is the one captured, whatever day it is by now.
  function Refund(rows: Rows, p: Post, ack: Ack): (Rows, Post) {
    if p.bucket.None? || ack.NotApplied? then (rows, p.(phase := Done))
    else (Refunded(rows, p.bucket.value), p.(refunded := true, phase := Done))
  }

  // A request that still costs its client one unit of `b`.
  predicate Holds(p: Post, b: Bucket) {
    p.bucket == Some(b) && p.charged && !p.refunded
  }

  ghost function Holders(posts: map<nat, Post>, b: Bucket): set<nat> {
    set id | id in posts && Holds(posts[id], b)
  }

  ghost function Writers(posts: map<nat, Post>, b: Bucket): set<nat> {
    set id | id in posts && posts[id].wrote && posts[id].bucket == Some(b)
  }

  // A metered request past its reservation and not at its end holds its unit, and so does any
  // that wrote.
  predicate Consistent(p: Post) {
    && (p.phase.Captured? ==> !p.charged && !p.refunded && !p.wrote)
    && (p.bucket.Some? && (p.wrote || (!p.phase.Captured? && !p.phase.Done?)) ==> p.charged && !p.refunded)
    && (p.bucket.None? ==> !p.charged && !p.refunded)
  }

  ghost predicate QuotaInv(rows: Rows, posts: map<nat, Post>) {
    && (forall b :: 0 <= Count(rows, b) <= DAILY_QUOTA)
    && (forall b :: Count(rows, b) == |Holders(posts, b)|)
    && (forall id :: id in posts ==> Consistent(posts[id]))
  }

  lemma OtherHolders(posts: map<nat, Post>, id: nat, p: Post, b: Bucket)
    ensures Holders(posts, b) - {id} == Holders(posts[id := p], b) - {id}
  {
    hide Holds;
  }

  lemma HoldersUpdate(posts: map<nat, Post>, id: nat, p: Post, b: Bucket)
    ensures |Holders(posts[id := p], b)| ==
      |Holders(posts, b)|
      - (if id in posts && Holds(posts[id], b) then 1 else 0)
      + (if Holds(p, b) then 1 else 0)
  {
    OtherHolders(posts, id, p, b);
    SizeWithout(Holders(posts, b), id);
    SizeWithout(Holders(posts[id := p], b), id);
    hide Holds;
  }

  lemma SizeWithout(s: set<nat>, x: nat)
    ensures |s| == |s - {x}| + if x in s then 1 else 0
  {
  }

  // A step that moves a request on without touching the counters.
  lemma MoveKeepsQuota(rows: Rows, posts: map<nat, Post>, id: nat, p: Post)
    requires QuotaInv(rows, posts) && Consistent(p)
    requires forall b :: Holds(p, b) <==> id in posts && Holds(posts[id], b)
    ensures QuotaInv(rows, posts[id := p])
  {
    hide Holders, Count, Consistent, Holds;
    forall b
      ensures Count(rows, b) == |Holders(posts[id := p], b)|
    {
      HoldersUpdate(posts, id, p, b);
    }
  }

  lemma ReserveKeepsQuota(rows: Rows, posts: map<nat, Post>, id: nat, ack: Ack)
    requires QuotaInv(rows, posts) && id in posts && posts[id].phase.Captured?
    ensures var (rows', p) := Reserve(rows, posts[id], ack); QuotaInv(rows', posts[id := p])
  {
    hide Holders;
    var (rows', p) := Reserve(rows, posts[id], ack);
    assert Consistent(posts[id]);
    forall b
      ensures 0 <= Count(rows', b) <= DAILY_QUOTA && Count(rows', b) == |Holders(posts[id := p], b)|
    {
      assert 0 <= Count(rows, b) <= DAILY_QUOTA && Count(rows, b) == |Holders(posts, b)|;
      HoldersUpdate(posts, id, p, b);
    }
  }

  // A request that is about to refund holds a unit, so the counter it decrements is positive:
  // the guard against underflow is never what stops it.
  lemma RefundNeedsNoGuard(rows: Rows, posts: map<nat, Post>, id: nat)
    requires QuotaInv(rows, posts) && id in posts && posts[id].phase.Refunding? && posts[id].bucket.Some?
    ensures var b := posts[id].bucket.value;
      && Count(rows, b) >= 1
      && Refunded(rows, b) == rows[b := Count(rows, b) - 1]
  {
    var b := posts[id].bucket.value;
    assert Consistent(posts[id]) && Holds(posts[id], b);
    assert id in Holders(posts, b);
    assert Count(rows, b) == |Holders(posts, b)|;
  }

  lemma RefundKeepsQuota(rows: Rows, posts: map<nat, Post>, id: nat, ack: Ack)
    requires QuotaInv(rows, posts) && id in posts && posts[id].phase.Refunding? && !posts[id].wrote
    ensures var (rows', p) := Refund(rows, posts[id], ack); QuotaInv(rows', posts[id := p])
  {
    var (rows', p) := Refund(rows, posts[id], ack);
    assert Consistent(posts[id]);
    if posts[id].bucket.Some? {
      RefundNeedsNoGuard(rows, posts, id);
    }
    hide Holders;
    forall b
      ensures 0 <= Count(rows', b) <= DAILY_QUOTA && Count(rows', b) == |Holders(posts[id := p], b)|
    {
      assert 0 <= Count(rows, b) <= DAILY_QUOTA && Count(rows, b) == |Holders(posts, b)|;
      HoldersUpdate(posts, id, p, b);
    }
  }

  // A refund changes no bucket but its own, and so never another day's.
  lemma RefundTouchesItsOwnDay(rows: Rows, p: Post, ack: Ack, other: Bucket)
    requires p.bucket != Some(other)
    ensures Count(Refund(rows, p, ack).0, other) == Count(rows, other)
  {
  }

  // However often a client is refunded, no more than the quota of its requests of one day write.
  lemma WritesWithinQuota(rows: Rows, posts: map<nat, Post>, b: Bucket)
    requires QuotaInv(rows, posts)
    ensures |Writers(posts, b)| <= DAILY_QUOTA
  {
    forall id | id in Writers(posts, b)
      ensures id in Holders(posts, b)
    {
      assert Consistent(posts[id]);
    }
    SubsetSize(Writers(posts, b), Holders(posts, b));
    assert Count(rows, b) == |Holders(posts, b)| <= DAILY_QUOTA;
  }

  lemma SubsetSize(a: set<nat>, b: set<nat>)
    requires a <= b
    ensures |a| <= |b|
  {
    assert b == a + (b - a);
  }
}
