// The snapshot lane of functions/selector-snapshot/[[path]].ts as a state machine: each step is
// what one request does between two awaits, and steps of any number of requests interleave.
module SnapshotProtocol {
  import opened Options
  import opened SnapshotCodec
  import opened SnapshotQuota
  import opened SnapshotStore

  datatype Served = Created(sid: Sid) | Shown(sid: Sid, text: string)

  // `waiting` holds the retention re-puts still to come; `served` all answers of status 200.
  datatype World = World(
    rows: Rows, posts: map<nat, Post>, store: Store, waiting: multiset<(Sid, Record)>, served: set<Served>)

  datatype Step =
    | Begin(id: nat, ip: Option<Ip>, today: Date)
    | Charge(id: nat, ack: Ack)
    | Recompute(id: nat, result: Option<Json>)
    | GiveBack(id: nat, ack: Ack)
    | Look(id: nat, read: Read)
    | Write(id: nat, ack: Ack)
    | Show(sid: Sid, read: Read)
    | Retain(sid: Sid, record: Record, applied: bool)

  // A read may fail, miss, or return any version that was ever put.
  ghost predicate Possible(store: Store, sid: Sid, read: Read) {
    read.Found? && read.record.Some? ==> read.record.value in VersionsOf(store, sid)
  }

  ghost predicate Enabled(c: Codec, w: World, step: Step) {
    match step
    case Begin(id, _, _) => id !in w.posts
    case Charge(id, _) => id in w.posts && w.posts[id].phase.Captured?
    case Recompute(id, result) =>
      && id in w.posts && w.posts[id].phase.Recomputing?
      && (result.Some? ==> c.verified(result.value) == result)
    case GiveBack(id, _) => id in w.posts && w.posts[id].phase.Refunding?
    case Look(id, read) =>
      && id in w.posts && w.posts[id].phase.Looking?
      && Possible(w.store, c.sid(w.posts[id].phase.snapshot), read)
    case Write(id, _) => id in w.posts && w.posts[id].phase.Writing?
    case Show(sid, read) => Possible(w.store, sid, read)
    case Retain(sid, record, _) => (sid, record) in w.waiting
  }

  function Next(c: Codec, w: World, step: Step): World
    requires Enabled(c, w, step)
  {
    match step
    case Begin(id, ip, today) => w.(posts := w.posts[id := Capture(ip, today)])
    case Charge(id, ack) =>
      var (rows, p) := Reserve(w.rows, w.posts[id], ack);
      w.(rows := rows, posts := w.posts[id := p])
    case Recompute(id, result) =>
      w.(posts := w.posts[id := w.posts[id].(phase := if result.Some? then Looking(result.value) else Refunding)])
    case GiveBack(id, ack) =>
      var (rows, p) := Refund(w.rows, w.posts[id], ack);
      w.(rows := rows, posts := w.posts[id := p])
    case Look(id, read) =>
      var snapshot := w.posts[id].phase.snapshot;
      var sid := c.sid(snapshot);
      if AlreadyStored(c, sid, read) then
        w.(posts := w.posts[id := w.posts[id].(phase := Done)], served := w.served + {Created(sid)})
      else
        w.(posts := w.posts[id := w.posts[id].(phase := Writing(snapshot))])
    case Write(id, ack) =>
      var snapshot := w.posts[id].phase.snapshot;
      var sid := c.sid(snapshot);
      w.(
        posts := w.posts[id := w.posts[id].(phase := Done, wrote := true)],
        store := if ack.NotApplied? then w.store else Putting(w.store, sid, Fresh(c, snapshot)),
        served := if ack.Applied? then w.served + {Created(sid)} else w.served)
    case Show(sid, read) =>
      var (reply, again) := Answer(c, sid, read);
      w.(
        waiting := if again.Some? then w.waiting + multiset{(sid, again.value)} else w.waiting,
        served := if reply.Body? then w.served + {Shown(sid, reply.text)} else w.served)
    case Retain(sid, record, applied) =>
      w.(
        waiting := w.waiting - multiset{(sid, record)},
        store := if applied then Putting(w.store, sid, record) else w.store)
  }

  ghost predicate Initial(c: Codec, initial: Store, w: World) {
    w == World(map[], map[], initial, multiset{}, {}) && Founded(c, initial)
  }

  // The steps of a run, each possible where it is taken, and the world they lead to.
  ghost predicate IsRun(c: Codec, w: World, steps: seq<Step>)
    decreases |steps|
  {
    steps == [] || (Enabled(c, w, steps[0]) && IsRun(c, Next(c, w, steps[0]), steps[1..]))
  }

  ghost function After(c: Codec, w: World, steps: seq<Step>): World
    requires IsRun(c, w, steps)
    decreases |steps|
  {
    if steps == [] then w else After(c, Next(c, w, steps[0]), steps[1..])
  }

  // A request carries nothing but verified snapshots, and one that wrote is done.
  ghost predicate Carries(c: Codec, p: Post) {
    && (p.phase.Looking? || p.phase.Writing? ==> c.verified(p.phase.snapshot) == Some(p.phase.snapshot))
    && (p.wrote ==> p.phase.Done?)
  }

  ghost predicate PostsInv(c: Codec, w: World) {
    forall id :: id in w.posts ==> Carries(c, w.posts[id])
  }

  ghost predicate WaitingInv(c: Codec, initial: Store, w: World) {
    forall e :: e in w.waiting ==> Sound(c, initial, e.0, e.1)
  }

  // An answer of status 200: a read shows the text of a snapshot servable for its key; a write
  // names a key under which a trusted, certified record was put.
  ghost predicate Honest(c: Codec, initial: Store, store: Store, s: Served) {
    match s
    case Created(sid) => exists r :: r in VersionsOf(store, sid) && Certified(c, sid, r)
    case Shown(sid, text) => exists snapshot :: text == c.encode(snapshot) && Servable(c, initial, sid, snapshot)
  }

  ghost predicate ServedInv(c: Codec, initial: Store, w: World) {
    forall s :: s in w.served ==> Honest(c, initial, w.store, s)
  }

  ghost predicate Inv(c: Codec, initial: Store, w: World) {
    && QuotaInv(w.rows, w.posts)
    && PostsInv(c, w)
    && StoreInv(c, initial, w.store)
    && WaitingInv(c, initial, w)
    && ServedInv(c, initial, w)
  }

  lemma InitialInv(c: Codec, initial: Store, w: World)
    requires Initial(c, initial, w)
    ensures Inv(c, initial, w)
  {
  }

  lemma NextKeepsQuota(c: Codec, w: World, step: Step)
    requires Enabled(c, w, step) && QuotaInv(w.rows, w.posts) && PostsInv(c, w)
    ensures var after := Next(c, w, step); QuotaInv(after.rows, after.posts)
  {
    hide QuotaInv, Count, Holders, Charged, Refunded, Answer, AlreadyStored;
    match step
    case Begin(id, ip, today) =>
      MoveKeepsQuota(w.rows, w.posts, id, Capture(ip, today));
    case Charge(id, ack) =>
      ReserveKeepsQuota(w.rows, w.posts, id, ack);
    case Recompute(id, result) =>
      MovesConsistently(w, id);
      MoveKeepsQuota(w.rows, w.posts, id, Next(c, w, step).posts[id]);
    case GiveBack(id, ack) =>
      RefundKeepsQuota(w.rows, w.posts, id, ack);
    case Look(id, read) =>
      MovesConsistently(w, id);
      MoveKeepsQuota(w.rows, w.posts, id, Next(c, w, step).posts[id]);
    case Write(id, ack) =>
      MovesConsistently(w, id);
      MoveKeepsQuota(w.rows, w.posts, id, Next(c, w, step).posts[id]);
    case Show(sid, read) =>
    case Retain(sid, record, applied) =>
  }

  lemma MovesConsistently(w: World, id: nat)
    requires QuotaInv(w.rows, w.posts) && id in w.posts
    ensures Consistent(w.posts[id])
  {
  }

  lemma NextKeepsPosts(c: Codec, w: World, step: Step)
    requires Enabled(c, w, step) && PostsInv(c, w)
    ensures PostsInv(c, Next(c, w, step))
  {
    hide Answer, AlreadyStored, Charged, Refunded;
  }

  lemma NextKeepsStore(c: Codec, initial: Store, w: World, step: Step)
    requires c.Lawful() && Enabled(c, w, step)
    requires PostsInv(c, w) && StoreInv(c, initial, w.store) && WaitingInv(c, initial, w)
    ensures StoreInv(c, initial, Next(c, w, step).store)
  {
    hide StoreInv, Sound, Answer, AlreadyStored, Charged, Refunded, Putting;
    match step
    case Write(id, ack) =>
      var snapshot := w.posts[id].phase.snapshot;
      assert Carries(c, w.posts[id]);
      FreshIsSound(c, initial, snapshot);
      PutKeepsStore(c, initial, w.store, c.sid(snapshot), Fresh(c, snapshot));
    case Retain(sid, record, applied) =>
      assert Sound(c, initial, (sid, record).0, (sid, record).1);
      PutKeepsStore(c, initial, w.store, sid, record);
    case _ =>
  }

  // What one read shows and schedules.
  lemma AnswerIsSound(c: Codec, initial: Store, store: Store, sid: Sid, read: Read)
    requires c.Lawful() && Founded(c, initial) && StoreInv(c, initial, store) && Possible(store, sid, read)
    ensures var (reply, again) := Answer(c, sid, read);
      && (reply.Body? ==> Honest(c, initial, store, Shown(sid, reply.text)))
      && (again.Some? ==> Sound(c, initial, sid, again.value))
  {
    hide Sound, Servable, StoreInv, Founded, ReadableAs, Retained;
    if read.Found? && read.record.Some? {
      var r := read.record.value;
      var shown := ReadableAs(c, sid, r);
      if shown.Some? {
        ReadableIsServable(c, initial, store, sid, r, shown.value);
        RetainedIsSound(c, initial, store, sid, r, shown.value);
      }
    }
  }

  lemma NextKeepsWaiting(c: Codec, initial: Store, w: World, step: Step)
    requires c.Lawful() && Founded(c, initial) && Enabled(c, w, step)
    requires StoreInv(c, initial, w.store) && WaitingInv(c, initial, w)
    ensures WaitingInv(c, initial, Next(c, w, step))
  {
    hide StoreInv, Sound, Founded, Answer, AlreadyStored, Charged, Refunded, Putting, Honest;
    var after := Next(c, w, step);
    if step.Show? {
      AnswerIsSound(c, initial, w.store, step.sid, step.read);
      var again := Answer(c, step.sid, step.read).1;
      forall e | e in after.waiting
        ensures Sound(c, initial, e.0, e.1)
      {
        assert e in w.waiting || (again.Some? && e == (step.sid, again.value));
      }
    } else {
      forall e | e in after.waiting
        ensures Sound(c, initial, e.0, e.1)
      {
        assert e in w.waiting;
      }
    }
  }

  // An honest answer stays honest as the store grows.
  lemma HonestStays(c: Codec, initial: Store, store: Store, later: Store, s: Served)
    requires Honest(c, initial, store, s)
    requires forall sid :: VersionsOf(store, sid) <= VersionsOf(later, sid)
    ensures Honest(c, initial, later, s)
  {
    hide Certified, Servable;
    if s.Created? {
      var r :| r in VersionsOf(store, s.sid) && Certified(c, s.sid, r);
      assert VersionsOf(store, s.sid) <= VersionsOf(later, s.sid);
      assert r in VersionsOf(later, s.sid);
    }
  }

  lemma StoreGrows(c: Codec, w: World, step: Step)
    requires Enabled(c, w, step)
    ensures forall sid :: VersionsOf(w.store, sid) <= VersionsOf(Next(c, w, step).store, sid)
  {
    hide Answer, AlreadyStored, Charged, Refunded;
  }

  lemma StoredIsHonest(c: Codec, initial: Store, store: Store, sid: Sid, read: Read)
    requires c.Lawful() && Founded(c, initial) && StoreInv(c, initial, store) && Possible(store, sid, read)
    requires AlreadyStored(c, sid, read)
    ensures Honest(c, initial, store, Created(sid))
  {
    var r := read.record.value;
    var shown := ReadableAs(c, sid, r);
    assert shown.Some?;
    ReadableIsServable(c, initial, store, sid, r, shown.value);
  }

  lemma WrittenIsHonest(c: Codec, initial: Store, store: Store, snapshot: Json)
    requires c.Lawful() && c.verified(snapshot) == Some(snapshot)
    ensures Honest(c, initial, Putting(store, c.sid(snapshot), Fresh(c, snapshot)), Created(c.sid(snapshot)))
  {
    var sid, r := c.sid(snapshot), Fresh(c, snapshot);
    FreshIsSound(c, initial, snapshot);
    assert VersionsOf(Putting(store, sid, r), sid) == VersionsOf(store, sid) + [r];
    assert r in VersionsOf(Putting(store, sid, r), sid);
  }

  lemma NewAnswerIsHonest(c: Codec, initial: Store, w: World, step: Step, s: Served)
    requires c.Lawful() && Founded(c, initial) && Enabled(c, w, step)
    requires PostsInv(c, w) && StoreInv(c, initial, w.store)
    requires s in Next(c, w, step).served && s !in w.served
    ensures Honest(c, initial, Next(c, w, step).store, s)
  {
    hide Honest, StoreInv, Founded, Answer, AlreadyStored, Charged, Refunded, Putting, Servable, Fresh;
    match step
    case Look(id, read) =>
      StoredIsHonest(c, initial, w.store, c.sid(w.posts[id].phase.snapshot), read);
    case Write(id, ack) =>
      assert Carries(c, w.posts[id]);
      WrittenIsHonest(c, initial, w.store, w.posts[id].phase.snapshot);
    case Show(sid, read) =>
      AnswerIsSound(c, initial, w.store, sid, read);
    case _ =>
  }

  lemma NextKeepsServed(c: Codec, initial: Store, w: World, step: Step)
    requires c.Lawful() && Founded(c, initial) && Enabled(c, w, step)
    requires PostsInv(c, w) && StoreInv(c, initial, w.store) && ServedInv(c, initial, w)
    ensures ServedInv(c, initial, Next(c, w, step))
  {
    hide Honest, StoreInv, Founded, Next, Enabled, PostsInv;
    var after := Next(c, w, step);
    StoreGrows(c, w, step);
    forall s | s in after.served
      ensures Honest(c, initial, after.store, s)
    {
      if s in w.served {
        HonestStays(c, initial, w.store, after.store, s);
      } else {
        NewAnswerIsHonest(c, initial, w, step, s);
      }
    }
  }

  lemma NextKeepsInv(c: Codec, initial: Store, w: World, step: Step)
    requires c.Lawful() && Founded(c, initial) && Enabled(c, w, step) && Inv(c, initial, w)
    ensures Inv(c, initial, Next(c, w, step))
  {
    hide QuotaInv, PostsInv, StoreInv, WaitingInv, ServedInv, Founded, Enabled, Next;
    NextKeepsQuota(c, w, step);
    NextKeepsPosts(c, w, step);
    NextKeepsStore(c, initial, w, step);
    NextKeepsWaiting(c, initial, w, step);
    NextKeepsServed(c, initial, w, step);
  }

  // Every world that a run can reach, in every interleaving, keeps the invariant.
  lemma {:induction false} RunKeepsInv(c: Codec, initial: Store, w: World, steps: seq<Step>)
    requires c.Lawful() && Founded(c, initial) && Inv(c, initial, w) && IsRun(c, w, steps)
    ensures Inv(c, initial, After(c, w, steps))
    decreases |steps|
  {
    hide Inv, Enabled, Next, Founded;
    if steps != [] {
      NextKeepsInv(c, initial, w, steps[0]);
      RunKeepsInv(c, initial, Next(c, w, steps[0]), steps[1..]);
    }
  }

  // The quota over every run: each counter stays within bounds and counts exactly the requests
  // charged to its day and client and not refunded, and no more of them than the quota wrote.
  lemma {:induction false} QuotaOverRuns(c: Codec, initial: Store, w: World, steps: seq<Step>, b: Bucket)
    requires c.Lawful() && Initial(c, initial, w) && IsRun(c, w, steps)
    ensures var now := After(c, w, steps);
      && 0 <= Count(now.rows, b) <= DAILY_QUOTA
      && Count(now.rows, b) == |Holders(now.posts, b)|
      && |Writers(now.posts, b)| <= DAILY_QUOTA
  {
    InitialInv(c, initial, w);
    RunKeepsInv(c, initial, w, steps);
    var now := After(c, w, steps);
    WritesWithinQuota(now.rows, now.posts, b);
  }

  // The store over every run: a trusted record that a reader can use certifies its key, and all
  // answers of status 200 are honest.
  lemma {:induction false} StoreOverRuns(c: Codec, initial: Store, w: World, steps: seq<Step>)
    requires c.Lawful() && Initial(c, initial, w) && IsRun(c, w, steps)
    ensures var now := After(c, w, steps);
      && (forall sid, r :: r in VersionsOf(now.store, sid) && r.trusted && ReadableAs(c, sid, r).Some? ==> Certified(c, sid, r))
      && (forall s :: s in now.served ==> Honest(c, initial, now.store, s))
  {
    InitialInv(c, initial, w);
    RunKeepsInv(c, initial, w, steps);
    var now := After(c, w, steps);
    forall sid, r | r in VersionsOf(now.store, sid) && r.trusted && ReadableAs(c, sid, r).Some?
      ensures Certified(c, sid, r)
    {
      ReadableIsServable(c, initial, now.store, sid, r, ReadableAs(c, sid, r).value);
    }
  }

  // The newest version under a key can be read.
  ghost predicate Readable(c: Codec, store: Store, sid: Sid) {
    var all := VersionsOf(store, sid);
    all != [] && ReadableAs(c, sid, all[|all| - 1]).Some?
  }

  // No step, a retention re-put least of all, makes a readable key unreadable.
  lemma ReadableStays(c: Codec, initial: Store, w: World, step: Step, sid: Sid)
    requires c.Lawful() && Founded(c, initial) && Enabled(c, w, step) && Inv(c, initial, w)
    requires Readable(c, w.store, sid)
    ensures Readable(c, Next(c, w, step).store, sid)
  {
    NextKeepsInv(c, initial, w, step);
    StoreGrows(c, w, step);
    NewestIsSound(c, initial, w.store, Next(c, w, step).store, sid);
  }

  lemma NewestIsSound(c: Codec, initial: Store, store: Store, later: Store, sid: Sid)
    requires StoreInv(c, initial, later) && Readable(c, store, sid)
    requires VersionsOf(store, sid) <= VersionsOf(later, sid)
    requires VersionsOf(initial, sid) <= VersionsOf(store, sid)
    ensures Readable(c, later, sid)
  {
    hide ReadableAs, Servable, Certified;
    var all := VersionsOf(later, sid);
    if |all| > |VersionsOf(initial, sid)| {
      assert Sound(c, initial, sid, all[|all| - 1]);
    } else {
      assert all == VersionsOf(store, sid);
    }
  }

  lemma {:induction false} ReadableOverRuns(c: Codec, initial: Store, w: World, steps: seq<Step>, sid: Sid)
    requires c.Lawful() && Founded(c, initial) && Inv(c, initial, w) && IsRun(c, w, steps)
    requires Readable(c, w.store, sid)
    ensures Readable(c, After(c, w, steps).store, sid)
    decreases |steps|
  {
    hide Inv, Enabled, Next, Founded, Readable;
    if steps != [] {
      ReadableStays(c, initial, w, steps[0], sid);
      NextKeepsInv(c, initial, w, steps[0]);
      ReadableOverRuns(c, initial, Next(c, w, steps[0]), steps[1..], sid);
    }
  }
}
