// What the snapshot lane of functions/selector-snapshot/[[path]].ts answers: to a read by the record it
// finds, and to a request at each of its steps.
module SnapshotAnswers {
  import opened Options
  import opened SnapshotCodec
  import opened SnapshotQuota
  import opened SnapshotStore
  import opened SnapshotProtocol

  // -------------------------------------------------------------- records

  // A record shows a snapshot under a key: its text decodes to a document that its validator makes into
  // the snapshot, and the key is the snapshot's, the legacy key on record, or for an untrusted record
  // that of the document itself.
  ghost predicate Shows(c: Codec, sid: Sid, r: Record, s: Json) {
    exists document ::
      && r.value != "" && c.decode(r.value) == Some(document)
      && (if r.trusted then c.verified(document) else c.validate(document)) == Some(s)
      && (sid == c.sid(s) || r.legacySid == Some(sid) || (!r.trusted && sid == c.sid(document)))
  }

  lemma ReadableExactly(c: Codec, sid: Sid, r: Record)
    ensures forall s :: ReadableAs(c, sid, r) == Some(s) <==> Shows(c, sid, r, s)
  {
  }

  // What a write leaves is shown under the key of its snapshot alone, and what a first read puts back
  // under that and the key that was read.
  lemma WrittenShows(c: Codec, s: Json)
    requires c.Lawful() && c.verified(s) == Some(s)
    ensures forall key, shown :: Shows(c, key, Fresh(c, s), shown) <==> shown == s && key == c.sid(s)
    ensures !Fresh(c, s).extended && Fresh(c, s).trusted
  {
    assert c.decode(c.encode(s)) == Some(s);
  }

  lemma PutBackShows(c: Codec, sid: Sid, r: Record, s: Json)
    requires c.Lawful() && Shows(c, sid, r, s)
    ensures var again := Retained(c, sid, r, s);
      && again.extended && again.trusted == r.trusted
      && (again.legacySid.None? <==> sid == c.sid(s)) && (again.legacySid.Some? ==> again.legacySid == Some(sid))
      && forall key, shown :: Shows(c, key, again, shown) <==> shown == s && (key == sid || key == c.sid(s))
  {
    assert c.decode(c.encode(s)) == Some(s);
    assert c.Validator(r.trusted)(s) == Some(s);
  }

  // -------------------------------------------------------------- reads

  ghost predicate ShowsSome(c: Codec, sid: Sid, r: Record) {
    exists s :: Shows(c, sid, r, s)
  }

  // A read that fails is answered as unavailable, one that finds nothing or an empty record as not found,
  // one that finds a record which shows nothing as malformed; and any other gets the text of what its
  // record shows, put back for good exactly if it was not before.
  lemma AnswerMeans(c: Codec, sid: Sid, read: Read)
    ensures var (reply, again) := Answer(c, sid, read);
      && (reply.Unavailable? <==> read.Failed?)
      && (reply.NotFound? <==> read.Found? && (read.record.None? || read.record.value.value == ""))
      && (reply.Malformed? <==>
            read.Found? && read.record.Some? && read.record.value.value != "" && !ShowsSome(c, sid, read.record.value))
      && (again.Some? <==> read.Found? && read.record.Some? && ShowsSome(c, sid, read.record.value) && !read.record.value.extended)
      && forall r, s :: read == Found(Some(r)) && Shows(c, sid, r, s) ==>
           reply == Body(c.encode(s)) && (again.Some? ==> again.value == Retained(c, sid, r, s))
  {
    if read.Found? && read.record.Some? {
      var r := read.record.value;
      ReadableExactly(c, sid, r);
      hide Shows, ReadableAs;
      if ReadableAs(c, sid, r).Some? {
        assert Shows(c, sid, r, ReadableAs(c, sid, r).value);
      }
      assert r.value == "" ==> !ShowsSome(c, sid, r) by {
        NothingShows(c, sid, r);
      }
    }
  }

  lemma NothingShows(c: Codec, sid: Sid, r: Record)
    ensures r.value == "" ==> !ShowsSome(c, sid, r)
  {
  }

  // A write is spared exactly if the record found is trusted and shows a snapshot of that very key.
  lemma StoredExactly(c: Codec, sid: Sid, read: Read)
    ensures AlreadyStored(c, sid, read) <==>
      exists r, s :: read == Found(Some(r)) && r.trusted && Shows(c, sid, r, s) && c.sid(s) == sid
  {
    if AlreadyStored(c, sid, read) {
      var r := read.record.value;
      assert Shows(c, sid, r, c.verified(c.decode(r.value).value).value);
    }
  }

  // -------------------------------------------------------------- the steps of a request

  predicate OwnStep(step: Step, id: nat) {
    match step
    case Begin(own, _, _) => own == id
    case Charge(own, _) => own == id
    case Recompute(own, _) => own == id
    case GiveBack(own, _) => own == id
    case Look(own, _) => own == id
    case Write(own, _) => own == id
    case Show(_, _) => false
    case Retain(_, _, _) => false
  }

  // No other step moves a request, and no answer is taken back.
  lemma OthersLeave(c: Codec, w: World, step: Step, id: nat)
    requires Enabled(c, w, step)
    ensures w.served <= Next(c, w, step).served
    ensures !OwnStep(step, id) ==>
      && (id in Next(c, w, step).posts <==> id in w.posts)
      && (id in w.posts ==> Next(c, w, step).posts[id] == w.posts[id])
  {
    hide Answer, AlreadyStored, Charged, Refunded, Putting, Fresh;
  }

  // A request goes on past its reservation exactly if it is not metered, or its charge took effect, was
  // within the quota and was acknowledged; a charge counts exactly if it took effect within the quota.
  predicate GoesOn(w: World, id: nat, ack: Ack)
    requires id in w.posts
  {
    w.posts[id].bucket.None? || (ack.Applied? && Count(w.rows, w.posts[id].bucket.value) < 100)
  }

  lemma ChargeMeans(c: Codec, w: World, id: nat, ack: Ack)
    requires Enabled(c, w, Charge(id, ack))
    ensures var after := Next(c, w, Charge(id, ack));
      var p := w.posts[id];
      && id in after.posts && after.posts[id].bucket == p.bucket
      && after.posts[id].phase == (if GoesOn(w, id, ack) then Recomputing else Done)
      && forall b :: Count(after.rows, b) ==
           Count(w.rows, b) + if p.bucket == Some(b) && !ack.NotApplied? && Count(w.rows, b) < 100 then 1 else 0
  {
  }

  // A request that could not be recomputed gives its unit back, and ends.
  lemma GiveBackMeans(c: Codec, w: World, id: nat, ack: Ack)
    requires Enabled(c, w, GiveBack(id, ack)) && QuotaInv(w.rows, w.posts)
    ensures var after := Next(c, w, GiveBack(id, ack));
      var p := w.posts[id];
      && id in after.posts && after.posts[id].phase.Done? && after.served == w.served && after.store == w.store
      && forall b :: Count(after.rows, b) == Count(w.rows, b) - if p.bucket == Some(b) && !ack.NotApplied? then 1 else 0
  {
    if w.posts[id].bucket.Some? {
      RefundNeedsNoGuard(w.rows, w.posts, id);
    }
    hide QuotaInv;
  }

  lemma RecomputeMeans(c: Codec, w: World, id: nat, result: Option<Json>)
    requires Enabled(c, w, Recompute(id, result))
    ensures var after := Next(c, w, Recompute(id, result));
      && id in after.posts
      && after.posts[id].phase == match result case Some(s) => Looking(s) case None => Refunding
  {
  }

  // One that finds its snapshot stored is answered at once, and any other writes.
  lemma LookMeans(c: Codec, w: World, id: nat, read: Read)
    requires Enabled(c, w, Look(id, read))
    ensures var after := Next(c, w, Look(id, read));
      var s := w.posts[id].phase.snapshot;
      && id in after.posts && after.store == w.store
      && if AlreadyStored(c, c.sid(s), read) then
           after.posts[id].phase.Done? && after.served == w.served + {Created(c.sid(s))}
         else
           after.posts[id].phase == Writing(s) && after.served == w.served
  {
    hide AlreadyStored;
  }

  // A write that is applied is answered; and whether or not its answer comes, from then on the newest
  // version of its key is a trusted record of the snapshot.
  lemma WriteMeans(c: Codec, w: World, id: nat, ack: Ack)
    requires c.Lawful() && Enabled(c, w, Write(id, ack)) && Carries(c, w.posts[id])
    ensures var after := Next(c, w, Write(id, ack));
      var s := w.posts[id].phase.snapshot;
      var all := VersionsOf(after.store, c.sid(s));
      && id in after.posts && after.posts[id].phase.Done?
      && after.served == (if ack.Applied? then w.served + {Created(c.sid(s))} else w.served)
      && (ack.NotApplied? ==> after.store == w.store)
      && (!ack.NotApplied? ==>
            && all != [] && all[..|all| - 1] == VersionsOf(w.store, c.sid(s))
            && all[|all| - 1].trusted && Shows(c, c.sid(s), all[|all| - 1], s))
  {
    var s := w.posts[id].phase.snapshot;
    WrittenShows(c, s);
    hide Shows, Fresh;
  }

  // A re-put that is applied adds its record as the newest version of its key, one that fails adds none;
  // either way it is over.
  lemma RetainMeans(c: Codec, w: World, sid: Sid, record: Record, applied: bool, key: Sid)
    requires Enabled(c, w, Retain(sid, record, applied))
    ensures var after := Next(c, w, Retain(sid, record, applied));
      && VersionsOf(after.store, key) == VersionsOf(w.store, key) + (if applied && key == sid then [record] else [])
      && after.waiting + multiset{(sid, record)} == w.waiting
      && after.posts == w.posts && after.rows == w.rows && after.served == w.served
  {
  }

  // -------------------------------------------------------------- over runs

  lemma {:induction false} AnswersStay(c: Codec, w: World, steps: seq<Step>)
    requires IsRun(c, w, steps)
    ensures w.served <= After(c, w, steps).served
    decreases |steps|
  {
    hide Next, Enabled;
    if steps != [] {
      OthersLeave(c, w, steps[0], 0);
      AnswersStay(c, Next(c, w, steps[0]), steps[1..]);
    }
  }

  lemma ShowAnswers(c: Codec, w: World, sid: Sid, r: Record, s: Json)
    requires Enabled(c, w, Show(sid, Found(Some(r)))) && Shows(c, sid, r, s)
    ensures var after := Next(c, w, Show(sid, Found(Some(r))));
      && after.served == w.served + {Shown(sid, c.encode(s))} && after.store == w.store
      && after.waiting == w.waiting + if r.extended then multiset{} else multiset{(sid, Retained(c, sid, r, s))}
  {
    AnswerMeans(c, sid, Found(Some(r)));
    hide Answer, Shows, Retained;
  }

  // In every run each read that finds a record which shows a snapshot is answered with it.
  lemma {:induction false} ReadsAnswered(c: Codec, w: World, steps: seq<Step>, sid: Sid, r: Record, s: Json)
    requires IsRun(c, w, steps) && Show(sid, Found(Some(r))) in steps && Shows(c, sid, r, s)
    ensures Shown(sid, c.encode(s)) in After(c, w, steps).served
    decreases |steps|
  {
    hide Next, Enabled, Shows;
    var rest := Next(c, w, steps[0]);
    if steps[0] == Show(sid, Found(Some(r))) {
      ShowAnswers(c, w, sid, r, s);
      AnswersStay(c, rest, steps[1..]);
    } else {
      assert steps == [steps[0]] + steps[1..];
      ReadsAnswered(c, rest, steps[1..], sid, r, s);
    }
  }

  // Whatever version the lane itself put under a key can be read in the world it is found in, and is
  // answered with a snapshot servable there.
  lemma {:induction false} PutsAreShown(c: Codec, initial: Store, w: World, steps: seq<Step>, sid: Sid, i: nat)
    requires c.Lawful() && Initial(c, initial, w) && IsRun(c, w, steps)
    requires |VersionsOf(initial, sid)| <= i < |VersionsOf(After(c, w, steps).store, sid)|
    ensures var now := After(c, w, steps);
      var read := Show(sid, Found(Some(VersionsOf(now.store, sid)[i])));
      && Enabled(c, now, read)
      && exists s :: Servable(c, initial, sid, s) && Shown(sid, c.encode(s)) in Next(c, now, read).served
  {
    InitialInv(c, initial, w);
    RunKeepsInv(c, initial, w, steps);
    var now := After(c, w, steps);
    var r := VersionsOf(now.store, sid)[i];
    assert StoreInv(c, initial, now.store);
    assert Sound(c, initial, sid, r);
    var s := ReadableAs(c, sid, r).value;
    ReadableExactly(c, sid, r);
    hide *;
    ShowAnswers(c, now, sid, r, s) by {
      CanBeRead(c, now, sid, i);
    }
    CanBeRead(c, now, sid, i);
  }

  lemma CanBeRead(c: Codec, w: World, sid: Sid, i: nat)
    requires i < |VersionsOf(w.store, sid)|
    ensures Enabled(c, w, Show(sid, Found(Some(VersionsOf(w.store, sid)[i]))))
  {
  }

  // A write that failed or whose answer was lost.
  ghost predicate Unanswered(steps: seq<Step>, id: nat) {
    Write(id, NotApplied) in steps || Write(id, AnswerLost) in steps
  }

  // A request with a snapshot is answered with its key once its write is applied; and it does not end
  // without that answer unless its write failed or lost its own.
  ghost predicate Completes(c: Codec, steps: seq<Step>, id: nat, s: Json, now: World) {
    && id in now.posts
    && (Write(id, Applied) in steps ==> Created(c.sid(s)) in now.served)
    && (now.posts[id].phase.Done? ==> Created(c.sid(s)) in now.served || Unanswered(steps, id))
  }

  // How far a request has come, and what the rest of a run makes of it.
  ghost predicate Proceeds(c: Codec, w: World, steps: seq<Step>, id: nat, now: World)
    requires id in w.posts
  {
    id in now.posts
    && match w.posts[id].phase
    case Captured => forall s :: Recompute(id, Some(s)) in steps ==> Completes(c, steps, id, s, now)
    case Recomputing =>
      && (now.posts[id].phase.Recomputing? || exists result :: Recompute(id, result) in steps)
      && forall s :: Recompute(id, Some(s)) in steps ==> Completes(c, steps, id, s, now)
    case Refunding => forall s :: Recompute(id, Some(s)) !in steps
    case Looking(s) => Completes(c, steps, id, s, now) && forall t :: Recompute(id, t) !in steps
    case Writing(s) => Completes(c, steps, id, s, now) && forall t :: Recompute(id, t) !in steps
    case Done => now.posts[id].phase.Done? && forall step :: step in steps ==> !OwnStep(step, id)
  }

  lemma InCons(step: Step, rest: seq<Step>)
    ensures forall t :: t in [step] + rest <==> t == step || t in rest
  {
  }

  lemma OthersProceed(c: Codec, w: World, step: Step, after: World, rest: seq<Step>, id: nat, now: World)
    requires !OwnStep(step, id) && id in w.posts && id in after.posts && after.posts[id] == w.posts[id]
    requires Proceeds(c, after, rest, id, now)
    ensures Proceeds(c, w, [step] + rest, id, now)
  {
    InCons(step, rest);
    assert forall result :: Recompute(id, result) in rest ==> Recompute(id, result) in [step] + rest;
  }

  // A request that has its snapshot, before its write and after it.
  lemma SnapshotProceeds(c: Codec, w: World, step: Step, rest: seq<Step>, id: nat, now: World)
    requires Enabled(c, w, step) && OwnStep(step, id) && id in w.posts
    requires w.posts[id].phase.Looking? || w.posts[id].phase.Writing?
    requires var after := Next(c, w, step); id in after.posts && Proceeds(c, after, rest, id, now) && after.served <= now.served
    ensures Proceeds(c, w, [step] + rest, id, now)
  {
    InCons(step, rest);
    hide AlreadyStored, Putting, Fresh;
    if step.Look? {
      LookMeans(c, w, id, step.read);
    } else {
      assert step == Write(id, step.ack);
    }
  }

  lemma EarlyProceeds(c: Codec, w: World, step: Step, rest: seq<Step>, id: nat, now: World)
    requires Enabled(c, w, step) && OwnStep(step, id) && id in w.posts
    requires !w.posts[id].phase.Looking? && !w.posts[id].phase.Writing?
    requires var after := Next(c, w, step); id in after.posts && Proceeds(c, after, rest, id, now) && after.served <= now.served
    ensures Proceeds(c, w, [step] + rest, id, now)
  {
    InCons(step, rest);
    hide Charged, Refunded;
    if step.Recompute? {
      assert step == Recompute(id, step.result);
      assert step in [step] + rest;
    }
    forall s | Recompute(id, Some(s)) in [step] + rest && Completes(c, rest, id, s, now)
      ensures !step.Write? && Completes(c, [step] + rest, id, s, now)
    {
    }
  }

  lemma StopsHere(c: Codec, w: World, id: nat)
    requires id in w.posts
    ensures Proceeds(c, w, [], id, w)
  {
  }

  lemma {:induction false} RunProceeds(c: Codec, w: World, steps: seq<Step>, id: nat)
    requires IsRun(c, w, steps) && id in w.posts
    ensures Proceeds(c, w, steps, id, After(c, w, steps))
    decreases |steps|
  {
    hide Next, Enabled, Proceeds, OwnStep;
    if steps == [] {
      StopsHere(c, w, id);
    } else {
      var step, rest := steps[0], steps[1..];
      var after := Next(c, w, step);
      assert steps == [step] + rest;
      OthersLeave(c, w, step, id);
      StaysKnown(c, w, step, id);
      RunProceeds(c, after, rest, id);
      AnswersStay(c, after, rest);
      var now := After(c, after, rest);
      if !OwnStep(step, id) {
        OthersProceed(c, w, step, after, rest, id, now);
      } else if w.posts[id].phase.Looking? || w.posts[id].phase.Writing? {
        SnapshotProceeds(c, w, step, rest, id, now);
      } else {
        EarlyProceeds(c, w, step, rest, id, now);
      }
    }
  }

  lemma StaysKnown(c: Codec, w: World, step: Step, id: nat)
    requires Enabled(c, w, step) && id in w.posts
    ensures id in Next(c, w, step).posts
  {
    hide Answer, AlreadyStored, Charged, Refunded, Putting, Fresh;
  }

  // In every run, whatever else goes on: a request that was recomputed is answered with the key of its
  // snapshot once its write is applied, and never ends without that answer unless its write failed or
  // lost its own.
  lemma {:induction false} RequestsAnswered(c: Codec, w: World, steps: seq<Step>, id: nat, s: Json)
    requires IsRun(c, w, steps) && id !in w.posts && Recompute(id, Some(s)) in steps
    ensures Completes(c, steps, id, s, After(c, w, steps))
    decreases |steps|
  {
    hide Next, Proceeds;
    var step, rest := steps[0], steps[1..];
    assert steps == [step] + rest;
    InCons(step, rest);
    assert step != Recompute(id, Some(s));
    if id in Next(c, w, step).posts {
      NewIsCaptured(c, w, step, id);
      RunProceeds(c, Next(c, w, step), rest, id);
      CapturedCompletes(c, Next(c, w, step), rest, id, s, After(c, w, steps));
    } else {
      RequestsAnswered(c, Next(c, w, step), rest, id, s);
      assert !step.Write? || step.id != id;
    }
  }

  lemma NewIsCaptured(c: Codec, w: World, step: Step, id: nat)
    requires Enabled(c, w, step) && id !in w.posts && id in Next(c, w, step).posts
    ensures step.Begin? && Next(c, w, step).posts[id] == Capture(step.ip, step.today)
    ensures Next(c, w, step).posts[id].bucket == match step.ip case Some(ip) => Some(Bucket(step.today, ip)) case None => None
  {
    hide Answer, AlreadyStored, Charged, Refunded, Putting, Fresh;
  }

  lemma CapturedCompletes(c: Codec, w: World, steps: seq<Step>, id: nat, s: Json, now: World)
    requires id in w.posts && w.posts[id].phase.Captured? && Proceeds(c, w, steps, id, now)
    requires Recompute(id, Some(s)) in steps
    ensures Completes(c, steps, id, s, now)
  {
  }

  // And a request that goes on past its reservation is recomputing until its recomputation ends, while
  // any other has ended and takes no further step.
  lemma {:induction false} ChargedGoesOn(c: Codec, w: World, steps: seq<Step>, id: nat, ack: Ack)
    requires steps != [] && steps[0] == Charge(id, ack) && IsRun(c, w, steps)
    ensures var now := After(c, w, steps);
      && id in w.posts && id in now.posts
      && (GoesOn(w, id, ack) ==> now.posts[id].phase.Recomputing? || exists result :: Recompute(id, result) in steps[1..])
      && (!GoesOn(w, id, ack) ==> now.posts[id].phase.Done? && forall step :: step in steps[1..] ==> !OwnStep(step, id))
  {
    ChargeMeans(c, w, id, ack);
    RunProceeds(c, Next(c, w, steps[0]), steps[1..], id);
    hide Next, OwnStep, IsRun, Completes;
  }

  // What was answered as created can be read: some version of its key is shown as a verified snapshot of
  // that key.
  lemma {:induction false} CreatedIsShown(c: Codec, initial: Store, w: World, steps: seq<Step>, sid: Sid)
    requires c.Lawful() && Initial(c, initial, w) && IsRun(c, w, steps) && Created(sid) in After(c, w, steps).served
    ensures var now := After(c, w, steps);
      exists r, s ::
        && Enabled(c, now, Show(sid, Found(Some(r)))) && c.verified(s) == Some(s) && c.sid(s) == sid
        && Shown(sid, c.encode(s)) in Next(c, now, Show(sid, Found(Some(r)))).served
  {
    StoreOverRuns(c, initial, w, steps);
    var now := After(c, w, steps);
    assert Honest(c, initial, now.store, Created(sid));
    var r :| r in VersionsOf(now.store, sid) && Certified(c, sid, r);
    var s := ReadableAs(c, sid, r).value;
    ReadableExactly(c, sid, r);
    ShowAnswers(c, now, sid, r, s);
    assert c.verified(c.decode(r.value).value) == Some(s);
    assert Enabled(c, now, Show(sid, Found(Some(r))));
    hide *;
  }

  lemma {:induction false} RunsFrom(c: Codec, w: World, step: Step, rest: seq<Step>)
    requires Enabled(c, w, step) && IsRun(c, Next(c, w, step), rest)
    ensures IsRun(c, w, [step] + rest) && After(c, w, [step] + rest) == After(c, Next(c, w, step), rest)
  {
    hide Enabled, Next;
    assert ([step] + rest)[1..] == rest;
  }

  // A request of a client within quota, or without an address, can always be served to its end,
  lemma {:induction false} CanBeServed(c: Codec, w: World, id: nat, ip: Option<Ip>, today: Date, s: Json)
    requires id !in w.posts && c.verified(s) == Some(s)
    requires ip.Some? ==> Count(w.rows, Bucket(today, ip.value)) < 100
    ensures var steps :=
        [Begin(id, ip, today)] + ([Charge(id, Applied)] + ([Recompute(id, Some(s))]
          + ([Look(id, Found(None))] + ([Write(id, Applied)] + []))));
      IsRun(c, w, steps) && Created(c.sid(s)) in After(c, w, steps).served
  {
    var begun := Next(c, w, Begin(id, ip, today));
    BegunGoesOn(c, w, id, ip, today);
    RestIsServed(c, begun, id, s);
    hide *;
    RunsFrom(
      c, w, Begin(id, ip, today),
      [Charge(id, Applied)] + ([Recompute(id, Some(s))] + ([Look(id, Found(None))] + ([Write(id, Applied)] + []))));
  }

  lemma BegunGoesOn(c: Codec, w: World, id: nat, ip: Option<Ip>, today: Date)
    requires id !in w.posts && (ip.Some? ==> Count(w.rows, Bucket(today, ip.value)) < 100)
    ensures Enabled(c, w, Begin(id, ip, today))
    ensures var begun := Next(c, w, Begin(id, ip, today));
      id in begun.posts && begun.posts[id].phase.Captured? && GoesOn(begun, id, Applied)
  {
  }

  lemma {:induction false} RestIsServed(c: Codec, w: World, id: nat, s: Json)
    requires id in w.posts && w.posts[id].phase.Captured? && GoesOn(w, id, Applied) && c.verified(s) == Some(s)
    ensures var steps := [Charge(id, Applied)] + ([Recompute(id, Some(s))] + ([Look(id, Found(None))] + ([Write(id, Applied)] + [])));
      IsRun(c, w, steps) && Created(c.sid(s)) in After(c, w, steps).served
  {
    var w1 := Next(c, w, Charge(id, Applied));
    ChargeMeans(c, w, id, Applied);
    var w2 := Next(c, w1, Recompute(id, Some(s)));
    var w3 := Next(c, w2, Look(id, Found(None)));
    assert w3.posts[id].phase == Writing(s);
    var w4 := Next(c, w3, Write(id, Applied));
    assert Created(c.sid(s)) in w4.served;
    assert Enabled(c, w3, Write(id, Applied)) && Enabled(c, w2, Look(id, Found(None)));
    hide Next, Enabled;
    RunsFrom(c, w3, Write(id, Applied), []);
    RunsFrom(c, w2, Look(id, Found(None)), [Write(id, Applied)] + []);
    RunsFrom(c, w1, Recompute(id, Some(s)), [Look(id, Found(None))] + ([Write(id, Applied)] + []));
    RunsFrom(c, w, Charge(id, Applied), [Recompute(id, Some(s))] + ([Look(id, Found(None))] + ([Write(id, Applied)] + [])));
    hide *;
  }

  // and one whose recomputation fails can be undone: with its refund every count is what it was.
  lemma {:induction false} CanBeUndone(c: Codec, w: World, id: nat)
    requires id in w.posts && w.posts[id].phase.Captured? && GoesOn(w, id, Applied) && QuotaInv(w.rows, w.posts)
    ensures var steps := [Charge(id, Applied)] + ([Recompute(id, None)] + ([GiveBack(id, Applied)] + []));
      && IsRun(c, w, steps)
      && var now := After(c, w, steps);
      && id in now.posts && now.posts[id].phase.Done? && now.served == w.served && now.store == w.store
      && forall b :: Count(now.rows, b) == Count(w.rows, b)
  {
    var w1 := Next(c, w, Charge(id, Applied));
    ChargeMeans(c, w, id, Applied);
    ReserveKeepsQuota(w.rows, w.posts, id, Applied);
    var w2 := Next(c, w1, Recompute(id, None));
    RecomputeKeepsQuota(c, w1, id);
    var w3 := Next(c, w2, GiveBack(id, Applied));
    GiveBackMeans(c, w2, id, Applied);
    assert w2.rows == w1.rows && w2.posts[id].bucket == w.posts[id].bucket;
    assert Enabled(c, w1, Recompute(id, None));
    hide Next, Enabled, QuotaInv, Count;
    RunsFrom(c, w2, GiveBack(id, Applied), []);
    RunsFrom(c, w1, Recompute(id, None), [GiveBack(id, Applied)] + []);
    RunsFrom(c, w, Charge(id, Applied), [Recompute(id, None)] + ([GiveBack(id, Applied)] + []));
    hide IsRun, After;
  }

  lemma RecomputeKeepsQuota(c: Codec, w: World, id: nat)
    requires Enabled(c, w, Recompute(id, None)) && QuotaInv(w.rows, w.posts)
    ensures var after := Next(c, w, Recompute(id, None)); QuotaInv(after.rows, after.posts)
  {
    MovesConsistently(w, id);
    MoveKeepsQuota(w.rows, w.posts, id, Next(c, w, Recompute(id, None)).posts[id]);
  }
}
