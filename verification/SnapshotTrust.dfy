// How long the snapshot lane keeps the trust of a key: exactly as long as no untrusted record was
// there from the start to be read and put back.
module SnapshotTrust {
  import opened Options
  import opened SnapshotCodec
  import opened SnapshotStore
  import opened SnapshotQuota
  import opened SnapshotProtocol

  ghost predicate Trusted(store: Store, sid: Sid) {
    var all := VersionsOf(store, sid);
    all != [] && all[|all| - 1].trusted
  }

  // A record that a first read puts back untrusted.
  ghost predicate PutsBackUntrusted(c: Codec, sid: Sid, r: Record) {
    !r.trusted && !r.extended && ReadableAs(c, sid, r).Some?
  }

  ghost predicate Threatened(c: Codec, initial: Store, sid: Sid) {
    exists r :: r in VersionsOf(initial, sid) && PutsBackUntrusted(c, sid, r)
  }

  // Whatever was put since is trusted or was put back already.
  ghost predicate PutsInv(initial: Store, store: Store, sid: Sid) {
    var before, all := VersionsOf(initial, sid), VersionsOf(store, sid);
    before <= all && forall i :: |before| <= i < |all| ==> all[i].trusted || all[i].extended
  }

  ghost predicate WaitingTrusted(w: World, sid: Sid) {
    forall e :: e in w.waiting && e.0 == sid ==> e.1.trusted
  }

  ghost predicate WaitingExtended(w: World) {
    forall e :: e in w.waiting ==> e.1.extended
  }

  ghost predicate TrustInv(initial: Store, w: World, sid: Sid) {
    PutsInv(initial, w.store, sid) && WaitingExtended(w)
  }

  lemma PutKeepsPuts(initial: Store, store: Store, sid: Sid, key: Sid, r: Record)
    requires PutsInv(initial, store, sid) && (r.trusted || r.extended)
    ensures PutsInv(initial, Putting(store, key, r), sid)
  {
    assert VersionsOf(Putting(store, key, r), sid) == VersionsOf(store, sid) + if key == sid then [r] else [];
  }

  lemma NextKeepsTrustInv(c: Codec, initial: Store, w: World, step: Step, sid: Sid)
    requires Enabled(c, w, step) && TrustInv(initial, w, sid)
    ensures TrustInv(initial, Next(c, w, step), sid)
  {
    hide PutsInv, Putting, ReadableAs, AlreadyStored, Charged, Refunded;
    match step
    case Write(id, ack) =>
      var snapshot := w.posts[id].phase.snapshot;
      PutKeepsPuts(initial, w.store, sid, c.sid(snapshot), Fresh(c, snapshot));
    case Retain(key, record, applied) =>
      PutKeepsPuts(initial, w.store, sid, key, record);
    case _ =>
  }

  lemma {:induction false} RunKeepsTrustInv(c: Codec, initial: Store, w: World, steps: seq<Step>, sid: Sid)
    requires IsRun(c, w, steps) && TrustInv(initial, w, sid)
    ensures TrustInv(initial, After(c, w, steps), sid)
    decreases |steps|
  {
    hide TrustInv, Next, Enabled;
    if steps != [] {
      NextKeepsTrustInv(c, initial, w, steps[0], sid);
      RunKeepsTrustInv(c, initial, Next(c, w, steps[0]), steps[1..], sid);
    }
  }

  // Under a key that is not threatened no read schedules an untrusted record,
  lemma ReadsTrusted(c: Codec, initial: Store, store: Store, sid: Sid, read: Read)
    requires PutsInv(initial, store, sid) && Possible(store, sid, read) && !Threatened(c, initial, sid)
    ensures var again := Answer(c, sid, read).1; again.Some? ==> again.value.trusted
  {
    hide ReadableAs;
    if Answer(c, sid, read).1.Some? {
      var r := read.record.value;
      var before, all := VersionsOf(initial, sid), VersionsOf(store, sid);
      var i :| 0 <= i < |all| && all[i] == r;
      if i < |before| {
        assert before[i] in before && all[i] == before[i];
        assert !PutsBackUntrusted(c, sid, before[i]);
      }
    }
  }

  lemma PutKeepsTrust(store: Store, sid: Sid, key: Sid, r: Record)
    requires Trusted(store, sid) && (key == sid ==> r.trusted)
    ensures Trusted(Putting(store, key, r), sid)
  {
    assert VersionsOf(Putting(store, key, r), sid) == VersionsOf(store, sid) + if key == sid then [r] else [];
  }

  // so the newest version stays trusted.
  lemma NextKeepsTrust(c: Codec, initial: Store, w: World, step: Step, sid: Sid)
    requires Enabled(c, w, step) && TrustInv(initial, w, sid) && WaitingTrusted(w, sid) && !Threatened(c, initial, sid)
    ensures WaitingTrusted(Next(c, w, step), sid)
    ensures Trusted(w.store, sid) ==> Trusted(Next(c, w, step).store, sid)
  {
    hide Answer, PutsInv, AlreadyStored, Charged, Refunded, Threatened, Putting, Trusted, Possible;
    if step.Show? && step.sid == sid {
      ReadsTrusted(c, initial, w.store, sid, step.read);
    }
    if Trusted(w.store, sid) {
      if step.Retain? {
        assert (step.sid, step.record) in w.waiting;
        PutKeepsTrust(w.store, sid, step.sid, step.record);
      } else if step.Write? {
        var snapshot := w.posts[step.id].phase.snapshot;
        PutKeepsTrust(w.store, sid, c.sid(snapshot), Fresh(c, snapshot));
      }
    }
  }

  lemma {:induction false} TrustLasts(c: Codec, initial: Store, w: World, steps: seq<Step>, sid: Sid)
    requires IsRun(c, w, steps) && TrustInv(initial, w, sid) && WaitingTrusted(w, sid) && !Threatened(c, initial, sid)
    ensures WaitingTrusted(After(c, w, steps), sid)
    ensures Trusted(w.store, sid) ==> Trusted(After(c, w, steps).store, sid)
    decreases |steps|
  {
    hide TrustInv, WaitingTrusted, Trusted, Threatened, Next, Enabled;
    if steps != [] {
      NextKeepsTrustInv(c, initial, w, steps[0], sid);
      NextKeepsTrust(c, initial, w, steps[0], sid);
      TrustLasts(c, initial, Next(c, w, steps[0]), steps[1..], sid);
    }
  }

  ghost predicate LosesTrust(c: Codec, w: World, sid: Sid, steps: seq<Step>) {
    IsRun(c, w, steps) && !Trusted(After(c, w, steps).store, sid)
  }

  // Where one was there from the start, reading it and putting it back ends the trust of its key.
  lemma TrustEnds(c: Codec, w: World, sid: Sid, r: Record) returns (steps: seq<Step>)
    requires r in VersionsOf(w.store, sid) && PutsBackUntrusted(c, sid, r)
    ensures LosesTrust(c, w, sid, steps)
  {
    var again := Retained(c, sid, r, ReadableAs(c, sid, r).value);
    steps := [Show(sid, Found(Some(r))), Retain(sid, again, true)];
    var w1 := Next(c, w, steps[0]);
    var w2 := Next(c, w1, steps[1]);
    hide IsRun, After, ReadableAs;
    assert (sid, again) in w1.waiting;
    assert VersionsOf(w2.store, sid) == VersionsOf(w1.store, sid) + [again];
    assert !Trusted(w2.store, sid);
    hide *;
    assert steps[2..] == [] && steps[0..] == steps;
    RunsNothing(c, w2);
    RunsOn(c, w1, steps, 1);
    RunsOn(c, w, steps, 0);
  }

  // After every run, a trusted key can lose its trust in some continuation exactly if a readable
  // record that is neither trusted nor put back already was there from the start.
  lemma {:induction false} TrustLost(c: Codec, initial: Store, w: World, steps: seq<Step>, sid: Sid)
    requires Initial(c, initial, w) && IsRun(c, w, steps) && Trusted(After(c, w, steps).store, sid)
    ensures (exists more :: LosesTrust(c, After(c, w, steps), sid, more)) <==> Threatened(c, initial, sid)
  {
    hide Trusted, PutsBackUntrusted, IsRun, After;
    var now := After(c, w, steps);
    RunKeepsTrustInv(c, initial, w, steps, sid);
    if Threatened(c, initial, sid) {
      var r :| r in VersionsOf(initial, sid) && PutsBackUntrusted(c, sid, r);
      assert VersionsOf(initial, sid) <= VersionsOf(now.store, sid);
      assert r in VersionsOf(now.store, sid);
      var more := TrustEnds(c, now, sid, r);
    } else {
      TrustLasts(c, initial, w, steps, sid);
      forall more
        ensures !LosesTrust(c, now, sid, more)
      {
        if IsRun(c, now, more) {
          TrustLasts(c, initial, now, more, sid);
        }
      }
    }
  }

  lemma {:induction false} RunsNothing(c: Codec, w: World)
    ensures IsRun(c, w, []) && After(c, w, []) == w
  {
  }

  lemma {:induction false} RunsOn(c: Codec, w: World, steps: seq<Step>, i: nat)
    requires i < |steps| && Enabled(c, w, steps[i]) && IsRun(c, Next(c, w, steps[i]), steps[i + 1..])
    ensures IsRun(c, w, steps[i..])
    ensures After(c, w, steps[i..]) == After(c, Next(c, w, steps[i]), steps[i + 1..])
  {
    assert steps[i..][1..] == steps[i + 1..];
  }

  // It may do so even after a write was answered: a legacy snapshot is read, a write of the same sid puts a trusted record
  // and is answered, and only then does the reader's re-put arrive.
  function Race(r: Record, snapshot: Json, again: Record, sid: Sid): seq<Step> {
    [Show(sid, Found(Some(r))), Begin(0, None, 0), Charge(0, Applied), Recompute(0, Some(snapshot)),
     Look(0, Found(Some(r))), Write(0, Applied), Retain(sid, again, true)]
  }

  function Unmetered(phase: Phase): Post {
    Post(None, false, false, false, phase)
  }

  function With(w: World, phase: Phase): World {
    w.(posts := map[0 := Unmetered(phase)])
  }

  lemma UnmeteredBegins(c: Codec, w: World)
    requires w.posts == map[]
    ensures Enabled(c, w, Begin(0, None, 0)) && Next(c, w, Begin(0, None, 0)) == With(w, Captured)
  {
  }

  lemma UnmeteredGoesOn(c: Codec, w: World, r: Record, snapshot: Json)
    requires !r.trusted && r in VersionsOf(w.store, c.sid(snapshot)) && c.verified(snapshot) == Some(snapshot)
    ensures Enabled(c, With(w, Captured), Charge(0, Applied))
    ensures Next(c, With(w, Captured), Charge(0, Applied)) == With(w, Recomputing)
    ensures Enabled(c, With(w, Recomputing), Recompute(0, Some(snapshot)))
    ensures Next(c, With(w, Recomputing), Recompute(0, Some(snapshot))) == With(w, Looking(snapshot))
    ensures Enabled(c, With(w, Looking(snapshot)), Look(0, Found(Some(r))))
    ensures Next(c, With(w, Looking(snapshot)), Look(0, Found(Some(r)))) == With(w, Writing(snapshot))
  {
    hide VersionsOf;
  }

  // The writer of that run, up to its write: what it finds is untrusted, so it writes.
  lemma {:induction false} WriterReady(c: Codec, w: World, steps: seq<Step>, r: Record, snapshot: Json)
    requires |steps| == 7 && w.posts == map[] && !r.trusted && r in VersionsOf(w.store, c.sid(snapshot))
    requires c.verified(snapshot) == Some(snapshot)
    requires steps[1..5] == [Begin(0, None, 0), Charge(0, Applied), Recompute(0, Some(snapshot)), Look(0, Found(Some(r)))]
    requires IsRun(c, With(w, Writing(snapshot)), steps[5..])
    ensures IsRun(c, w, steps[1..])
    ensures After(c, w, steps[1..]) == After(c, With(w, Writing(snapshot)), steps[5..])
  {
    var w2 := With(w, Captured);
    var w3 := With(w, Recomputing);
    var w4 := With(w, Looking(snapshot));
    var w5 := With(w, Writing(snapshot));
    assert forall i :: 1 <= i < 5 ==> steps[i] == steps[1..5][i - 1];
    hide *;
    UnmeteredBegins(c, w);
    UnmeteredGoesOn(c, w, r, snapshot);
    RunsOn(c, w4, steps, 4);
    RunsOn(c, w3, steps, 3);
    RunsOn(c, w2, steps, 2);
    RunsOn(c, w, steps, 1);
  }

  // Its write and, after that, the re-put.
  lemma {:induction false} RaceEnds(c: Codec, w: World, steps: seq<Step>, snapshot: Json, again: Record)
    requires |steps| == 7 && w.posts == map[0 := Unmetered(Writing(snapshot))] && !again.trusted
    requires (c.sid(snapshot), again) in w.waiting
    requires steps[5] == Write(0, Applied) && steps[6] == Retain(c.sid(snapshot), again, true)
    ensures IsRun(c, w, steps[5..])
    ensures Created(c.sid(snapshot)) in After(c, w, steps[5..]).served
    ensures !Trusted(After(c, w, steps[5..]).store, c.sid(snapshot))
  {
    hide IsRun, After;
    var sid := c.sid(snapshot);
    var w6 := Next(c, w, steps[5]);
    var w7 := Next(c, w6, steps[6]);
    assert VersionsOf(w7.store, sid) == VersionsOf(w6.store, sid) + [again];
    assert !Trusted(w7.store, sid) && Created(sid) in w7.served;
    hide *;
    assert steps[7..] == [];
    RunsNothing(c, w7);
    RunsOn(c, w6, steps, 6);
    RunsOn(c, w, steps, 5);
  }

  lemma {:induction false} TrustDowngrade(c: Codec, initial: Store, w: World, r: Record, snapshot: Json)
    requires c.Lawful() && Initial(c, initial, w) && c.verified(snapshot) == Some(snapshot)
    requires r in VersionsOf(initial, c.sid(snapshot)) && !r.trusted && !r.extended
    requires ReadableAs(c, c.sid(snapshot), r).Some?
    ensures var sid := c.sid(snapshot);
      var steps := Race(r, snapshot, Retained(c, sid, r, ReadableAs(c, sid, r).value), sid);
      && IsRun(c, w, steps)
      && Created(sid) in After(c, w, steps).served
      && !Trusted(After(c, w, steps).store, sid)
  {
    hide IsRun, After, Trusted;
    var sid := c.sid(snapshot);
    var again := Retained(c, sid, r, ReadableAs(c, sid, r).value);
    var steps := Race(r, snapshot, again, sid);
    var w1 := Next(c, w, steps[0]);
    assert w1.waiting == multiset{(sid, again)} && w1.store == initial && w1.posts == map[];
    assert steps[1..5] == [Begin(0, None, 0), Charge(0, Applied), Recompute(0, Some(snapshot)), Look(0, Found(Some(r)))];
    hide ReadableAs, VersionsOf, Next, Retained;
    var w5 := With(w1, Writing(snapshot));
    RaceEnds(c, w5, steps, snapshot, again);
    WriterReady(c, w1, steps, r, snapshot);
    RunsOn(c, w, steps, 0);
    assert steps[0..] == steps;
  }
}
