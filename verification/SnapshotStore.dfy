// The content-addressed snapshot store of functions/selector-snapshot/[[path]].ts: what a stored
// record is worth to a reader of a key, what the first read puts back for the full retention time,
// what a write leaves, and what every record that the lane puts keeps.
module SnapshotStore {
  import opened Options
  import opened SnapshotCodec

  datatype Record = Record(value: string, extended: bool, legacySid: Option<Sid>, trusted: bool)

  // All versions that were ever put under a key; a read may return any of them, or none.
  type Versions = seq<Record>
  type Store = map<Sid, Versions>

  function VersionsOf(store: Store, sid: Sid): Versions {
    if sid in store then store[sid] else []
  }

  function Putting(store: Store, sid: Sid, r: Record): Store {
    store[sid := VersionsOf(store, sid) + [r]]
  }

  // The snapshot that a reader of `sid` gets from a record, if the record is admissible there: its
  // normal form hashes to the key, or the record names the key as its legacy sid, or the record is
  // untrusted and its document as stored hashes to the key.
  function ReadableAs(c: Codec, sid: Sid, r: Record): Option<Json> {
    if r.value == "" then None
    else
      var document :- c.decode(r.value);
      var snapshot :- c.Validator(r.trusted)(document);
      if c.sid(snapshot) == sid || r.legacySid == Some(sid) || (!r.trusted && c.sid(document) == sid) then
        Some(snapshot)
      else
        None
  }

  // What the first read puts back for the full retention time.
  function Retained(c: Codec, sid: Sid, r: Record, snapshot: Json): Record {
    Record(c.encode(snapshot), true, if c.sid(snapshot) == sid then None else Some(sid), r.trusted)
  }

  // What a write puts.
  function Fresh(c: Codec, snapshot: Json): Record {
    Record(c.encode(snapshot), false, None, true)
  }

  datatype Reply = NotFound | Malformed | Unavailable | Body(text: string)

  datatype Read = Failed | Found(record: Option<Record>)

  // `handleGet` up to its answer, with the record it will put back, if any.
  function Answer(c: Codec, sid: Sid, read: Read): (Reply, Option<Record>) {
    if read.Failed? then (Unavailable, None)
    else if read.record.None? || read.record.value.value == "" then (NotFound, None)
    else
      var r := read.record.value;
      match ReadableAs(c, sid, r)
      case None => (Malformed, None)
      case Some(snapshot) => (Body(c.encode(snapshot)), if r.extended then None else Some(Retained(c, sid, r, snapshot)))
  }

  // Whether a write finds its snapshot already stored, trusted and intact.
  predicate AlreadyStored(c: Codec, sid: Sid, read: Read) {
    && read.Found? && read.record.Some?
    && var r := read.record.value;
    && r.value != "" && r.trusted
    && var document := c.decode(r.value);
    && document.Some?
    && var snapshot := c.verified(document.value);
    && snapshot.Some? && c.sid(snapshot.value) == sid
  }

  // The retention re-put: a later reader of the key gets the very snapshot that the first one got,
  // and the record keeps its trust, even where normalisation changed the snapshot's own sid.
  lemma RetainedReadsTheSame(c: Codec, sid: Sid, r: Record, snapshot: Json)
    requires c.Lawful() && ReadableAs(c, sid, r) == Some(snapshot)
    ensures ReadableAs(c, sid, Retained(c, sid, r, snapshot)) == Some(snapshot)
    ensures Retained(c, sid, r, snapshot).trusted == r.trusted
  {
    var document := c.decode(r.value).value;
    assert c.Validator(r.trusted)(document) == Some(snapshot);
    assert c.decode(c.encode(snapshot)) == Some(snapshot);
  }

  // A write is readable under its own sid.
  lemma FreshIsReadable(c: Codec, snapshot: Json)
    requires c.Lawful() && c.verified(snapshot) == Some(snapshot)
    ensures ReadableAs(c, c.sid(snapshot), Fresh(c, snapshot)) == Some(snapshot)
  {
    assert c.decode(c.encode(snapshot)) == Some(snapshot);
  }

  // A trusted record certifies its key: what it decodes to is verified and hashes to the key.
  ghost predicate Certified(c: Codec, sid: Sid, r: Record) {
    && r.trusted
    && ReadableAs(c, sid, r).Some?
    && c.sid(ReadableAs(c, sid, r).value) == sid
    && c.sid(c.decode(r.value).value) == sid
  }

  // A snapshot that the key `sid` may serve: it is verified and hashes to the key, or it is the
  // normal form of an untrusted record that the store held for the key from the start.
  ghost predicate Servable(c: Codec, initial: Store, sid: Sid, snapshot: Json) {
    || (c.verified(snapshot) == Some(snapshot) && c.sid(snapshot) == sid)
    || (exists r :: r in VersionsOf(initial, sid) && !r.trusted && ReadableAs(c, sid, r) == Some(snapshot))
  }

  // Every record that the lane itself puts.
  ghost predicate Sound(c: Codec, initial: Store, sid: Sid, r: Record) {
    && ReadableAs(c, sid, r).Some?
    && (r.trusted ==> Certified(c, sid, r))
    && Servable(c, initial, sid, ReadableAs(c, sid, r).value)
  }

  // No trusted record stored from the start passes for a key that it does not hash to.
  ghost predicate Founded(c: Codec, initial: Store) {
    forall sid, r :: r in VersionsOf(initial, sid) && r.trusted && ReadableAs(c, sid, r).Some? ==> Certified(c, sid, r)
  }

  ghost predicate StoreInv(c: Codec, initial: Store, store: Store) {
    forall sid ::
      && VersionsOf(initial, sid) <= VersionsOf(store, sid)
      && forall i :: |VersionsOf(initial, sid)| <= i < |VersionsOf(store, sid)| ==>
        Sound(c, initial, sid, VersionsOf(store, sid)[i])
  }

  // One key's versions keep the invariant.
  ghost predicate KeyInv(c: Codec, initial: Store, store: Store, sid: Sid) {
    && VersionsOf(initial, sid) <= VersionsOf(store, sid)
    && forall i :: |VersionsOf(initial, sid)| <= i < |VersionsOf(store, sid)| ==>
      Sound(c, initial, sid, VersionsOf(store, sid)[i])
  }

  lemma PutKeepsKey(c: Codec, initial: Store, store: Store, sid: Sid, r: Record, key: Sid)
    requires KeyInv(c, initial, store, key) && Sound(c, initial, sid, r)
    ensures KeyInv(c, initial, Putting(store, sid, r), key)
  {
    hide Sound;
    assert VersionsOf(Putting(store, sid, r), key) == VersionsOf(store, key) + if key == sid then [r] else [];
  }

  lemma PutKeepsStore(c: Codec, initial: Store, store: Store, sid: Sid, r: Record)
    requires StoreInv(c, initial, store) && Sound(c, initial, sid, r)
    ensures StoreInv(c, initial, Putting(store, sid, r))
  {
    hide Sound, Putting;
    var after := Putting(store, sid, r);
    forall key
      ensures VersionsOf(initial, key) <= VersionsOf(after, key)
      ensures forall i :: |VersionsOf(initial, key)| <= i < |VersionsOf(after, key)| ==>
        Sound(c, initial, key, VersionsOf(after, key)[i])
    {
      assert KeyInv(c, initial, store, key);
      PutKeepsKey(c, initial, store, sid, r, key);
    }
  }

  lemma FreshIsSound(c: Codec, initial: Store, snapshot: Json)
    requires c.Lawful() && c.verified(snapshot) == Some(snapshot)
    ensures Sound(c, initial, c.sid(snapshot), Fresh(c, snapshot))
  {
    FreshIsReadable(c, snapshot);
    assert c.decode(c.encode(snapshot)) == Some(snapshot);
  }

  // Whatever version a reader sees, if it is readable then what it shows may be shown, and a trusted
  // one certifies the key.
  lemma ReadableIsServable(c: Codec, initial: Store, store: Store, sid: Sid, r: Record, snapshot: Json)
    requires c.Lawful() && Founded(c, initial) && StoreInv(c, initial, store)
    requires r in VersionsOf(store, sid) && ReadableAs(c, sid, r) == Some(snapshot)
    ensures Servable(c, initial, sid, snapshot)
    ensures r.trusted ==> Certified(c, sid, r)
  {
    var all, first := VersionsOf(store, sid), VersionsOf(initial, sid);
    var i :| 0 <= i < |all| && all[i] == r;
    if i < |first| {
      assert r == first[i];
      if r.trusted {
        assert Certified(c, sid, r);
        assert c.verified(c.decode(r.value).value) == Some(snapshot);
      }
    } else {
      assert Sound(c, initial, sid, all[i]);
    }
  }

  lemma RetainedIsSound(c: Codec, initial: Store, store: Store, sid: Sid, r: Record, snapshot: Json)
    requires c.Lawful() && Founded(c, initial) && StoreInv(c, initial, store)
    requires r in VersionsOf(store, sid) && ReadableAs(c, sid, r) == Some(snapshot)
    ensures Sound(c, initial, sid, Retained(c, sid, r, snapshot))
  {
    ReadableIsServable(c, initial, store, sid, r, snapshot);
    RetainedReadsTheSame(c, sid, r, snapshot);
    hide Servable, Founded, StoreInv;
    assert c.decode(c.encode(snapshot)) == Some(snapshot);
  }
}
