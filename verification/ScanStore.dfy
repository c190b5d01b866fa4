/** The scan calls as they run on the stored bytes (src/managed_catalog.rs:
    `advance_owner_epoch`, `transition_volume`, `require_volume_ready`), which
    read raw records, compare them byte for byte and write raw records. On every
    store that represents a typed state they do exactly what the typed calls do. */
module ScanStore {
  import opened Outcomes
  import opened ByteStrings
  import opened Names
  import opened Keys
  import opened Records
  import opened Volumes
  import opened Scans

  /** Raw records by key, before the key layout is applied. */
  type Raw = map<Key, Bytes>

  // ------------------------------------------------------ the representation

  predicate Modelled(k: Key) {
    k.OwnerKey? || k.ReadyKey? || k.PendingKey? || k.ManifestKey? || k.RevisionKey? || k.UnavailableKey?
  }

  function PointerBytes(p: Option<Pointer>): Option<Bytes> {
    if p.Some? then Some(EncodePointer(p.value)) else None
  }

  function NumberBytes(n: Option<U64>): Option<Bytes> {
    if n.Some? then Some(EncodeU64(n.value)) else None
  }

  function ManifestBytes(m: Option<Manifest>): Option<Bytes> {
    if m.Some? then Some(EncodeManifest(m.value)) else None
  }

  /** The bytes a typed state stores under a key. */
  function Content(s: State, k: Key): Option<Bytes> {
    match k
    case OwnerKey(serial) => NumberBytes(Lookup(s.owners, serial))
    case ReadyKey(u) => PointerBytes(At(s, u).ready)
    case PendingKey(u) => PointerBytes(At(s, u).pending)
    case ManifestKey(u, id) => ManifestBytes(Lookup(At(s, u).manifests, id))
    case RevisionKey(ns) => NumberBytes(Lookup(s.revisions, ns))
    case UnavailableKey(ns, u) => if At(s, u).hidden && Lookup(s.placement, u) == Some(ns) then Some([]) else None
    case _ => None
  }

  /** Only encodable values are stored. */
  predicate SoundVolume(x: Volume) {
    (x.ready.Some? ==> ValidPointer(x.ready.value)) && (x.pending.Some? ==> ValidPointer(x.pending.value)) &&
    forall id :: id in x.manifests ==> ValidManifest(x.manifests[id])
  }

  ghost predicate Sound(s: State) {
    forall u :: SoundVolume(At(s, u))
  }

  ghost predicate Represents(raw: Raw, s: State) {
    Sound(s) && forall k: Key :: Modelled(k) ==> Lookup(raw, k) == Content(s, k)
  }

  lemma SoundAfter(s: State, t: State, u: Uuid)
    requires Sound(s) && SoundVolume(At(t, u)) && forall v :: v != u ==> At(t, v) == At(s, v)
    ensures Sound(t)
  {
    forall v
      ensures SoundVolume(At(t, v))
    {
      assert SoundVolume(At(s, v));
    }
  }

  // ------------------------------------------------ one record at a time

  function Updated(raw: Raw, k: Key, value: Option<Bytes>): Raw {
    if value.Some? then raw[k := value.value] else raw - {k}
  }

  lemma WriteRepresents(raw: Raw, s: State, t: State, k: Key)
    requires Represents(raw, s) && Sound(t) && Modelled(k)
    requires forall o: Key :: Modelled(o) && o != k ==> Content(t, o) == Content(s, o)
    ensures Represents(Updated(raw, k, Content(t, k)), t)
  {
    var after := Updated(raw, k, Content(t, k));
    forall o: Key | Modelled(o)
      ensures Lookup(after, o) == Content(t, o)
    {
      assert o != k ==> Lookup(raw, o) == Content(s, o);
    }
  }

  function WithManifest(s: State, u: Uuid, m: Manifest): State {
    var x := At(s, u);
    WithVolume(s, u, x.(manifests := x.manifests[m.scan.id := m]))
  }

  lemma ManifestWrite(raw: Raw, s: State, u: Uuid, m: Manifest)
    requires Represents(raw, s) && ValidManifest(m)
    ensures Represents(raw[ManifestKey(u, m.scan.id) := EncodeManifest(m)], WithManifest(s, u, m))
  {
    var t := WithManifest(s, u, m);
    assert SoundVolume(At(s, u));
    SoundAfter(s, t, u);
    WriteRepresents(raw, s, t, ManifestKey(u, m.scan.id));
  }

  function WithReady(s: State, u: Uuid, p: Pointer): State {
    WithVolume(s, u, At(s, u).(ready := Some(p)))
  }

  lemma ReadyWrite(raw: Raw, s: State, u: Uuid, p: Pointer)
    requires Represents(raw, s) && ValidPointer(p)
    ensures Represents(raw[ReadyKey(u) := EncodePointer(p)], WithReady(s, u, p))
  {
    var t := WithReady(s, u, p);
    assert SoundVolume(At(s, u));
    SoundAfter(s, t, u);
    WriteRepresents(raw, s, t, ReadyKey(u));
  }

  function WithPending(s: State, u: Uuid, p: Option<Pointer>): State {
    WithVolume(s, u, At(s, u).(pending := p))
  }

  lemma PendingWrite(raw: Raw, s: State, u: Uuid, p: Option<Pointer>)
    requires Represents(raw, s) && (p.Some? ==> ValidPointer(p.value))
    ensures Represents(Updated(raw, PendingKey(u), PointerBytes(p)), WithPending(s, u, p))
  {
    var t := WithPending(s, u, p);
    assert SoundVolume(At(s, u));
    SoundAfter(s, t, u);
    WriteRepresents(raw, s, t, PendingKey(u));
  }

  function WithHidden(s: State, u: Uuid, hidden: bool): State {
    WithVolume(s, u, At(s, u).(hidden := hidden))
  }

  lemma HiddenWrite(raw: Raw, s: State, u: Uuid, hidden: bool)
    requires Represents(raw, s) && u in s.placement
    ensures Represents(Updated(raw, UnavailableKey(s.placement[u], u), if hidden then Some([]) else None), WithHidden(s, u, hidden))
  {
    var t := WithHidden(s, u, hidden);
    assert SoundVolume(At(s, u));
    SoundAfter(s, t, u);
    WriteRepresents(raw, s, t, UnavailableKey(s.placement[u], u));
  }

  lemma RevisionWrite(raw: Raw, s: State, ns: Uuid, revision: U64)
    requires Represents(raw, s)
    ensures Represents(raw[RevisionKey(ns) := EncodeU64(revision)], s.(revisions := s.revisions[ns := revision]))
  {
    var t := s.(revisions := s.revisions[ns := revision]);
    forall u
      ensures SoundVolume(At(t, u))
    {
      assert SoundVolume(At(s, u));
    }
    WriteRepresents(raw, s, t, RevisionKey(ns));
  }

  lemma OwnerWrite(raw: Raw, s: State, serial: Bytes, epoch: U64)
    requires Represents(raw, s)
    ensures Represents(raw[OwnerKey(serial) := EncodeU64(epoch)], s.(owners := s.owners[serial := epoch]))
  {
    var t := s.(owners := s.owners[serial := epoch]);
    forall u
      ensures SoundVolume(At(t, u))
    {
      assert SoundVolume(At(s, u));
    }
    WriteRepresents(raw, s, t, OwnerKey(serial));
  }

  /** Comparing stored bytes compares the values. */
  lemma SamePointer(p: Option<Pointer>, q: Pointer)
    requires (p.Some? ==> ValidPointer(p.value)) && ValidPointer(q)
    ensures PointerBytes(p) == Some(EncodePointer(q)) <==> p == Some(q)
  {
    if p.Some? {
      PointerCodecIsCanonical(EncodePointer(p.value), p.value);
      PointerCodecIsCanonical(EncodePointer(p.value), q);
    }
  }

  lemma SameManifest(m: Option<Manifest>, n: Manifest)
    requires (m.Some? ==> ValidManifest(m.value)) && ValidManifest(n)
    ensures ManifestBytes(m) == Some(EncodeManifest(n)) <==> m == Some(n)
  {
    if m.Some? {
      ManifestCodecIsCanonical(EncodeManifest(m.value), m.value);
      ManifestCodecIsCanonical(EncodeManifest(m.value), n);
    }
  }

  // ---------------------------------------------------------------- the store

  /** What the typed state says about the records a call has read. */
  ghost predicate Reads(raw: Raw, s: State, c: Call, managed: Option<Uuid>) {
    Represents(raw, s) && ValidCall(c) && managed == Lookup(s.placement, c.volume)
  }

  lemma ReadFacts(raw: Raw, s: State, u: Uuid, id: Uuid)
    requires Represents(raw, s)
    ensures Lookup(raw, ReadyKey(u)) == PointerBytes(At(s, u).ready)
    ensures Lookup(raw, PendingKey(u)) == PointerBytes(At(s, u).pending)
    ensures Lookup(raw, ManifestKey(u, id)) == ManifestBytes(Lookup(At(s, u).manifests, id))
    ensures SoundVolume(At(s, u))
  {
    assert Content(s, ReadyKey(u)) == PointerBytes(At(s, u).ready);
    assert Content(s, PendingKey(u)) == PointerBytes(At(s, u).pending);
    assert Content(s, ManifestKey(u, id)) == ManifestBytes(Lookup(At(s, u).manifests, id));
  }

  /** A stored pointer that contradicts or outdates the call; undecodable bytes are corrupt. */
  method CheckPointer(bytes: Option<Bytes>, c: Call, ghost p: Option<Pointer>) returns (r: Result<Option<VolumeOutcome>>)
    ensures bytes == PointerBytes(p) && (p.Some? ==> ValidPointer(p.value)) ==> r == Ok(Objection(p, c))
  {
    if bytes.None? {
      return Ok(None);
    }
    if p.Some? {
      PointerCodecIsCanonical(bytes.value, p.value);
    }
    var decoded := DecodePointer(bytes.value);
    if decoded.Err? {
      return Err(decoded.error);
    }
    return Ok(Objection(Some(decoded.value), c));
  }

  class Store {
    var db: map<Bytes, Bytes>
    ghost var records: Raw

    /** The bytes of the database are the records under the key layout. */
    ghost predicate Valid()
      reads this
    {
      forall k: Key :: Lookup(db, EncodeKey(k)) == Lookup(records, k)
    }

    constructor ()
      ensures Valid() && db == map[] && records == map[]
    {
      db, records := map[], map[];
    }

    method Get(k: Key) returns (value: Option<Bytes>)
      requires Valid()
      ensures value == Lookup(records, k)
    {
      value := Lookup(db, EncodeKey(k));
    }

    method Set(k: Key, value: Bytes)
      requires Valid()
      modifies this
      ensures Valid() && records == old(records)[k := value]
    {
      db := db[EncodeKey(k) := value];
      records := records[k := value];
      forall o: Key
        ensures Lookup(db, EncodeKey(o)) == Lookup(records, o)
      {
        if EncodeKey(o) == EncodeKey(k) {
          KeysAreInjective(o, k);
        }
        assert Lookup(old(db), EncodeKey(o)) == Lookup(old(records), o);
      }
    }

    method Clear(k: Key)
      requires Valid()
      modifies this
      ensures Valid() && records == old(records) - {k}
    {
      db := db - {EncodeKey(k)};
      records := records - {k};
      forall o: Key
        ensures Lookup(db, EncodeKey(o)) == Lookup(records, o)
      {
        if EncodeKey(o) == EncodeKey(k) {
          KeysAreInjective(o, k);
        }
        assert Lookup(old(db), EncodeKey(o)) == Lookup(old(records), o);
      }
    }

    method AdvanceOwnerEpoch(ghost s: State, serial: Bytes, epoch: U64) returns (r: Result<bool>)
      requires Valid()
      modifies this
      ensures Valid()
      ensures r.Err? ==> records == old(records)
      ensures Represents(old(records), s) ==>
                r == AdvanceOutcome(s, serial, epoch) && Represents(records, AdvanceOwner(s, serial, epoch))
    {
      if !ValidSerial(serial) || epoch == 0 {
        return Err(Invalid);
      }
      var stored := Get(OwnerKey(serial));
      assert Represents(records, s) ==> stored == Content(s, OwnerKey(serial));
      if stored.Some? && |stored.value| != 8 {
        return Err(Corrupt);
      }
      var current := if stored.Some? then DecodeU64(stored.value) else 0;
      if Represents(records, s) && serial in s.owners {
        U64RoundTrip(s.owners[serial]);
      }
      if epoch <= current {
        return Ok(false);
      }
      if Represents(records, s) {
        OwnerWrite(records, s, serial, epoch);
      }
      Set(OwnerKey(serial), EncodeU64(epoch));
      return Ok(true);
    }

    /** `advance_source_revision` for a managed volume; nothing for an unmanaged one. */
    method AdvanceRevision(ghost s: State, volume: Uuid, managed: Option<Uuid>) returns (r: Result<bool>)
      requires Valid()
      modifies this
      ensures Valid()
      ensures r.Err? ==> records == old(records)
      ensures Represents(old(records), s) && managed == Lookup(s.placement, volume) ==>
                match NextRevisions(s, volume)
                case Ok(revisions) => r.Ok? && Represents(records, s.(revisions := revisions))
                case Err(error) => r == Err(error)
    {
      if managed.None? {
        assert s.(revisions := s.revisions) == s;
        return Ok(true);
      }
      var stored := Get(RevisionKey(managed.value));
      assert Represents(records, s) ==> stored == Content(s, RevisionKey(managed.value));
      if stored.None? {
        return Err(Incomplete);
      }
      if |stored.value| != 8 {
        return Err(Corrupt);
      }
      var current: U64 := DecodeU64(stored.value);
      if Represents(records, s) {
        U64RoundTrip(s.revisions[managed.value]);
      }
      if current + 1 == U64_LIMIT {
        return Err(Corrupt);
      }
      if Represents(records, s) {
        RevisionWrite(records, s, managed.value, current + 1);
      }
      Set(RevisionKey(managed.value), EncodeU64(current + 1));
      return Ok(true);
    }

    method WriteManifest(ghost t: State, u: Uuid, m: Manifest)
      requires Valid()
      modifies this
      ensures Valid()
      ensures Represents(old(records), t) && ValidManifest(m) ==> Represents(records, WithManifest(t, u, m))
    {
      hide Represents, ValidManifest;
      if Represents(records, t) && ValidManifest(m) {
        ManifestWrite(records, t, u, m);
      }
      Set(ManifestKey(u, m.scan.id), EncodeManifest(m));
    }

    method WritePending(ghost t: State, u: Uuid, p: Option<Pointer>)
      requires Valid()
      modifies this
      ensures Valid()
      ensures Represents(old(records), t) && (p.Some? ==> ValidPointer(p.value)) ==> Represents(records, WithPending(t, u, p))
    {
      hide Represents, ValidPointer;
      if Represents(records, t) && (p.Some? ==> ValidPointer(p.value)) {
        PendingWrite(records, t, u, p);
      }
      if p.Some? {
        Set(PendingKey(u), EncodePointer(p.value));
      } else {
        Clear(PendingKey(u));
      }
    }

    method WriteReady(ghost t: State, u: Uuid, p: Pointer)
      requires Valid()
      modifies this
      ensures Valid()
      ensures Represents(old(records), t) && ValidPointer(p) ==> Represents(records, WithReady(t, u, p))
    {
      hide Represents, ValidPointer;
      if Represents(records, t) && ValidPointer(p) {
        ReadyWrite(records, t, u, p);
      }
      Set(ReadyKey(u), EncodePointer(p));
    }

    /** The unavailable mark of a managed volume; an unmanaged one has none. */
    method WriteHidden(ghost t: State, u: Uuid, managed: Option<Uuid>, hidden: bool)
      requires Valid()
      modifies this
      ensures Valid()
      ensures Represents(old(records), t) && managed == Lookup(t.placement, u) ==>
                Represents(records, if managed.Some? then WithHidden(t, u, hidden) else t)
    {
      hide Represents;
      if managed.Some? {
        if Represents(records, t) && managed == Lookup(t.placement, u) {
          HiddenWrite(records, t, u, hidden);
        }
        if hidden {
          Set(UnavailableKey(managed.value, u), []);
        } else {
          Clear(UnavailableKey(managed.value, u));
        }
      }
    }

    /** The manifest of a recorded pointer must be exactly in the given state. */
    method PointedManifestIs(ghost s: State, u: Uuid, pointer: Bytes, state: ScanState, ghost p: Pointer)
      returns (r: Result<bool>, decoded: Pointer)
      requires Valid()
      ensures Represents(records, s) && ValidPointer(p) && pointer == EncodePointer(p) ==>
                decoded == p &&
                r == Ok(Lookup(At(s, u).manifests, p.scan.id) == Some(Manifest(p.scan, p.serial, state)))
    {
      hide Represents, ValidUtf8;
      PointerCodecIsCanonical(pointer, p);
      var d := DecodePointer(pointer);
      if d.Err? {
        return Err(d.error), Pointer(Scan(0, 0), []);
      }
      PointerCodecIsCanonical(pointer, d.value);
      decoded := d.value;
      var stored := Get(ManifestKey(u, decoded.scan.id));
      var expected := Manifest(decoded.scan, decoded.serial, state);
      if Represents(records, s) {
        ReadFacts(records, s, u, decoded.scan.id);
        SameManifest(Lookup(At(s, u).manifests, decoded.scan.id), expected);
      }
      r := Ok(stored == Some(EncodeManifest(expected)));
    }

    /** Raw comparison of the two pointers with the call's target. */
    lemma PointerComparisons(s: State, c: Call, managed: Option<Uuid>)
      requires Reads(records, s, c, managed)
      ensures var x := At(s, c.volume);
              Lookup(records, ReadyKey(c.volume)) == PointerBytes(x.ready) &&
              Lookup(records, PendingKey(c.volume)) == PointerBytes(x.pending) &&
              (x.ready.Some? ==> ValidPointer(x.ready.value)) && (x.pending.Some? ==> ValidPointer(x.pending.value)) &&
              (PointerBytes(x.ready) == Some(EncodePointer(Target(c))) <==> x.ready == Some(Target(c))) &&
              (PointerBytes(x.pending) == Some(EncodePointer(Target(c))) <==> x.pending == Some(Target(c)))
    {
      hide Represents, Content;
      ReadFacts(records, s, c.volume, c.scan.id);
      SamePointer(At(s, c.volume).ready, Target(c));
      SamePointer(At(s, c.volume).pending, Target(c));
    }

    method BeginScan(ghost s: State, c: Call, managed: Option<Uuid>, ready: Option<Bytes>, pending: Option<Bytes>,
                     state: Option<ScanState>)
      returns (r: Result<VolumeOutcome>)
      requires Valid()
      requires ready == Lookup(records, ReadyKey(c.volume)) && pending == Lookup(records, PendingKey(c.volume))
      modifies this
      ensures Valid()
      ensures r.Err? || !Changes(r.value) ==> records == old(records)
      ensures Reads(old(records), s, c, managed) ==>
                var verdict := BeginVerdict(At(s, c.volume), c, state);
                r == Settle(s, c, verdict) && Represents(records, Settled(s, c, verdict))
    {
      hide Represents, EncodePointer, ValidCall, ValidPointer;
      ghost var known := Reads(records, s, c, managed);
      ghost var x := At(s, c.volume);
      if known {
        PointerComparisons(s, c, managed);
      }
      var value := EncodePointer(Target(c));
      if ready == Some(value) && pending.None? && state == Some(Ready) {
        return Ok(AlreadyReady);
      }
      if pending == Some(value) && state == Some(Building) {
        return Ok(AlreadyReconciling);
      }
      if state.Some? {
        return Ok(ScanConflict);
      }
      if pending.Some? {
        var retired, _ := PointedManifestIs(s, c.volume, pending.value, Retired, if known then x.pending.value else Target(c));
        if retired.Err? {
          return Err(retired.error);
        }
        if !retired.value {
          return Ok(ScanConflict);
        }
      }
      var revised := AdvanceRevision(s, c.volume, managed);
      if revised.Err? {
        return Err(revised.error);
      }
      BeginWrites(if known then s.(revisions := NextRevisions(s, c.volume).value) else s, c, managed, known);
      return Ok(Reconciling);
    }

    method BeginWrites(ghost s: State, c: Call, managed: Option<Uuid>, ghost known: bool)
      requires Valid()
      requires known ==> Reads(records, s, c, managed)
      modifies this
      ensures Valid()
      ensures known ==> Represents(records, WithVolume(s, c.volume, Begun(At(s, c.volume), c, c.volume in s.placement)))
    {
      hide Represents;
      WriteManifest(s, c.volume, Mark(c, Building));
      ghost var t := WithManifest(s, c.volume, Mark(c, Building));
      WritePending(t, c.volume, Some(Target(c)));
      t := WithPending(t, c.volume, Some(Target(c)));
      WriteHidden(t, c.volume, managed, true);
      t := if managed.Some? then WithHidden(t, c.volume, true) else t;
      assert known ==> t == WithVolume(s, c.volume, Begun(At(s, c.volume), c, c.volume in s.placement));
    }

    method ReadyScan(ghost s: State, c: Call, managed: Option<Uuid>, ready: Option<Bytes>, pending: Option<Bytes>,
                     state: Option<ScanState>, sourceReady: bool)
      returns (r: Result<VolumeOutcome>)
      requires Valid()
      requires ready == Lookup(records, ReadyKey(c.volume)) && pending == Lookup(records, PendingKey(c.volume))
      modifies this
      ensures Valid()
      ensures r.Err? || !Changes(r.value) ==> records == old(records)
      ensures Reads(old(records), s, c, managed) ==>
                var verdict := ReadyVerdict(At(s, c.volume), c, state, sourceReady);
                r == Settle(s, c, verdict) && Represents(records, Settled(s, c, verdict))
    {
      hide Represents, EncodePointer, ValidCall, ValidPointer;
      ghost var known := Reads(records, s, c, managed);
      ghost var x := At(s, c.volume);
      if known {
        PointerComparisons(s, c, managed);
      }
      var value := EncodePointer(Target(c));
      if ready == Some(value) && pending.None? && state == Some(Ready) {
        return Ok(if sourceReady then AlreadyReady else NotVerified);
      }
      if pending != Some(value) || state == Some(Retired) {
        return Ok(NotReconciling);
      }
      if state != Some(Verified) || !sourceReady {
        return Ok(NotVerified);
      }
      var previous: Option<Pointer> := None;
      if ready.Some? {
        var current, p := PointedManifestIs(s, c.volume, ready.value, Ready, if known then x.ready.value else Target(c));
        if current.Err? {
          return Err(current.error);
        }
        if !current.value {
          return Err(Corrupt);
        }
        previous := Some(p);
      }
      var revised := AdvanceRevision(s, c.volume, managed);
      if revised.Err? {
        return Err(revised.error);
      }
      SwitchWrites(if known then s.(revisions := NextRevisions(s, c.volume).value) else s, c, managed, previous, known);
      return Ok(NowReady);
    }

    /** The writes of the switch to a new ready scan, after the old one is retired. */
    method SwitchWrites(ghost s: State, c: Call, managed: Option<Uuid>, previous: Option<Pointer>, ghost known: bool)
      requires Valid()
      requires known ==> Reads(records, s, c, managed) && previous == At(s, c.volume).ready &&
                         (previous.Some? ==> ValidPointer(previous.value))
      modifies this
      ensures Valid()
      ensures known ==> Represents(records, WithVolume(s, c.volume, Switched(At(s, c.volume), c, c.volume in s.placement)))
    {
      hide Represents;
      ghost var t := s;
      if previous.Some? {
        var retired := Manifest(previous.value.scan, previous.value.serial, Retired);
        WriteManifest(t, c.volume, retired);
        t := WithManifest(t, c.volume, retired);
      }
      WriteManifest(t, c.volume, Mark(c, Ready));
      t := WithManifest(t, c.volume, Mark(c, Ready));
      WriteReady(t, c.volume, Target(c));
      t := WithReady(t, c.volume, Target(c));
      WritePending(t, c.volume, None);
      t := WithPending(t, c.volume, None);
      WriteHidden(t, c.volume, managed, false);
      t := if managed.Some? then WithHidden(t, c.volume, false) else t;
      assert known ==> t == WithVolume(s, c.volume, Switched(At(s, c.volume), c, c.volume in s.placement));
    }

    method CancelScan(ghost s: State, c: Call, managed: Option<Uuid>, pending: Option<Bytes>, state: Option<ScanState>)
      returns (r: Result<VolumeOutcome>)
      requires Valid()
      requires pending == Lookup(records, PendingKey(c.volume))
      modifies this
      ensures Valid()
      ensures r.Err? || !Changes(r.value) ==> records == old(records)
      ensures Reads(old(records), s, c, managed) ==>
                var verdict := CancelVerdict(At(s, c.volume), c, state);
                r == Settle(s, c, verdict) && Represents(records, Settled(s, c, verdict))
    {
      hide Represents, EncodePointer, ValidPointer;
      ghost var known := Reads(records, s, c, managed);
      if known {
        PointerComparisons(s, c, managed);
      }
      if state == Some(Retired) {
        return Ok(AlreadyRetired);
      }
      if pending != Some(EncodePointer(Target(c))) {
        return Ok(NotReconciling);
      }
      if state.None? || state == Some(Ready) {
        return Err(Corrupt);
      }
      var revised := AdvanceRevision(s, c.volume, managed);
      if revised.Err? {
        return Err(revised.error);
      }
      ghost var t := if known then s.(revisions := NextRevisions(s, c.volume).value) else s;
      WriteManifest(t, c.volume, Mark(c, Retired));
      assert known ==> WithManifest(t, c.volume, Mark(c, Retired)) == Settled(s, c, Ok(Cancelled));
      return Ok(Cancelled);
    }

    /** The checks before the volume's records are read; `None` lets the call through. */
    method CheckCaller(ghost s: State, c: Call, managed: Option<Uuid>, a: Answers) returns (r: Option<Result<VolumeOutcome>>)
      requires Valid()
      ensures Represents(records, s) && managed == Lookup(s.placement, c.volume) ==> r == Gate(s, c, a)
      ensures r.None? ==> ValidCall(c)
    {
      if !ValidCall(c) {
        return Some(Err(Invalid));
      }
      var owner := Get(OwnerKey(c.serial));
      assert Represents(records, s) ==> owner == Content(s, OwnerKey(c.serial));
      if owner.Some? && |owner.value| != 8 {
        return Some(Err(Corrupt));
      }
      if c.serial in s.owners {
        U64RoundTrip(s.owners[c.serial]);
      }
      if owner.None? || DecodeU64(owner.value) != c.epoch {
        return Some(Ok(StaleOwner));
      }
      if !a.serialMatches {
        return Some(Ok(SerialConflict));
      }
      if managed.Some? && !a.namespaceOpen {
        return Some(Err(Invalid));
      }
      return None;
    }

    /** The stored state of the call's scan, unless its manifest belongs to another scan. */
    method ReadState(ghost s: State, c: Call) returns (r: Result<Option<ScanState>>, conflict: bool)
      requires Valid()
      ensures Represents(records, s) ==>
                var m := Lookup(At(s, c.volume).manifests, c.scan.id);
                (conflict <==> m.Some? && (m.value.scan != c.scan || m.value.serial != c.serial)) &&
                r == Ok(if m.Some? then Some(m.value.state) else None)
    {
      hide Represents, EncodeManifest, DecodeManifest, ValidManifest;
      var manifest := Get(ManifestKey(c.volume, c.scan.id));
      if Represents(records, s) {
        ManifestFacts(s, c.volume, c.scan.id);
      }
      if manifest.None? {
        return Ok(None), false;
      }
      var decoded := DecodeManifest(manifest.value);
      if decoded.Err? {
        return Err(decoded.error), false;
      }
      return Ok(Some(decoded.value.state)), decoded.value.scan != c.scan || decoded.value.serial != c.serial;
    }

    lemma ManifestFacts(s: State, u: Uuid, id: Uuid)
      requires Represents(records, s)
      ensures match Lookup(records, ManifestKey(u, id))
              case None => id !in At(s, u).manifests
              case Some(bytes) => id in At(s, u).manifests && DecodeManifest(bytes) == Ok(At(s, u).manifests[id])
    {
      ReadFacts(records, s, u, id);
      if id in At(s, u).manifests {
        ManifestCodecIsCanonical(EncodeManifest(At(s, u).manifests[id]), At(s, u).manifests[id]);
      }
    }

    /** `transition_volume` on the stored bytes. A store that represents a typed
        state gives the typed outcome and represents the typed next state; a
        corrupt store gives an error or a refusal without a typed meaning. */
    method TransitionVolume(ghost s: State, c: Call, managed: Option<Uuid>, a: Answers) returns (r: Result<VolumeOutcome>)
      requires Valid()
      modifies this
      ensures Valid()
      ensures r.Err? || !Changes(r.value) ==> records == old(records)
      ensures Represents(old(records), s) && managed == Lookup(s.placement, c.volume) ==>
                r == TransitionOutcome(s, c, a) && Represents(records, Transition(s, c, a))
    {
      hide Represents, EncodePointer, ValidPointer, Settled, Settle, BeginVerdict, ReadyVerdict, CancelVerdict, ValidCall, Gate;
      ghost var known := Represents(records, s) && managed == Lookup(s.placement, c.volume);
      ghost var x := At(s, c.volume);
      var gate := CheckCaller(s, c, managed, a);
      if gate.Some? {
        return gate.value;
      }
      var ready := Get(ReadyKey(c.volume));
      var pending := Get(PendingKey(c.volume));
      if known {
        PointerComparisons(s, c, managed);
      }
      var first := CheckPointer(ready, c, x.ready);
      if first.Err? {
        return Err(first.error);
      }
      var second := CheckPointer(pending, c, x.pending);
      if first.value.None? && second.Err? {
        return Err(second.error);
      }
      if first.value.Some? || second.value.Some? {
        r := Ok(if first.value.Some? then first.value.value else second.value.value);
        if known {
          StoppedAsItIs(s, c, a);
        }
        return;
      }
      var state, conflict := ReadState(s, c);
      if state.Err? {
        return Err(state.error);
      }
      if conflict {
        r := Ok(ScanConflict);
        if known {
          StoppedAsItIs(s, c, a);
        }
        return;
      }
      match c.action {
        case Begin => r := BeginScan(s, c, managed, ready, pending, state.value);
        case MakeReady => r := ReadyScan(s, c, managed, ready, pending, state.value, a.sourceReady);
        case Cancel => r := CancelScan(s, c, managed, pending, state.value);
      }
    }

    /** `require_volume_ready` on the stored bytes. */
    method RequireVolumeReady(ghost s: State, volume: Uuid, expected: Option<Scan>, sourceReady: bool) returns (r: Result<Scan>)
      requires Valid()
      ensures Represents(records, s) ==> r == RequireReady(At(s, volume), expected, sourceReady)
    {
      if Represents(records, s) {
        ReadFacts(records, s, volume, NIL);
      }
      var pending := Get(PendingKey(volume));
      if pending.Some? {
        return Err(Incomplete);
      }
      var ready := Get(ReadyKey(volume));
      if ready.None? {
        return Err(Incomplete);
      }
      if Represents(records, s) {
        PointerCodecIsCanonical(ready.value, At(s, volume).ready.value);
      }
      var decoded := DecodePointer(ready.value);
      if decoded.Err? {
        return Err(decoded.error);
      }
      if (expected.Some? && expected.value != decoded.value.scan) || !sourceReady {
        return Err(Incomplete);
      }
      return Ok(decoded.value.scan);
    }
  }

  /** A call stopped by the recorded pointers or manifest settles as it is. */
  lemma StoppedAsItIs(s: State, c: Call, a: Answers)
    requires Gate(s, c, a).None?
    requires var v := Verdict(At(s, c.volume), c, a.sourceReady);
             v.Ok? && v.value in {SerialConflict, OlderGeneration, ScanConflict}
    ensures Transition(s, c, a) == s && TransitionOutcome(s, c, a) == Verdict(At(s, c.volume), c, a.sourceReady)
  {
  }

  /** Every error and every outcome but a begin, a switch or a withdrawal leaves the
      abstract state unchanged. */
  lemma RefusalChangesNothing(s: State, c: Call, a: Answers)
    requires TransitionOutcome(s, c, a).Err? || TransitionOutcome(s, c, a).value !in {Reconciling, NowReady, Cancelled}
    ensures Transition(s, c, a) == s
  {
    TransitionMovesOne(s, c, a);
  }
}
