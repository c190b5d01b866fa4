/** Owner-fenced scan calls over all volumes (src/managed_catalog.rs:
    `advance_owner_epoch`, `transition_volume`). */
module Scans {
  import opened Outcomes
  import opened ByteStrings
  import opened Records
  import opened Volumes

  datatype State = State(
    owners: map<Bytes, U64>,
    placement: map<Uuid, Uuid>,          // managed namespace of a volume
    revisions: map<Uuid, U64>,
    volumes: map<Uuid, Volume>)

  const EMPTY := State(map[], map[], map[], map[])

  function At(s: State, u: Uuid): Volume {
    if u in s.volumes then s.volumes[u] else UNKNOWN_VOLUME
  }

  function WithVolume(s: State, u: Uuid, x: Volume): State {
    s.(volumes := s.volumes[u := x])
  }

  /** `advance_owner_epoch`: only a larger epoch replaces the stored one. */
  function AdvanceOutcome(s: State, serial: Bytes, epoch: U64): Result<bool> {
    if !ValidSerial(serial) || epoch == 0 then Err(Invalid)
    else Ok(epoch > if serial in s.owners then s.owners[serial] else 0)
  }

  function AdvanceOwner(s: State, serial: Bytes, epoch: U64): State {
    if AdvanceOutcome(s, serial, epoch) == Ok(true) then s.(owners := s.owners[serial := epoch]) else s
  }

  /** Answers of other components inside the transaction: whether control knows
      the volume under this serial, whether its managed namespace still takes
      scan changes, and whether the volume's index evidence is complete. */
  datatype Answers = Answers(serialMatches: bool, namespaceOpen: bool, sourceReady: bool)

  predicate ValidCall(c: Call) {
    ValidSerial(c.serial) && c.volume != NIL && ValidScan(c.scan) && c.epoch != 0
  }

  function NextRevisions(s: State, volume: Uuid): Result<map<Uuid, U64>> {
    if volume !in s.placement then Ok(s.revisions)
    else
      var ns := s.placement[volume];
      if ns !in s.revisions then Err(Incomplete)
      else
        var current: U64 := s.revisions[ns];
        if current + 1 == U64_LIMIT then Err(Corrupt) else Ok(s.revisions[ns := current + 1])
  }

  predicate Changes(outcome: VolumeOutcome) {
    outcome == Reconciling || outcome == NowReady || outcome == Cancelled
  }

  /** What stands before the volume's own records are consulted. */
  function Gate(s: State, c: Call, a: Answers): Option<Result<VolumeOutcome>> {
    if !ValidCall(c) then Some(Err(Invalid))
    else if Lookup(s.owners, c.serial) != Some(c.epoch) then Some(Ok(StaleOwner))
    else if !a.serialMatches then Some(Ok(SerialConflict))
    else if c.volume in s.placement && !a.namespaceOpen then Some(Err(Invalid))
    else None
  }

  /** A change is admitted once the managed namespace's source revision can advance. */
  function Settle(s: State, c: Call, verdict: Result<VolumeOutcome>): Result<VolumeOutcome> {
    if verdict.Ok? && Changes(verdict.value) && NextRevisions(s, c.volume).Err?
    then Err(NextRevisions(s, c.volume).error)
    else verdict
  }

  function Settled(s: State, c: Call, verdict: Result<VolumeOutcome>): State {
    var settled := Settle(s, c, verdict);
    if settled.Err? || !Changes(settled.value) then s
    else
      WithVolume(s, c.volume, Effect(At(s, c.volume), c, c.volume in s.placement, settled.value))
        .(revisions := NextRevisions(s, c.volume).value)
  }

  function TransitionOutcome(s: State, c: Call, a: Answers): Result<VolumeOutcome> {
    var gate := Gate(s, c, a);
    if gate.Some? then gate.value else Settle(s, c, Verdict(At(s, c.volume), c, a.sourceReady))
  }

  /** `transition_volume`: begin, make ready or cancel one scan of a volume. */
  function Transition(s: State, c: Call, a: Answers): State {
    if Gate(s, c, a).Some? then s else Settled(s, c, Verdict(At(s, c.volume), c, a.sourceReady))
  }

  /** `register_volume_placement`: a volume without scans is bound to a managed
      namespace under the owner's epoch, unavailable until its first ready scan.
      `allowed` stands for the checks of pool, barcode and assignment. */
  function Place(s: State, u: Uuid, ns: Uuid, serial: Bytes, epoch: U64, allowed: bool): State {
    if !allowed || u == NIL || epoch == 0 || u in s.placement || At(s, u).ready.Some? || At(s, u).pending.Some? ||
       Lookup(s.owners, serial) != Some(epoch) then s
    else WithVolume(s, u, At(s, u).(hidden := true)).(placement := s.placement[u := ns])
  }

  /** Readers of the volume are refused. */
  predicate Unready(x: Volume) {
    x.pending.Some? || x.ready.None?
  }

  /** Managed readers see a volume as unavailable exactly while it is unready. */
  ghost predicate HiddenMirrorsReadiness(s: State) {
    forall u :: At(s, u).hidden <==> u in s.placement && Unready(At(s, u))
  }

  ghost predicate Invariant(s: State) {
    HiddenMirrorsReadiness(s) && forall u :: VolumeInvariant(At(s, u))
  }

  /** One call moves one volume, under the current owner epoch, or nothing at all. */
  lemma TransitionMovesOne(s: State, c: Call, a: Answers)
    ensures var t := Transition(s, c, a);
            t.owners == s.owners && t.placement == s.placement &&
            Moves(At(s, c.volume), At(t, c.volume), c, c.volume in s.placement) &&
            (forall u :: u != c.volume ==> At(t, u) == At(s, u)) &&
            (t != s ==> Lookup(s.owners, c.serial) == Some(c.epoch) && TransitionOutcome(s, c, a).Ok? &&
                        Changes(TransitionOutcome(s, c, a).value))
    ensures TransitionOutcome(s, c, a) == Ok(NowReady) ==> a.sourceReady && MayBecomeReady(At(s, c.volume), c)
  {
    if Verdict(At(s, c.volume), c, a.sourceReady).Ok? {
      VerdictMoves(At(s, c.volume), c, c.volume in s.placement, a.sourceReady);
    }
  }

  lemma MoveKeepsHidden(x: Volume, y: Volume, c: Call, managed: bool)
    requires Moves(x, y, c, managed) && (x.hidden <==> managed && Unready(x))
    ensures y.hidden <==> managed && Unready(y)
  {
  }

  lemma TransitionKeepsInvariant(s: State, c: Call, a: Answers)
    requires Invariant(s)
    ensures Invariant(Transition(s, c, a))
    ensures forall u :: Newest(At(Transition(s, c, a), u)) >= Newest(At(s, u))
  {
    hide VolumeInvariant, Transition, Newest, Moves;
    TransitionMovesOne(s, c, a);
    var t := Transition(s, c, a);
    MoveKeepsInvariant(At(s, c.volume), At(t, c.volume), c, c.volume in s.placement);
    MoveKeepsHidden(At(s, c.volume), At(t, c.volume), c, c.volume in s.placement);
    assert At(s, c.volume).hidden <==> c.volume in s.placement && Unready(At(s, c.volume));
    forall u
      ensures VolumeInvariant(At(t, u)) && (At(t, u).hidden <==> u in t.placement && Unready(At(t, u)))
    {
      assert VolumeInvariant(At(s, u));
    }
  }

  /** When a volume is placed: it is not placed yet, no scan of it is ready or pending,
      and the call comes from the owner. */
  predicate Placed(s: State, u: Uuid, serial: Bytes, epoch: U64, allowed: bool) {
    allowed && u != NIL && 0 < epoch && u !in s.placement && serial in s.owners && s.owners[serial] == epoch &&
    At(s, u).ready.None? && At(s, u).pending.None?
  }

  /** Placing a volume keeps the invariant and touches no pointer, manifest or row. */
  lemma PlaceKeepsInvariant(s: State, u: Uuid, ns: Uuid, serial: Bytes, epoch: U64, allowed: bool)
    requires Invariant(s)
    ensures var t := Place(s, u, ns, serial, epoch, allowed);
            Invariant(t) && t.owners == s.owners && (forall v :: At(t, v) == At(s, v).(hidden := At(t, v).hidden)) &&
            (forall v :: Lookup(t.placement, v) == if v == u && Placed(s, u, serial, epoch, allowed) then Some(ns) else Lookup(s.placement, v))
  {
    hide VolumeInvariant;
    var t := Place(s, u, ns, serial, epoch, allowed);
    forall v
      ensures VolumeInvariant(At(t, v)) && At(t, v) == At(s, v).(hidden := At(t, v).hidden)
      ensures At(t, v).hidden <==> v in t.placement && Unready(At(t, v))
    {
      assert VolumeInvariant(At(s, v)) && (At(s, v).hidden <==> v in s.placement && Unready(At(s, v)));
      HidingKeeps(At(s, v), At(t, v));
    }
  }

  lemma HidingKeeps(x: Volume, y: Volume)
    requires VolumeInvariant(x) && y == x.(hidden := y.hidden)
    ensures VolumeInvariant(y)
  {
    assert Newest(y) == Newest(x) && Serials(y) == Serials(x);
    forall id | id in y.manifests
      ensures ManifestFits(y, id, y.manifests[id])
    {
      assert ManifestFits(x, id, x.manifests[id]);
    }
  }

  /** An owner epoch only rises, to the larger of the two, and nothing else changes with it. */
  lemma AdvanceRaisesEpoch(s: State, serial: Bytes, epoch: U64)
    ensures var t := AdvanceOwner(s, serial, epoch);
            t.volumes == s.volumes && t.placement == s.placement && t.revisions == s.revisions &&
            (forall o :: o in s.owners ==> o in t.owners && s.owners[o] <= t.owners[o]) &&
            (t != s ==> AdvanceOutcome(s, serial, epoch) == Ok(true) && Lookup(t.owners, serial) == Some(epoch) &&
                        (serial in s.owners ==> s.owners[serial] < epoch)) &&
            (ValidSerial(serial) && epoch > 0 ==>
               serial in t.owners && t.owners[serial] == if serial in s.owners && s.owners[serial] > epoch then s.owners[serial] else epoch) &&
            (forall o :: o != serial ==> Lookup(t.owners, o) == Lookup(s.owners, o)) &&
            (AdvanceOutcome(s, serial, epoch).Err? <==> !(ValidSerial(serial) && epoch > 0)) && (AdvanceOutcome(s, serial, epoch) == Ok(true) <==> t != s)
  {
  }

  /** A call under any other owner epoch leaves the store as it was. */
  lemma OtherEpochChangesNothing(s: State, c: Call, a: Answers)
    requires Lookup(s.owners, c.serial) != Some(c.epoch)
    ensures Transition(s, c, a) == s
    ensures TransitionOutcome(s, c, a) == if ValidCall(c) then Ok(StaleOwner) else Err(Invalid)
  {
  }

  /** A lost commit result is harmless: reissuing a call that changed the store
      changes nothing more, whatever the other components answer then. */
  lemma ReissueIsHarmless(s: State, c: Call, a: Answers, again: Answers)
    requires Invariant(s) && Transition(s, c, a) != s
    ensures Transition(Transition(s, c, a), c, again) == Transition(s, c, a)
  {
    TransitionMovesOne(s, c, a);
    var x := At(s, c.volume);
    assert VolumeInvariant(x);
    ReissueChangesNothing(x, c, c.volume in s.placement, a.sourceReady, again.sourceReady);
    var t := Transition(s, c, a);
    assert At(t, c.volume) == Effect(x, c, c.volume in s.placement, Verdict(x, c, a.sourceReady).value);
  }
}
