/** The scan life cycle of one tape volume (src/managed_catalog.rs:
    `transition_volume`, `require_volume_ready`, `purge_retired_volume_index`).
    A `Volume` gathers the records whose keys carry the volume's identifier; each
    call is a decision taken on them and the effect it then has. */
module Volumes {
  import opened Outcomes
  import opened ByteStrings
  import opened Records
  import opened Receipts

  /** The suffix of a reverse-index row key. */
  datatype Entry = Entry(ns: Uuid, file: Uuid, copy: Uuid)

  datatype Row = Row(version: U64, fingerprint: Bytes)

  /** A hash chain; SHA-256 is taken as injective, so a digest is its input. */
  datatype Chain =
    | Seed(volume: Uuid, scan: Scan)
    | Link(previous: Chain, entry: Bytes, fingerprint: Bytes, copy: Bytes)

  datatype Summary = Summary(entries: nat, digest: Chain)

  datatype Progress = Progress(expected: Summary, actual: Summary, cursor: Option<Entry>)

  datatype Volume = Volume(
    ready: Option<Pointer>,
    pending: Option<Pointer>,
    manifests: map<Uuid, Manifest>,
    hidden: bool,                        // listed as unavailable in its managed namespace
    progress: map<Uuid, Progress>,
    rows: map<Uuid, map<Entry, Row>>)

  const UNKNOWN_VOLUME := Volume(None, None, map[], false, map[], map[])

  function Lookup<K, V>(m: map<K, V>, k: K): Option<V> {
    if k in m then Some(m[k]) else None
  }

  function Rows(x: Volume, id: Uuid): map<Entry, Row> {
    if id in x.rows then x.rows[id] else map[]
  }

  // ------------------------------------------------------------- transitions

  datatype Action = Begin | MakeReady | Cancel

  datatype Call = Call(serial: Bytes, epoch: U64, volume: Uuid, scan: Scan, action: Action)

  datatype VolumeOutcome =
    | NowReady | AlreadyReady | Reconciling | AlreadyReconciling | NotReconciling | ScanConflict
    | Cancelled | AlreadyRetired | NotVerified | StaleOwner | OlderGeneration | SerialConflict

  function Target(c: Call): Pointer {
    Pointer(c.scan, c.serial)
  }

  function Mark(c: Call, state: ScanState): Manifest {
    Manifest(c.scan, c.serial, state)
  }

  /** What an already recorded pointer of the volume forbids. */
  function Objection(p: Option<Pointer>, c: Call): Option<VolumeOutcome> {
    if p.None? then None
    else if p.value.serial != c.serial then Some(SerialConflict)
    else if p.value.scan.generation > c.scan.generation then Some(OlderGeneration)
    else None
  }

  function BeginVerdict(x: Volume, c: Call, state: Option<ScanState>): Result<VolumeOutcome> {
    if x.ready == Some(Target(c)) && x.pending.None? && state == Some(Ready) then Ok(AlreadyReady)
    else if x.pending == Some(Target(c)) && state == Some(Building) then Ok(AlreadyReconciling)
    else if state.Some? then Ok(ScanConflict)
    else if x.pending.Some? &&
            Lookup(x.manifests, x.pending.value.scan.id) !=
            Some(Manifest(x.pending.value.scan, x.pending.value.serial, Retired)) then Ok(ScanConflict)
    else Ok(Reconciling)
  }

  function ReadyVerdict(x: Volume, c: Call, state: Option<ScanState>, sourceReady: bool): Result<VolumeOutcome> {
    if x.ready == Some(Target(c)) && x.pending.None? && state == Some(Ready) then
      Ok(if sourceReady then AlreadyReady else NotVerified)
    else if x.pending != Some(Target(c)) || state == Some(Retired) then Ok(NotReconciling)
    else if state != Some(Verified) || !sourceReady then Ok(NotVerified)
    else if x.ready.Some? &&
            Lookup(x.manifests, x.ready.value.scan.id) !=
            Some(Manifest(x.ready.value.scan, x.ready.value.serial, Ready)) then Err(Corrupt)
    else Ok(NowReady)
  }

  function CancelVerdict(x: Volume, c: Call, state: Option<ScanState>): Result<VolumeOutcome> {
    if state == Some(Retired) then Ok(AlreadyRetired)
    else if x.pending != Some(Target(c)) then Ok(NotReconciling)
    else if state.None? || state == Some(Ready) then Err(Corrupt)
    else Ok(Cancelled)
  }

  /** The decision of `transition_volume` on the volume's records. */
  function Verdict(x: Volume, c: Call, sourceReady: bool): Result<VolumeOutcome> {
    var first, second := Objection(x.ready, c), Objection(x.pending, c);
    var manifest := Lookup(x.manifests, c.scan.id);
    if first.Some? then Ok(first.value)
    else if second.Some? then Ok(second.value)
    else if manifest.Some? && (manifest.value.scan != c.scan || manifest.value.serial != c.serial) then Ok(ScanConflict)
    else
      var state := if manifest.Some? then Some(manifest.value.state) else None;
      match c.action
      case Begin => BeginVerdict(x, c, state)
      case MakeReady => ReadyVerdict(x, c, state, sourceReady)
      case Cancel => CancelVerdict(x, c, state)
  }

  function Begun(x: Volume, c: Call, managed: bool): Volume {
    x.(manifests := x.manifests[c.scan.id := Mark(c, Building)], pending := Some(Target(c)), hidden := x.hidden || managed)
  }

  /** The switch also retires the previous ready scan, if any. */
  function Switched(x: Volume, c: Call, managed: bool): Volume {
    var retired :=
      if x.ready.Some? then
        x.manifests[x.ready.value.scan.id := Manifest(x.ready.value.scan, x.ready.value.serial, Retired)]
      else x.manifests;
    x.(manifests := retired[c.scan.id := Mark(c, Ready)], ready := Some(Target(c)), pending := None,
       hidden := x.hidden && !managed)
  }

  function Withdrawn(x: Volume, c: Call): Volume {
    x.(manifests := x.manifests[c.scan.id := Mark(c, Retired)])
  }

  function Effect(x: Volume, c: Call, managed: bool, outcome: VolumeOutcome): Volume {
    match outcome
    case Reconciling => Begun(x, c, managed)
    case NowReady => Switched(x, c, managed)
    case Cancelled => Withdrawn(x, c)
    case _ => x
  }

  /** `require_volume_ready`: what readers of a volume are given. */
  function RequireReady(x: Volume, expected: Option<Scan>, sourceReady: bool): Result<Scan> {
    if x.pending.Some? || x.ready.None? then Err(Incomplete)
    else
      var scan := x.ready.value.scan;
      if (expected.Some? && expected.value != scan) || !sourceReady then Err(Incomplete) else Ok(scan)
  }

  // ------------------------------------------------------------------- purge

  /** Which purge calls go ahead. */
  function PurgeVerdict(x: Volume, scan: Scan): Option<Error> {
    var manifest := Lookup(x.manifests, scan.id);
    if manifest.None? || manifest.value.scan != scan || !manifest.value.state.Retired? then Some(Invalid)
    else if x.ready.Some? && x.ready.value.scan.id == scan.id then Some(Corrupt)
    else None
  }

  /** `purge_retired_volume_index`; `doomed` are the rows one batch found. */
  function Purged(x: Volume, scan: Scan, doomed: set<Entry>): Volume {
    if PurgeVerdict(x, scan).Some? then x
    else if doomed == {} then x.(progress := x.progress - {scan.id})
    else x.(rows := x.rows[scan.id := Rows(x, scan.id) - doomed])
  }

  // ---------------------------------------------------------- the invariant

  predicate Candidate(state: ScanState) {
    state == Building || state == Verifying || state == Verified || state == Rejected
  }

  /** The newest generation observed on a volume. */
  function Newest(x: Volume): U64 {
    var r := if x.ready.Some? then x.ready.value.scan.generation else 0;
    var p := if x.pending.Some? then x.pending.value.scan.generation else 0;
    if p < r then r else p
  }

  function Serials(x: Volume): set<Bytes> {
    (if x.ready.Some? then {x.ready.value.serial} else {}) + (if x.pending.Some? then {x.pending.value.serial} else {})
  }

  /** A manifest agrees with the pointers: only the ready pointer's scan is Ready,
      only the pending pointer's scan is in progress, all share one serial. */
  predicate ManifestFits(x: Volume, id: Uuid, m: Manifest) {
    && m.scan.id == id
    && (m.state == Ready ==> x.ready == Some(Pointer(m.scan, m.serial)))
    && (Candidate(m.state) ==> x.pending == Some(Pointer(m.scan, m.serial)))
    && Serials(x) == {m.serial}
    && m.scan.generation <= Newest(x)
  }

  predicate PointersFit(x: Volume) {
    && (x.ready.Some? ==>
          Lookup(x.manifests, x.ready.value.scan.id) == Some(Manifest(x.ready.value.scan, x.ready.value.serial, Ready)))
    && (x.pending.Some? ==>
          var p := x.pending.value;
          p.scan.id in x.manifests && x.manifests[p.scan.id].scan == p.scan &&
          x.manifests[p.scan.id].serial == p.serial && x.manifests[p.scan.id].state != Ready &&
          p.scan.generation == Newest(x))
  }

  ghost predicate VolumeInvariant(x: Volume) {
    PointersFit(x) && forall id :: id in x.manifests ==> ManifestFits(x, id, x.manifests[id])
  }

  /** So at most one scan is in progress and at most one is ready. */
  lemma InvariantMeansUnique(x: Volume, a: Uuid, b: Uuid)
    requires VolumeInvariant(x) && a in x.manifests && b in x.manifests
    requires x.manifests[a].state == Ready == x.manifests[b].state ||
             (Candidate(x.manifests[a].state) && Candidate(x.manifests[b].state))
    ensures a == b
  {
    assert ManifestFits(x, a, x.manifests[a]) && ManifestFits(x, b, x.manifests[b]);
  }

  // ------------------------------------------------- what a transition keeps

  /** The stored pointer neither contradicts the call nor is newer. */
  predicate Agrees(p: Option<Pointer>, c: Call) {
    p.None? || (p.value.serial == c.serial && p.value.scan.generation <= c.scan.generation)
  }

  predicate MayBegin(x: Volume, c: Call) {
    Agrees(x.ready, c) && Agrees(x.pending, c) && c.scan.id !in x.manifests &&
    (x.pending.Some? ==>
       Lookup(x.manifests, x.pending.value.scan.id) ==
       Some(Manifest(x.pending.value.scan, x.pending.value.serial, Retired)))
  }

  predicate MayBecomeReady(x: Volume, c: Call) {
    Agrees(x.ready, c) && x.pending == Some(Target(c)) && Lookup(x.manifests, c.scan.id) == Some(Mark(c, Verified))
  }

  predicate MayCancel(x: Volume, c: Call) {
    Agrees(x.ready, c) && x.pending == Some(Target(c)) && c.scan.id in x.manifests &&
    Candidate(x.manifests[c.scan.id].state) && x.manifests[c.scan.id] == Mark(c, x.manifests[c.scan.id].state)
  }

  /** What a call does to the records: nothing, or one of three admitted changes. */
  predicate Moves(x: Volume, y: Volume, c: Call, managed: bool) {
    || y == x
    || (MayBegin(x, c) && y == Begun(x, c, managed))
    || (MayBecomeReady(x, c) && y == Switched(x, c, managed))
    || (MayCancel(x, c) && y == Withdrawn(x, c))
  }

  lemma BeginMoves(x: Volume, c: Call, managed: bool, state: Option<ScanState>)
    requires Objection(x.ready, c).None? && Objection(x.pending, c).None?
    requires state.None? ==> c.scan.id !in x.manifests
    ensures var verdict := BeginVerdict(x, c, state);
            verdict.Ok? && Moves(x, Effect(x, c, managed, verdict.value), c, managed) &&
            verdict.value !in {NowReady, Cancelled} && (verdict.value == Reconciling ==> MayBegin(x, c))
  {
    hide Begun, Switched, Withdrawn;
  }

  lemma ReadyMoves(x: Volume, c: Call, managed: bool, state: Option<ScanState>, sourceReady: bool)
    requires Objection(x.ready, c).None? && Objection(x.pending, c).None?
    requires state.Some? ==> Lookup(x.manifests, c.scan.id) == Some(Mark(c, state.value))
    ensures var verdict := ReadyVerdict(x, c, state, sourceReady);
            verdict.Ok? ==>
              Moves(x, Effect(x, c, managed, verdict.value), c, managed) &&
              verdict.value !in {Reconciling, Cancelled} && (verdict.value == NowReady ==> MayBecomeReady(x, c) && sourceReady)
  {
    hide Begun, Switched, Withdrawn;
  }

  lemma CancelMoves(x: Volume, c: Call, managed: bool, state: Option<ScanState>)
    requires Objection(x.ready, c).None? && Objection(x.pending, c).None?
    requires state.Some? ==> Lookup(x.manifests, c.scan.id) == Some(Mark(c, state.value))
    ensures var verdict := CancelVerdict(x, c, state);
            verdict.Ok? ==>
              Moves(x, Effect(x, c, managed, verdict.value), c, managed) &&
              verdict.value !in {Reconciling, NowReady} && (verdict.value == Cancelled ==> MayCancel(x, c))
  {
    hide Begun, Switched, Withdrawn;
  }

  /** The branches of `transition_volume` amount to those changes, each under its own action. */
  lemma VerdictMoves(x: Volume, c: Call, managed: bool, sourceReady: bool)
    requires Verdict(x, c, sourceReady).Ok?
    ensures Moves(x, Effect(x, c, managed, Verdict(x, c, sourceReady).value), c, managed)
    ensures Verdict(x, c, sourceReady) == Ok(Reconciling) ==> MayBegin(x, c) && c.action == Begin
    ensures Verdict(x, c, sourceReady) == Ok(NowReady) ==> MayBecomeReady(x, c) && c.action == MakeReady && sourceReady
    ensures Verdict(x, c, sourceReady) == Ok(Cancelled) ==> MayCancel(x, c) && c.action == Cancel
  {
    hide Begun, Switched, Withdrawn, BeginVerdict, ReadyVerdict, CancelVerdict, MayBegin, MayBecomeReady, MayCancel;
    var m := Lookup(x.manifests, c.scan.id);
    if Objection(x.ready, c).None? && Objection(x.pending, c).None? &&
       (m.Some? ==> m.value.scan == c.scan && m.value.serial == c.serial) {
      var state := if m.Some? then Some(m.value.state) else None;
      BeginMoves(x, c, managed, state);
      ReadyMoves(x, c, managed, state, sourceReady);
      CancelMoves(x, c, managed, state);
    }
  }

  lemma BeginKeeps(x: Volume, c: Call, managed: bool)
    requires VolumeInvariant(x) && MayBegin(x, c)
    ensures VolumeInvariant(Begun(x, c, managed)) && Newest(Begun(x, c, managed)) == c.scan.generation >= Newest(x)
  {
    var y := Begun(x, c, managed);
    forall id | id in y.manifests
      ensures ManifestFits(y, id, y.manifests[id])
    {
      if id != c.scan.id {
        assert ManifestFits(x, id, x.manifests[id]);
        assert Serials(y) == {x.manifests[id].serial};
      } else {
        assert Serials(y) == {c.serial};
      }
    }
  }

  lemma SwitchKeeps(x: Volume, c: Call, managed: bool)
    requires VolumeInvariant(x) && MayBecomeReady(x, c)
    ensures VolumeInvariant(Switched(x, c, managed)) && Newest(Switched(x, c, managed)) == c.scan.generation == Newest(x)
  {
    var y := Switched(x, c, managed);
    assert Serials(y) == {c.serial};
    forall id | id in y.manifests
      ensures ManifestFits(y, id, y.manifests[id])
    {
      if id != c.scan.id {
        assert id in x.manifests && ManifestFits(x, id, x.manifests[id]);
        assert Serials(x) == {x.manifests[id].serial};
        assert c.serial in Serials(x);
      }
    }
  }

  lemma CancelKeeps(x: Volume, c: Call)
    requires VolumeInvariant(x) && MayCancel(x, c)
    ensures VolumeInvariant(Withdrawn(x, c)) && Newest(Withdrawn(x, c)) == c.scan.generation == Newest(x)
  {
    var y := Withdrawn(x, c);
    assert ManifestFits(x, c.scan.id, x.manifests[c.scan.id]);
    assert Serials(y) == Serials(x) && Newest(y) == Newest(x);
    forall id | id in y.manifests
      ensures ManifestFits(y, id, y.manifests[id])
    {
      if id != c.scan.id {
        assert ManifestFits(x, id, x.manifests[id]);
      }
    }
  }

  /** Every call, successful or refused, keeps the scan invariant, and the
      newest observed generation never drops, cancellation included. */
  lemma MoveKeepsInvariant(x: Volume, y: Volume, c: Call, managed: bool)
    requires VolumeInvariant(x) && Moves(x, y, c, managed)
    ensures VolumeInvariant(y) && Newest(y) >= Newest(x)
    ensures y != x ==> Newest(y) == c.scan.generation
  {
    if y != x {
      if MayBegin(x, c) && y == Begun(x, c, managed) {
        BeginKeeps(x, c, managed);
      } else if MayBecomeReady(x, c) && y == Switched(x, c, managed) {
        SwitchKeeps(x, c, managed);
      } else {
        CancelKeeps(x, c);
      }
    }
  }

  /** A retired scan stays retired, no manifest ever disappears, and none
      changes its generation or serial. */
  lemma MoveKeepsManifest(x: Volume, y: Volume, c: Call, managed: bool, id: Uuid)
    requires VolumeInvariant(x) && Moves(x, y, c, managed) && id in x.manifests
    ensures id in y.manifests
    ensures y.manifests[id].scan == x.manifests[id].scan && y.manifests[id].serial == x.manifests[id].serial
    ensures x.manifests[id].state == Retired ==> y.manifests[id].state == Retired
  {
    hide Newest, Serials, VolumeInvariant, ManifestFits;
    if MayBegin(x, c) && y == Begun(x, c, managed) {
      assert y.manifests[id] == x.manifests[id];
    } else if MayBecomeReady(x, c) && y == Switched(x, c, managed) {
      ReadyPointed(x);
      if id == c.scan.id {
        assert y.manifests[id] == Mark(c, Ready);
      } else if x.ready.Some? && id == x.ready.value.scan.id {
        assert y.manifests[id].state == Retired;
      } else {
        assert y.manifests[id] == x.manifests[id];
      }
    } else if MayCancel(x, c) && y == Withdrawn(x, c) {
      assert id != c.scan.id ==> y.manifests[id] == x.manifests[id];
    }
  }

  lemma ReadyPointed(x: Volume)
    requires VolumeInvariant(x)
    ensures PointersFit(x)
  {
  }

  /** A scan becomes ready only as the newest generation, fresh from Verified,
      and readers are refused from a begin until that happens. */
  lemma ReadyOnlyFromVerified(x: Volume, y: Volume, c: Call, managed: bool, expected: Option<Scan>, sourceReady: bool)
    requires VolumeInvariant(x) && Moves(x, y, c, managed)
    ensures x.pending.Some? ==> RequireReady(x, expected, sourceReady) == Err(Incomplete)
    ensures y.ready != x.ready || (x.pending.Some? && y.pending.None?) ==>
              MayBecomeReady(x, c) && y.ready == Some(Target(c)) && y.pending.None? && c.scan.generation == Newest(x)
  {
  }

  /** After a change, the same call changes nothing more, whatever the other
      components answer the second time. */
  lemma ReissueChangesNothing(x: Volume, c: Call, managed: bool, sourceReady: bool, again: bool)
    requires VolumeInvariant(x) && Verdict(x, c, sourceReady).Ok?
    requires Verdict(x, c, sourceReady).value in {Reconciling, NowReady, Cancelled}
    ensures var y := Effect(x, c, managed, Verdict(x, c, sourceReady).value);
            Verdict(y, c, again).Ok? && Verdict(y, c, again).value !in {Reconciling, NowReady, Cancelled}
  {
    VerdictMoves(x, c, managed, sourceReady);
    var y := Effect(x, c, managed, Verdict(x, c, sourceReady).value);
    assert Objection(y.ready, c).None? && Objection(y.pending, c).None?;
    assert Lookup(y.manifests, c.scan.id).Some? && y.manifests[c.scan.id] == Mark(c, y.manifests[c.scan.id].state);
  }
}
