/** The whole managed catalog as one transactional store, and every call on it
    as one step (src/managed_catalog.rs, src/managed_catalog/requests.rs,
    src/managed_catalog/verification.rs). A retry after a lost commit result is
    the same step again. */
module Catalog {
  import opened Outcomes
  import opened ByteStrings
  import opened Names
  import opened Records
  import opened Receipts
  import opened Volumes
  import opened Verification
  import opened Namespaces
  import Scans

  datatype State = State(
    scans: Scans.State,
    spaces: map<Uuid, Space>,
    copies: map<Entry, PhysicalCopy>)

  const EMPTY := State(Scans.EMPTY, map[], map[])

  function Vol(s: State, u: Uuid): Volume {
    Scans.At(s.scans, u)
  }

  function WithVol(s: State, u: Uuid, x: Volume): State {
    if x == Vol(s, u) then s else s.(scans := Scans.WithVolume(s.scans, u, x))
  }

  function WithSpace(s: State, ns: Uuid, space: Space): State {
    s.(spaces := s.spaces[ns := space])
  }

  // ---------------------------------------------------------------- publish

  /** Ordinary commits go to ready scans of Ready namespaces; imports go to the
      scan being built, into a namespace being built. */
  datatype Mode = Ordinary | Import

  function RequiredPhase(mode: Mode): Phase {
    if mode.Import? then NsBuilding else NsReady
  }

  function RequiredState(mode: Mode): ScanState {
    if mode.Import? then Building else Ready
  }

  datatype PublishOutcome =
    | Published(version: U64) | Answered(request: RequestOutcome) | PublishStale | VersionConflict | SlotConflict
    | OperationConflict | NoParent | NodeConflict | VolumeNotReady | NotInPhase

  /** Answers of other components: the attributes match the receipt's digest, the
      copy identity derived from the receipt, whether the placement matches, the
      admission permit is still held, and the attribute object is complete. */
  datatype PublishAnswers = PublishAnswers(metadata: bool, derivedCopy: Uuid, placement: bool, permit: bool, stored: bool)

  /** Discarded namespaces, the request window and recorded results come first. */
  function Admission(space: Option<Space>, r: Receipt, mode: Mode): Option<Result<PublishOutcome>> {
    if space.Some? && space.value.phase == NsDiscarded then Some(Ok(NotInPhase))
    else if space.Some? && Settled(space.value, r).Some? then Some(Ok(Answered(Settled(space.value, r).value)))
    else if space.None? || space.value.phase != RequiredPhase(mode) then Some(Ok(NotInPhase))
    else None
  }

  /** Then the registered intent, the owner fence and the volume's scan. */
  function Fence(s: Space, x: Volume, owner: Option<U64>, r: Receipt, mode: Mode, a: PublishAnswers): Option<Result<PublishOutcome>> {
    var pointer := if mode.Import? then x.pending else x.ready;
    if r.copy != a.derivedCopy then Some(Ok(Answered(InvalidCopy)))
    else if OpOf(r) !in s.intents then Some(Ok(Answered(NotRegistered)))
    else if Fingerprint(s.intents[OpOf(r)]) != Fingerprint(r) then Some(Ok(Answered(RequestConflict)))
    else if !a.placement then Some(Ok(Answered(PlacementMismatch)))
    else if owner != Some(r.ownerEpoch) then Some(Ok(PublishStale))
    else if pointer != Some(Pointer(ReceiptScan(r), r.serial)) then Some(Ok(VolumeNotReady))
    else if Lookup(x.manifests, r.scanId) != Some(Manifest(ReceiptScan(r), r.serial, RequiredState(mode))) then Some(Ok(VolumeNotReady))
    else if mode.Ordinary? && x.pending.Some? then Some(Ok(VolumeNotReady))
    else None
  }

  /** Then the name, the version and the copy record. */
  function Naming(s: Space, taken: bool, r: Receipt, attributes: Option<Attributes>, a: PublishAnswers): Option<Result<PublishOutcome>> {
    var node, child := Lookup(s.nodes, r.file), Lookup(s.children, Slot(r.parent, r.name));
    if r.parent !in s.nodes || !s.nodes[r.parent].kind.Directory? then Some(Ok(NoParent))
    else if node.Some? && (!node.value.kind.File? || node.value.parent != r.parent || node.value.name != r.name) then Some(Ok(NodeConflict))
    else if node.Some? && node.value.attributes.Some? && attributes.None? then Some(Ok(OperationConflict))
    else if (if r.file in s.heads then s.heads[r.file].version else 0) != Expected(r) then Some(Ok(VersionConflict))
    else if child.Some? && child.value != r.file then Some(Ok(SlotConflict))
    else if child.None? && Expected(r) != 0 then Some(Ok(SlotConflict))
    else if taken then Some(Ok(OperationConflict))
    else if !a.permit then Some(Err(Corrupt))
    else if !a.stored then Some(Err(Incomplete))
    else None
  }

  function EntryOf(r: Receipt): Entry {
    Entry(r.ns, r.file, r.copy)
  }

  function PublishVerdict(s: State, r: Receipt, mode: Mode, attributes: Option<Attributes>, a: PublishAnswers): Result<PublishOutcome> {
    if !ValidReceipt(r) || !a.metadata then Err(Invalid)
    else
      var first := Admission(Lookup(s.spaces, r.ns), r, mode);
      if first.Some? then first.value
      else
        var second := Fence(s.spaces[r.ns], Vol(s, r.volume), Lookup(s.scans.owners, r.serial), r, mode, a);
        if second.Some? then second.value
        else
          var third := Naming(s.spaces[r.ns], EntryOf(r) in s.copies, r, attributes, a);
          if third.Some? then third.value else Ok(Published(Expected(r) + 1))
  }

  /** The namespace records one commit writes together. */
  function PublishedSpace(s: Space, r: Receipt, attributes: Option<Attributes>, version: U64): Space {
    Linked(s, r.file, Node(File, None, r.parent, r.name, attributes))
      .(heads := s.heads[r.file := FileHead(version, r.size, r.copy)],
        ops := s.ops[OpOf(r) := Applied(Fingerprint(r), version)],
        intents := s.intents - {OpOf(r)})
  }

  function WithRow(x: Volume, id: Uuid, e: Entry, row: Row): Volume {
    x.(rows := x.rows[id := Rows(x, id)[e := row]])
  }

  function PublishEffect(s: State, r: Receipt, attributes: Option<Attributes>, version: U64): State
    requires r.ns in s.spaces
  {
    var x := WithRow(Vol(s, r.volume), r.scanId, EntryOf(r), Row(version, Fingerprint(r)));
    WithVol(WithSpace(s, r.ns, PublishedSpace(s.spaces[r.ns], r, attributes, version)), r.volume, x)
      .(copies := s.copies[EntryOf(r) := CopyOf(r, version)])
  }

  /** `publish_in_state`: all records of a commit, or none. */
  function Publish(s: State, r: Receipt, mode: Mode, attributes: Option<Attributes>, a: PublishAnswers): State {
    match PublishVerdict(s, r, mode, attributes, a)
    case Ok(Published(version)) => if r.ns in s.spaces then PublishEffect(s, r, attributes, version) else s
    case _ => s
  }

  // ------------------------------------------------------------------- steps

  datatype Step =
    | OwnerStep(serial: Bytes, epoch: U64)
    | PlaceStep(volume: Uuid, ns: Uuid, serial: Bytes, epoch: U64, allowed: bool)
    | ScanStep(call: Call, answers: Scans.Answers)
    | FreezeStep(call: Call, expected: Summary, sourceReady: bool)
    | VerifyStep(call: Call, limit: nat, page: set<Entry>, evidence: Evidence)
    | PurgeStep(volume: Uuid, scan: Scan, limit: nat, doomed: set<Entry>)
    | SpaceStep(ns: Uuid, phase: Phase, managed: bool)
    | PhaseStep(ns: Uuid, phase: Phase)
    | DirectoryStep(ns: Uuid, parent: Uuid, name: Bytes, id: Uuid, required: Phase, attributes: Option<Attributes>, dir: DirectoryAnswers)
    | RegisterStep(receipt: Receipt, reg: RegisterAnswers)
    | CancelStep(receipt: Receipt, permitHeld: bool)
    | RotateStep(ns: Uuid, epoch: U64, capacity: bool)
    | FloorStep(ns: Uuid, epoch: U64, before: U64, held: bool)
    | ExpireStep(ns: Uuid, ops: set<OpId>)
    | PublishStep(receipt: Receipt, mode: Mode, attributes: Option<Attributes>, pub: PublishAnswers)

  /** Verification and freeze calls are fenced like scan transitions. */
  predicate OwnerHolds(s: State, c: Call) {
    Scans.ValidCall(c) && Lookup(s.scans.owners, c.serial) == Some(c.epoch)
  }

  /** `init_namespace` for a namespace that does not exist yet; otherwise nothing is written. */
  function CreateSpace(s: State, ns: Uuid, phase: Phase, managed: bool): State {
    if ns == NIL || ns in s.spaces then s
    else
      WithSpace(s, ns, NewSpace(phase))
        .(scans := if managed then s.scans.(revisions := s.scans.revisions[ns := 0]) else s.scans)
  }

  /** Verification and cutover move namespace phases; a discarded namespace stays discarded. */
  function ChangePhase(s: State, ns: Uuid, phase: Phase): State {
    if ns !in s.spaces || s.spaces[ns].phase == NsDiscarded then s
    else WithSpace(s, ns, s.spaces[ns].(phase := phase))
  }

  ghost function Next(s: State, step: Step): State {
    match step
    case OwnerStep(serial, epoch) => s.(scans := Scans.AdvanceOwner(s.scans, serial, epoch))
    case PlaceStep(u, ns, serial, epoch, allowed) => s.(scans := Scans.Place(s.scans, u, ns, serial, epoch, allowed))
    case ScanStep(c, a) => s.(scans := Scans.Transition(s.scans, c, a))
    case FreezeStep(c, expected, ready) =>
      if OwnerHolds(s, c) then WithVol(s, c.volume, Freeze(Vol(s, c.volume), c, expected, ready)) else s
    case VerifyStep(c, limit, page, a) =>
      if OwnerHolds(s, c) && 1 <= limit <= 100
      then WithVol(s, c.volume, Verify(Vol(s, c.volume), s.copies, c, limit, page, a)) else s
    case PurgeStep(u, scan, limit, doomed) =>
      if u != NIL && ValidScan(scan) && 1 <= limit <= 1000 then WithVol(s, u, Purged(Vol(s, u), scan, doomed)) else s
    case SpaceStep(ns, phase, managed) => CreateSpace(s, ns, phase, managed)
    case PhaseStep(ns, phase) => ChangePhase(s, ns, phase)
    case DirectoryStep(ns, parent, name, id, required, attributes, a) =>
      if ns in s.spaces then WithSpace(s, ns, MakeDirectory(s.spaces[ns], parent, name, id, required, attributes, a)) else s
    case RegisterStep(r, a) => if r.ns in s.spaces then WithSpace(s, r.ns, Register(s.spaces[r.ns], r, a)) else s
    case CancelStep(r, held) =>
      if r.ns in s.spaces then WithSpace(s, r.ns, CancelRequest(s.spaces[r.ns], r, Lookup(s.scans.owners, r.serial), held)) else s
    case RotateStep(ns, epoch, capacity) => if ns in s.spaces then WithSpace(s, ns, Rotate(s.spaces[ns], epoch, capacity)) else s
    case FloorStep(ns, epoch, before, held) =>
      if ns in s.spaces then WithSpace(s, ns, AdvanceFloor(s.spaces[ns], epoch, before, held)) else s
    case ExpireStep(ns, ops) => if ns in s.spaces then WithSpace(s, ns, PurgeExpired(s.spaces[ns], ops)) else s
    case PublishStep(r, mode, attributes, a) => Publish(s, r, mode, attributes, a)
  }

  /** What the store itself guarantees about range reads inside a step: a
      verification reads the next page, a purge reads up to `limit` rows. */
  ghost predicate Possible(s: State, step: Step) {
    match step
    case VerifyStep(c, limit, page, _) =>
      var x := Vol(s, c.volume);
      c.scan.id in x.progress ==> IsPage(Remaining(Rows(x, c.scan.id), x.progress[c.scan.id].cursor), limit, page)
    case PurgeStep(u, scan, limit, doomed) =>
      var rows := Rows(Vol(s, u), scan.id).Keys;
      doomed <= rows && |doomed| == if |rows| < limit then |rows| else limit
    case _ => true
  }
}
