/** What publishing, freezing and verifying answer and store, told from the records
    alone (src/managed_catalog.rs: `publish_in_state`; src/managed_catalog/verification.rs). */
module CatalogAnswers {
  import opened Outcomes
  import opened ByteStrings
  import Names
  import opened Records
  import opened Receipts
  import opened Volumes
  import opened Verification
  import opened Namespaces
  import opened Catalog
  import opened CatalogInvariant
  import opened ScanAnswers
  import opened CatalogRuns
  import Scans

  // ------------------------------------------------------------------ publishing

  /** The copy record of one commit: where its bytes are on tape and what they are. */
  predicate CopyStored(copies: map<Entry, PhysicalCopy>, r: Receipt, version: U64) {
    Entry(r.ns, r.file, r.copy) in copies &&
    var k := copies[Entry(r.ns, r.file, r.copy)];
    k.version == version && k.requestEpoch == r.requestEpoch && k.volume == r.volume && k.generation == r.generation &&
    k.scanId == r.scanId && k.fileUid == r.fileUid && k.size == r.size && k.content == r.content
  }

  /** The namespace records: head, node, directory entry and the operation's result. */
  predicate NamingStored(p: Space, q: Space, r: Receipt, attributes: Option<Attributes>, version: U64) {
    var slot, op := Slot(r.parent, r.name), OpId(r.requestEpoch, r.operation);
    && r.file in q.heads && q.heads[r.file].version == version && q.heads[r.file].size == r.size && q.heads[r.file].copy == r.copy
    && r.file in q.nodes && q.nodes[r.file].kind == File && q.nodes[r.file].parent == r.parent && q.nodes[r.file].name == r.name
    && q.nodes[r.file].attributes == attributes
    && Lookup(q.children, slot) == Some(r.file)
    && op in q.ops && q.ops[op].Applied? && q.ops[op].version == version && q.ops[op].fingerprint == Fingerprint(r)
    && q == p.(heads := p.heads[r.file := q.heads[r.file]], nodes := p.nodes[r.file := q.nodes[r.file]], children := p.children[slot := r.file],
               ops := p.ops[op := q.ops[op]], intents := p.intents - {op})
  }

  /** The reverse-index row of the scan written to. */
  predicate RowStored(x: Volume, y: Volume, r: Receipt, version: U64) {
    var e := Entry(r.ns, r.file, r.copy);
    e in Rows(y, r.scanId) && Rows(y, r.scanId)[e].version == version && Rows(y, r.scanId)[e].fingerprint == Fingerprint(r) &&
    y == x.(rows := x.rows[r.scanId := Rows(x, r.scanId)[e := Rows(y, r.scanId)[e]]])
  }

  /** Everything one commit writes, and nothing else. */
  predicate CommitStored(s: State, t: State, r: Receipt, attributes: Option<Attributes>, version: U64) {
    && CopyStored(t.copies, r, version) && t.copies == s.copies[Entry(r.ns, r.file, r.copy) := t.copies[Entry(r.ns, r.file, r.copy)]]
    && r.ns in s.spaces && r.ns in t.spaces && NamingStored(s.spaces[r.ns], t.spaces[r.ns], r, attributes, version)
    && t.spaces == s.spaces[r.ns := t.spaces[r.ns]]
    && RowStored(Vol(s, r.volume), Vol(t, r.volume), r, version)
    && t.scans == s.scans.(volumes := s.scans.volumes[r.volume := Vol(t, r.volume)])
  }

  lemma NamingIsStored(p: Space, r: Receipt, attributes: Option<Attributes>, version: U64)
    ensures NamingStored(p, PublishedSpace(p, r, attributes, version), r, attributes, version)
  {
    hide Fingerprint;
  }

  lemma RowIsStored(x: Volume, r: Receipt, version: U64)
    ensures RowStored(x, WithRow(x, r.scanId, EntryOf(r), Row(version, Fingerprint(r))), r, version)
  {
    hide Fingerprint;
  }

  lemma EffectIsStored(s: State, r: Receipt, attributes: Option<Attributes>, version: U64)
    requires r.ns in s.spaces
    ensures CommitStored(s, PublishEffect(s, r, attributes, version), r, attributes, version)
  {
    hide Fingerprint, PublishedSpace, WithRow, NamingStored, RowStored;
    NamingIsStored(s.spaces[r.ns], r, attributes, version);
    RowIsStored(Vol(s, r.volume), r, version);
    RowIsNew(Vol(s, r.volume), r, version);
  }

  lemma RowIsNew(x: Volume, r: Receipt, version: U64)
    ensures WithRow(x, r.scanId, EntryOf(r), Row(version, Fingerprint(r))) != UNKNOWN_VOLUME
  {
    hide Fingerprint;
    assert EntryOf(r) in Rows(WithRow(x, r.scanId, EntryOf(r), Row(version, Fingerprint(r))), r.scanId);
  }

  /** A publish that answers Published(v) has stored, field by field, a copy record with
      the receipt's place on tape and digest, the head, the node, the directory entry, the
      operation's result and the reverse-index row; nothing else has changed. */
  lemma PublishStores(s: State, r: Receipt, mode: Mode, attributes: Option<Attributes>, a: PublishAnswers, version: U64)
    requires PublishVerdict(s, r, mode, attributes, a) == Ok(Published(version))
    ensures CommitStored(s, Next(s, PublishStep(r, mode, attributes, a)), r, attributes, version)
  {
    hide PublishVerdict, ValidReceipt, Fingerprint, Naming, PublishEffect, CommitStored;
    PublishFacts(s, r, mode, attributes, a, version);
    EffectIsStored(s, r, attributes, version);
  }

  /** When a commit is applied. The version is the file's next one; a new file needs a
      free name and an unused id, a later version the name, the file and its head as
      expected; the scan is the one that takes such commits now; and the request is the
      registered one in every field but the owner's epoch. */
  predicate MayCommit(s: State, r: Receipt, mode: Mode, attributes: Option<Attributes>, a: PublishAnswers, version: U64) {
    && ValidReceipt(r) && a.metadata && a.placement && a.permit && a.stored && r.copy == a.derivedCopy
    && version == (if r.expected.None? then 1 else r.expected.value + 1)
    && r.ns in s.spaces && s.spaces[r.ns].phase == (if mode.Import? then NsBuilding else NsReady)
    && Asked(s.spaces[r.ns], r)
    && r.serial in s.scans.owners && s.scans.owners[r.serial] == r.ownerEpoch
    && TakesCommits(Vol(s, r.volume), r, mode)
    && MayName(s.spaces[r.ns], r, attributes) && Entry(r.ns, r.file, r.copy) !in s.copies
  }

  predicate Asked(p: Space, r: Receipt) {
    var op := OpId(r.requestEpoch, r.operation);
    op in p.intents && p.intents[op] == r.(ownerEpoch := p.intents[op].ownerEpoch)
  }

  predicate TakesCommits(x: Volume, r: Receipt, mode: Mode) {
    r.scanId in x.manifests &&
    x.manifests[r.scanId] == Manifest(Scan(r.generation, r.scanId), r.serial, if mode.Import? then Building else Ready) &&
    (mode.Ordinary? ==> x.pending.None?)
  }

  predicate MayName(p: Space, r: Receipt, attributes: Option<Attributes>) {
    r.parent in p.nodes && p.nodes[r.parent].kind == Directory &&
    if r.expected.None? then Slot(r.parent, r.name) !in p.children && r.file !in p.nodes
    else
      Lookup(p.children, Slot(r.parent, r.name)) == Some(r.file) && r.file in p.nodes && p.nodes[r.file].kind == File &&
      r.file in p.heads && p.heads[r.file].version == r.expected.value && (p.nodes[r.file].attributes.Some? ==> attributes.Some?)
  }

  lemma AskedExactly(p: Space, r: Receipt)
    requires RequestsFit(p) && ValidReceipt(r)
    ensures Asked(p, r) <==> Settled(p, r).None? && OpOf(r) in p.intents && Fingerprint(p.intents[OpOf(r)]) == Fingerprint(r)
  {
    hide Fingerprint, ValidReceipt;
    if OpOf(r) in p.intents { FingerprintIsInjective(p.intents[OpOf(r)], r); }
  }

  lemma TakesCommitsExactly(x: Volume, r: Receipt, mode: Mode)
    requires VolumeInvariant(x)
    ensures TakesCommits(x, r, mode) <==>
              (if mode.Import? then x.pending else x.ready) == Some(Pointer(ReceiptScan(r), r.serial)) &&
              Lookup(x.manifests, r.scanId) == Some(Manifest(ReceiptScan(r), r.serial, RequiredState(mode))) &&
              (mode.Ordinary? ==> x.pending.None?)
  {
    if r.scanId in x.manifests { PointersTell(x, r.scanId); }
  }

  lemma MayNameExactly(ns: Uuid, p: Space, copies: map<Entry, PhysicalCopy>, r: Receipt, attributes: Option<Attributes>, a: PublishAnswers)
    requires IsTree(p) && FilesFit(ns, p, copies) && ValidReceipt(r)
    ensures MayName(p, r, attributes) && a.permit && a.stored <==> Naming(p, false, r, attributes, a).None?
  {
    hide Fingerprint, Rooted;
    assert r.file in p.nodes && r.file != NIL ==> NodeLinked(p, r.file);
    assert Slot(r.parent, r.name) in p.children ==> EntryLinked(p, Slot(r.parent, r.name));
    assert r.file in p.heads ==> FileFits(ns, r.file, p.heads[r.file], copies);
  }

  /** Publishing answers Published exactly when the commit may be applied. */
  lemma PublishedExactly(s: State, r: Receipt, mode: Mode, attributes: Option<Attributes>, a: PublishAnswers, version: U64)
    requires Invariant(s)
    ensures PublishVerdict(s, r, mode, attributes, a) == Ok(Published(version)) <==> MayCommit(s, r, mode, attributes, a, version)
  {
    hide Invariant, ValidReceipt, Fingerprint, Naming, Settled, Asked, TakesCommits, MayName, IsTree, FilesFit, RequestsFit, VolumeInvariant;
    VolumeKnown(s, r.volume);
    if ValidReceipt(r) && r.ns in s.spaces {
      var p := s.spaces[r.ns];
      SpaceKnown(s, r.ns);
      AskedExactly(p, r);
      TakesCommitsExactly(Vol(s, r.volume), r, mode);
      MayNameExactly(r.ns, p, s.copies, r, attributes, a);
      NamingStops(p, EntryOf(r) in s.copies, r, attributes, a);
      AdmissionStops(p, r, mode);
      FenceStops(p, Vol(s, r.volume), Lookup(s.scans.owners, r.serial), r, mode, a);
      NextIsExpected(r);
    }
  }

  lemma VolumeKnown(s: State, u: Uuid)
    requires Invariant(s)
    ensures VolumeInvariant(Vol(s, u))
  {
  }

  lemma NextIsExpected(r: Receipt)
    requires ValidReceipt(r)
    ensures Expected(r) + 1 == if r.expected.None? then 1 else r.expected.value + 1
  {
  }

  lemma NamingStops(p: Space, taken: bool, r: Receipt, attributes: Option<Attributes>, a: PublishAnswers)
    ensures match Naming(p, taken, r, attributes, a) case Some(Ok(outcome)) => !outcome.Published? case _ => true
    ensures Naming(p, taken, r, attributes, a).None? <==> !taken && Naming(p, false, r, attributes, a).None?
  {
  }

  lemma AdmissionStops(p: Space, r: Receipt, mode: Mode)
    ensures match Admission(Some(p), r, mode) case Some(Ok(outcome)) => !outcome.Published? case _ => true
    ensures Admission(Some(p), r, mode).None? <==> Settled(p, r).None? && p.phase == if mode.Import? then NsBuilding else NsReady
  {
    hide Settled;
  }

  lemma FenceStops(p: Space, x: Volume, owner: Option<U64>, r: Receipt, mode: Mode, a: PublishAnswers)
    ensures match Fence(p, x, owner, r, mode, a) case Some(Ok(outcome)) => !outcome.Published? case _ => true
    ensures Fence(p, x, owner, r, mode, a).None? <==>
              r.copy == a.derivedCopy && OpOf(r) in p.intents && Fingerprint(p.intents[OpOf(r)]) == Fingerprint(r) && a.placement &&
              owner == Some(r.ownerEpoch) && (if mode.Import? then x.pending else x.ready) == Some(Pointer(ReceiptScan(r), r.serial)) &&
              Lookup(x.manifests, r.scanId) == Some(Manifest(ReceiptScan(r), r.serial, RequiredState(mode))) &&
              (mode.Ordinary? ==> x.pending.None?)
  {
    hide Fingerprint;
  }

  /** What each refusal of a publish says about the records, check by check. */
  predicate WindowTold(p: Space, r: Receipt, mode: Mode, told: Result<PublishOutcome>) {
    var op := OpId(r.requestEpoch, r.operation);
    match told
    case Ok(NotInPhase) => p.phase == NsDiscarded || (op !in p.ops && p.phase != if mode.Import? then NsBuilding else NsReady)
    case Ok(Answered(Expired)) => r.requestEpoch < p.window.first
    case Ok(Answered(EpochClosed)) => r.requestEpoch > p.window.accepting
    case Ok(Answered(AlreadyApplied(v))) => op in p.ops && p.ops[op] == Applied(Fingerprint(r), v)
    case Ok(Answered(RequestCancelled)) => op in p.ops && p.ops[op] == Dropped(Fingerprint(r))
    case Ok(Answered(RequestConflict)) => op in p.ops && p.ops[op].fingerprint != Fingerprint(r)
    case _ => false
  }

  predicate FenceTold(p: Space, x: Volume, owner: Option<U64>, r: Receipt, mode: Mode, a: PublishAnswers, told: Result<PublishOutcome>) {
    var op := OpId(r.requestEpoch, r.operation);
    match told
    case Ok(Answered(NotRegistered)) => op !in p.ops && op !in p.intents
    case Ok(Answered(RequestConflict)) => op in p.intents && Fingerprint(p.intents[op]) != Fingerprint(r)
    case Ok(Answered(InvalidCopy)) => r.copy != a.derivedCopy
    case Ok(Answered(PlacementMismatch)) => !a.placement
    case Ok(PublishStale) => owner != Some(r.ownerEpoch)
    case Ok(VolumeNotReady) => owner == Some(r.ownerEpoch) && !TakesCommits(x, r, mode)
    case _ => false
  }

  predicate NamingTold(p: Space, taken: bool, r: Receipt, attributes: Option<Attributes>, a: PublishAnswers, told: Result<PublishOutcome>) {
    var node, child := Lookup(p.nodes, r.file), Lookup(p.children, Slot(r.parent, r.name));
    match told
    case Ok(NoParent) => r.parent !in p.nodes || p.nodes[r.parent].kind == File
    case Ok(NodeConflict) => node.Some? && (node.value.kind == Directory || node.value.parent != r.parent || node.value.name != r.name)
    case Ok(VersionConflict) => (if r.file in p.heads then Some(p.heads[r.file].version) else None) != r.expected
    case Ok(SlotConflict) => child != Some(r.file) && (child.Some? || r.expected.Some?)
    case Ok(OperationConflict) => taken || (node.Some? && node.value.attributes.Some? && attributes.None?)
    case Err(Corrupt) => !a.permit
    case Err(Incomplete) => !a.stored
    case _ => false
  }

  predicate RefusedFor(s: State, r: Receipt, mode: Mode, attributes: Option<Attributes>, a: PublishAnswers, told: Result<PublishOutcome>) {
    if !ValidReceipt(r) || !a.metadata then told == Err(Invalid)
    else if r.ns !in s.spaces then told == Ok(NotInPhase)
    else
      var p := s.spaces[r.ns];
      || WindowTold(p, r, mode, told)
      || FenceTold(p, Vol(s, r.volume), Lookup(s.scans.owners, r.serial), r, mode, a, told)
      || NamingTold(p, Entry(r.ns, r.file, r.copy) in s.copies, r, attributes, a, told)
  }

  lemma WindowTells(p: Space, r: Receipt, mode: Mode)
    requires Admission(Some(p), r, mode).Some?
    ensures WindowTold(p, r, mode, Admission(Some(p), r, mode).value)
  {
    hide Fingerprint;
  }

  lemma FenceTells(p: Space, x: Volume, owner: Option<U64>, r: Receipt, mode: Mode, a: PublishAnswers)
    requires VolumeInvariant(x) && Settled(p, r).None? && Fence(p, x, owner, r, mode, a).Some?
    ensures FenceTold(p, x, owner, r, mode, a, Fence(p, x, owner, r, mode, a).value)
  {
    hide Fingerprint, VolumeInvariant, TakesCommits;
    TakesCommitsExactly(x, r, mode);
  }

  lemma NamingTells(p: Space, taken: bool, r: Receipt, attributes: Option<Attributes>, a: PublishAnswers)
    requires ValidReceipt(r) && (r.file in p.heads ==> p.heads[r.file].version > 0) && Naming(p, taken, r, attributes, a).Some?
    ensures NamingTold(p, taken, r, attributes, a, Naming(p, taken, r, attributes, a).value)
  {
    hide Fingerprint, ValidReceipt;
    ExpectedIsNone(r);
  }

  /** Every answer but Published names a reason that holds of the records. */
  lemma RefusalsTold(s: State, r: Receipt, mode: Mode, attributes: Option<Attributes>, a: PublishAnswers)
    requires Invariant(s)
    ensures var told := PublishVerdict(s, r, mode, attributes, a);
            (told.Ok? && told.value.Published?) || RefusedFor(s, r, mode, attributes, a, told)
  {
    hide Invariant, ValidReceipt, Admission, Fence, Naming, WindowTold, FenceTold, NamingTold, Settled, VolumeInvariant;
    VolumeKnown(s, r.volume);
    if ValidReceipt(r) && a.metadata {
      if r.ns in s.spaces {
        var p, x, owner := s.spaces[r.ns], Vol(s, r.volume), Lookup(s.scans.owners, r.serial);
        HeadsArePositive(s, r.ns, r.file);
        AdmissionStops(p, r, mode);
        if Admission(Some(p), r, mode).Some? {
          WindowTells(p, r, mode);
        } else if Fence(p, x, owner, r, mode, a).Some? {
          FenceTells(p, x, owner, r, mode, a);
        } else if Naming(p, EntryOf(r) in s.copies, r, attributes, a).Some? {
          NamingTells(p, EntryOf(r) in s.copies, r, attributes, a);
        }
      } else {
        UnknownSpace(r, mode);
      }
    }
  }

  lemma UnknownSpace(r: Receipt, mode: Mode)
    ensures Admission(None, r, mode) == Some(Ok(NotInPhase))
  {
  }

  lemma ExpectedIsNone(r: Receipt)
    requires ValidReceipt(r)
    ensures r.expected != Some(0)
  {
  }

  lemma HeadsArePositive(s: State, ns: Uuid, f: Uuid)
    requires Invariant(s) && ns in s.spaces
    ensures f in s.spaces[ns].heads ==> s.spaces[ns].heads[f].version > 0
  {
    assert SpaceFits(ns, s.spaces[ns], s.copies);
    assert f in s.spaces[ns].heads ==> FileFits(ns, f, s.spaces[ns].heads[f], s.copies);
  }

  /** No step changes a copy record once it is written. */
  lemma StepKeepsCopies(s: State, step: Step, e: Entry)
    requires e in s.copies
    ensures e in Next(s, step).copies && Next(s, step).copies[e] == s.copies[e]
  {
    hide Scans.Transition, Scans.AdvanceOwner, Scans.Place, Freeze, Verify, Purged, PublishVerdict, CommitStored, Fingerprint, MakeDirectory;
    if step.PublishStep? {
      PublishKeepsCopies(s, step.receipt, step.mode, step.attributes, step.pub, e);
    }
  }

  lemma PublishKeepsCopies(s: State, r: Receipt, mode: Mode, attributes: Option<Attributes>, a: PublishAnswers, e: Entry)
    requires e in s.copies
    ensures e in Publish(s, r, mode, attributes, a).copies && Publish(s, r, mode, attributes, a).copies[e] == s.copies[e]
  {
    hide PublishVerdict, Fingerprint, ValidReceipt, Naming;
    var verdict := PublishVerdict(s, r, mode, attributes, a);
    if verdict.Ok? && verdict.value.Published? {
      PublishFacts(s, r, mode, attributes, a, verdict.value.version);
      NamingStops(s.spaces[r.ns], EntryOf(r) in s.copies, r, attributes, a);
    }
  }

  /** So in every run a published copy keeps naming the same bytes on the same tape. */
  lemma {:induction false} CopiesStay(steps: seq<Step>, i: nat, j: nat, e: Entry)
    requires i <= j <= |steps| && e in After(steps[..i]).copies
    ensures e in After(steps[..j]).copies && After(steps[..j]).copies[e] == After(steps[..i]).copies[e]
    decreases j
  {
    hide Next;
    if i < j {
      CopiesStay(steps, i, j - 1, e);
      OneMore(steps, j - 1);
      StepKeepsCopies(After(steps[..j - 1]), steps[j - 1], e);
    }
  }

  // ----------------------------------------------------------------- verification

  predicate IsPending(x: Volume, c: Call) {
    x.pending == Some(Pointer(c.scan, c.serial))
  }

  /** The scan is the pending one and what a managed volume needs is there. */
  predicate Heard(x: Volume, c: Call, a: Evidence) {
    IsPending(x, c) && (a.managed ==> a.found && a.cache)
  }

  predicate HasState(x: Volume, id: Uuid, states: set<ScanState>) {
    id in x.manifests && x.manifests[id].state in states
  }

  /** The chain over all rows of a scan. */
  ghost function WholeChain(u: Uuid, x: Volume, scan: Scan, copies: map<Entry, PhysicalCopy>): Summary
    requires Rows(x, scan.id).Keys <= copies.Keys
  {
    FoldAll(Start(u, scan), Rows(x, scan.id).Keys, Rows(x, scan.id), copies)
  }

  /** What a verification call answers, told from the volume before (`x`) and after (`y`). */
  ghost predicate Tells(x: Volume, y: Volume, copies: map<Entry, PhysicalCopy>, c: Call, a: Evidence, told: Result<VerificationOutcome>) {
    var id := c.scan.id;
    match told
    case Ok(Matched(sum)) =>
      Heard(x, c, a) && HasState(y, id, {Verified}) && id in y.progress && Rows(y, id).Keys <= copies.Keys &&
      sum == y.progress[id].expected == WholeChain(c.volume, y, c.scan, copies)
    case Ok(Mismatch(expected, sum)) =>
      Heard(x, c, a) && HasState(y, id, {Rejected}) && id in y.progress && Rows(y, id).Keys <= copies.Keys &&
      expected == y.progress[id].expected != sum == WholeChain(c.volume, y, c.scan, copies)
    case Ok(Advanced(sum)) => Heard(x, c, a) && HasState(y, id, {Verifying}) && id in y.progress && sum == y.progress[id].actual
    case Ok(NotVerifying) => y == x && !(IsPending(x, c) && HasState(x, id, {Verifying, Verified, Rejected}))
    case Ok(SourceMissing) => y == x && IsPending(x, c) && HasState(x, id, {Verifying, Verified, Rejected}) && a.managed && !a.found
    case Ok(CacheRequired) => y == x && IsPending(x, c) && HasState(x, id, {Verifying, Verified, Rejected}) && a.managed && a.found && !a.cache
    case Err(error) =>
      y == x && error == Corrupt && Heard(x, c, a) && HasState(x, id, {Verifying}) && id in x.progress &&
      ((a.managed && !a.cacheAgrees) || x.progress[id].actual.entries + |Rows(x, id)| >= U64_LIMIT)
    case _ => false
  }

  /** What the invariant says about the scan a call names. */
  lemma PendingKnown(x: Volume, c: Call)
    requires VolumeInvariant(x) && IsPending(x, c)
    ensures c.scan.id in x.manifests && x.manifests[c.scan.id] == Manifest(c.scan, c.serial, x.manifests[c.scan.id].state)
    ensures PendingState(x, c) == Ok(Some(x.manifests[c.scan.id].state)) && x.manifests[c.scan.id].state != Ready
  {
  }

  lemma StoppedTells(x: Volume, copies: map<Entry, PhysicalCopy>, c: Call, a: Evidence)
    requires VolumeInvariant(x) && ProgressInvariant(c.volume, x, copies) && VerifyGate(x, c, a).Some?
    ensures Tells(x, x, copies, c, a, VerifyGate(x, c, a).value)
  {
    hide FoldAll, VolumeInvariant;
    if IsPending(x, c) {
      PendingKnown(x, c);
      assert Examined(x.manifests[c.scan.id].state) ==>
        ProgressFits(c.volume, x.manifests[c.scan.id], x.progress[c.scan.id], Rows(x, c.scan.id), copies);
    }
  }

  lemma RowsHold(u: Uuid, x: Volume, copies: map<Entry, PhysicalCopy>, c: Call, page: set<Entry>)
    requires VolumeInvariant(x) && RowsFit(u, x, copies) && c.volume == u && IsPending(x, c) && page <= Rows(x, c.scan.id).Keys
    ensures PageHolds(page, Rows(x, c.scan.id), copies, c)
  {
    hide VolumeInvariant;
    PendingKnown(x, c);
    forall e | e in page
      ensures e in copies && RowHolds(e, Rows(x, c.scan.id)[e], copies, c)
    {
      assert RowFits(u, x, c.scan.id, e, copies);
    }
  }

  lemma PageTells(x: Volume, copies: map<Entry, PhysicalCopy>, c: Call, limit: nat, page: set<Entry>, a: Evidence)
    requires VolumeInvariant(x) && VolumeFits(c.volume, x, copies) && VerifyGate(x, c, a).None? && limit > 0
    requires c.scan.id in x.progress && IsPage(Remaining(Rows(x, c.scan.id), x.progress[c.scan.id].cursor), limit, page)
    ensures Tells(x, Verify(x, copies, c, limit, page, a), copies, c, a, VerifyVerdict(x, copies, c, limit, page, a))
  {
    hide FoldAll, VolumeInvariant, Before, Greatest, RowsFit, RowHolds, PageHolds, ProgressInvariant, Remaining;
    var id, y, told := c.scan.id, Verify(x, copies, c, limit, page, a), VerifyVerdict(x, copies, c, limit, page, a);
    GateIsPassed(x, c, a);
    PendingKnown(x, c);
    PageIsPart(x, c, limit, page);
    RowsHold(c.volume, x, copies, c, page);
    VerifyKeepsProgress(c.volume, x, copies, c, limit, page, a);
    if told.Ok? {
      VerdictMarks(x, copies, c, limit, page, a);
      ProgressKnown(c.volume, y, copies, id);
    }
  }

  lemma GateIsPassed(x: Volume, c: Call, a: Evidence)
    requires VolumeInvariant(x) && VerifyGate(x, c, a).None?
    ensures Heard(x, c, a) && HasState(x, c.scan.id, {Verifying})
  {
    hide VolumeInvariant;
    if IsPending(x, c) { PendingKnown(x, c); }
  }

  lemma PageIsPart(x: Volume, c: Call, limit: nat, page: set<Entry>)
    requires c.scan.id in x.progress && IsPage(Remaining(Rows(x, c.scan.id), x.progress[c.scan.id].cursor), limit, page)
    ensures page <= Rows(x, c.scan.id).Keys && |page| <= |Rows(x, c.scan.id)|
  {
    hide Before;
    var rows := Rows(x, c.scan.id).Keys;
    assert rows == page + (rows - page);
  }

  lemma VerdictMarks(x: Volume, copies: map<Entry, PhysicalCopy>, c: Call, limit: nat, page: set<Entry>, a: Evidence)
    requires VerifyGate(x, c, a).None? && c.scan.id in x.progress && VerifyVerdict(x, copies, c, limit, page, a).Ok?
    requires HasState(x, c.scan.id, {Verifying})
    ensures var id, y, told := c.scan.id, Verify(x, copies, c, limit, page, a), VerifyVerdict(x, copies, c, limit, page, a).value;
            id in y.progress && id in y.manifests && Rows(y, id) == Rows(x, id) && y.progress[id].expected == x.progress[id].expected &&
            y.manifests[id].scan == (if y.manifests[id].state == Verifying then x.manifests[id].scan else c.scan) &&
            match told
            case Advanced(sum) => y.manifests[id].state == Verifying && sum == y.progress[id].actual
            case Matched(sum) => y.manifests[id].state == Verified && sum == y.progress[id].actual
            case Mismatch(expected, sum) => y.manifests[id].state == Rejected && sum == y.progress[id].actual && expected == y.progress[id].expected
            case _ => false
  {
    hide VerifyGate, FoldAll, Greatest, Remaining, PageHolds;
  }

  lemma ProgressKnown(u: Uuid, y: Volume, copies: map<Entry, PhysicalCopy>, id: Uuid)
    requires ProgressInvariant(u, y, copies) && HasState(y, id, {Verifying, Verified, Rejected})
    ensures id in y.progress && ProgressFits(u, y.manifests[id], y.progress[id], Rows(y, id), copies)
  {
    hide ProgressFits;
  }

  /** A verification call under the owner's epoch answers what the records then say: a
      match exactly when the scan is Verified and the whole chain is the expectation, a
      mismatch exactly when it is Rejected and they differ, progress only while it is
      still being verified. */
  lemma VerifyTells(s: State, c: Call, limit: nat, page: set<Entry>, a: Evidence)
    requires Invariant(s) && OwnerHolds(s, c) && 1 <= limit <= 100 && Possible(s, VerifyStep(c, limit, page, a))
    ensures var t := Next(s, VerifyStep(c, limit, page, a));
            Tells(Vol(s, c.volume), Vol(t, c.volume), s.copies, c, a, VerifyVerdict(Vol(s, c.volume), s.copies, c, limit, page, a)) &&
            t == WithVol(s, c.volume, Vol(t, c.volume))
  {
    hide Tells, VerifyVerdict, VerifyGate, FoldAll, IsPage, VolumeInvariant, Remaining, Invariant, VolumeFits, Scans.ValidCall;
    VolumeKnown(s, c.volume);
    RowsKnown(s, c.volume);
    var x := Vol(s, c.volume);
    StoppedHere(x, s.copies, c, limit, page, a);
    if VerifyGate(x, c, a).Some? {
      StoppedTells(x, s.copies, c, a);
    } else {
      PageTells(x, s.copies, c, limit, page, a);
    }
  }

  lemma RowsKnown(s: State, u: Uuid)
    requires Invariant(s)
    ensures VolumeFits(u, Vol(s, u), s.copies) && ProgressInvariant(u, Vol(s, u), s.copies)
  {
    hide ProgressInvariant, RowsFit;
    assert VolumeFits(u, Vol(s, u), s.copies);
  }

  lemma StoppedHere(x: Volume, copies: map<Entry, PhysicalCopy>, c: Call, limit: nat, page: set<Entry>, a: Evidence)
    ensures VerifyGate(x, c, a).Some? ==>
              Verify(x, copies, c, limit, page, a) == x && VerifyVerdict(x, copies, c, limit, page, a) == VerifyGate(x, c, a).value
    ensures VerifyGate(x, c, a).None? ==> c.scan.id in x.progress
  {
    hide FoldAll, Greatest, Remaining, PageHolds;
  }

  /** So the answers tell the states apart: these are all there is. */
  lemma MatchedExactly(x: Volume, y: Volume, copies: map<Entry, PhysicalCopy>, c: Call, a: Evidence, told: Result<VerificationOutcome>)
    requires Tells(x, y, copies, c, a, told) && VolumeInvariant(x)
    ensures told.Ok? && told.value.Matched? <==> Heard(x, c, a) && HasState(y, c.scan.id, {Verified})
    ensures told.Ok? && told.value.Mismatch? <==> Heard(x, c, a) && HasState(y, c.scan.id, {Rejected})
  {
    hide FoldAll, WholeChain;
    if IsPending(x, c) { PendingKnown(x, c); }
  }

  // ------------------------------------------------------- verification goes on

  /** Rows of the scan that verification has yet to pass. */
  function Left(x: Volume, id: Uuid): nat
    requires id in x.progress
  {
    |Remaining(Rows(x, id), x.progress[id].cursor)|
  }

  /** Each page passes as many rows as it may; it answers Advanced exactly when more are
      left than that, and then exactly that many fewer are left. So a scan of n rows is
      decided by the call that brings the pages to n rows together. */
  lemma VerifyGoesOn(x: Volume, copies: map<Entry, PhysicalCopy>, c: Call, limit: nat, page: set<Entry>, a: Evidence)
    requires VolumeInvariant(x) && VerifyGate(x, c, a).None? && VerifyVerdict(x, copies, c, limit, page, a).Ok? && limit > 0
    requires c.scan.id in x.progress && IsPage(Remaining(Rows(x, c.scan.id), x.progress[c.scan.id].cursor), limit, page)
    ensures var y, told := Verify(x, copies, c, limit, page, a), VerifyVerdict(x, copies, c, limit, page, a).value;
            c.scan.id in y.progress && (told.Advanced? <==> Left(x, c.scan.id) > limit) &&
            Left(y, c.scan.id) == if told.Advanced? then Left(x, c.scan.id) - limit else 0
  {
    hide FoldAll, VolumeInvariant, Before, PageHolds, VerifyGate;
    var rows, cursor := Rows(x, c.scan.id), x.progress[c.scan.id].cursor;
    PagePassed(rows, cursor, limit, page);
  }

  lemma PagePassed(rows: map<Entry, Row>, cursor: Option<Entry>, limit: nat, page: set<Entry>)
    requires IsPage(Remaining(rows, cursor), limit, page) && limit > 0
    ensures var after := if page == {} then cursor else Some(Greatest(page));
            Remaining(rows, after) == Remaining(rows, cursor) - page && |Remaining(rows, after)| == |Remaining(rows, cursor)| - |page|
  {
    hide Before, Remaining, IsPage;
    var rest := Remaining(rows, cursor);
    if page != {} {
      PageIsReached(rows, cursor, limit, page);
      RestIsTheRest(rows, Some(Greatest(page)));
      RestIsTheRest(rows, cursor);
    }
    PageOfRest(rest, limit, page);
  }

  lemma RestIsTheRest(rows: map<Entry, Row>, cursor: Option<Entry>)
    ensures Remaining(rows, cursor) == rows.Keys - Reached(rows, cursor)
  {
    hide Before;
  }

  lemma PageOfRest(rest: set<Entry>, limit: nat, page: set<Entry>)
    requires IsPage(rest, limit, page)
    ensures page <= rest && |rest - page| == |rest| - |page| && (page == {} ==> rest - page == rest)
  {
    hide Before;
    assert rest == page + (rest - page);
  }

  // --------------------------------------------------------------------- freezing

  /** What a freeze answers and writes, told from the volume's records. */
  ghost predicate FreezeTold(x: Volume, y: Volume, copies: map<Entry, PhysicalCopy>, c: Call, expected: Summary, sourceReady: bool,
                             told: Result<VerificationOutcome>) {
    var id := c.scan.id;
    IsPending(x, c) && id in x.manifests && (x.manifests[id].state == Building || !told.Ok? || told.value.NotVerifying? || id in x.progress) &&
    told.Ok? &&
    match told.value
    case Frozen =>
      if x.manifests[id].state == Building
      then sourceReady &&
           y == x.(progress := x.progress[id := Progress(expected, Summary(0, Seed(c.volume, c.scan)), None)],
                   manifests := x.manifests[id := Manifest(c.scan, c.serial, Verifying)])
      else y == x && x.manifests[id].state == Verifying && x.progress[id].expected == expected
    case SourceMissing => y == x && x.manifests[id].state == Building && !sourceReady
    case ExpectationConflict => y == x && x.manifests[id].state in {Verifying, Verified, Rejected} && x.progress[id].expected != expected
    case Matched(sum) =>
      y == x && x.manifests[id].state == Verified && Rows(x, id).Keys <= copies.Keys &&
      expected == x.progress[id].expected == sum == WholeChain(c.volume, x, c.scan, copies)
    case Mismatch(e, sum) =>
      y == x && x.manifests[id].state == Rejected && Rows(x, id).Keys <= copies.Keys &&
      e == expected == x.progress[id].expected != sum == WholeChain(c.volume, x, c.scan, copies)
    case NotVerifying => y == x && x.manifests[id].state == Retired
    case _ => false
  }

  /** Freezing under the owner's epoch: a scan being built is frozen with this expectation
      and nothing folded; one already examined is answered by its state, or with a
      conflict if the expectation is another one; any other scan is not verifying. */
  lemma FreezeTells(s: State, c: Call, expected: Summary, sourceReady: bool)
    requires Invariant(s) && OwnerHolds(s, c)
    ensures var x, y := Vol(s, c.volume), Vol(Next(s, FreezeStep(c, expected, sourceReady)), c.volume);
            var told := FreezeVerdict(x, c, expected, sourceReady);
            if IsPending(x, c) then FreezeTold(x, y, s.copies, c, expected, sourceReady, told)
            else y == x && told == Ok(NotVerifying)
  {
    hide FreezeTold, FreezeVerdict, Freeze, VolumeInvariant, ProgressInvariant, Invariant, VolumeFits, Scans.ValidCall;
    VolumeKnown(s, c.volume);
    RowsKnown(s, c.volume);
    FreezeTellsVolume(Vol(s, c.volume), s.copies, c, expected, sourceReady);
  }

  lemma FreezeTellsVolume(x: Volume, copies: map<Entry, PhysicalCopy>, c: Call, expected: Summary, sourceReady: bool)
    requires VolumeInvariant(x) && ProgressInvariant(c.volume, x, copies)
    ensures var y, told := Freeze(x, c, expected, sourceReady), FreezeVerdict(x, c, expected, sourceReady);
            if IsPending(x, c) then FreezeTold(x, y, copies, c, expected, sourceReady, told) else y == x && told == Ok(NotVerifying)
  {
    hide FoldAll, VolumeInvariant, ProgressInvariant;
    if IsPending(x, c) {
      PendingKnown(x, c);
      if HasState(x, c.scan.id, {Verifying, Verified, Rejected}) { ProgressKnown(c.volume, x, copies, c.scan.id); }
    }
  }

  // ---------------------------------------------------------- after a cancellation

  ghost predicate Begins(s: State, step: Step, u: Uuid) {
    step.ScanStep? && step.call.volume == u && Scans.TransitionOutcome(s.scans, step.call, step.answers) == Ok(Reconciling)
  }

  lemma StepStaysFree(s: State, step: Step, u: Uuid)
    requires Invariant(s) && !Busy(Vol(s, u)) && !Begins(s, step, u)
    ensures !Busy(Vol(Next(s, step), u))
  {
    hide Scans.Transition, Scans.TransitionOutcome, Publish, Invariant, Busy, Freeze, Verify, Scans.ValidCall, Purged, Begins, Scans.AdvanceOwner,
         Scans.Place, CreateSpace, ChangePhase, MakeDirectory, Register, CancelRequest, Rotate, AdvanceFloor, PurgeExpired;
    match step
    case ScanStep(c, a) => ScanStaysFree(s, c, a, u);
    case FreezeStep(c, expected, ready) => if c.volume == u { FreezeStaysFree(Vol(s, u), c, expected, ready); }
    case VerifyStep(c, limit, page, a) => if c.volume == u { VerifyStaysFree(Vol(s, u), s.copies, c, limit, page, a); }
    case PublishStep(r, mode, attributes, a) =>
      PublishStaysFree(s, r, mode, attributes, a, u);
      SameManifestsFree(Vol(s, u), Vol(Next(s, step), u));
    case _ =>
      OthersStayFree(s, step, u);
      SameManifestsFree(Vol(s, u), Vol(Next(s, step), u));
  }

  lemma OthersStayFree(s: State, step: Step, u: Uuid)
    requires !step.ScanStep? && !step.FreezeStep? && !step.VerifyStep? && !step.PublishStep?
    ensures Vol(Next(s, step), u).manifests == Vol(s, u).manifests
  {
    hide MakeDirectory, Register, CancelRequest, Rotate, AdvanceFloor, PurgeExpired;
  }

  lemma SameManifestsFree(x: Volume, y: Volume)
    requires y.manifests == x.manifests
    ensures Busy(y) <==> Busy(x)
  {
  }

  lemma ScanStaysFree(s: State, c: Call, a: Scans.Answers, u: Uuid)
    requires !Busy(Vol(s, u)) && !Begins(s, ScanStep(c, a), u)
    ensures !Busy(Scans.At(Scans.Transition(s.scans, c, a), u))
  {
    hide Scans.Transition, Scans.TransitionOutcome;
    OutcomeWritten(s.scans, c, a);
    var t, told := Scans.Transition(s.scans, c, a), Scans.TransitionOutcome(s.scans, c, a);
    if t != s.scans && u == c.volume {
      var x, y := Vol(s, u), Scans.At(t, u);
      forall id | id in y.manifests
        ensures y.manifests[id].state !in IN_PROGRESS
      {
        assert Lookup(y.manifests, id) == ManifestAfter(x, c, told.value, id);
      }
    }
  }

  lemma FreezeStaysFree(x: Volume, c: Call, expected: Summary, sourceReady: bool)
    requires !Busy(x)
    ensures !Busy(Freeze(x, c, expected, sourceReady))
  {
  }

  lemma VerifyStaysFree(x: Volume, copies: map<Entry, PhysicalCopy>, c: Call, limit: nat, page: set<Entry>, a: Evidence)
    requires !Busy(x)
    ensures Verify(x, copies, c, limit, page, a) == x
  {
    hide FoldAll, Greatest, Remaining, PageHolds;
  }

  lemma PublishStaysFree(s: State, r: Receipt, mode: Mode, attributes: Option<Attributes>, a: PublishAnswers, u: Uuid)
    ensures Vol(Publish(s, r, mode, attributes, a), u).manifests == Vol(s, u).manifests
  {
    hide PublishVerdict, PublishedSpace, Fingerprint;
  }

  lemma {:induction false} RunStaysFree(steps: seq<Step>, i: nat, j: nat, u: Uuid)
    requires Legal(steps) && i <= j <= |steps| && !Busy(Vol(After(steps[..i]), u))
    requires forall k: nat :: i <= k < j ==> !Begins(After(steps[..k]), steps[k], u)
    ensures !Busy(Vol(After(steps[..j]), u))
    decreases j
  {
    hide Legal, Next, Invariant, Busy;
    if i < j {
      RunStaysFree(steps, i, j - 1, u);
      InvariantHolds(steps, j - 1);
      OneMore(steps, j - 1);
      StepStaysFree(After(steps[..j - 1]), steps[j - 1], u);
    }
  }

  /** In any run: once a scan was cancelled, and until another one is begun, a begin with a
      fresh scan of a generation not older than any observed is admitted. */
  lemma ScannedAgainAfterCancel(steps: seq<Step>, i: nat, j: nat, again: Call, b: Scans.Answers)
    requires Legal(steps) && i < j <= |steps| && steps[i].ScanStep? && steps[i].call.volume == again.volume
    requires Scans.TransitionOutcome(After(steps[..i]).scans, steps[i].call, steps[i].answers) == Ok(Cancelled)
    requires forall k: nat :: i < k < j ==> !Begins(After(steps[..k]), steps[k], again.volume)
    requires again.action == Begin && again.serial == steps[i].call.serial && again.scan.id !in Vol(After(steps[..j]), again.volume).manifests
    requires again.scan.generation >= Newest(Vol(After(steps[..j]), again.volume))
    requires Admitted(After(steps[..j]).scans, again, b)
    ensures Scans.TransitionOutcome(After(steps[..j]).scans, again, b) == Ok(Reconciling)
  {
    hide Legal, Invariant, VolumeInvariant, Scans.TransitionOutcome, Scans.Transition, Admitted, Busy, After, Lives;
    var u, s, c, a := again.volume, After(steps[..i]), steps[i].call, steps[i].answers;
    InvariantHolds(steps, i);
    InvariantHolds(steps, j);
    OneMore(steps, i);
    ScansKnown(s);
    ScansKnown(After(steps[..j]));
    CancelFrees(s.scans, c, a);
    RunStaysFree(steps, i + 1, j, u);
    OutcomeWritten(s.scans, c, a);
    var y := Vol(After(steps[..i + 1]), u);
    assert Lookup(y.manifests, c.scan.id) == ManifestAfter(Vol(s, u), c, Cancelled, c.scan.id);
    VolumeLives(steps, i + 1, j, u);
    ManifestLives(y, Vol(After(steps[..j]), u), c.scan.id);
    VolumeKnown(After(steps[..j]), u);
    SerialsAgree(Vol(After(steps[..j]), u), again, c.scan.id);
    OutcomeFits(After(steps[..j]).scans, again, b, Reconciling);
  }

  lemma ScansKnown(s: State)
    requires Invariant(s)
    ensures Scans.Invariant(s.scans)
  {
  }

  lemma ManifestLives(x: Volume, y: Volume, id: Uuid)
    requires Lives(x, y) && id in x.manifests
    ensures id in y.manifests && y.manifests[id].serial == x.manifests[id].serial
  {
    assert ScanLives(x, y, id);
  }

  // ------------------------------------------------------ directories and requests

  /** What creating a directory answers and writes. */
  predicate DirectoryTold(p: Space, q: Space, parent: Uuid, name: Bytes, id: Uuid, required: Phase, attributes: Option<Attributes>,
                          a: DirectoryAnswers, told: Result<DirectoryOutcome>) {
    var slot := Slot(parent, name);
    var welcome := Names.ValidName(name) && a.plain && id != NIL && p.phase == required && a.allowed &&
                   parent in p.nodes && p.nodes[parent].kind == Directory;
    match told
    case Ok(Created) =>
      welcome && a.stored && slot !in p.children && id !in p.nodes &&
      q == p.(children := p.children[slot := id], nodes := p.nodes[id := Node(Directory, Some(1), parent, name, attributes)])
    case Ok(AlreadyExists) =>
      q == p && welcome && Lookup(p.children, slot) == Some(id) && id in p.nodes && p.nodes[id].kind == Directory && p.nodes[id].attributes == attributes
    case Ok(NameConflict) =>
      q == p && welcome && slot in p.children &&
      !(p.children[slot] == id && id in p.nodes && p.nodes[id] == Node(Directory, Some(1), parent, name, attributes))
    case Ok(IdConflict) => q == p && welcome && slot !in p.children && id in p.nodes
    case Ok(MissingParent) => q == p && (parent !in p.nodes || p.nodes[parent].kind == File)
    case Ok(WrongPhase) => q == p && p.phase != required
    case Err(Invalid) => q == p && !(Names.ValidName(name) && a.plain && id != NIL && a.allowed)
    case Err(Incomplete) => q == p && welcome && !a.stored
    case Err(_) => false
  }

  /** A directory is created exactly under a free name of an existing directory, with an
      unused id; both its records are written, and otherwise nothing is. */
  lemma DirectoryAnswered(p: Space, parent: Uuid, name: Bytes, id: Uuid, required: Phase, attributes: Option<Attributes>, a: DirectoryAnswers)
    ensures DirectoryTold(p, MakeDirectory(p, parent, name, id, required, attributes, a), parent, name, id, required, attributes, a,
                          DirectoryVerdict(p, parent, name, id, required, attributes, a))
  {
  }

  /** A request is registered exactly if it already is, the same in every field but the
      owner's epoch, or if it is new in the accepting epoch and there is room. */
  lemma RegisteredExactly(p: Space, r: Receipt, a: RegisterAnswers)
    requires RequestsFit(p)
    ensures var op := OpId(r.requestEpoch, r.operation);
            RegisterVerdict(p, r, a) == Ok(Registered) <==>
              ValidReceipt(r) && p.phase in {NsReady, NsBuilding} && a.placement &&
              (Asked(p, r) ||
               (op !in p.ops && op !in p.intents && r.requestEpoch == p.window.accepting && r.copy == a.derivedCopy && a.permit))
    ensures var op, q := OpId(r.requestEpoch, r.operation), Register(p, r, a);
            if RegisterVerdict(p, r, a) == Ok(Registered) then q == p.(intents := q.intents) && Asked(q, r) && q.intents - {op} == p.intents - {op}
            else q == p
  {
    hide ValidReceipt, Fingerprint;
    if ValidReceipt(r) { AskedExactly(p, r); }
  }

  /** A request is told to be cancelled exactly if that is on record for it, or if it is
      registered, the same in every field but the owner's epoch, the call comes from the
      owner and its permit is held; then it is taken off and the result recorded. */
  lemma CancelledExactly(p: Space, r: Receipt, owner: Option<U64>, permitHeld: bool)
    requires RequestsFit(p)
    ensures var op := OpId(r.requestEpoch, r.operation);
            CancelRequestVerdict(p, r, owner, permitHeld) == Ok(RequestCancelled) <==>
              ValidReceipt(r) && p.phase != NsDiscarded &&
              ((r.requestEpoch >= p.window.first && op in p.ops && p.ops[op] == Dropped(Fingerprint(r))) ||
               (Asked(p, r) && owner == Some(r.ownerEpoch) && permitHeld))
    ensures var op, q := OpId(r.requestEpoch, r.operation), CancelRequest(p, r, owner, permitHeld);
            if CancelRequestVerdict(p, r, owner, permitHeld) == Ok(RequestCancelled)
            then q == p.(ops := q.ops, intents := q.intents) && op !in q.intents && q.intents == p.intents - {op} &&
                 q.ops == p.ops[op := Dropped(Fingerprint(r))]
            else q == p
  {
    hide ValidReceipt, Fingerprint;
    if ValidReceipt(r) { AskedExactly(p, r); }
  }

  // ------------------------------------------------------- purging and namespaces

  /** The scan is known and its manifest says Retired. */
  predicate IsRetired(x: Volume, scan: Scan) {
    scan.id in x.manifests && x.manifests[scan.id].scan == scan && x.manifests[scan.id].state == Retired
  }

  /** Only these rows of the scan went; with none left its verification progress did. */
  ghost predicate RowsPurged(x: Volume, y: Volume, scan: Scan, doomed: set<Entry>) {
    && y == x.(rows := y.rows, progress := y.progress)
    && (forall id :: Rows(y, id) == if id == scan.id then Rows(x, id) - doomed else Rows(x, id))
    && y.progress == if Rows(x, scan.id) == map[] then x.progress - {scan.id} else x.progress
  }

  lemma RowsArePurged(x: Volume, scan: Scan, doomed: set<Entry>)
    requires VolumeInvariant(x) && doomed <= Rows(x, scan.id).Keys && (doomed == {} ==> Rows(x, scan.id).Keys == {})
    ensures PurgeVerdict(x, scan).None? <==> IsRetired(x, scan)
    ensures if IsRetired(x, scan) then RowsPurged(x, Purged(x, scan, doomed), scan, doomed) else Purged(x, scan, doomed) == x
  {
    if scan.id in x.manifests { PointersTell(x, scan.id); }
  }

  /** Rows are purged exactly from a retired scan, and only the rows read go. */
  lemma PurgedExactly(s: State, u: Uuid, scan: Scan, limit: nat, doomed: set<Entry>)
    requires Invariant(s) && u != NIL && ValidScan(scan) && 1 <= limit <= 1000 && Possible(s, PurgeStep(u, scan, limit, doomed))
    ensures var x, y := Vol(s, u), Vol(Next(s, PurgeStep(u, scan, limit, doomed)), u);
            (PurgeVerdict(x, scan).None? <==> IsRetired(x, scan)) && if IsRetired(x, scan) then RowsPurged(x, y, scan, doomed) else y == x
  {
    var x := Vol(s, u);
    VolumeKnown(s, u);
    hide Invariant, ValidScan, VolumeInvariant, IsRetired, RowsPurged, PurgeVerdict, Purged;
    RowsArePurged(x, scan, doomed);
  }

  /** A namespace is created once: in the phase asked for, with only a root directory and
      request epoch 1 open, and a managed one with its source revisions counted from 0. */
  lemma SpaceCreated(s: State, ns: Uuid, phase: Phase, managed: bool)
    ensures var t := Next(s, SpaceStep(ns, phase, managed));
            if ns == NIL || ns in s.spaces then t == s
            else
              ns in t.spaces && t.copies == s.copies && t.spaces - {ns} == s.spaces - {ns} &&
              var p := t.spaces[ns];
              p.phase == phase && p.window == Window(1, 1) && p.nodes.Keys == {NIL} && p.nodes[NIL].kind == Directory &&
              p.children == map[] && p.heads == map[] && p.ops == map[] && p.intents == map[] &&
              t.scans == s.scans.(revisions := t.scans.revisions) && t.scans.revisions == if managed then s.scans.revisions[ns := 0] else s.scans.revisions
  {
  }
}
