/** What every step of the catalog keeps: the tree, one copy per file version,
    the reverse index and the scan life cycle agree with each other. */
module CatalogInvariant {
  import opened Outcomes
  import opened ByteStrings
  import opened Names
  import opened Records
  import opened Receipts
  import opened Volumes
  import opened Verification
  import opened Namespaces
  import opened Catalog
  import Scans

  // ----------------------------------------------------------- the invariant

  predicate HasVersion(copies: map<Entry, PhysicalCopy>, e: Entry, version: nat) {
    e in copies && copies[e].version == version
  }

  ghost predicate VersionPresent(copies: map<Entry, PhysicalCopy>, ns: Uuid, f: Uuid, version: nat) {
    exists c :: HasVersion(copies, Entry(ns, f, c), version)
  }

  predicate SameVersion(copies: map<Entry, PhysicalCopy>, a: Entry, b: Entry) {
    a in copies && b in copies && copies[a].version == copies[b].version
  }

  /** A file at version v has exactly one copy record for each version 1..v, and
      its head names the copy of version v. */
  ghost predicate FileFits(ns: Uuid, f: Uuid, h: FileHead, copies: map<Entry, PhysicalCopy>) {
    && HasVersion(copies, Entry(ns, f, h.copy), h.version) && copies[Entry(ns, f, h.copy)].size == h.size
    && (forall c :: Entry(ns, f, c) in copies ==> 1 <= copies[Entry(ns, f, c)].version <= h.version)
    && (forall c, d :: SameVersion(copies, Entry(ns, f, c), Entry(ns, f, d)) ==> c == d)
    && (forall i: nat :: 1 <= i <= h.version ==> VersionPresent(copies, ns, f, i))
  }

  ghost predicate FilesFit(ns: Uuid, sp: Space, copies: map<Entry, PhysicalCopy>) {
    && (forall f :: f in sp.heads <==> f in sp.nodes && sp.nodes[f].kind.File?)
    && (forall f :: f in sp.heads ==> FileFits(ns, f, sp.heads[f], copies))
  }

  ghost predicate SpaceFits(ns: Uuid, sp: Space, copies: map<Entry, PhysicalCopy>) {
    IsTree(sp) && RequestsFit(sp) && FilesFit(ns, sp, copies)
  }

  /** A copy belongs to a file, its scan is known, and unless that scan is retired
      the reverse index lists it. */
  ghost predicate CopyFits(s: State, e: Entry)
    requires e in s.copies
  {
    e.ns in s.spaces && e.file in s.spaces[e.ns].heads &&
    var c := s.copies[e];
    CopyListed(Vol(s, c.volume), c, e)
  }

  predicate CopyListed(x: Volume, c: PhysicalCopy, e: Entry) {
    c.scanId in x.manifests &&
    (x.manifests[c.scanId].state != Retired ==> e in Rows(x, c.scanId) && Rows(x, c.scanId)[e].version == c.version)
  }

  /** A reverse-index row matches a copy record of that volume, scan and version. */
  predicate RowFits(u: Uuid, x: Volume, id: Uuid, e: Entry, copies: map<Entry, PhysicalCopy>) {
    e in Rows(x, id) && id in x.manifests && HasVersion(copies, e, Rows(x, id)[e].version) && Rows(x, id)[e].version != 0 &&
    copies[e].volume == u && copies[e].scanId == id && copies[e].generation == x.manifests[id].scan.generation
  }

  ghost predicate RowsFit(u: Uuid, x: Volume, copies: map<Entry, PhysicalCopy>) {
    forall id, e :: e in Rows(x, id) ==> RowFits(u, x, id, e, copies)
  }

  ghost predicate VolumeFits(u: Uuid, x: Volume, copies: map<Entry, PhysicalCopy>) {
    RowsFit(u, x, copies) && ProgressInvariant(u, x, copies)
  }

  ghost predicate Invariant(s: State) {
    && Scans.Invariant(s.scans)
    && (forall ns :: ns in s.spaces ==> SpaceFits(ns, s.spaces[ns], s.copies))
    && (forall e :: e in s.copies ==> CopyFits(s, e))
    && (forall u :: VolumeFits(u, Vol(s, u), s.copies))
  }

  lemma EmptyFits()
    ensures Invariant(EMPTY)
  {
  }

  // ------------------------------------------------- steps on one volume

  /** A change to a volume that adds no row, forgets no manifest, unretires
      nothing, and removes rows of retired scans only. */
  predicate QuietAt(x: Volume, y: Volume, id: Uuid) {
    && (id in x.manifests ==>
          id in y.manifests && y.manifests[id].scan == x.manifests[id].scan &&
          y.manifests[id].serial == x.manifests[id].serial &&
          (x.manifests[id].state == Retired ==> y.manifests[id].state == Retired) &&
          (y.manifests[id].state != Retired ==> Rows(y, id) == Rows(x, id)))
    && (forall e :: e in Rows(y, id) ==> e in Rows(x, id) && Rows(y, id)[e] == Rows(x, id)[e])
  }

  ghost predicate Quiet(x: Volume, y: Volume) {
    forall id :: QuietAt(x, y, id)
  }

  lemma QuietKeepsRows(u: Uuid, x: Volume, y: Volume, copies: map<Entry, PhysicalCopy>)
    requires RowsFit(u, x, copies) && Quiet(x, y)
    ensures RowsFit(u, y, copies)
  {
    forall id, e | e in Rows(y, id)
      ensures RowFits(u, y, id, e, copies)
    {
      assert QuietAt(x, y, id);
      assert RowFits(u, x, id, e, copies);
    }
  }

  lemma QuietKeepsCopies(s: State, u: Uuid, y: Volume)
    requires (forall e :: e in s.copies ==> CopyFits(s, e)) && Quiet(Vol(s, u), y)
    ensures forall e :: e in s.copies ==> CopyFits(WithVol(s, u, y), e)
  {
    forall e | e in s.copies
      ensures CopyFits(WithVol(s, u, y), e)
    {
      assert CopyFits(s, e);
      var c := s.copies[e];
      if c.volume == u {
        assert QuietAt(Vol(s, u), y, c.scanId);
      }
    }
  }

  /** A quiet change of one volume keeps the whole invariant. */
  lemma VolumeStepKeeps(s: State, u: Uuid, y: Volume)
    requires Invariant(s) && Quiet(Vol(s, u), y) && ProgressInvariant(u, y, s.copies)
    requires Scans.Invariant(WithVol(s, u, y).scans)
    ensures Invariant(WithVol(s, u, y))
  {
    hide SpaceFits, RowsFit, ProgressInvariant, CopyFits, Scans.Invariant, Quiet;
    var t := WithVol(s, u, y);
    assert VolumeFits(u, Vol(s, u), s.copies);
    QuietKeepsRows(u, Vol(s, u), y, s.copies);
    QuietKeepsCopies(s, u, y);
    forall v
      ensures VolumeFits(v, Vol(t, v), t.copies)
    {
      assert VolumeFits(v, Vol(s, v), s.copies);
    }
    assert t.spaces == s.spaces && t.copies == s.copies;
  }

  lemma SameRowsQuiet(x: Volume, y: Volume)
    requires y.rows == x.rows
    requires forall id :: id in x.manifests ==>
               id in y.manifests && y.manifests[id].scan == x.manifests[id].scan &&
               y.manifests[id].serial == x.manifests[id].serial &&
               (x.manifests[id].state == Retired ==> y.manifests[id].state == Retired)
    ensures Quiet(x, y)
  {
    forall id
      ensures QuietAt(x, y, id)
    {
    }
  }

  lemma MoveIsQuiet(x: Volume, y: Volume, c: Call, managed: bool)
    requires VolumeInvariant(x) && Moves(x, y, c, managed)
    ensures Quiet(x, y)
  {
    hide VolumeInvariant;
    forall id | id in x.manifests
      ensures id in y.manifests && y.manifests[id].scan == x.manifests[id].scan &&
              y.manifests[id].serial == x.manifests[id].serial &&
              (x.manifests[id].state == Retired ==> y.manifests[id].state == Retired)
    {
      MoveKeepsManifest(x, y, c, managed, id);
    }
    MoveKeepsRows(x, y, c, managed);
    SameRowsQuiet(x, y);
  }

  lemma MoveKeepsRows(x: Volume, y: Volume, c: Call, managed: bool)
    requires Moves(x, y, c, managed)
    ensures y.rows == x.rows && y.progress == x.progress
    ensures forall id :: id in y.manifests && Examined(y.manifests[id].state) ==>
              id in x.manifests && y.manifests[id] == x.manifests[id]
  {
  }

  lemma MoveKeepsProgress(u: Uuid, x: Volume, y: Volume, c: Call, managed: bool, copies: map<Entry, PhysicalCopy>)
    requires Moves(x, y, c, managed) && ProgressInvariant(u, x, copies)
    ensures ProgressInvariant(u, y, copies)
  {
    hide ProgressFits, Moves;
    MoveKeepsRows(x, y, c, managed);
  }

  lemma ScanStepKeeps(s: State, c: Call, a: Scans.Answers)
    requires Invariant(s)
    ensures Invariant(s.(scans := Scans.Transition(s.scans, c, a)))
  {
    hide SpaceFits, RowsFit, ProgressInvariant, CopyFits, Scans.Invariant, Quiet, Moves, VolumeInvariant, Scans.Transition;
    var u := c.volume;
    var t := s.(scans := Scans.Transition(s.scans, c, a));
    Scans.TransitionMovesOne(s.scans, c, a);
    Scans.TransitionKeepsInvariant(s.scans, c, a);
    VolumeKnown(s, u);
    MoveIsQuiet(Vol(s, u), Vol(t, u), c, u in s.scans.placement);
    MoveKeepsProgress(u, Vol(s, u), Vol(t, u), c, u in s.scans.placement, s.copies);
    QuietKeepsRows(u, Vol(s, u), Vol(t, u), s.copies);
    QuietKeepsCopies(s, u, Vol(t, u));
    forall e | e in t.copies
      ensures CopyFits(t, e)
    {
      CopyFitsByVolume(WithVol(s, u, Vol(t, u)), t, e);
    }
    forall v
      ensures VolumeFits(v, Vol(t, v), t.copies)
    {
      assert VolumeFits(v, Vol(s, v), s.copies);
    }
  }

  lemma VolumeKnown(s: State, u: Uuid)
    requires Invariant(s)
    ensures VolumeInvariant(Vol(s, u)) && RowsFit(u, Vol(s, u), s.copies) && ProgressInvariant(u, Vol(s, u), s.copies)
  {
    assert VolumeFits(u, Vol(s, u), s.copies);
  }

  lemma CopyFitsByVolume(s: State, t: State, e: Entry)
    requires e in s.copies && t.copies == s.copies && t.spaces == s.spaces && CopyFits(s, e)
    requires forall v :: Vol(t, v) == Vol(s, v)
    ensures CopyFits(t, e)
  {
  }

  /** Moving a scan between in-progress states keeps the volume's invariant. */
  lemma CandidateChangeKeeps(x: Volume, y: Volume, id: Uuid, state: ScanState)
    requires VolumeInvariant(x) && id in x.manifests && Candidate(x.manifests[id].state) && Candidate(state)
    requires y.manifests == x.manifests[id := x.manifests[id].(state := state)]
    requires y.ready == x.ready && y.pending == x.pending
    ensures VolumeInvariant(y)
  {
    assert Newest(y) == Newest(x) && Serials(y) == Serials(x);
    forall o | o in y.manifests
      ensures ManifestFits(y, o, y.manifests[o])
    {
      assert ManifestFits(x, o, x.manifests[o]);
    }
    assert ManifestFits(x, id, x.manifests[id]);
  }

  lemma ScansInvariantWith(s: State, u: Uuid, y: Volume)
    requires Scans.Invariant(s.scans) && VolumeInvariant(y) && y.hidden == Vol(s, u).hidden && y.pending == Vol(s, u).pending &&
             y.ready == Vol(s, u).ready
    ensures Scans.Invariant(WithVol(s, u, y).scans)
  {
    hide VolumeInvariant;
    var t := WithVol(s, u, y).scans;
    forall v
      ensures VolumeInvariant(Scans.At(t, v))
      ensures Scans.At(t, v).hidden <==> v in t.placement && Scans.Unready(Scans.At(t, v))
    {
      assert VolumeInvariant(Scans.At(s.scans, v));
      assert Scans.At(s.scans, v).hidden <==> v in s.scans.placement && Scans.Unready(Scans.At(s.scans, v));
    }
  }

  lemma RowsHaveCopies(u: Uuid, x: Volume, id: Uuid, copies: map<Entry, PhysicalCopy>)
    requires RowsFit(u, x, copies)
    ensures Rows(x, id).Keys <= copies.Keys
  {
    forall e | e in Rows(x, id)
      ensures e in copies
    {
      assert RowFits(u, x, id, e, copies);
    }
  }

  lemma FreezeStepKeeps(s: State, c: Call, expected: Summary, ready: bool)
    requires Invariant(s)
    ensures Invariant(WithVol(s, c.volume, Freeze(Vol(s, c.volume), c, expected, ready)))
  {
    hide Invariant, Scans.Invariant, VolumeInvariant, ProgressInvariant, RowsFit, FreezeVerdict, Quiet;
    var x := Vol(s, c.volume);
    var y := Freeze(x, c, expected, ready);
    VolumeKnown(s, c.volume);
    ScansKnown(s);
    RowsHaveCopies(c.volume, x, c.scan.id, s.copies);
    FreezeKeepsProgress(c.volume, x, s.copies, c, expected, ready);
    if y != x {
      CandidateChangeKeeps(x, y, c.scan.id, Verifying);
    }
    SameRowsQuiet(x, y);
    ScansInvariantWith(s, c.volume, y);
    VolumeStepKeeps(s, c.volume, y);
  }

  lemma ScansKnown(s: State)
    requires Invariant(s)
    ensures Scans.Invariant(s.scans)
  {
  }

  /** What a verification page leaves alone. */
  lemma VerifyShape(x: Volume, copies: map<Entry, PhysicalCopy>, c: Call, limit: nat, page: set<Entry>, a: Evidence)
    ensures var y := Verify(x, copies, c, limit, page, a);
            y.rows == x.rows && y.ready == x.ready && y.pending == x.pending && y.hidden == x.hidden &&
            (y.manifests == x.manifests ||
             (Lookup(x.manifests, c.scan.id) == Some(Mark(c, Verifying)) &&
              exists state :: Candidate(state) && y.manifests == x.manifests[c.scan.id := x.manifests[c.scan.id].(state := state)]))
  {
    hide VerifyVerdict, FoldAll, Remaining, Greatest;
    var y := Verify(x, copies, c, limit, page, a);
    if y.manifests != x.manifests {
      var state := y.manifests[c.scan.id].state;
      assert Candidate(state) && y.manifests == x.manifests[c.scan.id := x.manifests[c.scan.id].(state := state)];
    }
  }

  lemma VerifyStepKeeps(s: State, c: Call, limit: nat, page: set<Entry>, a: Evidence)
    requires Invariant(s) && limit > 0 && Possible(s, VerifyStep(c, limit, page, a))
    ensures Invariant(WithVol(s, c.volume, Verify(Vol(s, c.volume), s.copies, c, limit, page, a)))
  {
    hide Invariant, Scans.Invariant, VolumeInvariant, ProgressInvariant, RowsFit, Verify, Quiet;
    var x := Vol(s, c.volume);
    var y := Verify(x, s.copies, c, limit, page, a);
    VolumeKnown(s, c.volume);
    ScansKnown(s);
    VerifyKeepsProgress(c.volume, x, s.copies, c, limit, page, a);
    VerifyShape(x, s.copies, c, limit, page, a);
    if y.manifests != x.manifests {
      var state :| Candidate(state) && y.manifests == x.manifests[c.scan.id := x.manifests[c.scan.id].(state := state)];
      CandidateChangeKeeps(x, y, c.scan.id, state);
    } else {
      SamePointersKeep(x, y);
    }
    SameRowsQuiet(x, y);
    ScansInvariantWith(s, c.volume, y);
    VolumeStepKeeps(s, c.volume, y);
  }

  lemma SamePointersKeep(x: Volume, y: Volume)
    requires VolumeInvariant(x) && y.manifests == x.manifests && y.ready == x.ready && y.pending == x.pending
    ensures VolumeInvariant(y)
  {
    assert Newest(y) == Newest(x) && Serials(y) == Serials(x);
    forall o | o in y.manifests
      ensures ManifestFits(y, o, y.manifests[o])
    {
      assert ManifestFits(x, o, x.manifests[o]);
    }
  }

  lemma PurgeStepKeeps(s: State, u: Uuid, scan: Scan, doomed: set<Entry>)
    requires Invariant(s)
    ensures Invariant(WithVol(s, u, Purged(Vol(s, u), scan, doomed)))
  {
    hide Invariant, Scans.Invariant, VolumeInvariant, RowsFit, ProgressFits;
    var x := Vol(s, u);
    var y := Purged(x, scan, doomed);
    VolumeKnown(s, u);
    ScansKnown(s);
    SamePointersKeep(x, y);
    forall id
      ensures QuietAt(x, y, id)
    {
    }
    forall id | id in y.manifests && Examined(y.manifests[id].state)
      ensures id in y.progress && ProgressFits(u, y.manifests[id], y.progress[id], Rows(y, id), s.copies)
    {
      assert id in x.progress && ProgressFits(u, x.manifests[id], x.progress[id], Rows(x, id), s.copies);
    }
    ScansInvariantWith(s, u, y);
    VolumeStepKeeps(s, u, y);
  }

  // ---------------------------------------------- steps on one namespace

  /** A namespace may change by itself as long as it stays sound and keeps its files. */
  lemma SpaceStepKeeps(s: State, ns: Uuid, sp: Space)
    requires Invariant(s) && SpaceFits(ns, sp, s.copies)
    requires ns in s.spaces ==> s.spaces[ns].heads.Keys <= sp.heads.Keys
    ensures Invariant(WithSpace(s, ns, sp))
  {
    hide SpaceFits, VolumeFits, Scans.Invariant;
    var t := WithSpace(s, ns, sp);
    forall e | e in t.copies
      ensures CopyFits(t, e)
    {
      assert CopyFits(s, e);
    }
    forall u
      ensures VolumeFits(u, Vol(t, u), t.copies)
    {
      assert VolumeFits(u, Vol(s, u), s.copies);
    }
  }

  lemma NewSpaceKeeps(s: State, ns: Uuid, phase: Phase, managed: bool)
    requires Invariant(s)
    ensures Invariant(CreateSpace(s, ns, phase, managed))
  {
    hide Invariant;
    if ns != NIL && ns !in s.spaces {
      NewSpaceFits(s, ns, phase);
      var t := WithSpace(s, ns, NewSpace(phase));
      SpaceStepKeeps(s, ns, NewSpace(phase));
      RevisionsKeep(t, CreateSpace(s, ns, phase, managed));
    }
  }

  lemma NewSpaceFits(s: State, ns: Uuid, phase: Phase)
    requires Invariant(s) && ns !in s.spaces
    ensures SpaceFits(ns, NewSpace(phase), s.copies)
  {
    NewSpaceIsTree(phase);
  }

  lemma RevisionsKeep(s: State, t: State)
    requires Invariant(s) && t == s.(scans := s.scans.(revisions := t.scans.revisions))
    ensures Invariant(t)
  {
    hide SpaceFits, VolumeFits, VolumeInvariant;
    forall e | e in t.copies
      ensures CopyFits(t, e)
    {
      assert CopyFits(s, e);
      assert Vol(t, t.copies[e].volume) == Vol(s, t.copies[e].volume);
    }
    forall u
      ensures VolumeFits(u, Vol(t, u), t.copies) && VolumeInvariant(Scans.At(t.scans, u))
      ensures Scans.At(t.scans, u).hidden <==> u in t.scans.placement && Scans.Unready(Scans.At(t.scans, u))
    {
      assert VolumeFits(u, Vol(s, u), s.copies) && VolumeInvariant(Scans.At(s.scans, u));
      assert Scans.At(s.scans, u).hidden <==> u in s.scans.placement && Scans.Unready(Scans.At(s.scans, u));
    }
    forall ns | ns in t.spaces
      ensures SpaceFits(ns, t.spaces[ns], t.copies)
    {
      assert SpaceFits(ns, s.spaces[ns], s.copies);
    }
  }

  /** Request and phase changes leave tree and files alone. */
  lemma SameTreeFits(ns: Uuid, a: Space, b: Space, copies: map<Entry, PhysicalCopy>)
    requires SpaceFits(ns, a, copies) && RequestsFit(b)
    requires b.children == a.children && b.nodes == a.nodes && b.heads == a.heads
    ensures SpaceFits(ns, b, copies)
  {
    hide FileFits, RequestsFit;
    SameTree(a, b);
  }

  lemma SameTree(a: Space, b: Space)
    requires IsTree(a) && b.children == a.children && b.nodes == a.nodes
    ensures IsTree(b)
  {
    hide Rooted;
    forall slot | slot in b.children
      ensures EntryLinked(b, slot)
    {
      assert EntryLinked(a, slot);
    }
    forall id | id in b.nodes && id != NIL
      ensures NodeLinked(b, id)
    {
      assert NodeLinked(a, id);
    }
  }

  lemma DirectoryFits(ns: Uuid, sp: Space, copies: map<Entry, PhysicalCopy>, parent: Uuid, name: Bytes, id: Uuid, required: Phase,
                      attributes: Option<Attributes>, a: DirectoryAnswers)
    requires SpaceFits(ns, sp, copies)
    ensures SpaceFits(ns, MakeDirectory(sp, parent, name, id, required, attributes, a), copies)
  {
    hide FileFits, IsTree, ValidName, ValidReceipt;
    DirectoryKeepsTree(sp, parent, name, id, required, attributes, a);
  }

  // ------------------------------------------------------------------ publish

  /** What a publish has checked when it applies. */
  lemma PublishFacts(s: State, r: Receipt, mode: Mode, attributes: Option<Attributes>, a: PublishAnswers, version: U64)
    requires PublishVerdict(s, r, mode, attributes, a) == Ok(Published(version))
    ensures ValidReceipt(r) && version == Expected(r) + 1 && r.ns in s.spaces
    ensures var sp := s.spaces[r.ns];
            Settled(sp, r).None? && OpOf(r) in sp.intents && Fingerprint(sp.intents[OpOf(r)]) == Fingerprint(r) &&
            sp.phase == RequiredPhase(mode)
    ensures Lookup(s.scans.owners, r.serial) == Some(r.ownerEpoch)
    ensures var x := Vol(s, r.volume);
            Lookup(x.manifests, r.scanId) == Some(Manifest(ReceiptScan(r), r.serial, RequiredState(mode))) &&
            (if mode.Import? then x.pending else x.ready) == Some(Pointer(ReceiptScan(r), r.serial)) &&
            (mode.Ordinary? ==> x.pending.None?)
    ensures Naming(s.spaces[r.ns], EntryOf(r) in s.copies, r, attributes, a).None?
  {
    hide ValidReceipt, Fingerprint, Naming, Settled;
    if r.ns in s.spaces {
      NamingOnlyRefuses(s.spaces[r.ns], EntryOf(r) in s.copies, r, attributes, a);
    }
  }

  lemma NamingOnlyRefuses(sp: Space, taken: bool, r: Receipt, attributes: Option<Attributes>, a: PublishAnswers)
    ensures match Naming(sp, taken, r, attributes, a)
            case Some(Ok(outcome)) => !outcome.Published?
            case _ => true
  {
  }

  lemma NamingFacts(sp: Space, taken: bool, r: Receipt, attributes: Option<Attributes>, a: PublishAnswers)
    requires Naming(sp, taken, r, attributes, a).None? && r.file != NIL
    ensures !taken && MayLink(sp, r.file, Node(File, None, r.parent, r.name, attributes))
    ensures (if r.file in sp.heads then sp.heads[r.file].version else 0) == Expected(r)
  {
  }

  lemma PublishedFileFits(ns: Uuid, f: Uuid, copies: map<Entry, PhysicalCopy>, head: Option<FileHead>, h: FileHead, copy: PhysicalCopy)
    requires match head
             case Some(previous) => FileFits(ns, f, previous, copies) && previous.version + 1 == h.version
             case None => h.version == 1 && forall c :: Entry(ns, f, c) !in copies
    requires Entry(ns, f, h.copy) !in copies && copy.version == h.version && copy.size == h.size
    ensures FileFits(ns, f, h, copies[Entry(ns, f, h.copy) := copy])
  {
    var after := copies[Entry(ns, f, h.copy) := copy];
    forall i: nat | 1 <= i <= h.version
      ensures VersionPresent(after, ns, f, i)
    {
      if i == h.version {
        assert HasVersion(after, Entry(ns, f, h.copy), i);
      } else {
        assert VersionPresent(copies, ns, f, i);
        var c :| HasVersion(copies, Entry(ns, f, c), i);
        assert HasVersion(after, Entry(ns, f, c), i);
      }
    }
    forall c, d | SameVersion(after, Entry(ns, f, c), Entry(ns, f, d))
      ensures c == d
    {
      if c != h.copy && d != h.copy {
        assert SameVersion(copies, Entry(ns, f, c), Entry(ns, f, d));
      }
    }
  }

  /** A copy of another file changes nothing for this one. */
  lemma OtherFileFits(ns: Uuid, f: Uuid, h: FileHead, copies: map<Entry, PhysicalCopy>, e: Entry, copy: PhysicalCopy)
    requires FileFits(ns, f, h, copies) && (e.ns != ns || e.file != f)
    ensures FileFits(ns, f, h, copies[e := copy])
  {
    var after := copies[e := copy];
    forall i: nat | 1 <= i <= h.version
      ensures VersionPresent(after, ns, f, i)
    {
      assert VersionPresent(copies, ns, f, i);
      var c :| HasVersion(copies, Entry(ns, f, c), i);
      assert HasVersion(after, Entry(ns, f, c), i);
    }
    forall c, d | SameVersion(after, Entry(ns, f, c), Entry(ns, f, d))
      ensures c == d
    {
      assert SameVersion(copies, Entry(ns, f, c), Entry(ns, f, d));
    }
  }

  lemma PublishedSpaceFits(s: State, r: Receipt, attributes: Option<Attributes>, a: PublishAnswers)
    requires Invariant(s) && ValidReceipt(r) && r.ns in s.spaces
    requires Settled(s.spaces[r.ns], r).None? && Naming(s.spaces[r.ns], EntryOf(r) in s.copies, r, attributes, a).None?
    ensures SpaceFits(r.ns, PublishedSpace(s.spaces[r.ns], r, attributes, Expected(r) + 1),
                      s.copies[EntryOf(r) := CopyOf(r, Expected(r) + 1)])
  {
    hide FileFits, Fingerprint, Naming, IsTree, MayLink;
    var sp := s.spaces[r.ns];
    var e, copy := EntryOf(r), CopyOf(r, Expected(r) + 1);
    var after := s.copies[e := copy];
    assert SpaceFits(r.ns, sp, s.copies);
    NamingFacts(sp, e in s.copies, r, attributes, a);
    var node := Node(File, None, r.parent, r.name, attributes);
    var t := PublishedSpace(sp, r, attributes, Expected(r) + 1);
    LinkKeepsTree(sp, r.file, node);
    SameTree(Linked(sp, r.file, node), t);
    PublishedFiles(s, r, attributes, a);
    PublishedRequests(sp, r, attributes);
  }

  lemma PublishedRequests(sp: Space, r: Receipt, attributes: Option<Attributes>)
    requires RequestsFit(sp) && Settled(sp, r).None? && Expected(r) + 1 < U64_LIMIT
    ensures RequestsFit(PublishedSpace(sp, r, attributes, Expected(r) + 1))
  {
    hide ValidReceipt, Fingerprint;
  }

  lemma CopiesHaveHeads(s: State, ns: Uuid, f: Uuid)
    requires Invariant(s) && ns in s.spaces
    ensures f in s.spaces[ns].heads || forall c :: Entry(ns, f, c) !in s.copies
  {
    hide SpaceFits, VolumeFits, Scans.Invariant;
    assert forall c :: Entry(ns, f, c) in s.copies ==> CopyFits(s, Entry(ns, f, c));
  }

  lemma PublishedFiles(s: State, r: Receipt, attributes: Option<Attributes>, a: PublishAnswers)
    requires Invariant(s) && ValidReceipt(r) && r.ns in s.spaces
    requires Naming(s.spaces[r.ns], EntryOf(r) in s.copies, r, attributes, a).None?
    ensures FilesFit(r.ns, PublishedSpace(s.spaces[r.ns], r, attributes, Expected(r) + 1),
                     s.copies[EntryOf(r) := CopyOf(r, Expected(r) + 1)])
  {
    hide FileFits, Fingerprint, IsTree, RequestsFit, Naming, VolumeFits, CopyFits, Scans.Invariant;
    var sp := s.spaces[r.ns];
    var e, copy := EntryOf(r), CopyOf(r, Expected(r) + 1);
    assert SpaceFits(r.ns, sp, s.copies);
    NamingFacts(sp, e in s.copies, r, attributes, a);
    var t := PublishedSpace(sp, r, attributes, Expected(r) + 1);
    CopiesHaveHeads(s, r.ns, r.file);
    PublishedFileFits(r.ns, r.file, s.copies, Lookup(sp.heads, r.file), t.heads[r.file], copy);
    forall f | f in t.heads
      ensures FileFits(r.ns, f, t.heads[f], s.copies[e := copy])
    {
      if f != r.file {
        OtherFileFits(r.ns, f, sp.heads[f], s.copies, e, copy);
      }
    }
  }

  lemma RowAddedFits(u: Uuid, x: Volume, copies: map<Entry, PhysicalCopy>, id: Uuid, e: Entry, row: Row, copy: PhysicalCopy)
    requires RowsFit(u, x, copies) && e !in copies && id in x.manifests && row.version != 0
    requires copy.version == row.version && copy.volume == u && copy.scanId == id &&
             copy.generation == x.manifests[id].scan.generation
    ensures RowsFit(u, WithRow(x, id, e, row), copies[e := copy])
  {
    var y := WithRow(x, id, e, row);
    forall i, f | f in Rows(y, i)
      ensures RowFits(u, y, i, f, copies[e := copy])
    {
      if !(i == id && f == e) {
        assert RowFits(u, x, i, f, copies);
      }
    }
  }

  lemma RowsFitMore(u: Uuid, x: Volume, copies: map<Entry, PhysicalCopy>, e: Entry, copy: PhysicalCopy)
    requires RowsFit(u, x, copies) && e !in copies
    ensures RowsFit(u, x, copies[e := copy])
  {
    forall i, f | f in Rows(x, i)
      ensures RowFits(u, x, i, f, copies[e := copy])
    {
      assert RowFits(u, x, i, f, copies);
    }
  }

  /** New copies and rows of a scan that is not being verified leave the proof of others alone. */
  lemma ProgressFitsMore(u: Uuid, x: Volume, y: Volume, copies: map<Entry, PhysicalCopy>, e: Entry, copy: PhysicalCopy)
    requires ProgressInvariant(u, x, copies) && e !in copies
    requires y.manifests == x.manifests && y.progress == x.progress
    requires forall id :: id in x.manifests && Examined(x.manifests[id].state) ==> Rows(y, id) == Rows(x, id)
    ensures ProgressInvariant(u, y, copies[e := copy])
  {
    hide FoldAll;
    forall id | id in y.manifests && Examined(y.manifests[id].state)
      ensures id in y.progress && ProgressFits(u, y.manifests[id], y.progress[id], Rows(y, id), copies[e := copy])
    {
      var rows := Rows(x, id);
      assert ProgressFits(u, x.manifests[id], x.progress[id], rows, copies);
      var start := Start(u, x.manifests[id].scan);
      FoldFrame(start, rows.Keys, rows, copies, copies[e := copy]);
      FoldFrame(start, Reached(rows, x.progress[id].cursor), rows, copies, copies[e := copy]);
    }
  }

  lemma PublishEffectKeeps(s: State, r: Receipt, mode: Mode, attributes: Option<Attributes>, a: PublishAnswers, version: U64)
    requires Invariant(s) && PublishVerdict(s, r, mode, attributes, a) == Ok(Published(version))
    ensures r.ns in s.spaces && Invariant(PublishEffect(s, r, attributes, version))
  {
    hide PublishVerdict, Naming, ValidReceipt, Settled, Fingerprint, SpaceFits, RowsFit, ProgressInvariant, VolumeInvariant, PublishEffect, Scans.Invariant;
    PublishFacts(s, r, mode, attributes, a, version);
    PublishedSpaceFits(s, r, attributes, a);
    var t := PublishEffect(s, r, attributes, version);
    var e, copy, row := EntryOf(r), CopyOf(r, version), Row(version, Fingerprint(r));
    var u := r.volume;
    var x := Vol(s, u);
    var y := WithRow(x, r.scanId, e, row);
    EffectShape(s, r, mode, attributes, a, version);
    VolumeKnown(s, u);
    SamePointersKeep(x, y);
    ScansInvariantWith(s, u, y);
    PublishedVolumes(s, t, r, e, copy, row);
    PublishedCopies(s, t, r, e, copy, row);
    forall ns | ns in t.spaces
      ensures SpaceFits(ns, t.spaces[ns], t.copies)
    {
      if ns != r.ns {
        assert SpaceFits(ns, s.spaces[ns], s.copies);
        OtherSpaceFits(ns, s.spaces[ns], s.copies, e, copy);
      }
    }
  }

  lemma OtherSpaceFits(ns: Uuid, sp: Space, copies: map<Entry, PhysicalCopy>, e: Entry, copy: PhysicalCopy)
    requires SpaceFits(ns, sp, copies) && e.ns != ns
    ensures SpaceFits(ns, sp, copies[e := copy])
  {
    hide FileFits, IsTree, RequestsFit;
    forall f | f in sp.heads
      ensures FileFits(ns, f, sp.heads[f], copies[e := copy])
    {
      OtherFileFits(ns, f, sp.heads[f], copies, e, copy);
    }
  }

  /** The parts of the store after a publish. */
  lemma EffectShape(s: State, r: Receipt, mode: Mode, attributes: Option<Attributes>, a: PublishAnswers, version: U64)
    requires PublishVerdict(s, r, mode, attributes, a) == Ok(Published(version)) && r.ns in s.spaces
    ensures var t := PublishEffect(s, r, attributes, version);
            var e := EntryOf(r);
            e !in s.copies && t.copies == s.copies[e := CopyOf(r, version)] &&
            t.spaces == s.spaces[r.ns := PublishedSpace(s.spaces[r.ns], r, attributes, version)] &&
            t.scans == WithVol(s, r.volume, WithRow(Vol(s, r.volume), r.scanId, e, Row(version, Fingerprint(r)))).scans &&
            Vol(t, r.volume) == WithRow(Vol(s, r.volume), r.scanId, e, Row(version, Fingerprint(r))) &&
            forall v :: v != r.volume ==> Vol(t, v) == Vol(s, v)
  {
    hide PublishVerdict, Naming, ValidReceipt, Settled, Fingerprint, PublishedSpace;
    PublishFacts(s, r, mode, attributes, a, version);
    FileIsNamed(r);
    NamingFacts(s.spaces[r.ns], EntryOf(r) in s.copies, r, attributes, a);
  }

  lemma FileIsNamed(r: Receipt)
    requires ValidReceipt(r)
    ensures r.file != NIL && Expected(r) + 1 < U64_LIMIT
  {
  }

  lemma PublishedVolumes(s: State, t: State, r: Receipt, e: Entry, copy: PhysicalCopy, row: Row)
    requires forall u :: VolumeFits(u, Vol(s, u), s.copies)
    requires e !in s.copies && t.copies == s.copies[e := copy] && row.version != 0
    requires copy.version == row.version && copy.volume == r.volume && copy.scanId == r.scanId && copy.generation == r.generation
    requires var x := Vol(s, r.volume);
             r.scanId in x.manifests && x.manifests[r.scanId].scan == ReceiptScan(r) && !Examined(x.manifests[r.scanId].state)
    requires Vol(t, r.volume) == WithRow(Vol(s, r.volume), r.scanId, e, row) && forall v :: v != r.volume ==> Vol(t, v) == Vol(s, v)
    ensures forall u :: VolumeFits(u, Vol(t, u), t.copies)
  {
    hide RowsFit, ProgressInvariant;
    forall u
      ensures VolumeFits(u, Vol(t, u), t.copies)
    {
      assert VolumeFits(u, Vol(s, u), s.copies);
      if u == r.volume {
        RowAddedFits(u, Vol(s, u), s.copies, r.scanId, e, row, copy);
      } else {
        RowsFitMore(u, Vol(s, u), s.copies, e, copy);
      }
      ProgressFitsMore(u, Vol(s, u), Vol(t, u), s.copies, e, copy);
    }
  }

  lemma PublishedCopies(s: State, t: State, r: Receipt, e: Entry, copy: PhysicalCopy, row: Row)
    requires forall f :: f in s.copies ==> CopyFits(s, f)
    requires e !in s.copies && e == EntryOf(r) && t.copies == s.copies[e := copy]
    requires copy.version == row.version && copy.volume == r.volume && copy.scanId == r.scanId
    requires r.scanId in Vol(s, r.volume).manifests
    requires Vol(t, r.volume) == WithRow(Vol(s, r.volume), r.scanId, e, row) && forall v :: v != r.volume ==> Vol(t, v) == Vol(s, v)
    requires r.ns in t.spaces && r.file in t.spaces[r.ns].heads
    requires forall ns :: ns in s.spaces ==> ns in t.spaces && s.spaces[ns].heads.Keys <= t.spaces[ns].heads.Keys
    ensures forall f :: f in t.copies ==> CopyFits(t, f)
  {
    forall f | f in t.copies
      ensures CopyFits(t, f)
    {
      if f != e {
        assert CopyFits(s, f);
      }
    }
  }

  // ---------------------------------------------------------------- any step

  lemma RequestStepKeeps(s: State, ns: Uuid, sp: Space)
    requires Invariant(s) && ns in s.spaces && RequestsFit(sp)
    requires sp.children == s.spaces[ns].children && sp.nodes == s.spaces[ns].nodes && sp.heads == s.spaces[ns].heads
    ensures Invariant(WithSpace(s, ns, sp))
  {
    hide SpaceFits, RequestsFit, VolumeFits, CopyFits, Scans.Invariant;
    SameTreeFits(ns, s.spaces[ns], sp, s.copies);
    SpaceStepKeeps(s, ns, sp);
  }

  lemma SpaceKnown(s: State, ns: Uuid)
    requires Invariant(s) && ns in s.spaces
    ensures SpaceFits(ns, s.spaces[ns], s.copies) && RequestsFit(s.spaces[ns])
  {
    hide FilesFit, IsTree, RequestsFit;
    assert SpaceFits(ns, s.spaces[ns], s.copies);
  }

  /** Steps on the request bookkeeping and the phase of a namespace. */
  lemma BookkeepingKeeps(s: State, step: Step)
    requires Invariant(s)
    requires step.RegisterStep? || step.CancelStep? || step.RotateStep? || step.FloorStep? || step.ExpireStep? || step.PhaseStep?
    ensures Invariant(Next(s, step))
  {
    hide Invariant, RequestsFit, SpaceFits, Settled, RegisterVerdict, CancelRequestVerdict;
    var o, result := OpId(0, 0), Dropped([]);
    match step
    case RegisterStep(r, a) =>
      if r.ns in s.spaces {
        SpaceKnown(s, r.ns);
        RegisterKeeps(s.spaces[r.ns], r, a, o, result);
        RequestStepKeeps(s, r.ns, Register(s.spaces[r.ns], r, a));
      }
    case CancelStep(r, held) =>
      if r.ns in s.spaces {
        SpaceKnown(s, r.ns);
        var owner := Lookup(s.scans.owners, r.serial);
        CancelRequestKeeps(s.spaces[r.ns], r, owner, held, o, result);
        RequestStepKeeps(s, r.ns, CancelRequest(s.spaces[r.ns], r, owner, held));
      }
    case RotateStep(ns, epoch, capacity) =>
      if ns in s.spaces {
        SpaceKnown(s, ns);
        RotateKeeps(s.spaces[ns], epoch, capacity, o, result);
        RequestStepKeeps(s, ns, Rotate(s.spaces[ns], epoch, capacity));
      }
    case FloorStep(ns, epoch, before, held) =>
      if ns in s.spaces {
        SpaceKnown(s, ns);
        FloorKeeps(s.spaces[ns], epoch, before, held, o, result);
        RequestStepKeeps(s, ns, AdvanceFloor(s.spaces[ns], epoch, before, held));
      }
    case ExpireStep(ns, ops) =>
      if ns in s.spaces {
        SpaceKnown(s, ns);
        PurgeExpiredKeeps(s.spaces[ns], ops, o, result);
        RequestStepKeeps(s, ns, PurgeExpired(s.spaces[ns], ops));
      }
    case PhaseStep(ns, phase) =>
      if ns in s.spaces {
        SpaceKnown(s, ns);
        PhaseFits(s.spaces[ns], phase);
        RequestStepKeeps(s, ns, s.spaces[ns].(phase := phase));
      }
  }

  lemma PhaseFits(sp: Space, phase: Phase)
    requires RequestsFit(sp)
    ensures RequestsFit(sp.(phase := phase))
  {
  }

  lemma OwnerStepKeeps(s: State, serial: Bytes, epoch: U64)
    requires Invariant(s)
    ensures Invariant(s.(scans := Scans.AdvanceOwner(s.scans, serial, epoch)))
  {
    hide SpaceFits, VolumeFits, VolumeInvariant, Scans.AdvanceOwner;
    Scans.AdvanceRaisesEpoch(s.scans, serial, epoch);
    var t := s.(scans := Scans.AdvanceOwner(s.scans, serial, epoch));
    forall u
      ensures VolumeFits(u, Vol(t, u), t.copies) && VolumeInvariant(Scans.At(t.scans, u))
      ensures Scans.At(t.scans, u).hidden <==> u in t.scans.placement && Scans.Unready(Scans.At(t.scans, u))
    {
      assert VolumeFits(u, Vol(s, u), s.copies) && VolumeInvariant(Scans.At(s.scans, u));
      assert Scans.At(s.scans, u).hidden <==> u in s.scans.placement && Scans.Unready(Scans.At(s.scans, u));
    }
    forall e | e in t.copies
      ensures CopyFits(t, e)
    {
      assert CopyFits(s, e);
      assert Vol(t, t.copies[e].volume) == Vol(s, t.copies[e].volume);
    }
    forall ns | ns in t.spaces
      ensures SpaceFits(ns, t.spaces[ns], t.copies)
    {
      assert SpaceFits(ns, s.spaces[ns], s.copies);
    }
  }

  lemma PlaceStepKeeps(s: State, step: Step)
    requires Invariant(s) && step.PlaceStep?
    ensures Invariant(Next(s, step))
  {
    hide SpaceFits, VolumeFits, CopyFits, Scans.Place, Scans.Invariant;
    Scans.PlaceKeepsInvariant(s.scans, step.volume, step.ns, step.serial, step.epoch, step.allowed);
    var t := Next(s, step);
    forall u
      ensures VolumeFits(u, Vol(t, u), t.copies)
    {
      assert VolumeFits(u, Vol(s, u), s.copies);
      HiddenFits(u, Vol(s, u), Vol(t, u), s.copies);
    }
    forall e | e in t.copies
      ensures CopyFits(t, e)
    {
      assert CopyFits(s, e);
      HiddenCopyFits(s, t, e);
    }
  }

  lemma HiddenFits(u: Uuid, x: Volume, y: Volume, copies: map<Entry, PhysicalCopy>)
    requires VolumeFits(u, x, copies) && y == x.(hidden := y.hidden)
    ensures VolumeFits(u, y, copies)
  {
    hide ProgressFits;
    forall id, e | e in Rows(y, id)
      ensures RowFits(u, y, id, e, copies)
    {
      assert RowFits(u, x, id, e, copies);
    }
    forall id | id in y.manifests && Examined(y.manifests[id].state)
      ensures id in y.progress && ProgressFits(u, y.manifests[id], y.progress[id], Rows(y, id), copies)
    {
      assert Rows(y, id) == Rows(x, id);
    }
  }

  lemma HiddenCopyFits(s: State, t: State, e: Entry)
    requires e in s.copies && CopyFits(s, e) && t.copies == s.copies && t.spaces == s.spaces
    requires var u := s.copies[e].volume; Vol(t, u) == Vol(s, u).(hidden := Vol(t, u).hidden)
    ensures CopyFits(t, e)
  {
  }

  lemma DirectoryStepKeeps(s: State, ns: Uuid, parent: Uuid, name: Bytes, id: Uuid, required: Phase, attributes: Option<Attributes>,
                           a: DirectoryAnswers)
    requires Invariant(s) && ns in s.spaces
    ensures Invariant(WithSpace(s, ns, MakeDirectory(s.spaces[ns], parent, name, id, required, attributes, a)))
  {
    hide Invariant, SpaceFits, DirectoryVerdict;
    SpaceKnown(s, ns);
    DirectoryFits(ns, s.spaces[ns], s.copies, parent, name, id, required, attributes, a);
    SpaceStepKeeps(s, ns, MakeDirectory(s.spaces[ns], parent, name, id, required, attributes, a));
  }

  lemma PublishStepKeeps(s: State, r: Receipt, mode: Mode, attributes: Option<Attributes>, a: PublishAnswers)
    requires Invariant(s)
    ensures Invariant(Publish(s, r, mode, attributes, a))
  {
    hide Invariant, PublishVerdict, PublishEffect;
    var verdict := PublishVerdict(s, r, mode, attributes, a);
    if verdict.Ok? && verdict.value.Published? {
      PublishEffectKeeps(s, r, mode, attributes, a, verdict.value.version);
    }
  }

  /** Every step of the catalog keeps the whole invariant. */
  lemma StepKeepsInvariant(s: State, step: Step)
    requires Invariant(s) && Possible(s, step)
    ensures Invariant(Next(s, step))
  {
    hide Invariant, Possible, WithVol, WithSpace, Scans.Transition, Scans.AdvanceOwner, Freeze, Verify, Purged, CreateSpace, MakeDirectory, Publish;
    match step
    case OwnerStep(serial, epoch) => OwnerStepKeeps(s, serial, epoch);
    case PlaceStep(_, _, _, _, _) => PlaceStepKeeps(s, step);
    case ScanStep(c, a) => ScanStepKeeps(s, c, a);
    case FreezeStep(c, expected, ready) => FreezeStepKeeps(s, c, expected, ready);
    case VerifyStep(c, limit, page, a) => if limit > 0 { VerifyStepKeeps(s, c, limit, page, a); }
    case PurgeStep(u, scan, limit, doomed) => PurgeStepKeeps(s, u, scan, doomed);
    case SpaceStep(ns, phase, managed) => NewSpaceKeeps(s, ns, phase, managed);
    case DirectoryStep(ns, parent, name, id, required, attributes, a) =>
      if ns in s.spaces { DirectoryStepKeeps(s, ns, parent, name, id, required, attributes, a); }
    case PublishStep(r, mode, attributes, a) => PublishStepKeeps(s, r, mode, attributes, a);
    case _ => BookkeepingKeeps(s, step);
  }
}
