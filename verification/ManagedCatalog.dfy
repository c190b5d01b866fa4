/** The calls of the managed catalog as transactions on its records, each shown
    to be one step of the catalog model (src/managed_catalog.rs,
    src/managed_catalog/verification.rs). */
module ManagedCatalog {
  import opened Outcomes
  import opened ByteStrings
  import opened Names
  import opened Records
  import opened Receipts
  import opened Volumes
  import opened Verification
  import opened Namespaces
  import opened Catalog
  import CatalogInvariant
  import CatalogAnswers
  import Scans

  class Database {
    var scans: Scans.State
    var spaces: map<Uuid, Space>
    var copies: map<Entry, PhysicalCopy>

    function Contents(): State
      reads this
    {
      State(scans, spaces, copies)
    }

    constructor ()
      ensures Contents() == EMPTY
    {
      scans, spaces, copies := Scans.EMPTY, map[], map[];
    }

    // ----------------------------------------------------------- directories

    /** `create_directory_in_state`. */
    method CreateDirectory(ns: Uuid, parent: Uuid, name: Bytes, id: Uuid, required: Phase, attributes: Option<Attributes>,
                           a: DirectoryAnswers) returns (r: Result<DirectoryOutcome>)
      modifies this
      ensures Contents() == Next(old(Contents()), DirectoryStep(ns, parent, name, id, required, attributes, a))
      ensures ns in old(spaces) ==> r == DirectoryVerdict(old(spaces)[ns], parent, name, id, required, attributes, a)
      ensures ns !in old(spaces) ==> r.Err?
    {
      if !ValidName(name) || !a.plain || id == NIL { return Err(Invalid); }
      if ns !in spaces { return Err(Incomplete); }
      var s := spaces[ns];
      if s.phase == required {
        if !a.allowed { return Err(Invalid); }
        if parent !in s.nodes { return Ok(MissingParent); }
        if !s.nodes[parent].kind.Directory? { return Ok(MissingParent); }
        var value := Node(Directory, Some(1), parent, name, attributes);
        var slot := Slot(parent, name);
        if slot in s.children && s.children[slot] == id && id in s.nodes && s.nodes[id] == value { return Ok(AlreadyExists); }
        if slot in s.children { return Ok(NameConflict); }
        if id in s.nodes { return Ok(IdConflict); }
        if !a.stored { return Err(Incomplete); }
        s := s.(children := s.children[slot := id]);
        s := s.(nodes := s.nodes[id := value]);
        spaces := spaces[ns := s];
        return Ok(Created);
      }
      return Ok(WrongPhase);
    }

    // --------------------------------------------------------------- publish

    /** Discard, request window and recorded result, then the phase. */
    method CheckAdmission(r: Receipt, mode: Mode) returns (stop: Option<Result<PublishOutcome>>)
      ensures stop == Admission(Lookup(spaces, r.ns), r, mode)
    {
      hide Fingerprint;
      if r.ns !in spaces { return Some(Ok(NotInPhase)); }
      var s := spaces[r.ns];
      if s.phase == NsDiscarded { return Some(Ok(NotInPhase)); }
      if r.requestEpoch < s.window.first { return Some(Ok(Answered(Expired))); }
      if r.requestEpoch > s.window.accepting { return Some(Ok(Answered(EpochClosed))); }
      if OpOf(r) in s.ops {
        var recorded := s.ops[OpOf(r)];
        if recorded.fingerprint != Fingerprint(r) { return Some(Ok(Answered(RequestConflict))); }
        return Some(Ok(Answered(if recorded.Applied? then AlreadyApplied(recorded.version) else RequestCancelled)));
      }
      if s.phase != RequiredPhase(mode) { return Some(Ok(NotInPhase)); }
      return None;
    }

    /** Registered intent, placement, owner epoch, and the scan written to. */
    method CheckFence(r: Receipt, mode: Mode, a: PublishAnswers) returns (stop: Option<Result<PublishOutcome>>)
      requires r.ns in spaces
      ensures stop == Fence(spaces[r.ns], Scans.At(scans, r.volume), Lookup(scans.owners, r.serial), r, mode, a)
    {
      hide Fingerprint;
      var s := spaces[r.ns];
      if r.copy != a.derivedCopy { return Some(Ok(Answered(InvalidCopy))); }
      if OpOf(r) !in s.intents { return Some(Ok(Answered(NotRegistered))); }
      if Fingerprint(s.intents[OpOf(r)]) != Fingerprint(r) { return Some(Ok(Answered(RequestConflict))); }
      if !a.placement { return Some(Ok(Answered(PlacementMismatch))); }
      if r.serial !in scans.owners || scans.owners[r.serial] != r.ownerEpoch { return Some(Ok(PublishStale)); }
      var x := Scans.At(scans, r.volume);
      var pointer := x.ready;
      if mode.Import? { pointer := x.pending; }
      if pointer.None? { return Some(Ok(VolumeNotReady)); }
      if pointer.value.scan != ReceiptScan(r) || pointer.value.serial != r.serial { return Some(Ok(VolumeNotReady)); }
      if Lookup(x.manifests, r.scanId) != Some(Manifest(ReceiptScan(r), r.serial, RequiredState(mode))) {
        return Some(Ok(VolumeNotReady));
      }
      if mode.Ordinary? && x.pending.Some? { return Some(Ok(VolumeNotReady)); }
      return None;
    }

    /** Parent, node, version, name and copy record. */
    method CheckNaming(r: Receipt, attributes: Option<Attributes>, a: PublishAnswers) returns (stop: Option<Result<PublishOutcome>>)
      requires r.ns in spaces
      ensures stop == Naming(spaces[r.ns], EntryOf(r) in copies, r, attributes, a)
    {
      var s := spaces[r.ns];
      if r.parent !in s.nodes { return Some(Ok(NoParent)); }
      if !s.nodes[r.parent].kind.Directory? { return Some(Ok(NoParent)); }
      if r.file in s.nodes {
        var node := s.nodes[r.file];
        if !node.kind.File? || node.parent != r.parent || node.name != r.name { return Some(Ok(NodeConflict)); }
        if node.attributes.Some? && attributes.None? { return Some(Ok(OperationConflict)); }
      }
      var current := 0;
      if r.file in s.heads { current := s.heads[r.file].version; }
      if current != Expected(r) { return Some(Ok(VersionConflict)); }
      var slot := Slot(r.parent, r.name);
      if slot in s.children {
        if s.children[slot] != r.file { return Some(Ok(SlotConflict)); }
      } else if Expected(r) != 0 {
        return Some(Ok(SlotConflict));
      }
      if EntryOf(r) in copies { return Some(Ok(OperationConflict)); }
      if !a.permit { return Some(Err(Corrupt)); }
      if !a.stored { return Some(Err(Incomplete)); }
      return None;
    }

    /** The records of one commit, set one after the other in its transaction. */
    method WriteCommit(r: Receipt, attributes: Option<Attributes>, version: U64)
      requires r.ns in spaces
      modifies this
      ensures Contents() == PublishEffect(old(Contents()), r, attributes, version)
    {
      hide Fingerprint;
      var s := spaces[r.ns];
      s := s.(children := s.children[Slot(r.parent, r.name) := r.file]);
      s := s.(nodes := s.nodes[r.file := Node(File, None, r.parent, r.name, attributes)]);
      s := s.(heads := s.heads[r.file := FileHead(version, r.size, r.copy)]);
      copies := copies[EntryOf(r) := CopyOf(r, version)];
      var x := Scans.At(scans, r.volume);
      var y := WithRow(x, r.scanId, EntryOf(r), Row(version, Fingerprint(r)));
      if y != x { scans := Scans.WithVolume(scans, r.volume, y); }
      s := s.(ops := s.ops[OpOf(r) := Applied(Fingerprint(r), version)]);
      s := s.(intents := s.intents - {OpOf(r)});
      spaces := spaces[r.ns := s];
    }

    /** `publish_in_state`. */
    method Publish(r: Receipt, mode: Mode, attributes: Option<Attributes>, a: PublishAnswers) returns (result: Result<PublishOutcome>)
      modifies this
      ensures result == PublishVerdict(old(Contents()), r, mode, attributes, a)
      ensures Contents() == Next(old(Contents()), PublishStep(r, mode, attributes, a))
      ensures result.Ok? && result.value.Published? ==>
                CatalogAnswers.CommitStored(old(Contents()), Contents(), r, attributes, result.value.version)
    {
      hide ValidReceipt, Fingerprint, Admission, Fence, Naming, PublishEffect, CatalogAnswers.CommitStored;
      if !ValidReceipt(r) || !a.metadata { return Err(Invalid); }
      var stop := CheckAdmission(r, mode);
      AdmissionOnlyStops(Lookup(spaces, r.ns), r, mode);
      if stop.Some? { return stop.value; }
      stop := CheckFence(r, mode, a);
      FenceOnlyStops(spaces[r.ns], Scans.At(scans, r.volume), Lookup(scans.owners, r.serial), r, mode, a);
      if stop.Some? { return stop.value; }
      stop := CheckNaming(r, attributes, a);
      NamingOnlyStops(spaces[r.ns], EntryOf(r) in copies, r, attributes, a);
      if stop.Some? { return stop.value; }
      NextVersionFits(r);
      var version: U64 := Expected(r) + 1;
      CatalogAnswers.PublishStores(Contents(), r, mode, attributes, a, version);
      WriteCommit(r, attributes, version);
      return Ok(Published(version));
    }

    // ----------------------------------------------------------------- purge

    /** `purge_retired_volume_index`: one bounded batch. */
    method PurgeRetired(u: Uuid, scan: Scan, limit: nat) returns (r: Result<nat>, ghost doomed: set<Entry>)
      modifies this
      ensures Possible(old(Contents()), PurgeStep(u, scan, limit, doomed))
      ensures Contents() == Next(old(Contents()), PurgeStep(u, scan, limit, doomed))
      ensures r.Ok? <==> u != NIL && ValidScan(scan) && 1 <= limit <= 1000 && PurgeVerdict(Scans.At(old(scans), u), scan).None?
      ensures r.Ok? ==> r.value == |doomed|
    {
      hide PurgeVerdict, Purged, Next;
      var x := Scans.At(scans, u);
      PurgeIsOneStep(Contents(), u, scan, limit);
      doomed := SomeRows(Rows(x, scan.id).Keys, limit);
      if u == NIL || !ValidScan(scan) || limit < 1 || limit > 1000 { return Err(Invalid), doomed; }
      var refusal := CheckRetired(x, scan);
      if refusal.Some? { return Err(refusal.value), doomed; }
      var y, count, cleared := ClearBatch(x, scan, limit);
      doomed := cleared;
      if y != x { scans := Scans.WithVolume(scans, u, y); }
      r := Ok(count);
    }

    /** Clear one batch; an empty batch drops the scan's verification progress instead. */
    static method ClearBatch(x: Volume, scan: Scan, limit: nat) returns (y: Volume, count: nat, ghost doomed: set<Entry>)
      requires PurgeVerdict(x, scan).None?
      ensures doomed <= Rows(x, scan.id).Keys && |doomed| == if |Rows(x, scan.id).Keys| < limit then |Rows(x, scan.id).Keys| else limit
      ensures y == Purged(x, scan, doomed) && count == |doomed|
    {
      hide PurgeVerdict, Purged;
      var left, cleared := ClearRows(Rows(x, scan.id), limit);
      doomed := cleared;
      PurgedBatch(x, scan, doomed);
      count := |Rows(x, scan.id)| - |left|;
      y := if count == 0 then x.(progress := x.progress - {scan.id}) else x.(rows := x.rows[scan.id := left]);
    }

    /** Only a retired scan that readers do not use is purged. */
    static method CheckRetired(x: Volume, scan: Scan) returns (refusal: Option<Error>)
      ensures refusal == PurgeVerdict(x, scan)
    {
      if scan.id !in x.manifests { return Some(Invalid); }
      if x.manifests[scan.id].scan != scan || x.manifests[scan.id].state != Retired { return Some(Invalid); }
      if x.ready.Some? && x.ready.value.scan.id == scan.id { return Some(Corrupt); }
      return None;
    }

    /** Rows are cleared in key order until the batch is full. */
    static method ClearRows(rows: map<Entry, Row>, limit: nat) returns (left: map<Entry, Row>, ghost doomed: set<Entry>)
      ensures doomed <= rows.Keys && left == rows - doomed
      ensures |doomed| == if |rows.Keys| < limit then |rows.Keys| else limit
      ensures forall a, b :: a in doomed && b in left ==> Before(a, b)
    {
      hide Before;
      left, doomed := rows, {};
      var count := 0;
      while count < limit && left != map[]
        invariant doomed <= rows.Keys && left == rows - doomed && count == |doomed| <= limit
        invariant forall a, b :: a in doomed && b in left ==> Before(a, b)
        decreases |left|
      {
        assert left.Keys != {};
        LeastExists(left.Keys);
        var e :| IsLeast(left.Keys, e);
        ClearOne(rows, doomed, e);
        left := left - {e};
        doomed := doomed + {e};
        count := count + 1;
      }
      assert rows.Keys == doomed + left.Keys;
    }

    // --------------------------------------------------------- verification

    /** `verify_volume_scan_page`. */
    method VerifyPage(c: Call, limit: nat, a: Evidence) returns (r: Result<VerificationOutcome>, ghost page: set<Entry>)
      modifies this
      ensures Possible(old(Contents()), VerifyStep(c, limit, page, a))
      ensures Contents() == Next(old(Contents()), VerifyStep(c, limit, page, a))
      ensures r == if !Scans.ValidCall(c) || limit < 1 || limit > 100 then Err(Invalid)
                   else if Lookup(old(scans).owners, c.serial) != Some(c.epoch) then Ok(OwnerStale)
                   else VerifyVerdict(Scans.At(old(scans), c.volume), old(copies), c, limit, page, a)
      ensures CatalogInvariant.Invariant(old(Contents())) && OwnerHolds(old(Contents()), c) && 1 <= limit <= 100 ==>
                CatalogAnswers.Tells(Scans.At(old(scans), c.volume), Scans.At(scans, c.volume), copies, c, a, r)
    {
      hide VerifyVerdict, Next, Possible, CatalogAnswers.Tells, CatalogInvariant.Invariant, Scans.ValidCall;
      ghost var s := Contents();
      r, page := VerifyPageInner(c, limit, a);
      if CatalogInvariant.Invariant(s) && OwnerHolds(s, c) && 1 <= limit <= 100 {
        CatalogAnswers.VerifyTells(s, c, limit, page, a);
      }
    }

    /** `verify_volume_scan_page_inner`. */
    method VerifyPageInner(c: Call, limit: nat, a: Evidence) returns (r: Result<VerificationOutcome>, ghost page: set<Entry>)
      modifies this
      ensures Possible(old(Contents()), VerifyStep(c, limit, page, a))
      ensures Contents() == Next(old(Contents()), VerifyStep(c, limit, page, a))
      ensures r == if !Scans.ValidCall(c) || limit < 1 || limit > 100 then Err(Invalid)
                   else if Lookup(old(scans).owners, c.serial) != Some(c.epoch) then Ok(OwnerStale)
                   else VerifyVerdict(Scans.At(old(scans), c.volume), old(copies), c, limit, page, a)
    {
      hide FoldAll, IsPage, Greatest, PageHolds, Before, Remaining, Scans.ValidCall, VerifyGate, VerifyVerdict, Verify, Next;
      var x := Scans.At(scans, c.volume);
      page := {};
      if c.scan.id in x.progress {
        page := FirstRows(Remaining(Rows(x, c.scan.id), x.progress[c.scan.id].cursor), limit);
      }
      if !Scans.ValidCall(c) || limit < 1 || limit > 100 {
        VerifyIsOneStep(Contents(), c, limit, page, a);
        return Err(Invalid), page;
      }
      if Lookup(scans.owners, c.serial) != Some(c.epoch) {
        VerifyIsOneStep(Contents(), c, limit, page, a);
        return Ok(OwnerStale), page;
      }
      var gate := VerifyGate(x, c, a);
      if gate.Some? {
        VerifyIsOneStep(Contents(), c, limit, page, a);
        return gate.value, page;
      }
      GateKnowsProgress(x, c, a);
      var id := c.scan.id;
      var p := x.progress[id];
      var rest := Remaining(Rows(x, id), p.cursor);
      RestIsRows(Rows(x, id), p.cursor);
      var folded, last, seen := FoldPage(p.actual, rest, Rows(x, id), copies, c, limit);
      page := seen;
      VerifyIsOneStep(Contents(), c, limit, page, a);
      PageResult(x, copies, c, limit, page, a);
      if folded.Err? || (a.managed && !a.cacheAgrees) { return Err(Corrupt), page; }
      var cursor := if last.Some? then last else p.cursor;
      var y := x.(progress := x.progress[id := Progress(p.expected, folded.value, cursor)]);
      if |rest| > limit {
        if y != x { scans := Scans.WithVolume(scans, c.volume, y); }
        return Ok(Advanced(folded.value)), page;
      }
      var state := if p.expected == folded.value then Verified else Rejected;
      y := y.(manifests := y.manifests[id := Mark(c, state)]);
      if y != x { scans := Scans.WithVolume(scans, c.volume, y); }
      return Ok(Finished(p.(actual := folded.value), state)), page;
    }
  }

  lemma VerifyIsOneStep(s: State, c: Call, limit: nat, page: set<Entry>, a: Evidence)
    ensures var x := Vol(s, c.volume);
            Next(s, VerifyStep(c, limit, page, a)) ==
              if OwnerHolds(s, c) && 1 <= limit <= 100 then WithVol(s, c.volume, Verify(x, s.copies, c, limit, page, a)) else s
    ensures var x := Vol(s, c.volume);
            VerifyGate(x, c, a).Some? ==>
              Verify(x, s.copies, c, limit, page, a) == x && VerifyVerdict(x, s.copies, c, limit, page, a) == VerifyGate(x, c, a).value
  {
    hide VerifyGate, FoldAll, Greatest, Remaining, PageHolds, Scans.ValidCall;
  }

  /** What a page read past the gate leads to. */
  lemma PageResult(x: Volume, copies: map<Entry, PhysicalCopy>, c: Call, limit: nat, page: set<Entry>, a: Evidence)
    requires VerifyGate(x, c, a).None? && c.scan.id in x.progress
    ensures var rows, p := Rows(x, c.scan.id), x.progress[c.scan.id];
            var verdict, y := VerifyVerdict(x, copies, c, limit, page, a), Verify(x, copies, c, limit, page, a);
            if !PageHolds(page, rows, copies, c) || (a.managed && !a.cacheAgrees) || p.actual.entries + |page| >= U64_LIMIT
            then verdict == Err(Corrupt) && y == x
            else
              var actual := FoldAll(p.actual, page, rows, copies);
              var progress := Progress(p.expected, actual, if page == {} then p.cursor else Some(Greatest(page)));
              var state := if p.expected == actual then Verified else Rejected;
              if |Remaining(rows, p.cursor)| > limit
              then verdict == Ok(Advanced(actual)) && y == x.(progress := x.progress[c.scan.id := progress])
              else verdict == Ok(Finished(p.(actual := actual), state)) &&
                   y == x.(progress := x.progress[c.scan.id := progress], manifests := x.manifests[c.scan.id := Mark(c, state)])
  {
    hide VerifyGate, FoldAll, Greatest, Remaining;
  }

  lemma NextVersionFits(r: Receipt)
    requires ValidReceipt(r)
    ensures Expected(r) + 1 < U64_LIMIT
  {
  }

  lemma GateKnowsProgress(x: Volume, c: Call, a: Evidence)
    requires VerifyGate(x, c, a).None?
    ensures c.scan.id in x.progress
  {
  }

  lemma RestIsRows(rows: map<Entry, Row>, cursor: Option<Entry>)
    ensures Remaining(rows, cursor) <= rows.Keys
  {
    hide Before;
  }

  lemma ClearOne(rows: map<Entry, Row>, doomed: set<Entry>, e: Entry)
    requires e in rows && e !in doomed
    ensures (rows - doomed) - {e} == rows - (doomed + {e})
    ensures ((rows - doomed) - {e}).Keys == (rows - doomed).Keys - {e}
  {
  }

  lemma AdmissionOnlyStops(space: Option<Space>, r: Receipt, mode: Mode)
    ensures match Admission(space, r, mode) case Some(Ok(outcome)) => !outcome.Published? case _ => true
    ensures Admission(space, r, mode).None? ==> space.Some?
  {
    hide Fingerprint;
  }

  lemma FenceOnlyStops(s: Space, x: Volume, owner: Option<U64>, r: Receipt, mode: Mode, a: PublishAnswers)
    ensures match Fence(s, x, owner, r, mode, a) case Some(Ok(outcome)) => !outcome.Published? case _ => true
  {
    hide Fingerprint;
  }

  lemma NamingOnlyStops(s: Space, taken: bool, r: Receipt, attributes: Option<Attributes>, a: PublishAnswers)
    ensures match Naming(s, taken, r, attributes, a) case Some(Ok(outcome)) => !outcome.Published? case _ => true
  {
  }

  /** Some batch of the right size. */
  ghost function SomeRows(rows: set<Entry>, limit: nat): (batch: set<Entry>)
    ensures batch <= rows && |batch| == if |rows| < limit then |rows| else limit
    decreases |rows|
  {
    if |rows| <= limit then rows
    else
      var e :| e in rows;
      SomeRows(rows - {e}, limit)
  }

  lemma PurgeIsOneStep(s: State, u: Uuid, scan: Scan, limit: nat)
    ensures forall doomed :: Next(s, PurgeStep(u, scan, limit, doomed)) ==
              if u != NIL && ValidScan(scan) && 1 <= limit <= 1000 && PurgeVerdict(Vol(s, u), scan).None?
              then WithVol(s, u, Purged(Vol(s, u), scan, doomed)) else s
  {
    hide PurgeVerdict;
  }

  /** What clearing the batch `doomed` amounts to. */
  lemma PurgedBatch(x: Volume, scan: Scan, doomed: set<Entry>)
    requires doomed <= Rows(x, scan.id).Keys && PurgeVerdict(x, scan).None?
    ensures |Rows(x, scan.id)| == |Rows(x, scan.id) - doomed| + |doomed|
    ensures Purged(x, scan, doomed) ==
              if |doomed| == 0 then x.(progress := x.progress - {scan.id})
              else x.(rows := x.rows[scan.id := Rows(x, scan.id) - doomed])
  {
    hide PurgeVerdict;
    var rows := Rows(x, scan.id);
    assert (rows - doomed).Keys == rows.Keys - doomed;
    assert rows.Keys == doomed + (rows.Keys - doomed);
  }

  /** The lowest entries of a set, up to a limit. */
  ghost function FirstRows(rest: set<Entry>, limit: nat): (page: set<Entry>)
    ensures IsPage(rest, limit, page)
    decreases |rest|
  {
    if |rest| <= limit then rest
    else
      var g := Greatest(rest);
      var page := FirstRows(rest - {g}, limit);
      assert rest - page == (rest - {g} - page) + {g};
      page
  }
}
