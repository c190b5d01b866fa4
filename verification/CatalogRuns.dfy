/** Whole runs of the catalog: what holds between any two points of any sequence
    of calls, by any callers, with any retries. */
module CatalogRuns {
  import opened Outcomes
  import opened ByteStrings
  import opened Records
  import opened Receipts
  import opened Volumes
  import opened Verification
  import opened Namespaces
  import opened Catalog
  import opened CatalogInvariant
  import Scans

  /** The state after a sequence of steps from the empty store. */
  ghost function After(steps: seq<Step>): State
    decreases |steps|
  {
    if steps == [] then EMPTY else Next(After(steps[..|steps| - 1]), steps[|steps| - 1])
  }

  ghost predicate LegalAt(steps: seq<Step>, i: nat) {
    i < |steps| && Possible(After(steps[..i]), steps[i])
  }

  /** Every range read inside the run returned what the store held then. */
  ghost predicate Legal(steps: seq<Step>) {
    forall i: nat :: i < |steps| ==> LegalAt(steps, i)
  }

  lemma OneMore(steps: seq<Step>, i: nat)
    requires i < |steps|
    ensures After(steps[..i + 1]) == Next(After(steps[..i]), steps[i])
  {
    assert steps[..i + 1][..i] == steps[..i];
  }

  /** The invariant holds at every point of every run. */
  lemma {:induction false} InvariantHolds(steps: seq<Step>, i: nat)
    requires Legal(steps) && i <= |steps|
    ensures Invariant(After(steps[..i]))
    decreases i
  {
    hide Invariant, Next, Possible;
    if i == 0 {
      EmptyFits();
    } else {
      InvariantHolds(steps, i - 1);
      OneMore(steps, i - 1);
      assert LegalAt(steps, i - 1);
      StepKeepsInvariant(After(steps[..i - 1]), steps[i - 1]);
    }
  }

  // ------------------------------------------------ the life of one volume

  ghost predicate Within(a: map<Entry, Row>, b: map<Entry, Row>) {
    forall e :: e in a ==> e in b && a[e] == b[e]
  }

  /** What may have become of scan `id` between two states of its volume: frozen
      rows and expectation stay put until the scan is ready or retired, a ready
      scan only retires, and a retired one stays retired and only loses rows. */
  ghost predicate ScanLives(x: Volume, y: Volume, id: Uuid) {
    id in x.manifests ==>
      && id in y.manifests && y.manifests[id].scan == x.manifests[id].scan && y.manifests[id].serial == x.manifests[id].serial
      && var before, after := x.manifests[id].state, y.manifests[id].state;
      && (before == Retired ==> after == Retired && Within(Rows(y, id), Rows(x, id)))
      && (before == Ready ==> after == Ready || after == Retired)
      && (Examined(before) ==> Examined(after) || after == Ready || after == Retired)
      && (Examined(before) && Examined(after) ==>
            Rows(y, id) == Rows(x, id) && id in x.progress && id in y.progress &&
            y.progress[id].expected == x.progress[id].expected)
  }

  ghost predicate Lives(x: Volume, y: Volume) {
    Newest(x) <= Newest(y) && forall id :: ScanLives(x, y, id)
  }

  lemma LivesOn(x: Volume, y: Volume, z: Volume)
    requires Lives(x, y) && Lives(y, z)
    ensures Lives(x, z)
  {
    forall id
      ensures ScanLives(x, z, id)
    {
      assert ScanLives(x, y, id) && ScanLives(y, z, id);
    }
  }

  /** The switch of readers to the pending scan, which was Verified. */
  ghost predicate Promoted(x: Volume, y: Volume) {
    x.pending.Some? && y.ready == x.pending && y.pending.None? && y.rows == x.rows && y.progress == x.progress &&
    var p := x.pending.value;
    Lookup(x.manifests, p.scan.id) == Some(Manifest(p.scan, p.serial, Verified)) && p.scan.generation == Newest(x)
  }

  /** One step on one volume. */
  ghost predicate Advances(x: Volume, y: Volume) {
    Lives(x, y) && (Promoted(x, y) || (y.ready == x.ready && (x.pending.Some? ==> y.pending.Some?)))
  }

  ghost predicate ProgressKept(x: Volume) {
    forall id :: id in x.manifests && Examined(x.manifests[id].state) ==> id in x.progress
  }

  lemma MoveAdvances(x: Volume, y: Volume, c: Call, managed: bool)
    requires VolumeInvariant(x) && Moves(x, y, c, managed) && ProgressKept(x)
    ensures Advances(x, y)
  {
    hide VolumeInvariant, Newest, ManifestFits, Begun, Switched, Withdrawn, MayBegin, MayBecomeReady, MayCancel;
    MoveKeepsInvariant(x, y, c, managed);
    MoveKeepsRows(x, y, c, managed);
    forall id
      ensures ScanLives(x, y, id)
    {
      if id in x.manifests {
        MoveKeepsManifest(x, y, c, managed, id);
        MoveChangesState(x, y, c, managed, id);
      }
    }
    ReadyOnlyFromVerified(x, y, c, managed, None, true);
    if y.ready != x.ready || (x.pending.Some? && y.pending.None?) {
      TargetIsVerified(x, c);
    }
  }

  lemma TargetIsVerified(x: Volume, c: Call)
    requires MayBecomeReady(x, c)
    ensures x.pending == Some(Target(c)) && Lookup(x.manifests, c.scan.id) == Some(Mark(c, Verified))
  {
  }

  lemma MoveChangesState(x: Volume, y: Volume, c: Call, managed: bool, id: Uuid)
    requires VolumeInvariant(x) && Moves(x, y, c, managed) && id in x.manifests && id in y.manifests
    ensures var before, after := x.manifests[id].state, y.manifests[id].state;
            (before == Ready ==> after == Ready || after == Retired) &&
            (Examined(before) ==> Examined(after) || after == Ready || after == Retired)
  {
    hide Newest, Serials, VolumeInvariant, ManifestFits;
    if MayBegin(x, c) && y == Begun(x, c, managed) {
      assert y.manifests[id] == x.manifests[id];
    } else if MayBecomeReady(x, c) && y == Switched(x, c, managed) {
      assert y.manifests[id].state in {Ready, Retired} || y.manifests[id] == x.manifests[id];
    }
  }

  lemma FreezeAdvances(x: Volume, c: Call, expected: Summary, sourceReady: bool)
    requires ProgressKept(x)
    ensures Advances(x, Freeze(x, c, expected, sourceReady))
  {
    var y := Freeze(x, c, expected, sourceReady);
    assert Newest(y) == Newest(x);
    forall id
      ensures ScanLives(x, y, id)
    {
    }
  }

  lemma VerifyAdvances(x: Volume, copies: map<Entry, PhysicalCopy>, c: Call, limit: nat, page: set<Entry>, a: Evidence)
    requires ProgressKept(x)
    ensures Advances(x, Verify(x, copies, c, limit, page, a))
  {
    hide VerifyVerdict, FoldAll, Remaining, Greatest;
    var y := Verify(x, copies, c, limit, page, a);
    assert Newest(y) == Newest(x);
    forall id
      ensures ScanLives(x, y, id)
    {
    }
  }

  lemma PurgeAdvances(x: Volume, scan: Scan, doomed: set<Entry>)
    requires ProgressKept(x)
    ensures Advances(x, Purged(x, scan, doomed))
  {
    var y := Purged(x, scan, doomed);
    assert Newest(y) == Newest(x);
    forall id
      ensures ScanLives(x, y, id)
    {
    }
  }

  lemma RowAdvances(x: Volume, id: Uuid, e: Entry, row: Row)
    requires ProgressKept(x) && id in x.manifests && x.manifests[id].state in {Building, Ready}
    ensures Advances(x, WithRow(x, id, e, row))
  {
    var y := WithRow(x, id, e, row);
    assert Newest(y) == Newest(x);
    forall o
      ensures ScanLives(x, y, o)
    {
    }
  }

  lemma NothingAdvances(x: Volume)
    requires ProgressKept(x)
    ensures Advances(x, x)
  {
    forall id
      ensures ScanLives(x, x, id)
    {
    }
  }

  lemma HidingAdvances(x: Volume, y: Volume)
    requires ProgressKept(x) && y == x.(hidden := y.hidden)
    ensures Advances(x, y)
  {
    assert Newest(y) == Newest(x);
    forall id
      ensures ScanLives(x, y, id)
    {
      assert Rows(y, id) == Rows(x, id);
    }
  }

  lemma ProgressIsKept(s: State, u: Uuid)
    requires Invariant(s)
    ensures ProgressKept(Vol(s, u)) && VolumeInvariant(Vol(s, u))
  {
    hide VolumeInvariant, ProgressFits;
    VolumeKnown(s, u);
  }

  /** How any step changes any volume. */
  lemma StepAdvances(s: State, step: Step, u: Uuid)
    requires Invariant(s)
    ensures Advances(Vol(s, u), Vol(Next(s, step), u))
  {
    hide Invariant, Advances, ProgressKept, VolumeInvariant, Moves, Freeze, Verify, Purged, Scans.Transition, Scans.AdvanceOwner, Scans.Place, Scans.Invariant,
         MakeDirectory, Register, CancelRequest, Rotate, AdvanceFloor, PurgeExpired, Publish;
    var x := Vol(s, u);
    ProgressIsKept(s, u);
    NothingAdvances(x);
    match step
    case OwnerStep(serial, epoch) => Scans.AdvanceRaisesEpoch(s.scans, serial, epoch);
    case PlaceStep(v, ns, serial, epoch, allowed) =>
      ScansKnown(s);
      Scans.PlaceKeepsInvariant(s.scans, v, ns, serial, epoch, allowed);
      HidingAdvances(x, Vol(Next(s, step), u));
    case ScanStep(c, a) =>
      Scans.TransitionMovesOne(s.scans, c, a);
      if u == c.volume {
        MoveAdvances(x, Scans.At(Scans.Transition(s.scans, c, a), u), c, u in s.scans.placement);
      }
    case FreezeStep(c, expected, ready) => FreezeAdvances(x, c, expected, ready);
    case VerifyStep(c, limit, page, a) => VerifyAdvances(x, s.copies, c, limit, page, a);
    case PurgeStep(_, scan, _, doomed) => PurgeAdvances(x, scan, doomed);
    case PublishStep(r, mode, attributes, a) => PublishAdvances(s, r, mode, attributes, a, u);
    case _ =>
  }

  lemma PublishAdvances(s: State, r: Receipt, mode: Mode, attributes: Option<Attributes>, a: PublishAnswers, u: Uuid)
    requires Invariant(s)
    ensures Advances(Vol(s, u), Vol(Publish(s, r, mode, attributes, a), u))
  {
    hide Invariant, Advances, ProgressKept, VolumeInvariant, PublishVerdict, PublishedSpace, ValidReceipt, Fingerprint;
    var verdict := PublishVerdict(s, r, mode, attributes, a);
    ProgressIsKept(s, u);
    NothingAdvances(Vol(s, u));
    if verdict.Ok? && verdict.value.Published? {
      PublishFacts(s, r, mode, attributes, a, verdict.value.version);
      ProgressIsKept(s, r.volume);
      RowAdvances(Vol(s, r.volume), r.scanId, EntryOf(r), Row(verdict.value.version, Fingerprint(r)));
    }
  }

  ghost function VolumeAt(steps: seq<Step>, i: nat, u: Uuid): Volume
    requires i <= |steps|
  {
    Vol(After(steps[..i]), u)
  }

  lemma RunAdvances(steps: seq<Step>, i: nat, u: Uuid)
    requires Legal(steps) && i < |steps|
    ensures Advances(VolumeAt(steps, i, u), VolumeAt(steps, i + 1, u))
  {
    hide Invariant, Next, Advances;
    InvariantHolds(steps, i);
    OneMore(steps, i);
    StepAdvances(After(steps[..i]), steps[i], u);
  }

  /** Between any two points of a run: the newest observed generation of a volume
      never drops, frozen rows and expectations do not change while a scan is
      examined, retirement is final and retired rows only shrink. */
  lemma {:induction false} VolumeLives(steps: seq<Step>, i: nat, j: nat, u: Uuid)
    requires Legal(steps) && i <= j <= |steps|
    ensures Lives(VolumeAt(steps, i, u), VolumeAt(steps, j, u))
    decreases j
  {
    hide Lives, ProgressKept, Invariant;
    if i == j {
      InvariantHolds(steps, i);
      ProgressIsKept(After(steps[..i]), u);
      NothingAdvances(VolumeAt(steps, i, u));
    } else {
      VolumeLives(steps, i, j - 1, u);
      RunAdvances(steps, j - 1, u);
      LivesOn(VolumeAt(steps, i, u), VolumeAt(steps, j - 1, u), VolumeAt(steps, j, u));
    }
  }

  /** A step that shows readers another scan shows one at least as new as any
      generation observed before. */
  lemma NoOlderScanIsShown(steps: seq<Step>, i: nat, j: nat, u: Uuid)
    requires Legal(steps) && i <= j < |steps|
    requires VolumeAt(steps, j + 1, u).ready != VolumeAt(steps, j, u).ready
    ensures VolumeAt(steps, j + 1, u).ready.Some?
    ensures VolumeAt(steps, j + 1, u).ready.value.scan.generation >= Newest(VolumeAt(steps, i, u))
  {
    VolumeLives(steps, i, j, u);
    RunAdvances(steps, j, u);
  }

  /** From a begin on, readers are refused until a verified scan is switched in. */
  lemma {:induction false} ReadersWait(steps: seq<Step>, i: nat, j: nat, u: Uuid, expected: Option<Scan>, sourceReady: bool)
    requires Legal(steps) && i <= j <= |steps| && VolumeAt(steps, i, u).pending.Some?
    requires forall k: nat :: i <= k < j ==> !Promoted(VolumeAt(steps, k, u), VolumeAt(steps, k + 1, u))
    ensures VolumeAt(steps, j, u).pending.Some?
    ensures RequireReady(VolumeAt(steps, j, u), expected, sourceReady) == Err(Incomplete)
    decreases j
  {
    hide Promoted, Lives, VolumeAt, Legal;
    if i < j {
      ReadersWait(steps, i, j - 1, u, expected, sourceReady);
      RunAdvances(steps, j - 1, u);
    }
  }

  /** The two places a switch is seen from: the call answers NowReady, and the
      volume's readers move to the pending scan. */
  lemma ReadyMeansPromoted(s: State, c: Call, a: Scans.Answers)
    requires Invariant(s)
    ensures Scans.TransitionOutcome(s.scans, c, a) == Ok(NowReady) <==> Promoted(Vol(s, c.volume), Vol(Next(s, ScanStep(c, a)), c.volume))
  {
    hide Invariant, Lives, VolumeInvariant, Moves, Scans.TransitionOutcome, Newest;
    StepAdvances(s, ScanStep(c, a), c.volume);
    if Scans.TransitionOutcome(s.scans, c, a) == Ok(NowReady) {
      SwitchMovesReaders(s, c, a);
    } else {
      NoSwitchKeepsReaders(s, c, a);
    }
  }

  lemma NoSwitchKeepsReaders(s: State, c: Call, a: Scans.Answers)
    requires Scans.TransitionOutcome(s.scans, c, a) != Ok(NowReady)
    ensures var x, y := Vol(s, c.volume), Vol(Next(s, ScanStep(c, a)), c.volume); x.pending.Some? ==> y.pending.Some?
  {
    Scans.TransitionMovesOne(s.scans, c, a);
  }

  lemma SwitchMovesReaders(s: State, c: Call, a: Scans.Answers)
    requires Scans.TransitionOutcome(s.scans, c, a) == Ok(NowReady)
    ensures Vol(s, c.volume).pending.Some? && Vol(Next(s, ScanStep(c, a)), c.volume).pending.None?
  {
    Scans.TransitionMovesOne(s.scans, c, a);
  }

  /** A freeze took effect at step `i`. */
  ghost predicate FrozenAt(steps: seq<Step>, i: nat, u: Uuid, id: Uuid, expected: Summary) {
    i < |steps| && steps[i].FreezeStep? && steps[i].call.volume == u && steps[i].call.scan.id == id && steps[i].expected == expected &&
    Next(After(steps[..i]), steps[i]) != After(steps[..i])
  }

  /** From freeze to switch nothing about the scan changes but its progress: the
      rows switched in are the rows that were frozen, checked against the
      expectation given then. */
  lemma FrozenUntilSwitch(steps: seq<Step>, i: nat, k: nat, u: Uuid, id: Uuid, expected: Summary)
    requires Legal(steps) && i < k < |steps| && FrozenAt(steps, i, u, id, expected)
    requires Promoted(VolumeAt(steps, k, u), VolumeAt(steps, k + 1, u)) && VolumeAt(steps, k, u).pending.value.scan.id == id
    ensures Rows(VolumeAt(steps, k + 1, u), id) == Rows(VolumeAt(steps, i, u), id)
    ensures id in VolumeAt(steps, k, u).progress && VolumeAt(steps, k, u).progress[id].expected == expected
  {
    hide Legal, Newest, After;
    OneMore(steps, i);
    FreezeShape(After(steps[..i]), steps[i]);
    VolumeLives(steps, i + 1, k, u);
    assert ScanLives(VolumeAt(steps, i + 1, u), VolumeAt(steps, k, u), id);
  }

  lemma FreezeShape(s: State, step: Step)
    requires step.FreezeStep? && Next(s, step) != s
    ensures var x, y, id := Vol(s, step.call.volume), Vol(Next(s, step), step.call.volume), step.call.scan.id;
            y.rows == x.rows && id in y.manifests && y.manifests[id].state == Verifying && id in y.progress &&
            y.progress[id].expected == step.expected
  {
  }

  /** The expectation of the pending scan was computed from this row set. */
  ghost predicate ExpectsSource(u: Uuid, x: Volume, rows: map<Entry, Row>, copies: map<Entry, PhysicalCopy>) {
    rows.Keys <= copies.Keys && x.pending.Some? &&
    var scan := x.pending.value.scan;
    scan.id in x.progress && x.progress[scan.id].expected == FoldAll(Start(u, scan), rows.Keys, rows, copies)
  }

  /** The stored rows of a scan are exactly these entries, fingerprints and copies. */
  ghost predicate Shows(x: Volume, id: Uuid, stored: map<Entry, PhysicalCopy>, rows: map<Entry, Row>, copies: map<Entry, PhysicalCopy>) {
    Rows(x, id).Keys == rows.Keys &&
    forall e :: e in rows ==>
      Rows(x, id)[e].fingerprint == rows[e].fingerprint && e in stored && e in copies && stored[e] == copies[e]
  }

  lemma VerifiedShows(s: State, u: Uuid, rows: map<Entry, Row>, copies: map<Entry, PhysicalCopy>)
    requires Invariant(s) && ExpectsSource(u, Vol(s, u), rows, copies)
    requires var p := Vol(s, u).pending.value;
             Lookup(Vol(s, u).manifests, p.scan.id) == Some(Manifest(p.scan, p.serial, Verified))
    ensures Shows(Vol(s, u), Vol(s, u).pending.value.scan.id, s.copies, rows, copies)
  {
    hide Invariant, FoldAll, VolumeInvariant, RowsFit, Before;
    var x := Vol(s, u);
    VolumeKnown(s, u);
    var scan := x.pending.value.scan;
    var shown := Rows(x, scan.id);
    assert ProgressFits(u, x.manifests[scan.id], x.progress[scan.id], shown, s.copies);
    FoldIsInjective(Start(u, scan), shown.Keys, shown, s.copies, rows.Keys, rows, copies);
  }

  lemma PromotedShows(x: Volume, y: Volume, stored: map<Entry, PhysicalCopy>, rows: map<Entry, Row>, copies: map<Entry, PhysicalCopy>)
    requires Promoted(x, y) && Shows(x, x.pending.value.scan.id, stored, rows, copies)
    ensures y.ready.Some? && Shows(y, y.ready.value.scan.id, stored, rows, copies)
  {
  }

  /** At the switch readers get exactly the row set the expectation was computed
      from: the same entries, fingerprints and copies. */
  lemma SwitchShowsTheSource(steps: seq<Step>, k: nat, u: Uuid, rows: map<Entry, Row>, copies: map<Entry, PhysicalCopy>)
    requires Legal(steps) && k < |steps| && Promoted(VolumeAt(steps, k, u), VolumeAt(steps, k + 1, u))
    requires ExpectsSource(u, VolumeAt(steps, k, u), rows, copies)
    ensures VolumeAt(steps, k + 1, u).ready.Some?
    ensures Shows(VolumeAt(steps, k + 1, u), VolumeAt(steps, k + 1, u).ready.value.scan.id, After(steps[..k]).copies, rows, copies)
  {
    hide Invariant, Shows, ExpectsSource, Legal;
    InvariantHolds(steps, k);
    VerifiedShows(After(steps[..k]), u, rows, copies);
    PromotedShows(VolumeAt(steps, k, u), VolumeAt(steps, k + 1, u), After(steps[..k]).copies, rows, copies);
  }

  // ----------------------------------------------------------------- purging

  /** A purge of retired scan `scan` of volume `u` is the step at `k`. */
  predicate PurgesAt(steps: seq<Step>, k: nat, u: Uuid, scan: Scan) {
    k < |steps| && steps[k].PurgeStep? && steps[k].volume == u && steps[k].scan == scan &&
    u != NIL && ValidScan(scan) && 1 <= steps[k].limit <= 1000
  }

  function Purges(steps: seq<Step>, i: nat, j: nat, u: Uuid, scan: Scan): nat
    requires i <= j <= |steps|
  {
    if i == j then 0 else Purges(steps, i, j - 1, u, scan) + if PurgesAt(steps, j - 1, u, scan) then 1 else 0
  }

  lemma {:induction false} WithinIsSmaller(a: map<Entry, Row>, b: map<Entry, Row>)
    requires Within(a, b)
    ensures |a| <= |b|
  {
    assert a.Keys <= b.Keys;
    SubsetIsSmaller(a.Keys, b.Keys);
  }

  lemma SubsetIsSmaller(a: set<Entry>, b: set<Entry>)
    requires a <= b
    ensures |a| <= |b|
  {
    assert b == a + (b - a);
  }

  predicate RetiredAs(x: Volume, scan: Scan) {
    scan.id in x.manifests && x.manifests[scan.id].scan == scan && x.manifests[scan.id].state == Retired
  }

  lemma PurgeRemovesSome(s: State, u: Uuid, scan: Scan, limit: nat, doomed: set<Entry>)
    requires Invariant(s) && RetiredAs(Vol(s, u), scan) && Possible(s, PurgeStep(u, scan, limit, doomed)) && limit > 0
    ensures var rows := Rows(Vol(s, u), scan.id);
            |Rows(Purged(Vol(s, u), scan, doomed), scan.id)| == if |rows| < limit then 0 else |rows| - limit
  {
    hide Invariant, RowsFit, ProgressInvariant, ManifestFits;
    VolumeKnown(s, u);
    var x := Vol(s, u);
    var rows := Rows(x, scan.id);
    assert (rows - doomed).Keys == rows.Keys - doomed;
    assert rows.Keys == doomed + (rows.Keys - doomed);
  }

  /** Repeated purging ends: whatever else happens in between, as many purges as
      the retired scan has rows leave it empty, and it stays empty. */
  lemma {:induction false} PurgingEnds(steps: seq<Step>, i: nat, j: nat, u: Uuid, scan: Scan)
    requires Legal(steps) && i <= j <= |steps| && RetiredAs(VolumeAt(steps, i, u), scan)
    ensures RetiredAs(VolumeAt(steps, j, u), scan)
    ensures var left := |Rows(VolumeAt(steps, j, u), scan.id)|;
            left == 0 || left + Purges(steps, i, j, u, scan) <= |Rows(VolumeAt(steps, i, u), scan.id)|
    decreases j
  {
    hide Legal, VolumeAt, RetiredAs, PurgesAt, Rows;
    if i < j {
      PurgingEnds(steps, i, j - 1, u, scan);
      PurgeStepCounts(steps, j - 1, u, scan);
    }
  }

  lemma PurgeStepCounts(steps: seq<Step>, k: nat, u: Uuid, scan: Scan)
    requires Legal(steps) && k < |steps| && RetiredAs(VolumeAt(steps, k, u), scan)
    ensures RetiredAs(VolumeAt(steps, k + 1, u), scan)
    ensures var left := |Rows(VolumeAt(steps, k + 1, u), scan.id)|;
            left == 0 || left + (if PurgesAt(steps, k, u, scan) then 1 else 0) <= |Rows(VolumeAt(steps, k, u), scan.id)|
  {
    hide Invariant, VolumeInvariant, Newest, Purged, Possible, Promoted;
    RunAdvances(steps, k, u);
    var x, y := VolumeAt(steps, k, u), VolumeAt(steps, k + 1, u);
    assert ScanLives(x, y, scan.id);
    WithinIsSmaller(Rows(y, scan.id), Rows(x, scan.id));
    if PurgesAt(steps, k, u, scan) {
      InvariantHolds(steps, k);
      OneMore(steps, k);
      assert LegalAt(steps, k);
      PurgeRemovesSome(After(steps[..k]), u, scan, steps[k].limit, steps[k].doomed);
    }
  }
}
