/** What scan calls answer and write, told from the volume's records alone
    (src/managed_catalog.rs: `transition_volume`, `require_volume_ready`). */
module ScanAnswers {
  import opened Outcomes
  import opened ByteStrings
  import opened Records
  import opened Volumes
  import Scans

  /** Nothing but the volume's records can stop the call: it is well formed, made under
      the stored owner epoch, the other components agree, and the managed namespace's
      source revision can rise. */
  predicate Admitted(s: Scans.State, c: Call, a: Scans.Answers) {
    && ValidSerial(c.serial) && c.volume != NIL && ValidScan(c.scan) && c.epoch != 0
    && c.serial in s.owners && s.owners[c.serial] == c.epoch && a.serialMatches
    && (c.volume in s.placement ==>
          a.namespaceOpen && s.placement[c.volume] in s.revisions && s.revisions[s.placement[c.volume]] < U64_LIMIT - 1)
  }

  /** The volume is known under another serial. */
  predicate OtherSerial(x: Volume, c: Call) {
    (x.ready.Some? && x.ready.value.serial != c.serial) || (x.pending.Some? && x.pending.value.serial != c.serial)
  }

  /** A newer generation of the volume has been observed. */
  predicate Outdated(x: Volume, c: Call) {
    (x.ready.Some? && x.ready.value.scan.generation > c.scan.generation) ||
    (x.pending.Some? && x.pending.value.scan.generation > c.scan.generation)
  }

  predicate InState(x: Volume, c: Call, states: set<ScanState>) {
    c.scan.id in x.manifests && x.manifests[c.scan.id].scan == c.scan && x.manifests[c.scan.id].serial == c.serial &&
    x.manifests[c.scan.id].state in states
  }

  const IN_PROGRESS := {Building, Verifying, Verified, Rejected}

  /** A scan of the volume is being built or examined. */
  predicate Busy(x: Volume) {
    exists id :: id in x.manifests && x.manifests[id].state in IN_PROGRESS
  }

  /** When each outcome is given, for the calls that depend on the records alone. */
  predicate Fitting(x: Volume, c: Call, sourceReady: bool, outcome: VolumeOutcome) {
    match outcome
    case Reconciling => c.action == Begin && !OtherSerial(x, c) && !Outdated(x, c) && c.scan.id !in x.manifests && !Busy(x)
    case NowReady => c.action == MakeReady && InState(x, c, {Verified}) && sourceReady
    case Cancelled => c.action == Cancel && InState(x, c, IN_PROGRESS)
    case AlreadyReconciling => c.action == Begin && InState(x, c, {Building})
    case AlreadyReady => c.action != Cancel && InState(x, c, {Ready}) && x.pending.None? && (c.action == MakeReady ==> sourceReady)
    case AlreadyRetired => c.action == Cancel && !Outdated(x, c) && InState(x, c, {Retired})
    case NotVerified =>
      c.action == MakeReady &&
      (InState(x, c, IN_PROGRESS - {Verified}) || (!sourceReady && (InState(x, c, {Verified}) || (InState(x, c, {Ready}) && x.pending.None?))))
    case SerialConflict => OtherSerial(x, c)
    case OlderGeneration => !OtherSerial(x, c) && Outdated(x, c)
    case ScanConflict =>
      !OtherSerial(x, c) && !Outdated(x, c) &&
      ((c.scan.id in x.manifests && x.manifests[c.scan.id].scan != c.scan) ||
       (c.action == Begin &&
        (InState(x, c, IN_PROGRESS - {Building} + {Retired}) || (InState(x, c, {Ready}) && x.pending.Some?) ||
         (c.scan.id !in x.manifests && Busy(x)))))
    case NotReconciling =>
      !OtherSerial(x, c) && !Outdated(x, c) && c.action != Begin &&
      (c.scan.id !in x.manifests || (c.action == MakeReady && InState(x, c, {Retired})) ||
       (InState(x, c, {Ready}) && (c.action == Cancel || x.pending.Some?)))
    case StaleOwner => false
  }

  lemma SerialsAgree(x: Volume, c: Call, id: Uuid)
    requires VolumeInvariant(x) && id in x.manifests
    ensures OtherSerial(x, c) <==> x.manifests[id].serial != c.serial
  {
    assert ManifestFits(x, id, x.manifests[id]);
    assert x.manifests[id].serial in Serials(x);
    assert x.ready.Some? ==> x.ready.value.serial in Serials(x);
    assert x.pending.Some? ==> x.pending.value.serial in Serials(x);
  }

  /** A manifest in progress is the pending one; a Ready one is the ready one. */
  lemma PointersTell(x: Volume, id: Uuid)
    requires VolumeInvariant(x) && id in x.manifests
    ensures x.manifests[id].state in IN_PROGRESS <==>
              x.manifests[id].state != Retired && x.pending == Some(Pointer(x.manifests[id].scan, x.manifests[id].serial))
    ensures x.manifests[id].state == Ready <==> x.ready == Some(Pointer(x.manifests[id].scan, x.manifests[id].serial))
  {
    assert ManifestFits(x, id, x.manifests[id]);
  }

  lemma BusyMeansPending(x: Volume)
    requires VolumeInvariant(x)
    ensures Busy(x) <==> x.pending.Some? && x.manifests[x.pending.value.scan.id].state != Retired
  {
    if Busy(x) {
      var id :| id in x.manifests && x.manifests[id].state in IN_PROGRESS;
      PointersTell(x, id);
    }
    if x.pending.Some? {
      PointersTell(x, x.pending.value.scan.id);
    }
  }

  lemma OneSerial(x: Volume)
    requires VolumeInvariant(x) && x.ready.Some? && x.pending.Some?
    ensures x.ready.value.serial == x.pending.value.serial
  {
    var id := x.ready.value.scan.id;
    assert ManifestFits(x, id, x.manifests[id]);
    assert x.pending.value.serial in Serials(x);
  }

  /** A known manifest is never newer than what was observed. */
  lemma KnownIsCurrent(x: Volume, c: Call)
    requires VolumeInvariant(x) && InState(x, c, IN_PROGRESS + {Ready})
    ensures Outdated(x, c) ==> x.manifests[c.scan.id].state == Ready && x.pending.Some?
  {
    var m := x.manifests[c.scan.id];
    assert ManifestFits(x, c.scan.id, m);
    PointersTell(x, c.scan.id);
  }

  /** What the invariant says about the records one call looks at. */
  predicate Consistent(x: Volume, c: Call) {
    && (x.ready.Some? && x.pending.Some? ==> x.ready.value.serial == x.pending.value.serial)
    && (x.ready.Some? ==>
          Lookup(x.manifests, x.ready.value.scan.id) == Some(Manifest(x.ready.value.scan, x.ready.value.serial, Ready)))
    && (x.pending.Some? ==>
          var p := x.pending.value;
          Lookup(x.manifests, p.scan.id) in {Some(Manifest(p.scan, p.serial, Retired)), Some(Manifest(p.scan, p.serial, Building)),
            Some(Manifest(p.scan, p.serial, Verifying)), Some(Manifest(p.scan, p.serial, Verified)), Some(Manifest(p.scan, p.serial, Rejected))})
    && (Busy(x) <==> x.pending.Some? && x.manifests[x.pending.value.scan.id].state != Retired)
    && (c.scan.id in x.manifests ==>
          var m := x.manifests[c.scan.id];
          m.scan.id == c.scan.id && (OtherSerial(x, c) <==> m.serial != c.serial) &&
          (m.state in IN_PROGRESS <==> m.state != Retired && x.pending == Some(Pointer(m.scan, m.serial))) &&
          (m.state == Ready <==> x.ready == Some(Pointer(m.scan, m.serial))) &&
          (m.state in IN_PROGRESS + {Ready} && m.scan == c.scan && m.serial == c.serial && Outdated(x, c) ==>
             m.state == Ready && x.pending.Some?))
  }

  lemma RecordsConsistent(x: Volume, c: Call)
    requires VolumeInvariant(x)
    ensures Consistent(x, c)
  {
    BusyMeansPending(x);
    if x.ready.Some? && x.pending.Some? { OneSerial(x); }
    if c.scan.id in x.manifests {
      PointersTell(x, c.scan.id);
      assert ManifestFits(x, c.scan.id, x.manifests[c.scan.id]);
      if InState(x, c, IN_PROGRESS + {Ready}) { KnownIsCurrent(x, c); }
      SerialsAgree(x, c, c.scan.id);
    }
  }

  lemma BeginFits(x: Volume, c: Call, sourceReady: bool, outcome: VolumeOutcome)
    requires Consistent(x, c) && c.action == Begin
    ensures Verdict(x, c, sourceReady) == Ok(outcome) <==> Fitting(x, c, sourceReady, outcome)
  {
    hide Busy, ReadyVerdict, CancelVerdict;
  }

  lemma ReadyFits(x: Volume, c: Call, sourceReady: bool, outcome: VolumeOutcome)
    requires Consistent(x, c) && c.action == MakeReady
    ensures Verdict(x, c, sourceReady) == Ok(outcome) <==> Fitting(x, c, sourceReady, outcome)
  {
    hide Busy, BeginVerdict, CancelVerdict;
  }

  lemma CancelFits(x: Volume, c: Call, sourceReady: bool, outcome: VolumeOutcome)
    requires Consistent(x, c) && c.action == Cancel
    ensures Verdict(x, c, sourceReady) == Ok(outcome) <==> Fitting(x, c, sourceReady, outcome)
  {
    hide Busy, BeginVerdict, ReadyVerdict;
  }

  /** Every outcome of an admitted call is given exactly when the records call for it. */
  lemma OutcomeFits(s: Scans.State, c: Call, a: Scans.Answers, outcome: VolumeOutcome)
    requires Scans.Invariant(s) && Admitted(s, c, a)
    ensures Scans.TransitionOutcome(s, c, a) == Ok(outcome) <==> Fitting(Scans.At(s, c.volume), c, a.sourceReady, outcome)
  {
    hide Verdict, Fitting, ValidSerial, VolumeInvariant;
    var x := Scans.At(s, c.volume);
    assert VolumeInvariant(x);
    RecordsConsistent(x, c);
    match c.action
    case Begin => BeginFits(x, c, a.sourceReady, outcome);
    case MakeReady => ReadyFits(x, c, a.sourceReady, outcome);
    case Cancel => CancelFits(x, c, a.sourceReady, outcome);
  }

  /** A call the records do not decide: malformed, under another epoch, under a serial
      control does not know, or in a namespace that takes no scan changes. */
  lemma StoppedBefore(s: Scans.State, c: Call, a: Scans.Answers)
    ensures var told, valid := Scans.TransitionOutcome(s, c, a), ValidSerial(c.serial) && c.volume != NIL && ValidScan(c.scan) && c.epoch != 0;
            (!valid ==> told == Err(Invalid)) &&
            (told == Ok(StaleOwner) <==> valid && !(c.serial in s.owners && s.owners[c.serial] == c.epoch)) &&
            (valid && c.serial in s.owners && s.owners[c.serial] == c.epoch && !a.serialMatches ==> told == Ok(SerialConflict))
  {
    hide ValidSerial;
  }

  // ------------------------------------------------------------------- effects

  function NewState(outcome: VolumeOutcome): ScanState {
    match outcome
    case Reconciling => Building
    case NowReady => Ready
    case _ => Retired
  }

  /** The manifest of scan `id` afterwards: the call's scan gets its new state, a switch
      retires the scan that was ready, every other one stays. */
  function ManifestAfter(x: Volume, c: Call, outcome: VolumeOutcome, id: Uuid): Option<Manifest> {
    if id == c.scan.id then Some(Manifest(c.scan, c.serial, NewState(outcome)))
    else if outcome == NowReady && x.ready.Some? && id == x.ready.value.scan.id
    then Some(Manifest(x.ready.value.scan, x.ready.value.serial, Retired))
    else Lookup(x.manifests, id)
  }

  /** What a begin, a switch or a withdrawal writes, record by record. */
  ghost predicate Written(x: Volume, y: Volume, c: Call, managed: bool, outcome: VolumeOutcome) {
    && y.rows == x.rows && y.progress == x.progress
    && (forall id :: Lookup(y.manifests, id) == ManifestAfter(x, c, outcome, id))
    && match outcome
       case Reconciling => y.ready == x.ready && y.pending == Some(Pointer(c.scan, c.serial)) && (y.hidden <==> x.hidden || managed)
       case NowReady => y.ready == Some(Pointer(c.scan, c.serial)) && y.pending.None? && (y.hidden <==> x.hidden && !managed)
       case Cancelled => y.ready == x.ready && y.pending == x.pending && y.hidden == x.hidden
       case _ => false
  }

  lemma EffectWritten(x: Volume, c: Call, managed: bool, outcome: VolumeOutcome)
    requires outcome in {Reconciling, NowReady, Cancelled}
    ensures Written(x, Effect(x, c, managed, outcome), c, managed, outcome)
  {
  }

  /** The source revision of a managed volume's namespace counts every change. */
  predicate Counted(s: Scans.State, t: Scans.State, volume: Uuid) {
    if volume in s.placement
    then
      s.placement[volume] in s.revisions &&
      var current: U64 := s.revisions[s.placement[volume]];
      current + 1 < U64_LIMIT && t.revisions == s.revisions[s.placement[volume] := current + 1]
    else t.revisions == s.revisions
  }

  /** A begin, a switch or a withdrawal writes exactly these records of one volume and
      counts one source revision; any other outcome writes nothing. */
  lemma OutcomeWritten(s: Scans.State, c: Call, a: Scans.Answers)
    ensures var told, t := Scans.TransitionOutcome(s, c, a), Scans.Transition(s, c, a);
            if told.Ok? && told.value in {Reconciling, NowReady, Cancelled}
            then Written(Scans.At(s, c.volume), Scans.At(t, c.volume), c, c.volume in s.placement, told.value) &&
                 t == s.(volumes := s.volumes[c.volume := Scans.At(t, c.volume)], revisions := t.revisions) && Counted(s, t, c.volume)
            else t == s
  {
    hide Verdict, ValidSerial, Effect, Written, Scans.ValidCall;
    var x, verdict := Scans.At(s, c.volume), Verdict(Scans.At(s, c.volume), c, a.sourceReady);
    if verdict.Ok? && Scans.Changes(verdict.value) {
      EffectWritten(x, c, c.volume in s.placement, verdict.value);
    }
  }

  // ------------------------------------------------------------------- readers

  /** Readers are served exactly while no scan is pending, and then the one Ready scan. */
  lemma ReadersServed(x: Volume, expected: Option<Scan>, sourceReady: bool, scan: Scan)
    requires VolumeInvariant(x)
    ensures RequireReady(x, expected, sourceReady) == Ok(scan) <==>
              x.pending.None? && scan.id in x.manifests && x.manifests[scan.id].scan == scan && x.manifests[scan.id].state == Ready &&
              (expected.Some? ==> expected.value == scan) && sourceReady
    ensures RequireReady(x, expected, sourceReady) in {Err(Incomplete), Ok(if x.ready.Some? then x.ready.value.scan else scan)}
  {
    if scan.id in x.manifests { PointersTell(x, scan.id); }
  }

  /** A cancelled scan does not block the volume: a begin with a fresh scan that is not
      older is admitted. */
  lemma BeginAfterCancel(s: Scans.State, c: Call, a: Scans.Answers, again: Call, b: Scans.Answers)
    requires Scans.Invariant(s) && Scans.TransitionOutcome(s, c, a) == Ok(Cancelled)
    requires again.action == Begin && again.volume == c.volume && again.serial == c.serial && again.scan.generation >= c.scan.generation
    requires again.scan.id != c.scan.id && again.scan.id !in Scans.At(s, c.volume).manifests
    requires Admitted(Scans.Transition(s, c, a), again, b)
    ensures Scans.TransitionOutcome(Scans.Transition(s, c, a), again, b) == Ok(Reconciling)
  {
    hide Scans.Transition, Scans.TransitionOutcome, ValidSerial, VolumeInvariant;
    Scans.TransitionKeepsInvariant(s, c, a);
    OutcomeWritten(s, c, a);
    CancelFrees(s, c, a);
    var t := Scans.Transition(s, c, a);
    assert Lookup(Scans.At(t, c.volume).manifests, again.scan.id) == Lookup(Scans.At(s, c.volume).manifests, again.scan.id);
    OutcomeFits(t, again, b, Reconciling);
  }

  lemma CancelFrees(s: Scans.State, c: Call, a: Scans.Answers)
    requires Scans.Invariant(s) && Scans.TransitionOutcome(s, c, a) == Ok(Cancelled)
    ensures var y := Scans.At(Scans.Transition(s, c, a), c.volume);
            !Busy(y) && !OtherSerial(y, c) && !Outdated(y, c)
  {
    hide ValidSerial, VolumeInvariant, Verdict, Written, Fitting, Busy, Scans.Transition;
    var x := Scans.At(s, c.volume);
    assert VolumeInvariant(x);
    OutcomeWritten(s, c, a);
    RecordsConsistent(x, c);
    OnlyCancelCancels(s, c, a);
    CancelFits(x, c, a.sourceReady, Cancelled);
    WithdrawalFrees(x, Scans.At(Scans.Transition(s, c, a), c.volume), c, a.sourceReady, c.volume in s.placement);
  }

  lemma OnlyCancelCancels(s: Scans.State, c: Call, a: Scans.Answers)
    requires Scans.TransitionOutcome(s, c, a) == Ok(Cancelled)
    ensures c.action == Cancel && Verdict(Scans.At(s, c.volume), c, a.sourceReady) == Ok(Cancelled)
  {
    hide ValidSerial;
  }

  lemma WithdrawalFrees(x: Volume, y: Volume, c: Call, sourceReady: bool, managed: bool)
    requires VolumeInvariant(x) && Fitting(x, c, sourceReady, Cancelled) && Written(x, y, c, managed, Cancelled)
    ensures !Busy(y) && !OtherSerial(y, c) && !Outdated(y, c)
  {
    PointersTell(x, c.scan.id);
    KnownIsCurrent(x, c);
    SerialsAgree(x, c, c.scan.id);
    forall id | id in y.manifests
      ensures y.manifests[id].state !in IN_PROGRESS
    {
      assert Lookup(y.manifests, id) == ManifestAfter(x, c, Cancelled, id);
      if id != c.scan.id { PointersTell(x, id); }
    }
  }
}
