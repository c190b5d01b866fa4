/** A small run: an import is published once, and its retry is answered. It shows
    that the run theorems speak about runs that exist. */
module CatalogExample {
  import opened Outcomes
  import opened ByteStrings
  import opened Records
  import opened Receipts
  import opened Volumes
  import opened Verification
  import opened CatalogInvariant
  import opened Namespaces
  import opened Catalog
  import opened CatalogRuns
  import opened CatalogHistory
  import Scans

  const SERIAL: Bytes := [65]

  const RECEIPT := Receipt(1, NIL, [97], 4, None, 6, 1, 5, SERIAL, None, 1, 2, 1, 3, 1, 0, Unknown, None)

  const BEGIN := Call(SERIAL, 1, 2, Scan(1, 3), Begin)

  const IMPORT := PublishStep(RECEIPT, Import, None, PublishAnswers(true, 5, true, true, true))

  const STEPS := [
    OwnerStep(SERIAL, 1),
    SpaceStep(1, NsBuilding, false),
    ScanStep(BEGIN, Scans.Answers(true, true, true)),
    RegisterStep(RECEIPT, RegisterAnswers(true, 5, true)),
    IMPORT,
    IMPORT]

  /** The state in which the import is published. */
  const PREPARED := State(
    Scans.State(map[SERIAL := 1], map[], map[], map[2 := Begun(UNKNOWN_VOLUME, BEGIN, false)]),
    map[1 := NewSpace(NsBuilding).(intents := map[OpOf(RECEIPT) := RECEIPT])],
    map[])

  lemma ReceiptIsValid()
    ensures ValidReceipt(RECEIPT) && ValidSerial(SERIAL) && Scans.ValidCall(BEGIN)
  {
    hide Fingerprint;
  }

  lemma FirstSteps()
    ensures After(STEPS[..3]) == PREPARED.(spaces := map[1 := NewSpace(NsBuilding)])
  {
    hide Fingerprint, ValidSerial;
    ReceiptIsValid();
    assert After([]) == EMPTY;
    assert STEPS[..1] == [OwnerStep(SERIAL, 1)];
    OneMore(STEPS, 0);
    OneMore(STEPS, 1);
    OneMore(STEPS, 2);
  }

  lemma Registered()
    ensures After(STEPS[..4]) == PREPARED
  {
    hide Fingerprint, ValidReceipt, After;
    ReceiptIsValid();
    FirstSteps();
    OneMore(STEPS, 3);
  }

  lemma StepsAreLegal()
    ensures Legal(STEPS)
  {
    forall i: nat | i < |STEPS|
      ensures LegalAt(STEPS, i)
    {
    }
  }

  /** The first publish applies version 1; the second is told so and changes nothing. */
  lemma PublishedOnceThenAnswered()
    ensures Legal(STEPS) && PublishedAt(STEPS, 4, 1)
    ensures AnsweredAt(STEPS, 5, Applied(Fingerprint(RECEIPT), 1))
  {
    hide Fingerprint, ValidReceipt, After, Legal, AnsweredAt, PublishVerdict;
    StepsAreLegal();
    Registered();
    ImportIsPublished();
    AppliedAtMostOnce(STEPS, 4, 5, 1);
  }

  // --------------------------------------------------- the whole life of a scan

  const ENTRY := Entry(1, 4, 5)

  const ROW := Row(1, Fingerprint(RECEIPT))

  /** What the source's index says the scan must hold. */
  const EXPECTED := Summary(1, Link(Seed(2, Scan(1, 3)), EntryKey(ENTRY), Fingerprint(RECEIPT), EncodeCopy(CopyOf(RECEIPT, 1))))

  const LIFE := STEPS[..5] + [
    FreezeStep(BEGIN, EXPECTED, true),
    VerifyStep(BEGIN, 1, {ENTRY}, Evidence(false, false, false, false)),
    ScanStep(BEGIN.(action := MakeReady), Scans.Answers(true, true, true))]

  /** The scanned volume in each state of the scan. */
  function ScanVolume(state: ScanState, progress: map<Uuid, Progress>): Volume {
    Volume(None, Some(Target(BEGIN)), map[3 := Mark(BEGIN, state)], false, progress, map[3 := map[ENTRY := ROW]])
  }

  function InState(x: Volume): State {
    PublishEffect(PREPARED, RECEIPT, None, 1).(scans := Scans.State(map[SERIAL := 1], map[], map[], map[2 := x]))
  }

  const FROZEN := map[3 := Progress(EXPECTED, Start(2, Scan(1, 3)), None)]

  const FOLDED := map[3 := Progress(EXPECTED, EXPECTED, Some(ENTRY))]

  lemma ImportedRow()
    ensures PublishEffect(PREPARED, RECEIPT, None, 1) == InState(ScanVolume(Building, map[]))
  {
    hide Fingerprint, EncodeCopy, EntryKey, PublishedSpace;
    assert Vol(PREPARED, 2) == Begun(UNKNOWN_VOLUME, BEGIN, false);
    assert WithRow(Begun(UNKNOWN_VOLUME, BEGIN, false), 3, ENTRY, ROW) == ScanVolume(Building, map[]);
  }

  lemma ImportIsPublished()
    ensures PublishVerdict(PREPARED, RECEIPT, Import, None, PublishAnswers(true, 5, true, true, true)) == Ok(Published(1))
  {
    hide Fingerprint, ValidReceipt;
    ReceiptIsValid();
  }

  lemma Imported()
    ensures After(LIFE[..5]) == InState(ScanVolume(Building, map[]))
  {
    hide Fingerprint, EncodeCopy, EntryKey, ValidReceipt, After, PublishEffect, ScanVolume, InState, PublishVerdict;
    Registered();
    OneMore(STEPS, 4);
    ImportIsPublished();
    assert LIFE[..5] == STEPS[..5];
    ImportedRow();
  }

  lemma OneVolumeChanges(x: Volume, y: Volume)
    ensures Vol(InState(x), 2) == x && WithVol(InState(x), 2, y) == InState(y)
    ensures Lookup(InState(x).scans.owners, SERIAL) == Some(1) && ENTRY in InState(x).copies &&
            InState(x).copies[ENTRY] == CopyOf(RECEIPT, 1)
  {
    hide Fingerprint, EncodeCopy, EntryKey, PublishedSpace;
  }

  lemma FreezesTheScan()
    ensures Freeze(ScanVolume(Building, map[]), BEGIN, EXPECTED, true) == ScanVolume(Verifying, FROZEN)
  {
    hide Fingerprint, EncodeCopy, EntryKey;
  }

  lemma Frozen()
    ensures After(LIFE[..6]) == InState(ScanVolume(Verifying, FROZEN))
  {
    hide Fingerprint, EncodeCopy, EntryKey, ValidReceipt, ValidSerial, After, Freeze, InState, ScanVolume;
    ReceiptIsValid();
    Imported();
    OneMore(LIFE, 5);
    FreezesTheScan();
    OneVolumeChanges(ScanVolume(Building, map[]), ScanVolume(Verifying, FROZEN));
  }

  lemma OneEntryFolds(rows: map<Entry, Row>, copies: map<Entry, PhysicalCopy>, sum: Summary)
    requires ENTRY in rows && ENTRY in copies
    ensures Greatest({ENTRY}) == ENTRY && FoldAll(sum, {ENTRY}, rows, copies) == Fold(sum, ENTRY, rows[ENTRY], copies[ENTRY])
  {
    hide Before, EncodeCopy, EntryKey;
    assert {ENTRY} - {ENTRY} == {};
  }

  lemma OnePage(rows: map<Entry, Row>)
    requires rows == map[ENTRY := ROW]
    ensures Remaining(rows, None) == {ENTRY} && IsPage({ENTRY}, 1, {ENTRY})
  {
    hide Before, Fingerprint, EntryKey;
    assert {ENTRY} - {ENTRY} == {};
  }

  lemma VerifiesOnePage(x: Volume, copies: map<Entry, PhysicalCopy>)
    requires x == ScanVolume(Verifying, FROZEN) && ENTRY in copies && copies[ENTRY] == CopyOf(RECEIPT, 1)
    ensures Verify(x, copies, BEGIN, 1, {ENTRY}, Evidence(false, false, false, false)) == ScanVolume(Verified, FOLDED)
  {
    hide Fingerprint, EncodeCopy, EntryKey, FoldAll, Greatest, Remaining;
    OnePage(Rows(x, 3));
    OneEntryFolds(Rows(x, 3), copies, Start(2, Scan(1, 3)));
  }

  lemma VerifiedNow()
    ensures After(LIFE[..7]) == InState(ScanVolume(Verified, FOLDED))
  {
    hide Fingerprint, EncodeCopy, EntryKey, ValidReceipt, ValidSerial, After, Verify, InState, ScanVolume;
    ReceiptIsValid();
    Frozen();
    OneMore(LIFE, 6);
    var s := After(LIFE[..6]);
    OneVolumeChanges(ScanVolume(Verifying, FROZEN), ScanVolume(Verified, FOLDED));
    VerifiesOnePage(Vol(s, 2), s.copies);
  }

  lemma LifeIsLegal()
    ensures Legal(LIFE)
  {
    hide Fingerprint, EncodeCopy, EntryKey, After, PublishEffect;
    forall i: nat | i < |LIFE|
      ensures LegalAt(LIFE, i)
    {
      if i == 6 {
        Frozen();
        OnePage(Rows(ScanVolume(Verifying, FROZEN), 3));
      }
    }
  }

  lemma PromotedIsReady(x: Volume, y: Volume)
    requires Promoted(x, y)
    ensures y.ready == x.pending
  {
  }

  lemma SwitchIsAnswered()
    ensures var s := InState(ScanVolume(Verified, FOLDED));
            Scans.TransitionOutcome(s.scans, BEGIN.(action := MakeReady), Scans.Answers(true, true, true)) == Ok(NowReady) &&
            Vol(s, 2).pending == Some(Target(BEGIN))
  {
    hide Fingerprint, EncodeCopy, EntryKey, PublishEffect, ValidSerial;
    ReceiptIsValid();
  }

  /** The imported scan is frozen, verified against its source and switched in; what
      readers then see is that source. */
  lemma SwitchedInAfterVerification()
    ensures Legal(LIFE) && Promoted(VolumeAt(LIFE, 7, 2), VolumeAt(LIFE, 8, 2))
    ensures VolumeAt(LIFE, 8, 2).ready == Some(Target(BEGIN))
  {
    hide Fingerprint, EncodeCopy, EntryKey, ValidReceipt, ValidSerial, After, Legal, Invariant, PublishEffect, Verify, Freeze;
    hide Scans.TransitionOutcome, Next, InState, ScanVolume, Promoted;
    LifeIsLegal();
    VerifiedNow();
    InvariantHolds(LIFE, 7);
    OneMore(LIFE, 7);
    var s := After(LIFE[..7]);
    SwitchIsAnswered();
    ReadyMeansPromoted(s, BEGIN.(action := MakeReady), Scans.Answers(true, true, true));
    PromotedIsReady(VolumeAt(LIFE, 7, 2), VolumeAt(LIFE, 8, 2));
  }
}
