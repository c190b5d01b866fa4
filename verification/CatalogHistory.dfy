/** Requests and owners over whole runs: each operation takes effect at most once
    and every retry is answered from its recorded result, and owner epochs fence
    every write. */
module CatalogHistory {
  import opened Outcomes
  import opened ByteStrings
  import opened Records
  import opened Receipts
  import opened Volumes
  import opened Verification
  import opened Namespaces
  import opened Catalog
  import opened CatalogInvariant
  import opened CatalogRuns
  import Scans

  // ------------------------------------------------------- at most one effect

  predicate OpSpent(s: State, ns: Uuid, o: OpId, result: Terminal) {
    ns in s.spaces && Spent(s.spaces[ns], o, result)
  }

  lemma LinkKeepsSpent(sp: Space, parent: Uuid, name: Bytes, id: Uuid, required: Phase, attributes: Option<Attributes>,
                       a: DirectoryAnswers, o: OpId, result: Terminal)
    requires Spent(sp, o, result)
    ensures Spent(MakeDirectory(sp, parent, name, id, required, attributes, a), o, result)
  {
    hide DirectoryVerdict;
  }

  lemma PublishKeepsSpent(s: State, r: Receipt, mode: Mode, attributes: Option<Attributes>, a: PublishAnswers, ns: Uuid, o: OpId,
                          result: Terminal)
    requires OpSpent(s, ns, o, result)
    ensures OpSpent(Publish(s, r, mode, attributes, a), ns, o, result)
  {
    hide PublishVerdict, ValidReceipt, Fingerprint, WithRow;
    var verdict := PublishVerdict(s, r, mode, attributes, a);
    if verdict.Ok? && verdict.value.Published? {
      PublishFacts(s, r, mode, attributes, a, verdict.value.version);
    }
  }

  /** Nothing revives an operation whose result is recorded or whose epoch expired. */
  lemma StepKeepsSpent(s: State, step: Step, ns: Uuid, o: OpId, result: Terminal)
    requires Invariant(s) && OpSpent(s, ns, o, result)
    ensures OpSpent(Next(s, step), ns, o, result)
  {
    hide Invariant, Spent, RequestsFit, SpaceFits, Freeze, Verify, Purged, Scans.Transition, Scans.AdvanceOwner, Scans.Place, MakeDirectory,
         Register, CancelRequest, Rotate, AdvanceFloor, PurgeExpired, Publish;
    SpaceKnown(s, ns);
    var sp := s.spaces[ns];
    match step
    case DirectoryStep(_, parent, name, id, required, attributes, a) =>
      LinkKeepsSpent(sp, parent, name, id, required, attributes, a, o, result);
    case RegisterStep(r, a) => RegisterKeeps(sp, r, a, o, result);
    case CancelStep(r, held) => CancelRequestKeeps(sp, r, Lookup(s.scans.owners, r.serial), held, o, result);
    case RotateStep(_, epoch, capacity) => RotateKeeps(sp, epoch, capacity, o, result);
    case FloorStep(_, epoch, before, held) => FloorKeeps(sp, epoch, before, held, o, result);
    case ExpireStep(_, ops) => PurgeExpiredKeeps(sp, ops, o, result);
    case PhaseStep(_, phase) => PhaseKeepsSpent(sp, phase, o, result);
    case PublishStep(r, mode, attributes, a) => PublishKeepsSpent(s, r, mode, attributes, a, ns, o, result);
    case _ =>
  }

  lemma PhaseKeepsSpent(sp: Space, phase: Phase, o: OpId, result: Terminal)
    requires Spent(sp, o, result)
    ensures Spent(sp.(phase := phase), o, result)
  {
  }

  /** What every later attempt at a finished operation is told. */
  function RetryAnswer(sp: Space, r: Receipt, result: Terminal): PublishOutcome {
    if sp.phase == NsDiscarded then NotInPhase
    else if r.requestEpoch < sp.window.first then Answered(Expired)
    else Answered(TerminalResult(result, Fingerprint(r)))
  }

  lemma SpentIsAnswered(s: State, r: Receipt, mode: Mode, attributes: Option<Attributes>, a: PublishAnswers, result: Terminal)
    requires Invariant(s) && OpSpent(s, r.ns, OpOf(r), result)
    ensures PublishVerdict(s, r, mode, attributes, a) ==
              if ValidReceipt(r) && a.metadata then Ok(RetryAnswer(s.spaces[r.ns], r, result)) else Err(Invalid)
    ensures Publish(s, r, mode, attributes, a) == s
  {
    hide Invariant, ValidReceipt, Fingerprint, SpaceFits;
    SpaceKnown(s, r.ns);
  }

  lemma {:induction false} SpentForever(steps: seq<Step>, i: nat, j: nat, ns: Uuid, o: OpId, result: Terminal)
    requires Legal(steps) && i <= j <= |steps| && OpSpent(After(steps[..i]), ns, o, result)
    ensures OpSpent(After(steps[..j]), ns, o, result)
    decreases j
  {
    hide Legal, Invariant, Next, OpSpent;
    if i < j {
      SpentForever(steps, i, j - 1, ns, o, result);
      InvariantHolds(steps, j - 1);
      OneMore(steps, j - 1);
      StepKeepsSpent(After(steps[..j - 1]), steps[j - 1], ns, o, result);
    }
  }

  lemma PublishSpends(s: State, r: Receipt, mode: Mode, attributes: Option<Attributes>, a: PublishAnswers, version: U64)
    requires PublishVerdict(s, r, mode, attributes, a) == Ok(Published(version))
    ensures OpSpent(Publish(s, r, mode, attributes, a), r.ns, OpOf(r), Applied(Fingerprint(r), version))
  {
    hide PublishVerdict, ValidReceipt, Fingerprint, WithRow, Naming;
    PublishFacts(s, r, mode, attributes, a, version);
  }

  /** The outcome of the publish at step `k` of a run. */
  ghost predicate PublishedAt(steps: seq<Step>, k: nat, version: U64) {
    k < |steps| && steps[k].PublishStep? &&
    PublishVerdict(After(steps[..k]), steps[k].receipt, steps[k].mode, steps[k].attributes, steps[k].pub) == Ok(Published(version))
  }

  ghost predicate AnsweredAt(steps: seq<Step>, k: nat, result: Terminal) {
    k < |steps| && steps[k].PublishStep? &&
    var s, r := After(steps[..k]), steps[k].receipt;
    r.ns in s.spaces && Next(s, steps[k]) == s &&
    PublishVerdict(s, r, steps[k].mode, steps[k].attributes, steps[k].pub) ==
      if ValidReceipt(r) && steps[k].pub.metadata then Ok(RetryAnswer(s.spaces[r.ns], r, result)) else Err(Invalid)
  }

  predicate SameOperationAs(a: Receipt, b: Receipt) {
    a.ns == b.ns && OpOf(a) == OpOf(b)
  }

  /** An operation takes effect at most once. Every later attempt, in any mode and
      with any content, changes nothing and is answered from the recorded result:
      the same version if it is the same request, a conflict if its content changed,
      Expired once its epoch is below the floor. */
  lemma AppliedAtMostOnce(steps: seq<Step>, i: nat, j: nat, version: U64)
    requires Legal(steps) && i < j < |steps| && PublishedAt(steps, i, version)
    requires steps[j].PublishStep? && SameOperationAs(steps[i].receipt, steps[j].receipt)
    ensures AnsweredAt(steps, j, Applied(Fingerprint(steps[i].receipt), version))
  {
    hide Legal, Invariant, OpSpent, PublishVerdict, Publish, Fingerprint, ValidReceipt, After, RetryAnswer;
    var r := steps[i].receipt;
    var result := Applied(Fingerprint(r), version);
    PublishSpends(After(steps[..i]), r, steps[i].mode, steps[i].attributes, steps[i].pub, version);
    OneMore(steps, i);
    SpentForever(steps, i + 1, j, r.ns, OpOf(r), result);
    RetryIsAnswered(steps, j, result);
  }

  /** What the publish at step `k` is told about an operation applied as `version`. */
  ghost predicate ToldAt(steps: seq<Step>, k: nat, version: U64, same: bool) {
    k < |steps| && steps[k].PublishStep? &&
    var s, r := After(steps[..k]), steps[k].receipt;
    r.ns in s.spaces &&
    PublishVerdict(s, r, steps[k].mode, steps[k].attributes, steps[k].pub) ==
      Ok(if s.spaces[r.ns].phase == NsDiscarded then NotInPhase
         else if r.requestEpoch < s.spaces[r.ns].window.first then Answered(Expired)
         else Answered(if same then AlreadyApplied(version) else RequestConflict))
  }

  /** In terms of the receipts: a well-formed retry that agrees in every field, owner
      epoch aside, is told the original version; with any field changed, a conflict. */
  lemma RetriesToldApart(steps: seq<Step>, i: nat, j: nat, version: U64)
    requires Legal(steps) && i < j < |steps| && PublishedAt(steps, i, version)
    requires steps[j].PublishStep? && SameOperationAs(steps[i].receipt, steps[j].receipt)
    requires ValidReceipt(steps[j].receipt) && steps[j].pub.metadata
    ensures ToldAt(steps, j, version, steps[j].receipt == steps[i].receipt.(ownerEpoch := steps[j].receipt.ownerEpoch))
  {
    hide Legal, Invariant, OpSpent, PublishVerdict, Publish, Fingerprint, ValidReceipt, After;
    AppliedAtMostOnce(steps, i, j, version);
    PublishFacts(After(steps[..i]), steps[i].receipt, steps[i].mode, steps[i].attributes, steps[i].pub, version);
    FingerprintIsInjective(steps[i].receipt, steps[j].receipt);
  }

  lemma RetryIsAnswered(steps: seq<Step>, j: nat, result: Terminal)
    requires Legal(steps) && j < |steps| && steps[j].PublishStep?
    requires OpSpent(After(steps[..j]), steps[j].receipt.ns, OpOf(steps[j].receipt), result)
    ensures AnsweredAt(steps, j, result)
  {
    hide Legal, Invariant, PublishVerdict, Publish, Fingerprint, ValidReceipt, After, RetryAnswer, Spent;
    InvariantHolds(steps, j);
    SpentIsAnswered(After(steps[..j]), steps[j].receipt, steps[j].mode, steps[j].attributes, steps[j].pub, result);
  }

  /** A cancelled operation never takes effect afterwards. */
  lemma CancelledNeverApplies(steps: seq<Step>, i: nat, j: nat)
    requires Legal(steps) && i < j < |steps| && steps[i].CancelStep? && steps[i].receipt.ns in After(steps[..i]).spaces
    requires var s, r := After(steps[..i]), steps[i].receipt;
             CancelRequestVerdict(s.spaces[r.ns], r, Lookup(s.scans.owners, r.serial), steps[i].permitHeld) == Ok(RequestCancelled)
    requires steps[j].PublishStep? && SameOperationAs(steps[i].receipt, steps[j].receipt)
    ensures AnsweredAt(steps, j, Dropped(Fingerprint(steps[i].receipt)))
  {
    hide Legal, Invariant, OpSpent, Fingerprint, ValidReceipt, After, AnsweredAt;
    var r := steps[i].receipt;
    InvariantHolds(steps, i);
    OneMore(steps, i);
    CancelSpends(After(steps[..i]), r, steps[i].permitHeld);
    SpentForever(steps, i + 1, j, r.ns, OpOf(r), Dropped(Fingerprint(r)));
    RetryIsAnswered(steps, j, Dropped(Fingerprint(r)));
  }

  lemma CancelSpends(s: State, r: Receipt, held: bool)
    requires r.ns in s.spaces
    requires CancelRequestVerdict(s.spaces[r.ns], r, Lookup(s.scans.owners, r.serial), held) == Ok(RequestCancelled)
    ensures OpSpent(Next(s, CancelStep(r, held)), r.ns, OpOf(r), Dropped(Fingerprint(r)))
  {
    hide Fingerprint, ValidReceipt;
  }

  // ------------------------------------------------------------------ fencing

  /** The serial and owner epoch a step acts under. */
  function Fenced(step: Step): Option<(Bytes, U64)> {
    match step
    case PlaceStep(_, _, serial, epoch, _) => Some((serial, epoch))
    case ScanStep(c, _) => Some((c.serial, c.epoch))
    case FreezeStep(c, _, _) => Some((c.serial, c.epoch))
    case VerifyStep(c, _, _, _) => Some((c.serial, c.epoch))
    case CancelStep(r, _) => Some((r.serial, r.ownerEpoch))
    case PublishStep(r, _, _, _) => Some((r.serial, r.ownerEpoch))
    case _ => None
  }

  /** A fenced step changes the store only under the stored owner epoch. */
  lemma OnlyTheOwnerWrites(s: State, step: Step)
    requires Fenced(step).Some? && Next(s, step) != s
    ensures Lookup(s.scans.owners, Fenced(step).value.0) == Some(Fenced(step).value.1)
  {
    hide Scans.Transition, Freeze, Verify, PublishVerdict, PublishEffect;
    match step
    case ScanStep(c, a) => Scans.TransitionMovesOne(s.scans, c, a);
    case PublishStep(r, mode, attributes, a) =>
      var verdict := PublishVerdict(s, r, mode, attributes, a);
      if verdict.Ok? && verdict.value.Published? {
        PublishFacts(s, r, mode, attributes, a, verdict.value.version);
      }
    case _ =>
  }

  predicate EpochsRise(s: State, t: State) {
    forall o :: o in s.scans.owners ==> o in t.scans.owners && s.scans.owners[o] <= t.scans.owners[o]
  }

  lemma StepRaisesEpochs(s: State, step: Step)
    ensures EpochsRise(s, Next(s, step))
  {
    hide Scans.Transition, Scans.AdvanceOwner, Freeze, Verify, Purged, PublishVerdict, PublishedSpace, Fingerprint, MakeDirectory;
    match step
    case OwnerStep(serial, epoch) => Scans.AdvanceRaisesEpoch(s.scans, serial, epoch);
    case ScanStep(c, a) => Scans.TransitionMovesOne(s.scans, c, a);
    case _ =>
  }

  lemma {:induction false} EpochsOnlyRise(steps: seq<Step>, i: nat, j: nat)
    requires i <= j <= |steps|
    ensures EpochsRise(After(steps[..i]), After(steps[..j]))
    decreases j
  {
    hide Next;
    if i < j {
      EpochsOnlyRise(steps, i, j - 1);
      OneMore(steps, j - 1);
      StepRaisesEpochs(After(steps[..j - 1]), steps[j - 1]);
    }
  }

  ghost predicate WritesAt(steps: seq<Step>, k: nat, serial: Bytes, epoch: U64) {
    k < |steps| && Fenced(steps[k]) == Some((serial, epoch)) && Next(After(steps[..k]), steps[k]) != After(steps[..k])
  }

  /** Once a newer owner has taken over a serial, an older one never changes the
      store again: the epochs of effective writes under one serial never go down. */
  lemma WritersNeverGoBack(steps: seq<Step>, i: nat, j: nat, serial: Bytes, before: U64, after: U64)
    requires i <= j && WritesAt(steps, i, serial, before) && WritesAt(steps, j, serial, after)
    ensures before <= after
  {
    hide Next;
    OnlyTheOwnerWrites(After(steps[..i]), steps[i]);
    OnlyTheOwnerWrites(After(steps[..j]), steps[j]);
    EpochsOnlyRise(steps, i, j);
  }
}
