/** Freezing and page-wise verification of a scan (src/managed_catalog/verification.rs:
    `freeze_volume_scan`, `verify_volume_scan_page`). Rows are folded in key order
    into a hash chain, a bounded page per transaction; a scan ends Verified exactly
    when the chain over its whole frozen row set equals the independent expectation. */
module Verification {
  import opened Outcomes
  import opened ByteStrings
  import opened Keys
  import opened Records
  import opened Receipts
  import opened Volumes

  // ------------------------------------------------------------ entry order

  function EntryKey(e: Entry): Bytes {
    Id(e.ns) + (Id(e.file) + Id(e.copy))
  }

  /** Store order of the rows of one scan. */
  predicate Before(a: Entry, b: Entry) {
    Less(EntryKey(a), EntryKey(b))
  }

  lemma EntryKeyInjective(a: Entry, b: Entry)
    requires EntryKey(a) == EntryKey(b)
    ensures a == b
  {
    IdSplits(a.ns, b.ns, Id(a.file) + Id(a.copy), Id(b.file) + Id(b.copy));
    TwoIds(a.file, b.file, a.copy, b.copy);
  }

  lemma BeforeIsStrict(a: Entry, b: Entry)
    ensures !Before(a, a)
    ensures Before(a, b) ==> !Before(b, a)
  {
    LessIrreflexive(EntryKey(a));
    if Before(a, b) {
      LessAsymmetric(EntryKey(a), EntryKey(b));
    }
  }

  lemma BeforeIsTransitive(a: Entry, b: Entry, c: Entry)
    requires Before(a, b) && Before(b, c)
    ensures Before(a, c)
  {
    LessTransitive(EntryKey(a), EntryKey(b), EntryKey(c));
  }

  lemma BeforeIsTotal(a: Entry, b: Entry)
    ensures a == b || Before(a, b) || Before(b, a)
  {
    LessTotal(EntryKey(a), EntryKey(b));
    if EntryKey(a) == EntryKey(b) {
      EntryKeyInjective(a, b);
    }
  }

  predicate IsLeast(s: set<Entry>, m: Entry) {
    m in s && forall e :: e in s ==> e == m || Before(m, e)
  }

  lemma {:induction false} LeastExists(s: set<Entry>)
    requires s != {}
    ensures exists m :: IsLeast(s, m)
    decreases |s|
  {
    hide Before;
    var x :| x in s;
    if s == {x} {
      assert IsLeast(s, x);
    } else {
      var rest := s - {x};
      LeastExists(rest);
      var m :| IsLeast(rest, m);
      BeforeIsTotal(x, m);
      if Before(x, m) {
        forall e | e in s
          ensures e == x || Before(x, e)
        {
          if e != x && e != m {
            BeforeIsTransitive(x, m, e);
          }
        }
        assert IsLeast(s, x);
      } else {
        assert IsLeast(s, m);
      }
    }
  }

  ghost predicate IsGreatest(s: set<Entry>, m: Entry) {
    m in s && forall e :: e in s ==> e == m || Before(e, m)
  }

  lemma {:induction false} GreatestExists(s: set<Entry>)
    requires s != {}
    ensures exists m :: IsGreatest(s, m)
    decreases |s|
  {
    hide Before;
    var x :| x in s;
    if s == {x} {
      assert IsGreatest(s, x);
    } else {
      var rest := s - {x};
      GreatestExists(rest);
      var m :| IsGreatest(rest, m);
      BeforeIsTotal(x, m);
      if Before(m, x) {
        forall e | e in s
          ensures e == x || Before(e, x)
        {
          if e != x && e != m {
            BeforeIsTransitive(e, m, x);
          }
        }
        assert IsGreatest(s, x);
      } else {
        assert IsGreatest(s, m);
      }
    }
  }

  ghost function Greatest(s: set<Entry>): (m: Entry)
    requires s != {}
    ensures IsGreatest(s, m)
  {
    GreatestExists(s);
    var m :| IsGreatest(s, m);
    m
  }

  lemma GreatestIsUnique(s: set<Entry>, a: Entry, b: Entry)
    requires IsGreatest(s, a) && IsGreatest(s, b)
    ensures a == b
  {
    if a != b {
      BeforeIsStrict(a, b);
    }
  }

  // --------------------------------------------------------------- the chain

  function Start(volume: Uuid, scan: Scan): Summary {
    Summary(0, Seed(volume, scan))
  }

  /** One row folded into the running summary. */
  function Fold(sum: Summary, e: Entry, row: Row, copy: PhysicalCopy): Summary {
    Summary(sum.entries + 1, Link(sum.digest, EntryKey(e), row.fingerprint, EncodeCopy(copy)))
  }

  /** The summary of a set of rows, folded in store order. */
  ghost function FoldAll(sum: Summary, s: set<Entry>, rows: map<Entry, Row>, copies: map<Entry, PhysicalCopy>): Summary
    requires s <= rows.Keys && s <= copies.Keys
    decreases |s|
  {
    if s == {} then sum
    else
      var m := Greatest(s);
      Fold(FoldAll(sum, s - {m}, rows, copies), m, rows[m], copies[m])
  }

  /** Adding an entry above all others folds it last. */
  lemma FoldLast(sum: Summary, s: set<Entry>, e: Entry, rows: map<Entry, Row>, copies: map<Entry, PhysicalCopy>)
    requires s + {e} <= rows.Keys && s + {e} <= copies.Keys
    requires forall a :: a in s ==> Before(a, e)
    ensures FoldAll(sum, s + {e}, rows, copies) == Fold(FoldAll(sum, s, rows, copies), e, rows[e], copies[e])
  {
    hide Before;
    assert IsGreatest(s + {e}, e);
    GreatestIsUnique(s + {e}, e, Greatest(s + {e}));
    if e in s {
      BeforeIsStrict(e, e);
    }
    assert (s + {e}) - {e} == s;
  }

  /** The fold depends only on the rows and copies it visits. */
  lemma {:induction false} FoldFrame(sum: Summary, s: set<Entry>, rows: map<Entry, Row>, copies: map<Entry, PhysicalCopy>, more: map<Entry, PhysicalCopy>)
    requires s <= rows.Keys && s <= copies.Keys && s <= more.Keys
    requires forall e :: e in s ==> more[e] == copies[e]
    ensures FoldAll(sum, s, rows, copies) == FoldAll(sum, s, rows, more)
    decreases |s|
  {
    if s != {} {
      FoldFrame(sum, s - {Greatest(s)}, rows, copies, more);
    }
  }

  lemma {:induction false} FoldCounts(sum: Summary, s: set<Entry>, rows: map<Entry, Row>, copies: map<Entry, PhysicalCopy>)
    requires s <= rows.Keys && s <= copies.Keys
    ensures FoldAll(sum, s, rows, copies).entries == sum.entries + |s|
    decreases |s|
  {
    if s != {} {
      FoldCounts(sum, s - {Greatest(s)}, rows, copies);
    }
  }

  /** The chain determines the rows: equal summaries mean the same entries with
      the same fingerprints and the same copies. */
  lemma {:induction false} FoldIsInjective(sum: Summary, a: set<Entry>, rowsA: map<Entry, Row>, copiesA: map<Entry, PhysicalCopy>,
                                           b: set<Entry>, rowsB: map<Entry, Row>, copiesB: map<Entry, PhysicalCopy>)
    requires a <= rowsA.Keys && a <= copiesA.Keys && b <= rowsB.Keys && b <= copiesB.Keys
    requires FoldAll(sum, a, rowsA, copiesA) == FoldAll(sum, b, rowsB, copiesB)
    ensures a == b
    ensures forall e :: e in a ==> rowsA[e].fingerprint == rowsB[e].fingerprint && copiesA[e] == copiesB[e]
    decreases |a|
  {
    FoldCounts(sum, a, rowsA, copiesA);
    FoldCounts(sum, b, rowsB, copiesB);
    if a != {} {
      var x, y := Greatest(a), Greatest(b);
      EntryKeyInjective(x, y);
      CopyEncodingIsInjective(copiesA[x], copiesB[y]);
      FoldIsInjective(sum, a - {x}, rowsA, copiesA, b - {y}, rowsB, copiesB);
      assert (a - {x}) + {x} == a && (b - {y}) + {y} == b;
    }
  }

  /** Folding a lower part and then an upper part folds the whole. */
  lemma {:induction false} FoldSplits(sum: Summary, low: set<Entry>, high: set<Entry>, rows: map<Entry, Row>, copies: map<Entry, PhysicalCopy>)
    requires low + high <= rows.Keys && low + high <= copies.Keys
    requires forall a, b :: a in low && b in high ==> Before(a, b)
    ensures FoldAll(FoldAll(sum, low, rows, copies), high, rows, copies) == FoldAll(sum, low + high, rows, copies)
    decreases |high|
  {
    hide Before;
    if high == {} {
      assert low + high == low;
    } else {
      var m := Greatest(high);
      FoldSplits(sum, low, high - {m}, rows, copies);
      assert low + (high - {m}) + {m} == low + high;
      FoldLast(sum, low + (high - {m}), m, rows, copies);
    }
  }

  // ------------------------------------------------------- freeze and verify

  datatype VerificationOutcome =
    | Frozen | Advanced(actual: Summary) | Matched(actual: Summary) | Mismatch(expected: Summary, actual: Summary)
    | OwnerStale | NotVerifying | SourceMissing | CacheRequired | ExpectationConflict

  function Finished(p: Progress, state: ScanState): VerificationOutcome {
    if state == Verified then Matched(p.actual) else Mismatch(p.expected, p.actual)
  }

  /** The state of the pending scan the call names; anything else stops the call. */
  function PendingState(x: Volume, c: Call): Result<Option<ScanState>> {
    if x.pending != Some(Target(c)) then Ok(None)
    else if c.scan.id !in x.manifests || x.manifests[c.scan.id] != Mark(c, x.manifests[c.scan.id].state) then Err(Corrupt)
    else Ok(Some(x.manifests[c.scan.id].state))
  }

  predicate Examined(state: ScanState) {
    state == Verifying || state == Verified || state == Rejected
  }

  /** `freeze_volume_scan`, behind the owner check. */
  function FreezeVerdict(x: Volume, c: Call, expected: Summary, sourceReady: bool): Result<VerificationOutcome> {
    match PendingState(x, c)
    case Err(error) => Err(error)
    case Ok(None) => Ok(NotVerifying)
    case Ok(Some(state)) =>
      if state == Building then Ok(if sourceReady then Frozen else SourceMissing)
      else if !Examined(state) then Ok(NotVerifying)
      else if c.scan.id !in x.progress then Err(Corrupt)
      else if x.progress[c.scan.id].expected != expected then Ok(ExpectationConflict)
      else Ok(if state == Verifying then Frozen else Finished(x.progress[c.scan.id], state))
  }

  function Freeze(x: Volume, c: Call, expected: Summary, sourceReady: bool): Volume {
    if FreezeVerdict(x, c, expected, sourceReady) == Ok(Frozen) && PendingState(x, c) == Ok(Some(Building)) then
      x.(progress := x.progress[c.scan.id := Progress(expected, Start(c.volume, c.scan), None)],
         manifests := x.manifests[c.scan.id := Mark(c, Verifying)])
    else x
  }

  /** Rows of the scan the cursor has not passed yet. */
  function Remaining(rows: map<Entry, Row>, cursor: Option<Entry>): set<Entry> {
    set e | e in rows.Keys && (cursor.None? || Before(cursor.value, e))
  }

  /** The first `limit` entries of what remains. */
  ghost predicate IsPage(rest: set<Entry>, limit: nat, page: set<Entry>) {
    page <= rest && |page| == (if |rest| < limit then |rest| else limit) &&
    forall a, b :: a in page && b in rest - page ==> Before(a, b)
  }

  /** Answers of other components: managed volumes need index evidence and a
      cache built from it, and every copy must agree with that cache. */
  datatype Evidence = Evidence(managed: bool, found: bool, cache: bool, cacheAgrees: bool)

  /** A row's copy record exists and describes this scan and version. */
  predicate RowHolds(e: Entry, row: Row, copies: map<Entry, PhysicalCopy>, c: Call) {
    row.version != 0 && e in copies && copies[e].version == row.version && copies[e].volume == c.volume &&
    copies[e].generation == c.scan.generation && copies[e].scanId == c.scan.id
  }

  ghost predicate PageHolds(page: set<Entry>, rows: map<Entry, Row>, copies: map<Entry, PhysicalCopy>, c: Call) {
    page <= rows.Keys && page <= copies.Keys && forall e :: e in page ==> RowHolds(e, rows[e], copies, c)
  }

  /** What stops a verification call before rows are read. */
  function VerifyGate(x: Volume, c: Call, a: Evidence): Option<Result<VerificationOutcome>> {
    match PendingState(x, c)
    case Err(error) => Some(Err(error))
    case Ok(None) => Some(Ok(NotVerifying))
    case Ok(Some(state)) =>
      if !Examined(state) then Some(Ok(NotVerifying))
      else if a.managed && !a.found then Some(Ok(SourceMissing))
      else if a.managed && !a.cache then Some(Ok(CacheRequired))
      else if c.scan.id !in x.progress then Some(Err(Corrupt))
      else if state != Verifying then Some(Ok(Finished(x.progress[c.scan.id], state)))
      else None
  }

  ghost function VerifyVerdict(x: Volume, copies: map<Entry, PhysicalCopy>, c: Call, limit: nat, page: set<Entry>, a: Evidence)
    : Result<VerificationOutcome>
  {
    var gate := VerifyGate(x, c, a);
    if gate.Some? then gate.value
    else
      var rows, p := Rows(x, c.scan.id), x.progress[c.scan.id];
      if !PageHolds(page, rows, copies, c) || (a.managed && !a.cacheAgrees) ||
         p.actual.entries + |page| >= U64_LIMIT then Err(Corrupt)
      else
        var actual := FoldAll(p.actual, page, rows, copies);
        if |Remaining(rows, p.cursor)| > limit then Ok(Advanced(actual))
        else Ok(Finished(p.(actual := actual), if p.expected == actual then Verified else Rejected))
  }

  /** `verify_volume_scan_page`, behind the owner check; `page` is what the read returned. */
  ghost function Verify(x: Volume, copies: map<Entry, PhysicalCopy>, c: Call, limit: nat, page: set<Entry>, a: Evidence): Volume {
    if VerifyGate(x, c, a).Some? || VerifyVerdict(x, copies, c, limit, page, a).Err? then x
    else
      var rows, p := Rows(x, c.scan.id), x.progress[c.scan.id];
      var actual := FoldAll(p.actual, page, rows, copies);
      var cursor := if page == {} then p.cursor else Some(Greatest(page));
      var progress := x.progress[c.scan.id := Progress(p.expected, actual, cursor)];
      if |Remaining(rows, p.cursor)| > limit then x.(progress := progress)
      else
        x.(progress := progress,
           manifests := x.manifests[c.scan.id := Mark(c, if p.expected == actual then Verified else Rejected)])
  }

  lemma PageGrows(page: set<Entry>, e: Entry, rows: map<Entry, Row>, copies: map<Entry, PhysicalCopy>, c: Call)
    requires e in rows
    ensures PageHolds(page + {e}, rows, copies, c) <==> PageHolds(page, rows, copies, c) && RowHolds(e, rows[e], copies, c)
  {
    if PageHolds(page + {e}, rows, copies, c) {
      assert e in page + {e};
    }
  }

  lemma GreatestOfExtended(page: set<Entry>, e: Entry)
    requires forall a :: a in page ==> Before(a, e)
    ensures e !in page && Greatest(page + {e}) == e
  {
    hide Before;
    if e in page {
      BeforeIsStrict(e, e);
    }
    assert IsGreatest(page + {e}, e);
    GreatestIsUnique(page + {e}, e, Greatest(page + {e}));
  }

  /** The running state of the page loop after the rows in `page`. */
  ghost predicate Folding(sum: Summary, page: set<Entry>, rows: map<Entry, Row>, copies: map<Entry, PhysicalCopy>, c: Call,
                          sound: bool, actual: Summary)
  {
    && (sound <==> PageHolds(page, rows, copies, c) && sum.entries + |page| < U64_LIMIT)
    && (sound ==> page <= rows.Keys && page <= copies.Keys && actual == FoldAll(sum, page, rows, copies) &&
                  actual.entries == sum.entries + |page|)
  }

  lemma FoldingStarts(sum: Summary, rows: map<Entry, Row>, copies: map<Entry, PhysicalCopy>, c: Call)
    ensures Folding(sum, {}, rows, copies, c, sum.entries < U64_LIMIT, sum)
  {
  }

  lemma FoldingGoesOn(sum: Summary, page: set<Entry>, e: Entry, rows: map<Entry, Row>, copies: map<Entry, PhysicalCopy>, c: Call,
                      sound: bool, actual: Summary)
    requires Folding(sum, page, rows, copies, c, sound, actual) && e in rows && e !in page
    requires forall a :: a in page ==> Before(a, e)
    ensures var good := sound && RowHolds(e, rows[e], copies, c) && actual.entries + 1 < U64_LIMIT;
            (good ==> e in copies) &&
            Folding(sum, page + {e}, rows, copies, c, good, if good then Fold(actual, e, rows[e], copies[e]) else actual)
  {
    hide Before, FoldAll;
    PageGrows(page, e, rows, copies, c);
    assert |page + {e}| == |page| + 1;
    if sound && RowHolds(e, rows[e], copies, c) {
      FoldLast(sum, page, e, rows, copies);
    }
  }

  /** `page` holds the rows taken so far, all below those left. */
  ghost predicate Taken(rest: set<Entry>, page: set<Entry>, left: set<Entry>, last: Option<Entry>) {
    && page + left == rest && page !! left
    && (forall a, b :: a in page && b in left ==> Before(a, b))
    && last == if page == {} then None else Some(Greatest(page))
  }

  lemma TakeNext(rest: set<Entry>, page: set<Entry>, left: set<Entry>, last: Option<Entry>, e: Entry)
    requires Taken(rest, page, left, last) && IsLeast(left, e)
    ensures e in rest && e !in page && (forall a :: a in page ==> Before(a, e)) && Taken(rest, page + {e}, left - {e}, Some(e))
  {
    hide Before;
    GreatestOfExtended(page, e);
  }

  lemma TakenIsPage(rest: set<Entry>, page: set<Entry>, left: set<Entry>, last: Option<Entry>, limit: nat)
    requires Taken(rest, page, left, last) && |page| <= limit && (left == {} || |page| == limit)
    ensures IsPage(rest, limit, page)
  {
    hide Before;
    assert rest - page == left;
    assert |rest| == |page| + |left|;
  }

  /** The page loop of `verify_volume_scan_page`: take the rows in order, check
      each copy, fold it in; one bad row fails the whole transaction. */
  method FoldPage(sum: Summary, rest: set<Entry>, rows: map<Entry, Row>, copies: map<Entry, PhysicalCopy>, c: Call, limit: nat)
    returns (r: Result<Summary>, last: Option<Entry>, ghost page: set<Entry>)
    requires rest <= rows.Keys
    ensures IsPage(rest, limit, page)
    ensures r == if PageHolds(page, rows, copies, c) && sum.entries + |page| < U64_LIMIT
                 then Ok(FoldAll(sum, page, rows, copies)) else Err(Corrupt)
    ensures last == if page == {} then None else Some(Greatest(page))
  {
    hide Before, RowHolds, PageHolds, IsPage, IsGreatest;
    var left, actual, count, sound := rest, sum, 0, sum.entries < U64_LIMIT;
    last, page := None, {};
    FoldingStarts(sum, rows, copies, c);
    while count < limit && left != {}
      invariant Taken(rest, page, left, last) && count == |page| <= limit
      invariant Folding(sum, page, rows, copies, c, sound, actual)
      decreases |left|
    {
      hide Taken, Folding;
      LeastExists(left);
      var e :| IsLeast(left, e);
      TakeNext(rest, page, left, last, e);
      FoldingGoesOn(sum, page, e, rows, copies, c, sound, actual);
      if sound && RowHolds(e, rows[e], copies, c) && actual.entries + 1 < U64_LIMIT {
        actual := Fold(actual, e, rows[e], copies[e]);
      } else {
        sound := false;
      }
      page := page + {e};
      left := left - {e};
      last := Some(e);
      count := count + 1;
    }
    TakenIsPage(rest, page, left, last, limit);
    r := if sound then Ok(actual) else Err(Corrupt);
  }

  // ---------------------------------------------- what verification proves

  /** Rows already folded: those the cursor has reached. */
  function Reached(rows: map<Entry, Row>, cursor: Option<Entry>): set<Entry> {
    rows.Keys - Remaining(rows, cursor)
  }

  /** What the stored progress of a scan means for its row set. */
  ghost predicate ProgressFits(volume: Uuid, m: Manifest, p: Progress, rows: map<Entry, Row>, copies: map<Entry, PhysicalCopy>) {
    rows.Keys <= copies.Keys && p.actual.entries < U64_LIMIT &&
    var start := Start(volume, m.scan);
    (m.state == Verifying ==> p.actual == FoldAll(start, Reached(rows, p.cursor), rows, copies)) &&
    (m.state == Verified ==> p.expected == p.actual == FoldAll(start, rows.Keys, rows, copies)) &&
    (m.state == Rejected ==> p.expected != p.actual == FoldAll(start, rows.Keys, rows, copies))
  }

  ghost predicate ProgressInvariant(volume: Uuid, x: Volume, copies: map<Entry, PhysicalCopy>) {
    forall id :: id in x.manifests && Examined(x.manifests[id].state) ==>
      id in x.progress && ProgressFits(volume, x.manifests[id], x.progress[id], Rows(x, id), copies)
  }

  lemma NothingReached(rows: map<Entry, Row>)
    ensures Reached(rows, None) == {}
  {
    hide Before;
    assert Remaining(rows, None) == rows.Keys;
  }

  /** Moving the cursor to the end of a page adds exactly the page. */
  lemma PageIsReached(rows: map<Entry, Row>, cursor: Option<Entry>, limit: nat, page: set<Entry>)
    requires IsPage(Remaining(rows, cursor), limit, page) && page != {}
    ensures Reached(rows, Some(Greatest(page))) == Reached(rows, cursor) + page
    ensures forall a, b :: a in Reached(rows, cursor) && b in page ==> Before(a, b)
  {
    hide Before;
    var g := Greatest(page);
    var rest := Remaining(rows, cursor);
    forall a, b | a in Reached(rows, cursor) && b in page
      ensures Before(a, b)
    {
      BeforeIsTotal(cursor.value, a);
      if a != cursor.value {
        BeforeIsTransitive(a, cursor.value, b);
      }
    }
    forall e | e in rows.Keys
      ensures e in Reached(rows, Some(g)) <==> e in Reached(rows, cursor) || e in page
    {
      BeforeIsStrict(g, e);
      if e in rest && e !in page {
        assert Before(g, e);
      } else if e in page {
        BeforeIsStrict(e, g);
      } else {
        assert Before(e, g);
        BeforeIsStrict(e, g);
      }
    }
  }

  lemma WholePageEnds(rows: map<Entry, Row>, cursor: Option<Entry>, limit: nat, page: set<Entry>)
    requires IsPage(Remaining(rows, cursor), limit, page) && |Remaining(rows, cursor)| <= limit
    ensures page == Remaining(rows, cursor) && Reached(rows, cursor) + page == rows.Keys
  {
    hide Before;
    var rest := Remaining(rows, cursor);
    assert rest == page + (rest - page) && |rest| == |page| + |rest - page|;
  }

  /** Freezing starts the chain at nothing reached. */
  lemma FreezeKeepsProgress(volume: Uuid, x: Volume, copies: map<Entry, PhysicalCopy>, c: Call, expected: Summary, sourceReady: bool)
    requires c.volume == volume && ProgressInvariant(volume, x, copies)
    requires c.scan.id in x.manifests ==> Rows(x, c.scan.id).Keys <= copies.Keys
    ensures ProgressInvariant(volume, Freeze(x, c, expected, sourceReady), copies)
  {
    var y := Freeze(x, c, expected, sourceReady);
    NothingReached(Rows(x, c.scan.id));
    forall id | id in y.manifests && Examined(y.manifests[id].state)
      ensures id in y.progress && ProgressFits(volume, y.manifests[id], y.progress[id], Rows(y, id), copies)
    {
      assert id != c.scan.id || y == x ==> id in x.manifests && y.manifests[id] == x.manifests[id];
    }
  }

  /** A verification page extends the chain over exactly the rows it passes, and
      the scan ends Verified if and only if the chain over all its rows is the expectation. */
  lemma VerifyKeepsProgress(volume: Uuid, x: Volume, copies: map<Entry, PhysicalCopy>, c: Call, limit: nat, page: set<Entry>, a: Evidence)
    requires c.volume == volume && limit > 0 && ProgressInvariant(volume, x, copies)
    requires c.scan.id in x.progress ==> IsPage(Remaining(Rows(x, c.scan.id), x.progress[c.scan.id].cursor), limit, page)
    ensures ProgressInvariant(volume, Verify(x, copies, c, limit, page, a), copies)
  {
    var y := Verify(x, copies, c, limit, page, a);
    if !VerifyGate(x, c, a).Some? && VerifyVerdict(x, copies, c, limit, page, a).Ok? {
      PageKeepsProgress(volume, x, copies, c, limit, page, a);
      forall id | id in y.manifests && Examined(y.manifests[id].state)
        ensures id in y.progress && ProgressFits(volume, y.manifests[id], y.progress[id], Rows(y, id), copies)
      {
        hide ProgressFits, VerifyVerdict, VerifyGate, PendingState;
        if id != c.scan.id {
          assert id in x.manifests && y.manifests[id] == x.manifests[id];
        }
      }
    }
  }

  /** The chain after a page is the chain over what is then reached. */
  lemma PageExtendsChain(start: Summary, rows: map<Entry, Row>, copies: map<Entry, PhysicalCopy>, p: Progress, limit: nat, page: set<Entry>)
    requires rows.Keys <= copies.Keys && IsPage(Remaining(rows, p.cursor), limit, page)
    requires p.actual == FoldAll(start, Reached(rows, p.cursor), rows, copies)
    ensures var actual := FoldAll(p.actual, page, rows, copies);
            var cursor := if page == {} then p.cursor else Some(Greatest(page));
            actual == FoldAll(start, Reached(rows, cursor), rows, copies) && actual.entries == p.actual.entries + |page| &&
            (|Remaining(rows, p.cursor)| <= limit ==> actual == FoldAll(start, rows.Keys, rows, copies))
  {
    hide Before;
    var reached := Reached(rows, p.cursor);
    FoldCounts(p.actual, page, rows, copies);
    if page != {} {
      PageIsReached(rows, p.cursor, limit, page);
    } else {
      assert reached + page == reached;
    }
    FoldSplits(start, reached, page, rows, copies);
    if |Remaining(rows, p.cursor)| <= limit {
      WholePageEnds(rows, p.cursor, limit, page);
    }
  }

  lemma PageKeepsProgress(volume: Uuid, x: Volume, copies: map<Entry, PhysicalCopy>, c: Call, limit: nat, page: set<Entry>, a: Evidence)
    requires c.volume == volume && limit > 0 && ProgressInvariant(volume, x, copies)
    requires VerifyGate(x, c, a).None? && VerifyVerdict(x, copies, c, limit, page, a).Ok?
    requires IsPage(Remaining(Rows(x, c.scan.id), x.progress[c.scan.id].cursor), limit, page)
    ensures var y := Verify(x, copies, c, limit, page, a);
            c.scan.id in y.manifests && c.scan.id in y.progress &&
            ProgressFits(volume, y.manifests[c.scan.id], y.progress[c.scan.id], Rows(y, c.scan.id), copies)
  {
    hide Before, RowHolds, FoldAll, Remaining, IsPage, PageHolds, Greatest;
    var id := c.scan.id;
    var rows, p := Rows(x, id), x.progress[id];
    assert x.manifests[id] == Mark(c, Verifying) && ProgressFits(volume, x.manifests[id], p, rows, copies);
    PageExtendsChain(Start(volume, c.scan), rows, copies, p, limit, page);
    var y := Verify(x, copies, c, limit, page, a);
    assert Rows(y, id) == rows;
    PageIsKnown(page, rows, copies, c, p.cursor, limit);
    assert y.progress[id].actual == FoldAll(p.actual, page, rows, copies);
  }

  lemma PageIsKnown(page: set<Entry>, rows: map<Entry, Row>, copies: map<Entry, PhysicalCopy>, c: Call, cursor: Option<Entry>, limit: nat)
    requires IsPage(Remaining(rows, cursor), limit, page) && rows.Keys <= copies.Keys
    ensures page <= rows.Keys && page <= copies.Keys
  {
    hide Before;
  }
}
