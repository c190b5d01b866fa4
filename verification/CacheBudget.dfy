/** The budget of the local extent cache directory (src/local_read_storage.rs,
    `CacheBuild`): counted files, eviction of unpinned caches and the chunked
    reservation of the cache being built. Files keep their sizes while a build
    holds the directory lock. */
module CacheBudget {
  import opened Outcomes

  const PAGE: nat := 4096
  const CHUNK: nat := 0x100_0000
  const U64_MAX: nat := 0xffff_ffff_ffff_ffff
  const I64_MAX: nat := 0x7fff_ffff_ffff_ffff

  /** How a name is treated: a finished cache, one being built, the lock file, or unknown. */
  datatype NameKind = CacheFile | Provisional | LockFile | Unknown

  datatype Entry = Entry(kind: NameKind, regular: bool, blocks: nat)

  function Saturating(n: nat): nat {
    if n > U64_MAX then U64_MAX else n
  }

  function SaturatingSub(a: nat, b: nat): nat {
    if a < b then 0 else a - b
  }

  /** What a file counts for: its blocks, unless it is no plain file, provisional or the lock. */
  function Weight(e: Entry): nat {
    if e.regular && !e.kind.Provisional? && !e.kind.LockFile? then Saturating(e.blocks * 512) else 0
  }

  /** The bytes counted in a directory. */
  ghost function Counted(files: map<string, Entry>): nat
    decreases |files|
  {
    if files == map[] then 0
    else
      var name :| name in files;
      Weight(files[name]) + Counted(files - {name})
  }

  lemma {:induction false} CountedSplits(files: map<string, Entry>, name: string)
    requires name in files
    ensures Counted(files) == Weight(files[name]) + Counted(files - {name})
    decreases |files|
  {
    var first :| first in files && Counted(files) == Weight(files[first]) + Counted(files - {first});
    if first != name {
      CountedSplits(files - {first}, name);
      CountedSplits(files - {name}, first);
      assert files - {first} - {name} == files - {name} - {first};
    }
  }

  /** The 512-byte blocks of the plain files that are finished caches or unknown. */
  ghost function Blocks(files: map<string, Entry>): nat
    decreases |files|
  {
    if files == map[] then 0
    else
      var name :| name in files;
      (if files[name].regular && (files[name].kind.CacheFile? || files[name].kind.Unknown?) then files[name].blocks else 0) +
      Blocks(files - {name})
  }

  lemma {:induction false} BlocksSplit(files: map<string, Entry>, name: string)
    requires name in files
    ensures Blocks(files) == Blocks(files - {name}) +
                             if files[name].regular && (files[name].kind.CacheFile? || files[name].kind.Unknown?) then files[name].blocks else 0
    decreases |files|
  {
    var first :| first in files && Blocks(files) == Blocks(files - {first}) +
                                   if files[first].regular && (files[first].kind.CacheFile? || files[first].kind.Unknown?) then files[first].blocks else 0;
    if first != name {
      BlocksSplit(files - {first}, name);
      BlocksSplit(files - {name}, first);
      assert files - {first} - {name} == files - {name} - {first};
    }
  }

  /** The bytes counted are 512 for each such block, as long as no single file has more
      than 64 bits can hold. */
  lemma {:induction false} CountedInBlocks(files: map<string, Entry>)
    requires forall n :: n in files ==> files[n].blocks <= U64_MAX / 512
    ensures Counted(files) == 512 * Blocks(files)
    decreases |files|
  {
    if files != map[] {
      var name :| name in files;
      CountedSplits(files, name);
      BlocksSplit(files, name);
      CountedInBlocks(files - {name});
    }
  }

  function CeilDiv(a: nat, b: nat): nat
    requires b > 0
  {
    (a + b - 1) / b
  }

  /** Whole pages of the budget. */
  function Usable(budget: nat): nat {
    budget / PAGE * PAGE
  }

  /** What one admission asks for; None when the sum overflows 64 bits. */
  function Required(pages: nat, rowBytes: nat): Option<nat> {
    var n := pages * PAGE + Saturating(rowBytes * 4) + 8 * PAGE;
    if pages * PAGE > U64_MAX || pages * PAGE + Saturating(rowBytes * 4) > U64_MAX || n > U64_MAX then None else Some(n)
  }

  /** The next reservation: whole chunks, but no more than the usable budget. */
  function Target(required: nat, budget: nat): nat {
    var chunks := Saturating(CeilDiv(required, CHUNK) * CHUNK);
    if chunks < Usable(budget) then chunks else Usable(budget)
  }

  lemma ChunksCover(n: nat)
    ensures n <= CeilDiv(n, CHUNK) * CHUNK < n + CHUNK
  {
    assert (n + CHUNK - 1) % CHUNK + CeilDiv(n, CHUNK) * CHUNK == n + CHUNK - 1;
  }

  lemma LevelIsMonotone(a: nat, b: nat)
    requires a <= b
    ensures CeilDiv(a, CHUNK) <= CeilDiv(b, CHUNK)
  {
    ChunksCover(a);
    ChunksCover(b);
  }

  /** A reservation is a number of chunks, or the whole usable budget. */
  predicate Rounded(granted: nat, budget: nat) {
    granted <= Usable(budget) && (granted == Usable(budget) || granted == CeilDiv(granted, CHUNK) * CHUNK)
  }

  lemma ChunksAlign(k: nat)
    ensures (k * CHUNK) % PAGE == 0 && CeilDiv(k * CHUNK, CHUNK) == k
  {
    ChunksCover(k * CHUNK);
    assert CHUNK == 4096 * PAGE;
    MultipleOfPage(k * 4096);
    assert k * CHUNK == (k * 4096) * PAGE;
  }

  lemma MultipleOfPage(k: nat)
    ensures (k * PAGE) % PAGE == 0
  {
  }

  lemma UsableFacts(budget: nat)
    ensures Usable(budget) % PAGE == 0 && Usable(budget) <= budget < Usable(budget) + PAGE
  {
    MultipleOfPage(budget / PAGE);
  }

  predicate Covers(chunks: nat, required: nat) {
    required <= chunks * CHUNK
  }

  /** No whole number of chunks that covers the request is less. */
  ghost predicate NoMoreThan(granted: nat, required: nat) {
    forall n: nat :: Covers(n, required) ==> granted <= n * CHUNK
  }

  lemma TargetFacts(required: nat, budget: nat)
    requires 0 < required <= budget <= I64_MAX
    ensures var t := Target(required, budget);
            Rounded(t, budget) && t <= budget && t % PAGE == 0 && (required <= t <==> required <= Usable(budget)) && NoMoreThan(t, required)
  {
    hide Usable, CeilDiv;
    ChunksCover(required);
    forall n: nat | Covers(n, required)
      ensures CeilDiv(required, CHUNK) <= n
    {
      LevelIsMonotone(required, n * CHUNK);
      ChunksAlign(n);
    }
    ChunksAlign(CeilDiv(required, CHUNK));
    UsableFacts(budget);
  }

  /** Growing a reservation that is too small takes it at least one chunk level up. */
  lemma GrowthClimbs(granted: nat, required: nat, budget: nat)
    requires 0 < required <= budget <= I64_MAX && Rounded(granted, budget) && granted < required
    ensures var t := Target(required, budget);
            granted <= t && (granted < t ==> CeilDiv(granted, CHUNK) < CeilDiv(t, CHUNK)) &&
            CeilDiv(t, CHUNK) <= CeilDiv(budget, CHUNK)
  {
    TargetFacts(required, budget);
    var t := Target(required, budget);
    ChunksCover(required);
    ChunksCover(granted);
    ChunksCover(t);
    LevelIsMonotone(t, budget);
  }

  class CacheBuild {
    const budget: nat
    const headroom: nat
    var files: map<string, Entry>
    var victims: seq<string>       // what is left of the directory listing
    var total: nat
    var granted: nat
    ghost var growths: nat         // admissions that enlarged the reservation

    ghost predicate Valid()
      reads this
    {
      && 16 * PAGE <= budget <= I64_MAX
      && total == Counted(files) + granted
      && Rounded(granted, budget)
      && (granted > 0 ==> total <= budget)
      && growths <= CeilDiv(granted, CHUNK)
    }

    /** A build over a scanned directory. */
    constructor (budget: nat, headroom: nat, files: map<string, Entry>, victims: seq<string>, total: nat)
      requires 16 * PAGE <= budget <= I64_MAX && total == Counted(files)
      ensures Valid() && this.files == files && this.budget == budget && granted == 0
    {
      this.budget, this.headroom, this.files, this.victims, this.total := budget, headroom, files, victims, total;
      granted, growths := 0, 0;
    }

    /** The scan of `new`: drop leftovers of earlier builds, add up the rest. */
    static method Scan(listed: map<string, Entry>) returns (total: Option<nat>, files: map<string, Entry>)
      ensures total.Some? ==> total.value == Counted(files) <= U64_MAX
      ensures total.Some? ==> files == map n | n in listed && !(listed[n].regular && listed[n].kind.Provisional?) :: listed[n]
      ensures total.None? ==> Counted(listed) > U64_MAX
    {
      hide Saturating;
      var names, sum := listed.Keys, 0;
      files := listed;
      assert Only(files, names) == files;
      while names != {}
        invariant names <= files.Keys <= listed.Keys && (forall n :: n in files ==> files[n] == listed[n])
        invariant forall n :: n in listed && n !in files ==> listed[n].regular && listed[n].kind.Provisional?
        invariant forall n :: n in files && n !in names ==> !(listed[n].regular && listed[n].kind.Provisional?)
        invariant Counted(files) == Counted(listed)
        invariant sum + Counted(Only(files, names)) == Counted(files) && sum <= U64_MAX
        decreases |names|
      {
        var n :| n in names;
        var e := files[n];
        CountedSplits(Only(files, names), n);
        assert Only(files, names) - {n} == Only(files, names - {n});
        if e.regular && e.kind.Provisional? {
          CountedSplits(files, n);
          assert Only(files - {n}, names - {n}) == Only(files, names - {n});
          files := files - {n};
        } else if e.regular && !e.kind.LockFile? {
          if sum + Weight(e) > U64_MAX { return None, files; }
          sum := sum + Weight(e);
        }
        names := names - {n};
      }
      assert Only(files, {}) == map[];
      return Some(sum), files;
    }

    /** `evict_one`: remove the first finished cache of the listing nobody has pinned. */
    method EvictOne(pinned: set<string>, fails: string -> bool) returns (r: Result<bool>)
      requires Valid()
      modifies this
      ensures Valid() && granted == old(granted) && growths == old(growths) && total <= old(total)
      ensures r.Ok? ==> Passed(old(victims), victims, files, pinned)
      ensures |victims| <= |old(victims)|
      ensures r == Ok(true) ==> FirstEvicted(old(victims), victims, old(files), files, pinned)
      ensures r != Ok(true) ==> files == old(files) && total == old(total)
      ensures r == Ok(false) ==> victims == []
      ensures r.Err? ==> exists k :: 0 <= k < |old(victims)| && fails(old(victims)[k])
    {
      hide Counted, Weight, Rounded, CeilDiv, Usable;
      ghost var listed := victims;
      while victims != []
        invariant Valid() && files == old(files) && granted == old(granted) && growths == old(growths) && total == old(total)
        invariant Passed(listed, victims, files, pinned)
        decreases |victims|
      {
        var name := victims[0];
        assert name == listed[|listed| - |victims|];
        victims := victims[1..];
        if name in files && files[name].kind.CacheFile? {
          if fails(name) { return Err(Incomplete); }
          if files[name].regular && name !in pinned {
            CountedSplits(files, name);
            var size := Weight(files[name]);
            files := files - {name};
            total := SaturatingSub(total, size);
            return Ok(true);
          }
        }
      }
      return Ok(false);
    }

    /** Evict until the directory is within budget. Refused only when nothing is left to
        evict, or a file could not be looked at. */
    method TrimToBudget(pinned: set<string>, fails: string -> bool) returns (ok: bool)
      requires Valid()
      modifies this
      ensures Valid() && (ok <==> total <= budget) && OnlyEvicted(old(files), files, pinned)
      ensures !ok ==> Exhausted(old(victims), victims, files, pinned) || SomeFails(old(victims), fails)
      ensures files != old(files) ==> exists n :: n in old(files) && n !in files && total + Weight(old(files)[n]) > budget
    {
      hide Evictable, OnlyEvicted, Weight;
      AllPassed(victims, files, pinned);
      NoneEvicted(files, pinned);
      while total > budget
        invariant Valid() && OnlyEvicted(old(files), files, pinned) && Passed(old(victims), victims, files, pinned)
        invariant files != old(files) ==> exists n :: n in old(files) && n !in files && total + Weight(old(files)[n]) > budget
        decreases |victims|
      {
        ghost var before, listed := files, victims;
        var r := EvictOne(pinned, fails);
        FailsEarlier(old(victims), listed, before, pinned, fails);
        if r.Err? { return false; }
        PassedFurther(old(victims), listed, victims, before, files, pinned);
        if !r.value { return false; }
        EvictedChain(old(files), before, files, pinned);
        OneEvicted(old(files), before, files, pinned);
      }
      return true;
    }

    /** Evict everything nobody has pinned. */
    method ReclaimUnpinned(pinned: set<string>, fails: string -> bool) returns (r: Result<bool>)
      requires Valid()
      modifies this
      ensures Valid() && OnlyEvicted(old(files), files, pinned) && (r.Ok? ==> (r.value <==> files != old(files)))
      ensures r.Ok? ==> Exhausted(old(victims), victims, files, pinned)
      ensures r.Err? ==> SomeFails(old(victims), fails)
    {
      hide Evictable, OnlyEvicted;
      AllPassed(victims, files, pinned);
      NoneEvicted(files, pinned);
      var removed := false;
      while true
        invariant Valid() && OnlyEvicted(old(files), files, pinned) && (removed <==> files != old(files))
        invariant Passed(old(victims), victims, files, pinned)
        decreases |victims|
      {
        ghost var before, listed := files, victims;
        var one := EvictOne(pinned, fails);
        FailsEarlier(old(victims), listed, before, pinned, fails);
        if one.Err? { return one; }
        PassedFurther(old(victims), listed, victims, before, files, pinned);
        if !one.value { return Ok(removed); }
        EvictedChain(old(files), before, files, pinned);
        removed := true;
      }
    }

    /** Evict until `extra` more bytes fit. `free(k)`: space the file system shows at the
        k-th look. */
    method MakeRoom(extra: nat, free: nat -> nat, pinned: set<string>, fails: string -> bool) returns (ok: bool, looks: nat)
      requires Valid()
      modifies this
      ensures Valid() && OnlyEvicted(old(files), files, pinned) && granted == old(granted) && growths == old(growths)
      ensures ok ==> !TooTight(total, extra, budget, free(looks), headroom)
      ensures !ok && !SomeFails(old(victims), fails) ==> Exhausted(old(victims), victims, files, pinned)
      ensures !ok && !SomeFails(old(victims), fails) ==> TooTight(total, extra, budget, free(looks), headroom)
      ensures files != old(files) ==> Needed(old(files), files, total, extra, budget, free, headroom)
    {
      hide Evictable, OnlyEvicted, Weight;
      AllPassed(victims, files, pinned);
      NoneEvicted(files, pinned);
      looks := 0;
      while TooTight(total, extra, budget, free(looks), headroom)
        invariant Valid() && OnlyEvicted(old(files), files, pinned) && granted == old(granted) && growths == old(growths)
        invariant Passed(old(victims), victims, files, pinned)
        invariant files != old(files) ==> Needed(old(files), files, total, extra, budget, free, headroom)
        decreases |victims|
      {
        ghost var before, listed := files, victims;
        var r := EvictOne(pinned, fails);
        FailsEarlier(old(victims), listed, before, pinned, fails);
        if r.Err? { return false, looks; }
        PassedFurther(old(victims), listed, victims, before, files, pinned);
        if !r.value { return false, looks; }
        EvictedChain(old(files), before, files, pinned);
        OneEvicted(old(files), before, files, pinned);
        looks := looks + 1;
      }
      return true, looks;
    }

    /** Reserve chunks until the request is covered, or the whole usable budget. */
    method Grow(required: nat, free: nat -> nat, pinned: set<string>, fails: string -> bool, allowed: bool) returns (ok: bool)
      requires Valid() && granted < required <= budget
      modifies this
      ensures Valid() && OnlyEvicted(old(files), files, pinned)
      ensures ok ==> granted == Target(required, budget) && old(granted) <= granted && total <= budget
      ensures ok ==> exists k :: granted - old(granted) + headroom <= free(k) || granted == old(granted)
      ensures !ok ==> granted == old(granted)
      ensures files != old(files) ==> Needed(old(files), files, Counted(files) + old(granted), Target(required, budget) - old(granted), budget, free, headroom)
      ensures !ok && allowed && !SomeFails(old(victims), fails) ==>
                Exhausted(old(victims), victims, files, pinned) &&
                exists k :: TooTight(total, Target(required, budget) - granted, budget, free(k), headroom)
    {
      hide OnlyEvicted, Weight, Target, Usable, CeilDiv, Needed, SomeFails, Exhausted;
      var target := Target(required, budget);
      TargetFacts(required, budget);
      GrowthClimbs(granted, required, budget);
      var room, looks := MakeRoom(target - granted, free, pinned, fails);
      if !room || !allowed { return false; }
      growths := if target > granted then growths + 1 else growths;
      total := total + (target - granted);
      granted := target;
      return true;
    }

    /** `admit`: make room for the next row before it is written. */
    method Admit(pages: nat, rowBytes: nat, opens: bool, free: nat -> nat, pinned: set<string>, fails: string -> bool,
                 reserved: bool, limitSet: bool) returns (ok: bool)
      requires Valid()
      modifies this
      ensures Valid() && OnlyEvicted(old(files), files, pinned)
      ensures old(granted) <= granted <= budget && granted % PAGE == 0
      ensures ok ==> total <= budget && Required(pages, rowBytes).Some? && Required(pages, rowBytes).value <= budget
      ensures ok ==> (Required(pages, rowBytes).value <= granted <==> Required(pages, rowBytes).value <= Usable(budget))
      ensures granted != old(granted) ==> Enough(old(granted), granted, Required(pages, rowBytes), free, headroom)
      ensures !ok ==> granted == old(granted)
      ensures growths <= CeilDiv(budget, CHUNK)
      ensures opens && Required(pages, rowBytes).Some? && Required(pages, rowBytes).value <= old(granted) ==> ok && files == old(files)
      ensures ok && files != old(files) ==> Needed(old(files), files, Counted(files) + old(granted), granted - old(granted), budget, free, headroom)
      ensures !ok && opens && reserved && limitSet && !SomeFails(old(victims), fails) ==>
                Required(pages, rowBytes).None? || Required(pages, rowBytes).value > budget ||
                (Exhausted(old(victims), victims, files, pinned) &&
                 exists k :: TooTight(total, Target(Required(pages, rowBytes).value, budget) - granted, budget, free(k), headroom))
    {
      hide OnlyEvicted, Weight, NoMoreThan, Rounded, Required, Target, Usable, CeilDiv, Needed, SomeFails, Exhausted;
      NoneEvicted(files, pinned);
      LevelIsMonotone(granted, budget);
      RoundedIsAligned(granted, budget);
      if !opens { return false; }
      var required := Required(pages, rowBytes);
      if required.None? || required.value > budget { return false; }
      AsksForSome(pages, rowBytes);
      if required.value <= granted { return true; }
      TargetFacts(required.value, budget);
      ok := Grow(required.value, free, pinned, fails, reserved && limitSet);
      LevelIsMonotone(granted, budget);
    }
  }

  /** The reservation grew to cover the request, by no more chunks than it takes, and the
      file system has shown room for it beyond the headroom. */
  ghost predicate Enough(before: nat, granted: nat, required: Option<nat>, free: nat -> nat, headroom: nat) {
    required.Some? && before < required.value && NoMoreThan(granted, required.value) && exists k :: granted - before + headroom <= free(k)
  }

  /** A request is four times the row and eight 4 KiB pages on top of the pages in use. */
  lemma AsksForSome(pages: nat, rowBytes: nat)
    ensures Required(pages, rowBytes).Some? ==>
              32768 <= Required(pages, rowBytes).value <= U64_MAX && (rowBytes * 4 <= U64_MAX ==> Required(pages, rowBytes).value == (pages + 8) * 4096 + rowBytes * 4)
    ensures (pages + 8) * 4096 + rowBytes * 4 <= U64_MAX ==> Required(pages, rowBytes).Some?
  {
  }

  ghost function Only(files: map<string, Entry>, names: set<string>): map<string, Entry> {
    map n | n in files && n in names :: files[n]
  }

  lemma RoundedIsAligned(granted: nat, budget: nat)
    requires Rounded(granted, budget)
    ensures granted % PAGE == 0 && granted <= Usable(budget) <= budget
  {
    hide Usable, CeilDiv;
    ChunksAlign(CeilDiv(granted, CHUNK));
    UsableFacts(budget);
  }

  /** Only plain finished caches without a pin may be removed. */
  predicate Evictable(files: map<string, Entry>, pinned: set<string>, name: string) {
    name in files && files[name].kind.CacheFile? && files[name].regular && name !in pinned
  }

  /** Files stay as they are, except evictable ones, which may be gone. */
  ghost predicate OnlyEvicted(before: map<string, Entry>, after: map<string, Entry>, pinned: set<string>) {
    && (forall n :: n in after ==> n in before && after[n] == before[n])
    && (forall n :: n in before && n !in after ==> Evictable(before, pinned, n))
  }

  lemma NoneEvicted(files: map<string, Entry>, pinned: set<string>)
    ensures OnlyEvicted(files, files, pinned)
  {
  }

  lemma EvictedChain(a: map<string, Entry>, b: map<string, Entry>, c: map<string, Entry>, pinned: set<string>)
    requires OnlyEvicted(a, b, pinned) && exists n :: Evictable(b, pinned, n) && c == b - {n}
    ensures OnlyEvicted(a, c, pinned) && c != a
  {
    var n :| Evictable(b, pinned, n) && c == b - {n};
    assert n in a && n !in c;
  }

  /** With one of the files that went there would not have been room. */
  ghost predicate Needed(listed: map<string, Entry>, files: map<string, Entry>, total: nat, extra: nat, budget: nat, free: nat -> nat, headroom: nat) {
    exists n, k :: n in listed && n !in files && TooTight(total + Weight(listed[n]), extra, budget, free(k), headroom)
  }

  lemma OneEvicted(listed: map<string, Entry>, before: map<string, Entry>, after: map<string, Entry>, pinned: set<string>)
    requires OnlyEvicted(listed, before, pinned) && exists n :: Evictable(before, pinned, n) && after == before - {n}
    ensures exists n :: n in listed && n !in after && Counted(before) == Counted(after) + Weight(listed[n])
  {
    var n :| Evictable(before, pinned, n) && after == before - {n};
    CountedSplits(before, n);
    assert n in listed && n !in after;
  }

  // ------------------------------------------------------------- the listing

  /** `left` is the rest of the listing, and nothing before it can be evicted. */
  ghost predicate Passed(listed: seq<string>, left: seq<string>, files: map<string, Entry>, pinned: set<string>) {
    |left| <= |listed| && left == listed[|listed| - |left|..] &&
    forall k :: 0 <= k < |listed| - |left| ==> !Evictable(files, pinned, listed[k])
  }

  /** The first name of the listing that can be evicted was, and is the last one passed. */
  ghost predicate FirstEvicted(listed: seq<string>, left: seq<string>, before: map<string, Entry>, after: map<string, Entry>,
                               pinned: set<string>) {
    |left| < |listed| &&
    var k := |listed| - |left| - 1;
    Evictable(before, pinned, listed[k]) && after == before - {listed[k]} && forall j :: 0 <= j < k ==> !Evictable(before, pinned, listed[j])
  }

  /** The listing is used up and nothing in it can be evicted. */
  ghost predicate Exhausted(listed: seq<string>, left: seq<string>, files: map<string, Entry>, pinned: set<string>) {
    left == [] && forall k :: 0 <= k < |listed| ==> !Evictable(files, pinned, listed[k])
  }

  ghost predicate SomeFails(listed: seq<string>, fails: string -> bool) {
    exists k :: 0 <= k < |listed| && fails(listed[k])
  }

  /** No room for `extra` bytes: over budget, or too little free space beyond the headroom. */
  predicate TooTight(total: nat, extra: int, budget: nat, free: nat, headroom: nat) {
    total + extra > budget || SaturatingSub(free, headroom) < extra
  }

  lemma AllPassed(listed: seq<string>, files: map<string, Entry>, pinned: set<string>)
    ensures Passed(listed, listed, files, pinned)
  {
  }

  lemma FailsEarlier(listed: seq<string>, left: seq<string>, files: map<string, Entry>, pinned: set<string>, fails: string -> bool)
    requires Passed(listed, left, files, pinned)
    ensures SomeFails(left, fails) ==> SomeFails(listed, fails)
  {
    if SomeFails(left, fails) {
      var k :| 0 <= k < |left| && fails(left[k]);
      assert listed[|listed| - |left| + k] == left[k];
    }
  }

  lemma PassedFurther(listed: seq<string>, mid: seq<string>, left: seq<string>, before: map<string, Entry>, after: map<string, Entry>,
                      pinned: set<string>)
    requires Passed(listed, mid, before, pinned) && Passed(mid, left, after, pinned)
    requires after == before || exists n :: after == before - {n}
    ensures Passed(listed, left, after, pinned) && (left == [] ==> Exhausted(listed, left, after, pinned))
  {
    forall k | 0 <= k < |listed| - |left|
      ensures !Evictable(after, pinned, listed[k])
    {
      if k < |listed| - |mid| {
        assert !Evictable(before, pinned, listed[k]);
      } else {
        assert mid[k - (|listed| - |mid|)] == listed[k];
      }
    }
  }

  /** With a budget that is no whole number of pages an admission can succeed with
      less reserved than it asked for. */
  lemma OddBudgetFallsShort()
    ensures var budget := 16 * PAGE + 100;
            var required := Required(8, 25);
            required == Some(16 * PAGE + 100) && required.value <= budget && Target(required.value, budget) == 16 * PAGE
  {
    assert CeilDiv(16 * PAGE + 100, CHUNK) == 1;
  }
}
