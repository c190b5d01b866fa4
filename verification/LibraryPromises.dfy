/** When the library scheduler must succeed, told from the inventory and the answers of the
    devices (src/library.rs: `select`; src/library/admin.rs: `enforce_mount_limit`), and one
    run that shows what the mount limit takes out. */
module LibraryPromises {
  import opened Outcomes
  import opened Library

  /** The tapes in these drives all go home, each to a free slot of its own. */
  ghost predicate AllMayGoHome(kinds: map<nat, Kind>, full: map<nat, Cartridge>, p: Policy, addresses: seq<nat>) {
    && (forall k :: 0 <= k < |addresses| ==> MayGoHome(kinds, full, p, addresses[k]))
    && (forall j, k :: 0 <= j < k < |addresses| ==> HomeOfTape(full, p, addresses[j]) != HomeOfTape(full, p, addresses[k]))
  }

  lemma ReturnWorks(kinds: map<nat, Kind>, full: map<nat, Cartridge>, p: Policy, address: nat, a: ReturnAnswers, why: Reason)
    requires MayGoHome(kinds, full, p, address) && Smooth(a)
    ensures var o := Return(kinds, full, p, address, a, why); o.ok && o.full == AfterMove(full, address, HomeOfTape(full, p, address).value)
  {
  }

  lemma OthersMayStillGo(kinds: map<nat, Kind>, full: map<nat, Cartridge>, p: Policy, a: nat, b: nat)
    requires MayGoHome(kinds, full, p, a) && MayGoHome(kinds, full, p, b) && a != b && HomeOfTape(full, p, a) != HomeOfTape(full, p, b)
    ensures var after := AfterMove(full, a, HomeOfTape(full, p, a).value);
            MayGoHome(kinds, after, p, b) && HomeOfTape(after, p, b) == HomeOfTape(full, p, b)
  {
  }

  lemma FewerMayGo(kinds: map<nat, Kind>, full: map<nat, Cartridge>, p: Policy, addresses: seq<nat>)
    requires addresses != [] && NoRepeats(addresses) && AllMayGoHome(kinds, full, p, addresses)
    ensures var last := |addresses| - 1;
            AllMayGoHome(kinds, AfterMove(full, addresses[last], HomeOfTape(full, p, addresses[last]).value), p, addresses[..last])
  {
    hide MayGoHome, HomeOfTape;
    var last := |addresses| - 1;
    assert MayGoHome(kinds, full, p, addresses[last]);
    HomeIsKnown(kinds, full, p, addresses[last]);
    forall k | 0 <= k < last
      ensures var after := AfterMove(full, addresses[last], HomeOfTape(full, p, addresses[last]).value);
              MayGoHome(kinds, after, p, addresses[k]) && HomeOfTape(after, p, addresses[k]) == HomeOfTape(full, p, addresses[k])
    {
      OthersMayStillGo(kinds, full, p, addresses[last], addresses[k]);
    }
  }

  lemma HomeIsKnown(kinds: map<nat, Kind>, full: map<nat, Cartridge>, p: Policy, address: nat)
    requires MayGoHome(kinds, full, p, address)
    ensures address in full && HomeOfTape(full, p, address).Some?
  {
  }

  /** The drives are configured and taken by this instance. */
  predicate AllTaken(drives: seq<nat>, claimed: seq<bool>, addresses: seq<nat>) {
    |claimed| == |drives| &&
    forall k :: 0 <= k < |addresses| ==> Position(drives, addresses[k]).Some? && claimed[Position(drives, addresses[k]).value]
  }

  lemma {:induction false} ReturnDownWorks(kinds: map<nat, Kind>, drives: seq<nat>, claimed: seq<bool>, full: map<nat, Cartridge>, p: Policy,
                                           barcode: string, mates: seq<nat>, keep: nat, answers: nat -> ReturnAnswers)
    requires keep <= |mates| && NoRepeats(mates) && AllTaken(drives, claimed, mates[keep..]) && AllMayGoHome(kinds, full, p, mates[keep..])
    requires forall i :: Smooth(answers(i))
    ensures ReturnDown(kinds, drives, claimed, full, p, barcode, mates, keep, answers).ok
    decreases |mates|
  {
    hide MayGoHome, HomeOfTape, Smooth;
    if |mates| > keep {
      var last, victims := |mates| - 1, mates[keep..];
      var address := mates[last];
      assert address == victims[|victims| - 1];
      var i := Position(drives, address).value;
      ReturnWorks(kinds, full, p, address, answers(i), Limiting(i, barcode));
      HomeIsKnown(kinds, full, p, address);
      FewerMayGo(kinds, full, p, victims);
      assert mates[..last][keep..] == victims[..|victims| - 1];
      ReturnDownWorks(kinds, drives, claimed, AfterMove(full, address, HomeOfTape(full, p, address).value), p, barcode, mates[..last], keep, answers);
    }
  }

  /** The limit is met whenever the tape is mounted or in its home slot and the victims are
      in drives of this instance, with free home slots of their own and smooth answers. */
  lemma LimitSucceeds(order: seq<nat>, kinds: map<nat, Kind>, drives: seq<nat>, claimed: seq<bool>, full: map<nat, Cartridge>, p: Policy,
                      barcode: string, answers: nat -> ReturnAnswers)
    requires |claimed| == |drives| && barcode in p.volumes && NoRepeats(order)
    requires var victims := Victims(order, kinds, full, p, barcode);
             AllTaken(drives, claimed, victims) && AllMayGoHome(kinds, full, p, victims) && forall i :: Smooth(answers(i))
    requires var source := Find(order, full, barcode);
             source.Some? && (source.value == p.volumes[barcode].home || (source.value in kinds && kinds[source.value] == DataTransfer))
    ensures Limited(order, kinds, drives, claimed, full, p, barcode, true, answers).ok
  {
    hide InDrive, MayGoHome, HomeOfTape, Smooth, AllTaken, AllMayGoHome;
    var limit, mates := Limit(p, barcode), Mates(order, kinds, full, p, barcode);
    MatesAreMates(order, kinds, full, p, barcode);
    if limit > 0 && !InDrive(kinds, full, barcode) {
      if |mates| >= limit {
        ReturnDownWorks(kinds, drives, claimed, full, p, barcode, mates, limit - 1, answers);
      } else {
        AllDown(kinds, drives, claimed, full, p, barcode, mates, limit - 1, answers);
      }
    }
  }

  /** All answers of a selection are good. */
  ghost predicate AllGood(a: SelectAnswers) {
    (forall n :: a.go(n)) && (forall i :: Smooth(a.limit(i))) && a.changer && a.drive && Smooth(a.evict) && a.moveChanger && a.moveDrive &&
    a.outcome.Completed? && a.ready
  }

  /** The tape is at `e` and nowhere else. */
  ghost predicate OnlyAt(order: seq<nat>, full: map<nat, Cartridge>, barcode: string, e: nat) {
    e in order && IsDataTape(full, e, barcode) && forall b :: Holds(full, b, barcode) ==> b == e
  }

  lemma {:induction false} FindsTheOne(order: seq<nat>, full: map<nat, Cartridge>, barcode: string, e: nat)
    requires OnlyAt(order, full, barcode, e)
    ensures Find(order, full, barcode) == Some(e)
    decreases |order|
  {
    if !Holds(full, order[0], barcode) {
      FindsTheOne(order[1..], full, barcode, e);
    }
  }

  /** A tape in its storage home slot, the drive empty or its tape free to go home. */
  predicate MayTake(kinds: map<nat, Kind>, drives: seq<nat>, full: map<nat, Cartridge>, p: Policy, i: nat)
    requires i < |drives|
  {
    drives[i] !in full || MayGoHome(kinds, full, p, drives[i])
  }

  predicate SomeDrive(drives: seq<nat>, eligible: set<nat>, e: nat) {
    exists i :: i in eligible && 0 <= i < |drives| && drives[i] == e
  }

  predicate FirstEvictable(drives: seq<nat>, full: map<nat, Cartridge>, p: Policy, eligible: set<nat>, i: nat) {
    i in eligible && Evictable(drives, full, p, i) && forall k :: k in eligible && k < i ==> !Evictable(drives, full, p, k)
  }

  /** The tape at `e` is in an enabled drive, or some enabled drive is empty, or the first
      enabled drive with an allowed tape has one that can go home. */
  ghost predicate MayBeTaken(kinds: map<nat, Kind>, drives: seq<nat>, full: map<nat, Cartridge>, p: Policy, eligible: set<nat>, e: nat) {
    || SomeDrive(drives, eligible, e)
    || (exists i :: i in eligible && 0 <= i < |drives| && drives[i] !in full)
    || (exists i: nat :: FirstEvictable(drives, full, p, eligible, i) && MayGoHome(kinds, full, p, drives[i]))
  }

  lemma {:induction false} FirstHolding(drives: seq<nat>, full: map<nat, Cartridge>, barcode: string, eligible: set<nat>, n: nat)
    requires n <= |drives| && !NoneHolds(drives, full, barcode, eligible, n)
    ensures exists i: nat :: i < n && i in eligible && Holds(full, drives[i], barcode) && NoneHolds(drives, full, barcode, eligible, i)
    decreases n
  {
    if !NoneHolds(drives, full, barcode, eligible, n - 1) {
      FirstHolding(drives, full, barcode, eligible, n - 1);
    } else {
      assert Holds(full, drives[n - 1], barcode);
    }
  }

  lemma {:induction false} FirstEmpty(drives: seq<nat>, full: map<nat, Cartridge>, eligible: set<nat>, n: nat)
    requires n <= |drives| && !NoneEmpty(drives, full, eligible, n)
    ensures exists i: nat :: i < n && i in eligible && drives[i] !in full && NoneEmpty(drives, full, eligible, i)
    decreases n
  {
    if !NoneEmpty(drives, full, eligible, n - 1) {
      FirstEmpty(drives, full, eligible, n - 1);
    } else {
      assert drives[n - 1] !in full;
    }
  }

  lemma SomeIsChosen(kinds: map<nat, Kind>, drives: seq<nat>, full: map<nat, Cartridge>, p: Policy, barcode: string, eligible: set<nat>, e: nat)
    requires Holds(full, e, barcode) && MayBeTaken(kinds, drives, full, p, eligible, e)
    ensures exists i: nat :: i < |drives| && i in eligible && Chosen(drives, full, p, barcode, eligible, i)
  {
    hide Allowed, MayGoHome;
    if !NoneHolds(drives, full, barcode, eligible, |drives|) {
      FirstHolding(drives, full, barcode, eligible, |drives|);
      var i: nat :| i < |drives| && i in eligible && Holds(full, drives[i], barcode) && NoneHolds(drives, full, barcode, eligible, i);
      assert Chosen(drives, full, p, barcode, eligible, i);
    } else if !NoneEmpty(drives, full, eligible, |drives|) {
      FirstEmpty(drives, full, eligible, |drives|);
      var i: nat :| i < |drives| && i in eligible && drives[i] !in full && NoneEmpty(drives, full, eligible, i);
      assert Chosen(drives, full, p, barcode, eligible, i);
    } else {
      assert !SomeDrive(drives, eligible, e);
      var i: nat :| FirstEvictable(drives, full, p, eligible, i) && MayGoHome(kinds, full, p, drives[i]);
      assert Chosen(drives, full, p, barcode, eligible, i);
    }
  }

  lemma ChosenMayTake(kinds: map<nat, Kind>, drives: seq<nat>, full: map<nat, Cartridge>, p: Policy, barcode: string, eligible: set<nat>, e: nat,
                      i: nat)
    requires i < |drives| && i in eligible && Chosen(drives, full, p, barcode, eligible, i) && !Holds(full, drives[i], barcode)
    requires Holds(full, e, barcode) && MayBeTaken(kinds, drives, full, p, eligible, e)
    ensures MayTake(kinds, drives, full, p, i) && !SomeDrive(drives, eligible, e)
  {
    hide Allowed, MayGoHome;
    assert NoneHolds(drives, full, barcode, eligible, |drives|);
  }

  lemma HomeToDrive(order: seq<nat>, kinds: map<nat, Kind>, drives: seq<nat>, full: map<nat, Cartridge>, p: Policy, barcode: string,
                    eligible: set<nat>, a: SelectAnswers, i: nat)
    requires i < |drives| && i in eligible && barcode in p.volumes && AllGood(a) && Chosen(drives, full, p, barcode, eligible, i)
    requires drives[i] in kinds && kinds[drives[i]] == DataTransfer
    requires var home := p.volumes[barcode].home;
             OnlyAt(order, full, barcode, home) && home in kinds && kinds[home] == Storage && MayTake(kinds, drives, full, p, i)
    ensures EndsIn(order, kinds, drives, full, p, barcode, eligible, a, i)
  {
    hide Chosen;
    FindsTheOne(order, full, barcode, p.volumes[barcode].home);
  }

  lemma DriveStays(order: seq<nat>, kinds: map<nat, Kind>, drives: seq<nat>, full: map<nat, Cartridge>, p: Policy, barcode: string,
                   eligible: set<nat>, a: SelectAnswers, i: nat)
    requires i < |drives| && i in eligible && barcode in p.volumes && AllGood(a) && Chosen(drives, full, p, barcode, eligible, i)
    requires drives[i] in kinds && kinds[drives[i]] == DataTransfer && OnlyAt(order, full, barcode, drives[i])
    requires p.volumes[barcode].home in kinds && kinds[p.volumes[barcode].home] == Storage
    ensures EndsIn(order, kinds, drives, full, p, barcode, eligible, a, i)
  {
    hide Chosen;
    FindsTheOne(order, full, barcode, drives[i]);
  }

  /** What `select` is for. Let every answer be good, the limit be met, and the tape, a data
      tape in one place only, lie in its storage home slot or in an enabled drive then. If
      it is in a drive, or some enabled drive is empty, or the first enabled drive with an
      allowed tape has one that can go home, then the tape ends up mounted. */
  lemma TapeIsMounted(order: seq<nat>, kinds: map<nat, Kind>, drives: seq<nat>, claimed: seq<bool>, full: map<nat, Cartridge>, p: Policy,
                      barcode: string, eligible: set<nat>, a: SelectAnswers, e: nat)
    requires |claimed| == |drives| && NoRepeats(order) && NoRepeats(drives) && Allowed(p, barcode) && barcode in p.volumes && AllGood(a)
    requires forall k :: 0 <= k < |drives| ==> drives[k] in kinds && kinds[drives[k]] == DataTransfer
    requires forall b :: b in full && full[b].tag == Some(barcode) ==> !full[b].cleaning
    requires p.volumes[barcode].home in kinds && kinds[p.volumes[barcode].home] == Storage
    requires Limited(order, kinds, drives, claimed, full, p, barcode, true, a.limit).ok
    requires var now := Limited(order, kinds, drives, claimed, full, p, barcode, true, a.limit).full;
             OnlyAt(order, now, barcode, e) && (e == p.volumes[barcode].home || SomeDrive(drives, eligible, e)) &&
             MayBeTaken(kinds, drives, now, p, eligible, e)
    ensures exists i: nat :: Succeeds(order, kinds, drives, claimed, full, p, barcode, eligible, a, i)
  {
    hide Limited, Allowed, EndsIn, MayGoHome;
    var now := Limited(order, kinds, drives, claimed, full, p, barcode, true, a.limit).full;
    assert a.go(5) && a.go(8) && a.go(9);
    SomeIsChosen(kinds, drives, now, p, barcode, eligible, e);
    var i: nat :| i < |drives| && i in eligible && Chosen(drives, now, p, barcode, eligible, i);
    if drives[i] == e {
      DriveStays(order, kinds, drives, now, p, barcode, eligible, a, i);
    } else {
      ChosenMayTake(kinds, drives, now, p, barcode, eligible, e, i);
      HomeToDrive(order, kinds, drives, now, p, barcode, eligible, a, i);
    }
    assert Succeeds(order, kinds, drives, claimed, full, p, barcode, eligible, a, i);
  }

  // ------------------------------------------------------------------ an example

  const SLOTS := map[1 := Storage, 2 := Storage, 9 := DataTransfer]

  const ONE_EACH := Policy(map["A" := Volume("p", 1, None), "B" := Volume("p", 2, Some("bad"))], {}, None, map["p" := 1])

  const B_MOUNTED := map[1 := Cartridge(10, Some("A"), false), 9 := Cartridge(11, Some("B"), false)]

  const SMOOTH := ReturnAnswers(true, true, true, true, true, true, Completed)

  lemma OnlyMateIsB()
    ensures Mates([1, 2, 9], SLOTS, B_MOUNTED, ONE_EACH, "A") == [9] && !Allowed(ONE_EACH, "B") && Limit(ONE_EACH, "A") == 1
  {
    assert "A" != "B";
    assert [1, 2, 9][..2] == [1, 2] && [1, 2][..1] == [1] && [1][..0] == [];
    assert Mates([1], SLOTS, B_MOUNTED, ONE_EACH, "A") == [];
    assert Mates([1, 2], SLOTS, B_MOUNTED, ONE_EACH, "A") == [];
  }

  lemma BIsReturned()
    ensures var o := Limited([1, 2, 9], SLOTS, [9], [true], B_MOUNTED, ONE_EACH, "A", true, _ => SMOOTH);
            o.ok && o.full == map[1 := Cartridge(10, Some("A"), false), 2 := Cartridge(11, Some("B"), false)]
  {
    OnlyMateIsB();
    assert "A" != "B";
    assert Holds(B_MOUNTED, 1, "A");
    assert Find([1, 2, 9], B_MOUNTED, "A") == Some(1);
    assert !InDrive(SLOTS, B_MOUNTED, "A");
    assert [9][..0] == [];
    assert Position([9], 9) == Some(0);
    assert (B_MOUNTED - {9})[2 := B_MOUNTED[9]] == map[1 := Cartridge(10, Some("A"), false), 2 := Cartridge(11, Some("B"), false)];
  }

  /** The limit is enforced on pool and place alone: "B" was blacklisted while mounted,
      and is taken out of drive 9 to make room for "A". */
  method LimitIgnoresBlacklist() returns (lib: Library, ok: bool)
    ensures ok && !Allowed(lib.policy, "B") && 9 !in lib.full && Holds(lib.full, 2, "B")
  {
    hide Limited, Conserved;
    OnlyMateIsB();
    BIsReturned();
    lib := new Library([1, 2, 9], SLOTS, [9], B_MOUNTED, ONE_EACH);
    ok := lib.Claim(0, true, true);
    assert lib.claimed == [true];
    ok := lib.EnforceLimit("A", true, _ => SMOOTH);
  }

  /** In the words of the resource database: a tape put into a drive is assigned, from its
      home slot, and one evicted for it is assigned, neither is blacklisted, and an
      offline one only if it is the one being brought online. */
  lemma MovesAreAllowed(drives: seq<nat>, kinds: map<nat, Kind>, mv: Move)
    requires Justified(drives, kinds, mv) && (mv.why.Mounting? || mv.why.Evicting?)
    ensures mv.before[mv.source].tag.Some? &&
            var b := mv.before[mv.source].tag.value;
            b in mv.policy.volumes && mv.policy.volumes[b].blacklist == None &&
            (b !in mv.policy.offline || mv.policy.candidate == Some(b)) &&
            (mv.why.Mounting? ==> b == mv.why.barcode && mv.source == mv.policy.volumes[b].home && mv.dest == drives[mv.why.drive]) &&
            (mv.why.Evicting? ==> (mv.why.drive in mv.why.eligible ==> b != mv.why.barcode) && mv.dest == mv.policy.volumes[b].home && mv.source == drives[mv.why.drive])
  {
  }
}
