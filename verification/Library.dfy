/** The mechanical scheduler of a logical library (src/library.rs, with the mount
    limit of src/library/admin.rs) under exclusive control of its devices: between
    this program's own commands nothing moves a cartridge. Device and database
    failures, cancellation and lost reservations are parameters of the calls. */
module Library {
  import opened Outcomes

  datatype Kind = Transport | Storage | ImportExport | DataTransfer

  /** `id` tells cartridges apart; the barcode may be unreadable. */
  datatype Cartridge = Cartridge(id: nat, tag: Option<string>, cleaning: bool)

  datatype Volume = Volume(pool: string, home: nat, blacklist: Option<string>)

  /** The resource database: assignments, offline tapes, mount limits (0: none). */
  datatype Policy = Policy(volumes: map<string, Volume>, offline: set<string>, candidate: Option<string>, limits: map<string, nat>)

  /** Assigned, not blacklisted, and online or just being brought online. */
  predicate Allowed(p: Policy, barcode: string) {
    (barcode in p.offline ==> p.candidate == Some(barcode)) && barcode in p.volumes && p.volumes[barcode].blacklist.None?
  }

  predicate Holds(full: map<nat, Cartridge>, address: nat, barcode: string) {
    address in full && full[address].tag == Some(barcode)
  }

  predicate IsDataTape(full: map<nat, Cartridge>, address: nat, barcode: string) {
    Holds(full, address, barcode) && !full[address].cleaning
  }

  // ------------------------------------------------------------ conservation

  predicate Distinct(full: map<nat, Cartridge>) {
    forall a, b :: a in full && b in full && full[a].id == full[b].id ==> a == b
  }

  function AfterMove(full: map<nat, Cartridge>, source: nat, dest: nat): map<nat, Cartridge>
    requires source in full
  {
    (full - {source})[dest := full[source]]
  }

  /** The same cartridges, each in one place. */
  ghost predicate Conserved(before: map<nat, Cartridge>, after: map<nat, Cartridge>) {
    Distinct(after) && after.Values == before.Values && |after| == |before|
  }

  lemma MoveConserves(full: map<nat, Cartridge>, source: nat, dest: nat)
    requires source in full && dest !in full && Distinct(full)
    ensures Conserved(full, AfterMove(full, source, dest))
  {
    var after := AfterMove(full, source, dest);
    assert after.Keys == full.Keys - {source} + {dest};
    forall c
      ensures c in after.Values <==> c in full.Values
    {
      if c in full.Values {
        var a :| a in full && full[a] == c;
        assert after[if a == source then dest else a] == c;
      }
      if c in after.Values {
        var a :| a in after && after[a] == c;
        assert full[if a == dest then source else a] == c;
      }
    }
  }

  lemma ConservedSame(full: map<nat, Cartridge>)
    requires Distinct(full)
    ensures Conserved(full, full)
  {
  }

  lemma ConservedChain(a: map<nat, Cartridge>, b: map<nat, Cartridge>, c: map<nat, Cartridge>)
    requires Conserved(a, b) && Conserved(b, c)
    ensures Conserved(a, c)
  {
  }

  // -------------------------------------------------------- why things move

  /** What a MOVE is for. `eligible` are the drives enabled for the operation's role. */
  datatype Reason =
    | Mounting(drive: nat, barcode: string, eligible: set<nat>)
    | Evicting(drive: nat, barcode: string, eligible: set<nat>)
    | Limiting(drive: nat, barcode: string)
    | Returning(drive: nat)

  /** A MOVE as it was issued, with the inventory and policy of that moment. */
  datatype Move = Move(
    source: nat, dest: nat, why: Reason, before: map<nat, Cartridge>, policy: Policy,
    changerChecked: bool, driveChecked: Option<nat>)

  /** Why drive `why.drive` may be emptied. */
  predicate MayEmpty(drives: seq<nat>, full: map<nat, Cartridge>, p: Policy, why: Reason) {
    why.drive < |drives| && Emptied(drives, full, why).Some? &&
    match why
    case Mounting(_, _, _) => false
    case Evicting(_, barcode, eligible) =>
      Allowed(p, Emptied(drives, full, why).value) &&
      forall j :: j in eligible ==> j < |drives| && drives[j] in full && full[drives[j]].tag != Some(barcode)
    case Limiting(_, barcode) => barcode in p.volumes && SamePool(p, Emptied(drives, full, why).value, barcode)
    case Returning(_) => true
  }

  function Emptied(drives: seq<nat>, full: map<nat, Cartridge>, why: Reason): Option<string>
    requires why.drive < |drives|
  {
    if drives[why.drive] in full then full[drives[why.drive]].tag else None
  }

  predicate SamePool(p: Policy, other: string, barcode: string) {
    other in p.volumes && barcode in p.volumes && p.volumes[other].pool == p.volumes[barcode].pool
  }

  /** Every MOVE goes from a full element to an empty one, right after both
      reservations were verified, and for one of the admitted reasons. */
  predicate Justified(drives: seq<nat>, kinds: map<nat, Kind>, mv: Move) {
    mv.source in mv.before && mv.dest !in mv.before && mv.changerChecked && mv.driveChecked == Some(mv.why.drive) &&
    mv.why.drive < |drives| &&
    match mv.why
    case Mounting(i, barcode, eligible) =>
      i in eligible && mv.dest == drives[i] && Allowed(mv.policy, barcode) && Holds(mv.before, mv.source, barcode) &&
      mv.source == mv.policy.volumes[barcode].home
    case _ =>
      mv.source == drives[mv.why.drive] && MayEmpty(drives, mv.before, mv.policy, mv.why) &&
      var b := mv.before[mv.source].tag.value;
      b in mv.policy.volumes && mv.dest == mv.policy.volumes[b].home && mv.dest in kinds && kinds[mv.dest] == Storage
  }

  lemma JustifiedMoves(drives: seq<nat>, kinds: map<nat, Kind>, mv: Move)
    requires Justified(drives, kinds, mv)
    ensures mv.source in mv.before && mv.dest !in mv.before && mv.changerChecked && mv.driveChecked == Some(mv.why.drive)
  {
  }

  predicate SameAt(before: map<nat, Cartridge>, after: map<nat, Cartridge>, address: nat) {
    (address in after <==> address in before) && (address in before ==> after[address] == before[address])
  }

  // ------------------------------------------------------------- returning a tape

  /** A MOVE may fail before or after the medium was moved. */
  datatype MoveOutcome = Completed | NotMoved | MovedThenFailed

  /** How the steps of returning a tape went. */
  datatype ReturnAnswers = ReturnAnswers(
    inventory: bool, changer: bool, drive: bool, unload: bool, changerAgain: bool, driveAgain: bool, outcome: MoveOutcome)

  /** Where the cartridges are after some MOVEs, those MOVEs, and whether all went well. */
  datatype Outcome = Outcome(full: map<nat, Cartridge>, moves: seq<Move>, ok: bool)

  /** The tape at `address` is assigned and its home slot is an empty storage slot. */
  predicate MayGoHome(kinds: map<nat, Kind>, full: map<nat, Cartridge>, p: Policy, address: nat) {
    address in full && full[address].tag.Some? && full[address].tag.value in p.volumes &&
    var home := p.volumes[full[address].tag.value].home;
    home in kinds && kinds[home] == Storage && home !in full
  }

  predicate Checked(a: ReturnAnswers) {
    a.changer && a.drive && a.unload && a.changerAgain && a.driveAgain
  }

  /** `return_drive`: at most one MOVE, from the drive to the recorded home slot. */
  function Return(kinds: map<nat, Kind>, full: map<nat, Cartridge>, p: Policy, address: nat, a: ReturnAnswers, why: Reason): Outcome {
    if !a.inventory then Outcome(full, [], false)
    else if address !in full then Outcome(full, [], true)
    else if !MayGoHome(kinds, full, p, address) || !Checked(a) then Outcome(full, [], false)
    else
      var home := p.volumes[full[address].tag.value].home;
      Outcome(if a.outcome.NotMoved? then full else AfterMove(full, address, home),
              [Move(address, home, why, full, p, true, Some(why.drive))], a.outcome.Completed?)
  }

  /** Success empties the drive, and no other drive changes in any case. */
  lemma ReturnEmpties(kinds: map<nat, Kind>, full: map<nat, Cartridge>, p: Policy, address: nat, a: ReturnAnswers, why: Reason)
    requires address in kinds && kinds[address] == DataTransfer
    ensures var o := Return(kinds, full, p, address, a, why);
            (o.ok ==> address !in o.full && (address in full ==> |o.moves| == 1)) &&
            forall b :: b in kinds && kinds[b] != Storage && b != address ==> SameAt(full, o.full, b)
  {
  }

  // ------------------------------------------------------------- the mount limit

  /** A drive holding a tape of the target's pool. */
  predicate IsMate(kinds: map<nat, Kind>, full: map<nat, Cartridge>, p: Policy, barcode: string, a: nat) {
    a in kinds && kinds[a] == DataTransfer && a in full && full[a].tag.Some? && SamePool(p, full[a].tag.value, barcode)
  }

  /** Those drives, in the order of the inventory. */
  function Mates(order: seq<nat>, kinds: map<nat, Kind>, full: map<nat, Cartridge>, p: Policy, barcode: string): seq<nat> {
    if order == [] then []
    else
      var rest, a := Mates(order[..|order| - 1], kinds, full, p, barcode), order[|order| - 1];
      if IsMate(kinds, full, p, barcode, a) then rest + [a] else rest
  }

  predicate NoRepeats(s: seq<nat>) {
    forall i, j :: 0 <= i < j < |s| ==> s[i] != s[j]
  }

  lemma {:induction false} MatesAreMates(order: seq<nat>, kinds: map<nat, Kind>, full: map<nat, Cartridge>, p: Policy, barcode: string)
    ensures forall k :: 0 <= k < |Mates(order, kinds, full, p, barcode)| ==>
              Mates(order, kinds, full, p, barcode)[k] in order && IsMate(kinds, full, p, barcode, Mates(order, kinds, full, p, barcode)[k])
    ensures forall a :: a in order && IsMate(kinds, full, p, barcode, a) ==> a in Mates(order, kinds, full, p, barcode)
    ensures NoRepeats(order) ==> NoRepeats(Mates(order, kinds, full, p, barcode))
    decreases |order|
  {
    if order != [] {
      var init, last := order[..|order| - 1], order[|order| - 1];
      MatesAreMates(init, kinds, full, p, barcode);
      assert order == init + [last];
      var rest := Mates(init, kinds, full, p, barcode);
      forall a | a in order && IsMate(kinds, full, p, barcode, a)
        ensures a in Mates(order, kinds, full, p, barcode)
      {
        assert a in init || a == last;
      }
      if NoRepeats(order) {
        assert NoRepeats(init) && last !in init;
      }
    }
  }

  lemma {:induction false} SameMates(order: seq<nat>, kinds: map<nat, Kind>, full: map<nat, Cartridge>, after: map<nat, Cartridge>, p: Policy,
                                     barcode: string)
    requires forall a :: a in order ==> (IsMate(kinds, after, p, barcode, a) <==> IsMate(kinds, full, p, barcode, a))
    ensures Mates(order, kinds, after, p, barcode) == Mates(order, kinds, full, p, barcode)
    decreases |order|
  {
    if order != [] { SameMates(order[..|order| - 1], kinds, full, after, p, barcode); }
  }

  /** When the last mate leaves, the others are what remains. */
  lemma {:induction false} LastMateLeaves(order: seq<nat>, kinds: map<nat, Kind>, full: map<nat, Cartridge>, after: map<nat, Cartridge>,
                                          p: Policy, barcode: string)
    requires NoRepeats(order) && Mates(order, kinds, full, p, barcode) != []
    requires var mates := Mates(order, kinds, full, p, barcode);
             forall a :: a in order ==>
               (IsMate(kinds, after, p, barcode, a) <==> IsMate(kinds, full, p, barcode, a) && a != mates[|mates| - 1])
    ensures var mates := Mates(order, kinds, full, p, barcode); Mates(order, kinds, after, p, barcode) == mates[..|mates| - 1]
    decreases |order|
  {
    var init, last := order[..|order| - 1], order[|order| - 1];
    assert NoRepeats(init) && last !in init;
    if IsMate(kinds, full, p, barcode, last) {
      SameMates(init, kinds, full, after, p, barcode);
    } else {
      LastMateLeaves(init, kinds, full, after, p, barcode);
    }
  }

  function Limit(p: Policy, barcode: string): nat
    requires barcode in p.volumes
  {
    if p.volumes[barcode].pool in p.limits then p.limits[p.volumes[barcode].pool] else 0
  }

  /** The first element in inventory order that holds the tape. */
  function Find(order: seq<nat>, full: map<nat, Cartridge>, barcode: string): Option<nat> {
    if order == [] then None else if Holds(full, order[0], barcode) then Some(order[0]) else Find(order[1..], full, barcode)
  }

  lemma {:induction false} FindsFirst(order: seq<nat>, full: map<nat, Cartridge>, barcode: string, k: nat)
    requires k < |order| && Holds(full, order[k], barcode) && forall j :: 0 <= j < k ==> !Holds(full, order[j], barcode)
    ensures Find(order, full, barcode) == Some(order[k])
    decreases k
  {
    if k > 0 { FindsFirst(order[1..], full, barcode, k - 1); }
  }

  lemma {:induction false} FindsNone(order: seq<nat>, full: map<nat, Cartridge>, barcode: string)
    requires forall j :: 0 <= j < |order| ==> !Holds(full, order[j], barcode)
    ensures Find(order, full, barcode).None?
    decreases |order|
  {
    if order != [] { FindsNone(order[1..], full, barcode); }
  }

  predicate InDrive(kinds: map<nat, Kind>, full: map<nat, Cartridge>, barcode: string) {
    exists a :: a in full && a in kinds && kinds[a] == DataTransfer && Holds(full, a, barcode)
  }

  /** The drives the limit empties: the last ones in inventory order, so that with the
      target the pool has as many tapes mounted as it may. None if there is no limit or
      the target is mounted already. */
  function Victims(order: seq<nat>, kinds: map<nat, Kind>, full: map<nat, Cartridge>, p: Policy, barcode: string): seq<nat>
    requires barcode in p.volumes
  {
    var limit, mates := Limit(p, barcode), Mates(order, kinds, full, p, barcode);
    if limit == 0 || InDrive(kinds, full, barcode) || |mates| < limit then [] else mates[limit - 1..]
  }

  /** Empty the last of `mates` until `keep` are left; only drives this instance has taken. */
  function ReturnDown(kinds: map<nat, Kind>, drives: seq<nat>, claimed: seq<bool>, full: map<nat, Cartridge>, p: Policy, barcode: string,
                      mates: seq<nat>, keep: nat, answers: nat -> ReturnAnswers): Outcome
    requires |claimed| == |drives|
    decreases |mates|
  {
    if |mates| <= keep then Outcome(full, [], true)
    else
      var address := mates[|mates| - 1];
      var i := Position(drives, address);
      if i.None? || !claimed[i.value] then Outcome(full, [], false)
      else
        var o := Return(kinds, full, p, address, answers(i.value), Limiting(i.value, barcode));
        if !o.ok then o
        else
          var rest := ReturnDown(kinds, drives, claimed, o.full, p, barcode, mates[..|mates| - 1], keep, answers);
          Outcome(rest.full, o.moves + rest.moves, rest.ok)
  }

  function Position(drives: seq<nat>, address: nat): (i: Option<nat>)
    ensures i.Some? ==> i.value < |drives| && drives[i.value] == address
    ensures i.None? ==> address !in drives
  {
    if drives == [] then None
    else if drives[0] == address then Some(0)
    else
      var rest := Position(drives[1..], address);
      if rest.Some? then Some(rest.value + 1) else None
  }

  /** The MOVEs are those of the mates taken from the end, one each, for the limit. */
  ghost predicate TakenInOrder(moves: seq<Move>, drives: seq<nat>, full: map<nat, Cartridge>, p: Policy, barcode: string, victims: seq<nat>) {
    |moves| <= |victims| &&
    forall k :: 0 <= k < |moves| ==>
      var v := victims[|victims| - 1 - k];
      moves[k].source == v && moves[k].why.Limiting? && moves[k].why.barcode == barcode && moves[k].why.drive < |drives| &&
      drives[moves[k].why.drive] == v && moves[k].policy == p && v in moves[k].before && v in full && moves[k].before[v] == full[v]
  }

  /** What the limit does to the inventory. */
  ghost predicate LimitedTo(kinds: map<nat, Kind>, before: map<nat, Cartridge>, after: map<nat, Cartridge>, victims: seq<nat>) {
    forall a :: a in kinds && kinds[a] != Storage && a !in victims ==> SameAt(before, after, a)
  }

  lemma TakeOneMore(first: Move, rest: seq<Move>, drives: seq<nat>, full: map<nat, Cartridge>, mid: map<nat, Cartridge>, p: Policy,
                    barcode: string, victims: seq<nat>)
    requires victims != [] && NoRepeats(victims) && TakenInOrder([first], drives, full, p, barcode, victims)
    requires TakenInOrder(rest, drives, mid, p, barcode, victims[..|victims| - 1])
    requires forall k :: 0 <= k < |victims| - 1 ==> SameAt(full, mid, victims[k])
    ensures TakenInOrder([first] + rest, drives, full, p, barcode, victims)
  {
    var last := |victims| - 1;
    forall k | 0 < k < |rest| + 1
      ensures ([first] + rest)[k] == rest[k - 1] && victims[last - k] == victims[..last][last - 1 - (k - 1)]
    {
    }
  }

  lemma {:induction false} ReturnsFromTheEnd(kinds: map<nat, Kind>, drives: seq<nat>, claimed: seq<bool>, full: map<nat, Cartridge>, p: Policy,
                                             barcode: string, mates: seq<nat>, keep: nat, answers: nat -> ReturnAnswers)
    requires |claimed| == |drives| && NoRepeats(mates) && keep <= |mates|
    requires forall k :: 0 <= k < |mates| ==> IsMate(kinds, full, p, barcode, mates[k])
    ensures var o := ReturnDown(kinds, drives, claimed, full, p, barcode, mates, keep, answers);
            LimitedTo(kinds, full, o.full, mates[keep..]) && TakenInOrder(o.moves, drives, full, p, barcode, mates[keep..]) &&
            (o.ok ==> |o.moves| == |mates| - keep && forall k :: keep <= k < |mates| ==> mates[k] !in o.full)
    decreases |mates|
  {
    hide Return, TakenInOrder, LimitedTo, IsMate;
    NothingTaken(kinds, drives, full, p, barcode, mates[keep..]);
    if |mates| > keep {
      var last := |mates| - 1;
      var address, victims := mates[last], mates[keep..];
      MateIsInDrive(kinds, full, p, barcode, address);
      var i := Position(drives, address);
      if i.Some? && claimed[i.value] {
        var why := Limiting(i.value, barcode);
        var o := Return(kinds, full, p, address, answers(i.value), why);
        ReturnEmpties(kinds, full, p, address, answers(i.value), why);
        FirstTaken(kinds, drives, full, p, barcode, victims, i.value, answers(i.value));
        LimitedOnce(kinds, full, o.full, victims);
        if o.ok {
          OthersAreMates(kinds, full, p, barcode, mates, answers(i.value), i.value);
          ReturnsFromTheEnd(kinds, drives, claimed, o.full, p, barcode, mates[..last], keep, answers);
          assert mates[..last][keep..] == victims[..|victims| - 1];
          var rest := ReturnDown(kinds, drives, claimed, o.full, p, barcode, mates[..last], keep, answers);
          assert o.moves == [o.moves[0]];
          forall k | 0 <= k < |victims| - 1
            ensures SameAt(full, o.full, victims[k])
          {
            MateIsInDrive(kinds, full, p, barcode, mates[keep + k]);
          }
          TakeOneMore(o.moves[0], rest.moves, drives, full, o.full, p, barcode, victims);
          LimitedChain(kinds, full, o.full, rest.full, victims);
          StaysAway(kinds, o.full, rest.full, victims, address);
        }
      }
    }
  }

  lemma NothingTaken(kinds: map<nat, Kind>, drives: seq<nat>, full: map<nat, Cartridge>, p: Policy, barcode: string, victims: seq<nat>)
    ensures TakenInOrder([], drives, full, p, barcode, victims) && LimitedTo(kinds, full, full, victims)
  {
  }

  lemma MateIsInDrive(kinds: map<nat, Kind>, full: map<nat, Cartridge>, p: Policy, barcode: string, a: nat)
    requires IsMate(kinds, full, p, barcode, a)
    ensures a in kinds && kinds[a] == DataTransfer && a in full
  {
  }

  lemma LimitedOnce(kinds: map<nat, Kind>, full: map<nat, Cartridge>, after: map<nat, Cartridge>, victims: seq<nat>)
    requires victims != []
    requires forall b :: b in kinds && kinds[b] != Storage && b != victims[|victims| - 1] ==> SameAt(full, after, b)
    ensures LimitedTo(kinds, full, after, victims)
  {
  }

  lemma FirstTaken(kinds: map<nat, Kind>, drives: seq<nat>, full: map<nat, Cartridge>, p: Policy, barcode: string, victims: seq<nat>, i: nat,
                   a: ReturnAnswers)
    requires victims != [] && i < |drives| && drives[i] == victims[|victims| - 1] && drives[i] in full
    ensures TakenInOrder(Return(kinds, full, p, drives[i], a, Limiting(i, barcode)).moves, drives, full, p, barcode, victims)
  {
  }

  lemma LimitedChain(kinds: map<nat, Kind>, full: map<nat, Cartridge>, mid: map<nat, Cartridge>, after: map<nat, Cartridge>, victims: seq<nat>)
    requires victims != [] && LimitedTo(kinds, mid, after, victims[..|victims| - 1])
    requires forall b :: b in kinds && kinds[b] != Storage && b != victims[|victims| - 1] ==> SameAt(full, mid, b)
    ensures LimitedTo(kinds, full, after, victims)
  {
    forall a | a in kinds && kinds[a] != Storage && a !in victims
      ensures SameAt(full, after, a)
    {
      assert a != victims[|victims| - 1] && a !in victims[..|victims| - 1];
      assert SameAt(full, mid, a);
    }
  }

  lemma StaysAway(kinds: map<nat, Kind>, mid: map<nat, Cartridge>, after: map<nat, Cartridge>, victims: seq<nat>, address: nat)
    requires victims != [] && NoRepeats(victims) && LimitedTo(kinds, mid, after, victims[..|victims| - 1]) && address == victims[|victims| - 1]
    requires address in kinds && kinds[address] != Storage && address !in mid
    ensures address !in after
  {
    assert address !in victims[..|victims| - 1];
    assert SameAt(mid, after, address);
  }

  /** `enforce_mount_limit` */
  function Limited(order: seq<nat>, kinds: map<nat, Kind>, drives: seq<nat>, claimed: seq<bool>, full: map<nat, Cartridge>, p: Policy,
                   barcode: string, inventory: bool, answers: nat -> ReturnAnswers): Outcome
    requires |claimed| == |drives| && barcode in p.volumes
  {
    var limit, source := Limit(p, barcode), Find(order, full, barcode);
    if limit == 0 then Outcome(full, [], true)
    else if !inventory || source.None? then Outcome(full, [], false)
    else if (source.value !in kinds || kinds[source.value] != DataTransfer) && source.value != p.volumes[barcode].home then Outcome(full, [], false)
    else if InDrive(kinds, full, barcode) then Outcome(full, [], true)
    else ReturnDown(kinds, drives, claimed, full, p, barcode, Mates(order, kinds, full, p, barcode), limit - 1, answers)
  }

  /** Only the victims are returned, in their order; success returns them all. */
  lemma LimitTakesVictims(order: seq<nat>, kinds: map<nat, Kind>, drives: seq<nat>, claimed: seq<bool>, full: map<nat, Cartridge>, p: Policy,
                          barcode: string, inventory: bool, answers: nat -> ReturnAnswers)
    requires |claimed| == |drives| && barcode in p.volumes && NoRepeats(order)
    ensures var o, victims := Limited(order, kinds, drives, claimed, full, p, barcode, inventory, answers), Victims(order, kinds, full, p, barcode);
            LimitedTo(kinds, full, o.full, victims) && TakenInOrder(o.moves, drives, full, p, barcode, victims) &&
            (o.ok ==> |o.moves| == |victims| && forall k :: 0 <= k < |victims| ==> victims[k] !in o.full)
  {
    hide InDrive;
    var limit, mates := Limit(p, barcode), Mates(order, kinds, full, p, barcode);
    MatesAreMates(order, kinds, full, p, barcode);
    if limit > 0 && |mates| >= limit { ReturnsFromTheEnd(kinds, drives, claimed, full, p, barcode, mates, limit - 1, answers); }
  }

  predicate TookAllowed(p: Policy, mv: Move) {
    mv.source in mv.before && mv.before[mv.source].tag.Some? && Allowed(p, mv.before[mv.source].tag.value)
  }

  lemma TakenAllowed(moves: seq<Move>, drives: seq<nat>, full: map<nat, Cartridge>, p: Policy, barcode: string, victims: seq<nat>)
    requires TakenInOrder(moves, drives, full, p, barcode, victims) && |moves| == |victims|
    requires forall k :: 0 <= k < |victims| ==> victims[k] in full && full[victims[k]].tag.Some?
    ensures (forall k :: 0 <= k < |moves| ==> TookAllowed(p, moves[k])) <==>
            (forall k :: 0 <= k < |victims| ==> Allowed(p, full[victims[k]].tag.value))
  {
    var n := |victims|;
    forall k | 0 <= k < n
      ensures moves[n - 1 - k].source == victims[k] && moves[n - 1 - k].before[victims[k]] == full[victims[k]]
    {
      assert victims[n - 1 - (n - 1 - k)] == victims[k];
    }
    if forall k :: 0 <= k < n ==> Allowed(p, full[victims[k]].tag.value) {
      forall k | 0 <= k < n
        ensures TookAllowed(p, moves[k])
      {
        assert moves[n - 1 - (n - 1 - k)] == moves[k];
      }
    } else {
      var k :| 0 <= k < n && !Allowed(p, full[victims[k]].tag.value);
      assert moves[n - 1 - k].source == victims[k];
    }
  }

  lemma VictimsAreMates(order: seq<nat>, kinds: map<nat, Kind>, full: map<nat, Cartridge>, p: Policy, barcode: string)
    requires barcode in p.volumes
    ensures var victims := Victims(order, kinds, full, p, barcode);
            forall k :: 0 <= k < |victims| ==> IsMate(kinds, full, p, barcode, victims[k])
  {
    MatesAreMates(order, kinds, full, p, barcode);
  }

  /** When the limit is met, the tapes it returned were all allowed exactly when those
      in the victims' drives are, which can be looked up before; blacklisted or
      offline ones are returned like any other. */
  lemma LimitSparesExactly(order: seq<nat>, kinds: map<nat, Kind>, drives: seq<nat>, claimed: seq<bool>, full: map<nat, Cartridge>, p: Policy,
                           barcode: string, inventory: bool, answers: nat -> ReturnAnswers)
    requires |claimed| == |drives| && barcode in p.volumes && NoRepeats(order)
    requires Limited(order, kinds, drives, claimed, full, p, barcode, inventory, answers).ok
    ensures var o, victims := Limited(order, kinds, drives, claimed, full, p, barcode, inventory, answers), Victims(order, kinds, full, p, barcode);
            (forall k :: 0 <= k < |victims| ==> victims[k] in full && full[victims[k]].tag.Some?) &&
            ((forall k :: 0 <= k < |o.moves| ==> TookAllowed(p, o.moves[k])) <==>
             (forall k :: 0 <= k < |victims| ==> Allowed(p, full[victims[k]].tag.value)))
  {
    hide Limited, TookAllowed, Allowed, TakenInOrder, Victims;
    VictimsAreMates(order, kinds, full, p, barcode);
    LimitTakesVictims(order, kinds, drives, claimed, full, p, barcode, inventory, answers);
    TakenAllowed(Limited(order, kinds, drives, claimed, full, p, barcode, inventory, answers).moves, drives, full, p, barcode,
                 Victims(order, kinds, full, p, barcode));
  }

  lemma {:induction false} MatesLeft(order: seq<nat>, kinds: map<nat, Kind>, drives: seq<nat>, claimed: seq<bool>, full: map<nat, Cartridge>,
                                     p: Policy, barcode: string, keep: nat, answers: nat -> ReturnAnswers)
    requires |claimed| == |drives| && NoRepeats(order)
    ensures var mates := Mates(order, kinds, full, p, barcode);
            var o := ReturnDown(kinds, drives, claimed, full, p, barcode, mates, keep, answers);
            o.ok ==> |Mates(order, kinds, o.full, p, barcode)| <= keep
    decreases |Mates(order, kinds, full, p, barcode)|
  {
    hide Return, NoRepeats;
    var mates := Mates(order, kinds, full, p, barcode);
    MatesAreMates(order, kinds, full, p, barcode);
    if |mates| > keep {
      var address := mates[|mates| - 1];
      var i := Position(drives, address);
      if i.Some? && claimed[i.value] {
        var o := Return(kinds, full, p, address, answers(i.value), Limiting(i.value, barcode));
        ReturnEmpties(kinds, full, p, address, answers(i.value), Limiting(i.value, barcode));
        if o.ok {
          LastMateLeaves(order, kinds, full, o.full, p, barcode);
          MatesLeft(order, kinds, drives, claimed, o.full, p, barcode, keep, answers);
        }
      }
    }
  }

  /** Success leaves room for one more tape of the pool, unless the target is mounted. */
  lemma LimitMakesRoom(order: seq<nat>, kinds: map<nat, Kind>, drives: seq<nat>, claimed: seq<bool>, full: map<nat, Cartridge>, p: Policy,
                       barcode: string, inventory: bool, answers: nat -> ReturnAnswers)
    requires |claimed| == |drives| && barcode in p.volumes && NoRepeats(order)
    ensures var o := Limited(order, kinds, drives, claimed, full, p, barcode, inventory, answers);
            o.ok && Limit(p, barcode) > 0 && !InDrive(kinds, full, barcode) ==> |Mates(order, kinds, o.full, p, barcode)| < Limit(p, barcode)
  {
    hide InDrive, ReturnDown;
    if Limit(p, barcode) > 0 {
      MatesLeft(order, kinds, drives, claimed, full, p, barcode, Limit(p, barcode) - 1, answers);
    }
  }

  /** Drives this instance has not taken are not emptied for the limit. */
  lemma {:induction false} OnlyOwnReturned(kinds: map<nat, Kind>, drives: seq<nat>, claimed: seq<bool>, full: map<nat, Cartridge>, p: Policy,
                                           barcode: string, mates: seq<nat>, keep: nat, answers: nat -> ReturnAnswers)
    requires |claimed| == |drives| && forall k :: 0 <= k < |mates| ==> mates[k] in kinds && kinds[mates[k]] == DataTransfer
    requires forall k :: 0 <= k < |drives| ==> drives[k] in kinds && kinds[drives[k]] == DataTransfer
    requires NoRepeats(drives)
    ensures OthersUntouched(drives, claimed, full, ReturnDown(kinds, drives, claimed, full, p, barcode, mates, keep, answers).full)
    decreases |mates|
  {
    hide Return;
    if |mates| > keep {
      var address := mates[|mates| - 1];
      var i := Position(drives, address);
      if i.Some? && claimed[i.value] {
        var o := Return(kinds, full, p, address, answers(i.value), Limiting(i.value, barcode));
        ReturnEmpties(kinds, full, p, address, answers(i.value), Limiting(i.value, barcode));
        OnlyOwnReturned(kinds, drives, claimed, o.full, p, barcode, mates[..|mates| - 1], keep, answers);
      }
    }
  }

  /** Drives this instance has not taken keep what is in them. */
  ghost predicate OthersUntouched(drives: seq<nat>, claimed: seq<bool>, before: map<nat, Cartridge>, after: map<nat, Cartridge>) {
    |claimed| == |drives| && forall k :: 0 <= k < |drives| && !claimed[k] ==> SameAt(before, after, drives[k])
  }

  lemma LimitSparesOthers(order: seq<nat>, kinds: map<nat, Kind>, drives: seq<nat>, claimed: seq<bool>, full: map<nat, Cartridge>, p: Policy,
                          barcode: string, inventory: bool, answers: nat -> ReturnAnswers)
    requires |claimed| == |drives| && barcode in p.volumes && NoRepeats(drives)
    requires forall k :: 0 <= k < |drives| ==> drives[k] in kinds && kinds[drives[k]] == DataTransfer
    ensures OthersUntouched(drives, claimed, full, Limited(order, kinds, drives, claimed, full, p, barcode, inventory, answers).full)
  {
    hide InDrive, ReturnDown;
    MatesAreMates(order, kinds, full, p, barcode);
    var mates := Mates(order, kinds, full, p, barcode);
    if Limit(p, barcode) > 0 {
      OnlyOwnReturned(kinds, drives, claimed, full, p, barcode, mates, Limit(p, barcode) - 1, answers);
    }
  }

  // -------------------------------------------------------------- the selection

  /** How the steps of a selection went; `go(n)`: nothing failed or was cancelled at point n. */
  datatype SelectAnswers = SelectAnswers(
    go: nat -> bool, limit: nat -> ReturnAnswers, changer: bool, drive: bool, evict: ReturnAnswers,
    moveChanger: bool, moveDrive: bool, outcome: MoveOutcome, ready: bool)

  predicate NoneHolds(drives: seq<nat>, full: map<nat, Cartridge>, barcode: string, eligible: set<nat>, before: nat) {
    forall k :: k in eligible && k < |drives| && k < before ==> !Holds(full, drives[k], barcode)
  }

  predicate NoneEmpty(drives: seq<nat>, full: map<nat, Cartridge>, eligible: set<nat>, before: nat) {
    forall k :: k in eligible && k < |drives| && k < before ==> drives[k] in full
  }

  /** The drive's tape may be evicted. */
  predicate Evictable(drives: seq<nat>, full: map<nat, Cartridge>, p: Policy, i: nat) {
    i < |drives| && drives[i] in full && full[drives[i]].tag.Some? && Allowed(p, full[drives[i]].tag.value)
  }

  /** Drive `i` is the right choice: the first that holds the tape; or none does and it is
      the first empty one; or none is empty either and it is the first whose tape may be
      evicted. */
  predicate Chosen(drives: seq<nat>, full: map<nat, Cartridge>, p: Policy, barcode: string, eligible: set<nat>, i: nat)
    requires i < |drives|
  {
    || (Holds(full, drives[i], barcode) && NoneHolds(drives, full, barcode, eligible, i))
    || (NoneHolds(drives, full, barcode, eligible, |drives|) && drives[i] !in full && NoneEmpty(drives, full, eligible, i))
    || (NoneHolds(drives, full, barcode, eligible, |drives|) && NoneEmpty(drives, full, eligible, |drives|) && Evictable(drives, full, p, i) &&
        forall k :: k in eligible && k < i ==> !Evictable(drives, full, p, k))
  }

  lemma OneIsChosen(drives: seq<nat>, full: map<nat, Cartridge>, p: Policy, barcode: string, eligible: set<nat>, i: nat, j: nat)
    requires i < |drives| && j < |drives| && i in eligible && j in eligible
    requires Chosen(drives, full, p, barcode, eligible, i) && Chosen(drives, full, p, barcode, eligible, j)
    ensures i == j
  {
    hide Allowed;
  }

  lemma AllowedIsAssigned(p: Policy, barcode: string)
    requires Allowed(p, barcode)
    ensures barcode in p.volumes
  {
  }

  lemma ChosenMayLeave(drives: seq<nat>, full: map<nat, Cartridge>, p: Policy, barcode: string, eligible: set<nat>, i: nat)
    requires i < |drives| && Chosen(drives, full, p, barcode, eligible, i) && drives[i] in full && full[drives[i]].tag != Some(barcode)
    requires i in eligible && forall k :: k in eligible ==> k < |drives|
    ensures MayEmpty(drives, full, p, Evicting(i, barcode, eligible))
  {
    hide Allowed;
    forall j | j in eligible
      ensures drives[j] in full && full[drives[j]].tag != Some(barcode)
    {
      assert !Holds(full, drives[j], barcode);
    }
  }

  /** The tape is in the drive, or in its home slot with the drive empty and every step of
      moving it good. */
  predicate MountWorks(full: map<nat, Cartridge>, p: Policy, barcode: string, drive: nat, a: SelectAnswers) {
    a.go(20) && a.go(30) &&
    (Holds(full, drive, barcode) ||
     (barcode in p.volumes && Holds(full, p.volumes[barcode].home, barcode) && drive !in full && a.moveChanger && a.moveDrive && a.outcome.Completed?))
  }

  /** The drive after an eviction, if another tape is in it. */
  function Cleared(kinds: map<nat, Kind>, drives: seq<nat>, full: map<nat, Cartridge>, p: Policy, barcode: string, eligible: set<nat>, i: nat,
                   a: SelectAnswers): Outcome
    requires i < |drives|
  {
    if drives[i] in full && full[drives[i]].tag != Some(barcode)
    then Return(kinds, full, p, drives[i], a.evict, Evicting(i, barcode, eligible)) else Outcome(full, [], true)
  }

  /** Drive `i` is the right choice and the tape is there or in its confirmed home slot. */
  ghost predicate Picked(order: seq<nat>, kinds: map<nat, Kind>, drives: seq<nat>, full: map<nat, Cartridge>, p: Policy, barcode: string,
                         eligible: set<nat>, i: nat) {
    i < |drives| && i in eligible && Chosen(drives, full, p, barcode, eligible, i) && Located(order, kinds, full, p, barcode, drives[i])
  }

  /** Once the limit has been dealt with: the tape ends up in drive `i`. */
  ghost predicate EndsIn(order: seq<nat>, kinds: map<nat, Kind>, drives: seq<nat>, full: map<nat, Cartridge>, p: Policy, barcode: string,
                         eligible: set<nat>, a: SelectAnswers, i: nat) {
    a.go(10) && Picked(order, kinds, drives, full, p, barcode, eligible, i) && a.changer && a.drive && a.ready &&
    var c := Cleared(kinds, drives, full, p, barcode, eligible, i, a);
    c.ok && MountWorks(c.full, p, barcode, drives[i], a)
  }

  /** When a selection ends with the tape in drive `i`. */
  ghost predicate Succeeds(order: seq<nat>, kinds: map<nat, Kind>, drives: seq<nat>, claimed: seq<bool>, full: map<nat, Cartridge>, p: Policy,
                           barcode: string, eligible: set<nat>, a: SelectAnswers, i: nat)
    requires |claimed| == |drives|
  {
    a.go(5) && a.go(8) && Allowed(p, barcode) && barcode in p.volumes &&
    (forall e :: e in full && full[e].tag == Some(barcode) ==> !full[e].cleaning) &&
    var limited := Limited(order, kinds, drives, claimed, full, p, barcode, a.go(9), a.limit);
    limited.ok && EndsIn(order, kinds, drives, limited.full, p, barcode, eligible, a, i)
  }

  lemma OneIsPicked(order: seq<nat>, kinds: map<nat, Kind>, drives: seq<nat>, full: map<nat, Cartridge>, p: Policy, barcode: string,
                    eligible: set<nat>, i: nat)
    requires Picked(order, kinds, drives, full, p, barcode, eligible, i)
    ensures forall j :: Picked(order, kinds, drives, full, p, barcode, eligible, j) ==> j == i
  {
    hide Chosen, Located;
    forall j | Picked(order, kinds, drives, full, p, barcode, eligible, j)
      ensures j == i
    {
      OneIsChosen(drives, full, p, barcode, eligible, i, j);
    }
  }

  /** For a MOVE that evicts: the tape was allowed to leave, and every enabled drive had
      another tape in it than the target. */
  predicate LastResort(drives: seq<nat>, mv: Move, barcode: string, eligible: set<nat>) {
    TookAllowed(mv.policy, mv) && forall j :: j in eligible ==> j < |drives| && drives[j] in mv.before && mv.before[drives[j]].tag != Some(barcode)
  }

  /** The MOVEs that bring a tape into drive `i`: at most one eviction from that drive,
      then at most one mount into it. */
  ghost predicate Placement(moves: seq<Move>, drives: seq<nat>, i: nat, barcode: string, eligible: set<nat>) {
    && |moves| <= 2
    && (forall k :: 0 <= k < |moves| ==> moves[k].why in {Evicting(i, barcode, eligible), Mounting(i, barcode, eligible)})
    && (forall k :: 0 <= k < |moves| && moves[k].why.Evicting? ==> LastResort(drives, moves[k], barcode, eligible))
    && (|moves| == 2 ==> moves[0].why.Evicting? && moves[1].why.Mounting?)
  }

  /** All MOVEs of a selection: those for the limit, then the placement. */
  ghost predicate Scheduled(moves: seq<Move>, drives: seq<nat>, full: map<nat, Cartridge>, p: Policy, barcode: string, victims: seq<nat>,
                            picked: Option<nat>, eligible: set<nat>) {
    exists n ::
      0 <= n <= |moves| && TakenInOrder(moves[..n], drives, full, p, barcode, victims) &&
      (if picked.Some? then Placement(moves[n..], drives, picked.value, barcode, eligible) else n == |moves|)
  }

  lemma ScheduledAs(moves: seq<Move>, limiting: seq<Move>, placing: seq<Move>, drives: seq<nat>, full: map<nat, Cartridge>, p: Policy,
                    barcode: string, victims: seq<nat>, picked: Option<nat>, eligible: set<nat>)
    requires moves == limiting + placing && TakenInOrder(limiting, drives, full, p, barcode, victims)
    requires if picked.Some? then Placement(placing, drives, picked.value, barcode, eligible) else placing == []
    ensures Scheduled(moves, drives, full, p, barcode, victims, picked, eligible)
  {
    assert moves[..|limiting|] == limiting && moves[|limiting|..] == placing;
  }

  /** Drives that are neither a victim of the limit nor the one picked keep their content. */
  ghost predicate OnlyThese(drives: seq<nat>, before: map<nat, Cartridge>, after: map<nat, Cartridge>, victims: seq<nat>, picked: Option<nat>) {
    forall k :: 0 <= k < |drives| && drives[k] !in victims && picked != Some(k) ==> SameAt(before, after, drives[k])
  }

  lemma MateMayLeave(kinds: map<nat, Kind>, drives: seq<nat>, full: map<nat, Cartridge>, p: Policy, barcode: string, i: nat)
    requires i < |drives| && IsMate(kinds, full, p, barcode, drives[i])
    ensures drives[i] in full && full[drives[i]].tag.Some? && MayEmpty(drives, full, p, Limiting(i, barcode))
  {
  }

  /** Every step of returning a tape goes well. */
  predicate Smooth(a: ReturnAnswers) {
    a.inventory && Checked(a) && a.outcome.Completed?
  }

  function HomeOfTape(full: map<nat, Cartridge>, p: Policy, address: nat): Option<nat> {
    if address in full && full[address].tag.Some? && full[address].tag.value in p.volumes then Some(p.volumes[full[address].tag.value].home) else None
  }

  /** The taken drives from `n` on are empty or hold tapes that can go home, each to a free
      slot of its own. */
  ghost predicate HomeFrom(kinds: map<nat, Kind>, drives: seq<nat>, claimed: seq<bool>, full: map<nat, Cartridge>, p: Policy, n: nat)
    requires |claimed| == |drives|
  {
    && (forall k :: n <= k < |drives| && claimed[k] && drives[k] in full ==> MayGoHome(kinds, full, p, drives[k]))
    && (forall j, k :: n <= j < k < |drives| && claimed[j] && claimed[k] && drives[j] in full && drives[k] in full ==>
          HomeOfTape(full, p, drives[j]) != HomeOfTape(full, p, drives[k]))
  }

  ghost predicate MayClose(kinds: map<nat, Kind>, drives: seq<nat>, claimed: seq<bool>, full: map<nat, Cartridge>, p: Policy,
                           answers: nat -> CloseAnswers) {
    |claimed| == |drives| && HomeFrom(kinds, drives, claimed, full, p, 0) &&
    forall i: nat :: answers(i).held && Smooth(answers(i).back) && answers(i).released
  }

  lemma OneGoesHome(kinds: map<nat, Kind>, drives: seq<nat>, claimed: seq<bool>, full: map<nat, Cartridge>, p: Policy, n: nat, a: ReturnAnswers,
                    why: Reason)
    requires |claimed| == |drives| && n < |drives| && HomeFrom(kinds, drives, claimed, full, p, n) && Smooth(a) && NoRepeats(drives)
    requires forall k :: 0 <= k < |drives| ==> drives[k] in kinds && kinds[drives[k]] == DataTransfer
    ensures var o := Return(kinds, full, p, drives[n], a, why);
            (claimed[n] ==> o.ok && HomeFrom(kinds, drives, claimed, o.full, p, n + 1)) &&
            (!claimed[n] ==> HomeFrom(kinds, drives, claimed, full, p, n + 1))
  {
    var o := Return(kinds, full, p, drives[n], a, why);
    if claimed[n] && drives[n] in full {
      var home := HomeOfTape(full, p, drives[n]).value;
      assert MayGoHome(kinds, full, p, drives[n]) && o.full == AfterMove(full, drives[n], home);
      forall k | n < k < |drives| && claimed[k] && drives[k] in o.full
        ensures drives[k] in full && MayGoHome(kinds, o.full, p, drives[k]) && HomeOfTape(o.full, p, drives[k]) == HomeOfTape(full, p, drives[k])
      {
        assert drives[k] != home && drives[k] != drives[n];
        assert MayGoHome(kinds, full, p, drives[k]);
      }
    }
  }

  datatype CloseAnswers = CloseAnswers(held: bool, back: ReturnAnswers, released: bool)

  /** Only drives this instance had taken are emptied, to be given up. */
  ghost predicate OnlyReturning(moves: seq<Move>, claimed: seq<bool>) {
    forall k :: 0 <= k < |moves| ==> moves[k].why.Returning? && moves[k].why.drive < |claimed| && claimed[moves[k].why.drive]
  }

  // ---------------------------------------------------------------- the library

  class Library {
    const order: seq<nat>            // the elements in the order the changer reports them
    const kinds: map<nat, Kind>
    const drives: seq<nat>           // element addresses of the configured drives
    var full: map<nat, Cartridge>    // where the cartridges are
    var policy: Policy
    var claimedChanger: bool
    var claimed: seq<bool>
    var sessions: seq<Option<string>>
    var stopped: bool
    ghost var changerChecked: bool
    ghost var driveChecked: Option<nat>
    ghost var moves: seq<Move>

    ghost predicate Valid()
      reads this
    {
      && |claimed| == |drives| == |sessions|
      && NoRepeats(drives) && NoRepeats(order)
      && (forall i :: 0 <= i < |drives| ==> drives[i] in kinds && kinds[drives[i]] == DataTransfer)
      && Distinct(full)
      && (forall k :: 0 <= k < |moves| ==> Justified(drives, kinds, moves[k]))
    }

    constructor (order: seq<nat>, kinds: map<nat, Kind>, drives: seq<nat>, full: map<nat, Cartridge>, policy: Policy)
      requires NoRepeats(order) && NoRepeats(drives) && Distinct(full)
      requires forall i :: 0 <= i < |drives| ==> drives[i] in kinds && kinds[drives[i]] == DataTransfer
      ensures Valid() && !claimedChanger && moves == []
      ensures this.order == order && this.kinds == kinds && this.drives == drives && this.full == full && this.policy == policy
    {
      this.order, this.kinds, this.drives, this.full, this.policy := order, kinds, drives, full, policy;
      claimedChanger, stopped := false, false;
      claimed, sessions := seq(|drives|, _ => false), seq(|drives|, _ => None);
      changerChecked, driveChecked, moves := false, None, [];
    }

    // ---------------------------------------------------------------- devices

    method VerifyChanger(held: bool) returns (ok: bool)
      modifies `changerChecked
      ensures ok == held == changerChecked
    {
      changerChecked := held;
      return held;
    }

    method VerifyDrive(i: nat, held: bool) returns (ok: bool)
      modifies `driveChecked
      ensures ok == held && driveChecked == if held then Some(i) else None
    {
      driveChecked := if held then Some(i) else None;
      return held;
    }

    /** One MOVE MEDIUM; it uses up the reservation checks. */
    method MoveMedium(source: nat, dest: nat, outcome: MoveOutcome, ghost why: Reason) returns (ok: bool)
      requires Valid() && Justified(drives, kinds, Move(source, dest, why, full, policy, changerChecked, driveChecked))
      modifies `full, `moves, `changerChecked, `driveChecked
      ensures Valid() && Conserved(old(full), full) && ok == outcome.Completed?
      ensures full == if outcome.NotMoved? then old(full) else AfterMove(old(full), source, dest)
      ensures moves == old(moves) + [Move(source, dest, why, old(full), policy, true, Some(why.drive))]
    {
      hide Justified, Distinct, Conserved;
      ConservedSame(full);
      JustifiedMoves(drives, kinds, Move(source, dest, why, full, policy, changerChecked, driveChecked));
      MoveConserves(full, source, dest);
      moves := moves + [Move(source, dest, why, full, policy, changerChecked, driveChecked)];
      changerChecked, driveChecked := false, None;
      if !outcome.NotMoved? { full := AfterMove(full, source, dest); }
      return outcome.Completed?;
    }

    // ----------------------------------------------------------------- return

    /** `return_drive`: take the drive's tape back to its recorded home slot. */
    method ReturnDrive(i: nat, a: ReturnAnswers, ghost why: Reason) returns (ok: bool)
      requires Valid() && i < |drives| && why.drive == i && !why.Mounting?
      requires drives[i] in full && full[drives[i]].tag.Some? ==> MayEmpty(drives, full, policy, why)
      modifies `full, `moves, `changerChecked, `driveChecked
      ensures Valid() && Conserved(old(full), full)
      ensures var o := Return(kinds, old(full), policy, drives[i], a, why);
              full == o.full && moves == old(moves) + o.moves && ok == o.ok
    {
      hide Justified, Conserved, Distinct, MayEmpty;
      ConservedSame(full);
      if !a.inventory { return false; }
      var address := drives[i];
      if address !in full { return true; }
      if !MayGoHome(kinds, full, policy, address) { return false; }
      var home := policy.volumes[full[address].tag.value].home;
      ok := CheckAndUnload(i, a);
      if !ok { return; }
      ReturnIsJustified(kinds, drives, full, policy, i, why);
      ok := MoveMedium(address, home, a.outcome, why);
    }

    /** Both reservations are verified before the tape is unloaded and again after. */
    method CheckAndUnload(i: nat, a: ReturnAnswers) returns (ok: bool)
      modifies `changerChecked, `driveChecked
      ensures ok == Checked(a) && (ok ==> changerChecked && driveChecked == Some(i))
    {
      ok := VerifyChanger(a.changer);
      if !ok { return; }
      ok := VerifyDrive(i, a.drive);
      if !ok || !a.unload { return false; }
      changerChecked, driveChecked := false, None;
      ok := VerifyChanger(a.changerAgain);
      if !ok { return; }
      ok := VerifyDrive(i, a.driveAgain);
    }

    // -------------------------------------------------------------- mount limit

    method FindTape(barcode: string) returns (e: Option<nat>)
      ensures e == Find(order, full, barcode) && (e.Some? ==> Holds(full, e.value, barcode))
    {
      for k := 0 to |order|
        invariant forall j :: 0 <= j < k ==> !Holds(full, order[j], barcode)
      {
        if Holds(full, order[k], barcode) {
          FindsFirst(order, full, barcode, k);
          return Some(order[k]);
        }
      }
      FindsNone(order, full, barcode);
      return None;
    }

    method FindMates(barcode: string) returns (mates: seq<nat>)
      ensures mates == Mates(order, kinds, full, policy, barcode)
    {
      mates := [];
      for k := 0 to |order|
        invariant mates == Mates(order[..k], kinds, full, policy, barcode)
      {
        assert order[..k + 1][..k] == order[..k];
        if IsMate(kinds, full, policy, barcode, order[k]) { mates := mates + [order[k]]; }
      }
      assert order[..|order|] == order;
    }

    /** `enforce_mount_limit`: return tapes of the same pool, from drives of this
        instance only, until one more may be mounted. */
    method EnforceLimit(barcode: string, inventory: bool, answers: nat -> ReturnAnswers) returns (ok: bool)
      requires Valid() && barcode in policy.volumes
      modifies `full, `moves, `changerChecked, `driveChecked, `sessions
      ensures Valid() && Conserved(old(full), full)
      ensures var o := Limited(order, kinds, drives, claimed, old(full), policy, barcode, inventory, answers);
              full == o.full && moves == old(moves) + o.moves && ok == o.ok
      ensures ok && Limit(policy, barcode) > 0 && !InDrive(kinds, old(full), barcode) ==>
                |Mates(order, kinds, full, policy, barcode)| < Limit(policy, barcode)
      ensures OthersUntouched(drives, claimed, old(full), full)
    {
      hide Justified, Conserved, Distinct, Mates, IsMate, ReturnDown, OthersUntouched, NoRepeats;
      ConservedSame(full);
      LimitMakesRoom(order, kinds, drives, claimed, full, policy, barcode, inventory, answers);
      LimitSparesOthers(order, kinds, drives, claimed, full, policy, barcode, inventory, answers);
      var limit := Limit(policy, barcode);
      if limit == 0 { return true; }
      var source := FindTape(barcode);
      if !inventory || source.None? { return false; }
      if (source.value !in kinds || kinds[source.value] != DataTransfer) && source.value != policy.volumes[barcode].home { return false; }
      if exists a :: a in full && a in kinds && kinds[a] == DataTransfer && Holds(full, a, barcode) { return true; }
      ok := ReturnMates(barcode, limit - 1, answers);
    }

    method ReturnMates(barcode: string, keep: nat, answers: nat -> ReturnAnswers) returns (ok: bool)
      requires Valid() && barcode in policy.volumes
      modifies `full, `moves, `changerChecked, `driveChecked, `sessions
      ensures Valid() && Conserved(old(full), full)
      ensures var o := ReturnDown(kinds, drives, claimed, old(full), policy, barcode, Mates(order, kinds, old(full), policy, barcode), keep, answers);
              full == o.full && moves == old(moves) + o.moves && ok == o.ok
    {
      hide Justified, Conserved, Distinct, Return, IsMate, MayEmpty, ReturnDown, NoRepeats, Mates, SoFar;
      ConservedSame(full);
      var mates := FindMates(barcode);
      MatesAreMates(order, kinds, full, policy, barcode);
      ghost var whole := ReturnDown(kinds, drives, claimed, full, policy, barcode, mates, keep, answers);
      ghost var rest := whole;
      FarFromStart(moves, whole);
      while |mates| > keep
        invariant Valid() && Conserved(old(full), full) && NoRepeats(mates)
        invariant forall k :: 0 <= k < |mates| ==> IsMate(kinds, full, policy, barcode, mates[k])
        invariant SoFar(old(moves), whole, moves, ReturnDown(kinds, drives, claimed, full, policy, barcode, mates, keep, answers))
        decreases |mates|
      {
        var address := mates[|mates| - 1];
        var i := Position(drives, address);
        OneStepDown(kinds, drives, claimed, full, policy, barcode, mates, keep, answers);
        rest := ReturnDown(kinds, drives, claimed, full, policy, barcode, mates, keep, answers);
        FarEnough(old(moves), whole, moves, rest);
        if i.None? || !claimed[i.value] { return false; }
        ghost var before := full;
        MateMayLeave(kinds, drives, full, policy, barcode, i.value);
        ghost var o := Return(kinds, full, policy, address, answers(i.value), Limiting(i.value, barcode));
        ghost var left := ReturnDown(kinds, drives, claimed, o.full, policy, barcode, mates[..|mates| - 1], keep, answers);
        if o.ok { OneFurther(old(moves), whole, moves, o.moves, left); }
        ok := ReturnDrive(i.value, answers(i.value), Limiting(i.value, barcode));
        ConservedChain(old(full), before, full);
        if !ok { return false; }
        OthersAreMates(kinds, before, policy, barcode, mates, answers(i.value), i.value);
        sessions := sessions[i.value := None];
        mates := mates[..|mates| - 1];
      }
      AllDown(kinds, drives, claimed, full, policy, barcode, mates, keep, answers);
      FarEnough(old(moves), whole, moves, Outcome(full, [], true));
      return true;
    }

    // ----------------------------------------------------------------- select

    /** The search order of `select`: a drive already holding the tape, then an empty
        one, then one whose tape may be evicted. */
    method Choose(barcode: string, eligible: set<nat>) returns (chosen: Option<nat>)
      ensures chosen.Some? ==>
                chosen.value < |drives| && chosen.value in eligible && Chosen(drives, full, policy, barcode, eligible, chosen.value)
      ensures chosen.None? <==> forall i :: i in eligible && i < |drives| ==>
                drives[i] in full && full[drives[i]].tag != Some(barcode) && !Evictable(drives, full, policy, i)
    {
      hide Allowed;
      for i := 0 to |drives|
        invariant NoneHolds(drives, full, barcode, eligible, i)
      {
        if i in eligible && Holds(full, drives[i], barcode) { return Some(i); }
      }
      for i := 0 to |drives|
        invariant NoneEmpty(drives, full, eligible, i)
      {
        if i in eligible && drives[i] !in full { return Some(i); }
      }
      for i := 0 to |drives|
        invariant forall k :: k in eligible && k < i ==> !Evictable(drives, full, policy, k)
      {
        if i in eligible && full[drives[i]].tag.Some? && Allowed(policy, full[drives[i]].tag.value) { return Some(i); }
      }
      forall i | i in eligible && i < |drives|
        ensures full[drives[i]].tag != Some(barcode)
      {
        assert !Holds(full, drives[i], barcode);
      }
      return None;
    }

    /** The tape must be a data tape, in the chosen drive or in its confirmed home slot. */
    method Locate(barcode: string, drive: nat) returns (ok: bool)
      requires barcode in policy.volumes
      ensures ok <==> Located(order, kinds, full, policy, barcode, drive)
    {
      var home := policy.volumes[barcode].home;
      var source := FindTape(barcode);
      if home !in kinds || kinds[home] != Storage || source.None? { return false; }
      if full[source.value].cleaning { return false; }
      return if source.value in kinds && kinds[source.value] == DataTransfer then source.value == drive else source.value == home;
    }

    /** Both reservations: verified when held already, else taken. */
    method Claim(i: nat, changer: bool, drive: bool) returns (ok: bool)
      requires i < |drives| == |claimed|
      modifies `claimedChanger, `claimed, `changerChecked, `driveChecked
      ensures |claimed| == |old(claimed)| && (old(claimedChanger) ==> claimedChanger)
      ensures forall k :: 0 <= k < |claimed| && k != i ==> claimed[k] == old(claimed)[k]
      ensures ok ==> claimedChanger && claimed[i]
      ensures ok <==> changer && drive
    {
      if !changer { return false; }
      changerChecked, claimedChanger := true, true;
      if !drive { return false; }
      driveChecked, claimed := Some(i), claimed[i := true];
      return true;
    }

    /** The last part of `select`: confirm the inventory again, then move the tape, once,
        from its home slot into the empty drive. */
    method Mount(barcode: string, i: nat, eligible: set<nat>, a: SelectAnswers) returns (ok: bool)
      requires Valid() && i < |drives| && i in eligible && Allowed(policy, barcode)
      modifies `full, `moves, `changerChecked, `driveChecked
      ensures Valid() && Conserved(old(full), full)
      ensures ok <==> MountWorks(old(full), policy, barcode, drives[i], a)
      ensures ok ==> Holds(full, drives[i], barcode)
      ensures ok && !Holds(old(full), drives[i], barcode) ==> |moves| == |old(moves)| + 1
      ensures MountedBy(old(moves), moves, old(full), full, drives[i], policy.volumes[barcode].home, Mounting(i, barcode, eligible))
    {
      hide Conserved, Distinct;
      ConservedSame(full);
      var home, dest := policy.volumes[barcode].home, drives[i];
      if !a.go(20) { return false; }
      if !Holds(full, dest, barcode) {
        if !Holds(full, home, barcode) || dest in full { return false; }
        ok := VerifyChanger(a.moveChanger);
        if !ok { return; }
        ok := VerifyDrive(i, a.moveDrive);
        if !ok { return; }
        ok := MoveMedium(home, dest, a.outcome, Mounting(i, barcode, eligible));
        if !ok { return; }
      }
      return a.go(30) && Holds(full, dest, barcode);
    }

    /** Empty the chosen drive if another tape is in it, then mount. */
    method Place(barcode: string, i: nat, eligible: set<nat>, a: SelectAnswers) returns (ok: bool, ghost placing: seq<Move>)
      requires Valid() && i < |drives| && i in eligible && Allowed(policy, barcode)
      requires Chosen(drives, full, policy, barcode, eligible, i) && forall k :: k in eligible ==> k < |drives|
      requires policy.volumes[barcode].home in kinds && kinds[policy.volumes[barcode].home] == Storage
      modifies `full, `moves, `changerChecked, `driveChecked, `sessions
      ensures Valid() && Conserved(old(full), full)
      ensures ok ==> Holds(full, drives[i], barcode)
      ensures var c := Cleared(kinds, drives, old(full), policy, barcode, eligible, i, a);
              ok <==> c.ok && MountWorks(c.full, policy, barcode, drives[i], a)
      ensures ok && !Holds(old(full), drives[i], barcode) ==> placing != [] && placing[|placing| - 1].why == Mounting(i, barcode, eligible)
      ensures moves == old(moves) + placing && Placement(placing, drives, i, barcode, eligible)
      ensures OnlyThese(drives, old(full), full, [], Some(i))
    {
      hide Conserved, Distinct, Allowed, Chosen, Cleared, MountWorks, MountedBy, Placement, OnlyThese, Justified;
      AllowedIsAssigned(policy, barcode);
      ghost var first := full;
      ClearedFacts(kinds, drives, full, policy, barcode, eligible, i, a);
      placing := Cleared(kinds, drives, full, policy, barcode, eligible, i, a).moves;
      ok := ClearDrive(barcode, i, eligible, a);
      if !ok { return false, placing; }
      ghost var before, so := full, moves;
      ok := Mount(barcode, i, eligible, a);
      ConservedChain(first, before, full);
      PlacedInOrder(kinds, drives, first, before, full, so, moves, placing, policy.volumes[barcode].home, i, barcode, eligible);
      placing := placing + moves[|so|..];
    }

    /** Take another tape out of the chosen drive. */
    method ClearDrive(barcode: string, i: nat, eligible: set<nat>, a: SelectAnswers) returns (ok: bool)
      requires Valid() && i < |drives| && i in eligible
      requires Chosen(drives, full, policy, barcode, eligible, i) && forall k :: k in eligible ==> k < |drives|
      modifies `full, `moves, `changerChecked, `driveChecked, `sessions
      ensures Valid() && Conserved(old(full), full)
      ensures var c := Cleared(kinds, drives, old(full), policy, barcode, eligible, i, a);
              full == c.full && moves == old(moves) + c.moves && ok == c.ok
    {
      hide Justified, Conserved, Distinct, Allowed, MayEmpty, Chosen, Return;
      ConservedSame(full);
      if drives[i] in full && full[drives[i]].tag != Some(barcode) {
        sessions := sessions[i := None];
        ChosenMayLeave(drives, full, policy, barcode, eligible, i);
        ok := ReturnDrive(i, a.evict, Evicting(i, barcode, eligible));
      } else {
        ok := true;
      }
    }

    /** `select`: bring a tape into an enabled drive and make it ready. `picked` is the
        drive it went for, if it got that far. */
    method Select(barcode: string, eligible: set<nat>, a: SelectAnswers) returns (chosen: Option<nat>, ghost picked: Option<nat>)
      requires Valid() && forall k :: k in eligible ==> k < |drives|
      modifies `full, `moves, `changerChecked, `driveChecked, `sessions, `claimedChanger, `claimed
      ensures Valid() && Conserved(old(full), full) && old(moves) <= moves
      ensures chosen.Some? ==>
                chosen == picked && chosen.value in eligible && chosen.value < |drives| && Holds(full, drives[chosen.value], barcode) &&
                claimedChanger && claimed[chosen.value] && Allowed(policy, barcode) && !stopped
      ensures stopped || !Allowed(policy, barcode) ==> chosen.None? && full == old(full) && moves == old(moves)
      ensures !stopped && Allowed(policy, barcode) ==>
                var victims := Victims(order, kinds, old(full), policy, barcode);
                Scheduled(moves[|old(moves)|..], drives, old(full), policy, barcode, victims, picked, eligible) &&
                OnlyThese(drives, old(full), full, victims, picked)
      ensures !stopped ==>
                forall i: nat :: Succeeds(order, kinds, drives, old(claimed), old(full), policy, barcode, eligible, a, i) <==> chosen == Some(i)
      ensures chosen.Some? && barcode in policy.volumes ==>
                MountedLast(moves, drives, Limited(order, kinds, drives, old(claimed), old(full), policy, barcode, a.go(9), a.limit).full,
                            barcode, eligible, chosen.value)
    {
      hide Justified, Conserved, Distinct, Allowed, Victims, Limited, OnlyThese, Scheduled, TakenInOrder, LimitedTo, EndsIn, MountedLast;
      ConservedSame(full);
      picked := None;
      if stopped || !Allowed(policy, barcode) { return None, None; }
      AllowedIsAssigned(policy, barcode);
      NothingScheduled(drives, full, policy, barcode, Victims(order, kinds, full, policy, barcode), eligible);
      assert moves[|moves|..] == [];
      if !a.go(5) || (exists e :: e in full && full[e].tag == Some(barcode) && full[e].cleaning) { return None, None; }
      if !(exists i :: i in eligible && i < |drives|) || !a.go(8) {
        EndsInEligible(order, kinds, drives, Limited(order, kinds, drives, claimed, full, policy, barcode, a.go(9), a.limit).full, policy, barcode,
                       eligible, a);
        return None, None;
      }
      chosen, picked := SelectAllowed(barcode, eligible, a);
    }

    /** Choose a drive and find the tape. */
    method PickDrive(barcode: string, eligible: set<nat>) returns (found: Option<nat>)
      requires barcode in policy.volumes
      ensures found.Some? ==> Picked(order, kinds, drives, full, policy, barcode, eligible, found.value)
      ensures forall i: nat :: Picked(order, kinds, drives, full, policy, barcode, eligible, i) ==> found == Some(i)
    {
      hide Allowed, Chosen, Located;
      found := Choose(barcode, eligible);
      if found.None? {
        NoneIsChosen(drives, full, policy, barcode, eligible);
        return None;
      }
      forall j | j < |drives| && j in eligible && Chosen(drives, full, policy, barcode, eligible, j)
        ensures j == found.value
      {
        OneIsChosen(drives, full, policy, barcode, eligible, found.value, j);
      }
      var ok := Locate(barcode, drives[found.value]);
      if !ok { return None; }
    }

    method SelectAllowed(barcode: string, eligible: set<nat>, a: SelectAnswers) returns (chosen: Option<nat>, ghost picked: Option<nat>)
      requires Valid() && Allowed(policy, barcode) && barcode in policy.volumes && forall k :: k in eligible ==> k < |drives|
      modifies `full, `moves, `changerChecked, `driveChecked, `sessions, `claimedChanger, `claimed
      ensures Valid() && Conserved(old(full), full) && old(moves) <= moves
      ensures chosen.Some? ==>
                chosen == picked && chosen.value in eligible && chosen.value < |drives| && Holds(full, drives[chosen.value], barcode) &&
                claimedChanger && claimed[chosen.value]
      ensures var victims := Victims(order, kinds, old(full), policy, barcode);
              Scheduled(moves[|old(moves)|..], drives, old(full), policy, barcode, victims, picked, eligible) &&
              OnlyThese(drives, old(full), full, victims, picked)
      ensures var limited := Limited(order, kinds, drives, old(claimed), old(full), policy, barcode, a.go(9), a.limit);
              (forall i: nat :: limited.ok && EndsIn(order, kinds, drives, limited.full, policy, barcode, eligible, a, i) <==> chosen == Some(i)) &&
              (chosen.Some? ==> MountedLast(moves, drives, limited.full, barcode, eligible, chosen.value))
    {
      hide Justified, Conserved, Distinct, Allowed, Victims, Limited, OnlyThese, Scheduled, TakenInOrder, LimitedTo, Placement, Picked, Cleared, MountWorks;
      ghost var first, was := full, moves;
      ghost var victims := Victims(order, kinds, full, policy, barcode);
      LimitTakesVictims(order, kinds, drives, claimed, full, policy, barcode, a.go(9), a.limit);
      ghost var limiting := Limited(order, kinds, drives, claimed, full, policy, barcode, a.go(9), a.limit).moves;
      var ok := EnforceLimit(barcode, a.go(9), a.limit);
      picked := None;
      assert moves[|was|..] == limiting + [];
      ScheduledAs(moves[|was|..], limiting, [], drives, first, policy, barcode, victims, None, eligible);
      OnlyVictims(kinds, drives, first, full, victims);
      if !ok || !a.go(10) { return None, None; }
      ghost var before, so, placing := full, moves, [];
      chosen, picked, placing := PlaceSomewhere(barcode, eligible, a);
      ConservedChain(first, before, full);
      assert moves[|was|..] == limiting + placing;
      ScheduledAs(moves[|was|..], limiting, placing, drives, first, policy, barcode, victims, picked, eligible);
      TheseInAll(drives, first, before, full, victims, picked);
    }

    /** The part of `select` behind the limit. */
    method PlaceSomewhere(barcode: string, eligible: set<nat>, a: SelectAnswers)
      returns (chosen: Option<nat>, ghost picked: Option<nat>, ghost placing: seq<Move>)
      requires Valid() && Allowed(policy, barcode) && barcode in policy.volumes && a.go(10) && forall k :: k in eligible ==> k < |drives|
      modifies `full, `moves, `changerChecked, `driveChecked, `sessions, `claimedChanger, `claimed
      ensures Valid() && Conserved(old(full), full) && moves == old(moves) + placing
      ensures chosen.Some? ==>
                chosen == picked && chosen.value in eligible && chosen.value < |drives| && Holds(full, drives[chosen.value], barcode) &&
                claimedChanger && claimed[chosen.value]
      ensures if picked.Some? then Placement(placing, drives, picked.value, barcode, eligible) else placing == []
      ensures OnlyThese(drives, old(full), full, [], picked)
      ensures forall i: nat :: EndsIn(order, kinds, drives, old(full), policy, barcode, eligible, a, i) <==> chosen == Some(i)
      ensures chosen.Some? ==> MountedLast(moves, drives, old(full), barcode, eligible, chosen.value)
    {
      hide Justified, Conserved, Distinct, Allowed, Chosen, Located, OnlyThese, Placement, Cleared, MountWorks;
      ConservedSame(full);
      NothingElse(drives, full);
      picked, placing := None, [];
      var found := PickDrive(barcode, eligible);
      if found.None? { return None, None, []; }
      var i := found.value;
      OneIsPicked(order, kinds, drives, full, policy, barcode, eligible, i);
      HomeIsStorage(order, kinds, full, policy, barcode, drives[i]);
      var ok := Claim(i, a.changer, a.drive);
      if !ok { return None, None, []; }
      ok, placing := Place(barcode, i, eligible, a);
      picked := Some(i);
      chosen := if ok && a.ready then Some(i) else None;
    }

    // ------------------------------------------------- close, failures, policy

    /** Return and release one drive. */
    method CloseDrive(i: nat, a: CloseAnswers) returns (ok: bool)
      requires Valid() && i < |drives|
      modifies `full, `moves, `changerChecked, `driveChecked, `sessions, `claimed
      ensures Valid() && Conserved(old(full), full)
      ensures var o := Return(kinds, old(full), policy, drives[i], a.back, Returning(i));
              (ok <==> a.held && o.ok && a.released) && full == (if a.held then o.full else old(full)) &&
              moves == (if a.held then old(moves) + o.moves else old(moves)) && claimed == (if ok then old(claimed)[i := false] else old(claimed))
    {
      hide Justified, Conserved, Distinct, Return;
      ConservedSame(full);
      if !a.held { return false; }
      sessions := sessions[i := None];
      ok := ReturnDrive(i, a.back, Returning(i));
      if !ok || !a.released { return false; }
      claimed := claimed[i := false];
    }

    /** close: return and release every drive this instance took, then the changer. */
    method Close(answers: nat -> CloseAnswers, changer: bool, released: bool) returns (ok: bool)
      requires Valid()
      modifies `full, `moves, `changerChecked, `driveChecked, `sessions, `claimedChanger, `claimed
      ensures Valid() && Conserved(old(full), full) && old(moves) <= moves
      ensures ok ==> !claimedChanger && forall i :: 0 <= i < |drives| ==> !claimed[i] && (old(claimed)[i] ==> drives[i] !in full)
      ensures forall i :: 0 <= i < |drives| && !old(claimed)[i] ==> !claimed[i]
      ensures OthersUntouched(drives, old(claimed), old(full), full) && OnlyReturning(moves[|old(moves)|..], old(claimed))
      ensures MayClose(kinds, drives, old(claimed), old(full), policy, answers) && (old(claimedChanger) ==> changer && released) ==> ok
    {
      hide Justified, Conserved, Distinct, Return, HomeFrom;
      ConservedSame(full);
      ghost var closing := MayClose(kinds, drives, claimed, full, policy, answers);
      for i := 0 to |drives|
        invariant Valid() && Conserved(old(full), full) && old(moves) <= moves
        invariant forall k :: 0 <= k < i ==> !claimed[k] && (old(claimed)[k] ==> drives[k] !in full)
        invariant forall k :: i <= k < |drives| ==> claimed[k] == old(claimed)[k]
        invariant OthersUntouched(drives, old(claimed), old(full), full) && OnlyReturning(moves[|old(moves)|..], old(claimed))
        invariant claimedChanger == old(claimedChanger) && (closing ==> HomeFrom(kinds, drives, old(claimed), full, policy, i))
      {
        if closing { OneGoesHome(kinds, drives, old(claimed), full, policy, i, answers(i).back, Returning(i)); }
        if claimed[i] {
          ghost var before, so := full, moves;
          ReturnEmpties(kinds, full, policy, drives[i], answers(i).back, Returning(i));
          ReturnedFor(kinds, full, policy, drives[i], answers(i).back, Returning(i));
          ok := CloseDrive(i, answers(i));
          ConservedChain(old(full), before, full);
          OneMoreReturned(old(moves), so, moves, old(claimed), i);
          if !ok { return false; }
        }
      }
      if claimedChanger {
        if !changer || !released { return false; }
        claimedChanger := false;
      }
      return true;
    }

    /** A failed operation; once ownership of a device is lost nothing is scheduled any more. */
    method Failed(ownershipLost: bool)
      requires Valid()
      modifies `stopped, `sessions
      ensures Valid() && stopped == (old(stopped) || ownershipLost)
      ensures ownershipLost ==> forall i :: 0 <= i < |sessions| ==> sessions[i].None?
    {
      if ownershipLost {
        stopped := true;
        sessions := seq(|drives|, _ => None);
      }
    }

    /** assign: the tape must be in the inventory and its home slot known. `origin` is
        what the changer reports of an element: the slot its tape came from. */
    method Assign(pool: string, barcode: string, origin: nat -> Option<nat>, accepted: bool) returns (ok: bool)
      requires Valid()
      modifies `policy
      ensures Valid()
      ensures ok <==> accepted && barcode !in old(policy).volumes && HomeOf(order, kinds, full, barcode, origin).Some?
      ensures policy == if ok then old(policy).(volumes := old(policy).volumes[
                                    barcode := Volume(pool, HomeOf(order, kinds, full, barcode, origin).value, None)])
                        else old(policy)
    {
      var e := FindTape(barcode);
      if e.None? || full[e.value].cleaning { return false; }
      var home := if e.value in kinds && kinds[e.value] == Storage then Some(e.value) else origin(e.value);
      if home.None? || !accepted || home.value !in kinds || kinds[home.value] != Storage || barcode in policy.volumes { return false; }
      policy := policy.(volumes := policy.volumes[barcode := Volume(pool, home.value, None)]);
      return true;
    }

    /** unassign: refused while the tape is in a drive. */
    method Unassign(barcode: string) returns (ok: bool)
      requires Valid()
      modifies `policy
      ensures Valid()
      ensures ok <==> barcode in old(policy).volumes && forall a :: a in kinds && kinds[a] == DataTransfer ==> !Holds(full, a, barcode)
      ensures policy == if ok then old(policy).(volumes := old(policy).volumes - {barcode}, offline := old(policy).offline - {barcode})
                        else old(policy)
    {
      if exists a :: a in full && a in kinds && kinds[a] == DataTransfer && Holds(full, a, barcode) { return false; }
      if barcode !in policy.volumes { return false; }
      policy := policy.(volumes := policy.volumes - {barcode}, offline := policy.offline - {barcode});
      return true;
    }
  }

  // ------------------------------------------------------- steps of the methods

  lemma ReturnIsJustified(kinds: map<nat, Kind>, drives: seq<nat>, full: map<nat, Cartridge>, p: Policy, i: nat, why: Reason)
    requires i < |drives| && why.drive == i && !why.Mounting? && MayEmpty(drives, full, p, why) && MayGoHome(kinds, full, p, drives[i])
    ensures Justified(drives, kinds, Move(drives[i], p.volumes[full[drives[i]].tag.value].home, why, full, p, true, Some(i)))
  {
  }

  /** The whole run is the MOVEs made so far and the rest still to come. */
  ghost predicate SoFar(was: seq<Move>, whole: Outcome, moves: seq<Move>, rest: Outcome) {
    whole.full == rest.full && whole.ok == rest.ok && was + whole.moves == moves + rest.moves
  }

  lemma FarFromStart(was: seq<Move>, whole: Outcome)
    ensures SoFar(was, whole, was, whole)
  {
  }

  lemma FarEnough(was: seq<Move>, whole: Outcome, moves: seq<Move>, rest: Outcome)
    requires SoFar(was, whole, moves, rest)
    ensures whole.full == rest.full && whole.ok == rest.ok && was + whole.moves == moves + rest.moves
    ensures rest.moves == [] ==> was + whole.moves == moves
  {
  }

  lemma OneFurther(was: seq<Move>, whole: Outcome, moves: seq<Move>, more: seq<Move>, left: Outcome)
    requires SoFar(was, whole, moves, Outcome(left.full, more + left.moves, left.ok))
    ensures SoFar(was, whole, moves + more, left)
  {
    assert moves + more + left.moves == moves + (more + left.moves);
  }

  lemma OneStepDown(kinds: map<nat, Kind>, drives: seq<nat>, claimed: seq<bool>, full: map<nat, Cartridge>, p: Policy, barcode: string,
                    mates: seq<nat>, keep: nat, answers: nat -> ReturnAnswers)
    requires |claimed| == |drives| && |mates| > keep
    ensures var i, r := Position(drives, mates[|mates| - 1]), ReturnDown(kinds, drives, claimed, full, p, barcode, mates, keep, answers);
            if i.None? || !claimed[i.value] then r == Outcome(full, [], false)
            else
              var o := Return(kinds, full, p, mates[|mates| - 1], answers(i.value), Limiting(i.value, barcode));
              if !o.ok then r == o
              else
                var rest := ReturnDown(kinds, drives, claimed, o.full, p, barcode, mates[..|mates| - 1], keep, answers);
                r == Outcome(rest.full, o.moves + rest.moves, rest.ok)
  {
    hide Return;
  }

  lemma AllDown(kinds: map<nat, Kind>, drives: seq<nat>, claimed: seq<bool>, full: map<nat, Cartridge>, p: Policy, barcode: string,
                mates: seq<nat>, keep: nat, answers: nat -> ReturnAnswers)
    requires |claimed| == |drives| && |mates| <= keep
    ensures ReturnDown(kinds, drives, claimed, full, p, barcode, mates, keep, answers) == Outcome(full, [], true)
  {
  }

  lemma OthersAreMates(kinds: map<nat, Kind>, full: map<nat, Cartridge>, p: Policy, barcode: string, mates: seq<nat>, a: ReturnAnswers, i: nat)
    requires mates != [] && NoRepeats(mates) && forall k :: 0 <= k < |mates| ==> IsMate(kinds, full, p, barcode, mates[k])
    ensures var o := Return(kinds, full, p, mates[|mates| - 1], a, Limiting(i, barcode));
            NoRepeats(mates[..|mates| - 1]) && forall k :: 0 <= k < |mates| - 1 ==> IsMate(kinds, o.full, p, barcode, mates[k])
  {
    hide Return;
    var address := mates[|mates| - 1];
    assert IsMate(kinds, full, p, barcode, address);
    ReturnEmpties(kinds, full, p, address, a, Limiting(i, barcode));
  }

  predicate Located(order: seq<nat>, kinds: map<nat, Kind>, full: map<nat, Cartridge>, p: Policy, barcode: string, drive: nat) {
    barcode in p.volumes &&
    var home, source := p.volumes[barcode].home, Find(order, full, barcode);
    home in kinds && kinds[home] == Storage && source.Some? && IsDataTape(full, source.value, barcode) &&
    source.value == if source.value in kinds && kinds[source.value] == DataTransfer then drive else home
  }

  lemma HomeIsStorage(order: seq<nat>, kinds: map<nat, Kind>, full: map<nat, Cartridge>, p: Policy, barcode: string, drive: nat)
    requires Located(order, kinds, full, p, barcode, drive)
    ensures barcode in p.volumes && p.volumes[barcode].home in kinds && kinds[p.volumes[barcode].home] == Storage
  {
  }

  /** At most one MOVE, from the home slot into the drive, which was empty. */
  ghost predicate MountedBy(was: seq<Move>, moves: seq<Move>, before: map<nat, Cartridge>, after: map<nat, Cartridge>, drive: nat, home: nat,
                            why: Reason) {
    || (moves == was && after == before)
    || (was <= moves && |moves| == |was| + 1 && moves[|was|].why == why && drive !in before && home in before &&
        (after == before || after == AfterMove(before, home, drive)))
  }

  lemma ClearedFacts(kinds: map<nat, Kind>, drives: seq<nat>, full: map<nat, Cartridge>, p: Policy, barcode: string, eligible: set<nat>, i: nat,
                     a: SelectAnswers)
    requires i < |drives| && i in eligible && Chosen(drives, full, p, barcode, eligible, i) && NoRepeats(drives)
    requires forall k :: k in eligible ==> k < |drives|
    requires forall k :: 0 <= k < |drives| ==> drives[k] in kinds && kinds[drives[k]] == DataTransfer
    ensures var o := Cleared(kinds, drives, full, p, barcode, eligible, i, a);
            Placement(o.moves, drives, i, barcode, eligible) && |o.moves| <= 1 && OnlyThese(drives, full, o.full, [], Some(i)) &&
            (forall k :: 0 <= k < |o.moves| ==> o.moves[k].why.Evicting?) &&
            (o.ok && !Holds(full, drives[i], barcode) ==> drives[i] !in o.full)
  {
    hide Chosen, Allowed;
    if drives[i] in full && full[drives[i]].tag != Some(barcode) {
      ChosenMayLeave(drives, full, p, barcode, eligible, i);
      Evicted(kinds, drives, full, p, i, barcode, eligible, a.evict);
    } else {
      NothingPlaced(drives, full, i, barcode, eligible);
    }
  }

  lemma Evicted(kinds: map<nat, Kind>, drives: seq<nat>, full: map<nat, Cartridge>, p: Policy, i: nat, barcode: string, eligible: set<nat>,
                a: ReturnAnswers)
    requires i < |drives| && MayEmpty(drives, full, p, Evicting(i, barcode, eligible)) && NoRepeats(drives)
    requires forall k :: 0 <= k < |drives| ==> drives[k] in kinds && kinds[drives[k]] == DataTransfer
    ensures var o := Return(kinds, full, p, drives[i], a, Evicting(i, barcode, eligible));
            Placement(o.moves, drives, i, barcode, eligible) && |o.moves| <= 1 && OnlyThese(drives, full, o.full, [], Some(i)) &&
            (forall k :: 0 <= k < |o.moves| ==> o.moves[k].why.Evicting?) && (o.ok ==> drives[i] !in o.full)
  {
  }

  lemma NothingPlaced(drives: seq<nat>, full: map<nat, Cartridge>, i: nat, barcode: string, eligible: set<nat>)
    ensures Placement([], drives, i, barcode, eligible) && OnlyThese(drives, full, full, [], Some(i))
  {
  }

  lemma PlacedInOrder(kinds: map<nat, Kind>, drives: seq<nat>, first: map<nat, Cartridge>, before: map<nat, Cartridge>, after: map<nat, Cartridge>,
                      was: seq<Move>, moves: seq<Move>, evicting: seq<Move>, home: nat, i: nat, barcode: string, eligible: set<nat>)
    requires i < |drives| && NoRepeats(drives) && Placement(evicting, drives, i, barcode, eligible) && |evicting| <= 1
    requires forall k :: 0 <= k < |evicting| ==> evicting[k].why.Evicting?
    requires OnlyThese(drives, first, before, [], Some(i)) && home in kinds && kinds[home] == Storage
    requires forall k :: 0 <= k < |drives| ==> drives[k] in kinds && kinds[drives[k]] == DataTransfer
    requires MountedBy(was, moves, before, after, drives[i], home, Mounting(i, barcode, eligible))
    ensures was <= moves && moves == was + moves[|was|..]
    ensures Placement(evicting + moves[|was|..], drives, i, barcode, eligible) && OnlyThese(drives, first, after, [], Some(i))
    ensures |moves| == |was| + 1 ==> moves[|was|..][0].why == Mounting(i, barcode, eligible) && |moves[|was|..]| == 1
  {
  }

  lemma NothingScheduled(drives: seq<nat>, full: map<nat, Cartridge>, p: Policy, barcode: string, victims: seq<nat>, eligible: set<nat>)
    ensures Scheduled([], drives, full, p, barcode, victims, None, eligible) && OnlyThese(drives, full, full, victims, None)
  {
    ScheduledAs([], [], [], drives, full, p, barcode, victims, None, eligible);
  }

  lemma EndsInEligible(order: seq<nat>, kinds: map<nat, Kind>, drives: seq<nat>, full: map<nat, Cartridge>, p: Policy, barcode: string,
                       eligible: set<nat>, a: SelectAnswers)
    ensures forall i: nat :: EndsIn(order, kinds, drives, full, p, barcode, eligible, a, i) ==> i < |drives| && i in eligible
  {
    hide Chosen, Located, Cleared, MountWorks;
  }

  lemma NothingElse(drives: seq<nat>, full: map<nat, Cartridge>)
    ensures OnlyThese(drives, full, full, [], None)
  {
  }

  lemma NoneIsChosen(drives: seq<nat>, full: map<nat, Cartridge>, p: Policy, barcode: string, eligible: set<nat>)
    requires forall i :: i in eligible && i < |drives| ==>
               drives[i] in full && full[drives[i]].tag != Some(barcode) && !Evictable(drives, full, p, i)
    ensures forall i :: i in eligible && i < |drives| ==> !Chosen(drives, full, p, barcode, eligible, i)
  {
    hide Allowed;
  }

  /** Unless the tape was in the drive already, the last MOVE put it there. */
  predicate MountedLast(moves: seq<Move>, drives: seq<nat>, full: map<nat, Cartridge>, barcode: string, eligible: set<nat>, i: nat) {
    i < |drives| && (!Holds(full, drives[i], barcode) ==> moves != [] && moves[|moves| - 1].why == Mounting(i, barcode, eligible))
  }

  lemma OnlyVictims(kinds: map<nat, Kind>, drives: seq<nat>, before: map<nat, Cartridge>, after: map<nat, Cartridge>, victims: seq<nat>)
    requires LimitedTo(kinds, before, after, victims)
    requires forall k :: 0 <= k < |drives| ==> drives[k] in kinds && kinds[drives[k]] == DataTransfer
    ensures OnlyThese(drives, before, after, victims, None)
  {
  }

  lemma TheseInAll(drives: seq<nat>, first: map<nat, Cartridge>, before: map<nat, Cartridge>, after: map<nat, Cartridge>, victims: seq<nat>,
                   picked: Option<nat>)
    requires OnlyThese(drives, first, before, victims, None) && OnlyThese(drives, before, after, [], picked)
    ensures OnlyThese(drives, first, after, victims, picked)
  {
  }

  lemma ReturnedFor(kinds: map<nat, Kind>, full: map<nat, Cartridge>, p: Policy, address: nat, a: ReturnAnswers, why: Reason)
    ensures var o := Return(kinds, full, p, address, a, why); forall k :: 0 <= k < |o.moves| ==> o.moves[k].why == why
  {
  }

  lemma OneMoreReturned(first: seq<Move>, was: seq<Move>, moves: seq<Move>, claimed: seq<bool>, i: nat)
    requires first <= was <= moves && i < |claimed| && claimed[i] && OnlyReturning(was[|first|..], claimed)
    requires forall k :: |was| <= k < |moves| ==> moves[k].why == Returning(i)
    ensures OnlyReturning(moves[|first|..], claimed)
  {
    forall k | 0 <= k < |moves[|first|..]|
      ensures var why := moves[|first|..][k].why; why.Returning? && why.drive < |claimed| && claimed[why.drive]
    {
      if |first| + k < |was| {
        assert moves[|first|..][k] == was[|first|..][k];
      }
    }
  }

  /** The home slot of a tape to be assigned: where it is, or, outside storage, where the
      changer says it came from. */
  function HomeOf(order: seq<nat>, kinds: map<nat, Kind>, full: map<nat, Cartridge>, barcode: string, origin: nat -> Option<nat>): Option<nat> {
    var e := Find(order, full, barcode);
    if e.None? || !IsDataTape(full, e.value, barcode) then None
    else
      var home := if e.value in kinds && kinds[e.value] == Storage then Some(e.value) else origin(e.value);
      if home.Some? && home.value in kinds && kinds[home.value] == Storage then home else None
  }
}
