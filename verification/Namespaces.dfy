/** One namespace of the catalog: its directory tree, file heads and request
    bookkeeping (src/managed_catalog.rs: `init_namespace`, `create_directory_in_state`;
    src/managed_catalog/requests.rs: admission, cancellation, the request window). */
module Namespaces {
  import opened Outcomes
  import opened ByteStrings
  import opened Names
  import opened Records
  import opened Receipts
  import opened Volumes

  datatype Phase = NsBuilding | NsReady | NsVerifying | NsVerified | NsRejected | NsDiscarded | NsSealed | NsActive

  /** Epochs below `first` are expired; `accepting` is the newest open epoch. */
  datatype Window = Window(first: U64, accepting: U64)

  datatype Slot = Slot(parent: Uuid, name: Bytes)

  datatype OpId = OpId(epoch: U64, id: Uuid)

  /** The permanent result of an operation: applied at a version, or cancelled. */
  datatype Terminal = Applied(fingerprint: Bytes, version: U64) | Dropped(fingerprint: Bytes)

  datatype Space = Space(
    phase: Phase,
    window: Window,
    children: map<Slot, Uuid>,
    nodes: map<Uuid, Node>,
    heads: map<Uuid, FileHead>,
    ops: map<OpId, Terminal>,
    intents: map<OpId, Receipt>)

  const ROOT := Node(Directory, Some(1), NIL, [], None)

  /** `init_namespace`: the nil inode is the root directory. */
  function NewSpace(phase: Phase): Space {
    Space(phase, Window(1, 1), map[], map[NIL := ROOT], map[], map[], map[])
  }

  // ------------------------------------------------------------- directories

  /** Answers of other components: the attributes are not a link's, the name is
      not reserved for a pool root, and the attribute object is complete. */
  datatype DirectoryAnswers = DirectoryAnswers(plain: bool, allowed: bool, stored: bool)

  datatype DirectoryOutcome = Created | AlreadyExists | MissingParent | NameConflict | IdConflict | WrongPhase

  function DirectoryVerdict(s: Space, parent: Uuid, name: Bytes, id: Uuid, required: Phase, attributes: Option<Attributes>,
                            a: DirectoryAnswers): Result<DirectoryOutcome> {
    if !ValidName(name) || !a.plain || id == NIL then Err(Invalid)
    else if s.phase != required then Ok(WrongPhase)
    else if !a.allowed then Err(Invalid)
    else if parent !in s.nodes || !s.nodes[parent].kind.Directory? then Ok(MissingParent)
    else
      var child, node := Lookup(s.children, Slot(parent, name)), Lookup(s.nodes, id);
      if child == Some(id) && node == Some(Node(Directory, Some(1), parent, name, attributes)) then Ok(AlreadyExists)
      else if child.Some? then Ok(NameConflict)
      else if node.Some? then Ok(IdConflict)
      else if !a.stored then Err(Incomplete)
      else Ok(Created)
  }

  /** Entry and node are written together. */
  function Linked(s: Space, id: Uuid, node: Node): Space {
    s.(children := s.children[Slot(node.parent, node.name) := id], nodes := s.nodes[id := node])
  }

  function MakeDirectory(s: Space, parent: Uuid, name: Bytes, id: Uuid, required: Phase, attributes: Option<Attributes>,
                         a: DirectoryAnswers): Space {
    if DirectoryVerdict(s, parent, name, id, required, attributes, a) == Ok(Created)
    then Linked(s, id, Node(Directory, Some(1), parent, name, attributes))
    else s
  }

  // ---------------------------------------------------------------- the tree

  /** Following parents from `id` reaches the root in exactly `k` steps. */
  predicate Climbs(nodes: map<Uuid, Node>, id: Uuid, k: nat)
    decreases k
  {
    if k == 0 then id == NIL else id != NIL && id in nodes && Climbs(nodes, nodes[id].parent, k - 1)
  }

  ghost predicate Rooted(nodes: map<Uuid, Node>, id: Uuid) {
    exists k: nat :: Climbs(nodes, id, k)
  }

  /** A node's entry in its parent directory leads back to it. */
  predicate NodeLinked(s: Space, id: Uuid) {
    id in s.nodes &&
    var n := s.nodes[id];
    Lookup(s.children, Slot(n.parent, n.name)) == Some(id) && n.parent in s.nodes && s.nodes[n.parent].kind.Directory?
  }

  predicate EntryLinked(s: Space, slot: Slot) {
    slot in s.children && s.children[slot] != NIL && s.children[slot] in s.nodes &&
    s.nodes[s.children[slot]].parent == slot.parent && s.nodes[s.children[slot]].name == slot.name
  }

  /** Entries and nodes mirror each other and form a tree rooted at the nil inode. */
  ghost predicate IsTree(s: Space) {
    && NIL in s.nodes && s.nodes[NIL] == ROOT
    && (forall slot :: slot in s.children ==> EntryLinked(s, slot))
    && (forall id :: id in s.nodes && id != NIL ==> NodeLinked(s, id))
    && (forall id :: id in s.nodes ==> Rooted(s.nodes, id))
  }

  /** A chain that avoids a fresh node, or a node that keeps its parent, survives the write. */
  lemma {:induction false} ClimbSurvives(nodes: map<Uuid, Node>, id: Uuid, k: nat, added: Uuid, node: Node)
    requires Climbs(nodes, id, k)
    requires added in nodes ==> nodes[added].parent == node.parent
    ensures Climbs(nodes[added := node], id, k)
    decreases k
  {
    if k > 0 {
      ClimbSurvives(nodes, nodes[id].parent, k - 1, added, node);
    }
  }

  predicate MayLink(s: Space, id: Uuid, node: Node) {
    id != NIL && node.parent in s.nodes && s.nodes[node.parent].kind.Directory? &&
    Lookup(s.children, Slot(node.parent, node.name)) in {None, Some(id)} &&
    (id in s.nodes ==>
       s.nodes[id].parent == node.parent && s.nodes[id].name == node.name && s.nodes[id].kind == node.kind)
  }

  lemma LinkKeepsEntry(s: Space, id: Uuid, node: Node, slot: Slot)
    requires MayLink(s, id, node)
    requires slot in s.children ==> EntryLinked(s, slot)
    ensures slot in Linked(s, id, node).children ==> EntryLinked(Linked(s, id, node), slot)
  {
  }

  lemma LinkKeepsNode(s: Space, id: Uuid, node: Node, other: Uuid)
    requires MayLink(s, id, node) && other in Linked(s, id, node).nodes
    requires other in s.nodes && other != NIL ==> NodeLinked(s, other)
    ensures other != NIL ==> NodeLinked(Linked(s, id, node), other)
  {
  }

  lemma LinkKeepsClimb(s: Space, id: Uuid, node: Node, other: Uuid)
    requires MayLink(s, id, node) && other in Linked(s, id, node).nodes
    requires forall o :: o in s.nodes ==> Rooted(s.nodes, o)
    ensures Rooted(Linked(s, id, node).nodes, other)
  {
    var t := Linked(s, id, node);
    if other == id {
      assert Rooted(s.nodes, node.parent);
      var k: nat :| Climbs(s.nodes, node.parent, k);
      ClimbSurvives(s.nodes, node.parent, k, id, node);
      assert Climbs(t.nodes, id, k + 1);
    } else {
      assert Rooted(s.nodes, other);
      var k: nat :| Climbs(s.nodes, other, k);
      ClimbSurvives(s.nodes, other, k, id, node);
    }
  }

  /** Writing an entry and its node together, new or in place, keeps the tree. */
  lemma LinkKeepsTree(s: Space, id: Uuid, node: Node)
    requires IsTree(s) && MayLink(s, id, node)
    ensures IsTree(Linked(s, id, node))
  {
    hide EntryLinked, NodeLinked, Rooted, MayLink;
    var t := Linked(s, id, node);
    forall slot | slot in t.children
      ensures EntryLinked(t, slot)
    {
      LinkKeepsEntry(s, id, node, slot);
    }
    forall other | other in t.nodes
      ensures other != NIL ==> NodeLinked(t, other)
      ensures Rooted(t.nodes, other)
    {
      LinkKeepsNode(s, id, node, other);
      LinkKeepsClimb(s, id, node, other);
    }
    LinkKeepsRoot(s, id, node);
  }

  lemma LinkKeepsRoot(s: Space, id: Uuid, node: Node)
    requires MayLink(s, id, node) && NIL in s.nodes && s.nodes[NIL] == ROOT
    ensures NIL in Linked(s, id, node).nodes && Linked(s, id, node).nodes[NIL] == ROOT
  {
  }

  lemma DirectoryKeepsTree(s: Space, parent: Uuid, name: Bytes, id: Uuid, required: Phase, attributes: Option<Attributes>,
                           a: DirectoryAnswers)
    requires IsTree(s)
    ensures IsTree(MakeDirectory(s, parent, name, id, required, attributes, a))
  {
    hide IsTree;
    if DirectoryVerdict(s, parent, name, id, required, attributes, a) == Ok(Created) {
      LinkKeepsTree(s, id, Node(Directory, Some(1), parent, name, attributes));
    }
  }

  lemma NewSpaceIsTree(phase: Phase)
    ensures IsTree(NewSpace(phase))
  {
    assert Climbs(NewSpace(phase).nodes, NIL, 0);
    assert Rooted(NewSpace(phase).nodes, NIL);
  }

  /** The climb of a node is unique, so the tree has no cycle. */
  lemma {:induction false} ClimbIsUnique(nodes: map<Uuid, Node>, id: Uuid, j: nat, k: nat)
    requires Climbs(nodes, id, j) && Climbs(nodes, id, k)
    ensures j == k
    decreases j
  {
    if j > 0 && k > 0 {
      ClimbIsUnique(nodes, nodes[id].parent, j - 1, k - 1);
    }
  }

  // ---------------------------------------------------------------- requests

  function OpOf(r: Receipt): OpId {
    OpId(r.requestEpoch, r.operation)
  }

  datatype RequestOutcome =
    | Registered | Limited | Expired | EpochClosed | NotRegistered | RequestCancelled | InvalidCopy
    | AlreadyApplied(version: U64) | RequestStale | RequestConflict | PlacementMismatch

  /** `terminal_result`: what a recorded result answers to a later attempt. */
  function TerminalResult(t: Terminal, fingerprint: Bytes): RequestOutcome {
    if t.fingerprint != fingerprint then RequestConflict
    else if t.Applied? then AlreadyApplied(t.version)
    else RequestCancelled
  }

  /** The window check and the recorded result, common to all request calls. */
  function Settled(s: Space, r: Receipt): Option<RequestOutcome> {
    if r.requestEpoch < s.window.first then Some(Expired)
    else if r.requestEpoch > s.window.accepting then Some(EpochClosed)
    else if OpOf(r) in s.ops then Some(TerminalResult(s.ops[OpOf(r)], Fingerprint(r)))
    else None
  }

  /** Answers: the placement matches, the copy identity is the derived one, a permit is free. */
  datatype RegisterAnswers = RegisterAnswers(placement: bool, derivedCopy: Uuid, permit: bool)

  /** `register_request` outside an Active namespace. */
  function RegisterVerdict(s: Space, r: Receipt, a: RegisterAnswers): Result<RequestOutcome> {
    if !ValidReceipt(r) then Err(Invalid)
    else if s.phase != NsReady && s.phase != NsBuilding then Err(Incomplete)
    else if Settled(s, r).Some? then Ok(Settled(s, r).value)
    else if !a.placement then Ok(PlacementMismatch)
    else if OpOf(r) in s.intents then
      Ok(if Fingerprint(s.intents[OpOf(r)]) == Fingerprint(r) then Registered else RequestConflict)
    else if r.requestEpoch != s.window.accepting then Ok(EpochClosed)
    else if r.copy != a.derivedCopy then Ok(InvalidCopy)
    else if !a.permit then Ok(Limited)
    else Ok(Registered)
  }

  function Register(s: Space, r: Receipt, a: RegisterAnswers): Space {
    if RegisterVerdict(s, r, a) == Ok(Registered) && OpOf(r) !in s.intents
    then s.(intents := s.intents[OpOf(r) := r]) else s
  }

  /** `cancel_request` outside an Active namespace; `owner` is the serial's stored epoch. */
  function CancelRequestVerdict(s: Space, r: Receipt, owner: Option<U64>, permitHeld: bool): Result<RequestOutcome> {
    if !ValidReceipt(r) then Err(Invalid)
    else if s.phase == NsDiscarded then Err(Incomplete)
    else if Settled(s, r).Some? then Ok(Settled(s, r).value)
    else if OpOf(r) !in s.intents then Ok(NotRegistered)
    else if Fingerprint(s.intents[OpOf(r)]) != Fingerprint(r) then Ok(RequestConflict)
    else if owner != Some(r.ownerEpoch) then Ok(RequestStale)
    else if !permitHeld then Err(Corrupt)
    else Ok(RequestCancelled)
  }

  function CancelRequest(s: Space, r: Receipt, owner: Option<U64>, permitHeld: bool): Space {
    if CancelRequestVerdict(s, r, owner, permitHeld) == Ok(RequestCancelled) && OpOf(r) !in s.ops
    then s.(ops := s.ops[OpOf(r) := Dropped(Fingerprint(r))], intents := s.intents - {OpOf(r)}) else s
  }

  /** `rotate_request_epoch`: open the next epoch. */
  function Rotate(s: Space, expected: U64, capacity: bool): Space {
    if (s.phase == NsReady || s.phase == NsBuilding) && s.window.accepting == expected && capacity && expected + 1 < U64_LIMIT
    then s.(window := Window(s.window.first, expected + 1)) else s
  }

  /** `advance_request_floor`: expire resolved epochs only; `held` stands for
      reservations and history pins below the new floor. */
  function AdvanceFloor(s: Space, expected: U64, before: U64, held: bool): Space {
    if (s.phase == NsReady || s.phase == NsBuilding) && s.window.first == expected &&
       expected < before <= s.window.accepting && !held && (forall o :: o in s.intents ==> o.epoch >= before)
    then s.(window := Window(before, s.window.accepting)) else s
  }

  /** `purge_expired_requests`: forget results below the floor, some at a time. */
  function PurgeExpired(s: Space, doomed: set<OpId>): Space {
    if s.phase == NsReady || s.phase == NsBuilding
    then s.(ops := map o | o in s.ops && (o in doomed ==> o.epoch >= s.window.first) :: s.ops[o]) else s
  }

  ghost predicate RequestsFit(s: Space) {
    && 1 <= s.window.first <= s.window.accepting
    && (forall o :: o in s.intents ==>
          s.window.first <= o.epoch <= s.window.accepting && OpOf(s.intents[o]) == o && o !in s.ops && ValidReceipt(s.intents[o]))
    && (forall o :: o in s.ops ==> o.epoch <= s.window.accepting)
  }

  /** The operation can have no further effect: its result is recorded, or its epoch expired. */
  predicate Spent(s: Space, o: OpId, result: Terminal) {
    o.epoch < s.window.first || Lookup(s.ops, o) == Some(result)
  }

  lemma RegisterKeeps(s: Space, r: Receipt, a: RegisterAnswers, o: OpId, result: Terminal)
    requires RequestsFit(s)
    ensures RequestsFit(Register(s, r, a))
    ensures Spent(s, o, result) ==> Spent(Register(s, r, a), o, result)
  {
    hide ValidReceipt, Fingerprint;
  }

  lemma CancelRequestKeeps(s: Space, r: Receipt, owner: Option<U64>, permitHeld: bool, o: OpId, result: Terminal)
    requires RequestsFit(s)
    ensures RequestsFit(CancelRequest(s, r, owner, permitHeld))
    ensures Spent(s, o, result) ==> Spent(CancelRequest(s, r, owner, permitHeld), o, result)
    ensures CancelRequestVerdict(s, r, owner, permitHeld) == Ok(RequestCancelled) ==>
              Spent(CancelRequest(s, r, owner, permitHeld), OpOf(r), Dropped(Fingerprint(r)))
  {
    hide ValidReceipt, Fingerprint;
  }

  lemma RotateKeeps(s: Space, expected: U64, capacity: bool, o: OpId, result: Terminal)
    requires RequestsFit(s)
    ensures RequestsFit(Rotate(s, expected, capacity)) && (Spent(s, o, result) ==> Spent(Rotate(s, expected, capacity), o, result))
    ensures var t := Rotate(s, expected, capacity);
            t == s.(window := t.window) && t.window.first == s.window.first &&
            (t.window.accepting == s.window.accepting + 1 <==>
               s.phase in {NsReady, NsBuilding} && expected == s.window.accepting < U64_LIMIT - 1 && capacity) &&
            (t.window.accepting != s.window.accepting + 1 ==> t == s)
  {
    hide ValidReceipt, Fingerprint;
  }

  lemma FloorKeeps(s: Space, expected: U64, before: U64, held: bool, o: OpId, result: Terminal)
    requires RequestsFit(s)
    ensures RequestsFit(AdvanceFloor(s, expected, before, held))
    ensures Spent(s, o, result) ==> Spent(AdvanceFloor(s, expected, before, held), o, result)
    ensures var t := AdvanceFloor(s, expected, before, held);
            t == s.(window := t.window) && t.window.accepting == s.window.accepting && s.window.first <= t.window.first &&
            (t.window.first == before > s.window.first <==>
               s.phase in {NsReady, NsBuilding} && expected == s.window.first < before <= s.window.accepting && !held &&
               forall o :: o in s.intents ==> before <= o.epoch) &&
            (t.window.first != before ==> t == s)
  {
    hide ValidReceipt, Fingerprint;
  }

  /** Forgetting expired results never revives an operation. */
  lemma PurgeExpiredKeeps(s: Space, doomed: set<OpId>, o: OpId, result: Terminal)
    requires RequestsFit(s)
    ensures RequestsFit(PurgeExpired(s, doomed)) && (Spent(s, o, result) ==> Spent(PurgeExpired(s, doomed), o, result))
    ensures var t := PurgeExpired(s, doomed);
            t == s.(ops := t.ops) && (o in t.ops ==> o in s.ops && t.ops[o] == s.ops[o]) &&
            (o in s.ops && o !in t.ops <==> o in s.ops && o in doomed && o.epoch < s.window.first && s.phase in {NsReady, NsBuilding})
  {
    hide ValidReceipt, Fingerprint;
  }
}
