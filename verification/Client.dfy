/** The client's leader-following request loop and upload loop (src/client.rs)
    against a server that may answer anything. What the network does is a list of
    replies; a call that uses it up is still trying. Deadlines are parameters. */
module Client {
  import opened Outcomes
  import opened ByteStrings

  /** One contact with one address. `Unsent`: no byte reached the server. `Lost`: the
      request may have arrived but no complete answer came back; with a sink, part
      of a body may already have been passed on. */
  datatype Reply = Unsent | Lost(partial: Bytes) | Answer(status: nat, hint: Option<string>, body: Bytes)

  datatype Attempt = Attempt(round: nat, address: string, reply: Reply)

  datatype Verb = Get | Head | Put | Delete | Post

  datatype Request = Request(verb: Verb, hasBody: bool, hasSink: bool)

  predicate SideEffects(q: Request) {
    q.hasBody || (q.verb != Get && q.verb != Head)
  }

  datatype Outcome = Responded(status: nat, body: Bytes) | Broken | NoLeader | StillTrying

  /** The server cannot have acted on such an attempt: it never got it, or refused it
      as not being in service. */
  predicate Harmless(r: Reply) {
    r.Unsent? || (r.Answer? && r.status == 503)
  }

  /** Body bytes an attempt passes to the sink. */
  function Written(q: Request, r: Reply): Bytes {
    if !q.hasSink then []
    else if r.Lost? then r.partial
    else if r.Answer? && r.status == 200 then r.body
    else []
  }

  function SinkOf(q: Request, attempts: seq<Attempt>): Bytes {
    if attempts == [] then [] else SinkOf(q, attempts[..|attempts| - 1]) + Written(q, attempts[|attempts| - 1].reply)
  }

  /** An attempt after which the loop goes on. */
  predicate Passed(q: Request, r: Reply) {
    Harmless(r) || (r.Lost? && !SideEffects(q) && !q.hasSink)
  }

  lemma {:induction false} NothingWritten(q: Request, attempts: seq<Attempt>)
    requires forall k :: 0 <= k < |attempts| ==> Passed(q, attempts[k].reply)
    ensures SinkOf(q, attempts) == []
    decreases |attempts|
  {
    if attempts != [] {
      NothingWritten(q, attempts[..|attempts| - 1]);
    }
  }

  predicate NoDuplicates(s: seq<string>) {
    forall i, j :: 0 <= i < j < |s| ==> s[i] != s[j]
  }

  function Addresses(attempts: seq<Attempt>): seq<string> {
    seq(|attempts|, k requires 0 <= k < |attempts| => attempts[k].address)
  }

  /** No address is contacted twice in one round. */
  predicate OncePerRound(attempts: seq<Attempt>) {
    forall j, k :: 0 <= j < k < |attempts| && attempts[j].round == attempts[k].round ==> attempts[j].address != attempts[k].address
  }

  /** What a run of attempts says about how it ended. */
  predicate EndsAs(q: Request, attempts: seq<Attempt>, r: Outcome) {
    match r
    case Responded(status, body) =>
      attempts != [] && status != 503 && attempts[|attempts| - 1].reply.Answer? &&
      attempts[|attempts| - 1].reply.status == status && attempts[|attempts| - 1].reply.body == body
    case Broken => attempts != [] && attempts[|attempts| - 1].reply.Lost? && !Passed(q, attempts[|attempts| - 1].reply)
    case _ => attempts != [] ==> Passed(q, attempts[|attempts| - 1].reply)
  }

  /** The promise of the request loop. */
  predicate Faithful(q: Request, attempts: seq<Attempt>, r: Outcome) {
    (forall k :: 0 <= k < |attempts| - 1 ==> Passed(q, attempts[k].reply)) && EndsAs(q, attempts, r)
  }

  /** So a request with side effects is never silently repeated: every attempt but the
      last was unsent or refused. */
  lemma NoSilentReplay(q: Request, attempts: seq<Attempt>, r: Outcome, k: nat)
    requires Faithful(q, attempts, r) && (q.hasBody || q.verb in {Put, Delete, Post}) && k + 1 < |attempts|
    ensures attempts[k].reply == Unsent || (attempts[k].reply.Answer? && attempts[k].reply.status == 503)
  {
  }

  /** And a sink receives bytes of at most one response, the last. */
  lemma OneResponseInSink(q: Request, attempts: seq<Attempt>, r: Outcome)
    requires Faithful(q, attempts, r)
    ensures SinkOf(q, attempts) ==
              if attempts == [] || !q.hasSink then []
              else match attempts[|attempts| - 1].reply
                   case Lost(partial) => partial
                   case Answer(status, _, body) => if status == 200 then body else []
                   case Unsent => []
  {
    if attempts != [] {
      NothingWritten(q, attempts[..|attempts| - 1]);
    }
  }

  /** The attempts of a round went to the first addresses of its order. */
  predicate Contacted(attempts: seq<Attempt>, round: nat, order: seq<string>) {
    |attempts| <= |order| && forall k :: 0 <= k < |attempts| ==> attempts[k].round == round && attempts[k].address == order[..|attempts|][k]
  }

  lemma ContactedOnce(attempts: seq<Attempt>, round: nat, order: seq<string>)
    requires Contacted(attempts, round, order)
    ensures NoDuplicates(order) ==> NoDuplicates(Addresses(attempts))
    ensures forall k :: 0 <= k < |attempts| ==> attempts[k].round == round
    ensures attempts != [] ==> order != [] && attempts[0].address == order[0]
  {
    assert forall k :: 0 <= k < |attempts| ==> Addresses(attempts)[k] == order[k];
  }

  lemma StillContacted(attempts: seq<Attempt>, round: nat, order: seq<string>, longer: seq<string>)
    requires Contacted(attempts, round, order) && |order| <= |longer| && longer[..|attempts|] == order[..|attempts|]
    ensures Contacted(attempts, round, longer)
  {
  }

  lemma WaitingEnds(q: Request, attempts: seq<Attempt>)
    requires forall k :: 0 <= k < |attempts| ==> Passed(q, attempts[k].reply)
    ensures EndsAs(q, attempts, StillTrying)
  {
  }

  /** What one more contact adds, and how the round ends if it ends there. */
  lemma OneMore(q: Request, attempts: seq<Attempt>, a: Attempt, order: seq<string>)
    requires Contacted(attempts, a.round, order) && |attempts| < |order| && order[|attempts|] == a.address && SinkOf(q, attempts) == []
    ensures Contacted(attempts + [a], a.round, order) && SinkOf(q, attempts + [a]) == Written(q, a.reply)
    ensures NoDuplicates(order) ==> NoDuplicates(Addresses(attempts + [a]))
    ensures (attempts + [a])[0].address == order[0] && forall k :: 0 <= k < |attempts + [a]| ==> (attempts + [a])[k].round == a.round
    ensures a.reply.Answer? && a.reply.status != 503 ==> EndsAs(q, attempts + [a], Responded(a.reply.status, a.reply.body))
    ensures a.reply.Lost? && !Passed(q, a.reply) ==> EndsAs(q, attempts + [a], Broken)
  {
    var all := attempts + [a];
    assert all[..|all| - 1] == attempts;
    ContactedOnce(all, a.round, order);
  }

  // ------------------------------------------------------- the order of a round

  function Without(endpoints: seq<string>, leader: Option<string>): seq<string> {
    if endpoints == [] then []
    else
      var rest, last := Without(endpoints[..|endpoints| - 1], leader), endpoints[|endpoints| - 1];
      if Some(last) != leader then rest + [last] else rest
  }

  function FirstOrder(endpoints: seq<string>, leader: Option<string>): seq<string> {
    (if leader.Some? then [leader.value] else []) + Without(endpoints, leader)
  }

  lemma {:induction false} WithoutFacts(endpoints: seq<string>, leader: Option<string>)
    ensures forall a :: a in Without(endpoints, leader) <==> a in endpoints && leader != Some(a)
    ensures NoDuplicates(endpoints) ==> NoDuplicates(Without(endpoints, leader))
    decreases |endpoints|
  {
    if endpoints != [] {
      var init, last := endpoints[..|endpoints| - 1], endpoints[|endpoints| - 1];
      assert endpoints == init + [last];
      WithoutFacts(init, leader);
      if NoDuplicates(endpoints) {
        assert NoDuplicates(init) && last !in init;
      }
    }
  }

  function Known(endpoints: seq<string>, leader: Option<string>): set<string> {
    (set a | a in endpoints) + (if leader.Some? then {leader.value} else {})
  }

  /** The leader comes first, and the order has exactly the known addresses. */
  lemma FirstOrderFacts(endpoints: seq<string>, leader: Option<string>)
    ensures var order := FirstOrder(endpoints, leader);
            (leader.Some? ==> order != [] && order[0] == leader.value) && (NoDuplicates(endpoints) ==> NoDuplicates(order)) &&
            (forall a :: a in order <==> a in Known(endpoints, leader)) && Listed(order, 0, Known(endpoints, leader), Contacts([]))
  {
    WithoutFacts(endpoints, leader);
  }

  function Contacts(attempts: seq<Attempt>): set<string> {
    set k | 0 <= k < |attempts| :: attempts[k].address
  }

  function HintOf(r: Reply): Option<string> {
    if r.Answer? && r.status == 503 then r.hint else None
  }

  /** A leader nobody had named before, hinted at by the last answer, is tried next. */
  predicate Followed(before: seq<Attempt>, known: set<string>, next: string) {
    before != [] &&
    HintOf(before[|before| - 1].reply).Some? && HintOf(before[|before| - 1].reply).value !in known + Contacts(before) ==>
      next == HintOf(before[|before| - 1].reply).value
  }

  predicate FollowsHints(attempts: seq<Attempt>, known: set<string>) {
    forall k :: 0 <= k < |attempts| ==> Followed(attempts[..k], known, attempts[k].address)
  }

  /** The addresses still to come are known ones or the one hinted at last. */
  predicate Listed(order: seq<string>, used: nat, known: set<string>, contacts: set<string>) {
    (forall a :: a in known ==> a in order) &&
    forall a :: a in order ==> a in known || a in contacts || (used < |order| && a == order[used])
  }

  lemma NoHints(known: set<string>, next: string)
    ensures FollowsHints([], known) && Followed([], known, next)
  {
  }

  lemma HintsFollowed(attempts: seq<Attempt>, a: Attempt, known: set<string>)
    requires FollowsHints(attempts, known) && Followed(attempts, known, a.address)
    ensures FollowsHints(attempts + [a], known)
  {
    var all := attempts + [a];
    forall k | 0 <= k < |all|
      ensures Followed(all[..k], known, all[k].address)
    {
      if k < |attempts| {
        assert all[..k] == attempts[..k];
      } else {
        assert all[..k] == attempts;
      }
    }
  }

  lemma OneMoreContact(attempts: seq<Attempt>, a: Attempt, order: seq<string>, known: set<string>)
    requires |attempts| < |order| && order[|attempts|] == a.address && Listed(order, |attempts|, known, Contacts(attempts))
    ensures Contacts(attempts + [a]) == Contacts(attempts) + {a.address}
    ensures forall x :: x in order ==> x in known + Contacts(attempts + [a])
    ensures Listed(order, |attempts| + 1, known, Contacts(attempts + [a]))
  {
    var all := attempts + [a];
    forall x | x in Contacts(attempts) + {a.address}
      ensures x in Contacts(all)
    {
      if x == a.address {
        assert all[|attempts|].address == x;
      } else {
        var k :| 0 <= k < |attempts| && attempts[k].address == x;
        assert all[k].address == x;
      }
    }
  }

  lemma NextIsHinted(attempts: seq<Attempt>, order: seq<string>, known: set<string>)
    requires attempts != [] && forall x :: x in order ==> x in known + Contacts(attempts)
    ensures HintOf(attempts[|attempts| - 1].reply).None? || HintOf(attempts[|attempts| - 1].reply).value in order ==>
              forall next :: Followed(attempts, known, next)
  {
  }

  lemma InsertedIsHinted(attempts: seq<Attempt>, order: seq<string>, longer: seq<string>, hint: string, known: set<string>)
    requires attempts != [] && |attempts| <= |order| && Listed(order, |attempts|, known, Contacts(attempts))
    requires forall x :: x in order ==> x in known + Contacts(attempts)
    requires HintOf(attempts[|attempts| - 1].reply) == Some(hint)
    requires |longer| == |order| + 1 && longer[..|attempts|] == order[..|attempts|] && longer[|attempts|] == hint &&
             longer[|attempts| + 1..] == order[|attempts|..]
    ensures Followed(attempts, known, longer[|attempts|]) && Listed(longer, |attempts|, known, Contacts(attempts))
  {
    var at := |attempts|;
    assert longer == order[..at] + [hint] + order[at..];
    assert order == order[..at] + order[at..];
  }

  lemma AllContacted(attempts: seq<Attempt>, round: nat, order: seq<string>, known: set<string>)
    requires Contacted(attempts, round, order) && |attempts| == |order| && Listed(order, |order|, known, Contacts(attempts))
    ensures known <= Contacts(attempts)
  {
    forall a | a in known
      ensures a in Contacts(attempts)
    {
      var k :| 0 <= k < |order| && order[k] == a;
      assert attempts[k].address == a;
    }
  }

  /** A round under way: its attempts went to the first addresses of its order and got the
      first replies, none of which ended it, and a new hint is what comes next. */
  ghost predicate Underway(q: Request, round: nat, replies: seq<Reply>, endpoints: seq<string>, leader: Option<string>, order: seq<string>,
                           attempts: seq<Attempt>) {
    var known := Known(endpoints, leader);
    && Contacted(attempts, round, order) && |attempts| <= |replies|
    && (forall k :: 0 <= k < |attempts| ==> attempts[k].reply == replies[k] && Passed(q, attempts[k].reply))
    && (NoDuplicates(endpoints) ==> NoDuplicates(order)) && (leader.Some? ==> order != [] && order[0] == leader.value)
    && FollowsHints(attempts, known) && Listed(order, |attempts|, known, Contacts(attempts))
    && (|attempts| < |order| ==> Followed(attempts, known, order[|attempts|]))
  }

  /** A round that ended: the known leader was asked first and a newly hinted one next, no
      address twice; every attempt but the last was passed over, and without a result
      every known address was tried and passed over. */
  ghost predicate RoundDone(q: Request, round: nat, replies: seq<Reply>, endpoints: seq<string>, leader: Option<string>, attempts: seq<Attempt>,
                            r: Option<Outcome>) {
    && |attempts| <= |replies|
    && (forall k :: 0 <= k < |attempts| ==> attempts[k].round == round && attempts[k].reply == replies[k])
    && (forall k :: 0 <= k < |attempts| - 1 ==> Passed(q, attempts[k].reply))
    && (NoDuplicates(endpoints) ==> NoDuplicates(Addresses(attempts)))
    && (attempts != [] && leader.Some? ==> attempts[0].address == leader.value) && FollowsHints(attempts, Known(endpoints, leader))
    && match r
       case Some(end) => EndsAs(q, attempts, end) && (end.Responded? || end.Broken? || (end.StillTrying? && |attempts| == |replies|))
       case None => Known(endpoints, leader) <= Contacts(attempts) && forall k :: 0 <= k < |attempts| ==> Passed(q, attempts[k].reply)
  }

  lemma RoundStarts(q: Request, round: nat, replies: seq<Reply>, endpoints: seq<string>, leader: Option<string>, order: seq<string>)
    requires order == FirstOrder(endpoints, leader)
    ensures Underway(q, round, replies, endpoints, leader, order, [])
  {
    hide Known, FirstOrder, NoDuplicates, Listed, Followed;
    FirstOrderFacts(endpoints, leader);
    NoHints(Known(endpoints, leader), if order == [] then "" else order[0]);
  }

  lemma RoundBounds(q: Request, round: nat, replies: seq<Reply>, endpoints: seq<string>, leader: Option<string>, order: seq<string>,
                    attempts: seq<Attempt>)
    requires Underway(q, round, replies, endpoints, leader, order, attempts)
    ensures |attempts| <= |order| && |attempts| <= |replies|
    ensures attempts == [] && leader.Some? ==> order != [] && order[0] == leader.value
  {
  }

  lemma RoundWaits(q: Request, round: nat, replies: seq<Reply>, endpoints: seq<string>, leader: Option<string>, order: seq<string>,
                   attempts: seq<Attempt>)
    requires Underway(q, round, replies, endpoints, leader, order, attempts) && |attempts| == |replies|
    ensures RoundDone(q, round, replies, endpoints, leader, attempts, Some(StillTrying))
  {
    hide Known, NoDuplicates, Listed, Followed, FollowsHints, Addresses, Contacts, Passed;
    ContactedOnce(attempts, round, order);
    WaitingEnds(q, attempts);
  }

  lemma RoundIsOver(q: Request, round: nat, replies: seq<Reply>, endpoints: seq<string>, leader: Option<string>, order: seq<string>,
                    attempts: seq<Attempt>)
    requires Underway(q, round, replies, endpoints, leader, order, attempts) && |attempts| == |order|
    ensures RoundDone(q, round, replies, endpoints, leader, attempts, None)
  {
    hide Known, NoDuplicates, Listed, Followed, FollowsHints, Addresses, Contacts, Passed;
    ContactedOnce(attempts, round, order);
    AllContacted(attempts, round, order, Known(endpoints, leader));
  }

  /** The next contact of a round. */
  function NextAttempt(round: nat, replies: seq<Reply>, order: seq<string>, n: nat): Attempt
    requires n < |order| && n < |replies|
  {
    Attempt(round, order[n], replies[n])
  }

  lemma RoundWrites(q: Request, round: nat, replies: seq<Reply>, endpoints: seq<string>, leader: Option<string>, order: seq<string>,
                    before: seq<Attempt>)
    requires Underway(q, round, replies, endpoints, leader, order, before) && |before| < |order| && |before| < |replies|
    ensures var a := NextAttempt(round, replies, order, |before|);
            SinkOf(q, before + [a]) == Written(q, a.reply) && (Passed(q, a.reply) ==> Written(q, a.reply) == [])
  {
    hide Known, NoDuplicates, Listed, Followed, FollowsHints, Contacts;
    NothingWritten(q, before);
    OneMore(q, before, NextAttempt(round, replies, order, |before|), order);
  }

  lemma RoundEnds(q: Request, round: nat, replies: seq<Reply>, endpoints: seq<string>, leader: Option<string>, order: seq<string>,
                  before: seq<Attempt>, r: Outcome)
    requires Underway(q, round, replies, endpoints, leader, order, before) && |before| < |order| && |before| < |replies|
    requires var reply := replies[|before|];
             if r.Responded? then reply.Answer? && reply.status != 503 && r == Responded(reply.status, reply.body)
             else r.Broken? && reply.Lost? && !Passed(q, reply)
    ensures RoundDone(q, round, replies, endpoints, leader, before + [NextAttempt(round, replies, order, |before|)], Some(r))
  {
    hide Known, NoDuplicates, Listed, Followed, FollowsHints, Addresses, Contacts, Contacted, SinkOf, Written, EndsAs, Passed;
    var a := NextAttempt(round, replies, order, |before|);
    NothingWritten(q, before);
    OneMore(q, before, a, order);
    HintsFollowed(before, a, Known(endpoints, leader));
  }

  lemma RoundGoesOn(q: Request, round: nat, replies: seq<Reply>, endpoints: seq<string>, leader: Option<string>, order: seq<string>,
                    before: seq<Attempt>)
    requires Underway(q, round, replies, endpoints, leader, order, before) && |before| < |order| && |before| < |replies|
    requires var reply := replies[|before|];
             Passed(q, reply) && (reply.Answer? && reply.hint.Some? ==> reply.hint.value in order)
    ensures Underway(q, round, replies, endpoints, leader, order, before + [NextAttempt(round, replies, order, |before|)])
  {
    hide Known, NoDuplicates, Listed, Followed, FollowsHints, Addresses, Contacts, Contacted, SinkOf, Written, EndsAs, Passed;
    var a, known := NextAttempt(round, replies, order, |before|), Known(endpoints, leader);
    NothingWritten(q, before);
    OneMore(q, before, a, order);
    HintsFollowed(before, a, known);
    OneMoreContact(before, a, order, known);
    NextIsHinted(before + [a], order, known);
  }

  lemma RoundGoesThere(q: Request, round: nat, replies: seq<Reply>, endpoints: seq<string>, leader: Option<string>, order: seq<string>,
                       longer: seq<string>, before: seq<Attempt>, hint: string)
    requires Underway(q, round, replies, endpoints, leader, order, before) && |before| < |order| && |before| < |replies|
    requires Passed(q, replies[|before|]) && HintOf(replies[|before|]) == Some(hint)
    requires var at := |before| + 1;
             |longer| == |order| + 1 && longer[..at] == order[..at] && longer[at] == hint && longer[at + 1..] == order[at..]
    requires NoDuplicates(order) ==> NoDuplicates(longer)
    ensures Underway(q, round, replies, endpoints, leader, longer, before + [NextAttempt(round, replies, order, |before|)])
  {
    hide Known, NoDuplicates, Listed, Followed, FollowsHints, Addresses, Contacts, Contacted, SinkOf, Written, EndsAs, Passed;
    var a, known := NextAttempt(round, replies, order, |before|), Known(endpoints, leader);
    NothingWritten(q, before);
    OneMore(q, before, a, order);
    HintsFollowed(before, a, known);
    OneMoreContact(before, a, order, known);
    StillContacted(before + [a], round, order, longer);
    InsertedIsHinted(before + [a], order, longer, hint, known);
    assert longer[0] == longer[..|before| + 1][0] == order[0];
  }

  class Client {
    var endpoints: seq<string>
    var leader: Option<string>

    constructor (endpoints: seq<string>)
      ensures this.endpoints == endpoints && leader.None?
    {
      this.endpoints, leader := endpoints, None;
    }

    /** The addresses of a round: the known leader first, then the other endpoints in
        their order. */
    method Order() returns (order: seq<string>)
      ensures order == FirstOrder(endpoints, leader)
    {
      order := if leader.Some? then [leader.value] else [];
      ghost var first := order;
      for k := 0 to |endpoints|
        invariant order == first + Without(endpoints[..k], leader)
      {
        assert endpoints[..k + 1][..k] == endpoints[..k];
        if Some(endpoints[k]) != leader { order := order + [endpoints[k]]; }
      }
      assert endpoints[..|endpoints|] == endpoints;
    }

    /** One round over the addresses, following leader hints. */
    method Round(q: Request, round: nat, replies: seq<Reply>) returns (r: Option<Outcome>, used: nat, attempts: seq<Attempt>, sink: Bytes)
      modifies `leader
      ensures used == |attempts| && RoundDone(q, round, replies, endpoints, old(leader), attempts, r)
      ensures leader == if r.Some? && r.value.Responded? then Some(attempts[|attempts| - 1].address) else if attempts == [] then old(leader) else None
      ensures sink == SinkOf(q, attempts)
    {
      hide SinkOf, NoDuplicates, Written, FirstOrder, FollowsHints, RoundDone, Underway;
      var order := Order();
      used, attempts, sink := 0, [], [];
      NothingWritten(q, attempts);
      RoundStarts(q, round, replies, endpoints, leader, order);
      while used < |order|
        invariant used == |attempts| && Underway(q, round, replies, endpoints, old(leader), order, attempts)
        invariant sink == [] == SinkOf(q, attempts) && leader == if attempts == [] then old(leader) else None
        decreases |replies| - used
      {
        RoundBounds(q, round, replies, endpoints, old(leader), order, attempts);
        if used == |replies| {
          RoundWaits(q, round, replies, endpoints, old(leader), order, attempts);
          return Some(StillTrying), used, attempts, sink;
        }
        var address, reply := order[used], replies[used];
        ghost var before := attempts;
        attempts, used := attempts + [Attempt(round, address, reply)], used + 1;
        sink := Written(q, reply);
        RoundWrites(q, round, replies, endpoints, old(leader), order, before);
        if leader == Some(address) { leader := None; }
        if reply.Answer? && reply.status != 503 {
          leader := Some(address);
          RoundEnds(q, round, replies, endpoints, old(leader), order, before, Responded(reply.status, reply.body));
          return Some(Responded(reply.status, reply.body)), used, attempts, sink;
        }
        if reply.Lost? && (SideEffects(q) || q.hasSink) {
          RoundEnds(q, round, replies, endpoints, old(leader), order, before, Broken);
          return Some(Broken), used, attempts, sink;
        }
        if reply.Answer? && reply.hint.Some? && reply.hint.value !in order {
          ghost var shorter := order;
          order := Insert(order, used, reply.hint.value);
          RoundGoesThere(q, round, replies, endpoints, old(leader), shorter, order, before, reply.hint.value);
        } else {
          RoundGoesOn(q, round, replies, endpoints, old(leader), order, before);
        }
      }
      RoundBounds(q, round, replies, endpoints, old(leader), order, attempts);
      RoundIsOver(q, round, replies, endpoints, old(leader), order, attempts);
      return None, used, attempts, sink;
    }

    /** A hinted leader is tried next. */
    static method Insert(order: seq<string>, at: nat, hint: string) returns (longer: seq<string>)
      requires at <= |order| && hint !in order
      ensures |longer| == |order| + 1 && longer[..at] == order[..at] && longer[at] == hint && longer[at + 1..] == order[at..]
      ensures NoDuplicates(order) ==> NoDuplicates(longer)
    {
      longer := order[..at] + [hint] + order[at..];
    }

    /** `request_leader_with`; `late(n)`: the deadline has passed after round n. */
    method RequestLeader(q: Request, replies: seq<Reply>, late: nat -> bool) returns (r: Outcome, attempts: seq<Attempt>, sink: Bytes)
      modifies `leader
      ensures Faithful(q, attempts, r) && |attempts| <= |replies|
      ensures forall k :: 0 <= k < |attempts| ==> attempts[k].reply == replies[k]
      ensures NoDuplicates(endpoints) ==> OncePerRound(attempts)
      ensures leader == if r.Responded? then Some(attempts[|attempts| - 1].address) else if attempts == [] then old(leader) else None
      ensures sink == SinkOf(q, attempts)
      ensures r.NoLeader? ==> exists n: nat :: late(n) && (forall k: nat :: k < n ==> !late(k)) && AllTried(attempts, endpoints, n + 1)
      ensures r.StillTrying? ==> |attempts| == |replies| || endpoints == []
    {
      hide SinkOf, NoDuplicates, OncePerRound, Passed, AllTried, Known, Contacts, FollowsHints;
      attempts, sink := [], [];
      NothingWritten(q, attempts);
      NoneTwice(attempts, endpoints);
      var round := 0;
      var left := replies;
      while true
        invariant |attempts| + |left| == |replies| && left == replies[|attempts|..]
        invariant forall k :: 0 <= k < |attempts| ==> attempts[k].reply == replies[k]
        invariant forall k :: 0 <= k < |attempts| ==> attempts[k].round < round && Passed(q, attempts[k].reply)
        invariant NoDuplicates(endpoints) ==> OncePerRound(attempts)
        invariant sink == [] == SinkOf(q, attempts)
        invariant leader == if attempts == [] then old(leader) else None
        invariant AllTried(attempts, endpoints, round) && forall k: nat :: k < round ==> !late(k)
        decreases |left|
      {
        ghost var known, before := Known(endpoints, leader), attempts;
        KnowsEndpoints(endpoints, leader);
        var result, used, more, written := Round(q, round, left);
        OneRoundMore(q, attempts, more, round);
        attempts, sink, left := attempts + more, written, left[used..];
        if result.Some? { return result.value, attempts, sink; }
        NothingWritten(q, attempts);
        OneRoundTried(before, more, endpoints, known, round);
        if late(round) { return NoLeader, attempts, sink; }
        if used == 0 {
          SomebodyAsked(endpoints, known, more);
          return StillTrying, attempts, sink;
        }
        round := round + 1;
      }
    }

    // ----------------------------------------------------------------- upload

    /** Ask for the path's state until it is settled; the list of answers used up
        stands for the deadline. */
    method Query(answers: seq<StatAnswer>) returns (asked: seq<StatAnswer>, end: QueryEnd)
      ensures asked <= answers && EndedBecause(answers, asked, end)
    {
      asked := [];
      if answers == [] { return [], NoAnswer; }
      asked := [answers[0]];
      while InFlight(asked[|asked| - 1]) && |asked| < |answers|
        invariant asked != [] && asked <= answers
        invariant forall k :: 0 <= k < |asked| - 1 ==> InFlight(asked[k])
        decreases |answers| - |asked|
      {
        assert asked + [answers[|asked|]] == answers[..|asked| + 1];
        asked := asked + [answers[|asked|]];
      }
      var last := asked[|asked| - 1];
      end := if last.StatFailed? then NoAnswer else if InFlight(last) then Late else Settled;
    }

    /** `put_body`: upload until there is a definite answer. `script(n)` is what the
        network does during try n; try `most` is the last before the deadline. */
    method PutBody(size: nat, digest: Bytes, createOnly: bool, wait: bool, script: nat -> Script, most: nat)
      returns (r: PutResult, tries: seq<Try>)
      modifies `leader
      ensures 0 < |tries| <= most + 1
      ensures forall k :: 0 <= k < |tries| ==> TriedBy(tries[k], script(k))
      ensures forall k :: 0 <= k < |tries| - 1 ==> MayRepeat(tries[k], size, digest, wait)
      ensures Concludes(tries[|tries| - 1], size, digest, createOnly, wait, |tries|, |tries| == most + 1, r)
    {
      hide MayRepeat, TriedBy;
      tries := [];
      while true
        invariant |tries| <= most
        invariant forall k :: 0 <= k < |tries| ==> TriedBy(tries[k], script(k)) && MayRepeat(tries[k], size, digest, wait)
        decreases most - |tries|
      {
        var n := |tries|;
        var t, result := PutOnce(size, digest, createOnly, wait, script(n), n + 1, n == most);
        tries := tries + [t];
        if result.Some? { return result.value, tries; }
      }
    }

    /** One try; a result when it is the last one. */
    method PutOnce(size: nat, digest: Bytes, createOnly: bool, wait: bool, s: Script, n: nat, last: bool) returns (t: Try, r: Option<PutResult>)
      modifies `leader
      ensures TriedBy(t, s)
      ensures r.Some? ==> Concludes(t, size, digest, createOnly, wait, n, last, r.value)
      ensures r.None? ==> MayRepeat(t, size, digest, wait) && !last
    {
      hide Faithful, AllTried;
      var outcome, attempts, sink := RequestLeader(PUT, s.replies, s.late);
      var status := Status(outcome);
      t := Try(attempts, outcome, [], false);
      if status == Some(201) { return t, Some(Stored(true, n, false)); }
      if status == Some(202) && !wait { return t, Some(Stored(false, n, false)); }
      if status == Some(412) { return t, Some(Exists); }
      if status !in {Some(202), Some(500)} && !outcome.Broken? { return t, Some(Refused(status)); }
      if status == Some(500) && s.failed {
        t := t.(notWritten := true);
      } else {
        if s.stats != [] && !wait && s.stats[0].Shown? && s.stats[0].state == InStaging && s.stats[0].size == size {
          return t.(asked := [s.stats[0]]), Some(Stored(false, n, true));
        }
        var asked, end := Query(s.stats);
        t := t.(asked := asked);
        if end.NoAnswer? { return t, Some(Unknown); }
        var shown := asked[|asked| - 1];
        if shown.Shown? && shown.current == Some((size, digest)) {
          if createOnly { return t, Some(Unknown); }
          return t, Some(Stored(true, n, true));
        }
        if end.Late? { return t, Some(Unknown); }
      }
      return t, if last then Some(Unknown) else None;
    }
  }

  const PUT := Request(Put, true, false)

  datatype PathState = Committed | Uploading | InStaging

  /** Answer to a status query: `current` is the committed version's length and digest. */
  datatype StatAnswer = StatFailed | Missing | Shown(state: PathState, size: nat, current: Option<(nat, Bytes)>)

  /** A version is on its way and its outcome is open. */
  predicate InFlight(a: StatAnswer) {
    a.Shown? && a.state != Committed
  }

  /** Why the queries about a path ended. */
  datatype QueryEnd = NoAnswer | Settled | Late

  /** All answers but the last showed a version in flight; the last one failed, or showed
      the path free or committed, or was the last before the deadline. */
  ghost predicate EndedBecause(answers: seq<StatAnswer>, asked: seq<StatAnswer>, end: QueryEnd) {
    (forall k :: 0 <= k < |asked| - 1 ==> InFlight(asked[k])) &&
    match end
    case NoAnswer => asked == answers == [] || (asked != [] && asked[|asked| - 1].StatFailed?)
    case Settled => asked != [] && (asked[|asked| - 1].Missing? || (asked[|asked| - 1].Shown? && asked[|asked| - 1].state == Committed))
    case Late => asked != [] && asked == answers && InFlight(asked[|asked| - 1])
  }

  /** What the network does during one upload try; `failed`: a 500 answer that states
      the content was not written. */
  datatype Script = Script(replies: seq<Reply>, late: nat -> bool, failed: bool, stats: seq<StatAnswer>)

  datatype Try = Try(attempts: seq<Attempt>, outcome: Outcome, asked: seq<StatAnswer>, notWritten: bool)

  datatype PutResult = Stored(committed: bool, attempts: nat, byQuery: bool) | Exists | Refused(status: Option<nat>) | Unknown

  function Status(r: Outcome): Option<nat> {
    if r.Responded? then Some(r.status) else None
  }

  /** A try is what the script made of it: its attempts got the scripted replies and its
      queries the scripted answers, and a 500 that says so means nothing was written. */
  ghost predicate TriedBy(t: Try, s: Script) {
    Faithful(PUT, t.attempts, t.outcome) && |t.attempts| <= |s.replies| &&
    (forall k :: 0 <= k < |t.attempts| ==> t.attempts[k].reply == s.replies[k]) && t.asked <= s.stats &&
    (t.notWritten <==> Status(t.outcome) == Some(500) && s.failed)
  }

  /** The outcome of the upload is open and must be asked for. */
  predicate IsOpen(t: Try, wait: bool) {
    t.outcome.Broken? || (Status(t.outcome) == Some(500) && !t.notWritten) || (wait && Status(t.outcome) == Some(202))
  }

  /** Only staging was asked for, and the first answer shows this length staged. */
  predicate ShowsStaged(t: Try, size: nat, wait: bool) {
    !wait && t.asked != [] && t.asked[0].Shown? && t.asked[0].state == InStaging && t.asked[0].size == size
  }

  /** The last answer shows a committed current version of exactly this length and digest. */
  predicate ShowsSame(t: Try, size: nat, digest: Bytes) {
    t.asked != [] && t.asked[|t.asked| - 1].Shown? && t.asked[|t.asked| - 1].current == Some((size, digest))
  }

  /** The query failed, or still showed a version in flight at the deadline. */
  predicate LeftOpen(t: Try) {
    t.asked == [] || t.asked[|t.asked| - 1].StatFailed? || InFlight(t.asked[|t.asked| - 1])
  }

  /** What the last try means for the caller: each result exactly in its own case. */
  predicate Concludes(t: Try, size: nat, digest: Bytes, createOnly: bool, wait: bool, n: nat, deadline: bool, r: PutResult) {
    var status, staged, same := Status(t.outcome), ShowsStaged(t, size, wait), ShowsSame(t, size, digest);
    match r
    case Stored(committed, attempts, byQuery) =>
      attempts == n &&
      (if byQuery then IsOpen(t, wait) && (if committed then !staged && same && !createOnly else staged)
       else status == if committed then Some(201) else Some(202)) && (!committed ==> !wait)
    case Exists => status == Some(412)
    case Refused(told) => told == status && !t.outcome.Broken? && status !in {Some(201), Some(202), Some(412), Some(500)}
    case Unknown =>
      || (t.notWritten && deadline)
      || (IsOpen(t, wait) && !staged && (if same then createOnly else LeftOpen(t) || deadline))
  }

  /** When content is sent again: the server said it was not written, or the outcome
      was open and a query has since shown the path free or other content committed. */
  predicate MayRepeat(t: Try, size: nat, digest: Bytes, wait: bool) {
    || (Status(t.outcome) == Some(500) && t.notWritten)
    || (IsOpen(t, wait) && t.asked != [] &&
        var last := t.asked[|t.asked| - 1];
        last.Missing? || (last.Shown? && last.state == Committed && last.current != Some((size, digest))))
  }

  lemma RoundsStayApart(before: seq<Attempt>, more: seq<Attempt>, round: nat)
    requires OncePerRound(before) && NoDuplicates(Addresses(more))
    requires forall k :: 0 <= k < |before| ==> before[k].round < round
    requires forall k :: 0 <= k < |more| ==> more[k].round == round
    ensures OncePerRound(before + more)
  {
    var all := before + more;
    forall j, k | 0 <= j < k < |all| && all[j].round == all[k].round
      ensures all[j].address != all[k].address
    {
      if j >= |before| {
        assert Addresses(more)[j - |before|] == all[j].address && Addresses(more)[k - |before|] == all[k].address;
      } else {
        assert k < |before|;
      }
    }
  }

  /** In each of the first `n` rounds every endpoint was contacted. */
  ghost predicate AllTried(attempts: seq<Attempt>, endpoints: seq<string>, n: nat) {
    forall k: nat, e :: k < n && e in endpoints ==> TriedIn(attempts, k, e)
  }

  predicate TriedIn(attempts: seq<Attempt>, round: nat, address: string) {
    exists j :: 0 <= j < |attempts| && attempts[j].round == round && attempts[j].address == address
  }

  lemma NoneTwice(attempts: seq<Attempt>, endpoints: seq<string>)
    requires attempts == []
    ensures OncePerRound(attempts) && AllTried(attempts, endpoints, 0)
  {
  }

  lemma KnowsEndpoints(endpoints: seq<string>, leader: Option<string>)
    ensures forall e :: e in endpoints ==> e in Known(endpoints, leader)
  {
  }

  lemma OneRoundTried(before: seq<Attempt>, more: seq<Attempt>, endpoints: seq<string>, known: set<string>, round: nat)
    requires AllTried(before, endpoints, round) && known <= Contacts(more) && forall e :: e in endpoints ==> e in known
    requires forall k :: 0 <= k < |more| ==> more[k].round == round
    ensures AllTried(before + more, endpoints, round + 1)
  {
    var all := before + more;
    forall k: nat, e | k < round + 1 && e in endpoints
      ensures TriedIn(all, k, e)
    {
      if k < round {
        assert TriedIn(before, k, e);
        var j :| 0 <= j < |before| && before[j].round == k && before[j].address == e;
        assert all[j] == before[j];
      } else {
        var j :| 0 <= j < |more| && more[j].address == e;
        assert all[|before| + j] == more[j];
      }
    }
  }

  lemma SomebodyAsked(endpoints: seq<string>, known: set<string>, more: seq<Attempt>)
    requires known <= Contacts(more) && forall e :: e in endpoints ==> e in known
    ensures endpoints == [] || more != []
  {
    if endpoints != [] {
      assert endpoints[0] in Contacts(more);
    }
  }

  lemma OneRoundMore(q: Request, before: seq<Attempt>, more: seq<Attempt>, round: nat)
    requires forall k :: 0 <= k < |before| ==> before[k].round < round && Passed(q, before[k].reply)
    requires forall k :: 0 <= k < |more| ==> more[k].round == round
    ensures OncePerRound(before) && NoDuplicates(Addresses(more)) ==> OncePerRound(before + more)
    ensures SinkOf(q, before + more) == SinkOf(q, more)
  {
    hide SinkOf, OncePerRound, NoDuplicates;
    if OncePerRound(before) && NoDuplicates(Addresses(more)) {
      RoundsStayApart(before, more, round);
    }
    NothingWritten(q, before);
    SinkAppends(q, before, more);
  }

  lemma {:induction false} SinkAppends(q: Request, before: seq<Attempt>, more: seq<Attempt>)
    ensures SinkOf(q, before + more) == SinkOf(q, before) + SinkOf(q, more)
    decreases |more|
  {
    if more == [] {
      assert before + more == before;
    } else {
      var rest := more[..|more| - 1];
      assert (before + more)[..|before + more| - 1] == before + rest;
      SinkAppends(q, before, rest);
    }
  }
}
