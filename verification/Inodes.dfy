/** The inode tables of the FUSE layer (src/tapefs.rs, `Inodes`): paths, local
    inode numbers and backend identities. */
module Inodes {
  import opened Outcomes
  import opened ByteStrings

  const ROOT_INO: nat := 1
  const ROOT_PATH := "/"

  datatype Identity = Identity(namespace: Uuid, inode: Uuid)

  datatype InodeRecord = InodeRecord(path: string, identity: Option<Identity>)

  /** The value of the tables. */
  datatype Tables = Tables(
    byIno: map<nat, InodeRecord>,
    byPath: map<string, nat>,
    byIdentity: map<Identity, nat>,
    next: nat)

  const NO_INODES := Tables(map[], map[], map[], 0)

  // -------------------------------------------------------- what a call does

  function NextIno(next: nat): nat {
    (if next < ROOT_INO then ROOT_INO else next) + 1
  }

  function Fresh(t: Tables, path: string): Tables {
    var ino := NextIno(t.next);
    t.(next := ino, byIno := t.byIno[ino := InodeRecord(path, None)], byPath := t.byPath[path := ino])
  }

  function Assign(t: Tables, path: string): Tables {
    if path == ROOT_PATH || path in t.byPath then t else Fresh(t, path)
  }

  function Ino(t: Tables, path: string): nat {
    if path == ROOT_PATH then ROOT_INO else if path in t.byPath then t.byPath[path] else NextIno(t.next)
  }

  function BindRoot(t: Tables, d: Identity): Tables {
    var byIno := if ROOT_INO in t.byIno then t.byIno else t.byIno[ROOT_INO := InodeRecord(ROOT_PATH, Some(d))];
    t.(byIno := byIno, byPath := t.byPath[ROOT_PATH := ROOT_INO],
       byIdentity := if byIno[ROOT_INO].identity == Some(d) && d !in t.byIdentity
                     then t.byIdentity[d := ROOT_INO] else t.byIdentity)
  }

  /** A known identity turns up at a path: its inode moves there. */
  function MoveTo(t: Tables, ino: nat, path: string): Tables
    requires ino in t.byIno
  {
    var was := t.byIno[ino].path;
    var left := if was != path && was in t.byPath && t.byPath[was] == ino then t.byPath - {was} else t.byPath;
    t.(byIno := t.byIno[ino := t.byIno[ino].(path := path)], byPath := left[path := ino])
  }

  function SetIdentity(t: Tables, ino: nat, d: Identity): Tables
    requires ino in t.byIno
  {
    t.(byIno := t.byIno[ino := t.byIno[ino].(identity := Some(d))], byIdentity := t.byIdentity[d := ino])
  }

  /** An inode for a new identity: the one the path has, unless that one already
      stands for another file. */
  function Claim(t: Tables, path: string): Tables
    requires path != ROOT_PATH && Sound(t)
  {
    var s := Assign(t, path);
    if s.byIno[s.byPath[path]].identity.Some? then Fresh(s.(byPath := s.byPath - {path}), path) else s
  }

  function Bind(t: Tables, path: string, d: Identity): Tables
    requires Sound(t)
  {
    if path == ROOT_PATH then BindRoot(t, d)
    else if d in t.byIdentity then MoveTo(t, t.byIdentity[d], path)
    else
      var s := Claim(t, path);
      SetIdentity(s, s.byPath[path], d)
  }

  /** Table entries lead to records. */
  predicate Sound(t: Tables) {
    && (forall p :: p in t.byPath ==> t.byPath[p] in t.byIno)
    && (forall d :: d in t.byIdentity ==> t.byIdentity[d] in t.byIno)
  }

  predicate MayBindUploaded(t: Tables, ino: nat, d: Identity) {
    && (d in t.byIdentity ==> t.byIdentity[d] == ino)
    && ino in t.byIno && t.byIno[ino].identity in {None, Some(d)}
  }

  // ------------------------------------------------------------- the tables

  class Inodes {
    var byIno: map<nat, InodeRecord>
    var byPath: map<string, nat>
    var byIdentity: map<Identity, nat>
    var next: nat

    function Value(): Tables
      reads this
    {
      Tables(byIno, byPath, byIdentity, next)
    }

    constructor ()
      ensures Value() == NO_INODES
    {
      byIno, byPath, byIdentity, next := map[], map[], map[], 0;
    }

    method GetOrAssign(path: string) returns (ino: nat)
      modifies this
      ensures Value() == Assign(old(Value()), path)
      ensures ino == Ino(old(Value()), path)
    {
      if path == ROOT_PATH { return ROOT_INO; }
      if path in byPath { return byPath[path]; }
      next := (if next < ROOT_INO then ROOT_INO else next) + 1;
      byIno := byIno[next := InodeRecord(path, None)];
      byPath := byPath[path := next];
      return next;
    }

    method GetOrBind(path: string, version: Option<Identity>) returns (ino: nat)
      requires Sound(Value())
      modifies this
      ensures version.None? ==> Value() == Assign(old(Value()), path) && ino == Ino(old(Value()), path)
      ensures version.Some? ==> Value() == Bind(old(Value()), path, version.value)
      ensures version.Some? ==> path in byPath && ino == byPath[path]
    {
      if version.None? {
        ino := GetOrAssign(path);
        return;
      }
      var identity := version.value;
      if path == ROOT_PATH {
        if ROOT_INO !in byIno { byIno := byIno[ROOT_INO := InodeRecord(ROOT_PATH, Some(identity))]; }
        byPath := byPath[ROOT_PATH := ROOT_INO];
        if byIno[ROOT_INO].identity == Some(identity) && identity !in byIdentity {
          byIdentity := byIdentity[identity := ROOT_INO];
        }
        return ROOT_INO;
      }
      if identity in byIdentity {
        ino := byIdentity[identity];
        var was := byIno[ino].path;
        if was != path {
          if was in byPath && byPath[was] == ino { byPath := byPath - {was}; }
          byIno := byIno[ino := byIno[ino].(path := path)];
        }
        byPath := byPath[path := ino];
        return;
      }
      ino := GetOrAssign(path);
      if byIno[ino].identity.Some? {
        byPath := byPath - {path};
        ino := GetOrAssign(path);
      }
      byIno := byIno[ino := byIno[ino].(identity := Some(identity))];
      byIdentity := byIdentity[identity := ino];
    }

    /** The identity a confirmed upload reports for the inode it came from. */
    method BindUploaded(ino: nat, identity: Identity) returns (accepted: bool)
      modifies this
      ensures accepted <==> MayBindUploaded(old(Value()), ino, identity)
      ensures Value() == if accepted then SetIdentity(old(Value()), ino, identity) else old(Value())
    {
      if identity in byIdentity && byIdentity[identity] != ino { return false; }
      if ino !in byIno { return false; }
      if byIno[ino].identity.Some? && byIno[ino].identity != Some(identity) { return false; }
      byIno := byIno[ino := byIno[ino].(identity := Some(identity))];
      byIdentity := byIdentity[identity := ino];
      return true;
    }

    /** unlink and rmdir drop the name; the record stays for open handles. */
    method Forget(path: string)
      modifies this
      ensures Value() == old(Value()).(byPath := old(byPath) - {path})
    {
      byPath := byPath - {path};
    }
  }

  // ------------------------------------------------------------------- runs

  datatype Step =
    | AssignStep(path: string)
    | BindStep(path: string, identity: Identity)
    | UploadStep(ino: nat, identity: Identity)
    | ForgetStep(path: string)

  function Next(t: Tables, step: Step): Tables
    requires Sound(t)
  {
    match step
    case AssignStep(path) => Assign(t, path)
    case BindStep(path, d) => Bind(t, path, d)
    case UploadStep(ino, d) => if MayBindUploaded(t, ino, d) then SetIdentity(t, ino, d) else t
    case ForgetStep(path) => t.(byPath := t.byPath - {path})
  }

  predicate PathFits(t: Tables, p: string) {
    p in t.byPath && t.byPath[p] in t.byIno && t.byIno[t.byPath[p]].path == p
  }

  predicate IdentityFits(t: Tables, d: Identity) {
    d in t.byIdentity && t.byIdentity[d] in t.byIno && t.byIno[t.byIdentity[d]].identity == Some(d)
  }

  predicate RecordFits(t: Tables, i: nat) {
    i in t.byIno && (i == ROOT_INO || ROOT_INO < i <= t.next) && (i == ROOT_INO <==> t.byIno[i].path == ROOT_PATH) &&
    (t.byIno[i].identity.Some? ==> Lookup(t.byIdentity, t.byIno[i].identity.value) == Some(i))
  }

  function Lookup(m: map<Identity, nat>, d: Identity): Option<nat> {
    if d in m then Some(m[d]) else None
  }

  /** Names agree with records, identities and inodes are in bijection, the root
      keeps its number and its name. */
  ghost predicate Fits(t: Tables) {
    && (forall p :: p in t.byPath ==> PathFits(t, p))
    && (forall d :: d in t.byIdentity ==> IdentityFits(t, d))
    && (forall i :: i in t.byIno ==> RecordFits(t, i))
  }

  /** So no two paths share an inode, and no two identities do. */
  lemma TablesAreOneToOne(t: Tables, p: string, q: string, d: Identity, e: Identity)
    requires Fits(t)
    ensures p in t.byPath && q in t.byPath && t.byPath[p] == t.byPath[q] ==> p == q
    ensures d in t.byIdentity && e in t.byIdentity && t.byIdentity[d] == t.byIdentity[e] ==> d == e
  {
    assert p in t.byPath ==> PathFits(t, p);
    assert q in t.byPath ==> PathFits(t, q);
    assert d in t.byIdentity ==> IdentityFits(t, d);
    assert e in t.byIdentity ==> IdentityFits(t, e);
  }

  lemma FitsIsSound(t: Tables)
    requires Fits(t)
    ensures Sound(t)
  {
    forall p | p in t.byPath
      ensures t.byPath[p] in t.byIno
    {
      assert PathFits(t, p);
    }
    forall d | d in t.byIdentity
      ensures t.byIdentity[d] in t.byIno
    {
      assert IdentityFits(t, d);
    }
  }

  /** The two calls the tables do not survive: the root's identity turning up at
      another path, and the root being bound to an identity that another inode has. */
  predicate Breaks(t: Tables, step: Step) {
    match step
    case BindStep(path, d) =>
      if path == ROOT_PATH then ROOT_INO !in t.byIno && d in t.byIdentity
      else Lookup(t.byIdentity, d) == Some(ROOT_INO)
    case _ => false
  }

  lemma FreshFits(t: Tables, path: string)
    requires Fits(t) && path != ROOT_PATH
    ensures Fits(Fresh(t, path)) && NextIno(t.next) !in t.byIno
  {
    var s := Fresh(t, path);
    assert NextIno(t.next) in t.byIno ==> RecordFits(t, NextIno(t.next));
    forall p | p in s.byPath
      ensures PathFits(s, p)
    {
      assert p != path ==> PathFits(t, p);
    }
    forall d | d in s.byIdentity
      ensures IdentityFits(s, d)
    {
      assert IdentityFits(t, d);
    }
    forall i | i in s.byIno
      ensures RecordFits(s, i)
    {
      assert i != NextIno(t.next) ==> RecordFits(t, i);
    }
  }

  lemma ForgetFits(t: Tables, path: string)
    requires Fits(t)
    ensures Fits(t.(byPath := t.byPath - {path}))
  {
    var s := t.(byPath := t.byPath - {path});
    forall p | p in s.byPath
      ensures PathFits(s, p)
    {
      assert PathFits(t, p);
    }
    forall d | d in s.byIdentity
      ensures IdentityFits(s, d)
    {
      assert IdentityFits(t, d);
    }
    forall i | i in s.byIno
      ensures RecordFits(s, i)
    {
      assert RecordFits(t, i);
    }
  }

  lemma SetIdentityFits(t: Tables, ino: nat, d: Identity)
    requires Fits(t) && MayBindUploaded(t, ino, d)
    ensures Fits(SetIdentity(t, ino, d))
  {
    var s := SetIdentity(t, ino, d);
    forall p | p in s.byPath
      ensures PathFits(s, p)
    {
      assert PathFits(t, p);
    }
    forall e | e in s.byIdentity
      ensures IdentityFits(s, e)
    {
      assert e != d ==> IdentityFits(t, e);
      assert RecordFits(t, ino);
    }
    forall i | i in s.byIno
      ensures RecordFits(s, i)
    {
      assert RecordFits(t, i);
    }
  }

  lemma MoveFits(t: Tables, d: Identity, path: string)
    requires Fits(t) && d in t.byIdentity && path != ROOT_PATH && t.byIdentity[d] != ROOT_INO
    ensures t.byIdentity[d] in t.byIno && Fits(MoveTo(t, t.byIdentity[d], path))
  {
    assert IdentityFits(t, d);
    var ino := t.byIdentity[d];
    var s := MoveTo(t, ino, path);
    forall p | p in s.byPath
      ensures PathFits(s, p)
    {
      assert p in t.byPath ==> PathFits(t, p);
    }
    forall e | e in s.byIdentity
      ensures IdentityFits(s, e)
    {
      assert IdentityFits(t, e);
    }
    forall i | i in s.byIno
      ensures RecordFits(s, i)
    {
      assert RecordFits(t, i);
    }
  }

  lemma BindRootFits(t: Tables, d: Identity)
    requires Fits(t)
    ensures Fits(BindRoot(t, d)) <==> ROOT_INO in t.byIno || d !in t.byIdentity
  {
    var s := BindRoot(t, d);
    assert ROOT_INO in t.byIno ==> RecordFits(t, ROOT_INO);
    if ROOT_INO in t.byIno || d !in t.byIdentity {
      forall p | p in s.byPath
        ensures PathFits(s, p)
      {
        assert p in t.byPath ==> PathFits(t, p);
      }
      forall e | e in s.byIdentity
        ensures IdentityFits(s, e)
      {
        assert e in t.byIdentity ==> IdentityFits(t, e);
      }
      forall i | i in s.byIno
        ensures RecordFits(s, i)
      {
        assert i in t.byIno ==> RecordFits(t, i);
      }
    } else {
      assert IdentityFits(t, d);
      assert !RecordFits(s, ROOT_INO);
    }
  }

  lemma ClaimFits(t: Tables, path: string)
    requires Fits(t) && Sound(t) && path != ROOT_PATH
    ensures var s := Claim(t, path);
            Fits(s) && s.byIdentity == t.byIdentity && path in s.byPath && s.byPath[path] in s.byIno &&
            s.byIno[s.byPath[path]].identity.None?
  {
    hide Fits;
    FreshFits(t, path);
    var s := Assign(t, path);
    ForgetFits(s, path);
    FreshFits(s.(byPath := s.byPath - {path}), path);
  }

  /** A call keeps the tables sound exactly when it is not one of those two. */
  lemma StepFitsExactly(t: Tables, step: Step)
    requires Fits(t)
    ensures Sound(t) && (Fits(Next(t, step)) <==> !Breaks(t, step))
  {
    hide Fits, Fresh, BindRoot, MoveTo, SetIdentity, Claim;
    FitsIsSound(t);
    match step
    case AssignStep(path) => if path != ROOT_PATH && path !in t.byPath { FreshFits(t, path); }
    case BindStep(path, d) => BindFitsExactly(t, path, d);
    case UploadStep(ino, d) => if MayBindUploaded(t, ino, d) { SetIdentityFits(t, ino, d); }
    case ForgetStep(path) => ForgetFits(t, path);
  }

  lemma BindFitsExactly(t: Tables, path: string, d: Identity)
    requires Fits(t) && Sound(t)
    ensures Fits(Bind(t, path, d)) <==> !Breaks(t, BindStep(path, d))
  {
    hide Fits, Fresh, BindRoot, MoveTo, SetIdentity, Claim;
    if path == ROOT_PATH {
      BindRootFits(t, d);
    } else if d in t.byIdentity {
      if t.byIdentity[d] == ROOT_INO {
        RootMoves(t, path);
      } else {
        MoveFits(t, d, path);
      }
    } else {
      ClaimFits(t, path);
      var s := Claim(t, path);
      SetIdentityFits(s, s.byPath[path], d);
    }
  }

  lemma RootMoves(t: Tables, path: string)
    requires ROOT_INO in t.byIno && path != ROOT_PATH
    ensures !Fits(MoveTo(t, ROOT_INO, path))
  {
    assert !RecordFits(MoveTo(t, ROOT_INO, path), ROOT_INO);
  }

  /** After a lookup the path leads to its inode; nothing known before has changed. */
  lemma AssignFinds(t: Tables, path: string)
    requires Fits(t) && path != ROOT_PATH
    ensures var u := Assign(t, path);
            path in u.byPath && u.byPath[path] == Ino(t, path) && Ino(t, path) in u.byIno && u.byIno[Ino(t, path)].path == path &&
            (path in t.byPath ==> u == t) && (path !in t.byPath ==> Ino(t, path) !in t.byIno) &&
            u.byPath - {path} == t.byPath - {path} && u.byIno - {Ino(t, path)} == t.byIno - {Ino(t, path)} && u.byIdentity == t.byIdentity
  {
    assert path in t.byPath ==> PathFits(t, path);
    if path !in t.byPath { FreshFits(t, path); }
  }

  /** The path leads to the inode that stands for the file: the one the file always had,
      or the path's own if no file had it, or else a new one. */
  predicate Found(t: Tables, u: Tables, path: string, d: Identity) {
    path in u.byPath && u.byPath[path] in u.byIno && u.byIno[u.byPath[path]] == InodeRecord(path, Some(d)) &&
    Lookup(u.byIdentity, d) == Some(u.byPath[path]) &&
    if d in t.byIdentity then u.byPath[path] == t.byIdentity[d]
    else if path in t.byPath && t.byPath[path] in t.byIno && t.byIno[t.byPath[path]].identity.None? then u.byPath[path] == t.byPath[path]
    else u.byPath[path] !in t.byIno
  }

  /** That inode has no other name; no other name, inode or file is affected. */
  ghost predicate OthersStay(t: Tables, u: Tables, path: string, d: Identity) {
    && path in u.byPath
    && (forall q :: q != path ==> (q in u.byPath <==> q in t.byPath && t.byPath[q] != u.byPath[path]))
    && (forall q :: q != path && q in u.byPath ==> u.byPath[q] == t.byPath[q])
    && (forall i :: i in t.byIno && i != u.byPath[path] ==> i in u.byIno && u.byIno[i] == t.byIno[i])
    && (forall e :: e != d ==> Lookup(u.byIdentity, e) == Lookup(t.byIdentity, e))
  }

  lemma MoveFinds(t: Tables, path: string, d: Identity)
    requires Fits(t) && d in t.byIdentity
    ensures t.byIdentity[d] in t.byIno
    ensures Found(t, MoveTo(t, t.byIdentity[d], path), path, d) && OthersStay(t, MoveTo(t, t.byIdentity[d], path), path, d)
  {
    assert IdentityFits(t, d);
    var u := MoveTo(t, t.byIdentity[d], path);
    forall q | q != path
      ensures q in u.byPath <==> q in t.byPath && t.byPath[q] != u.byPath[path]
    {
      assert q in t.byPath ==> PathFits(t, q);
    }
  }

  lemma NewFinds(t: Tables, path: string, d: Identity)
    requires Fits(t) && path != ROOT_PATH && d !in t.byIdentity
    requires path in t.byPath ==> t.byPath[path] in t.byIno && t.byIno[t.byPath[path]].identity.Some?
    ensures var s := Fresh(t.(byPath := t.byPath - {path}), path);
            var u := SetIdentity(s, s.byPath[path], d);
            Found(t, u, path, d) && OthersStay(t, u, path, d)
  {
    InoIsNamed(t);
    hide Fits;
    FreshFits(t, path);
  }

  lemma ClaimFinds(t: Tables, path: string, d: Identity)
    requires Fits(t) && Sound(t) && path != ROOT_PATH && d !in t.byIdentity
    ensures var s := Claim(t, path);
            var u := SetIdentity(s, s.byPath[path], d);
            Found(t, u, path, d) && OthersStay(t, u, path, d)
  {
    hide Fits;
    if path in t.byPath && t.byIno[t.byPath[path]].identity.None? {
      AssignFinds(t, path);
      NamedOnce(t, path);
    } else {
      hide Found, OthersStay;
      NewFinds(t, path, d);
      assert path !in t.byPath ==> t.(byPath := t.byPath - {path}) == t;
    }
  }

  lemma NamedOnce(t: Tables, path: string)
    requires Fits(t)
    ensures forall q :: q in t.byPath && path in t.byPath && t.byPath[q] == t.byPath[path] ==> q == path
  {
    forall q | q in t.byPath && path in t.byPath && t.byPath[q] == t.byPath[path]
      ensures q == path
    {
      assert PathFits(t, q) && PathFits(t, path);
    }
  }

  lemma InoIsNamed(t: Tables)
    requires Fits(t)
    ensures forall q :: q in t.byPath ==> t.byPath[q] in t.byIno
  {
    FitsIsSound(t);
  }

  /** What a bind leaves behind. */
  lemma BindFinds(t: Tables, path: string, d: Identity)
    requires Fits(t) && Sound(t) && path != ROOT_PATH
    ensures Found(t, Bind(t, path, d), path, d) && OthersStay(t, Bind(t, path, d), path, d)
  {
    hide Fits, Found, OthersStay, Claim, MoveTo, SetIdentity;
    if d in t.byIdentity { MoveFinds(t, path, d); } else { ClaimFinds(t, path, d); }
  }

  /** Both failures occur: one identity bound to two inodes, and the root inode
      carried off to another path. */
  lemma BreakingCalls()
    ensures var d := Identity(1, 2);
            var late := Next(NO_INODES, BindStep("/a", d));
            Fits(late) && !Fits(Next(late, BindStep("/", d)))
    ensures var d := Identity(1, 2);
            var early := Next(NO_INODES, BindStep("/", d));
            Fits(early) && Sound(early) && !Fits(Next(early, BindStep("/a", d)))
  {
    var d := Identity(1, 2);
    assert Fits(NO_INODES);
    StepFitsExactly(NO_INODES, BindStep("/a", d));
    StepFitsExactly(NO_INODES, BindStep("/", d));
    StepFitsExactly(Next(NO_INODES, BindStep("/a", d)), BindStep("/", d));
    StepFitsExactly(Next(NO_INODES, BindStep("/", d)), BindStep("/a", d));
  }

  /** Records stay, and an identity once set never changes. */
  ghost predicate Persists(t: Tables, u: Tables) {
    t.next <= u.next &&
    forall i :: i in t.byIno ==> i in u.byIno && (t.byIno[i].identity.Some? ==> u.byIno[i].identity == t.byIno[i].identity)
  }

  lemma StepPersists(t: Tables, step: Step)
    requires Fits(t) && Sound(t)
    ensures Persists(t, Next(t, step))
  {
    match step
    case AssignStep(path) => if path != ROOT_PATH { FreshFits(t, path); }
    case BindStep(path, d) => BindPersists(t, path, d);
    case _ =>
  }

  lemma FreshPersists(t: Tables, path: string)
    requires Fits(t) && path != ROOT_PATH
    ensures Persists(t, Fresh(t, path))
  {
    FreshFits(t, path);
  }

  lemma BindPersists(t: Tables, path: string, d: Identity)
    requires Fits(t) && Sound(t)
    ensures Persists(t, Bind(t, path, d))
  {
    hide Fits;
    if path != ROOT_PATH && d !in t.byIdentity {
      FreshPersists(t, path);
      var s := Assign(t, path);
      StepFitsExactly(t, AssignStep(path));
      ForgetFits(s, path);
      FreshPersists(s.(byPath := s.byPath - {path}), path);
      ClaimFits(t, path);
      assert Persists(t, Claim(t, path));
    }
  }

  /** The tables after a run of calls on an empty mount. */
  ghost function After(steps: seq<Step>): Tables
    decreases |steps|
  {
    if steps == [] then NO_INODES
    else
      var t := After(steps[..|steps| - 1]);
      if Sound(t) then Next(t, steps[|steps| - 1]) else t
  }

  ghost predicate BreaksAt(steps: seq<Step>, i: nat) {
    i < |steps| && Breaks(After(steps[..i]), steps[i])
  }

  ghost predicate Unbroken(steps: seq<Step>) {
    forall i: nat :: i < |steps| ==> !BreaksAt(steps, i)
  }

  lemma OneMore(steps: seq<Step>, i: nat)
    requires i < |steps|
    ensures After(steps[..i + 1]) == var t := After(steps[..i]); if Sound(t) then Next(t, steps[i]) else t
  {
    assert steps[..i + 1][..i] == steps[..i];
  }

  lemma {:induction false} RunFits(steps: seq<Step>, i: nat)
    requires Unbroken(steps) && i <= |steps|
    ensures Fits(After(steps[..i])) && Sound(After(steps[..i]))
    decreases i
  {
    hide Next, Breaks, Sound, Fits;
    if i == 0 {
      NothingFits();
    } else {
      RunFits(steps, i - 1);
      OneMore(steps, i - 1);
      assert !BreaksAt(steps, i - 1);
      StepFitsExactly(After(steps[..i - 1]), steps[i - 1]);
      FitsIsSound(After(steps[..i]));
    }
  }

  lemma NothingFits()
    ensures Fits(NO_INODES) && Sound(NO_INODES)
  {
  }

  /** The tables fit at every point of a run if and only if no call of it breaks them. */
  lemma RunFitsExactly(steps: seq<Step>)
    ensures (forall i: nat :: i <= |steps| ==> Fits(After(steps[..i]))) <==> Unbroken(steps)
  {
    hide Next, Breaks, Sound, Fits;
    if Unbroken(steps) {
      forall i: nat | i <= |steps|
        ensures Fits(After(steps[..i]))
      {
        RunFits(steps, i);
      }
    }
    if forall i: nat :: i <= |steps| ==> Fits(After(steps[..i])) {
      forall i: nat | i < |steps|
        ensures !BreaksAt(steps, i)
      {
        OneMore(steps, i);
        StepFitsExactly(After(steps[..i]), steps[i]);
        assert Fits(After(steps[..i])) && Fits(After(steps[..i + 1]));
      }
    }
  }

  /** A mount binds the root's identity first, and that identity only at "/". */
  predicate RootFirst(steps: seq<Step>, root: Identity) {
    steps != [] && steps[0] == BindStep(ROOT_PATH, root) &&
    forall i :: 0 <= i < |steps| && steps[i].BindStep? && steps[i].identity == root ==> steps[i].path == ROOT_PATH
  }

  predicate RootIs(t: Tables, root: Identity) {
    ROOT_INO in t.byIno && t.byIno[ROOT_INO].identity == Some(root)
  }

  lemma {:induction false} RootStays(steps: seq<Step>, root: Identity, i: nat)
    requires RootFirst(steps, root) && 0 < i <= |steps|
    ensures RootIs(After(steps[..i]), root) && Fits(After(steps[..i])) && !BreaksAt(steps, i - 1)
    decreases i
  {
    hide Next, Sound, Fits, Fresh, Bind, MoveTo;
    OneMore(steps, i - 1);
    if i == 1 {
      NothingFits();
      StepFitsExactly(NO_INODES, steps[0]);
      RootIsBound(root);
    } else {
      var t := After(steps[..i - 1]);
      RootStays(steps, root, i - 1);
      RootIdentityIsUnique(t, root);
      StepFitsExactly(t, steps[i - 1]);
      StepPersists(t, steps[i - 1]);
    }
  }

  lemma RootIsBound(root: Identity)
    ensures RootIs(Next(NO_INODES, BindStep(ROOT_PATH, root)), root)
  {
  }

  lemma RootIdentityIsUnique(t: Tables, root: Identity)
    requires Fits(t) && RootIs(t, root)
    ensures forall d :: Lookup(t.byIdentity, d) == Some(ROOT_INO) ==> d == root
  {
    forall d | Lookup(t.byIdentity, d) == Some(ROOT_INO)
      ensures d == root
    {
      assert IdentityFits(t, d);
    }
  }

  /** Under that discipline no run of calls ever breaks the tables. */
  lemma RootFirstNeverBreaks(steps: seq<Step>, root: Identity)
    requires RootFirst(steps, root)
    ensures Unbroken(steps)
  {
    hide Breaks, Fits;
    forall i: nat | i < |steps|
      ensures !BreaksAt(steps, i)
    {
      RootStays(steps, root, i + 1);
    }
  }

  lemma {:induction false} RunPersists(steps: seq<Step>, i: nat, j: nat)
    requires Unbroken(steps) && i <= j <= |steps|
    ensures Persists(After(steps[..i]), After(steps[..j]))
    decreases j
  {
    hide Next, Fits, Sound;
    if i < j {
      RunPersists(steps, i, j - 1);
      RunFits(steps, j - 1);
      OneMore(steps, j - 1);
      StepPersists(After(steps[..j - 1]), steps[j - 1]);
    }
  }

  /** A file keeps its inode number for the life of the mount, wherever it moves. */
  lemma IdentityKeepsItsInode(steps: seq<Step>, i: nat, j: nat, d: Identity)
    requires Unbroken(steps) && i <= j <= |steps| && d in After(steps[..i]).byIdentity
    ensures Lookup(After(steps[..j]).byIdentity, d) == Some(After(steps[..i]).byIdentity[d])
  {
    RunFits(steps, i);
    RunFits(steps, j);
    RunPersists(steps, i, j);
    var ino := After(steps[..i]).byIdentity[d];
    assert IdentityFits(After(steps[..i]), d);
    assert RecordFits(After(steps[..j]), ino);
  }

  /** A name that is not in the tables gets a number no earlier state ever used,
      whether it is looked up or bound to an identity not seen before. */
  lemma RecreatedNameIsFresh(steps: seq<Step>, i: nat, j: nat, path: string, d: Identity)
    requires Unbroken(steps) && i <= j <= |steps| && path != ROOT_PATH && path !in After(steps[..j]).byPath
    ensures Ino(After(steps[..j]), path) !in After(steps[..i]).byIno
    ensures var t := After(steps[..j]);
            Sound(t) && (d !in t.byIdentity ==>
              path in Bind(t, path, d).byPath && Bind(t, path, d).byPath[path] !in After(steps[..i]).byIno)
  {
    RunFits(steps, j);
    RunPersists(steps, i, j);
    FreshFits(After(steps[..j]), path);
  }
}
