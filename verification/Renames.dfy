/** Renaming a subtree of a mount (src/tapefs.rs, `rename`, native branch): one
    prefix substitution on names, inode records, the writer table and open write
    handles together. */
module Renames {
  import opened Outcomes
  import opened ByteStrings
  import Inodes
  import opened Mounts
  import opened MountSteps

  /** `p` is `root` or lies below it. */
  predicate Within(p: string, root: string) {
    root <= p && (|p| == |root| || p[|root|] == '/')
  }

  function Moved(p: string, from: string, to: string): string
    requires Within(p, from)
  {
    to + p[|from|..]
  }

  /** Neither path contains the other; paths of files are longer than "/". */
  predicate Apart(from: string, to: string) {
    |from| >= 2 && |to| >= 2 && !Within(from, to) && !Within(to, from)
  }

  lemma MovedBack(p: string, from: string, to: string)
    requires Within(p, from)
    ensures Within(Moved(p, from, to), to) && Moved(Moved(p, from, to), to, from) == p
  {
    var q := Moved(p, from, to);
    assert q[..|to|] == to && q[|to|..] == p[|from|..];
    assert from + p[|from|..] == p;
  }

  lemma NotInBoth(p: string, from: string, to: string)
    requires Apart(from, to)
    ensures !(Within(p, from) && Within(p, to))
  {
  }

  /** Keys below `from` move below `to`, what was below `to` goes, the rest stays. */
  function NewKeys(keys: set<string>, from: string, to: string): set<string> {
    (set p | p in keys && Within(p, from) :: Moved(p, from, to)) + (set p | p in keys && !Within(p, from) && !Within(p, to))
  }

  function Origin(q: string, from: string, to: string): string {
    if Within(q, to) then Moved(q, to, from) else q
  }

  lemma OriginOfNewKey(keys: set<string>, from: string, to: string, q: string)
    requires Apart(from, to)
    ensures q in NewKeys(keys, from, to) <==> Origin(q, from, to) in keys && (Within(q, to) || !Within(q, from))
  {
    if q in NewKeys(keys, from, to) {
      if p :| p in keys && Within(p, from) && Moved(p, from, to) == q {
        MovedBack(p, from, to);
      }
    }
    if Within(q, to) {
      MovedBack(q, to, from);
      NotInBoth(q, from, to);
    }
  }

  function Substitute<X>(a: map<string, X>, from: string, to: string): map<string, X>
    requires Apart(from, to)
  {
    map q | q in NewKeys(a.Keys, from, to) :: (OriginOfNewKey(a.Keys, from, to, q); a[Origin(q, from, to)])
  }

  /** The substitution entry by entry: nothing else moves, appears or vanishes. */
  lemma SubstituteAt<X>(a: map<string, X>, from: string, to: string, q: string)
    requires Apart(from, to)
    ensures q in Substitute(a, from, to) <==>
              if Within(q, to) then Moved(q, to, from) in a else !Within(q, from) && q in a
    ensures q in Substitute(a, from, to) ==>
              Substitute(a, from, to)[q] == if Within(q, to) then a[Moved(q, to, from)] else a[q]
  {
    OriginOfNewKey(a.Keys, from, to, q);
  }

  function RenamedRecord(t: Inodes.Tables, i: nat, from: string, to: string): Inodes.InodeRecord
    requires i in t.byIno
  {
    var r := t.byIno[i];
    if Within(r.path, from) && r.path in t.byPath && t.byPath[r.path] == i then r.(path := Moved(r.path, from, to)) else r
  }

  function RenamedNames(t: Inodes.Tables, from: string, to: string): Inodes.Tables
    requires Apart(from, to)
  {
    t.(byPath := Substitute(t.byPath, from, to), byIno := map i | i in t.byIno :: RenamedRecord(t, i, from, to))
  }

  /** A displaced write handle loses its name. */
  function RenamedHandle(h: Handle, from: string, to: string): Handle {
    if h.Read? then h
    else if Within(h.path, from) then h.(path := Moved(h.path, from, to))
    else if Within(h.path, to) then h.(path := "")
    else h
  }

  predicate Moves(m: Mount, f: nat, from: string) {
    exists o :: o in m.objects && m.objects[o].Write? && m.objects[o].file == f && Within(m.objects[o].path, from)
  }

  /** The moved name exists on the backend, so a later upload is not create-only. */
  function RenamedFile(m: Mount, f: nat, from: string): CachedFile
    requires f in m.files
  {
    if Moves(m, f, from) && m.files[f].createOnly.Some? then m.files[f].(createOnly := Some(false)) else m.files[f]
  }

  function Renamed(m: Mount, from: string, to: string): Mount
    requires Apart(from, to)
  {
    m.(names := RenamedNames(m.names, from, to), writers := Substitute(m.writers, from, to),
       objects := map o | o in m.objects :: RenamedHandle(m.objects[o], from, to),
       files := map f | f in m.files :: RenamedFile(m, f, from))
  }

  /** A name that was moved exists on the backend, so what is written through a handle on
      it replaces it; every other file keeps its target, and none its bytes. */
  lemma MovedMayBeReplaced(m: Mount, from: string, to: string, f: nat)
    requires Apart(from, to) && f in m.files
    ensures var n := Renamed(m, from, to);
            f in n.files &&
            n.files[f] == (if Moves(m, f, from) && m.files[f].createOnly == Some(true) then m.files[f].(createOnly := Some(false)) else m.files[f])
  {
    hide Within, Apart;
    assert Renamed(m, from, to).files[f] == RenamedFile(m, f, from);
    var c := m.files[f];
    match c.createOnly
    case None =>
    case Some(yes) => assert if yes then c.createOnly == Some(true) else c.(createOnly := Some(false)) == c;
  }

  // -------------------------------------------------------- what a rename keeps

  lemma RenamedNamesFit(t: Inodes.Tables, from: string, to: string)
    requires Apart(from, to) && Inodes.Fits(t)
    ensures Inodes.Fits(RenamedNames(t, from, to))
  {
    hide Within, Apart;
    var u := RenamedNames(t, from, to);
    forall q | q in u.byPath
      ensures Inodes.PathFits(u, q)
    {
      RenamedPathFits(t, from, to, q);
    }
    forall d | d in u.byIdentity
      ensures Inodes.IdentityFits(u, d)
    {
      assert Inodes.IdentityFits(t, d);
    }
    forall i | i in u.byIno
      ensures Inodes.RecordFits(u, i)
    {
      assert Inodes.RecordFits(t, i);
      RenamedIsNotRoot(t.byIno[i].path, from, to);
    }
  }

  lemma RenamedIsNotRoot(p: string, from: string, to: string)
    requires Apart(from, to)
    ensures Within(p, from) ==> p != Inodes.ROOT_PATH && Moved(p, from, to) != Inodes.ROOT_PATH
  {
  }

  lemma RenamedPathFits(t: Inodes.Tables, from: string, to: string, q: string)
    requires Apart(from, to) && Inodes.Fits(t) && q in RenamedNames(t, from, to).byPath
    ensures Inodes.PathFits(RenamedNames(t, from, to), q)
  {
    hide Inodes.RecordFits, Inodes.IdentityFits, Apart;
    SubstituteAt(t.byPath, from, to, q);
    if Within(q, to) {
      MovedBack(q, to, from);
      assert Inodes.PathFits(t, Moved(q, to, from));
    } else {
      assert Inodes.PathFits(t, q);
    }
  }

  lemma RenameKeepsNamed(m: Mount, from: string, to: string, o: nat, p: string, ino: nat)
    requires Apart(from, to) && NamedFits(m, o, p, ino)
    ensures var n := Renamed(m, from, to);
            Within(p, from) ==> NamedFits(n, o, Moved(p, from, to), ino)
    ensures var n := Renamed(m, from, to);
            !Within(p, from) && !Within(p, to) ==> NamedFits(n, o, p, ino)
  {
    hide Within, Apart, Moved;
    if Within(p, from) {
      MovedBack(p, from, to);
      SubstituteAt(m.writers, from, to, Moved(p, from, to));
      SubstituteAt(m.names.byPath, from, to, Moved(p, from, to));
    } else {
      SubstituteAt(m.writers, from, to, p);
      SubstituteAt(m.names.byPath, from, to, p);
    }
  }

  /** Values of the new path table come from the old one. */
  lemma RenamedInoIsOld(m: Mount, from: string, to: string, q: string)
    requires Apart(from, to) && q in Substitute(m.names.byPath, from, to)
    ensures var p := Origin(q, from, to);
            p in m.names.byPath && m.names.byPath[p] == Substitute(m.names.byPath, from, to)[q] && !Within(p, to)
  {
    SubstituteAt(m.names.byPath, from, to, q);
    if Within(q, to) {
      MovedBack(q, to, from);
      NotInBoth(Moved(q, to, from), from, to);
    }
  }

  lemma DisplacedIsNameless(m: Mount, from: string, to: string, p: string, ino: nat)
    requires Apart(from, to) && Inodes.Fits(m.names) && Within(p, to) && Name(m, p) == Some(ino)
    ensures Nameless(Renamed(m, from, to), ino)
  {
    hide Apart;
    forall q | q in Substitute(m.names.byPath, from, to)
      ensures Substitute(m.names.byPath, from, to)[q] != ino
    {
      RenamedInoIsOld(m, from, to, q);
      Inodes.TablesAreOneToOne(m.names, p, Origin(q, from, to), Inodes.Identity(0, 0), Inodes.Identity(0, 0));
    }
    assert Inodes.PathFits(m.names, p) && Inodes.RecordFits(m.names, ino);
    NotRoot(p, from, to);
  }

  lemma NotRoot(p: string, from: string, to: string)
    requires Apart(from, to) && Within(p, to)
    ensures p != Inodes.ROOT_PATH
  {
  }

  lemma NamelessStays(m: Mount, from: string, to: string, ino: nat)
    requires Apart(from, to) && Nameless(m, ino)
    ensures Nameless(Renamed(m, from, to), ino)
  {
    hide Apart, Within;
    forall q | q in Substitute(m.names.byPath, from, to)
      ensures Substitute(m.names.byPath, from, to)[q] != ino
    {
      RenamedInoIsOld(m, from, to, q);
    }
  }

  lemma RenameObject(m: Mount, from: string, to: string, o: nat)
    requires Apart(from, to) && Fits(m) && o in m.objects
    ensures ObjectFits(Renamed(m, from, to), o)
  {
    hide FileFits, Inodes.Fits, NamedFits, Nameless, Substitute, Within, Apart, Moves, HandleFits, WriterFits, PendingFits, Alone;
    var n := Renamed(m, from, to);
    assert ObjectFits(m, o);
    assert Shared(n, o);
    if m.objects[o].Write? {
      var p, ino := m.objects[o].path, m.files[m.objects[o].file].ino;
      if p == "" {
        NamelessStays(m, from, to, ino);
        EmptyIsOutside(from, to);
      } else {
        RenameKeepsNamed(m, from, to, o, p, ino);
        MovedIsNamed(p, from, to);
        if Within(p, to) {
          NamedMeansName(m, o, p, ino);
          DisplacedIsNameless(m, from, to, p, ino);
          NotInBoth(p, from, to);
        }
      }
    }
  }

  lemma EmptyIsOutside(from: string, to: string)
    requires Apart(from, to)
    ensures !Within("", from) && !Within("", to)
  {
  }

  lemma MovedIsNamed(p: string, from: string, to: string)
    requires Apart(from, to)
    ensures Within(p, from) ==> Moved(p, from, to) != ""
  {
  }

  lemma NamedMeansName(m: Mount, o: nat, p: string, ino: nat)
    requires NamedFits(m, o, p, ino)
    ensures Name(m, p) == Some(ino)
  {
  }

  lemma RenameWriter(m: Mount, from: string, to: string, q: string)
    requires Apart(from, to) && Fits(m) && q in Renamed(m, from, to).writers
    ensures WriterFits(Renamed(m, from, to), q)
  {
    hide FileFits, Inodes.Fits, ObjectFits, HandleFits, PendingFits, Alone, Apart, Moves;
    SubstituteAt(m.writers, from, to, q);
    if Within(q, to) {
      MovedBack(q, to, from);
      assert WriterFits(m, Moved(q, to, from));
      NotEmpty(q, from, to);
    } else {
      assert WriterFits(m, q);
    }
  }

  lemma NotEmpty(q: string, from: string, to: string)
    requires Apart(from, to) && Within(q, to)
    ensures q != ""
  {
  }

  lemma RenameRest(m: Mount, from: string, to: string)
    requires Apart(from, to) && Fits(m)
    ensures var n := Renamed(m, from, to);
            (forall fh :: fh in n.handles ==> HandleFits(n, fh)) && (forall i :: i in n.pending ==> PendingFits(n, i)) &&
            (forall i :: i in n.slots ==> SlotFits(n, i)) && (forall a, b :: a in n.objects && b in n.objects ==> Alone(n, a, b))
  {
    hide FileFits, Inodes.Fits, ObjectFits, Substitute, Within, Apart, Moves;
    var n := Renamed(m, from, to);
    forall fh | fh in n.handles
      ensures HandleFits(n, fh)
    {
      assert HandleFits(m, fh);
    }
    forall a, b | a in n.objects && b in n.objects
      ensures Alone(n, a, b)
    {
      assert Alone(m, a, b);
    }
    SamePending(m, n);
  }

  lemma RenameKept(m: Mount, from: string, to: string)
    requires Apart(from, to) && Fits(m)
    ensures Kept(m, Renamed(m, from, to))
    ensures forall f :: f in m.files ==> FileFits(Renamed(m, from, to), f)
  {
    hide Inodes.Fits, ObjectFits, Substitute, Apart, Moves, HandleFits, WriterFits, PendingFits, Alone, Within;
    var n := Renamed(m, from, to);
    EmptyIsOutside(from, to);
    forall o
      ensures ObjectKept(m, n, o)
    {
    }
    forall f
      ensures FileKept(m, n, f) && (f in n.files ==> FileFits(n, f))
    {
      assert f in m.files ==> FileFits(m, f);
      RenamedLives(m, from, to, f);
      assert !Live(m, f) ==> !Moves(m, f, from) by { MovesIsLive(m, f, from); }
    }
  }

  lemma MovesIsLive(m: Mount, f: nat, from: string)
    ensures Moves(m, f, from) ==> Live(m, f)
  {
    assert Moves(m, f, from) ==> Opened(m, f);
  }

  lemma RenamedLives(m: Mount, from: string, to: string, f: nat)
    requires Apart(from, to)
    ensures Live(Renamed(m, from, to), f) <==> Live(m, f)
  {
    hide Apart, Within, Substitute;
    var n := Renamed(m, from, to);
    if Opened(n, f) {
      var a :| a in n.objects && n.objects[a].file == f;
      assert a in m.objects && m.objects[a].file == f;
    }
    if Opened(m, f) {
      var a :| a in m.objects && m.objects[a].file == f;
      assert a in n.objects && n.objects[a].file == f;
    }
    assert Awaited(n, f) <==> Awaited(m, f);
  }

  /** A rename keeps the mount's invariant: names, records, writers and handles
      still agree, and displaced handles are nameless for good. */
  lemma RenameKeeps(m: Mount, from: string, to: string)
    requires Apart(from, to) && Fits(m)
    ensures Fits(Renamed(m, from, to)) && Kept(m, Renamed(m, from, to))
  {
    hide Inodes.Fits, ObjectFits, FileFits, HandleFits, WriterFits, PendingFits, Alone, Substitute, Apart, Within, Moves, Kept;
    var n := Renamed(m, from, to);
    RenamedNamesFit(m.names, from, to);
    forall o | o in n.objects
      ensures ObjectFits(n, o)
    {
      RenameObject(m, from, to, o);
    }
    forall q | q in n.writers
      ensures WriterFits(n, q)
    {
      RenameWriter(m, from, to, q);
    }
    RenameRest(m, from, to);
    RenameKept(m, from, to);
  }

  // ------------------------------------------------------------- renaming back

  /** Nothing named lies below a path. */
  ghost predicate Free(m: Mount, to: string) {
    && (forall p :: p in m.names.byPath ==> !Within(p, to))
    && (forall p :: p in m.writers ==> !Within(p, to))
    && (forall o :: o in m.objects && m.objects[o].Write? ==> !Within(m.objects[o].path, to))
  }

  lemma SubstituteBack<X>(a: map<string, X>, from: string, to: string)
    requires Apart(from, to) && Apart(to, from) && forall p :: p in a ==> !Within(p, to)
    ensures Substitute(Substitute(a, from, to), to, from) == a
  {
    hide Within, Apart, Moved;
    var b := Substitute(Substitute(a, from, to), to, from);
    forall p
      ensures p in b <==> p in a
      ensures p in a && p in b ==> b[p] == a[p]
    {
      SubstituteAt(Substitute(a, from, to), to, from, p);
      SubstituteAt(a, from, to, p);
      if Within(p, from) {
        MovedBack(p, from, to);
        SubstituteAt(a, from, to, Moved(p, from, to));
      }
    }
  }

  /** Renaming to a free name and back restores names, records, writers and handles. */
  lemma RenameBack(m: Mount, from: string, to: string)
    requires Apart(from, to) && Fits(m) && Free(m, to)
    ensures Apart(to, from)
    ensures var n := Renamed(Renamed(m, from, to), to, from);
            n.names == m.names && n.writers == m.writers && n.objects == m.objects
  {
    hide Inodes.Fits, ObjectFits, FileFits, HandleFits, WriterFits, PendingFits, Alone, Substitute, Moves, Within;
    ApartBack(from, to);
    SubstituteBack(m.names.byPath, from, to);
    SubstituteBack(m.writers, from, to);
    var k := Renamed(m, from, to);
    var n := Renamed(k, to, from);
    forall o | o in m.objects
      ensures n.objects[o] == m.objects[o]
    {
      if m.objects[o].Write? && Within(m.objects[o].path, from) {
        MovedBack(m.objects[o].path, from, to);
      }
    }
    forall i | i in m.names.byIno
      ensures n.names.byIno[i] == m.names.byIno[i]
    {
      RecordBack(m, from, to, i);
    }
  }

  lemma ApartBack(from: string, to: string)
    requires Apart(from, to)
    ensures Apart(to, from)
  {
  }

  lemma RecordBack(m: Mount, from: string, to: string, i: nat)
    requires Apart(from, to) && Apart(to, from) && Fits(m) && Free(m, to) && i in m.names.byIno
    ensures RenamedRecord(RenamedNames(m.names, from, to), i, to, from) == m.names.byIno[i]
  {
    hide ObjectFits, FileFits, HandleFits, WriterFits, PendingFits, Alone, Within, Moved, Apart;
    var t := m.names;
    var u := RenamedNames(t, from, to);
    var p := t.byIno[i].path;
    if Within(p, from) && p in t.byPath && t.byPath[p] == i {
      MovedBack(p, from, to);
      SubstituteAt(t.byPath, from, to, Moved(p, from, to));
    } else if Within(p, to) {
      SubstituteAt(t.byPath, from, to, p);
      if Moved(p, to, from) in t.byPath {
        MovedBack(p, to, from);
        assert Inodes.PathFits(t, Moved(p, to, from));
        NotSame(p, from, to);
      }
    }
  }

  lemma NotSame(p: string, from: string, to: string)
    requires Apart(from, to) && Within(p, to)
    ensures Moved(p, to, from) != p
  {
    MovedBack(p, to, from);
    NotInBoth(p, from, to);
  }

  // ------------------------------------------------------------ entry by entry

  /** Entry `q` once the keys in `done` have been moved. */
  ghost predicate EntryMoved<X>(a: map<string, X>, b: map<string, X>, done: set<string>, from: string, to: string, q: string) {
    if Within(q, to)
    then (q in b <==> Moved(q, to, from) in done) && (q in b ==> Moved(q, to, from) in a && b[q] == a[Moved(q, to, from)])
    else (q in b <==> q in a && !Within(q, from)) && (q in b ==> b[q] == a[q])
  }

  lemma MoveOne<X>(a: map<string, X>, b: map<string, X>, done: set<string>, from: string, to: string, p: string, q: string)
    requires Apart(from, to) && p in a && Within(p, from) && p !in done && EntryMoved(a, b, done, from, to, q)
    ensures EntryMoved(a, b[Moved(p, from, to) := a[p]], done + {p}, from, to, q)
  {
    hide Apart, Within, Moved;
    MovedBack(p, from, to);
    if Within(q, to) {
      MovedBack(q, to, from);
    }
  }

  lemma AllMoved<X>(a: map<string, X>, b: map<string, X>, done: set<string>, from: string, to: string)
    requires Apart(from, to) && done == (set p | p in a && Within(p, from))
    requires forall q :: EntryMoved(a, b, done, from, to, q)
    ensures b == Substitute(a, from, to)
  {
    hide Apart, Within, Moved, Substitute;
    forall q
      ensures q in b <==> q in Substitute(a, from, to)
      ensures q in b && q in Substitute(a, from, to) ==> b[q] == Substitute(a, from, to)[q]
    {
      assert EntryMoved(a, b, done, from, to, q);
      SubstituteAt(a, from, to, q);
      if Within(q, to) {
        MovedBack(q, to, from);
      }
    }
  }

  /** Take the entries below `from` and `to` out, then put those from `from` back
      one by one under their new names, in any order. */
  method MoveEntries<X>(a: map<string, X>, from: string, to: string) returns (b: map<string, X>)
    requires Apart(from, to)
    ensures b == Substitute(a, from, to)
  {
    hide Apart, Substitute;
    var left := set p | p in a && Within(p, from);
    ghost var all := left;
    b := map p | p in a && !Within(p, from) && !Within(p, to) :: a[p];
    ghost var done: set<string> := {};
    while left != {}
      invariant done + left == all && done !! left
      invariant forall q :: EntryMoved(a, b, done, from, to, q)
      decreases |left|
    {
      var p :| p in left;
      var c := b[Moved(p, from, to) := a[p]];
      ghost var more := done + {p};
      forall q
        ensures EntryMoved(a, c, more, from, to, q)
      {
        MoveOne(a, b, done, from, to, p, q);
      }
      b, left, done := c, left - {p}, more;
    }
    AllMoved(a, b, done, from, to);
  }

  /** The records of the moved inodes get their new paths. */
  method MoveRecords(t: Inodes.Tables, from: string, to: string) returns (byIno: map<nat, Inodes.InodeRecord>)
    requires Apart(from, to) && Inodes.Fits(t)
    ensures byIno == RenamedNames(t, from, to).byIno
  {
    hide Apart, Substitute, Inodes.RecordFits, Inodes.IdentityFits;
    byIno := t.byIno;
    var left := set p | p in t.byPath && Within(p, from);
    ghost var all := left;
    while left != {}
      invariant left <= all && byIno.Keys == t.byIno.Keys
      invariant forall i :: i in t.byIno ==>
                  byIno[i] == if t.byIno[i].path in left then t.byIno[i] else RenamedRecord(t, i, from, to)
      decreases |left|
    {
      var p :| p in left;
      assert Inodes.PathFits(t, p);
      var i := t.byPath[p];
      byIno := byIno[i := byIno[i].(path := Moved(p, from, to))];
      left := left - {p};
    }
  }

  // ------------------------------------------------------------- open handles

  /** Handles and files once the handles in `done` have been renamed. */
  function SomeHandles(m: Mount, done: set<nat>, from: string, to: string): map<nat, Handle> {
    map o | o in m.objects :: if o in done then RenamedHandle(m.objects[o], from, to) else m.objects[o]
  }

  predicate MovesAmong(m: Mount, done: set<nat>, f: nat, from: string) {
    exists o :: o in done && o in m.objects && m.objects[o].Write? && m.objects[o].file == f && Within(m.objects[o].path, from)
  }

  function SomeFiles(m: Mount, done: set<nat>, from: string): map<nat, CachedFile> {
    map f | f in m.files ::
      if MovesAmong(m, done, f, from) && m.files[f].createOnly.Some? then m.files[f].(createOnly := Some(false)) else m.files[f]
  }

  /** Handles whose inode has a name below `from` or `to`: only these are touched. */
  function Affected(t: Inodes.Tables, from: string, to: string): set<nat> {
    set p | p in t.byPath && (Within(p, from) || Within(p, to)) :: t.byPath[p]
  }

  function Guarded(m: Mount, from: string, to: string): set<nat> {
    set o | o in m.objects && m.objects[o].file in m.files && m.files[m.objects[o].file].ino in Affected(m.names, from, to)
  }

  lemma OthersAreOutside(m: Mount, from: string, to: string, o: nat)
    requires Fits(m) && Apart(from, to) && o in m.objects && o !in Guarded(m, from, to) && m.objects[o].Write?
    ensures !Within(m.objects[o].path, from) && !Within(m.objects[o].path, to)
  {
    hide Inodes.Fits, FileFits, Within, Apart;
    assert ObjectFits(m, o);
    EmptyIsOutside(from, to);
  }

  lemma GuardedIsEnough(m: Mount, from: string, to: string)
    requires Fits(m) && Apart(from, to)
    ensures SomeHandles(m, Guarded(m, from, to), from, to) == Renamed(m, from, to).objects
    ensures SomeFiles(m, Guarded(m, from, to), from) == Renamed(m, from, to).files
  {
    hide Fits, Within, Apart, Guarded, Substitute;
    var guarded := Guarded(m, from, to);
    forall o | o in m.objects && o !in guarded && m.objects[o].Write?
      ensures !Within(m.objects[o].path, from) && !Within(m.objects[o].path, to)
    {
      OthersAreOutside(m, from, to, o);
    }
    forall f | f in m.files
      ensures MovesAmong(m, guarded, f, from) <==> Moves(m, f, from)
    {
    }
  }
}
