/** Paths of a mount as sequences of names (src/tapefs.rs: `join`, and `within` in
    `rename`): what joining, containment and moving mean without looking at characters. */
module Paths {
  import opened Outcomes
  import Inodes
  import opened Mounts
  import opened Renames

  /** A directory entry's name. */
  predicate IsName(n: string) {
    n != "" && '/' !in n
  }

  predicate AllNames(cs: seq<string>) {
    forall k :: 0 <= k < |cs| ==> IsName(cs[k])
  }

  /** A path starts with a slash, has no two in a row, and ends in one only if it is "/". */
  predicate IsPath(p: string) {
    p == "/" || (p != "" && p[0] == '/' && forall k :: 0 <= k < |p| && p[k] == '/' ==> k + 1 < |p| && p[k + 1] != '/')
  }

  /** Each name behind its slash. */
  function Tail(cs: seq<string>): string {
    if cs == [] then "" else "/" + cs[0] + Tail(cs[1..])
  }

  /** The path that goes down these names from the root. */
  function Spell(cs: seq<string>): string {
    if cs == [] then "/" else Tail(cs)
  }

  lemma {:induction false} TailAppends(cs: seq<string>, ds: seq<string>)
    ensures Tail(cs + ds) == Tail(cs) + Tail(ds)
    decreases |cs|
  {
    if cs == [] {
      assert cs + ds == ds;
    } else {
      assert (cs + ds)[1..] == cs[1..] + ds;
      TailAppends(cs[1..], ds);
    }
  }

  /** What follows a name: nothing, or the next slash. */
  predicate Follows(r: string) {
    r == "" || r[0] == '/'
  }

  lemma {:induction false} FirstNameEnds(c: string, x: string, d: string, y: string)
    requires '/' !in c && '/' !in d && Follows(x) && Follows(y) && c + x == d + y
    ensures c == d && x == y
  {
    var s := c + x;
    assert forall k :: 0 <= k < |c| ==> s[k] == c[k] != '/';
    assert forall k :: 0 <= k < |d| ==> s[k] == d[k] != '/';
    assert |c| < |s| ==> s[|c|] == x[0];
    assert |d| < |s| ==> s[|d|] == y[0];
    assert c == s[..|c|] && d == s[..|d|] && x == s[|c|..] && y == s[|d|..];
  }

  lemma TailFollows(cs: seq<string>)
    ensures Follows(Tail(cs)) && (Tail(cs) == "" <==> cs == [])
  {
  }

  /** If names, followed by whatever may follow a name, spell other names, they are the
      first of those and what follows is the rest. */
  lemma {:induction false} TailSplits(ds: seq<string>, r: string, cs: seq<string>)
    requires AllNames(ds) && AllNames(cs) && Follows(r) && Tail(ds) + r == Tail(cs)
    ensures ds <= cs && r == Tail(cs[|ds|..])
    decreases |ds|
  {
    if ds != [] {
      TailFollows(cs);
      TailFollows(ds[1..]);
      TailFollows(cs[1..]);
      assert cs != [];
      var x, y := Tail(ds[1..]) + r, Tail(cs[1..]);
      assert Tail(ds) + r == "/" + (ds[0] + x) && Tail(cs) == "/" + (cs[0] + y);
      assert (Tail(ds) + r)[1..] == ds[0] + x && Tail(cs)[1..] == cs[0] + y;
      FirstNameEnds(ds[0], x, cs[0], y);
      TailSplits(ds[1..], r, cs[1..]);
      assert ds == [ds[0]] + ds[1..] && cs == [cs[0]] + cs[1..];
    }
  }

  // ---------------------------------------------------------- spelling is one to one

  lemma SpellIsInjective(cs: seq<string>, ds: seq<string>)
    requires AllNames(cs) && AllNames(ds) && Spell(cs) == Spell(ds)
    ensures cs == ds
  {
    TailIsLonger(cs);
    TailIsLonger(ds);
    if cs != [] && ds != [] {
      assert Tail(ds) + "" == Tail(cs);
      TailSplits(ds, "", cs);
      TailFollows(cs[|ds|..]);
    }
  }

  lemma TailIsLonger(cs: seq<string>)
    requires AllNames(cs)
    ensures cs != [] ==> |Tail(cs)| >= 2 && Tail(cs) != "/" && Tail(cs)[0] == '/'
  {
  }

  lemma {:induction false} SpelledIsPath(cs: seq<string>)
    requires AllNames(cs)
    ensures IsPath(Spell(cs))
    decreases |cs|
  {
    if cs != [] {
      SpelledIsPath(cs[1..]);
      TailIsLonger(cs[1..]);
      var head, t := "/" + cs[0], Tail(cs[1..]);
      assert Tail(cs) == head + t;
      assert forall k :: 0 < k < |head| ==> Tail(cs)[k] == cs[0][k - 1] != '/';
      forall k | 0 <= k < |Tail(cs)| && Tail(cs)[k] == '/'
        ensures k + 1 < |Tail(cs)| && Tail(cs)[k + 1] != '/'
      {
        if k >= |head| {
          assert t[k - |head|] == '/';
          assert cs[1..] != [];
        }
      }
    }
  }

  /** Where the name that starts at `i` ends. */
  function NameEnd(p: string, i: nat): (j: nat)
    requires i <= |p|
    ensures i <= j <= |p| && (j < |p| ==> p[j] == '/') && forall k :: i <= k < j ==> p[k] != '/'
    decreases |p| - i
  {
    if i == |p| || p[i] == '/' then i else NameEnd(p, i + 1)
  }

  /** The names of a path. */
  function Components(p: string): seq<string>
    decreases |p|
  {
    if |p| <= 1 then []
    else
      var j := NameEnd(p, 1);
      [p[1..j]] + Components(p[j..])
  }

  lemma PathRest(p: string, j: nat)
    requires IsPath(p) && p != "/" && 0 < j <= |p| && (j < |p| ==> p[j] == '/')
    ensures p[j..] == "" || (IsPath(p[j..]) && p[j..] != "/")
  {
    var rest := p[j..];
    assert forall k :: 0 <= k < |rest| ==> rest[k] == p[j + k];
  }

  lemma FirstName(p: string, j: nat)
    requires IsPath(p) && p != "/" && j == NameEnd(p, 1)
    ensures IsName(p[1..j]) && p == "/" + p[1..j] + p[j..]
  {
    assert p[0] == '/' && j > 1;
  }

  lemma {:induction false} TailOfComponents(p: string)
    requires p == "" || (IsPath(p) && p != "/")
    ensures AllNames(Components(p)) && Tail(Components(p)) == p
    decreases |p|
  {
    if p != "" {
      TwoAtLeast(p);
      hide IsPath, NameEnd, IsName;
      var j := NameEnd(p, 1);
      var rest := p[j..];
      PathRest(p, j);
      FirstName(p, j);
      TailOfComponents(rest);
      TailOfCons(p[1..j], Components(rest));
    }
  }

  lemma TwoAtLeast(p: string)
    requires IsPath(p) && p != "/"
    ensures |p| >= 2
  {
  }

  lemma TailOfCons(c: string, cs: seq<string>)
    requires IsName(c) && AllNames(cs)
    ensures Tail([c] + cs) == "/" + c + Tail(cs) && AllNames([c] + cs)
  {
    assert ([c] + cs)[1..] == cs;
  }

  lemma PathIsSpelled(p: string)
    requires IsPath(p)
    ensures AllNames(Components(p)) && Spell(Components(p)) == p
  {
    if p != "/" { TailOfComponents(p); }
  }

  /** So paths and sequences of names are the same thing. */
  lemma ComponentsOfSpell(cs: seq<string>)
    requires AllNames(cs)
    ensures Components(Spell(cs)) == cs
  {
    SpelledIsPath(cs);
    PathIsSpelled(Spell(cs));
    SpellIsInjective(Components(Spell(cs)), cs);
  }

  // ----------------------------------------------- join, containment and moving

  /** `join` */
  function Join(parent: string, name: string): string {
    if parent == "/" then "/" + name else parent + "/" + name
  }

  /** Joining goes down one name, from the root too. */
  lemma JoinGoesDown(parent: string, name: string)
    requires IsPath(parent) && IsName(name)
    ensures IsPath(Join(parent, name)) && Components(Join(parent, name)) == Components(parent) + [name]
    ensures Join(parent, name) == Spell(Components(parent) + [name])
  {
    hide Components, IsPath, Tail;
    var cs := Components(parent);
    PathIsSpelled(parent);
    JoinSpells(cs, name);
    ComponentsOfSpell(cs + [name]);
    SpelledIsPath(cs + [name]);
  }

  lemma JoinSpells(cs: seq<string>, name: string)
    requires AllNames(cs) && IsName(name)
    ensures AllNames(cs + [name]) && Join(Spell(cs), name) == Spell(cs + [name])
  {
    TailAppends(cs, [name]);
    assert Tail([name]) == "/" + name + Tail([]) == "/" + name;
    TailIsLonger(cs);
  }

  /** One path lies within another exactly when it goes down the same names first. */
  lemma WithinIsPrefix(cs: seq<string>, root: seq<string>)
    requires AllNames(cs) && AllNames(root) && root != []
    ensures Within(Spell(cs), Spell(root)) <==> root <= cs
  {
    TailIsLonger(root);
    if Within(Spell(cs), Spell(root)) {
      var r := Spell(cs)[|Tail(root)|..];
      assert Tail(root) + r == Spell(cs);
      assert Follows(r);
      TailSplits(root, r, cs);
    }
    if root <= cs {
      TailAppends(root, cs[|root|..]);
      assert cs == root + cs[|root|..];
      TailFollows(cs[|root|..]);
    }
  }

  /** Moving exchanges the names of the old path for those of the new one. */
  lemma MovedSpells(root: seq<string>, below: seq<string>, to: seq<string>)
    requires AllNames(root) && AllNames(below) && AllNames(to) && root != [] && to != []
    ensures Within(Spell(root + below), Spell(root)) && Moved(Spell(root + below), Spell(root), Spell(to)) == Spell(to + below)
  {
    assert AllNames(root + below);
    WithinIsPrefix(root + below, root);
    TailAppends(root, below);
    TailAppends(to, below);
  }

  /** Inode 1 is the root directory, whatever the tables hold, and a name in it is the
      path of one component. */
  lemma InTheRoot(names: Inodes.Tables, name: string)
    ensures PathOf(names, 1) == Some("/") && Components("/") == [] && Join("/", name) == Spell([name]) == "/" + name
  {
    assert [name][1..] == [];
    assert Tail([name]) == "/" + name + Tail([]);
  }

  // ------------------------------------------------------------ renaming a subtree

  function EntryAt<X>(a: map<string, X>, cs: seq<string>): Option<X> {
    if Spell(cs) in a then Some(a[Spell(cs)]) else None
  }

  /** What is at names `cs` once everything at or below `from` has gone to `to`: there, what
      was at the same place below `from`; at and below `from`, nothing; elsewhere what was. */
  function EntryAfter<X>(a: map<string, X>, from: seq<string>, to: seq<string>, cs: seq<string>): Option<X> {
    if to <= cs then EntryAt(a, from + cs[|to|..]) else if from <= cs then None else EntryAt(a, cs)
  }

  lemma ApartByNames(from: seq<string>, to: seq<string>)
    requires AllNames(from) && AllNames(to) && from != [] && to != []
    ensures Apart(Spell(from), Spell(to)) <==> !(from <= to) && !(to <= from)
  {
    TailIsLonger(from);
    TailIsLonger(to);
    WithinIsPrefix(from, to);
    WithinIsPrefix(to, from);
  }

  lemma SubstituteMoves<X>(a: map<string, X>, from: seq<string>, to: seq<string>, cs: seq<string>)
    requires AllNames(from) && AllNames(to) && AllNames(cs) && from != [] && to != [] && Apart(Spell(from), Spell(to))
    ensures EntryAt(Substitute(a, Spell(from), Spell(to)), cs) == EntryAfter(a, from, to, cs)
  {
    hide Substitute, Within, Moved, Apart, Spell;
    SubstituteAt(a, Spell(from), Spell(to), Spell(cs));
    WithinIsPrefix(cs, to);
    WithinIsPrefix(cs, from);
    if to <= cs {
      assert cs == to + cs[|to|..];
      MovedSpells(to, cs[|to|..], from);
    }
  }

  /** Names and writers after a rename, entry by entry of the tree. */
  ghost predicate TreeMoved(m: Mount, n: Mount, from: seq<string>, to: seq<string>) {
    forall cs :: AllNames(cs) ==>
      EntryAt(n.names.byPath, cs) == EntryAfter(m.names.byPath, from, to, cs) && EntryAt(n.writers, cs) == EntryAfter(m.writers, from, to, cs)
  }

  lemma RenameMovesTree(m: Mount, n: Mount, from: seq<string>, to: seq<string>)
    requires AllNames(from) && AllNames(to) && from != [] && to != [] && Apart(Spell(from), Spell(to))
    requires n.names.byPath == Substitute(m.names.byPath, Spell(from), Spell(to)) && n.writers == Substitute(m.writers, Spell(from), Spell(to))
    ensures TreeMoved(m, n, from, to)
  {
    hide Substitute, Spell, Apart, EntryAfter;
    forall cs | AllNames(cs)
      ensures EntryAt(n.names.byPath, cs) == EntryAfter(m.names.byPath, from, to, cs) && EntryAt(n.writers, cs) == EntryAfter(m.writers, from, to, cs)
    {
      SubstituteMoves(m.names.byPath, from, to, cs);
      SubstituteMoves(m.writers, from, to, cs);
    }
  }

  /** An open write handle follows its name; one that was displaced has none. */
  lemma HandleFollowsName(h: Handle, at: seq<string>, from: seq<string>, to: seq<string>)
    requires h.Write? && h.path == Spell(at) && AllNames(at) && AllNames(from) && AllNames(to) && from != [] && to != []
    ensures var k := RenamedHandle(h, Spell(from), Spell(to));
            k == h.(path := if from <= at then Spell(to + at[|from|..]) else if to <= at then "" else h.path)
  {
    hide Within, Moved, Spell;
    WithinIsPrefix(at, from);
    WithinIsPrefix(at, to);
    if from <= at {
      assert at == from + at[|from|..];
      MovedSpells(from, at[|from|..], to);
    }
  }
}
