/** The state changes the calls of a mount are made of, each shown to keep the
    mount's invariant and everything promised about handles, files and uploads. */
module MountSteps {
  import opened Outcomes
  import opened ByteStrings
  import Inodes
  import opened Mounts

  // --------------------------------------------- changes that move nothing

  /** Same names, slots and handles; each handle with the same file and path. */
  ghost predicate SameShape(m: Mount, n: Mount) {
    && n.names == m.names && n.handles == m.handles && n.slots == m.slots && n.next == m.next
    && n.objects.Keys == m.objects.Keys && n.files.Keys == m.files.Keys && n.writers.Keys == m.writers.Keys
    && (forall o :: o in m.objects ==> SameHandle(m.objects[o], n.objects[o]))
    && (forall f :: f in m.files ==> n.files[f].ino == m.files[f].ino)
    && (forall p :: p in m.writers ==> n.writers[p].fh == m.writers[p].fh)
  }

  predicate SameHandle(h: Handle, k: Handle) {
    k.file == h.file && (k.Write? <==> h.Write?) && (h.Write? ==> k.path == h.path)
  }

  lemma SameShapeObject(m: Mount, n: Mount, o: nat)
    requires SameShape(m, n) && ObjectFits(m, o)
    ensures ObjectFits(n, o)
  {
    assert Shared(n, o);
  }

  lemma SameShapeRest(m: Mount, n: Mount)
    requires Fits(m) && SameShape(m, n)
    ensures forall fh :: fh in n.handles ==> HandleFits(n, fh)
    ensures forall o :: o in n.objects ==> ObjectFits(n, o)
    ensures forall a, b :: a in n.objects && b in n.objects ==> Alone(n, a, b)
    ensures forall i :: i in n.slots ==> SlotFits(n, i)
  {
    hide FileFits, Inodes.Fits, ObjectFits;
    forall fh | fh in n.handles
      ensures HandleFits(n, fh)
    {
      assert HandleFits(m, fh);
    }
    forall o | o in n.objects
      ensures ObjectFits(n, o)
    {
      assert ObjectFits(m, o);
      SameShapeObject(m, n, o);
    }
    SameSlots(m, n);
    forall a, b | a in n.objects && b in n.objects
      ensures Alone(n, a, b)
    {
      assert Alone(m, a, b);
    }
  }

  /** What remains to be shown of a change that moves nothing. */
  ghost predicate Harmless(m: Mount, n: Mount) {
    && UploadsKept(m, n) && n.confirmed.Keys <= n.files.Keys
    && (forall p :: p in n.writers ==> WriterFits(n, p))
    && (forall i :: i in n.pending ==> PendingFits(n, i))
    && (forall f :: f in n.files ==> FileFits(n, f))
    && (forall o :: o in m.objects && Honest(m, o) ==> Honest(n, o))
    && (forall f :: f in m.files && !Live(m, f) ==> !Awaited(n, f) && f in n.files && n.files[f] == m.files[f])
  }

  lemma SameShapeLives(m: Mount, n: Mount, f: nat)
    requires SameShape(m, n)
    ensures Opened(n, f) <==> Opened(m, f)
  {
    if Opened(n, f) {
      var a :| a in n.objects && n.objects[a].file == f;
      assert a in m.objects && m.objects[a].file == f;
    }
    if Opened(m, f) {
      var a :| a in m.objects && m.objects[a].file == f;
      assert a in n.objects && n.objects[a].file == f;
    }
  }

  lemma HarmlessKeeps(m: Mount, n: Mount)
    requires Fits(m) && SameShape(m, n) && Harmless(m, n)
    ensures Fits(n) && Kept(m, n)
  {
    hide FileFits, Inodes.Fits, ObjectFits, WriterFits, PendingFits, HandleFits, Alone, Honest, Opened, Awaited, UploadsKept;
    SameShapeRest(m, n);
    forall o
      ensures ObjectKept(m, n, o)
    {
    }
    forall f
      ensures FileKept(m, n, f)
    {
      SameShapeLives(m, n, f);
    }
  }

  // ------------------------------------------------------ uploads and names

  /** Only the history of uploads grew. */
  ghost predicate Told(m: Mount, n: Mount) {
    n == m.(uploads := n.uploads)
  }

  lemma TellKeeps(m: Mount, n: Mount)
    requires Fits(m) && Told(m, n) && UploadsKept(m, n)
    ensures Fits(n) && Kept(m, n)
  {
    hide Fits, Inodes.Fits, ObjectFits, FileFits, Honest, UploadsKept, WriterFits, PendingFits;
    TellFiles(m, n);
    SamePlaces(m, n);
    SamePending(m, n);
    TellSame(m, n);
    HarmlessKeeps(m, n);
  }

  lemma TellSame(m: Mount, n: Mount)
    requires Told(m, n)
    ensures SameShape(m, n)
    ensures forall f :: f in m.files && !Live(m, f) ==> !Awaited(n, f) && f in n.files && n.files[f] == m.files[f]
  {
    assert forall f :: Awaited(n, f) <==> Awaited(m, f);
  }

  lemma TellFiles(m: Mount, n: Mount)
    requires Fits(m) && Told(m, n)
    ensures (forall f :: f in n.files ==> FileFits(n, f)) && n.confirmed.Keys <= n.files.Keys
    ensures forall o :: o in m.objects && Honest(m, o) ==> Honest(n, o)
  {
    hide Inodes.Fits, ObjectFits, HandleFits, WriterFits, PendingFits, Alone;
    forall f | f in n.files
      ensures FileFits(n, f)
    {
      assert FileFits(m, f);
    }
  }

  lemma SamePlaces(m: Mount, n: Mount)
    requires Fits(m) && n.writers == m.writers && n.handles == m.handles && n.objects == m.objects
    ensures forall p :: p in n.writers ==> WriterFits(n, p)
  {
    hide FileFits, Inodes.Fits, ObjectFits;
    forall p | p in n.writers
      ensures WriterFits(n, p)
    {
      assert WriterFits(m, p);
    }
  }

  lemma SamePending(m: Mount, n: Mount)
    requires Fits(m) && n.pending == m.pending && n.slots == m.slots
    requires forall f :: f in m.files ==> f in n.files && n.files[f].ino == m.files[f].ino
    ensures forall i :: i in n.pending ==> PendingFits(n, i)
    ensures forall i :: i in n.slots ==> SlotFits(n, i)
  {
    hide FileFits, Inodes.Fits, ObjectFits;
    forall i | i in n.pending
      ensures PendingFits(n, i)
    {
      assert PendingFits(m, i);
    }
    SameSlots(m, n);
  }

  lemma SameSlots(m: Mount, n: Mount)
    requires Fits(m) && n.slots == m.slots
    requires forall f :: f in m.files ==> f in n.files && n.files[f].ino == m.files[f].ino
    ensures forall i :: i in n.slots ==> SlotFits(n, i)
  {
    hide FileFits, Inodes.Fits, ObjectFits;
    forall i | i in n.slots
      ensures SlotFits(n, i)
    {
      assert SlotFits(m, i);
    }
  }

  function Named(m: Mount, path: string): Mount {
    m.(names := Inodes.Assign(m.names, path))
  }

  function Unnamed(m: Mount, path: string): Mount {
    m.(names := m.names.(byPath := m.names.byPath - {path}))
  }

  /** Names may change as long as open write handles keep theirs and none is
      given to the inode of a displaced handle. */
  ghost predicate MayRename(m: Mount, names: Inodes.Tables) {
    && Inodes.Fits(names) && m.names.next <= names.next
    && (forall p :: p in m.writers && p in m.names.byPath ==> p in names.byPath && names.byPath[p] == m.names.byPath[p])
    && (forall p :: p in names.byPath ==>
          (p in m.names.byPath && names.byPath[p] == m.names.byPath[p]) || names.byPath[p] > m.names.next)
  }

  lemma NamesObject(m: Mount, names: Inodes.Tables, o: nat)
    requires MayRename(m, names) && ObjectFits(m, o)
    ensures ObjectFits(m.(names := names), o)
  {
    hide Inodes.Fits;
    assert Shared(m.(names := names), o);
  }

  lemma NamesKeep(m: Mount, names: Inodes.Tables)
    requires Fits(m) && MayRename(m, names)
    ensures Fits(m.(names := names)) && Kept(m, m.(names := names))
  {
    hide ObjectFits, Inodes.Fits;
    var n := m.(names := names);
    forall o
      ensures o in n.objects ==> ObjectFits(n, o)
    {
      if o in m.objects {
        assert ObjectFits(m, o);
        NamesObject(m, names, o);
      }
    }
    forall f | f in n.files
      ensures FileFits(n, f)
    {
      assert FileFits(m, f);
    }
    SameShapeRestButNames(m, n);
    SamePlaces(m, n);
    SamePending(m, n);
    NamesKept(m, n);
  }

  lemma SameShapeRestButNames(m: Mount, n: Mount)
    requires Fits(m) && n == m.(names := n.names)
    ensures forall fh :: fh in n.handles ==> HandleFits(n, fh)
    ensures forall a, b :: a in n.objects && b in n.objects ==> Alone(n, a, b)
  {
    hide FileFits, Inodes.Fits, ObjectFits;
    forall fh | fh in n.handles
      ensures HandleFits(n, fh)
    {
      assert HandleFits(m, fh);
    }
    forall a, b | a in n.objects && b in n.objects
      ensures Alone(n, a, b)
    {
      assert Alone(m, a, b);
    }
  }

  lemma NamesKept(m: Mount, n: Mount)
    requires n == m.(names := n.names)
    ensures Kept(m, n)
  {
    forall o
      ensures ObjectKept(m, n, o)
    {
    }
    forall f
      ensures FileKept(m, n, f)
    {
      assert Live(n, f) <==> Live(m, f);
    }
  }

  lemma NameKeeps(m: Mount, path: string)
    requires Fits(m)
    ensures Fits(Named(m, path)) && Kept(m, Named(m, path))
    ensures path != Inodes.ROOT_PATH ==> Name(Named(m, path), path) == Some(Inodes.Ino(m.names, path))
  {
    hide Fits, Kept, Inodes.Fits;
    if path != Inodes.ROOT_PATH && path !in m.names.byPath {
      NamesFit(m);
      Inodes.FreshFits(m.names, path);
      WritersAreNamed(m);
      NamesKeep(m, Inodes.Assign(m.names, path));
    } else {
      KeptIsReflexive(m);
    }
  }

  lemma NamesFit(m: Mount)
    requires Fits(m)
    ensures Inodes.Fits(m.names)
  {
  }

  lemma WritersAreNamed(m: Mount)
    requires Fits(m)
    ensures forall p :: p in m.writers ==> p in m.names.byPath
  {
    hide FileFits, Inodes.Fits;
    forall p | p in m.writers
      ensures p in m.names.byPath
    {
      assert WriterFits(m, p);
      assert ObjectFits(m, m.handles[m.writers[p].fh]);
    }
  }

  lemma UnnameKeeps(m: Mount, path: string)
    requires Fits(m) && path !in m.writers
    ensures Fits(Unnamed(m, path)) && Kept(m, Unnamed(m, path))
  {
    hide Fits, Kept, Inodes.Fits;
    NamesFit(m);
    Inodes.ForgetFits(m.names, path);
    NamesKeep(m, Unnamed(m, path).names);
  }

  // ----------------------------------------------------------- one local file

  /** The report on file `f` stays, goes, or is a new one about this very file. */
  predicate Rereported(m: Mount, n: Mount, f: nat) {
    || n.confirmed == m.confirmed
    || n.confirmed == m.confirmed - {f}
    || (f in n.confirmed && n.confirmed == m.confirmed[f := n.confirmed[f]] && IsAbout(n, f, n.confirmed[f]))
  }

  predicate NoWriterOn(m: Mount, f: nat) {
    forall o :: o in m.objects && m.objects[o].Write? ==> m.objects[o].file != f
  }

  /** A change to the flags of live file `f`, to the report on it and to its pending
      entry: its bytes stay, and the mark fits the report. */
  ghost predicate Reflagged(m: Mount, n: Mount, f: nat) {
    f in m.files && f in n.files && InSlot(m, f) && Live(m, f) &&
    var c := n.files[f];
    n == m.(files := m.files[f := c], pending := n.pending, confirmed := n.confirmed) &&
    c.ino == m.files[f].ino && c.bytes == m.files[f].bytes && c.content in {m.files[f].content, Some(c.bytes)} &&
    Rereported(m, n, f) && MarkFits(c, ReportOn(n, f)) && (f in m.confirmed ==> f in n.confirmed || NoWriterOn(m, f)) &&
    n.pending in {m.pending, m.pending - {c.ino}, m.pending[c.ino := f]}
  }

  lemma ReflagKeeps(m: Mount, n: Mount, f: nat)
    requires Fits(m) && Reflagged(m, n, f)
    ensures Fits(n) && Kept(m, n)
  {
    hide Fits, Inodes.Fits, ObjectFits, FileFits, Live;
    ReflagFiles(m, n, f);
    ReflagHonest(m, n, f);
    SamePlaces(m, n);
    ReflagPending(m, n, f);
    HarmlessKeeps(m, n);
  }

  lemma ReflagFiles(m: Mount, n: Mount, f: nat)
    requires Fits(m) && Reflagged(m, n, f)
    ensures (forall g :: g in n.files ==> FileFits(n, g)) && n.confirmed.Keys <= n.files.Keys
  {
    hide Inodes.Fits, ObjectFits, Live, NoWriterOn;
    assert FileFits(m, f);
    forall g | g in n.files
      ensures FileFits(n, g)
    {
      assert FileFits(m, g);
    }
  }

  lemma ReflagHonest(m: Mount, n: Mount, f: nat)
    requires Reflagged(m, n, f)
    ensures forall o :: o in m.objects && Honest(m, o) ==> Honest(n, o)
  {
    hide Live, InSlot, MarkFits;
  }

  lemma ReflagPending(m: Mount, n: Mount, f: nat)
    requires Fits(m) && Reflagged(m, n, f)
    ensures forall i :: i in n.pending ==> PendingFits(n, i)
    ensures forall g :: g in m.files && !Live(m, g) ==> !Awaited(n, g) && n.files[g] == m.files[g]
  {
    hide Inodes.Fits, ObjectFits, FileFits;
    forall i | i in n.pending
      ensures PendingFits(n, i)
    {
      assert i in m.pending ==> PendingFits(m, i);
    }
    forall g | g in m.files && !Live(m, g)
      ensures !Awaited(n, g) && n.files[g] == m.files[g]
    {
      forall i | i in n.pending
        ensures n.pending[i] != g
      {
        assert n.pending[i] == f || (i in m.pending && m.pending[i] == n.pending[i]);
      }
    }
  }

  /** A change through write handle `o`: its flags and length, the content of its
      file and the report on it, its writer entry's length. */
  ghost predicate Rewritten(m: Mount, n: Mount, o: nat) {
    o in m.objects && m.objects[o].Write? && o in n.objects && m.objects[o].file in n.files &&
    var h, f := n.objects[o], m.objects[o].file;
    var c := n.files[f];
    f in m.files && h.Write? && h.file == f && h.path == m.objects[o].path &&
    n == m.(files := m.files[f := c], objects := m.objects[o := h], writers := n.writers, confirmed := n.confirmed) &&
    ((n.writers == m.writers && h.len == m.objects[o].len) ||
     n.writers == (if h.path in m.writers then m.writers[h.path := m.writers[h.path].(len := h.len)] else m.writers)) &&
    c.ino == m.files[f].ino && (c.content.Some? ==> c.content.value == c.bytes) &&
    Rereported(m, n, f) && MarkFits(c, ReportOn(n, f)) &&
    (h.committed && !h.dirty ==> f in n.confirmed || (Settled(m, o) && f !in m.confirmed))
  }

  lemma RewriteKeeps(m: Mount, n: Mount, o: nat)
    requires Fits(m) && Rewritten(m, n, o)
    ensures Fits(n) && Kept(m, n)
  {
    hide Fits, Inodes.Fits, ObjectFits, FileFits, WriterFits, PendingFits, SlotFits, Honest, SameShape;
    HandleIsLive(m, o);
    RewriteShape(m, n, o);
    RewriteFiles(m, n, o);
    RewritePlaces(m, n, o);
    RewriteHonest(m, n, o);
    SamePending(m, n);
    assert forall g :: Awaited(n, g) <==> Awaited(m, g);
    HarmlessKeeps(m, n);
  }

  lemma HandleIsLive(m: Mount, o: nat)
    requires Fits(m) && o in m.objects
    ensures Live(m, m.objects[o].file) && InSlot(m, m.objects[o].file)
  {
    assert ObjectFits(m, o);
    assert Opened(m, m.objects[o].file);
  }

  lemma RewriteShape(m: Mount, n: Mount, o: nat)
    requires Rewritten(m, n, o)
    ensures SameShape(m, n)
  {
  }

  lemma RewriteFiles(m: Mount, n: Mount, o: nat)
    requires Fits(m) && Rewritten(m, n, o)
    ensures (forall g :: g in n.files ==> FileFits(n, g)) && n.confirmed.Keys <= n.files.Keys
  {
    hide Inodes.Fits, ObjectFits;
    assert FileFits(m, m.objects[o].file);
    forall g | g in n.files
      ensures FileFits(n, g)
    {
      assert FileFits(m, g);
    }
  }

  lemma RewritePlaces(m: Mount, n: Mount, o: nat)
    requires Fits(m) && Rewritten(m, n, o)
    ensures forall p :: p in n.writers ==> WriterFits(n, p)
  {
    hide Inodes.Fits, FileFits;
    assert ObjectFits(m, o);
    forall p | p in n.writers
      ensures WriterFits(n, p)
    {
      assert WriterFits(m, p);
    }
  }

  lemma RewriteHonest(m: Mount, n: Mount, o: nat)
    requires Fits(m) && Rewritten(m, n, o)
    ensures forall a :: a in m.objects && Honest(m, a) ==> Honest(n, a)
  {
    hide Inodes.Fits, FileFits, ObjectFits;
    forall a | a in m.objects && Honest(m, a)
      ensures Honest(n, a)
    {
      assert Alone(m, o, a);
    }
  }

  /** New content for a live file no write handle is open on. */
  ghost predicate Replaced(m: Mount, n: Mount, f: nat) {
    f in m.files && f in n.files && Live(m, f) &&
    var c := n.files[f];
    n == m.(files := m.files[f := c], confirmed := m.confirmed - {f}) && c.ino == m.files[f].ino && c.unconfirmed &&
    (c.content.Some? ==> c.content.value == c.bytes) && NoWriterOn(m, f)
  }

  lemma ReplaceKeeps(m: Mount, n: Mount, f: nat)
    requires Fits(m) && Replaced(m, n, f)
    ensures Fits(n) && Kept(m, n)
  {
    hide Fits, Inodes.Fits, ObjectFits, FileFits;
    ReplaceFiles(m, n, f);
    SamePlaces(m, n);
    SamePending(m, n);
    assert forall g :: Awaited(n, g) <==> Awaited(m, g);
    HarmlessKeeps(m, n);
  }

  lemma ReplaceFiles(m: Mount, n: Mount, f: nat)
    requires Fits(m) && Replaced(m, n, f)
    ensures (forall g :: g in n.files ==> FileFits(n, g)) && n.confirmed.Keys <= n.files.Keys
    ensures forall o :: o in m.objects && Honest(m, o) ==> Honest(n, o)
  {
    hide Inodes.Fits, ObjectFits, Live;
    assert FileFits(m, f);
    forall g | g in n.files
      ensures FileFits(n, g)
    {
      assert FileFits(m, g);
    }
  }

  /** An upload sent by a named handle. */
  function Sent(m: Mount, o: nat): Mount
    requires o in m.objects && m.objects[o].Write? && m.objects[o].file in m.files
  {
    m.(uploads := m.uploads + [Upload(o, m.objects[o].path, m.files[m.objects[o].file].bytes)])
  }

  lemma SendKeeps(m: Mount, o: nat)
    requires Fits(m) && o in m.objects && m.objects[o].Write? && m.objects[o].path != ""
    ensures m.objects[o].file in m.files && Fits(Sent(m, o)) && Kept(m, Sent(m, o))
  {
    hide Fits, Kept, Live;
    HandleIsLive(m, o);
    HandleIsOld(m, o);
    TellKeeps(m, Sent(m, o));
  }

  lemma HandleIsOld(m: Mount, o: nat)
    requires Fits(m) && o in m.objects
    ensures o <= m.next
  {
    assert ObjectFits(m, o);
  }

  // ---------------------------------------------------------------- handles

  /** Handles were added. */
  ghost predicate Grown(m: Mount, n: Mount) {
    && n == m.(next := n.next, handles := n.handles, objects := n.objects, writers := n.writers) && n.next > m.next
    && (forall fh :: fh in m.handles ==> fh in n.handles && n.handles[fh] == m.handles[fh])
    && (forall fh :: fh in n.handles && fh !in m.handles ==> fh > m.next)
    && (forall o :: o in m.objects ==> o in n.objects && n.objects[o] == m.objects[o])
    && (forall o :: o in n.objects && o !in m.objects ==> m.next < o <= n.next)
    && (forall p :: p in m.writers ==> p in n.writers && n.writers[p] == m.writers[p])
  }

  /** ... none of them on a file that was already given up at `base`. */
  predicate Available(base: Mount, f: nat) {
    f in base.files ==> Live(base, f)
  }

  ghost predicate OnAvailable(base: Mount, m: Mount, n: Mount) {
    forall o :: o in n.objects && o !in m.objects ==> Available(base, n.objects[o].file)
  }

  lemma GrownObject(m: Mount, n: Mount, o: nat)
    requires Grown(m, n) && ObjectFits(m, o)
    ensures ObjectFits(n, o)
  {
    var fh :| fh in m.handles && m.handles[fh] == o;
    assert fh in n.handles && n.handles[fh] == o;
    assert Shared(n, o);
    if m.objects[o].Write? && m.objects[o].path == "" {
      assert Nameless(n, n.files[n.objects[o].file].ino);
    }
  }

  lemma GrownKept(base: Mount, m: Mount, n: Mount)
    requires Fits(base) && Fits(m) && Kept(base, m) && Grown(m, n) && OnAvailable(base, m, n)
    ensures Kept(base, n)
    ensures forall f :: f in n.files ==> FileFits(n, f)
  {
    hide Inodes.Fits, ObjectFits, Live;
    forall fh
      ensures HandleKept(base, n, fh)
    {
      assert HandleKept(base, m, fh);
      assert fh in base.handles ==> HandleFits(base, fh);
    }
    forall o
      ensures ObjectKept(base, n, o)
    {
      assert ObjectKept(base, m, o);
      assert Honest(m, o) && o in m.objects ==> Honest(n, o);
      assert o in base.objects ==> ObjectFits(base, o);
      BaseIsOlder(base, o);
    }
    forall f
      ensures FileKept(base, n, f) && (f in n.files ==> FileFits(n, f))
    {
      assert FileKept(base, m, f);
      assert f in m.files ==> FileFits(m, f);
      GrownLives(base, m, n, f);
    }
  }

  lemma BaseIsOlder(base: Mount, o: nat)
    requires Fits(base)
    ensures o in base.objects ==> o <= base.next
  {
    hide Inodes.Fits;
    assert o in base.objects ==> ObjectFits(base, o);
  }

  lemma GrownLives(base: Mount, m: Mount, n: Mount, f: nat)
    requires Grown(m, n) && OnAvailable(base, m, n)
    ensures f in base.files && !Live(base, f) && !Live(m, f) ==> !Live(n, f)
  {
    if Opened(n, f) {
      var a :| a in n.objects && n.objects[a].file == f;
      assert a in m.objects ==> m.objects[a].file == f;
      assert a !in m.objects ==> Available(base, n.objects[a].file);
    }
    assert Awaited(n, f) <==> Awaited(m, f);
  }

  /** What remains to be shown of added handles. */
  lemma GrownKeeps(base: Mount, m: Mount, n: Mount)
    requires Fits(base) && Fits(m) && Kept(base, m) && Grown(m, n) && OnAvailable(base, m, n)
    requires forall fh :: fh in n.handles ==> HandleFits(n, fh)
    requires forall o :: o in n.objects && o !in m.objects ==> ObjectFits(n, o)
    requires forall p :: p in n.writers ==> WriterFits(n, p)
    requires forall a, b :: a in n.objects && b in n.objects ==> Alone(n, a, b)
    ensures Fits(n) && Kept(base, n)
  {
    hide Inodes.Fits, ObjectFits, FileFits, HandleFits, WriterFits, Alone, Kept, OnAvailable;
    GrownKept(base, m, n);
    SamePending(m, n);
    forall o | o in n.objects
      ensures ObjectFits(n, o)
    {
      if o in m.objects {
        assert ObjectFits(m, o);
        GrownObject(m, n, o);
      }
    }
  }

  /** A new file handle for an open handle. */
  function Aliased(m: Mount, o: nat): Mount {
    m.(next := m.next + 1, handles := m.handles[m.next + 1 := o])
  }

  lemma NextIsFree(m: Mount)
    requires Fits(m)
    ensures m.next + 1 !in m.handles && m.next + 1 !in m.objects && m.next + 1 !in m.files
  {
    hide Inodes.Fits;
    forall k
      ensures k in m.handles ==> k <= m.next
      ensures k in m.objects ==> k <= m.next
      ensures k in m.files ==> k <= m.next
    {
      assert k in m.handles ==> HandleFits(m, k);
      assert k in m.objects ==> ObjectFits(m, k);
      assert k in m.files ==> FileFits(m, k);
    }
  }

  lemma AliasKeeps(m: Mount, o: nat)
    requires Fits(m) && o in m.objects
    ensures Fits(Aliased(m, o)) && Kept(m, Aliased(m, o))
  {
    hide Inodes.Fits, ObjectFits, FileFits, Live, Kept;
    var n := Aliased(m, o);
    NextIsFree(m);
    forall fh | fh in n.handles
      ensures HandleFits(n, fh)
    {
      assert fh in m.handles ==> HandleFits(m, fh);
    }
    forall p | p in n.writers
      ensures WriterFits(n, p)
    {
      assert WriterFits(m, p);
    }
    forall a, b | a in n.objects && b in n.objects
      ensures Alone(n, a, b)
    {
      assert Alone(m, a, b);
    }
    KeptIsReflexive(m);
    GrownKeeps(m, m, n);
  }

  /** A new handle of its own, on a file in its slot. */
  function Handed(m: Mount, h: Handle): Mount {
    var id := m.next + 1;
    m.(next := id, objects := m.objects[id := h], handles := m.handles[id := id],
       writers := if h.Write? then m.writers[h.path := Writer(id, h.len)] else m.writers)
  }

  /** A write handle may be added for a name that has no writer. */
  predicate MayHand(m: Mount, h: Handle) {
    InSlot(m, h.file) &&
    (h.Write? ==> h.path != "" && h.path !in m.writers && Name(m, h.path) == Some(m.files[h.file].ino))
  }

  lemma NoOtherWriter(m: Mount, h: Handle, a: nat)
    requires Fits(m) && MayHand(m, h) && h.Write? && a in m.objects && m.objects[a].Write?
    ensures m.objects[a].file != h.file
  {
    assert ObjectFits(m, a);
    if m.objects[a].path != "" {
      Inodes.TablesAreOneToOne(m.names, m.objects[a].path, h.path, Inodes.Identity(0, 0), Inodes.Identity(0, 0));
    }
  }

  lemma HandAlone(m: Mount, h: Handle)
    requires Fits(m) && MayHand(m, h)
    ensures forall a, b :: a in Handed(m, h).objects && b in Handed(m, h).objects ==> Alone(Handed(m, h), a, b)
  {
    hide Inodes.Fits, ObjectFits, FileFits, Live;
    var n := Handed(m, h);
    NextIsFree(m);
    forall a | h.Write? && a in m.objects && m.objects[a].Write?
      ensures m.objects[a].file != h.file
    {
      NoOtherWriter(m, h, a);
    }
    forall a, b | a in n.objects && b in n.objects
      ensures Alone(n, a, b)
    {
      assert a in m.objects && b in m.objects ==> Alone(m, a, b);
    }
  }

  lemma HandKeeps(base: Mount, m: Mount, h: Handle)
    requires Fits(base) && Fits(m) && Kept(base, m) && MayHand(m, h) && Available(base, h.file)
    ensures Fits(Handed(m, h)) && Kept(base, Handed(m, h))
  {
    hide Fits, Inodes.Fits, ObjectFits, FileFits, Live, Kept, Alone, HandleFits, WriterFits;
    var n := Handed(m, h);
    NextIsFree(m);
    HandPlaces(m, h);
    HandAlone(m, h);
    NewObjectFits(m, h);
    GrownKeeps(base, m, n);
  }

  lemma HandPlaces(m: Mount, h: Handle)
    requires Fits(m) && MayHand(m, h)
    ensures forall fh :: fh in Handed(m, h).handles ==> HandleFits(Handed(m, h), fh)
    ensures forall p :: p in Handed(m, h).writers ==> WriterFits(Handed(m, h), p)
  {
    hide Inodes.Fits, ObjectFits, FileFits, Live, Alone;
    var n := Handed(m, h);
    NextIsFree(m);
    forall fh | fh in n.handles
      ensures HandleFits(n, fh)
    {
      assert fh in m.handles ==> HandleFits(m, fh);
    }
    forall p | p in n.writers
      ensures WriterFits(n, p)
    {
      assert p in m.writers ==> WriterFits(m, p);
    }
  }

  lemma NewObjectFits(m: Mount, h: Handle)
    requires MayHand(m, h)
    ensures ObjectFits(Handed(m, h), m.next + 1)
  {
    var n := Handed(m, h);
    assert n.handles[m.next + 1] == m.next + 1;
  }

  /** A downloaded or new local file for an inode whose old one is given up, with the
      report on downloaded bytes. */
  function Created(m: Mount, c: CachedFile, report: Option<Report>): Mount {
    m.(next := m.next + 1, files := m.files[m.next + 1 := c], slots := m.slots[c.ino := m.next + 1],
       confirmed := if report.Some? then m.confirmed[m.next + 1 := report.value] else m.confirmed)
  }

  lemma CreateSlots(m: Mount, c: CachedFile, report: Option<Report>, f: nat)
    requires Cached(m, c.ino).None? && InSlot(m, f) && Live(m, f) && f <= m.next
    ensures InSlot(Created(m, c, report), f)
  {
  }

  lemma CreateObject(m: Mount, c: CachedFile, report: Option<Report>, o: nat)
    requires Fits(m) && Cached(m, c.ino).None? && o in m.objects
    ensures ObjectFits(Created(m, c, report), o) && (Honest(m, o) ==> Honest(Created(m, c, report), o))
  {
    hide Inodes.Fits, Live, HandleFits, WriterFits, PendingFits, SlotFits, Alone, Cached;
    var n := Created(m, c, report);
    assert ObjectFits(m, o);
    HandleIsLive(m, o);
    assert FileFits(m, m.objects[o].file);
    CreateSlots(m, c, report, m.objects[o].file);
    assert Shared(n, o);
  }

  lemma CreateRest(m: Mount, c: CachedFile, report: Option<Report>)
    requires Fits(m) && Cached(m, c.ino).None?
    ensures var n := Created(m, c, report);
            (forall fh :: fh in n.handles ==> HandleFits(n, fh)) && (forall p :: p in n.writers ==> WriterFits(n, p)) &&
            (forall i :: i in n.pending ==> PendingFits(n, i)) && (forall i :: i in n.slots ==> SlotFits(n, i)) &&
            (forall a, b :: a in n.objects && b in n.objects ==> Alone(n, a, b))
  {
    hide Inodes.Fits, ObjectFits;
    var n := Created(m, c, report);
    NextIsFree(m);
    forall i | i in n.slots
      ensures SlotFits(n, i)
    {
      assert i in m.slots ==> SlotFits(m, i);
    }
    forall fh | fh in n.handles
      ensures HandleFits(n, fh)
    {
      assert HandleFits(m, fh);
    }
    forall i | i in n.pending
      ensures PendingFits(n, i)
    {
      assert PendingFits(m, i);
      assert Awaited(m, m.pending[i]);
      assert FileFits(m, m.pending[i]);
      CreateSlots(m, c, report, m.pending[i]);
    }
    forall a, b | a in n.objects && b in n.objects
      ensures Alone(n, a, b)
    {
      assert Alone(m, a, b);
    }
    SamePlaces(m, n);
  }

  lemma CreateKeeps(m: Mount, c: CachedFile, report: Option<Report>)
    requires Fits(m) && Cached(m, c.ino).None? && (c.content.Some? ==> c.content.value == c.bytes)
    requires MarkFits(c, report)
    ensures Fits(Created(m, c, report)) && Kept(m, Created(m, c, report))
  {
    hide Inodes.Fits, ObjectFits, HandleFits, WriterFits, PendingFits, SlotFits, Alone, Honest;
    var n := Created(m, c, report);
    NextIsFree(m);
    forall o
      ensures ObjectKept(m, n, o) && (o in n.objects ==> ObjectFits(n, o))
    {
      if o in m.objects { CreateObject(m, c, report, o); }
    }
    CreateRest(m, c, report);
    CreateFiles(m, c, report);
  }

  lemma CreateFiles(m: Mount, c: CachedFile, report: Option<Report>)
    requires Fits(m) && (c.content.Some? ==> c.content.value == c.bytes) && MarkFits(c, report)
    ensures var n := Created(m, c, report);
            (forall f :: FileKept(m, n, f)) && (forall f :: f in n.files ==> FileFits(n, f)) && n.confirmed.Keys <= n.files.Keys
  {
    hide Inodes.Fits, ObjectFits;
    var n := Created(m, c, report);
    NextIsFree(m);
    forall f
      ensures FileKept(m, n, f) && (f in n.files ==> FileFits(n, f))
    {
      assert f in m.files ==> FileFits(m, f);
      assert Live(n, f) <==> Live(m, f);
    }
  }

  // ---------------------------------------------------------------- release

  function WriterAfter(m: Mount, fh: nat, heir: Option<nat>): map<string, Writer>
    requires fh in m.handles && m.handles[fh] in m.objects
  {
    var h := m.objects[m.handles[fh]];
    if h.Write? && h.path in m.writers && m.writers[h.path].fh == fh
    then (if heir.Some? then m.writers[h.path := m.writers[h.path].(fh := heir.value)] else m.writers - {h.path})
    else m.writers
  }

  /** A file handle is closed; `heir` is another handle sharing the same open
      handle, if there is one. */
  function Released(m: Mount, fh: nat, heir: Option<nat>): Mount
    requires fh in m.handles && m.handles[fh] in m.objects
  {
    var o := m.handles[fh];
    m.(handles := m.handles - {fh}, writers := WriterAfter(m, fh, heir),
       objects := if heir.Some? then m.objects else m.objects - {o})
  }

  ghost predicate IsHeir(m: Mount, fh: nat, heir: Option<nat>) {
    fh in m.handles &&
    match heir
    case Some(k) => k != fh && k in m.handles && m.handles[k] == m.handles[fh]
    case None => forall k :: k in m.handles && m.handles[k] == m.handles[fh] ==> k == fh
  }

  lemma ReleaseShared(m: Mount, fh: nat, heir: Option<nat>, o: nat)
    requires IsHeir(m, fh, heir) && m.handles[fh] in m.objects && Shared(m, o) && o in Released(m, fh, heir).objects
    ensures Shared(Released(m, fh, heir), o)
  {
    var n := Released(m, fh, heir);
    if o == m.handles[fh] {
      assert heir.value in n.handles && n.handles[heir.value] == o;
    } else {
      var k :| k in m.handles && m.handles[k] == o;
      assert k in n.handles && n.handles[k] == o;
    }
  }

  lemma ReleaseNamed(m: Mount, fh: nat, heir: Option<nat>, o: nat, path: string, ino: nat)
    requires IsHeir(m, fh, heir) && m.handles[fh] in m.objects && o in Released(m, fh, heir).objects
    requires NamedFits(m, o, path, ino) && o in m.objects && m.objects[o].Write? && m.objects[o].path == path
    ensures NamedFits(Released(m, fh, heir), o, path, ino)
  {
  }

  lemma ReleaseObject(m: Mount, fh: nat, heir: Option<nat>, o: nat)
    requires Fits(m) && IsHeir(m, fh, heir) && m.handles[fh] in m.objects && o in Released(m, fh, heir).objects
    ensures ObjectFits(Released(m, fh, heir), o)
  {
    hide Inodes.Fits, FileFits, NamedFits, Shared, WriterAfter, HandleFits, WriterFits, PendingFits, Alone;
    var n := Released(m, fh, heir);
    assert ObjectFits(m, o);
    ReleaseShared(m, fh, heir, o);
    if m.objects[o].Write? {
      var ino := m.files[m.objects[o].file].ino;
      if m.objects[o].path != "" {
        ReleaseNamed(m, fh, heir, o, m.objects[o].path, ino);
      } else {
        assert Nameless(m, ino);
      }
    }
  }

  lemma ReleaseWriters(m: Mount, fh: nat, heir: Option<nat>)
    requires Fits(m) && IsHeir(m, fh, heir) && m.handles[fh] in m.objects
    ensures forall p :: p in Released(m, fh, heir).writers ==> WriterFits(Released(m, fh, heir), p)
    ensures forall k :: k in Released(m, fh, heir).handles ==> HandleFits(Released(m, fh, heir), k)
  {
    hide Inodes.Fits, FileFits, ObjectFits;
    var n := Released(m, fh, heir);
    forall p | p in n.writers
      ensures WriterFits(n, p)
    {
      assert WriterFits(m, p);
    }
    forall k | k in n.handles
      ensures HandleFits(n, k)
    {
      assert HandleFits(m, k);
    }
  }

  /** Closing keeps everything; in particular a shared writer entry passes to a
      surviving alias. */
  lemma ReleaseKeeps(m: Mount, fh: nat, heir: Option<nat>)
    requires Fits(m) && IsHeir(m, fh, heir)
    ensures m.handles[fh] in m.objects && Fits(Released(m, fh, heir)) && Kept(m, Released(m, fh, heir))
  {
    hide Inodes.Fits, FileFits, ObjectFits, WriterFits, HandleFits, Kept;
    FhFits(m, fh);
    var n := Released(m, fh, heir);
    forall o | o in n.objects
      ensures ObjectFits(n, o)
    {
      ReleaseObject(m, fh, heir, o);
    }
    ReleaseWriters(m, fh, heir);
    SamePending(m, n);
    ReleaseFiles(m, fh, heir);
    forall a, b | a in n.objects && b in n.objects
      ensures Alone(n, a, b)
    {
      assert Alone(m, a, b);
    }
  }

  lemma FhFits(m: Mount, fh: nat)
    requires Fits(m) && fh in m.handles
    ensures m.handles[fh] in m.objects
  {
    assert HandleFits(m, fh);
  }

  lemma ReleaseFiles(m: Mount, fh: nat, heir: Option<nat>)
    requires Fits(m) && fh in m.handles && m.handles[fh] in m.objects
    ensures Kept(m, Released(m, fh, heir))
    ensures forall f :: f in m.files ==> FileFits(Released(m, fh, heir), f)
  {
    hide Inodes.Fits, ObjectFits;
    var n := Released(m, fh, heir);
    forall o
      ensures ObjectKept(m, n, o)
    {
    }
    forall f
      ensures FileKept(m, n, f) && (f in n.files ==> FileFits(n, f))
    {
      assert f in m.files ==> FileFits(m, f);
      if Opened(n, f) {
        var a :| a in n.objects && n.objects[a].file == f;
        assert a in m.objects && m.objects[a].file == f;
      }
      assert Awaited(n, f) <==> Awaited(m, f);
    }
  }
}
