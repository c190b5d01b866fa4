/** What opening, truncating and closing do to a mount, call by call (src/tapefs.rs:
    `open_inner`, `open_for_write`, `truncate_inner`, `flush`), and which files they
    can reach. */
module MountOpens {
  import opened Outcomes
  import opened ByteStrings
  import Inodes
  import opened Mounts
  import opened MountSteps
  import opened MountCalls

  const MAX_SIZE: nat := 0x7fff_ffff_ffff_ffff

  /** Overwrite at an offset; a gap is filled with zeros. */
  function WriteAt(bytes: Bytes, offset: nat, data: Bytes): (r: Bytes)
    ensures |r| == if data == [] && offset <= |bytes| then |bytes| else if offset + |data| > |bytes| then offset + |data| else |bytes|
    ensures forall i :: offset <= i < offset + |data| ==> r[i] == data[i - offset]
    ensures forall i :: 0 <= i < offset && i < |bytes| ==> r[i] == bytes[i]
    ensures forall i :: offset + |data| <= i < |bytes| ==> r[i] == bytes[i]
  {
    Resize(bytes, offset)[..offset] + data + (if offset + |data| < |bytes| then bytes[offset + |data|..] else [])
  }

  function Resize(bytes: Bytes, size: nat): (r: Bytes)
    ensures |r| == size && forall i :: 0 <= i < size ==> r[i] == if i < |bytes| then bytes[i] else 0
  {
    if size <= |bytes| then bytes[..size] else bytes + seq(size - |bytes|, _ => 0)
  }

  /** A call's new state and whether it answered Ok. */
  datatype Called = Called(mount: Mount, ok: bool)

  datatype Opening = Opening(mount: Mount, fh: Option<nat>)

  /** The live local file of an inode. */
  function LocalFile(m: Mount, ino: nat): Option<nat> {
    if Cached(m, ino).Some? && Cached(m, ino).value in m.files then Cached(m, ino) else None
  }

  lemma LocalIsCached(m: Mount, ino: nat)
    requires Fits(m)
    ensures LocalFile(m, ino) == Cached(m, ino)
    ensures LocalFile(m, ino).Some? ==> var f := LocalFile(m, ino).value; InSlot(m, f) && m.files[f].ino == ino && Live(m, f)
  {
    hide Fits, Live;
    if Cached(m, ino).Some? { CachedIsSound(m, ino); }
  }

  // ------------------------------------------------------------------- reading

  /** The local file of a reopened name must agree with what is committed there. */
  function Rechecking(m: Mount, path: string, f: nat, stat: StatReply): Called
    requires f in m.files
  {
    match stat
    case StatFailed => Called(m, false)
    case Absent => Called(m.(pending := m.pending - {m.files[f].ino}), false)
    case Found(committed, current) =>
      Called(Rechecked(m, path, f, stat), m.files[f].content.Some? && (committed ==> current == m.files[f].content))
  }

  lemma RecheckingKeeps(m: Mount, path: string, f: nat, stat: StatReply)
    requires Fits(m) && InSlot(m, f) && Live(m, f) && PathOf(m.names, m.files[f].ino) == Some(path)
    ensures var n := Rechecking(m, path, f, stat).mount; Fits(n) && Kept(m, n)
  {
    hide Fits, Kept, Live;
    KeptIsReflexive(m);
    DropPendingKeeps(m, m.files[f].ino);
    RecheckKeeps(m, path, f, stat);
  }

  /** A reader of the local file that is there already. */
  function OpeningCached(m: Mount, path: string, f: nat, stat: StatReply): Opening
    requires f in m.files
  {
    var checked := if path in m.writers then Called(m, true) else Rechecking(m, path, f, stat);
    if checked.ok then Opening(Handed(checked.mount, Read(f)), Some(checked.mount.next + 1)) else Opening(checked.mount, None)
  }

  /** `open_inner` for reading. `attr`: the backend shows a plain file at the inode's name. */
  function OpeningRead(m: Mount, ino: nat, attr: bool, stat: StatReply, fetched: Option<Bytes>): Opening {
    var path := PathOf(m.names, ino);
    if path.None? || !attr || Name(m, path.value) != Some(ino) then Opening(m, None)
    else OpeningNamed(m, path.value, ino, stat, fetched)
  }

  function OpeningNamed(m: Mount, path: string, ino: nat, stat: StatReply, fetched: Option<Bytes>): Opening {
    var f := LocalFile(m, ino);
    if f.Some? then OpeningCached(m, path, f.value, stat)
    else if stat.Found? && stat.current.Some? && fetched == stat.current then
      Opening(Downloaded(m, path, ino, fetched.value), Some(m.next + 2))
    else Opening(m, None)
  }

  lemma OpeningReadKeeps(m: Mount, ino: nat, attr: bool, stat: StatReply, fetched: Option<Bytes>)
    requires Fits(m)
    ensures var n := OpeningRead(m, ino, attr, stat, fetched).mount; Fits(n) && Kept(m, n)
  {
    hide Fits, Kept, Live, Cached, Handed, Downloaded, Rechecking;
    KeptIsReflexive(m);
    LocalIsCached(m, ino);
    var path := PathOf(m.names, ino);
    if path.Some? && attr && Name(m, path.value) == Some(ino) {
      var f := LocalFile(m, ino);
      if f.Some? {
        var checked := if path.value in m.writers then Called(m, true) else Rechecking(m, path.value, f.value, stat);
        RecheckingKeeps(m, path.value, f.value, stat);
        StillInSlot(m, path.value, f.value, stat);
        HandKeeps(m, checked.mount, Read(f.value));
      } else if fetched.Some? {
        DownloadKeeps(m, path.value, ino, fetched.value);
      }
    }
  }

  lemma StillInSlot(m: Mount, path: string, f: nat, stat: StatReply)
    requires InSlot(m, f)
    ensures InSlot(Rechecking(m, path, f, stat).mount, f)
    ensures var n := Rechecking(m, path, f, stat).mount;
            n.names == m.names && n.writers == m.writers && n.handles == m.handles && n.objects == m.objects && n.next == m.next &&
            n.slots == m.slots && n.files.Keys == m.files.Keys && n.files[f].ino == m.files[f].ino && n.files[f].bytes == m.files[f].bytes
  {
    hide Rechecked;
    RecheckedFrame(m, path, f, stat);
  }

  lemma RecheckedFrame(m: Mount, path: string, f: nat, stat: StatReply)
    requires f in m.files
    ensures var n := Rechecked(m, path, f, stat);
            n == m.(pending := n.pending, files := n.files, confirmed := n.confirmed) && n.files.Keys == m.files.Keys &&
            n.files[f].ino == m.files[f].ino && n.files[f].bytes == m.files[f].bytes
  {
  }

  /** A new reader of file `f` of the inode and nothing else of the handles changed. */
  ghost predicate NewReader(m: Mount, n: Mount, fh: nat, ino: nat, f: nat) {
    fh == n.next && fh !in m.handles && n.handles == m.handles[fh := fh] && n.objects == m.objects[fh := Read(f)] &&
    n.names == m.names && n.writers == m.writers && InSlot(n, f) && n.files[f].ino == ino && LocalFile(n, ino) == Some(f)
  }

  /** What a reader is given: the inode's own local file, or exactly the downloaded bytes. */
  lemma ReaderSees(m: Mount, ino: nat, attr: bool, stat: StatReply, fetched: Option<Bytes>)
    requires Fits(m) && OpeningRead(m, ino, attr, stat, fetched).fh.Some?
    ensures var n, fh := OpeningRead(m, ino, attr, stat, fetched).mount, OpeningRead(m, ino, attr, stat, fetched).fh.value;
            fh in n.objects && NewReader(m, n, fh, ino, n.objects[fh].file) &&
            var f := n.objects[fh].file;
            if LocalFile(m, ino).Some? then f == LocalFile(m, ino).value && n.files[f].bytes == m.files[f].bytes
            else Some(n.files[f].bytes) == fetched == stat.current && f in n.confirmed
  {
    hide Fits, Live, Cached, Rechecking, NewReader, Downloaded;
    LocalIsCached(m, ino);
    var path, f := PathOf(m.names, ino).value, LocalFile(m, ino);
    if f.Some? {
      var checked := if path in m.writers then Called(m, true) else Rechecking(m, path, f.value, stat);
      StillInSlot(m, path, f.value, stat);
      ReaderOfSlot(m, checked.mount, ino, f.value);
    } else {
      ReaderOfDownload(m, path, ino, fetched.value);
    }
  }

  lemma ReaderOfSlot(m: Mount, k: Mount, ino: nat, f: nat)
    requires Fits(m) && InSlot(k, f) && k.files[f].ino == ino
    requires k.names == m.names && k.writers == m.writers && k.handles == m.handles && k.objects == m.objects && k.next == m.next
    ensures NewReader(m, Handed(k, Read(f)), m.next + 1, ino, f)
  {
    hide Fits;
    NextIsFree(m);
    ReaderHolds(Handed(k, Read(f)), m.next + 1, ino);
  }

  lemma ReaderOfDownload(m: Mount, path: string, ino: nat, bytes: Bytes)
    requires Fits(m)
    ensures var n := Downloaded(m, path, ino, bytes);
            NewReader(m, n, m.next + 2, ino, m.next + 1) && n.files[m.next + 1].bytes == bytes && m.next + 1 in n.confirmed &&
            m.next + 2 in n.objects && n.objects[m.next + 2].file == m.next + 1
  {
    hide Fits;
    FreeAfter(m);
    ReaderHolds(Downloaded(m, path, ino, bytes), m.next + 2, ino);
  }

  lemma FreeAfter(m: Mount)
    requires Fits(m)
    ensures m.next + 2 !in m.handles && m.next + 2 !in m.objects
  {
    forall k
      ensures k in m.handles ==> k <= m.next
      ensures k in m.objects ==> k <= m.next
    {
      assert k in m.handles ==> HandleFits(m, k);
      assert k in m.objects ==> ObjectFits(m, k);
    }
  }

  lemma ReaderHolds(m: Mount, o: nat, ino: nat)
    requires o in m.objects && InSlot(m, m.objects[o].file) && m.files[m.objects[o].file].ino == ino
    ensures LocalFile(m, ino) == Some(m.objects[o].file)
  {
    assert Opened(m, m.objects[o].file);
  }

  // -------------------------------------------------- truncating an open file

  /** The open handle the writer table has for a path. */
  function WriterOf(m: Mount, path: string): Option<nat> {
    if path in m.writers && m.writers[path].fh in m.handles && NamedWriter(m, m.handles[m.writers[path].fh])
    then Some(m.handles[m.writers[path].fh]) else None
  }

  lemma WriterIsOpen(m: Mount, path: string)
    requires Fits(m) && path in m.writers
    ensures path != "" && WriterOf(m, path).Some?
    ensures var o := WriterOf(m, path).value;
            m.writers[path].fh in m.handles && o == m.handles[m.writers[path].fh] && NamedWriter(m, o) && m.objects[o].path == path &&
            m.objects[o].len == m.writers[path].len && Name(m, path) == Some(FileOf(m, o).ino)
  {
    assert WriterFits(m, path);
    assert ObjectFits(m, m.handles[m.writers[path].fh]);
  }

  /** A truncation through the writer table; a failing disk leaves only the marks. */
  function Truncating(m: Mount, path: string, size: nat, disk: bool): Called {
    var o := WriterOf(m, path);
    if o.None? then Called(m, false)
    else if size == m.objects[o.value].len then Called(m, true)
    else if size > MAX_SIZE then Called(m, false)
    else if !disk then Called(Damaged(m, o.value, FileOf(m, o.value).bytes), false)
    else Called(Changed(m, o.value, Resize(FileOf(m, o.value).bytes, size), size), true)
  }

  lemma TruncatingKeeps(m: Mount, path: string, size: nat, disk: bool)
    requires Fits(m)
    ensures var n := Truncating(m, path, size, disk).mount; Fits(n) && Kept(m, n)
  {
    hide Fits, Kept;
    KeptIsReflexive(m);
    var o := WriterOf(m, path);
    if o.Some? {
      DamageKeeps(m, o.value, FileOf(m, o.value).bytes);
      ChangeKeeps(m, o.value, Resize(FileOf(m, o.value).bytes, size), size);
    }
  }

  /** Local files of other inodes keep their bytes. */
  ghost predicate BytesKept(m: Mount, n: Mount, ino: nat) {
    forall f :: f in m.files ==>
      f in n.files && n.files[f].ino == m.files[f].ino && (n.files[f].bytes != m.files[f].bytes ==> m.files[f].ino == ino)
  }

  lemma TruncatingStays(m: Mount, path: string, size: nat, disk: bool)
    requires Fits(m) && path in m.writers
    ensures var n := Truncating(m, path, size, disk).mount;
            Name(m, path).Some? && BytesKept(m, n, Name(m, path).value) && n.names == m.names && n.handles == m.handles && n.next == m.next &&
            n.objects.Keys == m.objects.Keys && path in n.writers && n.writers[path].fh == m.writers[path].fh &&
            forall a :: a in m.objects ==> SameHandle(m.objects[a], n.objects[a])
  {
    hide Fits, Resize, Changed, Damaged, BytesKept, WriterOf, NamedWriter;
    WriterIsOpen(m, path);
    var o := WriterOf(m, path).value;
    SameBytes(m, m, Name(m, path).value);
    ChangedFrame(m, o, Resize(FileOf(m, o).bytes, size), size);
    DamagedFrame(m, o);
  }

  lemma ChangedFrame(m: Mount, o: nat, bytes: Bytes, len: nat)
    requires NamedWriter(m, o)
    ensures var n := Changed(m, o, bytes, len);
            BytesKept(m, n, FileOf(m, o).ino) && n.names == m.names && n.handles == m.handles && n.next == m.next &&
            n.objects.Keys == m.objects.Keys && n.writers.Keys == m.writers.Keys &&
            (forall p :: p in m.writers ==> n.writers[p].fh == m.writers[p].fh) &&
            (forall a :: a in m.objects ==> SameHandle(m.objects[a], n.objects[a]))
  {
  }

  lemma DamagedFrame(m: Mount, o: nat)
    requires NamedWriter(m, o)
    ensures var n := Damaged(m, o, FileOf(m, o).bytes);
            BytesKept(m, n, FileOf(m, o).ino) && n.names == m.names && n.handles == m.handles && n.next == m.next &&
            n.objects.Keys == m.objects.Keys && n.writers == m.writers &&
            (forall a :: a in m.objects ==> SameHandle(m.objects[a], n.objects[a]))
  {
  }

  lemma TruncatingEffect(m: Mount, path: string, size: nat, disk: bool)
    requires Fits(m) && path in m.writers && Truncating(m, path, size, disk).ok
    ensures WriterOf(m, path).Some?
    ensures var o, n := WriterOf(m, path).value, Truncating(m, path, size, disk).mount;
            NamedWriter(n, o) && n.objects[o].path == path && n.objects[o].file == m.objects[o].file && FileOf(n, o).ino == FileOf(m, o).ino &&
            (|FileOf(m, o).bytes| == m.objects[o].len ==> FileOf(n, o).bytes == Resize(FileOf(m, o).bytes, size))
  {
    hide Fits;
    WriterIsOpen(m, path);
    var o := WriterOf(m, path).value;
    if size == |FileOf(m, o).bytes| {
      assert Resize(FileOf(m, o).bytes, size) == FileOf(m, o).bytes;
    }
  }

  // ------------------------------------------------------------------- writing

  /** A failed truncation on open: the content may no longer be what was confirmed. */
  function Doubted(m: Mount, f: nat): Mount
    requires f in m.files
  {
    m.(files := m.files[f := m.files[f].(unconfirmed := true)], confirmed := m.confirmed - {f})
  }

  /** A further handle on a name already open for writing. */
  function Sharing(m: Mount, path: string, truncate: bool, disk: bool): Opening {
    var o := WriterOf(m, path);
    if o.None? then Opening(m, None)
    else
      var fh, k := m.next + 1, Aliased(m, o.value);
      if !truncate then Opening(k, Some(fh))
      else
        var t := Truncating(k, path, 0, disk);
        if t.ok then Opening(t.mount, Some(fh)) else Opening(t.mount.(handles := t.mount.handles - {fh}), None)
  }

  /** The inner part of `open_for_write`. `target`: the upload target could be captured. */
  function OpeningWrite(m: Mount, path: string, ino: nat, createOnly: bool, truncate: bool, target: bool, disk: bool): Opening {
    if path == "" || Name(m, path) != Some(ino) then Opening(m, None)
    else if path in m.writers then Sharing(m, path, truncate, disk)
    else OpeningOwn(m, path, ino, createOnly, truncate, target, disk)
  }

  /** A write handle of its own. */
  function OpeningOwn(m: Mount, path: string, ino: nat, createOnly: bool, truncate: bool, target: bool, disk: bool): Opening {
    var f := LocalFile(m, ino);
    if !truncate && f.None? then Opening(m, None)
    else if !target && (f.None? || m.files[f.value].createOnly.None?) then Opening(m, None)
    else if truncate && !disk then Opening(if f.Some? then Doubted(m, f.value) else m, None)
    else
      var n := OpenedForWrite(m, path, ino, f, truncate, createOnly);
      Opening(n, Some(n.next))
  }

  lemma DoubtKeeps(m: Mount, path: string, f: nat)
    requires Fits(m) && InSlot(m, f) && Live(m, f) && path != "" && path !in m.writers && Name(m, path) == Some(m.files[f].ino)
    ensures Fits(Doubted(m, f)) && Kept(m, Doubted(m, f))
  {
    hide Fits, Kept, Live;
    FileIsSound(m, f);
    forall o | o in m.objects && m.objects[o].Write?
      ensures m.objects[o].file != f
    {
      NoOtherWriter(m, Write(f, path, 0, true, false, false), o);
    }
    ReflagKeeps(m, Doubted(m, f), f);
  }

  lemma SharingKeeps(m: Mount, path: string, truncate: bool, disk: bool)
    requires Fits(m)
    ensures var n := Sharing(m, path, truncate, disk).mount; Fits(n) && Kept(m, n)
  {
    hide Fits, Kept, Live, Truncating;
    KeptIsReflexive(m);
    var o := WriterOf(m, path);
    if o.Some? {
      var k := Aliased(m, o.value);
      AliasKeeps(m, o.value);
      TruncatingKeeps(k, path, 0, disk);
      var t := Truncating(k, path, 0, disk);
      KeptIsTransitive(m, k, t.mount);
      if truncate && !t.ok {
        AliasCloses(m, path, disk);
      }
    }
  }

  /** Taking the new alias away again: the entry still has its older handle. */
  lemma AliasCloses(m: Mount, path: string, disk: bool)
    requires Fits(m) && WriterOf(m, path).Some?
    requires var k := Aliased(m, WriterOf(m, path).value);
             Fits(Truncating(k, path, 0, disk).mount) && Kept(m, Truncating(k, path, 0, disk).mount)
    ensures var t := Truncating(Aliased(m, WriterOf(m, path).value), path, 0, disk).mount;
            var n := t.(handles := t.handles - {m.next + 1}); Fits(n) && Kept(m, n)
  {
    hide Fits, Kept, Live;
    WriterIsOpen(m, path);
    NextIsFree(m);
    var k := Aliased(m, WriterOf(m, path).value);
    var t := Truncating(k, path, 0, disk).mount;
    var heir := Some(m.writers[path].fh);
    assert IsHeir(t, m.next + 1, heir);
    ReleaseKeeps(t, m.next + 1, heir);
    KeptIsTransitive(m, t, Released(t, m.next + 1, heir));
  }

  lemma OpeningWriteKeeps(m: Mount, path: string, ino: nat, createOnly: bool, truncate: bool, target: bool, disk: bool)
    requires Fits(m)
    ensures var n := OpeningWrite(m, path, ino, createOnly, truncate, target, disk).mount; Fits(n) && Kept(m, n)
  {
    hide Fits, Kept, Live, Cached, Sharing, OpenedForWrite, Doubted;
    KeptIsReflexive(m);
    LocalIsCached(m, ino);
    SharingKeeps(m, path, truncate, disk);
    var f := LocalFile(m, ino);
    if path != "" && Name(m, path) == Some(ino) && path !in m.writers {
      if f.Some? { DoubtKeeps(m, path, f.value); }
      if truncate || f.Some? { OpenKeeps(m, path, ino, truncate, createOnly); }
    }
  }

  /** `open_for_write`: a non-truncating open first gets the whole old content, kept by
      a temporary reader until the write handle takes over. */
  function OpeningForWrite(m: Mount, path: string, createOnly: bool, truncate: bool, attr: bool, stat: StatReply,
                           fetched: Option<Bytes>, target: bool, disk: bool): Opening {
    var k, ino := Named(m, path), Inodes.Ino(m.names, path);
    if truncate || LocalFile(k, ino).Some? then OpeningWrite(k, path, ino, createOnly, truncate, target, disk)
    else
      var r := OpeningRead(k, ino, attr, stat, fetched);
      if r.fh.None? then r
      else
        var w := OpeningWrite(r.mount, path, ino, createOnly, truncate, target, disk);
        Opening(w.mount.(handles := w.mount.handles - {r.fh.value}, objects := w.mount.objects - {r.fh.value}), w.fh)
  }

  lemma OpeningForWriteKeeps(m: Mount, path: string, createOnly: bool, truncate: bool, attr: bool, stat: StatReply,
                             fetched: Option<Bytes>, target: bool, disk: bool)
    requires Fits(m)
    ensures var n := OpeningForWrite(m, path, createOnly, truncate, attr, stat, fetched, target, disk).mount; Fits(n) && Kept(m, n)
  {
    hide Fits, Kept, Live, Cached, OpeningRead, OpeningWrite, Named;
    NameKeeps(m, path);
    var k, ino := Named(m, path), Inodes.Ino(m.names, path);
    OpeningWriteKeeps(k, path, ino, createOnly, truncate, target, disk);
    KeptIsTransitive(m, k, OpeningWrite(k, path, ino, createOnly, truncate, target, disk).mount);
    OpeningReadKeeps(k, ino, attr, stat, fetched);
    var r := OpeningRead(k, ino, attr, stat, fetched);
    KeptIsTransitive(m, k, r.mount);
    if r.fh.Some? {
      var w := OpeningWrite(r.mount, path, ino, createOnly, truncate, target, disk);
      OpeningWriteKeeps(r.mount, path, ino, createOnly, truncate, target, disk);
      KeptIsTransitive(m, r.mount, w.mount);
      ReaderCloses(k, ino, attr, stat, fetched, path, createOnly, truncate, target, disk);
      KeptIsTransitive(m, w.mount, w.mount.(handles := w.mount.handles - {r.fh.value}, objects := w.mount.objects - {r.fh.value}));
    }
  }

  /** A reader with a handle of its own. */
  predicate OnItsOwn(m: Mount, fh: nat) {
    fh in m.handles && m.handles[fh] == fh && fh in m.objects && m.objects[fh].Read? &&
    forall k :: k in m.handles && m.handles[k] == fh ==> k == fh
  }

  lemma SharingLeaves(m: Mount, path: string, truncate: bool, disk: bool, fh: nat)
    requires Fits(m) && OnItsOwn(m, fh)
    ensures OnItsOwn(Sharing(m, path, truncate, disk).mount, fh)
  {
    hide Fits, Truncating;
    NextIsFree(m);
    HandleIsOld(m, fh);
    if path in m.writers {
      WriterIsOpen(m, path);
      var k := Aliased(m, WriterOf(m, path).value);
      AliasKeeps(m, WriterOf(m, path).value);
      TruncatingStays(k, path, 0, disk);
    }
  }

  lemma OpenedLeaves(m: Mount, path: string, ino: nat, f: Option<nat>, createOnly: bool, truncate: bool, fh: nat)
    requires Fits(m) && OnItsOwn(m, fh) && (f.Some? ==> f.value in m.files)
    ensures OnItsOwn(OpenedForWrite(m, path, ino, f, truncate, createOnly), fh)
  {
    hide Fits;
    NextIsFree(m);
    FreeAfter(m);
    HandleIsOld(m, fh);
  }

  /** Opening for write leaves a reader alone. */
  lemma WriteLeavesReader(m: Mount, path: string, ino: nat, createOnly: bool, truncate: bool, target: bool, disk: bool, fh: nat)
    requires Fits(m) && OnItsOwn(m, fh)
    ensures OnItsOwn(OpeningWrite(m, path, ino, createOnly, truncate, target, disk).mount, fh)
  {
    hide Fits, Live, Cached, Sharing, OpenedForWrite;
    SharingLeaves(m, path, truncate, disk, fh);
    var f := LocalFile(m, ino);
    OpenedLeaves(m, path, ino, f, createOnly, truncate, fh);
  }

  /** The temporary reader is closed again; nothing else shares its handle. */
  lemma ReaderCloses(m: Mount, ino: nat, attr: bool, stat: StatReply, fetched: Option<Bytes>, path: string, createOnly: bool,
                     truncate: bool, target: bool, disk: bool)
    requires Fits(m) && OpeningRead(m, ino, attr, stat, fetched).fh.Some? && Fits(OpeningRead(m, ino, attr, stat, fetched).mount)
    ensures var r := OpeningRead(m, ino, attr, stat, fetched);
            var w := OpeningWrite(r.mount, path, ino, createOnly, truncate, target, disk).mount;
            var n := w.(handles := w.handles - {r.fh.value}, objects := w.objects - {r.fh.value});
            Fits(w) ==> Fits(n) && Kept(w, n)
  {
    hide Fits, Kept, Live, OpeningRead, OpeningWrite, LocalFile;
    ReaderSees(m, ino, attr, stat, fetched);
    ReaderIsAlone(m, ino, attr, stat, fetched);
    var r := OpeningRead(m, ino, attr, stat, fetched);
    var w := OpeningWrite(r.mount, path, ino, createOnly, truncate, target, disk).mount;
    WriteLeavesReader(r.mount, path, ino, createOnly, truncate, target, disk, r.fh.value);
    if Fits(w) {
      assert IsHeir(w, r.fh.value, None);
      ReleaseKeeps(w, r.fh.value, None);
    }
  }

  lemma ReaderIsAlone(m: Mount, ino: nat, attr: bool, stat: StatReply, fetched: Option<Bytes>)
    requires Fits(m) && OpeningRead(m, ino, attr, stat, fetched).fh.Some?
    ensures var r := OpeningRead(m, ino, attr, stat, fetched);
            forall k :: k in r.mount.handles && r.mount.handles[k] == r.fh.value ==> k == r.fh.value
  {
    hide Fits, OpeningRead, LocalFile, Live;
    ReaderSees(m, ino, attr, stat, fetched);
    HandlesAreOld(m);
    var r := OpeningRead(m, ino, attr, stat, fetched);
    NextGrew(m, ino, attr, stat, fetched);
  }

  lemma HandlesAreOld(m: Mount)
    requires Fits(m)
    ensures forall k :: k in m.handles ==> m.handles[k] <= m.next
  {
    forall k | k in m.handles
      ensures m.handles[k] <= m.next
    {
      assert HandleFits(m, k);
      assert ObjectFits(m, m.handles[k]);
    }
  }

  lemma NextGrew(m: Mount, ino: nat, attr: bool, stat: StatReply, fetched: Option<Bytes>)
    ensures var r := OpeningRead(m, ino, attr, stat, fetched); r.fh.Some? ==> r.fh.value > m.next
  {
    hide Live, Cached, LocalFile;
  }

  // ------------------------------------------------------------ opening a file

  /** `open`: the name must stand for the inode and the backend, or an open writer,
      must show a file there. */
  function OpeningFile(m: Mount, ino: nat, write: bool, truncate: bool, attr: bool, stat: StatReply, fetched: Option<Bytes>,
                       target: bool, disk: bool): Opening {
    var path := PathOf(m.names, ino);
    if m.uncertain || path.None? || path.value == "" || !attr || Name(m, path.value) != Some(ino) then Opening(m, None)
    else if !write then OpeningRead(m, ino, attr, stat, fetched)
    else OpeningForWrite(m, path.value, false, truncate, attr, stat, fetched, target, disk)
  }

  lemma OpeningFileKeeps(m: Mount, ino: nat, write: bool, truncate: bool, attr: bool, stat: StatReply, fetched: Option<Bytes>,
                         target: bool, disk: bool)
    requires Fits(m)
    ensures var n := OpeningFile(m, ino, write, truncate, attr, stat, fetched, target, disk).mount; Fits(n) && Kept(m, n)
  {
    hide Fits, Kept, OpeningRead, OpeningForWrite;
    KeptIsReflexive(m);
    OpeningReadKeeps(m, ino, attr, stat, fetched);
    if PathOf(m.names, ino).Some? {
      OpeningForWriteKeeps(m, PathOf(m.names, ino).value, false, truncate, attr, stat, fetched, target, disk);
    }
  }

  /** When a reader is opened: the name stands for the inode and shows a file, and its local
      file is being written here or agrees with what is committed; or there is none and the
      committed content was downloaded. */
  lemma ReadOpensExactly(m: Mount, ino: nat, attr: bool, stat: StatReply, fetched: Option<Bytes>)
    requires Fits(m)
    ensures OpeningRead(m, ino, attr, stat, fetched).fh.Some? <==>
              attr && PathOf(m.names, ino).Some? && Name(m, PathOf(m.names, ino).value) == Some(ino) &&
              (if Cached(m, ino).Some?
               then var content := m.files[Cached(m, ino).value].content;
                    PathOf(m.names, ino).value in m.writers || (stat.Found? && content.Some? && (stat.committed ==> stat.current == content))
               else stat.Found? && stat.current.Some? && fetched == stat.current)
  {
    hide Fits, Live, Rechecked, Handed, Downloaded;
    LocalIsCached(m, ino);
  }

  /** What `open_for_write` needs past the download: a captured target unless the file has
      one, the disk when truncating, and old content unless truncating. */
  lemma WriteOpensExactly(m: Mount, path: string, ino: nat, createOnly: bool, truncate: bool, target: bool, disk: bool)
    requires Fits(m)
    ensures OpeningWrite(m, path, ino, createOnly, truncate, target, disk).fh.Some? <==>
              path != "" && Name(m, path) == Some(ino) &&
              (if path in m.writers then truncate ==> m.writers[path].len == 0 || disk
               else
                 var f := Cached(m, ino);
                 (truncate || f.Some?) && (target || (f.Some? && m.files[f.value].createOnly.Some?)) && (truncate ==> disk))
  {
    hide Fits, Live, OpenedForWrite, Doubted, Changed, Damaged, Resize;
    LocalIsCached(m, ino);
    if path in m.writers {
      WriterIsOpen(m, path);
    }
  }

  /** When a name can be opened for writing: always if it already is, disk permitting;
      from its live local file; truncating, from nothing; or else from the committed
      content, downloaded. A file of its own needs a captured upload target. */
  lemma NameOpensExactly(m: Mount, path: string, createOnly: bool, truncate: bool, attr: bool, stat: StatReply, fetched: Option<Bytes>,
                         target: bool, disk: bool)
    requires Fits(m) && path != "" && path != Inodes.ROOT_PATH
    ensures var f := Cached(m, Inodes.Ino(m.names, path));
            OpeningForWrite(m, path, createOnly, truncate, attr, stat, fetched, target, disk).fh.Some? <==>
              if path in m.writers then truncate ==> m.writers[path].len == 0 || disk
              else if truncate then disk && (target || (f.Some? && m.files[f.value].createOnly.Some?))
              else if f.Some? then target || m.files[f.value].createOnly.Some?
              else target && attr && stat.Found? && stat.current.Some? && fetched == stat.current
  {
    hide Fits, Kept, Live, OpeningRead, OpeningWrite, LocalFile;
    NameKeeps(m, path);
    var k, ino := Named(m, path), Inodes.Ino(m.names, path);
    NameIsThere(m, path);
    SameCached(m, k, ino);
    LocalIsCached(k, ino);
    if path in m.writers { WriterIsLocal(k, path, ino); }
    WriteOpensExactly(k, path, ino, createOnly, truncate, target, disk);
    if !truncate && Cached(k, ino).None? {
      DownloadOpensExactly(k, path, ino, createOnly, attr, stat, fetched, target, disk);
    }
  }

  lemma DownloadOpensExactly(k: Mount, path: string, ino: nat, createOnly: bool, attr: bool, stat: StatReply, fetched: Option<Bytes>,
                             target: bool, disk: bool)
    requires Fits(k) && Cached(k, ino).None? && path != "" && Name(k, path) == Some(ino) && PathOf(k.names, ino) == Some(path)
    requires path !in k.writers
    ensures var r := OpeningRead(k, ino, attr, stat, fetched);
            r.fh.Some? && OpeningWrite(r.mount, path, ino, createOnly, false, target, disk).fh.Some? <==>
              target && attr && stat.Found? && stat.current.Some? && fetched == stat.current
  {
    hide Fits, Kept, Live, Downloaded, OpeningWrite, Cached;
    ReadOpensExactly(k, ino, attr, stat, fetched);
    LocalIsCached(k, ino);
    OpeningReadKeeps(k, ino, attr, stat, fetched);
    var r := OpeningRead(k, ino, attr, stat, fetched);
    if r.fh.Some? {
      ReaderSees(k, ino, attr, stat, fetched);
      LocalIsCached(r.mount, ino);
      WriteOpensExactly(r.mount, path, ino, createOnly, false, target, disk);
      DownloadHasNoTarget(k, path, ino, fetched.value);
    }
  }

  lemma DownloadHasNoTarget(m: Mount, path: string, ino: nat, bytes: Bytes)
    requires Fits(m)
    ensures var n := Downloaded(m, path, ino, bytes);
            Cached(n, ino) == Some(m.next + 1) && m.next + 1 in n.files && n.files[m.next + 1].createOnly.None?
  {
    hide Fits, LocalFile;
    ReaderOfDownload(m, path, ino, bytes);
    var n := Downloaded(m, path, ino, bytes);
    assert n.objects[m.next + 2].file == m.next + 1 && n.slots[ino] == m.next + 1;
    assert Opened(n, m.next + 1);
  }

  lemma NameIsThere(m: Mount, path: string)
    requires Fits(m) && path != Inodes.ROOT_PATH
    ensures var k, ino := Named(m, path), Inodes.Ino(m.names, path);
            Name(k, path) == Some(ino) && PathOf(k.names, ino) == Some(path) && k == m.(names := k.names)
  {
    hide Inodes.Fits;
    Inodes.AssignFinds(m.names, path);
    NameIsNotRoot(m, path);
  }

  lemma NameIsNotRoot(m: Mount, path: string)
    requires Fits(m) && path != Inodes.ROOT_PATH
    ensures Inodes.Ino(m.names, path) != Inodes.ROOT_INO
  {
    if path in m.names.byPath {
      assert Inodes.PathFits(m.names, path);
      assert Inodes.RecordFits(m.names, m.names.byPath[path]);
    }
  }

  lemma SameCached(m: Mount, k: Mount, ino: nat)
    requires k == m.(names := k.names)
    ensures Cached(k, ino) == Cached(m, ino)
  {
    if ino in m.slots {
      assert Opened(k, m.slots[ino]) <==> Opened(m, m.slots[ino]);
      assert Awaited(k, m.slots[ino]) <==> Awaited(m, m.slots[ino]);
    }
  }

  /** A name open for writing has a live local file. */
  lemma WriterIsLocal(m: Mount, path: string, ino: nat)
    requires Fits(m) && path in m.writers && Name(m, path) == Some(ino)
    ensures Cached(m, ino).Some?
  {
    hide Inodes.Fits;
    WriterIsOpen(m, path);
    var o := WriterOf(m, path).value;
    assert ObjectFits(m, o);
    assert Opened(m, m.objects[o].file);
  }

  /** An open for writing that fails to truncate leaves the file marked and unreported: its
      bytes may no longer be what was confirmed. */
  lemma FailedTruncationIsDoubted(m: Mount, path: string, ino: nat, createOnly: bool)
    requires Fits(m) && path != "" && Name(m, path) == Some(ino) && path !in m.writers && Cached(m, ino).Some?
    ensures var r, f := OpeningWrite(m, path, ino, createOnly, true, true, false), Cached(m, ino).value;
            r.fh.None? && f in r.mount.files && r.mount.files[f].unconfirmed && f !in r.mount.confirmed &&
            r.mount == m.(files := r.mount.files, confirmed := m.confirmed - {f}) && r.mount.files - {f} == m.files - {f} &&
            r.mount.files[f].bytes == m.files[f].bytes
  {
    hide Fits, Live;
    LocalIsCached(m, ino);
  }

  /** A new file handle on a writer of this name and inode; no other inode's bytes changed. */
  ghost predicate GivesWriter(m: Mount, n: Mount, fh: nat, path: string, ino: nat) {
    fh !in m.handles && fh in n.handles && NamedWriter(n, n.handles[fh]) && n.objects[n.handles[fh]].path == path &&
    FileOf(n, n.handles[fh]).ino == ino && path in n.writers && BytesKept(m, n, ino)
  }

  /** ... with a handle of its own and this content, to be sent if it was truncated. */
  predicate OwnWriter(m: Mount, n: Mount, fh: nat, bytes: Bytes, truncate: bool) {
    fh in n.handles && n.handles[fh] !in m.objects && NamedWriter(n, n.handles[fh]) &&
    var h := n.objects[n.handles[fh]];
    FileOf(n, n.handles[fh]).bytes == (if truncate then [] else bytes) && h.dirty == truncate && (truncate ==> !h.committed)
  }

  /** The writer one gets: alone on its name or shared with the one open there, on the
      inode's file, emptied by a truncating open and otherwise with its content as it was. */
  lemma WriterGets(m: Mount, path: string, ino: nat, createOnly: bool, truncate: bool, target: bool, disk: bool)
    requires Fits(m) && OpeningWrite(m, path, ino, createOnly, truncate, target, disk).fh.Some?
    ensures var w, f := OpeningWrite(m, path, ino, createOnly, truncate, target, disk), LocalFile(m, ino);
            GivesWriter(m, w.mount, w.fh.value, path, ino) &&
            if path in m.writers then Some(w.mount.handles[w.fh.value]) == WriterOf(m, path)
            else OwnWriter(m, w.mount, w.fh.value, if f.Some? then m.files[f.value].bytes else [], truncate)
  {
    hide Fits, Live, Cached, Sharing, OpenedForWrite, GivesWriter, OwnWriter;
    LocalIsCached(m, ino);
    if path in m.writers {
      SharedWriterGets(m, path, truncate, disk);
    } else {
      OwnWriterGets(m, path, ino, LocalFile(m, ino), createOnly, truncate);
    }
  }

  lemma SharedWriterGets(m: Mount, path: string, truncate: bool, disk: bool)
    requires Fits(m) && path in m.writers && Sharing(m, path, truncate, disk).fh.Some? && Name(m, path).Some?
    ensures var w := Sharing(m, path, truncate, disk);
            GivesWriter(m, w.mount, w.fh.value, path, Name(m, path).value) && Some(w.mount.handles[w.fh.value]) == WriterOf(m, path)
  {
    hide Fits, Live, Truncating;
    NextIsFree(m);
    WriterIsOpen(m, path);
    var k := Aliased(m, WriterOf(m, path).value);
    AliasKeeps(m, WriterOf(m, path).value);
    TruncatingStays(k, path, 0, disk);
    TruncatingKeeps(k, path, 0, disk);
    WriterIsOpen(Truncating(k, path, 0, disk).mount, path);
  }

  lemma OwnWriterGets(m: Mount, path: string, ino: nat, f: Option<nat>, createOnly: bool, truncate: bool)
    requires Fits(m) && path != "" && (f.Some? ==> f.value in m.files && m.files[f.value].ino == ino) && (f.None? ==> truncate)
    ensures var n := OpenedForWrite(m, path, ino, f, truncate, createOnly);
            GivesWriter(m, n, n.next, path, ino) && OwnWriter(m, n, n.next, if f.Some? then m.files[f.value].bytes else [], truncate)
  {
    hide Fits;
    NextIsFree(m);
    FreeAfter(m);
  }

  // --------------------------------------------------- flushing and closing

  /** `flush`: send the content of a named, changed write handle. */
  function Flushing(m: Mount, fh: nat, reply: UploadReply, disk: bool): Called {
    if m.uncertain || fh !in m.handles || m.handles[fh] !in m.objects then Called(m, false)
    else
      var o := m.handles[fh];
      if m.objects[o].Read? then Called(m, true)
      else if m.objects[o].path == "" then Called(m, disk)
      else if !m.objects[o].dirty && m.objects[o].uploaded then Called(m, true)
      else if !disk || m.objects[o].file !in m.files then Called(m, false)
      else Called(Uploaded(m, o, reply), reply.Accepted?)
  }

  lemma FlushingKeeps(m: Mount, fh: nat, reply: UploadReply, disk: bool)
    requires Fits(m)
    ensures var n := Flushing(m, fh, reply, disk).mount; Fits(n) && Kept(m, n)
  {
    hide Fits, Kept, Uploaded;
    KeptIsReflexive(m);
    if fh in m.handles && NamedWriter(m, m.handles[fh]) {
      UploadKeeps(m, m.handles[fh], reply);
    }
  }

  lemma FlushingStays(m: Mount, fh: nat, reply: UploadReply, disk: bool, ino: nat)
    ensures var n := Flushing(m, fh, reply, disk).mount;
            BytesKept(m, n, ino) && n.names == m.names && n.handles == m.handles && n.writers == m.writers && n.objects.Keys == m.objects.Keys &&
            (forall a :: a in m.objects ==> SameHandle(m.objects[a], n.objects[a]))
  {
  }

  /** Closing a file handle nothing else shares. */
  function Closing(m: Mount, fh: nat): Mount {
    if fh in m.handles && m.handles[fh] in m.objects then Released(m, fh, None) else m
  }

  // ------------------------------------------------------ truncating by inode

  /** Truncate, flush and close through a writer just made. */
  function TruncatingRest(k: Mount, fh: nat, path: string, size: nat, disk: bool, reply: UploadReply): Called {
    var t := Truncating(k, path, size, disk);
    var u := if t.ok then Flushing(t.mount, fh, reply, disk) else t;
    Called(Closing(u.mount, fh), u.ok)
  }

  /** `truncate_inner`: through the writer of the inode's last known name, or, with no
      writer open there, by opening that name, truncating, flushing and closing.
      `attr`: the size the backend shows at the name; `shown`: as seen by the open. */
  function TruncatingInode(m: Mount, ino: nat, size: nat, attr: Option<nat>, shown: bool, stat: StatReply, fetched: Option<Bytes>,
                           target: bool, disk: bool, reply: UploadReply): Called {
    var name := PathOf(m.names, ino);
    if m.uncertain || name.None? || name.value == "" then Called(m, false)
    else if name.value in m.writers then Truncating(m, name.value, size, disk)
    else if attr.None? then Called(m, false)
    else if attr.value == size then Called(Named(m, name.value), true)
    else
      var w := OpeningForWrite(m, name.value, false, false, shown, stat, fetched, target, disk);
      if w.fh.None? then Called(w.mount, false) else TruncatingRest(w.mount, w.fh.value, name.value, size, disk, reply)
  }

  /** What the reopened file holds: its local content, or what is downloaded. */
  function Base(m: Mount, ino: nat, fetched: Option<Bytes>): Option<Bytes> {
    var f := LocalFile(m, ino);
    if f.Some? then Some(m.files[f.value].bytes) else fetched
  }

  /** A writer of its own, just made: alone on its handle, clean, with the base content. */
  ghost predicate JustMade(m: Mount, fh: nat, path: string, ino: nat, base: Option<Bytes>) {
    fh in m.handles && NamedWriter(m, m.handles[fh]) && (forall k :: k in m.handles && m.handles[k] == m.handles[fh] ==> k == fh) &&
    path in m.writers && WriterOf(m, path) == Some(m.handles[fh]) &&
    var o := m.handles[fh];
    m.objects[o].path == path && FileOf(m, o).ino == ino && m.objects[o].len == |FileOf(m, o).bytes| && Some(FileOf(m, o).bytes) == base
  }

  lemma NewWriterIsMade(m: Mount, path: string, ino: nat, target: bool, disk: bool)
    requires Fits(m) && path !in m.writers && OpeningWrite(m, path, ino, false, false, target, disk).fh.Some?
    ensures var w := OpeningWrite(m, path, ino, false, false, target, disk);
            JustMade(w.mount, w.fh.value, path, ino, Base(m, ino, None)) && BytesKept(m, w.mount, ino) && w.fh.value == m.next + 1 &&
            w.mount.names == m.names && w.mount.handles == m.handles[m.next + 1 := m.next + 1]
  {
    hide Fits, Live, Cached, JustMade, BytesKept, OpenedForWrite;
    LocalIsCached(m, ino);
    OpenedIsMade(m, path, ino, LocalFile(m, ino).value);
  }

  lemma OpenedIsMade(m: Mount, path: string, ino: nat, f: nat)
    requires Fits(m) && path != "" && f in m.files && m.files[f].ino == ino
    ensures var n := OpenedForWrite(m, path, ino, Some(f), false, false);
            JustMade(n, m.next + 1, path, ino, Some(m.files[f].bytes)) && BytesKept(m, n, ino) && n.next == m.next + 1 &&
            n.names == m.names && n.handles == m.handles[m.next + 1 := m.next + 1]
  {
    hide Fits;
    HandlesAreOld(m);
  }

  lemma NameChangesNoFile(m: Mount, path: string, ino: nat)
    ensures LocalFile(Named(m, path), ino) == LocalFile(m, ino) && Named(m, path).files == m.files && Named(m, path).writers == m.writers
    ensures forall f :: Live(Named(m, path), f) <==> Live(m, f)
  {
    var n := Named(m, path);
    forall f
      ensures Live(n, f) <==> Live(m, f)
    {
      assert Opened(n, f) <==> Opened(m, f);
      assert Awaited(n, f) <==> Awaited(m, f);
    }
  }

  lemma RecheckKeepsBytes(m: Mount, path: string, f: nat, stat: StatReply, ino: nat)
    requires f in m.files
    ensures BytesKept(m, Rechecking(m, path, f, stat).mount, ino)
  {
  }

  lemma ReadKeepsBytes(m: Mount, ino: nat, attr: bool, stat: StatReply, fetched: Option<Bytes>)
    requires Fits(m)
    ensures BytesKept(m, OpeningRead(m, ino, attr, stat, fetched).mount, ino)
  {
    hide Fits, Live, Cached, Rechecking;
    LocalIsCached(m, ino);
    NextIsFree(m);
    var path, f := PathOf(m.names, ino), LocalFile(m, ino);
    if path.Some? && f.Some? { RecheckKeepsBytes(m, path.value, f.value, stat, ino); }
  }

  /** The write handle a truncation by inode works through. */
  lemma ReopenedForWrite(m: Mount, path: string, shown: bool, stat: StatReply, fetched: Option<Bytes>, target: bool, disk: bool)
    requires Fits(m) && path !in m.writers && OpeningForWrite(m, path, false, false, shown, stat, fetched, target, disk).fh.Some?
    ensures var w, ino := OpeningForWrite(m, path, false, false, shown, stat, fetched, target, disk), Inodes.Ino(m.names, path);
            JustMade(w.mount, w.fh.value, path, ino, Base(m, ino, fetched)) && BytesKept(m, w.mount, ino)
  {
    hide Fits, Kept, Live, Cached, OpeningRead, OpeningWrite, Named, LocalFile, JustMade;
    NameKeeps(m, path);
    var k, ino := Named(m, path), Inodes.Ino(m.names, path);
    NameChangesNoFile(m, path, ino);
    if LocalFile(k, ino).Some? {
      NewWriterIsMade(k, path, ino, target, disk);
      SameBase(m, k, ino, fetched);
    } else {
      OpeningReadKeeps(k, ino, shown, stat, fetched);
      ReadKeepsBytes(k, ino, shown, stat, fetched);
      ReaderSees(k, ino, shown, stat, fetched);
      var r := OpeningRead(k, ino, shown, stat, fetched);
      NewWriterIsMade(r.mount, path, ino, target, disk);
      ReaderIsAlone(k, ino, shown, stat, fetched);
      WithoutReader(r.mount, OpeningWrite(r.mount, path, ino, false, false, target, disk), r.fh.value, path, ino, Base(r.mount, ino, None));
    }
  }

  lemma SameBase(m: Mount, k: Mount, ino: nat, fetched: Option<Bytes>)
    requires LocalFile(k, ino) == LocalFile(m, ino) && k.files == m.files && LocalFile(k, ino).Some?
    ensures Base(m, ino, fetched) == Base(k, ino, None)
  {
  }

  lemma WithoutReader(m: Mount, w: Opening, reader: nat, path: string, ino: nat, base: Option<Bytes>)
    requires reader in m.handles && m.handles[reader] == reader && w.fh == Some(m.next + 1) && reader <= m.next
    requires w.mount.handles == m.handles[m.next + 1 := m.next + 1] && JustMade(w.mount, m.next + 1, path, ino, base)
    ensures JustMade(w.mount.(handles := w.mount.handles - {reader}, objects := w.mount.objects - {reader}), m.next + 1, path, ino, base)
  {
  }

  lemma TruncatingInodeKeeps(m: Mount, ino: nat, size: nat, attr: Option<nat>, shown: bool, stat: StatReply, fetched: Option<Bytes>,
                             target: bool, disk: bool, reply: UploadReply)
    requires Fits(m)
    ensures var n := TruncatingInode(m, ino, size, attr, shown, stat, fetched, target, disk, reply).mount; Fits(n) && Kept(m, n)
  {
    hide Fits, Kept, Live, Truncating, OpeningForWrite, TruncatingRest, Named, JustMade;
    KeptIsReflexive(m);
    var name := PathOf(m.names, ino);
    if name.Some? {
      var path := name.value;
      TruncatingKeeps(m, path, size, disk);
      NameKeeps(m, path);
      if path !in m.writers {
        var w := OpeningForWrite(m, path, false, false, shown, stat, fetched, target, disk);
        OpeningForWriteKeeps(m, path, false, false, shown, stat, fetched, target, disk);
        if w.fh.Some? {
          ReopenedForWrite(m, path, shown, stat, fetched, target, disk);
          RestKeeps(m, w.mount, w.fh.value, path, size, disk, reply, Inodes.Ino(m.names, path), Base(m, Inodes.Ino(m.names, path), fetched));
        }
      }
    }
  }

  lemma RestKeeps(m: Mount, k: Mount, fh: nat, path: string, size: nat, disk: bool, reply: UploadReply, ino: nat, base: Option<Bytes>)
    requires Fits(m) && Fits(k) && Kept(m, k) && JustMade(k, fh, path, ino, base)
    ensures var n := TruncatingRest(k, fh, path, size, disk, reply).mount; Fits(n) && Kept(m, n)
  {
    hide Fits, Kept, Live, Truncating, Flushing;
    TruncatingKeeps(k, path, size, disk);
    TruncatingStays(k, path, size, disk);
    var t := Truncating(k, path, size, disk);
    KeptIsTransitive(m, k, t.mount);
    FlushingKeeps(t.mount, fh, reply, disk);
    FlushingStays(t.mount, fh, reply, disk, ino);
    KeptIsReflexive(t.mount);
    var u := if t.ok then Flushing(t.mount, fh, reply, disk) else t;
    KeptIsTransitive(m, t.mount, u.mount);
    assert IsHeir(u.mount, fh, None);
    ReleaseKeeps(u.mount, fh, None);
    KeptIsTransitive(m, u.mount, Closing(u.mount, fh));
  }

  lemma RestStays(k: Mount, fh: nat, path: string, size: nat, disk: bool, reply: UploadReply, ino: nat, base: Option<Bytes>)
    requires Fits(k) && JustMade(k, fh, path, ino, base)
    ensures var r := TruncatingRest(k, fh, path, size, disk, reply);
            BytesKept(k, r.mount, ino) &&
            (r.ok ==> base.Some? && HasBytes(r.mount, ino, Resize(base.value, size)))
  {
    hide Fits, Live, Truncating, Flushing;
    WriterIsOpen(k, path);
    TruncatingStays(k, path, size, disk);
    var t := Truncating(k, path, size, disk);
    if t.ok { TruncatingEffect(k, path, size, disk); }
    assert k.objects[k.handles[fh]].file in k.files;
    assert k.objects[k.handles[fh]].file in t.mount.files;
    FlushedFile(t.mount, fh, reply, disk, k.objects[k.handles[fh]].file);
    FlushingStays(t.mount, fh, reply, disk, ino);
  }

  lemma FlushedFile(m: Mount, fh: nat, reply: UploadReply, disk: bool, f: nat)
    requires f in m.files
    ensures var n := Flushing(m, fh, reply, disk).mount;
            f in n.files && n.files[f].ino == m.files[f].ino && n.files[f].bytes == m.files[f].bytes
  {
  }

  /** Some local file of the inode has these bytes. */
  ghost predicate HasBytes(m: Mount, ino: nat, bytes: Bytes) {
    exists f :: f in m.files && m.files[f].ino == ino && m.files[f].bytes == bytes
  }

  /** Which file truncating by inode changes, whatever happens: that of the inode its
      last known name stands for now, or would be given. On success through a reopened
      file, that inode's content is the old content cut or extended to the size. */
  lemma TruncationReaches(m: Mount, ino: nat, size: nat, attr: Option<nat>, shown: bool, stat: StatReply, fetched: Option<Bytes>,
                          target: bool, disk: bool, reply: UploadReply)
    requires Fits(m) && PathOf(m.names, ino).Some?
    ensures var r := TruncatingInode(m, ino, size, attr, shown, stat, fetched, target, disk, reply);
            var path := PathOf(m.names, ino).value;
            var reached := Inodes.Ino(m.names, path);
            BytesKept(m, r.mount, reached) &&
            (r.ok && path !in m.writers && attr != Some(size) ==>
               Base(m, reached, fetched).Some? && HasBytes(r.mount, reached, Resize(Base(m, reached, fetched).value, size)))
  {
    hide Fits, Live, Truncating, OpeningForWrite, TruncatingRest, Base, Resize, BytesKept, HasBytes;
    var path := PathOf(m.names, ino).value;
    SameBytes(m, Named(m, path), Inodes.Ino(m.names, path));
    SameBytes(m, m, Inodes.Ino(m.names, path));
    if path in m.writers {
      WriterIsOpen(m, path);
      TruncatingStays(m, path, size, disk);
      RootHasNoWriter(m, path);
    } else {
      FailedOpenKeepsBytes(m, path, shown, stat, fetched, target, disk);
      ReopenedReaches(m, path, size, shown, stat, fetched, target, disk, reply);
    }
  }

  lemma SameBytes(m: Mount, n: Mount, ino: nat)
    requires n.files == m.files
    ensures BytesKept(m, n, ino)
  {
  }

  lemma ReopenedReaches(m: Mount, path: string, size: nat, shown: bool, stat: StatReply, fetched: Option<Bytes>, target: bool,
                        disk: bool, reply: UploadReply)
    requires Fits(m) && path !in m.writers
    ensures var w, reached := OpeningForWrite(m, path, false, false, shown, stat, fetched, target, disk), Inodes.Ino(m.names, path);
            w.fh.Some? ==>
              var r := TruncatingRest(w.mount, w.fh.value, path, size, disk, reply);
              BytesKept(m, r.mount, reached) &&
              (r.ok ==> Base(m, reached, fetched).Some? && HasBytes(r.mount, reached, Resize(Base(m, reached, fetched).value, size)))
  {
    hide Fits, Kept, Live, OpeningForWrite, TruncatingRest, JustMade, Base, Resize, BytesKept;
    var w, reached := OpeningForWrite(m, path, false, false, shown, stat, fetched, target, disk), Inodes.Ino(m.names, path);
    OpeningForWriteKeeps(m, path, false, false, shown, stat, fetched, target, disk);
    if w.fh.Some? {
      ReopenedForWrite(m, path, shown, stat, fetched, target, disk);
      RestStays(w.mount, w.fh.value, path, size, disk, reply, reached, Base(m, reached, fetched));
      BytesChain(m, w.mount, TruncatingRest(w.mount, w.fh.value, path, size, disk, reply).mount, reached);
    }
  }

  lemma BytesChain(m: Mount, n: Mount, q: Mount, ino: nat)
    requires BytesKept(m, n, ino) && BytesKept(n, q, ino)
    ensures BytesKept(m, q, ino)
  {
  }

  lemma RootHasNoWriter(m: Mount, path: string)
    requires Fits(m) && path in m.writers
    ensures Name(m, path) == Some(Inodes.Ino(m.names, path))
  {
    WriterIsOpen(m, path);
    var ino := m.names.byPath[path];
    assert Inodes.PathFits(m.names, path) && Inodes.RecordFits(m.names, ino);
  }

  lemma WriteKeepsBytes(m: Mount, path: string, ino: nat, target: bool, disk: bool)
    requires Fits(m) && path !in m.writers
    ensures BytesKept(m, OpeningWrite(m, path, ino, false, false, target, disk).mount, ino)
  {
    hide Fits, Live, Cached;
    LocalIsCached(m, ino);
    NextIsFree(m);
  }

  lemma FailedOpenKeepsBytes(m: Mount, path: string, shown: bool, stat: StatReply, fetched: Option<Bytes>, target: bool, disk: bool)
    requires Fits(m) && path !in m.writers
    ensures BytesKept(m, OpeningForWrite(m, path, false, false, shown, stat, fetched, target, disk).mount, Inodes.Ino(m.names, path))
  {
    hide Fits, Kept, Live, Cached, OpeningRead, OpeningWrite, Named, LocalFile;
    NameKeeps(m, path);
    var k, ino := Named(m, path), Inodes.Ino(m.names, path);
    NameChangesNoFile(m, path, ino);
    WriteKeepsBytes(k, path, ino, target, disk);
    OpeningReadKeeps(k, ino, shown, stat, fetched);
    ReadKeepsBytes(k, ino, shown, stat, fetched);
    var r := OpeningRead(k, ino, shown, stat, fetched);
    if r.fh.Some? {
      ReaderSees(k, ino, shown, stat, fetched);
      WriteKeepsBytes(r.mount, path, ino, target, disk);
      BytesChain(k, r.mount, OpeningWrite(r.mount, path, ino, false, false, target, disk).mount, ino);
    }
  }

  /** So truncating by inode works on that inode's own file exactly when its last known
      name still stands for it, which the caller can look up before the call: then no
      other file changes, and otherwise none of its own does, whatever the answers. */
  lemma TruncateOwnFile(m: Mount, ino: nat, size: nat, attr: Option<nat>, shown: bool, stat: StatReply, fetched: Option<Bytes>,
                        target: bool, disk: bool, reply: UploadReply)
    requires Fits(m) && PathOf(m.names, ino).Some?
    ensures var n := TruncatingInode(m, ino, size, attr, shown, stat, fetched, target, disk, reply).mount;
            if ino == Inodes.ROOT_INO || Name(m, PathOf(m.names, ino).value) == Some(ino)
            then Inodes.Ino(m.names, PathOf(m.names, ino).value) == ino && BytesKept(m, n, ino)
            else Inodes.Ino(m.names, PathOf(m.names, ino).value) != ino &&
                 forall f :: f in m.files && m.files[f].ino == ino ==> f in n.files && n.files[f].bytes == m.files[f].bytes
  {
    hide Fits, TruncatingInode;
    NameStandsFor(m, ino);
    TruncationReaches(m, ino, size, attr, shown, stat, fetched, target, disk, reply);
  }

  lemma NameStandsFor(m: Mount, ino: nat)
    requires Fits(m) && PathOf(m.names, ino).Some?
    ensures Inodes.Ino(m.names, PathOf(m.names, ino).value) == ino <==>
              ino == Inodes.ROOT_INO || Name(m, PathOf(m.names, ino).value) == Some(ino)
  {
    hide ObjectFits, FileFits;
    var path := PathOf(m.names, ino).value;
    assert ino in m.names.byIno ==> Inodes.RecordFits(m.names, ino);
    if path != Inodes.ROOT_PATH { Inodes.FreshFits(m.names, path); }
  }
}
