/** The state of a FUSE mount on the native backend (src/tapefs.rs): names, shared
    local files, shared handles and the write-back flags. SHA-256 is taken as
    injective, so a digest is the bytes it was taken from. */
module Mounts {
  import opened Outcomes
  import opened ByteStrings
  import Inodes

  /** One local file shared by all handles of an inode. */
  datatype CachedFile = CachedFile(
    ino: nat,
    bytes: Bytes,
    content: Option<Bytes>,   // the content identity recorded at the last download or upload
    unconfirmed: bool,
    createOnly: Option<bool>) // the captured upload target, if any

  datatype Handle =
    | Read(file: nat)
    | Write(file: nat, path: string, len: nat, dirty: bool, uploaded: bool, committed: bool)

  datatype Writer = Writer(fh: nat, len: nat)

  /** The backend reported `bytes` committed under `path`; `byRename`: the report came
      while a rename looked after pending uploads, which leaves the file's mark alone. */
  datatype Report = Report(path: string, bytes: Bytes, byRename: bool)

  /** An upload that was sent: by which handle, to which name, with what content. */
  datatype Upload = Upload(handle: nat, path: string, bytes: Bytes)

  datatype Mount = Mount(
    names: Inodes.Tables,
    files: map<nat, CachedFile>,
    slots: map<nat, nat>,       // inode to local file; the reference is weak
    objects: map<nat, Handle>,  // open handles; several file handles may share one
    handles: map<nat, nat>,
    pending: map<nat, nat>,
    writers: map<string, Writer>,
    next: nat,
    uncertain: bool,
    confirmed: map<nat, Report>, // by local file: the report on its bytes since they last changed
    uploads: seq<Upload>)

  const EMPTY := Mount(Inodes.NO_INODES, map[], map[], map[], map[], map[], map[], 1, false, map[], [])

  /** A local file lives while a handle or the pending table refers to it. */
  predicate Opened(m: Mount, f: nat) {
    exists o :: o in m.objects && m.objects[o].file == f
  }

  predicate Awaited(m: Mount, f: nat) {
    exists i :: i in m.pending && m.pending[i] == f
  }

  predicate Live(m: Mount, f: nat) {
    Opened(m, f) || Awaited(m, f)
  }

  predicate Shared(m: Mount, o: nat) {
    exists fh :: fh in m.handles && m.handles[fh] == o
  }

  /** Upgrading the weak reference of an inode. */
  function Cached(m: Mount, ino: nat): Option<nat> {
    if ino in m.slots && Live(m, m.slots[ino]) then Some(m.slots[ino]) else None
  }

  function Name(m: Mount, path: string): Option<nat> {
    if path in m.names.byPath then Some(m.names.byPath[path]) else None
  }

  /** The name an inode was last known by; the root is always "/". */
  function PathOf(names: Inodes.Tables, ino: nat): Option<string> {
    if ino == Inodes.ROOT_INO then Some(Inodes.ROOT_PATH) else if ino in names.byIno then Some(names.byIno[ino].path) else None
  }

  /** A report about this very file: its current bytes, under its last known name. */
  predicate IsAbout(m: Mount, f: nat, r: Report) {
    f in m.files && r.bytes == m.files[f].bytes && PathOf(m.names, m.files[f].ino) == Some(r.path)
  }

  /** A file's mark and the report on it: the mark is off exactly when the backend has
      reported the current bytes committed, renames aside. */
  predicate MarkFits(c: CachedFile, report: Option<Report>) {
    && (report.Some? ==> report.value.bytes == c.bytes)
    && (!c.unconfirmed <==> report.Some? && !report.value.byRename)
  }

  function ReportOn(m: Mount, f: nat): Option<Report> {
    if f in m.confirmed then Some(m.confirmed[f]) else None
  }

  // ---------------------------------------------------------- the invariant

  predicate HandleFits(m: Mount, fh: nat) {
    fh in m.handles && fh <= m.next && m.handles[fh] in m.objects
  }

  /** The named write handle of a path is the one in the writer table, and the
      path names its inode. */
  predicate NamedFits(m: Mount, o: nat, path: string, ino: nat) {
    path in m.writers && m.writers[path].fh in m.handles && m.handles[m.writers[path].fh] == o && Name(m, path) == Some(ino)
  }

  /** A displaced handle's inode has no name any more. */
  predicate Nameless(m: Mount, ino: nat) {
    ino <= m.names.next && forall p :: p in m.names.byPath ==> m.names.byPath[p] != ino
  }

  predicate InSlot(m: Mount, f: nat) {
    f in m.files && m.files[f].ino in m.slots && m.slots[m.files[f].ino] == f
  }

  predicate ObjectFits(m: Mount, o: nat) {
    o in m.objects && o <= m.next && Shared(m, o) && InSlot(m, m.objects[o].file) &&
    (m.objects[o].Write? ==>
       var ino := m.files[m.objects[o].file].ino;
       if m.objects[o].path != "" then NamedFits(m, o, m.objects[o].path, ino) else Nameless(m, ino))
  }

  /** Each writer entry points at a live write handle of that path and length. */
  predicate WriterFits(m: Mount, p: string) {
    p in m.writers && p != "" && m.writers[p].fh in m.handles && m.handles[m.writers[p].fh] in m.objects &&
    var h := m.objects[m.handles[m.writers[p].fh]];
    h.Write? && h.path == p && h.len == m.writers[p].len
  }

  predicate SlotFits(m: Mount, i: nat) {
    i in m.slots && m.slots[i] in m.files && m.files[m.slots[i]].ino == i
  }

  predicate PendingFits(m: Mount, i: nat) {
    i in m.pending && InSlot(m, m.pending[i]) && m.files[m.pending[i]].ino == i
  }

  /** A recorded content identity is that of the current bytes, and the mark fits. */
  predicate FileFits(m: Mount, f: nat) {
    f in m.files && f <= m.next && (m.files[f].content.Some? ==> m.files[f].content.value == m.files[f].bytes) &&
    MarkFits(m.files[f], ReportOn(m, f))
  }

  /** No two write handles share a local file. */
  predicate Alone(m: Mount, a: nat, b: nat) {
    a in m.objects && b in m.objects && m.objects[a].Write? && m.objects[b].Write? && m.objects[a].file == m.objects[b].file ==> a == b
  }

  ghost predicate Fits(m: Mount) {
    && Inodes.Fits(m.names)
    && (forall fh :: fh in m.handles ==> HandleFits(m, fh))
    && (forall o :: o in m.objects ==> ObjectFits(m, o))
    && (forall p :: p in m.writers ==> WriterFits(m, p))
    && (forall i :: i in m.slots ==> SlotFits(m, i))
    && (forall i :: i in m.pending ==> PendingFits(m, i))
    && (forall f :: f in m.files ==> FileFits(m, f)) && m.confirmed.Keys <= m.files.Keys
    && (forall a, b :: a in m.objects && b in m.objects ==> Alone(m, a, b))
  }

  /** The cleanup rule: a local file no longer referred to is removed unless it is
      marked unconfirmed, so only bytes the backend reported committed for this file,
      after their last change, are ever removed. */
  lemma CleanupLosesNothing(m: Mount, f: nat)
    requires Fits(m) && f in m.files && !Live(m, f) && !m.files[f].unconfirmed
    ensures f in m.confirmed && m.confirmed[f].bytes == m.files[f].bytes
  {
    assert FileFits(m, f);
  }

  // ------------------------------------------------- what every call keeps

  /** fsync would answer Ok on this handle without asking the backend. */
  predicate Settled(m: Mount, o: nat) {
    o in m.objects && m.objects[o].Write? && m.objects[o].path != "" && m.objects[o].committed && !m.objects[o].dirty
  }

  /** ... and would be right. */
  predicate Honest(m: Mount, o: nat) {
    Settled(m, o) ==> m.objects[o].file in m.confirmed
  }

  ghost predicate ObjectKept(m: Mount, n: Mount, o: nat) {
    && (o in m.objects && o in n.objects ==>
          n.objects[o].file == m.objects[o].file && (n.objects[o].Write? <==> m.objects[o].Write?) &&
          (m.objects[o].Write? && m.objects[o].path == "" ==> n.objects[o].path == "") &&
          (Honest(m, o) ==> Honest(n, o)))
    && (o <= m.next && o !in m.objects ==> o !in n.objects)
  }

  /** A file handle number stands for one open handle and is never reused. */
  predicate HandleKept(m: Mount, n: Mount, fh: nat) {
    && (fh in m.handles && fh in n.handles ==> n.handles[fh] == m.handles[fh])
    && (fh <= m.next && fh !in m.handles ==> fh !in n.handles)
  }

  ghost predicate FileKept(m: Mount, n: Mount, f: nat) {
    && (f in m.files ==>
          f in n.files && n.files[f].ino == m.files[f].ino && (!Live(m, f) ==> !Live(n, f) && n.files[f] == m.files[f]))
    && (f <= m.next && f !in m.files ==> f !in n.files)
  }

  /** Uploads since then came from handles that still had a name. */
  ghost predicate UploadsKept(m: Mount, n: Mount) {
    m.uploads <= n.uploads &&
    forall k :: |m.uploads| <= k < |n.uploads| ==>
      n.uploads[k].path != "" &&
      var o := n.uploads[k].handle;
      o > m.next || (o in m.objects && m.objects[o].Write? && m.objects[o].path != "")
  }

  ghost predicate Kept(m: Mount, n: Mount) {
    && m.next <= n.next && UploadsKept(m, n)
    && (forall fh :: HandleKept(m, n, fh))
    && (forall o :: ObjectKept(m, n, o))
    && (forall f :: FileKept(m, n, f))
  }

  lemma KeptIsReflexive(m: Mount)
    ensures Kept(m, m)
  {
    forall o
      ensures ObjectKept(m, m, o)
    {
    }
    forall f
      ensures FileKept(m, m, f)
    {
    }
  }

  lemma KeptIsTransitive(m: Mount, n: Mount, q: Mount)
    requires Fits(m) && Kept(m, n) && Kept(n, q)
    ensures Kept(m, q)
  {
    hide Live, Honest;
    forall o
      ensures ObjectKept(m, q, o)
    {
      assert ObjectKept(m, n, o) && ObjectKept(n, q, o);
      assert o in m.objects ==> ObjectFits(m, o);
    }
    forall f
      ensures FileKept(m, q, f)
    {
      assert FileKept(m, n, f) && FileKept(n, q, f);
      assert f in m.files ==> FileFits(m, f);
    }
    forall fh
      ensures HandleKept(m, q, fh)
    {
      assert HandleKept(m, n, fh) && HandleKept(n, q, fh);
      assert fh in m.handles ==> HandleFits(m, fh);
    }
    UploadsChain(m, n, q);
  }

  lemma UploadsChain(m: Mount, n: Mount, q: Mount)
    requires UploadsKept(m, n) && UploadsKept(n, q) && m.next <= n.next
    requires forall o :: ObjectKept(m, n, o)
    ensures UploadsKept(m, q)
  {
    hide Honest;
    forall k | |m.uploads| <= k < |q.uploads|
      ensures q.uploads[k].path != ""
      ensures var o := q.uploads[k].handle; o > m.next || (o in m.objects && m.objects[o].Write? && m.objects[o].path != "")
    {
      var o := q.uploads[k].handle;
      assert ObjectKept(m, n, o);
      if k < |n.uploads| {
        assert q.uploads[k] == n.uploads[k];
      }
    }
  }
}
