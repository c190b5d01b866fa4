/** Short runs of a mount that show where two promises of the FUSE layer end: fsync on a
    reopened file (src/tapefs.rs:1289-1302) and truncation by inode (1528-1541). */
module MountExamples {
  import opened Outcomes
  import opened ByteStrings
  import Inodes
  import opened Mounts
  import opened MountSteps
  import opened MountCalls
  import opened MountOpens
  import opened MountSync
  import opened Renames
  import opened TapeFs

  // --------------------------------------------- reopened without an upload

  const ONE_NAME := EMPTY.(names := Inodes.Tables(map[2 := Inodes.InodeRecord("/a", None)], map["/a" := 2], map[], 2))

  const WRITING := ONE_NAME.(
    next := 3, files := map[2 := CachedFile(2, [], None, true, Some(false))], slots := map[2 := 2],
    objects := map[3 := Write(2, "/a", 0, true, false, false)], handles := map[3 := 3], writers := map["/a" := Writer(3, 0)])

  const WRITTEN := WRITING.(
    files := map[2 := CachedFile(2, [7], None, true, Some(false))],
    objects := map[3 := Write(2, "/a", 1, true, false, false)], writers := map["/a" := Writer(3, 1)])

  /** One byte written through "/a", a reader opened, the writer closed without a flush. */
  const CLOSED_UNSENT := WRITTEN.(next := 4, objects := map[4 := Read(2)], handles := map[4 := 4], writers := map[])

  const REOPENED := CLOSED_UNSENT.(
    next := 5, objects := map[4 := Read(2), 5 := Write(2, "/a", 1, false, true, true)], handles := map[4 := 4, 5 := 5],
    writers := map["/a" := Writer(5, 1)])

  lemma OpenedTruncating()
    ensures Named(EMPTY, "/a") == ONE_NAME && Inodes.Ino(Inodes.NO_INODES, "/a") == 2
    ensures OpeningFile(ONE_NAME, 2, true, true, true, StatFailed, None, true, true) == Opening(WRITING, Some(3))
  {
    assert LocalFile(ONE_NAME, 2).None?;
    assert OpeningOwn(ONE_NAME, "/a", 2, false, true, true, true) == Opening(WRITING, Some(3));
  }

  lemma WrittenOnce()
    ensures WriteAt([], 0, [7]) == [7] && Changed(WRITING, 3, [7], 1) == WRITTEN
  {
  }

  lemma ReadWhileWriting()
    ensures OpeningFile(WRITTEN, 2, false, false, true, StatFailed, None, true, true) == Opening(Handed(WRITTEN, Read(2)), Some(4))
    ensures IsHeir(Handed(WRITTEN, Read(2)), 3, None)
    ensures forall heir :: IsHeir(Handed(WRITTEN, Read(2)), 3, heir) ==> Released(Handed(WRITTEN, Read(2)), 3, heir) == CLOSED_UNSENT
  {
    assert WRITTEN.objects[3].file == 2;
    assert Opened(WRITTEN, 2);
    assert LocalFile(WRITTEN, 2) == Some(2);
  }

  lemma ReopenedClean()
    ensures OpeningFile(CLOSED_UNSENT, 2, true, false, true, StatFailed, None, true, true) == Opening(REOPENED, Some(5))
    ensures Settled(REOPENED, 5) && Syncing(REOPENED, 5, SyncAnswer(NotSent, [], true)) == Called(REOPENED, true)
  {
    assert CLOSED_UNSENT.objects[4].file == 2;
    assert Opened(CLOSED_UNSENT, 2);
    assert LocalFile(CLOSED_UNSENT, 2) == Some(2);
    assert OpenedForWrite(CLOSED_UNSENT, "/a", 2, Some(2), false, false) == REOPENED;
  }

  method CloseUnsent() returns (fs: TapeFs)
    ensures fs.Value() == CLOSED_UNSENT && Fits(fs.Value()) && fresh(fs)
  {
    hide Fits, Kept, OpeningFile, Released, Handed, Changed, WriteAt, Named;
    OpenedTruncating();
    WrittenOnce();
    ReadWhileWriting();
    fs := new TapeFs();
    var ino := fs.AssignName("/a");
    var writer := fs.Open(ino, true, true, true, StatFailed, None, true, true);
    assert fs.Value() == WRITING;
    var ok := fs.WriteBytes(3, 0, [7], None);
    assert fs.Value() == WRITTEN;
    var reader := fs.Open(ino, false, false, true, StatFailed, None, true, true);
    fs.Release(3);
  }

  /** The backend has an older version of "/a". The file is opened truncating, written,
      and closed without a flush while a reader keeps the local file; opened again for
      write, fsync answers Ok though nothing was ever sent. */
  method ReopenedWithoutFlush() returns (fs: TapeFs, fh: nat, ok: bool)
    ensures ok && fs.uploads == [] && fs.confirmed == map[] && fh in fs.handles && NamedWriter(fs.Value(), fs.handles[fh])
    ensures FileOf(fs.Value(), fs.handles[fh]).bytes == [7] && !Archived(fs.Value(), fh)
  {
    hide Fits, Kept, OpeningFile, Syncing;
    ReopenedClean();
    fs := CloseUnsent();
    var again := fs.Open(2, true, false, true, StatFailed, None, true, true);
    fh := again.value;
    ok := fs.Fsync(fh, SyncAnswer(NotSent, [], true));
  }

  // ------------------------------------- pending entries dropped, mark left on

  /** Two calls drop a pending entry and leave the mark. A rename does so only for content
      shown committed, so a handle opened afterwards can be trusted. */
  lemma SettledByRenameIsHonest(m: Mount, path: string, i: nat, truncate: bool, createOnly: bool)
    requires Fits(m) && i in m.pending && PathOf(m.names, i) == Some(path)
    ensures m.pending[i] in m.files
    ensures var n, f := SettledPending(m, path, i), m.pending[i];
            i !in n.pending && n.files[f].unconfirmed == m.files[f].unconfirmed && LocalFile(m, i) == Some(f) &&
            (m.files[f].unconfirmed && f !in m.confirmed ==> SettledByRename(n, f)) &&
            (MayOpen(n, path, i, truncate) && Cached(n, i) == Some(f) ==>
               var q := OpenedForWrite(n, path, i, Some(f), truncate, createOnly); Honest(q, q.next))
  {
    hide Fits, Live, OpenedForWrite, Kept, Honest;
    SettlePendingKeeps(m, path, i);
    PendingIsSound(m, i);
    var n, f := SettledPending(m, path, i), m.pending[i];
    FileIsSound(m, f);
    FileIsSound(n, f);
    if MayOpen(n, path, i, truncate) && Cached(n, i) == Some(f) { NewHandleIsHonest(n, path, i, truncate, createOnly); }
  }

  /** A failed reopening does so whatever is committed there, and then it cannot. */
  lemma DroppedByRecheckIsNot(m: Mount, path: string, ino: nat, stat: StatReply, createOnly: bool)
    requires Fits(m) && ino in m.pending && PathOf(m.names, ino) == Some(path)
    requires stat.Absent? || (stat.Found? && stat.committed)
    ensures m.pending[ino] in m.files
    ensures var f := m.pending[ino];
            var c := Rechecking(m, path, f, stat);
            ino !in c.mount.pending &&
            (f !in m.confirmed && !c.ok && MayOpen(c.mount, path, ino, false) && Cached(c.mount, ino) == Some(f) ==>
               var q := OpenedForWrite(c.mount, path, ino, Some(f), false, createOnly); Settled(q, q.next) && !Honest(q, q.next))
  {
    hide Fits, Live, Kept, Cached;
    PendingIsSound(m, ino);
    var f := m.pending[ino];
    FileIsSound(m, f);
    RecheckingKeeps(m, path, f, stat);
    var n := Rechecking(m, path, f, stat).mount;
    NextIsFree(n);
    NextNextIsFree(n);
  }

  // ------------------------------------------------ truncating another's file

  /** When a truncation by inode that has to reopen the name succeeds. */
  lemma TruncationSucceeds(m: Mount, ino: nat, size: nat, attr: nat, bytes: Bytes, committed: bool)
    requires Fits(m) && !m.uncertain && PathOf(m.names, ino).Some? && size != attr && size <= MAX_SIZE
    requires PathOf(m.names, ino).value !in {"", Inodes.ROOT_PATH} && PathOf(m.names, ino).value !in m.writers
    requires LocalFile(m, Inodes.Ino(m.names, PathOf(m.names, ino).value)).None?
    ensures TruncatingInode(m, ino, size, Some(attr), true, Found(true, Some(bytes)), Some(bytes), true, true, Accepted(committed)).ok
  {
    hide Fits, Kept, Live, Cached, OpeningForWrite, JustMade, LocalFile, Base;
    var path, reached := PathOf(m.names, ino).value, Inodes.Ino(m.names, PathOf(m.names, ino).value);
    var stat := Found(true, Some(bytes));
    ReopeningSucceeds(m, path, bytes);
    ReopenedForWrite(m, path, true, stat, Some(bytes), true, true);
    var w := OpeningForWrite(m, path, false, false, true, stat, Some(bytes), true, true);
    OpeningForWriteKeeps(m, path, false, false, true, stat, Some(bytes), true, true);
    RestSucceeds(w.mount, w.fh.value, path, size, Accepted(committed), reached, Base(m, reached, Some(bytes)));
  }

  lemma ReopeningSucceeds(m: Mount, path: string, bytes: Bytes)
    requires Fits(m) && !m.uncertain && path !in {"", Inodes.ROOT_PATH} && path !in m.writers
    requires LocalFile(m, Inodes.Ino(m.names, path)).None?
    ensures var w := OpeningForWrite(m, path, false, false, true, Found(true, Some(bytes)), Some(bytes), true, true);
            w.fh.Some? && !w.mount.uncertain
  {
    hide Fits, Kept, Live, Cached, LocalFile, Named;
    var k, ino := Named(m, path), Inodes.Ino(m.names, path);
    NameKeeps(m, path);
    NamesFit(k);
    NameIsLast(k, path);
    NameChangesNoFile(m, path, ino);
    NameDoubtsNothing(m, path);
    var r := OpeningRead(k, ino, true, Found(true, Some(bytes)), Some(bytes));
    ReaderSees(k, ino, true, Found(true, Some(bytes)), Some(bytes));
  }

  lemma NameDoubtsNothing(m: Mount, path: string)
    ensures Named(m, path).uncertain == m.uncertain
  {
  }

  lemma RestSucceeds(k: Mount, fh: nat, path: string, size: nat, reply: UploadReply, ino: nat, base: Option<Bytes>)
    requires Fits(k) && JustMade(k, fh, path, ino, base) && !k.uncertain && size <= MAX_SIZE && reply.Accepted?
    ensures TruncatingRest(k, fh, path, size, true, reply).ok
  {
    hide Fits, Resize;
    WriterIsOpen(k, path);
  }

  const RECREATED := EMPTY.(
    names := Inodes.Tables(map[2 := Inodes.InodeRecord("/a", None), 3 := Inodes.InodeRecord("/a", None)], map["/a" := 3], map[], 3))

  lemma UnlinkedAndRecreated()
    ensures Named(ONE_NAME, "/a") == ONE_NAME && Inodes.Ino(ONE_NAME.names, "/a") == 2
    ensures Named(Unlinked(ONE_NAME, "/a"), "/a") == RECREATED
    ensures Inodes.Ino(Unlinked(ONE_NAME, "/a").names, "/a") == 3 && PathOf(RECREATED.names, 2) == Some("/a")
  {
    assert EMPTY.pending - {2} == EMPTY.pending;
    assert ONE_NAME.names.byPath - {"/a"} == map[];
  }

  lemma RecreatedFile()
    ensures Name(ONE_NAME, "/a") == Some(2) && !RECREATED.uncertain && RECREATED.writers == map[]
    ensures LocalFile(RECREATED, 3).None? && Inodes.Ino(RECREATED.names, "/a") == 3 && Base(RECREATED, 3, Some([])) == Some([])
    ensures Resize([], 1) == [0]
  {
  }

  /** With no writer open: "/a" is unlinked and a new "/a" made; truncating the inode
      of the old one changes the file of the new one. */
  method TruncateHitsSuccessor() returns (fs: TapeFs, first: nat, second: nat, ok: bool)
    ensures ok && first != second && HasBytes(fs.Value(), second, [0])
  {
    hide Fits, Kept, Live, Named, Unlinked, TruncatingInode, OpeningForWrite, Base, LocalFile, HasBytes, BytesKept;
    OpenedTruncating();
    UnlinkedAndRecreated();
    RecreatedFile();
    fs := new TapeFs();
    first := fs.AssignName("/a");
    ok := fs.Unlink("/a", true, false, true);
    second := fs.AssignName("/a");
    assert fs.Value() == RECREATED;
    TruncationReaches(fs.Value(), first, 1, Some(0), true, Found(true, Some([])), Some([]), true, true, Accepted(true));
    TruncationSucceeds(fs.Value(), first, 1, 0, [], true);
    ok := fs.Truncate(first, 1, Some(0), true, Found(true, Some([])), Some([]), true, true, Accepted(true));
  }

  /** "/a" renamed over "/b", then opened under its new name. */
  const RENAMED_OVER := EMPTY.(
    names := Inodes.Tables(map[2 := Inodes.InodeRecord("/b", None), 3 := Inodes.InodeRecord("/b", None)], map["/b" := 2], map[], 3))

  lemma TwoNames()
    ensures Apart("/a", "/b") && !Within("/a", "/b") && !Within("/b", "/a")
  {
    assert "/a"[1] == 'a' && "/b"[1] == 'b';
  }

  lemma OneOrigin(q: string)
    requires Within(q, "/b")
    ensures Moved(q, "/b", "/a") != "/b" && (Moved(q, "/b", "/a") == "/a" <==> q == "/b")
  {
    var p := Moved(q, "/b", "/a");
    assert |p| == |q| && p[1] == 'a' && "/b"[1] == 'b';
    if |q| == 2 {
      assert q == q[..2];
    }
  }

  lemma SubstitutedAt(byPath: map<string, nat>, q: string)
    requires byPath == map["/a" := 2, "/b" := 3]
    ensures Apart("/a", "/b")
    ensures q in Substitute(byPath, "/a", "/b") <==> q == "/b"
    ensures q in Substitute(byPath, "/a", "/b") ==> Substitute(byPath, "/a", "/b")[q] == 2
  {
    hide Within, Moved, Apart, Substitute;
    TwoNames();
    MovedToItself("/a", "/b");
    SubstituteAt(byPath, "/a", "/b", q);
    if Within(q, "/b") {
      OneOrigin(q);
    }
  }

  lemma SubstituteOver(byPath: map<string, nat>)
    requires byPath == map["/a" := 2, "/b" := 3]
    ensures Apart("/a", "/b") && Substitute(byPath, "/a", "/b") == map["/b" := 2]
    ensures Substitute<Writer>(map[], "/a", "/b") == map[]
  {
    hide Within, Moved, Apart, Substitute;
    TwoNames();
    forall q
      ensures q in Substitute(byPath, "/a", "/b") <==> q == "/b"
      ensures q in Substitute(byPath, "/a", "/b") ==> Substitute(byPath, "/a", "/b")[q] == 2
      ensures q !in Substitute<Writer>(map[], "/a", "/b")
    {
      SubstitutedAt(byPath, q);
      SubstituteAt<Writer>(map[], "/a", "/b", q);
    }
  }

  lemma NothingFits()
    ensures Fits(EMPTY)
  {
  }

  lemma RenamedOver()
    ensures Apart("/a", "/b") && RENAMED_OVER == Renamed(Named(Named(EMPTY, "/a"), "/b"), "/a", "/b") && Fits(RENAMED_OVER)
  {
    hide Kept, Fits, Apart, Substitute;
    NothingFits();
    NameKeeps(EMPTY, "/a");
    NameKeeps(Named(EMPTY, "/a"), "/b");
    var m := Named(Named(EMPTY, "/a"), "/b");
    SubstituteOver(m.names.byPath);
    MovedToItself("/a", "/b");
    TwoNames();
    RenameKeeps(m, "/a", "/b");
  }

  /** It need not: a file displaced by a rename keeps the name as its last known one. */
  lemma TruncateHitsNamesake()
    ensures var m := OpenedForWrite(RENAMED_OVER, "/b", 2, None, true, false);
            Fits(m) && PathOf(m.names, 3) == Some("/b") && "/b" in m.writers && WriterOf(m, "/b").Some? && FileOf(m, WriterOf(m, "/b").value).ino == 2
  {
    hide Kept, Fits, Live, Apart, Renamed;
    RenamedOver();
    OpenKeeps(RENAMED_OVER, "/b", 2, true, false);
    WriterIsOpen(OpenedForWrite(RENAMED_OVER, "/b", 2, None, true, false), "/b");
  }
}
