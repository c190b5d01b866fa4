/** What the write-back calls of a mount do to its state: uploading, waiting for a
    commit, changing content, opening for write. */
module MountCalls {
  import opened Outcomes
  import opened ByteStrings
  import Inodes
  import opened Mounts
  import opened MountSteps

  // ------------------------------------------------------------- uploading

  /** What a status query answers about a path: nothing there, or its state and the
      content of the committed version. */
  datatype StatReply = StatFailed | Absent | Found(committed: bool, current: Option<Bytes>)

  /** `NotSent`: a local failure before anything was sent. */
  datatype UploadReply = NotSent | SendFailed | Accepted(committed: bool)

  /** A write handle that has a name. */
  predicate NamedWriter(m: Mount, o: nat) {
    o in m.objects && m.objects[o].Write? && m.objects[o].path != "" && m.objects[o].file in m.files
  }

  function FileOf(m: Mount, o: nat): CachedFile
    requires o in m.objects && m.objects[o].file in m.files
  {
    m.files[m.objects[o].file]
  }

  /** One upload attempt of a named write handle and the answer noted. */
  function Uploaded(m: Mount, o: nat, reply: UploadReply): Mount
    requires NamedWriter(m, o)
  {
    var h, c := m.objects[o], FileOf(m, o);
    var pending, uploads := m.pending[c.ino := h.file], m.uploads + [Upload(o, h.path, c.bytes)];
    match reply
    case NotSent => m.(pending := pending)
    case SendFailed => m.(pending := pending, uploads := uploads)
    case Accepted(yes) =>
      m.(pending := if yes then pending - {c.ino} else pending, uploads := uploads,
         confirmed := if yes then m.confirmed[h.file := Report(h.path, c.bytes, false)] else m.confirmed,
         files := m.files[h.file := c.(content := Some(c.bytes), createOnly := Some(false), unconfirmed := c.unconfirmed && !yes)],
         objects := m.objects[o := h.(dirty := false, uploaded := true, committed := yes)])
  }

  lemma FileIsSound(m: Mount, f: nat)
    requires Fits(m) && f in m.files
    ensures FileFits(m, f)
  {
  }

  function Pended(m: Mount, o: nat): Mount
    requires NamedWriter(m, o)
  {
    m.(pending := m.pending[FileOf(m, o).ino := m.objects[o].file])
  }

  lemma PendKeeps(m: Mount, o: nat)
    requires Fits(m) && NamedWriter(m, o)
    ensures Fits(Pended(m, o)) && Kept(m, Pended(m, o))
  {
    hide Fits, Kept, Live;
    var f := m.objects[o].file;
    HandleIsLive(m, o);
    assert m.files[f := m.files[f]] == m.files;
    FileIsSound(m, f);
    ReflagKeeps(m, Pended(m, o), f);
  }

  /** A named write handle's path is its inode's name. */
  lemma WriterIsNamed(m: Mount, o: nat)
    requires Fits(m) && NamedWriter(m, o)
    ensures PathOf(m.names, FileOf(m, o).ino) == Some(m.objects[o].path) && Name(m, m.objects[o].path) == Some(FileOf(m, o).ino)
  {
    assert ObjectFits(m, o);
    NameIsLast(m, m.objects[o].path);
  }

  lemma NameIsLast(m: Mount, path: string)
    requires Inodes.Fits(m.names) && Name(m, path).Some?
    ensures PathOf(m.names, Name(m, path).value) == Some(path)
  {
    var ino := m.names.byPath[path];
    assert Inodes.PathFits(m.names, path) && Inodes.RecordFits(m.names, ino);
  }

  /** The local file after an accepted upload. */
  function Noted(m: Mount, o: nat, committed: bool): Mount
    requires NamedWriter(m, o)
  {
    var f, c := m.objects[o].file, FileOf(m, o);
    m.(files := m.files[f := c.(content := Some(c.bytes), createOnly := Some(false), unconfirmed := c.unconfirmed && !committed)],
       confirmed := if committed then m.confirmed[f := Report(m.objects[o].path, c.bytes, false)] else m.confirmed,
       pending := if committed then m.pending - {c.ino} else m.pending)
  }

  lemma NoteKeeps(m: Mount, o: nat, committed: bool)
    requires Fits(m) && NamedWriter(m, o)
    ensures Fits(Noted(m, o, committed)) && Kept(m, Noted(m, o, committed))
  {
    hide Fits, Kept, Live;
    HandleIsLive(m, o);
    WriterIsNamed(m, o);
    FileIsSound(m, m.objects[o].file);
    ReflagKeeps(m, Noted(m, o, committed), m.objects[o].file);
  }

  /** The handle after an accepted upload. */
  function Flagged(m: Mount, o: nat, committed: bool): Mount
    requires NamedWriter(m, o)
  {
    m.(objects := m.objects[o := m.objects[o].(dirty := false, uploaded := true, committed := committed)])
  }

  lemma FlagKeeps(m: Mount, o: nat, committed: bool)
    requires Fits(m) && NamedWriter(m, o) && (committed ==> m.objects[o].file in m.confirmed)
    ensures Fits(Flagged(m, o, committed)) && Kept(m, Flagged(m, o, committed))
  {
    hide Fits, Kept, Live;
    assert m.files[m.objects[o].file := FileOf(m, o)] == m.files;
    FileIsSound(m, m.objects[o].file);
    RewriteKeeps(m, Flagged(m, o, committed), o);
  }

  lemma UploadKeeps(m: Mount, o: nat, reply: UploadReply)
    requires Fits(m) && NamedWriter(m, o)
    ensures Fits(Uploaded(m, o, reply)) && Kept(m, Uploaded(m, o, reply))
  {
    hide Fits, Kept, Live;
    PendKeeps(m, o);
    var p := Pended(m, o);
    SendKeeps(p, o);
    var sent := Sent(p, o);
    KeptIsTransitive(m, p, sent);
    if reply.Accepted? {
      var noted := Noted(sent, o, reply.committed);
      NoteKeeps(sent, o, reply.committed);
      KeptIsTransitive(m, sent, noted);
      FlagKeeps(noted, o, reply.committed);
      KeptIsTransitive(m, noted, Flagged(noted, o, reply.committed));
    }
  }

  /** What an upload attempt leaves: the content went out under the handle's own name
      unless nothing was sent, and the file waits for its commit until an answer reports
      it. Only an accepted upload records the content and takes back create-only; no
      answer changes a byte, another file or another handle. */
  lemma UploadTells(m: Mount, o: nat, reply: UploadReply)
    requires NamedWriter(m, o)
    ensures var n, h, c := Uploaded(m, o, reply), m.objects[o], FileOf(m, o);
            n.uploads == (if reply == NotSent then m.uploads else m.uploads + [Upload(o, h.path, c.bytes)]) &&
            (c.ino in n.pending <==> reply != Accepted(true)) && (c.ino in n.pending ==> n.pending[c.ino] == h.file) &&
            n.pending - {c.ino} == m.pending - {c.ino} && NamedWriter(n, o) && n.objects - {o} == m.objects - {o} &&
            n.files - {h.file} == m.files - {h.file} && FileOf(n, o).bytes == c.bytes && FileOf(n, o).ino == c.ino &&
            (if reply.Accepted?
             then n.objects[o] == h.(dirty := false, uploaded := true, committed := reply.committed) &&
                  FileOf(n, o).content == Some(c.bytes) && FileOf(n, o).createOnly == Some(false) &&
                  (FileOf(n, o).unconfirmed <==> c.unconfirmed && !reply.committed)
             else n.objects[o] == h && FileOf(n, o) == c)
  {
    var n, h, c := Uploaded(m, o, reply), m.objects[o], FileOf(m, o);
    assert n.pending - {c.ino} == m.pending - {c.ino};
  }

  // -------------------------------------------------- waiting for a commit

  /** The polled status shows the handle's bytes committed. */
  function Confirmed(m: Mount, o: nat): Mount
    requires NamedWriter(m, o)
  {
    var f, c := m.objects[o].file, FileOf(m, o);
    m.(objects := m.objects[o := m.objects[o].(committed := true)], files := m.files[f := c.(unconfirmed := false)],
       confirmed := m.confirmed[f := Report(m.objects[o].path, c.bytes, false)], pending := m.pending - {c.ino})
  }

  lemma ConfirmKeeps(m: Mount, o: nat)
    requires Fits(m) && NamedWriter(m, o)
    ensures Fits(Confirmed(m, o)) && Kept(m, Confirmed(m, o))
  {
    hide Fits, Kept, Live;
    var f, c := m.objects[o].file, FileOf(m, o);
    HandleIsLive(m, o);
    WriterIsNamed(m, o);
    FileIsSound(m, f);
    var k := m.(files := m.files[f := c.(unconfirmed := false)], confirmed := m.confirmed[f := Report(m.objects[o].path, c.bytes, false)],
                pending := m.pending - {c.ino});
    ReflagKeeps(m, k, f);
    var n := Confirmed(m, o);
    assert k.files[f := k.files[f]] == k.files;
    FileIsSound(k, f);
    RewriteKeeps(k, n, o);
    KeptIsTransitive(m, k, n);
  }

  // ------------------------------------------------------- changing content

  /** New bytes through a write handle, with no report on them yet; `len` is what the
      handle then believes. */
  function Changed(m: Mount, o: nat, bytes: Bytes, len: nat): Mount
    requires o in m.objects && m.objects[o].Write? && m.objects[o].file in m.files
  {
    var h := m.objects[o];
    m.(files := m.files[h.file := m.files[h.file].(bytes := bytes, content := None, unconfirmed := true)],
       confirmed := m.confirmed - {h.file},
       objects := m.objects[o := h.(dirty := true, committed := false, len := len)],
       writers := if h.path in m.writers then m.writers[h.path := m.writers[h.path].(len := len)] else m.writers)
  }

  lemma ChangeKeeps(m: Mount, o: nat, bytes: Bytes, len: nat)
    requires Fits(m) && o in m.objects && m.objects[o].Write?
    ensures m.objects[o].file in m.files && Fits(Changed(m, o, bytes, len)) && Kept(m, Changed(m, o, bytes, len))
  {
    hide Fits, Kept, Live;
    HandleIsLive(m, o);
    RewriteKeeps(m, Changed(m, o, bytes, len), o);
  }

  /** A write that failed part way: the bytes are whatever the disk holds now. */
  function Damaged(m: Mount, o: nat, bytes: Bytes): Mount
    requires o in m.objects && m.objects[o].Write? && m.objects[o].file in m.files
  {
    var h := m.objects[o];
    m.(files := m.files[h.file := m.files[h.file].(bytes := bytes, content := None, unconfirmed := true)],
       confirmed := m.confirmed - {h.file},
       objects := m.objects[o := h.(dirty := true, committed := false)])
  }

  lemma DamageKeeps(m: Mount, o: nat, bytes: Bytes)
    requires Fits(m) && o in m.objects && m.objects[o].Write?
    ensures m.objects[o].file in m.files && Fits(Damaged(m, o, bytes)) && Kept(m, Damaged(m, o, bytes))
  {
    hide Fits, Kept, Live;
    HandleIsLive(m, o);
    RewriteKeeps(m, Damaged(m, o, bytes), o);
  }

  // ------------------------------------------------------------- opening

  /** Reopening a live local file: its pending entry may be settled and, when the
      status shows its own content committed, its mark is cleared. */
  function Rechecked(m: Mount, path: string, f: nat, reply: StatReply): Mount
    requires f in m.files
  {
    if !reply.Found? || !reply.committed then m
    else
      var c := m.files[f];
      var shown := c.content.Some? && reply.current == c.content;
      m.(pending := m.pending - {c.ino},
         files := m.files[f := if shown then c.(unconfirmed := false) else c],
         confirmed := if shown then m.confirmed[f := Report(path, c.bytes, false)] else m.confirmed)
  }

  lemma RecheckKeeps(m: Mount, path: string, f: nat, reply: StatReply)
    requires Fits(m) && f in m.files && InSlot(m, f) && Live(m, f) && PathOf(m.names, m.files[f].ino) == Some(path)
    ensures Fits(Rechecked(m, path, f, reply)) && Kept(m, Rechecked(m, path, f, reply))
  {
    hide Fits, Kept, Live;
    FileIsSound(m, f);
    if reply.Found? && reply.committed {
      ReflagKeeps(m, Rechecked(m, path, f, reply), f);
    } else {
      KeptIsReflexive(m);
    }
  }

  /** What a status says about a reopened file: once some version is committed it no
      longer waits, and its mark goes exactly if that version is the recorded content. */
  lemma RecheckTells(m: Mount, path: string, f: nat, reply: StatReply)
    requires FileFits(m, f)
    ensures var n, c := Rechecked(m, path, f, reply), m.files[f];
            var shown := c.content.Some? && reply == Found(true, Some(c.bytes));
            n == m.(pending := n.pending, files := n.files, confirmed := n.confirmed) &&
            n.pending == (if reply.Found? && reply.committed then m.pending - {c.ino} else m.pending) &&
            n.files == m.files[f := c.(unconfirmed := c.unconfirmed && !shown)] &&
            n.confirmed == if shown then m.confirmed[f := Report(path, c.bytes, false)] else m.confirmed
  {
    assert m.files == m.files[f := m.files[f]];
  }

  /** A rename settles a pending file whose own content is shown committed; the mark stays. */
  function SettledPending(m: Mount, path: string, i: nat): Mount
    requires i in m.pending && m.pending[i] in m.files
  {
    var f := m.pending[i];
    m.(pending := m.pending - {i},
       confirmed := if f in m.confirmed then m.confirmed else m.confirmed[f := Report(path, m.files[f].bytes, true)])
  }

  lemma SettlePendingKeeps(m: Mount, path: string, i: nat)
    requires Fits(m) && i in m.pending && PathOf(m.names, i) == Some(path)
    ensures m.pending[i] in m.files && Fits(SettledPending(m, path, i)) && Kept(m, SettledPending(m, path, i))
  {
    hide Fits, Kept, Live;
    PendingIsSound(m, i);
    var f := m.pending[i];
    FileIsSound(m, f);
    assert m.files[f := m.files[f]] == m.files;
    ReflagKeeps(m, SettledPending(m, path, i), f);
  }

  /** Giving up a pending entry. */
  lemma DropPendingKeeps(m: Mount, ino: nat)
    requires Fits(m)
    ensures Fits(m.(pending := m.pending - {ino})) && Kept(m, m.(pending := m.pending - {ino}))
  {
    hide Fits, Kept, Live;
    var n := m.(pending := m.pending - {ino});
    if ino in m.pending {
      PendingIsSound(m, ino);
      var f := m.pending[ino];
      FileIsSound(m, f);
      assert m.files[f := m.files[f]] == m.files;
      ReflagKeeps(m, n, f);
    } else {
      assert n == m;
      KeptIsReflexive(m);
    }
  }

  lemma PendingIsSound(m: Mount, ino: nat)
    requires Fits(m) && ino in m.pending
    ensures InSlot(m, m.pending[ino]) && Live(m, m.pending[ino]) && m.files[m.pending[ino]].ino == ino
  {
    assert PendingFits(m, ino);
    assert Awaited(m, m.pending[ino]);
  }

  /** A fresh download: the file, its slot, the report on it and a reader. */
  function Downloaded(m: Mount, path: string, ino: nat, bytes: Bytes): Mount {
    Handed(Created(m, CachedFile(ino, bytes, Some(bytes), false, None), Some(Report(path, bytes, false))), Read(m.next + 1))
  }

  lemma DownloadKeeps(m: Mount, path: string, ino: nat, bytes: Bytes)
    requires Fits(m) && Cached(m, ino).None?
    ensures Fits(Downloaded(m, path, ino, bytes)) && Kept(m, Downloaded(m, path, ino, bytes))
  {
    hide Fits, Kept, Live;
    var c, report := CachedFile(ino, bytes, Some(bytes), false, None), Some(Report(path, bytes, false));
    CreateKeeps(m, c, report);
    NextIsFree(m);
    HandKeeps(m, Created(m, c, report), Read(m.next + 1));
  }

  /** The file a write handle is opened on: an existing one, emptied when
      truncating, or a new empty one. */
  function Prepared(m: Mount, ino: nat, f: Option<nat>, truncate: bool, createOnly: bool): Mount
    requires f.Some? ==> f.value in m.files
  {
    match f
    case None => Created(m, CachedFile(ino, [], None, true, Some(createOnly)), None)
    case Some(g) =>
      var c := m.files[g];
      var d := if c.createOnly.Some? then c else c.(createOnly := Some(createOnly));
      m.(files := m.files[g := if truncate then d.(unconfirmed := true, bytes := [], content := None) else d],
         confirmed := if truncate then m.confirmed - {g} else m.confirmed)
  }

  /** The upload target is captured once, at the first open for writing; truncating leaves
      nothing that was confirmed about the old bytes. */
  lemma TargetCapturedOnce(m: Mount, ino: nat, f: Option<nat>, truncate: bool, createOnly: bool)
    requires f.Some? ==> f.value in m.files
    ensures var n, g := Prepared(m, ino, f, truncate, createOnly), if f.Some? then f.value else m.next + 1;
            g in n.files && n.files - {g} == m.files - {g} &&
            n.files[g].createOnly == (if f.Some? && m.files[g].createOnly.Some? then m.files[g].createOnly else Some(createOnly)) &&
            (truncate || f.None? ==> n.files[g].bytes == [] && n.files[g].content.None? && n.files[g].unconfirmed) &&
            (f.Some? && truncate ==> g !in n.confirmed) &&
            (f.Some? && !truncate ==> n.files[g] == m.files[g].(createOnly := n.files[g].createOnly) && n.confirmed == m.confirmed)
  {
  }

  /** The state after `open_for_write` made a handle of its own. */
  function OpenedForWrite(m: Mount, path: string, ino: nat, f: Option<nat>, truncate: bool, createOnly: bool): Mount
    requires f.Some? ==> f.value in m.files
  {
    var k := Prepared(m, ino, f, truncate, createOnly);
    var g := if f.Some? then f.value else m.next + 1;
    Handed(k, Write(g, path, |k.files[g].bytes|, truncate, !truncate, !truncate && ino !in m.pending))
  }

  predicate MayOpen(m: Mount, path: string, ino: nat, truncate: bool) {
    path != "" && path !in m.writers && Name(m, path) == Some(ino) && (truncate || Cached(m, ino).Some?)
  }

  lemma CachedIsSound(m: Mount, ino: nat)
    requires Fits(m) && Cached(m, ino).Some?
    ensures var f := Cached(m, ino).value; InSlot(m, f) && m.files[f].ino == ino && Live(m, f)
  {
    var f := m.slots[ino];
    assert SlotFits(m, ino);
    if Opened(m, f) {
      var o :| o in m.objects && m.objects[o].file == f;
      assert ObjectFits(m, o);
    } else {
      var i :| i in m.pending && m.pending[i] == f;
      assert PendingFits(m, i);
    }
  }

  lemma PrepareKeeps(m: Mount, path: string, ino: nat, truncate: bool, createOnly: bool)
    requires Fits(m) && MayOpen(m, path, ino, truncate)
    ensures var f := Cached(m, ino);
            (f.Some? ==> f.value in m.files) && Fits(Prepared(m, ino, f, truncate, createOnly)) &&
            Kept(m, Prepared(m, ino, f, truncate, createOnly))
  {
    hide Fits, Kept, Live;
    var f := Cached(m, ino);
    if f.None? {
      CreateKeeps(m, CachedFile(ino, [], None, true, Some(createOnly)), None);
    } else {
      CachedIsSound(m, ino);
      FileIsSound(m, f.value);
      var n := Prepared(m, ino, f, truncate, createOnly);
      if truncate {
        forall o | o in m.objects && m.objects[o].Write?
          ensures m.objects[o].file != f.value
        {
          NoOtherWriter(m, Write(f.value, path, 0, true, false, false), o);
        }
        ReplaceKeeps(m, n, f.value);
      } else {
        ReflagKeeps(m, n, f.value);
      }
    }
  }

  lemma OpenKeeps(m: Mount, path: string, ino: nat, truncate: bool, createOnly: bool)
    requires Fits(m) && MayOpen(m, path, ino, truncate)
    ensures var f := Cached(m, ino);
            (f.Some? ==> f.value in m.files) && Fits(OpenedForWrite(m, path, ino, f, truncate, createOnly)) &&
            Kept(m, OpenedForWrite(m, path, ino, f, truncate, createOnly))
  {
    hide Fits, Kept, Live;
    var f := Cached(m, ino);
    if f.Some? { CachedIsSound(m, ino); }
    NextIsFree(m);
    PrepareKeeps(m, path, ino, truncate, createOnly);
    var k := Prepared(m, ino, f, truncate, createOnly);
    var g := if f.Some? then f.value else m.next + 1;
    HandKeeps(m, k, Write(g, path, |k.files[g].bytes|, truncate, !truncate, !truncate && ino !in m.pending));
  }

  /** Settled by a rename since its content last changed, with the mark still on. */
  predicate SettledByRename(m: Mount, f: nat) {
    f in m.confirmed && m.confirmed[f].byRename
  }

  /** fsync on a newly opened write handle can be trusted exactly when the open
      truncates, or the inode has a pending upload, or its file is not marked
      unconfirmed, or a rename has settled the file since its last change. */
  lemma NewHandleIsHonest(m: Mount, path: string, ino: nat, truncate: bool, createOnly: bool)
    requires Fits(m) && MayOpen(m, path, ino, truncate)
    ensures var f := Cached(m, ino);
            (f.Some? ==> f.value in m.files) &&
            var n := OpenedForWrite(m, path, ino, f, truncate, createOnly);
            n.next in n.objects && n.next !in m.objects &&
            (Honest(n, n.next) <==>
               truncate || ino in m.pending || !m.files[f.value].unconfirmed || SettledByRename(m, f.value))
  {
    hide Fits, Live;
    var f := Cached(m, ino);
    if f.Some? {
      CachedIsSound(m, ino);
      FileIsSound(m, f.value);
    }
    NextIsFree(m);
    NextNextIsFree(m);
  }

  lemma NextNextIsFree(m: Mount)
    requires Fits(m)
    ensures m.next + 2 !in m.objects
  {
    forall k | k in m.objects
      ensures k <= m.next
    {
      assert ObjectFits(m, k);
    }
  }
}
