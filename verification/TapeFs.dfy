/** The calls of a FUSE mount on the native backend (src/tapefs.rs). Replies of the
    backend, local I/O failures and deadlines are parameters; lock interleavings
    are not modelled, each public call is one sequential step. */
module TapeFs {
  import opened Outcomes
  import opened ByteStrings
  import Inodes
  import opened Mounts
  import opened MountSteps
  import opened MountCalls
  import opened MountOpens
  import opened MountSync
  import opened Renames
  import opened Paths

  ghost predicate Writable(m: Mount, fh: nat) {
    !m.uncertain && fh in m.handles && m.handles[fh] in m.objects && m.objects[m.handles[fh]].Write? &&
    m.objects[m.handles[fh]].file in m.files
  }

  function Larger(a: nat, b: nat): nat {
    if a < b then b else a
  }

  lemma PreparedFile(m: Mount, ino: nat, file: Option<nat>, truncate: bool, createOnly: bool)
    requires file.Some? ==> file.value in m.files
    ensures var n := Prepared(m, ino, file, truncate, createOnly);
            (if file.Some? then file.value else m.next + 1) in n.files
  {
  }

  lemma SameEntry<X>(m: map<nat, X>, k: nat)
    requires k in m
    ensures m[k := m[k]] == m
  {
  }

  lemma NoAliasMeansNoHeir(m: Mount, fh: nat, aliases: set<nat>)
    requires fh in m.handles && aliases == (set k | k in m.handles && k != fh && m.handles[k] == m.handles[fh]) && aliases == {}
    ensures IsHeir(m, fh, None)
  {
    forall k | k in m.handles && m.handles[k] == m.handles[fh]
      ensures k == fh
    {
      assert k != fh ==> k in aliases;
    }
  }

  /** Closing one of several handles on a writer leaves the entry with the older one. */
  lemma AliasReleased(m: Mount, path: string, fh: nat, heir: Option<nat>)
    requires WriterOf(m, path).Some? && fh in m.handles && m.handles[fh] == WriterOf(m, path).value && m.writers[path].fh != fh
    requires m.objects[m.handles[fh]].path == path && IsHeir(m, fh, heir)
    ensures Released(m, fh, heir) == m.(handles := m.handles - {fh})
  {
    assert m.handles[m.writers[path].fh] == m.handles[fh];
  }

  /** Closing a reader of its own takes its handle away. */
  lemma ReaderReleased(m: Mount, fh: nat, heir: Option<nat>)
    requires OnItsOwn(m, fh) && IsHeir(m, fh, heir)
    ensures Released(m, fh, heir) == m.(handles := m.handles - {fh}, objects := m.objects - {fh})
  {
  }

  lemma LastReleased(m: Mount, fh: nat, heir: Option<nat>)
    requires IsHeir(m, fh, heir) && forall k :: k in m.handles && m.handles[k] == m.handles[fh] ==> k == fh
    ensures heir.None?
  {
  }

  lemma LastOneIsClosed(k: Mount, fh: nat, path: string, ino: nat, base: Option<Bytes>, size: nat, disk: bool, reply: UploadReply)
    requires Fits(k) && JustMade(k, fh, path, ino, base)
    ensures var t := Truncating(k, path, size, disk);
            var u := if t.ok then Flushing(t.mount, fh, reply, disk) else t;
            fh in u.mount.handles && u.mount.handles == k.handles && u.mount.handles[fh] in u.mount.objects
  {
    hide Fits, Live, Truncating, Flushing, BytesKept;
    TruncatingStays(k, path, size, disk);
    var t := Truncating(k, path, size, disk);
    FlushingStays(t.mount, fh, reply, disk, ino);
  }

  lemma TemporaryIsAlone(m: Mount, ino: nat, attr: bool, stat: StatReply, fetched: Option<Bytes>)
    requires Fits(m) && OpeningRead(m, ino, attr, stat, fetched).fh.Some?
    ensures var r := OpeningRead(m, ino, attr, stat, fetched); OnItsOwn(r.mount, r.fh.value)
  {
    hide Fits, OpeningRead, LocalFile, Live;
    ReaderSees(m, ino, attr, stat, fetched);
    ReaderIsAlone(m, ino, attr, stat, fetched);
  }

  /** The name goes, with the pending entry of its inode; every other name stays. */
  function Unlinked(m: Mount, path: string): Mount {
    Unnamed(Named(m, path), path).(pending := m.pending - {Inodes.Ino(m.names, path)})
  }

  lemma NameMovesNothing(m: Mount, path: string)
    ensures Named(m, path) == m.(names := Named(m, path).names)
  {
  }

  lemma UnlinkKeeps(m: Mount, path: string)
    requires Fits(m) && path !in m.writers
    ensures Fits(Unlinked(m, path)) && Kept(m, Unlinked(m, path))
  {
    hide Fits, Kept, Named, Inodes.Ino;
    NameMovesNothing(m, path);
    NameKeeps(m, path);
    var k := Named(m, path);
    UnnameKeeps(k, path);
    KeptIsTransitive(m, k, Unnamed(k, path));
    DropPendingKeeps(Unnamed(k, path), Inodes.Ino(m.names, path));
    KeptIsTransitive(m, Unnamed(k, path), Unlinked(m, path));
  }

  /** The name stands for a file, and no write handle is open on it. */
  predicate MayUnlink(names: Inodes.Tables, open: set<string>, path: string, ino: nat, isDirectory: bool) {
    path in names.byPath && names.byPath[path] == ino && !isDirectory && path !in open
  }

  function Unlinking(m: Mount, path: string, attr: bool, isDirectory: bool, deleted: bool): Called {
    if m.uncertain || !attr then Called(m, false)
    else if MayUnlink(Named(m, path).names, m.writers.Keys, path, Inodes.Ino(m.names, path), isDirectory) && deleted
    then Called(Unlinked(m, path), true)
    else Called(Named(m, path), false)
  }

  lemma UnlinkingKeeps(m: Mount, path: string, attr: bool, isDirectory: bool, deleted: bool)
    requires Fits(m)
    ensures var n := Unlinking(m, path, attr, isDirectory, deleted).mount; Fits(n) && Kept(m, n)
    ensures Named(m, path).writers == m.writers
  {
    hide Fits, Kept, Named, Unlinked, Inodes.Ino;
    KeptIsReflexive(m);
    NameKeeps(m, path);
    NameMovesNothing(m, path);
    if path !in m.writers { UnlinkKeeps(m, path); }
  }

  /** A file is unlinked exactly if nobody has it open for writing and the backend, asked
      for a file, has deleted it. Then its name is gone and its inode no longer waits for
      a commit; every other name stays, and so do all records, files and handles. */
  lemma UnlinkExactly(m: Mount, path: string, attr: bool, isDirectory: bool, deleted: bool)
    requires Fits(m) && path != Inodes.ROOT_PATH
    ensures var r, ino := Unlinking(m, path, attr, isDirectory, deleted), Inodes.Ino(m.names, path);
            (r.ok <==> !m.uncertain && attr && !isDirectory && deleted && path !in m.writers) &&
            (r.ok ==> r.mount == m.(names := r.mount.names, pending := m.pending - {ino}) && r.mount.names.byPath == m.names.byPath - {path}) &&
            (!r.ok ==> r.mount == m.(names := r.mount.names) && r.mount.names.byPath - {path} == m.names.byPath - {path}) &&
            (forall i :: i in m.names.byIno ==> i in r.mount.names.byIno && r.mount.names.byIno[i] == m.names.byIno[i])
  {
    hide Inodes.Fits;
    Inodes.AssignFinds(m.names, path);
    var t, u, ino := m.names, Inodes.Assign(m.names, path), Inodes.Ino(m.names, path);
    forall i | i in t.byIno
      ensures i in u.byIno && u.byIno[i] == t.byIno[i]
    {
      assert i != ino ==> i in t.byIno - {ino} && i in u.byIno - {ino};
    }
  }

  /** Closing a handle: it is gone and every other one stays. An open handle goes with the
      last one on it, and a name stays open for writing as long as it has one. */
  lemma ReleaseExactly(m: Mount, fh: nat, heir: Option<nat>)
    requires Fits(m) && IsHeir(m, fh, heir)
    ensures m.handles[fh] in m.objects &&
            var n := Released(m, fh, heir);
            n == m.(handles := m.handles - {fh}, objects := n.objects, writers := n.writers) &&
            (forall o :: o in n.objects <==> o in m.objects && Shared(n, o)) && (forall o :: o in n.objects ==> n.objects[o] == m.objects[o]) &&
            (forall p :: p in n.writers <==> p in m.writers && Shared(n, m.handles[m.writers[p].fh])) &&
            (forall p :: p in n.writers ==> n.writers[p].fh in n.handles && n.writers[p].len == m.writers[p].len &&
                                             n.handles[n.writers[p].fh] == m.handles[m.writers[p].fh])
  {
    hide Inodes.Fits, SlotFits, PendingFits, FileFits, Alone, InSlot, Nameless;
    assert HandleFits(m, fh);
    var n := Released(m, fh, heir);
    forall o | o in m.objects
      ensures o in n.objects <==> Shared(n, o)
    {
      assert ObjectFits(m, o);
      var k :| k in m.handles && m.handles[k] == o;
      if o == m.handles[fh] {
        assert heir.Some? ==> n.handles[heir.value] == o;
      } else {
        assert n.handles[k] == o;
      }
    }
    forall p | p in m.writers
      ensures WriterFits(m, p)
    {
    }
    ReleaseWritersExactly(m, fh, heir);
  }

  lemma ReleaseWritersExactly(m: Mount, fh: nat, heir: Option<nat>)
    requires Fits(m) && IsHeir(m, fh, heir) && m.handles[fh] in m.objects
    ensures forall p :: p in m.writers ==> m.writers[p].fh in m.handles
    ensures var n := Released(m, fh, heir);
            (forall p :: p in n.writers <==> p in m.writers && Shared(n, m.handles[m.writers[p].fh])) &&
            (forall p :: p in n.writers ==> n.writers[p].fh in n.handles && n.writers[p].len == m.writers[p].len &&
                                             n.handles[n.writers[p].fh] == m.handles[m.writers[p].fh])
  {
    hide Inodes.Fits, SlotFits, PendingFits, FileFits, Alone, InSlot, Nameless;
    var n := Released(m, fh, heir);
    forall p | p in m.writers
      ensures WriterFits(m, p)
    {
    }
    forall p | p in m.writers
      ensures p in n.writers <==> Shared(n, m.handles[m.writers[p].fh])
    {
      var k := m.writers[p].fh;
      if k != fh {
        assert n.handles[k] == m.handles[k];
      } else if heir.Some? {
        assert n.handles[heir.value] == m.handles[k];
      }
    }
  }

  // ---------------------------------------------------------------- many at once

  /** What syncing the handles in `among` leaves as it is. */
  ghost predicate SyncedAmong(m: Mount, n: Mount, among: set<nat>) {
    n == m.(files := n.files, objects := n.objects, pending := n.pending, confirmed := n.confirmed, uploads := n.uploads) &&
    n.objects.Keys == m.objects.Keys && n.files.Keys == m.files.Keys &&
    (forall o :: o in m.objects ==> SameHandle(m.objects[o], n.objects[o])) &&
    (forall o :: o in m.objects && o !in among ==> n.objects[o] == m.objects[o]) &&
    (forall f :: f in m.files ==> n.files[f].ino == m.files[f].ino && n.files[f].bytes == m.files[f].bytes)
  }

  /** Whether one handle can be synced does not depend on the others. */
  lemma SyncingAlike(m: Mount, n: Mount, among: set<nat>, o: nat, a: SyncAnswer)
    requires SyncedAmong(m, n, among) && o in m.objects && o !in among
    ensures o in n.objects && Syncing(n, o, a).ok == Syncing(m, o, a).ok
  {
    hide Uploaded, Confirmed, PollShows;
  }

  /** Nothing new is pending, and recorded identities stay or are those of the bytes. */
  ghost predicate PendingShrunk(m: Mount, n: Mount) {
    forall i :: i in n.pending ==>
      i in m.pending && n.pending[i] == m.pending[i] &&
      (m.pending[i] in m.files ==>
         m.pending[i] in n.files && n.files[m.pending[i]].bytes == m.files[m.pending[i]].bytes &&
         n.files[m.pending[i]].content in {m.files[m.pending[i]].content, Some(m.files[m.pending[i]].bytes)})
  }

  lemma SyncingShrinks(m: Mount, n: Mount, o: nat, a: SyncAnswer)
    requires PendingShrunk(m, n) && o in n.objects && Syncing(n, o, a).ok
    ensures PendingShrunk(m, Syncing(n, o, a).mount)
  {
    hide PollShows;
  }

  lemma NoneSynced(m: Mount)
    ensures SyncedAmong(m, m, {}) && Accounted(m, m) && PendingShrunk(m, m)
  {
  }

  lemma OneMoreSynced(m: Mount, n: Mount, q: Mount, among: set<nat>, o: nat)
    requires SyncedAmong(m, n, among) && SyncedOnly(n, q, o)
    ensures SyncedAmong(m, q, among + {o}) && q.objects.Keys == m.objects.Keys
  {
  }

  lemma SyncedKeys(m: Mount, n: Mount, among: set<nat>)
    requires SyncedAmong(m, n, among)
    ensures n.objects.Keys == m.objects.Keys && n.names == m.names
  {
  }

  /** Which handles a sync of some open handles is about: all, or the writers below a path. */
  predicate Concerned(h: Handle, below: Option<string>) {
    below.None? || (h.Write? && Within(h.path, below.value))
  }

  lemma SettledStays(n: Mount, q: Mount, o: nat, b: nat)
    requires SyncedOnly(n, q, o) && Settled(n, b) && b != o
    ensures Settled(q, b)
  {
  }

  lemma NamedStays(m: Mount, n: Mount, among: set<nat>, o: nat)
    requires SyncedAmong(m, n, among)
    ensures NamedWriter(m, o) <==> NamedWriter(n, o)
  {
  }

  lemma FewSynced(m: Mount, n: Mount, some: set<nat>, more: set<nat>)
    requires SyncedAmong(m, n, some) && some <= more
    ensures SyncedAmong(m, n, more)
  {
  }

  lemma SameConcern(m: Mount, n: Mount, among: set<nat>, o: nat, below: Option<string>)
    requires SyncedAmong(m, n, among) && o in m.objects
    ensures Concerned(m.objects[o], below) <==> Concerned(n.objects[o], below)
    ensures Concerned(n.objects[o], below) <==> below.None? || (n.objects[o].Write? && Within(n.objects[o].path, below.value))
  {
  }

  lemma MoreSettled(m: Mount, n: Mount, q: Mount, done: set<nat>, o: nat, below: Option<string>)
    requires SyncedAmong(m, n, done) && SyncedOnly(n, q, o) && o in m.objects && o !in done && done <= m.objects.Keys
    requires forall b :: b in done && Concerned(m.objects[b], below) && NamedWriter(m, b) ==> Settled(n, b)
    ensures forall b :: b in done && Concerned(m.objects[b], below) && NamedWriter(m, b) ==> Settled(q, b)
    ensures NamedWriter(m, o) <==> NamedWriter(n, o)
  {
    hide Concerned, Settled;
    NamedStays(m, n, done, o);
    forall b | b in done && Concerned(m.objects[b], below) && NamedWriter(m, b)
      ensures Settled(q, b)
    {
      SettledStays(n, q, o, b);
    }
  }

  lemma AllConcerned(m: Mount, n: Mount, guarded: set<nat>, below: Option<string>)
    requires SyncedAmong(m, n, guarded) && guarded <= m.objects.Keys
    requires forall o :: o in guarded && Concerned(m.objects[o], below) && NamedWriter(m, o) ==> Settled(n, o)
    ensures forall o :: o in guarded && Concerned(n.objects[o], below) && NamedWriter(n, o) ==> Settled(n, o)
  {
    hide Concerned, Settled;
    forall o | o in guarded && Concerned(n.objects[o], below) && NamedWriter(n, o)
      ensures Settled(n, o)
    {
      SameConcern(m, n, guarded, o, below);
      NamedStays(m, n, guarded, o);
    }
  }

  lemma AllAccounted(m: Mount, n: Mount)
    requires Accounted(m, n) && n.pending == map[]
    ensures forall i :: i in m.pending ==> m.pending[i] in n.confirmed
  {
  }

  lemma AllSettled(m: Mount, n: Mount)
    requires n.objects == m.objects && n.files.Keys == m.files.Keys
    requires forall o :: o in m.objects.Keys && Concerned(m.objects[o], None) && NamedWriter(m, o) ==> Settled(m, o)
    ensures forall o :: o in n.objects && NamedWriter(n, o) ==> Settled(n, o)
  {
  }

  lemma RecheckAccounts(m: Mount, path: string, i: nat, stat: StatReply)
    requires Fits(m) && i in m.pending && m.pending[i] in m.files && m.files[m.pending[i]].ino == i
    requires stat.Found? && stat.committed && stat.current.Some? && m.files[m.pending[i]].content == stat.current
    ensures var n := Rechecking(m, path, m.pending[i], stat).mount;
            Accounted(m, n) && n.pending == m.pending - {i} && n.objects == m.objects && n.files.Keys == m.files.Keys
  {
  }

  /** A pending file whose own content the status shows committed. */
  predicate ShownCommitted(m: Mount, i: nat, stat: StatReply) {
    i in m.pending && m.pending[i] in m.files && stat == Found(true, Some(m.files[m.pending[i]].bytes))
  }

  /** The status settles a pending entry: the file has a name and a recorded content
      identity, and exactly that content is shown committed. */
  predicate Settles(m: Mount, i: nat, stat: StatReply) {
    i in m.pending && m.pending[i] in m.files && PathOf(m.names, i).Some? && m.files[m.pending[i]].content.Some? &&
    stat == Found(true, m.files[m.pending[i]].content)
  }

  lemma SettlesAlike(m: Mount, n: Mount, done: set<nat>, stats: nat -> StatReply, i: nat)
    requires SettledAmong(m, n, done, stats) && i in n.pending
    ensures i in m.pending && (Settles(n, i, stats(i)) <==> Settles(m, i, stats(i)))
  {
  }

  /** Every pending entry is settled by its status. */
  ghost predicate AllSettle(m: Mount, stats: nat -> StatReply) {
    forall i :: i in m.pending ==> Settles(m, i, stats(i))
  }

  lemma AllStillSettle(m: Mount, n: Mount, stats: nat -> StatReply)
    requires Fits(m) && AllSettle(m, stats) && PendingShrunk(m, n) && n.names == m.names
    ensures AllSettle(n, stats)
  {
    hide Inodes.Fits, ObjectFits;
    forall i | i in n.pending
      ensures Settles(n, i, stats(i))
    {
      assert Settles(m, i, stats(i));
      assert FileFits(m, m.pending[i]);
    }
  }

  lemma SettlesByContent(m: Mount, i: nat, stats: nat -> StatReply)
    requires i in m.pending && m.pending[i] in m.files && AllSettle(m, stats)
    ensures PathOf(m.names, i).Some? && stats(i).Found? && stats(i).committed && stats(i).current.Some? &&
            m.files[m.pending[i]].content == stats(i).current
  {
    assert Settles(m, i, stats(i));
  }

  lemma RecheckSettles(m: Mount, path: string, i: nat, stats: nat -> StatReply)
    requires i in m.pending && m.pending[i] in m.files && m.files[m.pending[i]].ino == i
    requires stats(i).Found? && stats(i).committed && stats(i).current.Some? && m.files[m.pending[i]].content == stats(i).current
    ensures AllSettle(m, stats) ==> AllSettle(Rechecking(m, path, m.pending[i], stats(i)).mount, stats)
  {
  }

  /** The pending entries in `done` are gone, each shown committed. */
  ghost predicate SettledAmong(m: Mount, n: Mount, done: set<nat>, stats: nat -> StatReply) {
    n == m.(pending := m.pending - done, confirmed := n.confirmed) && m.confirmed.Keys <= n.confirmed.Keys &&
    forall i :: i in done && i in m.pending ==> Settles(m, i, stats(i)) && ShownCommitted(m, i, stats(i)) && m.pending[i] in n.confirmed
  }

  lemma NoneSettled(m: Mount, stats: nat -> StatReply)
    ensures SettledAmong(m, m, {}, stats)
  {
    assert m.pending - {} == m.pending;
  }

  lemma OneMoreSettled(m: Mount, n: Mount, done: set<nat>, stats: nat -> StatReply, path: string, i: nat)
    requires SettledAmong(m, n, done, stats) && ShownCommitted(n, i, stats(i)) && Settles(n, i, stats(i))
    ensures SettledAmong(m, SettledPending(n, path, i), done + {i}, stats)
  {
    assert m.pending - done - {i} == m.pending - (done + {i});
  }

  lemma NothingToSettle(m: Mount, n: Mount, done: set<nat>, stats: nat -> StatReply, i: nat)
    requires SettledAmong(m, n, done, stats) && i !in n.pending
    ensures SettledAmong(m, n, done + {i}, stats)
  {
    assert m.pending - done == m.pending - (done + {i});
  }

  lemma SettledMeans(m: Mount, n: Mount, done: set<nat>, stats: nat -> StatReply)
    requires SettledAmong(m, n, done, stats)
    ensures n == m.(pending := n.pending, confirmed := n.confirmed) && Accounted(m, n)
    ensures forall i :: i in done ==> i !in n.pending && (i in m.pending ==> ShownCommitted(m, i, stats(i)) && m.pending[i] in n.confirmed)
    ensures forall i :: i in done && i in m.pending ==> Settles(m, i, stats(i))
  {
  }

  lemma ShownByContent(m: Mount, i: nat, stat: StatReply)
    requires Fits(m) && i in m.pending && m.pending[i] in m.files
    requires stat.Found? && stat.committed && stat.current.Some? && m.files[m.pending[i]].content == stat.current
    ensures ShownCommitted(m, i, stat)
  {
    FileIsSound(m, m.pending[i]);
  }

  datatype RenameReply = Refused | Unclear | Done

  lemma AreApart(parent: string, name: string, newParent: string, newName: string)
    requires name != "" && newName != ""
    requires !Within(Join(parent, name), Join(newParent, newName)) && !Within(Join(newParent, newName), Join(parent, name))
    ensures Apart(Join(parent, name), Join(newParent, newName))
  {
  }

  /** Path table, inode records, writer table and open write handles, all with the
      same prefix substitution; the old name's inode now has the new name. */
  ghost predicate MovedAll(m: Mount, n: Mount, from: string, to: string) {
    && Apart(from, to)
    && n.names == RenamedNames(m.names, from, to) && n.writers == Substitute(m.writers, from, to)
    && n.objects.Keys == m.objects.Keys
    && (forall o :: o in m.objects ==> SameHandle(RenamedHandle(m.objects[o], from, to), n.objects[o]))
    && (from in m.names.byPath ==> Name(n, to) == Some(m.names.byPath[from]))
  }

  ghost predicate RenameDone(m: Mount, n: Mount, above: Option<string>, name: string, below: Option<string>, newName: string, noReplace: bool) {
    above.Some? && below.Some? &&
    var from, to := Join(above.value, name), Join(below.value, newName);
    if from == to then !noReplace && n == Named(m, from) else MovedAll(Named(m, from), n, from, to)
  }

  /** When a rename must succeed: both directories are known, neither entry lies within the
      other, what has to be synced and settled is, and the backend does it. */
  ghost predicate RenamePossible(m: Mount, parent: nat, name: string, newParent: nat, newName: string, noReplace: bool, attr: bool,
                            sync: nat -> SyncAnswer, stats: nat -> StatReply, reply: RenameReply) {
    !m.uncertain && attr && PathOf(m.names, parent).Some? && PathOf(m.names, newParent).Some? &&
    var from, to := Join(PathOf(m.names, parent).value, name), Join(PathOf(m.names, newParent).value, newName);
    if from == to then !noReplace
    else !Within(from, to) && !Within(to, from) && GoodAnswers(Named(m, from), from, to, sync, stats) && reply.Done?
  }

  /** In terms of directory entries: the inode that stood at the old entry stands at the
      new one, with everything below it. */
  ghost predicate EntryTaken(m: Mount, n: Mount, above: string, name: string, below: string, newName: string) {
    IsPath(above) && IsPath(below) && IsName(name) && IsName(newName) ==>
      var from, to := Components(above) + [name], Components(below) + [newName];
      var named := Named(m, Spell(from));
      EntryAt(n.names.byPath, to) == Some(Inodes.Ino(m.names, Spell(from))) &&
      (if from == to then n == named else !(from <= to) && !(to <= from) && TreeMoved(named, n, from, to))
  }

  lemma EntryIsMoved(m: Mount, n: Mount, above: string, name: string, below: string, newName: string, noReplace: bool)
    requires RenameDone(m, n, Some(above), name, Some(below), newName, noReplace) && Fits(m)
    ensures EntryTaken(m, n, above, name, below, newName)
  {
    hide Fits, Components, IsPath, Substitute, Within, Spell, TreeMoved, Apart, RenamedNames;
    if IsPath(above) && IsPath(below) && IsName(name) && IsName(newName) {
      var from, to := Components(above) + [name], Components(below) + [newName];
      JoinGoesDown(above, name);
      JoinGoesDown(below, newName);
      PathIsSpelled(above);
      PathIsSpelled(below);
      NotTheRoot(from);
      NameKeeps(m, Spell(from));
      if from == to {
      } else {
        SpellIsInjective2(from, to);
        ApartByNames(from, to);
        RenamedByNames(Named(m, Spell(from)), n, from, to);
      }
    }
  }

  lemma NotTheRoot(cs: seq<string>)
    requires AllNames(cs) && cs != []
    ensures Spell(cs) != Inodes.ROOT_PATH
  {
    TailIsLonger(cs);
  }

  lemma SpellIsInjective2(cs: seq<string>, ds: seq<string>)
    requires AllNames(cs) && AllNames(ds) && cs != ds
    ensures Spell(cs) != Spell(ds)
  {
    if Spell(cs) == Spell(ds) { SpellIsInjective(cs, ds); }
  }

  lemma RenamedByNames(m: Mount, n: Mount, from: seq<string>, to: seq<string>)
    requires AllNames(from) && AllNames(to) && from != [] && to != [] && MovedAll(m, n, Spell(from), Spell(to)) && Spell(from) in m.names.byPath
    ensures TreeMoved(m, n, from, to) && EntryAt(n.names.byPath, to) == EntryAt(m.names.byPath, from)
  {
    hide Substitute, Within, Spell, TreeMoved, Apart;
    RenameMovesTree(m, n, from, to);
  }

  lemma MovesAll(m: Mount, n: Mount, from: string, to: string)
    requires Apart(from, to) && n.names == m.names && n.writers == m.writers && n.objects.Keys == m.objects.Keys
    requires forall o :: o in m.objects ==> SameHandle(m.objects[o], n.objects[o])
    ensures MovedAll(m, Renamed(n, from, to), from, to)
  {
    hide Substitute, Within, Apart;
    MovedToItself(from, to);
    SubstituteAt(m.names.byPath, from, to, to);
  }

  lemma MovedToItself(from: string, to: string)
    ensures Within(to, to) && Within(from, from) && Moved(to, to, from) == from && Moved(from, from, to) == to
  {
  }

  lemma GuardedIsOpen(m: Mount, from: string, to: string)
    ensures Guarded(m, from, to) <= m.objects.Keys
  {
  }

  lemma GuardedSame(m: Mount, n: Mount, from: string, to: string)
    requires Fits(m) && Fits(n) && Kept(m, n) && n.names == m.names && n.objects.Keys == m.objects.Keys
    requires forall o :: o in m.objects ==> SameHandle(m.objects[o], n.objects[o])
    ensures Guarded(n, from, to) == Guarded(m, from, to)
  {
    hide Inodes.Fits, Affected, FileFits;
    forall o | o in m.objects
      ensures o in Guarded(n, from, to) <==> o in Guarded(m, from, to)
    {
      HandleIsLive(m, o);
      assert FileKept(m, n, m.objects[o].file);
    }
  }

  /** Every write handle below the old path can be synced. */
  ghost predicate WritersSync(m: Mount, from: string, to: string, sync: nat -> SyncAnswer) {
    forall o :: o in Guarded(m, from, to) && Concerned(m.objects[o], Some(from)) ==> Syncing(m, o, sync(o)).ok
  }

  /** ... and every upload pending below either path is shown committed. */
  ghost predicate GoodAnswers(m: Mount, from: string, to: string, sync: nat -> SyncAnswer, stats: nat -> StatReply) {
    WritersSync(m, from, to, sync) && forall i :: i in Affected(m.names, from, to) && i in m.pending ==> Settles(m, i, stats(i))
  }

  lemma StillSettles(m: Mount, n: Mount, from: string, to: string, sync: nat -> SyncAnswer, stats: nat -> StatReply)
    requires Fits(m) && GoodAnswers(m, from, to, sync, stats) && PendingShrunk(m, n) && n.names == m.names
    ensures forall i :: i in Affected(n.names, from, to) && i in n.pending ==> Settles(n, i, stats(i))
  {
    hide Affected, Guarded, Syncing, Concerned, Inodes.Fits, ObjectFits;
    forall i | i in Affected(n.names, from, to) && i in n.pending
      ensures Settles(n, i, stats(i))
    {
      assert Settles(m, i, stats(i));
      assert FileFits(m, m.pending[i]);
    }
  }

  lemma UncertainKeeps(m: Mount)
    requires Fits(m)
    ensures Fits(m.(uncertain := true)) && Kept(m, m.(uncertain := true))
  {
    hide Inodes.Fits, ObjectFits;
    var n := m.(uncertain := true);
    forall f | f in n.files
      ensures FileFits(n, f)
    {
      assert FileFits(m, f);
    }
    SamePlaces(m, n);
    SamePending(m, n);
    assert forall g :: Awaited(n, g) <==> Awaited(m, g);
    HarmlessKeeps(m, n);
  }

  lemma NoneDone(m: Mount, from: string, to: string)
    ensures SomeHandles(m, {}, from, to) == m.objects && SomeFiles(m, {}, from) == m.files
  {
  }

  lemma OneMoreDone(m: Mount, done: set<nat>, from: string, to: string, o: nat)
    requires Fits(m) && o in m.objects && o !in done
    ensures o in SomeHandles(m, done, from, to) && SomeHandles(m, done, from, to)[o] == m.objects[o]
    ensures SomeHandles(m, done + {o}, from, to) == SomeHandles(m, done, from, to)[o := RenamedHandle(m.objects[o], from, to)]
    ensures var f := m.objects[o].file;
            var files := SomeFiles(m, done, from);
            f in files && f in m.files &&
            SomeFiles(m, done + {o}, from) ==
              if m.objects[o].Write? && Within(m.objects[o].path, from) && files[f].createOnly.Some?
              then files[f := files[f].(createOnly := Some(false))] else files
  {
    hide Fits, Within;
    HandleIsLive(m, o);
    forall f | f in m.files
      ensures MovesAmong(m, done + {o}, f, from) <==>
                MovesAmong(m, done, f, from) || (m.objects[o].Write? && m.objects[o].file == f && Within(m.objects[o].path, from))
    {
      if m.objects[o].Write? && m.objects[o].file == f && Within(m.objects[o].path, from) {
        assert o in done + {o};
      }
    }
  }

  class TapeFs {
    var names: Inodes.Tables
    var files: map<nat, CachedFile>
    var slots: map<nat, nat>
    var objects: map<nat, Handle>
    var handles: map<nat, nat>
    var pending: map<nat, nat>
    var writers: map<string, Writer>
    var next: nat
    var uncertain: bool
    ghost var confirmed: map<nat, Report>
    ghost var uploads: seq<Upload>

    ghost function Value(): Mount
      reads this
    {
      Mount(names, files, slots, objects, handles, pending, writers, next, uncertain, confirmed, uploads)
    }

    constructor ()
      ensures Value() == EMPTY && Fits(Value())
    {
      names, files, slots, objects := Inodes.NO_INODES, map[], map[], map[];
      handles, pending, writers, next, uncertain := map[], map[], map[], 1, false;
      confirmed, uploads := map[], [];
    }

    // ------------------------------------------------------------- uploading

    /** Send the content of a named write handle to the backend, and note the result. */
    method Send(o: nat, reply: UploadReply) returns (committed: Option<bool>)
      requires NamedWriter(Value(), o)
      modifies this
      ensures Value() == Uploaded(old(Value()), o, reply)
      ensures committed == if reply.Accepted? then Some(reply.committed) else None
    {
      var f, path := objects[o].file, objects[o].path;
      var c := files[f];
      pending := pending[c.ino := f];
      if reply.NotSent? { return None; }
      uploads := uploads + [Upload(o, path, c.bytes)];
      if reply.SendFailed? { return None; }
      c := c.(content := Some(c.bytes), createOnly := Some(false));
      if reply.committed {
        confirmed := confirmed[f := Report(path, c.bytes, false)];
        c := c.(unconfirmed := false);
        pending := pending - {c.ino};
      }
      files := files[f := c];
      objects := objects[o := objects[o].(dirty := false, uploaded := true, committed := reply.committed)];
      return Some(reply.committed);
    }

    /** Poll the backend until a settled status decides: Ok only if it shows exactly the
        handle's bytes committed under its name. */
    method AwaitCommit(o: nat, polls: seq<StatReply>) returns (ok: bool)
      requires NamedWriter(Value(), o)
      modifies this
      ensures ok <==> PollShows(polls, old(FileOf(Value(), o).bytes))
      ensures Value() == if ok then Confirmed(old(Value()), o) else old(Value())
    {
      var bytes := files[objects[o].file].bytes;
      var i := 0;
      while i < |polls|
        invariant i <= |polls| && Value() == old(Value())
        invariant PollShows(polls, bytes) <==> PollShows(polls[i..], bytes)
      {
        var reply := polls[i];
        if reply.StatFailed? || reply.Absent? { return false; }
        if reply.committed {
          if reply.current != Some(bytes) { return false; }
          Confirm(o);
          return true;
        }
        i := i + 1;
      }
      return false;
    }

    method Confirm(o: nat)
      requires NamedWriter(Value(), o)
      modifies this
      ensures Value() == Confirmed(old(Value()), o)
    {
      var f := objects[o].file;
      objects := objects[o := objects[o].(committed := true)];
      pending := pending - {files[f].ino};
      confirmed := confirmed[f := Report(objects[o].path, files[f].bytes, false)];
      files := files[f := files[f].(unconfirmed := false)];
    }

    /** Upload if needed and wait until the content is committed. */
    method SyncHandle(o: nat, a: SyncAnswer) returns (ok: bool)
      requires Fits(Value()) && o in objects
      modifies this
      ensures Value() == Syncing(old(Value()), o, a).mount && ok == Syncing(old(Value()), o, a).ok
      ensures Fits(Value()) && Kept(old(Value()), Value())
      ensures ok && old(NamedWriter(Value(), o)) ==> Settled(Value(), o)
      ensures ok && old(NamedWriter(Value(), o) && !Settled(Value(), o)) ==>
                old(AnsweredFor(Value(), o, a)) &&
                ReportOn(Value(), old(objects)[o].file) == Some(Report(old(objects)[o].path, old(FileOf(Value(), o).bytes), false))
    {
      hide Fits, Kept, Live, Uploaded, Confirmed, PollShows;
      SyncingKeeps(Value(), o, a);
      HandleIsLive(Value(), o);
      if NamedWriter(Value(), o) && Syncing(Value(), o, a).ok { SyncingConfirms(Value(), o, a); }
      if uncertain { return false; }
      if objects[o].Read? { return true; }
      if objects[o].path == "" { return a.disk; }
      if objects[o].committed && !objects[o].dirty { return true; }
      if !a.disk { return false; }
      if objects[o].dirty || !objects[o].uploaded {
        var committed := Send(o, a.reply);
        return committed == Some(true);
      }
      ok := AwaitCommit(o, a.polls);
    }

    /** fsync: Ok on a trusted handle means that the backend has reported exactly its
        bytes committed, since they last changed. */
    method Fsync(fh: nat, a: SyncAnswer) returns (ok: bool)
      requires Fits(Value())
      modifies this
      ensures Fits(Value()) && Kept(old(Value()), Value())
      ensures fh !in old(handles) ==> !ok && Value() == old(Value())
      ensures fh in old(handles) && old(handles)[fh] in old(objects) ==>
                Value() == Syncing(old(Value()), old(handles)[fh], a).mount && ok == Syncing(old(Value()), old(handles)[fh], a).ok
      ensures ok && old(Trusted(Value(), fh)) ==> Archived(Value(), fh)
    {
      hide Fits, Kept, Live, Honest, NamedWriter, Settled, Syncing;
      if fh !in handles {
        KeptIsReflexive(Value());
        return false;
      }
      FhFits(Value(), fh);
      if Trusted(Value(), fh) && Syncing(Value(), handles[fh], a).ok { SyncedIsArchived(Value(), fh, a); }
      ok := SyncHandle(handles[fh], a);
    }

    /** close: send the content to be staged; not waiting for the commit. */
    method Flush(fh: nat, reply: UploadReply, disk: bool) returns (ok: bool)
      requires Fits(Value())
      modifies this
      ensures Value() == Flushing(old(Value()), fh, reply, disk).mount && ok == Flushing(old(Value()), fh, reply, disk).ok
      ensures Fits(Value()) && Kept(old(Value()), Value())
      ensures ok && old(fh in handles && NamedWriter(Value(), handles[fh])) ==>
                fh in handles && NamedWriter(Value(), handles[fh]) && !objects[handles[fh]].dirty && objects[handles[fh]].uploaded
    {
      hide Fits, Kept, Live;
      FlushingKeeps(Value(), fh, reply, disk);
      if uncertain || fh !in handles { return false; }
      FhFits(Value(), fh);
      var o := handles[fh];
      HandleIsLive(Value(), o);
      if objects[o].Read? { return true; }
      if objects[o].path == "" { return disk; }
      if !objects[o].dirty && objects[o].uploaded { return true; }
      if !disk { return false; }
      var committed := Send(o, reply);
      return committed.Some?;
    }

    // ------------------------------------------------------ changing content

    /** write; `failure` is the content the local disk is left with if the write fails. */
    method WriteBytes(fh: nat, offset: nat, data: Bytes, failure: Option<Bytes>) returns (ok: bool)
      requires Fits(Value())
      modifies this
      ensures Fits(Value()) && Kept(old(Value()), Value())
      ensures ok <==> old(Writable(Value(), fh)) && offset + |data| <= MAX_SIZE && failure.None?
      ensures ok ==> Value() == Changed(old(Value()), old(handles)[fh], WriteAt(old(FileOf(Value(), handles[fh])).bytes, offset, data),
                                        Larger(old(objects)[old(handles)[fh]].len, offset + |data|))
      ensures !ok && old(Writable(Value(), fh)) && offset + |data| <= MAX_SIZE ==>
                failure.Some? && Value() == Damaged(old(Value()), old(handles)[fh], failure.value)
      ensures !old(Writable(Value(), fh)) || offset + |data| > MAX_SIZE ==> Value() == old(Value())
    {
      hide Fits, Kept, Live;
      ghost var m := Value();
      KeptIsReflexive(m);
      if uncertain || fh !in handles { return false; }
      FhFits(m, fh);
      var o := handles[fh];
      HandleIsLive(m, o);
      var h := objects[o];
      if h.Read? { return false; }
      var end := offset + |data|;
      if end > MAX_SIZE { return false; }
      var c := files[h.file].(unconfirmed := true, content := None);
      h := h.(dirty := true, committed := false);
      confirmed := confirmed - {h.file};
      if failure.Some? {
        DamageKeeps(m, o, failure.value);
        files, objects := files[h.file := c.(bytes := failure.value)], objects[o := h];
        return false;
      }
      c := c.(bytes := WriteAt(c.bytes, offset, data));
      h := h.(len := if h.len < end then end else h.len);
      ChangeKeeps(m, o, c.bytes, h.len);
      files, objects := files[h.file := c], objects[o := h];
      if h.path in writers { writers := writers[h.path := writers[h.path].(len := h.len)]; }
      return true;
    }

    /** Truncate or extend the file a path is open for writing on. */
    method TruncateNamed(path: string, size: nat, disk: bool) returns (ok: bool)
      requires Fits(Value()) && path in writers
      modifies this
      ensures Value() == Truncating(old(Value()), path, size, disk).mount && ok == Truncating(old(Value()), path, size, disk).ok
    {
      hide Fits;
      WriterIsOpen(Value(), path);
      var o := handles[writers[path].fh];
      var h := objects[o];
      if size == h.len { return true; }
      if size > MAX_SIZE { return false; }
      var c := files[h.file].(unconfirmed := true, content := None);
      h := h.(dirty := true, committed := false);
      confirmed := confirmed - {h.file};
      if !disk {
        files, objects := files[h.file := c], objects[o := h];
        return false;
      }
      c := c.(bytes := Resize(c.bytes, size));
      h := h.(len := size);
      files, objects := files[h.file := c], objects[o := h];
      writers := writers[path := writers[path].(len := size)];
      return true;
    }

    // ------------------------------------------------------------------ close

    /** A file handle is closed. If it stood in the writer table, a surviving
        alias takes its place there. */
    method Release(fh: nat)
      requires Fits(Value())
      modifies this
      ensures Fits(Value()) && Kept(old(Value()), Value())
      ensures fh !in old(handles) ==> Value() == old(Value())
      ensures fh in old(handles) ==>
                exists heir :: IsHeir(old(Value()), fh, heir) && old(handles[fh] in objects) && Value() == Released(old(Value()), fh, heir)
    {
      hide Fits, Kept, Live, IsHeir;
      ghost var m := Value();
      KeptIsReflexive(m);
      if fh !in handles { return; }
      FhFits(m, fh);
      var o := handles[fh];
      var heir := FindHeir(fh);
      ReleaseKeeps(m, fh, heir);
      var h := objects[o];
      handles := handles - {fh};
      if heir.None? { objects := objects - {o}; }
      if h.Write? && h.path in writers && writers[h.path].fh == fh {
        if heir.Some? {
          writers := writers[h.path := writers[h.path].(fh := heir.value)];
        } else {
          writers := writers - {h.path};
        }
      }
    }

    /** Another handle that shares the same open handle, if there is one. */
    method FindHeir(fh: nat) returns (heir: Option<nat>)
      requires fh in handles
      ensures IsHeir(Value(), fh, heir)
    {
      var aliases := set k | k in handles && k != fh && handles[k] == handles[fh];
      if aliases != {} {
        var k :| k in aliases;
        return Some(k);
      }
      NoAliasMeansNoHeir(Value(), fh, aliases);
      return None;
    }

    // ------------------------------------------------------------------- open

    /** open for reading. `attr`: the backend shows a plain file of this inode at
        the name; `fetched`: the downloaded bytes, if the download succeeds. */
    method OpenRead(ino: nat, attr: bool, stat: StatReply, fetched: Option<Bytes>) returns (r: Option<nat>)
      requires Fits(Value())
      modifies this
      ensures Value() == OpeningRead(old(Value()), ino, attr, stat, fetched).mount && r == OpeningRead(old(Value()), ino, attr, stat, fetched).fh
      ensures Fits(Value()) && Kept(old(Value()), Value())
    {
      hide Fits, Kept, OpeningNamed;
      OpeningReadKeeps(Value(), ino, attr, stat, fetched);
      var path := PathOf(names, ino);
      if path.None? || !attr || path.value !in names.byPath || names.byPath[path.value] != ino { return None; }
      r := ReadNamed(path.value, ino, stat, fetched);
    }

    method ReadNamed(path: string, ino: nat, stat: StatReply, fetched: Option<Bytes>) returns (r: Option<nat>)
      requires Fits(Value())
      modifies this
      ensures Value() == OpeningNamed(old(Value()), path, ino, stat, fetched).mount && r == OpeningNamed(old(Value()), path, ino, stat, fetched).fh
    {
      hide Fits, Live, Cached, OpeningCached, Downloaded, LocalFile;
      LocalIsCached(Value(), ino);
      var file := FindCached(ino);
      if file.Some? {
        r := ReadCached(path, file.value, stat);
      } else if stat.Found? && stat.current.Some? && fetched == stat.current {
        r := Download(path, ino, fetched.value);
      } else {
        r := None;
      }
    }

    /** A reader of the local file that is there already. */
    method ReadCached(path: string, f: nat, stat: StatReply) returns (r: Option<nat>)
      requires f in files
      modifies this
      ensures Value() == OpeningCached(old(Value()), path, f, stat).mount && r == OpeningCached(old(Value()), path, f, stat).fh
    {
      hide Rechecking, Handed;
      if path !in writers {
        var ok := Recheck(path, f, stat);
        if !ok { return None; }
      }
      r := HandRead(f);
    }

    method FindCached(ino: nat) returns (f: Option<nat>)
      ensures f == Cached(Value(), ino)
    {
      if ino !in slots { return None; }
      var g := slots[ino];
      if (exists o :: o in objects && objects[o].file == g) || (exists i :: i in pending && pending[i] == g) { return Some(g); }
      return None;
    }

    /** The local file of a reopened name must agree with what is committed there. */
    method Recheck(path: string, f: nat, stat: StatReply) returns (ok: bool)
      requires f in files
      modifies this
      ensures Value() == Rechecking(old(Value()), path, f, stat).mount && ok == Rechecking(old(Value()), path, f, stat).ok
    {
      if stat.StatFailed? { return false; }
      var c := files[f];
      if stat.Absent? {
        pending := pending - {c.ino};
        return false;
      }
      if stat.committed {
        pending := pending - {c.ino};
        SameEntry(files, f);
        if c.content.Some? && stat.current == c.content {
          files := files[f := c.(unconfirmed := false)];
          confirmed := confirmed[f := Report(path, c.bytes, false)];
        }
      }
      if c.content.None? { return false; }
      return !stat.committed || stat.current == c.content;
    }

    method HandRead(f: nat) returns (r: Option<nat>)
      modifies this
      ensures Value() == Handed(old(Value()), Read(f)) && r == Some(old(next) + 1)
    {
      next := next + 1;
      objects, handles := objects[next := Read(f)], handles[next := next];
      return Some(next);
    }

    /** A fresh local file with the downloaded content. */
    method Download(path: string, ino: nat, bytes: Bytes) returns (r: Option<nat>)
      modifies this
      ensures Value() == Downloaded(old(Value()), path, ino, bytes) && r == Some(old(next) + 2)
    {
      next := next + 1;
      files, slots := files[next := CachedFile(ino, bytes, Some(bytes), false, None)], slots[ino := next];
      confirmed := confirmed[next := Report(path, bytes, false)];
      assert Value() == Created(old(Value()), CachedFile(ino, bytes, Some(bytes), false, None), Some(Report(path, bytes, false)));
      r := HandRead(next);
    }

    /** The inner part of `open_for_write`: share the writer of the name if there is
        one, else open the inode's local file. `target`: the upload target could
        be captured. */
    method OpenWriter(path: string, ino: nat, createOnly: bool, truncate: bool, target: bool, disk: bool) returns (r: Option<nat>)
      requires Fits(Value()) && path != "" && (truncate || path in writers || Cached(Value(), ino).Some?)
      modifies this
      ensures Value() == OpeningWrite(old(Value()), path, ino, createOnly, truncate, target, disk).mount
      ensures r == OpeningWrite(old(Value()), path, ino, createOnly, truncate, target, disk).fh
      ensures Fits(Value()) && Kept(old(Value()), Value())
    {
      hide Fits, Kept, Live, Cached, Sharing, OpeningOwn;
      OpeningWriteKeeps(Value(), path, ino, createOnly, truncate, target, disk);
      if path !in names.byPath || names.byPath[path] != ino { return None; }
      if path in writers {
        r := ShareWriter(path, truncate, disk);
      } else {
        r := OpenOwnWriter(path, ino, createOnly, truncate, target, disk);
      }
    }

    /** A write handle of its own on the inode's local file, or on a new one when truncating. */
    method OpenOwnWriter(path: string, ino: nat, createOnly: bool, truncate: bool, target: bool, disk: bool) returns (r: Option<nat>)
      requires Fits(Value()) && (truncate || Cached(Value(), ino).Some?)
      modifies this
      ensures Value() == OpeningOwn(old(Value()), path, ino, createOnly, truncate, target, disk).mount
      ensures r == OpeningOwn(old(Value()), path, ino, createOnly, truncate, target, disk).fh
    {
      hide Fits, Live, Cached, LocalFile, OpenedForWrite, Doubted;
      LocalIsCached(Value(), ino);
      var file := FindCached(ino);
      if !target && (file.None? || files[file.value].createOnly.None?) { return None; }
      if truncate && !disk {
        if file.Some? { MarkUnconfirmed(file.value); }
        return None;
      }
      var fh := MakeWriter(path, ino, file, truncate, createOnly);
      return Some(fh);
    }

    /** Failed truncation on open: the content may no longer be what was confirmed. */
    method MarkUnconfirmed(f: nat)
      requires f in files
      modifies this
      ensures Value() == Doubted(old(Value()), f)
    {
      files := files[f := files[f].(unconfirmed := true)];
      confirmed := confirmed - {f};
    }

    /** A further handle on a name already open for writing. */
    method ShareWriter(path: string, truncate: bool, disk: bool) returns (r: Option<nat>)
      requires Fits(Value()) && path in writers
      modifies this
      ensures Value() == Sharing(old(Value()), path, truncate, disk).mount && r == Sharing(old(Value()), path, truncate, disk).fh
    {
      hide Fits, Kept, Live, Truncating, BytesKept, Released;
      ghost var m := Value();
      WriterIsOpen(m, path);
      NextIsFree(m);
      var o := handles[writers[path].fh];
      AliasKeeps(m, o);
      next := next + 1;
      var fh := next;
      handles := handles[fh := o];
      ghost var n := Value();
      assert n == Aliased(m, o);
      if truncate {
        TruncatingKeeps(n, path, 0, disk);
        TruncatingStays(n, path, 0, disk);
        var ok := TruncateNamed(path, 0, disk);
        if !ok {
          ghost var k := Value();
          WriterIsOpen(k, path);
          Release(fh);
          ghost var heir :| IsHeir(k, fh, heir) && k.handles[fh] in k.objects && Value() == Released(k, fh, heir);
          AliasReleased(k, path, fh, heir);
          return None;
        }
      }
      return Some(fh);
    }

    method MakeWriter(path: string, ino: nat, file: Option<nat>, truncate: bool, createOnly: bool) returns (fh: nat)
      requires file.Some? ==> file.value in files
      modifies this
      ensures Value() == OpenedForWrite(old(Value()), path, ino, file, truncate, createOnly) && fh == next
    {
      hide Handed, Prepared;
      var committed := !truncate && ino !in pending;
      PreparedFile(Value(), ino, file, truncate, createOnly);
      var f := PrepareFile(ino, file, truncate, createOnly);
      fh := HandWriter(Write(f, path, |files[f].bytes|, truncate, !truncate, committed));
    }

    method PrepareFile(ino: nat, file: Option<nat>, truncate: bool, createOnly: bool) returns (f: nat)
      requires file.Some? ==> file.value in files
      modifies this
      ensures Value() == Prepared(old(Value()), ino, file, truncate, createOnly)
      ensures f == if file.Some? then file.value else old(next) + 1
    {
      if file.None? {
        next := next + 1;
        f := next;
        files, slots := files[f := CachedFile(ino, [], None, true, Some(createOnly))], slots[ino := f];
      } else {
        f := file.value;
        var c := files[f];
        if c.createOnly.None? { c := c.(createOnly := Some(createOnly)); }
        if truncate {
          c := c.(unconfirmed := true, bytes := [], content := None);
          confirmed := confirmed - {f};
        }
        files := files[f := c];
      }
    }

    method HandWriter(h: Handle) returns (fh: nat)
      requires h.Write?
      modifies this
      ensures Value() == Handed(old(Value()), h) && fh == next
    {
      next := next + 1;
      fh := next;
      objects, handles := objects[fh := h], handles[fh := fh];
      writers := writers[h.path := Writer(fh, h.len)];
    }

    method AssignName(path: string) returns (ino: nat)
      requires Fits(Value())
      modifies this
      ensures Fits(Value()) && Kept(old(Value()), Value()) && Value() == Named(old(Value()), path)
      ensures ino == Inodes.Ino(old(names), path)
      ensures path != Inodes.ROOT_PATH ==> Name(Value(), path) == Some(ino)
    {
      hide Fits, Kept;
      NameKeeps(Value(), path);
      ino := Inodes.Ino(names, path);
      names := Inodes.Assign(names, path);
    }

    /** `open_for_write`: a non-truncating open first gets the whole old content,
        kept by a temporary reader until the write handle takes over. */
    method OpenForWrite(path: string, createOnly: bool, truncate: bool, attr: bool, stat: StatReply, fetched: Option<Bytes>,
                        target: bool, disk: bool) returns (r: Option<nat>)
      requires Fits(Value()) && path != ""
      modifies this
      ensures Value() == OpeningForWrite(old(Value()), path, createOnly, truncate, attr, stat, fetched, target, disk).mount
      ensures r == OpeningForWrite(old(Value()), path, createOnly, truncate, attr, stat, fetched, target, disk).fh
      ensures Fits(Value()) && Kept(old(Value()), Value())
    {
      hide Fits, Kept, Live, Cached, OpeningRead, OpeningWrite, LocalFile, Released, Named;
      OpeningForWriteKeeps(Value(), path, createOnly, truncate, attr, stat, fetched, target, disk);
      var ino := AssignName(path);
      var temporary: Option<nat> := None;
      LocalIsCached(Value(), ino);
      var file := FindCached(ino);
      ghost var k := Value();
      if !truncate && file.None? {
        temporary := OpenRead(ino, attr, stat, fetched);
        if temporary.None? { return None; }
        TemporaryIsAlone(k, ino, attr, stat, fetched);
        ReaderSees(k, ino, attr, stat, fetched);
        LocalIsCached(Value(), ino);
        WriteLeavesReader(Value(), path, ino, createOnly, truncate, target, disk, temporary.value);
      }
      r := OpenWriter(path, ino, createOnly, truncate, target, disk);
      if temporary.Some? {
        ghost var n := Value();
        Release(temporary.value);
        ghost var heir :| IsHeir(n, temporary.value, heir) && n.handles[temporary.value] in n.objects && Value() == Released(n, temporary.value, heir);
        ReaderReleased(n, temporary.value, heir);
      }
    }

    /** open, past the namespace lock. */
    method Open(ino: nat, write: bool, truncate: bool, attr: bool, stat: StatReply, fetched: Option<Bytes>, target: bool, disk: bool)
      returns (r: Option<nat>)
      requires Fits(Value())
      modifies this
      ensures Value() == OpeningFile(old(Value()), ino, write, truncate, attr, stat, fetched, target, disk).mount
      ensures r == OpeningFile(old(Value()), ino, write, truncate, attr, stat, fetched, target, disk).fh
      ensures Fits(Value()) && Kept(old(Value()), Value())
    {
      hide Fits, Kept, OpeningRead, OpeningForWrite;
      OpeningFileKeeps(Value(), ino, write, truncate, attr, stat, fetched, target, disk);
      if uncertain { return None; }
      var path := PathOf(names, ino);
      if path.None? || path.value == "" || path.value !in names.byPath || names.byPath[path.value] != ino || !attr { return None; }
      if !write {
        r := OpenRead(ino, attr, stat, fetched);
      } else {
        r := OpenForWrite(path.value, false, truncate, attr, stat, fetched, target, disk);
      }
    }

    /** create. `exists_`: the exclusive check found the name taken or failed; `still`:
        the parent is still there afterwards. */
    method Create(path: string, excl: bool, exists_: bool, target: bool, disk: bool, still: bool) returns (r: Option<nat>)
      requires Fits(Value()) && path != ""
      modifies this
      ensures Fits(Value()) && Kept(old(Value()), Value())
      ensures path in old(writers) || (excl && exists_) ==> r.None? && Value() == old(Value())
      ensures r.Some? <==>
                (path !in old(writers) && !(excl && exists_) && still &&
                 OpeningForWrite(old(Value()), path, excl, true, false, StatFailed, None, target, disk).fh.Some?)
      ensures r.Some? ==> r == OpeningForWrite(old(Value()), path, excl, true, false, StatFailed, None, target, disk).fh
      ensures r.Some? ==> Value() == OpeningForWrite(old(Value()), path, excl, true, false, StatFailed, None, target, disk).mount
    {
      hide Fits, Kept, OpeningForWrite;
      ghost var m := Value();
      KeptIsReflexive(m);
      if path in writers || (excl && exists_) { return None; }
      r := OpenForWrite(path, excl, true, false, StatFailed, None, target, disk);
      if r.Some? && !still {
        ghost var k := Value();
        Release(r.value);
        KeptIsTransitive(m, k, Value());
        return None;
      }
    }

    /** truncate without a file handle; with no writer open it opens one, uploads
        the change and closes it again. `attr`: the size the backend shows. */
    method Truncate(ino: nat, size: nat, attr: Option<nat>, shown: bool, stat: StatReply, fetched: Option<Bytes>, target: bool,
                    disk: bool, reply: UploadReply) returns (ok: bool)
      requires Fits(Value())
      modifies this
      ensures Value() == TruncatingInode(old(Value()), ino, size, attr, shown, stat, fetched, target, disk, reply).mount
      ensures ok == TruncatingInode(old(Value()), ino, size, attr, shown, stat, fetched, target, disk, reply).ok
      ensures Fits(Value()) && Kept(old(Value()), Value())
      ensures PathOf(old(names), ino).Some? ==> BytesKept(old(Value()), Value(), Inodes.Ino(old(names), PathOf(old(names), ino).value))
    {
      hide Fits, Kept, Live, Truncating, OpeningForWrite, Flushing, Released, JustMade, Named, BytesKept;
      ghost var m := Value();
      TruncatingInodeKeeps(m, ino, size, attr, shown, stat, fetched, target, disk, reply);
      if PathOf(names, ino).Some? { TruncationReaches(m, ino, size, attr, shown, stat, fetched, target, disk, reply); }
      var name := PathOf(names, ino);
      if uncertain || name.None? || name.value == "" { return false; }
      var path := name.value;
      if path in writers {
        ok := TruncateNamed(path, size, disk);
        return;
      }
      if attr.None? { return false; }
      if attr.value == size {
        var same := AssignName(path);
        return true;
      }
      var fh := OpenForWrite(path, false, false, shown, stat, fetched, target, disk);
      if fh.None? { return false; }
      ReopenedForWrite(m, path, shown, stat, fetched, target, disk);
      ok := TruncateAndClose(fh.value, path, size, disk, reply, Inodes.Ino(m.names, path), Base(m, Inodes.Ino(m.names, path), fetched));
    }

    /** Truncate, flush and close through a writer just made. */
    method TruncateAndClose(fh: nat, path: string, size: nat, disk: bool, reply: UploadReply, ghost ino: nat, ghost base: Option<Bytes>)
      returns (ok: bool)
      requires Fits(Value()) && JustMade(Value(), fh, path, ino, base)
      modifies this
      ensures Value() == TruncatingRest(old(Value()), fh, path, size, disk, reply).mount
      ensures ok == TruncatingRest(old(Value()), fh, path, size, disk, reply).ok
    {
      hide Fits, Kept, Live, Truncating, Flushing, Released;
      ghost var k := Value();
      TruncatingKeeps(k, path, size, disk);
      LastOneIsClosed(k, fh, path, ino, base, size, disk, reply);
      ok := TruncateNamed(path, size, disk);
      if ok { ok := Flush(fh, reply, disk); }
      ghost var n := Value();
      Release(fh);
      ghost var heir :| IsHeir(n, fh, heir) && n.handles[fh] in n.objects && Value() == Released(n, fh, heir);
      LastReleased(n, fh, heir);
    }

    // ------------------------------------------------------------ unlink, rmdir

    /** unlink: refused while the name is open for writing; the inode record stays, and
        so does every other name. */
    method Unlink(path: string, attr: bool, isDirectory: bool, deleted: bool) returns (ok: bool)
      requires Fits(Value())
      modifies this
      ensures Fits(Value()) && Kept(old(Value()), Value())
      ensures Value() == Unlinking(old(Value()), path, attr, isDirectory, deleted).mount
      ensures ok == Unlinking(old(Value()), path, attr, isDirectory, deleted).ok
    {
      hide Fits, Kept, Named, Unlinked, Inodes.Ino;
      UnlinkingKeeps(Value(), path, attr, isDirectory, deleted);
      if uncertain || !attr { return false; }
      ghost var m := Value();
      var ino := AssignName(path);
      if !MayUnlink(names, writers.Keys, path, ino, isDirectory) || !deleted { return false; }
      DropName(m, path, ino);
      return true;
    }

    method DropName(ghost m: Mount, path: string, ino: nat)
      requires Value() == Named(m, path) && ino == Inodes.Ino(m.names, path)
      modifies this
      ensures Value() == Unlinked(m, path)
    {
      hide Named, Inodes.Ino;
      NameMovesNothing(m, path);
      names := names.(byPath := names.byPath - {path});
      pending := pending - {ino};
    }

    /** rmdir: an open writer shows as a plain file, so it is refused there too. */
    method Rmdir(path: string, attr: bool, removed: bool) returns (ok: bool)
      requires Fits(Value())
      modifies this
      ensures Fits(Value()) && Kept(old(Value()), Value())
      ensures ok <==> !old(uncertain) && attr && removed && path !in old(writers)
      ensures ok ==> Value() == Unnamed(Named(old(Value()), path), path)
      ensures !ok ==> Value() == old(Value()) || Value() == Named(old(Value()), path)
    {
      hide Fits, Kept;
      ghost var m := Value();
      KeptIsReflexive(m);
      if uncertain || !attr || path in writers { return false; }
      var ino := AssignName(path);
      if !removed { return false; }
      ghost var k := Value();
      UnnameKeeps(k, path);
      names := names.(byPath := names.byPath - {path});
      KeptIsTransitive(m, k, Value());
      return true;
    }

    // ------------------------------------------------------------- sync of all

    /** Sync of the mount: every open writer, the backend, then every pending file. Ok
        leaves every named write handle settled and nothing pending, and the content of
        every file that was pending has been reported committed. */
    method SyncRoot(sync: nat -> SyncAnswer, backend: bool, stats: nat -> StatReply) returns (ok: bool)
      requires Fits(Value())
      modifies this
      ensures Fits(Value()) && Kept(old(Value()), Value())
      ensures ok ==> pending == map[] && forall o :: o in objects && NamedWriter(Value(), o) ==> Settled(Value(), o)
      ensures ok ==> forall i :: i in old(pending) ==> old(pending)[i] in confirmed
      ensures backend && (forall o :: o in old(objects) ==> Syncing(old(Value()), o, sync(o)).ok) && AllSettle(old(Value()), stats) ==> ok
    {
      hide Fits, Kept, Live, Within, Accounted, SyncedAmong, Settled, NamedWriter, Syncing, AllSettle, PendingShrunk;
      ghost var m := Value();
      ok := SyncAll(objects.Keys, None, sync);
      if !ok || !backend { return false; }
      ghost var s := Value();
      SyncedKeys(m, s, m.objects.Keys);
      if AllSettle(m, stats) { AllStillSettle(m, s, stats); }
      ok := ConfirmPending(stats);
      KeptIsTransitive(m, s, Value());
      AccountedChain(m, s, Value());
      if ok {
        AllSettled(s, Value());
        AllAccounted(m, Value());
      }
    }

    /** The second half: every pending file must show its own content committed. */
    method ConfirmPending(stats: nat -> StatReply) returns (ok: bool)
      requires Fits(Value())
      modifies this
      ensures Fits(Value()) && Kept(old(Value()), Value()) && Accounted(old(Value()), Value())
      ensures objects == old(objects) && files.Keys == old(files).Keys
      ensures ok ==> pending == map[]
      ensures AllSettle(old(Value()), stats) ==> ok
    {
      hide Fits, Kept, Live, Rechecking, Accounted, AllSettle;
      ghost var m := Value();
      KeptIsReflexive(m);
      NoneSynced(m);
      while pending != map[]
        invariant Fits(Value()) && Kept(m, Value()) && Accounted(m, Value())
        invariant objects == m.objects && files.Keys == m.files.Keys
        invariant AllSettle(m, stats) ==> AllSettle(Value(), stats)
        decreases |pending|
      {
        assert pending.Keys != {};
        var i :| i in pending;
        ghost var k := Value();
        PendingIsSound(k, i);
        var f, path, stat := pending[i], PathOf(names, i), stats(i);
        if AllSettle(k, stats) { SettlesByContent(k, i, stats); }
        if path.None? || !stat.Found? || !stat.committed || stat.current.None? || files[f].content != stat.current { return false; }
        RecheckSettles(k, path.value, i, stats);
        RecheckingKeeps(k, path.value, f, stat);
        RecheckAccounts(k, path.value, i, stat);
        ok := Recheck(path.value, f, stat);
        KeptIsTransitive(m, k, Value());
        AccountedChain(m, k, Value());
        assert pending.Keys == k.pending.Keys - {i};
      }
      return true;
    }

    /** Sync some open handles: all of them, or the writers below a path. */
    method SyncAll(guarded: set<nat>, below: Option<string>, sync: nat -> SyncAnswer) returns (ok: bool)
      requires Fits(Value()) && guarded <= objects.Keys
      modifies this
      ensures Fits(Value()) && Kept(old(Value()), Value())
      ensures SyncedAmong(old(Value()), Value(), guarded) && Accounted(old(Value()), Value())
      ensures ok <==> forall o :: o in guarded && Concerned(old(objects)[o], below) ==> Syncing(old(Value()), o, sync(o)).ok
      ensures ok ==> forall o :: o in guarded && Concerned(objects[o], below) && NamedWriter(Value(), o) ==> Settled(Value(), o)
      ensures ok ==> PendingShrunk(old(Value()), Value())
    {
      hide Fits, Kept, Live, Within, Syncing, Concerned, SyncedAmong, SyncedOnly, Accounted, NamedWriter, Settled, PendingShrunk;
      ghost var m := Value();
      KeptIsReflexive(m);
      NoneSynced(m);
      var left := guarded;
      ghost var done: set<nat> := {};
      while left != {}
        invariant left <= guarded && done == guarded - left && objects.Keys == m.objects.Keys
        invariant Fits(Value()) && Kept(m, Value()) && SyncedAmong(m, Value(), done) && Accounted(m, Value())
        invariant forall o :: o in done && Concerned(m.objects[o], below) && NamedWriter(m, o) ==> Settled(Value(), o)
        invariant forall o :: o in done && Concerned(m.objects[o], below) ==> Syncing(m, o, sync(o)).ok
        invariant PendingShrunk(m, Value())
        decreases |left|
      {
        var o :| o in left;
        left := left - {o};
        ghost var k := Value();
        SameConcern(m, k, done, o, below);
        if below.None? || (objects[o].Write? && Within(objects[o].path, below.value)) {
          SyncingStays(k, o, sync(o));
          SyncingAccounts(k, o, sync(o));
          SyncingAlike(m, k, done, o, sync(o));
          if Syncing(k, o, sync(o)).ok { SyncingShrinks(m, k, o, sync(o)); }
          ok := SyncHandle(o, sync(o));
          KeptIsTransitive(m, k, Value());
          AccountedChain(m, k, Value());
          OneMoreSynced(m, k, Value(), done, o);
          MoreSettled(m, k, Value(), done, o, below);
          if !ok {
            FewSynced(m, Value(), done + {o}, guarded);
            return false;
          }
        } else {
          FewSynced(m, k, done, done + {o});
        }
        done := done + {o};
      }
      assert done == guarded;
      AllConcerned(m, Value(), guarded, below);
      return true;
    }

    // ------------------------------------------------------------------ rename

    /** Pending uploads below either path must show their own content committed. */
    method SettlePending(inos: set<nat>, stats: nat -> StatReply) returns (ok: bool)
      requires Fits(Value())
      modifies this
      ensures Fits(Value()) && Kept(old(Value()), Value())
      ensures Value() == old(Value()).(pending := pending, confirmed := confirmed) && Accounted(old(Value()), Value())
      ensures ok <==> forall i :: i in inos && i in old(pending) ==> Settles(old(Value()), i, stats(i))
      ensures ok ==> forall i :: i in inos ==> i !in pending
      ensures ok ==> forall i :: i in inos && i in old(pending) ==>
                       ShownCommitted(old(Value()), i, stats(i)) && old(pending)[i] in confirmed
    {
      hide Fits, Kept, Live, SettledAmong, Accounted, ShownCommitted, SettledPending;
      ghost var m := Value();
      KeptIsReflexive(m);
      NoneSettled(m, stats);
      var left := inos;
      ghost var done: set<nat> := {};
      while left != {}
        invariant left <= inos && done == inos - left && Fits(Value()) && Kept(m, Value()) && SettledAmong(m, Value(), done, stats)
        decreases |left|
      {
        var i :| i in left;
        ghost var k := Value();
        if i in pending {
          PendingIsSound(k, i);
          var path, f, stat := PathOf(names, i), pending[i], stats(i);
          SettlesAlike(m, k, done, stats, i);
          if path.None? || !stat.Found? || !stat.committed || stat.current.None? || files[f].content != stat.current {
            SettledMeans(m, k, done, stats);
            return false;
          }
          ShownByContent(k, i, stat);
          SettlePendingKeeps(k, path.value, i);
          KeptIsTransitive(m, k, SettledPending(k, path.value, i));
          OneMoreSettled(m, k, done, stats, path.value, i);
          SettleOne(path.value, i);
        } else {
          NothingToSettle(m, k, done, stats, i);
        }
        left, done := left - {i}, done + {i};
      }
      assert done == inos;
      SettledMeans(m, Value(), done, stats);
      return true;
    }

    method SettleOne(path: string, i: nat)
      requires i in pending && pending[i] in files
      modifies this
      ensures Value() == SettledPending(old(Value()), path, i)
    {
      var f := pending[i];
      if f !in confirmed { confirmed := confirmed[f := Report(path, files[f].bytes, true)]; }
      pending := pending - {i};
    }

    /** After the backend has renamed: handles first, then the tables. */
    method MoveNames(from: string, to: string, guarded: set<nat>)
      requires Fits(Value()) && Apart(from, to) && guarded == Guarded(Value(), from, to)
      modifies this
      ensures Value() == Renamed(old(Value()), from, to)
    {
      hide Fits, Substitute;
      ghost var m := Value();
      MoveHandles(from, to, guarded);
      GuardedIsEnough(m, from, to);
      writers := MoveEntries(writers, from, to);
      NamesFit(m);
      var byPath := MoveEntries(names.byPath, from, to);
      var byIno := MoveRecords(names, from, to);
      names := names.(byPath := byPath, byIno := byIno);
    }

    method MoveHandles(from: string, to: string, guarded: set<nat>)
      requires Fits(Value()) && Apart(from, to) && guarded <= objects.Keys
      modifies this
      ensures Value() == old(Value()).(objects := SomeHandles(old(Value()), guarded, from, to), files := SomeFiles(old(Value()), guarded, from))
    {
      hide Fits, Within, Apart, SomeHandles, SomeFiles, Moved;
      ghost var m := Value();
      ghost var done: set<nat> := {};
      var left := guarded;
      NoneDone(m, from, to);
      while left != {}
        invariant left <= m.objects.Keys && done + left == guarded && done !! left
        invariant Value() == m.(objects := SomeHandles(m, done, from, to), files := SomeFiles(m, done, from))
        decreases |left|
      {
        var o :| o in left;
        OneMoreDone(m, done, from, to, o);
        MoveHandle(o, from, to);
        left, done := left - {o}, done + {o};
      }
    }

    /** A moved write handle follows its name; a displaced one loses it. */
    method MoveHandle(o: nat, from: string, to: string)
      requires o in objects && objects[o].file in files
      modifies this
      ensures var h, f := old(objects)[o], old(objects)[o].file;
              Value() == old(Value()).(
                objects := old(objects)[o := RenamedHandle(h, from, to)],
                files := if h.Write? && Within(h.path, from) && old(files)[f].createOnly.Some?
                         then old(files)[f := old(files)[f].(createOnly := Some(false))] else old(files))
    {
      hide Within, Moved;
      var h := objects[o];
      SameEntry(objects, o);
      if h.Write? && Within(h.path, from) {
        if files[h.file].createOnly.Some? { files := files[h.file := files[h.file].(createOnly := Some(false))]; }
        objects := objects[o := h.(path := Moved(h.path, from, to))];
      } else if h.Write? && Within(h.path, to) {
        objects := objects[o := h.(path := "")];
      }
    }

    method FindGuarded(from: string, to: string) returns (guarded: set<nat>)
      ensures guarded == Guarded(Value(), from, to)
    {
      var affected := Affected(names, from, to);
      guarded := set o | o in objects && objects[o].file in files && files[objects[o].file].ino in affected;
    }

    /** The rename proper: sync what moves, settle what is pending, ask the backend,
        then move the names. */
    method RenameApart(from: string, to: string, sync: nat -> SyncAnswer, stats: nat -> StatReply, reply: RenameReply) returns (ok: bool)
      requires Fits(Value()) && Apart(from, to)
      modifies this
      ensures Fits(Value()) && Kept(old(Value()), Value())
      ensures ok ==> MovedAll(old(Value()), Value(), from, to)
      ensures !ok ==> names == old(names) && writers == old(writers)
      ensures GoodAnswers(old(Value()), from, to, sync, stats) && reply.Done? ==> ok
      ensures ok ==> reply.Done? && WritersSync(old(Value()), from, to, sync)
    {
      hide Fits, Kept, Live, MovedAll, Guarded, Renamed, Apart, Within, Affected, Accounted, Concerned, Settles, Syncing, PendingShrunk;
      ghost var m := Value();
      var guarded := FindGuarded(from, to);
      GuardedIsOpen(m, from, to);
      ok := SyncAll(guarded, Some(from), sync);
      if !ok { return; }
      ghost var k := Value();
      if GoodAnswers(m, from, to, sync, stats) { StillSettles(m, k, from, to, sync, stats); }
      ok := SettlePending(Affected(names, from, to), stats);
      KeptIsTransitive(m, k, Value());
      if !ok || reply.Refused? { return false; }
      if reply.Unclear? {
        k := Value();
        uncertain := true;
        UncertainKeeps(k);
        KeptIsTransitive(m, k, Value());
        return false;
      }
      ghost var n := Value();
      GuardedSame(m, n, from, to);
      RenameKeeps(n, from, to);
      KeptIsTransitive(m, n, Renamed(n, from, to));
      MovesAll(m, n, from, to);
      MoveNames(from, to, guarded);
    }

    /** rename, native backend. `attr`: the old name exists. Success substitutes the
        prefix everywhere at once; anything else moves no name. */
    method Rename(parent: nat, name: string, newParent: nat, newName: string, noReplace: bool, attr: bool, sync: nat -> SyncAnswer,
                  stats: nat -> StatReply, reply: RenameReply) returns (ok: bool)
      requires Fits(Value()) && name != "" && newName != ""
      modifies this
      ensures Fits(Value()) && Kept(old(Value()), Value())
      ensures ok ==> RenameDone(old(Value()), Value(), PathOf(old(names), parent), name, PathOf(old(names), newParent), newName, noReplace) &&
                     EntryTaken(old(Value()), Value(), PathOf(old(names), parent).value, name, PathOf(old(names), newParent).value, newName)
      ensures !ok ==> writers == old(writers) &&
                      (names == old(names) ||
                       (PathOf(old(names), parent).Some? && names == Inodes.Assign(old(names), Join(PathOf(old(names), parent).value, name))))
      ensures RenamePossible(old(Value()), parent, name, newParent, newName, noReplace, attr, sync, stats, reply) ==> ok
    {
      hide Fits, Kept, Live, MovedAll, Join, Apart, Within, Inodes.Assign, GoodAnswers, EntryTaken;
      ghost var m := Value();
      KeptIsReflexive(m);
      if uncertain { return false; }
      var above, below := PathOf(names, parent), PathOf(names, newParent);
      if above.None? || below.None? || !attr { return false; }
      var from, to := Join(above.value, name), Join(below.value, newName);
      var source := AssignName(from);
      ghost var k := Value();
      if from == to {
        if !noReplace { EntryIsMoved(m, k, above.value, name, below.value, newName, noReplace); }
        return !noReplace;
      }
      if Within(to, from) || Within(from, to) { return false; }
      AreApart(above.value, name, below.value, newName);
      ok := RenameApart(from, to, sync, stats, reply);
      KeptIsTransitive(m, k, Value());
      if ok { EntryIsMoved(m, Value(), above.value, name, below.value, newName, noReplace); }
    }
  }
}
