/** fsync on a mount (src/tapefs.rs: `sync_handle`): upload if needed, then wait until
    the backend shows exactly these bytes committed. */
module MountSync {
  import opened Outcomes
  import opened ByteStrings
  import Inodes
  import opened Mounts
  import opened MountSteps
  import opened MountCalls
  import opened MountOpens

  /** What the backend and the disk answer while one handle is synced; running out of
      polls is the deadline. */
  datatype SyncAnswer = SyncAnswer(reply: UploadReply, polls: seq<StatReply>, disk: bool)

  /** The first settled poll decides: only a committed version with these bytes will do. */
  function PollShows(polls: seq<StatReply>, bytes: Bytes): bool {
    if polls == [] || !polls[0].Found? then false
    else if polls[0].committed then polls[0].current == Some(bytes)
    else PollShows(polls[1..], bytes)
  }

  /** Poll `k` is the first settled one and shows the bytes committed. */
  predicate ShownAt(polls: seq<StatReply>, bytes: Bytes, k: nat) {
    k < |polls| && polls[k] == Found(true, Some(bytes)) && forall j :: 0 <= j < k ==> polls[j].Found? && !polls[j].committed
  }

  /** Waiting succeeds exactly when some poll shows these bytes committed and all before it
      were still open. */
  lemma {:induction false} ShownByAPoll(polls: seq<StatReply>, bytes: Bytes)
    ensures PollShows(polls, bytes) <==> exists k: nat :: ShownAt(polls, bytes, k)
    decreases |polls|
  {
    if polls != [] {
      ShownByAPoll(polls[1..], bytes);
      if k: nat :| ShownAt(polls[1..], bytes, k) && polls[0].Found? && !polls[0].committed {
        assert ShownAt(polls, bytes, k + 1);
      }
      if k: nat :| ShownAt(polls, bytes, k) {
        if k > 0 {
          assert ShownAt(polls[1..], bytes, k - 1);
        }
      }
      if polls[0] == Found(true, Some(bytes)) {
        assert ShownAt(polls, bytes, 0);
      }
    }
  }

  /** `sync_handle` */
  function Syncing(m: Mount, o: nat, a: SyncAnswer): Called
    requires o in m.objects
  {
    var h := m.objects[o];
    if m.uncertain then Called(m, false)
    else if h.Read? then Called(m, true)
    else if h.path == "" then Called(m, a.disk)
    else if h.committed && !h.dirty then Called(m, true)
    else if !a.disk || h.file !in m.files then Called(m, false)
    else if h.dirty || !h.uploaded then Called(Uploaded(m, o, a.reply), a.reply == Accepted(true))
    else if PollShows(a.polls, m.files[h.file].bytes) then Called(Confirmed(m, o), true)
    else Called(m, false)
  }

  lemma SyncingKeeps(m: Mount, o: nat, a: SyncAnswer)
    requires Fits(m) && o in m.objects
    ensures var n := Syncing(m, o, a).mount; Fits(n) && Kept(m, n)
  {
    hide Fits, Kept, Uploaded, Confirmed;
    KeptIsReflexive(m);
    if NamedWriter(m, o) {
      UploadKeeps(m, o, a.reply);
      ConfirmKeeps(m, o);
    }
  }

  /** The bytes of a named write handle were reported committed by an answer of this
      very call: the upload's, or a poll's. */
  predicate AnsweredFor(m: Mount, o: nat, a: SyncAnswer)
    requires NamedWriter(m, o)
  {
    if m.objects[o].dirty || !m.objects[o].uploaded then a.reply == Accepted(true) else PollShows(a.polls, FileOf(m, o).bytes)
  }

  /** When fsync answers Ok: always for a reader; for a nameless writer when the disk takes
      it; for a named one when it is settled, or its bytes are answered for. */
  lemma SyncingExactly(m: Mount, o: nat, a: SyncAnswer)
    requires o in m.objects && (m.objects[o].Write? ==> m.objects[o].file in m.files)
    ensures Syncing(m, o, a).ok <==>
              !m.uncertain &&
              (m.objects[o].Read? || (m.objects[o].path == "" && a.disk) ||
               (m.objects[o].path != "" && (Settled(m, o) || (a.disk && AnsweredFor(m, o, a)))))
  {
    hide Uploaded, Confirmed, PollShows;
  }

  /** What was written is what goes out: a flush after a change sends exactly the changed
      bytes under the handle's name, and keeps the local file until they are confirmed. */
  lemma FlushSendsChange(m: Mount, fh: nat, bytes: Bytes, len: nat, reply: UploadReply)
    requires !m.uncertain && fh in m.handles && NamedWriter(m, m.handles[fh]) && reply != NotSent
    ensures var o := m.handles[fh];
            var n := Flushing(Changed(m, o, bytes, len), fh, reply, true).mount;
            n.uploads == m.uploads + [Upload(o, m.objects[o].path, bytes)] && n.files[m.objects[o].file].bytes == bytes &&
            (reply != Accepted(true) ==> Awaited(n, m.objects[o].file)) && (reply == Accepted(true) ==> m.objects[o].file in n.confirmed)
  {
    var o := m.handles[fh];
    var n := Flushing(Changed(m, o, bytes, len), fh, reply, true).mount;
    assert reply != Accepted(true) ==> FileOf(m, o).ino in n.pending && n.pending[FileOf(m, o).ino] == m.objects[o].file;
  }

  /** Ok on a named write handle leaves it settled. Unless it was settled before, a reply
      of this call reported exactly its bytes committed, and they are recorded so. */
  lemma SyncingConfirms(m: Mount, o: nat, a: SyncAnswer)
    requires NamedWriter(m, o) && Syncing(m, o, a).ok
    ensures var n := Syncing(m, o, a).mount;
            Settled(n, o) && NamedWriter(n, o) && FileOf(n, o).bytes == FileOf(m, o).bytes &&
            (!Settled(m, o) ==>
               AnsweredFor(m, o, a) && ReportOn(n, m.objects[o].file) == Some(Report(m.objects[o].path, FileOf(m, o).bytes, false)))
  {
  }

  /** What syncing one handle leaves as it is. */
  ghost predicate SyncedOnly(m: Mount, n: Mount, o: nat) {
    n == m.(files := n.files, objects := n.objects, pending := n.pending, confirmed := n.confirmed, uploads := n.uploads) &&
    n.objects.Keys == m.objects.Keys && n.files.Keys == m.files.Keys && m.confirmed.Keys <= n.confirmed.Keys &&
    (forall b :: b in m.objects && b != o ==> n.objects[b] == m.objects[b]) &&
    (o in m.objects ==> SameHandle(m.objects[o], n.objects[o])) &&
    (forall f :: f in m.files ==> n.files[f].ino == m.files[f].ino && n.files[f].bytes == m.files[f].bytes)
  }

  lemma UploadStays(m: Mount, o: nat, reply: UploadReply)
    requires NamedWriter(m, o)
    ensures SyncedOnly(m, Uploaded(m, o, reply), o)
  {
  }

  lemma ConfirmStays(m: Mount, o: nat)
    requires NamedWriter(m, o)
    ensures SyncedOnly(m, Confirmed(m, o), o)
  {
  }

  lemma SyncingStays(m: Mount, o: nat, a: SyncAnswer)
    requires o in m.objects
    ensures SyncedOnly(m, Syncing(m, o, a).mount, o)
  {
    hide Uploaded, Confirmed, PollShows;
    if NamedWriter(m, o) {
      UploadStays(m, o, a.reply);
      ConfirmStays(m, o);
    }
  }

  /** Pending entries stay, or their file has been reported on. */
  predicate Accounted(m: Mount, n: Mount) {
    && m.confirmed.Keys <= n.confirmed.Keys
    && forall i :: i in m.pending ==> (i in n.pending && n.pending[i] == m.pending[i]) || m.pending[i] in n.confirmed
  }

  lemma UploadAccounts(m: Mount, o: nat, reply: UploadReply)
    requires NamedWriter(m, o) && (FileOf(m, o).ino in m.pending ==> m.pending[FileOf(m, o).ino] == m.objects[o].file)
    ensures Accounted(m, Uploaded(m, o, reply))
  {
  }

  lemma ConfirmAccounts(m: Mount, o: nat)
    requires NamedWriter(m, o) && (FileOf(m, o).ino in m.pending ==> m.pending[FileOf(m, o).ino] == m.objects[o].file)
    ensures Accounted(m, Confirmed(m, o))
  {
  }

  lemma SyncingAccounts(m: Mount, o: nat, a: SyncAnswer)
    requires Fits(m) && o in m.objects
    ensures Accounted(m, Syncing(m, o, a).mount)
  {
    hide Fits, Live, Uploaded, Confirmed, PollShows;
    if NamedWriter(m, o) {
      HandleIsLive(m, o);
      if FileOf(m, o).ino in m.pending { PendingIsSound(m, FileOf(m, o).ino); }
      UploadAccounts(m, o, a.reply);
      ConfirmAccounts(m, o);
    }
  }

  lemma AccountedChain(m: Mount, n: Mount, q: Mount)
    requires Accounted(m, n) && Accounted(n, q)
    ensures Accounted(m, q)
  {
  }

  /** A named write handle on which fsync does not answer Ok by mistake. */
  predicate Trusted(m: Mount, fh: nat) {
    fh in m.handles && NamedWriter(m, m.handles[fh]) && Honest(m, m.handles[fh])
  }

  /** The backend has reported the bytes behind a file handle committed, since they
      last changed. */
  predicate Archived(m: Mount, fh: nat) {
    fh in m.handles && m.handles[fh] in m.objects && m.objects[m.handles[fh]].file in m.files &&
    m.objects[m.handles[fh]].file in m.confirmed && m.confirmed[m.objects[m.handles[fh]].file].bytes == FileOf(m, m.handles[fh]).bytes
  }

  /** fsync keeps its promise on every trusted handle. */
  lemma SyncedIsArchived(m: Mount, fh: nat, a: SyncAnswer)
    requires Fits(m) && Trusted(m, fh) && Syncing(m, m.handles[fh], a).ok
    ensures Archived(Syncing(m, m.handles[fh], a).mount, fh)
  {
    hide Fits, Syncing;
    var o := m.handles[fh];
    SyncingConfirms(m, o, a);
    SyncingStays(m, o, a);
    SyncingKeeps(m, o, a);
    FileIsSound(Syncing(m, o, a).mount, m.objects[o].file);
  }

  /** After a write or truncation through a handle there is no report on its file; so
      whatever calls come in between, once fsync would answer Ok at once a report on
      exactly the handle's bytes has come in since. */
  lemma WrittenIsTrusted(m: Mount, o: nat, bytes: Bytes, len: nat, n: Mount)
    requires Fits(m) && o in m.objects && m.objects[o].Write? && m.objects[o].file in m.files
    requires Fits(n) && Kept(Changed(m, o, bytes, len), n) && Settled(n, o)
    ensures m.objects[o].file !in Changed(m, o, bytes, len).confirmed
    ensures var f := n.objects[o].file; f == m.objects[o].file && f in n.confirmed && n.confirmed[f].bytes == n.files[f].bytes
  {
    hide Inodes.Fits, ObjectFits;
    var k := Changed(m, o, bytes, len);
    assert ObjectKept(k, n, o);
    assert !Settled(k, o);
    var f := n.objects[o].file;
    assert f in n.files ==> FileFits(n, f);
  }
}
