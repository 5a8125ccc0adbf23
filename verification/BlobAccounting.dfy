/** What calls can rely on from each other: deletes, log lines, timestamps and agreement between the reads. */
module BlobAccounting {
  import opened Prelude
  import opened KeyLayout
  import opened FileSystem
  import opened BlobMachine
  import opened BlobInvariant
  import opened BlobSafety
  import opened BlobLinearizability

  // ---------- delete accounting ----------

  /** The entries for one digest that came and went over a run: renames and plants that found it absent, and deletes. */
  datatype Ledger = Ledger(published: nat, planted: nat, deleted: nat)

  predicate ReportsDelete(pc: Pc, d: Digest) {
    (pc.DeleteDone? || pc.RemoveDone?) && pc.d == d
  }

  predicate PublishesAfresh(h: Hash, s: State, a: Action, d: Digest) {
    && a.Do? && a.pid in s.procs && s.procs[a.pid].PutRename? && h(s.procs[a.pid].f.hashed) == d
    && Apply(h, s, a).procs[a.pid].PutDone?
    && d !in s.fs.blobs
  }

  predicate DeleteSucceeds(h: Hash, s: State, a: Action, d: Digest) {
    && a.Do? && a.pid in s.procs
    && !ReportsDelete(s.procs[a.pid], d)
    && ReportsDelete(Apply(h, s, a).procs[a.pid], d)
  }

  function Account(h: Hash, s: State, actions: seq<Action>, d: Digest): Ledger {
    if actions == [] then Ledger(0, 0, 0)
    else
      var k := |actions| - 1;
      var so := Account(h, s, actions[..k], d);
      var at, a := Exec(h, s, actions[..k]), actions[k];
      Ledger(so.published + (if PublishesAfresh(h, at, a, d) then 1 else 0),
             so.planted + (if a.PlantAt? && a.d == d && d !in at.fs.blobs then 1 else 0),
             so.deleted + (if DeleteSucceeds(h, at, a, d) then 1 else 0))
  }

  function Present(fs: FS, d: Digest): nat {
    if d in fs.blobs then 1 else 0
  }

  /** The callers whose delete, or remove, of d reported success. */
  ghost function Deleters(s: State, d: Digest): set<Pid> {
    set p | p in s.procs && ReportsDelete(s.procs[p], d)
  }

  lemma OtherStepsReportNothing(h: Hash, fs: FS, pc: Pc, c: Choice, d: Digest)
    requires !IsUnlinking(pc) && !pc.PutRename?
    ensures Local(h, fs, pc, c).0.blobs == fs.blobs
    ensures ReportsDelete(Local(h, fs, pc, c).1, d) == ReportsDelete(pc, d)
  {
  }

  /** Per step: an entry appears exactly through a fresh publication or plant, and goes exactly through a reported delete. */
  lemma StepBalances(h: Hash, s: State, a: Action, d: Digest)
    ensures Present(Apply(h, s, a).fs, d) + (if DeleteSucceeds(h, s, a, d) then 1 else 0)
            == Present(s.fs, d) + (if PublishesAfresh(h, s, a, d) then 1 else 0)
               + (if a.PlantAt? && a.d == d && d !in s.fs.blobs then 1 else 0)
  {
    if a.Do? && a.pid in s.procs {
      var pc := s.procs[a.pid];
      BlobsMove(h, s.fs, pc, a.choice);
      if !IsUnlinking(pc) && !pc.PutRename? {
        OtherStepsReportNothing(h, s.fs, pc, a.choice, d);
      }
    }
  }

  lemma {:induction false} AccountBalances(h: Hash, s: State, actions: seq<Action>, d: Digest)
    ensures var l := Account(h, s, actions, d);
            l.deleted + Present(Exec(h, s, actions).fs, d) == Present(s.fs, d) + l.published + l.planted
  {
    if actions != [] {
      var k := |actions| - 1;
      AccountBalances(h, s, actions[..k], d);
      StepBalances(h, Exec(h, s, actions[..k]), actions[k], d);
    }
  }

  lemma DeletersStep(h: Hash, s: State, a: Action, d: Digest)
    ensures |Deleters(Apply(h, s, a), d)| == |Deleters(s, d)| + (if DeleteSucceeds(h, s, a, d) then 1 else 0)
  {
    var s' := Apply(h, s, a);
    if DeleteSucceeds(h, s, a, d) {
      assert Deleters(s', d) == Deleters(s, d) + {a.pid};
    } else {
      if a.Do? && a.pid in s.procs && ReportsDelete(s.procs[a.pid], d) {
        assert s'.procs[a.pid] == s.procs[a.pid];
      }
      assert Deleters(s', d) == Deleters(s, d);
    }
  }

  lemma {:induction false} DeletersCounted(h: Hash, s: State, actions: seq<Action>, d: Digest)
    ensures |Deleters(Exec(h, s, actions), d)| == |Deleters(s, d)| + Account(h, s, actions, d).deleted
  {
    if actions != [] {
      var k := |actions| - 1;
      DeletersCounted(h, s, actions[..k], d);
      DeletersStep(h, Exec(h, s, actions[..k]), actions[k], d);
    }
  }

  /**
   * Delete accounting. In every run, the callers told that their delete of d succeeded, plus one if something
   * is at d now, are exactly as many as the renames and plants that found d absent.
   */
  lemma DeleteAccounting(h: Hash, actions: seq<Action>, d: Digest)
    ensures var s, l := Run(h, actions), Account(h, Init, actions, d);
            |Deleters(s, d)| + Present(s.fs, d) == l.published + l.planted
  {
    AccountBalances(h, Init, actions, d);
    DeletersCounted(h, Init, actions, d);
    assert Deleters(Init, d) == {};
  }

  /**
   * Between publications, at most one of any number of concurrent deletes reports success, and only if the
   * blob was there to begin with.
   */
  lemma ConcurrentDeletesSucceedOnce(h: Hash, s: State, actions: seq<Action>, d: Digest)
    requires Account(h, s, actions, d).published == Account(h, s, actions, d).planted == 0
    ensures |Deleters(Exec(h, s, actions), d)| <= |Deleters(s, d)| + Present(s.fs, d)
  {
    AccountBalances(h, s, actions, d);
    DeletersCounted(h, s, actions, d);
  }

  // ---------- what stays at a path ----------

  /** The file at d stays the same file unless someone renames over it, deletes it, or plants there. */
  lemma EntryStays(h: Hash, fs: FS, spooled: set<Bytes>, pc: Pc, c: Choice, d: Digest)
    requires FsOk(h, fs, spooled) && ProcOk(h, fs, spooled, pc)
    requires !(pc.PutRename? && h(pc.f.hashed) == d) && !(IsUnlinking(pc) && pc.d == d)
    ensures Local(h, fs, pc, c).0.Lstat(d) == fs.Lstat(d)
  {
    LocalOk(h, fs, spooled, pc, c);
    BlobsMove(h, fs, pc, c);
    if d in fs.blobs {
      assert Writes(pc) != Some(fs.blobs[d]);
    }
  }

  /** No step but a rename onto d changes the file at d, when nothing there is deleted. */
  lemma EntryStaysUnlessRenamed(h: Hash, s: State, pid: Pid, c: Choice, d: Digest)
    requires Inv(h, s) && pid in s.procs && !DeleteSucceeds(h, s, Do(pid, c), d)
    requires !(s.procs[pid].PutRename? && h(s.procs[pid].f.hashed) == d)
    ensures Apply(h, s, Do(pid, c)).fs.Lstat(d) == s.fs.Lstat(d)
  {
    var pc := s.procs[pid];
    if IsUnlinking(pc) && pc.d == d {
      assert Local(h, s.fs, pc, c).0 == s.fs;
    } else {
      EntryStays(h, s.fs, s.spooled, pc, c, d);
    }
  }

  /** Calls beginning, time passing and plants elsewhere leave the file at d alone. */
  lemma IdleKeepsEntry(h: Hash, s: State, a: Action, d: Digest)
    requires Inv(h, s) && !a.Do? && !(a.PlantAt? && a.d == d)
    ensures Apply(h, s, a).fs.Lstat(d) == s.fs.Lstat(d)
  {
  }

  /** A period in which no delete of d succeeds and nothing is planted there. */
  ghost predicate Undisturbed(h: Hash, s: State, actions: seq<Action>, d: Digest) {
    NotPlantedAt(actions, d) && Account(h, s, actions, d).deleted == 0
  }

  lemma UndisturbedPrefix(h: Hash, s: State, actions: seq<Action>, d: Digest)
    requires Undisturbed(h, s, actions, d) && actions != []
    ensures var k := |actions| - 1;
            && Undisturbed(h, s, actions[..k], d)
            && !DeleteSucceeds(h, Exec(h, s, actions[..k]), actions[k], d)
            && !(actions[k].PlantAt? && actions[k].d == d)
  {
  }

  lemma {:induction false} StaysRegularAt(h: Hash, s: State, actions: seq<Action>, d: Digest)
    requires Inv(h, s) && RegularAt(s.fs, d) && NotPlantedAt(actions, d)
    ensures RegularAt(Exec(h, s, actions).fs, d)
  {
    if actions != [] {
      var k := |actions| - 1;
      StaysRegularAt(h, s, actions[..k], d);
      ExecKeepsInv(h, s, actions[..k]);
      RegularAtAction(h, Exec(h, s, actions[..k]), actions[k], d);
    }
  }

  lemma {:induction false} NonePlantedCounted(h: Hash, s: State, actions: seq<Action>, d: Digest)
    requires NotPlantedAt(actions, d)
    ensures Account(h, s, actions, d).planted == 0
  {
    if actions != [] {
      NonePlantedCounted(h, s, actions[..|actions| - 1], d);
    }
  }

  /** A blob that was there is there again exactly when it was published as often as it was deleted since. */
  lemma BlobThereExactly(h: Hash, s: State, actions: seq<Action>, d: Digest)
    requires Inv(h, s) && d in Contents(s.fs) && NotPlantedAt(actions, d)
    ensures var l := Account(h, s, actions, d);
            d in Contents(Exec(h, s, actions).fs) <==> l.deleted <= l.published
  {
    StaysRegularAt(h, s, actions, d);
    NonePlantedCounted(h, s, actions, d);
    AccountBalances(h, s, actions, d);
  }

  // ---------- log accuracy ----------

  lemma SizeDetermined(h: Hash, spooled: set<Bytes>, d: Digest, size: nat, content: Bytes)
    requires NoCollisionAt(h, spooled, d) && SizeSeen(h, spooled, d, size) && content in spooled && h(content) == d
    ensures size == |content|
  {
    var b :| b in spooled && h(b) == d && |b| == size;
    assert b == content;
  }

  /**
   * Removal log accuracy. When `remove` gets as far as logging a deletion, the size it logs, read at an
   * earlier step, is the length of the bytes its unlink actually removed, even if the blob was deleted and
   * put again in between; unless what it removed was planted there and is no blob at all.
   */
  lemma RemovalLogAccurate(h: Hash, before: seq<Action>, pid: Pid, c: Choice)
    requires pid in Run(h, before).procs && Run(h, before).procs[pid].RemoveUnlink?
    requires NoCollisionAt(h, Run(h, before).spooled, Run(h, before).procs[pid].d)
    requires Run(h, before + [Do(pid, c)]).procs[pid].RemoveDone?
    ensures var s, done := Run(h, before), Run(h, before + [Do(pid, c)]).procs[pid];
            && done.d in s.fs.blobs
            && (done.d in Contents(s.fs) ==> done.size == |Contents(s.fs)[done.d]|)
            && (NotPlantedAt(before, done.d) ==> done.d in Contents(s.fs))
  {
    assert (before + [Do(pid, c)])[..|before|] == before;
    RunInv(h, before);
    var s := Run(h, before);
    var pc := s.procs[pid];
    assert ProcOk(h, s.fs, s.spooled, pc);
    if pc.d in Contents(s.fs) {
      assert Whole(h, s.fs, s.spooled, pc.d, s.fs.blobs[pc.d]);
      SizeDetermined(h, s.spooled, pc.d, pc.size, Contents(s.fs)[pc.d]);
    }
    if NotPlantedAt(before, pc.d) {
      RunRegularAt(h, before, pc.d);
    }
  }

  /** A retrieve that streams to its end streams as many bytes as it logged before opening. */
  lemma RetrievalLogAccurate(h: Hash, actions: seq<Action>, pid: Pid)
    requires pid in Run(h, actions).procs && Run(h, actions).procs[pid].GetDone?
    requires NoCollisionAt(h, Run(h, actions).spooled, Run(h, actions).procs[pid].d)
    requires Run(h, actions).procs[pid].logged.Some?
    ensures Run(h, actions).procs[pid].logged.value == |Flatten(Run(h, actions).procs[pid].out)|
  {
    RunInv(h, actions);
    var s := Run(h, actions);
    var pc := s.procs[pid];
    assert ProcOk(h, s.fs, s.spooled, pc);
    SizeDetermined(h, s.spooled, pc.d, pc.logged.value, Flatten(pc.out));
  }

  /** When a working open misses: exactly when no blob is there at that moment, logged before or not. */
  lemma OpenMissesExactly(h: Hash, fs: FS, d: Digest, logged: Option<nat>)
    ensures var pc := Local(h, fs, GetOpen(d, logged), Ok).1;
            if d in Contents(fs) then pc == GetRead(d, logged, fs.blobs[d], 0, []) else pc == GetMissed(d, logged)
  {
  }

  /**
   * Exactly when a logged retrieve misses. Once its size lookup has answered, and with nothing planted at its
   * digest since, a working open misses if and only if more deletes of the digest than fresh publications of
   * it have succeeded since the lookup; otherwise it opens what is there by now.
   */
  lemma RetrieveMissesExactly(h: Hash, before: seq<Action>, during: seq<Action>, pid: Pid, d: Digest, size: nat)
    requires
      var looked := Run(h, before + [Do(pid, Ok)]);
      && pid in Run(h, before).procs && Run(h, before).procs[pid] == RetrieveSize(d)
      && looked.procs[pid] == GetOpen(d, Some(size))
    requires
      var s := Run(h, before + [Do(pid, Ok)] + during);
      pid in s.procs && s.procs[pid] == GetOpen(d, Some(size))
    requires NotPlantedAt(during, d)
    ensures
      var s := Run(h, before + [Do(pid, Ok)] + during);
      var l := Account(h, Run(h, before + [Do(pid, Ok)]), during, d);
      var now := Apply(h, s, Do(pid, Ok)).procs[pid];
      && (now == GetMissed(d, Some(size)) <==> l.deleted > l.published)
      && (l.deleted <= l.published ==> d in s.fs.blobs && now == GetRead(d, Some(size), s.fs.blobs[d], 0, []))
  {
    var looked := before + [Do(pid, Ok)];
    assert looked[..|before|] == before;
    RunInv(h, looked);
    assert d in Contents(Run(h, looked).fs);
    ExecSplit(h, Init, looked, during);
    BlobThereExactly(h, Run(h, looked), during, d);
    OpenMissesExactly(h, Run(h, looked + during).fs, d, Some(size));
  }

  // ---------- agreement between the reads ----------

  /** Where a one-step call ends when it runs against this filesystem and its system call does not fail. */
  function Answer(h: Hash, fs: FS, call: Call): Pc {
    Local(h, fs, Start(call), Ok).1
  }

  /**
   * For every key, well-formed or not, and every kind of entry at its path, exists is true exactly when size
   * returns, exactly when get opens a stream, and size is the length of the content that stream will yield.
   */
  lemma ReadsAgree(h: Hash, fs: FS, key: string)
    ensures
      var present, size, get := Answer(h, fs, Exists(key)), Answer(h, fs, Size(key)), Answer(h, fs, Get(key));
      && present.ExistsDone?
      && (present.answer <==> size.SizeDone?)
      && (present.answer <==> get.GetRead?)
      && (!present.answer <==> size.Missing?)
      && (!present.answer <==> get.GetMissed? || get.Missing?)
      && (get.GetRead? ==> size.size == |fs.Node(get.ino).data|)
      && (present.answer <==> Resolve(key).Some? && Resolve(key).value in Contents(fs))
  {
  }

  /**
   * delete parts ways with the reads exactly on a planted symlink or fifo, which it unlinks successfully
   * although exists denies it, and on a planted directory, where it raises neither success nor BlobNotFound.
   */
  lemma DeleteAgainstExists(h: Hash, fs: FS, key: string)
    ensures
      var present, delete := Answer(h, fs, Exists(key)).answer, Answer(h, fs, Delete(key));
      var kind := if Resolve(key).Some? && Resolve(key).value in fs.blobs
                  then Some(fs.Node(fs.blobs[Resolve(key).value]).kind) else None;
      && (present ==> delete.DeleteDone?)
      && (delete.DeleteDone? && !present <==> kind == Some(Symlink) || kind == Some(Fifo))
      && (delete.Missing? <==> kind == None)
      && (delete.Errored? <==> kind == Some(Directory))
      && (forall d, size :: Resolve(key) == Some(d) ==>
            var removed := Local(h, fs, RemoveUnlink(d, size), Ok).1;
            && (removed == RemoveDone(d, size) <==> delete.DeleteDone?)
            && (removed == RemoveMissed(d, size) <==> delete.Missing?)
            && (removed.Errored? <==> delete.Errored?))
  {
  }
}
