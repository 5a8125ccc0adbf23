/** When a repeated put reports the original write, exactly, and a run in which it does not. */
module BlobTimestamps {
  import opened Prelude
  import opened KeyLayout
  import opened FileSystem
  import opened BlobMachine
  import opened BlobInvariant
  import opened BlobSafety
  import opened BlobAccounting
  import opened BlobStorage

  // ---------- what puts say about the file ----------

  /** A put that found nothing at d and is on its way to rename over the path. */
  predicate Racing(h: Hash, pc: Pc, d: Digest) {
    ((pc.PutPublish? && !pc.at.Inspecting?) || pc.PutRename?) && h(pc.f.hashed) == d
  }

  /** A put that found d stored and is about to drop its own copy. */
  predicate Discarding(h: Hash, pc: Pc, d: Digest) {
    pc.PutDiscard? && h(pc.f.hashed) == d
  }

  predicate Finished(h: Hash, pc: Pc, d: Digest) {
    pc.PutDone? && h(pc.content) == d
  }

  /** No put of d stands between its lstat and its end. */
  ghost predicate Quiet(h: Hash, s: State, d: Digest) {
    forall p :: p in s.procs ==> !Racing(h, s.procs[p], d) && !Discarding(h, s.procs[p], d)
  }

  /** The calls that had already put d when the period under study began. */
  ghost function Earlier(h: Hash, s: State, d: Digest): set<Pid> {
    set p | p in s.procs && Finished(h, s.procs[p], d)
  }

  /** The puts of d that finished since. */
  ghost predicate FinishedSince(h: Hash, s: State, d: Digest, earlier: set<Pid>, p: Pid) {
    p in s.procs && p !in earlier && Finished(h, s.procs[p], d)
  }

  ghost predicate EarlierFinished(s: State, earlier: set<Pid>) {
    forall p :: p in earlier ==> p in s.procs && s.procs[p].PutDone?
  }

  predicate ShowsStat(fs: FS, d: Digest, st: Stat) {
    fs.Lstat(d) == Some(st) && st.kind == Regular
  }

  function ReportedStat(blob: StoredBlob): Stat {
    Stat(Regular, blob.size, blob.createdAt)
  }

  /** The blob a put returned is of the file at d: its size, and the time it was written. */
  predicate Describes(blob: StoredBlob, fs: FS, d: Digest) {
    && d in fs.blobs && fs.blobs[d] < |fs.inodes|
    && var node := fs.inodes[fs.blobs[d]];
       node.kind == Regular && |node.data| == blob.size && node.mtime == blob.createdAt
  }

  /** What one put says about the file at d is so. */
  ghost predicate Faithful(h: Hash, fs: FS, d: Digest, pc: Pc) {
    && (Finished(h, pc, d) ==> ShowsStat(fs, d, ReportedStat(pc.blob)))
    && (Discarding(h, pc, d) ==> ShowsStat(fs, d, pc.seen))
  }

  ghost predicate AllFaithful(h: Hash, s: State, d: Digest, earlier: set<Pid>) {
    forall p :: p in s.procs && p !in earlier ==> Faithful(h, s.fs, d, s.procs[p])
  }

  /** All puts of d that finished since report the same blob: key, size and creation time. */
  ghost predicate AllAgree(h: Hash, s: State, d: Digest, earlier: set<Pid>) {
    forall p, q :: FinishedSince(h, s, d, earlier, p) && FinishedSince(h, s, d, earlier, q) ==>
      s.procs[p].blob == s.procs[q].blob
  }

  /** A rename that finds a file at d which is not, by its stat, the one it is about to report. */
  predicate Clobbers(h: Hash, s: State, a: Action, d: Digest) {
    && a.Do? && a.pid in s.procs && s.procs[a.pid].PutRename? && h(s.procs[a.pid].f.hashed) == d
    && Apply(h, s, a).procs[a.pid].PutDone?
    && d in s.fs.blobs && s.fs.Lstat(d) != Some(s.procs[a.pid].seen)
  }

  predicate NeverClobbers(h: Hash, s: State, actions: seq<Action>, d: Digest) {
    actions == [] ||
      var k := |actions| - 1;
      NeverClobbers(h, s, actions[..k], d) && !Clobbers(h, Exec(h, s, actions[..k]), actions[k], d)
  }

  // ---------- one step ----------

  /** A put's lstat of the target: it sees the file there, or it starts racing because there is none. */
  lemma InspectFaithful(h: Hash, fs: FS, f: Spool, c: Choice, d: Digest)
    ensures var (fs', pc') := PublishStep(h, fs, Inspecting, f, c);
            fs' == fs && Faithful(h, fs', d, pc') && (Racing(h, pc', d) ==> d !in fs.blobs)
  {
  }

  /** The put steps between the lstat and the rename, and after a found blob, keep what was seen. */
  lemma LateStepFaithful(h: Hash, fs: FS, pc: Pc, c: Choice, d: Digest)
    requires (pc.PutPublish? && !pc.at.Inspecting?) || pc.PutDiscard?
    requires Faithful(h, fs, d, pc)
    ensures var (fs', pc') := PutStep(h, fs, pc, c);
            Faithful(h, fs', d, pc') && (Racing(h, pc', d) ==> Racing(h, pc, d))
  {
  }

  lemma SpoolStepNeutral(h: Hash, fs: FS, pc: Pc, c: Choice, d: Digest)
    requires pc.PutPrepare? || pc.PutMkstemp? || pc.PutSpool?
    ensures var pc' := PutStep(h, fs, pc, c).1;
            !(Finished(h, pc', d) || Discarding(h, pc', d) || Racing(h, pc', d))
  {
  }

  /** A rename puts the reported file at its path, whatever was there, or fails and does nothing. */
  lemma RenameFaithful(h: Hash, fs: FS, spooled: set<Bytes>, f: Spool, seen: Stat, c: Choice)
    requires FsOk(h, fs, spooled) && ProcOk(h, fs, spooled, PutRename(f, seen))
    ensures var (fs', pc') := PutStep(h, fs, PutRename(f, seen), c);
            if pc'.PutDone? then
              pc'.content == f.hashed && ReportedStat(pc'.blob) == seen && ShowsStat(fs', h(f.hashed), seen)
            else fs' == fs && pc'.PutFailed?
  {
  }

  lemma OtherStepsNeverPut(h: Hash, fs: FS, pc: Pc, c: Choice, d: Digest)
    requires !IsPutting(pc)
    ensures var pc' := Local(h, fs, pc, c).1;
            pc' == pc || !(Finished(h, pc', d) || Discarding(h, pc', d) || Racing(h, pc', d))
  {
  }

  /** A call's own step: what it says afterwards is so, and it begins to race only when d is absent. */
  lemma ActorFaithful(h: Hash, fs: FS, spooled: set<Bytes>, pc: Pc, c: Choice, d: Digest)
    requires FsOk(h, fs, spooled) && ProcOk(h, fs, spooled, pc) && Faithful(h, fs, d, pc)
    ensures var (fs', pc') := Local(h, fs, pc, c);
            && (pc' != pc ==> Faithful(h, fs', d, pc'))
            && (Racing(h, pc', d) ==> Racing(h, pc, d) || d !in fs.blobs)
  {
    if pc.PutRename? {
      RenameFaithful(h, fs, spooled, pc.f, pc.seen, c);
    } else if pc.PutPublish? && pc.at.Inspecting? {
      InspectFaithful(h, fs, pc.f, c, d);
    } else if pc.PutPublish? || pc.PutDiscard? {
      LateStepFaithful(h, fs, pc, c, d);
    } else if IsPutting(pc) {
      SpoolStepNeutral(h, fs, pc, c, d);
    } else {
      OtherStepsNeverPut(h, fs, pc, c, d);
    }
  }

  lemma StartNeutral(h: Hash, call: Call, d: Digest)
    ensures !(Finished(h, Start(call), d) || Discarding(h, Start(call), d) || Racing(h, Start(call), d))
  {
  }

  /** The action that may change the file at d in a period that deletes and plants nothing there. */
  predicate RenamesOnto(h: Hash, s: State, a: Action, d: Digest) {
    a.Do? && a.pid in s.procs && s.procs[a.pid].PutRename? && h(s.procs[a.pid].f.hashed) == d
  }

  lemma EntryKept(h: Hash, s: State, a: Action, d: Digest)
    requires Inv(h, s) && !DeleteSucceeds(h, s, a, d) && !(a.PlantAt? && a.d == d) && !RenamesOnto(h, s, a, d)
    ensures Apply(h, s, a).fs.Lstat(d) == s.fs.Lstat(d)
  {
    if a.Do? && a.pid in s.procs {
      EntryStaysUnlessRenamed(h, s, a.pid, a.choice, d);
    } else if !a.Do? {
      IdleKeepsEntry(h, s, a, d);
    }
  }

  lemma EarlierStay(h: Hash, s: State, a: Action, earlier: set<Pid>)
    requires EarlierFinished(s, earlier)
    ensures EarlierFinished(Apply(h, s, a), earlier)
  {
  }

  // ---------- agreement, when nothing is clobbered ----------

  lemma RenameKeepsFaith(h: Hash, s: State, a: Action, d: Digest, earlier: set<Pid>)
    requires Inv(h, s) && AllFaithful(h, s, d, earlier) && EarlierFinished(s, earlier)
    requires RenamesOnto(h, s, a, d) && !Clobbers(h, s, a, d)
    ensures AllFaithful(h, Apply(h, s, a), d, earlier)
  {
    var pc := s.procs[a.pid];
    assert ProcOk(h, s.fs, s.spooled, pc);
    RenameFaithful(h, s.fs, s.spooled, pc.f, pc.seen, a.choice);
    var s' := Apply(h, s, a);
    forall p | p in s'.procs && p !in earlier
      ensures Faithful(h, s'.fs, d, s'.procs[p])
    {
      if p != a.pid {
        assert s'.procs[p] == s.procs[p] && Faithful(h, s.fs, d, s.procs[p]);
      }
    }
  }

  lemma StepKeepsFaith(h: Hash, s: State, a: Action, d: Digest, earlier: set<Pid>)
    requires Inv(h, s) && AllFaithful(h, s, d, earlier) && EarlierFinished(s, earlier)
    requires !DeleteSucceeds(h, s, a, d) && !(a.PlantAt? && a.d == d) && !Clobbers(h, s, a, d)
    ensures AllFaithful(h, Apply(h, s, a), d, earlier)
  {
    if RenamesOnto(h, s, a, d) {
      RenameKeepsFaith(h, s, a, d, earlier);
    } else {
      EntryKept(h, s, a, d);
      if a.Do? && a.pid in s.procs && a.pid !in earlier {
        ActorFaithful(h, s.fs, s.spooled, s.procs[a.pid], a.choice, d);
      } else if a.Begin? {
        StartNeutral(h, a.call, d);
      }
    }
  }

  lemma {:induction false} FaithKept(h: Hash, s: State, actions: seq<Action>, d: Digest, earlier: set<Pid>)
    requires Inv(h, s) && AllFaithful(h, s, d, earlier) && EarlierFinished(s, earlier)
    requires Undisturbed(h, s, actions, d) && NeverClobbers(h, s, actions, d)
    ensures AllFaithful(h, Exec(h, s, actions), d, earlier) && EarlierFinished(Exec(h, s, actions), earlier)
  {
    if actions != [] {
      var k := |actions| - 1;
      var mid := Exec(h, s, actions[..k]);
      UndisturbedPrefix(h, s, actions, d);
      FaithKept(h, s, actions[..k], d, earlier);
      ExecKeepsInv(h, s, actions[..k]);
      StepKeepsFaith(h, mid, actions[k], d, earlier);
      EarlierStay(h, mid, actions[k], earlier);
    }
  }

  lemma FaithfulAgree(h: Hash, s: State, d: Digest, earlier: set<Pid>)
    requires Inv(h, s) && AllFaithful(h, s, d, earlier)
    ensures AllAgree(h, s, d, earlier)
  {
    forall p, q | FinishedSince(h, s, d, earlier, p) && FinishedSince(h, s, d, earlier, q)
      ensures s.procs[p].blob == s.procs[q].blob
    {
      assert ProcOk(h, s.fs, s.spooled, s.procs[p]) && ProcOk(h, s.fs, s.spooled, s.procs[q]);
    }
  }

  // ---------- disagreement, when something is ----------

  /** Once a put is racing, the file at d, if there is one by now, is what some put since has reported. */
  ghost predicate Accounted(h: Hash, s: State, d: Digest, earlier: set<Pid>) {
    (exists p :: p in s.procs && Racing(h, s.procs[p], d)) && d in s.fs.blobs ==>
      exists q :: FinishedSince(h, s, d, earlier, q) && s.fs.Lstat(d) == Some(ReportedStat(s.procs[q].blob))
  }

  lemma FinishedStays(h: Hash, s: State, a: Action, d: Digest, earlier: set<Pid>, q: Pid)
    requires FinishedSince(h, s, d, earlier, q)
    ensures FinishedSince(h, Apply(h, s, a), d, earlier, q) && Apply(h, s, a).procs[q] == s.procs[q]
  {
  }

  lemma AgreedBefore(h: Hash, s: State, a: Action, d: Digest, earlier: set<Pid>)
    requires AllAgree(h, Apply(h, s, a), d, earlier)
    ensures AllAgree(h, s, d, earlier)
  {
    forall p, q | FinishedSince(h, s, d, earlier, p) && FinishedSince(h, s, d, earlier, q)
      ensures s.procs[p].blob == s.procs[q].blob
    {
      FinishedStays(h, s, a, d, earlier, p);
      FinishedStays(h, s, a, d, earlier, q);
    }
  }

  lemma RenameAccounted(h: Hash, s: State, a: Action, d: Digest, earlier: set<Pid>)
    requires Inv(h, s) && EarlierFinished(s, earlier) && Accounted(h, s, d, earlier) && RenamesOnto(h, s, a, d)
    ensures Accounted(h, Apply(h, s, a), d, earlier)
  {
    var pc := s.procs[a.pid];
    var s' := Apply(h, s, a);
    assert ProcOk(h, s.fs, s.spooled, pc) && a.pid !in earlier;
    RenameFaithful(h, s.fs, s.spooled, pc.f, pc.seen, a.choice);
    if s'.procs[a.pid].PutDone? {
      assert FinishedSince(h, s', d, earlier, a.pid);
    } else if d in s.fs.blobs {
      assert Racing(h, pc, d);
      var q :| FinishedSince(h, s, d, earlier, q) && s.fs.Lstat(d) == Some(ReportedStat(s.procs[q].blob));
      FinishedStays(h, s, a, d, earlier, q);
    }
  }

  lemma RacerWasRacing(h: Hash, fs: FS, pc: Pc, c: Choice, d: Digest)
    requires Racing(h, Local(h, fs, pc, c).1, d) && d in fs.blobs
    ensures Racing(h, pc, d)
  {
    if IsPutting(pc) && !pc.PutRename? && !pc.PutPublish? && !pc.PutDiscard? {
      SpoolStepNeutral(h, fs, pc, c, d);
    } else if !IsPutting(pc) {
      OtherStepsNeverPut(h, fs, pc, c, d);
    }
  }

  /** Nobody starts racing for a path with a file on it. */
  lemma RacersWereRacing(h: Hash, s: State, a: Action, d: Digest, p: Pid)
    requires Inv(h, s) && p in Apply(h, s, a).procs && Racing(h, Apply(h, s, a).procs[p], d) && d in s.fs.blobs
    ensures p in s.procs && Racing(h, s.procs[p], d)
  {
    if a.Begin? {
      StartNeutral(h, a.call, d);
    } else if a.Do? && a.pid == p && p in s.procs {
      RacerWasRacing(h, s.fs, s.procs[p], a.choice, d);
    }
  }

  lemma StepAccounted(h: Hash, s: State, a: Action, d: Digest, earlier: set<Pid>)
    requires Inv(h, s) && EarlierFinished(s, earlier) && Accounted(h, s, d, earlier)
    requires !DeleteSucceeds(h, s, a, d) && !(a.PlantAt? && a.d == d)
    ensures Accounted(h, Apply(h, s, a), d, earlier)
  {
    var s' := Apply(h, s, a);
    if RenamesOnto(h, s, a, d) {
      RenameAccounted(h, s, a, d, earlier);
    } else {
      EntryKept(h, s, a, d);
      if p :| p in s'.procs && Racing(h, s'.procs[p], d) && d in s'.fs.blobs {
        assert d in s.fs.blobs;
        RacersWereRacing(h, s, a, d, p);
        var q :| FinishedSince(h, s, d, earlier, q) && s.fs.Lstat(d) == Some(ReportedStat(s.procs[q].blob));
        FinishedStays(h, s, a, d, earlier, q);
      }
    }
  }

  /** A clobbering rename leaves two puts that report different blobs. */
  lemma ClobberDisagrees(h: Hash, s: State, a: Action, d: Digest, earlier: set<Pid>)
    requires Inv(h, s) && EarlierFinished(s, earlier) && Accounted(h, s, d, earlier) && Clobbers(h, s, a, d)
    ensures !AllAgree(h, Apply(h, s, a), d, earlier)
  {
    var pc := s.procs[a.pid];
    assert ProcOk(h, s.fs, s.spooled, pc) && Racing(h, pc, d) && a.pid !in earlier;
    RenameFaithful(h, s.fs, s.spooled, pc.f, pc.seen, a.choice);
    var q :| FinishedSince(h, s, d, earlier, q) && s.fs.Lstat(d) == Some(ReportedStat(s.procs[q].blob));
    FinishedStays(h, s, a, d, earlier, q);
    assert FinishedSince(h, Apply(h, s, a), d, earlier, a.pid);
  }

  lemma {:induction false} AgreementMeansNoClobber(h: Hash, s: State, actions: seq<Action>, d: Digest, earlier: set<Pid>)
    requires Inv(h, s) && EarlierFinished(s, earlier) && Accounted(h, s, d, earlier) && Undisturbed(h, s, actions, d)
    ensures Accounted(h, Exec(h, s, actions), d, earlier) && EarlierFinished(Exec(h, s, actions), earlier)
    ensures AllAgree(h, Exec(h, s, actions), d, earlier) ==> NeverClobbers(h, s, actions, d)
  {
    if actions != [] {
      var k := |actions| - 1;
      var mid := Exec(h, s, actions[..k]);
      UndisturbedPrefix(h, s, actions, d);
      AgreementMeansNoClobber(h, s, actions[..k], d, earlier);
      ExecKeepsInv(h, s, actions[..k]);
      StepAccounted(h, mid, actions[k], d, earlier);
      EarlierStay(h, mid, actions[k], earlier);
      if AllAgree(h, Exec(h, s, actions), d, earlier) {
        AgreedBefore(h, mid, actions[k], d, earlier);
        if Clobbers(h, mid, actions[k], d) {
          ClobberDisagrees(h, mid, actions[k], d, earlier);
        }
      }
    }
  }

  // ---------- exactly when the original is reported ----------

  /**
   * Exactly when repeated puts report the same blob. Over a period that starts with no put of d between its
   * lstat and its end, in which no delete of d succeeds and nothing is planted there, all puts of d that
   * finish report one key, size and creation time if and only if no rename found a file at the path with
   * another stat than its own.
   */
  lemma TimestampsExactly(h: Hash, before: seq<Action>, during: seq<Action>, d: Digest)
    requires Quiet(h, Run(h, before), d) && Undisturbed(h, Run(h, before), during, d)
    ensures AllAgree(h, Run(h, before + during), d, Earlier(h, Run(h, before), d))
            <==> NeverClobbers(h, Run(h, before), during, d)
  {
    var s := Run(h, before);
    var earlier := Earlier(h, s, d);
    RunInv(h, before);
    ExecSplit(h, Init, before, during);
    AgreementMeansNoClobber(h, s, during, d, earlier);
    if NeverClobbers(h, s, during, d) {
      FaithKept(h, s, during, d, earlier);
      RunInv(h, before + during);
      FaithfulAgree(h, Run(h, before + during), d, earlier);
    }
  }

  lemma LastStepIsRenameOrDiscard(h: Hash, fs: FS, pc: Pc, c: Choice)
    requires IsPutting(pc) && PutStep(h, fs, pc, c).1.PutDone?
    ensures pc.PutRename? || pc.PutDiscard?
    ensures PutStep(h, fs, pc, c).1.content == pc.f.hashed
    ensures pc.PutDiscard? ==> PutStep(h, fs, pc, c).0 == fs.UnlinkScratch(pc.f.name)
  {
  }

  lemma RenameReplaces(h: Hash, fs: FS, spooled: set<Bytes>, f: Spool, seen: Stat, c: Choice)
    requires FsOk(h, fs, spooled) && ProcOk(h, fs, spooled, PutRename(f, seen))
    requires PutStep(h, fs, PutRename(f, seen), c).1.PutDone?
    ensures h(f.hashed) in fs.blobs ==>
      PutStep(h, fs, PutRename(f, seen), c).0.blobs[h(f.hashed)] != fs.blobs[h(f.hashed)]
  {
  }

  /**
   * What a put's last step does to a file already at its path. It is left the same file if and only if the
   * put's own lstat had found one, and its stat, creation time included, changes if and only if the step is
   * a clobbering rename.
   */
  lemma KeepsExistingExactly(h: Hash, before: seq<Action>, pid: Pid, c: Choice)
    requires pid in Run(h, before).procs && IsPutting(Run(h, before).procs[pid])
    requires Apply(h, Run(h, before), Do(pid, c)).procs[pid].PutDone?
    ensures var s, s' := Run(h, before), Apply(h, Run(h, before), Do(pid, c));
            var d := h(s'.procs[pid].content);
            d in s.fs.blobs ==>
              && (d in s'.fs.blobs && s'.fs.blobs[d] == s.fs.blobs[d] <==> s.procs[pid].PutDiscard?)
              && (s'.fs.Lstat(d) != s.fs.Lstat(d) <==> Clobbers(h, s, Do(pid, c), d))
  {
    RunInv(h, before);
    var s := Run(h, before);
    var pc := s.procs[pid];
    assert ProcOk(h, s.fs, s.spooled, pc);
    LastStepIsRenameOrDiscard(h, s.fs, pc, c);
    if pc.PutRename? {
      RenameFaithful(h, s.fs, s.spooled, pc.f, pc.seen, c);
      RenameReplaces(h, s.fs, s.spooled, pc.f, pc.seen, c);
    }
  }

  // ---------- puts that do not race ----------

  ghost predicate OneRacer(h: Hash, s: State, d: Digest) {
    forall p, q :: p in s.procs && q in s.procs && Racing(h, s.procs[p], d) && Racing(h, s.procs[q], d) ==> p == q
  }

  /** No two puts of d are both between a lstat that found nothing and their rename, at any point of the run. */
  ghost predicate NeverRaced(h: Hash, s: State, actions: seq<Action>, d: Digest) {
    forall k :: 0 <= k <= |actions| ==> OneRacer(h, Exec(h, s, actions[..k]), d)
  }

  lemma NeverRacedPrefix(h: Hash, s: State, actions: seq<Action>, d: Digest)
    requires NeverRaced(h, s, actions, d) && actions != []
    ensures NeverRaced(h, s, actions[..|actions| - 1], d)
  {
    var sofar := actions[..|actions| - 1];
    forall j | 0 <= j <= |sofar|
      ensures OneRacer(h, Exec(h, s, sofar[..j]), d)
    {
      assert sofar[..j] == actions[..j];
    }
  }

  /** Whoever is racing for d races for an empty path. */
  ghost predicate RacersFoundNothing(h: Hash, s: State, d: Digest) {
    forall p :: p in s.procs && Racing(h, s.procs[p], d) ==> d !in s.fs.blobs
  }

  lemma StepFoundNothing(h: Hash, s: State, a: Action, d: Digest)
    requires Inv(h, s) && RacersFoundNothing(h, s, d) && OneRacer(h, s, d)
    requires !DeleteSucceeds(h, s, a, d) && !(a.PlantAt? && a.d == d)
    ensures RacersFoundNothing(h, Apply(h, s, a), d) && !Clobbers(h, s, a, d)
  {
    var s' := Apply(h, s, a);
    if RenamesOnto(h, s, a, d) {
      var pc := s.procs[a.pid];
      assert Racing(h, pc, d) && ProcOk(h, s.fs, s.spooled, pc);
      RenameFaithful(h, s.fs, s.spooled, pc.f, pc.seen, a.choice);
    } else {
      EntryKept(h, s, a, d);
      forall p | p in s'.procs && Racing(h, s'.procs[p], d)
        ensures d !in s'.fs.blobs
      {
        if d in s.fs.blobs {
          RacersWereRacing(h, s, a, d, p);
        }
      }
    }
  }

  lemma {:induction false} NeverRacedNeverClobbers(h: Hash, s: State, actions: seq<Action>, d: Digest)
    requires Inv(h, s) && Quiet(h, s, d) && NeverRaced(h, s, actions, d) && Undisturbed(h, s, actions, d)
    ensures RacersFoundNothing(h, Exec(h, s, actions), d) && NeverClobbers(h, s, actions, d)
  {
    if actions != [] {
      var k := |actions| - 1;
      NeverRacedPrefix(h, s, actions, d);
      UndisturbedPrefix(h, s, actions, d);
      NeverRacedNeverClobbers(h, s, actions[..k], d);
      ExecKeepsInv(h, s, actions[..k]);
      StepFoundNothing(h, Exec(h, s, actions[..k]), actions[k], d);
    }
  }

  /** A file that is there when no put is racing for its path stays that file, whatever puts do. */
  lemma {:induction false} StoredFileStays(h: Hash, s: State, actions: seq<Action>, d: Digest)
    requires Inv(h, s) && Quiet(h, s, d) && d in s.fs.blobs && Undisturbed(h, s, actions, d)
    ensures Exec(h, s, actions).fs.Lstat(d) == s.fs.Lstat(d)
    ensures forall p :: p in Exec(h, s, actions).procs ==> !Racing(h, Exec(h, s, actions).procs[p], d)
  {
    if actions != [] {
      var k := |actions| - 1;
      var mid := Exec(h, s, actions[..k]);
      UndisturbedPrefix(h, s, actions, d);
      StoredFileStays(h, s, actions[..k], d);
      ExecKeepsInv(h, s, actions[..k]);
      EntryKept(h, mid, actions[k], d);
      forall p | p in Exec(h, s, actions).procs
        ensures !Racing(h, Exec(h, s, actions).procs[p], d)
      {
        if Racing(h, Exec(h, s, actions).procs[p], d) {
          RacersWereRacing(h, mid, actions[k], d, p);
        }
      }
    }
  }

  /**
   * The original timestamp. Over a period that starts with no put of d between its lstat and its end, deletes
   * nothing at d, plants nothing there and never has two puts of d racing to publish, every put of d that
   * finishes reports the same key, size and creation time: those of the file there at the end, which is the
   * file that was there at the start if there was one.
   */
  lemma RepeatedPutsReportTheOriginal(h: Hash, before: seq<Action>, during: seq<Action>, d: Digest, p: Pid, q: Pid)
    requires Quiet(h, Run(h, before), d) && Undisturbed(h, Run(h, before), during, d)
    requires NeverRaced(h, Run(h, before), during, d)
    requires FinishedSince(h, Run(h, before + during), d, Earlier(h, Run(h, before), d), p)
    requires FinishedSince(h, Run(h, before + during), d, Earlier(h, Run(h, before), d), q)
    ensures var s, s' := Run(h, before), Run(h, before + during);
            && s'.procs[p].blob == s'.procs[q].blob
            && Describes(s'.procs[p].blob, s'.fs, d)
            && (d in s.fs.blobs ==> Describes(s'.procs[p].blob, s.fs, d))
  {
    var s := Run(h, before);
    RunInv(h, before);
    ExecSplit(h, Init, before, during);
    NeverRacedNeverClobbers(h, s, during, d);
    FaithKept(h, s, during, d, Earlier(h, s, d));
    TimestampsExactly(h, before, during, d);
    if d in s.fs.blobs {
      StoredFileStays(h, s, during, d);
    }
  }

  // ---------- puts that do not overlap ----------

  /** A put whose caller is still waiting. */
  predicate InFlight(s: State, p: Pid) {
    p in s.procs && IsPutting(s.procs[p])
  }

  /** The call has spooled a content hashing to d, and has not failed. */
  predicate HasSpooled(h: Hash, pc: Pc, d: Digest) {
    ((pc.PutPublish? || pc.PutRename? || pc.PutDiscard?) && h(pc.f.hashed) == d) || Finished(h, pc, d)
  }

  /** The call is, in this run, a put of a content hashing to d. */
  ghost predicate Puts(h: Hash, s: State, actions: seq<Action>, d: Digest, p: Pid) {
    exists k :: 0 <= k <= |actions| && p in Exec(h, s, actions[..k]).procs
                && HasSpooled(h, Exec(h, s, actions[..k]).procs[p], d)
  }

  /** No two puts of d are ever in flight together, and none is when the period begins. */
  ghost predicate NeverOverlap(h: Hash, s: State, actions: seq<Action>, d: Digest) {
    && (forall p :: Puts(h, s, actions, d, p) ==> !InFlight(s, p))
    && (forall k, p, q ::
          (0 <= k <= |actions| && Puts(h, s, actions, d, p) && Puts(h, s, actions, d, q)
           && InFlight(Exec(h, s, actions[..k]), p) && InFlight(Exec(h, s, actions[..k]), q)) ==> p == q)
  }

  lemma NeverOverlapNeverRaced(h: Hash, s: State, actions: seq<Action>, d: Digest)
    requires NeverOverlap(h, s, actions, d)
    ensures Quiet(h, s, d) && NeverRaced(h, s, actions, d)
  {
    forall p | p in s.procs
      ensures !Racing(h, s.procs[p], d) && !Discarding(h, s.procs[p], d)
    {
      if Racing(h, s.procs[p], d) || Discarding(h, s.procs[p], d) {
        assert actions[..0] == [] && HasSpooled(h, Exec(h, s, actions[..0]).procs[p], d);
        assert InFlight(s, p) && Puts(h, s, actions, d, p);
      }
    }
    forall k | 0 <= k <= |actions|
      ensures OneRacer(h, Exec(h, s, actions[..k]), d)
    {
      var at := Exec(h, s, actions[..k]);
      forall p, q | p in at.procs && q in at.procs && Racing(h, at.procs[p], d) && Racing(h, at.procs[q], d)
        ensures p == q
      {
        assert HasSpooled(h, at.procs[p], d) && HasSpooled(h, at.procs[q], d);
        assert Puts(h, s, actions, d, p) && Puts(h, s, actions, d, q);
      }
    }
  }

  /**
   * The promise as a caller can rely on it: puts of the same content that do not overlap in time, with no
   * successful delete of it and nothing planted, all report the original write.
   */
  lemma NonOverlappingPutsReportTheOriginal(h: Hash, before: seq<Action>, during: seq<Action>, d: Digest, p: Pid, q: Pid)
    requires NeverOverlap(h, Run(h, before), during, d) && Undisturbed(h, Run(h, before), during, d)
    requires FinishedSince(h, Run(h, before + during), d, Earlier(h, Run(h, before), d), p)
    requires FinishedSince(h, Run(h, before + during), d, Earlier(h, Run(h, before), d), q)
    ensures var s, s' := Run(h, before), Run(h, before + during);
            && s'.procs[p].blob == s'.procs[q].blob
            && Describes(s'.procs[p].blob, s'.fs, d)
            && (d in s.fs.blobs ==> Describes(s'.procs[p].blob, s.fs, d))
  {
    NeverOverlapNeverRaced(h, Run(h, before), during, d);
    RepeatedPutsReportTheOriginal(h, before, during, d, p, q);
  }

  // ---------- the contract fails for overlapping puts ----------

  /** Extends a run from s0 to s by a call. */
  lemma ThenBegin(h: Hash, s0: State, sofar: seq<Action>, s: State, pid: Pid, call: Call)
      returns (actions: seq<Action>, t: State)
    requires Exec(h, s0, sofar) == s && pid !in s.procs
    ensures Exec(h, s0, actions) == t && t.fs == s.fs && t.procs == s.procs[pid := Start(call)]
  {
    actions := sofar + [Begin(pid, call)];
    t := Apply(h, s, Begin(pid, call));
    assert actions[..|sofar|] == sofar;
  }

  /** Extends a run from s0 to s by steps of one call. */
  lemma ThenSolo(h: Hash, s0: State, sofar: seq<Action>, s: State, pid: Pid, choices: seq<Choice>)
      returns (actions: seq<Action>, t: State)
    requires Exec(h, s0, sofar) == s && pid in s.procs
    ensures Exec(h, s0, actions) == t
    ensures t.fs == Solo(h, s.fs, s.procs[pid], choices).0
    ensures t.procs == s.procs[pid := Solo(h, s.fs, s.procs[pid], choices).1]
  {
    actions := sofar + Steps(pid, choices);
    t := Exec(h, s0, actions);
    ExecSplit(h, s0, sofar, Steps(pid, choices));
    SoloIsARun(h, s, pid, choices);
  }

  /** Extends a run from s0 to s by time passing. */
  lemma ThenTick(h: Hash, s0: State, sofar: seq<Action>, s: State) returns (actions: seq<Action>, t: State)
    requires Exec(h, s0, sofar) == s
    ensures Exec(h, s0, actions) == t && t == s.(fs := s.fs.(clock := s.fs.clock + 1))
  {
    actions := sofar + [Tick];
    t := Apply(h, s, Tick);
    assert actions[..|sofar|] == sofar;
  }

  lemma AppendNothing(fs: FS, name: nat)
    ensures fs.Mkstemp(name).Append(|fs.inodes|, []) == fs.Mkstemp(name)
  {
    var made := fs.Mkstemp(name);
    assert made.inodes[|fs.inodes|].data + [] == made.inodes[|fs.inodes|].data;
    assert made.Append(|fs.inodes|, []).inodes == made.inodes;
  }

  /** Flushing, syncing and closing a scratch file nothing was written to. */
  lemma CloseEmptyRun(h: Hash, fs: FS, sofar: seq<Choice>, made: FS, f: Spool) returns (choices: seq<Choice>)
    requires made == fs.Mkstemp(f.name) && f == Spool(f.name, |fs.inodes|, [], [])
    requires Solo(h, fs, PutPrepare, sofar) == (made, PutSpool(Flushing, f))
    ensures Solo(h, fs, PutPrepare, choices) == (made, PutPublish(Inspecting, f))
  {
    AppendNothing(fs, f.name);
    SpoolRun(h, fs, sofar, made, Flushing, f, Ok);
    SpoolRun(h, fs, sofar + [Ok], made, Syncing, f, Ok);
    SpoolRun(h, fs, sofar + [Ok] + [Ok], made, Closing, f, Ok);
    choices := sofar + [Ok] + [Ok] + [Ok];
  }

  /** A put of the empty content, alone, up to the point where it inspects its target. */
  lemma SpoolEmptyRun(h: Hash, fs: FS, name: nat) returns (choices: seq<Choice>)
    requires name !in fs.scratch
    ensures Solo(h, fs, PutPrepare, choices)
         == (fs.Mkstemp(name), PutPublish(Inspecting, Spool(name, |fs.inodes|, [], [])))
  {
    var made, f := fs.Mkstemp(name), Spool(name, |fs.inodes|, [], []);
    OpeningRun(h, fs, name);
    choices := [Ok, Name(name)];
    SpoolRun(h, fs, choices, made, Opening, f, Ok);
    SpoolRun(h, fs, choices + [Ok], made, Writing, f, Eof);
    choices := CloseEmptyRun(h, fs, choices + [Ok] + [Eof], made, f);
  }

  /** A put of the empty content finds nothing at its path. */
  lemma PutEmptyRaces(h: Hash, s0: State, sofar: seq<Action>, s: State, pid: Pid, name: nat)
      returns (actions: seq<Action>, t: State)
    requires Exec(h, s0, sofar) == s && pid !in s.procs && name !in s.fs.scratch && h([]) !in s.fs.blobs
    ensures Exec(h, s0, actions) == t && t.fs == s.fs.Mkstemp(name)
    ensures t.procs == s.procs[pid := PutPublish(MakingDirs, Spool(name, |s.fs.inodes|, [], []))]
  {
    actions, t := ThenBegin(h, s0, sofar, s, pid, Put);
    var choices := SpoolEmptyRun(h, s.fs, name);
    PublishRun(h, s.fs, choices, s.fs.Mkstemp(name), Spool(name, |s.fs.inodes|, [], []));
    actions, t := ThenSolo(h, s0, actions, t, pid, choices + [Ok]);
  }

  /** A racing put that nothing stops publishes its own file, whatever is at the path by now. */
  lemma RacerPublishes(h: Hash, s0: State, sofar: seq<Action>, s: State, pid: Pid, f: Spool)
      returns (actions: seq<Action>, t: State)
    requires Exec(h, s0, sofar) == s && pid in s.procs && s.procs[pid] == PutPublish(MakingDirs, f)
    requires s.fs.CanRename(f.name, h(f.hashed))
    ensures Exec(h, s0, actions) == t && t.fs == s.fs.Rename(f.name, h(f.hashed))
    ensures var st := s.fs.LstatScratch(f.name).value;
            t.procs == s.procs[pid := PutDone(f.hashed, StoredBlob(KeyOf(h(f.hashed)), st.size, st.mtime))]
  {
    SoloTwo(h, s.fs, PutPublish(MakingDirs, f), Ok, Ok);
    SoloSnoc(h, s.fs, PutPublish(MakingDirs, f), [Ok, Ok], Ok);
    actions, t := ThenSolo(h, s0, sofar, s, pid, [Ok, Ok] + [Ok]);
  }

  /** A run after which the empty content is stored and nothing else has happened. */
  lemma PublishEmpty(h: Hash) returns (actions: seq<Action>, t: State)
    ensures Run(h, actions) == t && t.procs.Keys == {0}
    ensures t.fs == FS(map[h([]) := 0], map[], [Inode(Regular, [], 0)], 0)
  {
    actions, t := PutEmptyRaces(h, Init, [], Init, 0, 0);
    actions, t := RacerPublishes(h, Init, actions, t, 0, Spool(0, 0, [], []));
  }

  /** A delete of a blob that is there, alone. */
  lemma DeleteAlone(h: Hash, s0: State, sofar: seq<Action>, s: State, pid: Pid, d: Digest)
      returns (actions: seq<Action>, t: State)
    requires Exec(h, s0, sofar) == s && pid !in s.procs && s.fs.CanUnlink(d)
    ensures Exec(h, s0, actions) == t && t.fs == s.fs.UnlinkBlob(d) && t.procs == s.procs[pid := DeleteDone(d)]
  {
    ResolveInvertsKeyOf(KeyOf(d), d);
    actions, t := ThenBegin(h, s0, sofar, s, pid, Call.Delete(KeyOf(d)));
    SoloOne(h, s.fs, DeleteUnlink(d), Ok);
    actions, t := ThenSolo(h, s0, actions, t, pid, [Ok]);
  }

  /**
   * The service documents that a retrieve of an unknown key is not logged. It logs after its size lookup and
   * opens later, so one whose blob is deleted in between is logged and still ends in BlobNotFound.
   */
  lemma LoggedRetrievalCanMiss(h: Hash) returns (actions: seq<Action>)
    ensures 1 in Run(h, actions).procs && Run(h, actions).procs[1] == GetMissed(h([]), Some(0))
  {
    var d, t := h([]), Init;
    actions, t := PublishEmpty(h);
    ResolveInvertsKeyOf(KeyOf(d), d);
    actions, t := ThenBegin(h, Init, actions, t, 1, Retrieve(KeyOf(d)));
    SoloOne(h, t.fs, RetrieveSize(d), Ok);
    actions, t := ThenSolo(h, Init, actions, t, 1, [Ok]);
    assert t.procs[1] == GetOpen(d, Some(0));
    actions, t := DeleteAlone(h, Init, actions, t, 2, d);
    SoloOne(h, t.fs, GetOpen(d, Some(0)), Ok);
    actions, t := ThenSolo(h, Init, actions, t, 1, [Ok]);
  }

  /**
   * The storage contract promises that a repeat call reports the original write's timestamp. Two overlapping
   * puts of the same bytes break it: both find the path empty, both rename, and both report their own file.
   */
  lemma OverlappingPutsDisagree(h: Hash) returns (actions: seq<Action>)
    ensures var s := Run(h, actions);
            && 0 in s.procs && 1 in s.procs && s.procs[0].PutDone? && s.procs[1].PutDone?
            && s.procs[0].content == s.procs[1].content
            && s.procs[0].blob.key == s.procs[1].blob.key
            && s.procs[0].blob.createdAt != s.procs[1].blob.createdAt
  {
    var t := Init;
    actions, t := PutEmptyRaces(h, Init, [], Init, 0, 0);
    actions, t := ThenTick(h, Init, actions, t);
    actions, t := PutEmptyRaces(h, Init, actions, t, 1, 1);
    assert t.fs.inodes == [Inode(Regular, [], 0), Inode(Regular, [], 1)];
    actions, t := RacerPublishes(h, Init, actions, t, 0, Spool(0, 0, [], []));
    actions, t := RacerPublishes(h, Init, actions, t, 1, Spool(1, 1, [], []));
  }
}
