/** Safety of the blob store over every run: what a path shows, what a stream yields, what scratch remains. */
module BlobSafety {
  import opened Prelude
  import opened KeyLayout
  import opened FileSystem
  import opened BlobMachine
  import opened BlobInvariant

  lemma RunInv(h: Hash, actions: seq<Action>)
    ensures Inv(h, Run(h, actions))
  {
    ExecKeepsInv(h, Init, actions);
  }

  /**
   * Content addressing. Whatever fails, whatever is planted and however calls interleave, a regular file at a
   * digest's path holds exactly a content that some put spooled to the end, and it hashes to that digest:
   * partial content is never visible there.
   */
  lemma ContentAddressed(h: Hash, actions: seq<Action>, d: Digest)
    ensures d in Contents(Run(h, actions).fs) ==>
              && h(Contents(Run(h, actions).fs)[d]) == d
              && Contents(Run(h, actions).fs)[d] in Run(h, actions).spooled
  {
    RunInv(h, actions);
    var s := Run(h, actions);
    if d in Contents(s.fs) {
      assert Whole(h, s.fs, s.spooled, d, s.fs.blobs[d]);
    }
  }

  // ---------- what a put stores ----------

  /** The bytes the source of this put has yielded: the chunks delivered to it while it was writing, in order. */
  function Delivered(h: Hash, actions: seq<Action>, pid: Pid): Bytes {
    if actions == [] then []
    else
      var k := |actions| - 1;
      var s, a := Run(h, actions[..k]), actions[k];
      Delivered(h, actions[..k], pid)
      + if a.Do? && a.pid == pid && a.choice.Chunk? && pid in s.procs && s.procs[pid].PutSpool? && s.procs[pid].stage.Writing?
        then a.choice.bytes else []
  }

  /** The content a put stands for so far; nothing for a call that is no put, and none once it failed without a trace. */
  function ContentOf(pc: Pc): Option<Bytes> {
    match pc
    case PutPrepare => Some([])
    case PutMkstemp => Some([])
    case PutSpool(_, f) => Some(f.hashed)
    case PutPublish(_, f) => Some(f.hashed)
    case PutRename(f, _) => Some(f.hashed)
    case PutDiscard(f, _) => Some(f.hashed)
    case PutDone(content, _) => Some(content)
    case PutFailed(why) => if why.NoScratch? || why.SpoolCleaned? then None else Some(why.left.hashed)
    case _ => None
  }

  /** A put's own step adds to its content exactly the chunk it was handed while writing. */
  lemma PutStepContent(h: Hash, fs: FS, pc: Pc, c: Choice)
    requires IsPutting(pc)
    ensures var pc' := PutStep(h, fs, pc, c).1;
            ContentOf(pc').Some? ==>
              ContentOf(pc').value
              == ContentOf(pc).value + if c.Chunk? && pc.PutSpool? && pc.stage.Writing? then c.bytes else []
  {
  }

  lemma OwnStepContent(h: Hash, fs: FS, pc: Pc, c: Choice)
    ensures var pc' := Local(h, fs, pc, c).1;
            ContentOf(pc').Some? ==>
              && ContentOf(pc).Some?
              && ContentOf(pc').value
                 == ContentOf(pc).value + if c.Chunk? && pc.PutSpool? && pc.stage.Writing? then c.bytes else []
  {
    if IsPutting(pc) {
      PutStepContent(h, fs, pc, c);
    }
  }

  lemma StartContent(call: Call)
    ensures ContentOf(Start(call)).Some? ==> ContentOf(Start(call)).value == []
  {
  }

  lemma {:induction false} ContentIsDelivered(h: Hash, actions: seq<Action>, pid: Pid)
    ensures pid !in Run(h, actions).procs ==> Delivered(h, actions, pid) == []
    ensures pid in Run(h, actions).procs && ContentOf(Run(h, actions).procs[pid]).Some? ==>
      ContentOf(Run(h, actions).procs[pid]).value == Delivered(h, actions, pid)
  {
    if actions != [] {
      var k := |actions| - 1;
      var s, a := Run(h, actions[..k]), actions[k];
      ContentIsDelivered(h, actions[..k], pid);
      if a.Do? && a.pid == pid && pid in s.procs {
        OwnStepContent(h, s.fs, s.procs[pid], a.choice);
      } else if a.Begin? {
        StartContent(a.call);
      }
    }
  }

  /**
   * A put that returned stored exactly what its source yielded, byte for byte and in order, under the hash of
   * that; and the size it reports is the length of that, where no other content spooled has the same hash.
   */
  lemma PutStoresWhatItWasGiven(h: Hash, actions: seq<Action>, pid: Pid)
    requires pid in Run(h, actions).procs && Run(h, actions).procs[pid].PutDone?
    ensures var (s, done, given) := (Run(h, actions), Run(h, actions).procs[pid], Delivered(h, actions, pid));
            && done.content == given && given in s.spooled
            && done.blob.key == "sha256:" + h(given)
            && ((forall b :: b in s.spooled && h(b) == h(given) ==> b == given) ==> done.blob.size == |given|)
  {
    RunInv(h, actions);
    ContentIsDelivered(h, actions, pid);
    var s := Run(h, actions);
    assert ProcOk(h, s.fs, s.spooled, s.procs[pid]);
  }

  // ---------- modification times ----------

  /** The clock when this inode was created or its bytes last changed. */
  function WrittenAt(h: Hash, actions: seq<Action>, ino: nat): nat {
    if actions == [] then 0
    else
      var k := |actions| - 1;
      var was, now := Run(h, actions[..k]).fs, Run(h, actions).fs;
      if ino < |now.inodes| && (ino >= |was.inodes| || now.inodes[ino].data != was.inodes[ino].data) then was.clock
      else WrittenAt(h, actions[..k], ino)
  }

  lemma AppendTimes(fs: FS, target: nat, bytes: Bytes, ino: nat)
    ensures var fs' := fs.Append(target, bytes);
            |fs'.inodes| == |fs.inodes| && fs'.clock == fs.clock &&
            (ino < |fs.inodes| ==>
               if fs'.inodes[ino].data == fs.inodes[ino].data then fs'.inodes[ino].mtime == fs.inodes[ino].mtime
               else fs'.inodes[ino].mtime == fs.clock)
  {
    if ino == target && ino < |fs.inodes| && bytes != [] {
      assert |fs.Append(target, bytes).inodes[ino].data| > |fs.inodes[ino].data|;
    }
  }

  lemma SpoolTimes(fs: FS, stage: SpoolStage, f: Spool, c: Choice, ino: nat)
    ensures var fs' := SpoolStep(fs, stage, f, c).0;
            |fs'.inodes| == |fs.inodes| && fs'.clock == fs.clock &&
            (ino < |fs.inodes| ==>
               if fs'.inodes[ino].data == fs.inodes[ino].data then fs'.inodes[ino].mtime == fs.inodes[ino].mtime
               else fs'.inodes[ino].mtime == fs.clock)
  {
    AppendTimes(fs, f.ino, f.pending, ino);
    if stage.Writing? && c.Chunk? {
      var waiting := f.pending + c.bytes;
      AppendTimes(fs, f.ino, waiting[..Min(c.written, |waiting|)], ino);
    }
  }

  /** A step creates an inode, or changes the bytes of one, at the clock's time, and touches no other's time. */
  lemma StepTimes(h: Hash, fs: FS, pc: Pc, c: Choice, ino: nat)
    ensures var fs' := Local(h, fs, pc, c).0;
            && |fs.inodes| <= |fs'.inodes| && fs'.clock == fs.clock
            && (ino < |fs'.inodes| ==>
                  if ino < |fs.inodes| && fs'.inodes[ino].data == fs.inodes[ino].data
                  then fs'.inodes[ino].mtime == fs.inodes[ino].mtime else fs'.inodes[ino].mtime == fs.clock)
  {
    if pc.PutSpool? {
      SpoolTimes(fs, pc.stage, pc.f, c, ino);
    }
  }

  /** In every run an inode's modification time is the moment its bytes were last written, or it was made. */
  lemma {:induction false} ModifiedWhenWritten(h: Hash, actions: seq<Action>, ino: nat)
    requires ino < |Run(h, actions).fs.inodes|
    ensures Run(h, actions).fs.inodes[ino].mtime == WrittenAt(h, actions, ino)
  {
    if actions != [] {
      var k := |actions| - 1;
      var s, a := Run(h, actions[..k]), actions[k];
      if a.Do? && a.pid in s.procs {
        StepTimes(h, s.fs, s.procs[a.pid], a.choice, ino);
      }
      if ino < |s.fs.inodes| {
        ModifiedWhenWritten(h, actions[..k], ino);
      }
    }
  }

  // ---------- a put goes on ----------

  /** Working answers a put needs at most before it returns or raises. */
  function StepsLeft(pc: Pc): nat {
    match pc
    case PutPrepare => 11
    case PutMkstemp => 10
    case PutSpool(stage, _) =>
      (match stage
       case Opening => 9 case Writing => 8 case Flushing => 7 case Syncing => 6 case Closing => 5
       case Aborting => 2 case Cleaning => 1)
    case PutPublish(at, _) => (match at case Inspecting => 4 case MakingDirs => 3 case Measuring => 2)
    case PutRename(_, _) => 1
    case PutDiscard(_, _) => 1
    case _ => 0
  }

  /** The answer that lets a put get on: its call works, the source ends, mkstemp draws an unused name. */
  predicate GoesWell(fs: FS, pc: Pc, c: Choice) {
    match pc
    case PutMkstemp => c.Name? && c.name !in fs.scratch
    case PutSpool(stage, _) => c == if stage.Writing? then Eof else Ok
    case _ => c == Ok
  }

  lemma SpoolGoesOn(fs: FS, stage: SpoolStage, f: Spool, c: Choice)
    requires c == if stage.Writing? then Eof else Ok
    ensures var pc' := SpoolStep(fs, stage, f, c).1;
            && StepsLeft(pc') < StepsLeft(PutSpool(stage, f))
            && (pc'.PutFailed? <==> stage.Cleaning?) && (pc'.PutFailed? || pc'.PutSpool? || pc'.PutPublish?)
  {
  }

  lemma PublishGoesOn(h: Hash, fs: FS, spooled: set<Bytes>, at: PublishStage, f: Spool)
    requires FsOk(h, fs, spooled) && Spooled(fs, spooled, f)
    ensures var pc' := PublishStep(h, fs, at, f, Ok).1;
            && StepsLeft(pc') < StepsLeft(PutPublish(at, f))
            && (pc'.PutFailed? || pc'.PutPublish? || pc'.PutRename? || pc'.PutDiscard?)
            && (pc'.PutFailed? <==> at.Inspecting? && h(f.hashed) in fs.blobs
                                     && fs.Node(fs.blobs[h(f.hashed)]).kind != Regular)
            && (pc'.PutDiscard? ==>
                  && h(f.hashed) in fs.blobs
                  && pc'.seen.size == |fs.Node(fs.blobs[h(f.hashed)]).data|
                  && pc'.seen.mtime == fs.Node(fs.blobs[h(f.hashed)]).mtime)
            && (pc'.PutRename? ==> pc'.seen.size == |fs.Node(f.ino).data| && pc'.seen.mtime == fs.Node(f.ino).mtime)
  {
  }

  lemma RenameGoesOn(h: Hash, fs: FS, spooled: set<Bytes>, f: Spool, seen: Stat)
    requires FsOk(h, fs, spooled) && Spooled(fs, spooled, f)
    ensures var pc' := PutStep(h, fs, PutRename(f, seen), Ok).1;
            && (pc'.PutFailed? || pc'.PutDone?)
            && (pc'.PutFailed? <==> h(f.hashed) in fs.blobs && fs.Node(fs.blobs[h(f.hashed)]).kind == Directory)
            && (pc'.PutDone? ==> pc'.blob.size == seen.size && pc'.blob.createdAt == seen.mtime)
  {
  }

  /**
   * A put always gets on. At any moment of any run, a put whose next call works is nearer its end, and it
   * fails there only if what it finds at its path is not a regular file, or it was cleaning up anyway. What it
   * found, and what it finally reports, is the stat of the file.
   */
  lemma PutGoesOn(h: Hash, actions: seq<Action>, pid: Pid, c: Choice)
    requires pid in Run(h, actions).procs && IsPutting(Run(h, actions).procs[pid])
    requires GoesWell(Run(h, actions).fs, Run(h, actions).procs[pid], c)
    ensures var s, pc, pc' := Run(h, actions), Run(h, actions).procs[pid], Run(h, actions + [Do(pid, c)]).procs[pid];
            && StepsLeft(pc') < StepsLeft(pc)
            && (IsPutting(pc') || pc'.PutDone? || pc'.PutFailed?)
            && (pc'.PutFailed? <==>
                  || (pc.PutSpool? && pc.stage.Cleaning?)
                  || (pc.PutPublish? && pc.at.Inspecting? && h(pc.f.hashed) in s.fs.blobs
                      && s.fs.Node(s.fs.blobs[h(pc.f.hashed)]).kind != Regular)
                  || (pc.PutRename? && h(pc.f.hashed) in s.fs.blobs
                      && s.fs.Node(s.fs.blobs[h(pc.f.hashed)]).kind == Directory))
            && (pc'.PutDiscard? ==>
                  var node := s.fs.Node(s.fs.blobs[h(pc.f.hashed)]);
                  pc'.seen.size == |node.data| && pc'.seen.mtime == node.mtime)
            && (pc'.PutRename? ==>
                  pc'.seen.size == |s.fs.Node(pc.f.ino).data| && pc'.seen.mtime == s.fs.Node(pc.f.ino).mtime)
            && (pc'.PutDone? ==> pc'.blob.size == pc.seen.size && pc'.blob.createdAt == pc.seen.mtime)
  {
    assert (actions + [Do(pid, c)])[..|actions|] == actions;
    RunInv(h, actions);
    var s := Run(h, actions);
    var pc := s.procs[pid];
    assert ProcOk(h, s.fs, s.spooled, pc);
    if pc.PutSpool? {
      SpoolGoesOn(s.fs, pc.stage, pc.f, c);
    } else if pc.PutPublish? {
      PublishGoesOn(h, s.fs, s.spooled, pc.at, pc.f);
    } else if pc.PutRename? {
      RenameGoesOn(h, s.fs, s.spooled, pc.f, pc.seen);
    }
  }

  // ---------- streams ----------

  /** How far a stream over inode ino with this content has come. */
  ghost predicate Streams(pc: Pc, d: Digest, ino: nat, content: Bytes, sofar: seq<Bytes>) {
    match pc
    case GetRead(e, _, i, cursor, out) =>
      e == d && i == ino && sofar <= out && Yielded(content, cursor, out)
    case GetDropped(e, _, i, cursor, out) =>
      e == d && i == ino && sofar <= out && Yielded(content, cursor, out)
    case GetDone(e, _, out) => e == d && sofar <= out && Flatten(out) == content && ChunksBounded(out)
    case _ => false
  }

  ghost predicate StreamHolds(h: Hash, s: State, pid: Pid, d: Digest, ino: nat, content: Bytes, sofar: seq<Bytes>) {
    && Inv(h, s)
    && pid in s.procs
    && Streams(s.procs[pid], d, ino, content, sofar)
    && (Reads(s.procs[pid]).Some? ==> ino < |s.fs.inodes| && s.fs.inodes[ino].data == content)
  }

  /** What a read step makes of a stream, in terms of the content it reads. */
  lemma ReadStepReads(fs: FS, d: Digest, logged: Option<nat>, ino: nat, cursor: nat, out: seq<Bytes>, c: Choice)
    ensures var chunk := ReadChunk(fs.Node(ino).data, cursor);
            ReadStep(fs, GetRead(d, logged, ino, cursor, out), c)
            == if c.Fail? || c.Drop? then GetDropped(d, logged, ino, cursor, out)
               else if chunk == [] then GetDone(d, logged, out)
               else GetRead(d, logged, ino, cursor + |chunk|, out + [chunk])
  {
  }

  lemma StreamReads(fs: FS, pc: Pc, c: Choice, d: Digest, content: Bytes, sofar: seq<Bytes>)
    requires pc.GetRead? && Streams(pc, d, pc.ino, content, sofar) && fs.Node(pc.ino).data == content
    ensures Streams(ReadStep(fs, pc, c), d, pc.ino, content, sofar)
  {
    ReadStepReads(fs, pc.d, pc.logged, pc.ino, pc.cursor, pc.out, c);
    var chunk := ReadChunk(content, pc.cursor);
    if chunk == [] {
      YieldedAll(content, pc.cursor, pc.out);
    } else {
      YieldOne(content, pc.cursor, pc.out);
      assert sofar <= pc.out <= pc.out + [chunk];
    }
  }

  /** The stream's own step reads on, stops, or ends. */
  lemma StreamOwnStep(h: Hash, fs: FS, pc: Pc, c: Choice, d: Digest, ino: nat, content: Bytes, sofar: seq<Bytes>)
    requires Streams(pc, d, ino, content, sofar)
    requires pc.GetRead? ==> fs.Node(ino).data == content
    ensures Local(h, fs, pc, c).0 == fs
    ensures Streams(Local(h, fs, pc, c).1, d, ino, content, sofar)
  {
    if pc.GetRead? {
      StreamReads(fs, pc, c, d, content, sofar);
    }
  }

  /** Anyone else's step leaves the inode a stream reads from alone. */
  lemma StreamOtherStep(h: Hash, s: State, pid: Pid, c: Choice, reader: Pid)
    requires Inv(h, s) && pid in s.procs && reader in s.procs && pid != reader && Reads(s.procs[reader]).Some?
    ensures var (ino, s') := (Reads(s.procs[reader]).value, Apply(h, s, Do(pid, c)));
            ino < |s.fs.inodes| <= |s'.fs.inodes| && s'.fs.inodes[ino] == s.fs.inodes[ino]
  {
    LocalOk(h, s.fs, s.spooled, s.procs[pid], c);
    assert Separate(s.procs[pid], s.procs[reader]);
    assert ProcOk(h, s.fs, s.spooled, s.procs[reader]);
  }

  lemma StreamStep(h: Hash, s: State, a: Action, pid: Pid, d: Digest, ino: nat, content: Bytes, sofar: seq<Bytes>)
    requires StreamHolds(h, s, pid, d, ino, content, sofar)
    ensures StreamHolds(h, Apply(h, s, a), pid, d, ino, content, sofar)
  {
    ApplyKeepsInv(h, s, a);
    if a.Do? && a.pid in s.procs {
      if a.pid == pid {
        StreamOwnStep(h, s.fs, s.procs[pid], a.choice, d, ino, content, sofar);
      } else if Reads(s.procs[pid]).Some? {
        StreamOtherStep(h, s, a.pid, a.choice, pid);
      }
    }
  }

  lemma {:induction false} StreamSteps(h: Hash, s: State, more: seq<Action>, pid: Pid,
                                       d: Digest, ino: nat, content: Bytes, sofar: seq<Bytes>)
    requires StreamHolds(h, s, pid, d, ino, content, sofar)
    ensures StreamHolds(h, Exec(h, s, more), pid, d, ino, content, sofar)
  {
    if more != [] {
      StreamSteps(h, s, more[..|more| - 1], pid, d, ino, content, sofar);
      StreamStep(h, Exec(h, s, more[..|more| - 1]), more[|more| - 1], pid, d, ino, content, sofar);
    }
  }

  /**
   * Stream stability. Once `get` holds its handle, the content it will yield is fixed: it hashes to the key
   * asked for, and whatever deletes, re-puts, overwriting renames and plants come before or between the
   * reads, what has been yielded is always a prefix of it and, at the end of the stream, all of it.
   */
  lemma StreamStability(h: Hash, before: seq<Action>, after: seq<Action>, pid: Pid)
    requires pid in Run(h, before).procs && Run(h, before).procs[pid].GetRead?
    ensures
      var reader := Run(h, before).procs[pid];
      var content := Run(h, before).fs.Node(reader.ino).data;
      && h(content) == reader.d
      && pid in Run(h, before + after).procs
      && Streams(Run(h, before + after).procs[pid], reader.d, reader.ino, content, reader.out)
  {
    RunInv(h, before);
    ExecSplit(h, Init, before, after);
    var s := Run(h, before);
    var pc := s.procs[pid];
    StreamSteps(h, s, after, pid, pc.d, pc.ino, s.fs.inodes[pc.ino].data, pc.out);
  }

  /** In this stretch no read of this call failed, and nobody dropped its stream. */
  predicate KeptReading(actions: seq<Action>, pid: Pid) {
    forall i :: 0 <= i < |actions| && actions[i].Do? && actions[i].pid == pid ==>
      !actions[i].choice.Fail? && !actions[i].choice.Drop?
  }

  /** Only a failing read or a consumer that stops ends a stream early. */
  lemma {:induction false} StreamLives(h: Hash, s: State, more: seq<Action>, pid: Pid)
    requires pid in s.procs && (s.procs[pid].GetRead? || s.procs[pid].GetDone?) && KeptReading(more, pid)
    ensures var t := Exec(h, s, more); pid in t.procs && (t.procs[pid].GetRead? || t.procs[pid].GetDone?)
  {
    if more != [] {
      var k := |more| - 1;
      StreamLives(h, s, more[..k], pid);
      var mid := Exec(h, s, more[..k]);
      if more[k].Do? && more[k].pid == pid && mid.procs[pid].GetRead? {
        var pc := mid.procs[pid];
        ReadStepReads(mid.fs, pc.d, pc.logged, pc.ino, pc.cursor, pc.out, more[k].choice);
      }
    }
  }

  lemma ReadGoesOn(h: Hash, fs: FS, pc: Pc, content: Bytes)
    requires pc.GetRead? && fs.Node(pc.ino).data == content && pc.cursor <= |content|
    ensures var next := Local(h, fs, pc, Ok).1;
            if pc.cursor == |content| then next.GetDone? && next.out == pc.out
            else next.GetRead? && next.out == pc.out + [content[pc.cursor..Min(pc.cursor + 1048576, |content|)]]
  {
    ReadStepReads(fs, pc.d, pc.logged, pc.ino, pc.cursor, pc.out, Ok);
  }

  lemma NextRead(h: Hash, s: State, pid: Pid, d: Digest, ino: nat, content: Bytes, sofar: seq<Bytes>)
    requires StreamHolds(h, s, pid, d, ino, content, sofar) && s.procs[pid].GetRead?
    ensures var (pc, next) := (s.procs[pid], Apply(h, s, Do(pid, Ok)).procs[pid]);
            && pc.cursor <= |content|
            && if pc.cursor == |content| then next.GetDone? && next.out == pc.out
               else next.GetRead? && next.out == pc.out + [content[pc.cursor..Min(pc.cursor + 1048576, |content|)]]
  {
    ReadGoesOn(h, s.fs, s.procs[pid], content);
  }

  /**
   * A stream always gets on. At any moment of any run, a read that works yields the next bytes, as many as
   * there are up to a mebibyte, or ends the stream when there are none; and nothing that other calls do, to
   * this blob or any other, ends it early.
   */
  lemma StreamGoesOn(h: Hash, before: seq<Action>, during: seq<Action>, pid: Pid)
    requires pid in Run(h, before).procs && Run(h, before).procs[pid].GetRead? && KeptReading(during, pid)
    ensures var content := Run(h, before).fs.Node(Run(h, before).procs[pid].ino).data;
            var s := Run(h, before + during);
            && pid in s.procs && (s.procs[pid].GetRead? || s.procs[pid].GetDone?)
            && (s.procs[pid].GetRead? ==>
                  var (pc, next) := (s.procs[pid], Apply(h, s, Do(pid, Ok)).procs[pid]);
                  && pc.cursor <= |content|
                  && if pc.cursor == |content| then next.GetDone? && next.out == pc.out
                     else next.GetRead?
                          && next.out == pc.out + [content[pc.cursor..Min(pc.cursor + 1048576, |content|)]])
  {
    ExecSplit(h, Init, before, during);
    StreamLives(h, Run(h, before), during, pid);
    RunInv(h, before);
    var s, s0 := Run(h, before + during), Run(h, before);
    var content := s0.fs.Node(s0.procs[pid].ino).data;
    StreamSteps(h, s0, during, pid, s0.procs[pid].d, s0.procs[pid].ino, content, s0.procs[pid].out);
    if s.procs[pid].GetRead? {
      NextRead(h, s, pid, s0.procs[pid].d, s0.procs[pid].ino, content, s0.procs[pid].out);
    }
  }

  /** A stream that ran to its end yielded exactly the content its key names, in non-empty bounded chunks. */
  lemma FinishedStreamsAreWhole(h: Hash, actions: seq<Action>, pid: Pid)
    requires pid in Run(h, actions).procs && Run(h, actions).procs[pid].GetDone?
    ensures var done := Run(h, actions).procs[pid];
            && h(Flatten(done.out)) == done.d && Flatten(done.out) in Run(h, actions).spooled
            && forall i :: 0 <= i < |done.out| ==> 0 < |done.out[i]| <= 1024 * 1024
  {
    RunInv(h, actions);
  }

  // ---------- scratch ----------

  /** Every scratch file has a call answerable for it. */
  ghost predicate ScratchOwned(s: State) {
    forall n :: n in s.fs.scratch ==> exists p :: p in s.procs && Holds(s.procs[p]) == Some(n)
  }

  /** A call stops answering for its scratch file only by removing or renaming it. */
  lemma HoldsUntilRemoved(h: Hash, fs: FS, pc: Pc, c: Choice, n: nat)
    requires Holds(pc) == Some(n) && n in Local(h, fs, pc, c).0.scratch
    ensures Holds(Local(h, fs, pc, c).1) == Some(n)
  {
  }

  /** Whoever answered for a scratch file still does after any call's step that leaves it there. */
  lemma StillOwned(h: Hash, s: State, pid: Pid, c: Choice, n: nat, owner: Pid)
    requires pid in s.procs && owner in s.procs && Holds(s.procs[owner]) == Some(n)
    requires n in Apply(h, s, Do(pid, c)).fs.scratch
    ensures Holds(Apply(h, s, Do(pid, c)).procs[owner]) == Some(n)
  {
    if owner == pid {
      HoldsUntilRemoved(h, s.fs, s.procs[pid], c, n);
    }
  }

  /** A scratch file a step creates is the acting call's. */
  lemma NewlyOwned(h: Hash, s: State, pid: Pid, c: Choice, n: nat)
    requires Inv(h, s) && pid in s.procs
    requires n in Apply(h, s, Do(pid, c)).fs.scratch && n !in s.fs.scratch
    ensures Holds(Apply(h, s, Do(pid, c)).procs[pid]) == Some(n)
  {
    LocalOk(h, s.fs, s.spooled, s.procs[pid], c);
  }

  lemma ScratchOwnedStep(h: Hash, s: State, a: Action)
    requires Inv(h, s) && ScratchOwned(s)
    ensures ScratchOwned(Apply(h, s, a))
  {
    var s' := Apply(h, s, a);
    forall n | n in s'.fs.scratch
      ensures exists p :: p in s'.procs && Holds(s'.procs[p]) == Some(n)
    {
      if n in s.fs.scratch {
        var p :| p in s.procs && Holds(s.procs[p]) == Some(n);
        if a.Do? && a.pid in s.procs {
          StillOwned(h, s, a.pid, a.choice, n, p);
        }
        assert p in s'.procs && Holds(s'.procs[p]) == Some(n);
      } else {
        NewlyOwned(h, s, a.pid, a.choice, n);
        assert a.pid in s'.procs;
      }
    }
  }

  lemma {:induction false} ScratchOwnedRun(h: Hash, actions: seq<Action>)
    ensures ScratchOwned(Run(h, actions))
  {
    if actions != [] {
      var k := |actions| - 1;
      ScratchOwnedRun(h, actions[..k]);
      RunInv(h, actions[..k]);
      ScratchOwnedStep(h, Run(h, actions[..k]), actions[k]);
    }
  }

  /** A put that still has, or left behind, a file under tmp/. */
  predicate LeavesScratch(pc: Pc) {
    || pc.PutSpool? || pc.PutPublish? || pc.PutRename? || pc.PutDiscard?
    || (pc.PutFailed? && (pc.why.CleanupFailed? || pc.why.PublishFailed? || pc.why.CorruptTree? || pc.why.DiscardFailed?))
  }

  /** The puts that leave a scratch file, each with the name of its file. */
  ghost function Leavers(s: State): map<Pid, nat> {
    map p | p in s.procs && LeavesScratch(s.procs[p]) :: Holds(s.procs[p]).value
  }

  lemma {:induction false} InjectiveImageSize(m: map<Pid, nat>, image: set<nat>)
    requires m.Values == image
    requires forall p, q :: p in m && q in m && p != q ==> m[p] != m[q]
    ensures |m| == |image|
  {
    if m.Keys == {} {
      assert m == map[];
    } else {
      var p :| p in m;
      var rest := m - {p};
      assert m == rest[p := m[p]];
      forall n | n in image - {m[p]}
        ensures n in rest.Values
      {
        var q :| q in m && m[q] == n;
        assert q in rest && rest[q] == n;
      }
      InjectiveImageSize(rest, image - {m[p]});
    }
  }

  lemma LeaverHolds(s: State, p: Pid)
    requires p in Leavers(s)
    ensures p in s.procs && Holds(s.procs[p]) == Some(Leavers(s)[p])
  {
  }

  lemma LeaversAreInjective(h: Hash, s: State)
    requires Inv(h, s)
    ensures forall p, q :: p in Leavers(s) && q in Leavers(s) && p != q ==> Leavers(s)[p] != Leavers(s)[q]
  {
    forall p, q | p in Leavers(s) && q in Leavers(s) && p != q
      ensures Leavers(s)[p] != Leavers(s)[q]
    {
      LeaverHolds(s, p);
      LeaverHolds(s, q);
      assert Separate(s.procs[p], s.procs[q]);
    }
  }

  lemma LeaversNameScratch(h: Hash, s: State)
    requires Inv(h, s) && ScratchOwned(s)
    ensures Leavers(s).Values == s.fs.scratch.Keys
  {
    forall n | n in s.fs.scratch
      ensures n in Leavers(s).Values
    {
      var p :| p in s.procs && Holds(s.procs[p]) == Some(n);
      assert p in Leavers(s) && Leavers(s)[p] == n;
    }
    forall p | p in Leavers(s)
      ensures Leavers(s)[p] in s.fs.scratch
    {
      assert ProcOk(h, s.fs, s.spooled, s.procs[p]);
    }
  }

  /**
   * Scratch conservation. At every state the scratch directory holds exactly one file per put in flight past
   * its mkstemp, plus one per put that failed once spooling had finished or whose cleanup failed, and nothing
   * else. Completed puts, and puts that failed while spooling and cleaned up, leave none.
   */
  lemma ScratchConservation(h: Hash, actions: seq<Action>)
    ensures Leavers(Run(h, actions)).Values == Run(h, actions).fs.scratch.Keys
    ensures |Leavers(Run(h, actions))| == |Run(h, actions).fs.scratch|
  {
    RunInv(h, actions);
    ScratchOwnedRun(h, actions);
    var s := Run(h, actions);
    LeaversNameScratch(h, s);
    LeaversAreInjective(h, s);
    InjectiveImageSize(Leavers(s), s.fs.scratch.Keys);
    assert |s.fs.scratch| == |s.fs.scratch.Keys|;
  }
}
