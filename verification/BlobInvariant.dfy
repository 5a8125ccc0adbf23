/** What every step keeps, whatever fails, whatever is planted and however calls interleave. */
module BlobInvariant {
  import opened Prelude
  import opened KeyLayout
  import opened FileSystem
  import opened BlobMachine

  // ---------- what one call owns ----------

  /** The scratch name a call is answerable for: its own file in flight, or the one its failure left. */
  function Holds(pc: Pc): Option<nat> {
    match pc
    case PutSpool(_, f) => Some(f.name)
    case PutPublish(_, f) => Some(f.name)
    case PutRename(f, _) => Some(f.name)
    case PutDiscard(f, _) => Some(f.name)
    case PutFailed(why) => if why.NoScratch? || why.SpoolCleaned? then None else Some(why.left.name)
    case _ => None
  }

  /** The inode a call may still write to: none once the spool's handle is closed. */
  function Writes(pc: Pc): Option<nat> {
    if pc.PutSpool? then Some(pc.f.ino) else None
  }

  /** The inode a call streams from. */
  function Reads(pc: Pc): Option<nat> {
    if pc.GetRead? || pc.GetDropped? then Some(pc.ino) else None
  }

  ghost predicate Separate(p: Pc, q: Pc) {
    && (Holds(p).Some? ==> Holds(p) != Holds(q))
    && (Writes(p).Some? ==> Reads(q) != Writes(p))
    && (Writes(q).Some? ==> Reads(p) != Writes(q))
  }

  // ---------- the invariant ----------

  /** Some content that a put spooled hashes to d and is this long. */
  ghost predicate SizeSeen(h: Hash, spooled: set<Bytes>, d: Digest, size: nat) {
    exists b :: b in spooled && h(b) == d && |b| == size
  }

  /** A regular file whose content is a whole spooled content hashing to d. */
  ghost predicate Whole(h: Hash, fs: FS, spooled: set<Bytes>, d: Digest, ino: nat) {
    && ino < |fs.inodes|
    && fs.inodes[ino].kind == Regular
    && h(fs.inodes[ino].data) == d
    && fs.inodes[ino].data in spooled
  }

  ghost predicate FsOk(h: Hash, fs: FS, spooled: set<Bytes>) {
    && (forall d :: d in fs.blobs ==> fs.blobs[d] < |fs.inodes|)
    && (forall n :: n in fs.scratch ==> fs.scratch[n] < |fs.inodes| && fs.inodes[fs.scratch[n]].kind == Regular)
    && (forall d, n :: d in fs.blobs && n in fs.scratch ==> fs.blobs[d] != fs.scratch[n])
    && (forall m, n :: m in fs.scratch && n in fs.scratch && m != n ==> fs.scratch[m] != fs.scratch[n])
    && (forall d :: d in fs.blobs && fs.inodes[fs.blobs[d]].kind == Regular ==> Whole(h, fs, spooled, d, fs.blobs[d]))
  }

  ghost predicate OwnsScratch(fs: FS, f: Spool) {
    f.name in fs.scratch && fs.scratch[f.name] == f.ino && f.ino < |fs.inodes|
  }

  ghost predicate Spooled(fs: FS, spooled: set<Bytes>, f: Spool) {
    OwnsScratch(fs, f) && fs.inodes[f.ino].data == f.hashed && f.hashed in spooled
  }

  predicate ChunksBounded(chunks: seq<Bytes>) {
    forall i :: 0 <= i < |chunks| ==> 0 < |chunks[i]| <= READ_CHUNK_SIZE
  }

  /** What has been yielded of this content when the cursor stands here. */
  predicate Yielded(data: Bytes, cursor: nat, out: seq<Bytes>) {
    cursor <= |data| && Flatten(out) == data[..cursor] && ChunksBounded(out)
  }

  ghost predicate SpoolOk(fs: FS, stage: SpoolStage, f: Spool) {
    && OwnsScratch(fs, f)
    && (stage in {Opening, Writing, Flushing} ==> fs.inodes[f.ino].data + f.pending == f.hashed)
    && (stage in {Syncing, Closing} ==> fs.inodes[f.ino].data == f.hashed)
  }

  ghost predicate ProcOk(h: Hash, fs: FS, spooled: set<Bytes>, pc: Pc) {
    match pc
    case PutSpool(stage, f) => SpoolOk(fs, stage, f)
    case PutPublish(_, f) => Spooled(fs, spooled, f)
    case PutRename(f, seen) => Spooled(fs, spooled, f) && seen == StatOf(fs.inodes[f.ino])
    case PutDiscard(f, seen) => Spooled(fs, spooled, f) && SizeSeen(h, spooled, h(f.hashed), seen.size)
    case PutDone(content, blob) =>
      content in spooled && blob.key == KeyOf(h(content)) && SizeSeen(h, spooled, h(content), blob.size)
    case PutFailed(why) =>
      (Holds(pc).Some? ==> OwnsScratch(fs, why.left))
      && (why.DiscardFailed? ==> why.left.hashed in spooled)
    case GetOpen(d, logged) => logged.Some? ==> SizeSeen(h, spooled, d, logged.value)
    case GetRead(d, logged, ino, cursor, out) =>
      && Whole(h, fs, spooled, d, ino)
      && Yielded(fs.inodes[ino].data, cursor, out)
      && (logged.Some? ==> SizeSeen(h, spooled, d, logged.value))
    case GetDropped(d, logged, ino, cursor, out) =>
      && Whole(h, fs, spooled, d, ino)
      && Yielded(fs.inodes[ino].data, cursor, out)
    case GetDone(d, logged, out) =>
      && Flatten(out) in spooled
      && h(Flatten(out)) == d
      && ChunksBounded(out)
      && (logged.Some? ==> SizeSeen(h, spooled, d, logged.value))
    case SizeDone(d, size) => SizeSeen(h, spooled, d, size)
    case RemoveUnlink(d, size) => SizeSeen(h, spooled, d, size)
    case RemoveDone(d, size) => SizeSeen(h, spooled, d, size)
    case _ => true
  }

  ghost predicate ProcsOk(h: Hash, s: State) {
    forall p :: p in s.procs ==> ProcOk(h, s.fs, s.spooled, s.procs[p])
  }

  ghost predicate ProcsSeparate(s: State) {
    forall p, q :: p in s.procs && q in s.procs && p != q ==> Separate(s.procs[p], s.procs[q])
  }

  ghost predicate Inv(h: Hash, s: State) {
    FsOk(h, s.fs, s.spooled) && ProcsOk(h, s) && ProcsSeparate(s)
  }

  // ---------- framing ----------

  /** What a step of pc to pc' may change: only its own scratch entry, and only the inode it has open for writing. */
  ghost predicate Frame(fs: FS, fs': FS, pc: Pc, pc': Pc) {
    && |fs.inodes| <= |fs'.inodes|
    && (forall i :: 0 <= i < |fs.inodes| && Writes(pc) != Some(i) ==> fs'.inodes[i] == fs.inodes[i])
    && (forall n :: n in fs.scratch && Holds(pc) != Some(n) ==> n in fs'.scratch && fs'.scratch[n] == fs.scratch[n])
    && (forall n :: n in fs'.scratch && n !in fs.scratch ==> Holds(pc') == Some(n))
  }

  /** What a call's own step may come to hold, write and read. */
  ghost predicate Grows(fs: FS, fs': FS, pc: Pc, pc': Pc) {
    && (Holds(pc').Some? ==> Holds(pc') == Holds(pc) || (Holds(pc').value !in fs.scratch && Holds(pc').value in fs'.scratch))
    && (Writes(pc').Some? ==> Writes(pc') == Writes(pc) || Writes(pc').value == |fs.inodes|)
    && (Reads(pc').Some? ==>
          || Reads(pc') == Reads(pc)
          || (exists d :: d in fs.blobs && fs.blobs[d] == Reads(pc').value))
  }

  /** All that one call's step owes: the invariants hold again, and nothing outside its frame moved. */
  ghost predicate StepOk(h: Hash, fs: FS, spooled: set<Bytes>, pc: Pc, fs': FS, pc': Pc) {
    && FsOk(h, fs', Remember(spooled, pc'))
    && ProcOk(h, fs', Remember(spooled, pc'), pc')
    && Frame(fs, fs', pc, pc')
    && Grows(fs, fs', pc, pc')
  }

  lemma SizeSeenMonotone(h: Hash, spooled: set<Bytes>, more: set<Bytes>, d: Digest, size: nat)
    requires SizeSeen(h, spooled, d, size) && spooled <= more
    ensures SizeSeen(h, more, d, size)
  {
    var b :| b in spooled && h(b) == d && |b| == size;
    assert b in more;
  }

  /** A scratch file nobody else holds survives a step that stays inside its frame, and so does its inode. */
  lemma SpoolFramed(h: Hash, fs: FS, fs': FS, spooled: set<Bytes>, pc: Pc, pc': Pc, f: Spool)
    requires FsOk(h, fs, spooled) && OwnsScratch(fs, f)
    requires Holds(pc) != Some(f.name) && (pc.PutSpool? ==> OwnsScratch(fs, pc.f))
    requires Frame(fs, fs', pc, pc')
    ensures OwnsScratch(fs', f) && fs'.inodes[f.ino] == fs.inodes[f.ino]
  {
    if pc.PutSpool? {
      assert fs.scratch[pc.f.name] != fs.scratch[f.name];
    }
  }

  lemma PutFramed(h: Hash, fs: FS, fs': FS, spooled: set<Bytes>, more: set<Bytes>, pc: Pc, pc': Pc, other: Pc)
    requires FsOk(h, fs, spooled) && ProcOk(h, fs, spooled, other)
    requires Holds(other).Some? && Holds(pc) != Holds(other) && (pc.PutSpool? ==> OwnsScratch(fs, pc.f))
    requires Frame(fs, fs', pc, pc') && spooled <= more
    ensures ProcOk(h, fs', more, other)
  {
    if other.PutFailed? {
      SpoolFramed(h, fs, fs', spooled, pc, pc', other.why.left);
    } else {
      SpoolFramed(h, fs, fs', spooled, pc, pc', other.f);
      if other.PutDiscard? { SizeSeenMonotone(h, spooled, more, h(other.f.hashed), other.seen.size); }
    }
  }

  lemma ReaderFramed(h: Hash, fs: FS, fs': FS, spooled: set<Bytes>, more: set<Bytes>, pc: Pc, pc': Pc, other: Pc)
    requires ProcOk(h, fs, spooled, other) && Reads(other).Some? && Writes(pc) != Reads(other)
    requires Frame(fs, fs', pc, pc') && spooled <= more
    ensures ProcOk(h, fs', more, other)
  {
    assert fs'.inodes[other.ino] == fs.inodes[other.ino];
    if other.logged.Some? && other.GetRead? {
      SizeSeenMonotone(h, spooled, more, other.d, other.logged.value);
    }
  }

  /** Another call's claims survive a step that stays inside its frame. */
  lemma ProcFramed(h: Hash, fs: FS, fs': FS, spooled: set<Bytes>, more: set<Bytes>, pc: Pc, pc': Pc, other: Pc)
    requires FsOk(h, fs, spooled) && ProcOk(h, fs, spooled, pc) && ProcOk(h, fs, spooled, other)
    requires Separate(pc, other) && Frame(fs, fs', pc, pc') && spooled <= more
    ensures ProcOk(h, fs', more, other)
  {
    if Holds(other).Some? {
      PutFramed(h, fs, fs', spooled, more, pc, pc', other);
    } else if Reads(other).Some? {
      ReaderFramed(h, fs, fs', spooled, more, pc, pc', other);
    } else if other.PutDone? {
      SizeSeenMonotone(h, spooled, more, h(other.content), other.blob.size);
    } else if (other.GetOpen? || other.GetDone?) && other.logged.Some? {
      SizeSeenMonotone(h, spooled, more, other.d, other.logged.value);
    } else if other.SizeDone? || other.RemoveUnlink? || other.RemoveDone? {
      SizeSeenMonotone(h, spooled, more, other.d, other.size);
    }
  }

  // ---------- one call's own step ----------

  lemma AppendKeeps(h: Hash, fs: FS, spooled: set<Bytes>, f: Spool, bytes: Bytes)
    requires FsOk(h, fs, spooled) && OwnsScratch(fs, f)
    ensures FsOk(h, fs.Append(f.ino, bytes), spooled)
    ensures OwnsScratch(fs.Append(f.ino, bytes), f)
  {
    var fs' := fs.Append(f.ino, bytes);
    forall d | d in fs'.blobs && fs'.inodes[fs'.blobs[d]].kind == Regular
      ensures Whole(h, fs', spooled, d, fs'.blobs[d])
    {
      assert fs.blobs[d] != fs.scratch[f.name];
      assert Whole(h, fs, spooled, d, fs.blobs[d]);
    }
  }

  /** A step that touches neither scratch nor inodes. */
  lemma StillFrames(fs: FS, fs': FS, pc: Pc, pc': Pc)
    requires fs'.scratch == fs.scratch && fs'.inodes == fs.inodes
    requires Holds(pc') == Holds(pc) || Holds(pc') == None
    requires Writes(pc') == Writes(pc) || Writes(pc') == None
    requires Reads(pc') == Reads(pc) || Reads(pc') == None
    ensures Frame(fs, fs', pc, pc') && Grows(fs, fs', pc, pc')
  {
  }

  /** A step that removes the call's own scratch file. */
  lemma RemovalFrames(fs: FS, f: Spool, pc: Pc, pc': Pc)
    requires Holds(pc) == Some(f.name) && Holds(pc') == Writes(pc') == Reads(pc') == None
    ensures Frame(fs, fs.UnlinkScratch(f.name), pc, pc') && Grows(fs, fs.UnlinkScratch(f.name), pc, pc')
  {
  }

  /** Appending to its own scratch inode stays inside a call's frame. */
  lemma AppendFrames(h: Hash, fs: FS, spooled: set<Bytes>, stage: SpoolStage, f: Spool, bytes: Bytes, pc': Pc)
    requires FsOk(h, fs, spooled) && OwnsScratch(fs, f)
    requires pc'.PutSpool? && pc'.f.name == f.name && pc'.f.ino == f.ino
    ensures Frame(fs, fs.Append(f.ino, bytes), PutSpool(stage, f), pc')
    ensures Grows(fs, fs.Append(f.ino, bytes), PutSpool(stage, f), pc')
  {
  }

  /** Letting a prefix of buffer and chunk through loses nothing. */
  lemma BufferLaw(data: Bytes, pending: Bytes, chunk: Bytes, k: nat)
    requires k <= |pending + chunk|
    ensures (data + (pending + chunk)[..k]) + (pending + chunk)[k..] == (data + pending) + chunk
  {
  }

  lemma WriteStepOk(h: Hash, fs: FS, spooled: set<Bytes>, f: Spool, bytes: Bytes, written: nat)
    requires FsOk(h, fs, spooled) && SpoolOk(fs, Writing, f)
    ensures var (fs', pc') := SpoolStep(fs, Writing, f, Chunk(bytes, written));
            StepOk(h, fs, spooled, PutSpool(Writing, f), fs', pc')
  {
    var waiting := f.pending + bytes;
    var k := Min(written, |waiting|);
    var (fs', pc') := SpoolStep(fs, Writing, f, Chunk(bytes, written));
    AppendKeeps(h, fs, spooled, f, waiting[..k]);
    AppendFrames(h, fs, spooled, Writing, f, waiting[..k], pc');
    BufferLaw(fs.inodes[f.ino].data, f.pending, bytes, k);
  }

  lemma FlushStepOk(h: Hash, fs: FS, spooled: set<Bytes>, stage: SpoolStage, f: Spool, c: Choice)
    requires stage in {Flushing, Aborting} && !c.Fail?
    requires FsOk(h, fs, spooled) && SpoolOk(fs, stage, f)
    ensures var (fs', pc') := SpoolStep(fs, stage, f, c);
            StepOk(h, fs, spooled, PutSpool(stage, f), fs', pc')
  {
    var (fs', pc') := SpoolStep(fs, stage, f, c);
    AppendKeeps(h, fs, spooled, f, f.pending);
    AppendFrames(h, fs, spooled, stage, f, f.pending, pc');
  }

  /** Steps that leave every blob entry and its inode alone keep the filesystem invariant. */
  lemma FsOkPreserved(h: Hash, fs: FS, fs': FS, spooled: set<Bytes>)
    requires FsOk(h, fs, spooled)
    requires fs'.blobs == fs.blobs
    requires fs'.inodes == fs.inodes || fs'.inodes == fs.inodes + [Inode(Regular, [], fs.clock)]
    requires forall n :: n in fs'.scratch ==>
      (n in fs.scratch && fs'.scratch[n] == fs.scratch[n]) || (fs'.scratch[n] == |fs.inodes| < |fs'.inodes|)
    requires forall m, n :: m in fs'.scratch && n in fs'.scratch && m !in fs.scratch && n !in fs.scratch ==> m == n
    requires forall n :: n in fs'.scratch && n in fs.scratch ==> fs'.scratch[n] == fs.scratch[n]
    ensures FsOk(h, fs', spooled)
  {
    forall d | d in fs'.blobs && fs'.inodes[fs'.blobs[d]].kind == Regular
      ensures Whole(h, fs', spooled, d, fs'.blobs[d])
    {
      assert Whole(h, fs, spooled, d, fs.blobs[d]);
    }
  }

  lemma CleanStepOk(h: Hash, fs: FS, spooled: set<Bytes>, f: Spool, c: Choice)
    requires FsOk(h, fs, spooled) && SpoolOk(fs, Cleaning, f)
    ensures var (fs', pc') := SpoolStep(fs, Cleaning, f, c);
            StepOk(h, fs, spooled, PutSpool(Cleaning, f), fs', pc')
  {
    var (fs', pc') := SpoolStep(fs, Cleaning, f, c);
    FsOkPreserved(h, fs, fs.UnlinkScratch(f.name), spooled);
    if c.Fail? {
      StillFrames(fs, fs', PutSpool(Cleaning, f), pc');
    } else {
      RemovalFrames(fs, f, PutSpool(Cleaning, f), pc');
    }
  }

  lemma FsOkMonotone(h: Hash, fs: FS, spooled: set<Bytes>, more: set<Bytes>)
    requires FsOk(h, fs, spooled) && spooled <= more
    ensures FsOk(h, fs, more)
  {
    forall d | d in fs.blobs && fs.inodes[fs.blobs[d]].kind == Regular
      ensures Whole(h, fs, more, d, fs.blobs[d])
    {
      assert Whole(h, fs, spooled, d, fs.blobs[d]);
    }
  }

  lemma SpoolStepOk(h: Hash, fs: FS, spooled: set<Bytes>, stage: SpoolStage, f: Spool, c: Choice)
    requires FsOk(h, fs, spooled) && SpoolOk(fs, stage, f)
    ensures var (fs', pc') := SpoolStep(fs, stage, f, c);
            StepOk(h, fs, spooled, PutSpool(stage, f), fs', pc')
  {
    if stage.Writing? && c.Chunk? {
      WriteStepOk(h, fs, spooled, f, c.bytes, c.written);
    } else if stage in {Flushing, Aborting} && !c.Fail? {
      FlushStepOk(h, fs, spooled, stage, f, c);
    } else if stage.Cleaning? {
      CleanStepOk(h, fs, spooled, f, c);
    } else {
      var (fs', pc') := SpoolStep(fs, stage, f, c);
      assert fs' == fs;
      FsOkMonotone(h, fs, spooled, Remember(spooled, pc'));
      StillFrames(fs, fs', PutSpool(stage, f), pc');
    }
  }

  /** The rename is the one step that publishes, and what it publishes is whole. */
  lemma RenameKeeps(h: Hash, fs: FS, spooled: set<Bytes>, f: Spool)
    requires FsOk(h, fs, spooled) && Spooled(fs, spooled, f) && fs.CanRename(f.name, h(f.hashed))
    ensures FsOk(h, fs.Rename(f.name, h(f.hashed)), spooled)
  {
    var fs' := fs.Rename(f.name, h(f.hashed));
    forall d | d in fs'.blobs && fs'.inodes[fs'.blobs[d]].kind == Regular
      ensures Whole(h, fs', spooled, d, fs'.blobs[d])
    {
      if d != h(f.hashed) {
        assert Whole(h, fs, spooled, d, fs.blobs[d]);
      }
    }
  }

  lemma RenameFrames(fs: FS, f: Spool, seen: Stat, d: Digest, pc': Pc)
    requires fs.CanRename(f.name, d) && Holds(pc') == Writes(pc') == Reads(pc') == None
    ensures Frame(fs, fs.Rename(f.name, d), PutRename(f, seen), pc')
    ensures Grows(fs, fs.Rename(f.name, d), PutRename(f, seen), pc')
  {
  }

  lemma RenameStepOk(h: Hash, fs: FS, spooled: set<Bytes>, f: Spool, seen: Stat, c: Choice)
    requires FsOk(h, fs, spooled) && ProcOk(h, fs, spooled, PutRename(f, seen))
    ensures var (fs', pc') := PutStep(h, fs, PutRename(f, seen), c);
            StepOk(h, fs, spooled, PutRename(f, seen), fs', pc')
  {
    var (fs', pc') := PutStep(h, fs, PutRename(f, seen), c);
    if pc'.PutDone? {
      RenameKeeps(h, fs, spooled, f);
      RenameFrames(fs, f, seen, h(f.hashed), pc');
      assert SizeSeen(h, spooled, h(f.hashed), seen.size);
    } else {
      StillFrames(fs, fs', PutRename(f, seen), pc');
    }
  }

  lemma SizeFromBlob(h: Hash, fs: FS, spooled: set<Bytes>, d: Digest)
    requires FsOk(h, fs, spooled) && d in fs.blobs && fs.inodes[fs.blobs[d]].kind == Regular
    ensures SizeSeen(h, spooled, d, fs.Lstat(d).value.size)
  {
    assert Whole(h, fs, spooled, d, fs.blobs[d]);
  }

  /** What the lstats before publishing see is what the invariant asks of the put that goes on with it. */
  lemma PublishSees(h: Hash, fs: FS, spooled: set<Bytes>, at: PublishStage, f: Spool, c: Choice)
    requires FsOk(h, fs, spooled) && Spooled(fs, spooled, f)
    ensures ProcOk(h, fs, spooled, PublishStep(h, fs, at, f, c).1)
  {
    if h(f.hashed) in fs.blobs && fs.inodes[fs.blobs[h(f.hashed)]].kind == Regular {
      SizeFromBlob(h, fs, spooled, h(f.hashed));
    }
  }

  lemma PublishStepOk(h: Hash, fs: FS, spooled: set<Bytes>, at: PublishStage, f: Spool, c: Choice)
    requires FsOk(h, fs, spooled) && ProcOk(h, fs, spooled, PutPublish(at, f))
    ensures var (fs', pc') := PublishStep(h, fs, at, f, c);
            StepOk(h, fs, spooled, PutPublish(at, f), fs', pc')
  {
    var (fs', pc') := PublishStep(h, fs, at, f, c);
    assert fs' == fs && Remember(spooled, pc') == spooled;
    PublishSees(h, fs, spooled, at, f, c);
    StillFrames(fs, fs', PutPublish(at, f), pc');
  }

  lemma MkstempKeeps(h: Hash, fs: FS, spooled: set<Bytes>, name: nat)
    requires FsOk(h, fs, spooled) && name !in fs.scratch
    ensures FsOk(h, fs.Mkstemp(name), spooled)
  {
    FsOkPreserved(h, fs, fs.Mkstemp(name), spooled);
  }

  lemma MkstempFrames(fs: FS, name: nat)
    requires name !in fs.scratch
    ensures Frame(fs, fs.Mkstemp(name), PutMkstemp, PutSpool(Opening, Spool(name, |fs.inodes|, [], [])))
    ensures Grows(fs, fs.Mkstemp(name), PutMkstemp, PutSpool(Opening, Spool(name, |fs.inodes|, [], [])))
    ensures SpoolOk(fs.Mkstemp(name), Opening, Spool(name, |fs.inodes|, [], []))
  {
  }

  lemma MkstempStepOk(h: Hash, fs: FS, spooled: set<Bytes>, c: Choice)
    requires FsOk(h, fs, spooled)
    ensures var (fs', pc') := PutStep(h, fs, PutMkstemp, c);
            StepOk(h, fs, spooled, PutMkstemp, fs', pc')
  {
    if c.Name? && c.name !in fs.scratch {
      MkstempKeeps(h, fs, spooled, c.name);
      MkstempFrames(fs, c.name);
    }
  }

  lemma DiscardStepOk(h: Hash, fs: FS, spooled: set<Bytes>, f: Spool, seen: Stat, c: Choice)
    requires FsOk(h, fs, spooled) && ProcOk(h, fs, spooled, PutDiscard(f, seen))
    ensures var (fs', pc') := PutStep(h, fs, PutDiscard(f, seen), c);
            StepOk(h, fs, spooled, PutDiscard(f, seen), fs', pc')
  {
    var (fs', pc') := PutStep(h, fs, PutDiscard(f, seen), c);
    FsOkPreserved(h, fs, fs.UnlinkScratch(f.name), spooled);
    if pc'.PutDone? {
      RemovalFrames(fs, f, PutDiscard(f, seen), pc');
    } else {
      StillFrames(fs, fs', PutDiscard(f, seen), pc');
    }
  }

  /** Yielding the next chunk. */
  lemma YieldOne(data: Bytes, cursor: nat, out: seq<Bytes>)
    requires Yielded(data, cursor, out) && ReadChunk(data, cursor) != []
    ensures Yielded(data, cursor + |ReadChunk(data, cursor)|, out + [ReadChunk(data, cursor)])
  {
    ReadChunkAdvances(data, cursor);
    FlattenSnoc(out, ReadChunk(data, cursor));
  }

  /** An empty read means that everything was yielded. */
  lemma YieldedAll(data: Bytes, cursor: nat, out: seq<Bytes>)
    requires Yielded(data, cursor, out) && ReadChunk(data, cursor) == []
    ensures Flatten(out) == data
  {
    ReadChunkAdvances(data, cursor);
    assert data[..|data|] == data;
  }

  lemma ReadChunkOk(h: Hash, fs: FS, spooled: set<Bytes>, pc: Pc, c: Choice)
    requires pc.GetRead? && ProcOk(h, fs, spooled, pc)
    ensures ProcOk(h, fs, spooled, ReadStep(fs, pc, c))
  {
    var data := fs.inodes[pc.ino].data;
    if ReadChunk(data, pc.cursor) == [] {
      YieldedAll(data, pc.cursor, pc.out);
    } else {
      YieldOne(data, pc.cursor, pc.out);
    }
  }

  lemma OpenStepOk(h: Hash, fs: FS, spooled: set<Bytes>, pc: Pc, c: Choice)
    requires pc.GetOpen? && FsOk(h, fs, spooled) && ProcOk(h, fs, spooled, pc)
    ensures ProcOk(h, fs, spooled, ReadStep(fs, pc, c))
  {
    if ReadStep(fs, pc, c).GetRead? {
      assert Whole(h, fs, spooled, pc.d, fs.blobs[pc.d]);
    }
  }

  lemma StatStepOk(h: Hash, fs: FS, spooled: set<Bytes>, pc: Pc, c: Choice)
    requires pc.RetrieveSize? || pc.ExistsLstat? || pc.SizeLstat? || pc.RemoveSize?
    requires FsOk(h, fs, spooled)
    ensures ProcOk(h, fs, spooled, ReadStep(fs, pc, c))
  {
    if SizeOf(fs, pc.d).Some? {
      SizeFromBlob(h, fs, spooled, pc.d);
    }
  }

  lemma ReadStepFrames(fs: FS, pc: Pc, c: Choice)
    requires IsReading(pc)
    ensures Frame(fs, fs, pc, ReadStep(fs, pc, c)) && Grows(fs, fs, pc, ReadStep(fs, pc, c))
  {
  }

  lemma ReadStepOk(h: Hash, fs: FS, spooled: set<Bytes>, pc: Pc, c: Choice)
    requires IsReading(pc)
    requires FsOk(h, fs, spooled) && ProcOk(h, fs, spooled, pc)
    ensures StepOk(h, fs, spooled, pc, fs, ReadStep(fs, pc, c))
  {
    ReadStepFrames(fs, pc, c);
    if pc.GetOpen? {
      OpenStepOk(h, fs, spooled, pc, c);
    } else if pc.GetRead? {
      ReadChunkOk(h, fs, spooled, pc, c);
    } else {
      StatStepOk(h, fs, spooled, pc, c);
    }
  }

  lemma UnlinkKeeps(h: Hash, fs: FS, spooled: set<Bytes>, d: Digest)
    requires FsOk(h, fs, spooled)
    ensures FsOk(h, fs.UnlinkBlob(d), spooled)
  {
    var fs' := fs.UnlinkBlob(d);
    forall e | e in fs'.blobs && fs'.inodes[fs'.blobs[e]].kind == Regular
      ensures Whole(h, fs', spooled, e, fs'.blobs[e])
    {
      assert Whole(h, fs, spooled, e, fs.blobs[e]);
    }
  }

  lemma UnlinkedOk(h: Hash, fs: FS, spooled: set<Bytes>, pc: Pc, pc': Pc)
    requires FsOk(h, fs, spooled) && ProcOk(h, fs, spooled, pc)
    requires (pc.DeleteUnlink? && pc' == DeleteDone(pc.d)) || (pc.RemoveUnlink? && pc' == RemoveDone(pc.d, pc.size))
    ensures StepOk(h, fs, spooled, pc, fs.UnlinkBlob(pc.d), pc')
  {
    UnlinkKeeps(h, fs, spooled, pc.d);
    StillFrames(fs, fs.UnlinkBlob(pc.d), pc, pc');
  }

  lemma UnlinkStepOk(h: Hash, fs: FS, spooled: set<Bytes>, pc: Pc, c: Choice)
    requires IsUnlinking(pc)
    requires FsOk(h, fs, spooled) && ProcOk(h, fs, spooled, pc)
    ensures var (fs', pc') := UnlinkStep(fs, pc, c);
            StepOk(h, fs, spooled, pc, fs', pc')
  {
    var (fs', pc') := UnlinkStep(fs, pc, c);
    if pc'.DeleteDone? || pc'.RemoveDone? {
      UnlinkedOk(h, fs, spooled, pc, pc');
    } else {
      StillFrames(fs, fs, pc, pc');
    }
  }

  lemma LocalOk(h: Hash, fs: FS, spooled: set<Bytes>, pc: Pc, c: Choice)
    requires FsOk(h, fs, spooled) && ProcOk(h, fs, spooled, pc)
    ensures var (fs', pc') := Local(h, fs, pc, c);
            StepOk(h, fs, spooled, pc, fs', pc')
  {
    if pc.PutSpool? {
      SpoolStepOk(h, fs, spooled, pc.stage, pc.f, c);
    } else if pc.PutRename? {
      RenameStepOk(h, fs, spooled, pc.f, pc.seen, c);
    } else if pc.PutPublish? {
      PublishStepOk(h, fs, spooled, pc.at, pc.f, c);
    } else if pc.PutMkstemp? {
      MkstempStepOk(h, fs, spooled, c);
    } else if pc.PutDiscard? {
      DiscardStepOk(h, fs, spooled, pc.f, pc.seen, c);
    } else if IsReading(pc) {
      ReadStepOk(h, fs, spooled, pc, c);
    } else if IsUnlinking(pc) {
      UnlinkStepOk(h, fs, spooled, pc, c);
    } else {
      FsOkMonotone(h, fs, spooled, Remember(spooled, pc));
    }
  }

  // ---------- the whole state ----------

  /** After its own step a call holds nothing another call holds. */
  lemma HoldsApart(h: Hash, fs: FS, fs': FS, spooled: set<Bytes>, pc: Pc, pc': Pc, other: Pc)
    requires ProcOk(h, fs, spooled, other)
    requires Separate(pc, other) && Grows(fs, fs', pc, pc')
    ensures Holds(pc').Some? ==> Holds(pc') != Holds(other)
  {
    if Holds(other).Some? {
      assert Holds(other).value in fs.scratch;
    }
  }

  /** It writes to nothing another call reads, and reads nothing another call writes to. */
  lemma WritesApart(h: Hash, fs: FS, fs': FS, spooled: set<Bytes>, pc: Pc, pc': Pc, other: Pc)
    requires FsOk(h, fs, spooled) && ProcOk(h, fs, spooled, other)
    requires Separate(pc, other) && Grows(fs, fs', pc, pc')
    ensures Writes(pc').Some? ==> Reads(other) != Writes(pc')
    ensures Writes(other).Some? ==> Reads(pc') != Writes(other)
  {
    if other.PutSpool? {
      assert OwnsScratch(fs, other.f);
    }
  }

  /** After its own step a call is still separate from every other. */
  lemma StaysSeparate(h: Hash, fs: FS, fs': FS, spooled: set<Bytes>, pc: Pc, pc': Pc, other: Pc)
    requires FsOk(h, fs, spooled) && ProcOk(h, fs, spooled, other)
    requires Separate(pc, other) && Grows(fs, fs', pc, pc')
    ensures Separate(pc', other) && Separate(other, pc')
  {
    HoldsApart(h, fs, fs', spooled, pc, pc', other);
    WritesApart(h, fs, fs', spooled, pc, pc', other);
  }

  lemma StepKeepsInv(h: Hash, s: State, pid: Pid, c: Choice)
    requires Inv(h, s) && pid in s.procs
    ensures Inv(h, Apply(h, s, Do(pid, c)))
  {
    var pc := s.procs[pid];
    var s' := Apply(h, s, Do(pid, c));
    var pc' := s'.procs[pid];
    LocalOk(h, s.fs, s.spooled, pc, c);
    forall q | q in s'.procs && q != pid
      ensures ProcOk(h, s'.fs, s'.spooled, s'.procs[q])
      ensures Separate(pc', s'.procs[q]) && Separate(s'.procs[q], pc')
    {
      ProcFramed(h, s.fs, s'.fs, s.spooled, s'.spooled, pc, pc', s.procs[q]);
      StaysSeparate(h, s.fs, s'.fs, s.spooled, pc, pc', s.procs[q]);
    }
  }

  lemma PlantKeepsInv(h: Hash, s: State, d: Digest, kind: Foreign)
    requires Inv(h, s)
    ensures Inv(h, Apply(h, s, PlantAt(d, kind)))
  {
    var s' := Apply(h, s, PlantAt(d, kind));
    forall e | e in s'.fs.blobs && s'.fs.inodes[s'.fs.blobs[e]].kind == Regular
      ensures Whole(h, s'.fs, s.spooled, e, s'.fs.blobs[e])
    {
      assert Whole(h, s.fs, s.spooled, e, s.fs.blobs[e]);
    }
    forall q | q in s'.procs
      ensures ProcOk(h, s'.fs, s'.spooled, s'.procs[q])
    {
      ProcFramed(h, s.fs, s'.fs, s.spooled, s.spooled, PutPrepare, PutPrepare, s.procs[q]);
    }
  }

  lemma StartOwnsNothing(call: Call)
    ensures Holds(Start(call)) == Writes(Start(call)) == Reads(Start(call)) == None
  {
  }

  lemma BeginKeepsInv(h: Hash, s: State, pid: Pid, call: Call)
    requires Inv(h, s)
    ensures Inv(h, Apply(h, s, Begin(pid, call)))
  {
    StartOwnsNothing(call);
    assert ProcOk(h, s.fs, s.spooled, Start(call));
  }

  lemma TickKeepsInv(h: Hash, s: State)
    requires Inv(h, s)
    ensures Inv(h, Apply(h, s, Tick))
  {
    var s' := Apply(h, s, Tick);
    forall q | q in s'.procs
      ensures ProcOk(h, s'.fs, s'.spooled, s'.procs[q])
    {
      ProcFramed(h, s.fs, s'.fs, s.spooled, s.spooled, PutPrepare, PutPrepare, s.procs[q]);
    }
    forall d | d in s'.fs.blobs && s'.fs.inodes[s'.fs.blobs[d]].kind == Regular
      ensures Whole(h, s'.fs, s.spooled, d, s'.fs.blobs[d])
    {
      assert Whole(h, s.fs, s.spooled, d, s.fs.blobs[d]);
    }
  }

  lemma ApplyKeepsInv(h: Hash, s: State, a: Action)
    requires Inv(h, s)
    ensures Inv(h, Apply(h, s, a))
  {
    match a
    case Begin(pid, call) => BeginKeepsInv(h, s, pid, call);
    case Do(pid, c) => if pid in s.procs { StepKeepsInv(h, s, pid, c); }
    case PlantAt(d, kind) => PlantKeepsInv(h, s, d, kind);
    case Tick => TickKeepsInv(h, s);
  }

  lemma {:induction false} ExecKeepsInv(h: Hash, s: State, actions: seq<Action>)
    requires Inv(h, s)
    ensures Inv(h, Exec(h, s, actions))
  {
    if actions != [] {
      var k := |actions| - 1;
      ExecKeepsInv(h, s, actions[..k]);
      ApplyKeepsInv(h, Exec(h, s, actions[..k]), actions[k]);
    }
  }
}
