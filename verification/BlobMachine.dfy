/**
 * `FilesystemBlobStorage` and the two-step calls of `StorageService` as a concurrent machine. Every awaited
 * system call is one step; any number of calls interleave between steps, any step may fail, and foreign
 * entries may be planted at any moment. All of that nondeterminism is in the list of actions, so a statement
 * about every list of actions is a statement about every run.
 */
module BlobMachine {
  import opened Prelude
  import opened KeyLayout
  import opened FileSystem

  const READ_CHUNK_SIZE := 1024 * 1024

  /** sha256, left uninterpreted: every theorem holds of any function from bytes to digests. */
  type Hash = Bytes -> Digest

  type Pid = nat

  /** A scratch file being spooled: what the hasher has seen, and the tail the write buffer still holds. */
  datatype Spool = Spool(name: nat, ino: nat, hashed: Bytes, pending: Bytes)

  datatype SpoolStage = Opening | Writing | Flushing | Syncing | Closing | Aborting | Cleaning

  datatype PublishStage = Inspecting | MakingDirs | Measuring

  datatype StoredBlob = StoredBlob(key: string, size: nat, createdAt: nat)

  datatype Call =
    | Put
    | Get(key: string)
    | Exists(key: string)
    | Size(key: string)
    | Delete(key: string)
    | Remove(key: string)
    | Retrieve(key: string)

  /** Why a put raised, and the scratch file it left, if any. */
  datatype PutFailure =
    | NoScratch
    | SpoolCleaned
    | CleanupFailed(left: Spool)
    | PublishFailed(left: Spool)
    | CorruptTree(left: Spool)
    | DiscardFailed(left: Spool, seen: Stat)

  /** The operations of the atomic store this machine implements. None stands for a malformed key. */
  datatype Op =
    | OpPut(content: Bytes)
    | OpGet(target: Option<Digest>)
    | OpExists(target: Option<Digest>)
    | OpSize(target: Option<Digest>)
    | OpDelete(target: Option<Digest>)

  datatype Res =
    | RStored(size: nat)
    | RFound(content: Bytes)
    | RBool(answer: bool)
    | RSize(size: nat)
    | RDeleted
    | RNotFound

  datatype Commit = Commit(op: Op, res: Res)

  /** Where a call stands: the await it is suspended at, or how it ended. */
  datatype Pc =
    // put
    | PutPrepare
    | PutMkstemp
    | PutSpool(stage: SpoolStage, f: Spool)
    | PutPublish(at: PublishStage, f: Spool)
    | PutRename(f: Spool, seen: Stat)
    | PutDiscard(f: Spool, seen: Stat)
    | PutDone(content: Bytes, blob: StoredBlob)
    | PutFailed(why: PutFailure)
    // get, and retrieve once its size lookup was logged
    | GetOpen(d: Digest, logged: Option<nat>)
    | GetRead(d: Digest, logged: Option<nat>, ino: nat, cursor: nat, out: seq<Bytes>)
    | GetDone(d: Digest, logged: Option<nat>, out: seq<Bytes>)
    | GetDropped(d: Digest, logged: Option<nat>, ino: nat, cursor: nat, out: seq<Bytes>)
    | GetMissed(d: Digest, logged: Option<nat>)
    | RetrieveSize(d: Digest)
    // exists
    | ExistsLstat(d: Digest)
    | ExistsDone(target: Option<Digest>, answer: bool)
    | ExistsBlind(d: Digest)
    // size
    | SizeLstat(d: Digest)
    | SizeDone(d: Digest, size: nat)
    // delete, and remove
    | DeleteUnlink(d: Digest)
    | DeleteDone(d: Digest)
    | RemoveSize(d: Digest)
    | RemoveUnlink(d: Digest, size: nat)
    | RemoveDone(d: Digest, size: nat)
    | RemoveMissed(d: Digest, size: nat)
    // BlobNotFound, or an OSError propagated, from a single-step operation
    | Missing(op: Op)
    | Errored(before: seq<Commit>)

  /** The calls that still have a step to take, by the system calls they make. */
  predicate IsPutting(pc: Pc) {
    pc.PutPrepare? || pc.PutMkstemp? || pc.PutSpool? || pc.PutPublish? || pc.PutRename? || pc.PutDiscard?
  }

  predicate IsReading(pc: Pc) {
    pc.GetOpen? || pc.GetRead? || pc.RetrieveSize? || pc.ExistsLstat? || pc.SizeLstat? || pc.RemoveSize?
  }

  predicate IsUnlinking(pc: Pc) {
    pc.DeleteUnlink? || pc.RemoveUnlink?
  }

  /** What the environment decides when a call takes its next step. */
  datatype Choice =
    | Ok
    | Fail
    | Name(name: nat)
    | Chunk(bytes: Bytes, written: nat)
    | Eof
    | Drop

  datatype Action =
    | Begin(pid: Pid, call: Call)
    | Do(pid: Pid, choice: Choice)
    | PlantAt(d: Digest, kind: Foreign)
    | Tick

  /** `spooled` is a history variable: every content some put ever finished spooling. */
  datatype State = State(fs: FS, procs: map<Pid, Pc>, spooled: set<Bytes>)

  const Init := State(EmptyFS, map[], {})

  function Start(call: Call): Pc {
    match call
    case Put => PutPrepare
    case Get(key) => (match Resolve(key) case None => Missing(OpGet(None)) case Some(d) => GetOpen(d, None))
    case Exists(key) => (match Resolve(key) case None => ExistsDone(None, false) case Some(d) => ExistsLstat(d))
    case Size(key) => (match Resolve(key) case None => Missing(OpSize(None)) case Some(d) => SizeLstat(d))
    case Delete(key) => (match Resolve(key) case None => Missing(OpDelete(None)) case Some(d) => DeleteUnlink(d))
    case Remove(key) => (match Resolve(key) case None => Missing(OpSize(None)) case Some(d) => RemoveSize(d))
    case Retrieve(key) => (match Resolve(key) case None => Missing(OpSize(None)) case Some(d) => RetrieveSize(d))
  }

  /** `_spool`, from the open descriptor to the end of its cleanup. */
  function SpoolStep(fs: FS, stage: SpoolStage, f: Spool, c: Choice): (FS, Pc) {
    match stage
    case Opening => (fs, PutSpool(if c.Fail? then Cleaning else Writing, f))
    case Writing =>
      (match c
       case Chunk(bytes, written) =>
         // the hasher takes the whole chunk; the buffered writer lets some prefix through to the inode
         var waiting := f.pending + bytes;
         var k := Min(written, |waiting|);
         (fs.Append(f.ino, waiting[..k]),
          PutSpool(Writing, f.(hashed := f.hashed + bytes, pending := waiting[k..])))
       case Eof => (fs, PutSpool(Flushing, f))
       case Fail => (fs, PutSpool(Aborting, f))
       case _ => (fs, PutSpool(Writing, f)))
    case Flushing =>
      if c.Fail? then (fs, PutSpool(Aborting, f))
      else (fs.Append(f.ino, f.pending), PutSpool(Syncing, f.(pending := [])))
    case Syncing => (fs, PutSpool(if c.Fail? then Aborting else Closing, f))
    case Closing => (fs, if c.Fail? then PutSpool(Cleaning, f) else PutPublish(Inspecting, f))
    case Aborting =>
      (if c.Fail? then fs else fs.Append(f.ino, f.pending), PutSpool(Cleaning, f))
    case Cleaning =>
      if c.Fail? then (fs, PutFailed(CleanupFailed(f))) else (fs.UnlinkScratch(f.name), PutFailed(SpoolCleaned))
  }

  /** `put` after `_spool` returned: stat the target, then either publish or discard the scratch file. */
  function PublishStep(h: Hash, fs: FS, at: PublishStage, f: Spool, c: Choice): (FS, Pc) {
    if c.Fail? then (fs, PutFailed(PublishFailed(f)))
    else
      match at
      case Inspecting =>
        (match fs.Lstat(h(f.hashed))
         case None => (fs, PutPublish(MakingDirs, f))
         case Some(existing) =>
           (fs, if existing.kind == Regular then PutDiscard(f, existing) else PutFailed(CorruptTree(f))))
      case MakingDirs => (fs, PutPublish(Measuring, f))
      case Measuring =>
        (match fs.LstatScratch(f.name)
         case None => (fs, PutFailed(PublishFailed(f)))
         case Some(st) => (fs, PutRename(f, st)))
  }

  function PutStep(h: Hash, fs: FS, pc: Pc, c: Choice): (FS, Pc)
    requires IsPutting(pc)
  {
    match pc
    case PutPrepare => (fs, if c.Fail? then PutFailed(NoScratch) else PutMkstemp)
    case PutMkstemp =>
      if c.Fail? then (fs, PutFailed(NoScratch))
      else if c.Name? && c.name !in fs.scratch then
        (fs.Mkstemp(c.name), PutSpool(Opening, Spool(c.name, |fs.inodes|, [], [])))
      else (fs, pc)
    case PutSpool(stage, f) => SpoolStep(fs, stage, f, c)
    case PutPublish(at, f) => PublishStep(h, fs, at, f, c)
    case PutRename(f, seen) =>
      if c.Fail? || !fs.CanRename(f.name, h(f.hashed)) then (fs, PutFailed(PublishFailed(f)))
      else (fs.Rename(f.name, h(f.hashed)),
            PutDone(f.hashed, StoredBlob(KeyOf(h(f.hashed)), seen.size, seen.mtime)))
    case PutDiscard(f, seen) =>
      if c.Fail? || f.name !in fs.scratch then (fs, PutFailed(DiscardFailed(f, seen)))
      else (fs.UnlinkScratch(f.name),
            PutDone(f.hashed, StoredBlob(KeyOf(h(f.hashed)), seen.size, seen.mtime)))
  }

  function Prefix(d: Digest, logged: Option<nat>): seq<Commit> {
    if logged.Some? then [Commit(OpSize(Some(d)), RSize(logged.value))] else []
  }

  /** `size`: an lstat that refuses everything but a regular file. */
  function SizeOf(fs: FS, d: Digest): Option<nat> {
    match fs.Lstat(d)
    case None => None
    case Some(st) => if st.kind == Regular then Some(st.size) else None
  }

  /** `_is_stored_blob` when the lstat itself works. */
  predicate IsStoredBlob(fs: FS, d: Digest) {
    fs.Lstat(d).Some? && fs.Lstat(d).value.kind == Regular
  }

  function ReadChunk(data: Bytes, cursor: nat): Bytes {
    if cursor < |data| then data[cursor..Min(cursor + READ_CHUNK_SIZE, |data|)] else []
  }

  /** A read takes up where the last one stopped, and is empty exactly at the end. */
  lemma ReadChunkAdvances(data: Bytes, cursor: nat)
    requires cursor <= |data|
    ensures var chunk := ReadChunk(data, cursor);
            && cursor + |chunk| <= |data| && |chunk| <= READ_CHUNK_SIZE
            && data[..cursor] + chunk == data[..cursor + |chunk|]
            && (chunk == [] <==> cursor == |data|)
            && (|chunk| < READ_CHUNK_SIZE ==> cursor + |chunk| == |data|)
  {
  }

  function ReadStep(fs: FS, pc: Pc, c: Choice): Pc
    requires IsReading(pc)
  {
    match pc
    case GetOpen(d, logged) =>
      if c.Fail? then Errored(Prefix(d, logged))
      else
        (match fs.OpenStoredBlob(d)
         case Opened(ino) => GetRead(d, logged, ino, 0, [])
         case OpenFailed(e) => if IsAbsentBlob(e) then GetMissed(d, logged) else Errored(Prefix(d, logged)))
    case GetRead(d, logged, ino, cursor, out) =>
      if c.Fail? || c.Drop? then GetDropped(d, logged, ino, cursor, out)
      else
        var chunk := ReadChunk(fs.Node(ino).data, cursor);
        if chunk == [] then GetDone(d, logged, out)
        else GetRead(d, logged, ino, cursor + |chunk|, out + [chunk])
    case RetrieveSize(d) =>
      if c.Fail? then Errored([])
      else (match SizeOf(fs, d) case None => Missing(OpSize(Some(d))) case Some(n) => GetOpen(d, Some(n)))
    case ExistsLstat(d) => if c.Fail? then ExistsBlind(d) else ExistsDone(Some(d), IsStoredBlob(fs, d))
    case SizeLstat(d) =>
      if c.Fail? then Errored([])
      else (match SizeOf(fs, d) case None => Missing(OpSize(Some(d))) case Some(n) => SizeDone(d, n))
    case RemoveSize(d) =>
      if c.Fail? then Errored([])
      else (match SizeOf(fs, d) case None => Missing(OpSize(Some(d))) case Some(n) => RemoveUnlink(d, n))
  }

  function UnlinkStep(fs: FS, pc: Pc, c: Choice): (FS, Pc)
    requires IsUnlinking(pc)
  {
    var before := if pc.RemoveUnlink? then Prefix(pc.d, Some(pc.size)) else [];
    if c.Fail? then (fs, Errored(before))
    else if pc.d !in fs.blobs then
      (fs, if pc.RemoveUnlink? then RemoveMissed(pc.d, pc.size) else Missing(OpDelete(Some(pc.d))))
    else if !fs.CanUnlink(pc.d) then (fs, Errored(before))
    else (fs.UnlinkBlob(pc.d), if pc.RemoveUnlink? then RemoveDone(pc.d, pc.size) else DeleteDone(pc.d))
  }

  /** One step of one call: its effect on the filesystem, and where it stands next. */
  function Local(h: Hash, fs: FS, pc: Pc, c: Choice): (FS, Pc) {
    if IsPutting(pc) then
      PutStep(h, fs, pc, c)
    else if IsReading(pc) then
      (fs, ReadStep(fs, pc, c))
    else if IsUnlinking(pc) then
      UnlinkStep(fs, pc, c)
    else (fs, pc)
  }

  function Remember(spooled: set<Bytes>, pc: Pc): set<Bytes> {
    if pc.PutPublish? then spooled + {pc.f.hashed} else spooled
  }

  function Apply(h: Hash, s: State, a: Action): State {
    match a
    case Begin(pid, call) => if pid in s.procs then s else s.(procs := s.procs[pid := Start(call)])
    case Do(pid, c) =>
      if pid !in s.procs then s
      else
        var (fs, pc) := Local(h, s.fs, s.procs[pid], c);
        State(fs, s.procs[pid := pc], Remember(s.spooled, pc))
    case PlantAt(d, kind) => s.(fs := s.fs.Plant(d, kind))
    case Tick => s.(fs := s.fs.(clock := s.fs.clock + 1))
  }

  /** The state after a list of actions. */
  function Exec(h: Hash, s: State, actions: seq<Action>): State {
    if actions == [] then s
    else Apply(h, Exec(h, s, actions[..|actions| - 1]), actions[|actions| - 1])
  }

  /** The run from the empty store. */
  function Run(h: Hash, actions: seq<Action>): State {
    Exec(h, Init, actions)
  }

  lemma {:induction false} ExecSplit(h: Hash, s: State, first: seq<Action>, second: seq<Action>)
    ensures Exec(h, s, first + second) == Exec(h, Exec(h, s, first), second)
    decreases |second|
  {
    if second == [] {
      assert first + second == first;
    } else {
      var k := |second| - 1;
      assert (first + second)[..|first + second| - 1] == first + second[..k];
      ExecSplit(h, s, first, second[..k]);
    }
  }
}
