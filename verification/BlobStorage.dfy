/**
 * `FilesystemBlobStorage` as the imperative object it is, one call running alone and any of its system calls
 * failing. Each method is proved against what the storage contract says of it, and against the step machine:
 * the system calls it makes are a run of BlobMachine.Local from the call's start.
 */
module BlobStorage {
  import opened Prelude
  import opened KeyLayout
  import opened FileSystem
  import opened BlobMachine
  import opened BlobInvariant
  import opened Chunking

  // ---------- a call running alone ----------

  /** One call's steps, taken without interleaving. */
  function Solo(h: Hash, fs: FS, pc: Pc, choices: seq<Choice>): (FS, Pc) {
    if choices == [] then (fs, pc)
    else
      var k := |choices| - 1;
      var (fs', pc') := Solo(h, fs, pc, choices[..k]);
      Local(h, fs', pc', choices[k])
  }

  lemma SoloSnoc(h: Hash, fs: FS, pc: Pc, choices: seq<Choice>, c: Choice)
    ensures var (fs', pc') := Solo(h, fs, pc, choices);
            Solo(h, fs, pc, choices + [c]) == Local(h, fs', pc', c)
  {
    assert (choices + [c])[..|choices|] == choices;
  }

  lemma SoloOne(h: Hash, fs: FS, pc: Pc, c: Choice)
    ensures Solo(h, fs, pc, [c]) == Local(h, fs, pc, c)
  {
    SoloSnoc(h, fs, pc, [], c);
    assert [] + [c] == [c];
  }

  lemma SoloTwo(h: Hash, fs: FS, pc: Pc, b: Choice, c: Choice)
    ensures var (fs', pc') := Local(h, fs, pc, b);
            Solo(h, fs, pc, [b, c]) == Local(h, fs', pc', c)
  {
    SoloOne(h, fs, pc, b);
    SoloSnoc(h, fs, pc, [b], c);
    assert [b] + [c] == [b, c];
  }

  /** SoloSnoc for a put, whose steps are PutStep's. */
  lemma SoloPut(h: Hash, fs: FS, choices: seq<Choice>, at: (FS, Pc), c: Choice)
    requires Solo(h, fs, PutPrepare, choices) == at
    requires IsPutting(at.1)
    ensures Solo(h, fs, PutPrepare, choices + [c]) == PutStep(h, at.0, at.1, c)
  {
    SoloSnoc(h, fs, PutPrepare, choices, c);
  }

  function Steps(pid: Pid, choices: seq<Choice>): seq<Action> {
    seq(|choices|, i requires 0 <= i < |choices| => Do(pid, choices[i]))
  }

  /** A solo execution is a run of the machine in which only that call moves. */
  lemma {:induction false} SoloIsARun(h: Hash, s: State, pid: Pid, choices: seq<Choice>)
    requires pid in s.procs
    ensures var (fs, pc) := Solo(h, s.fs, s.procs[pid], choices);
            var s' := Exec(h, s, Steps(pid, choices));
            s'.fs == fs && s'.procs == s.procs[pid := pc]
  {
    if choices == [] {
      assert Steps(pid, choices) == [];
      assert s.procs[pid := s.procs[pid]] == s.procs;
    } else {
      var k := |choices| - 1;
      SoloIsARun(h, s, pid, choices[..k]);
      assert Steps(pid, choices)[..k] == Steps(pid, choices[..k]);
    }
  }

  // ---------- what put promises ----------

  datatype Outcome<+T> =
    | Success(value: T)
    | BlobNotFound
    | CorruptStorageTree
    | OsError
    | SourceRaised

  /** The system calls a put makes. */
  datatype SysCall =
    | Prepare
    | Draw
    | Spooling(stage: SpoolStage)
    | Publishing(at: PublishStage)
    | Rename
    | Discard

  /** What the machine is told when a system call is made. */
  function Answered(fails: bool): Choice {
    if fails then Fail else Ok
  }

  /** The write of what the source yields next fails, or the source raises, once it has yielded `content`. */
  predicate FeedFails(raises: bool, fails: set<SysCall>) {
    raises || Spooling(Writing) in fails
  }

  predicate SpoolFails(raises: bool, fails: set<SysCall>) {
    || Prepare in fails || Draw in fails || Spooling(Opening) in fails || FeedFails(raises, fails)
    || Spooling(Flushing) in fails || Spooling(Syncing) in fails || Spooling(Closing) in fails
  }

  /** The source's own exception is what a failed spool raises, unless a system call's error comes first or replaces it. */
  predicate SourceHeard(raises: bool, fails: set<SysCall>) {
    raises && fails !! {Prepare, Draw, Spooling(Opening), Spooling(Aborting), Spooling(Cleaning)}
  }

  /** A failed spool leaves its scratch file only when it had drawn one and cannot remove it. */
  predicate Litters(fails: set<SysCall>) {
    Prepare !in fails && Draw !in fails && Spooling(Cleaning) in fails
  }

  predicate PublishFails(was: FS, d: Digest, fails: set<SysCall>) {
    || Publishing(Inspecting) in fails
    || (d !in was.blobs && !(fails !! {Publishing(MakingDirs), Publishing(Measuring), Rename}))
    || (was.Lstat(d).Some? && was.Lstat(d).value.kind == Regular && Discard in fails)
  }

  /** A put that raises publishes nothing, and this is what it leaves in scratch. */
  predicate Unpublished(was: FS, now: FS, left: bool, drawn: nat) {
    now.blobs == was.blobs && now.scratch == if left then was.scratch[drawn := |was.inodes|] else was.scratch
  }

  /** A put that succeeds: the blob is there with the stat reported, and if it was there before it is the same file. */
  predicate Stored(h: Hash, was: FS, now: FS, content: Bytes, blob: StoredBlob) {
    var d := h(content);
    && blob.key == "sha256:" + d
    && d in now.blobs && now.blobs[d] < |now.inodes| && now.inodes[now.blobs[d]].kind == Regular
    && blob.size == |now.inodes[now.blobs[d]].data| && blob.createdAt == now.inodes[now.blobs[d]].mtime
    && now.scratch == was.scratch
    && (d in was.blobs ==> now.blobs == was.blobs)
    && (d !in was.blobs ==>
          && now.blobs == was.blobs[d := |was.inodes|]
          && now.inodes[now.blobs[d]].data == content && blob.createdAt == now.clock)
  }

  /** What `put` promises once the content is spooled. */
  ghost predicate PublishPromise(h: Hash, was: FS, now: FS, content: Bytes, fails: set<SysCall>,
                                 drawn: nat, r: Outcome<StoredBlob>) {
    var d := h(content);
    if PublishFails(was, d, fails) then
      r == OsError && Unpublished(was, now, true, drawn)
    else if d in was.blobs && was.Lstat(d).value.kind != Regular then
      r == CorruptStorageTree && Unpublished(was, now, true, drawn)
    else
      r.Success? && Stored(h, was, now, content, r.value)
  }

  /**
   * What `put` of these bytes promises about the store before and after, whichever of its system calls fail
   * and whether or not the source raises. The key is the hash of the bytes, however they were cut into
   * chunks. A failure while spooling cleans up after itself; a later one, or an entry at the path that is
   * not a regular file, leaves the scratch file and nothing else.
   */
  ghost predicate PutPromise(h: Hash, was: FS, now: FS, content: Bytes, raises: bool, fails: set<SysCall>,
                             drawn: nat, r: Outcome<StoredBlob>) {
    if SpoolFails(raises, fails) then
      && r == (if SourceHeard(raises, fails) then SourceRaised else OsError)
      && Unpublished(was, now, Litters(fails), drawn)
    else PublishPromise(h, was, now, content, fails, drawn, r)
  }

  // ---------- what the machine is told ----------

  /** What goes wrong, and the name mkstemp draws. */
  datatype Env = Env(raises: bool, fails: set<SysCall>, drawn: nat)

  /** The answer a put gets when it stands here: Fail exactly for the system calls that fail. */
  predicate Told(e: Env, pc: Pc, c: Choice) {
    match pc
    case PutPrepare => c == if Prepare in e.fails then Fail else Ok
    case PutMkstemp => c == if Draw in e.fails then Fail else Name(e.drawn)
    case PutSpool(stage, _) =>
      if stage.Writing? then
        c.Chunk? || c == if e.raises || Spooling(Writing) in e.fails then Fail else Eof
      else c == if Spooling(stage) in e.fails then Fail else Ok
    case PutPublish(at, _) => c == if Publishing(at) in e.fails then Fail else Ok
    case PutRename(_, _) => c == if Rename in e.fails then Fail else Ok
    case PutDiscard(_, _) => c == if Discard in e.fails then Fail else Ok
    case _ => false
  }

  /** At every one of its steps the put is told the truth. */
  predicate Truthful(h: Hash, fs0: FS, e: Env, choices: seq<Choice>) {
    choices == [] ||
      var k := |choices| - 1;
      Truthful(h, fs0, e, choices[..k]) && Told(e, Solo(h, fs0, PutPrepare, choices[..k]).1, choices[k])
  }

  /** The chunks the source yields, in order. */
  function Fed(choices: seq<Choice>): seq<Bytes> {
    if choices == [] then []
    else
      var k := |choices| - 1;
      Fed(choices[..k]) + if choices[k].Chunk? then [choices[k].bytes] else []
  }

  lemma ToldOnce(h: Hash, fs0: FS, e: Env, sofar: seq<Choice>, pc: Pc, c: Choice)
    requires Truthful(h, fs0, e, sofar) && Solo(h, fs0, PutPrepare, sofar).1 == pc && Told(e, pc, c)
    ensures Truthful(h, fs0, e, sofar + [c])
    ensures Fed(sofar + [c]) == Fed(sofar) + if c.Chunk? then [c.bytes] else []
  {
    assert (sofar + [c])[..|sofar|] == sofar;
  }

  // ---------- the machine's side of each stretch of a put ----------

  lemma OpeningRun(h: Hash, fs: FS, drawn: nat)
    requires drawn !in fs.scratch
    ensures Solo(h, fs, PutPrepare, [Ok]) == (fs, PutMkstemp)
    ensures Solo(h, fs, PutPrepare, [Ok, Name(drawn)])
         == (fs.Mkstemp(drawn), PutSpool(Opening, Spool(drawn, |fs.inodes|, [], [])))
  {
    SoloPut(h, fs, [], (fs, PutPrepare), Ok);
    assert [] + [Ok] == [Ok] && [Ok] + [Name(drawn)] == [Ok, Name(drawn)];
    SoloPut(h, fs, [Ok], (fs, PutMkstemp), Name(drawn));
  }

  lemma OpeningTold(h: Hash, fs: FS, e: Env)
    requires e.drawn !in fs.scratch
    ensures Prepare in e.fails ==> Truthful(h, fs, e, [Fail])
    ensures Prepare !in e.fails && Draw in e.fails ==> Truthful(h, fs, e, [Ok, Fail])
    ensures Prepare !in e.fails && Draw !in e.fails ==> Truthful(h, fs, e, [Ok, Name(e.drawn)])
    ensures Fed([Ok, Name(e.drawn)]) == []
  {
    OpeningRun(h, fs, e.drawn);
    assert [] + [Ok] == [Ok] && [] + [Fail] == [Fail];
    assert [Ok] + [Fail] == [Ok, Fail] && [Ok] + [Name(e.drawn)] == [Ok, Name(e.drawn)];
    if Prepare in e.fails {
      ToldOnce(h, fs, e, [], PutPrepare, Fail);
    } else {
      ToldOnce(h, fs, e, [], PutPrepare, Ok);
      ToldOnce(h, fs, e, [Ok], PutMkstemp, if Draw in e.fails then Fail else Name(e.drawn));
    }
    assert [Ok, Name(e.drawn)][..1] == [Ok] && [Ok][..0] == [];
  }

  /** One step of a spool. */
  lemma SpoolRun(h: Hash, fs0: FS, sofar: seq<Choice>, fs: FS, stage: SpoolStage, f: Spool, c: Choice)
    requires Solo(h, fs0, PutPrepare, sofar) == (fs, PutSpool(stage, f))
    ensures Solo(h, fs0, PutPrepare, sofar + [c]) == SpoolStep(fs, stage, f, c)
  {
    SoloPut(h, fs0, sofar, (fs, PutSpool(stage, f)), c);
  }

  /** A scratch file being filled since fs0; inode and write buffer together hold what was hashed. */
  predicate Filling(fs0: FS, fs: FS, f: Spool) {
    && fs.blobs == fs0.blobs && fs.clock == fs0.clock && fs.scratch == fs0.scratch[f.name := f.ino]
    && f.ino == |fs0.inodes| && |fs.inodes| == f.ino + 1 && fs.inodes[..f.ino] == fs0.inodes
    && fs.inodes[f.ino].kind == Regular && fs.inodes[f.ino].mtime == fs.clock
    && fs.inodes[f.ino].data + f.pending == f.hashed
  }

  lemma WriteFills(fs0: FS, fs: FS, f: Spool, chunk: Bytes, through: nat)
    requires Filling(fs0, fs, f) && through <= |f.pending + chunk|
    ensures var waiting := f.pending + chunk;
            Filling(fs0, fs.Append(f.ino, waiting[..through]),
                    f.(hashed := f.hashed + chunk, pending := waiting[through..]))
  {
    BufferLaw(fs.inodes[f.ino].data, f.pending, chunk, through);
  }

  lemma FlushFills(fs0: FS, fs: FS, f: Spool)
    requires Filling(fs0, fs, f)
    ensures fs.Append(f.ino, f.pending).inodes == fs0.inodes + [Inode(Regular, f.hashed, fs.clock)]
    ensures Filling(fs0, fs.Append(f.ino, f.pending), f.(pending := []))
  {
  }

  /** The ways a put ends once its content is spooled. */
  lemma PublishRun(h: Hash, fs0: FS, sofar: seq<Choice>, fs: FS, f: Spool)
    requires Solo(h, fs0, PutPrepare, sofar) == (fs, PutPublish(Inspecting, f))
    ensures Solo(h, fs0, PutPrepare, sofar + [Fail]) == (fs, PutFailed(PublishFailed(f)))
    ensures var st := fs.Lstat(h(f.hashed));
            Solo(h, fs0, PutPrepare, sofar + [Ok])
            == (fs, if st.None? then PutPublish(MakingDirs, f)
                    else if st.value.kind == Regular then PutDiscard(f, st.value) else PutFailed(CorruptTree(f)))
  {
    SoloPut(h, fs0, sofar, (fs, PutPublish(Inspecting, f)), Fail);
    SoloPut(h, fs0, sofar, (fs, PutPublish(Inspecting, f)), Ok);
  }

  lemma RenameRun(h: Hash, fs0: FS, sofar: seq<Choice>, fs: FS, f: Spool, at: PublishStage, c: Choice)
    requires Solo(h, fs0, PutPrepare, sofar) == (fs, PutPublish(at, f)) && !at.Inspecting? && f.name in fs.scratch
    requires c == Ok || c == Fail
    ensures Solo(h, fs0, PutPrepare, sofar + [c])
         == (fs, if c == Fail then PutFailed(PublishFailed(f))
                 else if at.MakingDirs? then PutPublish(Measuring, f) else PutRename(f, fs.LstatScratch(f.name).value))
  {
    SoloPut(h, fs0, sofar, (fs, PutPublish(at, f)), c);
  }

  lemma LastRun(h: Hash, fs0: FS, sofar: seq<Choice>, fs: FS, pc: Pc, c: Choice)
    requires Solo(h, fs0, PutPrepare, sofar) == (fs, pc) && (pc.PutRename? || pc.PutDiscard?) && (c == Ok || c == Fail)
    requires pc.f.name in fs.scratch && (pc.PutRename? ==> h(pc.f.hashed) !in fs.blobs)
    ensures var d := h(pc.f.hashed);
            Solo(h, fs0, PutPrepare, sofar + [c])
            == (if c == Ok then (if pc.PutRename? then fs.Rename(pc.f.name, d) else fs.UnlinkScratch(pc.f.name),
                                 PutDone(pc.f.hashed, StoredBlob(KeyOf(d), pc.seen.size, pc.seen.mtime)))
                else (fs, PutFailed(if pc.PutRename? then PublishFailed(pc.f) else DiscardFailed(pc.f, pc.seen))))
  {
    SoloPut(h, fs0, sofar, (fs, pc), c);
  }

  // ---------- what a put leaves ----------

  /** A finished spool: one new scratch file, holding what was hashed. */
  ghost predicate Settled(fs0: FS, fs: FS, f: Spool) {
    && f.name !in fs0.scratch && f.ino == |fs0.inodes|
    && fs.blobs == fs0.blobs && fs.scratch == fs0.scratch[f.name := f.ino]
    && fs.inodes == fs0.inodes + [Inode(Regular, f.hashed, fs.clock)]
  }

  lemma SpoolSettled(h: Hash, fs0: FS, fs: FS, spooled: set<Bytes>, f: Spool)
    requires FsOk(h, fs0, spooled) && Settled(fs0, fs, f)
    ensures FsOk(h, fs, spooled + {f.hashed}) && Spooled(fs, spooled + {f.hashed}, f)
    ensures fs.Lstat(h(f.hashed)) == fs0.Lstat(h(f.hashed))
  {
    forall d | d in fs.blobs && fs.inodes[fs.blobs[d]].kind == Regular
      ensures Whole(h, fs, spooled + {f.hashed}, d, fs.blobs[d])
    {
      assert Whole(h, fs0, spooled, d, fs0.blobs[d]);
    }
  }

  lemma Published(h: Hash, fs0: FS, fs: FS, spooled: set<Bytes>, f: Spool)
    requires FsOk(h, fs, spooled) && Spooled(fs, spooled, f) && Settled(fs0, fs, f) && h(f.hashed) !in fs.blobs
    ensures var (d, st) := (h(f.hashed), fs.LstatScratch(f.name).value);
            && FsOk(h, fs.Rename(f.name, d), spooled)
            && Stored(h, fs0, fs.Rename(f.name, d), f.hashed, StoredBlob(KeyOf(d), st.size, st.mtime))
  {
    RenameKeeps(h, fs, spooled, f);
    assert fs.Rename(f.name, h(f.hashed)).scratch == fs0.scratch;
  }

  lemma Discarded(h: Hash, fs0: FS, fs: FS, spooled: set<Bytes>, f: Spool)
    requires FsOk(h, fs, spooled) && Settled(fs0, fs, f)
    requires h(f.hashed) in fs.blobs && fs.Node(fs.blobs[h(f.hashed)]).kind == Regular
    ensures var (d, st) := (h(f.hashed), fs.Lstat(h(f.hashed)).value);
            && FsOk(h, fs.UnlinkScratch(f.name), spooled)
            && Stored(h, fs0, fs.UnlinkScratch(f.name), f.hashed, StoredBlob(KeyOf(d), st.size, st.mtime))
  {
    FsOkPreserved(h, fs, fs.UnlinkScratch(f.name), spooled);
    assert fs.UnlinkScratch(f.name).scratch == fs0.scratch;
  }

  /** What a failed spool leaves behind: no blob changed, and no scratch file unless removing it failed. */
  ghost predicate LeftBehind(fs0: FS, fs: FS, left: bool, drawn: nat) {
    && Unpublished(fs0, fs, left, drawn)
    && fs.clock == fs0.clock && fs0.inodes <= fs.inodes
    && (left ==> |fs.inodes| > |fs0.inodes| && fs.inodes[|fs0.inodes|].kind == Regular)
  }

  lemma LeftBehindOk(h: Hash, fs0: FS, fs: FS, spooled: set<Bytes>, left: bool, drawn: nat)
    requires FsOk(h, fs0, spooled) && drawn !in fs0.scratch && LeftBehind(fs0, fs, left, drawn)
    ensures FsOk(h, fs, spooled)
  {
    forall d | d in fs.blobs && fs.inodes[fs.blobs[d]].kind == Regular
      ensures Whole(h, fs, spooled, d, fs.blobs[d])
    {
      assert Whole(h, fs0, spooled, d, fs0.blobs[d]);
    }
  }

  // ---------- reading ----------

  /** What a read loop has yielded when its cursor stands here: full chunks, while there is more to read. */
  predicate ReadSoFar(data: Bytes, cursor: nat, out: seq<Bytes>) {
    && Yielded(data, cursor, out)
    && FullChunks(out, READ_CHUNK_SIZE)
    && (out != [] && cursor < |data| ==> |out[|out| - 1]| == READ_CHUNK_SIZE)
  }

  lemma ReadAdvances(data: Bytes, cursor: nat, out: seq<Bytes>)
    requires ReadSoFar(data, cursor, out) && cursor < |data|
    ensures var chunk := ReadChunk(data, cursor);
            ReadSoFar(data, cursor + |chunk|, out + [chunk])
  {
    ReadChunkAdvances(data, cursor);
    YieldOne(data, cursor, out);
    FullSnoc(out, ReadChunk(data, cursor), READ_CHUNK_SIZE);
  }

  /** One read of a stream: another chunk, or the end. */
  lemma ReadRun(h: Hash, fs: FS, start: Pc, sofar: seq<Choice>, d: Digest, ino: nat, cursor: nat, out: seq<Bytes>)
    requires Solo(h, fs, start, sofar) == (fs, GetRead(d, None, ino, cursor, out))
    ensures var chunk := ReadChunk(fs.Node(ino).data, cursor);
            Solo(h, fs, start, sofar + [Ok])
            == (fs, if chunk == [] then GetDone(d, None, out)
                    else GetRead(d, None, ino, cursor + |chunk|, out + [chunk]))
  {
    SoloSnoc(h, fs, start, sofar, Ok);
  }

  function Oks(n: nat): seq<Choice> {
    seq(n, _ => Ok)
  }

  /** A stream that has come this far, by these steps. */
  predicate Streaming(h: Hash, fs: FS, d: Digest, ino: nat, choices: seq<Choice>, cursor: nat, out: seq<Bytes>) {
    && ReadSoFar(fs.Node(ino).data, cursor, out)
    && Solo(h, fs, GetRead(d, None, ino, 0, []), choices) == (fs, GetRead(d, None, ino, cursor, out))
  }

  lemma StreamStarts(h: Hash, fs: FS, d: Digest, ino: nat)
    ensures Streaming(h, fs, d, ino, [], 0, [])
  {
  }

  lemma StreamGoesOn(h: Hash, fs: FS, d: Digest, ino: nat, choices: seq<Choice>, cursor: nat, out: seq<Bytes>)
    requires Streaming(h, fs, d, ino, choices, cursor, out)
    requires ReadChunk(fs.Node(ino).data, cursor) != []
    ensures var chunk := ReadChunk(fs.Node(ino).data, cursor);
            Streaming(h, fs, d, ino, choices + [Ok], cursor + |chunk|, out + [chunk])
  {
    ReadAdvances(fs.Node(ino).data, cursor, out);
    ReadRun(h, fs, GetRead(d, None, ino, 0, []), choices, d, ino, cursor, out);
  }

  lemma StreamEnds(h: Hash, fs: FS, d: Digest, ino: nat, choices: seq<Choice>, cursor: nat, out: seq<Bytes>)
    requires Streaming(h, fs, d, ino, choices, cursor, out)
    requires ReadChunk(fs.Node(ino).data, cursor) == []
    ensures Flatten(out) == fs.Node(ino).data
    ensures Solo(h, fs, GetRead(d, None, ino, 0, []), choices + [Ok]) == (fs, GetDone(d, None, out))
  {
    YieldedAll(fs.Node(ino).data, cursor, out);
    ReadRun(h, fs, GetRead(d, None, ino, 0, []), choices, d, ino, cursor, out);
  }

  lemma StreamStops(h: Hash, fs: FS, d: Digest, ino: nat, choices: seq<Choice>, cursor: nat, out: seq<Bytes>, c: Choice)
    requires Streaming(h, fs, d, ino, choices, cursor, out) && (c == Fail || c == Drop)
    ensures Flatten(out) <= fs.Node(ino).data && |Flatten(out)| == cursor
    ensures Solo(h, fs, GetRead(d, None, ino, 0, []), choices + [c]) == (fs, GetDropped(d, None, ino, cursor, out))
  {
    SoloSnoc(h, fs, GetRead(d, None, ino, 0, []), choices, c);
  }

  // ---------- how the machine's calls end, seen as outcomes ----------

  /** The key names a blob. */
  ghost predicate NamesBlob(fs: FS, key: string) {
    Resolve(key).Some? && Resolve(key).value in Contents(fs)
  }

  predicate OpenEnds(target: Option<Digest>, pc: Pc, r: Outcome<nat>) {
    match r
    case Success(ino) => target.Some? && pc == GetRead(target.value, None, ino, 0, [])
    case BlobNotFound => pc == if target.Some? then GetMissed(target.value, None) else Missing(OpGet(None))
    case OsError => pc == Errored([])
    case _ => false
  }

  predicate SizeEnds(target: Option<Digest>, pc: Pc, r: Outcome<nat>) {
    match r
    case Success(n) => target.Some? && pc == SizeDone(target.value, n)
    case BlobNotFound => pc == Missing(OpSize(target))
    case OsError => pc == Errored([])
    case _ => false
  }

  predicate DeleteEnds(target: Option<Digest>, pc: Pc, r: Outcome<()>) {
    match r
    case Success(_) => target.Some? && pc == DeleteDone(target.value)
    case BlobNotFound => pc == Missing(OpDelete(target))
    case OsError => pc == Errored([])
    case _ => false
  }

  // ---------- the object ----------

  class FilesystemBlobStorage {
    const h: Hash
    var fs: FS
    ghost var spooled: set<Bytes>

    ghost predicate Valid()
      reads this
    {
      FsOk(h, fs, spooled)
    }

    constructor (h: Hash)
      ensures Valid() && this.h == h && fs == EmptyFS
    {
      this.h := h;
      fs := EmptyFS;
      spooled := {};
    }

    /** The chunk loop of `_spool`: hash a chunk, write it, and let the buffer pass some prefix on. */
    method Feed(content: seq<Bytes>, drawn: nat, ghost e: Env, ghost fs0: FS, ghost sofar: seq<Choice>)
        returns (f: BlobMachine.Spool, ghost choices: seq<Choice>)
      requires drawn !in fs0.scratch && fs == fs0.Mkstemp(drawn)
      requires Solo(h, fs0, PutPrepare, sofar) == (fs, PutSpool(Writing, BlobMachine.Spool(drawn, |fs0.inodes|, [], [])))
      requires Truthful(h, fs0, e, sofar) && Fed(sofar) == []
      modifies this`fs
      ensures Truthful(h, fs0, e, choices) && Fed(choices) == content
      ensures Filling(fs0, fs, f) && f.name == drawn && f.hashed == Flatten(content)
      ensures Solo(h, fs0, PutPrepare, choices) == (fs, PutSpool(Writing, f))
    {
      f, choices := BlobMachine.Spool(drawn, |fs.inodes| - 1, [], []), sofar;
      for i := 0 to |content|
        invariant Filling(fs0, fs, f) && f.name == drawn && f.hashed == Flatten(content[..i])
        invariant Solo(h, fs0, PutPrepare, choices) == (fs, PutSpool(Writing, f))
        invariant Truthful(h, fs0, e, choices) && Fed(choices) == content[..i]
      {
        var chunk := content[i];
        FlattenSnoc(content[..i], chunk);
        assert content[..i] + [chunk] == content[..i + 1];
        var waiting := f.pending + chunk;
        var through: nat :| through <= |waiting|;
        SpoolRun(h, fs0, choices, fs, Writing, f, Chunk(chunk, through));
        ToldOnce(h, fs0, e, choices, PutSpool(Writing, f), Chunk(chunk, through));
        WriteFills(fs0, fs, f, chunk, through);
        choices := choices + [Chunk(chunk, through)];
        fs := fs.Append(f.ino, waiting[..through]);
        f := f.(hashed := f.hashed + chunk, pending := waiting[through..]);
      }
      assert content[..|content|] == content;
    }

    /** The `except` of `_spool`: remove the partial scratch file and raise what was raised. */
    method Clean(f: BlobMachine.Spool, why: Outcome<BlobMachine.Spool>, fails: set<SysCall>,
                 ghost e: Env, ghost fs0: FS, ghost sofar: seq<Choice>)
        returns (r: Outcome<BlobMachine.Spool>, ghost choices: seq<Choice>)
      requires Filling(fs0, fs, f.(pending := [])) || Filling(fs0, fs, f)
      requires f.name !in fs0.scratch
      requires Solo(h, fs0, PutPrepare, sofar) == (fs, PutSpool(Cleaning, f))
      requires Truthful(h, fs0, e, sofar) && e.fails == fails
      modifies this`fs
      ensures Truthful(h, fs0, e, choices) && Fed(choices) == Fed(sofar)
      ensures LeftBehind(fs0, fs, Spooling(Cleaning) in fails, f.name)
      ensures r == if Spooling(Cleaning) in fails then OsError else why
      ensures Solo(h, fs0, PutPrepare, choices)
           == (fs, PutFailed(if Spooling(Cleaning) in fails then CleanupFailed(f) else SpoolCleaned))
    {
      var failing := Spooling(Cleaning) in fails;
      SpoolRun(h, fs0, sofar, fs, Cleaning, f, Answered(failing));
      ToldOnce(h, fs0, e, sofar, PutSpool(Cleaning, f), Answered(failing));
      choices := sofar + [Answered(failing)];
      if failing {
        return OsError, choices;
      }
      fs := fs.UnlinkScratch(f.name);
      assert fs.scratch == fs0.scratch;
      r := why;
    }

    /** The `finally` of `_spool` when something was raised: close, whatever that does, and clean up. */
    method Abort(f: BlobMachine.Spool, why: Outcome<BlobMachine.Spool>, fails: set<SysCall>,
                 ghost e: Env, ghost fs0: FS, ghost sofar: seq<Choice>)
        returns (r: Outcome<BlobMachine.Spool>, ghost choices: seq<Choice>)
      requires Filling(fs0, fs, f) && f.name !in fs0.scratch
      requires Solo(h, fs0, PutPrepare, sofar) == (fs, PutSpool(Aborting, f))
      requires Truthful(h, fs0, e, sofar) && e.fails == fails
      modifies this`fs
      ensures Truthful(h, fs0, e, choices) && Fed(choices) == Fed(sofar)
      ensures LeftBehind(fs0, fs, Spooling(Cleaning) in fails, f.name)
      ensures r == if Spooling(Aborting) in fails || Spooling(Cleaning) in fails then OsError else why
      ensures Solo(h, fs0, PutPrepare, choices)
           == (fs, PutFailed(if Spooling(Cleaning) in fails then CleanupFailed(f) else SpoolCleaned))
    {
      var failing := Spooling(Aborting) in fails;
      SpoolRun(h, fs0, sofar, fs, Aborting, f, Answered(failing));
      ToldOnce(h, fs0, e, sofar, PutSpool(Aborting, f), Answered(failing));
      FlushFills(fs0, fs, f);
      if !failing {
        fs := fs.Append(f.ino, f.pending);
      }
      r, choices := Clean(f, if failing then OsError else why, fails, e, fs0, sofar + [Answered(failing)]);
    }

    /** `_spool` once its bytes are flushed: sync and close. */
    method Shut(f: BlobMachine.Spool, fails: set<SysCall>, ghost e: Env, ghost fs0: FS, ghost sofar: seq<Choice>)
        returns (r: Outcome<BlobMachine.Spool>, ghost choices: seq<Choice>, ghost end: Pc)
      requires Filling(fs0, fs, f) && Settled(fs0, fs, f) && f.pending == []
      requires Solo(h, fs0, PutPrepare, sofar) == (fs, PutSpool(Syncing, f))
      requires Truthful(h, fs0, e, sofar) && e.fails == fails
      modifies this`fs
      ensures Truthful(h, fs0, e, choices) && Fed(choices) == Fed(sofar)
      ensures Solo(h, fs0, PutPrepare, choices) == (fs, end)
      ensures if Spooling(Syncing) in fails || Spooling(Closing) in fails
              then r == OsError && LeftBehind(fs0, fs, Spooling(Cleaning) in fails, f.name) && end.PutFailed?
              else r == Success(f) && fs == old(fs) && end == PutPublish(Inspecting, f)
    {
      choices := sofar;
      SpoolRun(h, fs0, choices, fs, Syncing, f, Answered(Spooling(Syncing) in fails));
      ToldOnce(h, fs0, e, choices, PutSpool(Syncing, f), Answered(Spooling(Syncing) in fails));
      choices := choices + [Answered(Spooling(Syncing) in fails)];
      if Spooling(Syncing) in fails {
        r, choices := Abort(f, OsError, fails, e, fs0, choices);
        return r, choices, Solo(h, fs0, PutPrepare, choices).1;
      }
      SpoolRun(h, fs0, choices, fs, Closing, f, Answered(Spooling(Closing) in fails));
      ToldOnce(h, fs0, e, choices, PutSpool(Closing, f), Answered(Spooling(Closing) in fails));
      choices := choices + [Answered(Spooling(Closing) in fails)];
      if Spooling(Closing) in fails {
        r, choices := Clean(f, OsError, fails, e, fs0, choices);
        return r, choices, Solo(h, fs0, PutPrepare, choices).1;
      }
      r, end := Success(f), PutPublish(Inspecting, f);
    }

    /** `_spool` once the source has ended or raised: flush, sync and close. */
    method Seal(f: BlobMachine.Spool, raises: bool, fails: set<SysCall>, ghost e: Env, ghost fs0: FS, ghost sofar: seq<Choice>)
        returns (r: Outcome<BlobMachine.Spool>, ghost choices: seq<Choice>, ghost end: Pc)
      requires Filling(fs0, fs, f) && f.name !in fs0.scratch
      requires Solo(h, fs0, PutPrepare, sofar) == (fs, PutSpool(Writing, f))
      requires Truthful(h, fs0, e, sofar) && e.fails == fails && e.raises == raises
      modifies this`fs
      ensures Truthful(h, fs0, e, choices) && Fed(choices) == Fed(sofar)
      ensures Solo(h, fs0, PutPrepare, choices) == (fs, end)
      ensures r.Success? <==> !FeedFails(raises, fails) && Spooling(Flushing) !in fails
                              && Spooling(Syncing) !in fails && Spooling(Closing) !in fails
      ensures r.Success? ==>
        r.value == f.(pending := []) && Settled(fs0, fs, r.value) && end == PutPublish(Inspecting, r.value)
      ensures !r.Success? ==>
        && r == (if raises && Spooling(Aborting) !in fails && Spooling(Cleaning) !in fails then SourceRaised else OsError)
        && LeftBehind(fs0, fs, Spooling(Cleaning) in fails, f.name) && end.PutFailed?
    {
      choices := sofar;
      if FeedFails(raises, fails) {
        SpoolRun(h, fs0, choices, fs, Writing, f, Fail);
        ToldOnce(h, fs0, e, choices, PutSpool(Writing, f), Fail);
        r, choices := Abort(f, if raises then SourceRaised else OsError, fails, e, fs0, choices + [Fail]);
        return r, choices, Solo(h, fs0, PutPrepare, choices).1;
      }
      SpoolRun(h, fs0, choices, fs, Writing, f, Eof);
      ToldOnce(h, fs0, e, choices, PutSpool(Writing, f), Eof);
      choices := choices + [Eof];
      SpoolRun(h, fs0, choices, fs, Flushing, f, Answered(Spooling(Flushing) in fails));
      ToldOnce(h, fs0, e, choices, PutSpool(Flushing, f), Answered(Spooling(Flushing) in fails));
      choices := choices + [Answered(Spooling(Flushing) in fails)];
      if Spooling(Flushing) in fails {
        r, choices := Abort(f, OsError, fails, e, fs0, choices);
        return r, choices, Solo(h, fs0, PutPrepare, choices).1;
      }
      FlushFills(fs0, fs, f);
      fs := fs.Append(f.ino, f.pending);
      r, choices, end := Shut(f.(pending := []), fails, e, fs0, choices);
    }

    /**
     * `_spool`. mkstemp's draw is the parameter; `raises` says whether the source raises after its chunks. On
     * success the scratch file holds exactly the bytes that were hashed, flushed and closed; on a failure
     * nothing remains, unless removing it failed too.
     */
    method Spool(content: seq<Bytes>, raises: bool, fails: set<SysCall>, drawn: nat)
        returns (r: Outcome<BlobMachine.Spool>, ghost choices: seq<Choice>, ghost end: Pc)
      requires Valid() && drawn !in fs.scratch
      modifies this`fs
      ensures Solo(h, old(fs), PutPrepare, choices) == (fs, end)
      ensures Truthful(h, old(fs), Env(raises, fails, drawn), choices)
      ensures fails !! {Prepare, Draw, Spooling(Opening)} ==> Fed(choices) == content
      ensures r.Success? <==> !SpoolFails(raises, fails)
      ensures r.Success? ==>
        && Settled(old(fs), fs, r.value) && r.value.name == drawn && r.value.hashed == Flatten(content)
        && end == PutPublish(Inspecting, r.value)
      ensures !r.Success? ==>
        && r == (if SourceHeard(raises, fails) then SourceRaised else OsError)
        && LeftBehind(old(fs), fs, Litters(fails), drawn) && end.PutFailed?
    {
      ghost var fs0, e := fs, Env(raises, fails, drawn);
      OpeningRun(h, fs0, drawn);
      OpeningTold(h, fs0, e);
      if Prepare in fails {
        return OsError, [Fail], PutFailed(NoScratch);
      }
      if Draw in fails {
        return OsError, [Ok, Fail], PutFailed(NoScratch);
      }
      fs := fs.Mkstemp(drawn);
      var f := BlobMachine.Spool(drawn, |fs.inodes| - 1, [], []);
      choices := [Ok, Name(drawn)];
      SpoolRun(h, fs0, choices, fs, Opening, f, Answered(Spooling(Opening) in fails));
      ToldOnce(h, fs0, e, choices, PutSpool(Opening, f), Answered(Spooling(Opening) in fails));
      choices := choices + [Answered(Spooling(Opening) in fails)];
      if Spooling(Opening) in fails {
        r, choices := Clean(f, OsError, fails, e, fs0, choices);
        return r, choices, Solo(h, fs0, PutPrepare, choices).1;
      }
      f, choices := Feed(content, drawn, e, fs0, choices);
      r, choices, end := Seal(f, raises, fails, e, fs0, choices);
    }

    /** Publishing at a path where nothing was found: the directories, the stat to report, and the rename. */
    method PublishNew(f: BlobMachine.Spool, fails: set<SysCall>, ghost e: Env, ghost fs0: FS, ghost sofar: seq<Choice>)
        returns (r: Outcome<StoredBlob>, ghost choices: seq<Choice>, ghost end: Pc)
      requires Valid() && Spooled(fs, spooled, f) && Settled(fs0, fs, f) && h(f.hashed) !in fs.blobs
      requires Solo(h, fs0, PutPrepare, sofar) == (fs, PutPublish(MakingDirs, f))
      requires Truthful(h, fs0, e, sofar) && e.fails == fails
      modifies this`fs
      ensures Truthful(h, fs0, e, choices) && Fed(choices) == Fed(sofar)
      ensures Valid() && fs.inodes == old(fs).inodes
      ensures Solo(h, fs0, PutPrepare, choices) == (fs, end)
      ensures if fails !! {Publishing(MakingDirs), Publishing(Measuring), Rename}
              then r.Success? && Stored(h, fs0, fs, f.hashed, r.value) && end == PutDone(f.hashed, r.value)
              else r == OsError && fs == old(fs) && end == PutFailed(PublishFailed(f))
    {
      RenameRun(h, fs0, sofar, fs, f, MakingDirs, Answered(Publishing(MakingDirs) in fails));
      ToldOnce(h, fs0, e, sofar, PutPublish(MakingDirs, f), Answered(Publishing(MakingDirs) in fails));
      choices := sofar + [Answered(Publishing(MakingDirs) in fails)];
      if Publishing(MakingDirs) in fails {
        return OsError, choices, PutFailed(PublishFailed(f));
      }
      var published := fs.LstatScratch(f.name).value;
      RenameRun(h, fs0, choices, fs, f, Measuring, Answered(Publishing(Measuring) in fails));
      ToldOnce(h, fs0, e, choices, PutPublish(Measuring, f), Answered(Publishing(Measuring) in fails));
      choices := choices + [Answered(Publishing(Measuring) in fails)];
      if Publishing(Measuring) in fails {
        return OsError, choices, PutFailed(PublishFailed(f));
      }
      LastRun(h, fs0, choices, fs, PutRename(f, published), Answered(Rename in fails));
      ToldOnce(h, fs0, e, choices, PutRename(f, published), Answered(Rename in fails));
      choices := choices + [Answered(Rename in fails)];
      if Rename in fails {
        return OsError, choices, PutFailed(PublishFailed(f));
      }
      Published(h, fs0, fs, spooled, f);
      fs := fs.Rename(f.name, h(f.hashed));
      r := Success(StoredBlob(KeyOf(h(f.hashed)), published.size, published.mtime));
      end := PutDone(f.hashed, r.value);
    }

    /** Dropping the scratch file for the blob that is already there, whose stat is reported. */
    method DropOwn(f: BlobMachine.Spool, fails: set<SysCall>, ghost e: Env, ghost fs0: FS, ghost sofar: seq<Choice>)
        returns (r: Outcome<StoredBlob>, ghost choices: seq<Choice>, ghost end: Pc)
      requires Valid() && Spooled(fs, spooled, f) && Settled(fs0, fs, f)
      requires h(f.hashed) in fs.blobs && fs.Node(fs.blobs[h(f.hashed)]).kind == Regular
      requires Solo(h, fs0, PutPrepare, sofar) == (fs, PutDiscard(f, fs.Lstat(h(f.hashed)).value))
      requires Truthful(h, fs0, e, sofar) && e.fails == fails
      modifies this`fs
      ensures Truthful(h, fs0, e, choices) && Fed(choices) == Fed(sofar)
      ensures Valid() && fs.inodes == old(fs).inodes
      ensures Solo(h, fs0, PutPrepare, choices) == (fs, end)
      ensures if Discard in fails then r == OsError && fs == old(fs) && end.PutFailed?
              else r.Success? && Stored(h, fs0, fs, f.hashed, r.value) && end == PutDone(f.hashed, r.value)
    {
      var d := h(f.hashed);
      var existing := fs.Lstat(d).value;
      LastRun(h, fs0, sofar, fs, PutDiscard(f, existing), Answered(Discard in fails));
      ToldOnce(h, fs0, e, sofar, PutDiscard(f, existing), Answered(Discard in fails));
      choices := sofar + [Answered(Discard in fails)];
      if Discard in fails {
        return OsError, choices, PutFailed(DiscardFailed(f, existing));
      }
      Discarded(h, fs0, fs, spooled, f);
      fs := fs.UnlinkScratch(f.name);
      r := Success(StoredBlob(KeyOf(d), existing.size, existing.mtime));
      end := PutDone(f.hashed, r.value);
    }

    /** `put` once its content is spooled: publish it, or drop it for the blob that is already there. */
    method Publish(f: BlobMachine.Spool, fails: set<SysCall>, ghost e: Env, ghost fs0: FS, ghost sofar: seq<Choice>)
        returns (r: Outcome<StoredBlob>, ghost choices: seq<Choice>, ghost end: Pc)
      requires Valid() && Spooled(fs, spooled, f) && Settled(fs0, fs, f) && fs.Lstat(h(f.hashed)) == fs0.Lstat(h(f.hashed))
      requires Solo(h, fs0, PutPrepare, sofar) == (fs, PutPublish(Inspecting, f))
      requires Truthful(h, fs0, e, sofar) && e.fails == fails
      modifies this`fs
      ensures Truthful(h, fs0, e, choices) && Fed(choices) == Fed(sofar)
      ensures Valid() && fs.inodes == old(fs).inodes
      ensures PublishPromise(h, fs0, fs, f.hashed, fails, f.name, r)
      ensures Solo(h, fs0, PutPrepare, choices) == (fs, end)
      ensures r.Success? ==> end == PutDone(f.hashed, r.value)
      ensures !r.Success? ==> end.PutFailed?
    {
      var d := h(f.hashed);
      PublishRun(h, fs0, sofar, fs, f);
      ToldOnce(h, fs0, e, sofar, PutPublish(Inspecting, f), Answered(Publishing(Inspecting) in fails));
      choices := sofar + [Answered(Publishing(Inspecting) in fails)];
      if Publishing(Inspecting) in fails {
        return OsError, choices, PutFailed(PublishFailed(f));
      }
      var existing := fs.Lstat(d);
      if existing.Some? && existing.value.kind != Regular {
        return CorruptStorageTree, choices, PutFailed(CorruptTree(f));
      }
      if existing.None? {
        r, choices, end := PublishNew(f, fails, e, fs0, choices);
      } else {
        r, choices, end := DropOwn(f, fails, e, fs0, choices);
      }
    }

    /** `put`, as PutPromise says. Bytes never change under an inode, and the machine takes the same steps. */
    method Put(content: seq<Bytes>, raises: bool, fails: set<SysCall>, drawn: nat)
        returns (r: Outcome<StoredBlob>, ghost choices: seq<Choice>, ghost end: Pc)
      requires Valid() && drawn !in fs.scratch
      modifies this
      ensures Valid() && old(fs).inodes <= fs.inodes
      ensures PutPromise(h, old(fs), fs, Flatten(content), raises, fails, drawn, r)
      ensures spooled == if SpoolFails(raises, fails) then old(spooled) else old(spooled) + {Flatten(content)}
      ensures Solo(h, old(fs), PutPrepare, choices) == (fs, end)
      ensures Truthful(h, old(fs), Env(raises, fails, drawn), choices)
      ensures fails !! {Prepare, Draw, Spooling(Opening)} ==> Fed(choices) == content
      ensures if r.Success? then end == PutDone(Flatten(content), r.value) else end.PutFailed?
    {
      ghost var fs0 := fs;
      var spool;
      spool, choices, end := Spool(content, raises, fails, drawn);
      if !spool.Success? {
        LeftBehindOk(h, fs0, fs, spooled, Litters(fails), drawn);
        return if spool.SourceRaised? then SourceRaised else OsError, choices, end;
      }
      SpoolSettled(h, fs0, fs, spooled, spool.value);
      spooled := spooled + {Flatten(content)};
      r, choices, end := Publish(spool.value, fails, Env(raises, fails, drawn), fs0, choices);
    }

    /** `get`, up to the open: the inode a stream will read from, or absence, or an error that is neither. */
    method Open(key: string, fails: bool) returns (r: Outcome<nat>)
      ensures r.Success? <==> NamesBlob(fs, key) && !fails
      ensures r.Success? ==> fs.blobs[Resolve(key).value] == r.value
      ensures r.OsError? <==> Resolve(key).Some? && fails
      ensures var (fs', pc) := Solo(h, fs, Start(Get(key)), [Answered(fails)]);
              fs' == fs && OpenEnds(Resolve(key), pc, r)
    {
      SoloOne(h, fs, Start(Get(key)), Answered(fails));
      var path := Resolve(key);
      if path.None? { return BlobNotFound; }
      if fails { return OsError; }
      var handle := fs.OpenStoredBlob(path.value);
      match handle
      case Opened(ino) => r := Success(ino);
      case OpenFailed(e) => r := if IsAbsentBlob(e) then BlobNotFound else OsError;
    }

    /**
     * `_stream_handle`: the content of an open file in full chunks, all of it unless the stream stops: after
     * `stop` chunks, if so many come, the next read fails or the consumer closes the stream.
     */
    method StreamHandle(ghost d: Digest, ino: nat, stop: Option<nat>, fails: bool)
        returns (out: seq<Bytes>, whole: bool, ghost choices: seq<Choice>)
      ensures FullChunks(out, 1024 * 1024) && Flatten(out) <= fs.Node(ino).data
      ensures whole <==> stop.None? || |out| < stop.value
      ensures if whole then Flatten(out) == fs.Node(ino).data else |out| == stop.value
      ensures choices == Oks(|out|) + [if whole then Ok else if fails then Fail else Drop]
      ensures Solo(h, fs, GetRead(d, None, ino, 0, []), choices)
           == (fs, if whole then GetDone(d, None, out) else GetDropped(d, None, ino, |Flatten(out)|, out))
    {
      var data := fs.Node(ino).data;
      var cursor: nat := 0;
      out, choices := [], [];
      StreamStarts(h, fs, d, ino);
      while stop.None? || |out| < stop.value
        invariant Streaming(h, fs, d, ino, choices, cursor, out)
        invariant stop.Some? ==> |out| <= stop.value
        invariant choices == Oks(|out|)
        decreases |data| - cursor
      {
        var chunk := ReadChunk(data, cursor);
        if chunk == [] {
          StreamEnds(h, fs, d, ino, choices, cursor, out);
          return out, true, choices + [Ok];
        }
        ReadChunkAdvances(data, cursor);
        StreamGoesOn(h, fs, d, ino, choices, cursor, out);
        choices := choices + [Ok];
        out := out + [chunk];
        cursor := cursor + |chunk|;
      }
      ghost var last := if fails then Fail else Drop;
      StreamStops(h, fs, d, ino, choices, cursor, out, last);
      return out, false, choices + [last];
    }

    /** `exists`: a bool under every condition, false when the lstat itself fails. */
    method Exists(key: string, fails: bool) returns (answer: bool)
      ensures answer <==> NamesBlob(fs, key) && !fails
      ensures var (fs', pc) := Solo(h, fs, Start(BlobMachine.Exists(key)), [Answered(fails)]);
              fs' == fs && (pc == ExistsDone(Resolve(key), answer) || (fails && pc.ExistsBlind?))
    {
      SoloOne(h, fs, Start(BlobMachine.Exists(key)), Answered(fails));
      var path := Resolve(key);
      answer := path.Some? && !fails && IsStoredBlob(fs, path.value);
    }

    method Size(key: string, fails: bool) returns (r: Outcome<nat>)
      ensures r.Success? <==> NamesBlob(fs, key) && !fails
      ensures r.Success? ==> r.value == |Contents(fs)[Resolve(key).value]|
      ensures r.OsError? <==> Resolve(key).Some? && fails
      ensures var (fs', pc) := Solo(h, fs, Start(BlobMachine.Size(key)), [Answered(fails)]);
              fs' == fs && SizeEnds(Resolve(key), pc, r)
    {
      SoloOne(h, fs, Start(BlobMachine.Size(key)), Answered(fails));
      var path := Resolve(key);
      if path.None? { return BlobNotFound; }
      if fails { return OsError; }
      var entry := fs.Lstat(path.value);
      if entry.None? || entry.value.kind != Regular { return BlobNotFound; }
      r := Success(entry.value.size);
    }

    /** `delete`: removes whatever non-directory is at the key's path, following no link. */
    method Delete(key: string, fails: bool) returns (r: Outcome<()>)
      requires Valid()
      modifies this`fs
      ensures Valid()
      ensures r.BlobNotFound? <==> Resolve(key).None? || (Resolve(key).value !in old(fs).blobs && !fails)
      ensures r.Success? <==> Resolve(key).Some? && old(fs).CanUnlink(Resolve(key).value) && !fails
      ensures fs == if r.Success? then old(fs).UnlinkBlob(Resolve(key).value) else old(fs)
      ensures var (fs', pc) := Solo(h, old(fs), Start(BlobMachine.Delete(key)), [Answered(fails)]);
              fs' == fs && DeleteEnds(Resolve(key), pc, r)
    {
      SoloOne(h, fs, Start(BlobMachine.Delete(key)), Answered(fails));
      var path := Resolve(key);
      if path.None? { return BlobNotFound; }
      if fails { return OsError; }
      if path.value !in fs.blobs { return BlobNotFound; }
      if !fs.CanUnlink(path.value) { return OsError; }
      UnlinkKeeps(h, fs, spooled, path.value);
      fs := fs.UnlinkBlob(path.value);
      r := Success(());
    }
  }
}
