/**
 * The concurrent store refines an atomic map from digest to content. A put takes effect at its rename, or at
 * its lstat when the blob is already there; a delete at its unlink; a get at its open; exists and size at
 * their lstat. The refinement holds digest by digest: for every set of digests at which nothing foreign is
 * planted and no two spooled contents collide, whatever happens at the others.
 */
module BlobLinearizability {
  import opened Prelude
  import opened KeyLayout
  import opened FileSystem
  import opened BlobMachine
  import opened BlobInvariant
  import opened BlobSafety

  // ---------- the atomic store ----------

  type Store = map<Digest, Bytes>

  /** One operation of the atomic store: the store afterwards, and the answer. */
  ghost function Atomic(h: Hash, m: Store, op: Op): (Store, Res) {
    match op
    case OpPut(content) => (m[h(content) := content], RStored(|content|))
    case OpGet(t) => (m, if t.Some? && t.value in m then RFound(m[t.value]) else RNotFound)
    case OpExists(t) => (m, RBool(t.Some? && t.value in m))
    case OpSize(t) => (m, if t.Some? && t.value in m then RSize(|m[t.value]|) else RNotFound)
    case OpDelete(t) => if t.Some? && t.value in m then (m - {t.value}, RDeleted) else (m, RNotFound)
  }

  datatype Event = Event(pid: Pid, commit: Commit)

  /** Running the events one after another on the atomic store gives every answer they record, and ends at m'. */
  ghost predicate Sequential(h: Hash, m: Store, events: seq<Event>, m': Store)
    decreases |events|
  {
    if events == [] then m' == m
    else
      var k := |events| - 1;
      exists mid :: Sequential(h, m, events[..k], mid)
        && Atomic(h, mid, events[k].commit.op) == (m', events[k].commit.res)
  }

  // ---------- what each call has committed to ----------

  /** The size lookup a remove or a retrieve has logged. */
  function Looked(d: Digest, logged: Option<nat>): seq<Commit> {
    match logged
    case None => []
    case Some(size) => [Commit(OpSize(Some(d)), RSize(size))]
  }

  /** The operations a call has performed so far, with the answers its caller gets or will get. */
  function Promised(h: Hash, fs: FS, pc: Pc): seq<Commit> {
    match pc
    case PutDiscard(f, seen) => [Commit(OpPut(f.hashed), RStored(seen.size))]
    case PutDone(content, blob) => [Commit(OpPut(content), RStored(blob.size))]
    case PutFailed(why) =>
      if why.DiscardFailed? then [Commit(OpPut(why.left.hashed), RStored(why.seen.size))] else []
    case GetOpen(d, logged) => Looked(d, logged)
    case GetRead(d, logged, ino, _, _) => Looked(d, logged) + [Commit(OpGet(Some(d)), RFound(fs.Node(ino).data))]
    case GetDropped(d, logged, ino, _, _) => Looked(d, logged) + [Commit(OpGet(Some(d)), RFound(fs.Node(ino).data))]
    case GetDone(d, logged, out) => Looked(d, logged) + [Commit(OpGet(Some(d)), RFound(Flatten(out)))]
    case GetMissed(d, logged) => Looked(d, logged) + [Commit(OpGet(Some(d)), RNotFound)]
    case ExistsDone(t, answer) => [Commit(OpExists(t), RBool(answer))]
    case SizeDone(d, size) => [Commit(OpSize(Some(d)), RSize(size))]
    case DeleteDone(d) => [Commit(OpDelete(Some(d)), RDeleted)]
    case RemoveUnlink(d, size) => Looked(d, Some(size))
    case RemoveDone(d, size) => Looked(d, Some(size)) + [Commit(OpDelete(Some(d)), RDeleted)]
    case RemoveMissed(d, size) => Looked(d, Some(size)) + [Commit(OpDelete(Some(d)), RNotFound)]
    case Missing(op) => [Commit(op, RNotFound)]
    case Errored(before) => before
    case _ => []
  }

  function PromisedBy(h: Hash, s: State, pid: Pid): seq<Commit> {
    if pid in s.procs then Promised(h, s.fs, s.procs[pid]) else []
  }

  function Stamp(pid: Pid, commits: seq<Commit>): seq<Event> {
    if commits == [] then []
    else Stamp(pid, commits[..|commits| - 1]) + [Event(pid, commits[|commits| - 1])]
  }

  /** The commits an action adds: what the acting call promises after it and did not promise before. */
  function Emitted(h: Hash, s: State, a: Action): seq<Event> {
    if a.PlantAt? || a.Tick? then []
    else
      var was, now := PromisedBy(h, s, a.pid), PromisedBy(h, Apply(h, s, a), a.pid);
      if |was| <= |now| then Stamp(a.pid, now[|was|..]) else []
  }

  /** The linearization: every commit of a run, in the order the commits happened. */
  function History(h: Hash, actions: seq<Action>): seq<Event> {
    if actions == [] then []
    else
      var k := |actions| - 1;
      History(h, actions[..k]) + Emitted(h, Run(h, actions[..k]), actions[k])
  }

  /** One call's events in a history. */
  function Project(events: seq<Event>, pid: Pid): seq<Commit> {
    if events == [] then []
    else
      var k := |events| - 1;
      Project(events[..k], pid) + if events[k].pid == pid then [events[k].commit] else []
  }

  // ---------- hypotheses ----------

  ghost predicate NotPlantedAt(actions: seq<Action>, d: Digest) {
    forall i :: 0 <= i < |actions| ==> !(actions[i].PlantAt? && actions[i].d == d)
  }

  /** No two of these contents hash to d. */
  ghost predicate NoCollisionAt(h: Hash, contents: set<Bytes>, d: Digest) {
    forall b, c :: b in contents && c in contents && h(b) == d && h(c) == d ==> b == c
  }

  /** Whatever is at d is a regular file. */
  predicate RegularAt(fs: FS, d: Digest) {
    d in fs.blobs ==> fs.Node(fs.blobs[d]).kind == Regular
  }

  /** The digest an operation is about; a malformed key is about none. */
  function Target(h: Hash, op: Op): Option<Digest> {
    match op
    case OpPut(content) => Some(h(content))
    case OpGet(t) => t
    case OpExists(t) => t
    case OpSize(t) => t
    case OpDelete(t) => t
  }

  /** The digests a statement is about. */
  type Digests = Digest -> bool

  predicate Concerns(h: Hash, ds: Digests, op: Op) {
    Target(h, op).Some? ==> ds(Target(h, op).value)
  }

  /** The events about these digests, in order. */
  function Concerning(h: Hash, ds: Digests, events: seq<Event>): seq<Event> {
    if events == [] then []
    else
      var k := |events| - 1;
      Concerning(h, ds, events[..k]) + if Concerns(h, ds, events[k].commit.op) then [events[k]] else []
  }

  ghost function Restricted(m: Store, ds: Digests): Store {
    map d | d in m && ds(d) :: m[d]
  }

  // ---------- one step ----------

  /** Other calls' promises do not move. */
  lemma PromiseFramed(h: Hash, s: State, pid: Pid, c: Choice, other: Pid)
    requires Inv(h, s) && pid in s.procs && other in s.procs && other != pid
    ensures PromisedBy(h, Apply(h, s, Do(pid, c)), other) == PromisedBy(h, s, other)
  {
    LocalOk(h, s.fs, s.spooled, s.procs[pid], c);
    assert Separate(s.procs[pid], s.procs[other]);
    assert ProcOk(h, s.fs, s.spooled, s.procs[other]);
  }

  lemma PutPromiseGrows(h: Hash, fs: FS, pc: Pc, c: Choice)
    requires IsPutting(pc)
    ensures var (fs', pc') := PutStep(h, fs, pc, c);
            Promised(h, fs, pc) <= Promised(h, fs', pc')
  {
  }

  /** Reading on, stopping or reaching the end leaves the promised content what it was at the open. */
  lemma StreamPromiseStable(h: Hash, fs: FS, spooled: set<Bytes>, pc: Pc, c: Choice)
    requires pc.GetRead? && FsOk(h, fs, spooled) && ProcOk(h, fs, spooled, pc)
    ensures Promised(h, fs, ReadStep(fs, pc, c)) == Promised(h, fs, pc)
  {
    ReadChunkOk(h, fs, spooled, pc, c);
    assert fs.inodes[pc.ino].data[..|fs.inodes[pc.ino].data|] == fs.inodes[pc.ino].data;
  }

  lemma LookupPromiseGrows(h: Hash, fs: FS, pc: Pc, c: Choice)
    requires IsReading(pc) && !pc.GetRead?
    ensures Promised(h, fs, pc) <= Promised(h, fs, ReadStep(fs, pc, c))
  {
  }

  lemma UnlinkPromiseGrows(h: Hash, fs: FS, pc: Pc, c: Choice)
    requires IsUnlinking(pc)
    ensures var (fs', pc') := UnlinkStep(fs, pc, c);
            Promised(h, fs, pc) <= Promised(h, fs', pc')
  {
  }

  /** A call never goes back on a promise. */
  lemma PromiseGrows(h: Hash, s: State, a: Action)
    requires Inv(h, s) && !a.PlantAt? && !a.Tick?
    ensures PromisedBy(h, s, a.pid) <= PromisedBy(h, Apply(h, s, a), a.pid)
  {
    if a.Do? && a.pid in s.procs {
      var pc := s.procs[a.pid];
      assert ProcOk(h, s.fs, s.spooled, pc);
      if IsPutting(pc) {
        PutPromiseGrows(h, s.fs, pc, a.choice);
      } else if pc.GetRead? {
        StreamPromiseStable(h, s.fs, s.spooled, pc, a.choice);
      } else if IsReading(pc) {
        LookupPromiseGrows(h, s.fs, pc, a.choice);
      } else if IsUnlinking(pc) {
        UnlinkPromiseGrows(h, s.fs, pc, a.choice);
      }
    }
  }

  /** Blob entries move only at a rename and at an unlink. */
  lemma BlobsMove(h: Hash, fs: FS, pc: Pc, c: Choice)
    ensures var (fs', pc') := Local(h, fs, pc, c);
            || fs'.blobs == fs.blobs
            || (pc.PutRename? && pc.f.name in fs.scratch
                && fs'.blobs == fs.blobs[h(pc.f.hashed) := fs.scratch[pc.f.name]])
            || (IsUnlinking(pc) && fs'.blobs == fs.blobs - {pc.d})
  {
  }

  /** No step of any call leaves something that is not a regular file where there was none. */
  lemma RegularAtStep(h: Hash, fs: FS, spooled: set<Bytes>, pc: Pc, c: Choice, d: Digest)
    requires FsOk(h, fs, spooled) && ProcOk(h, fs, spooled, pc) && RegularAt(fs, d)
    ensures RegularAt(Local(h, fs, pc, c).0, d)
  {
    var (fs', pc') := Local(h, fs, pc, c);
    LocalOk(h, fs, spooled, pc, c);
    BlobsMove(h, fs, pc, c);
    if d in fs'.blobs && d in fs.blobs && fs'.blobs[d] == fs.blobs[d] {
      assert Writes(pc) != Some(fs.blobs[d]);
      assert fs'.inodes[fs.blobs[d]] == fs.inodes[fs.blobs[d]];
    }
  }

  lemma RegularAtAction(h: Hash, s: State, a: Action, d: Digest)
    requires Inv(h, s) && RegularAt(s.fs, d) && !(a.PlantAt? && a.d == d)
    ensures RegularAt(Apply(h, s, a).fs, d)
  {
    if a.Do? && a.pid in s.procs {
      RegularAtStep(h, s.fs, s.spooled, s.procs[a.pid], a.choice, d);
    }
  }

  /** A scratch file can be appended to, created or removed without the blobs noticing. */
  lemma ContentsFramed(h: Hash, fs: FS, fs': FS, spooled: set<Bytes>, pc: Pc, pc': Pc)
    requires FsOk(h, fs, spooled) && ProcOk(h, fs, spooled, pc)
    requires Frame(fs, fs', pc, pc') && fs'.blobs == fs.blobs
    ensures Contents(fs') == Contents(fs)
  {
    forall d | d in fs.blobs
      ensures fs'.Node(fs.blobs[d]) == fs.Node(fs.blobs[d])
    {
    }
  }

  /**
   * A step with this commit does to the contents what the atomic store would, with the answer that store would
   * give, if its digest is a clear one; and in any case it touches the contents nowhere else.
   */
  ghost predicate Performs(h: Hash, fs: FS, spooled: set<Bytes>, fs': FS, c: Commit) {
    var (m, m', t) := (Contents(fs), Contents(fs'), Target(h, c.op));
    && (t.Some? ==> m' - {t.value} == m - {t.value})
    && ((t.Some? ==> RegularAt(fs, t.value) && NoCollisionAt(h, spooled, t.value)) ==> Atomic(h, m, c.op) == (m', c.res))
  }

  /** A step commits to at most one operation and performs it; without a commit the contents stand still. */
  ghost predicate Simulates(h: Hash, fs: FS, spooled: set<Bytes>, fs': FS, was: seq<Commit>, now: seq<Commit>) {
    || (now == was && Contents(fs') == Contents(fs))
    || (|now| == |was| + 1 && was <= now && Performs(h, fs, spooled, fs', now[|was|]))
  }

  lemma RenameContents(fs: FS, f: Spool, d: Digest)
    requires OwnsScratch(fs, f) && fs.inodes[f.ino].kind == Regular && fs.inodes[f.ino].data == f.hashed
    requires fs.CanRename(f.name, d)
    ensures Contents(fs.Rename(f.name, d)) == Contents(fs)[d := f.hashed]
  {
  }

  lemma PutPerforms(h: Hash, fs: FS, spooled: set<Bytes>, fs': FS, content: Bytes)
    requires Contents(fs') == Contents(fs)[h(content) := content]
    ensures Performs(h, fs, spooled, fs', Commit(OpPut(content), RStored(|content|)))
  {
    assert Contents(fs') - {h(content)} == Contents(fs) - {h(content)};
  }

  lemma RenameSimulates(h: Hash, fs: FS, spooled: set<Bytes>, f: Spool, seen: Stat, c: Choice)
    requires FsOk(h, fs, spooled) && ProcOk(h, fs, spooled, PutRename(f, seen))
    ensures var (fs', pc') := PutStep(h, fs, PutRename(f, seen), c);
            Simulates(h, fs, spooled, fs', [], Promised(h, fs', pc'))
  {
    if !c.Fail? && fs.CanRename(f.name, h(f.hashed)) {
      RenameContents(fs, f, h(f.hashed));
      PutPerforms(h, fs, spooled, fs.Rename(f.name, h(f.hashed)), f.hashed);
    }
  }

  lemma InspectSimulates(h: Hash, fs: FS, spooled: set<Bytes>, f: Spool, c: Choice)
    requires FsOk(h, fs, spooled) && ProcOk(h, fs, spooled, PutPublish(Inspecting, f))
    ensures var (fs', pc') := Local(h, fs, PutPublish(Inspecting, f), c);
            Simulates(h, fs, spooled, fs', [], Promised(h, fs', pc'))
  {
    var d := h(f.hashed);
    var (fs', pc') := Local(h, fs, PutPublish(Inspecting, f), c);
    if pc'.PutDiscard? && NoCollisionAt(h, spooled, d) {
      assert Whole(h, fs, spooled, d, fs.blobs[d]);
      assert Contents(fs)[d] == f.hashed;
      assert Contents(fs') == Contents(fs)[d := f.hashed];
    }
  }

  lemma UnlinkContents(fs: FS, d: Digest)
    ensures Contents(fs.UnlinkBlob(d)) == Contents(fs) - {d}
    ensures RegularAt(fs, d) ==> (d in Contents(fs) <==> d in fs.blobs)
  {
  }

  lemma DeleteSimulates(h: Hash, fs: FS, spooled: set<Bytes>, d: Digest, c: Choice)
    ensures var (fs', pc') := UnlinkStep(fs, DeleteUnlink(d), c);
            Simulates(h, fs, spooled, fs', [], Promised(h, fs', pc'))
  {
    UnlinkContents(fs, d);
  }

  lemma RemoveSimulates(h: Hash, fs: FS, spooled: set<Bytes>, d: Digest, size: nat, c: Choice)
    ensures var (fs', pc') := UnlinkStep(fs, RemoveUnlink(d, size), c);
            Simulates(h, fs, spooled, fs', Prefix(d, Some(size)), Promised(h, fs', pc'))
  {
    UnlinkContents(fs, d);
  }

  lemma OpenSimulates(h: Hash, fs: FS, spooled: set<Bytes>, pc: Pc, c: Choice)
    requires pc.GetOpen?
    ensures Simulates(h, fs, spooled, fs, Promised(h, fs, pc), Promised(h, fs, ReadStep(fs, pc, c)))
  {
  }

  lemma StatSimulates(h: Hash, fs: FS, spooled: set<Bytes>, pc: Pc, c: Choice)
    requires pc.RetrieveSize? || pc.ExistsLstat? || pc.SizeLstat? || pc.RemoveSize?
    ensures Simulates(h, fs, spooled, fs, Promised(h, fs, pc), Promised(h, fs, ReadStep(fs, pc, c)))
  {
  }

  /** The put steps that promise nothing new. */
  lemma QuietPutStep(h: Hash, fs: FS, pc: Pc, c: Choice)
    requires IsPutting(pc) && !pc.PutRename? && !(pc.PutPublish? && pc.at.Inspecting?)
    ensures var (fs', pc') := PutStep(h, fs, pc, c);
            fs'.blobs == fs.blobs && Promised(h, fs', pc') == Promised(h, fs, pc)
  {
  }

  lemma LocalSimulates(h: Hash, fs: FS, spooled: set<Bytes>, pc: Pc, c: Choice)
    requires FsOk(h, fs, spooled) && ProcOk(h, fs, spooled, pc)
    ensures var (fs', pc') := Local(h, fs, pc, c);
            Simulates(h, fs, spooled, fs', Promised(h, fs, pc), Promised(h, fs', pc'))
  {
    if pc.PutRename? {
      RenameSimulates(h, fs, spooled, pc.f, pc.seen, c);
    } else if pc.PutPublish? && pc.at.Inspecting? {
      InspectSimulates(h, fs, spooled, pc.f, c);
    } else if IsPutting(pc) {
      var (fs', pc') := PutStep(h, fs, pc, c);
      QuietPutStep(h, fs, pc, c);
      LocalOk(h, fs, spooled, pc, c);
      ContentsFramed(h, fs, fs', spooled, pc, pc');
    } else if pc.DeleteUnlink? {
      DeleteSimulates(h, fs, spooled, pc.d, c);
    } else if pc.RemoveUnlink? {
      RemoveSimulates(h, fs, spooled, pc.d, pc.size, c);
    } else if pc.GetOpen? {
      OpenSimulates(h, fs, spooled, pc, c);
    } else if pc.GetRead? {
      StreamPromiseStable(h, fs, spooled, pc, c);
    } else if IsReading(pc) {
      StatSimulates(h, fs, spooled, pc, c);
    }
  }

  lemma StartSimulates(h: Hash, fs: FS, spooled: set<Bytes>, call: Call)
    ensures Simulates(h, fs, spooled, fs, [], Promised(h, fs, Start(call)))
  {
  }

  /** One action of a call: it commits to at most one operation, and performs it. */
  lemma StepSimulates(h: Hash, s: State, a: Action)
    requires Inv(h, s) && !a.PlantAt?
    ensures var s', e := Apply(h, s, a), Emitted(h, s, a);
            || (e == [] && Contents(s'.fs) == Contents(s.fs))
            || (|e| == 1 && Performs(h, s.fs, s.spooled, s'.fs, e[0].commit))
  {
    if !a.Tick? {
      var was, now := PromisedBy(h, s, a.pid), PromisedBy(h, Apply(h, s, a), a.pid);
      if a.Do? && a.pid in s.procs {
        LocalSimulates(h, s.fs, s.spooled, s.procs[a.pid], a.choice);
      } else if a.Begin? {
        StartSimulates(h, s.fs, s.spooled, a.call);
      }
      assert Simulates(h, s.fs, s.spooled, Apply(h, s, a).fs, was, now);
      if |now| == |was| + 1 {
        assert now[|was|..] == [now[|was|]];
        assert Stamp(a.pid, [now[|was|]]) == [Event(a.pid, now[|was|])];
      } else {
        assert now[|was|..] == [];
      }
    }
  }

  /** These digests are clear: no foreign entry at any of them, and no two contents spooled that collide there. */
  ghost predicate Clear(h: Hash, s: State, ds: Digests) {
    forall d :: ds(d) ==> RegularAt(s.fs, d) && NoCollisionAt(h, s.spooled, d)
  }

  /** What an operation of the atomic store does to the part of it with these digests. */
  lemma AtomicRestricted(h: Hash, m: Store, op: Op, ds: Digests)
    requires Concerns(h, ds, op)
    ensures Atomic(h, Restricted(m, ds), op) == (Restricted(Atomic(h, m, op).0, ds), Atomic(h, m, op).1)
  {
    var (m', r) := Atomic(h, m, op);
    match op
    case OpPut(content) => assert Restricted(m', ds) == Restricted(m, ds)[h(content) := content];
    case OpDelete(t) => if t.Some? { assert Restricted(m', ds) == Restricted(m, ds) - {t.value}; }
    case _ =>
  }

  lemma UntouchedRestricted(m: Store, m': Store, d: Digest, ds: Digests)
    requires m' - {d} == m - {d} && !ds(d)
    ensures Restricted(m', ds) == Restricted(m, ds)
  {
    forall e | e != d
      ensures e in m <==> e in m'
      ensures e in m ==> m[e] == m'[e]
    {
      assert e in m <==> e in m - {d};
      assert e in m' <==> e in m' - {d};
      assert e in m ==> (m - {d})[e] == m[e];
      assert e in m' ==> (m' - {d})[e] == m'[e];
    }
  }

  /** A commit, seen from the part of the atomic store with these digests. */
  lemma PerformsRestricted(h: Hash, s: State, fs': FS, c: Commit, ds: Digests)
    requires Clear(h, s, ds) && Performs(h, s.fs, s.spooled, fs', c)
    ensures var m, m' := Restricted(Contents(s.fs), ds), Restricted(Contents(fs'), ds);
            if Concerns(h, ds, c.op) then Atomic(h, m, c.op) == (m', c.res) else m' == m
  {
    if Concerns(h, ds, c.op) {
      AtomicRestricted(h, Contents(s.fs), c.op, ds);
    } else {
      UntouchedRestricted(Contents(s.fs), Contents(fs'), Target(h, c.op).value, ds);
    }
  }

  lemma PlantRestricted(fs: FS, d: Digest, kind: Foreign, ds: Digests)
    requires !ds(d) && forall e :: e in fs.blobs ==> fs.blobs[e] < |fs.inodes|
    ensures Restricted(Contents(fs.Plant(d, kind)), ds) == Restricted(Contents(fs), ds)
  {
  }

  lemma ConcerningOne(h: Hash, ds: Digests, e: Event)
    ensures Concerning(h, ds, [e]) == if Concerns(h, ds, e.commit.op) then [e] else []
  {
    assert [e][..0] == [];
  }

  /** These events are none and leave the store alone, or one that takes it from m to m'. */
  ghost predicate Moves(h: Hash, m: Store, events: seq<Event>, m': Store) {
    || (events == [] && m' == m)
    || (|events| == 1 && Atomic(h, m, events[0].commit.op) == (m', events[0].commit.res))
  }

  lemma EventRestricted(h: Hash, s: State, fs': FS, e: Event, ds: Digests)
    requires Clear(h, s, ds) && Performs(h, s.fs, s.spooled, fs', e.commit)
    ensures Moves(h, Restricted(Contents(s.fs), ds), Concerning(h, ds, [e]), Restricted(Contents(fs'), ds))
  {
    ConcerningOne(h, ds, e);
    PerformsRestricted(h, s, fs', e.commit, ds);
  }

  /** One action, seen from the part of the atomic store with these digests: at most one operation, performed there. */
  lemma StepRestricted(h: Hash, s: State, a: Action, ds: Digests)
    requires Inv(h, s) && Clear(h, s, ds) && (a.PlantAt? ==> !ds(a.d))
    ensures Moves(h, Restricted(Contents(s.fs), ds), Concerning(h, ds, Emitted(h, s, a)),
                  Restricted(Contents(Apply(h, s, a).fs), ds))
  {
    var e := Emitted(h, s, a);
    if a.PlantAt? {
      PlantRestricted(s.fs, a.d, a.kind, ds);
    } else {
      StepSimulates(h, s, a);
      if e != [] {
        assert e == [e[0]];
        EventRestricted(h, s, Apply(h, s, a).fs, e[0], ds);
      }
    }
  }

  // ---------- the whole run ----------

  lemma {:induction false} RunRegularAt(h: Hash, actions: seq<Action>, d: Digest)
    requires NotPlantedAt(actions, d)
    ensures RegularAt(Run(h, actions).fs, d)
  {
    if actions != [] {
      var k := |actions| - 1;
      RunRegularAt(h, actions[..k], d);
      RunInv(h, actions[..k]);
      RegularAtAction(h, Run(h, actions[..k]), actions[k], d);
    }
  }

  lemma SequentialSnoc(h: Hash, m: Store, events: seq<Event>, mid: Store, more: seq<Event>, m': Store)
    requires Sequential(h, m, events, mid)
    requires Moves(h, mid, more, m')
    ensures Sequential(h, m, events + more, m')
  {
    if more == [] {
      assert events + more == events;
    } else {
      var all := events + more;
      assert all[..|all| - 1] == events && all[|all| - 1] == more[0];
    }
  }

  lemma ConcerningAppends(h: Hash, ds: Digests, events: seq<Event>, more: seq<Event>)
    requires |more| <= 1
    ensures Concerning(h, ds, events + more) == Concerning(h, ds, events) + Concerning(h, ds, more)
  {
    if more == [] {
      assert events + more == events;
    } else {
      assert more == [more[0]] && (events + more)[..|events|] == events;
      ConcerningOne(h, ds, more[0]);
    }
  }

  lemma EmitsAtMostOne(h: Hash, s: State, a: Action)
    requires Inv(h, s)
    ensures |Emitted(h, s, a)| <= 1
  {
    if !a.PlantAt? {
      StepSimulates(h, s, a);
    }
  }

  /** These digests stay clear over the run: nothing is planted at any, and no contents spooled collide there. */
  ghost predicate ClearRun(h: Hash, actions: seq<Action>, ds: Digests) {
    forall d :: ds(d) ==> NotPlantedAt(actions, d) && NoCollisionAt(h, Run(h, actions).spooled, d)
  }

  lemma ClearPrefix(h: Hash, actions: seq<Action>, ds: Digests)
    requires ClearRun(h, actions, ds) && actions != []
    ensures ClearRun(h, actions[..|actions| - 1], ds) && Clear(h, Run(h, actions[..|actions| - 1]), ds)
  {
    var sofar := actions[..|actions| - 1];
    assert Run(h, sofar).spooled <= Run(h, actions).spooled;
    forall d | ds(d)
      ensures NotPlantedAt(sofar, d) && NoCollisionAt(h, Run(h, sofar).spooled, d) && RegularAt(Run(h, sofar).fs, d)
    {
      assert NotPlantedAt(actions, d) && NoCollisionAt(h, Run(h, actions).spooled, d);
      RunRegularAt(h, sofar, d);
    }
  }

  /**
   * Linearizability, first half: for any clear set of digests, the events about them, in the order they
   * happened, are a legal sequential run of the atomic map, from the empty store to exactly the contents the
   * filesystem holds at those digests.
   */
  lemma {:induction false} HistoryIsSequential(h: Hash, actions: seq<Action>, ds: Digests)
    requires ClearRun(h, actions, ds)
    ensures Sequential(h, map[], Concerning(h, ds, History(h, actions)), Restricted(Contents(Run(h, actions).fs), ds))
  {
    if actions == [] {
      assert Restricted(Contents(EmptyFS), ds) == map[];
    } else {
      var k := |actions| - 1;
      var s, a := Run(h, actions[..k]), actions[k];
      ClearPrefix(h, actions, ds);
      HistoryIsSequential(h, actions[..k], ds);
      RunInv(h, actions[..k]);
      StepRestricted(h, s, a, ds);
      EmitsAtMostOne(h, s, a);
      ConcerningAppends(h, ds, History(h, actions[..k]), Emitted(h, s, a));
      SequentialSnoc(h, map[], Concerning(h, ds, History(h, actions[..k])), Restricted(Contents(s.fs), ds),
                     Concerning(h, ds, Emitted(h, s, a)), Restricted(Contents(Run(h, actions).fs), ds));
    }
  }

  lemma ProjectSnoc(events: seq<Event>, e: Event, pid: Pid)
    ensures Project(events + [e], pid) == Project(events, pid) + if e.pid == pid then [e.commit] else []
  {
    assert (events + [e])[..|events|] == events;
  }

  lemma {:induction false} ProjectStamped(events: seq<Event>, who: Pid, commits: seq<Commit>, pid: Pid)
    ensures Project(events + Stamp(who, commits), pid) == Project(events, pid) + if who == pid then commits else []
    decreases |commits|
  {
    if commits == [] {
      assert events + Stamp(who, commits) == events;
    } else {
      var k := |commits| - 1;
      ProjectStamped(events, who, commits[..k], pid);
      var before, last := events + Stamp(who, commits[..k]), Event(who, commits[k]);
      ProjectSnoc(before, last, pid);
      assert events + Stamp(who, commits) == before + [last];
      assert commits == commits[..k] + [commits[k]];
    }
  }

  lemma PromiseFramedByOthers(h: Hash, s: State, a: Action, pid: Pid)
    requires Inv(h, s)
    requires a.PlantAt? || a.Tick? || a.pid != pid
    ensures PromisedBy(h, Apply(h, s, a), pid) == PromisedBy(h, s, pid)
  {
    if pid in s.procs {
      assert ProcOk(h, s.fs, s.spooled, s.procs[pid]);
      if a.Do? && a.pid in s.procs {
        PromiseFramed(h, s, a.pid, a.choice, pid);
      }
    }
  }

  lemma EmittedShape(h: Hash, s: State, a: Action)
    requires Inv(h, s) && !a.PlantAt? && !a.Tick?
    ensures var was, now := PromisedBy(h, s, a.pid), PromisedBy(h, Apply(h, s, a), a.pid);
            was <= now && Emitted(h, s, a) == Stamp(a.pid, now[|was|..])
  {
    PromiseGrows(h, s, a);
  }

  lemma ProjectAfter(events: seq<Event>, who: Pid, was: seq<Commit>, now: seq<Commit>, pid: Pid)
    requires was <= now
    requires who == pid ==> Project(events, pid) == was
    ensures Project(events + Stamp(who, now[|was|..]), pid) == if who == pid then now else Project(events, pid)
  {
    ProjectStamped(events, who, now[|was|..], pid);
    assert now == was + now[|was|..];
  }

  /**
   * Linearizability, second half: each call appears in the history exactly through what it committed to,
   * with the answers its caller gets; a call that has not reached its linearization point does not appear.
   * Holds in every run, planted entries and collisions included.
   */
  lemma {:induction false} HistoryMatchesCalls(h: Hash, actions: seq<Action>, pid: Pid)
    ensures Project(History(h, actions), pid) == PromisedBy(h, Run(h, actions), pid)
  {
    if actions != [] {
      var k := |actions| - 1;
      var s, a := Run(h, actions[..k]), actions[k];
      HistoryMatchesCalls(h, actions[..k], pid);
      RunInv(h, actions[..k]);
      if a.PlantAt? || a.Tick? {
        assert History(h, actions) == History(h, actions[..k]);
        PromiseFramedByOthers(h, s, a, pid);
      } else {
        EmittedShape(h, s, a);
        ProjectAfter(History(h, actions[..k]), a.pid, PromisedBy(h, s, a.pid), PromisedBy(h, Apply(h, s, a), a.pid), pid);
        if a.pid != pid {
          PromiseFramedByOthers(h, s, a, pid);
        }
      }
    }
  }

  lemma {:induction false} HistoryExtends(h: Hash, before: seq<Action>, after: seq<Action>)
    ensures History(h, before) <= History(h, before + after)
    decreases |after|
  {
    if after == [] {
      assert before + after == before;
    } else {
      var k := |after| - 1;
      HistoryExtends(h, before, after[..k]);
      assert (before + after)[..|before + after| - 1] == before + after[..k];
    }
  }

  lemma {:induction false} ProjectEmpty(events: seq<Event>, pid: Pid, i: nat)
    requires Project(events, pid) == [] && i < |events|
    ensures events[i].pid != pid
  {
    if i < |events| - 1 {
      ProjectEmpty(events[..|events| - 1], pid, i);
    }
  }

  /**
   * Real-time order: if call p had taken effect before call q was even issued, every event of q comes after
   * every event p had then. With the two halves above this is linearizability.
   */
  lemma RealTimeOrder(h: Hash, before: seq<Action>, after: seq<Action>, q: Pid, i: nat)
    requires q !in Run(h, before).procs
    requires i < |History(h, before + after)| && History(h, before + after)[i].pid == q
    ensures History(h, before) <= History(h, before + after) && |History(h, before)| <= i
  {
    HistoryExtends(h, before, after);
    if i < |History(h, before)| {
      HistoryMatchesCalls(h, before, q);
      ProjectEmpty(History(h, before), q, i);
    }
  }

  /**
   * Linearizability, whole. For any digests at which nothing is planted and no two spooled contents collide,
   * whatever happens at the others: the events about them are a legal sequential run of the atomic map, every
   * call has exactly the events it was answered by, and the history respects real time at every moment k.
   */
  lemma Linearizable(h: Hash, actions: seq<Action>, ds: Digests, k: nat)
    requires ClearRun(h, actions, ds) && k <= |actions|
    ensures var all, earlier := History(h, actions), History(h, actions[..k]);
            && Sequential(h, map[], Concerning(h, ds, all), Restricted(Contents(Run(h, actions).fs), ds))
            && (forall pid :: Project(all, pid) == PromisedBy(h, Run(h, actions), pid))
            && earlier <= all
            && (forall i :: 0 <= i < |all| && all[i].pid !in Run(h, actions[..k]).procs ==> |earlier| <= i)
  {
    HistoryIsSequential(h, actions, ds);
    forall pid
      ensures Project(History(h, actions), pid) == PromisedBy(h, Run(h, actions), pid)
    {
      HistoryMatchesCalls(h, actions, pid);
    }
    assert actions == actions[..k] + actions[k..];
    HistoryExtends(h, actions[..k], actions[k..]);
    forall i | 0 <= i < |History(h, actions)| && History(h, actions)[i].pid !in Run(h, actions[..k]).procs
      ensures |History(h, actions[..k])| <= i
    {
      RealTimeOrder(h, actions[..k], actions[k..], History(h, actions)[i].pid, i);
    }
  }
}
