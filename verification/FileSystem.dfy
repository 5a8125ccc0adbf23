/**
 * The part of POSIX the blob store relies on: directory entries naming inodes, inodes outliving their names.
 * Entries are split into the blob tree, indexed by digest, and the scratch directory, indexed by the name
 * mkstemp drew; KeyLayout.RegionsApart is why the two never meet. Every function is one atomic system call.
 */
module FileSystem {
  import opened Prelude
  import opened KeyLayout

  datatype Kind = Regular | Directory | Symlink | Fifo

  /** What someone else may leave at a blob's path. */
  type Foreign = k: Kind | k != Regular witness Symlink

  datatype Inode = Inode(kind: Kind, data: Bytes, mtime: nat)

  datatype Stat = Stat(kind: Kind, size: nat, mtime: nat)

  /** How an open or a stat of a blob's path can fail. */
  datatype Errno = ENOENT | ENOTDIR | ELOOP | EMLINK | NotARegularFile | EACCES | EIO

  datatype OpenResult = Opened(ino: nat) | OpenFailed(errno: Errno)

  function StatOf(node: Inode): Stat {
    Stat(node.kind, |node.data|, node.mtime)
  }

  /** The failures of an open that mean "no blob here" rather than "the store is broken". */
  predicate IsAbsentBlob(e: Errno) {
    e in {ENOENT, ENOTDIR, NotARegularFile} || e in {ELOOP, EMLINK}
  }

  datatype FS = FS(blobs: map<Digest, nat>, scratch: map<nat, nat>, inodes: seq<Inode>, clock: nat)
  {
    /** The inode behind a number; a number never allocated reads as an empty fifo. */
    function Node(ino: nat): Inode {
      if ino < |inodes| then inodes[ino] else Inode(Fifo, [], 0)
    }

    function Lstat(d: Digest): Option<Stat> {
      if d in blobs then Some(StatOf(Node(blobs[d]))) else None
    }

    function LstatScratch(name: nat): Option<Stat> {
      if name in scratch then Some(StatOf(Node(scratch[name]))) else None
    }

    /** `_open_stored_blob`: O_NOFOLLOW refuses a symlink, fstat refuses anything else that is not a file. */
    function OpenStoredBlob(d: Digest): OpenResult {
      if d !in blobs then OpenFailed(ENOENT)
      else
        match Node(blobs[d]).kind
        case Symlink => OpenFailed(ELOOP)
        case Directory => OpenFailed(NotARegularFile)
        case Fifo => OpenFailed(NotARegularFile)
        case Regular => Opened(blobs[d])
    }

    function Mkstemp(name: nat): FS {
      this.(scratch := scratch[name := |inodes|], inodes := inodes + [Inode(Regular, [], clock)])
    }

    /** Writing no bytes is no write: it leaves the modification time alone. */
    function Append(ino: nat, bytes: Bytes): FS {
      if ino < |inodes| then
        var node := inodes[ino];
        var mtime := if bytes == [] then node.mtime else clock;
        this.(inodes := inodes[ino := node.(data := node.data + bytes, mtime := mtime)])
      else this
    }

    predicate CanRename(name: nat, d: Digest) {
      name in scratch && (d in blobs ==> Node(blobs[d]).kind != Directory)
    }

    /** Atomically replaces whatever non-directory is at the target. */
    function Rename(name: nat, d: Digest): FS
      requires CanRename(name, d)
    {
      this.(blobs := blobs[d := scratch[name]], scratch := scratch - {name})
    }

    function UnlinkScratch(name: nat): FS {
      this.(scratch := scratch - {name})
    }

    /** unlink never follows a symlink, and refuses a directory. */
    predicate CanUnlink(d: Digest) {
      d in blobs && Node(blobs[d]).kind != Directory
    }

    function UnlinkBlob(d: Digest): FS {
      this.(blobs := blobs - {d})
    }

    /** Another local user puts something that is not a regular file at a blob's path. */
    function Plant(d: Digest, kind: Foreign): FS {
      this.(blobs := blobs[d := |inodes|], inodes := inodes + [Inode(kind, [], clock)])
    }
  }

  /** Every way an open can find no blob is an absence; a permission or I/O error is an outage and never one. */
  lemma AbsenceIsNoOutage(fs: FS, d: Digest)
    ensures match fs.OpenStoredBlob(d)
            case Opened(ino) => d in fs.blobs && ino == fs.blobs[d] && fs.Node(ino).kind == Regular
            case OpenFailed(e) => IsAbsentBlob(e) && !(d in fs.blobs && fs.Node(fs.blobs[d]).kind == Regular)
    ensures !IsAbsentBlob(EACCES) && !IsAbsentBlob(EIO)
    ensures IsAbsentBlob(ENOENT) && IsAbsentBlob(ENOTDIR) && IsAbsentBlob(ELOOP) && IsAbsentBlob(EMLINK)
  {
  }

  const EmptyFS := FS(map[], map[], [], 0)

  /** The blobs a filesystem holds: the map from digest to content it implements. */
  ghost function Contents(fs: FS): map<Digest, Bytes> {
    map d | d in fs.blobs && fs.Node(fs.blobs[d]).kind == Regular :: fs.Node(fs.blobs[d]).data
  }
}
