/** `StorageService`: ordered effects on the store followed by log lines; and the two routes around it. */
module StorageService {
  import opened Prelude
  import opened KeyLayout
  import opened FileSystem
  import opened BlobMachine
  import opened BlobInvariant
  import opened BlobLinearizability
  import opened Chunking
  import opened BlobStorage

  datatype LogLine =
    | BlobStored(key: string, size: nat)
    | BlobRetrieved(key: string, size: nat)
    | BlobDeleted(key: string, size: nat)

  /** The content a key names. */
  ghost function Named(fs: FS, key: string): Option<Bytes> {
    var path := Resolve(key);
    if path.Some? && path.value in Contents(fs) then Some(Contents(fs)[path.value]) else None
  }

  /** The size lookup both compositions begin with: to the second step with the true length, or the end. */
  lemma LookupStep(h: Hash, fs: FS, d: Digest, fails: bool)
    ensures var size := if d in Contents(fs) then Some(|Contents(fs)[d]|) else None;
            && Local(h, fs, RetrieveSize(d), Answered(fails))
               == (fs, if fails then Errored([]) else if size.Some? then GetOpen(d, size) else Missing(OpSize(Some(d))))
            && Local(h, fs, RemoveSize(d), Answered(fails))
               == (fs, if fails then Errored([])
                       else if size.Some? then RemoveUnlink(d, size.value) else Missing(OpSize(Some(d))))
  {
  }

  /** Where the machine's retrieve of this key ends when it runs alone. */
  ghost function RetrieveEnd(fs: FS, key: string, sizeFails: bool, openFails: bool): Pc {
    var (path, named) := (Resolve(key), Named(fs, key));
    if path.Some? && sizeFails then Errored([])
    else if named.None? then Missing(OpSize(path))
    else if openFails then Errored(Prefix(path.value, Some(|named.value|)))
    else GetRead(path.value, Some(|named.value|), fs.blobs[path.value], 0, [])
  }

  lemma RetrieveRun(h: Hash, fs: FS, key: string, sizeFails: bool, openFails: bool)
    ensures Solo(h, fs, Start(BlobMachine.Retrieve(key)), [Answered(sizeFails), Answered(openFails)])
         == (fs, RetrieveEnd(fs, key, sizeFails, openFails))
  {
    SoloTwo(h, fs, Start(BlobMachine.Retrieve(key)), Answered(sizeFails), Answered(openFails));
    if Resolve(key).Some? {
      LookupStep(h, fs, Resolve(key).value, sizeFails);
    }
  }

  lemma UnlinkStored(h: Hash, fs: FS, d: Digest, size: nat, fails: bool)
    requires d in Contents(fs)
    ensures Local(h, fs, RemoveUnlink(d, size), Answered(fails))
         == if fails then (fs, Errored(Prefix(d, Some(size)))) else (fs.UnlinkBlob(d), RemoveDone(d, size))
    ensures Contents(fs.UnlinkBlob(d)) == Contents(fs) - {d}
  {
  }

  /** Where the machine's remove of this key ends when it runs alone. */
  ghost function RemoveEnd(fs: FS, key: string, sizeFails: bool, deleteFails: bool): Pc {
    var (path, named) := (Resolve(key), Named(fs, key));
    if path.Some? && sizeFails then Errored([])
    else if named.None? then Missing(OpSize(path))
    else if deleteFails then Errored(Prefix(path.value, Some(|named.value|)))
    else RemoveDone(path.value, |named.value|)
  }

  lemma RemoveRun(h: Hash, fs: FS, key: string, sizeFails: bool, deleteFails: bool)
    ensures var (fs', pc) := Solo(h, fs, Start(BlobMachine.Remove(key)), [Answered(sizeFails), Answered(deleteFails)]);
            && pc == RemoveEnd(fs, key, sizeFails, deleteFails)
            && fs' == if pc.RemoveDone? then fs.UnlinkBlob(pc.d) else fs
  {
    SoloTwo(h, fs, Start(BlobMachine.Remove(key)), Answered(sizeFails), Answered(deleteFails));
    if Resolve(key).Some? {
      LookupStep(h, fs, Resolve(key).value, sizeFails);
      if Named(fs, key).Some? {
        UnlinkStored(h, fs, Resolve(key).value, |Named(fs, key).value|, deleteFails);
      }
    }
  }

  class Service {
    const storage: FilesystemBlobStorage
    var log: seq<LogLine>

    constructor (storage: FilesystemBlobStorage)
      ensures this.storage == storage && log == []
    {
      this.storage := storage;
      log := [];
    }

    method Store(content: seq<Bytes>, raises: bool, fails: set<SysCall>, drawn: nat) returns (r: Outcome<StoredBlob>)
      requires storage.Valid() && drawn !in storage.fs.scratch
      modifies this, storage
      ensures storage.Valid()
      ensures PutPromise(storage.h, old(storage.fs), storage.fs, Flatten(content), raises, fails, drawn, r)
      ensures storage.spooled
           == if SpoolFails(raises, fails) then old(storage.spooled) else old(storage.spooled) + {Flatten(content)}
      ensures log == old(log) + if r.Success? then [BlobStored(r.value.key, r.value.size)] else []
    {
      ghost var choices, end;
      r, choices, end := storage.Put(content, raises, fails, drawn);
      if r.Success? {
        log := log + [BlobStored(r.value.key, r.value.size)];
      }
    }

    /**
     * A content is opened exactly when the key names one and both system calls work. Its true length is
     * logged once the lstat has answered, whether or not the open then fails; a miss logs nothing.
     */
    method Retrieve(key: string, sizeFails: bool, openFails: bool) returns (r: Outcome<nat>)
      modifies this
      ensures r.Success? <==> Named(storage.fs, key).Some? && !sizeFails && !openFails
      ensures r.Success? ==> storage.fs.Node(r.value).data == Named(storage.fs, key).value
      ensures r.BlobNotFound? <==> Resolve(key).None? || (Named(storage.fs, key).None? && !sizeFails)
      ensures r.Success? || r.BlobNotFound? || r.OsError?
      ensures log == old(log) + if Named(storage.fs, key).Some? && !sizeFails
                                then [BlobRetrieved(key, |Named(storage.fs, key).value|)] else []
      ensures Solo(storage.h, storage.fs, Start(BlobMachine.Retrieve(key)), [Answered(sizeFails), Answered(openFails)])
           == (storage.fs, RetrieveEnd(storage.fs, key, sizeFails, openFails))
      ensures r.Success? ==> r.value == storage.fs.blobs[Resolve(key).value]
    {
      RetrieveRun(storage.h, storage.fs, key, sizeFails, openFails);
      var size := storage.Size(key, sizeFails);
      if !size.Success? { return size; }
      log := log + [BlobRetrieved(key, size.value)];
      r := storage.Open(key, openFails);
    }

    /** What is deleted is what was measured; a removal that fails changes nothing and logs nothing. */
    method Remove(key: string, sizeFails: bool, deleteFails: bool) returns (r: Outcome<()>)
      requires storage.Valid()
      modifies this, storage
      ensures storage.Valid()
      ensures r.Success? <==> old(Named(storage.fs, key)).Some? && !sizeFails && !deleteFails
      ensures r.BlobNotFound? <==> Resolve(key).None? || (old(Named(storage.fs, key)).None? && !sizeFails)
      ensures r.Success? || r.BlobNotFound? || r.OsError?
      ensures r.Success? ==>
        && Contents(storage.fs) == old(Contents(storage.fs)) - {Resolve(key).value}
        && log == old(log) + [BlobDeleted(key, |old(Named(storage.fs, key)).value|)]
      ensures !r.Success? ==> storage.fs == old(storage.fs) && log == old(log)
      ensures Solo(storage.h, old(storage.fs), Start(BlobMachine.Remove(key)), [Answered(sizeFails), Answered(deleteFails)])
           == (storage.fs, RemoveEnd(old(storage.fs), key, sizeFails, deleteFails))
    {
      ghost var was := storage.fs;
      var size := storage.Size(key, sizeFails);
      if size.Success? {
        r := storage.Delete(key, deleteFails);
        if r.Success? {
          log := log + [BlobDeleted(key, size.value)];
          UnlinkStored(storage.h, was, Resolve(key).value, size.value, false);
        }
      } else {
        r := if size.OsError? then OsError else BlobNotFound;
      }
      RemoveRun(storage.h, was, key, sizeFails, deleteFails);
    }
  }

  /** What goes wrong on the way down: a failing lstat or open, and where and how the stream stops. */
  datatype DownloadFaults = DownloadFaults(size: bool, open: bool, stop: Option<nat>, read: bool)

  /**
   * An upload followed by the download of the key it answered, whichever system calls fail. If the upload is
   * answered, its key and size are those of the file's bytes; if the download then opens, what it yields is a
   * prefix of those bytes, and all of them unless the stream was stopped. The bytes' hash is taken not
   * to collide with a content spooled before.
   */
  method UploadThenDownload(service: Service, file: UploadFile, fails: set<SysCall>, drawn: nat, down: DownloadFaults)
      returns (blob: Outcome<StoredBlob>, downloaded: bool, body: seq<Bytes>, whole: bool)
    requires service.storage.Valid() && drawn !in service.storage.fs.scratch && file.position == 0
    requires NoCollisionAt(service.storage.h, service.storage.spooled + {file.data}, service.storage.h(file.data))
    modifies service, service.storage, file
    ensures var d := service.storage.h(file.data);
            blob.Success? <==> !SpoolFails(false, fails) && !PublishFails(old(service.storage.fs), d, fails)
                               && RegularAt(old(service.storage.fs), d)
    ensures blob.Success? ==> blob.value.key == "sha256:" + service.storage.h(file.data) && blob.value.size == |file.data|
    ensures downloaded <==> blob.Success? && !down.size && !down.open
    ensures downloaded ==>
      && Flatten(body) <= file.data && FullChunks(body, 1024 * 1024)
      && (whole <==> down.stop.None? || |body| < down.stop.value)
      && (whole ==> Flatten(body) == file.data)
    ensures !downloaded ==> body == [] && !whole
  {
    downloaded, body, whole := false, [], false;
    var chunks := StreamUpload(file);
    assert file.data[0..] == file.data;
    blob := service.Store(chunks, false, fails, drawn);
    if !blob.Success? { return; }
    var d := service.storage.h(file.data);
    ResolveInvertsKeyOf(blob.value.key, d);
    assert Whole(service.storage.h, service.storage.fs, service.storage.spooled, d, service.storage.fs.blobs[d]);
    var handle := service.Retrieve(blob.value.key, down.size, down.open);
    if !handle.Success? { return; }
    downloaded := true;
    ghost var choices;
    body, whole, choices := service.storage.StreamHandle(d, handle.value, down.stop, down.read);
  }
}
