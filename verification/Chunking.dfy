/** Re-chunking: what a read loop of a fixed chunk size makes of a byte string. */
module Chunking {
  import opened Prelude

  const UPLOAD_CHUNK_SIZE := 64 * 1024

  /** Every chunk is non-empty and at most n bytes, and all but the last are full. */
  predicate FullChunks(chunks: seq<Bytes>, n: nat) {
    && (forall i :: 0 <= i < |chunks| ==> 0 < |chunks[i]| <= n)
    && (forall i :: 0 <= i < |chunks| - 1 ==> |chunks[i]| == n)
  }

  /** One more chunk may follow full ones. */
  lemma FullSnoc(chunks: seq<Bytes>, chunk: Bytes, n: nat)
    requires FullChunks(chunks, n) && 0 < |chunk| <= n
    requires chunks != [] ==> |chunks[|chunks| - 1]| == n
    ensures FullChunks(chunks + [chunk], n)
  {
  }

  lemma {:induction false} FlattenPrepend(first: Bytes, chunks: seq<Bytes>)
    ensures Flatten([first] + chunks) == first + Flatten(chunks)
  {
    if chunks == [] {
      assert [first] + chunks == [first];
      assert Flatten([first]) == Flatten([]) + first == first;
    } else {
      var k := |chunks| - 1;
      FlattenPrepend(first, chunks[..k]);
      assert ([first] + chunks)[..|chunks|] == [first] + chunks[..k];
    }
  }

  lemma HeadOfFull(chunks: seq<Bytes>, n: nat)
    requires chunks != [] && FullChunks(chunks, n)
    ensures Flatten(chunks) == chunks[0] + Flatten(chunks[1..])
    ensures FullChunks(chunks[1..], n)
    ensures |chunks[0]| == Min(n, |Flatten(chunks)|)
    ensures Flatten(chunks) != []
  {
    assert chunks == [chunks[0]] + chunks[1..];
    FlattenPrepend(chunks[0], chunks[1..]);
    if |chunks| == 1 {
      assert Flatten(chunks[1..]) == [];
    }
  }

  /**
   * A byte string has one full chunking. So what a read loop yields depends on the bytes alone, never on how
   * they were chunked when they were written.
   */
  lemma {:induction false} FullChunkingUnique(a: seq<Bytes>, b: seq<Bytes>, n: nat)
    requires FullChunks(a, n) && FullChunks(b, n) && Flatten(a) == Flatten(b)
    ensures a == b
    decreases |a|
  {
    if a == [] {
      if b != [] { HeadOfFull(b, n); }
    } else {
      HeadOfFull(a, n);
      if b != [] {
        HeadOfFull(b, n);
        var whole := Flatten(a);
        assert a[0] == whole[..|a[0]|] && b[0] == whole[..|b[0]|];
        assert Flatten(a[1..]) == whole[|a[0]|..] && Flatten(b[1..]) == whole[|b[0]|..];
        FullChunkingUnique(a[1..], b[1..], n);
        assert a == [a[0]] + a[1..] && b == [b[0]] + b[1..];
      }
    }
  }

  /** An uploaded file and its read cursor. */
  class UploadFile {
    const data: Bytes
    var position: nat

    constructor (data: Bytes)
      ensures this.data == data && position == 0
    {
      this.data := data;
      position := 0;
    }

    method Read(n: nat) returns (chunk: Bytes)
      requires position <= |data|
      modifies this
      ensures old(position) + |chunk| == position <= |data|
      ensures chunk == data[old(position)..position]
      ensures |chunk| == Min(n, |data| - old(position))
    {
      var end := Min(position + n, |data|);
      chunk := data[position..end];
      position := end;
    }
  }

  /** `_stream_upload`: whatever is left of the file, in full chunks. */
  method StreamUpload(file: UploadFile) returns (chunks: seq<Bytes>)
    requires file.position <= |file.data|
    modifies file
    ensures Flatten(chunks) == file.data[old(file.position)..]
    ensures FullChunks(chunks, 64 * 1024)
    ensures file.position == |file.data|
  {
    chunks := [];
    var chunk := file.Read(UPLOAD_CHUNK_SIZE);
    while chunk != []
      invariant old(file.position) <= file.position <= |file.data|
      invariant Flatten(chunks) + chunk == file.data[old(file.position)..file.position]
      invariant FullChunks(chunks, UPLOAD_CHUNK_SIZE) && |chunk| <= UPLOAD_CHUNK_SIZE
      invariant chunks != [] && chunk != [] ==> |chunks[|chunks| - 1]| == UPLOAD_CHUNK_SIZE
      invariant |chunk| < UPLOAD_CHUNK_SIZE ==> file.position == |file.data|
      decreases |file.data| - file.position, |chunk|
    {
      FlattenSnoc(chunks, chunk);
      FullSnoc(chunks, chunk, UPLOAD_CHUNK_SIZE);
      chunks := chunks + [chunk];
      chunk := file.Read(UPLOAD_CHUNK_SIZE);
    }
  }
}
