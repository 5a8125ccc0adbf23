/** Keys and where they live on disk: `_resolve`, `_shard_path` and the scratch and probe paths beside them. */
module KeyLayout {
  import opened Prelude

  const KEY_PREFIX := "sha256:"
  const TMP_DIRECTORY_NAME := "tmp"
  const DIGEST_LENGTH := 64

  predicate IsHex(c: char) {
    '0' <= c <= '9' || 'a' <= c <= 'f'
  }

  predicate IsDigest(s: string) {
    |s| == DIGEST_LENGTH && forall i :: 0 <= i < |s| ==> IsHex(s[i])
  }

  /** A lowercase hex sha256 digest. */
  type Digest = s: string | IsDigest(s) witness seq(64, _ => '0')

  /** A path below the storage root, one string per component. */
  type Path = seq<string>

  function KeyOf(digest: Digest): string {
    KEY_PREFIX + digest
  }

  function Resolve(key: string): Option<Digest> {
    if !(KEY_PREFIX <= key) then None
    else
      var digest := key[|KEY_PREFIX|..];
      if IsDigest(digest) then Some(digest) else None
  }

  function ShardPath(digest: Digest): Path {
    [digest[..2], digest[2..4], digest[4..]]
  }

  function ScratchPath(name: string): Path {
    [TMP_DIRECTORY_NAME, name]
  }

  function ProbePath(hex: string): Path {
    [".health-" + hex]
  }

  /** Neither path is the other, nor a directory on the way to it. */
  predicate Apart(p: Path, q: Path) {
    !(p <= q) && !(q <= p)
  }

  /** The shape every shard path has: three hex components of 2, 2 and 60 characters. */
  predicate IsShardShaped(p: Path) {
    |p| == 3 && |p[0]| == 2 && |p[1]| == 2 && |p[2]| == 60
    && forall c, i :: 0 <= c < 3 && 0 <= i < |p[c]| ==> IsHex(p[c][i])
  }

  lemma HexDigits(c: char)
    ensures IsHex(c) <==> c in "0123456789abcdef"
  {
    var digits := "0123456789abcdef";
    if '0' <= c <= '9' {
      assert digits[(c as int) - 48] == c;
    } else if 'a' <= c <= 'f' {
      assert digits[10 + (c as int) - 97] == c;
    }
  }

  /** The keys that resolve, character by character. */
  lemma ResolveExactly(key: string)
    ensures Resolve(key).Some?
            <==> |key| == 71 && key[..7] == "sha256:" && forall i :: 7 <= i < 71 ==> key[i] in "0123456789abcdef"
    ensures Resolve(key).Some? ==> key == "sha256:" + Resolve(key).value
  {
    forall c: char
      ensures IsHex(c) <==> c in "0123456789abcdef"
    {
      HexDigits(c);
    }
    if |key| >= 7 {
      assert key == key[..7] + key[7..];
      assert forall i :: 7 <= i < |key| ==> key[i] == key[7..][i - 7];
    }
  }

  /** A key resolves to a digest exactly when it is the key issued for that digest. */
  lemma ResolveInvertsKeyOf(key: string, digest: Digest)
    ensures Resolve(key) == Some(digest) <==> key == KeyOf(digest)
  {
    if KEY_PREFIX <= key {
      assert key == KEY_PREFIX + key[|KEY_PREFIX|..];
    }
    assert KeyOf(digest)[|KEY_PREFIX|..] == digest;
  }

  /** `_shard_path` is one-to-one onto the shard-shaped paths, so keys and shard paths are in bijection. */
  lemma ShardPathBijection(p: Path, digest: Digest)
    requires IsShardShaped(p)
    ensures IsShardShaped(ShardPath(digest))
    ensures IsDigest(p[0] + p[1] + p[2])
    ensures ShardPath(digest) == p <==> digest == p[0] + p[1] + p[2]
    ensures ShardPath(digest) == [digest[0..2], digest[2..4], digest[4..64]]
  {
    var joined := p[0] + p[1] + p[2];
    forall i | 0 <= i < |joined|
      ensures IsHex(joined[i])
    {
      assert joined[i] == if i < 2 then p[0][i] else if i < 4 then p[1][i - 2] else p[2][i - 4];
    }
    assert digest == digest[..2] + digest[2..4] + digest[4..];
    assert digest[0..2] == digest[..2] && digest[4..64] == digest[4..];
    assert joined[..2] == p[0] && joined[2..4] == p[1] && joined[4..] == p[2];
  }

  /**
   * No shard path is on another's directory chain, and none meets the scratch directory, a scratch file
   * or a health probe. This is what lets the filesystem model keep blobs and scratch files in two maps.
   */
  lemma RegionsApart(d: Digest, e: Digest, name: string, hex: string)
    ensures d != e ==> Apart(ShardPath(d), ShardPath(e))
    ensures Apart(ShardPath(d), ["tmp"])
    ensures ScratchPath(name) == ["tmp", name] && Apart(ShardPath(d), ["tmp", name])
    ensures ProbePath(hex) == [".health-" + hex] && Apart(ShardPath(d), [".health-" + hex])
    ensures Apart(["tmp", name], [".health-" + hex])
  {
    assert |ShardPath(d)[0]| == 2 && |TMP_DIRECTORY_NAME| == 3 && |ProbePath(hex)[0]| >= 8;
    assert ShardPath(d)[0] != TMP_DIRECTORY_NAME;
    assert ShardPath(d)[0] != ProbePath(hex)[0];
    assert ProbePath(hex)[0][0] == '.' && ScratchPath(name)[0][0] == 't';
    if ShardPath(d) == ShardPath(e) {
      assert d == ShardPath(d)[0] + ShardPath(d)[1] + ShardPath(d)[2];
      assert e == ShardPath(e)[0] + ShardPath(e)[1] + ShardPath(e)[2];
    }
  }
}
