/** Bytes, digests and the two primitives the kernels treat as black boxes.

    SHA-256 (FIPS 180-4) and the ChaCha20 block function (section 2.3 of RFC 8439) are values
    passed around by every operation that hashes: all theorems hold for every such function. */
module Bytes {
  type byte = x: int | 0 <= x < 256

  type Digest = s: seq<byte> | |s| == 32 witness seq(32, _ => 0)

  type Block64 = s: seq<byte> | |s| == 64 witness seq(64, _ => 0)

  type Hash = seq<byte> -> Digest

  /** Signed 8-bit, 32-bit and 64-bit lanes, as mathematical integers. */
  type i8 = x: int | -0x80 <= x < 0x80

  predicate FitsI32(x: int) { -0x8000_0000 <= x < 0x8000_0000 }

  predicate FitsI64(x: int) { -0x8000_0000_0000_0000 <= x < 0x8000_0000_0000_0000 }

  /** An int32 matrix. */
  predicate Words(s: seq<int>) { forall k :: 0 <= k < |s| ==> FitsI32(s[k]) }

  const W32: int := 0x1_0000_0000
  const W64: int := 0x1_0000_0000_0000_0000

  /** The `u8(b)` cast of a signed byte. */
  function U8(b: i8): byte { if b < 0 then b + 256 else b }

  function U8s(v: seq<i8>): (r: seq<byte>)
    ensures |r| == |v|
    ensures forall k :: 0 <= k < |v| ==> r[k] == U8(v[k])
  {
    seq(|v|, k requires 0 <= k < |v| => U8(v[k]))
  }

  lemma U8sInjective(v: seq<i8>, w: seq<i8>)
    requires U8s(v) == U8s(w)
    ensures v == w
  {
    assert |v| == |w|;
    forall k | 0 <= k < |v| ensures v[k] == w[k] {
      assert U8s(v)[k] == U8s(w)[k];
    }
  }

  lemma PrefixSnoc<T>(s: seq<T>, k: nat)
    requires k < |s|
    ensures s[..k] + [s[k]] == s[..k + 1]
  {
  }

  lemma AppendSnoc<T>(r: seq<T>, s: seq<T>, k: nat)
    requires k < |s|
    ensures r + s[..k] + [s[k]] == r + s[..k + 1]
  {
  }

  lemma ConcatAssoc<T>(a: seq<T>, b: seq<T>, c: seq<T>)
    ensures a + b + c == a + (b + c)
  {
  }

  lemma PrefixSlice<T>(s: seq<T>, a: nat, b: nat)
    requires a <= b <= |s|
    ensures s[..a] + s[a..b] == s[..b]
  {
  }

  lemma DropDrop<T>(s: seq<T>, a: nat, b: nat)
    requires a + b <= |s|
    ensures s[a..][b..] == s[a + b..]
  {
  }

  lemma SliceLeft<T>(a: seq<T>, b: seq<T>, x: nat, y: nat)
    requires x <= y <= |a|
    ensures (a + b)[x..y] == a[x..y]
  {
  }

  lemma SliceRight<T>(a: seq<T>, b: seq<T>)
    ensures (a + b)[|a|..|a| + |b|] == b
  {
  }

  lemma SliceSnoc<T>(s: seq<T>, a: nat, k: nat)
    requires a <= k < |s|
    ensures s[a..k] + [s[k]] == s[a..k + 1]
  {
  }

  lemma WholePrefix<T>(s: seq<T>)
    ensures s[..|s|] == s
  {
  }

  /** A block copied over part of a buffer (`memcpy`). */
  method CopyInto(a: array<i8>, off: nat, part: seq<i8>)
    requires off + |part| <= a.Length
    modifies a
    ensures a[..] == Replaced(old(a[..]), off, part)
  {
    forall k | 0 <= k < |part| { a[off + k] := part[k]; }
  }

  function Replaced<T>(s: seq<T>, off: nat, part: seq<T>): (r: seq<T>)
    requires off + |part| <= |s|
    ensures |r| == |s|
  {
    s[..off] + part + s[off + |part|..]
  }

  lemma ReplacedStart<T>(s: seq<T>, off: nat, part: seq<T>)
    requires off + |part| <= |s|
    ensures Replaced(s, off, part)[..off + |part|] == s[..off] + part
  {
  }

  lemma ReplacedNext<T>(done: seq<T>, rest: seq<T>, part: seq<T>)
    requires |part| <= |rest|
    ensures Replaced(done + rest, |done|, part) == done + part + rest[|part|..]
  {
  }

  /** The low `n` bytes of `v`, least significant first (the `wle32` / `wle64` helpers). */
  function LittleEndian(v: nat, n: nat): (r: seq<byte>)
    ensures |r| == n
  {
    if n == 0 then [] else [v % 256] + LittleEndian(v / 256, n - 1)
  }

  /** The 32-bit word that four consecutive bytes spell, least significant first. */
  function Word32(b: seq<byte>, pos: nat): (w: nat)
    requires pos + 4 <= |b|
    ensures w < W32
  {
    var b0: int, b1: int, b2: int, b3: int := b[pos], b[pos + 1], b[pos + 2], b[pos + 3];
    b0 + 0x100 * b1 + 0x1_0000 * b2 + 0x100_0000 * b3
  }

  function Sha256d(sha: Hash, d: seq<byte>): Digest { sha(sha(d)) }

  predicate IsCollision(sha: Hash, x: seq<byte>, y: seq<byte>) {
    x != y && Sha256d(sha, x) == Sha256d(sha, y)
  }

  /** The bytes of an ASCII tag. */
  function Ascii(s: string): (r: seq<byte>)
    ensures |r| == |s|
  {
    seq(|s|, k requires 0 <= k < |s| => s[k] as int % 256)
  }

  function Tagged(sha: Hash, tag: string, data: seq<byte>): Digest {
    sha(Ascii(tag) + data)
  }

  function TaggedU32(sha: Hash, tag: string, a: Digest, x: nat): Digest { Tagged(sha, tag, a + LittleEndian(x, 4)) }

  /** Digests one after the other. */
  function Joined(roots: seq<Digest>): seq<byte> {
    if roots == [] then [] else Joined(roots[..|roots| - 1]) + roots[|roots| - 1]
  }
}
