/** What a derived seed commits to: equal seeds mean equal inputs, or two inputs with one hash. */
module Seeds {
  import opened Bytes

  /** A collision of the plain hash. */
  predicate IsShaCollision(sha: Hash, x: seq<byte>, y: seq<byte>) { x != y && sha(x) == sha(y) }

  function Pow256(n: nat): nat { if n == 0 then 1 else 256 * Pow256(n - 1) }

  /** Little-endian words of one width are read back uniquely. */
  lemma {:induction false} LittleEndianInjective(x: nat, y: nat, n: nat)
    requires x < Pow256(n) && y < Pow256(n) && LittleEndian(x, n) == LittleEndian(y, n)
    ensures x == y
  {
    if n > 0 {
      var a, b := LittleEndian(x, n), LittleEndian(y, n);
      assert a[0] == x % 256 && b[0] == y % 256;
      assert a[1..] == LittleEndian(x / 256, n - 1) && b[1..] == LittleEndian(y / 256, n - 1);
      LittleEndianInjective(x / 256, y / 256, n - 1);
    }
  }

  lemma Words32And64()
    ensures Pow256(4) == W32 && Pow256(8) == W64
  {
    assert Pow256(2) == 0x1_0000;
    assert Pow256(6) == 0x1_0000_0000_0000;
  }

  lemma SplitEqual<T>(a: seq<T>, x: seq<T>, b: seq<T>, y: seq<T>)
    requires |a| == |b| && a + x == b + y
    ensures a == b && x == y
  {
    assert (a + x)[..|a|] == a && (b + y)[..|b|] == b;
    assert (a + x)[|a|..] == x && (b + y)[|b|..] == y;
  }

  /** The bytes hashed into a seed tagged with a digest and a 32-bit word. */
  function SeedPreimage(tag: string, a: Digest, x: nat): seq<byte> { Ascii(tag) + (a + LittleEndian(x, 4)) }

  /** Two seeds under one tag are equal only if they were derived from the same digest and the same word. */
  lemma TaggedBinds(sha: Hash, tag: string, a: Digest, x: nat, b: Digest, y: nat)
    requires x < W32 && y < W32 && TaggedU32(sha, tag, a, x) == TaggedU32(sha, tag, b, y)
    ensures (a == b && x == y) || IsShaCollision(sha, SeedPreimage(tag, a, x), SeedPreimage(tag, b, y))
  {
    if SeedPreimage(tag, a, x) == SeedPreimage(tag, b, y) {
      SplitEqual(Ascii(tag), a + LittleEndian(x, 4), Ascii(tag), b + LittleEndian(y, 4));
      SplitEqual(a, LittleEndian(x, 4), b, LittleEndian(y, 4));
      Words32And64();
      LittleEndianInjective(x, y, 4);
    }
  }
}
