/** Byte strings and big-endian numbers. */
module Wire {
  import opened Words

  type Bytes = seq<byte>

  /** A Go `[16]byte`. */
  type Id16 = b: seq<byte> | |b| == 16 witness seq(16, _ => 0)

  /** A SHA-256 digest. */
  type Digest = b: seq<byte> | |b| == 32 witness seq(32, _ => 0)

  function Zeros(n: nat): (b: Bytes)
    ensures |b| == n
  {
    seq(n, _ => 0)
  }

  /** The bytes of an ASCII string. */
  function Ascii(s: string): (b: Bytes)
    requires forall i :: 0 <= i < |s| ==> s[i] < 128 as char
    ensures |b| == |s|
  {
    seq(|s|, i requires 0 <= i < |s| => s[i] as int)
  }

  function Pow256(n: nat): (p: nat)
    ensures p > 0
  {
    if n == 0 then 1 else 256 * Pow256(n - 1)
  }

  lemma Pow256Values()
    ensures Pow256(2) == 0x1_0000 && Pow256(4) == TWO_32 && Pow256(8) == TWO_64
  {
    assert Pow256(2) == 0x1_0000;
    assert Pow256(4) == 0x1_0000 * Pow256(2);
    assert Pow256(6) == 0x1_0000 * Pow256(4);
    assert Pow256(8) == 0x1_0000 * Pow256(6);
  }

  /** The low `n` bytes of `x`, most significant first. */
  function BigEndian(n: nat, x: nat): (b: Bytes)
    ensures |b| == n
  {
    if n == 0 then [] else BigEndian(n - 1, x / 256) + [x % 256]
  }

  function Number(b: Bytes): nat {
    if b == [] then 0 else 256 * Number(b[..|b| - 1]) + b[|b| - 1]
  }

  lemma {:induction false} NumberOfBigEndian(n: nat, x: nat)
    requires x < Pow256(n)
    ensures Number(BigEndian(n, x)) == x
  {
    if n > 0 {
      NumberOfBigEndian(n - 1, x / 256);
      assert BigEndian(n, x)[..n - 1] == BigEndian(n - 1, x / 256);
    }
  }

  lemma {:induction false} BigEndianOfNumber(b: Bytes)
    ensures Number(b) < Pow256(|b|)
    ensures BigEndian(|b|, Number(b)) == b
  {
    if b != [] {
      var front := b[..|b| - 1];
      BigEndianOfNumber(front);
      assert b == front + [b[|b| - 1]];
    }
  }

  function Uint16(b: Bytes): (x: uint16)
    requires |b| == 2
    ensures BigEndian(2, x) == b
  {
    BigEndianOfNumber(b); Pow256Values();
    Number(b)
  }

  function Uint32(b: Bytes): (x: uint32)
    requires |b| == 4
    ensures BigEndian(4, x) == b
  {
    BigEndianOfNumber(b); Pow256Values();
    Number(b)
  }

  function Uint64(b: Bytes): (x: uint64)
    requires |b| == 8
    ensures BigEndian(8, x) == b
  {
    BigEndianOfNumber(b); Pow256Values();
    Number(b)
  }

  lemma Put16(x: uint16)
    ensures Uint16(BigEndian(2, x)) == x
  {
    Pow256Values(); NumberOfBigEndian(2, x);
  }

  lemma Put32(x: uint32)
    ensures Uint32(BigEndian(4, x)) == x
  {
    Pow256Values(); NumberOfBigEndian(4, x);
  }

  lemma Put64(x: uint64)
    ensures Uint64(BigEndian(8, x)) == x
  {
    Pow256Values(); NumberOfBigEndian(8, x);
  }

  /** Writes `src` into `b` from `at` on. */
  method CopyInto(b: array<byte>, at: nat, src: Bytes)
    requires at + |src| <= b.Length
    modifies b
    ensures b[..] == old(b[..at]) + src + old(b[at + |src|..])
  {
    for i := 0 to |src|
      invariant b[..] == old(b[..at]) + src[..i] + old(b[at + i..])
    {
      b[at + i] := src[i];
    }
  }

  /** Writes the `n` low bytes of `x` into `b` from `at` on, most significant first. */
  method PutBigEndian(b: array<byte>, at: nat, n: nat, x: nat)
    requires at + n <= b.Length
    modifies b
    ensures b[..] == old(b[..at]) + BigEndian(n, x) + old(b[at + n..])
  {
    var i, rest := n, x;
    while i > 0
      invariant 0 <= i <= n
      invariant b[..] == old(b[..at + i]) + b[at + i..at + n] + old(b[at + n..])
      invariant BigEndian(n, x) == BigEndian(i, rest) + b[at + i..at + n]
    {
      i := i - 1;
      b[at + i] := rest % 256;
      rest := rest / 256;
    }
  }
}
