/** MD5 as RFC 1321 defines it, sections 3.1 to 3.5, for any compression function f. */
module Md5Spec {
  import opened Bytes

  const WORD: nat := 0x1_0000_0000
  const DWORD: nat := 0x1_0000_0000_0000_0000
  type word = n: nat | n < WORD

  /** The registers A, B, C, D. */
  datatype Chain = Chain(a: word, b: word, c: word, d: word)

  type Compression = (Chain, seq<byte>) -> Chain

  const INITIAL: Chain := Chain(0x67452301, 0xefcdab89, 0x98badcfe, 0x10325476)

  function Zeros(n: nat): (z: seq<byte>)
    ensures |z| == n
  {
    seq(n, i => 0 as byte)
  }

  /** Section 3.1: one 1 bit, then 0 bits up to 56 bytes modulo 64. */
  function Padding(length: nat): seq<byte> {
    [0x80 as byte] + Zeros((119 - length % 64) % 64)
  }

  /** Section 3.2: the length in bits modulo 2^64, low word first. */
  function BitLength(length: nat): seq<byte> {
    Le(8 * length % DWORD, 8)
  }

  /** Section 3.4: the compression function is folded over the 64-byte blocks. */
  function Fold(f: Compression, h: Chain, m: seq<byte>): Chain
    decreases |m|
  {
    if |m| < 64 then h else Fold(f, f(h, m[..64]), m[64..])
  }

  /** Section 3.5: the registers, low byte first. */
  function Output(h: Chain): seq<byte> {
    Le(h.a, 4) + Le(h.b, 4) + Le(h.c, 4) + Le(h.d, 4)
  }

  function Md5(f: Compression, m: seq<byte>): seq<byte> {
    Output(Fold(f, INITIAL, m + Padding(|m|) + BitLength(|m|)))
  }

  // ---------------------------------------------------------------- folding

  lemma PaddingLength(length: nat)
    ensures (length + |Padding(length)|) % 64 == 56 && 1 <= |Padding(length)| <= 64
    ensures (length + |Padding(length)| + 8) % 64 == 0
    ensures |Padding(length)| == if length % 64 < 56 then 56 - length % 64 else 120 - length % 64
  {
    var q, r := length / 64, length % 64;
    PaddingZeros(r);
    assert length == 64 * q + r;
    if r < 56 {
      Remainder(length + (56 - r), q, 56);
      Remainder(length + (56 - r) + 8, q + 1, 0);
    } else {
      Remainder(length + (120 - r), q + 1, 56);
      Remainder(length + (120 - r) + 8, q + 2, 0);
    }
  }

  lemma PaddingZeros(r: nat)
    requires r < 64
    ensures (119 - r) % 64 == if r < 56 then 55 - r else 119 - r
  {
  }

  lemma Remainder(n: nat, q: nat, r: nat)
    requires n == 64 * q + r && r < 64
    ensures n % 64 == r
  {
  }

  /** The padded message consists of whole blocks. */
  lemma PaddedIsWhole(m: seq<byte>)
    ensures Whole(m + Padding(|m|) + BitLength(|m|)) == m + Padding(|m|) + BitLength(|m|)
  {
    var padded := m + Padding(|m|) + BitLength(|m|);
    PaddingLength(|m|);
    WholeAll(padded);
  }

  lemma WholeAll(a: seq<byte>)
    requires |a| % 64 == 0
    ensures Whole(a) == a
  {
  }

  /** Whole blocks can be folded first. */
  lemma {:induction false} FoldAppend(f: Compression, h: Chain, a: seq<byte>, b: seq<byte>)
    requires |a| % 64 == 0
    ensures Fold(f, h, a + b) == Fold(f, Fold(f, h, a), b)
    decreases |a|
  {
    if a == [] {
      assert a + b == b;
    } else {
      assert (a + b)[..64] == a[..64] && (a + b)[64..] == a[64..] + b;
      FoldAppend(f, f(h, a[..64]), a[64..], b);
    }
  }

  /** One more block. */
  lemma FoldBlock(f: Compression, h: Chain, a: seq<byte>, block: seq<byte>)
    requires |a| % 64 == 0 && |block| == 64
    ensures Fold(f, h, a + block) == f(Fold(f, h, a), block)
  {
    FoldAppend(f, h, a, block);
    assert block[..64] == block && block[64..] == [];
  }

  // ---------------------------------------------------------------- messages in pieces

  function Whole(m: seq<byte>): (a: seq<byte>)
    ensures |a| % 64 == 0
  {
    m[..|m| - |m| % 64]
  }

  function Tail(m: seq<byte>): (t: seq<byte>)
    ensures |t| == |m| % 64 && Whole(m) + t == m
  {
    m[|m| - |m| % 64..]
  }

  function Concat(pieces: seq<seq<byte>>): seq<byte> {
    if pieces == [] then [] else Concat(pieces[..|pieces| - 1]) + pieces[|pieces| - 1]
  }
}
