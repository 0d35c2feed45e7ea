/** Which byte of a digest is which, and which bytes are hashed, as sections 3.1 to 3.5 of RFC 1321
    tell it. */
module Md5Bytes {
  import opened Seqs
  import opened Bytes
  import opened Md5Spec

  // ---------------------------------------------------------------- what is hashed

  /** The message with all that is hashed behind it. */
  function Hashed(m: seq<byte>): seq<byte> {
    m + Padding(|m|) + BitLength(|m|)
  }

  /** Main result on the padding: behind the message comes the byte 0x80, then zeros, then the number
      of bits as eight bytes, low byte first; it is the shortest such text of whole blocks. */
  lemma HashedExact(m: seq<byte>)
    ensures var p := Hashed(m);
            && |p| % 64 == 0 && |m| + 9 <= |p| < |m| + 9 + 64
            && p[..|m|] == m && p[|m|] == 0x80
            && (forall i :: |m| < i < |p| - 8 ==> p[i] == 0)
            && forall k: nat {:trigger Span(k)} :: k < 8 ==>
                 p[|p| - 8 + k] as nat == 8 * |m| % 0x1_0000_0000_0000_0000 / Span(k) % 256
  {
    var p := Hashed(m);
    PaddingLength(|m|);
    HashedParts(m, Padding(|m|), BitLength(|m|));
    forall k: nat {:trigger Span(k)} | k < 8
      ensures p[|p| - 8 + k] as nat == 8 * |m| % 0x1_0000_0000_0000_0000 / Span(k) % 256
    {
      BitLengthAt(|m|, k);
    }
  }

  lemma BitLengthAt(length: nat, k: nat)
    requires k < 8
    ensures BitLength(length)[k] as nat == 8 * length % 0x1_0000_0000_0000_0000 / Span(k) % 256
  {
    LeAt(8 * length % DWORD, 8, k);
  }

  lemma HashedParts(m: seq<byte>, pad: seq<byte>, bits: seq<byte>)
    requires |pad| >= 1 && |bits| == 8
    ensures var p := m + pad + bits;
            && |p| == |m| + |pad| + 8 && p[..|m|] == m
            && (forall i :: 0 <= i < |pad| ==> p[|m| + i] == pad[i])
            && forall k :: 0 <= k < 8 ==> p[|p| - 8 + k] == bits[k]
  {
  }

  // ---------------------------------------------------------------- the chain

  /** The registers behind k blocks, from the front. */
  function Chained(f: Compression, h: Chain, m: seq<byte>, k: nat): Chain
    requires 64 * k <= |m|
  {
    if k == 0 then h else f(Chained(f, h, m, k - 1), m[64 * (k - 1)..64 * k])
  }

  lemma {:induction false} FoldIsChain(f: Compression, h: Chain, m: seq<byte>, k: nat)
    requires 64 * k <= |m|
    ensures Fold(f, h, m[..64 * k]) == Chained(f, h, m, k)
  {
    if k > 0 {
      FoldIsChain(f, h, m, k - 1);
      FoldBlock(f, h, m[..64 * (k - 1)], m[64 * (k - 1)..64 * k]);
      assert m[..64 * k] == m[..64 * (k - 1)] + m[64 * (k - 1)..64 * k];
    }
  }

  // ---------------------------------------------------------------- the digest

  function Register(h: Chain, i: nat): nat
    requires i < 4
  {
    if i == 0 then h.a else if i == 1 then h.b else if i == 2 then h.c else h.d
  }

  lemma OutputRegister(h: Chain, i: nat)
    requires i < 4
    ensures |Output(h)| == 16 && UnLe(Output(h)[4 * i..4 * i + 4]) == Register(h, i)
  {
    assert Span(4) == WORD;
    LeRoundTrip(h.a, 4);
    LeRoundTrip(h.b, 4);
    LeRoundTrip(h.c, 4);
    LeRoundTrip(h.d, 4);
    FourWords(Le(h.a, 4), Le(h.b, 4), Le(h.c, 4), Le(h.d, 4));
  }

  lemma FourWords(a: seq<byte>, b: seq<byte>, c: seq<byte>, d: seq<byte>)
    requires |a| == |b| == |c| == |d| == 4
    ensures var s := a + b + c + d;
            |s| == 16 && s[0..4] == a && s[4..8] == b && s[8..12] == c && s[12..16] == d
  {
  }

  /** Main result: bytes 4 i to 4 i + 3 of a digest, low byte first, are register i (A, B, C, D) of
      the chain through the blocks of what is hashed, from the start value on. */
  lemma DigestExact(f: Compression, m: seq<byte>, i: nat)
    requires i < 4
    ensures |Hashed(m)| % 64 == 0 && |Md5(f, m)| == 16
    ensures UnLe(Md5(f, m)[4 * i..4 * i + 4])
         == Register(Chained(f, Chain(0x67452301, 0xefcdab89, 0x98badcfe, 0x10325476), Hashed(m), |Hashed(m)| / 64), i)
  {
    var p := Hashed(m);
    PaddingLength(|m|);
    FoldIsChain(f, INITIAL, p, |p| / 64);
    assert p[..64 * (|p| / 64)] == p;
    OutputRegister(Fold(f, INITIAL, p), i);
  }

  /** Written out, the start value counts up and down in half bytes. */
  lemma StartBytes()
    ensures Output(INITIAL) == [0x01, 0x23, 0x45, 0x67, 0x89, 0xab, 0xcd, 0xef,
                                0xfe, 0xdc, 0xba, 0x98, 0x76, 0x54, 0x32, 0x10]
  {
    FirstRegister(INITIAL.a);
    SecondRegister(INITIAL.b);
    ThirdRegister(INITIAL.c);
    FourthRegister(INITIAL.d);
    Sixteen(Le(INITIAL.a, 4), Le(INITIAL.b, 4), Le(INITIAL.c, 4), Le(INITIAL.d, 4));
  }

  lemma FirstRegister(n: nat)
    requires n == 0x67452301
    ensures Le(n, 4) == [0x01, 0x23, 0x45, 0x67]
  {
    FourBytes(n, 0x01, 0x23, 0x45, 0x67);
  }

  lemma SecondRegister(n: nat)
    requires n == 0xefcdab89
    ensures Le(n, 4) == [0x89, 0xab, 0xcd, 0xef]
  {
    FourBytes(n, 0x89, 0xab, 0xcd, 0xef);
  }

  lemma ThirdRegister(n: nat)
    requires n == 0x98badcfe
    ensures Le(n, 4) == [0xfe, 0xdc, 0xba, 0x98]
  {
    FourBytes(n, 0xfe, 0xdc, 0xba, 0x98);
  }

  lemma FourthRegister(n: nat)
    requires n == 0x10325476
    ensures Le(n, 4) == [0x76, 0x54, 0x32, 0x10]
  {
    FourBytes(n, 0x76, 0x54, 0x32, 0x10);
  }

  lemma Sixteen(a: seq<byte>, b: seq<byte>, c: seq<byte>, d: seq<byte>)
    requires a == [0x01, 0x23, 0x45, 0x67] && b == [0x89, 0xab, 0xcd, 0xef]
    requires c == [0xfe, 0xdc, 0xba, 0x98] && d == [0x76, 0x54, 0x32, 0x10]
    ensures a + b + c + d == [0x01, 0x23, 0x45, 0x67, 0x89, 0xab, 0xcd, 0xef,
                              0xfe, 0xdc, 0xba, 0x98, 0x76, 0x54, 0x32, 0x10]
  {
  }

  lemma FourBytes(n: nat, a: byte, b: byte, c: byte, d: byte)
    requires n == a as nat + 256 * (b as nat) + 65536 * (c as nat) + 16777216 * (d as nat)
    ensures Le(n, 4) == [a, b, c, d]
  {
    var n2 := c as nat + 256 * (d as nat);
    var n1 := b as nat + 256 * n2;
    LeStep(d as nat, 0, d, 0);
    LeStep(n2, d as nat, c, 1);
    LeStep(n1, n2, b, 2);
    LeStep(n, n1, a, 3);
  }

  lemma LeStep(n: nat, high: nat, low: byte, k: nat)
    requires n == low as nat + 256 * high
    ensures Le(n, k + 1) == [low] + Le(high, k)
  {
  }
}
