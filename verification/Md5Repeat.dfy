/** When the digest of an MD5 object can be asked for again. */
module Md5Repeat {

  import opened Bytes
  import opened Md5Spec
  import opened Md5Stream

  /** What AfterDigest leaves of the waiting bytes when the length had no room in their block. */
  function Leftover(m: seq<byte>): seq<byte> {
    (Zeros(56) + BitLength(|m|))[..|m| % 64]
  }

  lemma SameMessage(m: seq<byte>)
    ensures AfterDigest(m) == m <==> |m| % 64 < 56 || Tail(m) == Leftover(m)
  {
    if |m| % 64 >= 56 {
      MD5.SameTail(m);
      assert Whole(m) + Tail(m) == m;
    }
  }

  // ---------------------------------------------------------------- a compression that tells blocks apart

  function Flip(h: Chain): Chain {
    h.(a := if h.a == INITIAL.a then 0 else INITIAL.a)
  }

  /** Flips the first register at every block that is b, and does nothing else. */
  function Toggle(b: seq<byte>): Compression {
    (h, block) => if block == b then Flip(h) else h
  }

  function Occurrences(b: seq<byte>, m: seq<byte>): nat
    decreases |m|
  {
    if |m| < 64 then 0 else (if m[..64] == b then 1 else 0) + Occurrences(b, m[64..])
  }

  predicate TwoValued(h: Chain) {
    h.a == INITIAL.a || h.a == 0
  }

  lemma {:induction false} FoldToggle(b: seq<byte>, h: Chain, m: seq<byte>)
    requires TwoValued(h)
    ensures Fold(Toggle(b), h, m) == if Occurrences(b, m) % 2 == 1 then Flip(h) else h
    decreases |m|
  {
    if |m| >= 64 {
      FoldToggle(b, Toggle(b)(h, m[..64]), m[64..]);
    }
  }

  lemma {:induction false} OccurrencesAppend(b: seq<byte>, m: seq<byte>, n: seq<byte>)
    requires |m| % 64 == 0
    ensures Occurrences(b, m + n) == Occurrences(b, m) + Occurrences(b, n)
    decreases |m|
  {
    if m == [] {
      assert m + n == n;
    } else {
      assert (m + n)[..64] == m[..64] && (m + n)[64..] == m[64..] + n;
      OccurrencesAppend(b, m[64..], n);
    }
  }

  lemma OneBlock(b: seq<byte>, block: seq<byte>)
    requires |block| == 64
    ensures Occurrences(b, block) == if block == b then 1 else 0
  {
    assert block[..64] == block && block[64..] == [];
  }

  lemma AroundBlock(b: seq<byte>, whole: seq<byte>, block: seq<byte>, rest: seq<byte>)
    requires |whole| % 64 == 0 && |block| == 64
    ensures Occurrences(b, whole + (block + rest))
         == Occurrences(b, whole) + Occurrences(b, rest) + if block == b then 1 else 0
  {
    OccurrencesAppend(b, whole, block + rest);
    OccurrencesAppend(b, block, rest);
    OneBlock(b, block);
  }

  function Padded(m: seq<byte>): seq<byte> {
    m + Padding(|m|) + BitLength(|m|)
  }

  /** The last bytes of a message and what the padding adds to their block, and the block after it. */
  function LastBlock(m: seq<byte>): (b: seq<byte>)
    requires |m| % 64 >= 56
    ensures |b| == 64
  {
    PaddingLength(|m|);
    Tail(m) + Padding(|m|)[..64 - |m| % 64]
  }

  function Extra(length: nat): seq<byte>
    requires length % 64 >= 56
  {
    PaddingLength(length);
    Padding(length)[64 - length % 64..] + BitLength(length)
  }

  lemma PaddedParts(m: seq<byte>)
    requires |m| % 64 >= 56
    ensures Padded(m) == Whole(m) + (LastBlock(m) + Extra(|m|))
  {
    PaddingLength(|m|);
    var w, t, pad, bits := Whole(m), Tail(m), Padding(|m|), BitLength(|m|);
    var p, q := pad[..64 - |m| % 64], pad[64 - |m| % 64..];
    assert pad == p + q && m == w + t;
    Regroup(w, t, p, q, bits);
  }

  lemma Regroup(w: seq<byte>, t: seq<byte>, p: seq<byte>, q: seq<byte>, bits: seq<byte>)
    ensures w + t + (p + q) + bits == w + ((t + p) + (q + bits))
  {
  }

  predicate Odd(b: seq<byte>, m: seq<byte>) {
    Occurrences(b, Padded(m)) % 2 == 1
  }

  /** The same without the last block of the message. */
  predicate OddAround(b: seq<byte>, whole: seq<byte>, length: nat)
    requires length % 64 >= 56
  {
    (Occurrences(b, whole) + Occurrences(b, Extra(length))) % 2 == 1
  }

  lemma PaddedCount(b: seq<byte>, m: seq<byte>)
    requires |m| % 64 >= 56
    ensures Occurrences(b, Padded(m))
         == Occurrences(b, Whole(m)) + Occurrences(b, Extra(|m|)) + if LastBlock(m) == b then 1 else 0
  {
    PaddedParts(m);
    AroundBlock(b, Whole(m), LastBlock(m), Extra(|m|));
  }

  lemma OddParts(b: seq<byte>, m: seq<byte>)
    requires |m| % 64 >= 56
    ensures Odd(b, m) == if LastBlock(m) == b then !OddAround(b, Whole(m), |m|) else OddAround(b, Whole(m), |m|)
  {
    PaddedCount(b, m);
    Parity(Occurrences(b, Whole(m)) + Occurrences(b, Extra(|m|)), if LastBlock(m) == b then 1 else 0);
  }

  lemma Parity(around: nat, one: nat)
    requires one <= 1
    ensures (around + one) % 2 == 1 <==> if one == 1 then around % 2 != 1 else around % 2 == 1
  {
  }

  lemma OutputDiffers(g: Chain, h: Chain)
    requires g.a != h.a
    ensures Output(g) != Output(h)
  {
    assert Span(4) == WORD;
    LeRoundTrip(g.a, 4);
    LeRoundTrip(h.a, 4);
    assert Output(g)[..4] == Le(g.a, 4) && Output(h)[..4] == Le(h.a, 4);
  }

  // ---------------------------------------------------------------- the second digest

  function Toggled(odd: bool): seq<byte> {
    Output(if odd then Flip(INITIAL) else INITIAL)
  }

  lemma ToggleDigest(b: seq<byte>, m: seq<byte>)
    ensures Md5(Toggle(b), m) == Toggled(Odd(b, m))
  {
    FoldToggle(b, INITIAL, Padded(m));
  }

  lemma ToggledApart(odd: bool)
    ensures Toggled(odd) != Toggled(!odd)
  {
    OutputDiffers(INITIAL, Flip(INITIAL));
  }

  lemma DigestsApart(b: seq<byte>, m: seq<byte>, n: seq<byte>)
    requires Odd(b, m) != Odd(b, n)
    ensures Md5(Toggle(b), m) != Md5(Toggle(b), n)
  {
    ToggleDigest(b, m);
    ToggleDigest(b, n);
    ToggledApart(Odd(b, m));
  }

  /** Two messages of one length that differ in their last block only. */
  ghost predicate OtherTail(m: seq<byte>, n: seq<byte>) {
    |m| == |n| && |m| % 64 >= 56 && Whole(m) == Whole(n) && Tail(m) != Tail(n)
  }

  lemma OtherBlock(m: seq<byte>, n: seq<byte>)
    requires OtherTail(m, n)
    ensures LastBlock(n) != LastBlock(m)
  {
    assert LastBlock(n)[..|m| % 64] == Tail(n) && LastBlock(m)[..|m| % 64] == Tail(m);
  }

  lemma OddApart(m: seq<byte>, n: seq<byte>)
    requires OtherTail(m, n)
    ensures Odd(LastBlock(m), m) != Odd(LastBlock(m), n)
  {
    OtherBlock(m, n);
    OddParts(LastBlock(m), m);
    OddParts(LastBlock(m), n);
  }

  /** They have different digests for some compression function. */
  lemma ToldApart(m: seq<byte>, n: seq<byte>)
    requires OtherTail(m, n)
    ensures Md5(Toggle(LastBlock(m)), m) != Md5(Toggle(LastBlock(m)), n)
  {
    OddApart(m, n);
    DigestsApart(LastBlock(m), m, n);
  }

  lemma LeftoverApart(m: seq<byte>)
    requires |m| % 64 >= 56 && Tail(m) != Leftover(m)
    ensures Md5(Toggle(LastBlock(m)), m) != Md5(Toggle(LastBlock(m)), AfterDigest(m))
  {
    MD5.SameTail(m);
    ToldApart(m, AfterDigest(m));
  }

  /** Main result: for whatever compression function the second digest is the first one again, if and
      only if the length had room in the block of the waiting bytes, or these bytes happen to be
      what has replaced them. */
  lemma RepeatExact(m: seq<byte>)
    ensures (forall f: Compression :: Md5(f, AfterDigest(m)) == Md5(f, m))
        <==> |m| % 64 < 56 || Tail(m) == Leftover(m)
  {
    SameMessage(m);
    if |m| % 64 >= 56 && Tail(m) != Leftover(m) {
      LeftoverApart(m);
    }
  }

  /** A message of 56 bytes, and a compression function, with two different digests. */
  lemma RepeatFails()
    ensures var m := seq(56, i => 1 as byte);
            exists f: Compression :: Md5(f, AfterDigest(m)) != Md5(f, m)
  {
    var m := seq(56, i => 1 as byte);
    assert Whole(m) == [] && Tail(m) == m;
    assert Leftover(m)[0] == Zeros(56)[0] != m[0];
    LeftoverApart(m);
  }
}
