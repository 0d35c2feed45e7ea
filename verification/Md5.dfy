/** The MD5 class: a 64-byte block buffer, the registers and a bit counter of two words, all
    updated in place. The compression function is a parameter. */
module Md5Stream {
  import opened Seqs
  import opened Bytes
  import opened Md5Spec

  // ---------------------------------------------------------------- the 32-bit block index

  /** The index i of update() after k turns of its loop over blocks, when index bytes were waiting. */
  function BlockIndex(index: nat, k: nat): nat
    requires index < 64
  {
    (64 - index + 64 * k) % WORD
  }

  /** It starts behind the bytes that fill the buffer, and goes on by blocks. */
  lemma NextIndex(index: nat, k: nat)
    requires index < 64
    ensures BlockIndex(index, 0) == 64 - index && BlockIndex(index, k + 1) == (BlockIndex(index, k) + 64) % WORD
  {
    var n := 64 - index + 64 * k;
    assert n == WORD * (n / WORD) + n % WORD;
    Shifted(n % WORD + 64, n / WORD);
  }

  lemma Shifted(a: nat, q: nat)
    ensures (a + WORD * q) % WORD == a % WORD
  {
  }

  /** The loop goes on while i + 63 < length, in 32 bits on the left. */
  predicate Stops(i: nat, length: nat) {
    (i + 63) % WORD >= length
  }

  /** Main result: an update returns if and only if the waiting bytes and the new ones are together
      fewer than 2^32. Otherwise the index wraps before it reaches the end, again and again. */
  lemma UpdateReturnsExact(index: nat, length: nat)
    requires index < 64
    ensures (length < 64 - index || exists k: nat :: Stops(BlockIndex(index, k), length)) <==> index + length < WORD
  {
    if length >= 64 - index {
      if index + length < WORD {
        var k := (index + length) / 64 - 1;
        LastIndex(index, length, k);
      } else {
        forall k: nat ensures !Stops(BlockIndex(index, k), length) {
          NeverStops(index, length, k);
        }
      }
    }
  }

  lemma LastIndex(index: nat, length: nat, k: nat)
    requires index < 64 && 64 - index <= length && index + length < WORD && k == (index + length) / 64 - 1
    ensures Stops(BlockIndex(index, k), length)
  {
    var q := (index + length) / 64;
    assert 64 * q <= index + length < 64 * q + 64;
    MultipleBelow(q);
    var i := 64 * q - index;
    assert i == 64 - index + 64 * k && i + 63 < WORD;
    Reduced(i);
    Reduced(i + 63);
  }

  lemma MultipleBelow(q: nat)
    requires 64 * q < WORD
    ensures 64 * q <= WORD - 64
  {
  }

  lemma Reduced(n: nat)
    requires n < WORD
    ensures n % WORD == n
  {
  }

  /** i + 63 is 63 - index more than a multiple of 64, so it stays below 2^32 - index. */
  lemma NeverStops(index: nat, length: nat, k: nat)
    requires index < 64 && index + length >= WORD
    ensures !Stops(BlockIndex(index, k), length)
  {
    var n := 64 - index + 64 * k;
    var q := n / WORD;
    var i := BlockIndex(index, k);
    assert n == WORD * q + i;
    var j := k + 1 - 0x400_0000 * q;
    assert i == 64 * j - index;
    if i + 63 < WORD {
      Reduced(i + 63);
      assert 64 * j + 63 - index < WORD;
      MultipleBelow(j);
    } else {
      assert (i + 63) % WORD == i + 63 - WORD;
    }
  }

  /** On an update that returns no index wraps. */
  lemma IndexFits(from: nat, k: nat, length: nat)
    requires 1 <= from <= 64 && from + 64 * k <= length && 64 - from + length < WORD
    ensures BlockIndex(64 - from, k) == from + 64 * k && (from + 64 * k + 63) % WORD == from + 64 * k + 63
  {
    MultipleBelow(k + 1);
    Reduced(from + 64 * k);
    Reduced(from + 64 * k + 63);
  }

  // ---------------------------------------------------------------- the buffer

  /** The buffer after an update with input, when index bytes were waiting in it. */
  ghost function BufferAfter(buffer: seq<byte>, index: nat, input: seq<byte>): (r: seq<byte>)
    requires |buffer| == 64 && index < 64
    ensures |r| == 64
  {
    if index + |input| < 64 then buffer[..index] + input + buffer[index + |input|..]
    else
      var rest := (index + |input|) % 64;
      input[|input| - rest..] + (buffer[..index] + input[..64 - index])[rest..]
  }

  /** What the object stands for after digest(): the same message if its last block had room for
      the length. Otherwise the padding has overwritten the waiting bytes. */
  ghost function AfterDigest(m: seq<byte>): (r: seq<byte>)
    ensures |r| == |m|
  {
    if |m| % 64 < 56 then m else Whole(m) + (Zeros(56) + BitLength(|m|))[..|m| % 64]
  }

  /** The two counter words hold the number of bits of length bytes. */
  ghost predicate Counts(c0: word, c1: word, length: nat) {
    c0 + WORD * c1 == BitsMod(length)
  }

  function BitsMod(length: nat): nat {
    8 * length % DWORD
  }

  class MD5 {
    const transform: Compression
    var state: Chain
    var count0: word            // number of bits, low word
    var count1: word            // number of bits, high word
    const buffer: array<byte>
    var digest: seq<byte>
    var finished: bool
    ghost var message: seq<byte>

    /** Counter, registers and buffer stand for the message. */
    ghost predicate Tracks()
      reads this, buffer
    {
      && buffer.Length == 64
      && Counts(count0, count1, |message|)
      && state == Fold(transform, INITIAL, Whole(message))
      && buffer[..][..|message| % 64] == Tail(message)
    }

    ghost predicate Valid()
      reads this, buffer
    {
      Tracks() && !finished
    }

    constructor (f: Compression)
      ensures Valid() && message == [] && transform == f && fresh(buffer)
    {
      transform := f;
      buffer := new byte[64];
      state, count0, count1, finished := INITIAL, 0, 0, false;
      digest, message := [], [];
    }

    method Reset()
      requires buffer.Length == 64
      modifies this
      ensures Valid() && message == []
    {
      finished := false;
      count0, count1 := 0, 0;
      state := INITIAL;
      message := [];
    }

    /** The number of bytes waiting in the buffer. */
    static lemma WaitingBytes(c0: word, c1: word, length: nat)
      requires Counts(c0, c1, length)
      ensures c0 / 8 % 64 == length % 64
    {
      var q := 8 * length / DWORD;
      var k := c1 + WORD * q;
      assert 8 * length == c0 + WORD * k;
      assert length == c0 / 8 + 64 * (8388608 * k);
      DropMultiple64(c0 / 8, 8388608 * k);
    }

    static lemma DropMultiple64(n: nat, q: nat)
      ensures (n + 64 * q) % 64 == n % 64
    {
    }

    /** Counting bits: the carry out of the low word is detected by the wrapped sum being smaller. */
    static function AddBits(c0: word, c1: word, length: word): (word, word) {
      var low := length * 8 % WORD;
      var n0 := (c0 + low) % WORD;
      var carried := if n0 < low then (c1 + 1) % WORD else c1;
      (n0, (carried + length / 0x2000_0000) % WORD)
    }

    /** The counting step of update(). A length beyond 32 bits is cut off first. */
    method CountStep(length: nat)
      modifies this`count0, this`count1
      ensures (count0, count1) == AddBits(old(count0), old(count1), length % WORD)
    {
      var cut := length % WORD;
      var low := cut * 8 % WORD;
      count0 := (count0 + low) % WORD;
      if count0 < low {
        count1 := (count1 + 1) % WORD;
      }
      count1 := (count1 + cut / 0x2000_0000) % WORD;
    }

    method CountBits(length: nat, ghost counted: nat, ghost total: nat)
      requires Counts(count0, count1, counted) && total == counted + length % WORD
      modifies this`count0, this`count1
      ensures Counts(count0, count1, total)
    {
      AddBitsCounts(count0, count1, counted, length % WORD, total);
      CountStep(length);
    }

    static lemma AddBitsCounts(c0: word, c1: word, counted: nat, length: word, total: nat)
      requires Counts(c0, c1, counted) && total == counted + length
      ensures var (n0, n1) := AddBits(c0, c1, length); Counts(n0, n1, total)
    {
      Carry(c0, c1, length);
      CountAppend(counted, length);
    }

    static lemma DropMultiple(n: nat, q: nat)
      ensures (n + DWORD * q) % DWORD == n % DWORD
    {
    }

    static lemma Carry(c0: word, c1: word, length: nat)
      requires length < WORD
      ensures var (n0, n1) := AddBits(c0, c1, length); n0 + WORD * n1 == (c0 + WORD * c1 + 8 * length) % DWORD
    {
      var high, r := length / 0x2000_0000, length % 0x2000_0000;
      EightTimes(high, r);
      assert length * 8 == WORD * high + 8 * r && length * 8 % WORD == 8 * r;
      AddWords(c0, c1, 8 * r, high);
    }

    /** Adding to the low word, with the carry. */
    static lemma AddWords(c0: word, c1: word, low: word, high: nat)
      ensures var n0 := (c0 + low) % WORD;
              var n1 := ((if n0 < low then (c1 + 1) % WORD else c1) + high) % WORD;
              n0 + WORD * n1 == (c0 + WORD * c1 + (WORD * high + low)) % DWORD
    {
      if c0 + low < WORD {
        Reduced(c0 + low);
        Recombine(c0 + WORD * c1 + (WORD * high + low), c0 + low, c1 + high);
      } else {
        assert (c0 + low) % WORD == c0 + low - WORD < low;
        Recombine(c0 + WORD * c1 + (WORD * high + low), c0 + low - WORD, c1 + 1 + high);
        TwiceMod(c1 + 1, high);
      }
    }

    static lemma EightTimes(high: nat, r: nat)
      requires r < 0x2000_0000
      ensures (high * 0x2000_0000 + r) * 8 % WORD == 8 * r
    {
    }

    static lemma TwiceMod(a: nat, b: nat)
      ensures (a % WORD + b) % WORD == (a + b) % WORD
    {
      assert a + b == a % WORD + b + WORD * (a / WORD);
      Shifted(a % WORD + b, a / WORD);
    }

    static lemma Recombine(n: nat, n0: word, high: nat)
      requires n == n0 + WORD * high
      ensures n0 + WORD * (high % WORD) == n % DWORD
    {
      var q := high / WORD;
      assert n == n0 + WORD * (high % WORD) + DWORD * q;
      DropMultiple(n0 + WORD * (high % WORD), q);
    }

    static lemma NextBlock(before: seq<byte>, input: seq<byte>, from: nat, i: nat)
      requires from <= i && i + 64 <= |input|
      ensures before + input[from..i] + input[i..i + 64] == before + input[from..i + 64]
    {
      var a, b := input[from..i], input[i..i + 64];
      assert a + b == input[from..i + 64];
      Assoc(before, a, b);
    }

    /** One turn of the loop that follows. */
    method TransformOne(input: seq<byte>, from: nat, i: nat, ghost before: seq<byte>)
      requires from <= i && i + 64 <= |input| && |before| % 64 == 0 && (i - from) % 64 == 0
      requires state == Fold(transform, INITIAL, before + input[from..i])
      modifies this`state
      ensures state == Fold(transform, INITIAL, before + input[from..i + 64])
    {
      FoldBlock(transform, INITIAL, before + input[from..i], input[i..i + 64]);
      NextBlock(before, input, from, i);
      state := transform(state, input[i..i + 64]);
    }

    /** Blocks of the input that are hashed where they lie. The index has 32 bits. */
    method TransformBlocks(input: seq<byte>, from: nat, ghost before: seq<byte>) returns (i: nat)
      requires 1 <= from <= 64 && from <= |input| && 64 - from + |input| < WORD && |before| % 64 == 0
      requires state == Fold(transform, INITIAL, before)
      modifies this`state
      ensures from <= i <= |input| && (i - from) % 64 == 0 && |input| - i < 64
      ensures state == Fold(transform, INITIAL, before + input[from..i])
    {
      i := from;
      ghost var k: nat := 0;
      assert before + input[from..from] == before;
      IndexFits(from, k, |input|);
      while (i + 63) % WORD < |input|
        invariant i == BlockIndex(64 - from, k) == from + 64 * k <= |input| && (i + 63) % WORD == i + 63
        invariant state == Fold(transform, INITIAL, before + input[from..i])
        decreases |input| - i
      {
        TransformOne(input, from, i, before);
        NextIndex(64 - from, k);
        i, k := (i + 64) % WORD, k + 1;
        Reduced(from + 64 * k);
        IndexFits(from, k, |input|);
      }
      assert i - from == 64 * k;
    }

    /** memcpy into the buffer. */
    method Store(index: nat, data: seq<byte>)
      requires buffer.Length == 64 && index + |data| <= 64
      modifies buffer
      ensures buffer[..] == old(buffer[..])[..index] + data + old(buffer[..])[index + |data|..]
    {
      forall k | 0 <= k < |data| {
        buffer[index + k] := data[k];
      }
    }

    static lemma FullBlock(before: seq<byte>, index: nat, data: seq<byte>)
      requires index + |data| == |before|
      ensures before[..index] + data + before[index + |data|..] == before[..index] + data
    {
    }

    /** The branch of Update that has at least one full block to hash. */
    method TransformFull(input: seq<byte>, index: nat) returns (i: nat)
      requires buffer.Length == 64 && index == |message| % 64 && 64 - index <= |input| && index + |input| < WORD
      requires state == Fold(transform, INITIAL, Whole(message)) && buffer[..][..index] == Tail(message)
      modifies this`state, buffer
      ensures 0 < i <= |input| && (|message| + i) % 64 == 0 && |input| - i < 64
      ensures state == Fold(transform, INITIAL, message + input[..i])
      ensures buffer[..] == old(buffer[..])[..index] + input[..64 - index]
    {
      var partLen := 64 - index;
      ghost var before := buffer[..];
      Store(index, input[..partLen]);
      var block := buffer[..];
      FullBlock(before, index, input[..partLen]);
      FoldBlock(transform, INITIAL, Whole(message), block);
      state := transform(state, block);
      i := TransformBlocks(input, partLen, Whole(message) + block);
      JoinBlock(message, input, partLen, i);
    }

    static lemma JoinBlock(m: seq<byte>, input: seq<byte>, partLen: nat, i: nat)
      requires partLen <= i <= |input|
      ensures Whole(m) + (Tail(m) + input[..partLen]) + input[partLen..i] == m + input[..i]
    {
      var w, t, a, b := Whole(m), Tail(m), input[..partLen], input[partLen..i];
      assert a + b == input[..i];
      Join4(w, t, a, b);
    }

    static lemma Join4(w: seq<byte>, t: seq<byte>, a: seq<byte>, b: seq<byte>)
      ensures w + (t + a) + b == (w + t) + (a + b)
    {
    }

    /** Registers and buffer after an update; index bytes are waiting. */
    method Absorb(input: seq<byte>, start: nat)
      requires buffer.Length == 64 && start == |message| % 64 && start + |input| < WORD
      requires state == Fold(transform, INITIAL, Whole(message)) && buffer[..][..start] == Tail(message)
      modifies this`state, buffer
      ensures state == Fold(transform, INITIAL, Whole(message + input))
      ensures buffer[..] == BufferAfter(old(buffer[..]), start, input)
      ensures buffer[..][..|message + input| % 64] == Tail(message + input)
    {
      if |input| >= 64 - start {
        AbsorbBlocks(input, start);
      } else {
        ghost var before := buffer[..];
        Store(start, input);
        AbsorbedShort(message, before, input);
      }
    }

    /** Its first branch: full blocks are hashed, the rest goes to the front of the buffer. */
    method AbsorbBlocks(input: seq<byte>, start: nat)
      requires buffer.Length == 64 && start == |message| % 64 && 64 - start <= |input| && start + |input| < WORD
      requires state == Fold(transform, INITIAL, Whole(message)) && buffer[..][..start] == Tail(message)
      modifies this`state, buffer
      ensures state == Fold(transform, INITIAL, Whole(message + input))
      ensures buffer[..] == BufferAfter(old(buffer[..]), start, input)
      ensures buffer[..][..|message + input| % 64] == Tail(message + input)
    {
      ghost var before := buffer[..];
      var i := TransformFull(input, start);
      ghost var filled := buffer[..];
      Store(0, input[i..]);
      SplitMessage(message, input, i);
      StoredBuffer(message, before, filled, input, i);
    }

    static lemma AbsorbedShort(m: seq<byte>, before: seq<byte>, input: seq<byte>)
      requires |before| == 64 && before[..|m| % 64] == Tail(m) && |m| % 64 + |input| < 64
      ensures var after := before[..|m| % 64] + input + before[|m| % 64 + |input|..];
              && Whole(m + input) == Whole(m)
              && after == BufferAfter(before, |m| % 64, input) && after[..|m + input| % 64] == Tail(m + input)
    {
      SplitMessage(m, input, 0);
      assert input[0..] == input;
      StoredBuffer(m, before, before, input, 0);
    }

    /** Called on exactly the inputs on which update() returns. */
    method Update(input: seq<byte>)
      requires Tracks() && |message| % 64 + |input| < WORD
      modifies this, buffer
      ensures Valid() && message == old(message) + input
      ensures buffer[..] == BufferAfter(old(buffer[..]), |old(message)| % 64, input)
    {
      finished := false;
      var index := count0 / 8 % 64;
      WaitingBytes(count0, count1, |message|);
      Reduced(|input|);
      CountBits(|input|, |message|, |message + input|);
      Absorb(input, index);
      message := message + input;
    }

    static lemma CountAppend(a: nat, b: nat)
      ensures (BitsMod(a) + 8 * b) % DWORD == BitsMod(a + b)
    {
    }

    static lemma StoredBuffer(m: seq<byte>, before: seq<byte>, filled: seq<byte>, input: seq<byte>, i: nat)
      requires |before| == 64 && before[..|m| % 64] == Tail(m) && i <= |input|
      requires if i == 0 then filled == before && |m| % 64 + |input| < 64
               else 64 - |m| % 64 <= |input| && filled == before[..|m| % 64] + input[..64 - |m| % 64]
                    && (|m| + i) % 64 == 0 && |input| - i < 64
      ensures var index := if i == 0 then |m| % 64 else 0;
              var after := filled[..index] + input[i..] + filled[index + (|input| - i)..];
              after == BufferAfter(before, |m| % 64, input) && after[..|m + input| % 64] == Tail(m + input)
    {
      SplitMessage(m, input, i);
      if i == 0 {
        Remainder(|m| + |input|, |m| / 64, |m| % 64 + |input|);
        StoredShort(before, |m| % 64, input);
      } else {
        RestLength(|m|, |input|, i);
        StoredLong(before, |m| % 64, filled, input, i);
      }
    }

    static lemma StoredShort(before: seq<byte>, index: nat, input: seq<byte>)
      requires |before| == 64 && index + |input| < 64
      ensures var after := before[..index] + input + before[index + |input|..];
              after == BufferAfter(before, index, input) && after[..index + |input|] == before[..index] + input
    {
    }

    static lemma StoredLong(before: seq<byte>, index: nat, filled: seq<byte>, input: seq<byte>, i: nat)
      requires |before| == 64 && index < 64 <= index + |input| && i <= |input| && |input| - i < 64
      requires (index + |input|) % 64 == |input| - i && filled == before[..index] + input[..64 - index]
      ensures var after := filled[..0] + input[i..] + filled[|input| - i..];
              after == BufferAfter(before, index, input) && after[..|input| - i] == input[i..]
    {
    }

    static lemma RestLength(m: nat, length: nat, i: nat)
      requires i <= length && (m + i) % 64 == 0 && length - i < 64
      ensures (m % 64 + length) % 64 == length - i && (m + length) % 64 == length - i
    {
      var k, q := (m + i) / 64, m / 64;
      assert m + i == 64 * k && m == 64 * q + m % 64;
      Remainder(m + length, k, length - i);
      Remainder(m % 64 + length, k - q, length - i);
    }

    static lemma SplitMessage(m: seq<byte>, input: seq<byte>, i: nat)
      requires i <= |input|
      requires if i == 0 then |m| % 64 + |input| < 64 else (|m| + i) % 64 == 0 && |input| - i < 64
      ensures i == 0 ==> Whole(m + input) == Whole(m) && Tail(m + input) == Tail(m) + input
      ensures i != 0 ==> Whole(m + input) == m + input[..i] && Tail(m + input) == input[i..]
    {
    }

    // -------------------------------------------------------------- the digest

    /** The bytes 0x80, 0, 0, ... of the constant PADDING. */
    static function PaddingBytes(n: nat): (p: seq<byte>)
      requires 1 <= n <= 64
      ensures |p| == n
    {
      [0x80 as byte] + Zeros(n - 1)
    }

    /** The two counter words are the length field. */
    lemma BitsField(n: nat)
      requires Counts(count0, count1, n)
      ensures Le(count0, 4) + Le(count1, 4) == BitLength(n)
    {
      assert Span(4) == WORD;
      LeConcat(count0, count1, 4, 4);
    }

    /** What the two updates of final() do to the buffer. */
    static lemma FinalBuffer(buffer0: seq<byte>, m: seq<byte>, pad: seq<byte>, bits: seq<byte>)
      requires |buffer0| == 64 && buffer0[..|m| % 64] == Tail(m)
      requires pad == Padding(|m|) && bits == BitLength(|m|)
      ensures var after := BufferAfter(BufferAfter(buffer0, |m| % 64, pad), |m + pad| % 64, bits);
              after[..|m| % 64] == Tail(AfterDigest(m))
    {
      PaddingLength(|m|);
      assert |m + pad| % 64 == 56;
      LengthStored(BufferAfter(buffer0, |m| % 64, pad), bits);
      if |m| % 64 < 56 {
        PaddedBehind(buffer0, |m|);
      } else {
        PaddedOver(buffer0, |m|);
        SameTail(m);
      }
    }

    /** With room for the length the padding does not touch the waiting bytes. */
    static lemma PaddedBehind(buffer0: seq<byte>, length: nat)
      requires |buffer0| == 64 && length % 64 < 56
      ensures BufferAfter(buffer0, length % 64, Padding(length))[..length % 64] == buffer0[..length % 64]
    {
      PaddingLength(length);
    }

    static lemma PaddedOver(buffer0: seq<byte>, length: nat)
      requires |buffer0| == 64 && length % 64 >= 56
      ensures BufferAfter(buffer0, length % 64, Padding(length))[..56] == Zeros(56)
    {
      PaddingLength(length);
      var pad := Padding(length);
      assert pad[|pad| - 56..] == Zeros(56);
    }

    /** The length field always fills the block up. */
    static lemma LengthStored(first: seq<byte>, bits: seq<byte>)
      requires |first| == 64 && |bits| == 8
      ensures BufferAfter(first, 56, bits) == first[..56] + bits
    {
    }

    static lemma SameTail(m: seq<byte>)
      requires |m| % 64 >= 56
      ensures Whole(AfterDigest(m)) == Whole(m)
      ensures Tail(AfterDigest(m)) == (Zeros(56) + BitLength(|m|))[..|m| % 64]
    {
    }

    static lemma SameWhole(m: seq<byte>)
      ensures Whole(AfterDigest(m)) == Whole(m)
    {
      if |m| % 64 >= 56 {
        SameTail(m);
      }
    }

    /** The two updates of final(). */
    method PadAndLength()
      requires Tracks()
      modifies this, buffer
      ensures state == Fold(transform, INITIAL, old(message) + Padding(|old(message)|) + BitLength(|old(message)|))
      ensures buffer[..][..|old(message)| % 64] == Tail(AfterDigest(old(message)))
      ensures !finished
    {
      ghost var m, buffer0 := message, buffer[..];
      var bits := Le(count0, 4) + Le(count1, 4);
      BitsField(|m|);
      var index := count0 / 8 % 64;
      WaitingBytes(count0, count1, |m|);
      var padLen := if index < 56 then 56 - index else 120 - index;
      PaddingLength(|m|);
      var pad := PaddingBytes(padLen);
      assert pad == Padding(|m|);
      Update(pad);
      Update(bits);
      PaddedIsWhole(m);
      FinalBuffer(buffer0, m, pad, bits);
    }

    /** final(): pad, append the length, output; then registers and counter are restored. The
        buffer is not. */
    method Final()
      requires Tracks()
      modifies this, buffer
      ensures Valid() && digest == Md5(transform, old(message)) && message == AfterDigest(old(message))
    {
      var oldState, oldCount0, oldCount1 := state, count0, count1;
      ghost var m := message;
      PadAndLength();
      digest := Output(state);
      state := oldState;
      count0, count1 := oldCount0, oldCount1;
      message := AfterDigest(m);
      SameWhole(m);
    }

    /** digest(). The finished flag never stays set, because final() itself calls update(). */
    method Digest() returns (d: seq<byte>)
      requires Valid()
      modifies this, buffer
      ensures Valid() && d == digest == Md5(transform, old(message)) && message == AfterDigest(old(message))
    {
      if !finished {
        finished := true;
        Final();
      }
      return digest;
    }
  }

  /** Every update of the pieces in turn returns. */
  ghost predicate Updatable(pieces: seq<seq<byte>>) {
    forall i :: 0 <= i < |pieces| ==> |Concat(pieces[..i])| % 64 + |pieces[i]| < WORD
  }

  /** Main result: however a message is cut into updates, the digest is that of the message. */
  method HashPieces(f: Compression, pieces: seq<seq<byte>>) returns (d: seq<byte>)
    requires Updatable(pieces)
    ensures d == Md5(f, Concat(pieces))
  {
    var md5 := new MD5(f);
    for i := 0 to |pieces|
      invariant md5.Valid() && fresh(md5) && fresh(md5.buffer)
      invariant md5.transform == f && md5.message == Concat(pieces[..i])
    {
      assert pieces[..i + 1][..i] == pieces[..i];
      md5.Update(pieces[i]);
    }
    assert pieces[..|pieces|] == pieces;
    d := md5.Digest();
  }

  /** Two digests in a row. */
  method DigestTwice(md5: MD5) returns (first: seq<byte>, second: seq<byte>)
    requires md5.Valid()
    modifies md5, md5.buffer
    ensures first == Md5(md5.transform, old(md5.message))
    ensures second == Md5(md5.transform, AfterDigest(old(md5.message)))
  {
    first := md5.Digest();
    second := md5.Digest();
  }
}
