/** The packet frames on a connection: a 16-bit length that counts the 4 header bytes, a 16-bit
    command, the payload. CNetClient::OnRead cuts frames out of the input buffer as they become
    complete; SendSinglePacket writes them. */
module Framing {
  import opened Seqs
  import opened Bytes

  const HEADER: nat := 4
  const MAX_PAYLOAD: nat := 65531

  /** WorldPacket: a 32-bit opcode and a payload. */
  datatype Packet = Packet(opcode: nat, payload: seq<byte>)

  /** What one OnRead finds: the complete packets, and the bytes it leaves behind. */
  datatype Parsed = Parsed(packets: seq<Packet>, rest: seq<byte>)

  // ---------------------------------------------------------------- encoding

  /** A 16-bit field in memory order (little endian); larger numbers are truncated. */
  function Word(n: nat): (w: seq<byte>)
    ensures |w| == 2
  {
    [(n % 256) as byte, (n / 256 % 256) as byte]
  }

  function WordAt(b: seq<byte>, i: nat): nat
    requires i + 2 <= |b|
  {
    b[i] as nat + 256 * (b[i + 1] as nat)
  }

  function Encode(p: Packet): seq<byte> {
    Word(|p.payload| + HEADER) + Word(p.opcode) + p.payload
  }

  function EncodeAll(ps: seq<Packet>): seq<byte> {
    if ps == [] then [] else Encode(ps[0]) + EncodeAll(ps[1..])
  }

  /** What fits the two header fields. */
  ghost predicate Sendable(p: Packet) {
    p.opcode < 65536 && |p.payload| <= MAX_PAYLOAD
  }

  // ---------------------------------------------------------------- decoding

  ghost predicate Complete(b: seq<byte>) {
    |b| >= HEADER && HEADER <= WordAt(b, 0) <= |b|
  }

  function Front(b: seq<byte>): Packet
    requires Complete(b)
  {
    Packet(WordAt(b, 2), b[HEADER..WordAt(b, 0)])
  }

  ghost function Parse(b: seq<byte>): Parsed
    decreases |b|
  {
    if !Complete(b) then Parsed([], b)
    else
      var tail := Parse(b[WordAt(b, 0)..]);
      Parsed([Front(b)] + tail.packets, tail.rest)
  }

  /** The bytes of reads arrive one after the other; every read is followed by OnRead. */
  ghost function Feed(start: seq<byte>, chunks: seq<seq<byte>>): Parsed
    decreases |chunks|
  {
    if chunks == [] then Parsed([], start)
    else
      var now := Parse(start + chunks[0]);
      var later := Feed(now.rest, chunks[1..]);
      Parsed(now.packets + later.packets, later.rest)
  }

  function Concat(chunks: seq<seq<byte>>): seq<byte> {
    if chunks == [] then [] else chunks[0] + Concat(chunks[1..])
  }

  // ---------------------------------------------------------------- framing is independent of chunking

  /** Parsing stops for good: its rest holds no further complete frame. */
  lemma {:induction false} ParseRest(b: seq<byte>)
    ensures !Complete(Parse(b).rest) && |Parse(b).rest| <= |b|
    ensures Parse(b).rest == b[|b| - |Parse(b).rest|..]
    decreases |b|
  {
    if Complete(b) {
      ParseRest(b[WordAt(b, 0)..]);
    }
  }

  lemma SameFront(a: seq<byte>, b: seq<byte>)
    requires Complete(a)
    ensures Complete(a + b) && WordAt(a + b, 0) == WordAt(a, 0) && Front(a + b) == Front(a)
    ensures (a + b)[WordAt(a, 0)..] == a[WordAt(a, 0)..] + b
  {
  }

  /** More bytes after a parse continue where it stopped, on any bytes at all. */
  lemma {:induction false} ParseAppend(a: seq<byte>, b: seq<byte>)
    ensures Parse(a + b) == Parsed(Parse(a).packets + Parse(Parse(a).rest + b).packets, Parse(Parse(a).rest + b).rest)
    decreases |a|
  {
    if Complete(a) {
      var tail := a[WordAt(a, 0)..];
      SameFront(a, b);
      ParseAppend(tail, b);
      Assoc([Front(a)], Parse(tail).packets, Parse(Parse(tail).rest + b).packets);
    } else {
      Neutral(Parse(a + b).packets);
    }
  }

  /** However the stream is split into reads, the packets and the leftover are those of one parse
      of all bytes. This holds for malformed streams too. */
  lemma {:induction false} ChunkingIndependent(start: seq<byte>, chunks: seq<seq<byte>>)
    requires !Complete(start)
    ensures Feed(start, chunks) == Parse(start + Concat(chunks))
    decreases |chunks|
  {
    if chunks == [] {
      Neutral(start);
    } else {
      var now := Parse(start + chunks[0]);
      ParseRest(start + chunks[0]);
      ChunkingIndependent(now.rest, chunks[1..]);
      ParseAppend(start + chunks[0], Concat(chunks[1..]));
      Assoc(start, chunks[0], Concat(chunks[1..]));
    }
  }

  // ---------------------------------------------------------------- round trip

  lemma WordRoundTrip(n: nat, tail: seq<byte>)
    ensures WordAt(Word(n) + tail, 0) == n % 65536
  {
    assert n % 65536 == n % 256 + 256 * (n / 256 % 256);
  }

  lemma HeaderWords(p: Packet, tail: seq<byte>)
    requires Sendable(p)
    ensures var b := Encode(p) + tail; WordAt(b, 0) == |p.payload| + HEADER && WordAt(b, 2) == p.opcode
  {
    var size, code := Word(|p.payload| + HEADER), Word(p.opcode);
    WordRoundTrip(|p.payload| + HEADER, []);
    WordRoundTrip(p.opcode, []);
    HeaderBytes(size, code, p.payload, tail);
    Neutral(size);
    Neutral(code);
  }

  lemma HeaderBytes(size: seq<byte>, code: seq<byte>, payload: seq<byte>, tail: seq<byte>)
    requires |size| == |code| == 2
    ensures var b := size + code + payload + tail; WordAt(b, 0) == WordAt(size, 0) && WordAt(b, 2) == WordAt(code, 0)
  {
  }

  /** A sendable packet is cut out again, and what follows is parsed on its own. */
  lemma EncodeFront(p: Packet, tail: seq<byte>)
    requires Sendable(p)
    ensures Complete(Encode(p) + tail) && Front(Encode(p) + tail) == p
    ensures (Encode(p) + tail)[WordAt(Encode(p) + tail, 0)..] == tail
  {
    HeaderWords(p, tail);
    FrameParts(Word(|p.payload| + HEADER), Word(p.opcode), p.payload, tail);
  }

  lemma FrameParts(size: seq<byte>, code: seq<byte>, payload: seq<byte>, tail: seq<byte>)
    requires |size| == |code| == 2
    ensures var b := size + code + payload + tail;
            b[HEADER..|payload| + HEADER] == payload && b[|payload| + HEADER..] == tail
  {
  }

  lemma ParseFrame(p: Packet, tail: seq<byte>)
    requires Sendable(p)
    ensures Parse(Encode(p) + tail) == Parsed([p] + Parse(tail).packets, Parse(tail).rest)
  {
    EncodeFront(p, tail);
  }

  /** One packet survives the wire exactly when opcode and length fit their fields. */
  lemma RoundTripExact(p: Packet)
    ensures Parse(Encode(p)) == Parsed([p], []) <==> Sendable(p)
  {
    var b := Encode(p);
    if Sendable(p) {
      EncodeFront(p, []);
      assert b + [] == b;
      assert Parse([]) == Parsed([], []);
    } else if Complete(b) {
      WordRoundTrip(|p.payload| + HEADER, Word(p.opcode) + p.payload);
      assert b == Word(|p.payload| + HEADER) + (Word(p.opcode) + p.payload);
      WordRoundTrip(p.opcode, p.payload);
      assert WordAt(b, 2) == WordAt(b[2..], 0) && b[2..] == Word(p.opcode) + p.payload;
      assert Parse(b).packets[0] == Front(b) && Front(b).opcode < 65536 && |Front(b).payload| <= MAX_PAYLOAD;
    }
  }

  /** The packets of ps whose frames lie completely within the first n bytes. */
  function Received(ps: seq<Packet>, n: nat): (k: nat)
    ensures k <= |ps|
  {
    if ps == [] || n < |Encode(ps[0])| then 0 else 1 + Received(ps[1..], n - |Encode(ps[0])|)
  }

  /** The first n bytes of a stream, taken apart: k packets, and the received part of the next frame. */
  ghost predicate TakenApart(ps: seq<Packet>, n: nat, k: nat, parsed: Parsed)
    requires k <= |ps| && n <= |EncodeAll(ps)|
  {
    && parsed.packets == ps[..k]
    && EncodeAll(ps[..k]) + parsed.rest == EncodeAll(ps)[..n]
    && (k < |ps| ==> |parsed.rest| < |Encode(ps[k])|)
  }

  lemma OneFrameMore(ps: seq<Packet>, n: nat, k: nat, later: Parsed)
    requires ps != [] && |Encode(ps[0])| <= n <= |EncodeAll(ps)| && k < |ps|
    requires TakenApart(ps[1..], n - |Encode(ps[0])|, k, later)
    ensures TakenApart(ps, n, k + 1, Parsed([ps[0]] + later.packets, later.rest))
  {
    TakeFrames(ps, k);
    TakeConcat(Encode(ps[0]), EncodeAll(ps[1..]), n);
    Assoc(Encode(ps[0]), EncodeAll(ps[1..][..k]), later.rest);
  }

  /** After the first n bytes of a stream of frames, exactly the fully received packets are out,
      in order, and the rest is the received part of the next frame. */
  lemma {:induction false} PrefixOfStream(ps: seq<Packet>, n: nat)
    requires forall p :: p in ps ==> Sendable(p)
    requires n <= |EncodeAll(ps)|
    ensures TakenApart(ps, n, Received(ps, n), Parse(EncodeAll(ps)[..n]))
    decreases |ps|
  {
    if ps == [] {
      assert EncodeAll(ps)[..n] == [];
    } else if n < |Encode(ps[0])| {
      StreamPart(ps, n);
      Neutral(EncodeAll(ps)[..n]);
    } else {
      var m := n - |Encode(ps[0])|;
      StreamStep(ps, n);
      PrefixOfStream(ps[1..], m);
      OneFrameMore(ps, n, Received(ps[1..], m), Parse(EncodeAll(ps[1..])[..m]));
    }
  }

  /** The bytes of a stream end within its first frame. */
  lemma StreamPart(ps: seq<Packet>, n: nat)
    requires ps != [] && Sendable(ps[0]) && n < |Encode(ps[0])|
    ensures n <= |EncodeAll(ps)| && Parse(EncodeAll(ps)[..n]) == Parsed([], EncodeAll(ps)[..n])
  {
    PartialFrame(ps[0], n);
    assert EncodeAll(ps)[..n] == Encode(ps[0])[..n];
  }

  lemma StreamStep(ps: seq<Packet>, n: nat)
    requires ps != [] && Sendable(ps[0]) && |Encode(ps[0])| <= n <= |EncodeAll(ps)|
    ensures var m := n - |Encode(ps[0])|;
            var tail := EncodeAll(ps[1..])[..m];
            EncodeAll(ps)[..n] == Encode(ps[0]) + tail
            && Parse(EncodeAll(ps)[..n]) == Parsed([ps[0]] + Parse(tail).packets, Parse(tail).rest)
  {
    var tail := EncodeAll(ps[1..])[..n - |Encode(ps[0])|];
    TakeConcat(Encode(ps[0]), EncodeAll(ps[1..]), n);
    ParseFrame(ps[0], tail);
  }

  lemma TakeConcat(a: seq<byte>, b: seq<byte>, n: nat)
    requires |a| <= n <= |a + b|
    ensures (a + b)[..n] == a + b[..n - |a|]
  {
  }

  lemma TakeFrames(ps: seq<Packet>, k: nat)
    requires k + 1 <= |ps|
    ensures ps[..k + 1] == [ps[0]] + ps[1..][..k]
    ensures EncodeAll(ps[..k + 1]) == Encode(ps[0]) + EncodeAll(ps[1..][..k])
  {
    assert ps[..k + 1][1..] == ps[1..][..k];
  }

  lemma PartialFrame(p: Packet, n: nat)
    requires Sendable(p) && n < |Encode(p)|
    ensures !Complete(Encode(p)[..n])
  {
    var b := Encode(p);
    if n >= HEADER {
      WordRoundTrip(|p.payload| + HEADER, Word(p.opcode) + p.payload);
      assert b == Word(|p.payload| + HEADER) + (Word(p.opcode) + p.payload);
      assert WordAt(b[..n], 0) == WordAt(b, 0);
    }
  }

  /** Main result: a stream of sendable packets, received in any pieces, delivers at every moment
      exactly the packets that have fully arrived. */
  lemma DeliveredSoFar(ps: seq<Packet>, chunks: seq<seq<byte>>)
    requires forall p :: p in ps ==> Sendable(p)
    requires Concat(chunks) <= EncodeAll(ps)
    ensures Feed([], chunks).packets == ps[..Received(ps, |Concat(chunks)|)]
    ensures |Concat(chunks)| == |EncodeAll(ps)| ==> Feed([], chunks) == Parsed(ps, [])
  {
    var n := |Concat(chunks)|;
    ChunkingIndependent([], chunks);
    Neutral(Concat(chunks));
    assert Concat(chunks) == EncodeAll(ps)[..n];
    PrefixOfStream(ps, n);
    if n == |EncodeAll(ps)| {
      WholeStream(ps, Received(ps, n), Parse(EncodeAll(ps)[..n]));
    }
  }

  /** When all has arrived nothing is left over. */
  lemma WholeStream(ps: seq<Packet>, k: nat, parsed: Parsed)
    requires k <= |ps| && TakenApart(ps, |EncodeAll(ps)|, k, parsed)
    ensures k == |ps| && parsed == Parsed(ps, [])
  {
    EncodeSplit(ps, k);
    assert |parsed.rest| == |EncodeAll(ps[k..])|;
    assert ps[..|ps|] == ps;
    if k == |ps| {
      assert EncodeAll(ps[k..]) == [];
    }
  }

  lemma {:induction false} EncodeSplit(ps: seq<Packet>, k: nat)
    requires k <= |ps|
    ensures EncodeAll(ps) == EncodeAll(ps[..k]) + EncodeAll(ps[k..])
    decreases k
  {
    if k == 0 {
      assert ps[..0] == [] && ps[0..] == ps;
      Neutral(EncodeAll(ps));
    } else {
      EncodeSplit(ps[1..], k - 1);
      TakeFrames(ps, k - 1);
      assert ps[1..][k - 1..] == ps[k..];
      Assoc(Encode(ps[0]), EncodeAll(ps[1..][..k - 1]), EncodeAll(ps[k..]));
    }
  }

  // ---------------------------------------------------------------- byte by byte

  /** Main result: the bytes of a frame. Both fields have their low byte first, and lose what lies
      above 16 bits; the length counts its own header. */
  lemma FrameBytes(p: Packet)
    ensures var b, n := Encode(p), |p.payload| + 4;
            && |b| == n && b[4..] == p.payload
            && b[0] as nat == n % 256 && b[1] as nat == n / 256 % 256
            && b[2] as nat == p.opcode % 256 && b[3] as nat == p.opcode / 256 % 256
  {
  }

  /** The first decoder takes a frame off the front as soon as all of its bytes are there, unless it
      claims to be shorter than its header. */
  lemma FrontBytes(b: seq<byte>)
    ensures Complete(b) <==>
            |b| >= 4 && b[0] as nat + 256 * (b[1] as nat) >= 4 && |b| >= b[0] as nat + 256 * (b[1] as nat)
    ensures Complete(b) ==>
              Front(b) == Packet(b[2] as nat + 256 * (b[3] as nat), b[4..b[0] as nat + 256 * (b[1] as nat)])
  {
  }

  // ---------------------------------------------------------------- the second decoder

  /** CClient::OnRead has no test for lengths below the header size: on such a frame its payload
      length wraps around. */
  datatype ClientParsed = ClientOk(parsed: Parsed) | ClientBadLength

  function ClientParse(b: seq<byte>): ClientParsed
    decreases |b|
  {
    if |b| < HEADER || WordAt(b, 0) > |b| then ClientOk(Parsed([], b))
    else if WordAt(b, 0) < HEADER then ClientBadLength
    else
      match ClientParse(b[WordAt(b, 0)..])
      case ClientOk(tail) =>
        ClientOk(Parsed([Packet(WordAt(b, 2), b[HEADER..WordAt(b, 0)])] + tail.packets, tail.rest))
      case ClientBadLength => ClientBadLength
  }

  /** The two decoders agree exactly when the first one is not stopped by such a frame. */
  lemma {:induction false} DecodersAgree(b: seq<byte>)
    ensures ClientParse(b) == ClientOk(Parse(b)) <==>
            (|Parse(b).rest| >= HEADER ==> WordAt(Parse(b).rest, 0) >= HEADER)
    ensures ClientParse(b).ClientBadLength? || ClientParse(b) == ClientOk(Parse(b))
    decreases |b|
  {
    if Complete(b) {
      DecodersAgree(b[WordAt(b, 0)..]);
    }
  }

  /** On a frame that claims to have no bytes at all the first decoder waits, and the second one goes
      wrong. */
  lemma ShortLength()
    ensures Parse([0, 0, 0, 0]) == Parsed([], [0, 0, 0, 0]) && ClientParse([0, 0, 0, 0]).ClientBadLength?
  {
    var b: seq<byte> := [0, 0, 0, 0];
    assert WordAt(b, 0) == 0;
  }
}
