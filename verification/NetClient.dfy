/** The read and write handlers of the two ends of a connection. */
module NetClient {
  import opened Seqs
  import opened Bytes
  import opened SocketBuffer
  import opened Framing

  ghost predicate CompleteAt(data: seq<byte>, at: nat) {
    at + HEADER <= |data| && HEADER <= WordAt(data, at) <= |data| - at
  }

  /** Parse without cutting the stream: what OnRead's loop still finds from position at on. */
  ghost function ParseFrom(data: seq<byte>, at: nat): (parsed: (seq<Packet>, nat))
    requires at <= |data|
    ensures parsed.1 <= |data|
    decreases |data| - at
  {
    if !CompleteAt(data, at) then ([], at)
    else
      var end := at + WordAt(data, at);
      var later := ParseFrom(data, end);
      ([Packet(WordAt(data, at + 2), data[at + HEADER..end])] + later.0, later.1)
  }

  lemma GoodFrame(data: seq<byte>, at: nat)
    requires at + HEADER <= |data| && WordAt(data, at) <= |data| - at && NoBadLength(data, at)
    ensures CompleteAt(data, at) && NoBadLength(data, at + WordAt(data, at))
    ensures ParseFrom(data, at).1 == ParseFrom(data, at + WordAt(data, at)).1
  {
  }

  /** A frame in the stream is the front frame of the bytes from there on. */
  lemma FrameAt(data: seq<byte>, at: nat)
    requires CompleteAt(data, at)
    ensures var b, len := data[at..], WordAt(data, at);
            && WordAt(b, 0) == len && b[len..] == data[at + len..]
            && Complete(b) && Front(b) == Packet(WordAt(data, at + 2), data[at + HEADER..at + len])
  {
    assert data[at..][HEADER..WordAt(data, at)] == data[at + HEADER..at + WordAt(data, at)];
  }

  lemma ParseOne(data: seq<byte>, at: nat, tail: Parsed)
    requires CompleteAt(data, at) && tail == Parse(data[at + WordAt(data, at)..])
    ensures var packet := Packet(WordAt(data, at + 2), data[at + HEADER..at + WordAt(data, at)]);
            Parse(data[at..]) == Parsed([packet] + tail.packets, tail.rest)
  {
    FrameAt(data, at);
  }

  lemma ClientParseOne(data: seq<byte>, at: nat)
    requires CompleteAt(data, at)
    ensures ClientParse(data[at..]).ClientOk? <==> ClientParse(data[at + WordAt(data, at)..]).ClientOk?
  {
    FrameAt(data, at);
  }

  /** One more packet is queued, and one less is still to be found. */
  lemma QueueOne(queued: seq<Packet>, data: seq<byte>, at: nat)
    requires CompleteAt(data, at)
    ensures var end := at + WordAt(data, at);
            var packet := Packet(WordAt(data, at + 2), data[at + HEADER..end]);
            queued + ParseFrom(data, at).0 == queued + [packet] + ParseFrom(data, end).0
  {
    var end := at + WordAt(data, at);
    Assoc(queued, [Packet(WordAt(data, at + 2), data[at + HEADER..end])], ParseFrom(data, end).0);
  }

  /** What ParseFrom finds, with the bytes it leaves. */
  ghost function Found(data: seq<byte>, at: nat): Parsed
    requires at <= |data|
  {
    var found := ParseFrom(data, at);
    Parsed(found.0, data[found.1..])
  }

  lemma FoundOne(data: seq<byte>, at: nat, later: Parsed)
    requires CompleteAt(data, at) && later == Found(data, at + WordAt(data, at))
    ensures var packet := Packet(WordAt(data, at + 2), data[at + HEADER..at + WordAt(data, at)]);
            Found(data, at) == Parsed([packet] + later.packets, later.rest)
  {
  }

  lemma ParseNone(data: seq<byte>, at: nat)
    requires at <= |data| && !CompleteAt(data, at)
    ensures Parse(data[at..]) == Found(data, at)
  {
    if at + HEADER <= |data| {
      assert WordAt(data[at..], 0) == WordAt(data, at);
    }
  }

  lemma {:induction false} ParseFromIsParse(data: seq<byte>, at: nat)
    requires at <= |data|
    ensures Parse(data[at..]) == Found(data, at)
    decreases |data| - at
  {
    if CompleteAt(data, at) {
      var end := at + WordAt(data, at);
      ParseFromIsParse(data, end);
      ParseOne(data, at, Parse(data[end..]));
      FoundOne(data, at, Found(data, end));
    } else {
      ParseNone(data, at);
    }
  }

  /** The second decoder finds no length below the header size from position at on. */
  ghost predicate NoBadLength(data: seq<byte>, at: nat)
    requires at <= |data|
    decreases |data| - at
  {
    if at + HEADER > |data| || WordAt(data, at) > |data| - at then true
    else HEADER <= WordAt(data, at) && NoBadLength(data, at + WordAt(data, at))
  }

  lemma ClientParseNone(data: seq<byte>, at: nat)
    requires at <= |data| && !CompleteAt(data, at)
    ensures NoBadLength(data, at) <==> ClientParse(data[at..]).ClientOk?
  {
    if at + HEADER <= |data| {
      assert WordAt(data[at..], 0) == WordAt(data, at);
    }
  }

  lemma {:induction false} NoBadLengthIsClientOk(data: seq<byte>, at: nat)
    requires at <= |data|
    ensures NoBadLength(data, at) <==> ClientParse(data[at..]).ClientOk?
    decreases |data| - at
  {
    if CompleteAt(data, at) {
      ClientParseOne(data, at);
      NoBadLengthIsClientOk(data, at + WordAt(data, at));
    } else {
      ClientParseNone(data, at);
    }
  }

  lemma ClientDecodes(data: seq<byte>)
    requires ClientParse(data).ClientOk?
    ensures NoBadLength(data, 0)
    ensures Parse(data) == Found(data, 0)
  {
    assert data[0..] == data;
    NoBadLengthIsClientOk(data, 0);
    ParseFromStart(data);
  }

  lemma ParseFromStart(data: seq<byte>)
    ensures Parse(data) == Found(data, 0)
  {
    assert data[0..] == data;
    ParseFromIsParse(data, 0);
  }

  /** What is queued and left over in the end, when some packets are queued and some bytes in the
      buffer, and more reads follow. */
  ghost function Outcome(queued: seq<Packet>, start: seq<byte>, chunks: seq<seq<byte>>): Parsed {
    var later := Feed(start, chunks);
    Parsed(queued + later.packets, later.rest)
  }

  lemma NextChunk(queued: seq<Packet>, start: seq<byte>, chunks: seq<seq<byte>>, i: nat)
    requires i < |chunks|
    ensures var now := Parse(start + chunks[i]);
            Outcome(queued, start, chunks[i..]) == Outcome(queued + now.packets, now.rest, chunks[i + 1..])
  {
    assert chunks[i..][0] == chunks[i] && chunks[i..][1..] == chunks[i + 1..];
    var now := Parse(start + chunks[i]);
    Assoc(queued, now.packets, Feed(now.rest, chunks[i + 1..]).packets);
  }

  lemma NoChunk(queued: seq<Packet>, start: seq<byte>, chunks: seq<seq<byte>>)
    ensures Outcome(queued, start, chunks[|chunks|..]) == Parsed(queued, start)
  {
    assert chunks[|chunks|..] == [];
    Neutral(queued);
  }

  lemma OutcomeOfStream(queued: seq<Packet>, packets: seq<Packet>, chunks: seq<seq<byte>>)
    requires (forall p :: p in packets ==> Sendable(p)) && Concat(chunks) <= EncodeAll(packets)
    ensures Outcome(queued, [], chunks[0..]).packets == queued + packets[..Received(packets, |Concat(chunks)|)]
    ensures Concat(chunks) == EncodeAll(packets) ==> Outcome(queued, [], chunks[0..]).rest == []
  {
    assert chunks[0..] == chunks;
    DeliveredSoFar(packets, chunks);
  }

  class CNetClient {
    const input: CSocketBuffer
    const output: CSocketBuffer
    var hasSession: bool              // m_pSession != NULL
    var sessionQueue: seq<Packet>     // what QueuePacket has handed to the session
    var sendQueue: seq<Packet>

    ghost predicate Valid()
      reads this, input, input.orig, output, output.orig
    {
      input != output && input.orig != output.orig && input.Valid() && output.Valid()
    }

    constructor ()
      ensures Valid() && fresh(input) && fresh(input.orig) && fresh(output) && fresh(output.orig)
      ensures input.Contents() == [] && output.Contents() == []
      ensures !hasSession && sessionQueue == [] && sendQueue == []
    {
      input := new CSocketBuffer();
      output := new CSocketBuffer();
      hasSession, sessionQueue, sendQueue := false, [], [];
    }

    /** The loop of OnRead: queue every complete frame. Each turn consumes at least a header.
        Without a session the packets are dropped. */
    method QueueFrames(data: seq<byte>) returns (nParsed: nat)
      modifies this`sessionQueue
      ensures nParsed == ParseFrom(data, 0).1
      ensures sessionQueue == old(sessionQueue) + if hasSession then ParseFrom(data, 0).0 else []
    {
      var buffSize := |data|;
      nParsed := 0;
      while true
        invariant 0 <= nParsed <= |data| && nParsed + buffSize == |data|
        invariant ParseFrom(data, nParsed).1 == ParseFrom(data, 0).1
        invariant hasSession ==> sessionQueue + ParseFrom(data, nParsed).0 == old(sessionQueue) + ParseFrom(data, 0).0
        invariant !hasSession ==> sessionQueue == old(sessionQueue)
        decreases buffSize
      {
        if buffSize < HEADER {
          break;
        }
        var wLen := WordAt(data, nParsed);
        if wLen < HEADER {
          break;
        }
        if wLen > buffSize {
          break;
        }
        var packet := Packet(WordAt(data, nParsed + 2), data[nParsed + HEADER..nParsed + wLen]);
        if hasSession {
          QueueOne(sessionQueue, data, nParsed);
          sessionQueue := sessionQueue + [packet];
        }
        nParsed := nParsed + wLen;
        buffSize := buffSize - wLen;
      }
    }

    /** What the loop queues, and leaves, is what Parse finds. */
    method QueuePackets(data: seq<byte>) returns (nParsed: nat, ghost parsed: Parsed)
      modifies this`sessionQueue
      ensures parsed == Parse(data) && nParsed <= |data| && data[nParsed..] == parsed.rest
      ensures sessionQueue == old(sessionQueue) + if hasSession then parsed.packets else []
    {
      parsed := Parse(data);
      ParseFromStart(data);
      nParsed := QueueFrames(data);
    }

    /** The parsed bytes leave the input buffer. */
    method EraseParsed(nParsed: nat, ghost rest: seq<byte>)
      requires Valid() && nParsed <= |input.Contents()| && input.Contents()[nParsed..] == rest
      modifies input`buffer, input`misalign, input`off
      ensures Valid()
      ensures input.Contents() == rest
    {
      if nParsed > 0 {
        input.Erase(nParsed);
      }
    }

    method OnRead()
      requires Valid()
      modifies this`sessionQueue, input`buffer, input`misalign, input`off
      ensures Valid()
      ensures input.Contents() == Parse(old(input.Contents())).rest
      ensures sessionQueue == old(sessionQueue) + if hasSession then Parse(old(input.Contents())).packets else []
    {
      var data := input.Contents();
      var nParsed, parsed := QueuePackets(data);
      EraseParsed(nParsed, parsed.rest);
    }

    /** A read event: the bytes recv delivered go to the buffer, then OnRead runs. */
    method Receive(received: seq<byte>)
      requires Valid() && |received| <= BUFFER_MAX_READ
      modifies this`sessionQueue, input, input.orig
      ensures Valid() && output.Contents() == old(output.Contents())
      ensures input.orig == old(input.orig) || fresh(input.orig)
      ensures input.Contents() == Parse(old(input.Contents()) + received).rest
      ensures sessionQueue == old(sessionQueue) +
                              if hasSession then Parse(old(input.Contents()) + received).packets else []
    {
      var n := input.SockRead(-1, received, false, true);
      OnRead();
    }

    /** The next one of a sequence of reads. */
    method ReceiveNext(chunks: seq<seq<byte>>, i: nat)
      requires Valid() && hasSession && i < |chunks| && |chunks[i]| <= BUFFER_MAX_READ
      modifies this`sessionQueue, input, input.orig
      ensures Valid() && (input.orig == old(input.orig) || fresh(input.orig))
      ensures Outcome(sessionQueue, input.Contents(), chunks[i + 1..])
           == old(Outcome(sessionQueue, input.Contents(), chunks[i..]))
    {
      NextChunk(sessionQueue, input.Contents(), chunks, i);
      Receive(chunks[i]);
    }

    /** SendSinglePacket: header and payload go to the output buffer, the header fields truncated. */
    method SendSinglePacket()
      requires Valid() && sendQueue != []
      modifies this`sendQueue, output, output.orig
      ensures Valid() && input.Contents() == old(input.Contents())
      ensures output.orig == old(output.orig) || fresh(output.orig)
      ensures sendQueue == old(sendQueue)[1..]
      ensures output.Contents() == old(output.Contents()) + Encode(old(sendQueue)[0])
    {
      var packet := sendQueue[0];
      sendQueue := sendQueue[1..];
      var hdr := Word(|packet.payload| + HEADER) + Word(packet.opcode);
      Assoc(output.Contents(), hdr, packet.payload);
      Neutral(hdr);
      var r := output.Append(hdr, true);
      if packet.payload != [] {
        r := output.Append(packet.payload, true);
      }
    }

    method OnWrite()
      requires Valid()
      modifies this`sendQueue, output, output.orig
      ensures Valid() && input.Contents() == old(input.Contents())
      ensures output.orig == old(output.orig) || fresh(output.orig)
      ensures sendQueue == [] && output.Contents() == old(output.Contents()) + EncodeAll(old(sendQueue))
    {
      ghost var all := output.Contents() + EncodeAll(sendQueue);
      while sendQueue != []
        invariant Valid() && input.Contents() == old(input.Contents())
        invariant output.orig == old(output.orig) || fresh(output.orig)
        invariant output.Contents() + EncodeAll(sendQueue) == all
        decreases |sendQueue|
      {
        Assoc(output.Contents(), Encode(sendQueue[0]), EncodeAll(sendQueue[1..]));
        SendSinglePacket();
      }
      Neutral(output.Contents());
    }
  }

  /** The whole receiving side: any sequence of reads of a stream of sendable packets hands the
      session exactly the packets that have fully arrived. */
  method ReceiveAll(client: CNetClient, packets: seq<Packet>, chunks: seq<seq<byte>>)
    requires client.Valid() && client.hasSession && client.input.Contents() == []
    requires forall p :: p in packets ==> Sendable(p)
    requires forall c :: c in chunks ==> |c| <= BUFFER_MAX_READ
    requires Concat(chunks) <= EncodeAll(packets)
    modifies client`sessionQueue, client.input, client.input.orig
    ensures client.Valid()
    ensures client.sessionQueue == old(client.sessionQueue) + packets[..Received(packets, |Concat(chunks)|)]
    ensures Concat(chunks) == EncodeAll(packets) ==> client.input.Contents() == []
  {
    ghost var all := Outcome(client.sessionQueue, [], chunks[0..]);
    OutcomeOfStream(client.sessionQueue, packets, chunks);
    for i := 0 to |chunks|
      invariant client.Valid() && (client.input.orig == old(client.input.orig) || fresh(client.input.orig))
      invariant Outcome(client.sessionQueue, client.input.Contents(), chunks[i..]) == all
    {
      client.ReceiveNext(chunks, i);
    }
    NoChunk(client.sessionQueue, client.input.Contents(), chunks);
  }

  /** The other decoder. Its caller must rule out lengths below the header size, on which its
      payload size would wrap around. */
  class CClient {
    const input: CSocketBuffer
    var hasSession: bool
    var sessionQueue: seq<Packet>

    constructor ()
      ensures input.Valid() && fresh(input) && fresh(input.orig) && input.Contents() == []
      ensures !hasSession && sessionQueue == []
    {
      input := new CSocketBuffer();
      hasSession, sessionQueue := false, [];
    }

    method QueueFrames(data: seq<byte>) returns (nParsed: nat)
      requires NoBadLength(data, 0)
      modifies this`sessionQueue
      ensures nParsed == ParseFrom(data, 0).1
      ensures sessionQueue == old(sessionQueue) + if hasSession then ParseFrom(data, 0).0 else []
    {
      var buffSize := |data|;
      nParsed := 0;
      while true
        invariant 0 <= nParsed <= |data| && nParsed + buffSize == |data|
        invariant NoBadLength(data, nParsed)
        invariant ParseFrom(data, nParsed).1 == ParseFrom(data, 0).1
        invariant hasSession ==> sessionQueue + ParseFrom(data, nParsed).0 == old(sessionQueue) + ParseFrom(data, 0).0
        invariant !hasSession ==> sessionQueue == old(sessionQueue)
        decreases buffSize
      {
        if buffSize < HEADER {
          break;
        }
        var wLen := WordAt(data, nParsed);
        if wLen > buffSize {
          break;
        }
        GoodFrame(data, nParsed);
        var packet := Packet(WordAt(data, nParsed + 2), data[nParsed + HEADER..nParsed + wLen]);
        if hasSession {
          QueueOne(sessionQueue, data, nParsed);
          sessionQueue := sessionQueue + [packet];
        }
        nParsed := nParsed + wLen;
        buffSize := buffSize - wLen;
      }
    }

    method QueuePackets(data: seq<byte>) returns (nParsed: nat, ghost parsed: Parsed)
      requires ClientParse(data).ClientOk?
      modifies this`sessionQueue
      ensures parsed == Parse(data) && nParsed <= |data| && data[nParsed..] == parsed.rest
      ensures sessionQueue == old(sessionQueue) + if hasSession then parsed.packets else []
    {
      parsed := Parse(data);
      ClientDecodes(data);
      nParsed := QueueFrames(data);
    }

    method EraseParsed(nParsed: nat, ghost rest: seq<byte>)
      requires input.Valid() && nParsed <= |input.Contents()| && input.Contents()[nParsed..] == rest
      modifies input`buffer, input`misalign, input`off
      ensures input.Valid() && input.Contents() == rest
    {
      if nParsed > 0 {
        input.Erase(nParsed);
      }
    }

    method OnRead()
      requires input.Valid() && ClientParse(input.Contents()).ClientOk?
      modifies this`sessionQueue, input`buffer, input`misalign, input`off
      ensures input.Valid() && input.Contents() == Parse(old(input.Contents())).rest
      ensures sessionQueue == old(sessionQueue) + if hasSession then Parse(old(input.Contents())).packets else []
    {
      var nParsed, parsed := QueuePackets(input.Contents());
      EraseParsed(nParsed, parsed.rest);
    }
  }
}
