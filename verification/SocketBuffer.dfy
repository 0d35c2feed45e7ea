/** CSocketBuffer: a byte queue in one array that keeps a gap (misalign) before the live bytes
    and grows by doubling. recv, send and realloc are oracles. */
module SocketBuffer {
  import opened Seqs
  import opened Bytes

  const BUFFER_MAX_READ: nat := 4096
  const BUFFER_INIT_LEN: nat := 8192

  function Min(a: nat, b: nat): (r: nat)
    ensures r <= a && r <= b && (r == a || r == b)
  {
    if a <= b then a else b
  }

  class CSocketBuffer {
    var orig: array<byte>      // m_stcBuffer.orig_buffer
    var buffer: nat            // m_stcBuffer.buffer, as an offset into orig
    var misalign: nat
    var totallen: nat
    var off: nat

    ghost predicate Valid()
      reads this, orig
    {
      buffer == misalign && misalign + off <= totallen && totallen == orig.Length
    }

    /** The queue the buffer stands for: the live window (also GetBuffer with its size). */
    function Contents(): (s: seq<byte>)
      requires Valid()
      reads this, orig
    {
      orig[misalign..misalign + off]
    }

    constructor ()
      ensures Valid() && fresh(orig) && Contents() == [] && totallen == BUFFER_INIT_LEN
    {
      orig := new byte[BUFFER_INIT_LEN];
      buffer, misalign, off := 0, 0, 0;
      totallen := BUFFER_INIT_LEN;
    }

    method Clear()
      requires Valid()
      modifies this`misalign, this`off, this`buffer
      ensures Valid() && Contents() == [] && totallen == old(totallen)
    {
      misalign := 0;
      off := 0;
      buffer := 0;
    }

    /** memmove of the live bytes to the front of the array. */
    method Align()
      requires Valid()
      modifies this`buffer, this`misalign, orig
      ensures Valid() && misalign == 0 && off == old(off) && totallen == old(totallen)
      ensures Contents() == old(Contents())
    {
      MoveDown();
      buffer := 0;
      misalign := 0;
    }

    method MoveDown()
      requires Valid()
      modifies orig
      ensures Valid() && orig[..off] == old(Contents())
    {
      var i := 0;
      while i < off
        invariant 0 <= i <= off
        invariant forall j :: 0 <= j < i ==> orig[j] == old(orig[buffer + j])
        invariant forall j :: i <= j < totallen ==> orig[j] == old(orig[j])
      {
        orig[i] := orig[buffer + i];
        i := i + 1;
      }
    }

    /** Makes room for uLen more bytes. The capacity is doubled until it fits, from at least 256.
        On failure of realloc the queue is still the same. */
    method Expand(uLen: nat, memory: bool) returns (r: int)
      requires Valid()
      modifies this, orig
      ensures Valid() && Contents() == old(Contents()) && (orig == old(orig) || fresh(orig))
      ensures r == 0 ==> misalign + off + uLen <= totallen
      ensures r == 0 <==> r != -1
      ensures memory ==> r == 0
      ensures old(totallen) <= totallen
      ensures old(misalign + off + uLen) <= old(totallen) ==> unchanged(this) && unchanged(orig)
      ensures totallen > old(totallen) ==>
                old(misalign) < uLen && (totallen == 256 || totallen < 2 * old(misalign + off + uLen))
    {
      var need := misalign + off + uLen;
      if totallen >= need {
        return 0;
      }
      if misalign >= uLen {
        Align();
      } else {
        var length := Doubled(need);
        if buffer != 0 {
          Align();
        }
        if !memory {
          return -1;
        }
        Realloc(length);
      }
      return 0;
    }

    /** The capacity doubled, from at least 256, until need fits. */
    method Doubled(need: nat) returns (length: nat)
      ensures length >= need && length >= 256 && length >= totallen
      ensures length == totallen || length == 256 || length < 2 * need
    {
      length := totallen;
      if length < 256 {
        length := 256;
      }
      while length < need
        invariant length >= 256 && length >= totallen
        invariant length == totallen || length == 256 || length < 2 * need
        decreases need - length
      {
        length := length * 2;
      }
    }

    /** realloc, which keeps the bytes. */
    method Realloc(length: nat)
      requires Valid() && misalign == 0 && totallen <= length
      modifies this`orig, this`buffer, this`totallen
      ensures Valid() && fresh(orig) && totallen == length && Contents() == old(Contents())
    {
      var newbuf := new byte[length];
      forall i | 0 <= i < totallen {
        newbuf[i] := orig[i];
      }
      assert newbuf[..off] == orig[..off];
      orig := newbuf;
      buffer := 0;
      totallen := length;
    }

    /** The room-making step that Append and SockRead share. */
    method MakeRoom(uLen: nat, memory: bool) returns (r: int)
      requires Valid()
      modifies this, orig
      ensures Valid() && Contents() == old(Contents()) && (orig == old(orig) || fresh(orig))
      ensures r == 0 ==> misalign + off + uLen <= totallen
      ensures r == 0 <==> r != -1
      ensures memory ==> r == 0
      ensures r == -1 ==> old(totallen < misalign + off + uLen && misalign < uLen)
    {
      var need := misalign + off + uLen;
      if totallen < need {
        if misalign >= uLen {
          Align();
        } else {
          r := Expand(uLen, memory);
          return;
        }
      }
      return 0;
    }

    method Append(data: seq<byte>, memory: bool) returns (r: int)
      requires Valid()
      modifies this, orig
      ensures Valid() && (orig == old(orig) || fresh(orig))
      ensures r == 0 || r == -1
      ensures Contents() == if r == 0 then old(Contents()) + data else old(Contents())
      ensures memory ==> r == 0
    {
      if |data| == 0 {
        return 0;
      }
      r := MakeRoom(|data|, memory);
      if r == -1 {
        return;
      }
      Store(data);
    }

    /** memcpy behind the live bytes. */
    method Store(data: seq<byte>)
      requires Valid() && misalign + off + |data| <= totallen
      modifies this`off, orig
      ensures Valid() && Contents() == old(Contents()) + data
    {
      var end := buffer + off;
      forall i | 0 <= i < |data| {
        orig[end + i] := data[i];
      }
      off := off + |data|;
      assert Contents()[..old(off)] == old(Contents());
      assert Contents()[old(off)..] == data;
    }

    method Erase(uLen: nat)
      requires Valid()
      modifies this`buffer, this`misalign, this`off
      ensures Valid() && Contents() == old(Contents())[Min(uLen, old(off))..]
    {
      if uLen >= off {
        off := 0;
        buffer := 0;
        misalign := 0;
        return;
      }
      buffer := buffer + uLen;
      misalign := misalign + uLen;
      off := off - uLen;
    }

    method Reset()
      requires Valid()
      modifies this`buffer, this`misalign, this`off
      ensures Valid() && Contents() == []
    {
      Erase(off);
    }

    method BufferRead(uLen: nat) returns (data: seq<byte>)
      requires Valid()
      modifies this`buffer, this`misalign, this`off
      ensures Valid() && |data| == Min(uLen, old(off))
      ensures old(Contents()) == data + Contents()
    {
      var nread := uLen;
      if nread >= off {
        nread := off;
      }
      data := orig[buffer..buffer + nread];
      ghost var queue := Contents();
      assert data == queue[..nread];
      Halves(queue, nread);
      Erase(nread);
    }

    /** SockRead: ask recv for up to howMuch bytes (4096 when negative or larger). received is what
        recv delivers, or nothing when failed is set. A failed realloc empties the queue. */
    method SockRead(howMuch: int, received: seq<byte>, failed: bool, memory: bool) returns (n: int)
      requires Valid()
      requires |received| <= if howMuch < 0 || howMuch > BUFFER_MAX_READ then BUFFER_MAX_READ else howMuch
      modifies this, orig
      ensures Valid() && (orig == old(orig) || fresh(orig))
      ensures n == -1 || n == |received|
      ensures memory ==> (n == -1 <==> failed)
      ensures n >= 0 ==> Contents() == old(Contents()) + received
      ensures n == -1 ==> Contents() == old(Contents()) || (!memory && Contents() == [])
    {
      var want := if howMuch < 0 || howMuch > BUFFER_MAX_READ then BUFFER_MAX_READ else howMuch;
      var r := MakeRoom(want, memory);
      if r == -1 {
        Reset();
        return -1;
      }
      if failed {
        return -1;
      }
      if |received| == 0 {
        return 0;
      }
      Store(received);
      return |received|;
    }

    /** Sends: send takes the first accepted bytes, or fails (negative) or takes none. */
    method Sends(accepted: int) returns (n: int)
      requires Valid() && accepted <= off
      modifies this`buffer, this`misalign, this`off
      ensures Valid() && n == if accepted < 0 then -1 else accepted
      ensures Contents() == if accepted <= 0 then old(Contents()) else old(Contents())[accepted..]
    {
      if accepted < 0 {
        return -1;
      }
      if accepted == 0 {
        return 0;
      }
      Erase(accepted);
      return accepted;
    }
  }
}
