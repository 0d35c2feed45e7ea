/** ByteBuffer: a growing store with a read and a write position, and the operators that send
    AnyType values through it. */
module ByteBuffer {

  import opened Seqs
  import opened Bytes
  import opened AnyType

  class ByteBuffer {
    var rpos: nat
    var wpos: nat
    var storage: seq<byte>

    ghost predicate Valid()
      reads this
    {
      wpos <= |storage|
    }

    ghost function Contents(): seq<byte>
      reads this
      requires Valid()
    {
      storage[..wpos]
    }

    constructor ()
      ensures Valid() && Contents() == [] && rpos == 0
    {
      rpos, wpos := 0, 0;
      storage := seq(0x1000, _ => 0);
    }

    method Clear()
      requires Valid()
      modifies this`rpos, this`wpos
      ensures Valid() && Contents() == [] && rpos == 0
    {
      rpos, wpos := 0, 0;
    }

    /** The store grows with zero bytes when the write does not fit; then the bytes are copied. */
    method Append(src: seq<byte>)
      requires Valid()
      modifies this`wpos, this`storage
      ensures Valid() && Contents() == old(Contents()) + src
    {
      var cnt := |src|;
      if cnt == 0 {
        return;
      }
      if |storage| < wpos + cnt {
        storage := storage + seq(wpos + cnt - |storage|, _ => 0);
      }
      storage := storage[..wpos] + src + storage[wpos + cnt..];
      wpos := wpos + cnt;
    }

    method AppendNum(n: nat, width: nat)
      requires Valid()
      modifies this`wpos, this`storage
      ensures Valid() && Contents() == old(Contents()) + Le(n, width)
    {
      Append(Le(n, width));
    }

    method AppendString(s: seq<byte>)
      requires Valid()
      modifies this`wpos, this`storage
      ensures Valid() && Contents() == old(Contents()) + (s + [0])
    {
      Append(s);
      Append([0]);
    }

    method ReadNum(width: nat) returns (n: nat)
      requires Valid()
      modifies this`rpos
      ensures n == NumAt(Contents(), old(rpos), width) && rpos == old(rpos) + width
    {
      if rpos + width > wpos {
        n := 0;
      } else {
        n := UnLe(storage[rpos..rpos + width]);
        assert Contents()[rpos..rpos + width] == storage[rpos..rpos + width];
      }
      rpos := rpos + width;
    }

    method ReadString() returns (s: seq<byte>)
      requires Valid()
      modifies this`rpos
      ensures (s, rpos) == StrAt(Contents(), old(rpos))
    {
      ghost var all := StrAt(Contents(), rpos);
      s := [];
      Neutral(all.0);
      while rpos < wpos
        invariant all == (s + StrAt(Contents(), rpos).0, StrAt(Contents(), rpos).1)
        decreases wpos - rpos
      {
        ghost var pos := rpos;
        var c := ReadNum(1);
        assert c == storage[pos] as nat by {
          assert Contents()[pos..pos + 1] == [storage[pos]];
          assert [storage[pos]][1..] == [];
        }
        if c == 0 {
          break;
        }
        Assoc(s, [storage[pos]], StrAt(Contents(), pos + 1).0);
        s := s + [c as byte];
      }
      Neutral(s);
    }

    // -------------------------------------------------------------- AnyType through the buffer

    method WriteAny(a: Any)
      requires Valid()
      modifies this`wpos, this`storage
      ensures Valid() && Contents() == old(Contents()) + Write(a)
      decreases a, 1
    {
      Assoc(Contents(), [(Tag(a) % 256) as byte], Payload(a));
      Append([(Tag(a) % 256) as byte]);
      WritePayload(a);
    }

    method WritePayload(a: Any)
      requires Valid()
      modifies this`wpos, this`storage
      ensures Valid() && Contents() == old(Contents()) + Payload(a)
      decreases a, 0
    {
      match a
      case Null => Neutral(Contents());
      case Num(t, bits) => AppendNum(bits, Width(t));
      case Str(chars) => AppendString(chars);
      case Vec(items) => WriteVector(items);
      case Map1A(entries) => WriteMap(entries);
    }

    method WriteVector(items: seq<Any>)
      requires Valid()
      modifies this`wpos, this`storage
      ensures Valid() && Contents() == old(Contents()) + (Le(|items|, 4) + WriteItems(items))
      decreases items
    {
      ghost var was := Contents();
      AppendNum(|items|, 4);
      var i := 0;
      ghost var all := Contents() + WriteItems(items);
      while i < |items|
        invariant Valid() && 0 <= i <= |items|
        invariant Contents() + WriteItems(items[i..]) == all
      {
        assert items[i..][0] == items[i] && items[i..][1..] == items[i + 1..];
        Assoc(Contents(), Write(items[i]), WriteItems(items[i + 1..]));
        WriteAny(items[i]);
        i := i + 1;
      }
      Neutral(Contents());
      Assoc(was, Le(|items|, 4), WriteItems(items));
    }

    method WriteMap(entries: seq<Entry>)
      requires Valid()
      modifies this`wpos, this`storage
      ensures Valid() && Contents() == old(Contents()) + (Le(|entries|, 4) + WriteEntries(entries))
      decreases entries
    {
      ghost var was := Contents();
      AppendNum(|entries|, 4);
      var i := 0;
      ghost var all := Contents() + WriteEntries(entries);
      while i < |entries|
        invariant Valid() && 0 <= i <= |entries|
        invariant Contents() + WriteEntries(entries[i..]) == all
      {
        assert entries[i..][0] == entries[i] && entries[i..][1..] == entries[i + 1..];
        Assoc(Contents(), WriteEntry(entries[i]), WriteEntries(entries[i + 1..]));
        WritePair(entries[i]);
        i := i + 1;
      }
      Neutral(Contents());
      Assoc(was, Le(|entries|, 4), WriteEntries(entries));
    }

    method WritePair(e: Entry)
      requires Valid()
      modifies this`wpos, this`storage
      ensures Valid() && Contents() == old(Contents()) + WriteEntry(e)
      decreases e
    {
      match e
      case Entry(key, value) =>
        Assoc(Contents(), [key], Write(value));
        Append([key]);
        WriteAny(value);
    }

    method ReadAny(target: Any) returns (a: Any)
      requires Valid()
      modifies this`rpos
      ensures (a, rpos) == Read(Contents(), old(rpos), target)
      decreases Left(Contents(), rpos), 0
    {
      ghost var pos := rpos;
      var tag := ReadNum(1);
      if Width(tag) > 0 {
        var bits := ReadNum(Width(tag));
        a := Num(tag, bits);
      } else if tag == STRING {
        var s := ReadString();
        a := Str(s);
      } else if tag == VECTOR {
        var v := ReadVector();
        a := Vec(v);
      } else if tag == MAP1A {
        var m := ReadMap();
        a := Map1A(m);
      } else {
        a := target;
      }
    }

    method ReadVector() returns (v: seq<Any>)
      requires Valid()
      modifies this`rpos
      ensures (v, rpos) == ReadItems(Contents(), old(rpos) + 4, NumAt(Contents(), old(rpos), 4))
      decreases Left(Contents(), rpos), WORD + 2
    {
      ghost var buf := Contents();
      var n := ReadNum(4);
      ghost var all := ReadItems(buf, rpos, n);
      v := [];
      Neutral(all.0);
      while n > 0
        invariant all == (v + ReadItems(buf, rpos, n).0, ReadItems(buf, rpos, n).1)
        invariant rpos >= old(rpos) + 4
        decreases n
      {
        ghost var r := Read(buf, rpos, Null);
        Assoc(v, [r.0], ReadItems(buf, r.1, n - 1).0);
        var t := ReadAny(Null);
        v := v + [t];
        n := n - 1;
      }
      Neutral(v);
    }

    method ReadMap() returns (m: seq<Entry>)
      requires Valid()
      modifies this`rpos
      ensures (m, rpos) == ReadEntries(Contents(), old(rpos) + 4, NumAt(Contents(), old(rpos), 4), [])
      decreases Left(Contents(), rpos), WORD + 2
    {
      ghost var buf := Contents();
      var n := ReadNum(4);
      ghost var all := ReadEntries(buf, rpos, n, []);
      m := [];
      while n > 0
        invariant all == ReadEntries(buf, rpos, n, m)
        invariant rpos >= old(rpos) + 4
        decreases n
      {
        var k := ReadNum(1);
        var v := ReadAny(Null);
        m := Insert(m, Entry(k as byte, v));
        n := n - 1;
      }
    }
  }
}
