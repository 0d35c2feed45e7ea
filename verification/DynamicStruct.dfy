/** CDynamicStruct: setProperty, getProperty, and the forms that it saves to and loads from a
    ByteBuffer. */
module DynamicStruct {

  import opened Seqs
  import opened Bytes
  import opened AnyType
  import opened StructCodec
  import opened ByteBuffer

  class CDynamicStruct {
    var data: map<byte, Any>
    var dirty: set<byte>

    ghost function Abs(): Struct
      reads this
    {
      Struct(data, dirty)
    }

    constructor ()
      ensures Abs() == Struct(map[], {})
    {
      data, dirty := map[], {};
    }

    method SetProperty(key: byte, value: Any)
      modifies this
      ensures Abs() == Step(old(Abs()), Put(key, value))
    {
      if key !in data {
        data := data[key := value];
        dirty := dirty + {key};
      } else if !Same(data[key], value) {
        data := data[key := value];
        dirty := dirty + {key};
      }
    }

    method GetProperty(key: byte) returns (a: Any)
      modifies this`data
      ensures a == Lookup(old(data), key) && Abs() == Step(old(Abs()), Look(key))
    {
      if key !in data {
        data := data[key := Null];
      }
      a := data[key];
      assert data == old(data)[key := a];
    }

    method ClearDirtyFlag()
      modifies this`dirty
      ensures dirty == {}
    {
      dirty := {};
    }

    /** The entries of keys, in key order. */
    method SaveEntries(buf: ByteBuffer, keys: set<byte>)
      requires buf.Valid() && keys <= data.Keys
      modifies buf`wpos, buf`storage
      ensures buf.Valid() && buf.Contents() == old(buf.Contents()) + Loose(data, keys)
    {
      ghost var was := buf.Contents();
      var count := [(|keys| % 256) as byte];
      buf.Append(count);
      ghost var all := buf.Contents() + EntriesFrom(data, keys, 0);
      var k := 0;
      while k < 256
        invariant 0 <= k <= 256 && buf.Valid()
        invariant buf.Contents() + EntriesFrom(data, keys, k) == all
      {
        if k as byte in keys {
          var e := Entry(k as byte, data[k as byte]);
          Assoc(buf.Contents(), WriteEntry(e), EntriesFrom(data, keys, k + 1));
          buf.WritePair(e);
        }
        k := k + 1;
      }
      Neutral(buf.Contents());
      Assoc(was, count, EntriesFrom(data, keys, 0));
    }

    method SaveDataLoose(buf: ByteBuffer)
      requires buf.Valid()
      modifies buf`wpos, buf`storage
      ensures buf.Valid() && buf.Contents() == old(buf.Contents()) + Loose(data, data.Keys)
    {
      SaveEntries(buf, data.Keys);
    }

    /** Every dirty key is looked up in the data. */
    method SaveDataDirty(buf: ByteBuffer)
      requires buf.Valid() && dirty <= data.Keys
      modifies buf`wpos, buf`storage
      ensures buf.Valid() && buf.Contents() == old(buf.Contents()) + Loose(data, dirty)
    {
      SaveEntries(buf, dirty);
    }

    method LoadDataLoose(buf: ByteBuffer)
      requires buf.Valid()
      modifies this`data, buf`rpos
      ensures (data, buf.rpos) == LoadLoose(buf.Contents(), old(buf.rpos), old(data))
    {
      var count := buf.ReadNum(1);
      ghost var all := LoadEntries(buf.Contents(), buf.rpos, count, data);
      while count > 0
        invariant all == LoadEntries(buf.Contents(), buf.rpos, count, data)
      {
        var key := buf.ReadNum(1);
        var target := if key as byte in data then data[key as byte] else Null;
        var a := buf.ReadAny(target);
        data := data[key as byte := a];
        count := count - 1;
      }
    }

    /** False, with nothing written, when some key below the count is missing. */
    method SaveDataCompact(buf: ByteBuffer) returns (ok: bool)
      requires buf.Valid() && |data| < 256
      modifies buf`wpos, buf`storage
      ensures buf.Valid() && ok == Continuous(data)
      ensures buf.Contents() == old(buf.Contents()) + if ok then Compact(data) else []
    {
      ghost var was := buf.Contents();
      var i := 0;
      while i < |data|
        invariant 0 <= i <= |data|
        invariant forall j: nat {:trigger HasKey(data, j)} :: j < i ==> HasKey(data, j)
      {
        if i as byte !in data {
          Neutral(was);
          assert !HasKey(data, i);
          return false;
        }
        i := i + 1;
      }
      assert Continuous(data);
      var count := [|data| as byte];
      buf.Append(count);
      ghost var all := buf.Contents() + ValuesFrom(data, 0);
      i := 0;
      while i < |data|
        invariant 0 <= i <= |data| && buf.Valid()
        invariant buf.Contents() + ValuesFrom(data, i) == all
      {
        assert HasKey(data, i);
        Assoc(buf.Contents(), Write(data[i as byte]), ValuesFrom(data, i + 1));
        buf.WriteAny(data[i as byte]);
        i := i + 1;
      }
      Neutral(buf.Contents());
      Assoc(was, count, ValuesFrom(data, 0));
      return true;
    }

    method LoadDataCompact(buf: ByteBuffer)
      requires buf.Valid()
      modifies this`data, buf`rpos
      ensures var count := NumAt(buf.Contents(), old(buf.rpos), 1);
              (data, buf.rpos) == LoadValues(buf.Contents(), old(buf.rpos) + 1, 0, count, old(data))
    {
      var count := buf.ReadNum(1);
      var i := 0;
      ghost var all := LoadValues(buf.Contents(), buf.rpos, 0, count, data);
      while i < count
        invariant 0 <= i <= count
        invariant all == LoadValues(buf.Contents(), buf.rpos, i, count, data)
      {
        var target := if i as byte in data then data[i as byte] else Null;
        var a := buf.ReadAny(target);
        data := data[i as byte := a];
        i := i + 1;
      }
    }
  }
}
