/** ObjAdmin: the map, the list in order of use and the resident keys of CObjCtrl. The pointers of
    the map and the list are to the same objects. */
module ObjAdmin {

  import opened Seqs
  import opened LruStore

  class CStu<V> {
    var key: nat
    var timestamp: nat
    var value: V

    constructor (key: nat, timestamp: nat, value: V)
      ensures this.key == key && this.timestamp == timestamp && this.value == value
    {
      this.key, this.timestamp, this.value := key, timestamp, value;
    }
  }

  class CObjCtrl<V> {
    var m_MaxCapacity: nat
    var m_mapData: map<nat, CStu<V>>
    var m_listIndex: seq<CStu<V>>
    var m_ResidentData: set<nat>
    var store: map<nat, V>
    ghost var entries: seq<Entry<V>>

    ghost predicate FiledAt(i: nat)
      requires i < |m_listIndex| == |entries|
      reads this`m_listIndex, this`entries, this`m_mapData, m_listIndex[i]
    {
      var p := m_listIndex[i];
      p.key == entries[i].key && p.timestamp == entries[i].timestamp && p.value == entries[i].value
      && p.key in m_mapData && m_mapData[p.key] == p
    }

    ghost predicate Listed(k: nat)
      reads this`entries, this`m_mapData
    {
      k in m_mapData ==> Place(entries, k) >= 0
    }

    ghost predicate Valid()
      reads this`m_listIndex, this`entries, this`m_mapData, m_listIndex
    {
      && |m_listIndex| == |entries| == |m_mapData|
      && (forall i {:trigger FiledAt(i)} :: 0 <= i < |m_listIndex| ==> FiledAt(i))
      && (forall k {:trigger Listed(k)} :: Listed(k))
      && Distinct(entries)
    }

    ghost function Abs(): Cache<V>
      reads this
    {
      Cache(m_MaxCapacity, entries, m_ResidentData, store)
    }

    constructor (store: map<nat, V>)
      ensures Valid() && m_listIndex == [] && m_ResidentData == {} && this.store == store
    {
      m_mapData, m_listIndex, m_ResidentData, entries := map[], [], {}, [];
      this.store := store;
    }

    method Init(max_capacity: nat) returns (r: int)
      requires Valid()
      modifies this`m_MaxCapacity
      ensures Valid()
      ensures if max_capacity == 0 then r == -1 && Abs() == old(Abs())
              else r == 0 && Abs() == old(Abs()).(capacity := max_capacity)
    {
      if max_capacity == 0 {
        return -1;
      }
      m_MaxCapacity := max_capacity;
      return 0;
    }

    /** Erase the list node i, and its key from the map. */
    method EraseAt(i: nat)
      requires Valid() && i < |m_listIndex|
      modifies this`m_mapData, this`m_listIndex, this`entries
      ensures Valid()
      ensures entries == Less(old(entries), i) && m_listIndex == Less(old(m_listIndex), i)
      ensures m_mapData == old(m_mapData) - {old(entries[i].key)}
    {
      ghost var k := entries[i].key;
      assert FiledAt(i);
      LessIs(entries, i);
      m_mapData := m_mapData - {m_listIndex[i].key};
      m_listIndex := m_listIndex[..i] + m_listIndex[i + 1..];
      entries := entries[..i] + entries[i + 1..];
      forall j | 0 <= j < |m_listIndex| ensures FiledAt(j) {
        assert old(FiledAt(if j < i then j else j + 1));
        assert entries[j].key != k;
      }
      forall q ensures Listed(q) {
        assert old(Listed(q));
        if q in m_mapData {
          var j := Place(old(entries), q);
          assert old(entries)[j] in entries;
        }
      }
    }

    /** Insert at the front of the list, and into the map. */
    method PushFront(p: CStu<V>)
      requires Valid() && p.key !in m_mapData
      modifies this`m_mapData, this`m_listIndex, this`entries
      ensures Valid()
      ensures entries == [Entry(p.key, p.timestamp, p.value)] + old(entries)
      ensures m_listIndex == [p] + old(m_listIndex)
    {
      forall i | 0 <= i < |entries| ensures entries[i].key != p.key {
        assert FiledAt(i);
      }
      m_listIndex := [p] + m_listIndex;
      entries := [Entry(p.key, p.timestamp, p.value)] + entries;
      m_mapData := m_mapData[p.key := p];
      forall j | 0 <= j < |m_listIndex| ensures FiledAt(j) {
        assert j > 0 ==> old(FiledAt(j - 1));
      }
      forall q ensures Listed(q) {
        assert old(Listed(q));
        assert entries[1..] == old(entries);
      }
    }

    /** The search from the back; 0 when every entry is resident, else one more than the place. */
    method FindOldest() returns (rit: nat)
      requires Valid()
      ensures rit == Victim(entries, m_ResidentData) + 1
    {
      rit := |m_listIndex|;
      assert entries[..rit] == entries;
      while rit > 0 && m_listIndex[rit - 1].key in m_ResidentData
        invariant 0 <= rit <= |m_listIndex|
        invariant Victim(entries[..rit], m_ResidentData) == Victim(entries, m_ResidentData)
      {
        assert FiledAt(rit - 1);
        assert entries[..rit][..rit - 1] == entries[..rit - 1];
        rit := rit - 1;
      }
      if rit > 0 {
        assert FiledAt(rit - 1);
      }
    }

    /** Drop the oldest entry that is not resident, saved first. */
    method DropOldest(saved: bool) returns (done: bool)
      requires Valid() && |m_mapData| >= m_MaxCapacity
      modifies this`m_mapData, this`m_listIndex, this`entries, this`store
      ensures Valid() && done == MakeRoom(old(Abs()), saved).Some?
      ensures Abs() == if done then MakeRoom(old(Abs()), saved).value else old(Abs())
      ensures m_mapData.Keys <= old(m_mapData).Keys
    {
      var rit := FindOldest();
      if rit == 0 {
        return false;
      }
      assert FiledAt(rit - 1);
      if !saved {
        return false;
      }
      store := store[m_listIndex[rit - 1].key := m_listIndex[rit - 1].value];
      EraseAt(rit - 1);
      return true;
    }

    /** The search for the list node of a cached key. */
    method FindNode(key: nat) returns (it: nat)
      requires Valid() && key in m_mapData
      ensures it < |m_listIndex| && it == Place(entries, key) && m_listIndex[it] == m_mapData[key]
    {
      assert Listed(key);
      ghost var i := Place(entries, key);
      assert FiledAt(i);
      it := 0;
      while m_listIndex[it].key != key
        invariant 0 <= it <= i
        decreases |m_listIndex| - it
      {
        assert FiledAt(it);
        it := it + 1;
      }
      assert FiledAt(it);
    }

    /** Erase the node of a cached key and insert it at the front. */
    method MoveToFront(key: nat) returns (p: CStu<V>)
      requires Valid() && key in m_mapData
      modifies this`m_listIndex, this`entries
      ensures Valid() && Cached(old(Abs()), key) && Abs() == Front(old(Abs()), key)
      ensures m_listIndex != [] && p == m_listIndex[0] && p.key == key
    {
      p := m_mapData[key];
      var it := FindNode(key);
      assert FiledAt(it);
      m_listIndex := m_listIndex[..it] + m_listIndex[it + 1..];
      m_listIndex := [p] + m_listIndex;
      FrontIs(entries, it);
      entries := [entries[it]] + Less(entries, it);
      forall j | 0 <= j < |m_listIndex| ensures FiledAt(j) {
        ToFront(old(m_listIndex), it, j);
        ToFront(old(entries), it, j);
        assert old(FiledAt(if j == 0 then it else if j <= it then j - 1 else j));
      }
      forall q ensures Listed(q) {
        assert old(Listed(q));
        if q in m_mapData {
          assert old(entries)[Place(old(entries), q)] in entries;
        }
      }
    }

    lemma NotInMap(key: nat)
      requires Valid() && key !in m_mapData
      ensures !Cached(Abs(), key)
    {
      forall i | 0 <= i < |entries| ensures entries[i].key != key {
        assert FiledAt(i);
      }
    }

    /** GetInnerData, and the new entry at the front. */
    method Load(key: nat, now: nat, loaded: bool) returns (p: CStu?<V>)
      requires Valid() && key !in m_mapData
      modifies this`m_mapData, this`m_listIndex, this`entries
      ensures Valid() && (p != null <==> key in store && loaded)
      ensures Abs() == LruStore.Load(old(Abs()), key, now, loaded)
      ensures p != null ==> m_listIndex != [] && p == m_listIndex[0] && p.key == key
    {
      if key !in store || !loaded {
        return null;
      }
      p := new CStu(key, now, store[key]);
      PushFront(p);
    }

    method GetData(key: nat, now: nat, saved: bool, loaded: bool) returns (p: CStu?<V>)
      requires Valid() && now < WORD
      modifies this
      ensures Valid()
      ensures Abs() == Get(old(Abs()), key, now, saved, loaded)
      ensures p != null <==> Served(old(Abs()), key, saved, loaded)
      ensures p != null ==> m_listIndex != [] && p == m_listIndex[0] && p.key == key
    {
      if key !in m_mapData {
        NotInMap(key);
        if |m_mapData| >= m_MaxCapacity {
          var done := DropOldest(saved);
          if !done {
            return null;
          }
        }
        p := Load(key, now, loaded);
      } else {
        p := MoveToFront(key);
      }
    }

    /** One turn of OnTimer's loop: go on past the entry, erase it, or give up. */
    method VisitAt(it: nat, tick: Tick) returns (next: nat, failed: bool)
      requires Valid() && it < |m_listIndex|
      modifies this`m_mapData, this`m_listIndex, this`entries, this`store
      ensures Valid()
      ensures var e, due := old(entries[it]), Due(old(entries[it]), m_ResidentData, tick.now);
              && failed == (due && !tick.saved)
              && next == (if due then it else it + 1)
              && entries == (if due && tick.saved then Less(old(entries), it) else old(entries))
              && store == (if due && tick.saved then old(store)[e.key := e.value] else old(store))
    {
      assert FiledAt(it);
      if (m_listIndex[it].timestamp + MAX_ALIVE_TIME) % WORD < tick.now && m_listIndex[it].key !in m_ResidentData {
        if !tick.saved {
          return it, true;
        }
        store := store[m_listIndex[it].key := m_listIndex[it].value];
        EraseAt(it);
        return it, false;
      }
      return it + 1, false;
    }

    /** The clock and the store answer ticks[i] at the place i of the list. */
    method OnTimer(ticks: seq<Tick>)
      requires Valid() && |ticks| == |m_listIndex|
      modifies this`m_mapData, this`m_listIndex, this`entries, this`store
      ensures Valid()
      ensures (entries, store) == Sweep(old(entries), m_ResidentData, old(store), ticks)
    {
      ghost var all := Sweep(entries, m_ResidentData, store, ticks);
      var it: nat, seen: nat := 0, 0;
      var failed := false;
      SweepAll(entries, m_ResidentData, store, ticks);
      assert ticks[0..] == ticks;
      while it < |m_listIndex| && !failed
        invariant Valid() && it <= |m_listIndex|
        invariant if failed then all == (entries, store) else
                    seen <= |ticks| && |ticks| - seen == |entries| - it
                    && all == SweepFrom(entries, it, m_ResidentData, store, ticks[seen..])
        decreases !failed, |ticks| - seen
      {
        SweepStep(entries, it, m_ResidentData, store, ticks[seen..]);
        assert ticks[seen..][1..] == ticks[seen + 1..];
        it, failed := VisitAt(it, ticks[seen]);
        seen := seen + 1;
      }
      if !failed {
        SweepDone(entries, m_ResidentData, store);
      }
    }

    method SaveAllData(answers: seq<bool>)
      requires Valid() && |answers| == |m_listIndex|
      modifies this`store
      ensures Valid()
      ensures Abs() == Step(old(Abs()), Save(answers))
    {
      ghost var all := SaveAll(entries, store, answers);
      var it := 0;
      assert entries[0..] == entries && answers[0..] == answers;
      while it < |m_listIndex|
        invariant 0 <= it <= |m_listIndex|
        invariant all == SaveAll(entries[it..], store, answers[it..])
      {
        assert FiledAt(it);
        assert entries[it..][1..] == entries[it + 1..] && answers[it..][1..] == answers[it + 1..];
        if answers[it] {
          store := store[m_listIndex[it].key := m_listIndex[it].value];
        }
        it := it + 1;
      }
    }

    method AddResidentKey(key: nat)
      requires Valid()
      modifies this`m_ResidentData
      ensures Valid() && Abs() == Step(old(Abs()), Event.AddResident(key))
    {
      m_ResidentData := m_ResidentData + {key};
    }

    method ClearResidentKey()
      requires Valid()
      modifies this`m_ResidentData
      ensures Valid() && Abs() == Step(old(Abs()), ClearResident)
    {
      m_ResidentData := {};
    }

    /** A client writes through a pointer that is still cached. */
    method Assign(p: CStu<V>, v: V)
      requires Valid() && p in m_listIndex
      modifies p`value, this`entries
      ensures Valid() && Place(old(entries), p.key) >= 0
      ensures Abs() == Step(old(Abs()), Write(p.key, v))
    {
      ghost var i :| 0 <= i < |m_listIndex| && m_listIndex[i] == p;
      assert FiledAt(i);
      PlaceIs(entries, i);
      p.value := v;
      entries := entries[i := entries[i].(value := v)];
      forall j | 0 <= j < |m_listIndex| ensures FiledAt(j) {
        assert old(FiledAt(j));
      }
      forall q ensures Listed(q) {
        assert old(Listed(q));
        if q in m_mapData {
          assert entries[Place(old(entries), q)].key == q;
        }
      }
    }
  }
}
