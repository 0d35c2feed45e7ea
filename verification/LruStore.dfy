/** The object cache of ObjAdmin as a value: the entries, most recently used first, over the
    store that GetInnerData reads and SaveInnerData writes. */
module LruStore {

  import opened Wrappers
  import opened Seqs

  const WORD: nat := 0x1_0000_0000
  const MAX_ALIVE_TIME: nat := 21600

  datatype Entry<V> = Entry(key: nat, timestamp: nat, value: V)

  datatype Cache<V> = Cache(capacity: nat, list: seq<Entry<V>>, resident: set<nat>, store: map<nat, V>)

  /** What the clock and the store answer while OnTimer stands at one entry. */
  datatype Tick = Tick(now: nat, saved: bool)

  // ---------------------------------------------------------------- lookups

  function Place<V>(list: seq<Entry<V>>, key: nat): (i: int)
    ensures -1 <= i < |list|
    ensures i >= 0 ==> list[i].key == key
    ensures i < 0 ==> forall j :: 0 <= j < |list| ==> list[j].key != key
  {
    if list == [] then -1
    else if list[0].key == key then 0
    else var i := Place(list[1..], key); if i < 0 then -1 else i + 1
  }

  function Holds<V>(list: seq<Entry<V>>, store: map<nat, V>, key: nat): Option<V> {
    var i := Place(list, key);
    if i >= 0 then Some(list[i].value) else if key in store then Some(store[key]) else None
  }

  /** The value of a key as a client sees it: the cached one, else the stored one. */
  function View<V>(c: Cache<V>, key: nat): Option<V> {
    Holds(c.list, c.store, key)
  }

  /** The last entry that is not resident. */
  function Victim<V>(list: seq<Entry<V>>, resident: set<nat>): (i: int)
    ensures -1 <= i < |list|
    ensures i >= 0 ==> list[i].key !in resident
    ensures forall j :: i < j < |list| ==> list[j].key in resident
  {
    if list == [] then -1
    else if list[|list| - 1].key !in resident then |list| - 1
    else Victim(list[..|list| - 1], resident)
  }

  function Less<T>(list: seq<T>, i: nat): seq<T>
    requires i < |list|
  {
    list[..i] + list[i + 1..]
  }

  // ---------------------------------------------------------------- operations

  /** A full cache drops its victim once that is saved. None when nothing can be dropped. */
  function MakeRoom<V>(c: Cache<V>, saved: bool): Option<Cache<V>> {
    if |c.list| < c.capacity then Some(c) else
    var i := Victim(c.list, c.resident);
    if i < 0 || !saved then None
    else Some(c.(list := Less(c.list, i), store := c.store[c.list[i].key := c.list[i].value]))
  }

  predicate Cached<V>(c: Cache<V>, key: nat) {
    Place(c.list, key) >= 0
  }

  /** A hit: the entry moves to the front. */
  function Front<V>(c: Cache<V>, key: nat): Cache<V>
    requires Cached(c, key)
  {
    var i := Place(c.list, key);
    c.(list := [c.list[i]] + Less(c.list, i))
  }

  /** GetInnerData finds the key, or does not. */
  function Load<V>(c: Cache<V>, key: nat, now: nat, loaded: bool): Cache<V> {
    if key in c.store && loaded then c.(list := [Entry(key, now, c.store[key])] + c.list) else c
  }

  /** GetData, with the answers of SaveInnerData and GetInnerData. */
  function Get<V>(c: Cache<V>, key: nat, now: nat, saved: bool, loaded: bool): Cache<V> {
    if Cached(c, key) then Front(c, key) else
    match MakeRoom(c, saved)
    case None => c
    case Some(d) => Load(d, key, now, loaded)
  }

  function Served<V>(c: Cache<V>, key: nat, saved: bool, loaded: bool): bool {
    Cached(c, key) || (MakeRoom(c, saved).Some? && key in MakeRoom(c, saved).value.store && loaded)
  }

  /** The time to live is added in 32 bits. */
  predicate Due<V>(e: Entry<V>, resident: set<nat>, now: nat) {
    (e.timestamp + MAX_ALIVE_TIME) % WORD < now && e.key !in resident
  }

  /** OnTimer from some place of the list on: it stops at the first save that fails. */
  function Sweep<V>(list: seq<Entry<V>>, resident: set<nat>, store: map<nat, V>, ticks: seq<Tick>)
      : (seq<Entry<V>>, map<nat, V>)
    requires |ticks| == |list|
  {
    if list == [] then ([], store)
    else if Due(list[0], resident, ticks[0].now) then
      if !ticks[0].saved then (list, store)
      else Sweep(list[1..], resident, store[list[0].key := list[0].value], ticks[1..])
    else
      var (l, s) := Sweep(list[1..], resident, store, ticks[1..]);
      ([list[0]] + l, s)
  }

  /** The end of a sweep that has come to the place it. */
  function SweepFrom<V>(list: seq<Entry<V>>, it: nat, resident: set<nat>, store: map<nat, V>, ticks: seq<Tick>)
      : (seq<Entry<V>>, map<nat, V>)
    requires it <= |list| && |ticks| == |list| - it
  {
    var (l, s) := Sweep(list[it..], resident, store, ticks);
    (list[..it] + l, s)
  }

  lemma SweepAll<V>(list: seq<Entry<V>>, resident: set<nat>, store: map<nat, V>, ticks: seq<Tick>)
    requires |ticks| == |list|
    ensures SweepFrom(list, 0, resident, store, ticks) == Sweep(list, resident, store, ticks)
  {
    assert list[0..] == list;
    var l := Sweep(list, resident, store, ticks).0;
    assert list[..0] + l == l;
  }

  lemma SweepDone<V>(list: seq<Entry<V>>, resident: set<nat>, store: map<nat, V>)
    ensures SweepFrom(list, |list|, resident, store, []) == (list, store)
  {
    assert list[|list|..] == [] && list[..|list|] + [] == list;
  }

  lemma SweepStep<V>(list: seq<Entry<V>>, it: nat, resident: set<nat>, store: map<nat, V>, ticks: seq<Tick>)
    requires it < |list| && |ticks| == |list| - it
    ensures var e := list[it];
            SweepFrom(list, it, resident, store, ticks) ==
            if !Due(e, resident, ticks[0].now) then SweepFrom(list, it + 1, resident, store, ticks[1..])
            else if !ticks[0].saved then (list, store)
            else SweepFrom(Less(list, it), it, resident, store[e.key := e.value], ticks[1..])
  {
    var rest, e := list[it..], list[it];
    assert rest[0] == e && rest[1..] == list[it + 1..];
    if !Due(e, resident, ticks[0].now) {
      var l := Sweep(rest[1..], resident, store, ticks[1..]).0;
      assert list[..it] + ([e] + l) == list[..it + 1] + l;
    } else if ticks[0].saved {
      assert Less(list, it)[..it] == list[..it] && Less(list, it)[it..] == rest[1..];
    } else {
      assert list[..it] + rest == list;
    }
  }

  function SaveAll<V>(list: seq<Entry<V>>, store: map<nat, V>, saved: seq<bool>): map<nat, V>
    requires |saved| == |list|
  {
    if list == [] then store
    else SaveAll(list[1..], if saved[0] then store[list[0].key := list[0].value] else store, saved[1..])
  }

  // ---------------------------------------------------------------- runs

  datatype Event<V> =
    | Fetch(key: nat, now: nat, saved: bool, loaded: bool)
    | Timer(ticks: seq<Tick>)
    | Save(answers: seq<bool>)
    | AddResident(key: nat)
    | ClearResident
    | Write(key: nat, value: V)

  /** A client writes through a pointer that is still cached. */
  predicate Enabled<V>(c: Cache<V>, e: Event<V>) {
    match e
    case Timer(ticks) => |ticks| == |c.list|
    case Save(answers) => |answers| == |c.list|
    case Write(key, v) => Cached(c, key)
    case _ => true
  }

  function Step<V>(c: Cache<V>, e: Event<V>): Cache<V>
    requires Enabled(c, e)
  {
    match e
    case Fetch(key, now, saved, loaded) => Get(c, key, now, saved, loaded)
    case Timer(ticks) =>
      var (l, s) := Sweep(c.list, c.resident, c.store, ticks);
      c.(list := l, store := s)
    case Save(answers) => c.(store := SaveAll(c.list, c.store, answers))
    case AddResident(key) => c.(resident := c.resident + {key})
    case ClearResident => c.(resident := {})
    case Write(key, v) =>
      var i := Place(c.list, key);
      c.(list := c.list[i := c.list[i].(value := v)])
  }

  ghost predicate Run<V>(c: Cache<V>, es: seq<Event<V>>, d: Cache<V>)
    decreases |es|
  {
    if es == [] then c == d else Enabled(c, es[0]) && Run(Step(c, es[0]), es[1..], d)
  }

  // ---------------------------------------------------------------- distinct keys

  ghost predicate Distinct<V>(list: seq<Entry<V>>) {
    forall i, j :: 0 <= i < j < |list| ==> list[i].key != list[j].key
  }

  ghost predicate Absent<V>(list: seq<Entry<V>>, key: nat) {
    forall i :: 0 <= i < |list| ==> list[i].key != key
  }

  lemma PlaceIs<V>(list: seq<Entry<V>>, i: nat)
    requires Distinct(list) && i < |list|
    ensures Place(list, list[i].key) == i
  {
  }

  lemma PlaceOne<V>(list: seq<Entry<V>>, store: map<nat, V>, key: nat)
    requires list != []
    ensures Holds(list, store, key) == if list[0].key == key then Some(list[0].value) else Holds(list[1..], store, key)
  {
  }

  lemma HoldsEntry<V>(list: seq<Entry<V>>, store: map<nat, V>, e: Entry<V>)
    requires Distinct(list) && e in list
    ensures Holds(list, store, e.key) == Some(e.value)
  {
    var i :| 0 <= i < |list| && list[i] == e;
    PlaceIs(list, i);
  }

  lemma LessIs<V>(list: seq<Entry<V>>, i: nat)
    requires Distinct(list) && i < |list|
    ensures Distinct(Less(list, i)) && Absent(Less(list, i), list[i].key)
    ensures forall e :: e in Less(list, i) <==> e in list && e.key != list[i].key
  {
    var m := Less(list, i);
    forall j | 0 <= j < |m| ensures m[j] == list[if j < i then j else j + 1] && m[j].key != list[i].key {
    }
    forall e | e in list && e.key != list[i].key ensures e in m {
      var j :| 0 <= j < |list| && list[j] == e;
      assert m[if j < i then j else j - 1] == e;
    }
  }

  lemma StaysAbsent<V>(l: seq<Entry<V>>, m: seq<Entry<V>>, key: nat)
    requires Absent(l, key) && forall e :: e in m ==> e in l
    ensures Absent(m, key)
  {
    forall i | 0 <= i < |m| ensures m[i].key != key {
      assert m[i] in l;
    }
  }

  /** Lookups do not depend on the order of distinct entries. */
  lemma SameEntries<V>(l: seq<Entry<V>>, m: seq<Entry<V>>, store: map<nat, V>, key: nat)
    requires Distinct(l) && Distinct(m) && forall e :: e in l <==> e in m
    ensures Holds(l, store, key) == Holds(m, store, key)
  {
    var i := Place(l, key);
    if i >= 0 {
      assert l[i] in m;
      HoldsEntry(m, store, l[i]);
    } else {
      StaysAbsent(l, m, key);
    }
  }

  lemma FrontIs<V>(list: seq<Entry<V>>, i: nat)
    requires Distinct(list) && i < |list|
    ensures var m := [list[i]] + Less(list, i); Distinct(m) && forall e :: e in m <==> e in list
  {
    LessIs(list, i);
    var m := [list[i]] + Less(list, i);
    assert m[1..] == Less(list, i);
    forall e | e in list ensures e in m {
      if e.key == list[i].key {
        var j :| 0 <= j < |list| && list[j] == e;
        assert j == i;
      }
    }
  }

  lemma FrontSame<V>(list: seq<Entry<V>>, i: nat, store: map<nat, V>, key: nat)
    requires Distinct(list) && i < |list|
    ensures Holds([list[i]] + Less(list, i), store, key) == Holds(list, store, key)
    ensures Distinct([list[i]] + Less(list, i))
  {
    FrontIs(list, i);
    SameEntries([list[i]] + Less(list, i), list, store, key);
  }

  /** An entry that is saved may leave the list. */
  lemma DropSame<V>(list: seq<Entry<V>>, i: nat, store: map<nat, V>, key: nat)
    requires Distinct(list) && i < |list|
    ensures Holds(Less(list, i), store[list[i].key := list[i].value], key) == Holds(list, store, key)
    ensures Distinct(Less(list, i))
  {
    LessIs(list, i);
    var m, s := Less(list, i), store[list[i].key := list[i].value];
    var j := Place(list, key);
    if key == list[i].key {
      PlaceIs(list, i);
    } else if j >= 0 {
      assert list[j] in m;
      HoldsEntry(m, s, list[j]);
    } else {
      StaysAbsent(list, m, key);
    }
  }

  lemma {:induction false} SweepSame<V>(list: seq<Entry<V>>, resident: set<nat>, store: map<nat, V>,
                                        ticks: seq<Tick>, key: nat)
    requires Distinct(list) && |ticks| == |list|
    ensures var (l, s) := Sweep(list, resident, store, ticks); Holds(l, s, key) == Holds(list, store, key)
  {
    if list != [] {
      PlaceOne(list, store, key);
      if !Due(list[0], resident, ticks[0].now) {
        SweepSame(list[1..], resident, store, ticks[1..], key);
        var (l, s) := Sweep(list[1..], resident, store, ticks[1..]);
        assert ([list[0]] + l)[1..] == l;
        PlaceOne([list[0]] + l, s, key);
      } else if ticks[0].saved {
        SweepSame(list[1..], resident, store[list[0].key := list[0].value], ticks[1..], key);
      }
    }
  }

  lemma {:induction false} SweepWithin<V>(list: seq<Entry<V>>, resident: set<nat>, store: map<nat, V>, ticks: seq<Tick>)
    requires Distinct(list) && |ticks| == |list|
    ensures var l := Sweep(list, resident, store, ticks).0;
            |l| <= |list| && Distinct(l) && forall e :: e in l ==> e in list
  {
    if list != [] && (!Due(list[0], resident, ticks[0].now) || ticks[0].saved) {
      var s := if Due(list[0], resident, ticks[0].now) then store[list[0].key := list[0].value] else store;
      SweepWithin(list[1..], resident, s, ticks[1..]);
      var l := Sweep(list[1..], resident, s, ticks[1..]).0;
      assert forall i :: 0 <= i < |l| ==> l[i] in list[1..];
    }
  }

  lemma {:induction false} SaveAllSame<V>(list: seq<Entry<V>>, store: map<nat, V>, saved: seq<bool>, key: nat)
    requires Distinct(list) && |saved| == |list|
    ensures Holds(list, SaveAll(list, store, saved), key) == Holds(list, store, key)
  {
    if list != [] {
      var s := if saved[0] then store[list[0].key := list[0].value] else store;
      SaveAllSame(list[1..], s, saved[1..], key);
      PlaceOne(list, SaveAll(list, store, saved), key);
      PlaceOne(list, store, key);
    }
  }

  // ---------------------------------------------------------------- the cache is a plain map

  ghost predicate Inv<V>(c: Cache<V>) {
    0 < c.capacity && |c.list| <= c.capacity && Distinct(c.list)
  }

  lemma RoomSame<V>(c: Cache<V>, saved: bool, key: nat)
    requires Inv(c) && MakeRoom(c, saved).Some?
    ensures var d := MakeRoom(c, saved).value;
            Inv(d) && |d.list| < d.capacity && View(d, key) == View(c, key)
            && (Absent(c.list, key) ==> Absent(d.list, key))
  {
    if |c.list| == c.capacity {
      DropSame(c.list, Victim(c.list, c.resident), c.store, key);
    }
  }

  lemma GetSame<V>(c: Cache<V>, key: nat, now: nat, saved: bool, loaded: bool, k: nat)
    requires Inv(c)
    ensures var d := Get(c, key, now, saved, loaded);
            && Inv(d) && View(d, k) == View(c, k)
            && (Served(c, key, saved, loaded) ==>
                  d.list != [] && d.list[0].key == key && View(c, key) == Some(d.list[0].value))
  {
    var i := Place(c.list, key);
    var d := Get(c, key, now, saved, loaded);
    if i >= 0 {
      FrontSame(c.list, i, c.store, k);
    } else if MakeRoom(c, saved).Some? {
      RoomSame(c, saved, k);
      RoomSame(c, saved, key);
      var r := MakeRoom(c, saved).value;
      if key in r.store && loaded {
        assert d.list[1..] == r.list;
        PlaceOne(d.list, r.store, k);
      }
    }
  }

  /** The plain map: only Write changes it. */
  function Written<V>(e: Event<V>, key: nat, before: Option<V>): Option<V> {
    if e.Write? && e.key == key then Some(e.value) else before
  }

  function LastWritten<V>(es: seq<Event<V>>, key: nat, before: Option<V>): Option<V> {
    if es == [] then before else LastWritten(es[1..], key, Written(es[0], key, before))
  }

  lemma StepSame<V>(c: Cache<V>, e: Event<V>, key: nat)
    requires Inv(c) && Enabled(c, e)
    ensures Inv(Step(c, e)) && View(Step(c, e), key) == Written(e, key, View(c, key))
  {
    match e
    case Fetch(k, now, saved, loaded) => GetSame(c, k, now, saved, loaded, key);
    case Timer(ticks) =>
      SweepSame(c.list, c.resident, c.store, ticks, key);
      SweepWithin(c.list, c.resident, c.store, ticks);
    case Save(answers) => SaveAllSame(c.list, c.store, answers, key);
    case AddResident(k) =>
    case ClearResident =>
    case Write(k, v) =>
      var i := Place(c.list, k);
      var m := c.list[i := c.list[i].(value := v)];
      var j := Place(c.list, key);
      if j >= 0 {
        PlaceIs(m, j);
      }
  }

  /** Main result: whatever is evicted, expired or not saved on the way, a run changes the value
      that a client sees of a key only by the client's own writes, and the cache fits. */
  lemma {:induction false} RunIsPlainMap<V>(c: Cache<V>, es: seq<Event<V>>, d: Cache<V>, key: nat)
    requires Inv(c) && Run(c, es, d)
    ensures Inv(d) && View(d, key) == LastWritten(es, key, View(c, key))
    decreases |es|
  {
    if es != [] {
      StepSame(c, es[0], key);
      RunIsPlainMap(Step(c, es[0]), es[1..], d, key);
    }
  }

  // ---------------------------------------------------------------- recency

  /** The place of the last use of key in the history of served keys. */
  function LastUse(log: seq<nat>, key: nat): (i: int)
    ensures -1 <= i < |log|
  {
    if log == [] then -1
    else if log[|log| - 1] == key then |log| - 1
    else LastUse(log[..|log| - 1], key)
  }

  /** Used more recently means nearer to the front. */
  ghost predicate Recency<V>(list: seq<Entry<V>>, log: seq<nat>) {
    list == [] || (Recency(list[1..], log) && 0 <= LastUse(log, list[0].key)
                   && forall e :: e in list[1..] ==> LastUse(log, e.key) < LastUse(log, list[0].key))
  }

  function Logged<V>(c: Cache<V>, e: Event<V>, log: seq<nat>): seq<nat> {
    if e.Fetch? && Served(c, e.key, e.saved, e.loaded) then log + [e.key] else log
  }

  ghost function History<V>(c: Cache<V>, es: seq<Event<V>>, d: Cache<V>, log: seq<nat>): seq<nat>
    requires Run(c, es, d)
    decreases |es|
  {
    if es == [] then log else History(Step(c, es[0]), es[1..], d, Logged(c, es[0], log))
  }

  lemma LastUseOn(log: seq<nat>, k: nat, key: nat)
    ensures LastUse(log + [k], key) == if k == key then |log| else LastUse(log, key)
  {
    assert (log + [k])[..|log|] == log;
  }

  /** A use of key moves no other key. */
  lemma {:induction false} RecencyOn<V>(list: seq<Entry<V>>, log: seq<nat>, k: nat)
    requires Recency(list, log) && Absent(list, k)
    ensures Recency(list, log + [k])
  {
    if list != [] {
      RecencyOn(list[1..], log, k);
      LastUseOn(log, k, list[0].key);
      forall e | e in list[1..] ensures LastUse(log + [k], e.key) < LastUse(log + [k], list[0].key) {
        LastUseOn(log, k, e.key);
      }
    }
  }

  lemma {:induction false} RecencyLess<V>(list: seq<Entry<V>>, log: seq<nat>, i: nat)
    requires Recency(list, log) && i < |list|
    ensures Recency(Less(list, i), log)
  {
    if i == 0 {
      assert Less(list, 0) == list[1..];
    } else {
      RecencyLess(list[1..], log, i - 1);
      assert Less(list, i) == [list[0]] + Less(list[1..], i - 1);
    }
  }

  lemma RecencyFront<V>(e: Entry<V>, list: seq<Entry<V>>, log: seq<nat>)
    requires Recency(list, log) && Absent(list, e.key)
    ensures Recency([e] + list, log + [e.key])
  {
    RecencyOn(list, log, e.key);
    assert ([e] + list)[1..] == list;
    LastUseOn(log, e.key, e.key);
    forall f | f in list ensures LastUse(log + [e.key], f.key) < |log| {
      LastUseOn(log, e.key, f.key);
    }
  }

  lemma {:induction false} RecencySweep<V>(list: seq<Entry<V>>, resident: set<nat>, store: map<nat, V>,
                                           ticks: seq<Tick>, log: seq<nat>)
    requires Recency(list, log) && Distinct(list) && |ticks| == |list|
    ensures Recency(Sweep(list, resident, store, ticks).0, log)
  {
    if list != [] {
      if !Due(list[0], resident, ticks[0].now) {
        RecencySweep(list[1..], resident, store, ticks[1..], log);
        SweepWithin(list[1..], resident, store, ticks[1..]);
        var l := Sweep(list[1..], resident, store, ticks[1..]).0;
        assert ([list[0]] + l)[1..] == l;
      } else if ticks[0].saved {
        RecencySweep(list[1..], resident, store[list[0].key := list[0].value], ticks[1..], log);
      }
    }
  }

  lemma {:induction false} RecencyWrite<V>(list: seq<Entry<V>>, log: seq<nat>, i: nat, v: V)
    requires Recency(list, log) && i < |list|
    ensures Recency(list[i := list[i].(value := v)], log)
  {
    var m := list[i := list[i].(value := v)];
    if i == 0 {
      assert m[1..] == list[1..];
    } else {
      RecencyWrite(list[1..], log, i - 1, v);
      assert m[1..] == list[1..][i - 1 := list[i].(value := v)];
      forall e | e in m[1..] ensures LastUse(log, e.key) < LastUse(log, m[0].key) {
        var j :| 0 <= j < |m| - 1 && m[1..][j] == e;
        assert list[1..][j] in list[1..] && list[1..][j].key == e.key;
      }
    }
  }

  lemma RecencyGet<V>(c: Cache<V>, key: nat, now: nat, saved: bool, loaded: bool, log: seq<nat>)
    requires Inv(c) && Recency(c.list, log)
    ensures Recency(Get(c, key, now, saved, loaded).list, if Served(c, key, saved, loaded) then log + [key] else log)
  {
    var i := Place(c.list, key);
    if i >= 0 {
      LessIs(c.list, i);
      RecencyLess(c.list, log, i);
      RecencyFront(c.list[i], Less(c.list, i), log);
    } else if MakeRoom(c, saved).Some? {
      RecencyRoom(c, saved, log);
      RoomSame(c, saved, key);
      var d := MakeRoom(c, saved).value;
      if key in d.store && loaded {
        RecencyFront(Entry(key, now, d.store[key]), d.list, log);
      }
    }
  }

  lemma RecencyRoom<V>(c: Cache<V>, saved: bool, log: seq<nat>)
    requires Inv(c) && Recency(c.list, log) && MakeRoom(c, saved).Some?
    ensures Recency(MakeRoom(c, saved).value.list, log)
  {
    if |c.list| == c.capacity {
      RecencyLess(c.list, log, Victim(c.list, c.resident));
    }
  }

  lemma RecencyStep<V>(c: Cache<V>, e: Event<V>, log: seq<nat>)
    requires Inv(c) && Enabled(c, e) && Recency(c.list, log)
    ensures Recency(Step(c, e).list, Logged(c, e, log))
  {
    match e
    case Fetch(key, now, saved, loaded) => RecencyGet(c, key, now, saved, loaded, log);
    case Timer(ticks) => RecencySweep(c.list, c.resident, c.store, ticks, log);
    case Save(answers) =>
    case AddResident(k) =>
    case ClearResident =>
    case Write(k, v) => RecencyWrite(c.list, log, Place(c.list, k), v);
  }

  lemma {:induction false} RunRecency<V>(c: Cache<V>, es: seq<Event<V>>, d: Cache<V>, log: seq<nat>)
    requires Inv(c) && Recency(c.list, log) && Run(c, es, d)
    ensures Inv(d) && Recency(d.list, History(c, es, d, log))
    decreases |es|
  {
    if es != [] {
      StepSame(c, es[0], 0);
      RecencyStep(c, es[0], log);
      RunRecency(Step(c, es[0]), es[1..], d, Logged(c, es[0], log));
    }
  }

  lemma {:induction false} RecencyBetween<V>(list: seq<Entry<V>>, log: seq<nat>, i: nat, j: nat)
    requires Recency(list, log) && i < j < |list|
    ensures LastUse(log, list[j].key) < LastUse(log, list[i].key)
  {
    if i == 0 {
      assert list[j] == list[1..][j - 1];
    } else {
      RecencyBetween(list[1..], log, i - 1, j - 1);
    }
  }

  lemma VictimAmong<V>(list: seq<Entry<V>>, resident: set<nat>, log: seq<nat>, e: Entry<V>)
    requires Recency(list, log) && e in list && e.key !in resident
    ensures var i := Victim(list, resident);
            i >= 0 && (e == list[i] || LastUse(log, list[i].key) < LastUse(log, e.key))
  {
    var i := Victim(list, resident);
    var j :| 0 <= j < |list| && list[j] == e;
    if j < i {
      RecencyBetween(list, log, j, i);
    }
  }

  // ---------------------------------------------------------------- what a GetData changes

  /** Main result: when a key that is not cached is asked for, and the cache is full, and some entry
      is not resident, and the save succeeds, exactly one entry leaves, in every run: of those not
      resident the one whose key was served longest ago. All others stay in their order behind the
      new one, the store has the value of the one that left, and the key is served exactly if the
      store has it and it loads. */
  lemma EvictionExact<V>(c: Cache<V>, es: seq<Event<V>>, d: Cache<V>, key: nat, now: nat, loaded: bool) returns (i: nat)
    requires Inv(c) && c.list == [] && Run(c, es, d) && !Cached(d, key) && |d.list| == d.capacity
    requires exists e :: e in d.list && e.key !in d.resident
    ensures i < |d.list| && d.list[i].key !in d.resident
    ensures var log := History(c, es, d, []);
            forall j :: 0 <= j < |d.list| && j != i && d.list[j].key !in d.resident ==>
                          LastUse(log, d.list[i].key) < LastUse(log, d.list[j].key)
    ensures var d' := Step(d, Fetch(key, now, true, loaded));
            && d'.list == (if key in d.store && loaded then [Entry(key, now, d.store[key])] else [])
                          + (d.list[..i] + d.list[i + 1..])
            && d'.store == d.store[d.list[i].key := d.list[i].value]
            && d'.resident == d.resident && d'.capacity == d.capacity
    ensures Served(d, key, true, loaded) <==> key in d.store && loaded
  {
    RunRecency(c, es, d, []);
    i := OldestOthers(d, History(c, es, d, []));
    Neutral(d.list[..i] + d.list[i + 1..]);
  }

  lemma OldestOthers<V>(d: Cache<V>, log: seq<nat>) returns (i: nat)
    requires Recency(d.list, log) && Distinct(d.list) && exists e :: e in d.list && e.key !in d.resident
    ensures i == Victim(d.list, d.resident) && d.list[i].key !in d.resident
    ensures forall j :: 0 <= j < |d.list| && j != i && d.list[j].key !in d.resident ==>
                          LastUse(log, d.list[i].key) < LastUse(log, d.list[j].key)
  {
    var e :| e in d.list && e.key !in d.resident;
    VictimAmong(d.list, d.resident, log, e);
    i := Victim(d.list, d.resident);
    forall j | 0 <= j < |d.list| && j != i && d.list[j].key !in d.resident
      ensures LastUse(log, d.list[i].key) < LastUse(log, d.list[j].key)
    {
      VictimAmong(d.list, d.resident, log, d.list[j]);
    }
  }

  /** When the save fails, or all entries are resident, nothing changes and nothing is served. */
  lemma NoRoomExact<V>(d: Cache<V>, key: nat, now: nat, saved: bool, loaded: bool)
    requires Inv(d) && !Cached(d, key) && |d.list| == d.capacity
    requires !saved || forall e :: e in d.list ==> e.key in d.resident
    ensures Step(d, Fetch(key, now, saved, loaded)) == d && !Served(d, key, saved, loaded)
  {
    var i := Victim(d.list, d.resident);
    assert i >= 0 ==> d.list[i] in d.list;
  }

  /** A cache that is not full gives nothing up, and saves nothing. */
  lemma RoomLeftExact<V>(d: Cache<V>, key: nat, now: nat, saved: bool, loaded: bool)
    requires Inv(d) && !Cached(d, key) && |d.list| < d.capacity
    ensures var d' := Step(d, Fetch(key, now, saved, loaded));
            d' == if key in d.store && loaded then d.(list := [Entry(key, now, d.store[key])] + d.list) else d
    ensures Served(d, key, saved, loaded) <==> key in d.store && loaded
  {
  }

  /** A hit only moves the entry to the front. */
  lemma HitExact<V>(d: Cache<V>, i: nat, now: nat, saved: bool, loaded: bool)
    requires Inv(d) && i < |d.list|
    ensures var key := d.list[i].key;
            && Step(d, Fetch(key, now, saved, loaded)) == d.(list := [d.list[i]] + (d.list[..i] + d.list[i + 1..]))
            && Served(d, key, saved, loaded)
  {
    PlaceIs(d.list, i);
  }

  // ---------------------------------------------------------------- what is saved

  /** SaveAllData writes exactly the entries whose save succeeds. */
  lemma {:induction false} SaveAllExact<V>(list: seq<Entry<V>>, store: map<nat, V>, saved: seq<bool>, key: nat)
    requires Distinct(list) && |saved| == |list|
    ensures var s, i := SaveAll(list, store, saved), Place(list, key);
            if i >= 0 && saved[i] then key in s && s[key] == list[i].value
            else (key in s <==> key in store) && (key in store ==> s[key] == store[key])
  {
    if list != [] {
      var s := if saved[0] then store[list[0].key := list[0].value] else store;
      SaveAllExact(list[1..], s, saved[1..], key);
    }
  }

  /** OnTimer writes exactly the entries it takes out. */
  lemma {:induction false} SweepStoreExact<V>(list: seq<Entry<V>>, resident: set<nat>, store: map<nat, V>,
                                              ticks: seq<Tick>, key: nat)
    requires Distinct(list) && |ticks| == |list|
    ensures var (l, s), i := Sweep(list, resident, store, ticks), Place(list, key);
            if i >= 0 && list[i] !in l then key in s && s[key] == list[i].value
            else (key in s <==> key in store) && (key in store ==> s[key] == store[key])
  {
    if list != [] {
      var due := Due(list[0], resident, ticks[0].now);
      if !due || ticks[0].saved {
        var s0 := if due then store[list[0].key := list[0].value] else store;
        SweepStoreExact(list[1..], resident, s0, ticks[1..], key);
        SweepWithin(list[1..], resident, s0, ticks[1..]);
        assert list[0] !in list[1..];
      }
    }
  }

  // ---------------------------------------------------------------- what a sweep removes

  /** Main result: a sweep takes out an entry exactly when it is due and no save failed up to it. */
  lemma {:induction false} SweepExact<V>(list: seq<Entry<V>>, resident: set<nat>, store: map<nat, V>,
                                         ticks: seq<Tick>, i: nat)
    requires Distinct(list) && |ticks| == |list| && i < |list|
    ensures list[i] !in Sweep(list, resident, store, ticks).0
        <==> Due(list[i], resident, ticks[i].now)
             && forall j :: 0 <= j <= i && Due(list[j], resident, ticks[j].now) ==> ticks[j].saved
  {
    var due := Due(list[0], resident, ticks[0].now);
    if !due || ticks[0].saved {
      var s := if due then store[list[0].key := list[0].value] else store;
      SweepWithin(list[1..], resident, s, ticks[1..]);
      var l := Sweep(list[1..], resident, s, ticks[1..]).0;
      if i > 0 {
        SweepExact(list[1..], resident, s, ticks[1..], i - 1);
        assert list[1..][i - 1] == list[i] && ticks[1..][i - 1] == ticks[i];
        assert list[i] != list[0];
        assert forall j :: 0 < j <= i ==> list[1..][j - 1] == list[j] && ticks[1..][j - 1] == ticks[j];
      } else {
        assert list[0] !in list[1..];
      }
    }
  }

  // ---------------------------------------------------------------- the time to live

  /** When the cached value of each key was loaded: only a Fetch that reads the store sets it. */
  function Noted<V>(c: Cache<V>, e: Event<V>, loads: map<nat, nat>): map<nat, nat> {
    if e.Fetch? && !Cached(c, e.key) && Served(c, e.key, e.saved, e.loaded) then loads[e.key := e.now] else loads
  }

  ghost function LoadTimes<V>(c: Cache<V>, es: seq<Event<V>>, d: Cache<V>, loads: map<nat, nat>): map<nat, nat>
    requires Run(c, es, d)
    decreases |es|
  {
    if es == [] then loads else LoadTimes(Step(c, es[0]), es[1..], d, Noted(c, es[0], loads))
  }

  ghost predicate Stamped<V>(list: seq<Entry<V>>, loads: map<nat, nat>) {
    forall i :: 0 <= i < |list| ==> list[i].key in loads && loads[list[i].key] == list[i].timestamp
  }

  lemma StampedWithin<V>(l: seq<Entry<V>>, m: seq<Entry<V>>, loads: map<nat, nat>)
    requires Stamped(l, loads) && forall e :: e in m ==> e in l
    ensures Stamped(m, loads)
  {
    forall i | 0 <= i < |m| ensures m[i].key in loads && loads[m[i].key] == m[i].timestamp {
      assert m[i] in l;
    }
  }

  lemma StampedLoad<V>(list: seq<Entry<V>>, loads: map<nat, nat>, e: Entry<V>)
    requires Stamped(list, loads) && Absent(list, e.key)
    ensures Stamped([e] + list, loads[e.key := e.timestamp])
  {
  }

  lemma StampedRoom<V>(c: Cache<V>, saved: bool, loads: map<nat, nat>)
    requires Inv(c) && Stamped(c.list, loads) && MakeRoom(c, saved).Some?
    ensures Stamped(MakeRoom(c, saved).value.list, loads)
  {
    if |c.list| == c.capacity {
      LessIs(c.list, Victim(c.list, c.resident));
    }
    StampedWithin(c.list, MakeRoom(c, saved).value.list, loads);
  }

  lemma StampedGet<V>(c: Cache<V>, e: Event<V>, loads: map<nat, nat>)
    requires Inv(c) && Stamped(c.list, loads) && e.Fetch?
    ensures Stamped(Step(c, e).list, Noted(c, e, loads))
  {
    if Cached(c, e.key) {
      FrontIs(c.list, Place(c.list, e.key));
      StampedWithin(c.list, Front(c, e.key).list, loads);
    } else if MakeRoom(c, e.saved).Some? {
      var d := MakeRoom(c, e.saved).value;
      StampedRoom(c, e.saved, loads);
      if e.key in d.store && e.loaded {
        RoomSame(c, e.saved, e.key);
        StampedLoad(d.list, loads, Entry(e.key, e.now, d.store[e.key]));
      }
    }
  }

  lemma StampedStep<V>(c: Cache<V>, e: Event<V>, loads: map<nat, nat>)
    requires Inv(c) && Enabled(c, e) && Stamped(c.list, loads)
    ensures Stamped(Step(c, e).list, Noted(c, e, loads))
  {
    match e
    case Fetch(key, now, saved, loaded) => StampedGet(c, e, loads);
    case Timer(ticks) =>
      SweepWithin(c.list, c.resident, c.store, ticks);
      StampedWithin(c.list, Step(c, e).list, loads);
    case Save(answers) =>
    case AddResident(k) =>
    case ClearResident =>
    case Write(k, v) =>
  }

  lemma {:induction false} RunStamped<V>(c: Cache<V>, es: seq<Event<V>>, d: Cache<V>, loads: map<nat, nat>)
    requires Inv(c) && Stamped(c.list, loads) && Run(c, es, d)
    ensures Inv(d) && Stamped(d.list, LoadTimes(c, es, d, loads))
    decreases |es|
  {
    if es != [] {
      StepSame(c, es[0], 0);
      StampedStep(c, es[0], loads);
      RunStamped(Step(c, es[0]), es[1..], d, Noted(c, es[0], loads));
    }
  }

  predicate Expired(key: nat, loads: map<nat, nat>, resident: set<nat>, now: nat)
    requires key in loads
  {
    key !in resident && (loads[key] + 6 * 60 * 60) % 0x1_0000_0000 < now
  }

  /** Main result: after every run the next sweep takes out an entry exactly when its key is not
      resident, its load is so long ago, and no save failed up to it. The hits since the load, and
      the writes, make no difference. */
  lemma LivesFromLoad<V>(c: Cache<V>, es: seq<Event<V>>, d: Cache<V>, ticks: seq<Tick>, i: nat)
    requires Inv(c) && c.list == [] && Run(c, es, d) && |ticks| == |d.list| && i < |d.list|
    ensures var loads := LoadTimes(c, es, d, map[]);
            && Stamped(d.list, loads)
            && (d.list[i] !in Step(d, Timer(ticks)).list <==>
                Expired(d.list[i].key, loads, d.resident, ticks[i].now)
                && forall j :: 0 <= j <= i ==>
                                 Expired(d.list[j].key, loads, d.resident, ticks[j].now) ==> ticks[j].saved)
  {
    RunStamped(c, es, d, map[]);
    SweepExact(d.list, d.resident, d.store, ticks, i);
  }

  // ---------------------------------------------------------------- residents

  /** Main result: a key is resident exactly when it was made so after the last ClearResident. */
  lemma {:induction false} ResidentExact<V>(c: Cache<V>, es: seq<Event<V>>, d: Cache<V>, key: nat)
    requires Inv(c) && Run(c, es, d)
    ensures key in d.resident <==>
            (key in c.resident && forall i :: 0 <= i < |es| ==> !es[i].ClearResident?)
            || exists i :: 0 <= i < |es| && MadeResident(es, i, key)
    decreases |es|
  {
    if es != [] {
      var rest := es[1..];
      StepSame(c, es[0], key);
      ResidentExact(Step(c, es[0]), rest, d, key);
      assert forall i :: 0 <= i < |rest| ==> es[i + 1] == rest[i];
      assert (forall i :: 0 <= i < |es| ==> !es[i].ClearResident?) <==>
             !es[0].ClearResident? && forall i :: 0 <= i < |rest| ==> !rest[i].ClearResident?;
      MadeLater(es, key);
    }
  }

  ghost predicate MadeResident<V>(es: seq<Event<V>>, i: nat, key: nat)
    requires i < |es|
  {
    es[i].AddResident? && es[i].key == key && forall j :: i < j < |es| ==> !es[j].ClearResident?
  }

  lemma MadeLater<V>(es: seq<Event<V>>, key: nat)
    requires es != []
    ensures (exists i :: 0 <= i < |es| && MadeResident(es, i, key)) <==>
            (es[0].AddResident? && es[0].key == key && forall j :: 0 <= j < |es[1..]| ==> !es[1..][j].ClearResident?)
            || exists i :: 0 <= i < |es[1..]| && MadeResident(es[1..], i, key)
  {
    var rest := es[1..];
    assert forall i :: 0 <= i < |rest| ==> es[i + 1] == rest[i];
    if i :| 0 <= i < |es| && MadeResident(es, i, key) {
      if i > 0 {
        assert MadeResident(rest, i - 1, key);
      }
    }
    if i :| 0 <= i < |rest| && MadeResident(rest, i, key) {
      assert forall j :: i + 1 < j < |es| ==> es[j] == rest[j - 1];
      assert MadeResident(es, i + 1, key);
    }
    if es[0].AddResident? && es[0].key == key && forall j :: 0 <= j < |rest| ==> !rest[j].ClearResident? {
      assert forall j :: 0 < j < |es| ==> es[j] == rest[j - 1];
      assert MadeResident(es, 0, key);
    }
  }

  // ---------------------------------------------------------------- a cache that is full of residents

  ghost predicate Stuck<V>(c: Cache<V>) {
    Inv(c) && |c.list| == c.capacity && forall i :: 0 <= i < |c.list| ==> c.list[i].key in c.resident
  }

  lemma {:induction false} SweepResident<V>(list: seq<Entry<V>>, resident: set<nat>, store: map<nat, V>,
                                            ticks: seq<Tick>)
    requires |ticks| == |list| && forall i :: 0 <= i < |list| ==> list[i].key in resident
    ensures Sweep(list, resident, store, ticks) == (list, store)
  {
    if list != [] {
      SweepResident(list[1..], resident, store, ticks[1..]);
      assert [list[0]] + list[1..] == list;
    }
  }

  lemma StuckStep<V>(c: Cache<V>, e: Event<V>, key: nat)
    requires Stuck(c) && Enabled(c, e) && !e.ClearResident? && !Cached(c, key)
    ensures Stuck(Step(c, e)) && !Cached(Step(c, e), key)
  {
    match e
    case Fetch(k, now, saved, loaded) =>
      if Cached(c, k) {
        FrontIs(c.list, Place(c.list, k));
        StuckList(c, Front(c, k), key);
      }
    case Timer(ticks) => SweepResident(c.list, c.resident, c.store, ticks);
    case Save(answers) =>
    case AddResident(k) => StuckList(c, Step(c, e), key);
    case Write(k, v) => StuckWrite(c, k, v, key);
  }

  /** Other places of the same entries, and more residents. */
  lemma StuckList<V>(c: Cache<V>, d: Cache<V>, key: nat)
    requires Stuck(c) && !Cached(c, key) && d.capacity == c.capacity && c.resident <= d.resident
    requires |d.list| == |c.list| && Distinct(d.list) && forall e :: e in d.list ==> e in c.list
    ensures Stuck(d) && !Cached(d, key)
  {
    StaysAbsent(c.list, d.list, key);
    forall i | 0 <= i < |d.list| ensures d.list[i].key in d.resident {
      assert d.list[i] in c.list;
    }
  }

  lemma StuckWrite<V>(c: Cache<V>, k: nat, v: V, key: nat)
    requires Stuck(c) && Cached(c, k) && !Cached(c, key)
    ensures Stuck(Step(c, Write(k, v))) && !Cached(Step(c, Write(k, v)), key)
  {
    var l := Step(c, Write(k, v)).list;
    assert forall i :: 0 <= i < |l| ==> l[i].key == c.list[i].key;
  }

  /** Main result: once every entry of a full cache is resident, no key that is not cached is served
      until ClearResidentKey, whatever else is called, be it sweeps that all find their time is up. */
  lemma {:induction false} StuckRun<V>(c: Cache<V>, es: seq<Event<V>>, d: Cache<V>, key: nat, saved: bool, loaded: bool)
    requires Stuck(c) && !Cached(c, key) && Run(c, es, d)
    requires forall i :: 0 <= i < |es| ==> !es[i].ClearResident?
    ensures Stuck(d) && !Cached(d, key) && !Served(d, key, saved, loaded)
    decreases |es|
  {
    if es != [] {
      StuckStep(c, es[0], key);
      StuckRun(Step(c, es[0]), es[1..], d, key, saved, loaded);
    }
  }
}
