/** CDynamicStruct on values: its byte-keyed data, its dirty keys, and the forms in which they are
    saved and loaded. */
module StructCodec {

  import opened Bytes
  import opened AnyType

  type Data = map<byte, Any>

  /** A key that is not set reads as the default value. */
  function Lookup(data: Data, key: byte): Any {
    if key in data then data[key] else Null
  }

  ghost predicate AllSendable(data: Data) {
    forall k :: k in data ==> Sendable(data[k])
  }

  // ---------------------------------------------------------------- the loose form

  /** The entries of keys from k on, in key order. */
  function EntriesFrom(data: Data, keys: set<byte>, k: nat): seq<byte>
    requires keys <= data.Keys && k <= 256
    decreases 256 - k
  {
    if k == 256 then []
    else if k as byte in keys then WriteEntry(Entry(k as byte, data[k as byte])) + EntriesFrom(data, keys, k + 1)
    else EntriesFrom(data, keys, k + 1)
  }

  /** The count is one byte. */
  function Loose(data: Data, keys: set<byte>): seq<byte>
    requires keys <= data.Keys
  {
    [(|keys| % 256) as byte] + EntriesFrom(data, keys, 0)
  }

  function LoadEntries(buf: seq<byte>, pos: nat, n: nat, target: Data): (Data, nat)
    decreases n
  {
    if n == 0 then (target, pos)
    else
      var key := NumAt(buf, pos, 1) as byte;
      var (x, next) := Read(buf, pos + 1, Lookup(target, key));
      LoadEntries(buf, next, n - 1, target[key := x])
  }

  function LoadLoose(buf: seq<byte>, pos: nat, target: Data): (Data, nat) {
    LoadEntries(buf, pos + 1, NumAt(buf, pos, 1), target)
  }

  // ---------------------------------------------------------------- the compact form

  predicate HasKey(data: Data, i: nat) {
    i < 256 && i as byte in data
  }

  /** The keys are 0 to n - 1. */
  ghost predicate Continuous(data: Data) {
    forall i: nat {:trigger HasKey(data, i)} :: i < |data| ==> HasKey(data, i)
  }

  ghost function ValuesFrom(data: Data, k: nat): seq<byte>
    requires Continuous(data) && k <= |data|
    decreases |data| - k
  {
    if k == |data| then [] else
    assert HasKey(data, k);
    Write(data[k as byte]) + ValuesFrom(data, k + 1)
  }

  /** The writer's loop over a byte counter ends only with fewer than 256 keys. */
  ghost function Compact(data: Data): seq<byte>
    requires Continuous(data) && |data| < 256
  {
    [|data| as byte] + ValuesFrom(data, 0)
  }

  function LoadValues(buf: seq<byte>, pos: nat, i: nat, count: nat, target: Data): (Data, nat)
    requires i <= count < 256
    decreases count - i
  {
    if i == count then (target, pos)
    else
      var (x, next) := Read(buf, pos, Lookup(target, i as byte));
      LoadValues(buf, next, i + 1, count, target[i as byte := x])
  }

  // ---------------------------------------------------------------- what a load does

  function Stored(target: Data, key: byte, a: Any): Data {
    target[key := if a.Null? then Lookup(target, key) else a]
  }

  function StoreFrom(target: Data, data: Data, keys: set<byte>, k: nat): Data
    requires keys <= data.Keys && k <= 256
    decreases 256 - k
  {
    if k == 256 then target
    else StoreFrom(if k as byte in keys then Stored(target, k as byte, data[k as byte]) else target, data, keys, k + 1)
  }

  /** Loading does not clear: r is the target with the values of keys over it, except that the
      default value leaves the target's value alone. */
  ghost predicate Overlays(r: Data, target: Data, data: Data, keys: set<byte>)
    requires keys <= data.Keys
  {
    forall x :: OverlaysAt(r, target, data, x in keys, x)
  }

  ghost predicate OverlaysAt(r: Data, target: Data, data: Data, over: bool, x: byte)
    requires over ==> x in data
  {
    && (x in r <==> x in target || over)
    && Lookup(r, x) == if over && !data[x].Null? then data[x] else Lookup(target, x)
  }

  lemma {:induction false} StoreOne(target: Data, data: Data, keys: set<byte>, k: nat, x: byte)
    requires keys <= data.Keys && k <= 256
    ensures OverlaysAt(StoreFrom(target, data, keys, k), target, data, x in keys && x as nat >= k, x)
    decreases 256 - k
  {
    if k < 256 {
      StoreOne(if k as byte in keys then Stored(target, k as byte, data[k as byte]) else target, data, keys, k + 1, x);
    }
  }

  lemma StoreOverlays(target: Data, data: Data, keys: set<byte>)
    requires keys <= data.Keys
    ensures Overlays(StoreFrom(target, data, keys, 0), target, data, keys)
  {
    forall x ensures OverlaysAt(StoreFrom(target, data, keys, 0), target, data, x in keys, x) {
      StoreOne(target, data, keys, 0, x);
    }
  }

  lemma WholeOverlay(r: Data, data: Data)
    requires Overlays(r, map[], data, data.Keys)
    ensures r == data
  {
    forall x ensures (x in r <==> x in data) && (x in r ==> r[x] == data[x]) {
      assert OverlaysAt(r, map[], data, x in data.Keys, x);
    }
  }

  function Above(keys: set<byte>, k: nat): set<byte> {
    set x | x in keys && x as nat >= k
  }

  lemma AboveNext(keys: set<byte>, k: nat)
    requires k < 256
    ensures |Above(keys, k)| == |Above(keys, k + 1)| + if k as byte in keys then 1 else 0
  {
    if k as byte in keys {
      assert Above(keys, k) == {k as byte} + Above(keys, k + 1);
    } else {
      assert Above(keys, k) == Above(keys, k + 1);
    }
  }

  lemma {:induction false} LoadFrom(buf: seq<byte>, pos: nat, data: Data, keys: set<byte>, k: nat, target: Data)
    requires AllSendable(data) && keys <= data.Keys && k <= 256
    requires Stands(buf, pos, EntriesFrom(data, keys, k))
    ensures LoadedFrom(buf, pos, data, keys, k, target)
    decreases 256 - k
  {
    if k == 256 {
      assert Above(keys, k) == {};
    } else if k as byte in keys {
      var e := Entry(k as byte, data[k as byte]);
      StandsSplit(buf, pos, WriteEntry(e), EntriesFrom(data, keys, k + 1));
      LoadOne(buf, pos, e, target);
      LoadFrom(buf, pos + |WriteEntry(e)|, data, keys, k + 1, Stored(target, e.key, e.value));
      LoadStep(buf, pos, data, keys, k, target);
    } else {
      AboveNext(keys, k);
      LoadFrom(buf, pos, data, keys, k + 1, target);
    }
  }

  /** From pos on the entries of keys from k on are loaded. */
  ghost predicate LoadedFrom(buf: seq<byte>, pos: nat, data: Data, keys: set<byte>, k: nat, target: Data)
    requires keys <= data.Keys && k <= 256
  {
    LoadEntries(buf, pos, |Above(keys, k)|, target)
    == (StoreFrom(target, data, keys, k), pos + |EntriesFrom(data, keys, k)|)
  }

  lemma LoadStep(buf: seq<byte>, pos: nat, data: Data, keys: set<byte>, k: nat, target: Data)
    requires keys <= data.Keys && k < 256 && k as byte in keys
    requires var e := Entry(k as byte, data[k as byte]);
             var next := pos + |WriteEntry(e)|;
             && NumAt(buf, pos, 1) == k && Read(buf, pos + 1, Lookup(target, e.key)).1 == next
             && target[e.key := Read(buf, pos + 1, Lookup(target, e.key)).0] == Stored(target, e.key, e.value)
             && LoadedFrom(buf, next, data, keys, k + 1, Stored(target, e.key, e.value))
    ensures LoadedFrom(buf, pos, data, keys, k, target)
  {
    AboveNext(keys, k);
  }

  lemma LoadOne(buf: seq<byte>, pos: nat, e: Entry, target: Data)
    requires Sendable(e.value) && Stands(buf, pos, WriteEntry(e))
    ensures NumAt(buf, pos, 1) == e.key as nat
    ensures var (x, next) := Read(buf, pos + 1, Lookup(target, e.key));
            next == pos + |WriteEntry(e)| && target[e.key := x] == Stored(target, e.key, e.value)
  {
    StandsSplit(buf, pos, [e.key], Write(e.value));
    ByteStands(buf, pos, e.key);
    ReadInto(buf, pos + 1, e.value, e.key, target);
  }

  lemma ReadInto(buf: seq<byte>, pos: nat, a: Any, key: byte, target: Data)
    requires Sendable(a) && Stands(buf, pos, Write(a))
    ensures var (x, next) := Read(buf, pos, Lookup(target, key));
            next == pos + |Write(a)| && target[key := x] == Stored(target, key, a)
  {
    ReadWrite(buf, pos, a, Lookup(target, key));
  }

  /** Main result: loading what was saved of at most 255 keys lays those keys over the target and
      stops at the end, in any buffer. */
  lemma LooseOverlays(buf: seq<byte>, pos: nat, data: Data, keys: set<byte>, target: Data)
    requires AllSendable(data) && keys <= data.Keys && |keys| < 256 && Stands(buf, pos, Loose(data, keys))
    ensures var (r, end) := LoadLoose(buf, pos, target);
            Overlays(r, target, data, keys) && end == pos + |Loose(data, keys)|
  {
    StandsSplit(buf, pos, [|keys| as byte], EntriesFrom(data, keys, 0));
    ByteStands(buf, pos, |keys| as byte);
    assert Above(keys, 0) == keys;
    LoadFrom(buf, pos + 1, data, keys, 0, target);
    StoreOverlays(target, data, keys);
  }

  /** 256 keys are counted as none: nothing is loaded. */
  lemma LooseOfAllKeys(buf: seq<byte>, pos: nat, data: Data, keys: set<byte>, target: Data)
    requires keys <= data.Keys && |keys| == 256 && Stands(buf, pos, Loose(data, keys))
    ensures LoadLoose(buf, pos, target) == (target, pos + 1)
  {
    StandsSplit(buf, pos, [0], EntriesFrom(data, keys, 0));
    ByteStands(buf, pos, 0);
  }

  /** Main result: a struct that is saved whole is restored by an empty one. */
  lemma LooseRestores(data: Data)
    requires AllSendable(data) && |data.Keys| < 256
    ensures LoadLoose(Loose(data, data.Keys), 0, map[]) == (data, |Loose(data, data.Keys)|)
  {
    var w := Loose(data, data.Keys);
    assert Stands(w, 0, w);
    LooseOverlays(w, 0, data, data.Keys, map[]);
    WholeOverlay(LoadLoose(w, 0, map[]).0, data);
  }

  // ---------------------------------------------------------------- compact round trip

  /** Under n are the n keys 0 to n - 1. */
  function Under(n: nat): (s: set<byte>)
    requires n <= 256
    ensures |s| == n && forall x :: x in s <==> x as nat < n
  {
    if n == 0 then {} else Under(n - 1) + {(n - 1) as byte}
  }

  lemma Within<T>(s: set<T>, t: set<T>)
    requires s <= t && |s| == |t|
    ensures s == t
  {
    if x :| x in t && x !in s {
      assert t == s + (t - s);
    }
  }

  /** n keys that include 0 to n - 1 are those. */
  lemma KeysAre(data: Data)
    requires Continuous(data) && |data| <= 256
    ensures data.Keys == Under(|data|)
  {
    forall x | x in Under(|data|) ensures x in data {
      assert HasKey(data, x as nat);
    }
    Within(Under(|data|), data.Keys);
  }

  lemma {:induction false} StoreNone(target: Data, data: Data, keys: set<byte>, k: nat)
    requires keys <= data.Keys && k <= 256 && forall x :: x in keys ==> x as nat < k
    ensures StoreFrom(target, data, keys, k) == target
    decreases 256 - k
  {
    if k < 256 {
      StoreNone(target, data, keys, k + 1);
    }
  }

  /** From pos on the values of the keys from k on are loaded. */
  ghost predicate ValuesLoaded(buf: seq<byte>, pos: nat, data: Data, k: nat, target: Data)
    requires Continuous(data) && k <= |data| < 256
  {
    LoadValues(buf, pos, k, |data|, target)
    == (StoreFrom(target, data, data.Keys, k), pos + |ValuesFrom(data, k)|)
  }

  lemma LoadValuesStep(buf: seq<byte>, pos: nat, data: Data, k: nat, target: Data)
    requires Continuous(data) && k < |data| < 256 && HasKey(data, k)
    requires var a := data[k as byte];
             var (x, next) := Read(buf, pos, Lookup(target, k as byte));
             && next == pos + |Write(a)| && target[k as byte := x] == Stored(target, k as byte, a)
             && ValuesLoaded(buf, next, data, k + 1, Stored(target, k as byte, a))
    ensures ValuesLoaded(buf, pos, data, k, target)
  {
  }

  /** The value of key k is read first, the rest behind it. */
  lemma LoadFirst(buf: seq<byte>, pos: nat, data: Data, k: nat, target: Data)
    requires AllSendable(data) && Continuous(data) && k < |data| < 256 && HasKey(data, k)
    requires Stands(buf, pos, ValuesFrom(data, k))
    requires var a := data[k as byte];
             ValuesLoaded(buf, pos + |Write(a)|, data, k + 1, Stored(target, k as byte, a))
    ensures ValuesLoaded(buf, pos, data, k, target)
  {
    StandsSplit(buf, pos, Write(data[k as byte]), ValuesFrom(data, k + 1));
    ReadInto(buf, pos, data[k as byte], k as byte, target);
    LoadValuesStep(buf, pos, data, k, target);
  }

  lemma LoadNone(buf: seq<byte>, pos: nat, data: Data, target: Data)
    requires Continuous(data) && |data| < 256
    ensures ValuesLoaded(buf, pos, data, |data|, target)
  {
    KeysAre(data);
    StoreNone(target, data, data.Keys, |data|);
  }

  lemma {:induction false} LoadCompactFrom(buf: seq<byte>, pos: nat, data: Data, k: nat, target: Data)
    requires AllSendable(data) && Continuous(data) && k <= |data| < 256
    requires Stands(buf, pos, ValuesFrom(data, k))
    ensures ValuesLoaded(buf, pos, data, k, target)
    decreases |data| - k
  {
    if k == |data| {
      LoadNone(buf, pos, data, target);
    } else {
      assert HasKey(data, k);
      var a := data[k as byte];
      StandsSplit(buf, pos, Write(a), ValuesFrom(data, k + 1));
      LoadCompactFrom(buf, pos + |Write(a)|, data, k + 1, Stored(target, k as byte, a));
      LoadFirst(buf, pos, data, k, target);
    }
  }

  /** Main result: the compact form of a continuous struct restores it. */
  lemma CompactRestores(data: Data)
    requires AllSendable(data) && Continuous(data) && |data| < 256
    ensures NumAt(Compact(data), 0, 1) == |data|
    ensures LoadValues(Compact(data), 1, 0, |data|, map[]) == (data, |Compact(data)|)
  {
    var w := Compact(data);
    assert Stands(w, 0, w);
    StandsSplit(w, 0, [|data| as byte], ValuesFrom(data, 0));
    ByteStands(w, 0, |data| as byte);
    LoadCompactFrom(w, 1, data, 0, map[]);
    StoreOverlays(map[], data, data.Keys);
    WholeOverlay(StoreFrom(map[], data, data.Keys, 0), data);
  }

  // ---------------------------------------------------------------- replication by deltas

  datatype Struct = Struct(data: Data, dirty: set<byte>)

  datatype Event = Put(key: byte, value: Any) | Look(key: byte)

  /** setProperty and getProperty; the latter creates what it does not find. */
  function Step(s: Struct, e: Event): Struct {
    match e
    case Put(key, value) =>
      if key !in s.data || !Same(s.data[key], value) then Struct(s.data[key := value], s.dirty + {key}) else s
    case Look(key) => s.(data := s.data[key := Lookup(s.data, key)])
  }

  function Steps(s: Struct, es: seq<Event>): Struct
    decreases |es|
  {
    if es == [] then s else Steps(Step(s, es[0]), es[1..])
  }

  ghost predicate Sound(s: Struct) {
    AllSendable(s.data) && s.dirty <= s.data.Keys
  }

  ghost predicate Agree(a: Data, b: Data) {
    forall k :: Lookup(a, k) == Lookup(b, k)
  }

  /** Outside the dirty keys nothing has changed since the last round. */
  ghost predicate Tracks(s: Struct, replica: Data) {
    Sound(s) && forall k :: k !in s.dirty ==> Lookup(s.data, k) == Lookup(replica, k)
  }

  ghost predicate EventsSendable(es: seq<Event>) {
    forall e :: e in es && e.Put? ==> Sendable(e.value)
  }

  lemma {:induction false} SendableTyped(a: Any)
    requires Sendable(a)
    ensures Typed(a)
    decreases a
  {
    match a
    case Vec(items) =>
      forall x | x in items ensures Typed(x) {
        SendableTyped(x);
      }
    case Map1A(entries) =>
      forall e | e in entries ensures Typed(e.value) {
        SendableTyped(e.value);
      }
    case _ =>
  }

  lemma {:induction false} StepsTrack(s: Struct, es: seq<Event>, replica: Data)
    requires Tracks(s, replica) && EventsSendable(es)
    ensures Tracks(Steps(s, es), replica)
    decreases |es|
  {
    if es != [] {
      assert es[0] in es;
      StepsTrack(Step(s, es[0]), es[1..], replica);
    }
  }

  ghost function Delivered(s: Struct, replica: Data): Data
    requires s.dirty <= s.data.Keys
  {
    LoadLoose(Loose(s.data, s.dirty), 0, replica).0
  }

  /** A round overwrites the dirty keys, but for those that have the default value. */
  lemma RoundDelivers(t: Struct, replica: Data)
    requires Sound(t) && |t.dirty| < 256
    ensures forall k :: Lookup(Delivered(t, replica), k) ==
                        if k in t.dirty && !t.data[k].Null? then t.data[k] else Lookup(replica, k)
  {
    var w := Loose(t.data, t.dirty);
    assert Stands(w, 0, w);
    LooseOverlays(w, 0, t.data, t.dirty, replica);
    var d := Delivered(t, replica);
    forall k ensures Lookup(d, k) == if k in t.dirty && !t.data[k].Null? then t.data[k] else Lookup(replica, k) {
      assert OverlaysAt(d, replica, t.data, k in t.dirty, k);
    }
  }

  /** Main result: after any changes, one round makes the replica equal to the sender exactly when
      no dirty key was set to the default value over another value of the replica. */
  lemma RoundExact(s: Struct, es: seq<Event>, replica: Data)
    requires Sound(s) && s.dirty == {} && Agree(s.data, replica) && EventsSendable(es)
    requires |Steps(s, es).dirty| < 256
    ensures var t := Steps(s, es);
            Sound(t) && (Agree(t.data, Delivered(t, replica))
                         <==> forall k :: k in t.dirty && t.data[k].Null? ==> Lookup(replica, k).Null?)
  {
    StepsTrack(s, es, replica);
    var t := Steps(s, es);
    var d := Delivered(t, replica);
    RoundDelivers(t, replica);
    if Agree(t.data, d) {
      forall k | k in t.dirty && t.data[k].Null? ensures Lookup(replica, k).Null? {
        assert Lookup(t.data, k) == Lookup(d, k);
      }
    }
  }

  /** With all 256 keys dirty nothing arrives. */
  lemma RoundOfAllKeys(s: Struct, replica: Data)
    requires Sound(s) && |s.dirty| == 256
    ensures Delivered(s, replica) == replica
  {
    var w := Loose(s.data, s.dirty);
    assert Stands(w, 0, w);
    LooseOfAllKeys(w, 0, s.data, s.dirty, replica);
  }

  /** Setting only values that are there already makes nothing dirty and changes nothing. */
  lemma {:induction false} QuietSteps(s: Struct, es: seq<Event>)
    requires forall e :: e in es ==> e.key in s.data && (e.Put? ==> Same(s.data[e.key], e.value))
    ensures Steps(s, es) == s
    decreases |es|
  {
    if es != [] {
      assert es[0] in es;
      QuietStep(s, es[0]);
      QuietSteps(s, es[1..]);
    }
  }

  lemma QuietStep(s: Struct, e: Event)
    requires e.key in s.data && (e.Put? ==> Same(s.data[e.key], e.value))
    ensures Step(s, e) == s
  {
    assert s.data[e.key := s.data[e.key]] == s.data;
  }

  /** A value that is not there yet is taken over, and its key is sent with the next round; looking
      for a key that is not there creates it with the default value, and sends nothing. */
  lemma StepExact(s: Struct, key: byte, value: Any)
    requires key !in s.data || !Same(s.data[key], value)
    ensures Step(s, Put(key, value)) == Struct(s.data[key := value], s.dirty + {key})
    ensures key !in s.data ==> Step(s, Look(key)) == Struct(s.data[key := Null], s.dirty)
  {
  }

  // ---------------------------------------------------------------- byte by byte

  /** The loose form: the number of keys, then every key with its value, lowest key first. */
  lemma LooseBytes(data: Data, j: byte, k: byte)
    requires data.Keys == {j, k} && j < k
    ensures Loose(data, {j, k}) == [2, j] + Write(data[j]) + [k] + Write(data[k])
  {
    var keys := {j, k};
    assert |keys| == 2;
    SkipTo(data, keys, 0, j as nat);
    SkipTo(data, keys, j as nat + 1, k as nat);
    SkipTo(data, keys, k as nat + 1, 256);
    var a, b := Write(data[j]), Write(data[k]);
    assert EntriesFrom(data, keys, k as nat) == [k] + b + [];
    assert EntriesFrom(data, keys, j as nat) == [j] + a + ([k] + b);
    assert [2 as byte] + ([j] + a + ([k] + b)) == [2, j] + a + [k] + b;
  }

  lemma {:induction false} SkipTo(data: Data, keys: set<byte>, k: nat, n: nat)
    requires keys <= data.Keys && k <= n <= 256 && forall x :: x in keys ==> x as nat < k || n <= x as nat
    ensures EntriesFrom(data, keys, k) == EntriesFrom(data, keys, n)
    decreases n - k
  {
    if k < n {
      SkipTo(data, keys, k + 1, n);
    }
  }

  /** The compact form: the number of values, then the values of the keys 0, 1 and so on. */
  lemma CompactBytes(data: Data)
    requires data.Keys == {0, 1}
    ensures |data| == 2 && Continuous(data) && Compact(data) == [2] + Write(data[0]) + Write(data[1])
  {
    assert |data.Keys| == |{0 as byte, 1 as byte}| == 2;
    forall i: nat {:trigger HasKey(data, i)} | i < |data| ensures HasKey(data, i) {
      assert i == 0 || i == 1;
    }
    assert ValuesFrom(data, 2) == [] && ValuesFrom(data, 1) == Write(data[1]) + [];
    assert [2 as byte] + (Write(data[0]) + Write(data[1])) == [2] + Write(data[0]) + Write(data[1]);
  }

  // ---------------------------------------------------------------- many rounds

  /** Each round is a run of changes, then a delta; the sender clears its dirty keys. */
  ghost predicate Rounds(s: Struct, replica: Data, rounds: seq<seq<Event>>, t: Struct, copy: Data)
    decreases |rounds|
  {
    if rounds == [] then t == s && copy == replica
    else
      var u := Steps(s, rounds[0]);
      EventsSendable(rounds[0]) && u.dirty <= u.data.Keys && |u.dirty| < 256
      && Rounds(u.(dirty := {}), Delivered(u, replica), rounds[1..], t, copy)
  }

  /** The last value other than the default that the sender had for a key at the end of a round. */
  ghost function LastValue(s: Struct, rounds: seq<seq<Event>>, k: byte, before: Any): Any
    decreases |rounds|
  {
    if rounds == [] then before
    else
      var u := Steps(s, rounds[0]);
      var value := Lookup(u.data, k);
      LastValue(u.(dirty := {}), rounds[1..], k, if value.Null? then before else value)
  }

  /** What the sender has, the replica has too, but for default values. */
  ghost predicate Follows(data: Data, replica: Data) {
    forall k :: !Lookup(data, k).Null? ==> Lookup(replica, k) == Lookup(data, k)
  }

  lemma OneRound(s: Struct, es: seq<Event>, replica: Data)
    requires Sound(s) && s.dirty == {} && Follows(s.data, replica) && EventsSendable(es)
    requires |Steps(s, es).dirty| < 256
    ensures var u := Steps(s, es);
            && Sound(u) && Follows(u.data, Delivered(u, replica))
            && forall k :: Lookup(Delivered(u, replica), k) ==
                           if Lookup(u.data, k).Null? then Lookup(replica, k) else Lookup(u.data, k)
  {
    StepsTrack(s, es, s.data);
    RoundDelivers(Steps(s, es), replica);
  }

  lemma {:induction false} RoundsFollow(s: Struct, replica: Data, rounds: seq<seq<Event>>, t: Struct, copy: Data)
    requires Sound(s) && s.dirty == {} && Follows(s.data, replica) && Rounds(s, replica, rounds, t, copy)
    ensures Follows(t.data, copy) && forall k :: Lookup(copy, k) == LastValue(s, rounds, k, Lookup(replica, k))
    decreases |rounds|
  {
    if rounds != [] {
      var u := Steps(s, rounds[0]);
      OneRound(s, rounds[0], replica);
      RoundsFollow(u.(dirty := {}), Delivered(u, replica), rounds[1..], t, copy);
    }
  }

  /** Main result: after any number of rounds of at most 255 keys each, the replica has for every key
      the last value other than the default that the sender had at the end of a round. So it is equal
      if and only if no key that now has the default value ever had another one then. */
  lemma RoundsExact(s: Struct, replica: Data, rounds: seq<seq<Event>>, t: Struct, copy: Data)
    requires Sound(s) && s.dirty == {} && Agree(s.data, replica) && Rounds(s, replica, rounds, t, copy)
    ensures forall k :: Lookup(copy, k) == LastValue(s, rounds, k, Lookup(replica, k))
    ensures Agree(t.data, copy) <==>
            forall k :: Lookup(t.data, k).Null? ==> LastValue(s, rounds, k, Lookup(replica, k)).Null?
  {
    RoundsFollow(s, replica, rounds, t, copy);
    if Agree(t.data, copy) {
      forall k | Lookup(t.data, k).Null? ensures LastValue(s, rounds, k, Lookup(replica, k)).Null? {
        assert Lookup(copy, k) == Lookup(t.data, k);
      }
    }
  }

  /** A value that is set back to the default stays at the replica. */
  lemma DefaultIsNotSent()
    ensures var s := Struct(map[1 := Num(UINT8, 7)], {});
            var t := Steps(s, [Put(1, Null)]);
            Sound(t) && !Agree(t.data, Delivered(t, s.data))
  {
    var s := Struct(map[1 := Num(UINT8, 7)], {});
    var t := Step(s, Put(1, Null));
    assert Span(1) == 256;
    assert Steps(s, [Put(1, Null)]) == t by {
      assert [Put(1, Null)][1..] == [];
    }
    RoundExact(s, [Put(1, Null)], s.data);
    assert 1 in t.dirty && t.data[1].Null?;
    assert Lookup(s.data, 1) == Num(UINT8, 7);
  }
}
