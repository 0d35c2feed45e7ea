/** The write-back cache of CacheMgr.h as a transition system over values: cached objects,
    database rows, the queue of batches on their way to the database thread and the queue
    of completion callbacks on their way back. */
module CacheStore {
  import opened KeyOrder

  type Key = nat
  /** A bit of m_loadedDataFilter; the template parameter S is left at its default. */
  const COLUMNS: nat := 16
  type Column = c: nat | c < COLUMNS
  type Value = string
  type Row = map<Column, Value>

  /** loaded holds the columns marked in m_loadedDataFilter with their in-memory values. */
  datatype Object = Object(loaded: Row, useCount: nat, dirty: bool, inPersistence: bool, persistenceTime: int)

  /** An SqlQueryBatch: the values a row's loaded columns had when it was serialized. */
  datatype Batch = Batch(key: Key, snapshot: Row)

  datatype State = State(cache: map<Key, Object>, rows: map<Key, Row>, queue: seq<Batch>, results: seq<Key>)

  datatype Timing = Timing(persistenceInterval: nat, removeDelay: nat)

  // ---------------------------------------------------------------- observations

  function RowOf(rows: map<Key, Row>, k: Key): Row {
    if k in rows then rows[k] else map[]
  }

  /** Row k as a reader sees it who goes through the cache, and the whole table. */
  function SeenRow(st: State, k: Key): Row
    requires k in st.rows
  {
    st.rows[k] + (if k in st.cache then st.cache[k].loaded else map[])
  }

  function Seen(st: State): map<Key, Row> {
    map k | k in st.rows :: SeenRow(st, k)
  }

  function Assign(table: map<Key, Row>, k: Key, c: Column, v: Value): map<Key, Row>
    requires k in table
  {
    var row: Row := table[k][c := v];
    table[k := row]
  }

  ghost predicate Holds(row: Row, part: Row) {
    forall c :: c in part ==> c in row && row[c] == part[c]
  }

  /** The snapshot of k still on its way to the database thread. */
  function Pending(queue: seq<Batch>, k: Key): Row {
    if queue == [] then map[]
    else if queue[0].key == k then queue[0].snapshot
    else Pending(queue[1..], k)
  }

  function QueuedKeys(queue: seq<Batch>): multiset<Key> {
    if queue == [] then multiset{} else multiset{queue[0].key} + QueuedKeys(queue[1..])
  }

  /** Keys whose batch has been handed out and whose callback has not run yet. */
  function Outstanding(st: State): multiset<Key> {
    QueuedKeys(st.queue) + multiset(st.results)
  }

  function InFlight(st: State, k: Key): bool {
    k in st.cache && st.cache[k].inPersistence
  }

  // ---------------------------------------------------------------- transitions

  /** AutoRelease: the last action of a holder. */
  function Release(st: State, k: Key): State
    requires k in st.cache && st.cache[k].useCount > 0
  {
    var o := st.cache[k];
    st.(cache := st.cache[k := o.(dirty := true, useCount := o.useCount - 1)])
  }

  /** A holder assigns one of the columns it asked for. */
  function Modify(st: State, k: Key, c: Column, v: Value): State
    requires k in st.cache && st.cache[k].useCount > 0 && c in st.cache[k].loaded
  {
    st.(cache := st.cache[k := st.cache[k].(loaded := st.cache[k].loaded[c := v])])
  }

  /** FindInCache. */
  function Find(st: State, k: Key): State {
    if k !in st.cache then st
    else st.(cache := st.cache[k := st.cache[k].(useCount := st.cache[k].useCount + 1)])
  }

  /** T::Exist: a missing row is created on request, when the database allows it. */
  function Exist(st: State, k: Key, autoCreate: bool, initial: Row): State {
    if k in st.rows || !autoCreate then st else st.(rows := st.rows[k := initial])
  }

  /** PrepareData from column idx on: load the wanted columns that are missing, stop at the
      first failure. Columns loaded before a failure stay loaded. */
  function Prepare(loaded: Row, row: Row, filter: set<Column>, fails: set<Column>, idx: nat): (r: (Row, bool))
    decreases COLUMNS - idx
  {
    if idx >= COLUMNS then (loaded, true)
    else if idx in filter && idx !in loaded then
      if idx in fails || idx !in row then (loaded, false)
      else Prepare(loaded[idx := row[idx]], row, filter, fails, idx + 1)
    else Prepare(loaded, row, filter, fails, idx + 1)
  }

  function NewObject(): Object {
    Object(map[], 0, false, false, 0)
  }

  /** Attach: find or create the object, load the wanted columns, take a handle. An object that
      was created for nothing is deleted again. */
  function Attach(st: State, k: Key, filter: set<Column>, autoCreate: bool, initial: Row, fails: set<Column>, now: int)
    : (r: (State, bool))
  {
    var st1 := if k in st.cache then st else Exist(st, k, autoCreate, initial);
    if k !in st.cache && k !in st1.rows then (st1, false)
    else
      var o := if k in st.cache then st.cache[k] else NewObject();
      var (loaded, ok) := Prepare(o.loaded, RowOf(st1.rows, k), filter, fails, 0);
      if ok then (Put(st1, k, o.(loaded := loaded, useCount := o.useCount + 1, persistenceTime := now)), true)
      else (if k in st.cache then Put(st1, k, o.(loaded := loaded)) else st1, false)
  }

  /** Attach by its three steps: the row, the columns, the handle. */
  lemma AttachInSteps(st: State, k: Key, filter: set<Column>, autoCreate: bool, initial: Row,
                      fails: set<Column>, now: int, rows: map<Key, Row>, cache: map<Key, Object>)
    requires rows == if k in st.cache then st.rows else Exist(st, k, autoCreate, initial).rows
    requires k in st.cache || k in rows
    requires var o := if k in st.cache then st.cache[k] else NewObject();
             var (loaded, ok) := Prepare(o.loaded, RowOf(rows, k), filter, fails, 0);
             cache == if ok then st.cache[k := o.(loaded := loaded, useCount := o.useCount + 1, persistenceTime := now)]
                      else if k in st.cache then st.cache[k := o.(loaded := loaded)] else st.cache
    ensures var o := if k in st.cache then st.cache[k] else NewObject();
            var ok := Prepare(o.loaded, RowOf(rows, k), filter, fails, 0).1;
            Attach(st, k, filter, autoCreate, initial, fails, now) == (st.(rows := rows, cache := cache), ok)
  {
  }

  function Put(st: State, k: Key, o: Object): State {
    st.(cache := st.cache[k := o])
  }

  /** The database thread executes the oldest batch and queues its callback. */
  function Execute(st: State): State
    requires st.queue != []
  {
    var b := st.queue[0];
    st.(rows := st.rows[b.key := RowOf(st.rows, b.key) + b.snapshot],
        queue := st.queue[1..],
        results := st.results + [b.key])
  }

  /** OnPersistenceComp. */
  function Complete(st: State, k: Key, now: int): State
    requires k in st.cache
  {
    st.(cache := st.cache[k := st.cache[k].(inPersistence := false, persistenceTime := now)])
  }

  /** ProcessResultQueue: run every waiting callback. */
  function Process(st: State, now: int): State
    requires forall k :: k in st.results ==> k in st.cache
    decreases |st.results|
  {
    if st.results == [] then st
    else Process(Complete(st, st.results[0], now).(results := st.results[1..]), now)
  }

  /** Body of the Update loop: write back, then drop. */
  function WriteBack(st: State, k: Key, now: int, t: Timing): State
    requires k in st.cache
  {
    var o := st.cache[k];
    if (o.useCount > 0 || o.dirty) && !o.inPersistence && now > o.persistenceTime + t.persistenceInterval then
      st.(cache := st.cache[k := o.(dirty := false, inPersistence := true)],
          queue := st.queue + [Batch(k, o.loaded)])
    else st
  }

  function Drop(st: State, k: Key, now: int, t: Timing): State
    requires k in st.cache
  {
    var o := st.cache[k];
    if o.useCount == 0 && !o.dirty && !o.inPersistence && now > o.persistenceTime + t.removeDelay then
      st.(cache := st.cache - {k})
    else st
  }

  function Visit(st: State, k: Key, now: int, t: Timing): State
    requires k in st.cache
  {
    Drop(WriteBack(st, k, now, t), k, now, t)
  }

  function Sweep(st: State, todo: set<Key>, now: int, t: Timing): State
    requires todo <= st.cache.Keys
    decreases todo
  {
    if todo == {} then st
    else
      var k := Least(todo);
      Sweep(Visit(st, k, now, t), todo - {k}, now, t)
  }

  // ---------------------------------------------------------------- invariant

  ghost predicate KeyInv(st: State, k: Key) {
    // at most one batch is outstanding, and one exactly while the object is marked
    && Outstanding(st)[k] == (if InFlight(st, k) then 1 else 0)
    && (k in st.cache ==>
          var o := st.cache[k];
          && k in st.rows
          // a batch only carries columns that are still loaded
          && Pending(st.queue, k).Keys <= o.loaded.Keys
          // an object nobody holds and that is not dirty is on its way to the rows, or there
          && (o.useCount == 0 && !o.dirty ==> Holds(RowOf(st.rows, k) + Pending(st.queue, k), o.loaded)))
  }

  ghost predicate Inv(st: State) {
    forall k :: KeyInv(st, k)
  }

  // ---------------------------------------------------------------- queue lemmas

  lemma AppendBehind(queue: seq<Batch>, b: Batch)
    ensures queue == [] ==> queue + [b] == [b]
    ensures queue != [] ==> (queue + [b])[0] == queue[0] && (queue + [b])[1..] == queue[1..] + [b]
  {
  }

  lemma {:induction false} QueuedAppend(queue: seq<Batch>, b: Batch)
    ensures QueuedKeys(queue + [b]) == QueuedKeys(queue) + multiset{b.key}
  {
    AppendBehind(queue, b);
    if queue != [] {
      QueuedAppend(queue[1..], b);
    }
  }

  lemma {:induction false} PendingAppend(queue: seq<Batch>, b: Batch, k: Key)
    ensures Pending(queue + [b], k) ==
            if k == b.key && k !in QueuedKeys(queue) then b.snapshot else Pending(queue, k)
  {
    AppendBehind(queue, b);
    if queue != [] {
      PendingAppend(queue[1..], b, k);
    }
  }

  lemma QueueAppend(queue: seq<Batch>, b: Batch)
    ensures QueuedKeys(queue + [b]) == QueuedKeys(queue) + multiset{b.key}
    ensures forall k :: Pending(queue + [b], k) ==
                        if k == b.key && k !in QueuedKeys(queue) then b.snapshot else Pending(queue, k)
  {
    QueuedAppend(queue, b);
    forall k ensures Pending(queue + [b], k) ==
                     if k == b.key && k !in QueuedKeys(queue) then b.snapshot else Pending(queue, k)
    {
      PendingAppend(queue, b, k);
    }
  }

  lemma {:induction false} NotPending(queue: seq<Batch>, k: Key)
    requires k !in QueuedKeys(queue)
    ensures Pending(queue, k) == map[]
  {
    if queue != [] {
      NotPending(queue[1..], k);
    }
  }

  lemma ResultsAreCached(st: State)
    requires Inv(st)
    ensures forall k :: k in st.results ==> InFlight(st, k)
    ensures forall b :: b in st.queue ==> InFlight(st, b.key)
  {
    forall k | k in st.results ensures InFlight(st, k) {
      assert k in multiset(st.results);
      assert KeyInv(st, k);
    }
    forall b | b in st.queue ensures InFlight(st, b.key) {
      QueuedKey(st.queue, b);
      assert KeyInv(st, b.key);
    }
  }

  lemma {:induction false} QueuedKey(queue: seq<Batch>, b: Batch)
    requires b in queue
    ensures b.key in QueuedKeys(queue)
  {
    if queue[0] != b {
      assert b in queue[1..];
      QueuedKey(queue[1..], b);
    }
  }

  // ---------------------------------------------------------------- each step keeps Inv and the view

  lemma ReleaseKeeps(st: State, k: Key)
    requires Inv(st) && k in st.cache && st.cache[k].useCount > 0
    ensures Inv(Release(st, k)) && Seen(Release(st, k)) == Seen(st)
  {
    forall j ensures KeyInv(Release(st, k), j) {
      assert KeyInv(st, j);
    }
  }

  lemma FindKeeps(st: State, k: Key)
    requires Inv(st)
    ensures Inv(Find(st, k)) && Seen(Find(st, k)) == Seen(st)
  {
    forall j ensures KeyInv(Find(st, k), j) {
      assert KeyInv(st, j);
    }
  }

  lemma ModifyKeeps(st: State, k: Key, c: Column, v: Value)
    requires Inv(st) && k in st.cache && st.cache[k].useCount > 0 && c in st.cache[k].loaded
    ensures Inv(Modify(st, k, c, v))
    ensures k in Seen(st) && Seen(Modify(st, k, c, v)) == Assign(Seen(st), k, c, v)
  {
    var st' := Modify(st, k, c, v);
    assert KeyInv(st, k);
    PutInv(st, k, st'.cache[k]);
    assert SeenRow(st', k) == SeenRow(st, k)[c := v];
  }

  lemma {:induction false} PrepareLoads(loaded: Row, row: Row, filter: set<Column>, fails: set<Column>, idx: nat)
    ensures var (r, ok) := Prepare(loaded, row, filter, fails, idx);
            && loaded.Keys <= r.Keys
            && (forall c :: c in loaded ==> r[c] == loaded[c])
            && (forall c :: c in r && c !in loaded ==> c in row && r[c] == row[c])
            && (ok ==> forall c :: c in filter && idx <= c ==> c in r)
    decreases COLUMNS - idx
  {
    if idx < COLUMNS {
      if idx in filter && idx !in loaded {
        if idx !in fails && idx in row {
          PrepareLoads(loaded[idx := row[idx]], row, filter, fails, idx + 1);
        }
      } else {
        PrepareLoads(loaded, row, filter, fails, idx + 1);
      }
    }
  }

  lemma AttachCachedKeeps(st: State, k: Key, filter: set<Column>, autoCreate: bool, initial: Row,
                          fails: set<Column>, now: int)
    requires Inv(st) && k in st.cache
    ensures var st' := Attach(st, k, filter, autoCreate, initial, fails, now).0;
            Inv(st') && Seen(st') == Seen(st)
  {
    var st' := Attach(st, k, filter, autoCreate, initial, fails, now).0;
    var o, row := st.cache[k], RowOf(st.rows, k);
    PrepareLoads(o.loaded, row, filter, fails, 0);
    assert KeyInv(st, k);
    MoreColumns(row, Pending(st.queue, k), o.loaded, st'.cache[k].loaded);
    PutInv(st, k, st'.cache[k]);
    PutSeen(st, k, st'.cache[k]);
  }

  /** Columns that are loaded from the row later change nothing. */
  lemma MoreColumns(row: Row, pending: Row, loaded: Row, more: Row)
    requires pending.Keys <= loaded.Keys <= more.Keys
    requires forall c :: c in more ==> if c in loaded then more[c] == loaded[c] else c in row && more[c] == row[c]
    ensures row + more == row + loaded
    ensures Holds(row + pending, loaded) ==> Holds(row + pending, more)
  {
  }

  /** An object that takes the place of another one, or of none, and is as much in persistence. */
  lemma PutInv(st: State, k: Key, o: Object)
    requires Inv(st) && KeyInv(Put(st, k, o), k) && o.inPersistence == InFlight(st, k)
    ensures Inv(Put(st, k, o))
  {
    forall j ensures KeyInv(Put(st, k, o), j) {
      assert KeyInv(st, j);
    }
  }

  lemma PutSeen(st: State, k: Key, o: Object)
    requires k in st.rows && SeenRow(Put(st, k, o), k) == SeenRow(st, k)
    ensures Seen(Put(st, k, o)) == Seen(st)
  {
  }

  lemma ExistKeeps(st: State, k: Key, autoCreate: bool, initial: Row)
    requires Inv(st) && k !in st.cache
    ensures var st' := Exist(st, k, autoCreate, initial);
            Inv(st') && Seen(st') == (if k in st.rows || !autoCreate then Seen(st) else Seen(st)[k := initial])
  {
    var st' := Exist(st, k, autoCreate, initial);
    if st' != st {
      assert SeenRow(st', k) == initial;
      forall j ensures KeyInv(st', j) {
        assert KeyInv(st, j);
      }
    }
  }

  lemma InsertKeeps(st: State, k: Key, loaded: Row, now: int)
    requires Inv(st) && k !in st.cache && k in st.rows && Holds(st.rows[k], loaded)
    ensures var st' := Put(st, k, Object(loaded, 1, false, false, now));
            Inv(st') && Seen(st') == Seen(st)
  {
    var st' := Put(st, k, Object(loaded, 1, false, false, now));
    assert KeyInv(st, k);
    NotPending(st.queue, k);
    assert SeenRow(st', k) == SeenRow(st, k);
    PutInv(st, k, st'.cache[k]);
    PutSeen(st, k, st'.cache[k]);
  }

  lemma AttachNewKeeps(st: State, k: Key, filter: set<Column>, autoCreate: bool, initial: Row,
                       fails: set<Column>, now: int)
    requires Inv(st) && k !in st.cache
    ensures var st' := Attach(st, k, filter, autoCreate, initial, fails, now).0;
            Inv(st') && Seen(st') == (if k in st.rows || !autoCreate then Seen(st) else Seen(st)[k := initial])
  {
    var st1 := Exist(st, k, autoCreate, initial);
    ExistKeeps(st, k, autoCreate, initial);
    if k in st1.rows {
      PrepareLoads(map[], st1.rows[k], filter, fails, 0);
      InsertKeeps(st1, k, Prepare(map[], st1.rows[k], filter, fails, 0).0, now);
    }
  }

  /** A successful Attach hands out one more handle on an object that has every wanted column. */
  lemma AttachGrants(st: State, k: Key, filter: set<Column>, autoCreate: bool, initial: Row,
                     fails: set<Column>, now: int)
    ensures var (st', ok) := Attach(st, k, filter, autoCreate, initial, fails, now);
            ok ==> && k in st'.cache
                   && st'.cache[k].useCount == (if k in st.cache then st.cache[k].useCount else 0) + 1
                   && (forall c :: c in filter ==> c in st'.cache[k].loaded)
  {
    var row := if k in st.cache then RowOf(st.rows, k) else RowOf(Exist(st, k, autoCreate, initial).rows, k);
    PrepareLoads(if k in st.cache then st.cache[k].loaded else map[], row, filter, fails, 0);
  }

  lemma ExecuteKey(st: State, j: Key)
    requires Inv(st) && st.queue != []
    ensures KeyInv(Execute(st), j)
  {
    var st' := Execute(st);
    var b := st.queue[0];
    assert Outstanding(st') == Outstanding(st);
    assert KeyInv(st, b.key) && KeyInv(st, j);
    NotPending(st'.queue, b.key);
    if j == b.key {
      assert RowOf(st'.rows, j) + map[] == RowOf(st.rows, j) + b.snapshot;
    }
  }

  /** What is written later over columns that it agrees with changes nothing. */
  lemma HeldLater(row: Row, loaded: Row, pending: Row)
    requires Holds(loaded, pending)
    ensures row + loaded + pending == row + loaded
  {
  }

  lemma HiddenMerge(row: Row, snapshot: Row, loaded: Row)
    requires snapshot.Keys <= loaded.Keys
    ensures (row + snapshot) + loaded == row + loaded
  {
  }

  lemma ExecuteSeen(st: State)
    requires st.queue != [] && st.queue[0].key in st.cache && st.queue[0].key in st.rows
    requires st.queue[0].snapshot.Keys <= st.cache[st.queue[0].key].loaded.Keys
    ensures Seen(Execute(st)) == Seen(st)
  {
    var b := st.queue[0];
    HiddenMerge(st.rows[b.key], b.snapshot, st.cache[b.key].loaded);
    assert Execute(st).rows.Keys == st.rows.Keys;
    forall k | k in st.rows ensures SeenRow(Execute(st), k) == SeenRow(st, k) {
    }
  }

  lemma ExecuteKeeps(st: State)
    requires Inv(st) && st.queue != []
    ensures Inv(Execute(st)) && Seen(Execute(st)) == Seen(st)
  {
    forall j ensures KeyInv(Execute(st), j) {
      ExecuteKey(st, j);
    }
    assert KeyInv(st, st.queue[0].key);
    ExecuteSeen(st);
  }

  lemma CompleteKeeps(st: State, now: int)
    requires Inv(st) && st.results != []
    ensures st.results[0] in st.cache
    ensures var st' := Complete(st, st.results[0], now).(results := st.results[1..]);
            Inv(st') && Seen(st') == Seen(st)
  {
    var k := st.results[0];
    assert KeyInv(st, k);
    var st' := Complete(st, k, now).(results := st.results[1..]);
    assert st.results == [k] + st.results[1..];
    forall j ensures KeyInv(st', j) {
      assert KeyInv(st, j);
    }
  }

  lemma {:induction false} ProcessKeeps(st: State, now: int)
    requires Inv(st)
    ensures forall k :: k in st.results ==> k in st.cache
    ensures Inv(Process(st, now)) && Seen(Process(st, now)) == Seen(st)
    ensures Process(st, now).results == []
    decreases |st.results|
  {
    ResultsAreCached(st);
    if st.results != [] {
      CompleteKeeps(st, now);
      ProcessKeeps(Complete(st, st.results[0], now).(results := st.results[1..]), now);
    }
  }

  lemma WriteBackKeeps(st: State, k: Key, now: int, t: Timing)
    requires Inv(st) && k in st.cache
    ensures Inv(WriteBack(st, k, now, t)) && Seen(WriteBack(st, k, now, t)) == Seen(st)
  {
    var st' := WriteBack(st, k, now, t);
    if st' != st {
      QueueAppend(st.queue, Batch(k, st.cache[k].loaded));
      assert KeyInv(st, k);
      forall j ensures KeyInv(st', j) {
        assert KeyInv(st, j);
      }
    }
  }

  /** The guard of the erase branch: what it drops nobody holds or waits for, and the rows have it. */
  ghost predicate Saved(st: State, k: Key) {
    k in st.cache && st.cache[k].useCount == 0 && !InFlight(st, k) && Holds(RowOf(st.rows, k), st.cache[k].loaded)
  }

  lemma DropKeeps(st: State, k: Key, now: int, t: Timing)
    requires Inv(st) && k in st.cache
    ensures Inv(Drop(st, k, now, t)) && Seen(Drop(st, k, now, t)) == Seen(st)
    ensures k !in Drop(st, k, now, t).cache ==> Saved(st, k)
  {
    var st' := Drop(st, k, now, t);
    if k !in st'.cache {
      assert KeyInv(st, k);
      NotPending(st.queue, k);
      assert RowOf(st.rows, k) + map[] == RowOf(st.rows, k);
      assert SeenRow(st', k) == SeenRow(st, k);
      forall j ensures KeyInv(st', j) {
        assert KeyInv(st, j);
      }
    }
  }

  /** Whatever Update erases was saved, and everything it does not erase keeps its columns. */
  lemma {:induction false} SweepKeeps(st: State, todo: set<Key>, now: int, t: Timing)
    requires Inv(st) && todo <= st.cache.Keys
    ensures var st' := Sweep(st, todo, now, t);
            && Inv(st') && Seen(st') == Seen(st)
            && st'.rows == st.rows && st'.results == st.results && st'.cache.Keys <= st.cache.Keys
            && (forall k :: k in st.cache && k !in st'.cache ==> k in todo && Saved(st, k))
            && (forall k :: k in st'.cache ==> st'.cache[k].loaded == st.cache[k].loaded &&
                                               st'.cache[k].useCount == st.cache[k].useCount)
    decreases todo
  {
    if todo != {} {
      var k := Least(todo);
      WriteBackKeeps(st, k, now, t);
      var st1 := WriteBack(st, k, now, t);
      DropKeeps(st1, k, now, t);
      var st2 := Drop(st1, k, now, t);
      assert forall j :: j in st.cache && j != k ==> j in st2.cache && st2.cache[j] == st.cache[j];
      SweepKeeps(st2, todo - {k}, now, t);
    }
  }
}
