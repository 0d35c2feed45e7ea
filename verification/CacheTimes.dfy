/** When Update writes an object back and when it drops one, and what Attach loads, told by the
    fields of the object, the batches in the queue and the rows. */
module CacheTimes {
  import opened Seqs
  import opened CacheStore
  import opened CacheRuns
  import opened KeyOrder

  // ---------------------------------------------------------------- callbacks

  /** The object of k once the waiting callbacks have run. */
  function Woken(st: State, k: Key, now: int): Object
    requires k in st.cache
  {
    if k in st.results then st.cache[k].(inPersistence := false, persistenceTime := now) else st.cache[k]
  }

  lemma {:induction false} ProcessAt(st: State, now: int, k: Key)
    requires (forall j :: j in st.results ==> j in st.cache) && k in st.cache
    ensures var st' := Process(st, now);
            && st'.cache.Keys == st.cache.Keys && st'.cache[k] == Woken(st, k, now)
            && st'.rows == st.rows && st'.queue == st.queue && st'.results == []
    decreases |st.results|
  {
    if st.results != [] {
      ProcessAt(Complete(st, st.results[0], now).(results := st.results[1..]), now, k);
      assert k in st.results <==> k == st.results[0] || k in st.results[1..];
    }
  }

  // ---------------------------------------------------------------- one visit

  /** The condition of the write-back branch. */
  predicate IsSent(o: Object, now: int, t: Timing) {
    (o.useCount > 0 || o.dirty) && !o.inPersistence && now > o.persistenceTime + t.persistenceInterval
  }

  /** The condition of the erase branch. */
  predicate IsDropped(o: Object, now: int, t: Timing) {
    o.useCount == 0 && !o.dirty && !o.inPersistence && now > o.persistenceTime + t.removeDelay
  }

  /** What Update does to the object of k: write it back, drop it, or leave it alone. */
  ghost predicate UpdatedAt(o: Object, st: State, st': State, k: Key, now: int, t: Timing) {
    && (k !in st'.cache <==> IsDropped(o, now, t))
    && (k in st'.cache && IsSent(o, now, t) ==>
          && st'.cache[k] == Object(o.loaded, o.useCount, false, true, o.persistenceTime)
          && Pending(st'.queue, k) == o.loaded && QueuedKeys(st'.queue)[k] == 1)
    && (!IsSent(o, now, t) ==>
          && (k in st'.cache ==> st'.cache[k] == o)
          && Pending(st'.queue, k) == Pending(st.queue, k) && QueuedKeys(st'.queue)[k] == QueuedKeys(st.queue)[k])
  }

  ghost predicate Untouched(st: State, st': State, k: Key) {
    && (k in st'.cache <==> k in st.cache) && (k in st.cache ==> st'.cache[k] == st.cache[k])
    && Pending(st'.queue, k) == Pending(st.queue, k) && QueuedKeys(st'.queue)[k] == QueuedKeys(st.queue)[k]
  }

  lemma VisitAt(st: State, k: Key, now: int, t: Timing)
    requires k in st.cache && (!InFlight(st, k) ==> k !in QueuedKeys(st.queue))
    ensures UpdatedAt(st.cache[k], st, Visit(st, k, now, t), k, now, t)
  {
    QueuedAppend(st.queue, Batch(k, st.cache[k].loaded));
    PendingAppend(st.queue, Batch(k, st.cache[k].loaded), k);
  }

  lemma VisitOthers(st: State, j: Key, now: int, t: Timing, k: Key)
    requires j in st.cache && j != k
    ensures Untouched(st, Visit(st, j, now, t), k)
  {
    QueuedAppend(st.queue, Batch(j, st.cache[j].loaded));
    PendingAppend(st.queue, Batch(j, st.cache[j].loaded), k);
  }

  lemma {:induction false} SweepAt(st: State, todo: set<Key>, now: int, t: Timing, k: Key)
    requires todo <= st.cache.Keys && (!InFlight(st, k) ==> k !in QueuedKeys(st.queue))
    ensures var st' := Sweep(st, todo, now, t);
            if k in todo then UpdatedAt(st.cache[k], st, st', k, now, t) else Untouched(st, st', k)
    decreases todo
  {
    if todo != {} {
      var j := Least(todo);
      if j == k {
        VisitAt(st, k, now, t);
        SweepRest(Visit(st, j, now, t), todo - {j}, now, t, k);
      } else {
        VisitOthers(st, j, now, t, k);
        SweepAt(Visit(st, j, now, t), todo - {j}, now, t, k);
      }
    }
  }

  /** Once k has been visited nothing happens to it. */
  lemma {:induction false} SweepRest(st: State, todo: set<Key>, now: int, t: Timing, k: Key)
    requires todo <= st.cache.Keys && k !in todo
    ensures Untouched(st, Sweep(st, todo, now, t), k)
    decreases todo
  {
    if todo != {} {
      var j := Least(todo);
      VisitOthers(st, j, now, t, k);
      SweepRest(Visit(st, j, now, t), todo - {j}, now, t, k);
    }
  }

  // ---------------------------------------------------------------- Update

  /** The object of k when Update comes to its loop. */
  function Current(st: State, processFirst: bool, k: Key, now: int): Object
    requires k in st.cache
  {
    if processFirst then Woken(st, k, now) else st.cache[k]
  }

  /** Main result: Update writes an object back exactly when somebody holds it or it is dirty, it is
      not in persistence and the interval has passed: then its columns are the one batch of its key
      in the queue, and it is clean and in persistence. It drops an object exactly when nobody holds
      it, it is clean and not in persistence, and the delay has passed. All else stays. */
  lemma UpdateExact(st: State, processFirst: bool, now: int, t: Timing, k: Key)
    requires Inv(st)
    ensures forall j :: j in st.results ==> j in st.cache
    ensures var st' := Update(st, processFirst, now, t);
            if k in st.cache then UpdatedAt(Current(st, processFirst, k, now), st, st', k, now, t)
            else Untouched(st, st', k)
  {
    ResultsAreCached(st);
    ProcessKeeps(st, now);
    ProcessOnlyMarks(st, now);
    var st1 := if processFirst then Process(st, now) else st;
    assert KeyInv(st1, k);
    if k in st.cache {
      ProcessAt(st, now, k);
    }
    SweepAt(st1, st1.cache.Keys, now, t, k);
  }

  // ---------------------------------------------------------------- order

  function KeysOf(queue: seq<Batch>): seq<Key> {
    if queue == [] then [] else [queue[0].key] + KeysOf(queue[1..])
  }

  /** The batches behind place n, in ascending order of their keys, none of a key below low. */
  ghost predicate Ascending(queue: seq<Batch>, n: nat, low: Key) {
    && (forall i :: n <= i < |queue| ==> low <= queue[i].key)
    && (forall i, j :: n <= i < j < |queue| ==> queue[i].key < queue[j].key)
  }

  lemma {:induction false} SweepOrder(st: State, todo: set<Key>, now: int, t: Timing, low: Key)
    requires todo <= st.cache.Keys && forall k :: k in todo ==> low <= k
    ensures var queue := Sweep(st, todo, now, t).queue;
            st.queue <= queue && Ascending(queue, |st.queue|, low)
    decreases todo
  {
    if todo != {} {
      var k := Least(todo);
      var st1 := Visit(st, k, now, t);
      SweepOrder(st1, todo - {k}, now, t, k + 1);
      OrderOn(st.queue, st1.queue, Sweep(st, todo, now, t).queue, low, k);
    }
  }

  lemma OrderOn(queue: seq<Batch>, queue1: seq<Batch>, queue2: seq<Batch>, low: Key, k: Key)
    requires low <= k && queue1 <= queue2 && Ascending(queue2, |queue1|, k + 1)
    requires queue1 == queue || (|queue1| == |queue| + 1 && queue <= queue1 && queue1[|queue|].key == k)
    ensures queue <= queue2 && Ascending(queue2, |queue|, low)
  {
    assert forall i :: 0 <= i < |queue1| ==> queue2[i] == queue1[i];
  }

  /** The batches of an Update join the end of the queue, lowest key first. */
  lemma UpdateOrder(st: State, processFirst: bool, now: int, t: Timing)
    requires Inv(st)
    ensures forall j :: j in st.results ==> j in st.cache
    ensures var queue := Update(st, processFirst, now, t).queue;
            st.queue <= queue && Ascending(queue, |st.queue|, 0)
  {
    ResultsAreCached(st);
    ProcessOnlyMarks(st, now);
    var st1 := if processFirst then Process(st, now) else st;
    SweepOrder(st1, st1.cache.Keys, now, t, 0);
  }

  /** The database thread takes batches from the front, and their callbacks wait in that order. */
  lemma {:induction false} DrainOrder(st: State)
    ensures Drain(st).results == st.results + KeysOf(st.queue)
    decreases |st.queue|
  {
    if st.queue == [] {
      Neutral(st.results);
    } else {
      DrainOrder(Execute(st));
      Assoc(st.results, [st.queue[0].key], KeysOf(st.queue[1..]));
    }
  }

  // ---------------------------------------------------------------- handles

  /** Taking a handle does not make an object dirty. Giving it back does, and changes nothing else. */
  lemma HandleExact(st: State, k: Key)
    requires k in st.cache
    ensures var o, held := st.cache[k], Find(st, k);
            var loaded, n, sent, time := o.loaded, o.useCount, o.inPersistence, o.persistenceTime;
            && held.cache == st.cache[k := Object(loaded, n + 1, o.dirty, sent, time)]
            && Release(held, k).cache == st.cache[k := Object(loaded, n, true, sent, time)]
            && held.(cache := st.cache) == st && Release(held, k).(cache := st.cache) == st
  {
  }

  // ---------------------------------------------------------------- a released object reaches its row

  /** The database thread executes everything that is queued. */
  function Drain(st: State): State
    decreases |st.queue|
  {
    if st.queue == [] then st else Drain(Execute(st))
  }

  lemma {:induction false} DrainKeeps(st: State)
    requires Inv(st)
    ensures var st' := Drain(st);
            && Inv(st') && Seen(st') == Seen(st) && st'.queue == [] && st'.cache == st.cache
            && forall k :: k in st'.results <==> k in st.results || k in QueuedKeys(st.queue)
    decreases |st.queue|
  {
    if st.queue != [] {
      ExecuteKeeps(st);
      DrainKeeps(Execute(st));
    }
  }

  lemma {:induction false} DrainRow(st: State, k: Key)
    ensures Drain(st).rows == Flush(st.rows, st.queue)
    decreases |st.queue|
  {
    if st.queue != [] {
      DrainRow(Execute(st), k);
    }
  }

  /** Main result: an object that somebody holds or has changed is in its row, with the values it has
      when Update comes by after the interval, as soon as the database thread has worked off its
      queue. */
  lemma SentIsSaved(st: State, processFirst: bool, now: int, t: Timing, k: Key)
    requires Inv(st) && k in st.cache && IsSent(Current(st, processFirst, k, now), now, t)
    ensures forall j :: j in st.results ==> j in st.cache
    ensures var st' := Drain(Update(st, processFirst, now, t));
            k in st.rows && k in st'.rows && st'.rows[k] == SeenRow(st, k)
  {
    UpdateExact(st, processFirst, now, t, k);
    UpdateKeeps(st, processFirst, now, t);
    var st1 := Update(st, processFirst, now, t);
    assert KeyInv(st, k) && KeyInv(st1, k);
    UpdateRows(st, processFirst, now, t);
    DrainRow(st1, k);
    FlushRow(st1.rows, st1.queue, k);
  }

  lemma UpdateRows(st: State, processFirst: bool, now: int, t: Timing)
    requires Inv(st)
    ensures forall j :: j in st.results ==> j in st.cache
    ensures Update(st, processFirst, now, t).rows == st.rows
  {
    ResultsAreCached(st);
    ProcessKeeps(st, now);
    ProcessOnlyMarks(st, now);
    var st1 := if processFirst then Process(st, now) else st;
    SweepKeeps(st1, st1.cache.Keys, now, t);
  }

  /** Main result: an object that nobody holds any more leaves the cache, saved: one Update after
      the interval, the work of the database thread, the callback, and one Update after the delay
      are enough. */
  lemma ReleasedLeaves(st: State, k: Key, now1: int, now2: int, now3: int, t: Timing)
    requires Inv(st) && k in st.cache && st.cache[k].useCount == 0 && st.cache[k].dirty && !st.cache[k].inPersistence
    requires now1 > st.cache[k].persistenceTime + t.persistenceInterval && now3 > now2 + t.removeDelay
    ensures forall j :: j in st.results ==> j in st.cache
    ensures var st1 := Drain(Update(st, false, now1, t));
            && (forall j :: j in st1.results ==> j in st1.cache)
            && var st2 := Process(st1, now2);
               st2.results == [] &&
               var st3 := Update(st2, false, now3, t);
               k !in st3.cache && k in st.rows && k in st3.rows && st3.rows[k] == SeenRow(st, k)
  {
    SentIsSaved(st, false, now1, t, k);
    UpdateExact(st, false, now1, t, k);
    UpdateKeeps(st, false, now1, t);
    var st0 := Update(st, false, now1, t);
    DrainKeeps(st0);
    var st1 := Drain(st0);
    ResultsAreCached(st1);
    ProcessAt(st1, now2, k);
    ProcessKeeps(st1, now2);
    var st2 := Process(st1, now2);
    UpdateExact(st2, false, now3, t, k);
    UpdateRows(st2, false, now3, t);
  }

  // ---------------------------------------------------------------- Attach

  ghost predicate Missing(loaded: Row, filter: set<Column>, c: Column) {
    c in filter && c !in loaded
  }

  /** A wanted column that cannot be loaded. */
  ghost predicate Refused(loaded: Row, row: Row, filter: set<Column>, fails: set<Column>, c: Column) {
    Missing(loaded, filter, c) && (c in fails || c !in row)
  }

  /** All columns from idx to c can be loaded. */
  ghost predicate Clear(loaded: Row, row: Row, filter: set<Column>, fails: set<Column>, idx: nat, c: int) {
    forall d: Column :: idx <= d <= c ==> !Refused(loaded, row, filter, fails, d)
  }

  /** Main result: PrepareData succeeds exactly when every wanted column that is not there can be
      loaded; and what it loads are those below the first that cannot. */
  lemma PrepareExact(loaded: Row, row: Row, filter: set<Column>, fails: set<Column>, c: Column)
    ensures var (r, ok) := Prepare(loaded, row, filter, fails, 0);
            && (ok <==> Clear(loaded, row, filter, fails, 0, COLUMNS - 1))
            && (c in r <==> c in loaded || (Missing(loaded, filter, c) && Clear(loaded, row, filter, fails, 0, c)))
            && (c in r ==> if c in loaded then r[c] == loaded[c] else c in row && r[c] == row[c])
  {
    PrepareOk(loaded, row, filter, fails, 0);
    PrepareColumn(loaded, row, filter, fails, 0, c);
    PrepareLoads(loaded, row, filter, fails, 0);
  }

  /** Loading column i, which can be loaded, changes nothing for the others. */
  lemma LoadedClear(loaded: Row, row: Row, filter: set<Column>, fails: set<Column>, i: Column, v: Value, c: int)
    requires !Refused(loaded, row, filter, fails, i) && Missing(loaded, filter, i)
    ensures Clear(loaded, row, filter, fails, i, c) <==> Clear(loaded[i := v], row, filter, fails, i + 1, c)
  {
    var more: Row := loaded[i := v];
    if Clear(more, row, filter, fails, i + 1, c) {
      forall d: Column | i <= d <= c ensures !Refused(loaded, row, filter, fails, d) {
        assert d > i ==> !Refused(more, row, filter, fails, d);
      }
    }
    if Clear(loaded, row, filter, fails, i, c) {
      forall d: Column | i + 1 <= d <= c ensures !Refused(more, row, filter, fails, d) {
        assert !Refused(loaded, row, filter, fails, d);
      }
    }
  }

  lemma SkippedClear(loaded: Row, row: Row, filter: set<Column>, fails: set<Column>, i: Column, c: int)
    requires !Missing(loaded, filter, i)
    ensures Clear(loaded, row, filter, fails, i, c) <==> Clear(loaded, row, filter, fails, i + 1, c)
  {
    if Clear(loaded, row, filter, fails, i + 1, c) {
      forall d: Column | i <= d <= c ensures !Refused(loaded, row, filter, fails, d) {
        assert d > i ==> !Refused(loaded, row, filter, fails, d);
      }
    }
  }

  lemma {:induction false} PrepareOk(loaded: Row, row: Row, filter: set<Column>, fails: set<Column>, idx: nat)
    ensures Prepare(loaded, row, filter, fails, idx).1 <==> Clear(loaded, row, filter, fails, idx, COLUMNS - 1)
    decreases COLUMNS - idx
  {
    if idx < COLUMNS {
      var i: Column := idx;
      if Refused(loaded, row, filter, fails, i) {
        assert !Clear(loaded, row, filter, fails, idx, COLUMNS - 1);
      } else if Missing(loaded, filter, i) {
        PrepareOk(loaded[i := row[i]], row, filter, fails, idx + 1);
        LoadedClear(loaded, row, filter, fails, i, row[i], COLUMNS - 1);
      } else {
        PrepareOk(loaded, row, filter, fails, idx + 1);
        SkippedClear(loaded, row, filter, fails, i, COLUMNS - 1);
      }
    }
  }

  lemma {:induction false} PrepareColumn(loaded: Row, row: Row, filter: set<Column>, fails: set<Column>, idx: nat,
                                         c: Column)
    ensures c in Prepare(loaded, row, filter, fails, idx).0 <==>
            c in loaded || (idx <= c && Missing(loaded, filter, c) && Clear(loaded, row, filter, fails, idx, c))
    decreases COLUMNS - idx
  {
    if idx < COLUMNS {
      var i: Column := idx;
      if Refused(loaded, row, filter, fails, i) {
        assert idx <= c ==> !Clear(loaded, row, filter, fails, idx, c);
      } else if Missing(loaded, filter, i) {
        PrepareColumn(loaded[i := row[i]], row, filter, fails, idx + 1, c);
        LoadedClear(loaded, row, filter, fails, i, row[i], c);
      } else {
        PrepareColumn(loaded, row, filter, fails, idx + 1, c);
        SkippedClear(loaded, row, filter, fails, i, c);
      }
    }
  }

  /** Main result: Attach succeeds exactly when the row is there or is created and the wanted columns
      can be loaded. Then the object has one handle more and the time of the call; otherwise only a
      cached object gains columns. No other object, and nothing that is queued, changes. */
  lemma AttachExact(st: State, k: Key, filter: set<Column>, autoCreate: bool, initial: Row,
                    fails: set<Column>, now: int)
    requires Inv(st)
    ensures var (st', ok) := Attach(st, k, filter, autoCreate, initial, fails, now);
            var row := if k in st.rows then st.rows[k] else initial;
            var before := if k in st.cache then st.cache[k] else Object(map[], 0, false, false, 0);
            && (ok <==> (k in st.rows || autoCreate)
                        && Clear(before.loaded, row, filter, fails, 0, COLUMNS - 1))
            && (ok ==> k in st'.cache && before.loaded.Keys <= st'.cache[k].loaded.Keys
                       && st'.cache[k] == Object(st'.cache[k].loaded, before.useCount + 1, before.dirty,
                                                 before.inPersistence, now))
            && (!ok ==> st'.cache.Keys == st.cache.Keys)
            && (!ok && k in st.cache ==> st'.cache[k] == st.cache[k].(loaded := st'.cache[k].loaded))
            && (forall j :: j in st.cache && j != k ==> j in st'.cache && st'.cache[j] == st.cache[j])
            && st'.queue == st.queue && st'.results == st.results
            && st'.rows == if k in st.rows || !autoCreate then st.rows else st.rows[k := initial]
  {
    assert KeyInv(st, k);
    var row := if k in st.rows then st.rows[k] else initial;
    PrepareOk(if k in st.cache then st.cache[k].loaded else map[], row, filter, fails, 0);
    PrepareLoads(if k in st.cache then st.cache[k].loaded else map[], row, filter, fails, 0);
  }
}
