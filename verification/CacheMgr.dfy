/** CacheMgr<T, S> and CacheObject<S> as objects that are updated in place. Every method is
    proved against the transition of CacheStore it performs. */
module CacheManager {
  import opened CacheStore
  import opened KeyOrder
  import CacheRuns

  class CacheObject {
    const cacheId: Key
    var loaded: Row               // m_loadedDataFilter and the columns it marks
    var useCount: nat
    var dirty: bool
    var inPersistence: bool
    var persistenceTime: int
    ghost var refs: nat           // the CachePtrs alive that point here

    constructor (id: Key)
      ensures cacheId == id && refs == 0 && Value() == NewObject()
    {
      cacheId, refs := id, 0;
      loaded, useCount, dirty, inPersistence, persistenceTime := map[], 0, false, false, 0;
    }

    ghost function Value(): Object
      reads this
    {
      Object(loaded, useCount, dirty, inPersistence, persistenceTime)
    }

    /** MakeSQL: one statement for each loaded column, in ascending order. */
    method MakeSQL() returns (snapshot: Row)
      ensures snapshot == loaded
    {
      snapshot := map[];
      for idx := 0 to COLUMNS
        invariant forall c :: c in snapshot <==> c in loaded && c < idx
        invariant forall c :: c in snapshot ==> snapshot[c] == loaded[c]
      {
        if idx in loaded {
          snapshot := snapshot[idx := loaded[idx]];
        }
      }
    }
  }

  /** The rows, and the two queues that connect the server thread to the database thread. */
  class Database {
    var rows: map<Key, Row>
    var sqlQueue: seq<Batch>
    var resultQueue: seq<Key>

    constructor (rows: map<Key, Row>)
      ensures this.rows == rows && sqlQueue == [] && resultQueue == []
    {
      this.rows, sqlQueue, resultQueue := rows, [], [];
    }

    /** SqlDelayThread::ProcessRequests, one request: run the statements, queue the callback. */
    method ProcessRequest()
      requires sqlQueue != []
      modifies this
      ensures var b := old(sqlQueue[0]); rows == old(rows)[b.key := RowOf(old(rows), b.key) + b.snapshot]
      ensures sqlQueue == old(sqlQueue)[1..] && resultQueue == old(resultQueue) + [old(sqlQueue[0].key)]
    {
      var batch := sqlQueue[0];
      sqlQueue := sqlQueue[1..];
      rows := rows[batch.key := RowOf(rows, batch.key) + batch.snapshot];
      resultQueue := resultQueue + [batch.key];
    }
  }

  class CacheMgr {
    var cacheMap: map<Key, CacheObject>
    const db: Database
    const dbUpdateAuto: bool
    const timing: Timing
    ghost var objects: set<CacheObject>        // every object that is or was in cacheMap
    ghost var cached: map<Key, Object>         // the values of the objects in cacheMap

    ghost function Abs(): State
      reads this, db
    {
      State(cached, db.rows, db.sqlQueue, db.resultQueue)
    }

    /** The object of key k sits under its own id with its recorded value, and m_useCount counts
        its handles. */
    ghost predicate FiledAt(k: Key)
      requires k in cacheMap && k in cached
      reads this, objects
    {
      var o := cacheMap[k];
      o in objects && o.cacheId == k && o.refs == o.useCount && o.Value() == cached[k]
    }

    /** A handle points to an object that is still in the map. */
    ghost predicate HeldAt(o: CacheObject)
      requires o in objects
      reads this, objects
    {
      o.refs > 0 ==> o.cacheId in cacheMap && cacheMap[o.cacheId] == o
    }

    ghost predicate Filed()
      reads this, objects
    {
      && cacheMap.Keys == cached.Keys
      && (forall k {:trigger FiledAt(k)} :: k in cacheMap ==> FiledAt(k))
      && (forall o {:trigger HeldAt(o)} :: o in objects ==> HeldAt(o))
    }

    ghost predicate Valid()
      reads this, db, objects
    {
      Filed() && Inv(Abs())
    }

    constructor (db: Database, dbUpdateAuto: bool, timing: Timing)
      requires db.sqlQueue == [] && db.resultQueue == []
      ensures Valid() && Abs() == CacheRuns.Start(db.rows) && objects == {}
      ensures this.db == db && this.dbUpdateAuto == dbUpdateAuto && this.timing == timing
    {
      this.db, this.dbUpdateAuto, this.timing := db, dbUpdateAuto, timing;
      cacheMap, cached, objects := map[], map[], {};
      new;
      CacheRuns.StartInv(db.rows);
    }

    /** Storing one object, new or changed, keeps the map filed. */
    twostate lemma Stored(new o: CacheObject)
      requires old(Filed())
      requires cacheMap == old(cacheMap)[o.cacheId := o] && objects == old(objects) + {o}
      requires cached == old(cached)[o.cacheId := o.Value()] && o.refs == o.useCount
      requires o.cacheId in old(cacheMap) ==> old(cacheMap)[o.cacheId] == o
      requires forall p :: p in old(objects) && p != o ==> p.Value() == old(p.Value()) && p.refs == old(p.refs)
      ensures Filed()
    {
      forall k | k in cacheMap ensures FiledAt(k) {
        if k != o.cacheId {
          assert old(FiledAt(k));
        }
      }
      forall p | p in objects ensures HeldAt(p) {
        if p != o {
          assert old(HeldAt(p));
        }
      }
    }

    /** The map stays filed while nothing in it changes. */
    twostate lemma StaysFiled()
      requires old(Filed()) && cacheMap == old(cacheMap) && objects == old(objects) && cached == old(cached)
      requires forall p :: p in old(objects) ==> p.Value() == old(p.Value()) && p.refs == old(p.refs)
      ensures Filed()
    {
      forall k | k in cacheMap ensures FiledAt(k) {
        assert old(FiledAt(k));
      }
      forall p | p in objects ensures HeldAt(p) {
        assert old(HeldAt(p));
      }
    }

    /** Whoever has a handle finds the object in the map, with the handle counted. */
    lemma HandleCounted(handle: CacheObject)
      requires Filed() && handle in objects && handle.refs > 0
      ensures handle.cacheId in cacheMap && cacheMap[handle.cacheId] == handle
      ensures handle.cacheId in cached && cached[handle.cacheId] == handle.Value() && handle.useCount == handle.refs
    {
      assert HeldAt(handle) && FiledAt(handle.cacheId);
    }

    // -------------------------------------------------------------- taking handles

    /** data is the cached object of its key, or a new one for a key that is not cached. */
    ghost predicate Attachable(data: CacheObject)
      reads this, data
    {
      if data.cacheId in cacheMap then cacheMap[data.cacheId] == data && data in objects
      else data !in objects && data.refs == data.useCount == 0
    }

    /** The first step of Attach: the cached object, or a new one for a row that exists or is created. */
    method FindOrCreate(key: Key, autoCreate: bool, initial: Row) returns (data: CacheObject?)
      requires Filed()
      modifies db`rows
      ensures Filed()
      ensures db.rows == if key in cached then old(db.rows) else Exist(old(Abs()), key, autoCreate, initial).rows
      ensures data == null <==> key !in cached && key !in db.rows
      ensures data != null ==> data.cacheId == key && Attachable(data) && (key !in cached ==> fresh(data))
      ensures data != null ==> data.Value() == if key in cached then cached[key] else NewObject()
    {
      if key in cacheMap {
        assert FiledAt(key);
        return cacheMap[key];
      }
      data := new CacheObject(key);
      if key !in db.rows && autoCreate {
        db.rows := db.rows[key := initial];
      }
      StaysFiled();
      if key !in db.rows {
        return null;
      }
    }

    /** PrepareData: loads the wanted columns that are missing, in ascending order. */
    method PrepareData(data: CacheObject, filter: set<Column>, fails: set<Column>) returns (ok: bool)
      requires Filed() && Attachable(data)
      modifies data`loaded, this`cached
      ensures Filed() && data.Value() == old(data.Value()).(loaded := data.loaded)
      ensures (data.loaded, ok) == Prepare(old(data.loaded), RowOf(db.rows, data.cacheId), filter, fails, 0)
      ensures cached == if data.cacheId in cacheMap then old(cached)[data.cacheId := data.Value()] else old(cached)
    {
      if data.cacheId in cacheMap {
        assert FiledAt(data.cacheId);
      }
      ok := LoadColumns(data, filter, fails);
      if data.cacheId in cacheMap {
        cached := cached[data.cacheId := data.Value()];
        Stored(data);
      } else {
        StaysFiled();
      }
    }

    method LoadColumns(data: CacheObject, filter: set<Column>, fails: set<Column>) returns (ok: bool)
      modifies data`loaded
      ensures (data.loaded, ok) == Prepare(old(data.loaded), RowOf(db.rows, data.cacheId), filter, fails, 0)
    {
      for idx := 0 to COLUMNS
        invariant Prepare(data.loaded, RowOf(db.rows, data.cacheId), filter, fails, idx) ==
                  Prepare(old(data.loaded), RowOf(db.rows, data.cacheId), filter, fails, 0)
      {
        if idx in filter && idx !in data.loaded {
          if idx in fails || idx !in RowOf(db.rows, data.cacheId) {
            return false;
          }
          data.loaded := data.loaded[idx := RowOf(db.rows, data.cacheId)[idx]];
        }
      }
      return true;
    }

    /** The last step of Attach: one more handle, and the object is in the map. */
    method Grant(data: CacheObject, now: int)
      requires Filed() && Attachable(data)
      modifies data, this`cacheMap, this`objects, this`cached
      ensures Filed() && objects == old(objects) + {data} && data.refs == old(data.refs) + 1
      ensures cached == old(cached)[data.cacheId :=
                          old(data.Value()).(useCount := old(data.useCount) + 1, persistenceTime := now)]
    {
      if data.cacheId in cacheMap {
        assert FiledAt(data.cacheId);
      }
      data.persistenceTime := now;
      data.useCount := data.useCount + 1;
      data.refs := data.refs + 1;
      cacheMap := cacheMap[data.cacheId := data];
      objects := objects + {data};
      cached := cached[data.cacheId := data.Value()];
      Stored(data);
    }

    /** The steps of Attach behind FindOrCreate. */
    method LoadAndGrant(data: CacheObject, filter: set<Column>, fails: set<Column>, now: int) returns (ok: bool)
      requires Filed() && Attachable(data)
      modifies data, this`cacheMap, this`objects, this`cached
      ensures Filed() && objects == if ok then old(objects) + {data} else old(objects)
      ensures ok ==> data.refs > 0
      ensures var k, o := data.cacheId, old(data.Value());
              var (loaded, good) := Prepare(o.loaded, RowOf(db.rows, k), filter, fails, 0);
              && ok == good
              && cached == if ok then
                           old(cached)[k := o.(loaded := loaded, useCount := o.useCount + 1, persistenceTime := now)]
                           else if k in old(cacheMap) then old(cached)[k := o.(loaded := loaded)] else old(cached)
    {
      ok := PrepareData(data, filter, fails);
      if !ok {
        return;
      }
      ghost var o1 := data.Value();
      Overwrite(old(cached), cached, data.cacheId, o1, o1.(useCount := o1.useCount + 1, persistenceTime := now));
      Grant(data, now);
    }

    /** Attach. A null handle stands for the empty CachePtr of the failing paths. */
    method Attach(key: Key, filter: set<Column>, autoCreate: bool, initial: Row, fails: set<Column>, now: int)
      returns (handle: CacheObject?)
      requires Valid()
      modifies this, db, objects
      ensures Valid() && fresh(objects - old(objects))
      ensures var (st, ok) := CacheStore.Attach(old(Abs()), key, filter, autoCreate, initial, fails, now);
              Abs() == st && (handle != null <==> ok)
      ensures handle != null ==> handle in objects && handle.cacheId == key && handle.refs > 0
    {
      ghost var st := CacheStore.Attach(Abs(), key, filter, autoCreate, initial, fails, now).0;
      assert Inv(st) by { AttachKeeps(Abs(), key, filter, autoCreate, initial, fails, now); }
      var data := FindOrCreate(key, autoCreate, initial);
      if data == null {
        return null;
      }
      var ok := LoadAndGrant(data, filter, fails, now);
      AttachInSteps(old(Abs()), key, filter, autoCreate, initial, fails, now, db.rows, cached);
      return if ok then data else null;
    }

    lemma Overwrite(before: map<Key, Object>, prepared: map<Key, Object>, k: Key, o1: Object, o2: Object)
      requires prepared == before || prepared == before[k := o1]
      ensures prepared[k := o2] == before[k := o2]
    {
    }

    lemma AttachKeeps(st: State, k: Key, filter: set<Column>, autoCreate: bool, initial: Row,
                      fails: set<Column>, now: int)
      requires Inv(st)
      ensures Inv(CacheStore.Attach(st, k, filter, autoCreate, initial, fails, now).0)
    {
      if k in st.cache {
        AttachCachedKeeps(st, k, filter, autoCreate, initial, fails, now);
      } else {
        AttachNewKeeps(st, k, filter, autoCreate, initial, fails, now);
      }
    }

    method FindInCache(key: Key) returns (handle: CacheObject?)
      requires Valid()
      modifies this`cached, objects
      ensures Valid() && Abs() == Find(old(Abs()), key)
      ensures if key !in cacheMap then handle == null
              else handle == cacheMap[key] && handle in objects && handle.refs > 0
    {
      ghost var st := Find(Abs(), key);
      assert Inv(st) by { FindKeeps(Abs(), key); }
      if key in cacheMap {
        assert FiledAt(key);
        handle := cacheMap[key];
        handle.useCount := handle.useCount + 1;
        handle.refs := handle.refs + 1;
        cached := cached[key := handle.Value()];
        Stored(handle);
      } else {
        handle := null;
      }
      assert Abs() == st;
    }

    // -------------------------------------------------------------- using and giving up handles

    /** A holder assigns a column through its handle. */
    method Assign(handle: CacheObject, c: Column, v: Value)
      requires Valid() && handle in objects && handle.refs > 0 && c in handle.loaded
      modifies handle`loaded, this`cached
      ensures old(handle.cacheId in cached && cached[handle.cacheId] == handle.Value() && handle.useCount > 0)
      ensures Valid() && Abs() == Modify(old(Abs()), handle.cacheId, c, v)
    {
      HandleCounted(handle);
      ghost var st := Modify(Abs(), handle.cacheId, c, v);
      assert Inv(st) by { ModifyKeeps(Abs(), handle.cacheId, c, v); }
      handle.loaded := handle.loaded[c := v];
      cached := cached[handle.cacheId := handle.Value()];
      Stored(handle);
      assert Abs() == st;
    }

    /** AutoRelease, run by the handle's deleter. Its assertion holds because the handle is alive. */
    method AutoRelease(handle: CacheObject)
      requires Valid() && handle in objects && handle.refs > 0
      modifies handle, this`cached
      ensures old(handle.cacheId in cached && cached[handle.cacheId] == handle.Value() && handle.useCount > 0)
      ensures Valid() && Abs() == Release(old(Abs()), handle.cacheId)
      ensures handle.refs == old(handle.refs) - 1
    {
      HandleCounted(handle);
      ghost var st := Release(Abs(), handle.cacheId);
      assert Inv(st) by { ReleaseKeeps(Abs(), handle.cacheId); }
      assert handle.useCount > 0;
      handle.dirty := true;
      handle.useCount := handle.useCount - 1;
      handle.refs := handle.refs - 1;
      cached := cached[handle.cacheId := handle.Value()];
      Stored(handle);
      assert Abs() == st;
    }

    // -------------------------------------------------------------- persistence

    /** One step of the database thread, seen from the cache. */
    method DatabaseThreadStep()
      requires Valid() && db.sqlQueue != []
      modifies db
      ensures Valid() && Abs() == Execute(old(Abs()))
    {
      ghost var st := Execute(Abs());
      assert Inv(st) by { ExecuteKeeps(Abs()); }
      db.ProcessRequest();
      StaysFiled();
      assert Abs() == st;
    }

    /** OnPersistenceComp: the object must still be there. */
    method OnPersistenceComp(key: Key, now: int)
      requires Filed() && key in cacheMap
      modifies this`cached, objects
      ensures Filed() && Abs() == Complete(old(Abs()), key, now)
      ensures forall o :: o in objects ==> o.refs == old(o.refs)
    {
      assert FiledAt(key);
      var data := cacheMap[key];
      data.inPersistence := false;
      data.persistenceTime := now;
      cached := cached[key := data.Value()];
      Stored(data);
    }

    /** ProcessResultQueue: run the callbacks that are waiting. */
    method ProcessResultQueue(now: int)
      requires Valid()
      modifies this`cached, db`resultQueue, objects
      ensures forall k :: k in old(db.resultQueue) ==> k in old(cached)
      ensures Valid() && Abs() == Process(old(Abs()), now)
      ensures forall o :: o in objects ==> o.refs == old(o.refs)
    {
      ProcessKeeps(Abs(), now);
      while db.resultQueue != []
        invariant Valid() && forall k :: k in db.resultQueue ==> k in cached
        invariant Process(Abs(), now) == Process(old(Abs()), now)
        invariant forall o :: o in objects ==> o.refs == old(o.refs)
        decreases |db.resultQueue|
      {
        RunCallback(now);
      }
    }

    /** One turn of its loop. */
    method RunCallback(now: int)
      requires Valid() && db.resultQueue != [] && forall k :: k in db.resultQueue ==> k in cached
      modifies this`cached, db`resultQueue, objects
      ensures Valid() && (forall k :: k in db.resultQueue ==> k in cached)
      ensures db.resultQueue == old(db.resultQueue)[1..] && Process(Abs(), now) == old(Process(Abs(), now))
      ensures forall o :: o in objects ==> o.refs == old(o.refs)
    {
      ghost var st := Abs();
      CompleteKeeps(st, now);
      var key := db.resultQueue[0];
      db.resultQueue := db.resultQueue[1..];
      StaysFiled();
      OnPersistenceComp(key, now);
      assert Abs() == Complete(st, key, now).(results := st.results[1..]);
    }

    /** Persistence: serialize and hand the batch to the database thread. */
    method Persistence(data: CacheObject)
      modifies db`sqlQueue
      ensures db.sqlQueue == old(db.sqlQueue) + [Batch(data.cacheId, data.loaded)]
    {
      var snapshot := data.MakeSQL();
      db.sqlQueue := db.sqlQueue + [Batch(data.cacheId, snapshot)];
    }

    /** First half of the Update loop body. */
    method WriteBackOne(key: Key, now: int)
      requires Valid() && key in cacheMap
      modifies this`cached, db`sqlQueue, objects
      ensures key in old(cached) && Valid() && Abs() == WriteBack(old(Abs()), key, now, timing)
      ensures forall o :: o in objects ==> o.refs == old(o.refs)
    {
      ghost var st := WriteBack(Abs(), key, now, timing);
      assert Inv(st) by { WriteBackKeeps(Abs(), key, now, timing); }
      assert FiledAt(key);
      var data := cacheMap[key];
      if (data.useCount > 0 || data.dirty) && !data.inPersistence &&
         now > data.persistenceTime + timing.persistenceInterval {
        HandOut(data);
      }
      assert Abs() == st;
    }

    /** Marks the object and hands out its batch. */
    method HandOut(data: CacheObject)
      requires Filed() && data.cacheId in cacheMap && cacheMap[data.cacheId] == data
      modifies this`cached, db`sqlQueue, data`dirty, data`inPersistence
      ensures Filed()
      ensures cached == old(cached)[data.cacheId := old(data.Value()).(dirty := false, inPersistence := true)]
      ensures db.sqlQueue == old(db.sqlQueue) + [Batch(data.cacheId, data.loaded)]
    {
      assert FiledAt(data.cacheId);
      data.dirty := false;
      data.inPersistence := true;
      cached := cached[data.cacheId := data.Value()];
      Stored(data);
      label Marked:
      Persistence(data);
      StaysFiled@Marked();
    }

    /** Second half of the Update loop body. Only an object without handles is deleted. */
    method DropOne(key: Key, now: int)
      requires Valid() && key in cacheMap
      modifies this`cacheMap, this`cached
      ensures key in old(cached) && Valid() && Abs() == Drop(old(Abs()), key, now, timing)
      ensures cacheMap == old(cacheMap) || cacheMap == old(cacheMap) - {key}
      ensures key !in cacheMap ==> old(cacheMap[key]).refs == 0
    {
      ghost var st := Drop(Abs(), key, now, timing);
      assert Inv(st) by { DropKeeps(Abs(), key, now, timing); }
      assert FiledAt(key);
      var data := cacheMap[key];
      if data.useCount == 0 && !data.dirty && !data.inPersistence && now > data.persistenceTime + timing.removeDelay {
        cacheMap := cacheMap - {key};
        cached := cached - {key};
        forall k | k in cacheMap ensures FiledAt(k) {
          assert old(FiledAt(k));
        }
        forall o | o in objects ensures HeldAt(o) {
          assert old(HeldAt(o));
        }
      }
      assert Abs() == st;
    }

    method VisitOne(key: Key, now: int)
      requires Valid() && key in cacheMap
      modifies this`cacheMap, this`cached, db`sqlQueue, objects
      ensures key in old(cached) && Valid() && Abs() == Visit(old(Abs()), key, now, timing)
      ensures forall o :: o in objects ==> o.refs == old(o.refs)
    {
      WriteBackOne(key, now);
      DropOne(key, now);
    }

    /** Update. The map is visited in ascending key order; the visited object may be erased. */
    method Update(now: int)
      requires Valid()
      modifies this`cacheMap, this`cached, db`sqlQueue, db`resultQueue, objects
      ensures forall k :: k in old(db.resultQueue) ==> k in old(cached)
      ensures Valid() && Abs() == CacheRuns.Update(old(Abs()), dbUpdateAuto, now, timing)
      ensures forall o :: o in objects ==> o.refs == old(o.refs)
    {
      ResultsAreCached(Abs());
      if dbUpdateAuto {
        ProcessResultQueue(now);
      }
      SweepAll(now);
    }

    method SweepAll(now: int)
      requires Valid()
      modifies this`cacheMap, this`cached, db`sqlQueue, objects
      ensures Valid() && Abs() == Sweep(old(Abs()), old(cached.Keys), now, timing)
      ensures forall o :: o in objects ==> o.refs == old(o.refs)
    {
      var todo := cacheMap.Keys;
      while todo != {}
        invariant Valid() && todo <= cached.Keys
        invariant Sweep(Abs(), todo, now, timing) == Sweep(old(Abs()), old(cached.Keys), now, timing)
        invariant forall o :: o in objects ==> o.refs == old(o.refs)
        decreases todo
      {
        var key := Least(todo);
        VisitOne(key, now);
        todo := todo - {key};
      }
    }

    /** Up to n turns of the database thread while Shutdown is at work. */
    method DatabaseTurns(n: nat, ghost st: State, ghost p: CacheRuns.Play) returns (ghost turns: seq<CacheRuns.Turn>)
      requires p.rows == db.rows && p.queue == db.sqlQueue && p.todo <= st.cache.Keys
      modifies db
      ensures CacheRuns.Plays(st, p, turns, CacheRuns.Play(db.rows, p.todo, db.sqlQueue))
    {
      var left := n;
      turns := [];
      while left > 0 && db.sqlQueue != []
        invariant CacheRuns.Plays(st, p, turns, CacheRuns.Play(db.rows, p.todo, db.sqlQueue))
        decreases left
      {
        ghost var q := CacheRuns.Play(db.rows, p.todo, db.sqlQueue);
        db.ProcessRequest();
        CacheRuns.OneTurnOn(st, p, turns, q, CacheRuns.DatabaseTurn);
        turns := turns + [CacheRuns.DatabaseTurn];
        left := left - 1;
      }
    }

    /** The loop of Shutdown: dirty objects are written on the spot. Before object k the database
        thread gets up to ahead(k) turns. */
    method SaveDirty(ahead: Key -> nat) returns (ghost turns: seq<CacheRuns.Turn>)
      requires Filed() && forall k :: k in cached ==> cached[k].useCount == 0
      modifies db
      ensures CacheRuns.Plays(old(Abs()), CacheRuns.Play(old(db.rows), cached.Keys, old(db.sqlQueue)), turns,
                              CacheRuns.Play(db.rows, {}, db.sqlQueue))
    {
      ghost var st := Abs();
      ghost var p := CacheRuns.Play(db.rows, cached.Keys, db.sqlQueue);
      turns := [];
      var todo := cacheMap.Keys;
      while todo != {}
        invariant todo <= cached.Keys
        invariant CacheRuns.Plays(st, p, turns, CacheRuns.Play(db.rows, todo, db.sqlQueue))
        decreases todo
      {
        var key := Least(todo);
        ghost var q := CacheRuns.Play(db.rows, todo, db.sqlQueue);
        ghost var more := DatabaseTurns(ahead(key), st, q);
        ghost var r := CacheRuns.Play(db.rows, todo, db.sqlQueue);
        CacheRuns.PlaysOn(st, p, turns, q, more, r);
        assert old(FiledAt(key));
        var data := cacheMap[key];
        assert data.useCount == 0;
        if data.dirty {
          var snapshot := data.MakeSQL();
          db.rows := db.rows[key := RowOf(db.rows, key) + snapshot];
        }
        CacheRuns.OneTurnOn(st, p, turns + more, r, CacheRuns.DirectWrite);
        turns := turns + more + [CacheRuns.DirectWrite];
        todo := todo - {key};
      }
    }

    /** Shutdown, which asserts that no handle is left, with the database thread at work beside it.
        When that is done with its queue, the database equals memory if no dirty object has an
        outdated batch; ShutdownExact says that this is needed for some schedule. */
    method Shutdown(now: int, ahead: Key -> nat) returns (ghost turns: seq<CacheRuns.Turn>)
      requires Valid() && forall o :: o in objects ==> o.refs == 0
      modifies this`cacheMap, this`cached, db, objects
      ensures cacheMap == map[] && cached == map[]
      ensures forall k :: k in old(db.resultQueue) ==> k in old(cached)
      ensures var st := Process(old(Abs()), now);
              && Inv(st) && CacheRuns.Unheld(st)
              && CacheRuns.Plays(st, CacheRuns.Play(st.rows, st.cache.Keys, st.queue), turns,
                                 CacheRuns.Play(db.rows, {}, db.sqlQueue))
              && (CacheRuns.SnapshotsCurrent(st) ==> CacheRuns.Flush(db.rows, db.sqlQueue) == Seen(old(Abs())))
    {
      ProcessKeeps(Abs(), now);
      ProcessResultQueue(now);
      ghost var st := Abs();
      assert CacheRuns.Unheld(st) by {
        forall k | k in cached ensures cached[k].useCount == 0 {
          assert FiledAt(k);
        }
      }
      turns := SaveDirty(ahead);
      CacheRuns.RestFlushes(st, turns, db.rows, db.sqlQueue);
      cacheMap, cached := map[], map[];
    }
  }
}
