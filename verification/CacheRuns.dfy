/** Whole runs of the write-back cache: the cache over its database behaves like one table
    that every assignment reaches at once. */
module CacheRuns {
  import opened CacheStore
  import opened KeyOrder

  datatype Event =
    | AttachCall(key: Key, filter: set<Column>, autoCreate: bool, initial: Row, fails: set<Column>, now: int)
    | FindCall(key: Key)
    | Assignment(key: Key, column: Column, value: Value)
    | LastRelease(key: Key)
    | DatabaseStep
    | ResultQueueCall(now: int)
    | UpdateCall(processFirst: bool, now: int)

  /** Update with m_dbUpdateAuto == processFirst. */
  function Update(st: State, processFirst: bool, now: int, t: Timing): State
    requires forall k :: k in st.results ==> k in st.cache
  {
    var st1 := if processFirst then Process(st, now) else st;
    Sweep(st1, st1.cache.Keys, now, t)
  }

  /** Only a holder assigns or releases, and the database thread needs a batch to work on. */
  ghost predicate Legal(st: State, e: Event) {
    match e
    case Assignment(k, c, _) => k in st.cache && st.cache[k].useCount > 0 && c in st.cache[k].loaded
    case LastRelease(k) => k in st.cache && st.cache[k].useCount > 0
    case DatabaseStep => st.queue != []
    case _ => true
  }

  ghost function Step(st: State, e: Event, t: Timing): State
    requires Inv(st) && Legal(st, e)
  {
    ResultsAreCached(st);
    match e
    case AttachCall(k, filter, autoCreate, initial, fails, now) =>
      Attach(st, k, filter, autoCreate, initial, fails, now).0
    case FindCall(k) => Find(st, k)
    case Assignment(k, c, v) => Modify(st, k, c, v)
    case LastRelease(k) => Release(st, k)
    case DatabaseStep => Execute(st)
    case ResultQueueCall(now) => Process(st, now)
    case UpdateCall(processFirst, now) => Update(st, processFirst, now, t)
  }

  /** The plain table: assignments take effect, autoCreate adds missing rows, nothing else counts. */
  function TableStep(table: map<Key, Row>, e: Event): map<Key, Row> {
    match e
    case AttachCall(k, _, autoCreate, initial, _, _) =>
      if k in table || !autoCreate then table else table[k := initial]
    case Assignment(k, c, v) => if k in table then Assign(table, k, c, v) else table
    case _ => table
  }

  function TableRun(table: map<Key, Row>, es: seq<Event>): map<Key, Row>
    decreases |es|
  {
    if es == [] then table else TableRun(TableStep(table, es[0]), es[1..])
  }

  lemma UpdateKeeps(st: State, processFirst: bool, now: int, t: Timing)
    requires Inv(st)
    ensures forall k :: k in st.results ==> k in st.cache
    ensures var st' := Update(st, processFirst, now, t);
            && Inv(st') && Seen(st') == Seen(st)
            && (forall k :: k in st.cache && k !in st'.cache ==>
                  st.cache[k].useCount == 0 && k in st'.rows && st'.rows[k] == RowOf(Seen(st), k))
  {
    ResultsAreCached(st);
    ProcessKeeps(st, now);
    var st1 := if processFirst then Process(st, now) else st;
    ProcessOnlyMarks(st, now);
    var st' := Sweep(st1, st1.cache.Keys, now, t);
    SweepKeeps(st1, st1.cache.Keys, now, t);
    forall k | k in st.cache && k !in st'.cache
      ensures st.cache[k].useCount == 0 && k in st'.rows && st'.rows[k] == RowOf(Seen(st), k)
    {
      assert Saved(st1, k);
      SavedRow(st1, k);
    }
  }

  lemma SavedRow(st: State, k: Key)
    requires Inv(st) && Saved(st, k)
    ensures k in st.rows && st.cache[k].useCount == 0 && RowOf(Seen(st), k) == st.rows[k]
  {
    assert KeyInv(st, k);
    assert st.rows[k] + st.cache[k].loaded == st.rows[k];
    assert SeenRow(st, k) == st.rows[k];
  }

  lemma {:induction false} ProcessOnlyMarks(st: State, now: int)
    requires forall k :: k in st.results ==> k in st.cache
    ensures var st' := Process(st, now);
            && st'.cache.Keys == st.cache.Keys && st'.rows == st.rows && st'.queue == st.queue
            && forall k :: k in st.cache ==>
                             var o := st.cache[k];
                             st'.cache[k].(inPersistence := o.inPersistence, persistenceTime := o.persistenceTime) == o
    decreases |st.results|
  {
    if st.results != [] {
      ProcessOnlyMarks(Complete(st, st.results[0], now).(results := st.results[1..]), now);
    }
  }

  lemma StepRefines(st: State, e: Event, t: Timing)
    requires Inv(st) && Legal(st, e)
    ensures Inv(Step(st, e, t))
    ensures Seen(Step(st, e, t)) == TableStep(Seen(st), e)
  {
    match e
    case AttachCall(k, filter, autoCreate, initial, fails, now) =>
      if k in st.cache {
        assert KeyInv(st, k);
        AttachCachedKeeps(st, k, filter, autoCreate, initial, fails, now);
      } else {
        AttachNewKeeps(st, k, filter, autoCreate, initial, fails, now);
      }
    case FindCall(k) => FindKeeps(st, k);
    case Assignment(k, c, v) => ModifyKeeps(st, k, c, v);
    case LastRelease(k) => ReleaseKeeps(st, k);
    case DatabaseStep => ExecuteKeeps(st);
    case ResultQueueCall(now) => ProcessKeeps(st, now);
    case UpdateCall(processFirst, now) => UpdateKeeps(st, processFirst, now, t);
  }

  /** es is a possible run from st to end. */
  ghost predicate Run(st: State, es: seq<Event>, end: State, t: Timing)
    requires Inv(st)
    decreases |es|
  {
    if es == [] then st == end
    else Legal(st, es[0]) && (StepRefines(st, es[0], t); Run(Step(st, es[0], t), es[1..], end, t))
  }

  function Start(rows: map<Key, Row>): State {
    State(map[], rows, [], [])
  }

  lemma StartInv(rows: map<Key, Row>)
    ensures Inv(Start(rows)) && Seen(Start(rows)) == rows
  {
    forall k | k in rows ensures Seen(Start(rows))[k] == rows[k] {
      assert rows[k] + map[] == rows[k];
    }
  }

  /** st can be reached by the run es of a cache that starts empty over the given rows. */
  ghost predicate Reachable(rows: map<Key, Row>, es: seq<Event>, st: State, t: Timing) {
    StartInv(rows);
    Run(Start(rows), es, st, t)
  }

  lemma {:induction false} RunRefines(st: State, es: seq<Event>, end: State, t: Timing)
    requires Inv(st) && Run(st, es, end, t)
    ensures Inv(end) && Seen(end) == TableRun(Seen(st), es)
    decreases |es|
  {
    if es != [] {
      StepRefines(st, es[0], t);
      RunRefines(Step(st, es[0], t), es[1..], end, t);
    }
  }

  /** Main result. After any run, reading through the cache gives the plain table; and when the
      next Update erases an object, nobody holds it and its database row is that table's row. */
  lemma NoLostUpdate(rows: map<Key, Row>, es: seq<Event>, st: State, t: Timing, processFirst: bool, now: int)
    requires Reachable(rows, es, st, t)
    ensures Inv(st) && Seen(st) == TableRun(rows, es)
    ensures forall k :: k in st.results ==> k in st.cache
    ensures var st' := Update(st, processFirst, now, t);
            forall k :: k in st.cache && k !in st'.cache ==>
              st.cache[k].useCount == 0 && k in st'.rows && st'.rows[k] == RowOf(TableRun(rows, es), k)
  {
    StartInv(rows);
    RunRefines(Start(rows), es, st, t);
    UpdateKeeps(st, processFirst, now, t);
  }

  /** In-flight safety: in every reachable state a key has at most one batch or callback
      outstanding, has one exactly while it is marked, and every callback finds its object. */
  lemma InFlightSafety(rows: map<Key, Row>, es: seq<Event>, st: State, t: Timing)
    requires Reachable(rows, es, st, t)
    ensures forall k :: Outstanding(st)[k] <= 1 && (Outstanding(st)[k] == 1 <==> InFlight(st, k))
    ensures forall k :: k in st.results ==> k in st.cache
  {
    StartInv(rows);
    RunRefines(Start(rows), es, st, t);
    ResultsAreCached(st);
    forall k ensures Outstanding(st)[k] == if InFlight(st, k) then 1 else 0 {
      assert KeyInv(st, k);
    }
  }

  // ---------------------------------------------------------------- shutdown

  /** What Shutdown asserts: no handle is left. */
  ghost predicate Unheld(st: State) {
    forall k :: k in st.cache ==> st.cache[k].useCount == 0
  }

  /** Shutdown after its ProcessResultQueue: dirty objects are written directly. */
  function DirectRows(st: State, todo: set<Key>): map<Key, Row>
    requires todo <= st.cache.Keys
  {
    map k | k in st.rows.Keys + todo ::
      if k in todo && st.cache[k].dirty then RowOf(st.rows, k) + st.cache[k].loaded else RowOf(st.rows, k)
  }

  lemma DirectRowsStep(st: State, done: set<Key>, k: Key)
    requires done <= st.cache.Keys && k in st.cache && k !in done && k in st.rows
    ensures DirectRows(st, done + {k}) ==
            if st.cache[k].dirty then DirectRows(st, done)[k := RowOf(DirectRows(st, done), k) + st.cache[k].loaded]
            else DirectRows(st, done)
  {
  }

  /** The database thread works off what is still queued. */
  function Flush(rows: map<Key, Row>, queue: seq<Batch>): map<Key, Row>
    decreases |queue|
  {
    if queue == [] then rows
    else Flush(rows[queue[0].key := RowOf(rows, queue[0].key) + queue[0].snapshot], queue[1..])
  }

  lemma {:induction false} FlushRow(rows: map<Key, Row>, queue: seq<Batch>, k: Key)
    requires QueuedKeys(queue)[k] <= 1
    ensures RowOf(Flush(rows, queue), k) == RowOf(rows, k) + Pending(queue, k)
    ensures k in Flush(rows, queue) <==> k in rows || k in QueuedKeys(queue)
    decreases |queue|
  {
    if queue == [] {
      assert RowOf(rows, k) + map[] == RowOf(rows, k);
    } else {
      var b := queue[0];
      FlushRow(rows[b.key := RowOf(rows, b.key) + b.snapshot], queue[1..], k);
      if b.key == k {
        NotPending(queue[1..], k);
        assert RowOf(rows, k) + b.snapshot + map[] == RowOf(rows, k) + b.snapshot;
      }
    }
  }

  /** No dirty object has a batch in flight that carries other values than memory. */
  ghost predicate SnapshotsCurrent(st: State) {
    forall k :: k in st.cache && st.cache[k].dirty ==> Holds(st.cache[k].loaded, Pending(st.queue, k))
  }

  /** All direct writes first, then the queue: the database equals memory exactly when no dirty
      object has an outdated batch. */
  lemma DirectFirstExact(st: State)
    requires Inv(st) && Unheld(st)
    ensures Flush(DirectRows(st, st.cache.Keys), st.queue) == Seen(st) <==> SnapshotsCurrent(st)
  {
    var rows := DirectRows(st, st.cache.Keys);
    var final := Flush(rows, st.queue);
    forall k ensures (k in final <==> k in Seen(st)) && RowOf(final, k) == RowOf(rows, k) + Pending(st.queue, k) {
      assert KeyInv(st, k);
      FlushRow(rows, st.queue, k);
      if k in QueuedKeys(st.queue) {
        assert InFlight(st, k);
      }
    }
    forall k | k in st.rows
      ensures final[k] == Seen(st)[k] <==>
              (k in st.cache && st.cache[k].dirty ==> Holds(st.cache[k].loaded, Pending(st.queue, k)))
    {
      ShutdownRow(st, k);
    }
    if final == Seen(st) {
      forall k | k in st.cache && st.cache[k].dirty ensures Holds(st.cache[k].loaded, Pending(st.queue, k)) {
        assert KeyInv(st, k);
        assert k in st.rows;
      }
    }
  }

  lemma WrittenLast(row: Row, loaded: Row, pending: Row)
    requires pending.Keys <= loaded.Keys
    ensures row + loaded + pending == row + loaded <==> Holds(loaded, pending)
  {
    if Holds(loaded, pending) {
      HeldLater(row, loaded, pending);
    } else {
      var c :| c in pending && !(c in loaded && loaded[c] == pending[c]);
      assert (row + loaded + pending)[c] != (row + loaded)[c];
    }
  }

  lemma ShutdownRow(st: State, k: Key)
    requires Inv(st) && k in st.rows
    requires k in st.cache ==> st.cache[k].useCount == 0
    ensures RowOf(DirectRows(st, st.cache.Keys), k) + Pending(st.queue, k) == SeenRow(st, k) <==>
            (k in st.cache && st.cache[k].dirty ==> Holds(st.cache[k].loaded, Pending(st.queue, k)))
  {
    assert KeyInv(st, k);
    var pending := Pending(st.queue, k);
    if k !in st.cache {
      NotPending(st.queue, k);
    } else {
      var row, loaded := st.rows[k], st.cache[k].loaded;
      if st.cache[k].dirty {
        WrittenLast(row, loaded, pending);
      } else if st.cache[k].useCount == 0 {
        assert row + pending == row + loaded;
      }
    }
  }

  // ---------------------------------------------------------------- all schedules of a shutdown

  /** While Shutdown visits the objects, the database thread goes on with its queue. */
  datatype Turn = DirectWrite | DatabaseTurn

  datatype Play = Play(rows: map<Key, Row>, todo: set<Key>, queue: seq<Batch>)

  predicate CanTurn(p: Play, t: Turn) {
    match t
    case DirectWrite => p.todo != {}
    case DatabaseTurn => p.queue != []
  }

  function PlayTurn(st: State, p: Play, t: Turn): Play
    requires p.todo <= st.cache.Keys && CanTurn(p, t)
  {
    match t
    case DirectWrite =>
      var k := Least(p.todo);
      Play(if st.cache[k].dirty then p.rows[k := RowOf(p.rows, k) + st.cache[k].loaded] else p.rows,
           p.todo - {k}, p.queue)
    case DatabaseTurn =>
      var b := p.queue[0];
      Play(p.rows[b.key := RowOf(p.rows, b.key) + b.snapshot], p.todo, p.queue[1..])
  }

  ghost predicate Plays(st: State, p: Play, turns: seq<Turn>, q: Play)
    requires p.todo <= st.cache.Keys
    decreases |turns|
  {
    if turns == [] then p == q
    else CanTurn(p, turns[0]) && Plays(st, PlayTurn(st, p, turns[0]), turns[1..], q)
  }

  /** A whole shutdown: every object is visited and the queue is worked off, in the order of turns. */
  ghost predicate Played(st: State, turns: seq<Turn>, rows: map<Key, Row>) {
    Plays(st, Play(st.rows, st.cache.Keys, st.queue), turns, Play(rows, {}, []))
  }

  lemma {:induction false} PlaysOn(st: State, p: Play, turns: seq<Turn>, q: Play, more: seq<Turn>, r: Play)
    requires p.todo <= st.cache.Keys && Plays(st, p, turns, q)
    requires q.todo <= st.cache.Keys && Plays(st, q, more, r)
    ensures Plays(st, p, turns + more, r)
    decreases |turns|
  {
    if turns == [] {
      assert turns + more == more;
    } else {
      assert (turns + more)[1..] == turns[1..] + more;
      PlaysOn(st, PlayTurn(st, p, turns[0]), turns[1..], q, more, r);
    }
  }

  lemma {:induction false} FlushPlays(st: State, p: Play) returns (turns: seq<Turn>)
    requires p.todo == {}
    ensures Plays(st, p, turns, Play(Flush(p.rows, p.queue), {}, []))
    decreases |p.queue|
  {
    if p.queue == [] {
      turns := [];
    } else {
      var more := FlushPlays(st, PlayTurn(st, p, DatabaseTurn));
      turns := [DatabaseTurn] + more;
      assert turns[1..] == more;
    }
  }

  lemma {:induction false} DirectPlays(st: State, p: Play, done: set<Key>) returns (turns: seq<Turn>)
    requires Inv(st) && p.todo !! done && p.todo + done == st.cache.Keys && p.rows == DirectRows(st, done)
    ensures Plays(st, p, turns, Play(DirectRows(st, st.cache.Keys), {}, p.queue))
    decreases p.todo
  {
    if p.todo == {} {
      assert done == st.cache.Keys;
      turns := [];
    } else {
      var k := Least(p.todo);
      assert KeyInv(st, k);
      DirectRowsStep(st, done, k);
      var more := DirectPlays(st, PlayTurn(st, p, DirectWrite), done + {k});
      turns := [DirectWrite] + more;
      assert turns[1..] == more;
    }
  }

  /** What a schedule makes of row k, when its batch carries nothing outdated. */
  lemma {:induction false} PlayRow(st: State, p: Play, turns: seq<Turn>, rows: map<Key, Row>, k: Key)
    requires p.todo <= st.cache.Keys && Plays(st, p, turns, Play(rows, {}, [])) && QueuedKeys(p.queue)[k] <= 1
    requires k in p.todo && st.cache[k].dirty ==> Holds(st.cache[k].loaded, Pending(p.queue, k))
    ensures RowOf(rows, k) == Due(st, p, k)
    decreases |turns|
  {
    if turns == [] {
      assert RowOf(rows, k) + map[] == RowOf(rows, k);
    } else {
      var q := PlayTurn(st, p, turns[0]);
      if turns[0].DatabaseTurn? && p.queue[0].key == k {
        NotPending(q.queue, k);
      }
      PlayRow(st, q, turns[1..], rows, k);
      match turns[0] {
        case DirectWrite => PlayDirect(st, p, k);
        case DatabaseTurn => PlayDatabase(st, p, k);
      }
    }
  }

  /** Which rows there will be. */
  lemma {:induction false} PlayKeys(st: State, p: Play, turns: seq<Turn>, rows: map<Key, Row>, k: Key)
    requires p.todo <= st.cache.Keys && Plays(st, p, turns, Play(rows, {}, []))
    ensures k in rows <==> k in p.rows || k in QueuedKeys(p.queue) || (k in p.todo && st.cache[k].dirty)
    decreases |turns|
  {
    if turns != [] {
      PlayKeys(st, PlayTurn(st, p, turns[0]), turns[1..], rows, k);
    }
  }

  /** What row k will be if nothing outdated is queued for it. */
  function Due(st: State, p: Play, k: Key): Row {
    RowOf(p.rows, k)
    + (if k in p.todo && k in st.cache && st.cache[k].dirty then st.cache[k].loaded else Pending(p.queue, k))
  }

  lemma PlayDirect(st: State, p: Play, k: Key)
    requires p.todo <= st.cache.Keys && CanTurn(p, DirectWrite)
    requires k in p.todo && st.cache[k].dirty ==> Holds(st.cache[k].loaded, Pending(p.queue, k))
    ensures Due(st, PlayTurn(st, p, DirectWrite), k) == Due(st, p, k)
  {
    if Least(p.todo) == k && st.cache[k].dirty {
      HeldLater(RowOf(p.rows, k), st.cache[k].loaded, Pending(p.queue, k));
    }
  }

  lemma PlayDatabase(st: State, p: Play, k: Key)
    requires p.todo <= st.cache.Keys && CanTurn(p, DatabaseTurn) && QueuedKeys(p.queue)[k] <= 1
    requires k in p.todo && st.cache[k].dirty ==> Holds(st.cache[k].loaded, Pending(p.queue, k))
    ensures Due(st, PlayTurn(st, p, DatabaseTurn), k) == Due(st, p, k)
  {
    if p.queue[0].key == k {
      NotPending(p.queue[1..], k);
      var row, snapshot := RowOf(p.rows, k), p.queue[0].snapshot;
      assert row + snapshot + map[] == row + snapshot;
      if k in p.todo && st.cache[k].dirty {
        HiddenMerge(row, snapshot, st.cache[k].loaded);
      }
    }
  }

  lemma PlayedCurrent(st: State, turns: seq<Turn>, rows: map<Key, Row>)
    requires Inv(st) && Unheld(st) && SnapshotsCurrent(st) && Played(st, turns, rows)
    ensures rows == Seen(st)
  {
    forall k ensures (k in rows <==> k in Seen(st)) && (k in rows ==> rows[k] == Seen(st)[k]) {
      assert KeyInv(st, k);
      PlayRow(st, Play(st.rows, st.cache.Keys, st.queue), turns, rows, k);
      PlayKeys(st, Play(st.rows, st.cache.Keys, st.queue), turns, rows, k);
      if k in QueuedKeys(st.queue) {
        assert InFlight(st, k);
      }
      if k in st.rows {
        PlayedRow(st, k);
      }
    }
  }

  lemma PlayedRow(st: State, k: Key)
    requires Inv(st) && Unheld(st) && k in st.rows
    ensures Due(st, Play(st.rows, st.cache.Keys, st.queue), k) == SeenRow(st, k)
  {
    assert KeyInv(st, k);
    if k !in st.cache {
      NotPending(st.queue, k);
    }
  }

  lemma SomeSchedule(st: State) returns (turns: seq<Turn>)
    requires Inv(st)
    ensures Played(st, turns, Flush(DirectRows(st, st.cache.Keys), st.queue))
  {
    assert st.rows == DirectRows(st, {});
    var p, q := Play(st.rows, st.cache.Keys, st.queue), Play(DirectRows(st, st.cache.Keys), {}, st.queue);
    var first := DirectPlays(st, p, {});
    var last := FlushPlays(st, q);
    PlaysOn(st, p, first, q, last, Play(Flush(q.rows, q.queue), {}, []));
    turns := first + last;
  }

  lemma OneTurnOn(st: State, p: Play, turns: seq<Turn>, q: Play, t: Turn)
    requires p.todo <= st.cache.Keys && Plays(st, p, turns, q) && q.todo <= st.cache.Keys && CanTurn(q, t)
    ensures Plays(st, p, turns + [t], PlayTurn(st, q, t))
  {
    assert [t][1..] == [];
    PlaysOn(st, p, turns, q, [t], PlayTurn(st, q, t));
  }

  /** When all objects are visited, the rest of the queue completes the schedule. */
  lemma RestFlushes(st: State, turns: seq<Turn>, rows: map<Key, Row>, queue: seq<Batch>)
    requires Inv(st) && Unheld(st)
    requires Plays(st, Play(st.rows, st.cache.Keys, st.queue), turns, Play(rows, {}, queue))
    ensures SnapshotsCurrent(st) ==> Flush(rows, queue) == Seen(st)
  {
    var rest := FlushPlays(st, Play(rows, {}, queue));
    var first, end := Play(st.rows, st.cache.Keys, st.queue), Play(Flush(rows, queue), {}, []);
    PlaysOn(st, first, turns, Play(rows, {}, queue), rest, end);
    if SnapshotsCurrent(st) {
      PlayedCurrent(st, turns + rest, Flush(rows, queue));
    }
  }

  /** Main result: every schedule of a shutdown leaves the database equal to memory if and only if
      no dirty object has an outdated batch in the queue. */
  lemma ShutdownExact(st: State)
    requires Inv(st) && Unheld(st)
    ensures (forall turns, rows :: Played(st, turns, rows) ==> rows == Seen(st)) <==> SnapshotsCurrent(st)
  {
    DirectFirstExact(st);
    if SnapshotsCurrent(st) {
      forall turns, rows | Played(st, turns, rows) ensures rows == Seen(st) {
        PlayedCurrent(st, turns, rows);
      }
    } else {
      var turns := SomeSchedule(st);
    }
  }

  /** With a drained queue nothing can be outdated. */
  lemma ShutdownDrained(st: State)
    requires Inv(st) && Unheld(st) && st.queue == []
    ensures forall turns, rows :: Played(st, turns, rows) ==> rows == Seen(st)
  {
    ShutdownExact(st);
  }

  // ---------------------------------------------------------------- a run that loses an assignment

  const ROWS: map<Key, Row> := map[1 := map[0 := "a"]]
  const TIMING: Timing := Timing(10, 20)
  /** Row 1 is attached, written back while it is held, assigned, and released. */
  const LOSING: seq<Event> :=
    [AttachCall(1, {0}, false, map[], {}, 0), UpdateCall(false, 11), Assignment(1, 0, "b"), LastRelease(1)]

  function Losing(value: Value, useCount: nat, dirty: bool, sent: bool): State {
    State(map[1 := Object(map[0 := value], useCount, dirty, sent, 0)], ROWS,
          if sent then [Batch(1, map[0 := "a"])] else [], [])
  }

  lemma {:induction false} PrepareNone(loaded: Row, row: Row, filter: set<Column>, fails: set<Column>, idx: nat)
    requires forall c :: c in filter ==> c in loaded
    ensures Prepare(loaded, row, filter, fails, idx) == (loaded, true)
    decreases COLUMNS - idx
  {
    if idx < COLUMNS {
      PrepareNone(loaded, row, filter, fails, idx + 1);
    }
  }

  lemma LosingAttach()
    ensures Attach(Start(ROWS), 1, {0}, false, map[], {}, 0).0 == Losing("a", 1, false, false)
  {
    PrepareNone(map[0 := "a"], ROWS[1], {0}, {}, 1);
    assert Prepare(map[], ROWS[1], {0}, {}, 0) == (map[0 := "a"], true);
  }

  lemma LosingUpdate()
    ensures Update(Losing("a", 1, false, false), false, 11, TIMING) == Losing("a", 1, false, true)
  {
    var st := Losing("a", 1, false, false);
    assert st.cache.Keys == {1} && {1} - {1} == {};
    assert Least({1}) == 1;
    assert WriteBack(st, 1, 11, TIMING) == Losing("a", 1, false, true);
    assert Visit(st, 1, 11, TIMING) == Losing("a", 1, false, true);
  }

  lemma Follow(st: State, e: Event, next: State, es: seq<Event>, end: State, t: Timing)
    requires Inv(st) && Legal(st, e) && Step(st, e, t) == next && Inv(next) && Run(next, es, end, t)
    ensures Run(st, [e] + es, end, t)
  {
    assert ([e] + es)[1..] == es;
  }

  lemma LosingRun()
    ensures Reachable(ROWS, LOSING, Losing("b", 0, true, true), TIMING)
  {
    var s0, s1, s2 := Start(ROWS), Losing("a", 1, false, false), Losing("a", 1, false, true);
    var s4 := Losing("b", 0, true, true);
    StartInv(ROWS);
    LosingAttach();
    StepRefines(s0, LOSING[0], TIMING);
    LosingUpdate();
    StepRefines(s1, LOSING[1], TIMING);
    LosingHandle();
    Follow(s1, LOSING[1], s2, [LOSING[2], LOSING[3]], s4, TIMING);
    Follow(s0, LOSING[0], s1, [LOSING[1], LOSING[2], LOSING[3]], s4, TIMING);
  }

  lemma LosingHandle()
    requires Inv(Losing("a", 1, false, true))
    ensures Run(Losing("a", 1, false, true), [LOSING[2], LOSING[3]], Losing("b", 0, true, true), TIMING)
  {
    var s2, s3, s4 := Losing("a", 1, false, true), Losing("b", 1, false, true), Losing("b", 0, true, true);
    LosingAssignment();
    StepRefines(s2, LOSING[2], TIMING);
    LosingRelease();
    StepRefines(s3, LOSING[3], TIMING);
    Follow(s3, LOSING[3], s4, [], s4, TIMING);
    Follow(s2, LOSING[2], s3, [LOSING[3]], s4, TIMING);
  }

  lemma LosingAssignment()
    ensures var s2 := Losing("a", 1, false, true);
            Legal(s2, LOSING[2]) && Step(s2, LOSING[2], TIMING) == Losing("b", 1, false, true)
  {
    var s2, s3 := Losing("a", 1, false, true), Losing("b", 1, false, true);
    assert s2.cache[1].loaded[0 := "b"] == s3.cache[1].loaded;
    assert Modify(s2, 1, 0, "b").cache == s3.cache;
  }

  lemma LosingRelease()
    ensures var s3 := Losing("b", 1, false, true);
            Legal(s3, LOSING[3]) && Step(s3, LOSING[3], TIMING) == Losing("b", 0, true, true)
  {
  }

  /** The condition of ShutdownExact fails in reachable states: the assignment of this run is in the
      table, and a schedule of the shutdown that follows leaves the old value in the database. */
  lemma ShutdownLoses()
    ensures exists st, turns, rows ::
              && Reachable(ROWS, LOSING, st, TIMING) && Unheld(st) && st.results == []
              && TableRun(ROWS, LOSING) == map[1 := map[0 := "b"]]
              && Played(st, turns, rows) && rows == map[1 := map[0 := "a"]]
  {
    LosingRun();
    var st := Losing("b", 0, true, true);
    RunRefines(Start(ROWS), LOSING, st, TIMING);
    StartInv(ROWS);
    LosingSeen();
    LosingPlay();
    assert Played(st, [DirectWrite, DatabaseTurn], map[1 := map[0 := "a"]]);
  }

  lemma LosingSeen()
    ensures Seen(Losing("b", 0, true, true)) == map[1 := map[0 := "b"]]
  {
    assert SeenRow(Losing("b", 0, true, true), 1) == map[0 := "b"];
  }

  lemma LosingPlay()
    ensures Played(Losing("b", 0, true, true), [DirectWrite, DatabaseTurn], map[1 := map[0 := "a"]])
  {
    var st := Losing("b", 0, true, true);
    assert st.cache.Keys == {1} && {1} - {1} == {};
    assert Least({1}) == 1;
    var p := Play(ROWS, {1}, st.queue);
    var q := Play(map[1 := map[0 := "b"]], {}, st.queue);
    var r := Play(map[1 := map[0 := "a"]], {}, []);
    assert RowOf(ROWS, 1) + st.cache[1].loaded == map[0 := "b"];
    assert PlayTurn(st, p, DirectWrite) == q;
    assert RowOf(q.rows, 1) + st.queue[0].snapshot == map[0 := "a"];
    assert PlayTurn(st, q, DatabaseTurn) == r;
    assert Plays(st, r, [], r);
    assert [DirectWrite, DatabaseTurn][1..] == [DatabaseTurn] && [DatabaseTurn][1..] == [];
    assert Plays(st, q, [DatabaseTurn], r);
    assert Plays(st, p, [DirectWrite, DatabaseTurn], r);
  }
}
