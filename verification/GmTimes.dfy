/** When a pass starts a command and when it ends one, told by the calls in the log, the statuses and
    the two times of the row. */
module GmTimes {
  import opened KeyOrder
  import opened Wrappers
  import opened GmStore
  import opened GmRuns
  import opened GmTargets

  /** A start time of 0 means now, and no command ends before it starts. */
  function StartOf(c: Cmd, time: nat): nat {
    if c.start == 0 then time else c.start
  }

  function EndOf(c: Cmd, time: nat): nat {
    if c.end < StartOf(c, time) then StartOf(c, time) else c.end
  }

  /** What Validate will say: a cancel command needs one parameter that names another command of the
      map, and a server as its target. */
  predicate Accepts(e: Engine, id: Id, ans: Oracle)
    requires id in e.cmds
  {
    var c := e.cmds[id];
    if c.kind.Other? then ans(|e.log| + 1)
    else c.targetType == Server && c.params.Some? && c.params.value in e.cmds && c.params.value != id
  }

  predicate Starts(e: Engine, id: Id, time: nat, ans: Oracle)
    requires id in e.cmds
  {
    var c := e.cmds[id];
    (c.status == Pending || (c.status == New && Accepts(e, id, ans))) && StartOf(c, time) < time
  }

  /** The calls of Validate and Complete for a command, next to those in its tally. */
  function Calls(log: seq<Event>, id: Id, call: Call): nat {
    Count(log, Called(call, id))
  }

  // ---------------------------------------------------------------- one command at its turn

  lemma CallsAppend(log: seq<Event>, ev: Event, id: Id, call: Call)
    ensures Calls(log + [ev], id, call) == Calls(log, id, call) + if ev == Called(call, id) then 1 else 0
    ensures Count(log + [ev], Succeeded(call, id)) ==
            Count(log, Succeeded(call, id)) + if ev == Succeeded(call, id) then 1 else 0
  {
    CountAppend(log, ev, Called(call, id));
    CountAppend(log, ev, Succeeded(call, id));
  }

  /** From e to e' the calls for id have grown by so many of each kind, and those of Trigger that
      succeeded. */
  ghost predicate Grown(e: Engine, e': Engine, id: Id, validates: nat, triggers: nat, finishes: nat, successes: nat) {
    && Calls(e'.log, id, Validate) == Calls(e.log, id, Validate) + validates
    && Calls(e'.log, id, Trigger) == Calls(e.log, id, Trigger) + triggers
    && Calls(e'.log, id, Finish) == Calls(e.log, id, Finish) + finishes
    && Count(e'.log, Succeeded(Trigger, id)) == Count(e.log, Succeeded(Trigger, id)) + successes
  }

  lemma LogGrown(e: Engine, id: Id, ev: Event)
    ensures Grown(e, Log(e, ev), id, if ev == Called(Validate, id) then 1 else 0,
                  if ev == Called(Trigger, id) then 1 else 0, if ev == Called(Finish, id) then 1 else 0,
                  if ev == Succeeded(Trigger, id) then 1 else 0)
  {
    CallsAppend(e.log, ev, id, Validate);
    CallsAppend(e.log, ev, id, Trigger);
    CallsAppend(e.log, ev, id, Finish);
  }

  /** Validate. */
  lemma ValidateAt(e: Engine, id: Id, ans: Oracle)
    requires id in e.cmds
    ensures var (e1, go) := ValidatePhase(e, id, ans);
            if e.cmds[id].status != New then (e1, go) == (e, true)
            else && go == Accepts(e, id, ans) && Grown(e, e1, id, 1, 0, 0, 0)
                 && e1.cmds[id] == e.cmds[id].(target := e1.cmds[id].target, dirty := true,
                                               status := if Accepts(e, id, ans) then Pending else Error)
                 && e1.cmds == e.cmds[id := e1.cmds[id]]
  {
    if e.cmds[id].status == New {
      LogGrown(e, id, Called(Validate, id));
      var c := Validated(e, id, ans);
    }
  }

  /** What a call for another command may do to this one. */
  ghost predicate Bystander(e: Engine, e': Engine, id: Id) {
    && id in e.cmds && id in e'.cmds
    && (e'.cmds[id] == e.cmds[id]
        || (!Terminal(e.cmds[id].status) && e'.cmds[id] == e.cmds[id].(status := Canceled, dirty := true)))
    && Calls(e'.log, id, Validate) == Calls(e.log, id, Validate)
    && Calls(e'.log, id, Trigger) == Calls(e.log, id, Trigger)
    && Count(e'.log, Succeeded(Trigger, id)) == Count(e.log, Succeeded(Trigger, id))
  }

  ghost predicate Bystanders(e: Engine, e': Engine, id: Id) {
    forall j :: j in e.cmds && j != id ==> Bystander(e, e', j)
  }

  lemma PutBystanders(e: Engine, id: Id, c: Cmd)
    ensures Bystanders(e, Put(e, id, c), id) && Grown(e, Put(e, id, c), id, 0, 0, 0, 0)
  {
  }

  lemma BystandersOn(e: Engine, e1: Engine, e2: Engine, id: Id)
    requires Bystanders(e, e1, id) && Bystanders(e1, e2, id)
    ensures Bystanders(e, e2, id)
  {
    forall j | j in e.cmds && j != id ensures Bystander(e, e2, j) {
      assert Bystander(e, e1, j) && Bystander(e1, e2, j);
    }
  }

  /** Main result on cancelling: what GmCommand::Cancel does to its target, by the status of that. */
  lemma CancelExact(e: Engine, target: Id, ans: Oracle)
    ensures var (e1, ok) := CancelById(e, target, ans);
            if target !in e.cmds then (e1, ok) == (e, false)
            else match e.cmds[target].status
                 case New | Pending =>
                   && ok && e1.log == e.log
                   && e1.cmds == e.cmds[target := e.cmds[target].(status := Canceled, dirty := true)]
                 case Running =>
                   && Grown(e, e1, target, 0, 0, 1, 0)
                   && ok == (e.cmds[target].kind == CancelCommand || ans(|e.log| + 1))
                   && e1.cmds == (if ok then e.cmds[target := e.cmds[target].(status := Canceled, dirty := true)]
                                  else e.cmds)
                 case _ => (e1, ok) == (e, false)
  {
    if target in e.cmds && e.cmds[target].status == Running {
      FinishCall(e, target, ans);
    }
  }

  lemma FinishCall(e: Engine, id: Id, ans: Oracle)
    requires id in e.cmds
    ensures var (e1, ok) := CallComplete(e, id, ans);
            && Grown(e, e1, id, 0, 0, 1, 0) && e1.cmds == e.cmds
            && ok == (e.cmds[id].kind == CancelCommand || ans(|e.log| + 1))
            && Bystanders(e, e1, id)
  {
    var e0 := Log(e, Called(Finish, id));
    LogGrown(e, id, Called(Finish, id));
    LogGrown(e0, id, Succeeded(Finish, id));
    forall j | j in e.cmds && j != id ensures Bystander(e, CallComplete(e, id, ans).0, j) {
      LogGrown(e, j, Called(Finish, id));
      LogGrown(e0, j, Succeeded(Finish, id));
    }
  }

  lemma CancelBystander(e: Engine, target: Id, ans: Oracle, id: Id)
    requires id in e.cmds
    ensures Bystander(e, CancelById(e, target, ans).0, id)
  {
    if target in e.cmds && e.cmds[target].status == Running {
      FinishCall(e, target, ans);
      if target == id {
        FinishBystander(e, id, ans);
      }
    }
  }

  lemma FinishBystander(e: Engine, id: Id, ans: Oracle)
    requires id in e.cmds
    ensures Bystander(e, CallComplete(e, id, ans).0, id)
  {
    FinishCall(e, id, ans);
  }

  /** The call of Trigger, for a command that is pending. */
  lemma TriggerCall(e: Engine, id: Id, ans: Oracle)
    requires id in e.cmds && e.cmds[id].status == Pending
    ensures var (e1, ok) := CallTrigger(e, id, ans);
            && Grown(e, e1, id, 0, 1, 0, if ok then 1 else 0)
            && (e.cmds[id].kind == Other ==> ok == ans(|e.log| + 1) && e1.cmds == e.cmds)
            && (e.cmds[id].kind == CancelCommand ==>
                  var (d, done) := CancelById(Log(e, Called(Trigger, id)), e.cmds[id].target, ans);
                  ok == done && e1.cmds == d.cmds)
            && e1.cmds[id].(status := Pending, dirty := true) == e.cmds[id].(dirty := true)
            && Bystanders(e, e1, id)
  {
    var e0 := Log(e, Called(Trigger, id));
    var e1 := if e.cmds[id].kind.Other? then e0 else CancelById(e0, e.cmds[id].target, ans).0;
    LogGrown(e, id, Called(Trigger, id));
    LogGrown(e1, id, Succeeded(Trigger, id));
    TriggerOwn(e0, id, ans);
    forall j | j in e.cmds && j != id ensures Bystander(e, CallTrigger(e, id, ans).0, j) {
      LogGrown(e, j, Called(Trigger, id));
      CancelBystander(e0, e.cmds[id].target, ans, j);
      LogGrown(e1, j, Succeeded(Trigger, id));
    }
  }

  /** Cancelling on behalf of a pending command calls nothing for that command itself. */
  lemma TriggerOwn(e: Engine, id: Id, ans: Oracle)
    requires id in e.cmds && e.cmds[id].status == Pending
    ensures var e1 := CancelById(e, e.cmds[id].target, ans).0;
            Grown(e, e1, id, 0, 0, 0, 0) && e1.cmds[id].(status := Pending, dirty := true) == e.cmds[id].(dirty := true)
  {
    var target := e.cmds[id].target;
    CancelBystander(e, target, ans, id);
    if target in e.cmds && target != id && e.cmds[target].status == Running {
      LogGrown(e, id, Called(Finish, target));
      LogGrown(Log(e, Called(Finish, target)), id, Succeeded(Finish, target));
    }
  }

  /** Trigger, for a command whose start time is not 0 any more. */
  lemma TriggerAt(e: Engine, id: Id, time: nat, ans: Oracle)
    requires id in e.cmds && e.cmds[id].start > 0
    ensures var (e1, go) := TriggerPhase(e, id, time, ans);
            var c := e.cmds[id];
            if c.status != Pending || c.start >= time then (e1, go) == (e, true)
            else && Grown(e, e1, id, 0, 1, 0, if go then 1 else 0)
                 && e1.cmds[id] == c.(start := time, dirty := true, status := if go then Running else Error)
                 && Bystanders(e, e1, id)
  {
    var c := e.cmds[id];
    if c.status == Pending && c.start < time {
      var e0 := Put(e, id, c.(start := time, dirty := true));
      PutBystanders(e, id, c.(start := time, dirty := true));
      TriggerCall(e0, id, ans);
      var (e1, ok) := CallTrigger(e0, id, ans);
      BystandersOn(e, e0, e1, id);
      var c1 := e1.cmds[id].(status := if ok then Running else Error, dirty := true);
      PutBystanders(e1, id, c1);
      BystandersOn(e, e1, Put(e1, id, c1), id);
    }
  }

  /** Complete, for a command whose end time is not 0 any more. */
  lemma FinishAt(e: Engine, id: Id, time: nat, ans: Oracle)
    requires id in e.cmds && e.cmds[id].end > 0
    ensures var e1 := FinishPhase(e, id, time, ans);
            var c := e.cmds[id];
            if c.status != Running || c.end >= time then e1 == e
            else && Grown(e, e1, id, 0, 0, 1, 0)
                 && e1.cmds[id] == c.(dirty := true, status := if c.kind == CancelCommand || ans(|e.log| + 1)
                                                               then Complete else Error)
                 && Bystanders(e, e1, id)
  {
    var c := e.cmds[id];
    if c.status == Running && c.end < time {
      var (e1, ok) := CallComplete(e, id, ans);
      FinishCall(e, id, ans);
      var c1 := c.(status := if ok then Complete else Error, dirty := true);
      PutBystanders(e1, id, c1);
      BystandersOn(e, e1, Put(e1, id, c1), id);
    }
  }

  lemma ValidateBystanders(e: Engine, id: Id, ans: Oracle)
    requires id in e.cmds
    ensures Bystanders(e, ValidatePhase(e, id, ans).0, id)
  {
    if e.cmds[id].status.New? {
      var c := Validated(e, id, ans);
      var e1 := Log(e, Called(Validate, id));
      forall j | j in e.cmds && j != id ensures Bystander(e, e1, j) {
        LogGrown(e, j, Called(Validate, id));
      }
      PutBystanders(e1, id, c);
      BystandersOn(e, e1, Put(e1, id, c), id);
    } else {
      assert forall j :: j in e.cmds ==> Bystander(e, e, j);
    }
  }

  /** The status after the turn, when Trigger and Complete have succeeded or not. */
  function StatusAfter(c: Cmd, accepted: bool, starts: bool, triggered: bool, ends: bool, completed: bool): Status {
    if c.status == New && !accepted then Error
    else if starts && !triggered then Error
    else if ends then if completed then Complete else Error
    else if starts || c.status == Running then Running
    else if c.status == New then Pending
    else c.status
  }

  /** What the turn of a command in a pass is: the calls that are made, its times, and its status. */
  ghost predicate TurnIs(e: Engine, e': Engine, id: Id, time: nat, ans: Oracle, triggered: bool, completed: bool)
    requires id in e.cmds
  {
    var c, starts := e.cmds[id], Starts(e, id, time, ans);
    var ends := (c.status == Running || (starts && triggered)) && EndOf(c, time) < time;
    && Grown(e, e', id, if c.status == New then 1 else 0, if starts then 1 else 0, if ends then 1 else 0,
             if starts && triggered then 1 else 0)
    && id in e'.cmds && e'.cmds[id].start == (if starts then time else StartOf(c, time))
    && e'.cmds[id].end == EndOf(c, time)
    && e'.cmds[id].status == StatusAfter(c, Accepts(e, id, ans), starts, triggered, ends, completed)
    && Bystanders(e, e', id)
  }

  lemma GrownOn(e: Engine, e1: Engine, e2: Engine, id: Id, v: nat, t: nat, f: nat, s: nat, v': nat, t': nat, f': nat,
                s': nat)
    requires Grown(e, e1, id, v, t, f, s) && Grown(e1, e2, id, v', t', f', s')
    ensures Grown(e, e2, id, v + v', t + t', f + f', s + s')
  {
  }

  /** Behind the first phase: c is the command as it was. */
  ghost predicate Judged(e: Engine, e1: Engine, id: Id, time: nat, ans: Oracle, go: bool)
    requires id in e.cmds
  {
    var c := e.cmds[id];
    && go == (c.status == New ==> Accepts(e, id, ans))
    && Grown(e, e1, id, if c.status == New then 1 else 0, 0, 0, 0) && Bystanders(e, e1, id)
    && id in e1.cmds && e1.cmds[id].kind == c.kind
    && e1.cmds[id].start == StartOf(c, time) && e1.cmds[id].end == EndOf(c, time)
    && e1.cmds[id].status == if c.status != New then c.status else if Accepts(e, id, ans) then Pending else Error
  }

  lemma JudgedAt(e: Engine, id: Id, time: nat, ans: Oracle)
    requires id in e.cmds
    ensures var e0 := Put(e, id, FixTimes(e.cmds[id], time));
            Judged(e, ValidatePhase(e0, id, ans).0, id, time, ans, ValidatePhase(e0, id, ans).1)
  {
    var c0 := FixTimes(e.cmds[id], time);
    var e0 := Put(e, id, c0);
    var (e1, go) := ValidatePhase(e0, id, ans);
    FixedTimes(e.cmds[id], time);
    AcceptsSame(e, id, c0, ans);
    PutBystanders(e, id, c0);
    ValidateAt(e0, id, ans);
    ValidateBystanders(e0, id, ans);
    BystandersOn(e, e0, e1, id);
    if c0.status == New {
      GrownOn(e, e0, e1, id, 0, 0, 0, 0, 1, 0, 0, 0);
    }
  }

  lemma FixedTimes(c: Cmd, time: nat)
    ensures var c0 := FixTimes(c, time);
            c0 == c.(start := StartOf(c, time), end := EndOf(c, time), dirty := c0.dirty)
  {
  }

  lemma AcceptsSame(e: Engine, id: Id, c: Cmd, ans: Oracle)
    requires id in e.cmds && c.kind == e.cmds[id].kind
    requires c.targetType == e.cmds[id].targetType && c.params == e.cmds[id].params
    ensures Accepts(Put(e, id, c), id, ans) == Accepts(e, id, ans)
  {
  }

  /** Behind the second phase. */
  ghost predicate Tried(e: Engine, e2: Engine, id: Id, time: nat, ans: Oracle, go: bool)
    requires id in e.cmds
  {
    var c, starts := e.cmds[id], Starts(e, id, time, ans);
    && (!starts ==> go)
    && Grown(e, e2, id, if c.status == New then 1 else 0, if starts then 1 else 0, 0, if starts && go then 1 else 0)
    && Bystanders(e, e2, id) && id in e2.cmds && e2.cmds[id].kind == c.kind
    && e2.cmds[id].start == (if starts then time else StartOf(c, time)) && e2.cmds[id].end == EndOf(c, time)
    && e2.cmds[id].status == if starts then if go then Running else Error
                             else if c.status == New then Pending else c.status
  }

  lemma TriedAt(e: Engine, e1: Engine, id: Id, time: nat, ans: Oracle)
    requires id in e.cmds && time > 0 && Judged(e, e1, id, time, ans, true)
    ensures Tried(e, TriggerPhase(e1, id, time, ans).0, id, time, ans, TriggerPhase(e1, id, time, ans).1)
  {
    var (e2, go) := TriggerPhase(e1, id, time, ans);
    TriggerAt(e1, id, time, ans);
    TriggerBystanders(e, e1, id, time, ans);
    if Starts(e, id, time, ans) {
      GrownOn(e, e1, e2, id, if e.cmds[id].status == New then 1 else 0, 0, 0, 0, 0, 1, 0, if go then 1 else 0);
    }
  }

  lemma EndedAt(e: Engine, e2: Engine, id: Id, time: nat, ans: Oracle, completed: bool)
    requires id in e.cmds && time > 0 && Tried(e, e2, id, time, ans, true)
    requires e.cmds[id].status == New ==> Accepts(e, id, ans)
    requires completed == (e.cmds[id].kind == CancelCommand || ans(|e2.log| + 1))
    ensures TurnIs(e, FinishPhase(e2, id, time, ans), id, time, ans, true, completed)
  {
    FinishAt(e2, id, time, ans);
    FinishBystanders(e, e2, id, time, ans);
    if e2.cmds[id].status == Running && EndOf(e.cmds[id], time) < time {
      EndsNow(e, e2, FinishPhase(e2, id, time, ans), id, time, ans, completed);
    } else {
      StillRuns(e, e2, id, time, ans, completed);
    }
  }

  lemma EndsNow(e: Engine, e2: Engine, e3: Engine, id: Id, time: nat, ans: Oracle, completed: bool)
    requires id in e.cmds && time > 0 && Tried(e, e2, id, time, ans, true)
    requires e.cmds[id].status == New ==> Accepts(e, id, ans)
    requires e2.cmds[id].status == Running && EndOf(e.cmds[id], time) < time
    requires Grown(e2, e3, id, 0, 0, 1, 0) && Bystanders(e, e3, id)
    requires id in e3.cmds
    requires e3.cmds[id] == e2.cmds[id].(dirty := true, status := if completed then Complete else Error)
    ensures TurnIs(e, e3, id, time, ans, true, completed)
  {
    var c, starts := e.cmds[id], Starts(e, id, time, ans);
    GrownOn(e, e2, e3, id, if c.status == New then 1 else 0, if starts then 1 else 0, 0, if starts then 1 else 0,
            0, 0, 1, 0);
  }

  lemma StillRuns(e: Engine, e2: Engine, id: Id, time: nat, ans: Oracle, completed: bool)
    requires id in e.cmds && time > 0 && Tried(e, e2, id, time, ans, true)
    requires e.cmds[id].status == New ==> Accepts(e, id, ans)
    requires e2.cmds[id].status != Running || EndOf(e.cmds[id], time) >= time
    ensures TurnIs(e, e2, id, time, ans, true, completed)
  {
  }

  /** Main result on one turn: Validate is called exactly for a new command; Trigger exactly for one
      that is pending, or new and accepted, and whose start time is past; Complete exactly for one
      that runs, now or from now on, and whose end time is past. A start stamps the time of the pass
      over the start time, which stays as it is otherwise, and the end time always does. */
  lemma TurnExact(e: Engine, id: Id, time: nat, ans: Oracle) returns (triggered: bool, completed: bool)
    requires id in e.cmds && time > 0
    ensures TurnIs(e, ProcessOne(e, id, time, ans), id, time, ans, triggered, completed)
  {
    JudgedAt(e, id, time, ans);
    var (e1, go1) := ValidatePhase(Put(e, id, FixTimes(e.cmds[id], time)), id, ans);
    triggered, completed := false, false;
    if go1 {
      TriedAt(e, e1, id, time, ans);
      var (e2, go2) := TriggerPhase(e1, id, time, ans);
      triggered := go2;
      if go2 {
        completed := e.cmds[id].kind == CancelCommand || ans(|e2.log| + 1);
        EndedAt(e, e2, id, time, ans, completed);
      }
    }
  }

  lemma TriggerBystanders(e: Engine, e1: Engine, id: Id, time: nat, ans: Oracle)
    requires Bystanders(e, e1, id) && id in e1.cmds && e1.cmds[id].start > 0
    ensures Bystanders(e, TriggerPhase(e1, id, time, ans).0, id)
  {
    TriggerAt(e1, id, time, ans);
    var e2 := TriggerPhase(e1, id, time, ans).0;
    if e2 != e1 {
      BystandersOn(e, e1, e2, id);
    }
  }

  lemma FinishBystanders(e: Engine, e1: Engine, id: Id, time: nat, ans: Oracle)
    requires Bystanders(e, e1, id) && id in e1.cmds && e1.cmds[id].end > 0
    ensures Bystanders(e, FinishPhase(e1, id, time, ans), id)
  {
    FinishAt(e1, id, time, ans);
    var e2 := FinishPhase(e1, id, time, ans);
    if e2 != e1 {
      BystandersOn(e, e1, e2, id);
    }
  }

  // ---------------------------------------------------------------- a whole pass

  lemma BystanderOn(e: Engine, e1: Engine, e2: Engine, id: Id)
    requires Bystander(e, e1, id) && Bystander(e1, e2, id)
    ensures Bystander(e, e2, id)
  {
  }

  lemma OtherTurn(e: Engine, j: Id, time: nat, ans: Oracle, id: Id)
    requires j in e.cmds && id in e.cmds && j != id && time > 0
    ensures Bystander(e, ProcessOne(e, j, time, ans), id)
  {
    var triggered, completed := TurnExact(e, j, time, ans);
  }

  lemma {:induction false} OtherTurns(e: Engine, todo: set<Id>, time: nat, ans: Oracle, id: Id)
    requires todo <= e.cmds.Keys && id in e.cmds && id !in todo && time > 0
    ensures Bystander(e, ProcessAll(e, todo, time, ans), id)
    decreases todo
  {
    if todo != {} {
      var j := Least(todo);
      OtherTurn(e, j, time, ans, id);
      OtherTurns(ProcessOne(e, j, time, ans), todo - {j}, time, ans, id);
      BystanderOn(e, ProcessOne(e, j, time, ans), ProcessAll(e, todo, time, ans), id);
    }
  }

  /** The turns of other commands come before and behind the turn of a command. */
  lemma {:induction false} TurnInPass(e: Engine, todo: set<Id>, time: nat, ans: Oracle, id: Id)
    requires todo <= e.cmds.Keys && id in todo && time > 0
    ensures var b := AtTurn(e, todo, time, ans, id);
            Bystander(e, b, id) && Bystander(ProcessOne(b, id, time, ans), ProcessAll(e, todo, time, ans), id)
    decreases todo
  {
    var j := Least(todo);
    var e1 := ProcessOne(e, j, time, ans);
    if j == id {
      OtherTurns(e1, todo - {j}, time, ans, id);
    } else {
      OtherTurn(e, j, time, ans, id);
      TurnInPass(e1, todo - {j}, time, ans, id);
      BystanderOn(e, e1, AtTurn(e, todo, time, ans, id), id);
    }
  }

  /** Main result on a pass: Trigger is called for a command once, or not at all; it is exactly when
      the command is pending, or new and accepted, at its turn and its start time is past. Its row
      then has the time of the pass as its start time, and its own start time otherwise. */
  lemma PassExact(w: World, time: nat, ans: Oracle, id: Id)
    requires Inv(w) && Legal(w, PassAction(time, ans)) && time > w.e.maxTime && id in w.e.cmds
    ensures var b := AtTurn(w.e, w.e.cmds.Keys, time, ans, id);
            var e1, rows := ProcessAll(w.e, w.e.cmds.Keys, time, ans), Pass(w.e, time, ans).0.rows;
            var c, starts := w.e.cmds[id], Starts(b, id, time, ans);
            && (b.cmds[id] == c || b.cmds[id] == c.(status := Canceled, dirty := true))
            && Calls(e1.log, id, Validate) == Calls(w.e.log, id, Validate) + (if b.cmds[id].status == New then 1 else 0)
            && Calls(e1.log, id, Trigger) == Calls(w.e.log, id, Trigger) + (if starts then 1 else 0)
            && id in rows && rows[id].start == (if starts then time else StartOf(c, time))
            && rows[id].end == EndOf(c, time)
  {
    TurnInPass(w.e, w.e.cmds.Keys, time, ans, id);
    var b := AtTurn(w.e, w.e.cmds.Keys, time, ans, id);
    var triggered, completed := TurnExact(b, id, time, ans);
    PassSettles(w, time, ans, id);
  }

  /** A command that is to start later is not touched by the pass, but that it may be cancelled. */
  lemma NotBeforeItsTime(w: World, time: nat, ans: Oracle, id: Id)
    requires Inv(w) && Legal(w, PassAction(time, ans)) && time > w.e.maxTime && id in w.e.cmds
    requires w.e.cmds[id].status == Pending && w.e.cmds[id].start >= time
    ensures var (e1, rows) := (ProcessAll(w.e, w.e.cmds.Keys, time, ans), Pass(w.e, time, ans).0.rows);
            && Calls(e1.log, id, Trigger) == Calls(w.e.log, id, Trigger)
            && id in rows && rows[id].start == w.e.cmds[id].start
            && (rows[id].status == Pending || rows[id].status == Canceled)
  {
    TurnInPass(w.e, w.e.cmds.Keys, time, ans, id);
    var b := AtTurn(w.e, w.e.cmds.Keys, time, ans, id);
    var triggered, completed := TurnExact(b, id, time, ans);
    PassSettles(w, time, ans, id);
  }

  /** Behind a pass nothing is dirty, and rows of commands that were not in the map are as before. */
  lemma PassLeaves(w: World, time: nat, ans: Oracle, id: Id)
    requires Inv(w) && Legal(w, PassAction(time, ans)) && time > w.e.maxTime
    ensures var e2 := Pass(w.e, time, ans).0;
            && e2.maxTime == time && e2.maxHandled == w.e.maxHandled
            && (id in e2.cmds ==> !e2.cmds[id].dirty && id in w.e.cmds)
            && (id !in w.e.cmds ==> SameRows(w.e, e2, id))
  {
    ProcessAllKeeps(w.e, w.e.cmds.Keys, time, ans);
  }

  // ---------------------------------------------------------------- nothing is overdue

  ghost predicate PunctualAt(c: Cmd, time: nat) {
    && (c.status == Pending ==> c.start >= time)
    && (c.status == Running ==> c.end >= time)
  }

  ghost predicate Punctual(e: Engine) {
    e.maxTime > 0 ==> forall id :: id in e.cmds ==> PunctualAt(e.cmds[id], e.maxTime)
  }

  lemma PassPunctual(e: Engine, time: nat, ans: Oracle)
    requires time > e.maxTime
    ensures Punctual(Pass(e, time, ans).0)
  {
    var e1, e2 := ProcessAll(e, e.cmds.Keys, time, ans), Pass(e, time, ans).0;
    forall id | id in e2.cmds ensures PunctualAt(e2.cmds[id], time) {
      TurnInPass(e, e.cmds.Keys, time, ans, id);
      var triggered, completed := TurnExact(AtTurn(e, e.cmds.Keys, time, ans, id), id, time, ans);
    }
  }

  lemma StepPunctual(w: World, a: Action)
    requires Inv(w) && Punctual(w.e) && Legal(w, a)
    ensures Punctual(Step(w, a).e)
  {
    match a
    case ReadAction(rs) =>
      ReadLoads(w, rs);
      LoadedPunctual(w.e, ReadAll(w.e, rs));
    case RestartAction(rs) =>
      RestartLoads(w, rs);
      LoadedPunctual(w.e, Restarted(w.e, rs));
    case PassAction(time, ans) =>
      if time > w.e.maxTime {
        PassPunctual(w.e, time, ans);
      }
    case JoinAction(role, time) =>
    case PollAction(role) => DeliverCounts(w.e, role, w.last[role], w.e.cmds.Keys);
  }

  lemma LoadedPunctual(e: Engine, e': Engine)
    requires Punctual(e) && AllLoaded(e, e')
    ensures Punctual(e')
  {
    if e'.maxTime > 0 {
      forall id | id in e'.cmds ensures PunctualAt(e'.cmds[id], e'.maxTime) {
        assert LoadedAt(e, e', id);
        assert id in e.cmds ==> PunctualAt(e.cmds[id], e.maxTime);
      }
    }
  }

  lemma {:induction false} RunPunctual(w: World, actions: seq<Action>, end: World)
    requires Inv(w) && Punctual(w.e) && Run(w, actions, end)
    ensures Punctual(end.e)
    decreases |actions|
  {
    if actions != [] {
      StepPunctual(w, actions[0]);
      StepKeeps(w, actions[0]);
      RunPunctual(Step(w, actions[0]), actions[1..], end);
    }
  }

  /** Main result over runs: no command is overdue. Once a pass has taken place since the last start,
      every pending command is to start at the time of that pass or later, and every running one is
      to end then or later. */
  lemma NothingOverdue(rows: map<Id, Row>, maxHandled: Id, actions: seq<Action>, w: World, id: Id)
    requires GmRuns.Run(Fresh(rows, maxHandled), actions, w) && w.e.maxTime > 0 && id in w.e.cmds
    ensures w.e.cmds[id].status == Pending ==> w.e.cmds[id].start >= w.e.maxTime
    ensures w.e.cmds[id].status == Running ==> w.e.cmds[id].end >= w.e.maxTime
  {
    RunPunctual(Fresh(rows, maxHandled), actions, w);
    assert PunctualAt(w.e.cmds[id], w.e.maxTime);
  }
}
