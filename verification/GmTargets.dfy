/** What the commands that cancel others can be up to in a run of the GM command engine. */
module GmTargets {

  import opened KeyOrder
  import opened GmStore
  import opened GmRuns

  // ---------------------------------------------------------------- no command cancels itself

  /** A cancel command whose Trigger is next. */
  predicate Armed(c: Cmd) {
    c.kind.CancelCommand? && c.status.Pending?
  }

  ghost predicate NoSelf(e: Engine) {
    forall id :: id in e.cmds && Armed(e.cmds[id]) ==> e.cmds[id].target != id
  }

  lemma PutNoSelf(e: Engine, id: Id, c: Cmd)
    requires NoSelf(e) && (Armed(c) ==> c.target != id)
    ensures NoSelf(Put(e, id, c))
  {
  }

  lemma ValidateNoSelf(e: Engine, id: Id, ans: Oracle)
    requires NoSelf(e) && id in e.cmds
    ensures NoSelf(ValidatePhase(e, id, ans).0)
  {
    if e.cmds[id].status.New? {
      var c := Validated(e, id, ans);
      ValidatedTarget(e, id, ans);
      PutNoSelf(Log(e, Called(Validate, id)), id, c);
    }
  }

  /** Validate refuses a cancel command that targets itself. */
  lemma ValidatedTarget(e: Engine, id: Id, ans: Oracle)
    requires id in e.cmds && e.cmds[id].status.New?
    ensures var c := ValidatePhase(e, id, ans).0.cmds[id]; Armed(c) ==> c.target != id
  {
  }

  /** Cancelling changes no target and arms nothing. */
  lemma CancelNoSelf(e: Engine, id: Id, ans: Oracle)
    requires NoSelf(e)
    ensures var e' := CancelById(e, id, ans).0;
            NoSelf(e') && forall j :: j in e.cmds && j != id ==> e'.cmds[j] == e.cmds[j]
  {
  }

  lemma TriggerNoSelf(e: Engine, id: Id, time: nat, ans: Oracle)
    requires NoSelf(e) && id in e.cmds
    ensures NoSelf(TriggerPhase(e, id, time, ans).0)
  {
    var c := e.cmds[id];
    if c.status.Pending? && (c.start == 0 || c.start < time) {
      var e1 := Log(Put(e, id, c.(start := time, dirty := true)), Called(Trigger, id));
      CancelNoSelf(e1, c.target, ans);
    }
  }

  lemma FinishNoSelf(e: Engine, id: Id, time: nat, ans: Oracle)
    requires NoSelf(e) && id in e.cmds
    ensures NoSelf(FinishPhase(e, id, time, ans))
  {
  }

  lemma ProcessOneNoSelf(e: Engine, id: Id, time: nat, ans: Oracle)
    requires NoSelf(e) && id in e.cmds
    ensures NoSelf(AtTrigger(e, id, time, ans)) && NoSelf(ProcessOne(e, id, time, ans))
  {
    var e0 := Put(e, id, FixTimes(e.cmds[id], time));
    PutNoSelf(e, id, FixTimes(e.cmds[id], time));
    ValidateNoSelf(e0, id, ans);
    var (e1, go1) := ValidatePhase(e0, id, ans);
    if go1 {
      TriggerNoSelf(e1, id, time, ans);
      var (e2, go2) := TriggerPhase(e1, id, time, ans);
      if go2 {
        FinishNoSelf(e2, id, time, ans);
      }
    }
  }

  /** The state in which the pass comes to the second phase of a command. */
  function AtTrigger(e: Engine, id: Id, time: nat, ans: Oracle): (r: Engine)
    requires id in e.cmds
    ensures r.cmds.Keys == e.cmds.Keys
  {
    ValidatePhase(Put(e, id, FixTimes(e.cmds[id], time)), id, ans).0
  }

  /** The state in which the loop over todo comes to a command. */
  function AtTurn(e: Engine, todo: set<Id>, time: nat, ans: Oracle, id: Id): (r: Engine)
    requires id in todo && todo <= e.cmds.Keys
    ensures r.cmds.Keys == e.cmds.Keys
    decreases todo
  {
    var first := Least(todo);
    if id == first then e else AtTurn(ProcessOne(e, first, time, ans), todo - {first}, time, ans, id)
  }

  lemma {:induction false} AtTurnNoSelf(e: Engine, todo: set<Id>, time: nat, ans: Oracle, id: Id)
    requires NoSelf(e) && todo <= e.cmds.Keys && id in todo
    ensures NoSelf(AtTurn(e, todo, time, ans, id))
    decreases todo
  {
    var first := Least(todo);
    if id != first {
      ProcessOneNoSelf(e, first, time, ans);
      AtTurnNoSelf(ProcessOne(e, first, time, ans), todo - {first}, time, ans, id);
    }
  }

  lemma {:induction false} ProcessAllNoSelf(e: Engine, todo: set<Id>, time: nat, ans: Oracle)
    requires NoSelf(e) && todo <= e.cmds.Keys
    ensures NoSelf(ProcessAll(e, todo, time, ans))
    decreases todo
  {
    if todo != {} {
      var id := Least(todo);
      ProcessOneNoSelf(e, id, time, ans);
      ProcessAllNoSelf(ProcessOne(e, id, time, ans), todo - {id}, time, ans);
    }
  }

  /** What is read does not arm a command against itself. For new rows that is so by itself; the
      field of a pending command that a restart resumes may hold anything. */
  ghost predicate ReadNoSelf(rs: seq<Read>) {
    forall i :: 0 <= i < |rs| && Armed(rs[i].cmd) ==> rs[i].cmd.target != rs[i].id
  }

  ghost predicate ResumesNoSelf(actions: seq<Action>) {
    forall i :: 0 <= i < |actions| && actions[i].RestartAction? ==> ReadNoSelf(actions[i].rs)
  }

  lemma {:induction false} ReadAllNoSelf(e: Engine, rs: seq<Read>)
    requires NoSelf(e) && ReadNoSelf(rs)
    ensures NoSelf(ReadAll(e, rs))
    decreases |rs|
  {
    if rs != [] {
      PutNoSelf(e, rs[0].id, rs[0].cmd.(dirty := true));
      ReadAllNoSelf(ReadOne(e, rs[0]), rs[1..]);
    }
  }

  lemma {:induction false} DeliverNoSelf(e: Engine, role: Role, last: nat, todo: set<Id>)
    ensures DeliverAll(e, role, last, todo).cmds == e.cmds
    decreases todo
  {
    if todo != {} {
      var id := Least(todo);
      DeliverNoSelf(if Due(e, id, last) then Log(e, Delivered(role, id)) else e, role, last, todo - {id});
    }
  }

  lemma StepNoSelf(w: World, a: Action)
    requires NoSelf(w.e) && Legal(w, a) && (a.RestartAction? ==> ReadNoSelf(a.rs))
    ensures NoSelf(Step(w, a).e)
  {
    match a
    case ReadAction(rs) => ReadAllNoSelf(w.e, rs);
    case RestartAction(rs) => ReadAllNoSelf(Engine(map[], w.e.rows, 0, 0, w.e.log), rs);
    case PassAction(time, ans) => ProcessAllNoSelf(w.e, w.e.cmds.Keys, time, ans);
    case JoinAction(role, time) =>
    case PollAction(role) => DeliverNoSelf(w.e, role, w.last[role], w.e.cmds.Keys);
  }

  lemma {:induction false} RunNoSelf(w: World, actions: seq<Action>, end: World)
    requires NoSelf(w.e) && ResumesNoSelf(actions) && Run(w, actions, end)
    ensures NoSelf(end.e)
    decreases |actions|
  {
    if actions != [] {
      StepNoSelf(w, actions[0]);
      RunNoSelf(Step(w, actions[0]), actions[1..], end);
    }
  }

  /** Main result: in every pass of every run, a cancel command whose Trigger is about to be called
      targets another command, and the call leaves the command itself alone; so the status that the
      pass sets next overwrites nothing. This needs only that no restart has put its own id into
      the field of a pending one. */
  lemma NeverTargetsItself(rows: map<Id, Row>, maxHandled: Id, actions: seq<Action>, w: World, id: Id,
                           time: nat, ans: Oracle)
    requires Run(Fresh(rows, maxHandled), actions, w) && ResumesNoSelf(actions) && id in w.e.cmds
    ensures var e := AtTrigger(AtTurn(w.e, w.e.cmds.Keys, time, ans, id), id, time, ans);
            Armed(e.cmds[id]) ==>
              var c := e.cmds[id].(start := time, dirty := true);
              c.target != id && CallTrigger(Put(e, id, c), id, ans).0.cmds[id] == c
  {
    RunNoSelf(Fresh(rows, maxHandled), actions, w);
    var e1 := AtTurn(w.e, w.e.cmds.Keys, time, ans, id);
    AtTurnNoSelf(w.e, w.e.cmds.Keys, time, ans, id);
    ProcessOneNoSelf(e1, id, time, ans);
    var e := AtTrigger(e1, id, time, ans);
    if Armed(e.cmds[id]) {
      TriggersAnother(e, id, e.cmds[id].(start := time, dirty := true), ans);
    }
  }

  lemma TriggersAnother(e: Engine, id: Id, c: Cmd, ans: Oracle)
    requires NoSelf(Put(e, id, c)) && Armed(c)
    ensures c.target != id && CallTrigger(Put(e, id, c), id, ans).0.cmds[id] == c
  {
    CancelNoSelf(Log(Put(e, id, c), Called(Trigger, id)), c.target, ans);
  }

  // ---------------------------------------------------------------- the login server

  /** CheckTargetType of the login server. */
  predicate CheckTargetType(t: TargetType) {
    t.Passport?
  }

  ghost predicate LoginRead(rs: seq<Read>) {
    forall i :: 0 <= i < |rs| ==> rs[i].accepted == CheckTargetType(rs[i].cmd.targetType)
  }

  ghost predicate LoginRun(actions: seq<Action>) {
    forall i :: 0 <= i < |actions| && (actions[i].ReadAction? || actions[i].RestartAction?) ==>
                  LoginRead(actions[i].rs)
  }

  /** A cancel command is waiting for Validate, or has failed there. */
  predicate LoginAt(c: Cmd) {
    c.targetType.Passport? && (c.kind.CancelCommand? ==> c.status.New? || c.status.Error?)
  }

  ghost predicate LoginAll(e: Engine) {
    forall id :: id in e.cmds ==> LoginAt(e.cmds[id])
  }

  /** From e to e', the processing of id has kept the login server's form and every other command. */
  ghost predicate Kept(e: Engine, e': Engine, id: Id) {
    && e'.cmds.Keys == e.cmds.Keys && id in e.cmds
    && e'.cmds[id].kind == e.cmds[id].kind && e'.cmds[id].targetType == e.cmds[id].targetType
    && (forall j :: j in e.cmds && j != id ==> e'.cmds[j] == e.cmds[j])
    && (forall j :: j != id ==> TallyOf(e'.log, j) == TallyOf(e.log, j))
  }

  lemma LogKept(e: Engine, id: Id, ev: Event)
    requires id in e.cmds && !ev.Delivered? && ev.id == id
    ensures Kept(e, Log(e, ev), id)
    ensures ev == Called(Validate, id) ==> TallyOf(Log(e, ev).log, id) == TallyOf(e.log, id)
  {
    forall j | j != id || ev == Called(Validate, id) ensures TallyOf(Log(e, ev).log, j) == TallyOf(e.log, j) {
      TallyAppend(e.log, ev, j);
    }
  }

  lemma PutKept(e: Engine, id: Id, c: Cmd)
    requires id in e.cmds && c.kind == e.cmds[id].kind && c.targetType == e.cmds[id].targetType
    ensures Kept(e, Put(e, id, c), id)
  {
  }

  lemma KeptOn(e: Engine, e1: Engine, e2: Engine, id: Id)
    requires Kept(e, e1, id) && Kept(e1, e2, id)
    ensures Kept(e, e2, id)
  {
  }

  lemma ValidateKept(e: Engine, id: Id, ans: Oracle)
    requires id in e.cmds
    ensures Kept(e, ValidatePhase(e, id, ans).0, id)
    ensures TallyOf(ValidatePhase(e, id, ans).0.log, id) == TallyOf(e.log, id)
  {
    if e.cmds[id].status.New? {
      var c := Validated(e, id, ans);
      LogKept(e, id, Called(Validate, id));
      PutKept(Log(e, Called(Validate, id)), id, c);
    }
  }

  lemma TriggerKept(e: Engine, id: Id, time: nat, ans: Oracle)
    requires id in e.cmds && e.cmds[id].kind.Other?
    ensures Kept(e, TriggerPhase(e, id, time, ans).0, id)
  {
    var c := e.cmds[id];
    if c.status.Pending? && (c.start == 0 || c.start < time) {
      var e0 := Put(e, id, c.(start := time, dirty := true));
      LogKept(e0, id, Called(Trigger, id));
      LogKept(Log(e0, Called(Trigger, id)), id, Succeeded(Trigger, id));
    }
  }

  lemma FinishKept(e: Engine, id: Id, time: nat, ans: Oracle)
    requires id in e.cmds
    ensures Kept(e, FinishPhase(e, id, time, ans), id)
  {
    LogKept(e, id, Called(Finish, id));
    LogKept(Log(e, Called(Finish, id)), id, Succeeded(Finish, id));
  }

  lemma OtherKept(e: Engine, id: Id, time: nat, ans: Oracle)
    requires id in e.cmds && e.cmds[id].kind.Other?
    ensures Kept(e, ProcessOne(e, id, time, ans), id)
  {
    var e0 := Put(e, id, FixTimes(e.cmds[id], time));
    PutKept(e, id, FixTimes(e.cmds[id], time));
    ValidateKept(e0, id, ans);
    var (e1, go1) := ValidatePhase(e0, id, ans);
    KeptOn(e, e0, e1, id);
    if go1 {
      TriggerKept(e1, id, time, ans);
      var (e2, go2) := TriggerPhase(e1, id, time, ans);
      KeptOn(e, e1, e2, id);
      if go2 {
        FinishKept(e2, id, time, ans);
        KeptOn(e, e2, FinishPhase(e2, id, time, ans), id);
      }
    }
  }

  /** The command is at its end, and no call but that of Validate has been made for it. */
  ghost predicate RefusedBy(e: Engine, e': Engine, id: Id) {
    id in e'.cmds && e'.cmds[id].status.Error? && TallyOf(e'.log, id) == TallyOf(e.log, id)
  }

  /** Validate refuses a cancel command here, and the rest of the pass leaves it alone. */
  lemma RefusedHere(e: Engine, id: Id, time: nat, ans: Oracle)
    requires LoginAll(e) && id in e.cmds && e.cmds[id].kind.CancelCommand?
    ensures var e' := ProcessOne(e, id, time, ans);
            Kept(e, e', id) && RefusedBy(e, e', id)
  {
    assert LoginAt(e.cmds[id]);
    var e0 := Put(e, id, FixTimes(e.cmds[id], time));
    PutKept(e, id, FixTimes(e.cmds[id], time));
    ValidateKept(e0, id, ans);
    Refuses(e0, id, time, ans);
    KeptOn(e, e0, ValidatePhase(e0, id, ans).0, id);
  }

  lemma Refuses(e: Engine, id: Id, time: nat, ans: Oracle)
    requires id in e.cmds && e.cmds[id].kind.CancelCommand? && LoginAt(e.cmds[id])
    ensures var (e1, go) := ValidatePhase(e, id, ans);
            && e1.cmds[id].status.Error?
            && TriggerPhase(e1, id, time, ans) == (e1, true) && FinishPhase(e1, id, time, ans) == e1
  {
  }

  lemma ProcessOneLogin(e: Engine, id: Id, time: nat, ans: Oracle)
    requires LoginAll(e) && id in e.cmds
    ensures Kept(e, ProcessOne(e, id, time, ans), id) && LoginAll(ProcessOne(e, id, time, ans))
    ensures e.cmds[id].kind.CancelCommand? ==> RefusedBy(e, ProcessOne(e, id, time, ans), id)
  {
    if e.cmds[id].kind.CancelCommand? {
      RefusedHere(e, id, time, ans);
    } else {
      OtherKept(e, id, time, ans);
    }
    var e' := ProcessOne(e, id, time, ans);
    forall j | j in e'.cmds ensures LoginAt(e'.cmds[j]) {
      assert LoginAt(e.cmds[j]);
    }
  }

  lemma {:induction false} ProcessAllLogin(e: Engine, todo: set<Id>, time: nat, ans: Oracle, id: Id)
    requires LoginAll(e) && todo <= e.cmds.Keys && id in e.cmds
    ensures LoginAll(ProcessAll(e, todo, time, ans))
    ensures id in todo && e.cmds[id].kind.CancelCommand? ==> RefusedBy(e, ProcessAll(e, todo, time, ans), id)
    ensures id !in todo ==>
              var e' := ProcessAll(e, todo, time, ans);
              e'.cmds[id] == e.cmds[id] && TallyOf(e'.log, id) == TallyOf(e.log, id)
    decreases todo
  {
    if todo != {} {
      var first := Least(todo);
      ProcessOneLogin(e, first, time, ans);
      ProcessAllLogin(ProcessOne(e, first, time, ans), todo - {first}, time, ans, id);
    }
  }

  /** The rows that are taken in are for passports, and what comes with a restart is known already or
      new. */
  lemma LoadLogin(e: Engine, e': Engine)
    requires LoginAll(e) && AllLoaded(e, e')
    requires forall id :: id in e'.cmds && id !in e.cmds ==> e'.cmds[id].targetType.Passport?
    ensures LoginAll(e')
  {
    forall id | id in e'.cmds ensures LoginAt(e'.cmds[id]) {
      assert LoadedAt(e, e', id);
      assert id in e.cmds ==> LoginAt(e.cmds[id]);
    }
  }

  lemma {:induction false} ReadAllLogin(e: Engine, rs: seq<Read>)
    requires LoginRead(rs)
    ensures forall id :: id in ReadAll(e, rs).cmds && id !in e.cmds ==> ReadAll(e, rs).cmds[id].targetType.Passport?
    ensures forall id :: id in e.cmds ==> id in ReadAll(e, rs).cmds && ReadAll(e, rs).cmds[id] == e.cmds[id]
    decreases |rs|
  {
    if rs != [] {
      ReadAllLogin(ReadOne(e, rs[0]), rs[1..]);
    }
  }

  lemma StepLogin(w: World, a: Action)
    requires GmRuns.Inv(w) && LoginAll(w.e) && Legal(w, a)
    requires a.ReadAction? || a.RestartAction? ==> LoginRead(a.rs)
    ensures LoginAll(Step(w, a).e)
  {
    match a
    case ReadAction(rs) =>
      ReadLoads(w, rs);
      ReadAllLogin(w.e, rs);
      LoadLogin(w.e, ReadAll(w.e, rs));
    case RestartAction(rs) =>
      RestartLoads(w, rs);
      ReadAllLogin(Engine(map[], w.e.rows, 0, 0, w.e.log), rs);
      LoadLogin(w.e, Restarted(w.e, rs));
    case PassAction(time, ans) =>
      if w.e.cmds.Keys != {} {
        ProcessAllLogin(w.e, w.e.cmds.Keys, time, ans, Least(w.e.cmds.Keys));
      }
    case JoinAction(role, time) =>
    case PollAction(role) => DeliverNoSelf(w.e, role, w.last[role], w.e.cmds.Keys);
  }

  lemma {:induction false} RunLogin(w: World, actions: seq<Action>, end: World)
    requires GmRuns.Inv(w) && LoginAll(w.e) && LoginRun(actions) && Run(w, actions, end)
    ensures LoginAll(end.e)
    decreases |actions|
  {
    if actions != [] {
      StepLogin(w, actions[0]);
      StepKeeps(w, actions[0]);
      RunLogin(Step(w, actions[0]), actions[1..], end);
    }
  }

  /** Main result: the login server never cancels anything. A cancel command in the map waits for
      Validate, and whatever has been read, the next pass ends it in Error, in its row and without
      a call of its Trigger. */
  lemma LoginNeverCancels(rows: map<Id, Row>, maxHandled: Id, actions: seq<Action>, w: World, id: Id,
                          time: nat, ans: Oracle)
    requires Run(Fresh(rows, maxHandled), actions, w) && LoginRun(actions)
    requires id in w.e.cmds && w.e.cmds[id].kind.CancelCommand?
    requires Legal(w, PassAction(time, ans)) && time > w.e.maxTime
    ensures w.e.cmds[id].status.New?
    ensures TallyOf(ProcessAll(w.e, w.e.cmds.Keys, time, ans).log, id) == UNTOUCHED
    ensures var e := Step(w, PassAction(time, ans)).e;
            id !in e.cmds && id in e.rows && e.rows[id].status.Error?
  {
    LifeCycle(rows, maxHandled, actions, w, id);
    RunLogin(Fresh(rows, maxHandled), actions, w);
    assert LoginAt(w.e.cmds[id]);
    ProcessAllLogin(w.e, w.e.cmds.Keys, time, ans, id);
    RunKeeps(Fresh(rows, maxHandled), actions, w);
    PassSettles(w, time, ans, id);
  }
}
