/** Whole runs of the GM command engine: the life of every command, and once-only delivery to roles. */
module GmRuns {
  import opened KeyOrder
  import opened GmStore

  // ---------------------------------------------------------------- counting in the log

  function Count(log: seq<Event>, ev: Event): nat {
    if log == [] then 0 else Count(log[..|log| - 1], ev) + if log[|log| - 1] == ev then 1 else 0
  }

  lemma CountAppend(log: seq<Event>, last: Event, ev: Event)
    ensures Count(log + [last], ev) == Count(log, ev) + if last == ev then 1 else 0
  {
    assert (log + [last])[..|log|] == log;
  }

  /** A successful completion is preceded by a successful trigger of the same command. */
  ghost predicate Ordered(log: seq<Event>) {
    forall j :: 0 <= j < |log| && log[j].Succeeded? && log[j].call.Finish? ==>
      exists i :: 0 <= i < j && log[i] == Succeeded(Trigger, log[j].id)
  }

  lemma {:induction false} CountedIsThere(log: seq<Event>, ev: Event)
    requires Count(log, ev) > 0
    ensures exists i :: 0 <= i < |log| && log[i] == ev
  {
    if log[|log| - 1] != ev {
      CountedIsThere(log[..|log| - 1], ev);
    }
  }

  /** Trigger calls, successful triggers, successful completions of one command. */
  datatype Tally = Tally(called: nat, triggered: nat, finished: nat)

  function TallyOf(log: seq<Event>, id: Id): Tally {
    Tally(Count(log, Called(Trigger, id)), Count(log, Succeeded(Trigger, id)), Count(log, Succeeded(Finish, id)))
  }

  const UNTOUCHED: Tally := Tally(0, 0, 0)
  const REFUSED: Tally := Tally(1, 0, 0)
  const RUNNING: Tally := Tally(1, 1, 0)
  const DONE: Tally := Tally(1, 1, 1)

  /** What the log says about a command of a given status. */
  ghost predicate Life(s: Status, t: Tally) {
    match s
    case New | Pending => t == UNTOUCHED
    case Running => t == RUNNING
    case Complete => t == DONE
    case Canceled => t == UNTOUCHED || t == DONE
    case Error => t == UNTOUCHED || t == REFUSED || t == RUNNING
    case Cancel => false
  }

  ghost predicate Ended(t: Tally) {
    t == UNTOUCHED || t == REFUSED || t == RUNNING || t == DONE
  }

  ghost predicate LifeAt(e: Engine, id: Id) {
    if id in e.cmds then id <= e.maxHandled && Life(e.cmds[id].status, TallyOf(e.log, id))
    else Ended(TallyOf(e.log, id)) && (TallyOf(e.log, id) == UNTOUCHED || EndedRow(e, id))
  }

  /** The row of a command that has come to its end. */
  ghost predicate EndedRow(e: Engine, id: Id) {
    id in e.rows && Terminal(e.rows[id].status)
  }

  /** The same for all commands but those that are in the middle of a call. */
  ghost predicate OthersLive(e: Engine, busy: set<Id>) {
    Ordered(e.log) && forall id {:trigger LifeAt(e, id)} :: id !in busy ==> LifeAt(e, id)
  }

  // ---------------------------------------------------------------- calls and tallies

  /** A tally after one more event. */
  function Advance(t: Tally, ev: Event, id: Id): Tally {
    match ev
    case Called(call, i) => if call == Trigger && i == id then t.(called := t.called + 1) else t
    case Succeeded(call, i) =>
      if i != id then t
      else if call == Trigger then t.(triggered := t.triggered + 1)
      else if call == Finish then t.(finished := t.finished + 1)
      else t
    case Delivered(_, _) => t
  }

  lemma TallyAppend(log: seq<Event>, ev: Event, id: Id)
    ensures TallyOf(log + [ev], id) == Advance(TallyOf(log, id), ev, id)
  {
    CountAppend(log, ev, Called(Trigger, id));
    CountAppend(log, ev, Succeeded(Trigger, id));
    CountAppend(log, ev, Succeeded(Finish, id));
  }

  lemma OrderedAppend(log: seq<Event>, ev: Event)
    requires Ordered(log)
    requires ev.Succeeded? && ev.call.Finish? ==> TallyOf(log, ev.id).triggered > 0
    ensures Ordered(log + [ev])
  {
    var log' := log + [ev];
    forall j | 0 <= j < |log'| && log'[j].Succeeded? && log'[j].call.Finish?
      ensures exists i :: 0 <= i < j && log'[i] == Succeeded(Trigger, log'[j].id)
    {
      if j < |log| {
        assert log[j] == log'[j];
        var i :| 0 <= i < j && log[i] == Succeeded(Trigger, log[j].id);
        assert log'[i] == log[i];
      } else {
        CountedIsThere(log, Succeeded(Trigger, ev.id));
        var i :| 0 <= i < |log| && log[i] == Succeeded(Trigger, ev.id);
        assert log'[i] == log[i];
      }
    }
  }

  lemma LogOthers(e: Engine, busy: set<Id>, x: Id, ev: Event)
    requires OthersLive(e, busy) && x in busy
    requires (ev.Called? || ev.Succeeded?) ==> ev.id == x
    requires ev.Succeeded? && ev.call.Finish? ==> TallyOf(e.log, x).triggered > 0
    ensures OthersLive(Log(e, ev), busy)
    ensures forall id :: TallyOf(Log(e, ev).log, id) == Advance(TallyOf(e.log, id), ev, id)
  {
    OrderedAppend(e.log, ev);
    forall id ensures TallyOf(Log(e, ev).log, id) == Advance(TallyOf(e.log, id), ev, id) {
      TallyAppend(e.log, ev, id);
    }
    forall id | id !in busy ensures LifeAt(Log(e, ev), id) {
      assert LifeAt(e, id);
    }
  }

  lemma PutOthers(e: Engine, busy: set<Id>, x: Id, c: Cmd)
    requires OthersLive(e, busy) && x in busy
    ensures OthersLive(Put(e, x, c), busy)
  {
    forall id | id !in busy ensures LifeAt(Put(e, x, c), id) {
      assert LifeAt(e, id);
    }
  }

  /** A command's call is over when its status fits its tally again. */
  lemma Rejoin(e: Engine, busy: set<Id>, x: Id)
    requires OthersLive(e, busy + {x}) && LifeAt(e, x)
    ensures OthersLive(e, busy)
  {
    forall id | id !in busy ensures LifeAt(e, id) {
      if id != x {
        assert id !in busy + {x};
      }
    }
  }

  /** Complete() on a running command. */
  lemma CompleteTally(e: Engine, busy: set<Id>, id: Id, ans: Oracle)
    requires OthersLive(e, busy) && id in busy && id in e.cmds && TallyOf(e.log, id) == RUNNING
    ensures var (e1, ok) := CallComplete(e, id, ans);
            && OthersLive(e1, busy) && e1.maxHandled == e.maxHandled && e1.maxTime == e.maxTime
            && TallyOf(e1.log, id) == (if ok then DONE else RUNNING)
            && forall j :: j != id ==> TallyOf(e1.log, j) == TallyOf(e.log, j)
  {
    LogOthers(e, busy, id, Called(Finish, id));
    var e1 := Log(e, Called(Finish, id));
    LogOthers(e1, busy, id, Succeeded(Finish, id));
  }

  /** Cancelling one command keeps all lives in order and touches nothing else. */
  lemma CancelKeeps(e: Engine, busy: set<Id>, id: Id, ans: Oracle)
    requires OthersLive(e, busy) && id !in busy && id in e.cmds
    ensures var (e1, ok) := CancelOne(e, id, ans);
            && OthersLive(e1, busy) && e1.maxHandled == e.maxHandled && e1.maxTime == e.maxTime
            && (forall j :: j in e.cmds && j != id ==> e1.cmds[j] == e.cmds[j])
            && (forall j :: j != id ==> TallyOf(e1.log, j) == TallyOf(e.log, j))
  {
    assert LifeAt(e, id);
    assert OthersLive(e, busy + {id});
    var canceled := e.cmds[id].(status := Canceled, dirty := true);
    match e.cmds[id].status
    case New | Pending =>
      PutOthers(e, busy + {id}, id, canceled);
      Rejoin(SetStatus(e, id, Canceled), busy, id);
    case Running =>
      CompleteTally(e, busy + {id}, id, ans);
      var (e1, ok) := CallComplete(e, id, ans);
      if ok {
        PutOthers(e1, busy + {id}, id, canceled);
        Rejoin(SetStatus(e1, id, Canceled), busy, id);
      } else {
        Rejoin(e1, busy, id);
      }
    case _ =>
  }

  // ---------------------------------------------------------------- the phases

  /** Where a command is when a phase starts. */
  ghost predicate Ready(e: Engine, id: Id) {
    OthersLive(e, {}) && id in e.cmds
  }

  lemma Finished(e: Engine, id: Id, s: Status)
    requires OthersLive(e, {id}) && id in e.cmds && id <= e.maxHandled && Life(s, TallyOf(e.log, id))
    ensures OthersLive(SetStatus(e, id, s), {})
  {
    PutOthers(e, {id}, id, e.cmds[id].(status := s, dirty := true));
    assert {} + {id} == {id};
    Rejoin(SetStatus(e, id, s), {}, id);
  }

  lemma FixTimesKeeps(e: Engine, id: Id, time: nat)
    requires Ready(e, id)
    ensures Ready(Put(e, id, FixTimes(e.cmds[id], time)), id)
  {
    var e1 := Put(e, id, FixTimes(e.cmds[id], time));
    forall j ensures LifeAt(e1, j) {
      assert LifeAt(e, j);
    }
  }

  lemma ValidatePhaseKeeps(e: Engine, id: Id, ans: Oracle)
    requires Ready(e, id)
    ensures var e1 := ValidatePhase(e, id, ans).0;
            && Ready(e1, id) && e1.maxHandled == e.maxHandled && e1.maxTime == e.maxTime
            && (forall j :: j in e.cmds && j != id ==> e1.cmds[j] == e.cmds[j])
            && e1.cmds[id].start == e.cmds[id].start
            && (e.cmds[id].status != New ==> e1 == e)
            && (e.cmds[id].status == New ==> e1.cmds[id].status == Pending || e1.cmds[id].status == Error)
  {
    if e.cmds[id].status.New? {
      assert LifeAt(e, id);
      LogOthers(e, {id}, id, Called(Validate, id));
      var (e1, ok) := CallValidate(e, id, ans);
      forall j | j !in {id} ensures LifeAt(e1, j) {
        assert LifeAt(Log(e, Called(Validate, id)), j);
      }
      Finished(e1, id, if ok then Pending else Error);
    }
  }

  lemma TriggerPhaseKeeps(e: Engine, id: Id, time: nat, ans: Oracle)
    requires Ready(e, id)
    ensures var e1 := TriggerPhase(e, id, time, ans).0;
            Ready(e1, id) && e1.maxHandled == e.maxHandled && e1.maxTime == e.maxTime
  {
    var c := e.cmds[id];
    if c.status.Pending? && (c.start == 0 || c.start < time) {
      assert LifeAt(e, id);
      var e0 := Put(e, id, c.(start := time, dirty := true));
      PutOthers(e, {id}, id, c.(start := time, dirty := true));
      CallTriggerKeeps(e0, id, ans);
      var (e3, ok) := CallTrigger(e0, id, ans);
      Finished(e3, id, if ok then Running else Error);
    }
  }

  lemma CallTriggerKeeps(e: Engine, id: Id, ans: Oracle)
    requires OthersLive(e, {id}) && id in e.cmds && e.cmds[id].status.Pending? && TallyOf(e.log, id) == UNTOUCHED
    ensures var (e1, ok) := CallTrigger(e, id, ans);
            && OthersLive(e1, {id}) && e1.maxHandled == e.maxHandled && e1.maxTime == e.maxTime
            && TallyOf(e1.log, id) == if ok then RUNNING else REFUSED
  {
    LogOthers(e, {id}, id, Called(Trigger, id));
    var e1 := Log(e, Called(Trigger, id));
    if e.cmds[id].kind.CancelCommand? {
      CancelTargetKeeps(e1, id, e.cmds[id].target, ans);
      LogOthers(CancelById(e1, e.cmds[id].target, ans).0, {id}, id, Succeeded(Trigger, id));
    } else {
      LogOthers(e1, {id}, id, Succeeded(Trigger, id));
    }
  }

  /** The target may be any command, this one included. */
  lemma CancelTargetKeeps(e: Engine, id: Id, target: Id, ans: Oracle)
    requires OthersLive(e, {id}) && id in e.cmds && e.cmds[id].status.Pending?
    ensures var e1 := CancelById(e, target, ans).0;
            && OthersLive(e1, {id}) && e1.maxHandled == e.maxHandled && e1.maxTime == e.maxTime
            && TallyOf(e1.log, id) == TallyOf(e.log, id)
  {
    if target in e.cmds {
      if target != id {
        CancelKeeps(e, {id}, target, ans);
      } else {
        PutOthers(e, {id}, id, e.cmds[id].(status := Canceled, dirty := true));
      }
    }
  }

  lemma FinishPhaseKeeps(e: Engine, id: Id, time: nat, ans: Oracle)
    requires Ready(e, id)
    ensures var e1 := FinishPhase(e, id, time, ans);
            Ready(e1, id) && e1.maxHandled == e.maxHandled && e1.maxTime == e.maxTime
  {
    var c := e.cmds[id];
    if c.status.Running? && (c.end == 0 || c.end < time) {
      assert LifeAt(e, id);
      CompleteTally(e, {id}, id, ans);
      var (e1, ok) := CallComplete(e, id, ans);
      Finished(e1, id, if ok then Complete else Error);
    }
  }

  lemma ProcessOneKeeps(e: Engine, id: Id, time: nat, ans: Oracle)
    requires Ready(e, id)
    ensures var e1 := ProcessOne(e, id, time, ans);
            OthersLive(e1, {}) && e1.maxHandled == e.maxHandled && e1.maxTime == e.maxTime
  {
    FixTimesKeeps(e, id, time);
    var e0 := Put(e, id, FixTimes(e.cmds[id], time));
    ValidatePhaseKeeps(e0, id, ans);
    var e1 := ValidatePhase(e0, id, ans).0;
    TriggerPhaseKeeps(e1, id, time, ans);
    FinishPhaseKeeps(TriggerPhase(e1, id, time, ans).0, id, time, ans);
  }

  // ---------------------------------------------------------------- how a pass changes a command

  ghost predicate Waiting(s: Status) {
    s == New || s == Pending
  }

  /** From c to c' within the pass at the given time: nothing goes back, ended is ended, a command
      that has started running has the time of the pass as its start time, and every change of
      what the database row holds is marked dirty. */
  ghost predicate Evolved(c: Cmd, c': Cmd, time: nat) {
    && (c'.status.Running? ==> if c.status.Running? then c'.start == c.start else Waiting(c.status) && c'.start == time)
    && (Waiting(c'.status) ==> Waiting(c.status))
    && (Terminal(c.status) ==> c'.status == c.status)
    && (c'.dirty || (!c.dirty && RowFor(c') == RowFor(c)))
  }

  ghost predicate AllEvolved(e: Engine, e': Engine, time: nat) {
    && e'.cmds.Keys == e.cmds.Keys && e'.rows == e.rows
    && (forall j :: j in e.cmds ==> Evolved(e.cmds[j], e'.cmds[j], time))
    && (forall role, j :: Count(e'.log, Delivered(role, j)) == Count(e.log, Delivered(role, j)))
  }

  /** Every running command has a start time that is past. */
  ghost predicate Started(e: Engine, time: nat) {
    forall j :: j in e.cmds && e.cmds[j].status.Running? ==> 0 < e.cmds[j].start <= time
  }

  lemma EvolvedTransitive(e: Engine, e1: Engine, e2: Engine, time: nat)
    requires AllEvolved(e, e1, time) && AllEvolved(e1, e2, time)
    ensures AllEvolved(e, e2, time)
  {
    forall j | j in e.cmds ensures Evolved(e.cmds[j], e2.cmds[j], time) {
      assert Evolved(e.cmds[j], e1.cmds[j], time) && Evolved(e1.cmds[j], e2.cmds[j], time);
    }
  }

  lemma StartedStays(e: Engine, e1: Engine, time: nat)
    requires AllEvolved(e, e1, time) && Started(e, time) && time > 0
    ensures Started(e1, time)
  {
    forall j | j in e1.cmds && e1.cmds[j].status.Running? ensures 0 < e1.cmds[j].start <= time {
      assert Evolved(e.cmds[j], e1.cmds[j], time);
    }
  }

  lemma LogEvolves(e: Engine, ev: Event, time: nat)
    requires !ev.Delivered?
    ensures AllEvolved(e, Log(e, ev), time)
  {
    forall role, j ensures Count(Log(e, ev).log, Delivered(role, j)) == Count(e.log, Delivered(role, j)) {
      CountAppend(e.log, ev, Delivered(role, j));
    }
  }

  lemma PutEvolves(e: Engine, id: Id, c: Cmd, time: nat)
    requires id in e.cmds && Evolved(e.cmds[id], c, time)
    ensures AllEvolved(e, Put(e, id, c), time)
  {
  }

  lemma CallCompleteEvolves(e: Engine, id: Id, time: nat, ans: Oracle)
    requires id in e.cmds
    ensures AllEvolved(e, CallComplete(e, id, ans).0, time)
  {
    var e1 := Log(e, Called(Finish, id));
    LogEvolves(e, Called(Finish, id), time);
    LogEvolves(e1, Succeeded(Finish, id), time);
    EvolvedTransitive(e, e1, Log(e1, Succeeded(Finish, id)), time);
  }

  lemma CancelEvolves(e: Engine, id: Id, time: nat, ans: Oracle)
    ensures AllEvolved(e, CancelById(e, id, ans).0, time)
  {
    if id in e.cmds {
      var c := e.cmds[id].(status := Canceled, dirty := true);
      if Waiting(e.cmds[id].status) {
        PutEvolves(e, id, c, time);
      } else if e.cmds[id].status.Running? {
        CallCompleteEvolves(e, id, time, ans);
        var e1 := CallComplete(e, id, ans).0;
        PutEvolves(e1, id, c, time);
        EvolvedTransitive(e, e1, SetStatus(e1, id, Canceled), time);
      }
    }
  }

  lemma ValidateEvolves(e: Engine, id: Id, time: nat, ans: Oracle)
    requires id in e.cmds
    ensures AllEvolved(e, ValidatePhase(e, id, ans).0, time)
  {
    if e.cmds[id].status.New? {
      var e1 := Log(e, Called(Validate, id));
      LogEvolves(e, Called(Validate, id), time);
      var c := Validated(e, id, ans);
      PutEvolves(e1, id, c, time);
      EvolvedTransitive(e, e1, Put(e1, id, c), time);
    }
  }

  /** Validate changes its own command only. */
  lemma Validated(e: Engine, id: Id, ans: Oracle) returns (c: Cmd)
    requires id in e.cmds && e.cmds[id].status.New?
    ensures ValidatePhase(e, id, ans).0 == Put(Log(e, Called(Validate, id)), id, c)
    ensures c == e.cmds[id].(target := c.target, status := c.status, dirty := true)
    ensures c.status.Pending? || c.status.Error?
  {
    c := ValidatePhase(e, id, ans).0.cmds[id];
    assert Put(CallValidate(e, id, ans).0, id, c).cmds == Put(e, id, c).cmds;
  }

  /** Trigger may change the command itself only to Canceled, which is overwritten. */
  lemma CallTriggerEvolves(e: Engine, id: Id, time: nat, ans: Oracle)
    requires id in e.cmds
    ensures AllEvolved(e, CallTrigger(e, id, ans).0, time)
  {
    var e1 := Log(e, Called(Trigger, id));
    LogEvolves(e, Called(Trigger, id), time);
    var e2 := if e.cmds[id].kind.CancelCommand? then CancelById(e1, e.cmds[id].target, ans).0 else e1;
    if e.cmds[id].kind.CancelCommand? {
      CancelEvolves(e1, e.cmds[id].target, time, ans);
    }
    EvolvedTransitive(e, e1, e2, time);
    LogEvolves(e2, Succeeded(Trigger, id), time);
    EvolvedTransitive(e, e2, Log(e2, Succeeded(Trigger, id)), time);
  }

  lemma TriggerEvolves(e: Engine, id: Id, time: nat, ans: Oracle)
    requires id in e.cmds
    ensures AllEvolved(e, TriggerPhase(e, id, time, ans).0, time)
  {
    var c := e.cmds[id];
    if c.status.Pending? && (c.start == 0 || c.start < time) {
      var e0 := Put(e, id, c.(start := time, dirty := true));
      PutEvolves(e, id, c.(start := time, dirty := true), time);
      var (e3, ok) := CallTrigger(e0, id, ans);
      CallTriggerEvolves(e0, id, time, ans);
      EvolvedTransitive(e, e0, e3, time);
      TriggeredStart(e0, id, ans);
      PutOneEvolves(e, e3, id, e3.cmds[id].(status := if ok then Running else Error, dirty := true), time);
    }
  }

  /** What happened to the command itself on the way does not matter. */
  lemma PutOneEvolves(e: Engine, e1: Engine, id: Id, c: Cmd, time: nat)
    requires AllEvolved(e, e1, time) && id in e.cmds && Evolved(e.cmds[id], c, time)
    ensures AllEvolved(e, Put(e1, id, c), time)
  {
    forall j | j in e.cmds ensures Evolved(e.cmds[j], Put(e1, id, c).cmds[j], time) {
      if j != id {
        assert Evolved(e.cmds[j], e1.cmds[j], time);
      }
    }
  }

  lemma TriggeredStart(e: Engine, id: Id, ans: Oracle)
    requires id in e.cmds && e.cmds[id].status.Pending?
    ensures CallTrigger(e, id, ans).0.cmds[id].start == e.cmds[id].start
  {
  }

  lemma FinishEvolves(e: Engine, id: Id, time: nat, ans: Oracle)
    requires id in e.cmds
    ensures AllEvolved(e, FinishPhase(e, id, time, ans), time)
  {
    var c := e.cmds[id];
    if c.status.Running? && (c.end == 0 || c.end < time) {
      var (e1, ok) := CallComplete(e, id, ans);
      CallCompleteEvolves(e, id, time, ans);
      PutEvolves(e1, id, e1.cmds[id].(status := if ok then Complete else Error, dirty := true), time);
      EvolvedTransitive(e, e1, FinishPhase(e, id, time, ans), time);
    }
  }

  lemma ProcessOneEvolves(e: Engine, id: Id, time: nat, ans: Oracle)
    requires id in e.cmds && Started(e, time)
    ensures AllEvolved(e, ProcessOne(e, id, time, ans), time)
  {
    var e0 := Put(e, id, FixTimes(e.cmds[id], time));
    PutEvolves(e, id, FixTimes(e.cmds[id], time), time);
    var e1 := ValidatePhase(e0, id, ans).0;
    ValidateEvolves(e0, id, time, ans);
    EvolvedTransitive(e, e0, e1, time);
    var e2 := TriggerPhase(e1, id, time, ans).0;
    TriggerEvolves(e1, id, time, ans);
    EvolvedTransitive(e, e1, e2, time);
    FinishEvolves(e2, id, time, ans);
    EvolvedTransitive(e, e2, FinishPhase(e2, id, time, ans), time);
  }

  lemma {:induction false} ProcessAllKeeps(e: Engine, todo: set<Id>, time: nat, ans: Oracle)
    requires OthersLive(e, {}) && Started(e, time) && time > 0 && todo <= e.cmds.Keys
    ensures var e1 := ProcessAll(e, todo, time, ans);
            && OthersLive(e1, {}) && Started(e1, time) && AllEvolved(e, e1, time)
            && e1.maxHandled == e.maxHandled && e1.maxTime == e.maxTime
    decreases todo
  {
    if todo != {} {
      var id := Least(todo);
      var e1 := ProcessOne(e, id, time, ans);
      ProcessOneKeeps(e, id, time, ans);
      ProcessOneEvolves(e, id, time, ans);
      StartedStays(e, e1, time);
      ProcessAllKeeps(e1, todo - {id}, time, ans);
      EvolvedTransitive(e, e1, ProcessAll(e, todo, time, ans), time);
    } else {
      assert forall j :: j in e.cmds ==> Evolved(e.cmds[j], e.cmds[j], time);
    }
  }

  // ---------------------------------------------------------------- the engine with its roles

  /** joined is the time a role brought along at first, last the one it brings along next. clock is
      the time of the last pass, also of one before a restart. */
  datatype World = World(e: Engine, joined: map<Role, nat>, last: map<Role, nat>, clock: nat)

  datatype Action =
    | ReadAction(rs: seq<Read>)
    | PassAction(time: nat, ans: Oracle)
    | JoinAction(role: Role, time: nat)
    | PollAction(role: Role)
    | RestartAction(rs: seq<Read>)

  /** What is read are rows of the table, whose ids are unique. */
  ghost predicate FromTable(e: Engine, rs: seq<Read>) {
    && (forall i :: 0 <= i < |rs| && rs[i].id in e.rows ==> e.rows[rs[i].id] == RowFor(rs[i].cmd))
    && (forall i, j :: 0 <= i < j < |rs| ==> rs[i].id != rs[j].id)
  }

  /** The query of ReadNewGmCommand: new rows behind the last handled id. */
  ghost predicate Unseen(e: Engine, rs: seq<Read>) {
    FromTable(e, rs) && forall i :: 0 <= i < |rs| ==> rs[i].cmd.status.New? && rs[i].id > e.maxHandled
  }

  /** A command whose row has been read again: m_dwGmAutoId is not in the row, and may be anything. */
  ghost predicate SameRow(c: Cmd, c': Cmd) {
    c' == c.(target := c'.target, dirty := c'.dirty)
  }

  /** The query of InitGmCommand: all rows that are new, pending or running. The server is stopped
      between two passes, so the commands it had in its map are among them. */
  ghost predicate Unfinished(e: Engine, rs: seq<Read>) {
    && FromTable(e, rs)
    && (forall id :: id in e.cmds ==> exists i :: 0 <= i < |rs| && rs[i].id == id)
    && (forall i :: 0 <= i < |rs| ==> ResumedAt(e, rs[i]))
  }

  ghost predicate ResumedAt(e: Engine, r: Read) {
    if r.id in e.cmds then r.accepted && r.known && SameRow(e.cmds[r.id], r.cmd)
    else r.accepted && r.known ==> r.cmd.status.New?
  }

  /** The clock of the database does not go back, and a restart takes a second. */
  ghost predicate Legal(w: World, a: Action) {
    match a
    case ReadAction(rs) => Unseen(w.e, rs)
    case RestartAction(rs) => Unfinished(w.e, rs)
    case PassAction(time, _) => time > w.e.maxTime ==> time > w.clock
    case JoinAction(role, _) => role !in w.last
    case PollAction(role) => role in w.last
  }

  ghost function Passed(w: World, time: nat, ans: Oracle): World {
    w.(e := Pass(w.e, time, ans).0, clock := if time > w.e.maxTime then time else w.clock)
  }

  ghost function Step(w: World, a: Action): World
    requires Legal(w, a)
  {
    match a
    case ReadAction(rs) => w.(e := ReadAll(w.e, rs))
    case RestartAction(rs) => w.(e := Restarted(w.e, rs))
    case PassAction(time, ans) => Passed(w, time, ans)
    case JoinAction(role, time) => w.(joined := w.joined[role := time], last := w.last[role := time])
    case PollAction(role) =>
      var (e, t) := Poll(w.e, role, w.last[role]);
      w.(e := e, last := w.last[role := t])
  }

  /** How often a command has been handed to a role. */
  function Handed(e: Engine, role: Role, id: Id): nat {
    Count(e.log, Delivered(role, id))
  }

  /** A running command has been handed to exactly the roles that joined before it started and have
      polled since; a waiting or unknown one to nobody. */
  ghost predicate HandedAt(w: World, role: Role, id: Id) {
    var n := Handed(w.e, role, id);
    && (role !in w.last ==> n == 0)
    && (role in w.last && role in w.joined && id in w.e.cmds && w.e.cmds[id].status.Running? ==>
          n == if w.joined[role] < w.e.cmds[id].start <= w.last[role] then 1 else 0)
    && (id in w.e.cmds && Waiting(w.e.cmds[id].status) ==> n == 0)
    && (id !in w.e.cmds && !EndedRow(w.e, id) ==> n == 0)
    && n <= 1
  }

  ghost predicate RoleAt(w: World, role: Role)
    requires role in w.last && role in w.joined
  {
    w.joined[role] <= w.last[role] && (w.last[role] == w.joined[role] || w.last[role] <= w.clock)
  }

  ghost predicate Saved(e: Engine, id: Id)
    requires id in e.cmds
  {
    e.cmds[id].dirty || (id in e.rows && e.rows[id] == RowFor(e.cmds[id]))
  }

  ghost predicate Inv(w: World) {
    && OthersLive(w.e, {}) && Started(w.e, w.clock) && (w.e.maxTime == 0 || w.e.maxTime == w.clock)
    && (forall id :: id in w.e.cmds ==> !Terminal(w.e.cmds[id].status))
    && (forall id {:trigger Saved(w.e, id)} :: id in w.e.cmds ==> Saved(w.e, id))
    && w.joined.Keys == w.last.Keys
    && (forall role {:trigger RoleAt(w, role)} :: role in w.last ==> RoleAt(w, role))
    && (forall role, id :: HandedAt(w, role, id))
  }

  lemma SettleKeeps(e: Engine, time: nat)
    requires OthersLive(e, {}) && Started(e, time)
    requires forall id {:trigger Saved(e, id)} :: id in e.cmds ==> Saved(e, id)
    ensures OthersLive(Settle(e, time), {}) && Started(Settle(e, time), time)
  {
    var e1 := Settle(e, time);
    forall id ensures LifeAt(e1, id) {
      assert LifeAt(e, id);
      assert id in e.cmds ==> Saved(e, id);
    }
  }

  lemma PassHanded(w: World, e1: Engine, time: nat, role: Role, id: Id)
    requires HandedAt(w, role, id) && AllEvolved(w.e, e1, time) && time > w.clock
    requires w.joined.Keys == w.last.Keys && (role in w.last ==> RoleAt(w, role))
    requires id in w.e.cmds ==> Saved(w.e, id)
    ensures HandedAt(w.(e := Settle(e1, time), clock := time), role, id)
  {
    if id in w.e.cmds {
      assert Evolved(w.e.cmds[id], e1.cmds[id], time);
      PassSaved(w.e, e1, time, id);
    }
  }

  lemma PassKeeps(w: World, time: nat, ans: Oracle)
    requires Inv(w) && Legal(w, PassAction(time, ans))
    ensures Inv(Passed(w, time, ans))
  {
    if time > w.e.maxTime {
      var e1 := ProcessAll(w.e, w.e.cmds.Keys, time, ans);
      ProcessAllKeeps(w.e, w.e.cmds.Keys, time, ans);
      forall id | id in e1.cmds ensures Saved(e1, id) {
        assert Saved(w.e, id) && Evolved(w.e.cmds[id], e1.cmds[id], time);
      }
      SettleKeeps(e1, time);
      var w' := Passed(w, time, ans);
      forall role, id ensures HandedAt(w', role, id) {
        assert HandedAt(w, role, id);
        assert id in w.e.cmds ==> Saved(w.e, id);
        assert role in w.last ==> RoleAt(w, role);
        PassHanded(w, e1, time, role, id);
      }
      forall role | role in w.last ensures RoleAt(w', role) {
        assert RoleAt(w, role);
      }
      forall id | id in w'.e.cmds ensures Saved(w'.e, id) {
        PassSaved(w.e, e1, time, id);
      }
    }
  }

  lemma PassSaved(e: Engine, e1: Engine, time: nat, id: Id)
    requires id in e.cmds && Saved(e, id) && AllEvolved(e, e1, time)
    ensures id in Settle(e1, time).rows && Settle(e1, time).rows[id] == RowFor(e1.cmds[id])
    ensures id in Settle(e1, time).cmds ==> Saved(Settle(e1, time), id)
  {
    assert Evolved(e.cmds[id], e1.cmds[id], time);
  }

  // ---------------------------------------------------------------- reading, and starting again

  /** What the loop of ReadCommands makes of one of its rows. */
  ghost predicate TakenIn(e: Engine, e': Engine, r: Read) {
    && r.id <= e'.maxHandled
    && (r.accepted && r.known && r.id !in e.cmds ==> r.id in e'.cmds && e'.cmds[r.id] == r.cmd.(dirty := true))
    && (!(r.accepted && r.known) || r.id in e.cmds ==> SameCmd(e, e', r.id))
    && (if r.accepted && !r.known then r.id in e'.rows && e'.rows[r.id] == Row(Error, r.cmd.start, r.cmd.end)
        else SameRows(e, e', r.id))
  }

  ghost predicate SameCmd(e: Engine, e': Engine, id: Id) {
    (id in e'.cmds <==> id in e.cmds) && (id in e.cmds ==> e'.cmds[id] == e.cmds[id])
  }

  ghost predicate SameRows(e: Engine, e': Engine, id: Id) {
    (id in e'.rows <==> id in e.rows) && (id in e.rows ==> e'.rows[id] == e.rows[id])
  }

  lemma {:induction false} ReadAllAt(e: Engine, rs: seq<Read>, id: Id)
    requires forall i, j :: 0 <= i < j < |rs| ==> rs[i].id != rs[j].id
    ensures var e' := ReadAll(e, rs);
            && e'.log == e.log && e'.maxTime == e.maxTime && e'.maxHandled >= e.maxHandled
            && (forall i :: 0 <= i < |rs| && rs[i].id == id ==> TakenIn(e, e', rs[i]))
            && ((forall i :: 0 <= i < |rs| ==> rs[i].id != id) ==> SameCmd(e, e', id) && SameRows(e, e', id))
    decreases |rs|
  {
    if rs != [] {
      var e1, e' := ReadOne(e, rs[0]), ReadAll(e, rs);
      ReadAllAt(e1, rs[1..], id);
      forall i | 0 <= i < |rs| && rs[i].id == id ensures TakenIn(e, e', rs[i]) {
        if i > 0 {
          assert rs[1..][i - 1] == rs[i];
          assert TakenIn(e1, e', rs[i]) && SameCmd(e, e1, id) && SameRows(e, e1, id);
        } else {
          assert forall j :: 0 <= j < |rs[1..]| ==> rs[1..][j].id != id;
        }
      }
    }
  }

  /** What reading, or a restart, does to one command: those in the map stay what they were, and what
      is added is new. */
  ghost predicate LoadedAt(e: Engine, e': Engine, id: Id) {
    && (id in e.cmds ==> id in e'.cmds && SameRow(e.cmds[id], e'.cmds[id])
                         && (e'.cmds[id].dirty || !e.cmds[id].dirty))
    && (id in e'.cmds ==> id <= e'.maxHandled)
    && (id in e'.cmds && id !in e.cmds ==>
          e'.cmds[id].status.New? && e'.cmds[id].dirty && !EndedRow(e, id))
    && (SameRows(e, e', id) || (id !in e'.cmds && EndedRow(e', id)))
  }

  ghost predicate AllLoaded(e: Engine, e': Engine) {
    && e'.log == e.log && (e'.maxTime == e.maxTime || e'.maxTime == 0)
    && forall id {:trigger LoadedAt(e, e', id)} :: LoadedAt(e, e', id)
  }

  lemma ReadLoads(w: World, rs: seq<Read>)
    requires Inv(w) && Unseen(w.e, rs)
    ensures AllLoaded(w.e, ReadAll(w.e, rs))
  {
    ReadAllAt(w.e, rs, 0);
    forall id ensures LoadedAt(w.e, ReadAll(w.e, rs), id) {
      ReadAllAt(w.e, rs, id);
      assert LifeAt(w.e, id);
    }
  }

  lemma RestartLoads(w: World, rs: seq<Read>)
    requires Inv(w) && Unfinished(w.e, rs)
    ensures AllLoaded(w.e, Restarted(w.e, rs))
  {
    var e := Engine(map[], w.e.rows, 0, 0, w.e.log);
    ReadAllAt(e, rs, 0);
    forall id ensures LoadedAt(w.e, Restarted(w.e, rs), id) {
      ReadAllAt(e, rs, id);
      if i :| 0 <= i < |rs| && rs[i].id == id {
        assert ResumedAt(w.e, rs[i]);
      }
    }
  }

  lemma LoadedHanded(w: World, e': Engine, role: Role, id: Id)
    requires HandedAt(w, role, id) && LoadedAt(w.e, e', id) && e'.log == w.e.log
    ensures HandedAt(w.(e := e'), role, id)
  {
  }

  lemma LoadedLives(e: Engine, e': Engine, id: Id)
    requires LifeAt(e, id) && LoadedAt(e, e', id) && e'.log == e.log
    ensures LifeAt(e', id)
  {
  }

  lemma LoadedKeeps(w: World, e': Engine)
    requires Inv(w) && AllLoaded(w.e, e')
    ensures Inv(w.(e := e'))
  {
    var w' := w.(e := e');
    forall id ensures LifeAt(e', id) {
      assert LifeAt(w.e, id) && LoadedAt(w.e, e', id);
      LoadedLives(w.e, e', id);
    }
    forall role, id ensures HandedAt(w', role, id) {
      assert HandedAt(w, role, id) && LoadedAt(w.e, e', id);
      LoadedHanded(w, e', role, id);
    }
    forall role | role in w.last ensures RoleAt(w', role) {
      assert RoleAt(w, role);
    }
    forall id | id in e'.cmds
      ensures Saved(e', id) && !Terminal(e'.cmds[id].status)
      ensures e'.cmds[id].status.Running? ==> 0 < e'.cmds[id].start <= w.clock
    {
      assert LoadedAt(w.e, e', id);
      assert id in w.e.cmds ==> Saved(w.e, id);
    }
  }

  lemma ReadKeeps(w: World, rs: seq<Read>)
    requires Inv(w) && Unseen(w.e, rs)
    ensures Inv(Step(w, ReadAction(rs)))
  {
    ReadLoads(w, rs);
    LoadedKeeps(w, ReadAll(w.e, rs));
  }

  lemma RestartKeeps(w: World, rs: seq<Read>)
    requires Inv(w) && Unfinished(w.e, rs)
    ensures Inv(Step(w, RestartAction(rs)))
  {
    RestartLoads(w, rs);
    LoadedKeeps(w, Restarted(w.e, rs));
  }

  /** One poll hands over every due command once, and nothing else. */
  lemma {:induction false} DeliverCounts(e: Engine, role: Role, last: nat, todo: set<Id>)
    requires OthersLive(e, {}) && todo <= e.cmds.Keys
    ensures var e1 := DeliverAll(e, role, last, todo);
            && OthersLive(e1, {}) && e1 == e.(log := e1.log)
            && forall r, id :: Handed(e1, r, id) ==
                               Handed(e, r, id) + if r == role && id in todo && Due(e, id, last) then 1 else 0
    decreases todo
  {
    if todo != {} {
      var id := Least(todo);
      var e1 := if Due(e, id, last) then Log(e, Delivered(role, id)) else e;
      if Due(e, id, last) {
        forall r, j ensures Handed(e1, r, j) == Handed(e, r, j) + if r == role && j == id then 1 else 0 {
          CountAppend(e.log, Delivered(role, id), Delivered(r, j));
        }
        OrderedAppend(e.log, Delivered(role, id));
        forall j ensures LifeAt(e1, j) {
          assert LifeAt(e, j);
          TallyAppend(e.log, Delivered(role, id), j);
        }
      }
      DeliverCounts(e1, role, last, todo - {id});
    }
  }

  lemma PollKeeps(w: World, role: Role)
    requires Inv(w) && role in w.last
    ensures Inv(Step(w, PollAction(role)))
  {
    var w' := Step(w, PollAction(role));
    if w.e.maxTime > w.last[role] {
      DeliverCounts(w.e, role, w.last[role], w.e.cmds.Keys);
      forall r, id ensures HandedAt(w', r, id) {
        assert HandedAt(w, r, id);
        assert RoleAt(w, role);
      }
      forall r | r in w'.last ensures RoleAt(w', r) {
        assert r in w.last && RoleAt(w, r);
      }
      forall id | id in w'.e.cmds ensures Saved(w'.e, id) {
        assert Saved(w.e, id);
      }
    } else {
      assert w' == w;
    }
  }

  lemma JoinKeeps(w: World, role: Role, time: nat)
    requires Inv(w) && role !in w.last
    ensures Inv(Step(w, JoinAction(role, time)))
  {
    var w' := Step(w, JoinAction(role, time));
    forall r, id ensures HandedAt(w', r, id) {
      assert HandedAt(w, r, id);
    }
    forall r | r in w'.last ensures RoleAt(w', r) {
      if r != role {
        assert RoleAt(w, r);
      }
    }
    forall id | id in w'.e.cmds ensures Saved(w'.e, id) {
      assert Saved(w.e, id);
    }
  }

  lemma StepKeeps(w: World, a: Action)
    requires Inv(w) && Legal(w, a)
    ensures Inv(Step(w, a))
  {
    match a
    case ReadAction(rs) => ReadKeeps(w, rs);
    case RestartAction(rs) => RestartKeeps(w, rs);
    case PassAction(time, ans) => PassKeeps(w, time, ans);
    case JoinAction(role, time) => JoinKeeps(w, role, time);
    case PollAction(role) => PollKeeps(w, role);
  }

  ghost predicate Run(w: World, actions: seq<Action>, end: World)
    decreases |actions|
  {
    if actions == [] then w == end
    else Legal(w, actions[0]) && Run(Step(w, actions[0]), actions[1..], end)
  }

  /** A server that starts with an empty map over any table. */
  function Fresh(rows: map<Id, Row>, maxHandled: Id): World {
    World(Engine(map[], rows, maxHandled, 0, []), map[], map[], 0)
  }

  lemma {:induction false} RunKeeps(w: World, actions: seq<Action>, end: World)
    requires Inv(w) && Run(w, actions, end)
    ensures Inv(end)
    decreases |actions|
  {
    if actions != [] {
      StepKeeps(w, actions[0]);
      RunKeeps(Step(w, actions[0]), actions[1..], end);
    }
  }

  /** Main result on life cycles: in every reachable state each command's Trigger has been called at
      most once, it has completed at most once and only after a successful Trigger, and no command
      in the map is terminal. */
  lemma LifeCycle(rows: map<Id, Row>, maxHandled: Id, actions: seq<Action>, w: World, id: Id)
    requires Run(Fresh(rows, maxHandled), actions, w)
    ensures var t := TallyOf(w.e.log, id); t.finished <= t.triggered <= t.called <= 1
    ensures Ordered(w.e.log)
    ensures id in w.e.cmds ==> !Terminal(w.e.cmds[id].status) && Life(w.e.cmds[id].status, TallyOf(w.e.log, id))
  {
    RunKeeps(Fresh(rows, maxHandled), actions, w);
    assert LifeAt(w.e, id);
  }

  /** Main result on delivery: a role is handed each command at most once. */
  lemma AtMostOnce(rows: map<Id, Row>, maxHandled: Id, actions: seq<Action>, w: World, role: Role, id: Id)
    requires Run(Fresh(rows, maxHandled), actions, w)
    ensures Handed(w.e, role, id) <= 1
  {
    RunKeeps(Fresh(rows, maxHandled), actions, w);
    assert HandedAt(w, role, id);
  }

  /** And a poll leaves every running command that started after the role joined handed to it
      exactly once, unless no pass has taken place since the last restart: then it hands over
      nothing, and the command has been handed to the role exactly when the role has polled since
      the command started. */
  lemma ExactlyOnce(rows: map<Id, Row>, maxHandled: Id, actions: seq<Action>, w: World, role: Role, id: Id)
    requires Run(Fresh(rows, maxHandled), actions, w) && role in w.last && role in w.joined
    requires id in w.e.cmds && w.e.cmds[id].status.Running? && w.joined[role] < w.e.cmds[id].start
    ensures Handed(Step(w, PollAction(role)).e, role, id)
         == if w.e.maxTime > 0 || w.e.cmds[id].start <= w.last[role] then 1 else 0
  {
    RunKeeps(Fresh(rows, maxHandled), actions, w);
    PollKeeps(w, role);
    var w' := Step(w, PollAction(role));
    if w.e.maxTime > w.last[role] {
      DeliverCounts(w.e, role, w.last[role], w.e.cmds.Keys);
    }
    assert HandedAt(w', role, id);
  }

  /** After a successful pass the database row of every command of that pass holds its state, and
      exactly the terminal ones have left the map. */
  lemma PassSettles(w: World, time: nat, ans: Oracle, id: Id)
    requires Inv(w) && Legal(w, PassAction(time, ans)) && time > w.e.maxTime && id in w.e.cmds
    ensures var e1 := ProcessAll(w.e, w.e.cmds.Keys, time, ans);
            var e2 := Pass(w.e, time, ans).0;
            && id in e2.rows && e2.rows[id] == RowFor(e1.cmds[id])
            && (id !in e2.cmds <==> Terminal(e2.rows[id].status))
  {
    var e1 := ProcessAll(w.e, w.e.cmds.Keys, time, ans);
    ProcessAllKeeps(w.e, w.e.cmds.Keys, time, ans);
    assert Saved(w.e, id);
    PassSaved(w.e, e1, time, id);
  }

  /** Terminal statuses survive the processing of any command, its own included. */
  lemma TerminalAbsorbing(e: Engine, id: Id, j: Id, time: nat, ans: Oracle)
    requires id in e.cmds && j in e.cmds && Started(e, time) && Terminal(e.cmds[j].status)
    ensures ProcessOne(e, id, time, ans).cmds[j].status == e.cmds[j].status
  {
    ProcessOneEvolves(e, id, time, ans);
    assert Evolved(e.cmds[j], ProcessOne(e, id, time, ans).cmds[j], time);
  }
}
