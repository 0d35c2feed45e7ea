/** The GM command engine of CenterDBCtrl as transitions over values: the commands in the map,
    their database rows, and a log of every call into a command. */
module GmStore {
  import opened Wrappers
  import opened KeyOrder

  type Id = nat
  type Role = nat

  /** GmCommandStatus. Cancel (4) is never assigned. */
  datatype Status = New | Pending | Running | Complete | Cancel | Canceled | Error

  datatype TargetType = Server | RoleTarget | Passport

  /** cancel_gm_command is modelled with its code; of other commands only the call results matter. */
  datatype Kind = CancelCommand | Other

  /** params is the parsed parameter if there is exactly one; target is m_dwGmAutoId, which
      Validate assigns. */
  datatype Cmd = Cmd(kind: Kind, targetType: TargetType, params: Option<Id>, target: Id,
                     status: Status, start: nat, end: nat, dirty: bool)

  datatype Row = Row(status: Status, start: nat, end: nat)

  datatype Call = Validate | Trigger | Finish

  datatype Event =
    | Called(call: Call, id: Id)
    | Succeeded(call: Call, id: Id)
    | Delivered(role: Role, id: Id)

  datatype Engine = Engine(cmds: map<Id, Cmd>, rows: map<Id, Row>, maxHandled: Id, maxTime: nat, log: seq<Event>)

  /** What a call into a command other than cancel_gm_command returns, by its place in the log. */
  type Oracle = nat -> bool

  // ---------------------------------------------------------------- calls

  function Log(e: Engine, ev: Event): Engine {
    e.(log := e.log + [ev])
  }

  function Put(e: Engine, id: Id, c: Cmd): Engine {
    e.(cmds := e.cmds[id := c])
  }

  function SetStatus(e: Engine, id: Id, s: Status): Engine
    requires id in e.cmds
  {
    Put(e, id, e.cmds[id].(status := s, dirty := true))
  }

  predicate Terminal(s: Status) {
    s == Complete || s == Error || s == Canceled
  }

  /** Complete() of any command: cancel_gm_command always succeeds. */
  function CallComplete(e: Engine, id: Id, ans: Oracle): (r: (Engine, bool))
    requires id in e.cmds
    ensures r.0.cmds == e.cmds
  {
    var e1 := Log(e, Called(Finish, id));
    if e.cmds[id].kind.CancelCommand? || ans(|e1.log|) then (Log(e1, Succeeded(Finish, id)), true) else (e1, false)
  }

  /** GmCommand::Cancel(). */
  function CancelOne(e: Engine, id: Id, ans: Oracle): (r: (Engine, bool))
    requires id in e.cmds
    ensures r.0.cmds.Keys == e.cmds.Keys
  {
    match e.cmds[id].status
    case New | Pending => (SetStatus(e, id, Canceled), true)
    case Running =>
      var (e1, ok) := CallComplete(e, id, ans);
      if ok then (SetStatus(e1, id, Canceled), true) else (e1, false)
    case _ => (e, false)
  }

  /** CancelGmCommand. */
  function CancelById(e: Engine, id: Id, ans: Oracle): (r: (Engine, bool))
    ensures r.0.cmds.Keys == e.cmds.Keys
  {
    if id in e.cmds then CancelOne(e, id, ans) else (e, false)
  }

  /** Validate(): cancel_gm_command refuses other target types, a wrong number of parameters, itself
      and commands that are not in the map. */
  function CallValidate(e: Engine, id: Id, ans: Oracle): (r: (Engine, bool))
    requires id in e.cmds
    ensures r.0.cmds.Keys == e.cmds.Keys
  {
    var e1 := Log(e, Called(Validate, id));
    var c := e.cmds[id];
    if c.kind.Other? then (e1, ans(|e1.log|))
    else if c.targetType.Passport? || c.targetType.RoleTarget? || c.params.None? then
      (Put(e1, id, c.(dirty := true)), false)
    else
      var e2 := Put(e1, id, c.(target := c.params.value));
      if c.params.value == id || c.params.value !in e.cmds then (Put(e2, id, e2.cmds[id].(dirty := true)), false)
      else (e2, true)
  }

  /** Trigger(): cancel_gm_command cancels its target in the middle of the pass. */
  function CallTrigger(e: Engine, id: Id, ans: Oracle): (r: (Engine, bool))
    requires id in e.cmds
    ensures r.0.cmds.Keys == e.cmds.Keys
  {
    var e1 := Log(e, Called(Trigger, id));
    if e.cmds[id].kind.Other? then
      if ans(|e1.log|) then (Log(e1, Succeeded(Trigger, id)), true) else (e1, false)
    else
      var (e2, ok) := CancelById(e1, e.cmds[id].target, ans);
      (if ok then Log(e2, Succeeded(Trigger, id)) else e2, ok)
  }

  // ---------------------------------------------------------------- one pass

  function FixTimes(c: Cmd, time: nat): Cmd {
    var c1 := if c.start == 0 then c.(start := time, dirty := true) else c;
    if c1.end < c1.start then c1.(end := c1.start, dirty := true) else c1
  }

  /** The three phases of the pass over one command; the flag tells whether the next one follows. */
  function ValidatePhase(e: Engine, id: Id, ans: Oracle): (r: (Engine, bool))
    requires id in e.cmds
    ensures r.0.cmds.Keys == e.cmds.Keys
  {
    if !e.cmds[id].status.New? then (e, true)
    else
      var (e1, ok) := CallValidate(e, id, ans);
      (SetStatus(e1, id, if ok then Pending else Error), ok)
  }

  function TriggerPhase(e: Engine, id: Id, time: nat, ans: Oracle): (r: (Engine, bool))
    requires id in e.cmds
    ensures r.0.cmds.Keys == e.cmds.Keys
  {
    var c := e.cmds[id];
    if c.status.Pending? && (c.start == 0 || c.start < time) then
      var (e1, ok) := CallTrigger(Put(e, id, c.(start := time, dirty := true)), id, ans);
      (SetStatus(e1, id, if ok then Running else Error), ok)
    else (e, true)
  }

  function FinishPhase(e: Engine, id: Id, time: nat, ans: Oracle): (r: Engine)
    requires id in e.cmds
    ensures r.cmds.Keys == e.cmds.Keys
  {
    var c := e.cmds[id];
    if c.status.Running? && (c.end == 0 || c.end < time) then
      var (e1, ok) := CallComplete(e, id, ans);
      SetStatus(e1, id, if ok then Complete else Error)
    else e
  }

  function ProcessOne(e: Engine, id: Id, time: nat, ans: Oracle): (r: Engine)
    requires id in e.cmds
    ensures r.cmds.Keys == e.cmds.Keys
  {
    var e0 := Put(e, id, FixTimes(e.cmds[id], time));
    var (e1, go1) := ValidatePhase(e0, id, ans);
    if !go1 then e1
    else
      var (e2, go2) := TriggerPhase(e1, id, time, ans);
      if !go2 then e2 else FinishPhase(e2, id, time, ans)
  }

  function ProcessAll(e: Engine, todo: set<Id>, time: nat, ans: Oracle): (r: Engine)
    requires todo <= e.cmds.Keys
    ensures r.cmds.Keys == e.cmds.Keys
    decreases todo
  {
    if todo == {} then e
    else
      var id := Least(todo);
      ProcessAll(ProcessOne(e, id, time, ans), todo - {id}, time, ans)
  }

  function RowFor(c: Cmd): Row {
    Row(c.status, c.start, c.end)
  }

  /** The table after the dirty ones of some commands have been written. */
  function WriteRows(e: Engine, done: set<Id>): map<Id, Row>
    requires done <= e.cmds.Keys
  {
    map id | id in e.rows.Keys + done && (id in e.rows || e.cmds[id].dirty) ::
      if id in done && e.cmds[id].dirty then RowFor(e.cmds[id]) else e.rows[id]
  }

  /** The second and third loop: write dirty commands, drop the terminal ones. */
  function Settle(e: Engine, time: nat): Engine {
    e.(rows := WriteRows(e, e.cmds.Keys),
       cmds := map id | id in e.cmds && !Terminal(e.cmds[id].status) :: e.cmds[id].(dirty := false),
       maxTime := time)
  }

  /** UpdateGmCommand. */
  function Pass(e: Engine, time: nat, ans: Oracle): (Engine, bool) {
    if time <= e.maxTime then (e, false) else (Settle(ProcessAll(e, e.cmds.Keys, time, ans), time), true)
  }

  // ---------------------------------------------------------------- reading and delivering

  /** A row of gm_cmd with what the factory makes of it: nothing if this server does not handle it
      (accepted) or does not know the operation (known). */
  datatype Read = Read(id: Id, cmd: Cmd, accepted: bool, known: bool)

  function Max(a: nat, b: nat): nat {
    if a >= b then a else b
  }

  function ReadOne(e: Engine, r: Read): Engine {
    var e1 := e.(maxHandled := Max(e.maxHandled, r.id));
    if !r.accepted then e1
    else if !r.known then e1.(rows := e1.rows[r.id := Row(Error, r.cmd.start, r.cmd.end)])
    else if r.id in e1.cmds then e1
    else Put(e1, r.id, r.cmd.(dirty := true))
  }

  function ReadAll(e: Engine, rs: seq<Read>): Engine
    decreases |rs|
  {
    if rs == [] then e else ReadAll(ReadOne(e, rs[0]), rs[1..])
  }

  /** InitGmCommand of a server that starts again: the map is empty, the table and the log are not. */
  function Restarted(e: Engine, rs: seq<Read>): Engine {
    ReadAll(Engine(map[], e.rows, 0, 0, e.log), rs)
  }

  /** The commands HandlerGmCommandRole hands to a role. */
  predicate Due(e: Engine, id: Id, last: nat) {
    id in e.cmds && e.cmds[id].status.Running? && last < e.cmds[id].start
  }

  function DeliverAll(e: Engine, role: Role, last: nat, todo: set<Id>): Engine
    decreases todo
  {
    if todo == {} then e
    else
      var id := Least(todo);
      DeliverAll(if Due(e, id, last) then Log(e, Delivered(role, id)) else e, role, last, todo - {id})
  }

  /** HandlerGmCommandRole: the second component is the time the role brings along next time. */
  function Poll(e: Engine, role: Role, last: nat): (Engine, nat) {
    if e.maxTime <= last then (e, last) else (DeliverAll(e, role, last, e.cmds.Keys), e.maxTime)
  }
}
