/** The GM commands as objects in m_mapGmCommandAll, changed in place by CenterDBCtrl. Every method
    is proved against the transition of GmStore it performs. */
module GmEngine {
  import opened Wrappers
  import opened KeyOrder
  import opened GmStore

  class GmCommand {
    const autoId: Id
    const kind: Kind
    const targetType: TargetType
    const params: Option<Id>
    var target: Id                // m_dwGmAutoId of a cancel command
    var status: Status
    var startTime: nat
    var endTime: nat
    var dirty: bool

    constructor (id: Id, c: Cmd)
      ensures autoId == id && Value() == c.(dirty := true)
    {
      autoId, kind, targetType, params := id, c.kind, c.targetType, c.params;
      target, status, startTime, endTime, dirty := c.target, c.status, c.start, c.end, true;
    }

    ghost function Value(): Cmd
      reads this
    {
      Cmd(kind, targetType, params, target, status, startTime, endTime, dirty)
    }

    method SetStatus(s: Status)
      modifies this`status, this`dirty
      ensures Value() == old(Value()).(status := s, dirty := true)
    {
      status := s;
      dirty := true;
    }

    method SetStartTime(t: nat)
      modifies this`startTime, this`dirty
      ensures Value() == old(Value()).(start := t, dirty := true)
    {
      startTime := t;
      dirty := true;
    }

    method SetEndTime(t: nat)
      modifies this`endTime, this`dirty
      ensures Value() == old(Value()).(end := t, dirty := true)
    {
      endTime := t;
      dirty := true;
    }

    method SetErrorMsg()
      modifies this`dirty
      ensures Value() == old(Value()).(dirty := true)
    {
      dirty := true;
    }
  }

  class CenterDBCtrl {
    var commands: map<Id, GmCommand>       // m_mapGmCommandAll
    var rows: map<Id, Row>                 // table gm_cmd
    var maxHandled: Id
    var maxTime: nat
    var log: seq<Event>                    // the calls made into commands
    ghost var objects: set<GmCommand>
    ghost var values: map<Id, Cmd>

    ghost function Abs(): Engine
      reads this
    {
      Engine(values, rows, maxHandled, maxTime, log)
    }

    ghost predicate FiledAt(id: Id)
      requires id in commands && id in values
      reads this, objects
    {
      commands[id] in objects && commands[id].autoId == id && commands[id].Value() == values[id]
    }

    ghost predicate Filed()
      reads this, objects
    {
      commands.Keys == values.Keys && forall id {:trigger FiledAt(id)} :: id in commands ==> FiledAt(id)
    }

    constructor (rows: map<Id, Row>, maxHandled: Id)
      ensures Filed() && Abs() == Engine(map[], rows, maxHandled, 0, []) && objects == {}
    {
      this.rows, this.maxHandled, maxTime, log := rows, maxHandled, 0, [];
      commands, objects, values := map[], {}, map[];
    }

    /** Changing one command in place keeps the map filed. */
    twostate lemma Changed(c: GmCommand)
      requires old(Filed()) && commands == old(commands) && objects == old(objects)
      requires c.autoId in commands && commands[c.autoId] == c
      requires values == old(values)[c.autoId := c.Value()]
      requires forall d :: d in objects && d != c ==> d.Value() == old(d.Value())
      ensures Filed()
    {
      assert old(FiledAt(c.autoId));
      forall id | id in commands ensures FiledAt(id) {
        assert old(FiledAt(id));
      }
    }

    /** Changing no command keeps the map filed. */
    twostate lemma Untouched()
      requires old(Filed()) && commands == old(commands) && objects == old(objects) && values == old(values)
      requires forall d :: d in objects ==> d.Value() == old(d.Value())
      ensures Filed()
    {
      forall id | id in commands ensures FiledAt(id) {
        assert old(FiledAt(id));
      }
    }

    // -------------------------------------------------------------- calls into commands

    /** Complete(): virtual; cancel_gm_command always succeeds. */
    method CallComplete(id: Id, ans: Oracle) returns (ok: bool)
      requires Filed() && id in commands
      modifies this`log
      ensures Filed() && id in old(values) && (Abs(), ok) == GmStore.CallComplete(old(Abs()), id, ans)
    {
      assert FiledAt(id);
      log := log + [Called(Finish, id)];
      ok := commands[id].kind.CancelCommand? || ans(|log|);
      if ok {
        log := log + [Succeeded(Finish, id)];
      }
      Untouched();
    }

    method AssignStatus(id: Id, s: Status)
      requires Filed() && id in commands
      modifies this`values, objects
      ensures Filed() && id in old(values) && Abs() == GmStore.SetStatus(old(Abs()), id, s)
    {
      assert FiledAt(id);
      commands[id].SetStatus(s);
      values := values[id := commands[id].Value()];
      Changed(commands[id]);
    }

    /** GmCommand::Cancel. */
    method Cancel(id: Id, ans: Oracle) returns (ok: bool)
      requires Filed() && id in commands
      modifies this`log, this`values, objects
      ensures Filed() && id in old(values) && (Abs(), ok) == CancelOne(old(Abs()), id, ans)
    {
      assert FiledAt(id);
      if commands[id].status == New || commands[id].status == Pending {
        AssignStatus(id, Canceled);
        return true;
      }
      if commands[id].status == Running {
        var done := CallComplete(id, ans);
        if done {
          AssignStatus(id, Canceled);
          return true;
        }
        return false;
      }
      return false;
    }

    method CancelGmCommand(id: Id, ans: Oracle) returns (ok: bool)
      requires Filed()
      modifies this`log, this`values, objects
      ensures Filed() && (Abs(), ok) == CancelById(old(Abs()), id, ans)
    {
      if id in commands {
        ok := Cancel(id, ans);
      } else {
        ok := false;
      }
    }

    predicate HasGmCommand(id: Id)
      reads this`commands
    {
      id in commands
    }

    /** Validate(). */
    method CallValidate(id: Id, ans: Oracle) returns (ok: bool)
      requires Filed() && id in commands
      modifies this`log, this`values, objects
      ensures Filed() && id in old(values) && (Abs(), ok) == GmStore.CallValidate(old(Abs()), id, ans)
    {
      assert FiledAt(id);
      var cmd := commands[id];
      log := log + [Called(Validate, id)];
      if cmd.kind.Other? {
        Untouched();
        return ans(|log|);
      }
      ok := ValidateCancel(cmd);
      values := values[id := cmd.Value()];
      Changed(cmd);
      assert Abs().cmds == GmStore.CallValidate(old(Abs()), id, ans).0.cmds;
    }

    /** CancelCommand::Validate. */
    method ValidateCancel(cmd: GmCommand) returns (ok: bool)
      modifies cmd
      ensures ok <==> cmd.targetType.Server? && cmd.params.Some?
                      && cmd.params.value != cmd.autoId && cmd.params.value in commands
      ensures cmd.Value() ==
                if ok then old(cmd.Value()).(target := cmd.params.value)
                else if cmd.targetType.Server? && cmd.params.Some? then
                  old(cmd.Value()).(target := cmd.params.value, dirty := true)
                else old(cmd.Value()).(dirty := true)
    {
      if cmd.targetType == Passport {
        cmd.SetErrorMsg();
        return false;
      }
      if cmd.targetType == RoleTarget {
        cmd.SetErrorMsg();
        return false;
      }
      if cmd.params.None? {
        cmd.SetErrorMsg();
        return false;
      }
      cmd.target := cmd.params.value;
      if cmd.target == cmd.autoId || !HasGmCommand(cmd.target) {
        cmd.SetErrorMsg();
        return false;
      }
      return true;
    }

    /** Trigger(): a cancel command changes another command in the middle of the pass. */
    method CallTrigger(id: Id, ans: Oracle) returns (ok: bool)
      requires Filed() && id in commands
      modifies this`log, this`values, objects
      ensures Filed() && id in old(values) && (Abs(), ok) == GmStore.CallTrigger(old(Abs()), id, ans)
    {
      assert FiledAt(id);
      var cmd := commands[id];
      log := log + [Called(Trigger, id)];
      Untouched();
      if cmd.kind.Other? {
        ok := ans(|log|);
      } else {
        ok := CancelGmCommand(cmd.target, ans);
      }
      label Called:
      if ok {
        log := log + [Succeeded(Trigger, id)];
        Untouched@Called();
      }
    }

    // -------------------------------------------------------------- the pass

    method FixTimesOf(id: Id, time: nat)
      requires Filed() && id in commands
      modifies this`values, objects
      ensures Filed() && id in old(values) && Abs() == Put(old(Abs()), id, FixTimes(old(Abs()).cmds[id], time))
    {
      assert FiledAt(id);
      var cmd := commands[id];
      if cmd.startTime == 0 {
        cmd.SetStartTime(time);
      }
      if cmd.endTime < cmd.startTime {
        cmd.SetEndTime(cmd.startTime);
      }
      values := values[id := cmd.Value()];
      Changed(cmd);
    }

    method ValidateOne(id: Id, ans: Oracle) returns (go: bool)
      requires Filed() && id in commands
      modifies this`log, this`values, objects
      ensures Filed() && id in old(values) && (Abs(), go) == ValidatePhase(old(Abs()), id, ans)
    {
      assert FiledAt(id);
      go := true;
      if commands[id].status == New {
        go := CallValidate(id, ans);
        AssignStatus(id, if go then Pending else Error);
      }
    }

    method SetStart(id: Id, time: nat)
      requires Filed() && id in commands
      modifies this`values, objects
      ensures Filed() && id in old(values)
      ensures Abs() == Put(old(Abs()), id, old(Abs()).cmds[id].(start := time, dirty := true))
    {
      assert FiledAt(id);
      commands[id].SetStartTime(time);
      values := values[id := commands[id].Value()];
      Changed(commands[id]);
    }

    method TriggerOne(id: Id, time: nat, ans: Oracle) returns (go: bool)
      requires Filed() && id in commands
      modifies this`log, this`values, objects
      ensures Filed() && id in old(values) && (Abs(), go) == TriggerPhase(old(Abs()), id, time, ans)
    {
      assert FiledAt(id);
      go := true;
      if commands[id].status == Pending && (commands[id].startTime == 0 || commands[id].startTime < time) {
        SetStart(id, time);
        go := CallTrigger(id, ans);
        AssignStatus(id, if go then Running else Error);
      }
    }

    method FinishOne(id: Id, time: nat, ans: Oracle)
      requires Filed() && id in commands
      modifies this`log, this`values, objects
      ensures Filed() && id in old(values) && Abs() == FinishPhase(old(Abs()), id, time, ans)
    {
      assert FiledAt(id);
      if commands[id].status == Running && (commands[id].endTime == 0 || commands[id].endTime < time) {
        var ok := CallComplete(id, ans);
        AssignStatus(id, if ok then Complete else Error);
      }
    }

    method ProcessCommand(id: Id, time: nat, ans: Oracle)
      requires Filed() && id in commands
      modifies this`log, this`values, objects
      ensures Filed() && id in old(values) && Abs() == ProcessOne(old(Abs()), id, time, ans)
    {
      FixTimesOf(id, time);
      var go := ValidateOne(id, ans);
      if go {
        go := TriggerOne(id, time, ans);
        if go {
          FinishOne(id, time, ans);
        }
      }
    }

    method ProcessCommands(time: nat, ans: Oracle)
      requires Filed()
      modifies this`log, this`values, objects
      ensures Filed() && Abs() == ProcessAll(old(Abs()), old(values.Keys), time, ans)
    {
      var todo := commands.Keys;
      while todo != {}
        invariant Filed() && todo <= values.Keys
        invariant ProcessAll(Abs(), todo, time, ans) == ProcessAll(old(Abs()), old(values.Keys), time, ans)
        decreases todo
      {
        var id := Least(todo);
        ProcessCommand(id, time, ans);
        todo := todo - {id};
      }
    }

    /** One turn of the second loop. */
    method WriteOne(id: Id) returns (ended: bool)
      requires Filed() && id in commands
      modifies this`rows, this`values, objects
      ensures Filed() && id in old(values) && values == old(values)[id := old(values)[id].(dirty := false)]
      ensures ended <==> Terminal(old(values)[id].status)
      ensures rows == if old(values)[id].dirty then old(rows)[id := RowFor(old(values)[id])] else old(rows)
    {
      assert FiledAt(id);
      var cmd := commands[id];
      if cmd.dirty {
        rows := rows[id := Row(cmd.status, cmd.startTime, cmd.endTime)];
      }
      cmd.dirty := false;
      ended := Terminal(cmd.status);
      values := values[id := cmd.Value()];
      Changed(cmd);
    }

    static ghost function Cleaned(e: Engine, done: set<Id>): map<Id, Cmd> {
      map id | id in e.cmds :: if id in done then e.cmds[id].(dirty := false) else e.cmds[id]
    }

    static lemma WriteStep(e: Engine, done: set<Id>, id: Id)
      requires done <= e.cmds.Keys && id in e.cmds && id !in done
      ensures WriteRows(e, done + {id}) ==
              if e.cmds[id].dirty then WriteRows(e, done)[id := RowFor(e.cmds[id])] else WriteRows(e, done)
      ensures Cleaned(e, done + {id}) == Cleaned(e, done)[id := e.cmds[id].(dirty := false)]
      ensures Cleaned(e, done)[id] == e.cmds[id]
    {
    }

    /** The second loop: write what is dirty, collect what is terminal. */
    method WriteDirty() returns (removed: seq<Id>)
      requires Filed()
      modifies this`rows, this`values, objects
      ensures Filed() && rows == WriteRows(old(Abs()), old(values.Keys))
      ensures values == Cleaned(old(Abs()), old(values.Keys))
      ensures forall id :: id in removed <==> id in old(values) && Terminal(old(values)[id].status)
    {
      ghost var e := Abs();
      removed := [];
      var todo := commands.Keys;
      ghost var done: set<Id> := {};
      assert rows == WriteRows(e, {}) && values == Cleaned(e, {});
      while todo != {}
        invariant Filed() && todo !! done && todo + done == e.cmds.Keys
        invariant rows == WriteRows(e, done) && values == Cleaned(e, done)
        invariant forall id :: id in removed <==> id in done && Terminal(e.cmds[id].status)
        decreases todo
      {
        var id := Least(todo);
        WriteStep(e, done, id);
        var ended := WriteOne(id);
        if ended {
          removed := removed + [id];
        }
        todo := todo - {id};
        done := done + {id};
      }
      assert done == e.cmds.Keys;
    }

    /** The third loop. */
    method RemoveCommands(removed: seq<Id>)
      requires Filed()
      modifies this`commands, this`values
      ensures Filed() && forall id :: id in values <==> id in old(values) && id !in removed
      ensures forall id :: id in values ==> values[id] == old(values)[id]
    {
      for i := 0 to |removed|
        invariant Filed() && forall id :: id in values <==> id in old(values) && id !in removed[..i]
        invariant forall id :: id in values ==> values[id] == old(values)[id]
      {
        RemoveCommand(removed[i]);
      }
    }

    method RemoveCommand(id: Id)
      requires Filed()
      modifies this`commands, this`values
      ensures Filed() && values == old(values) - {id}
    {
      commands := commands - {id};
      values := values - {id};
      forall j | j in commands ensures FiledAt(j) {
        assert old(FiledAt(j));
      }
    }

    method WriteAndRemove(time: nat)
      requires Filed()
      modifies this`rows, this`commands, this`values, this`maxTime, objects
      ensures Filed() && Abs() == Settle(old(Abs()), time)
    {
      var removed := WriteDirty();
      RemoveCommands(removed);
      assert values == Settle(old(Abs()), time).cmds;
      label Removed:
      maxTime := time;
      Untouched@Removed();
    }

    /** UpdateGmCommand. */
    method UpdateGmCommand(time: nat, ans: Oracle) returns (ok: bool)
      requires Filed()
      modifies this, objects
      ensures Filed() && objects == old(objects) && (Abs(), ok) == Pass(old(Abs()), time, ans)
    {
      if time <= maxTime {
        return false;
      }
      ProcessCommands(time, ans);
      WriteAndRemove(time);
      ok := true;
    }

    // -------------------------------------------------------------- reading and delivering

    /** ReadCommands: one turn of its loop. */
    method ReadCommand(r: Read)
      requires Filed()
      modifies this
      ensures Filed() && fresh(objects - old(objects)) && Abs() == ReadOne(old(Abs()), r)
    {
      maxHandled := if maxHandled >= r.id then maxHandled else r.id;
      if r.accepted {
        if !r.known {
          rows := rows[r.id := Row(Error, r.cmd.start, r.cmd.end)];
        } else if r.id !in commands {
          var cmd := new GmCommand(r.id, r.cmd);
          commands := commands[r.id := cmd];
          values := values[r.id := cmd.Value()];
          objects := objects + {cmd};
        }
      }
      forall j | j in commands ensures FiledAt(j) {
        assert j in old(commands) ==> old(FiledAt(j));
      }
    }

    method ReadCommands(rs: seq<Read>)
      requires Filed()
      modifies this
      ensures Filed() && fresh(objects - old(objects)) && Abs() == ReadAll(old(Abs()), rs)
    {
      for i := 0 to |rs|
        invariant Filed() && fresh(objects - old(objects))
        invariant ReadAll(Abs(), rs[i..]) == ReadAll(old(Abs()), rs)
      {
        assert rs[i..][0] == rs[i] && rs[i..][1..] == rs[i + 1..];
        ReadCommand(rs[i]);
      }
    }

    /** InitGmCommand, in a server that has just started. */
    method InitGmCommand(rs: seq<Read>)
      requires Filed() && commands == map[] && maxHandled == 0 && maxTime == 0
      modifies this
      ensures Filed() && fresh(objects - old(objects)) && Abs() == Restarted(old(Abs()), rs)
    {
      assert values == map[];
      if rs != [] {
        ReadCommands(rs);
      } else {
        maxHandled := 0;
      }
    }

    /** HandlerGmCommandRole. */
    method HandlerGmCommandRole(role: Role, lastTime: nat) returns (time: nat)
      requires Filed()
      modifies this`log
      ensures Filed() && (Abs(), time) == Poll(old(Abs()), role, lastTime)
    {
      if maxTime <= lastTime {
        return lastTime;
      }
      var todo := commands.Keys;
      while todo != {}
        invariant Filed() && todo <= values.Keys
        invariant DeliverAll(Abs(), role, lastTime, todo) == DeliverAll(old(Abs()), role, lastTime, old(values.Keys))
        decreases todo
      {
        label Turn:
        var id := Least(todo);
        assert FiledAt(id);
        if commands[id].status == Running && lastTime < commands[id].startTime {
          log := log + [Delivered(role, id)];
        }
        Untouched@Turn();
        todo := todo - {id};
      }
      return maxTime;
    }
  }
}
