/** The merge log of the game servers: every merged server points to the server it went into.
    CenterDBCtrl follows these chains step by step with one query each, or for all servers at once
    on a copy of the table, and then lets dead merged servers show the state of their master. */
module ServerMerge {
  import opened KeyOrder

  type Id = nat

  datatype Hop = Hop(target: Id, kind: nat)

  /** gameserver_merge_log, by origin. */
  type Table = map<Id, Hop>

  // ---------------------------------------------------------------- chains

  /** The server reached after at most n hops. */
  function Follow(t: Table, id: Id, n: nat): Id
    decreases n
  {
    if n == 0 || id !in t then id else Follow(t, t[id].target, n - 1)
  }

  ghost predicate Acyclic(t: Table) {
    forall id, n: nat :: id in t && n > 0 ==> Follow(t, id, n) != id
  }

  ghost predicate Ends(t: Table, id: Id) {
    exists n: nat :: Follow(t, id, n) !in t
  }

  lemma {:induction false} FollowSum(t: Table, id: Id, m: nat, n: nat)
    ensures Follow(t, id, m + n) == Follow(t, Follow(t, id, m), n)
    decreases m
  {
    if m != 0 && id in t {
      FollowSum(t, t[id].target, m - 1, n);
    } else if id !in t {
      assert Follow(t, id, m + n) == id;
    }
  }

  function Visited(t: Table, id: Id, n: nat): set<Id> {
    if n == 0 then {} else Visited(t, id, n - 1) + {Follow(t, id, n - 1)}
  }

  ghost predicate Hits(t: Table, id: Id, i: nat, x: Id) {
    Follow(t, id, i) == x
  }

  lemma {:induction false} VisitedIs(t: Table, id: Id, n: nat, x: Id)
    ensures x in Visited(t, id, n) <==> exists i: nat :: i < n && Hits(t, id, i, x)
    decreases n
  {
    if n != 0 {
      VisitedIs(t, id, n - 1, x);
      if i: nat :| i < n && Hits(t, id, i, x) {
        assert i == n - 1 || x in Visited(t, id, n - 1);
      }
      if x in Visited(t, id, n) && x !in Visited(t, id, n - 1) {
        assert Hits(t, id, n - 1, x);
      }
    }
  }

  /** On an acyclic table the servers of a chain are all different. */
  lemma {:induction false} VisitedDistinct(t: Table, id: Id, n: nat)
    requires Acyclic(t)
    requires n > 0 ==> Follow(t, id, n - 1) in t
    ensures |Visited(t, id, n)| == n && Visited(t, id, n) <= t.Keys
    decreases n
  {
    if n != 0 {
      var x := Follow(t, id, n - 1);
      if n > 1 {
        FollowSum(t, id, n - 2, 1);
      }
      VisitedDistinct(t, id, n - 1);
      VisitedIs(t, id, n - 1, x);
      forall i: nat | i < n - 1 ensures !Hits(t, id, i, x) {
        FollowSum(t, id, i, n - 1 - i);
        if Follow(t, id, i) in t {
          assert Follow(t, Follow(t, id, i), n - 1 - i) != Follow(t, id, i);
        }
      }
    }
  }

  lemma {:induction false} SubsetSize(a: set<Id>, b: set<Id>)
    requires a <= b
    ensures |a| <= |b|
    decreases a
  {
    if a != {} {
      var x :| x in a;
      SubsetSize(a - {x}, b - {x});
    }
  }

  /** So every chain leaves the table within as many hops as the table has rows. */
  lemma ChainsAreShort(t: Table, id: Id)
    requires Acyclic(t)
    ensures Follow(t, id, |t|) !in t
  {
    if Follow(t, id, |t|) in t {
      VisitedDistinct(t, id, |t| + 1);
      SubsetSize(Visited(t, id, |t| + 1), t.Keys);
    }
  }

  lemma {:induction false} FollowStays(t: Table, id: Id, m: nat, n: nat)
    requires Follow(t, id, m) !in t && m <= n
    ensures Follow(t, id, n) == Follow(t, id, m)
  {
    FollowSum(t, id, m, n - m);
  }

  lemma {:induction false} CycleRepeats(t: Table, id: Id, n: nat, k: nat)
    requires Follow(t, id, n) == id
    ensures Follow(t, id, k * n) == id
    decreases k
  {
    if k != 0 {
      CycleRepeats(t, id, n, k - 1);
      assert k * n == n + (k - 1) * n;
      FollowSum(t, id, n, (k - 1) * n);
    }
  }

  /** Following the chain of every server ends exactly on tables without a cycle. */
  lemma EndsExact(t: Table)
    ensures (forall id :: id in t ==> Ends(t, id)) <==> Acyclic(t)
  {
    if Acyclic(t) {
      forall id | id in t ensures Ends(t, id) {
        ChainsAreShort(t, id);
      }
    } else {
      var id, n: nat :| id in t && n > 0 && Follow(t, id, n) == id;
      forall m: nat ensures Follow(t, id, m) in t {
        if Follow(t, id, m) !in t {
          CycleRepeats(t, id, n, m);
          assert m <= m * n;
          FollowStays(t, id, m, m * n);
        }
      }
      assert !Ends(t, id);
    }
  }

  /** The server a chain ends at. */
  function Root(t: Table, id: Id): Id {
    Follow(t, id, |t|)
  }

  lemma RootStep(t: Table, id: Id)
    requires Acyclic(t) && id in t
    ensures Root(t, id) == Root(t, t[id].target)
  {
    ChainsAreShort(t, id);
    ChainsAreShort(t, t[id].target);
    FollowStays(t, id, |t|, |t| + 1);
  }

  // ---------------------------------------------------------------- the two resolvers

  /** GetServerIdMerged: one query per hop. It returns at all exactly on chains that end. */
  method GetServerIdMerged(t: Table, dwServerIdOrigin: Id) returns (dwId: Id)
    requires Ends(t, dwServerIdOrigin)
    ensures dwId !in t && exists n: nat :: dwId == Follow(t, dwServerIdOrigin, n)
    ensures Acyclic(t) ==> dwId == Root(t, dwServerIdOrigin)
  {
    dwId := dwServerIdOrigin;
    ghost var last: nat :| Follow(t, dwServerIdOrigin, last) !in t;
    ghost var n: nat := 0;
    while dwId in t
      invariant dwId == Follow(t, dwServerIdOrigin, n) && n <= last
      decreases last - n
    {
      if n == last {
        assert false;
      }
      FollowSum(t, dwServerIdOrigin, n, 1);
      dwId := t[dwId].target;
      n := n + 1;
    }
    if Acyclic(t) {
      ChainsAreShort(t, dwServerIdOrigin);
      if n <= |t| {
        FollowStays(t, dwServerIdOrigin, n, |t|);
      } else {
        FollowStays(t, dwServerIdOrigin, |t|, n);
      }
    }
  }

  datatype MergeRow = MergeRow(origin: Id, target: Id, kind: nat)

  /** The copy of the table that GetMergedListInfo builds; a later row of the same origin wins. */
  function TableOf(rows: seq<MergeRow>): Table {
    if rows == [] then map[]
    else
      var last := rows[|rows| - 1];
      TableOf(rows[..|rows| - 1])[last.origin := Hop(last.target, last.kind)]
  }

  /** The query of GetServerIdMerged sees the first row of an origin. */
  function FirstHop(rows: seq<MergeRow>, id: Id): (r: seq<Hop>)
    ensures |r| <= 1
  {
    if rows == [] then []
    else if rows[0].origin == id then [Hop(rows[0].target, rows[0].kind)]
    else FirstHop(rows[1..], id)
  }

  ghost predicate OneRowPerOrigin(rows: seq<MergeRow>) {
    forall i, j :: 0 <= i < j < |rows| ==> rows[i].origin != rows[j].origin
  }

  /** With one row per origin both read the same table. */
  lemma {:induction false} SameTable(rows: seq<MergeRow>, id: Id)
    requires OneRowPerOrigin(rows)
    ensures FirstHop(rows, id) == if id in TableOf(rows) then [TableOf(rows)[id]] else []
    decreases |rows|
  {
    if rows != [] {
      var front, last := rows[..|rows| - 1], rows[|rows| - 1];
      SameTable(front, id);
      FirstHopAppend(front, last, id);
      assert rows == front + [last];
      if id == last.origin {
        NoHop(front, id);
      }
    }
  }

  lemma {:induction false} FirstHopAppend(rows: seq<MergeRow>, last: MergeRow, id: Id)
    ensures FirstHop(rows + [last], id) ==
            if FirstHop(rows, id) != [] then FirstHop(rows, id)
            else if last.origin == id then [Hop(last.target, last.kind)] else []
    decreases |rows|
  {
    if rows == [] {
      assert [last][1..] == [];
    } else {
      assert (rows + [last])[1..] == rows[1..] + [last];
      FirstHopAppend(rows[1..], last, id);
    }
  }

  lemma {:induction false} NoHop(rows: seq<MergeRow>, id: Id)
    requires forall i :: 0 <= i < |rows| ==> rows[i].origin != id
    ensures FirstHop(rows, id) == []
  {
    if rows != [] {
      NoHop(rows[1..], id);
    }
  }

  /** The hop that GetMergedListInfo records for an origin: the last one of its chain. */
  function LastHop(t: Table, hop: Hop, n: nat): Hop
    decreases n
  {
    if n == 0 || hop.target !in t then hop else LastHop(t, t[hop.target], n - 1)
  }

  lemma {:induction false} LastHopTarget(t: Table, hop: Hop, n: nat)
    ensures LastHop(t, hop, n).target == Follow(t, hop.target, n)
    decreases n
  {
    if n != 0 && hop.target in t {
      LastHopTarget(t, t[hop.target], n - 1);
    }
  }

  /** GetMergedListInfo: one query for the whole table, then every chain in memory. Without rows the
      query gives no result and out stays as it was. */
  method GetMergedListInfo(rows: seq<MergeRow>, previous: Table) returns (out: Table, ok: bool)
    requires Acyclic(TableOf(rows))
    ensures ok <==> rows != []
    ensures !ok ==> out == previous
    ensures ok ==> out.Keys == TableOf(rows).Keys
    ensures ok ==> forall id :: id in out ==> out[id] == LastHop(TableOf(rows), TableOf(rows)[id], |TableOf(rows)|)
  {
    if rows == [] {
      return previous, false;
    }
    var t: Table := map[];
    for i := 0 to |rows|
      invariant t == TableOf(rows[..i])
    {
      assert rows[..i + 1][..i] == rows[..i];
      t := t[rows[i].origin := Hop(rows[i].target, rows[i].kind)];
    }
    assert rows[..|rows|] == rows;
    out := map[];
    var todo := t.Keys;
    while todo != {}
      invariant todo <= t.Keys && out.Keys == t.Keys - todo
      invariant forall id :: id in out ==> out[id] == LastHop(t, t[id], |t|)
      decreases todo
    {
      var id := Least(todo);
      var stc := ResolveChain(t, t[id]);
      out := out[id := stc];
      todo := todo - {id};
    }
    ok := true;
  }

  /** The inner loop of GetMergedListInfo. */
  method ResolveChain(t: Table, first: Hop) returns (stc: Hop)
    requires Acyclic(t)
    ensures stc == LastHop(t, first, |t|) && stc.target !in t
  {
    stc := first;
    ghost var left: nat := |t|;
    ChainsAreShort(t, first.target);
    LastHopTarget(t, first, |t|);
    while stc.target in t
      invariant LastHop(t, stc, left) == LastHop(t, first, |t|)
      decreases left
    {
      if left == 0 {
        assert false;
      }
      stc := t[stc.target];
      left := left - 1;
    }
  }

  /** What is recorded for an origin is the row of the last server on its chain that has one: that
      server's kind counts, not the kinds of the merges before. */
  lemma {:induction false} LastHopIsLast(t: Table, id: Id, n: nat) returns (x: Id, k: nat)
    requires id in t && Follow(t, t[id].target, n) !in t
    ensures x in t && x == Follow(t, id, k) && t[x].target !in t && LastHop(t, t[id], n) == t[x]
    decreases n
  {
    if t[id].target !in t {
      x, k := id, 0;
    } else {
      var m: nat;
      x, m := LastHopIsLast(t, t[id].target, n - 1);
      k := m + 1;
    }
  }

  /** The table has the row that comes last of each origin. */
  lemma {:induction false} LastRowWins(rows: seq<MergeRow>, id: Id)
    ensures id in TableOf(rows) <==> exists i :: 0 <= i < |rows| && rows[i].origin == id
    ensures forall i :: 0 <= i < |rows| && rows[i].origin == id
                        && (forall j :: i < j < |rows| ==> rows[j].origin != id) ==>
                          TableOf(rows)[id] == Hop(rows[i].target, rows[i].kind)
    decreases |rows|
  {
    if rows != [] {
      var front := rows[..|rows| - 1];
      LastRowWins(front, id);
      assert forall i :: 0 <= i < |front| ==> front[i] == rows[i];
      if rows[|rows| - 1].origin != id && exists i :: 0 <= i < |rows| && rows[i].origin == id {
        var i :| 0 <= i < |rows| && rows[i].origin == id;
        assert front[i].origin == id;
      }
    }
  }

  /** The fast resolver gives every origin the target the slow one finds. */
  lemma ResolversAgree(t: Table, id: Id)
    requires Acyclic(t) && id in t
    ensures LastHop(t, t[id], |t|).target == Root(t, id) && Root(t, id) !in t
  {
    LastHopTarget(t, t[id], |t|);
    RootStep(t, id);
    ChainsAreShort(t, id);
  }

  // ---------------------------------------------------------------- copying the master's state

  /** STC_SERVER_STATUS: entrance stands for all the fields that are always copied from the master
      (addresses, versions, login flags, database), own for those that never are. */
  datatype Server = Server(entrance: string, strategy: nat, online: nat, alive: bool, own: string)

  function CopyOf(slave: Server, master: Server, kind: nat): Server {
    slave.(entrance := master.entrance, online := 0, alive := master.alive,
           strategy := if kind == 0 then master.strategy else slave.strategy)
  }

  /** What becomes of server id, all masters taken from the same state. */
  function Shown(servers: map<Id, Server>, merged: Table, id: Id): Server
    requires id in servers
  {
    if !servers[id].alive && id in merged && merged[id].target != id && merged[id].target in servers
    then CopyOf(servers[id], servers[merged[id].target], merged[id].kind)
    else servers[id]
  }

  /** The assignments of the loop, in their order. */
  method CopyState(slave: Server, master: Server, kind: nat) returns (s: Server)
    ensures s == CopyOf(slave, master, kind)
  {
    s := slave.(entrance := master.entrance);
    s := s.(online := 0);
    if kind == 0 {
      s := s.(strategy := master.strategy);
    }
    s := s.(alive := master.alive);
  }

  /** The pass of GetOrUpdateGameServerStatus over the servers, in place and in ascending order. On
      resolved merges it has the effect of copying all at once. */
  method CopyMasters(servers: map<Id, Server>, merged: Table) returns (after: map<Id, Server>)
    requires forall id :: id in merged ==> merged[id].target !in merged
    ensures after == map id | id in servers :: Shown(servers, merged, id)
  {
    after := servers;
    var todo := servers.Keys;
    while todo != {}
      invariant after.Keys == servers.Keys && todo <= servers.Keys
      invariant forall id :: id in servers ==>
                  after[id] == if id in todo then servers[id] else Shown(servers, merged, id)
      decreases todo
    {
      var id := Least(todo);
      if !after[id].alive {
        var master, kind := id, 0;
        if id in merged {
          master := merged[id].target;
          kind := merged[id].kind;
        }
        if master != id {
          if master in after {
            assert after[master] == servers[master];
            var shown := CopyState(after[id], after[master], kind);
            after := after[id := shown];
          }
        }
      }
      todo := todo - {id};
    }
  }

  /** The whole merge step: rows of the log in, servers as their masters show them out. */
  method ShowMasters(servers: map<Id, Server>, rows: seq<MergeRow>) returns (after: map<Id, Server>)
    requires Acyclic(TableOf(rows))
    ensures after.Keys == servers.Keys
    ensures forall id :: id in servers ==>
              var t := TableOf(rows);
              if servers[id].alive || id !in t || Root(t, id) !in servers then after[id] == servers[id]
              else var slave, master := servers[id], servers[Root(t, id)];
                   && after[id].entrance == master.entrance && after[id].alive == master.alive
                   && after[id].online == 0 && after[id].own == slave.own
                   && after[id].strategy
                      == if LastHop(t, t[id], |t|).kind == 0 then master.strategy else slave.strategy
  {
    var merged, ok := GetMergedListInfo(rows, map[]);
    forall id | id in merged ensures merged[id].target == Root(TableOf(rows), id) && merged[id].target !in merged {
      ResolversAgree(TableOf(rows), id);
    }
    after := CopyMasters(servers, merged);
  }
}
