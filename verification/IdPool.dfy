/** The allocator of pet and item IDs as a value: the IDs in use, in the order they were handed
    out, and the queue of free IDs. */
module IdPool {

  import opened Wrappers
  import opened Seqs

  const WORD: nat := 0x1_0000_0000

  datatype Config = Config(start: nat, end: nat, step: nat, increase: nat)

  /** Unsigned 32-bit parameters, and blocks that are smaller than the ID space. */
  ghost predicate Sane(c: Config) {
    c.start < WORD && c.end < WORD && c.step < WORD && c.increase < WORD && c.increase * c.step < WORD
  }

  datatype Pool = Pool(used: seq<nat>, free: seq<nat>, next: nat, count: nat)

  /** k steps from a number on. */
  function Nth(from: nat, k: nat, step: nat): nat {
    if k == 0 then from else Nth(from, k - 1, step) + step
  }

  /** The n IDs from, from + step, and so on. */
  function Block(from: nat, n: nat, step: nat): (b: seq<nat>)
    ensures |b| == n
  {
    if n == 0 then [] else Block(from, n - 1, step) + [Nth(from, n - 1, step)]
  }

  function Without(s: seq<nat>, x: nat): seq<nat> {
    if s == [] then [] else if s[0] == x then s[1..] else [s[0]] + Without(s[1..], x)
  }

  /** One block more. When its end wraps past 32 bits the loop adds nothing. */
  function Resize(p: Pool, n: nat, step: nat): Pool {
    if step > 0 && p.next + n * step < WORD then
      p.(free := p.free + Block(p.next, n, step), next := p.next + n * step)
    else p
  }

  /** The growth check, in unsigned arithmetic: the IDs in use and the distance of one block
      against the distance from start to end. */
  predicate Full(c: Config, p: Pool) {
    (p.count + c.increase * c.step) % WORD >= (c.end - c.start) % WORD
  }

  function Grown(c: Config, p: Pool): Pool {
    if p.free != [] || Full(c, p) then p else Resize(p, c.increase, c.step)
  }

  function Take(p: Pool): Pool {
    if p.free == [] then p
    else p.(used := p.used + [p.free[0]], free := p.free[1..], count := (p.count + 1) % WORD)
  }

  function Result(p: Pool): Option<nat> {
    if p.free == [] then None else Some(p.free[0])
  }

  function Put(p: Pool, id: nat): Pool {
    p.(used := Without(p.used, id), free := p.free + [id], count := (p.count - 1) % WORD)
  }

  function Start(c: Config, n: nat): Pool {
    Resize(Pool([], [], c.start, 0), n, c.step)
  }

  // ---------------------------------------------------------------- runs

  datatype Event = Get | Release(id: nat)

  /** A caller gives back an ID that it holds. */
  predicate Enabled(p: Pool, e: Event) {
    e.Release? ==> e.id in p.used
  }

  function Step(c: Config, p: Pool, e: Event): Pool {
    match e
    case Get => Take(Grown(c, p))
    case Release(id) => Put(p, id)
  }

  ghost predicate Run(c: Config, p: Pool, es: seq<Event>, q: Pool)
    decreases |es|
  {
    if es == [] then p == q else Enabled(p, es[0]) && Run(c, Step(c, p, es[0]), es[1..], q)
  }

  // ---------------------------------------------------------------- the invariant

  function Id(c: Config, k: nat): nat {
    Nth(c.start, k, c.step)
  }

  /** The IDs of the first n steps from the start. */
  ghost predicate Issued(c: Config, n: nat, x: nat) {
    exists k: nat :: k < n && x == Id(c, k)
  }

  ghost predicate Distinct(s: seq<nat>) {
    forall i, j :: 0 <= i < j < |s| ==> s[i] != s[j]
  }

  /** Every ID of the blocks so far is once in use or free, and the counter counts those in use. */
  ghost predicate Inv(c: Config, p: Pool) {
    var n := |p.used| + |p.free|;
    && p.count == |p.used|
    && p.next == Id(c, n) < WORD
    && Distinct(p.used + p.free)
    && (forall x :: x in p.used + p.free <==> Issued(c, n, x))
    && (n > 0 ==> c.step > 0)
  }

  lemma {:induction false} NthMul(from: nat, k: nat, step: nat)
    ensures Nth(from, k, step) == from + k * step
  {
    if k > 0 {
      NthMul(from, k - 1, step);
      assert k * step == (k - 1) * step + step;
    }
  }

  lemma {:induction false} NthAdd(from: nat, n: nat, m: nat, step: nat)
    ensures Nth(from, n + m, step) == Nth(Nth(from, n, step), m, step)
  {
    if m > 0 {
      NthAdd(from, n, m - 1, step);
    }
  }

  lemma {:induction false} NthGrows(from: nat, i: nat, j: nat, step: nat)
    requires i < j
    ensures Nth(from, i, step) + step <= Nth(from, j, step)
    ensures step > 0 ==> Nth(from, i, step) + (j - i) <= Nth(from, j, step)
    decreases j
  {
    if i + 1 < j {
      NthGrows(from, i, j - 1, step);
    }
  }

  lemma NthBelow(from: nat, i: nat, j: nat, step: nat)
    requires i <= j
    ensures Nth(from, i, step) <= Nth(from, j, step)
  {
    if i < j {
      NthGrows(from, i, j, step);
    }
  }

  lemma IdGrows(c: Config, i: nat, j: nat)
    requires i < j && c.step > 0
    ensures Id(c, i) + c.step <= Id(c, j) && Id(c, i) + (j - i) <= Id(c, j)
  {
    NthGrows(c.start, i, j, c.step);
  }

  lemma IssuedBelow(c: Config, n: nat, x: nat)
    requires Issued(c, n, x) && c.step > 0
    ensures x < Id(c, n)
  {
    var k: nat :| k < n && x == Id(c, k);
    IdGrows(c, k, n);
  }

  lemma {:induction false} BlockAt(from: nat, n: nat, step: nat, j: nat)
    requires j < n
    ensures Block(from, n, step)[j] == Nth(from, j, step)
  {
    if j < n - 1 {
      BlockAt(from, n - 1, step, j);
    }
  }

  lemma BlockIds(c: Config, n: nat, m: nat, j: nat)
    requires j < m
    ensures Block(Id(c, n), m, c.step)[j] == Id(c, n + j)
  {
    BlockAt(Id(c, n), m, c.step, j);
    NthAdd(c.start, n, j, c.step);
  }

  lemma IssuedMore(c: Config, n: nat, m: nat, x: nat)
    ensures Issued(c, n + m, x) <==> Issued(c, n, x) || x in Block(Id(c, n), m, c.step)
  {
    var b := Block(Id(c, n), m, c.step);
    if Issued(c, n + m, x) {
      var k: nat :| k < n + m && x == Id(c, k);
      if k >= n {
        BlockIds(c, n, m, k - n);
        assert b[k - n] in b;
      }
    }
    if x in b {
      var j: nat :| j < |b| && b[j] == x;
      BlockIds(c, n, m, j);
      assert n + j < n + m;
    }
  }

  /** The IDs of a new block differ from each other and from those before. */
  lemma DistinctBlock(c: Config, s: seq<nat>, n: nat, m: nat)
    requires c.step > 0 && Distinct(s) && forall i :: 0 <= i < |s| ==> Issued(c, n, s[i])
    ensures Distinct(s + Block(Id(c, n), m, c.step))
  {
    var b := Block(Id(c, n), m, c.step);
    forall i, j | 0 <= i < j < |s + b| ensures (s + b)[i] != (s + b)[j] {
      if j >= |s| {
        BlockIds(c, n, m, j - |s|);
        NthBelow(c.start, n, n + (j - |s|), c.step);
        if i < |s| {
          IssuedBelow(c, n, s[i]);
        } else {
          BlockIds(c, n, m, i - |s|);
          IdGrows(c, n + (i - |s|), n + (j - |s|));
        }
      }
    }
  }

  lemma ResizeKeeps(c: Config, p: Pool, m: nat)
    requires Inv(c, p)
    ensures Inv(c, Resize(p, m, c.step))
  {
    if c.step > 0 && p.next + m * c.step < WORD {
      GrowKeeps(c, p, m);
    }
  }

  lemma GrowKeeps(c: Config, p: Pool, m: nat)
    requires Inv(c, p) && c.step > 0 && p.next + m * c.step < WORD
    ensures Inv(c, p.(free := p.free + Block(p.next, m, c.step), next := p.next + m * c.step))
  {
    var n := |p.used| + |p.free|;
    var all, b := p.used + p.free, Block(p.next, m, c.step);
    NthMul(p.next, m, c.step);
    NthAdd(c.start, n, m, c.step);
    assert p.used + (p.free + b) == all + b;
    forall x ensures x in all + b <==> Issued(c, n + m, x) {
      IssuedMore(c, n, m, x);
    }
    forall i | 0 <= i < |all| ensures Issued(c, n, all[i]) {
      assert all[i] in all;
    }
    DistinctBlock(c, all, n, m);
  }

  lemma TakeKeeps(c: Config, p: Pool)
    requires Inv(c, p)
    ensures Inv(c, Take(p))
  {
    if p.free != [] {
      assert Take(p).used + Take(p).free == p.used + p.free;
      UsedFits(c, p);
    }
  }

  lemma UsedFits(c: Config, p: Pool)
    requires Inv(c, p) && p.free != []
    ensures |p.used| + 1 < WORD
  {
    IdGrows(c, 0, |p.used| + |p.free|);
  }

  lemma {:induction false} WithoutIs(s: seq<nat>, k: nat)
    requires k < |s| && Distinct(s)
    ensures Without(s, s[k]) == s[..k] + s[k + 1..]
  {
    if k > 0 {
      WithoutIs(s[1..], k - 1);
      DropBehind(s, k);
    }
  }

  lemma DropBehind(s: seq<nat>, k: nat)
    requires 0 < k < |s|
    ensures [s[0]] + (s[1..][..k - 1] + s[1..][k..]) == s[..k] + s[k + 1..]
  {
  }

  lemma Rotated(s: seq<nat>, k: nat)
    requires k < |s| && Distinct(s)
    ensures var r := s[..k] + s[k + 1..] + [s[k]]; Distinct(r) && forall x :: x in r <==> x in s
  {
    var r := s[..k] + s[k + 1..] + [s[k]];
    assert forall i :: 0 <= i < |s| ==> r[i] == s[if i < k then i else if i + 1 < |s| then i + 1 else k];
    forall x | x in s ensures x in r {
      var i :| 0 <= i < |s| && s[i] == x;
      assert r[if i < k then i else if i > k then i - 1 else |s| - 1] == x;
    }
  }

  lemma Rejoin(u: seq<nat>, f: seq<nat>, k: nat)
    requires k < |u|
    ensures var s := u + f; u[..k] + u[k + 1..] + (f + [u[k]]) == s[..k] + s[k + 1..] + [s[k]]
  {
    var s := u + f;
    assert s[..k] == u[..k] && s[k + 1..] == u[k + 1..] + f && s[k] == u[k];
  }

  lemma PutShape(p: Pool, id: nat) returns (k: nat)
    requires Distinct(p.used) && id in p.used
    ensures k < |p.used| && |Put(p, id).used| == |p.used| - 1 && p.used[k] == id
    ensures Put(p, id).used == p.used[..k] + p.used[k + 1..]
  {
    k :| 0 <= k < |p.used| && p.used[k] == id;
    WithoutIs(p.used, k);
  }

  lemma UsedDistinct(p: Pool)
    requires Distinct(p.used + p.free)
    ensures Distinct(p.used)
  {
    assert forall i :: 0 <= i < |p.used| ==> p.used[i] == (p.used + p.free)[i];
  }

  lemma PutKeeps(c: Config, p: Pool, id: nat)
    requires Inv(c, p) && id in p.used
    ensures Inv(c, Put(p, id))
  {
    UsedDistinct(p);
    var k := PutShape(p, id);
    Rejoin(p.used, p.free, k);
    Rotated(p.used + p.free, k);
    IdGrows(c, 0, |p.used + p.free|);
  }

  lemma StartInv(c: Config, n: nat)
    requires Sane(c)
    ensures Inv(c, Start(c, n))
  {
    ResizeKeeps(c, Pool([], [], c.start, 0), n);
  }

  lemma StepKeeps(c: Config, p: Pool, e: Event)
    requires Inv(c, p) && Enabled(p, e)
    ensures Inv(c, Step(c, p, e))
  {
    match e
    case Get =>
      ResizeKeeps(c, p, c.increase);
      TakeKeeps(c, Grown(c, p));
    case Release(id) => PutKeeps(c, p, id);
  }

  /** Main result: over every run no ID is lost or doubled, and the counter is right. */
  lemma {:induction false} RunKeeps(c: Config, p: Pool, es: seq<Event>, q: Pool)
    requires Inv(c, p) && Run(c, p, es, q)
    ensures Inv(c, q)
    decreases |es|
  {
    if es != [] {
      StepKeeps(c, p, es[0]);
      RunKeeps(c, Step(c, p, es[0]), es[1..], q);
    }
  }

  /** Main result: an ID handed out is not in use, and lies a whole number of steps from the start. */
  lemma NotInUse(c: Config, n: nat, es: seq<Event>, p: Pool)
    requires Sane(c) && Run(c, Start(c, n), es, p)
    ensures var q := Grown(c, p);
            match Result(q)
            case None => true
            case Some(id) => id !in p.used && Issued(c, |q.used| + |q.free|, id)
  {
    StartInv(c, n);
    RunKeeps(c, Start(c, n), es, p);
    ResizeKeeps(c, p, c.increase);
    var q := Grown(c, p);
    if q.free != [] {
      var id, all := q.free[0], q.used + q.free;
      assert all[|q.used|] == id && id in all;
      forall i | 0 <= i < |q.used| ensures q.used[i] != id {
        assert all[i] == q.used[i];
      }
    }
  }

  // ---------------------------------------------------------------- the queue

  function Gets(es: seq<Event>): nat {
    if es == [] then 0 else (if es[0].Get? then 1 else 0) + Gets(es[1..])
  }

  /** Main result: free IDs are handed out first in, first out: whatever is taken and released
      meanwhile, a free ID moves one place with each Get. */
  lemma {:induction false} QueueTurn(c: Config, p: Pool, es: seq<Event>, q: Pool, i: nat)
    requires Run(c, p, es, q) && i < |p.free| && Gets(es) <= i
    ensures i - Gets(es) < |q.free| && q.free[i - Gets(es)] == p.free[i]
    decreases |es|
  {
    if es != [] {
      QueueTurn(c, Step(c, p, es[0]), es[1..], q, if es[0].Get? then i - 1 else i);
    }
  }

  /** A released ID comes back after exactly as many Gets as there were free IDs before it. */
  lemma ReuseTurn(c: Config, p: Pool, id: nat, es: seq<Event>, q: Pool)
    requires Run(c, Put(p, id), es, q) && Gets(es) == |p.free|
    ensures Result(Grown(c, q)) == Some(id)
  {
    QueueTurn(c, Put(p, id), es, q, |p.free|);
  }

  // ---------------------------------------------------------------- the end of the range

  ghost predicate AllBelow(s: seq<nat>, end: nat) {
    forall i :: 0 <= i < |s| ==> s[i] < end
  }

  ghost predicate BelowEnd(c: Config, p: Pool) {
    AllBelow(p.used + p.free, c.end)
  }

  lemma OneMoreGet(c: Config, p: Pool, es: seq<Event>, q: Pool)
    requires Run(c, Step(c, p, Get), es, q)
    ensures Run(c, p, [Get] + es, q)
  {
    assert ([Get] + es)[1..] == es;
  }

  // ---------------------------------------------------------------- a list with a cursor

  /** The pool of a list of IDs whose first cut ones are in use. */
  function PoolOf(ids: seq<nat>, cut: nat, next: nat, count: nat): Pool
    requires cut <= |ids|
  {
    Pool(ids[..cut], ids[cut..], next, count)
  }

  /** How often the loop that adds a block of n runs: not at all when the end of the block wraps. */
  function Turns(n: nat, step: nat, from: nat): nat {
    if step > 0 && from + n * step < WORD then n else 0
  }

  lemma BlockOn(ids: seq<nat>, from: nat, k: nat, step: nat)
    ensures ids + Block(from, k, step) + [Nth(from, k, step)] == ids + Block(from, k + 1, step)
  {
    Assoc(ids, Block(from, k, step), [Nth(from, k, step)]);
  }

  lemma BlockSplit(ids: seq<nat>, cut: nat, next: nat, count: nat, num: nat, step: nat)
    requires cut <= |ids| && num * step < WORD && next < WORD
    ensures var n, end := Turns(num, step, next), (num * step + next) % WORD;
            && (n > 0 ==> step > 0)
            && (if n == 0 then end <= next else end == Nth(next, n, step) < WORD)
            && Resize(PoolOf(ids, cut, next, count), num, step)
            == PoolOf(ids + Block(next, n, step), cut, Nth(next, n, step), count)
  {
    var n := Turns(num, step, next);
    NthMul(next, n, step);
    WrapEnd(num * step, next);
    var all := ids + Block(next, n, step);
    assert all[..cut] == ids[..cut] && all[cut..] == ids[cut..] + Block(next, n, step);
    if step == 0 {
      assert num * step == 0;
    }
  }

  lemma WrapEnd(size: nat, from: nat)
    requires from < WORD && size < WORD
    ensures var end := (size + from) % WORD; if from + size < WORD then end == from + size else end < from
  {
  }

  lemma TakeSplit(ids: seq<nat>, cut: nat, next: nat, count: nat)
    requires cut < |ids|
    ensures Take(PoolOf(ids, cut, next, count)) == PoolOf(ids, cut + 1, next, (count + 1) % WORD)
    ensures Result(PoolOf(ids, cut, next, count)) == Some(ids[cut])
  {
    assert ids[..cut + 1] == ids[..cut] + [ids[cut]];
  }

  lemma PutSplit(ids: seq<nat>, cut: nat, next: nat, count: nat, k: nat)
    requires k < cut <= |ids| && Distinct(ids)
    ensures Put(PoolOf(ids, cut, next, count), ids[k])
         == PoolOf(ids[..k] + ids[k + 1..] + [ids[k]], cut - 1, next, (count - 1) % WORD)
    ensures ids[k] in PoolOf(ids, cut, next, count).used
  {
    assert Distinct(ids[..cut]) && ids[..cut][k] == ids[k];
    WithoutIs(ids[..cut], k);
    MovedBehind(ids, cut, k);
  }

  /** Place k of the list goes to its end, behind the free ones. */
  lemma MovedBehind(ids: seq<nat>, cut: nat, k: nat)
    requires k < cut <= |ids|
    ensures var r := ids[..k] + ids[k + 1..] + [ids[k]];
            && r[..cut - 1] == ids[..cut][..k] + ids[..cut][k + 1..]
            && r[cut - 1..] == ids[cut..] + [ids[k]]
  {
  }
}
