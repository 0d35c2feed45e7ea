/** How far the IDs of a pool go over all its runs, and what that means for the two pools that
    CObjIDCtrl makes. */
module IdRange {

  import opened Seqs
  import opened IdPool

  function Size(p: Pool): nat {
    |p.used| + |p.free|
  }

  /** A pool of n IDs that are all in use gets one more block. */
  predicate Grows(c: Config, n: nat) {
    && c.step > 0 && c.increase > 0
    && (n + c.increase * c.step) % WORD < (c.end - c.start) % WORD
    && Id(c, n) + c.increase * c.step < WORD
  }

  /** The size at which the checks stop the growth of a pool of n IDs. */
  function Final(c: Config, n: nat): nat
    decreases WORD - Id(c, n)
  {
    if Grows(c, n) then
      IdGrows(c, n, n + c.increase);
      NextSize(c, n);
      Final(c, n + c.increase)
    else n
  }

  lemma NextSize(c: Config, n: nat)
    ensures Id(c, n + c.increase) == Id(c, n) + c.increase * c.step
  {
    NthAdd(c.start, n, c.increase, c.step);
    NthMul(Id(c, n), c.increase, c.step);
  }

  lemma {:induction false} FinalIsLarge(c: Config, n: nat)
    ensures n <= Final(c, n)
    decreases WORD - Id(c, n)
  {
    if Grows(c, n) {
      IdGrows(c, n, n + c.increase);
      NextSize(c, n);
      FinalIsLarge(c, n + c.increase);
    }
  }

  // ---------------------------------------------------------------- what the runs reach

  /** The growth of a pool depends on its size only. */
  lemma GrownSize(c: Config, p: Pool)
    requires Inv(c, p) && p.free == []
    ensures Size(Grown(c, p)) == if Grows(c, Size(p)) then Size(p) + c.increase else Size(p)
    ensures Grows(c, Size(p)) ==> Grown(c, p).free != [] && Grown(c, p).next > p.next
  {
    SmallCount(c, p);
    if Grows(c, Size(p)) {
      assert c.increase * c.step > 0 by {
        NthMul(0, c.increase, c.step);
        NthGrows(0, 0, c.increase, c.step);
      }
    }
  }

  lemma SmallCount(c: Config, p: Pool)
    requires Inv(c, p)
    ensures p.count == |p.used| <= Size(p) < WORD
  {
    if Size(p) > 0 {
      IdGrows(c, 0, Size(p));
    }
  }

  lemma StepFinal(c: Config, p: Pool, e: Event)
    requires Inv(c, p) && Enabled(p, e)
    ensures Final(c, Size(Step(c, p, e))) == Final(c, Size(p))
  {
    match e
    case Get =>
      if p.free == [] {
        GrownSize(c, p);
        if Grows(c, Size(p)) {
          IdGrows(c, Size(p), Size(p) + c.increase);
          NextSize(c, Size(p));
        }
      }
    case Release(id) =>
      UsedDistinct(p);
      var k := PutShape(p, id);
  }

  lemma {:induction false} RunFinal(c: Config, p: Pool, es: seq<Event>, q: Pool)
    requires Inv(c, p) && Run(c, p, es, q)
    ensures Inv(c, q) && Final(c, Size(q)) == Final(c, Size(p))
    decreases |es|
  {
    if es != [] {
      StepKeeps(c, p, es[0]);
      StepFinal(c, p, es[0]);
      RunFinal(c, Step(c, p, es[0]), es[1..], q);
    }
  }

  /** From every state, Gets alone reach the state in which all IDs there can be are in use. */
  lemma {:induction false} AllInUse(c: Config, p: Pool) returns (es: seq<Event>, q: Pool)
    requires Inv(c, p)
    ensures Run(c, p, es, q) && Inv(c, q) && q.free == [] && |q.used| == Final(c, Size(p))
    decreases WORD - p.next, |p.free|
  {
    if p.free == [] && !Grows(c, Size(p)) {
      es, q := [], p;
    } else {
      StepKeeps(c, p, Get);
      StepFinal(c, p, Get);
      if p.free == [] {
        GrownSize(c, p);
      }
      es, q := AllInUse(c, Step(c, p, Get));
      OneMoreGet(c, p, es, q);
      es := [Get] + es;
    }
  }

  // ---------------------------------------------------------------- the end of the range

  /** The IDs of n steps lie below the end exactly when the last one does. */
  lemma BelowExact(c: Config, p: Pool)
    requires Inv(c, p)
    ensures BelowEnd(c, p) <==> Size(p) == 0 || Id(c, Size(p) - 1) < c.end
  {
    var n, all := Size(p), p.used + p.free;
    if n > 0 {
      if BelowEnd(c, p) {
        assert Issued(c, n, Id(c, n - 1));
        assert Id(c, n - 1) in all;
        var i :| 0 <= i < |all| && all[i] == Id(c, n - 1);
      }
      if Id(c, n - 1) < c.end {
        forall i | 0 <= i < |all| ensures all[i] < c.end {
          assert all[i] in all;
          var k: nat :| k < n && all[i] == Id(c, k);
          NthBelow(c.start, k, n - 1, c.step);
        }
      }
    }
  }

  function FirstSize(c: Config, n: nat): nat {
    Turns(n, c.step, c.start)
  }

  lemma StartSize(c: Config, n: nat)
    requires Sane(c)
    ensures Inv(c, Start(c, n)) && Size(Start(c, n)) == FirstSize(c, n)
  {
    StartInv(c, n);
  }

  /** p is reached by the run es of a new pool with n IDs. */
  ghost predicate Reaches(c: Config, n: nat, es: seq<Event>, p: Pool) {
    Run(c, Start(c, n), es, p)
  }

  ghost predicate LastBelow(c: Config, n: nat) {
    var last := Final(c, FirstSize(c, n));
    last == 0 || Id(c, last - 1) < c.end
  }

  lemma BelowLast(c: Config, p: Pool, last: nat)
    requires Inv(c, p) && Size(p) <= last && (last == 0 || Id(c, last - 1) < c.end)
    ensures BelowEnd(c, p)
  {
    BelowExact(c, p);
    if Size(p) > 0 {
      NthBelow(c.start, Size(p) - 1, last - 1, c.step);
    }
  }

  lemma RunBelow(c: Config, n: nat, es: seq<Event>, p: Pool)
    requires Sane(c) && LastBelow(c, n) && Reaches(c, n, es, p)
    ensures BelowEnd(c, p)
  {
    StartSize(c, n);
    RunFinal(c, Start(c, n), es, p);
    FinalIsLarge(c, Size(p));
    BelowLast(c, p, Final(c, FirstSize(c, n)));
  }

  lemma RunPasses(c: Config, n: nat) returns (es: seq<Event>, p: Pool)
    requires Sane(c) && !LastBelow(c, n)
    ensures Reaches(c, n, es, p) && !BelowEnd(c, p)
  {
    StartSize(c, n);
    es, p := AllInUse(c, Start(c, n));
    BelowExact(c, p);
  }

  /** Main result, for every step: in all runs all IDs stay below the end if and only if the last ID
      of the largest size does. That size is found by running the two checks on numbers. */
  lemma EndExact(c: Config, n: nat)
    requires Sane(c)
    ensures (forall es, p :: Reaches(c, n, es, p) ==> BelowEnd(c, p)) <==> LastBelow(c, n)
  {
    if LastBelow(c, n) {
      forall es, p | Reaches(c, n, es, p) ensures BelowEnd(c, p) {
        RunBelow(c, n, es, p);
      }
    } else {
      var es, p := RunPasses(c, n);
    }
  }

  /** With step 1 and an initial block that fits, the check is enough. */
  lemma StepOneStaysBelow(c: Config, n: nat, es: seq<Event>, p: Pool)
    requires Sane(c) && c.step == 1 && c.start + n <= c.end && Reaches(c, n, es, p)
    ensures BelowEnd(c, p)
  {
    NthMul(c.start, FirstSize(c, n), 1);
    StepOneFinal(c, FirstSize(c, n));
    var last := Final(c, FirstSize(c, n));
    if last > 0 {
      NthGrows(c.start, last - 1, last, 1);
    }
    RunBelow(c, n, es, p);
  }

  lemma {:induction false} StepOneFinal(c: Config, n: nat)
    requires Sane(c) && c.step == 1 && Id(c, n) <= c.end
    ensures Id(c, Final(c, n)) <= c.end
    decreases WORD - Id(c, n)
  {
    if Grows(c, n) {
      IdGrows(c, n, n + c.increase);
      NextSize(c, n);
      NthMul(c.start, n, 1);
      assert c.increase * c.step == c.increase;
      StepOneFinal(c, n + c.increase);
    }
  }

  // ---------------------------------------------------------------- how many IDs were ever in use

  function Larger(a: nat, b: nat): nat {
    if a >= b then a else b
  }

  /** The largest number of IDs in use in a run. */
  ghost function Peak(c: Config, p: Pool, es: seq<Event>, q: Pool): nat
    requires Run(c, p, es, q)
    decreases |es|
  {
    if es == [] then |p.used| else Larger(|p.used|, Peak(c, Step(c, p, es[0]), es[1..], q))
  }

  /** A pool grows only when all its IDs are in use and one more is wanted. */
  lemma {:induction false} PeakExact(c: Config, p: Pool, es: seq<Event>, q: Pool)
    requires Inv(c, p) && Run(c, p, es, q)
    ensures Peak(c, p, es, q) <= Size(q) && Size(p) <= Size(q)
    ensures Size(q) == Size(p) || Size(q) < Peak(c, p, es, q) + c.increase
    decreases |es|
  {
    if es != [] {
      StepKeeps(c, p, es[0]);
      StepSize(c, p, es[0]);
      PeakExact(c, Step(c, p, es[0]), es[1..], q);
    }
  }

  lemma StepSize(c: Config, p: Pool, e: Event)
    requires Inv(c, p) && Enabled(p, e)
    ensures Size(Step(c, p, e)) == Size(p) ||
            (Size(Step(c, p, e)) == Size(p) + c.increase && |Step(c, p, e).used| == Size(p) + 1)
  {
    match e
    case Get =>
      if p.free == [] {
        GrownSize(c, p);
      }
    case Release(id) =>
      UsedDistinct(p);
      var k := PutShape(p, id);
  }

  /** The size of a pool after some more blocks. */
  ghost predicate BlocksOn(from: nat, to: nat, increase: nat) {
    exists j: nat :: to == Nth(from, j, increase)
  }

  lemma OneBlockOn(from: nat, to: nat, increase: nat)
    requires BlocksOn(from + increase, to, increase)
    ensures BlocksOn(from, to, increase)
  {
    var j: nat :| to == Nth(from + increase, j, increase);
    NthAdd(from, 1, j, increase);
    assert Nth(from, 1, increase) == Nth(from, 0, increase) + increase;
    assert to == Nth(from, 1 + j, increase);
  }

  lemma {:induction false} RunSize(c: Config, p: Pool, es: seq<Event>, q: Pool)
    requires Inv(c, p) && Run(c, p, es, q)
    ensures BlocksOn(Size(p), Size(q), c.increase)
    decreases |es|
  {
    if es == [] {
      assert Size(q) == Nth(Size(p), 0, c.increase);
    } else {
      var p' := Step(c, p, es[0]);
      StepKeeps(c, p, es[0]);
      StepSize(c, p, es[0]);
      RunSize(c, p', es[1..], q);
      if Size(p') != Size(p) {
        OneBlockOn(Size(p), Size(q), c.increase);
      }
    }
  }

  ghost function HighWater(c: Config, n: nat, es: seq<Event>, p: Pool): nat
    requires Reaches(c, n, es, p)
  {
    Peak(c, Start(c, n), es, p)
  }

  lemma HighWaterExact(c: Config, n: nat, es: seq<Event>, p: Pool)
    requires Sane(c) && Reaches(c, n, es, p)
    ensures Inv(c, p) && HighWater(c, n, es, p) <= Size(p) && FirstSize(c, n) <= Size(p)
    ensures Size(p) == FirstSize(c, n) || Size(p) < HighWater(c, n, es, p) + c.increase
    ensures BlocksOn(FirstSize(c, n), Size(p), c.increase)
  {
    StartSize(c, n);
    RunKeeps(c, Start(c, n), es, p);
    PeakExact(c, Start(c, n), es, p);
    RunSize(c, Start(c, n), es, p);
  }

  // ---------------------------------------------------------------- the two pools

  const PETS: Config := Config(0x0000_0000, 0x5000_0000, 2, 1000)
  const ITEMS: Config := Config(0x5000_0001, 0x9000_0000, 3, 1000)
  const FIRST_PETS: nat := 25000
  const FIRST_ITEMS: nat := 20000

  lemma PetId(k: nat)
    ensures Id(PETS, k) == 2 * k
  {
    NthMul(0, k, 2);
  }

  lemma ItemId(k: nat)
    ensures Id(ITEMS, k) == 0x5000_0001 + 3 * k
  {
    NthMul(0x5000_0001, k, 3);
  }

  lemma PetsGrow(n: nat)
    requires n <= 1342176000
    ensures Grows(PETS, n) <==> n < 1342175280
  {
    PetId(n);
  }

  lemma {:induction false} PetsFinal(n: nat)
    requires n <= 1342176000 && n % 1000 == 0
    ensures Final(PETS, n) == 1342176000
    decreases 1342176000 - n
  {
    PetsGrow(n);
    if n < 1342176000 {
      PetsFinal(n + 1000);
    }
  }

  lemma ItemsGrow(n: nat)
    requires n <= 984263000
    ensures Grows(ITEMS, n) <==> n <= 984262338
  {
    ItemId(n);
  }

  lemma {:induction false} ItemsFinal(n: nat)
    requires n <= 984263000 && n % 1000 == 0
    ensures Final(ITEMS, n) == 984263000
    decreases 984263000 - n
  {
    ItemsGrow(n);
    if n < 984263000 {
      ItemsFinal(n + 1000);
    }
  }

  /** Neither pool stays in its range: some run of each hands out IDs past its end. */
  lemma PoolsPassTheirEnds()
    ensures !LastBelow(PETS, FIRST_PETS) && !LastBelow(ITEMS, FIRST_ITEMS)
    ensures exists es, p :: Reaches(PETS, FIRST_PETS, es, p) && !BelowEnd(PETS, p)
    ensures exists es, p :: Reaches(ITEMS, FIRST_ITEMS, es, p) && !BelowEnd(ITEMS, p)
  {
    PetsFinal(FIRST_PETS);
    ItemsFinal(FIRST_ITEMS);
    PetId(1342175999);
    ItemId(984262999);
    var es, p := RunPasses(PETS, FIRST_PETS);
    var fs, q := RunPasses(ITEMS, FIRST_ITEMS);
  }

  ghost predicate Apart(p: Pool, q: Pool) {
    forall x :: x in p.used + p.free ==> x !in q.used + q.free
  }

  /** The first even number among the items is item 1, and it is pet 671088642. */
  lemma ApartSizes(p: Pool, q: Pool)
    requires Inv(PETS, p) && Inv(ITEMS, q) && Size(q) >= 2
    ensures Apart(p, q) <==> Size(p) <= 671088642
  {
    var x := 0x5000_0004;
    PetId(671088642);
    ItemId(1);
    if Size(p) > 671088642 {
      assert Issued(PETS, Size(p), Id(PETS, 671088642)) && Issued(ITEMS, Size(q), Id(ITEMS, 1));
      assert x in p.used + p.free && x in q.used + q.free;
    } else {
      forall y | y in p.used + p.free ensures y !in q.used + q.free {
        var k: nat :| k < Size(p) && y == Id(PETS, k);
        PetId(k);
        if y in q.used + q.free {
          var j: nat :| j < Size(q) && y == Id(ITEMS, j);
          ItemId(j);
        }
      }
    }
  }

  lemma PetSizes(es: seq<Event>, p: Pool)
    requires Reaches(PETS, FIRST_PETS, es, p)
    ensures Inv(PETS, p) && Size(p) % 1000 == 0 && Size(p) >= FIRST_PETS
    ensures HighWater(PETS, FIRST_PETS, es, p) <= 671088000 <==> Size(p) <= 671088000
    ensures Size(p) <= 671088642 <==> Size(p) <= 671088000
  {
    HighWaterExact(PETS, FIRST_PETS, es, p);
    var j: nat :| Size(p) == Nth(FIRST_PETS, j, 1000);
    NthMul(FIRST_PETS, j, 1000);
  }

  /** Main result: whatever both pools have done, no pet ID is an item ID if and only if there were
      never more than 671088000 pet IDs in use at once. */
  lemma PoolsApartExact(es: seq<Event>, p: Pool, fs: seq<Event>, q: Pool)
    requires Reaches(PETS, FIRST_PETS, es, p) && Reaches(ITEMS, FIRST_ITEMS, fs, q)
    ensures Apart(p, q) <==> HighWater(PETS, FIRST_PETS, es, p) <= 671088000
  {
    PetSizes(es, p);
    HighWaterExact(ITEMS, FIRST_ITEMS, fs, q);
    ApartSizes(p, q);
  }

  /** And the same number bounds the pets: up to it all pet IDs are below the end, beyond it not. */
  lemma PetsBelowExact(es: seq<Event>, p: Pool)
    requires Reaches(PETS, FIRST_PETS, es, p)
    ensures BelowEnd(PETS, p) <==> HighWater(PETS, FIRST_PETS, es, p) <= 671088000
  {
    PetSizes(es, p);
    BelowExact(PETS, p);
    PetId(Size(p) - 1);
  }

  lemma InUse(c: Config, p: Pool, k: nat)
    requires Inv(c, p) && p.free == [] && k < Size(p)
    ensures Id(c, k) in p.used
  {
    assert Issued(c, Size(p), Id(c, k));
    Neutral(p.used);
  }

  lemma PetInUse() returns (es: seq<Event>, p: Pool)
    ensures Reaches(PETS, FIRST_PETS, es, p) && 0x5000_0004 in p.used
  {
    StartSize(PETS, FIRST_PETS);
    PetsFinal(FIRST_PETS);
    es, p := AllInUse(PETS, Start(PETS, FIRST_PETS));
    InUse(PETS, p, 671088642);
    PetId(671088642);
  }

  lemma ItemInUse() returns (es: seq<Event>, p: Pool)
    ensures Reaches(ITEMS, FIRST_ITEMS, es, p) && 0x5000_0004 in p.used
  {
    StartSize(ITEMS, FIRST_ITEMS);
    ItemsFinal(FIRST_ITEMS);
    es, p := AllInUse(ITEMS, Start(ITEMS, FIRST_ITEMS));
    InUse(ITEMS, p, 1);
    ItemId(1);
  }

  /** There are runs in which one ID is in use as a pet and as an item. */
  lemma PetIsItem()
    ensures exists es, p, fs, q :: Reaches(PETS, FIRST_PETS, es, p) && Reaches(ITEMS, FIRST_ITEMS, fs, q)
              && 0x5000_0004 in p.used && 0x5000_0004 in q.used
  {
    var es, p := PetInUse();
    var fs, q := ItemInUse();
  }
}
