/** IDCtrl: the doubly linked list of ID nodes with its cursor, and the allocator over it. */
module IdCtrl {

  import opened Seqs
  import opened IdPool

  class IDNode {
    var pPrev: IDNode?
    var pNext: IDNode?
    var dwID: nat

    constructor (id: nat)
      ensures dwID == id
    {
      dwID := id;
      pPrev, pNext := null, null;
    }
  }

  ghost function NodeAt(nodes: seq<IDNode>, i: int): IDNode? {
    if 0 <= i < |nodes| then nodes[i] else null
  }

  /** The node at place i, and its neighbours, once the node at place k is out. */
  lemma DropAt(s: seq<IDNode>, k: nat, i: nat)
    requires k < |s| && i + 1 < |s|
    ensures var r, j := s[..k] + s[k + 1..], if i < k then i else i + 1;
            && r[i] == s[j]
            && NodeAt(r, i + 1) == (if j + 1 == k then NodeAt(s, k + 1) else NodeAt(s, j + 1))
            && NodeAt(r, i - 1) == (if j - 1 == k then NodeAt(s, k - 1) else NodeAt(s, j - 1))
  {
  }

  lemma DropEnds(s: seq<IDNode>, k: nat, cut: nat)
    requires k < cut <= |s|
    ensures var r := s[..k] + s[k + 1..];
            && NodeAt(r, 0) == NodeAt(s, if k == 0 then 1 else 0)
            && NodeAt(r, |r| - 1) == NodeAt(s, if k == |s| - 1 then k - 1 else |s| - 1)
            && NodeAt(r, cut - 1) == NodeAt(s, cut)
  {
  }

  lemma DropApart(s: seq<IDNode>, k: nat)
    requires k < |s| && forall i, j :: 0 <= i < j < |s| ==> s[i] != s[j]
    ensures var r := s[..k] + s[k + 1..];
            s[k] !in r && forall i, j :: 0 <= i < j < |r| ==> r[i] != r[j]
  {
    var r := s[..k] + s[k + 1..];
    assert forall i :: 0 <= i < |r| ==> r[i] == s[if i < k then i else i + 1];
  }

  /** Nodes before the cursor are in use, nodes from the cursor on are free. */
  class CLinkedList {
    var pHead: IDNode?
    var pTail: IDNode?
    var pCurPosition: IDNode?
    ghost var nodes: seq<IDNode>
    ghost var ids: seq<nat>
    ghost var cut: nat

    ghost function At(i: int): IDNode?
      reads this
    {
      NodeAt(nodes, i)
    }

    ghost predicate LinkedAt(i: nat)
      requires i < |nodes| == |ids|
      reads this, nodes[i]
    {
      nodes[i].pNext == At(i + 1) && nodes[i].pPrev == At(i - 1) && nodes[i].dwID == ids[i]
    }

    ghost predicate Apart()
      reads this
    {
      forall i, j :: 0 <= i < j < |nodes| ==> nodes[i] != nodes[j]
    }

    ghost predicate Valid()
      reads this, nodes
    {
      && |ids| == |nodes| && cut <= |nodes|
      && pHead == At(0) && pTail == At(|nodes| - 1) && pCurPosition == At(cut)
      && Apart()
      && forall i {:trigger LinkedAt(i)} :: 0 <= i < |nodes| ==> LinkedAt(i)
    }

    constructor ()
      ensures Valid() && nodes == [] && ids == [] && cut == 0
    {
      pHead, pTail, pCurPosition := null, null, null;
      nodes, ids, cut := [], [], 0;
    }

    method GetNext() returns (pCur: IDNode?)
      requires Valid()
      modifies this`pCurPosition, this`cut
      ensures Valid() && pCur == old(pCurPosition)
      ensures if pCur == null then cut == old(cut) == |nodes|
              else cut == old(cut) + 1 <= |nodes| && pCur == nodes[cut - 1] && pCur.dwID == ids[cut - 1]
    {
      if pCurPosition == null {
        return null;
      }
      pCur := pCurPosition;
      assert LinkedAt(cut);
      pCurPosition := pCurPosition.pNext;
      cut := cut + 1;
      assert forall i :: 0 <= i < |nodes| ==> old(LinkedAt(i)) ==> LinkedAt(i);
    }

    method Append(pNode: IDNode)
      requires Valid() && pNode !in nodes
      modifies this, pNode, nodes
      ensures Valid()
      ensures nodes == old(nodes) + [pNode] && ids == old(ids) + [pNode.dwID] && cut == old(cut)
      ensures pNode.dwID == old(pNode.dwID)
    {
      ghost var n := |nodes|;
      assert n > 0 ==> LinkedAt(n - 1);
      pNode.pPrev := pTail;
      pNode.pNext := null;
      if pTail != null {
        pTail.pNext := pNode;
      }
      pTail := pNode;
      if pHead == null {
        pHead := pNode;
      }
      if pCurPosition == null {
        pCurPosition := pNode;
      }
      nodes, ids := nodes + [pNode], ids + [pNode.dwID];
      forall i | 0 <= i < |nodes| ensures LinkedAt(i) {
        if i < n {
          assert old(LinkedAt(i));
        }
      }
    }

    /** Node i when the pointers go around node k. */
    ghost predicate AroundAt(i: nat, k: nat)
      requires i < |nodes| == |ids|
      reads this, nodes[i]
    {
      && nodes[i].dwID == ids[i]
      && nodes[i].pNext == (if i + 1 == k then At(k + 1) else At(i + 1))
      && nodes[i].pPrev == (if i - 1 == k then At(k - 1) else At(i - 1))
    }

    /** The pointers to the node k go to its neighbours. */
    method Bypass(pNode: IDNode, ghost k: nat)
      requires Valid() && k < cut && nodes[k] == pNode
      modifies this`pHead, this`pTail, nodes
      ensures pNode.dwID == old(pNode.dwID) == ids[k] && pHead == At(if k == 0 then 1 else 0)
      ensures pTail == At(if k == |nodes| - 1 then k - 1 else |nodes| - 1)
      ensures forall i {:trigger AroundAt(i, k)} :: 0 <= i < |nodes| && i != k ==> AroundAt(i, k)
    {
      assert LinkedAt(k);
      assert k > 0 ==> LinkedAt(k - 1);
      assert k + 1 < |nodes| ==> LinkedAt(k + 1);
      var pPrev := pNode.pPrev;
      var pNext := pNode.pNext;
      if pPrev != null {
        pPrev.pNext := pNext;
      } else {
        pHead := pNext;
      }
      if pNext != null {
        pNext.pPrev := pPrev;
      } else {
        pTail := pPrev;
      }
      forall i | 0 <= i < |nodes| && i != k ensures AroundAt(i, k) {
        assert old(LinkedAt(i));
      }
    }

    /** The first half of Remove: the node k leaves the list. */
    method Unlink(pNode: IDNode, ghost k: nat)
      requires Valid() && k < cut && nodes[k] == pNode
      modifies this, nodes
      ensures Valid() && pNode.dwID == old(pNode.dwID) == old(ids[k])
      ensures nodes == old(nodes[..k] + nodes[k + 1..]) && ids == old(ids[..k] + ids[k + 1..])
      ensures cut == old(cut) - 1 && pNode !in nodes
    {
      DropApart(nodes, k);
      Bypass(pNode, k);
      Forget(k);
    }

    /** The list without the node k, around which the pointers go. */
    ghost method Forget(k: nat)
      requires |ids| == |nodes| && k < cut <= |nodes| && Apart() && pCurPosition == At(cut)
      requires pHead == At(if k == 0 then 1 else 0) && pTail == At(if k == |nodes| - 1 then k - 1 else |nodes| - 1)
      requires forall i {:trigger AroundAt(i, k)} :: 0 <= i < |nodes| && i != k ==> AroundAt(i, k)
      modifies this`nodes, this`ids, this`cut
      ensures Valid() && cut == old(cut) - 1
      ensures nodes == old(nodes[..k] + nodes[k + 1..]) && ids == old(ids[..k] + ids[k + 1..])
    {
      ghost var was := nodes;
      DropApart(nodes, k);
      DropEnds(nodes, k, cut);
      nodes, ids, cut := nodes[..k] + nodes[k + 1..], ids[..k] + ids[k + 1..], cut - 1;
      forall i | 0 <= i < |nodes| ensures LinkedAt(i) {
        DropAt(was, k, i);
        assert old(AroundAt(if i < k then i else i + 1, k));
      }
    }

    /** A node that is in use becomes the last free one. */
    method Remove(pNode: IDNode) returns (ghost k: nat)
      requires Valid() && pNode in nodes[..cut]
      modifies this, nodes
      ensures Valid()
      ensures k < old(cut) && old(nodes[k]) == pNode && old(ids[k]) == old(pNode.dwID)
      ensures nodes == old(nodes[..k] + nodes[k + 1..]) + [pNode]
      ensures ids == old(ids)[..k] + old(ids)[k + 1..] + [old(ids)[k]]
      ensures cut == old(cut) - 1
    {
      k :| 0 <= k < cut && nodes[k] == pNode;
      Unlink(pNode, k);
      Append(pNode);
    }
  }

  class CObjID {
    var pLinkList: CLinkedList
    var m_dwIDStart: nat
    var m_dwIDNumMax: nat
    var m_dwStep: nat
    var m_dwIncrease: nat
    var m_dwCount: nat
    ghost const config: Config

    ghost function Abs(): Pool
      requires pLinkList.cut <= |pLinkList.ids|
      reads this, pLinkList
    {
      PoolOf(pLinkList.ids, pLinkList.cut, m_dwIDStart, m_dwCount)
    }

    ghost predicate Valid()
      reads this, pLinkList, pLinkList.nodes
    {
      && pLinkList.Valid()
      && Sane(config)
      && m_dwIDNumMax == (config.end - config.start) % WORD
      && m_dwStep == config.step && m_dwIncrease == config.increase
      && m_dwIDStart < WORD
    }

    constructor (dwIDStart: nat, dwIDEnd: nat, dwStep: nat, dwIDInitNum: nat, dwIncrease: nat)
      requires Sane(Config(dwIDStart, dwIDEnd, dwStep, dwIncrease)) && dwIDInitNum * dwStep < WORD
      ensures Valid() && fresh(pLinkList) && config == Config(dwIDStart, dwIDEnd, dwStep, dwIncrease)
      ensures Abs() == Start(config, dwIDInitNum)
    {
      m_dwIDStart, m_dwIDNumMax, m_dwStep := dwIDStart, (dwIDEnd - dwIDStart) % WORD, dwStep;
      m_dwIncrease := dwIncrease;
      config := Config(dwIDStart, dwIDEnd, dwStep, dwIncrease);
      pLinkList := new CLinkedList();
      new;
      Resize(dwIDInitNum, dwStep);
      m_dwCount := 0;
    }

    /** One turn of the loop of Resize: a new node behind all others. */
    method AddNode(id: nat)
      requires pLinkList.Valid()
      modifies pLinkList, pLinkList.nodes
      ensures pLinkList.Valid() && pLinkList.cut == old(pLinkList.cut)
      ensures pLinkList.ids == old(pLinkList.ids) + [id]
      ensures |pLinkList.nodes| == |old(pLinkList.nodes)| + 1 && old(pLinkList.nodes) <= pLinkList.nodes
      ensures fresh(pLinkList.nodes[|old(pLinkList.nodes)|])
    {
      var pNode := new IDNode(id);
      pLinkList.Append(pNode);
    }

    /** The loop of Resize; n is the number of its turns. */
    method AddBlock(dwEnd: nat, dwStep: nat, ghost n: nat)
      requires pLinkList.Valid() && (n > 0 ==> dwStep > 0)
      requires if n == 0 then dwEnd <= m_dwIDStart else dwEnd == Nth(m_dwIDStart, n, dwStep) < WORD
      modifies this`m_dwIDStart, pLinkList, pLinkList.nodes
      ensures pLinkList.Valid() && pLinkList.cut == old(pLinkList.cut)
      ensures pLinkList.ids == old(pLinkList.ids) + Block(old(m_dwIDStart), n, dwStep)
      ensures m_dwIDStart == Nth(old(m_dwIDStart), n, dwStep)
      ensures old(pLinkList.nodes) <= pLinkList.nodes
      ensures forall i :: |old(pLinkList.nodes)| <= i < |pLinkList.nodes| ==> fresh(pLinkList.nodes[i])
    {
      ghost var k: nat, from := 0, m_dwIDStart;
      var dwI := m_dwIDStart;
      while dwI < dwEnd
        invariant pLinkList == old(pLinkList)
        invariant pLinkList.Valid() && pLinkList.cut == old(pLinkList.cut)
        invariant dwI == Nth(from, k, dwStep) && k <= n
        invariant pLinkList.ids == old(pLinkList.ids) + Block(from, k, dwStep)
        invariant old(pLinkList.nodes) <= pLinkList.nodes
        invariant forall i :: |old(pLinkList.nodes)| <= i < |pLinkList.nodes| ==> fresh(pLinkList.nodes[i])
        decreases n - k
      {
        NthBelow(from, k + 1, n, dwStep);
        BlockOn(old(pLinkList.ids), from, k, dwStep);
        AddNode(dwI);
        dwI := (dwI + dwStep) % WORD;
        k := k + 1;
      }
      if k < n {
        NthGrows(from, k, n, dwStep);
      }
      m_dwIDStart := dwI;
    }

    method Resize(dwNum: nat, dwStep: nat)
      requires pLinkList.Valid() && dwNum * dwStep < WORD && m_dwIDStart < WORD
      modifies this`m_dwIDStart, pLinkList, pLinkList.nodes
      ensures pLinkList.Valid() && pLinkList.cut == old(pLinkList.cut)
      ensures Abs() == IdPool.Resize(old(Abs()), dwNum, dwStep)
      ensures old(pLinkList.nodes) <= pLinkList.nodes
      ensures forall i :: |old(pLinkList.nodes)| <= i < |pLinkList.nodes| ==> fresh(pLinkList.nodes[i])
    {
      var dwEnd := (dwNum * dwStep + m_dwIDStart) % WORD;
      ghost var n := Turns(dwNum, dwStep, m_dwIDStart);
      BlockSplit(pLinkList.ids, pLinkList.cut, m_dwIDStart, m_dwCount, dwNum, dwStep);
      AddBlock(dwEnd, dwStep, n);
    }

    /** The growth branch of GetNext: the check, and a new block when it allows one. */
    method Grow() returns (full: bool)
      requires Valid() && Abs().free == []
      modifies this`m_dwIDStart, pLinkList, pLinkList.nodes
      ensures Valid() && full == Full(config, old(Abs()))
      ensures Abs() == Grown(config, old(Abs()))
    {
      full := (m_dwCount + m_dwIncrease * m_dwStep) % WORD >= m_dwIDNumMax;
      if !full {
        Resize(m_dwIncrease, m_dwStep);
      }
    }

    /** The node at the cursor of the list, counted. */
    method Advance() returns (pNode: IDNode?)
      requires Valid()
      modifies this`m_dwCount, pLinkList`pCurPosition, pLinkList`cut
      ensures Valid() && Abs() == Take(old(Abs()))
      ensures match Result(old(Abs()))
              case None => pNode == null
              case Some(id) => pNode != null && pNode.dwID == id && pNode in pLinkList.nodes[..pLinkList.cut]
    {
      pNode := pLinkList.GetNext();
      if pNode != null {
        TakeSplit(pLinkList.ids, pLinkList.cut - 1, m_dwIDStart, m_dwCount);
        m_dwCount := (m_dwCount + 1) % WORD;
      }
    }

    method GetNext() returns (pNode: IDNode?)
      requires Valid()
      modifies this`m_dwIDStart, this`m_dwCount, pLinkList, pLinkList.nodes
      ensures Valid() && Abs() == Step(config, old(Abs()), Get)
      ensures match Result(Grown(config, old(Abs())))
              case None => pNode == null
              case Some(id) => pNode != null && pNode.dwID == id && pNode in pLinkList.nodes[..pLinkList.cut]
    {
      pNode := Advance();
      if pNode == null {
        var full := Grow();
        if full {
          return null;
        }
        pNode := Advance();
      }
    }

    method Remove(pNode: IDNode)
      requires Valid() && Inv(config, Abs()) && pNode in pLinkList.nodes[..pLinkList.cut]
      modifies this`m_dwCount, pLinkList, pLinkList.nodes
      ensures Valid() && pLinkList == old(pLinkList)
      ensures old(pNode.dwID) in old(Abs()).used && Abs() == Step(config, old(Abs()), Release(old(pNode.dwID)))
    {
      ghost var ids, cut := pLinkList.ids, pLinkList.cut;
      Halves(ids, cut);
      ghost var k := pLinkList.Remove(pNode);
      PutSplit(ids, cut, m_dwIDStart, m_dwCount, k);
      m_dwCount := (m_dwCount - 1) % WORD;
    }
  }
}
