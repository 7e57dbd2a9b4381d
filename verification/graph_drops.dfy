/** Dropping references keeps the invariant, shrinks the graph, and takes containers down whole. */
module GraphDrops {
  import opened Options
  import opened ObjectGraph
  import opened GraphCounting

  /** The part of the invariant that speaks of counts only survives any change of counts that moves one
      unit of `i`'s object count from `pend` into nothing. */
  lemma DecObjKeepsCounts(g: Graph, ext: multiset<Id>, t: Id, rest: multiset<Id>)
    requires CountInv(g.nodes, ext, multiset{t} + rest) && t in g.nodes && g.nodes[t].obj > 1
    ensures CountInv(g.nodes[t := g.nodes[t].(obj := g.nodes[t].obj - 1)], ext, rest)
  {
    var n := g.nodes[t].(obj := g.nodes[t].obj - 1);
    var nodes := g.nodes[t := n];
    forall i | i in nodes
      ensures CountsOk(nodes, ext, rest, i)
    {
      assert CountsOk(g.nodes, ext, multiset{t} + rest, i);
      KidsSame(g.nodes, t, n, i);
      HoldersSameSlots(g.nodes, t, n, i);
    }
    forall i | i in nodes
      ensures LinksOk(nodes, i)
    {
      assert LinksOk(g.nodes, i);
    }
  }

  /** MemberInv and LogInv read only ids, child vectors and the log. */
  lemma SameShapeKeepsInv(g: Graph, i: Id, n: Node)
    requires MemberInv(g) && LogInv(g) && i in g.nodes && n.children == g.nodes[i].children
    ensures MemberInv(g.(nodes := g.nodes[i := n])) && LogInv(g.(nodes := g.nodes[i := n]))
  {
    var h := g.(nodes := g.nodes[i := n]);
    forall j | j in h.nodes
      ensures ChildrenOk(h, j)
    {
      assert ChildrenOk(g, j);
    }
    forall m | m in h.owner
      ensures OwnerOk(h, m)
    {
      assert OwnerOk(g, m);
    }
    forall x: Id
      ensures Alive(h, x) == Alive(g, x)
    {
    }
  }

  /** Nothing refers to an object whose last reference is being dropped: no token, no child that keeps a
      reference on it, no slot, and no other pending pointer. */
  lemma LastReference(nodes: map<Id, Node>, ext: multiset<Id>, t: Id, rest: multiset<Id>)
    requires CountInv(nodes, ext, multiset{t} + rest) && t in nodes && nodes[t].obj == 1
    ensures nodes[t].iface == 0 && t !in ext && Kids(nodes, t) == {}
    ensures Holders(nodes, t) == {} && t !in rest
  {
    assert CountsOk(nodes, ext, multiset{t} + rest, t);
  }

  lemma EraseCountsOk(nodes: map<Id, Node>, ext: multiset<Id>, t: Id, rest: multiset<Id>, i: Id)
    requires t in nodes && i in nodes && i != t && nodes[t].iface == 0
    requires CountsOk(nodes, ext, multiset{t} + rest, i)
    ensures CountsOk(nodes - {t}, ext, multiset(Somes(nodes[t].slots)) + rest, i)
  {
    assert Kids(nodes - {t}, i) == Kids(nodes, i);
    HoldersErase(nodes, t, i);
  }

  lemma EraseLinksOk(nodes: map<Id, Node>, t: Id, i: Id)
    requires t in nodes && i in nodes && i != t && LinksOk(nodes, i)
    requires Kids(nodes, t) == {} && Holders(nodes, t) == {}
    ensures LinksOk(nodes - {t}, i)
  {
    assert i !in Kids(nodes, t);
    forall k | 0 <= k < |nodes[i].slots| && nodes[i].slots[k].Some?
      ensures nodes[i].slots[k].value in nodes - {t}
    {
      assert (i, k) !in Holders(nodes, t);
    }
  }

  /** The pointers an object holds lead to other live objects. */
  lemma TargetsLive(nodes: map<Id, Node>, t: Id)
    requires t in nodes && LinksOk(nodes, t) && Holders(nodes, t) == {}
    ensures forall x | x in Somes(nodes[t].slots) :: x in nodes && x != t
  {
    SomesMembers(nodes[t].slots);
    forall x | x in Somes(nodes[t].slots)
      ensures x in nodes && x != t
    {
      assert Some(x) in nodes[t].slots;
      var k :| 0 <= k < |nodes[t].slots| && nodes[t].slots[k] == Some(x);
      assert (t, k) !in Holders(nodes, t);
    }
  }

  lemma EraseKeepsCounts(nodes: map<Id, Node>, ext: multiset<Id>, t: Id, rest: multiset<Id>)
    requires CountInv(nodes, ext, multiset{t} + rest) && t in nodes && nodes[t].obj == 1
    ensures CountInv(nodes - {t}, ext, multiset(Somes(nodes[t].slots)) + rest)
  {
    LastReference(nodes, ext, t, rest);
    var targets := multiset(Somes(nodes[t].slots));
    var left := nodes - {t};
    forall i | i in left
      ensures CountsOk(left, ext, targets + rest, i)
    {
      assert CountsOk(nodes, ext, multiset{t} + rest, i);
      EraseCountsOk(nodes, ext, t, rest, i);
    }
    forall i | i in left
      ensures LinksOk(left, i)
    {
      assert LinksOk(nodes, i);
      EraseLinksOk(nodes, t, i);
    }
    assert LinksOk(nodes, t);
    TargetsLive(nodes, t);
  }

  lemma EraseKeepsMembers(g: Graph, t: Id)
    requires MemberInv(g) && t in g.nodes
    ensures MemberInv(Erase(g, t))
  {
    var h := Erase(g, t);
    forall j | j in h.nodes
      ensures ChildrenOk(h, j)
    {
      assert ChildrenOk(g, j);
    }
    forall m | m in h.owner
      ensures OwnerOk(h, m)
    {
      assert OwnerOk(g, m);
    }
  }

  /** The members of a container are exactly the ids in its child vector. */
  lemma MembersListed(g: Graph, t: Id)
    requires MemberInv(g) && t in g.nodes
    ensures Distinct(Somes(g.nodes[t].children))
    ensures forall m :: m in Somes(g.nodes[t].children) <==> m in g.owner && g.owner[m] == t
  {
    var cs := g.nodes[t].children;
    assert ChildrenOk(g, t);
    SomesMembers(cs);
    SomesDistinct(cs);
    forall m
      ensures m in Somes(cs) <==> m in g.owner && g.owner[m] == t
    {
      if m in g.owner && g.owner[m] == t {
        assert OwnerOk(g, m);
      }
      if Some(m) in cs {
        var k :| 0 <= k < |cs| && cs[k] == Some(m);
      }
    }
  }

  lemma DistinctConcat(a: seq<Id>, b: seq<Id>)
    requires Distinct(a) && Distinct(b) && forall x | x in b :: x !in a
    ensures Distinct(a + b)
  {
    forall i, j | 0 <= i < j < |a + b|
      ensures (a + b)[i] != (a + b)[j]
    {
      if i < |a| <= j {
        assert b[j - |a|] in b;
      }
    }
  }

  lemma EraseKeepsLog(g: Graph, t: Id)
    requires MemberInv(g) && LogInv(g) && t in g.nodes
    ensures LogInv(Erase(g, t))
  {
    var members := Somes(g.nodes[t].children);
    var h := Erase(g, t);
    MembersListed(g, t);
    assert Alive(g, t);
    forall m | m in members
      ensures m != t && m !in g.nodes && m !in g.log && m < g.next
    {
      assert Alive(g, m);
      assert OwnerOk(g, m);
    }
    DistinctConcat(g.log, [t]);
    DistinctConcat(g.log + [t], members);
    forall x: Id
      ensures Alive(h, x) ==> x < h.next && x !in h.log
      ensures x < h.next ==> Alive(h, x) || x in h.log
    {
      assert Alive(g, x) ==> x < g.next && x !in g.log;
      assert x in g.owner ==> OwnerOk(g, x);
    }
  }

  /** One reference dropped that is not the last. */
  lemma DecObjKeepsInv(g: Graph, ext: multiset<Id>, t: Id, rest: multiset<Id>)
    requires Inv(g, ext, multiset{t} + rest) && t in g.nodes && g.nodes[t].obj > 1
    ensures Inv(g.(nodes := g.nodes[t := g.nodes[t].(obj := g.nodes[t].obj - 1)]), ext, rest)
  {
    DecObjKeepsCounts(g, ext, t, rest);
    SameShapeKeepsInv(g, t, g.nodes[t].(obj := g.nodes[t].obj - 1));
  }

  /** The last reference dropped: the object goes, its own pointers become pending. */
  lemma EraseKeepsInv(g: Graph, ext: multiset<Id>, t: Id, rest: multiset<Id>)
    requires Inv(g, ext, multiset{t} + rest) && t in g.nodes && g.nodes[t].obj == 1
    ensures Inv(Erase(g, t), ext, multiset(Somes(g.nodes[t].slots)) + rest)
  {
    EraseKeepsCounts(g.nodes, ext, t, rest);
    EraseKeepsMembers(g, t);
    EraseKeepsLog(g, t);
  }

  lemma PendingIsLive(g: Graph, ext: multiset<Id>, t: Id, pend: multiset<Id>)
    requires Inv(g, ext, pend) && t in pend
    ensures t in g.nodes && g.nodes[t].obj > 0
  {
    assert CountsOk(g.nodes, ext, pend, t);
  }

  /** `pend` as DropOne sees it: its head, and everything else that is pending. */
  lemma PendSplit(pend: seq<Id>, keep: multiset<Id>)
    requires pend != []
    ensures multiset(pend) + keep == multiset{pend[0]} + (multiset(pend[1..]) + keep)
  {
    assert pend == [pend[0]] + pend[1..];
  }

  lemma DropOneKeepsInv(g: Graph, ext: multiset<Id>, pend: seq<Id>, keep: multiset<Id>)
    requires pend != [] && Inv(g, ext, multiset(pend) + keep)
    ensures Inv(DropOne(g, pend).graph, ext, multiset(DropOne(g, pend).pend) + keep)
    ensures pend[0] in g.nodes && g.nodes[pend[0]].obj > 0
    ensures g.nodes[pend[0]].obj == 1 ==> g.nodes[pend[0]].iface == 0
  {
    var t := pend[0];
    var rest := multiset(pend[1..]) + keep;
    PendSplit(pend, keep);
    PendingIsLive(g, ext, t, multiset(pend) + keep);
    if g.nodes[t].obj > 1 {
      DecObjKeepsInv(g, ext, t, rest);
    } else {
      EraseKeepsInv(g, ext, t, rest);
      LastReference(g.nodes, ext, t, rest);
      assert multiset(Somes(g.nodes[t].slots) + pend[1..]) + keep == multiset(Somes(g.nodes[t].slots)) + rest;
    }
  }

  /** DropAll keeps the invariant: everything in `pend` is counted down, `keep` stays pending. */
  lemma {:induction false} DropAllKeepsInv(g: Graph, ext: multiset<Id>, pend: seq<Id>, keep: multiset<Id>)
    requires Inv(g, ext, multiset(pend) + keep)
    ensures Inv(DropAll(g, pend), ext, keep)
    decreases |g.nodes|, |pend|
  {
    if pend == [] {
      assert multiset(pend) + keep == keep;
    } else {
      DropOneKeepsInv(g, ext, pend, keep);
      var Dropped(h, left) := DropOne(g, pend);
      DropAllKeepsInv(h, ext, left, keep);
    }
  }

  /** `h` is `g` after some destructions: survivors differ in their object count only, members come and go
      with their container, and the log grows. */
  ghost predicate Shrunk(g: Graph, h: Graph) {
    && h.next == g.next
    && |g.log| <= |h.log| && h.log[..|g.log|] == g.log
    && (forall j | j in h.nodes :: j in g.nodes && h.nodes[j] == g.nodes[j].(obj := h.nodes[j].obj))
    && (forall m :: m in h.owner <==> m in g.owner && (g.owner[m] in g.nodes ==> g.owner[m] in h.nodes))
    && (forall m | m in h.owner :: h.owner[m] == g.owner[m])
  }

  lemma ShrunkTrans(g: Graph, h: Graph, k: Graph)
    requires Shrunk(g, h) && Shrunk(h, k)
    ensures Shrunk(g, k)
  {
    assert k.log[..|g.log|] == k.log[..|h.log|][..|g.log|];
  }

  lemma DropOneShrinks(g: Graph, pend: seq<Id>)
    requires pend != []
    ensures Shrunk(g, DropOne(g, pend).graph)
  {
    var t := pend[0];
    if t in g.nodes && g.nodes[t].obj == 1 {
      EraseShrinks(g, t);
    }
  }

  lemma EraseShrinks(g: Graph, t: Id)
    requires t in g.nodes
    ensures Shrunk(g, Erase(g, t))
  {
  }

  /** An object with a positive interface count is never destroyed by dropping pointers. */
  lemma {:induction false} DropAllShrinks(g: Graph, ext: multiset<Id>, pend: seq<Id>, keep: multiset<Id>)
    requires Inv(g, ext, multiset(pend) + keep)
    ensures Shrunk(g, DropAll(g, pend))
    ensures forall j | j in g.nodes && g.nodes[j].iface > 0 :: j in DropAll(g, pend).nodes
    decreases |g.nodes|, |pend|
  {
    if pend != [] {
      DropOneKeepsInv(g, ext, pend, keep);
      DropOneShrinks(g, pend);
      var Dropped(h, left) := DropOne(g, pend);
      DropAllShrinks(h, ext, left, keep);
      ShrunkTrans(g, h, DropAll(h, left));
    }
  }

  /** The stretch of the log that records container `c` going down with all its members. */
  ghost predicate WentDownWhole(log: seq<Id>, c: Id, members: seq<Id>, at: nat) {
    at + 1 + |members| <= |log| && log[at..at + 1 + |members|] == [c] + members
  }

  lemma LoggedStaysWhole(before: seq<Id>, c: Id, members: seq<Id>, log: seq<Id>)
    requires before + [c] + members <= log
    ensures WentDownWhole(log, c, members, |before|)
  {
    var whole := before + [c] + members;
    assert log[..|whole|] == whole;
    assert log[|before|..|whole|] == whole[|before|..] == [c] + members;
  }

  /** A container that dies takes all its members with it in the same step: they are logged next to each
      other, with nothing in between, whichever pointer was the last one. */
  lemma {:induction false} ContainerDiesWhole(g: Graph, ext: multiset<Id>, pend: seq<Id>, keep: multiset<Id>, c: Id)
    returns (at: nat)
    requires Inv(g, ext, multiset(pend) + keep)
    requires c in g.nodes && c !in DropAll(g, pend).nodes
    ensures |g.log| <= at && WentDownWhole(DropAll(g, pend).log, c, Somes(g.nodes[c].children), at)
    decreases |g.nodes|, |pend|
  {
    DropOneKeepsInv(g, ext, pend, keep);
    var Dropped(h, left) := DropOne(g, pend);
    if c in h.nodes {
      assert h.nodes[c].children == g.nodes[c].children && |g.log| <= |h.log|;
      at := ContainerDiesWhole(h, ext, left, keep, c);
    } else {
      at := |g.log|;
      assert h == Erase(g, c);
      DropAllShrinks(h, ext, left, keep);
      assert h.log == g.log + [c] + Somes(g.nodes[c].children);
      LoggedStaysWhole(g.log, c, Somes(g.nodes[c].children), DropAll(h, left).log);
    }
  }
}
