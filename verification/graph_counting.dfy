/**
 Counting the slots and children that refer to an object.

 An object dies with all of its slots, so their pointers are counted as a sequence; what still refers to
 an object afterwards is counted as a set of positions. The lemmas connect the two, and say which updates of a
 node leave either count alone.
 */
module GraphCounting {
  import opened Options
  import opened ObjectGraph

  function Row(s: seq<Option<Id>>, i: Id, t: Id): set<(Id, nat)> {
    set k: nat | k < |s| && s[k] == Some(t) :: (i, k)
  }

  /** The slots of one object that hold `t` number as many as `t`'s occurrences among its pointers. */
  lemma {:induction false} RowSize(s: seq<Option<Id>>, i: Id, t: Id)
    ensures |Row(s, i, t)| == multiset(Somes(s))[t]
  {
    if s == [] {
      assert Row(s, i, t) == {};
    } else {
      var n := |s| - 1;
      var init := s[..n];
      RowSize(init, i, t);
      SomesSnoc(init, s[n]);
      assert s == init + [s[n]];
      if s[n] == Some(t) {
        assert Row(s, i, t) == Row(init, i, t) + {(i, n)};
        assert (i, n) !in Row(init, i, t);
      } else {
        assert Row(s, i, t) == Row(init, i, t);
      }
    }
  }

  lemma {:induction false} SomesSnoc(s: seq<Option<Id>>, x: Option<Id>)
    ensures Somes(s + [x]) == Somes(s) + (if x.Some? then [x.value] else [])
  {
    if s == [] {
      assert s + [x] == [x];
      assert [x][1..] == [];
    } else {
      SomesSnoc(s[1..], x);
      assert (s + [x])[1..] == s[1..] + [x];
    }
  }

  lemma SomesOne(x: Option<Id>)
    ensures Somes([x]) == if x.Some? then [x.value] else []
  {
    SomesSnoc([], x);
    assert [] + [x] == [x];
  }

  lemma {:induction false} SomesMembers(s: seq<Option<Id>>)
    ensures forall x :: x in Somes(s) <==> Some(x) in s
  {
    if s != [] {
      SomesMembers(s[1..]);
      assert s == [s[0]] + s[1..];
    }
  }

  lemma {:induction false} SomesDistinct(s: seq<Option<Id>>)
    requires forall j, k | 0 <= j < k < |s| :: s[j].Some? ==> s[j] != s[k]
    ensures Distinct(Somes(s))
  {
    if s != [] {
      SomesDistinct(s[1..]);
      SomesMembers(s[1..]);
      assert s[0].Some? ==> s[0] !in s[1..];
    }
  }

  lemma HoldersErase(nodes: map<Id, Node>, t: Id, x: Id)
    requires t in nodes
    ensures |Holders(nodes, x)| == |Holders(nodes - {t}, x)| + multiset(Somes(nodes[t].slots))[x]
  {
    var row := Row(nodes[t].slots, t, x);
    assert Holders(nodes, x) == Holders(nodes - {t}, x) + row;
    assert Holders(nodes - {t}, x) !! row;
    RowSize(nodes[t].slots, t, x);
  }

  /** Rewriting a node's counts leaves every slot where it was. */
  lemma HoldersSameSlots(nodes: map<Id, Node>, i: Id, n: Node, x: Id)
    requires i in nodes && n.slots == nodes[i].slots
    ensures Holders(nodes[i := n], x) == Holders(nodes, x)
  {
  }

  lemma KidsSame(nodes: map<Id, Node>, i: Id, n: Node, x: Id)
    requires i in nodes && n.parent == nodes[i].parent && (n.iface > 0 <==> nodes[i].iface > 0)
    ensures Kids(nodes[i := n], x) == Kids(nodes, x)
  {
  }
}
