/**
 AddRef, Release, construction and D3DAutoPtr assignment on the object graph.

 Each operation keeps the invariant, and its lemma says which tokens and pointers it takes and gives back.
 */
module ObjectOps {
  import opened Options
  import opened ObjectGraph
  import opened GraphCounting
  import opened GraphDrops

  /** decRef on both counts of `i`: an early return while the interface count is nonzero, otherwise
      destruction exactly when the object count is zero as well. */
  function DecInterface(g: Graph, i: Id): Graph
    requires i in g.nodes && g.nodes[i].iface > 0 && g.nodes[i].obj > 0
  {
    var n := g.nodes[i].(iface := g.nodes[i].iface - 1, obj := g.nodes[i].obj - 1);
    var h := g.(nodes := g.nodes[i := n]);
    if n.iface > 0 then h
    else if n.obj == 0 then DropAll(Erase(h, i), Somes(n.slots))
    else h
  }

  function IncBoth(g: Graph, i: Id): Graph
    requires i in g.nodes
  {
    g.(nodes := g.nodes[i := g.nodes[i].(iface := g.nodes[i].iface + 1, obj := g.nodes[i].obj + 1)])
  }

  /** Every ancestor that AddRef has to touch is still alive: the chain of parents up to and including
      the first one whose interface count is nonzero. */
  predicate Revivable(g: Graph, i: Id) {
    && i in g.nodes
    && (g.nodes[i].iface == 0 && g.nodes[i].parent.Some? ==>
          && g.nodes[i].parent.value < i
          && Revivable(g, g.nodes[i].parent.value))
  }

  /** D3DBase::AddRef. An object revived from interface count 0 references its parent again. */
  function AddRef(g: Graph, i: Id): Graph
    requires Revivable(g, i)
    decreases i
  {
    var h := IncBoth(g, i);
    if g.nodes[i].iface == 0 && g.nodes[i].parent.Some? then
      RevivableAfterInc(g, g.nodes[i].parent.value, i);
      AddRef(h, g.nodes[i].parent.value)
    else h
  }

  /** AddRef as called on any object. A member passes the call on to its container. */
  function CallAddRef(g: Graph, i: Id): Graph
    requires Revivable(g, Target(g, i))
  {
    AddRef(g, Target(g, i))
  }

  lemma RevivableAfterInc(g: Graph, p: Id, i: Id)
    requires i in g.nodes && p < i && Revivable(g, p)
    ensures Revivable(IncBoth(g, i), p)
  {
  }

  // ---------------------------------------------------------------------------------------------
  // Giving up an interface reference
  // ---------------------------------------------------------------------------------------------

  /** The token an object's parent is owed once the object's own interface count has just reached zero. */
  function ParentToken(g: Graph, i: Id): multiset<Id>
    requires i in g.nodes
  {
    if g.nodes[i].iface == 1 && g.nodes[i].parent.Some? then multiset{g.nodes[i].parent.value} else multiset{}
  }

  function LowerInterface(g: Graph, i: Id): Graph
    requires i in g.nodes && g.nodes[i].iface > 0
  {
    g.(nodes := g.nodes[i := g.nodes[i].(iface := g.nodes[i].iface - 1)])
  }

  /** decRef on both counts amounts to giving up the interface reference and then dropping one pointer: the
      early return never skips a destruction, because the object count is never below the interface count. */
  lemma DecInterfaceIsDrop(g: Graph, i: Id)
    requires i in g.nodes && 0 < g.nodes[i].iface <= g.nodes[i].obj
    ensures DecInterface(g, i) == DropAll(LowerInterface(g, i), [i])
  {
    var h := LowerInterface(g, i);
    var Dropped(h1, left) := DropOne(h, [i]);
    var n := g.nodes[i].(iface := g.nodes[i].iface - 1, obj := g.nodes[i].obj - 1);
    assert [i][1..] == [];
    if n.obj == 0 {
      assert Somes(n.slots) + [] == Somes(n.slots);
      assert Erase(g.(nodes := g.nodes[i := n]), i) == Erase(h, i) by {
        assert g.nodes[i := n] - {i} == h.nodes - {i};
      }
    } else {
      assert h1.nodes == g.nodes[i := n];
      assert DropAll(h1, []) == h1;
    }
  }

  lemma LowerInterfaceKeepsInv(g: Graph, ext: multiset<Id>, i: Id)
    requires Inv(g, ext, multiset{}) && i in ext
    ensures i in g.nodes && 0 < g.nodes[i].iface <= g.nodes[i].obj
    ensures Inv(LowerInterface(g, i), ext - multiset{i} + ParentToken(g, i), multiset{i})
  {
    assert CountsOk(g.nodes, ext, multiset{}, i);
    assert LinksOk(g.nodes, i);
    var n := g.nodes[i].(iface := g.nodes[i].iface - 1);
    var nodes := g.nodes[i := n];
    var ext' := ext - multiset{i} + ParentToken(g, i);
    forall j | j in nodes
      ensures CountsOk(nodes, ext', multiset{i}, j)
    {
      assert CountsOk(g.nodes, ext, multiset{}, j);
      LoweredCounts(g, ext, i, j);
    }
    forall j | j in nodes
      ensures LinksOk(nodes, j)
    {
      assert LinksOk(g.nodes, j);
    }
    SameShapeKeepsInv(g, i, n);
  }

  lemma LoweredCounts(g: Graph, ext: multiset<Id>, i: Id, j: Id)
    requires i in g.nodes && j in g.nodes && i in ext && g.nodes[i].iface > 0 && g.nodes[i].parent != Some(i)
    requires CountsOk(g.nodes, ext, multiset{}, j)
    ensures CountsOk(LowerInterface(g, i).nodes, ext - multiset{i} + ParentToken(g, i), multiset{i}, j)
  {
    var n := g.nodes[i].(iface := g.nodes[i].iface - 1);
    HoldersSameSlots(g.nodes, i, n, j);
    if n.iface > 0 || g.nodes[i].parent != Some(j) {
      assert Kids(g.nodes[i := n], j) == Kids(g.nodes, j);
    } else {
      assert Kids(g.nodes, j) == Kids(g.nodes[i := n], j) + {i};
    }
  }

  /** Giving up one interface token: the counts stay exact, and when the interface count reaches zero the
      token the object held on its parent becomes the caller's to release. */
  lemma DecInterfaceKeepsInv(g: Graph, ext: multiset<Id>, i: Id)
    requires Inv(g, ext, multiset{}) && i in ext
    ensures i in g.nodes && 0 < g.nodes[i].iface <= g.nodes[i].obj
    ensures Inv(DecInterface(g, i), ext - multiset{i} + ParentToken(g, i), multiset{})
    ensures Shrunk(LowerInterface(g, i), DecInterface(g, i))
    ensures forall j | j in g.nodes && LowerInterface(g, i).nodes[j].iface > 0 :: j in DecInterface(g, i).nodes
  {
    LowerInterfaceKeepsInv(g, ext, i);
    DecInterfaceIsDrop(g, i);
    var ext' := ext - multiset{i} + ParentToken(g, i);
    assert multiset([i]) + multiset{} == multiset{i};
    DropAllKeepsInv(LowerInterface(g, i), ext', [i], multiset{});
    DropAllShrinks(LowerInterface(g, i), ext', [i], multiset{});
  }

  // ---------------------------------------------------------------------------------------------
  // Taking an interface reference
  // ---------------------------------------------------------------------------------------------

  /** A reference on an object that already holds its parent, or has none. */
  lemma IncLiveKeepsInv(g: Graph, ext: multiset<Id>, i: Id)
    requires i in g.nodes && Inv(g, ext, multiset{})
    requires g.nodes[i].iface > 0 || g.nodes[i].parent.None?
    ensures Inv(IncBoth(g, i), ext + multiset{i}, multiset{})
  {
    hide CountInv, MemberInv, LogInv;
    IncLiveKeepsCounts(g.nodes, ext, i);
    SameShapeKeepsInv(g, i, g.nodes[i].(iface := g.nodes[i].iface + 1, obj := g.nodes[i].obj + 1));
  }

  lemma IncLiveKeepsCounts(nodes: map<Id, Node>, ext: multiset<Id>, i: Id)
    requires i in nodes && CountInv(nodes, ext, multiset{})
    requires nodes[i].iface > 0 || nodes[i].parent.None?
    ensures CountInv(nodes[i := nodes[i].(iface := nodes[i].iface + 1, obj := nodes[i].obj + 1)], ext + multiset{i}, multiset{})
  {
    var n := nodes[i].(iface := nodes[i].iface + 1, obj := nodes[i].obj + 1);
    var after := nodes[i := n];
    forall j | j in after
      ensures CountsOk(after, ext + multiset{i}, multiset{}, j) && LinksOk(after, j)
    {
      assert CountsOk(nodes, ext, multiset{}, j);
      assert LinksOk(nodes, j);
      HoldersSameSlots(nodes, i, n, j);
      assert Kids(after, j) == Kids(nodes, j);
    }
  }

  /** A reference that revives an object: the token already taken on its parent becomes the object's own. */
  lemma IncRevivedKeepsInv(g: Graph, ext: multiset<Id>, i: Id, p: Id)
    requires i in g.nodes && Inv(g, ext + multiset{p}, multiset{})
    requires g.nodes[i].iface == 0 && g.nodes[i].parent == Some(p)
    ensures Inv(IncBoth(g, i), ext + multiset{i}, multiset{})
  {
    hide CountInv, MemberInv, LogInv;
    IncRevivedKeepsCounts(g.nodes, ext, i, p);
    SameShapeKeepsInv(g, i, g.nodes[i].(iface := 1, obj := g.nodes[i].obj + 1));
  }

  lemma IncRevivedKeepsCounts(nodes: map<Id, Node>, ext: multiset<Id>, i: Id, p: Id)
    requires i in nodes && CountInv(nodes, ext + multiset{p}, multiset{})
    requires nodes[i].iface == 0 && nodes[i].parent == Some(p)
    ensures CountInv(nodes[i := nodes[i].(iface := 1, obj := nodes[i].obj + 1)], ext + multiset{i}, multiset{})
  {
    var after := nodes[i := nodes[i].(iface := 1, obj := nodes[i].obj + 1)];
    assert LinksOk(nodes, i);
    assert p in ext + multiset{p};
    forall j | j in after
      ensures CountsOk(after, ext + multiset{i}, multiset{}, j)
    {
      assert CountsOk(nodes, ext + multiset{p}, multiset{}, j);
      RevivedCounts(nodes, ext, i, p, j);
    }
    forall j | j in after
      ensures LinksOk(after, j)
    {
      assert LinksOk(nodes, j);
    }
  }

  lemma RevivedCounts(nodes: map<Id, Node>, ext: multiset<Id>, i: Id, p: Id, j: Id)
    requires i in nodes && j in nodes && p != i && CountsOk(nodes, ext + multiset{p}, multiset{}, j)
    requires nodes[i].iface == 0 && nodes[i].parent == Some(p)
    ensures CountsOk(nodes[i := nodes[i].(iface := 1, obj := nodes[i].obj + 1)], ext + multiset{i}, multiset{}, j)
  {
    var n := nodes[i].(iface := 1, obj := nodes[i].obj + 1);
    HoldersSameSlots(nodes, i, n, j);
    if j == p {
      assert Kids(nodes[i := n], j) == Kids(nodes, j) + {i};
      assert i !in Kids(nodes, j);
    } else {
      assert Kids(nodes[i := n], j) == Kids(nodes, j);
    }
  }

  /** Referencing the object first and its ancestors afterwards, as the code does, comes to the same as
      referencing the ancestors first. */
  lemma {:induction false} AddRefCommutes(g: Graph, p: Id, i: Id)
    requires i in g.nodes && p < i && Revivable(g, p)
    ensures Revivable(IncBoth(g, i), p)
    ensures i in AddRef(g, p).nodes
    ensures AddRef(IncBoth(g, i), p) == IncBoth(AddRef(g, p), i)
    ensures AddRef(g, p).nodes[i] == g.nodes[i]
    decreases p
  {
    RevivableAfterInc(g, p, i);
    var h := IncBoth(g, p);
    assert IncBoth(h, i) == IncBoth(IncBoth(g, i), p) by {
      assert IncBoth(h, i).nodes == IncBoth(IncBoth(g, i), p).nodes;
    }
    if g.nodes[p].iface == 0 && g.nodes[p].parent.Some? {
      var q := g.nodes[p].parent.value;
      RevivableAfterInc(g, q, p);
      AddRefCommutes(h, q, i);
    }
  }

  /** AddRef adds one token and keeps every count exact, also when it revives a chain of ancestors. */
  lemma {:induction false} AddRefKeepsInv(g: Graph, ext: multiset<Id>, i: Id)
    requires Inv(g, ext, multiset{}) && Revivable(g, i)
    ensures Inv(AddRef(g, i), ext + multiset{i}, multiset{})
    decreases i
  {
    if g.nodes[i].iface == 0 && g.nodes[i].parent.Some? {
      var p := g.nodes[i].parent.value;
      AddRefCommutes(g, p, i);
      AddRefKeepsInv(g, ext, p);
      IncRevivedKeepsInv(AddRef(g, p), ext, i, p);
    } else {
      IncLiveKeepsInv(g, ext, i);
    }
  }

  // ---------------------------------------------------------------------------------------------
  // Construction
  // ---------------------------------------------------------------------------------------------

  function Nones(n: nat): seq<Option<Id>> {
    seq(n, _ => None)
  }

  function AddNode(g: Graph, n: Node): Graph {
    g.(nodes := g.nodes[g.next := n], next := g.next + 1)
  }

  /** The constructor of a standalone object: counts start at zero, and onConstruct takes the first
      reference, which in turn references the parent. */
  function Create(g: Graph, parent: Option<Id>, slots: nat, children: nat): Graph
    requires parent.Some? ==> parent.value < g.next && g.next !in g.nodes && Revivable(g, parent.value)
  {
    var h := AddNode(g, Node(parent, 0, 0, Nones(slots), Nones(children)));
    if parent.Some? then
      RevivableAfterAdd(g, h.nodes[g.next], parent.value);
      AddRef(h, g.next)
    else AddRef(h, g.next)
  }

  lemma RevivableAfterAdd(g: Graph, n: Node, p: Id)
    requires p < g.next && g.next !in g.nodes && Revivable(g, p)
    ensures Revivable(AddNode(g, n), p)
  {
  }

  lemma {:induction false} AddRefSkipsNewNode(g: Graph, n: Node, p: Id)
    requires p < g.next && g.next !in g.nodes && Revivable(g, p)
    ensures Revivable(AddNode(g, n), p)
    ensures AddRef(g, p).next == g.next && g.next !in AddRef(g, p).nodes
    ensures AddRef(AddNode(g, n), p) == AddNode(AddRef(g, p), n)
    decreases p
  {
    RevivableAfterAdd(g, n, p);
    assert IncBoth(AddNode(g, n), p) == AddNode(IncBoth(g, p), n) by {
      assert IncBoth(AddNode(g, n), p).nodes == AddNode(IncBoth(g, p), n).nodes;
    }
    if g.nodes[p].iface == 0 && g.nodes[p].parent.Some? {
      var q := g.nodes[p].parent.value;
      RevivableAfterInc(g, q, p);
      AddRefSkipsNewNode(IncBoth(g, p), n, q);
    }
  }

  /** A fresh object with one reference fits into the graph once its parent has been referenced. */
  lemma AddNodeKeepsInv(g: Graph, ext: multiset<Id>, n: Node)
    requires Inv(g, ext + (if n.parent.Some? then multiset{n.parent.value} else multiset{}), multiset{})
    requires n.iface == 1 && n.obj == 1
    requires forall k | 0 <= k < |n.slots| :: n.slots[k].None?
    requires forall k | 0 <= k < |n.children| :: n.children[k].None?
    ensures Inv(AddNode(g, n), ext + multiset{g.next}, multiset{})
  {
    var was := ext + (if n.parent.Some? then multiset{n.parent.value} else multiset{});
    var i := g.next;
    var h := AddNode(g, n);
    assert !Alive(g, i);
    assert n.parent.Some? ==> n.parent.value in was && Alive(g, n.parent.value);
    forall j | j in h.nodes
      ensures CountsOk(h.nodes, ext + multiset{i}, multiset{}, j)
    {
      assert Holders(h.nodes, j) == Holders(g.nodes, j);
      if j == i {
        NewIdIsUnused(g, was);
      } else {
        assert CountsOk(g.nodes, was, multiset{}, j);
      }
      if n.parent == Some(j) {
        assert Kids(h.nodes, j) == Kids(g.nodes, j) + {i};
      } else {
        assert Kids(h.nodes, j) == Kids(g.nodes, j);
      }
    }
    forall j | j in h.nodes
      ensures LinksOk(h.nodes, j)
    {
      assert j != i ==> LinksOk(g.nodes, j);
    }
    AddNodeKeepsShape(g, n);
  }

  /** Nothing refers to an id that has not been handed out yet. */
  lemma NewIdIsUnused(g: Graph, ext: multiset<Id>)
    requires Inv(g, ext, multiset{})
    ensures g.next !in g.nodes
    ensures g.next !in ext
    ensures Kids(g.nodes, g.next) == {}
    ensures Holders(g.nodes, g.next) == {}
  {
    assert !Alive(g, g.next);
    forall j | j in g.nodes
      ensures g.nodes[j].parent != Some(g.next)
      ensures forall k | 0 <= k < |g.nodes[j].slots| :: g.nodes[j].slots[k] != Some(g.next)
    {
      assert LinksOk(g.nodes, j);
      assert Alive(g, j);
    }
  }

  lemma AddNodeKeepsShape(g: Graph, n: Node)
    requires MemberInv(g) && LogInv(g)
    requires forall k | 0 <= k < |n.children| :: n.children[k].None?
    ensures MemberInv(AddNode(g, n)) && LogInv(AddNode(g, n))
  {
    var h := AddNode(g, n);
    assert !Alive(g, g.next);
    forall j | j in h.nodes
      ensures ChildrenOk(h, j)
    {
      assert j != g.next ==> ChildrenOk(g, j);
    }
    forall m | m in h.owner
      ensures OwnerOk(h, m)
    {
      assert OwnerOk(g, m);
    }
    forall x: Id
      ensures Alive(h, x) == (Alive(g, x) || x == g.next)
    {
    }
  }

  function Referenced(g: Graph, parent: Option<Id>): Graph
    requires parent.Some? ==> Revivable(g, parent.value)
  {
    if parent.Some? then AddRef(g, parent.value) else g
  }

  /** Construction comes to the same as referencing the parent and adding an object with one reference. */
  lemma CreateIs(g: Graph, parent: Option<Id>, slots: nat, children: nat)
    requires parent.Some? ==> parent.value < g.next && Revivable(g, parent.value)
    requires g.next !in g.nodes
    ensures Referenced(g, parent).next == g.next && g.next !in Referenced(g, parent).nodes
    ensures Create(g, parent, slots, children)
         == AddNode(Referenced(g, parent), Node(parent, 1, 1, Nones(slots), Nones(children)))
  {
    var n := Node(parent, 1, 1, Nones(slots), Nones(children));
    var h := AddNode(g, Node(parent, 0, 0, Nones(slots), Nones(children)));
    assert IncBoth(h, g.next) == AddNode(g, n) by {
      assert IncBoth(h, g.next).nodes == AddNode(g, n).nodes;
    }
    if parent.Some? {
      AddRefSkipsNewNode(g, n, parent.value);
    }
  }

  /** Construction hands the caller one token on the new object. */
  lemma CreateKeepsInv(g: Graph, ext: multiset<Id>, parent: Option<Id>, slots: nat, children: nat)
    requires Inv(g, ext, multiset{})
    requires parent.Some? ==> Revivable(g, parent.value)
    ensures g.next !in g.nodes && (parent.Some? ==> parent.value < g.next)
    ensures Inv(Create(g, parent, slots, children), ext + multiset{g.next}, multiset{})
    ensures Create(g, parent, slots, children).next == g.next + 1
  {
    hide CountInv, MemberInv, LogInv, Revivable;
    NewIdIsUnused(g, ext);
    if parent.Some? {
      IdIsBelow(g, ext, parent.value);
      CreateIs(g, parent, slots, children);
      AddRefKeepsInv(g, ext, parent.value);
    } else {
      assert ext + multiset{} == ext;
      CreateIs(g, parent, slots, children);
    }
    AddNodeKeepsInv(Referenced(g, parent), ext, Node(parent, 1, 1, Nones(slots), Nones(children)));
  }

  lemma IdIsBelow(g: Graph, ext: multiset<Id>, i: Id)
    requires Inv(g, ext, multiset{}) && Revivable(g, i)
    ensures i < g.next
  {
    assert Alive(g, i);
  }

  /** setChild records a new member in the container's child vector. */
  function AttachChild(g: Graph, c: Id, at: nat): Graph
    requires c in g.nodes && at < |g.nodes[c].children|
  {
    var n := g.nodes[c].(children := g.nodes[c].children[at := Some(g.next)]);
    Graph(g.nodes[c := n], g.owner[g.next := c], g.log, g.next + 1)
  }

  /** Construction of a member: it references the container, whose counter it shares. */
  function CreateMember(g: Graph, c: Id, at: nat): Graph
    requires Revivable(g, c) && c in AddRef(g, c).nodes && at < |AddRef(g, c).nodes[c].children|
  {
    AttachChild(AddRef(g, c), c, at)
  }

  /** AddRef changes counts only. */
  lemma {:induction false} AddRefShape(g: Graph, i: Id)
    requires Revivable(g, i)
    ensures var h := AddRef(g, i);
            && h.nodes.Keys == g.nodes.Keys
            && h.owner == g.owner
            && h.log == g.log
            && h.next == g.next
            && h.nodes[i].iface == g.nodes[i].iface + 1
            && (forall j | j in g.nodes :: h.nodes[j] == g.nodes[j].(iface := h.nodes[j].iface, obj := h.nodes[j].obj)
                                           && g.nodes[j].iface <= h.nodes[j].iface
                                           && (i < j ==> h.nodes[j] == g.nodes[j]))
    decreases i
  {
    if g.nodes[i].iface == 0 && g.nodes[i].parent.Some? {
      var p := g.nodes[i].parent.value;
      RevivableAfterInc(g, p, i);
      AddRefShape(IncBoth(g, i), p);
    }
  }

  lemma SetChildKeepsCounts(nodes: map<Id, Node>, ext: multiset<Id>, c: Id, cs: seq<Option<Id>>)
    requires CountInv(nodes, ext, multiset{}) && c in nodes
    ensures CountInv(nodes[c := nodes[c].(children := cs)], ext, multiset{})
  {
    var n := nodes[c].(children := cs);
    forall j | j in nodes
      ensures CountsOk(nodes[c := n], ext, multiset{}, j) && LinksOk(nodes[c := n], j)
    {
      assert CountsOk(nodes, ext, multiset{}, j);
      assert LinksOk(nodes, j);
      KidsSame(nodes, c, n, j);
      HoldersSameSlots(nodes, c, n, j);
    }
  }

  lemma SetChildKeepsShape(g: Graph, c: Id, at: nat)
    requires MemberInv(g) && LogInv(g) && c in g.nodes
    requires at < |g.nodes[c].children| && g.nodes[c].children[at].None?
    ensures MemberInv(AttachChild(g, c, at))
    ensures LogInv(AttachChild(g, c, at))
  {
    var n := g.nodes[c].(children := g.nodes[c].children[at := Some(g.next)]);
    var h := AttachChild(g, c, at);
    assert !Alive(g, g.next);
    forall j | j in h.nodes
      ensures ChildrenOk(h, j)
    {
      assert ChildrenOk(g, j);
    }
    forall m | m in h.owner
      ensures OwnerOk(h, m)
    {
      if m == g.next {
        assert n.children[at] == Some(m);
      } else {
        SetChildKeepsOwner(g, c, at, m);
      }
    }
    forall x: Id
      ensures Alive(h, x) == (Alive(g, x) || x == g.next)
    {
    }
  }

  lemma SetChildKeepsOwner(g: Graph, c: Id, at: nat, m: Id)
    requires MemberInv(g) && m in g.owner && c in g.nodes
    requires at < |g.nodes[c].children| && g.nodes[c].children[at].None?
    ensures m !in g.nodes && g.owner[m] in g.nodes
    ensures g.owner[m] == c ==> Some(m) in g.nodes[c].children[at := Some(g.next)]
    ensures Some(m) in g.nodes[g.owner[m]].children
  {
    assert OwnerOk(g, m);
    if g.owner[m] == c {
      var cs := g.nodes[c].children;
      var k :| 0 <= k < |cs| && cs[k] == Some(m);
      assert cs[at := Some(g.next)][k] == Some(m);
    }
  }

  lemma AttachChildKeepsInv(g: Graph, ext: multiset<Id>, c: Id, at: nat)
    requires Inv(g, ext, multiset{}) && c in g.nodes
    requires at < |g.nodes[c].children| && g.nodes[c].children[at].None?
    ensures Inv(AttachChild(g, c, at), ext, multiset{})
  {
    SetChildKeepsCounts(g.nodes, ext, c, g.nodes[c].children[at := Some(g.next)]);
    SetChildKeepsShape(g, c, at);
  }

  /** A member's construction hands the caller one token on the container. */
  lemma CreateMemberKeepsInv(g: Graph, ext: multiset<Id>, c: Id, at: nat)
    requires Inv(g, ext, multiset{}) && Revivable(g, c)
    requires at < |g.nodes[c].children| && g.nodes[c].children[at].None?
    ensures c in AddRef(g, c).nodes && AddRef(g, c).nodes[c].children == g.nodes[c].children
    ensures Inv(CreateMember(g, c, at), ext + multiset{c}, multiset{})
    ensures CreateMember(g, c, at).owner == g.owner[g.next := c]
  {
    AddRefKeepsInv(g, ext, c);
    AddRefShape(g, c);
    AttachChildKeepsInv(AddRef(g, c), ext + multiset{c}, c, at);
  }

  // ---------------------------------------------------------------------------------------------
  // D3DAutoPtr slots
  // ---------------------------------------------------------------------------------------------

  predicate HasSlot(g: Graph, o: Id, k: nat) {
    o in g.nodes && k < |g.nodes[o].slots|
  }

  function SetSlot(g: Graph, o: Id, k: nat, t: Option<Id>): Graph
    requires HasSlot(g, o, k)
  {
    g.(nodes := g.nodes[o := g.nodes[o].(slots := g.nodes[o].slots[k := t])])
  }

  function IncObject(g: Graph, t: Id): Graph
    requires t in g.nodes
  {
    g.(nodes := g.nodes[t := g.nodes[t].(obj := g.nodes[t].obj + 1)])
  }

  /** D3DAutoPtr::reset: the old object is released before the new one is referenced. */
  function Reset(g: Graph, o: Id, k: nat, t: Option<Id>): Graph
    requires HasSlot(g, o, k)
  {
    var h := DropAll(SetSlot(g, o, k, None), Somes([g.nodes[o].slots[k]]));
    if t.None? || t.value !in h.nodes || !HasSlot(IncObject(h, t.value), o, k) then h  // the last two: dangling
    else SetSlot(IncObject(h, t.value), o, k, t)
  }

  /** slot = MakeD3DAutoPtr(t): the temporary references the new object first, reset(nullptr) releases the
      old one, and the swap moves the temporary's pointer into the slot. */
  function MoveAssign(g: Graph, o: Id, k: nat, t: Id): Graph
    requires HasSlot(g, o, k) && t in g.nodes
  {
    var h := Reset(IncObject(g, t), o, k, None);
    if HasSlot(h, o, k) then SetSlot(h, o, k, Some(t)) else h
  }

  /** slot = other slot: guarded against self-assignment, otherwise a reset. */
  function CopyAssign(g: Graph, o: Id, k: nat, o2: Id, k2: nat): Graph
    requires HasSlot(g, o, k) && HasSlot(g, o2, k2)
  {
    if o == o2 && k == k2 then g else Reset(g, o, k, g.nodes[o2].slots[k2])
  }

  lemma HoldersSetSlot(g: Graph, o: Id, k: nat, t: Option<Id>, x: Id)
    requires HasSlot(g, o, k)
    ensures Holders(SetSlot(g, o, k, t).nodes, x)
         == Holders(g.nodes, x) - {(o, k)} + (if t == Some(x) then {(o, k)} else {})
  {
  }

  /** Emptying a slot turns its pointer into a pending one. */
  lemma ClearSlotKeepsInv(g: Graph, ext: multiset<Id>, o: Id, k: nat, keep: multiset<Id>)
    requires Inv(g, ext, keep) && HasSlot(g, o, k)
    ensures Inv(SetSlot(g, o, k, None), ext, multiset(Somes([g.nodes[o].slots[k]])) + keep)
  {
    var was := g.nodes[o].slots[k];
    var pend := multiset(Somes([was])) + keep;
    var n := g.nodes[o].(slots := g.nodes[o].slots[k := None]);
    var nodes := g.nodes[o := n];
    assert LinksOk(g.nodes, o);
    SomesOne(was);
    forall j | j in nodes
      ensures CountsOk(nodes, ext, pend, j)
    {
      assert CountsOk(g.nodes, ext, keep, j);
      KidsSame(g.nodes, o, n, j);
      HoldersSetSlot(g, o, k, None, j);
      if was == Some(j) {
        assert (o, k) in Holders(g.nodes, j);
      } else {
        assert (o, k) !in Holders(g.nodes, j);
      }
    }
    forall j | j in nodes
      ensures LinksOk(nodes, j)
    {
      assert LinksOk(g.nodes, j);
    }
    SameShapeKeepsInv(g, o, n);
  }

  lemma FillSlotHolders(g: Graph, o: Id, k: nat, t: Id, j: Id)
    requires HasSlot(g, o, k) && g.nodes[o].slots[k].None?
    ensures |Holders(SetSlot(g, o, k, Some(t)).nodes, j)| == |Holders(g.nodes, j)| + (if j == t then 1 else 0)
  {
    HoldersSetSlot(g, o, k, Some(t), j);
    assert (o, k) !in Holders(g.nodes, j);
    assert Holders(g.nodes, j) - {(o, k)} == Holders(g.nodes, j);
  }

  lemma FillSlotCounts(g: Graph, ext: multiset<Id>, o: Id, k: nat, t: Id, keep: multiset<Id>, j: Id)
    requires HasSlot(g, o, k) && g.nodes[o].slots[k].None? && j in g.nodes
    requires CountsOk(g.nodes, ext, multiset{t} + keep, j)
    ensures CountsOk(SetSlot(g, o, k, Some(t)).nodes, ext, keep, j)
  {
    KidsSame(g.nodes, o, g.nodes[o].(slots := g.nodes[o].slots[k := Some(t)]), j);
    FillSlotHolders(g, o, k, t, j);
  }

  /** Storing a pending pointer in an empty slot. */
  lemma FillSlotKeepsInv(g: Graph, ext: multiset<Id>, o: Id, k: nat, t: Id, keep: multiset<Id>)
    requires Inv(g, ext, multiset{t} + keep) && HasSlot(g, o, k) && g.nodes[o].slots[k].None?
    ensures Inv(SetSlot(g, o, k, Some(t)), ext, keep)
  {
    var n := g.nodes[o].(slots := g.nodes[o].slots[k := Some(t)]);
    var nodes := g.nodes[o := n];
    assert t in multiset{t} + keep;
    forall j | j in nodes
      ensures CountsOk(nodes, ext, keep, j)
    {
      assert CountsOk(g.nodes, ext, multiset{t} + keep, j);
      FillSlotCounts(g, ext, o, k, t, keep, j);
    }
    forall j | j in nodes
      ensures LinksOk(nodes, j)
    {
      assert LinksOk(g.nodes, j);
    }
    SameShapeKeepsInv(g, o, n);
  }

  lemma IncObjectKeepsInv(g: Graph, ext: multiset<Id>, t: Id, keep: multiset<Id>)
    requires Inv(g, ext, keep) && t in g.nodes
    ensures Inv(IncObject(g, t), ext, multiset{t} + keep)
  {
    var n := g.nodes[t].(obj := g.nodes[t].obj + 1);
    var nodes := g.nodes[t := n];
    forall j | j in nodes
      ensures CountsOk(nodes, ext, multiset{t} + keep, j) && LinksOk(nodes, j)
    {
      assert CountsOk(g.nodes, ext, keep, j);
      assert LinksOk(g.nodes, j);
      KidsSame(g.nodes, t, n, j);
      HoldersSameSlots(g.nodes, t, n, j);
    }
    SameShapeKeepsInv(g, t, n);
  }

  /** reset(nullptr) */
  lemma ReleaseSlotKeepsInv(g: Graph, ext: multiset<Id>, o: Id, k: nat, keep: multiset<Id>)
    requires Inv(g, ext, keep) && HasSlot(g, o, k)
    ensures Inv(Reset(g, o, k, None), ext, keep)
    ensures Shrunk(SetSlot(g, o, k, None), Reset(g, o, k, None))
    ensures forall j | j in g.nodes && g.nodes[j].iface > 0 :: j in Reset(g, o, k, None).nodes
  {
    ClearSlotKeepsInv(g, ext, o, k, keep);
    DropAllKeepsInv(SetSlot(g, o, k, None), ext, Somes([g.nodes[o].slots[k]]), keep);
    DropAllShrinks(SetSlot(g, o, k, None), ext, Somes([g.nodes[o].slots[k]]), keep);
  }

  /** Binding an object to a slot of an object that the application references: the counts stay exact even
      when the slot already held the very same object. */
  lemma MoveAssignKeepsInv(g: Graph, ext: multiset<Id>, o: Id, k: nat, t: Id)
    requires Inv(g, ext, multiset{}) && HasSlot(g, o, k) && g.nodes[o].iface > 0 && t in g.nodes
    ensures Inv(MoveAssign(g, o, k, t), ext, multiset{})
    ensures HasSlot(MoveAssign(g, o, k, t), o, k) && MoveAssign(g, o, k, t).nodes[o].slots[k] == Some(t)
  {
    IncObjectKeepsInv(g, ext, t, multiset{});
    ReleaseSlotKeepsInv(IncObject(g, t), ext, o, k, multiset{t} + multiset{});
    FillSlotKeepsInv(Reset(IncObject(g, t), o, k, None), ext, o, k, t, multiset{});
  }

  lemma SlotIsLive(g: Graph, ext: multiset<Id>, o: Id, k: nat)
    requires Inv(g, ext, multiset{}) && HasSlot(g, o, k) && g.nodes[o].slots[k].Some?
    ensures g.nodes[o].slots[k].value in g.nodes
  {
    assert LinksOk(g.nodes, o);
  }

  /** Copying a slot into another one is safe because the source slot keeps the object alive meanwhile. */
  lemma CopyAssignKeepsInv(g: Graph, ext: multiset<Id>, o: Id, k: nat, o2: Id, k2: nat)
    requires Inv(g, ext, multiset{}) && HasSlot(g, o, k) && HasSlot(g, o2, k2)
    requires g.nodes[o].iface > 0 && g.nodes[o2].iface > 0
    ensures Inv(CopyAssign(g, o, k, o2, k2), ext, multiset{})
    ensures HasSlot(CopyAssign(g, o, k, o2, k2), o, k)
    ensures CopyAssign(g, o, k, o2, k2).nodes[o].slots[k] == g.nodes[o2].slots[k2]
  {
    hide CountInv, MemberInv, LogInv, DropAll;
    if o != o2 || k != k2 {
      var t := g.nodes[o2].slots[k2];
      ReleaseSlotKeepsInv(g, ext, o, k, multiset{});
      var h := Reset(g, o, k, None);
      assert h.nodes[o2].slots[k2] == t;
      if t.Some? {
        SlotIsLive(h, ext, o2, k2);
        IncObjectKeepsInv(h, ext, t.value, multiset{});
        FillSlotKeepsInv(IncObject(h, t.value), ext, o, k, t.value, multiset{});
      }
    }
  }

  /** Resetting a slot to the object it already holds is the one unsafe use of reset: the object survives
      if and only if something else references it too. Copy assignment guards against it. */
  lemma ResetToSame(g: Graph, ext: multiset<Id>, o: Id, k: nat, t: Id)
    requires Inv(g, ext, multiset{}) && HasSlot(g, o, k) && g.nodes[o].iface > 0
    requires g.nodes[o].slots[k] == Some(t)
    ensures t in g.nodes
    ensures t in Reset(g, o, k, Some(t)).nodes <==> g.nodes[t].obj > 1
  {
    assert LinksOk(g.nodes, o);
    ClearSlotKeepsInv(g, ext, o, k, multiset{});
    var h := SetSlot(g, o, k, None);
    SomesOne(Some(t));
    var Dropped(h1, left) := DropOne(h, [t]);
    assert [t] == [t] + [] && [t][1..] == [];
    if g.nodes[t].obj > 1 {
      assert DropAll(h, [t]) == h1;
    } else {
      DropOneKeepsInv(h, ext, [t], multiset{});
      assert t !in h1.nodes;
      DropAllShrinks(h1, ext, left, multiset{});
      assert t !in DropAll(h1, left).nodes;
    }
  }
}
