/** The application's other operations keep the client's invariant. */
module ClientOps {
  import opened Options
  import opened ObjectGraph
  import opened GraphCounting
  import opened GraphDrops
  import opened ObjectOps
  import opened DeviceLifecycle
  import opened DeviceTeardown
  import opened DeviceWorld

  // ---------------------------------------------------------------------------------------------
  // Shapes of the graph operations
  // ---------------------------------------------------------------------------------------------

  /** `h` is `g` with the same objects, each with the same parent and slots; counts may differ. */
  ghost predicate SameSlots(g: Graph, h: Graph) {
    && h.nodes.Keys == g.nodes.Keys && h.next == g.next
    && (forall j | j in g.nodes :: h.nodes[j].parent == g.nodes[j].parent && h.nodes[j].slots == g.nodes[j].slots)
  }

  /** `h` is `g` with `t` in slot `k` of `o`, but for object counts and for what is gone. */
  ghost predicate Rebound(g: Graph, h: Graph, o: Id, k: nat, t: Option<Id>) {
    && h.next == g.next
    && (forall j | j in h.nodes :: j in g.nodes && |h.nodes[j].slots| == |g.nodes[j].slots|)
    && (forall j | j in h.nodes :: h.nodes[j] == g.nodes[j].(obj := h.nodes[j].obj, slots := h.nodes[j].slots))
    && (forall j, q: nat {:trigger h.nodes[j].slots[q]} | j in h.nodes && q < |h.nodes[j].slots| ::
          h.nodes[j].slots[q] == if j == o && q == k then t else g.nodes[j].slots[q])
  }

  lemma ReboundHolders(g: Graph, h: Graph, o: Id, k: nat, t: Option<Id>, x: Id)
    requires Rebound(g, h, o, k, t)
    ensures Holders(h.nodes, x) <= Holders(g.nodes, x) + (if t == Some(x) then {(o, k)} else {})
  {
  }

  lemma SameSlotsHolders(g: Graph, h: Graph, x: Id)
    requires SameSlots(g, h)
    ensures Holders(h.nodes, x) == Holders(g.nodes, x)
  {
  }

  lemma AddRefIsSameSlots(g: Graph, i: Id)
    requires Revivable(g, i)
    ensures SameSlots(g, AddRef(g, i))
  {
    AddRefShape(g, i);
  }

  lemma AddNodeHolders(g: Graph, n: Node, x: Id)
    requires g.next !in g.nodes && forall k | 0 <= k < |n.slots| :: n.slots[k].None?
    ensures Holders(AddNode(g, n).nodes, x) == Holders(g.nodes, x)
  {
  }

  /** Emptying slot `k` of `o`, with all that dies of it. */
  lemma EmptiedSlot(g: Graph, b: Graph, o: Id, k: nat)
    requires HasSlot(g, o, k) && Shrunk(SetSlot(g, o, k, None), b)
    ensures Rebound(g, b, o, k, None) && (o in b.nodes ==> HasSlot(b, o, k))
  {
    var a := SetSlot(g, o, k, None);
    forall j | j in b.nodes
      ensures j in g.nodes && b.nodes[j] == a.nodes[j].(obj := b.nodes[j].obj)
    {
    }
  }

  /** Filling the emptied slot. */
  lemma FilledSlot(g: Graph, b: Graph, o: Id, k: nat, t: Option<Id>)
    requires Rebound(g, b, o, k, None) && HasSlot(b, o, k)
    ensures Rebound(g, SetSlot(b, o, k, t), o, k, t)
  {
  }

  lemma IncrementedRebinds(g: Graph, b: Graph, o: Id, k: nat, t: Id)
    requires t in g.nodes && Rebound(IncObject(g, t), b, o, k, None)
    ensures Rebound(g, b, o, k, None)
  {
  }

  lemma MoveAssignRebinds(g: Graph, ext: multiset<Id>, o: Id, k: nat, t: Id)
    requires Inv(g, ext, multiset{}) && HasSlot(g, o, k) && g.nodes[o].iface > 0 && t in g.nodes
    ensures Rebound(g, MoveAssign(g, o, k, t), o, k, Some(t))
    ensures forall j | j in g.nodes && g.nodes[j].iface > 0 :: j in MoveAssign(g, o, k, t).nodes
  {
    hide Inv, Reset, Shrunk, Rebound;
    IncObjectKeepsInv(g, ext, t, multiset{});
    ReleaseSlotKeepsInv(IncObject(g, t), ext, o, k, multiset{t} + multiset{});
    var b := Reset(IncObject(g, t), o, k, None);
    EmptiedSlot(IncObject(g, t), b, o, k);
    IncrementedRebinds(g, b, o, k, t);
    FilledSlot(g, b, o, k, Some(t));
  }

  lemma UnbindRebinds(g: Graph, ext: multiset<Id>, o: Id, k: nat)
    requires Inv(g, ext, multiset{}) && HasSlot(g, o, k)
    ensures Rebound(g, Reset(g, o, k, None), o, k, None)
    ensures forall j | j in g.nodes && g.nodes[j].iface > 0 :: j in Reset(g, o, k, None).nodes
  {
    ReleaseSlotKeepsInv(g, ext, o, k, multiset{});
    EmptiedSlot(g, Reset(g, o, k, None), o, k);
  }

  lemma CopyAssignRebinds(g: Graph, ext: multiset<Id>, o: Id, k: nat, o2: Id, k2: nat)
    requires Inv(g, ext, multiset{}) && HasSlot(g, o, k) && HasSlot(g, o2, k2)
    requires g.nodes[o].iface > 0 && g.nodes[o2].iface > 0
    ensures Rebound(g, CopyAssign(g, o, k, o2, k2), o, k, g.nodes[o2].slots[k2])
    ensures forall j | j in g.nodes && g.nodes[j].iface > 0 :: j in CopyAssign(g, o, k, o2, k2).nodes
  {
    hide Inv, DropAll, Shrunk, Rebound, IncObject, SetSlot;
    var t := g.nodes[o2].slots[k2];
    if o == o2 && k == k2 {
      NothingRebound(g, o, k);
    } else {
      ReleaseSlotKeepsInv(g, ext, o, k, multiset{});
      var b := Reset(g, o, k, None);
      EmptiedSlot(g, b, o, k);
      if t.Some? {
        CopyTargetIsLive(b, ext, g, o, k, o2, k2);
        IncrementedAfter(g, b, o, k, t.value);
        StoredKeys(b, t.value, o, k, t);
        FilledSlot(g, IncObject(b, t.value), o, k, t);
      }
    }
  }

  lemma NothingRebound(g: Graph, o: Id, k: nat)
    requires HasSlot(g, o, k)
    ensures Rebound(g, g, o, k, g.nodes[o].slots[k])
  {
  }

  lemma StoredKeys(b: Graph, x: Id, o: Id, k: nat, t: Option<Id>)
    requires x in b.nodes && HasSlot(b, o, k)
    ensures HasSlot(IncObject(b, x), o, k) && SetSlot(IncObject(b, x), o, k, t).nodes.Keys == b.nodes.Keys
  {
  }

  lemma CopyTargetIsLive(b: Graph, ext: multiset<Id>, g: Graph, o: Id, k: nat, o2: Id, k2: nat)
    requires HasSlot(g, o, k) && HasSlot(g, o2, k2) && (o != o2 || k != k2) && g.nodes[o2].slots[k2].Some?
    requires Inv(b, ext, multiset{}) && o2 in b.nodes && Shrunk(SetSlot(g, o, k, None), b)
    ensures g.nodes[o2].slots[k2].value in b.nodes
  {
    EmptiedSlot(g, b, o, k);
    SlotIsLive(b, ext, o2, k2);
  }

  lemma IncrementedAfter(g: Graph, b: Graph, o: Id, k: nat, t: Id)
    requires t in b.nodes && Rebound(g, b, o, k, None)
    ensures Rebound(g, IncObject(b, t), o, k, None)
  {
  }

  // ---------------------------------------------------------------------------------------------
  // The client's invariant
  // ---------------------------------------------------------------------------------------------

  /** The application's extra tokens of one step are the graph's. */
  lemma OneMore(w: World, app: multiset<Id>, ext: multiset<Id>, extra: multiset<Id>)
    requires Ledger(w, app, ext)
    ensures forall x: Id {:trigger (ext + extra)[x]} :: (ext + extra)[x] == (app + extra)[x] + Imp(w, x)
  {
    forall x: Id
      ensures (ext + extra)[x] == (app + extra)[x] + Imp(w, x)
    {
      assert ext[x] == app[x] + Imp(w, x);
    }
  }

  lemma SameSlotsKeepsWInv(w: World, v: World, app: multiset<Id>, ext: multiset<Id>, mid: set<Id>, extra: multiset<Id>)
    requires WInv(w, app, ext, mid) && v == w.(g := v.g) && SameSlots(w.g, v.g)
    requires Inv(v.g, ext + extra, multiset{})
    ensures WInv(v, app + extra, ext + extra, mid)
  {
    forall x
      ensures Holders(v.g.nodes, x) <= Holders(w.g.nodes, x)
    {
      SameSlotsHolders(w.g, v.g, x);
    }
    OneMore(w, app, ext, extra);
    Preserved(w, v, app, ext, mid, app + extra, ext + extra);
  }

  lemma AddRefKeepsWInv(w: World, app: multiset<Id>, ext: multiset<Id>, mid: set<Id>, i: Id)
    requires WInv(w, app, ext, mid) && Revivable(w.g, i)
    ensures WInv(w.(g := AddRef(w.g, i)), app + multiset{i}, ext + multiset{i}, mid)
  {
    AddRefKeepsInv(w.g, ext, i);
    AddRefIsSameSlots(w.g, i);
    SameSlotsKeepsWInv(w, w.(g := AddRef(w.g, i)), app, ext, mid, multiset{i});
  }

  lemma CreateKeepsWInv(w: World, app: multiset<Id>, ext: multiset<Id>, mid: set<Id>,
                        parent: Option<Id>, slots: nat, children: nat) returns (v: World)
    requires WInv(w, app, ext, mid) && (parent.Some? ==> Revivable(w.g, parent.value))
    ensures w.g.next !in w.g.nodes && (parent.Some? ==> parent.value < w.g.next)
    ensures v == w.(g := Create(w.g, parent, slots, children)) && v.g.next == w.g.next + 1
    ensures WInv(v, app + multiset{w.g.next}, ext + multiset{w.g.next}, mid)
    ensures w.g.next in v.g.nodes && v.g.nodes[w.g.next].parent == parent && w.g.next !in w.devices
    ensures v.g.nodes[w.g.next].children == Nones(children) && v.g.nodes[w.g.next].slots == Nones(slots)
    ensures v.g.nodes[w.g.next].iface == 1 && Holders(v.g.nodes, w.g.next) == {}
    ensures forall j | j in w.g.nodes :: j in v.g.nodes && |v.g.nodes[j].slots| == |w.g.nodes[j].slots|
                                         && v.g.nodes[j].parent == w.g.nodes[j].parent
  {
    CreateKeepsInv(w.g, ext, parent, slots, children);
    NewIdIsUnused(w.g, ext);
    v := w.(g := Create(w.g, parent, slots, children));
    CreateIs(w.g, parent, slots, children);
    var h := Referenced(w.g, parent);
    if parent.Some? {
      AddRefIsSameSlots(w.g, parent.value);
    }
    var n := Node(parent, 1, 1, Nones(slots), Nones(children));
    assert v.g == AddNode(h, n);
    forall x
      ensures Holders(v.g.nodes, x) <= Holders(w.g.nodes, x)
    {
      SameSlotsHolders(w.g, h, x);
      AddNodeHolders(h, n, x);
    }
    assert w.g.next !in w.devices by {
      assert w.g.next in w.devices ==> w.g.next < w.g.next;
    }
    OneMore(w, app, ext, multiset{w.g.next});
    Preserved(w, v, app, ext, mid, app + multiset{w.g.next}, ext + multiset{w.g.next});
  }

  /** Whether member `at` of container `c` can be created. */
  predicate CanCreateMember(g: Graph, c: Id, at: nat) {
    && Revivable(g, c)
    && c in AddRef(g, c).nodes && at < |AddRef(g, c).nodes[c].children|
    && at < |g.nodes[c].children| && g.nodes[c].children[at].None?
  }

  lemma CreateMemberKeepsWInv(w: World, app: multiset<Id>, ext: multiset<Id>, mid: set<Id>, c: Id, at: nat)
    returns (v: World)
    requires WInv(w, app, ext, mid) && CanCreateMember(w.g, c, at)
    ensures v == w.(g := CreateMember(w.g, c, at)) && v.g.next == w.g.next + 1
    ensures WInv(v, app + multiset{c}, ext + multiset{c}, mid) && SameObjects(w.g, v.g)
    ensures v.g.nodes.Keys == w.g.nodes.Keys
    ensures v.g.nodes[c].children == w.g.nodes[c].children[at := Some(w.g.next)]
    ensures forall x :: Holders(v.g.nodes, x) == Holders(w.g.nodes, x)
  {
    CreateMemberKeepsInv(w.g, ext, c, at);
    AddRefShape(w.g, c);
    var h := AddRef(w.g, c);
    v := w.(g := CreateMember(w.g, c, at));
    forall x
      ensures Holders(v.g.nodes, x) == Holders(w.g.nodes, x)
    {
      SameSlotsHolders(w.g, h, x);
      HoldersSameSlots(h.nodes, c, v.g.nodes[c], x);
    }
    OneMore(w, app, ext, multiset{c});
    Preserved(w, v, app, ext, mid, app + multiset{c}, ext + multiset{c});
  }

  /** Devices are never bound, and an implicit object only in the state of its own device. */
  ghost predicate Bindable(w: World, o: Id, t: Option<Id>) {
    t.Some? ==>
      && t.value !in w.devices
      && (forall d | d in w.devices && t.value in Implicits(w.devices[d]) :: o == d)
  }

  lemma RebindKeepsWInv(w: World, v: World, app: multiset<Id>, ext: multiset<Id>, mid: set<Id>, o: Id, k: nat, t: Option<Id>)
    requires WInv(w, app, ext, mid) && v == w.(g := v.g) && Rebound(w.g, v.g, o, k, t) && Bindable(w, o, t)
    requires Inv(v.g, ext, multiset{})
    requires forall d | d in mid && d in w.g.nodes :: d in v.g.nodes
    ensures WInv(v, app, ext, mid)
  {
    forall d | d in w.devices
      ensures Holders(v.g.nodes, d) <= Holders(w.g.nodes, d)
    {
      ReboundHolders(w.g, v.g, o, k, t, d);
    }
    forall d, x | d in w.devices && x in Implicits(w.devices[d])
      ensures BoundBy(w.g, v.g, x, d)
    {
      ReboundHolders(w.g, v.g, o, k, t, x);
    }
    Preserved(w, v, app, ext, mid, app, ext);
  }

  lemma BindKeepsWInv(w: World, app: multiset<Id>, ext: multiset<Id>, mid: set<Id>, o: Id, k: nat, t: Id)
    requires WInv(w, app, ext, mid) && HasSlot(w.g, o, k) && w.g.nodes[o].iface > 0 && t in w.g.nodes
    requires Bindable(w, o, Some(t))
    requires forall d | d in mid && d in w.g.nodes :: w.g.nodes[d].iface > 0
    ensures WInv(w.(g := MoveAssign(w.g, o, k, t)), app, ext, mid)
  {
    MoveAssignKeepsInv(w.g, ext, o, k, t);
    MoveAssignRebinds(w.g, ext, o, k, t);
    RebindKeepsWInv(w, w.(g := MoveAssign(w.g, o, k, t)), app, ext, mid, o, k, Some(t));
  }

  lemma UnbindKeepsWInv(w: World, app: multiset<Id>, ext: multiset<Id>, o: Id, k: nat)
    requires WInv(w, app, ext, {}) && HasSlot(w.g, o, k)
    ensures WInv(w.(g := Reset(w.g, o, k, None)), app, ext, {})
  {
    ReleaseSlotKeepsInv(w.g, ext, o, k, multiset{});
    UnbindRebinds(w.g, ext, o, k);
    RebindKeepsWInv(w, w.(g := Reset(w.g, o, k, None)), app, ext, {}, o, k, None);
  }

  lemma CopyKeepsWInv(w: World, app: multiset<Id>, ext: multiset<Id>, o: Id, k: nat, o2: Id, k2: nat)
    requires WInv(w, app, ext, {}) && HasSlot(w.g, o, k) && HasSlot(w.g, o2, k2)
    requires w.g.nodes[o].iface > 0 && w.g.nodes[o2].iface > 0
    requires Bindable(w, o, w.g.nodes[o2].slots[k2])
    ensures WInv(w.(g := CopyAssign(w.g, o, k, o2, k2)), app, ext, {})
  {
    CopyAssignKeepsInv(w.g, ext, o, k, o2, k2);
    CopyAssignRebinds(w.g, ext, o, k, o2, k2);
    RebindKeepsWInv(w, w.(g := CopyAssign(w.g, o, k, o2, k2)), app, ext, {}, o, k, w.g.nodes[o2].slots[k2]);
  }
}
