/**
 The object lifecycle in place: the methods of D3DRefCounted, D3DAutoPtr, D3DBase and the device as updates of
 the live objects.

 Each method is proved to do what the function of the same name specifies, so that what is proved of the
 functions holds of the methods.
 */
module ClientObjects {
  import opened Options
  import opened ObjectGraph
  import opened GraphCounting
  import opened GraphDrops
  import opened ObjectOps
  import opened DeviceLifecycle
  import opened DeviceRelease
  import opened DeviceReset
  import opened ClientOps

  /** Members and containers name each other, and every id is alive or logged. */
  ghost predicate Shape(g: Graph) {
    MemberInv(g) && LogInv(g)
  }

  // ---------------------------------------------------------------------------------------------
  // Cascades
  // ---------------------------------------------------------------------------------------------

  lemma {:induction false} DropAllConcat(g: Graph, a: seq<Id>, b: seq<Id>)
    ensures DropAll(g, a + b) == DropAll(DropAll(g, a), b)
    decreases |g.nodes|, |a|
  {
    if a == [] {
      assert a + b == b;
    } else {
      var Dropped(h, left) := DropOne(g, a);
      DropOneConcat(g, a, b);
      DropAllConcat(h, left, b);
    }
  }

  lemma DropOneConcat(g: Graph, a: seq<Id>, b: seq<Id>)
    requires a != []
    ensures DropOne(g, a + b) == Dropped(DropOne(g, a).graph, DropOne(g, a).pend + b)
  {
    var t := a[0];
    assert (a + b)[1..] == a[1..] + b;
    if t in g.nodes && g.nodes[t].obj == 1 {
      assert Somes(g.nodes[t].slots) + (a[1..] + b) == Somes(g.nodes[t].slots) + a[1..] + b;
    }
  }

  lemma {:induction false} DropAllSize(g: Graph, pend: seq<Id>)
    ensures |DropAll(g, pend).nodes| <= |g.nodes|
    decreases |g.nodes|, |pend|
  {
    if pend != [] {
      var Dropped(h, left) := DropOne(g, pend);
      DropAllSize(h, left);
    }
  }

  lemma DropOnePointer(g: Graph, t: Id)
    ensures DropAll(g, [t])
         == if t !in g.nodes || g.nodes[t].obj == 0 then g
            else if g.nodes[t].obj > 1 then g.(nodes := g.nodes[t := g.nodes[t].(obj := g.nodes[t].obj - 1)])
            else DropAll(Erase(g, t), Somes(g.nodes[t].slots))
  {
    var Dropped(h, left) := DropOne(g, [t]);
    assert [t][1..] == [];
    assert left == [] ==> DropAll(h, left) == h;
    if t in g.nodes && g.nodes[t].obj == 1 {
      assert Somes(g.nodes[t].slots) + [] == Somes(g.nodes[t].slots);
    }
  }

  lemma EraseKeepsShape(g: Graph, t: Id)
    requires Shape(g) && t in g.nodes
    ensures Shape(Erase(g, t)) && |Erase(g, t).nodes| < |g.nodes|
  {
    EraseKeepsMembers(g, t);
    EraseKeepsLog(g, t);
    assert g.nodes.Keys == (g.nodes - {t}).Keys + {t};
  }

  /** The first slot of a destroyed object released, then the others. */
  lemma FirstSlotReleased(g: Graph, slots: seq<Option<Id>>)
    requires slots != []
    ensures DropAll(g, Somes(slots)) == DropAll(if slots[0].Some? then DropAll(g, [slots[0].value]) else g, Somes(slots[1..]))
  {
    hide DropAll;
    if slots[0].Some? {
      DropAllConcat(g, [slots[0].value], Somes(slots[1..]));
    } else {
      assert [] + Somes(slots[1..]) == Somes(slots[1..]);
    }
  }

  /** The count Release returns: a device hides its implicit references. */
  function Shown(w: World, i: Id): nat {
    var cnt := if i in w.g.nodes && w.g.nodes[i].iface > 0 && w.g.nodes[i].obj > 0 then w.g.nodes[i].iface - 1 else 0;
    var w1 := BaseRelease(w, i);
    if i !in w1.devices then cnt
    else if cnt > w1.devices[i].implicitRefCnt then cnt - w1.devices[i].implicitRefCnt else 0
  }

  class Objects {
    var nodes: map<Id, Node>
    var owner: map<Id, Id>
    var log: seq<Id>
    var next: Id
    var devices: map<Id, Device>
    var teardowns: seq<Id>

    function G(): Graph
      reads this
    {
      Graph(nodes, owner, log, next)
    }

    function W(): World
      reads this
    {
      World(G(), devices, teardowns)
    }

    constructor ()
      ensures W() == World(Graph(map[], map[], [], 0), map[], []) && Shape(G())
    {
      nodes, owner, log, next, devices, teardowns := map[], map[], [], 0, map[], [];
      new;
      assert forall x: Id :: !Alive(G(), x);
    }

    // -------------------------------------------------------------------------------------------
    // D3DRefCounted and D3DAutoPtr
    // -------------------------------------------------------------------------------------------

    /** The container's destructor destroys its members one by one. */
    method DestroyMembers(children: seq<Option<Id>>)
      modifies this`log, this`owner
      ensures log == old(log) + Somes(children)
      ensures owner == map m | m in old(owner) && m !in Somes(children) :: old(owner)[m]
    {
      var k := 0;
      assert children[..0] == [];
      while k < |children|
        invariant 0 <= k <= |children|
        invariant log == old(log) + Somes(children[..k])
        invariant owner == map m | m in old(owner) && m !in Somes(children[..k]) :: old(owner)[m]
      {
        assert children[..k + 1] == children[..k] + [children[k]];
        SomesSnoc(children[..k], children[k]);
        if children[k].Some? {
          log := log + [children[k].value];
          owner := owner - {children[k].value};
        }
        k := k + 1;
      }
      assert children[..k] == children;
    }

    /** destroy */
    method Destroy(t: Id)
      requires t in nodes && Shape(G())
      modifies this
      ensures W() == old(W()).(g := Erase(old(G()), t)) && Shape(G())
    {
      EraseKeepsShape(G(), t);
      MembersListed(G(), t);
      hide MemberInv, LogInv, Distinct, Somes;
      log := log + [t];
      DestroyMembers(nodes[t].children);
      nodes := nodes - {t};
      assert owner == Erase(old(G()), t).owner;
    }

    /** decRef on the object count, with every destruction it leads to. */
    method DecRefObject(t: Id)
      requires Shape(G())
      modifies this
      ensures W() == old(W()).(g := DropAll(old(G()), [t])) && Shape(G())
      decreases |nodes|, 0
    {
      DropOnePointer(G(), t);
      if t !in nodes || nodes[t].obj == 0 {
        return;
      }
      var n := nodes[t];
      if n.obj > 1 {
        SameShapeKeepsInv(G(), t, n.(obj := n.obj - 1));
        nodes := nodes[t := n.(obj := n.obj - 1)];
        return;
      }
      EraseKeepsShape(G(), t);
      Destroy(t);
      ReleaseAll(n.slots);
    }

    /** The destructors of the D3DAutoPtr fields of a destroyed object, one after the other. */
    method ReleaseAll(slots: seq<Option<Id>>)
      requires Shape(G())
      modifies this
      ensures W() == old(W()).(g := DropAll(old(G()), Somes(slots))) && Shape(G())
      decreases |nodes|, 1, |slots|
    {
      if slots != [] {
        FirstSlotReleased(G(), slots);
        if slots[0].Some? {
          DropAllSize(G(), [slots[0].value]);
          DecRefObject(slots[0].value);
        }
        ReleaseAll(slots[1..]);
      }
    }

    method IncRefObject(t: Id)
      requires t in nodes && Shape(G())
      modifies this
      ensures W() == old(W()).(g := IncObject(old(G()), t)) && Shape(G())
    {
      var n := nodes[t].(obj := nodes[t].obj + 1);
      SameShapeKeepsInv(G(), t, n);
      nodes := nodes[t := n];
    }

    method StoreSlot(o: Id, k: nat, t: Option<Id>)
      requires HasSlot(G(), o, k) && Shape(G())
      modifies this
      ensures W() == old(W()).(g := SetSlot(old(G()), o, k, t)) && Shape(G())
    {
      var n := nodes[o].(slots := nodes[o].slots[k := t]);
      SameShapeKeepsInv(G(), o, n);
      nodes := nodes[o := n];
    }

    /** D3DAutoPtr::reset on slot `k` of `o`. */
    method ResetSlot(o: Id, k: nat, t: Option<Id>)
      requires HasSlot(G(), o, k) && Shape(G())
      modifies this
      ensures W() == old(W()).(g := Reset(old(G()), o, k, t)) && Shape(G())
    {
      var was := nodes[o].slots[k];
      SomesOne(was);
      StoreSlot(o, k, None);
      if was.Some? {
        DecRefObject(was.value);
      }
      if t.Some? && t.value in nodes && o in nodes && k < |nodes[o].slots| {
        IncRefObject(t.value);
        StoreSlot(o, k, t);
      }
    }

    /** slot = MakeD3DAutoPtr(t): reference the new object, reset the slot, move the pointer in. */
    method BindSlot(o: Id, k: nat, t: Id)
      requires HasSlot(G(), o, k) && t in nodes && Shape(G())
      modifies this
      ensures W() == old(W()).(g := MoveAssign(old(G()), o, k, t)) && Shape(G())
    {
      IncRefObject(t);
      ResetSlot(o, k, None);
      if o in nodes && k < |nodes[o].slots| {
        StoreSlot(o, k, Some(t));
      }
    }

    /** slot = another slot, guarded against self-assignment. */
    method CopySlot(o: Id, k: nat, o2: Id, k2: nat)
      requires HasSlot(G(), o, k) && HasSlot(G(), o2, k2) && Shape(G())
      modifies this
      ensures W() == old(W()).(g := CopyAssign(old(G()), o, k, o2, k2)) && Shape(G())
    {
      if o != o2 || k != k2 {
        ResetSlot(o, k, nodes[o2].slots[k2]);
      }
    }

    /** decRef on both counts: an early return while the interface count is nonzero. */
    method DecRefInterface(i: Id) returns (cnt: nat)
      requires i in nodes && nodes[i].iface > 0 && nodes[i].obj > 0 && Shape(G())
      modifies this
      ensures W() == old(W()).(g := DecInterface(old(G()), i)) && Shape(G())
      ensures cnt == old(nodes[i]).iface - 1
    {
      var n := nodes[i].(iface := nodes[i].iface - 1, obj := nodes[i].obj - 1);
      SameShapeKeepsInv(G(), i, n);
      nodes := nodes[i := n];
      cnt := n.iface;
      if cnt != 0 {
        return;
      }
      if n.obj == 0 {
        Destroy(i);
        ReleaseAll(n.slots);
      }
    }

    /** incRef on both counts. */
    method IncRefInterface(i: Id) returns (cnt: nat)
      requires i in nodes && Shape(G())
      modifies this
      ensures W() == old(W()).(g := IncBoth(old(G()), i)) && Shape(G())
      ensures cnt == old(nodes[i]).iface + 1
    {
      var n := nodes[i].(iface := nodes[i].iface + 1, obj := nodes[i].obj + 1);
      SameShapeKeepsInv(G(), i, n);
      nodes := nodes[i := n];
      cnt := n.iface;
    }

    // -------------------------------------------------------------------------------------------
    // D3DBase and the device
    // -------------------------------------------------------------------------------------------

    /** D3DBase::AddRef of a standalone object. */
    method BaseAddRef(i: Id) returns (cnt: nat)
      requires Revivable(G(), i) && Shape(G())
      modifies this
      ensures W() == old(W()).(g := AddRef(old(G()), i)) && Shape(G())
      ensures cnt == old(nodes[i]).iface + 1
      decreases i
    {
      if nodes[i].iface == 0 && nodes[i].parent.Some? {
        RevivableAfterInc(G(), nodes[i].parent.value, i);
      }
      cnt := IncRefInterface(i);
      if cnt == 1 && nodes[i].parent.Some? {
        var _ := BaseAddRef(nodes[i].parent.value);
      }
    }

    /** AddRef as the application sees it: a device hides its implicit references. */
    method AddRefShown(i: Id) returns (cnt: int)
      requires Revivable(G(), i) && Shape(G())
      modifies this
      ensures W() == old(W()).(g := AddRef(old(G()), i)) && Shape(G())
      ensures cnt == old(nodes[i]).iface + 1 - (if i in devices then devices[i].implicitRefCnt else 0)
    {
      cnt := BaseAddRef(i);
      if i in devices {
        cnt := cnt - devices[i].implicitRefCnt;
      }
    }

    /** D3DBase::Release of a standalone object. The parent's Release is the overridden one. */
    method BaseReleaseRef(i: Id) returns (cnt: nat)
      requires Shape(G())
      modifies this
      ensures W() == BaseRelease(old(W()), i) && Shape(G())
      ensures cnt == if i in old(nodes) && old(nodes[i]).iface > 0 && old(nodes[i]).obj > 0 then old(nodes[i]).iface - 1 else 0
      decreases |Pending(W())|, 0, i, 0
    {
      if i !in nodes || nodes[i].iface == 0 || nodes[i].obj == 0 {
        return 0;
      }
      var parent := nodes[i].parent;
      cnt := DecRefInterface(i);
      assert Pending(W()) == old(Pending(W()));
      if cnt == 0 && parent.Some? && parent.value < i {
        var _ := ReleaseRef(parent.value);
      }
    }

    /** Release of the device or of any other object. */
    method ReleaseRef(i: Id) returns (shown: nat)
      requires Shape(G())
      modifies this
      ensures W() == Release(old(W()), i) && Shape(G())
      ensures shown == Shown(old(W()), i)
      decreases |Pending(W())|, 0, i, 1
    {
      ghost var was := W();
      var held := i in nodes && nodes[i].iface > 0;
      var expected := if held then nodes[i].iface - 1 else 0;
      var cnt := BaseReleaseRef(i);
      ghost var w1 := W();
      PendingShrinks(w1, was);
      if i in devices && i in nodes && !devices[i].destroying && expected == devices[i].implicitRefCnt {
        devices := devices[i := devices[i].(destroying := true)];
        teardowns := teardowns + [i];
        assert W() == BeginTeardown(w1, i);
        assert i in Pending(w1) && i !in Pending(W());
        PendingStrictlyShrinks(W(), w1);
        ReleaseInternal(i);
        return 0;
      }
      shown := if i !in devices then cnt else if cnt > devices[i].implicitRefCnt then cnt - devices[i].implicitRefCnt else 0;
    }

    /** AddRef on any object: one that is not standalone passes the call on to its container. */
    method AddRefAny(i: Id) returns (cnt: int)
      requires Revivable(G(), Target(G(), i)) && Shape(G())
      modifies this
      ensures W() == old(W()).(g := CallAddRef(old(G()), i)) && Shape(G())
    {
      if i in owner {
        cnt := AddRefShown(owner[i]);
      } else {
        cnt := AddRefShown(i);
      }
    }

    /** Release on any object, in the same way. */
    method ReleaseAny(i: Id) returns (shown: nat)
      requires Shape(G())
      modifies this
      ensures W() == CallRelease(old(W()), i) && Shape(G())
      ensures shown == Shown(old(W()), Target(old(G()), i))
    {
      if i in owner {
        shown := ReleaseRef(owner[i]);
      } else {
        shown := ReleaseRef(i);
      }
    }

    /** A D3DAutoPtr to any object counts where the object's counter is. */
    method BindAny(o: Id, k: nat, t: Id)
      requires HasSlot(G(), o, k) && Target(G(), t) in nodes && Shape(G())
      modifies this
      ensures W() == Bind(old(W()), o, k, Target(old(G()), t)) && Shape(G())
    {
      if t in owner {
        BindSlot(o, k, owner[t]);
      } else {
        BindSlot(o, k, t);
      }
    }

    method DestroyImplicitTarget(d: Id)
      requires d in devices && Shape(G())
      modifies this
      ensures W() == DestroyRenderTarget(old(W()), d) && Shape(G())
      decreases |Pending(W())|, 1, 0
    {
      if devices[d].renderTarget.Some? {
        var _ := ReleaseRef(devices[d].renderTarget.value);
        devices := devices[d := devices[d].(renderTarget := None, implicitRefCnt := Minus1(devices[d].implicitRefCnt))];
        if HasSlot(G(), d, RENDER_TARGET_0) {
          ResetSlot(d, RENDER_TARGET_0, None);
        }
      }
    }

    method DestroyImplicitDepthStencil(d: Id)
      requires d in devices && Shape(G())
      modifies this
      ensures W() == DestroyDepthStencil(old(W()), d) && Shape(G())
      decreases |Pending(W())|, 1, 0
    {
      if devices[d].depthStencil.Some? {
        var _ := ReleaseRef(devices[d].depthStencil.value);
        devices := devices[d := devices[d].(depthStencil := None, implicitRefCnt := Minus1(devices[d].implicitRefCnt))];
        if HasSlot(G(), d, DEPTH_STENCIL) {
          ResetSlot(d, DEPTH_STENCIL, None);
        }
      }
    }

    /** One Release for each back buffer, and one for the swapchain itself. */
    method DestroyImplicitSwapchain(d: Id)
      requires d in devices && Shape(G())
      modifies this
      ensures W() == DestroySwapchain(old(W()), d) && Shape(G())
      decreases |Pending(W())|, 2, 0
    {
      hide Release, Shape, Pending;
      if devices[d].swapchain.Some? {
        var swapchain, nBackBuf := devices[d].swapchain.value, devices[d].pres.backBufferCount;
        ghost var w0 := W();
        var iBackBuf := 0;
        while iBackBuf < nBackBuf
          invariant 0 <= iBackBuf <= nBackBuf && Shape(G())
          invariant ReleaseN(W(), swapchain, nBackBuf - iBackBuf) == ReleaseN(w0, swapchain, nBackBuf)
          invariant Pending(W()) <= Pending(w0) && devices.Keys == w0.devices.Keys
        {
          PendingShrinks(W(), w0);
          var _ := ReleaseRef(swapchain);
          iBackBuf := iBackBuf + 1;
        }
        PendingShrinks(W(), w0);
        var _ := ReleaseRef(swapchain);
        devices := devices[d := devices[d].(swapchain := None, implicitRefCnt := Minus1(devices[d].implicitRefCnt))];
      }
    }

    /** releaseInternalObjects */
    method ReleaseInternal(d: Id)
      requires d in devices && Shape(G())
      modifies this
      ensures W() == ReleaseInternalObjects(old(W()), d) && Shape(G())
      decreases |Pending(W())|, 5, 0
    {
      ghost var w0 := W();
      var implicitRefCnt := devices[d].implicitRefCnt;
      TakeReferences(d, implicitRefCnt);
      ghost var w1 := W();
      assert Pending(w1) == Pending(w0);
      var autoDepthStencil := devices[d].pres.autoDepthStencil;
      DestroyImplicitTarget(d);
      PendingShrinks(W(), w1);
      if autoDepthStencil {
        DestroyImplicitDepthStencil(d);
        PendingShrinks(W(), w1);
      }
      DestroyImplicitSwapchain(d);
      assert W() == DestroyImplicitObjects(w1, d);
      ClearState(d);
      ghost var w3 := W();
      assert Pending(w3) <= Pending(w0);
      PendingShrinks(w3, w0);
      GiveBackReferences(d, implicitRefCnt);
    }

    method TakeReferences(d: Id, n: nat)
      requires Shape(G())
      modifies this
      ensures W() == old(W()).(g := AddRefN(old(G()), d, n)) && Shape(G())
    {
      var k := 0;
      while k < n && d in nodes
        invariant 0 <= k <= n && Shape(G()) && W() == old(W()).(g := G())
        invariant AddRefN(G(), d, n - k) == AddRefN(old(G()), d, n)
      {
        var _ := IncRefInterface(d);
        k := k + 1;
      }
    }

    /** Every D3DAutoPtr of the device's state is reset. */
    method ClearState(d: Id)
      requires Shape(G())
      modifies this
      ensures W() == old(W()).(g := ResetSlots(old(G()), d, 0)) && Shape(G())
    {
      var k := 0;
      while k < STATE_SLOTS
        invariant 0 <= k <= STATE_SLOTS && Shape(G()) && W() == old(W()).(g := G())
        invariant ResetSlots(G(), d, k) == ResetSlots(old(G()), d, 0)
      {
        if HasSlot(G(), d, k) {
          ResetSlot(d, k, None);
        }
        k := k + 1;
      }
    }

    method GiveBackReferences(d: Id, n: nat)
      requires Shape(G())
      modifies this
      ensures W() == BaseReleaseN(old(W()), d, n) && Shape(G())
      decreases |Pending(W())|, 1, n
    {
      ghost var w0 := W();
      var k := 0;
      while k < n
        invariant 0 <= k <= n && Shape(G())
        invariant BaseReleaseN(W(), d, n - k) == BaseReleaseN(w0, d, n)
        invariant Pending(W()) <= Pending(w0)
      {
        PendingShrinks(W(), w0);
        var _ := BaseReleaseRef(d);
        k := k + 1;
      }
    }

    // -------------------------------------------------------------------------------------------
    // Construction and Reset
    // -------------------------------------------------------------------------------------------

    /** The constructor of a standalone object: counts at zero, then the first AddRef. */
    method Construct(parent: Option<Id>, slots: nat, children: nat) returns (id: Id)
      requires next !in nodes && (parent.Some? ==> CanCreate(G(), parent.value)) && Shape(G())
      modifies this
      ensures W() == old(W()).(g := Create(old(G()), parent, slots, children)) && Shape(G())
      ensures id == old(next)
    {
      id := next;
      var n := Node(parent, 0, 0, Nones(slots), Nones(children));
      AddNodeKeepsShape(G(), n);
      if parent.Some? {
        RevivableAfterAdd(G(), n, parent.value);
      }
      nodes, next := nodes[id := n], next + 1;
      var _ := BaseAddRef(id);
    }

    /** The constructor of a member: it references its container and is entered in the child vector, where each
        place is set only once. */
    method ConstructMember(c: Id, at: nat) returns (id: Id)
      requires CanCreateMember(G(), c, at) && Shape(G())
      modifies this
      ensures W() == old(W()).(g := CreateMember(old(G()), c, at)) && Shape(G())
      ensures id == old(next)
    {
      AddRefShape(G(), c);
      var _ := BaseAddRef(c);
      id := next;
      SetChildKeepsShape(G(), c, at);
      nodes := nodes[c := nodes[c].(children := nodes[c].children[at := Some(id)])];
      owner, next := owner[id := c], next + 1;
    }

    /** The swapchain's constructor: the object, then one back buffer after the other. */
    method ConstructImplicit(d: Id, n: nat) returns (id: Id)
      requires CanCreate(G(), d) && Shape(G())
      modifies this
      ensures W() == old(W()).(g := NewImplicit(old(G()), d, n)) && Shape(G())
      ensures id == old(next)
    {
      id := Construct(Some(d), 0, n);
      ghost var g0 := G();
      var childIdx := 0;
      while childIdx < n && CanCreateMember(G(), id, childIdx)
        invariant 0 <= childIdx <= n && Shape(G()) && W() == old(W()).(g := G())
        invariant CreateMembers(G(), id, childIdx, n) == CreateMembers(g0, id, 0, n)
      {
        var _ := ConstructMember(id, childIdx);
        childIdx := childIdx + 1;
      }
    }

    method InitImplicitSwapchain(d: Id, pres: Present)
      requires d in devices && Shape(G())
      modifies this
      ensures W() == InitSwapchain(old(W()), d, pres) && Shape(G())
    {
      if CanCreate(G(), d) {
        var swapchain := ConstructImplicit(d, pres.backBufferCount);
        devices := devices[d := devices[d].(swapchain := Some(swapchain), pres := pres,
                                            implicitRefCnt := devices[d].implicitRefCnt + 1)];
      }
    }

    method InitImplicitRenderTarget(d: Id)
      requires d in devices && Shape(G())
      modifies this
      ensures W() == InitSurface(old(W()), d, WithRenderTarget(old(devices[d]), old(next)), RENDER_TARGET_0) && Shape(G())
    {
      if CanCreate(G(), d) {
        var surface := ConstructImplicit(d, 0);
        devices := devices[d := devices[d].(renderTarget := Some(surface), implicitRefCnt := devices[d].implicitRefCnt + 1)];
        if HasSlot(G(), d, RENDER_TARGET_0) && surface in nodes {
          BindSlot(d, RENDER_TARGET_0, surface);
        }
      }
    }

    method InitImplicitDepthStencil(d: Id)
      requires d in devices && Shape(G())
      modifies this
      ensures W() == InitSurface(old(W()), d, WithDepthStencil(old(devices[d]), old(next)), DEPTH_STENCIL) && Shape(G())
    {
      if CanCreate(G(), d) {
        var surface := ConstructImplicit(d, 0);
        devices := devices[d := devices[d].(depthStencil := Some(surface), implicitRefCnt := devices[d].implicitRefCnt + 1)];
        if HasSlot(G(), d, DEPTH_STENCIL) && surface in nodes {
          BindSlot(d, DEPTH_STENCIL, surface);
        }
      }
    }

    /** Reset: drop everything implicit, take the new parameters, create it all again. */
    method ResetPresentation(d: Id, pres: Present)
      requires d in devices && Shape(G())
      modifies this
      ensures W() == ResetDevice(old(W()), d, pres) && Shape(G())
    {
      ReleaseInternal(d);
      var presParam := Sanitize(pres);
      InitImplicitSwapchain(d, presParam);
      InitImplicitRenderTarget(d);
      if presParam.autoDepthStencil {
        InitImplicitDepthStencil(d);
      }
    }
  }
}
