/** Creating a device's implicit objects, and Reset, which drops and re-creates them. */
module DeviceReset {
  import opened Options
  import opened ObjectGraph
  import opened GraphCounting
  import opened GraphDrops
  import opened ObjectOps
  import opened DeviceLifecycle
  import opened DeviceTeardown
  import opened DeviceWorld
  import opened DeviceRelease
  import opened DeviceDeath
  import opened ClientOps

  // ---------------------------------------------------------------------------------------------
  // Operations
  // ---------------------------------------------------------------------------------------------

  predicate CanCreate(g: Graph, parent: Id) {
    && parent < g.next
    && g.next !in g.nodes
    && Revivable(g, parent)
  }

  /** The swapchain constructor's loop over the back buffers. */
  function CreateMembers(g: Graph, c: Id, at: nat, n: nat): Graph
    decreases n - at
  {
    if at >= n || !CanCreateMember(g, c, at) then g else CreateMembers(CreateMember(g, c, at), c, at + 1, n)
  }

  /** A new child of device `d` with `n` members. */
  function NewImplicit(g: Graph, d: Id, n: nat): Graph
    requires CanCreate(g, d)
  {
    CreateMembers(Create(g, Some(d), 0, n), g.next, 0, n)
  }

  function Bind(w: World, o: Id, k: nat, t: Id): World {
    if HasSlot(w.g, o, k) && t in w.g.nodes then w.(g := MoveAssign(w.g, o, k, t)) else w
  }

  function WithSwapchain(dev: Device, x: Id, pres: Present): Device {
    dev.(swapchain := Some(x), pres := pres, implicitRefCnt := dev.implicitRefCnt + 1)
  }

  function WithRenderTarget(dev: Device, x: Id): Device {
    dev.(renderTarget := Some(x), implicitRefCnt := dev.implicitRefCnt + 1)
  }

  function WithDepthStencil(dev: Device, x: Id): Device {
    dev.(depthStencil := Some(x), implicitRefCnt := dev.implicitRefCnt + 1)
  }

  /** A new implicit object recorded in the device, and bound in state slot `k`. */
  function InitSurface(w: World, d: Id, dev: Device, k: nat): World
    requires d in w.devices
  {
    if !CanCreate(w.g, d) then w
    else Bind(w.(g := NewImplicit(w.g, d, 0), devices := w.devices[d := dev]), d, k, w.g.next)
  }

  function InitSwapchain(w: World, d: Id, pres: Present): World
    requires d in w.devices
  {
    if !CanCreate(w.g, d) then w
    else w.(g := NewImplicit(w.g, d, pres.backBufferCount),
            devices := w.devices[d := WithSwapchain(w.devices[d], w.g.next, pres)])
  }

  function InitImplicitObjects(w: World, d: Id, pres: Present): World
    requires d in w.devices
  {
    var w1 := InitSwapchain(w, d, pres);
    var w2 := InitSurface(w1, d, WithRenderTarget(w1.devices[d], w1.g.next), RENDER_TARGET_0);
    if pres.autoDepthStencil then InitSurface(w2, d, WithDepthStencil(w2.devices[d], w2.g.next), DEPTH_STENCIL) else w2
  }

  /** 0 back buffers are taken as 1. */
  function Sanitize(pres: Present): Present {
    pres.(backBufferCount := if pres.backBufferCount == 0 then 1 else pres.backBufferCount)
  }

  function ResetDevice(w: World, d: Id, pres: Present): World
    requires d in w.devices
  {
    InitImplicitObjects(ReleaseInternalObjects(w, d), d, Sanitize(pres))
  }

  /** The reference count the device shows to the application. */
  function Visible(w: World, d: Id): int
    requires d in w.devices && d in w.g.nodes
  {
    w.g.nodes[d].iface - w.devices[d].implicitRefCnt
  }

  // ---------------------------------------------------------------------------------------------
  // A new implicit object
  // ---------------------------------------------------------------------------------------------

  /** A container with `at` of its `n` members created. */
  ghost predicate Filling(w: World, c: Id, at: nat, n: nat) {
    && c in w.g.nodes && w.g.nodes[c].iface > 0 && at <= n == |w.g.nodes[c].children|
    && (forall j | at <= j < n :: w.g.nodes[c].children[j].None?)
  }

  lemma MemberKids(g: Graph, c: Id, at: nat, x: Id)
    requires CanCreateMember(g, c, at) && g.nodes[c].iface > 0
    ensures Kids(CreateMember(g, c, at).nodes, x) == Kids(g.nodes, x)
    ensures CreateMember(g, c, at).nodes[c].iface > 0
  {
    AddRefShape(g, c);
    var h := IncBoth(g, c);
    assert AddRef(g, c) == h;
    KidsSame(g.nodes, c, h.nodes[c], x);
    KidsSame(h.nodes, c, CreateMember(g, c, at).nodes[c], x);
  }

  lemma MemberStep(w: World, app: multiset<Id>, ext: multiset<Id>, mid: set<Id>, c: Id, at: nat, n: nat)
    returns (v: World)
    requires WInv(w, app, ext, mid) && Filling(w, c, at, n) && at < n
    ensures CanCreateMember(w.g, c, at) && v == w.(g := CreateMember(w.g, c, at))
    ensures WInv(v, app + multiset{c}, ext + multiset{c}, mid) && Filling(v, c, at + 1, n)
    ensures v.g.nodes.Keys == w.g.nodes.Keys && SameObjects(w.g, v.g)
    ensures forall x :: Holders(v.g.nodes, x) == Holders(w.g.nodes, x)
    ensures forall x :: Kids(v.g.nodes, x) == Kids(w.g.nodes, x)
  {
    AddRefShape(w.g, c);
    v := CreateMemberKeepsWInv(w, app, ext, mid, c, at);
    forall x
      ensures Kids(v.g.nodes, x) == Kids(w.g.nodes, x)
    {
      MemberKids(w.g, c, at, x);
    }
    MemberKids(w.g, c, at, c);
  }

  /** All back buffers of a new swapchain: one reference on the shared counter each. */
  lemma {:induction false} CreateMembersKeeps(w: World, app: multiset<Id>, ext: multiset<Id>, mid: set<Id>,
                                              c: Id, at: nat, n: nat)
    returns (v: World, ext': multiset<Id>)
    requires WInv(w, app, ext, mid) && Filling(w, c, at, n)
    ensures v == w.(g := CreateMembers(w.g, c, at, n))
    ensures WInv(v, app + Many(c, n - at), ext', mid)
    ensures v.g.nodes.Keys == w.g.nodes.Keys && SameObjects(w.g, v.g) && Filling(v, c, n, n)
    ensures forall x :: Holders(v.g.nodes, x) == Holders(w.g.nodes, x)
    ensures forall x :: Kids(v.g.nodes, x) == Kids(w.g.nodes, x)
    decreases n - at
  {
    hide WInv, CanCreateMember, CreateMember, Holders, Kids;
    if at == n {
      v, ext' := w, ext;
      assert app + Many(c, 0) == app;
    } else {
      var v1 := MemberStep(w, app, ext, mid, c, at, n);
      v, ext' := CreateMembersKeeps(v1, app + multiset{c}, ext + multiset{c}, mid, c, at + 1, n);
      assert app + multiset{c} + Many(c, n - at - 1) == app + Many(c, n - at);
    }
  }

  /** What is known of a freshly created implicit object `x` of `d`. */
  ghost predicate FreshChild(w: World, v: World, d: Id, x: Id) {
    && x !in w.g.nodes && x !in v.devices && x in v.g.nodes && v.g.nodes[x].parent == Some(d)
    && Holders(v.g.nodes, x) == {} && d in w.g.nodes && d in v.g.nodes && d != x
    && |v.g.nodes[d].slots| == |w.g.nodes[d].slots|
    && Kids(v.g.nodes, d) == Kids(w.g.nodes, d) + {x}
  }

  lemma CreateKids(g: Graph, d: Id, n: nat)
    requires CanCreate(g, d) && g.nodes[d].iface > 0
    ensures Kids(Create(g, Some(d), 0, n).nodes, d) == Kids(g.nodes, d) + {g.next}
  {
    CreateIs(g, Some(d), 0, n);
    var k := AddNode(g, Node(Some(d), 0, 0, Nones(0), Nones(n)));
    assert AddRef(k, g.next) == AddRef(IncBoth(k, g.next), d);
    assert AddRef(IncBoth(k, g.next), d) == IncBoth(IncBoth(k, g.next), d);
  }

  lemma NewImplicitKeeps(w: World, app: multiset<Id>, ext: multiset<Id>, mid: set<Id>, d: Id, n: nat)
    returns (v: World, ext': multiset<Id>)
    requires WInv(w, app, ext, mid) && d in w.g.nodes && w.g.nodes[d].iface > 0
    ensures CanCreate(w.g, d) && v == w.(g := NewImplicit(w.g, d, n))
    ensures WInv(v, app + Many(w.g.next, n + 1), ext', mid) && FreshChild(w, v, d, w.g.next)
  {
    var x := w.g.next;
    var v1 := CreateKeepsWInv(w, app, ext, mid, Some(d), 0, n);
    CreateKids(w.g, d, n);
    v, ext' := CreateMembersKeeps(v1, app + multiset{x}, ext + multiset{x}, mid, x, 0, n);
    assert app + multiset{x} + Many(x, n) == app + Many(x, n + 1);
  }

  // ---------------------------------------------------------------------------------------------
  // Recording it in the device
  // ---------------------------------------------------------------------------------------------

  lemma TokensOutside(dev: Device, y: Id)
    requires y !in Implicits(dev)
    ensures Tokens(dev, y) == 0
  {
  }

  /** The creator's references on `x` become the device's. */
  lemma RegisterKeeps(w: World, app: multiset<Id>, ext: multiset<Id>, d: Id, x: Id, dev: Device) returns (v: World)
    requires d in w.devices && d in w.g.nodes && !w.devices[d].destroying && !dev.destroying
    requires WInv(w, app + Many(x, Tokens(dev, x)), ext, {d})
    requires x in w.g.nodes && x !in w.devices && w.g.nodes[x].parent == Some(d) && Holders(w.g.nodes, x) == {}
    requires Pointers(dev) && Implicits(dev) == Implicits(w.devices[d]) + {x} && x !in Implicits(w.devices[d])
    requires forall y | y in Implicits(w.devices[d]) :: Tokens(dev, y) == Tokens(w.devices[d], y)
    ensures v == w.(devices := w.devices[d := dev]) && WInv(v, app, ext, {d})
  {
    v := w.(devices := w.devices[d := dev]);
    assert DeviceOk(w, d, {d});
    forall y: Id
      ensures ext[y] == app[y] + Imp(v, y)
    {
      RegisterLedger(w, v, app, ext, d, x, dev, y);
    }
    forall e | e in v.devices && e in v.g.nodes
      ensures DeviceOk(v, e, {d})
    {
      assert DeviceOk(w, e, {d});
      forall y | y in Implicits(v.devices[e])
        ensures ImplicitOk(v, e, y)
      {
        assert e != d || y != x ==> ImplicitOk(w, e, y);
      }
    }
  }

  lemma RegisterLedger(w: World, v: World, app: multiset<Id>, ext: multiset<Id>, d: Id, x: Id, dev: Device, y: Id)
    requires d in w.devices && d in w.g.nodes && v == w.(devices := w.devices[d := dev])
    requires WInv(w, app + Many(x, Tokens(dev, x)), ext, {d})
    requires x in w.g.nodes && w.g.nodes[x].parent == Some(d)
    requires Implicits(dev) == Implicits(w.devices[d]) + {x} && x !in Implicits(w.devices[d])
    requires forall z | z in Implicits(w.devices[d]) :: Tokens(dev, z) == Tokens(w.devices[d], z)
    ensures ext[y] == app[y] + Imp(v, y)
  {
    assert ext[y] == (app + Many(x, Tokens(dev, x)))[y] + Imp(w, y);
    if y !in Implicits(w.devices[d]) {
      TokensOutside(w.devices[d], y);
      if y != x {
        TokensOutside(dev, y);
      }
    }
  }

  /** Binding an implicit object in the state of its own device. */
  lemma BindOwn(w: World, app: multiset<Id>, ext: multiset<Id>, d: Id, k: nat, x: Id) returns (v: World)
    requires WInv(w, app, ext, {d}) && d in w.devices && d in w.g.nodes && w.g.nodes[d].iface > 0
    requires x in Implicits(w.devices[d]) && HasSlot(w.g, d, k)
    ensures v == Bind(w, d, k, x) == w.(g := v.g)
    ensures WInv(v, app, ext, {d})
    ensures d in v.g.nodes && |v.g.nodes[d].slots| == |w.g.nodes[d].slots|
    ensures Kids(v.g.nodes, d) == Kids(w.g.nodes, d)
  {
    assert DeviceOk(w, d, {d});
    assert ImplicitOk(w, d, x);
    forall e | e in w.devices && x in Implicits(w.devices[e])
      ensures e == d
    {
      OneOwner(w, app, ext, d, e, x);
    }
    BindKeepsWInv(w, app, ext, {d}, d, k, x);
    v := Bind(w, d, k, x);
    MoveAssignRebinds(w.g, ext, d, k, x);
    MoveAssignKids(w.g, ext, d, k, x, d);
  }

  lemma OneOwner(w: World, app: multiset<Id>, ext: multiset<Id>, d: Id, e: Id, x: Id)
    requires WInv(w, app, ext, {d}) && x in w.g.nodes && w.g.nodes[x].parent == Some(d)
    requires e in w.devices && x in Implicits(w.devices[e])
    ensures e == d
  {
    if e in w.g.nodes {
      assert DeviceOk(w, e, {d});
      assert ImplicitOk(w, e, x);
    }
  }

  lemma MoveAssignKids(g: Graph, ext: multiset<Id>, o: Id, k: nat, t: Id, p: Id)
    requires Inv(g, ext, multiset{}) && HasSlot(g, o, k) && g.nodes[o].iface > 0 && t in g.nodes
    ensures Kids(MoveAssign(g, o, k, t).nodes, p) == Kids(g.nodes, p)
  {
    hide Inv, DropAll;
    IncObjectKeepsInv(g, ext, t, multiset{});
    ReleaseSlotKeepsInv(IncObject(g, t), ext, o, k, multiset{t} + multiset{});
    var b := Reset(IncObject(g, t), o, k, None);
    ShrunkKids(SetSlot(IncObject(g, t), o, k, None), b, p);
    KidsSame(b.nodes, o, SetSlot(b, o, k, Some(t)).nodes[o], p);
    assert Kids(SetSlot(IncObject(g, t), o, k, None).nodes, p) == Kids(g.nodes, p);
  }

  lemma ShrunkKids(g: Graph, h: Graph, p: Id)
    requires Shrunk(g, h) && forall j | j in g.nodes && g.nodes[j].iface > 0 :: j in h.nodes
    ensures Kids(h.nodes, p) == Kids(g.nodes, p)
  {
    forall j | j in h.nodes
      ensures j in g.nodes && h.nodes[j].parent == g.nodes[j].parent && h.nodes[j].iface == g.nodes[j].iface
    {
      assert h.nodes[j] == g.nodes[j].(obj := h.nodes[j].obj);
    }
  }

  // ---------------------------------------------------------------------------------------------
  // All implicit objects of a device
  // ---------------------------------------------------------------------------------------------

  /** A bare or half-built device that the application references. */
  ghost predicate Rebuilding(w: World, d: Id, app: multiset<Id>, ext: multiset<Id>) {
    && WInv(w, app, ext, {d})
    && d in app
    && d in w.devices
    && !w.devices[d].destroying
  }

  lemma RebuildingFacts(w: World, d: Id, app: multiset<Id>, ext: multiset<Id>)
    requires Rebuilding(w, d, app, ext)
    ensures d in w.g.nodes && w.g.nodes[d].iface > 0 && |w.g.nodes[d].slots| == STATE_SLOTS
    ensures Pointers(w.devices[d]) && forall x | x in Implicits(w.devices[d]) :: x in w.g.nodes
    ensures UnderModule(w, d)
  {
    assert ext[d] == app[d] + Imp(w, d);
    CountsBoundOf(w.g, ext, d);
    assert DeviceOk(w, d, {d});
    forall x | x in Implicits(w.devices[d])
      ensures x in w.g.nodes
    {
      assert ImplicitOk(w, d, x);
    }
  }

  /** One implicit object created and recorded. */
  lemma AddImplicit(w: World, app: multiset<Id>, ext: multiset<Id>, d: Id, n: nat, dev: Device)
    returns (v: World, ext': multiset<Id>)
    requires Rebuilding(w, d, app, ext) && !dev.destroying
    requires Pointers(w.devices[d]) && w.g.next !in Implicits(w.devices[d]) ==>
               && Pointers(dev) && Implicits(dev) == Implicits(w.devices[d]) + {w.g.next}
               && Tokens(dev, w.g.next) == n + 1
               && forall y | y in Implicits(w.devices[d]) :: Tokens(dev, y) == Tokens(w.devices[d], y)
    ensures CanCreate(w.g, d)
    ensures v == w.(g := NewImplicit(w.g, d, n), devices := w.devices[d := dev])
    ensures Rebuilding(v, d, app, ext')
    ensures w.g.next !in w.g.nodes && Kids(v.g.nodes, d) == Kids(w.g.nodes, d) + {w.g.next}
  {
    hide WInv, Pointers, Implicits, Tokens;
    RebuildingFacts(w, d, app, ext);
    var u;
    u, ext' := NewImplicitKeeps(w, app, ext, {d}, d, n);
    assert app + Many(w.g.next, Tokens(dev, w.g.next)) == app + Many(w.g.next, n + 1);
    v := RegisterKeeps(u, app, ext', d, w.g.next, dev);
  }

  /** Adding one more pointer to a device, whichever it is. */
  lemma OneMorePointer(dev: Device, x: Id, dev': Device)
    requires Pointers(dev) && x !in Implicits(dev) && dev'.implicitRefCnt == dev.implicitRefCnt + 1
    requires || (dev.swapchain.None? && dev'.swapchain == Some(x)
                 && dev'.renderTarget == dev.renderTarget && dev'.depthStencil == dev.depthStencil)
             || (dev.renderTarget.None? && dev'.renderTarget == Some(x)
                 && dev'.swapchain == dev.swapchain && dev'.depthStencil == dev.depthStencil)
             || (dev.depthStencil.None? && dev'.depthStencil == Some(x)
                 && dev'.renderTarget == dev.renderTarget && dev'.swapchain == dev.swapchain)
    ensures Pointers(dev') && Implicits(dev') == Implicits(dev) + {x}
  {
    assert Implicits(dev') == Implicits(dev) + {x};
    assert PointersDistinct(dev') by {
      assert x !in One(dev.renderTarget) && x !in One(dev.depthStencil) && x !in One(dev.swapchain);
    }
  }

  lemma InitSwapchainKeeps(w: World, app: multiset<Id>, ext: multiset<Id>, d: Id, pres: Present)
    returns (v: World, ext': multiset<Id>)
    requires Rebuilding(w, d, app, ext) && w.devices[d].swapchain.None?
    ensures v == InitSwapchain(w, d, pres) && Rebuilding(v, d, app, ext')
    ensures v.devices == w.devices[d := WithSwapchain(w.devices[d], w.g.next, pres)] && v.teardowns == w.teardowns
    ensures w.g.next !in w.g.nodes && Kids(v.g.nodes, d) == Kids(w.g.nodes, d) + {w.g.next}
  {
    hide WInv, NewImplicit, Pointers;
    var dev := WithSwapchain(w.devices[d], w.g.next, pres);
    if Pointers(w.devices[d]) && w.g.next !in Implicits(w.devices[d]) {
      OneMorePointer(w.devices[d], w.g.next, dev);
    }
    v, ext' := AddImplicit(w, app, ext, d, pres.backBufferCount, dev);
  }

  lemma SurfaceRecorded(was: Device, x: Id, dev: Device)
    requires || (was.renderTarget.None? && dev == WithRenderTarget(was, x))
             || (was.depthStencil.None? && dev == WithDepthStencil(was, x))
    ensures Pointers(was) && x !in Implicits(was) ==>
              && Pointers(dev) && Implicits(dev) == Implicits(was) + {x} && Tokens(dev, x) == 1
              && forall y | y in Implicits(was) :: Tokens(dev, y) == Tokens(was, y)
    ensures x in Implicits(dev)
  {
    if Pointers(was) && x !in Implicits(was) {
      OneMorePointer(was, x, dev);
    }
  }

  lemma InitSurfaceKeeps(w: World, app: multiset<Id>, ext: multiset<Id>, d: Id, dev: Device, k: nat)
    returns (v: World, ext': multiset<Id>)
    requires Rebuilding(w, d, app, ext) && k < STATE_SLOTS
    requires || (w.devices[d].renderTarget.None? && dev == WithRenderTarget(w.devices[d], w.g.next))
             || (w.devices[d].depthStencil.None? && dev == WithDepthStencil(w.devices[d], w.g.next))
    ensures v == InitSurface(w, d, dev, k) && Rebuilding(v, d, app, ext')
    ensures v.devices == w.devices[d := dev] && v.teardowns == w.teardowns
    ensures w.g.next !in w.g.nodes && Kids(v.g.nodes, d) == Kids(w.g.nodes, d) + {w.g.next}
  {
    hide WInv, NewImplicit, Bind, UnderModule, Pointers, Implicits, Tokens;
    SurfaceRecorded(w.devices[d], w.g.next, dev);
    var u;
    u, ext' := AddImplicit(w, app, ext, d, 0, dev);
    RebuildingFacts(u, d, app, ext');
    v := BindOwn(u, app, ext', d, k, w.g.next);
  }

  /** A device with a full set of implicit objects is no longer being rebuilt. */
  lemma Rebuilt(w: World, app: multiset<Id>, ext: multiset<Id>, d: Id)
    requires Rebuilding(w, d, app, ext) && Full(w.devices[d])
    ensures WInv(w, app, ext, {})
  {
    forall e | e in w.devices && e in w.g.nodes
      ensures DeviceOk(w, e, {})
    {
      assert DeviceOk(w, e, {d});
    }
  }

  /** The three new children of `d` and their ids. */
  lemma InitImplicitKeeps(w: World, app: multiset<Id>, ext: multiset<Id>, d: Id, pres: Present)
    returns (v: World, ext': multiset<Id>)
    requires Rebuilding(w, d, app, ext) && NoPointers(w.devices[d])
    ensures v == InitImplicitObjects(w, d, pres) && WInv(v, app, ext', {})
    ensures v.teardowns == w.teardowns && v.devices.Keys == w.devices.Keys
    ensures !v.devices[d].destroying && v.devices[d].pres == pres
    ensures forall e | e in w.devices && e != d :: v.devices[e] == w.devices[e]
    ensures d in v.g.nodes && Full(v.devices[d])
    ensures |Kids(v.g.nodes, d)| == |Kids(w.g.nodes, d)| + v.devices[d].implicitRefCnt
  {
    hide WInv, InitSwapchain, InitSurface, Tokens, UnderModule, Kids;
    var w1, ext1 := InitSwapchainKeeps(w, app, ext, d, pres);
    var w2, ext2 := InitSurfaceKeeps(w1, app, ext1, d, WithRenderTarget(w1.devices[d], w1.g.next), RENDER_TARGET_0);
    NotAKid(w, d, w.g.next);
    NotAKid(w1, d, w1.g.next);
    if pres.autoDepthStencil {
      v, ext' := InitSurfaceKeeps(w2, app, ext2, d, WithDepthStencil(w2.devices[d], w2.g.next), DEPTH_STENCIL);
      NotAKid(w2, d, w2.g.next);
    } else {
      v, ext' := w2, ext2;
    }
    RebuildingFacts(v, d, app, ext');
    Rebuilt(v, app, ext', d);
  }

  lemma NotAKid(w: World, d: Id, x: Id)
    requires x !in w.g.nodes
    ensures x !in Kids(w.g.nodes, d)
  {
  }

  // ---------------------------------------------------------------------------------------------
  // Reset
  // ---------------------------------------------------------------------------------------------

  /** releaseInternalObjects without a teardown leaves a bare device behind. */
  lemma BareDevice(w: World, app: multiset<Id>, ext: multiset<Id>, d: Id) returns (v: World, left: multiset<Id>)
    requires WInv(w, app, ext, {}) && d in app && d in w.devices && !w.devices[d].destroying
    ensures v == ReleaseInternalObjects(w, d) && Rebuilding(v, d, app, left)
    ensures v.devices == w.devices[d := Torn(w.devices[d])] && v.teardowns == w.teardowns
  {
    hide ReleaseInternalObjects, Inv, Frame, Spent, UnderModule;
    AppIsAlive(w, app, ext, d);
    left := DismantleKeeps(w, w, d, app, ext);
    v := ReleaseInternalObjects(w, d);
    AppIsReferenced(v, app, left, d);
    BareIsRebuilding(v, app, left, d, w.devices[d]);
  }

  lemma BareFrame(w: World, app: multiset<Id>, ext: multiset<Id>, d: Id)
    requires WInv(w, app, ext, {}) && d in app && d in w.devices && !w.devices[d].destroying
    ensures exists s :: Frame(w.g, ReleaseInternalObjects(w, d).g, s)
  {
    hide ReleaseInternalObjects, Inv, Frame, Spent, WInv, Ledger, Implicits;
    AppIsAlive(w, app, ext, d);
    var left := DismantleKeeps(w, w, d, app, ext);
    assert Frame(w.g, ReleaseInternalObjects(w, d).g, Implicits(w.devices[d]) + {d, w.g.nodes[d].parent.value});
  }

  lemma AppIsReferenced(v: World, app: multiset<Id>, ext: multiset<Id>, d: Id)
    requires Inv(v.g, ext, multiset{}) && Ledger(v, app, ext) && d in app
    ensures d in v.g.nodes
  {
    assert ext[d] == app[d] + Imp(v, d);
  }

  lemma BareIsRebuilding(v: World, app: multiset<Id>, ext: multiset<Id>, d: Id, dev: Device)
    requires Inv(v.g, ext, multiset{}) && Ledger(v, app, ext) && d in app
    requires d in v.devices && v.devices[d] == Torn(dev) && !dev.destroying
    requires d in v.g.nodes && UnderModule(v, d) && |v.g.nodes[d].slots| == STATE_SLOTS && Holders(v.g.nodes, d) == {}
    requires forall e | e in v.devices && e != d && e in v.g.nodes :: DeviceOk(v, e, {})
    requires forall e | e in v.devices && e != d && e !in v.g.nodes :: NoPointers(v.devices[e]) && e < v.g.next
    ensures Rebuilding(v, d, app, ext)
  {
    hide Inv, Ledger, UnderModule;
    assert Implicits(v.devices[d]) == {};
    forall e | e in v.devices && e in v.g.nodes
      ensures DeviceOk(v, e, {d})
    {
      if e != d {
        assert DeviceOk(v, e, {});
      }
    }
    WInvFromDevices(v, app, ext, {d});
  }

  lemma AppIsAlive(w: World, app: multiset<Id>, ext: multiset<Id>, d: Id)
    requires WInv(w, app, ext, {}) && d in app && d in w.devices && !w.devices[d].destroying
    ensures d in w.g.nodes && w.g.nodes[d].iface > w.devices[d].implicitRefCnt
  {
    AppIsReferenced(w, app, ext, d);
    FullDeviceCounts(w, app, ext, d);
    CardinalitySubset(Implicits(w.devices[d]), Kids(w.g.nodes, d));
  }

  /** The children a bare device is left with. */
  lemma BareKids(w: World, app: multiset<Id>, ext: multiset<Id>, d: Id)
    requires WInv(w, app, ext, {}) && d in app && d in w.devices && !w.devices[d].destroying
    ensures Kids(ReleaseInternalObjects(w, d).g.nodes, d)
         == Kids(w.g.nodes, d) - Implicits(w.devices[d]) + HeldImplicits(w, app, d)
  {
    hide BeforeCompensation, BaseReleaseN, Inv, WInv, Frame, Implicits, HeldImplicits, Stripped, UnderModule;
    AppIsAlive(w, app, ext, d);
    var w3, left := Strip(w, w, d, app, ext);
    StrippedKidsAre(w, w3, d, app, left);
    Compensate(w, w3, d, app, left, w.devices[d].implicitRefCnt);
  }

  lemma StrippedKidsAre(w: World, w3: World, d: Id, app: multiset<Id>, left: multiset<Id>)
    requires Stripped(w, w3, d, app, left)
    ensures d in w3.g.nodes && w3.g.nodes[d].parent.Some?
    ensures Kids(w3.g.nodes, d) == Kids(w.g.nodes, d) - Implicits(w.devices[d]) + HeldImplicits(w, app, d)
  {
  }

  /** Reset on a device the application references, with any new presentation parameters: the invariant
      holds again, nothing is torn down, and the reference count the application sees grows by the number of
      old implicit objects that something still holds. It is preserved if and only if there are none. */
  lemma ResetKeeps(w: World, app: multiset<Id>, ext: multiset<Id>, d: Id, pres: Present) returns (ext': multiset<Id>)
    requires WInv(w, app, ext, {}) && d in app && d in w.devices && !w.devices[d].destroying
    ensures d in w.g.nodes && Visible(w, d) >= app[d] >= 1
    ensures var v := ResetDevice(w, d, pres);
            && WInv(v, app, ext', {}) && v.teardowns == w.teardowns && v.devices.Keys == w.devices.Keys
            && d in v.g.nodes && Full(v.devices[d]) && v.devices[d].pres == Sanitize(pres)
            && (forall e | e in w.devices :: v.devices[e].destroying == w.devices[e].destroying)
            && Visible(v, d) == Visible(w, d) + |HeldImplicits(w, app, d)|
            && (Visible(v, d) == Visible(w, d) <==> HeldImplicits(w, app, d) == {})
  {
    hide ReleaseInternalObjects, WInv, InitImplicitObjects, HeldImplicits, Implicits, Kids, Full, Rebuilding;
    AppIsAlive(w, app, ext, d);
    FullDeviceCounts(w, app, ext, d);
    var w1, left := BareDevice(w, app, ext, d);
    BareKids(w, app, ext, d);
    HeldAreImplicit(w, app, d);
    CountSwap(Kids(w.g.nodes, d), Implicits(w.devices[d]), HeldImplicits(w, app, d));
    TornIsBare(w.devices[d]);
    var v;
    v, ext' := InitImplicitKeeps(w1, app, left, d, Sanitize(pres));
    FullDeviceCounts(v, app, ext', d);
  }

  lemma HeldAreImplicit(w: World, app: multiset<Id>, d: Id)
    requires d in w.devices
    ensures HeldImplicits(w, app, d) <= Implicits(w.devices[d])
  {
  }

  lemma TornIsBare(dev: Device)
    ensures NoPointers(Torn(dev))
  {
  }

  lemma CountSwap(a: set<Id>, b: set<Id>, c: set<Id>)
    requires b <= a && c <= b
    ensures |a - b + c| == |a| - |b| + |c|
    ensures |c| == 0 <==> c == {}
  {
    assert a == (a - b) + b && (a - b) !! b && (a - b) !! c;
  }
}
