/** The device on top of the object graph: its overridden Release, and what it owns and tears down. */
module DeviceLifecycle {
  import opened Options
  import opened ObjectGraph
  import opened GraphCounting
  import opened GraphDrops
  import opened ObjectOps

  // The device owns the implicit swapchain, render target and depth stencil. Each of them is an ordinary child
  // of the device, so it holds the device alive; the device subtracts `implicitRefCnt` of its own references
  // from what it shows the application.

  datatype Present = Present(backBufferCount: nat, autoDepthStencil: bool)

  datatype Device = Device(
    implicitRefCnt: nat,
    destroying: bool,                // m_bIsDestroying
    renderTarget: Option<Id>,
    depthStencil: Option<Id>,
    swapchain: Option<Id>,
    pres: Present)

  datatype World = World(g: Graph, devices: map<Id, Device>, teardowns: seq<Id>)

  // The D3DAutoPtr fields of State, in the order releaseInternalObjects resets them.
  const TEXTURES: nat := 21
  const RENDER_TARGET_0: nat := TEXTURES
  const INDICES: nat := TEXTURES + 4 + 16
  const DEPTH_STENCIL: nat := INDICES + 1
  const STATE_SLOTS: nat := DEPTH_STENCIL + 4

  ghost function Pending(w: World): set<Id> {
    set d | d in w.devices && !w.devices[d].destroying
  }

  // ---------------------------------------------------------------------------------------------
  // Release and teardown
  // ---------------------------------------------------------------------------------------------

  /** D3DBase::Release. The parent's Release is the overridden one. */
  function BaseRelease(w: World, i: Id): (r: World)
    ensures Pending(r) <= Pending(w) && r.devices.Keys == w.devices.Keys
    decreases |Pending(w)|, 0, i, 0
  {
    if i !in w.g.nodes || w.g.nodes[i].iface == 0 || w.g.nodes[i].obj == 0 then w
    else
      var n := w.g.nodes[i];
      var w1 := w.(g := DecInterface(w.g, i));
      if n.iface == 1 && n.parent.Some? && n.parent.value < i then Release(w1, n.parent.value) else w1
  }

  /** Release as the application and the children of an object call it. On a device, reaching the implicit
      reference count starts the teardown, unless one is already under way. */
  function Release(w: World, i: Id): (r: World)
    ensures Pending(r) <= Pending(w) && r.devices.Keys == w.devices.Keys
    decreases |Pending(w)|, 0, i, 1
  {
    var w1 := BaseRelease(w, i);
    var cnt := if i in w.g.nodes && w.g.nodes[i].iface > 0 then w.g.nodes[i].iface - 1 else 0;
    PendingShrinks(w1, w);
    if i in w1.devices && i in w1.g.nodes && !w1.devices[i].destroying && cnt == w1.devices[i].implicitRefCnt then
      var w2 := BeginTeardown(w1, i);
      assert i in Pending(w1) && i !in Pending(w2);
      PendingStrictlyShrinks(w2, w1);
      ReleaseInternalObjects(w2, i)
    else w1
  }

  function BeginTeardown(w: World, d: Id): (r: World)
    requires d in w.devices
    ensures Pending(r) <= Pending(w) && r.devices.Keys == w.devices.Keys
  {
    w.(devices := w.devices[d := w.devices[d].(destroying := true)], teardowns := w.teardowns + [d])
  }

  lemma PendingShrinks(a: World, b: World)
    requires Pending(a) <= Pending(b)
    ensures |Pending(a)| <= |Pending(b)|
  {
    CardinalitySubset(Pending(a), Pending(b));
  }

  lemma PendingStrictlyShrinks(a: World, b: World)
    requires Pending(a) < Pending(b)
    ensures |Pending(a)| < |Pending(b)|
  {
    assert exists x :: x in Pending(b) && x !in Pending(a);
    var x :| x in Pending(b) && x !in Pending(a);
    CardinalitySubset(Pending(a), Pending(b) - {x});
  }

  lemma {:induction false} CardinalitySubset<T>(a: set<T>, b: set<T>)
    requires a <= b
    ensures |a| <= |b|
    ensures |a| == |b| ==> a == b
    decreases |a|
  {
    if a == {} {
      assert |b| == 0 ==> b == {};
    } else {
      var x :| x in a;
      CardinalitySubset(a - {x}, b - {x});
      assert a == a - {x} + {x} && b == b - {x} + {x};
    }
  }

  function ReleaseN(w: World, i: Id, n: nat): (r: World)
    ensures Pending(r) <= Pending(w) && r.devices.Keys == w.devices.Keys
    decreases |Pending(w)|, 1, n
  {
    if n == 0 then w
    else
      var w1 := Release(w, i);
      PendingShrinks(w1, w);
      ReleaseN(w1, i, n - 1)
  }

  function BaseReleaseN(w: World, i: Id, n: nat): (r: World)
    ensures Pending(r) <= Pending(w) && r.devices.Keys == w.devices.Keys
    decreases |Pending(w)|, 1, n
  {
    if n == 0 then w
    else
      var w1 := BaseRelease(w, i);
      PendingShrinks(w1, w);
      BaseReleaseN(w1, i, n - 1)
  }

  /** Releases one implicit object, then forgets it and resets the state slot that showed it. */
  function DestroyRenderTarget(w: World, d: Id): (r: World)
    requires d in w.devices
    ensures Pending(r) <= Pending(w) && r.devices.Keys == w.devices.Keys
    decreases |Pending(w)|, 1, 0
  {
    if w.devices[d].renderTarget.None? then w else
      var w1 := Release(w, w.devices[d].renderTarget.value);
      var dev := w1.devices[d];
      var w2 := w1.(devices := w1.devices[d := dev.(renderTarget := None, implicitRefCnt := Minus1(dev.implicitRefCnt))]);
      if HasSlot(w2.g, d, RENDER_TARGET_0) then w2.(g := Reset(w2.g, d, RENDER_TARGET_0, None)) else w2
  }

  function DestroyDepthStencil(w: World, d: Id): (r: World)
    requires d in w.devices
    ensures Pending(r) <= Pending(w) && r.devices.Keys == w.devices.Keys
    decreases |Pending(w)|, 1, 0
  {
    if w.devices[d].depthStencil.None? then w else
      var w1 := Release(w, w.devices[d].depthStencil.value);
      var dev := w1.devices[d];
      var w2 := w1.(devices := w1.devices[d := dev.(depthStencil := None, implicitRefCnt := Minus1(dev.implicitRefCnt))]);
      if HasSlot(w2.g, d, DEPTH_STENCIL) then w2.(g := Reset(w2.g, d, DEPTH_STENCIL, None)) else w2
  }

  /** The back buffers share the swapchain's counter: one Release each, and one for the swapchain itself. */
  function DestroySwapchain(w: World, d: Id): (r: World)
    requires d in w.devices
    ensures Pending(r) <= Pending(w) && r.devices.Keys == w.devices.Keys
    decreases |Pending(w)|, 2, 0
  {
    if w.devices[d].swapchain.None? then w else
      var w1 := ReleaseN(w, w.devices[d].swapchain.value, w.devices[d].pres.backBufferCount);
      PendingShrinks(w1, w);
      var w2 := Release(w1, w.devices[d].swapchain.value);
      var dev := w2.devices[d];
      w2.(devices := w2.devices[d := dev.(swapchain := None, implicitRefCnt := Minus1(dev.implicitRefCnt))])
  }

  function Minus1(n: nat): nat {
    if n == 0 then 0 else n - 1  // never taken at 0: the count is the number of implicit objects
  }

  function DestroyImplicitObjects(w: World, d: Id): (r: World)
    requires d in w.devices
    ensures Pending(r) <= Pending(w) && r.devices.Keys == w.devices.Keys
    decreases |Pending(w)|, 3, 0
  {
    var w1 := DestroyRenderTarget(w, d);
    PendingShrinks(w1, w);
    var w2 := if w.devices[d].pres.autoDepthStencil then DestroyDepthStencil(w1, d) else w1;
    PendingShrinks(w2, w1);
    DestroySwapchain(w2, d)
  }

  function AddRefN(g: Graph, d: Id, n: nat): Graph
    decreases n
  {
    if n == 0 || d !in g.nodes then g else AddRefN(IncBoth(g, d), d, n - 1)
  }

  function ResetSlots(g: Graph, d: Id, k: nat): Graph
    decreases STATE_SLOTS - k
  {
    if k >= STATE_SLOTS then g
    else ResetSlots(if HasSlot(g, d, k) then Reset(g, d, k, None) else g, d, k + 1)
  }

  /** releaseInternalObjects up to its last loop: the device references itself once per implicit object, and
      drops those objects and every state slot. */
  function BeforeCompensation(w: World, d: Id): (r: World)
    requires d in w.devices
    ensures Pending(r) <= Pending(w) && r.devices.Keys == w.devices.Keys
    decreases |Pending(w)|, 4, 0
  {
    var w1 := w.(g := AddRefN(w.g, d, w.devices[d].implicitRefCnt));
    assert Pending(w1) == Pending(w);
    var w2 := DestroyImplicitObjects(w1, d);
    PendingShrinks(w2, w);
    var w3 := w2.(g := ResetSlots(w2.g, d, 0));
    assert Pending(w3) == Pending(w2);
    w3
  }

  /** The last loop gives those references back through the base class, so that nothing before it can bring
      the count to zero. */
  function ReleaseInternalObjects(w: World, d: Id): (r: World)
    requires d in w.devices
    ensures Pending(r) <= Pending(w) && r.devices.Keys == w.devices.Keys
    decreases |Pending(w)|, 5, 0
  {
    var w3 := BeforeCompensation(w, d);
    PendingShrinks(w3, w);
    BaseReleaseN(w3, d, w.devices[d].implicitRefCnt)
  }
}
