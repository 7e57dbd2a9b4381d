/**
 What releaseInternalObjects does to the graph, step by step.

 Each step is described by the tokens it spends and by a frame: what may change, what can only be emptied, and
 that whatever died went down whole.
 */
module DeviceTeardown {
  import opened Options
  import opened ObjectGraph
  import opened GraphCounting
  import opened GraphDrops
  import opened ObjectOps
  import opened DeviceLifecycle

  // ---------------------------------------------------------------------------------------------
  // Frames
  // ---------------------------------------------------------------------------------------------

  /** Between `g` and `h`, object `c` went down with all its members, logged next to each other. */
  ghost predicate DiedWhole(g: Graph, h: Graph, c: Id)
    requires c in g.nodes
  {
    exists at: nat {:trigger WentDownWhole(h.log, c, Somes(g.nodes[c].children), at)} ::
      |g.log| <= at && WentDownWhole(h.log, c, Somes(g.nodes[c].children), at)
  }

  /** `h` is a later state of `g` in which nothing was created or bound, and interface counts changed at
      most in `s`. */
  ghost predicate Frame(g: Graph, h: Graph, s: set<Id>) {
    && h.next == g.next
    && h.owner.Keys <= g.owner.Keys
    && g.log <= h.log
    && (forall c {:trigger DiedWhole(g, h, c)} | c in g.nodes && c !in h.nodes ::
          DiedWhole(g, h, c))
    && (forall j | j in h.nodes :: j in g.nodes && SameBut(g.nodes[j], h.nodes[j]))
    && (forall j | j in h.nodes && j !in s :: h.nodes[j].iface == g.nodes[j].iface)
    && (forall j | j in g.nodes && j !in s && g.nodes[j].iface > 0 :: j in h.nodes)
  }

  /** Same parent, same vectors, and every slot unchanged or emptied. */
  ghost predicate SameBut(a: Node, b: Node) {
    && b.parent == a.parent && b.children == a.children && |b.slots| == |a.slots|
    && (forall k | 0 <= k < |a.slots| :: b.slots[k] == a.slots[k] || b.slots[k].None?)
  }

  lemma FrameTrans(g: Graph, h: Graph, k: Graph, s: set<Id>, t: set<Id>)
    requires Frame(g, h, s) && Frame(h, k, t)
    ensures Frame(g, k, s + t)
  {
    forall j | j in k.nodes
      ensures j in g.nodes && SameBut(g.nodes[j], k.nodes[j])
    {
      assert SameBut(g.nodes[j], h.nodes[j]) && SameBut(h.nodes[j], k.nodes[j]);
    }
    forall c | c in g.nodes && c !in k.nodes
      ensures DiedWhole(g, k, c)
    {
      DiedWholeTrans(g, h, k, c);
    }
  }

  lemma DiedWholeTrans(g: Graph, h: Graph, k: Graph, c: Id)
    requires c in g.nodes && c !in k.nodes && g.log <= h.log <= k.log
    requires if c in h.nodes then DiedWhole(h, k, c) && h.nodes[c].children == g.nodes[c].children else DiedWhole(g, h, c)
    ensures DiedWhole(g, k, c)
  {
    var members := Somes(g.nodes[c].children);
    if c in h.nodes {
      var at: nat :| |h.log| <= at && WentDownWhole(k.log, c, members, at);
      assert |g.log| <= at && WentDownWhole(k.log, c, members, at);
    } else {
      var at: nat :| |g.log| <= at && WentDownWhole(h.log, c, members, at);
      assert k.log[at..at + 1 + |members|] == h.log[at..at + 1 + |members|];
      assert WentDownWhole(k.log, c, members, at);
    }
  }

  /** What dies of dropping pointers dies whole. */
  lemma DropAllDiesWhole(g: Graph, ext: multiset<Id>, pend: seq<Id>, keep: multiset<Id>, c: Id)
    requires Inv(g, ext, multiset(pend) + keep) && c in g.nodes && c !in DropAll(g, pend).nodes
    ensures DiedWhole(g, DropAll(g, pend), c)
  {
    var at := ContainerDiesWhole(g, ext, pend, keep, c);
  }

  lemma FrameRefl(g: Graph, s: set<Id>)
    ensures Frame(g, g, s)
  {
  }

  lemma FrameWeaken(g: Graph, h: Graph, s: set<Id>, t: set<Id>)
    requires Frame(g, h, s) && s <= t
    ensures Frame(g, h, t)
  {
  }

  lemma FrameHolders(g: Graph, h: Graph, s: set<Id>, x: Id)
    requires Frame(g, h, s)
    ensures Holders(h.nodes, x) <= Holders(g.nodes, x)
  {
    forall i, k: nat | (i, k) in Holders(h.nodes, x)
      ensures (i, k) in Holders(g.nodes, x)
    {
      assert SameBut(g.nodes[i], h.nodes[i]);
    }
  }

  /** The children that reference `p` only change where interface counts did. */
  lemma FrameKids(g: Graph, h: Graph, s: set<Id>, p: Id)
    requires Frame(g, h, s)
    ensures Kids(h.nodes, p) - s == Kids(g.nodes, p) - s
  {
    forall c | c in h.nodes
      ensures h.nodes[c].parent == g.nodes[c].parent
    {
      assert SameBut(g.nodes[c], h.nodes[c]);
    }
  }

  lemma DecDiesWhole(g: Graph, ext: multiset<Id>, i: Id, c: Id)
    requires Inv(g, ext, multiset{}) && i in ext && i in g.nodes && 0 < g.nodes[i].iface <= g.nodes[i].obj
    requires c in g.nodes && c !in DecInterface(g, i).nodes
    ensures DiedWhole(g, DecInterface(g, i), c)
  {
    LowerInterfaceKeepsInv(g, ext, i);
    DecInterfaceIsDrop(g, i);
    var l := LowerInterface(g, i);
    assert multiset([i]) + multiset{} == multiset{i};
    DropAllDiesWhole(l, ext - multiset{i} + ParentToken(g, i), [i], multiset{}, c);
    var at: nat :| |l.log| <= at && WentDownWhole(DecInterface(g, i).log, c, Somes(l.nodes[c].children), at);
    assert l.nodes[c].children == g.nodes[c].children;
    assert WentDownWhole(DecInterface(g, i).log, c, Somes(g.nodes[c].children), at);
  }

  lemma DecFrame(g: Graph, ext: multiset<Id>, i: Id)
    requires Inv(g, ext, multiset{}) && i in ext
    ensures i in g.nodes && 0 < g.nodes[i].iface <= g.nodes[i].obj
    ensures Inv(DecInterface(g, i), ext - multiset{i} + ParentToken(g, i), multiset{})
    ensures Frame(g, DecInterface(g, i), {i})
    ensures i in DecInterface(g, i).nodes ==> DecInterface(g, i).nodes[i].iface == g.nodes[i].iface - 1
    ensures g.nodes[i].iface > 1 ==> i in DecInterface(g, i).nodes
  {
    DecInterfaceKeepsInv(g, ext, i);
    var l, h := LowerInterface(g, i), DecInterface(g, i);
    forall j | j in h.nodes
      ensures j in g.nodes && SameBut(g.nodes[j], h.nodes[j])
    {
      assert h.nodes[j] == l.nodes[j].(obj := h.nodes[j].obj);
    }
    forall c | c in g.nodes && c !in h.nodes
      ensures DiedWhole(g, h, c)
    {
      DecDiesWhole(g, ext, i, c);
    }
  }

  lemma SlotDiesWhole(g: Graph, ext: multiset<Id>, o: Id, k: nat, c: Id)
    requires Inv(g, ext, multiset{}) && HasSlot(g, o, k) && c in g.nodes && c !in Reset(g, o, k, None).nodes
    ensures DiedWhole(g, Reset(g, o, k, None), c)
  {
    ClearSlotKeepsInv(g, ext, o, k, multiset{});
    var l, h := SetSlot(g, o, k, None), Reset(g, o, k, None);
    DropAllDiesWhole(l, ext, Somes([g.nodes[o].slots[k]]), multiset{}, c);
    var at: nat :| |l.log| <= at && WentDownWhole(h.log, c, Somes(l.nodes[c].children), at);
    assert l.nodes[c].children == g.nodes[c].children;
    assert WentDownWhole(h.log, c, Somes(g.nodes[c].children), at);
  }

  lemma ReleaseSlotFrame(g: Graph, ext: multiset<Id>, o: Id, k: nat)
    requires Inv(g, ext, multiset{}) && HasSlot(g, o, k)
    ensures Inv(Reset(g, o, k, None), ext, multiset{})
    ensures Frame(g, Reset(g, o, k, None), {})
    ensures o in Reset(g, o, k, None).nodes ==>
              Reset(g, o, k, None).nodes[o].slots == g.nodes[o].slots[k := None]
  {
    ReleaseSlotKeepsInv(g, ext, o, k, multiset{});
    var l, h := SetSlot(g, o, k, None), Reset(g, o, k, None);
    forall j | j in h.nodes
      ensures j in g.nodes && SameBut(g.nodes[j], h.nodes[j]) && h.nodes[j].iface == g.nodes[j].iface
    {
      assert h.nodes[j] == l.nodes[j].(obj := h.nodes[j].obj);
    }
    forall c | c in g.nodes && c !in h.nodes
      ensures DiedWhole(g, h, c)
    {
      SlotDiesWhole(g, ext, o, k, c);
    }
  }

  // ---------------------------------------------------------------------------------------------
  // Steps
  // ---------------------------------------------------------------------------------------------

  /** Release of an object that stays referenced, seen on the graph alone. */
  lemma QuietRelease(w: World, d: Id)
    requires d in w.g.nodes && 1 < w.g.nodes[d].iface <= w.g.nodes[d].obj
    requires d in w.devices && !w.devices[d].destroying ==> w.g.nodes[d].iface - 1 != w.devices[d].implicitRefCnt
    ensures Release(w, d) == w.(g := DecInterface(w.g, d))
  {
  }

  /** What releasing child `x` of device `d` does as long as the device does not notice. */
  function ImplicitDrop(g: Graph, x: Id, d: Id): Graph
    requires x in g.nodes && 0 < g.nodes[x].iface <= g.nodes[x].obj
  {
    var h := DecInterface(g, x);
    if g.nodes[x].iface == 1 && d in h.nodes && 0 < h.nodes[d].iface <= h.nodes[d].obj then DecInterface(h, d) else h
  }

  lemma CountsBound(g: Graph, ext: multiset<Id>, i: Id)
    requires Inv(g, ext, multiset{}) && i in g.nodes
    ensures ext[i] <= g.nodes[i].iface <= g.nodes[i].obj && 0 < g.nodes[i].obj
    ensures g.nodes[i].iface == ext[i] + |Kids(g.nodes, i)|
  {
    assert CountsOk(g.nodes, ext, multiset{}, i);
  }

  lemma ParentIsOlder(g: Graph, ext: multiset<Id>, i: Id)
    requires Inv(g, ext, multiset{}) && i in g.nodes && g.nodes[i].parent.Some?
    ensures g.nodes[i].parent.value < i
  {
    assert LinksOk(g.nodes, i);
  }

  lemma ImplicitDropKeepsInv(g: Graph, ext: multiset<Id>, x: Id, d: Id)
    requires Inv(g, ext, multiset{}) && x in ext
    requires x in g.nodes && g.nodes[x].parent == Some(d) && d in g.nodes && g.nodes[d].iface >= 2
    ensures 0 < g.nodes[x].iface <= g.nodes[x].obj
    ensures Inv(ImplicitDrop(g, x, d), ext - multiset{x}, multiset{})
    ensures Frame(g, ImplicitDrop(g, x, d), {x, d})
    ensures d in ImplicitDrop(g, x, d).nodes
    ensures ImplicitDrop(g, x, d).nodes[d].iface >= g.nodes[d].iface - 1
  {
    ParentIsOlder(g, ext, x);
    DecFrame(g, ext, x);
    var h := DecInterface(g, x);
    assert h.nodes[d].iface == g.nodes[d].iface;
    if g.nodes[x].iface == 1 {
      LastImplicitDrop(h, ext - multiset{x}, d);
      FrameTrans(g, h, DecInterface(h, d), {x}, {d});
      assert {x} + {d} == {x, d};
    } else {
      assert ext - multiset{x} + multiset{} == ext - multiset{x};
      FrameWeaken(g, h, {x}, {x, d});
    }
  }

  lemma LastImplicitDrop(h: Graph, ext: multiset<Id>, d: Id)
    requires Inv(h, ext + multiset{d}, multiset{}) && d in h.nodes && h.nodes[d].iface >= 2
    ensures 0 < h.nodes[d].iface <= h.nodes[d].obj
    ensures Inv(DecInterface(h, d), ext, multiset{})
    ensures Frame(h, DecInterface(h, d), {d})
    ensures d in DecInterface(h, d).nodes && DecInterface(h, d).nodes[d].iface == h.nodes[d].iface - 1
  {
    DecFrame(h, ext + multiset{d}, d);
    assert ext + multiset{d} - multiset{d} + multiset{} == ext;
  }

  lemma ImplicitRelease(w: World, ext: multiset<Id>, x: Id, d: Id)
    requires Inv(w.g, ext, multiset{}) && x in ext && x !in w.devices
    requires x in w.g.nodes && w.g.nodes[x].parent == Some(d) && d in w.g.nodes && w.g.nodes[d].iface >= 2
    requires d in w.devices && !w.devices[d].destroying ==> w.g.nodes[d].iface - 1 != w.devices[d].implicitRefCnt
    ensures 0 < w.g.nodes[x].iface <= w.g.nodes[x].obj
    ensures Release(w, x) == w.(g := ImplicitDrop(w.g, x, d))
  {
    ParentIsOlder(w.g, ext, x);
    DecFrame(w.g, ext, x);
    var h := DecInterface(w.g, x);
    if w.g.nodes[x].iface == 1 {
      assert d in h.nodes && h.nodes[d].iface == w.g.nodes[d].iface;
      CountsBound(h, ext - multiset{x} + multiset{d}, d);
      QuietRelease(w.(g := h), d);
    }
  }

  // ---------------------------------------------------------------------------------------------
  // The implicit objects of one device
  // ---------------------------------------------------------------------------------------------

  ghost function One(x: Option<Id>): set<Id> {
    if x.Some? then {x.value} else {}
  }

  ghost function Implicits(dev: Device): set<Id> {
    One(dev.renderTarget) + One(dev.depthStencil) + One(dev.swapchain)
  }

  /** The interface references the device itself holds on `x`: one if it is an implicit object, and one more
      on the swapchain's shared counter for every back buffer. */
  function Tokens(dev: Device, x: Id): nat {
    (if dev.renderTarget == Some(x) then 1 else 0)
    + (if dev.depthStencil == Some(x) then 1 else 0)
    + (if dev.swapchain == Some(x) then dev.pres.backBufferCount + 1 else 0)
  }

  ghost predicate PointersDistinct(dev: Device) {
    && One(dev.renderTarget) !! One(dev.depthStencil)
    && One(dev.renderTarget) !! One(dev.swapchain)
    && One(dev.depthStencil) !! One(dev.swapchain)
  }

  ghost predicate Pointers(dev: Device) {
    PointersDistinct(dev) && dev.implicitRefCnt == |Implicits(dev)|
  }

  /** An implicit object is a child of its device and bound, if at all, in that device's state only. */
  ghost predicate ImplicitOk(w: World, d: Id, x: Id) {
    && x in w.g.nodes && x !in w.devices && w.g.nodes[x].parent == Some(d)
    && (forall h | h in Holders(w.g.nodes, x) :: h.0 == d)
  }

  /** Enough references on device `d` for `n` implicit objects to go without it noticing: none of their
      releases can bring it to zero or, outside a teardown, to the implicit count. */
  predicate Margin(g: Graph, d: Id, n: nat, destroying: bool)
    requires d in g.nodes
  {
    && g.nodes[d].iface > n
    && (!destroying ==> g.nodes[d].iface > 2 * n)
  }

  /** `imps` are the implicit objects of `d` not yet released. */
  ghost predicate Core(w: World, d: Id, ext: multiset<Id>, imps: set<Id>) {
    && Inv(w.g, ext, multiset{})
    && d in w.devices && d in w.g.nodes
    && (forall x {:trigger ImplicitOk(w, d, x)} | x in imps ::
          x in ext && ImplicitOk(w, d, x))
    && Margin(w.g, d, |imps|, w.devices[d].destroying)
  }

  /** The state in the middle of releaseInternalObjects. */
  ghost predicate Dismantling(w: World, d: Id, ext: multiset<Id>) {
    && d in w.devices && Pointers(w.devices[d])
    && (w.devices[d].swapchain.Some? ==> ext[w.devices[d].swapchain.value] > w.devices[d].pres.backBufferCount)
    && Core(w, d, ext, Implicits(w.devices[d]))
  }

  lemma FrameImplicitOk(w: World, v: World, s: set<Id>, d: Id, x: Id, ext: multiset<Id>)
    requires Frame(w.g, v.g, s) && ImplicitOk(w, d, x) && v.devices.Keys == w.devices.Keys
    requires Inv(v.g, ext, multiset{}) && x in ext
    ensures ImplicitOk(v, d, x)
  {
    FrameHolders(w.g, v.g, s, x);
    assert SameBut(w.g.nodes[x], v.g.nodes[x]);
  }

  function ForgetRenderTarget(dev: Device): Device {
    dev.(renderTarget := None, implicitRefCnt := Minus1(dev.implicitRefCnt))
  }

  function ForgetDepthStencil(dev: Device): Device {
    dev.(depthStencil := None, implicitRefCnt := Minus1(dev.implicitRefCnt))
  }

  function ForgetSwapchain(dev: Device): Device {
    dev.(swapchain := None, implicitRefCnt := Minus1(dev.implicitRefCnt))
  }

  lemma WithoutRenderTarget(dev: Device)
    requires dev.renderTarget.Some? && Pointers(dev)
    ensures Pointers(ForgetRenderTarget(dev)) && |Implicits(ForgetRenderTarget(dev))| == |Implicits(dev)| - 1
    ensures Implicits(ForgetRenderTarget(dev)) == Implicits(dev) - {dev.renderTarget.value}
    ensures dev.renderTarget.value in Implicits(dev)
  {
    assert Implicits(dev) == Implicits(ForgetRenderTarget(dev)) + {dev.renderTarget.value};
  }

  lemma WithoutDepthStencil(dev: Device)
    requires dev.depthStencil.Some? && Pointers(dev)
    ensures Pointers(ForgetDepthStencil(dev)) && |Implicits(ForgetDepthStencil(dev))| == |Implicits(dev)| - 1
    ensures Implicits(ForgetDepthStencil(dev)) == Implicits(dev) - {dev.depthStencil.value}
    ensures dev.depthStencil.value in Implicits(dev)
  {
    assert Implicits(dev) == Implicits(ForgetDepthStencil(dev)) + {dev.depthStencil.value};
  }

  lemma WithoutSwapchain(dev: Device)
    requires dev.swapchain.Some? && Pointers(dev)
    ensures Pointers(ForgetSwapchain(dev)) && |Implicits(ForgetSwapchain(dev))| == |Implicits(dev)| - 1
    ensures Implicits(ForgetSwapchain(dev)) == Implicits(dev) - {dev.swapchain.value}
    ensures dev.swapchain.value in Implicits(dev)
  {
    assert Implicits(dev) == Implicits(ForgetSwapchain(dev)) + {dev.swapchain.value};
  }

  /** One implicit object released and forgotten: the rest of the device is as before. */
  lemma ForgetImplicit(w: World, d: Id, ext: multiset<Id>, imps: set<Id>, x: Id, ext': multiset<Id>, v: World)
    requires Core(w, d, ext, imps) && x in imps
    requires Frame(w.g, v.g, {x, d}) && d in v.g.nodes && v.g.nodes[d].iface >= w.g.nodes[d].iface - 1
    requires Inv(v.g, ext', multiset{}) && forall y | y in imps - {x} :: ext'[y] == ext[y]
    requires v.devices.Keys == w.devices.Keys && v.devices[d].destroying == w.devices[d].destroying
    ensures Core(v, d, ext', imps - {x})
  {
    assert imps == (imps - {x}) + {x};
    assert |imps| == |imps - {x}| + 1;
    assert Margin(v.g, d, |imps - {x}|, v.devices[d].destroying) by {
      assert Margin(w.g, d, |imps|, w.devices[d].destroying);
    }
    forall y | y in imps - {x}
      ensures y in ext' && ImplicitOk(v, d, y)
    {
      assert ImplicitOk(w, d, y);
      assert ext'[y] == ext[y];
      FrameImplicitOk(w, v, {x, d}, d, y, ext');
    }
  }

  /** Emptying a state slot of the device on the way. */
  lemma SlotKeepsCore(w: World, d: Id, ext: multiset<Id>, imps: set<Id>, k: nat)
    requires Core(w, d, ext, imps) && HasSlot(w.g, d, k)
    ensures Core(w.(g := Reset(w.g, d, k, None)), d, ext, imps)
    ensures Frame(w.g, Reset(w.g, d, k, None), {})
  {
    ReleaseSlotFrame(w.g, ext, d, k);
    var v := w.(g := Reset(w.g, d, k, None));
    forall y | y in imps
      ensures y in ext && ImplicitOk(v, d, y)
    {
      assert ImplicitOk(w, d, y);
      FrameImplicitOk(w, v, {}, d, y, ext);
    }
  }

  /** The last reference the device holds on an implicit object is released quietly. */
  lemma ReleaseImplicit(w: World, d: Id, ext: multiset<Id>, imps: set<Id>, x: Id)
    requires Core(w, d, ext, imps) && x in imps
    requires !w.devices[d].destroying ==> w.devices[d].implicitRefCnt <= |imps|
    ensures x in ext && x in w.g.nodes && 0 < w.g.nodes[x].iface <= w.g.nodes[x].obj
    ensures var h := ImplicitDrop(w.g, x, d);
            && Release(w, x) == w.(g := h) && Inv(h, ext - multiset{x}, multiset{}) && Frame(w.g, h, {x, d})
            && d in h.nodes && h.nodes[d].iface >= w.g.nodes[d].iface - 1
  {
    assert ImplicitOk(w, d, x);
    assert |imps| >= 1 by {
      assert imps != {};
    }
    ImplicitRelease(w, ext, x, d);
    ImplicitDropKeepsInv(w.g, ext, x, d);
  }

  lemma ReleaseAndForget(w: World, d: Id, ext: multiset<Id>, imps: set<Id>, x: Id, dev': Device) returns (v: World)
    requires Core(w, d, ext, imps) && x in imps
    requires !w.devices[d].destroying ==> w.devices[d].implicitRefCnt <= |imps|
    requires dev'.destroying == w.devices[d].destroying
    ensures v == w.(g := v.g, devices := w.devices[d := dev'])
    ensures Release(w, x) == w.(g := v.g)
    ensures x in ext
    ensures Core(v, d, ext - multiset{x}, imps - {x})
    ensures Frame(w.g, v.g, {x, d})
  {
    ReleaseImplicit(w, d, ext, imps, x);
    v := w.(g := ImplicitDrop(w.g, x, d), devices := w.devices[d := dev']);
    ForgetImplicit(w, d, ext, imps, x, ext - multiset{x}, v);
  }

  function EmptySlot(v: World, d: Id, k: nat): World {
    if HasSlot(v.g, d, k) then v.(g := Reset(v.g, d, k, None)) else v
  }

  lemma SlotAfterForget(g: Graph, v: World, d: Id, ext: multiset<Id>, imps: set<Id>, k: nat, x: Id)
    requires Core(v, d, ext, imps) && Frame(g, v.g, {x, d})
    ensures Core(EmptySlot(v, d, k), d, ext, imps)
    ensures Frame(g, EmptySlot(v, d, k).g, {x, d})
    ensures EmptySlot(v, d, k) == v.(g := EmptySlot(v, d, k).g)
  {
    if HasSlot(v.g, d, k) {
      SlotKeepsCore(v, d, ext, imps, k);
      FrameTrans(g, v.g, Reset(v.g, d, k, None), {x, d}, {});
      assert {x, d} + {} == {x, d};
    }
  }

  lemma DestroyRenderTargetIs(w: World, d: Id, v: World)
    requires d in w.devices && w.devices[d].renderTarget.Some?
    requires Release(w, w.devices[d].renderTarget.value) == w.(g := v.g)
    requires v == w.(g := v.g, devices := w.devices[d := ForgetRenderTarget(w.devices[d])])
    ensures DestroyRenderTarget(w, d) == EmptySlot(v, d, RENDER_TARGET_0)
  {
    hide Release, Reset;
  }

  lemma DestroyDepthStencilIs(w: World, d: Id, v: World)
    requires d in w.devices && w.devices[d].depthStencil.Some?
    requires Release(w, w.devices[d].depthStencil.value) == w.(g := v.g)
    requires v == w.(g := v.g, devices := w.devices[d := ForgetDepthStencil(w.devices[d])])
    ensures DestroyDepthStencil(w, d) == EmptySlot(v, d, DEPTH_STENCIL)
  {
    hide Release, Reset;
  }

  lemma DestroyRenderTargetStep(w: World, d: Id, ext: multiset<Id>)
    requires Dismantling(w, d, ext) && w.devices[d].renderTarget.Some?
    ensures var x := w.devices[d].renderTarget.value;
            var v := DestroyRenderTarget(w, d);
            && x in ext && Dismantling(v, d, ext - multiset{x}) && Frame(w.g, v.g, {x, d})
            && v.teardowns == w.teardowns && v.devices == w.devices[d := ForgetRenderTarget(w.devices[d])]
  {
    hide Release, DestroyRenderTarget, EmptySlot, Inv, Frame, Core, ImplicitOk;
    var dev := w.devices[d];
    var x := dev.renderTarget.value;
    WithoutRenderTarget(dev);
    var v := ReleaseAndForget(w, d, ext, Implicits(dev), x, ForgetRenderTarget(dev));
    SlotAfterForget(w.g, v, d, ext - multiset{x}, Implicits(dev) - {x}, RENDER_TARGET_0, x);
    DestroyRenderTargetIs(w, d, v);
  }

  lemma DestroyDepthStencilStep(w: World, d: Id, ext: multiset<Id>)
    requires Dismantling(w, d, ext) && w.devices[d].depthStencil.Some?
    ensures var x := w.devices[d].depthStencil.value;
            var v := DestroyDepthStencil(w, d);
            && x in ext && Dismantling(v, d, ext - multiset{x}) && Frame(w.g, v.g, {x, d})
            && v.teardowns == w.teardowns && v.devices == w.devices[d := ForgetDepthStencil(w.devices[d])]
  {
    hide Release, DestroyDepthStencil, EmptySlot, Inv, Frame, Core, ImplicitOk;
    var dev := w.devices[d];
    var x := dev.depthStencil.value;
    WithoutDepthStencil(dev);
    var v := ReleaseAndForget(w, d, ext, Implicits(dev), x, ForgetDepthStencil(dev));
    SlotAfterForget(w.g, v, d, ext - multiset{x}, Implicits(dev) - {x}, DEPTH_STENCIL, x);
    DestroyDepthStencilIs(w, d, v);
  }

  lemma CountsBoundOf(g: Graph, ext: multiset<Id>, x: Id)
    requires Inv(g, ext, multiset{}) && x in ext
    ensures x in g.nodes && ext[x] <= g.nodes[x].iface <= g.nodes[x].obj
  {
    CountsBound(g, ext, x);
  }

  /** A release that leaves the object referenced costs one token and touches nothing else. */
  lemma QuietStep(w: World, ext: multiset<Id>, x: Id)
    requires Inv(w.g, ext, multiset{}) && x !in w.devices && ext[x] >= 2
    ensures var v := Release(w, x);
            && v == w.(g := v.g)
            && Inv(v.g, ext - multiset{x}, multiset{})
            && Frame(w.g, v.g, {x})
  {
    CountsBoundOf(w.g, ext, x);
    DecFrame(w.g, ext, x);
    QuietRelease(w, x);
    assert ext - multiset{x} + multiset{} == ext - multiset{x};
  }

  /** Releases of the swapchain's counter that are not the device's last one leave everything else alone. */
  lemma {:induction false} ReleaseNQuiet(w: World, ext: multiset<Id>, x: Id, n: nat)
    requires Inv(w.g, ext, multiset{}) && x !in w.devices && ext[x] >= n + 1
    ensures var v := ReleaseN(w, x, n);
            && v == w.(g := v.g)
            && Inv(v.g, ext[x := ext[x] - n], multiset{})
            && Frame(w.g, v.g, {x})
    decreases n
  {
    hide Inv, Frame, Release, BaseRelease;
    if n > 0 {
      QuietStep(w, ext, x);
      var v := Release(w, x);
      ReleaseNQuiet(v, ext - multiset{x}, x, n - 1);
      assert (ext - multiset{x})[x := ext[x] - n] == ext[x := ext[x] - n];
      FrameTrans(w.g, v.g, ReleaseN(v, x, n - 1).g, {x}, {x});
      assert {x} + {x} == {x};
    } else {
      FrameRefl(w.g, {x});
      assert ext[x := ext[x] - 0] == ext;
    }
  }

  /** The releases that belong to the back buffers. */
  lemma ReleaseBackBuffers(w: World, d: Id, ext: multiset<Id>, imps: set<Id>, x: Id, n: nat)
    requires Core(w, d, ext, imps) && x in imps && ext[x] > n
    ensures var v := ReleaseN(w, x, n);
            && v == w.(g := v.g) && Core(v, d, ext[x := ext[x] - n], imps)
            && Frame(w.g, v.g, {x}) && v.g.nodes[d].iface == w.g.nodes[d].iface
  {
    assert ImplicitOk(w, d, x);
    ParentIsOlder(w.g, ext, x);
    ReleaseNQuiet(w, ext, x, n);
    var v := ReleaseN(w, x, n);
    forall y | y in imps
      ensures y in ext[x := ext[x] - n] && ImplicitOk(v, d, y)
    {
      assert ImplicitOk(w, d, y);
      FrameImplicitOk(w, v, {x}, d, y, ext[x := ext[x] - n]);
    }
  }

  lemma DestroySwapchainStep(w: World, d: Id, ext: multiset<Id>)
    requires Dismantling(w, d, ext) && w.devices[d].swapchain.Some?
    ensures var x := w.devices[d].swapchain.value;
            var n := w.devices[d].pres.backBufferCount + 1;
            var v := DestroySwapchain(w, d);
            && Dismantling(v, d, ext[x := ext[x] - n]) && Frame(w.g, v.g, {x, d})
            && v.teardowns == w.teardowns && v.devices == w.devices[d := ForgetSwapchain(w.devices[d])]
  {
    hide Release, ReleaseN, BaseRelease, ImplicitDrop, Reset, Inv, Frame, Core, ImplicitOk;
    var dev := w.devices[d];
    var x := dev.swapchain.value;
    var n := dev.pres.backBufferCount;
    WithoutSwapchain(dev);
    var imps := Implicits(dev);
    ReleaseBackBuffers(w, d, ext, imps, x, n);
    var w1 := ReleaseN(w, x, n);
    var ext1 := ext[x := ext[x] - n];
    var v := ReleaseAndForget(w1, d, ext1, imps, x, ForgetSwapchain(dev));
    assert ext1 - multiset{x} == ext[x := ext[x] - (n + 1)];
    FrameTrans(w.g, w1.g, v.g, {x}, {x, d});
    assert {x} + {x, d} == {x, d};
  }

  // ---------------------------------------------------------------------------------------------
  // The whole of releaseInternalObjects
  // ---------------------------------------------------------------------------------------------

  function Torn(dev: Device): Device {
    dev.(renderTarget := None, depthStencil := None, swapchain := None, implicitRefCnt := 0)
  }

  /** A device with all its implicit objects. */
  ghost predicate Full(dev: Device) {
    && dev.renderTarget.Some? && dev.swapchain.Some?
    && (dev.depthStencil.Some? <==> dev.pres.autoDepthStencil)
    && Pointers(dev)
  }

  lemma FullCount(dev: Device)
    requires Full(dev)
    ensures dev.implicitRefCnt == if dev.pres.autoDepthStencil then 3 else 2
  {
    if dev.depthStencil.Some? {
      assert |{dev.renderTarget.value} + {dev.depthStencil.value}| == 2;
    }
  }

  ghost predicate Spent(ext: multiset<Id>, left: multiset<Id>, dev: Device) {
    forall y: Id {:trigger left[y]} :: left[y] + Tokens(dev, y) == ext[y]
  }

  function TornSurfaces(dev: Device): Device {
    var dev1 := ForgetRenderTarget(dev);
    if dev.pres.autoDepthStencil then ForgetDepthStencil(dev1) else dev1
  }

  lemma FrameSteps(g: Graph, h: Graph, k: Graph, s: set<Id>, a: set<Id>, b: set<Id>)
    requires Frame(g, h, a) && Frame(h, k, b) && a <= s && b <= s
    ensures Frame(g, k, s)
  {
    FrameWeaken(g, h, a, s);
    FrameWeaken(h, k, b, s);
    FrameTrans(g, h, k, s, s);
    assert s + s == s;
  }

  lemma SpentSurfaces(ext: multiset<Id>, dev: Device) returns (left: multiset<Id>)
    requires Full(dev) && dev.renderTarget.value in ext
    requires dev.depthStencil.Some? ==> dev.depthStencil.value in ext - multiset{dev.renderTarget.value}
    ensures left == if dev.depthStencil.Some? then ext - multiset{dev.renderTarget.value} - multiset{dev.depthStencil.value}
                    else ext - multiset{dev.renderTarget.value}
    ensures SurfacesSpent(ext, left, dev)
  {
    left := ext - multiset{dev.renderTarget.value};
    if dev.depthStencil.Some? {
      left := left - multiset{dev.depthStencil.value};
    }
  }

  lemma SpentAll(ext: multiset<Id>, left2: multiset<Id>, left: multiset<Id>, dev: Device)
    requires Full(dev) && SurfacesSpent(ext, left2, dev) && left2[dev.swapchain.value] > dev.pres.backBufferCount
    requires left == left2[dev.swapchain.value := left2[dev.swapchain.value] - (dev.pres.backBufferCount + 1)]
    ensures Spent(ext, left, dev)
  {
  }

  ghost predicate SurfacesSpent(ext: multiset<Id>, left: multiset<Id>, dev: Device) {
    forall y: Id {:trigger left[y]} :: left[y] + (if dev.renderTarget == Some(y) then 1 else 0)
                                               + (if dev.depthStencil == Some(y) then 1 else 0) == ext[y]
  }

  lemma UpdateTwice(m: map<Id, Device>, d: Id, a: Device, b: Device)
    ensures m[d := a][d := b] == m[d := b]
  {
  }

  /** The render target, and the depth stencil if there is one. */
  lemma DestroySurfacesStep(w: World, d: Id, ext: multiset<Id>) returns (v: World, left: multiset<Id>)
    requires Dismantling(w, d, ext) && Full(w.devices[d])
    ensures d in v.devices && DestroyImplicitObjects(w, d) == DestroySwapchain(v, d)
    ensures Dismantling(v, d, left) && v.teardowns == w.teardowns
    ensures v.devices == w.devices[d := TornSurfaces(w.devices[d])]
    ensures Frame(w.g, v.g, Implicits(w.devices[d]) + {d})
    ensures SurfacesSpent(ext, left, w.devices[d])
  {
    var dev := w.devices[d];
    var rt := dev.renderTarget.value;
    DestroyRenderTargetStep(w, d, ext);
    var w1 := DestroyRenderTarget(w, d);
    if dev.pres.autoDepthStencil {
      var ds := dev.depthStencil.value;
      DestroyDepthStencilStep(w1, d, ext - multiset{rt});
      v := DestroyDepthStencil(w1, d);
      UpdateTwice(w.devices, d, ForgetRenderTarget(dev), TornSurfaces(dev));
      left := SpentSurfaces(ext, dev);
      FrameSteps(w.g, w1.g, v.g, Implicits(dev) + {d}, {rt, d}, {ds, d});
    } else {
      v := w1;
      left := SpentSurfaces(ext, dev);
      FrameWeaken(w.g, w1.g, {rt, d}, Implicits(dev) + {d});
    }
  }

  lemma LastSwapchain(w2: World, d: Id, left2: multiset<Id>, sc: Id, n: nat) returns (v: World, left: multiset<Id>)
    requires Dismantling(w2, d, left2) && w2.devices[d].swapchain == Some(sc)
    requires w2.devices[d].pres.backBufferCount == n
    ensures v == DestroySwapchain(w2, d) && left2[sc] > n && left == left2[sc := left2[sc] - (n + 1)]
    ensures Inv(v.g, left, multiset{}) && d in v.g.nodes && v.g.nodes[d].iface > 0
    ensures v.devices == w2.devices[d := ForgetSwapchain(w2.devices[d])] && Pointers(v.devices[d])
    ensures v.teardowns == w2.teardowns && Frame(w2.g, v.g, {sc, d})
  {
    hide DestroySwapchain, Frame, Inv;
    DestroySwapchainStep(w2, d, left2);
    v := DestroySwapchain(w2, d);
    left := left2[sc := left2[sc] - (n + 1)];
    assert Dismantling(v, d, left);
  }

  lemma DestroyImplicitStages(w: World, d: Id, ext: multiset<Id>)
    returns (w2: World, left2: multiset<Id>, v: World, left: multiset<Id>)
    requires Dismantling(w, d, ext) && Full(w.devices[d])
    ensures v == DestroyImplicitObjects(w, d) && Inv(v.g, left, multiset{})
    ensures SurfacesSpent(ext, left2, w.devices[d])
    ensures var sc := w.devices[d].swapchain.value;
            var n := w.devices[d].pres.backBufferCount;
            left2[sc] > n && left == left2[sc := left2[sc] - (n + 1)] && Frame(w2.g, v.g, {sc, d})
    ensures w2.devices == w.devices[d := TornSurfaces(w.devices[d])]
    ensures v.devices == w2.devices[d := ForgetSwapchain(w2.devices[d])] && Pointers(v.devices[d])
    ensures v.teardowns == w.teardowns && Frame(w.g, w2.g, Implicits(w.devices[d]) + {d})
    ensures d in v.g.nodes && v.g.nodes[d].iface > 0
  {
    hide DestroyImplicitObjects, Release, ReleaseN, BaseRelease, DestroyRenderTarget, DestroyDepthStencil, DestroySwapchain, Reset, Frame, SurfacesSpent, Inv;
    var dev := w.devices[d];
    w2, left2 := DestroySurfacesStep(w, d, ext);
    v, left := LastSwapchain(w2, d, left2, dev.swapchain.value, dev.pres.backBufferCount);
  }

  /** All implicit objects released: every token the device held is spent, and the device is still there. */
  lemma DestroyImplicitStep(w: World, d: Id, ext: multiset<Id>) returns (v: World, left: multiset<Id>)
    requires Dismantling(w, d, ext) && Full(w.devices[d])
    ensures v == DestroyImplicitObjects(w, d)
    ensures Inv(v.g, left, multiset{}) && Spent(ext, left, w.devices[d])
    ensures v.devices == w.devices[d := Torn(w.devices[d])] && v.teardowns == w.teardowns
    ensures Frame(w.g, v.g, Implicits(w.devices[d]) + {d})
    ensures d in v.g.nodes && v.g.nodes[d].iface > 0
  {
    var dev := w.devices[d];
    var w2, left2;
    w2, left2, v, left := DestroyImplicitStages(w, d, ext);
    SpentAll(ext, left2, left, dev);
    FrameSteps(w.g, w2.g, v.g, Implicits(dev) + {d}, Implicits(dev) + {d}, {dev.swapchain.value, d});
    NothingLeft(v.devices[d], dev);
    UpdateTwice(w.devices, d, TornSurfaces(dev), Torn(dev));
  }

  lemma NothingLeft(dev': Device, dev: Device)
    requires Pointers(dev')
    requires dev' == dev.(renderTarget := None, depthStencil := None, swapchain := None, implicitRefCnt := dev'.implicitRefCnt)
    ensures dev' == Torn(dev) && Implicits(dev') == {}
  {
    assert Implicits(dev') == {};
  }

  lemma {:induction false} AddRefNKeepsInv(g: Graph, ext: multiset<Id>, d: Id, n: nat)
    requires Inv(g, ext, multiset{}) && d in g.nodes && g.nodes[d].iface > 0
    ensures AddRefN(g, d, n)
         == g.(nodes := g.nodes[d := g.nodes[d].(iface := g.nodes[d].iface + n, obj := g.nodes[d].obj + n)])
    ensures Inv(AddRefN(g, d, n), ext[d := ext[d] + n], multiset{})
    decreases n
  {
    if n == 0 {
      assert g.nodes[d := g.nodes[d]] == g.nodes;
      assert ext[d := ext[d] + 0] == ext;
    } else {
      IncLiveKeepsInv(g, ext, d);
      AddRefNKeepsInv(IncBoth(g, d), ext + multiset{d}, d, n - 1);
      assert (ext + multiset{d})[d := ext[d] + n] == ext[d := ext[d] + n];
    }
  }

  lemma {:induction false} ResetSlotsKeepsInv(g: Graph, ext: multiset<Id>, d: Id, k: nat)
    requires Inv(g, ext, multiset{}) && d in g.nodes && g.nodes[d].iface > 0
    requires |g.nodes[d].slots| == STATE_SLOTS
    requires forall j | 0 <= j < k && j < STATE_SLOTS :: g.nodes[d].slots[j].None?
    ensures var h := ResetSlots(g, d, k);
            && Inv(h, ext, multiset{})
            && Frame(g, h, {})
            && d in h.nodes
            && |h.nodes[d].slots| == STATE_SLOTS && forall j | 0 <= j < STATE_SLOTS :: h.nodes[d].slots[j].None?
    decreases STATE_SLOTS - k
  {
    if k < STATE_SLOTS {
      ReleaseSlotFrame(g, ext, d, k);
      var h := Reset(g, d, k, None);
      ResetSlotsKeepsInv(h, ext, d, k + 1);
      FrameTrans(g, h, ResetSlots(h, d, k + 1), {}, {});
      var none: set<Id> := {};
      assert none + none == none;
    }
  }

  /** The device's parent is the module: a root that is not itself a device. */
  ghost predicate UnderModule(w: World, d: Id) {
    && d in w.g.nodes
    && w.g.nodes[d].parent.Some?
    && w.g.nodes[d].parent.value !in w.devices
    && (w.g.nodes[d].parent.value in w.g.nodes ==>
          w.g.nodes[w.g.nodes[d].parent.value].parent.None?)
  }

  lemma BaseReleaseStep(w: World, ext: multiset<Id>, d: Id)
    requires Inv(w.g, ext, multiset{}) && d in ext && UnderModule(w, d)
    ensures var v := BaseRelease(w, d);
            && v == w.(g := v.g) && Inv(v.g, ext - multiset{d}, multiset{})
            && Frame(w.g, v.g, {d, w.g.nodes[d].parent.value})
  {
    var m := w.g.nodes[d].parent.value;
    DecFrame(w.g, ext, d);
    ParentIsOlder(w.g, ext, d);
    var h := DecInterface(w.g, d);
    if w.g.nodes[d].iface == 1 {
      var ext1 := ext - multiset{d} + multiset{m};
      assert m in ext1;
      ModuleRelease(w.(g := h), ext - multiset{d}, m, w.g.nodes);
      FrameTrans(w.g, h, DecInterface(h, m), {d}, {m});
      assert {d} + {m} == {d, m};
    } else {
      assert ext - multiset{d} + multiset{} == ext - multiset{d};
      FrameWeaken(w.g, h, {d}, {d, m});
    }
  }

  lemma ModuleRelease(w: World, ext: multiset<Id>, m: Id, before: map<Id, Node>)
    requires Inv(w.g, ext + multiset{m}, multiset{}) && m !in w.devices
    requires forall j | j in w.g.nodes :: j in before && SameBut(before[j], w.g.nodes[j])
    requires m in before ==> before[m].parent.None?
    ensures m in w.g.nodes && 0 < w.g.nodes[m].iface <= w.g.nodes[m].obj
    ensures Release(w, m) == w.(g := DecInterface(w.g, m))
    ensures Inv(DecInterface(w.g, m), ext, multiset{}) && Frame(w.g, DecInterface(w.g, m), {m})
  {
    assert m in ext + multiset{m};
    DecFrame(w.g, ext + multiset{m}, m);
    assert SameBut(before[m], w.g.nodes[m]);
    assert ext + multiset{m} - multiset{m} + multiset{} == ext;
  }

  /** `n` tokens on `d`. */
  ghost function Many(d: Id, n: nat): multiset<Id> {
    multiset{}[d := n]
  }

  lemma {:induction false} BaseReleaseNKeepsInv(w: World, ext: multiset<Id>, d: Id, n: nat)
    requires Inv(w.g, ext + Many(d, n), multiset{}) && UnderModule(w, d)
    ensures var v := BaseReleaseN(w, d, n);
            && v == w.(g := v.g)
            && Inv(v.g, ext, multiset{})
            && Frame(w.g, v.g, {d, w.g.nodes[d].parent.value})
    decreases n
  {
    if n == 0 {
      assert ext + Many(d, 0) == ext;
    } else {
      BaseReleaseStep(w, ext + Many(d, n), d);
      var v := BaseRelease(w, d);
      assert ext + Many(d, n) - multiset{d} == ext + Many(d, n - 1);
      if n == 1 {
        assert BaseReleaseN(v, d, 0) == v;
        assert ext + Many(d, 0) == ext;
      } else {
        StillUnderModule(w, v, ext + Many(d, n - 1), d);
        BaseReleaseNKeepsInv(v, ext, d, n - 1);
        FrameSteps(w.g, v.g, BaseReleaseN(v, d, n - 1).g,
                   {d, w.g.nodes[d].parent.value}, {d, w.g.nodes[d].parent.value}, {d, w.g.nodes[d].parent.value});
      }
    }
  }

  lemma StillUnderModule(w: World, v: World, ext: multiset<Id>, d: Id)
    requires UnderModule(w, d) && v == w.(g := v.g) && Frame(w.g, v.g, {d, w.g.nodes[d].parent.value})
    requires Inv(v.g, ext, multiset{}) && d in ext
    ensures UnderModule(v, d) && v.g.nodes[d].parent == w.g.nodes[d].parent
  {
    assert SameBut(w.g.nodes[d], v.g.nodes[d]);
    var m := w.g.nodes[d].parent.value;
    assert m in v.g.nodes ==> SameBut(w.g.nodes[m], v.g.nodes[m]);
  }

  /** What holds before releaseInternalObjects takes its own references. */
  ghost predicate Intact(w: World, d: Id, ext: multiset<Id>) {
    && Inv(w.g, ext, multiset{})
    && UnderModule(w, d)
    && d in w.devices
    && Full(w.devices[d])
    && |w.g.nodes[d].slots| == STATE_SLOTS
    && (forall x {:trigger ImplicitOk(w, d, x)} | x in Implicits(w.devices[d]) :: ImplicitOk(w, d, x))
    && (forall x {:trigger Tokens(w.devices[d], x)} :: Tokens(w.devices[d], x) <= ext[x])
    && w.g.nodes[d].iface > (if w.devices[d].destroying then 0 else w.devices[d].implicitRefCnt)
  }

  lemma ImplicitHasToken(dev: Device, x: Id)
    requires x in Implicits(dev)
    ensures Tokens(dev, x) > 0
  {
  }

  lemma AddRefNFrame(g: Graph, ext: multiset<Id>, d: Id, n: nat) returns (h: Graph)
    requires Inv(g, ext, multiset{}) && d in g.nodes && g.nodes[d].iface > 0
    ensures h == AddRefN(g, d, n)
    ensures Inv(h, ext + Many(d, n), multiset{})
    ensures Frame(g, h, {d})
    ensures d in h.nodes && h.nodes[d] == g.nodes[d].(iface := g.nodes[d].iface + n, obj := g.nodes[d].obj + n)
  {
    AddRefNKeepsInv(g, ext, d, n);
    assert ext[d := ext[d] + n] == ext + Many(d, n);
    h := AddRefN(g, d, n);
    assert SameBut(g.nodes[d], h.nodes[d]);
  }

  lemma BeginDismantling(w: World, d: Id, ext: multiset<Id>)
    requires Intact(w, d, ext)
    ensures var n := w.devices[d].implicitRefCnt;
            var w1 := w.(g := AddRefN(w.g, d, n));
            Dismantling(w1, d, ext + Many(d, n)) && Frame(w.g, w1.g, {d})
  {
    hide AddRefN, Inv, Frame;
    var dev := w.devices[d];
    var n := dev.implicitRefCnt;
    var h := AddRefNFrame(w.g, ext, d, n);
    var w1 := w.(g := h);
    assert Tokens(dev, dev.swapchain.value) <= ext[dev.swapchain.value];
    forall x | x in Implicits(dev)
      ensures x in ext + Many(d, n) && ImplicitOk(w1, d, x)
    {
      assert ImplicitOk(w, d, x);
      ImplicitHasToken(dev, x);
      FrameImplicitOk(w, w1, {d}, d, x, ext + Many(d, n));
    }
  }

  /** The three stages up to the compensating releases: by then the implicit objects' tokens are spent, every
      state slot is empty, and the device is still alive. */
  lemma DismantleStages(w: World, d: Id, ext: multiset<Id>) returns (w3: World, left: multiset<Id>)
    requires Intact(w, d, ext)
    ensures w3 == BeforeCompensation(w, d)
    ensures w3.devices == w.devices[d := Torn(w.devices[d])] && w3.teardowns == w.teardowns
    ensures Inv(w3.g, left + Many(d, w.devices[d].implicitRefCnt), multiset{}) && Spent(ext, left, w.devices[d])
    ensures Frame(w.g, w3.g, Implicits(w.devices[d]) + {d})
    ensures d in w3.g.nodes && |w3.g.nodes[d].slots| == STATE_SLOTS
    ensures forall j | 0 <= j < STATE_SLOTS :: w3.g.nodes[d].slots[j].None?
  {
    var dev := w.devices[d];
    var n := dev.implicitRefCnt;
    BeginDismantling(w, d, ext);
    var w1 := w.(g := AddRefN(w.g, d, n));
    var w2, left2 := DestroyImplicitStep(w1, d, ext + Many(d, n));
    left := TakeMany(ext, left2, dev, d, n);
    FrameSteps(w.g, w1.g, w2.g, Implicits(dev) + {d}, {d}, Implicits(dev) + {d});
    SlotsLength(w.g, w2.g, Implicits(dev) + {d}, d);
    ResetSlotsKeepsInv(w2.g, left2, d, 0);
    w3 := w2.(g := ResetSlots(w2.g, d, 0));
    FrameSteps(w.g, w2.g, w3.g, Implicits(dev) + {d}, Implicits(dev) + {d}, {});
  }

  lemma SlotsLength(g: Graph, h: Graph, s: set<Id>, d: Id)
    requires Frame(g, h, s) && d in h.nodes
    ensures d in g.nodes && |h.nodes[d].slots| == |g.nodes[d].slots| && h.nodes[d].parent == g.nodes[d].parent
  {
    assert SameBut(g.nodes[d], h.nodes[d]);
  }

  lemma TakeMany(ext: multiset<Id>, left2: multiset<Id>, dev: Device, d: Id, n: nat) returns (left: multiset<Id>)
    requires Spent(ext + Many(d, n), left2, dev) && Tokens(dev, d) <= ext[d]
    ensures left2 == left + Many(d, n) && Spent(ext, left, dev)
  {
    assert left2[d] >= n;
    left := left2[d := left2[d] - n];
    forall y: Id
      ensures left[y] + Tokens(dev, y) == ext[y]
    {
      assert left2[y] + Tokens(dev, y) == (ext + Many(d, n))[y];
    }
  }

  /** The whole: all the device's tokens are spent, nobody else's, and only the implicit objects, the device
      and the module change their interface counts. */
  lemma Dismantle(w: World, d: Id, ext: multiset<Id>) returns (left: multiset<Id>)
    requires Intact(w, d, ext)
    ensures var v := ReleaseInternalObjects(w, d);
            && Inv(v.g, left, multiset{}) && Spent(ext, left, w.devices[d])
            && v.devices == w.devices[d := Torn(w.devices[d])] && v.teardowns == w.teardowns
            && Frame(w.g, v.g, Implicits(w.devices[d]) + {d, w.g.nodes[d].parent.value})
  {
    hide BeforeCompensation;
    var n := w.devices[d].implicitRefCnt;
    var w3;
    w3, left := DismantleStages(w, d, ext);
    UnderModuleLater(w, w3, Implicits(w.devices[d]) + {d}, d);
    BaseReleaseNKeepsInv(w3, left, d, n);
    var m := w.g.nodes[d].parent.value;
    FrameSteps(w.g, w3.g, BaseReleaseN(w3, d, n).g, Implicits(w.devices[d]) + {d, m}, Implicits(w.devices[d]) + {d}, {d, m});
  }

  lemma UnderModuleLater(w: World, v: World, s: set<Id>, d: Id)
    requires UnderModule(w, d) && v.devices.Keys == w.devices.Keys && Frame(w.g, v.g, s) && d in v.g.nodes
    ensures UnderModule(v, d) && v.g.nodes[d].parent == w.g.nodes[d].parent
  {
    assert SameBut(w.g.nodes[d], v.g.nodes[d]);
    var m := w.g.nodes[d].parent.value;
    assert m in v.g.nodes ==> SameBut(w.g.nodes[m], v.g.nodes[m]);
  }
}