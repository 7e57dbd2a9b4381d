/**
 A Release empties slots of devices only: whatever another object binds stays bound.

 The proof follows the recursion of Release through teardowns, from the single decrement up to
 releaseInternalObjects.
 */
module DeviceSlots {
  import opened Options
  import opened ObjectGraph
  import opened GraphDrops
  import opened ObjectOps
  import opened DeviceLifecycle

  /** Every slot outside of `d` is as it was, in as far as its object is still there. */
  ghost predicate SlotsKept(g: Graph, h: Graph, except: set<Id>) {
    forall j | j in h.nodes :: j in g.nodes && (j !in except ==> h.nodes[j].slots == g.nodes[j].slots)
  }

  lemma {:induction false} DropAllSlots(g: Graph, pend: seq<Id>, except: set<Id>)
    ensures SlotsKept(g, DropAll(g, pend), except)
    decreases |g.nodes|, |pend|
  {
    if pend != [] {
      var Dropped(h, left) := DropOne(g, pend);
      DropAllSlots(h, left, except);
    }
  }

  lemma DecSlots(g: Graph, i: Id, except: set<Id>)
    requires i in g.nodes && g.nodes[i].iface > 0 && g.nodes[i].obj > 0
    ensures SlotsKept(g, DecInterface(g, i), except)
  {
    var n := g.nodes[i].(iface := g.nodes[i].iface - 1, obj := g.nodes[i].obj - 1);
    var h := g.(nodes := g.nodes[i := n]);
    if n.iface == 0 && n.obj == 0 {
      DropAllSlots(Erase(h, i), Somes(n.slots), except);
    }
  }

  lemma ResetSlotSlots(g: Graph, d: Id, k: nat, except: set<Id>)
    requires d in except && HasSlot(g, d, k)
    ensures SlotsKept(g, Reset(g, d, k, None), except)
  {
    DropAllSlots(SetSlot(g, d, k, None), Somes([g.nodes[d].slots[k]]), except);
  }

  lemma {:induction false} ResetSlotsSlots(g: Graph, d: Id, k: nat, except: set<Id>)
    requires d in except
    ensures SlotsKept(g, ResetSlots(g, d, k), except)
    decreases STATE_SLOTS - k
  {
    if k < STATE_SLOTS {
      if HasSlot(g, d, k) {
        ResetSlotSlots(g, d, k, except);
        ResetSlotsSlots(Reset(g, d, k, None), d, k + 1, except);
      } else {
        ResetSlotsSlots(g, d, k + 1, except);
      }
    }
  }

  lemma {:induction false} AddRefNSlots(g: Graph, d: Id, n: nat, except: set<Id>)
    ensures SlotsKept(g, AddRefN(g, d, n), except)
    decreases n
  {
    if n > 0 && d in g.nodes {
      AddRefNSlots(IncBoth(g, d), d, n - 1, except);
    }
  }

  lemma {:induction false} BaseReleaseSlots(w: World, i: Id)
    ensures SlotsKept(w.g, BaseRelease(w, i).g, w.devices.Keys)
    decreases |Pending(w)|, 0, i, 0
  {
    if i in w.g.nodes && w.g.nodes[i].iface > 0 && w.g.nodes[i].obj > 0 {
      var n := w.g.nodes[i];
      var w1 := w.(g := DecInterface(w.g, i));
      assert Pending(w1) == Pending(w);
      DecSlots(w.g, i, w.devices.Keys);
      if n.iface == 1 && n.parent.Some? && n.parent.value < i {
        ReleaseSlots(w1, n.parent.value);
      }
    }
  }

  /** Release, with whatever teardown it leads to. */
  lemma {:induction false} ReleaseSlots(w: World, i: Id)
    ensures SlotsKept(w.g, Release(w, i).g, w.devices.Keys)
    decreases |Pending(w)|, 0, i, 1
  {
    hide BaseRelease, ReleaseInternalObjects;
    var w1 := BaseRelease(w, i);
    BaseReleaseSlots(w, i);
    PendingShrinks(w1, w);
    var cnt := if i in w.g.nodes && w.g.nodes[i].iface > 0 then w.g.nodes[i].iface - 1 else 0;
    if i in w1.devices && i in w1.g.nodes && !w1.devices[i].destroying && cnt == w1.devices[i].implicitRefCnt {
      var w2 := BeginTeardown(w1, i);
      assert i in Pending(w1) && i !in Pending(w2);
      PendingStrictlyShrinks(w2, w1);
      ReleaseInternalSlots(w2, i);
    }
  }

  lemma {:induction false} ReleaseNSlots(w: World, i: Id, n: nat)
    ensures SlotsKept(w.g, ReleaseN(w, i, n).g, w.devices.Keys)
    decreases |Pending(w)|, 1, n
  {
    hide Release;
    if n > 0 {
      ReleaseSlots(w, i);
      PendingShrinks(Release(w, i), w);
      ReleaseNSlots(Release(w, i), i, n - 1);
    }
  }

  lemma {:induction false} BaseReleaseNSlots(w: World, i: Id, n: nat)
    ensures SlotsKept(w.g, BaseReleaseN(w, i, n).g, w.devices.Keys)
    decreases |Pending(w)|, 1, n
  {
    hide BaseRelease;
    if n > 0 {
      BaseReleaseSlots(w, i);
      PendingShrinks(BaseRelease(w, i), w);
      BaseReleaseNSlots(BaseRelease(w, i), i, n - 1);
    }
  }

  lemma {:induction false} DestroySurfacesSlots(w: World, d: Id)
    requires d in w.devices
    ensures SlotsKept(w.g, DestroyRenderTarget(w, d).g, w.devices.Keys)
    ensures SlotsKept(w.g, DestroyDepthStencil(w, d).g, w.devices.Keys)
    decreases |Pending(w)|, 1, 0
  {
    hide Release, Reset;
    if w.devices[d].renderTarget.Some? {
      var w1 := Release(w, w.devices[d].renderTarget.value);
      ReleaseSlots(w, w.devices[d].renderTarget.value);
      if HasSlot(w1.g, d, RENDER_TARGET_0) {
        ResetSlotSlots(w1.g, d, RENDER_TARGET_0, w.devices.Keys);
      }
    }
    if w.devices[d].depthStencil.Some? {
      var w1 := Release(w, w.devices[d].depthStencil.value);
      ReleaseSlots(w, w.devices[d].depthStencil.value);
      if HasSlot(w1.g, d, DEPTH_STENCIL) {
        ResetSlotSlots(w1.g, d, DEPTH_STENCIL, w.devices.Keys);
      }
    }
  }

  lemma {:induction false} DestroySwapchainSlots(w: World, d: Id)
    requires d in w.devices
    ensures SlotsKept(w.g, DestroySwapchain(w, d).g, w.devices.Keys)
    decreases |Pending(w)|, 2, 0
  {
    hide Release, ReleaseN;
    if w.devices[d].swapchain.Some? {
      var x, n := w.devices[d].swapchain.value, w.devices[d].pres.backBufferCount;
      ReleaseNSlots(w, x, n);
      PendingShrinks(ReleaseN(w, x, n), w);
      ReleaseSlots(ReleaseN(w, x, n), x);
    }
  }

  lemma {:induction false} DestroyImplicitSlots(w: World, d: Id)
    requires d in w.devices
    ensures SlotsKept(w.g, DestroyImplicitObjects(w, d).g, w.devices.Keys)
    decreases |Pending(w)|, 3, 0
  {
    hide DestroyRenderTarget, DestroyDepthStencil, DestroySwapchain;
    var w1 := DestroyRenderTarget(w, d);
    DestroySurfacesSlots(w, d);
    PendingShrinks(w1, w);
    DestroySurfacesSlots(w1, d);
    var w2 := if w.devices[d].pres.autoDepthStencil then DestroyDepthStencil(w1, d) else w1;
    PendingShrinks(w2, w1);
    DestroySwapchainSlots(w2, d);
  }

  lemma {:induction false} ReleaseInternalSlots(w: World, d: Id)
    requires d in w.devices
    ensures SlotsKept(w.g, ReleaseInternalObjects(w, d).g, w.devices.Keys)
    decreases |Pending(w)|, 5, 0
  {
    hide AddRefN, DestroyImplicitObjects, ResetSlots, BaseReleaseN;
    var n := w.devices[d].implicitRefCnt;
    var w1 := w.(g := AddRefN(w.g, d, n));
    AddRefNSlots(w.g, d, n, w.devices.Keys);
    assert Pending(w1) == Pending(w);
    DestroyImplicitSlots(w1, d);
    var w2 := DestroyImplicitObjects(w1, d);
    ResetSlotsSlots(w2.g, d, 0, w.devices.Keys);
    var w3 := BeforeCompensation(w, d);
    PendingShrinks(w3, w);
    BaseReleaseNSlots(w3, d, n);
  }
}
