/** What a device looks like after its creation and after Reset: back buffers and bound implicit objects. */
module ClientDevices {
  import opened Options
  import opened ObjectGraph
  import opened GraphCounting
  import opened GraphDrops
  import opened ObjectOps
  import opened DeviceLifecycle
  import opened DeviceTeardown
  import opened DeviceWorld
  import opened DeviceRelease
  import opened DeviceReset
  import opened ClientOps
  import opened ClientRuns
  import opened ClientHomes

  /** The swapchain of device `d` has as many back buffers as asked for, and one if none were; all of them are its
      members. Render target and depth stencil are bound in the device's state, in slots of their own. */
  ghost predicate Built(v: World, d: Id, pres: Present) {
    && d in v.devices && d in v.g.nodes && |v.g.nodes[d].slots| == STATE_SLOTS
    && v.devices[d].pres.autoDepthStencil == pres.autoDepthStencil
    && v.devices[d].pres.backBufferCount == BackBuffers(v, d)
    && BackBuffers(v, d) == (if pres.backBufferCount > 0 then pres.backBufferCount else 1)
    && BackBuffersSet(v, d)
    && v.devices[d].renderTarget.Some? && v.g.nodes[d].slots[RENDER_TARGET_0] == v.devices[d].renderTarget
    && (pres.autoDepthStencil ==>
          && v.devices[d].depthStencil.Some? && v.g.nodes[d].slots[DEPTH_STENCIL] == v.devices[d].depthStencil)
    && (!pres.autoDepthStencil ==> v.devices[d].depthStencil.None?)
  }

  /** The size of the swapchain's child vector. */
  ghost function BackBuffers(v: World, d: Id): int
    requires d in v.devices
  {
    var sc := v.devices[d].swapchain;
    if sc.Some? && sc.value in v.g.nodes then |v.g.nodes[sc.value].children| else -1
  }

  ghost predicate BackBuffersSet(v: World, d: Id)
    requires d in v.devices
  {
    var sc := v.devices[d].swapchain;
    && sc.Some? && sc.value in v.g.nodes
    && (forall k | 0 <= k < |v.g.nodes[sc.value].children| ::
          v.g.nodes[sc.value].children[k].Some? && v.g.nodes[sc.value].children[k].value in v.g.owner
          && v.g.owner[v.g.nodes[sc.value].children[k].value] == sc.value)
  }

  // ---------------------------------------------------------------------------------------------
  // The constructor's loop
  // ---------------------------------------------------------------------------------------------

  lemma {:induction false} AllMembersMade(g: Graph, c: Id, at: nat, n: nat)
    requires c in g.nodes && g.nodes[c].iface > 0 && at <= n == |g.nodes[c].children|
    requires forall k | 0 <= k < at :: g.nodes[c].children[k].Some?
    requires forall k | at <= k < n :: g.nodes[c].children[k].None?
    ensures var h := CreateMembers(g, c, at, n);
            && c in h.nodes && |h.nodes[c].children| == n && (forall k | 0 <= k < n :: h.nodes[c].children[k].Some?)
            && h.nodes.Keys == g.nodes.Keys
            && (forall j | j in g.nodes :: j != c ==> h.nodes[j] == g.nodes[j])
    decreases n - at
  {
    if at < n {
      assert AddRef(g, c) == IncBoth(g, c);
      var k := CreateMember(g, c, at);
      AllMembersMade(k, c, at + 1, n);
    }
  }

  /** A new implicit object: all its members are there, and its device keeps its slots. */
  lemma NewImplicitIs(g: Graph, d: Id, n: nat)
    requires CanCreate(g, d) && g.nodes[d].iface > 0
    ensures var h, x := NewImplicit(g, d, n), g.next;
            && x in h.nodes && |h.nodes[x].children| == n && (forall k | 0 <= k < n :: h.nodes[x].children[k].Some?)
            && d in h.nodes && h.nodes[d].slots == g.nodes[d].slots
            && (forall j | j in g.nodes :: j in h.nodes && h.nodes[j].children == g.nodes[j].children)
  {
    var x := g.next;
    CreateIs(g, Some(d), 0, n);
    AddRefShape(g, d);
    AllMembersMade(Create(g, Some(d), 0, n), x, 0, n);
  }

  // ---------------------------------------------------------------------------------------------
  // The three implicit objects
  // ---------------------------------------------------------------------------------------------

  /** Binding touches one slot of the device, and no child vector of anything referenced. */
  lemma BindIs(g: Graph, ext: multiset<Id>, o: Id, k: nat, t: Id)
    requires Inv(g, ext, multiset{}) && HasSlot(g, o, k) && g.nodes[o].iface > 0 && t in g.nodes
    ensures var h := MoveAssign(g, o, k, t);
            && o in h.nodes && h.nodes[o].slots == g.nodes[o].slots[k := Some(t)]
            && (forall j | j in g.nodes && g.nodes[j].iface > 0 :: j in h.nodes && h.nodes[j].children == g.nodes[j].children)
  {
    hide Inv, MoveAssign;
    MoveAssignRebinds(g, ext, o, k, t);
  }

  lemma SurfaceIs(w: World, app: multiset<Id>, ext: multiset<Id>, d: Id, dev: Device, k: nat)
    requires Rebuilding(w, d, app, ext) && k < STATE_SLOTS
    requires || (w.devices[d].renderTarget.None? && dev == WithRenderTarget(w.devices[d], w.g.next))
             || (w.devices[d].depthStencil.None? && dev == WithDepthStencil(w.devices[d], w.g.next))
    ensures var v := InitSurface(w, d, dev, k);
            && d in w.g.nodes && d in v.g.nodes && k < |w.g.nodes[d].slots|
            && v.g.nodes[d].slots == w.g.nodes[d].slots[k := Some(w.g.next)]
            && (forall j | j in w.g.nodes && w.g.nodes[j].iface > 0 ::
                  j in v.g.nodes && v.g.nodes[j].children == w.g.nodes[j].children)
  {
    hide Rebound, Inv, NewImplicit, MoveAssign, Pointers, Implicits, Tokens, UnderModule, Frame, WInv;
    SurfaceRecorded(w.devices[d], w.g.next, dev);
    RebuildingFacts(w, d, app, ext);
    var u, ext' := AddImplicit(w, app, ext, d, 0, dev);
    RebuildingFacts(u, d, app, ext');
    NewImplicitIs(w.g, d, 0);
    RebuildingInv(u, d, app, ext');
    BindIs(u.g, ext', d, k, w.g.next);
    StillReferenced(w, u, d);
  }

  lemma RebuildingInv(w: World, d: Id, app: multiset<Id>, ext: multiset<Id>)
    requires Rebuilding(w, d, app, ext)
    ensures Inv(w.g, ext, multiset{})
  {
  }

  /** Creating an object lowers nobody's count. */
  lemma StillReferenced(w: World, u: World, d: Id)
    requires CanCreate(w.g, d) && w.g.nodes[d].iface > 0 && u.g == NewImplicit(w.g, d, 0)
    ensures forall j | j in w.g.nodes && w.g.nodes[j].iface > 0 :: j in u.g.nodes && u.g.nodes[j].iface > 0
  {
    CreateIs(w.g, Some(d), 0, 0);
    AddRefShape(w.g, d);
  }

  lemma SwapchainIs(w: World, app: multiset<Id>, ext: multiset<Id>, d: Id, pres: Present)
    requires Rebuilding(w, d, app, ext) && w.devices[d].swapchain.None?
    ensures var v, x := InitSwapchain(w, d, pres), w.g.next;
            && d in w.g.nodes && d in v.g.nodes && v.g.nodes[d].slots == w.g.nodes[d].slots
            && x in v.g.nodes && v.g.nodes[x].iface > 0 && |v.g.nodes[x].children| == pres.backBufferCount
            && (forall k | 0 <= k < |v.g.nodes[x].children| :: v.g.nodes[x].children[k].Some?)
  {
    hide WInv, NewImplicit, Inv;
    RebuildingFacts(w, d, app, ext);
    var v, ext' := InitSwapchainKeeps(w, app, ext, d, pres);
    NewImplicitIs(w.g, d, pres.backBufferCount);
    SwapchainIsReferenced(v, app, ext', d, w.g.next);
  }

  lemma SwapchainIsReferenced(v: World, app: multiset<Id>, ext: multiset<Id>, d: Id, x: Id)
    requires Rebuilding(v, d, app, ext) && v.devices[d].swapchain == Some(x)
    ensures x in v.g.nodes && v.g.nodes[x].iface > 0
  {
    RebuildingFacts(v, d, app, ext);
    assert x in Implicits(v.devices[d]);
    assert DeviceOk(v, d, {d});
    assert ImplicitOk(v, d, x);
    ImplicitIsReferenced(v, app, ext, d, x);
    CountsBoundOf(v.g, ext, x);
  }

  /** initImplicitObjects on a bare device. */
  lemma ImplicitsAre(w: World, app: multiset<Id>, ext: multiset<Id>, d: Id, pres: Present)
    requires Rebuilding(w, d, app, ext) && NoPointers(w.devices[d])
    ensures var v := InitImplicitObjects(w, d, pres);
            && d in v.devices && d in v.g.nodes && d in w.g.nodes && |v.g.nodes[d].slots| == |w.g.nodes[d].slots| == STATE_SLOTS
            && v.devices[d].pres == pres && v.devices[d].swapchain == Some(w.g.next)
            && w.g.next in v.g.nodes && |v.g.nodes[w.g.next].children| == pres.backBufferCount
            && (forall k | 0 <= k < |v.g.nodes[w.g.next].children| :: v.g.nodes[w.g.next].children[k].Some?)
            && v.devices[d].renderTarget.Some? && v.g.nodes[d].slots[RENDER_TARGET_0] == v.devices[d].renderTarget
            && (pres.autoDepthStencil ==>
                  v.devices[d].depthStencil.Some? && v.g.nodes[d].slots[DEPTH_STENCIL] == v.devices[d].depthStencil)
            && (!pres.autoDepthStencil ==> v.devices[d].depthStencil.None?)
  {
    hide WInv, InitSwapchain, InitSurface, Tokens, UnderModule, Kids, Inv;
    var sc := w.g.next;
    RebuildingFacts(w, d, app, ext);
    var w1, ext1 := InitSwapchainKeeps(w, app, ext, d, pres);
    SwapchainIs(w, app, ext, d, pres);
    var dev1 := WithRenderTarget(w1.devices[d], w1.g.next);
    var w2, ext2 := InitSurfaceKeeps(w1, app, ext1, d, dev1, RENDER_TARGET_0);
    SurfaceIs(w1, app, ext1, d, dev1, RENDER_TARGET_0);
    SwapchainIsReferenced(w2, app, ext2, d, sc);
    if pres.autoDepthStencil {
      var dev2 := WithDepthStencil(w2.devices[d], w2.g.next);
      var v, ext' := InitSurfaceKeeps(w2, app, ext2, d, dev2, DEPTH_STENCIL);
      SurfaceIs(w2, app, ext2, d, dev2, DEPTH_STENCIL);
    }
  }

  lemma MembersAreOwned(v: World, app: multiset<Id>, ext: multiset<Id>, d: Id, pres: Present, given: Present)
    requires WInv(v, app, ext, {}) && d in v.devices && d in v.g.nodes && |v.g.nodes[d].slots| == STATE_SLOTS
    requires v.devices[d].pres == given && v.devices[d].swapchain.Some? && v.devices[d].swapchain.value in v.g.nodes
    requires |v.g.nodes[v.devices[d].swapchain.value].children| == given.backBufferCount
    requires forall k | 0 <= k < given.backBufferCount :: v.g.nodes[v.devices[d].swapchain.value].children[k].Some?
    requires given.backBufferCount == (if pres.backBufferCount > 0 then pres.backBufferCount else 1)
    requires given.autoDepthStencil == pres.autoDepthStencil
    requires v.devices[d].renderTarget.Some? && v.g.nodes[d].slots[RENDER_TARGET_0] == v.devices[d].renderTarget
    requires pres.autoDepthStencil ==>
               v.devices[d].depthStencil.Some? && v.g.nodes[d].slots[DEPTH_STENCIL] == v.devices[d].depthStencil
    requires !pres.autoDepthStencil ==> v.devices[d].depthStencil.None?
    ensures Built(v, d, pres)
  {
    assert ChildrenOk(v.g, v.devices[d].swapchain.value);
  }

  /** Reset builds the device anew from the parameters it is given. */
  lemma ResetBuilds(c: Client, ext: multiset<Id>, d: Id, pres: Present)
    requires Good(c, ext) && Allowed(c, ResetTo(d, pres))
    ensures Built(Step(c, ResetTo(d, pres)).w, d, pres)
  {
    hide WInv, ReleaseInternalObjects, InitImplicitObjects, Built, Inv, Rebuilding;
    var w1, left := BareDevice(c.w, c.app, ext, d);
    TornIsBare(c.w.devices[d]);
    ImplicitsAre(w1, c.app, left, d, Sanitize(pres));
    var ext' := ResetKeeps(c.w, c.app, ext, d, pres);
    MembersAreOwned(Step(c, ResetTo(d, pres)).w, c.app, ext', d, pres, Sanitize(pres));
  }

  /** So does CreateDevice. */
  lemma CreateBuilds(c: Client, ext: multiset<Id>, m: Id, pres: Present)
    requires Good(c, ext) && Allowed(c, CreateDevice(m, pres))
    ensures Built(Step(c, CreateDevice(m, pres)).w, c.w.g.next, pres)
  {
    hide WInv, InitImplicitObjects, Built, Inv, Rebuilding, Create;
    var d := c.w.g.next;
    var u, ext1 := NewDeviceIsBare(c.w, c.app, ext, m, pres);
    ImplicitsAre(u, c.app + multiset{d}, ext1, d, Sanitize(pres));
    var ext' := NewDeviceKeeps(c.w, c.app, ext, m, pres);
    MembersAreOwned(NewDevice(c.w, m, pres), c.app + multiset{d}, ext', d, pres, Sanitize(pres));
  }
}
