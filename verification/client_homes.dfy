/** Getters: AddRef on whatever a slot shows meets a live parent as long as bindings stay within one device. */
module ClientHomes {
  import opened Options
  import opened ObjectGraph
  import opened GraphCounting
  import opened GraphDrops
  import opened ObjectOps
  import opened DeviceLifecycle
  import opened DeviceTeardown
  import opened DeviceWorld
  import opened DeviceRelease
  import opened DeviceReset
  import opened ClientOps
  import opened ClientRuns

  // An object bound in a slot may have interface count 0 and then holds no reference on its parent. A getter
  // that shows it calls AddRef, which goes on to the parent. Resources of one device are children of that device,
  // and so are the state blocks that bind them.

  /** `t` belongs to `o`, or to the same device as `o`, or to nobody. */
  predicate AtHome(g: Graph, o: Id, t: Id)
    requires o in g.nodes && t in g.nodes
  {
    g.nodes[t].parent.None? || g.nodes[t].parent == Some(o) || g.nodes[t].parent == g.nodes[o].parent
  }

  predicate SlotAtHome(g: Graph, o: Id, k: nat) {
    HasSlot(g, o, k) && g.nodes[o].slots[k].Some? && g.nodes[o].slots[k].value in g.nodes ==>
      AtHome(g, o, g.nodes[o].slots[k].value)
  }

  ghost predicate Homes(g: Graph) {
    forall o, k: nat {:trigger SlotAtHome(g, o, k)} :: SlotAtHome(g, o, k)
  }

  /** An object with references is at hand, and so is everything bound in one. */
  ghost predicate AtHand(g: Graph, i: Id) {
    && i in g.nodes
    && (g.nodes[i].iface > 0
        || exists o, k: nat :: HasSlot(g, o, k) && g.nodes[o].iface > 0 && g.nodes[o].slots[k] == Some(i))
  }

  /** What is at hand can be referenced: its ancestors, as far as AddRef goes, are alive. */
  lemma AtHandIsRevivable(g: Graph, ext: multiset<Id>, i: Id)
    requires Inv(g, ext, multiset{}) && Homes(g) && AtHand(g, i)
    ensures Revivable(g, i)
  {
    assert LinksOk(g.nodes, i);
    if g.nodes[i].iface == 0 && g.nodes[i].parent.Some? {
      var o, k: nat :| HasSlot(g, o, k) && g.nodes[o].iface > 0 && g.nodes[o].slots[k] == Some(i);
      assert SlotAtHome(g, o, k);
      assert LinksOk(g.nodes, o);
      ParentIsReferenced(g, ext, o);
    }
  }

  lemma ParentIsReferenced(g: Graph, ext: multiset<Id>, o: Id)
    requires Inv(g, ext, multiset{}) && o in g.nodes && g.nodes[o].iface > 0
    ensures g.nodes[o].parent.Some? ==> g.nodes[o].parent.value in g.nodes && g.nodes[g.nodes[o].parent.value].iface > 0
  {
    assert LinksOk(g.nodes, o);
    if g.nodes[o].parent.Some? {
      assert CountsOk(g.nodes, ext, multiset{}, g.nodes[o].parent.value);
      assert o in Kids(g.nodes, g.nodes[o].parent.value);
    }
  }

  // ---------------------------------------------------------------------------------------------
  // Calls an application can judge by itself
  // ---------------------------------------------------------------------------------------------

  /** The caller uses objects at hand and binds within one device. Nothing is said of anybody's ancestors. */
  ghost predicate Domestic(c: Client, op: Op) {
    var g := c.w.g;
    match op
    case CreateObject(parent, slots, children) => AtHand(g, Target(g, parent))
    case CreateChild(container, at) =>
      AtHand(g, container) && at < |g.nodes[container].children| && g.nodes[container].children[at].None?
    case TakeRef(i) => AtHand(g, Target(g, i))
    case BindSlot(o, k, t) => Allowed(c, op) && Target(g, t) in g.nodes && AtHome(g, o, Target(g, t))
    case CopySlot(o, k, o2, k2) =>
      && Allowed(c, op)
      && (g.nodes[o2].slots[k2].Some? && g.nodes[o2].slots[k2].value in g.nodes ==> AtHome(g, o, g.nodes[o2].slots[k2].value))
    case _ => Allowed(c, op)
  }

  lemma DomesticIsAllowed(c: Client, ext: multiset<Id>, op: Op)
    requires Good(c, ext) && Homes(c.w.g) && Domestic(c, op)
    ensures Allowed(c, op)
  {
    hide Inv, Bindable, Homes;
    match op
    case CreateObject(parent, slots, children) => AtHandIsRevivable(c.w.g, ext, Target(c.w.g, parent));
    case CreateChild(container, at) =>
      AtHandIsRevivable(c.w.g, ext, container);
      AddRefShape(c.w.g, container);
    case TakeRef(i) => AtHandIsRevivable(c.w.g, ext, Target(c.w.g, i));
    case _ =>
  }

  // ---------------------------------------------------------------------------------------------
  // Bindings stay at home
  // ---------------------------------------------------------------------------------------------

  /** `h` is a later state of `g`: what is bound in `h` was bound in the same slot of `g`, except `t` in slot `k`
      of `o`; new objects are bound nowhere else and bind nothing. */
  ghost predicate Onward(g: Graph, h: Graph, o: Id, k: nat, t: Option<Id>) {
    && (forall j | j in h.nodes && j in g.nodes :: h.nodes[j].parent == g.nodes[j].parent)
    && (forall j, q: nat {:trigger h.nodes[j].slots[q]} | HasSlot(h, j, q) && h.nodes[j].slots[q].Some? ::
          || (HasSlot(g, j, q) && h.nodes[j].slots[q] == g.nodes[j].slots[q])
          || (j == o && q == k && h.nodes[j].slots[q] == t))
  }

  lemma OnwardHomes(g: Graph, ext: multiset<Id>, h: Graph, o: Id, k: nat, t: Option<Id>)
    requires Inv(g, ext, multiset{}) && Homes(g) && Onward(g, h, o, k, t)
    requires t.Some? && o in h.nodes && t.value in h.nodes ==> AtHome(h, o, t.value)
    ensures Homes(h)
  {
    forall j, q: nat
      ensures SlotAtHome(h, j, q)
    {
      assert SlotAtHome(g, j, q);
      if HasSlot(h, j, q) && HasSlot(g, j, q) && h.nodes[j].slots[q] == g.nodes[j].slots[q] {
        assert LinksOk(g.nodes, j);
      }
    }
  }

  lemma FrameOnward(g: Graph, h: Graph, s: set<Id>)
    requires Frame(g, h, s)
    ensures Onward(g, h, 0, 0, None)
  {
    forall j | j in h.nodes
      ensures j in g.nodes && SameBut(g.nodes[j], h.nodes[j])
    {
    }
  }

  lemma CreateOnward(g: Graph, parent: Option<Id>, slots: nat, children: nat)
    requires g.next !in g.nodes && (parent.Some? ==> CanCreate(g, parent.value))
    ensures Onward(g, Create(g, parent, slots, children), 0, 0, None)
    ensures g.next in Create(g, parent, slots, children).nodes
    ensures Create(g, parent, slots, children).nodes[g.next].parent == parent
    ensures Create(g, parent, slots, children).next == g.next + 1
    ensures forall j | j in g.nodes :: j in Create(g, parent, slots, children).nodes
  {
    CreateIs(g, parent, slots, children);
    if parent.Some? {
      AddRefShape(g, parent.value);
    }
  }

  lemma ReboundOnward(g: Graph, h: Graph, o: Id, k: nat, t: Option<Id>)
    requires Rebound(g, h, o, k, t)
    ensures Onward(g, h, o, k, t)
  {
  }

  /** Members are entered in their container's child vector; nobody's slots change. */
  lemma {:induction false} CreateMembersSlots(g: Graph, c: Id, at: nat, n: nat)
    ensures var h := CreateMembers(g, c, at, n);
            && h.nodes.Keys == g.nodes.Keys
            && (forall j | j in g.nodes :: h.nodes[j].parent == g.nodes[j].parent && h.nodes[j].slots == g.nodes[j].slots)
    decreases n - at
  {
    if at < n && CanCreateMember(g, c, at) {
      AddRefShape(g, c);
      CreateMembersSlots(CreateMember(g, c, at), c, at + 1, n);
    }
  }

  lemma NewImplicitOnward(g: Graph, d: Id, n: nat)
    requires CanCreate(g, d)
    ensures Onward(g, NewImplicit(g, d, n), 0, 0, None)
    ensures g.next in NewImplicit(g, d, n).nodes && NewImplicit(g, d, n).nodes[g.next].parent == Some(d)
  {
    CreateOnward(g, Some(d), 0, n);
    CreateMembersSlots(Create(g, Some(d), 0, n), g.next, 0, n);
  }

  lemma OnwardThenRebound(g: Graph, u: Graph, h: Graph, o: Id, k: nat, t: Option<Id>)
    requires Onward(g, u, 0, 0, None) && Rebound(u, h, o, k, t)
    ensures Onward(g, h, o, k, t)
  {
  }

  lemma InitSwapchainHomes(w: World, app: multiset<Id>, ext: multiset<Id>, d: Id, pres: Present)
    requires Rebuilding(w, d, app, ext) && Homes(w.g)
    ensures Homes(InitSwapchain(w, d, pres).g)
  {
    hide Homes;
    if CanCreate(w.g, d) {
      NewImplicitOnward(w.g, d, pres.backBufferCount);
      OnwardHomes(w.g, ext, NewImplicit(w.g, d, pres.backBufferCount), 0, 0, None);
    }
  }

  lemma InitSurfaceHomes(w: World, app: multiset<Id>, ext: multiset<Id>, d: Id, dev: Device, k: nat)
    requires Rebuilding(w, d, app, ext) && Homes(w.g) && k < STATE_SLOTS
    requires || (w.devices[d].renderTarget.None? && dev == WithRenderTarget(w.devices[d], w.g.next))
             || (w.devices[d].depthStencil.None? && dev == WithDepthStencil(w.devices[d], w.g.next))
    ensures Homes(InitSurface(w, d, dev, k).g)
  {
    hide Homes, Onward, Rebound, Inv, NewImplicit, MoveAssign, Pointers, Implicits, Tokens, UnderModule, Frame;
    var x := w.g.next;
    SurfaceRecorded(w.devices[d], x, dev);
    var u, ext' := AddImplicit(w, app, ext, d, 0, dev);
    RebuildingFacts(u, d, app, ext');
    NewImplicitOnward(w.g, d, 0);
    var v := MoveAssign(u.g, d, k, x);
    MoveAssignRebinds(u.g, ext', d, k, x);
    OnwardThenRebound(w.g, u.g, v, d, k, Some(x));
    BoundAtHome(u.g, v, d, k, x);
    OnwardHomes(w.g, ext, v, d, k, Some(x));
  }

  lemma BoundAtHome(u: Graph, v: Graph, o: Id, k: nat, t: Id)
    requires Rebound(u, v, o, k, Some(t)) && o in u.nodes && t in u.nodes && AtHome(u, o, t)
    ensures o in v.nodes && t in v.nodes ==> AtHome(v, o, t)
  {
  }

  lemma InitImplicitHomes(w: World, app: multiset<Id>, ext: multiset<Id>, d: Id, pres: Present)
    requires Rebuilding(w, d, app, ext) && NoPointers(w.devices[d]) && Homes(w.g)
    ensures Homes(InitImplicitObjects(w, d, pres).g)
  {
    hide Homes, WInv, InitSwapchain, InitSurface, Tokens, UnderModule, Kids;
    InitSwapchainHomes(w, app, ext, d, pres);
    var w1, ext1 := InitSwapchainKeeps(w, app, ext, d, pres);
    var dev1 := WithRenderTarget(w1.devices[d], w1.g.next);
    InitSurfaceHomes(w1, app, ext1, d, dev1, RENDER_TARGET_0);
    var w2, ext2 := InitSurfaceKeeps(w1, app, ext1, d, dev1, RENDER_TARGET_0);
    if pres.autoDepthStencil {
      InitSurfaceHomes(w2, app, ext2, d, WithDepthStencil(w2.devices[d], w2.g.next), DEPTH_STENCIL);
    }
  }

  // ---------------------------------------------------------------------------------------------
  // Every step and every run
  // ---------------------------------------------------------------------------------------------

  lemma DeviceStepsKeepHomes(c: Client, ext: multiset<Id>, op: Op)
    requires Good(c, ext) && Homes(c.w.g) && Allowed(c, op) && (op.CreateDevice? || op.ResetTo?)
    ensures Homes(Step(c, op).w.g)
  {
    hide Homes, WInv, Frame, Onward, InitImplicitObjects, ReleaseInternalObjects, Create, UnderModule, Inv, Rebuilding;
    if op.CreateDevice? {
      var d := c.w.g.next;
      var u, ext1 := NewDeviceIsBare(c.w, c.app, ext, op.m, op.pres);
      CreateOnward(c.w.g, Some(op.m), STATE_SLOTS, 0);
      GoodInv(c, ext);
      OnwardHomes(c.w.g, ext, u.g, 0, 0, None);
      InitImplicitHomes(u, c.app + multiset{d}, ext1, d, Sanitize(op.pres));
    } else {
      var v, left := BareDevice(c.w, c.app, ext, op.d);
      BareFrame(c.w, c.app, ext, op.d);
      var s :| Frame(c.w.g, v.g, s);
      FrameOnward(c.w.g, v.g, s);
      GoodInv(c, ext);
      OnwardHomes(c.w.g, ext, v.g, 0, 0, None);
      TornIsBare(c.w.devices[op.d]);
      InitImplicitHomes(v, c.app, left, op.d, Sanitize(op.pres));
    }
  }

  lemma GoodInv(c: Client, ext: multiset<Id>)
    requires Good(c, ext)
    ensures Inv(c.w.g, ext, multiset{}) && c.w.g.next !in c.w.g.nodes
  {
    NewIdIsUnused(c.w.g, ext);
  }

  lemma SlotStepsKeepHomes(c: Client, ext: multiset<Id>, op: Op)
    requires Good(c, ext) && Homes(c.w.g) && Domestic(c, op) && (op.BindSlot? || op.CopySlot? || op.ClearSlot?)
    ensures Homes(Step(c, op).w.g)
  {
    hide Homes, WInv, Onward, Rebound, MoveAssign, CopyAssign, Reset, Inv, Bindable, TeardownsOk;
    var g := c.w.g;
    var h := Step(c, op).w.g;
    GoodInv(c, ext);
    match op
    case BindSlot(o, k, t) =>
      MoveAssignRebinds(g, ext, o, k, Target(g, t));
      ReboundOnward(g, h, o, k, Some(Target(g, t)));
      BoundAtHome(g, h, o, k, Target(g, t));
      OnwardHomes(g, ext, h, o, k, Some(Target(g, t)));
    case CopySlot(o, k, o2, k2) =>
      var t := g.nodes[o2].slots[k2];
      CopyAssignRebinds(g, ext, o, k, o2, k2);
      ReboundOnward(g, h, o, k, t);
      if t.Some? {
        SlotIsLive(g, ext, o2, k2);
        BoundAtHome(g, h, o, k, t.value);
      }
      OnwardHomes(g, ext, h, o, k, t);
    case ClearSlot(o, k) =>
      UnbindRebinds(g, ext, o, k);
      ReboundOnward(g, h, o, k, None);
      OnwardHomes(g, ext, h, o, k, None);
  }

  lemma StepKeepsHomes(c: Client, ext: multiset<Id>, op: Op)
    requires Good(c, ext) && Homes(c.w.g) && Domestic(c, op)
    ensures Allowed(c, op) && Homes(Step(c, op).w.g)
  {
    DomesticIsAllowed(c, ext, op);
    hide Homes, WInv, Release, Frame, Create, Inv, Bindable, ResetDevice, NewDevice, MoveAssign, CopyAssign, Reset, Onward;
    var g := c.w.g;
    GoodInv(c, ext);
    match op
    case CreateModule =>
      CreateOnward(g, None, 0, 0);
      OnwardHomes(g, ext, Create(g, None, 0, 0), 0, 0, None);
    case CreateObject(parent, slots, children) =>
      var p := Target(g, parent);
      var ext' := CreateStep(c, ext, Some(p), slots, children);
      CreateOnward(g, Some(p), slots, children);
      OnwardHomes(g, ext, Create(g, Some(p), slots, children), 0, 0, None);
    case CreateChild(container, at) => MemberKeepsHomes(c, ext, container, at);
    case TakeRef(i) => AddRefKeepsHomes(c, ext, Target(g, i));
    case DropRef(i) =>
      var left := ReleaseKeepsWInv(c.w, c.app, ext, Target(g, i));
      var s :| Frame(g, CallRelease(c.w, i).g, s);
      FrameOnward(g, CallRelease(c.w, i).g, s);
      OnwardHomes(g, ext, CallRelease(c.w, i).g, 0, 0, None);
    case CreateDevice(_, _) => DeviceStepsKeepHomes(c, ext, op);
    case ResetTo(_, _) => DeviceStepsKeepHomes(c, ext, op);
    case _ => SlotStepsKeepHomes(c, ext, op);
  }

  lemma AddRefKeepsHomes(c: Client, ext: multiset<Id>, i: Id)
    requires Good(c, ext) && Homes(c.w.g) && Revivable(c.w.g, i)
    ensures Homes(AddRef(c.w.g, i))
  {
    AddRefShape(c.w.g, i);
    OnwardHomes(c.w.g, ext, AddRef(c.w.g, i), 0, 0, None);
  }

  lemma MemberKeepsHomes(c: Client, ext: multiset<Id>, container: Id, at: nat)
    requires Good(c, ext) && Homes(c.w.g) && CanCreateMember(c.w.g, container, at)
    ensures Homes(CreateMember(c.w.g, container, at))
  {
    AddRefShape(c.w.g, container);
    OnwardHomes(c.w.g, ext, CreateMember(c.w.g, container, at), 0, 0, None);
  }

  /** A sequence of calls that the application can judge by itself, each when it is made. */
  ghost predicate DomesticRun(c: Client, ops: seq<Op>)
    decreases ops
  {
    ops == [] || (Domestic(c, ops[0]) && DomesticRun(Step(c, ops[0]), ops[1..]))
  }

  lemma {:induction false} DomesticRunIsRun(c: Client, ext: multiset<Id>, ops: seq<Op>) returns (ext': multiset<Id>)
    requires Good(c, ext) && Homes(c.w.g) && DomesticRun(c, ops)
    ensures Run(c, ops) && Good(After(c, ops), ext') && Homes(After(c, ops).w.g)
    decreases ops
  {
    hide Good, Homes, Domestic, Allowed, Step;
    if ops == [] {
      ext' := ext;
    } else {
      StepKeepsHomes(c, ext, ops[0]);
      var ext1 := StepKeeps(c, ext, ops[0]);
      ext' := DomesticRunIsRun(Step(c, ops[0]), ext1, ops[1..]);
    }
  }

  /** Along every run whose bindings stay within one device, every object the application references, and every
      object that a slot of a referenced object shows, can be referenced again: no AddRef ever meets a parent
      that is gone. */
  lemma GettersAreSafe(ops: seq<Op>, i: Id)
    requires DomesticRun(START, ops)
    ensures Run(START, ops)
    ensures i in After(START, ops).app || AtHand(After(START, ops).w.g, i) ==> Revivable(After(START, ops).w.g, i)
  {
    StartIsGood();
    assert Homes(START.w.g);
    var ext := DomesticRunIsRun(START, multiset{}, ops);
    var c := After(START, ops);
    if i in c.app {
      assert ext[i] == c.app[i] + Imp(c.w, i);
      CountsBoundOf(c.w.g, ext, i);
    }
    if i in c.app || AtHand(c.w.g, i) {
      AtHandIsRevivable(c.w.g, ext, i);
    }
  }
}
