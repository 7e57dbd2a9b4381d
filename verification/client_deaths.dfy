/** Containers and their members live and die together, whatever step is taken. */
module ClientDeaths {
  import opened Options
  import opened ObjectGraph
  import opened GraphCounting
  import opened GraphDrops
  import opened ObjectOps
  import opened DeviceLifecycle
  import opened DeviceTeardown
  import opened DeviceWorld
  import opened DeviceRelease
  import opened DeviceReset
  import opened ClientOps
  import opened ClientRuns

  /** Between `g` and `h` ids are not reused, what died of `g` died whole, and what did not lists the same
      members. */
  ghost predicate Kept(g: Graph, h: Graph) {
    && g.next <= h.next
    && g.log <= h.log
    && (forall j | j in h.nodes && j !in g.nodes :: j >= g.next)
    && (forall c {:trigger DiedWhole(g, h, c)} | c in g.nodes && c !in h.nodes ::
          DiedWhole(g, h, c))
    && (forall c | c in g.nodes && c in h.nodes ::
          h.nodes[c].children == g.nodes[c].children)
  }

  predicate Handed(g: Graph) {
    forall c | c in g.nodes :: c < g.next
  }

  lemma KeptTrans(g: Graph, h: Graph, k: Graph)
    requires Handed(g) && Kept(g, h) && Kept(h, k)
    ensures Kept(g, k)
  {
    forall c | c in g.nodes && c !in k.nodes
      ensures DiedWhole(g, k, c)
    {
      DiedWholeTrans(g, h, k, c);
    }
  }

  lemma FrameIsKept(g: Graph, h: Graph)
    requires exists s :: Frame(g, h, s)
    ensures Kept(g, h)
  {
    var s :| Frame(g, h, s);
    forall c | c in h.nodes
      ensures c in g.nodes && h.nodes[c].children == g.nodes[c].children
    {
      assert SameBut(g.nodes[c], h.nodes[c]);
    }
  }

  // ---------------------------------------------------------------------------------------------
  // Slots
  // ---------------------------------------------------------------------------------------------

  lemma EraseIsKept(g: Graph, t: Id)
    requires t in g.nodes
    ensures Kept(g, Erase(g, t))
  {
    var members := Somes(g.nodes[t].children);
    assert g.log + [t] + members <= Erase(g, t).log;
    LoggedStaysWhole(g.log, t, members, Erase(g, t).log);
    assert DiedWhole(g, Erase(g, t), t);
  }

  lemma {:induction false} DropAllIsKept(g: Graph, pend: seq<Id>)
    requires Handed(g)
    ensures Kept(g, DropAll(g, pend)) && Handed(DropAll(g, pend))
    decreases |g.nodes|, |pend|
  {
    if pend != [] {
      var t := pend[0];
      var Dropped(h, left) := DropOne(g, pend);
      if t in g.nodes && g.nodes[t].obj == 1 {
        EraseIsKept(g, t);
      }
      DropAllIsKept(h, left);
      KeptTrans(g, h, DropAll(h, left));
    }
  }

  lemma SetSlotIsKept(g: Graph, o: Id, k: nat, t: Option<Id>)
    requires Handed(g) && HasSlot(g, o, k)
    ensures Kept(g, SetSlot(g, o, k, t)) && Handed(SetSlot(g, o, k, t))
  {
  }

  lemma IncObjectIsKept(g: Graph, t: Id)
    requires Handed(g) && t in g.nodes
    ensures Kept(g, IncObject(g, t)) && Handed(IncObject(g, t))
  {
  }

  lemma ResetIsKept(g: Graph, o: Id, k: nat, t: Option<Id>)
    requires Handed(g) && HasSlot(g, o, k)
    ensures Kept(g, Reset(g, o, k, t)) && Handed(Reset(g, o, k, t))
  {
    hide Kept, Handed, SetSlot, IncObject, DropAll;
    var l := SetSlot(g, o, k, None);
    var h := DropAll(l, Somes([g.nodes[o].slots[k]]));
    SetSlotIsKept(g, o, k, None);
    DropAllIsKept(l, Somes([g.nodes[o].slots[k]]));
    KeptTrans(g, l, h);
    if t.Some? && t.value in h.nodes && HasSlot(IncObject(h, t.value), o, k) {
      StoreIsKept(g, h, o, k, t.value);
    }
  }

  /** The new object referenced and stored. */
  lemma StoreIsKept(g: Graph, h: Graph, o: Id, k: nat, t: Id)
    requires Handed(g) && Kept(g, h) && Handed(h) && t in h.nodes && HasSlot(IncObject(h, t), o, k)
    ensures Kept(g, SetSlot(IncObject(h, t), o, k, Some(t))) && Handed(SetSlot(IncObject(h, t), o, k, Some(t)))
  {
    hide Kept, Handed, SetSlot, IncObject;
    IncObjectIsKept(h, t);
    SetSlotIsKept(IncObject(h, t), o, k, Some(t));
    KeptTrans(g, h, IncObject(h, t));
    KeptTrans(g, IncObject(h, t), SetSlot(IncObject(h, t), o, k, Some(t)));
  }

  lemma BindIsKept(w: World, o: Id, k: nat, t: Id)
    requires Handed(w.g)
    ensures Kept(w.g, Bind(w, o, k, t).g) && Handed(Bind(w, o, k, t).g)
  {
    if HasSlot(w.g, o, k) && t in w.g.nodes {
      hide Kept, Reset, SetSlot;
      var l := IncObject(w.g, t);
      IncObjectIsKept(w.g, t);
      var h := Reset(l, o, k, None);
      ResetIsKept(l, o, k, None);
      KeptTrans(w.g, l, h);
      if HasSlot(h, o, k) {
        SetSlotIsKept(h, o, k, Some(t));
        KeptTrans(w.g, h, SetSlot(h, o, k, Some(t)));
      }
    } else {
      KeptRefl(w.g);
    }
  }

  lemma KeptRefl(g: Graph)
    ensures Kept(g, g)
  {
  }

  // ---------------------------------------------------------------------------------------------
  // Construction
  // ---------------------------------------------------------------------------------------------

  lemma AddRefIsKept(g: Graph, i: Id)
    requires Handed(g) && Revivable(g, i)
    ensures Kept(g, AddRef(g, i)) && Handed(AddRef(g, i))
  {
    AddRefShape(g, i);
  }

  lemma CreateIsKept(g: Graph, parent: Option<Id>, slots: nat, children: nat)
    requires Handed(g) && g.next !in g.nodes && (parent.Some? ==> CanCreate(g, parent.value))
    ensures Kept(g, Create(g, parent, slots, children)) && Handed(Create(g, parent, slots, children))
    ensures Create(g, parent, slots, children).next == g.next + 1
  {
    CreateIs(g, parent, slots, children);
    if parent.Some? {
      AddRefIsKept(g, parent.value);
    }
    KeptTrans(g, Referenced(g, parent), Create(g, parent, slots, children));
  }

  /** Members are entered in the vector of a container that is new itself. */
  lemma {:induction false} CreateMembersIsKept(g: Graph, h: Graph, c: Id, at: nat, n: nat)
    requires Handed(g) && Handed(h) && Kept(g, h) && c >= g.next
    ensures Kept(g, CreateMembers(h, c, at, n)) && Handed(CreateMembers(h, c, at, n))
    decreases n - at
  {
    if at < n && CanCreateMember(h, c, at) {
      AddRefShape(h, c);
      AddRefIsKept(h, c);
      KeptTrans(g, h, AddRef(h, c));
      var k := CreateMember(h, c, at);
      forall x | x in g.nodes && x !in k.nodes
        ensures DiedWhole(g, k, x)
      {
        assert DiedWhole(g, AddRef(h, c), x);
      }
      CreateMembersIsKept(g, k, c, at + 1, n);
    }
  }

  lemma NewImplicitIsKept(g: Graph, d: Id, n: nat)
    requires Handed(g) && CanCreate(g, d)
    ensures Kept(g, NewImplicit(g, d, n)) && Handed(NewImplicit(g, d, n))
  {
    CreateIsKept(g, Some(d), 0, n);
    CreateMembersIsKept(g, Create(g, Some(d), 0, n), g.next, 0, n);
  }

  lemma InitSurfaceIsKept(w: World, d: Id, dev: Device, k: nat)
    requires Handed(w.g) && d in w.devices
    ensures Kept(w.g, InitSurface(w, d, dev, k).g) && Handed(InitSurface(w, d, dev, k).g)
    ensures d in InitSurface(w, d, dev, k).devices
  {
    if CanCreate(w.g, d) {
      var v := w.(g := NewImplicit(w.g, d, 0), devices := w.devices[d := dev]);
      NewImplicitIsKept(w.g, d, 0);
      BindIsKept(v, d, k, w.g.next);
      KeptTrans(w.g, v.g, Bind(v, d, k, w.g.next).g);
    }
  }

  lemma InitImplicitIsKept(w: World, d: Id, pres: Present)
    requires Handed(w.g) && d in w.devices
    ensures Kept(w.g, InitImplicitObjects(w, d, pres).g)
  {
    hide Kept, InitSurface, InitSwapchain, CanCreate;
    InitSwapchainIsKept(w, d, pres);
    var w1 := InitSwapchain(w, d, pres);
    var dev1 := WithRenderTarget(w1.devices[d], w1.g.next);
    InitSurfaceIsKept(w1, d, dev1, RENDER_TARGET_0);
    var w2 := InitSurface(w1, d, dev1, RENDER_TARGET_0);
    KeptTrans(w.g, w1.g, w2.g);
    if pres.autoDepthStencil {
      var dev2 := WithDepthStencil(w2.devices[d], w2.g.next);
      InitSurfaceIsKept(w2, d, dev2, DEPTH_STENCIL);
      KeptTrans(w.g, w2.g, InitSurface(w2, d, dev2, DEPTH_STENCIL).g);
    }
  }

  lemma InitSwapchainIsKept(w: World, d: Id, pres: Present)
    requires Handed(w.g) && d in w.devices
    ensures Kept(w.g, InitSwapchain(w, d, pres).g) && Handed(InitSwapchain(w, d, pres).g)
    ensures d in InitSwapchain(w, d, pres).devices
  {
    if CanCreate(w.g, d) {
      NewImplicitIsKept(w.g, d, pres.backBufferCount);
    }
  }

  // ---------------------------------------------------------------------------------------------
  // Every operation
  // ---------------------------------------------------------------------------------------------

  lemma AllHanded(c: Client, ext: multiset<Id>)
    requires Good(c, ext)
    ensures Handed(c.w.g) && c.w.g.next !in c.w.g.nodes
  {
    assert forall j | j in c.w.g.nodes :: Alive(c.w.g, j);
    NewIdIsUnused(c.w.g, ext);
  }

  lemma ReleaseIsKept(c: Client, ext: multiset<Id>, i: Id)
    requires Good(c, ext) && Target(c.w.g, i) in c.app
    ensures Kept(c.w.g, CallRelease(c.w, i).g)
  {
    hide WInv, Release, Frame, Kept;
    var left := ReleaseKeepsWInv(c.w, c.app, ext, Target(c.w.g, i));
    FrameIsKept(c.w.g, CallRelease(c.w, i).g);
  }

  lemma NewDeviceIsKept(w: World, m: Id, pres: Present)
    requires Handed(w.g) && CanCreate(w.g, m)
    ensures Kept(w.g, NewDevice(w, m, pres).g)
  {
    hide Kept, InitImplicitObjects, Create;
    var d := w.g.next;
    CreateIsKept(w.g, Some(m), STATE_SLOTS, 0);
    var u := w.(g := Create(w.g, Some(m), STATE_SLOTS, 0),
                devices := w.devices[d := Device(0, false, None, None, None, pres)]);
    InitImplicitIsKept(u, d, Sanitize(pres));
    KeptTrans(w.g, u.g, NewDevice(w, m, pres).g);
  }

  lemma ResetDeviceIsKept(c: Client, ext: multiset<Id>, d: Id, pres: Present)
    requires Good(c, ext) && Allowed(c, ResetTo(d, pres))
    ensures Kept(c.w.g, ResetDevice(c.w, d, pres).g)
  {
    hide Kept, WInv, Frame, InitImplicitObjects, ReleaseInternalObjects, Inv;
    AllHanded(c, ext);
    var v, left := BareDevice(c.w, c.app, ext, d);
    BareFrame(c.w, c.app, ext, d);
    FrameIsKept(c.w.g, v.g);
    HandedLater(v, c.app, left);
    InitImplicitIsKept(v, d, Sanitize(pres));
    KeptTrans(c.w.g, v.g, ResetDevice(c.w, d, pres).g);
  }

  lemma HandedLater(w: World, app: multiset<Id>, ext: multiset<Id>)
    requires exists mid :: WInv(w, app, ext, mid)
    ensures Handed(w.g)
  {
    assert forall j | j in w.g.nodes :: Alive(w.g, j);
  }

  /** Every operation but the creation of one more member. */
  lemma StepIsKept(c: Client, ext: multiset<Id>, op: Op)
    requires Good(c, ext) && Allowed(c, op) && !op.CreateChild?
    ensures Kept(c.w.g, Step(c, op).w.g)
  {
    hide Good, WInv, Kept, Bindable, Release, ResetDevice, NewDevice, AddRef, Create, Revivable, MoveAssign, Reset, TeardownsOk;
    var w, g := c.w, c.w.g;
    AllHanded(c, ext);
    match op
    case CreateModule => CreateIsKept(g, None, 0, 0);
    case CreateDevice(m, pres) => KeptOrSame(c, op);
    case CreateObject(parent, slots, children) => KeptOrSame(c, op);
    case TakeRef(i) => AddRefIsKept(g, Target(g, i));
    case DropRef(i) => ReleaseIsKept(c, ext, i);
    case BindSlot(o, k, t) => BindIsKept(w, o, k, Target(g, t));
    case CopySlot(o, k, o2, k2) => KeptOrSame(c, op);
    case ClearSlot(o, k) => ResetIsKept(g, o, k, None);
    case ResetTo(d, pres) => ResetDeviceIsKept(c, ext, d, pres);
  }

  lemma KeptOrSame(c: Client, op: Op)
    requires Handed(c.w.g) && c.w.g.next !in c.w.g.nodes && (op.CreateDevice? || op.CreateObject? || op.CopySlot?)
    ensures Kept(c.w.g, Step(c, op).w.g)
  {
    hide NewDevice, Create;
    var w, g := c.w, c.w.g;
    match op
    case CreateDevice(m, pres) =>
      if CanCreate(g, m) {
        NewDeviceIsKept(w, m, pres);
      }
    case CreateObject(parent, slots, children) =>
      if CanCreate(g, Target(g, parent)) {
        CreateIsKept(g, Some(Target(g, parent)), slots, children);
      }
    case CopySlot(o, k, o2, k2) =>
      if HasSlot(g, o, k) && HasSlot(g, o2, k2) {
        ResetIsKept(g, o, k, g.nodes[o2].slots[k2]);
      }
  }

  /** Who dies with whom follows from that. */
  lemma MembersFollow(g: Graph, h: Graph, x: Id)
    requires MemberInv(g) && MemberInv(h) && LogInv(h) && x in g.nodes && Kept(g, h)
    ensures forall m | m in g.owner && g.owner[m] == x :: Alive(h, m) <==> x in h.nodes
    ensures x !in h.nodes ==> !Alive(h, x)
  {
    MembersListed(g, x);
    if x in h.nodes {
      MembersListed(h, x);
    } else {
      var members := Somes(g.nodes[x].children);
      assert DiedWhole(g, h, x);
      var at: nat :| |g.log| <= at && WentDownWhole(h.log, x, members, at);
      LoggedWholeIsDead(h, x, members, at);
    }
  }

  /** Whatever the step, and whichever reference or D3DAutoPtr on the container or on any of its members it
      drops last: each member lives on exactly if its container does, and a container that dies is logged in
      one stretch with all its members. */
  lemma MembersDieTogether(c: Client, ext: multiset<Id>, op: Op, x: Id)
    requires Good(c, ext) && Allowed(c, op) && x in c.w.g.nodes
    ensures var h := Step(c, op).w.g;
            && (forall m | m in c.w.g.owner && c.w.g.owner[m] == x :: Alive(h, m) <==> x in h.nodes)
            && (x !in h.nodes ==> !Alive(h, x) && DiedWhole(c.w.g, h, x))
  {
    hide WInv, Kept, Step, Allowed, MemberInv, LogInv, TeardownsOk;
    var ext' := StepKeeps(c, ext, op);
    GoodIsShaped(c, ext);
    GoodIsShaped(Step(c, op), ext');
    if op.CreateChild? {
      OneMoreMember(c, ext, op.container, op.at, x);
    } else {
      StepIsKept(c, ext, op);
      MembersFollow(c.w.g, Step(c, op).w.g, x);
      if x !in Step(c, op).w.g.nodes {
        KeptDiesWhole(c.w.g, Step(c, op).w.g, x);
      }
    }
  }

  lemma KeptDiesWhole(g: Graph, h: Graph, x: Id)
    requires Kept(g, h) && x in g.nodes && x !in h.nodes
    ensures DiedWhole(g, h, x)
  {
  }

  lemma GoodIsShaped(c: Client, ext: multiset<Id>)
    requires Good(c, ext)
    ensures MemberInv(c.w.g) && LogInv(c.w.g)
  {
  }

  lemma OneMoreMember(c: Client, ext: multiset<Id>, container: Id, at: nat, x: Id)
    requires Good(c, ext) && Allowed(c, CreateChild(container, at)) && x in c.w.g.nodes
    ensures x in Step(c, CreateChild(container, at)).w.g.nodes
    ensures forall m | m in c.w.g.owner :: Alive(Step(c, CreateChild(container, at)).w.g, m)
  {
    AddRefShape(c.w.g, container);
  }
}
