/** Runs of the whole client from an empty start: every operation the application can call, in any order. */
module ClientRuns {
  import opened Options
  import opened ObjectGraph
  import opened GraphCounting
  import opened GraphDrops
  import opened ObjectOps
  import opened DeviceLifecycle
  import opened DeviceTeardown
  import opened DeviceWorld
  import opened DeviceRelease
  import opened DeviceDeath
  import opened DeviceReset
  import opened ClientOps

  datatype Op =
    | CreateModule
    | CreateDevice(m: Id, pres: Present)
    | CreateObject(parent: Id, slots: nat, children: nat)
    | CreateChild(container: Id, at: nat)
    | TakeRef(i: Id)
    | DropRef(i: Id)
    | BindSlot(o: Id, k: nat, t: Id)
    | CopySlot(o: Id, k: nat, o2: Id, k2: nat)
    | ClearSlot(o: Id, k: nat)
    | ResetTo(d: Id, pres: Present)

  /** The client and the interface references the application holds in it, each on the counter it was taken on:
      a reference on a member and one on its container are the same. */
  datatype Client = Client(w: World, app: multiset<Id>)

  const START: Client := Client(World(Graph(map[], map[], [], 0), map[], []), multiset{})

  /** What the source demands of its caller: live objects, and references that are really held. */
  ghost predicate Allowed(c: Client, op: Op) {
    match op
    case CreateModule => true
    case CreateDevice(m, pres) => m in c.app && m in c.w.g.nodes && m !in c.w.devices && c.w.g.nodes[m].parent.None?
    case CreateObject(parent, slots, children) => Revivable(c.w.g, Target(c.w.g, parent))
    case CreateChild(container, at) => CanCreateMember(c.w.g, container, at)
    case TakeRef(i) => Revivable(c.w.g, Target(c.w.g, i))
    case DropRef(i) => Target(c.w.g, i) in c.app
    case BindSlot(o, k, t) =>
      && HasSlot(c.w.g, o, k) && c.w.g.nodes[o].iface > 0 && Alive(c.w.g, t)
      && Bindable(c.w, o, Some(Target(c.w.g, t)))
    case CopySlot(o, k, o2, k2) =>
      && HasSlot(c.w.g, o, k) && HasSlot(c.w.g, o2, k2) && c.w.g.nodes[o].iface > 0 && c.w.g.nodes[o2].iface > 0
      && Bindable(c.w, o, c.w.g.nodes[o2].slots[k2])
    case ClearSlot(o, k) => HasSlot(c.w.g, o, k)
    case ResetTo(d, pres) => d in c.app && d in c.w.devices && !c.w.devices[d].destroying
  }

  /** CreateDevice: the device object under the module, and its implicit objects. */
  function NewDevice(w: World, m: Id, pres: Present): World
    requires CanCreate(w.g, m)
  {
    var d := w.g.next;
    InitImplicitObjects(
      w.(g := Create(w.g, Some(m), STATE_SLOTS, 0),
         devices := w.devices[d := Device(0, false, None, None, None, pres)]),
      d, Sanitize(pres))
  }

  /** The client after `op`. */
  ghost function Step(c: Client, op: Op): Client {
    var w, g, app := c.w, c.w.g, c.app;
    match op
    case CreateModule => Client(w.(g := Create(g, None, 0, 0)), app + multiset{g.next})
    case CreateDevice(m, pres) => if CanCreate(g, m) then Client(NewDevice(w, m, pres), app + multiset{g.next}) else c
    case CreateObject(parent, slots, children) =>
      var p := Target(g, parent);
      if CanCreate(g, p) then Client(w.(g := Create(g, Some(p), slots, children)), app + multiset{g.next}) else c
    case CreateChild(container, at) =>
      if CanCreateMember(g, container, at)
      then Client(w.(g := CreateMember(g, container, at)), app + multiset{container}) else c
    case TakeRef(i) =>
      if Revivable(g, Target(g, i)) then Client(w.(g := CallAddRef(g, i)), app + multiset{Target(g, i)}) else c
    case DropRef(i) => Client(CallRelease(w, i), app - multiset{Target(g, i)})
    case BindSlot(o, k, t) => c.(w := Bind(w, o, k, Target(g, t)))
    case CopySlot(o, k, o2, k2) =>
      if HasSlot(g, o, k) && HasSlot(g, o2, k2) then c.(w := w.(g := CopyAssign(g, o, k, o2, k2))) else c
    case ClearSlot(o, k) => if HasSlot(g, o, k) then c.(w := w.(g := Reset(g, o, k, None))) else c
    case ResetTo(d, pres) => if d in w.devices then c.(w := ResetDevice(w, d, pres)) else c
  }

  /** A sequence of calls, each allowed when it is made. */
  ghost predicate Run(c: Client, ops: seq<Op>)
    decreases ops
  {
    ops == [] || (Allowed(c, ops[0]) && Run(Step(c, ops[0]), ops[1..]))
  }

  ghost function After(c: Client, ops: seq<Op>): Client
    decreases ops
  {
    if ops == [] then c else After(Step(c, ops[0]), ops[1..])
  }

  // ---------------------------------------------------------------------------------------------
  // Every run keeps the invariant
  // ---------------------------------------------------------------------------------------------

  lemma NewDeviceIsBare(w: World, app: multiset<Id>, ext: multiset<Id>, m: Id, pres: Present)
    returns (v: World, ext': multiset<Id>)
    requires WInv(w, app, ext, {}) && m in w.g.nodes && m !in w.devices && w.g.nodes[m].parent.None?
    ensures CanCreate(w.g, m)
    ensures v == w.(g := Create(w.g, Some(m), STATE_SLOTS, 0),
                    devices := w.devices[w.g.next := Device(0, false, None, None, None, pres)])
    ensures Rebuilding(v, w.g.next, app + multiset{w.g.next}, ext')
  {
    hide Inv, Create;
    var d := w.g.next;
    var u := CreateKeepsWInv(w, app, ext, {}, Some(m), STATE_SLOTS, 0);
    var dev := Device(0, false, None, None, None, pres);
    v := u.(devices := w.devices[d := dev]);
    ext' := ext + multiset{d};
    assert Implicits(dev) == {};
    NobodysParent(w, u, app, ext, m, d);
    forall e | e in v.devices && e in v.g.nodes
      ensures DeviceOk(v, e, {d})
    {
      if e != d {
        OtherDeviceOk(u, v, app + multiset{d}, ext', d, dev, e);
      }
    }
    forall x: Id
      ensures ext'[x] == (app + multiset{d})[x] + Imp(v, x)
    {
      assert ext'[x] == (app + multiset{d})[x] + Imp(u, x);
    }
  }

  /** A new id has no children, and the module above it stays where it is. */
  lemma NobodysParent(w: World, u: World, app: multiset<Id>, ext: multiset<Id>, m: Id, d: Id)
    requires WInv(w, app, ext, {}) && d == w.g.next && m in w.g.nodes && u == w.(g := u.g)
    requires WInv(u, app + multiset{d}, ext + multiset{d}, {}) && u.g.next == d + 1
    requires d in u.g.nodes && m in u.g.nodes && u.g.nodes[m].parent == w.g.nodes[m].parent
    ensures forall x | x in u.g.nodes :: u.g.nodes[x].parent != Some(d)
    ensures d !in w.devices && m < d
  {
    assert Alive(w.g, m);
    assert d in w.devices ==> d !in w.g.nodes by {
      assert d in w.g.nodes ==> Alive(w.g, d);
    }
    forall x | x in u.g.nodes
      ensures u.g.nodes[x].parent != Some(d)
    {
      assert LinksOk(u.g.nodes, x);
      assert Alive(u.g, x);
    }
  }

  lemma OtherDeviceOk(u: World, v: World, app: multiset<Id>, ext: multiset<Id>, d: Id, dev: Device, e: Id)
    requires WInv(u, app, ext, {}) && v == u.(devices := u.devices[d := dev]) && Implicits(dev) == {}
    requires e in u.devices && e in u.g.nodes && e != d && d in u.g.nodes
    requires u.g.nodes[d].parent.Some? && u.g.nodes[d].parent.value !in u.devices
    requires forall x | x in u.g.nodes :: u.g.nodes[x].parent != Some(d)
    ensures DeviceOk(v, e, {d})
  {
    assert DeviceOk(u, e, {});
    forall x | x in Implicits(u.devices[e])
      ensures ImplicitOk(v, e, x)
    {
      assert ImplicitOk(u, e, x);
    }
  }

  lemma NewDeviceKeeps(w: World, app: multiset<Id>, ext: multiset<Id>, m: Id, pres: Present)
    returns (ext': multiset<Id>)
    requires WInv(w, app, ext, {}) && m in w.g.nodes && m !in w.devices && w.g.nodes[m].parent.None?
    requires TeardownsOk(w)
    ensures CanCreate(w.g, m)
    ensures WInv(NewDevice(w, m, pres), app + multiset{w.g.next}, ext', {}) && TeardownsOk(NewDevice(w, m, pres))
    ensures var v := NewDevice(w, m, pres);
            && w.g.next in v.devices && Full(v.devices[w.g.next]) && w.g.next in v.g.nodes
            && Visible(v, w.g.next) == 1
  {
    hide WInv, InitImplicitObjects, Create, Full, UnderModule;
    var d := w.g.next;
    NextIsNoDevice(w, app, ext);
    var u, ext1 := NewDeviceIsBare(w, app, ext, m, pres);
    RebuildingFacts(u, d, app + multiset{d}, ext1);
    NoKidsYet(w, app, ext, m, pres);
    var v;
    v, ext' := InitImplicitKeeps(u, app + multiset{d}, ext1, d, Sanitize(pres));
    FullDeviceCounts(v, app + multiset{d}, ext', d);
    AppBelowNext(w, app, ext);
  }

  lemma NextIsNoDevice(w: World, app: multiset<Id>, ext: multiset<Id>)
    requires WInv(w, app, ext, {})
    ensures w.g.next !in w.devices
  {
    if w.g.next in w.devices && w.g.next in w.g.nodes {
      IdsBelowNext(w.g, w.g.next);
    }
  }

  lemma AppBelowNext(w: World, app: multiset<Id>, ext: multiset<Id>)
    requires WInv(w, app, ext, {})
    ensures w.g.next !in app
  {
    NewIdIsUnused(w.g, ext);
    assert ext[w.g.next] == app[w.g.next] + Imp(w, w.g.next);
  }

  lemma NoKidsYet(w: World, app: multiset<Id>, ext: multiset<Id>, m: Id, pres: Present)
    requires WInv(w, app, ext, {}) && m in w.g.nodes && CanCreate(w.g, m)
    ensures Kids(Create(w.g, Some(m), STATE_SLOTS, 0).nodes, w.g.next) == {}
  {
    var u := CreateKeepsWInv(w, app, ext, {}, Some(m), STATE_SLOTS, 0);
    CreateIs(w.g, Some(m), STATE_SLOTS, 0);
    AddRefIsSameSlots(w.g, m);
    NewIdIsUnused(w.g, ext);
    forall x | x in u.g.nodes
      ensures u.g.nodes[x].parent != Some(w.g.next)
    {
      if x in w.g.nodes {
        assert LinksOk(w.g.nodes, x);
        IdsBelowNext(w.g, x);
      }
    }
  }

  ghost predicate Good(c: Client, ext: multiset<Id>) {
    && WInv(c.w, c.app, ext, {})
    && TeardownsOk(c.w)
  }

  lemma ReleaseStep(c: Client, ext: multiset<Id>, i: Id) returns (ext': multiset<Id>)
    requires Good(c, ext) && Allowed(c, DropRef(i))
    ensures Good(Step(c, DropRef(i)), ext')
  {
    hide WInv, Release, TeardownsOk, TornDown;
    var t := Target(c.w.g, i);
    ext' := ReleaseKeepsWInv(c.w, c.app, ext, t);
    TeardownsStayOk(c.w, Release(c.w, t), TornBy(c.w, t));
  }

  lemma CreateStep(c: Client, ext: multiset<Id>, parent: Option<Id>, slots: nat, children: nat)
    returns (ext': multiset<Id>)
    requires Good(c, ext) && (parent.Some? ==> Revivable(c.w.g, parent.value))
    ensures parent.Some? ==> CanCreate(c.w.g, parent.value)
    ensures Good(Client(c.w.(g := Create(c.w.g, parent, slots, children)), c.app + multiset{c.w.g.next}), ext')
  {
    hide WInv;
    var v := CreateKeepsWInv(c.w, c.app, ext, {}, parent, slots, children);
    ext' := ext + multiset{c.w.g.next};
  }

  lemma DeviceSteps(c: Client, ext: multiset<Id>, op: Op) returns (ext': multiset<Id>)
    requires Good(c, ext) && Allowed(c, op) && (op.CreateDevice? || op.ResetTo?)
    ensures Good(Step(c, op), ext')
  {
    hide WInv, NewDevice, ResetDevice, Full;
    if op.CreateDevice? {
      ext' := NewDeviceKeeps(c.w, c.app, ext, op.m, op.pres);
    } else {
      ext' := ResetKeeps(c.w, c.app, ext, op.d, op.pres);
    }
  }

  /** The counter behind a live object is live. */
  lemma TargetIsLive(c: Client, ext: multiset<Id>, i: Id)
    requires Good(c, ext) && Alive(c.w.g, i)
    ensures Target(c.w.g, i) in c.w.g.nodes
  {
    assert i in c.w.g.owner ==> OwnerOk(c.w.g, i);
  }

  lemma SlotSteps(c: Client, ext: multiset<Id>, op: Op)
    requires Good(c, ext) && Allowed(c, op) && (op.BindSlot? || op.CopySlot? || op.ClearSlot?)
    ensures Good(Step(c, op), ext)
  {
    hide WInv, Bindable, MoveAssign, CopyAssign, Reset;
    match op
    case BindSlot(o, k, t) =>
      TargetIsLive(c, ext, t);
      BindKeepsWInv(c.w, c.app, ext, {}, o, k, Target(c.w.g, t));
    case CopySlot(o, k, o2, k2) => CopyKeepsWInv(c.w, c.app, ext, o, k, o2, k2);
    case ClearSlot(o, k) => UnbindKeepsWInv(c.w, c.app, ext, o, k);
  }

  /** Every operation keeps the invariant. */
  lemma StepKeeps(c: Client, ext: multiset<Id>, op: Op) returns (ext': multiset<Id>)
    requires Good(c, ext) && Allowed(c, op)
    ensures Good(Step(c, op), ext')
  {
    hide WInv, Bindable, Release, ResetDevice, NewDevice, AddRef, Create, CreateMember, Revivable;
    match op
    case CreateModule => ext' := CreateStep(c, ext, None, 0, 0);
    case CreateObject(parent, slots, children) => ext' := CreateStep(c, ext, Some(Target(c.w.g, parent)), slots, children);
    case CreateChild(container, at) =>
      var v := CreateMemberKeepsWInv(c.w, c.app, ext, {}, container, at);
      ext' := ext + multiset{container};
    case TakeRef(i) =>
      AddRefKeepsWInv(c.w, c.app, ext, {}, Target(c.w.g, i));
      ext' := ext + multiset{Target(c.w.g, i)};
    case DropRef(i) => ext' := ReleaseStep(c, ext, i);
    case CreateDevice(_, _) => ext' := DeviceSteps(c, ext, op);
    case ResetTo(_, _) => ext' := DeviceSteps(c, ext, op);
    case _ =>
      SlotSteps(c, ext, op);
      ext' := ext;
  }

  lemma {:induction false} RunKeeps(c: Client, ext: multiset<Id>, ops: seq<Op>) returns (ext': multiset<Id>)
    requires Good(c, ext) && Run(c, ops)
    ensures Good(After(c, ops), ext')
    decreases ops
  {
    if ops == [] {
      ext' := ext;
    } else {
      var ext1 := StepKeeps(c, ext, ops[0]);
      ext' := RunKeeps(Step(c, ops[0]), ext1, ops[1..]);
    }
  }

  lemma StartIsGood()
    ensures Good(START, multiset{})
  {
    var w := START.w;
    assert Inv(w.g, multiset{}, multiset{}) by {
      assert forall x: Id :: !Alive(w.g, x);
    }
    var none: multiset<Id> := multiset{};
    forall x: Id
      ensures none[x] == none[x] + Imp(w, x)
    {
      assert x !in w.g.nodes;
    }
  }

  // ---------------------------------------------------------------------------------------------
  // What that means
  // ---------------------------------------------------------------------------------------------

  /** After every run, each object's interface count is the application's references plus the device's own
      plus its children whose interface count is nonzero; its object count adds one per D3DAutoPtr; a parent
      is referenced exactly while the interface count is nonzero. */
  lemma CountsAfterEveryRun(ops: seq<Op>, i: Id)
    requires Run(START, ops) && i in After(START, ops).w.g.nodes
    ensures var c := After(START, ops);
            var n := c.w.g.nodes[i];
            && n.iface == c.app[i] + Imp(c.w, i) + |Kids(c.w.g.nodes, i)|
            && n.obj == n.iface + |Holders(c.w.g.nodes, i)| && n.obj > 0
            && (n.parent.Some? ==> (n.iface > 0 <==> i in Kids(c.w.g.nodes, n.parent.value)))
            && (n.parent.Some? && n.iface > 0 ==> n.parent.value in c.w.g.nodes)
            && (forall k | 0 <= k < |n.slots| :: n.slots[k].Some? ==> n.slots[k].value in c.w.g.nodes)
  {
    StartIsGood();
    var ext := RunKeeps(START, multiset{}, ops);
    var c := After(START, ops);
    assert CountsOk(c.w.g.nodes, ext, multiset{}, i);
    assert LinksOk(c.w.g.nodes, i);
    assert ext[i] == c.app[i] + Imp(c.w, i);
  }

  /** After every run, each id ever handed out is either alive or was destroyed exactly once, members live and
      die with their container, what the application references is alive, and no device was torn down twice. */
  lemma DestroyedExactlyOnce(ops: seq<Op>)
    requires Run(START, ops)
    ensures var c := After(START, ops);
            && Distinct(c.w.g.log) && Distinct(c.w.teardowns)
            && (forall x: Id :: x < c.w.g.next <==> Alive(c.w.g, x) || x in c.w.g.log)
            && (forall x: Id :: Alive(c.w.g, x) ==> x !in c.w.g.log)
            && (forall m | m in c.w.g.owner :: c.w.g.owner[m] in c.w.g.nodes)
            && (forall x | x in c.app :: x in c.w.g.nodes)
  {
    StartIsGood();
    var ext := RunKeeps(START, multiset{}, ops);
    var c := After(START, ops);
    forall m | m in c.w.g.owner
      ensures c.w.g.owner[m] in c.w.g.nodes
    {
      assert OwnerOk(c.w.g, m);
    }
    forall x | x in c.app
      ensures x in c.w.g.nodes
    {
      assert ext[x] == c.app[x] + Imp(c.w, x);
    }
  }
}
