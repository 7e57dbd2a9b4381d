/**
 Runs that show the exceptional cases: each is reached from the empty client by allowed calls.

 A held implicit object makes the visible count grow in Reset, and makes a device survive its own teardown. An
 object bound across devices can outlive its parent and then cannot be referenced again.
 */
module ClientExamples {
  import opened Options
  import opened ObjectGraph
  import opened GraphCounting
  import opened GraphDrops
  import opened ObjectOps
  import opened DeviceLifecycle
  import opened DeviceTeardown
  import opened DeviceWorld
  import opened DeviceRelease
  import opened DeviceSlots
  import opened DeviceDeath
  import opened DeviceReset
  import opened ClientOps
  import opened ClientRuns
  import opened ClientHomes

  // ---------------------------------------------------------------------------------------------
  // A new device, spelled out
  // ---------------------------------------------------------------------------------------------

  const PLAIN: Present := Present(1, false)

  /** The nodes after a device was created under module `m`: the device, its swapchain and its render target.
      Member `d + 2` is the back buffer. */
  function WithDevice(nodes: map<Id, Node>, m: Id, d: Id): map<Id, Node>
    requires m in nodes
  {
    nodes[m := nodes[m].(iface := nodes[m].iface + 1, obj := nodes[m].obj + 1)]
         [d := Node(Some(m), 3, 3, Nones(STATE_SLOTS)[RENDER_TARGET_0 := Some(d + 3)], Nones(0))]
         [d + 1 := Node(Some(d), 2, 2, Nones(0), [Some(d + 2)])]
         [d + 3 := Node(Some(d), 1, 2, Nones(0), Nones(0))]
  }

  function OneMoreDevice(w: World, m: Id): World
    requires m in w.g.nodes
  {
    var d := w.g.next;
    World(Graph(WithDevice(w.g.nodes, m, d), w.g.owner[d + 2 := d + 1], w.g.log, d + 4),
          w.devices[d := Device(2, false, Some(d + 3), None, Some(d + 1), PLAIN)], w.teardowns)
  }

  lemma LiveCreate(g: Graph, p: Id, slots: nat, children: nat)
    requires p in g.nodes && g.nodes[p].iface > 0 && p < g.next && g.next !in g.nodes
    ensures CanCreate(g, p)
    ensures Create(g, Some(p), slots, children) == AddNode(IncBoth(g, p), Node(Some(p), 1, 1, Nones(slots), Nones(children)))
  {
    CreateIs(g, Some(p), slots, children);
  }

  lemma FirstMember(g: Graph, c: Id)
    requires c in g.nodes && g.nodes[c].iface > 0 && |g.nodes[c].children| == 1 && g.nodes[c].children[0].None?
    ensures CreateMembers(g, c, 0, 1) == AttachChild(IncBoth(g, c), c, 0)
  {
    assert AddRef(g, c) == IncBoth(g, c);
    assert CreateMembers(CreateMember(g, c, 0), c, 1, 1) == CreateMember(g, c, 0);
  }

  lemma FirstBinding(w: World, o: Id, k: nat, t: Id)
    requires HasSlot(w.g, o, k) && w.g.nodes[o].slots[k].None? && t in w.g.nodes && t != o
    ensures Bind(w, o, k, t) == w.(g := SetSlot(IncObject(w.g, t), o, k, Some(t)))
  {
    var g := IncObject(w.g, t);
    SomesOne(None);
    assert SetSlot(g, o, k, None) == g by {
      assert g.nodes[o].slots[k := None] == g.nodes[o].slots;
      assert g.nodes[o := g.nodes[o]] == g.nodes;
    }
    assert DropAll(g, []) == g;
  }

  lemma NewSurface(g: Graph, d: Id)
    requires d in g.nodes && g.nodes[d].iface > 0 && d < g.next && g.next !in g.nodes
    ensures CanCreate(g, d)
    ensures NewImplicit(g, d, 0) == AddNode(IncBoth(g, d), Node(Some(d), 1, 1, Nones(0), Nones(0)))
  {
    LiveCreate(g, d, 0, 0);
  }

  lemma NewSwapchain(g: Graph, d: Id)
    requires d in g.nodes && g.nodes[d].iface > 0 && d < g.next && g.next !in g.nodes
    ensures CanCreate(g, d)
    ensures NewImplicit(g, d, 1) == Graph(
              IncBoth(g, d).nodes[g.next := Node(Some(d), 2, 2, Nones(0), [Some(g.next + 1)])],
              g.owner[g.next + 1 := g.next], g.log, g.next + 2)
  {
    var x := g.next;
    LiveCreate(g, d, 0, 1);
    var h := Create(g, Some(d), 0, 1);
    FirstMember(h, x);
    assert Nones(1)[0 := Some(x + 1)] == [Some(x + 1)];
    assert AttachChild(IncBoth(h, x), x, 0).nodes
        == IncBoth(g, d).nodes[x := Node(Some(d), 2, 2, Nones(0), [Some(x + 1)])];
  }

  /** The device object and its swapchain. */
  function WithSwapchainOnly(w: World, m: Id): World
    requires m in w.g.nodes
  {
    var d := w.g.next;
    var n := w.g.nodes[m := w.g.nodes[m].(iface := w.g.nodes[m].iface + 1, obj := w.g.nodes[m].obj + 1)];
    World(Graph(n[d := Node(Some(m), 2, 2, Nones(STATE_SLOTS), Nones(0))]
                 [d + 1 := Node(Some(d), 2, 2, Nones(0), [Some(d + 2)])],
                w.g.owner[d + 2 := d + 1], w.g.log, d + 3),
          w.devices[d := Device(1, false, None, None, Some(d + 1), PLAIN)], w.teardowns)
  }

  function BareNew(w: World, m: Id): World
    requires CanCreate(w.g, m)
  {
    w.(g := Create(w.g, Some(m), STATE_SLOTS, 0), devices := w.devices[w.g.next := Device(0, false, None, None, None, PLAIN)])
  }

  lemma SwapchainFirst(w: World, m: Id)
    requires m in w.g.nodes && w.g.nodes[m].iface > 0 && m < w.g.next && Unused(w.g)
    ensures CanCreate(w.g, m)
    ensures InitSwapchain(BareNew(w, m), w.g.next, PLAIN) == WithSwapchainOnly(w, m)
  {
    hide Create, NewImplicit;
    var d := w.g.next;
    LiveCreate(w.g, m, STATE_SLOTS, 0);
    var u := BareNew(w, m);
    NewSwapchain(u.g, d);
    assert InitSwapchain(u, d, PLAIN).devices == WithSwapchainOnly(w, m).devices;
    assert InitSwapchain(u, d, PLAIN).g.nodes == WithSwapchainOnly(w, m).g.nodes;
  }

  lemma TargetSecond(w: World, m: Id)
    requires m in w.g.nodes && m < w.g.next && Unused(w.g)
    ensures var w1, d := WithSwapchainOnly(w, m), w.g.next;
            InitSurface(w1, d, WithRenderTarget(w1.devices[d], d + 3), RENDER_TARGET_0) == OneMoreDevice(w, m)
  {
    hide Create, NewImplicit, Bind;
    var w1, d := WithSwapchainOnly(w, m), w.g.next;
    NewSurface(w1.g, d);
    var dev := WithRenderTarget(w1.devices[d], d + 3);
    var w2 := w1.(g := NewImplicit(w1.g, d, 0), devices := w1.devices[d := dev]);
    FirstBinding(w2, d, RENDER_TARGET_0, d + 3);
    var v := Bind(w2, d, RENDER_TARGET_0, d + 3);
    assert v.devices == OneMoreDevice(w, m).devices;
    assert v.g.nodes == OneMoreDevice(w, m).g.nodes;
  }

  lemma NewDeviceIs(w: World, m: Id)
    requires m in w.g.nodes && w.g.nodes[m].iface > 0 && m < w.g.next && Unused(w.g)
    ensures CanCreate(w.g, m)
    ensures NewDevice(w, m, PLAIN) == OneMoreDevice(w, m)
  {
    hide Create, InitSwapchain, InitSurface, OneMoreDevice;
    SwapchainFirst(w, m);
    TargetSecond(w, m);
  }

  predicate Unused(g: Graph) {
    forall j | j in g.nodes :: j < g.next
  }

  lemma {:induction false} OneStepMore(c: Client, ops: seq<Op>, op: Op)
    requires Run(c, ops) && Allowed(After(c, ops), op)
    ensures Run(c, ops + [op]) && After(c, ops + [op]) == Step(After(c, ops), op)
    decreases ops
  {
    hide Allowed, Step;
    if ops == [] {
      assert ops + [op] == [op];
      assert [op][1..] == [];
      assert After(c, [op]) == After(Step(c, op), []);
    } else {
      assert (ops + [op])[1..] == ops[1..] + [op];
      OneStepMore(Step(c, ops[0]), ops[1..], op);
    }
  }

  // ---------------------------------------------------------------------------------------------
  // One device
  // ---------------------------------------------------------------------------------------------

  const MODULE: map<Id, Node> := map[0 := Node(None, 1, 1, Nones(0), Nones(0))]

  /** The client after the creation of a module and a device: module 0, device 1, swapchain 2 with back buffer 3,
      render target 4. */
  const ONE_DEVICE: Client :=
    Client(World(Graph(WithDevice(MODULE, 0, 1), map[3 := 2], [], 5),
                 map[1 := Device(2, false, Some(4), None, Some(2), PLAIN)], []),
           multiset{0, 1})

  /** The same with one more reference on the render target. */
  const TARGET_HELD: Client := Client(ONE_DEVICE.w.(g := IncBoth(ONE_DEVICE.w.g, 4)), multiset{0, 1, 4})

  const DEVICE_RUN: seq<Op> := [CreateModule, CreateDevice(0, PLAIN)]
  const TARGET_RUN: seq<Op> := DEVICE_RUN + [TakeRef(4)]

  lemma FirstModule()
    ensures Run(START, [CreateModule])
    ensures After(START, [CreateModule]) == Client(World(Graph(MODULE, map[], [], 1), map[], []), multiset{0})
  {
    OneStepMore(START, [], CreateModule);
    assert [] + [CreateModule] == [CreateModule];
    CreateIs(START.w.g, None, 0, 0);
    assert Step(START, CreateModule).w.g.nodes == MODULE;
  }

  lemma FirstDevice()
    ensures Run(START, DEVICE_RUN) && After(START, DEVICE_RUN) == ONE_DEVICE
  {
    FirstModule();
    var c := After(START, [CreateModule]);
    OneStepMore(START, [CreateModule], CreateDevice(0, PLAIN));
    assert [CreateModule] + [CreateDevice(0, PLAIN)] == DEVICE_RUN;
    NewDeviceIs(c.w, 0);
  }

  /** The application takes a reference on the render target. */
  lemma TakeTarget() returns (ext: multiset<Id>)
    ensures Run(START, TARGET_RUN) && After(START, TARGET_RUN) == TARGET_HELD && Good(TARGET_HELD, ext)
  {
    hide Run, After, Good;
    FirstDevice();
    TakeTargetStep();
    OneStepMore(START, DEVICE_RUN, TakeRef(4));
    StartIsGood();
    ext := RunKeeps(START, multiset{}, TARGET_RUN);
  }

  lemma TakeTargetStep()
    ensures Allowed(ONE_DEVICE, TakeRef(4)) && Step(ONE_DEVICE, TakeRef(4)) == TARGET_HELD
  {
    assert Target(ONE_DEVICE.w.g, 4) == 4;
    assert multiset{0, 1} + multiset{4} == multiset{0, 1, 4};
  }

  lemma TargetIsHeld()
    ensures HeldImplicits(TARGET_HELD.w, TARGET_HELD.app, 1) == {4}
    ensures HeldImplicits(TARGET_HELD.w, TARGET_HELD.app - multiset{1}, 1) == {4}
  {
    var w := TARGET_HELD.w;
    assert Implicits(w.devices[1]) == {4, 2};
    assert Kids(w.g.nodes, 2) == {};
  }

  /** Reset with the render target held: the count the application sees goes from 1 to 2. */
  lemma ResetGrows()
    ensures Run(START, TARGET_RUN + [ResetTo(1, PLAIN)])
    ensures var c := After(START, TARGET_RUN);
            1 in c.w.devices && 1 in c.w.g.nodes && Visible(c.w, 1) == 1
    ensures var c := After(START, TARGET_RUN + [ResetTo(1, PLAIN)]);
            1 in c.w.devices && 1 in c.w.g.nodes && Visible(c.w, 1) == 2
  {
    hide Run, After, WInv, ResetDevice, HeldImplicits;
    var ext := TakeTarget();
    TargetIsHeld();
    OneStepMore(START, TARGET_RUN, ResetTo(1, PLAIN));
    var ext' := ResetKeeps(TARGET_HELD.w, TARGET_HELD.app, ext, 1, PLAIN);
  }

  /** The last visible reference released with the render target held: the device survives its teardown. */
  lemma SurvivesTeardown()
    ensures Run(START, TARGET_RUN + [DropRef(1)])
    ensures var c := After(START, TARGET_RUN + [DropRef(1)]); c.w.teardowns == [1] && 1 in c.w.g.nodes
  {
    hide Run, After, WInv, Release, HeldImplicits, GivenBack;
    var ext := TakeTarget();
    TargetIsHeld();
    LastVisibleReference();
    OneStepMore(START, TARGET_RUN, DropRef(1));
    TeardownOrder(TARGET_HELD.w, TARGET_HELD.app, ext, 1);
  }

  lemma LastVisibleReference()
    ensures Target(TARGET_HELD.w.g, 1) == 1 && TornBy(TARGET_HELD.w, 1) == Some(1) && TARGET_HELD.w.teardowns == []
    ensures 1 in TARGET_HELD.app
  {
  }

  // ---------------------------------------------------------------------------------------------
  // Bindings across devices
  // ---------------------------------------------------------------------------------------------

  /** Object `t` of device `a` is bound in an object `o` that the application holds and that is not of that
      device. The application has one reference each on `a` and `t`, and nothing else of `a`. */
  ghost predicate Abroad(c: Client, a: Id, t: Id, o: Id, k: nat) {
    var w, g := c.w, c.w.g;
    && a in w.devices && a in g.nodes && !w.devices[a].destroying && c.app[a] == 1
    && HeldImplicits(w, c.app, a) == {} && Kids(g.nodes, a) == Implicits(w.devices[a]) + {t}
    && t in g.nodes && t !in Implicits(w.devices[a]) && t !in w.devices && g.nodes[t].parent == Some(a)
    && c.app[t] == 1 && g.nodes[t].iface == 1
    && HasSlot(g, o, k) && g.nodes[o].slots[k] == Some(t) && o in c.app && o != t && o !in w.devices
  }

  lemma LiveIsStandalone(c: Client, ext: multiset<Id>, i: Id)
    requires Good(c, ext) && i in c.w.g.nodes
    ensures Target(c.w.g, i) == i
  {
    assert i in c.w.g.owner ==> OwnerOk(c.w.g, i);
  }

  /** The first of the two releases only lowers counts: `t` stays, bound as it is. */
  function WithoutOwnReference(w: World, a: Id, t: Id): World
    requires a in w.g.nodes && t in w.g.nodes && w.g.nodes[a].iface > 0 && w.g.nodes[a].obj > 0 && w.g.nodes[t].obj > 0
  {
    w.(g := w.g.(nodes := w.g.nodes[t := w.g.nodes[t].(iface := 0, obj := w.g.nodes[t].obj - 1)]
                                   [a := w.g.nodes[a].(iface := w.g.nodes[a].iface - 1, obj := w.g.nodes[a].obj - 1)]))
  }

  lemma AbroadCounts(c: Client, ext: multiset<Id>, a: Id, t: Id, o: Id, k: nat)
    requires Good(c, ext) && Abroad(c, a, t, o, k)
    ensures c.w.g.nodes[t].obj > 1 && a < t
    ensures c.w.g.nodes[a].iface == c.w.devices[a].implicitRefCnt + 2 <= c.w.g.nodes[a].obj
    ensures c.w.devices[a].implicitRefCnt >= 2
  {
    var g := c.w.g;
    assert CountsOk(g.nodes, ext, multiset{}, t);
    assert (o, k) in Holders(g.nodes, t);
    ParentIsOlder(g, ext, t);
    FullDeviceCounts(c.w, c.app, ext, a);
    CountsBound(g, ext, a);
  }

  lemma FirstRelease(c: Client, ext: multiset<Id>, a: Id, t: Id, o: Id, k: nat)
    requires Good(c, ext) && Abroad(c, a, t, o, k)
    ensures c.w.g.nodes[t].obj > 1 && c.w.g.nodes[a].iface > 1 && c.w.g.nodes[a].obj > 1
    ensures Release(c.w, t) == WithoutOwnReference(c.w, a, t)
  {
    hide WInv, HeldImplicits, Implicits, TeardownsOk;
    AbroadCounts(c, ext, a, t, o, k);
    var w := c.w;
    var v := w.(g := DecInterface(w.g, t));
    assert v.g == w.g.(nodes := w.g.nodes[t := w.g.nodes[t].(iface := 0, obj := w.g.nodes[t].obj - 1)]);
    QuietRelease(v, a);
    assert BaseRelease(w, t) == Release(v, a);
  }

  /** Whoever holds an implicit object still does, and nobody new. */
  lemma StillUnheld(c: Client, ext: multiset<Id>, a: Id, t: Id, o: Id, k: nat)
    requires Good(c, ext) && Abroad(c, a, t, o, k) && c.w.g.nodes[a].iface > 1
    requires c.w.g.nodes[t].obj > 1 && c.w.g.nodes[a].obj > 1
    ensures HeldImplicits(WithoutOwnReference(c.w, a, t), c.app - multiset{t} - multiset{a}, a) == {}
  {
    var v := WithoutOwnReference(c.w, a, t);
    DeviceFacts(c.w, c.app, ext, a);
    forall x | x in Implicits(c.w.devices[a])
      ensures !Held(v, c.app - multiset{t} - multiset{a}, x)
    {
      assert x in HeldImplicits(c.w, c.app, a) <==> Held(c.w, c.app, x);
      ParentIsOlder(c.w.g, ext, a);
      ParentIsOlder(c.w.g, ext, x);
      assert Kids(v.g.nodes, x) == Kids(c.w.g.nodes, x);
    }
  }

  /** The teardown of `a` leaves the interface count of `t` at zero. */
  lemma StillAtZero(w: World, app: multiset<Id>, ext: multiset<Id>, a: Id, t: Id)
    requires WInv(w, app, ext, {}) && a in app && a in w.devices && TornBy(w, a) == Some(a) && a in w.g.nodes
    requires t in w.g.nodes && t !in Implicits(w.devices[a]) && t > a && w.g.nodes[t].iface == 0
    requires t in Release(w, a).g.nodes
    ensures Release(w, a).g.nodes[t].iface == 0 && Release(w, a).g.nodes[t].parent == w.g.nodes[t].parent
  {
    hide WInv, Release, Inv, Frame, ReleaseInternalObjects, Ledger, DecInterface, Implicits, Spent, LastGiven, SameBut;
    var ext1 := UpToTheDevice(w, app, ext, a);
    var w1, ext2 := DecKeepsWInv(w, app, ext, a);
    assert w1 == GivenBack(w, a);
    AtTheDevice(w, w1, a, app - multiset{a}, ext1);
    var left := DismantleKeeps(w1, BeginTeardown(w1, a), a, app - multiset{a}, ext1);
    DeviceOlder(w1, app - multiset{a}, ext1, a);
    CountKept(w1.g, Release(w, a).g, Implicits(w.devices[a]) + {a, w1.g.nodes[a].parent.value}, t);
    CountKept(w.g, w1.g, {a}, t);
  }

  lemma AtTheDevice(w: World, w1: World, a: Id, app1: multiset<Id>, ext1: multiset<Id>)
    requires LastGiven(w, w1, a, app1, ext1)
    ensures WInv(w1, app1, ext1, {}) && w1.devices == w.devices && a in w1.g.nodes && w1.g.nodes[a].iface > 0
    ensures !w.devices[a].destroying
  {
  }

  lemma DeviceOlder(w: World, app: multiset<Id>, ext: multiset<Id>, a: Id)
    requires WInv(w, app, ext, {}) && a in w.devices && a in w.g.nodes
    ensures UnderModule(w, a) && w.g.nodes[a].parent.value < a
  {
    DeviceFacts(w, app, ext, a);
    ParentIsOlder(w.g, ext, a);
  }

  lemma CountKept(g: Graph, h: Graph, s: set<Id>, t: Id)
    requires Frame(g, h, s) && t in h.nodes && t !in s
    ensures t in g.nodes && h.nodes[t].iface == g.nodes[t].iface && h.nodes[t].parent == g.nodes[t].parent
  {
    assert SameBut(g.nodes[t], h.nodes[t]);
  }

  /** Slots of objects that are not devices are left alone, and what they show is alive. */
  lemma StillBound(w: World, app: multiset<Id>, ext: multiset<Id>, v: World, app': multiset<Id>, left: multiset<Id>, o: Id, k: nat)
    requires SlotsKept(w.g, v.g, w.devices.Keys) && WInv(v, app', left, {}) && o in app' && o !in w.devices
    requires HasSlot(w.g, o, k) && w.g.nodes[o].slots[k].Some?
    ensures HasSlot(v.g, o, k) && v.g.nodes[o].slots[k] == w.g.nodes[o].slots[k] && v.g.nodes[o].iface > 0
    ensures w.g.nodes[o].slots[k].value in v.g.nodes
  {
    assert left[o] == app'[o] + Imp(v, o);
    CountsBoundOf(v.g, left, o);
    assert LinksOk(v.g.nodes, o);
  }

  /** The second release tears the device down, and leaves the object where it is bound. */
  lemma SecondRelease(c: Client, ext: multiset<Id>, a: Id, t: Id, o: Id, k: nat) returns (ext2: multiset<Id>)
    requires Good(c, ext) && a in c.app && a in c.w.devices && Target(c.w.g, a) == a && TornBy(c.w, a) == Some(a)
    requires HeldImplicits(c.w, c.app - multiset{a}, a) == {}
    requires t in c.w.g.nodes && t > a && t !in Implicits(c.w.devices[a])
    requires c.w.g.nodes[t].iface == 0 && c.w.g.nodes[t].parent == Some(a)
    requires HasSlot(c.w.g, o, k) && c.w.g.nodes[o].slots[k] == Some(t) && o in c.app - multiset{a} && o !in c.w.devices
    ensures var d := Step(c, DropRef(a)); AtHand(d.w.g, t) && !Revivable(d.w.g, t)
  {
    hide WInv, Release, HeldImplicits, Implicits, TeardownsOk, Held, SlotsKept, GivenBack, TornBy;
    var d := Step(c, DropRef(a));
    ext2 := StepKeeps(c, ext, DropRef(a));
    TornByIsDevice(c.w, a);
    TeardownOrder(c.w, c.app, ext, a);
    assert a !in d.w.g.nodes;
    ReleaseSlots(c.w, a);
    StillBound(c.w, c.app, ext, d.w, d.app, ext2, o, k);
    StillAtZero(c.w, c.app, ext, a, t);
  }

  /** A binding across devices goes wrong: once the application has given up the object and its device, the slot
      shows an object whose parent is gone. */
  lemma AbroadFails(c: Client, ext: multiset<Id>, a: Id, t: Id, o: Id, k: nat)
    requires Good(c, ext) && Abroad(c, a, t, o, k)
    ensures Allowed(c, DropRef(t)) && Allowed(Step(c, DropRef(t)), DropRef(a))
    ensures var d := Step(Step(c, DropRef(t)), DropRef(a));
            AtHand(d.w.g, t) && !Revivable(d.w.g, t)
  {
    hide WInv, Release, HeldImplicits, Implicits, TeardownsOk, Held, AtHand, Revivable;
    AbroadCounts(c, ext, a, t, o, k);
    LiveIsStandalone(c, ext, t);
    LiveIsStandalone(c, ext, a);
    FirstRelease(c, ext, a, t, o, k);
    StillUnheld(c, ext, a, t, o, k);
    var c1 := Step(c, DropRef(t));
    var ext1 := StepKeeps(c, ext, DropRef(t));
    LiveIsStandalone(c1, ext1, a);
    assert c1.w == WithoutOwnReference(c.w, a, t);
    var ext2 := SecondRelease(c1, ext1, a, t, o, k);
  }

  /** A second device 5 with swapchain 6 and render target 8, object 9 of the first device, and object 10 of the
      second, which has one slot. */
  const TWO_DEVICES: Client := Client(OneMoreDevice(ONE_DEVICE.w, 0), multiset{0, 1, 5})
  const WITH_9: Client :=
    Client(TWO_DEVICES.w.(g := AddNode(IncBoth(TWO_DEVICES.w.g, 1), Node(Some(1), 1, 1, Nones(0), Nones(0)))),
           multiset{0, 1, 5, 9})
  const WITH_10: Client :=
    Client(WITH_9.w.(g := AddNode(IncBoth(WITH_9.w.g, 5), Node(Some(5), 1, 1, Nones(1), Nones(0)))),
           multiset{0, 1, 5, 9, 10})
  const BOUND: Client := WITH_10.(w := WITH_10.w.(g := SetSlot(IncObject(WITH_10.w.g, 9), 10, 0, Some(9))))

  const TWO_DEVICE_RUN: seq<Op> := DEVICE_RUN + [CreateDevice(0, PLAIN)]
  const OBJECT_RUN: seq<Op> := TWO_DEVICE_RUN + [CreateObject(1, 0, 0)] + [CreateObject(5, 1, 0)]
  const BOUND_RUN: seq<Op> := OBJECT_RUN + [BindSlot(10, 0, 9)]
  const ABROAD_RUN: seq<Op> := BOUND_RUN + [DropRef(9)] + [DropRef(1)]

  lemma SecondDevice()
    ensures Run(START, TWO_DEVICE_RUN) && After(START, TWO_DEVICE_RUN) == TWO_DEVICES
  {
    hide Run, After, NewDevice;
    FirstDevice();
    NewDeviceIs(ONE_DEVICE.w, 0);
    assert multiset{0, 1} + multiset{5} == multiset{0, 1, 5};
    OneStepMore(START, DEVICE_RUN, CreateDevice(0, PLAIN));
  }

  lemma ObjectStep(c: Client, p: Id, slots: nat)
    requires p in c.w.g.nodes && c.w.g.nodes[p].iface > 0 && p < c.w.g.next && c.w.g.next !in c.w.g.nodes && p !in c.w.g.owner
    ensures Allowed(c, CreateObject(p, slots, 0))
    ensures Step(c, CreateObject(p, slots, 0))
         == Client(c.w.(g := AddNode(IncBoth(c.w.g, p), Node(Some(p), 1, 1, Nones(slots), Nones(0)))),
                   c.app + multiset{c.w.g.next})
  {
    LiveCreate(c.w.g, p, slots, 0);
  }

  lemma TwoObjects()
    ensures Run(START, OBJECT_RUN) && After(START, OBJECT_RUN) == WITH_10
  {
    hide Run, After, Step, Allowed;
    SecondDevice();
    ObjectStep(TWO_DEVICES, 1, 0);
    OneStepMore(START, TWO_DEVICE_RUN, CreateObject(1, 0, 0));
    assert multiset{0, 1, 5} + multiset{9} == multiset{0, 1, 5, 9};
    ObjectStep(WITH_9, 5, 1);
    OneStepMore(START, TWO_DEVICE_RUN + [CreateObject(1, 0, 0)], CreateObject(5, 1, 0));
    assert multiset{0, 1, 5, 9} + multiset{10} == multiset{0, 1, 5, 9, 10};
  }

  lemma BindStep()
    ensures Allowed(WITH_10, BindSlot(10, 0, 9)) && Step(WITH_10, BindSlot(10, 0, 9)) == BOUND
  {
    FirstBinding(WITH_10.w, 10, 0, 9);
    assert Target(WITH_10.w.g, 9) == 9;
    assert 9 !in Implicits(WITH_10.w.devices[1]) && 9 !in Implicits(WITH_10.w.devices[5]);
  }

  lemma BoundNodes()
    ensures var nodes := BOUND.w.g.nodes;
            && nodes.Keys == {0, 1, 2, 4, 5, 6, 8, 9, 10}
            && nodes[0].parent == None && nodes[1].parent == nodes[5].parent == Some(0)
            && nodes[2].parent == nodes[4].parent == nodes[9].parent == Some(1)
            && nodes[6].parent == nodes[8].parent == nodes[10].parent == Some(5)
            && nodes[2].iface == 2 && nodes[4].iface == nodes[9].iface == 1
            && nodes[10].slots == Nones(1)[0 := Some(9)]
  {
    hide Nones;
  }

  lemma BoundIsAbroad()
    ensures Abroad(BOUND, 1, 9, 10, 0)
  {
    BoundNodes();
    hide WithDevice, AddNode, IncBoth, IncObject, SetSlot, OneMoreDevice;
    BoundDevice();
    var w, nodes := BOUND.w, BOUND.w.g.nodes;
    assert Kids(nodes, 2) == {} && Kids(nodes, 4) == {};
    assert Kids(nodes, 1) == {2, 4, 9};
    assert BOUND.app == multiset{0, 1, 5, 9, 10};
  }

  lemma BoundDevice()
    ensures BOUND.w.devices.Keys == {1, 5} && BOUND.w.devices[1] == Device(2, false, Some(4), None, Some(2), PLAIN)
    ensures Implicits(BOUND.w.devices[1]) == {4, 2}
  {
  }

  /** The run: an object of the first device is bound in one of the second; then it and its device are released.
      Each call is allowed, and the slot now shows an object that cannot be referenced any more. */
  lemma AbroadRun()
    ensures Run(START, ABROAD_RUN)
    ensures var g := After(START, ABROAD_RUN).w.g; AtHand(g, 9) && !Revivable(g, 9)
  {
    hide Run, After, Step, Allowed, Good, Abroad, AtHand;
    TwoObjects();
    BindStep();
    OneStepMore(START, OBJECT_RUN, BindSlot(10, 0, 9));
    StartIsGood();
    var ext := RunKeeps(START, multiset{}, BOUND_RUN);
    BoundIsAbroad();
    AbroadFails(BOUND, ext, 1, 9, 10, 0);
    OneStepMore(START, BOUND_RUN, DropRef(9));
    OneStepMore(START, BOUND_RUN + [DropRef(9)], DropRef(1));
  }
}
