/** What a teardown destroys, and in which order. */
module DeviceDeath {
  import opened Options
  import opened ObjectGraph
  import opened GraphCounting
  import opened GraphDrops
  import opened ObjectOps
  import opened DeviceLifecycle
  import opened DeviceTeardown
  import opened DeviceWorld
  import opened DeviceRelease

  /** Whether anything besides its device keeps a reference on implicit object `x`: the application, or a
      child that the application created from it. */
  ghost predicate Held(w: World, app: multiset<Id>, x: Id) {
    app[x] > 0 || Kids(w.g.nodes, x) != {}
  }

  ghost function HeldImplicits(w: World, app: multiset<Id>, d: Id): set<Id>
    requires d in w.devices
  {
    set x | x in Implicits(w.devices[d]) && Held(w, app, x)
  }

  /** The children of an implicit object do not change during the teardown of its device. */
  lemma KidsOfImplicit(w: World, v: World, app: multiset<Id>, ext: multiset<Id>, d: Id, x: Id)
    requires WInv(w, app, ext, {}) && d in w.devices && d in w.g.nodes
    requires x in Implicits(w.devices[d])
    requires Frame(w.g, v.g, Implicits(w.devices[d]) + {d})
    ensures Kids(v.g.nodes, x) == Kids(w.g.nodes, x)
  {
    var s := Implicits(w.devices[d]) + {d};
    assert DeviceOk(w, d, {});
    assert ImplicitOk(w, d, x);
    ParentIsOlder(w.g, ext, x);
    ParentIsOlder(w.g, ext, d);
    FrameKids(w.g, v.g, s, x);
    forall y | y in s
      ensures y !in Kids(w.g.nodes, x) && y !in Kids(v.g.nodes, x)
    {
      assert y != d ==> ImplicitOk(w, d, y);
      assert y in w.g.nodes && w.g.nodes[y].parent != Some(x);
      assert y in v.g.nodes ==> SameBut(w.g.nodes[y], v.g.nodes[y]);
    }
  }

  /** Nothing binds an implicit object once the device's state is empty. */
  lemma UnboundImplicit(w: World, v: World, d: Id, x: Id, s: set<Id>)
    requires ImplicitOk(w, d, x) && Frame(w.g, v.g, s)
    requires d in v.g.nodes && forall j | 0 <= j < |v.g.nodes[d].slots| :: v.g.nodes[d].slots[j].None?
    ensures Holders(v.g.nodes, x) == {}
  {
    FrameHolders(w.g, v.g, s, x);
    assert forall h | h in Holders(v.g.nodes, x) :: h in Holders(w.g.nodes, x) && h.0 == d;
  }

  /** An implicit object is gone by the time the device gives its references back, unless it is held. */
  lemma ImplicitSurvives(w: World, v: World, app: multiset<Id>, ext: multiset<Id>, left: multiset<Id>, d: Id, x: Id)
    requires WInv(w, app, ext, {}) && d in w.devices && d in w.g.nodes && x in Implicits(w.devices[d])
    requires Inv(v.g, left, multiset{}) && left[x] == app[x]
    requires Frame(w.g, v.g, Implicits(w.devices[d]) + {d})
    requires d in v.g.nodes && forall j | 0 <= j < |v.g.nodes[d].slots| :: v.g.nodes[d].slots[j].None?
    ensures Held(w, app, x) <==> x in v.g.nodes
    ensures x in v.g.nodes ==> v.g.nodes[x].iface > 0
  {
    assert DeviceOk(w, d, {});
    KidsOfImplicit(w, v, app, ext, d, x);
    UnboundImplicit(w, v, d, x, Implicits(w.devices[d]) + {d});
    if x in v.g.nodes {
      assert CountsOk(v.g.nodes, left, multiset{}, x);
    }
    if Kids(v.g.nodes, x) != {} {
      var c :| c in Kids(v.g.nodes, x);
      assert LinksOk(v.g.nodes, c);
    }
  }

  /** `w3` is the state of releaseInternalObjects right before the compensating releases. */
  ghost predicate Stripped(w: World, w3: World, d: Id, app: multiset<Id>, left: multiset<Id>) {
    && d in w.devices
    && d in w3.devices
    && d in w3.g.nodes
    && UnderModule(w3, d)
    && Inv(w3.g, left + Many(d, w.devices[d].implicitRefCnt), multiset{}) && left[d] == app[d]
    && Holders(w3.g.nodes, d) == {}
    && Kids(w3.g.nodes, d) == Kids(w.g.nodes, d) - Implicits(w.devices[d]) + HeldImplicits(w, app, d)
    && (forall x | x in Implicits(w.devices[d]) :: x in w3.g.nodes <==> Held(w, app, x))
    && (forall x | x in Implicits(w.devices[d]) && !Held(w, app, x) :: x in w3.g.log)
  }

  lemma StrippedKids(w: World, v: World, app: multiset<Id>, ext: multiset<Id>, d: Id)
    requires WInv(w, app, ext, {}) && d in w.devices && d in w.g.nodes
    requires Frame(w.g, v.g, Implicits(w.devices[d]) + {d})
    requires forall x | x in Implicits(w.devices[d]) :: x in v.g.nodes <==> Held(w, app, x)
    requires forall x | x in Implicits(w.devices[d]) && x in v.g.nodes :: v.g.nodes[x].iface > 0
    ensures Kids(v.g.nodes, d) == Kids(w.g.nodes, d) - Implicits(w.devices[d]) + HeldImplicits(w, app, d)
  {
    hide Inv, WInv, Frame, Tokens, Implicits, Held;
    var imps := Implicits(w.devices[d]);
    DeviceFacts(w, app, ext, d);
    FrameKids(w.g, v.g, imps + {d}, d);
    forall x | x in imps
      ensures x in Kids(v.g.nodes, d) <==> x in v.g.nodes
    {
      assert ImplicitOk(w, d, x);
      if x in v.g.nodes {
        SameParent(w.g, v.g, imps + {d}, x);
      }
    }
    NotOwnKid(w, app, ext, d);
    if d in v.g.nodes {
      SameParent(w.g, v.g, imps + {d}, d);
    }
    forall y
      ensures y in Kids(v.g.nodes, d) <==> y in Kids(w.g.nodes, d) - imps + HeldImplicits(w, app, d)
    {
      assert y in Kids(v.g.nodes, d) - (imps + {d}) <==> y in Kids(w.g.nodes, d) - (imps + {d});
    }
  }

  lemma SameParent(g: Graph, h: Graph, s: set<Id>, x: Id)
    requires Frame(g, h, s) && x in h.nodes
    ensures x in g.nodes && h.nodes[x].parent == g.nodes[x].parent
  {
    assert SameBut(g.nodes[x], h.nodes[x]);
  }

  lemma NotOwnKid(w: World, app: multiset<Id>, ext: multiset<Id>, d: Id)
    requires WInv(w, app, ext, {}) && d in w.g.nodes
    ensures w.g.nodes[d].parent != Some(d)
  {
    assert LinksOk(w.g.nodes, d);
  }

  lemma GoneIsLogged(g: Graph, h: Graph, ext: multiset<Id>, left: multiset<Id>, s: set<Id>, x: Id)
    requires Inv(g, ext, multiset{}) && Inv(h, left, multiset{}) && Frame(g, h, s)
    requires x in g.nodes && x !in h.nodes
    ensures x in h.log
  {
    assert Alive(g, x);
    assert !Alive(h, x) by {
      assert x in g.owner ==> OwnerOk(g, x);
    }
  }

  /** Everything up to the compensating releases, with or without the teardown flag raised. */
  lemma Strip(w: World, u: World, d: Id, app: multiset<Id>, ext: multiset<Id>) returns (w3: World, left: multiset<Id>)
    requires WInv(w, app, ext, {}) && MaybeDying(w, u, d) && d in w.g.nodes && !w.devices[d].destroying
    requires w.g.nodes[d].iface > (if u.devices[d].destroying then 0 else w.devices[d].implicitRefCnt)
    ensures w3 == BeforeCompensation(u, d)
    ensures w3.teardowns == u.teardowns && Stripped(w, w3, d, app, left)
  {
    hide BeforeCompensation, BaseReleaseN;
    IntactDevice(w, u, d, app, ext);
    w3, left := DismantleStages(u, d, ext);
    StripDetails(w, u, w3, d, app, ext, left);
  }

  lemma StripLeft(w: World, u: World, d: Id, app: multiset<Id>, ext: multiset<Id>, left: multiset<Id>, x: Id)
    requires WInv(w, app, ext, {}) && MaybeDying(w, u, d) && d in w.g.nodes && !w.devices[d].destroying
    requires Spent(ext, left, u.devices[d]) && (x == d || x in Implicits(w.devices[d]))
    ensures left[x] == app[x]
  {
    assert left[x] + Tokens(u.devices[d], x) == ext[x];
    assert Tokens(u.devices[d], x) == Tokens(w.devices[d], x);
    assert ext[x] == app[x] + Imp(w, x);
    assert DeviceOk(w, d, {});
    assert Tokens(w.devices[d], d) > 0 ==> d in Implicits(w.devices[d]) && ImplicitOk(w, d, d);
    assert x != d ==> ImplicitOk(w, d, x);
  }

  lemma StripDetails(w: World, u: World, w3: World, d: Id, app: multiset<Id>, ext: multiset<Id>, left: multiset<Id>)
    requires WInv(w, app, ext, {}) && MaybeDying(w, u, d) && d in w.g.nodes && !w.devices[d].destroying
    requires w3.devices == u.devices[d := Torn(u.devices[d])] && Spent(ext, left, u.devices[d])
    requires Inv(w3.g, left + Many(d, w.devices[d].implicitRefCnt), multiset{})
    requires Frame(w.g, w3.g, Implicits(w.devices[d]) + {d})
    requires d in w3.g.nodes && forall j | 0 <= j < |w3.g.nodes[d].slots| :: w3.g.nodes[d].slots[j].None?
    ensures Stripped(w, w3, d, app, left)
  {
    hide Frame, Inv, WInv, Spent;
    var imps := Implicits(w.devices[d]);
    var ext3 := left + Many(d, w.devices[d].implicitRefCnt);
    DeviceFacts(w, app, ext, d);
    StripLeft(w, u, d, app, ext, left, d);
    forall x | x in imps
      ensures x in w3.g.nodes <==> Held(w, app, x)
      ensures x in w3.g.nodes ==> w3.g.nodes[x].iface > 0
      ensures x !in w3.g.nodes ==> x in w3.g.log
    {
      StripLeft(w, u, d, app, ext, left, x);
      ImplicitSurvives(w, w3, app, ext, ext3, d, x);
      if x !in w3.g.nodes {
        GoneIsLogged(w.g, w3.g, ext, ext3, imps + {d}, x);
      }
    }
    StrippedKids(w, w3, app, ext, d);
    UnderModuleLater(w, w3, imps + {d}, d);
    FrameHolders(w.g, w3.g, imps + {d}, d);
  }

  lemma DeviceFacts(w: World, app: multiset<Id>, ext: multiset<Id>, d: Id)
    requires WInv(w, app, ext, {}) && d in w.devices && d in w.g.nodes
    ensures UnderModule(w, d)
    ensures Holders(w.g.nodes, d) == {}
    ensures Inv(w.g, ext, multiset{})
    ensures forall x | x in Implicits(w.devices[d]) :: ImplicitOk(w, d, x) && x != d
  {
    assert DeviceOk(w, d, {});
    forall x | x in Implicits(w.devices[d])
      ensures ImplicitOk(w, d, x) && x != d
    {
      assert ImplicitOk(w, d, x);
    }
  }

  // ---------------------------------------------------------------------------------------------
  // The compensating releases
  // ---------------------------------------------------------------------------------------------

  /** After `k` compensating releases the device still owns the remaining ones. */
  lemma Compensate(w: World, w3: World, d: Id, app: multiset<Id>, left: multiset<Id>, k: nat)
    requires Stripped(w, w3, d, app, left) && k <= w.devices[d].implicitRefCnt
    ensures var v := BaseReleaseN(w3, d, k);
            && Inv(v.g, left + Many(d, w.devices[d].implicitRefCnt - k), multiset{})
            && Frame(w3.g, v.g, {d, w3.g.nodes[d].parent.value})
            && Kids(v.g.nodes, d) == Kids(w3.g.nodes, d) && Holders(v.g.nodes, d) == {}
            && v == w3.(g := v.g)
  {
    hide Inv, Frame, HeldImplicits, Implicits, Held, BaseReleaseN;
    var n := w.devices[d].implicitRefCnt;
    var m := w3.g.nodes[d].parent.value;
    assert left + Many(d, n) == left + Many(d, n - k) + Many(d, k);
    BaseReleaseNKeepsInv(w3, left + Many(d, n - k), d, k);
    var v := BaseReleaseN(w3, d, k);
    FrameHolders(w3.g, v.g, {d, m}, d);
    KidsUnderModule(w3, v, d, left + Many(d, n));
  }

  /** The children of a device do not change when the device and the module do. */
  lemma KidsUnderModule(w: World, v: World, d: Id, ext: multiset<Id>)
    requires UnderModule(w, d) && Frame(w.g, v.g, {d, w.g.nodes[d].parent.value}) && Inv(w.g, ext, multiset{})
    ensures Kids(v.g.nodes, d) == Kids(w.g.nodes, d)
  {
    var m := w.g.nodes[d].parent.value;
    ParentIsOlder(w.g, ext, d);
    FrameKids(w.g, v.g, {d, m}, d);
    if d in v.g.nodes {
      SameParent(w.g, v.g, {d, m}, d);
    }
    if m in v.g.nodes {
      SameParent(w.g, v.g, {d, m}, m);
    }
    assert {d, m} !! Kids(w.g.nodes, d) && {d, m} !! Kids(v.g.nodes, d);
  }

  lemma AliveIffReferenced(g: Graph, ext: multiset<Id>, d: Id)
    requires Inv(g, ext, multiset{}) && Holders(g.nodes, d) == {}
    ensures d in g.nodes <==> ext[d] + |Kids(g.nodes, d)| > 0
    ensures d in g.nodes ==> g.nodes[d].iface == ext[d] + |Kids(g.nodes, d)|
  {
    if d in g.nodes {
      assert CountsOk(g.nodes, ext, multiset{}, d);
    }
    if Kids(g.nodes, d) != {} {
      var c :| c in Kids(g.nodes, d);
      assert LinksOk(g.nodes, c);
    }
  }

  lemma AliveDuring(w: World, w3: World, d: Id, app: multiset<Id>, left: multiset<Id>, k: nat)
    requires Stripped(w, w3, d, app, left) && k <= w.devices[d].implicitRefCnt
    requires Kids(w.g.nodes, d) == Implicits(w.devices[d]) && app[d] == 0
    ensures d in BaseReleaseN(w3, d, k).g.nodes <==> k < w.devices[d].implicitRefCnt || HeldImplicits(w, app, d) != {}
    ensures BaseReleaseN(w3, d, k).teardowns == w3.teardowns
  {
    hide BaseReleaseN, Inv, Frame, Held;
    Compensate(w, w3, d, app, left, k);
    AliveIffReferenced(BaseReleaseN(w3, d, k).g, left + Many(d, w.devices[d].implicitRefCnt - k), d);
    assert Kids(w3.g.nodes, d) == HeldImplicits(w, app, d);
  }

  // ---------------------------------------------------------------------------------------------
  // The way up to the device
  // ---------------------------------------------------------------------------------------------

  /** What Release of `i` does before a teardown: the reference is given back, and with the last one of an
      object its reference on the parent, up to the first device. */
  function GivenBack(w: World, i: Id): (r: World)
    ensures r.devices == w.devices && r.teardowns == w.teardowns
    decreases i
  {
    if i !in w.g.nodes || w.g.nodes[i].iface == 0 || w.g.nodes[i].obj == 0 then w
    else
      var v := w.(g := DecInterface(w.g, i));
      if i !in w.devices && w.g.nodes[i].iface == 1 && w.g.nodes[i].parent.Some? && w.g.nodes[i].parent.value < i
      then GivenBack(v, w.g.nodes[i].parent.value)
      else v
  }

  lemma {:induction false} TornByIsDevice(w: World, i: Id)
    requires TornBy(w, i).Some?
    ensures var d := TornBy(w, i).value;
            && d in w.g.nodes && d in w.devices && !w.devices[d].destroying
            && w.g.nodes[d].iface - 1 == w.devices[d].implicitRefCnt
    decreases i
  {
    if i !in w.devices {
      TornByIsDevice(w, w.g.nodes[i].parent.value);
    }
  }

  /** The state in which the teardown of `d` starts: the application has nothing of it left, and its implicit
      objects are the only children that reference it. */
  ghost predicate LastGiven(w: World, w1: World, d: Id, app1: multiset<Id>, ext1: multiset<Id>) {
    && w1 == w.(g := w1.g) && WInv(w1, app1, ext1, {}) && app1[d] == 0
    && d in w.devices && !w.devices[d].destroying && d in w1.g.nodes
    && w1.g.nodes[d].iface == w.devices[d].implicitRefCnt > 0
    && Kids(w1.g.nodes, d) == Implicits(w.devices[d])
    && (forall x | x in Implicits(w.devices[d]) :: Kids(w1.g.nodes, x) == Kids(w.g.nodes, x))
  }

  lemma {:induction false} UpToTheDevice(w: World, app: multiset<Id>, ext: multiset<Id>, i: Id)
    returns (ext1: multiset<Id>)
    requires WInv(w, app, ext, {}) && i in app && TornBy(w, i).Some?
    ensures LastGiven(w, GivenBack(w, i), TornBy(w, i).value, app - multiset{i}, ext1)
    ensures Release(w, i) == ReleaseInternalObjects(BeginTeardown(GivenBack(w, i), TornBy(w, i).value), TornBy(w, i).value)
    decreases i
  {
    hide WInv, DecInterface, ReleaseInternalObjects, Frame;
    if i in w.devices {
      var w1;
      w1, ext1 := LastVisible(w, app, ext, i);
    } else {
      var p := w.g.nodes[i].parent.value;
      var v, ext' := DecKeepsWInv(w, app, ext, i);
      var app' := app - multiset{i} + multiset{p};
      TornBySame(w, v, i, p);
      ext1 := UpToTheDevice(v, app', ext', p);
      assert app' - multiset{p} == app - multiset{i};
      forall x | x in Implicits(w.devices[TornBy(w, i).value])
        ensures Kids(v.g.nodes, x) == Kids(w.g.nodes, x)
      {
        NotThroughImplicit(v, app', ext', p, x);
        FrameKids(w.g, v.g, {i}, x);
        StillNoKid(w, v, i, x);
      }
    }
  }

  /** A device keeps a reference of its own on each implicit object, so the way up does not pass through one. */
  lemma NotThroughImplicit(v: World, app: multiset<Id>, ext: multiset<Id>, p: Id, x: Id)
    requires WInv(v, app, ext, {}) && p in app && TornBy(v, p).Some?
    requires x in Implicits(v.devices[TornByDevice(v, p)])
    ensures p != x
  {
    var d := TornByDevice(v, p);
    assert DeviceOk(v, d, {});
    assert ImplicitOk(v, d, x);
    ImplicitIsReferenced(v, app, ext, d, x);
    if p == x {
      CountsBound(v.g, ext, x);
    }
  }

  function TornByDevice(w: World, i: Id): (d: Id)
    requires TornBy(w, i).Some?
    ensures d in w.devices && d in w.g.nodes
  {
    TornByIsDevice(w, i);
    TornBy(w, i).value
  }

  lemma StillNoKid(w: World, v: World, i: Id, x: Id)
    requires Frame(w.g, v.g, {i}) && i in w.g.nodes && w.g.nodes[i].parent != Some(x)
    requires Kids(v.g.nodes, x) - {i} == Kids(w.g.nodes, x) - {i}
    ensures Kids(v.g.nodes, x) == Kids(w.g.nodes, x)
  {
    if i in v.g.nodes {
      assert SameBut(w.g.nodes[i], v.g.nodes[i]);
    }
    assert i !in Kids(v.g.nodes, x) && i !in Kids(w.g.nodes, x);
  }

  /** Teardown, whatever object's Release starts it: the device's own, or that of the last of its other children,
      or of one of theirs.

      It happens exactly once. The application then holds nothing of the device, and its implicit objects are
      the only children that reference it. Every implicit object that nothing else holds is destroyed before the
      compensating releases, while the device is still alive; the device survives all of those but the last,
      and survives that one as well if and only if some implicit object is held. */
  lemma TeardownOrder(w: World, app: multiset<Id>, ext: multiset<Id>, i: Id)
    requires WInv(w, app, ext, {}) && i in app && TornBy(w, i).Some?
    ensures var d := TornByDevice(w, i);
            var n := w.devices[d].implicitRefCnt;
            var left := app - multiset{i};
            var before := BeforeCompensation(BeginTeardown(GivenBack(w, i), d), d);
            && left[d] == 0 && Kids(GivenBack(w, i).g.nodes, d) == Implicits(w.devices[d])
            && Release(w, i) == BaseReleaseN(before, d, n)
            && Release(w, i).teardowns == w.teardowns + [d]
            && (forall x | x in Implicits(w.devices[d]) :: x in before.g.nodes <==> Held(w, left, x))
            && (forall x | x in Implicits(w.devices[d]) && !Held(w, left, x) :: x in before.g.log)
            && (forall k: nat | k < n :: d in BaseReleaseN(before, d, k).g.nodes)
            && (d in Release(w, i).g.nodes <==> HeldImplicits(w, left, d) != {})
  {
    hide BaseReleaseN, BeforeCompensation, WInv, Stripped, DecInterface, Inv, Full, Held, HeldImplicits, Implicits, BaseRelease, UnderModule, Release, GivenBack, TornBy;
    var d := TornByDevice(w, i);
    var n := w.devices[d].implicitRefCnt;
    var app1 := app - multiset{i};
    var ext1 := UpToTheDevice(w, app, ext, i);
    var w1 := GivenBack(w, i);
    var u := BeginTeardown(w1, d);
    var w3, left := Strip(w1, u, d, app1, ext1);
    HeldBefore(w, w1, w3, d, app1, left);
    forall k: nat | k <= n
      ensures d in BaseReleaseN(w3, d, k).g.nodes <==> k < n || HeldImplicits(w, app1, d) != {}
      ensures BaseReleaseN(w3, d, k).teardowns == w.teardowns + [d]
    {
      AliveDuring(w1, w3, d, app1, left, k);
    }
  }

  /** The decrement that precedes the teardown. */
  lemma LastVisible(w: World, app: multiset<Id>, ext: multiset<Id>, d: Id) returns (w1: World, ext1: multiset<Id>)
    requires WInv(w, app, ext, {}) && d in app && d in w.devices && d in w.g.nodes && !w.devices[d].destroying
    requires w.g.nodes[d].iface - 1 == w.devices[d].implicitRefCnt
    ensures w1 == GivenBack(w, d) && w1 == BaseRelease(w, d)
    ensures LastGiven(w, w1, d, app - multiset{d}, ext1)
  {
    hide WInv, Full, Frame, DecInterface;
    FullDeviceCounts(w, app, ext, d);
    w1, ext1 := DecKeepsWInv(w, app, ext, d);
    assert app - multiset{d} + multiset{} == app - multiset{d};
    FullDeviceCounts(w1, app - multiset{d}, ext1, d);
    CardinalitySubset(Implicits(w.devices[d]), Kids(w1.g.nodes, d));
    assert w1 == BaseRelease(w, d);
    forall x
      ensures Kids(w1.g.nodes, x) == Kids(w.g.nodes, x)
    {
      DecKids(w.g, d, x);
    }
  }

  lemma DecKids(g: Graph, d: Id, x: Id)
    requires d in g.nodes && 1 < g.nodes[d].iface <= g.nodes[d].obj
    ensures Kids(DecInterface(g, d).nodes, x) == Kids(g.nodes, x)
  {
    KidsSame(g.nodes, d, g.nodes[d].(iface := g.nodes[d].iface - 1, obj := g.nodes[d].obj - 1), x);
  }

  lemma HeldBefore(w: World, w1: World, w3: World, d: Id, app1: multiset<Id>, left: multiset<Id>)
    requires Stripped(w1, w3, d, app1, left) && w1 == w.(g := w1.g)
    requires forall x | x in Implicits(w.devices[d]) :: Kids(w1.g.nodes, x) == Kids(w.g.nodes, x)
    ensures HeldImplicits(w1, app1, d) == HeldImplicits(w, app1, d)
    ensures forall x | x in Implicits(w.devices[d]) :: x in w3.g.nodes <==> Held(w, app1, x)
    ensures forall x | x in Implicits(w.devices[d]) && !Held(w, app1, x) :: x in w3.g.log
  {
    assert forall x | x in Implicits(w.devices[d]) :: Held(w1, app1, x) == Held(w, app1, x);
  }

  /** D3DBase::Release may delete the device, and the device's own Release goes on to read its flag and its
      implicit count. It reads them of a live device unless the device has survived its own teardown and this was
      the last reference on it. */
  lemma ReleaseReadsDevice(w: World, app: multiset<Id>, ext: multiset<Id>, d: Id)
    requires WInv(w, app, ext, {}) && d in app && d in w.devices
    ensures d in w.g.nodes
    ensures d !in BaseRelease(w, d).g.nodes <==> w.devices[d].destroying && w.g.nodes[d].iface == 1
  {
    hide BaseRelease, DecInterface, Frame, Implicits, UnderModule;
    assert ext[d] == app[d] + Imp(w, d);
    CountsBoundOf(w.g, ext, d);
    DeviceFacts(w, app, ext, d);
    BaseReleaseStep(w, ext, d);
    var v := BaseRelease(w, d);
    KidsUnderModule(w, v, d, ext);
    FrameHolders(w.g, v.g, {d, w.g.nodes[d].parent.value}, d);
    AliveIffReferenced(w.g, ext, d);
    AliveIffReferenced(v.g, ext - multiset{d}, d);
    if !w.devices[d].destroying {
      FullDeviceCounts(w, app, ext, d);
      CardinalitySubset(Implicits(w.devices[d]), Kids(w.g.nodes, d));
    }
  }
}
