/** Release as the application sees it: the client's invariant, and exactly what a teardown destroys. */
module DeviceRelease {
  import opened Options
  import opened ObjectGraph
  import opened GraphCounting
  import opened GraphDrops
  import opened ObjectOps
  import opened DeviceLifecycle
  import opened DeviceTeardown
  import opened DeviceWorld

  /** The devices torn down so far, each once. */
  ghost predicate TeardownsOk(w: World) {
    && Distinct(w.teardowns)
    && (forall d {:trigger d in w.teardowns} ::
          d in w.teardowns <==> d in w.devices && w.devices[d].destroying)
  }

  /** One interface token given up, seen from the whole client. */
  lemma DecKeepsWInv(w: World, app: multiset<Id>, ext: multiset<Id>, i: Id) returns (v: World, ext': multiset<Id>)
    requires WInv(w, app, ext, {}) && i in app
    ensures i in w.g.nodes && 0 < w.g.nodes[i].iface <= w.g.nodes[i].obj
    ensures v == w.(g := DecInterface(w.g, i))
    ensures WInv(v, app - multiset{i} + ParentToken(w.g, i), ext', {})
    ensures Frame(w.g, v.g, {i})
    ensures w.g.nodes[i].iface > 1 ==> i in v.g.nodes && v.g.nodes[i].iface == w.g.nodes[i].iface - 1
  {
    assert ext[i] == app[i] + Imp(w, i);
    DecFrame(w.g, ext, i);
    v := w.(g := DecInterface(w.g, i));
    ext' := ext - multiset{i} + ParentToken(w.g, i);
    var app' := app - multiset{i} + ParentToken(w.g, i);
    FrameIsSame(w.g, v.g, {i});
    FrameBindings(w, v, {i});
    forall x: Id
      ensures ext'[x] == app'[x] + Imp(w, x)
    {
      assert ext[x] == app[x] + Imp(w, x);
    }
    Preserved(w, v, app, ext, {}, app', ext');
  }

  /** What a Release leads to in the end: `d` is the device it tears down, if any. */
  ghost predicate TornDown(w: World, v: World, d: Option<Id>) {
    && v.teardowns == w.teardowns + Somes([d])
    && (d.Some? ==> d.value in w.devices && !w.devices[d.value].destroying && d.value in v.devices)
    && v.devices.Keys == w.devices.Keys
    && (forall e | e in w.devices && d != Some(e) :: v.devices[e] == w.devices[e])
    && (d.Some? ==> v.devices[d.value] == Torn(w.devices[d.value]).(destroying := true))
  }

  /** The device whose teardown a Release of `i` starts, if any: the last reference on an object gives up its
      parent, and so on up to the first device, which notices when it comes down to its implicit count. */
  function TornBy(w: World, i: Id): Option<Id>
    decreases i
  {
    if i !in w.g.nodes || w.g.nodes[i].iface == 0 then None
    else if i in w.devices then
      if !w.devices[i].destroying && w.g.nodes[i].iface - 1 == w.devices[i].implicitRefCnt then Some(i) else None
    else if w.g.nodes[i].iface == 1 && w.g.nodes[i].parent.Some? && w.g.nodes[i].parent.value < i then
      TornBy(w, w.g.nodes[i].parent.value)
    else None
  }

  /** One step of a Release changes the interface count of one object only, so it does not change where the
      references of an older object lead. */
  lemma {:induction false} TornBySame(w: World, v: World, i: Id, p: Id)
    requires v == w.(g := v.g) && Frame(w.g, v.g, {i}) && p < i
    ensures TornBy(v, p) == TornBy(w, p)
    decreases p
  {
    if p in v.g.nodes {
      assert SameBut(w.g.nodes[p], v.g.nodes[p]);
      if v.g.nodes[p].parent.Some? && v.g.nodes[p].parent.value < p {
        TornBySame(w, v, i, v.g.nodes[p].parent.value);
      }
    }
  }

  lemma TeardownsStayOk(w: World, v: World, d: Option<Id>)
    requires TeardownsOk(w) && TornDown(w, v, d)
    ensures TeardownsOk(v)
  {
    SomesOne(d);
    if d.Some? {
      DistinctConcat(w.teardowns, [d.value]);
    }
  }

  /** A live device that is not being torn down shows its implicit objects as children. */
  lemma FullDeviceCounts(w: World, app: multiset<Id>, ext: multiset<Id>, d: Id)
    requires WInv(w, app, ext, {}) && d in w.devices && d in w.g.nodes && !w.devices[d].destroying
    ensures Full(w.devices[d])
    ensures 2 <= w.devices[d].implicitRefCnt == |Implicits(w.devices[d])|
    ensures Implicits(w.devices[d]) <= Kids(w.g.nodes, d)
    ensures ext[d] == app[d] && w.g.nodes[d].iface == app[d] + |Kids(w.g.nodes, d)|
  {
    assert DeviceOk(w, d, {});
    FullCount(w.devices[d]);
    forall x | x in Implicits(w.devices[d])
      ensures x in Kids(w.g.nodes, d)
    {
      assert ImplicitOk(w, d, x);
      ImplicitIsReferenced(w, app, ext, d, x);
      CountsBoundOf(w.g, ext, x);
    }
    assert ext[d] == app[d] + Imp(w, d);
    CountsBound(w.g, ext, d);
  }

  lemma TornDeviceOk(v: World, d: Id)
    requires d in v.devices && v.devices[d].destroying && NoPointers(v.devices[d])
    requires UnderModule(v, d) && |v.g.nodes[d].slots| == STATE_SLOTS && Holders(v.g.nodes, d) == {}
    ensures DeviceOk(v, d, {})
  {
  }

  lemma WInvFromDevices(v: World, app: multiset<Id>, ext: multiset<Id>, mid: set<Id>)
    requires Inv(v.g, ext, multiset{}) && Ledger(v, app, ext)
    requires forall e | e in v.devices && e in v.g.nodes :: DeviceOk(v, e, mid)
    requires forall e | e in v.devices && e !in v.g.nodes :: NoPointers(v.devices[e]) && e < v.g.next
    ensures WInv(v, app, ext, mid)
  {
  }

  /** BeginTeardown and releaseInternalObjects, once the count of a device has come down far enough. */
  lemma TeardownKeeps(w: World, d: Id, app: multiset<Id>, ext: multiset<Id>) returns (v: World, left: multiset<Id>)
    requires WInv(w, app, ext, {}) && d in w.devices && d in w.g.nodes && !w.devices[d].destroying
    requires w.g.nodes[d].iface > 0
    ensures v == ReleaseInternalObjects(BeginTeardown(w, d), d)
    ensures WInv(v, app, left, {}) && TornDown(w, v, Some(d))
    ensures exists s :: Frame(w.g, v.g, s)
  {
    hide ReleaseInternalObjects, Frame, Inv, WInv, Spent, Ledger, DeviceOk;
    var u := BeginTeardown(w, d);
    left := DismantleKeeps(w, u, d, app, ext);
    v := ReleaseInternalObjects(u, d);
    assert Frame(w.g, v.g, Implicits(w.devices[d]) + {d, w.g.nodes[d].parent.value});
    SomesOne(Some(d));
    if d in v.g.nodes {
      TornDeviceOk(v, d);
    }
    WInvFromDevices(v, app, left, {});
  }

  lemma FrameChain(g: Graph, h: Graph, k: Graph, a: set<Id>)
    requires Frame(g, h, a) && exists b :: Frame(h, k, b)
    ensures exists s :: Frame(g, k, s)
  {
    var b :| Frame(h, k, b);
    FrameTrans(g, h, k, a, b);
  }

  /** Release of a token the application holds keeps the invariant, and tears down the one device that TornBy
      names or none. */
  lemma {:induction false} ReleaseKeepsWInv(w: World, app: multiset<Id>, ext: multiset<Id>, i: Id)
    returns (left: multiset<Id>)
    requires WInv(w, app, ext, {}) && i in app
    ensures WInv(Release(w, i), app - multiset{i}, left, {})
    ensures TornDown(w, Release(w, i), TornBy(w, i))
    ensures exists s :: Frame(w.g, Release(w, i).g, s)
    decreases i
  {
    hide DecInterface, ReleaseInternalObjects, WInv, BeginTeardown, Frame;
    var v, ext1 := DecKeepsWInv(w, app, ext, i);
    var cnt := w.g.nodes[i].iface - 1;
    if cnt == 0 {
      left := ReleaseLast(w, v, app, ext, ext1, i);
    } else {
      assert app - multiset{i} + multiset{} == app - multiset{i};
      assert BaseRelease(w, i) == v;
      if i in v.devices && !v.devices[i].destroying && cnt == v.devices[i].implicitRefCnt {
        var t;
        t, left := TeardownKeeps(v, i, app - multiset{i}, ext1);
        FrameChain(w.g, v.g, t.g, {i});
      } else {
        left := ext1;
        SomesOne(None);
        assert w.teardowns + [] == w.teardowns;
      }
    }
  }

  /** The last reference on `i`: it gives up its parent, and it cannot be a device with implicit objects. */
  lemma {:induction false} ReleaseLast(w: World, v: World, app: multiset<Id>, ext: multiset<Id>, ext1: multiset<Id>, i: Id)
    returns (left: multiset<Id>)
    requires WInv(w, app, ext, {}) && i in app && i in w.g.nodes && w.g.nodes[i].iface == 1 <= w.g.nodes[i].obj
    requires v == w.(g := DecInterface(w.g, i)) && WInv(v, app - multiset{i} + ParentToken(w.g, i), ext1, {})
    requires Frame(w.g, v.g, {i})
    ensures WInv(Release(w, i), app - multiset{i}, left, {})
    ensures TornDown(w, Release(w, i), TornBy(w, i))
    ensures exists s :: Frame(w.g, Release(w, i).g, s)
    decreases i, 0
  {
    hide DecInterface, ReleaseInternalObjects, WInv, BeginTeardown, Frame;
    assert i in w.devices ==> w.devices[i].destroying by {
      if i in w.devices && !w.devices[i].destroying {
        FullDeviceCounts(w, app, ext, i);
        CardinalitySubset(Implicits(w.devices[i]), Kids(w.g.nodes, i));
      }
    }
    SomesOne(None);
    assert w.teardowns + [] == w.teardowns;
    var parent := w.g.nodes[i].parent;
    if parent.Some? {
      ParentOlder(w, app, ext, i);
      left := ReleaseKeepsWInv(v, app - multiset{i} + multiset{parent.value}, ext1, parent.value);
      TornBySame(w, v, i, parent.value);
      if i in w.devices {
        ModuleTearsNothing(w, app, ext, i);
      }
      FrameChain(w.g, v.g, Release(v, parent.value).g, {i});
      assert app - multiset{i} + multiset{parent.value} - multiset{parent.value} == app - multiset{i};
    } else {
      assert app - multiset{i} + multiset{} == app - multiset{i};
      left := ext1;
    }
  }

  lemma ModuleTearsNothing(w: World, app: multiset<Id>, ext: multiset<Id>, d: Id)
    requires WInv(w, app, ext, {}) && d in w.devices && d in w.g.nodes && w.g.nodes[d].parent.Some?
    ensures TornBy(w, w.g.nodes[d].parent.value) == None
  {
    assert DeviceOk(w, d, {});
  }

  lemma ParentOlder(w: World, app: multiset<Id>, ext: multiset<Id>, i: Id)
    requires WInv(w, app, ext, {}) && i in w.g.nodes && w.g.nodes[i].parent.Some?
    ensures w.g.nodes[i].parent.value < i
  {
    ParentIsOlder(w.g, ext, i);
  }

  /** Release as called on any object. A member passes the call on to its container. */
  function CallRelease(w: World, i: Id): World {
    Release(w, Target(w.g, i))
  }

  lemma LoggedWholeIsDead(g: Graph, c: Id, members: seq<Id>, at: nat)
    requires LogInv(g) && WentDownWhole(g.log, c, members, at)
    ensures !Alive(g, c) && forall m | m in members :: !Alive(g, m)
  {
    var stretch := g.log[at..at + 1 + |members|];
    assert stretch[0] == c && g.log[at] == c;
    forall m | m in members
      ensures !Alive(g, m)
    {
      var k :| 0 <= k < |members| && members[k] == m;
      assert stretch[k + 1] == m && g.log[at + k + 1] == m;
    }
  }
}
