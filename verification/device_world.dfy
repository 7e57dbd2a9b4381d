/**
 The invariant of the whole client: every module, device and resource, and what Release keeps of it.

 A ledger accounts for every external reference: it is the application's, or a device's hold on one of its
 implicit objects. Devices between the teardown and the re-creation of those objects are listed apart.
 */
module DeviceWorld {
  import opened Options
  import opened ObjectGraph
  import opened GraphCounting
  import opened GraphDrops
  import opened ObjectOps
  import opened DeviceLifecycle
  import opened DeviceTeardown

  predicate NoPointers(dev: Device) {
    dev.renderTarget.None? && dev.depthStencil.None? && dev.swapchain.None? && dev.implicitRefCnt == 0
  }

  /** The references object `x` owes to being an implicit object of its parent. */
  function Imp(w: World, x: Id): nat {
    if x in w.g.nodes && w.g.nodes[x].parent.Some? && w.g.nodes[x].parent.value in w.devices
    then Tokens(w.devices[w.g.nodes[x].parent.value], x) else 0
  }

  /** Every external reference is either the application's or a device's hold on an implicit object. */
  ghost predicate Ledger(w: World, app: multiset<Id>, ext: multiset<Id>) {
    forall x: Id {:trigger ext[x]} :: ext[x] == app[x] + Imp(w, x)
  }

  /** A live device: nothing binds the device itself, it sits under the module, and its pointers name live
      implicit objects. `mid` are the devices between the teardown
      and the re-creation of those objects. */
  ghost predicate DeviceOk(w: World, d: Id, mid: set<Id>)
    requires d in w.devices
  {
    && UnderModule(w, d)
    && |w.g.nodes[d].slots| == STATE_SLOTS
    && Holders(w.g.nodes, d) == {}
    && (if w.devices[d].destroying then NoPointers(w.devices[d])
        else if d in mid then Pointers(w.devices[d]) else Full(w.devices[d]))
    && (forall x {:trigger ImplicitOk(w, d, x)} | x in Implicits(w.devices[d]) :: ImplicitOk(w, d, x))
  }

  /** The client's invariant. `app` is what the application holds, `mid` the devices being rebuilt. */
  ghost predicate WInv(w: World, app: multiset<Id>, ext: multiset<Id>, mid: set<Id>) {
    && Inv(w.g, ext, multiset{})
    && Ledger(w, app, ext)
    && (forall d {:trigger DeviceOk(w, d, mid)} | d in w.devices && d in w.g.nodes ::
          DeviceOk(w, d, mid))
    && (forall d | d in w.devices && d !in w.g.nodes ::
          NoPointers(w.devices[d]) && d < w.g.next)
  }

  // ---------------------------------------------------------------------------------------------
  // Steps that leave the devices' own records alone
  // ---------------------------------------------------------------------------------------------

  /** `h` keeps the identity of every object of `g` that is still there, and new objects have new ids. */
  ghost predicate SameObjects(g: Graph, h: Graph) {
    && g.next <= h.next
    && (forall j | j in h.nodes && j in g.nodes ::
          h.nodes[j].parent == g.nodes[j].parent && |h.nodes[j].slots| == |g.nodes[j].slots|)
    && (forall j | j in h.nodes && j !in g.nodes :: j >= g.next)
  }

  lemma FrameIsSame(g: Graph, h: Graph, s: set<Id>)
    requires Frame(g, h, s)
    ensures SameObjects(g, h)
  {
    forall j | j in h.nodes
      ensures SameBut(g.nodes[j], h.nodes[j])
    {
    }
  }

  /** New bindings of `x` appear in slots of `o` only. */
  ghost predicate BoundBy(g: Graph, h: Graph, x: Id, o: Id) {
    forall s | s in Holders(h.nodes, x) :: s in Holders(g.nodes, x) || s.0 == o
  }

  lemma IdsBelowNext(g: Graph, i: Id)
    requires LogInv(g) && i in g.nodes
    ensures i < g.next
  {
    assert Alive(g, i);
  }

  lemma ImplicitIsReferenced(w: World, app: multiset<Id>, ext: multiset<Id>, d: Id, x: Id)
    requires Ledger(w, app, ext) && d in w.devices && ImplicitOk(w, d, x) && x in Implicits(w.devices[d])
    ensures x in ext && ext[x] >= Tokens(w.devices[d], x) > 0 && ext[x] == app[x] + Tokens(w.devices[d], x)
  {
    ImplicitHasToken(w.devices[d], x);
    assert ext[x] == app[x] + Imp(w, x);
  }

  lemma ImpSame(w: World, v: World, app: multiset<Id>, ext: multiset<Id>, mid: set<Id>, ext': multiset<Id>, app': multiset<Id>, x: Id)
    requires WInv(w, app, ext, mid) && v.devices == w.devices && SameObjects(w.g, v.g)
    requires Inv(v.g, ext', multiset{}) && ext'[x] == app'[x] + Imp(w, x)
    ensures Imp(v, x) == Imp(w, x)
  {
    if x in v.g.nodes && x !in w.g.nodes && v.g.nodes[x].parent.Some? && v.g.nodes[x].parent.value in w.devices {
      var d := v.g.nodes[x].parent.value;
      assert d in w.g.nodes ==> DeviceOk(w, d, mid);
      assert x !in Implicits(w.devices[d]) by {
        assert x in Implicits(w.devices[d]) ==> ImplicitOk(w, d, x);
      }
    } else if x !in v.g.nodes {
      assert x !in ext';
    }
  }

  lemma DeviceOkSame(w: World, v: World, app: multiset<Id>, ext: multiset<Id>, mid: set<Id>, ext': multiset<Id>, d: Id)
    requires WInv(w, app, ext, mid) && v.devices == w.devices && SameObjects(w.g, v.g)
    requires Inv(v.g, ext', multiset{}) && d in w.devices && d in w.g.nodes && d in v.g.nodes
    requires Holders(v.g.nodes, d) <= Holders(w.g.nodes, d)
    requires forall x | x in Implicits(w.devices[d]) :: x in ext' && BoundBy(w.g, v.g, x, d)
    ensures DeviceOk(v, d, mid)
  {
    assert DeviceOk(w, d, mid);
    var m := w.g.nodes[d].parent.value;
    ParentIsOlder(w.g, ext, d);
    IdsBelowNext(w.g, d);
    forall x | x in Implicits(w.devices[d])
      ensures ImplicitOk(v, d, x)
    {
      assert ImplicitOk(w, d, x);
    }
  }

  lemma EmptyPointers(dev: Device)
    requires Pointers(dev) && Implicits(dev) == {}
    ensures NoPointers(dev)
  {
    assert dev.implicitRefCnt == |Implicits(dev)|;
    if dev.renderTarget.Some? || dev.depthStencil.Some? || dev.swapchain.Some? {
      assert false;
    }
  }

  /** A device that is not being torn down stays alive as long as its implicit objects are referenced. */
  lemma DeviceStaysAlive(w: World, v: World, app: multiset<Id>, ext: multiset<Id>, mid: set<Id>, ext': multiset<Id>, d: Id)
    requires WInv(w, app, ext, mid) && SameObjects(w.g, v.g)
    requires Inv(v.g, ext', multiset{}) && d in w.devices && d in w.g.nodes
    requires !NoPointers(w.devices[d])
    requires forall x | x in Implicits(w.devices[d]) :: x in ext'
    ensures d in v.g.nodes
  {
    assert DeviceOk(w, d, mid);
    if Implicits(w.devices[d]) == {} {
      EmptyPointers(w.devices[d]);
    }
    var x :| x in Implicits(w.devices[d]);
    assert ImplicitOk(w, d, x);
    CountsBoundOf(v.g, ext', x);
    assert LinksOk(v.g.nodes, x);
  }

  /** The bindings a step may add: none to a device, and to an implicit object only from its own device. */
  ghost predicate BindingsOk(w: World, v: World) {
    && (forall d | d in w.devices && d in w.g.nodes :: Holders(v.g.nodes, d) <= Holders(w.g.nodes, d))
    && (forall d, x | d in w.devices && x in Implicits(w.devices[d]) :: BoundBy(w.g, v.g, x, d))
  }

  /** Any step on the graph that keeps objects, bindings and the counting invariant keeps the client's. */
  lemma Preserved(w: World, v: World, app: multiset<Id>, ext: multiset<Id>, mid: set<Id>,
                  app': multiset<Id>, ext': multiset<Id>)
    requires WInv(w, app, ext, mid)
    requires v.devices == w.devices && SameObjects(w.g, v.g) && BindingsOk(w, v)
    requires Inv(v.g, ext', multiset{})
    requires forall x: Id {:trigger ext'[x]} :: ext'[x] == app'[x] + Imp(w, x)
    requires forall d | d in mid && d in w.g.nodes :: d in v.g.nodes
    ensures WInv(v, app', ext', mid)
  {
    forall x: Id
      ensures ext'[x] == app'[x] + Imp(v, x)
    {
      ImpSame(w, v, app, ext, mid, ext', app', x);
    }
    forall d | d in w.devices && d in w.g.nodes
      ensures forall x | x in Implicits(w.devices[d]) :: x in ext'
    {
      assert DeviceOk(w, d, mid);
      forall x | x in Implicits(w.devices[d])
        ensures x in ext'
      {
        assert ImplicitOk(w, d, x);
        ImplicitHasToken(w.devices[d], x);
        assert ext'[x] == app'[x] + Imp(w, x);
      }
    }
    forall d | d in v.devices && d in v.g.nodes
      ensures DeviceOk(v, d, mid)
    {
      if d in w.g.nodes {
        DeviceOkSame(w, v, app, ext, mid, ext', d);
      }
    }
    forall d | d in v.devices && d !in v.g.nodes
      ensures NoPointers(v.devices[d]) && d < v.g.next
    {
      if d in w.g.nodes {
        IdsBelowNext(w.g, d);
        if !NoPointers(w.devices[d]) {
          DeviceStaysAlive(w, v, app, ext, mid, ext', d);
        }
      }
    }
  }

  lemma FrameBindings(w: World, v: World, s: set<Id>)
    requires Frame(w.g, v.g, s)
    ensures BindingsOk(w, v)
  {
    forall x
      ensures Holders(v.g.nodes, x) <= Holders(w.g.nodes, x)
    {
      FrameHolders(w.g, v.g, s, x);
    }
  }

  // ---------------------------------------------------------------------------------------------
  // Teardown
  // ---------------------------------------------------------------------------------------------

  /** `u` is `w` with device `d`'s teardown flag possibly raised. */
  ghost predicate MaybeDying(w: World, u: World, d: Id) {
    d in w.devices && (u == w || u == BeginTeardown(w, d))
  }

  lemma IntactDevice(w: World, u: World, d: Id, app: multiset<Id>, ext: multiset<Id>)
    requires WInv(w, app, ext, {}) && MaybeDying(w, u, d) && d in w.g.nodes && !w.devices[d].destroying
    requires w.g.nodes[d].iface > (if u.devices[d].destroying then 0 else w.devices[d].implicitRefCnt)
    ensures Intact(u, d, ext)
  {
    hide Inv, Tokens, UnderModule;
    assert DeviceOk(w, d, {});
    var dev := u.devices[d];
    assert Implicits(dev) == Implicits(w.devices[d]);
    forall x | x in Implicits(dev)
      ensures ImplicitOk(u, d, x)
    {
      assert ImplicitOk(w, d, x);
    }
    forall x
      ensures Tokens(dev, x) <= ext[x]
    {
      TokensBacked(w, d, app, ext, x);
      SameTokens(w.devices[d], dev, x);
    }
    assert UnderModule(u, d) by {
      SameUnderModule(w, u, d);
    }
  }

  lemma SameUnderModule(w: World, u: World, d: Id)
    requires UnderModule(w, d) && u.g == w.g && u.devices.Keys == w.devices.Keys
    ensures UnderModule(u, d)
  {
  }

  lemma SameTokens(a: Device, b: Device, x: Id)
    requires a.renderTarget == b.renderTarget && a.depthStencil == b.depthStencil && a.swapchain == b.swapchain
    requires a.pres == b.pres
    ensures Tokens(a, x) == Tokens(b, x)
  {
  }

  lemma TokensBacked(w: World, d: Id, app: multiset<Id>, ext: multiset<Id>, x: Id)
    requires WInv(w, app, ext, {}) && d in w.devices && d in w.g.nodes
    ensures Tokens(w.devices[d], x) <= ext[x]
  {
    assert DeviceOk(w, d, {});
    assert Tokens(w.devices[d], x) > 0 ==> x in Implicits(w.devices[d]) && ImplicitOk(w, d, x);
    assert ext[x] == app[x] + Imp(w, x);
  }

  /** The ledger after a device has given up its implicit objects: the application holds what it held. */
  lemma LedgerAfter(w: World, u: World, v: World, d: Id, app: multiset<Id>, ext: multiset<Id>, left: multiset<Id>, s: set<Id>)
    requires WInv(w, app, ext, {}) && MaybeDying(w, u, d) && d in w.g.nodes && !w.devices[d].destroying
    requires v.devices == u.devices[d := Torn(u.devices[d])]
    requires Inv(v.g, left, multiset{}) && Spent(ext, left, u.devices[d]) && Frame(w.g, v.g, s)
    ensures Ledger(v, app, left)
  {
    forall x: Id
      ensures left[x] == app[x] + Imp(v, x)
    {
      LedgerAfterAt(w, u, v, d, app, ext, left, s, x);
    }
  }

  lemma LedgerAfterAt(w: World, u: World, v: World, d: Id, app: multiset<Id>, ext: multiset<Id>, left: multiset<Id>, s: set<Id>, x: Id)
    requires WInv(w, app, ext, {}) && MaybeDying(w, u, d) && d in w.g.nodes && !w.devices[d].destroying
    requires v.devices == u.devices[d := Torn(u.devices[d])]
    requires Inv(v.g, left, multiset{}) && Spent(ext, left, u.devices[d]) && Frame(w.g, v.g, s)
    ensures left[x] == app[x] + Imp(v, x)
  {
    hide CountInv, MemberInv, LogInv, UnderModule;
    assert left[x] + Tokens(u.devices[d], x) == ext[x];
    assert ext[x] == app[x] + Imp(w, x);
    assert Tokens(u.devices[d], x) == Tokens(w.devices[d], x);
    assert DeviceOk(w, d, {});
    if Tokens(w.devices[d], x) > 0 {
      assert x in Implicits(w.devices[d]) && ImplicitOk(w, d, x);
    }
    if x in v.g.nodes {
      assert SameBut(w.g.nodes[x], v.g.nodes[x]);
    } else {
      GoneIsUnreferenced(v.g, left, x);
    }
  }

  lemma GoneIsUnreferenced(g: Graph, ext: multiset<Id>, x: Id)
    requires Inv(g, ext, multiset{}) && x !in g.nodes
    ensures ext[x] == 0
  {
    assert x !in ext;
  }

  /** Another device's implicit objects are not touched by what `d` gives up. */
  lemma OtherImplicit(w: World, u: World, d: Id, app: multiset<Id>, ext: multiset<Id>, left: multiset<Id>, e: Id, x: Id)
    requires WInv(w, app, ext, {}) && MaybeDying(w, u, d) && d in w.g.nodes
    requires Spent(ext, left, u.devices[d])
    requires e in w.devices && e in w.g.nodes && e != d && x in Implicits(w.devices[e])
    ensures x in left && ImplicitOk(w, e, x)
  {
    assert DeviceOk(w, e, {});
    assert DeviceOk(w, d, {});
    assert ImplicitOk(w, e, x);
    ImplicitIsReferenced(w, app, ext, e, x);
    assert Tokens(u.devices[d], x) == Tokens(w.devices[d], x);
    assert x in Implicits(w.devices[d]) ==> ImplicitOk(w, d, x);
    assert left[x] + Tokens(u.devices[d], x) == ext[x];
  }

  lemma OtherDevicesOk(w: World, u: World, v: World, d: Id, app: multiset<Id>, ext: multiset<Id>, left: multiset<Id>, s: set<Id>, e: Id)
    requires WInv(w, app, ext, {}) && MaybeDying(w, u, d) && d in w.g.nodes
    requires v.devices == u.devices[d := Torn(u.devices[d])] && Frame(w.g, v.g, s)
    requires Inv(v.g, left, multiset{}) && Spent(ext, left, u.devices[d])
    requires e in w.devices && e in w.g.nodes && e != d
    ensures e in v.g.nodes || NoPointers(v.devices[e])
    ensures e in v.g.nodes ==> DeviceOk(v, e, {})
  {
    hide Frame, Inv, LinksOk, Ledger, Spent, SameObjects;
    assert v.devices[e] == w.devices[e];
    assert DeviceOk(w, e, {});
    forall x | x in Implicits(w.devices[e])
      ensures x in left && ImplicitOk(w, e, x)
    {
      OtherImplicit(w, u, d, app, ext, left, e, x);
    }
    if e in v.g.nodes {
      UnderModuleLater(w, v, s, e);
      SlotsLength(w.g, v.g, s, e);
      FrameHolders(w.g, v.g, s, e);
      forall x | x in Implicits(v.devices[e])
        ensures ImplicitOk(v, e, x)
      {
        FrameImplicitOk(w, v, s, e, x, left);
      }
    } else if !NoPointers(w.devices[e]) {
      FrameIsSame(w.g, v.g, s);
      DeviceStaysAlive(w, v, app, ext, {}, left, e);
    }
  }

  lemma DeviceIdBelow(w: World, v: World, app: multiset<Id>, ext: multiset<Id>, s: set<Id>, e: Id)
    requires WInv(w, app, ext, {}) && e in w.devices && Frame(w.g, v.g, s)
    ensures e < v.g.next && (e in v.g.nodes ==> e in w.g.nodes)
  {
    if e in w.g.nodes {
      IdsBelowNext(w.g, e);
    }
  }

  /** Dismantling a device keeps the client's invariant. Outside a teardown the device is left bare, to be
      rebuilt. */
  lemma DismantleKeeps(w: World, u: World, d: Id, app: multiset<Id>, ext: multiset<Id>) returns (left: multiset<Id>)
    requires WInv(w, app, ext, {}) && MaybeDying(w, u, d) && d in w.g.nodes && !w.devices[d].destroying
    requires w.g.nodes[d].iface > (if u.devices[d].destroying then 0 else w.devices[d].implicitRefCnt)
    ensures UnderModule(w, d)
    ensures var v := ReleaseInternalObjects(u, d);
            && Inv(v.g, left, multiset{}) && Spent(ext, left, w.devices[d]) && Ledger(v, app, left)
            && v.devices == u.devices[d := Torn(u.devices[d])] && v.teardowns == u.teardowns
            && Frame(w.g, v.g, Implicits(w.devices[d]) + {d, w.g.nodes[d].parent.value})
            && (forall e | e in w.devices && e != d && e in v.g.nodes :: DeviceOk(v, e, {}))
            && (forall e | e in w.devices && e != d && e !in v.g.nodes :: NoPointers(v.devices[e]) && e < v.g.next)
            && (d in v.g.nodes ==> UnderModule(v, d) && |v.g.nodes[d].slots| == STATE_SLOTS && Holders(v.g.nodes, d) == {})
            && d < v.g.next
  {
    hide ReleaseInternalObjects, Inv, Frame, Ledger, Full;
    assert DeviceOk(w, d, {});
    IntactDevice(w, u, d, app, ext);
    left := Dismantle(u, d, ext);
    var v := ReleaseInternalObjects(u, d);
    var s := Implicits(w.devices[d]) + {d, w.g.nodes[d].parent.value};
    assert Implicits(u.devices[d]) == Implicits(w.devices[d]);
    assert Spent(ext, left, w.devices[d]) by {
      forall y: Id
        ensures left[y] + Tokens(w.devices[d], y) == ext[y]
      {
        assert left[y] + Tokens(u.devices[d], y) == ext[y];
      }
    }
    LedgerAfter(w, u, v, d, app, ext, left, s);
    DeviceIdBelow(w, v, app, ext, s, d);
    forall e | e in w.devices && e != d
      ensures e in v.g.nodes ==> DeviceOk(v, e, {})
      ensures e !in v.g.nodes ==> NoPointers(v.devices[e]) && e < v.g.next
    {
      DeviceIdBelow(w, v, app, ext, s, e);
      if e in w.g.nodes {
        OtherDevicesOk(w, u, v, d, app, ext, left, s, e);
      }
    }
    if d in v.g.nodes {
      UnderModuleLater(w, v, s, d);
      SlotsLength(w.g, v.g, s, d);
      FrameHolders(w.g, v.g, s, d);
    }
  }
}
