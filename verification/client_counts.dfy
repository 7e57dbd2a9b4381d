/** The counts that AddRef and Release report to the application. */
module ClientCounts {
  import opened Options
  import opened ObjectGraph
  import opened GraphCounting
  import opened GraphDrops
  import opened ObjectOps
  import opened DeviceLifecycle
  import opened DeviceTeardown
  import opened DeviceWorld
  import opened DeviceRelease
  import opened DeviceDeath
  import opened ClientOps
  import opened ClientObjects

  // ---------------------------------------------------------------------------------------------
  // What nobody references stays unreferenced
  // ---------------------------------------------------------------------------------------------

  /** `v` follows `w`: the same or fewer references of the application, and devices as they were or without their
      implicit objects. */
  ghost predicate Fewer(w: World, v: World, app: multiset<Id>, app': multiset<Id>) {
    && app' <= app && v.devices.Keys == w.devices.Keys && v.g.next == w.g.next
    && (forall e | e in w.devices :: v.devices[e] == w.devices[e] || v.devices[e].destroying)
    && (forall j | j in v.g.nodes :: j in w.g.nodes && v.g.nodes[j].parent == w.g.nodes[j].parent)
  }

  lemma NoMoreImplicit(w: World, v: World, app: multiset<Id>, ext: multiset<Id>, app': multiset<Id>, left: multiset<Id>, j: Id)
    requires WInv(w, app, ext, {}) && WInv(v, app', left, {}) && Fewer(w, v, app, app') && j in v.g.nodes
    ensures Imp(v, j) <= Imp(w, j)
  {
    var p := v.g.nodes[j].parent;
    if p.Some? && p.value in v.devices && v.devices[p.value].destroying {
      if p.value in v.g.nodes {
        assert DeviceOk(v, p.value, {});
      }
    }
  }

  lemma {:induction false} NothingRevived(w: World, v: World, app: multiset<Id>, ext: multiset<Id>,
                                          app': multiset<Id>, left: multiset<Id>, j: Id)
    requires WInv(w, app, ext, {}) && WInv(v, app', left, {}) && Fewer(w, v, app, app')
    requires j in v.g.nodes && w.g.nodes[j].iface == 0
    ensures v.g.nodes[j].iface == 0
    decreases w.g.next - j
  {
    hide WInv, LinksOk;
    NoMoreImplicit(w, v, app, ext, app', left, j);
    CountsOf(w, app, ext, j);
    CountsOf(v, app', left, j);
    forall c | c in Kids(v.g.nodes, j)
      ensures false
    {
      ChildIsYounger(w, app, ext, c);
      assert c in Kids(w.g.nodes, j) || w.g.nodes[c].iface == 0;
      NothingRevived(w, v, app, ext, app', left, c);
    }
    assert Kids(v.g.nodes, j) == {};
  }

  lemma CountsOf(w: World, app: multiset<Id>, ext: multiset<Id>, j: Id)
    requires WInv(w, app, ext, {}) && j in w.g.nodes
    ensures w.g.nodes[j].iface == app[j] + Imp(w, j) + |Kids(w.g.nodes, j)|
  {
    assert CountsOk(w.g.nodes, ext, multiset{}, j);
    assert ext[j] == app[j] + Imp(w, j);
  }

  lemma ChildIsYounger(w: World, app: multiset<Id>, ext: multiset<Id>, c: Id)
    requires WInv(w, app, ext, {}) && c in w.g.nodes
    ensures c < w.g.next
    ensures w.g.nodes[c].parent.Some? ==> w.g.nodes[c].parent.value < c
  {
    assert LinksOk(w.g.nodes, c);
    IdsBelowNext(w.g, c);
  }

  // ---------------------------------------------------------------------------------------------
  // Release
  // ---------------------------------------------------------------------------------------------

  /** What an object shows: a device hides its implicit references. */
  function Showing(w: World, i: Id): int
    requires i in w.g.nodes
  {
    w.g.nodes[i].iface - (if i in w.devices then w.devices[i].implicitRefCnt else 0)
  }

  lemma AfterRelease(w: World, app: multiset<Id>, ext: multiset<Id>, i: Id) returns (left: multiset<Id>)
    requires WInv(w, app, ext, {}) && i in app
    ensures WInv(Release(w, i), app - multiset{i}, left, {})
    ensures Fewer(w, Release(w, i), app, app - multiset{i})
    ensures forall e | e in w.devices && TornBy(w, i) != Some(e) :: Release(w, i).devices[e] == w.devices[e]
  {
    hide WInv, Release, Frame, SameBut;
    left := ReleaseKeepsWInv(w, app, ext, i);
    var s :| Frame(w.g, Release(w, i).g, s);
    FrameParents(w.g, Release(w, i).g, s);
  }

  lemma FrameParents(g: Graph, h: Graph, s: set<Id>)
    requires Frame(g, h, s)
    ensures h.next == g.next && forall j | j in h.nodes :: j in g.nodes && h.nodes[j].parent == g.nodes[j].parent
  {
    assert forall j | j in h.nodes :: SameBut(g.nodes[j], h.nodes[j]);
  }

  /** The last reference of an object: if it is still there afterwards, bound somewhere, it shows zero. */
  lemma LastReferenceShown(w: World, app: multiset<Id>, ext: multiset<Id>, i: Id)
    requires WInv(w, app, ext, {}) && i in app && i !in w.devices && i in w.g.nodes && w.g.nodes[i].iface == 1
    requires i in Release(w, i).g.nodes
    ensures Release(w, i).g.nodes[i].iface == 0
  {
    hide WInv, DecInterface, Release, Frame;
    var v, ext1 := DecKeepsWInv(w, app, ext, i);
    var p := w.g.nodes[i].parent;
    var last := app - multiset{i} + ParentToken(w.g, i);
    LastIsDecremented(w, app, ext, i, v);
    if p.Some? {
      ChildIsYounger(w, app, ext, i);
      ReleaseGoesUp(w, i, v);
      var left := AfterRelease(v, last, ext1, p.value);
      NothingRevived(v, Release(v, p.value), last, ext1, last - multiset{p.value}, left, i);
    } else {
      ReleaseGoesUp(w, i, v);
    }
  }

  lemma ReleaseGoesUp(w: World, i: Id, v: World)
    requires i in w.g.nodes && i !in w.devices && w.g.nodes[i].iface == 1 && w.g.nodes[i].obj > 0
    requires v == w.(g := DecInterface(w.g, i))
    requires w.g.nodes[i].parent.Some? ==> w.g.nodes[i].parent.value < i
    ensures Release(w, i) == if w.g.nodes[i].parent.Some? then Release(v, w.g.nodes[i].parent.value) else v
  {
    hide DecInterface;
  }

  lemma LastIsDecremented(w: World, app: multiset<Id>, ext: multiset<Id>, i: Id, v: World)
    requires WInv(w, app, ext, {}) && i in app && i in w.g.nodes && w.g.nodes[i].iface == 1 <= w.g.nodes[i].obj
    requires v == w.(g := DecInterface(w.g, i))
    ensures i in v.g.nodes ==> v.g.nodes[i].iface == 0
  {
    DecInterfaceKeepsInv(w.g, ext, i);
  }

  /** What Release returns, read off the state it leaves: nothing if it destroyed the object or started the
      device's teardown, the references the application sees on a device, and the interface count of anything
      else. */
  lemma ReleaseShows(w: World, app: multiset<Id>, ext: multiset<Id>, i: Id)
    requires WInv(w, app, ext, {}) && i in app
    ensures var v, shown := Release(w, i), Shown(w, i);
            && (i !in v.g.nodes || TornBy(w, i) == Some(i) ==> shown == 0)
            && (i in v.g.nodes && TornBy(w, i) != Some(i) ==>
                  && (i in v.devices ==>
                        shown == if v.g.nodes[i].iface < v.devices[i].implicitRefCnt then 0
                                 else v.g.nodes[i].iface - v.devices[i].implicitRefCnt)
                  && (i !in v.devices ==> shown == v.g.nodes[i].iface))
  {
    hide WInv, Frame, Release, BaseRelease;
    var v, ext1 := DecKeepsWInv(w, app, ext, i);
    if w.g.nodes[i].iface == 1 {
      OnlyReference(w, app, ext, i);
      if i !in w.devices && i in Release(w, i).g.nodes {
        LastReferenceShown(w, app, ext, i);
      }
    } else {
      MoreReferences(w, i, v);
    }
  }

  /** With more references left, the release only lowers the count, unless it starts the teardown. */
  lemma MoreReferences(w: World, i: Id, v: World)
    requires i in w.g.nodes && 1 < w.g.nodes[i].iface <= w.g.nodes[i].obj && v == w.(g := DecInterface(w.g, i))
    ensures BaseRelease(w, i) == v && i in v.g.nodes && v.g.nodes[i].iface == w.g.nodes[i].iface - 1
    ensures TornBy(w, i) != Some(i) ==> Release(w, i) == v
    ensures TornBy(w, i) == Some(i) ==> i in w.devices && w.g.nodes[i].iface - 1 == w.devices[i].implicitRefCnt
    ensures Shown(w, i) == if i !in w.devices then w.g.nodes[i].iface - 1
                           else if w.g.nodes[i].iface - 1 > w.devices[i].implicitRefCnt
                           then w.g.nodes[i].iface - 1 - w.devices[i].implicitRefCnt else 0
  {
  }

  /** On the last reference nothing is left to show. A device has that only after its own teardown, and then it is
      deleted. */
  lemma OnlyReference(w: World, app: multiset<Id>, ext: multiset<Id>, i: Id)
    requires WInv(w, app, ext, {}) && i in app && i in w.g.nodes && w.g.nodes[i].iface == 1 <= w.g.nodes[i].obj
    ensures Shown(w, i) == 0
    ensures i in w.devices ==> i !in Release(w, i).g.nodes
    ensures TornBy(w, i) != Some(i) && Release(w, i).devices.Keys == w.devices.Keys
  {
    hide WInv;
    if i in w.devices {
      ReleaseReadsDevice(w, app, ext, i);
      if !w.devices[i].destroying {
        FullDeviceCounts(w, app, ext, i);
        CardinalitySubset(Implicits(w.devices[i]), Kids(w.g.nodes, i));
      }
    } else if TornBy(w, i).Some? {
      TornByIsDevice(w, i);
    }
  }

  /** Release of an object that nobody references, though a slot may still bind it: nothing happens. */
  lemma ReleaseUnreferenced(w: World, app: multiset<Id>, ext: multiset<Id>, i: Id)
    requires WInv(w, app, ext, {}) && i in w.g.nodes && w.g.nodes[i].iface == 0
    ensures Release(w, i) == w && Shown(w, i) == 0
  {
    if i in w.devices && !w.devices[i].destroying {
      FullDeviceCounts(w, app, ext, i);
    }
  }

  // ---------------------------------------------------------------------------------------------
  // AddRef and Release
  // ---------------------------------------------------------------------------------------------

  /** AddRef reports what the object shows afterwards, one more than before; the Release that follows undoes it
      and shows one less again. */
  lemma AddRefThenRelease(w: World, app: multiset<Id>, ext: multiset<Id>, i: Id)
    requires WInv(w, app, ext, {}) && i in app
    ensures Revivable(w.g, i)
    ensures var v := w.(g := AddRef(w.g, i));
            && i in v.g.nodes && Showing(v, i) == Showing(w, i) + 1 >= 1
            && Release(v, i) == w
            && Shown(v, i) == Showing(w, i) == Showing(v, i) - 1
  {
    hide WInv;
    assert i in ext && ext[i] == app[i] + Imp(w, i) by {
      AppIsInExt(w, app, ext, i);
    }
    HeldIsShown(w, app, ext, i);
    assert AddRef(w.g, i) == IncBoth(w.g, i);
    var v := w.(g := AddRef(w.g, i));
    MoreReferences(v, i, w);
  }

  lemma AppIsInExt(w: World, app: multiset<Id>, ext: multiset<Id>, i: Id)
    requires WInv(w, app, ext, {}) && i in app
    ensures i in ext && ext[i] == app[i] + Imp(w, i)
  {
    assert ext[i] == app[i] + Imp(w, i);
  }

  /** What the application references shows at least one reference. */
  lemma HeldIsShown(w: World, app: multiset<Id>, ext: multiset<Id>, i: Id)
    requires WInv(w, app, ext, {}) && i in app
    ensures i in w.g.nodes && 0 < w.g.nodes[i].iface <= w.g.nodes[i].obj && Showing(w, i) >= 1
  {
    AppIsInExt(w, app, ext, i);
    CountsBoundOf(w.g, ext, i);
    if i in w.devices {
      if w.devices[i].destroying {
        assert DeviceOk(w, i, {});
      } else {
        FullDeviceCounts(w, app, ext, i);
        CardinalitySubset(Implicits(w.devices[i]), Kids(w.g.nodes, i));
      }
    }
  }
}
