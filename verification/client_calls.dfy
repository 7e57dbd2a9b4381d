/** What the application's calls leave behind: objects, members, references and bindings. */
module ClientCalls {
  import opened Options
  import opened ObjectGraph
  import opened GraphCounting
  import opened GraphDrops
  import opened ObjectOps
  import opened DeviceLifecycle
  import opened DeviceTeardown
  import opened DeviceWorld
  import opened DeviceRelease
  import opened DeviceReset
  import opened ClientOps
  import opened ClientRuns

  // ---------------------------------------------------------------------------------------------
  // Bindings
  // ---------------------------------------------------------------------------------------------

  /** Alive afterwards is exactly what has interface references or is still bound somewhere. */
  ghost predicate UnboundGone(g: Graph, h: Graph) {
    forall j | j in g.nodes :: j in h.nodes <==> g.nodes[j].iface > 0 || Holders(h.nodes, j) != {}
  }

  lemma BoundOrGone(g: Graph, h: Graph, ext: multiset<Id>)
    requires Inv(h, ext, multiset{}) && (forall j | j in g.nodes && g.nodes[j].iface > 0 :: j in h.nodes)
    requires forall j | j in h.nodes :: j in g.nodes && h.nodes[j].iface == g.nodes[j].iface
    ensures UnboundGone(g, h)
  {
    forall j | j in g.nodes
      ensures j in h.nodes <==> g.nodes[j].iface > 0 || Holders(h.nodes, j) != {}
    {
      if j in h.nodes {
        assert CountsOk(h.nodes, ext, multiset{}, j);
      }
      if p :| p in Holders(h.nodes, j) {
        assert LinksOk(h.nodes, p.0);
      }
    }
  }

  /** What a call stores, and where: an object is bound through its counter, which for a member is its
      container's. */
  ghost function Value(g: Graph, op: Op): Option<Id>
    requires op.CopySlot? ==> HasSlot(g, op.o2, op.k2)
  {
    match op
    case BindSlot(_, _, t) => if t in g.owner then Some(g.owner[t]) else Some(t)
    case CopySlot(_, _, o2, k2) => g.nodes[o2].slots[k2]
    case _ => None
  }

  /** Binding, copying and clearing a slot store what they should in that slot and in no other, change nothing else
      but object counts, and let die exactly what is neither referenced nor bound any more. */
  lemma SlotCalls(c: Client, ext: multiset<Id>, op: Op)
    requires Good(c, ext) && Allowed(c, op) && (op.BindSlot? || op.CopySlot? || op.ClearSlot?)
    ensures var d := Step(c, op);
            && d.app == c.app && d.w == c.w.(g := d.w.g)
            && Rebound(c.w.g, d.w.g, op.o, op.k, Value(c.w.g, op))
            && UnboundGone(c.w.g, d.w.g)
            && (op.o in d.w.g.nodes ==> d.w.g.nodes[op.o].slots[op.k] == Value(c.w.g, op))
  {
    hide Bindable, MoveAssign, CopyAssign, Reset, Inv, Rebound;
    var g := c.w.g;
    SlotSteps(c, ext, op);
    match op {
      case BindSlot(o, k, t) =>
        TargetIsLive(c, ext, t);
        MoveAssignRebinds(g, ext, o, k, Target(g, t));
      case CopySlot(o, k, o2, k2) => CopyAssignRebinds(g, ext, o, k, o2, k2);
      case ClearSlot(o, k) => UnbindRebinds(g, ext, o, k);
    }
    ReboundIs(g, Step(c, op).w.g, op.o, op.k, Value(g, op));
    BoundOrGone(g, Step(c, op).w.g, ext);
  }

  lemma ReboundIs(g: Graph, h: Graph, o: Id, k: nat, t: Option<Id>)
    requires Rebound(g, h, o, k, t) && HasSlot(g, o, k)
    ensures o in h.nodes ==> HasSlot(h, o, k) && h.nodes[o].slots[k] == t
    ensures forall j | j in h.nodes :: j in g.nodes && h.nodes[j].iface == g.nodes[j].iface
  {
  }

  // ---------------------------------------------------------------------------------------------
  // Construction
  // ---------------------------------------------------------------------------------------------

  /** A new object `x` with one reference, under `parent`, with so many empty slots and places for members. */
  ghost predicate IsNew(h: Graph, x: Id, parent: Option<Id>, slots: nat, children: nat) {
    && x in h.nodes && h.nodes[x].parent == parent && h.nodes[x].iface == 1 && h.nodes[x].obj == 1
    && |h.nodes[x].slots| == slots && (forall k | 0 <= k < slots :: h.nodes[x].slots[k].None?)
    && |h.nodes[x].children| == children && (forall k | 0 <= k < children :: h.nodes[x].children[k].None?)
  }

  /** What was there before is there, unchanged but for counts, which only grow. */
  ghost predicate OthersStay(g: Graph, h: Graph) {
    && h.log == g.log
    && (forall j | j in g.nodes ::
          && j in h.nodes && h.nodes[j].iface >= g.nodes[j].iface && h.nodes[j].obj >= g.nodes[j].obj
          && h.nodes[j] == g.nodes[j].(iface := h.nodes[j].iface, obj := h.nodes[j].obj))
  }

  /** The application gets a new object, with one reference, under the object asked for or, if that is a member,
      under its container. */
  lemma ObjectCalls(c: Client, ext: multiset<Id>, op: Op)
    requires Good(c, ext) && Allowed(c, op) && (op.CreateModule? || op.CreateObject?)
    ensures var d, x := Step(c, op), c.w.g.next;
            && d.app == c.app + multiset{x} && d.w == c.w.(g := d.w.g) && OthersStay(c.w.g, d.w.g)
            && d.w.g.nodes.Keys == c.w.g.nodes.Keys + {x} && d.w.g.owner == c.w.g.owner
            && (op.CreateModule? ==> IsNew(d.w.g, x, None, 0, 0))
            && (op.CreateObject? ==>
                  IsNew(d.w.g, x, Some(if op.parent in c.w.g.owner then c.w.g.owner[op.parent] else op.parent), op.slots, op.children))
  {
    hide WInv, Create, AddRef, TeardownsOk;
    var g := c.w.g;
    match op
    case CreateModule =>
      var _ := CreateStep(c, ext, None, 0, 0);
      GoodNext(c, ext);
      CreateIs(g, None, 0, 0);
    case CreateObject(parent, slots, children) =>
      var p := Target(g, parent);
      var _ := CreateStep(c, ext, Some(p), slots, children);
      CreateIs(g, Some(p), slots, children);
      AddRefOnlyCounts(g, p);
  }

  lemma GoodNext(c: Client, ext: multiset<Id>)
    requires Good(c, ext)
    ensures c.w.g.next !in c.w.g.nodes
  {
    NewIdIsUnused(c.w.g, ext);
  }

  lemma {:induction false} AddRefOnlyCounts(g: Graph, i: Id)
    requires Revivable(g, i)
    ensures OthersStay(g, AddRef(g, i)) && AddRef(g, i).nodes.Keys == g.nodes.Keys
    ensures AddRef(g, i).owner == g.owner && AddRef(g, i).next == g.next
    ensures AddRef(g, i).nodes[i].iface == g.nodes[i].iface + 1 && AddRef(g, i).nodes[i].obj == g.nodes[i].obj + 1
    ensures g.nodes[i].iface > 0 || g.nodes[i].parent.None? ==> forall j | j in g.nodes && j != i :: AddRef(g, i).nodes[j] == g.nodes[j]
    ensures g.nodes[i].iface == 0 && g.nodes[i].parent.Some? ==>
              var p := g.nodes[i].parent.value; p in g.nodes && AddRef(g, i).nodes[p].iface == g.nodes[p].iface + 1
    decreases i
  {
    AddRefShape(g, i);
    if g.nodes[i].iface == 0 && g.nodes[i].parent.Some? {
      var p := g.nodes[i].parent.value;
      RevivableAfterInc(g, p, i);
      AddRefOnlyCounts(IncBoth(g, i), p);
      AddRefShape(IncBoth(g, i), p);
    }
  }

  /** A member takes its place in the container and gives the application a reference on the container. */
  lemma MemberCall(c: Client, ext: multiset<Id>, container: Id, at: nat)
    requires Good(c, ext) && Allowed(c, CreateChild(container, at))
    ensures var d, x := Step(c, CreateChild(container, at)), c.w.g.next;
            && d.app == c.app + multiset{container} && d.w == c.w.(g := d.w.g)
            && d.w.g.nodes.Keys == c.w.g.nodes.Keys && d.w.g.owner == c.w.g.owner[x := container]
            && d.w.g.nodes[container].children == c.w.g.nodes[container].children[at := Some(x)]
            && d.w.g.nodes[container].iface == c.w.g.nodes[container].iface + 1
            && (forall j | j in c.w.g.nodes && j != container :: d.w.g.nodes[j].children == c.w.g.nodes[j].children)
            && (forall j | j in c.w.g.nodes :: d.w.g.nodes[j].slots == c.w.g.nodes[j].slots)
  {
    AddRefOnlyCounts(c.w.g, container);
  }

  /** AddRef gives the application one reference more on the object's counter and raises both its counts by one. An
      object without references that has a parent references it again; otherwise no other object is touched. */
  lemma AddRefCall(c: Client, ext: multiset<Id>, i: Id)
    requires Good(c, ext) && Allowed(c, TakeRef(i))
    ensures var d, t := Step(c, TakeRef(i)), if i in c.w.g.owner then c.w.g.owner[i] else i;
            && d.app == c.app + multiset{t} && d.w == c.w.(g := d.w.g)
            && t in c.w.g.nodes && d.w.g.nodes.Keys == c.w.g.nodes.Keys && OthersStay(c.w.g, d.w.g)
            && d.w.g.nodes[t].iface == c.w.g.nodes[t].iface + 1 && d.w.g.nodes[t].obj == c.w.g.nodes[t].obj + 1
            && (c.w.g.nodes[t].iface == 0 && c.w.g.nodes[t].parent.Some? ==>
                  var p := c.w.g.nodes[t].parent.value;
                  p in c.w.g.nodes && d.w.g.nodes[p].iface == c.w.g.nodes[p].iface + 1)
            && (c.w.g.nodes[t].iface > 0 || c.w.g.nodes[t].parent.None? ==>
                  forall j | j in c.w.g.nodes && j != t :: d.w.g.nodes[j] == c.w.g.nodes[j])
  {
    AddRefOnlyCounts(c.w.g, Target(c.w.g, i));
  }
}
