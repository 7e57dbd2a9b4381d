/** The client's reference-counted objects as one graph. */
module ObjectGraph {
  import opened Options

  // Every standalone object owns one fused counter (`iface` and `obj`), an optional parent, the D3DAutoPtr slots
  // that live inside it, and the vector of member objects it contains. A member has no counter of its own: it
  // shares its container's, so it appears only in `owner`. Ids are handed out in increasing order, which makes
  // every parent older than its children.

  type Id = nat

  datatype Node = Node(
    parent: Option<Id>,
    iface: nat,                  // public interface count
    obj: nat,                    // object count: interface references plus internal ones
    slots: seq<Option<Id>>,      // D3DAutoPtr fields, each naming the counter it holds
    children: seq<Option<Id>>)   // m_children of a container

  datatype Graph = Graph(
    nodes: map<Id, Node>,        // live standalone objects
    owner: map<Id, Id>,          // live members, each with its container
    log: seq<Id>,                // ids in the order their onDestroy ran
    next: Id)                    // the next id to hand out

  /** The object whose counter and deleter object `i` refers to: its container's if it is a member, else its own.
      AddRef, Release, incRef and decRef on a member all end up there. */
  function Target(g: Graph, i: Id): Id {
    if i in g.owner then g.owner[i] else i
  }

  /** The graph after one pointer was dropped, and the pointers still to be dropped. */
  datatype Dropped = Dropped(graph: Graph, pend: seq<Id>)

  function Somes(s: seq<Option<Id>>): seq<Id> {
    if s == [] then []
    else (if s[0].Some? then [s[0].value] else []) + Somes(s[1..])
  }

  /** The slots, named by owner and position, that hold `t`. */
  function Holders(nodes: map<Id, Node>, t: Id): set<(Id, nat)> {
    set i, k: nat | i in nodes && k < |nodes[i].slots| && nodes[i].slots[k] == Some(t) :: (i, k)
  }

  /** The children of `p` that currently keep a reference on it. */
  function Kids(nodes: map<Id, Node>, p: Id): set<Id> {
    set c | c in nodes && nodes[c].parent == Some(p) && nodes[c].iface > 0
  }

  // ---------------------------------------------------------------------------------------------
  // Operations
  // ---------------------------------------------------------------------------------------------

  /** D3DBase::destroy for an object and, through the container's destructor, for each of its members. */
  function Erase(g: Graph, t: Id): Graph
    requires t in g.nodes
  {
    Graph(
      g.nodes - {t},
      map m | m in g.owner && g.owner[m] != t :: g.owner[m],
      g.log + [t] + Somes(g.nodes[t].children),
      g.next)
  }

  /** decRef on the object count of `pend[0]`. An object whose count reaches zero is destroyed, and the
      pointers it held are to be dropped before the rest of `pend`. */
  function DropOne(g: Graph, pend: seq<Id>): (r: Dropped)
    requires pend != []
    ensures |r.graph.nodes| < |g.nodes| || (|r.graph.nodes| == |g.nodes| && |r.pend| < |pend|)
  {
    var t, rest := pend[0], pend[1..];
    if t !in g.nodes || g.nodes[t].obj == 0 then Dropped(g, rest)  // a dangling pointer: ruled out by Inv
    else if g.nodes[t].obj > 1 then
      assert g.nodes.Keys == g.nodes[t := g.nodes[t]].Keys;
      Dropped(g.(nodes := g.nodes[t := g.nodes[t].(obj := g.nodes[t].obj - 1)]), rest)
    else
      assert g.nodes.Keys == (g.nodes - {t}).Keys + {t};
      Dropped(Erase(g, t), Somes(g.nodes[t].slots) + rest)
  }

  /** decRef on the object counts of all of `pend`, with every destruction this leads to. */
  function DropAll(g: Graph, pend: seq<Id>): Graph
    decreases |g.nodes|, |pend|
  {
    if pend == [] then g
    else
      var Dropped(h, left) := DropOne(g, pend);
      DropAll(h, left)
  }

  // ---------------------------------------------------------------------------------------------
  // Invariant
  // ---------------------------------------------------------------------------------------------

  /** What the counts of object `i` mean. `ext` holds one token per interface reference taken from outside
      the graph, `pend` one per pointer already removed from its slot but not yet counted down. */
  ghost predicate CountsOk(nodes: map<Id, Node>, ext: multiset<Id>, pend: multiset<Id>, i: Id)
    requires i in nodes
  {
    && nodes[i].iface == ext[i] + |Kids(nodes, i)|
    && nodes[i].obj == nodes[i].iface + |Holders(nodes, i)| + pend[i]
    && nodes[i].obj > 0
  }

  /** Object `i` is younger than its parent, which is alive for as long as `i` references it, and every
      D3DAutoPtr in `i` points at a live object. */
  ghost predicate LinksOk(nodes: map<Id, Node>, i: Id)
    requires i in nodes
  {
    && (nodes[i].parent.Some? ==> nodes[i].parent.value < i)
    && (nodes[i].parent.Some? && nodes[i].iface > 0 ==> nodes[i].parent.value in nodes)
    && (forall k {:trigger nodes[i].slots[k]} | 0 <= k < |nodes[i].slots| ::
          nodes[i].slots[k].Some? ==> nodes[i].slots[k].value in nodes)
  }

  ghost predicate CountInv(nodes: map<Id, Node>, ext: multiset<Id>, pend: multiset<Id>) {
    && (forall i {:trigger CountsOk(nodes, ext, pend, i)} | i in nodes ::
          CountsOk(nodes, ext, pend, i))
    && (forall i {:trigger LinksOk(nodes, i)} | i in nodes ::
          LinksOk(nodes, i))
    && (forall x | x in ext :: x in nodes)
    && (forall x | x in pend :: x in nodes)
  }

  /** The child vector of container `i` names distinct members, all of them owned by `i`. */
  ghost predicate ChildrenOk(g: Graph, i: Id)
    requires i in g.nodes
  {
    var cs := g.nodes[i].children;
    && (forall k {:trigger cs[k]} | 0 <= k < |cs| :: cs[k].Some? ==> cs[k].value in g.owner && g.owner[cs[k].value] == i)
    && (forall j, k {:trigger cs[j], cs[k]} | 0 <= j < k < |cs| :: cs[j].Some? ==> cs[j] != cs[k])
  }

  /** Member `m` has a live container, which lists it. */
  ghost predicate OwnerOk(g: Graph, m: Id)
    requires m in g.owner
  {
    m !in g.nodes && g.owner[m] in g.nodes && Some(m) in g.nodes[g.owner[m]].children
  }

  ghost predicate MemberInv(g: Graph) {
    && (forall i {:trigger ChildrenOk(g, i)} | i in g.nodes ::
          ChildrenOk(g, i))
    && (forall m {:trigger OwnerOk(g, m)} | m in g.owner ::
          OwnerOk(g, m))
  }

  ghost predicate Distinct(s: seq<Id>) {
    forall a, b | 0 <= a < b < |s| :: s[a] != s[b]
  }

  predicate Alive(g: Graph, x: Id) {
    x in g.nodes || x in g.owner
  }

  /** Every id ever handed out is either alive or was destroyed exactly once. */
  ghost predicate LogInv(g: Graph) {
    && Distinct(g.log)
    && (forall x: Id {:trigger Alive(g, x)} ::
          Alive(g, x) ==> x < g.next && x !in g.log)
    && (forall x: Id {:trigger x in g.log} ::
          x in g.log ==> x < g.next)
    && (forall x: Id {:trigger Alive(g, x)} | x < g.next ::
          Alive(g, x) || x in g.log)
  }

  ghost predicate Inv(g: Graph, ext: multiset<Id>, pend: multiset<Id>) {
    && CountInv(g.nodes, ext, pend)
    && MemberInv(g)
    && LogInv(g)
  }
}
