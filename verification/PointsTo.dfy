/** The points-to graph as a table of nodes: forwarding, adjusted offsets and
    the facts every representative keeps. */
module PointsTo {
  import opened Layout

  datatype Option<+T> = None | Some(value: T)

  /** The type half of a link key.  Without type awareness every key is Unknown. */
  datatype FieldTy = Unknown | Omni | Of(id: nat)

  datatype Field = Field(off: nat, ty: FieldTy)

  function Omnified(f: Field): Field { Field(f.off, Omni) }

  /** An offset into a memory object. */
  datatype Cell = Cell(node: nat, off: nat)

  function Shift(c: Cell, k: nat): Cell { Cell(c.node, c.off + k) }

  datatype Access = Access(off: nat, ty: Ty)

  /** Node annotations that a join combines by disjunction. */
  datatype Mark =
    | Shadow | Alloca | Heap | Global | ExternFunc | ExternGlobal | Opaque | Incomplete
    | Modified | Read | External | IntToPtr | PtrToInt | VaStart | Dead | NullAlloc

  datatype Site = Site(id: nat, stack: bool)

  datatype Node = Node(
    fwd: Option<Cell>,
    links: map<Field, Cell>,
    types: set<Access>,
    size: nat,
    isArray: bool,
    isCollapsed: bool,
    isForeign: bool,
    marks: set<Mark>,
    sites: set<Site>)

  /** A node as the allocator makes it. */
  const BLANK := Node(None, map[], {}, 0, false, false, false, {}, {})

  // ---------------------------------------------------------------- forwarding

  ghost predicate IsRank(ns: seq<Node>, rank: seq<nat>) {
    && |rank| == |ns|
    && forall n: nat :: n < |ns| && ns[n].fwd.Some? ==>
         ns[n].fwd.value.node < |ns| && rank[ns[n].fwd.value.node] < rank[n]
  }

  /** Following forwarding cells always ends. */
  ghost predicate Acyclic(ns: seq<Node>) {
    exists rank :: IsRank(ns, rank)
  }

  ghost function Rank(ns: seq<Node>): (rank: seq<nat>)
    requires Acyclic(ns)
    ensures IsRank(ns, rank)
  {
    var rank :| IsRank(ns, rank);
    rank
  }

  /** The representative of `n` and the offset of `n` in it. */
  function Resolve(ns: seq<Node>, n: nat): (c: Cell)
    requires Acyclic(ns) && n < |ns|
    ensures c.node < |ns| && ns[c.node].fwd.None?
    ensures ns[n].fwd.None? ==> c == Cell(n, 0)
    decreases Rank(ns)[n]
  {
    match ns[n].fwd
    case None => Cell(n, 0)
    case Some(c) => Shift(Resolve(ns, c.node), c.off)
  }

  predicate IsRep(ns: seq<Node>, n: nat) {
    n < |ns| && ns[n].fwd.None?
  }

  /** Collapsed nodes only have offset 0; array offsets wrap at the stride. */
  function Adjust(nd: Node, k: nat): (r: nat)
  {
    if nd.isCollapsed then 0
    else if nd.isArray && nd.size > 0 then k % nd.size
    else k
  }

  /** The cell a client sees: the representative and the adjusted offset. */
  function Canon(ns: seq<Node>, c: Cell): Cell
    requires Acyclic(ns) && c.node < |ns|
  {
    var r := Resolve(ns, c.node);
    Cell(r.node, Adjust(ns[r.node], r.off + c.off))
  }

  ghost predicate Same(ns: seq<Node>, c: Cell, d: Cell)
    requires Acyclic(ns)
  {
    c.node < |ns| && d.node < |ns| && Canon(ns, c) == Canon(ns, d)
  }

  // ---------------------------------------------------------------- links

  /** The link a key finds: its own, else the omni link at the same offset. */
  function Lookup(links: map<Field, Cell>, f: Field): Option<Cell> {
    if f in links then Some(links[f])
    else if Omnified(f) in links then Some(links[Omnified(f)])
    else None
  }

  /** An omni link is the only link at its offset. */
  predicate OmniAlone(links: map<Field, Cell>) {
    forall f | f in links && Omnified(f) in links :: f.ty == Omni
  }

  /** Field `f` of the object that begins at node `n` leads to a cell equal to `c`. */
  ghost predicate HasEdge(ns: seq<Node>, n: nat, f: Field, c: Cell)
    requires Acyclic(ns) && n < |ns|
  {
    var r := Resolve(ns, n);
    var x := Lookup(ns[r.node].links, Field(Adjust(ns[r.node], r.off + f.off), f.ty));
    x.Some? && Same(ns, x.value, c)
  }

  /** Some access of positive size was recorded at offset `k`. */
  predicate Typed(nd: Node, k: nat) {
    exists a | a in nd.types :: a.off == k && a.ty.Prim? && a.ty.bytes > 0
  }

  // ---------------------------------------------------------------- well-formedness

  ghost predicate SoundNode(nd: Node) {
    && (nd.isCollapsed ==> nd.size == 1 && !nd.isArray)
    && (nd.isArray ==> nd.size > 0)
    && (!nd.isCollapsed ==> forall a | a in nd.types ::
          Primitive(a.ty) && Adjust(nd, a.off) == a.off && (a.ty.Prim? ==> a.off + a.ty.bytes <= nd.size))
    && (forall f | f in nd.links ::
          Adjust(nd, f.off) == f.off && (nd.isCollapsed || Typed(nd, f.off)))
    && OmniAlone(nd.links)
  }

  ghost predicate Closed(ns: seq<Node>) {
    forall n: nat, f | n < |ns| && f in ns[n].links :: ns[n].links[f].node < |ns|
  }

  ghost predicate Valid(ns: seq<Node>) {
    && Acyclic(ns)
    && Closed(ns)
    && forall n: nat | IsRep(ns, n) :: SoundNode(ns[n])
  }
}
