/** Alias queries on a finished graph. */
module Alias {
  import opened Layout
  import opened PointsTo
  import opened Steps
  import opened EngineFacts
  import opened MergeFacts

  /** The types recorded at offset `o`. */
  function TypesAt(nd: Node, o: nat): set<Ty> {
    set a | a in nd.types && a.off == o :: a.ty
  }

  ghost predicate SameSizes(types: set<Ty>) {
    forall t, u | t in types && u in types :: SizeOf(t) == SizeOf(u)
  }

  /** The size all of `types` share, if they share one. */
  method SharedSize(types: set<Ty>) returns (r: Option<nat>)
    ensures r.Some? <==> SameSizes(types)
    ensures r.Some? ==> forall t | t in types :: SizeOf(t) == r.value
    ensures types == {} ==> r == Some(0)
  {
    if types == {} { return Some(0); }
    var first :| first in types;
    var size := SizeOf(first);
    var rest := types - {first};
    while rest != {}
      invariant rest <= types && forall t | t in types && t !in rest :: SizeOf(t) == size
    {
      var t :| t in rest;
      if SizeOf(t) != size { return None; }
      rest := rest - {t};
    }
    return Some(size);
  }

  /** Nodes whose memory may be reached in ways the graph does not show. */
  predicate Unsafe(nd: Node) {
    IntToPtr in nd.marks || PtrToInt in nd.marks || Incomplete in nd.marks || Opaque in nd.marks
  }

  /** Whether two cells may alias: always if one is missing or unsafe, never on different nodes, and on one
      node unless the types at the lower offset agree on a size that ends before the higher offset. */
  ghost predicate MayAlias(ns: seq<Node>, c: Option<Cell>, d: Option<Cell>)
    requires Valid(ns) && (c.Some? ==> c.value.node < |ns|) && (d.Some? ==> d.value.node < |ns|)
  {
    c.Some? && d.Some? ==>
      var e, f := Canon(ns, c.value), Canon(ns, d.value);
      || Unsafe(ns[e.node]) || Unsafe(ns[f.node])
      || (e.node == f.node &&
          (ns[e.node].isCollapsed || Near(ns[e.node], e.off, f.off) || Near(ns[e.node], f.off, e.off)))
  }

  /** Offset `low` is not above `high`, and nothing shows that what is accessed at `low` ends before `high`. */
  ghost predicate Near(nd: Node, low: nat, high: nat) {
    && low <= high
    && (SameSizes(TypesAt(nd, low)) ==> forall t | t in TypesAt(nd, low) :: low + SizeOf(t) >= high)
  }

  /** Whether cells `c` and `d` may alias. */
  method Query(ns: seq<Node>, c: Option<Cell>, d: Option<Cell>) returns (r: bool)
    requires Valid(ns) && (c.Some? ==> c.value.node < |ns|) && (d.Some? ==> d.value.node < |ns|)
    ensures r == MayAlias(ns, c, d)
  {
    if c.None? || d.None? { return true; }
    var e, f := Canon(ns, c.value), Canon(ns, d.value);
    var n, m := ns[e.node], ns[f.node];
    hide Valid, Canon, Unsafe, TypesAt, SameSizes;
    if Unsafe(n) || Unsafe(m) { return true; }
    if e.node != f.node { return false; }
    if n.isCollapsed { return true; }
    var o1, o2 := e.off, f.off;
    if o2 < o1 {
      o1, o2 := o2, o1;
    }
    if TypesAt(n, o1) == {} { return true; }
    var size := SharedSize(TypesAt(n, o1));
    if size.None? { return true; }
    r := o1 + size.value >= o2;
  }

  /** Access `a`, made in element `i` of the object, touches byte `k` of it. */
  predicate Touches(nd: Node, a: Access, i: nat, k: int) {
    && (i > 0 ==> nd.isArray)
    && i * nd.size + a.off <= k < i * nd.size + a.off + SizeOf(a.ty)
  }

  /** A cell that may not alias another of the same node is never accessed at a byte
      the other is accessed at, in whatever array elements the two accesses fall. */
  lemma NoAliasDisjoint(ns: seq<Node>, c: Cell, d: Cell, a: Access, b: Access, i: nat, j: nat, k: int)
    requires Valid(ns) && c.node < |ns| && d.node < |ns| && Canon(ns, c).node == Canon(ns, d).node
    requires !MayAlias(ns, Some(c), Some(d))
    requires var nd := ns[Canon(ns, c).node];
      && a in nd.types && a.off == Canon(ns, c).off
      && b in nd.types && b.off == Canon(ns, d).off
    ensures var nd := ns[Canon(ns, c).node]; !(Touches(nd, a, i, k) && Touches(nd, b, j, k))
  {
    var nd := ns[Canon(ns, c).node];
    SoundRep(ns, Canon(ns, c).node);
    var low, high := if a.off <= b.off then a else b, if a.off <= b.off then b else a;
    assert low.ty in TypesAt(nd, low.off);
    assert low.off + SizeOf(low.ty) < high.off;
    AccessFits(nd, a);
    AccessFits(nd, b);
    if Touches(nd, a, i, k) && Touches(nd, b, j, k) {
      Apart(nd.size, if a.off <= b.off then i else j, if a.off <= b.off then j else i, low.off, SizeOf(low.ty),
            high.off, SizeOf(high.ty), k);
    }
  }

  lemma AccessFits(nd: Node, a: Access)
    requires SoundNode(nd) && !nd.isCollapsed && a in nd.types
    ensures nd.isArray ==> a.off + SizeOf(a.ty) <= nd.size
  {
  }

  /** Accesses at separate offsets of a stride stay separate across elements. */
  lemma Apart(stride: nat, i: nat, j: nat, low: nat, lowSize: nat, high: nat, highSize: nat, k: int)
    requires low + lowSize <= high
    requires i == j || (low + lowSize <= stride && high + highSize <= stride)
    ensures !(i * stride + low <= k < i * stride + low + lowSize &&
              j * stride + high <= k < j * stride + high + highSize)
  {
    if i < j {
      MulMono(i + 1, j, stride);
    } else if j < i {
      MulMono(j + 1, i, stride);
    }
  }

  /** Some access is recorded at `low`, and all that are have one size and end before `high`. */
  ghost predicate EndsBefore(nd: Node, low: nat, high: nat) {
    exists a | a in nd.types && a.off == low ::
      && low + SizeOf(a.ty) < high
      && forall b | b in nd.types && b.off == low :: SizeOf(b.ty) == SizeOf(a.ty)
  }

  /** Two cells do not alias exactly when no node is flagged and the nodes differ, or the node has offsets and the
      accesses at the lower of the two end before the higher. */
  lemma NoAliasExactly(ns: seq<Node>, c: Cell, d: Cell)
    requires Valid(ns) && c.node < |ns| && d.node < |ns|
    ensures var e, f := Canon(ns, c), Canon(ns, d); var n, m := ns[e.node], ns[f.node];
      !MayAlias(ns, Some(c), Some(d)) <==>
        && {IntToPtr, PtrToInt, Incomplete, Opaque} !! n.marks + m.marks
        && (e.node == f.node ==>
              !n.isCollapsed && EndsBefore(n, if e.off <= f.off then e.off else f.off,
                                           if e.off <= f.off then f.off else e.off))
  {
    var e, f := Canon(ns, c), Canon(ns, d);
    FarOrNear(ns[e.node], e.off, f.off);
    FarOrNear(ns[e.node], f.off, e.off);
    hide Valid, Canon, Near, EndsBefore;
  }

  lemma FarOrNear(nd: Node, low: nat, high: nat)
    ensures Near(nd, low, high) <==> low <= high && !EndsBefore(nd, low, high)
    ensures EndsBefore(nd, low, high) ==> low < high
  {
    forall t | t in TypesAt(nd, low) ensures Access(low, t) in nd.types {
    }
    forall b | b in nd.types && b.off == low ensures b.ty in TypesAt(nd, low) {
    }
    if EndsBefore(nd, low, high) {
      var a :| a in nd.types && a.off == low && low + SizeOf(a.ty) < high &&
               forall b | b in nd.types && b.off == low :: SizeOf(b.ty) == SizeOf(a.ty);
      assert SameSizes(TypesAt(nd, low)) && a.ty in TypesAt(nd, low);
    }
    if low <= high && !Near(nd, low, high) {
      var t :| t in TypesAt(nd, low) && low + SizeOf(t) < high;
      assert Access(low, t) in nd.types;
    }
  }

  /** The answer does not depend on the order of the question. */
  lemma MayAliasSymmetric(ns: seq<Node>, c: Option<Cell>, d: Option<Cell>)
    requires Valid(ns) && (c.Some? ==> c.value.node < |ns|) && (d.Some? ==> d.value.node < |ns|)
    ensures MayAlias(ns, c, d) == MayAlias(ns, d, c)
  {
  }

  /** Cells that were ever made the same may alias in every later state. */
  lemma SameMayAlias(s: State, t: State, c: Cell, d: Cell)
    requires Later(s, t, {}) && Acyclic(s.nodes) && Same(s.nodes, c, d)
    ensures Valid(t.nodes) && c.node < |t.nodes| && d.node < |t.nodes|
    ensures MayAlias(t.nodes, Some(c), Some(d))
  {
    LaterBasics(s, t, {});
    SameStays(s, t, c, d);
    hide Later, Valid, Canon;
  }
}
