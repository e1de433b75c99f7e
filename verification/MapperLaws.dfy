/** What the mapper's tests mean, said by cells and not by its own arithmetic. */
module MapperLaws {
  import opened PointsTo
  import opened Forwarding
  import opened Coarsening
  import opened Changes
  import opened Strides
  import opened EngineFacts
  import opened LinkFacts
  import opened Mapper

  /** Offsets that are one cell of `x` are one cell of `y`, where `x` begins at `o`. */
  ghost predicate Congruent(x: Node, y: Node, o: nat) {
    forall k: nat, j: nat :: Adjust(x, k) == Adjust(x, j) ==> Adjust(y, o + k) == Adjust(y, o + j)
  }

  /** A collapsed node needs a collapsed one, an array an object that repeats with it and begins with it; a plain node
      goes anywhere, but in the middle of an array element its end must not pass the element's. */
  lemma CompatibleMeans(x: Node, y: Node, o: nat)
    requires SoundNode(x) && SoundNode(y)
    ensures Compatible(x, y, o) <==>
              if x.isCollapsed then y.isCollapsed
              else if x.isArray then Adjust(y, o) == 0 && Congruent(x, y, o)
              else !y.isArray || Adjust(y, o) == 0 || (x.size + o) % WORD <= y.size
  {
    hide SoundNode;
    SoundKinds(x);
    SoundKinds(y);
    hide Congruent;
    if x.isArray {
      ArrayCongruent(x, y, o);
      ArrayCompatible(x, y, o);
    } else {
      PlainCompatible(x, y, o);
    }
    hide Compatible;
  }

  lemma ArrayCompatible(x: Node, y: Node, o: nat)
    requires x.isArray && !x.isCollapsed && x.size > 0 && (y.isArray ==> !y.isCollapsed && y.size > 0)
    ensures Compatible(x, y, o) <==> Adjust(y, o) == 0 && (y.isCollapsed || (y.isArray && x.size % y.size == 0))
  {
    hide Adjust;
    if y.isArray {
      if x.size == y.size {
        DivModUnique(x.size, y.size, 1, 0);
      } else if x.size < y.size {
        DivModUnique(x.size, y.size, 0, x.size);
      }
    }
  }

  lemma PlainCompatible(x: Node, y: Node, o: nat)
    requires !x.isArray && (y.isArray ==> !y.isCollapsed && y.size > 0)
    ensures Compatible(x, y, o) <==>
              if x.isCollapsed then y.isCollapsed
              else !y.isArray || Adjust(y, o) == 0 || (x.size + o) % WORD <= y.size
  {
    hide Adjust;
  }

  lemma SoundKinds(nd: Node)
    requires SoundNode(nd)
    ensures (nd.isArray ==> !nd.isCollapsed && nd.size > 0)
  {
  }

  /** An array is congruent with the arrays whose stride divides its own, and with collapsed nodes. */
  lemma ArrayCongruent(x: Node, y: Node, o: nat)
    requires x.isArray && !x.isCollapsed && x.size > 0 && (y.isArray ==> !y.isCollapsed && y.size > 0)
    ensures Congruent(x, y, o) <==> y.isCollapsed || (y.isArray && x.size % y.size == 0)
  {
    if y.isArray {
      if x.size % y.size == 0 {
        forall k: nat, j: nat | Adjust(x, k) == Adjust(x, j) ensures Adjust(y, o + k) == Adjust(y, o + j) {
          AdjustTwice(x, y, k, o);
          AdjustTwice(x, y, j, o);
        }
      } else {
        ModShift(1, 0, x.size);
        ModDistance(o + x.size, o, y.size);
        assert Adjust(x, 0) == Adjust(x, x.size) && Adjust(y, o + 0) != Adjust(y, o + x.size);
      }
    } else if !y.isCollapsed {
      ModShift(1, 0, x.size);
      assert Adjust(x, 0) == Adjust(x, x.size) && Adjust(y, o + 0) != Adjust(y, o + x.size);
    }
  }

  lemma CompatibleCongruent(x: Node, y: Node, o: nat)
    requires SoundNode(x) && SoundNode(y) && Compatible(x, y, o)
    ensures Congruent(x, y, o)
  {
    hide SoundNode;
    SoundKinds(x);
    SoundKinds(y);
    CompatibleMeans(x, y, o);
  }

  /** A plain node in the middle of an array element has its bytes in that element, one by one. */
  lemma LiesInside(x: Node, y: Node, o: nat, k: nat)
    requires SoundNode(y) && !x.isArray && !x.isCollapsed && y.isArray && o != 0 && o == Adjust(y, o)
    requires Compatible(x, y, o) && x.size + o < WORD && k < x.size
    ensures Adjust(y, o + k) == o + k
  {
    hide SoundNode;
    SoundKinds(y);
    DivModUnique(o + k, y.size, 0, o + k);
  }

  // ---------------------------------------------------------------- simulations

  /** Cells of one callee node that are one cell are one cell of every node that simulates it. */
  lemma SimulationCongruent(src: seq<Node>, dst: seq<Node>, w: Relation, p: Pair)
    requires Valid(src) && Valid(dst) && IsSimulation(src, dst, w) && p in w
    ensures IsRep(src, p.0) && IsRep(dst, p.1) && Congruent(src[p.0], dst[p.1], w[p])
  {
    hide Valid, SoundNode, Compatible, Congruent;
    assert PairHolds(src, dst, p, w[p], w);
    SoundRep(src, p.0);
    SoundRep(dst, p.1);
    CompatibleCongruent(src[p.0], dst[p.1], w[p]);
  }

  /** Every link of a simulated node is matched by an edge whose target lands on the target. */
  lemma SimulationLinks(src: seq<Node>, dst: seq<Node>, w: Relation, p: Pair, f: Field) returns (d: Cell)
    requires Valid(src) && Valid(dst) && IsSimulation(src, dst, w) && p in w
    requires p.0 < |src| && f in src[p.0].links && src[p.0].links[f].node < |src|
    ensures Acyclic(dst) && p.1 < |dst| && d.node < |dst| && HasEdge(dst, p.1, Field(w[p] + f.off, f.ty), d)
    ensures Covers(src, dst, w, Some(src[p.0].links[f]), Some(d))
  {
    hide Valid, Compatible, FollowCells, Covers, Canon;
    ValidAcyclic(src);
    ValidAcyclic(dst);
    assert PairHolds(src, dst, p, w[p], w) && Matched(src, dst, p, w[p], f, w);
    var c := src[p.0].links[f];
    d := Lookup(dst[p.1].links, Field(Adjust(dst[p.1], w[p] + f.off), f.ty)).value;
    ClosedNode(dst, p.1);
    FollowLooks(src, dst, p.0, p.1, w[p], f, d);
    FollowCovers(src, dst, w, c, d);
  }

  /** Following a link looks where the edge is. */
  lemma FollowLooks(src: seq<Node>, dst: seq<Node>, n1: nat, n2: nat, offset: nat, f: Field, d: Cell)
    requires Valid(src) && Valid(dst) && IsRep(src, n1) && IsRep(dst, n2) && f in src[n1].links
    requires var found := Lookup(dst[n2].links, Field(Adjust(dst[n2], offset + f.off), f.ty));
      found.Some? ==> d == found.value
    ensures var found := Lookup(dst[n2].links, Field(Adjust(dst[n2], offset + f.off), f.ty));
      && (found.None? ==> Follow(src, dst, n1, n2, offset, f).None?)
      && (found.Some? ==>
            && d.node < |dst| && src[n1].links[f].node < |src| && Acyclic(src) && Acyclic(dst)
            && Follow(src, dst, n1, n2, offset, f) == FollowCells(src, dst, src[n1].links[f], d))
  {
    hide FollowCells;
  }

  /** Where following leads, the cells meet. */
  lemma FollowCovers(src: seq<Node>, dst: seq<Node>, w: Relation, c: Cell, d: Cell)
    requires Valid(src) && Valid(dst) && c.node < |src| && d.node < |dst|
    requires var t := FollowCells(src, dst, c, d);
      && t.Some? && (t.value.from, t.value.to) in w
      && w[(t.value.from, t.value.to)] == Adjust(dst[t.value.to], t.value.off)
    ensures Covers(src, dst, w, Some(c), Some(d))
  {
    ValidAcyclic(src);
    ValidAcyclic(dst);
    var z := Resolve(dst, d.node);
    SoundArray(dst, z.node);
    hide Valid;
    var y, o1, o2 := dst[z.node], ClientOffset(src, c), ClientOffset(dst, d);
    hide ClientOffset;
    ClientAdjusted(dst, d);
    if y.isArray {
      var q := o1 / y.size;
      assert o1 == q * y.size + o1 % y.size;
      ModOfMod(o2 - o1 % y.size, o1, y.size, y.size) by { DivModUnique(y.size, y.size, 1, 0); }
      ModShift(q, o2, y.size);
      assert o2 - o1 % y.size + o1 == q * y.size + o2;
      DivModUnique(o2, y.size, 0, o2);
    }
  }

  lemma ClientAdjusted(ns: seq<Node>, c: Cell)
    requires Valid(ns) && Acyclic(ns) && c.node < |ns|
    ensures var y := ns[Resolve(ns, c.node).node]; ClientOffset(ns, c) == Adjust(y, ClientOffset(ns, c))
    ensures var y := ns[Resolve(ns, c.node).node];
      y.isArray && !y.isCollapsed ==> y.size > 0 && ClientOffset(ns, c) < y.size
  {
    var r := Resolve(ns, c.node);
    SoundArray(ns, r.node);
    hide Valid;
    AdjustAdjusted(ns[r.node], r.off + c.off);
  }

  /** A link is refused only if there is no edge, or the target's cell would begin before the object it leads to. */
  lemma FollowRefuses(src: seq<Node>, dst: seq<Node>, c: Cell, d: Cell)
    requires Acyclic(src) && Acyclic(dst) && c.node < |src| && d.node < |dst|
    ensures var y := dst[Resolve(dst, d.node).node];
      FollowCells(src, dst, c, d).None? <==>
        !y.isCollapsed &&
        ClientOffset(dst, d) < if y.isArray then Adjust(y, ClientOffset(src, c)) else ClientOffset(src, c)
  {
  }

  /** Cells of the callee that are one cell are tied to cells of the caller that are one cell, and so are the cells at
      any distances behind them. */
  lemma TiesAgree(src: seq<Node>, dst: seq<Node>, w: Relation, c: Cell, d: Cell, c': Cell, d': Cell, k: nat, l: nat)
    requires Valid(src) && Valid(dst) && IsSimulation(src, dst, w) && Functional(w) && Acyclic(src) && Acyclic(dst)
    requires c.node < |src| && d.node < |dst| && c'.node < |src| && d'.node < |dst|
    requires Covers(src, dst, w, Some(c), Some(d)) && Covers(src, dst, w, Some(c'), Some(d'))
    requires Same(src, Shift(c, k), Shift(c', l))
    ensures Same(dst, Shift(d, k), Shift(d', l))
  {
    hide Valid, IsSimulation, Functional, Congruent, Adjust, Acyclic, Resolve, Covers, Same;
    ShiftedSame(src, Shift(c, k), Shift(c', l));
    CoversLands(src, dst, w, c, d);
    CoversLands(src, dst, w, c', d');
    var r, r', z, z' := Resolve(src, c.node), Resolve(src, c'.node), Resolve(dst, d.node), Resolve(dst, d'.node);
    FunctionalAt(w, r.node, z.node, z'.node);
    var p := (r.node, z.node);
    SimulationCongruent(src, dst, w, p);
    SoundArray(src, r.node);
    SoundArray(dst, z.node);
    if !dst[z.node].isCollapsed {
      Landings(src[r.node], dst[z.node], w[p], r.off + c.off, z.off + d.off, k, r'.off + c'.off, z'.off + d'.off, l);
    } else {
      CollapsedAdjust(dst[z.node]);
    }
    ShiftedSame(dst, Shift(d, k), Shift(d', l));
  }

  lemma ShiftedSame(ns: seq<Node>, c: Cell, d: Cell)
    requires Acyclic(ns) && c.node < |ns| && d.node < |ns|
    ensures var r, q := Resolve(ns, c.node), Resolve(ns, d.node);
      Same(ns, c, d) <==> r.node == q.node && Adjust(ns[r.node], r.off + c.off) == Adjust(ns[q.node], q.off + d.off)
  {
  }

  lemma CoversLands(src: seq<Node>, dst: seq<Node>, w: Relation, c: Cell, d: Cell)
    requires Valid(src) && Valid(dst) && Acyclic(src) && Acyclic(dst) && c.node < |src| && d.node < |dst|
    requires Covers(src, dst, w, Some(c), Some(d))
    ensures var r, z := Resolve(src, c.node), Resolve(dst, d.node); var y := dst[z.node];
      && (r.node, z.node) in w
      && (y.isCollapsed ||
          Adjust(y, w[(r.node, z.node)] + Adjust(src[r.node], r.off + c.off)) == Adjust(y, z.off + d.off))
  {
  }

  lemma FunctionalAt(w: Relation, x: nat, y: nat, z: nat)
    requires Functional(w) && (x, y) in w && (x, z) in w
    ensures y == z
  {
  }

  lemma CollapsedAdjust(nd: Node)
    requires nd.isCollapsed
    ensures forall k :: Adjust(nd, k) == 0
  {
  }

  lemma Landings(x: Node, y: Node, o: nat, a: nat, b: nat, k: nat, a': nat, b': nat, l: nat)
    requires Congruent(x, y, o) && (x.isArray ==> x.size > 0) && (y.isArray ==> y.size > 0)
    requires Adjust(y, o + Adjust(x, a)) == Adjust(y, b) && Adjust(y, o + Adjust(x, a')) == Adjust(y, b')
    requires Adjust(x, a + k) == Adjust(x, a' + l)
    ensures Adjust(y, b + k) == Adjust(y, b' + l)
  {
    hide Adjust, Congruent;
    Landing(x, y, o, a, b, k);
    Landing(x, y, o, a', b', l);
    CongruentAt(x, y, o, a + k, a' + l);
  }

  lemma CongruentAt(x: Node, y: Node, o: nat, k: nat, j: nat)
    requires Congruent(x, y, o) && Adjust(x, k) == Adjust(x, j)
    ensures Adjust(y, o + k) == Adjust(y, o + j)
  {
    hide Adjust;
  }

  /** The cell `k` behind a cell that lands lands `k` behind. */
  lemma Landing(x: Node, y: Node, o: nat, a: nat, b: nat, k: nat)
    requires Congruent(x, y, o) && (x.isArray ==> x.size > 0) && (y.isArray ==> y.size > 0)
    requires Adjust(y, o + Adjust(x, a)) == Adjust(y, b)
    ensures Adjust(y, b + k) == Adjust(y, o + (a + k))
  {
    hide Adjust, Congruent, Absorbs;
    AbsorbsSelf(x);
    AbsorbsSelf(y);
    AdjustTwice(y, y, b, k);
    AdjustTwice(y, y, o + Adjust(x, a), k);
    AdjustTwice(x, x, a, k);
    CongruentAt(x, y, o, Adjust(x, a) + k, a + k);
    assert o + Adjust(x, a) + k == o + (Adjust(x, a) + k);
  }
}
