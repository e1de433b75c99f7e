/** Facts about aligning objects. */
module MergeFacts {
  import opened PointsTo
  import opened Forwarding
  import opened Coarsening
  import opened Candidates
  import opened Steps
  import opened EngineFacts
  import opened LinkFacts
  import opened Strides

  // ---------------------------------------------------------------- choosing how to merge

  datatype Plan =
    | CollapseFirst  // give up offsets, then merge
    | Exchange       // merge the other way round at offset 0
    | CollapseOnly   // an object meets itself at another offset
    | Nothing        // an object meets itself where it is
    | Absorb         // the second object goes into the first

  /** How `x` takes in `y` at offset `o`; `same` when they are one object. */
  function Decide(x: Node, y: Node, same: bool, o: nat): Plan {
    var offset := Adjust(x, o);
    if !x.isCollapsed && y.isCollapsed then CollapseFirst
    else if !x.isCollapsed && !y.isCollapsed && y.isArray && !x.isArray then
      if offset == 0 then Exchange else CollapseFirst
    else if x.isArray && y.isArray then
      var first := x.size <= y.size;
      var min, max := if first then x else y, if first then y else x;
      if min.size == 0 || max.size % min.size != 0 then CollapseFirst
      else if Adjust(min, o) != 0 then CollapseFirst
      else if !first then Exchange
      else DecideSelf(same, offset)
    else if x.isArray && !y.isArray && offset != 0 && offset + y.size > x.size then CollapseFirst
    else DecideSelf(same, offset)
  }

  function DecideSelf(same: bool, offset: nat): Plan {
    if same then (if offset > 0 then CollapseOnly else Nothing) else Absorb
  }

  /** What each choice may rely on. */
  lemma Decided(x: Node, y: Node, same: bool, o: nat)
    requires SoundNode(x) && SoundNode(y) && (same ==> x == y)
    ensures match Decide(x, y, same, o)
      case CollapseFirst => !x.isCollapsed && (y.isCollapsed || x.isArray || y.isArray)
      case Exchange => !same && y.isArray && Swaps(x, y) && !Swaps(y, x) && (o == 0 || Adjust(y, o) == 0)
      case CollapseOnly => same && o > 0 && !x.isCollapsed
      case Nothing => same && Adjust(x, o) == 0
      case Absorb => !same && Absorbs(y, x) && !Swaps(x, y)
  {
  }

  /** What absorbing comes to.  If the accesses of `b` fit and its links meet nothing, nothing else happens;
      if they overflow an `a` and neither has links, the sites of `b` never reach what `a` becomes. */
  ghost predicate Absorbed(s: State, t: State, a: nat, b: nat, o: nat)
    requires a < |s.nodes| && b < |s.nodes|
  {
    var x, y := s.nodes[a], s.nodes[b];
    var d := Adjust(x, o);
    && (Calm(x, d, y) ==> AbsorbedOnly(s, t, b, a, d))
    && (x.links == map[] && y.links == map[] && !Holds(x, d, y) ==> RepSitesKept(s, t, a))
    && (!x.isCollapsed && !HoldsAll(x, d, y.types) ==>
          Acyclic(t.nodes) && a < |t.nodes| && t.nodes[Resolve(t.nodes, a).node].isCollapsed)
  }

  /** What collapsing and merging comes to: `a` and `b` are one collapsed object, and if they had no links
      it has exactly their flags and sites, and no other node has changed. */
  ghost predicate Collapsed(s: State, t: State, a: nat, b: nat)
    requires a < |s.nodes| && b < |s.nodes|
  {
    && Acyclic(t.nodes) && a < |t.nodes| && b < |t.nodes|
    && var z := Resolve(t.nodes, a).node;
       && t.nodes[z].isCollapsed
       && (s.nodes[a].links == map[] && s.nodes[b].links == map[] ==>
             && Resolve(t.nodes, b).node == z && t.lost == s.lost
             && t.nodes[z].links == map[]
             && t.nodes[z].marks == s.nodes[a].marks + s.nodes[b].marks
             && t.nodes[z].sites == s.nodes[a].sites + s.nodes[b].sites
             && |s.nodes| <= |t.nodes| <= |s.nodes| + 1
             && forall m: nat | m < |t.nodes| && m != a && m != b && m != z ::
                m < |s.nodes| && t.nodes[m] == s.nodes[m])
  }

  /** What the chosen plan comes to. */
  ghost predicate Merged(s: State, t: State, a: nat, b: nat, o: nat)
    requires a < |s.nodes| && b < |s.nodes|
  {
    match Decide(s.nodes[a], s.nodes[b], a == b, o)
    case CollapseFirst => Collapsed(s, t, a, b)
    case CollapseOnly => Collapsed(s, t, a, b)
    case Nothing => t == s
    case Absorb => Absorbed(s, t, a, b, o)
    case Exchange => Absorbed(s, t, b, a, 0)
  }

  /** Which of the two objects has been emptied into the other. */
  ghost predicate GivesWay(s: State, t: State, a: nat, b: nat, o: nat)
    requires a < |s.nodes| && b < |s.nodes|
  {
    match Decide(s.nodes[a], s.nodes[b], a == b, o)
    case Exchange => a < |t.nodes| && Cleared(t.nodes[a])
    case Absorb => b < |t.nodes| && Cleared(t.nodes[b])
    case _ => true
  }

  lemma GivesWayExchanged(s: State, t: State, a: nat, b: nat, o: nat)
    requires a < |s.nodes| && b < |s.nodes| && SoundNode(s.nodes[a]) && SoundNode(s.nodes[b])
    requires Decide(s.nodes[a], s.nodes[b], a == b, o) == Exchange && GivesWay(s, t, b, a, 0)
    ensures GivesWay(s, t, a, b, o)
  {
    assert Decide(s.nodes[b], s.nodes[a], b == a, 0) == Absorb;
  }

  lemma MergedExchanged(s: State, t: State, a: nat, b: nat, o: nat)
    requires a < |s.nodes| && b < |s.nodes| && SoundNode(s.nodes[a]) && SoundNode(s.nodes[b])
    requires Decide(s.nodes[a], s.nodes[b], a == b, o) == Exchange && Merged(s, t, b, a, 0)
    ensures Merged(s, t, a, b, o)
  {
    hide Absorbed;
    assert Decide(s.nodes[b], s.nodes[a], b == a, 0) == Absorb;
  }

  lemma AbsorbedIs(s: State, t: State, a: nat, b: nat, o: nat)
    requires IsRep(s.nodes, a) && b < |s.nodes| && Acyclic(s.nodes) && Acyclic(t.nodes) && a < |t.nodes|
    requires var d := Adjust(s.nodes[a], o);
      && (Calm(s.nodes[a], d, s.nodes[b]) ==> AbsorbedOnly(s, t, b, a, d))
      && (s.nodes[b].links == map[] && s.nodes[a].links == map[] && !Holds(s.nodes[a], d, s.nodes[b]) ==>
            t.nodes[Resolve(t.nodes, a).node].sites == s.nodes[a].sites)
      && (!s.nodes[a].isCollapsed && !HoldsAll(s.nodes[a], d, s.nodes[b].types) ==>
            t.nodes[Resolve(t.nodes, a).node].isCollapsed)
    ensures Absorbed(s, t, a, b, o)
  {
    hide Calm, AbsorbedOnly, Holds, HoldsAll;
    assert Resolve(s.nodes, a) == Cell(a, 0);
  }

  /** An object that collapses alone. */
  lemma CollapsedAlone(s: State, t: State, a: nat)
    requires IsRep(s.nodes, a) && Acyclic(t.nodes) && a < |t.nodes| && t.nodes[Resolve(t.nodes, a).node].isCollapsed
    requires s.nodes[a].links == map[] ==> CollapsedOnly(s, t, a)
    ensures Collapsed(s, t, a, a)
  {
    if s.nodes[a].links == map[] {
      CollapsedWhere(s, t, a);
      assert s.nodes[a].sites + s.nodes[a].sites == s.nodes[a].sites;
      assert s.nodes[a].marks + s.nodes[a].marks == s.nodes[a].marks;
    }
  }

  lemma CollapsedWhere(s: State, t: State, a: nat)
    requires IsRep(s.nodes, a) && Acyclic(t.nodes) && CollapsedOnly(s, t, a) && s.nodes[a].links == map[]
    ensures var z := if s.nodes[a].size <= 1 then a else |s.nodes|;
      && a < |t.nodes| && OneStep(t.nodes, a) && Resolve(t.nodes, a).node == z && IsRep(t.nodes, z)
      && t.nodes[z].isCollapsed && !t.nodes[z].isArray && t.nodes[z].links == map[]
      && t.nodes[z].marks == s.nodes[a].marks && t.nodes[z].sites == s.nodes[a].sites
      && |t.nodes| == (if s.nodes[a].size <= 1 then |s.nodes| else |s.nodes| + 1)
      && forall m: nat | m < |s.nodes| && m != a :: t.nodes[m] == s.nodes[m]
  {
  }

  /** Collapsing `a` and merging what `a` and `b` have become. */
  lemma CollapsedMerged(s: State, t: State, z: State, a: nat, b: nat, o: nat, ra: nat, rb: nat)
    requires IsRep(s.nodes, a) && IsRep(s.nodes, b) && Acyclic(t.nodes) && Acyclic(z.nodes)
    requires a < |t.nodes| && b < |t.nodes| && a < |z.nodes| && b < |z.nodes|
    requires s.nodes[a].links == map[] ==> CollapsedOnly(s, t, a)
    requires s.nodes[a].links == map[] ==> Resolve(t.nodes, a).node == ra && Resolve(t.nodes, b).node == rb
    requires s.nodes[a].links == map[] ==> ra < |t.nodes| && rb < |t.nodes| && Merged(t, z, ra, rb, o)
    requires z.nodes[Resolve(z.nodes, a).node].isCollapsed
    ensures Collapsed(s, z, a, b)
  {
    if s.nodes[a].links == map[] && s.nodes[b].links == map[] {
      CollapsedWhere(s, t, a);
      if a == b {
        assert Decide(t.nodes[ra], t.nodes[rb], true, o) == Nothing;
        CollapsedAlone(s, t, a);
      } else {
        hide CollapsedOnly;
        assert rb == b;
        assert Decide(t.nodes[ra], t.nodes[b], false, o) == Absorb;
        assert Absorbed(t, z, ra, b, o);
        NoLinksClear(t.nodes[ra], 0, t.nodes[b]);
        hide Calm, Decide;
        AbsorbedInto(t, z, ra, b);
      }
    }
  }

  lemma NoLinksClear(nd: Node, d: nat, from: Node)
    requires nd.isCollapsed && from.links == map[]
    ensures Calm(nd, d, from) && Adjust(nd, d) == 0
  {
  }

  /** Absorbing `b`, without links, into the collapsed `a`. */
  lemma AbsorbedInto(t: State, z: State, a: nat, b: nat)
    requires IsRep(t.nodes, a) && t.nodes[a].isCollapsed && t.nodes[a].links == map[] && a != b
    requires b < |t.nodes| && t.nodes[b].links == map[] && AbsorbedOnly(t, z, b, a, 0) && Acyclic(t.nodes)
    requires Acyclic(z.nodes)
    ensures |z.nodes| == |t.nodes| && Resolve(z.nodes, b).node == a && IsRep(z.nodes, a) && z.lost == t.lost
    ensures z.nodes[a].isCollapsed && z.nodes[a].links == map[]
    ensures z.nodes[a].marks == t.nodes[a].marks + t.nodes[b].marks
    ensures z.nodes[a].sites == t.nodes[a].sites + t.nodes[b].sites
    ensures forall m: nat | m < |t.nodes| && m != a && m != b :: z.nodes[m] == t.nodes[m]
    ensures forall m: nat | m < |t.nodes| && m != b && OneStep(t.nodes, m) && Resolve(t.nodes, m).node == a ::
                Resolve(z.nodes, m).node == a
  {
    hide Snug, KeyAt;
    assert forall g :: g !in z.nodes[a].links;
    assert IsRep(z.nodes, a);
    forall m: nat | m < |t.nodes| && m != b && OneStep(t.nodes, m) && Resolve(t.nodes, m).node == a
      ensures Resolve(z.nodes, m).node == a
    {
      if m != a {
        assert z.nodes[m] == t.nodes[m];
      }
    }
  }

  lemma MergedIs(s: State, t: State, a: nat, b: nat, o: nat)
    requires a < |s.nodes| && b < |s.nodes|
    requires var plan := Decide(s.nodes[a], s.nodes[b], a == b, o);
      && (plan.CollapseFirst? || plan.CollapseOnly? ==> Collapsed(s, t, a, b))
      && (plan.Nothing? ==> t == s)
      && (plan.Absorb? ==> Absorbed(s, t, a, b, o))
      && !plan.Exchange?
    ensures Merged(s, t, a, b, o)
  {
    hide Decide, Absorbed, Collapsed;
  }

  // ---------------------------------------------------------------- cells

  lemma ResolvedCell(s: State, t: State, c: Cell, r: Cell)
    requires Valid(s.nodes) && Compressed(s.nodes, t.nodes) && t == s.(nodes := t.nodes)
    requires c.node < |s.nodes| && r == Shift(Resolve(s.nodes, c.node), c.off)
    ensures IsRep(t.nodes, r.node) && Same(t.nodes, c, r)
    ensures Mapped(s) ==> Equates(t.candidate, c, r)
  {
    assert t.nodes[r.node] == s.nodes[r.node].(fwd := t.nodes[r.node].fwd);
    SameResolved(t.nodes, c);
    if Mapped(s) {
      ImageOfRep(s.nodes, s.candidate, c);
    }
  }

  /** A cell set to point where `d` does. */
  lemma PointedSame(s: State, t: State, d: Cell, r: Cell)
    requires Compressed(s.nodes, t.nodes) && Valid(t.nodes) && d.node < |s.nodes|
    requires r == Shift(Resolve(s.nodes, d.node), d.off)
    ensures r.node < |t.nodes| && Same(t.nodes, Cell(r.node, Adjust(t.nodes[r.node], r.off)), d)
  {
    AdjustAdjusted(t.nodes[r.node], r.off);
    assert Resolve(t.nodes, r.node) == Cell(r.node, 0);
    hide Adjust, Valid;
  }

  lemma EquatesTrans(m: Candidate, c: Cell, d: Cell, e: Cell)
    requires Equates(m, c, d) && Equates(m, d, e)
    ensures Equates(m, c, e)
  {
  }

  lemma EquatesNodes(m: Candidate, c: Cell, d: Cell)
    requires Equates(m, c, d)
    ensures c.off <= d.off ==> Equates(m, Cell(c.node, 0), Cell(d.node, d.off - c.off))
    ensures d.off <= c.off ==> Equates(m, Cell(d.node, 0), Cell(c.node, c.off - d.off))
  {
  }

  lemma UnifyReady(s: State, t: State, u: State, c: Cell, d: Cell, c1: Cell, d1: Cell)
    requires Valid(s.nodes) && c.node < |s.nodes| && d.node < |s.nodes|
    requires Compressed(s.nodes, t.nodes) && t == s.(nodes := t.nodes) && Valid(t.nodes) && Later(s, t, {})
    requires KeepsMap(s, t)
    requires Compressed(t.nodes, u.nodes) && u == t.(nodes := u.nodes) && Valid(u.nodes) && Later(t, u, {})
    requires KeepsMap(t, u)
    requires c1 == Shift(Resolve(s.nodes, c.node), c.off) && d1 == Shift(Resolve(t.nodes, d.node), d.off)
    ensures Later(s, u, {}) && KeepsMap(s, u)
    ensures IsRep(u.nodes, c1.node) && IsRep(u.nodes, d1.node)
    ensures Same(u.nodes, c, c1) && Same(u.nodes, d, d1)
    ensures Mapped(s) && Equates(s.candidate, c, d) ==> Equates(u.candidate, c1, d1)
  {
    CompressedTrans(s.nodes, t.nodes, u.nodes);
    assert d1 == Shift(Resolve(s.nodes, d.node), d.off);
    ResolvedCell(s, u, c, c1);
    ResolvedCell(s, u, d, d1);
    CompressedLater(s, u);
    hide Compressed, Later, Mapped, Same, Valid;
    if Mapped(s) && Equates(s.candidate, c, d) {
      EquatesTrans(s.candidate, c1, c, d);
      EquatesTrans(s.candidate, c1, d, d1);
    }
    hide Equates;
  }

  lemma AlignedCells(u: State, z: State, c: Cell, d: Cell, o: nat)
    requires Later(u, z, {}) && c.off == o + d.off
    requires Acyclic(z.nodes) ==> Aligned(z.nodes, c.node, d.node, o)
    ensures Acyclic(z.nodes) && Same(z.nodes, c, d) && Same(z.nodes, d, c)
  {
    LaterBasics(u, z, {});
    hide Later;
    assert Same(z.nodes, Cell(d.node, d.off), Cell(c.node, o + d.off));
  }

  lemma UnifyDone(s: State, u: State, z: State, c: Cell, d: Cell, c1: Cell, d1: Cell)
    requires Later(s, u, {}) && KeepsMap(s, u) && Later(u, z, {})
    requires Acyclic(u.nodes) && Same(u.nodes, c, c1) && Same(u.nodes, d, d1)
    requires Acyclic(z.nodes) && Same(z.nodes, c1, d1)
    requires Mapped(s) && Equates(s.candidate, c, d) ==> KeepsMap(u, z)
    ensures Later(s, z, {}) && Same(z.nodes, c, d)
    ensures Equates(s.candidate, c, d) ==> KeepsMap(s, z)
  {
    hide Later, Mapped;
    LaterTrans(s, u, z, {});
    SameStays(u, z, c, c1);
    SameStays(u, z, d, d1);
    hide Canon;
  }

  /** Equal cells stay equal, whatever the engine does next. */
  lemma SameStays(s: State, t: State, c: Cell, d: Cell)
    requires Later(s, t, {})
    requires Acyclic(s.nodes) ==> Same(s.nodes, c, d)
    ensures Acyclic(t.nodes) && Same(t.nodes, c, d)
  {
    LaterBasics(s, t, {});
    hide Later;
    SameLater(s.nodes, t.nodes, c, d);
  }

  // ---------------------------------------------------------------- objects

  lemma AlignedFlip(ns: seq<Node>, a: nat, b: nat)
    requires Acyclic(ns) && Aligned(ns, b, a, 0)
    ensures Aligned(ns, a, b, 0)
  {
    forall k: nat ensures Same(ns, Cell(b, k), Cell(a, 0 + k)) {
      assert Same(ns, Cell(a, k), Cell(b, 0 + k));
    }
  }

  lemma AlignedSelf(ns: seq<Node>, a: nat, o: nat)
    requires Acyclic(ns) && IsRep(ns, a) && Adjust(ns[a], o) == 0
    ensures Aligned(ns, a, a, o)
  {
    assert Resolve(ns, a) == Cell(a, 0);
    forall k: nat ensures Same(ns, Cell(a, k), Cell(a, o + k)) {
      WrapsAway(ns[a], o, k);
      hide Adjust, Resolve;
    }
  }

  lemma WrapsAway(nd: Node, o: nat, k: nat)
    requires Adjust(nd, o) == 0
    ensures Adjust(nd, o + k) == Adjust(nd, k)
  {
    if !nd.isCollapsed && nd.isArray && nd.size > 0 {
      ModOfMod(o, k, nd.size, nd.size) by { SelfMod(nd.size); }
    }
  }

  lemma SelfMod(m: nat)
    requires m > 0
    ensures m % m == 0
  {
  }

  /** Merging the other way round at offset 0 aligns as asked. */
  lemma AlignedExchanged(s: State, t: State, a: nat, b: nat, o: nat)
    requires Later(s, t, {}) && IsRep(s.nodes, a) && IsRep(s.nodes, b) && (o == 0 || Adjust(s.nodes[b], o) == 0)
    requires Acyclic(t.nodes) && Aligned(t.nodes, b, a, 0)
    ensures Aligned(t.nodes, a, b, o)
  {
    hide Later, Same, Follows, Adjust, Valid;
    if o == 0 {
      AlignedFlip(t.nodes, a, b);
    } else {
      LaterBasics(s, t, {});
      AlignedSelf(s.nodes, b, o);
      forall k: nat ensures Same(t.nodes, Cell(b, k), Cell(a, o + k)) {
        assert Same(s.nodes, Cell(b, k), Cell(b, o + k));
        SameStays(s, t, Cell(b, k), Cell(b, o + k));
        assert Same(t.nodes, Cell(a, o + k), Cell(b, 0 + (o + k)));
        SameTrans(t.nodes, Cell(b, k), Cell(b, o + k), Cell(a, o + k));
      }
    }
  }

  lemma AlignedCollapsed(ns: seq<Node>, a: nat, b: nat, o: nat)
    requires Acyclic(ns) && a < |ns| && b < |ns| && Resolve(ns, a).node == Resolve(ns, b).node
    requires ns[Resolve(ns, a).node].isCollapsed
    ensures Aligned(ns, a, b, o)
  {
  }

  lemma AlignedPointed(s: State, t: State, a: nat, b: nat, o: nat)
    requires Later(s, t, {}) && IsRep(s.nodes, a)
    requires Acyclic(t.nodes) && a < |t.nodes| && b < |t.nodes|
    requires Resolve(t.nodes, b) == Shift(Resolve(t.nodes, a), Adjust(s.nodes[a], o))
    ensures Aligned(t.nodes, a, b, o)
  {
    hide Later, Absorbs, Same, Adjust, Valid, Acyclic, Resolve;
    KindLater(s, t, a);
    forall k: nat ensures Same(t.nodes, Cell(b, k), Cell(a, o + k)) {
      EmbeddedSame(s.nodes[a], t.nodes, a, b, o, k);
    }
  }

  lemma EmbeddedSame(nd: Node, ns: seq<Node>, a: nat, b: nat, o: nat, k: nat)
    requires Acyclic(ns) && a < |ns| && b < |ns| && Absorbs(nd, ns[Resolve(ns, a).node])
    requires Resolve(ns, b) == Shift(Resolve(ns, a), Adjust(nd, o))
    ensures Same(ns, Cell(b, k), Cell(a, o + k))
  {
    var m := Resolve(ns, a);
    AdjustTwice(nd, ns[m.node], o, m.off + k);
    hide Absorbs, Adjust;
  }

  /** The engine collapses only what every candidate has collapsed. */
  lemma CollapseForced(s: State, a: nat, b: nat, o: nat)
    requires a < |s.nodes| && b < |s.nodes|
    ensures s.nodes[b].isCollapsed || s.nodes[a].isArray || s.nodes[b].isArray ==>
              Mapped(s) && Equates(s.candidate, Cell(b, 0), Cell(a, o)) ==> MustCollapse(s.candidate, a)
    ensures Mapped(s) && Equates(s.candidate, Cell(b, 0), Cell(a, o)) && a == b && o > 0 ==>
              MustCollapse(s.candidate, a)
    ensures Mapped(s) && Equates(s.candidate, Cell(b, 0), Cell(a, o)) ==> Equates(s.candidate, Cell(a, o), Cell(b, 0))
    ensures Mapped(s) && Equates(s.candidate, Cell(b, 0), Cell(a, o)) && s.nodes[b].isArray ==>
              Equates(s.candidate, Cell(a, 0), Cell(b, 0))
  {
    if Mapped(s) {
      assert NodeRespects(s.nodes[a], s.candidate, a);
      assert NodeRespects(s.nodes[b], s.candidate, b);
    }
  }

  lemma UnmappedKeeps(s: State, t: State)
    requires !Mapped(s)
    ensures KeepsMap(s, t)
  {
  }

  // ---------------------------------------------------------------- collapse, then merge

  lemma CollapsedReady(s: State, t: State, u: State, v: State, a: nat, b: nat, o: nat, ra: Cell, rb: Cell)
    requires Later(s, t, {}) && a < |s.nodes| && b < |s.nodes|
    requires Valid(t.nodes) && a < |t.nodes| && t.nodes[Resolve(t.nodes, a).node].isCollapsed
    requires Potential(t.nodes) < Potential(s.nodes)
    requires MustCollapse(s.candidate, a) ==> KeepsMap(s, t)
    requires Compressed(t.nodes, u.nodes) && u == t.(nodes := u.nodes) && Later(t, u, {}) && KeepsMap(t, u)
    requires Compressed(u.nodes, v.nodes) && v == u.(nodes := v.nodes) && Later(u, v, {}) && KeepsMap(u, v)
    requires ra == Resolve(t.nodes, a) && b < |u.nodes| && rb == Resolve(u.nodes, b)
    ensures Later(s, v, {}) && Valid(v.nodes) && Potential(v.nodes) < Potential(s.nodes)
    ensures a < |v.nodes| && b < |v.nodes| && Resolve(v.nodes, a) == ra && Resolve(v.nodes, b) == rb
    ensures IsRep(v.nodes, ra.node) && IsRep(v.nodes, rb.node) && v.nodes[ra.node].isCollapsed
    ensures MustCollapse(s.candidate, a) ==> KeepsMap(s, v)
    ensures MustCollapse(s.candidate, a) && Mapped(s) && Equates(s.candidate, Cell(b, 0), Cell(a, o)) ==>
              Equates(v.candidate, Cell(rb.node, 0), Cell(ra.node, o))
  {
    CompressedTrans(t.nodes, u.nodes, v.nodes);
    CompressedLater(t, v);
    assert v.nodes[ra.node] == t.nodes[ra.node].(fwd := v.nodes[ra.node].fwd);
    assert v.nodes[rb.node] == t.nodes[rb.node].(fwd := v.nodes[rb.node].fwd);
    LaterBasics(t, v, {});
    hide Compressed, Later;
    LaterTrans(s, t, v, {});
    if MustCollapse(s.candidate, a) && Mapped(s) && Equates(s.candidate, Cell(b, 0), Cell(a, o)) {
      CollapsedEquates(s, v, a, b, o, ra, rb);
    }
    hide Mapped, Valid, Equates;
  }

  /** After a collapse without links, looking the objects up changes nothing. */
  lemma CollapsedFound(s: State, t: State, u: State, v: State, a: nat, b: nat)
    requires IsRep(s.nodes, a) && IsRep(s.nodes, b) && Acyclic(t.nodes) && a < |t.nodes| && b < |t.nodes|
    requires s.nodes[a].links == map[] ==> CollapsedOnly(s, t, a)
    requires (OneStep(t.nodes, a) ==> u == t) && (OneStep(u.nodes, b) ==> v == u)
    ensures s.nodes[a].links == map[] ==> v == t
  {
    if s.nodes[a].links == map[] {
      CollapsedWhere(s, t, a);
    }
  }

  lemma CollapsedEquates(s: State, v: State, a: nat, b: nat, o: nat, ra: Cell, rb: Cell)
    requires MustCollapse(s.candidate, a) && Equates(s.candidate, Cell(b, 0), Cell(a, o))
    requires Mapped(v) && Extends(s.candidate, v.candidate)
    requires Acyclic(v.nodes) && a < |v.nodes| && b < |v.nodes| && Resolve(v.nodes, a) == ra
    requires Resolve(v.nodes, b) == rb
    ensures Equates(v.candidate, Cell(rb.node, 0), Cell(ra.node, o))
  {
    ImageOfRep(v.nodes, v.candidate, Cell(a, 0));
    ImageOfRep(v.nodes, v.candidate, Cell(b, 0));
  }

  lemma CollapsedDone(s: State, v: State, z: State, a: nat, b: nat, o: nat, ra: nat, rb: nat)
    requires Later(s, v, {}) && Later(v, z, {})
    requires Acyclic(v.nodes) && a < |v.nodes| && b < |v.nodes| && Resolve(v.nodes, a).node == ra
    requires Resolve(v.nodes, b).node == rb
    requires v.nodes[ra].isCollapsed
    requires Acyclic(z.nodes) && Aligned(z.nodes, ra, rb, o)
    ensures Later(s, z, {}) && Aligned(z.nodes, a, b, o) && z.nodes[Resolve(z.nodes, a).node].isCollapsed
    ensures KeepsMap(s, v) && KeepsMap(v, z) ==> KeepsMap(s, z)
  {
    hide Later, Mapped, Adjust;
    LaterTrans(s, v, z, {});
    CollapsedLater(v, z, a, {});
    ResolveStays(v, z, a, {});
    ResolveStays(v, z, b, {});
    assert Same(z.nodes, Cell(rb, 0), Cell(ra, o + 0));
    AlignedCollapsed(z.nodes, a, b, o);
  }
}
