/** What merging two objects comes to, said by their kinds, sizes and the offset alone. */
module MergeLaws {
  import opened PointsTo
  import opened Forwarding
  import opened Steps
  import opened EngineFacts
  import opened MergeFacts

  /** One stride divides the other, and the offset is a multiple of the smaller. */
  ghost predicate StridesMeet(m: nat, n: nat, o: nat) {
    && m > 0 && n > 0
    && (m <= n ==> n % m == 0 && o % m == 0)
    && (n <= m ==> m % n == 0 && o % n == 0)
  }

  /** `x` and `y` can keep their offsets when `y` begins at offset `o` of `x`. */
  ghost predicate Agree(x: Node, y: Node, same: bool, o: nat) {
    && !x.isCollapsed && !y.isCollapsed
    && if same then o == 0 || (x.isArray && x.size > 0 && o % x.size == 0)
       else if x.isArray && y.isArray then StridesMeet(x.size, y.size, o)
       else if x.isArray then x.size > 0 && (o % x.size == 0 || o % x.size + y.size <= x.size)
       else if y.isArray then o == 0
       else true
  }

  /** `x` is the object that stays: it is collapsed, or `y` is no array, or it is the array with the smaller stride. */
  ghost predicate Stays(x: Node, y: Node) {
    x.isCollapsed || !y.isArray || (x.isArray && x.size <= y.size)
  }

  /** What making `b` begin at offset `o` of `a` comes to. */
  ghost predicate Lawful(s: State, t: State, a: nat, b: nat, o: nat)
    requires a < |s.nodes| && b < |s.nodes|
  {
    var x, y := s.nodes[a], s.nodes[b];
    // objects that cannot keep their offsets collapse
    && (!Agree(x, y, a == b, o) ==> InOne(t, a))
    // an object that meets itself where it is stays as it is
    && (a == b && (x.isCollapsed || Agree(x, y, true, o)) ==> t == s)
    // if the accesses fit and the links meet nothing, one object is taken into the other and nothing else happens
    && (a != b && (x.isCollapsed || Agree(x, y, false, o)) && Stays(x, y) && Calm(x, Adjust(x, o), y) ==>
          AbsorbedOnly(s, t, b, a, Adjust(x, o)))
    && (a != b && Agree(x, y, false, o) && !Stays(x, y) && Calm(y, 0, x) ==> AbsorbedOnly(s, t, a, b, 0))
    // without links the result is collapsed exactly when offsets cannot be kept, or an access does not fit
    && (x.links == map[] && y.links == map[] ==>
          (InOne(t, a) <==> !Agree(x, y, a == b, o) || (a != b && Crowded(x, y, o))))
  }

  /** The object that stays is an array whose elements do not hold the other's accesses. */
  ghost predicate Crowded(x: Node, y: Node, o: nat) {
    if Stays(x, y) then !HoldsAll(x, Adjust(x, o), y.types) else !HoldsAll(y, 0, x.types)
  }

  /** All offsets of the object at `a` are one. */
  ghost predicate InOne(t: State, a: nat) {
    Acyclic(t.nodes) && a < |t.nodes| && t.nodes[Resolve(t.nodes, a).node].isCollapsed
  }

  /** The branches of the merge do just that. */
  lemma MergedLawful(s: State, t: State, a: nat, b: nat, o: nat)
    requires a < |s.nodes| && b < |s.nodes| && SoundNode(s.nodes[a]) && SoundNode(s.nodes[b])
    requires IsRep(s.nodes, a) && IsRep(s.nodes, b) && Merged(s, t, a, b, o) && Later(s, t, {})
    requires Acyclic(s.nodes) && Acyclic(t.nodes) && Aligned(t.nodes, a, b, o)
    ensures Lawful(s, t, a, b, o)
  {
    hide Later, Aligned;
    var x, y := s.nodes[a], s.nodes[b];
    DecidedLawful(x, y, a == b, o);
    OneNode(t, a, b, o);
    if x.isCollapsed {
      CollapsedLater(s, t, a, {});
    }
    if AbsorbedOnly(s, t, b, a, Adjust(x, o)) && !x.isCollapsed && a != b {
      AbsorbedApart(s, t, b, a, Adjust(x, o));
    }
    if AbsorbedOnly(s, t, a, b, 0) && !y.isCollapsed && a != b {
      AbsorbedApart(s, t, a, b, 0);
    }
    if x.links == map[] {
      NothingMeets(y, 0, x);
    }
    if y.links == map[] {
      NothingMeets(x, Adjust(x, o), y);
    }
    hide Decide, Calm, AbsorbedOnly, HoldsAll, Agree, Stays, SoundNode, Collapsed;
  }

  /** Aligned objects are one node. */
  lemma OneNode(t: State, a: nat, b: nat, o: nat)
    requires Acyclic(t.nodes) && Aligned(t.nodes, a, b, o)
    ensures a < |t.nodes| && b < |t.nodes| && Resolve(t.nodes, a).node == Resolve(t.nodes, b).node
  {
    assert Same(t.nodes, Cell(b, 0), Cell(a, o + 0));
  }

  /** An object taken into one with offsets keeps offsets. */
  lemma AbsorbedApart(s: State, t: State, b: nat, a: nat, d: nat)
    requires IsRep(s.nodes, a) && !s.nodes[a].isCollapsed && a != b && AbsorbedOnly(s, t, b, a, d) && Acyclic(t.nodes)
    ensures !InOne(t, a) && !InOne(t, b)
  {
    assert t.nodes[a].fwd.None?;
  }

  lemma NothingMeets(nd: Node, d: nat, from: Node)
    requires from.links == map[]
    ensures Calm(nd, d, from) <==> nd.isCollapsed || HoldsAll(nd, d, from.types)
  {
    hide HoldsAll, KeyAt, Meets;
  }

  /** Which branch is taken, by kinds, sizes and the offset. */
  lemma DecidedLawful(x: Node, y: Node, same: bool, o: nat)
    requires SoundNode(x) && SoundNode(y) && (same ==> x == y)
    ensures var plan := Decide(x, y, same, o);
      && (!x.isCollapsed && !Agree(x, y, same, o) ==> plan.CollapseFirst? || plan.CollapseOnly?)
      && (x.isCollapsed ==> if same then plan.Nothing? else plan.Absorb?)
      && (Agree(x, y, same, o) ==> plan == if same then Nothing else if Stays(x, y) then Absorb else Exchange)
  {
  }

  /** Of two arrays whose strides divide and whose accesses fit, the smaller stride survives. */
  lemma StrideSurvives(s: State, t: State, a: nat, b: nat, o: nat)
    requires a < |s.nodes| && b < |s.nodes| && a != b && IsRep(s.nodes, a) && IsRep(s.nodes, b) && Acyclic(t.nodes)
    requires var x, y := s.nodes[a], s.nodes[b];
      && !x.isCollapsed && !y.isCollapsed && x.isArray && y.isArray && StridesMeet(x.size, y.size, o)
      && if x.size <= y.size then Calm(x, Adjust(x, o), y) else Calm(y, 0, x)
    requires Lawful(s, t, a, b, o)
    ensures a < |t.nodes|
    ensures var z := t.nodes[Resolve(t.nodes, a).node]; var x, y := s.nodes[a], s.nodes[b];
      && z.isArray && !z.isCollapsed && z.size == if x.size <= y.size then x.size else y.size
  {
    hide Calm;
    var x, y := s.nodes[a], s.nodes[b];
    if x.size <= y.size {
      assert AbsorbedOnly(s, t, b, a, Adjust(x, o));
      assert t.nodes[a].fwd.None?;
    } else {
      assert AbsorbedOnly(s, t, a, b, 0);
      assert t.nodes[b].fwd.None? && t.nodes[a].fwd == Some(Cell(b, 0));
    }
  }

  /** What making two cells of representatives the same comes to: the smaller offset goes into the larger. */
  ghost predicate MergedCells(s: State, t: State, c: Cell, d: Cell)
    requires c.node < |s.nodes| && d.node < |s.nodes|
  {
    if c.off < d.off
    then Merged(s, t, d.node, c.node, d.off - c.off) && Lawful(s, t, d.node, c.node, d.off - c.off)
    else Merged(s, t, c.node, d.node, c.off - d.off) && Lawful(s, t, c.node, d.node, c.off - d.off)
  }

  /** First only paths were shortened, then the cells under `c` and `d` were merged. */
  ghost predicate MergedFrom(s: State, u: State, t: State, c: Cell, d: Cell)
    requires Acyclic(s.nodes) && c.node < |s.nodes| && d.node < |s.nodes|
  {
    && Compressed(s.nodes, u.nodes) && u == s.(nodes := u.nodes)
    && MergedCells(u, t, Shift(Resolve(s.nodes, c.node), c.off), Shift(Resolve(s.nodes, d.node), d.off))
  }

  lemma MergedOn(s: State, t: State, u: State, z: State, c: Cell, d: Cell, c1: Cell, d1: Cell)
    requires Compressed(s.nodes, t.nodes) && Compressed(t.nodes, u.nodes)
    requires t == s.(nodes := t.nodes) && u == t.(nodes := u.nodes)
    requires c.node < |s.nodes| && d.node < |s.nodes|
    requires c1 == Shift(Resolve(s.nodes, c.node), c.off) && d1 == Shift(Resolve(t.nodes, d.node), d.off)
    requires c1.node < |u.nodes| && d1.node < |u.nodes| && MergedCells(u, z, c1, d1)
    ensures MergedFrom(s, u, z, c, d)
  {
    hide MergedCells;
    CompressedTrans(s.nodes, t.nodes, u.nodes);
  }
}
