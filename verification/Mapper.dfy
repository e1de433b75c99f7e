/** Simulations between two graphs, and the mapper that looks for one. */
module Mapper {
  import opened PointsTo
  import opened Forwarding
  import opened Strides

  // ---------------------------------------------------------------- one pair

  /** Subtraction on 32-bit offsets. */
  function Sub32(a: nat, b: nat): nat {
    if b <= a then a - b else (a - b) % WORD
  }

  /** Node `x` may be simulated by node `y` at offset `o`, links aside.  Sizes and offsets are added in 32 bits. */
  predicate Compatible(x: Node, y: Node, o: nat) {
    var offset := Adjust(y, o);
    && (!x.isArray && y.isArray ==>
          (Unfolds(x, y) && offset == 0) || offset == 0 || (x.size + o) % WORD <= y.size)
    && (x.isArray ==> y.isArray || y.isCollapsed)
    && (x.isArray ==> offset == 0)
    && (x.isArray && !y.isCollapsed && x.size != y.size ==>
          y.isArray && y.size < x.size && Unfolds(x, y) && offset == 0)
    && (x.isCollapsed ==> y.isCollapsed)
  }

  /** `x` is a whole number of elements of array `y`. */
  predicate Unfolds(x: Node, y: Node) {
    x.size >= y.size && y.size > 0 && x.size % y.size == 0
  }

  /** A plain node accepted inside an array element really lies there unless its end passes 4 GiB. */
  lemma CompatibleLies(x: Node, y: Node, o: nat)
    requires !x.isArray && y.isArray && Adjust(y, o) != 0 && y.size < WORD && Compatible(x, y, o)
    ensures x.size + o <= y.size <==> x.size + o < WORD
  {
  }

  /** The offset clients see. */
  function ClientOffset(ns: seq<Node>, c: Cell): nat
    requires Acyclic(ns) && c.node < |ns|
  {
    var r := Resolve(ns, c.node);
    Adjust(ns[r.node], r.off + c.off)
  }

  datatype Target = Target(from: nat, to: nat, off: nat)

  /** Where matching link `f` of `n1` at offset `offset` of `n2` leads, if it can be matched. */
  function Follow(src: seq<Node>, dst: seq<Node>, n1: nat, n2: nat, offset: nat, f: Field): Option<Target>
    requires Valid(src) && Valid(dst) && IsRep(src, n1) && IsRep(dst, n2) && f in src[n1].links
  {
    var j := if dst[n2].isCollapsed then 0 else f.off + offset;
    var found := Lookup(dst[n2].links, Field(Adjust(dst[n2], j), f.ty));
    if found.None? then None else FollowCells(src, dst, src[n1].links[f], found.value)
  }

  /** The pair under two matched link cells, aligned so that the cells meet. */
  function FollowCells(src: seq<Node>, dst: seq<Node>, c: Cell, d: Cell): Option<Target>
    requires Acyclic(src) && Acyclic(dst) && c.node < |src| && d.node < |dst|
  {
    var n3, n4 := Resolve(src, c.node).node, Resolve(dst, d.node).node;
    var raw, off2 := ClientOffset(src, c), ClientOffset(dst, d);
    var off1 := if dst[n4].isArray then Adjust(dst[n4], raw) else raw;
    if off2 < off1 && !dst[n4].isCollapsed then None
    else Some(Target(n3, n4, Sub32(off2, off1)))
  }

  // ---------------------------------------------------------------- simulations

  type Pair = (nat, nat)

  /** A simulation relation: which node is simulated where in which node. */
  type Relation = map<Pair, nat>

  ghost predicate Matched(src: seq<Node>, dst: seq<Node>, p: Pair, offset: nat, f: Field, w: Relation)
    requires Valid(src) && Valid(dst) && IsRep(src, p.0) && IsRep(dst, p.1) && f in src[p.0].links
  {
    var t := Follow(src, dst, p.0, p.1, offset, f);
    t.Some? && (t.value.from, t.value.to) in w
    && w[(t.value.from, t.value.to)] == Adjust(dst[t.value.to], t.value.off)
  }

  /** Every link of the first node of the pair is matched within `w`. */
  ghost predicate LinksHold(src: seq<Node>, dst: seq<Node>, p: Pair, offset: nat, w: Relation)
    requires Valid(src) && Valid(dst)
  {
    && IsRep(src, p.0) && IsRep(dst, p.1) && offset == Adjust(dst[p.1], offset)
    && forall f | f in src[p.0].links :: Matched(src, dst, p, offset, f, w)
  }

  /** The pair is compatible and its links are matched. */
  ghost predicate PairHolds(src: seq<Node>, dst: seq<Node>, p: Pair, offset: nat, w: Relation)
    requires Valid(src) && Valid(dst)
  {
    LinksHold(src, dst, p, offset, w) && Compatible(src[p.0], dst[p.1], offset)
  }

  ghost predicate IsSimulation(src: seq<Node>, dst: seq<Node>, w: Relation)
    requires Valid(src) && Valid(dst)
  {
    forall p | p in w :: PairHolds(src, dst, p, w[p], w)
  }

  ghost predicate Within(v: Relation, w: Relation) {
    forall p | p in v :: p in w && w[p] == v[p]
  }

  lemma LinksHoldMore(src: seq<Node>, dst: seq<Node>, p: Pair, offset: nat, v: Relation, w: Relation)
    requires Valid(src) && Valid(dst) && LinksHold(src, dst, p, offset, v) && Within(v, w)
    ensures LinksHold(src, dst, p, offset, w)
  {
    hide Follow;
    forall f | f in src[p.0].links ensures Matched(src, dst, p, offset, f, w) {
      assert Matched(src, dst, p, offset, f, v);
    }
  }

  lemma PairHoldsMore(src: seq<Node>, dst: seq<Node>, p: Pair, offset: nat, v: Relation, w: Relation)
    requires Valid(src) && Valid(dst) && PairHolds(src, dst, p, offset, v) && Within(v, w)
    ensures PairHolds(src, dst, p, offset, w)
  {
    hide LinksHold, Compatible, Valid;
    LinksHoldMore(src, dst, p, offset, v, w);
  }

  lemma FollowLands(src: seq<Node>, dst: seq<Node>, n1: nat, n2: nat, offset: nat, f: Field)
    requires Valid(src) && Valid(dst) && IsRep(src, n1) && IsRep(dst, n2) && f in src[n1].links
    requires Follow(src, dst, n1, n2, offset, f).Some?
    ensures var t := Follow(src, dst, n1, n2, offset, f).value;
      IsRep(src, t.from) && IsRep(dst, t.to) && (dst[t.to].isArray ==> t.off == Adjust(dst[t.to], t.off))
  {
    hide FollowCells, Adjust;
    var j := if dst[n2].isCollapsed then 0 else f.off + offset;
    var link := Lookup(dst[n2].links, Field(Adjust(dst[n2], j), f.ty)).value;
    CellsLand(src, dst, src[n1].links[f], link);
  }

  lemma CellsLand(src: seq<Node>, dst: seq<Node>, c: Cell, d: Cell)
    requires Acyclic(src) && Valid(dst) && c.node < |src| && d.node < |dst| && FollowCells(src, dst, c, d).Some?
    ensures var t := FollowCells(src, dst, c, d).value;
      IsRep(src, t.from) && IsRep(dst, t.to) && (dst[t.to].isArray ==> t.off == Adjust(dst[t.to], t.off))
  {
    var n4 := Resolve(dst, d.node);
    var y := dst[n4.node];
    assert y.isArray ==> y.size > 0 && !y.isCollapsed by { assert SoundNode(y); }
    hide Valid;
    if dst[n4.node].isArray {
      SmallOffset(dst[n4.node], n4.off + d.off);
      var off2 := ClientOffset(dst, d);
      assert off2 < dst[n4.node].size;
      var t := FollowCells(src, dst, c, d).value;
      assert t.off <= off2;
      hide FollowCells, ClientOffset;
      SmallOffset(dst[n4.node], t.off);
    }
  }

  lemma SmallOffset(nd: Node, k: nat)
    requires nd.isArray && !nd.isCollapsed && nd.size > 0
    ensures Adjust(nd, k) < nd.size
    ensures k < nd.size ==> Adjust(nd, k) == k
  {
  }

  /** On an offset that is already adjusted, or on anything but an array, adjusting changes no verdict. */
  lemma CompatibleAdjusted(x: Node, y: Node, o: nat)
    requires y.isArray ==> o == Adjust(y, o)
    ensures Compatible(x, y, o) <==> Compatible(x, y, Adjust(y, o))
  {
  }

  lemma AdjustIdem(nd: Node, k: nat)
    ensures Adjust(nd, Adjust(nd, k)) == Adjust(nd, k) <= k
  {
  }

  // ---------------------------------------------------------------- the mapper

  type Sim = map<nat, map<nat, nat>>

  ghost function PairsOf(sim: Sim): set<Pair> {
    set n1, n2 | n1 in sim && n2 in sim[n1] :: (n1, n2)
  }

  ghost function Rel(sim: Sim): Relation {
    map p | p in PairsOf(sim) :: sim[p.0][p.1]
  }

  lemma RelHas(sim: Sim, n1: nat, n2: nat)
    ensures (n1, n2) in Rel(sim) <==> n1 in sim && n2 in sim[n1]
    ensures (n1, n2) in Rel(sim) ==> Rel(sim)[(n1, n2)] == sim[n1][n2]
  {
  }

  lemma RelRow(sim: Sim, n1: nat)
    requires n1 !in sim
    ensures Rel(sim[n1 := map[]]) == Rel(sim)
  {
    assert PairsOf(sim[n1 := map[]]) == PairsOf(sim);
  }

  lemma RelAdd(sim: Sim, n1: nat, row: map<nat, nat>, n2: nat, o: nat)
    requires n1 in sim && row == sim[n1][n2 := o]
    ensures Rel(sim[n1 := row]) == Rel(sim)[(n1, n2) := o]
  {
    assert PairsOf(sim[n1 := row]) == PairsOf(sim) + {(n1, n2)};
  }

  /** All the pairs a mapper may ever hold. */
  ghost function Universe(src: seq<Node>, dst: seq<Node>): set<Pair> {
    set n1: nat, n2: nat | n1 < |src| && n2 < |dst| :: (n1, n2)
  }

  /** A relation that agrees with what is known so far, puts `p` at `offset`, matches all links,
      and is compatible wherever the mapper still has to look: at the pairs not yet known, `p` aside. */
  ghost predicate Explains(src: seq<Node>, dst: seq<Node>, w: Relation, known: Relation, p: Pair, offset: nat)
    requires Valid(src) && Valid(dst)
  {
    && Within(known, w) && p in w && w[p] == offset
    && (forall q | q in w :: LinksHold(src, dst, q, w[q], w))
    && (forall q | q in w && q !in known && q != p :: Compatible(src[q.0], dst[q.1], w[q]))
  }

  lemma SimulationExplains(src: seq<Node>, dst: seq<Node>, w: Relation, known: Relation, p: Pair, offset: nat)
    requires Valid(src) && Valid(dst) && IsSimulation(src, dst, w) && Within(known, w) && p in w && w[p] == offset
    ensures Explains(src, dst, w, known, p, offset) && IsRep(src, p.0) && IsRep(dst, p.1)
    ensures Compatible(src[p.0], dst[p.1], offset)
  {
    hide Compatible, Matched;
    forall q | q in w ensures PairHolds(src, dst, q, w[q], w) {
    }
  }

  /** The relation grew from `before`, and everything new in it, `p` aside, is settled. */
  ghost predicate Settled(src: seq<Node>, dst: seq<Node>, before: Relation, now: Relation, open: set<Pair>)
    requires Valid(src) && Valid(dst)
  {
    && Within(before, now)
    && forall p | p in now && p !in before && p !in open :: PairHolds(src, dst, p, now[p], now)
  }

  ghost predicate InBounds(ns: seq<Node>, c: Option<Cell>) {
    c.Some? ==> c.value.node < |ns|
  }

  /** Where two root cells put the pair under them. */
  function Meet(src: seq<Node>, dst: seq<Node>, c: Cell, d: Cell): Option<Target>
    requires Acyclic(src) && Acyclic(dst) && c.node < |src| && d.node < |dst|
  {
    var n1, n2 := Resolve(src, c.node).node, Resolve(dst, d.node).node;
    var o1, o2 := ClientOffset(src, c), ClientOffset(dst, d);
    if dst[n2].isCollapsed then Some(Target(n1, n2, 0))
    else if o2 < o1 && (src[n1].isArray || !dst[n2].isArray) then None
    else Some(Target(n1, n2, Sub32(o2, o1)))
  }

  /** Relation `w` has the nodes under `c` and `d` where the mapper puts them. */
  ghost predicate Seats(src: seq<Node>, dst: seq<Node>, w: Relation, c: Option<Cell>, d: Option<Cell>)
    requires Valid(src) && Valid(dst) && InBounds(src, c) && InBounds(dst, d)
  {
    && c.None? == d.None?
    && (c.Some? ==>
          var t := Meet(src, dst, c.value, d.value);
          t.Some? && (t.value.from, t.value.to) in w &&
            w[(t.value.from, t.value.to)] == Adjust(dst[t.value.to], t.value.off))
  }

  /** Relation `w` puts the nodes under `c` and `d` together so that cell `c` lands on cell `d`. */
  ghost predicate Covers(src: seq<Node>, dst: seq<Node>, w: Relation, c: Option<Cell>, d: Option<Cell>)
    requires Valid(src) && Valid(dst) && InBounds(src, c) && InBounds(dst, d)
  {
    && c.None? == d.None?
    && (c.Some? ==>
          var p := (Resolve(src, c.value.node).node, Resolve(dst, d.value.node).node);
          p in w && (dst[p.1].isCollapsed || Adjust(dst[p.1], w[p] + ClientOffset(src, c.value)) ==
                     ClientOffset(dst, d.value)))
  }

  /** The 32-bit subtraction of the root offsets does not wrap. */
  ghost predicate NoWrap(src: seq<Node>, dst: seq<Node>, c: Option<Cell>, d: Option<Cell>)
    requires Valid(src) && Valid(dst) && InBounds(src, c) && InBounds(dst, d)
  {
    c.Some? && d.Some? && !dst[Resolve(dst, d.value.node).node].isCollapsed ==>
      ClientOffset(src, c.value) <= ClientOffset(dst, d.value)
  }

  /** A plain node whose root offset wraps still fits the array element it is put in. */
  ghost predicate RootFits(src: seq<Node>, dst: seq<Node>, c: Option<Cell>, d: Option<Cell>)
    requires Valid(src) && Valid(dst) && InBounds(src, c) && InBounds(dst, d)
  {
    NoWrap(src, dst, c, d) ||
    (var x, y := src[Resolve(src, c.value.node).node], dst[Resolve(dst, d.value.node).node];
     var offset := Adjust(y, Sub32(ClientOffset(dst, d.value), ClientOffset(src, c.value)));
     offset == 0 || (x.size + offset) % WORD <= y.size)
  }

  /** The stride at the root divides the word, or the root offset does not wrap. */
  ghost predicate RootLands(src: seq<Node>, dst: seq<Node>, c: Option<Cell>, d: Option<Cell>)
    requires Valid(src) && Valid(dst) && InBounds(src, c) && InBounds(dst, d)
  {
    NoWrap(src, dst, c, d) ||
    (var stride := dst[Resolve(dst, d.value.node).node].size; stride > 0 && WORD % stride == 0)
  }

  /** The root offset of `c` is a 32-bit number. */
  ghost predicate InWord(src: seq<Node>, c: Option<Cell>)
    requires Valid(src) && InBounds(src, c)
  {
    c.Some? ==> ClientOffset(src, c.value) < WORD
  }

  /** Relation `w` lets the mapper accept the root cells: it explains the pair under them, which passes the test. */
  ghost predicate Admits(src: seq<Node>, dst: seq<Node>, w: Relation, known: Relation, c: Option<Cell>, d: Option<Cell>)
    requires Valid(src) && Valid(dst) && InBounds(src, c) && InBounds(dst, d)
  {
    && c.Some? && d.Some?
    && var m := Meet(src, dst, c.value, d.value);
       && m.Some? && m.value.to < |dst| && m.value.from < |src|
       && var p := (m.value.from, m.value.to);
          && Explains(src, dst, w, known, p, Adjust(dst[p.1], m.value.off))
          && (p in known || Compatible(src[p.0], dst[p.1], m.value.off))
  }

  ghost predicate Accounts(src: seq<Node>, dst: seq<Node>, w: Relation, known: Relation, c: Option<Cell>,
                           d: Option<Cell>)
    requires Valid(src) && Valid(dst) && InBounds(src, c) && InBounds(dst, d)
  {
    IsSimulation(src, dst, w) && Within(known, w) && Covers(src, dst, w, c, d)
  }

  ghost predicate Functional(w: Relation) {
    forall p, q | p in w && q in w && p.0 == q.0 :: p.1 == q.1
  }

  predicate Host(dst: seq<Node>, n: nat) {
    n < |dst| && Modified in dst[n].marks
  }

  ghost predicate Injective(dst: seq<Node>, w: Relation, onlyModified: bool) {
    forall p, q | p in w && q in w && p.1 == q.1 && w[p] == w[q]
                  && (!onlyModified || (p.1 < |dst| && Modified in dst[p.1].marks)) :: p.0 == q.0
  }

  class SimulationMapper {
    const src: seq<Node>
    const dst: seq<Node>
    var sim: Sim

    constructor (src: seq<Node>, dst: seq<Node>)
      ensures this.src == src && this.dst == dst && sim == map[]
    {
      this.src := src;
      this.dst := dst;
      this.sim := map[];
    }

    /** Check that node `n1` is simulated by node `n2` at offset `o`. */
    method InsertNode(n1: nat, n2: nat, o: nat) returns (ok: bool)
      requires Valid(src) && Valid(dst) && IsRep(src, n1) && IsRep(dst, n2)
      requires Rel(sim).Keys <= Universe(src, dst)
      modifies `sim
      ensures !ok ==> sim == map[]
      ensures ok ==> Rel(sim).Keys <= Universe(src, dst)
      ensures ok ==> (n1, n2) in Rel(sim) && Rel(sim)[(n1, n2)] == Adjust(dst[n2], o)
      ensures ok ==> Settled(src, dst, old(Rel(sim)), Rel(sim), {(n1, n2)})
      ensures ok && (n1, n2) !in old(Rel(sim)) ==>
                Compatible(src[n1], dst[n2], o) && LinksHold(src, dst, (n1, n2), Adjust(dst[n2], o), Rel(sim))
      ensures (n1, n2) in old(Rel(sim)) || Compatible(src[n1], dst[n2], o) ==>
                forall w :: Explains(src, dst, w, old(Rel(sim)), (n1, n2), Adjust(dst[n2], o)) ==>
                  ok && Within(Rel(sim), w)
      decreases Universe(src, dst) - Rel(sim).Keys
    {
      ghost var before := Rel(sim);
      var offset := Adjust(dst[n2], o);
      AdjustIdem(dst[n2], o);
      hide Adjust, Compatible, Follow, Valid, PairHolds, LinksHold, Matched, Rel;
      if n1 !in sim {
        RelRow(sim, n1);
        sim := sim[n1 := map[]];
      }
      RelHas(sim, n1, n2);
      if n2 in sim[n1] {
        if sim[n1][n2] == offset {
          return true;
        }
        sim := map[];
        return false;
      }
      if !Compatible(src[n1], dst[n2], o) {
        sim := map[];
        return false;
      }
      ghost var p := (n1, n2);
      var row: map<nat, nat> := sim[n1];
      row := row[n2 := offset];
      RelAdd(sim, n1, row, n2, offset);
      sim := sim[n1 := row];
      PairOpens(src, dst, before, p, offset, o);
      var rest := src[n1].links.Keys;
      while rest != {}
        invariant rest <= src[n1].links.Keys
        invariant Rel(sim).Keys <= Universe(src, dst)
        invariant Settled(src, dst, before, Rel(sim), {p}) && p in Rel(sim) && Rel(sim)[p] == offset
        invariant forall f | f in src[n1].links && f !in rest :: Matched(src, dst, p, offset, f, Rel(sim))
        invariant forall w :: Explains(src, dst, w, before, p, offset) ==> Within(Rel(sim), w)
      {
        var f :| f in rest;
        ghost var now := Rel(sim);
        match Follow(src, dst, n1, n2, offset, f) {
          case None =>
            Unmatched(src, dst, before, p, offset, f);
            sim := map[];
            return false;
          case Some(t) =>
            FollowLands(src, dst, n1, n2, offset, f);
            LinkExplained(src, dst, before, now, p, offset, f, t);
            ok := InsertNode(t.from, t.to, t.off);
            if !ok {
              sim := map[];
              return false;
            }
            TargetSettles(src, dst, now, Rel(sim), t);
            LinkSettled(src, dst, before, now, Rel(sim), p, offset, f, t, rest);
        }
        rest := rest - {f};
      }
      LinksClose(src, dst, Rel(sim), p, offset);
      return true;
    }

    /** Check that cell `c` is simulated by cell `d`. */
    method InsertCell(c: Option<Cell>, d: Option<Cell>) returns (ok: bool)
      requires Valid(src) && Valid(dst) && InBounds(src, c) && InBounds(dst, d)
      requires Rel(sim).Keys <= Universe(src, dst)
      modifies `sim
      ensures !ok ==> sim == map[]
      ensures ok ==> Rel(sim).Keys <= Universe(src, dst)
      ensures ok ==> Within(old(Rel(sim)), Rel(sim)) && Seats(src, dst, Rel(sim), c, d)
      ensures ok && RootFits(src, dst, c, d) ==> Settled(src, dst, old(Rel(sim)), Rel(sim), {})
      // what it accepts is a simulation exactly when the root pair fits
      ensures ok && IsSimulation(src, dst, old(Rel(sim))) ==>
                (IsSimulation(src, dst, Rel(sim)) <==> RootFits(src, dst, c, d))
      // and the cells meet exactly when the wrapped difference is a multiple of the stride
      ensures ok && RootLands(src, dst, c, d) ==> Covers(src, dst, Rel(sim), c, d)
      ensures ok && InWord(src, c) ==> (Covers(src, dst, Rel(sim), c, d) <==> RootLands(src, dst, c, d))
      // it accepts exactly what some relation admits, and makes the least such relation
      ensures (c.None? && d.None? ==> ok) && (ok ==> c.None? == d.None?)
      // a cell that lies before the other is only accepted for a plain node in an array
      ensures ok && c.Some? ==>
                NoWrap(src, dst, c, d) ||
                (!src[Resolve(src, c.value.node).node].isArray && dst[Resolve(dst, d.value.node).node].isArray)
      ensures ok && AllLinked(src, dst, old(Rel(sim))) ==>
                && AllLinked(src, dst, Rel(sim))
                && if c.Some? then Admits(src, dst, Rel(sim), old(Rel(sim)), c, d) else Rel(sim) == old(Rel(sim))
      ensures forall w :: Admits(src, dst, w, old(Rel(sim)), c, d) ==> ok && Within(Rel(sim), w)
      ensures NoWrap(src, dst, c, d) ==>
                forall w :: Accounts(src, dst, w, old(Rel(sim)), c, d) ==> ok && Within(Rel(sim), w)
    {
      hide NoWrap, Compatible, Valid, Covers, Seats, RootFits, RootLands, Explains, Settled, LinksHold;
      hide PairHolds, IsSimulation, Accounts, Admits, Rel, Adjust, ClientOffset;
      ghost var before := Rel(sim);
      NoWrapAdmits(src, dst, before, c, d);
      if c.None? != d.None? {
        Unequal(src, dst, before, c, d);
        sim := map[];
        return false;
      }
      if c.None? {
        NothingToSeat(src, dst, before, c, d);
        return true;
      }
      ValidAcyclic(src);
      ValidAcyclic(dst);
      var n1, n2 := Resolve(src, c.value.node).node, Resolve(dst, d.value.node).node;
      var o: nat;
      if dst[n2].isCollapsed {
        o := 0;
      } else {
        var o1, o2 := ClientOffset(src, c.value), ClientOffset(dst, d.value);
        if o2 < o1 {
          if src[n1].isArray || !dst[n2].isArray {
            Refused(src, dst, before, c, d);
            sim := map[];
            return false;
          }
        }
        o := Sub32(o2, o1);
      }
      Met(src, dst, before, c, d, o);
      ok := InsertNode(n1, n2, o);
      if ok {
        RootSettled(src, dst, before, Rel(sim), c, d, o);
        if AllLinked(src, dst, before) {
          AdmitsItself(src, dst, before, Rel(sim), c, d, o);
        }
        SeatedCovers(src, dst, Rel(sim), c, d);
      }
    }

    /** Whether every node is simulated by at most one node. */
    method IsFunction() returns (r: bool)
      ensures r <==> Functional(Rel(sim))
    {
      var rest := sim.Keys;
      while rest != {}
        invariant rest <= sim.Keys
        invariant forall n1 | n1 in sim && n1 !in rest :: |sim[n1]| <= 1
      {
        var n1 :| n1 in rest;
        if |sim[n1]| > 1 {
          CrowdedRow(sim, n1);
          return false;
        }
        rest := rest - {n1};
      }
      SparseRows(sim);
      return true;
    }

    /** Whether no cell simulates two nodes; by default only modified nodes matter. */
    method IsInjective(onlyModified: bool) returns (r: bool)
      ensures r <==> Injective(dst, Rel(sim), onlyModified)
    {
      hide Rel, CellsOf, NoClash, Rows, Row, Injective;
      var seen: set<Cell> := {};
      var rest := sim.Keys;
      ghost var w := Rel(sim);
      ghost var visited: set<Pair> := {};
      NothingVisited(dst, sim, onlyModified);
      assert sim.Keys - rest == {};
      while rest != {}
        invariant rest <= sim.Keys && visited <= w.Keys
        invariant visited == Rows(sim, sim.Keys - rest)
        invariant seen == CellsOf(w, visited) && NoClash(dst, w, onlyModified, visited)
      {
        var n1 :| n1 in rest;
        var row := sim[n1].Keys;
        ghost var before := visited;
        RowStarts(n1);
        assert sim[n1].Keys - row == {};
        while row != {}
          invariant row <= sim[n1].Keys && visited <= w.Keys
          invariant visited == before + Row(n1, sim[n1].Keys - row)
          invariant seen == CellsOf(w, visited) && NoClash(dst, w, onlyModified, visited)
        {
          var n2 :| n2 in row;
          var c := Cell(n2, sim[n1][n2]);
          RelHas(sim, n1, n2);
          NotVisited(sim, sim.Keys - rest, n1, sim[n1].Keys - row, n2);
          if !onlyModified || Host(dst, n2) {
            if c in seen {
              Clashes(dst, w, onlyModified, visited, (n1, n2));
              return false;
            }
          }
          SeesOneMore(dst, w, onlyModified, visited, (n1, n2));
          seen := seen + {c};
          visited := visited + {(n1, n2)};
          assert sim[n1].Keys - (row - {n2}) == sim[n1].Keys - row + {n2};
          row := row - {n2};
        }
        RowDone(sim, sim.Keys - rest, n1);
        assert sim[n1].Keys - row == sim[n1].Keys;
        assert sim.Keys - (rest - {n1}) == sim.Keys - rest + {n1};
        rest := rest - {n1};
      }
      assert sim.Keys - rest == sim.Keys;
      AllVisited(dst, sim, onlyModified);
      return true;
    }
  }

  // ---------------------------------------------------------------- reading the relation

  lemma CrowdedRow(sim: Sim, n1: nat)
    requires n1 in sim && |sim[n1]| > 1
    ensures !Functional(Rel(sim))
  {
    var row := sim[n1].Keys;
    var a :| a in row;
    assert |row - {a}| == |row| - 1;
    var b :| b in row - {a};
    RelHas(sim, n1, a);
    RelHas(sim, n1, b);
    assert (n1, a).0 == (n1, b).0;
  }

  lemma SparseRows(sim: Sim)
    requires forall n1 | n1 in sim :: |sim[n1]| <= 1
    ensures Functional(Rel(sim))
  {
    forall p, q | p in Rel(sim) && q in Rel(sim) && p.0 == q.0 ensures p.1 == q.1 {
      RelHas(sim, p.0, p.1);
      RelHas(sim, q.0, q.1);
      var row := sim[p.0].Keys;
      if p.1 != q.1 {
        assert {p.1, q.1} <= row;
        SubsetSize({p.1, q.1}, row);
      }
    }
  }

  lemma SubsetSize<T>(a: set<T>, b: set<T>)
    requires a <= b
    ensures |a| <= |b|
  {
    assert b == a + (b - a);
  }

  ghost function Row(n1: nat, part: set<nat>): set<Pair> {
    set n2 | n2 in part :: (n1, n2)
  }

  ghost function Rows(sim: Sim, done: set<nat>): set<Pair> {
    set p | p in PairsOf(sim) && p.0 in done
  }

  ghost function CellsOf(w: Relation, visited: set<Pair>): set<Cell>
    requires visited <= w.Keys
  {
    set p | p in visited :: Cell(p.1, w[p])
  }

  ghost predicate NoClash(dst: seq<Node>, w: Relation, onlyModified: bool, visited: set<Pair>)
    requires visited <= w.Keys
  {
    forall p, q | p in visited && q in visited && p.1 == q.1 && w[p] == w[q] && (!onlyModified || Host(dst, p.1)) ::
      p.0 == q.0
  }

  lemma Clashes(dst: seq<Node>, w: Relation, onlyModified: bool, visited: set<Pair>, q: Pair)
    requires visited <= w.Keys && q in w && q !in visited
    requires Cell(q.1, w[q]) in CellsOf(w, visited) && (!onlyModified || Host(dst, q.1))
    ensures !Injective(dst, w, onlyModified)
  {
    var p :| p in visited && Cell(p.1, w[p]) == Cell(q.1, w[q]);
    assert p.0 != q.0;
  }

  lemma SeesOneMore(dst: seq<Node>, w: Relation, onlyModified: bool, visited: set<Pair>, q: Pair)
    requires visited <= w.Keys && q in w && NoClash(dst, w, onlyModified, visited)
    requires !onlyModified || Host(dst, q.1) ==> Cell(q.1, w[q]) !in CellsOf(w, visited)
    ensures CellsOf(w, visited + {q}) == CellsOf(w, visited) + {Cell(q.1, w[q])}
    ensures NoClash(dst, w, onlyModified, visited + {q})
  {
    forall p | p in visited ensures Cell(p.1, w[p]) in CellsOf(w, visited) {
    }
  }

  lemma NothingVisited(dst: seq<Node>, sim: Sim, onlyModified: bool)
    ensures Rows(sim, {}) == {} && CellsOf(Rel(sim), {}) == {} && NoClash(dst, Rel(sim), onlyModified, {})
  {
  }

  lemma AllVisited(dst: seq<Node>, sim: Sim, onlyModified: bool)
    ensures Rows(sim, sim.Keys) == Rel(sim).Keys
    ensures NoClash(dst, Rel(sim), onlyModified, Rel(sim).Keys) <==> Injective(dst, Rel(sim), onlyModified)
  {
  }

  lemma RowStarts(n1: nat)
    ensures Row(n1, {}) == {}
  {
  }

  lemma NotVisited(sim: Sim, done: set<nat>, n1: nat, part: set<nat>, n2: nat)
    requires n1 !in done && n2 !in part
    ensures (n1, n2) !in Rows(sim, done) + Row(n1, part)
    ensures Row(n1, part + {n2}) == Row(n1, part) + {(n1, n2)}
  {
  }

  lemma RowDone(sim: Sim, done: set<nat>, n1: nat)
    requires n1 in sim
    ensures Rows(sim, done) + Row(n1, sim[n1].Keys) == Rows(sim, done + {n1})
  {
  }

  // ---------------------------------------------------------------- root cells

  lemma Unequal(src: seq<Node>, dst: seq<Node>, known: Relation, c: Option<Cell>, d: Option<Cell>)
    requires Valid(src) && Valid(dst) && InBounds(src, c) && InBounds(dst, d) && c.None? != d.None?
    ensures forall w :: !Admits(src, dst, w, known, c, d) && !Accounts(src, dst, w, known, c, d)
  {
  }

  lemma NothingToSeat(src: seq<Node>, dst: seq<Node>, known: Relation, c: Option<Cell>, d: Option<Cell>)
    requires Valid(src) && Valid(dst) && InBounds(src, c) && InBounds(dst, d) && c.None? && d.None?
    ensures Seats(src, dst, known, c, d) && Covers(src, dst, known, c, d)
    ensures RootFits(src, dst, c, d) && RootLands(src, dst, c, d) && Settled(src, dst, known, known, {})
    ensures Within(known, known)
    ensures forall w :: !Admits(src, dst, w, known, c, d)
    ensures forall w :: Accounts(src, dst, w, known, c, d) ==> Within(known, w)
  {
  }

  lemma Refused(src: seq<Node>, dst: seq<Node>, known: Relation, c: Option<Cell>, d: Option<Cell>)
    requires Valid(src) && Valid(dst) && InBounds(src, c) && InBounds(dst, d) && c.Some? && d.Some?
    requires Meet(src, dst, c.value, d.value).None?
    ensures forall w :: !Admits(src, dst, w, known, c, d)
    ensures !NoWrap(src, dst, c, d)
  {
  }

  /** Where the mapper goes from the roots. */
  lemma Met(src: seq<Node>, dst: seq<Node>, known: Relation, c: Option<Cell>, d: Option<Cell>, o: nat)
    requires Valid(src) && Valid(dst) && InBounds(src, c) && InBounds(dst, d) && c.Some? && d.Some?
    requires Meet(src, dst, c.value, d.value) ==
             Some(Target(Resolve(src, c.value.node).node, Resolve(dst, d.value.node).node, o))
    ensures var p := (Resolve(src, c.value.node).node, Resolve(dst, d.value.node).node);
      forall w :: Admits(src, dst, w, known, c, d) ==>
        Explains(src, dst, w, known, p, Adjust(dst[p.1], o)) && (p in known || Compatible(src[p.0], dst[p.1], o))
    ensures NoWrap(src, dst, c, d) ||
            (!src[Resolve(src, c.value.node).node].isArray && dst[Resolve(dst, d.value.node).node].isArray)
  {
    hide Explains, Compatible, Adjust;
  }

  lemma NoWrapAdmits(src: seq<Node>, dst: seq<Node>, known: Relation, c: Option<Cell>, d: Option<Cell>)
    requires Valid(src) && Valid(dst) && InBounds(src, c) && InBounds(dst, d)
    ensures NoWrap(src, dst, c, d) && c.Some? && d.Some? ==>
              forall w :: Accounts(src, dst, w, known, c, d) ==> Admits(src, dst, w, known, c, d)
  {
    hide Admits, Accounts, NoWrap;
    if NoWrap(src, dst, c, d) && c.Some? && d.Some? {
      forall w | Accounts(src, dst, w, known, c, d) ensures Admits(src, dst, w, known, c, d) {
        AccountAdmits(src, dst, w, known, c.value, d.value);
      }
    }
  }

  lemma AccountAdmits(src: seq<Node>, dst: seq<Node>, w: Relation, known: Relation, c: Cell, d: Cell)
    requires Valid(src) && Valid(dst) && c.node < |src| && d.node < |dst|
    requires NoWrap(src, dst, Some(c), Some(d)) && Accounts(src, dst, w, known, Some(c), Some(d))
    ensures Admits(src, dst, w, known, Some(c), Some(d))
  {
    hide Valid, Explains, PairHolds, IsSimulation, Compatible, Within;
    ValidAcyclic(src);
    ValidAcyclic(dst);
    var p := (Resolve(src, c.node).node, Resolve(dst, d.node).node);
    SimulationExplains(src, dst, w, known, p, w[p]);
    AdjustedPair(src, dst, w, p);
    MeetSeats(src, dst, w[p], c, d);
    CompatibleAdjusted(src[p.0], dst[p.1], Meet(src, dst, c, d).value.off);
    hide Adjust;
  }

  lemma AdjustedPair(src: seq<Node>, dst: seq<Node>, w: Relation, p: Pair)
    requires Valid(src) && Valid(dst) && IsSimulation(src, dst, w) && p in w
    ensures IsRep(src, p.0) && IsRep(dst, p.1) && w[p] == Adjust(dst[p.1], w[p])
  {
    assert PairHolds(src, dst, p, w[p], w);
  }

  /** Without a wrap there is one place where `c` lands on `d`, and the mapper puts the pair there. */
  lemma MeetSeats(src: seq<Node>, dst: seq<Node>, k: nat, c: Cell, d: Cell)
    requires Valid(src) && Valid(dst) && c.node < |src| && d.node < |dst| && NoWrap(src, dst, Some(c), Some(d))
    ensures var y := dst[Resolve(dst, d.node).node]; var m := Meet(src, dst, c, d);
      && m.Some? && m.value.from == Resolve(src, c.node).node && m.value.to == Resolve(dst, d.node).node
      && (y.isArray ==> m.value.off == Adjust(y, m.value.off))
      && (k == Adjust(y, k) && (y.isCollapsed || Adjust(y, k + ClientOffset(src, c)) == ClientOffset(dst, d)) ==>
            Adjust(y, m.value.off) == k)
      && (y.isCollapsed || Adjust(y, Adjust(y, m.value.off) + ClientOffset(src, c)) == ClientOffset(dst, d))
  {
    var r := Resolve(dst, d.node);
    var y := dst[r.node];
    SoundArray(dst, r.node);
    hide Valid;
    var o1, o2 := ClientOffset(src, c), ClientOffset(dst, d);
    if y.isArray {
      SmallOffset(y, r.off + d.off);
      assert o2 < y.size && o1 <= o2;
      SmallOffset(y, o2 - o1);
      SmallOffset(y, o2);
      if k < y.size && (k + o1) % y.size == o2 {
        SamePlace(k, o2 - o1, o1, y.size);
      }
      SmallOffset(y, k);
    }
  }

  lemma SoundArray(ns: seq<Node>, n: nat)
    requires Valid(ns) && IsRep(ns, n)
    ensures ns[n].isArray ==> ns[n].size > 0 && !ns[n].isCollapsed
  {
    assert SoundNode(ns[n]);
  }

  /** Two offsets within a stride that reach the same place from `d` on are one. */
  lemma SamePlace(j: nat, k: nat, d: nat, m: nat)
    requires m > 0 && j < m && k < m && (j + d) % m == (k + d) % m
    ensures j == k
  {
    ModDistance(j + d, k + d, m);
    var q := (j - k) / m;
    assert j - k == q * m;
    NoSmallMultiple(q, m);
  }

  /** What inserting the root pair settles. */
  /** Every link of every pair is matched. */
  ghost predicate AllLinked(src: seq<Node>, dst: seq<Node>, w: Relation)
    requires Valid(src) && Valid(dst)
  {
    forall q | q in w :: LinksHold(src, dst, q, w[q], w)
  }

  /** What the mapper makes is one of the relations that let it accept. */
  lemma AdmitsItself(src: seq<Node>, dst: seq<Node>, before: Relation, now: Relation, c: Option<Cell>, d: Option<Cell>,
                     o: nat)
    requires Valid(src) && Valid(dst) && InBounds(src, c) && InBounds(dst, d) && c.Some? && d.Some?
    requires Meet(src, dst, c.value, d.value) ==
             Some(Target(Resolve(src, c.value.node).node, Resolve(dst, d.value.node).node, o))
    requires var p := (Resolve(src, c.value.node).node, Resolve(dst, d.value.node).node);
      && p in now && now[p] == Adjust(dst[p.1], o) && Settled(src, dst, before, now, {p})
      && (p in before || (Compatible(src[p.0], dst[p.1], o) && LinksHold(src, dst, p, Adjust(dst[p.1], o), now)))
    requires AllLinked(src, dst, before)
    ensures AllLinked(src, dst, now) && Admits(src, dst, now, before, c, d)
  {
    hide Valid, LinksHold, Compatible, ClientOffset, Adjust, Meet;
    ValidAcyclic(src);
    ValidAcyclic(dst);
    var p := (Resolve(src, c.value.node).node, Resolve(dst, d.value.node).node);
    forall q | q in now ensures LinksHold(src, dst, q, now[q], now) {
      if q in before {
        LinksHoldMore(src, dst, q, before[q], before, now);
      }
    }
  }

  lemma RootSettled(src: seq<Node>, dst: seq<Node>, before: Relation, now: Relation, c: Option<Cell>, d: Option<Cell>,
                    o: nat)
    requires Valid(src) && Valid(dst) && InBounds(src, c) && InBounds(dst, d) && c.Some? && d.Some?
    requires Meet(src, dst, c.value, d.value) ==
             Some(Target(Resolve(src, c.value.node).node, Resolve(dst, d.value.node).node, o))
    requires var p := (Resolve(src, c.value.node).node, Resolve(dst, d.value.node).node);
      && p in now && now[p] == Adjust(dst[p.1], o) && Settled(src, dst, before, now, {p})
      && (p in before || (Compatible(src[p.0], dst[p.1], o) && LinksHold(src, dst, p, Adjust(dst[p.1], o), now)))
    ensures Seats(src, dst, now, c, d) && Within(before, now)
    ensures RootFits(src, dst, c, d) ==> Settled(src, dst, before, now, {})
    ensures IsSimulation(src, dst, before) ==> (IsSimulation(src, dst, now) <==> RootFits(src, dst, c, d))
  {
    hide Valid, LinksHold, Compatible, ClientOffset, RootFits, Adjust, Meet;
    ValidAcyclic(src);
    ValidAcyclic(dst);
    var p := (Resolve(src, c.value.node).node, Resolve(dst, d.value.node).node);
    if RootFits(src, dst, c, d) {
      if p !in before {
        RootCompatible(src, dst, c.value, d.value, o);
      }
      assert Settled(src, dst, before, now, {});
      if IsSimulation(src, dst, before) {
        SettledSimulates(src, dst, before, now);
      }
    }
    if IsSimulation(src, dst, now) {
      assert PairHolds(src, dst, p, now[p], now);
      CompatibleFits(src, dst, c.value, d.value, o);
    }
  }

  /** A pair accepted at the roots is compatible where it is put, if it fits there ... */
  lemma RootCompatible(src: seq<Node>, dst: seq<Node>, c: Cell, d: Cell, o: nat)
    requires Valid(src) && Valid(dst) && c.node < |src| && d.node < |dst|
    requires var n1, n2 := Resolve(src, c.node).node, Resolve(dst, d.node).node;
      Meet(src, dst, c, d) == Some(Target(n1, n2, o)) && Compatible(src[n1], dst[n2], o)
    requires RootFits(src, dst, Some(c), Some(d))
    ensures var n1, n2 := Resolve(src, c.node).node, Resolve(dst, d.node).node;
            Compatible(src[n1], dst[n2], Adjust(dst[n2], o))
  {
    var n1, n2 := Resolve(src, c.node).node, Resolve(dst, d.node).node;
    SoundArray(dst, n2);
    hide Valid;
    AdjustIdem(dst[n2], o);
    if NoWrap(src, dst, Some(c), Some(d)) {
      MeetSeats(src, dst, 0, c, d);
      CompatibleAdjusted(src[n1], dst[n2], o);
    }
  }

  /** ... and fits there if it is compatible there. */
  lemma CompatibleFits(src: seq<Node>, dst: seq<Node>, c: Cell, d: Cell, o: nat)
    requires Valid(src) && Valid(dst) && c.node < |src| && d.node < |dst|
    requires var n1, n2 := Resolve(src, c.node).node, Resolve(dst, d.node).node;
      Meet(src, dst, c, d) == Some(Target(n1, n2, o)) && Compatible(src[n1], dst[n2], Adjust(dst[n2], o))
    ensures RootFits(src, dst, Some(c), Some(d))
  {
    AdjustIdem(dst[Resolve(dst, d.node).node], o);
    hide Valid;
  }

  /** A root seated by a simulation fits. */
  lemma SeatedFits(src: seq<Node>, dst: seq<Node>, w: Relation, c: Option<Cell>, d: Option<Cell>)
    requires Valid(src) && Valid(dst) && InBounds(src, c) && InBounds(dst, d)
    requires Seats(src, dst, w, c, d) && IsSimulation(src, dst, w)
    ensures RootFits(src, dst, c, d)
  {
    hide Valid, LinksHold, Compatible, RootFits;
    if c.Some? {
      ValidAcyclic(src);
      ValidAcyclic(dst);
      MeetWhere(src, dst, c.value, d.value);
      var t := Meet(src, dst, c.value, d.value).value;
      assert PairHolds(src, dst, (t.from, t.to), w[(t.from, t.to)], w);
      CompatibleFits(src, dst, c.value, d.value, t.off);
    } else {
      NothingToSeat(src, dst, w, c, d);
    }
  }

  lemma MeetWhere(src: seq<Node>, dst: seq<Node>, c: Cell, d: Cell)
    requires Valid(src) && Valid(dst) && c.node < |src| && d.node < |dst|
    ensures var m := Meet(src, dst, c, d);
      m.Some? ==> m.value.from == Resolve(src, c.node).node && m.value.to == Resolve(dst, d.node).node
  {
    hide ClientOffset;
  }

  lemma SettledSimulates(src: seq<Node>, dst: seq<Node>, before: Relation, now: Relation)
    requires Valid(src) && Valid(dst) && IsSimulation(src, dst, before) && Settled(src, dst, before, now, {})
    ensures IsSimulation(src, dst, now)
  {
    hide PairHolds;
    forall p | p in now ensures PairHolds(src, dst, p, now[p], now) {
      if p in before {
        PairHoldsMore(src, dst, p, before[p], before, now);
      }
    }
  }

  /** The cells meet where the mapper puts the nodes if and only if the offset does not wrap
      or the stride divides the word. */
  lemma SeatedCovers(src: seq<Node>, dst: seq<Node>, w: Relation, c: Option<Cell>, d: Option<Cell>)
    requires Valid(src) && Valid(dst) && InBounds(src, c) && InBounds(dst, d) && Seats(src, dst, w, c, d)
    ensures RootLands(src, dst, c, d) ==> Covers(src, dst, w, c, d)
    ensures InWord(src, c) ==> (Covers(src, dst, w, c, d) <==> RootLands(src, dst, c, d))
  {
    if c.Some? {
      if NoWrap(src, dst, c, d) {
        MeetSeats(src, dst, 0, c.value, d.value);
      } else {
        WrapLands(src, dst, c.value, d.value);
      }
      hide Valid, ClientOffset, Adjust, Meet;
    }
  }

  lemma WrapLands(src: seq<Node>, dst: seq<Node>, c: Cell, d: Cell)
    requires Valid(src) && Valid(dst) && c.node < |src| && d.node < |dst|
    requires !NoWrap(src, dst, Some(c), Some(d)) && Meet(src, dst, c, d).Some?
    ensures var y := dst[Resolve(dst, d.node).node]; var o1, o2 := ClientOffset(src, c), ClientOffset(dst, d);
      var k := Adjust(y, Meet(src, dst, c, d).value.off);
      && y.size > 0 && !y.isCollapsed
      && (WORD % y.size == 0 ==> Adjust(y, k + o1) == o2)
      && (o1 < WORD && Adjust(y, k + o1) == o2 ==> WORD % y.size == 0)
  {
    var r := Resolve(dst, d.node);
    var y := dst[r.node];
    SoundArray(dst, r.node);
    hide Valid;
    var o1, o2 := ClientOffset(src, c), ClientOffset(dst, d);
    SmallOffset(y, r.off + d.off);
    ModOfMod(Sub32(o2, o1), o1, y.size, y.size) by { DivModUnique(y.size, y.size, 1, 0); }
    WrapAligns(y.size, o1, o2);
  }

  /** The difference of two offsets, wrapped at 32 bits, leads from the one to the other
      whenever the stride divides the word, and within the word only then. */
  lemma WrapAligns(stride: nat, o1: nat, o2: nat)
    requires 0 < stride && o2 < stride && o2 < o1
    ensures WORD % stride == 0 ==> (Sub32(o2, o1) + o1) % stride == o2
    ensures o1 < WORD && (Sub32(o2, o1) + o1) % stride == o2 ==> WORD % stride == 0
  {
    var q := (o2 - o1) / WORD;
    var e := -q * WORD;
    assert Sub32(o2, o1) + o1 == e + o2;
    ModDistance(e + o2, o2, stride);
    assert o2 % stride == o2 by { DivModUnique(o2, stride, 0, o2); }
    if WORD % stride == 0 {
      var k := WORD / stride;
      assert e == (-q * k) * stride + 0;
      ModShift(-q * k, 0, stride);
    }
    if o1 < WORD {
      assert q == -1;
    }
  }

  lemma PairOpens(src: seq<Node>, dst: seq<Node>, before: Relation, p: Pair, offset: nat, o: nat)
    requires Valid(src) && Valid(dst) && p !in before && IsRep(dst, p.1)
    ensures Settled(src, dst, before, before[p := offset], {p})
    ensures forall w :: Explains(src, dst, w, before, p, offset) ==> Within(before[p := offset], w)
  {
  }

  lemma ExplainedMatched(src: seq<Node>, dst: seq<Node>, w: Relation, before: Relation, p: Pair, offset: nat, f: Field)
    requires Valid(src) && Valid(dst) && IsRep(src, p.0) && IsRep(dst, p.1) && f in src[p.0].links
    requires Explains(src, dst, w, before, p, offset)
    ensures Matched(src, dst, p, offset, f, w)
  {
    hide Follow, Compatible, Matched;
    assert LinksHold(src, dst, p, w[p], w);
  }

  lemma Unmatched(src: seq<Node>, dst: seq<Node>, before: Relation, p: Pair, offset: nat, f: Field)
    requires Valid(src) && Valid(dst) && IsRep(src, p.0) && IsRep(dst, p.1) && f in src[p.0].links
    requires Follow(src, dst, p.0, p.1, offset, f).None?
    ensures forall w :: !Explains(src, dst, w, before, p, offset)
  {
    hide Follow, Explains;
    forall w ensures Explains(src, dst, w, before, p, offset) ==> Follow(src, dst, p.0, p.1, offset, f).Some? {
      if Explains(src, dst, w, before, p, offset) {
        ExplainedMatched(src, dst, w, before, p, offset, f);
      }
    }
  }

  /** A relation that explains the pair explains where its links lead. */
  lemma LinkExplained(src: seq<Node>, dst: seq<Node>, before: Relation, now: Relation, p: Pair, offset: nat, f: Field,
                      t: Target)
    requires Valid(src) && Valid(dst) && IsRep(src, p.0) && IsRep(dst, p.1) && f in src[p.0].links
    requires Follow(src, dst, p.0, p.1, offset, f) == Some(t) && Within(before, now) && p in now
    requires forall w :: Explains(src, dst, w, before, p, offset) ==> Within(now, w)
    ensures IsRep(src, t.from) && IsRep(dst, t.to)
    ensures forall w :: Explains(src, dst, w, before, p, offset) ==>
              Explains(src, dst, w, now, (t.from, t.to), Adjust(dst[t.to], t.off)) &&
              ((t.from, t.to) in now || Compatible(src[t.from], dst[t.to], t.off))
  {
    hide Valid, Acyclic, Explains, Follow, Compatible, Adjust, Within;
    FollowLands(src, dst, p.0, p.1, offset, f);
    forall w | Explains(src, dst, w, before, p, offset)
      ensures Explains(src, dst, w, now, (t.from, t.to), Adjust(dst[t.to], t.off))
      ensures (t.from, t.to) in now || Compatible(src[t.from], dst[t.to], t.off)
    {
      TargetExplained(src, dst, w, before, now, p, offset, f, t);
    }
  }

  lemma TargetExplained(src: seq<Node>, dst: seq<Node>, w: Relation, before: Relation, now: Relation, p: Pair,
                        offset: nat, f: Field, t: Target)
    requires Valid(src) && Valid(dst) && IsRep(src, p.0) && IsRep(dst, p.1) && f in src[p.0].links
    requires Follow(src, dst, p.0, p.1, offset, f) == Some(t) && Within(before, now) && p in now && Within(now, w)
    requires IsRep(src, t.from) && IsRep(dst, t.to) && (dst[t.to].isArray ==> t.off == Adjust(dst[t.to], t.off))
    requires Explains(src, dst, w, before, p, offset)
    ensures Explains(src, dst, w, now, (t.from, t.to), Adjust(dst[t.to], t.off))
    ensures (t.from, t.to) in now || Compatible(src[t.from], dst[t.to], t.off)
  {
    hide Valid, Acyclic, Follow, Compatible, Adjust, LinksHold;
    ExplainedMatched(src, dst, w, before, p, offset, f);
    CompatibleAdjusted(src[t.from], dst[t.to], t.off);
  }

  /** The pair a link leads to was known, or holds. */
  lemma TargetSettles(src: seq<Node>, dst: seq<Node>, now: Relation, later: Relation, t: Target)
    requires Valid(src) && Valid(dst) && IsRep(src, t.from) && IsRep(dst, t.to)
    requires dst[t.to].isArray ==> t.off == Adjust(dst[t.to], t.off)
    requires var p := (t.from, t.to);
      && p in later && later[p] == Adjust(dst[t.to], t.off) && Settled(src, dst, now, later, {p})
      && (p in now || (Compatible(src[t.from], dst[t.to], t.off) &&
                       LinksHold(src, dst, p, Adjust(dst[t.to], t.off), later)))
    ensures Settled(src, dst, now, later, {})
  {
    CompatibleAdjusted(src[t.from], dst[t.to], t.off);
    hide Valid, Compatible, LinksHold, Adjust;
  }

  lemma LinkSettled(src: seq<Node>, dst: seq<Node>, before: Relation, now: Relation, later: Relation,
                    p: Pair, offset: nat, f: Field, t: Target, rest: set<Field>)
    requires Valid(src) && Valid(dst) && IsRep(src, p.0) && IsRep(dst, p.1) && f in src[p.0].links
    requires Follow(src, dst, p.0, p.1, offset, f) == Some(t) && t.to < |dst|
    requires Settled(src, dst, before, now, {p}) && p in now && now[p] == offset
    requires Settled(src, dst, now, later, {})
    requires (t.from, t.to) in later && later[(t.from, t.to)] == Adjust(dst[t.to], t.off)
    requires forall g | g in src[p.0].links && g !in rest :: Matched(src, dst, p, offset, g, now)
    ensures Settled(src, dst, before, later, {p}) && p in later && later[p] == offset
    ensures forall g | g in src[p.0].links && g !in rest - {f} :: Matched(src, dst, p, offset, g, later)
  {
    hide Follow, Adjust;
    forall q | q in later && q !in before && q !in {p} ensures PairHolds(src, dst, q, later[q], later) {
      if q in now {
        PairHoldsMore(src, dst, q, now[q], now, later);
      }
    }
    hide PairHolds;
    forall g | g in src[p.0].links && g !in rest - {f} ensures Matched(src, dst, p, offset, g, later) {
      if g != f {
        assert Matched(src, dst, p, offset, g, now);
      }
    }
  }

  lemma LinksClose(src: seq<Node>, dst: seq<Node>, now: Relation, p: Pair, offset: nat)
    requires Valid(src) && Valid(dst) && IsRep(src, p.0) && IsRep(dst, p.1) && offset == Adjust(dst[p.1], offset)
    requires forall f | f in src[p.0].links :: Matched(src, dst, p, offset, f, now)
    ensures LinksHold(src, dst, p, offset, now)
  {
    hide Follow, Adjust;
  }
}
