/** What a caller that has taken in its callee's memory keeps of it, and why it then
    simulates the callee. */
module Composition {
  import opened PointsTo
  import opened Forwarding
  import opened Candidates
  import opened Cloning
  import opened Mapper
  import opened Propagation

  /** A cell of the callee (a global, the return or a formal) and the caller's scalar for it. */
  datatype Root = Root(cell: Cell, arg: nat, formal: bool)

  /** The caller has kept what callee node `x` says: its collapse, and its links between clones. */
  ghost predicate KeptAt(callee: seq<Node>, t: seq<Node>, cache: Cache, x: nat)
    requires Valid(callee)
  {
    && Seated(t, cache) && x in cache && IsRep(callee, x)
    && (callee[x].isCollapsed ==> t[Seat(t, cache, x).node].isCollapsed)
    && forall f | f in callee[x].links ::
         && Resolve(callee, callee[x].links[f].node).node in cache
         && HasEdge(t, cache[x].0, f, CloneCell(callee, cache, callee[x].links[f]))
  }

  ghost predicate Kept(callee: seq<Node>, t: seq<Node>, cache: Cache)
    requires Valid(callee)
  {
    Seated(t, cache) && forall x | x in cache :: KeptAt(callee, t, cache, x)
  }

  /** `held` is the clone of the cell of `root`. */
  ghost predicate Kin(callee: seq<Node>, t: seq<Node>, cache: Cache, root: Root, held: Cell) {
    && Acyclic(callee) && Acyclic(t) && root.cell.node < |callee| && Resolve(callee, root.cell.node).node in cache
    && Same(t, held, CloneCell(callee, cache, root.cell))
  }

  /** The scalar of `root` holds the clone of its cell. */
  ghost predicate Landed(callee: seq<Node>, t: seq<Node>, cache: Cache, root: Root, values: map<nat, Cell>) {
    root.arg in values && Kin(callee, t, cache, root, values[root.arg])
  }

  // ---------------------------------------------------------------- the seating is a simulation

  /** The relation that sends each callee node to the seat of its clone. */
  ghost function Seating(t: seq<Node>, cache: Cache): Relation
    requires Seated(t, cache)
  {
    var pairs := set x | x in cache :: (x, Seat(t, cache, x).node);
    map p: Pair | p in pairs :: Adjust(t[p.1], Seat(t, cache, p.0).off)
  }

  lemma SeatingHas(t: seq<Node>, cache: Cache, x: nat)
    requires Seated(t, cache) && x in cache
    ensures var p := (x, Seat(t, cache, x).node);
      p in Seating(t, cache) && Seating(t, cache)[p] == Adjust(t[p.1], Seat(t, cache, x).off)
  {
  }

  lemma SeatingFunctional(t: seq<Node>, cache: Cache)
    requires Seated(t, cache)
    ensures Functional(Seating(t, cache))
  {
  }

  /** In array-free graphs the client offset is the raw one, or nothing on a collapsed node. */
  lemma PlainOffset(nd: Node, k: nat)
    requires !nd.isArray
    ensures Adjust(nd, k) == if nd.isCollapsed then 0 else k
  {
  }

  /** A callee cell and the node it is copied to line up with whatever the caller has merged them with. */
  lemma CellsLineUp(callee: seq<Node>, t: seq<Node>, n: nat, c: Cell, d: Cell)
    requires Valid(callee) && Acyclic(t) && ArrayFree(callee) && ArrayFree(t) && c.node < |callee| && n < |t|
    requires var r := Resolve(callee, c.node);
      && (callee[r.node].isCollapsed ==> t[Resolve(t, n).node].isCollapsed)
      && Same(t, d, Cell(n, r.off + c.off))
    ensures var y := Resolve(t, n);
      && d.node < |t| && Resolve(t, d.node).node == y.node
      && (t[y.node].isCollapsed || ClientOffset(t, d) == y.off + ClientOffset(callee, c))
  {
  }

  lemma KeptHere(callee: seq<Node>, t: seq<Node>, cache: Cache, x: nat)
    requires Valid(callee) && Kept(callee, t, cache) && x in cache
    ensures Seated(t, cache) && KeptAt(callee, t, cache, x) && IsRep(callee, x)
    ensures callee[x].isCollapsed ==> t[Seat(t, cache, x).node].isCollapsed
  {
  }

  lemma KeptLink(callee: seq<Node>, t: seq<Node>, cache: Cache, x: nat, f: Field)
    requires Valid(callee) && KeptAt(callee, t, cache, x) && f in callee[x].links && callee[x].links[f].node < |callee|
    ensures Acyclic(t) && cache[x].0 < |t| && Resolve(callee, callee[x].links[f].node).node in cache
    ensures HasEdge(t, cache[x].0, f, CloneCell(callee, cache, callee[x].links[f]))
  {
    hide HasEdge;
  }

  /** The mapper finds the link the caller keeps for a seated node. */
  lemma FollowFinds(callee: seq<Node>, t: seq<Node>, x: nat, y: Cell, f: Field)
    requires Valid(callee) && Valid(t) && IsRep(callee, x) && IsRep(t, y.node) && !t[y.node].isArray
    requires f in callee[x].links
    requires Lookup(t[y.node].links, Field(Adjust(t[y.node], y.off + f.off), f.ty)).Some?
    ensures var found := Lookup(t[y.node].links, Field(Adjust(t[y.node], y.off + f.off), f.ty)).value;
      && found.node < |t|
      && Follow(callee, t, x, y.node, Adjust(t[y.node], y.off), f) == FollowCells(callee, t, callee[x].links[f], found)
  {
    PlainOffset(t[y.node], y.off);
    LookupInBounds(t, y.node, Field(Adjust(t[y.node], y.off + f.off), f.ty));
    hide Valid, FollowCells;
  }

  lemma LookupInBounds(ns: seq<Node>, n: nat, g: Field)
    requires Valid(ns) && n < |ns| && Lookup(ns[n].links, g).Some?
    ensures Lookup(ns[n].links, g).value.node < |ns|
  {
  }

  /** Two cells that line up lead the mapper to the node the first is copied to. */
  lemma FollowLines(callee: seq<Node>, t: seq<Node>, n: nat, c: Cell, d: Cell)
    requires Valid(callee) && Acyclic(t) && ArrayFree(callee) && ArrayFree(t) && c.node < |callee| && n < |t|
    requires var r := Resolve(callee, c.node);
      && (callee[r.node].isCollapsed ==> t[Resolve(t, n).node].isCollapsed)
      && Same(t, d, Cell(n, r.off + c.off))
    ensures d.node < |t|
    ensures var x := Resolve(callee, c.node).node; var y := Resolve(t, n);
      var m := FollowCells(callee, t, c, d);
      m.Some? && m.value.from == x && m.value.to == y.node && Adjust(t[y.node], m.value.off) == Adjust(t[y.node], y.off)
  {
    CellsLineUp(callee, t, n, c, d);
    hide Valid, Canon, ClientOffset;
  }

  /** One link of a callee node, matched in the caller. */
  lemma LinkMatched(callee: seq<Node>, t: seq<Node>, cache: Cache, x: nat, f: Field)
    requires Valid(callee) && Valid(t) && ArrayFree(callee) && ArrayFree(t)
    requires Kept(callee, t, cache) && Seated(t, cache) && x in cache && IsRep(callee, x) && f in callee[x].links
    ensures var y := Seat(t, cache, x);
      Matched(callee, t, (x, y.node), Adjust(t[y.node], y.off), f, Seating(t, cache))
  {
    hide Kept, KeptAt, Valid, Seating, Canon, Same, Follow, FollowCells, Adjust;
    LinkInBounds(callee, x, f);
    var c := callee[x].links[f];
    var r := Resolve(callee, c.node);
    KeptHere(callee, t, cache, x);
    KeptLink(callee, t, cache, x, f);
    KeptHere(callee, t, cache, r.node);
    SeatingHas(t, cache, r.node);
    var y := Seat(t, cache, x);
    FollowFinds(callee, t, x, y, f);
    var found := Lookup(t[y.node].links, Field(Adjust(t[y.node], y.off + f.off), f.ty));
    FollowLines(callee, t, cache[r.node].0, c, found.value);
  }

  /** Sending each callee node to where its clone now is is a simulation. */
  lemma SeatingSimulates(callee: seq<Node>, t: seq<Node>, cache: Cache)
    requires Valid(callee) && Valid(t) && ArrayFree(callee) && ArrayFree(t) && Kept(callee, t, cache)
    requires Seated(t, cache)
    ensures IsSimulation(callee, t, Seating(t, cache))
  {
    hide Matched, Valid, Compatible, Kept, KeptAt;
    var w := Seating(t, cache);
    forall p | p in w ensures PairHolds(callee, t, p, w[p], w) {
      var x := p.0;
      assert x in cache && p.1 == Seat(t, cache, x).node;
      KeptHere(callee, t, cache, x);
      PairFits(callee[x], t[p.1], Seat(t, cache, x).off);
      forall f | f in callee[x].links ensures Matched(callee, t, p, w[p], f, w) {
        LinkMatched(callee, t, cache, x, f);
      }
    }
  }

  lemma PairFits(x: Node, y: Node, o: nat)
    requires !x.isArray && !y.isArray && (x.isCollapsed ==> y.isCollapsed)
    ensures Compatible(x, y, Adjust(y, o)) && Adjust(y, Adjust(y, o)) == Adjust(y, o)
  {
  }

  /** The seating puts a landed root where the caller has it. */
  lemma SeatingCovers(callee: seq<Node>, t: seq<Node>, cache: Cache, root: Root, values: map<nat, Cell>)
    requires Valid(callee) && Valid(t) && ArrayFree(callee) && ArrayFree(t) && Kept(callee, t, cache)
    requires Seated(t, cache)
    requires Landed(callee, t, cache, root, values)
    ensures root.cell.node < |callee| && root.arg in values && values[root.arg].node < |t|
    ensures Covers(callee, t, Seating(t, cache), Some(root.cell), Some(values[root.arg]))
    ensures NoWrap(callee, t, Some(root.cell), Some(values[root.arg]))
  {
    hide Kept, KeptAt, Valid, Acyclic, Seating, Canon, Adjust, Same, ClientOffset, ArrayFree, Covers, NoWrap;
    var x := Resolve(callee, root.cell.node).node;
    KeptHere(callee, t, cache, x);
    SeatingHas(t, cache, x);
    SameBounds(t, values[root.arg], CloneCell(callee, cache, root.cell));
    CellsLineUp(callee, t, cache[x].0, root.cell, values[root.arg]);
    NotAnArray(t, Seat(t, cache, x).node);
    LinedUpCovers(callee, t, Seating(t, cache), root.cell, values[root.arg], Seat(t, cache, x));
  }

  lemma LinedUpCovers(callee: seq<Node>, t: seq<Node>, w: Relation, formal: Cell, actual: Cell, y: Cell)
    requires Valid(callee) && Valid(t) && formal.node < |callee| && actual.node < |t|
    requires Resolve(t, actual.node).node == y.node && y.node < |t| && !t[y.node].isArray
    requires t[y.node].isCollapsed || ClientOffset(t, actual) == y.off + ClientOffset(callee, formal)
    requires var p := (Resolve(callee, formal.node).node, y.node); p in w && w[p] == Adjust(t[y.node], y.off)
    ensures Covers(callee, t, w, Some(formal), Some(actual)) && NoWrap(callee, t, Some(formal), Some(actual))
  {
    PlainOffset(t[y.node], y.off);
    PlainOffset(t[y.node], Adjust(t[y.node], y.off) + ClientOffset(callee, formal));
    hide Valid, ClientOffset;
  }

  lemma NotAnArray(ns: seq<Node>, n: nat)
    requires ArrayFree(ns) && n < |ns|
    ensures !ns[n].isArray
  {
  }

  lemma SameBounds(ns: seq<Node>, c: Cell, d: Cell)
    requires Acyclic(ns) && Same(ns, c, d)
    ensures c.node < |ns| && d.node < |ns|
  {
  }

  /** The ties of the call: each root's cell and what its scalar holds. */
  function Ties(roots: seq<Root>, values: map<nat, Cell>): (ties: seq<Tie>)
    requires forall r | r in roots :: r.arg in values
    ensures |ties| == |roots|
  {
    seq(|roots|, i requires 0 <= i < |roots| => Tie(Some(roots[i].cell), Some(values[roots[i].arg])))
  }

  /** A caller that kept every clone's links and landed every root simulates the callee. */
  lemma KeptSimulates(callee: seq<Node>, t: seq<Node>, cache: Cache, roots: seq<Root>, values: map<nat, Cell>)
    requires Valid(callee) && Valid(t) && ArrayFree(callee) && ArrayFree(t) && Kept(callee, t, cache)
    requires forall r | r in roots :: Landed(callee, t, cache, r, values)
    ensures forall r | r in roots :: r.arg in values
    ensures TiesInBounds(callee, t, Ties(roots, values)) && NoneWraps(callee, t, Ties(roots, values))
    ensures exists w :: Simulates(callee, t, w, Ties(roots, values)) && Functional(w)
  {
    forall r | r in roots ensures r.arg in values { assert Landed(callee, t, cache, r, values); }
    assert Seated(t, cache);
    hide Valid, Kept, KeptAt, Landed, Seating, IsSimulation, Covers, NoWrap, Functional, ArrayFree, Seated;
    var ties, w := Ties(roots, values), Seating(t, cache);
    SeatingSimulates(callee, t, cache);
    SeatingFunctional(t, cache);
    forall i | 0 <= i < |ties|
      ensures InBounds(callee, ties[i].callee) && InBounds(t, ties[i].caller)
      ensures Covers(callee, t, w, ties[i].callee, ties[i].caller) && NoWrap(callee, t, ties[i].callee, ties[i].caller)
    {
      assert roots[i] in roots;
      SeatingCovers(callee, t, cache, roots[i], values);
    }
    assert Simulates(callee, t, w, ties);
  }

  // ---------------------------------------------------------------- what a simulation cannot avoid

  /** Relation `w` has callee node `x` where `n` now is. */
  ghost predicate Pins(t: seq<Node>, w: Relation, x: nat, n: nat)
    requires Acyclic(t) && n < |t|
  {
    var y := Resolve(t, n);
    (x, y.node) in w && (t[y.node].isCollapsed || w[(x, y.node)] == y.off)
  }

  /** A tie pins the node under its callee cell. */
  lemma TiePins(callee: seq<Node>, t: seq<Node>, w: Relation, n: nat, c: Cell, d: Cell)
    requires Valid(callee) && Valid(t) && ArrayFree(callee) && ArrayFree(t)
    requires c.node < |callee| && n < |t| && d.node < |t|
    requires Covers(callee, t, w, Some(c), Some(d))
    requires var r := Resolve(callee, c.node);
      && (callee[r.node].isCollapsed ==> t[Resolve(t, n).node].isCollapsed)
      && Same(t, d, Cell(n, r.off + c.off))
    ensures Acyclic(t) && Pins(t, w, Resolve(callee, c.node).node, n)
    ensures NoWrap(callee, t, Some(c), Some(d))
  {
    ValidAcyclic(t);
    CellsLineUp(callee, t, n, c, d);
    var y := Resolve(t, n);
    NotAnArray(t, y.node);
    var p := (Resolve(callee, c.node).node, y.node);
    PlainOffset(t[y.node], w[p] + ClientOffset(callee, c));
    hide Valid, ClientOffset, Canon, ArrayFree;
  }

  /** A link of a pinned node pins the node it leads to. */
  lemma LinkPins(callee: seq<Node>, t: seq<Node>, w: Relation, x: nat, m: nat, f: Field, n: nat)
    requires Valid(callee) && Valid(t) && ArrayFree(callee) && ArrayFree(t) && IsSimulation(callee, t, w)
    requires IsRep(callee, x) && m < |t| && n < |t| && f in callee[x].links && callee[x].links[f].node < |callee|
    requires Pins(t, w, x, m)
    requires var c := callee[x].links[f]; var r := Resolve(callee, c.node);
      && (callee[r.node].isCollapsed ==> t[Resolve(t, n).node].isCollapsed)
      && HasEdge(t, m, f, Cell(n, r.off + c.off))
    ensures Pins(t, w, Resolve(callee, callee[x].links[f].node).node, n)
  {
    hide Valid, Same, Follow, FollowCells, ArrayFree, Adjust, Compatible, Canon;
    ValidAcyclic(t);
    var y := Resolve(t, m);
    NotAnArray(t, y.node);
    var p := (x, y.node);
    assert PairHolds(callee, t, p, w[p], w) && Matched(callee, t, p, w[p], f, w);
    PinnedOffset(t[y.node], y.off, w[p]);
    var found := Lookup(t[y.node].links, Field(Adjust(t[y.node], y.off + f.off), f.ty));
    FollowFinds(callee, t, x, y, f);
    FollowLines(callee, t, n, callee[x].links[f], found.value);
    var z := Resolve(t, n);
    NotAnArray(t, z.node);
    PlainOffset(t[z.node], z.off);
  }

  lemma PinnedOffset(nd: Node, o: nat, k: nat)
    requires !nd.isArray && (nd.isCollapsed || k == o) && k == Adjust(nd, k)
    ensures k == Adjust(nd, o)
  {
  }

  // ---------------------------------------------------------------- what cloning a root adds

  /** A node cloned since `known` has a link that leads to `x`. */
  ghost predicate LinkedAnew(callee: seq<Node>, known: Cache, now: Cache, x: nat)
    requires Valid(callee)
  {
    exists y, f :: LinksTo(callee, known, now, y, f, x)
  }

  ghost predicate LinksTo(callee: seq<Node>, known: Cache, now: Cache, y: nat, f: Field, x: nat)
    requires Valid(callee)
  {
    y in now && y !in known && y < |callee| && f in callee[y].links &&
      Resolve(callee, callee[y].links[f].node).node == x
  }

  lemma KeptIs(callee: seq<Node>, t: seq<Node>, cache: Cache, x: nat)
    requires Valid(callee) && Seated(t, cache) && x in cache && IsRep(callee, x)
    requires callee[x].isCollapsed ==> t[Seat(t, cache, x).node].isCollapsed
    requires forall f | f in callee[x].links ::
      && callee[x].links[f].node < |callee| && Resolve(callee, callee[x].links[f].node).node in cache
      && HasEdge(t, cache[x].0, f, CloneCell(callee, cache, callee[x].links[f]))
    ensures KeptAt(callee, t, cache, x)
  {
    hide HasEdge;
  }

  lemma LinkedBy(callee: seq<Node>, known: Cache, now: Cache, y: nat, f: Field, x: nat)
    requires Valid(callee) && LinksTo(callee, known, now, y, f, x)
    ensures LinkedAnew(callee, known, now, x)
  {
  }

  lemma SeatHere(t: seq<Node>, cache: Cache, x: nat)
    requires Seated(t, cache) && x in cache && IsRep(t, cache[x].0)
    ensures Acyclic(t) && cache[x].0 < |t| && Seat(t, cache, x) == Cell(cache[x].0, 0)
  {
  }

  lemma SoundKey(t: seq<Node>, n: nat, f: Field)
    requires Valid(t) && IsRep(t, n) && f in t[n].links
    ensures Adjust(t[n], f.off) == f.off
  {
    assert SoundNode(t[n]);
  }

  lemma CopiedLink(callee: seq<Node>, t: seq<Node>, cache: Cache, x: nat, f: Field)
    requires Valid(callee) && x < |callee| && AllCopied(callee, t, cache, x) && f in callee[x].links
    requires callee[x].links[f].node < |callee|
    ensures Seated(t, cache) && x in cache && f in t[cache[x].0].links
    ensures Resolve(callee, callee[x].links[f].node).node in cache
    ensures t[cache[x].0].links[f] == Redirected(callee, t, cache, callee[x].links[f])
  {
  }

  lemma AdjustZero(nd: Node)
    ensures Adjust(nd, 0) == 0
  {
  }

  lemma KeptGrown(callee: seq<Node>, t: seq<Node>, known: Cache, now: Cache, x: nat)
    requires Valid(callee) && KeptAt(callee, t, known, x) && Seated(t, now) && Grown(known, now)
    ensures KeptAt(callee, t, now, x)
  {
    hide HasEdge, Valid, CloneCell;
    forall f | f in callee[x].links
      ensures callee[x].links[f].node < |callee| && Acyclic(callee)
      ensures Resolve(callee, callee[x].links[f].node).node in now
      ensures HasEdge(t, now[x].0, f, CloneCell(callee, now, callee[x].links[f]))
    {
      LinkInBounds(callee, x, f);
      KeptLink(callee, t, known, x, f);
      CloneCellGrown(callee, known, now, callee[x].links[f]);
    }
    KeptIs(callee, t, now, x);
  }

  lemma CloneCellGrown(callee: seq<Node>, known: Cache, now: Cache, c: Cell)
    requires Acyclic(callee) && c.node < |callee| && Grown(known, now) && Resolve(callee, c.node).node in known
    ensures CloneCell(callee, now, c) == CloneCell(callee, known, c)
  {
  }
}
