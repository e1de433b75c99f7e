/** Facts the engine's methods call on between their steps. */
module EngineFacts {
  import opened Layout
  import opened PointsTo
  import opened Forwarding
  import opened Coarsening
  import opened Changes
  import opened Candidates
  import opened Steps
  import opened Flattening

  // ---------------------------------------------------------------- path compression

  /** Every forwarding cell is as it was, or leads straight to the representative. */
  ghost predicate Shortened(s: seq<Node>, t: seq<Node>)
    requires Acyclic(s)
  {
    |t| == |s| && forall n: nat | n < |s| :: t[n].fwd == s[n].fwd || t[n].fwd == Some(Resolve(s, n))
  }

  lemma CompressedSelf(s: seq<Node>)
    requires Acyclic(s)
    ensures Compressed(s, s) && Shortened(s, s)
  {
  }

  /** A representative, or a node one step from it, is resolved where it stands. */
  lemma Forwards(ns: seq<Node>, n: nat)
    requires Acyclic(ns) && n < |ns|
    ensures ns[n].fwd.None? ==> Resolve(ns, n) == Cell(n, 0)
    ensures ns[n].fwd.Some? ==>
              var f := ns[n].fwd.value;
              f.node < |ns| && Resolve(ns, n) == Shift(Resolve(ns, f.node), f.off) &&
              (OneStep(ns, n) ==> OneStep(ns, f.node) && ns[n := ns[n].(fwd := Some(Resolve(ns, n)))] == ns)
  {
    assert IsRank(ns, Rank(ns));
  }

  lemma RankStep(s: seq<Node>, n: nat)
    requires Acyclic(s) && n < |s| && s[n].fwd.Some?
    ensures s[n].fwd.value.node < |s| && Rank(s)[s[n].fwd.value.node] < Rank(s)[n]
  {
  }

  lemma FindStep(s: seq<Node>, t: seq<Node>, u: seq<Node>, n: nat, f: Cell, r: Cell)
    requires Compressed(s, t) && Shortened(s, t) && n < |s| && s[n].fwd == Some(f) && r == Resolve(s, f.node)
    requires n < |t| && u == t[n := t[n].(fwd := Some(Shift(r, f.off)))]
    ensures Compressed(s, u) && Shortened(s, u) && Resolve(s, n) == Shift(r, f.off)
  {
    assert Resolve(t, n) == Shift(r, f.off);
    ShortcutCompresses(t, u, n);
    CompressedTrans(s, t, u);
    hide Compressed;
  }

  // ---------------------------------------------------------------- vocabulary

  /** How annotations combine when nodes merge. */
  function JoinType(x: Node, y: Node): Node {
    var collapsed := x.isCollapsed || y.isCollapsed;
    x.(isForeign := x.isForeign && y.isForeign, marks := x.marks + y.marks,
       isCollapsed := collapsed, isArray := (x.isArray || y.isArray) && !collapsed)
  }

  predicate FlagsAgree(x: Node, y: Node) {
    && (x.isCollapsed ==> y.isCollapsed)
    && (x.isArray ==> y.isCollapsed || y.isArray)
  }

  /** A forwarding node whose flags have been reset. */
  predicate Cleared(nd: Node) {
    nd.fwd.Some? && !nd.isArray && !nd.isCollapsed
  }

  /** In the candidate, the object at `a` has lost its offsets. */
  ghost predicate MustCollapse(m: Candidate, a: nat) {
    Placed(m, a) && m.target[m.place[a].node].isCollapsed
  }

  /** The next node goes where `a` is. */
  ghost function PlaceLike(m: Candidate, a: nat): Candidate {
    if a < |m.place| then m.(place := m.place + [m.place[a]]) else m
  }

  ghost function PotentialWithout(ns: seq<Node>, a: nat): nat
    requires a < |ns|
  {
    Potential(ns[a := ns[a].(fwd := Some(Cell(a, 0)))])
  }

  lemma RetireLowers(ns: seq<Node>, a: nat)
    requires IsRep(ns, a)
    ensures PotentialWithout(ns, a) + Weight(ns[a]) == Potential(ns) && Weight(ns[a]) >= 1
  {
    PotentialUpdate(ns, a, ns[a].(fwd := Some(Cell(a, 0))));
  }

  /** Unifying `a` with `b` starts by exchanging them. */
  predicate Swaps(a: Node, b: Node) {
    !a.isCollapsed && !b.isCollapsed && b.isArray && (!a.isArray || b.size < a.size)
  }

  /** Object `b` begins at offset `o` of object `a`. */
  ghost predicate Aligned(ns: seq<Node>, a: nat, b: nat, o: nat)
    requires Acyclic(ns)
  {
    forall k: nat :: Same(ns, Cell(b, k), Cell(a, o + k))
  }

  /** A link at offset `k` of the object at `n` would sit on a recorded access. */
  ghost predicate TypedAt(ns: seq<Node>, n: nat, k: nat)
    requires Acyclic(ns) && n < |ns|
  {
    var r := Resolve(ns, n);
    ns[r.node].isCollapsed || Typed(ns[r.node], Adjust(ns[r.node], r.off + k))
  }

  /** Recording access `x` on `nd` does not overflow it. */
  predicate Fitting(nd: Node, x: Access) {
    x.ty.Void? || !nd.isArray || Adjust(nd, x.off) + SizeOf(x.ty) <= nd.size
  }

  /** `nd` can take every access of `types`, moved by `d`. */
  predicate HoldsAll(nd: Node, d: nat, types: set<Access>) {
    forall x | x in types :: Fitting(nd, Access(d + x.off, x.ty))
  }

  /** `nd` stays in use when node `from` is embedded in it at `d`. */
  predicate Holds(nd: Node, d: nat, from: Node) {
    nd.isCollapsed || nd.size <= 1 || HoldsAll(nd, d, from.types)
  }

  /** `n` was an array too short for an access, and has collapsed. */
  ghost predicate Overflowed(s: State, t: State, n: nat) {
    && Acyclic(t.nodes) && n < |s.nodes| <= |t.nodes|
    && t.nodes[Resolve(t.nodes, n).node].isCollapsed
    && s.nodes[n].isArray
    && (IsRep(t.nodes, n) <==> s.nodes[n].size <= 1)
    && (IsRep(t.nodes, n) ==> t.lost == s.lost && t.nodes[n].sites == s.nodes[n].sites)
    && (!IsRep(t.nodes, n) ==> Cleared(t.nodes[n]))
    && (!IsRep(t.nodes, n) && s.nodes[n].links == map[] ==> t.nodes[Resolve(t.nodes, n).node].sites == s.nodes[n].sites)
  }

  /** The accesses of an object that begins at offset `d`. */
  ghost function Moved(types: set<Access>, d: nat): set<Access> {
    set x | x in types :: Access(d + x.off, x.ty)
  }

  /** `size` is the least size, at least that of `x`, that holds the accesses; arrays keep their stride. */
  ghost predicate Snug(x: Node, size: nat, accesses: set<Access>) {
    if x.isArray then size == x.size
    else
      && x.size <= size
      && (forall a | a in accesses :: a.ty.Void? || a.off + SizeOf(a.ty) <= size)
      && (size == x.size || exists a | a in accesses :: !a.ty.Void? && size == a.off + SizeOf(a.ty))
  }

  /** Only the accesses and the size of `b` changed, by exactly the joined accesses. */
  ghost predicate JoinedOnly(s: State, t: State, b: nat, d: nat, types: set<Access>) {
    && b < |s.nodes| && |t.nodes| == |s.nodes|
    && t == s.(nodes := s.nodes[b := s.nodes[b].(size := t.nodes[b].size, types := t.nodes[b].types)])
    && t.nodes[b].types == s.nodes[b].types + Folded(t.nodes[b], Moved(types, d))
    && Snug(s.nodes[b], t.nodes[b].size, Moved(types, d))
  }

  /** A key finds the other, or an omni key speaks for it. */
  predicate Meets(f: Field, g: Field) {
    f.off == g.off && (f.ty == g.ty || f.ty == Omni || g.ty == Omni)
  }

  predicate MeetsNone(links: map<Field, Cell>, f: Field) {
    forall g | g in links :: !Meets(f, g)
  }

  /** Where link `f` of an object that begins at offset `d` of `nd` is kept. */
  function KeyAt(nd: Node, d: nat, f: Field): Field {
    Field(Adjust(nd, d + f.off), f.ty)
  }

  /** No link of an object that begins at offset `d` of `nd` meets a link of `nd` or another of its own. */
  ghost predicate LinksClear(nd: Node, d: nat, links: map<Field, Cell>) {
    && (forall f | f in links :: MeetsNone(nd.links, KeyAt(nd, d, f)))
    && (forall f, g | f in links && g in links && f != g :: !Meets(KeyAt(nd, d, f), KeyAt(nd, d, g)))
  }

  /** `now` has the links of `nd` and, moved by `d`, the links `part` of `links`, and no others. */
  ghost predicate LinksJoined(nd: Node, now: map<Field, Cell>, d: nat, links: map<Field, Cell>, part: set<Field>) {
    && part <= links.Keys
    && (forall g | g in now :: g in nd.links || exists f | f in part :: g == KeyAt(nd, d, f))
    && (forall g | g in nd.links :: g in now && now[g] == nd.links[g])
    && (forall f | f in part :: KeyAt(nd, d, f) in now && now[KeyAt(nd, d, f)] == links[f])
  }

  /** `y` as it is once it has taken in `x` from offset `d` on. */
  ghost predicate TookIn(x: Node, y: Node, z: Node, d: nat) {
    && z == y.(size := z.size, types := z.types, isForeign := y.isForeign && x.isForeign, marks := y.marks + x.marks,
               sites := y.sites + x.sites, links := z.links)
    && LinksJoined(y, z.links, d, x.links, x.links.Keys)
    && if y.isCollapsed then z.size == y.size && z.types == y.types
       else z.types == y.types + Folded(z, Moved(x.types, d)) && Snug(y, z.size, Moved(x.types, d))
  }

  /** Nothing happened but `a` forwarding to offset `d` of `b`, which has taken in all of `a` but its links. */
  ghost predicate EmbeddedOnly(s: State, t: State, a: nat, b: nat, d: nat) {
    && a < |s.nodes| && b < |s.nodes| && |t.nodes| == |s.nodes| && t.nodes[b].links == s.nodes[b].links
    && t == s.(nodes := s.nodes[a := s.nodes[a].(fwd := Some(Cell(b, d)))][b := t.nodes[b]])
    && TookIn(s.nodes[a].(links := map[]), s.nodes[b], t.nodes[b], d)
  }

  /** Nothing happened but `a` being emptied into offset `d` of `b`. */
  ghost predicate AbsorbedOnly(s: State, t: State, a: nat, b: nat, d: nat) {
    && a < |s.nodes| && b < |s.nodes| && |t.nodes| == |s.nodes|
    && t == s.(nodes := s.nodes[a := BLANK.(fwd := Some(Cell(b, d)))][b := t.nodes[b]])
    && TookIn(s.nodes[a], s.nodes[b], t.nodes[b], d)
  }

  /** `nd` can take in `from` at `d` as it is: accesses fit and links meet nothing. */
  ghost predicate Calm(nd: Node, d: nat, from: Node) {
    LinksClear(nd, d, from.links) && (nd.isCollapsed || HoldsAll(nd, d, from.types))
  }

  /** `n` is a representative or forwards straight to one. */
  predicate OneStep(ns: seq<Node>, n: nat) {
    n < |ns| && (ns[n].fwd.Some? ==> IsRep(ns, ns[n].fwd.value.node))
  }

  /** If link `f` of the object at `n` meets nothing, it was stored and nothing else happened. */
  ghost predicate Stored(s: State, t: State, n: nat, f: Field, c: Cell)
    requires Acyclic(s.nodes) && n < |s.nodes|
  {
    var r := Resolve(s.nodes, n);
    var nd := s.nodes[r.node];
    OneStep(s.nodes, n) && MeetsNone(nd.links, KeyAt(nd, r.off, f)) ==>
      t == s.(nodes := s.nodes[r.node := nd.(links := nd.links[KeyAt(nd, r.off, f) := c])])
  }

  /** Nothing happened but links `part` being stored on `b` for an object that begins at offset `d` of it. */
  ghost predicate JoinedLinks(s: State, t: State, b: nat, d: nat, links: map<Field, Cell>, part: set<Field>) {
    && b < |s.nodes| && |t.nodes| == |s.nodes|
    && t == s.(nodes := s.nodes[b := s.nodes[b].(links := t.nodes[b].links)])
    && LinksJoined(s.nodes[b], t.nodes[b].links, d, links, part)
  }

  lemma StoredDone(s: State, t: State, u: State, n: nat, f: Field, c: Cell)
    requires Acyclic(s.nodes) && n < |s.nodes| && (OneStep(s.nodes, n) ==> t == s)
    requires var r := Resolve(s.nodes, n);
      && r.node < |t.nodes| == |s.nodes|
      && var nd, k := t.nodes[r.node], KeyAt(t.nodes[r.node], r.off, f);
         MeetsNone(nd.links, k) ==> u == t.(nodes := t.nodes[r.node := nd.(links := nd.links[k := c])])
    ensures Stored(s, u, n, f, c)
  {
    hide MeetsNone, OneStep, Resolve;
  }

  lemma JoinedNone(s: State, n: nat, links: map<Field, Cell>)
    requires Acyclic(s.nodes) && n < |s.nodes|
    ensures var r := Resolve(s.nodes, n); JoinedLinks(s, s, r.node, r.off, links, {})
  {
    var r := Resolve(s.nodes, n);
    assert s.nodes == s.nodes[r.node := s.nodes[r.node]];
  }

  /** One more clear link. */
  lemma JoinedOneMore(s: State, t: State, u: State, n: nat, links: map<Field, Cell>, part: set<Field>, f: Field)
    requires Acyclic(s.nodes) && OneStep(s.nodes, n) && f in links && f !in part
    requires var r := Resolve(s.nodes, n);
             LinksClear(s.nodes[r.node], r.off, links) && JoinedLinks(s, t, r.node, r.off, links, part)
    requires Acyclic(t.nodes) && n < |t.nodes| && Stored(t, u, n, f, links[f])
    ensures var r := Resolve(s.nodes, n); JoinedLinks(s, u, r.node, r.off, links, part + {f})
  {
    var r := Resolve(s.nodes, n);
    var y := s.nodes[r.node];
    SameForwardingKeeps(s.nodes, t.nodes);
    assert Resolve(t.nodes, n) == r;
    LinkClear(y, t.nodes[r.node], r.off, links, part, f);
    hide LinksClear, LinksJoined, Meets, KeyAt;
    assert u.nodes == s.nodes[r.node := s.nodes[r.node].(links := u.nodes[r.node].links)];
  }

  lemma LinkClear(y: Node, z: Node, d: nat, links: map<Field, Cell>, part: set<Field>, f: Field)
    requires f in links && f !in part && LinksClear(y, d, links)
    requires z == y.(links := z.links) && LinksJoined(y, z.links, d, links, part)
    ensures KeyAt(z, d, f) == KeyAt(y, d, f) && MeetsNone(z.links, KeyAt(z, d, f))
    ensures LinksJoined(y, z.links[KeyAt(z, d, f) := links[f]], d, links, part + {f})
  {
    var k := KeyAt(y, d, f);
    assert KeyAt(z, d, f) == k;
    forall g | g in z.links ensures !Meets(k, g) && g != k {
    }
    assert forall g | g in part :: KeyAt(y, d, g) != k;
    hide KeyAt, Meets;
  }

  /** Node `a` forwards to offset `d` of `b`, where its accesses are recorded. */
  ghost predicate TypesArrived(s: State, t: State, a: nat, b: nat, d: nat) {
    && Acyclic(t.nodes) && a < |s.nodes| <= |t.nodes| && b < |t.nodes|
    && t.nodes[a].fwd.Some?
    && t.nodes[a] == s.nodes[a].(fwd := t.nodes[a].fwd, size := t.nodes[a].size, types := t.nodes[a].types)
    && Resolve(t.nodes, a) == Shift(Resolve(t.nodes, b), d)
    && CarriesTypes(s.nodes[a].types, t.nodes, a)
  }

  /** The marks and sites of `a` have reached its representative. */
  ghost predicate MarksArrived(s: State, t: State, a: nat) {
    && Acyclic(t.nodes) && a < |s.nodes| <= |t.nodes|
    && s.nodes[a].marks <= t.nodes[Resolve(t.nodes, a).node].marks
    && s.nodes[a].sites <= t.nodes[Resolve(t.nodes, a).node].sites + t.lost
  }

  lemma SoundRep(ns: seq<Node>, n: nat)
    requires Valid(ns) && IsRep(ns, n)
    ensures SoundNode(ns[n])
  {
  }

  // ---------------------------------------------------------------- collapsing

  lemma CollapsedInPlace(s: State, t: State, a: nat)
    requires Valid(s.nodes) && IsRep(s.nodes, a) && !s.nodes[a].isCollapsed && s.nodes[a].size <= 1
    requires t == s.(nodes := s.nodes[a := s.nodes[a].(size := 1, isCollapsed := true, isArray := false)])
    ensures Later(s, t, {}) && Valid(t.nodes) && IsRep(t.nodes, a)
    ensures Potential(t.nodes) < Potential(s.nodes)
    ensures MustCollapse(s.candidate, a) ==> KeepsMap(s, t)
  {
    var nd := t.nodes[a];
    SoundRep(s.nodes, a);
    SmallLinks(s.nodes[a]);
    assert SoundNode(nd);
    if Acyclic(t.nodes) {
      SmallCarries(s.nodes, a, nd);
    }
    PotentialUpdate(s.nodes, a, nd);
    if Mapped(s) && MustCollapse(s.candidate, a) {
      assert NodeRespects(s.nodes[a], s.candidate, a);
      assert NodeRespects(nd, s.candidate, a);
    }
    assert Fits(s.nodes, nd);
    hide Valid, SoundNode, NodeRespects, Carries;
    InPlaceLater(s, t, a, nd) by { hide Later, Mapped; }
  }

  /** A node of size at most one has links at offset 0 only. */
  lemma SmallLinks(nd: Node)
    requires SoundNode(nd) && !nd.isCollapsed && nd.size <= 1
    ensures forall f | f in nd.links :: f.off == 0
  {
    forall f | f in nd.links ensures f.off == 0 {
      assert Typed(nd, f.off);
    }
  }

  lemma SmallCarries(s: seq<Node>, a: nat, nd: Node)
    requires Valid(s) && IsRep(s, a) && !s[a].isCollapsed && s[a].size <= 1
    requires nd == s[a].(size := 1, isCollapsed := true, isArray := false)
    requires Acyclic(s[a := nd])
    ensures Carries(s[a], s[a := nd], a)
  {
    SmallLinks(s[a]);
    forall f | f in s[a].links ensures HasEdge(s[a := nd], a, f, s[a].links[f]) {
      assert s[a].links[f].node < |s|;
    }
  }

  /** The fresh collapsed node that takes over from `a`. */
  lemma CollapsedCopy(s: State, t: State, a: nat)
    requires Valid(s.nodes) && IsRep(s.nodes, a) && !s.nodes[a].isCollapsed
    requires t.nodes == s.nodes + [BLANK.(size := 1, isCollapsed := true, marks := s.nodes[a].marks)]
    requires t.candidate == PlaceLike(s.candidate, a) && t.lost == s.lost
    ensures Valid(t.nodes) && IsRep(t.nodes, a) && IsRep(t.nodes, |s.nodes|) && Absorbs(t.nodes[a], t.nodes[|s.nodes|])
    ensures PotentialWithout(t.nodes, a) == Potential(s.nodes) - 1
    ensures Mapped(s) && MustCollapse(s.candidate, a) ==>
              Mapped(t) && Extends(s.candidate, t.candidate) && Equates(t.candidate, Cell(a, 0), Cell(|s.nodes|, 0))
  {
    AllocatedLater(s, t, a, t.nodes[|s.nodes|]);
    PotentialUpdate(t.nodes, a, t.nodes[a].(fwd := Some(Cell(a, 0))));
    hide Coarsens, SitesKept, Valid;
  }

  lemma CollapsedByCopy(s: State, t: State, u: State, a: nat)
    requires Valid(s.nodes) && IsRep(s.nodes, a) && !s.nodes[a].isCollapsed
    requires t.nodes == s.nodes + [BLANK.(size := 1, isCollapsed := true, marks := s.nodes[a].marks)]
    requires t.candidate == PlaceLike(s.candidate, a) && t.lost == s.lost
    requires Later(t, u, {})
    requires Potential(u.nodes) + Weight(t.nodes[a]) <= Potential(t.nodes)
    requires Acyclic(u.nodes)
    requires Resolve(u.nodes, a) == Shift(Resolve(u.nodes, |s.nodes|), Adjust(t.nodes[|s.nodes|], 0))
    requires Equates(t.candidate, Cell(a, 0), Cell(|s.nodes|, 0)) ==> KeepsMap(t, u)
    ensures Later(s, u, {}) && Potential(u.nodes) < Potential(s.nodes)
    ensures u.nodes[Resolve(u.nodes, a).node].isCollapsed
    ensures MustCollapse(s.candidate, a) ==> KeepsMap(s, u)
  {
    hide Coarsens, SitesKept, Valid, Acyclic, MustCollapse, Equates;
    var n := |s.nodes|;
    CollapsedCopy(s, t, a);
    AllocatedLater(s, t, a, t.nodes[n]);
    KindLater(t, u, n);
    CoarsensTrans(s.nodes, t.nodes, u.nodes, {});
    SitesTrans(s.nodes, t.nodes, u.nodes, t.lost, u.lost, {});
  }

  /** What collapsing an object without links comes to. */
  ghost predicate CollapsedOnly(s: State, t: State, a: nat) {
    && a < |s.nodes| && t.lost == s.lost
    && t.nodes == if s.nodes[a].size <= 1
                  then s.nodes[a := s.nodes[a].(size := 1, isCollapsed := true, isArray := false)]
                  else s.nodes[a := BLANK.(fwd := Some(Cell(|s.nodes|, 0)))] +
                       [BLANK.(size := 1, isCollapsed := true, marks := s.nodes[a].marks, sites := s.nodes[a].sites)]
  }

  lemma CollapsedHere(s: State, t: State, a: nat)
    requires IsRep(s.nodes, a) && s.nodes[a].size <= 1 && Acyclic(t.nodes)
    requires t == s.(nodes := s.nodes[a := s.nodes[a].(size := 1, isCollapsed := true, isArray := false)])
    ensures CollapsedOnly(s, t, a)
    ensures Resolve(t.nodes, a) == Cell(a, 0) && t.nodes[a].sites == s.nodes[a].sites
  {
  }

  lemma CopiedExactly(s: State, t: State, u: State, a: nat)
    requires IsRep(s.nodes, a) && s.nodes[a].links == map[] && s.nodes[a].size > 1 && Acyclic(u.nodes)
    requires t.nodes == s.nodes + [BLANK.(size := 1, isCollapsed := true, marks := s.nodes[a].marks)]
    requires t.lost == s.lost
    requires Calm(t.nodes[|s.nodes|], 0, t.nodes[a]) ==> AbsorbedOnly(t, u, a, |s.nodes|, 0)
    ensures CollapsedOnly(s, u, a)
    ensures a < |u.nodes| && u.nodes[Resolve(u.nodes, a).node].sites == s.nodes[a].sites
  {
    var n := |s.nodes|;
    assert LinksClear(t.nodes[n], 0, map[]);
    hide KeyAt, Folded, Snug;
    var z := u.nodes[n];
    assert z.links == map[] by {
      assert forall g :: g !in z.links;
    }
    assert {} + s.nodes[a].sites == s.nodes[a].sites && s.nodes[a].marks + s.nodes[a].marks == s.nodes[a].marks;
    assert z == BLANK.(size := 1, isCollapsed := true, marks := s.nodes[a].marks, sites := s.nodes[a].sites);
    assert Resolve(u.nodes, a) == Shift(Resolve(u.nodes, n), 0);
  }

  lemma KindLater(s: State, t: State, n: nat)
    requires Later(s, t, {}) && IsRep(s.nodes, n)
    ensures Acyclic(t.nodes) && n < |t.nodes| && Absorbs(s.nodes[n], t.nodes[Resolve(t.nodes, n).node])
  {
    LaterBasics(s, t, {});
    hide Later, Absorbs;
  }

  // ---------------------------------------------------------------- embedding

  lemma RetiredInto(s: State, t: State, a: nat, b: nat, o: nat)
    requires Valid(s.nodes) && IsRep(s.nodes, a) && IsRep(s.nodes, b) && a != b
    requires Absorbs(s.nodes[a], s.nodes[b])
    requires var d := Adjust(s.nodes[b], Adjust(s.nodes[b], o));
             t == s.(nodes := s.nodes[a := s.nodes[a].(fwd := Some(Cell(b, d)))])
    ensures Later(s, t, {a}) && Valid(t.nodes)
    ensures Resolve(t.nodes, a) == Cell(b, Adjust(s.nodes[b], o)) && Resolve(t.nodes, b) == Cell(b, 0)
    ensures Potential(t.nodes) == PotentialWithout(s.nodes, a) == Potential(s.nodes) - Weight(s.nodes[a])
    ensures Equates(s.candidate, Cell(a, 0), Cell(b, o)) ==> KeepsMap(s, t)
    ensures !s.nodes[b].isCollapsed ==>
              !s.nodes[a].isCollapsed && forall x | x in s.nodes[a].types :: Primitive(x.ty)
  {
    var d := Adjust(s.nodes[b], Adjust(s.nodes[b], o));
    assert d == Adjust(s.nodes[b], o) by { AdjustAdjusted(s.nodes[b], o); }
    RetiredLater(s, t, a, b, d);
    SoundRep(s.nodes, a);
    PotentialUpdate(s.nodes, a, s.nodes[a].(fwd := Some(Cell(a, 0))));
    if Mapped(s) && Equates(s.candidate, Cell(a, 0), Cell(b, o)) {
      assert NodeRespects(s.nodes[b], s.candidate, b);
      assert Equates(s.candidate, Cell(a, 0), Cell(b, d));
    }
    LaterBasics(s, t, {a});
    hide Later, Mapped, Valid, Equates;
  }

  lemma AdjustAdjusted(nd: Node, k: nat)
    ensures Adjust(nd, Adjust(nd, k)) == Adjust(nd, k)
  {
  }

  /** Joining the flags of `a` into its representative. */
  lemma FlagsJoined(v: State, w: State, a: nat, r: nat)
    requires Valid(v.nodes) && a < |v.nodes| && Resolve(v.nodes, a).node == r
    requires FlagsAgree(v.nodes[a], v.nodes[r])
    requires w == v.(nodes := v.nodes[r := JoinType(v.nodes[r], v.nodes[a])])
    ensures Later(v, w, {}) && KeepsMap(v, w) && Valid(w.nodes)
    ensures forall k: nat :: k < |v.nodes| ==> Resolve(w.nodes, k) == Resolve(v.nodes, k)
    ensures v.nodes[a].marks <= w.nodes[r].marks && w.nodes[r].isCollapsed == v.nodes[r].isCollapsed
    ensures w.nodes[r].types == v.nodes[r].types && w.nodes[r].sites == v.nodes[r].sites
    ensures w.nodes[r] == v.nodes[r].(marks := w.nodes[r].marks, isForeign := w.nodes[r].isForeign)
  {
    var nd := JoinType(v.nodes[r], v.nodes[a]);
    SoundRep(v.nodes, r);
    assert nd == v.nodes[r].(marks := nd.marks, isForeign := nd.isForeign);
    assert SoundNode(nd) by { Resoundable(v.nodes[r], nd); }
    GrowsLater(v, w, r, nd) by { hide Later, Mapped; }
    if Mapped(v) {
      JoinRespects(v, a, r);
    }
    LaterBasics(v, w, {});
    hide Later, Mapped, Valid, SoundNode, NodeRespects;
  }

  /** Soundness does not look at marks, sites or the foreign flag. */
  lemma Resoundable(x: Node, y: Node)
    requires SoundNode(x)
    requires y == x.(marks := y.marks, sites := y.sites, isForeign := y.isForeign)
    ensures SoundNode(y)
  {
    forall f | f in y.links ensures y.isCollapsed || Typed(y, f.off) {
      if !x.isCollapsed {
        assert Typed(x, f.off);
      }
    }
  }

  lemma JoinRespects(v: State, a: nat, r: nat)
    requires Mapped(v) && Acyclic(v.nodes) && a < |v.nodes| && Resolve(v.nodes, a).node == r
    requires FlagsAgree(v.nodes[a], v.nodes[r])
    ensures NodeRespects(JoinType(v.nodes[r], v.nodes[a]), v.candidate, r)
  {
    ImageOfRep(v.nodes, v.candidate, Cell(a, 0));
    assert NodeRespects(v.nodes[a], v.candidate, a) && NodeRespects(v.nodes[r], v.candidate, r);
    hide Leads;
  }

  /** Joining the sites of `a` into `b` while `b` is the representative. */
  lemma SitesJoined(w: State, z: State, a: nat, b: nat)
    requires Valid(w.nodes) && a < |w.nodes| && IsRep(w.nodes, b) && Resolve(w.nodes, a).node == b
    requires z == w.(nodes := w.nodes[b := w.nodes[b].(sites := w.nodes[b].sites + w.nodes[a].sites)])
    ensures Later(w, z, {}) && KeepsMap(w, z)
    ensures forall k: nat :: k < |w.nodes| ==> Resolve(z.nodes, k) == Resolve(w.nodes, k)
  {
    hide Later, Mapped;
    var nd := z.nodes[b];
    SoundRep(w.nodes, b);
    Resoundable(w.nodes[b], nd);
    GrowsLater(w, z, b, nd);
    SitesRespect(w, a, b);
    hide Valid, SoundNode, NodeRespects;
  }

  lemma SitesRespect(w: State, a: nat, b: nat)
    requires Acyclic(w.nodes) && a < |w.nodes| && b < |w.nodes| && Resolve(w.nodes, a).node == Resolve(w.nodes, b).node
    ensures Mapped(w) ==> NodeRespects(w.nodes[b].(sites := w.nodes[b].sites + w.nodes[a].sites), w.candidate, b)
  {
    hide Leads;
    if Mapped(w) {
      ImageOfRep(w.nodes, w.candidate, Cell(a, 0));
      ImageOfRep(w.nodes, w.candidate, Cell(b, 0));
      assert NodeRespects(w.nodes[a], w.candidate, a) && NodeRespects(w.nodes[b], w.candidate, b);
    }
  }

  lemma StrayMapped(w: State, z: State, b: nat)
    requires b < |w.nodes| == |z.nodes| && z.nodes == w.nodes[b := z.nodes[b]] && z.candidate == w.candidate
    requires Mapped(w) ==> NodeRespects(z.nodes[b], w.candidate, b)
    ensures KeepsMap(w, z)
  {
    hide NodeRespects;
    if Mapped(w) {
      RespectsUpdate(w.nodes, w.candidate, b, z.nodes[b]);
    }
  }

  /** What has arrived stays. */
  lemma TypesArrivedLater(s: State, t: State, u: State, a: nat, b: nat, d: nat)
    requires TypesArrived(s, t, a, b, d) && Later(t, u, {})
    ensures TypesArrived(s, u, a, b, d)
  {
    LaterBasics(t, u, {});
    assert Coarsens(t.nodes, u.nodes, {});
    hide Later, Coarsens, HasAccess;
    ResolveLater(t.nodes, u.nodes, a);
    ResolveLater(t.nodes, u.nodes, b);
    forall x | x in s.nodes[a].types ensures HasAccess(u.nodes, a, x) {
      assert HasAccess(t.nodes, a, x);
      AccessLater(t.nodes, u.nodes, a, x);
    }
  }

  lemma AccessEmbedded(ns: seq<Node>, a: nat, b: nat, d: nat, x: Access)
    requires Acyclic(ns) && a < |ns| && b < |ns| && Resolve(ns, a) == Shift(Resolve(ns, b), d)
    requires ns[Resolve(ns, b).node].isCollapsed || HasAccess(ns, b, Access(d + x.off, x.ty))
    ensures HasAccess(ns, a, x)
  {
  }

  /** Accesses recorded from `d` on in `b` are accesses of the node that begins there. */
  lemma TypesJoined(s: State, t: State, u: State, a: nat, b: nat, d: nat)
    requires Acyclic(t.nodes) && a < |s.nodes| == |t.nodes| && b < |s.nodes|
    requires t.nodes[a] == s.nodes[a].(fwd := t.nodes[a].fwd) && t.nodes[a].fwd.Some?
    requires Resolve(t.nodes, a) == Cell(b, d) && Resolve(t.nodes, b) == Cell(b, 0)
    requires Later(t, u, {})
    requires Acyclic(u.nodes) && b < |u.nodes|
    requires u.nodes[Resolve(u.nodes, b).node].isCollapsed ||
      forall x | x in s.nodes[a].types :: HasAccess(u.nodes, b, Access(d + x.off, x.ty))
    ensures TypesArrived(s, u, a, b, d)
  {
    LaterBasics(t, u, {});
    assert Coarsens(t.nodes, u.nodes, {});
    hide Later, Coarsens;
    ResolveLater(t.nodes, u.nodes, a);
    forall x | x in s.nodes[a].types ensures HasAccess(u.nodes, a, x) {
      AccessEmbedded(u.nodes, a, b, d, x);
    }
    assert t.nodes[a].fwd.Some?;
    hide HasAccess, Tracks, KindsKept;
  }

  /** The representative `r` of `a` before flags are joined. */
  lemma AgreesWithRep(s: State, t: State, u: State, a: nat, b: nat, d: nat)
    requires Later(s, t, {a}) && IsRep(s.nodes, a) && TypesArrived(s, t, a, b, d)
    ensures FlagsAgree(t.nodes[a], t.nodes[Resolve(t.nodes, a).node])
  {
    LaterBasics(s, t, {a});
    hide Later;
    AbsorbsAgree(s.nodes[a], t.nodes[Resolve(t.nodes, a).node]);
  }

  lemma AbsorbsAgree(x: Node, y: Node)
    requires Absorbs(x, y)
    ensures FlagsAgree(x, y)
  {
  }

  /** A collapsed node stays in a collapsed object. */
  lemma CollapsedLater(s: State, t: State, b: nat, skip: set<nat>)
    requires Later(s, t, skip) && b < |s.nodes|
    requires Acyclic(s.nodes) ==> s.nodes[Resolve(s.nodes, b).node].isCollapsed
    ensures Acyclic(t.nodes) && b < |t.nodes| && t.nodes[Resolve(t.nodes, b).node].isCollapsed
  {
    LaterBasics(s, t, skip);
    var r := Resolve(s.nodes, b).node;
    assert Absorbs(s.nodes[r], t.nodes[Resolve(t.nodes, r).node]);
  }

  /** After the accesses have been joined. */
  lemma EmbeddedTypes(s: State, t: State, u: State, a: nat, b: nat, d: nat)
    requires Later(s, t, {a}) && Later(t, u, {}) && IsRep(s.nodes, b) && a < |s.nodes| && a != b
    requires t == s.(nodes := s.nodes[a := s.nodes[a].(fwd := Some(Cell(b, d)))])
    requires Acyclic(t.nodes) && Resolve(t.nodes, a) == Cell(b, d) && Resolve(t.nodes, b) == Cell(b, 0)
    requires Acyclic(u.nodes) && b < |u.nodes|
    requires !s.nodes[b].isCollapsed ==>
              forall x | x in s.nodes[a].types :: HasAccess(u.nodes, b, Access(d + x.off, x.ty))
    ensures Later(s, u, {a}) && TypesArrived(s, u, a, b, d)
  {
    hide Later, HasAccess;
    LaterTrans(s, t, u, {a});
    if s.nodes[b].isCollapsed {
      CollapsedLater(t, u, b, {});
    }
    TypesJoined(s, t, u, a, b, d);
  }

  /** After path compression from `b`. */
  lemma Found(s: State, u: State, v: State, a: nat, b: nat, d: nat, r: Cell)
    requires Later(s, u, {a}) && TypesArrived(s, u, a, b, d) && IsRep(s.nodes, a)
    requires Valid(u.nodes) && Compressed(u.nodes, v.nodes) && Later(u, v, {}) && v == u.(nodes := v.nodes)
    requires r == Resolve(u.nodes, b)
    ensures Later(s, v, {a}) && TypesArrived(s, v, a, b, d) && Valid(v.nodes)
    ensures a < |v.nodes| && b < |v.nodes| && r.node < |v.nodes|
    ensures Resolve(v.nodes, a).node == r.node == Resolve(v.nodes, b).node
    ensures FlagsAgree(v.nodes[a], v.nodes[r.node]) && a != r.node
    ensures v.nodes[b] == u.nodes[b].(fwd := v.nodes[b].fwd) && (IsRep(v.nodes, b) <==> IsRep(u.nodes, b))
  {
    hide Later, CarriesTypes, Valid;
    LaterTrans(s, u, v, {a});
    TypesArrivedLater(s, u, v, a, b, d);
    AgreesWithRep(s, v, v, a, b, d);
    LaterBasics(s, v, {a});
  }

  lemma FlagsIn(s: State, v: State, w: State, a: nat, b: nat, d: nat, r: nat)
    requires Later(s, v, {a}) && TypesArrived(s, v, a, b, d) && Later(v, w, {}) && r < |v.nodes|
    requires w == v.(nodes := v.nodes[r := w.nodes[r]]) && a != r
    requires w.nodes[r] == v.nodes[r].(marks := w.nodes[r].marks, isForeign := w.nodes[r].isForeign)
    requires IsRep(v.nodes, r) && Resolve(v.nodes, a).node == r
    requires v.nodes[a].marks <= w.nodes[r].marks
    ensures Later(s, w, {a}) && TypesArrived(s, w, a, b, d)
    ensures Resolve(w.nodes, a).node == r && s.nodes[a].marks <= w.nodes[r].marks
    ensures w.nodes[a].sites == s.nodes[a].sites && w.nodes[b].sites == v.nodes[b].sites
    ensures IsRep(w.nodes, b) <==> IsRep(v.nodes, b)
    ensures Acyclic(w.nodes) && Resolve(w.nodes, b).node == r
  {
    LaterBasics(v, w, {});
    hide Later, CarriesTypes, Valid;
    LaterTrans(s, v, w, {a});
    TypesArrivedLater(s, v, w, a, b, d);
    InPlaceResolves(v.nodes, r, w.nodes[r]);
  }

  lemma SitesIn(s: State, w: State, z: State, a: nat, b: nat, d: nat)
    requires Later(s, w, {a}) && TypesArrived(s, w, a, b, d) && Valid(w.nodes)
    requires IsRep(s.nodes, b) && a != b && Resolve(w.nodes, b).node == Resolve(w.nodes, a).node
    requires s.nodes[a].marks <= w.nodes[Resolve(w.nodes, a).node].marks
    requires z.nodes == w.nodes[b := w.nodes[b].(sites := w.nodes[b].sites + w.nodes[a].sites)]
    requires z.candidate == w.candidate && z.lost == if w.nodes[b].fwd.Some? then w.lost + w.nodes[a].sites else w.lost
    requires w.nodes[b].fwd.None? || !ArrayFree(s.nodes)
    ensures Later(s, z, {a}) && TypesArrived(s, z, a, b, d) && MarksArrived(s, z, a)
    ensures Potential(z.nodes) <= Potential(w.nodes)
    ensures KeepsMap(w, z)
  {
    hide Later, CarriesTypes, Mapped;
    if w.nodes[b].fwd.None? {
      SitesJoined(w, z, a, b);
      LaterTrans(s, w, z, {a});
      TypesArrivedLater(s, w, z, a, b, d);
      LaterBasics(w, z, {});
    } else {
      StraySitesLater(s, w, z, b, z.nodes[b].sites, {a});
      LaterBasics(s, z, {a});
      StrayTypes(s, w, z, a, b, d);
      PotentialUpdate(w.nodes, b, z.nodes[b]);
      SitesRespect(w, a, b);
      StrayMapped(w, z, b);
    }
    hide Valid;
  }

  /** The representative of `b` has the sites it had. */
  ghost predicate RepSitesKept(u: State, z: State, b: nat) {
    && Acyclic(u.nodes) && Acyclic(z.nodes) && b < |u.nodes| && b < |z.nodes|
    && z.nodes[Resolve(z.nodes, b).node].sites == u.nodes[Resolve(u.nodes, b).node].sites
  }

  /** What holds `b` is collapsed if it was. */
  ghost predicate RepKindKept(u: State, z: State, b: nat) {
    && Acyclic(u.nodes) && Acyclic(z.nodes) && b < |u.nodes| && b < |z.nodes|
    && (u.nodes[Resolve(u.nodes, b).node].isCollapsed ==> z.nodes[Resolve(z.nodes, b).node].isCollapsed)
  }

  /** Recording the accesses overflowed `b`, and what holds it has stayed collapsed. */
  lemma OverflowKept(t: State, u: State, z: State, b: nat)
    requires Overflowed(t, u, b) && IsRep(t.nodes, b) && Acyclic(u.nodes) && Acyclic(z.nodes) && b < |z.nodes|
    requires u.nodes[b].fwd.Some? ==> RepKindKept(u, z, b)
    requires IsRep(u.nodes, b) ==> IsRep(z.nodes, b) && (u.nodes[b].isCollapsed ==> z.nodes[b].isCollapsed)
    ensures z.nodes[Resolve(z.nodes, b).node].isCollapsed
  {
  }

  lemma OverflowEmptied(t: State, u: State, z: State, a: nat, b: nat)
    requires Later(t, u, {}) && b < |t.nodes| && a < |u.nodes| && u.nodes[a].fwd.Some?
    requires Acyclic(t.nodes) ==> t.nodes[Resolve(t.nodes, b).node].isCollapsed
    requires z == u.(nodes := u.nodes[a := BLANK.(fwd := u.nodes[a].fwd)]) && Acyclic(z.nodes)
    ensures b < |z.nodes| && z.nodes[Resolve(z.nodes, b).node].isCollapsed
  {
    hide Later;
    CollapsedLater(t, u, b, {});
    SameForwardingKeeps(u.nodes, z.nodes);
  }

  /** Sites written to a forwarding node do not reach its representative. */
  lemma StrayRep(u: State, v: State, w: State, z: State, b: nat, r: nat)
    requires Compressed(u.nodes, v.nodes) && b < |u.nodes| && u.nodes[b].fwd.Some? && r == Resolve(u.nodes, b).node
    requires |z.nodes| == |w.nodes| == |v.nodes|
    requires w.nodes == v.nodes[r := v.nodes[r].(marks := w.nodes[r].marks, isForeign := w.nodes[r].isForeign)]
    requires z.nodes == w.nodes[b := w.nodes[b].(sites := z.nodes[b].sites)]
    ensures RepSitesKept(u, z, b) && RepKindKept(u, z, b)
  {
    assert v.nodes[r] == u.nodes[r].(fwd := v.nodes[r].fwd);
    SameForwardingKeeps(v.nodes, z.nodes);
    assert Resolve(z.nodes, b) == Resolve(v.nodes, b) == Resolve(u.nodes, b);
  }

  lemma StrayTypes(s: State, w: State, z: State, a: nat, b: nat, d: nat)
    requires TypesArrived(s, w, a, b, d) && a != b && w.nodes[b].fwd.Some?
    requires b < |z.nodes| && z.nodes == w.nodes[b := w.nodes[b].(sites := z.nodes[b].sites)] && Acyclic(z.nodes)
    requires forall k: nat :: k < |w.nodes| ==> Resolve(z.nodes, k) == Resolve(w.nodes, k)
    ensures TypesArrived(s, z, a, b, d)
  {
    var m := Resolve(w.nodes, a).node;
    assert z.nodes[m] == w.nodes[m];
    forall x | x in s.nodes[a].types ensures HasAccess(z.nodes, a, x) {
      assert HasAccess(w.nodes, a, x);
    }
  }

  /** Forwarding, joining the accesses and joining the flags amount to taking in. */
  lemma EmbeddedExactly(s: State, t: State, u: State, z: State, a: nat, b: nat, d: nat)
    requires IsRep(s.nodes, a) && IsRep(s.nodes, b) && a != b && Absorbs(s.nodes[a], s.nodes[b])
    requires t == s.(nodes := s.nodes[a := s.nodes[a].(fwd := Some(Cell(b, d)))])
    requires if s.nodes[b].isCollapsed then u == t else JoinedOnly(t, u, b, d, s.nodes[a].types)
    requires var x, y := u.nodes[b], u.nodes[a];
             z == u.(nodes := u.nodes[b := JoinType(x, y).(sites := x.sites + y.sites)])
    requires s.nodes[b].isCollapsed ==> !s.nodes[b].isArray
    ensures EmbeddedOnly(s, z, a, b, d)
  {
    hide HoldsAll, Snug, Moved, KeyAt;
    assert z.nodes[b].types == u.nodes[b].types && z.nodes[b].size == u.nodes[b].size;
    assert forall k :: Adjust(z.nodes[b], k) == Adjust(u.nodes[b], k);
    assert Folded(z.nodes[b], Moved(s.nodes[a].types, d)) == Folded(u.nodes[b], Moved(s.nodes[a].types, d));
    hide Folded;
    assert z.nodes == s.nodes[a := s.nodes[a].(fwd := Some(Cell(b, d)))][b := z.nodes[b]];
  }

  /** Without links to add, the representative keeps the sites it had when `a` was embedded. */
  lemma StraySites(s: State, t: State, u: State, z: State, a: nat, b: nat, d: nat)
    requires TypesArrived(s, t, a, b, d) && Acyclic(z.nodes) && a < |u.nodes|
    requires t.nodes[a].links == map[] ==> u == t
    requires z == u.(nodes := u.nodes[a := BLANK.(fwd := u.nodes[a].fwd)])
    ensures s.nodes[a].links == map[] ==>
              b < |z.nodes| && z.nodes[Resolve(z.nodes, b).node].sites == t.nodes[Resolve(t.nodes, b).node].sites
  {
    if s.nodes[a].links == map[] {
      SameForwardingKeeps(t.nodes, z.nodes);
      assert Resolve(z.nodes, b) == Resolve(t.nodes, b);
    }
    hide CarriesTypes;
  }

  /** Embedding, storing the links and emptying the node amount to absorbing it. */
  lemma AbsorbedEmptied(s: State, t: State, u: State, z: State, a: nat, b: nat, d: nat)
    requires IsRep(s.nodes, a) && IsRep(s.nodes, b) && a < |t.nodes| && a < |u.nodes| && a != b
    requires s.nodes[b].isCollapsed || HoldsAll(s.nodes[b], d, s.nodes[a].types) ==> EmbeddedOnly(s, t, a, b, d)
    requires Acyclic(t.nodes) && a < |t.nodes| && Resolve(t.nodes, a).node < |t.nodes|
    requires var r := Resolve(t.nodes, a);
      OneStep(t.nodes, a) && LinksClear(t.nodes[r.node], r.off, t.nodes[a].links) ==>
        JoinedLinks(t, u, r.node, r.off, t.nodes[a].links, t.nodes[a].links.Keys)
    requires z == u.(nodes := u.nodes[a := BLANK.(fwd := u.nodes[a].fwd)])
    ensures Calm(s.nodes[b], d, s.nodes[a]) ==> AbsorbedOnly(s, z, a, b, d)
  {
    hide HoldsAll, LinksClear, LinksJoined, TookIn;
    if Calm(s.nodes[b], d, s.nodes[a]) {
      assert t.nodes[a] == s.nodes[a].(fwd := Some(Cell(b, d)));
      TookInRep(s.nodes[a].(links := map[]), s.nodes[b], t.nodes[b], d);
      assert Resolve(t.nodes, a) == Cell(b, d) by { assert IsRep(t.nodes, b); }
      TookInClear(s.nodes[a], s.nodes[b], t.nodes[b], d);
      assert JoinedLinks(t, u, b, d, s.nodes[a].links, s.nodes[a].links.Keys);
      TookInLinks(s.nodes[a], s.nodes[b], t.nodes[b], u.nodes[b], d);
      assert z.nodes == s.nodes[a := z.nodes[a]][b := z.nodes[b]];
    }
  }

  lemma TookInRep(x: Node, y: Node, z: Node, d: nat)
    requires TookIn(x, y, z, d)
    ensures z.fwd == y.fwd && z.isCollapsed == y.isCollapsed && z.isArray == y.isArray
    ensures forall k :: Adjust(z, k) == Adjust(y, k)
  {
  }

  lemma TookInClear(x: Node, y: Node, z: Node, d: nat)
    requires TookIn(x.(links := map[]), y, z, d) && z.links == y.links && LinksClear(y, d, x.links)
    ensures LinksClear(z, d, x.links)
  {
    TookInRep(x.(links := map[]), y, z, d);
    hide TookIn, Adjust;
    assert forall f :: KeyAt(z, d, f) == KeyAt(y, d, f);
  }

  lemma TookInLinks(x: Node, y: Node, z: Node, w: Node, d: nat)
    requires TookIn(x.(links := map[]), y, z, d) && z.links == y.links
    requires w == z.(links := w.links) && LinksJoined(z, w.links, d, x.links, x.links.Keys)
    ensures TookIn(x, y, w, d)
  {
    TookInRep(x.(links := map[]), y, z, d);
    assert forall k :: Adjust(w, k) == Adjust(z, k);
    assert Folded(w, Moved(x.types, d)) == Folded(z, Moved(x.types, d));
    LinksJoinedLike(z, y, w.links, d, x.links);
    hide Folded, Snug, Moved, LinksJoined, Adjust;
  }

  lemma LinksJoinedLike(z: Node, y: Node, now: map<Field, Cell>, d: nat, links: map<Field, Cell>)
    requires LinksJoined(z, now, d, links, links.Keys) && z.links == y.links && forall k :: Adjust(z, k) == Adjust(y, k)
    ensures LinksJoined(y, now, d, links, links.Keys)
  {
    assert forall f :: KeyAt(z, d, f) == KeyAt(y, d, f);
  }

  lemma EmbeddedAll(s: State, t: State, u: State, z: State, a: nat, b: nat, d: nat)
    requires t == s.(nodes := t.nodes) && KeepsMap(t, u) && KeepsMap(u, z)
    ensures KeepsMap(s, t) ==> KeepsMap(s, z)
  {
    hide Respects;
  }
}
