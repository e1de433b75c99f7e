/** Facts about shortening paths and deleting nodes. */
module CleanupFacts {
  import opened PointsTo
  import opened Forwarding
  import opened Coarsening
  import opened Changes
  import opened Steps
  import opened EngineFacts
  import opened LinkFacts

  // ---------------------------------------------------------------- straight cells

  /** Cell `c` on its representative. */
  function Straight(ns: seq<Node>, c: Cell): Cell
    requires Acyclic(ns) && c.node < |ns|
  {
    Shift(Resolve(ns, c.node), c.off)
  }

  /** Every cell of `m` on its representative. */
  function Straightened<K>(ns: seq<Node>, m: map<K, Cell>): map<K, Cell>
    requires Acyclic(ns) && forall k | k in m :: m[k].node < |ns|
  {
    map k | k in m :: Straight(ns, m[k])
  }

  /** Only paths were shortened, and the links of `n` are now `links`. */
  ghost predicate Bent(s: seq<Node>, t: seq<Node>, n: nat, links: map<Field, Cell>) {
    && Acyclic(s) && Acyclic(t) && |t| == |s| && IsRep(s, n)
    && (forall m: nat | m < |s| :: Resolve(t, m) == Resolve(s, m))
    && (forall m: nat | m < |s| :: t[m].fwd == s[m].fwd || (s[m].fwd.Some? && t[m].fwd == Some(Resolve(s, m))))
    && (forall m: nat | m < |s| && m != n :: t[m] == s[m].(fwd := t[m].fwd))
    && t[n] == s[n].(links := links)
  }

  lemma BentSelf(s: seq<Node>, n: nat)
    requires Acyclic(s) && IsRep(s, n)
    ensures Bent(s, s, n, s[n].links)
  {
  }

  lemma BentStep(s: seq<Node>, t: seq<Node>, u: seq<Node>, v: seq<Node>, n: nat, f: Field, link: Cell)
    requires n < |t| && Bent(s, t, n, t[n].links) && Valid(t) && f in t[n].links
    requires Compressed(t, u) && Shortened(t, u) && Valid(u)
    requires t[n].links[f].node < |t| && link == Straight(t, t[n].links[f])
    requires n < |u| && v == u[n := u[n].(links := u[n].links[f := link])]
    ensures Valid(v) && Bent(s, v, n, t[n].links[f := link])
  {
    hide Valid, Acyclic;
    ValidAcyclic(u);
    ValidAcyclic(t);
    assert u[n] == t[n].(fwd := u[n].fwd) && u[n].fwd.None?;
    BentLink(u, v, n, f, link);
    ValidAcyclic(v);
    BentRest(s, t, u, n);
  }

  lemma BentRest(s: seq<Node>, t: seq<Node>, u: seq<Node>, n: nat)
    requires n < |t| && Bent(s, t, n, t[n].links) && Compressed(t, u) && Shortened(t, u)
    ensures |u| == |s|
    ensures forall m: nat | m < |s| :: u[m].fwd == s[m].fwd || (s[m].fwd.Some? && u[m].fwd == Some(Resolve(s, m)))
    ensures forall m: nat | m < |s| && m != n :: u[m] == s[m].(fwd := u[m].fwd)
  {
    forall m: nat | m < |s|
      ensures u[m].fwd == s[m].fwd || (s[m].fwd.Some? && u[m].fwd == Some(Resolve(s, m)))
      ensures m != n ==> u[m] == s[m].(fwd := u[m].fwd)
    {
      assert u[m] == t[m].(fwd := u[m].fwd);
    }
  }

  lemma BentLink(u: seq<Node>, v: seq<Node>, n: nat, f: Field, link: Cell)
    requires Valid(u) && IsRep(u, n) && f in u[n].links && link.node < |u|
    requires v == u[n := u[n].(links := u[n].links[f := link])]
    ensures Valid(v) && forall m: nat :: m < |u| ==> Resolve(v, m) == Resolve(u, m)
  {
    ShortenedSound(u, n, f, link);
    InPlaceResolves(u, n, v[n]);
    forall m: nat | IsRep(v, m) ensures SoundNode(v[m]) {
      assert IsRep(u, m);
    }
    hide SoundNode;
  }

  lemma CellStraight(ns: seq<Node>, c: Cell)
    requires Acyclic(ns) && c.node < |ns|
    ensures Straight(ns, c) == Shift(Resolve(ns, c.node), c.off)
  {
  }

  lemma BentStarts(s: seq<Node>, n: nat)
    requires Valid(s) && IsRep(s, n)
    ensures Acyclic(s) && Bent(s, s, n, s[n].links)
  {
    BentSelf(s, n);
    hide Bent;
  }

  lemma BentBasics(s: seq<Node>, t: seq<Node>, n: nat, c: Cell)
    requires n < |t| && Bent(s, t, n, t[n].links) && c.node < |s|
    ensures Acyclic(s) && Acyclic(t) && |t| == |s| && IsRep(t, n) && Straight(t, c) == Straight(s, c)
  {
  }

  lemma BentIs(s: seq<Node>, t: seq<Node>, n: nat, links: map<Field, Cell>)
    requires Bent(s, t, n, links)
    ensures n < |t| && |t| == |s| && t[n].links == links
  {
  }

  lemma CompressedNode(t: seq<Node>, u: seq<Node>, n: nat)
    requires Compressed(t, u) && IsRep(t, n)
    ensures n < |u| && u[n] == t[n]
  {
    assert u[n] == t[n].(fwd := u[n].fwd);
  }

  lemma StraightenedIs<K>(s: seq<Node>, m: map<K, Cell>, n: map<K, Cell>)
    requires Acyclic(s) && (forall k | k in m :: m[k].node < |s|)
    requires n.Keys == m.Keys && forall k | k in m :: n[k] == Straight(s, m[k])
    ensures n == Straightened(s, m)
  {
  }

  lemma CompressedBasics(s: seq<Node>, t: seq<Node>, c: Cell)
    requires Compressed(s, t) && c.node < |s|
    ensures Acyclic(t) && |t| == |s| && Straight(t, c) == Straight(s, c)
  {
  }

  lemma CompressedOn(s: seq<Node>, t: seq<Node>, u: seq<Node>)
    requires Compressed(s, t) && Shortened(s, t) && Compressed(t, u) && Shortened(t, u)
    ensures Compressed(s, u) && Shortened(s, u)
  {
    CompressedTrans(s, t, u);
    hide Compressed;
    forall n: nat | n < |s| ensures u[n].fwd == s[n].fwd || u[n].fwd == Some(Resolve(s, n)) {
      assert Resolve(t, n) == Resolve(s, n) by { CompressedResolves(s, t, n); }
    }
  }

  lemma CompressedResolves(s: seq<Node>, t: seq<Node>, n: nat)
    requires Compressed(s, t) && n < |s|
    ensures n < |t| && Resolve(t, n) == Resolve(s, n)
  {
  }

  lemma CompressedLength(s: seq<Node>, t: seq<Node>)
    requires Compressed(s, t)
    ensures |t| == |s|
  {
  }

  lemma ValidClosed(s: seq<Node>)
    requires Valid(s)
    ensures Closed(s)
  {
  }

  // ---------------------------------------------------------------- compressing a graph

  /** Node `n` in `t`: links aside as in `s`; below `i`, and if in use, straight. */
  ghost predicate FlatAt(s: seq<Node>, t: seq<Node>, dropped: set<nat>, n: nat, i: nat)
    requires Acyclic(s) && Closed(s) && Acyclic(t) && |t| == |s| && n < |s|
  {
    && Resolve(t, n) == Resolve(s, n)
    && t[n] == s[n].(fwd := t[n].fwd, links := t[n].links)
    && (t[n].fwd == s[n].fwd || (s[n].fwd.Some? && t[n].fwd == Some(Resolve(s, n))))
    && (n < i && n !in dropped && s[n].fwd.Some? ==> t[n].fwd == Some(Resolve(s, n)))
    && t[n].links == if n < i && n !in dropped && s[n].fwd.None? then Straightened(s, s[n].links) else s[n].links
  }

  /** The nodes below `i` that are in use have straight links or lead straight to their representative. */
  ghost predicate Flattened(s: seq<Node>, t: seq<Node>, dropped: set<nat>, i: nat) {
    && Acyclic(s) && Closed(s) && Acyclic(t) && |t| == |s|
    && forall n: nat | n < |s| :: FlatAt(s, t, dropped, n, i)
  }

  lemma FlatteningStarts(s: seq<Node>, dropped: set<nat>)
    requires Valid(s)
    ensures Flattened(s, s, dropped, 0)
  {
  }

  lemma FlatteningFinds(s: seq<Node>, t: seq<Node>, u: seq<Node>, dropped: set<nat>, i: nat)
    requires Flattened(s, t, dropped, i) && i < |s|
    requires Compressed(t, u) && Shortened(t, u) && (u[i].fwd.Some? ==> u[i].fwd == Some(Resolve(t, i)))
    ensures Flattened(s, u, dropped, i)
    ensures s[i].fwd.Some? || i in dropped ==> Flattened(s, u, dropped, i + 1)
    ensures s[i].fwd.None? <==> u[i].fwd.None?
  {
    assert FlatAt(s, t, dropped, i, i);
    assert s[i].fwd.None? <==> u[i].fwd.None?;
    var k := i + 1;
    forall n: nat | n < |s| ensures FlatAt(s, u, dropped, n, i) {
      FlatFinds(s, t, u, dropped, n, i);
    }
    if s[i].fwd.Some? || i in dropped {
      forall n: nat | n < |s| ensures FlatAt(s, u, dropped, n, k) {
        FlatFinds(s, t, u, dropped, n, i);
      }
    }
    hide FlatAt, Compressed;
  }

  lemma FlatFinds(s: seq<Node>, t: seq<Node>, u: seq<Node>, dropped: set<nat>, n: nat, i: nat)
    requires Flattened(s, t, dropped, i) && i < |s| && n < |s|
    requires Compressed(t, u) && Shortened(t, u) && (u[i].fwd.Some? ==> u[i].fwd == Some(Resolve(t, i)))
    ensures FlatAt(s, u, dropped, n, i)
    ensures s[i].fwd.Some? || i in dropped ==> FlatAt(s, u, dropped, n, i + 1)
  {
    assert FlatAt(s, t, dropped, n, i);
    assert u[n] == t[n].(fwd := u[n].fwd);
    hide Straightened, Flattened;
  }

  lemma FlatteningSkips(s: seq<Node>, t: seq<Node>, dropped: set<nat>, i: nat)
    requires Flattened(s, t, dropped, i) && i in dropped
    ensures Flattened(s, t, dropped, i + 1)
  {
    var k := i + 1;
    forall n: nat | n < |s| ensures FlatAt(s, t, dropped, n, k) {
      assert FlatAt(s, t, dropped, n, i);
      hide Straightened;
    }
    hide FlatAt;
  }

  lemma FlatteningBends(s: seq<Node>, t: seq<Node>, u: seq<Node>, dropped: set<nat>, i: nat)
    requires Flattened(s, t, dropped, i) && i < |s| && i !in dropped && s[i].fwd.None?
    requires Closed(t) && Bent(t, u, i, Straightened(t, t[i].links))
    ensures Flattened(s, u, dropped, i + 1)
  {
    assert FlatAt(s, t, dropped, i, i);
    assert Straightened(t, t[i].links) == Straightened(s, s[i].links) by {
      FlatteningResolves(s, t, dropped, i);
      StraightenedSame(s, t, s[i].links);
    }
    var k := i + 1;
    forall n: nat | n < |s| ensures FlatAt(s, u, dropped, n, k) {
      assert FlatAt(s, t, dropped, n, i);
      hide Straightened;
    }
    hide FlatAt, Bent;
  }

  lemma FlatteningResolves(s: seq<Node>, t: seq<Node>, dropped: set<nat>, i: nat)
    requires Flattened(s, t, dropped, i)
    ensures forall n: nat | n < |s| :: Resolve(t, n) == Resolve(s, n)
  {
    forall n: nat | n < |s| ensures Resolve(t, n) == Resolve(s, n) {
      assert FlatAt(s, t, dropped, n, i);
    }
  }

  lemma StraightenedSame<K>(s: seq<Node>, t: seq<Node>, m: map<K, Cell>)
    requires Acyclic(s) && Acyclic(t) && |t| == |s| && forall n: nat | n < |s| :: Resolve(t, n) == Resolve(s, n)
    requires forall k | k in m :: m[k].node < |s|
    ensures Straightened(t, m) == Straightened(s, m)
  {
  }

  lemma FlatteningLength(s: seq<Node>, t: seq<Node>, dropped: set<nat>, i: nat)
    requires Flattened(s, t, dropped, i)
    ensures |t| == |s|
  {
  }

  /** Resolving roots keeps a flattened graph flattened. */
  lemma StillFlat(s: seq<Node>, t: seq<Node>, u: seq<Node>, dropped: set<nat>, cells: map<nat, Cell>)
    requires Flattened(s, t, dropped, |s|) && Compressed(t, u) && Shortened(t, u)
    requires forall v | v in cells :: cells[v].node < |s|
    ensures Flattened(s, u, dropped, |s|) && |t| == |s| && Straightened(t, cells) == Straightened(s, cells)
  {
    FlatteningResolves(s, t, dropped, |s|);
    StraightenedSame(s, t, cells);
    forall n: nat | n < |s| ensures FlatAt(s, u, dropped, n, |s|) {
      assert FlatAt(s, t, dropped, n, |s|);
      assert u[n] == t[n].(fwd := u[n].fwd);
      hide Straightened;
    }
    hide FlatAt, Compressed, Straightened;
  }

  lemma SameForwarders(s: seq<Node>, t: seq<Node>, dropped: set<nat>)
    requires Flattened(s, t, dropped, |s|)
    ensures |t| == |s| && Forwarders(t) == Forwarders(s)
  {
    forall n: nat | n < |s| ensures IsRep(t, n) <==> IsRep(s, n) {
      assert FlatAt(s, t, dropped, n, |s|);
      hide Straightened;
    }
    hide FlatAt;
  }

  lemma RootsInBounds(s: seq<Node>, roots: set<Cell>, a: map<nat, Cell>, b: map<nat, Cell>, c: map<nat, Cell>)
    requires (forall r | r in roots :: r.node < |s|) && roots == a.Values + b.Values + c.Values
    ensures forall v | v in a :: a[v].node < |s|
    ensures forall v | v in b :: b[v].node < |s|
    ensures forall v | v in c :: c[v].node < |s|
  {
    forall v | v in a ensures a[v].node < |s| { assert a[v] in roots; }
    forall v | v in b ensures b[v].node < |s| { assert b[v] in roots; }
    forall v | v in c ensures c[v].node < |s| { assert c[v] in roots; }
  }

  /** The cells of `cells` on their representatives. */
  ghost function StraightAll(ns: seq<Node>, cells: set<Cell>): set<Cell>
    requires Acyclic(ns) && forall c | c in cells :: c.node < |ns|
  {
    set c | c in cells :: Straight(ns, c)
  }

  lemma StraightRoots(s: seq<Node>, roots: set<Cell>, a: map<nat, Cell>, b: map<nat, Cell>, c: map<nat, Cell>)
    requires Acyclic(s) && roots == a.Values + b.Values + c.Values && forall r | r in roots :: r.node < |s|
    requires forall v | v in a :: a[v].node < |s|
    requires forall v | v in b :: b[v].node < |s|
    requires forall v | v in c :: c[v].node < |s|
    ensures Straightened(s, a).Values + Straightened(s, b).Values + Straightened(s, c).Values == StraightAll(s, roots)
  {
    hide Straightened, StraightAll;
    StraightValues(s, a);
    StraightValues(s, b);
    StraightValues(s, c);
    StraightUnion(s, a.Values, b.Values);
    StraightUnion(s, a.Values + b.Values, c.Values);
  }

  lemma StraightUnion(ns: seq<Node>, p: set<Cell>, q: set<Cell>)
    requires Acyclic(ns) && forall c | c in p + q :: c.node < |ns|
    ensures StraightAll(ns, p + q) == StraightAll(ns, p) + StraightAll(ns, q)
  {
  }

  lemma StraightValues(s: seq<Node>, m: map<nat, Cell>)
    requires Acyclic(s) && forall v | v in m :: m[v].node < |s|
    ensures forall r | r in m.Values :: r.node < |s|
    ensures Straightened(s, m).Values == StraightAll(s, m.Values)
  {
    var n := Straightened(s, m);
    forall r | r in m.Values ensures r.node < |s| && Straight(s, r) in n.Values {
      var v :| v in m && m[v] == r;
      assert v in n && n[v] == Straight(s, r);
    }
  }

  /** Whatever a node or a root in use leads to is in use. */
  ghost predicate Housed(ns: seq<Node>, dropped: set<nat>, roots: set<Cell>) {
    && (forall n: nat | n < |ns| && n !in dropped && ns[n].fwd.Some? :: ns[n].fwd.value.node !in dropped)
    && (forall n: nat, f | n < |ns| && n !in dropped && f in ns[n].links :: ns[n].links[f].node !in dropped)
    && (forall c | c in roots :: c.node < |ns| && c.node !in dropped)
  }

  lemma {:induction false} RepHoused(ns: seq<Node>, dropped: set<nat>, roots: set<Cell>, n: nat)
    requires Acyclic(ns) && Housed(ns, dropped, roots) && n < |ns| && n !in dropped
    ensures Resolve(ns, n).node !in dropped
    decreases Rank(ns)[n]
  {
    if ns[n].fwd.Some? {
      RepHoused(ns, dropped, roots, ns[n].fwd.value.node);
    }
  }

  /** Nothing in use forwards, or leads to a node that forwards or is gone. */
  ghost predicate Direct(ns: seq<Node>, dropped: set<nat>, roots: set<Cell>) {
    && (forall n: nat | n < |ns| && n !in dropped :: ns[n].fwd.None?)
    && (forall n: nat, f | n < |ns| && n !in dropped && f in ns[n].links ::
          ns[n].links[f].node < |ns| && ns[n].links[f].node !in dropped)
    && (forall c | c in roots :: c.node < |ns| && c.node !in dropped)
  }

  ghost function Forwarders(ns: seq<Node>): set<nat> {
    set n: nat | n < |ns| && !IsRep(ns, n)
  }

  lemma FlattenedDirect(s: seq<Node>, t: seq<Node>, dropped: set<nat>, roots: set<Cell>)
    requires Housed(s, dropped, roots) && Flattened(s, t, dropped, |s|)
    ensures forall c | c in roots :: c.node < |s|
    ensures Direct(t, dropped + Forwarders(s), StraightAll(s, roots))
  {
    var dropped' := dropped + Forwarders(s);
    forall n: nat | n < |s| && n !in dropped ensures Resolve(s, n).node !in dropped' && Resolve(s, n).node < |s| {
      RepHoused(s, dropped, roots, n);
      RepIsRep(s, n);
    }
    forall n: nat | n < |t| && n !in dropped' ensures t[n].fwd.None? && t[n].links == Straightened(s, s[n].links) {
      assert IsRep(s, n);
      assert FlatAt(s, t, dropped, n, |s|);
    }
    hide Resolve, FlatAt;
  }

  lemma RepIsRep(ns: seq<Node>, n: nat)
    requires Acyclic(ns) && n < |ns|
    ensures IsRep(ns, Resolve(ns, n).node)
  {
  }

  /** Compression is invisible: every cell is the same cell ... */
  lemma FlattenedCanon(s: seq<Node>, t: seq<Node>, dropped: set<nat>, c: Cell)
    requires Flattened(s, t, dropped, |s|) && c.node < |s|
    ensures Canon(t, c) == Canon(s, c)
  {
    var r := Resolve(s, c.node).node;
    assert FlatAt(s, t, dropped, c.node, |s|);
    assert FlatAt(s, t, dropped, r, |s|);
    hide Straightened, Flattened, FlatAt;
  }

  /** ... and every node has the same edges. */
  lemma FlattenedEdges(s: seq<Node>, t: seq<Node>, dropped: set<nat>, n: nat, f: Field, c: Cell)
    requires Flattened(s, t, dropped, |s|) && n < |s|
    ensures HasEdge(t, n, f, c) <==> HasEdge(s, n, f, c)
  {
    assert |t| == |s| && Acyclic(s) && Acyclic(t);
    hide Flattened, Lookup, Canon, Adjust, Straightened;
    var r := Resolve(s, n);
    FlatNode(s, t, dropped, n);
    FlatNode(s, t, dropped, r.node);
    FlattenedLookup(s, t, dropped, r.node, Field(Adjust(s[r.node], r.off + f.off), f.ty));
    if c.node < |s| {
      FlattenedCanon(s, t, dropped, c);
    }
  }

  lemma FlatNode(s: seq<Node>, t: seq<Node>, dropped: set<nat>, n: nat)
    requires Flattened(s, t, dropped, |s|) && n < |s|
    ensures Resolve(t, n) == Resolve(s, n)
    ensures t[n] == s[n].(fwd := t[n].fwd, links := t[n].links)
    ensures forall k :: Adjust(t[n], k) == Adjust(s[n], k)
    ensures (forall g | g in s[n].links :: s[n].links[g].node < |s|)
    ensures (t[n].links == s[n].links || t[n].links == Straightened(s, s[n].links))
  {
    assert FlatAt(s, t, dropped, n, |s|);
  }

  /** What a key finds is the same cell, straight or not. */
  lemma FlattenedLookup(s: seq<Node>, t: seq<Node>, dropped: set<nat>, r: nat, g: Field)
    requires Flattened(s, t, dropped, |s|) && r < |s|
    ensures var x := Lookup(s[r].links, g); var y := Lookup(t[r].links, g);
      && (x.None? <==> y.None?)
      && (x.Some? ==> x.value.node < |s| && y.value.node < |t| && Canon(t, y.value) == Canon(s, x.value))
  {
    FlatNode(s, t, dropped, r);
    LookupStraight(s, s[r].links, g);
    LookupInside(s[r].links, g, |s|);
    hide Straightened, Lookup;
    var x := Lookup(s[r].links, g);
    if x.Some? {
      FlattenedCanon(s, t, dropped, x.value);
      FlattenedCanon(s, t, dropped, Straight(s, x.value));
      SameResolved(s, x.value);
    }
    hide Flattened, Canon;
  }

  lemma LookupInside(links: map<Field, Cell>, g: Field, n: nat)
    requires forall f | f in links :: links[f].node < n
    ensures Lookup(links, g).Some? ==> Lookup(links, g).value.node < n
  {
  }

  /** Compression only ever moves forward: nothing a client could see before is lost. */
  lemma FlattenedLater(s: State, t: State, dropped: set<nat>)
    requires Valid(s.nodes) && Valid(t.nodes) && Flattened(s.nodes, t.nodes, dropped, |s.nodes|)
    requires t == s.(nodes := t.nodes)
    ensures Later(s, t, {})
  {
    hide Absorbs, HasEdge, HasAccess, CarriesLinks, CarriesTypes;
    assert Acyclic(s.nodes) && Acyclic(t.nodes) && |t.nodes| == |s.nodes|;
    hide Valid, Flattened, Carries;
    forall n: nat | n < |s.nodes|
      ensures Resolve(t.nodes, n) == Resolve(s.nodes, n)
      ensures t.nodes[n] == s.nodes[n].(fwd := t.nodes[n].fwd, links := t.nodes[n].links)
      ensures s.nodes[n].fwd.Some? ==> t.nodes[n].links == s.nodes[n].links && t.nodes[n].fwd.Some?
    {
      FlatNode(s.nodes, t.nodes, dropped, n);
      if s.nodes[n].fwd.Some? {
        FlatPending(s.nodes, t.nodes, dropped, n);
      }
    }
    FlattenedFollows(s.nodes, t.nodes, dropped);
    forall r: nat | IsRep(s.nodes, r) ensures Carries(s.nodes[r], t.nodes, r) {
      FlattenedCarries(s.nodes, t.nodes, dropped, r);
    }
    PotentialSame(s.nodes, t.nodes);
    hide Follows;
  }

  lemma LookupStraight(ns: seq<Node>, links: map<Field, Cell>, g: Field)
    requires Acyclic(ns) && forall f | f in links :: links[f].node < |ns|
    ensures var x := Lookup(links, g); var y := Lookup(Straightened(ns, links), g);
      && (x.None? <==> y.None?)
      && (x.Some? ==> x.value.node < |ns| && y.value == Straight(ns, x.value))
  {
  }

  lemma FlatRep(s: seq<Node>, t: seq<Node>, dropped: set<nat>, n: nat)
    requires Flattened(s, t, dropped, |s|) && IsRep(s, n)
    ensures Resolve(t, n) == Resolve(s, n) && t[n] == s[n].(fwd := None, links := t[n].links)
  {
    assert FlatAt(s, t, dropped, n, |s|);
  }

  lemma FlatPending(s: seq<Node>, t: seq<Node>, dropped: set<nat>, n: nat)
    requires Flattened(s, t, dropped, |s|) && n < |s| && s[n].fwd.Some?
    ensures t[n].links == s[n].links && t[n].fwd.Some?
  {
    assert FlatAt(s, t, dropped, n, |s|);
  }

  lemma FlattenedFollows(s: seq<Node>, t: seq<Node>, dropped: set<nat>)
    requires Valid(s) && Flattened(s, t, dropped, |s|)
    ensures Follows(s, t)
  {
    forall n: nat | n < |s|
      ensures Resolve(t, n) == Resolve(s, n)
      ensures t[n] == s[n].(fwd := t[n].fwd, links := t[n].links)
      ensures s[n].fwd.Some? ==> t[n].links == s[n].links && t[n].fwd.Some?
      ensures IsRep(s, n) ==> Absorbs(s[n], t[n])
    {
      FlatNode(s, t, dropped, n);
      if s[n].fwd.Some? {
        FlatPending(s, t, dropped, n);
      } else {
        assert SoundNode(s[n]);
        AbsorbsSelf(s[n]);
      }
    }
    assert Acyclic(s) && Acyclic(t);
    hide Flattened, Valid, Absorbs;
  }

  lemma FlattenedCarries(s: seq<Node>, t: seq<Node>, dropped: set<nat>, r: nat)
    requires Valid(s) && Flattened(s, t, dropped, |s|) && IsRep(s, r)
    ensures Acyclic(t) && |t| == |s| && Carries(s[r], t, r)
  {
    assert Acyclic(s) && Acyclic(t) && |t| == |s|;
    hide Flattened, Valid, HasEdge, HasAccess, Adjust, Straightened;
    CarriesSelf(s, r);
    FlatRep(s, t, dropped, r);
    forall f | f in s[r].links ensures HasEdge(t, r, f, s[r].links[f]) {
      FlattenedEdges(s, t, dropped, r, f, s[r].links[f]);
    }
    forall a | a in s[r].types ensures HasAccess(t, r, a) {
      FlattenedAccess(s, t, r, a);
    }
  }

  lemma FlattenedAccess(s: seq<Node>, t: seq<Node>, r: nat, a: Access)
    requires Acyclic(s) && Acyclic(t) && |t| == |s| && IsRep(s, r) && HasAccess(s, r, a)
    requires t[r] == s[r].(fwd := None, links := t[r].links) && Resolve(t, r) == Resolve(s, r)
    ensures HasAccess(t, r, a)
  {
  }

  // ---------------------------------------------------------------- reachability

  /** `some` contains the target of every link of its members. */
  ghost predicate LinksWithin(ns: seq<Node>, some: set<nat>) {
    forall n: nat, f | n in some && n < |ns| && f in ns[n].links :: ns[n].links[f].node in some
  }

  function NodesOf(cells: set<Cell>): set<nat> {
    set c | c in cells :: c.node
  }

  /** `some` is exactly what the roots reach: the least set with them that links do not leave. */
  ghost predicate Reached(ns: seq<Node>, roots: set<nat>, some: set<nat>) {
    && roots <= some && LinksWithin(ns, some)
    && forall other: set<nat> :: roots <= other && LinksWithin(ns, other) ==> some <= other
  }

  lemma NewlyFound(ns: seq<Node>, roots: set<nat>, reachable: set<nat>, work: set<nat>, n: nat)
    requires n in work && work <= reachable && n < |ns|
    requires forall other: set<nat> :: roots <= other && LinksWithin(ns, other) ==> reachable <= other
    ensures var found := NodesOf(ns[n].links.Values);
      && (forall other: set<nat> :: roots <= other && LinksWithin(ns, other) ==> reachable + found <= other)
      && (forall f | f in ns[n].links :: ns[n].links[f].node in found)
  {
    var found := NodesOf(ns[n].links.Values);
    forall f | f in ns[n].links ensures ns[n].links[f].node in found {
      assert ns[n].links[f] in ns[n].links.Values;
    }
    forall other: set<nat> | roots <= other && LinksWithin(ns, other) ensures found <= other {
      assert n in other;
      forall m | m in found ensures m in other {
        var c :| c in ns[n].links.Values && c.node == m;
        var f :| f in ns[n].links && ns[n].links[f] == c;
      }
    }
  }

  /** The nodes that have not been deleted. */
  ghost function Used(ns: seq<Node>, dropped: set<nat>): set<nat> {
    set n: nat | n < |ns| && Named(n) && n !in dropped
  }

  lemma UsedAfter(ns: seq<Node>, dropped: set<nat>, reachable: set<nat>)
    requires reachable <= Used(ns, dropped)
    ensures Used(ns, dropped + (set n: nat | n < |ns| && Named(n) && n !in reachable)) == reachable
  {
  }

  lemma RootsLive(ns: seq<Node>, dropped: set<nat>, roots: set<Cell>)
    requires Direct(ns, dropped, roots)
    ensures NodesOf(roots) <= Used(ns, dropped)
  {
  }

  lemma FoundLive(ns: seq<Node>, dropped: set<nat>, roots: set<Cell>, n: nat)
    requires Direct(ns, dropped, roots) && n < |ns| && n !in dropped
    ensures NodesOf(ns[n].links.Values) <= Used(ns, dropped)
  {
    forall m | m in NodesOf(ns[n].links.Values) ensures m < |ns| && m !in dropped {
      var c :| c in ns[n].links.Values && c.node == m;
      var f :| f in ns[n].links && ns[n].links[f] == c;
    }
  }

  /** What the nodes in `done` link to is in `reachable`. */
  ghost predicate FoundFrom(ns: seq<Node>, done: set<nat>, reachable: set<nat>) {
    forall n: nat, f | n in done && n < |ns| && f in ns[n].links :: ns[n].links[f].node in reachable
  }

  lemma FoundNone(ns: seq<Node>, reachable: set<nat>)
    ensures FoundFrom(ns, reachable - reachable, reachable)
  {
  }

  lemma FoundMore(ns: seq<Node>, reachable: set<nat>, work: set<nat>, n: nat)
    requires FoundFrom(ns, reachable - work, reachable) && n in work && work <= reachable && n < |ns|
    ensures var found := NodesOf(ns[n].links.Values); var work' := work - {n} + (found - reachable);
      FoundFrom(ns, reachable + found - work', reachable + found)
  {
    var found := NodesOf(ns[n].links.Values);
    forall f | f in ns[n].links ensures ns[n].links[f].node in found {
      assert ns[n].links[f] in ns[n].links.Values;
    }
  }

  lemma AllFound(ns: seq<Node>, dropped: set<nat>, roots: set<Cell>, reachable: set<nat>)
    requires Direct(ns, dropped, roots) && FoundFrom(ns, reachable, reachable) && NodesOf(roots) <= reachable
    requires reachable <= Used(ns, dropped)
    requires forall other: set<nat> :: NodesOf(roots) <= other && LinksWithin(ns, other) ==> reachable <= other
    ensures Reached(ns, NodesOf(roots), reachable)
    ensures Direct(ns, dropped + (set n: nat | n < |ns| && Named(n) && n !in reachable), roots)
  {
  }

  /** A chain of links from a root. */
  ghost predicate Chain(ns: seq<Node>, roots: set<nat>, path: seq<nat>) {
    && path != [] && path[0] in roots
    && forall i | 0 <= i < |path| - 1 :: path[i] < |ns| && path[i + 1] in NodesOf(ns[path[i]].links.Values)
  }

  lemma {:induction false} ChainReached(ns: seq<Node>, roots: set<nat>, some: set<nat>, path: seq<nat>)
    requires Reached(ns, roots, some) && Chain(ns, roots, path)
    ensures path[|path| - 1] in some
  {
    if |path| > 1 {
      var front := path[..|path| - 1];
      assert Chain(ns, roots, front) by {
        forall i | 0 <= i < |front| - 1 ensures front[i] < |ns| && front[i + 1] in NodesOf(ns[front[i]].links.Values) {
          assert path[i] < |ns| && path[i + 1] in NodesOf(ns[path[i]].links.Values);
        }
      }
      ChainReached(ns, roots, some, front);
      var k := |path| - 2;
      assert path[k] < |ns| && path[k + 1] in NodesOf(ns[path[k]].links.Values);
      var f :| f in ns[path[k]].links && ns[path[k]].links[f].node == path[k + 1];
    }
  }

  // ---------------------------------------------------------------- removing nodes

  /** A trigger for the names of nodes. */
  predicate Named(n: nat) { true }

  /** `nd` without its links into `p`, and without the accesses at their offsets. */
  ghost function Pruned(nd: Node, p: nat -> bool): Node {
    var gone := set f | f in nd.links && p(nd.links[f].node) :: f.off;
    nd.(links := map f | f in nd.links && !p(nd.links[f].node) :: nd.links[f],
        types := set a | a in nd.types && a.off !in gone)
  }

  ghost function Surviving(cells: map<nat, Cell>, p: nat -> bool): map<nat, Cell> {
    map v | v in cells && !p(cells[v].node) :: cells[v]
  }

  lemma PrunedIs(was: Node, now: Node, p: nat -> bool, gone: set<nat>)
    requires now == was.(links := now.links, types := now.types)
    requires forall f :: f in now.links <==> f in was.links && !p(was.links[f].node)
    requires forall f | f in now.links :: now.links[f] == was.links[f]
    requires forall k :: k in gone <==> exists f :: f in was.links && p(was.links[f].node) && f.off == k
    requires forall a :: a in now.types <==> a in was.types && a.off !in gone
    ensures now == Pruned(was, p)
  {
    assert now.links == Pruned(was, p).links;
    assert now.types == Pruned(was, p).types;
  }

  lemma SurvivingRoots(a: map<nat, Cell>, b: map<nat, Cell>, c: map<nat, Cell>, p: nat -> bool)
    ensures forall r :: r in Surviving(a, p).Values + Surviving(b, p).Values + Surviving(c, p).Values <==>
              r in a.Values + b.Values + c.Values && !p(r.node)
  {
    SurvivingValues(a, p);
    SurvivingValues(b, p);
    SurvivingValues(c, p);
    hide Surviving;
  }

  lemma SurvivingValues(cells: map<nat, Cell>, p: nat -> bool)
    ensures forall r :: r in Surviving(cells, p).Values <==> r in cells.Values && !p(r.node)
  {
    forall r | r in cells.Values && !p(r.node) ensures r in Surviving(cells, p).Values {
      var v :| v in cells && cells[v] == r;
      assert Surviving(cells, p)[v] == r;
    }
  }

  lemma DirectUsed(ns: seq<Node>, dropped: set<nat>, roots: set<Cell>)
    requires Direct(ns, dropped, roots)
    ensures forall n: nat :: n < |ns| && n !in dropped ==> ns[n].fwd.None?
  {
  }

  lemma FewerRoots(ns: seq<Node>, dropped: set<nat>, roots: set<Cell>, fewer: set<Cell>)
    requires Direct(ns, dropped, roots) && fewer <= roots
    ensures Direct(ns, dropped, fewer)
  {
  }

  lemma PrunedDirect(s: seq<Node>, t: seq<Node>, dropped: set<nat>, roots: set<Cell>, roots': set<Cell>, p: nat -> bool)
    requires Direct(s, dropped, roots) && |t| == |s|
    requires forall n: nat :: n < |s| ==> t[n] == if n !in dropped then Pruned(s[n], p) else s[n]
    requires forall r | r in roots' :: r in roots && !p(r.node)
    ensures Direct(t, dropped + (set n: nat | n < |t| && Named(n) && p(n)), roots')
  {
    forall n: nat | n < |t| && n !in dropped
      ensures t[n].fwd == s[n].fwd
      ensures forall f | f in t[n].links :: f in s[n].links && t[n].links[f] == s[n].links[f] && !p(t[n].links[f].node)
    {
      assert t[n] == Pruned(s[n], p);
    }
  }

  /** No offset loses one link and keeps another. */
  ghost predicate Evenly(nd: Node, p: nat -> bool) {
    forall f, g | f in nd.links && g in nd.links && f.off == g.off :: p(nd.links[f].node) == p(nd.links[g].node)
  }

  /** Removing links leaves a node well formed exactly when no offset keeps one link and
      loses another; only type-aware keys can put two links at one offset. */
  lemma PrunedSound(nd: Node, p: nat -> bool)
    requires SoundNode(nd)
    ensures SoundNode(Pruned(nd, p)) <==> nd.isCollapsed || Evenly(nd, p)
  {
    var t := Pruned(nd, p);
    if !nd.isCollapsed {
      forall f | f in nd.links && !p(nd.links[f].node)
        ensures Typed(t, f.off) <==> forall g | g in nd.links && g.off == f.off :: !p(nd.links[g].node)
      {
        PrunedTyped(nd, p, f);
      }
    }
    assert OmniAlone(t.links) by {
      assert forall f | f in t.links :: f in nd.links;
    }
  }

  lemma PrunedTyped(nd: Node, p: nat -> bool, f: Field)
    requires SoundNode(nd) && !nd.isCollapsed && f in nd.links
    ensures Typed(Pruned(nd, p), f.off) <==> forall g | g in nd.links && g.off == f.off :: !p(nd.links[g].node)
  {
    var t := Pruned(nd, p);
    if forall g | g in nd.links && g.off == f.off :: !p(nd.links[g].node) {
      assert Typed(nd, f.off);
      var a :| a in nd.types && a.off == f.off && a.ty.Prim? && a.ty.bytes > 0;
      assert a in t.types;
    }
  }

  /** Removing links from the nodes in use keeps a graph well formed exactly when each of them stays so. */
  lemma PrunedValid(s: seq<Node>, t: seq<Node>, dropped: set<nat>, p: nat -> bool)
    requires Valid(s) && |t| == |s| && forall n: nat :: n < |s| && n !in dropped ==> s[n].fwd.None?
    requires forall n: nat :: n < |s| ==> t[n] == if n !in dropped then Pruned(s[n], p) else s[n]
    ensures Valid(t) <==> forall n: nat :: n < |s| && n !in dropped ==> s[n].isCollapsed || Evenly(s[n], p)
  {
    hide SoundNode, Evenly;
    SameForwardingKeeps(s, t);
    forall n: nat | n < |s|
      ensures forall f | f in t[n].links :: f in s[n].links && t[n].links[f] == s[n].links[f]
      ensures IsRep(t, n) <==> IsRep(s, n)
      ensures n !in dropped ==> IsRep(t, n) && (SoundNode(t[n]) <==> s[n].isCollapsed || Evenly(s[n], p))
    {
      if n !in dropped {
        assert IsRep(s, n);
        PrunedSound(s[n], p);
      }
    }
    hide Pruned;
    assert Closed(t);
  }

  // ---------------------------------------------------------------- what removal leaves

  /** A chain of links from a root to `n` that keeps clear of `p`. */
  ghost predicate Spared(ns: seq<Node>, roots: set<nat>, path: seq<nat>, p: nat -> bool, n: nat) {
    Chain(ns, roots, path) && path[|path| - 1] == n && forall i | 0 <= i < |path| :: !p(path[i])
  }

  ghost predicate Chained(ns: seq<Node>, roots: set<nat>, n: nat) {
    exists path :: Chain(ns, roots, path) && path[|path| - 1] == n
  }

  /** The reached nodes are the ends of the chains of links from the roots. */
  lemma ReachedChained(ns: seq<Node>, roots: set<nat>, some: set<nat>, n: nat)
    requires Reached(ns, roots, some)
    ensures n in some <==> Chained(ns, roots, n)
  {
    var ends := set m | m in some && Chained(ns, roots, m);
    forall m | m in roots ensures m in ends {
      assert Chain(ns, roots, [m]) && [m][|[m]| - 1] == m;
    }
    forall m: nat, f | m in ends && m < |ns| && f in ns[m].links ensures ns[m].links[f].node in ends {
      ChainExtends(ns, roots, m, f);
    }
    assert some <= ends;
    if Chained(ns, roots, n) {
      var path :| Chain(ns, roots, path) && path[|path| - 1] == n;
      ChainReached(ns, roots, some, path);
    }
  }

  lemma ChainExtends(ns: seq<Node>, roots: set<nat>, m: nat, f: Field)
    requires Chained(ns, roots, m) && m < |ns| && f in ns[m].links
    ensures Chained(ns, roots, ns[m].links[f].node)
  {
    var path :| Chain(ns, roots, path) && path[|path| - 1] == m;
    var longer := path + [ns[m].links[f].node];
    assert ns[m].links[f] in ns[m].links.Values;
    forall i | 0 <= i < |longer| - 1 ensures longer[i] < |ns| && longer[i + 1] in NodesOf(ns[longer[i]].links.Values) {
      if i < |path| - 1 {
        assert path[i] < |ns| && path[i + 1] in NodesOf(ns[path[i]].links.Values);
      }
    }
    assert Chain(ns, roots, longer) && longer[|longer| - 1] == ns[m].links[f].node;
  }

  lemma PrunedTargets(nd: Node, p: nat -> bool, m: nat)
    ensures m in NodesOf(Pruned(nd, p).links.Values) <==> m in NodesOf(nd.links.Values) && !p(m)
  {
    var t := Pruned(nd, p);
    if m in NodesOf(nd.links.Values) && !p(m) {
      var c :| c in nd.links.Values && c.node == m;
      var f :| f in nd.links && nd.links[f] == c;
      assert t.links[f] == c;
    }
  }

  lemma ChainFront(ns: seq<Node>, roots: set<nat>, path: seq<nat>)
    requires |path| > 1
    ensures var k := |path| - 2;
      Chain(ns, roots, path) <==>
        Chain(ns, roots, path[..k + 1]) && path[k] < |ns| && path[k + 1] in NodesOf(ns[path[k]].links.Values)
  {
    var front := path[..|path| - 1];
    if Chain(ns, roots, path) {
      forall i | 0 <= i < |front| - 1 ensures front[i] < |ns| && front[i + 1] in NodesOf(ns[front[i]].links.Values) {
        assert path[i] < |ns| && path[i + 1] in NodesOf(ns[path[i]].links.Values);
      }
    }
    if Chain(ns, roots, front) {
      forall i | 0 <= i < |path| - 2 ensures path[i] < |ns| && path[i + 1] in NodesOf(ns[path[i]].links.Values) {
        assert front[i] < |ns| && front[i + 1] in NodesOf(ns[front[i]].links.Values);
      }
    }
  }

  /** Chains of the pruned graph are the chains of the whole graph that keep clear of `p`. */
  lemma {:induction false} PrunedChain(s: seq<Node>, t: seq<Node>, dropped: set<nat>, roots: set<Cell>,
                                       roots': set<Cell>, path: seq<nat>, p: nat -> bool)
    requires Direct(s, dropped, roots) && |t| == |s|
    requires forall n: nat :: n < |s| ==> t[n] == if n !in dropped then Pruned(s[n], p) else s[n]
    requires forall r :: r in roots' <==> r in roots && !p(r.node)
    ensures Chain(t, NodesOf(roots'), path) <==>
              Chain(s, NodesOf(roots), path) && forall i | 0 <= i < |path| :: !p(path[i])
    ensures Chain(s, NodesOf(roots), path) ==> path[|path| - 1] in Used(s, dropped)
  {
    RootsLive(s, dropped, roots);
    if |path| > 1 {
      var k := |path| - 2;
      var front := path[..k + 1];
      ChainFront(s, NodesOf(roots), path);
      ChainFront(t, NodesOf(roots'), path);
      PrunedChain(s, t, dropped, roots, roots', front, p);
      hide Chain;
      if Chain(s, NodesOf(roots), front) {
        FoundLive(s, dropped, roots, path[k]);
        PrunedTargets(s[path[k]], p, path[k + 1]);
        assert forall i | 0 <= i < |front| :: front[i] == path[i];
      }
    }
  }

  /** What is left after removing `p` are the nodes a root reached by links that keep clear of `p`. */
  lemma PrunedReached(s: seq<Node>, t: seq<Node>, dropped: set<nat>, roots: set<Cell>, roots': set<Cell>,
                      some: set<nat>, p: nat -> bool)
    requires Direct(s, dropped, roots) && |t| == |s|
    requires forall n: nat :: n < |s| ==> t[n] == if n !in dropped then Pruned(s[n], p) else s[n]
    requires forall r :: r in roots' <==> r in roots && !p(r.node)
    requires Reached(t, NodesOf(roots'), some)
    ensures forall n: nat :: n in some <==> exists path :: Spared(s, NodesOf(roots), path, p, n)
  {
    forall n: nat ensures n in some <==> exists path :: Spared(s, NodesOf(roots), path, p, n) {
      ReachedChained(t, NodesOf(roots'), some, n);
      forall path
        ensures Chain(t, NodesOf(roots'), path) && path[|path| - 1] == n <==> Spared(s, NodesOf(roots), path, p, n)
      {
        PrunedChain(s, t, dropped, roots, roots', path, p);
      }
    }
  }
}
