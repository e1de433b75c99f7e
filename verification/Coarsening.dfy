/** The relation between a graph and any later state of it: nothing that was
    equal, linked, typed or marked is ever forgotten. */
module Coarsening {
  import opened PointsTo
  import opened Strides

  /** Offsets equal on `x` are equal on `y`: array strides only shrink to divisors. */
  predicate Absorbs(x: Node, y: Node) {
    && (x.isCollapsed ==> y.isCollapsed)
    && (x.isArray ==> y.isCollapsed || (y.isArray && y.size > 0 && x.size % y.size == 0))
  }

  /** The recorded accesses, links and marks of `nd` are found at node `n`. */
  ghost predicate Carries(nd: Node, ns: seq<Node>, n: nat)
    requires Acyclic(ns) && n < |ns|
  {
    && CarriesLinks(nd.links, ns, n)
    && CarriesTypes(nd.types, ns, n)
    && nd.marks <= ns[Resolve(ns, n).node].marks
  }

  ghost predicate CarriesLinks(links: map<Field, Cell>, ns: seq<Node>, n: nat)
    requires Acyclic(ns) && n < |ns|
  {
    forall f | f in links :: HasEdge(ns, n, f, links[f])
  }

  ghost predicate CarriesTypes(types: set<Access>, ns: seq<Node>, n: nat)
    requires Acyclic(ns) && n < |ns|
  {
    forall a | a in types :: HasAccess(ns, n, a)
  }

  /** Access `a` of the object that begins at `n` is recorded, unless its offset is lost. */
  ghost predicate HasAccess(ns: seq<Node>, n: nat, a: Access)
    requires Acyclic(ns) && n < |ns|
  {
    var r := Resolve(ns, n);
    ns[r.node].isCollapsed || Access(Adjust(ns[r.node], r.off + a.off), a.ty) in ns[r.node].types
  }

  ghost predicate Tracks(s: seq<Node>, t: seq<Node>)
    requires Acyclic(s) && Acyclic(t)
  {
    && |s| <= |t|
    && forall n: nat | n < |s| :: Resolve(t, n) == Shift(Resolve(t, Resolve(s, n).node), Resolve(s, n).off)
  }

  ghost predicate KindsKept(s: seq<Node>, t: seq<Node>)
    requires Acyclic(t) && |s| <= |t|
  {
    forall r: nat | IsRep(s, r) :: Absorbs(s[r], t[Resolve(t, r).node])
  }

  ghost predicate ContentKept(s: seq<Node>, t: seq<Node>, skip: set<nat>)
    requires Acyclic(t) && |s| <= |t|
  {
    forall r: nat | IsRep(s, r) && r !in skip :: Carries(s[r], t, r)
  }

  /** Forwarding nodes stay forwarding and keep what they still have to hand over. */
  ghost predicate PendingKept(s: seq<Node>, t: seq<Node>)
    requires |s| <= |t|
  {
    forall n: nat | n < |s| && s[n].fwd.Some? ::
      t[n].fwd.Some? && t[n] == s[n].(fwd := t[n].fwd, size := t[n].size, types := t[n].types)
  }

  /** `t` resolves every cell of `s` consistently with `s`. */
  ghost predicate Follows(s: seq<Node>, t: seq<Node>) {
    && Acyclic(s) && Acyclic(t)
    && Tracks(s, t)
    && KindsKept(s, t)
    && PendingKept(s, t)
  }

  /** `t` is a later state of `s`; the contents of the nodes in `skip` are in transit. */
  ghost predicate Coarsens(s: seq<Node>, t: seq<Node>, skip: set<nat>) {
    Follows(s, t) && ContentKept(s, t, skip)
  }

  // ---------------------------------------------------------------- strides

  /** Adjusting early or late gives the same offset. */
  lemma AdjustTwice(x: Node, y: Node, k: nat, d: nat)
    requires Absorbs(x, y)
    ensures Adjust(y, Adjust(x, k) + d) == Adjust(y, k + d)
  {
    if !y.isCollapsed && x.isArray && x.size > 0 {
      ModOfMod(k, d, x.size, y.size);
    }
  }

  lemma AbsorbsTrans(x: Node, y: Node, z: Node)
    requires Absorbs(x, y) && Absorbs(y, z)
    ensures Absorbs(x, z)
  {
    if x.isArray && !z.isCollapsed {
      DividesTrans(x.size, y.size, z.size);
    }
  }

  // ---------------------------------------------------------------- what is kept

  lemma CanonLater(s: seq<Node>, t: seq<Node>, c: Cell)
    requires Follows(s, t) && c.node < |s|
    ensures var e := Canon(s, c); Canon(t, c) == Canon(t, e)
  {
    hide PendingKept;
    var r := Resolve(s, c.node);
    var m := Resolve(t, r.node);
    AdjustTwice(s[r.node], t[m.node], r.off + c.off, m.off);
  }

  /** Cells once equal stay equal. */
  lemma SameLater(s: seq<Node>, t: seq<Node>, c: Cell, d: Cell)
    requires Follows(s, t) && Same(s, c, d)
    ensures Same(t, c, d)
  {
    CanonLater(s, t, c);
    CanonLater(s, t, d);
  }

  lemma SameTrans(ns: seq<Node>, c: Cell, d: Cell, e: Cell)
    requires Acyclic(ns) && Same(ns, c, d) && (Same(ns, d, e) || Same(ns, e, d))
    ensures Same(ns, c, e) && Same(ns, e, c)
  {
  }

  /** What a later state keeps of one edge of a representative. */
  lemma RepEdgeLater(s: seq<Node>, t: seq<Node>, r: nat, g: Field)
    requires Coarsens(s, t, {}) && IsRep(s, r) && g in s[r].links
    ensures HasEdge(t, r, g, s[r].links[g])
    ensures Absorbs(s[r], t[Resolve(t, r).node])
  {
    hide HasEdge, Absorbs;
    assert Carries(s[r], t, r);
  }

  lemma ResolveLater(s: seq<Node>, t: seq<Node>, n: nat)
    requires Coarsens(s, t, {}) && n < |s|
    ensures Resolve(t, n) == Shift(Resolve(t, Resolve(s, n).node), Resolve(s, n).off)
  {
    hide ContentKept, PendingKept, KindsKept;
  }

  lemma CoarsensBasics(s: seq<Node>, t: seq<Node>, skip: set<nat>)
    requires Coarsens(s, t, skip)
    ensures Follows(s, t) && Acyclic(s) && Acyclic(t) && |s| <= |t|
  {
  }

  lemma ValidOmni(ns: seq<Node>, n: nat)
    requires Valid(ns) && IsRep(ns, n)
    ensures OmniAlone(ns[n].links)
  {
    assert SoundNode(ns[n]);
  }

  lemma LookupThroughOmni(links: map<Field, Cell>, f: Field)
    requires OmniAlone(links) && Omnified(f) in links
    ensures Lookup(links, f) == Some(links[Omnified(f)])
  {
  }

  /** An edge once present stays present, even when its key is folded or its target merged. */
  lemma EdgeLater(s: seq<Node>, t: seq<Node>, n: nat, f: Field, c: Cell)
    requires Valid(t) && Coarsens(s, t, {}) && n < |s| && HasEdge(s, n, f, c)
    ensures HasEdge(t, n, f, c)
  {
    hide Coarsens, Valid, Follows, Absorbs, Adjust, Canon;
    CoarsensBasics(s, t, {});
    var r := Resolve(s, n);
    var key := Field(Adjust(s[r.node], r.off + f.off), f.ty);
    var links := s[r.node].links;
    var g := if key in links then key else Omnified(key);
    RepEdgeLater(s, t, r.node, g);
    ResolveLater(s, t, n);
    SameLater(s, t, links[g], c);
    var m := Resolve(t, r.node);
    AdjustTwice(s[r.node], t[m.node], r.off + f.off, m.off);
    ValidOmni(t, m.node);
    hide OmniAlone;
    var target := Field(Adjust(t[m.node], r.off + f.off + m.off), f.ty);
    var found := Lookup(t[m.node].links, Field(target.off, g.ty));
    assert found.Some? && Same(t, found.value, links[g]);
    if g != key && Omnified(target) in t[m.node].links {
      LookupThroughOmni(t[m.node].links, target);
    }
    assert Lookup(t[m.node].links, target) == found;
  }

  lemma AccessLater(s: seq<Node>, t: seq<Node>, n: nat, a: Access)
    requires Coarsens(s, t, {}) && n < |s| && HasAccess(s, n, a)
    ensures HasAccess(t, n, a)
  {
    hide PendingKept, CarriesLinks;
    var r := Resolve(s, n);
    var m := Resolve(t, r.node);
    AdjustTwice(s[r.node], t[m.node], r.off + a.off, m.off);
    if !s[r.node].isCollapsed {
      assert HasAccess(t, r.node, Access(Adjust(s[r.node], r.off + a.off), a.ty));
    }
  }

  lemma CarriesLater(nd: Node, s: seq<Node>, t: seq<Node>, n: nat)
    requires Valid(t) && Coarsens(s, t, {}) && n < |s| && Carries(nd, s, n)
    ensures Carries(nd, t, n)
  {
    assert Acyclic(s) && Acyclic(t) && |s| <= |t|;
    hide Coarsens, HasEdge, HasAccess;
    forall f | f in nd.links ensures HasEdge(t, n, f, nd.links[f]) {
      EdgeLater(s, t, n, f, nd.links[f]);
    }
    forall a | a in nd.types ensures HasAccess(t, n, a) {
      AccessLater(s, t, n, a);
    }
    MarksLater(s, t, n);
  }

  lemma MarksLater(s: seq<Node>, t: seq<Node>, n: nat)
    requires Coarsens(s, t, {}) && n < |s|
    ensures s[Resolve(s, n).node].marks <= t[Resolve(t, n).node].marks
  {
    assert Carries(s[Resolve(s, n).node], t, Resolve(s, n).node);
  }

  lemma CoarsensRefl(s: seq<Node>)
    requires Valid(s)
    ensures Coarsens(s, s, {})
  {
    forall r: nat | IsRep(s, r) ensures Carries(s[r], s, r) && Absorbs(s[r], s[r]) {
      CarriesSelf(s, r);
    }
  }

  lemma CarriesSelf(s: seq<Node>, r: nat)
    requires Valid(s) && IsRep(s, r)
    ensures Carries(s[r], s, r)
  {
    assert SoundNode(s[r]);
    forall a | a in s[r].types ensures HasAccess(s, r, a) {
    }
  }

  lemma KindsTrans(s: seq<Node>, t: seq<Node>, u: seq<Node>)
    requires Acyclic(s) && Acyclic(t) && Acyclic(u)
    requires Tracks(s, t) && Tracks(t, u) && KindsKept(s, t) && KindsKept(t, u)
    ensures Tracks(s, u) && KindsKept(s, u)
  {
    forall r: nat | IsRep(s, r) ensures Absorbs(s[r], u[Resolve(u, r).node]) {
      AbsorbsTrans(s[r], t[Resolve(t, r).node], u[Resolve(u, r).node]);
    }
  }

  lemma CoarsensTrans(s: seq<Node>, t: seq<Node>, u: seq<Node>, skip: set<nat>)
    requires Valid(u)
    requires Coarsens(s, t, skip) && Coarsens(t, u, {})
    ensures Coarsens(s, u, skip)
  {
    KindsTrans(s, t, u);
    forall r: nat | IsRep(s, r) && r !in skip ensures Carries(s[r], u, r) {
      CarriesLater(s[r], t, u, r);
    }
  }
}
