/** Facts about adding and merging links. */
module LinkFacts {
  import opened PointsTo
  import opened Forwarding
  import opened Coarsening
  import opened Changes
  import opened Candidates
  import opened Steps
  import opened EngineFacts

  // ---------------------------------------------------------------- handing links over

  /** The links in transit can be added to the representative. */
  lemma LinksReady(s: State, t: State, a: nat, b: nat, d: nat)
    requires Later(s, t, {a}) && IsRep(s.nodes, a) && TypesArrived(s, t, a, b, d)
    ensures forall f | f in t.nodes[a].links :: t.nodes[a].links[f].node < |t.nodes| && TypedAt(t.nodes, a, f.off)
    ensures Mapped(t) ==> forall f | f in t.nodes[a].links :: Leads(t.candidate, a, f, t.nodes[a].links[f])
  {
    LaterBasics(s, t, {a});
    assert Absorbs(s.nodes[a], t.nodes[Resolve(t.nodes, a).node]);
    SoundRep(s.nodes, a);
    ClosedNode(t.nodes, a);
    hide Later, Follows, Valid;
    forall f | f in t.nodes[a].links ensures t.nodes[a].links[f].node < |t.nodes| && TypedAt(t.nodes, a, f.off) {
      if !s.nodes[a].isCollapsed {
        var x :| x in s.nodes[a].types && x.off == f.off && x.ty.Prim? && x.ty.bytes > 0;
        AccessTyped(t.nodes, a, x) by { assert HasAccess(t.nodes, a, x); }
      }
    }
    if Mapped(t) {
      assert NodeRespects(t.nodes[a], t.candidate, a);
    }
  }

  /** The whole of `a` has been handed over, and `a` is reset. */
  lemma Handover(s: State, t: State, u: State, z: State, a: nat, b: nat, d: nat)
    requires Later(s, t, {a}) && IsRep(s.nodes, a) && TypesArrived(s, t, a, b, d) && MarksArrived(s, t, a)
    requires Later(t, u, {})
    requires Acyclic(u.nodes) && a < |u.nodes| && CarriesLinks(t.nodes[a].links, u.nodes, a)
    requires z == u.(nodes := u.nodes[a := BLANK.(fwd := u.nodes[a].fwd)])
    ensures Later(s, z, {}) && Cleared(z.nodes[a]) && Potential(z.nodes) == Potential(u.nodes)
    ensures Acyclic(z.nodes) && b < |z.nodes| && Resolve(z.nodes, a) == Shift(Resolve(z.nodes, b), d)
    ensures Mapped(u) ==> Mapped(z)
  {
    hide Later, CarriesLinks, CarriesTypes, Mapped;
    LaterTrans(s, t, u, {a});
    TypesArrivedLater(s, t, u, a, b, d);
    MarksArrivedLater(s, t, u, a);
    assert t.nodes[a].links == s.nodes[a].links;
    EmptiedLater(s, u, z, a, z.nodes[a]);
    LaterBasics(s, z, {});
    assert u.nodes[a].fwd.Some?;
  }

  lemma MarksArrivedLater(s: State, t: State, u: State, a: nat)
    requires MarksArrived(s, t, a) && Later(t, u, {})
    ensures MarksArrived(s, u, a)
  {
    LaterBasics(t, u, {});
    MarksLater(t.nodes, u.nodes, a) by { assert Coarsens(t.nodes, u.nodes, {}); }
    var m := Resolve(t.nodes, a).node;
    assert t.nodes[m].sites <= u.nodes[Resolve(u.nodes, m).node].sites + u.lost;
    assert t.lost <= u.lost;
    assert Resolve(u.nodes, a).node == Resolve(u.nodes, m).node;
    hide Later;
  }

  lemma TypedLater(s: State, t: State, n: nat, k: nat)
    requires Later(s, t, {})
    requires Acyclic(s.nodes) ==> n < |s.nodes| && TypedAt(s.nodes, n, k)
    ensures Acyclic(t.nodes) && n < |t.nodes| && TypedAt(t.nodes, n, k)
  {
    hide Later, TypedAt, HasAccess, Follows;
    LaterBasics(s, t, {});
    if s.nodes[Resolve(s.nodes, n).node].isCollapsed {
      CollapsedLater(s, t, n, {});
      CollapsedTyped(t.nodes, n, k);
    } else {
      var x := TypedWitness(s.nodes, n, k);
      AccessStays(s, t, n, x);
      AccessTyped(t.nodes, n, x);
    }
  }

  lemma AccessStays(s: State, t: State, n: nat, x: Access)
    requires Later(s, t, {})
    requires Acyclic(s.nodes) ==> n < |s.nodes| && HasAccess(s.nodes, n, x)
    ensures Acyclic(t.nodes) && n < |t.nodes| && HasAccess(t.nodes, n, x)
  {
    LaterBasics(s, t, {});
    assert Coarsens(s.nodes, t.nodes, {});
    hide Later, HasAccess, Coarsens;
    AccessLater(s.nodes, t.nodes, n, x);
  }

  lemma CollapsedTyped(ns: seq<Node>, n: nat, k: nat)
    requires Acyclic(ns) && n < |ns| && ns[Resolve(ns, n).node].isCollapsed
    ensures TypedAt(ns, n, k)
  {
  }

  lemma TypedWitness(ns: seq<Node>, n: nat, k: nat) returns (x: Access)
    requires Acyclic(ns) && n < |ns| && TypedAt(ns, n, k) && !ns[Resolve(ns, n).node].isCollapsed
    ensures x.off == k && x.ty.Prim? && x.ty.bytes > 0 && HasAccess(ns, n, x)
  {
    var r := Resolve(ns, n);
    var at := Adjust(ns[r.node], r.off + k);
    var y :| y in ns[r.node].types && y.off == at && y.ty.Prim? && y.ty.bytes > 0;
    x := y.(off := k);
    TypedAccess(ns, n, k, y);
  }

  lemma TypedAccess(ns: seq<Node>, n: nat, k: nat, x: Access)
    requires Acyclic(ns) && n < |ns|
    requires var r := Resolve(ns, n); x in ns[r.node].types && x.off == Adjust(ns[r.node], r.off + k)
    ensures HasAccess(ns, n, x.(off := k))
  {
  }

  lemma AccessTyped(ns: seq<Node>, n: nat, x: Access)
    requires Acyclic(ns) && n < |ns| && HasAccess(ns, n, x) && x.ty.Prim? && x.ty.bytes > 0
    ensures TypedAt(ns, n, x.off)
  {
  }

  lemma ResolveStays(s: State, t: State, n: nat, skip: set<nat>)
    requires Later(s, t, skip) && n < |s.nodes|
    ensures Acyclic(s.nodes) && Acyclic(t.nodes) && n < |t.nodes|
    ensures Resolve(t.nodes, n) == Shift(Resolve(t.nodes, Resolve(s.nodes, n).node), Resolve(s.nodes, n).off)
  {
    LaterBasics(s, t, skip);
    hide Later, KindsKept, PendingKept;
  }

  lemma EdgeStays(s: State, t: State, n: nat, f: Field, c: Cell)
    requires Later(s, t, {})
    requires Acyclic(s.nodes) ==> n < |s.nodes| && HasEdge(s.nodes, n, f, c)
    ensures Acyclic(t.nodes) && n < |t.nodes| && HasEdge(t.nodes, n, f, c)
  {
    LaterBasics(s, t, {});
    assert Coarsens(s.nodes, t.nodes, {});
    hide Later, HasEdge, Coarsens;
    EdgeLater(s.nodes, t.nodes, n, f, c);
  }

  /** A link of a representative, read as an edge. */
  lemma EdgeHere(ns: seq<Node>, n: nat, f: Field, c: Cell)
    requires Acyclic(ns) && IsRep(ns, n) && Adjust(ns[n], f.off) == f.off
    requires f in ns[n].links && Same(ns, ns[n].links[f], c)
    ensures HasEdge(ns, n, f, c)
  {
    hide Same, Adjust;
  }

  // ---------------------------------------------------------------- adding several links

  ghost predicate AllLead(m: Candidate, n: nat, links: map<Field, Cell>) {
    forall f | f in links :: Leads(m, n, f, links[f])
  }

  lemma AddLinkReady(s: State, t: State, n: nat, links: map<Field, Cell>, f: Field)
    requires Later(s, t, {}) && f in links && links[f].node < |s.nodes|
    requires Acyclic(s.nodes) ==> n < |s.nodes| && TypedAt(s.nodes, n, f.off)
    requires AllLead(s.candidate, n, links) ==> KeepsMap(s, t)
    ensures Acyclic(t.nodes) && n < |t.nodes| && TypedAt(t.nodes, n, f.off) && links[f].node < |t.nodes|
    ensures AllLead(s.candidate, n, links) && Mapped(s) ==> Leads(t.candidate, n, f, links[f])
  {
    TypedLater(s, t, n, f.off);
    LaterBasics(s, t, {});
    hide Later, Mapped;
    if AllLead(s.candidate, n, links) && Mapped(s) {
      LeadsExtended(s.candidate, t.candidate, n, f, links[f]);
    }
  }

  lemma AddLinkDone(s: State, t: State, u: State, n: nat, links: map<Field, Cell>, f: Field, rest: set<Field>)
    requires Later(s, t, {}) && Later(t, u, {}) && f in links
    requires Acyclic(t.nodes) && Acyclic(u.nodes) && n < |t.nodes| && n < |u.nodes|
    requires forall g | g in links && g !in rest :: HasEdge(t.nodes, n, g, links[g])
    requires HasEdge(u.nodes, n, f, links[f])
    requires AllLead(s.candidate, n, links) ==> KeepsMap(s, t)
    requires AllLead(s.candidate, n, links) && Mapped(s) ==> Leads(t.candidate, n, f, links[f])
    requires Leads(t.candidate, n, f, links[f]) ==> KeepsMap(t, u)
    ensures Later(s, u, {})
    ensures forall g | g in links && g !in rest - {f} :: HasEdge(u.nodes, n, g, links[g])
    ensures AllLead(s.candidate, n, links) ==> KeepsMap(s, u)
  {
    hide Later, HasEdge, AllLead, Leads, Mapped;
    LaterTrans(s, t, u, {});
    forall g | g in links && g !in rest - {f} ensures HasEdge(u.nodes, n, g, links[g]) {
      if g != f {
        EdgeStays(t, u, n, g, links[g]);
      }
    }
  }

  // ---------------------------------------------------------------- adding through a cell

  lemma MappedRespects(s: State)
    requires Mapped(s)
    ensures Respects(s.nodes, s.candidate)
  {
  }

  lemma CellAddLinkReady(s: State, t: State, n: nat, f: Field, c: Cell, r: Cell)
    requires Compressed(s.nodes, t.nodes) && n < |s.nodes| && r == Resolve(s.nodes, n)
    requires TypedAt(s.nodes, n, f.off) && t == s.(nodes := t.nodes)
    ensures IsRep(t.nodes, r.node) && Resolve(t.nodes, r.node) == Cell(r.node, 0)
    ensures |t.nodes| == |s.nodes| && Resolve(t.nodes, n) == r
    ensures TypedAt(t.nodes, r.node, r.off + f.off)
    ensures Mapped(s) && Leads(s.candidate, n, f, c) ==>
              Leads(t.candidate, r.node, Field(r.off + f.off, f.ty), c)
  {
    hide Leads, Mapped, Typed, TypedAt;
    TypedFound(s.nodes, t.nodes, n, f.off, r);
    if Mapped(s) && Leads(s.candidate, n, f, c) {
      MappedRespects(s);
      ImageOfRep(s.nodes, s.candidate, Cell(n, 0));
      LeadsFrom(s.candidate, n, f, r, c);
    }
  }

  lemma TypedFound(s: seq<Node>, t: seq<Node>, n: nat, k: nat, r: Cell)
    requires Compressed(s, t) && n < |s| && r == Resolve(s, n) && TypedAt(s, n, k)
    ensures TypedAt(t, r.node, r.off + k)
  {
    hide Typed, Adjust;
    assert t[r.node] == s[r.node].(fwd := t[r.node].fwd);
    TypedLike(s[r.node], t[r.node]);
  }

  lemma TypedLike(nd: Node, now: Node)
    requires now == nd.(fwd := now.fwd)
    ensures forall k :: Typed(now, k) == Typed(nd, k) && Adjust(now, k) == Adjust(nd, k)
  {
  }

  lemma CellAddLinkDone(s: State, t: State, u: State, n: nat, f: Field, c: Cell, r: Cell)
    requires Later(s, t, {}) && KeepsMap(s, t) && Later(t, u, {})
    requires Acyclic(t.nodes) && Acyclic(u.nodes) && n < |t.nodes| && Resolve(t.nodes, n) == r
    requires r.node < |u.nodes| && HasEdge(u.nodes, r.node, Field(r.off + f.off, f.ty), c)
    ensures Later(s, u, {}) && n < |u.nodes| && HasEdge(u.nodes, n, f, c)
    ensures KeepsMap(t, u) ==> KeepsMap(s, u)
  {
    hide Later, Mapped, Same, Adjust;
    LaterTrans(s, t, u, {});
    ResolveStays(t, u, n, {});
  }

  // ---------------------------------------------------------------- adding to a representative

  lemma NormalKey(s: State, n: nat, f0: Field, f: Field, c: Cell)
    requires Valid(s.nodes) && IsRep(s.nodes, n) && TypedAt(s.nodes, n, f0.off)
    requires f == Field(Adjust(s.nodes[n], f0.off), f0.ty)
    ensures s.nodes[n].isCollapsed || Typed(s.nodes[n], f.off)
    ensures Adjust(s.nodes[n], f.off) == f.off
    ensures Mapped(s) && Leads(s.candidate, n, f0, c) ==> Leads(s.candidate, n, f, c)
  {
    AdjustAdjusted(s.nodes[n], f0.off);
    if Mapped(s) && Leads(s.candidate, n, f0, c) {
      assert NodeRespects(s.nodes[n], s.candidate, n);
    }
  }

  lemma LinkTargets(s: State, n: nat, f: Field, c: Cell)
    requires Mapped(s) && n < |s.nodes| && Leads(s.candidate, n, f, c)
    ensures f in s.nodes[n].links ==> Equates(s.candidate, s.nodes[n].links[f], c)
    ensures Omnified(f) in s.nodes[n].links ==> Equates(s.candidate, s.nodes[n].links[Omnified(f)], c)
  {
    assert NodeRespects(s.nodes[n], s.candidate, n);
    hide Leads;
    if f in s.nodes[n].links {
      LeadsSameTarget(s.candidate, n, f, s.nodes[n].links[f], c);
    }
    if Omnified(f) in s.nodes[n].links {
      LeadsThroughOmni(s.candidate, n, f, c, s.nodes[n].links[Omnified(f)]);
    }
  }

  /** An edge at the adjusted key is an edge at the key itself. */
  lemma LinkTargetsIfMapped(s: State, n: nat, f: Field, c: Cell)
    requires n < |s.nodes|
    ensures Mapped(s) && Leads(s.candidate, n, f, c) && f in s.nodes[n].links ==>
              Equates(s.candidate, s.nodes[n].links[f], c)
    ensures Mapped(s) && Leads(s.candidate, n, f, c) && Omnified(f) in s.nodes[n].links ==>
              Equates(s.candidate, s.nodes[n].links[Omnified(f)], c)
  {
    hide Leads, Mapped, Equates;
    if Mapped(s) && Leads(s.candidate, n, f, c) {
      LinkTargets(s, n, f, c);
    }
  }

  lemma MeetsItself(links: map<Field, Cell>, f: Field)
    ensures f in links || Omnified(f) in links ==> !MeetsNone(links, f)
  {
    if f in links {
      assert Meets(f, f);
    } else if Omnified(f) in links {
      assert Meets(f, Omnified(f));
    }
  }

  /** An omni key that meets nothing has no links to gather. */
  lemma OmniMeetsNone(links: map<Field, Cell>, f: Field, saved: map<Field, Cell>, kept: map<Field, Cell>)
    requires f.ty == Omni
    requires saved == map g | g in links && g.off == f.off :: links[g]
    requires kept == map g | g in links && g.off != f.off :: links[g]
    ensures MeetsNone(links, f) ==> saved == map[] && kept == links
  {
    if MeetsNone(links, f) {
      assert forall g | g in links :: !Meets(f, g);
    }
  }

  lemma EdgeUnadjusted(s: State, t: State, n: nat, f0: Field, f: Field, c: Cell)
    requires Later(s, t, {}) && IsRep(s.nodes, n) && f == Field(Adjust(s.nodes[n], f0.off), f0.ty)
    requires Acyclic(t.nodes) && n < |t.nodes| && HasEdge(t.nodes, n, f, c)
    ensures HasEdge(t.nodes, n, f0, c)
  {
    hide Later, Same, Adjust, Absorbs;
    KindLater(s, t, n);
    var m := Resolve(t.nodes, n);
    AdjustTwice(s.nodes[n], t.nodes[m.node], f0.off, m.off);
  }

  lemma EdgeThroughOmni(ns: seq<Node>, n: nat, f: Field, c: Cell)
    requires Valid(ns) && n < |ns| && HasEdge(ns, n, Omnified(f), c)
    ensures HasEdge(ns, n, f, c)
  {
    ValidOmni(ns, Resolve(ns, n).node);
    hide Valid, Same;
  }

  /** An omni link speaks for its whole offset: every link there leads where it does. */
  lemma OmniAgrees(ns: seq<Node>, n: nat, g: Field, c: Cell, d: Cell)
    requires Valid(ns) && n < |ns| && HasEdge(ns, n, g, c) && HasEdge(ns, n, Omnified(g), d)
    ensures Same(ns, c, d)
  {
    var r := Resolve(ns, n);
    ValidOmni(ns, r.node);
    LookupThroughOmni(ns[r.node].links, Field(Adjust(ns[r.node], r.off + g.off), g.ty));
    hide Valid, Canon, Adjust, OmniAlone;
  }

  /** Once an offset of an object has an omni link to `c`, whatever was linked there is `c`. */
  lemma OmniGathers(s: State, t: State, n: nat, g: Field, c: Cell)
    requires Later(s, t, {}) && IsRep(s.nodes, n) && g in s.nodes[n].links
    requires Acyclic(t.nodes) && n < |t.nodes| && HasEdge(t.nodes, n, Omnified(g), c)
    ensures Same(t.nodes, s.nodes[n].links[g], c)
  {
    LaterBasics(s, t, {});
    assert Coarsens(s.nodes, t.nodes, {});
    hide Later, Coarsens, HasEdge, Valid, Follows;
    RepEdgeLater(s.nodes, t.nodes, n, g);
    OmniAgrees(t.nodes, n, g, s.nodes[n].links[g], c);
  }

  lemma LinkSet(s: State, t: State, n: nat, f: Field, c: Cell)
    requires Valid(s.nodes) && IsRep(s.nodes, n) && c.node < |s.nodes|
    requires Adjust(s.nodes[n], f.off) == f.off && (s.nodes[n].isCollapsed || Typed(s.nodes[n], f.off))
    requires f !in s.nodes[n].links && Omnified(f) !in s.nodes[n].links && f.ty != Omni
    requires t == s.(nodes := s.nodes[n := s.nodes[n].(links := s.nodes[n].links[f := c])])
    ensures Later(s, t, {}) && Acyclic(t.nodes) && HasEdge(t.nodes, n, f, c)
    ensures Leads(s.candidate, n, f, c) ==> KeepsMap(s, t)
  {
    var nd := t.nodes[n];
    LinkSetSound(s.nodes, n, f, c);
    hide Later, Mapped, SoundNode, Fits, Typed, NodeRespects;
    GrowsLater(s, t, n, nd);
    LaterBasics(s, t, {});
    SetRespects(s, n, f, c);
    hide Valid, Leads, Follows, HasEdge;
    EdgeHere(t.nodes, n, f, c);
  }

  lemma SetRespects(s: State, n: nat, f: Field, c: Cell)
    requires n < |s.nodes|
    ensures Mapped(s) && Leads(s.candidate, n, f, c) ==>
              NodeRespects(s.nodes[n].(links := s.nodes[n].links[f := c]), s.candidate, n)
  {
    hide Leads;
    if Mapped(s) {
      assert NodeRespects(s.nodes[n], s.candidate, n);
    }
  }

  lemma LinkSetSound(ns: seq<Node>, n: nat, f: Field, c: Cell)
    requires Valid(ns) && IsRep(ns, n) && c.node < |ns|
    requires Adjust(ns[n], f.off) == f.off && (ns[n].isCollapsed || Typed(ns[n], f.off))
    requires Omnified(f) !in ns[n].links && f.ty != Omni
    ensures Fits(ns, ns[n].(links := ns[n].links[f := c]))
  {
    var nd := ns[n].(links := ns[n].links[f := c]);
    assert SoundNode(ns[n]);
    assert forall k :: Typed(nd, k) <==> Typed(ns[n], k);
    forall g | g in nd.links && Omnified(g) in nd.links ensures g.ty == Omni {
      if g != f {
        assert g in ns[n].links && Omnified(g) in ns[n].links;
      }
    }
  }

  // ---------------------------------------------------------------- omni links

  /** The omni link is in place; the other links at its offset are in transit. */
  lemma OmniSet(s: State, t: State, n: nat, f: Field, c: Cell, saved: map<Field, Cell>, kept: map<Field, Cell>)
    requires Valid(s.nodes) && IsRep(s.nodes, n) && c.node < |s.nodes|
    requires Adjust(s.nodes[n], f.off) == f.off && (s.nodes[n].isCollapsed || Typed(s.nodes[n], f.off))
    requires f !in s.nodes[n].links && f.ty == Omni
    requires saved == map g | g in s.nodes[n].links && g.off == f.off :: s.nodes[n].links[g]
    requires kept == map g | g in s.nodes[n].links && g.off != f.off :: s.nodes[n].links[g]
    requires t == s.(nodes := s.nodes[n := s.nodes[n].(links := kept[f := c])])
    ensures Later(s, t, {n}) && Valid(t.nodes) && IsRep(t.nodes, n) && Resolve(t.nodes, n) == Cell(n, 0)
    ensures forall g | g in saved :: g.ty != Omni && saved[g].node < |t.nodes| && TypedAt(t.nodes, n, g.off)
    ensures Leads(s.candidate, n, f, c) ==> KeepsMap(s, t)
    ensures Mapped(s) ==> AllLead(s.candidate, n, saved)
  {
    hide Leads, Fits, Mapped, CarriesLinks;
    var nd := t.nodes[n];
    OmniSetSound(s.nodes, n, f, c, kept);
    AbsorbsSelf(s.nodes[n]) by { SoundRep(s.nodes, n); }
    OmniInTransit(s, t, n);
    OmniRespects(s, t, n, f, c, saved, kept);
    forall g | g in saved ensures g.ty != Omni && saved[g].node < |t.nodes| && TypedAt(t.nodes, n, g.off) {
      assert g == Field(f.off, g.ty);
      assert s.nodes[n].isCollapsed || Typed(nd, f.off);
    }
    hide Later, Valid;
  }

  lemma OmniInTransit(s: State, t: State, n: nat)
    requires Valid(s.nodes) && IsRep(s.nodes, n) && n < |t.nodes| && t == s.(nodes := s.nodes[n := t.nodes[n]])
    requires Fits(s.nodes, t.nodes[n]) && Absorbs(s.nodes[n], t.nodes[n])
    requires t.nodes[n].isArray == s.nodes[n].isArray && t.nodes[n].isCollapsed == s.nodes[n].isCollapsed
    ensures Later(s, t, {n}) && Valid(t.nodes) && IsRep(t.nodes, n) && Resolve(t.nodes, n) == Cell(n, 0)
  {
    hide Coarsens, Valid, Fits, Acyclic, SitesKept, Absorbs;
    InPlace(s.nodes, n, t.nodes[n]);
    CoarsensBasics(s.nodes, t.nodes, {n});
    PotentialUpdate(s.nodes, n, t.nodes[n]);
    InTransitSites(s.nodes, n, t.nodes[n], s.lost);
  }

  lemma OmniRespects(s: State, t: State, n: nat, f: Field, c: Cell, saved: map<Field, Cell>, kept: map<Field, Cell>)
    requires n < |s.nodes|
    requires saved == map g | g in s.nodes[n].links && g.off == f.off :: s.nodes[n].links[g]
    requires kept == map g | g in s.nodes[n].links && g.off != f.off :: s.nodes[n].links[g]
    requires t == s.(nodes := s.nodes[n := s.nodes[n].(links := kept[f := c])])
    ensures Leads(s.candidate, n, f, c) ==> KeepsMap(s, t)
    ensures Mapped(s) ==> AllLead(s.candidate, n, saved)
  {
    hide Leads;
    if Mapped(s) {
      assert NodeRespects(s.nodes[n], s.candidate, n);
      if Leads(s.candidate, n, f, c) {
        RespectsUpdate(s.nodes, s.candidate, n, t.nodes[n]);
      }
    }
  }

  lemma OmniSetSound(ns: seq<Node>, n: nat, f: Field, c: Cell, kept: map<Field, Cell>)
    requires Valid(ns) && IsRep(ns, n) && c.node < |ns| && f.ty == Omni
    requires Adjust(ns[n], f.off) == f.off && (ns[n].isCollapsed || Typed(ns[n], f.off))
    requires kept == map g | g in ns[n].links && g.off != f.off :: ns[n].links[g]
    ensures Fits(ns, ns[n].(links := kept[f := c]))
  {
    var nd := ns[n].(links := kept[f := c]);
    assert SoundNode(ns[n]);
    TypedSame(ns[n], nd);
    forall g | g in nd.links
      ensures nd.links[g].node < |ns| && Adjust(nd, g.off) == g.off && (nd.isCollapsed || Typed(nd, g.off))
    {
      if g != f {
        assert g in ns[n].links;
      }
    }
    hide Valid, Typed, Adjust;
    OmniAloneSet(ns[n].links, f, c, kept);
    hide OmniAlone;
  }

  lemma OmniAloneSet(links: map<Field, Cell>, f: Field, c: Cell, kept: map<Field, Cell>)
    requires OmniAlone(links) && f.ty == Omni
    requires kept == map g | g in links && g.off != f.off :: links[g]
    ensures OmniAlone(kept[f := c])
  {
    forall g | g in kept[f := c] && Omnified(g) in kept[f := c] ensures g.ty == Omni {
      if g.off != f.off {
        assert g in links && Omnified(g) in links;
      }
    }
  }

  lemma TypedSame(x: Node, y: Node)
    requires x.types == y.types
    ensures forall k :: Typed(x, k) <==> Typed(y, k)
  {
  }

  /** Every link that was at `n` is back, folded into the omni link. */
  lemma OmniDone(s: State, t: State, u: State, n: nat, f: Field, c: Cell, saved: map<Field, Cell>, kept: map<Field,
                 Cell>)
    requires Valid(s.nodes) && IsRep(s.nodes, n) && Later(s, t, {n}) && Later(t, u, {})
    requires saved == map g | g in s.nodes[n].links && g.off == f.off :: s.nodes[n].links[g]
    requires kept == map g | g in s.nodes[n].links && g.off != f.off :: s.nodes[n].links[g]
    requires IsRep(t.nodes, n) && t.nodes[n] == s.nodes[n].(links := kept[f := c])
    requires t.lost == s.lost
    requires Acyclic(u.nodes) && n < |u.nodes| && CarriesLinks(saved, u.nodes, n)
    ensures Later(s, u, {}) && HasEdge(u.nodes, n, f, c)
  {
    hide Later, CarriesTypes, HasEdge;
    LaterBasics(s, t, {n});
    LaterTrans(s, t, u, {n});
    CarriesSelf(t.nodes, n);
    CarriesOn(t, u, n);
    assert Carries(s.nodes[n], u.nodes, n) by {
      forall g | g in s.nodes[n].links ensures HasEdge(u.nodes, n, g, s.nodes[n].links[g]) {
        if g.off == f.off {
          assert saved[g] == s.nodes[n].links[g];
        } else {
          assert t.nodes[n].links[g] == s.nodes[n].links[g];
        }
      }
    }
    DeliveredLater(s, u, n);
  }

  lemma CarriesOn(t: State, u: State, n: nat)
    requires Later(t, u, {}) && IsRep(t.nodes, n)
    ensures Acyclic(u.nodes) && n < |u.nodes| && Carries(t.nodes[n], u.nodes, n)
    ensures t.nodes[n].sites <= u.nodes[Resolve(u.nodes, n).node].sites + u.lost
  {
    LaterBasics(t, u, {});
    assert ContentKept(t.nodes, u.nodes, {});
    hide Carries;
  }

  lemma DeliveredLater(s: State, u: State, n: nat)
    requires Later(s, u, {n}) && IsRep(s.nodes, n)
    requires Acyclic(u.nodes) && n < |u.nodes| && Carries(s.nodes[n], u.nodes, n)
    requires s.nodes[n].sites <= u.nodes[Resolve(u.nodes, n).node].sites + u.lost
    ensures Later(s, u, {})
  {
    Delivered(s.nodes, u.nodes, n);
    hide Coarsens, Carries, Valid;
  }

  // ---------------------------------------------------------------- merging a link's target

  lemma LinkResolved(s: State, t: State, u: State, n: nat, f: Field, link: Cell)
    requires Valid(s.nodes) && IsRep(s.nodes, n) && f in s.nodes[n].links && s.nodes[n].links[f].node < |s.nodes|
    requires Compressed(s.nodes, t.nodes) && t == s.(nodes := t.nodes)
    requires Later(s, t, {}) && KeepsMap(s, t) && Valid(t.nodes)
    requires link == Shift(Resolve(s.nodes, s.nodes[n].links[f].node), s.nodes[n].links[f].off)
    requires n < |t.nodes| && u == t.(nodes := t.nodes[n := t.nodes[n].(links := t.nodes[n].links[f := link])])
    ensures Later(s, u, {}) && KeepsMap(s, u) && Valid(u.nodes) && link.node < |u.nodes|
    ensures n < |u.nodes| && HasEdge(u.nodes, n, f, link)
    ensures Mapped(s) ==> Equates(s.candidate, s.nodes[n].links[f], link)
  {
    var was := s.nodes[n].links[f];
    assert t.nodes[n] == s.nodes[n].(fwd := t.nodes[n].fwd);
    assert Resolve(t.nodes, was.node) == Resolve(s.nodes, was.node);
    hide Compressed;
    LinkShortened(t, u, n, f, link);
    hide Later;
    LaterTrans(s, t, u, {});
    LaterBasics(s, u, {});
    if Mapped(s) {
      ImageOfRep(s.nodes, s.candidate, was);
    }
    hide Mapped, Valid, HasEdge, Equates;
  }

  /** Moving a link to its target's representative. */
  lemma LinkShortened(t: State, u: State, n: nat, f: Field, link: Cell)
    requires Valid(t.nodes) && IsRep(t.nodes, n) && f in t.nodes[n].links
    requires t.nodes[n].links[f].node < |t.nodes|
    requires link == Shift(Resolve(t.nodes, t.nodes[n].links[f].node), t.nodes[n].links[f].off)
    requires u == t.(nodes := t.nodes[n := t.nodes[n].(links := t.nodes[n].links[f := link])])
    ensures Later(t, u, {}) && KeepsMap(t, u)
    ensures Acyclic(u.nodes) && HasEdge(u.nodes, n, f, link)
  {
    hide Later, Mapped, NodeRespects, Carries, Fits, HasEdge, Leads;
    var nd := u.nodes[n];
    ShortenedSound(t.nodes, n, f, link);
    InPlaceResolves(t.nodes, n, nd);
    ShortenedCarries(t.nodes, n, f, link);
    AbsorbsSelf(t.nodes[n]) by { SoundRep(t.nodes, n); }
    ShortenedRespects(t, n, f, link);
    hide Valid;
    InPlaceLater(t, u, n, nd);
  }

  lemma ShortenedRespects(t: State, n: nat, f: Field, link: Cell)
    requires Acyclic(t.nodes) && n < |t.nodes| && f in t.nodes[n].links && t.nodes[n].links[f].node < |t.nodes|
    requires link == Shift(Resolve(t.nodes, t.nodes[n].links[f].node), t.nodes[n].links[f].off)
    ensures Mapped(t) ==> NodeRespects(t.nodes[n].(links := t.nodes[n].links[f := link]), t.candidate, n)
  {
    hide Leads;
    if Mapped(t) {
      assert NodeRespects(t.nodes[n], t.candidate, n);
      ImageOfRep(t.nodes, t.candidate, t.nodes[n].links[f]);
      LeadsTo(t.candidate, n, f, t.nodes[n].links[f], link);
    }
  }

  lemma ShortenedSound(ns: seq<Node>, n: nat, f: Field, link: Cell)
    requires Valid(ns) && IsRep(ns, n) && f in ns[n].links && link.node < |ns|
    ensures Fits(ns, ns[n].(links := ns[n].links[f := link]))
  {
    var nd := ns[n].(links := ns[n].links[f := link]);
    assert SoundNode(ns[n]);
    assert forall k :: Typed(nd, k) <==> Typed(ns[n], k);
    assert nd.links.Keys == ns[n].links.Keys;
  }

  lemma ShortenedCarries(ns: seq<Node>, n: nat, f: Field, link: Cell)
    requires Valid(ns) && IsRep(ns, n) && f in ns[n].links && ns[n].links[f].node < |ns|
    requires link == Shift(Resolve(ns, ns[n].links[f].node), ns[n].links[f].off)
    requires var t := ns[n := ns[n].(links := ns[n].links[f := link])];
      Acyclic(t) && forall k: nat :: k < |ns| ==> Resolve(t, k) == Resolve(ns, k)
    ensures var t := ns[n := ns[n].(links := ns[n].links[f := link])];
      Carries(ns[n], t, n) && HasEdge(t, n, f, link)
  {
    hide HasAccess, Same, HasEdge, Valid, Adjust, SoundNode;
    var t := ns[n := ns[n].(links := ns[n].links[f := link])];
    SoundRep(ns, n);
    SoundAdjusted(ns[n], t[n]);
    forall a | a in ns[n].types ensures HasAccess(t, n, a) {
      AccessHere(t, n, a);
    }
    SameResolved(t, ns[n].links[f]);
    ClosedNode(ns, n);
    forall g | g in ns[n].links ensures HasEdge(t, n, g, ns[n].links[g]) {
      if g != f {
        SameSelf(t, ns[n].links[g]);
      }
      EdgeHere(t, n, g, ns[n].links[g]);
    }
    SameSelf(t, link);
    EdgeHere(t, n, f, link);
  }

  /** What a sound node records and links is under adjusted offsets. */
  lemma SoundAdjusted(nd: Node, now: Node)
    requires SoundNode(nd) && now == nd.(links := now.links)
    ensures forall f | f in nd.links :: Adjust(now, f.off) == f.off
    ensures forall a | a in nd.types :: now.isCollapsed || (Adjust(now, a.off) == a.off && a in now.types)
  {
  }

  lemma AccessHere(ns: seq<Node>, n: nat, a: Access)
    requires Acyclic(ns) && IsRep(ns, n) && (ns[n].isCollapsed || (Adjust(ns[n], a.off) == a.off && a in ns[n].types))
    ensures HasAccess(ns, n, a)
  {
  }

  lemma ClosedNode(ns: seq<Node>, n: nat)
    requires Valid(ns) && n < |ns|
    ensures forall g | g in ns[n].links :: ns[n].links[g].node < |ns|
  {
  }

  lemma SameSelf(ns: seq<Node>, c: Cell)
    requires Acyclic(ns) && c.node < |ns|
    ensures Same(ns, c, c)
  {
  }

  lemma SameResolved(ns: seq<Node>, c: Cell)
    requires Acyclic(ns) && c.node < |ns|
    ensures Same(ns, Shift(Resolve(ns, c.node), c.off), c)
  {
  }

  lemma LinkUnified(s: State, u: State, z: State, n: nat, f: Field, link: Cell, c: Cell)
    requires Later(s, u, {}) && Later(u, z, {}) && KeepsMap(s, u)
    requires Acyclic(u.nodes) && n < |u.nodes| && HasEdge(u.nodes, n, f, link)
    requires Acyclic(z.nodes) && Same(z.nodes, link, c)
    ensures Later(s, z, {}) && n < |z.nodes| && HasEdge(z.nodes, n, f, c)
    ensures KeepsMap(u, z) ==> KeepsMap(s, z)
  {
    hide Later, Mapped;
    LaterTrans(s, u, z, {});
    EdgeStays(u, z, n, f, link);
    hide Adjust, Lookup, Canon;
  }
}
