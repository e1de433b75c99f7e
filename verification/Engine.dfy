/** The unification engine: merging and collapsing memory objects in place. */
module Engine {
  import opened Layout
  import opened PointsTo
  import opened Forwarding
  import opened Coarsening
  import opened Changes
  import opened Candidates
  import opened Steps
  import opened Flattening
  import opened EngineFacts
  import opened LinkFacts
  import opened MergeFacts
  import opened MergeLaws
  import opened TypeFacts
  import opened CleanupFacts

  class Graph {
    /** All nodes ever allocated; a node is named by its index. */
    var nodes: seq<Node>

    /** The cells of scalars, formal parameters and returns. */
    var values: map<nat, Cell>
    var formals: map<nat, Cell>
    var retCells: map<nat, Cell>

    /** Nodes that have been deleted. */
    var dropped: set<nat>

    /** An arbitrary candidate outcome, carried along. */
    ghost var candidate: Candidate

    /** Allocation sites that a merge wrote to a node no longer in use. */
    ghost var lost: set<Site>

    /** An empty graph. */
    constructor ()
      ensures Valid(nodes) && nodes == [] && Roots() == {} && dropped == {} && lost == {}
    {
      nodes, values, formals, retCells, dropped := [], map[], map[], map[], {};
      candidate, lost := Candidate([], []), {};
      new;
      assert IsRank([], []);
    }

    ghost function Now(): State
      reads this
    {
      State(nodes, candidate, lost)
    }

    // -------------------------------------------------------------- resolving

    /** The representative of `n` and its offset there; shortens the path on the way. */
    method Find(n: nat) returns (c: Cell)
      requires Valid(nodes) && n < |nodes|
      modifies `nodes
      ensures Compressed(old(nodes), nodes) && c == Resolve(old(nodes), n)
      ensures old(OneStep(nodes, n)) ==> nodes == old(nodes)
      ensures Shortened(old(nodes), nodes) && (nodes[n].fwd.Some? ==> nodes[n].fwd == Some(c))
      ensures Later(old(Now()), Now(), {}) && KeepsMap(old(Now()), Now())
      ensures Valid(nodes)
      decreases Rank(nodes)[n]
    {
      hide Compressed, Shortened, Valid, Acyclic, Later, KeepsMap, OneStep, Follows, Resolve;
      ghost var s := Now();
      ValidAcyclic(nodes);
      CompressedSelf(nodes);
      Forwards(nodes, n);
      if nodes[n].fwd.None? {
        c := Cell(n, 0);
      } else {
        var f := nodes[n].fwd.value;
        RankStep(nodes, n);
        var r := Find(f.node);
        c := Shift(r, f.off);
        ghost var t := Now();
        LaterBasics(s, t, {});
        nodes := nodes[n := nodes[n].(fwd := Some(c))];
        FindStep(s.nodes, t.nodes, nodes, n, f, r);
      }
      CompressedLater(s, Now());
      LaterBasics(s, Now(), {});
    }

    /** The cell `c` on its representative, with the raw offset. */
    method ResolveCell(c: Cell) returns (r: Cell)
      requires Valid(nodes) && c.node < |nodes|
      modifies `nodes
      ensures Compressed(old(nodes), nodes) && r == Shift(Resolve(old(nodes), c.node), c.off)
      ensures Shortened(old(nodes), nodes)
      ensures old(OneStep(nodes, c.node)) ==> nodes == old(nodes)
      ensures Later(old(Now()), Now(), {}) && KeepsMap(old(Now()), Now())
      ensures Valid(nodes)
    {
      var f := Find(c.node);
      r := Shift(f, c.off);
    }

    // -------------------------------------------------------------- collapsing

    /** Make every offset of the object at `a` the same. */
    method CollapseOffsets(a: nat)
      requires Valid(nodes) && IsRep(nodes, a)
      modifies `nodes, `candidate, `lost
      ensures Later(old(Now()), Now(), {})
      ensures Valid(nodes) && a < |nodes| && nodes[Resolve(nodes, a).node].isCollapsed
      ensures IsRep(nodes, a) || Cleared(nodes[a])
      ensures old(nodes[a].isCollapsed) ==> nodes == old(nodes)
      ensures !old(nodes[a].isCollapsed) ==> Potential(nodes) < Potential(old(nodes))
      ensures !old(nodes[a].isCollapsed) ==> (IsRep(nodes, a) <==> old(nodes[a].size) <= 1)
      ensures !old(nodes[a].isCollapsed) && old(nodes[a].size) <= 1 ==>
                && lost == old(lost)
                && nodes == old(nodes[a := nodes[a].(size := 1, isCollapsed := true, isArray := false)])
      ensures !old(nodes[a].isCollapsed) && old(nodes[a].links) == map[] ==>
                CollapsedOnly(old(Now()), Now(), a) && nodes[Resolve(nodes, a).node].sites == old(nodes[a].sites)
      ensures old(MustCollapse(candidate, a)) ==> KeepsMap(old(Now()), Now())
      decreases Potential(nodes), 1, 0
    {
      hide Later, KeepsMap, Mapped, MustCollapse, CollapsedOnly, Follows, Equates, Calm, Holds, HoldsAll;
      hide AbsorbedOnly, Acyclic, OneStep, Valid, Absorbs;
      ghost var s := Now();
      if nodes[a].isCollapsed {
        LaterRefl(s);
        KeepsMapRefl(s);
        return;
      }
      if nodes[a].size <= 1 {
        nodes := nodes[a := nodes[a].(size := 1, isCollapsed := true, isArray := false)];
        CollapsedInPlace(s, Now(), a);
        ValidAcyclic(nodes);
        CollapsedHere(s, Now(), a);
      } else {
        var n := |nodes|;
        nodes := nodes + [BLANK];
        nodes := nodes[n := JoinType(nodes[n], nodes[a])];
        nodes := nodes[n := nodes[n].(isCollapsed := true, isArray := false)];
        nodes := nodes[n := nodes[n].(size := 1)];
        assert nodes[n] == BLANK.(size := 1, isCollapsed := true, marks := s.nodes[a].marks);
        assert nodes[..n] == s.nodes;
        candidate := PlaceLike(candidate, a);
        ghost var t := Now();
        assert nodes == s.nodes + [BLANK.(size := 1, isCollapsed := true, marks := s.nodes[a].marks)];
        CollapsedCopy(s, t, a);
        PointTo(a, n, 0);
        ValidAcyclic(nodes);
        CollapsedByCopy(s, t, Now(), a);
        if s.nodes[a].links == map[] {
          CopiedExactly(s, t, Now(), a);
        }
      }
    }

    // -------------------------------------------------------------- merging

    /** Retire `a` into representative `b` at offset `o` and hand everything over. */
    method PointTo(a: nat, b: nat, o: nat)
      requires Valid(nodes) && IsRep(nodes, a) && IsRep(nodes, b) && a != b
      requires Absorbs(nodes[a], nodes[b])
      modifies `nodes, `candidate, `lost
      ensures Later(old(Now()), Now(), {})
      ensures Valid(nodes) && a < |nodes| && Cleared(nodes[a])
      ensures Resolve(nodes, a) == Shift(Resolve(nodes, b), Adjust(old(nodes[b]), o))
      ensures Potential(nodes) + Weight(old(nodes[a])) <= Potential(old(nodes))
      ensures old(Equates(candidate, Cell(a, 0), Cell(b, o))) ==> KeepsMap(old(Now()), Now())
      ensures old(Calm(nodes[b], Adjust(nodes[b], o), nodes[a])) ==>
                AbsorbedOnly(old(Now()), Now(), a, b, Adjust(old(nodes[b]), o))
      ensures old(nodes[a].links == map[] && nodes[b].links == map[] &&
                  !Holds(nodes[b], Adjust(nodes[b], o), nodes[a])) ==>
                nodes[Resolve(nodes, b).node].sites == old(nodes[b].sites)
      // an array whose elements do not hold the accesses collapses
      ensures old(!nodes[b].isCollapsed && !HoldsAll(nodes[b], Adjust(nodes[b], o), nodes[a].types)) ==>
                nodes[Resolve(nodes, b).node].isCollapsed
      decreases PotentialWithout(nodes, a), 20, 0
    {
      hide AbsorbedOnly, EmbeddedOnly, LinksClear, JoinedLinks, OneStep, Calm, Holds, HoldsAll, Absorbs;
      hide Follows, Later, Mapped, Valid, Leads, Equates, TypedAt, TypesArrived, MarksArrived, CarriesLinks;
      ghost var s := Now();
      Embed(a, b, o);
      ghost var t := Now();
      LaterBasics(s, t, {a});
      ghost var d := Adjust(s.nodes[b], o);
      LinksReady(s, t, a, b, d);
      AddLinks(a, nodes[a].links);
      ghost var u := Now();
      nodes := nodes[a := BLANK.(fwd := nodes[a].fwd)];
      LaterBasics(t, u, {});
      Handover(s, t, u, Now(), a, b, d);
      LaterBasics(s, Now(), {});
      AbsorbedEmptied(s, t, u, Now(), a, b, d);
      StraySites(s, t, u, Now(), a, b, d);
      if !s.nodes[b].isCollapsed && !HoldsAll(s.nodes[b], d, s.nodes[a].types) {
        OverflowEmptied(t, u, Now(), a, b);
      }
    }

    /** Forward `a` into `b` and hand over everything but the links. */
    method Embed(a: nat, b: nat, o: nat)
      requires Valid(nodes) && IsRep(nodes, a) && IsRep(nodes, b) && a != b
      requires Absorbs(nodes[a], nodes[b])
      modifies `nodes, `candidate, `lost
      ensures Later(old(Now()), Now(), {a})
      ensures TypesArrived(old(Now()), Now(), a, b, Adjust(old(nodes[b]), o)) && MarksArrived(old(Now()), Now(), a)
      ensures Potential(nodes) <= PotentialWithout(old(nodes), a)
      ensures PotentialWithout(old(nodes), a) + Weight(old(nodes[a])) == Potential(old(nodes))
      ensures old(Equates(candidate, Cell(a, 0), Cell(b, o))) ==> KeepsMap(old(Now()), Now())
      // the allocation sites arrive exactly when recording the accesses leaves `b` in use
      ensures IsRep(nodes, b) <==> old(Holds(nodes[b], Adjust(nodes[b], o), nodes[a]))
      ensures IsRep(nodes, b) ==> lost == old(lost) && nodes[b].sites == old(nodes[a].sites + nodes[b].sites)
      ensures !IsRep(nodes, b) ==> old(nodes[a].sites) <= lost
      ensures !IsRep(nodes, b) && old(nodes[b].links) == map[] ==>
                nodes[Resolve(nodes, b).node].sites == old(nodes[b].sites)
      ensures old(nodes[b].isCollapsed || HoldsAll(nodes[b], Adjust(nodes[b], o), nodes[a].types)) ==>
                EmbeddedOnly(old(Now()), Now(), a, b, Adjust(old(nodes[b]), o))
      ensures old(!nodes[b].isCollapsed && !HoldsAll(nodes[b], Adjust(nodes[b], o), nodes[a].types)) ==>
                nodes[Resolve(nodes, b).node].isCollapsed
      decreases PotentialWithout(nodes, a), 19, 0
    {
      ghost var s := Now();
      var d := Adjust(nodes[b], Adjust(nodes[b], o));
      nodes := nodes[a := nodes[a].(fwd := Some(Cell(b, d)))];
      ghost var t := Now();
      RetiredInto(s, t, a, b, o);
      if !nodes[b].isCollapsed {
        JoinAccessedTypes(b, d, a);
      } else {
        LaterRefl(t);
      }
      ghost var u := Now();
      EmbeddedTypes(s, t, u, a, b, d);
      JoinAnnotations(a, b, d, s);
      EmbeddedAll(s, t, u, Now(), a, b, d);
      if s.nodes[b].isCollapsed || HoldsAll(s.nodes[b], d, s.nodes[a].types) {
        EmbeddedExactly(s, t, u, Now(), a, b, d);
      } else {
        ValidAcyclic(nodes);
        OverflowKept(t, u, Now(), b);
      }
      hide Later, Mapped, Valid, Equates, TypesArrived, MarksArrived, EmbeddedOnly;
    }

    /** Join the flags of `a` into its representative, and its sites into `b`. */
    method JoinAnnotations(a: nat, b: nat, ghost d: nat, ghost s: State)
      requires IsRep(s.nodes, a) && IsRep(s.nodes, b) && a != b
      requires Later(s, Now(), {a}) && TypesArrived(s, Now(), a, b, d)
      requires IsRep(nodes, b) || !ArrayFree(s.nodes)
      modifies `nodes, `candidate, `lost
      ensures Later(s, Now(), {a})
      ensures TypesArrived(s, Now(), a, b, d) && MarksArrived(s, Now(), a)
      ensures Potential(nodes) <= Potential(old(nodes))
      ensures KeepsMap(old(Now()), Now())
      ensures IsRep(nodes, b) <==> old(IsRep(nodes, b))
      ensures IsRep(nodes, b) ==> lost == old(lost) && nodes[b].sites == s.nodes[a].sites + old(nodes[b].sites)
      ensures !IsRep(nodes, b) ==> s.nodes[a].sites <= lost
      ensures old(IsRep(nodes, b)) ==>
                a < |old(nodes)| &&
                var x, y := old(nodes)[b], old(nodes)[a];
                Now() == old(Now()).(nodes := old(nodes)[b := JoinType(x, y).(sites := x.sites + y.sites)])
      ensures old(b < |nodes| && nodes[b].fwd.Some?) ==>
                RepSitesKept(old(Now()), Now(), b) && RepKindKept(old(Now()), Now(), b)
    {
      hide Later, Mapped, KeepsMap, Valid, TypesArrived, MarksArrived, JoinType, FlagsAgree, Follows;
      hide ArrayFree, Compressed, Shortened, RepSitesKept, RepKindKept, Acyclic;
      ghost var u := Now();
      LaterBasics(s, u, {a});
      var r := Find(b);
      ghost var v := Now();
      Found(s, u, v, a, b, d, r);
      nodes := nodes[r.node := JoinType(nodes[r.node], nodes[a])];
      ghost var w := Now();
      FlagsJoined(v, w, a, r.node);
      FlagsIn(s, v, w, a, b, d, r.node);
      LaterBasics(u, v, {});
      LaterBasics(v, w, {});
      KeepsMapTrans(u, v, w);
      nodes := nodes[b := nodes[b].(sites := nodes[b].sites + nodes[a].sites)];
      if nodes[b].fwd.Some? {
        lost := lost + nodes[a].sites;
        StrayRep(u, v, w, Now(), b, r.node);
      }
      SitesIn(s, w, Now(), a, b, d);
      KeepsMapTrans(u, w, Now());
    }

    /** Add every link of `links` to the object that begins at `n`. */
    method AddLinks(n: nat, links: map<Field, Cell>)
      requires Valid(nodes) && n < |nodes|
      requires forall f | f in links :: links[f].node < |nodes| && TypedAt(nodes, n, f.off)
      modifies `nodes, `candidate, `lost
      ensures Later(old(Now()), Now(), {})
      ensures Valid(nodes) && n < |nodes| && CarriesLinks(links, nodes, n)
      ensures old(AllLead(candidate, n, links)) ==> KeepsMap(old(Now()), Now())
      ensures links == map[] ==> Now() == old(Now())
      // links that meet nothing are all stored, and nothing else happens
      ensures var r := Resolve(old(nodes), n);
        old(OneStep(nodes, n)) && LinksClear(old(nodes)[r.node], r.off, links) ==>
          JoinedLinks(old(Now()), Now(), r.node, r.off, links, links.Keys)
      decreases Potential(nodes), if exists f | f in links :: f.ty == Omni then 15 else 10, 0
    {
      hide LinksClear, JoinedLinks, OneStep, Stored, HasEdge, AllLead, Later, Valid, Acyclic, Mapped, Leads;
      hide KeepsMap, TypedAt, Follows;
      ghost var s := Now();
      LaterRefl(s);
      ValidAcyclic(nodes);
      ghost var r := Resolve(nodes, n);
      JoinedNone(s, n, links);
      KeepsMapRefl(s);
      var rest := links.Keys;
      assert links.Keys - rest == {};
      while rest != {}
        invariant rest <= links.Keys
        invariant Later(s, Now(), {}) && Valid(nodes) && Acyclic(nodes) && n < |nodes|
        invariant OneStep(s.nodes, n) && LinksClear(s.nodes[r.node], r.off, links) ==>
                    JoinedLinks(s, Now(), r.node, r.off, links, links.Keys - rest)
        invariant forall f | f in links && f !in rest :: HasEdge(nodes, n, f, links[f])
        invariant AllLead(s.candidate, n, links) ==> KeepsMap(s, Now())
        invariant links == map[] ==> Now() == s
      {
        var f :| f in rest;
        ghost var t := Now();
        LaterBasics(s, t, {});
        AddLinkReady(s, t, n, links, f);
        CellAddLink(n, f, links[f]);
        ValidAcyclic(nodes);
        AddLinkDone(s, t, Now(), n, links, f, rest);
        if OneStep(s.nodes, n) && LinksClear(s.nodes[r.node], r.off, links) {
          JoinedOneMore(s, t, Now(), n, links, links.Keys - rest, f);
        }
        assert links.Keys - (rest - {f}) == links.Keys - rest + {f};
        rest := rest - {f};
      }
      assert links.Keys - rest == links.Keys;
    }

    /** Add a link to the object that begins at `n`, through its representative. */
    method CellAddLink(n: nat, f: Field, c: Cell)
      requires Valid(nodes) && n < |nodes| && c.node < |nodes| && TypedAt(nodes, n, f.off)
      modifies `nodes, `candidate, `lost
      ensures Later(old(Now()), Now(), {})
      ensures Valid(nodes) && n < |nodes| && HasEdge(nodes, n, f, c)
      ensures old(Leads(candidate, n, f, c)) ==> KeepsMap(old(Now()), Now())
      ensures Stored(old(Now()), Now(), n, f, c)
      decreases Potential(nodes), if f.ty == Omni then 13 else 9, 0
    {
      hide Later, Mapped, Leads, MeetsNone, HasEdge, Valid, Acyclic, Stored, OneStep, Compressed, Shortened;
      hide TypedAt, Follows;
      ghost var s := Now();
      var r := Find(n);
      ghost var t := Now();
      LaterBasics(s, t, {});
      CellAddLinkReady(s, t, n, f, c, r);
      AddLink(r.node, Field(r.off + f.off, f.ty), c);
      LaterBasics(t, Now(), {});
      CellAddLinkDone(s, t, Now(), n, f, c, r);
      StoredDone(s, t, Now(), n, f, c);
    }

    /** Add a link at field `f0` of representative `n`, merging it with what is there. */
    method AddLink(n: nat, f0: Field, c: Cell)
      requires Valid(nodes) && IsRep(nodes, n) && c.node < |nodes| && TypedAt(nodes, n, f0.off)
      modifies `nodes, `candidate, `lost
      ensures Later(old(Now()), Now(), {})
      ensures Valid(nodes) && n < |nodes| && HasEdge(nodes, n, f0, c)
      ensures old(Leads(candidate, n, f0, c)) ==> KeepsMap(old(Now()), Now())
      // a link that meets nothing is simply stored, under the adjusted key
      ensures var nd := old(nodes[n]); var f := Field(Adjust(nd, f0.off), f0.ty);
        MeetsNone(nd.links, f) ==>
          Now() == old(Now()).(nodes := old(nodes)[n := nd.(links := nd.links[f := c])])
      decreases Potential(nodes), if f0.ty == Omni then 12 else 8, 0
    {
      hide Later, Mapped, Leads, HasEdge, Valid, Acyclic, TypedAt, Typed, Follows, JoinedLinks, LinksClear, OneStep;
      hide MeetsNone, Equates, Adjust, Lookup, CarriesLinks, AllLead, Resolve, Same, Meets, KeyAt;
      ghost var s := Now();
      var f := Field(Adjust(nodes[n], f0.off), f0.ty);
      ValidAcyclic(nodes);
      NormalKey(s, n, f0, f, c);
      ClosedNode(nodes, n);
      MeetsItself(nodes[n].links, f);
      LinkTargetsIfMapped(s, n, f, c);
      if f in nodes[n].links {
        UnifyLink(n, f, c);
      } else if Omnified(f) in nodes[n].links {
        UnifyLink(n, Omnified(f), c);
        ValidAcyclic(nodes);
        EdgeThroughOmni(nodes, n, f, c);
      } else if f.ty != Omni {
        nodes := nodes[n := nodes[n].(links := nodes[n].links[f := c])];
        LinkSet(s, Now(), n, f, c);
      } else {
        SetOmni(n, f, c);
      }
      LaterBasics(s, Now(), {});
      EdgeUnadjusted(s, Now(), n, f0, f, c);
    }

    /** Add an omni link that is not there: the links at its offset are taken out and added again. */
    method SetOmni(n: nat, f: Field, c: Cell)
      requires Valid(nodes) && IsRep(nodes, n) && c.node < |nodes| && f.ty == Omni && f !in nodes[n].links
      requires Adjust(nodes[n], f.off) == f.off && (nodes[n].isCollapsed || Typed(nodes[n], f.off))
      modifies `nodes, `candidate, `lost
      ensures Later(old(Now()), Now(), {})
      ensures Valid(nodes) && n < |nodes| && HasEdge(nodes, n, f, c)
      ensures old(Leads(candidate, n, f, c)) ==> KeepsMap(old(Now()), Now())
      ensures MeetsNone(old(nodes)[n].links, f) ==>
                Now() == old(Now()).(nodes := old(nodes)[n := old(nodes)[n].(links := old(nodes)[n].links[f := c])])
      decreases Potential(nodes), 11, 0
    {
      hide Later, Mapped, Leads, HasEdge, Valid, Acyclic, TypedAt, Typed, Follows, JoinedLinks, LinksClear, OneStep;
      hide MeetsNone, Equates, Adjust, CarriesLinks, AllLead, Resolve, Same, Meets, KeyAt;
      ghost var s := Now();
      var here := nodes[n].links;
      var saved := map g | g in here && g.off == f.off :: here[g];
      var kept := map g | g in here && g.off != f.off :: here[g];
      OmniMeetsNone(here, f, saved, kept);
      nodes := nodes[n := nodes[n].(links := kept[f := c])];
      ghost var t := Now();
      OmniSet(s, t, n, f, c, saved, kept);
      LaterBasics(s, t, {n});
      AddLinks(n, saved);
      ValidAcyclic(nodes);
      OmniDone(s, t, Now(), n, f, c, saved, kept);
    }

    /** Merge the target of link `f` of representative `n` with `c`. */
    method UnifyLink(n: nat, f: Field, c: Cell)
      requires Valid(nodes) && IsRep(nodes, n) && c.node < |nodes| && f in nodes[n].links
      modifies `nodes, `candidate, `lost
      ensures Later(old(Now()), Now(), {})
      ensures Valid(nodes) && n < |nodes| && HasEdge(nodes, n, f, c)
      ensures old(nodes[n].links[f].node < |nodes| && Equates(candidate, nodes[n].links[f], c)) ==>
                KeepsMap(old(Now()), Now())
      decreases Potential(nodes), 7, 0
    {
      hide Later, Mapped, Valid, HasEdge, Follows, Compressed, Shortened, Same, MergedCells, OneStep, Acyclic, Image;
      ghost var s := Now();
      ValidAcyclic(nodes);
      ClosedNode(nodes, n);
      var link := ResolveCell(nodes[n].links[f]);
      ghost var t := Now();
      nodes := nodes[n := nodes[n].(links := nodes[n].links[f := link])];
      ghost var u := Now();
      LinkResolved(s, t, u, n, f, link);
      LaterBasics(s, u, {});
      Unify(link, c);
      ValidAcyclic(nodes);
      LinkUnified(s, u, Now(), n, f, link, c);
    }

    /** Make two cells the same. */
    method Unify(c: Cell, d: Cell)
      requires Valid(nodes) && c.node < |nodes| && d.node < |nodes|
      modifies `nodes, `candidate, `lost
      ensures Later(old(Now()), Now(), {})
      ensures Valid(nodes) && Same(nodes, c, d)
      ensures old(Equates(candidate, c, d)) ==> KeepsMap(old(Now()), Now())
      ensures old(IsRep(nodes, c.node) && IsRep(nodes, d.node)) ==> MergedCells(old(Now()), Now(), c, d)
      ensures exists u :: MergedFrom(old(Now()), u, Now(), c, d)
      decreases Potential(nodes), 6, 0
    {
      hide Later, Mapped, Valid, Same, Follows, Compressed, Shortened, Equates, KeepsMap, MergedCells, MergedFrom;
      ghost var s := Now();
      var c1 := ResolveCell(c);
      ghost var t := Now();
      LaterBasics(s, t, {});
      var d1 := ResolveCell(d);
      ghost var u := Now();
      LaterBasics(t, u, {});
      UnifyReady(s, t, u, c, d, c1, d1);
      UnifyReps(c1, d1);
      LaterBasics(u, Now(), {});
      UnifyDone(s, u, Now(), c, d, c1, d1);
      MergedOn(s, t, u, Now(), c, d, c1, d1);
    }

    /** Merge a cell that may be null with `d`: a null cell becomes `d`. */
    method UnifyOrSet(c: Option<Cell>, d: Cell) returns (r: Cell)
      requires Valid(nodes) && d.node < |nodes| && (c.Some? ==> c.value.node < |nodes|)
      modifies `nodes, `candidate, `lost
      ensures Later(old(Now()), Now(), {})
      ensures Valid(nodes) && Same(nodes, r, d)
      ensures c.Some? ==> r == c.value
      ensures c.Some? && old(IsRep(nodes, c.value.node) && IsRep(nodes, d.node)) ==>
                MergedCells(old(Now()), Now(), c.value, d)
      ensures c.None? ==> r == Canon(old(nodes), d) && Compressed(old(nodes), nodes)
      // nothing more is merged than any candidate that equates the cells merges
      ensures (c.Some? ==> old(Equates(candidate, c.value, d))) ==> KeepsMap(old(Now()), Now())
      ensures c.Some? ==> exists u :: MergedFrom(old(Now()), u, Now(), c.value, d)
    {
      hide Later, Valid, Follows, Compressed, Shortened, Same, KeepsMap, MergedCells, OneStep, Equates;
      hide Mapped, Adjust, Resolve, MergedFrom;
      ghost var s := Now();
      match c {
        case None =>
          var d1 := ResolveCell(d);
          LaterBasics(s, Now(), {});
          r := Cell(d1.node, Adjust(nodes[d1.node], d1.off));
          PointedSame(s, Now(), d, d1);
        case Some(v) =>
          Unify(v, d);
          r := v;
      }
    }

    /** Make two cells of representatives the same: the smaller offset goes into the larger. */
    method UnifyReps(c: Cell, d: Cell)
      requires Valid(nodes) && IsRep(nodes, c.node) && IsRep(nodes, d.node)
      modifies `nodes, `candidate, `lost
      ensures Later(old(Now()), Now(), {})
      ensures Valid(nodes) && Same(nodes, c, d)
      ensures old(Equates(candidate, c, d)) ==> KeepsMap(old(Now()), Now())
      ensures MergedCells(old(Now()), Now(), c, d)
      decreases Potential(nodes), 5, 0
    {
      hide Later, Mapped, Valid, Same, Follows, Equates, Aligned, KeepsMap, Merged, Lawful;
      ghost var s := Now();
      if Equates(candidate, c, d) {
        EquatesNodes(candidate, c, d);
      }
      if c.off < d.off {
        UnifyAt(d.node, c.node, d.off - c.off);
        AlignedCells(s, Now(), d, c, d.off - c.off);
      } else if d.off < c.off {
        UnifyAt(c.node, d.node, c.off - d.off);
        AlignedCells(s, Now(), c, d, c.off - d.off);
      } else {
        UnifyAt(c.node, d.node, 0);
        AlignedCells(s, Now(), c, d, 0);
      }
    }

    /** Make object `b` begin at offset `o` of object `a`. */
    method UnifyAt(a: nat, b: nat, o: nat)
      requires Valid(nodes) && IsRep(nodes, a) && IsRep(nodes, b)
      modifies `nodes, `candidate, `lost
      ensures Later(old(Now()), Now(), {})
      ensures Valid(nodes) && Aligned(nodes, a, b, o)
      ensures old(Equates(candidate, Cell(b, 0), Cell(a, o))) ==> KeepsMap(old(Now()), Now())
      ensures Merged(old(Now()), Now(), a, b, o)
      // `b` is emptied into `a`, but into an array with the smaller stride it is `a` that is emptied
      ensures GivesWay(old(Now()), Now(), a, b, o)
      // by kinds, sizes and the offset alone: what collapses, what goes into what, and when nothing else happens
      ensures Lawful(old(Now()), Now(), a, b, o)
      decreases Potential(nodes), 4, if Swaps(nodes[a], nodes[b]) then 1 else 0
    {
      hide Later, Valid, Aligned, Equates, KeepsMap, Mapped, MustCollapse, SoundNode, Decide, Adjust, Absorbs;
      hide Swaps, Weight;
      hide Follows, Merged, Calm, Holds, AbsorbedOnly, Absorbed, Collapsed, CollapsedOnly, Lawful, HoldsAll;
      ghost var s := Now();
      var plan := Decide(nodes[a], nodes[b], a == b, o);
      SoundRep(nodes, a);
      SoundRep(nodes, b);
      Decided(nodes[a], nodes[b], a == b, o);
      CollapseForced(s, a, b, o);
      LaterRefl(s);
      LaterBasics(s, s, {});
      match plan {
        case CollapseFirst =>
          CollapseAndUnify(a, b, o);
          MergedIs(s, Now(), a, b, o);
          if !Mapped(s) {
            UnmappedKeeps(s, Now());
          }
        case Exchange =>
          UnifyAt(b, a, 0);
          LaterBasics(s, Now(), {});
          AlignedExchanged(s, Now(), a, b, o);
          MergedExchanged(s, Now(), a, b, o);
          GivesWayExchanged(s, Now(), a, b, o);
          if !Mapped(s) {
            UnmappedKeeps(s, Now());
          }
        case CollapseOnly =>
          CollapseOffsets(a);
          LaterBasics(s, Now(), {});
          AlignedCollapsed(nodes, a, a, o);
          CollapsedAlone(s, Now(), a);
          MergedIs(s, Now(), a, b, o);
          if !Mapped(s) {
            UnmappedKeeps(s, Now());
          }
        case Nothing =>
          KeepsMapRefl(s);
          AlignedSelf(nodes, a, o);
          MergedIs(s, Now(), a, b, o);
        case Absorb =>
          RetireLowers(nodes, b);
          PointTo(b, a, o);
          LaterBasics(s, Now(), {});
          AbsorbedIs(s, Now(), a, b, o);
          MergedIs(s, Now(), a, b, o);
          AlignedPointed(s, Now(), a, b, o);
      }
      ValidAcyclic(nodes);
      MergedLawful(s, Now(), a, b, o);
    }

    /** Collapse `a`, then merge what `a` and `b` have become. */
    method CollapseAndUnify(a: nat, b: nat, o: nat)
      requires Valid(nodes) && IsRep(nodes, a) && IsRep(nodes, b) && !nodes[a].isCollapsed
      modifies `nodes, `candidate, `lost
      ensures Later(old(Now()), Now(), {})
      ensures Valid(nodes) && Aligned(nodes, a, b, o) && a < |nodes| && nodes[Resolve(nodes, a).node].isCollapsed
      ensures old(MustCollapse(candidate, a) && Equates(candidate, Cell(b, 0), Cell(a, o))) ==>
                KeepsMap(old(Now()), Now())
      ensures Collapsed(old(Now()), Now(), a, b)
      decreases Potential(nodes), 3, 0
    {
      hide Later, Valid, Follows, Compressed, Shortened, Mapped, MustCollapse, Equates, Aligned, Collapsed;
      hide CollapsedOnly, Merged;
      ghost var s := Now();
      CollapseOffsets(a);
      ghost var t := Now();
      LaterBasics(s, t, {});
      var ra := Find(a);
      ghost var u := Now();
      LaterBasics(t, u, {});
      var rb := Find(b);
      ghost var v := Now();
      CollapsedReady(s, t, u, v, a, b, o, ra, rb);
      CollapsedFound(s, t, u, v, a, b);
      UnifyAt(ra.node, rb.node, o);
      LaterBasics(v, Now(), {});
      CollapsedDone(s, v, Now(), a, b, o, ra.node, rb.node);
      CollapsedMerged(s, t, Now(), a, b, o, ra.node, rb.node);
    }

    // -------------------------------------------------------------- accesses

    /** Stretch node `n` to hold access `x`; an array that is too short collapses. */
    method GrowSize(n: nat, x: Access)
      requires Valid(nodes) && n < |nodes| && (IsRep(nodes, n) || Cleared(nodes[n]))
      modifies `nodes, `candidate, `lost
      ensures Later(old(Now()), Now(), {}) && KeepsMap(old(Now()), Now())
      ensures Valid(nodes) && n < |nodes| && (IsRep(nodes, n) || Cleared(nodes[n]))
      ensures old(IsRep(nodes, n) && nodes[n].isCollapsed) ==> Now() == old(Now())
      ensures old(IsRep(nodes, n) && !nodes[n].isCollapsed && Fitting(nodes[n], x)) ==>
                Now() == old(Now().(nodes := nodes[n := Stretched(nodes[n], x)]))
      ensures old(IsRep(nodes, n) && !nodes[n].isCollapsed && !Fitting(nodes[n], x)) ==>
                Overflowed(old(Now()), Now(), n)
      ensures old(nodes[n].fwd.Some?) ==> Alike(old(nodes), nodes)
      decreases Potential(nodes), 12, 0
    {
      hide Later, Mapped, Valid, Follows, Alike;
      ghost var s := Now();
      if x.ty.Void? || nodes[n].isCollapsed {
        LaterRefl(s);
        LaterBasics(s, s, {});
        AlikeRefl(nodes);
        assert s.nodes[n := s.nodes[n]] == s.nodes;
        return;
      }
      var r := Find(n);
      ghost var t := Now();
      LaterBasics(s, t, {});
      if nodes[n].fwd.Some? {
        FoundRetired(s, t, n);
        CompressedAlike(s.nodes, nodes);
      }
      var v := SizeOf(x.ty) + Adjust(nodes[r.node], x.off);
      if v > nodes[n].size {
        if nodes[n].isArray {
          CollapseOffsets(n);
          LaterBasics(t, Now(), {});
          ArrayMustCollapse(s, t, n);
        } else {
          nodes := nodes[n := nodes[n].(size := v)];
          Widened(t, Now(), n, v);
          LaterTrans(s, t, Now(), {});
          if t.nodes[n].fwd.Some? {
            ScribbledAlike(t.nodes, n, nodes[n]);
            AlikeTrans(s.nodes, t.nodes, nodes);
          }
        }
      } else {
        assert s.nodes[n := s.nodes[n]] == s.nodes;
      }
    }

    /** Record an access of any type on node `n`, part by part. */
    method AddAccessedType(n: nat, x: Access)
      requires Valid(nodes) && n < |nodes| && (IsRep(nodes, n) || Cleared(nodes[n]))
      requires WellLaid(x.ty)
      modifies `nodes, `candidate, `lost
      ensures Later(old(Now()), Now(), {}) && KeepsMap(old(Now()), Now())
      ensures Valid(nodes) && n < |nodes| && (IsRep(nodes, n) || Cleared(nodes[n]))
      ensures old(IsRep(nodes, n) && nodes[n].isCollapsed) ==> Now() == old(Now())
      ensures old(IsRep(nodes, n) && !nodes[n].isCollapsed && Fitting(nodes[n], x)) ==>
                Now() == old(Now().(nodes := nodes[n := Recorded(nodes[n], x)]))
      ensures old(IsRep(nodes, n) && !nodes[n].isCollapsed && !Fitting(nodes[n], x)) ==>
                Overflowed(old(Now()), Now(), n)
      ensures old(nodes[n].fwd.Some?) ==> Alike(old(nodes), nodes)
      decreases Potential(nodes), 13, 0
    {
      hide Later, Mapped, KeepsMap, Valid, Follows, Compressed, Shortened, Filling, Overflowed, Expanding;
      hide Leaves, WellLaid, Fitting, Recorded, Stretched, Alike, Acyclic, Adjust;
      ghost var s := Now();
      LaterRefl(s);
      KeepsMapRefl(s);
      var work: Stack := [x];
      ghost var started := false;
      while work != []
        invariant Valid(nodes) && n < |nodes| && Later(s, Now(), {}) && KeepsMap(s, Now())
        invariant forall a | a in work :: WellLaid(a.ty)
        invariant !started ==> work == [x] && Now() == s
        invariant started ==> Expanding(s, Now(), n, x, work)
        decreases StackMass(work)
      {
        var k := |work| - 1;
        var a := work[k];
        ghost var t := Now();
        ExpandShrinks(work);
        LaterBasics(s, t, {});
        if started {
          ExpandingInUse(s, t, n, x, work);
        }
        if nodes[n].isCollapsed { return; }
        GrowSize(n, a);
        ghost var u := Now();
        LaterTrans(s, t, u, {});
        KeepsMapTrans(s, t, u);
        if nodes[n].isCollapsed {
          OverflowsAtOnce(s, t, u, n, x, work, started);
          return;
        }
        LaterBasics(t, u, {});
        Grown(s, t, u, n, x, work, started);
        if Primitive(a.ty) {
          var r := Find(n);
          ghost var v := Now();
          LaterBasics(u, v, {});
          nodes := nodes[n := nodes[n].(types := nodes[n].types + {Access(Adjust(nodes[r.node], a.off), a.ty)})];
          AccessRecorded(s, u, v, Now(), n, x, work, r.node);
          work := work[..k];
        } else {
          PartsPushed(s, u, n, x, work);
          work := work[..k] + Pushed(a);
        }
        started := true;
      }
      Expanded(s, Now(), n, x);
    }

    /** Record on `b`, from offset `d` on, every access recorded on `a`. */
    method JoinAccessedTypes(b: nat, d: nat, a: nat)
      requires Valid(nodes) && IsRep(nodes, b) && !nodes[b].isCollapsed && a < |nodes| && nodes[a].fwd.Some?
      requires forall x | x in nodes[a].types :: Primitive(x.ty)
      requires !nodes[a].isCollapsed
      modifies `nodes, `candidate, `lost
      ensures Later(old(Now()), Now(), {}) && KeepsMap(old(Now()), Now())
      ensures Valid(nodes) && b < |nodes|
      ensures forall x | x in old(nodes[a].types) :: HasAccess(nodes, b, Access(d + x.off, x.ty))
      ensures old(HoldsAll(nodes[b], d, nodes[a].types)) ==>
                IsRep(nodes, b) && !nodes[b].isCollapsed && JoinedOnly(old(Now()), Now(), b, d, old(nodes[a].types))
      ensures !old(HoldsAll(nodes[b], d, nodes[a].types)) ==> Overflowed(old(Now()), Now(), b)
      decreases Potential(nodes), 14, 0
    {
      hide Later, Mapped, Valid, Follows, Joining, HoldsAll, HasAccess, JoinedOnly, Overflowed, Recorded;
      hide Fitting, SoundNode, Alike, Compressed;
      ghost var s := Now();
      LaterRefl(s);
      SoundRep(nodes, b);
      JoiningStarts(s, b, d, nodes[a].types);
      var all := nodes[a].types;
      var rest := all;
      assert all - rest == {};
      while rest != {}
        invariant rest <= all
        invariant Valid(nodes) && Later(s, Now(), {}) && KeepsMap(s, Now())
        invariant Joining(s, Now(), b, d, all, all - rest)
      {
        var x :| x in rest;
        ghost var t := Now();
        JoiningBasics(s, t, b, d, all, all - rest);
        var r := Find(b);
        ghost var u := Now();
        CompressedAlike(t.nodes, u.nodes);
        LaterTrans(s, t, u, {});
        LaterBasics(s, u, {});
        AddAccessedType(b, Access(Adjust(nodes[r.node], d + x.off), x.ty));
        JoiningStep(s, t, u, Now(), b, d, all, all - rest, x, r);
        LaterTrans(s, u, Now(), {});
        assert all - rest + {x} == all - (rest - {x});
        rest := rest - {x};
      }
      assert all - rest == all;
      JoiningEnds(s, Now(), b, d, all);
    }

    // -------------------------------------------------------------- cleaning up

    ghost function Roots(): set<Cell>
      reads this
    {
      values.Values + formals.Values + retCells.Values
    }

    /** Point every link of representative `n` straight at a representative. */
    method StraightenLinks(n: nat)
      requires Valid(nodes) && IsRep(nodes, n)
      modifies `nodes
      ensures Valid(nodes) && Bent(old(nodes), nodes, n, Straightened(old(nodes), old(nodes[n].links)))
    {
      hide Valid, Straightened, Straight, Compressed, Shortened, Bent, Later, KeepsMap;
      ghost var s := nodes;
      ClosedNode(nodes, n);
      var links := nodes[n].links;
      var rest := links.Keys;
      BentStarts(nodes, n);
      while rest != {}
        invariant rest <= links.Keys && Valid(nodes) && n < |nodes| && nodes[n].links.Keys == links.Keys
        invariant Bent(s, nodes, n, nodes[n].links)
        invariant forall f | f in links :: nodes[n].links[f] == if f in rest then links[f] else Straight(s, links[f])
      {
        var f :| f in rest;
        ghost var t := nodes;
        assert nodes[n].links[f] == links[f];
        BentBasics(s, t, n, links[f]);
        CellStraight(t, links[f]);
        var link := ResolveCell(nodes[n].links[f]);
        ghost var u := nodes;
        CompressedNode(t, u, n);
        nodes := nodes[n := nodes[n].(links := nodes[n].links[f := link])];
        BentStep(s, t, u, nodes, n, f, link);
        BentIs(s, nodes, n, t[n].links[f := link]);
        rest := rest - {f};
      }
      StraightenedIs(s, links, nodes[n].links);
    }

    /** Point every cell of `cells` straight at a representative. */
    method StraightenCells(cells: map<nat, Cell>) returns (r: map<nat, Cell>)
      requires Valid(nodes) && forall v | v in cells :: cells[v].node < |nodes|
      modifies `nodes
      ensures Valid(nodes) && Compressed(old(nodes), nodes) && Shortened(old(nodes), nodes)
      ensures r == Straightened(old(nodes), cells)
    {
      hide Valid, Straightened, Straight, Compressed, Shortened, Later, KeepsMap;
      ghost var s := nodes;
      var rest := cells.Keys;
      r := cells;
      ValidAcyclic(nodes);
      CompressedSelf(nodes);
      while rest != {}
        invariant rest <= cells.Keys && Valid(nodes) && r.Keys == cells.Keys
        invariant Compressed(s, nodes) && Shortened(s, nodes)
        invariant forall v | v in cells :: r[v] == if v in rest then cells[v] else Straight(s, cells[v])
      {
        var v :| v in rest;
        ghost var t := nodes;
        CompressedBasics(s, t, cells[v]);
        CellStraight(t, cells[v]);
        var c := ResolveCell(r[v]);
        CompressedOn(s, t, nodes);
        r := r[v := c];
        rest := rest - {v};
      }
      StraightenedIs(s, cells, r);
    }

    /** Resolve every path, then delete the forwarding nodes. */
    method Compress()
      requires Valid(nodes) && forall c | c in Roots() :: c.node < |nodes|
      modifies `nodes, `values, `formals, `retCells, `dropped
      ensures Valid(nodes) && Flattened(old(nodes), nodes, old(dropped), |old(nodes)|)
      ensures Later(old(Now()), Now(), {})
      ensures values == Straightened(old(nodes), old(values))
      ensures formals == Straightened(old(nodes), old(formals))
      ensures retCells == Straightened(old(nodes), old(retCells))
      ensures dropped == old(dropped) + Forwarders(old(nodes))
      ensures old(Housed(nodes, dropped, Roots())) ==> Direct(nodes, dropped, Roots())
    {
      hide Valid, Straightened, Compressed, Shortened, Flattened, Bent, Later, KeepsMap, Housed, Direct;
      ghost var s, s0 := nodes, Now();
      ghost var roots := Roots();
      FlatteningStarts(nodes, dropped);
      var i := 0;
      while i < |nodes|
        invariant i <= |nodes| == |s| && Valid(nodes) && Flattened(s, nodes, dropped, i)
        modifies `nodes
      {
        if i !in dropped {
          ghost var t := nodes;
          var r := Find(i);
          ghost var u := nodes;
          FlatteningFinds(s, t, u, dropped, i);
          CompressedLength(t, u);
          if nodes[i].fwd.None? {
            StraightenLinks(i);
            ValidClosed(u);
            FlatteningBends(s, u, nodes, dropped, i);
          }
        } else {
          FlatteningSkips(s, nodes, dropped, i);
        }
        FlatteningLength(s, nodes, dropped, i + 1);
        i := i + 1;
      }
      RootsInBounds(s, roots, values, formals, retCells);
      ghost var f0 := nodes;
      values := StraightenCells(values);
      ghost var f1 := nodes;
      StillFlat(s, f0, f1, dropped, old(values));
      CompressedLength(f0, f1);
      formals := StraightenCells(formals);
      ghost var f2 := nodes;
      StillFlat(s, f1, f2, dropped, old(formals));
      CompressedLength(f1, f2);
      retCells := StraightenCells(retCells);
      StillFlat(s, f2, nodes, dropped, old(retCells));
      dropped := dropped + set n: nat | n < |nodes| && !IsRep(nodes, n);
      SameForwarders(s, nodes, old(dropped));
      FlattenedLater(s0, Now(), old(dropped));
      if old(Housed(nodes, dropped, Roots())) {
        FlattenedDirect(s, nodes, old(dropped), roots);
      }
      StraightRoots(s, roots, old(values), old(formals), old(retCells));
    }

    /** Delete every node that no root reaches. */
    method RemoveDead()
      requires Direct(nodes, dropped, Roots())
      modifies `dropped
      ensures Reached(nodes, NodesOf(old(Roots())), Used(nodes, dropped))
      ensures old(dropped) <= dropped && forall n | n in dropped && n !in old(dropped) :: n < |nodes|
      ensures Direct(nodes, dropped, Roots())
    {
      hide LinksWithin, Reached, FoundFrom;
      var reachable: set<nat> := NodesOf(values.Values) + NodesOf(formals.Values) + NodesOf(retCells.Values);
      ghost var cells := Roots();
      ghost var roots := NodesOf(cells);
      ghost var live := Used(nodes, dropped);
      assert reachable == roots;
      RootsLive(nodes, dropped, cells);
      hide NodesOf, Direct;
      FoundNone(nodes, reachable);
      var work := reachable;
      while work != {}
        invariant roots <= reachable <= live && work <= reachable
        invariant FoundFrom(nodes, reachable - work, reachable)
        invariant forall other: set<nat> :: roots <= other && LinksWithin(nodes, other) ==> reachable <= other
        decreases live - reachable, work
        modifies {}
      {
        var n :| n in work;
        var found := NodesOf(nodes[n].links.Values);
        NewlyFound(nodes, roots, reachable, work, n);
        FoundLive(nodes, dropped, cells, n);
        FoundMore(nodes, reachable, work, n);
        work := work - {n} + (found - reachable);
        reachable := reachable + found;
      }
      assert reachable - work == reachable;
      AllFound(nodes, dropped, cells, reachable);
      UsedAfter(nodes, dropped, reachable);
      dropped := dropped + set n: nat | n < |nodes| && Named(n) && n !in reachable;
    }

    /** Remove the links of `n` to nodes that satisfy `p`, and the accesses at their offsets. */
    method RemoveLinks(n: nat, p: nat -> bool)
      requires n < |nodes|
      modifies `nodes
      ensures nodes == old(nodes[n := Pruned(nodes[n], p)])
      // only two links at one offset can leave a link without its accesses
      ensures old(SoundNode(nodes[n])) ==> (SoundNode(nodes[n]) <==> old(nodes[n].isCollapsed || Evenly(nodes[n], p)))
    {
      hide SoundNode, Evenly;
      ghost var was := nodes[n];
      var removedOffsets: set<nat> := {};
      var fields := nodes[n].links.Keys;
      while fields != {}
        invariant fields <= was.links.Keys && n < |nodes| && nodes == old(nodes)[n := was.(links := nodes[n].links)]
        invariant forall f :: f in nodes[n].links <==> f in was.links && (f in fields || !p(was.links[f].node))
        invariant forall f | f in nodes[n].links :: nodes[n].links[f] == was.links[f]
        invariant forall k :: k in removedOffsets <==>
                  exists f :: f in was.links && f !in fields && p(was.links[f].node) && f.off == k
      {
        var f :| f in fields;
        if p(nodes[n].links[f].node) {
          removedOffsets := removedOffsets + {f.off};
          nodes := nodes[n := nodes[n].(links := nodes[n].links - {f})];
        }
        fields := fields - {f};
      }
      ghost var links := nodes[n].links;
      var types := nodes[n].types;
      while types != {}
        invariant types <= was.types && n < |nodes|
        invariant nodes == old(nodes)[n := was.(links := links, types := nodes[n].types)]
        invariant forall a :: a in nodes[n].types <==> a in was.types && (a in types || a.off !in removedOffsets)
      {
        var a :| a in types;
        if a.off in removedOffsets {
          nodes := nodes[n := nodes[n].(types := nodes[n].types - {a})];
        }
        types := types - {a};
      }
      PrunedIs(was, nodes[n], p, removedOffsets);
      if SoundNode(was) {
        PrunedSound(was, p);
      }
    }

    /** Remove the cells that lead to nodes satisfying `p`. */
    method RemoveCells(cells: map<nat, Cell>, p: nat -> bool) returns (r: map<nat, Cell>)
      ensures r == Surviving(cells, p)
    {
      var rest := cells.Keys;
      r := cells;
      while rest != {}
        invariant rest <= cells.Keys
        invariant forall v :: v in r <==> v in cells && (v in rest || !p(cells[v].node))
        invariant forall v | v in r :: r[v] == cells[v]
      {
        var v :| v in rest;
        if p(cells[v].node) {
          r := r - {v};
        }
        rest := rest - {v};
      }
    }

    /** Remove the roots that lead to nodes satisfying `p`. */
    method RemoveRoots(p: nat -> bool)
      modifies `values, `formals, `retCells
      ensures values == Surviving(old(values), p)
      ensures formals == Surviving(old(formals), p)
      ensures retCells == Surviving(old(retCells), p)
      ensures forall c :: c in Roots() <==> c in old(Roots()) && !p(c.node)
    {
      values := RemoveCells(values, p);
      formals := RemoveCells(formals, p);
      retCells := RemoveCells(retCells, p);
      SurvivingRoots(old(values), old(formals), old(retCells), p);
    }

    /** Remove the links to nodes satisfying `p` from every node in use. */
    method RemoveAllLinks(p: nat -> bool)
      requires Direct(nodes, dropped, Roots())
      modifies `nodes
      ensures |nodes| == |old(nodes)|
      ensures forall n: nat :: n < |nodes| ==>
                nodes[n] == if n !in dropped then Pruned(old(nodes)[n], p) else old(nodes)[n]
    {
      hide Pruned;
      ghost var s := nodes;
      assert forall n: nat :: n < |s| && n !in dropped ==> s[n].fwd.None?;
      hide Direct;
      var i := 0;
      while i < |nodes|
        invariant i <= |nodes| == |s|
        invariant forall n: nat :: n < |s| ==> nodes[n] == if n < i && n !in dropped then Pruned(s[n], p) else s[n]
      {
        if i !in dropped && nodes[i].fwd.None? {
          RemoveLinks(i, p);
        }
        i := i + 1;
      }
    }

    /** Remove every node that satisfies `p`, with the roots and links that lead to one. */
    method RemoveNodes(p: nat -> bool)
      requires Direct(nodes, dropped, Roots())
      modifies `nodes, `values, `formals, `retCells, `dropped
      ensures values == Surviving(old(values), p)
      ensures formals == Surviving(old(formals), p)
      ensures retCells == Surviving(old(retCells), p)
      ensures Direct(nodes, dropped, Roots()) && old(dropped) <= dropped && |nodes| == |old(nodes)|
      ensures Reached(nodes, NodesOf(Roots()), Used(nodes, dropped))
      ensures forall n: nat :: n < |nodes| && n !in dropped ==> !p(n) && nodes[n] == Pruned(old(nodes)[n], p)
      // what is left was reached by links that keep clear of `p`
      ensures var s, roots := old(nodes), NodesOf(old(Roots()));
        forall n: nat :: n in Used(nodes, dropped) <==> exists path :: Spared(s, roots, path, p, n)
      // the graph stays well formed unless an offset loses one link and keeps another
      ensures old(Valid(nodes)) ==>
                (Valid(nodes) <==> old(forall n: nat :: n < |nodes| && n !in dropped ==>
                                       nodes[n].isCollapsed || Evenly(nodes[n], p)))
    {
      hide Reached, Pruned, Surviving, Direct, Used, NodesOf, Valid, Evenly, Spared;
      ghost var s, used := nodes, dropped;
      RemoveRoots(p);
      FewerRoots(nodes, dropped, old(Roots()), Roots());
      RemoveAllLinks(p);
      PrunedDirect(s, nodes, dropped, old(Roots()), Roots(), p);
      if Valid(s) {
        DirectUsed(s, dropped, old(Roots()));
        PrunedValid(s, nodes, dropped, p);
      }
      dropped := dropped + set n: nat | n < |nodes| && Named(n) && p(n);
      RemoveDead();
      PrunedReached(s, nodes, used, old(Roots()), Roots(), Used(nodes, dropped), p);
    }
  }
}
