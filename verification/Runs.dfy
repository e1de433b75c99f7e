/** What holds over whole runs of the engine, however many operations they make. */
module Runs {
  import opened PointsTo
  import opened Forwarding
  import opened Coarsening
  import opened Candidates
  import opened Steps
  import opened Engine

  /** Each state comes after the one before it. */
  ghost predicate IsRun(run: seq<State>) {
    && (forall i | 0 <= i < |run| :: Valid(run[i].nodes))
    && (forall i, j | 0 <= i < j < |run| && j == i + 1 :: Later(run[i], run[j], {}))
  }

  lemma {:induction false} RunLater(run: seq<State>, i: nat, j: nat)
    requires IsRun(run) && i <= j < |run|
    ensures Later(run[i], run[j], {})
    decreases j - i
  {
    hide Later, Valid;
    if i == j {
      LaterRefl(run[i]);
    } else {
      var k := j - 1;
      RunLater(run, i, k);
      assert Later(run[k], run[j], {});
      LaterTrans(run[i], run[k], run[j], {});
    }
  }

  /** Over any run: equal cells stay equal, edges stay, marks stay, recorded accesses
      stay until their node collapses, and sites stay unless recorded as lost. */
  lemma RunKeeps(run: seq<State>, i: nat, j: nat)
    requires IsRun(run) && i <= j < |run|
    ensures Acyclic(run[i].nodes) && Acyclic(run[j].nodes) && |run[i].nodes| <= |run[j].nodes|
    ensures forall c, d :: Same(run[i].nodes, c, d) ==> Same(run[j].nodes, c, d)
    ensures forall n: nat, f, c :: n < |run[i].nodes| && HasEdge(run[i].nodes, n, f, c) ==>
              HasEdge(run[j].nodes, n, f, c)
    ensures forall n: nat, a :: n < |run[i].nodes| && HasAccess(run[i].nodes, n, a) ==> HasAccess(run[j].nodes, n, a)
    ensures forall n: nat :: n < |run[i].nodes| ==>
              run[i].nodes[Resolve(run[i].nodes, n).node].marks <= run[j].nodes[Resolve(run[j].nodes, n).node].marks
  {
    hide Later, Valid, Same, HasEdge, HasAccess, Coarsens, Follows, Resolve, Acyclic;
    var s, t := run[i], run[j];
    RunLater(run, i, j);
    LaterBasics(s, t, {});
    LaterValid(s, t);
    forall c, d | Same(s.nodes, c, d) ensures Same(t.nodes, c, d) {
      SameLater(s.nodes, t.nodes, c, d);
    }
    forall n: nat, f, c | n < |s.nodes| && HasEdge(s.nodes, n, f, c) ensures HasEdge(t.nodes, n, f, c) {
      EdgeLater(s.nodes, t.nodes, n, f, c);
    }
    forall n: nat, a | n < |s.nodes| && HasAccess(s.nodes, n, a) ensures HasAccess(t.nodes, n, a) {
      AccessLater(s.nodes, t.nodes, n, a);
    }
    forall n: nat | n < |s.nodes|
      ensures s.nodes[Resolve(s.nodes, n).node].marks <= t.nodes[Resolve(t.nodes, n).node].marks
    {
      MarksLater(s.nodes, t.nodes, n);
    }
  }

  /** The sites of an object are on its representative ever after, or were lost on the way. */
  lemma RunKeepsSites(run: seq<State>, i: nat, j: nat, n: nat)
    requires IsRun(run) && i <= j < |run| && IsRep(run[i].nodes, n)
    ensures Acyclic(run[j].nodes) && n < |run[j].nodes|
    ensures run[i].nodes[n].sites <= run[j].nodes[Resolve(run[j].nodes, n).node].sites + run[j].lost
    ensures ArrayFree(run[i].nodes) ==> run[j].lost == run[i].lost
  {
    RunLater(run, i, j);
    hide Coarsens, Valid;
    LaterBasics(run[i], run[j], {});
  }

  // ---------------------------------------------------------------- the least outcome

  /** Whatever a graph equates, every candidate it sits in equates. */
  lemma EquatesNoMore(s: State, c: Cell, d: Cell)
    requires Mapped(s) && Acyclic(s.nodes) && Same(s.nodes, c, d)
    ensures Equates(s.candidate, c, d)
  {
    assert Respects(s.nodes, s.candidate);
    ImageOfRep(s.nodes, s.candidate, c);
    ImageOfRep(s.nodes, s.candidate, d);
    var r, q := Resolve(s.nodes, c.node), Resolve(s.nodes, d.node);
    assert NodeRespects(s.nodes[r.node], s.candidate, r.node);
    hide Respects, Leads;
  }

  /** Whatever edge such a graph has, every candidate it sits in has. */
  lemma EdgesNoMore(s: State, n: nat, f: Field, c: Cell)
    requires Mapped(s) && Valid(s.nodes) && n < |s.nodes| && HasEdge(s.nodes, n, f, c)
    ensures Leads(s.candidate, n, f, c)
  {
    hide Valid, Acyclic, Respects, NodeRespects, Leads, Same, Plain, Image, Equates;
    ValidAcyclic(s.nodes);
    var r := Resolve(s.nodes, n);
    var key := Field(Adjust(s.nodes[r.node], r.off + f.off), f.ty);
    var links := s.nodes[r.node].links;
    var g := if key in links then key else Omnified(key);
    LinkLeads(s, r.node, g);
    EquatesNoMore(s, links[g], c);
    LeadsTo(s.candidate, r.node, g, links[g], c);
    if g != key {
      LeadsByOmni(s.candidate, r.node, key, c);
    }
    ImageOfRep(s.nodes, s.candidate, Cell(n, 0));
    LeadsBack(s, n, r, f, c);
  }

  lemma LinkLeads(s: State, r: nat, g: Field)
    requires Mapped(s) && r < |s.nodes| && g in s.nodes[r].links
    ensures Leads(s.candidate, r, g, s.nodes[r].links[g]) && Plain(s.candidate.target) && Respects(s.nodes, s.candidate)
  {
    assert NodeRespects(s.nodes[r], s.candidate, r);
  }

  lemma LeadsByOmni(m: Candidate, n: nat, f: Field, c: Cell)
    requires Plain(m.target) && Leads(m, n, Omnified(f), c)
    ensures Leads(m, n, f, c)
  {
    var at := Image(m, Cell(n, f.off));
    assert OmniAlone(m.target[at.node].links);
  }

  lemma LeadsBack(s: State, n: nat, r: Cell, f: Field, c: Cell)
    requires Mapped(s) && n < |s.nodes| && r.node < |s.nodes| && Equates(s.candidate, Cell(n, 0), r)
    requires Leads(s.candidate, r.node, Field(Adjust(s.nodes[r.node], r.off + f.off), f.ty), c)
    ensures Leads(s.candidate, n, f, c)
  {
    assert NodeRespects(s.nodes[r.node], s.candidate, r.node);
    assert Image(s.candidate, Cell(n, f.off)) ==
           Image(s.candidate, Cell(r.node, Adjust(s.nodes[r.node], r.off + f.off)));
    hide Respects;
  }

  /** Two cells to be made the same. */
  datatype Request = Request(one: Cell, other: Cell)

  ghost predicate Within(ns: seq<Node>, requests: seq<Request>) {
    forall r | r in requests :: r.one.node < |ns| && r.other.node < |ns|
  }

  /** The candidate meets every request. */
  ghost predicate MeetsAll(m: Candidate, requests: seq<Request>) {
    forall r | r in requests :: Equates(m, r.one, r.other)
  }

  /** For the first `n` nodes, `m` has every equality, edge, collapse, mark and site that `ns` has. */
  ghost predicate NoMoreThan(ns: seq<Node>, n: nat, m: Candidate)
    requires Acyclic(ns)
  {
    && (forall c: Cell, d: Cell | c.node < n && d.node < n && Same(ns, c, d) :: Equates(m, c, d))
    && (forall k: nat, f, c: Cell | k < n && k < |ns| && c.node < n && HasEdge(ns, k, f, c) :: Leads(m, k, f, c))
    && (forall k: nat | k < n && k < |ns| :: Hosts(m, k, ns[Resolve(ns, k).node]))
  }

  /** In the candidate, node `k` is on a node that is collapsed, marked and allocated wherever `nd` is. */
  ghost predicate Hosts(m: Candidate, k: nat, nd: Node) {
    && Placed(m, k)
    && var host := m.target[m.place[k].node];
       (nd.isCollapsed ==> host.isCollapsed) && nd.marks <= host.marks && nd.sites <= host.sites
  }

  /** Make all requested merges, one after the other.  Every request is met, and nothing more is merged or linked than
      in any candidate that the graph sat in and that meets the requests. */
  method UnifyAll(g: Graph, requests: seq<Request>)
    requires Valid(g.nodes) && Within(g.nodes, requests)
    modifies g`nodes, g`candidate, g`lost
    ensures Later(old(g.Now()), g.Now(), {}) && Valid(g.nodes) && Acyclic(g.nodes)
    ensures forall r | r in requests :: Same(g.nodes, r.one, r.other)
    ensures old(Mapped(g.Now()) && MeetsAll(g.candidate, requests)) ==>
              KeepsMap(old(g.Now()), g.Now()) && NoMoreThan(g.nodes, |old(g.nodes)|, old(g.candidate))
  {
    hide Later, Valid, Acyclic, Same, Equates, KeepsMap, Mapped, NoMoreThan;
    ghost var s := g.Now();
    LaterRefl(s);
    KeepsMapRefl(s);
    LaterBasics(s, s, {});
    var i := 0;
    while i < |requests|
      invariant i <= |requests| && Later(s, g.Now(), {}) && Valid(g.nodes) && Acyclic(g.nodes) && |s.nodes| <= |g.nodes|
      invariant forall r | r in requests[..i] :: Same(g.nodes, r.one, r.other)
      invariant Mapped(s) && MeetsAll(s.candidate, requests) ==> KeepsMap(s, g.Now())
    {
      ghost var t := g.Now();
      var r := requests[i];
      assert r in requests;
      g.Unify(r.one, r.other);
      ValidAcyclic(g.nodes);
      RequestMet(s, t, g.Now(), requests, i);
      i := i + 1;
    }
    assert requests[..i] == requests;
    if Mapped(s) && MeetsAll(s.candidate, requests) {
      MergesNoMore(s, g.Now());
    }
  }

  lemma RequestMet(s: State, t: State, u: State, requests: seq<Request>, i: nat)
    requires i < |requests| && Later(s, t, {}) && Later(t, u, {}) && Acyclic(t.nodes) && Acyclic(u.nodes)
    requires forall r | r in requests[..i] :: Same(t.nodes, r.one, r.other)
    requires Same(u.nodes, requests[i].one, requests[i].other)
    requires Equates(t.candidate, requests[i].one, requests[i].other) ==> KeepsMap(t, u)
    requires Mapped(s) && MeetsAll(s.candidate, requests) ==> KeepsMap(s, t)
    ensures Later(s, u, {}) && |s.nodes| <= |u.nodes|
    ensures forall r | r in requests[..i + 1] :: Same(u.nodes, r.one, r.other)
    ensures Mapped(s) && MeetsAll(s.candidate, requests) ==> KeepsMap(s, u)
  {
    hide Later, Same, Equates, Mapped;
    LaterTrans(s, t, u, {});
    LaterBasics(s, u, {});
    forall r | r in requests[..i + 1] ensures Same(u.nodes, r.one, r.other) {
      if r in requests[..i] {
        SameLater(t.nodes, u.nodes, r.one, r.other) by { LaterBasics(t, u, {}); }
      }
    }
    if Mapped(s) && MeetsAll(s.candidate, requests) {
      assert requests[i] in requests;
      EquatesOn(s.candidate, t.candidate, requests[i].one, requests[i].other);
      KeepsMapTrans(s, t, u);
    }
  }

  lemma EquatesOn(m: Candidate, m': Candidate, c: Cell, d: Cell)
    requires Extends(m, m') && Equates(m, c, d)
    ensures Equates(m', c, d)
  {
  }

  /** What a graph still inside its candidate equates and links among the nodes there were, the candidate
      equated and linked at the start. */
  lemma MergesNoMore(s: State, t: State)
    requires Mapped(s) && KeepsMap(s, t) && Valid(t.nodes) && Acyclic(t.nodes)
    ensures NoMoreThan(t.nodes, |s.nodes|, s.candidate)
  {
    hide Valid, Acyclic, Same, Mapped, HasEdge, Leads, Equates, Hosts;
    SameCount(s);
    forall c: Cell, d: Cell | c.node < |s.nodes| && d.node < |s.nodes| && Same(t.nodes, c, d)
      ensures Equates(s.candidate, c, d)
    {
      EquatesNoMore(t, c, d);
      EquatesBack(s.candidate, t.candidate, c, d);
    }
    forall k: nat, f, c: Cell | k < |s.nodes| && k < |t.nodes| && c.node < |s.nodes| && HasEdge(t.nodes, k, f, c)
      ensures Leads(s.candidate, k, f, c)
    {
      EdgesNoMore(t, k, f, c);
      LeadsBefore(s.candidate, t.candidate, k, f, c);
    }
    forall k: nat | k < |s.nodes| && k < |t.nodes| ensures Hosts(s.candidate, k, t.nodes[Resolve(t.nodes, k).node]) {
      HostsNoLess(t, k);
      HostsBefore(s.candidate, t.candidate, k, t.nodes[Resolve(t.nodes, k).node]);
    }
  }

  lemma HostsNoLess(s: State, n: nat)
    requires Mapped(s) && Acyclic(s.nodes) && n < |s.nodes|
    ensures Hosts(s.candidate, n, s.nodes[Resolve(s.nodes, n).node])
  {
    hide Acyclic, Leads;
    ImageOfRep(s.nodes, s.candidate, Cell(n, 0));
    RespectsAt(s.nodes, s.candidate, n);
    RespectsAt(s.nodes, s.candidate, Resolve(s.nodes, n).node);
  }

  lemma HostsBefore(m: Candidate, m': Candidate, k: nat, nd: Node)
    requires Extends(m, m') && Hosts(m', k, nd) && k < |m.place|
    ensures Hosts(m, k, nd)
  {
  }

  lemma SameCount(s: State)
    requires Mapped(s)
    ensures |s.candidate.place| == |s.nodes|
  {
  }

  lemma EquatesBack(m: Candidate, m': Candidate, c: Cell, d: Cell)
    requires Extends(m, m') && Equates(m', c, d) && c.node < |m.place| && d.node < |m.place|
    ensures Equates(m, c, d)
  {
  }

  lemma LeadsBefore(m: Candidate, m': Candidate, n: nat, f: Field, c: Cell)
    requires Extends(m, m') && Leads(m', n, f, c) && n < |m.place| && c.node < |m.place|
    ensures Leads(m, n, f, c)
  {
  }
}
