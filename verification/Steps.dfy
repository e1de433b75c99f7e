/** What one engine step, or any run of steps, guarantees about the whole state. */
module Steps {
  import opened PointsTo
  import opened Forwarding
  import opened Coarsening
  import opened Changes
  import opened Candidates

  /** The node table together with the two ghost companions of a run: an
      arbitrary candidate outcome, and the allocation sites dropped so far. */
  datatype State = State(nodes: seq<Node>, candidate: Candidate, lost: set<Site>)

  ghost predicate SitesKept(s: seq<Node>, t: seq<Node>, lost: set<Site>, skip: set<nat>)
    requires Acyclic(t) && |s| <= |t|
  {
    forall r: nat | IsRep(s, r) && r !in skip :: s[r].sites <= t[Resolve(t, r).node].sites + lost
  }

  /** `t` comes after `s`, with the contents of the nodes in `skip` in transit. */
  ghost predicate Later(s: State, t: State, skip: set<nat>) {
    && Valid(s.nodes) && Valid(t.nodes)
    && Coarsens(s.nodes, t.nodes, skip)
    && Potential(t.nodes) <= Potential(s.nodes)
    && s.lost <= t.lost
    && SitesKept(s.nodes, t.nodes, t.lost, skip)
    && (ArrayFree(s.nodes) ==> ArrayFree(t.nodes) && t.lost == s.lost)
  }

  /** The graph sits inside its candidate. */
  ghost predicate Mapped(s: State) {
    Respects(s.nodes, s.candidate)
  }

  ghost predicate KeepsMap(s: State, t: State) {
    Mapped(s) ==> Mapped(t) && Extends(s.candidate, t.candidate)
  }

  lemma LaterRefl(s: State)
    requires Valid(s.nodes)
    ensures Later(s, s, {})
  {
    CoarsensRefl(s.nodes);
  }

  lemma KeepsMapRefl(s: State)
    ensures KeepsMap(s, s)
  {
  }

  lemma LaterTrans(s: State, t: State, u: State, skip: set<nat>)
    requires Later(s, t, skip) && Later(t, u, {})
    ensures Later(s, u, skip)
  {
    CoarsensTrans(s.nodes, t.nodes, u.nodes, skip);
    SitesTrans(s.nodes, t.nodes, u.nodes, t.lost, u.lost, skip);
    hide Coarsens, SitesKept, Valid, ArrayFree;
  }

  lemma SitesTrans(s: seq<Node>, t: seq<Node>, u: seq<Node>, lost: set<Site>, lost': set<Site>, skip: set<nat>)
    requires Coarsens(s, t, skip) && Coarsens(t, u, {}) && lost <= lost'
    requires SitesKept(s, t, lost, skip) && SitesKept(t, u, lost', {})
    requires Coarsens(s, u, skip)
    ensures SitesKept(s, u, lost', skip)
  {
    hide ContentKept, KindsKept, PendingKept;
    forall r: nat | IsRep(s, r) && r !in skip ensures s[r].sites <= u[Resolve(u, r).node].sites + lost' {
      var m := Resolve(t, r).node;
      assert t[m].sites <= u[Resolve(u, m).node].sites + lost';
      assert Resolve(u, r).node == Resolve(u, m).node;
    }
  }

  lemma KeepsMapTrans(s: State, t: State, u: State)
    requires KeepsMap(s, t) && KeepsMap(t, u)
    ensures KeepsMap(s, u)
  {
    hide Mapped;
  }

  /** Facts of a later state most proofs need. */
  lemma LaterBasics(s: State, t: State, skip: set<nat>)
    requires Later(s, t, skip)
    ensures Valid(t.nodes) && Acyclic(s.nodes) && Acyclic(t.nodes)
    ensures |s.nodes| <= |t.nodes| && Follows(s.nodes, t.nodes)
    ensures Potential(t.nodes) <= Potential(s.nodes)
  {
    hide Valid, SitesKept, ContentKept;
    assert Valid(s.nodes) && Valid(t.nodes);
  }

  lemma LaterValid(s: State, t: State)
    requires Later(s, t, {})
    ensures Valid(s.nodes) && Valid(t.nodes) && Coarsens(s.nodes, t.nodes, {})
  {
  }

  // ---------------------------------------------------------------- one change as a step

  lemma CompressedLater(s: State, t: State)
    requires Valid(s.nodes) && Compressed(s.nodes, t.nodes) && t.candidate == s.candidate && t.lost == s.lost
    ensures Later(s, t, {}) && KeepsMap(s, t)
  {
    CompressedCoarsens(s.nodes, t.nodes);
    if Respects(s.nodes, s.candidate) {
      RespectsCompressed(s.nodes, t.nodes, s.candidate);
    }
    CompressedFields(s.nodes, t.nodes);
    hide Coarsens, Respects, Valid, Compressed, ArrayFree;
  }

  lemma CompressedFields(s: seq<Node>, t: seq<Node>)
    requires Compressed(s, t)
    ensures SitesKept(s, t, {}, {})
    ensures ArrayFree(s) ==> ArrayFree(t)
  {
    assert forall n: nat | n < |s| :: t[n] == s[n].(fwd := t[n].fwd);
  }

  /** Rewriting representative `n` without giving up any of its contents. */
  lemma InPlaceLater(s: State, t: State, n: nat, nd: Node)
    requires Valid(s.nodes) && IsRep(s.nodes, n) && t == s.(nodes := s.nodes[n := nd])
    requires Fits(s.nodes, nd) && Absorbs(s.nodes[n], nd)
    requires Acyclic(t.nodes) ==> Carries(s.nodes[n], t.nodes, n)
    requires s.nodes[n].sites <= nd.sites && (nd.isArray ==> s.nodes[n].isArray)
    ensures Later(s, t, {})
    ensures forall k: nat :: k < |s.nodes| ==> Resolve(t.nodes, k) == Resolve(s.nodes, k)
    ensures Mapped(s) && NodeRespects(nd, s.candidate, n) ==> Mapped(t)
  {
    hide Coarsens, Carries, Respects, NodeRespects, Valid, Fits, Absorbs, Acyclic, SitesKept, Potential;
    InPlace(s.nodes, n, nd);
    ValidAcyclic(t.nodes);
    CoarsensBasics(s.nodes, t.nodes, {n});
    InPlaceCarries(s.nodes, n, nd);
    PotentialUpdate(s.nodes, n, nd);
    InPlaceSites(s.nodes, n, nd, s.lost);
    if Mapped(s) && NodeRespects(nd, s.candidate, n) {
      RespectsUpdate(s.nodes, s.candidate, n, nd);
    }
  }

  lemma InPlaceSites(s: seq<Node>, n: nat, nd: Node, lost: set<Site>)
    requires IsRep(s, n) && Fits(s, nd) && Absorbs(s[n], nd) && s[n].sites <= nd.sites
    requires Acyclic(s) && Acyclic(s[n := nd]) && forall k: nat :: k < |s| ==> Resolve(s[n := nd], k) == Resolve(s, k)
    ensures SitesKept(s, s[n := nd], lost, {}) && Weight(nd) <= Weight(s[n])
  {
  }

  lemma InTransitSites(s: seq<Node>, n: nat, nd: Node, lost: set<Site>)
    requires IsRep(s, n) && Fits(s, nd) && Absorbs(s[n], nd)
    requires Acyclic(s) && Acyclic(s[n := nd]) && forall k: nat :: k < |s| ==> Resolve(s[n := nd], k) == Resolve(s, k)
    ensures SitesKept(s, s[n := nd], lost, {n}) && Weight(nd) <= Weight(s[n]) && IsRep(s[n := nd], n)
  {
  }

  /** The shape of an update that only adds to a node. */
  ghost predicate Grows(x: Node, y: Node) {
    && y.fwd == x.fwd
    && y.isCollapsed == x.isCollapsed && y.isArray == x.isArray && (x.isArray ==> y.size == x.size)
    && x.types <= y.types && x.marks <= y.marks && x.sites <= y.sites
    && x.links.Keys <= y.links.Keys && (forall f | f in x.links :: y.links[f] == x.links[f])
  }

  lemma GrowsCarries(s: seq<Node>, n: nat, nd: Node)
    requires Valid(s) && IsRep(s, n) && Grows(s[n], nd) && Acyclic(s[n := nd])
    requires OmniAlone(nd.links)
    ensures Carries(s[n], s[n := nd], n)
  {
    var t := s[n := nd];
    assert SoundNode(s[n]);
    forall f | f in s[n].links ensures HasEdge(t, n, f, s[n].links[f]) {
      assert s[n].links[f].node < |s|;
    }
    forall a | a in s[n].types ensures HasAccess(t, n, a) {
    }
  }

  lemma GrowsLater(s: State, t: State, n: nat, nd: Node)
    requires Valid(s.nodes) && IsRep(s.nodes, n) && t == s.(nodes := s.nodes[n := nd])
    requires Fits(s.nodes, nd) && Grows(s.nodes[n], nd)
    ensures Later(s, t, {})
    ensures forall k: nat :: k < |s.nodes| ==> Resolve(t.nodes, k) == Resolve(s.nodes, k)
    ensures Mapped(s) && NodeRespects(nd, s.candidate, n) ==> Mapped(t)
  {
    assert Absorbs(s.nodes[n], nd) by { assert SoundNode(s.nodes[n]); }
    if Acyclic(t.nodes) {
      GrowsCarries(s.nodes, n, nd);
    }
    hide Grows;
    InPlaceLater(s, t, n, nd) by { hide Valid, Fits, Absorbs, Carries, Later, Mapped; }
  }

  lemma AllocatedLater(s: State, t: State, a: nat, nd: Node)
    requires Valid(s.nodes) && IsRep(s.nodes, a)
    requires nd == BLANK.(size := 1, isCollapsed := true, marks := s.nodes[a].marks)
    requires t == s.(nodes := s.nodes + [nd], candidate := t.candidate)
    requires a < |s.candidate.place| ==>
               t.candidate == s.candidate.(place := s.candidate.place + [s.candidate.place[a]])
    ensures Valid(t.nodes) && Coarsens(s.nodes, t.nodes, {})
    ensures SitesKept(s.nodes, t.nodes, t.lost, {})
    ensures Potential(t.nodes) == Potential(s.nodes) + 1
    ensures ArrayFree(s.nodes) ==> ArrayFree(t.nodes)
    ensures forall k: nat :: k < |s.nodes| ==> Resolve(t.nodes, k) == Resolve(s.nodes, k)
    ensures Mapped(s) && s.candidate.target[s.candidate.place[a].node].isCollapsed ==>
              Mapped(t) && Extends(s.candidate, t.candidate) && t.candidate.place[|s.nodes|] == s.candidate.place[a]
  {
    Allocated(s.nodes, nd);
    PotentialAppend(s.nodes, nd);
    if Mapped(s) && s.candidate.target[s.candidate.place[a].node].isCollapsed {
      RespectsAppend(s.nodes, s.candidate, a, nd);
    }
    hide Coarsens, Respects, Valid;
  }

  lemma RetiredLater(s: State, t: State, a: nat, b: nat, d: nat)
    requires Valid(s.nodes) && IsRep(s.nodes, a) && IsRep(s.nodes, b) && a != b
    requires Absorbs(s.nodes[a], s.nodes[b])
    requires t == s.(nodes := s.nodes[a := s.nodes[a].(fwd := Some(Cell(b, d)))])
    ensures Later(s, t, {a})
    ensures Resolve(t.nodes, a) == Cell(b, d)
    ensures Potential(t.nodes) + Weight(s.nodes[a]) == Potential(s.nodes)
    ensures Mapped(s) && Equates(s.candidate, Cell(a, 0), Cell(b, d)) ==> Mapped(t)
  {
    hide Coarsens, Respects, NodeRespects, Valid, Acyclic, SitesKept, Absorbs, Equates, Weight;
    Retired(s.nodes, a, b, d);
    CoarsensBasics(s.nodes, t.nodes, {a});
    RetiredSites(s.nodes, t.nodes, a, b, d);
    SitesMore(s.nodes, t.nodes, {}, t.lost, {a});
    if Mapped(s) && Equates(s.candidate, Cell(a, 0), Cell(b, d)) {
      RespectsAt(s.nodes, s.candidate, a);
      RespectsForward(s.nodes[a], s.candidate, a, Cell(b, d));
      RespectsUpdate(s.nodes, s.candidate, a, t.nodes[a]);
    }
  }

  lemma SitesMore(s: seq<Node>, t: seq<Node>, lost: set<Site>, lost': set<Site>, skip: set<nat>)
    requires Acyclic(t) && |s| <= |t| && SitesKept(s, t, lost, skip) && lost <= lost'
    ensures SitesKept(s, t, lost', skip)
  {
  }

  lemma RetiredSites(s: seq<Node>, t: seq<Node>, a: nat, b: nat, d: nat)
    requires Acyclic(s) && Retires(s, t, a, b, d)
    requires t == s[a := s[a].(fwd := Some(Cell(b, d)))]
    requires Acyclic(t)
    ensures SitesKept(s, t, {}, {a})
  {
    RetireMoves(s, t, a, b, d);
  }

  /** Overwriting the unread part of a forwarding node. */
  lemma ScribbledLater(s: State, t: State, n: nat, nd: Node)
    requires Valid(s.nodes) && n < |s.nodes| && s.nodes[n].fwd.Some?
    requires nd == s.nodes[n].(size := nd.size, types := nd.types)
    requires t == s.(nodes := s.nodes[n := nd])
    ensures Later(s, t, {}) && KeepsMap(s, t)
    ensures forall k: nat :: k < |s.nodes| ==> Resolve(t.nodes, k) == Resolve(s.nodes, k)
  {
    hide Coarsens, Respects, NodeRespects, Valid, Acyclic, SitesKept;
    Scribbled(s.nodes, n, nd);
    CoarsensBasics(s.nodes, t.nodes, {});
    ScribbledSites(s.nodes, n, nd, s.lost);
    if Mapped(s) {
      RespectsAt(s.nodes, s.candidate, n);
      RespectsScribbled(s.nodes[n], s.candidate, n, nd);
      RespectsUpdate(s.nodes, s.candidate, n, nd);
    }
  }

  lemma ScribbledSites(s: seq<Node>, n: nat, nd: Node, lost: set<Site>)
    requires Acyclic(s) && n < |s| && s[n].fwd.Some?
    requires Acyclic(s[n := nd]) && forall k: nat :: k < |s| ==> Resolve(s[n := nd], k) == Resolve(s, k)
    ensures SitesKept(s, s[n := nd], lost, {})
  {
  }

  /** Sites written to a node that has just stopped being used are lost. */
  lemma StraySitesLater(s: State, t: State, u: State, b: nat, sites: set<Site>, skip: set<nat>)
    requires Later(s, t, skip) && IsRep(s.nodes, b) && t.nodes[b].fwd.Some? && !ArrayFree(s.nodes)
    requires u == t.(nodes := t.nodes[b := t.nodes[b].(sites := sites)], lost := u.lost) && t.lost <= u.lost
    ensures Later(s, u, skip)
    ensures forall k: nat :: k < |t.nodes| ==> Resolve(u.nodes, k) == Resolve(t.nodes, k)
  {
    hide Coarsens, SitesKept, Valid, Alike, Closed, PendingKept, Follows;
    CoarsensBasics(s.nodes, t.nodes, skip);
    StrayAlike(s.nodes, t.nodes, u.nodes, b, skip);
    AlikeValid(t.nodes, u.nodes);
    AlikeCoarsens(s.nodes, t.nodes, u.nodes, skip);
    AlikeSites(s.nodes, t.nodes, u.nodes, t.lost, u.lost, skip);
  }

  lemma StrayAlike(s: seq<Node>, t: seq<Node>, u: seq<Node>, b: nat, skip: set<nat>)
    requires Valid(t) && Coarsens(s, t, skip) && IsRep(s, b) && b < |t| == |u| && t[b].fwd.Some?
    requires u == t[b := t[b].(sites := u[b].sites)]
    ensures Alike(t, u) && PendingKept(s, u) && Closed(u) && forall k: nat :: k < |t| ==> Resolve(u, k) == Resolve(t, k)
  {
    SameForwardingKeeps(t, u);
    hide ContentKept, KindsKept;
  }

  lemma AlikeSites(s: seq<Node>, t: seq<Node>, u: seq<Node>, lost: set<Site>, lost': set<Site>, skip: set<nat>)
    requires Alike(t, u) && |s| <= |t| && lost <= lost' && SitesKept(s, t, lost, skip)
    ensures SitesKept(s, u, lost', skip)
  {
  }

  /** The retired node's contents have arrived, and the node is emptied. */
  lemma EmptiedLater(s: State, t: State, u: State, a: nat, nd: Node)
    requires Later(s, t, {a}) && IsRep(s.nodes, a) && t.nodes[a].fwd.Some?
    requires Acyclic(t.nodes) ==> Carries(s.nodes[a], t.nodes, a)
    requires Acyclic(t.nodes) ==> s.nodes[a].sites <= t.nodes[Resolve(t.nodes, a).node].sites + t.lost
    requires nd == BLANK.(fwd := t.nodes[a].fwd)
    requires u == t.(nodes := t.nodes[a := nd])
    ensures Later(s, u, {}) && Potential(u.nodes) == Potential(t.nodes)
    ensures forall k: nat :: k < |t.nodes| ==> Resolve(u.nodes, k) == Resolve(t.nodes, k)
    ensures Mapped(t) ==> Mapped(u)
  {
    hide Coarsens, Respects, NodeRespects, Valid, Acyclic, Carries, SitesKept;
    CoarsensBasics(s.nodes, t.nodes, {a});
    Delivered(s.nodes, t.nodes, a);
    Emptied(s.nodes, t.nodes, a, nd);
    ValidAcyclic(u.nodes);
    if Mapped(t) {
      RespectsAt(t.nodes, t.candidate, a);
      RespectsEmptied(t.nodes[a], t.candidate, a);
      RespectsUpdate(t.nodes, t.candidate, a, nd);
    }
    EmptiedSites(s, t, u, a);
  }

  lemma EmptiedSites(s: State, t: State, u: State, a: nat)
    requires Acyclic(t.nodes) && Acyclic(u.nodes) && IsRep(s.nodes, a) && |s.nodes| <= |t.nodes| == |u.nodes|
    requires SitesKept(s.nodes, t.nodes, t.lost, {a})
    requires s.nodes[a].sites <= t.nodes[Resolve(t.nodes, a).node].sites + t.lost
    requires t.nodes[a].fwd.Some? && u.lost == t.lost
    requires forall k: nat :: k < |t.nodes| ==> Resolve(u.nodes, k) == Resolve(t.nodes, k)
    requires forall k: nat :: k < |t.nodes| && k != a ==> u.nodes[k] == t.nodes[k]
    ensures SitesKept(s.nodes, u.nodes, u.lost, {})
  {
    forall r: nat | IsRep(s.nodes, r) ensures s.nodes[r].sites <= u.nodes[Resolve(u.nodes, r).node].sites + u.lost {
      assert Resolve(t.nodes, r).node != a;
    }
  }
}
