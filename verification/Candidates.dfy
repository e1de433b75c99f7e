/** Candidate outcomes: any array-free graph that a graph maps into, its arrays
    into collapsed nodes.  A run of the engine that starts from a mapped graph
    stays mapped, so its result is the least one that satisfies the merges it
    was asked for. */
module Candidates {
  import opened PointsTo
  import opened Forwarding

  /** Node `n` of the graph at hand sits at cell `place[n]` of `target`. */
  datatype Candidate = Candidate(target: seq<Node>, place: seq<Cell>)

  ghost predicate ArrayFree(ns: seq<Node>) {
    forall n: nat | n < |ns| :: !ns[n].isArray
  }

  /** A compressed, array-free graph. */
  ghost predicate Plain(ns: seq<Node>) {
    && ArrayFree(ns)
    && (forall n: nat | n < |ns| :: ns[n].fwd.None? && OmniAlone(ns[n].links))
    && Closed(ns)
  }

  /** The offset a collapsed target node forgets. */
  function Settle(target: seq<Node>, c: Cell): Cell
    requires c.node < |target|
  {
    Cell(c.node, if target[c.node].isCollapsed then 0 else c.off)
  }

  ghost predicate Placed(m: Candidate, n: nat) {
    n < |m.place| && m.place[n].node < |m.target|
  }

  /** Where the candidate puts cell `c`. */
  ghost function Image(m: Candidate, c: Cell): Cell
    requires Placed(m, c.node)
  {
    Settle(m.target, Shift(m.place[c.node], c.off))
  }

  /** In the candidate, field `f` of node `n` leads to the image of `c`. */
  ghost predicate Leads(m: Candidate, n: nat, f: Field, c: Cell) {
    && Placed(m, n) && Placed(m, c.node)
    && var at := Image(m, Cell(n, f.off));
       var x := Lookup(m.target[at.node].links, Field(at.off, f.ty));
       x.Some? && x.value.node < |m.target| && Settle(m.target, x.value) == Image(m, c)
  }

  ghost predicate NodeRespects(nd: Node, m: Candidate, n: nat) {
    && Placed(m, n)
    && var host := m.target[m.place[n].node];
       && (nd.isCollapsed || nd.isArray ==> host.isCollapsed)
       && (nd.fwd.Some? ==> Placed(m, nd.fwd.value.node) && Image(m, Cell(n, 0)) == Image(m, nd.fwd.value))
       && (forall f | f in nd.links :: Leads(m, n, f, nd.links[f]))
       && nd.marks <= host.marks
       && nd.sites <= host.sites
  }

  ghost predicate Respects(ns: seq<Node>, m: Candidate) {
    && Plain(m.target)
    && |m.place| == |ns|
    && forall n: nat | n < |ns| :: NodeRespects(ns[n], m, n)
  }

  /** The candidate puts both cells in one place. */
  ghost predicate Equates(m: Candidate, c: Cell, d: Cell) {
    Placed(m, c.node) && Placed(m, d.node) && Image(m, c) == Image(m, d)
  }

  ghost predicate Extends(m: Candidate, m': Candidate) {
    m'.target == m.target && m.place <= m'.place
  }

  // ---------------------------------------------------------------- reading a candidate

  lemma {:induction false} ImageOfRep(ns: seq<Node>, m: Candidate, c: Cell)
    requires Acyclic(ns) && Respects(ns, m) && c.node < |ns|
    ensures Equates(m, c, Shift(Resolve(ns, c.node), c.off))
    decreases Rank(ns)[c.node]
  {
    assert NodeRespects(ns[c.node], m, c.node);
    if ns[c.node].fwd.Some? {
      ImageOfRep(ns, m, Shift(ns[c.node].fwd.value, c.off));
    } else {
      assert Placed(m, c.node);
    }
  }

  lemma LeadsSameTarget(m: Candidate, n: nat, f: Field, c: Cell, d: Cell)
    requires Leads(m, n, f, c) && Leads(m, n, f, d)
    ensures Equates(m, c, d)
  {
  }

  /** A link and an omni link at the same place of the candidate share their target. */
  lemma LeadsThroughOmni(m: Candidate, n: nat, f: Field, c: Cell, d: Cell)
    requires Plain(m.target)
    requires Leads(m, n, f, c) && Leads(m, n, Omnified(f), d)
    ensures Equates(m, c, d)
  {
    var at := Image(m, Cell(n, f.off));
    assert OmniAlone(m.target[at.node].links);
  }

  /** Moving a link along a forwarding cell. */
  lemma LeadsFrom(m: Candidate, n: nat, f: Field, r: Cell, c: Cell)
    requires Leads(m, n, f, c) && Equates(m, Cell(n, 0), r)
    ensures Leads(m, r.node, Field(r.off + f.off, f.ty), c)
  {
  }

  lemma LeadsTo(m: Candidate, n: nat, f: Field, c: Cell, d: Cell)
    requires Leads(m, n, f, c) && Equates(m, c, d)
    ensures Leads(m, n, f, d)
  {
  }

  // ---------------------------------------------------------------- elementary changes

  lemma RespectsAt(ns: seq<Node>, m: Candidate, n: nat)
    requires Respects(ns, m) && n < |ns|
    ensures NodeRespects(ns[n], m, n)
  {
  }

  lemma RespectsForward(nd: Node, m: Candidate, a: nat, c: Cell)
    requires NodeRespects(nd, m, a) && Equates(m, Cell(a, 0), c)
    ensures NodeRespects(nd.(fwd := Some(c)), m, a)
  {
    hide Leads;
  }

  lemma RespectsEmptied(nd: Node, m: Candidate, a: nat)
    requires NodeRespects(nd, m, a)
    ensures NodeRespects(BLANK.(fwd := nd.fwd), m, a)
  {
    hide Leads;
  }

  lemma RespectsScribbled(nd: Node, m: Candidate, n: nat, now: Node)
    requires NodeRespects(nd, m, n) && now == nd.(size := now.size, types := now.types)
    ensures NodeRespects(now, m, n)
  {
    hide Leads;
  }

  lemma RespectsUpdate(ns: seq<Node>, m: Candidate, n: nat, nd: Node)
    requires Respects(ns, m) && n < |ns| && NodeRespects(nd, m, n)
    ensures Respects(ns[n := nd], m)
  {
    hide NodeRespects;
  }

  lemma RespectsCompressed(s: seq<Node>, t: seq<Node>, m: Candidate)
    requires Compressed(s, t) && Respects(s, m)
    ensures Respects(t, m)
  {
    forall n: nat | n < |t| ensures NodeRespects(t[n], m, n) {
      assert NodeRespects(s[n], m, n);
      assert t[n] == s[n].(fwd := t[n].fwd);
      if t[n].fwd.Some? {
        CompressedForward(s, t, m, n);
      }
    }
  }

  lemma {:induction false} CompressedForward(s: seq<Node>, t: seq<Node>, m: Candidate, n: nat)
    requires Compressed(s, t) && Respects(s, m) && n < |t| && t[n].fwd.Some?
    ensures var c := t[n].fwd.value; c.node < |t| && Equates(m, Cell(n, 0), c)
  {
    var c := t[n].fwd.value;
    assert IsRank(t, Rank(t));
    assert Resolve(t, n) == Shift(Resolve(t, c.node), c.off);
    ImageOfRep(s, m, Cell(n, 0));
    ImageOfRep(s, m, c);
  }

  lemma RespectsAppend(ns: seq<Node>, m: Candidate, a: nat, nd: Node)
    requires Respects(ns, m) && a < |ns|
    requires nd.fwd.None? && nd.links == map[] && nd.sites == {}
    requires nd.marks <= ns[a].marks
    requires m.target[m.place[a].node].isCollapsed
    ensures Respects(ns + [nd], m.(place := m.place + [m.place[a]]))
    ensures Extends(m, m.(place := m.place + [m.place[a]]))
  {
    var m' := m.(place := m.place + [m.place[a]]);
    var t := ns + [nd];
    assert NodeRespects(ns[a], m, a);
    forall n: nat | n < |t| ensures NodeRespects(t[n], m', n) {
      if n < |ns| {
        NodeRespectsExtended(ns[n], m, m', n);
      }
    }
  }

  lemma NodeRespectsExtended(nd: Node, m: Candidate, m': Candidate, n: nat)
    requires NodeRespects(nd, m, n) && Extends(m, m')
    ensures NodeRespects(nd, m', n)
  {
    forall f | f in nd.links ensures Leads(m', n, f, nd.links[f]) {
      LeadsExtended(m, m', n, f, nd.links[f]);
    }
  }

  lemma LeadsExtended(m: Candidate, m': Candidate, n: nat, f: Field, c: Cell)
    requires Leads(m, n, f, c) && Extends(m, m')
    ensures Leads(m', n, f, c)
  {
  }
}
