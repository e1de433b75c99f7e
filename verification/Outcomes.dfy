/** The least outcome of a call: the caller merges nothing that is apart in some graph which holds the caller and the
    callee and puts the two cells of each tie in one place. */
module Outcomes {
  import opened PointsTo
  import opened Forwarding
  import opened Candidates
  import opened Steps
  import opened MergeLaws
  import opened CleanupFacts
  import opened Cloning
  import opened Composition
  import opened Runs
  import opened Calls

  // ---------------------------------------------------------------- candidates that hold the callee

  /** The nodes as they are copied: without the stack's sites. */
  ghost function OffStacked(ns: seq<Node>): seq<Node> {
    seq(|ns|, i requires 0 <= i < |ns| => ns[i].(sites := set a | a in ns[i].sites && !a.stack))
  }

  /** Graph `target` holds the callee, each node at its `home`. */
  ghost predicate HoldsCallee(target: seq<Node>, callee: seq<Node>, home: seq<Cell>) {
    Respects(OffStacked(callee), Candidate(target, home))
  }

  /** The candidate and the callee's homes put both cells of each tie in one place. */
  ghost predicate MeetsTies(m: Candidate, home: seq<Cell>, had: map<nat, Cell>, roots: seq<Root>) {
    && Tied(m, home, had, roots)
    && forall r, q | r in roots && q in roots && r.arg == q.arg ::
         Image(Candidate(m.target, home), r.cell) == Image(Candidate(m.target, home), q.cell)
  }

  /** Every scalar that has a cell has it where its roots are. */
  ghost predicate Tied(m: Candidate, home: seq<Cell>, values: map<nat, Cell>, roots: seq<Root>) {
    && (forall r | r in roots :: Placed(Candidate(m.target, home), r.cell.node))
    && forall r | r in roots && r.arg in values ::
         Placed(m, values[r.arg].node) && Image(m, values[r.arg]) == Image(Candidate(m.target, home), r.cell)
  }

  /** The nodes made for clones are at the homes of what they were cloned from. */
  ghost predicate ClonesHome(m: Candidate, cache: Cache, home: seq<Cell>) {
    forall x | x in cache :: x < |home| && cache[x].0 < |m.place| && m.place[cache[x].0] == home[x]
  }

  /** Where node `m`, made for a clone, goes. */
  ghost function HomeOf(known: Cache, now: Cache, home: seq<Cell>, m: nat): Cell {
    if exists x :: x in now && x !in known && now[x].0 == m && x < |home| then
      var x :| x in now && x !in known && now[x].0 == m && x < |home|;
      home[x]
    else Cell(0, 0)
  }

  /** The candidate with new clones at their homes. */
  ghost function Extended(m: Candidate, known: Cache, now: Cache, home: seq<Cell>, low: nat, high: nat): Candidate
    requires low <= high
  {
    m.(place := m.place + seq(high - low, i requires 0 <= i => HomeOf(known, now, home, low + i)))
  }

  ghost predicate Homed(step: Step, home: seq<Cell>) {
    && |step.before.nodes| <= |step.cloned.nodes|
    && step.cloned.candidate == Extended(step.before.candidate, step.known, step.now, home, |step.before.nodes|,
                                         |step.cloned.nodes|)
  }

  /** Every clone taken from the cache began where the node that held it began, or is collapsed in `target`. */
  ghost predicate StepRight(callee: seq<Node>, root: Root, step: Step, target: seq<Node>, home: seq<Cell>)
    requires Valid(callee)
  {
    && Seated(step.before.nodes, step.known)
    && forall x | x in step.known && Reused(callee, root, step, x) ::
         RightAt(step.before.nodes, step.known, target, home, x)
  }

  ghost predicate RightAt(s: seq<Node>, known: Cache, target: seq<Node>, home: seq<Cell>, x: nat)
    requires Seated(s, known) && x in known
  {
    Flush(s, known, x) || (x < |home| && home[x].node < |target| && target[home[x].node].isCollapsed)
  }

  ghost predicate AllRight(callee: seq<Node>, roots: seq<Root>, steps: seq<Step>, target: seq<Node>, home: seq<Cell>)
    requires Valid(callee) && |roots| == |steps|
  {
    forall i | 0 <= i < |steps| :: StepRight(callee, roots[i], steps[i], target, home)
  }

  // ---------------------------------------------------------------- where a candidate has cells

  lemma OffStackedSame(callee: seq<Node>)
    requires Acyclic(callee)
    ensures Acyclic(OffStacked(callee))
    ensures forall n: nat :: n < |callee| ==> Resolve(OffStacked(callee), n) == Resolve(callee, n)
  {
    SameForwardingKeeps(callee, OffStacked(callee));
  }

  /** A cell of the callee is where its representative is. */
  lemma HomeOfRep(target: seq<Node>, callee: seq<Node>, home: seq<Cell>, c: Cell)
    requires HoldsCallee(target, callee, home) && Acyclic(callee) && c.node < |callee|
    ensures Equates(Candidate(target, home), c, Shift(Resolve(callee, c.node), c.off))
  {
    hide Respects, Acyclic;
    OffStackedSame(callee);
    ImageOfRep(OffStacked(callee), Candidate(target, home), c);
  }

  lemma ImageExtended(m: Candidate, m': Candidate, c: Cell)
    requires Extends(m, m') && Placed(m, c.node)
    ensures Placed(m', c.node) && Image(m', c) == Image(m, c)
  {
  }

  /** The node that holds a clone is, in its place, where the clone was cloned from. */
  lemma CloneAtHome(s: State, known: Cache, home: seq<Cell>, y: nat, k: nat)
    requires Mapped(s) && Seated(s.nodes, known) && ClonesHome(s.candidate, known, home) && y in known
    requires RightAt(s.nodes, known, s.candidate.target, home, y)
    ensures var at := Candidate(s.candidate.target, home); var q := Seat(s.nodes, known, y).node;
      Placed(s.candidate, q) && Placed(at, y) && Image(s.candidate, Cell(q, k)) == Image(at, Cell(y, k))
  {
    var m, q := s.candidate, Seat(s.nodes, known, y);
    RespectsAt(s.nodes, m, known[y].0);
    ImageOfRep(s.nodes, m, Cell(known[y].0, k));
    ImageOfRep(s.nodes, m, Cell(known[y].0, 0));
    RespectsAt(s.nodes, m, q.node);
    hide Respects, Acyclic, Leads;
  }

  // ---------------------------------------------------------------- one root

  /** What is needed of the clones that a step takes from the cache. */
  ghost predicate CacheRight(s: State, known: Cache, home: seq<Cell>) {
    Mapped(s) && Seated(s.nodes, known) && ClonesHome(s.candidate, known, home)
  }

  /** The copied cell is where the cell of the callee is. */
  lemma CopiedAtHome(callee: seq<Node>, s: State, u: State, known: Cache, now: Cache, home: seq<Cell>, c: Cell)
    requires Acyclic(callee) && HoldsCallee(s.candidate.target, callee, home) && c.node < |callee|
    requires CacheRight(s, known, home) && Extends(s.candidate, u.candidate)
    requires Seated(u.nodes, now) && ClonesHome(u.candidate, now, home)
    requires forall x | x in known :: x in now && Seat(u.nodes, now, x) == Seat(s.nodes, known, x)
    requires forall x | x in now && x !in known :: Seat(u.nodes, now, x) == Cell(now[x].0, 0)
    requires var r := Resolve(callee, c.node).node;
      r in now && (r in known ==> RightAt(s.nodes, known, s.candidate.target, home, r))
    ensures var d := Redirected(callee, u.nodes, now, c); var at := Candidate(s.candidate.target, home);
      Placed(u.candidate, d.node) && Placed(at, c.node) && Image(u.candidate, d) == Image(at, c)
  {
    hide Respects, Acyclic, Flush, HoldsCallee, Seat, Mapped, RightAt;
    var r := Resolve(callee, c.node);
    var at, k := Candidate(s.candidate.target, home), r.off + c.off;
    HomeOfRep(s.candidate.target, callee, home, c);
    if r.node in known {
      CloneAtHome(s, known, home, r.node, k);
      ImageExtended(s.candidate, u.candidate, Cell(Seat(s.nodes, known, r.node).node, k));
    } else {
      assert u.candidate.place[now[r.node].0] == home[r.node];
    }
  }

  lemma ExtendedHome(m: Candidate, known: Cache, now: Cache, home: seq<Cell>, low: nat, high: nat)
    requires low == |m.place| && low <= high && Separate(now, 0) && Grown(known, now)
    requires ClonesHome(m, known, home) && FreshClones(known, now, low, high) && forall x | x in now :: x < |home|
    ensures var m' := Extended(m, known, now, home, low, high);
      Extends(m, m') && |m'.place| == high && ClonesHome(m', now, home)
  {
    var m' := Extended(m, known, now, home, low, high);
    forall x | x in now ensures now[x].0 < |m'.place| && m'.place[now[x].0] == home[x] {
      if x in known {
        assert m'.place[now[x].0] == m.place[now[x].0];
      } else {
        assert m'.place[now[x].0] == HomeOf(known, now, home, now[x].0);
      }
    }
  }

  /** The candidate also holds the graph with the clones of a root. */
  lemma StepMapped(callee: seq<Node>, root: Root, step: Step, home: seq<Cell>)
    requires Valid(callee) && StepOk(callee, root, step) && Homed(step, home)
    requires HoldsCallee(step.before.candidate.target, callee, home) && CacheRight(step.before, step.known, home)
    requires StepRight(callee, root, step, step.before.candidate.target, home)
    ensures Mapped(step.cloned) && Extends(step.before.candidate, step.cloned.candidate)
    ensures Seated(step.cloned.nodes, step.now) && ClonesHome(step.cloned.candidate, step.now, home)
    ensures root.cell.node < |callee| && Acyclic(callee)
    ensures var c := Redirected(callee, step.cloned.nodes, step.now, root.cell);
      var at := Candidate(step.before.candidate.target, home);
      && Placed(step.cloned.candidate, c.node) && Placed(at, root.cell.node)
      && Image(step.cloned.candidate, c) == Image(at, root.cell)
  {
    hide Valid, Grafted, Later, Same, OnlyReached, Redirected, Held, NodeRespects, Plain, HoldsCallee;
    hide Extended, RightAt, LinkedAnew, Flush, Seat;
    ValidAcyclic(callee);
    var r := Resolve(callee, root.cell.node).node;
    var s, u, known, now := step.before, step.cloned, step.known, step.now;
    GraftedBasics(callee, s.nodes, u.nodes, known, now, r, root.formal);
    GraftedForwarding(callee, s.nodes, u.nodes, known, now, r, root.formal);
    HomesKnown(callee, s, u, known, now, r, root.formal, home);
    forall n: nat | n < |u.nodes| ensures NodeRespects(u.nodes[n], u.candidate, n) {
      if n < |s.nodes| {
        OldRespects(s, u, n);
      } else {
        NewRespects(callee, root, step, home, n);
      }
    }
    CopiedAtHome(callee, s, u, known, now, home, root.cell);
  }

  lemma HomesKnown(callee: seq<Node>, s: State, u: State, known: Cache, now: Cache, r: nat, formal: bool,
                   home: seq<Cell>)
    requires Valid(callee) && Grafted(callee, s.nodes, u.nodes, known, now, r, formal) && Mapped(s)
    requires HoldsCallee(s.candidate.target, callee, home) && ClonesHome(s.candidate, known, home)
    requires |s.nodes| <= |u.nodes|
    requires u.candidate == Extended(s.candidate, known, now, home, |s.nodes|, |u.nodes|)
    ensures Extends(s.candidate, u.candidate) && |u.candidate.place| == |u.nodes| && ClonesHome(u.candidate, now, home)
  {
    hide Valid, NodeRespects, Plain, AllCopied, Extended;
    forall x | x in now ensures x < |home| {
      if x !in known {
        GraftIs(callee, s.nodes, u.nodes, known, now, r, formal, x);
      }
    }
    ExtendedHome(s.candidate, known, now, home, |s.nodes|, |u.nodes|);
  }

  lemma OldRespects(s: State, u: State, n: nat)
    requires Mapped(s) && Extends(s.candidate, u.candidate) && n < |s.nodes| && n < |u.nodes|
    requires u.nodes[n] == s.nodes[n].(marks := u.nodes[n].marks) && u.nodes[n].marks <= s.nodes[n].marks
    ensures NodeRespects(u.nodes[n], u.candidate, n)
  {
    hide Leads;
    RespectsAt(s.nodes, s.candidate, n);
    NodeRespectsExtended(s.nodes[n], s.candidate, u.candidate, n);
  }

  /** A link of a clone leads where the link it was copied from leads. */
  lemma CloneLeads(target: seq<Node>, callee: seq<Node>, home: seq<Cell>, m: Candidate, n: nat, x: nat, f: Field,
                   d: Cell)
    requires HoldsCallee(target, callee, home) && m.target == target && x < |callee| && f in callee[x].links
    requires n < |m.place| && x < |home| && m.place[n] == home[x]
    requires var at, c := Candidate(target, home), callee[x].links[f];
      Placed(m, d.node) && Placed(at, c.node) && Image(m, d) == Image(at, c)
    ensures Leads(m, n, f, d)
  {
    var at := Candidate(target, home);
    RespectsAt(OffStacked(callee), at, x);
    assert Leads(at, x, f, callee[x].links[f]);
    hide Respects;
  }

  lemma CloneRespects(target: seq<Node>, callee: seq<Node>, home: seq<Cell>, m: Candidate, nd: Node, n: nat, x: nat,
                      formal: bool)
    requires HoldsCallee(target, callee, home) && m.target == target && x < |callee|
    requires n < |m.place| && x < |home| && m.place[n] == home[x] && GraftOf(callee[x], nd, formal)
    requires nd.links.Keys == callee[x].links.Keys && forall f | f in callee[x].links :: Leads(m, n, f, nd.links[f])
    ensures NodeRespects(nd, m, n)
  {
    hide Leads;
    RespectsAt(OffStacked(callee), Candidate(target, home), x);
  }

  /** A new clone respects the candidate at its home. */
  lemma NewRespects(callee: seq<Node>, root: Root, step: Step, home: seq<Cell>, n: nat)
    requires Valid(callee) && StepOk(callee, root, step)
    requires HoldsCallee(step.before.candidate.target, callee, home) && CacheRight(step.before, step.known, home)
    requires StepRight(callee, root, step, step.before.candidate.target, home)
    requires Extends(step.before.candidate, step.cloned.candidate)
    requires ClonesHome(step.cloned.candidate, step.now, home)
    requires |step.before.nodes| <= n < |step.cloned.nodes|
    ensures NodeRespects(step.cloned.nodes[n], step.cloned.candidate, n)
  {
    hide Valid, Grafted, Later, Same, OnlyReached, Redirected, Held, NodeRespects, Plain, HoldsCallee;
    hide Mapped, RightAt, LinkedAnew, Flush, Seat, AllCopied, Leads, Seated, GraftOf;
    ValidAcyclic(callee);
    var r := Resolve(callee, root.cell.node).node;
    var s, u, known, now := step.before, step.cloned, step.known, step.now;
    GraftedBasics(callee, s.nodes, u.nodes, known, now, r, root.formal);
    GraftedForwarding(callee, s.nodes, u.nodes, known, now, r, root.formal);
    var x := GraftFor(callee, s.nodes, u.nodes, known, now, r, root.formal, n);
    forall f | f in callee[x].links
      ensures f in u.nodes[n].links && Leads(u.candidate, n, f, u.nodes[n].links[f])
    {
      LinkInBounds(callee, x, f);
      CopiedLink(callee, u.nodes, now, x, f);
      var c := callee[x].links[f];
      if Resolve(callee, c.node).node in known {
        LinkReused(callee, root, step, x, f);
      }
      CopiedAtHome(callee, s, u, known, now, home, c);
      CloneLeads(s.candidate.target, callee, home, u.candidate, n, x, f, u.nodes[n].links[f]);
    }
    CloneRespects(s.candidate.target, callee, home, u.candidate, u.nodes[n], n, x, root.formal && x == r);
  }

  /** Resolving a root merges nothing that a candidate which equates the tie keeps apart. */
  lemma StepInside(callee: seq<Node>, roots: seq<Root>, k: nat, step: Step, home: seq<Cell>)
    requires Valid(callee) && k < |roots| && StepOk(callee, roots[k], step) && Homed(step, home)
    requires HoldsCallee(step.before.candidate.target, callee, home)
    requires MeetsTies(step.before.candidate, home, step.values, roots)
    requires CacheRight(step.before, step.known, home)
    requires StepRight(callee, roots[k], step, step.before.candidate.target, home)
    ensures KeepsMap(step.before, step.after) && CacheRight(step.after, step.now, home)
    ensures MeetsTies(step.after.candidate, home, step.values[roots[k].arg := step.held], roots)
  {
    hide Valid, Grafted, Later, Same, OnlyReached, Redirected, Mapped, HoldsCallee, StepRight, Homed;
    hide Flush, Seat, Acyclic, Image, Canon, Compressed, MergedCells;
    var root, u := roots[k], step.cloned;
    StepMapped(callee, root, step, home);
    var c := Redirected(callee, u.nodes, step.now, root.cell);
    assert root in roots;
    if root.arg in step.values {
      ImageExtended(step.before.candidate, u.candidate, step.held);
      assert Equates(u.candidate, step.held, c);
    } else {
      SameCount(u);
      CanonAtHome(u, c);
    }
    LaterBasics(u, step.after, {});
    SeatedAfter(u.nodes, step.after.nodes, step.now);
    ImageExtended(u.candidate, step.after.candidate, step.held);
    TiedAfter(step.before.candidate, step.after.candidate, home, step.values, roots, k, step.held);
    ClonesStay(u.candidate, step.after.candidate, step.now, home);
  }

  lemma ClonesStay(m: Candidate, m': Candidate, cache: Cache, home: seq<Cell>)
    requires Extends(m, m') && ClonesHome(m, cache, home)
    ensures ClonesHome(m', cache, home)
  {
  }

  lemma CanonAtHome(s: State, c: Cell)
    requires Mapped(s) && Acyclic(s.nodes) && c.node < |s.nodes|
    ensures Equates(s.candidate, Canon(s.nodes, c), c)
  {
    var r := Resolve(s.nodes, c.node);
    ImageOfRep(s.nodes, s.candidate, c);
    RespectsAt(s.nodes, s.candidate, r.node);
    hide Respects, Acyclic, Leads;
  }

  lemma SeatedAfter(s: seq<Node>, t: seq<Node>, cache: Cache)
    requires Seated(s, cache) && Acyclic(t) && |s| <= |t|
    ensures Seated(t, cache)
  {
  }

  /** The scalars are still where their roots are. */
  lemma TiedAfter(m: Candidate, m': Candidate, home: seq<Cell>, values: map<nat, Cell>, roots: seq<Root>, k: nat,
                  held: Cell)
    requires Extends(m, m') && k < |roots| && MeetsTies(m, home, values, roots)
    requires roots[k].arg in values ==> held == values[roots[k].arg]
    requires Placed(m', held.node) && Image(m', held) == Image(Candidate(m.target, home), roots[k].cell)
    ensures MeetsTies(m', home, values[roots[k].arg := held], roots)
  {
    assert roots[k] in roots;
  }

  /** The whole call merges nothing that a candidate keeps apart which holds the caller and the callee and meets the
      ties, if the clones taken from the cache are right in it. */
  lemma {:induction false} CallInside(callee: seq<Node>, start: State, had: map<nat, Cell>, all: seq<Root>, n: nat,
                                      steps: seq<Step>, home: seq<Cell>)
    requires Valid(callee) && n <= |all| && Traced(callee, start, had, all[..n], steps)
    requires forall i | 0 <= i < |steps| :: Homed(steps[i], home)
    requires Mapped(start) && HoldsCallee(start.candidate.target, callee, home) && Acyclic(start.nodes)
    requires MeetsTies(start.candidate, home, had, all)
    requires AllRight(callee, all[..n], steps, start.candidate.target, home)
    ensures KeepsMap(start, After(start, steps)) && CacheRight(After(start, steps), Known(steps), home)
    ensures MeetsTies(After(start, steps).candidate, home, Holding(had, all[..n], steps), all)
  {
    hide Valid, StepOk, HoldsCallee, Homed, StepRight, Mapped, Seated, MeetsTies;
    if steps == [] {
      NothingHome(start, home);
    } else {
      var k := n - 1;
      assert all[..n][..k] == all[..k];
      assert forall i | 0 <= i < k :: all[..n][i] == all[..k][i] && steps[..k][i] == steps[i];
      assert forall i | 0 <= i < k :: Homed(steps[..k][i], home) by {
        forall i | 0 <= i < k ensures Homed(steps[..k][i], home) {
          assert Homed(steps[i], home);
        }
      }
      assert AllRight(callee, all[..k], steps[..k], start.candidate.target, home);
      CallInside(callee, start, had, all, k, steps[..k], home);
      var step := steps[k];
      StepInside(callee, all, k, step, home);
      KeepsMapTrans(start, step.before, step.after);
    }
  }

  lemma NothingHome(start: State, home: seq<Cell>)
    requires Mapped(start) && Acyclic(start.nodes)
    ensures CacheRight(start, map[], home) && KeepsMap(start, start)
  {
  }

  /** The candidate of `start` holds the caller and, with `home`, the callee, meets the ties, and is right about the
      clones taken from the cache. */
  ghost predicate Suits(callee: seq<Node>, start: State, had: map<nat, Cell>, roots: seq<Root>, steps: seq<Step>,
                        home: seq<Cell>)
    requires Valid(callee) && |roots| == |steps|
  {
    && Mapped(start) && HoldsCallee(start.candidate.target, callee, home)
    && MeetsTies(start.candidate, home, had, roots) && AllRight(callee, roots, steps, start.candidate.target, home)
  }

  /** The nodes there were are merged, linked, collapsed and marked no more than in the candidate, nor are they with
      the clones at their homes. */
  ghost predicate AtMost(start: State, z: State, cache: Cache, t: seq<Node>, home: seq<Cell>)
    requires Acyclic(t)
  {
    && NoMoreThan(t, |start.nodes|, start.candidate)
    && Extends(start.candidate, z.candidate) && ClonesHome(z.candidate, cache, home)
    && NoMoreThan(t, |z.nodes|, z.candidate)
  }

  /** A call equates, links, collapses and marks no more than any candidate that suits it. */
  lemma CallLeast(callee: seq<Node>, start: State, had: map<nat, Cell>, roots: seq<Root>, steps: seq<Step>,
                  home: seq<Cell>, t: seq<Node>, dropped: set<nat>)
    requires Valid(callee) && Acyclic(start.nodes) && Traced(callee, start, had, roots, steps)
    requires (forall i | 0 <= i < |steps| :: Homed(steps[i], home)) && Suits(callee, start, had, roots, steps, home)
    requires var z := After(start, steps).nodes; Valid(z) && Flattened(z, t, dropped, |z|) && Acyclic(t)
    ensures AtMost(start, After(start, steps), Known(steps), t, home)
  {
    hide Valid, StepOk, HoldsCallee, Homed, StepRight, Mapped, Seated, MeetsTies, Traced, NoMoreThan;
    hide Flattened, Acyclic;
    var z := After(start, steps);
    assert roots[..|roots|] == roots;
    CallInside(callee, start, had, roots, |roots|, steps, home);
    ValidAcyclic(z.nodes);
    MergesNoMore(start, z);
    KeepsMapRefl(z);
    MergesNoMore(z, z);
    SameCounts(start, z);
    FlattenedNoMore(z.nodes, t, dropped, |start.nodes|, start.candidate);
    FlattenedNoMore(z.nodes, t, dropped, |z.nodes|, z.candidate);
  }

  lemma SameCounts(s: State, t: State)
    requires Mapped(s) && KeepsMap(s, t)
    ensures Mapped(t) && |s.nodes| <= |t.nodes|
  {
    SameCount(s);
    SameCount(t);
  }

  lemma FlattenedNoMore(s: seq<Node>, t: seq<Node>, dropped: set<nat>, n: nat, m: Candidate)
    requires Acyclic(s) && Acyclic(t) && Flattened(s, t, dropped, |s|) && n <= |s| && NoMoreThan(s, n, m)
    ensures NoMoreThan(t, n, m)
  {
    hide Acyclic, Flattened, HasEdge, Leads, Equates, Canon;
    FlattenedSize(s, t, dropped);
    forall c: Cell, d: Cell | c.node < n && d.node < n && Same(t, c, d) ensures Equates(m, c, d) {
      FlattenedCanon(s, t, dropped, c);
      FlattenedCanon(s, t, dropped, d);
      assert Same(s, c, d);
    }
    forall k: nat, f, c: Cell | k < n && k < |t| && c.node < n && HasEdge(t, k, f, c) ensures Leads(m, k, f, c) {
      FlattenedEdges(s, t, dropped, k, f, c);
    }
    forall k: nat | k < n && k < |t| ensures Hosts(m, k, t[Resolve(t, k).node]) {
      FlattenedHost(s, t, dropped, k);
      assert Hosts(m, k, s[Resolve(s, k).node]);
    }
  }

  lemma FlattenedSize(s: seq<Node>, t: seq<Node>, dropped: set<nat>)
    requires Flattened(s, t, dropped, |s|)
    ensures |t| == |s|
  {
  }

  lemma FlattenedHost(s: seq<Node>, t: seq<Node>, dropped: set<nat>, k: nat)
    requires Flattened(s, t, dropped, |s|) && k < |s|
    ensures |t| == |s| && Acyclic(s) && Acyclic(t) && Resolve(t, k) == Resolve(s, k)
    ensures var r := Resolve(s, k).node; t[r] == s[r].(fwd := t[r].fwd, links := t[r].links)
  {
    assert FlatAt(s, t, dropped, k, |s|);
    assert FlatAt(s, t, dropped, Resolve(s, k).node, |s|);
  }
}
