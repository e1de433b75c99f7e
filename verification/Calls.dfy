/** The steps that resolve the roots of a call, and what they come to. */
module Calls {
  import opened PointsTo
  import opened Forwarding
  import opened Coarsening
  import opened Changes
  import opened Candidates
  import opened Steps
  import opened LinkFacts
  import opened MergeLaws
  import opened CleanupFacts
  import opened Cloning
  import opened Mapper
  import opened Propagation
  import opened Marks
  import opened Composition

  /** `m` is a clone of `nd` as bottom-up propagation makes it, from its links apart. */
  ghost predicate GraftOf(nd: Node, m: Node, formal: bool) {
    && m.fwd.None? && m.isForeign
    && m.size == nd.size && m.isArray == nd.isArray && m.isCollapsed == nd.isCollapsed
    && m.types == (if nd.isCollapsed then {} else nd.types)
    && m.marks == (if formal then nd.marks - {External} else nd.marks)
    && m.sites == (set a | a in nd.sites && !a.stack)
  }

  /** `u` is `s` followed by one complete clone of each callee node cached since `known` and nothing else: same shape,
      accesses and flags, foreign, without the stack's sites.  The node that holds the clone of a formal is
      not external. */
  ghost predicate Grafted(callee: seq<Node>, s: seq<Node>, u: seq<Node>, known: Cache, now: Cache, root: nat,
                          formal: bool)
    requires Valid(callee)
  {
    && Seated(s, known) && Seated(u, now) && |s| <= |u| && Grown(known, now) && root in now
    && FreshClones(known, now, |s|, |u|) && Separate(now, 0)
    && (forall m: nat :: m < |s| ==> u[m] == if formal && root in known && m == Seat(s, known, root).node
                                             then s[m].(marks := s[m].marks - {External}) else s[m])
    && forall x | x in now && x !in known :: Graft(callee, u, now, x, formal && x == root)
  }

  ghost predicate Graft(callee: seq<Node>, u: seq<Node>, now: Cache, x: nat, formal: bool)
    requires Valid(callee)
  {
    x in now && IsRep(callee, x) && now[x].0 < |u| && GraftOf(callee[x], u[now[x].0], formal) &&
      AllCopied(callee, u, now, x)
  }

  // ---------------------------------------------------------------- one root

  /** One root of a call: the state before, the state with the clones, and the state where the scalar holds `held`. */
  datatype Step = Step(before: State, values: map<nat, Cell>, known: Cache, cloned: State, now: Cache, after: State,
                       held: Cell)

  ghost predicate StepOk(callee: seq<Node>, root: Root, step: Step)
    requires Valid(callee)
  {
    && root.cell.node < |callee|
    && var r := Resolve(callee, root.cell.node).node;
       && Valid(step.before.nodes) && step.cloned.lost == step.before.lost
       && Grafted(callee, step.before.nodes, step.cloned.nodes, step.known, step.now, r, root.formal)
       && OnlyReached(callee, r, step.known, step.now)
       && Later(step.cloned, step.after, {}) && Acyclic(step.after.nodes)
       && var c := Redirected(callee, step.cloned.nodes, step.now, root.cell);
          Same(step.after.nodes, step.held, c) && Held(root, step, c)
  }

  /** A scalar that had a cell keeps it, and the two are merged; else it gets the clone's.  Nothing more is merged than
      in any candidate that equates the two. */
  ghost predicate Held(root: Root, step: Step, c: Cell)
    requires Acyclic(step.cloned.nodes) && c.node < |step.cloned.nodes|
  {
    if root.arg in step.values then
      && step.held == step.values[root.arg]
      && (IsRep(step.cloned.nodes, step.held.node) && IsRep(step.cloned.nodes, c.node) ==>
            MergedCells(step.cloned, step.after, step.held, c))
      && (Equates(step.cloned.candidate, step.held, c) ==> KeepsMap(step.cloned, step.after))
    else
      && step.held == Canon(step.cloned.nodes, c) && Compressed(step.cloned.nodes, step.after.nodes)
      && KeepsMap(step.cloned, step.after)
  }

  lemma GraftedBasics(callee: seq<Node>, s: seq<Node>, u: seq<Node>, known: Cache, now: Cache, root: nat, formal: bool)
    requires Valid(callee) && Grafted(callee, s, u, known, now, root, formal)
    ensures Seated(s, known) && Seated(u, now) && |s| <= |u| && Grown(known, now) && root in now
    ensures Seat(u, now, root).node < |u|
  {
  }

  lemma GraftAt(callee: seq<Node>, s: seq<Node>, u: seq<Node>, known: Cache, now: Cache, root: nat, formal: bool,
                m: nat)
    requires Valid(callee) && Grafted(callee, s, u, known, now, root, formal) && |s| <= m < |u|
    ensures u[m].fwd.None? && (ArrayFree(callee) ==> !u[m].isArray)
  {
    assert NewClone(known, now, m);
    var x :| x in now && x !in known && now[x].0 == m;
    assert Graft(callee, u, now, x, formal && x == root);
    hide AllCopied, OffStack;
  }

  lemma GraftIs(callee: seq<Node>, s: seq<Node>, u: seq<Node>, known: Cache, now: Cache, root: nat, formal: bool,
                x: nat)
    requires Valid(callee) && Grafted(callee, s, u, known, now, root, formal) && x in now && x !in known
    ensures IsRep(callee, x) && IsRep(u, now[x].0) && u[now[x].0].isCollapsed == callee[x].isCollapsed
    ensures AllCopied(callee, u, now, x)
  {
    assert Graft(callee, u, now, x, formal && x == root);
    hide AllCopied, OffStack;
  }

  /** A new node is the clone of some node. */
  lemma GraftFor(callee: seq<Node>, s: seq<Node>, u: seq<Node>, known: Cache, now: Cache, root: nat, formal: bool,
                 m: nat) returns (x: nat)
    requires Valid(callee) && Grafted(callee, s, u, known, now, root, formal) && |s| <= m < |u|
    ensures x in now && x !in known && now[x].0 == m && x < |callee| && AllCopied(callee, u, now, x)
    ensures GraftOf(callee[x], u[m], formal && x == root) && u[m].links.Keys == callee[x].links.Keys
  {
    assert NewClone(known, now, m);
    x :| x in now && x !in known && now[x].0 == m;
    assert Graft(callee, u, now, x, formal && x == root);
    hide OffStack;
  }

  /** Cloning changes no forwarding, and of the nodes that were there nothing but a mark. */
  lemma GraftedForwarding(callee: seq<Node>, s: seq<Node>, u: seq<Node>, known: Cache, now: Cache, root: nat,
                          formal: bool)
    requires Valid(callee) && Grafted(callee, s, u, known, now, root, formal)
    ensures SameForwarding(s, u)
    ensures forall m: nat :: m < |s| ==> u[m] == s[m].(marks := u[m].marks) && u[m].marks <= s[m].marks
    ensures forall x | x in known :: x in now && Seat(u, now, x) == Seat(s, known, x)
    ensures forall x | x in now && x !in known :: Seat(u, now, x) == Cell(now[x].0, 0)
  {
    hide Graft;
    forall m: nat | |s| <= m < |u| ensures u[m].fwd.None? {
      GraftAt(callee, s, u, known, now, root, formal, m);
    }
    SeatsStay(s, u, known);
    forall x | x in known ensures x in now && Seat(u, now, x) == Seat(s, known, x) {
      SeatGrown(u, known, now, x);
    }
    forall x | x in now && x !in known ensures Seat(u, now, x) == Cell(now[x].0, 0) {
      GraftIs(callee, s, u, known, now, root, formal, x);
      SeatHere(u, now, x);
    }
  }

  /** Cloning a root loses nothing but, perhaps, one mark: that of a formal's node that holds an earlier clone. */
  lemma GraftedOnward(callee: seq<Node>, s: seq<Node>, u: seq<Node>, known: Cache, now: Cache, root: nat, formal: bool)
    requires Valid(callee) && Valid(s) && Valid(u) && Grafted(callee, s, u, known, now, root, formal)
    ensures Onward(s, u) && PendingKept(s, u)
    ensures Coarsens(s, u, {}) <==> !(formal && root in known && External in s[Seat(s, known, root).node].marks)
    ensures ArrayFree(callee) && ArrayFree(s) ==> ArrayFree(u)
  {
    GraftedBasics(callee, s, u, known, now, root, formal);
    GraftedUnmarked(callee, s, u, known, now, root, formal);
    GraftedMarks(callee, s, u, known, now, root, formal);
    hide Valid, Grafted, Coarsens, Unmarked, Prolongs;
    UnmarkedValid(s);
    UnmarkedValid(u);
    ProlongedCoarsens(Unmarked(s, {External}), Unmarked(u, {External}));
    ValidAcyclic(u);
    OnwardCoarsens(s, u);
    if ArrayFree(callee) && ArrayFree(s) {
      GraftedArrayFree(callee, s, u, known, now, root, formal);
    }
  }

  lemma GraftedUnmarked(callee: seq<Node>, s: seq<Node>, u: seq<Node>, known: Cache, now: Cache, root: nat,
                        formal: bool)
    requires Valid(callee) && Grafted(callee, s, u, known, now, root, formal)
    ensures Prolongs(Unmarked(s, {External}), Unmarked(u, {External}))
  {
    hide Valid, Graft, Separate;
    var x, y := Unmarked(s, {External}), Unmarked(u, {External});
    forall m: nat | m < |x| ensures y[m] == x[m] {
      assert s[m].marks - {External} - {External} == s[m].marks - {External};
    }
  }

  lemma GraftedMarks(callee: seq<Node>, s: seq<Node>, u: seq<Node>, known: Cache, now: Cache, root: nat, formal: bool)
    requires Valid(callee) && Grafted(callee, s, u, known, now, root, formal)
    ensures Acyclic(u) && |s| <= |u| && PendingKept(s, u)
    ensures ExternalsKept(s, u) <==> !(formal && root in known && External in s[Seat(s, known, root).node].marks)
  {
    hide Valid, Graft, Separate;
    GraftedForwarding(callee, s, u, known, now, root, formal);
    forall n: nat | IsRep(s, n) ensures Resolve(u, n) == Cell(n, 0) {
      assert u[n].fwd.None?;
    }
    if formal && root in known {
      var m := Seat(s, known, root).node;
      assert IsRep(s, m) && Resolve(u, m) == Cell(m, 0);
    }
  }

  lemma ProlongedCoarsens(s: seq<Node>, t: seq<Node>)
    requires Valid(s) && Valid(t) && Prolongs(s, t)
    ensures Coarsens(s, t, {})
  {
    hide Valid, Coarsens;
    AppendedCoarsens(s, t);
  }

  lemma GraftedArrayFree(callee: seq<Node>, s: seq<Node>, u: seq<Node>, known: Cache, now: Cache, root: nat,
                         formal: bool)
    requires Valid(callee) && Grafted(callee, s, u, known, now, root, formal) && ArrayFree(callee) && ArrayFree(s)
    ensures ArrayFree(u)
  {
    forall m: nat | m < |u| ensures !u[m].isArray {
      if m >= |s| {
        GraftAt(callee, s, u, known, now, root, formal, m);
      }
    }
  }

  lemma LaterKinds(s: State, t: State)
    requires Later(s, t, {})
    ensures ArrayFree(s.nodes) ==> ArrayFree(t.nodes)
  {
  }

  // ---------------------------------------------------------------- a whole call

  function After(start: State, steps: seq<Step>): State {
    if steps == [] then start else steps[|steps| - 1].after
  }

  function Known(steps: seq<Step>): Cache {
    if steps == [] then map[] else steps[|steps| - 1].now
  }

  function Holding(had: map<nat, Cell>, roots: seq<Root>, steps: seq<Step>): map<nat, Cell>
    requires |roots| == |steps|
  {
    if steps == [] then had else
    var k := |steps| - 1;
    steps[k].values[roots[k].arg := steps[k].held]
  }

  /** `steps` resolve the roots one after the other, with one cache; the scalars had the cells `had`. */
  ghost predicate Traced(callee: seq<Node>, start: State, had: map<nat, Cell>, roots: seq<Root>, steps: seq<Step>)
    requires Valid(callee)
  {
    && |roots| == |steps|
    && (steps != [] ==>
          var k := |steps| - 1;
          && StepOk(callee, roots[k], steps[k])
          && steps[k].before == After(start, steps[..k]) && steps[k].known == Known(steps[..k])
          && steps[k].values == Holding(had, roots[..k], steps[..k])
          && Traced(callee, start, had, roots[..k], steps[..k]))
  }

  /** A clone of `x` is taken from the cache. */
  ghost predicate Reused(callee: seq<Node>, root: Root, step: Step, x: nat)
    requires Valid(callee)
  {
    && root.cell.node < |callee| && x in step.known
    && (x == Resolve(callee, root.cell.node).node || LinkedAnew(callee, step.known, step.now, x))
  }

  /** The caller loses nothing but perhaps the mark External. */
  lemma StepOnward(callee: seq<Node>, root: Root, step: Step)
    requires Valid(callee) && StepOk(callee, root, step)
    ensures Onward(step.before.nodes, step.cloned.nodes) && Onward(step.cloned.nodes, step.after.nodes)
    ensures Onward(step.before.nodes, step.after.nodes)
    ensures |step.before.nodes| <= |step.after.nodes| && PendingKept(step.before.nodes, step.after.nodes)
    ensures Spares(callee, root, step) ==> Coarsens(step.before.nodes, step.after.nodes, {})
    ensures Grown(step.known, step.now)
    ensures ArrayFree(callee) && ArrayFree(step.before.nodes) ==> ArrayFree(step.after.nodes)
  {
    hide Valid, Coarsens, ArrayFree, Grafted, Later, Same, OnlyReached, Redirected, Onward, PendingKept, Held;
    ValidAcyclic(callee);
    var s, u, t, r := step.before.nodes, step.cloned.nodes, step.after.nodes, Resolve(callee, root.cell.node).node;
    LaterValid(step.cloned, step.after);
    LaterKinds(step.cloned, step.after);
    LaterPending(step.cloned, step.after);
    GraftedBasics(callee, s, u, step.known, step.now, r, root.formal);
    GraftedOnward(callee, s, u, step.known, step.now, r, root.formal);
    OnwardIs(u, t);
    OnwardTrans(s, u, t);
    PendingOn(s, u, t);
    if Spares(callee, root, step) {
      CoarsensTrans(s, u, t, {});
    }
  }

  lemma LaterPending(s: State, t: State)
    requires Later(s, t, {})
    ensures |s.nodes| <= |t.nodes| && PendingKept(s.nodes, t.nodes)
  {
  }

  lemma PendingOn(s: seq<Node>, t: seq<Node>, u: seq<Node>)
    requires |s| <= |t| <= |u| && PendingKept(s, t) && PendingKept(t, u)
    ensures PendingKept(s, u)
  {
  }

  /** The mark External is cleared of no node that has it. */
  ghost predicate Spares(callee: seq<Node>, root: Root, step: Step)
    requires Valid(callee)
  {
    && root.cell.node < |callee| && Seated(step.before.nodes, step.known)
    && var s, r := step.before.nodes, Resolve(callee, root.cell.node).node;
       !(root.formal && r in step.known && External in s[Seat(s, step.known, r).node].marks)
  }

  // ---------------------------------------------------------------- what a later state shows of a step

  /** Cell `c` of the callee as the step has copied it. */
  ghost function CopyOf(callee: seq<Node>, step: Step, c: Cell): Cell
    requires Acyclic(callee) && c.node < |callee| && Seated(step.cloned.nodes, step.now)
  {
    Redirected(callee, step.cloned.nodes, step.now, c)
  }

  /** `t` has the collapse and the links of node `x`, which the step cloned. */
  ghost predicate ShowsNode(callee: seq<Node>, step: Step, t: seq<Node>, x: nat)
    requires Valid(callee)
  {
    && Seated(step.cloned.nodes, step.now) && Seated(t, step.now)
    && x in step.now && IsRep(callee, x)
    && (callee[x].isCollapsed ==> t[Seat(t, step.now, x).node].isCollapsed)
    && forall f | f in callee[x].links ::
         && Resolve(callee, callee[x].links[f].node).node in step.now
         && HasEdge(t, step.now[x].0, f, CopyOf(callee, step, callee[x].links[f]))
  }

  lemma StepSeats(callee: seq<Node>, root: Root, step: Step, t: seq<Node>)
    requires Valid(callee) && StepOk(callee, root, step) && Onward(step.after.nodes, t)
    ensures Onward(step.cloned.nodes, t)
    ensures Seated(step.before.nodes, step.known) && Seated(step.cloned.nodes, step.now)
    ensures Seated(t, step.known) && Seated(t, step.now) && |step.cloned.nodes| <= |t| && Grown(step.known, step.now)
    ensures root.cell.node < |callee| && Acyclic(callee) && Resolve(callee, root.cell.node).node in step.now
  {
    hide Valid, Onward, Grafted, Later, Same, OnlyReached, Redirected, Held, PendingKept, Coarsens;
    ValidAcyclic(callee);
    StepOnward(callee, root, step);
    OnwardTrans(step.cloned.nodes, step.after.nodes, t);
    OnwardBasics(step.cloned.nodes, t);
    GraftedBasics(callee, step.before.nodes, step.cloned.nodes, step.known, step.now,
                  Resolve(callee, root.cell.node).node, root.formal);
  }

  /** Where the clone of `x` is in `t`: where the node that held it when the step was made is. */
  lemma SeatFrom(callee: seq<Node>, root: Root, step: Step, t: seq<Node>, x: nat)
    requires Valid(callee) && StepOk(callee, root, step) && Onward(step.after.nodes, t) && x in step.now
    requires Seated(step.before.nodes, step.known) && Seated(step.cloned.nodes, step.now) && Seated(t, step.now)
    ensures var y := Seat(step.cloned.nodes, step.now, x);
      && y.node < |t| && Seat(t, step.now, x) == Shift(Resolve(t, y.node), y.off)
      && (x in step.known ==> y == Seat(step.before.nodes, step.known, x))
      && (x !in step.known ==> y == Cell(step.now[x].0, 0))
  {
    hide Valid, Onward, Grafted, Later, Same, OnlyReached, Redirected, Held;
    StepSeats(callee, root, step, t);
    OnwardSeat(step.cloned.nodes, t, step.now[x].0);
    GraftedForwarding(callee, step.before.nodes, step.cloned.nodes, step.known, step.now,
                      Resolve(callee, root.cell.node).node, root.formal);
  }

  lemma StepShows(callee: seq<Node>, root: Root, step: Step, t: seq<Node>, x: nat)
    requires Valid(callee) && StepOk(callee, root, step) && Onward(step.after.nodes, t)
    requires x in step.now && x !in step.known
    ensures ShowsNode(callee, step, t, x)
  {
    hide Valid, Onward, Grafted, Later, Same, OnlyReached, Redirected, Held, AllCopied, HasEdge, StepOk;
    StepSeats(callee, root, step, t);
    var u := step.cloned.nodes;
    StepGraft(callee, root, step, x);
    SeatHere(u, step.now, x);
    OnwardSeat(u, t, step.now[x].0);
    OnwardBasics(u, t);
    forall f | f in callee[x].links
      ensures callee[x].links[f].node < |callee| && Resolve(callee, callee[x].links[f].node).node in step.now
      ensures HasEdge(t, step.now[x].0, f, CopyOf(callee, step, callee[x].links[f]))
    {
      LinkInBounds(callee, x, f);
      CopiedLink(callee, u, step.now, x, f);
      SoundKey(u, step.now[x].0, f);
      RedirectedIn(callee, u, step.now, callee[x].links[f]);
      SameSelf(u, CopyOf(callee, step, callee[x].links[f]));
      EdgeHere(u, step.now[x].0, f, CopyOf(callee, step, callee[x].links[f]));
      OnwardEdge(u, t, step.now[x].0, f, CopyOf(callee, step, callee[x].links[f]));
    }
  }

  lemma StepGraft(callee: seq<Node>, root: Root, step: Step, x: nat)
    requires Valid(callee) && StepOk(callee, root, step) && x in step.now && x !in step.known
    ensures var u := step.cloned.nodes;
      && IsRep(callee, x) && IsRep(u, step.now[x].0) && u[step.now[x].0].isCollapsed == callee[x].isCollapsed
      && AllCopied(callee, u, step.now, x)
  {
    hide Valid, Grafted, Later, Same, OnlyReached, Redirected, Held, AllCopied;
    ValidAcyclic(callee);
    GraftIs(callee, step.before.nodes, step.cloned.nodes, step.known, step.now,
            Resolve(callee, root.cell.node).node, root.formal, x);
  }

  lemma RedirectedIn(src: seq<Node>, dst: seq<Node>, cache: Cache, c: Cell)
    requires Acyclic(src) && c.node < |src| && Seated(dst, cache) && Resolve(src, c.node).node in cache
    ensures Acyclic(dst) && Redirected(src, dst, cache, c).node < |dst|
  {
    SeatIn(dst, cache, Resolve(src, c.node).node);
  }

  /** The root's scalar still holds the cell it was given. */
  lemma StepHolding(callee: seq<Node>, root: Root, step: Step, t: seq<Node>)
    requires Valid(callee) && StepOk(callee, root, step) && Onward(step.after.nodes, t)
    ensures Acyclic(callee) && root.cell.node < |callee| && Seated(step.cloned.nodes, step.now) && Acyclic(t)
    ensures Same(t, step.held, CopyOf(callee, step, root.cell))
  {
    hide Valid, Onward, Grafted, Later, Same, OnlyReached, Redirected, Held;
    StepSeats(callee, root, step, t);
    OnwardSame(step.after.nodes, t, step.held, CopyOf(callee, step, root.cell));
  }

  // ---------------------------------------------------------------- in place in the end

  /** Every clone the step took from the cache began where the node that held it began, or in `t` is collapsed. */
  ghost predicate StepInPlace(callee: seq<Node>, root: Root, step: Step, t: seq<Node>)
    requires Valid(callee)
  {
    && Seated(step.before.nodes, step.known) && Seated(t, step.known)
    && forall x | x in step.known && Reused(callee, root, step, x) ::
         Flush(step.before.nodes, step.known, x) || t[Seat(t, step.known, x).node].isCollapsed
  }

  /** A clone in place makes the copied cell the clone's own. */
  lemma CopyRight(callee: seq<Node>, root: Root, step: Step, t: seq<Node>, c: Cell)
    requires Valid(callee) && StepOk(callee, root, step) && Onward(step.after.nodes, t) && c.node < |callee|
    requires Acyclic(callee) && Resolve(callee, c.node).node in step.now
    requires Seated(step.before.nodes, step.known) && Seated(t, step.known)
    requires var r := Resolve(callee, c.node).node;
      r in step.known ==> Flush(step.before.nodes, step.known, r) || t[Seat(t, step.known, r).node].isCollapsed
    ensures Seated(step.cloned.nodes, step.now) && Acyclic(t)
    ensures Same(t, CopyOf(callee, step, c), CloneCell(callee, step.now, c))
  {
    hide Valid, Onward, Grafted, Later, OnlyReached, Held, StepOk, Canon;
    StepSeats(callee, root, step, t);
    var u, r := step.cloned.nodes, Resolve(callee, c.node).node;
    SeatFrom(callee, root, step, t, r);
    OnwardBasics(u, t);
    if r in step.known && t[Seat(t, step.known, r).node].isCollapsed {
      SeatGrown(t, step.known, step.now, r);
      CollapsedSame(t, CopyOf(callee, step, c), CloneCell(callee, step.now, c));
    } else {
      StepFlushes(callee, root, step, r);
      RedirectedRight(callee, u, step.now, c);
      OnwardSame(u, t, CopyOf(callee, step, c), CloneCell(callee, step.now, c));
    }
  }

  lemma CollapsedSame(t: seq<Node>, c: Cell, d: Cell)
    requires Acyclic(t) && c.node < |t| && d.node < |t| && Resolve(t, c.node).node == Resolve(t, d.node).node
    requires t[Resolve(t, c.node).node].isCollapsed
    ensures Same(t, c, d)
  {
  }

  lemma StepFlushes(callee: seq<Node>, root: Root, step: Step, x: nat)
    requires Valid(callee) && StepOk(callee, root, step) && x in step.now
    requires Seated(step.before.nodes, step.known) && Seated(step.cloned.nodes, step.now)
    requires x in step.known ==> Flush(step.before.nodes, step.known, x)
    ensures Flush(step.cloned.nodes, step.now, x)
  {
    hide Valid, Grafted, Later, Same, OnlyReached, Redirected, Held, Adjust;
    ValidAcyclic(callee);
    var s, u := step.before.nodes, step.cloned.nodes;
    GraftedForwarding(callee, s, u, step.known, step.now, Resolve(callee, root.cell.node).node, root.formal);
    var y := Seat(u, step.now, x);
    if x in step.known {
      SeatIn(s, step.known, x);
      RemarkedAdjust(s[y.node], u[y.node], y.off);
    } else {
      SeatIn(u, step.now, x);
      AdjustZero(u[y.node]);
    }
  }

  /** A step whose clones are in place makes `t` keep what the callee says. */
  lemma StepKept(callee: seq<Node>, root: Root, step: Step, t: seq<Node>)
    requires Valid(callee) && StepOk(callee, root, step) && Onward(step.after.nodes, t)
    requires StepInPlace(callee, root, step, t) && Kept(callee, t, step.known)
    ensures Kept(callee, t, step.now) && Kin(callee, t, step.now, root, step.held)
  {
    hide Valid, Onward, StepOk, KeptAt, ShowsNode, Reused, Same, CloneCell, Flush, Seated;
    StepSeats(callee, root, step, t);
    forall x | x in step.now ensures KeptAt(callee, t, step.now, x) {
      if x in step.known {
        KeptHere(callee, t, step.known, x);
        KeptGrown(callee, t, step.known, step.now, x);
      } else {
        NewKept(callee, root, step, t, x);
      }
    }
    KeptAll(callee, t, step.now);
    var r := Resolve(callee, root.cell.node).node;
    if r in step.known {
      RootReused(callee, root, step);
    }
    CopyRight(callee, root, step, t, root.cell);
    StepHolding(callee, root, step, t);
    SameTrans(t, step.held, CopyOf(callee, step, root.cell), CloneCell(callee, step.now, root.cell));
  }

  lemma KeptAll(callee: seq<Node>, t: seq<Node>, cache: Cache)
    requires Valid(callee) && Seated(t, cache) && forall x | x in cache :: KeptAt(callee, t, cache, x)
    ensures Kept(callee, t, cache)
  {
  }

  lemma RootReused(callee: seq<Node>, root: Root, step: Step)
    requires Valid(callee) && root.cell.node < |callee| && Resolve(callee, root.cell.node).node in step.known
    ensures Reused(callee, root, step, Resolve(callee, root.cell.node).node)
  {
  }

  lemma LinkReused(callee: seq<Node>, root: Root, step: Step, x: nat, f: Field)
    requires Valid(callee) && root.cell.node < |callee| && x in step.now && x !in step.known && x < |callee|
    requires f in callee[x].links && callee[x].links[f].node < |callee|
    requires Resolve(callee, callee[x].links[f].node).node in step.known
    ensures Reused(callee, root, step, Resolve(callee, callee[x].links[f].node).node)
  {
    LinkedBy(callee, step.known, step.now, x, f, Resolve(callee, callee[x].links[f].node).node);
  }

  lemma NewKept(callee: seq<Node>, root: Root, step: Step, t: seq<Node>, x: nat)
    requires Valid(callee) && StepOk(callee, root, step) && Onward(step.after.nodes, t)
    requires StepInPlace(callee, root, step, t) && x in step.now && x !in step.known
    ensures KeptAt(callee, t, step.now, x)
  {
    hide Valid, Onward, StepOk, Reused, Same, CloneCell, Flush, Seated, HasEdge, CopyOf;
    StepSeats(callee, root, step, t);
    StepShows(callee, root, step, t, x);
    SeatIn(t, step.now, x);
    forall f | f in callee[x].links
      ensures callee[x].links[f].node < |callee| && Resolve(callee, callee[x].links[f].node).node in step.now
      ensures HasEdge(t, step.now[x].0, f, CloneCell(callee, step.now, callee[x].links[f]))
    {
      LinkInBounds(callee, x, f);
      var c := callee[x].links[f];
      if Resolve(callee, c.node).node in step.known {
        LinkReused(callee, root, step, x, f);
      }
      CopyRight(callee, root, step, t, c);
      EdgeOn(t, step.now[x].0, f, CopyOf(callee, step, c), CloneCell(callee, step.now, c));
    }
    KeptIs(callee, t, step.now, x);
  }

  lemma EdgeOn(ns: seq<Node>, n: nat, f: Field, c: Cell, d: Cell)
    requires Acyclic(ns) && n < |ns| && HasEdge(ns, n, f, c) && Same(ns, c, d)
    ensures HasEdge(ns, n, f, d)
  {
    hide Canon, Adjust, Lookup;
  }

  /** Every clone that was taken from the cache is in place in `t`. */
  ghost predicate AllInPlace(callee: seq<Node>, roots: seq<Root>, steps: seq<Step>, t: seq<Node>)
    requires Valid(callee) && |roots| == |steps|
  {
    forall i | 0 <= i < |steps| :: StepInPlace(callee, roots[i], steps[i], t)
  }

  /** If the clones are in place in the end, the caller has kept all that the callee says, and every root's scalar
      holds the clone of its cell. */
  lemma {:induction false} CallKept(callee: seq<Node>, start: State, had: map<nat, Cell>, roots: seq<Root>,
                                    steps: seq<Step>, t: seq<Node>)
    requires Valid(callee) && Traced(callee, start, had, roots, steps) && Onward(After(start, steps).nodes, t)
    requires AllInPlace(callee, roots, steps, t)
    ensures Kept(callee, t, Known(steps))
    ensures forall i | 0 <= i < |steps| :: Kin(callee, t, Known(steps), roots[i], steps[i].held)
  {
    hide Valid, StepOk, StepInPlace, Kept, Kin, Onward;
    if steps == [] {
      OnwardBasics(start.nodes, t);
      NothingKept(callee, t);
    } else {
      var k := |steps| - 1;
      StepOnward(callee, roots[k], steps[k]);
      OnwardTrans(steps[k].before.nodes, steps[k].after.nodes, t);
      CallKept(callee, start, had, roots[..k], steps[..k], t);
      StepKept(callee, roots[k], steps[k], t);
      forall i | 0 <= i < k ensures Kin(callee, t, steps[k].now, roots[i], steps[i].held) {
        assert Kin(callee, t, steps[k].known, roots[..k][i], steps[..k][i].held);
        KinGrown(callee, t, steps[k].known, steps[k].now, roots[i], steps[i].held);
      }
    }
  }

  lemma NothingKept(callee: seq<Node>, t: seq<Node>)
    requires Valid(callee) && Acyclic(t)
    ensures Kept(callee, t, map[])
  {
  }

  lemma KinGrown(callee: seq<Node>, t: seq<Node>, known: Cache, now: Cache, root: Root, held: Cell)
    requires Kin(callee, t, known, root, held) && Grown(known, now)
    ensures Kin(callee, t, now, root, held)
  {
    hide Same;
    CloneCellGrown(callee, known, now, root.cell);
  }

  // ---------------------------------------------------------------- what a simulation cannot avoid

  /** Callee nodes that are collapsed have their clones on collapsed nodes. */
  ghost predicate Sunk(callee: seq<Node>, t: seq<Node>, cache: Cache) {
    && Seated(t, cache)
    && forall x | x in cache ::
         IsRep(callee, x) && (callee[x].isCollapsed ==> t[Seat(t, cache, x).node].isCollapsed)
  }

  lemma {:induction false} CallSunk(callee: seq<Node>, start: State, had: map<nat, Cell>, roots: seq<Root>,
                                    steps: seq<Step>, t: seq<Node>)
    requires Valid(callee) && Traced(callee, start, had, roots, steps) && Onward(After(start, steps).nodes, t)
    ensures Sunk(callee, t, Known(steps))
  {
    hide Valid, StepOk, Onward;
    if steps == [] {
      OnwardBasics(start.nodes, t);
    } else {
      var k := |steps| - 1;
      StepOnward(callee, roots[k], steps[k]);
      OnwardTrans(steps[k].before.nodes, steps[k].after.nodes, t);
      CallSunk(callee, start, had, roots[..k], steps[..k], t);
      StepSunk(callee, roots[k], steps[k], t);
    }
  }

  lemma StepSunk(callee: seq<Node>, root: Root, step: Step, t: seq<Node>)
    requires Valid(callee) && StepOk(callee, root, step) && Onward(step.after.nodes, t) && Sunk(callee, t, step.known)
    ensures Sunk(callee, t, step.now)
  {
    hide Valid, StepOk, Onward, HasEdge;
    StepSeats(callee, root, step, t);
    forall x | x in step.now
      ensures IsRep(callee, x) && (callee[x].isCollapsed ==> t[Seat(t, step.now, x).node].isCollapsed)
    {
      if x in step.known {
        SeatGrown(t, step.known, step.now, x);
      } else {
        StepShows(callee, root, step, t, x);
      }
    }
  }

  /** Relation `w` has every cached node where its clone is in `t`. */
  ghost predicate AllPinned(t: seq<Node>, w: Relation, cache: Cache) {
    Seated(t, cache) && forall x | x in cache :: Pins(t, w, x, cache[x].0)
  }

  /** A node pinned where the step has its clone is pinned at the clone, unless the clone was taken from the cache;
      then the clone was in place. */
  lemma PinnedThere(callee: seq<Node>, root: Root, step: Step, t: seq<Node>, w: Relation, x: nat)
    requires Valid(callee) && StepOk(callee, root, step) && Onward(step.after.nodes, t) && x in step.now
    requires Seated(step.before.nodes, step.known) && Seated(step.cloned.nodes, step.now) && Seated(t, step.known)
    requires var y := Seat(step.cloned.nodes, step.now, x); Acyclic(t) && y.node < |t| && Pins(t, w, x, y.node)
    requires AllPinned(t, w, step.known)
    ensures step.now[x].0 < |t| && Pins(t, w, x, step.now[x].0)
    ensures x in step.known ==> Flush(step.before.nodes, step.known, x) || t[Seat(t, step.known, x).node].isCollapsed
  {
    hide Valid, Onward, StepOk, Adjust;
    StepSeats(callee, root, step, t);
    SeatFrom(callee, root, step, t, x);
    if x in step.known {
      SeatGrown(t, step.known, step.now, x);
      assert Pins(t, w, x, step.known[x].0);
      var y := Seat(step.before.nodes, step.known, x);
      AdjustZero(step.before.nodes[y.node]);
    }
  }

  /** The node a link of a new clone leads to is pinned if the node is. */
  lemma LinkPinned(callee: seq<Node>, root: Root, step: Step, t: seq<Node>, w: Relation, x: nat, f: Field)
    requires Valid(callee) && Valid(t) && StepOk(callee, root, step) && Onward(step.after.nodes, t)
    requires ArrayFree(callee) && ArrayFree(t) && IsSimulation(callee, t, w) && Sunk(callee, t, step.now)
    requires AllPinned(t, w, step.known) && x in step.now && x !in step.known && Seated(t, step.now) && Acyclic(t)
    requires Pins(t, w, x, step.now[x].0) && x < |callee| && f in callee[x].links && callee[x].links[f].node < |callee|
    ensures Acyclic(callee)
    ensures var r := Resolve(callee, callee[x].links[f].node).node;
      && r in step.now && Pins(t, w, r, step.now[r].0) && Seated(step.before.nodes, step.known)
      && (r in step.known ==> Flush(step.before.nodes, step.known, r) || t[Seat(t, step.known, r).node].isCollapsed)
  {
    hide Valid, Onward, StepOk, Flush, ArrayFree, IsSimulation, Pins, HasEdge;
    StepSeats(callee, root, step, t);
    StepShows(callee, root, step, t, x);
    var c := callee[x].links[f];
    var r := Resolve(callee, c.node).node;
    SeatFrom(callee, root, step, t, r);
    var y := Seat(step.cloned.nodes, step.now, r);
    LinkPins(callee, t, w, x, step.now[x].0, f, y.node);
    PinnedThere(callee, root, step, t, w, r);
  }

  /** The root of a tie that `w` respects is pinned. */
  lemma RootPinned(callee: seq<Node>, root: Root, step: Step, t: seq<Node>, w: Relation, d: Cell)
    requires Valid(callee) && Valid(t) && StepOk(callee, root, step) && Onward(step.after.nodes, t)
    requires ArrayFree(callee) && ArrayFree(t) && Sunk(callee, t, step.now)
    requires AllPinned(t, w, step.known) && Seated(t, step.now) && Acyclic(t) && Same(t, d, step.held)
    requires root.cell.node < |callee| && d.node < |t| && Covers(callee, t, w, Some(root.cell), Some(d))
    ensures Acyclic(callee)
    ensures var r := Resolve(callee, root.cell.node).node;
      && r in step.now && Pins(t, w, r, step.now[r].0) && Seated(step.before.nodes, step.known)
      && (r in step.known ==> Flush(step.before.nodes, step.known, r) || t[Seat(t, step.known, r).node].isCollapsed)
  {
    hide Valid, Onward, StepOk, Flush, ArrayFree, Pins, Same, Covers;
    StepSeats(callee, root, step, t);
    StepHolding(callee, root, step, t);
    var r := Resolve(callee, root.cell.node).node;
    SeatFrom(callee, root, step, t, r);
    var y := Seat(step.cloned.nodes, step.now, r);
    SameTrans(t, d, step.held, CopyOf(callee, step, root.cell));
    TiePins(callee, t, w, y.node, root.cell, d);
    PinnedThere(callee, root, step, t, w, r);
  }

  /** A simulation that respects the tie of a step finds every clone the step took from the cache in place. */
  lemma StepPinned(callee: seq<Node>, root: Root, step: Step, t: seq<Node>, w: Relation, d: Cell)
    requires Valid(callee) && Valid(t) && StepOk(callee, root, step) && Onward(step.after.nodes, t)
    requires ArrayFree(callee) && ArrayFree(t) && IsSimulation(callee, t, w) && Sunk(callee, t, step.now)
    requires Acyclic(t) && Same(t, d, step.held)
    requires root.cell.node < |callee| && d.node < |t| && Covers(callee, t, w, Some(root.cell), Some(d))
    requires AllPinned(t, w, step.known) && LinkClosed(callee, step.known.Keys)
    ensures StepInPlace(callee, root, step, t) && AllPinned(t, w, step.now) && LinkClosed(callee, step.now.Keys)
  {
    hide Valid, Onward, StepOk, Flush, ArrayFree, IsSimulation, Pins, Same, Covers, LinkClosed, OnlyReached;
    StepSeats(callee, root, step, t);
    RootPinned(callee, root, step, t, w, d);
    var some := set x | x in step.now && Pins(t, w, x, step.now[x].0);
    PinnedClosed(callee, root, step, t, w, some);
    StepReached(callee, root, step, some);
    StepClosed(callee, root, step);
    forall x | x in step.known && Reused(callee, root, step, x)
      ensures Flush(step.before.nodes, step.known, x) || t[Seat(t, step.known, x).node].isCollapsed
    {
      if x != Resolve(callee, root.cell.node).node {
        var y, f :| LinksTo(callee, step.known, step.now, y, f, x);
        LinkInBounds(callee, y, f);
        LinkPinned(callee, root, step, t, w, y, f);
      }
    }
  }

  lemma PinnedClosed(callee: seq<Node>, root: Root, step: Step, t: seq<Node>, w: Relation, some: set<nat>)
    requires Valid(callee) && Valid(t) && StepOk(callee, root, step) && Onward(step.after.nodes, t)
    requires ArrayFree(callee) && ArrayFree(t) && IsSimulation(callee, t, w) && Sunk(callee, t, step.now)
    requires AllPinned(t, w, step.known) && LinkClosed(callee, step.known.Keys) && Seated(t, step.now) && Acyclic(t)
    requires some == set x | x in step.now && Pins(t, w, x, step.now[x].0)
    ensures LinkClosed(callee, some) && step.known.Keys <= some
  {
    hide Valid, Onward, StepOk, Flush, ArrayFree, IsSimulation, Pins, Sunk;
    StepSeats(callee, root, step, t);
    forall x | x in step.known ensures x in some {
      assert Pins(t, w, x, step.known[x].0) && step.now[x].0 == step.known[x].0;
    }
    forall x: nat, f | x in some && x < |callee| && f in callee[x].links
      ensures callee[x].links[f].node < |callee| && Resolve(callee, callee[x].links[f].node).node in some
    {
      LinkInBounds(callee, x, f);
      if x in step.known {
        assert x in step.known.Keys;
      } else {
        LinkPinned(callee, root, step, t, w, x, f);
      }
    }
  }

  lemma StepReached(callee: seq<Node>, root: Root, step: Step, some: set<nat>)
    requires Valid(callee) && StepOk(callee, root, step) && LinkClosed(callee, some) && step.known.Keys <= some
    requires root.cell.node < |callee| && Acyclic(callee) && Resolve(callee, root.cell.node).node in some
    ensures step.now.Keys <= some
  {
    hide Valid, Grafted, Later, Same, Redirected, Held, LinkClosed;
  }

  lemma StepClosed(callee: seq<Node>, root: Root, step: Step)
    requires Valid(callee) && StepOk(callee, root, step) && LinkClosed(callee, step.known.Keys)
    ensures LinkClosed(callee, step.now.Keys)
  {
    hide Valid, Grafted, Later, Same, Redirected, Held, LinkClosed, OnlyReached;
    ValidAcyclic(callee);
    GraftedClosed(callee, step.before.nodes, step.cloned.nodes, step.known, step.now,
                  Resolve(callee, root.cell.node).node, root.formal);
  }

  /** The scalars of the roots hold in `t` what they were given. */
  ghost predicate ScalarsHold(t: seq<Node>, roots: seq<Root>, steps: seq<Step>, values: map<nat, Cell>)
    requires |roots| == |steps|
  {
    Acyclic(t) && forall i | 0 <= i < |roots| :: roots[i].arg in values && Same(t, values[roots[i].arg], steps[i].held)
  }

  /** If anything simulates the callee and respects the ties, every clone taken from the cache is in place. */
  lemma {:induction false} CallPinned(callee: seq<Node>, start: State, had: map<nat, Cell>, roots: seq<Root>,
                                      steps: seq<Step>, t: seq<Node>, values: map<nat, Cell>, w: Relation)
    requires Valid(callee) && Valid(t) && Traced(callee, start, had, roots, steps)
    requires Onward(After(start, steps).nodes, t)
    requires ArrayFree(callee) && ArrayFree(t) && IsSimulation(callee, t, w) && ScalarsHold(t, roots, steps, values)
    requires forall i | 0 <= i < |roots| :: roots[i].cell.node < |callee| && values[roots[i].arg].node < |t|
    requires forall i | 0 <= i < |roots| :: Covers(callee, t, w, Some(roots[i].cell), Some(values[roots[i].arg]))
    ensures AllInPlace(callee, roots, steps, t)
    ensures AllPinned(t, w, Known(steps)) && LinkClosed(callee, Known(steps).Keys)
  {
    hide Valid, StepOk, Onward, ArrayFree, IsSimulation, Covers, Same, StepInPlace, LinkClosed;
    if steps == [] {
      NothingCovered(callee, []);
      assert Known(steps).Keys == {};
    } else {
      var k := |steps| - 1;
      StepOnward(callee, roots[k], steps[k]);
      OnwardTrans(steps[k].before.nodes, steps[k].after.nodes, t);
      assert forall i | 0 <= i < k :: roots[..k][i] == roots[i] && steps[..k][i] == steps[i];
      CallPinned(callee, start, had, roots[..k], steps[..k], t, values, w);
      CallSunk(callee, start, had, roots, steps, t);
      StepPinned(callee, roots[k], steps[k], t, w, values[roots[k].arg]);
    }
  }

  // ---------------------------------------------------------------- the caller simulates the callee, exactly when

  /** In array-free graphs no root offset wraps, whatever was merged. */
  lemma {:induction false} CallNeverWraps(callee: seq<Node>, start: State, had: map<nat, Cell>, roots: seq<Root>,
                                          steps: seq<Step>, t: seq<Node>, values: map<nat, Cell>)
    requires Valid(callee) && Valid(t) && Traced(callee, start, had, roots, steps)
    requires Onward(After(start, steps).nodes, t)
    requires ArrayFree(callee) && ArrayFree(t) && ScalarsHold(t, roots, steps, values)
    requires forall i | 0 <= i < |roots| :: roots[i].cell.node < |callee| && values[roots[i].arg].node < |t|
    ensures forall i | 0 <= i < |roots| :: NoWrap(callee, t, Some(roots[i].cell), Some(values[roots[i].arg]))
  {
    hide Valid, StepOk, Onward, ArrayFree, NoWrap, Same;
    if steps != [] {
      var k := |steps| - 1;
      StepOnward(callee, roots[k], steps[k]);
      OnwardTrans(steps[k].before.nodes, steps[k].after.nodes, t);
      assert forall i | 0 <= i < k :: roots[..k][i] == roots[i] && steps[..k][i] == steps[i];
      CallNeverWraps(callee, start, had, roots[..k], steps[..k], t, values);
      CallSunk(callee, start, had, roots, steps, t);
      StepNeverWraps(callee, roots[k], steps[k], t, values[roots[k].arg]);
    }
  }

  lemma StepNeverWraps(callee: seq<Node>, root: Root, step: Step, t: seq<Node>, d: Cell)
    requires Valid(callee) && Valid(t) && StepOk(callee, root, step) && Onward(step.after.nodes, t)
    requires ArrayFree(callee) && ArrayFree(t) && Sunk(callee, t, step.now)
    requires Acyclic(t) && Same(t, d, step.held) && root.cell.node < |callee| && d.node < |t|
    ensures NoWrap(callee, t, Some(root.cell), Some(d))
  {
    hide Valid, Onward, StepOk, ArrayFree, Same, ClientOffset;
    StepSeats(callee, root, step, t);
    StepHolding(callee, root, step, t);
    var r := Resolve(callee, root.cell.node).node;
    SeatFrom(callee, root, step, t, r);
    SameTrans(t, d, step.held, CopyOf(callee, step, root.cell));
    CellsLineUp(callee, t, Seat(step.cloned.nodes, step.now, r).node, root.cell, d);
  }

  /** After a call a functional simulation respects all its ties if and only if every clone that was taken from the
      cache began where the node that held it began, or has ended up on a collapsed node. */
  lemma CallSimulated(callee: seq<Node>, start: State, had: map<nat, Cell>, roots: seq<Root>, steps: seq<Step>,
                      t: seq<Node>, values: map<nat, Cell>)
    requires Valid(callee) && Valid(t) && Traced(callee, start, had, roots, steps)
    requires Onward(After(start, steps).nodes, t)
    requires ArrayFree(callee) && ArrayFree(t) && ScalarsHold(t, roots, steps, values)
    requires forall r | r in roots :: r.cell.node < |callee| && r.arg in values && values[r.arg].node < |t|
    ensures TiesInBounds(callee, t, Ties(roots, values)) && NoneWraps(callee, t, Ties(roots, values))
    ensures (exists w :: Simulates(callee, t, w, Ties(roots, values)) && Functional(w)) <==>
              AllInPlace(callee, roots, steps, t)
  {
    hide Valid, Onward, ArrayFree, NoWrap, Same, StepOk, Functional, AllInPlace, IsSimulation, Covers, Kept;
    var ties := Ties(roots, values);
    forall i | 0 <= i < |roots| ensures roots[i] in roots { }
    CallNeverWraps(callee, start, had, roots, steps, t, values);
    forall w | Simulates(callee, t, w, ties) ensures AllInPlace(callee, roots, steps, t) {
      forall i | 0 <= i < |roots| ensures Covers(callee, t, w, Some(roots[i].cell), Some(values[roots[i].arg])) {
        assert Covers(callee, t, w, ties[i].callee, ties[i].caller);
      }
      CallPinned(callee, start, had, roots, steps, t, values, w);
    }
    if AllInPlace(callee, roots, steps, t) {
      CallKept(callee, start, had, roots, steps, t);
      CallLanded(callee, roots, steps, t, Known(steps), values);
      KeptSimulates(callee, t, Known(steps), roots, values);
    }
  }

  lemma CallLanded(callee: seq<Node>, roots: seq<Root>, steps: seq<Step>, t: seq<Node>, cache: Cache,
                   values: map<nat, Cell>)
    requires |roots| == |steps| && ScalarsHold(t, roots, steps, values)
    requires forall i | 0 <= i < |steps| :: Kin(callee, t, cache, roots[i], steps[i].held)
    ensures forall r | r in roots :: Landed(callee, t, cache, r, values)
  {
    hide Same, CloneCell;
    forall r | r in roots ensures Landed(callee, t, cache, r, values) {
      var i :| 0 <= i < |roots| && roots[i] == r;
      assert Kin(callee, t, cache, roots[i], steps[i].held);
      SameTrans(t, values[r.arg], steps[i].held, CloneCell(callee, cache, r.cell));
    }
  }

  // ---------------------------------------------------------------- what the caller keeps

  /** The mark External is cleared of no node that has it, at any step. */
  ghost predicate AllSpare(callee: seq<Node>, roots: seq<Root>, steps: seq<Step>)
    requires Valid(callee) && |roots| == |steps|
  {
    forall i | 0 <= i < |steps| :: Spares(callee, roots[i], steps[i])
  }

  /** Over a whole call the caller loses at most the mark External; it loses nothing exactly when whatever was
      external is external still, and so when the mark is never cleared of a node that has it. */
  lemma {:induction false} CallCoarsens(callee: seq<Node>, start: State, had: map<nat, Cell>, roots: seq<Root>,
                                        steps: seq<Step>)
    requires Valid(callee) && Valid(start.nodes) && Traced(callee, start, had, roots, steps)
    ensures var t := After(start, steps).nodes;
      && Onward(start.nodes, t) && |start.nodes| <= |t| && Acyclic(t) && PendingKept(start.nodes, t)
      && (Coarsens(start.nodes, t, {}) <==> ExternalsKept(start.nodes, t))
      && (AllSpare(callee, roots, steps) ==> Coarsens(start.nodes, t, {}))
      && (ArrayFree(callee) && ArrayFree(start.nodes) ==> ArrayFree(t))
  {
    hide Valid, Coarsens, StepOk, ArrayFree, Onward, PendingKept, Spares, ExternalsKept;
    if steps == [] {
      CoarsensRefl(start.nodes);
      OnwardIs(start.nodes, start.nodes);
      PendingSelf(start.nodes);
    } else {
      var k := |steps| - 1;
      var s, t := steps[k].before.nodes, steps[k].after.nodes;
      CallCoarsens(callee, start, had, roots[..k], steps[..k]);
      StepOnward(callee, roots[k], steps[k]);
      OnwardTrans(start.nodes, s, t);
      OnwardBasics(s, t);
      PendingOn(start.nodes, s, t);
      if AllSpare(callee, roots, steps) {
        assert forall i | 0 <= i < k :: roots[..k][i] == roots[i] && steps[..k][i] == steps[i];
        CoarsensTrans(start.nodes, s, t, {});
      }
    }
    OnwardBasics(start.nodes, After(start, steps).nodes);
    OnwardCoarsens(start.nodes, After(start, steps).nodes);
  }

  lemma PendingSelf(s: seq<Node>)
    ensures PendingKept(s, s)
  {
  }

  // ---------------------------------------------------------------- roots that share nothing

  /** `parts` separates what the roots reach. */
  ghost predicate Parted(callee: seq<Node>, roots: seq<Root>, parts: seq<set<nat>>)
    requires Valid(callee)
  {
    && |parts| == |roots|
    && (forall i | 0 <= i < |roots| ::
          && roots[i].cell.node < |callee| && LinkClosed(callee, parts[i])
          && Resolve(callee, roots[i].cell.node).node in parts[i])
    && (forall i, j | 0 <= i < j < |roots| :: parts[i] !! parts[j])
  }

  /** No two roots of the call reach one node. */
  ghost predicate Apart(callee: seq<Node>, roots: seq<Root>)
    requires Valid(callee)
  {
    exists parts :: Parted(callee, roots, parts)
  }

  lemma OneRootApart(callee: seq<Node>, root: Root)
    requires Valid(callee) && root.cell.node < |callee|
    ensures Apart(callee, [root])
  {
    ValidAcyclic(callee);
    var all := set n: nat | n < |callee| && Named(n);
    forall x: nat, f | x in all && x < |callee| && f in callee[x].links
      ensures Resolve(callee, callee[x].links[f].node).node in all
    {
      LinkInBounds(callee, x, f);
    }
    hide Valid;
    assert Parted(callee, [root], [all]);
  }

  /** Everything cached was reached from some root so far. */
  ghost predicate Covered(cache: Cache, parts: seq<set<nat>>) {
    forall x | x in cache :: exists i :: 0 <= i < |parts| && x in parts[i]
  }

  /** Nothing was taken from the cache. */
  ghost predicate NoneReused(callee: seq<Node>, roots: seq<Root>, steps: seq<Step>)
    requires Valid(callee) && |roots| == |steps|
  {
    forall i | 0 <= i < |steps| :: forall x | x in steps[i].known :: !Reused(callee, roots[i], steps[i], x)
  }

  /** If nothing was taken from the cache, everything is in place. */
  lemma {:induction false} NoneInPlace(callee: seq<Node>, start: State, had: map<nat, Cell>, roots: seq<Root>,
                                       steps: seq<Step>, t: seq<Node>)
    requires Valid(callee) && Traced(callee, start, had, roots, steps) && Onward(After(start, steps).nodes, t)
    requires NoneReused(callee, roots, steps)
    ensures AllInPlace(callee, roots, steps, t)
  {
    hide Valid, StepOk, Onward, Reused, Seated;
    if steps != [] {
      var k := |steps| - 1;
      StepOnward(callee, roots[k], steps[k]);
      OnwardTrans(steps[k].before.nodes, steps[k].after.nodes, t);
      assert forall i | 0 <= i < k :: roots[..k][i] == roots[i] && steps[..k][i] == steps[i];
      NoneInPlace(callee, start, had, roots[..k], steps[..k], t);
      StepSeats(callee, roots[k], steps[k], t);
      forall i | 0 <= i < |steps| ensures StepInPlace(callee, roots[i], steps[i], t) {
        if i < k {
          assert StepInPlace(callee, roots[..k][i], steps[..k][i], t);
        }
      }
    }
  }

  /** Roots that share nothing take nothing from the cache. */
  lemma {:induction false} CallApart(callee: seq<Node>, start: State, had: map<nat, Cell>, roots: seq<Root>,
                                     steps: seq<Step>, parts: seq<set<nat>>)
    requires Valid(callee) && Valid(start.nodes) && Traced(callee, start, had, roots, steps)
    requires Parted(callee, roots, parts)
    ensures NoneReused(callee, roots, steps) && AllSpare(callee, roots, steps)
    ensures Covered(Known(steps), parts) && LinkClosed(callee, Known(steps).Keys)
  {
    hide Valid, StepOk, Covered, LinkClosed, Acyclic, Resolve, Reused, Spares;
    ValidAcyclic(callee);
    if steps == [] {
      NothingCovered(callee, parts);
      assert Known(steps).Keys == {};
    } else {
      var k := |steps| - 1;
      PartedFront(callee, roots, parts);
      CallApart(callee, start, had, roots[..k], steps[..k], parts[..k]);
      StepApart(callee, roots[k], steps[k], parts, k);
    }
  }

  lemma NothingCovered(callee: seq<Node>, parts: seq<set<nat>>)
    requires Valid(callee)
    ensures Covered(map[], parts) && LinkClosed(callee, {})
  {
  }

  lemma PartedFront(callee: seq<Node>, roots: seq<Root>, parts: seq<set<nat>>)
    requires Valid(callee) && roots != [] && Parted(callee, roots, parts)
    ensures var k := |roots| - 1; |parts| == k + 1 && Parted(callee, roots[..k], parts[..k])
  {
    hide Valid, LinkClosed;
  }

  lemma StepApart(callee: seq<Node>, root: Root, step: Step, parts: seq<set<nat>>, k: nat)
    requires Valid(callee) && StepOk(callee, root, step) && k + 1 == |parts| && LinkClosed(callee, parts[k])
    requires root.cell.node < |callee| && Resolve(callee, root.cell.node).node in parts[k]
    requires forall i | 0 <= i < k :: parts[i] !! parts[k]
    requires Covered(step.known, parts[..k]) && LinkClosed(callee, step.known.Keys)
    ensures (forall x | x in step.known :: !Reused(callee, root, step, x)) && Spares(callee, root, step)
    ensures Covered(step.now, parts) && LinkClosed(callee, step.now.Keys)
  {
    hide Valid, Later, Same, Redirected, Flush, Grafted, LinkClosed, OnlyReached, LinkedAnew, Acyclic;
    hide Resolve, Covered, Held;
    ValidAcyclic(callee);
    var r, known, now := Resolve(callee, root.cell.node).node, step.known, step.now;
    GraftedBasics(callee, step.before.nodes, step.cloned.nodes, known, now, r, root.formal);
    ReachedWithin(callee, r, known, now, parts[k]);
    CoveredOn(known, now, parts, k);
    NotLinked(callee, known, now, parts[k]);
    GraftedClosed(callee, step.before.nodes, step.cloned.nodes, known, now, r, root.formal);
  }

  lemma CoveredOn(known: Cache, now: Cache, parts: seq<set<nat>>, k: nat)
    requires k < |parts| && Covered(known, parts[..k]) && forall i | 0 <= i < k :: parts[i] !! parts[k]
    requires forall x | x in now && x !in known :: x in parts[k]
    ensures Covered(now, parts) && forall x | x in known :: x !in parts[k]
  {
    forall x | x in known ensures x !in parts[k] && exists i :: 0 <= i < |parts| && x in parts[i] {
      var i :| 0 <= i < |parts[..k]| && x in parts[..k][i];
      assert parts[i] !! parts[k] && x in parts[i];
    }
  }

  lemma ReachedWithin(callee: seq<Node>, r: nat, known: Cache, now: Cache, part: set<nat>)
    requires Valid(callee) && OnlyReached(callee, r, known, now) && LinkClosed(callee, known.Keys)
    requires LinkClosed(callee, part) && r in part
    ensures forall x | x in now && x !in known :: x in part
  {
    hide Valid;
    assert LinkClosed(callee, known.Keys + part);
  }

  lemma NotLinked(callee: seq<Node>, known: Cache, now: Cache, part: set<nat>)
    requires Valid(callee) && LinkClosed(callee, part) && forall x | x in now && x !in known :: x in part
    requires forall x | x in known :: x !in part
    ensures forall x | x in known :: !LinkedAnew(callee, known, now, x)
  {
    hide Valid;
  }

  lemma GraftedClosed(callee: seq<Node>, s: seq<Node>, u: seq<Node>, known: Cache, now: Cache, r: nat, formal: bool)
    requires Valid(callee) && Grafted(callee, s, u, known, now, r, formal) && LinkClosed(callee, known.Keys)
    ensures LinkClosed(callee, now.Keys)
  {
    hide Valid;
    forall x: nat, f | x in now.Keys && x < |callee| && f in callee[x].links
      ensures callee[x].links[f].node < |callee| && Acyclic(callee)
      ensures Resolve(callee, callee[x].links[f].node).node in now.Keys
    {
      LinkInBounds(callee, x, f);
      if x !in known {
        assert Graft(callee, u, now, x, formal && x == r);
        CopiedLink(callee, u, now, x, f);
      }
    }
  }
}
