/** Inputs on which the code does not do what one would expect. */
module Findings {
  import opened Layout
  import opened PointsTo
  import opened Forwarding
  import opened Steps
  import opened EngineFacts
  import opened MergeFacts
  import opened MergeLaws
  import opened CleanupFacts
  import opened Engine
  import opened Cloning
  import opened Candidates
  import opened Coarsening
  import opened Marks
  import opened Composition
  import opened Calls
  import opened BottomUp
  import opened Gep
  import opened Strides
  import opened Mapper
  import opened Propagation
  import Transfers

  /** An array of 8-byte elements. */
  const SHORT_ARRAY := BLANK.(isArray := true, size := 8)

  /** An object with a 16-byte access and one allocation site. */
  function Whole(site: Site): Node {
    BLANK.(size := 16, types := {Access(0, Prim(0, 16, false))}, sites := {site})
  }

  /** Merging the object into the array loses its allocation site: the array collapses
      while the access is recorded, and the site goes to the node that was the array. */
  method LosesSite(site: Site) returns (g: Graph)
    ensures fresh(g) && Valid(g.nodes) && |g.nodes| >= 2
    ensures Same(g.nodes, Cell(0, 0), Cell(1, 0)) && site !in g.nodes[Resolve(g.nodes, 1).node].sites
  {
    hide Later, Valid, Merged, Aligned, KeepsMap;
    g := new Graph();
    g.nodes := [SHORT_ARRAY, Whole(site)];
    TwoNodes(g.nodes);
    ghost var s := g.Now();
    g.UnifyAt(0, 1, 0);
    SiteGone(s, g.Now(), site);
  }

  /** An array of 4-byte elements. */
  const SHORTER_ARRAY := BLANK.(isArray := true, size := 4)

  /** Asked to make the array with the smaller stride begin at the other, the engine empties the other into it. */
  method ExchangesRoles() returns (after: seq<Node>)
    ensures |after| == 2 && after[0].fwd == Some(Cell(1, 0)) && IsRep(after, 1) && after[1].size == 4
  {
    hide Later, Valid, Aligned, KeepsMap;
    var g := new Graph();
    g.nodes := [SHORT_ARRAY, SHORTER_ARRAY];
    TwoNodes(g.nodes);
    ghost var s := g.Now();
    g.UnifyAt(0, 1, 0);
    RolesExchanged(s, g.Now());
    after := g.nodes;
  }

  lemma RolesExchanged(s: State, t: State)
    requires s.nodes == [SHORT_ARRAY, SHORTER_ARRAY] && Merged(s, t, 0, 1, 0)
    ensures var after := t.nodes;
      |after| == 2 && after[0].fwd == Some(Cell(1, 0)) && IsRep(after, 1) && after[1].size == 4
  {
    assert Decide(SHORT_ARRAY, SHORTER_ARRAY, false, 0) == Exchange;
    assert Absorbed(s, t, 1, 0, 0) && Calm(SHORTER_ARRAY, 0, SHORT_ARRAY);
    assert AbsorbedOnly(s, t, 0, 1, 0);
  }

  lemma SiteGone(s: State, t: State, site: Site)
    requires s.nodes == [SHORT_ARRAY, Whole(site)] && Later(s, t, {}) && Merged(s, t, 0, 1, 0)
    requires Acyclic(t.nodes) ==> Aligned(t.nodes, 0, 1, 0)
    ensures Acyclic(t.nodes) && |t.nodes| >= 2 && Same(t.nodes, Cell(0, 0), Cell(1, 0))
    ensures site !in t.nodes[Resolve(t.nodes, 1).node].sites
  {
    LaterBasics(s, t, {});
    hide Later;
    assert Same(t.nodes, Cell(1, 0), Cell(0, 0 + 0));
    assert Access(0, Prim(0, 16, false)) in s.nodes[1].types;
    assert Absorbed(s, t, 0, 1, 0);
    assert Resolve(s.nodes, 0) == Cell(0, 0);
  }

  lemma TwoNodes(ns: seq<Node>)
    requires |ns| == 2 && forall i | 0 <= i < 2 :: ns[i].fwd.None? && ns[i].links == map[] && SoundNode(ns[i])
    ensures Valid(ns)
  {
    assert IsRank(ns, [0, 0]);
  }

  /** A node with two typed links at one offset, and the two nodes they lead to. */
  const TWO_LINKS := [
    BLANK.(size := 8, types := {Access(0, Prim(0, 8, true))},
           links := map[Field(0, Of(1)) := Cell(1, 0), Field(0, Of(2)) := Cell(2, 0)]),
    BLANK, BLANK]

  lemma TwoLinksValid()
    ensures Valid(TWO_LINKS) && Direct(TWO_LINKS, {}, {Cell(0, 0)}) && !Evenly(TWO_LINKS[0], (n: nat) => n == 2)
  {
    var ns := TWO_LINKS;
    assert IsRank(ns, [0, 0, 0]);
    assert Access(0, Prim(0, 8, true)) in ns[0].types;
    assert SoundNode(ns[0]) && SoundNode(BLANK);
    assert Field(0, Of(1)) in ns[0].links && Field(0, Of(2)) in ns[0].links;
  }

  /** Removing the second of the two nodes removes the access that the link to the first relies on. */
  method BreaksNode() returns (before: seq<Node>, after: seq<Node>)
    ensures Valid(before) && Direct(before, {}, {Cell(0, 0)}) && |before| == |after| == 3
    ensures Field(0, Of(1)) in after[0].links && !Valid(after)
  {
    hide Valid, Evenly, Reached, Used, NodesOf, Spared, SoundNode;
    TwoLinksValid();
    var g := new Graph();
    assert g.formals.Values == {} && g.retCells.Values == {};
    g.nodes, g.values := TWO_LINKS, map[0 := Cell(0, 0)];
    before := g.nodes;
    assert g.values.Values == {Cell(0, 0)} by { assert g.values[0] == Cell(0, 0); }
    assert g.Roots() == {Cell(0, 0)};
    g.RemoveNodes((n: nat) => n == 2);
    assert g.values[0] == Cell(0, 0) && Cell(0, 0) in g.Roots();
    after := g.nodes;
  }

  /** A GEP that goes one element of ten back and then steps by a variable index. */
  lemma BackWithStride()
    ensures var elem := Array(Prim(0, 8, false), 10); var indices := [Const(-1), Var];
      && WellIndexed(Behind(elem), indices)
      && FixedOffset(elem, indices) == -80
      && forall nd, off: nat :: off >= 80 ==> (Exact(nd, off, elem, indices) <==> Divides(Period(nd), 8))
  {
    var elem := Array(Prim(0, 8, false), 10);
    var indices := [Const(-1), Var];
    var rest := indices[1..];
    assert rest == [Var] && rest[1..] == [];
    assert WellIndexed(Inside(elem), rest);
    assert Zeros(2)[1..] == Zeros(1) && Zeros(1)[1..] == [];
    assert TrueOffset(Inside(elem), rest, Zeros(1)) == 0;
    forall d: nat ensures StridesDivided(Behind(elem), indices, d) <==> Divides(d, 8) {
      assert StridesDivided(Inside(elem), rest, d) <==> Divides(d, 8);
    }
  }

  /** On a plain object of any size that GEP gets one cell for addresses that are not one cell. */
  method BackMisses(size: nat, off: nat) returns (after: seq<Node>, gep: Cell)
    requires off >= 80
    ensures var elem := Array(Prim(0, 8, false), 10); var indices := [Const(-1), Var];
      && WellIndexed(Behind(elem), indices) && Valid(after) && |after| > 0 && gep.node < |after|
      && !OneCell(after, gep, Cell(0, off), elem, indices)
  {
    hide Exact, OneCell, TrueOffset, WellIndexed, FixedOffset, Divides;
    BackWithStride();
    var nd := BLANK.(size := size);
    AloneValid(nd);
    hide Valid;
    var g := new Graph();
    g.nodes := Alone(nd);
    PlainPeriod(nd);
    gep := VisitGep(g, Cell(0, off), Array(Prim(0, 8, false), 10), [Const(-1), Var]);
    after := g.nodes;
  }

  lemma PlainPeriod(nd: Node)
    requires !nd.isCollapsed && !nd.isArray
    ensures !Divides(Period(nd), 8) && forall k :: Adjust(nd, k) == k
  {
  }

  /** A link at an offset where no access was recorded, on a node of no size. */
  const LOOSE_LINK := BLANK.(links := map[Field(4, Unknown) := Cell(0, 0)])

  /** Collapsed in place, as a node of size at most 1 is, such a node keeps the link under offset 4, where no field
      looks any more: the edge is lost. */
  lemma LooseLinkLost()
    ensures var s := [LOOSE_LINK]; var t := s[0 := s[0].(size := 1, isCollapsed := true, isArray := false)];
      && Acyclic(s) && HasEdge(s, 0, Field(4, Unknown), Cell(0, 0))
      && Acyclic(t) && !HasEdge(t, 0, Field(4, Unknown), Cell(0, 0))
  {
    var s := [LOOSE_LINK];
    var t := s[0 := s[0].(size := 1, isCollapsed := true, isArray := false)];
    assert IsRank(s, [0]) && IsRank(t, [0]);
  }

  // ---------------------------------------------------------------- root offsets that wrap

  /** One node alone. */
  function Alone(nd: Node): seq<Node> {
    [nd]
  }

  lemma AloneValid(nd: Node)
    requires nd.fwd.None? && nd.links == map[] && SoundNode(nd)
    ensures Valid(Alone(nd)) && Resolve(Alone(nd), 0) == Cell(0, 0)
  {
    assert IsRank(Alone(nd), [0]);
  }

  /** A callee cell at offset 8 of 12 bytes, tied to offset 3 of an array of stride 10: the difference wraps,
      the 32-bit sum passes the test, and the decision is not "up" although nothing simulates the callee. */
  method WrappedRootAccepted() returns (d: Direction)
    ensures var callee, caller := Alone(BLANK.(size := 12)), Alone(BLANK.(isArray := true, size := 10));
      var ties := [Tie(Some(Cell(0, 8)), Some(Cell(0, 3)))];
      && Valid(callee) && Valid(caller) && TiesInBounds(callee, caller, ties)
      && d != Up && !exists w :: Simulates(callee, caller, w, ties)
  {
    var x, y := BLANK.(size := 12), BLANK.(isArray := true, size := 10);
    AloneValid(x);
    AloneValid(y);
    hide Valid, Admits, Functional, Simulates, SoundRoots, NoneWraps, Alone;
    WrapAdmitted(x, y);
    ghost var ties := [Tie(Some(Cell(0, 8)), Some(Cell(0, 3)))];
    assert ties[0].callee == Some(Cell(0, 8)) && ties[0].caller == Some(Cell(0, 3));
    d := DecidePropagation(Alone(x), Alone(y), [Tie(Some(Cell(0, 8)), Some(Cell(0, 3)))]);
    forall v ensures !Simulates(Alone(x), Alone(y), v, [Tie(Some(Cell(0, 8)), Some(Cell(0, 3)))]) {
      NothingSimulates(x, y, v);
    }
  }

  lemma NothingSimulates(x: Node, y: Node, v: Relation)
    requires x == BLANK.(size := 12) && y == BLANK.(isArray := true, size := 10)
    requires Valid(Alone(x)) && Valid(Alone(y)) && Resolve(Alone(x), 0) == Cell(0, 0)
    requires Resolve(Alone(y), 0) == Cell(0, 0)
    ensures !Simulates(Alone(x), Alone(y), v, [Tie(Some(Cell(0, 8)), Some(Cell(0, 3)))])
  {
    if Simulates(Alone(x), Alone(y), v, [Tie(Some(Cell(0, 8)), Some(Cell(0, 3)))]) {
      OneTieSimulated(Alone(x), Alone(y), v, Cell(0, 8), Cell(0, 3));
    }
  }

  lemma WrapAdmitted(x: Node, y: Node)
    requires x == BLANK.(size := 12) && y == BLANK.(isArray := true, size := 10)
    requires Valid(Alone(x)) && Valid(Alone(y)) && Resolve(Alone(x), 0) == Cell(0, 0)
    requires Resolve(Alone(y), 0) == Cell(0, 0)
    ensures exists w :: Admits(Alone(x), Alone(y), w, map[], Some(Cell(0, 8)), Some(Cell(0, 3))) && Functional(w)
  {
    hide Valid;
    var w: Relation := map[(0, 0) := 1];
    assert Sub32(3, 8) == 4294967291 && 4294967291 % 10 == 1;
    assert Admits(Alone(x), Alone(y), w, map[], Some(Cell(0, 8)), Some(Cell(0, 3)));
    assert Functional(w);
  }

  /** A callee cell at offset 8 of 20 bytes, tied to offset 4 of an array of stride 12: a simulation is found,
      but it puts the first cell on offset 8 of the array and not on the second. */
  method WrappedRootMisses() returns (m: SimulationMapper, ok: bool)
    ensures m.src == Alone(BLANK.(size := 20)) && m.dst == Alone(BLANK.(isArray := true, size := 12))
    ensures Valid(m.src) && Valid(m.dst) && ok && IsSimulation(m.src, m.dst, Rel(m.sim))
    ensures !Covers(m.src, m.dst, Rel(m.sim), Some(Cell(0, 8)), Some(Cell(0, 4)))
  {
    var x, y := BLANK.(size := 20), BLANK.(isArray := true, size := 12);
    AloneValid(x);
    AloneValid(y);
    MissAdmitted(x, y);
    hide Valid, Admits, Covers, Seats, RootFits, RootLands, NoWrap, IsSimulation, InWord, Alone;
    m := new SimulationMapper(Alone(x), Alone(y));
    EmptyStarts(Alone(x), Alone(y));
    ok := m.InsertCell(Some(Cell(0, 8)), Some(Cell(0, 4)));
  }

  lemma MissAdmitted(x: Node, y: Node)
    requires x == BLANK.(size := 20) && y == BLANK.(isArray := true, size := 12)
    requires Valid(Alone(x)) && Valid(Alone(y)) && Resolve(Alone(x), 0) == Cell(0, 0)
    requires Resolve(Alone(y), 0) == Cell(0, 0)
    ensures InBounds(Alone(x), Some(Cell(0, 8))) && InBounds(Alone(y), Some(Cell(0, 4)))
    ensures exists w :: Admits(Alone(x), Alone(y), w, map[], Some(Cell(0, 8)), Some(Cell(0, 4)))
    ensures RootFits(Alone(x), Alone(y), Some(Cell(0, 8)), Some(Cell(0, 4))) && InWord(Alone(x), Some(Cell(0, 8)))
    ensures !RootLands(Alone(x), Alone(y), Some(Cell(0, 8)), Some(Cell(0, 4)))
  {
    hide Valid;
    var w: Relation := map[(0, 0) := 0];
    assert Sub32(4, 8) == 4294967292 && 4294967292 % 12 == 0 && WORD % 12 == 4;
    assert Admits(Alone(x), Alone(y), w, map[], Some(Cell(0, 8)), Some(Cell(0, 4)));
  }

  // ---------------------------------------------------------------- a truncated memo key

  /** 2^29 words followed by a pointer. */
  const HUGE := Struct([Member(0, Array(Prim(0, 8, false), 0x2000_0000)), Member(WORD, Prim(1, 8, true))], WORD + 8)

  lemma HugeLeaves()
    ensures Transfers.InOrder(HUGE) && SizeOf(HUGE) == WORD + 8
    ensures var all := Transfers.LeavesOf(HUGE);
      |all| > 1 && all[0] == Prim(0, 8, false) && all[|all| - 1] == Prim(1, 8, true)
  {
    var words, last := Array(Prim(0, 8, false), 0x2000_0000), Prim(1, 8, true);
    assert SizeOf(words) == WORD && Transfers.InOrder(words.elem) && Transfers.InOrder(words) &&
           Transfers.InOrder(last);
    assert Parts(HUGE)[0].ty == words && Parts(HUGE)[1].ty == last;
    Transfers.LeavesNext(words, 0);
    Transfers.LeavesNext(HUGE, 0);
    Transfers.LeavesNext(HUGE, 1);
    assert Transfers.LeavesOf(last) == [last] && Transfers.LeavesOf(words.elem) == [words.elem];
    assert Transfers.LeavesOf(words) == [words.elem] + Transfers.LeavesFrom(words, 1);
    assert Transfers.LeavesOf(HUGE) == Transfers.LeavesOf(words) + [last];
  }

  /** Asked about 8 bytes and then about all of it, the analysis takes the second for pointer-free too;
      a fresh walk does not. */
  method MemoMisleadsAtEight() returns (r: bool)
    ensures r && WORD + 8 <= SizeOf(HUGE) && Transfers.MeetsPointer(HUGE, WORD + 8)
  {
    HugeWalks();
    hide SizeOf, Transfers.MeetsPointer;
    var analysis := new Transfers.TransferAnalysis();
    r := analysis.TransfersNoPointers(Some(HUGE), Some(8));
    r := analysis.TransfersNoPointers(Some(HUGE), Some(WORD + 8));
  }

  lemma HugeWalks()
    ensures SizeOf(HUGE) == WORD + 8 && !Transfers.MeetsPointer(HUGE, 8) && Transfers.MeetsPointer(HUGE, WORD + 8)
  {
    HugeLeaves();
    hide Transfers.LeavesOf, SizeOf;
    var all := Transfers.LeavesOf(HUGE);
    var one := all[..1];
    assert one[..0] == [] && one[0] == Prim(0, 8, false);
    assert Transfers.Packed(one) == SizeOf(Prim(0, 8, false)) by { WordSize(); }
    WordSize();
    assert Transfers.ReachesLeaf(HUGE, |all| - 1, WORD + 8);
  }

  lemma WordSize()
    ensures SizeOf(Prim(0, 8, false)) == 8
  {
  }

  // ---------------------------------------------------------------- one callee node, two actuals

  /** A node that is neither an array nor collapsed. */
  predicate PlainRep(nd: Node) {
    nd.fwd.None? && !nd.isArray && !nd.isCollapsed
  }

  /** An object about which nothing is known but some flags. */
  function Marked(marks: set<Mark>): Node {
    BLANK.(marks := marks)
  }

  const FIRST := Root(Cell(0, 0), 1, true)
  const SECOND := Root(Cell(0, 0), 2, true)

  /** Two formals hold one callee node; the first is bound to offset `k` of an object and the second to a scalar that
      has no cell yet.  The second gets the start of the object, so the facts still have to flow up unless `k` is 0;
      and the object is no longer external, if it was. */
  method BoundTwice(k: nat, marks: set<Mark>) returns (d: Direction, after: seq<Node>, ghost steps: seq<Step>)
    ensures d == Up <==> k > 0
    ensures Coarsens(Alone(Marked(marks)), after, {}) <==> External !in marks
  {
    hide Valid, Apart, AllInPlace, AllSpare, StepOk, Coarsens, Flattened, Later, Traced, Acyclic, Onward, ExternalsKept;
    hide PendingKept, Straightened;
    AloneValid(BLANK);
    AloneValid(Marked(marks));
    var g := new Graph();
    g.nodes, g.values := Alone(Marked(marks)), map[1 := Cell(0, k)];
    ghost var start, had, dropped := g.Now(), g.values, g.dropped;
    assert g.formals.Values == {} && g.retCells.Values == {};
    d, steps := PropagateBottomUp(Alone(BLANK), g, [FIRST, SECOND], []);
    after := g.nodes;
    TwoSteps(start, had, steps, k, marks);
    SecondFresh(steps[0], steps[1], k);
    FlatPair(steps[1].after.nodes, after, dropped);
    ValidAcyclic(start.nodes);
    TwiceInPlace(steps, after, k, marks);
    OneExternal(after, marks);
    NoArrays(marks);
  }

  /** Two actuals that are one cell: the object is merged with itself at another offset and collapses, so nothing has
      to flow up although the clone was taken from the cache out of place. */
  method BoundTwiceToOne(k: nat) returns (d: Direction, ghost steps: seq<Step>)
    ensures d != Up && |steps| == 2 && steps[1].known.Keys == {0} && Seated(steps[1].before.nodes, steps[1].known)
    ensures k > 0 ==> !Flush(steps[1].before.nodes, steps[1].known, 0)
  {
    hide Valid, Apart, AllInPlace, AllSpare, StepOk, Coarsens, Flattened, Later, Traced, Acyclic, Onward, ExternalsKept;
    hide PendingKept, Straightened, Flush, Seated;
    AloneValid(BLANK);
    assert Marked({}) == BLANK;
    var g := new Graph();
    g.nodes, g.values := Alone(BLANK), map[1 := Cell(0, k), 2 := Cell(0, k)];
    ghost var start, had, dropped := g.Now(), g.values, g.dropped;
    assert g.formals.Values == {} && g.retCells.Values == {};
    d, steps := PropagateBottomUp(Alone(BLANK), g, [FIRST, SECOND], []);
    TwoSteps(start, had, steps, k, {});
    NoArrays({});
    SecondMerged(steps[0], steps[1], k);
    ValidAcyclic(start.nodes);
    StillThere(steps[1].after.nodes, g.nodes, dropped);
    TwiceMerged(steps, g.nodes, k);
  }

  lemma OneExternal(t: seq<Node>, marks: set<Mark>)
    requires Acyclic(t) && |t| > 1 && Resolve(t, 0) == Cell(0, 0) && t[0].marks == marks - {External}
    ensures ExternalsKept(Alone(Marked(marks)), t) <==> External !in marks
  {
    assert IsRep(Alone(Marked(marks)), 0);
  }

  lemma NoArrays(marks: set<Mark>)
    ensures ArrayFree(Alone(BLANK)) && ArrayFree(Alone(Marked(marks)))
  {
  }

  lemma TwoSteps(start: State, had: map<nat, Cell>, steps: seq<Step>, k: nat, marks: set<Mark>)
    requires Valid(Alone(BLANK)) && Traced(Alone(BLANK), start, had, [FIRST, SECOND], steps)
    requires start.nodes == Alone(Marked(marks)) && 1 in had && had[1] == Cell(0, k)
    ensures |steps| == 2 && After(start, steps) == steps[1].after && steps[0].before == start
    ensures FirstDone(steps[0], k, marks) && SecondStarts(steps[0], steps[1], k)
    ensures StepOk(Alone(BLANK), SECOND, steps[1]) && steps[1].values == had[1 := Cell(0, k)]
  {
    hide Valid, StepOk;
    FirstOf(start, had, steps);
    FirstBound(steps[0], k, marks);
    SecondStart(steps[0], steps[1], k, marks);
  }

  /** The two steps of the call. */
  lemma FirstOf(start: State, had: map<nat, Cell>, steps: seq<Step>)
    requires Valid(Alone(BLANK)) && Traced(Alone(BLANK), start, had, [FIRST, SECOND], steps)
    ensures |steps| == 2 && After(start, steps) == steps[1].after
    ensures StepOk(Alone(BLANK), FIRST, steps[0]) && StepOk(Alone(BLANK), SECOND, steps[1])
    ensures steps[0].before == start && steps[0].known == map[] && steps[0].values == had
    ensures steps[1].before == steps[0].after && steps[1].known == steps[0].now
    ensures steps[1].values == had[1 := steps[0].held]
  {
    hide Valid, StepOk;
    assert [FIRST, SECOND][..1] == [FIRST] && [FIRST][..0] == [] && steps[..1][..0] == [];
    assert steps[..1][0] == steps[0] && Traced(Alone(BLANK), start, had, [FIRST], steps[..1]);
  }

  /** The first clone forwards to offset `k` of the object. */
  ghost predicate FirstDone(step: Step, k: nat, marks: set<Mark>) {
    && step.known == map[] && step.now.Keys == {0} && step.now[0].0 == 1 && step.held == Cell(0, k)
    && var t := step.after.nodes;
       |t| == 2 && PlainRep(t[0]) && t[0].marks == marks && t[1] == BLANK.(fwd := Some(Cell(0, k)))
  }

  lemma FirstBound(step: Step, k: nat, marks: set<Mark>)
    requires Valid(Alone(BLANK)) && StepOk(Alone(BLANK), FIRST, step) && step.before.nodes == Alone(Marked(marks))
    requires 1 in step.values && step.values[1] == Cell(0, k) && step.known == map[]
    ensures FirstDone(step, k, marks)
  {
    hide Valid, Later, Same;
    var u, now := step.cloned.nodes, step.now;
    AloneValid(BLANK);
    FirstClone(u, now, marks);
    assert Redirected(Alone(BLANK), u, now, Cell(0, 0)) == Cell(1, 0);
    assert MergedCells(step.cloned, step.after, Cell(0, k), Cell(1, 0));
    hide Grafted, OnlyReached, StepOk, Redirected;
    MarkedTakes(u[0], u[1], k);
    assert AbsorbedOnly(step.cloned, step.after, 1, 0, k);
    assert marks + {} == marks;
  }

  lemma MarkedTakes(x: Node, nd: Node, k: nat)
    requires x == Marked(x.marks) && nd == BLANK.(isForeign := true)
    ensures Calm(x, k, nd) && Adjust(x, k) == k && Decide(x, nd, false, k) == Absorb
  {
  }

  lemma MadeBy(known: Cache, now: Cache, low: nat, high: nat, m: nat)
    requires FreshClones(known, now, low, high) && low <= m < high
    ensures exists x :: x in now && x !in known && now[x].0 == m
  {
    assert NewClone(known, now, m);
  }

  lemma FirstClone(u: seq<Node>, now: Cache, marks: set<Mark>)
    requires Valid(Alone(BLANK)) && Resolve(Alone(BLANK), 0) == Cell(0, 0)
    requires Grafted(Alone(BLANK), Alone(Marked(marks)), u, map[], now, 0, true)
    ensures |u| == 2 && u[0] == Marked(marks) && u[1] == BLANK.(isForeign := true) && now.Keys == {0} && now[0].0 == 1
    ensures Seated(u, now) && Seat(u, now, 0) == Cell(1, 0)
  {
    hide Valid;
    assert Graft(Alone(BLANK), u, now, 0, true);
    assert 1 <= now[0].0 < |u|;
    forall x | x in now ensures x == 0 { assert Graft(Alone(BLANK), u, now, x, x == 0); }
    if |u| > 2 {
      MadeBy(map[], now, 1, |u|, 1);
      MadeBy(map[], now, 1, |u|, 2);
    }
    assert u[1].links == map[];
    assert BLANK.marks - {External} == {} && OffStack({}) == {};
  }

  /** The second step takes the clone from the cache, and clears the mark of the object that holds it. */
  ghost predicate SecondStarts(first: Step, step: Step, k: nat) {
    && step.before == first.after && step.known == first.now && 0 in step.known && 0 in step.now
    && Seated(step.before.nodes, step.known) && Seat(step.before.nodes, step.known, 0) == Cell(0, k)
    && var u := step.cloned.nodes;
       && |u| == 2 && PlainRep(u[0]) && u[1] == BLANK.(fwd := Some(Cell(0, k)))
       && u[0].marks == step.before.nodes[0].marks - {External}
       && Seated(u, step.now) && Seat(u, step.now, 0) == Cell(0, k)
  }

  lemma SecondStart(first: Step, step: Step, k: nat, marks: set<Mark>)
    requires Valid(Alone(BLANK)) && StepOk(Alone(BLANK), SECOND, step) && FirstDone(first, k, marks)
    requires step.before == first.after && step.known == first.now
    ensures SecondStarts(first, step, k)
  {
    hide Valid, Later, Same, Redirected;
    AloneValid(BLANK);
    SecondClone(step.before.nodes, step.cloned.nodes, step.known, step.now, k);
  }

  lemma SecondClone(s: seq<Node>, u: seq<Node>, known: Cache, now: Cache, k: nat)
    requires Valid(Alone(BLANK)) && |s| == 2 && PlainRep(s[0]) && s[1] == BLANK.(fwd := Some(Cell(0, k)))
    requires known.Keys == {0} && known[0].0 == 1 && Grafted(Alone(BLANK), s, u, known, now, 0, true)
    ensures |u| == 2 && u[0] == s[0].(marks := s[0].marks - {External}) && u[1] == s[1]
    ensures Seated(s, known) && Seat(s, known, 0) == Cell(0, k)
    ensures Seated(u, now) && 0 in now && Seat(u, now, 0) == Cell(0, k)
  {
    hide Valid;
    forall x | x in now ensures x == 0 {
      if x !in known {
        assert Graft(Alone(BLANK), u, now, x, x == 0);
      }
    }
    if |u| > 2 {
      MadeBy(known, now, 2, |u|, 2);
    }
    assert Seat(s, known, 0) == Cell(0, k);
    assert u[1] == s[1];
  }

  /** A scalar without a cell gets the start of the object. */
  lemma SecondFresh(first: Step, step: Step, k: nat)
    requires Valid(Alone(BLANK)) && StepOk(Alone(BLANK), SECOND, step) && SecondStarts(first, step, k)
    requires 2 !in step.values
    ensures var t := step.after.nodes;
      |t| == 2 && t[0] == step.cloned.nodes[0] && Acyclic(t) && Resolve(t, 1) == Cell(0, k)
  {
    hide Valid, Later, Same, Grafted, OnlyReached, Redirected;
    var u, t := step.cloned.nodes, step.after.nodes;
    assert Compressed(u, t);
    assert t[0] == u[0].(fwd := t[0].fwd);
    assert Resolve(u, 1) == Cell(0, k);
  }

  /** The clone is in place if it begins where the object begins, or the object has collapsed. */
  lemma TwiceInPlace(steps: seq<Step>, t: seq<Node>, k: nat, marks: set<Mark>)
    requires Valid(Alone(BLANK)) && |steps| == 2 && FirstDone(steps[0], k, marks) && SecondStarts(steps[0], steps[1], k)
    requires Acyclic(steps[0].before.nodes) && Acyclic(t) && |t| > 1 && Resolve(t, 1) == Cell(0, k)
    ensures AllInPlace(Alone(BLANK), [FIRST, SECOND], steps, t) <==> k == 0 || t[0].isCollapsed
    ensures Flush(steps[1].before.nodes, steps[1].known, 0) <==> k == 0
  {
    hide Valid, LinkedAnew;
    AloneValid(BLANK);
    var step := steps[1];
    RootReused(Alone(BLANK), SECOND, step);
    assert Seat(t, step.known, 0) == Cell(0, k);
    assert StepInPlace(Alone(BLANK), SECOND, step, t) <==> k == 0 || t[0].isCollapsed;
    assert StepInPlace(Alone(BLANK), FIRST, steps[0], t);
    assert [FIRST, SECOND][0] == FIRST && [FIRST, SECOND][1] == SECOND;
  }

  lemma FlatPair(s: seq<Node>, t: seq<Node>, dropped: set<nat>)
    requires |s| == 2 && Flattened(s, t, dropped, |s|) && IsRep(s, 0)
    ensures Acyclic(s) && Acyclic(t) && |t| == 2 && Resolve(t, 1) == Resolve(s, 1) && Resolve(t, 0) == Cell(0, 0)
    ensures t[0].isCollapsed == s[0].isCollapsed && t[0].marks == s[0].marks
  {
    FlatNode(s, t, dropped, 0);
    FlatNode(s, t, dropped, 1);
    FlatRep(s, t, dropped, 0);
  }

  /** Merging the object with itself at another offset collapses it. */
  lemma SecondMerged(first: Step, step: Step, k: nat)
    requires Valid(Alone(BLANK)) && StepOk(Alone(BLANK), SECOND, step) && SecondStarts(first, step, k)
    requires 2 in step.values && step.values[2] == Cell(0, k)
    ensures var t := step.after.nodes; |t| > 1 && Acyclic(t) && (k > 0 ==> t[Resolve(t, 0).node].isCollapsed)
    ensures var t := step.after.nodes; Resolve(t, 1) == Shift(Resolve(t, 0), k)
  {
    hide Valid, Same, Grafted, OnlyReached;
    AloneValid(BLANK);
    var u, t := step.cloned.nodes, step.after.nodes;
    assert Resolve(u, 1) == Cell(0, k);
    assert Redirected(Alone(BLANK), u, step.now, Cell(0, 0)) == Cell(0, 0);
    assert MergedCells(step.cloned, step.after, Cell(0, k), Cell(0, 0));
    LaterBasics(step.cloned, step.after, {});
    FollowsSeat(u, t, 1);
    hide Later;
    assert Merged(step.cloned, step.after, 0, 0, k);
  }

  lemma StillThere(s: seq<Node>, t: seq<Node>, dropped: set<nat>)
    requires |s| > 1 && Flattened(s, t, dropped, |s|)
    ensures Acyclic(s) && Acyclic(t) && |t| == |s| && Resolve(t, 1) == Resolve(s, 1)
    ensures t[Resolve(t, 1).node].isCollapsed == s[Resolve(s, 1).node].isCollapsed
  {
    FlatNode(s, t, dropped, 1);
    FlatNode(s, t, dropped, Resolve(s, 1).node);
  }

  lemma TwiceMerged(steps: seq<Step>, t: seq<Node>, k: nat)
    requires Valid(Alone(BLANK)) && |steps| == 2 && FirstDone(steps[0], k, {}) && SecondStarts(steps[0], steps[1], k)
    requires Acyclic(steps[0].before.nodes) && Acyclic(t) && |t| > 1 && (k > 0 ==> t[Resolve(t, 1).node].isCollapsed)
    ensures AllInPlace(Alone(BLANK), [FIRST, SECOND], steps, t)
    ensures steps[1].known.Keys == {0} && Seated(steps[1].before.nodes, steps[1].known)
    ensures Flush(steps[1].before.nodes, steps[1].known, 0) <==> k == 0
  {
    hide Valid, LinkedAnew;
    AloneValid(BLANK);
    var step := steps[1];
    assert Seat(t, step.known, 0) == Resolve(t, 1);
    assert StepInPlace(Alone(BLANK), SECOND, step, t);
    assert StepInPlace(Alone(BLANK), FIRST, steps[0], t);
    assert [FIRST, SECOND][0] == FIRST && [FIRST, SECOND][1] == SECOND;
  }
}
