/** Bringing a callee's memory into its caller: for each root of the call, clone what it
    reaches and merge it with the caller's cell. */
module BottomUp {
  import opened PointsTo
  import opened Forwarding
  import opened Coarsening
  import opened Candidates
  import opened Steps
  import opened LinkFacts
  import opened MergeFacts
  import opened MergeLaws
  import opened CleanupFacts
  import opened Engine
  import opened Cloning
  import opened Mapper
  import opened Propagation
  import opened Marks
  import opened Composition
  import opened Calls
  import opened Outcomes

  // ---------------------------------------------------------------- cloning one root

  /** What a call of the cloner in bottom-up mode has done. */
  ghost predicate Taken(callee: seq<Node>, s: seq<Node>, t: seq<Node>, known: Cache, now: Cache, base: nat)
    requires Valid(callee)
  {
    && CacheOk(callee, t, now, now.Keys - known.Keys, {}, base)
    && Undisturbed(s, t, known) && Prolongs(s, t) && Grown(known, now) && FreshClones(known, now, |s|, |t|)
    && forall x | x in now && x !in known :: AllCopied(callee, t, now, x)
  }

  lemma RootCloned(callee: seq<Node>, s: seq<Node>, t: seq<Node>, u: seq<Node>, known: Cache, now: Cache, base: nat,
                   root: nat, formal: bool)
    requires Valid(callee) && Valid(t) && Taken(callee, s, t, known, now, base) && Seated(t, now) && root in now
    requires var r := Seat(t, now, root).node;
             u == if formal then t[r := t[r].(marks := t[r].marks - {External})] else t
    ensures Valid(u) && Grafted(callee, s, u, known, now, root, formal)
    ensures Seated(u, now) && Seat(u, now, root) == Seat(t, now, root)
  {
    var own := now.Keys - known.Keys;
    hide Valid, CacheOk, Undisturbed, AllCopied, FreshClones, Separate, Copied, Acyclic, SameShape, Graft;
    hide Remarked, Grown, Seat;
    hide SameForwarding, Prolongs, Seated, Untouched;
    SeatIn(t, now, root);
    Unexternal(t, u, Seat(t, now, root).node, formal);
    RemarkedValid(t, u);
    ValidAcyclic(t);
    RemarkedSame(t, u);
    SeatsStay(t, u, now);
    CacheSeparate(callee, t, now, own, {}, base);
    SeparateAll(now, base);
    UndisturbedSeats(s, t, known, now);
    forall x | x in now && x !in known ensures Graft(callee, u, now, x, formal && x == root) {
      NewGraft(callee, t, u, now, own, base, root, formal, x);
    }
    CachedIfOwn(callee, t, now, own, base, root);
    OldOrNew(s, t, known, now, own, root);
    OldNodes(s, t, u, known, now, root, formal);
    GraftedIs(callee, s, u, known, now, root, formal);
  }

  lemma Unexternal(t: seq<Node>, u: seq<Node>, r: nat, formal: bool)
    requires r < |t| && u == if formal then t[r := t[r].(marks := t[r].marks - {External})] else t
    ensures Remarked(t, u) && |u| == |t| && forall m: nat :: m < |t| ==> u[m].links == t[m].links
  {
  }

  lemma CachedIfOwn(callee: seq<Node>, t: seq<Node>, now: Cache, own: set<nat>, base: nat, root: nat)
    requires Valid(callee) && CacheOk(callee, t, now, own, {}, base) && root in now && Seated(t, now)
    ensures root in own ==> Seat(t, now, root) == Cell(now[root].0, 0)
  {
    Cached(callee, t, now, own, {}, base, root);
  }

  lemma NewGraft(callee: seq<Node>, t: seq<Node>, u: seq<Node>, now: Cache, own: set<nat>, base: nat, root: nat,
                 formal: bool, x: nat)
    requires Valid(callee) && CacheOk(callee, t, now, own, {}, base) && x in own && x in now && root in now
    requires Seated(t, now) && Seated(u, now)
    requires AllCopied(callee, t, now, x) && forall y | y in now :: Seat(u, now, y) == Seat(t, now, y)
    requires var r := Seat(t, now, root).node;
             u == if formal then t[r := t[r].(marks := t[r].marks - {External})] else t
    ensures Graft(callee, u, now, x, formal && x == root)
  {
    hide Valid, CacheOk, AllCopied, SameShape, Seat, GraftOf, Untouched, Seated, Separate;
    CloneBounds(callee, t, now, own, {}, base, x);
    Cached(callee, t, now, own, {}, base, x);
    CacheSeparate(callee, t, now, own, {}, base);
    var r := Seat(t, now, root).node;
    SeatIn(t, now, root);
    Unexternal(t, u, r, formal);
    CopiedOn(callee, t, u, now, x);
    if x != root {
      OwnSeat(t, now, own, root, x);
    }
    GraftShape(callee, t, u, now, x, formal && x == root);
  }

  lemma OldNodes(s: seq<Node>, t: seq<Node>, u: seq<Node>, known: Cache, now: Cache, root: nat, formal: bool)
    requires Prolongs(s, t) && Seated(s, known) && Seated(t, now) && root in now
    requires forall x | x in known :: x in now && Seat(t, now, x) == Seat(s, known, x)
    requires Seat(t, now, root).node < |s| <==> root in known
    requires var r := Seat(t, now, root).node;
             u == if formal then t[r := t[r].(marks := t[r].marks - {External})] else t
    ensures |s| <= |u|
    ensures forall m: nat :: m < |s| ==> u[m] == if formal && root in known && m == Seat(s, known, root).node
                                                then s[m].(marks := s[m].marks - {External}) else s[m]
  {
    SeatIn(t, now, root);
    hide Seat;
  }

  lemma GraftedIs(callee: seq<Node>, s: seq<Node>, u: seq<Node>, known: Cache, now: Cache, root: nat, formal: bool)
    requires Valid(callee) && Seated(s, known) && Seated(u, now) && |s| <= |u| && Grown(known, now) && root in now
    requires FreshClones(known, now, |s|, |u|) && Separate(now, 0)
    requires forall m: nat :: m < |s| ==> u[m] == if formal && root in known && m == Seat(s, known, root).node
                                                 then s[m].(marks := s[m].marks - {External}) else s[m]
    requires forall x | x in now && x !in known :: Graft(callee, u, now, x, formal && x == root)
    ensures Grafted(callee, s, u, known, now, root, formal)
  {
    hide Graft, Seat, FreshClones;
  }

  lemma SeparateAll(cache: Cache, base: nat)
    requires Separate(cache, base)
    ensures Separate(cache, 0)
  {
  }

  lemma UndisturbedSeats(s: seq<Node>, t: seq<Node>, known: Cache, now: Cache)
    requires Undisturbed(s, t, known) && Grown(known, now) && Seated(t, now)
    ensures Seated(s, known) && SameForwarding(s, t)
    ensures forall x | x in known :: x in now && Seat(t, now, x) == Seat(s, known, x)
  {
    SeatsStay(s, t, known);
  }

  /** A clone made now holds itself; the others are held by older nodes. */
  lemma OldOrNew(s: seq<Node>, t: seq<Node>, known: Cache, now: Cache, own: set<nat>, root: nat)
    requires Seated(s, known) && Seated(t, now) && FreshClones(known, now, |s|, |t|) && own == now.Keys - known.Keys
    requires root in now
    requires forall x | x in known :: x in now && Seat(t, now, x) == Seat(s, known, x)
    requires root in own ==> Seat(t, now, root) == Cell(now[root].0, 0)
    ensures Seat(t, now, root).node < |s| <==> root in known
  {
  }

  lemma CopiedOn(callee: seq<Node>, t: seq<Node>, u: seq<Node>, cache: Cache, x: nat)
    requires Valid(callee) && AllCopied(callee, t, cache, x) && Seated(u, cache)
    requires |u| == |t| && forall m: nat :: m < |t| ==> u[m].links == t[m].links
    requires forall y | y in cache :: y in cache && Seated(t, cache) && Seat(u, cache, y) == Seat(t, cache, y)
    ensures AllCopied(callee, u, cache, x)
  {
    hide Seat, Acyclic, Resolve;
  }

  lemma GraftShape(callee: seq<Node>, t: seq<Node>, u: seq<Node>, cache: Cache, x: nat, formal: bool)
    requires SameShape(callee, t, cache, {}, x) && cache[x].0 < |u|
    requires var m := t[cache[x].0];
             u[cache[x].0] == m.(marks := if formal then m.marks - {External} else m.marks)
    ensures GraftOf(callee[x], u[cache[x].0], formal)
  {
  }

  /** The state and the cache that a cloner of `callee` into `caller` needs. */
  ghost predicate Ready(callee: seq<Node>, caller: Graph, cloner: Cloner)
    reads caller, cloner
  {
    && cloner.src == callee && cloner.dst == caller && cloner.stripAllocas && cloner.full == {}
    && Valid(callee) && Valid(caller.nodes) && cloner.base <= |caller.nodes|
    && Separate(cloner.cache, cloner.base) && Seated(caller.nodes, cloner.cache)
    && forall x | x in cloner.cache :: IsRep(callee, x)
  }

  lemma Disowned(callee: seq<Node>, s: seq<Node>, cache: Cache, base: nat)
    requires Valid(callee) && Separate(cache, base) && Seated(s, cache) && forall x | x in cache :: IsRep(callee, x)
    ensures CacheOk(callee, s, cache, {}, {}, base)
  {
  }

  /** Clone what representative `n` reaches into `caller`. */
  method CloneReached(callee: seq<Node>, caller: Graph, cloner: Cloner, n: nat) returns (c: nat)
    requires Ready(callee, caller, cloner) && IsRep(callee, n)
    modifies caller`nodes, cloner`cache, cloner`full, cloner`own
    ensures Ready(callee, caller, cloner) && n in cloner.cache && c == Seat(caller.nodes, cloner.cache, n).node
    ensures c < |caller.nodes|
    ensures Seated(old(caller.nodes), old(cloner.cache))
    ensures Taken(callee, old(caller.nodes), caller.nodes, old(cloner.cache), cloner.cache, cloner.base)
    ensures OnlyReached(callee, n, old(cloner.cache), cloner.cache)
  {
    hide Valid, CacheOk, AllCopied, Undisturbed, FreshClones, OnlyReached, SameShape, Separate, Grown, Copied;
    hide Prolongs, Acyclic, Seat;
    hide Untouched, SameForwarding, Resolve;
    ghost var s, known := caller.nodes, cloner.cache;
    cloner.own := {};
    Disowned(callee, s, known, cloner.base);
    c := cloner.Clone(n, false);
    assert cloner.full == {} && cloner.own == cloner.cache.Keys - known.Keys;
    CacheSeparate(callee, caller.nodes, cloner.cache, cloner.own, {}, cloner.base);
    SeatIn(caller.nodes, cloner.cache, n);
  }

  /** Clone what `root` reaches into `caller`; the node that holds the clone of a formal is not external.  The
      caller's candidate is extended with the clones at `home`. */
  method CloneRoot(callee: seq<Node>, caller: Graph, cloner: Cloner, root: Root, ghost home: seq<Cell>)
    returns (c: Cell)
    requires Ready(callee, caller, cloner) && root.cell.node < |callee|
    modifies caller`nodes, caller`candidate, cloner`cache, cloner`full, cloner`own
    ensures Ready(callee, caller, cloner) && |old(caller.nodes)| <= |caller.nodes|
    ensures caller.candidate == Extended(old(caller.candidate), old(cloner.cache), cloner.cache, home,
                                         |old(caller.nodes)|, |caller.nodes|)
    ensures var r := Resolve(callee, root.cell.node).node;
      && Grafted(callee, old(caller.nodes), caller.nodes, old(cloner.cache), cloner.cache, r, root.formal)
      && OnlyReached(callee, r, old(cloner.cache), cloner.cache)
    ensures c == Redirected(callee, caller.nodes, cloner.cache, root.cell) && c.node < |caller.nodes|
  {
    hide Valid, Grafted, Taken, OnlyReached, Separate, Seat, Acyclic, Seated, Extended;
    ValidAcyclic(callee);
    ghost var s, known := caller.nodes, cloner.cache;
    var r := Resolve(callee, root.cell.node);
    var n := CloneReached(callee, caller, cloner, r.node);
    ghost var t := caller.nodes;
    if root.formal {
      caller.nodes := caller.nodes[n := caller.nodes[n].(marks := caller.nodes[n].marks - {External})];
    }
    RootCloned(callee, s, t, caller.nodes, known, cloner.cache, cloner.base, r.node, root.formal);
    assert |caller.nodes| == |t|;
    GraftedBasics(callee, s, caller.nodes, known, cloner.cache, r.node, root.formal);
    caller.candidate := Extended(caller.candidate, known, cloner.cache, home, |s|, |t|);
    c := Cell(n, r.off + root.cell.off);
  }

  /** Clone what `root` reaches and merge its cell with the caller's scalar. */
  method ResolveRoot(callee: seq<Node>, caller: Graph, cloner: Cloner, root: Root, ghost home: seq<Cell>)
    returns (ghost step: Step)
    requires Ready(callee, caller, cloner) && root.cell.node < |callee|
    requires root.arg in caller.values ==> caller.values[root.arg].node < |caller.nodes|
    modifies caller`nodes, caller`values, caller`candidate, caller`lost, cloner`cache, cloner`full, cloner`own
    ensures Ready(callee, caller, cloner) && StepOk(callee, root, step) && Homed(step, home)
    ensures step.before == old(caller.Now()) && step.values == old(caller.values) && step.known == old(cloner.cache)
    ensures step.after == caller.Now() && step.now == cloner.cache
    ensures caller.values == old(caller.values)[root.arg := step.held] && step.held.node < |caller.nodes|
    ensures |old(caller.nodes)| <= |caller.nodes|
  {
    hide Later, Valid, Same, Grafted, Redirected, OnlyReached, Separate, Seat, Acyclic, MergedCells;
    hide Compressed, Canon, Seated, Resolve, Extended, Equates, KeepsMap;
    ValidAcyclic(callee);
    ghost var before, values, known := caller.Now(), caller.values, cloner.cache;
    var c := CloneRoot(callee, caller, cloner, root, home);
    ghost var cloned := caller.Now();
    GraftedBasics(callee, before.nodes, cloned.nodes, known, cloner.cache, Resolve(callee, root.cell.node).node,
                  root.formal);
    var was := if root.arg in caller.values then Some(caller.values[root.arg]) else None;
    var nc := caller.UnifyOrSet(was, c);
    caller.values := caller.values[root.arg := nc];
    step := Step(before, values, known, cloned, cloner.cache, caller.Now(), nc);
    LaterBasics(cloned, caller.Now(), {});
    SameBounds(caller.nodes, nc, c);
    SeatedOn(cloned.nodes, caller.nodes, cloner.cache);
    hide Follows;
  }

  lemma SeatedOn(s: seq<Node>, t: seq<Node>, cache: Cache)
    requires Seated(s, cache) && Acyclic(t) && |s| <= |t|
    ensures Seated(t, cache)
  {
  }

  // ---------------------------------------------------------------- resolving a call

  ghost predicate Fitted(callee: seq<Node>, roots: seq<Root>) {
    forall r | r in roots :: r.cell.node < |callee|
  }

  /** Resolve every root of a call with one cloner. */
  method ResolveRoots(callee: seq<Node>, caller: Graph, roots: seq<Root>, ghost home: seq<Cell>)
    returns (ghost steps: seq<Step>)
    requires Valid(callee) && Valid(caller.nodes) && Fitted(callee, roots)
    requires forall c | c in caller.Roots() :: c.node < |caller.nodes|
    modifies caller`nodes, caller`values, caller`candidate, caller`lost
    ensures Valid(caller.nodes) && Traced(callee, old(caller.Now()), old(caller.values), roots, steps)
    ensures |steps| == |roots| && caller.Now() == After(old(caller.Now()), steps)
    ensures forall i | 0 <= i < |steps| :: Homed(steps[i], home)
    ensures forall c | c in caller.Roots() :: c.node < |caller.nodes|
    ensures caller.values == Holding(old(caller.values), roots, steps)
  {
    hide Valid, StepOk, Separate, Seat, Acyclic, Traced, Seated, Resolve, IsRep, Homed;
    ghost var start, had := caller.Now(), caller.values;
    TracedNothing(callee, start, had);
    var cloner := new Cloner(callee, caller, true);
    NothingSeated(caller.nodes, cloner.base);
    steps := [];
    var i := 0;
    while i < |roots|
      invariant i <= |roots| && |steps| == i && Ready(callee, caller, cloner) && fresh(cloner)
      invariant Traced(callee, start, had, roots[..i], steps)
      invariant caller.Now() == After(start, steps) && cloner.cache == Known(steps)
      invariant forall c | c in caller.Roots() :: c.node < |caller.nodes|
      invariant caller.values == Holding(had, roots[..i], steps)
      invariant forall k | 0 <= k < i :: Homed(steps[k], home)
    {
      ghost var n, was, others := |caller.nodes|, caller.values, caller.formals.Values + caller.retCells.Values;
      assert roots[i] in roots;
      ghost var step := ResolveRoot(callee, caller, cloner, roots[i], home);
      RootsStay(n, |caller.nodes|, was, roots[i].arg, step.held, others);
      TracedOn(callee, start, had, roots, steps, step, i);
      assert roots[..i + 1][i] == roots[i];
      steps := steps + [step];
      i := i + 1;
    }
    assert roots[..i] == roots;
  }

  lemma NothingSeated(s: seq<Node>, base: nat)
    requires Valid(s)
    ensures Separate(map[], base) && Seated(s, map[])
  {
  }

  lemma TracedNothing(callee: seq<Node>, start: State, had: map<nat, Cell>)
    requires Valid(callee)
    ensures Traced(callee, start, had, [], [])
  {
  }

  lemma TracedOn(callee: seq<Node>, start: State, had: map<nat, Cell>, roots: seq<Root>, steps: seq<Step>, step: Step,
                 i: nat)
    requires Valid(callee) && i < |roots| && Traced(callee, start, had, roots[..i], steps)
    requires StepOk(callee, roots[i], step)
    requires step.before == After(start, steps) && step.known == Known(steps)
    requires step.values == Holding(had, roots[..i], steps)
    ensures Traced(callee, start, had, roots[..i + 1], steps + [step])
  {
    hide StepOk, Valid;
    assert (steps + [step])[..i] == steps && roots[..i + 1][..i] == roots[..i];
  }

  lemma RootsStay(n: nat, m: nat, was: map<nat, Cell>, arg: nat, nc: Cell, others: set<Cell>)
    requires n <= m && nc.node < m && forall c | c in was.Values + others :: c.node < n
    ensures forall c | c in was[arg := nc].Values + others :: c.node < m
  {
  }

  /** Every root's scalar keeps the cell it got. */
  lemma {:induction false} HoldingAll(callee: seq<Node>, start: State, had: map<nat, Cell>, roots: seq<Root>,
                                      steps: seq<Step>)
    requires Valid(callee) && Traced(callee, start, had, roots, steps)
    ensures forall v | v in had :: v in Holding(had, roots, steps) && Holding(had, roots, steps)[v] == had[v]
    ensures forall i | 0 <= i < |roots| ::
      roots[i].arg in Holding(had, roots, steps) && Holding(had, roots, steps)[roots[i].arg] == steps[i].held
  {
    hide Valid, StepOk;
    if steps != [] {
      var k := |steps| - 1;
      HoldingAll(callee, start, had, roots[..k], steps[..k]);
      StepHolds(callee, roots[k], steps[k]);
      assert forall i | 0 <= i < k :: roots[..k][i] == roots[i] && steps[..k][i] == steps[i];
    }
  }

  lemma StepHolds(callee: seq<Node>, root: Root, step: Step)
    requires Valid(callee) && StepOk(callee, root, step)
    ensures root.arg in step.values ==> step.held == step.values[root.arg]
  {
    hide Valid, Grafted, OnlyReached, Later, Same, Redirected, MergedCells, Compressed, Canon, Acyclic;
  }

  /** Resolve every root of a call and compress the caller. */
  method ResolveCall(callee: seq<Node>, caller: Graph, roots: seq<Root>, ghost home: seq<Cell>)
    returns (ghost steps: seq<Step>)
    requires Valid(callee) && Valid(caller.nodes) && Fitted(callee, roots)
    requires forall c | c in caller.Roots() :: c.node < |caller.nodes|
    modifies caller
    ensures Valid(caller.nodes) && Traced(callee, old(caller.Now()), old(caller.values), roots, steps)
    ensures |steps| == |roots|
    ensures Later(After(old(caller.Now()), steps), caller.Now(), {})
    ensures var t := After(old(caller.Now()), steps).nodes; var held := Holding(old(caller.values), roots, steps);
      && Flattened(t, caller.nodes, old(caller.dropped), |t|) && Acyclic(t)
      && (forall v | v in held :: held[v].node < |t|) && caller.values == Straightened(t, held)
    // every scalar holds the cell its root was given
    ensures forall r | r in roots :: r.arg in caller.values && caller.values[r.arg].node < |caller.nodes|
    ensures ScalarsHold(caller.nodes, roots, steps, caller.values)
    // and the clone's own cell, with all its links kept, if what was taken from the cache is in place
    ensures AllInPlace(callee, roots, steps, caller.nodes) ==>
              && Kept(callee, caller.nodes, Known(steps))
              && forall r | r in roots :: Landed(callee, caller.nodes, Known(steps), r, caller.values)
    // nothing more is merged than in any graph that holds the caller and the callee and meets the ties
    ensures Suits(callee, old(caller.Now()), old(caller.values), roots, steps, home) ==>
              AtMost(old(caller.Now()), After(old(caller.Now()), steps), Known(steps), caller.nodes, home)
  {
    hide Suits, AtMost, Homed;
    hide Valid, StepOk, Later, Flattened, Housed, Direct, Forwarders, Kept, Kin, Traced, AllInPlace;
    hide Straightened, Onward, Landed, ScalarsHold;
    ghost var start, had := caller.Now(), caller.values;
    steps := ResolveRoots(callee, caller, roots, home);
    ghost var t, was := caller.Now(), caller.values;
    HoldingAll(callee, start, had, roots, steps);
    ValidAcyclic(t.nodes);
    assert forall v | v in was :: was[v] in caller.Roots();
    caller.Compress();
    RootsStraight(callee, t, caller.Now(), roots, steps, was, caller.values);
    if Suits(callee, start, had, roots, steps, home) {
      ValidAcyclic(start.nodes);
      ValidAcyclic(caller.nodes);
      CallLeast(callee, start, had, roots, steps, home, caller.nodes, old(caller.dropped));
    }
    if AllInPlace(callee, roots, steps, caller.nodes) {
      CallKept(callee, start, had, roots, steps, caller.nodes);
      CallLanded(callee, roots, steps, caller.nodes, Known(steps), caller.values);
    }
  }

  lemma RootsStraight(callee: seq<Node>, t: State, u: State, roots: seq<Root>, steps: seq<Step>, was: map<nat, Cell>,
                      values: map<nat, Cell>)
    requires Valid(t.nodes) && Later(t, u, {}) && (forall v | v in was :: was[v].node < |t.nodes|)
    requires |steps| == |roots| && values == Straightened(t.nodes, was)
    requires forall i | 0 <= i < |roots| :: roots[i].arg in was && was[roots[i].arg] == steps[i].held
    ensures Onward(t.nodes, u.nodes) && ScalarsHold(u.nodes, roots, steps, values)
    ensures forall r | r in roots :: r.arg in values && values[r.arg].node < |u.nodes|
  {
    hide Later, Valid, Same, Onward;
    LaterBasics(t, u, {});
    LaterValid(t, u);
    OnwardIs(t.nodes, u.nodes);
    forall i | 0 <= i < |roots|
      ensures roots[i].arg in values && values[roots[i].arg].node < |u.nodes|
      ensures Same(u.nodes, values[roots[i].arg], steps[i].held)
    {
      SameResolved(t.nodes, steps[i].held);
      SameStays(t, u, values[roots[i].arg], steps[i].held);
    }
    forall r | r in roots ensures r.arg in values && values[r.arg].node < |u.nodes| {
      var i :| 0 <= i < |roots| && roots[i] == r;
      assert roots[i].arg in was;
    }
  }

  /** Resolve the roots of a call and see which way facts still have to flow.  In array-free graphs they still have to
      flow up exactly when some clone was taken from the cache that had been merged in the middle of another object
      and is not on a collapsed node now; and the caller merges no more than any graph that holds the caller, and the
      callee at `home`, and meets the ties. */
  method PropagateBottomUp(callee: seq<Node>, caller: Graph, roots: seq<Root>, ghost home: seq<Cell>)
    returns (d: Direction, ghost steps: seq<Step>)
    requires Valid(callee) && Valid(caller.nodes) && Fitted(callee, roots)
    requires forall c | c in caller.Roots() :: c.node < |caller.nodes|
    modifies caller
    ensures Valid(caller.nodes) && Traced(callee, old(caller.Now()), old(caller.values), roots, steps)
    ensures |steps| == |roots|
    ensures ArrayFree(callee) && ArrayFree(old(caller.nodes)) ==>
              (d != Up <==> AllInPlace(callee, roots, steps, caller.nodes))
    // nothing more is merged than in any graph that holds the caller and the callee and meets the ties
    ensures Suits(callee, old(caller.Now()), old(caller.values), roots, steps, home) ==>
              AtMost(old(caller.Now()), After(old(caller.Now()), steps), Known(steps), caller.nodes, home)
    // roots that reach no common node take nothing from the cache
    ensures Apart(callee, roots) ==> AllInPlace(callee, roots, steps, caller.nodes) && AllSpare(callee, roots, steps)
    // the caller has lost nothing, but for the mark External where it was cleared of a node that had it
    ensures Onward(old(caller.nodes), caller.nodes) && |old(caller.nodes)| <= |caller.nodes| && Acyclic(caller.nodes)
    ensures Coarsens(old(caller.nodes), caller.nodes, {}) <==> ExternalsKept(old(caller.nodes), caller.nodes)
    ensures AllSpare(callee, roots, steps) ==> Coarsens(old(caller.nodes), caller.nodes, {})
    // and compressing it has changed nothing a client sees
    ensures var t := After(old(caller.Now()), steps).nodes; var held := Holding(old(caller.values), roots, steps);
      && Flattened(t, caller.nodes, old(caller.dropped), |t|) && Acyclic(t)
      && (forall v | v in held :: held[v].node < |t|) && caller.values == Straightened(t, held)
  {
    hide Valid, Later, ArrayFree, Simulates, NoneWraps, Functional, Injective, Coarsens, Traced, AllInPlace;
    hide Kept, Landed;
    hide TiesInBounds, Flattened, Straightened, Unmarked, Apart, SoundRoots, Admits, Onward, AllSpare, ExternalsKept;
    hide ScalarsHold, PendingKept, Suits, AtMost;
    ghost var start, had := caller.Now(), caller.values;
    steps := ResolveCall(callee, caller, roots, home);
    CallCoarsens(callee, start, had, roots, steps);
    CallLater(start.nodes, After(start, steps), caller.Now(), AllSpare(callee, roots, steps));
    if Apart(callee, roots) {
      RootsApart(callee, start, had, roots, steps, caller.nodes);
    }
    var ties := Ties(roots, caller.values);
    TiesFit(callee, caller.nodes, roots, caller.values);
    if ArrayFree(callee) && ArrayFree(start.nodes) {
      CallSimulated(callee, start, had, roots, steps, caller.nodes, caller.values);
    }
    d := DecidePropagation(callee, caller.nodes, ties);
  }

  lemma RootsApart(callee: seq<Node>, start: State, had: map<nat, Cell>, roots: seq<Root>, steps: seq<Step>,
                   t: seq<Node>)
    requires Valid(callee) && Valid(start.nodes) && Traced(callee, start, had, roots, steps) && Apart(callee, roots)
    requires Onward(After(start, steps).nodes, t)
    ensures AllInPlace(callee, roots, steps, t) && AllSpare(callee, roots, steps)
  {
    var parts :| Parted(callee, roots, parts);
    CallApart(callee, start, had, roots, steps, parts);
    NoneInPlace(callee, start, had, roots, steps, t);
  }

  lemma CallLater(s: seq<Node>, t: State, u: State, all: bool)
    requires Onward(s, t.nodes) && |s| <= |t.nodes| && PendingKept(s, t.nodes) && Later(t, u, {})
    requires all ==> Coarsens(s, t.nodes, {})
    ensures Onward(t.nodes, u.nodes) && Onward(s, u.nodes) && |s| <= |u.nodes| && Acyclic(u.nodes)
    ensures Coarsens(s, u.nodes, {}) <==> ExternalsKept(s, u.nodes)
    ensures all ==> Coarsens(s, u.nodes, {})
    ensures ArrayFree(t.nodes) ==> ArrayFree(u.nodes)
  {
    hide Coarsens, Onward, ArrayFree, Valid, PendingKept, ExternalsKept;
    LaterValid(t, u);
    LaterKinds(t, u);
    LaterPending(t, u);
    LaterBasics(t, u, {});
    hide Later;
    OnwardIs(t.nodes, u.nodes);
    OnwardTrans(s, t.nodes, u.nodes);
    PendingOn(s, t.nodes, u.nodes);
    OnwardCoarsens(s, u.nodes);
    if all {
      CoarsensTrans(s, t.nodes, u.nodes, {});
    }
  }

  lemma TiesFit(callee: seq<Node>, t: seq<Node>, roots: seq<Root>, values: map<nat, Cell>)
    requires Fitted(callee, roots) && forall r | r in roots :: r.arg in values && values[r.arg].node < |t|
    ensures TiesInBounds(callee, t, Ties(roots, values))
  {
    forall i | 0 <= i < |roots|
      ensures roots[i].cell.node < |callee| && roots[i].arg in values && values[roots[i].arg].node < |t|
    {
      assert roots[i] in roots;
    }
  }
}
