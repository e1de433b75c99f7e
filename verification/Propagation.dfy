/** Deciding whether facts must flow between a callee and a caller. */
module Propagation {
  import opened PointsTo
  import opened Forwarding
  import opened Mapper
  import opened MapperLaws

  datatype Direction = Down | Up | Neither

  /** Two cells a call ties together: a global, a return value, or a formal with its actual. */
  datatype Tie = Tie(callee: Option<Cell>, caller: Option<Cell>)

  ghost predicate TiesInBounds(src: seq<Node>, dst: seq<Node>, ties: seq<Tie>) {
    forall i | 0 <= i < |ties| :: InBounds(src, ties[i].callee) && InBounds(dst, ties[i].caller)
  }

  ghost predicate CoversAll(src: seq<Node>, dst: seq<Node>, w: Relation, ties: seq<Tie>)
    requires Valid(src) && Valid(dst) && TiesInBounds(src, dst, ties)
  {
    forall i | 0 <= i < |ties| :: Covers(src, dst, w, ties[i].callee, ties[i].caller)
  }

  ghost predicate NoneWraps(src: seq<Node>, dst: seq<Node>, ties: seq<Tie>)
    requires Valid(src) && Valid(dst) && TiesInBounds(src, dst, ties)
  {
    forall i | 0 <= i < |ties| :: NoWrap(src, dst, ties[i].callee, ties[i].caller)
  }

  /** A simulation of the callee by the caller that respects every tie. */
  ghost predicate Simulates(src: seq<Node>, dst: seq<Node>, w: Relation, ties: seq<Tie>)
    requires Valid(src) && Valid(dst) && TiesInBounds(src, dst, ties)
  {
    IsSimulation(src, dst, w) && CoversAll(src, dst, w, ties)
  }

  /** Every pair of root cells fits and lands where the mapper puts it. */
  ghost predicate SoundRoots(src: seq<Node>, dst: seq<Node>, ties: seq<Tie>)
    requires Valid(src) && Valid(dst) && TiesInBounds(src, dst, ties)
  {
    FitRoots(src, dst, ties) && LandRoots(src, dst, ties)
  }

  ghost predicate FitRoots(src: seq<Node>, dst: seq<Node>, ties: seq<Tie>)
    requires Valid(src) && Valid(dst) && TiesInBounds(src, dst, ties)
  {
    forall i | 0 <= i < |ties| :: RootFits(src, dst, ties[i].callee, ties[i].caller)
  }

  ghost predicate LandRoots(src: seq<Node>, dst: seq<Node>, ties: seq<Tie>)
    requires Valid(src) && Valid(dst) && TiesInBounds(src, dst, ties)
  {
    forall i | 0 <= i < |ties| :: RootLands(src, dst, ties[i].callee, ties[i].caller)
  }

  /** The callee's root offsets are 32-bit numbers. */
  ghost predicate InWords(src: seq<Node>, dst: seq<Node>, ties: seq<Tie>)
    requires Valid(src) && TiesInBounds(src, dst, ties)
  {
    forall i | 0 <= i < |ties| :: InWord(src, ties[i].callee)
  }

  ghost predicate SeatsAll(src: seq<Node>, dst: seq<Node>, w: Relation, ties: seq<Tie>)
    requires Valid(src) && Valid(dst) && TiesInBounds(src, dst, ties)
  {
    forall i | 0 <= i < |ties| :: Seats(src, dst, w, ties[i].callee, ties[i].caller)
  }

  /** Relation `w` is the least that admits the tie once `v` is known. */
  ghost predicate LeastNext(src: seq<Node>, dst: seq<Node>, v: Relation, w: Relation, tie: Tie)
    requires Valid(src) && Valid(dst) && InBounds(src, tie.callee) && InBounds(dst, tie.caller)
  {
    && tie.callee.None? == tie.caller.None?
    && if tie.callee.None? then w == v
       else Admits(src, dst, w, v, tie.callee, tie.caller) &&
            forall u :: Admits(src, dst, u, v, tie.callee, tie.caller) ==> Within(w, u)
  }

  /** Tie after tie, the least relation that admits it. */
  ghost predicate Chained(src: seq<Node>, dst: seq<Node>, ties: seq<Tie>, chain: seq<Relation>)
    requires Valid(src) && Valid(dst) && TiesInBounds(src, dst, ties)
  {
    && |chain| == |ties| + 1 && chain[0] == map[]
    && forall i, j | 0 <= i < |ties| && j == i + 1 :: LeastNext(src, dst, chain[i], chain[j], ties[i])
  }

  /** Map every callee cell of a call to its caller cell. */
  method ComputeMapping(m: SimulationMapper, ties: seq<Tie>) returns (ok: bool)
    requires Valid(m.src) && Valid(m.dst) && TiesInBounds(m.src, m.dst, ties) && m.sim == map[]
    modifies m`sim
    ensures ok && SoundRoots(m.src, m.dst, ties) ==> Simulates(m.src, m.dst, Rel(m.sim), ties)
    ensures ok && InWords(m.src, m.dst, ties) ==>
              (Simulates(m.src, m.dst, Rel(m.sim), ties) <==> SoundRoots(m.src, m.dst, ties))
    ensures NoneWraps(m.src, m.dst, ties) ==>
              forall w :: Simulates(m.src, m.dst, w, ties) ==> ok && Within(Rel(m.sim), w)
    ensures |ties| == 1 ==>
              forall w :: Admits(m.src, m.dst, w, map[], ties[0].callee, ties[0].caller) ==> ok && Within(Rel(m.sim), w)
    // whether or not offsets wrap, it succeeds exactly when each tie in turn is admitted
    ensures ok <==> exists chain :: Chained(m.src, m.dst, ties, chain)
    ensures ok ==> forall chain :: Chained(m.src, m.dst, ties, chain) ==> chain[|ties|] == Rel(m.sim)
  {
    hide Valid, Covers, Seats, IsSimulation, NoWrap, RootFits, RootLands, InWord, Admits, Rel, AllLinked, Chained;
    hide LeastNext;
    var i := 0;
    ghost var chain: seq<Relation> := [map[]];
    ChainStarts(m.src, m.dst);
    assert ties[..0] == [];
    EmptyStarts(m.src, m.dst);
    while i < |ties|
      invariant 0 <= i <= |ties| && Rel(m.sim).Keys <= Universe(m.src, m.dst)
      invariant i == 0 ==> Rel(m.sim) == map[]
      invariant AllLinked(m.src, m.dst, Rel(m.sim))
      invariant |chain| == i + 1 && chain[i] == Rel(m.sim) && Chained(m.src, m.dst, ties[..i], chain)
      invariant SeatsAll(m.src, m.dst, Rel(m.sim), ties[..i])
      invariant FitRoots(m.src, m.dst, ties[..i]) ==> IsSimulation(m.src, m.dst, Rel(m.sim))
      invariant !FitRoots(m.src, m.dst, ties[..i]) ==> !IsSimulation(m.src, m.dst, Rel(m.sim))
      invariant NoneWraps(m.src, m.dst, ties) ==>
                  forall w :: Simulates(m.src, m.dst, w, ties) ==> Within(Rel(m.sim), w)
      invariant |ties| == 1 && i == 1 ==>
                  forall w :: Admits(m.src, m.dst, w, map[], ties[0].callee, ties[0].caller) ==> Within(Rel(m.sim), w)
    {
      ghost var before := Rel(m.sim);
      ok := m.InsertCell(ties[i].callee, ties[i].caller);
      if !ok {
        NoNext(m.src, m.dst, before, ties[i]);
        ChainBroken(m.src, m.dst, ties, chain, i);
        return;
      }
      TieMapped(m.src, m.dst, before, Rel(m.sim), ties, i);
      NextIs(m.src, m.dst, before, Rel(m.sim), ties[i]);
      ChainGrows(m.src, m.dst, ties, chain, Rel(m.sim), i);
      chain := chain + [Rel(m.sim)];
      i := i + 1;
    }
    assert ties[..i] == ties;
    AllMapped(m.src, m.dst, Rel(m.sim), ties);
    ChainsAgree(m.src, m.dst, ties, chain, |ties|);
    return true;
  }

  lemma ChainStarts(src: seq<Node>, dst: seq<Node>)
    requires Valid(src) && Valid(dst)
    ensures Chained(src, dst, [], [map[]]) && AllLinked(src, dst, map[])
  {
  }

  lemma NextIs(src: seq<Node>, dst: seq<Node>, v: Relation, w: Relation, tie: Tie)
    requires Valid(src) && Valid(dst) && InBounds(src, tie.callee) && InBounds(dst, tie.caller)
    requires tie.callee.None? == tie.caller.None?
    requires if tie.callee.None? then w == v else Admits(src, dst, w, v, tie.callee, tie.caller)
    requires forall u :: Admits(src, dst, u, v, tie.callee, tie.caller) ==> Within(w, u)
    ensures LeastNext(src, dst, v, w, tie)
  {
    hide Admits, Valid;
  }

  lemma NoNext(src: seq<Node>, dst: seq<Node>, v: Relation, tie: Tie)
    requires Valid(src) && Valid(dst) && InBounds(src, tie.callee) && InBounds(dst, tie.caller)
    requires tie.callee.Some? || tie.caller.Some?
    requires forall u :: !Admits(src, dst, u, v, tie.callee, tie.caller)
    ensures forall w :: !LeastNext(src, dst, v, w, tie)
  {
    hide Admits, Valid;
  }

  lemma ChainGrows(src: seq<Node>, dst: seq<Node>, ties: seq<Tie>, chain: seq<Relation>, w: Relation, i: nat)
    requires Valid(src) && Valid(dst) && TiesInBounds(src, dst, ties) && i < |ties|
    requires Chained(src, dst, ties[..i], chain) && LeastNext(src, dst, chain[i], w, ties[i])
    ensures Chained(src, dst, ties[..i + 1], chain + [w])
  {
    hide LeastNext;
    var longer := chain + [w];
    forall k, j | 0 <= k < i + 1 && j == k + 1 ensures LeastNext(src, dst, longer[k], longer[j], ties[..i + 1][k]) {
      if k < i {
        assert ties[..i + 1][k] == ties[..i][k];
        assert LeastNext(src, dst, chain[k], chain[j], ties[..i][k]);
      }
    }
  }

  /** There is one chain at most. */
  lemma {:induction false} ChainsAgree(src: seq<Node>, dst: seq<Node>, ties: seq<Tie>, chain: seq<Relation>, i: nat)
    requires Valid(src) && Valid(dst) && TiesInBounds(src, dst, ties) && i <= |ties|
    requires Chained(src, dst, ties[..i], chain)
    ensures forall other, k | Chained(src, dst, ties, other) && 0 <= k <= i :: other[k] == chain[k]
  {
    hide Admits;
    forall other | Chained(src, dst, ties, other) ensures forall k | 0 <= k <= i :: other[k] == chain[k] {
      ChainAgrees(src, dst, ties, chain, other, i, i);
    }
  }

  lemma {:induction false} ChainAgrees(src: seq<Node>, dst: seq<Node>, ties: seq<Tie>, chain: seq<Relation>,
                                       other: seq<Relation>, i: nat, n: nat)
    requires Valid(src) && Valid(dst) && TiesInBounds(src, dst, ties) && n <= i <= |ties|
    requires Chained(src, dst, ties[..i], chain) && Chained(src, dst, ties, other)
    ensures forall k | 0 <= k <= n :: other[k] == chain[k]
  {
    hide Admits;
    if n > 0 {
      var k := n - 1;
      ChainAgrees(src, dst, ties, chain, other, i, k);
      assert ties[..i][k] == ties[k];
      assert LeastNext(src, dst, chain[k], chain[n], ties[k]) && LeastNext(src, dst, other[k], other[n], ties[k]);
      WithinBoth(chain[n], other[n]);
    }
  }

  lemma WithinBoth(v: Relation, w: Relation)
    ensures Within(v, w) && Within(w, v) ==> v == w
  {
  }

  /** A tie that nothing admits ends every chain. */
  lemma ChainBroken(src: seq<Node>, dst: seq<Node>, ties: seq<Tie>, chain: seq<Relation>, i: nat)
    requires Valid(src) && Valid(dst) && TiesInBounds(src, dst, ties) && i < |ties|
    requires Chained(src, dst, ties[..i], chain)
    requires forall w :: !LeastNext(src, dst, chain[i], w, ties[i])
    ensures forall other :: !Chained(src, dst, ties, other)
  {
    hide LeastNext;
    forall other ensures !Chained(src, dst, ties, other) {
      if Chained(src, dst, ties, other) {
        ChainStep(src, dst, ties, other, i);
        ChainAgrees(src, dst, ties, chain, other, i, i);
      }
    }
  }

  lemma ChainStep(src: seq<Node>, dst: seq<Node>, ties: seq<Tie>, chain: seq<Relation>, i: nat)
    requires Valid(src) && Valid(dst) && TiesInBounds(src, dst, ties) && i < |ties| && Chained(src, dst, ties, chain)
    ensures LeastNext(src, dst, chain[i], chain[i + 1], ties[i])
  {
    hide LeastNext;
  }

  lemma EmptyStarts(src: seq<Node>, dst: seq<Node>)
    requires Valid(src) && Valid(dst)
    ensures Rel(map[]) == map[] && IsSimulation(src, dst, Rel(map[]))
  {
    assert PairsOf(map[]) == {};
  }

  lemma NoneWrapsSound(src: seq<Node>, dst: seq<Node>, ties: seq<Tie>)
    requires Valid(src) && Valid(dst) && TiesInBounds(src, dst, ties)
    ensures NoneWraps(src, dst, ties) ==> SoundRoots(src, dst, ties)
  {
    hide NoWrap, Valid;
  }

  lemma SeatsMore(src: seq<Node>, dst: seq<Node>, v: Relation, w: Relation, c: Option<Cell>, d: Option<Cell>)
    requires Valid(src) && Valid(dst) && InBounds(src, c) && InBounds(dst, d)
    requires Within(v, w) && Seats(src, dst, v, c, d)
    ensures Seats(src, dst, w, c, d)
  {
    hide Meet;
  }

  /** A relation with a root that does not fit is no simulation. */
  lemma MisfitStays(src: seq<Node>, dst: seq<Node>, w: Relation, ties: seq<Tie>)
    requires Valid(src) && Valid(dst) && TiesInBounds(src, dst, ties) && SeatsAll(src, dst, w, ties)
    requires !FitRoots(src, dst, ties)
    ensures !IsSimulation(src, dst, w)
  {
    hide RootFits, IsSimulation, Seats, Valid;
    var i :| 0 <= i < |ties| && !RootFits(src, dst, ties[i].callee, ties[i].caller);
    if IsSimulation(src, dst, w) {
      SeatedFits(src, dst, w, ties[i].callee, ties[i].caller);
    }
  }

  /** What simulating one tie says about the pair under it. */
  lemma OneTieSimulated(src: seq<Node>, dst: seq<Node>, w: Relation, c: Cell, d: Cell)
    requires Valid(src) && Valid(dst) && c.node < |src| && d.node < |dst|
    requires Simulates(src, dst, w, [Tie(Some(c), Some(d))])
    ensures Covers(src, dst, w, Some(c), Some(d))
    ensures var p := (Resolve(src, c.node).node, Resolve(dst, d.node).node); p in w && PairHolds(src, dst, p, w[p], w)
  {
    var ties := [Tie(Some(c), Some(d))];
    assert ties[0].callee == Some(c) && ties[0].caller == Some(d);
    assert Covers(src, dst, w, ties[0].callee, ties[0].caller);
    hide Valid, PairHolds;
  }

  /** One more tie has been mapped. */
  lemma TieMapped(src: seq<Node>, dst: seq<Node>, before: Relation, now: Relation, ties: seq<Tie>, i: nat)
    requires Valid(src) && Valid(dst) && TiesInBounds(src, dst, ties) && i < |ties|
    requires SeatsAll(src, dst, before, ties[..i]) && Within(before, now)
    requires Seats(src, dst, now, ties[i].callee, ties[i].caller)
    requires FitRoots(src, dst, ties[..i]) ==> IsSimulation(src, dst, before)
    requires IsSimulation(src, dst, before) ==>
              (IsSimulation(src, dst, now) <==> RootFits(src, dst, ties[i].callee, ties[i].caller))
    ensures SeatsAll(src, dst, now, ties[..i + 1])
    ensures IsSimulation(src, dst, now) <==> FitRoots(src, dst, ties[..i + 1])
  {
    hide RootFits, IsSimulation, Seats, Valid;
    var done := ties[..i + 1];
    forall j | 0 <= j < |done| ensures Seats(src, dst, now, done[j].callee, done[j].caller) {
      if j < i {
        assert done[j] == ties[..i][j];
        SeatsMore(src, dst, before, now, done[j].callee, done[j].caller);
      }
    }
    if FitRoots(src, dst, done) {
      assert forall j | 0 <= j < i :: ties[..i][j] == done[j];
      assert done[i] == ties[i];
    } else {
      MisfitStays(src, dst, now, done);
    }
  }

  lemma AllMapped(src: seq<Node>, dst: seq<Node>, w: Relation, ties: seq<Tie>)
    requires Valid(src) && Valid(dst) && TiesInBounds(src, dst, ties) && SeatsAll(src, dst, w, ties)
    ensures LandRoots(src, dst, ties) ==> CoversAll(src, dst, w, ties)
    ensures InWords(src, dst, ties) ==> (CoversAll(src, dst, w, ties) <==> LandRoots(src, dst, ties))
  {
    hide RootLands, Covers, InWord, Seats, Valid;
    forall i | 0 <= i < |ties|
      ensures RootLands(src, dst, ties[i].callee, ties[i].caller) ==>
                Covers(src, dst, w, ties[i].callee, ties[i].caller)
      ensures InWord(src, ties[i].callee) ==>
                (Covers(src, dst, w, ties[i].callee, ties[i].caller) <==>
                 RootLands(src, dst, ties[i].callee, ties[i].caller))
    {
      SeatedCovers(src, dst, w, ties[i].callee, ties[i].caller);
    }
  }

  /** A relation inside a functional or injective one is functional or injective. */
  lemma WithinKeeps(dst: seq<Node>, v: Relation, w: Relation)
    requires Within(v, w)
    ensures Functional(w) ==> Functional(v)
    ensures Injective(dst, w, true) ==> Injective(dst, v, true)
  {
  }

  /** What is one cell for the callee is one cell for the caller, at the tied cells and at any distance behind them. */
  ghost predicate TiesRespected(callee: seq<Node>, caller: seq<Node>, ties: seq<Tie>)
    requires Valid(callee) && Valid(caller) && TiesInBounds(callee, caller, ties)
  {
    forall i, j | 0 <= i < |ties| && 0 <= j < |ties| :: PairRespected(callee, caller, ties[i], ties[j])
  }

  ghost predicate PairRespected(callee: seq<Node>, caller: seq<Node>, s: Tie, t: Tie)
    requires Acyclic(callee) && Acyclic(caller)
  {
    s.callee.Some? && s.caller.Some? && t.callee.Some? && t.caller.Some? ==>
      forall k: nat, l: nat :: Same(callee, Shift(s.callee.value, k), Shift(t.callee.value, l)) ==>
        Same(caller, Shift(s.caller.value, k), Shift(t.caller.value, l))
  }

  lemma SimulatedRespects(callee: seq<Node>, caller: seq<Node>, w: Relation, ties: seq<Tie>)
    requires Valid(callee) && Valid(caller) && TiesInBounds(callee, caller, ties)
    requires Simulates(callee, caller, w, ties) && Functional(w)
    ensures TiesRespected(callee, caller, ties)
  {
    hide Valid, IsSimulation, Functional, Covers, Same, Shift, Acyclic;
    ValidAcyclic(callee);
    ValidAcyclic(caller);
    forall i, j | 0 <= i < |ties| && 0 <= j < |ties| ensures PairRespected(callee, caller, ties[i], ties[j]) {
      var s, t := ties[i], ties[j];
      if s.callee.Some? && s.caller.Some? && t.callee.Some? && t.caller.Some? {
        forall k: nat, l: nat | Same(callee, Shift(s.callee.value, k), Shift(t.callee.value, l))
          ensures Same(caller, Shift(s.caller.value, k), Shift(t.caller.value, l))
        {
          TiesAgree(callee, caller, w, s.callee.value, s.caller.value, t.callee.value, t.caller.value, k, l);
        }
      }
    }
  }

  /** Which way, if any, facts must be propagated across a call. */
  method DecidePropagation(callee: seq<Node>, caller: seq<Node>, ties: seq<Tie>) returns (d: Direction)
    requires Valid(callee) && Valid(caller) && TiesInBounds(callee, caller, ties)
    ensures SoundRoots(callee, caller, ties) && d != Up ==>
              exists w :: Simulates(callee, caller, w, ties) && Functional(w)
    ensures SoundRoots(callee, caller, ties) && d != Up ==> TiesRespected(callee, caller, ties)
    ensures SoundRoots(callee, caller, ties) && d == Neither ==>
              exists w :: Simulates(callee, caller, w, ties) && Functional(w) && Injective(caller, w, true)
    ensures NoneWraps(callee, caller, ties) ==>
              && (d == Up <==> !exists w :: Simulates(callee, caller, w, ties) && Functional(w))
              && (d == Neither <==>
                  exists w :: Simulates(callee, caller, w, ties) && Functional(w) && Injective(caller, w, true))
    ensures |ties| == 1 ==>
              forall w :: Admits(callee, caller, w, map[], ties[0].callee, ties[0].caller) && Functional(w) ==> d != Up
    // whether or not offsets wrap, the decision is read off the least relation that admits each tie in turn
    ensures d == Up <==> !exists chain :: Chained(callee, caller, ties, chain) && Functional(chain[|ties|])
    ensures d == Neither <==>
              exists chain ::
                && Chained(callee, caller, ties, chain) && Functional(chain[|ties|])
                && Injective(caller, chain[|ties|], true)
  {
    NoneWrapsSound(callee, caller, ties);
    hide Valid, SoundRoots, InWords, Admits, Simulates, NoneWraps, Functional, Injective, Rel, Within, LeastNext;
    hide TiesRespected;
    var m := new SimulationMapper(callee, caller);
    d := Up;
    var ok := ComputeMapping(m, ties);
    ghost var v := Rel(m.sim);
    if NoneWraps(callee, caller, ties) {
      forall w | Simulates(callee, caller, w, ties)
        ensures Functional(w) ==> Functional(v)
        ensures Injective(caller, w, true) ==> Injective(caller, v, true)
      {
        WithinKeeps(caller, v, w);
      }
    }
    if |ties| == 1 {
      forall w | Admits(callee, caller, w, map[], ties[0].callee, ties[0].caller)
        ensures Functional(w) ==> Functional(v)
      {
        WithinKeeps(caller, v, w);
      }
    }
    if ok {
      var single := m.IsFunction();
      if single {
        var injective := m.IsInjective(true);
        d := if injective then Neither else Down;
        if SoundRoots(callee, caller, ties) {
          SimulatedRespects(callee, caller, v, ties);
        }
      }
    }
  }
}
