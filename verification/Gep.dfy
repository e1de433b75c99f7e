/** Pointer arithmetic: constant offsets, strides, and the cell a GEP yields. */
module Gep {
  import opened Layout
  import opened PointsTo
  import opened Flattening
  import opened Forwarding
  import opened Coarsening
  import opened Changes
  import opened Candidates
  import opened Steps
  import opened EngineFacts
  import opened LinkFacts
  import opened MergeFacts
  import opened MergeLaws
  import opened Engine
  import opened Strides

  // ---------------------------------------------------------------- divisors

  /** `d` divides `n`; only 0 is divided by 0. */
  predicate Divides(d: nat, n: int) {
    if d == 0 then n == 0 else n % d == 0
  }

  ghost predicate IsGcd(g: nat, a: nat, b: nat) {
    forall d: nat :: Divides(d, g) <==> Divides(d, a) && Divides(d, b)
  }

  lemma DividesSum(d: nat, a: int, b: int)
    requires Divides(d, a)
    ensures Divides(d, a + b) <==> Divides(d, b)
  {
    if d > 0 {
      assert a == (a / d) * d;
      ModShift(a / d, b, d);
    }
  }

  lemma DividesMultiple(d: nat, k: int, a: int)
    requires Divides(d, a)
    ensures Divides(d, k * a)
  {
    if d > 0 {
      var q := a / d;
      assert a == q * d;
      assert k * a == (k * q) * d + 0;
      ModShift(k * q, 0, d);
    }
  }

  lemma DividesSelf(d: nat)
    ensures Divides(d, d)
  {
    if d > 0 {
      DivModUnique(d, d, 1, 0);
    }
  }

  lemma DividesRemainder(d: nat, a: nat, b: nat)
    requires b > 0 && Divides(d, b)
    ensures Divides(d, a % b) <==> Divides(d, a)
  {
    DividesMultiple(d, a / b, b);
    assert a == (a / b) * b + a % b;
    DividesSum(d, (a / b) * b, a % b);
  }

  /** Euclid's loop finds the greatest common divisor. */
  method Gcd(a: nat, b: nat) returns (g: nat)
    ensures IsGcd(g, a, b)
  {
    var x, y := a, b;
    while y != 0
      invariant forall d: nat :: Divides(d, x) && Divides(d, y) <==> Divides(d, a) && Divides(d, b)
      decreases y
    {
      forall d: nat ensures Divides(d, y) && Divides(d, x % y) <==> Divides(d, x) && Divides(d, y) {
        if Divides(d, y) {
          DividesRemainder(d, x, y);
        }
      }
      hide Divides;
      x, y := y, x % y;
    }
    forall d: nat ensures Divides(d, 0) {
    }
    return x;
  }

  // ---------------------------------------------------------------- offsets of a GEP

  datatype Index = Const(value: int) | Var

  /** What the next index steps over: whole objects behind a pointer, or the parts of a type. */
  datatype At = Behind(elem: Ty) | Inside(ty: Ty)

  /** The step a constant or run-time index makes. */
  function Step(at: At, value: int): int
    requires Enters(at, Const(value))
  {
    match at
    case Behind(t) => value * SizeOf(t)
    case Inside(Array(t, _)) => value * SizeOf(t)
    case Inside(Struct(ms, _)) => ms[value].off
  }

  /** Index `i` can be applied here: structs take constant member numbers. */
  predicate Enters(at: At, i: Index) {
    match at
    case Behind(_) => true
    case Inside(Array(_, _)) => true
    case Inside(Struct(ms, _)) => i.Const? && 0 <= i.value < |ms|
    case _ => false
  }

  function Into(at: At, i: Index): At
    requires Enters(at, i)
  {
    match at
    case Behind(t) => Inside(t)
    case Inside(Array(t, _)) => Inside(t)
    case Inside(Struct(ms, _)) => Inside(ms[i.value].ty)
  }

  predicate WellIndexed(at: At, indices: seq<Index>)
    decreases |indices|
  {
    indices == [] || (Enters(at, indices[0]) && WellIndexed(Into(at, indices[0]), indices[1..]))
  }

  /** The byte offset the program computes when `values` are the run-time values of the indices. */
  ghost function TrueOffset(at: At, indices: seq<Index>, values: seq<int>): int
    requires WellIndexed(at, indices) && |values| == |indices|
    decreases |indices|
  {
    if indices == [] then 0 else
      Step(at, if indices[0].Const? then indices[0].value else values[0]) +
      TrueOffset(Into(at, indices[0]), indices[1..], values[1..])
  }

  /** Every variable index moves by a multiple of `d`. */
  ghost predicate StridesDivided(at: At, indices: seq<Index>, d: nat)
    requires WellIndexed(at, indices)
    decreases |indices|
  {
    indices == [] ||
    ((indices[0].Var? ==> Divides(d, Step(at, 1))) && StridesDivided(Into(at, indices[0]), indices[1..], d))
  }

  /** All indices are constants that number parts of what they are applied to. */
  ghost predicate NumberParts(t: Ty, indices: seq<Index>)
    requires WellIndexed(At.Inside(t), indices)
    decreases |indices|
  {
    indices == [] ||
    (indices[0].Const? && 0 <= indices[0].value < |Parts(t)| &&
     NumberParts(Into(At.Inside(t), indices[0]).ty, indices[1..]))
  }

  /** The type of the part the indices number. */
  ghost function PartReached(t: Ty, indices: seq<Index>): Ty
    requires WellIndexed(At.Inside(t), indices)
    decreases |indices|
  {
    if indices == [] then t else PartReached(Into(At.Inside(t), indices[0]).ty, indices[1..])
  }

  /** A GEP offset is where the type has the part: whatever primitive the part has, the type has there. */
  lemma {:induction false} PartAtOffset(t: Ty, indices: seq<Index>, values: seq<int>, off: int, p: Ty)
    requires WellIndexed(At.Inside(t), indices) && |values| == |indices| && NumberParts(t, indices)
    requires LeafAt(PartReached(t, indices), off, p)
    ensures LeafAt(t, TrueOffset(At.Inside(t), indices, values) + off, p)
    decreases |indices|
  {
    hide LeafAt, Parts, SizeOf;
    if indices != [] {
      var i: nat, rest := indices[0].value, Into(At.Inside(t), indices[0]).ty;
      PartAtOffset(rest, indices[1..], values[1..], off, p);
      PartStep(t, i);
      hide Step, Into, NumberParts, PartReached;
      var k := TrueOffset(At.Inside(t), indices, values) + off;
      LeafInPart(t, k, p);
      assert LeafAt(Parts(t)[i].ty, k - Parts(t)[i].off, p);
    }
  }

  /** The first index of a GEP goes over the elements behind the pointer as over those of an array. */
  lemma PartBehind(t: Ty, n: nat, indices: seq<Index>, values: seq<int>, off: int, p: Ty)
    requires WellIndexed(Behind(t), indices) && |values| == |indices| && indices != []
    requires WellIndexed(At.Inside(Array(t, n)), indices) && NumberParts(Array(t, n), indices)
    requires LeafAt(PartReached(Array(t, n), indices), off, p)
    ensures LeafAt(Array(t, n), TrueOffset(Behind(t), indices, values) + off, p)
  {
    hide LeafAt, SizeOf, PartReached, NumberParts;
    PartAtOffset(Array(t, n), indices, values, off, p);
  }

  lemma PartStep(t: Ty, i: nat)
    requires Enters(At.Inside(t), Const(i)) && i < |Parts(t)|
    ensures !Primitive(t) && Parts(t)[i] == Member(Step(At.Inside(t), i), Into(At.Inside(t), Const(i)).ty)
  {
  }

  lemma AllDivideZero()
    ensures forall d: nat :: Divides(d, 0)
  {
  }

  lemma StepsByStride(at: At, value: int)
    requires Enters(at, Var)
    ensures Step(at, 1) >= 0 && Step(at, value) == value * Step(at, 1)
  {
  }

  lemma NextIndex(at: At, indices: seq<Index>, values: seq<int>)
    requires indices != [] && WellIndexed(at, indices) && |values| == |indices|
    ensures Enters(at, indices[0]) && WellIndexed(Into(at, indices[0]), indices[1..])
    ensures indices[0].Var? ==> Enters(at, Const(1))
    ensures TrueOffset(at, indices, values) ==
              Step(at, if indices[0].Const? then indices[0].value else values[0]) +
              TrueOffset(Into(at, indices[0]), indices[1..], values[1..])
    ensures forall d: nat :: StridesDivided(at, indices, d) <==>
              (indices[0].Var? ==> Divides(d, Step(at, 1))) && StridesDivided(Into(at, indices[0]), indices[1..], d)
  {
  }

  lemma StridesEnd(at: At, indices: seq<Index>, values: seq<int>)
    requires indices == [] && values == [] && WellIndexed(at, indices)
    ensures TrueOffset(at, indices, values) == 0 && forall d: nat :: StridesDivided(at, indices, d)
  {
  }

  /** Any two runs differ by a multiple of every divisor of the strides. */
  lemma {:induction false} OffsetsCongruent(at: At, indices: seq<Index>, u: seq<int>, v: seq<int>, d: nat)
    requires WellIndexed(at, indices) && |u| == |v| == |indices| && StridesDivided(at, indices, d)
    ensures Divides(d, TrueOffset(at, indices, u) - TrueOffset(at, indices, v))
    decreases |indices|
  {
    if indices == [] {
      AllDivideZero();
    } else {
      hide *;
      NextIndex(at, indices, u);
      NextIndex(at, indices, v);
      var at' := Into(at, indices[0]);
      OffsetsCongruent(at', indices[1..], u[1..], v[1..], d);
      if indices[0].Var? {
        StepsApart(at, u[0], v[0]);
        DividesMultiple(d, u[0] - v[0], Step(at, 1));
        DividesSum(d, Step(at, u[0]) - Step(at, v[0]),
                   TrueOffset(at', indices[1..], u[1..]) - TrueOffset(at', indices[1..], v[1..]));
      }
    }
  }

  lemma StepsApart(at: At, a: int, b: int)
    requires Enters(at, Var)
    ensures Enters(at, Const(1)) && Enters(at, Const(a)) && Enters(at, Const(b))
    ensures Step(at, a) - Step(at, b) == (a - b) * Step(at, 1)
  {
    StepsByStride(at, a);
    StepsByStride(at, b);
    var k := Step(at, 1);
    assert a * k - b * k == (a - b) * k;
  }

  /** The run in which every variable index is 0. */
  ghost function Zeros(n: nat): (z: seq<int>)
    ensures |z| == n
  {
    seq(n, _ => 0)
  }

  /** The constant part of a GEP's offset, and the greatest stride of its variable part. */
  method ComputeGepOffset(elem: Ty, indices: seq<Index>) returns (noffset: int, divisor: nat)
    requires WellIndexed(Behind(elem), indices)
    ensures noffset == TrueOffset(Behind(elem), indices, Zeros(|indices|))
    ensures forall d: nat :: Divides(d, divisor) <==> StridesDivided(Behind(elem), indices, d)
    ensures forall values: seq<int> :: |values| == |indices| ==>
              Divides(divisor, TrueOffset(Behind(elem), indices, values) - noffset)
  {
    hide WellIndexed, TrueOffset, StridesDivided, Divides;
    var at := Behind(elem);
    ghost var at0, zeros := at, Zeros(|indices|);
    noffset, divisor := 0, 0;
    var i := 0;
    assert indices[i..] == indices && zeros[i..] == zeros;
    AllDivideZero();
    while i < |indices|
      invariant i <= |indices| && WellIndexed(at, indices[i..])
      invariant noffset + TrueOffset(at, indices[i..], zeros[i..]) == TrueOffset(at0, indices, zeros)
      invariant forall d: nat :: Divides(d, divisor) && StridesDivided(at, indices[i..], d) <==>
                StridesDivided(at0, indices, d)
    {
      NextIndex(at, indices[i..], zeros[i..]);
      assert indices[i..][1..] == indices[i + 1..] && zeros[i..][1..] == zeros[i + 1..];
      ghost var before := divisor;
      var at' := Into(at, indices[i]);
      match indices[i] {
        case Const(v) => noffset := noffset + Step(at, v);
        case Var =>
          StepsByStride(at, 0);
          var sz: nat := Step(at, 1);
          if divisor == 0 { divisor := sz; } else { divisor := Gcd(divisor, sz); }
      }
      at := at';
      i := i + 1;
    }
    assert |indices[i..]| == 0;
    StridesEnd(at, indices[i..], zeros[i..]);
    DividesSelf(divisor);
    forall values: seq<int> | |values| == |indices|
      ensures Divides(divisor, TrueOffset(at0, indices, values) - noffset)
    {
      OffsetsCongruent(at0, indices, values, zeros, divisor);
    }
  }

  // ---------------------------------------------------------------- the cell of a GEP

  /** The distance after which the offsets of `nd` repeat; 0 when they never do. */
  function Period(nd: Node): nat {
    if nd.isCollapsed then 1 else if nd.isArray then nd.size else 0
  }

  /** Two offsets of a node are one cell exactly when its period divides their distance. */
  lemma SameAdjusted(nd: Node, a: nat, b: nat)
    requires SoundNode(nd)
    ensures Adjust(nd, a) == Adjust(nd, b) <==> Divides(Period(nd), a - b)
  {
    if !nd.isCollapsed && nd.isArray {
      ModDistance(a, b, nd.size);
    }
  }

  /** Wherever the program's indices take it, `gep` is the cell it reaches from `base`,
      and the same holds for every byte after it. */
  ghost predicate OneCell(ns: seq<Node>, gep: Cell, base: Cell, elem: Ty, indices: seq<Index>)
    requires Acyclic(ns) && WellIndexed(Behind(elem), indices)
  {
    forall values: seq<int>, j: nat | |values| == |indices| ::
      var x := j + TrueOffset(Behind(elem), indices, values);
      x >= 0 ==> Same(ns, Shift(gep, j), Shift(base, x))
  }

  /** The offset of the run in which every variable index is 0. */
  ghost function FixedOffset(elem: Ty, indices: seq<Index>): int
    requires WellIndexed(Behind(elem), indices)
  {
    TrueOffset(Behind(elem), indices, Zeros(|indices|))
  }

  lemma SameOnRep(ns: seq<Node>, n: nat, a: nat, b: nat)
    requires Acyclic(ns) && IsRep(ns, n) && SoundNode(ns[n])
    ensures Same(ns, Cell(n, a), Cell(n, b)) <==> Divides(Period(ns[n]), a - b)
  {
    SameAdjusted(ns[n], a, b);
    hide Adjust, Divides, SoundNode;
  }

  lemma AnotherRun(elem: Ty, indices: seq<Index>, values: seq<int>, d: nat)
    requires WellIndexed(Behind(elem), indices) && StridesDivided(Behind(elem), indices, d) && |values| == |indices|
    ensures Divides(d, TrueOffset(Behind(elem), indices, values) - FixedOffset(elem, indices))
  {
    OffsetsCongruent(Behind(elem), indices, values, Zeros(|indices|), d);
  }

  /** All runs agree with the run of zeros up to multiples of `d`. */
  ghost predicate RunsAgree(at: At, indices: seq<Index>, d: nat)
    requires WellIndexed(at, indices)
  {
    forall values: seq<int> :: |values| == |indices| ==>
      Divides(d, TrueOffset(at, indices, values) - TrueOffset(at, indices, Zeros(|indices|)))
  }

  /** Runs that all agree up to `d` have strides that `d` divides. */
  lemma {:induction false} StridesNeeded(at: At, indices: seq<Index>, d: nat)
    requires WellIndexed(at, indices) && RunsAgree(at, indices, d)
    ensures StridesDivided(at, indices, d)
    decreases |indices|
  {
    if indices != [] {
      hide Divides, TrueOffset, StridesDivided, WellIndexed, Zeros, Step, Into, Enters;
      var n := |indices| - 1;
      NextIndex(at, indices, Zeros(n + 1));
      assert RunsAgree(Into(at, indices[0]), indices[1..], d) by {
        forall rest: seq<int> | |rest| == n
          ensures Divides(d, TrueOffset(Into(at, indices[0]), indices[1..], rest)
                             - TrueOffset(Into(at, indices[0]), indices[1..], Zeros(n)))
        {
          TailAgrees(at, indices, d, rest);
        }
      }
      StridesNeeded(Into(at, indices[0]), indices[1..], d);
      if indices[0].Var? {
        HeadDivided(at, indices, d);
      }
    }
  }

  lemma TailAgrees(at: At, indices: seq<Index>, d: nat, rest: seq<int>)
    requires WellIndexed(at, indices) && RunsAgree(at, indices, d) && |rest| + 1 == |indices|
    ensures WellIndexed(Into(at, indices[0]), indices[1..])
    ensures Divides(d, TrueOffset(Into(at, indices[0]), indices[1..], rest)
                       - TrueOffset(Into(at, indices[0]), indices[1..], Zeros(|rest|)))
  {
    hide Divides, TrueOffset, WellIndexed, Zeros, Step, Into, Enters;
    ZerosTail(|rest|);
    NextIndex(at, indices, Zeros(|rest| + 1));
    var run := [0] + rest;
    assert |run| == |indices| && run[1..] == rest;
    NextIndex(at, indices, run);
  }

  lemma HeadDivided(at: At, indices: seq<Index>, d: nat)
    requires WellIndexed(at, indices) && RunsAgree(at, indices, d) && indices != [] && indices[0].Var?
    ensures Enters(at, Const(1)) && Divides(d, Step(at, 1))
  {
    hide Divides, TrueOffset, WellIndexed, Zeros, Step, Into, Enters;
    var n := |indices| - 1;
    ZerosTail(n);
    NextIndex(at, indices, Zeros(n + 1));
    var run := [1] + Zeros(n);
    assert |run| == |indices| && run[1..] == Zeros(n);
    NextIndex(at, indices, run);
    StepsByStride(at, 0);
  }

  lemma ZerosTail(n: nat)
    ensures Zeros(n + 1)[0] == 0 && Zeros(n + 1)[1..] == Zeros(n)
  {
  }

  /** A cell of the base's own node is the GEP's cell exactly when the node's period
      divides its distance from the fixed offset and every variable stride. */
  lemma InPlaceCell(ns: seq<Node>, r: Cell, k: nat, elem: Ty, indices: seq<Index>)
    requires Valid(ns) && IsRep(ns, r.node) && WellIndexed(Behind(elem), indices)
    ensures OneCell(ns, Cell(r.node, k), r, elem, indices) <==>
              Divides(Period(ns[r.node]), k - (r.off + FixedOffset(elem, indices))) &&
              StridesDivided(Behind(elem), indices, Period(ns[r.node]))
  {
    hide Valid, Acyclic, SoundNode, WellIndexed, TrueOffset, StridesDivided, Divides, Same, Period, OneCell;
    hide FixedOffset, Zeros, Shift;
    ValidAcyclic(ns);
    SoundRep(ns, r.node);
    if OneCell(ns, Cell(r.node, k), r, elem, indices) {
      InPlaceNeeds(ns, r, k, elem, indices);
    } else if Divides(Period(ns[r.node]), k - (r.off + FixedOffset(elem, indices)))
              && StridesDivided(Behind(elem), indices, Period(ns[r.node])) {
      InPlaceSuffices(ns, r, k, elem, indices);
    }
  }

  lemma InPlaceNeeds(ns: seq<Node>, r: Cell, k: nat, elem: Ty, indices: seq<Index>)
    requires Acyclic(ns) && IsRep(ns, r.node) && SoundNode(ns[r.node]) && WellIndexed(Behind(elem), indices)
    requires OneCell(ns, Cell(r.node, k), r, elem, indices)
    ensures Divides(Period(ns[r.node]), k - (r.off + FixedOffset(elem, indices)))
    ensures StridesDivided(Behind(elem), indices, Period(ns[r.node]))
  {
    hide Valid, Acyclic, SoundNode, WellIndexed, TrueOffset, StridesDivided, Divides, Same, Period, OneCell;
    hide FixedOffset, Zeros, Shift;
    var at, d, zeros := Behind(elem), Period(ns[r.node]), Zeros(|indices|);
    FixedIs(elem, indices);
    RunFar(ns, r, k, elem, indices, zeros);
    forall values: seq<int> | |values| == |indices|
      ensures Divides(d, TrueOffset(at, indices, values) - TrueOffset(at, indices, zeros))
    {
      RunFar(ns, r, k, elem, indices, values);
      DividesBack(d, k - (r.off + TrueOffset(at, indices, zeros)), k - (r.off + TrueOffset(at, indices, values)));
    }
    assert RunsAgree(at, indices, d);
    StridesNeeded(at, indices, d);
  }

  lemma InPlaceSuffices(ns: seq<Node>, r: Cell, k: nat, elem: Ty, indices: seq<Index>)
    requires Acyclic(ns) && IsRep(ns, r.node) && SoundNode(ns[r.node]) && WellIndexed(Behind(elem), indices)
    requires Divides(Period(ns[r.node]), k - (r.off + FixedOffset(elem, indices)))
    requires StridesDivided(Behind(elem), indices, Period(ns[r.node]))
    ensures OneCell(ns, Cell(r.node, k), r, elem, indices)
  {
    hide Valid, Acyclic, SoundNode, WellIndexed, TrueOffset, StridesDivided, Divides, Same, Period, OneCell;
    hide FixedOffset, Zeros, Shift;
    var at, d, fixed := Behind(elem), Period(ns[r.node]), FixedOffset(elem, indices);
    forall values: seq<int>, j: nat | |values| == |indices| && j + TrueOffset(at, indices, values) >= 0
      ensures Same(ns, Shift(Cell(r.node, k), j), Shift(r, j + TrueOffset(at, indices, values)))
    {
      var x: nat := j + TrueOffset(at, indices, values);
      AnotherRun(elem, indices, values, d);
      DividesBack(d, k - (r.off + fixed), TrueOffset(at, indices, values) - fixed);
      SameOnRep(ns, r.node, k + j, r.off + x);
      ShiftIs(Cell(r.node, k), j);
      ShiftIs(r, x);
    }
    Runs(ns, Cell(r.node, k), r, elem, indices);
  }

  lemma ShiftIs(c: Cell, k: nat)
    ensures Shift(c, k) == Cell(c.node, c.off + k)
  {
  }

  lemma FixedIs(elem: Ty, indices: seq<Index>)
    requires WellIndexed(Behind(elem), indices)
    ensures FixedOffset(elem, indices) == TrueOffset(Behind(elem), indices, Zeros(|indices|))
  {
  }

  lemma Runs(ns: seq<Node>, gep: Cell, base: Cell, elem: Ty, indices: seq<Index>)
    requires Acyclic(ns) && WellIndexed(Behind(elem), indices)
    requires forall values: seq<int>, j: nat ::
             |values| == |indices| && j + TrueOffset(Behind(elem), indices, values) >= 0 ==>
               Same(ns, Shift(gep, j), Shift(base, j + TrueOffset(Behind(elem), indices, values)))
    ensures OneCell(ns, gep, base, elem, indices)
  {
  }

  lemma RunFar(ns: seq<Node>, r: Cell, k: nat, elem: Ty, indices: seq<Index>, values: seq<int>)
    requires Acyclic(ns) && IsRep(ns, r.node) && SoundNode(ns[r.node]) && WellIndexed(Behind(elem), indices)
    requires OneCell(ns, Cell(r.node, k), r, elem, indices) && |values| == |indices|
    ensures Divides(Period(ns[r.node]), k - (r.off + TrueOffset(Behind(elem), indices, values)))
  {
    hide Divides, Period, WellIndexed, TrueOffset, SoundNode, Same;
    var t := TrueOffset(Behind(elem), indices, values);
    var j := if t < 0 then -t else 0;
    assert Same(ns, Shift(Cell(r.node, k), j), Shift(r, j + t));
    SameOnRep(ns, r.node, k + j, r.off + (j + t));
  }

  lemma DividesBack(d: nat, a: int, b: int)
    requires Divides(d, a) && Divides(d, b)
    ensures Divides(d, a - b)
  {
    DividesSum(d, b, a - b);
  }

  /** A fresh array of the right stride, merged with the base, holds the GEP's cell. */
  lemma FreshArrayCell(u: State, v: State, n: nat, r: Cell, elem: Ty, indices: seq<Index>, divisor: nat)
    requires Later(u, v, {}) && IsRep(u.nodes, n) && divisor > 0 && Period(u.nodes[n]) == divisor
    requires Acyclic(v.nodes) ==> Aligned(v.nodes, n, r.node, 0)
    requires WellIndexed(Behind(elem), indices) && StridesDivided(Behind(elem), indices, divisor)
    requires FixedOffset(elem, indices) >= 0
    ensures Acyclic(v.nodes)
    ensures OneCell(v.nodes, Cell(n, FixedOffset(elem, indices) + r.off), r, elem, indices)
  {
    hide Later, Valid, Follows, SoundNode, WellIndexed, TrueOffset, StridesDivided, Divides, Same, Period;
    hide OneCell, Aligned;
    LaterRep(u, v, n);
    var fixed := FixedOffset(elem, indices);
    var gep := Cell(n, fixed + r.off);
    forall values: seq<int>, j: nat | |values| == |indices| && j + TrueOffset(Behind(elem), indices, values) >= 0
      ensures Same(v.nodes, Shift(gep, j), Shift(r, j + TrueOffset(Behind(elem), indices, values)))
    {
      var x: nat := j + TrueOffset(Behind(elem), indices, values);
      AnotherRun(elem, indices, values, divisor);
      SameOnRep(u.nodes, n, r.off + x, fixed + r.off + j);
      SameStays(u, v, Cell(n, r.off + x), Cell(n, fixed + r.off + j));
      var k := r.off + x;
      AlignedAt(v.nodes, n, r.node, 0, k);
      SameTrans(v.nodes, Cell(r.node, k), Cell(n, k), Shift(gep, j));
    }
    Runs(v.nodes, gep, r, elem, indices);
  }

  lemma LaterRep(u: State, v: State, n: nat)
    requires Later(u, v, {}) && IsRep(u.nodes, n)
    ensures Acyclic(u.nodes) && SoundNode(u.nodes[n]) && Acyclic(v.nodes) && n < |v.nodes|
  {
  }

  lemma AlignedAt(ns: seq<Node>, a: nat, b: nat, o: nat, k: nat)
    requires Acyclic(ns) && Aligned(ns, a, b, o)
    ensures Same(ns, Cell(b, k), Cell(a, o + k)) && a < |ns| && b < |ns|
  {
  }

  lemma AdjustedNear(nd: Node, k: nat)
    requires SoundNode(nd)
    ensures Divides(Period(nd), k - Adjust(nd, k))
  {
    AdjustAdjusted(nd, k);
    SameAdjusted(nd, k, Adjust(nd, k));
  }

  /** The base and the cell it resolved to are interchangeable from then on. */
  lemma Rebased(t: State, v: State, base: Cell, r: Cell, gep: Cell, elem: Ty, indices: seq<Index>)
    requires Coarsens(t.nodes, v.nodes, {}) && base.node < |t.nodes|
    requires r == Shift(Resolve(t.nodes, base.node), base.off)
    requires WellIndexed(Behind(elem), indices)
    ensures Acyclic(v.nodes)
    ensures OneCell(v.nodes, gep, base, elem, indices) <==> OneCell(v.nodes, gep, r, elem, indices)
  {
    hide Coarsens, Follows, TrueOffset, WellIndexed, Same, OneCell;
    CoarsensBasics(t.nodes, v.nodes, {});
    forall k: nat ensures Same(v.nodes, Shift(r, k), Shift(base, k)) {
      SameResolved(t.nodes, Shift(base, k));
      SameLater(t.nodes, v.nodes, Shift(r, k), Shift(base, k));
    }
    SameCellsRebase(v.nodes, base, r, gep, elem, indices);
  }

  lemma SameCellsRebase(ns: seq<Node>, base: Cell, r: Cell, gep: Cell, elem: Ty, indices: seq<Index>)
    requires Acyclic(ns) && WellIndexed(Behind(elem), indices) && forall k: nat :: Same(ns, Shift(r, k), Shift(base, k))
    ensures OneCell(ns, gep, base, elem, indices) <==> OneCell(ns, gep, r, elem, indices)
  {
    hide TrueOffset, WellIndexed, Canon;
  }

  /** A constant part that goes back, but not past the start. */
  predicate InRange(off: nat, fixed: int) {
    fixed < 0 && off + fixed >= 0
  }

  /** When the GEP of a cell at adjusted offset `off` of `nd` is one cell for all runs: its constant part does not
      go back, or `nd` repeats with every stride, or it goes back past the start of an array, which collapses. */
  ghost predicate Exact(nd: Node, off: nat, elem: Ty, indices: seq<Index>)
    requires WellIndexed(Behind(elem), indices)
  {
    || FixedOffset(elem, indices) >= 0
    || StridesDivided(Behind(elem), indices, Period(nd))
    || (nd.isArray && off + FixedOffset(elem, indices) < 0)
  }

  lemma BaseResolved(s: seq<Node>, t: State, base: Cell, r: Cell)
    requires Valid(s) && base.node < |s| && Compressed(s, t.nodes) && r == Shift(Resolve(s, base.node), base.off)
    ensures Valid(t.nodes) && Coarsens(s, t.nodes, {}) && IsRep(t.nodes, r.node)
    ensures |t.nodes| == |s| && r == Shift(Resolve(t.nodes, base.node), base.off)
    ensures t.nodes[r.node] == s[r.node]
  {
    CompressedCoarsens(s, t.nodes);
    assert t.nodes[r.node] == s[r.node].(fwd := t.nodes[r.node].fwd);
  }

  lemma InBaseNode(t: State, base: Cell, r: Cell, k: nat, elem: Ty, indices: seq<Index>)
    requires Valid(t.nodes) && base.node < |t.nodes| && r == Shift(Resolve(t.nodes, base.node), base.off)
    requires WellIndexed(Behind(elem), indices)
    ensures OneCell(t.nodes, Cell(r.node, k), base, elem, indices) <==>
              Divides(Period(t.nodes[r.node]), k - (r.off + FixedOffset(elem, indices))) &&
              StridesDivided(Behind(elem), indices, Period(t.nodes[r.node]))
  {
    hide Valid, Coarsens, TrueOffset, WellIndexed, Divides, StridesDivided, OneCell, Period, FixedOffset;
    CoarsensRefl(t.nodes);
    InPlaceCell(t.nodes, r, k, elem, indices);
    Rebased(t, t, base, r, Cell(r.node, k), elem, indices);
  }

  /** On a collapsed base any cell of its node will do. */
  lemma CollapsedBase(t: State, base: Cell, r: Cell, elem: Ty, indices: seq<Index>)
    requires Valid(t.nodes) && base.node < |t.nodes| && r == Shift(Resolve(t.nodes, base.node), base.off)
    requires WellIndexed(Behind(elem), indices) && t.nodes[r.node].isCollapsed
    ensures OneCell(t.nodes, Cell(r.node, 0), base, elem, indices)
    ensures StridesDivided(Behind(elem), indices, Period(t.nodes[r.node]))
  {
    hide Valid, TrueOffset, WellIndexed, StridesDivided, OneCell, FixedOffset;
    StridesNeeded(Behind(elem), indices, 1);
    InBaseNode(t, base, r, 0, elem, indices);
  }

  /** Going back within the base's node is exact when the node repeats with the strides. */
  lemma BackInPlace(t: State, base: Cell, r: Cell, elem: Ty, indices: seq<Index>)
    requires Valid(t.nodes) && base.node < |t.nodes| && r == Shift(Resolve(t.nodes, base.node), base.off)
    requires WellIndexed(Behind(elem), indices) && FixedOffset(elem, indices) < 0
    requires Adjust(t.nodes[r.node], r.off) + FixedOffset(elem, indices) >= 0
    ensures StridesDivided(Behind(elem), indices, Period(t.nodes[r.node])) <==>
              OneCell(t.nodes, Cell(r.node, Adjust(t.nodes[r.node], r.off) + FixedOffset(elem, indices)), base, elem,
                      indices)
  {
    hide Valid, TrueOffset, WellIndexed, StridesDivided, OneCell, FixedOffset, Adjust, Period, Divides, SoundNode;
    SoundRep(t.nodes, r.node);
    var o := Adjust(t.nodes[r.node], r.off);
    AdjustedNear(t.nodes[r.node], r.off);
    AllDivideZero();
    DividesBack(Period(t.nodes[r.node]), 0, r.off - o);
    InBaseNode(t, base, r, o + FixedOffset(elem, indices), elem, indices);
  }

  lemma NoStrides(t: State, base: Cell, r: Cell, elem: Ty, indices: seq<Index>)
    requires Valid(t.nodes) && base.node < |t.nodes| && r == Shift(Resolve(t.nodes, base.node), base.off)
    requires WellIndexed(Behind(elem), indices) && FixedOffset(elem, indices) >= 0
    requires forall d: nat :: Divides(d, 0) <==> StridesDivided(Behind(elem), indices, d)
    ensures OneCell(t.nodes, Shift(r, FixedOffset(elem, indices)), base, elem, indices)
  {
    hide Valid, TrueOffset, WellIndexed, StridesDivided, OneCell, FixedOffset, Period, Divides;
    AllDivideZero();
    InBaseNode(t, base, r, r.off + FixedOffset(elem, indices), elem, indices);
  }

  lemma FreshNode(s: seq<Node>, t: State, u: State, nd: Node)
    requires Valid(s) && Coarsens(s, t.nodes, {}) && Valid(t.nodes) && u.nodes == t.nodes + [nd]
    requires nd == BLANK.(isArray := nd.isArray, size := nd.size) && (nd.isArray ==> nd.size > 0)
    ensures Valid(u.nodes) && Coarsens(t.nodes, u.nodes, {}) && Coarsens(s, u.nodes, {}) && IsRep(u.nodes, |t.nodes|)
  {
    SameForwardingKeeps(t.nodes, u.nodes);
    forall n: nat | IsRep(u.nodes, n) ensures SoundNode(u.nodes[n]) {
      if n < |t.nodes| {
        assert IsRep(t.nodes, n);
      }
    }
    hide SoundNode, Coarsens;
    AppendedCoarsens(t.nodes, u.nodes);
    CoarsensTrans(s, t.nodes, u.nodes, {});
  }

  /** Where the base's object is collapsed, a fresh node can be put with it. */
  lemma FreshMapped(t: State, u: State, b: nat, nd: Node)
    requires b < |t.nodes| && u.nodes == t.nodes + [nd] && u.candidate == PlaceLike(t.candidate, b)
    requires nd == BLANK.(isArray := nd.isArray, size := nd.size)
    ensures MustCollapse(t.candidate, b) ==> KeepsMap(t, u)
    ensures Mapped(t) && MustCollapse(t.candidate, b) ==>
              forall m: nat :: Equates(u.candidate, Cell(b, 0), Cell(|t.nodes|, m))
  {
    if Mapped(t) && MustCollapse(t.candidate, b) {
      RespectsAppend(t.nodes, t.candidate, b, nd);
    }
    hide Respects;
  }

  lemma FreshKeepsMap(s: State, t: State, u: State, v: State, b: nat)
    requires KeepsMap(s, t) && t.candidate == s.candidate
    requires MustCollapse(t.candidate, b) ==> KeepsMap(t, u)
    requires Mapped(t) && MustCollapse(t.candidate, b) ==> KeepsMap(u, v)
    ensures MustCollapse(s.candidate, b) ==> KeepsMap(s, v)
  {
    hide Mapped, MustCollapse;
  }

  lemma FreshDone(s: seq<Node>, t: State, u: State, v: State, base: Cell, r: Cell, gep: Cell, elem: Ty,
                  indices: seq<Index>)
    requires Coarsens(s, u.nodes, {}) && Coarsens(t.nodes, u.nodes, {}) && Later(u, v, {})
    requires WellIndexed(Behind(elem), indices)
    requires Acyclic(t.nodes) && base.node < |t.nodes| && r == Shift(Resolve(t.nodes, base.node), base.off)
    ensures Valid(v.nodes) && Coarsens(s, v.nodes, {}) && |s| <= |v.nodes| && |u.nodes| <= |v.nodes|
    ensures OneCell(v.nodes, gep, base, elem, indices) <==> OneCell(v.nodes, gep, r, elem, indices)
  {
    hide Coarsens, OneCell, TrueOffset, WellIndexed, Valid;
    assert Valid(v.nodes) && Coarsens(u.nodes, v.nodes, {});
    hide Later;
    CoarsensBasics(s, u.nodes, {});
    CoarsensBasics(u.nodes, v.nodes, {});
    CoarsensTrans(s, u.nodes, v.nodes, {});
    CoarsensTrans(t.nodes, u.nodes, v.nodes, {});
    Rebased(t, v, base, r, gep, elem, indices);
  }

  lemma PeriodOf(nd: Node)
    requires !nd.isCollapsed && !nd.isArray
    ensures Period(nd) == 0
  {
  }

  lemma ArrayPeriod(nd: Node)
    requires nd.isArray && !nd.isCollapsed
    ensures Period(nd) == nd.size
  {
  }

  /** Once aligned on a collapsed object, all cells of both are one. */
  lemma CollapsedCell(v: seq<Node>, n: nat, r: Cell, elem: Ty, indices: seq<Index>)
    requires Acyclic(v) && n < |v| && r.node < |v| && WellIndexed(Behind(elem), indices)
    requires Resolve(v, r.node).node == Resolve(v, n).node && v[Resolve(v, n).node].isCollapsed
    ensures OneCell(v, Cell(n, 0), r, elem, indices)
  {
    hide WellIndexed, TrueOffset;
  }

  lemma SameObject(v: seq<Node>, a: nat, b: nat, o: nat)
    requires Acyclic(v) && Aligned(v, a, b, o)
    ensures a < |v| && b < |v| && Resolve(v, a).node == Resolve(v, b).node
  {
    AlignedAt(v, a, b, o, 0);
    hide Aligned;
  }

  /** A plain object goes into a fresh node as it is. */
  lemma FreshTakes(nd: Node, m: nat)
    requires SoundNode(nd) && !nd.isCollapsed && !nd.isArray
    ensures Calm(BLANK, m, nd) && Adjust(BLANK, m) == m && Decide(BLANK, nd, false, m) == Absorb
  {
    forall f, g | f in nd.links && g in nd.links && f != g ensures !Meets(KeyAt(BLANK, m, f), KeyAt(BLANK, m, g)) {
      assert f.ty == Omni ==> Omnified(g) == f || g.off != f.off;
      assert g.ty == Omni ==> Omnified(f) == g || g.off != f.off;
    }
  }

  /** A fresh node that begins before an array, and an array behind: they collapse. */
  lemma FreshRefuses(nd: Node, m: nat)
    requires nd.isArray && !nd.isCollapsed && m > 0
    ensures Decide(BLANK, nd, false, m) == CollapseFirst
  {
  }

  /** Where a plain base goes when the GEP reaches back past its start, the strides decide. */
  lemma FreshPlainCell(u: State, v: State, n: nat, r: Cell, elem: Ty, indices: seq<Index>, m: nat)
    requires AbsorbedOnly(u, v, r.node, n, m) && Valid(v.nodes) && u.nodes[n] == BLANK && n != r.node
    requires WellIndexed(Behind(elem), indices) && m == -(r.off + FixedOffset(elem, indices))
    ensures OneCell(v.nodes, Cell(n, 0), r, elem, indices) <==> StridesDivided(Behind(elem), indices, 0)
  {
    hide Valid, WellIndexed, TrueOffset, StridesDivided, OneCell, FixedOffset, Same, TookIn, Acyclic;
    ValidAcyclic(v.nodes);
    TookInRep(u.nodes[r.node], BLANK, v.nodes[n], m);
    assert v.nodes[r.node].fwd == Some(Cell(n, m)) && IsRep(v.nodes, n);
    Forwards(v.nodes, r.node);
    Forwards(v.nodes, n);
    var q := Cell(n, m + r.off);
    forall k: nat ensures Same(v.nodes, Shift(q, k), Shift(r, k)) {
      SameResolved(v.nodes, Shift(r, k));
    }
    SameCellsRebase(v.nodes, r, q, Cell(n, 0), elem, indices);
    InPlaceCell(v.nodes, q, 0, elem, indices);
    AllDivideZero();
  }

  /** The GEP reached back past the start of the base's node, into fresh node `n`. */
  lemma PastStart(s: seq<Node>, t: State, u: State, v: State, base: Cell, r: Cell, n: nat, elem: Ty,
                  indices: seq<Index>, m: nat)
    requires Coarsens(s, u.nodes, {}) && Coarsens(t.nodes, u.nodes, {}) && Later(u, v, {})
    requires WellIndexed(Behind(elem), indices)
    requires base.node < |t.nodes| && Acyclic(t.nodes) && r == Shift(Resolve(t.nodes, base.node), base.off)
    requires n == |t.nodes| && u.nodes == t.nodes + [BLANK] && IsRep(t.nodes, r.node)
    requires !t.nodes[r.node].isCollapsed
    requires Acyclic(v.nodes) ==> Aligned(v.nodes, n, r.node, m)
    requires Merged(u, v, n, r.node, m)
    requires m == -(Adjust(t.nodes[r.node], r.off) + FixedOffset(elem, indices)) && m > 0
    ensures Valid(v.nodes) && Coarsens(s, v.nodes, {}) && |s| <= |v.nodes| && |u.nodes| <= |v.nodes|
    ensures OneCell(v.nodes, Cell(n, 0), base, elem, indices) <==>
              t.nodes[r.node].isArray || StridesDivided(Behind(elem), indices, 0)
  {
    hide Coarsens, OneCell, TrueOffset, WellIndexed, Valid, Acyclic, Later, Aligned, FixedOffset;
    hide StridesDivided, Decide, Calm, AbsorbedOnly, SoundNode;
    LaterBasics(u, v, {});
    FreshDone(s, t, u, v, base, r, Cell(n, 0), elem, indices);
    LaterRep(u, v, r.node);
    SameObject(v.nodes, n, r.node, m);
    if t.nodes[r.node].isArray {
      SoundArrayNode(u.nodes[r.node]);
      FreshRefuses(t.nodes[r.node], m);
      CollapsedCell(v.nodes, n, r, elem, indices);
    } else {
      FreshTakes(t.nodes[r.node], m);
      FreshPlainCell(u, v, n, r, elem, indices, m);
    }
  }

  lemma SoundArrayNode(nd: Node)
    requires SoundNode(nd)
    ensures nd.isArray ==> !nd.isCollapsed
  {
  }

  // ---------------------------------------------------------------- the stride afterwards

  /** Offsets of the object that begins at node `n` are one cell exactly when `p` divides their distance. */
  ghost predicate Spaced(ns: seq<Node>, n: nat, p: nat)
    requires Acyclic(ns) && n < |ns|
  {
    forall i: nat, j: nat :: Same(ns, Cell(n, i), Cell(n, j)) <==> Divides(p, i - j)
  }

  lemma PeriodSpaced(ns: seq<Node>, n: nat, p: nat)
    requires Valid(ns) && n < |ns| && Acyclic(ns) && p == Period(ns[Resolve(ns, n).node])
    ensures Spaced(ns, n, p)
  {
    hide Valid, Period, Divides, Adjust, SoundNode, Acyclic, Same;
    SoundRep(ns, Resolve(ns, n).node);
    forall i: nat, j: nat ensures Same(ns, Cell(n, i), Cell(n, j)) <==> Divides(p, i - j) {
      SameWithin(ns, n, i, j);
    }
  }

  lemma SameWithin(ns: seq<Node>, n: nat, i: nat, j: nat)
    requires Acyclic(ns) && n < |ns| && SoundNode(ns[Resolve(ns, n).node])
    ensures Same(ns, Cell(n, i), Cell(n, j)) <==> Divides(Period(ns[Resolve(ns, n).node]), i - j)
  {
    hide Period, Divides, Adjust, SoundNode, Acyclic;
    var r := Resolve(ns, n);
    SameAdjusted(ns[r.node], r.off + i, r.off + j);
  }

  /** `d` is the greatest stride of the variable indices: what divides all their strides are its divisors. */
  ghost predicate IsStride(elem: Ty, indices: seq<Index>, d: nat)
    requires WellIndexed(Behind(elem), indices)
  {
    forall e: nat :: Divides(e, d) <==> StridesDivided(Behind(elem), indices, e)
  }

  lemma StrideIs(elem: Ty, indices: seq<Index>, fixed: int, d: nat)
    requires WellIndexed(Behind(elem), indices) && fixed == TrueOffset(Behind(elem), indices, Zeros(|indices|))
    requires forall e: nat :: Divides(e, d) <==> StridesDivided(Behind(elem), indices, e)
    ensures IsStride(elem, indices, d) && fixed == FixedOffset(elem, indices)
  {
    hide StridesDivided, WellIndexed, TrueOffset, Divides;
  }

  lemma OneStride(elem: Ty, indices: seq<Index>, d: nat, e: nat)
    requires WellIndexed(Behind(elem), indices) && IsStride(elem, indices, d) && IsStride(elem, indices, e)
    ensures d == e
  {
    hide StridesDivided, WellIndexed;
    DividesSelf(d);
    DividesSelf(e);
    assert Divides(d, e) && Divides(e, d);
    if d < e {
      Smaller(d, e);
    } else if e < d {
      Smaller(e, d);
    }
  }

  lemma Smaller(d: nat, e: nat)
    requires d < e && Divides(e, d)
    ensures d == 0 && (Divides(d, e) ==> e == 0)
  {
  }

  /** Folded at stride `d`, the accesses of `nd` fit and no two of its links meet. */
  ghost predicate FoldsInto(nd: Node, d: nat)
    requires d > 0
  {
    && (forall a | a in nd.types :: a.ty.Void? || a.off % d + SizeOf(a.ty) <= d)
    && (forall f, g | f in nd.links && g in nd.links && f != g && f.off % d == g.off % d ::
          f.ty != g.ty && f.ty != Omni && g.ty != Omni)
  }

  /** How the offsets of an object `nd` that begins at node `n` repeat after a GEP from offset `off` of it, with
      constant part `fixed` and greatest stride `d`. */
  ghost predicate Respaced(nd: Node, off: nat, fixed: int, d: nat, ns: seq<Node>, n: nat)
    requires Acyclic(ns) && n < |ns|
  {
    if nd.isCollapsed then Spaced(ns, n, 1)
    // going back within the object leaves it as it is; going back past its start collapses arrays
    else if fixed < 0 then Spaced(ns, n, if off + fixed >= 0 then Period(nd) else if nd.isArray then 1 else 0)
    else if d == 0 then Spaced(ns, n, Period(nd))
    // an array keeps its stride if that divides the new one, and collapses if neither divides the other
    else if nd.isArray && !Divides(d, nd.size) then Spaced(ns, n, if Divides(nd.size, d) then nd.size else 1)
    // else the new stride is that of the indices, if the object can be folded
    else
      && (FoldsInto(nd, d) ==> Spaced(ns, n, d))
      && (nd.links == map[] && !FoldsInto(nd, d) ==> Spaced(ns, n, 1))
  }

  lemma FoldsCalm(nd: Node, x: Node, d: nat)
    requires SoundNode(nd) && !nd.isCollapsed && d > 0 && x == BLANK.(isArray := true, size := d)
    ensures Calm(x, 0, nd) <==> FoldsInto(nd, d)
    ensures nd.links == map[] ==> (HoldsAll(x, 0, nd.types) <==> FoldsInto(nd, d))
  {
    HoldsFolded(nd, x, d);
    forall f, g | f in nd.links && g in nd.links && f != g
      ensures Meets(KeyAt(x, 0, f), KeyAt(x, 0, g)) <==>
                (f.off % d == g.off % d && (f.ty == g.ty || f.ty == Omni || g.ty == Omni))
    {
    }
    hide SoundNode, HoldsAll;
  }

  lemma HoldsFolded(nd: Node, x: Node, d: nat)
    requires SoundNode(nd) && !nd.isCollapsed && d > 0 && x == BLANK.(isArray := true, size := d)
    ensures HoldsAll(x, 0, nd.types) <==> forall a | a in nd.types :: a.ty.Void? || a.off % d + SizeOf(a.ty) <= d
  {
    forall a | a in nd.types
      ensures Fitting(x, Access(0 + a.off, a.ty)) <==> a.ty.Void? || a.off % d + SizeOf(a.ty) <= d
    {
      assert Primitive(a.ty);
    }
  }

  /** The object that took the other in keeps its kind and stride, and both begin on it. */
  lemma TakenIn(u: State, v: State, gone: nat, kept: nat, d: nat)
    requires AbsorbedOnly(u, v, gone, kept, d) && IsRep(u.nodes, kept) && gone != kept && Acyclic(v.nodes)
    requires !u.nodes[kept].isCollapsed
    ensures Resolve(v.nodes, kept).node == kept && Resolve(v.nodes, gone).node == kept
    ensures if u.nodes[kept].isArray then Period(v.nodes[kept]) == u.nodes[kept].size else Period(v.nodes[kept]) == 0
  {
    TookInRep(u.nodes[gone], u.nodes[kept], v.nodes[kept], d);
    assert v.nodes[kept].isArray ==> v.nodes[kept].size == u.nodes[kept].size;
    assert v.nodes[kept].fwd.None? && v.nodes[gone].fwd == Some(Cell(kept, d));
    hide TookIn;
  }

  /** A fresh array meets an array: when they agree, and when the fresh one stays. */
  lemma FreshMeets(nd: Node, x: Node, d: nat)
    requires SoundNode(nd) && !nd.isCollapsed && d > 0 && x == BLANK.(isArray := true, size := d)
    ensures Agree(x, nd, false, 0) <==> !nd.isArray || Divides(d, nd.size) || Divides(nd.size, d)
    ensures !nd.isArray || Divides(d, nd.size) ==> Stays(x, nd)
    ensures nd.isArray && !Divides(d, nd.size) && Divides(nd.size, d) ==> !Stays(x, nd)
    ensures !nd.isArray || nd.size > 0
  {
    if nd.isArray {
      if d < nd.size {
        NoSmaller(nd.size, d);
      } else if nd.size < d {
        NoSmaller(d, nd.size);
      }
    }
  }

  lemma NoSmaller(d: nat, e: nat)
    requires 0 < e < d
    ensures !Divides(d, e)
  {
  }

  /** After a fresh array of stride `d` has been merged with object `b` at offset 0. */
  lemma FreshArrayPeriod(u: State, v: State, n: nat, b: nat, d: nat)
    requires Valid(v.nodes) && IsRep(u.nodes, n) && IsRep(u.nodes, b) && n != b && d > 0
    requires u.nodes[n] == BLANK.(isArray := true, size := d)
    requires SoundNode(u.nodes[b]) && !u.nodes[b].isCollapsed
    requires Lawful(u, v, n, b, 0) && Acyclic(v.nodes) && Aligned(v.nodes, n, b, 0)
    ensures b < |v.nodes| && Respaced(u.nodes[b], 0, 0, d, v.nodes, b)
  {
    hide Spaced, FoldsInto, Calm, HoldsAll, Divides, Valid, SoundNode, Acyclic, Aligned, AbsorbedOnly, Agree, Stays;
    var x, nd := u.nodes[n], u.nodes[b];
    SameObject(v.nodes, n, b, 0);
    FoldsCalm(nd, x, d);
    FreshMeets(nd, x, d);
    NothingIn(nd, x);
    PeriodSpaced(v.nodes, b, Period(v.nodes[Resolve(v.nodes, b).node]));
    if AbsorbedOnly(u, v, n, b, 0) {
      TakenIn(u, v, n, b, 0);
    }
    if AbsorbedOnly(u, v, b, n, 0) {
      TakenIn(u, v, b, n, 0);
    }
  }

  lemma NothingIn(nd: Node, x: Node)
    requires x.links == map[] && x.types == {}
    ensures Calm(nd, 0, x)
  {
  }

  /** After a fresh plain node has been merged with object `b`, which begins at offset `m` behind its start. */
  lemma PastStartPeriod(u: State, v: State, n: nat, b: nat, m: nat)
    requires Valid(v.nodes) && IsRep(u.nodes, n) && IsRep(u.nodes, b) && n != b && m > 0
    requires u.nodes[n] == BLANK && SoundNode(u.nodes[b]) && !u.nodes[b].isCollapsed
    requires Lawful(u, v, n, b, m) && Acyclic(v.nodes) && Aligned(v.nodes, n, b, m)
    ensures b < |v.nodes| && Spaced(v.nodes, b, if u.nodes[b].isArray then 1 else 0)
  {
    hide Spaced, Calm, HoldsAll, Valid, SoundNode, Acyclic, Aligned, AbsorbedOnly, Decide, Crowded;
    SameObject(v.nodes, n, b, m);
    PeriodSpaced(v.nodes, b, Period(v.nodes[Resolve(v.nodes, b).node]));
    if !u.nodes[b].isArray {
      FreshTakes(u.nodes[b], m);
      TakenIn(u, v, b, n, m);
    }
  }

  // ---------------------------------------------------------------- the run of zeros

  /** `gep` is the cell the run of zeros reaches, and the same holds for every byte around it. */
  ghost predicate FixedCell(ns: seq<Node>, gep: Cell, base: Cell, fixed: int)
    requires Acyclic(ns)
  {
    forall j: nat, k: nat | k == base.off + fixed + j :: Same(ns, Shift(gep, j), Cell(base.node, k))
  }

  lemma FixedRebased(t: seq<Node>, v: seq<Node>, base: Cell, r: Cell, gep: Cell, fixed: int)
    requires Coarsens(t, v, {}) && Acyclic(t) && base.node < |t| && r == Shift(Resolve(t, base.node), base.off)
    requires Acyclic(v) && FixedCell(v, gep, r, fixed)
    ensures FixedCell(v, gep, base, fixed)
  {
    hide Coarsens, Follows, Acyclic, Canon, Resolve;
    CoarsensBasics(t, v, {});
    var o := Resolve(t, base.node).off;
    forall j: nat, k: nat | k == base.off + fixed + j ensures Same(v, Shift(gep, j), Cell(base.node, k)) {
      SameResolved(t, Cell(base.node, k));
      SameLater(t, v, Cell(r.node, o + k), Cell(base.node, k));
    }
  }

  lemma FixedInPlace(t: seq<Node>, r: Cell, k: nat, fixed: int)
    requires Acyclic(t) && IsRep(t, r.node) && SoundNode(t[r.node])
    requires Divides(Period(t[r.node]), k - (r.off + fixed))
    ensures FixedCell(t, Cell(r.node, k), r, fixed)
  {
    hide Divides, Period, SoundNode, Acyclic, Same;
    forall j: nat, x: nat | x == r.off + fixed + j ensures Same(t, Shift(Cell(r.node, k), j), Cell(r.node, x)) {
      SameOnRep(t, r.node, k + j, x);
    }
  }

  lemma FixedFresh(v: seq<Node>, n: nat, r: Cell, m: nat, k: nat, fixed: int)
    requires Acyclic(v) && Aligned(v, n, r.node, m) && n < |v|
    requires k == m + r.off + fixed || v[Resolve(v, n).node].isCollapsed
    ensures FixedCell(v, Cell(n, k), r, fixed)
  {
    hide Acyclic, Resolve, Canon;
    assert forall x: nat :: Same(v, Cell(r.node, x), Cell(n, m + x));
    if v[Resolve(v, n).node].isCollapsed {
      SameObject(v, n, r.node, m);
      CollapsedEverywhere(v, n, r.node);
    } else {
      forall j: nat, x: nat | x == r.off + fixed + j ensures Same(v, Shift(Cell(n, k), j), Cell(r.node, x)) {
        assert Same(v, Cell(r.node, x), Cell(n, m + x));
      }
    }
  }

  /** The GEP's cell is on the base's own node, which stays as it is. */
  lemma InPlaceDone(t: seq<Node>, base: Cell, r: Cell, k: nat, fixed: int)
    requires Valid(t) && Acyclic(t) && base.node < |t| && r == Shift(Resolve(t, base.node), base.off)
    requires Divides(Period(t[r.node]), k - (r.off + fixed))
    ensures FixedCell(t, Cell(r.node, k), base, fixed) && Spaced(t, r.node, Period(t[r.node]))
  {
    hide Valid, Divides, Period, Acyclic, SoundNode, FixedCell;
    SoundRep(t, r.node);
    CoarsensRefl(t);
    FixedInPlace(t, r, k, fixed);
    FixedRebased(t, t, base, r, Cell(r.node, k), fixed);
    PeriodSpaced(t, r.node, Period(t[r.node]));
  }

  /** The greatest stride is one number. */
  lemma RespacedAll(nd: Node, off: nat, fixed: int, d: nat, ns: seq<Node>, n: nat, elem: Ty, indices: seq<Index>)
    requires Acyclic(ns) && n < |ns| && Respaced(nd, off, fixed, d, ns, n)
    requires WellIndexed(Behind(elem), indices) && IsStride(elem, indices, d)
    ensures forall e: nat | IsStride(elem, indices, e) :: Respaced(nd, off, fixed, e, ns, n)
  {
    hide Respaced, WellIndexed, IsStride;
    forall e: nat | IsStride(elem, indices, e) ensures e == d {
      OneStride(elem, indices, d, e);
    }
  }

  /** A fresh node `n` was merged with the base's object. */
  lemma FreshFixed(t: State, u: State, v: State, base: Cell, r: Cell, n: nat, m: nat, k: nat, fixed: int)
    requires Coarsens(t.nodes, u.nodes, {}) && Later(u, v, {}) && Acyclic(v.nodes)
    requires Acyclic(t.nodes) && base.node < |t.nodes| && r == Shift(Resolve(t.nodes, base.node), base.off)
    requires Aligned(v.nodes, n, r.node, m)
    requires n < |v.nodes| && (k == m + r.off + fixed || v.nodes[Resolve(v.nodes, n).node].isCollapsed)
    ensures FixedCell(v.nodes, Cell(n, k), base, fixed)
  {
    hide Valid, Acyclic, Coarsens, FixedCell, Aligned, Resolve;
    LaterValid(u, v);
    hide Later;
    CoarsensTrans(t.nodes, u.nodes, v.nodes, {});
    FixedFresh(v.nodes, n, r, m, k, fixed);
    FixedRebased(t.nodes, v.nodes, base, r, Cell(n, k), fixed);
  }

  lemma CollapsedEverywhere(v: seq<Node>, a: nat, b: nat)
    requires Acyclic(v) && a < |v| && b < |v| && Resolve(v, a).node == Resolve(v, b).node
    requires v[Resolve(v, a).node].isCollapsed
    ensures forall i: nat, j: nat :: Same(v, Cell(a, i), Cell(b, j))
  {
  }

  // ---------------------------------------------------------------- the branches of a GEP

  /** The base is collapsed, or the GEP goes back within its object. */
  lemma StaysRespaced(t: seq<Node>, base: Cell, r: Cell, k: nat, elem: Ty, indices: seq<Index>)
    requires Valid(t) && Acyclic(t) && base.node < |t| && r == Shift(Resolve(t, base.node), base.off)
    requires WellIndexed(Behind(elem), indices)
    requires var nd, fixed := t[r.node], FixedOffset(elem, indices); var off := Adjust(nd, r.off);
      nd.isCollapsed || (fixed < 0 && off + fixed >= 0 && k == off + fixed)
    ensures FixedCell(t, Cell(r.node, k), base, FixedOffset(elem, indices))
    ensures forall d: nat ::
              Respaced(t[r.node], Adjust(t[r.node], r.off), FixedOffset(elem, indices), d, t, r.node)
  {
    hide Valid, WellIndexed, FixedOffset, Acyclic, FixedCell, Spaced, SoundNode, Adjust;
    var nd, fixed := t[r.node], FixedOffset(elem, indices);
    SoundRep(t, r.node);
    AdjustedNear(nd, r.off);
    if !nd.isCollapsed {
      AllDivideZero();
      DividesBack(Period(nd), 0, r.off - Adjust(nd, r.off));
    }
    InPlaceDone(t, base, r, k, fixed);
  }

  /** The GEP has no variable part and does not go back. */
  lemma ShiftRespaced(t: seq<Node>, base: Cell, r: Cell, elem: Ty, indices: seq<Index>)
    requires Valid(t) && Acyclic(t) && base.node < |t| && r == Shift(Resolve(t, base.node), base.off)
    requires WellIndexed(Behind(elem), indices) && FixedOffset(elem, indices) >= 0 && IsStride(elem, indices, 0)
    ensures FixedCell(t, Shift(r, FixedOffset(elem, indices)), base, FixedOffset(elem, indices))
    ensures forall d: nat | IsStride(elem, indices, d) ::
              Respaced(t[r.node], Adjust(t[r.node], r.off), FixedOffset(elem, indices), d, t, r.node)
  {
    hide Valid, WellIndexed, FixedOffset, Acyclic, FixedCell, Spaced, Adjust, IsStride;
    var nd, fixed := t[r.node], FixedOffset(elem, indices);
    AllDivideZero();
    InPlaceDone(t, base, r, r.off + fixed, fixed);
    RespacedAll(nd, Adjust(nd, r.off), fixed, 0, t, r.node, elem, indices);
  }

  /** The GEP goes back past the start of the base's object, into fresh node `n`. */
  lemma BackRespaced(t: State, u: State, v: State, base: Cell, r: Cell, n: nat, m: nat, elem: Ty, indices: seq<Index>)
    requires Valid(u.nodes) && Coarsens(t.nodes, u.nodes, {}) && Later(u, v, {}) && Valid(v.nodes) && Acyclic(v.nodes)
    requires Acyclic(t.nodes) && base.node < |t.nodes| && r == Shift(Resolve(t.nodes, base.node), base.off)
    requires n == |t.nodes| && u.nodes == t.nodes + [BLANK] && !t.nodes[r.node].isCollapsed
    requires Lawful(u, v, n, r.node, m) && Aligned(v.nodes, n, r.node, m) && WellIndexed(Behind(elem), indices)
    requires m == -(Adjust(t.nodes[r.node], r.off) + FixedOffset(elem, indices)) && m > 0
    ensures FixedCell(v.nodes, Cell(n, 0), base, FixedOffset(elem, indices)) && |t.nodes| <= |v.nodes|
    ensures forall d: nat ::
      Respaced(t.nodes[r.node], Adjust(t.nodes[r.node], r.off), FixedOffset(elem, indices), d, v.nodes, r.node)
  {
    hide Valid, WellIndexed, FixedOffset, Acyclic, FixedCell, Spaced, Aligned, Coarsens, SoundNode, Later, Lawful;
    LaterBasics(u, v, {});
    SoundRep(u.nodes, r.node);
    PastStartPeriod(u, v, n, r.node, m);
    if t.nodes[r.node].isArray {
      ArrayCollapses(u, v, n, r.node, m);
    }
    FreshFixed(t, u, v, base, r, n, m, 0, FixedOffset(elem, indices));
  }

  lemma ArrayCollapses(u: State, v: State, n: nat, b: nat, m: nat)
    requires n < |u.nodes| && b < |u.nodes| && n != b && u.nodes[n] == BLANK && u.nodes[b].isArray && m > 0
    requires Lawful(u, v, n, b, m)
    ensures InOne(v, n)
  {
    hide Calm, AbsorbedOnly, Crowded, InOne;
  }

  /** The GEP has a variable part: the base was merged with fresh array `n` of stride `d`. */
  lemma ArrayRespaced(t: State, u: State, v: State, base: Cell, r: Cell, n: nat, d: nat, elem: Ty, indices: seq<Index>)
    requires Valid(u.nodes) && Coarsens(t.nodes, u.nodes, {}) && Later(u, v, {}) && Valid(v.nodes) && Acyclic(v.nodes)
    requires Acyclic(t.nodes) && base.node < |t.nodes| && r == Shift(Resolve(t.nodes, base.node), base.off)
    requires n == |t.nodes| && u.nodes == t.nodes + [BLANK.(isArray := true, size := d)] && d > 0
    requires !t.nodes[r.node].isCollapsed && WellIndexed(Behind(elem), indices) && FixedOffset(elem, indices) >= 0
    requires Lawful(u, v, n, r.node, 0) && Aligned(v.nodes, n, r.node, 0) && IsStride(elem, indices, d)
    ensures FixedCell(v.nodes, Cell(n, FixedOffset(elem, indices) + r.off), base, FixedOffset(elem, indices))
    ensures |t.nodes| <= |v.nodes|
    ensures forall e: nat | IsStride(elem, indices, e) ::
      Respaced(t.nodes[r.node], Adjust(t.nodes[r.node], r.off), FixedOffset(elem, indices), e, v.nodes, r.node)
  {
    hide Valid, WellIndexed, FixedOffset, Acyclic, FixedCell, Spaced, Aligned, Coarsens, SoundNode, Later, Lawful;
    hide IsStride, FoldsInto;
    var nd, fixed := t.nodes[r.node], FixedOffset(elem, indices);
    LaterBasics(u, v, {});
    SoundRep(u.nodes, r.node);
    FreshArrayPeriod(u, v, n, r.node, d);
    assert Respaced(nd, Adjust(nd, r.off), fixed, d, v.nodes, r.node);
    RespacedAll(nd, Adjust(nd, r.off), fixed, d, v.nodes, r.node, elem, indices);
    FreshFixed(t, u, v, base, r, n, 0, fixed + r.off, fixed);
  }

  /** Then all runs are one cell. */
  lemma ArrayCell(s: seq<Node>, t: State, u: State, v: State, base: Cell, r: Cell, n: nat, d: nat, elem: Ty,
                  indices: seq<Index>)
    requires Coarsens(s, u.nodes, {}) && Coarsens(t.nodes, u.nodes, {}) && Later(u, v, {}) && Acyclic(v.nodes)
    requires Acyclic(t.nodes) && base.node < |t.nodes| && r == Shift(Resolve(t.nodes, base.node), base.off)
    requires n == |t.nodes| && u.nodes == t.nodes + [BLANK.(isArray := true, size := d)] && d > 0
    requires WellIndexed(Behind(elem), indices) && FixedOffset(elem, indices) >= 0 && IsStride(elem, indices, d)
    requires Aligned(v.nodes, n, r.node, 0)
    ensures Valid(v.nodes) && Coarsens(s, v.nodes, {}) && |s| <= |v.nodes| && |u.nodes| <= |v.nodes|
    ensures OneCell(v.nodes, Cell(n, FixedOffset(elem, indices) + r.off), base, elem, indices)
  {
    hide Valid, WellIndexed, FixedOffset, Acyclic, Aligned, Coarsens, Later, OneCell, StridesDivided, Divides, Period;
    DividesSelf(d);
    ArrayPeriod(u.nodes[n]);
    FreshArrayCell(u, v, n, r, elem, indices, d);
    FreshDone(s, t, u, v, base, r, Cell(n, FixedOffset(elem, indices) + r.off), elem, indices);
  }

  /** The cell of a GEP on `base`. */
  method VisitGep(g: Graph, base: Cell, elem: Ty, indices: seq<Index>) returns (gep: Cell)
    requires Valid(g.nodes) && base.node < |g.nodes| && WellIndexed(Behind(elem), indices)
    modifies g`nodes, g`candidate, g`lost
    ensures Valid(g.nodes) && Coarsens(old(g.nodes), g.nodes, {})
    ensures |old(g.nodes)| <= |g.nodes| && gep.node < |g.nodes|
    ensures var at := Resolve(old(g.nodes), base.node); var nd := old(g.nodes)[at.node];
      OneCell(g.nodes, gep, base, elem, indices) <==> Exact(nd, Adjust(nd, at.off + base.off), elem, indices)
    // the run of zeros always reaches the cell
    ensures Acyclic(g.nodes) && FixedCell(g.nodes, gep, base, FixedOffset(elem, indices))
    // and which offsets of the base's object are one cell from then on
    ensures var at := Resolve(old(g.nodes), base.node); var nd := old(g.nodes)[at.node];
      forall d: nat | IsStride(elem, indices, d) ::
        Respaced(nd, Adjust(nd, at.off + base.off), FixedOffset(elem, indices), d, g.nodes, at.node)
    // without a fresh node only paths are shortened
    ensures var at := Resolve(old(g.nodes), base.node); var nd := old(g.nodes)[at.node];
      (nd.isCollapsed || InRange(Adjust(nd, at.off + base.off), FixedOffset(elem, indices)) ||
       (FixedOffset(elem, indices) >= 0 && IsStride(elem, indices, 0))) ==>
        Compressed(old(g.nodes), g.nodes) && g.Now() == old(g.Now()).(nodes := g.nodes)
    // and nothing is merged that is apart in some candidate in which the base's object is collapsed
    ensures MustCollapse(old(g.candidate), Resolve(old(g.nodes), base.node).node) ==> KeepsMap(old(g.Now()), g.Now())
  {
    hide Valid, Later, WellIndexed, TrueOffset, StridesDivided, Divides, Period, OneCell, Coarsens, Follows;
    hide Adjust, Aligned, Compressed, Shortened, KeepsMap, Merged, OneStep, Acyclic, Lawful, Respaced, FixedCell;
    hide IsStride, FixedOffset, GivesWay, Mapped, MustCollapse, Equates;
    ghost var s, s0 := g.nodes, g.Now();
    ValidAcyclic(s);
    var r := g.ResolveCell(base);
    ghost var t := g.Now();
    BaseResolved(s, t, base, r);
    ValidAcyclic(t.nodes);
    if g.nodes[r.node].isCollapsed {
      gep := Cell(r.node, 0);
      CollapsedBase(t, base, r, elem, indices);
      StaysRespaced(t.nodes, base, r, 0, elem, indices);
      return;
    }
    var noffset, divisor := ComputeGepOffset(elem, indices);
    StrideIs(elem, indices, noffset, divisor);
    ghost var idle := noffset >= 0 && IsStride(elem, indices, 0);
    if idle {
      OneStride(elem, indices, 0, divisor);
    }
    if noffset < 0 {
      var o := Adjust(g.nodes[r.node], r.off);
      if o + noffset >= 0 {
        gep := Cell(r.node, o + noffset);
        BackInPlace(t, base, r, elem, indices);
        StaysRespaced(t.nodes, base, r, o + noffset, elem, indices);
        return;
      }
      var n := |g.nodes|;
      g.nodes := g.nodes + [BLANK];
      g.candidate := PlaceLike(g.candidate, r.node);
      ghost var u := g.Now();
      FreshNode(s, t, u, BLANK);
      FreshMapped(t, u, r.node, BLANK);
      gep := Cell(n, 0);
      g.UnifyAt(n, r.node, -(o + noffset));
      ValidAcyclic(g.nodes);
      if !t.nodes[r.node].isArray {
        PeriodOf(t.nodes[r.node]);
      }
      PastStart(s, t, u, g.Now(), base, r, n, elem, indices, -(o + noffset));
      FreshKeepsMap(s0, t, u, g.Now(), r.node);
      BackRespaced(t, u, g.Now(), base, r, n, -(o + noffset), elem, indices);
    } else if divisor != 0 {
      var n := |g.nodes|;
      g.nodes := g.nodes + [BLANK];
      g.nodes := g.nodes[n := g.nodes[n].(isArray := true, size := divisor)];
      g.candidate := PlaceLike(g.candidate, r.node);
      ghost var u := g.Now();
      FreshMapped(t, u, r.node, BLANK.(isArray := true, size := divisor));
      assert u.nodes == t.nodes + [BLANK.(isArray := true, size := divisor)];
      FreshNode(s, t, u, BLANK.(isArray := true, size := divisor));
      gep := Cell(n, noffset + r.off);
      g.UnifyAt(n, r.node, 0);
      ValidAcyclic(g.nodes);
      ArrayCell(s, t, u, g.Now(), base, r, n, divisor, elem, indices);
      FreshKeepsMap(s0, t, u, g.Now(), r.node);
      ArrayRespaced(t, u, g.Now(), base, r, n, divisor, elem, indices);
    } else {
      gep := Shift(r, noffset);
      DividesSelf(divisor);
      NoStrides(t, base, r, elem, indices);
      ShiftRespaced(t.nodes, base, r, elem, indices);
    }
  }
}
