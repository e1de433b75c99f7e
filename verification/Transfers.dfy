/** Whether a memory transfer copies pointers: walking the leaves of a type. */
module Transfers {
  import opened Layout
  import opened PointsTo
  import opened Strides
  import opened Flattening

  // ---------------------------------------------------------------- leaves in order

  /** The primitive leaves of a type, in order. */
  ghost function LeavesOf(t: Ty): seq<Ty>
    decreases t, |Parts(t)| + 1
  {
    if Primitive(t) then [t] else LeavesFrom(t, 0)
  }

  /** The leaves of the parts of `t` from part `i` on. */
  ghost function LeavesFrom(t: Ty, i: nat): seq<Ty>
    requires i <= |Parts(t)|
    decreases t, |Parts(t)| - i
  {
    if i == |Parts(t)| then [] else
      assert Parts(t)[i].ty < t;
      LeavesOf(Parts(t)[i].ty) + LeavesFrom(t, i + 1)
  }

  /** Where the leaves of a type at `at` really are. */
  ghost function PlacesOf(t: Ty, at: nat): (p: seq<nat>)
    ensures |p| == |LeavesOf(t)|
    decreases t, |Parts(t)| + 1
  {
    if Primitive(t) then [at] else PlacesFrom(t, 0, at)
  }

  ghost function PlacesFrom(t: Ty, i: nat, at: nat): (p: seq<nat>)
    requires i <= |Parts(t)|
    ensures |p| == |LeavesFrom(t, i)|
    decreases t, |Parts(t)| - i
  {
    if i == |Parts(t)| then [] else
      assert Parts(t)[i].ty < t;
      PlacesOf(Parts(t)[i].ty, at + Parts(t)[i].off) + PlacesFrom(t, i + 1, at)
  }

  /** Struct members follow one another, with any padding, and end within the struct. */
  ghost predicate InOrder(t: Ty) {
    match t
    case Struct(ms, e) =>
      && (forall i | 0 <= i < |ms| :: InOrder(ms[i].ty) && ms[i].off + SizeOf(ms[i].ty) <= e)
      && (forall i, j | 0 <= i < j < |ms| :: ms[i].off + SizeOf(ms[i].ty) <= ms[j].off)
    case Array(elem, _) => InOrder(elem)
    case _ => true
  }

  /** The bytes of `leaves` without padding. */
  ghost function Packed(leaves: seq<Ty>): nat {
    if leaves == [] then 0 else Packed(leaves[..|leaves| - 1]) + SizeOf(leaves[|leaves| - 1])
  }

  /** No pointer leaf starts before `length`, padding aside. */
  ghost predicate NoEarlyPointer(t: Ty, length: nat) {
    forall k: nat | k < |LeavesOf(t)| && Packed(LeavesOf(t)[..k]) < length :: !IsPointer(LeavesOf(t)[k])
  }

  predicate IsPointer(t: Ty) {
    t.Prim? && t.pointer
  }

  lemma {:induction false} PackedJoin(a: seq<Ty>, b: seq<Ty>)
    ensures Packed(a + b) == Packed(a) + Packed(b)
  {
    if b == [] {
      assert a + b == a;
    } else {
      var n := |b| - 1;
      assert (a + b)[..|a + b| - 1] == a + b[..n];
      PackedJoin(a, b[..n]);
    }
  }

  lemma {:induction false} PackedMono(leaves: seq<Ty>, k: nat, m: nat)
    requires k <= m <= |leaves|
    ensures Packed(leaves[..k]) <= Packed(leaves[..m])
  {
    if k < m {
      assert leaves[..m][..m - 1] == leaves[..m - 1];
      PackedMono(leaves, k, m - 1);
    }
  }

  /** Each leaf, packed from `start` on, begins no later than its place. */
  ghost predicate Below(leaves: seq<Ty>, places: seq<nat>, start: nat) {
    |places| == |leaves| && forall k: nat | k < |leaves| :: start + Packed(leaves[..k]) <= places[k]
  }

  lemma BelowJoin(a: seq<Ty>, p: seq<nat>, start: nat, b: seq<Ty>, q: seq<nat>, next: nat)
    requires Below(a, p, start) && Below(b, q, next) && start + Packed(a) <= next
    ensures Below(a + b, p + q, start)
  {
    forall k: nat | k < |a + b| ensures start + Packed((a + b)[..k]) <= (p + q)[k] {
      if k < |a| {
        assert (a + b)[..k] == a[..k];
      } else {
        assert (a + b)[..k] == a + b[..k - |a|];
        PackedJoin(a, b[..k - |a|]);
      }
    }
  }

  /** Padding only moves leaves further out. */
  lemma {:induction false} PackedBelow(t: Ty, at: nat)
    requires InOrder(t)
    ensures Packed(LeavesOf(t)) <= SizeOf(t) && Below(LeavesOf(t), PlacesOf(t, at), at)
    decreases t, |Parts(t)| + 1
  {
    if Primitive(t) {
      assert [t][..0] == [];
    } else if |Parts(t)| > 0 {
      PackedBelowFrom(t, 0, at);
    }
  }

  /** Struct members follow one another without padding. */
  ghost predicate GapFree(t: Ty) {
    match t
    case Struct(ms, e) =>
      && (forall i | 0 <= i < |ms| :: GapFree(ms[i].ty) && ms[i].off == EndOf(ms, i))
      && e == EndOf(ms, |ms|)
    case Array(elem, _) => GapFree(elem)
    case _ => true
  }

  /** Where the first `i` members end. */
  function EndOf(ms: seq<Member>, i: nat): nat
    requires i <= |ms|
  {
    if i == 0 then 0 else ms[i - 1].off + SizeOf(ms[i - 1].ty)
  }

  /** Each leaf, packed from `start` on, begins at its place. */
  ghost predicate Exactly(leaves: seq<Ty>, places: seq<nat>, start: nat) {
    |places| == |leaves| && forall k: nat | k < |leaves| :: places[k] == start + Packed(leaves[..k])
  }

  lemma ExactlyJoin(a: seq<Ty>, p: seq<nat>, start: nat, b: seq<Ty>, q: seq<nat>)
    requires Exactly(a, p, start) && Exactly(b, q, start + Packed(a))
    ensures Exactly(a + b, p + q, start)
  {
    forall k: nat | k < |a + b| ensures (p + q)[k] == start + Packed((a + b)[..k]) {
      if k < |a| {
        assert (a + b)[..k] == a[..k];
      } else {
        assert (a + b)[..k] == a + b[..k - |a|];
        PackedJoin(a, b[..k - |a|]);
      }
    }
  }

  /** Without padding the leaves fill the type, and each is where the running offset says. */
  lemma {:induction false} PackedExactly(t: Ty, at: nat)
    requires GapFree(t)
    ensures Packed(LeavesOf(t)) == SizeOf(t) && Exactly(LeavesOf(t), PlacesOf(t, at), at)
    decreases t, |Parts(t)| + 1
  {
    if Primitive(t) {
      assert [t][..0] == [];
    } else {
      PackedExactlyFrom(t, 0, at);
    }
  }

  lemma PartsGapFree(t: Ty, i: nat)
    requires GapFree(t) && !Primitive(t) && i <= |Parts(t)|
    ensures PartEnd(t, 0) == 0 && PartEnd(t, |Parts(t)|) == SizeOf(t)
    ensures i < |Parts(t)| ==>
              var p := Parts(t)[i]; GapFree(p.ty) && p.off == PartEnd(t, i) && PartEnd(t, i + 1) == p.off + SizeOf(p.ty)
  {
    if t.Array? {
      assert (i + 1) * SizeOf(t.elem) == i * SizeOf(t.elem) + SizeOf(t.elem);
    }
  }

  /** Where the first `i` parts of an aggregate end. */
  ghost function PartEnd(t: Ty, i: nat): nat
    requires !Primitive(t) && i <= |Parts(t)|
  {
    match t
    case Struct(ms, _) => EndOf(ms, i)
    case Array(elem, _) => i * SizeOf(elem)
  }

  lemma {:induction false} PackedExactlyFrom(t: Ty, i: nat, at: nat)
    requires GapFree(t) && !Primitive(t) && i <= |Parts(t)|
    ensures PartEnd(t, i) + Packed(LeavesFrom(t, i)) == SizeOf(t)
    ensures Exactly(LeavesFrom(t, i), PlacesFrom(t, i, at), at + PartEnd(t, i))
    decreases t, |Parts(t)| - i
  {
    hide GapFree, SizeOf, Packed, PartEnd, Exactly;
    PartsGapFree(t, i);
    if i < |Parts(t)| {
      var p := Parts(t)[i];
      assert p.ty < t;
      PackedExactly(p.ty, at + p.off);
      PackedExactlyFrom(t, i + 1, at);
      PackedJoin(LeavesOf(p.ty), LeavesFrom(t, i + 1));
      ExactlyJoin(LeavesOf(p.ty), PlacesOf(p.ty, at + p.off), at + p.off, LeavesFrom(t, i + 1),
                  PlacesFrom(t, i + 1, at));
    } else {
      NothingPacked(at + PartEnd(t, i));
    }
  }

  lemma NothingPacked(start: nat)
    ensures Packed([]) == 0 && Exactly([], [], start)
  {
  }

  lemma PartsInOrder(t: Ty, i: nat)
    requires InOrder(t) && i < |Parts(t)|
    ensures var p := Parts(t)[i]; InOrder(p.ty) && p.off + SizeOf(p.ty) <= SizeOf(t)
    ensures i + 1 < |Parts(t)| ==> Parts(t)[i].off + SizeOf(Parts(t)[i].ty) <= Parts(t)[i + 1].off
  {
    if t.Array? {
      MulMono(i + 1, t.count, SizeOf(t.elem));
    }
  }

  lemma {:induction false} PackedBelowFrom(t: Ty, i: nat, at: nat)
    requires InOrder(t) && i < |Parts(t)|
    ensures Parts(t)[i].off + Packed(LeavesFrom(t, i)) <= SizeOf(t)
    ensures Below(LeavesFrom(t, i), PlacesFrom(t, i, at), at + Parts(t)[i].off)
    decreases t, |Parts(t)| - i
  {
    hide InOrder, Below, SizeOf, Packed;
    var p := Parts(t)[i];
    assert p.ty < t;
    PartsInOrder(t, i);
    PackedBelow(p.ty, at + p.off);
    var k := i + 1;
    if k == |Parts(t)| {
      assert LeavesOf(p.ty) + [] == LeavesOf(p.ty) && PlacesOf(p.ty, at + p.off) + [] == PlacesOf(p.ty, at + p.off);
    } else {
      PackedBelowFrom(t, k, at);
      PackedJoin(LeavesOf(p.ty), LeavesFrom(t, k));
      BelowJoin(LeavesOf(p.ty), PlacesOf(p.ty, at + p.off), at + p.off, LeavesFrom(t, k), PlacesFrom(t, k, at),
                at + Parts(t)[k].off);
    }
  }

  /** Every primitive of a type is one of its leaves, in its place. */
  lemma {:induction false} LeafPlaced(t: Ty, at: nat, off: int, p: Ty) returns (k: nat)
    requires LeafAt(t, off, p)
    ensures k < |LeavesOf(t)| && LeavesOf(t)[k] == p && PlacesOf(t, at)[k] == at + off
    decreases t, |Parts(t)| + 1
  {
    if Primitive(t) {
      k := 0;
    } else {
      LeafInPart(t, off, p);
      hide LeafAt, SizeOf;
      var i: nat :| i < |Parts(t)| && LeafAt(Parts(t)[i].ty, off - Parts(t)[i].off, p);
      k := LeafPlacedFrom(t, 0, at, i, off, p);
    }
  }

  lemma {:induction false} LeafPlacedFrom(t: Ty, j: nat, at: nat, i: nat, off: int, p: Ty) returns (k: nat)
    requires j <= i < |Parts(t)| && LeafAt(Parts(t)[i].ty, off - Parts(t)[i].off, p)
    ensures k < |LeavesFrom(t, j)| && LeavesFrom(t, j)[k] == p && PlacesFrom(t, j, at)[k] == at + off
    decreases t, |Parts(t)| - j
  {
    hide LeafAt, SizeOf;
    var m := Parts(t)[j];
    assert m.ty < t;
    if j == i {
      k := LeafPlaced(m.ty, at + m.off, off - m.off, p);
    } else {
      k := LeafPlacedFrom(t, j + 1, at, i, off, p);
      k := |LeavesOf(m.ty)| + k;
    }
  }

  /** A transfer found free of pointers copies none, however its type is padded: every pointer the type has begins at
      `length` or behind. */
  lemma NoPointerCopied(t: Ty, length: nat, off: int, p: Ty)
    requires InOrder(t) && NoEarlyPointer(t, length) && LeafAt(t, off, p) && p.Prim? && p.pointer
    ensures off >= length
  {
    PackedBelow(t, 0);
    var k := LeafPlaced(t, 0, off, p);
    hide LeavesOf, PlacesOf, Packed, LeafAt, InOrder;
  }

  // ---------------------------------------------------------------- stepping through the leaves

  /** The leaves of a stack of types, top first. */
  ghost function Remaining(w: seq<Ty>): seq<Ty> {
    if w == [] then [] else LeavesOf(w[|w| - 1]) + Remaining(w[..|w| - 1])
  }

  ghost function RemainingMass(w: seq<Ty>): nat {
    if w == [] then 0 else RemainingMass(w[..|w| - 1]) + Mass(w[|w| - 1])
  }

  /** The parts of a type, last part first, so that the first is popped first. */
  function PushedParts(t: Ty): (p: seq<Ty>)
    ensures |p| == |Parts(t)|
  {
    var n := |Parts(t)|;
    seq(n, i requires 0 <= i < n => Parts(t)[n - 1 - i].ty)
  }

  lemma StackTop(w: seq<Ty>, t: Ty)
    ensures Remaining(w + [t]) == LeavesOf(t) + Remaining(w)
    ensures RemainingMass(w + [t]) == RemainingMass(w) + Mass(t)
  {
    assert (w + [t])[..|w|] == w;
  }

  lemma LeavesNext(t: Ty, i: nat)
    requires i < |Parts(t)|
    ensures LeavesFrom(t, i) == LeavesOf(Parts(t)[i].ty) + LeavesFrom(t, i + 1)
  {
  }

  lemma PartPushed(t: Ty, n: nat)
    requires 0 < n <= |Parts(t)|
    ensures PushedParts(t)[..n] == PushedParts(t)[..n - 1] + [Parts(t)[|Parts(t)| - n].ty]
  {
  }

  lemma NoPartPushed(w: seq<Ty>, t: Ty)
    ensures w + PushedParts(t)[..0] == w && LeavesFrom(t, |Parts(t)|) == []
  {
  }

  lemma Rejoined<T>(a: seq<T>, b: seq<T>, c: seq<T>)
    ensures a + (b + c) == a + b + c
  {
  }

  lemma {:induction false} PartsRemain(w: seq<Ty>, t: Ty, n: nat)
    requires n <= |Parts(t)|
    ensures Remaining(w + PushedParts(t)[..n]) == LeavesFrom(t, |Parts(t)| - n) + Remaining(w)
  {
    hide *;
    if n == 0 {
      NoPartPushed(w, t);
    } else {
      var i, v := |Parts(t)| - n, PushedParts(t)[..n - 1];
      var x := Parts(t)[i].ty;
      PartsRemain(w, t, n - 1);
      PartPushed(t, n);
      LeavesNext(t, i);
      StackTop(w + v, x);
      Rejoined(w, v, [x]);
      Rejoined(LeavesOf(x), LeavesFrom(t, i + 1), Remaining(w));
    }
  }

  lemma PartsMassNext(t: Ty, i: nat)
    requires i < |Parts(t)|
    ensures PartsMass(t, i + 1) == PartsMass(t, i) + Mass(Parts(t)[i].ty)
  {
  }

  lemma {:induction false} PartsRemainMass(w: seq<Ty>, t: Ty, n: nat)
    requires n <= |Parts(t)|
    ensures var m := |Parts(t)|;
            RemainingMass(w + PushedParts(t)[..n]) + PartsMass(t, m - n) == RemainingMass(w) + PartsMass(t, m)
  {
    hide *;
    if n == 0 {
      NoPartPushed(w, t);
    } else {
      var i, v := |Parts(t)| - n, PushedParts(t)[..n - 1];
      var x := Parts(t)[i].ty;
      PartsRemainMass(w, t, n - 1);
      PartPushed(t, n);
      PartsMassNext(t, i);
      StackTop(w + v, x);
      Rejoined(w, v, [x]);
    }
  }

  /** Replacing the top of the stack by its parts leaves the same leaves to visit. */
  lemma ExpandTop(w: seq<Ty>)
    requires w != [] && !Primitive(w[|w| - 1])
    ensures var rest := w[..|w| - 1] + PushedParts(w[|w| - 1]);
            Remaining(rest) == Remaining(w) && RemainingMass(rest) < RemainingMass(w)
  {
    hide Remaining, RemainingMass, LeavesFrom, PushedParts, Mass, PartsMass;
    var k := |w| - 1;
    var n := |Parts(w[k])|;
    PartsRemain(w[..k], w[k], n);
    PartsRemainMass(w[..k], w[k], n);
    AllPushed(w[k]);
    StackTop(w[..k], w[k]);
    assert w == w[..k] + [w[k]];
  }

  lemma AllPushed(t: Ty)
    ensures PushedParts(t)[..|Parts(t)|] == PushedParts(t)
    ensures Mass(t) == 1 + PartsMass(t, |Parts(t)|) && PartsMass(t, 0) == 0
    ensures !Primitive(t) ==> LeavesOf(t) == LeavesFrom(t, 0)
  {
  }

  lemma StackEmpty()
    ensures Remaining([]) == []
  {
  }

  lemma PrimitiveLeaf(t: Ty)
    requires Primitive(t)
    ensures LeavesOf(t) == [t] && Mass(t) > 0
  {
  }

  /** The leaf an iterator stands on, with its running offset. */
  datatype Stop = Stop(ty: Option<Ty>, bytes: nat, off: nat)

  class AggregateIterator {
    var worklist: seq<Ty>
    var current: Stop

    constructor (t: Ty)
      ensures worklist == [t] && current == Stop(None, 0, 0)
    {
      worklist := [t];
      current := Stop(None, 0, 0);
    }

    predicate AtEnd()
      reads this
    {
      current.ty.None? && current.bytes == 0 && worklist == []
    }

    /** Move to the next leaf; the running offset wraps at the word. */
    method DoStep()
      modifies this
      ensures var left := Remaining(old(worklist)); var off := (old(current.off) + old(current.bytes)) % WORD;
        if old(worklist) == [] then worklist == [] && current == Stop(None, 0, off)
        else if left == [] then worklist == [] && current == old(current)
        else Remaining(worklist) == left[1..] && current == Stop(Some(left[0]), SizeOf(left[0]) % WORD, off)
      ensures old(worklist) != [] ==> RemainingMass(worklist) < RemainingMass(old(worklist))
    {
      hide LeavesOf, Mass, SizeOf, RemainingMass, Remaining, PushedParts;
      StackEmpty();
      if worklist == [] {
        current := Stop(None, 0, (current.off + current.bytes) % WORD);
        return;
      }
      while worklist != []
        invariant Remaining(worklist) == Remaining(old(worklist)) && current == old(current)
        invariant worklist != old(worklist) ==> RemainingMass(worklist) < RemainingMass(old(worklist))
        decreases RemainingMass(worklist)
      {
        var k := |worklist| - 1;
        var t := worklist[k];
        assert worklist == worklist[..k] + [t];
        StackTop(worklist[..k], t);
        if Primitive(t) {
          PrimitiveLeaf(t);
          worklist := worklist[..k];
          current := Stop(Some(t), SizeOf(t) % WORD, (current.off + current.bytes) % WORD);
          break;
        }
        ExpandTop(worklist);
        worklist := worklist[..k] + PushedParts(t);
      }
    }
  }

  // ---------------------------------------------------------------- scanning a transfer

  /** The type's leaves and size fit the 32-bit offsets the walk keeps. */
  ghost predicate Small(t: Ty) {
    SizeOf(t) < WORD && Packed(LeavesOf(t)) < WORD
  }

  /** The iterator stands on leaf `i` of `all`, or has passed the last one. */
  ghost predicate Standing(it: AggregateIterator, all: seq<Ty>, i: nat)
    reads it
  {
    if it.current.ty.None? then it.AtEnd() && i == |all|
    else
      && i < |all| && Remaining(it.worklist) == all[i + 1..]
      && it.current == Stop(Some(all[i]), SizeOf(all[i]) % WORD, Packed(all[..i]) % WORD)
  }

  lemma NextOffset(all: seq<Ty>, i: nat)
    requires i < |all|
    ensures (Packed(all[..i]) % WORD + SizeOf(all[i]) % WORD) % WORD == Packed(all[..i + 1]) % WORD
  {
    assert all[..i + 1][..i] == all[..i];
  }

  /** The walk meets a pointer leaf before it comes to a leaf at or past `length`. */
  ghost predicate MeetsPointer(t: Ty, length: nat) {
    exists i: nat | i < |LeavesOf(t)| :: IsPointer(LeavesOf(t)[i]) && ReachesLeaf(t, i, length)
  }

  ghost predicate ReachesLeaf(t: Ty, i: nat, length: nat)
    requires i < |LeavesOf(t)|
  {
    forall k: nat | k <= i :: Packed(LeavesOf(t)[..k]) % WORD < length
  }

  lemma BreaksOff(t: Ty, length: nat, i: nat)
    requires i <= |LeavesOf(t)| && forall k: nat :: k < i ==> !IsPointer(LeavesOf(t)[k])
    requires i == |LeavesOf(t)| || length <= Packed(LeavesOf(t)[..i]) % WORD
    ensures !MeetsPointer(t, length)
  {
    hide LeavesOf, Packed;
  }

  lemma FindsPointer(t: Ty, length: nat, i: nat)
    requires i < |LeavesOf(t)| && IsPointer(LeavesOf(t)[i]) && Packed(LeavesOf(t)[..i]) % WORD < length
    requires forall k: nat :: k < i ==> Packed(LeavesOf(t)[..k]) % WORD < length
    ensures MeetsPointer(t, length)
  {
    hide LeavesOf, Packed;
    assert ReachesLeaf(t, i, length);
  }

  /** A walk that meets no pointer has missed none: wrapping only makes it look further. */
  lemma WalkSafe(t: Ty, length: nat)
    ensures !MeetsPointer(t, length) ==> NoEarlyPointer(t, length)
    ensures Small(t) ==> (!MeetsPointer(t, length) <==> NoEarlyPointer(t, length))
  {
    hide LeavesOf, Packed, SizeOf;
    var all := LeavesOf(t);
    assert all[..|all|] == all;
    forall i: nat | i < |all| && IsPointer(all[i])
      ensures Packed(all[..i]) < length ==> MeetsPointer(t, length)
      ensures Small(t) && ReachesLeaf(t, i, length) ==> Packed(all[..i]) < length
    {
      PackedMono(all, i, |all|);
      if Packed(all[..i]) < length {
        forall k: nat | k <= i ensures Packed(all[..k]) % WORD < length {
          PackedMono(all, k, i);
        }
        FindsPointer(t, length, i);
      }
    }
  }

  /** Walk the leaves that start before `length`, looking for a pointer. */
  method ScanLeaves(t: Ty, length: nat) returns (r: bool)
    ensures r <==> !MeetsPointer(t, length)
    ensures r ==> NoEarlyPointer(t, length)
    ensures Small(t) ==> (r <==> NoEarlyPointer(t, length))
  {
    hide LeavesOf, Packed, SizeOf, Remaining, RemainingMass, NoEarlyPointer, MeetsPointer, Small;
    ghost var all := LeavesOf(t);
    WalkSafe(t, length);
    var it := new AggregateIterator(t);
    OneLeft(t);
    PackedNothing(all);
    it.DoStep();
    ghost var i := 0;
    while !it.AtEnd()
      invariant fresh(it) && i <= |all| && Standing(it, all, i)
      invariant forall k: nat :: k < i ==> !IsPointer(all[k]) && Packed(all[..k]) % WORD < length
      decreases RemainingMass(it.worklist), it.current.ty.Some?
    {
      if it.current.off >= length {
        BreaksOff(t, length, i);
        return true;
      }
      if IsPointer(it.current.ty.value) {
        FindsPointer(t, length, i);
        return false;
      }
      NextOffset(all, i);
      StackEmpty();
      if it.worklist == [] || all[i + 1..] != [] {
        i := i + 1;
      }
      it.DoStep();
    }
    BreaksOff(t, length, i);
    return true;
  }

  lemma OneLeft(t: Ty)
    ensures Remaining([t]) == LeavesOf(t)
  {
    StackTop([], t);
    assert [] + [t] == [t];
    assert LeavesOf(t) + [] == LeavesOf(t);
  }

  lemma PackedNothing(all: seq<Ty>)
    ensures Packed(all[..0]) == 0
  {
  }

  class TransferAnalysis {
    /** Earlier answers, by type and 32-bit length. */
    var known: map<(Ty, nat), bool>

    constructor ()
      ensures known == map[] && Honest()
    {
      known := map[];
    }

    /** Every remembered answer is what a walk gave for some length that fits its key. */
    ghost predicate Honest()
      reads this
    {
      forall k | k in known :: Walked(k.0, k.1, known[k])
    }

    /** Whether moving `length` bytes from an object of type `src` provably moves no pointer;
        no type is an opaque one, no length one that is not constant. */
    method TransfersNoPointers(src: Option<Ty>, length: Option<nat>) returns (r: bool)
      modifies this
      ensures old(Honest()) ==> Honest()
      ensures r ==> src.Some? && length.Some? && length.value <= SizeOf(src.value)
      // the answer and the new memo, whatever was remembered
      ensures src.Some? && length.Some? && length.value <= SizeOf(src.value) ==>
                var key := (src.value, length.value % WORD);
                && (key in old(known) ==> r == old(known)[key] && known == old(known))
                && (key !in old(known) ==>
                      (r <==> !MeetsPointer(src.value, length.value)) && known == old(known)[key := r])
      // where no two lengths collide the answer is that of a fresh walk
      ensures old(Honest()) && src.Some? && length.Some? && Steady(src.value) ==>
                (r <==> length.value <= SizeOf(src.value) && !MeetsPointer(src.value, length.value))
      // and for small types it is exact
      ensures old(Honest()) && src.Some? && length.Some? && Small(src.value) ==>
                (r <==> length.value <= SizeOf(src.value) && NoEarlyPointer(src.value, length.value))
    {
      hide NoEarlyPointer, MeetsPointer, Small, Steady, SizeOf, Walked;
      if length.None? || src.None? {
        return false;
      }
      var t, n := src.value, length.value;
      if n > SizeOf(t) {
        return false;
      }
      var key: (Ty, nat) := (t, n % WORD);
      WalkSafe(t, n);
      SmallSteady(t);
      if key in known {
        r := known[key];
        if Honest() {
          SteadyAgrees(t, n, r);
        }
        return;
      }
      r := ScanLeaves(t, n);
      WalkedNow(t, n, r);
      known := known[key := r];
    }
  }

  /** Some length of `t` with this key was answered `r` by a walk. */
  ghost predicate Walked(t: Ty, key: nat, r: bool) {
    exists n: nat :: n <= SizeOf(t) && n % WORD == key && (r <==> !MeetsPointer(t, n))
  }

  lemma WalkedNow(t: Ty, n: nat, r: bool)
    requires n <= SizeOf(t) && (r <==> !MeetsPointer(t, n))
    ensures Walked(t, n % WORD, r)
  {
  }

  /** `t` is below 4 GiB or has no pointer. */
  ghost predicate Steady(t: Ty) {
    SizeOf(t) < WORD || forall i: nat | i < |LeavesOf(t)| :: !IsPointer(LeavesOf(t)[i])
  }

  lemma SmallSteady(t: Ty)
    ensures Small(t) ==> Steady(t)
  {
  }

  lemma SteadyAgrees(t: Ty, n: nat, r: bool)
    requires Walked(t, n % WORD, r) && n <= SizeOf(t)
    ensures Steady(t) ==> (r <==> !MeetsPointer(t, n))
  {
    hide SizeOf, LeavesOf;
  }

  /** Lengths that share a memo entry always have one answer if and only if
      the type is below 4 GiB or has no pointer. */
  lemma MemoAgrees(t: Ty)
    ensures Steady(t) <==>
              forall m: nat, n: nat :: m <= SizeOf(t) && n <= SizeOf(t) && m % WORD == n % WORD ==>
                (MeetsPointer(t, m) <==> MeetsPointer(t, n))
  {
    hide SizeOf, LeavesOf;
    if !Steady(t) {
      WordCollides(t);
    }
  }

  /** On any other type the lengths 0 and 2^32 disagree: a walk over none of it finds no pointer,
      a walk over 2^32 bytes never breaks off. */
  lemma WordCollides(t: Ty)
    requires !Steady(t)
    ensures WORD <= SizeOf(t) && !MeetsPointer(t, 0) && MeetsPointer(t, WORD)
  {
    hide SizeOf, LeavesOf, Packed;
    var i: nat :| i < |LeavesOf(t)| && IsPointer(LeavesOf(t)[i]);
    assert ReachesLeaf(t, i, WORD);
    forall k: nat | k < |LeavesOf(t)| ensures !ReachesLeaf(t, k, 0) {
      assert Packed(LeavesOf(t)[..0]) % WORD >= 0;
    }
  }

  /** After a question about 0 bytes, a transfer of 2^32 bytes with a pointer is taken for one without. */
  method MemoMisleads(t: Ty) returns (r: bool)
    requires !Steady(t)
    ensures r && MeetsPointer(t, WORD)
  {
    hide SizeOf, MeetsPointer, Steady;
    WordCollides(t);
    var analysis := new TransferAnalysis();
    r := analysis.TransfersNoPointers(Some(t), Some(0));
    r := analysis.TransfersNoPointers(Some(t), Some(WORD));
  }
}
