/** Expanding an aggregate access into primitive accesses. */
module Flattening {
  import opened Layout
  import opened PointsTo
  import opened Strides

  /** Part `i` of an access, at its own offset. */
  function Part(a: Access, i: nat): (p: Access)
    requires i < |Parts(a.ty)|
    ensures p.ty < a.ty
  {
    var m := Parts(a.ty)[i];
    Access(a.off + m.off, m.ty)
  }

  /** The primitive accesses that make up an access. */
  ghost function Leaves(a: Access): set<Access>
    decreases a.ty
  {
    if Primitive(a.ty) then {a}
    else set i: nat, b | i < |Parts(a.ty)| && b in Leaves(Part(a, i)) :: b
  }

  /** Type `t` has a primitive `p` at offset `off`. */
  ghost predicate LeafAt(t: Ty, off: int, p: Ty)
    decreases t
  {
    match t
    case Struct(ms, _) => exists i | 0 <= i < |ms| :: LeafAt(ms[i].ty, off - ms[i].off, p)
    case Array(elem, n) => exists i: nat | i < n :: LeafAt(elem, off - Places(elem, i), p)
    case _ => off == 0 && p == t
  }

  /** How far into an array of `elem` element `i` begins. */
  ghost function Places(elem: Ty, i: nat): nat {
    i * SizeOf(elem)
  }

  lemma StructLeaf(ms: seq<Member>, e: nat, off: int, p: Ty)
    ensures LeafAt(Struct(ms, e), off, p) <==> exists i: nat :: i < |ms| && LeafAt(ms[i].ty, off - ms[i].off, p)
  {
  }

  lemma ArrayLeaf(elem: Ty, n: nat, off: int, p: Ty)
    ensures LeafAt(Array(elem, n), off, p) <==> exists i: nat :: i < n && LeafAt(elem, off - Places(elem, i), p)
  {
    hide Places;
  }

  lemma LeafInPart(t: Ty, off: int, p: Ty)
    requires !Primitive(t)
    ensures LeafAt(t, off, p) <==>
              exists i: nat :: i < |Parts(t)| && LeafAt(Parts(t)[i].ty, off - Parts(t)[i].off, p)
  {
    hide LeafAt, SizeOf;
    match t {
      case Struct(ms, e) =>
        StructLeaf(ms, e, off, p);
        assert forall i: nat | i < |ms| :: Parts(t)[i] == ms[i];
        if i: nat :| i < |ms| && LeafAt(ms[i].ty, off - ms[i].off, p) {
          assert LeafAt(Parts(t)[i].ty, off - Parts(t)[i].off, p);
        }
        if i: nat :| i < |Parts(t)| && LeafAt(Parts(t)[i].ty, off - Parts(t)[i].off, p) {
          assert LeafAt(ms[i].ty, off - ms[i].off, p);
        }
      case Array(elem, n) =>
        ArrayLeaf(elem, n, off, p);
        forall i: nat | i < n ensures Parts(t)[i] == Member(Places(elem, i), elem) {
        }
        hide Parts, Places;
        if i: nat :| i < n && LeafAt(elem, off - Places(elem, i), p) {
          assert LeafAt(Parts(t)[i].ty, off - Parts(t)[i].off, p);
        }
    }
  }

  /** The accesses that make up an access are the primitives its type has, each at its offset. */
  lemma {:induction false} LeavesAre(a: Access, b: Access)
    ensures b in Leaves(a) <==> LeafAt(a.ty, b.off - a.off, b.ty)
    decreases a.ty
  {
    if !Primitive(a.ty) {
      LeafInPart(a.ty, b.off - a.off, b.ty);
      forall i: nat | i < |Parts(a.ty)|
        ensures b in Leaves(Part(a, i)) <==> LeafAt(Parts(a.ty)[i].ty, b.off - a.off - Parts(a.ty)[i].off, b.ty)
      {
        LeavesAre(Part(a, i), b);
      }
      hide LeafAt, Parts;
    }
  }

  /** An array of primitives is accessed at every element, and nowhere else. */
  lemma ElementsRecorded(nd: Node, a: Access, b: Access)
    requires a.ty.Array? && Primitive(a.ty.elem)
    ensures b in Leaves(a) <==> b.ty == a.ty.elem && exists i: nat :: i < a.ty.count && b.off == a.off + Places(b.ty, i)
    ensures b in Leaves(a) ==> Access(Adjust(Recorded(nd, a), b.off), b.ty) in Recorded(nd, a).types
  {
    hide Places, Leaves;
    LeavesAre(a, b);
    assert forall k :: Adjust(Recorded(nd, a), k) == Adjust(Stretched(nd, a), k);
  }

  type Stack = seq<Access>

  ghost function StackLeaves(w: Stack): set<Access> {
    set j: nat, b | j < |w| && b in Leaves(w[j]) :: b
  }

  ghost function StackMass(w: Stack): nat {
    if w == [] then 0 else StackMass(w[..|w| - 1]) + Mass(w[|w| - 1].ty)
  }

  /** The parts of an access, last part first, so that the first is popped first. */
  function Pushed(a: Access): (w: Stack)
    ensures |w| == |Parts(a.ty)|
  {
    var n := |Parts(a.ty)|;
    seq(n, i requires 0 <= i < n => Part(a, n - 1 - i))
  }

  lemma JoinedLeaves(w: Stack, v: Stack)
    ensures StackLeaves(w + v) == StackLeaves(w) + StackLeaves(v)
  {
    forall b | b in StackLeaves(w + v) ensures b in StackLeaves(w) + StackLeaves(v) {
      var j: nat :| j < |w + v| && b in Leaves((w + v)[j]);
      if j < |w| {
        assert (w + v)[j] == w[j];
      } else {
        assert (w + v)[j] == v[j - |w|];
      }
    }
    forall b | b in StackLeaves(w) ensures b in StackLeaves(w + v) {
      var j: nat :| j < |w| && b in Leaves(w[j]);
      assert (w + v)[j] == w[j];
    }
    forall b | b in StackLeaves(v) ensures b in StackLeaves(w + v) {
      var j: nat :| j < |v| && b in Leaves(v[j]);
      assert (w + v)[|w| + j] == v[j];
    }
  }

  lemma PartsLeaves(a: Access)
    requires !Primitive(a.ty)
    ensures StackLeaves(Pushed(a)) == Leaves(a)
  {
    var n := |Parts(a.ty)|;
    var v := Pushed(a);
    forall b | b in StackLeaves(v) ensures b in Leaves(a) {
      var j: nat :| j < |v| && b in Leaves(v[j]);
      assert v[j] == Part(a, n - 1 - j);
    }
    forall b | b in Leaves(a) ensures b in StackLeaves(v) {
      var i: nat :| i < n && b in Leaves(Part(a, i));
      assert v[n - 1 - i] == Part(a, i);
    }
  }

  lemma PushedLeaves(w: Stack, a: Access)
    requires !Primitive(a.ty)
    ensures StackLeaves(w + Pushed(a)) == StackLeaves(w) + Leaves(a)
  {
    JoinedLeaves(w, Pushed(a));
    PartsLeaves(a);
  }

  lemma PoppedLeaves(w: Stack)
    requires w != []
    ensures StackLeaves(w) == StackLeaves(w[..|w| - 1]) + Leaves(w[|w| - 1])
  {
    var top := [w[|w| - 1]];
    assert w == w[..|w| - 1] + top;
    JoinedLeaves(w[..|w| - 1], top);
    assert StackLeaves(top) == Leaves(top[0]);
  }

  lemma MassTop(w: Stack, a: Access)
    ensures StackMass(w + [a]) == StackMass(w) + Mass(a.ty)
  {
    assert (w + [a])[..|w|] == w;
  }

  lemma MassNext(a: Access, n: nat)
    requires 0 < n <= |Parts(a.ty)|
    ensures var i := |Parts(a.ty)| - n;
      Pushed(a)[..n] == Pushed(a)[..n - 1] + [Part(a, i)] &&
        PartsMass(a.ty, i + 1) == PartsMass(a.ty, i) + Mass(Part(a, i).ty)
  {
  }

  lemma {:induction false} PushedMass(w: Stack, a: Access, n: nat)
    requires n <= |Parts(a.ty)|
    ensures var m := |Parts(a.ty)|;
            StackMass(w + Pushed(a)[..n]) + PartsMass(a.ty, m - n) == StackMass(w) + PartsMass(a.ty, m)
  {
    hide StackMass, PartsMass, Mass, Pushed, Parts, Part;
    if n == 0 {
      assert w + Pushed(a)[..0] == w;
    } else {
      var v, p := Pushed(a)[..n - 1], Part(a, |Parts(a.ty)| - n);
      PushedMass(w, a, n - 1);
      MassNext(a, n);
      MassTop(w + v, p);
      assert w + (v + [p]) == w + v + [p];
    }
  }

  /** Expanding the top of the stack shrinks what is left to visit. */
  lemma ExpandShrinks(w: Stack)
    requires w != []
    ensures var k := |w| - 1; StackMass(w[..k] + Pushed(w[k])) < StackMass(w)
  {
    var k := |w| - 1;
    var n := |Parts(w[k].ty)|;
    PushedMass(w[..k], w[k], n);
    assert Pushed(w[k])[..n] == Pushed(w[k]);
  }

  // ---------------------------------------------------------------- recording on a node

  /** Access `a` lies inside `nd`. */
  predicate Inside(nd: Node, a: Access) {
    a.ty.Void? || Adjust(nd, a.off) + SizeOf(a.ty) <= nd.size
  }

  ghost function Folded(nd: Node, accesses: set<Access>): set<Access> {
    set a | a in accesses :: Access(Adjust(nd, a.off), a.ty)
  }

  /** `nd` stretched to hold access `a`; arrays keep their stride. */
  function Stretched(nd: Node, a: Access): Node {
    nd.(size := if a.ty.Void? || nd.isArray || a.off + SizeOf(a.ty) <= nd.size then nd.size else a.off + SizeOf(a.ty))
  }

  /** `nd` after recording access `a`. */
  ghost function Recorded(nd: Node, a: Access): Node {
    var grown := Stretched(nd, a);
    grown.(types := nd.types + Folded(grown, Leaves(a)))
  }

  lemma PartFits(nd: Node, a: Access, i: nat)
    requires !nd.isCollapsed && (nd.isArray ==> nd.size > 0)
    requires WellLaid(a.ty) && i < |Parts(a.ty)| && Inside(nd, a)
    ensures Inside(nd, Part(a, i)) && WellLaid(Part(a, i).ty)
  {
    PartInside(a.ty, i);
    if nd.isArray {
      Wrap(a.off, Parts(a.ty)[i].off, nd.size);
    }
  }
}
