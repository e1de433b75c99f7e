/** Types as the analysis sees them: primitives with a byte size, structs with
    explicit member offsets, and arrays.  Allocation size and store size agree. */
module Layout {
  datatype Ty =
    | Void
    | Prim(id: nat, bytes: nat, pointer: bool)
    | Struct(members: seq<Member>, extent: nat)
    | Array(elem: Ty, count: nat)

  datatype Member = Member(off: nat, ty: Ty)

  function SizeOf(t: Ty): nat {
    match t
    case Void => 0
    case Prim(_, b, _) => b
    case Struct(_, e) => e
    case Array(elem, n) => n * SizeOf(elem)
  }

  /** A type some primitive access can have. */
  predicate Primitive(t: Ty) {
    t.Void? || t.Prim?
  }

  /** The immediate parts of a struct or array, with their offsets. */
  function Parts(t: Ty): seq<Member> {
    match t
    case Struct(ms, _) => ms
    case Array(elem, n) => seq(n, (i: nat) => Member(i * SizeOf(elem), elem))
    case _ => []
  }

  /** Every struct member lies inside its struct, and nothing inside is void. */
  ghost predicate WellLaid(t: Ty) {
    match t
    case Struct(ms, e) =>
      forall i | 0 <= i < |ms| :: !ms[i].ty.Void? && ms[i].off + SizeOf(ms[i].ty) <= e && WellLaid(ms[i].ty)
    case Array(elem, _) => !elem.Void? && WellLaid(elem)
    case _ => true
  }

  lemma PartInside(t: Ty, i: nat)
    requires WellLaid(t) && i < |Parts(t)|
    ensures var p := Parts(t)[i]; !p.ty.Void? && WellLaid(p.ty) && p.off + SizeOf(p.ty) <= SizeOf(t)
  {
    if t.Array? {
      MulMono(i + 1, t.count, SizeOf(t.elem));
    }
  }

  lemma MulMono(a: nat, b: nat, c: nat)
    requires a <= b
    ensures a * c <= b * c
  {
  }

  /** How many types a full expansion visits. */
  ghost function Mass(t: Ty): nat
    decreases t, |Parts(t)| + 1
  {
    1 + PartsMass(t, |Parts(t)|)
  }

  ghost function PartsMass(t: Ty, n: nat): nat
    requires n <= |Parts(t)|
    decreases t, n
  {
    if n == 0 then 0 else
      assert Parts(t)[n - 1].ty < t;
      PartsMass(t, n - 1) + Mass(Parts(t)[n - 1].ty)
  }
}
