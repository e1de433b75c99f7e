/** Later states when the mark External, which a caller clears from clones of formals, is ignored. */
module Marks {
  import opened PointsTo
  import opened Forwarding
  import opened Coarsening
  import opened EngineFacts

  /** Only marks differ. */
  ghost predicate Remarked(s: seq<Node>, t: seq<Node>) {
    |t| == |s| && forall m: nat :: m < |s| ==> t[m] == s[m].(marks := t[m].marks)
  }

  lemma RemarkedSame(s: seq<Node>, t: seq<Node>)
    requires Acyclic(s) && Remarked(s, t)
    ensures Acyclic(t) && SameForwarding(s, t)
    ensures forall n: nat :: n < |s| ==> Resolve(t, n) == Resolve(s, n)
    ensures forall c: Cell :: c.node < |s| ==> Canon(t, c) == Canon(s, c)
  {
    SameForwardingKeeps(s, t);
    forall c: Cell | c.node < |s| ensures Canon(t, c) == Canon(s, c) {
      var r := Resolve(s, c.node).node;
      assert t[r] == s[r].(marks := t[r].marks);
    }
  }

  lemma RemarkedEdge(s: seq<Node>, t: seq<Node>, n: nat, f: Field, c: Cell)
    requires Acyclic(s) && Acyclic(t) && Remarked(s, t) && n < |s| && HasEdge(s, n, f, c)
    ensures HasEdge(t, n, f, c)
  {
    hide Canon, Acyclic, Remarked, Adjust, Lookup;
    RemarkedSame(s, t);
    var r := Resolve(s, n);
    RemarkedAt(s, t, r.node);
    RemarkedAdjust(s[r.node], t[r.node], r.off + f.off);
    var x := Lookup(s[r.node].links, Field(Adjust(s[r.node], r.off + f.off), f.ty));
    assert Canon(t, x.value) == Canon(s, x.value) && Canon(t, c) == Canon(s, c);
  }

  lemma RemarkedAdjust(nd: Node, now: Node, k: nat)
    requires now == nd.(marks := now.marks)
    ensures Adjust(now, k) == Adjust(nd, k)
  {
  }

  lemma RemarkedValid(s: seq<Node>, t: seq<Node>)
    requires Valid(s) && Remarked(s, t)
    ensures Valid(t)
  {
    SameForwardingKeeps(s, t);
    forall n: nat | IsRep(t, n) ensures SoundNode(t[n]) {
      assert IsRep(s, n) && t[n] == s[n].(marks := t[n].marks);
      Resoundable(s[n], t[n]);
    }
    hide SoundNode;
    forall n: nat, f | n < |t| && f in t[n].links ensures t[n].links[f].node < |t| {
      assert t[n] == s[n].(marks := t[n].marks);
    }
  }

  lemma RemarkedAt(s: seq<Node>, t: seq<Node>, n: nat)
    requires Remarked(s, t) && n < |s|
    ensures n < |t| && t[n] == s[n].(marks := t[n].marks)
  {
  }

  /** The nodes without the marks `gone`. */
  ghost function Unmarked(ns: seq<Node>, gone: set<Mark>): seq<Node> {
    seq(|ns|, i requires 0 <= i < |ns| => ns[i].(marks := ns[i].marks - gone))
  }

  /** A later state is a later state when some marks are ignored. */
  lemma UnmarkedCoarsens(s: seq<Node>, t: seq<Node>, gone: set<Mark>)
    requires Valid(s) && Valid(t) && Coarsens(s, t, {})
    ensures Valid(Unmarked(s, gone)) && Valid(Unmarked(t, gone)) && Coarsens(Unmarked(s, gone), Unmarked(t, gone), {})
  {
    hide Valid, Coarsens, Follows, Carries, Remarked;
    var x, y := Unmarked(s, gone), Unmarked(t, gone);
    CoarsensBasics(s, t, {});
    UnmarkedIs(s, gone);
    UnmarkedIs(t, gone);
    RemarkedValid(s, x);
    RemarkedValid(t, y);
    RemarkedSame(s, x);
    RemarkedSame(t, y);
    UnmarkedFollows(s, t, gone);
    forall r: nat | IsRep(x, r) ensures Carries(x[r], y, r) {
      UnmarkedCarries(s, t, gone, r);
    }
    CoarsensIs(x, y);
  }

  lemma CoarsensIs(x: seq<Node>, y: seq<Node>)
    requires Follows(x, y) && forall r: nat | IsRep(x, r) :: Carries(x[r], y, r)
    ensures Coarsens(x, y, {})
  {
    hide Carries;
  }

  lemma UnmarkedIs(s: seq<Node>, gone: set<Mark>)
    ensures Remarked(s, Unmarked(s, gone))
  {
  }

  lemma UnmarkedFollows(s: seq<Node>, t: seq<Node>, gone: set<Mark>)
    requires Follows(s, t) && Acyclic(Unmarked(s, gone)) && Acyclic(Unmarked(t, gone))
    requires forall n: nat :: n < |s| ==> Resolve(Unmarked(s, gone), n) == Resolve(s, n)
    requires forall n: nat :: n < |t| ==> Resolve(Unmarked(t, gone), n) == Resolve(t, n)
    ensures Follows(Unmarked(s, gone), Unmarked(t, gone))
  {
    hide Acyclic, Absorbs, Tracks, KindsKept, PendingKept;
    UnmarkedTracks(s, t, gone);
    UnmarkedKinds(s, t, gone);
    UnmarkedPending(s, t, gone);
  }

  lemma UnmarkedTracks(s: seq<Node>, t: seq<Node>, gone: set<Mark>)
    requires Acyclic(s) && Acyclic(t) && Tracks(s, t) && Acyclic(Unmarked(s, gone)) && Acyclic(Unmarked(t, gone))
    requires forall n: nat :: n < |s| ==> Resolve(Unmarked(s, gone), n) == Resolve(s, n)
    requires forall n: nat :: n < |t| ==> Resolve(Unmarked(t, gone), n) == Resolve(t, n)
    ensures |s| <= |t| && Tracks(Unmarked(s, gone), Unmarked(t, gone))
  {
    hide Acyclic;
  }

  lemma UnmarkedKinds(s: seq<Node>, t: seq<Node>, gone: set<Mark>)
    requires Acyclic(t) && |s| <= |t| && KindsKept(s, t) && Acyclic(Unmarked(t, gone))
    requires forall n: nat :: n < |t| ==> Resolve(Unmarked(t, gone), n) == Resolve(t, n)
    ensures KindsKept(Unmarked(s, gone), Unmarked(t, gone))
  {
    hide Acyclic, Absorbs;
    var x, y := Unmarked(s, gone), Unmarked(t, gone);
    forall r: nat | IsRep(x, r) ensures Absorbs(x[r], y[Resolve(y, r).node]) {
      assert IsRep(s, r) && Absorbs(s[r], t[Resolve(t, r).node]);
      RemarkedAbsorbs(s[r], x[r], t[Resolve(t, r).node], y[Resolve(y, r).node]);
    }
  }

  lemma UnmarkedPending(s: seq<Node>, t: seq<Node>, gone: set<Mark>)
    requires |s| <= |t| && PendingKept(s, t)
    ensures PendingKept(Unmarked(s, gone), Unmarked(t, gone))
  {
  }

  lemma RemarkedAbsorbs(a: Node, x: Node, b: Node, y: Node)
    requires Absorbs(a, b) && x == a.(marks := x.marks) && y == b.(marks := y.marks)
    ensures Absorbs(x, y)
  {
  }

  lemma UnmarkedCarries(s: seq<Node>, t: seq<Node>, gone: set<Mark>, r: nat)
    requires Coarsens(s, t, {}) && IsRep(s, r) && Acyclic(Unmarked(t, gone))
    ensures r < |Unmarked(s, gone)| && r < |Unmarked(t, gone)| && Carries(Unmarked(s, gone)[r], Unmarked(t, gone), r)
  {
    hide HasEdge, HasAccess, Acyclic;
    var y := Unmarked(t, gone);
    assert Acyclic(t) && Carries(s[r], t, r);
    hide Coarsens;
    UnmarkedIs(t, gone);
    RemarkedSame(t, y);
    forall f | f in s[r].links ensures HasEdge(y, r, f, s[r].links[f]) {
      RemarkedEdge(t, y, r, f, s[r].links[f]);
    }
    forall a | a in s[r].types ensures HasAccess(y, r, a) {
      RemarkedAccess(t, y, r, a);
    }
  }

  lemma RemarkedAccess(s: seq<Node>, t: seq<Node>, n: nat, a: Access)
    requires Acyclic(s) && Acyclic(t) && Remarked(s, t) && n < |s| && HasAccess(s, n, a)
    ensures HasAccess(t, n, a)
  {
    hide Canon, Acyclic, Remarked, Adjust;
    RemarkedSame(s, t);
    var r := Resolve(s, n);
    RemarkedAt(s, t, r.node);
    RemarkedAdjust(s[r.node], t[r.node], r.off + a.off);
  }

  // ---------------------------------------------------------------- going on

  /** `t` keeps everything of `s` but perhaps the mark External. */
  ghost predicate Onward(s: seq<Node>, t: seq<Node>) {
    && Valid(s) && Valid(t)
    && Coarsens(Unmarked(s, {External}), Unmarked(t, {External}), {})
  }

  lemma OnwardIs(s: seq<Node>, t: seq<Node>)
    requires Valid(s) && Valid(t) && Coarsens(s, t, {})
    ensures Onward(s, t)
  {
    hide Valid, Coarsens, Unmarked;
    UnmarkedCoarsens(s, t, {External});
  }

  lemma OnwardTrans(s: seq<Node>, t: seq<Node>, u: seq<Node>)
    requires Onward(s, t) && Onward(t, u)
    ensures Onward(s, u)
  {
    hide Valid, Coarsens, Unmarked;
    UnmarkedValid(u);
    CoarsensTrans(Unmarked(s, {External}), Unmarked(t, {External}), Unmarked(u, {External}), {});
  }

  lemma UnmarkedValid(s: seq<Node>)
    requires Valid(s)
    ensures Valid(Unmarked(s, {External}))
  {
    hide Valid, Remarked, Unmarked;
    UnmarkedIs(s, {External});
    RemarkedValid(s, Unmarked(s, {External}));
  }

  /** Resolution and cells are the same with and without the mark. */
  lemma UnmarkedSame(s: seq<Node>)
    requires Acyclic(s)
    ensures var x := Unmarked(s, {External});
      && |x| == |s| && Acyclic(x)
      && (forall n: nat :: n < |s| ==> Resolve(x, n) == Resolve(s, n) && x[n].isCollapsed == s[n].isCollapsed)
      && forall c: Cell :: c.node < |s| ==> Canon(x, c) == Canon(s, c)
  {
    hide Canon, Acyclic, Remarked;
    UnmarkedIs(s, {External});
    RemarkedSame(s, Unmarked(s, {External}));
  }

  lemma OnwardBasics(s: seq<Node>, t: seq<Node>)
    requires Onward(s, t)
    ensures Valid(s) && Valid(t) && Acyclic(s) && Acyclic(t) && |s| <= |t|
    ensures Acyclic(Unmarked(s, {External})) && Acyclic(Unmarked(t, {External}))
    ensures Follows(Unmarked(s, {External}), Unmarked(t, {External}))
  {
    hide Valid, Coarsens, Unmarked, Follows;
    ValidAcyclic(s);
    ValidAcyclic(t);
    CoarsensBasics(Unmarked(s, {External}), Unmarked(t, {External}), {});
    UnmarkedSame(s);
    UnmarkedSame(t);
  }

  /** Cells once equal stay equal. */
  lemma OnwardSame(s: seq<Node>, t: seq<Node>, c: Cell, d: Cell)
    requires Onward(s, t) && Acyclic(s) && Same(s, c, d)
    ensures Acyclic(t) && Same(t, c, d)
  {
    hide Valid, Onward, Unmarked, Follows, Canon;
    OnwardBasics(s, t);
    UnmarkedSame(s);
    UnmarkedSame(t);
    SameLater(Unmarked(s, {External}), Unmarked(t, {External}), c, d);
  }

  /** Edges stay. */
  lemma OnwardEdge(s: seq<Node>, t: seq<Node>, n: nat, f: Field, c: Cell)
    requires Onward(s, t) && Acyclic(s) && n < |s| && HasEdge(s, n, f, c)
    ensures Acyclic(t) && n < |t| && HasEdge(t, n, f, c)
  {
    hide Valid, Coarsens, Unmarked, Follows, HasEdge, Remarked;
    OnwardBasics(s, t);
    var x, y := Unmarked(s, {External}), Unmarked(t, {External});
    UnmarkedSame(s);
    UnmarkedSame(t);
    UnmarkedIs(s, {External});
    UnmarkedBack(t);
    UnmarkedValid(t);
    RemarkedEdge(s, x, n, f, c);
    EdgeLater(x, y, n, f, c);
    RemarkedEdge(y, t, n, f, c);
  }

  lemma UnmarkedBack(s: seq<Node>)
    ensures Remarked(Unmarked(s, {External}), s)
  {
  }

  /** Nodes keep their place in what they were merged into, which stays collapsed once it is. */
  lemma OnwardSeat(s: seq<Node>, t: seq<Node>, n: nat)
    requires Onward(s, t) && Acyclic(s) && Acyclic(t) && n < |s|
    ensures |s| <= |t| && Resolve(t, n) == Shift(Resolve(t, Resolve(s, n).node), Resolve(s, n).off)
    ensures s[Resolve(s, n).node].isCollapsed ==> t[Resolve(t, n).node].isCollapsed
  {
    hide Valid, Onward, Unmarked, Follows, Canon, Acyclic;
    OnwardBasics(s, t);
    UnmarkedSame(s);
    UnmarkedSame(t);
    FollowsSeat(Unmarked(s, {External}), Unmarked(t, {External}), n);
  }

  lemma FollowsSeat(s: seq<Node>, t: seq<Node>, n: nat)
    requires Follows(s, t) && n < |s|
    ensures Resolve(t, n) == Shift(Resolve(t, Resolve(s, n).node), Resolve(s, n).off)
    ensures s[Resolve(s, n).node].isCollapsed ==> t[Resolve(t, n).node].isCollapsed
  {
    hide PendingKept;
    var r := Resolve(s, n).node;
    assert Absorbs(s[r], t[Resolve(t, r).node]);
  }

  // ---------------------------------------------------------------- when nothing is lost at all

  /** Whatever was external is external still. */
  ghost predicate ExternalsKept(s: seq<Node>, t: seq<Node>)
    requires Acyclic(t) && |s| <= |t|
  {
    forall n: nat | IsRep(s, n) && External in s[n].marks :: External in t[Resolve(t, n).node].marks
  }

  /** A caller that has gone on has lost nothing exactly when whatever was external is external still. */
  lemma OnwardCoarsens(s: seq<Node>, t: seq<Node>)
    requires Onward(s, t) && |s| <= |t| && PendingKept(s, t) && Acyclic(t)
    ensures Coarsens(s, t, {}) <==> ExternalsKept(s, t)
  {
    hide Valid, Coarsens, Onward, Unmarked, Acyclic;
    OnwardBasics(s, t);
    if Coarsens(s, t, {}) {
      forall n: nat | IsRep(s, n) && External in s[n].marks ensures External in t[Resolve(t, n).node].marks {
        MarksLater(s, t, n);
      }
    }
    if ExternalsKept(s, t) {
      OnwardFollows(s, t);
      forall n: nat | IsRep(s, n) ensures Carries(s[n], t, n) {
        OnwardCarries(s, t, n);
      }
      CoarsensIs(s, t);
    }
  }

  lemma OnwardFollows(s: seq<Node>, t: seq<Node>)
    requires Onward(s, t) && |s| <= |t| && PendingKept(s, t) && Acyclic(s) && Acyclic(t)
    ensures Follows(s, t)
  {
    hide Valid, Onward, Unmarked, Acyclic, Absorbs, PendingKept;
    forall n: nat | n < |s| ensures Resolve(t, n) == Shift(Resolve(t, Resolve(s, n).node), Resolve(s, n).off) {
      OnwardSeat(s, t, n);
    }
    forall r: nat | IsRep(s, r) ensures Absorbs(s[r], t[Resolve(t, r).node]) {
      OnwardKind(s, t, r);
    }
  }

  lemma OnwardKind(s: seq<Node>, t: seq<Node>, r: nat)
    requires Onward(s, t) && Acyclic(t) && IsRep(s, r) && r < |t|
    ensures Absorbs(s[r], t[Resolve(t, r).node])
  {
    hide Valid, Acyclic;
    OnwardBasics(s, t);
    UnmarkedSame(t);
    var x, y := Unmarked(s, {External}), Unmarked(t, {External});
    assert IsRep(x, r) && Absorbs(x[r], y[Resolve(y, r).node]);
    hide Absorbs;
    RemarkedAbsorbs(x[r], s[r], y[Resolve(y, r).node], t[Resolve(t, r).node]);
  }

  lemma OnwardCarries(s: seq<Node>, t: seq<Node>, r: nat)
    requires Onward(s, t) && |s| <= |t| && Acyclic(t) && IsRep(s, r) && ExternalsKept(s, t)
    ensures Carries(s[r], t, r)
  {
    hide Valid, Acyclic, HasEdge, HasAccess;
    OnwardBasics(s, t);
    UnmarkedSame(t);
    UnmarkedBack(t);
    var x, y := Unmarked(s, {External}), Unmarked(t, {External});
    assert IsRep(x, r) && Carries(x[r], y, r);
    hide Coarsens;
    forall f | f in s[r].links ensures HasEdge(t, r, f, s[r].links[f]) {
      RemarkedEdge(y, t, r, f, s[r].links[f]);
    }
    forall a | a in s[r].types ensures HasAccess(t, r, a) {
      RemarkedAccess(y, t, r, a);
    }
    forall m | m in s[r].marks ensures m in t[Resolve(t, r).node].marks {
      if m != External {
        assert m in x[r].marks;
      }
    }
  }
}
