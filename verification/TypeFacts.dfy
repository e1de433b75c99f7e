/** Facts about recording accesses. */
module TypeFacts {
  import opened Layout
  import opened PointsTo
  import opened Forwarding
  import opened Coarsening
  import opened Changes
  import opened Candidates
  import opened Steps
  import opened Flattening
  import opened EngineFacts
  import opened LinkFacts

  // ---------------------------------------------------------------- stretching

  /** A larger size, or more accesses, on a node that is not collapsed. */
  ghost predicate Enlarged(x: Node, y: Node) {
    && y == x.(size := y.size, types := y.types)
    && !x.isCollapsed && (x.isArray ==> y.size == x.size)
    && x.size <= y.size && x.types <= y.types
    && forall a | a in y.types - x.types ::
         Primitive(a.ty) && Adjust(y, a.off) == a.off && (a.ty.Prim? ==> a.off + a.ty.bytes <= y.size)
  }

  lemma EnlargedSound(x: Node, y: Node)
    requires SoundNode(x) && Enlarged(x, y)
    ensures SoundNode(y)
  {
    forall f | f in y.links ensures Typed(y, f.off) && Adjust(y, f.off) == f.off {
      assert Typed(x, f.off);
    }
    forall a | a in y.types
      ensures Primitive(a.ty) && Adjust(y, a.off) == a.off && (a.ty.Prim? ==> a.off + a.ty.bytes <= y.size)
    {
      if a !in x.types {
        assert a in y.types - x.types;
      }
    }
  }

  lemma EnlargedLater(s: State, t: State, n: nat, nd: Node)
    requires Valid(s.nodes) && IsRep(s.nodes, n) && Enlarged(s.nodes[n], nd)
    requires t == s.(nodes := s.nodes[n := nd])
    ensures Later(s, t, {}) && KeepsMap(s, t) && Valid(t.nodes)
  {
    SoundRep(s.nodes, n);
    EnlargedSound(s.nodes[n], nd);
    ClosedNode(s.nodes, n);
    hide Later, Mapped, Valid, SoundNode;
    GrowsLater(s, t, n, nd);
    LaterBasics(s, t, {});
    if Mapped(s) {
      MappedNode(s, n);
      assert NodeRespects(nd, s.candidate, n);
    }
  }

  lemma MappedNode(s: State, n: nat)
    requires Mapped(s) && n < |s.nodes|
    ensures NodeRespects(s.nodes[n], s.candidate, n)
  {
    hide NodeRespects;
  }

  /** A new size for a node that is no array. */
  lemma Widened(s: State, t: State, n: nat, v: nat)
    requires Valid(s.nodes) && n < |s.nodes| && s.nodes[n].size < v
    requires !s.nodes[n].isCollapsed && !s.nodes[n].isArray
    requires t == s.(nodes := s.nodes[n := s.nodes[n].(size := v)])
    ensures Later(s, t, {}) && KeepsMap(s, t) && Valid(t.nodes)
  {
    hide Later, Mapped;
    if s.nodes[n].fwd.None? {
      EnlargedLater(s, t, n, t.nodes[n]);
    } else {
      ScribbledLater(s, t, n, t.nodes[n]);
      LaterBasics(s, t, {});
    }
  }

  /** One more primitive access on a node. */
  lemma AccessAdded(s: State, t: State, n: nat, a: Access)
    requires Valid(s.nodes) && n < |s.nodes| && !s.nodes[n].isCollapsed && Primitive(a.ty)
    requires s.nodes[n].fwd.None? ==> Inside(s.nodes[n], a) && Adjust(s.nodes[n], a.off) == a.off
    requires t == s.(nodes := s.nodes[n := s.nodes[n].(types := s.nodes[n].types + {a})])
    ensures Later(s, t, {}) && KeepsMap(s, t) && Valid(t.nodes)
  {
    hide Later, Mapped;
    if s.nodes[n].fwd.None? {
      EnlargedLater(s, t, n, t.nodes[n]);
    } else {
      ScribbledLater(s, t, n, t.nodes[n]);
      LaterBasics(s, t, {});
    }
  }

  // ---------------------------------------------------------------- expanding one access

  /** Node `n` has been stretched for `x` and lacks only the accesses in `work`. */
  ghost predicate Filling(nd0: Node, nd: Node, x: Access, work: Stack) {
    && Fitting(nd0, x)
    && nd == Stretched(nd0, x).(types := nd.types)
    && (forall a | a in work :: Inside(nd, a))
    && nd.types + Folded(nd0, StackLeaves(work)) == nd0.types + Folded(nd0, Leaves(x))
  }

  lemma FoldedUnion(nd: Node, a: set<Access>, b: set<Access>)
    ensures Folded(nd, a + b) == Folded(nd, a) + Folded(nd, b)
  {
  }

  lemma FoldedLike(x: Node, y: Node, a: set<Access>)
    requires y.isCollapsed == x.isCollapsed && y.isArray == x.isArray && (x.isArray ==> y.size == x.size)
    ensures Folded(y, a) == Folded(x, a)
  {
    assert forall k :: Adjust(y, k) == Adjust(x, k);
  }

  lemma FillingStarts(nd0: Node, x: Access)
    requires !nd0.isCollapsed && Fitting(nd0, x)
    ensures Filling(nd0, Stretched(nd0, x), x, [x])
  {
    assert StackLeaves([x]) == Leaves(x) by {
      assert [x][..0] == [];
      assert StackLeaves([]) == {};
      PoppedLeaves([x]);
    }
  }

  /** Expanding the access on top. */
  lemma FillingExpands(nd0: Node, nd: Node, x: Access, work: Stack)
    requires Filling(nd0, nd, x, work) && work != [] && !Primitive(work[|work| - 1].ty)
    requires !nd0.isCollapsed && (nd0.isArray ==> nd0.size > 0) && forall a | a in work :: WellLaid(a.ty)
    ensures var k := |work| - 1; var rest := work[..k] + Pushed(work[k]);
      Filling(nd0, nd, x, rest) && forall a | a in rest :: WellLaid(a.ty)
  {
    hide StackLeaves, Leaves, Folded, WellLaid, Fitting, Inside, Stretched, Pushed;
    var k := |work| - 1;
    var top := work[k];
    PoppedLeaves(work);
    PushedLeaves(work[..k], top);
    assert top in work;
    FillingArray(nd0, nd, x, work);
    PushedFit(nd, top);
    assert forall a | a in work[..k] :: a in work;
  }

  lemma FillingArray(nd0: Node, nd: Node, x: Access, work: Stack)
    requires Filling(nd0, nd, x, work) && !nd0.isCollapsed && (nd0.isArray ==> nd0.size > 0)
    ensures !nd.isCollapsed && (nd.isArray ==> nd.size > 0)
  {
  }

  lemma PushedFit(nd: Node, top: Access)
    requires Inside(nd, top) && WellLaid(top.ty) && !Primitive(top.ty) && !nd.isCollapsed
    requires (nd.isArray ==> nd.size > 0)
    ensures forall a | a in Pushed(top) :: Inside(nd, a) && WellLaid(a.ty)
  {
    forall a | a in Pushed(top) ensures Inside(nd, a) && WellLaid(a.ty) {
      var i: nat :| i < |Parts(top.ty)| && a == Pushed(top)[i];
      PartFits(nd, top, |Parts(top.ty)| - 1 - i);
    }
  }

  /** Recording the primitive access on top. */
  lemma FillingRecords(nd0: Node, nd: Node, x: Access, work: Stack)
    requires Filling(nd0, nd, x, work) && work != [] && Primitive(work[|work| - 1].ty)
    requires !nd0.isCollapsed
    ensures var k := |work| - 1; var top := work[k];
      Filling(nd0, nd.(types := nd.types + {Access(Adjust(nd, top.off), top.ty)}), x, work[..k])
  {
    var k := |work| - 1;
    var top := work[k];
    PoppedLeaves(work);
    FoldedUnion(nd0, StackLeaves(work[..k]), {top});
    assert Adjust(nd, top.off) == Adjust(nd0, top.off);
    assert Folded(nd0, {top}) == {Access(Adjust(nd0, top.off), top.ty)};
    forall a | a in work[..k]
      ensures Inside(nd.(types := nd.types + {Access(Adjust(nd, top.off), top.ty)}), a)
    {
      assert a in work && Inside(nd, a);
    }
    hide StackLeaves, Leaves, Folded, Inside;
    assert nd.types + {Access(Adjust(nd, top.off), top.ty)} + Folded(nd0, StackLeaves(work[..k]))
        == nd.types + Folded(nd0, StackLeaves(work));
  }

  lemma FillingEnds(nd0: Node, nd: Node, x: Access)
    requires Filling(nd0, nd, x, []) && !nd0.isCollapsed
    ensures nd == Recorded(nd0, x)
  {
    assert StackLeaves([]) == {};
    assert Folded(nd0, {}) == {};
    FoldedLike(nd0, Stretched(nd0, x), Leaves(x));
  }

  /** Inside a stretched node, nothing more is stretched. */
  lemma InsideFits(nd: Node, a: Access)
    requires Inside(nd, a) && !nd.isCollapsed
    ensures Fitting(nd, a) && Stretched(nd, a) == nd
  {
  }

  lemma StretchedLike(nd: Node, a: Access)
    ensures Stretched(nd, a).fwd == nd.fwd
  {
  }

  lemma FillingTop(nd0: Node, nd: Node, x: Access, work: Stack)
    requires Filling(nd0, nd, x, work) && work != []
    ensures Inside(nd, work[|work| - 1])
  {
  }

  lemma OverflowStays(s: State, t: State, u: State, n: nat)
    requires Overflowed(s, t, n) && !IsRep(t.nodes, n) && Later(t, u, {}) && Alike(t.nodes, u.nodes)
    ensures Overflowed(s, u, n)
  {
    CollapsedLater(t, u, n, {});
    LaterBasics(t, u, {});
    assert PendingKept(t.nodes, u.nodes);
    hide Later;
    assert u.nodes[n] == t.nodes[n].(fwd := u.nodes[n].fwd, size := u.nodes[n].size, types := u.nodes[n].types);
  }

  /** Part-way through recording `x` on `n`: filling it, or scribbling on a retired node. */
  ghost predicate Expanding(s: State, t: State, n: nat, x: Access, work: Stack) {
    && n < |s.nodes| && n < |t.nodes|
    && if IsRep(t.nodes, n)
       then t == s.(nodes := s.nodes[n := t.nodes[n]]) && IsRep(s.nodes, n) && !s.nodes[n].isCollapsed
            && Filling(s.nodes[n], t.nodes[n], x, work)
       else Cleared(t.nodes[n]) &&
            if IsRep(s.nodes, n) then Overflowed(s, t, n) && !Fitting(s.nodes[n], x) && !s.nodes[n].isCollapsed
            else Alike(s.nodes, t.nodes)
  }

  lemma Grown(s: State, t: State, u: State, n: nat, x: Access, work: Stack, started: bool)
    requires Valid(s.nodes) && n < |s.nodes| && n < |t.nodes| && n < |u.nodes| && work != []
    requires if started then Expanding(s, t, n, x, work) else work == [x] && t == s
    requires IsRep(t.nodes, n) || Cleared(t.nodes[n])
    requires !t.nodes[n].isCollapsed && !u.nodes[n].isCollapsed
    requires Later(t, u, {}) && (t.nodes[n].fwd.Some? ==> Alike(t.nodes, u.nodes))
    requires IsRep(u.nodes, n) || Cleared(u.nodes[n])
    requires var a := work[|work| - 1];
      && (IsRep(t.nodes, n) && Fitting(t.nodes[n], a) ==> u == t.(nodes := t.nodes[n := Stretched(t.nodes[n], a)]))
      && (IsRep(t.nodes, n) && !Fitting(t.nodes[n], a) ==> Overflowed(t, u, n))
    ensures Expanding(s, u, n, x, work)
  {
    hide Later, Filling, Overflowed, Valid, Alike, Stretched, Fitting, Weight, Coarsens;
    var a := work[|work| - 1];
    if IsRep(t.nodes, n) {
      StretchedLike(t.nodes[n], a);
      if started {
        FillingTop(s.nodes[n], t.nodes[n], x, work);
        InsideFits(t.nodes[n], a);
        assert u.nodes == t.nodes;
      } else if Fitting(t.nodes[n], x) {
        FillingStarts(s.nodes[n], x);
      } else {
        OverflowOutOfPlace(t, u, n);
      }
    } else {
      StillRetired(t, u, n);
      if IsRep(s.nodes, n) {
        OverflowStays(s, t, u, n);
      } else if started {
        AlikeTrans(s.nodes, t.nodes, u.nodes);
      }
    }
  }

  lemma ExpandingInUse(s: State, t: State, n: nat, x: Access, work: Stack)
    requires Expanding(s, t, n, x, work)
    ensures !t.nodes[n].isCollapsed && (IsRep(t.nodes, n) || Cleared(t.nodes[n]))
  {
  }

  /** If an access overflows its node, its first stretch does. */
  lemma OverflowsAtOnce(s: State, t: State, u: State, n: nat, x: Access, work: Stack, started: bool)
    requires n < |s.nodes| && n < |t.nodes| && n < |u.nodes| && work != []
    requires if started then Expanding(s, t, n, x, work) else work == [x] && t == s
    requires IsRep(t.nodes, n) || Cleared(t.nodes[n])
    requires !t.nodes[n].isCollapsed && u.nodes[n].isCollapsed
    requires IsRep(u.nodes, n) || Cleared(u.nodes[n])
    requires Later(t, u, {})
    requires var a := work[|work| - 1];
      && (IsRep(t.nodes, n) && Fitting(t.nodes[n], a) ==> u == t.(nodes := t.nodes[n := Stretched(t.nodes[n], a)]))
      && (IsRep(t.nodes, n) && !Fitting(t.nodes[n], a) ==> Overflowed(t, u, n))
    ensures t == s && IsRep(s.nodes, n) && !Fitting(s.nodes[n], x) && Overflowed(s, u, n) && IsRep(u.nodes, n)
  {
    if !IsRep(t.nodes, n) {
      StillRetired(t, u, n);
    } else if started {
      InsideFits(t.nodes[n], work[|work| - 1]);
    }
    hide Later;
  }

  lemma ArrayMustCollapse(s: State, t: State, n: nat)
    requires n < |s.nodes| && s.nodes[n].isArray && t.candidate == s.candidate
    ensures Mapped(s) ==> MustCollapse(t.candidate, n)
  {
    if Mapped(s) {
      assert NodeRespects(s.nodes[n], s.candidate, n);
    }
  }

  /** Resolving a retired node leaves its own record alone. */
  lemma FoundRetired(s: State, t: State, n: nat)
    requires Later(s, t, {}) && n < |s.nodes| && s.nodes[n].fwd.Some?
    ensures n < |t.nodes| && t.nodes[n].fwd.Some? && t.nodes[n].isArray == s.nodes[n].isArray
    ensures t.nodes[n].isCollapsed == s.nodes[n].isCollapsed
  {
    LaterBasics(s, t, {});
    hide Later;
    assert t.nodes[n] == s.nodes[n].(fwd := t.nodes[n].fwd, size := t.nodes[n].size, types := t.nodes[n].types);
  }

  lemma OverflowOutOfPlace(t: State, u: State, n: nat)
    requires Overflowed(t, u, n) && !u.nodes[n].isCollapsed
    ensures !IsRep(u.nodes, n)
  {
  }

  lemma StillRetired(t: State, u: State, n: nat)
    requires Later(t, u, {}) && n < |t.nodes| && Cleared(t.nodes[n])
    ensures n < |u.nodes| && Cleared(u.nodes[n])
  {
    LaterBasics(t, u, {});
    hide Later;
    assert u.nodes[n] == t.nodes[n].(fwd := u.nodes[n].fwd, size := u.nodes[n].size, types := u.nodes[n].types);
  }

  lemma AccessRecorded(s: State, u: State, v: State, w: State, n: nat, x: Access, work: Stack, r: nat)
    requires Valid(s.nodes) && Later(s, u, {}) && KeepsMap(s, u) && Valid(u.nodes)
    requires work != [] && Expanding(s, u, n, x, work) && !u.nodes[n].isCollapsed
    requires Later(u, v, {}) && KeepsMap(u, v) && Valid(v.nodes) && v == u.(nodes := v.nodes)
    requires Compressed(u.nodes, v.nodes)
    requires IsRep(u.nodes, n) ==> v == u && r == n
    requires var a := work[|work| - 1];
      && Primitive(a.ty) && r < |v.nodes| && n < |v.nodes|
      && w == v.(nodes := v.nodes[n := v.nodes[n].(types := v.nodes[n].types +
                                                   {Access(Adjust(v.nodes[r], a.off), a.ty)})])
    ensures Later(s, w, {}) && KeepsMap(s, w) && Valid(w.nodes) && Expanding(s, w, n, x, work[..|work| - 1])
  {
    var top := work[|work| - 1];
    var a := Access(Adjust(v.nodes[r], top.off), top.ty);
    hide Later, Mapped, Valid, Filling, Overflowed, Compressed;
    LaterTrans(s, u, v, {});
    if IsRep(u.nodes, n) {
      RecordedInUse(s, v, w, n, x, work);
    } else {
      CompressedAlike(u.nodes, v.nodes);
      RecordedRetired(s, u, v, w, n, x, work, a);
    }
    LaterTrans(s, v, w, {});
    hide Expanding;
  }

  lemma RecordedInUse(s: State, v: State, w: State, n: nat, x: Access, work: Stack)
    requires Valid(s.nodes) && Valid(v.nodes) && work != [] && IsRep(v.nodes, n)
    requires Expanding(s, v, n, x, work) && !v.nodes[n].isCollapsed
    requires var top := work[|work| - 1];
      && Primitive(top.ty)
      && w == v.(nodes := v.nodes[n := v.nodes[n].(types := v.nodes[n].types +
                                                   {Access(Adjust(v.nodes[n], top.off), top.ty)})])
    ensures Later(v, w, {}) && KeepsMap(v, w) && Valid(w.nodes) && Expanding(s, w, n, x, work[..|work| - 1])
  {
    hide Later, Mapped;
    var top := work[|work| - 1];
    assert top in work;
    AdjustAdjusted(v.nodes[n], top.off);
    AccessAdded(v, w, n, Access(Adjust(v.nodes[n], top.off), top.ty));
    hide Valid;
    FillingRecords(s.nodes[n], v.nodes[n], x, work);
    hide Filling;
  }

  lemma RecordedRetired(s: State, u: State, v: State, w: State, n: nat, x: Access, work: Stack, a: Access)
    requires Valid(v.nodes) && work != [] && Expanding(s, u, n, x, work) && !IsRep(u.nodes, n)
    requires Later(u, v, {}) && Alike(u.nodes, v.nodes) && n < |v.nodes| && Primitive(a.ty)
    requires w == v.(nodes := v.nodes[n := v.nodes[n].(types := v.nodes[n].types + {a})])
    ensures Later(v, w, {}) && KeepsMap(v, w) && Valid(w.nodes) && Expanding(s, w, n, x, work[..|work| - 1])
  {
    hide Later, Mapped, Overflowed, Filling;
    StillRetired(u, v, n);
    AccessAdded(v, w, n, a);
    ScribbledAlike(v.nodes, n, w.nodes[n]);
    if IsRep(s.nodes, n) {
      OverflowStays(s, u, v, n);
      OverflowStays(s, v, w, n);
    } else {
      AlikeTrans(s.nodes, u.nodes, v.nodes);
      AlikeTrans(s.nodes, v.nodes, w.nodes);
    }
  }

  lemma PartsPushed(s: State, u: State, n: nat, x: Access, work: Stack)
    requires Valid(s.nodes) && work != [] && Expanding(s, u, n, x, work)
    requires forall a | a in work :: WellLaid(a.ty)
    requires !Primitive(work[|work| - 1].ty)
    ensures var k := |work| - 1; var rest := work[..k] + Pushed(work[k]);
      Expanding(s, u, n, x, rest) && forall a | a in rest :: WellLaid(a.ty)
  {
    var k := |work| - 1;
    if IsRep(u.nodes, n) {
      SoundRep(s.nodes, n);
      FillingExpands(s.nodes[n], u.nodes[n], x, work);
    } else {
      PushedLaid(work);
    }
    hide Filling, Overflowed;
  }

  lemma PushedLaid(work: Stack)
    requires work != [] && forall a | a in work :: WellLaid(a.ty)
    ensures forall a | a in work[..|work| - 1] + Pushed(work[|work| - 1]) :: WellLaid(a.ty)
  {
    var k := |work| - 1;
    var top := work[k];
    assert top in work;
    forall a | a in work[..k] + Pushed(top) ensures WellLaid(a.ty) {
      if a in Pushed(top) {
        var i: nat :| i < |Parts(top.ty)| && a == Pushed(top)[i];
        PartInside(top.ty, |Parts(top.ty)| - 1 - i);
        assert a == Part(top, |Parts(top.ty)| - 1 - i);
      } else {
        assert a in work[..k];
        assert a in work;
      }
    }
  }

  lemma Expanded(s: State, t: State, n: nat, x: Access)
    requires Expanding(s, t, n, x, [])
    ensures IsRep(t.nodes, n) || Cleared(t.nodes[n])
    ensures IsRep(s.nodes, n) ==> !s.nodes[n].isCollapsed
    ensures IsRep(s.nodes, n) && Fitting(s.nodes[n], x) ==>
              t == s.(nodes := s.nodes[n := Recorded(s.nodes[n], x)])
    ensures IsRep(s.nodes, n) && !Fitting(s.nodes[n], x) ==> Overflowed(s, t, n)
    ensures !IsRep(s.nodes, n) ==> Alike(s.nodes, t.nodes)
  {
    if IsRep(t.nodes, n) {
      FillingEnds(s.nodes[n], t.nodes[n], x);
    }
    hide Overflowed, Fitting, Alike;
  }

  // ---------------------------------------------------------------- joining all accesses

  /** The accesses of `done` have been joined to `b` from `d` on, or `b` has overflowed. */
  ghost predicate Joining(s: State, t: State, b: nat, d: nat, all: set<Access>, done: set<Access>) {
    && Acyclic(t.nodes) && b < |s.nodes| <= |t.nodes|
    && (forall x | x in done :: HasAccess(t.nodes, b, Access(d + x.off, x.ty)))
    && (if IsRep(t.nodes, b) && !t.nodes[b].isCollapsed
        then HoldsAll(s.nodes[b], d, done) && JoinedOnly(s, t, b, d, done)
        else Overflowed(s, t, b) && !HoldsAll(s.nodes[b], d, all))
  }

  lemma JoiningStarts(s: State, b: nat, d: nat, all: set<Access>)
    requires Valid(s.nodes) && IsRep(s.nodes, b) && !s.nodes[b].isCollapsed
    ensures Joining(s, s, b, d, all, {})
  {
    assert s.nodes == s.nodes[b := s.nodes[b]];
    assert Moved({}, d) == {};
  }

  /** One more access on a node still in use. */
  lemma JoiningRecords(s: State, t: State, u: State, b: nat, d: nat, all: set<Access>, done: set<Access>, x: Access)
    requires Joining(s, t, b, d, all, done) && IsRep(t.nodes, b) && !t.nodes[b].isCollapsed
    requires IsRep(s.nodes, b) && !s.nodes[b].isCollapsed && (s.nodes[b].isArray ==> s.nodes[b].size > 0)
    requires x in all && Primitive(x.ty)
    requires var a := Access(Adjust(t.nodes[b], d + x.off), x.ty);
      if Fitting(t.nodes[b], a) then u == t.(nodes := t.nodes[b := Recorded(t.nodes[b], a)])
      else Overflowed(t, u, b)
    requires Acyclic(u.nodes)
    ensures Joining(s, u, b, d, all, done + {x})
  {
    hide Fitting, Adjust, HasAccess, Recorded, JoinedOnly, Overflowed, Joining;
    var a := Access(Adjust(t.nodes[b], d + x.off), x.ty);
    JoiningUnfolds(s, t, b, d, all, done);
    JoiningFits(s, t, b, d, done, x);
    if Fitting(t.nodes[b], a) {
      JoinedMore(s, t, u, b, d, done, x);
      JoiningOn(s, u, b, d, all, done, x);
    } else {
      JoiningOverflows(s, t, u, b, d, all, done, x);
    }
  }

  lemma JoiningUnfolds(s: State, t: State, b: nat, d: nat, all: set<Access>, done: set<Access>)
    requires Joining(s, t, b, d, all, done) && IsRep(t.nodes, b) && !t.nodes[b].isCollapsed
    ensures b < |s.nodes| && HoldsAll(s.nodes[b], d, done) && JoinedOnly(s, t, b, d, done)
  {
  }

  lemma JoiningOn(s: State, u: State, b: nat, d: nat, all: set<Access>, done: set<Access>, x: Access)
    requires b < |s.nodes| && HoldsAll(s.nodes[b], d, done) && Fitting(s.nodes[b], Access(d + x.off, x.ty))
    requires Acyclic(u.nodes) && JoinedOnly(s, u, b, d, done + {x})
    requires forall y | y in done + {x} :: HasAccess(u.nodes, b, Access(d + y.off, y.ty))
    requires IsRep(u.nodes, b) && !u.nodes[b].isCollapsed
    ensures Joining(s, u, b, d, all, done + {x})
  {
    hide Fitting, Adjust, HasAccess;
  }

  lemma JoiningOverflows(s: State, t: State, u: State, b: nat, d: nat, all: set<Access>, done: set<Access>, x: Access)
    requires b < |s.nodes| && JoinedOnly(s, t, b, d, done) && Overflowed(t, u, b) && !t.nodes[b].isCollapsed
    requires x in all && !Fitting(s.nodes[b], Access(d + x.off, x.ty))
    ensures Joining(s, u, b, d, all, done + {x})
  {
    hide Fitting, Adjust;
    forall y | y in done + {x} ensures HasAccess(u.nodes, b, Access(d + y.off, y.ty)) {
    }
    hide HasAccess;
  }

  /** Whether one more access fits does not depend on what has been joined. */
  lemma JoiningFits(s: State, t: State, b: nat, d: nat, done: set<Access>, x: Access)
    requires b < |s.nodes| && JoinedOnly(s, t, b, d, done)
    ensures Fitting(t.nodes[b], Access(Adjust(t.nodes[b], d + x.off), x.ty)) <==>
              Fitting(s.nodes[b], Access(d + x.off, x.ty))
  {
    assert t.nodes[b] == s.nodes[b].(size := t.nodes[b].size, types := t.nodes[b].types);
    AdjustAdjusted(t.nodes[b], d + x.off);
  }

  lemma JoinedMore(s: State, t: State, u: State, b: nat, d: nat, done: set<Access>, x: Access)
    requires JoinedOnly(s, t, b, d, done) && IsRep(s.nodes, b) && !s.nodes[b].isCollapsed && Primitive(x.ty)
    requires u == t.(nodes := t.nodes[b := Recorded(t.nodes[b], Access(Adjust(t.nodes[b], d + x.off), x.ty))])
    requires Acyclic(u.nodes)
    ensures JoinedOnly(s, u, b, d, done + {x})
    ensures forall y | y in done + {x} :: HasAccess(u.nodes, b, Access(d + y.off, y.ty))
    ensures IsRep(u.nodes, b) && !u.nodes[b].isCollapsed
  {
    SnugMore(s.nodes[b], t.nodes[b], u.nodes[b], d, done, x);
    RecordedMore(t.nodes[b], u.nodes[b], d, done, x);
    hide Recorded, Stretched, Folded;
    assert Resolve(u.nodes, b) == Cell(b, 0);
    forall y | y in done + {x} ensures HasAccess(u.nodes, b, Access(d + y.off, y.ty)) {
      FoldedHas(u.nodes[b], done + {x}, d, y);
    }
  }

  lemma SnugMore(x: Node, y: Node, z: Node, d: nat, done: set<Access>, a: Access)
    requires !x.isCollapsed && Primitive(a.ty) && y == x.(size := y.size, types := y.types)
    requires Snug(x, y.size, Moved(done, d)) && z.size == Recorded(y, Access(Adjust(y, d + a.off), a.ty)).size
    ensures Snug(x, z.size, Moved(done + {a}, d))
  {
    assert Moved(done + {a}, d) == Moved(done, d) + {Access(d + a.off, a.ty)};
  }

  lemma FoldedHas(nd: Node, types: set<Access>, d: nat, y: Access)
    requires y in types
    ensures Access(Adjust(nd, d + y.off), y.ty) in Folded(nd, Moved(types, d))
  {
    assert Access(d + y.off, y.ty) in Moved(types, d);
  }

  lemma RecordedMore(x: Node, y: Node, d: nat, done: set<Access>, a: Access)
    requires !x.isCollapsed && Primitive(a.ty)
    requires y == Recorded(x, Access(Adjust(x, d + a.off), a.ty))
    ensures y == x.(size := y.size, types := y.types) && (x.isArray ==> y.size == x.size)
    ensures forall was: set<Access> :: x.types == was + Folded(x, Moved(done, d)) ==>
              y.types == was + Folded(y, Moved(done + {a}, d))
  {
    var moved := Access(d + a.off, a.ty);
    var here := Access(Adjust(x, d + a.off), a.ty);
    assert Moved(done + {a}, d) == Moved(done, d) + {moved};
    AdjustAdjusted(x, d + a.off);
    FoldedUnion(y, Moved(done, d), {moved});
    FoldedLike(x, y, Moved(done, d));
    FoldedLike(x, y, {moved});
    FoldedLike(x, Stretched(x, here), {here});
    assert Folded(x, {moved}) == {here} && Folded(x, {here}) == {here};
    assert y.types == x.types + {here};
    hide Folded, Moved, Recorded, Stretched;
  }

  /** Once overflowed, what is joined later is never lost on anyone. */
  lemma JoiningOver(s: State, t: State, u: State, b: nat, d: nat, all: set<Access>, done: set<Access>, x: Access)
    requires Joining(s, t, b, d, all, done)
    requires !(IsRep(t.nodes, b) && !t.nodes[b].isCollapsed)
    requires Later(t, u, {}) && (if IsRep(t.nodes, b) then u == t else Alike(t.nodes, u.nodes))
    ensures Joining(s, u, b, d, all, done + {x})
  {
    if !IsRep(t.nodes, b) {
      OverflowStays(s, t, u, b);
    }
    hide Later, HoldsAll;
    assert u.nodes[Resolve(u.nodes, b).node].isCollapsed;
    assert !(IsRep(u.nodes, b) && !u.nodes[b].isCollapsed);
  }

  lemma JoiningBasics(s: State, t: State, b: nat, d: nat, all: set<Access>, done: set<Access>)
    requires Joining(s, t, b, d, all, done)
    ensures b < |s.nodes| && b < |t.nodes| && (IsRep(t.nodes, b) || Cleared(t.nodes[b]))
  {
  }

  lemma JoiningStep(s: State, t: State, u: State, v: State, b: nat, d: nat, all: set<Access>, done: set<Access>,
                    x: Access, r: Cell)
    requires Joining(s, t, b, d, all, done) && Valid(s.nodes)
    requires IsRep(s.nodes, b) && !s.nodes[b].isCollapsed && x in all && Primitive(x.ty)
    requires Later(t, u, {}) && Later(u, v, {}) && Valid(v.nodes)
    requires IsRep(t.nodes, b) ==> u == t && r == Cell(b, 0)
    requires b < |u.nodes| && r.node < |u.nodes|
    requires var a := Access(Adjust(u.nodes[r.node], d + x.off), x.ty);
      && (IsRep(u.nodes, b) && u.nodes[b].isCollapsed ==> v == u)
      && (IsRep(u.nodes, b) && !u.nodes[b].isCollapsed && Fitting(u.nodes[b], a) ==>
          v == u.(nodes := u.nodes[b := Recorded(u.nodes[b], a)]))
      && (IsRep(u.nodes, b) && !u.nodes[b].isCollapsed && !Fitting(u.nodes[b], a) ==> Overflowed(u, v, b))
    requires Alike(t.nodes, u.nodes) && (u.nodes[b].fwd.Some? ==> Alike(u.nodes, v.nodes))
    ensures Joining(s, v, b, d, all, done + {x})
  {
    hide Later, Overflowed, HoldsAll, Fitting, Recorded;
    SoundRep(s.nodes, b);
    JoiningBasics(s, t, b, d, all, done);
    if IsRep(t.nodes, b) && !t.nodes[b].isCollapsed {
      JoiningRecords(s, t, v, b, d, all, done, x);
    } else {
      LaterTrans(t, u, v, {});
      if !IsRep(t.nodes, b) {
        AlikeTrans(t.nodes, u.nodes, v.nodes);
      }
      JoiningOver(s, t, v, b, d, all, done, x);
    }
    hide Joining;
  }

  lemma JoiningEnds(s: State, t: State, b: nat, d: nat, all: set<Access>)
    requires Joining(s, t, b, d, all, all)
    ensures Acyclic(t.nodes) && b < |t.nodes|
    ensures forall x | x in all :: HasAccess(t.nodes, b, Access(d + x.off, x.ty))
    ensures HoldsAll(s.nodes[b], d, all) ==> IsRep(t.nodes, b) && !t.nodes[b].isCollapsed && JoinedOnly(s, t, b, d, all)
    ensures !HoldsAll(s.nodes[b], d, all) ==> Overflowed(s, t, b)
  {
  }
}
