/** The elementary changes the unification engine makes, and what each keeps. */
module Changes {
  import opened PointsTo
  import opened Forwarding
  import opened Coarsening

  // ---------------------------------------------------------------- in-place update

  ghost predicate Fits(ns: seq<Node>, nd: Node) {
    && nd.fwd.None?
    && SoundNode(nd)
    && forall f | f in nd.links :: nd.links[f].node < |ns|
  }

  lemma InPlaceResolves(s: seq<Node>, n: nat, nd: Node)
    requires Acyclic(s) && IsRep(s, n) && nd.fwd.None?
    ensures var t := s[n := nd]; Acyclic(t) && forall k: nat :: k < |s| ==> Resolve(t, k) == Resolve(s, k)
  {
    SameForwardingKeeps(s, s[n := nd]);
  }

  /** Rewriting a representative keeps everything but its own contents. */
  lemma InPlace(s: seq<Node>, n: nat, nd: Node)
    requires Valid(s) && IsRep(s, n) && Fits(s, nd) && Absorbs(s[n], nd)
    ensures Valid(s[n := nd]) && Coarsens(s, s[n := nd], {n})
    ensures forall k: nat :: k < |s| ==> Resolve(s[n := nd], k) == Resolve(s, k)
  {
    var t := s[n := nd];
    InPlaceResolves(s, n, nd);
    forall r: nat | IsRep(s, r) && r != n ensures Carries(s[r], t, r) {
      CarriesSelf(s, r);
      CarriesUnchanged(s, t, r);
    }
    assert Follows(s, t) by { hide Carries; }
  }

  lemma CarriesUnchanged(s: seq<Node>, t: seq<Node>, r: nat)
    requires Acyclic(t) && Valid(s) && IsRep(s, r) && r < |t| && |s| <= |t| && t[r] == s[r]
    ensures Carries(s[r], t, r)
  {
    assert SoundNode(s[r]);
    forall f | f in s[r].links ensures HasEdge(t, r, f, s[r].links[f]) {
      assert s[r].links[f].node < |s|;
    }
    forall a | a in s[r].types ensures HasAccess(t, r, a) {
    }
  }

  /** ... and its own contents too when they are still found there. */
  lemma InPlaceCarries(s: seq<Node>, n: nat, nd: Node)
    requires Valid(s) && IsRep(s, n) && Fits(s, nd) && Absorbs(s[n], nd)
    requires Valid(s[n := nd]) && Carries(s[n], s[n := nd], n)
    ensures Coarsens(s, s[n := nd], {})
  {
    InPlace(s, n, nd);
    hide Carries;
  }

  // ---------------------------------------------------------------- allocation

  lemma Allocated(s: seq<Node>, nd: Node)
    requires Valid(s) && nd.fwd.None? && nd.links == map[] && SoundNode(nd)
    ensures Valid(s + [nd]) && Coarsens(s, s + [nd], {})
    ensures Resolve(s + [nd], |s|) == Cell(|s|, 0)
    ensures forall k: nat :: k < |s| ==> Resolve(s + [nd], k) == Resolve(s, k)
  {
    var t := s + [nd];
    SameForwardingKeeps(s, t);
    forall r: nat | IsRep(s, r) ensures Carries(s[r], t, r) {
      CarriesUnchanged(s, t, r);
    }
    assert Follows(s, t) by { hide Carries; }
  }

  // ---------------------------------------------------------------- retirement

  /** Forwarding representative `a` into `b` leaves only the contents of `a` in transit. */
  lemma Retired(s: seq<Node>, a: nat, b: nat, d: nat)
    requires Valid(s) && IsRep(s, a) && IsRep(s, b) && a != b && Absorbs(s[a], s[b])
    ensures var t := s[a := s[a].(fwd := Some(Cell(b, d)))];
      && Valid(t) && Coarsens(s, t, {a})
      && Resolve(t, a) == Cell(b, d)
      && Potential(t) + Weight(s[a]) == Potential(s)
  {
    hide Follows, Carries, Absorbs;
    var t := s[a := s[a].(fwd := Some(Cell(b, d)))];
    RetireMoves(s, t, a, b, d);
    PotentialUpdate(s, a, t[a]);
    RetiredFollows(s, t, a, b, d);
    forall r: nat | IsRep(s, r) && r != a ensures Carries(s[r], t, r) {
      CarriesUnchanged(s, t, r);
    }
  }

  lemma RetiredFollows(s: seq<Node>, t: seq<Node>, a: nat, b: nat, d: nat)
    requires Valid(s) && Retires(s, t, a, b, d) && Absorbs(s[a], s[b])
    requires t == s[a := s[a].(fwd := Some(Cell(b, d)))]
    ensures Follows(s, t)
  {
    RetireMoves(s, t, a, b, d);
    hide Absorbs;
    forall r: nat | IsRep(s, r) ensures Absorbs(s[r], t[Resolve(t, r).node]) {
      if r != a {
        assert Absorbs(s[r], s[r]) by { AbsorbsSelf(s[r]); }
      }
    }
  }

  lemma AbsorbsSelf(nd: Node)
    requires nd.isArray ==> nd.size > 0
    ensures Absorbs(nd, nd)
  {
  }

  /** A graph that only gained nodes is a later state. */
  lemma AppendedCoarsens(s: seq<Node>, u: seq<Node>)
    requires Valid(s) && Valid(u) && |s| <= |u| && forall m: nat :: m < |s| ==> u[m] == s[m]
    ensures Coarsens(s, u, {})
  {
    assert Acyclic(s) && Acyclic(u);
    forall n: nat | n < |s| ensures Resolve(u, n) == Resolve(s, n) {
      PrefixResolves(s, u, n);
    }
    forall r: nat | IsRep(s, r) ensures Carries(s[r], u, r) && Absorbs(s[r], u[r]) {
      assert SoundNode(s[r]);
      CarriesUnchanged(s, u, r);
      AbsorbsSelf(s[r]);
    }
    hide Valid, Carries, Absorbs;
  }

  lemma {:induction false} PrefixResolves(s: seq<Node>, u: seq<Node>, n: nat)
    requires Acyclic(s) && Acyclic(u) && |s| <= |u| && n < |s|
    requires forall m: nat :: m < |s| ==> u[m] == s[m]
    ensures Resolve(u, n) == Resolve(s, n)
    decreases Rank(s)[n]
  {
    if s[n].fwd.Some? {
      PrefixResolves(s, u, s[n].fwd.value.node);
    }
  }

  // ---------------------------------------------------------------- forwarding nodes

  /** Same representatives, same resolutions: only forwarding nodes differ. */
  ghost predicate Alike(s: seq<Node>, t: seq<Node>) {
    && |s| == |t|
    && Acyclic(s) && Acyclic(t)
    && (forall n: nat | n < |s| :: Resolve(t, n) == Resolve(s, n))
    && (forall n: nat | n < |s| && s[n].fwd.None? :: t[n] == s[n])
    && (forall n: nat | n < |s| && s[n].fwd.Some? :: t[n].fwd.Some?)
  }

  lemma AlikeRefl(s: seq<Node>)
    requires Acyclic(s)
    ensures Alike(s, s)
  {
  }

  lemma AlikeTrans(s: seq<Node>, t: seq<Node>, u: seq<Node>)
    requires Alike(s, t) && Alike(t, u)
    ensures Alike(s, u)
  {
  }

  /** Rewriting a forwarding node without moving where it forwards. */
  lemma ScribbledAlike(s: seq<Node>, n: nat, nd: Node)
    requires Acyclic(s) && n < |s| && s[n].fwd.Some? && nd.fwd == s[n].fwd
    ensures Alike(s, s[n := nd])
  {
    SameForwardingKeeps(s, s[n := nd]);
  }

  lemma AlikeEdge(s: seq<Node>, t: seq<Node>, n: nat, f: Field, c: Cell)
    requires Alike(s, t) && n < |s| && HasEdge(s, n, f, c)
    ensures HasEdge(t, n, f, c)
  {
    hide Adjust, Canon, Lookup;
    var m := Resolve(s, n).node;
    assert t[m] == s[m] && Resolve(t, n) == Resolve(s, n);
    var x := Lookup(s[m].links, Field(Adjust(s[m], Resolve(s, n).off + f.off), f.ty));
    AlikeCanon(s, t, x.value);
    AlikeCanon(s, t, c);
    hide Alike;
  }

  lemma AlikeCanon(s: seq<Node>, t: seq<Node>, c: Cell)
    requires Alike(s, t)
    ensures c.node < |s| ==> Canon(t, c) == Canon(s, c)
  {
  }

  lemma AlikeCarries(s: seq<Node>, t: seq<Node>, nd: Node, n: nat)
    requires Alike(s, t) && n < |s| && Carries(nd, s, n)
    ensures Carries(nd, t, n)
  {
    forall f | f in nd.links ensures HasEdge(t, n, f, nd.links[f]) {
      AlikeEdge(s, t, n, f, nd.links[f]);
    }
    hide HasEdge;
    assert t[Resolve(s, n).node] == s[Resolve(s, n).node];
    forall a | a in nd.types ensures HasAccess(t, n, a) {
      assert HasAccess(s, n, a);
    }
  }

  lemma AlikeCoarsens(s: seq<Node>, t: seq<Node>, u: seq<Node>, skip: set<nat>)
    requires Coarsens(s, t, skip) && Alike(t, u) && PendingKept(s, u)
    ensures Coarsens(s, u, skip)
  {
    forall r: nat | IsRep(s, r) && r !in skip ensures Carries(s[r], u, r) {
      AlikeCarries(t, u, s[r], r);
    }
    assert Follows(s, u) by { hide Carries; }
  }

  lemma AlikeValid(s: seq<Node>, t: seq<Node>)
    requires Valid(s) && Alike(s, t) && Closed(t)
    ensures Valid(t) && Potential(t) == Potential(s)
  {
    PotentialSame(s, t);
  }

  /** Path compression changes nothing a client can see. */
  lemma CompressedCoarsens(s: seq<Node>, t: seq<Node>)
    requires Valid(s) && Compressed(s, t)
    ensures Valid(t) && Coarsens(s, t, {}) && Potential(t) == Potential(s)
    ensures forall c: Cell :: c.node < |s| ==> Canon(t, c) == Canon(s, c)
  {
    CompressedAlike(s, t);
    CoarsensRefl(s);
    AlikeValid(s, t);
    AlikeCoarsens(s, s, t, {}) by { hide Coarsens; }
    forall c: Cell | c.node < |s| ensures Canon(t, c) == Canon(s, c) {
      AlikeCanon(s, t, c);
    }
  }

  lemma CompressedAlike(s: seq<Node>, t: seq<Node>)
    requires Valid(s) && Compressed(s, t)
    ensures Alike(s, t) && Closed(t) && PendingKept(s, t)
  {
    forall n: nat | n < |s|
      ensures s[n].fwd.None? ==> t[n] == s[n]
      ensures t[n] == s[n].(fwd := t[n].fwd, size := t[n].size, types := t[n].types)
    {
      assert t[n] == s[n].(fwd := t[n].fwd);
    }
  }

  /** The size and the accesses of a forwarding node are never read. */
  lemma Scribbled(s: seq<Node>, n: nat, nd: Node)
    requires Valid(s) && n < |s| && s[n].fwd.Some?
    requires nd == s[n].(size := nd.size, types := nd.types)
    ensures Valid(s[n := nd]) && Coarsens(s, s[n := nd], {}) && Potential(s[n := nd]) == Potential(s)
    ensures forall k: nat :: k < |s| ==> Resolve(s[n := nd], k) == Resolve(s, k)
  {
    var t := s[n := nd];
    SameForwardingKeeps(s, t);
    CoarsensRefl(s);
    AlikeValid(s, t);
    AlikeCoarsens(s, s, t, {});
  }

  /** Once its links have been handed over, a retired node can be emptied. */
  lemma Emptied(s: seq<Node>, t: seq<Node>, a: nat, nd: Node)
    requires Valid(t) && Coarsens(s, t, {}) && IsRep(s, a) && a < |t| && t[a].fwd.Some?
    requires nd.fwd == t[a].fwd && nd.links == map[]
    ensures Valid(t[a := nd]) && Coarsens(s, t[a := nd], {}) && Potential(t[a := nd]) == Potential(t)
    ensures forall k: nat :: k < |t| ==> Resolve(t[a := nd], k) == Resolve(t, k)
  {
    var u := t[a := nd];
    SameForwardingKeeps(t, u);
    AlikeValid(t, u);
    AlikeCoarsens(s, t, u, {});
  }

  /** The contents in transit have arrived. */
  lemma Delivered(s: seq<Node>, t: seq<Node>, a: nat)
    requires Coarsens(s, t, {a}) && IsRep(s, a) && Carries(s[a], t, a)
    ensures Coarsens(s, t, {})
  {
    hide Carries, Follows;
  }
}
