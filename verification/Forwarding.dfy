/** How resolution behaves when the table of nodes changes. */
module Forwarding {
  import opened PointsTo

  ghost predicate SameForwarding(s: seq<Node>, t: seq<Node>) {
    && |s| <= |t|
    && (forall n: nat | n < |s| :: t[n].fwd == s[n].fwd)
    && (forall n: nat | |s| <= n < |t| :: t[n].fwd.None?)
  }

  lemma RankFalls(ns: seq<Node>, n: nat)
    requires Acyclic(ns) && n < |ns| && ns[n].fwd.Some?
    ensures Rank(ns)[Resolve(ns, n).node] < Rank(ns)[n]
    decreases Rank(ns)[n]
  {
    var m := ns[n].fwd.value.node;
    if ns[m].fwd.Some? {
      RankFalls(ns, m);
    }
  }

  lemma ValidAcyclic(ns: seq<Node>)
    requires Valid(ns)
    ensures Acyclic(ns)
  {
  }

  lemma SameForwardingAcyclic(s: seq<Node>, t: seq<Node>)
    requires Acyclic(s) && SameForwarding(s, t)
    ensures Acyclic(t)
  {
    var rank := Rank(s) + seq(|t| - |s|, _ => 0);
    assert IsRank(t, rank);
  }

  lemma {:induction false} SameForwardingResolves(s: seq<Node>, t: seq<Node>, n: nat)
    requires Acyclic(s) && SameForwarding(s, t) && n < |s|
    requires Acyclic(t)
    ensures Resolve(t, n) == Resolve(s, n)
    decreases Rank(s)[n]
  {
    if s[n].fwd.Some? {
      SameForwardingResolves(s, t, s[n].fwd.value.node);
    }
  }

  /** Changes that leave forwarding alone leave every resolution alone. */
  lemma SameForwardingKeeps(s: seq<Node>, t: seq<Node>)
    requires Acyclic(s) && SameForwarding(s, t)
    ensures Acyclic(t)
    ensures forall n: nat :: n < |s| ==> Resolve(t, n) == Resolve(s, n)
  {
    SameForwardingAcyclic(s, t);
    forall n: nat | n < |s| ensures Resolve(t, n) == Resolve(s, n) {
      SameForwardingResolves(s, t, n);
    }
  }

  /** `t` is `s` with representative `a` forwarding to offset `d` of representative `b`. */
  ghost predicate Retires(s: seq<Node>, t: seq<Node>, a: nat, b: nat, d: nat) {
    && |t| == |s|
    && IsRep(s, a) && IsRep(s, b) && a != b
    && t[a].fwd == Some(Cell(b, d))
    && forall n: nat | n < |s| && n != a :: t[n].fwd == s[n].fwd
  }

  lemma RetireAcyclic(s: seq<Node>, t: seq<Node>, a: nat, b: nat, d: nat)
    requires Acyclic(s) && Retires(s, t, a, b, d)
    ensures Acyclic(t)
  {
    var was := Rank(s);
    var rank := seq(|s|, n requires 0 <= n < |s| =>
                      if Resolve(s, n).node == a then was[n] + was[b] + 1 else was[n]);
    assert IsRank(t, rank);
  }

  lemma {:induction false} RetireResolves(s: seq<Node>, t: seq<Node>, a: nat, b: nat, d: nat, n: nat)
    requires Acyclic(s) && Retires(s, t, a, b, d) && n < |s|
    requires Acyclic(t)
    ensures Resolve(t, n) == if Resolve(s, n).node == a then Cell(b, Resolve(s, n).off + d) else Resolve(s, n)
    decreases Rank(s)[n]
  {
    if s[n].fwd.Some? {
      RetireResolves(s, t, a, b, d, s[n].fwd.value.node);
    }
  }

  /** Retiring `a` moves exactly the class of `a`, by `d`, into the class of `b`. */
  lemma RetireMoves(s: seq<Node>, t: seq<Node>, a: nat, b: nat, d: nat)
    requires Acyclic(s) && Retires(s, t, a, b, d)
    ensures Acyclic(t)
    ensures forall n: nat :: n < |s| ==>
      Resolve(t, n) == if Resolve(s, n).node == a then Cell(b, Resolve(s, n).off + d) else Resolve(s, n)
  {
    RetireAcyclic(s, t, a, b, d);
    forall n: nat | n < |s|
      ensures Resolve(t, n) == if Resolve(s, n).node == a then Cell(b, Resolve(s, n).off + d) else Resolve(s, n)
    {
      RetireResolves(s, t, a, b, d, n);
    }
  }

  /** `t` is `s` with some forwarding cells shortened. */
  ghost predicate Compressed(s: seq<Node>, t: seq<Node>) {
    && Acyclic(s) && Acyclic(t)
    && |t| == |s|
    && (forall n: nat | n < |s| :: t[n] == s[n].(fwd := t[n].fwd))
    && (forall n: nat | n < |s| :: t[n].fwd.None? <==> s[n].fwd.None?)
    && (forall n: nat | n < |s| :: Resolve(t, n) == Resolve(s, n))
  }

  lemma {:induction false} ShortcutResolves(s: seq<Node>, t: seq<Node>, a: nat, n: nat)
    requires Acyclic(s) && a < |s| && s[a].fwd.Some? && n < |s|
    requires t == s[a := s[a].(fwd := Some(Resolve(s, a)))]
    requires Acyclic(t)
    ensures Resolve(t, n) == Resolve(s, n)
    decreases Rank(s)[n]
  {
    if s[n].fwd.Some? && n != a {
      ShortcutResolves(s, t, a, s[n].fwd.value.node);
    }
  }

  /** Forwarding `a` straight to its representative resolves as before. */
  lemma ShortcutCompresses(s: seq<Node>, t: seq<Node>, a: nat)
    requires Acyclic(s) && a < |s| && s[a].fwd.Some?
    requires t == s[a := s[a].(fwd := Some(Resolve(s, a)))]
    ensures Compressed(s, t)
  {
    RankFalls(s, a);
    assert IsRank(t, Rank(s));
    forall n: nat | n < |s| ensures Resolve(t, n) == Resolve(s, n) {
      ShortcutResolves(s, t, a, n);
    }
  }

  lemma CompressedTrans(s: seq<Node>, t: seq<Node>, u: seq<Node>)
    requires Compressed(s, t) && Compressed(t, u)
    ensures Compressed(s, u)
  {
  }

  // ---------------------------------------------------------------- potential

  /** Every merge or collapse lowers this: a representative weighs 1 when
      collapsed and 2 when not, a forwarding node weighs nothing. */
  function Weight(nd: Node): nat {
    if nd.fwd.Some? then 0 else if nd.isCollapsed then 1 else 2
  }

  function Potential(ns: seq<Node>): nat {
    if ns == [] then 0 else Potential(ns[..|ns| - 1]) + Weight(ns[|ns| - 1])
  }

  lemma {:induction false} PotentialUpdate(ns: seq<Node>, n: nat, nd: Node)
    requires n < |ns|
    ensures Potential(ns[n := nd]) == Potential(ns) - Weight(ns[n]) + Weight(nd)
  {
    var k := |ns| - 1;
    if n == k {
      assert ns[n := nd][..k] == ns[..k];
    } else {
      assert ns[n := nd][..k] == ns[..k][n := nd];
      PotentialUpdate(ns[..k], n, nd);
    }
  }

  lemma PotentialAppend(ns: seq<Node>, nd: Node)
    ensures Potential(ns + [nd]) == Potential(ns) + Weight(nd)
  {
    assert (ns + [nd])[..|ns|] == ns;
  }

  lemma {:induction false} PotentialSame(s: seq<Node>, t: seq<Node>)
    requires |s| == |t| && forall n: nat | n < |s| :: Weight(s[n]) == Weight(t[n])
    ensures Potential(s) == Potential(t)
  {
    if s != [] {
      PotentialSame(s[..|s| - 1], t[..|s| - 1]);
    }
  }
}
