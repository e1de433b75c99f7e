/** Copying the part of one graph reachable from a node into another graph. */
module Cloning {
  import opened PointsTo
  import opened Forwarding
  import opened Flattening
  import opened Strides
  import opened EngineFacts
  import opened Engine

  datatype Level = NoAllocas | Full

  /** The allocation sites that are not stack allocations. */
  function OffStack(sites: set<Site>): set<Site> {
    set a | a in sites && !a.stack
  }

  /** A copy of `nd` without its links and allocation sites. */
  function Copied(nd: Node): Node {
    BLANK.(size := nd.size, isArray := nd.isArray, isCollapsed := nd.isCollapsed, isForeign := true,
           marks := nd.marks, types := if nd.isCollapsed then {} else nd.types)
  }

  /** `m` has the kind, the size, the flags and the accesses of `nd`, and is foreign. */
  ghost predicate Resembles(nd: Node, m: Node) {
    && m.fwd.None? && m.isForeign
    && m.size == nd.size && m.isArray == nd.isArray && m.isCollapsed == nd.isCollapsed
    && m.marks == nd.marks && m.types == (if nd.isCollapsed then {} else nd.types)
  }

  lemma BareCopy(nd: Node, m: Node)
    requires m == Copied(nd).(sites := m.sites)
    ensures Resembles(nd, m) && m.links == map[]
  {
  }

  lemma CopyResembles(nd: Node, m: Node)
    requires m == Copied(nd).(links := m.links, sites := m.sites)
    ensures Resembles(nd, m)
  {
  }

  /** Recording a sound node's own accesses on its copy only lists them again. */
  lemma CopyRecords(nd: Node, some: set<Access>, a: Access)
    requires SoundNode(nd) && !nd.isCollapsed && some <= nd.types && a in nd.types
    ensures Recorded(Copied(nd).(types := some), a) == Copied(nd).(types := some + {a})
  {
    assert Adjust(nd, a.off) == a.off;
  }

  type Cache = map<nat, (nat, Level)>

  /** Every clone is a node of `dst`. */
  ghost predicate Seated(dst: seq<Node>, cache: Cache) {
    Acyclic(dst) && forall x | x in cache :: cache[x].0 < |dst|
  }

  /** Where the clone of `x` is by now: it may have been merged since it was made. */
  function Seat(dst: seq<Node>, cache: Cache, x: nat): Cell
    requires Acyclic(dst) && x in cache && cache[x].0 < |dst|
  {
    Resolve(dst, cache[x].0)
  }

  /** What cell `c` is copied as: the node that holds the clone of its node, at the same raw offset. */
  function Redirected(src: seq<Node>, dst: seq<Node>, cache: Cache, c: Cell): Cell
    requires Acyclic(src) && c.node < |src| && Seated(dst, cache)
  {
    var r := Resolve(src, c.node);
    if r.node in cache then Cell(Seat(dst, cache, r.node).node, r.off + c.off) else c
  }

  /** The cell of the clone itself that corresponds to `c`. */
  function CloneCell(src: seq<Node>, cache: Cache, c: Cell): Cell
    requires Acyclic(src) && c.node < |src|
  {
    var r := Resolve(src, c.node);
    if r.node in cache then Cell(cache[r.node].0, r.off + c.off) else c
  }

  /** The clone of `x` begins where the node that holds it begins. */
  ghost predicate Flush(dst: seq<Node>, cache: Cache, x: nat)
    requires Seated(dst, cache) && x in cache
  {
    var y := Seat(dst, cache, x); Adjust(dst[y.node], y.off) == 0
  }

  /** `x` is cached as a node with the same shape, accesses and marks. */
  ghost predicate SameShape(src: seq<Node>, dst: seq<Node>, cache: Cache, full: set<nat>, x: nat) {
    && x in cache && IsRep(src, x) && IsRep(dst, cache[x].0)
    && var m := dst[cache[x].0];
       && m == Copied(src[x]).(links := m.links, sites := m.sites)
       && m.sites == (if x in full then src[x].sites else OffStack(src[x].sites))
       && (cache[x].1 == Full ==> x in full)
  }

  /** The links `part` of `x` have been copied, and no other. */
  ghost predicate LinksCopied(src: seq<Node>, dst: seq<Node>, cache: Cache, x: nat, part: set<Field>)
    requires Valid(src)
  {
    && Seated(dst, cache) && x in cache && IsRep(src, x) && part <= src[x].links.Keys
    && var m := dst[cache[x].0];
       && m.links.Keys == part
       && forall f | f in part ::
            && Resolve(src, src[x].links[f].node).node in cache
            && m.links[f] == Redirected(src, dst, cache, src[x].links[f])
  }

  /** No two nodes share a clone, and every clone is newer than `base`. */
  ghost predicate Separate(cache: Cache, base: nat) {
    && (forall x | x in cache :: base <= cache[x].0)
    && (forall x, y | x in cache && y in cache && cache[x].0 == cache[y].0 :: x == y)
  }

  /** The clones of the nodes in `own` are still as they were made; the others may have been merged. */
  ghost predicate CacheOk(src: seq<Node>, dst: seq<Node>, cache: Cache, own: set<nat>, full: set<nat>, base: nat)
    requires Valid(src)
  {
    && Separate(cache, base)
    && full <= cache.Keys && own <= cache.Keys
    && Seated(dst, cache) && (forall x | x in cache :: IsRep(src, x))
    && (forall x | x in own :: SameShape(src, dst, cache, full, x))
    && Untouched(dst, cache, own)
  }

  /** No clone has been merged with one of `own`. */
  ghost predicate Untouched(dst: seq<Node>, cache: Cache, own: set<nat>)
    requires Seated(dst, cache) && own <= cache.Keys
  {
    forall x, y | x in cache && y in own && x != y :: Seat(dst, cache, x).node != cache[y].0
  }

  /** `some` contains the node under every link of its members. */
  ghost predicate LinkClosed(src: seq<Node>, some: set<nat>)
    requires Valid(src)
  {
    forall x: nat, f | x in some && x < |src| && f in src[x].links :: Resolve(src, src[x].links[f].node).node in some
  }

  ghost predicate Grown(before: Cache, now: Cache) {
    forall x | x in before :: x in now && now[x].0 == before[x].0
  }

  /** What was cached since `before` are exactly the nodes from `low` to `high`. */
  ghost predicate FreshClones(before: Cache, now: Cache, low: nat, high: nat) {
    && (forall x | x in now && x !in before :: low <= now[x].0 < high)
    && (forall m: nat | low <= m < high :: NewClone(before, now, m))
  }

  ghost predicate NewClone(before: Cache, now: Cache, m: nat) {
    exists x | x in now :: x !in before && now[x].0 == m
  }

  /** Nothing changed but the sites of nodes that hold clones, and nodes were added. */
  ghost predicate Undisturbed(s: seq<Node>, t: seq<Node>, clones: Cache) {
    && Seated(s, clones) && SameForwarding(s, t)
    && (forall m: nat | m < |s| :: t[m] == s[m].(sites := t[m].sites))
    && (forall m: nat | m < |s| && !Holds(s, clones, m) :: t[m] == s[m])
  }

  /** Node `m` is, or has merged with, some clone. */
  ghost predicate Holds(s: seq<Node>, clones: Cache, m: nat)
    requires Seated(s, clones)
  {
    exists x | x in clones :: Seat(s, clones, x).node == m
  }

  ghost function Reps(ns: seq<Node>): set<nat> {
    set x: nat | x < |ns| && IsRep(ns, x)
  }

  ghost predicate AllCopied(src: seq<Node>, dst: seq<Node>, cache: Cache, x: nat)
    requires Valid(src)
  {
    x < |src| && LinksCopied(src, dst, cache, x, src[x].links.Keys)
  }

  /** Only nodes reached from `n` were added: every link-closed set around `n` has them. */
  ghost predicate OnlyReached(src: seq<Node>, n: nat, before: Cache, now: Cache)
    requires Valid(src)
  {
    forall some: set<nat> :: LinkClosed(src, some) && n in some && before.Keys <= some ==> now.Keys <= some
  }

  lemma CopiedBare(nd: Node)
    ensures Copied(nd).sites == {} && Copied(nd).links == map[] && Copied(nd).fwd.None?
  {
  }

  lemma ReachedStarts(src: seq<Node>, n: nat, before: Cache, now: Cache)
    requires Valid(src) && now.Keys <= before.Keys + {n}
    ensures OnlyReached(src, n, before, now)
  {
  }

  lemma ReachedOn(src: seq<Node>, n: nat, f: Field, first: Cache, before: Cache, now: Cache)
    requires Valid(src) && n < |src| && f in src[n].links && src[n].links[f].node < |src|
    requires OnlyReached(src, n, first, before) && n in before
    requires OnlyReached(src, Resolve(src, src[n].links[f].node).node, before, now)
    ensures OnlyReached(src, n, first, now)
  {
  }

  lemma AppendResited(s: seq<Node>, t: seq<Node>, nd: Node, sites: set<Site>)
    requires nd.sites == {}
    requires t == (s + [nd])[|s| := (s + [nd])[|s|].(sites := (s + [nd])[|s|].sites + sites)]
    ensures t == s + [nd.(sites := sites)]
  {
    assert {} + sites == sites;
    assert t[|s|] == nd.(sites := sites);
  }

  lemma LinkInBounds(src: seq<Node>, n: nat, f: Field)
    requires Valid(src) && n < |src| && f in src[n].links
    ensures Acyclic(src) && src[n].links[f].node < |src|
  {
  }

  lemma Cached(src: seq<Node>, dst: seq<Node>, cache: Cache, own: set<nat>, full: set<nat>, base: nat, n: nat)
    requires Valid(src) && CacheOk(src, dst, cache, own, full, base) && n in cache
    ensures IsRep(src, n) && Seated(dst, cache) && IsRep(dst, Seat(dst, cache, n).node)
    ensures n in own ==> SameShape(src, dst, cache, full, n) && Seat(dst, cache, n) == Cell(cache[n].0, 0)
  {
  }

  /** Every clone still as it was made resembles its original. */
  lemma OwnResemble(src: seq<Node>, dst: seq<Node>, cache: Cache, own: set<nat>, full: set<nat>, base: nat)
    requires Valid(src) && CacheOk(src, dst, cache, own, full, base)
    ensures forall x | x in own :: Twin(src, dst, cache, x)
  {
    hide Resembles, Copied, Valid;
    forall x | x in own ensures Twin(src, dst, cache, x) {
      assert SameShape(src, dst, cache, full, x);
      CopyResembles(src[x], dst[cache[x].0]);
    }
  }

  /** The clone of `x` resembles it, and holds no site it does not have. */
  ghost predicate Twin(src: seq<Node>, dst: seq<Node>, cache: Cache, x: nat) {
    && x in cache && x < |src| && cache[x].0 < |dst|
    && Resembles(src[x], dst[cache[x].0]) && OffStack(src[x].sites) <= dst[cache[x].0].sites <= src[x].sites
  }

  lemma CacheSeparate(src: seq<Node>, dst: seq<Node>, cache: Cache, own: set<nat>, full: set<nat>, base: nat)
    requires Valid(src) && CacheOk(src, dst, cache, own, full, base)
    ensures Separate(cache, base) && Seated(dst, cache) && own <= cache.Keys && full <= cache.Keys
    ensures Untouched(dst, cache, own) && forall x | x in cache :: IsRep(src, x)
  {
  }

  lemma SeatsStay(s: seq<Node>, t: seq<Node>, cache: Cache)
    requires Seated(s, cache) && SameForwarding(s, t)
    ensures Seated(t, cache) && forall x | x in cache :: Seat(t, cache, x) == Seat(s, cache, x)
  {
    SameForwardingKeeps(s, t);
  }

  lemma ResitedValid(s: seq<Node>, c: nat, sites: set<Site>)
    requires Valid(s) && IsRep(s, c)
    ensures Valid(s[c := s[c].(sites := sites)])
  {
    var t := s[c := s[c].(sites := sites)];
    SameForwardingKeeps(s, t);
    assert SoundNode(s[c]);
    assert forall k :: Typed(t[c], k) <==> Typed(s[c], k);
    forall n: nat | IsRep(t, n) ensures SoundNode(t[n]) {
      assert IsRep(s, n);
    }
  }

  lemma Recached(src: seq<Node>, s: seq<Node>, t: seq<Node>, cache: Cache, own: set<nat>, full: set<nat>, base: nat,
                 n: nat, level: Level)
    requires Valid(src) && Valid(s) && CacheOk(src, s, cache, own, full, base) && n in cache && Seated(s, cache)
    requires var r := Seat(s, cache, n).node;
      t == if level == Full && cache[n].1 == NoAllocas then s[r := s[r].(sites := s[r].sites + src[n].sites)] else s
    ensures var now := cache[n := (cache[n].0, level)];
      && Valid(t) && CacheOk(src, t, now, own, if level == Full then full + {n} else full, base)
      && Grown(cache, now) && Undisturbed(s, t, cache) && FreshClones(cache, now, |s|, |t|)
  {
    hide Valid, Copied, Separate, CacheOk, SameShape, Untouched, Seat, Acyclic, Seated, Undisturbed, SameForwarding;
    var now := cache[n := (cache[n].0, level)];
    var full' := if level == Full then full + {n} else full;
    CacheSeparate(src, s, cache, own, full, base);
    Cached(src, s, cache, own, full, base, n);
    ResitedUndisturbed(s, t, cache, n, src[n].sites, level == Full && cache[n].1 == NoAllocas);
    OwnClones(cache, now, base);
    Reseated(s, t, cache, now, own);
    forall x | x in own ensures SameShape(src, t, now, full', x) {
      Cached(src, s, cache, own, full, base, x);
      if x == n {
        ShapeResited(src, s, t, cache, full, n, level);
      } else {
        OwnSeat(s, cache, own, n, x);
        ShapeBounds(src, s, cache, full, x);
        ShapeKept(src, s, t, cache, now, full, full', x);
      }
    }
    CacheIs(src, t, now, own, full', base);
  }

  lemma SeatIn(t: seq<Node>, cache: Cache, x: nat)
    requires Seated(t, cache) && x in cache
    ensures Acyclic(t) && cache[x].0 < |t| && IsRep(t, Seat(t, cache, x).node)
  {
  }

  lemma HoldsSeat(t: seq<Node>, cache: Cache, x: nat)
    requires Seated(t, cache) && x in cache
    ensures Holds(t, cache, Seat(t, cache, x).node)
  {
  }

  /** Sites were added to the node that holds the clone of `n`, or nothing happened. */
  lemma ResitedUndisturbed(s: seq<Node>, t: seq<Node>, cache: Cache, n: nat, sites: set<Site>, more: bool)
    requires Valid(s) && Seated(s, cache) && n in cache
    requires var r := Seat(s, cache, n).node; t == if more then s[r := s[r].(sites := s[r].sites + sites)] else s
    ensures Valid(t) && Undisturbed(s, t, cache) && SameForwarding(s, t) && |t| == |s|
  {
    hide Valid, Seated, Seat, Acyclic, Holds;
    SeatIn(s, cache, n);
    var r := Seat(s, cache, n).node;
    HoldsSeat(s, cache, n);
    if more {
      ResitedValid(s, r, s[r].sites + sites);
    }
  }

  lemma CacheIs(src: seq<Node>, dst: seq<Node>, cache: Cache, own: set<nat>, full: set<nat>, base: nat)
    requires Valid(src) && Separate(cache, base) && full <= cache.Keys && own <= cache.Keys && Seated(dst, cache)
    requires (forall x | x in cache :: IsRep(src, x)) && (forall x | x in own :: SameShape(src, dst, cache, full, x))
    requires Untouched(dst, cache, own)
    ensures CacheOk(src, dst, cache, own, full, base)
  {
  }

  /** The level of a cached clone does not say where it is. */
  lemma Reseated(s: seq<Node>, t: seq<Node>, cache: Cache, now: Cache, own: set<nat>)
    requires Seated(s, cache) && SameForwarding(s, t) && Grown(cache, now) && now.Keys == cache.Keys
    requires own <= cache.Keys && Untouched(s, cache, own)
    ensures Seated(t, now) && Untouched(t, now, own)
    ensures forall x | x in now :: Seat(t, now, x) == Seat(s, cache, x)
  {
    SameForwardingKeeps(s, t);
  }

  lemma OwnSeat(s: seq<Node>, cache: Cache, own: set<nat>, n: nat, x: nat)
    requires Seated(s, cache) && own <= cache.Keys && Untouched(s, cache, own) && n in cache && x in own && x != n
    ensures Seat(s, cache, n).node != cache[x].0
  {
  }

  lemma ShapeBounds(src: seq<Node>, s: seq<Node>, cache: Cache, full: set<nat>, x: nat)
    requires SameShape(src, s, cache, full, x)
    ensures x in cache && IsRep(s, cache[x].0) && IsRep(src, x)
  {
  }

  lemma ShapeResited(src: seq<Node>, s: seq<Node>, t: seq<Node>, cache: Cache, full: set<nat>, n: nat, level: Level)
    requires SameShape(src, s, cache, full, n)
    requires t == if level == Full && cache[n].1 == NoAllocas
                  then s[cache[n].0 := s[cache[n].0].(sites := s[cache[n].0].sites + src[n].sites)] else s
    ensures SameShape(src, t, cache[n := (cache[n].0, level)], if level == Full then full + {n} else full, n)
  {
    hide Copied;
    assert OffStack(src[n].sites) <= src[n].sites;
  }

  lemma OwnClone(cache: Cache, base: nat, x: nat, n: nat)
    requires Separate(cache, base) && x in cache && n in cache && x != n
    ensures cache[x].0 != cache[n].0
  {
  }

  lemma OwnClones(before: Cache, now: Cache, base: nat)
    requires Separate(before, base) && now.Keys == before.Keys && Grown(before, now)
    ensures Separate(now, base)
  {
  }

  lemma ShapeKept(src: seq<Node>, s: seq<Node>, t: seq<Node>, cache: Cache, now: Cache, full: set<nat>, full': set<nat>,
                  x: nat)
    requires SameShape(src, s, cache, full, x) && x in now && now[x] == cache[x]
    requires cache[x].0 < |t| && t[cache[x].0] == s[cache[x].0]
    requires x in full <==> x in full'
    ensures SameShape(src, t, now, full', x)
  {
  }

  lemma AppendedValid(s: seq<Node>, nd: Node, sites: set<Site>)
    requires Valid(s) && SoundNode(nd)
    ensures Valid(s + [Copied(nd).(sites := sites)])
  {
    var m := Copied(nd).(sites := sites);
    var t := s + [m];
    SameForwardingKeeps(s, t);
    assert SoundNode(m) by {
      assert forall k :: Adjust(m, k) == Adjust(nd, k);
    }
    forall n: nat | IsRep(t, n) ensures SoundNode(t[n]) {
      if n < |s| {
        assert IsRep(s, n);
      }
    }
  }

  lemma Added(src: seq<Node>, s: seq<Node>, t: seq<Node>, cache: Cache, own: set<nat>, full: set<nat>, base: nat,
              n: nat, level: Level)
    requires Valid(src) && Valid(s) && CacheOk(src, s, cache, own, full, base) && n !in cache && IsRep(src, n)
    requires base <= |s|
    requires t == s + [Copied(src[n]).(sites := if level == Full then src[n].sites else OffStack(src[n].sites))]
    ensures var now := cache[n := (|s|, level)];
      && Valid(t) && CacheOk(src, t, now, own + {n}, if level == Full then full + {n} else full, base)
      && LinksCopied(src, t, now, n, {})
      && Grown(cache, now) && Undisturbed(s, t, cache) && FreshClones(cache, now, |s|, |t|)
  {
    var now := cache[n := (|s|, level)];
    hide Valid, Copied, SoundNode, LinksCopied, CacheOk, Seated, Acyclic, Holds, Separate, Untouched;
    hide SameForwarding, Undisturbed, FreshClones;
    SoundRep(src, n);
    AppendedValid(s, src[n], t[|s|].sites);
    CopiedBare(src[n]);
    CacheSeparate(src, s, cache, own, full, base);
    AddedNode(s, t, cache, n, level);
    AddedSeats(s, t, cache, own, base, n, level);
    NothingCopied(src, t, now, n);
    AddedShapes(src, s, t, cache, own, full, base, n, level);
  }

  /** One node was added, the clone of `n`. */
  lemma AddedNode(s: seq<Node>, t: seq<Node>, cache: Cache, n: nat, level: Level)
    requires Valid(s) && Seated(s, cache) && |t| == |s| + 1 && t[..|s|] == s && t[|s|].fwd.None? && n !in cache
    ensures SameForwarding(s, t) && Undisturbed(s, t, cache) && FreshClones(cache, cache[n := (|s|, level)], |s|, |t|)
  {
    hide Valid, Seated, Holds;
    var now := cache[n := (|s|, level)];
    assert NewClone(cache, now, |s|) by { assert n in now; }
  }

  lemma AddedSeats(s: seq<Node>, t: seq<Node>, cache: Cache, own: set<nat>, base: nat, n: nat, level: Level)
    requires Seated(s, cache) && SameForwarding(s, t) && |t| == |s| + 1 && n !in cache && base <= |s|
    requires Separate(cache, base)
    requires own <= cache.Keys && Untouched(s, cache, own)
    ensures var now := cache[n := (|s|, level)];
      Seated(t, now) && Separate(now, base) && Untouched(t, now, own + {n}) && Seat(t, now, n) == Cell(|s|, 0)
  {
    SeatsStay(s, t, cache);
  }

  lemma AddedShapes(src: seq<Node>, s: seq<Node>, t: seq<Node>, cache: Cache, own: set<nat>, full: set<nat>, base: nat,
                    n: nat, level: Level)
    requires Valid(src) && CacheOk(src, s, cache, own, full, base) && n !in cache && IsRep(src, n) && base <= |s|
    requires t == s + [Copied(src[n]).(sites := if level == Full then src[n].sites else OffStack(src[n].sites))]
    requires Seated(t, cache[n := (|s|, level)]) && Separate(cache[n := (|s|, level)], base)
    requires own <= cache.Keys && Untouched(t, cache[n := (|s|, level)], own + {n})
    ensures CacheOk(src, t, cache[n := (|s|, level)], own + {n}, if level == Full then full + {n} else full, base)
  {
    var now := cache[n := (|s|, level)];
    var full' := if level == Full then full + {n} else full;
    hide Valid, Copied, CacheOk, Seated, Untouched, Separate, Seat;
    CopiedBare(src[n]);
    CacheSeparate(src, s, cache, own, full, base);
    forall x | x in own ensures SameShape(src, t, now, full', x) {
      Cached(src, s, cache, own, full, base, x);
      ShapeBounds(src, s, cache, full, x);
      ShapeKept(src, s, t, cache, now, full, full', x);
    }
    assert SameShape(src, t, now, full', n);
    hide SameShape;
    CacheIs(src, t, now, own + {n}, full', base);
  }

  lemma NothingCopied(src: seq<Node>, t: seq<Node>, now: Cache, n: nat)
    requires Valid(src) && Seated(t, now) && n in now && IsRep(src, n) && t[now[n].0].links == map[]
    ensures LinksCopied(src, t, now, n, {})
  {
  }

  /** Links already copied stay copied while more nodes are cloned. */
  lemma StillCopied(src: seq<Node>, s: seq<Node>, t: seq<Node>, before: Cache, now: Cache, x: nat, part: set<Field>)
    requires Valid(src) && Undisturbed(s, t, before) && Grown(before, now) && Seated(t, now)
    requires LinksCopied(src, s, before, x, part)
    ensures LinksCopied(src, t, now, x, part)
  {
    hide Holds, Valid, Acyclic, Resolve, Seated, Seat, Redirected, SameForwarding;
    CopiedBounds(src, s, before, x, part);
    SeatsStay(s, t, before);
    assert t[before[x].0] == s[before[x].0].(sites := t[before[x].0].sites);
    forall f | f in part
      ensures Resolve(src, src[x].links[f].node).node in now
      ensures Redirected(src, t, now, src[x].links[f]) == Redirected(src, s, before, src[x].links[f])
    {
      RedirectedGrown(src, t, before, now, src[x].links[f]);
      RedirectedAs(src, s, t, before, src[x].links[f]);
    }
  }

  lemma RedirectedGrown(src: seq<Node>, t: seq<Node>, before: Cache, now: Cache, c: Cell)
    requires Acyclic(src) && c.node < |src| && Seated(t, before) && Seated(t, now) && Grown(before, now)
    requires Resolve(src, c.node).node in before
    ensures Redirected(src, t, now, c) == Redirected(src, t, before, c)
  {
    SeatGrown(t, before, now, Resolve(src, c.node).node);
  }

  lemma SeatGrown(t: seq<Node>, before: Cache, now: Cache, x: nat)
    requires Seated(t, before) && Seated(t, now) && Grown(before, now) && x in before
    ensures x in now && Seat(t, now, x) == Seat(t, before, x)
  {
  }

  lemma StillAllCopied(src: seq<Node>, s: seq<Node>, t: seq<Node>, before: Cache, now: Cache, x: nat)
    requires Valid(src) && Undisturbed(s, t, before) && Grown(before, now) && Seated(t, now)
    requires AllCopied(src, s, before, x)
    ensures AllCopied(src, t, now, x)
  {
    StillCopied(src, s, t, before, now, x, src[x].links.Keys);
  }

  lemma CopiedWhole(src: seq<Node>, dst: seq<Node>, cache: Cache, n: nat)
    requires Valid(src) && n < |src| && LinksCopied(src, dst, cache, n, src[n].links.Keys)
    ensures AllCopied(src, dst, cache, n)
  {
  }

  lemma FreshTrans(a: Cache, b: Cache, c: Cache, low: nat, mid: nat, high: nat)
    requires FreshClones(a, b, low, mid) && FreshClones(b, c, mid, high) && low <= mid <= high && Grown(a, b)
    requires Grown(b, c)
    ensures FreshClones(a, c, low, high)
  {
    forall m: nat | low <= m < high ensures NewClone(a, c, m) {
      if m < mid {
        assert NewClone(a, b, m);
        var x :| x in b && x !in a && b[x].0 == m;
        assert c[x].0 == m;
      } else {
        assert NewClone(b, c, m);
        var x :| x in c && x !in b && c[x].0 == m;
        assert x !in a;
      }
    }
  }

  lemma UndisturbedLonger(s: seq<Node>, t: seq<Node>, clones: Cache)
    requires Undisturbed(s, t, clones)
    ensures |s| <= |t|
  {
  }

  lemma LinkedValid(s: seq<Node>, c: nat, nd: Node, f: Field, cell: Cell)
    requires Valid(s) && IsRep(s, c) && cell.node < |s| && SoundNode(nd) && f in nd.links
    requires s[c].links.Keys <= nd.links.Keys
    requires s[c] == Copied(nd).(links := s[c].links, sites := s[c].sites)
    ensures Valid(s[c := s[c].(links := s[c].links[f := cell])])
  {
    var m := s[c].(links := s[c].links[f := cell]);
    var t := s[c := m];
    SameForwardingKeeps(s, t);
    assert SoundNode(s[c]);
    assert forall k :: Typed(m, k) <==> Typed(s[c], k);
    assert SoundNode(m) by {
      assert forall k :: Adjust(m, k) == Adjust(nd, k);
      assert !nd.isCollapsed ==> forall k :: Typed(m, k) <==> Typed(nd, k);
      assert OmniAlone(m.links) by {
        forall g | g in m.links && Omnified(g) in m.links ensures g.ty == Omni {
          assert g in nd.links && Omnified(g) in nd.links;
        }
      }
    }
    forall n: nat | IsRep(t, n) ensures SoundNode(t[n]) {
      assert IsRep(s, n);
    }
  }

  lemma LinkAdded(src: seq<Node>, s: seq<Node>, t: seq<Node>, cache: Cache, own: set<nat>, full: set<nat>, base: nat,
                  n: nat, f: Field, part: set<Field>)
    requires Valid(src) && Valid(s) && CacheOk(src, s, cache, own, full, base) && n in own && Seated(s, cache)
    requires n in cache
    requires IsRep(src, n) && f in src[n].links && src[n].links[f].node < |src| && LinksCopied(src, s, cache, n, part)
    requires Resolve(src, src[n].links[f].node).node in cache
    requires var c := cache[n].0;
             t == s[c := s[c].(links := s[c].links[f := Redirected(src, s, cache, src[n].links[f])])]
    ensures Valid(t) && CacheOk(src, t, cache, own, full, base) && LinksCopied(src, t, cache, n, part + {f})
    ensures SameForwarding(s, t)
  {
    hide Valid, SoundNode, Copied, Separate, LinksCopied, CacheOk, Untouched, Seat, SameShape, Acyclic, Resolve;
    LinkInBounds(src, n, f);
    var c := cache[n].0;
    var cell := Redirected(src, s, cache, src[n].links[f]);
    Cached(src, s, cache, own, full, base, n);
    Cached(src, s, cache, own, full, base, Resolve(src, src[n].links[f].node).node);
    ShapeBounds(src, s, cache, full, n);
    ShapeIs(src, s, cache, full, n);
    SoundRep(src, n);
    CopiedPart(src, s, cache, n, part);
    LinkedValid(s, c, src[n], f, cell);
    CacheSeparate(src, s, cache, own, full, base);
    SeatsStay(s, t, cache);
    LinksOneMore(src, s, t, cache, n, f, part);
    Reseated(s, t, cache, cache, own);
    forall x | x in own ensures SameShape(src, t, cache, full, x) {
      Cached(src, s, cache, own, full, base, x);
      ShapeBounds(src, s, cache, full, x);
      if x == n {
        ShapeRelinked(src, s, t, cache, full, n);
      } else {
        OwnClone(cache, base, x, n);
        ShapeKept(src, s, t, cache, cache, full, full, x);
      }
    }
    CacheIs(src, t, cache, own, full, base);
  }

  lemma ShapeIs(src: seq<Node>, s: seq<Node>, cache: Cache, full: set<nat>, n: nat)
    requires SameShape(src, s, cache, full, n)
    ensures s[cache[n].0] == Copied(src[n]).(links := s[cache[n].0].links, sites := s[cache[n].0].sites)
  {
  }

  lemma ShapeRelinked(src: seq<Node>, s: seq<Node>, t: seq<Node>, cache: Cache, full: set<nat>, n: nat)
    requires SameShape(src, s, cache, full, n) && |t| == |s|
    requires t[cache[n].0] == s[cache[n].0].(links := t[cache[n].0].links)
    ensures SameShape(src, t, cache, full, n)
  {
    hide Copied;
    CopiedRelinks(src[n], s[cache[n].0], t[cache[n].0].links);
  }

  lemma CopiedPart(src: seq<Node>, s: seq<Node>, cache: Cache, n: nat, part: set<Field>)
    requires Valid(src) && LinksCopied(src, s, cache, n, part)
    ensures s[cache[n].0].links.Keys <= src[n].links.Keys
  {
  }

  lemma CopiedRelinks(nd: Node, m: Node, links: map<Field, Cell>)
    requires m == Copied(nd).(links := m.links, sites := m.sites)
    ensures m.(links := links) == Copied(nd).(links := links, sites := m.sites)
  {
  }

  lemma LinksOneMore(src: seq<Node>, s: seq<Node>, t: seq<Node>, cache: Cache, n: nat, f: Field, part: set<Field>)
    requires Valid(src) && LinksCopied(src, s, cache, n, part) && f in src[n].links && src[n].links[f].node < |src|
    requires Seated(t, cache) && forall x | x in cache :: Seat(t, cache, x) == Seat(s, cache, x)
    requires t[cache[n].0].links == s[cache[n].0].links[f := Redirected(src, s, cache, src[n].links[f])]
    requires Resolve(src, src[n].links[f].node).node in cache
    ensures LinksCopied(src, t, cache, n, part + {f})
  {
    hide Redirected, Seat, Seated, Valid, Acyclic, Resolve;
    CopiedBounds(src, s, cache, n, part);
    forall g | g in part + {f}
      ensures Redirected(src, t, cache, src[n].links[g]) == Redirected(src, s, cache, src[n].links[g])
    {
      RedirectedAs(src, s, t, cache, src[n].links[g]);
    }
  }

  lemma CopiedBounds(src: seq<Node>, s: seq<Node>, cache: Cache, n: nat, part: set<Field>)
    requires Valid(src) && LinksCopied(src, s, cache, n, part)
    ensures Acyclic(src) && Seated(s, cache) && n in cache && n < |src| && part <= src[n].links.Keys
    ensures forall g | g in part :: src[n].links[g].node < |src|
  {
  }

  lemma RedirectedAs(src: seq<Node>, s: seq<Node>, t: seq<Node>, cache: Cache, c: Cell)
    requires Acyclic(src) && c.node < |src| && Seated(s, cache) && Seated(t, cache)
    requires forall x | x in cache :: Seat(t, cache, x) == Seat(s, cache, x)
    ensures Redirected(src, t, cache, c) == Redirected(src, s, cache, c)
  {
    hide Seat, Acyclic, Resolve;
  }

  /** Changing the clone of `n` leaves the other clones' links alone. */
  lemma OtherCopied(src: seq<Node>, s: seq<Node>, t: seq<Node>, cache: Cache, base: nat, n: nat, x: nat)
    requires Valid(src) && Separate(cache, base) && n in cache && x in cache && x != n && SameForwarding(s, t)
    requires |t| == |s| && forall m: nat | m < |s| && m != cache[n].0 :: t[m] == s[m]
    requires AllCopied(src, s, cache, x)
    ensures AllCopied(src, t, cache, x)
  {
    hide SameForwarding, Separate, Seat, Seated, Acyclic, Resolve, Redirected, Valid, SoundNode;
    CopiedBounds(src, s, cache, x, src[x].links.Keys);
    SeatsStay(s, t, cache);
    OwnClone(cache, base, x, n);
    forall f | f in src[x].links
      ensures Redirected(src, t, cache, src[x].links[f]) == Redirected(src, s, cache, src[x].links[f])
    {
      RedirectedAs(src, s, t, cache, src[x].links[f]);
    }
  }

  lemma ForwardingOn(s: seq<Node>, t: seq<Node>, u: seq<Node>)
    requires SameForwarding(s, t) && SameForwarding(t, u)
    ensures SameForwarding(s, u)
  {
  }

  /** A node that held no clone before holds none of those made since, which are newer. */
  lemma HoldsNoMore(r: seq<Node>, s: seq<Node>, clones: Cache, more: Cache, m: nat)
    requires Seated(r, clones) && SameForwarding(r, s) && FreshClones(clones, more, |r|, |s|) && Grown(clones, more)
    requires m < |r| && !Holds(r, clones, m) && Seated(s, more)
    ensures !Holds(s, more, m)
  {
    SeatsStay(r, s, clones);
    forall x | x in more ensures Seat(s, more, x).node != m {
      if x in clones {
        SeatGrown(s, clones, more, x);
        assert Seat(r, clones, x).node != m;
      } else {
        assert |r| <= more[x].0 < |s|;
      }
    }
  }

  lemma UndisturbedOn(r: seq<Node>, s: seq<Node>, t: seq<Node>, u: seq<Node>, clones: Cache, more: Cache, c: nat)
    requires Undisturbed(r, s, clones) && Undisturbed(s, t, more) && FreshClones(clones, more, |r|, |s|)
    requires Grown(clones, more)
    requires SameForwarding(t, u) && |u| == |t| && |r| <= c && forall m: nat | m < |t| && m != c :: u[m] == t[m]
    ensures Undisturbed(r, u, clones)
  {
    ForwardingOn(r, s, t);
    ForwardingOn(r, t, u);
    hide Holds, SameForwarding, Seated;
    forall m: nat | m < |r|
      ensures u[m] == r[m].(sites := u[m].sites)
      ensures !Holds(r, clones, m) ==> u[m] == r[m]
    {
      assert t[m] == s[m].(sites := t[m].sites) && s[m] == r[m].(sites := s[m].sites);
      if !Holds(r, clones, m) {
        HoldsNoMore(r, s, clones, more, m);
      }
    }
  }

  /** Copying what one more link leads to, and then the link, keeps every other clone complete. */
  lemma OthersCopied(src: seq<Node>, s: seq<Node>, t: seq<Node>, u: seq<Node>, first: Cache, before: Cache, now: Cache,
                     base: nat, n: nat)
    requires Valid(src) && Undisturbed(s, t, before) && Grown(before, now) && Separate(now, base) && n in now
    requires Seated(t, now)
    requires forall x | x in before && x !in first && x != n :: AllCopied(src, s, before, x)
    requires forall x | x in now && x !in before :: AllCopied(src, t, now, x)
    requires n in before && SameForwarding(t, u)
    requires |u| == |t| && forall m: nat :: m < |u| && m != now[n].0 ==> u[m] == t[m]
    ensures forall x | x in now && x !in first && x != n :: AllCopied(src, u, now, x)
  {
    hide AllCopied, Valid, Undisturbed, SameForwarding, Seated;
    forall x | x in now && x !in first && x != n ensures AllCopied(src, u, now, x) {
      if x in before {
        StillAllCopied(src, s, t, before, now, x);
      }
      OtherCopied(src, t, u, now, base, n, x);
    }
  }

  lemma GrowthKept(r: seq<Node>, s: seq<Node>, t: seq<Node>, u: seq<Node>, first: Cache, before: Cache, now: Cache,
                   c: nat)
    requires Undisturbed(r, s, first) && FreshClones(first, before, |r|, |s|) && Grown(first, before)
    requires Undisturbed(s, t, before) && FreshClones(before, now, |s|, |t|) && Grown(before, now)
    requires SameForwarding(t, u) && |u| == |t| && |r| <= c && forall m: nat :: m < |u| && m != c ==> u[m] == t[m]
    ensures Undisturbed(r, u, first) && FreshClones(first, now, |r|, |u|)
  {
    UndisturbedOn(r, s, t, u, first, before, c);
    UndisturbedLonger(r, s, first);
    UndisturbedLonger(s, t, before);
    hide Undisturbed, FreshClones;
    FreshTrans(first, before, now, |r|, |s|, |t|);
  }

  /** Nodes were added and nothing else. */
  ghost predicate Prolongs(s: seq<Node>, t: seq<Node>) {
    |s| <= |t| && forall m: nat :: m < |s| ==> t[m] == s[m]
  }

  lemma ProlongsOn(r: seq<Node>, s: seq<Node>, t: seq<Node>, u: seq<Node>, c: nat)
    requires Prolongs(r, s) && Prolongs(s, t) && |u| == |t| && |r| <= c
    requires forall m: nat :: m < |u| && m != c ==> u[m] == t[m]
    ensures Prolongs(r, u)
  {
  }

  lemma SeatRecached(s: seq<Node>, t: seq<Node>, cache: Cache, now: Cache, n: nat)
    requires Undisturbed(s, t, cache) && Grown(cache, now) && now.Keys == cache.Keys && n in cache
    ensures Seated(t, now) && Seat(t, now, n) == Seat(s, cache, n)
  {
    SeatsStay(s, t, cache);
  }

  class Cloner {
    const src: seq<Node>
    const dst: Graph
    const stripAllocas: bool
    var cache: Cache

    /** Where the target graph ended when cloning began. */
    ghost const base: nat
    /** The nodes some call asked for with all allocation sites. */
    ghost var full: set<nat>
    /** The nodes whose clones are still as they were made. */
    ghost var own: set<nat>

    constructor (src: seq<Node>, dst: Graph, stripAllocas: bool)
      ensures this.src == src && this.dst == dst && this.stripAllocas == stripAllocas
      ensures cache == map[] && base == |dst.nodes| && full == {} && own == {}
    {
      this.src := src;
      this.dst := dst;
      this.stripAllocas := stripAllocas;
      this.cache := map[];
      this.base := |dst.nodes|;
      this.full, this.own := {}, {};
    }

    ghost predicate Ok()
      reads this, dst
    {
      && Valid(src) && Valid(dst.nodes) && base <= |dst.nodes| && CacheOk(src, dst.nodes, cache, own, full, base)
      && (!stripAllocas ==> full == cache.Keys)
    }

    /** The level of a call that may ask for stack allocations. */
    function LevelOf(force: bool): Level {
      if stripAllocas && !force then NoAllocas else Full
    }

    /** Add to node `to` the sites of `n` that this call may copy. */
    method CopyAllocationSites(n: nat, to: nat, force: bool)
      requires n < |src| && to < |dst.nodes|
      modifies dst`nodes
      ensures |dst.nodes| == |old(dst.nodes)|
      ensures dst.nodes == old(dst.nodes)[to := old(dst.nodes)[to].(sites := old(dst.nodes[to].sites) +
                             if LevelOf(force) == Full then src[n].sites else OffStack(src[n].sites))]
    {
      var rest := src[n].sites;
      ghost var was := dst.nodes;
      ghost var wanted := if LevelOf(force) == Full then src[n].sites else OffStack(src[n].sites);
      while rest != {}
        invariant rest <= src[n].sites
        invariant |dst.nodes| == |was| && dst.nodes == was[to := was[to].(sites := dst.nodes[to].sites)]
        invariant dst.nodes[to].sites == was[to].sites + (wanted - rest)
      {
        var a :| a in rest;
        if !(a.stack && !force && stripAllocas) && a !in dst.nodes[to].sites {
          dst.nodes := dst.nodes[to := dst.nodes[to].(sites := dst.nodes[to].sites + {a})];
        }
        rest := rest - {a};
      }
      assert wanted - rest == wanted;
    }

    /** The node that holds a cached clone, with the sites this call adds. */
    method Reuse(n: nat, force: bool) returns (c: nat)
      requires Ok() && n in cache
      modifies this`cache, this`full, dst`nodes
      ensures Ok() && n in cache && c == Seat(dst.nodes, cache, n).node
      ensures Grown(old(cache), cache) && cache.Keys == old(cache).Keys
      ensures stripAllocas ==> full == old(full) + (if force then {n} else {})
      ensures Undisturbed(old(dst.nodes), dst.nodes, old(cache))
      ensures FreshClones(old(cache), cache, |old(dst.nodes)|, |dst.nodes|)
      ensures stripAllocas && !force ==> dst.nodes == old(dst.nodes) && Prolongs(old(dst.nodes), dst.nodes)
      // the node gains the sites of `n` at the first call at full level, and nothing else ever happens
      ensures c < |old(dst.nodes)| &&
              dst.nodes == if LevelOf(force) == Full && old(cache)[n].1 == NoAllocas
                           then var m := old(dst.nodes)[c]; old(dst.nodes)[c := m.(sites := m.sites + src[n].sites)]
                           else old(dst.nodes)
    {
      hide CacheOk, Valid, SameShape, Copied, Undisturbed, FreshClones;
      var level := LevelOf(force);
      ghost var cache0, nodes0, full0 := cache, dst.nodes, full;
      Cached(src, dst.nodes, cache, own, full, base, n);
      c := Seat(dst.nodes, cache, n).node;
      if level == Full && cache[n].1 == NoAllocas {
        CopyAllocationSites(n, c, force);
      }
      if level == Full {
        full := full + {n};
      }
      cache := cache[n := (cache[n].0, level)];
      Recached(src, nodes0, dst.nodes, cache0, own, full0, base, n, level);
      SeatRecached(nodes0, dst.nodes, cache0, cache, n);
    }

    /** A new clone, without links. */
    method CloneNode(n: nat, force: bool) returns (c: nat)
      requires Ok() && IsRep(src, n) && n !in cache
      modifies this`cache, this`full, this`own, dst`nodes
      ensures Ok() && c == |old(dst.nodes)| && n in cache && cache.Keys == old(cache).Keys + {n} && cache[n].0 == c
      ensures Grown(old(cache), cache) && own == old(own) + {n}
      ensures stripAllocas ==> full == old(full) + (if force then {n} else {})
      ensures LinksCopied(src, dst.nodes, cache, n, {})
      ensures Undisturbed(old(dst.nodes), dst.nodes, old(cache))
      ensures FreshClones(old(cache), cache, |old(dst.nodes)|, |dst.nodes|)
      ensures Prolongs(old(dst.nodes), dst.nodes)
      ensures Resembles(src[n], dst.nodes[c]) && dst.nodes[c].links == map[]
    {
      hide CacheOk, Valid, LinksCopied, SameShape, Copied, Undisturbed, FreshClones, Resembles;
      var level := LevelOf(force);
      ghost var cache0, nodes0, full0 := cache, dst.nodes, full;
      c := |dst.nodes|;
      dst.nodes := dst.nodes + [Copied(src[n])];
      CopyAllocationSites(n, c, force);
      if level == Full {
        full := full + {n};
      }
      cache := cache[n := (c, level)];
      CopiedBare(src[n]);
      AppendResited(nodes0, dst.nodes, Copied(src[n]), if level == Full then src[n].sites else OffStack(src[n].sites));
      Added(src, nodes0, dst.nodes, cache0, own, full0, base, n, level);
      BareCopy(src[n], dst.nodes[c]);
      own := own + {n};
    }

    /** Link field `f` of the clone of `n` to the clone of what the original leads to. */
    method CopyLink(n: nat, f: Field, ghost part: set<Field>)
      requires Ok() && n in own && n in cache && IsRep(src, n) && f in src[n].links && src[n].links[f].node < |src|
      requires Resolve(src, src[n].links[f].node).node in cache
      requires LinksCopied(src, dst.nodes, cache, n, part)
      modifies dst`nodes
      ensures Ok() && LinksCopied(src, dst.nodes, cache, n, part + {f})
      ensures |dst.nodes| == |old(dst.nodes)| && cache[n].0 < |dst.nodes| && SameForwarding(old(dst.nodes), dst.nodes)
      ensures forall m: nat :: m < |dst.nodes| && m != cache[n].0 ==> dst.nodes[m] == old(dst.nodes)[m]
    {
      hide CacheOk, Valid, LinksCopied, SameShape, Copied;
      ghost var nodes0 := dst.nodes;
      LinkInBounds(src, n, f);
      var cell := src[n].links[f];
      var r := Resolve(src, cell.node);
      Cached(src, dst.nodes, cache, own, full, base, n);
      Cached(src, dst.nodes, cache, own, full, base, r.node);
      var c := cache[n].0;
      var to := Cell(Seat(dst.nodes, cache, r.node).node, r.off + cell.off);
      dst.nodes := dst.nodes[c := dst.nodes[c].(links := dst.nodes[c].links[f := to])];
      LinkAdded(src, nodes0, dst.nodes, cache, own, full, base, n, f, part);
    }

    /** The clone of `n` has the links `part`; every other node cached since `first` is complete. */
    ghost predicate Copying(n: nat, first: Cache, before: seq<Node>, part: set<Field>)
      reads this, dst
      requires Valid(src)
    {
      && n in own && n in cache && cache[n].0 == |before| && n !in first && Grown(first, cache)
      && LinksCopied(src, dst.nodes, cache, n, part)
      && (forall x | x in cache && x !in first && x != n :: AllCopied(src, dst.nodes, cache, x))
      && OnlyReached(src, n, first, cache)
      && Undisturbed(before, dst.nodes, first) && FreshClones(first, cache, |before|, |dst.nodes|)
      && (stripAllocas ==> Prolongs(before, dst.nodes))
    }

    /** Copy what link `f` of `n` leads to, and then the link. */
    method CloneLink(n: nat, f: Field, ghost first: Cache, ghost before: seq<Node>, ghost part: set<Field>)
      requires Ok() && IsRep(src, n) && f in src[n].links && Copying(n, first, before, part)
      modifies this`cache, this`full, this`own, dst`nodes
      ensures Ok() && Copying(n, first, before, part + {f}) && old(cache).Keys <= cache.Keys
      ensures own == old(own) + (cache.Keys - old(cache).Keys)
      ensures stripAllocas ==> full == old(full)
      decreases Reps(src) - cache.Keys, 1
    {
      hide CacheOk, Valid, Acyclic, Resolve, LinksCopied, AllCopied, SameShape, Copied, Undisturbed;
      hide FreshClones, LinkClosed;
      hide OnlyReached, Separate, Seated, SameForwarding, Untouched, Seat, Prolongs, Twin;
      LinkInBounds(src, n, f);
      ghost var cache2, nodes2 := cache, dst.nodes;
      var t := Clone(Resolve(src, src[n].links[f].node).node, false);
      ghost var nodes3 := dst.nodes;
      StillCopied(src, nodes2, nodes3, cache2, cache, n, part);
      CacheSeparate(src, nodes3, cache, own, full, base);
      CopyLink(n, f, part);
      OthersCopied(src, nodes2, nodes3, dst.nodes, first, cache2, cache, base, n);
      ReachedOn(src, n, f, first, cache2, cache);
      GrowthKept(before, nodes2, nodes3, dst.nodes, first, cache2, cache, |before|);
      if stripAllocas {
        ProlongsOn(before, nodes2, nodes3, dst.nodes, |before|);
      }
    }

    /** The node that holds the clone of representative `n`, copying what it reaches as needed. */
    method Clone(n: nat, force: bool) returns (c: nat)
      requires Ok() && IsRep(src, n)
      modifies this`cache, this`full, this`own, dst`nodes
      ensures Ok() && n in cache && Seated(dst.nodes, cache) && c == Seat(dst.nodes, cache, n).node
      ensures Grown(old(cache), cache) && own == old(own) + (cache.Keys - old(cache).Keys)
      ensures stripAllocas ==> full == old(full) + (if force then {n} else {})
      ensures forall x | x in cache && x !in old(cache) :: AllCopied(src, dst.nodes, cache, x)
      ensures forall x | x in own :: Twin(src, dst.nodes, cache, x)
      ensures OnlyReached(src, n, old(cache), cache)
      ensures Undisturbed(old(dst.nodes), dst.nodes, old(cache))
      ensures FreshClones(old(cache), cache, |old(dst.nodes)|, |dst.nodes|)
      ensures stripAllocas && !force ==> Prolongs(old(dst.nodes), dst.nodes)
      decreases Reps(src) - cache.Keys, 0
    {
      hide CacheOk, Valid, Acyclic, Resolve, LinksCopied, AllCopied, SameShape, Copied, Undisturbed;
      hide FreshClones, LinkClosed;
      hide OnlyReached, Separate, Seated, SameForwarding, Untouched, Seat, Prolongs, Twin;
      if n in cache {
        c := Reuse(n, force);
        ReachedStarts(src, n, old(cache), cache);
        CacheSeparate(src, dst.nodes, cache, own, full, base);
        OwnResemble(src, dst.nodes, cache, own, full, base);
        return;
      }
      ghost var cache0, nodes0, full0, own0 := cache, dst.nodes, full, own;
      c := CloneNode(n, force);
      ReachedStarts(src, n, cache0, cache);
      var rest := src[n].links.Keys;
      assert src[n].links.Keys - rest == {};
      assert n in Reps(src);
      while rest != {}
        invariant rest <= src[n].links.Keys
        invariant Ok() && n in cache && Copying(n, cache0, nodes0, src[n].links.Keys - rest)
        invariant own == own0 + (cache.Keys - cache0.Keys)
        invariant stripAllocas ==> full == full0 + (if force then {n} else {})
      {
        var f :| f in rest;
        CloneLink(n, f, cache0, nodes0, src[n].links.Keys - rest);
        assert src[n].links.Keys - (rest - {f}) == src[n].links.Keys - rest + {f};
        rest := rest - {f};
      }
      assert src[n].links.Keys - rest == src[n].links.Keys;
      CopiedWhole(src, dst.nodes, cache, n);
      CacheSeparate(src, dst.nodes, cache, own, full, base);
      Cached(src, dst.nodes, cache, own, full, base, n);
      OwnResemble(src, dst.nodes, cache, own, full, base);
    }
  }

  // ---------------------------------------------------------------- what a finished clone is

  /** After cloning `n` into an empty cache, exactly the nodes `n` reaches are cached. */
  lemma ClonesReached(src: seq<Node>, dst: seq<Node>, cache: Cache, n: nat)
    requires Valid(src) && n in cache && OnlyReached(src, n, map[], cache)
    requires forall x | x in cache :: AllCopied(src, dst, cache, x)
    ensures LinkClosed(src, cache.Keys)
    ensures forall some: set<nat> :: LinkClosed(src, some) && n in some ==> cache.Keys <= some
  {
    forall x: nat, f | x in cache.Keys && x < |src| && f in src[x].links
      ensures Resolve(src, src[x].links[f].node).node in cache.Keys
    {
      LinkInBounds(src, x, f);
      assert AllCopied(src, dst, cache, x);
    }
  }

  /** The representative and raw offset that an access path from `c` reads. */
  ghost function Walk(ns: seq<Node>, c: Cell, path: seq<Field>): Option<Cell>
    requires Valid(ns) && c.node < |ns|
    decreases |path|
  {
    var r := Shift(Resolve(ns, c.node), c.off);
    if path == [] then Some(r)
    else if path[0] !in ns[r.node].links then None
    else
      assert ns[r.node].links[path[0]].node < |ns|;
      Walk(ns, ns[r.node].links[path[0]], path[1..])
  }

  /** Every access path reads the clone of what it read in the original graph, at the same offset. */
  lemma {:induction false} ClonePaths(src: seq<Node>, dst: seq<Node>, cache: Cache, full: set<nat>, base: nat, c: Cell,
                                      path: seq<Field>)
    requires Valid(src) && Valid(dst) && CacheOk(src, dst, cache, cache.Keys, full, base) && c.node < |src|
    requires (forall y | y in cache :: AllCopied(src, dst, cache, y)) && Resolve(src, c.node).node in cache
    ensures Seated(dst, cache) && Redirected(src, dst, cache, c).node < |dst|
    ensures var a, b := Walk(src, c, path), Walk(dst, Redirected(src, dst, cache, c), path);
      && (a.None? <==> b.None?)
      && (a.Some? ==>
            && a.value.node in cache && b.value == Cell(cache[a.value.node].0, a.value.off)
            && Twin(src, dst, cache, a.value.node))
    decreases |path|
  {
    var r := Resolve(src, c.node);
    OwnResemble(src, dst, cache, cache.Keys, full, base);
    CloneBounds(src, dst, cache, cache.Keys, full, base, r.node);
    assert AllCopied(src, dst, cache, r.node);
    hide CacheOk, Valid, Twin;
    if path != [] && path[0] in src[r.node].links {
      LinkInBounds(src, r.node, path[0]);
      ClonePaths(src, dst, cache, full, base, src[r.node].links[path[0]], path[1..]);
    }
  }

  lemma CloneBounds(src: seq<Node>, dst: seq<Node>, cache: Cache, own: set<nat>, full: set<nat>, base: nat, n: nat)
    requires Valid(src) && CacheOk(src, dst, cache, own, full, base) && n in own
    ensures n in cache && base <= cache[n].0 && IsRep(dst, cache[n].0) && IsRep(src, n)
    ensures Seated(dst, cache) && Seat(dst, cache, n) == Cell(cache[n].0, 0)
  {
    assert SameShape(src, dst, cache, full, n);
  }

  /** The cell taken from the cache is the clone's own cell exactly when the clone begins where its node begins:
      the offset at which a clone was merged is not in the cache. */
  lemma RedirectedRight(src: seq<Node>, dst: seq<Node>, cache: Cache, c: Cell)
    requires Acyclic(src) && c.node < |src| && Valid(dst) && Seated(dst, cache) && Resolve(src, c.node).node in cache
    ensures Same(dst, Redirected(src, dst, cache, c), CloneCell(src, cache, c)) <==>
              Flush(dst, cache, Resolve(src, c.node).node)
  {
    var r := Resolve(src, c.node);
    var y := Seat(dst, cache, r.node);
    SoundRep(dst, y.node);
    FlushAt(dst[y.node], y.off, r.off + c.off);
  }

  lemma FlushAt(nd: Node, o: nat, k: nat)
    requires SoundNode(nd)
    ensures Adjust(nd, k) == Adjust(nd, o + k) <==> Adjust(nd, o) == 0
  {
    if nd.isArray && !nd.isCollapsed {
      ModDistance(o + k, k, nd.size);
    }
  }
}
