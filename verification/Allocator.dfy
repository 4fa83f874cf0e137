/** The Kernighan and Ritchie allocator of lab3/user/umalloc.c and the page-aligned variant that
    lab6/user/umalloc.c adds to it. */
module Allocator {

  import opened FreeList
  import opened Sbrk

  /** Units in front of the first header at or above `p` that is followed by a page boundary
      (umalloc.c:110-112). */
  function Lead(p: nat): nat { (p + 1 + (PAGE - 1)) / PAGE * PAGE - 1 - p }

  ghost predicate RingHolds(ring: seq<nat>, free: Blocks) {
    forall a :: a in ring <==> a == BASE || a in free
  }

  ghost predicate SizesOk(size: map<nat, nat>, free: Blocks, alloc: Blocks) {
    && BASE in size && size[BASE] == 0
    && (forall a :: a in free ==> a in size && size[a] == free[a])
    && (forall a :: a in alloc ==> a in size && size[a] == alloc[a])
  }

  /** Free and handed-out blocks are pairwise apart. */
  ghost predicate BlocksOk(free: Blocks, alloc: Blocks) {
    free.Keys !! alloc.Keys && Disjoint(free + alloc)
  }

  /** Together they are all the memory obtained. */
  ghost predicate Accounts(free: Blocks, alloc: Blocks, granted: iset<nat>) {
    forall x: nat :: Covers(free + alloc, x) <==> x in granted
  }

  ghost predicate Large(free: Blocks, n: nat) { exists a :: a in free && free[a] >= n }

  /** The new memory overlaps no block. */
  ghost predicate Fresh(m: Blocks, start: nat, units: nat) {
    forall a :: a in m ==> a + m[a] <= start || start + units <= a
  }

  // ----- Value lemmas --------------------------------------------------------------------------

  lemma BaseNotFree(free: Blocks, alloc: Blocks)
    requires BlocksOk(free, alloc)
    ensures BASE !in free && BASE !in alloc
  {
    assert forall a :: a in free || a in alloc ==> a in free + alloc;
  }

  function JoinedNext(next: map<nat, nat>, right: bool, left: bool, p: nat, bp: nat): map<nat, nat>
    requires p in next && next[p] in next
  {
    var q := next[p];
    var n1 := next[bp := if right then next[q] else q];
    n1[p := if left then n1[bp] else bp]
  }

  /** The pointer writes of `free` give the ring with the block in place. */
  lemma JoinedRingOk(next: map<nat, nat>, free: Blocks, ring: seq<nat>, k: nat, bp: nat, n: nat)
    requires RingOk(next, ring) && k < |ring| && bp !in ring && BASE !in free && Succ(ring, k) in next
    ensures var right, left := Succ(ring, k) in free && bp + n == Succ(ring, k),
        ring[k] in free && ring[k] + free[ring[k]] == bp;
      RingOk(JoinedNext(next, right, left, ring[k], bp), JoinedRing(free, ring, k, bp, n))
  {
    var p, q := ring[k], Succ(ring, k);
    var right, left := q in free && bp + n == q, p in free && p + free[p] == bp;
    if right {
      JoinedRight(next, ring, k, bp, left);
    } else if left {
      RingApart(next, JoinedNext(next, right, left, p, bp), ring);
    } else {
      InsertOk(next, ring, k, bp);
    }
  }

  lemma JoinedRight(next: map<nat, nat>, ring: seq<nat>, k: nat, bp: nat, left: bool)
    requires RingOk(next, ring) && k + 1 < |ring| && bp !in ring && Succ(ring, k) in next
    ensures left ==> RingOk(JoinedNext(next, true, left, ring[k], bp), Remove(ring, k + 1))
    ensures !left ==> RingOk(JoinedNext(next, true, left, ring[k], bp), Insert(Remove(ring, k + 1), k, bp))
  {
    var next1: map<nat, nat> := next[ring[k] := Succ(ring, k + 1)];
    var ring1 := Remove(ring, k + 1);
    RemoveOk(next, ring, k);
    assert next[Succ(ring, k)] == Succ(ring, k + 1) && next[ring[k]] == Succ(ring, k);
    RemoveShape(ring, k + 1);
    if left {
      RingApart(next1, JoinedNext(next, true, left, ring[k], bp), ring1);
    } else {
      InsertOk(next1, ring1, k, bp);
      assert next1[bp := Succ(ring1, k)][ring1[k] := bp] == JoinedNext(next, true, left, ring[k], bp);
    }
  }

  lemma InsertHolds(ring: seq<nat>, free: Blocks, k: nat, bp: nat, m: nat)
    requires RingHolds(ring, free) && k < |ring|
    ensures RingHolds(Insert(ring, k, bp), free[bp := m])
  {
    var r := Insert(ring, k, bp);
    forall a | a in ring ensures a in r {
      var i :| 0 <= i < |ring| && ring[i] == a;
      assert r[if i <= k then i else i + 1] == a;
    }
    assert r[k + 1] == bp;
  }

  lemma RemoveHolds(ring: seq<nat>, free: Blocks, i: nat)
    requires RingHolds(ring, free) && Distinct(ring) && 0 < i < |ring| && ring[i] != BASE
    ensures RingHolds(Remove(ring, i), free - {ring[i]})
  {
    var r := Remove(ring, i);
    forall a | a in ring && a != ring[i] ensures a in r {
      var j :| 0 <= j < |ring| && ring[j] == a;
      assert r[if j < i then j else j - 1] == a;
    }
    forall j | 0 <= j < |r| ensures r[j] in ring && r[j] != ring[i] {
      assert r[j] == ring[if j < i then j else j + 1];
    }
  }

  lemma JoinedRingHolds(free: Blocks, ring: seq<nat>, k: nat, bp: nat, n: nat)
    requires RingHolds(ring, free) && Distinct(ring) && k < |ring| && ring[0] == BASE && BASE !in free && bp !in ring
    ensures RingHolds(JoinedRing(free, ring, k, bp, n), Joined(free, ring[k], Succ(ring, k), bp, n))
    ensures ring[k] in JoinedRing(free, ring, k, bp, n)
  {
    hide RingHolds, Distinct, Insert, Remove;
    var p, q := ring[k], Succ(ring, k);
    var right, left := q in free && bp + n == q, p in free && p + free[p] == bp;
    if right {
      RemoveHolds(ring, free, k + 1);
      RemoveShape(ring, k + 1);
      DistinctAt(ring, k);
    }
    var rest, f1 := if right then Remove(ring, k + 1) else ring, if right then free - {q} else free;
    assert k < |rest| && rest[k] == p && p in rest;
    var m := if right then n + free[q] else n;
    if left {
      GrowHolds(rest, f1, p, f1[p] + m);
    } else {
      InsertHolds(rest, f1, k, bp, m);
      InsertShape(rest, k, bp);
    }
  }

  lemma DistinctAt(ring: seq<nat>, k: nat)
    requires Distinct(ring) && k + 1 < |ring|
    ensures ring[k] != ring[k + 1]
  {
  }

  lemma InsertShape(ring: seq<nat>, k: nat, bp: nat)
    requires k < |ring|
    ensures ring[k] in Insert(ring, k, bp)
  {
    assert Insert(ring, k, bp)[k] == ring[k];
  }

  lemma GrowHolds(ring: seq<nat>, free: Blocks, p: nat, m: nat)
    requires RingHolds(ring, free) && p in free
    ensures RingHolds(ring, free[p := m])
  {
  }

  /** What `free` does to the ring: the block goes behind `p`, where its address belongs. */
  ghost predicate Returned(ring: seq<nat>, free: Blocks, p: nat, bp: nat, n: nat, ring': seq<nat>, free': Blocks) {
    exists k :: 0 <= k < |ring| && ring[k] == p && StopsAt(p, Succ(ring, k), bp)
      && ring' == JoinedRing(free, ring, k, bp, n) && free' == Joined(free, p, Succ(ring, k), bp, n)
  }

  lemma ReturnedAt(ring: seq<nat>, free: Blocks, k: nat, bp: nat, n: nat)
    requires k < |ring| && StopsAt(ring[k], Succ(ring, k), bp)
    ensures Returned(ring, free, ring[k], bp, n, JoinedRing(free, ring, k, bp, n),
                     Joined(free, ring[k], Succ(ring, k), bp, n))
  {
  }

  /** The search passed the positions from `lo` to `hi`. */
  ghost predicate Passed(ring: seq<nat>, bp: nat, lo: nat, hi: nat) {
    forall i :: lo <= i < hi && i < |ring| ==> !StopsAt(ring[i], Succ(ring, i), bp)
  }

  lemma PassedNone(ring: seq<nat>, bp: nat, lo: nat)
    ensures Passed(ring, bp, lo, lo)
  {
  }

  lemma PassedMore(ring: seq<nat>, bp: nat, lo: nat, hi: nat)
    requires Passed(ring, bp, lo, hi) && hi < |ring| && !StopsAt(ring[hi], Succ(ring, hi), bp)
    ensures Passed(ring, bp, lo, hi + 1)
  {
  }

  lemma AllPassed(ring: seq<nat>, bp: nat, first: nat)
    requires |ring| > 0 && ring[0] == BASE && bp > BASE && bp !in ring && first < |ring|
    requires forall i :: 0 <= i < |ring| ==> ring[i] >= BASE
    ensures !(Passed(ring, bp, first, |ring|) && Passed(ring, bp, 0, first))
  {
    if Passed(ring, bp, first, |ring|) && Passed(ring, bp, 0, first) {
      SearchStops(ring, bp, |ring| - 1);
    }
  }

  lemma NotHere(p: nat, q: nat, bp: nat)
    requires !(bp > p && bp < q) && !(p >= q && (bp > p || bp < q))
    ensures !StopsAt(p, q, bp)
  {
  }

  lemma Here(p: nat, q: nat, bp: nat)
    requires (bp > p && bp < q) || (p >= q && (bp > p || bp < q))
    ensures StopsAt(p, q, bp)
  {
  }

  lemma NextOf(next: map<nat, nat>, ring: seq<nat>, k: nat)
    requires RingOk(next, ring) && k < |ring|
    ensures ring[k] in next && next[ring[k]] == Succ(ring, k)
  {
  }

  /** One free block holds the `n` units from `bp` on. */
  ghost predicate HoldsBlock(free: Blocks, bp: nat, n: nat) {
    exists a :: a in free && a <= bp && bp + n <= a + free[a]
  }

  function JoinedSize(size: map<nat, nat>, right: bool, left: bool, p: nat, q: nat, bp: nat): map<nat, nat>
    requires p in size && bp in size && (right ==> q in size) && p != bp
  {
    var s1 := if right then size[bp := size[bp] + size[q]] else size;
    if left then s1[p := s1[p] + s1[bp]] else s1
  }

  lemma JoinedSizes(size: map<nat, nat>, free: Blocks, alloc: Blocks, p: nat, q: nat, bp: nat)
    requires SizesOk(size, free, alloc) && BlocksOk(free, alloc) && bp in alloc && BASE !in free && bp != BASE
    requires p == BASE || p in free
    requires p in free ==> p != q
    ensures var right, left := q in free && bp + alloc[bp] == q, p in free && p + free[p] == bp;
      SizesOk(JoinedSize(size, right, left, p, q, bp), Joined(free, p, q, bp, alloc[bp]), alloc - {bp})
  {
  }

  lemma BeforeFree(ring: seq<nat>, free: Blocks, alloc: Blocks, bp: nat)
    requires RingHolds(ring, free) && BlocksOk(free, alloc) && bp in alloc
    ensures bp > BASE && bp !in ring && forall i :: 0 <= i < |ring| ==> ring[i] >= BASE
  {
    assert bp in free + alloc;
    forall i | 0 <= i < |ring| ensures ring[i] >= BASE {
      assert ring[i] in ring;
      if ring[i] in free { assert ring[i] in free + alloc; }
    }
  }

  /** The neighbours of a place in the ring: `base` has no size, so only free blocks are joined. */
  lemma Neighbours(next: map<nat, nat>, size: map<nat, nat>, ring: seq<nat>, free: Blocks, alloc: Blocks, k: nat,
                   bp: nat)
    requires RingOk(next, ring) && RingHolds(ring, free) && SizesOk(size, free, alloc) && BlocksOk(free, alloc)
    requires bp in alloc && k < |ring| && bp > BASE
    ensures var p, q := ring[k], Succ(ring, k);
      && p in next && next[p] == q && q in next && p in size && bp in size && size[bp] == alloc[bp]
      && (p == BASE || p in free) && p != bp && (q in free ==> q in size && size[q] == free[q])
      && (q in free && bp + alloc[bp] == q <==> bp + size[bp] == q)
      && (p in free && p + free[p] == bp <==> p + size[p] == bp)
      && (p in free ==> p != q)
  {
    var p, q := ring[k], Succ(ring, k);
    assert p in ring && q in ring;
    BaseNotFree(free, alloc);
    assert k > 0 ==> ring[0] != ring[k];
  }

  lemma JoinedAccounts(free: Blocks, alloc: Blocks, granted: iset<nat>, p: nat, q: nat, bp: nat)
    requires BlocksOk(free, alloc) && Accounts(free, alloc, granted) && bp in alloc && (p in free ==> p != q)
    ensures var free' := Joined(free, p, q, bp, alloc[bp]);
      && BlocksOk(free', alloc - {bp}) && Accounts(free', alloc - {bp}, granted) && HoldsBlock(free', bp, alloc[bp])
  {
    JoinedOk(free, alloc, p, q, bp);
    JoinedHolds(free, p, q, bp, alloc[bp]);
    hide Joined, Disjoint, Covers;
  }

  /** All that `free` must keep. */
  lemma FreeOk(next: map<nat, nat>, size: map<nat, nat>, ring: seq<nat>, free: Blocks, alloc: Blocks,
               granted: iset<nat>, k: nat, bp: nat)
    requires RingOk(next, ring) && RingHolds(ring, free) && SizesOk(size, free, alloc)
    requires BlocksOk(free, alloc) && Accounts(free, alloc, granted)
    requires bp in alloc && bp !in ring && bp > BASE && k < |ring| && StopsAt(ring[k], Succ(ring, k), bp)
    ensures ring[k] in next && next[ring[k]] == Succ(ring, k) && Succ(ring, k) in next
    ensures ring[k] in size && bp in size && ring[k] != bp && size[bp] == alloc[bp]
    ensures bp + size[bp] == Succ(ring, k) ==> Succ(ring, k) in size
    ensures var p, q := ring[k], Succ(ring, k);
      var ring', free' := JoinedRing(free, ring, k, bp, alloc[bp]), Joined(free, p, q, bp, alloc[bp]);
      && RingOk(JoinedNext(next, bp + size[bp] == q, p + size[p] == bp, p, bp), ring') && p in ring'
      && SizesOk(JoinedSize(size, bp + size[bp] == q, p + size[p] == bp, p, q, bp), free', alloc - {bp})
      && RingHolds(ring', free') && BlocksOk(free', alloc - {bp}) && Accounts(free', alloc - {bp}, granted)
      && HoldsBlock(free', bp, alloc[bp])
      && (Ordered(ring, free) ==> Ordered(ring', free'))
  {
    var p, q := ring[k], Succ(ring, k);
    Neighbours(next, size, ring, free, alloc, k, bp);
    BaseNotFree(free, alloc);
    RingShape(next, ring);
    BlocksShape(free, alloc);
    hide RingOk, SizesOk, BlocksOk, Accounts, HoldsBlock, Disjoint, Ordered, JoinedRing, Joined, JoinedNext, JoinedSize,
      StopsAt;
    JoinedRingOk(next, free, ring, k, bp, alloc[bp]);
    JoinedRingHolds(free, ring, k, bp, alloc[bp]);
    JoinedSizes(size, free, alloc, p, q, bp);
    JoinedAccounts(free, alloc, granted, p, q, bp);
    if Ordered(ring, free) {
      OrderedJoin(free, alloc, ring, k, bp);
    }
  }

  lemma RingShape(next: map<nat, nat>, ring: seq<nat>)
    requires RingOk(next, ring)
    ensures |ring| > 0 && ring[0] == BASE && Distinct(ring)
  {
  }

  lemma BlocksShape(free: Blocks, alloc: Blocks)
    requires BlocksOk(free, alloc)
    ensures Disjoint(free + alloc) && free.Keys !! alloc.Keys
  {
  }

  // ----- Growing and searching -----------------------------------------------------------------

  predicate Within(x: nat, start: nat, units: nat) { start <= x < start + units }

  /** The units of a grant. */
  ghost function Region(g: Grant): iset<nat> {
    if g.Refused? then iset{} else iset x: nat | Within(x, g.start, g.units)
  }

  /** Answers of successive calls of `sbrk`: each grant is new memory. */
  ghost predicate Offers(gs: seq<Grant>, granted: iset<nat>) {
    && (forall i :: 0 <= i < |gs| && gs[i].Granted? ==>
        gs[i].start > BASE && gs[i].units > 0 && Region(gs[i]) !! granted)
    && (forall i, j :: 0 <= i < j < |gs| ==> Region(gs[i]) !! Region(gs[j]))
  }

  /** All units of the grants. */
  ghost function Got(gs: seq<Grant>): iset<nat> {
    if gs == [] then iset{} else Got(gs[..|gs| - 1]) + Region(gs[|gs| - 1])
  }

  lemma GotMore(gs: seq<Grant>, used: nat)
    requires used < |gs|
    ensures Got(gs[..used + 1]) == Got(gs[..used]) + Region(gs[used])
  {
    assert gs[..used + 1][..used] == gs[..used];
  }

  lemma OffersNext(gs: seq<Grant>, granted: iset<nat>)
    requires Offers(gs, granted) && gs != []
    ensures Offers(gs[1..], granted + Region(gs[0]))
  {
    hide Region;
    var rest := gs[1..];
    forall i | 0 <= i < |rest| ensures rest[i] == gs[i + 1] && Region(gs[0]) !! Region(gs[i + 1]) { }
    forall i, j | 0 <= i < j < |rest| ensures Region(rest[i]) !! Region(rest[j]) {
      assert rest[i] == gs[i + 1] && rest[j] == gs[j + 1];
    }
  }

  /** Memory not had so far overlaps no block. */
  lemma NewIsFresh(free: Blocks, alloc: Blocks, granted: iset<nat>, g: Grant)
    requires BlocksOk(free, alloc) && Accounts(free, alloc, granted)
    requires g.Granted? && g.units > 0 && Region(g) !! granted
    ensures Fresh(free + alloc, g.start, g.units)
  {
    var m := free + alloc;
    forall a | a in m ensures a + m[a] <= g.start || g.start + g.units <= a {
      BlockAbove(free, alloc, a);
      var x := if a < g.start then g.start else a;
      assert a <= x < a + m[a] ==> Covers(m, x);
      assert Within(x, g.start, g.units) ==> x in Region(g);
    }
  }

  /** `sbrk` has no answer left or refuses. */
  predicate RefusedAt(gs: seq<Grant>, used: nat) { used < |gs| ==> gs[used].Refused? }

  /** The free blocks `frees` of one search: those before it and those after each grant.  A grant is taken
      exactly when no block has `n` units, and the search gives up exactly when it is then refused. */
  ghost predicate Searched(frees: seq<Blocks>, gs: seq<Grant>, n: nat) {
    && 0 < |frees| <= |gs| + 1
    && (forall i, j :: 0 <= i && j == i + 1 && j < |frees| ==> Taken(frees[i], gs[i], n, frees[j]))
    && (!Large(Last(frees), n) ==> RefusedAt(gs, |frees| - 1))
  }

  ghost predicate Taken(free: Blocks, g: Grant, n: nat, free': Blocks) {
    g.Granted? && !Large(free, n) && HoldsBlock(free', g.start, g.units)
  }

  function Last(frees: seq<Blocks>): Blocks
    requires frees != []
  {
    frees[|frees| - 1]
  }

  /** A search under way that began with `free` and `granted`. */
  ghost predicate Searching(frees: seq<Blocks>, gs: seq<Grant>, n: nat, free: Blocks, granted: iset<nat>,
                            free': Blocks, granted': iset<nat>) {
    && 0 < |frees| <= |gs| + 1 && frees[0] == free && Last(frees) == free'
    && (forall i, j :: 0 <= i && j == i + 1 && j < |frees| ==> Taken(frees[i], gs[i], n, frees[j]))
    && granted' == granted + Got(gs[..|frees| - 1]) && Offers(gs[|frees| - 1..], granted')
  }

  lemma SearchStarts(gs: seq<Grant>, n: nat, free: Blocks, granted: iset<nat>)
    requires Offers(gs, granted)
    ensures Searching([free], gs, n, free, granted, free, granted)
  {
    assert gs[0..] == gs && granted + Got(gs[..0]) == granted;
  }

  lemma SearchGoesOn(frees: seq<Blocks>, gs: seq<Grant>, n: nat, free: Blocks, granted: iset<nat>, was: Blocks,
                     had: iset<nat>, free': Blocks)
    requires Searching(frees, gs, n, free, granted, was, had) && |frees| <= |gs| && !Large(was, n)
    requires gs[|frees| - 1].Granted? && HoldsBlock(free', gs[|frees| - 1].start, gs[|frees| - 1].units)
    ensures Searching(frees + [free'], gs, n, free, granted, free', had + Region(gs[|frees| - 1]))
    ensures !Large(free, n)
  {
    var k, frees' := |frees| - 1, frees + [free'];
    assert Taken(was, gs[k], n, free');
    hide Taken, Region, Large, HoldsBlock;
    forall i, j | 0 <= i && j == i + 1 && j < |frees'| ensures Taken(frees'[i], gs[i], n, frees'[j]) {
      if j < |frees| { assert frees'[i] == frees[i] && frees'[j] == frees[j]; }
    }
    GotMore(gs, k);
    OffersNext(gs[k..], had);
    assert gs[k..][1..] == gs[k + 1..] && gs[k..][0] == gs[k];
    assert !Large(free, n) by { assert Taken(frees'[0], gs[0], n, frees'[1]); TakenSmall(free, gs[0], n, frees'[1]); }
  }

  lemma TakenSmall(free: Blocks, g: Grant, n: nat, free': Blocks)
    requires Taken(free, g, n, free')
    ensures !Large(free, n)
  {
  }

  /** The next answer of `sbrk`. */
  function Next(gs: seq<Grant>, used: nat): Grant { if used < |gs| then gs[used] else Refused }

  lemma NextIsNew(frees: seq<Blocks>, gs: seq<Grant>, n: nat, free: Blocks, granted: iset<nat>, free': Blocks,
                  granted': iset<nat>)
    requires Searching(frees, gs, n, free, granted, free', granted')
    ensures var g := Next(gs, |frees| - 1);
      g.Granted? ==> g.start > BASE && g.units > 0 && Region(g) !! granted'
  {
    var rest := gs[|frees| - 1..];
    assert rest != [] ==> rest[0] == gs[|frees| - 1];
  }

  lemma SearchEnds(frees: seq<Blocks>, gs: seq<Grant>, n: nat, free: Blocks, granted: iset<nat>, free': Blocks,
                   granted': iset<nat>)
    requires Searching(frees, gs, n, free, granted, free', granted')
    requires !Large(free', n) ==> RefusedAt(gs, |frees| - 1)
    ensures Searched(frees, gs, n) && frees[0] == free && Last(frees) == free'
    ensures granted' == granted + Got(gs[..|frees| - 1])
    ensures Large(free, n) ==> |frees| == 1
  {
    assert |frees| > 1 ==> Taken(frees[0], gs[0], n, frees[1]);
  }

  /** A grant of all that is needed ends the search: the heap grows at most once, and a failing search takes nothing. */
  lemma OneGrant(frees: seq<Blocks>, gs: seq<Grant>, n: nat)
    requires Searched(frees, gs, n) && gs != [] && (gs[0].Granted? ==> gs[0].units >= n)
    ensures |frees| <= 2
    ensures Large(Last(frees), n) <==> Large(frees[0], n) || gs[0].Granted?
    ensures |frees| == 1 <==> Large(frees[0], n) || gs[0].Refused?
  {
    if |frees| > 1 {
      assert Taken(frees[0], gs[0], n, frees[1]);
      HoldsLarge(frees[1], gs[0].start, gs[0].units, n);
      assert |frees| > 2 ==> Taken(frees[1], gs[1], n, frees[2]);
    }
  }

  lemma GrantOk(size: map<nat, nat>, free: Blocks, alloc: Blocks, granted: iset<nat>, hp: nat, units: nat)
    requires SizesOk(size, free, alloc) && BlocksOk(free, alloc) && Accounts(free, alloc, granted)
    requires hp > BASE && units > 0 && Fresh(free + alloc, hp, units)
    ensures hp !in free && hp !in alloc
    ensures SizesOk(size[hp := units], free, alloc[hp := units]) && BlocksOk(free, alloc[hp := units])
    ensures Accounts(free, alloc[hp := units], granted + Region(Granted(hp, units)))
  {
    GrantBlocks(free, alloc, granted, hp, units);
    hide BlocksOk, Accounts;
  }

  lemma GrantBlocks(free: Blocks, alloc: Blocks, granted: iset<nat>, hp: nat, units: nat)
    requires BlocksOk(free, alloc) && Accounts(free, alloc, granted)
    requires hp > BASE && units > 0 && Fresh(free + alloc, hp, units)
    ensures hp !in free && hp !in alloc && BlocksOk(free, alloc[hp := units])
    ensures Accounts(free, alloc[hp := units], granted + Region(Granted(hp, units)))
  {
    hide Disjoint, Covers;
    GrantFresh(free + alloc, hp, units);
    assert free + alloc[hp := units] == (free + alloc)[hp := units];
    forall x: nat ensures Covers(free + alloc[hp := units], x) <==> x in granted + Region(Granted(hp, units)) {
      GrantCovers(free + alloc, hp, units, x);
      assert Within(x, hp, units) <==> x in Region(Granted(hp, units));
    }
  }

  lemma GrantFresh(m: Blocks, hp: nat, units: nat)
    requires Disjoint(m) && hp > BASE && units > 0 && Fresh(m, hp, units)
    ensures hp !in m && Disjoint(m[hp := units])
  {
  }

  lemma GrantCovers(m: Blocks, hp: nat, units: nat, x: nat)
    requires hp !in m
    ensures Covers(m[hp := units], x) <==> Covers(m, x) || Within(x, hp, units)
  {
    var m' := m[hp := units];
    if Covers(m, x) {
      var a :| a in m && a <= x < a + m[a];
      assert a in m' && a <= x < a + m'[a];
    }
    assert hp in m';
  }

  lemma HoldsLarge(free: Blocks, bp: nat, units: nat, n: nat)
    requires HoldsBlock(free, bp, units) && units >= n
    ensures Large(free, n)
  {
    var a :| a in free && a <= bp && bp + units <= a + free[a];
    assert a in free && free[a] >= n;
  }

  /** No block at positions `lo` to `hi` has `n` units. */
  ghost predicate Small(ring: seq<nat>, free: Blocks, n: nat, lo: nat, hi: nat) {
    forall i :: lo <= i < hi && i < |ring| && ring[i] in free ==> free[ring[i]] < n
  }

  /** On the way from position `first` around the ring to `k` no block has `n` units. */
  ghost predicate Between(ring: seq<nat>, free: Blocks, n: nat, first: nat, k: nat) {
    if first <= k then Small(ring, free, n, first + 1, k + 1)
    else Small(ring, free, n, first + 1, |ring|) && Small(ring, free, n, 0, k + 1)
  }

  lemma SmallMore(ring: seq<nat>, free: Blocks, n: nat, lo: nat, hi: nat)
    requires hi < |ring| && Small(ring, free, n, lo, hi) && (ring[hi] in free ==> free[ring[hi]] < n)
    ensures Small(ring, free, n, lo, hi + 1)
  {
  }

  lemma SmallNone(ring: seq<nat>, free: Blocks, n: nat, lo: nat)
    ensures Small(ring, free, n, lo, lo)
  {
  }

  lemma NoneLarge(ring: seq<nat>, free: Blocks, n: nat, first: nat)
    requires RingHolds(ring, free) && first < |ring| && (ring[first] in free ==> free[ring[first]] < n)
    requires Small(ring, free, n, first + 1, |ring|) && Small(ring, free, n, 0, first)
    ensures !Large(free, n)
  {
    forall a | a in free ensures free[a] < n {
      var i :| 0 <= i < |ring| && ring[i] == a;
    }
  }

  lemma BetweenNone(ring: seq<nat>, free: Blocks, n: nat, first: nat)
    ensures Between(ring, free, n, first, first)
  {
  }

  lemma BetweenNext(ring: seq<nat>, free: Blocks, n: nat, first: nat, k: nat)
    requires Between(ring, free, n, first, k) && k < |ring| && first < |ring| && ring[first] != Succ(ring, k)
    requires Succ(ring, k) in free ==> free[Succ(ring, k)] < n
    ensures Between(ring, free, n, first, if k + 1 < |ring| then k + 1 else 0)
  {
    if k + 1 < |ring| {
      SmallMore(ring, free, n, if first <= k then first + 1 else 0, k + 1);
    } else {
      SmallNone(ring, free, n, 0);
      SmallMore(ring, free, n, 0, 0);
    }
  }

  /** Going round from behind `freep`, `p` is the first block of at least `n` units, and `prevp` the one before it. */
  ghost predicate NextFit(ring: seq<nat>, free: Blocks, freep: nat, n: nat, prevp: nat, p: nat) {
    p in free && free[p] >= n
    && exists first: nat, k: nat :: FitsAt(ring, free, freep, n, prevp, p, first, k)
  }

  ghost predicate FitsAt(ring: seq<nat>, free: Blocks, freep: nat, n: nat, prevp: nat, p: nat, first: nat, k: nat) {
    && first < |ring| && ring[first] == freep && k + 1 < |ring| && ring[k] == prevp && ring[k + 1] == p
    && Between(ring, free, n, first, k)
  }

  lemma NextFitAt(ring: seq<nat>, free: Blocks, freep: nat, n: nat, prevp: nat, p: nat, first: nat, k: nat)
    requires FitsAt(ring, free, freep, n, prevp, p, first, k) && p in free && free[p] >= n
    ensures NextFit(ring, free, freep, n, prevp, p)
  {
  }

  /** Once around: there is no such block. */
  lemma BetweenAll(ring: seq<nat>, free: Blocks, n: nat, first: nat, k: nat)
    requires RingHolds(ring, free) && Between(ring, free, n, first, k) && k < |ring| && first < |ring|
    requires first == if k + 1 < |ring| then k + 1 else 0
    requires ring[first] in free ==> free[ring[first]] < n
    ensures !Large(free, n)
  {
    if first == 0 { SmallNone(ring, free, n, 0); }
    NoneLarge(ring, free, n, first);
  }

  lemma BlockAbove(free: Blocks, alloc: Blocks, a: nat)
    requires BlocksOk(free, alloc)
    ensures a in free ==> a > BASE && free[a] > 0
    ensures a in alloc ==> a > BASE && alloc[a] > 0 && a !in free
  {
    assert a in free || a in alloc ==> a in free + alloc;
  }

  /** What the search reads at the block behind position `k`. */
  lemma Header(next: map<nat, nat>, size: map<nat, nat>, ring: seq<nat>, free: Blocks, alloc: Blocks, k: nat)
    requires RingOk(next, ring) && RingHolds(ring, free) && SizesOk(size, free, alloc) && BlocksOk(free, alloc)
    requires k < |ring|
    ensures ring[k] in next && next[ring[k]] == Succ(ring, k)
    ensures Succ(ring, k) in size && Succ(ring, k) in next
    ensures size[Succ(ring, k)] > 0 ==> k + 1 < |ring| && Succ(ring, k) in free && Succ(ring, k) != ring[k]
    ensures Succ(ring, k) in free ==> size[Succ(ring, k)] == free[Succ(ring, k)]
    ensures Succ(ring, k) > 0 && ring[k] > 0
  {
    assert Succ(ring, k) in ring && ring[k] in ring;
    BlockAbove(free, alloc, ring[k]);
    BlockAbove(free, alloc, Succ(ring, k));
    BaseNotFree(free, alloc);
  }

  lemma LargeAt(free: Blocks, p: nat, n: nat)
    requires p in free && free[p] >= n
    ensures Large(free, n)
  {
  }

  lemma SamePlace(ring: seq<nat>, i: nat, j: nat)
    requires Distinct(ring) && i < |ring| && j < |ring| && ring[i] == ring[j]
    ensures i == j
  {
  }

  // ----- Carving -------------------------------------------------------------------------------

  /** `r` is the tail of `n` units of the free block `a`, or all of it. */
  ghost predicate Carved(free: Blocks, free': Blocks, a: nat, n: nat, r: nat) {
    && a in free && free[a] >= n && r == a + free[a] - n
    && free' == if free[a] == n then free - {a} else free[a := free[a] - n]
  }

  ghost predicate CarvedSome(free: Blocks, free': Blocks, n: nat, r: int) {
    r >= 0 && exists a: nat :: Carved(free, free', a, n, r)
  }

  lemma CarvedAt(free: Blocks, free': Blocks, a: nat, n: nat, r: nat)
    requires Carved(free, free', a, n, r)
    ensures CarvedSome(free, free', n, r)
  {
  }

  /** Before the first call there is no block at all. */
  lemma NoneYet(free: Blocks, n: nat)
    ensures free == map[] ==> !Large(free, n)
  {
  }

  /** The request in units of a header: the least number that holds the header and the bytes. */
  lemma UnitsLeast(nbytes: nat, u: nat)
    ensures 16 * u >= nbytes + 16 <==> u >= Units(nbytes)
  {
  }

  /** What `malloc_align` looks for: room for the header, the bytes and a page of 4096 bytes. */
  lemma AlignUnitsLeast(oribytes: nat, u: nat)
    requires oribytes + 4096 < UINT
    ensures 16 * u >= oribytes + 4096 + 16 <==> u >= AlignUnits(oribytes)
  {
  }

  lemma UnitsPositive(nbytes: nat)
    ensures Units(nbytes) > 0 && Units(nbytes) * 16 >= nbytes + 16
  {
  }

  lemma SizesMove(size: map<nat, nat>, free: Blocks, alloc: Blocks, p: nat)
    requires SizesOk(size, free, alloc) && p in free
    ensures SizesOk(size, free - {p}, alloc[p := free[p]])
  {
  }

  lemma SizesCut(size: map<nat, nat>, free: Blocks, alloc: Blocks, p: nat, n: nat)
    requires SizesOk(size, free, alloc) && BlocksOk(free, alloc) && p in free && 0 < n < free[p]
    ensures p in size && size[p] == free[p]
    ensures SizesOk(size[p := free[p] - n][p + (free[p] - n) := n], free[p := free[p] - n],
                    alloc[p + (free[p] - n) := n])
  {
    CutBlock(free + alloc, p, free[p] - n);
    BlockAbove(free, alloc, p);
  }

  lemma CarveExact(free: Blocks, alloc: Blocks, granted: iset<nat>, p: nat)
    requires BlocksOk(free, alloc) && Accounts(free, alloc, granted) && p in free
    ensures p !in alloc && BlocksOk(free - {p}, alloc[p := free[p]])
    ensures Accounts(free - {p}, alloc[p := free[p]], granted)
  {
    hide Disjoint, Covers;
    assert (free - {p}) + alloc[p := free[p]] == free + alloc;
  }

  lemma CarveTail(free: Blocks, alloc: Blocks, granted: iset<nat>, p: nat, n: nat)
    requires BlocksOk(free, alloc) && Accounts(free, alloc, granted) && p in free && 0 < n < free[p]
    ensures var rest := free[p] - n;
      && p + rest !in alloc && p + rest !in free
      && BlocksOk(free[p := rest], alloc[p + rest := n]) && Accounts(free[p := rest], alloc[p + rest := n], granted)
  {
    hide Disjoint, Covers;
    var rest := free[p] - n;
    CutBlock(free + alloc, p, rest);
    assert free[p := rest] + alloc[p + rest := n] == (free + alloc)[p := rest][p + rest := n];
  }

  lemma ShrinkOrdered(ring: seq<nat>, free: Blocks, p: nat, m: nat)
    requires Ordered(ring, free) && p in free && m <= free[p]
    ensures Ordered(ring, free[p := m])
  {
  }

  lemma UnlinkOrdered(ring: seq<nat>, free: Blocks, alloc: Blocks, k: nat)
    requires Ordered(ring, free) && k + 1 < |ring| && RingHolds(ring, free) && BlocksOk(free, alloc)
    requires ring[k + 1] in free
    ensures Ordered(Remove(ring, k + 1), free - {ring[k + 1]})
  {
    forall a | a in free ensures free[a] > 0 { BlockAbove(free, alloc, a); }
    GapRemove(ring, free, k);
  }

  /** The three pieces of an aligned carve fit in every block the search accepts exactly when the
      32-bit sum of bytes does not wrap. */
  lemma PiecesFit(oribytes: nat)
    requires oribytes < UINT
    ensures (forall p: nat, psz: nat :: psz >= AlignUnits(oribytes) ==> Fits(oribytes, p, psz)) <==>
        oribytes + 4096 < UINT
  {
    if oribytes + 4096 < UINT {
      forall p: nat, psz: nat | psz >= AlignUnits(oribytes) ensures Fits(oribytes, p, psz) {
        LeadBound(p);
      }
    } else {
      assert AlignUnits(oribytes) <= 257;
      assert !Fits(oribytes, 0, 257);
    }
  }

  /** Room in a block of `psz` units at `p` for the lead, the block itself and a remainder. */
  predicate Fits(oribytes: nat, p: nat, psz: nat) { Lead(p) + Units(oribytes) < psz }

  /** The lead is less than a page and ends one header below a page boundary. */
  lemma LeadBound(p: nat)
    ensures 0 <= Lead(p) < PAGE && (p + Lead(p) + 1) % PAGE == 0
  {
  }

  lemma LeadIs(p: nat)
    ensures (p + 1 + (PAGE - 1)) / PAGE * PAGE - 1 == p + Lead(p)
  {
  }

  lemma NotInRing(ring: seq<nat>, free: Blocks, a: nat)
    requires RingHolds(ring, free) && a != BASE && a !in free
    ensures a !in ring
  {
  }

  /** The blocks after the carve: lead (if any) and remainder stay free. */
  function Aligned(free: Blocks, p: nat, lead: nat, units: nat): Blocks
    requires p in free && lead + units < free[p]
  {
    var right, rest := p + lead + units, free[p] - units - lead;
    if lead == 0 then (free - {p})[right := rest] else free[p := lead][right := rest]
  }

  lemma AlignCut(free: Blocks, alloc: Blocks, granted: iset<nat>, p: nat, lead: nat, units: nat)
    requires BlocksOk(free, alloc) && Accounts(free, alloc, granted) && p in free && lead + units < free[p] && units > 0
    ensures var ret, right := p + lead, p + lead + units;
      && right !in free && right !in alloc && ret !in alloc && (lead > 0 ==> ret !in free)
      && BlocksOk(Aligned(free, p, lead, units), alloc[ret := units])
      && Accounts(Aligned(free, p, lead, units), alloc[ret := units], granted)
  {
    hide Disjoint, Covers;
    var ret, right, rest := p + lead, p + lead + units, free[p] - units - lead;
    CarveTail(free, alloc, granted, p, rest);
    var f1, a1: Blocks := free[p := lead + units], alloc[right := rest];
    if lead == 0 {
      CarveExact(f1, a1, granted, p);
      assert (f1 - {p}) + a1[p := units] == Aligned(free, p, lead, units) + alloc[ret := units];
    } else {
      CarveTail(f1, a1, granted, p, units);
      assert f1[p := lead] + a1[ret := units] == Aligned(free, p, lead, units) + alloc[ret := units];
    }
  }

  lemma SizesAlign(size: map<nat, nat>, free: Blocks, alloc: Blocks, p: nat, lead: nat, units: nat)
    requires SizesOk(size, free, alloc) && p in free && p !in alloc && lead + units < free[p] && p > BASE && units > 0
    requires var ret, right := p + lead, p + lead + units;
      right !in free && right !in alloc && ret !in alloc && (lead > 0 ==> ret !in free)
    ensures var ret, right := p + lead, p + lead + units;
      var s1: map<nat, nat> := size[ret := units][right := free[p] - units - lead];
      var s2: map<nat, nat> := if lead == 0 then s1 else s1[p := lead];
      SizesOk(s2, Aligned(free, p, lead, units), alloc[ret := units])
  {
  }

  /** The ring after the carve: the remainder takes the place of the block, or goes in front of the lead. */
  function AlignedRing(ring: seq<nat>, k: nat, right: nat, lead: nat): seq<nat>
    requires k + 1 < |ring|
  {
    if lead == 0 then Insert(Remove(ring, k + 1), k, right) else Insert(ring, k, right)
  }

  lemma AlignedRingOk(next: map<nat, nat>, ring: seq<nat>, free: Blocks, k: nat, lead: nat, units: nat)
    requires RingOk(next, ring) && RingHolds(ring, free) && k + 1 < |ring| && ring[k + 1] in free && ring[k + 1] != BASE
    requires lead + units < free[ring[k + 1]] && ring[k + 1] + lead + units !in ring
    requires ring[k + 1] in next && next[ring[k + 1]] in next
    ensures var p, right := ring[k + 1], ring[k + 1] + lead + units;
      var n1: map<nat, nat> := next[right := if lead == 0 then next[p] else p];
      && RingOk(n1[ring[k] := right], AlignedRing(ring, k, right, lead))
      && RingHolds(AlignedRing(ring, k, right, lead), Aligned(free, p, lead, units))
      && ring[k] in AlignedRing(ring, k, right, lead)
  {
    hide RingOk, RingHolds, Insert, Remove;
    var p, right, rest := ring[k + 1], ring[k + 1] + lead + units, free[ring[k + 1]] - units - lead;
    NextOf(next, ring, k);
    RingShape(next, ring);
    if lead == 0 {
      RemoveShape(ring, k + 1);
      JoinedRight(next, ring, k, right, false);
      RemoveHolds(ring, free, k + 1);
      InsertHolds(Remove(ring, k + 1), free - {p}, k, right, rest);
      InsertShape(Remove(ring, k + 1), k, right);
    } else {
      InsertOk(next, ring, k, right);
      GrowHolds(ring, free, p, lead);
      InsertHolds(ring, free[p := lead], k, right, rest);
      InsertShape(ring, k, right);
    }
  }

  /** The remainder lies above the lead it points to: such a carve gives up address order. */
  lemma AlignLosesOrder(ring: seq<nat>, k: nat, lead: nat, units: nat)
    requires k + 1 < |ring| && lead > 0
    ensures !Rising(AlignedRing(ring, k, ring[k + 1] + lead + units, lead))
  {
    var r := AlignedRing(ring, k, ring[k + 1] + lead + units, lead);
    assert r[k + 1] > r[k + 2];
  }

  /** The block handed out starts one header before a page boundary inside a free block. */
  ghost predicate AlignedFrom(free: Blocks, free': Blocks, p: nat, units: nat, r: int) {
    p in free && Lead(p) + units < free[p] && r == p + Lead(p) && free' == Aligned(free, p, Lead(p), units)
  }

  ghost predicate AlignedSome(free: Blocks, free': Blocks, units: nat, r: int) {
    exists p :: p in free && Lead(p) + units < free[p] && r == p + Lead(p) && free' == Aligned(free, p, Lead(p), units)
  }

  lemma AlignedAt(free: Blocks, p: nat, units: nat)
    requires p in free && Lead(p) + units < free[p]
    ensures AlignedSome(free, Aligned(free, p, Lead(p), units), units, p + Lead(p))
  {
  }

  // ----- The heap ------------------------------------------------------------------------------

  class Heap {
    /** Block headers: `s.ptr` and `s.size`. */
    var next: map<nat, nat>
    var size: map<nat, nat>
    /** The static `freep`. */
    var freep: nat
    /** The free ring from `base` on. */
    ghost var ring: seq<nat>
    ghost var free: Blocks
    /** The blocks handed out and not yet returned. */
    ghost var alloc: Blocks
    /** All units that `morecore` has put on the list. */
    ghost var granted: iset<nat>

    ghost predicate Valid()
      reads this
    {
      && (freep == 0 ==> free == map[] && alloc == map[] && ring == [BASE])
      && (freep != 0 ==> freep in ring && RingOk(next, ring) && SizesOk(size, free, alloc))
      && RingHolds(ring, free) && BlocksOk(free, alloc) && Accounts(free, alloc, granted)
    }

    constructor ()
      ensures Valid() && free == map[] && alloc == map[] && granted == iset{} && Ordered(ring, free)
    {
      next, size, freep := map[], map[], 0;
      ring, free, alloc, granted := [BASE], map[], map[], iset{};
    }

    /** The search loop of `free`: it stops, whatever the order of the ring (umalloc.c:30-32). */
    method Search(bp: nat) returns (p: nat, ghost k: nat)
      requires freep != 0 && freep in ring && RingOk(next, ring) && bp > BASE && bp !in ring
      requires forall i :: 0 <= i < |ring| ==> ring[i] >= BASE
      ensures p in ring && p in next && StopsAt(p, next[p], bp)
      ensures k < |ring| && p == ring[k] && next[p] == Succ(ring, k)
    {
      hide RingOk, Distinct, StopsAt, Passed;
      RingShape(next, ring);
      ghost var first: nat :| first < |ring| && ring[first] == freep;
      p, k := freep, first;
      ghost var wrapped := false;
      NextOf(next, ring, k);
      PassedNone(ring, bp, first);
      while !(bp > p && bp < next[p])
        invariant k < |ring| && p == ring[k] && p in next && next[p] == Succ(ring, k)
        invariant !wrapped ==> first <= k && Passed(ring, bp, first, k)
        invariant wrapped ==> k < first && Passed(ring, bp, first, |ring|) && Passed(ring, bp, 0, k)
        decreases if wrapped then first - k else |ring| - k + first
      {
        if p >= next[p] && (bp > p || bp < next[p]) {
          break;
        }
        NotHere(p, next[p], bp);
        PassedMore(ring, bp, if wrapped then 0 else first, k);
        p := next[p];
        if k + 1 < |ring| {
          k := k + 1;
        } else {
          k, wrapped := 0, true;
          PassedNone(ring, bp, 0);
        }
        NextOf(next, ring, k);
        if wrapped && k == first {
          AllPassed(ring, bp, first);
        }
      }
      Here(p, next[p], bp);
    }

    /** `free` (umalloc.c:24-44). */
    method Free(ap: nat)
      requires Valid() && ap > 0 && ap - 1 in alloc
      modifies this
      ensures Valid() && alloc == old(alloc) - {ap - 1} && granted == old(granted)
      ensures Returned(old(ring), old(free), freep, ap - 1, old(alloc)[ap - 1], ring, free)
      ensures HoldsBlock(free, ap - 1, old(alloc)[ap - 1])
      ensures old(Ordered(ring, free)) ==> Ordered(ring, free)
      ensures freep != 0
    {
      hide RingOk, RingHolds, SizesOk, BlocksOk, Accounts, Ordered, StopsAt, Returned, HoldsBlock, Joined, JoinedRing;
      var bp := ap - 1;
      ghost var m := alloc[bp];
      BeforeFree(ring, free, alloc, bp);
      var p; ghost var k;
      p, k := Search(bp);
      ghost var q := Succ(ring, k);
      FreeOk(next, size, ring, free, alloc, granted, k, bp);
      if bp + size[bp] == next[p] {
        size := size[bp := size[bp] + size[next[p]]];
        next := next[bp := next[next[p]]];
      } else {
        next := next[bp := next[p]];
      }
      if p + size[p] == bp {
        size := size[p := size[p] + size[bp]];
        next := next[p := next[bp]];
      } else {
        next := next[p := bp];
      }
      freep := p;
      ring, free := JoinedRing(free, ring, k, bp, m), Joined(free, p, q, bp, m);
      alloc := alloc - {bp};
      ReturnedAt(old(ring), old(free), k, bp, m);
    }

    /** `morecore` (umalloc.c:46-64): whatever is granted comes back through `free`. */
    method Morecore(g: Grant) returns (p: nat)
      requires Valid() && freep != 0
      requires g.Granted? ==> g.start > BASE && g.units > 0 && Region(g) !! granted
      modifies this
      ensures Valid() && freep != 0 && alloc == old(alloc) && granted == old(granted) + Region(g)
      ensures g.Refused? ==> p == 0 && unchanged(this)
      ensures g.Granted? ==> p == freep && HoldsBlock(free, g.start, g.units)
      ensures old(Ordered(ring, free)) ==> Ordered(ring, free)
    {
      hide RingOk, RingHolds, SizesOk, BlocksOk, Accounts, Ordered, Returned, HoldsBlock, Fresh;
      if g.Refused? {
        return 0;
      }
      var hp := g.start;
      NewIsFresh(free, alloc, granted, g);
      GrantOk(size, free, alloc, granted, hp, g.units);
      size := size[hp := g.units];
      alloc, granted := alloc[hp := g.units], granted + Region(g);
      Free(hp + 1);
      assert alloc == old(alloc);
      return freep;
    }

    /** The first call finds no list and makes one of `base` alone (umalloc.c:73-76). */
    method Init()
      requires Valid()
      modifies this
      ensures Valid() && freep != 0 && ring == old(ring) && free == old(free) && alloc == old(alloc)
      ensures granted == old(granted) && freep == if old(freep) == 0 then BASE else old(freep)
    {
      if freep == 0 {
        next, freep := next[BASE := BASE], BASE;
        size := size[BASE := 0];
      }
    }

    /** The loop of `malloc` and `malloc_align`: from `freep` around the ring to a block of at least
        `n` units, growing the heap after every full turn without one until `sbrk` refuses; `used` counts the
        grants. */
    method Find(n: nat, gs: seq<Grant>)
      returns (prevp: nat, p: nat, used: nat, ghost k: nat, ghost first: nat, ghost frees: seq<Blocks>)
      requires Valid() && freep != 0 && n > 0 && Offers(gs, granted)
      modifies this
      ensures Valid() && freep != 0 && alloc == old(alloc)
      ensures Searched(frees, gs, n) && frees[0] == old(free) && Last(frees) == free && |frees| == used + 1
      ensures granted == old(granted) + Got(gs[..|frees| - 1])
      ensures p == 0 <==> !Large(free, n)
      ensures p != 0 ==> k + 1 < |ring| && prevp == ring[k] && p == ring[k + 1] && p in free && free[p] >= n
      ensures Large(old(free), n) ==> |frees| == 1 && ring == old(ring)
      ensures Large(old(free), n) ==> first < |ring| && ring[first] == old(freep) && Between(ring, free, n, first, k)
      ensures old(Ordered(ring, free)) ==> Ordered(ring, free)
    {
      hide RingOk, RingHolds, SizesOk, BlocksOk, Accounts, Ordered, Large, Between, Distinct, Region, Offers, Got,
        HoldsBlock, Searching, Searched;
      RingShape(next, ring);
      first :| first < |ring| && ring[first] == freep;
      k := first;
      used := 0;
      frees := [free];
      SearchStarts(gs, n, free, granted);
      NextOf(next, ring, k);
      prevp := freep;
      p := next[prevp];
      BetweenNone(ring, free, n, first);
      while true
        invariant Valid() && freep != 0 && alloc == old(alloc)
        invariant first < |ring| && ring[first] == freep
        invariant k < |ring| && prevp == ring[k] && p == Succ(ring, k) && Between(ring, free, n, first, k)
        invariant used <= |gs| && |frees| == used + 1
        invariant Searching(frees, gs, n, old(free), old(granted), free, granted)
        invariant used == 0 ==> ring == old(ring) && freep == old(freep)
        invariant used > 0 ==> !Large(old(free), n)
        invariant old(Ordered(ring, free)) ==> Ordered(ring, free)
        decreases |gs| - used, if k < first then first - k else |ring| - k + first
      {
        RingShape(next, ring);
        Header(next, size, ring, free, alloc, k);
        if size[p] >= n {
          LargeAt(free, p, n);
          SearchEnds(frees, gs, n, old(free), old(granted), free, granted);
          return;
        }
        ghost var next_k := if k + 1 < |ring| then k + 1 else 0;
        if p == freep {
          SamePlace(ring, first, next_k);
          BetweenAll(ring, free, n, first, k);
          NextIsNew(frees, gs, n, old(free), old(granted), free, granted);
          ghost var was, had := free, granted;
          p := Morecore(Next(gs, used));
          if p == 0 {
            SearchEnds(frees, gs, n, old(free), old(granted), free, granted);
            return;
          }
          SearchGoesOn(frees, gs, n, old(free), old(granted), was, had, free);
          used, frees := used + 1, frees + [free];
          RingShape(next, ring);
          first :| first < |ring| && ring[first] == freep;
          k := first;
          BetweenNone(ring, free, n, first);
        } else {
          BetweenNext(ring, free, n, first, k);
          k := next_k;
        }
        NextOf(next, ring, k);
        prevp, p := p, next[p];
      }
    }

    /** A block that fits exactly leaves the ring (umalloc.c:79-80, 86). */
    method Unlink(prevp: nat, p: nat, ghost k: nat)
      requires Valid() && freep != 0 && k + 1 < |ring| && prevp == ring[k] && p == ring[k + 1] && p in free
      modifies this
      ensures Valid() && freep == prevp && freep != 0 && p !in old(alloc) && alloc == old(alloc)[p := old(free)[p]]
      ensures free == old(free) - {p} && granted == old(granted)
      ensures old(Ordered(ring, free)) ==> Ordered(ring, free)
    {
      hide RingOk, RingHolds, SizesOk, BlocksOk, Accounts, Ordered, Distinct, Remove;
      RingShape(next, ring);
      Header(next, size, ring, free, alloc, k);
      NextOf(next, ring, k + 1);
      CarveExact(free, alloc, granted, p);
      RemoveOk(next, ring, k);
      BlockAbove(free, alloc, p);
      RemoveHolds(ring, free, k + 1);
      RemoveShape(ring, k + 1);
      if Ordered(ring, free) { UnlinkOrdered(ring, free, alloc, k); }
      SizesMove(size, free, alloc, p);
      next := next[prevp := next[p]];
      ring := Remove(ring, k + 1);
      alloc := alloc[p := free[p]];
      free := free - {p};
      assert ring[k] == prevp;
      freep := prevp;
    }

    /** A larger block gives up its tail (umalloc.c:82-86). */
    method CutTail(prevp: nat, p: nat, nunits: nat, ghost k: nat) returns (r: nat)
      requires Valid() && freep != 0 && k + 1 < |ring| && prevp == ring[k] && p == ring[k + 1]
      requires p in free && 0 < nunits < free[p]
      modifies this
      ensures Valid() && freep == prevp && freep != 0 && r == p + old(free)[p] - nunits
      ensures r !in old(alloc) && alloc == old(alloc)[r := nunits]
      ensures free == old(free)[p := old(free)[p] - nunits] && granted == old(granted)
      ensures old(Ordered(ring, free)) ==> Ordered(ring, free)
    {
      hide RingOk, RingHolds, SizesOk, BlocksOk, Accounts, Ordered;
      Header(next, size, ring, free, alloc, k);
      CarveTail(free, alloc, granted, p, nunits);
      if Ordered(ring, free) { ShrinkOrdered(ring, free, p, free[p] - nunits); }
      GrowHolds(ring, free, p, free[p] - nunits);
      SizesCut(size, free, alloc, p, nunits);
      size := size[p := size[p] - nunits];
      free := free[p := free[p] - nunits];
      r := p + size[p];
      size := size[r := nunits];
      alloc := alloc[r := nunits];
      freep := prevp;
    }

    /** `malloc` (umalloc.c:66-93). */
    method Malloc(nbytes: nat, gs: seq<Grant>) returns (r: nat, used: nat, ghost frees: seq<Blocks>)
      requires Valid() && nbytes < UINT && Offers(gs, granted)
      modifies this
      ensures Valid()
      ensures Searched(frees, gs, Units(nbytes)) && frees[0] == old(free) && |frees| == used + 1
      ensures granted == old(granted) + Got(gs[..|frees| - 1])
      ensures r == 0 <==> !Large(Last(frees), Units(nbytes))
      ensures r == 0 ==> free == Last(frees) && alloc == old(alloc)
      ensures r != 0 ==> CarvedSome(Last(frees), free, Units(nbytes), r - 1)
      ensures Large(old(free), Units(nbytes)) ==>
          r != 0 && exists p :: NextFit(old(ring), old(free), old(freep), Units(nbytes), freep, p)
                                && Carved(old(free), free, p, Units(nbytes), r - 1)
      ensures r != 0 ==> r - 1 !in old(alloc) && alloc == old(alloc)[r - 1 := Units(nbytes)]
      ensures old(Ordered(ring, free)) ==> Ordered(ring, free)
    {
      hide RingOk, RingHolds, SizesOk, BlocksOk, Accounts, Ordered, Large, Units, CarvedSome, Offers, Searched, Got,
        Between, NextFit;
      NoneYet(free, Units(nbytes));
      var nunits := Units(nbytes);
      UnitsPositive(nbytes);
      Init();
      var prevp, p; ghost var k, first;
      prevp, p, used, k, first, frees := Find(nunits, gs);
      if p == 0 {
        r := 0;
        return;
      }
      ghost var was := free;
      Header(next, size, ring, free, alloc, k);
      ghost var found := p;
      if Large(old(free), nunits) {
        NextFitAt(old(ring), old(free), old(freep), nunits, prevp, p, first, k);
      }
      if size[p] == nunits {
        Unlink(prevp, p, k);
      } else {
        p := CutTail(prevp, p, nunits, k);
      }
      CarvedAt(was, free, found, nunits, p);
      r := p + 1;
    }

    /** The aligned block is cut from the middle of `p` (lab6/user/umalloc.c:110-125). */
    method CarveAligned(prevp: nat, p: nat, ounits: nat, ghost k: nat) returns (r: nat)
      requires Valid() && freep != 0 && k + 1 < |ring| && prevp == ring[k] && p == ring[k + 1]
      requires p in free && ounits > 0 && Lead(p) + ounits < free[p]
      modifies this
      ensures Valid() && freep == prevp && r > 0 && r % PAGE == 0 && r - 1 !in old(alloc)
      ensures alloc == old(alloc)[r - 1 := ounits]
      ensures AlignedSome(old(free), free, ounits, r - 1) && granted == old(granted)
      ensures AlignedFrom(old(free), free, p, ounits, r - 1)
    {
      hide RingOk, RingHolds, SizesOk, BlocksOk, Accounts, Ordered, Lead, Aligned, AlignedRing, AlignedSome;
      ghost var lead := Lead(p);
      LeadBound(p);
      LeadIs(p);
      Header(next, size, ring, free, alloc, k);
      BlockAbove(free, alloc, p);
      NextOf(next, ring, k + 1);
      Header(next, size, ring, free, alloc, k + 1);
      AlignCut(free, alloc, granted, p, lead, ounits);
      NotInRing(ring, free, p + lead + ounits);
      SizesAlign(size, free, alloc, p, lead, ounits);
      AlignedRingOk(next, ring, free, k, lead, ounits);
      AlignedAt(free, p, ounits);
      var alignAddr := (p + 1 + (PAGE - 1)) / PAGE * PAGE - 1;
      var sz, psz := alignAddr - p, size[p];
      var ret := alignAddr;
      size := size[ret := ounits];
      var right := ret + ounits;
      size := size[right := psz - ounits - sz];
      if sz == 0 {
        next := next[right := next[p]];
      } else {
        next := next[right := p];
        size := size[p := sz];
      }
      next := next[prevp := right];
      ring := AlignedRing(ring, k, right, lead);
      free, alloc := Aligned(free, p, lead, ounits), alloc[ret := ounits];
      freep := prevp;
      return ret + 1;
    }

    /** `malloc_align` (lab6/user/umalloc.c:93-131). */
    method MallocAlign(oribytes: nat, gs: seq<Grant>) returns (r: nat, used: nat, ghost frees: seq<Blocks>)
      requires Valid() && oribytes + 4096 < UINT && Offers(gs, granted)
      modifies this
      ensures Valid()
      ensures Searched(frees, gs, AlignUnits(oribytes)) && frees[0] == old(free) && |frees| == used + 1
      ensures granted == old(granted) + Got(gs[..|frees| - 1])
      ensures r == 0 <==> !Large(Last(frees), AlignUnits(oribytes))
      ensures r == 0 ==> free == Last(frees) && alloc == old(alloc)
      ensures r != 0 ==> AlignedSome(Last(frees), free, Units(oribytes), r - 1)
      ensures Large(old(free), AlignUnits(oribytes)) ==>
          r != 0 && exists p :: NextFit(old(ring), old(free), old(freep), AlignUnits(oribytes), freep, p)
                                && AlignedFrom(old(free), free, p, Units(oribytes), r - 1)
      ensures r != 0 ==> r % PAGE == 0 && r - 1 !in old(alloc) && alloc == old(alloc)[r - 1 := Units(oribytes)]
    {
      hide RingOk, RingHolds, SizesOk, BlocksOk, Accounts, Ordered, Large, Units, Lead, Aligned, AlignedRing,
        AlignedSome, AlignedFrom, Offers, Searched, Got, Between, NextFit;
      NoneYet(free, AlignUnits(oribytes));
      var ounits, nunits := Units(oribytes), AlignUnits(oribytes);
      UnitsPositive(oribytes);
      UnitsPositive((oribytes + 4096) % UINT);
      Init();
      var prevp, p; ghost var k, first;
      prevp, p, used, k, first, frees := Find(nunits, gs);
      if p == 0 {
        r := 0;
        return;
      }
      Header(next, size, ring, free, alloc, k);
      PiecesFit(oribytes);
      assert Fits(oribytes, p, free[p]);
      if Large(old(free), nunits) {
        NextFitAt(old(ring), old(free), old(freep), nunits, prevp, p, first, k);
      }
      r := CarveAligned(prevp, p, ounits, k);
    }
  }
}
