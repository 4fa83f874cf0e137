/** The circular free list behind the allocators of lab3/user/umalloc.c and lab6/user/umalloc.c.
    Addresses count units of one header (16 bytes). */
module FreeList {

  /** The address of the static header `base`, below all memory that `sbrk` grants; 0 is the null pointer. */
  const BASE: nat := 1

  /** Blocks by address, with their sizes, headers included. */
  type Blocks = map<nat, nat>

  ghost predicate Disjoint(m: Blocks) {
    && (forall a :: a in m ==> a > BASE && m[a] > 0)
    && (forall a, b :: a in m && b in m && a != b ==> a + m[a] <= b || b + m[b] <= a)
  }

  ghost predicate Covers(m: Blocks, x: nat) {
    exists a :: a in m && a <= x < a + m[a]
  }

  /** The same memory, cut differently. */
  ghost predicate SameMemory(m: Blocks, m': Blocks) {
    forall x: nat :: Covers(m, x) <==> Covers(m', x)
  }

  // ----- Rings ---------------------------------------------------------------------------------

  function Succ(ring: seq<nat>, i: nat): nat
    requires i < |ring|
  {
    if i + 1 < |ring| then ring[i + 1] else ring[0]
  }

  /** The pointers lead around `ring`, which starts at `base`. */
  ghost predicate RingOk(next: map<nat, nat>, ring: seq<nat>) {
    && |ring| > 0 && ring[0] == BASE
    && Distinct(ring)
    && (forall i :: 0 <= i < |ring| ==> ring[i] in next && next[ring[i]] == Succ(ring, i))
  }

  function Insert(ring: seq<nat>, i: nat, b: nat): (r: seq<nat>)
    requires i < |ring|
    ensures |r| == |ring| + 1
    ensures forall k :: 0 <= k < |r| ==> r[k] == if k <= i then ring[k] else if k == i + 1 then b else ring[k - 1]
  {
    ring[..i + 1] + [b] + ring[i + 1..]
  }

  function Remove(ring: seq<nat>, i: nat): (r: seq<nat>)
    requires i < |ring|
    ensures |r| == |ring| - 1
    ensures forall k :: 0 <= k < |r| ==> r[k] == if k < i then ring[k] else ring[k + 1]
  {
    ring[..i] + ring[i + 1..]
  }

  predicate Distinct(s: seq<nat>) { forall i, j :: 0 <= i < j < |s| ==> s[i] != s[j] }

  lemma InsertDistinct(ring: seq<nat>, i: nat, b: nat)
    requires Distinct(ring) && i < |ring| && b !in ring
    ensures Distinct(Insert(ring, i, b))
  {
  }

  lemma RemoveDistinct(ring: seq<nat>, i: nat)
    requires Distinct(ring) && i < |ring|
    ensures Distinct(Remove(ring, i))
  {
  }

  lemma InsertOk(next: map<nat, nat>, ring: seq<nat>, i: nat, b: nat)
    requires RingOk(next, ring) && i < |ring| && b !in ring
    ensures RingOk(next[b := Succ(ring, i)][ring[i] := b], Insert(ring, i, b))
  {
    InsertDistinct(ring, i, b);
    var r, next' := Insert(ring, i, b), next[b := Succ(ring, i)][ring[i] := b];
    forall k | 0 <= k < |r| ensures r[k] in next' && next'[r[k]] == Succ(r, k) {
      if k <= i { assert r[k] == ring[k]; } else if k > i + 1 { assert r[k] == ring[k - 1] && r[k] != ring[i]; }
    }
  }

  lemma RemoveOk(next: map<nat, nat>, ring: seq<nat>, i: nat)
    requires RingOk(next, ring) && i + 1 < |ring|
    ensures RingOk(next[ring[i] := Succ(ring, i + 1)], Remove(ring, i + 1))
  {
    RemoveDistinct(ring, i + 1);
    var r, next' := Remove(ring, i + 1), next[ring[i] := Succ(ring, i + 1)];
    forall k | 0 <= k < |r| ensures r[k] in next' && next'[r[k]] == Succ(r, k) {
      RemovedAt(ring, i, k);
    }
    hide Remove, Distinct;
  }

  lemma RemovedAt(ring: seq<nat>, i: nat, k: nat)
    requires Distinct(ring) && i + 1 < |ring| && k < |ring| - 1
    ensures var r := Remove(ring, i + 1);
      && r[k] == ring[if k <= i then k else k + 1] && (r[k] == ring[i] <==> k == i)
      && Succ(r, k) == if k == i then Succ(ring, i + 1) else Succ(ring, if k <= i then k else k + 1)
  {
  }

  /** Pointers of other blocks do not matter. */
  lemma RingApart(next: map<nat, nat>, next': map<nat, nat>, ring: seq<nat>)
    requires RingOk(next, ring) && forall a :: a in ring ==> a in next' && next'[a] == next[a]
    ensures RingOk(next', ring)
  {
  }

  /** Addresses rise around the ring, with one wrap, and no free block ends where the next begins. */
  ghost predicate Ordered(ring: seq<nat>, free: Blocks) { Rising(ring) && Gaps(ring, free) }

  ghost predicate Rising(ring: seq<nat>) { forall i, j :: 0 <= i < j < |ring| ==> ring[i] < ring[j] }

  ghost predicate Gaps(ring: seq<nat>, free: Blocks) {
    forall i, j :: 0 <= i && j == i + 1 && j < |ring| && ring[i] in free ==> ring[i] + free[ring[i]] < ring[j]
  }

  // ----- Where `free` stops --------------------------------------------------------------------

  /** The exit condition of the search loop of `free` (umalloc.c:30-32). */
  predicate StopsAt(p: nat, q: nat, bp: nat) {
    (bp > p && bp < q) || (p >= q && (bp > p || bp < q))
  }

  /** In whatever order, a ring with a block below `bp` has a place for it. */
  lemma {:induction false} SearchStops(ring: seq<nat>, bp: nat, k: nat)
    requires |ring| > 0 && ring[0] == BASE && bp > BASE && bp !in ring && k < |ring|
    requires forall i :: 0 <= i < |ring| ==> ring[i] >= BASE
    requires forall i :: 0 <= i < k ==> !StopsAt(ring[i], Succ(ring, i), bp)
    ensures ring[k] < bp
    ensures k == |ring| - 1 ==> StopsAt(ring[k], Succ(ring, k), bp)
  {
    if k > 0 {
      SearchStops(ring, bp, k - 1);
      assert !StopsAt(ring[k - 1], Succ(ring, k - 1), bp);
      assert ring[k] in ring;
    }
  }

  // ----- Cutting and joining blocks ------------------------------------------------------------

  lemma JoinCovers(m: Blocks, a: nat, b: nat, x: nat)
    requires a in m && b in m && a + m[a] == b && a != b
    ensures Covers(m, x) <==> Covers((m - {b})[a := m[a] + m[b]], x)
  {
    var m' := (m - {b})[a := m[a] + m[b]];
    if Covers(m, x) {
      var c :| c in m && c <= x < c + m[c];
      var d := if c == b then a else c;
      assert d in m' && d <= x < d + m'[d];
    }
    if Covers(m', x) {
      var c :| c in m' && c <= x < c + m'[c];
      var d := if c == a && x >= b then b else c;
      assert d in m && d <= x < d + m[d];
    }
  }

  lemma JoinBlocks(m: Blocks, a: nat, b: nat)
    requires Disjoint(m) && a in m && b in m && a + m[a] == b
    ensures Disjoint((m - {b})[a := m[a] + m[b]]) && SameMemory(m, (m - {b})[a := m[a] + m[b]])
  {
    forall x: nat ensures Covers(m, x) <==> Covers((m - {b})[a := m[a] + m[b]], x) {
      JoinCovers(m, a, b, x);
    }
    hide Covers;
  }

  lemma CutDisjoint(m: Blocks, a: nat, n: nat)
    requires Disjoint(m) && a in m && 0 < n < m[a]
    ensures a + n !in m && Disjoint(m[a := n][a + n := m[a] - n])
  {
    var m' := m[a := n][a + n := m[a] - n];
    forall c, d | c in m' && d in m' && c != d ensures c + m'[c] <= d || d + m'[d] <= c {
      assert c != a && c != a + n ==> c + m[c] <= a || a + m[a] <= c;
      assert d != a && d != a + n ==> d + m[d] <= a || a + m[a] <= d;
    }
  }

  lemma CutMap(m: Blocks, a: nat, n: nat)
    requires a in m && n < m[a] && a + n !in m
    ensures var m' := m[a := n][a + n := m[a] - n]; (m' - {a + n})[a := m'[a] + m'[a + n]] == m
  {
  }

  lemma CutBlock(m: Blocks, a: nat, n: nat)
    requires Disjoint(m) && a in m && 0 < n < m[a]
    ensures a + n !in m && Disjoint(m[a := n][a + n := m[a] - n]) && SameMemory(m, m[a := n][a + n := m[a] - n])
  {
    hide Covers, Disjoint;
    var m' := m[a := n][a + n := m[a] - n];
    CutDisjoint(m, a, n);
    CutMap(m, a, n);
    forall x: nat ensures Covers(m', x) <==> Covers(m, x) {
      JoinCovers(m', a, a + n, x);
    }
  }

  // ----- Returning a block ---------------------------------------------------------------------

  /** The free blocks after block `bp` of `n` units came back between `p` and `q`, joined with the
      one that begins where it ends and the one that ends where it begins. */
  function Joined(free: Blocks, p: nat, q: nat, bp: nat, n: nat): Blocks {
    var right, left := q in free && bp + n == q, p in free && p + free[p] == bp;
    var rest, m := if right then free - {q} else free, if right then n + free[q] else n;
    if left && p in rest then rest[p := rest[p] + m] else rest[bp := m]
  }

  lemma JoinRightMap(free: Blocks, alloc: Blocks, q: nat, bp: nat)
    requires free.Keys !! alloc.Keys && bp in alloc && q in free
    ensures (free - {q})[bp := alloc[bp] + free[q]] + (alloc - {bp})
            == ((free + alloc) - {q})[bp := (free + alloc)[bp] + (free + alloc)[q]]
  {
  }

  lemma JoinRight(free: Blocks, alloc: Blocks, q: nat, bp: nat)
    requires Disjoint(free + alloc) && free.Keys !! alloc.Keys && bp in alloc && q in free && bp + alloc[bp] == q
    ensures var f := (free - {q})[bp := alloc[bp] + free[q]];
      Disjoint(f + (alloc - {bp})) && SameMemory(free + alloc, f + (alloc - {bp}))
  {
    hide Disjoint, SameMemory;
    var f := (free - {q})[bp := alloc[bp] + free[q]];
    JoinBlocks(free + alloc, bp, q);
    JoinRightMap(free, alloc, q, bp);
  }

  lemma JustMoved(free: Blocks, alloc: Blocks, bp: nat)
    requires Disjoint(free + alloc) && free.Keys !! alloc.Keys && bp in alloc
    ensures var f := free[bp := alloc[bp]];
      Disjoint(f + (alloc - {bp})) && SameMemory(free + alloc, f + (alloc - {bp}))
  {
    assert free[bp := alloc[bp]] + (alloc - {bp}) == free + alloc;
  }

  lemma JoinLeftMap(free: Blocks, alloc: Blocks, p: nat, bp: nat)
    requires free.Keys !! alloc.Keys && p in free && bp in free && p != bp
    ensures (free - {bp})[p := free[p] + free[bp]] + alloc
            == ((free + alloc) - {bp})[p := (free + alloc)[p] + (free + alloc)[bp]]
  {
  }

  lemma JoinLeft(free: Blocks, alloc: Blocks, p: nat, bp: nat)
    requires Disjoint(free + alloc) && free.Keys !! alloc.Keys && p in free && bp in free && p + free[p] == bp
    requires p != bp
    ensures var f := (free - {bp})[p := free[p] + free[bp]];
      Disjoint(f + alloc) && SameMemory(free + alloc, f + alloc)
  {
    hide Disjoint, SameMemory;
    JoinBlocks(free + alloc, p, bp);
    JoinLeftMap(free, alloc, p, bp);
  }

  lemma SameMemoryTrans(a: Blocks, b: Blocks, c: Blocks)
    requires SameMemory(a, b) && SameMemory(b, c)
    ensures SameMemory(a, c)
  {
    hide Covers;
  }

  /** Joining keeps blocks apart and the memory the same. */
  lemma JoinedOk(free: Blocks, alloc: Blocks, p: nat, q: nat, bp: nat)
    requires Disjoint(free + alloc) && free.Keys !! alloc.Keys && bp in alloc && (p in free ==> p != q)
    ensures var f := Joined(free, p, q, bp, alloc[bp]);
      && Disjoint(f + (alloc - {bp})) && SameMemory(free + alloc, f + (alloc - {bp}))
      && f.Keys !! (alloc - {bp}).Keys
  {
    hide Disjoint, SameMemory;
    var n := alloc[bp];
    var right := q in free && bp + n == q;
    var f1 := if right then (free - {q})[bp := n + free[q]] else free[bp := n];
    if right { JoinRight(free, alloc, q, bp); } else { JustMoved(free, alloc, bp); }
    if p in free && p + free[p] == bp {
      JoinLeft(f1, alloc - {bp}, p, bp);
      var rest := if right then free - {q} else free;
      assert (f1 - {bp})[p := f1[p] + f1[bp]] == rest[p := rest[p] + f1[bp]];
      SameMemoryTrans(free + alloc, f1 + (alloc - {bp}), Joined(free, p, q, bp, n) + (alloc - {bp}));
    }
  }

  /** The block that came back lies within one free block. */
  lemma JoinedHolds(free: Blocks, p: nat, q: nat, bp: nat, n: nat)
    requires p in free ==> p != q
    ensures var f := Joined(free, p, q, bp, n);
      exists a :: a in f && a <= bp && bp + n <= a + f[a] && (a == p || a == bp)
  {
    var f := Joined(free, p, q, bp, n);
    var a := if p in free && p + free[p] == bp then p else bp;
    assert a in f && a <= bp && bp + n <= a + f[a];
  }

  /** The ring after the same step. */
  function JoinedRing(free: Blocks, ring: seq<nat>, k: nat, bp: nat, n: nat): seq<nat>
    requires k < |ring|
  {
    var p, q := ring[k], Succ(ring, k);
    var right, left := q in free && bp + n == q, p in free && p + free[p] == bp;
    var rest := if right && k + 1 < |ring| then Remove(ring, k + 1) else ring;
    if left then rest else if k < |rest| then Insert(rest, k, bp) else rest
  }

  lemma GapInsert(ring: seq<nat>, free: Blocks, k: nat, bp: nat, m: nat)
    requires Rising(ring) && Gaps(ring, free) && k < |ring| && ring[k] < bp && bp !in ring
    requires ring[k] in free ==> ring[k] + free[ring[k]] < bp
    requires k + 1 < |ring| ==> bp + m < ring[k + 1]
    ensures Rising(Insert(ring, k, bp)) && Gaps(Insert(ring, k, bp), free[bp := m])
  {
  }

  lemma GapGrow(ring: seq<nat>, free: Blocks, k: nat, m: nat)
    requires Rising(ring) && Gaps(ring, free) && k < |ring|
    requires k + 1 < |ring| ==> ring[k] + m < ring[k + 1]
    ensures Gaps(ring, free[ring[k] := m])
  {
  }

  lemma GapRemove(ring: seq<nat>, free: Blocks, k: nat)
    requires Rising(ring) && Gaps(ring, free) && k + 1 < |ring| && (k + 2 < |ring| ==> ring[k + 1] in free)
    requires forall a :: a in free ==> free[a] > 0
    ensures Rising(Remove(ring, k + 1)) && Gaps(Remove(ring, k + 1), free - {ring[k + 1]})
    ensures k + 2 < |ring| ==> ring[k + 1] + free[ring[k + 1]] < Remove(ring, k + 1)[k + 1]
  {
    var r := Remove(ring, k + 1);
    forall i, j | 0 <= i && j == i + 1 && j < |r| && r[i] in free - {ring[k + 1]} ensures r[i] + free[r[i]] < r[j] {
      if i < k { assert r[i] == ring[i] && r[j] == ring[j]; }
      else if i == k {
        assert r[i] == ring[k] && r[j] == ring[k + 2] && ring[k] + free[ring[k]] < ring[k + 1] < ring[k + 2];
      }
      else { assert r[i] == ring[i + 1] && r[j] == ring[j + 1]; }
    }
  }

  lemma JoinFacts(free: Blocks, alloc: Blocks, p: nat, q: nat, bp: nat)
    requires Disjoint(free + alloc) && free.Keys !! alloc.Keys && bp in alloc && p < bp
    ensures bp > BASE && alloc[bp] > 0 && forall a :: a in free ==> free[a] > 0
    ensures p in free ==> p + free[p] <= bp
    ensures q in free && bp < q ==> bp + alloc[bp] <= q
  {
    var all := free + alloc;
    assert bp in all && all[bp] == alloc[bp];
    assert forall a :: a in free ==> a in all && all[a] == free[a];
  }

  /** Taking the right neighbour out of the ring leaves room for the two together. */
  lemma RightStage(free: Blocks, ring: seq<nat>, k: nat, bp: nat, n: nat)
    requires Rising(ring) && Gaps(ring, free) && k + 1 < |ring| && bp !in ring
    requires forall a :: a in ring ==> a == BASE || a in free
    requires ring[0] == BASE && ring[k + 1] in free && bp + n == ring[k + 1]
    requires forall a :: a in free ==> free[a] > 0
    ensures var ring1, free1 := Remove(ring, k + 1), free - {ring[k + 1]};
      && Rising(ring1) && Gaps(ring1, free1) && |ring1| == |ring| - 1 && ring1[k] == ring[k] && bp !in ring1
      && (k + 1 < |ring1| ==> bp + n + free[ring[k + 1]] < ring1[k + 1])
      && (ring[k] in free1 <==> ring[k] in free)
  {
    assert k + 2 < |ring| ==> ring[k + 1] in free;
    GapRemove(ring, free, k);
    RemoveShape(ring, k + 1);
    assert ring[k] < ring[k + 1];
    hide Rising, Gaps, Remove;
  }

  /** In an address-ordered ring, `free` keeps the order and leaves no two free blocks touching. */
  lemma OrderedJoin(free: Blocks, alloc: Blocks, ring: seq<nat>, k: nat, bp: nat)
    requires Ordered(ring, free) && Disjoint(free + alloc) && free.Keys !! alloc.Keys && bp in alloc
    requires k < |ring| && ring[0] == BASE && bp !in ring && StopsAt(ring[k], Succ(ring, k), bp)
    requires forall a :: a in ring <==> a == BASE || a in free
    requires BASE !in free
    ensures Ordered(JoinedRing(free, ring, k, bp, alloc[bp]), Joined(free, ring[k], Succ(ring, k), bp, alloc[bp]))
  {
    var n, p, q := alloc[bp], ring[k], Succ(ring, k);
    BaseFirst(ring, k, free, alloc, bp);
    JoinFacts(free, alloc, p, q, bp);
    hide Disjoint, Ordered, Rising, Gaps, StopsAt, Insert, Remove, Joined, JoinedRing;
    assert Rising(ring) && Gaps(ring, free) by { OrderedParts(ring, free); }
    if q in free && bp + n == q {
      OrderedRight(free, ring, k, bp, n);
    } else {
      OrderedLeft(free, ring, k, bp, n);
    }
  }

  lemma OrderedParts(ring: seq<nat>, free: Blocks)
    requires Ordered(ring, free)
    ensures Rising(ring) && Gaps(ring, free)
  {
  }

  lemma OrderedRight(free: Blocks, ring: seq<nat>, k: nat, bp: nat, n: nat)
    requires Rising(ring) && Gaps(ring, free) && k + 1 < |ring| && bp !in ring && ring[k] < bp
    requires forall a :: a in ring ==> a == BASE || a in free
    requires ring[0] == BASE && ring[k + 1] in free && bp + n == ring[k + 1]
    requires forall a :: a in free ==> free[a] > 0
    requires ring[k] in free ==> ring[k] + free[ring[k]] <= bp
    ensures Ordered(JoinedRing(free, ring, k, bp, n), Joined(free, ring[k], Succ(ring, k), bp, n))
  {
    hide Rising, Gaps, Ordered, Insert, Remove;
    RightStage(free, ring, k, bp, n);
    var f1, r1 := free - {ring[k + 1]}, Remove(ring, k + 1);
    LeftStage(f1, r1, k, bp, n + free[ring[k + 1]]);
  }

  lemma OrderedLeft(free: Blocks, ring: seq<nat>, k: nat, bp: nat, n: nat)
    requires Rising(ring) && Gaps(ring, free) && k < |ring| && bp !in ring && ring[k] < bp
    requires k + 1 < |ring| ==> bp + n <= ring[k + 1]
    requires !(Succ(ring, k) in free && bp + n == Succ(ring, k))
    requires k + 1 < |ring| ==> ring[k + 1] in free
    requires ring[k] in free ==> ring[k] + free[ring[k]] <= bp
    ensures Ordered(JoinedRing(free, ring, k, bp, n), Joined(free, ring[k], Succ(ring, k), bp, n))
  {
    hide Rising, Gaps, Ordered, Insert, Remove;
    LeftStage(free, ring, k, bp, n);
  }

  lemma LeftStage(free: Blocks, ring: seq<nat>, k: nat, bp: nat, m: nat)
    requires Rising(ring) && Gaps(ring, free) && k < |ring| && bp !in ring && ring[k] < bp
    requires k + 1 < |ring| ==> bp + m < ring[k + 1]
    requires ring[k] in free ==> ring[k] + free[ring[k]] <= bp
    ensures ring[k] in free && ring[k] + free[ring[k]] == bp ==> Ordered(ring, free[ring[k] := free[ring[k]] + m])
    ensures !(ring[k] in free && ring[k] + free[ring[k]] == bp) ==> Ordered(Insert(ring, k, bp), free[bp := m])
  {
    hide Rising, Gaps, Insert;
    if ring[k] in free && ring[k] + free[ring[k]] == bp {
      GapGrow(ring, free, k, free[ring[k]] + m);
    } else {
      GapInsert(ring, free, k, bp, m);
    }
  }

  lemma BaseFirst(ring: seq<nat>, k: nat, free: Blocks, alloc: Blocks, bp: nat)
    requires Rising(ring) && k < |ring| && ring[0] == BASE && StopsAt(ring[k], Succ(ring, k), bp)
    requires Disjoint(free + alloc) && bp in alloc
    ensures ring[k] < bp && (k + 1 < |ring| ==> bp < ring[k + 1])
  {
    assert bp in free + alloc;
  }

  lemma RemoveShape(ring: seq<nat>, i: nat)
    requires 0 < i < |ring|
    ensures |Remove(ring, i)| == |ring| - 1 && Remove(ring, i)[i - 1] == ring[i - 1]
    ensures forall x :: x in Remove(ring, i) ==> x in ring
  {
  }
}
