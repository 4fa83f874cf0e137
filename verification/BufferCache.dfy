/** The locked buffer cache of lab10/kernel/bio.c: buffers on a doubly linked list in order of release.

    Buffer `b` of `bcache.buf` is number b + 1 and `bcache.head` is number 0.  Each method is one
    critical section of `bcache.lock` or one operation on a buffer's sleep lock, so any
    interleaving of processes is a sequence of calls. */
module BufferCache {

  const HEAD: nat := 0

  /** From `head.next` to `head.prev`, with `head` at both ends. */
  function Nodes(order: seq<nat>): (r: seq<nat>)
    ensures |r| == |order| + 2 && r[0] == HEAD && r[|order| + 1] == HEAD
    ensures forall i :: 0 < i <= |order| ==> r[i] == order[i - 1]
  {
    [HEAD] + order + [HEAD]
  }

  ghost predicate Linked(prev: seq<nat>, next: seq<nat>, nodes: seq<nat>) {
    && |prev| == |next| && (forall i :: 0 <= i < |nodes| ==> nodes[i] < |next|)
    && forall i, j :: 0 <= i && j == i + 1 && j < |nodes| ==> next[nodes[i]] == nodes[j] && prev[nodes[j]] == nodes[i]
  }

  /** The list holds every buffer once. */
  ghost predicate Ring(prev: seq<nat>, next: seq<nat>, order: seq<nat>) {
    && Linked(prev, next, Nodes(order))
    && (forall i, j :: 0 <= i < j < |order| ==> order[i] != order[j])
    && (forall i :: 0 <= i < |order| ==> order[i] != HEAD)
    && (forall b :: 0 < b < |next| ==> b in order)
  }

  function Without(order: seq<nat>, k: nat): (r: seq<nat>)
    requires k < |order|
    ensures |r| == |order| - 1
    ensures forall i :: 0 <= i < |r| ==> r[i] == if i < k then order[i] else order[i + 1]
  {
    order[..k] + order[k + 1..]
  }

  function ToFront(order: seq<nat>, k: nat): (r: seq<nat>)
    requires k < |order|
    ensures |r| == |order| && r[0] == order[k]
    ensures forall i :: 0 < i < |r| ==> r[i] == if i <= k then order[i - 1] else order[i]
  {
    [order[k]] + Without(order, k)
  }

  /** The first two writes of `brelse` take a buffer off the list. */
  lemma UnlinkOk(prev: seq<nat>, next: seq<nat>, order: seq<nat>, k: nat)
    requires Ring(prev, next, order) && k < |order|
    ensures var b := order[k];
      b < |next| && next[b] < |prev| && prev[b] < |next|
      && Linked(prev[next[b] := prev[b]], next[prev[b] := next[b]], Nodes(Without(order, k)))
  {
    var b, nodes, rest := order[k], Nodes(order), Nodes(Without(order, k));
    assert nodes[k + 1] == b;
    var p, n := nodes[k], nodes[k + 2];
    assert next[b] == n && prev[b] == p;
    var prev', next' := prev[n := p], next[p := n];
    forall i | 0 <= i < |rest| ensures rest[i] == (if i <= k then nodes[i] else nodes[i + 1]) && rest[i] < |next| {
    }
    forall i, j | 0 <= i && j == i + 1 && j < |rest| ensures next'[rest[i]] == rest[j] && prev'[rest[j]] == rest[i] {
      PlaceOnce(order, i, k, j);
      if i < k { Neighbours(prev, next, nodes, i); } else if i > k { Neighbours(prev, next, nodes, i + 1); }
    }
  }

  lemma Neighbours(prev: seq<nat>, next: seq<nat>, nodes: seq<nat>, i: nat)
    requires Linked(prev, next, nodes) && i + 1 < |nodes|
    ensures nodes[i] < |next| && nodes[i + 1] < |prev|
    ensures next[nodes[i]] == nodes[i + 1] && prev[nodes[i + 1]] == nodes[i]
  {
  }

  /** A buffer, and each end, stands in one place. */
  lemma PlaceOnce(order: seq<nat>, i: nat, k: nat, j: nat)
    requires forall i, j :: 0 <= i < j < |order| ==> order[i] != order[j]
    requires forall i :: 0 <= i < |order| ==> order[i] != HEAD
    requires k < |order| && j == i + 1 && j < |order| + 1
    ensures var nodes, rest := Nodes(order), Nodes(Without(order, k));
      && (rest[i] == nodes[k] <==> i == k) && (rest[j] == nodes[k + 2] <==> i == k)
  {
  }

  /** The other four put it at the front. */
  lemma LinkOk(prev: seq<nat>, next: seq<nat>, order: seq<nat>, b: nat)
    requires Linked(prev, next, Nodes(order)) && b < |next| && b !in order && b != HEAD && HEAD !in order
    requires forall i, j :: 0 <= i < j < |order| ==> order[i] != order[j]
    ensures HEAD < |next| && next[HEAD] < |prev|
      && Linked(prev[b := HEAD][next[HEAD] := b], next[b := next[HEAD]][HEAD := b], Nodes([b] + order))
  {
    var nodes, more := Nodes(order), Nodes([b] + order);
    assert next[HEAD] == nodes[1];
    var prev', next' := prev[b := HEAD][nodes[1] := b], next[b := nodes[1]][HEAD := b];
    forall i | 0 < i < |more| ensures more[i] == if i == 1 then b else nodes[i - 1] {
    }
    forall i, j | 0 <= i && j == i + 1 && j < |more| ensures next'[more[i]] == more[j] && prev'[more[j]] == more[i] {
    }
  }

  lemma RingUnlinked(prev: seq<nat>, next: seq<nat>, order: seq<nat>, k: nat)
    requires Ring(prev, next, order) && k < |order|
    ensures var r := Without(order, k);
      && (forall i, j :: 0 <= i < j < |r| ==> r[i] != r[j]) && HEAD !in r && order[k] !in r && order[k] != HEAD
      && [order[k]] + r == ToFront(order, k)
      && (forall b :: 0 < b < |next| ==> b in ToFront(order, k))
      && (forall i, j :: 0 <= i < j < |order| ==> ToFront(order, k)[i] != ToFront(order, k)[j])
      && (forall i :: 0 <= i < |order| ==> ToFront(order, k)[i] != HEAD)
  {
    var r, f := Without(order, k), ToFront(order, k);
    forall b | 0 < b < |next| ensures b in f {
      assert b in order;
      var i :| 0 <= i < |order| && order[i] == b;
      assert f[if i == k then 0 else if i < k then i + 1 else i] == b;
    }
  }

  /** All six pointer writes together. */
  lemma MoveOk(prev: seq<nat>, next: seq<nat>, order: seq<nat>, k: nat)
    requires Ring(prev, next, order) && k < |order|
    ensures var b := order[k];
      b < |next| && next[b] < |prev| && prev[b] < |next| && b != HEAD && HEAD < |next|
    ensures var b := order[k];
      var prev1, next1 := prev[next[b] := prev[b]], next[prev[b] := next[b]];
      next1[HEAD] < |prev|
      && Ring(prev1[b := HEAD][next1[HEAD] := b], next1[b := next1[HEAD]][HEAD := b], ToFront(order, k))
  {
    var b := order[k];
    UnlinkOk(prev, next, order, k);
    RingUnlinked(prev, next, order, k);
    LinkOk(prev[next[b] := prev[b]], next[prev[b] := next[b]], Without(order, k), b);
    hide Linked, Without, ToFront, Nodes;
  }

  // ----- Accounts ------------------------------------------------------------------------------

  /** At most one buffer holds a block of a real device. */
  ghost predicate Unique(dev: seq<nat>, blockno: seq<nat>) {
    |dev| == |blockno| && forall a, b :: 0 < a < b < |dev| && dev[a] != 0 && dev[a] == dev[b] ==>
      blockno[a] != blockno[b]
  }

  ghost predicate Holds(dev: seq<nat>, blockno: seq<nat>, d: nat, n: nat, b: nat) {
    |dev| == |blockno| && 0 < b < |dev| && dev[b] == d && blockno[b] == n
  }

  ghost predicate Cached(dev: seq<nat>, blockno: seq<nat>, d: nat, n: nat) {
    exists b: nat :: Holds(dev, blockno, d, n, b)
  }

  lemma FirstRing(n: nat, prev: seq<nat>, next: seq<nat>, order: seq<nat>)
    requires Linked(prev, next, Nodes(order)) && |next| == n + 1 && |order| == n
    requires forall i :: 0 <= i < n ==> order[i] == n - i
    ensures Ring(prev, next, order)
  {
    hide Linked;
    forall c | 0 < c < |next| ensures c in order {
      assert order[n - c] == c;
    }
  }

  lemma FirstAccounts(n: nat, dev: seq<nat>, blockno: seq<nat>, refcnt: seq<nat>, order: seq<nat>)
    requires |dev| == |blockno| == |refcnt| == n + 1 && |order| == n && forall i :: 0 <= i < n ==> order[i] == n - i
    requires forall b :: 0 <= b <= n ==> dev[b] == 0 && refcnt[b] == 0
    ensures Unique(dev, blockno) && Counted(refcnt, seq(n + 1, i => 0), seq(n + 1, i => 0))
    ensures Recent(order, seq(n + 1, i => i), n + 1)
  {
  }

  lemma UniqueFill(dev: seq<nat>, blockno: seq<nat>, d: nat, n: nat, b: nat)
    requires Unique(dev, blockno) && !Cached(dev, blockno, d, n) && 0 < b < |dev|
    ensures Unique(dev[b := d], blockno[b := n])
  {
    forall c | 0 < c < |dev| ensures !(dev[c] == d && blockno[c] == n) {
      assert !Holds(dev, blockno, d, n, c);
    }
  }

  /** `refcnt` is the number of references handed out by `bget` and not returned, plus the pins. */
  ghost predicate Counted(refcnt: seq<nat>, refs: seq<nat>, pins: seq<nat>) {
    |refcnt| == |refs| == |pins| && forall b :: 0 < b < |refcnt| ==> refcnt[b] == refs[b] + pins[b]
  }

  lemma CountedDrop(refcnt: seq<nat>, refs: seq<nat>, pins: seq<nat>, b: nat)
    requires Counted(refcnt, refs, pins) && 0 < b < |refs| && refs[b] > 0
    ensures b < |refcnt| == |refs| && refcnt[b] > 0 && Counted(refcnt[b := refcnt[b] - 1], refs[b := refs[b] - 1], pins)
  {
  }

  lemma PlaceOf(prev: seq<nat>, next: seq<nat>, order: seq<nat>, b: nat) returns (k: nat)
    requires Ring(prev, next, order) && 0 < b < |next|
    ensures k < |order| && order[k] == b && forall i, j :: 0 <= i < j < |order| ==> order[i] != order[j]
  {
    assert b in order;
    k :| k < |order| && order[k] == b;
  }

  /** The list is in order of last release, most recent first. */
  ghost predicate Recent(order: seq<nat>, stamp: seq<nat>, clock: nat) {
    && (forall i :: 0 <= i < |order| ==> order[i] < |stamp| && stamp[order[i]] < clock)
    && (forall i, j :: 0 <= i < j < |order| ==>
          order[i] < |stamp| && order[j] < |stamp| && stamp[order[j]] < stamp[order[i]])
  }

  lemma RecentFront(order: seq<nat>, stamp: seq<nat>, clock: nat, k: nat)
    requires Recent(order, stamp, clock) && k < |order| && forall i, j :: 0 <= i < j < |order| ==> order[i] != order[j]
    ensures Recent(ToFront(order, k), stamp[order[k] := clock], clock + 1)
  {
    var f := ToFront(order, k);
    forall i | 0 < i < |f| ensures f[i] != order[k] && f[i] < |stamp| && stamp[f[i]] < clock {
    }
  }

  /** Of the buffers nobody uses, `b` is the one whose last release is longest ago. */
  ghost predicate LeastRecent(refcnt: seq<nat>, stamp: seq<nat>, b: nat) {
    && 0 < b < |refcnt| && |stamp| == |refcnt| && refcnt[b] == 0
    && forall c :: 0 < c < |refcnt| && refcnt[c] == 0 ==> stamp[b] <= stamp[c]
  }

  lemma LastIsLeast(prev: seq<nat>, next: seq<nat>, order: seq<nat>, refcnt: seq<nat>, stamp: seq<nat>, clock: nat,
                    k: nat)
    requires Ring(prev, next, order) && Recent(order, stamp, clock) && |refcnt| == |next| == |stamp| && k < |order|
    requires order[k] < |refcnt| && refcnt[order[k]] == 0
    requires forall i :: k < i < |order| && order[i] < |refcnt| ==> refcnt[order[i]] > 0
    ensures LeastRecent(refcnt, stamp, order[k])
  {
    forall c | 0 < c < |refcnt| && refcnt[c] == 0 ensures stamp[order[k]] <= stamp[c] {
      assert c in order;
      var i :| 0 <= i < |order| && order[i] == c;
    }
  }

  // ----- The cache -----------------------------------------------------------------------------

  class Cache {
    const prev: array<nat>
    const next: array<nat>
    const dev: array<nat>
    const blockno: array<nat>
    const refcnt: array<nat>
    const valid: array<bool>
    /** Which process holds the sleep lock, -1 for none. */
    const owner: array<int>

    ghost var order: seq<nat>
    ghost var refs: seq<nat>
    ghost var pins: seq<nat>
    ghost var stamp: seq<nat>
    ghost var clock: nat

    ghost predicate Valid()
      reads this, prev, next, dev, blockno, refcnt, valid, owner
    {
      && prev != next && prev != dev && prev != blockno && prev != refcnt
      && next != dev && next != blockno && next != refcnt
      && dev != blockno && dev != refcnt && blockno != refcnt
      && prev.Length == next.Length == dev.Length == blockno.Length
         == refcnt.Length == valid.Length == owner.Length == |stamp|
      && Ring(prev[..], next[..], order)
      && Unique(dev[..], blockno[..])
      && Counted(refcnt[..], refs, pins)
      && Recent(order, stamp, clock)
      && (forall b :: 0 < b < owner.Length && owner[b] >= 0 ==> refs[b] > 0)
    }

    /** `binit` (bio.c:36-54) puts every buffer in front of the ones before it. */
    constructor Binit(n: nat)
      ensures Valid() && refcnt.Length == n + 1 && refs == seq(n + 1, i => 0) && pins == refs
      ensures fresh(prev) && fresh(next) && fresh(dev) && fresh(blockno) && fresh(refcnt) && fresh(valid)
      ensures fresh(owner)
      ensures forall b :: 0 < b <= n ==> dev[b] == 0 && blockno[b] == 0 && !valid[b] && owner[b] == -1
    {
      prev, next := new nat[n + 1](i => HEAD), new nat[n + 1](i => HEAD);
      dev, blockno, refcnt := new nat[n + 1](i => 0), new nat[n + 1](i => 0), new nat[n + 1](i => 0);
      valid, owner := new bool[n + 1](i => false), new int[n + 1](i => -1);
      order, refs, pins := [], seq(n + 1, i => 0), seq(n + 1, i => 0);
      stamp, clock := seq(n + 1, i => i), n + 1;
      new;
      hide Linked, Ring, Unique, Counted, Recent;
      LinkAll(n);
      FirstRing(n, prev[..], next[..], order);
      FirstAccounts(n, dev[..], blockno[..], refcnt[..], order);
    }

    /** The loop of `binit` (bio.c:44-53). */
    method LinkAll(n: nat)
      requires prev != next && prev.Length == next.Length == n + 1 && order == [] && prev[HEAD] == HEAD
      requires next[HEAD] == HEAD
      modifies this`order, prev, next
      ensures Linked(prev[..], next[..], Nodes(order))
      ensures |order| == n && forall i :: 0 <= i < n ==> order[i] == n - i
    {
      assert Nodes(order) == [HEAD, HEAD];
      assert Linked(prev[..], next[..], Nodes(order));
      hide Linked, Nodes;
      var b := 1;
      while b <= n
        invariant 1 <= b <= n + 1 && |order| == b - 1
        invariant Linked(prev[..], next[..], Nodes(order))
        invariant forall i :: 0 <= i < |order| ==> order[i] == |order| - i
      {
        PushFront(b);
        order := [b] + order;
        b := b + 1;
      }
    }

    /** A new buffer goes in front (bio.c:47-51). */
    method PushFront(b: nat)
      requires prev != next && prev.Length == next.Length && Linked(prev[..], next[..], Nodes(order))
      requires b < next.Length && b !in order && b != HEAD && HEAD !in order
      requires forall i, j :: 0 <= i < j < |order| ==> order[i] != order[j]
      modifies prev, next
      ensures Linked(prev[..], next[..], Nodes([b] + order))
    {
      ghost var p0: seq<nat>, n0: seq<nat> := prev[..], next[..];
      LinkOk(p0, n0, order, b);
      hide Linked, Nodes;
      next[b] := next[HEAD];
      prev[b] := HEAD;
      prev[next[HEAD]] := b;
      next[HEAD] := b;
      assert next[..] == n0[b := n0[HEAD]][HEAD := b];
      assert prev[..] == p0[b := HEAD][n0[HEAD] := b];
    }

    /** `bget` (bio.c:59-90); 0 where the source panics. */
    method Bget(d: nat, n: nat) returns (b: nat)
      requires Valid()
      modifies this`refs, refcnt, dev, blockno, valid
      ensures Valid()
      ensures b != 0 ==> Holds(dev[..], blockno[..], d, n, b)
      ensures old(Cached(dev[..], blockno[..], d, n)) ==> b != 0 && old(Holds(dev[..], blockno[..], d, n, b))
      ensures old(Cached(dev[..], blockno[..], d, n)) ==> dev[..] == old(dev[..]) && blockno[..] == old(blockno[..])
      ensures old(Cached(dev[..], blockno[..], d, n)) ==>
          valid[..] == old(valid[..]) && refs == old(refs)[b := old(refs)[b] + 1]
      ensures !old(Cached(dev[..], blockno[..], d, n)) && b != 0 ==>
        LeastRecent(old(refcnt[..]), stamp, b) && refs == old(refs)[b := 1] && old(refs)[b] == 0 && pins[b] == 0
        && dev[..] == old(dev[..])[b := d] && blockno[..] == old(blockno[..])[b := n]
        && valid[..] == old(valid[..])[b := false]
      ensures b == 0 ==> refs == old(refs) && dev[..] == old(dev[..]) && blockno[..] == old(blockno[..])
      ensures b == 0 ==> valid[..] == old(valid[..])
      ensures b == 0 ==> forall c :: 0 < c < refcnt.Length ==> refcnt[c] > 0
    {
      b := Lookup(d, n);
      if b != HEAD {
        refcnt[b] := refcnt[b] + 1;
        refs := refs[b := refs[b] + 1];
        return;
      }
      b := Oldest();
      if b != HEAD {
        Recycle(b, d, n);
      }
    }

    /** An unused buffer gets a new block (bio.c:80-84). */
    method Recycle(b: nat, d: nat, n: nat)
      requires Valid() && 0 < b < refcnt.Length && refcnt[b] == 0 && !Cached(dev[..], blockno[..], d, n)
      modifies this`refs, refcnt, dev, blockno, valid
      ensures Valid() && old(refs)[b] == 0 && pins[b] == 0 && refs == old(refs)[b := 1]
      ensures dev[..] == old(dev[..])[b := d] && blockno[..] == old(blockno[..])[b := n]
      ensures valid[..] == old(valid[..])[b := false]
    {
      hide Ring, Recent, Unique;
      UniqueFill(dev[..], blockno[..], d, n, b);
      dev[b] := d;
      blockno[b] := n;
      valid[b] := false;
      refcnt[b] := 1;
      refs := refs[b := 1];
      assert dev[..] == old(dev[..])[b := d] && blockno[..] == old(blockno[..])[b := n];
    }

    /** The first loop of `bget` (bio.c:67-74). */
    method Lookup(d: nat, n: nat) returns (b: nat)
      requires Valid()
      ensures b == HEAD <==> !Cached(dev[..], blockno[..], d, n)
      ensures b != HEAD ==> Holds(dev[..], blockno[..], d, n, b)
    {
      ghost var nodes := Nodes(order);
      ghost var i: nat := 0;
      Neighbours(prev[..], next[..], nodes, 0);
      b := next[HEAD];
      while b != HEAD
        invariant i <= |order| && b == nodes[i + 1] && b < dev.Length && b < next.Length
        invariant forall j :: 0 <= j < i ==> !Holds(dev[..], blockno[..], d, n, order[j])
        decreases |order| - i
      {
        if dev[b] == d && blockno[b] == n {
          assert Holds(dev[..], blockno[..], d, n, b);
          return;
        }
        Neighbours(prev[..], next[..], nodes, i + 1);
        b := next[b];
        i := i + 1;
      }
      assert i == |order|;
      forall c: nat | 0 < c < dev.Length ensures !Holds(dev[..], blockno[..], d, n, c) {
        assert c in order;
      }
    }

    /** The second loop, from the other end (bio.c:78-88). */
    method Oldest() returns (b: nat)
      requires Valid()
      ensures b != HEAD ==> LeastRecent(refcnt[..], stamp, b)
      ensures b == HEAD ==> forall c :: 0 < c < refcnt.Length ==> refcnt[c] > 0
    {
      ghost var nodes := Nodes(order);
      ghost var i: nat := |order|;
      Neighbours(prev[..], next[..], nodes, i);
      b := prev[HEAD];
      while b != HEAD
        invariant i <= |order| && b == nodes[i] && b < refcnt.Length && b < prev.Length
        invariant forall j :: i <= j < |order| && order[j] < refcnt.Length ==> refcnt[order[j]] > 0
        decreases i
      {
        if refcnt[b] == 0 {
          LastIsLeast(prev[..], next[..], order, refcnt[..], stamp, clock, i - 1);
          return;
        }
        Neighbours(prev[..], next[..], nodes, i - 1);
        b := prev[b];
        i := i - 1;
      }
      assert i == 0;
      forall c: nat | 0 < c < refcnt.Length ensures refcnt[c] > 0 {
        assert c in order;
      }
    }

    /** `bpin` (bio.c:140-145). */
    method Bpin(b: nat)
      requires Valid() && 0 < b < refcnt.Length
      modifies this`pins, refcnt
      ensures Valid() && pins == old(pins)[b := old(pins)[b] + 1]
    {
      refcnt[b] := refcnt[b] + 1;
      pins := pins[b := pins[b] + 1];
    }

    /** `bunpin` (bio.c:147-152): a buffer that falls to 0 keeps its place. */
    method Bunpin(b: nat)
      requires Valid() && 0 < b < refcnt.Length && pins[b] > 0
      modifies this`pins, refcnt
      ensures Valid() && pins == old(pins)[b := old(pins)[b] - 1]
    {
      refcnt[b] := refcnt[b] - 1;
      pins := pins[b := pins[b] - 1];
    }

    /** `acquiresleep` once the lock is free. */
    method AcquireSleep(b: nat, pid: nat)
      requires Valid() && 0 < b < owner.Length && owner[b] == -1 && refs[b] > 0
      modifies owner
      ensures Valid() && owner[..] == old(owner[..])[b := pid]
    {
      owner[b] := pid;
    }

    /** The first half of `brelse`: `releasesleep` (bio.c:120-123). */
    method ReleaseSleep(b: nat)
      requires Valid() && 0 < b < owner.Length && owner[b] >= 0
      modifies owner
      ensures Valid() && owner[..] == old(owner[..])[b := -1]
    {
      owner[b] := -1;
    }

    /** The pointer writes of `brelse` (bio.c:129-134). */
    method Relink(b: nat, ghost k: nat)
      requires prev != next && prev.Length == next.Length && Ring(prev[..], next[..], order) && k < |order|
      requires order[k] == b
      modifies prev, next
      ensures Ring(prev[..], next[..], ToFront(order, k))
    {
      hide Ring, ToFront;
      MoveOk(prev[..], next[..], order, k);
      ghost var p0: seq<nat>, n0: seq<nat> := prev[..], next[..];
      prev[next[b]] := prev[b];
      next[prev[b]] := next[b];
      ghost var p1: seq<nat>, n1: seq<nat> := prev[..], next[..];
      assert p1 == p0[n0[b] := p0[b]] && n1 == n0[p0[b] := n0[b]];
      next[b] := next[HEAD];
      prev[b] := HEAD;
      prev[next[HEAD]] := b;
      next[HEAD] := b;
      assert next[..] == n1[b := n1[HEAD]][HEAD := b];
      assert prev[..] == p1[b := HEAD][n1[HEAD] := b];
    }

    /** The second half (bio.c:125-137): the reference is returned, and an unused buffer moves to the front. */
    method Drop(b: nat)
      requires Valid() && 0 < b < refcnt.Length && b < |refs| && refs[b] > 0 && (owner[b] >= 0 ==> refs[b] > 1)
      modifies this`order, this`refs, this`stamp, this`clock, refcnt, prev, next
      ensures Valid() && refs == old(refs)[b := old(refs)[b] - 1]
      ensures refcnt[b] > 0 ==> order == old(order) && stamp == old(stamp) && clock == old(clock)
      ensures refcnt[b] == 0 ==> stamp == old(stamp)[b := old(clock)] && clock == old(clock) + 1
      ensures refcnt[b] == 0 ==>
          exists k: nat :: k < |old(order)| && old(order)[k] == b && order == ToFront(old(order), k)
    {
      hide Ring, Unique, Counted, Recent, ToFront;
      ghost var k := PlaceOf(prev[..], next[..], order, b);
      CountedDrop(refcnt[..], refs, pins, b);
      ghost var before := refcnt[..];
      refcnt[b] := refcnt[b] - 1;
      refs := refs[b := refs[b] - 1];
      assert refcnt[..] == before[b := before[b] - 1];
      if refcnt[b] == 0 {
        RecentFront(order, stamp, clock, k);
        Relink(b, k);
        assert refcnt[..] == before[b := before[b] - 1];
        assert dev[..] == old(dev[..]) && blockno[..] == old(blockno[..]);
        order, stamp, clock := ToFront(order, k), stamp[b := clock], clock + 1;
      }
    }
  }
}
