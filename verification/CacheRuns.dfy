/** Whole runs of the buffer cache: any interleaving of processes that get, lock, unlock, release and pin buffers. */
module CacheRuns {
  import opened BufferCache

  /** One critical section of some process; `pid` is the one that locks or unlocks. */
  datatype Op =
    | Get(d: nat, n: nat)
    | Lock(b: nat, pid: nat)
    | Unlock(b: nat, pid: nat)
    | Release(b: nat)
    | Pin(b: nat)
    | Unpin(b: nat)

  datatype Snap = Snap(dev: seq<nat>, blockno: seq<nat>, refs: seq<nat>, pins: seq<nat>, owner: seq<int>,
                       stamp: seq<nat>, clock: nat)

  ghost function Now(k: Cache): Snap
    reads k, k.dev, k.blockno, k.owner
  {
    Snap(k.dev[..], k.blockno[..], k.refs, k.pins, k.owner[..], k.stamp, k.clock)
  }

  ghost predicate SnapOk(s: Snap) {
    && Unique(s.dev, s.blockno) && |s.dev| == |s.refs| == |s.pins| == |s.owner| == |s.stamp|
    && (forall b :: 0 < b < |s.owner| && s.owner[b] >= 0 ==> s.refs[b] > 0)
    && (forall b :: 0 < b < |s.stamp| ==> s.stamp[b] < s.clock)
  }

  /** Some process has buffer `b` from `bget`, or it is pinned. */
  predicate Used(s: Snap, b: nat) { b < |s.refs| && b < |s.pins| && s.refs[b] + s.pins[b] > 0 }

  /** The sleep lock is free for a process that has the buffer, ... */
  predicate Locks(s: Snap, b: nat) { 0 < b < |s.owner| && b < |s.refs| && s.owner[b] == -1 && s.refs[b] > 0 }

  /** ... and the reference that is returned is not that of its holder. */
  predicate Releases(s: Snap, b: nat) {
    0 < b < |s.owner| && b < |s.refs| && s.refs[b] > 0 && (s.owner[b] >= 0 ==> s.refs[b] > 1)
  }

  /** The release after which nobody uses `b`. */
  predicate LastRelease(s: Snap, op: Op, b: nat) {
    op == Release(b) && Releases(s, b) && b < |s.pins| && s.refs[b] + s.pins[b] == 1
  }

  ghost predicate Stepped(s: Snap, op: Op, r: nat, t: Snap)
    requires SnapOk(s)
  {
    match op
    case Get(d, n) => Got(s, d, n, r, t)
    case Lock(b, pid) => t == if Locks(s, b) then s.(owner := s.owner[b := pid]) else s
    case Unlock(b, pid) =>
      t == if 0 < b < |s.owner| && s.owner[b] == pid then s.(owner := s.owner[b := -1]) else s
    case Release(b) =>
      if !Releases(s, b) then t == s
      else
        var s' := s.(refs := s.refs[b := s.refs[b] - 1]);
        t == if LastRelease(s, op, b) then s'.(stamp := s.stamp[b := s.clock], clock := s.clock + 1) else s'
    case Pin(b) => t == if 0 < b < |s.refs| && s.refs[b] > 0 then s.(pins := s.pins[b := s.pins[b] + 1]) else s
    case Unpin(b) => t == if 0 < b < |s.pins| && s.pins[b] > 0 then s.(pins := s.pins[b := s.pins[b] - 1]) else s
  }

  /** `bget` gives the buffer of the block, else of the unused buffers the one released longest ago, else none. */
  ghost predicate Got(s: Snap, d: nat, n: nat, r: nat, t: Snap)
    requires SnapOk(s)
  {
    if Cached(s.dev, s.blockno, d, n) then
      Holds(s.dev, s.blockno, d, n, r) && t == s.(refs := s.refs[r := s.refs[r] + 1])
    else if r != 0 then
      && r < |s.dev| && !Used(s, r) && (forall c :: 0 < c < |s.dev| && !Used(s, c) ==> s.stamp[r] <= s.stamp[c])
      && t == s.(dev := s.dev[r := d], blockno := s.blockno[r := n], refs := s.refs[r := 1])
    else
      t == s && forall c :: 0 < c < |s.dev| ==> Used(s, c)
  }

  lemma ValidSnap(k: Cache)
    requires k.Valid()
    ensures SnapOk(Now(k)) && k.refcnt.Length == |k.refs| == |k.pins| == k.dev.Length
    ensures k.dev.Length == k.owner.Length == k.blockno.Length
    ensures forall b :: 0 < b < k.refcnt.Length ==> k.refcnt[b] == k.refs[b] + k.pins[b]
  {
    forall b | 0 < b < |k.stamp| ensures k.stamp[b] < k.clock {
      assert b in k.order;
    }
  }

  method Exec(k: Cache, op: Op, refs: seq<nat>, pins: seq<nat>)
    returns (r: nat, refs': seq<nat>, pins': seq<nat>)
    requires k.Valid() && refs == k.refs && pins == k.pins
    modifies k, k.prev, k.next, k.dev, k.blockno, k.refcnt, k.valid, k.owner
    ensures k.Valid() && refs' == k.refs && pins' == k.pins
    ensures SnapOk(old(Now(k))) && Stepped(old(Now(k)), op, r, Now(k))
  {
    ValidSnap(k);
    hide Stepped, SnapOk;
    r, refs', pins' := 0, refs, pins;
    match op
    case Get(d, n) => r, refs' := ExecGet(k, d, n, refs);
    case Release(b) => refs' := ExecRelease(k, b, refs);
    case Lock(b, _) => ExecLock(k, op, b, refs);
    case Unlock(b, _) => ExecLock(k, op, b, refs);
    case Pin(b) => pins' := ExecPin(k, op, b, refs, pins);
    case Unpin(b) => pins' := ExecPin(k, op, b, refs, pins);
  }

  method ExecGet(k: Cache, d: nat, n: nat, refs: seq<nat>) returns (r: nat, refs': seq<nat>)
    requires k.Valid() && refs == k.refs
    modifies k, k.dev, k.blockno, k.refcnt, k.valid
    ensures k.Valid() && refs' == k.refs && k.pins == old(k.pins)
    ensures SnapOk(old(Now(k))) && Stepped(old(Now(k)), Get(d, n), r, Now(k))
  {
    ValidSnap(k);
    hide Ring, Recent, Unique, Counted, Cached;
    refs' := refs;
    r := k.Bget(d, n);
    if r != 0 { refs' := refs[r := refs[r] + 1]; }
  }

  method ExecRelease(k: Cache, b: nat, refs: seq<nat>) returns (refs': seq<nat>)
    requires k.Valid() && refs == k.refs
    modifies k, k.refcnt, k.prev, k.next
    ensures k.Valid() && refs' == k.refs && k.pins == old(k.pins)
    ensures SnapOk(old(Now(k))) && Stepped(old(Now(k)), Release(b), 0, Now(k))
  {
    ValidSnap(k);
    hide Ring, Recent, Unique, Counted, ToFront;
    refs' := refs;
    if 0 < b < |refs| && refs[b] > 0 && (k.owner[b] >= 0 ==> refs[b] > 1) {
      k.Drop(b);
      refs' := refs[b := refs[b] - 1];
      CountIs(k, b);
    }
  }

  lemma CountIs(k: Cache, b: nat)
    requires k.Valid() && 0 < b < k.refcnt.Length
    ensures b < |k.refs| && b < |k.pins| && k.refcnt[b] == k.refs[b] + k.pins[b]
  {
  }

  method ExecLock(k: Cache, op: Op, b: nat, refs: seq<nat>)
    requires k.Valid() && refs == k.refs && (op.Lock? || op.Unlock?) && op.b == b
    modifies k.owner
    ensures k.Valid() && SnapOk(Now(k)) && SnapOk(old(Now(k))) && Stepped(old(Now(k)), op, 0, Now(k))
  {
    ValidSnap(k);
    hide Ring, Recent, Unique, Counted;
    if op.Lock? && 0 < b < |refs| && k.owner[b] == -1 && refs[b] > 0 {
      k.AcquireSleep(b, op.pid);
    } else if op.Unlock? && 0 < b < |refs| && k.owner[b] == op.pid {
      k.ReleaseSleep(b);
    }
  }

  method ExecPin(k: Cache, op: Op, b: nat, refs: seq<nat>, pins: seq<nat>) returns (pins': seq<nat>)
    requires k.Valid() && refs == k.refs && pins == k.pins && (op.Pin? || op.Unpin?) && op.b == b
    modifies k`pins, k.refcnt
    ensures k.Valid() && pins' == k.pins && SnapOk(old(Now(k))) && Stepped(old(Now(k)), op, 0, Now(k))
  {
    ValidSnap(k);
    hide Ring, Recent, Unique, Counted;
    pins' := pins;
    if op.Pin? && 0 < b < |refs| && refs[b] > 0 {
      k.Bpin(b);
      pins' := pins[b := pins[b] + 1];
    } else if op.Unpin? && 0 < b < |pins| && pins[b] > 0 {
      k.Bunpin(b);
      pins' := pins[b := pins[b] - 1];
    }
  }

  // ----- Whole runs ------------------------------------------------------------------------------

  /** `trace` is the history of a cache on which `ops` were performed and returned `rs`. */
  ghost predicate History(trace: seq<Snap>, ops: seq<Op>, rs: seq<nat>) {
    && |trace| == |rs| + 1 && |rs| <= |ops|
    && (forall i :: 0 <= i < |trace| ==> SnapOk(trace[i]))
    && (forall i, j :: 0 <= i && j == i + 1 && j < |trace| ==> Stepped(trace[i], ops[i], rs[i], trace[j]))
  }

  lemma HistoryMore(trace: seq<Snap>, ops: seq<Op>, rs: seq<nat>, r: nat, t: Snap)
    requires History(trace, ops, rs) && |rs| < |ops| && SnapOk(t) && Stepped(trace[|rs|], ops[|rs|], r, t)
    ensures History(trace + [t], ops, rs + [r])
  {
    hide SnapOk, Stepped;
    var n, trace', rs' := |rs|, trace + [t], rs + [r];
    forall i | 0 <= i < |trace'| ensures SnapOk(trace'[i]) {
    }
    forall i, j | 0 <= i && j == i + 1 && j < |trace'| ensures Stepped(trace'[i], ops[i], rs'[i], trace'[j]) {
      if j <= n { assert trace'[i] == trace[i] && trace'[j] == trace[j] && rs'[i] == rs[i]; }
    }
  }

  /** `bget` found no buffer and panicked. */
  predicate Panics(op: Op, r: nat) { op.Get? && r == 0 }

  /** Any interleaving of processes on a new cache of `n` buffers, up to the panic of a `bget` if there is one. */
  method Run(n: nat, ops: seq<Op>) returns (k: Cache, rs: seq<nat>, ghost trace: seq<Snap>)
    ensures |rs| <= |ops| && forall i :: 0 <= i < |rs| - 1 ==> !Panics(ops[i], rs[i])
    ensures |rs| < |ops| ==> rs != [] && Panics(ops[|rs| - 1], rs[|rs| - 1])
    ensures fresh(k) && k.Valid() && History(trace, ops, rs) && trace[|rs|] == Now(k)
    ensures |trace[0].refs| == n + 1 && forall b :: 0 < b <= n ==> !Used(trace[0], b)
  {
    hide Ring, Recent, Unique, Counted, History;
    k := new Cache.Binit(n);
    var refs, pins := seq(n + 1, i => 0), seq(n + 1, i => 0);
    rs := [];
    ValidSnap(k);
    trace := [Now(k)];
    BootHistory(Now(k), ops);
    ghost var boot := Now(k);
    while |rs| < |ops|
      invariant |rs| <= |ops| && forall i :: 0 <= i < |rs| ==> !Panics(ops[i], rs[i])
      invariant fresh(k) && k.Valid() && refs == k.refs && pins == k.pins
      invariant fresh(k.prev) && fresh(k.next) && fresh(k.dev) && fresh(k.blockno) && fresh(k.refcnt)
      invariant fresh(k.valid) && fresh(k.owner)
      invariant History(trace, ops, rs) && |trace| == |rs| + 1 && trace[|rs|] == Now(k) && trace[0] == boot
      decreases |ops| - |rs|
    {
      var r;
      r, refs, pins := Exec(k, ops[|rs|], refs, pins);
      ValidSnap(k);
      HistoryMore(trace, ops, rs, r, Now(k));
      rs, trace := rs + [r], trace + [Now(k)];
      if Panics(ops[|rs| - 1], r) {
        return;
      }
    }
  }

  lemma BootHistory(s: Snap, ops: seq<Op>)
    requires SnapOk(s)
    ensures History([s], ops, [])
  {
    hide SnapOk;
  }

  lemma StepAt(trace: seq<Snap>, ops: seq<Op>, rs: seq<nat>, i: nat)
    requires History(trace, ops, rs) && i < |rs|
    ensures SnapOk(trace[i]) && SnapOk(trace[i + 1]) && Stepped(trace[i], ops[i], rs[i], trace[i + 1])
  {
  }

  predicate Shows(s: Snap, b: nat, d: nat, n: nat) {
    b < |s.dev| && b < |s.blockno| && s.dev[b] == d && s.blockno[b] == n
  }

  /** As long as someone has a buffer it keeps its block. */
  lemma {:induction false} KeepsBlock(trace: seq<Snap>, ops: seq<Op>, rs: seq<nat>, i: nat, j: nat, b: nat, d: nat,
                                      n: nat)
    requires History(trace, ops, rs) && i <= j < |trace| && Shows(trace[i], b, d, n)
    requires forall m :: i <= m < j ==> Used(trace[m], b)
    ensures Shows(trace[j], b, d, n)
  {
    hide SnapOk;
    if i < j {
      KeepsBlock(trace, ops, rs, i, j - 1, b, d, n);
      StepAt(trace, ops, rs, j - 1);
      StepShows(trace[j - 1], ops[j - 1], rs[j - 1], trace[j], b, d, n);
    }
  }

  lemma StepShows(s: Snap, op: Op, r: nat, t: Snap, b: nat, d: nat, n: nat)
    requires SnapOk(s) && Stepped(s, op, r, t) && Shows(s, b, d, n) && Used(s, b)
    ensures Shows(t, b, d, n)
  {
    hide Cached;
  }

  /** In any interleaving there is one copy of a block: whoever asks for it while someone has it gets that buffer. */
  lemma OneCopy(trace: seq<Snap>, ops: seq<Op>, rs: seq<nat>, i: nat, j: nat, d: nat, n: nat)
    requires History(trace, ops, rs) && i < j < |rs| && d != 0
    requires ops[i] == ops[j] == Get(d, n) && rs[i] != 0
    requires forall m :: i < m <= j ==> Used(trace[m], rs[i])
    ensures rs[j] == rs[i]
  {
    StepAt(trace, ops, rs, i);
    GotShows(trace[i], d, n, rs[i], trace[i + 1]);
    KeepsBlock(trace, ops, rs, i + 1, j, rs[i], d, n);
    StepAt(trace, ops, rs, j);
    assert Holds(trace[j].dev, trace[j].blockno, d, n, rs[i]);
  }

  lemma GotShows(s: Snap, d: nat, n: nat, r: nat, t: Snap)
    requires SnapOk(s) && Got(s, d, n, r, t) && r != 0
    ensures Shows(t, r, d, n)
  {
  }

  /** A process that has locked a buffer has it to itself until it unlocks it. */
  lemma {:induction false} LockLasts(trace: seq<Snap>, ops: seq<Op>, rs: seq<nat>, i: nat, j: nat, b: nat, pid: nat)
    requires History(trace, ops, rs) && i < j < |trace| && ops[i] == Lock(b, pid) && Locks(trace[i], b)
    requires forall m :: i < m < j ==> ops[m] != Unlock(b, pid)
    ensures 0 < b < |trace[j].owner| && trace[j].owner[b] == pid && Used(trace[j], b)
  {
    hide SnapOk, Stepped;
    StepAt(trace, ops, rs, j - 1);
    if i < j - 1 {
      LockLasts(trace, ops, rs, i, j - 1, b, pid);
    }
    StepOwner(trace[j - 1], ops[j - 1], rs[j - 1], trace[j], b, pid);
    OwnerHas(trace[j], b);
  }

  lemma StepOwner(s: Snap, op: Op, r: nat, t: Snap, b: nat, pid: nat)
    requires SnapOk(s) && Stepped(s, op, r, t) && 0 < b < |s.owner|
    ensures |t.owner| == |s.owner|
    ensures s.owner[b] == pid && op != Unlock(b, pid) ==> t.owner[b] == pid
    ensures Locks(s, b) && op == Lock(b, pid) ==> t.owner[b] == pid
  {
    hide Unique, Cached;
  }

  lemma OwnerHas(s: Snap, b: nat)
    requires SnapOk(s) && 0 < b < |s.owner|
    ensures s.owner[b] >= 0 ==> Used(s, b)
  {
  }

  /** The clock runs, and the time of a buffer's last release is kept until its next. */
  lemma {:induction false} StampKept(trace: seq<Snap>, ops: seq<Op>, rs: seq<nat>, i: nat, j: nat, b: nat)
    requires History(trace, ops, rs) && i <= j < |trace| && b < |trace[i].stamp|
    ensures |trace[j].stamp| == |trace[i].stamp| && trace[j].clock >= trace[i].clock
    ensures trace[j].stamp[b] >= trace[i].clock || trace[j].stamp[b] == trace[i].stamp[b]
    ensures (forall m :: i <= m < j ==> !LastRelease(trace[m], ops[m], b)) ==> trace[j].stamp[b] == trace[i].stamp[b]
  {
    hide SnapOk;
    if i < j {
      StampKept(trace, ops, rs, i, j - 1, b);
      StepAt(trace, ops, rs, j - 1);
    }
  }

  /** `bget` recycles the buffer whose last release is longest ago: if nobody has `b`, last released at step `m`,
      then every release of the recycled buffer came before. */
  lemma LeastRecentlyReleased(trace: seq<Snap>, ops: seq<Op>, rs: seq<nat>, j: nat, b: nat, m: nat, q: nat)
    requires History(trace, ops, rs) && j < |rs| && ops[j].Get? && rs[j] != 0
    requires !Cached(trace[j].dev, trace[j].blockno, ops[j].d, ops[j].n)
    requires 0 < b < |trace[j].dev| && !Used(trace[j], b) && m < j && LastRelease(trace[m], ops[m], b)
    requires forall l :: m < l < j ==> !LastRelease(trace[l], ops[l], b)
    requires q < j && b != rs[j] && LastRelease(trace[q], ops[q], rs[j])
    ensures q < m
  {
    hide Cached;
    StepAt(trace, ops, rs, j);
    StepAt(trace, ops, rs, m);
    StepAt(trace, ops, rs, q);
    assert trace[m + 1].stamp[b] == trace[m].clock;
    StampKept(trace, ops, rs, m + 1, j, b);
    StampKept(trace, ops, rs, q + 1, j, rs[j]);
    if m < q {
      StampKept(trace, ops, rs, m + 1, q, b);
    }
  }
}
