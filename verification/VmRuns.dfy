/** Whole runs of the lab10 virtual memory, against processes that copy all their memory at fork. */
module VmRuns {
  import opened VirtualMemory
  import opened VmKernel

  /** What user programs and the rest of the kernel ask of the virtual memory. */
  datatype Op =
    | OpGrow(p: nat, area: UserPage)
    | OpAlloc(p: nat, w: bool, x: bool)              // exec maps a zeroed page
    | OpClear(k: Key)                                // and takes PTE_U from one
    | OpFork(p: nat, c: nat)
    | OpStore(k: Key, off: nat, b: Byte)
    | OpLoad(k: Key, off: nat, fetch: bool)
    | OpCopyOut(p: nat, va: nat, src: seq<Byte>)
    | OpCopyIn(p: nat, va: nat, len: nat)
    | OpShrink(p: nat, pages: nat)
    | OpKalloc                                       // the kernel takes a frame, perhaps by eviction
    | OpKfree                                        // and gives back the one it took last
    | OpTick                                         // aging
    | OpState(p: nat, state: ProcState, pid: nat)

  /** How it went: whether it was done, the old size of a grown process or the number of bytes copied,
      the bytes that were read, and whether the kernel crashed. */
  datatype Res = Res(done: bool, n: nat, bytes: seq<Byte>, crashed: bool)

  // ----- Eager private copying ------------------------------------------------------------------

  /** The first `n` bytes of `src`, stored one by one. */
  ghost function WriteMem(m: Mem, p: nat, va: nat, src: seq<Byte>, n: nat): Mem
    requires n <= |src|
  {
    if n == 0 then m
    else StoreMem(WriteMem(m, p, va, src, n - 1), Key(p, (va + n - 1) / PGSIZE), (va + n - 1) % PGSIZE, src[n - 1])
  }

  /** The same operation where every process has its own memory and nothing is ever shared or paged out. */
  ghost function Eager(m: Mem, op: Op, r: Res): Mem {
    match op
    case OpGrow(p, area) => if r.done then m[Key(p, r.n) := area] else m
    case OpAlloc(p, w, x) => if r.done then m[Key(p, r.n) := ZeroPage(w, x)] else m
    case OpClear(k) => if r.done then GuardMem(m, k) else m
    case OpFork(p, c) => if r.done then ForkMem(m, p, c) else m
    case OpStore(k, off, b) => if r.done then StoreMem(m, k, off, b) else m
    case OpCopyOut(p, va, src) => if r.n <= |src| then WriteMem(m, p, va, src, r.n) else m
    case OpShrink(p, pages) => m - ShrunkKeys(m, p, pages)
    case _ => m
  }

  ghost function Replay(m: Mem, ops: seq<Op>, rs: seq<Res>): Mem
    requires |ops| == |rs|
  {
    if ops == [] then m else Eager(Replay(m, ops[..|ops| - 1], rs[..|rs| - 1]), ops[|ops| - 1], rs[|rs| - 1])
  }

  lemma {:induction false} WroteIsWriteMem(m: Mem, m': Mem, p: nat, va: nat, src: seq<Byte>, n: nat)
    requires Wrote(m, m', p, va, src, n)
    ensures m' == WriteMem(m, p, va, src, n)
  {
    WriteMemWrites(m, p, va, src, n);
    var w := WriteMem(m, p, va, src, n);
    forall k | k in m ensures m'[k] == w[k] {
      assert m'[k].bytes == w[k].bytes by {
        forall i | 0 <= i < PGSIZE ensures m'[k].bytes[i] == w[k].bytes[i] {
          var a := k.i * PGSIZE + i;
          assert a / PGSIZE == k.i && a % PGSIZE == i;
          assert k == Key(k.p, a / PGSIZE);
          assert ByteAt(m', k.p, a) == ByteAt(w, k.p, a);
        }
      }
    }
  }

  lemma WrotePages(m: Mem, m': Mem, p: nat, va: nat, src: seq<Byte>, n: nat)
    requires Wrote(m, m', p, va, src, n)
    ensures m'.Keys == m.Keys && forall k :: k in m ==> |m'[k].bytes| == PGSIZE
  {
  }

  lemma {:induction false} WriteMemWrites(m: Mem, p: nat, va: nat, src: seq<Byte>, n: nat)
    requires n <= |src|
    requires forall k :: k in m ==> |m[k].bytes| == PGSIZE
    requires forall a: nat :: va <= a < va + n ==> Key(p, a / PGSIZE) in m
    ensures Wrote(m, WriteMem(m, p, va, src, n), p, va, src, n)
  {
    hide Wrote, Splice;
    if n == 0 {
      WroteNothing(m, p, va, src);
    } else {
      WriteMemWrites(m, p, va, src, n - 1);
      WrotePages(m, WriteMem(m, p, va, src, n - 1), p, va, src, n - 1);
      var m1, a := WriteMem(m, p, va, src, n - 1), va + n - 1;
      var k := Key(p, a / PGSIZE);
      WroteMore(m, m1, p, va, src, n - 1, 1, Splice(m1[k].bytes, a % PGSIZE, src[n - 1..n]));
      SpliceOne(m1[k].bytes, a % PGSIZE, src, n);
    }
  }

  lemma SpliceOne(page: Page, off: nat, src: seq<Byte>, n: nat)
    requires off < |page| && 0 < n <= |src|
    ensures Splice(page, off, src[n - 1..n]) == page[off := src[n - 1]]
  {
  }

  // ----- Runs ---------------------------------------------------------------------------------

  /** The state between two operations.  `taken` lists the frames the rest of the kernel has. */
  datatype Snap = Snap(vm: Vm, procs: seq<Proc>, ages: seq<nat>, seen: seq<seq<bool>>, taken: seq<nat>)

  ghost function Now(kernel: Kernel, taken: seq<nat>): Snap
    reads kernel
  {
    Snap(kernel.Abs(), kernel.procs, kernel.ages, kernel.seen, taken)
  }

  /** The kernel's own references are exactly the frames the rest of it has taken. */
  ghost predicate Owns(held: seq<int>, taken: seq<nat>) {
    && (forall f :: f in taken ==> f < |held|)
    && (forall f: nat :: f < |held| ==> held[f] == multiset(taken)[f])
  }

  ghost predicate SnapOk(s: Snap) {
    Inv(s.vm, None) && PlacedIn(s.vm.pt, s.vm.backing, s.procs, s.ages, |s.vm.frames|) && Owns(s.vm.held, s.taken)
    && Remembers(s.ages, s.seen)
  }

  /** A copy to or from a process looked at page `va + n` in this state, between `s` and `s'`. */
  ghost predicate LookedAt(s: Snap, s': Snap, n: nat, stop: Vm, ages1: seq<nat>) {
    && Inv(stop, None) && stop.held == s.vm.held && View(stop) == View(s'.vm)
    && (n == 0 ==> stop == s.vm && ages1 == s.ages)
  }

  ghost predicate StoppedOut(s: Snap, s': Snap, p: nat, va: nat, n: nat, stop: Vm, ages1: seq<nat>) {
    && LookedAt(s, s', n, stop, ages1)
    && (va + n >= MAXVA || !CanStore(stop, s.procs, ages1, Key(p, (va + n) / PGSIZE)))
  }

  ghost predicate StoppedIn(s: Snap, s': Snap, p: nat, va: nat, n: nat, crashed: bool, stop: Vm, ages1: seq<nat>) {
    && LookedAt(s, s', n, stop, ages1) && OutStaysFor(s.vm.pt, stop.pt, p, va, n)
    && (if va + n >= MAXVA then !crashed
        else FetchOf(stop, s.procs, ages1, Key(p, (va + n) / PGSIZE)) == if crashed then Unprotected else Unreachable)
  }

  ghost predicate CopyOutOutcome(s: Snap, p: nat, va: nat, src: seq<Byte>, r: Res, s': Snap) {
    && r.n <= |src| && (r.done <==> r.n == |src|)
    && (forall a: nat :: va <= a < va + r.n ==> WritableAt(View(s.vm), p, a))
    && (!r.done ==> exists stop, ages1 :: StoppedOut(s, s', p, va, r.n, stop, ages1))
  }

  ghost predicate CopyInOutcome(s: Snap, p: nat, va: nat, len: nat, r: Res, s': Snap) {
    && r.n <= len && (r.done <==> r.n == len) && (r.crashed ==> !r.done)
    && (forall a: nat :: va <= a < va + r.n ==> UserAt(View(s.vm), p, a))
    && (r.done ==> |r.bytes| == len && forall i :: 0 <= i < len ==> ByteAt(View(s.vm), p, va + i) == Some(r.bytes[i]))
    && (!r.done ==> exists stop, ages1 :: StoppedIn(s, s', p, va, r.n, r.crashed, stop, ages1))
  }

  ghost predicate KallocOutcome(s: Snap, r: Res, s': Snap) {
    && (r.done <==> !NoFrame(s.vm, s.procs, s.ages))
    && (if r.done then |s'.taken| == |s.taken| + 1 && s.taken <= s'.taken else s'.taken == s.taken)
    && (r.done && s.vm.free == [] ==>
          exists k :: Chosen(s.vm, s'.vm.pt, s.procs, s.ages, k) && Fair(s.vm, s.procs, s.ages, s.seen, k))
  }

  /** The process table afterwards: growth, fork and shrinking set a size, and nothing else changes one. */
  function ProcsAfter(procs: seq<Proc>, op: Op, done: bool): seq<Proc> {
    match op
    case OpGrow(p, _) => if done && p < |procs| then procs[p := procs[p].(pages := procs[p].pages + 1)] else procs
    case OpAlloc(p, _, _) => if done && p < |procs| then procs[p := procs[p].(pages := procs[p].pages + 1)] else procs
    case OpFork(p, c) =>
      if done && p < |procs| && c < |procs| then procs[c := procs[c].(pages := procs[p].pages)] else procs
    case OpShrink(p, pages) =>
      if p < |procs| && pages < procs[p].pages then procs[p := procs[p].(pages := pages)] else procs
    case OpState(p, state, pid) =>
      if p < |procs| then procs[p := procs[p].(state := state, pid := pid)] else procs
    case _ => procs
  }

  /** When an operation is done, and what it returns. */
  ghost predicate Outcome(s: Snap, op: Op, r: Res, s': Snap) {
    (r.crashed ==> op.OpCopyIn?) && (op.OpKalloc? || op.OpKfree? || s'.taken == s.taken) &&
    s'.procs == ProcsAfter(s.procs, op, r.done) && Grew(s.seen, s'.seen) &&
    match op
    case OpGrow(p, area) =>
      (r.done <==> p < |s.procs| && |area.bytes| == PGSIZE && area.perm.u) && (r.done ==> r.n == s.procs[p].pages)
    case OpAlloc(p, _, _) =>
      (r.done <==> p < |s.procs| && !NoFrame(s.vm, s.procs, s.ages)) && (r.done ==> r.n == s.procs[p].pages)
    case OpClear(k) => r.done <==> Clearable(s.vm, k)
    case OpFork(p, c) => r.done <==> p < |s.procs| && c < |s.procs| && p != c && s.procs[c].pages == 0
    case OpStore(k, off, _) => r.done <==> off < PGSIZE && CanStore(s.vm, s.procs, s.ages, k)
    case OpLoad(k, off, fetch) =>
      && (r.done <==> off < PGSIZE && CanLoad(s.vm, s.procs, s.ages, k, fetch))
      && (r.done ==> |r.bytes| == 1 && ByteAt(View(s.vm), k.p, k.i * PGSIZE + off) == Some(r.bytes[0]))
    case OpCopyOut(p, va, src) => CopyOutOutcome(s, p, va, src, r, s')
    case OpCopyIn(p, va, len) => CopyInOutcome(s, p, va, len, r, s')
    case OpShrink(_, _) => r.done
    case OpKalloc => KallocOutcome(s, r, s')
    case OpKfree => (r.done <==> s.taken != []) && s'.taken == if r.done then s.taken[..|s.taken| - 1] else s.taken
    case OpTick =>
      && r.done && AgedUpTo(s.vm.pt, s.ages, s'.vm.pt, s'.ages, s.procs, |s.procs|, 0)
      && SeenUpTo(s.vm.pt, s.seen, s'.seen, s.procs, |s.procs|, 0)
    case OpState(_, _, _) => r.done
  }

  /** What `uvmclear` is for: a page that `uvmalloc` mapped. */
  predicate Clearable(vm: Vm, k: Key) {
    k in vm.pt && vm.pt[k].v && vm.pt[k].perm.r && k !in vm.backing
  }

  /** Loads, stores and copies. */
  method ExecAccess(kernel: Kernel, op: Op, ghost taken: seq<nat>) returns (r: Res)
    requires kernel.Valid() && Owns(kernel.held, taken)
    requires op.OpStore? || op.OpLoad? || op.OpCopyOut? || op.OpCopyIn?
    modifies kernel
    ensures kernel.Valid() && Owns(kernel.held, taken) && kernel.procs == old(kernel.procs)
    ensures View(kernel.Abs()) == Eager(old(View(kernel.Abs())), op, r)
    ensures Outcome(old(Now(kernel, taken)), op, r, Now(kernel, taken))
  {
    hide Inv, View, Wrote, WriteMem, CanStore, CanLoad, FetchOf, OutStaysFor, NoFrame, PlacedIn, Owns, Remembers, Grew;
    GrewOn(kernel.seen, kernel.seen, kernel.seen);
    match op
    case OpStore(k, off, b) =>
      var ok := false;
      if off < PGSIZE {
        ok := kernel.UserStore(k, off, b);
      }
      r := Res(ok, 0, [], false);
    case OpLoad(k, off, fetch) =>
      var b := None;
      if off < PGSIZE {
        b := kernel.UserLoad(k, off, fetch);
      }
      r := Res(b.Some?, 0, if b.Some? then [b.value] else [], false);
    case OpCopyOut(p, va, src) =>
      r := ExecCopyOut(kernel, p, va, src, taken);
    case OpCopyIn(p, va, len) =>
      r := ExecCopyIn(kernel, p, va, len, taken);
  }

  method ExecCopyOut(kernel: Kernel, p: nat, va: nat, src: seq<Byte>, ghost taken: seq<nat>) returns (r: Res)
    requires kernel.Valid()
    modifies kernel
    ensures kernel.Valid() && kernel.held == old(kernel.held) && kernel.procs == old(kernel.procs) && !r.crashed
    ensures Grew(old(kernel.seen), kernel.seen)
    ensures View(kernel.Abs()) == Eager(old(View(kernel.Abs())), OpCopyOut(p, va, src), r)
    ensures CopyOutOutcome(old(Now(kernel, taken)), p, va, src, r, Now(kernel, taken))
  {
    hide Inv, View, Wrote, WriteMem, CanStore, NoFrame, PlacedIn;
    var ok, n;
    ghost var stop, ages1;
    ok, n, stop, ages1 := kernel.CopyOut(p, va, src);
    WroteIsWriteMem(old(View(kernel.Abs())), View(kernel.Abs()), p, va, src, n);
    WroteSamePages(old(View(kernel.Abs())), View(kernel.Abs()), p, va, src, n);
    r := Res(ok, n, [], false);
    if !ok {
      assert StoppedOut(old(Now(kernel, taken)), Now(kernel, taken), p, va, n, stop, ages1);
    }
  }

  method ExecCopyIn(kernel: Kernel, p: nat, va: nat, len: nat, ghost taken: seq<nat>) returns (r: Res)
    requires kernel.Valid()
    modifies kernel
    ensures kernel.Valid() && kernel.held == old(kernel.held) && kernel.procs == old(kernel.procs)
    ensures Grew(old(kernel.seen), kernel.seen)
    ensures View(kernel.Abs()) == old(View(kernel.Abs()))
    ensures CopyInOutcome(old(Now(kernel, taken)), p, va, len, r, Now(kernel, taken))
  {
    hide Inv, View, FetchOf, OutStaysFor, NoFrame, PlacedIn;
    var c, n;
    ghost var stop, ages1;
    c, n, stop, ages1 := kernel.CopyIn(p, va, len);
    r := Res(c.Copied?, n, if c.Copied? then c.bytes else [], c.Crashed?);
    if !c.Copied? {
      assert StoppedIn(old(Now(kernel, taken)), Now(kernel, taken), p, va, n, c.Crashed?, stop, ages1);
    }
  }

  lemma WroteSamePages(m: Mem, m': Mem, p: nat, va: nat, src: seq<Byte>, n: nat)
    requires Wrote(m, m', p, va, src, n)
    ensures forall q, a: nat :: WritableAt(m', q, a) <==> WritableAt(m, q, a)
  {
  }

  /** Growth, exec images, fork and shrinking. */
  method ExecSize(kernel: Kernel, op: Op, ghost taken: seq<nat>) returns (r: Res)
    requires kernel.Valid() && Owns(kernel.held, taken)
    requires op.OpGrow? || op.OpAlloc? || op.OpClear? || op.OpFork? || op.OpShrink?
    modifies kernel
    ensures kernel.Valid() && Owns(kernel.held, taken)
    ensures View(kernel.Abs()) == Eager(old(View(kernel.Abs())), op, r)
    ensures Outcome(old(Now(kernel, taken)), op, r, Now(kernel, taken))
  {
    hide Inv, View, NoFrame, PlacedIn, Owns, Remembers, Grew, ForkMem, GuardMem, ShrunkKeys;
    GrewOn(kernel.seen, kernel.seen, kernel.seen);
    r := Res(true, 0, [], false);
    match op
    case OpGrow(p, area) =>
      var size := if p < |kernel.procs| then kernel.procs[p].pages else 0;
      var ok := kernel.Grow(p, area);
      r := Res(ok, size, [], false);
    case OpAlloc(p, w, x) =>
      var size := if p < |kernel.procs| then kernel.procs[p].pages else 0;
      var ok := kernel.UvmAlloc(p, w, x);
      r := Res(ok, size, [], false);
    case OpClear(k) =>
      var ok := k in kernel.pt && kernel.pt[k].v && kernel.pt[k].perm.r && k !in kernel.backing;
      if ok {
        kernel.UvmClear(k);
      }
      r := Res(ok, 0, [], false);
    case OpFork(p, c) =>
      var ok := kernel.Fork(p, c);
      r := Res(ok, 0, [], false);
    case OpShrink(p, pages) =>
      kernel.Shrink(p, pages);
  }

  method Exec(kernel: Kernel, op: Op, taken: seq<nat>) returns (taken': seq<nat>, r: Res)
    requires kernel.Valid() && Owns(kernel.held, taken)
    modifies kernel
    ensures kernel.Valid() && Owns(kernel.held, taken')
    ensures View(kernel.Abs()) == Eager(old(View(kernel.Abs())), op, r)
    ensures Outcome(old(Now(kernel, taken)), op, r, Now(kernel, taken'))
  {
    hide Inv, View, Wrote, WriteMem, CanStore, CanLoad, FetchOf, OutStaysFor, NoFrame, PlacedIn, Owns, Chosen, AgedUpTo,
      SeenUpTo, Fair, Remembers, Grew;
    GrewOn(kernel.seen, kernel.seen, kernel.seen);
    taken', r := taken, Res(true, 0, [], false);
    match op
    case OpGrow(_, _) => r := ExecSize(kernel, op, taken);
    case OpAlloc(_, _, _) => r := ExecSize(kernel, op, taken);
    case OpClear(_) => r := ExecSize(kernel, op, taken);
    case OpFork(_, _) => r := ExecSize(kernel, op, taken);
    case OpShrink(_, _) => r := ExecSize(kernel, op, taken);
    case OpKalloc =>
      var f := kernel.Kalloc(None);
      if f.Some? {
        taken' := taken + [f.value];
        TakenMore(old(kernel.held), taken, f.value);
      }
      r := Res(f.Some?, 0, [], false);
    case OpKfree =>
      if taken != [] {
        HeldLast(kernel.held, taken);
        EntryBounds(kernel.Abs(), None);
        taken' := taken[..|taken| - 1];
        kernel.Kfree(taken[|taken| - 1]);
      }
      r := Res(taken != [], 0, [], false);
    case OpTick =>
      kernel.UpdatePageAge();
    case OpState(p, state, pid) =>
      kernel.SetState(p, state, pid);
    case _ =>
      r := ExecAccess(kernel, op, taken);
  }

  lemma TakenMore(held: seq<int>, taken: seq<nat>, f: nat)
    requires Owns(held, taken) && f < |held| && held[f] == 0
    ensures Owns(held[f := 1], taken + [f])
  {
    assert multiset(taken + [f]) == multiset(taken) + multiset{f};
  }

  lemma HeldLast(held: seq<int>, taken: seq<nat>)
    requires Owns(held, taken) && taken != []
    ensures var f := taken[|taken| - 1];
      f < |held| && held[f] > 0 && Owns(held[f := held[f] - 1], taken[..|taken| - 1])
  {
    var f, rest := taken[|taken| - 1], taken[..|taken| - 1];
    assert taken == rest + [f];
    assert multiset(taken) == multiset(rest) + multiset{f};
    assert f in taken;
    forall g | g in rest ensures g < |held| {
      assert g in taken;
    }
  }

  /** `trace` is a history of the kernel that explains the results `rs` of the operations `ops`: in every
      state the counts are right and each process sees the memory of eager private copying, and every
      result is the one that memory, and want of frames, call for. */
  ghost predicate Explains(trace: seq<Snap>, ops: seq<Op>, rs: seq<Res>) {
    && |trace| == |rs| + 1 && |rs| <= |ops|
    && (forall i :: 0 <= i < |trace| ==> SnapOk(trace[i]) && View(trace[i].vm) == Replay(map[], ops[..i], rs[..i]))
    && (forall i, j :: 0 <= i && j == i + 1 && j < |trace| ==> Outcome(trace[i], ops[i], rs[i], trace[j]))
  }

  lemma ReplayMore(ops: seq<Op>, rs: seq<Res>, r: Res)
    requires |rs| < |ops|
    ensures Replay(map[], ops[..|rs| + 1], rs + [r]) == Eager(Replay(map[], ops[..|rs|], rs), ops[|rs|], r)
  {
    hide Eager;
    var ops', rs' := ops[..|rs| + 1], rs + [r];
    assert ops'[..|rs|] == ops[..|rs|] && rs'[..|rs|] == rs;
  }

  lemma ExplainsMore(trace: seq<Snap>, ops: seq<Op>, rs: seq<Res>, r: Res, s: Snap)
    requires Explains(trace, ops, rs) && |rs| < |ops| && SnapOk(s)
    requires var n := |rs|; Outcome(trace[n], ops[n], r, s) && View(s.vm) == Eager(View(trace[n].vm), ops[n], r)
    ensures Explains(trace + [s], ops, rs + [r])
  {
    hide SnapOk, Outcome, View, Eager, Replay;
    var n, trace', rs' := |rs|, trace + [s], rs + [r];
    assert rs[..n] == rs && rs'[..n + 1] == rs';
    ReplayMore(ops, rs, r);
    forall i | 0 <= i < |trace'| ensures View(trace'[i].vm) == Replay(map[], ops[..i], rs'[..i]) {
      if i <= n {
        assert rs'[..i] == rs[..i];
      }
    }
    assert trace'[n] == trace[n] && trace'[n + 1] == s && rs'[n] == r;
    forall i, j | 0 <= i && j == i + 1 && j < |trace'| ensures Outcome(trace'[i], ops[i], rs'[i], trace'[j]) {
      if j <= n { assert trace'[i] == trace[i] && trace'[j] == trace[j] && rs'[i] == rs[i]; }
    }
  }

  /** Over every run, from boot: forks, loads, stores, faults, copies, evictions and unmaps in any order
      and under any memory pressure give the results of eager private copying, as far as memory lasts.
      A run ends early only by the crash of `copyin`. */
  method Run(nframes: nat, nslots: nat, nprocs: nat, ops: seq<Op>)
    returns (kernel: Kernel, rs: seq<Res>, ghost trace: seq<Snap>)
    ensures fresh(kernel) && kernel.Valid() && Explains(trace, ops, rs)
    ensures trace[0].vm.pt == map[] && |trace[0].vm.frames| == nframes && |trace[0].procs| == nprocs
    ensures trace[0].taken == []
    ensures kernel.Abs() == trace[|rs|].vm && kernel.procs == trace[|rs|].procs && kernel.ages == trace[|rs|].ages
    ensures |rs| < |ops| ==> |rs| > 0 && rs[|rs| - 1].crashed
    ensures forall i :: 0 <= i < |rs| - 1 ==> !rs[i].crashed
  {
    hide Inv, View, Eager, Owns, PlacedIn, Outcome, Explains;
    kernel := new Kernel(nframes, nslots, nprocs);
    rs := [];
    NothingOwned(kernel.held);
    var taken := [];
    ghost var boot := Now(kernel, taken);
    trace := [boot];
    ExplainsBoot(Now(kernel, taken), ops);
    var crashed := false;
    while |rs| < |ops| && !crashed
      invariant |rs| <= |ops| && fresh(kernel) && Explains(trace, ops, rs) && |trace| == |rs| + 1
      invariant kernel.Valid() && Owns(kernel.held, taken) && trace[|rs|] == Now(kernel, taken)
      invariant trace[0] == boot
      invariant crashed ==> |rs| > 0 && rs[|rs| - 1].crashed
      invariant forall i :: 0 <= i < (if crashed then |rs| - 1 else |rs|) ==> !rs[i].crashed
      decreases |ops| - |rs|, !crashed
    {
      var r;
      taken, r := Exec(kernel, ops[|rs|], taken);
      ExplainsMore(trace, ops, rs, r, Now(kernel, taken));
      crashed := r.crashed;
      rs, trace := rs + [r], trace + [Now(kernel, taken)];
    }
  }

  lemma NothingOwned(held: seq<int>)
    requires forall f :: 0 <= f < |held| ==> held[f] == 0
    ensures Owns(held, [])
  {
  }

  lemma ExplainsBoot(s: Snap, ops: seq<Op>)
    requires SnapOk(s) && View(s.vm) == map[]
    ensures Explains([s], ops, [])
  {
    hide SnapOk, View;
  }

  // ----- What the abstract memory promises --------------------------------------------------------

  /** The process whose memory an operation may change. */
  predicate ChangedBy(op: Op, r: Res, q: nat) {
    match op
    case OpGrow(p, _) => p == q && r.done
    case OpAlloc(p, _, _) => p == q && r.done
    case OpClear(k) => k.p == q && r.done
    case OpFork(_, c) => c == q && r.done
    case OpStore(k, _, _) => k.p == q && r.done
    case OpCopyOut(p, _, _) => p == q
    case OpShrink(p, _) => p == q
    case _ => false
  }

  lemma {:induction false} WriteMemOwn(m: Mem, p: nat, va: nat, src: seq<Byte>, n: nat, k: Key)
    requires n <= |src| && k.p != p
    ensures k in WriteMem(m, p, va, src, n) <==> k in m
    ensures k in m ==> WriteMem(m, p, va, src, n)[k] == m[k]
  {
    if n > 0 { WriteMemOwn(m, p, va, src, n - 1, k); }
  }

  /** No process sees a byte or a permission change except by its own growth, store, copy or shrink,
      or by being the child of a fork; every other operation of everyone is invisible to it. */
  lemma {:induction false} Isolation(m: Mem, ops: seq<Op>, rs: seq<Res>, q: nat, k: Key)
    requires |ops| == |rs| && k.p == q
    requires forall i :: 0 <= i < |ops| ==> !ChangedBy(ops[i], rs[i], q)
    ensures k in Replay(m, ops, rs) <==> k in m
    ensures k in m ==> Replay(m, ops, rs)[k] == m[k]
  {
    if ops != [] {
      var n := |ops| - 1;
      Isolation(m, ops[..n], rs[..n], q, k);
      var m1 := Replay(m, ops[..n], rs[..n]);
      if ops[n].OpCopyOut? && rs[n].n <= |ops[n].src| {
        WriteMemOwn(m1, ops[n].p, ops[n].va, ops[n].src, rs[n].n, k);
      }
    }
  }

  /** A child starts with its parent's memory.  Whatever anyone does from then on, the child keeps it
      until it changes it itself, and so does the parent. */
  lemma {:induction false} ForkIsPrivate(m: Mem, p: nat, c: nat, ops: seq<Op>, rs: seq<Res>, i: nat)
    requires p != c && (forall k :: k in m ==> k.p != c) && |ops| == |rs|
    ensures var later := Replay(ForkMem(m, p, c), ops, rs);
      (forall j :: 0 <= j < |ops| ==> !ChangedBy(ops[j], rs[j], c)) ==>
        (Key(c, i) in later <==> Key(p, i) in m) && (Key(p, i) in m ==> later[Key(c, i)] == m[Key(p, i)])
    ensures var later := Replay(ForkMem(m, p, c), ops, rs);
      (forall j :: 0 <= j < |ops| ==> !ChangedBy(ops[j], rs[j], p)) ==>
        (Key(p, i) in later <==> Key(p, i) in m) && (Key(p, i) in m ==> later[Key(p, i)] == m[Key(p, i)])
  {
    var start := ForkMem(m, p, c);
    assert Key(p, i) in m ==> Key(c, i) in start;
    if forall j :: 0 <= j < |ops| ==> !ChangedBy(ops[j], rs[j], c) {
      Isolation(start, ops, rs, c, Key(c, i));
    }
    if forall j :: 0 <= j < |ops| ==> !ChangedBy(ops[j], rs[j], p) {
      Isolation(start, ops, rs, p, Key(p, i));
    }
  }

  /** What the eager memory has in a byte: a page that `uvmalloc` mapped is 0 throughout, and its process's to read
      and, if asked, to write; a guard page has its bytes but is no longer the process's; what a process gave
      up is gone; and everything else is as before. */
  lemma EagerBytes(m: Mem, op: Op, r: Res, q: nat, a: nat)
    requires r.done
    ensures var m', k := Eager(m, op, r), Key(q, a / PGSIZE);
      match op
      case OpAlloc(p, w, _) =>
        if k == Key(p, r.n) then ByteAt(m', q, a) == Some(0) && UserAt(m', q, a) && (WritableAt(m', q, a) <==> w)
        else ByteAt(m', q, a) == ByteAt(m, q, a) && (UserAt(m', q, a) <==> UserAt(m, q, a))
      case OpClear(g) =>
        ByteAt(m', q, a) == ByteAt(m, q, a) && (UserAt(m', q, a) <==> UserAt(m, q, a) && k != g)
      case OpShrink(p, pages) =>
        if q == p && a >= pages * PGSIZE then ByteAt(m', q, a) == None && !UserAt(m', q, a)
        else ByteAt(m', q, a) == ByteAt(m, q, a) && (UserAt(m', q, a) <==> UserAt(m, q, a))
      case _ => true
  {
    if op.OpShrink? {
      assert a >= op.pages * PGSIZE <==> a / PGSIZE >= op.pages;
    }
  }

  /** What is read within a run is what eager private copying gives: each byte loaded, and each byte
      that `copyin` hands to the kernel. */
  lemma ReadsAreEager(trace: seq<Snap>, ops: seq<Op>, rs: seq<Res>, i: nat)
    requires Explains(trace, ops, rs) && i < |rs| && rs[i].done
    ensures var m := Replay(map[], ops[..i], rs[..i]);
      match ops[i]
      case OpLoad(k, off, _) => |rs[i].bytes| == 1 && ByteAt(m, k.p, k.i * PGSIZE + off) == Some(rs[i].bytes[0])
      case OpCopyIn(p, va, len) =>
        |rs[i].bytes| == len && forall j :: 0 <= j < len ==> ByteAt(m, p, va + j) == Some(rs[i].bytes[j])
      case _ => true
  {
    hide SnapOk, View, Replay;
    assert Outcome(trace[i], ops[i], rs[i], trace[i + 1]);
  }

  /** With a frame to be had, a store is refused only on a page that is not the process's to write, and
      a load only on one that is not its to read. */
  lemma RefusedForCause(trace: seq<Snap>, ops: seq<Op>, rs: seq<Res>, i: nat)
    requires Explains(trace, ops, rs) && i < |rs| && !NoFrame(trace[i].vm, trace[i].procs, trace[i].ages)
    ensures var m := Replay(map[], ops[..i], rs[..i]);
      match ops[i]
      case OpStore(k, off, _) => rs[i].done <==> off < PGSIZE && k in m && m[k].writable && m[k].perm.u
      case OpLoad(k, off, fetch) =>
        rs[i].done <==> off < PGSIZE && k in m && m[k].perm.u && if fetch then m[k].perm.x else m[k].perm.r
      case OpAlloc(p, _, _) => rs[i].done <==> p < |trace[i].procs|
      case OpKalloc => rs[i].done
      case _ => true
  {
    hide SnapOk, View, Replay, NoFrame;
    assert Outcome(trace[i], ops[i], rs[i], trace[i + 1]);
  }

  lemma ReplayNext(ops: seq<Op>, rs: seq<Res>, i: nat)
    requires i < |rs| <= |ops|
    ensures Replay(map[], ops[..i + 1], rs[..i + 1]) == Eager(Replay(map[], ops[..i], rs[..i]), ops[i], rs[i])
  {
    hide Eager;
    assert ops[..i + 1][..i] == ops[..i] && rs[..i + 1][..i] == rs[..i];
  }

  /** `copyin`, begun in `s`, fetched the page of address `va + n`, which the process may not read, in state `stop`. */
  ghost predicate GuardFetched(s: Snap, p: nat, va: nat, n: nat, stop: Vm, ages1: seq<nat>) {
    && Inv(stop, None) && stop.held == s.vm.held && View(stop) == View(s.vm)
    && !Old(stop.pt, Key(p, (va + n) / PGSIZE)).v && !NoFrame(stop, s.procs, ages1)
  }

  lemma CrashOutcome(s: Snap, p: nat, va: nat, len: nat, r: Res, s': Snap)
    requires CopyInOutcome(s, p, va, len, r, s') && r.crashed && View(s'.vm) == View(s.vm)
    ensures r.n < len && GuardedAt(View(s.vm), p, va + r.n)
    ensures exists stop, ages1 :: GuardFetched(s, p, va, r.n, stop, ages1)
  {
    hide Inv, View, NoFrame, OutStaysFor;
    var stop, ages1 :| StoppedIn(s, s', p, va, r.n, r.crashed, stop, ages1);
    assert GuardFetched(s, p, va, r.n, stop, ages1);
  }

  /** A run crashes only at a page that the process owns and may not touch, when that page is not
      resident and a frame for it can be had. */
  lemma CrashIsAtGuard(trace: seq<Snap>, ops: seq<Op>, rs: seq<Res>, i: nat)
    requires Explains(trace, ops, rs) && i < |rs| && rs[i].crashed
    ensures ops[i].OpCopyIn? && rs[i].n < ops[i].len
    ensures GuardedAt(Replay(map[], ops[..i], rs[..i]), ops[i].p, ops[i].va + rs[i].n)
    ensures exists stop, ages1 :: GuardFetched(trace[i], ops[i].p, ops[i].va, rs[i].n, stop, ages1)
  {
    hide SnapOk, View, NoFrame, Replay, CopyInOutcome, GuardFetched, GuardedAt;
    assert Outcome(trace[i], ops[i], rs[i], trace[i + 1]);
    ReplayNext(ops, rs, i);
    CrashOutcome(trace[i], ops[i].p, ops[i].va, ops[i].len, rs[i], trace[i + 1]);
  }

  /** The counts of kalloc.c and swap.c, in every state of every run: references are valid entries plus
      the frames the kernel has taken; the free list has each unreferenced frame once; slot counts are
      paged-out entries; and a frame referenced more than once is nowhere writable. */
  lemma CountsAreExact(trace: seq<Snap>, ops: seq<Op>, rs: seq<Res>, i: nat)
    requires Explains(trace, ops, rs) && i < |trace|
    ensures var vm := trace[i].vm;
      && (forall f: nat :: f < |vm.refs| ==> vm.refs[f] == |Mappers(vm.pt, f)| + multiset(trace[i].taken)[f])
      && (forall s: nat :: s < |vm.srefs| ==> vm.srefs[s] == |Pagers(vm.pt, s)|)
      && (forall f: nat :: f in vm.free <==> f < |vm.refs| && vm.refs[f] == 0)
      && (forall i, j :: 0 <= i < j < |vm.free| ==> vm.free[i] != vm.free[j])
      && (forall k :: k in vm.pt && vm.pt[k].v ==>
          vm.pt[k].addr < |vm.refs| && (vm.pt[k].w ==> vm.refs[vm.pt[k].addr] == 1))
  {
    hide View, Replay, Outcome;
    CountsOfState(trace[i]);
  }

  lemma CountsOfState(s: Snap)
    requires SnapOk(s)
    ensures var vm := s.vm;
      && (forall f: nat :: f < |vm.refs| ==> vm.refs[f] == |Mappers(vm.pt, f)| + multiset(s.taken)[f])
      && (forall s: nat :: s < |vm.srefs| ==> vm.srefs[s] == |Pagers(vm.pt, s)|)
      && (forall f: nat :: f in vm.free <==> f < |vm.refs| && vm.refs[f] == 0)
      && (forall i, j :: 0 <= i < j < |vm.free| ==> vm.free[i] != vm.free[j])
      && (forall k :: k in vm.pt && vm.pt[k].v ==>
          vm.pt[k].addr < |vm.refs| && (vm.pt[k].w ==> vm.refs[vm.pt[k].addr] == 1))
  {
    hide PlacedIn;
    var vm := s.vm;
    forall k | k in vm.pt && vm.pt[k].v
      ensures vm.pt[k].addr < |vm.refs| && (vm.pt[k].w ==> vm.refs[vm.pt[k].addr] == 1)
    {
      WritableAlone(vm, k);
    }
  }

  lemma WritableAlone(vm: Vm, k: Key)
    requires Inv(vm, None) && k in vm.pt && vm.pt[k].v
    ensures vm.pt[k].addr < |vm.refs| && (vm.pt[k].w ==> vm.refs[vm.pt[k].addr] == 1)
  {
    hide FreeOk, SlotsOk;
    EntryOk(vm, None, k);
    var f := vm.pt[k].addr;
    if vm.pt[k].w {
      assert Mappers(vm.pt, f) == {k};
    }
  }

  // ----- The crash of copyin ------------------------------------------------------------------------

  /** One process with a guard page, which `exec` mapped and took PTE_U from. */
  method BuildGuard() returns (kernel: Kernel)
    ensures fresh(kernel) && kernel.Valid() && GuardOnly(kernel.Abs()) && kernel.pt[Key(0, 0)].v
    ensures !kernel.pt[Key(0, 0)].cow
    ensures kernel.held == [0] && kernel.ages == [0] && kernel.procs == [Proc(RUNNING, 3, 1)]
  {
    hide Inv, View, PlacedIn, NoFrame;
    kernel := new Kernel(1, 1, 1);
    EnoughAtBoot(kernel.Abs(), kernel.procs, kernel.ages);
    var _ := kernel.UvmAlloc(0, true, false);
    kernel.UvmClear(Key(0, 0));
    kernel.SetState(0, RUNNING, 3);
  }

  /** Want of memory evicts it, and then there is a frame again. */
  method EvictGuard() returns (kernel: Kernel)
    ensures fresh(kernel) && kernel.Valid() && GuardOnly(kernel.Abs()) && kernel.pt[Key(0, 0)].pg && kernel.free != []
  {
    hide Inv, View, PlacedIn, NoFrame;
    kernel := BuildGuard();
    OnlyGuard(kernel.Abs(), kernel.procs, kernel.ages);
    var f := kernel.Kalloc(None);
    EntryBounds(kernel.Abs(), None);
    kernel.Kfree(f.value);
    OneFree(kernel.Abs(), f.value);
    EntryOk(kernel.Abs(), None, Key(0, 0));
  }

  /** The page at address 0 of process 0 is all there is, and not for the process to touch. */
  predicate GuardOnly(vm: Vm) {
    |vm.frames| == |vm.srefs| == 1 && vm.pt.Keys == {Key(0, 0)} && !vm.pt[Key(0, 0)].perm.u
  }

  /** `copyin` of that page crashes: a run that reads physical address 0. */
  method GuardCrash() returns (r: CopyInResult)
    ensures r.Crashed?
  {
    hide Inv, View, PlacedIn;
    var kernel := EvictGuard();
    GuardFetch(kernel.Abs(), kernel.procs, kernel.ages);
    ghost var m := View(kernel.Abs());
    hide FetchOf, OutStaysFor, GuardOnly;
    ghost var stop, ages1;
    var n;
    r, n, stop, ages1 := kernel.CopyIn(0, 0, 1);
    NotPast(m, 0, 0, n);
  }

  lemma NotPast(m: Mem, p: nat, va: nat, n: nat)
    requires (forall a: nat :: va <= a < va + n ==> UserAt(m, p, a)) && !UserAt(m, p, va)
    ensures n == 0
  {
    assert n > 0 ==> UserAt(m, p, va);
  }

  lemma GuardFetch(vm: Vm, procs: seq<Proc>, ages: seq<nat>)
    requires Inv(vm, None) && GuardOnly(vm) && vm.pt[Key(0, 0)].pg && vm.free != []
    ensures FetchOf(vm, procs, ages, Key(0, 0)).Unprotected? && !UserAt(View(vm), 0, 0)
  {
    hide Inv, View;
    EntryOk(vm, None, Key(0, 0));
    MappedView(vm, Key(0, 0));
  }

  lemma EnoughAtBoot(vm: Vm, procs: seq<Proc>, ages: seq<nat>)
    requires Inv(vm, None) && |vm.free| == 1
    ensures !NoFrame(vm, procs, ages)
  {
  }

  /** The guard page is the one candidate for eviction, and it is of age 0. */
  lemma OnlyGuard(vm: Vm, procs: seq<Proc>, ages: seq<nat>)
    requires Inv(vm, None) && GuardOnly(vm) && ages == [0] && vm.pt[Key(0, 0)].v && !vm.pt[Key(0, 0)].cow
    requires vm.held == [0] && procs == [Proc(RUNNING, 3, 1)]
    ensures vm.free == [] && !NoFrame(vm, procs, ages)
    ensures forall k :: Candidate(vm, procs, k) ==> k == Key(0, 0)
  {
    var k := Key(0, 0);
    EntryOk(vm, None, k);
    assert Mappers(vm.pt, 0) == {k} && Pagers(vm.pt, 0) == {};
    assert vm.refs[0] == 1 && vm.srefs[0] == 0;
    NoneFree(vm);
    assert Candidate(vm, procs, k) && Score(vm.pt, ages, k) < 255;
  }

  lemma NoneFree(vm: Vm)
    requires Inv(vm, None) && |vm.refs| == 1 && vm.refs[0] == 1
    ensures vm.free == []
  {
    hide Inv;
    if vm.free != [] {
      TakenFrame(vm, None, vm.free[0]);
    }
  }

  lemma OneFree(vm: Vm, f: nat)
    requires Inv(vm, None) && f < |vm.refs| && vm.refs[f] == 0
    ensures vm.free != []
  {
    hide TableOk, CountsOk, SlotsOk, SharingOk;
    assert f in vm.free;
  }

  // ----- Sizes --------------------------------------------------------------------------------------

  /** Every process has exactly the pages below its size. */
  ghost predicate Whole(m: Mem, procs: seq<Proc>) {
    forall k: Key :: k in m <==> k.p < |procs| && k.i < procs[k.p].pages
  }

  lemma StepWhole(m: Mem, procs: seq<Proc>, op: Op, r: Res)
    requires Whole(m, procs) && (op.OpGrow? || op.OpAlloc? ==> r.done ==> op.p < |procs| && r.n == procs[op.p].pages)
    requires op.OpFork? && r.done ==> op.p < |procs| && op.c < |procs| && op.p != op.c && procs[op.c].pages == 0
    requires op.OpClear? && r.done ==> op.k in m
    requires op.OpCopyOut? ==> r.n <= |op.src|
    ensures Whole(Eager(m, op, r), ProcsAfter(procs, op, r.done))
  {
    if op.OpCopyOut? { WriteMemKeys(m, op.p, op.va, op.src, r.n); }
    if op.OpFork? && r.done { ForkWhole(m, procs, op.p, op.c); }
    hide ForkMem, WriteMem;
  }

  lemma ForkWhole(m: Mem, procs: seq<Proc>, p: nat, c: nat)
    requires Whole(m, procs) && p < |procs| && c < |procs| && p != c && procs[c].pages == 0
    ensures Whole(ForkMem(m, p, c), procs[c := procs[c].(pages := procs[p].pages)])
  {
    var w, procs' := ForkMem(m, p, c), procs[c := procs[c].(pages := procs[p].pages)];
    forall k: Key ensures k in w <==> k.p < |procs'| && k.i < procs'[k.p].pages {
      assert k.p == c ==> k == Key(c, k.i) && (Key(p, k.i) in m <==> k.i < procs[p].pages);
    }
  }

  lemma {:induction false} WriteMemKeys(m: Mem, p: nat, va: nat, src: seq<Byte>, n: nat)
    requires n <= |src|
    ensures WriteMem(m, p, va, src, n).Keys == m.Keys
  {
    if n > 0 { WriteMemKeys(m, p, va, src, n - 1); }
  }

  /** In every state of every run each process has exactly the pages below its size. */
  lemma {:induction false} SizesFit(trace: seq<Snap>, ops: seq<Op>, rs: seq<Res>, i: nat)
    requires Explains(trace, ops, rs) && i < |trace| && trace[0].vm.pt == map[]
    requires Whole(View(trace[0].vm), trace[0].procs)
    ensures Whole(View(trace[i].vm), trace[i].procs)
  {
    hide SnapOk, View, Whole, Inv;
    if i > 0 {
      SizesFit(trace, ops, rs, i - 1);
      var s, op, r := trace[i - 1], ops[i - 1], rs[i - 1];
      assert Outcome(s, op, r, trace[i]);
      assert View(trace[i].vm) == Eager(View(s.vm), op, r) by { ReplayStep(trace, ops, rs, i - 1); }
      if op.OpClear? && r.done { ClearedIsThere(s, op.k); }
      StepWhole(View(s.vm), s.procs, op, r);
    }
  }

  lemma ReplayStep(trace: seq<Snap>, ops: seq<Op>, rs: seq<Res>, i: nat)
    requires Explains(trace, ops, rs) && i < |rs|
    ensures View(trace[i + 1].vm) == Eager(View(trace[i].vm), ops[i], rs[i])
  {
    hide SnapOk, View, Eager, Outcome;
    assert ops[..i + 1][..i] == ops[..i] && rs[..i + 1][..i] == rs[..i];
  }

  lemma ClearedIsThere(s: Snap, k: Key)
    requires SnapOk(s) && Clearable(s.vm, k)
    ensures k in View(s.vm)
  {
    ResidentView(s.vm, k);
  }

  // ----- Eviction -----------------------------------------------------------------------------------

  /** Over every run: when a frame is had by eviction, the page that goes was not used later, in the latest of the
      last eight visits in which they differ, than any other page that could go. */
  lemma EvictsTheIdle(trace: seq<Snap>, ops: seq<Op>, rs: seq<Res>, i: nat)
    requires Explains(trace, ops, rs) && i < |rs| && ops[i].OpKalloc? && rs[i].done && trace[i].vm.free == []
    ensures var s, t := trace[i], trace[i + 1];
      exists k :: Chosen(s.vm, t.vm.pt, s.procs, s.ages, k) && Fair(s.vm, s.procs, s.ages, s.seen, k)
  {
    hide SnapOk, Chosen, Fair;
    assert Outcome(trace[i], ops[i], rs[i], trace[i + 1]);
  }

  /** ... where the visits are those of the whole run: they are only ever added to, and ages are what they give. */
  lemma {:induction false} VisitsLast(trace: seq<Snap>, ops: seq<Op>, rs: seq<Res>, i: nat, j: nat, f: nat)
    requires Explains(trace, ops, rs) && i <= j < |trace| && f < |trace[i].seen|
    ensures f < |trace[j].seen| == |trace[j].ages| && trace[i].seen[f] <= trace[j].seen[f]
    ensures trace[j].ages[f] == AgeOf(trace[j].seen[f])
  {
    hide SnapOk, Outcome, AgeOf;
    assert SnapOk(trace[j]);
    AgesRemembered(trace[j]);
    if i < j {
      VisitsLast(trace, ops, rs, i, j - 1, f);
      assert Outcome(trace[j - 1], ops[j - 1], rs[j - 1], trace[j]);
      VisitsGrow(trace[j - 1], ops[j - 1], rs[j - 1], trace[j]);
    }
  }

  lemma AgesRemembered(s: Snap)
    requires SnapOk(s)
    ensures Remembers(s.ages, s.seen)
  {
  }

  lemma VisitsGrow(s: Snap, op: Op, r: Res, t: Snap)
    requires Outcome(s, op, r, t)
    ensures Grew(s.seen, t.seen)
  {
  }
}
