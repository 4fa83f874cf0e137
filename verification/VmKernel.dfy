/** The routines of lab10 that work on the shared virtual-memory state, as they are written: loops
    over page tables, swap slots and processes that update the state in place. */
module VmKernel {
  import opened VirtualMemory

  datatype ProcState = UNUSED | USED | SLEEPING | RUNNABLE | RUNNING | ZOMBIE

  /** A slot of the process table; `pages` is the size of the process, rounded up to pages. */
  datatype Proc = Proc(state: ProcState, pid: nat, pages: nat)

  predicate Scanned(p: Proc) {
    (p.state.RUNNING? || p.state.RUNNABLE? || p.state.SLEEPING?) && p.pid > 2
  }

  /** An entry that `find_swapping_page` weighs for eviction (proc.c:703-716). */
  predicate Candidate(vm: Vm, procs: seq<Proc>, k: Key) {
    Evictable(vm, k) && k.p < |procs| && k.i < procs[k.p].pages && Scanned(procs[k.p])
  }

  /** Only a page below the size of a process past the first two that runs, can run or sleeps, resident, not shared,
      and not marked copy-on-write, can be evicted. */
  lemma CandidateIs(vm: Vm, procs: seq<Proc>, k: Key)
    ensures Candidate(vm, procs, k) <==>
      && k in vm.pt && vm.pt[k].v && !vm.pt[k].cow && vm.pt[k].addr < |vm.refs| && vm.refs[vm.pt[k].addr] == 1
      && k.p < |procs| && k.i < procs[k.p].pages && procs[k.p].pid >= 3
      && procs[k.p].state != UNUSED && procs[k.p].state != USED && procs[k.p].state != ZOMBIE
  {
  }

  /** The age `pageage` computes: shifted right, with the accessed bit shifted in (swap.c:30-36). */
  function Score(pt: map<Key, Pte>, ages: seq<nat>, k: Key): nat
  {
    if k in pt && pt[k].addr < |ages| then ages[pt[k].addr] / 2 + (if pt[k].acc then 128 else 0) else 0
  }

  /** Only PTE_A of resident entries without PTE_COW may differ. */
  ghost predicate OnlyAged(pt: map<Key, Pte>, pt': map<Key, Pte>) {
    && pt'.Keys == pt.Keys
    && (forall k :: k in pt ==> pt'[k] == pt[k].(acc := pt'[k].acc))
    && (forall k :: k in pt && (!pt[k].v || pt[k].cow) ==> pt'[k] == pt[k])
  }

  /** What `kalloc` may do to page tables: age entries, and page out resident ones without PTE_COW. */
  ghost predicate Spared(pt: map<Key, Pte>, pt': map<Key, Pte>) {
    && pt'.Keys == pt.Keys
    && (forall k :: k in pt && (!pt[k].v || pt[k].cow) ==> pt'[k] == pt[k])
    && (forall k :: k in pt && (pt'[k].v || pt'[k].pg) ==> pt[k].v || pt[k].pg)
  }

  predicate Before(k: Key, p: nat, i: nat) { k.p < p || (k.p == p && k.i < i) }

  // What the scan knows after weighing everything before page `i` of process `p`, compared with the
  // state `vm0`, `ages0` it started from.

  ghost predicate Best(vm0: Vm, procs: seq<Proc>, ages0: seq<nat>, ret: Option<Key>, minage: nat) {
    if ret.Some? then
      && Candidate(vm0, procs, ret.value) && minage == Score(vm0.pt, ages0, ret.value) < 255
      && forall k :: Candidate(vm0, procs, k) && Before(k, ret.value.p, ret.value.i) ==>
        minage < Score(vm0.pt, ages0, k)
    else minage == 255
  }

  // Which entries the scan looks at, and so ages.

  /** An entry that `pageage` is called on if the scan gets there. */
  predicate Weighable(pt: map<Key, Pte>, procs: seq<Proc>, k: Key) {
    k in pt && pt[k].v && !pt[k].cow && k.p < |procs| && Scanned(procs[k.p]) && k.i < procs[k.p].pages
  }

  /** Among the entries before page `i` of process `p` is a candidate of age 0. */
  ghost predicate ZeroBy(vm0: Vm, procs: seq<Proc>, ages0: seq<nat>, p: nat, i: nat) {
    exists k :: Candidate(vm0, procs, k) && Before(k, p, i) && Score(vm0.pt, ages0, k) == 0
  }

  /** The scan gets to `k`: it did not leave the process at an earlier page, a candidate of age 0 being known there. */
  ghost predicate Looked(vm0: Vm, procs: seq<Proc>, ages0: seq<nat>, k: Key) {
    && Weighable(vm0.pt, procs, k)
    && forall i: nat :: i < k.i && Weighable(vm0.pt, procs, Key(k.p, i)) ==> !ZeroBy(vm0, procs, ages0, k.p, i + 1)
  }

  /** Exactly the entries looked at so far have lost PTE_A. */
  ghost predicate LookedUpTo(vm0: Vm, procs: seq<Proc>, ages0: seq<nat>, pt: map<Key, Pte>, p: nat, i: nat) {
    && pt.Keys == vm0.pt.Keys
    && forall k :: k in pt ==>
         pt[k] == if Before(k, p, i) && Looked(vm0, procs, ages0, k) then vm0.pt[k].(acc := false) else vm0.pt[k]
  }

  /** The scan of process `p` has not been left before page `i`. */
  ghost predicate Going(vm0: Vm, procs: seq<Proc>, ages0: seq<nat>, p: nat, i: nat) {
    forall j: nat :: j < i && Weighable(vm0.pt, procs, Key(p, j)) ==> !ZeroBy(vm0, procs, ages0, p, j + 1)
  }

  lemma LookOne(vm0: Vm, procs: seq<Proc>, ages0: seq<nat>, pt: map<Key, Pte>, p: nat, i: nat)
    requires LookedUpTo(vm0, procs, ages0, pt, p, i) && Going(vm0, procs, ages0, p, i)
    requires Weighable(vm0.pt, procs, Key(p, i))
    ensures var k := Key(p, i);
      k in pt && pt[k] == vm0.pt[k] && LookedUpTo(vm0, procs, ages0, pt[k := pt[k].(acc := false)], p, i + 1)
  {
    var k := Key(p, i);
    assert Looked(vm0, procs, ages0, k);
    forall l ensures Before(l, p, i + 1) <==> Before(l, p, i) || l == k {
    }
    hide Looked;
  }

  lemma GoStart(vm0: Vm, procs: seq<Proc>, ages0: seq<nat>, p: nat)
    ensures Going(vm0, procs, ages0, p, 0)
  {
  }

  lemma NothingLooked(vm0: Vm, procs: seq<Proc>, ages0: seq<nat>)
    ensures LookedUpTo(vm0, procs, ages0, vm0.pt, 0, 0)
  {
  }

  lemma LookNone(vm0: Vm, procs: seq<Proc>, ages0: seq<nat>, pt: map<Key, Pte>, p: nat, i: nat)
    requires LookedUpTo(vm0, procs, ages0, pt, p, i) && Going(vm0, procs, ages0, p, i)
    requires !Weighable(vm0.pt, procs, Key(p, i))
    ensures LookedUpTo(vm0, procs, ages0, pt, p, i + 1) && Going(vm0, procs, ages0, p, i + 1)
  {
    forall l ensures Before(l, p, i + 1) <==> Before(l, p, i) || l == Key(p, i) {
    }
  }

  lemma LookDone(vm0: Vm, procs: seq<Proc>, ages0: seq<nat>, pt: map<Key, Pte>, p: nat, i: nat)
    requires LookedUpTo(vm0, procs, ages0, pt, p, i) && p < |procs|
    requires i >= procs[p].pages || !Scanned(procs[p])
             || (i > 0 && Weighable(vm0.pt, procs, Key(p, i - 1)) && ZeroBy(vm0, procs, ages0, p, i))
    ensures LookedUpTo(vm0, procs, ages0, pt, p + 1, 0)
  {
    forall l | Before(l, p + 1, 0) && !Before(l, p, i) ensures !Looked(vm0, procs, ages0, l) {
      if i > 0 && Weighable(vm0.pt, procs, Key(p, i - 1)) && ZeroBy(vm0, procs, ages0, p, i) {
        assert i - 1 < l.i;
      }
    }
    forall l ensures Before(l, p, i) ==> Before(l, p + 1, 0) {
    }
  }

  lemma GoOn(vm0: Vm, procs: seq<Proc>, ages0: seq<nat>, p: nat, i: nat)
    requires Going(vm0, procs, ages0, p, i) && !ZeroBy(vm0, procs, ages0, p, i + 1)
    ensures Going(vm0, procs, ages0, p, i + 1)
  {
  }

  lemma NotWeighable(pt0: map<Key, Pte>, pt: map<Key, Pte>, procs: seq<Proc>, k: Key)
    requires OnlyAged(pt0, pt) && (k !in pt || !pt[k].v || pt[k].cow)
    ensures !Weighable(pt0, procs, k)
  {
  }

  /** The least age so far is 0 exactly if a candidate of age 0 has been weighed. */
  lemma ZeroIsLeast(vm0: Vm, procs: seq<Proc>, ages0: seq<nat>, ret: Option<Key>, minage: nat, p: nat, i: nat)
    requires Best(vm0, procs, ages0, ret, minage) && Weighed(vm0, procs, ages0, minage, p, i)
    requires ret.Some? ==> Before(ret.value, p, i)
    ensures minage == 0 <==> ZeroBy(vm0, procs, ages0, p, i)
  {
  }

  ghost predicate Weighed(vm0: Vm, procs: seq<Proc>, ages0: seq<nat>, minage: nat, p: nat, i: nat) {
    forall k :: Candidate(vm0, procs, k) && (Before(k, p, i) || minage == 0) ==> minage <= Score(vm0.pt, ages0, k)
  }

  ghost predicate Untouched(vm0: Vm, procs: seq<Proc>, ages0: seq<nat>, pt: map<Key, Pte>, ages: seq<nat>, p: nat,
                            i: nat) {
    forall k :: Candidate(vm0, procs, k) && !Before(k, p, i) ==>
      k in pt && Score(pt, ages, k) == Score(vm0.pt, ages0, k)
  }

  /** A candidate's frame is aged through its own entry only. */
  lemma CandidatesAlone(vm: Vm, procs: seq<Proc>, hole: Option<nat>, k: Key)
    requires Inv(vm, hole) && k in vm.pt && vm.pt[k].v
    ensures forall l :: Candidate(vm, procs, l) && l != k ==> vm.pt[l].addr != vm.pt[k].addr
  {
    forall l | Candidate(vm, procs, l) && l != k ensures vm.pt[l].addr != vm.pt[k].addr {
      SoleCandidate(vm, hole, l);
    }
  }

  lemma SoleCandidate(vm: Vm, hole: Option<nat>, k: Key)
    requires Inv(vm, hole) && Evictable(vm, k)
    ensures forall l :: l in vm.pt && vm.pt[l].v && vm.pt[l].addr == vm.pt[k].addr ==> l == k
    ensures vm.held[vm.pt[k].addr] == 0 && hole != Some(vm.pt[k].addr)
  {
    hide TableOk, CountsOk, FreeOk, SlotsOk;
    CountFacts(vm, hole);
    MappedCounts(vm, hole, k);
  }

  lemma SkipPage(vm0: Vm, procs: seq<Proc>, ages0: seq<nat>, pt: map<Key, Pte>, ages: seq<nat>, minage: nat, p: nat,
                 i: nat)
    requires !Old(pt, Key(p, i)).v || Old(pt, Key(p, i)).cow
    requires OnlyAged(vm0.pt, pt)
    requires Untouched(vm0, procs, ages0, pt, ages, p, i) && Weighed(vm0, procs, ages0, minage, p, i)
    ensures Untouched(vm0, procs, ages0, pt, ages, p, i + 1) && Weighed(vm0, procs, ages0, minage, p, i + 1)
  {
    assert !Candidate(vm0, procs, Key(p, i));
  }

  lemma AgedEntry(pt0: map<Key, Pte>, pt: map<Key, Pte>, k: Key)
    requires OnlyAged(pt0, pt) && k in pt
    ensures k in pt0 && pt[k] == pt0[k].(acc := pt[k].acc)
  {
  }

  /** Leaving a process, at its end or because nothing can be younger than age 0. */
  lemma ScanDone(vm0: Vm, procs: seq<Proc>, ages0: seq<nat>, pt: map<Key, Pte>, ages: seq<nat>, minage: nat, p: nat,
                 i: nat)
    requires p < |procs| && (i >= procs[p].pages || minage == 0)
    requires Untouched(vm0, procs, ages0, pt, ages, p, i) && Weighed(vm0, procs, ages0, minage, p, i)
    ensures Untouched(vm0, procs, ages0, pt, ages, p + 1, 0) && Weighed(vm0, procs, ages0, minage, p + 1, 0)
  {
  }

  /** The scan has weighed one more page, `k`; its frame is nobody else's candidate. */
  lemma PageDone(vm0: Vm, procs: seq<Proc>, ages0: seq<nat>, pt: map<Key, Pte>, ages: seq<nat>, p: nat, i: nat,
                 age: nat)
    requires Untouched(vm0, procs, ages0, pt, ages, p, i) && OnlyAged(vm0.pt, pt)
    requires var k := Key(p, i); k in pt && pt[k].addr < |ages| && (pt[k].v && !pt[k].cow)
    requires forall l :: Candidate(vm0, procs, l) && l != Key(p, i) ==> vm0.pt[l].addr != pt[Key(p, i)].addr
    ensures var k := Key(p, i);
      var pt', ages' := pt[k := pt[k].(acc := false)], ages[pt[k].addr := age];
      OnlyAged(vm0.pt, pt') && Untouched(vm0, procs, ages0, pt', ages', p, i + 1)
  {
    var k := Key(p, i);
    var pt', ages' := pt[k := pt[k].(acc := false)], ages[pt[k].addr := age];
    forall l | Candidate(vm0, procs, l) && !Before(l, p, i + 1)
      ensures l in pt' && Score(pt', ages', l) == Score(vm0.pt, ages0, l)
    {
      assert !Before(l, p, i) && l != k;
      assert pt[l].addr == vm0.pt[l].addr;
    }
  }

  lemma WeighPage(vm0: Vm, procs: seq<Proc>, ages0: seq<nat>, pt: map<Key, Pte>, ages: seq<nat>,
                  ret: Option<Key>, minage: nat, p: nat, i: nat, age: nat)
    requires p < |procs| && i < procs[p].pages && Scanned(procs[p])
    requires OnlyAged(vm0.pt, pt) && Untouched(vm0, procs, ages0, pt, ages, p, i)
    requires Best(vm0, procs, ages0, ret, minage) && Weighed(vm0, procs, ages0, minage, p, i)
    requires var k := Key(p, i);
      k in pt && pt[k].v && !pt[k].cow && pt[k].addr < |ages| == |ages0| && age == Score(pt, ages, k)
    requires pt[Key(p, i)].addr < |vm0.refs|
    requires forall l :: Candidate(vm0, procs, l) && l != Key(p, i) ==> vm0.pt[l].addr != pt[Key(p, i)].addr
    ensures var k := Key(p, i); var f := pt[k].addr;
      var pt', ages' := pt[k := pt[k].(acc := false)], ages[f := age];
      var take := age < minage && vm0.refs[f] == 1;
      && OnlyAged(vm0.pt, pt') && Untouched(vm0, procs, ages0, pt', ages', p, i + 1)
      && Best(vm0, procs, ages0, if take then Some(k) else ret, if take then age else minage)
      && Weighed(vm0, procs, ages0, if take then age else minage, p, i + 1)
  {
    var k := Key(p, i);
    PageDone(vm0, procs, ages0, pt, ages, p, i, age);
    assert Candidate(vm0, procs, k) <==> vm0.refs[pt[k].addr] == 1;
    assert Candidate(vm0, procs, k) ==> age == Score(vm0.pt, ages0, k);
    hide Candidate, Score, OnlyAged, Untouched;
  }

  /** What `pageout` of `k` to slot `s` did. */
  ghost predicate PagedOut(vm: Vm, vm': Vm, k: Key, s: nat) {
    && s < |vm.srefs| == |vm.swap| && vm.srefs[s] == 0 && (forall i :: 0 <= i < s ==> vm.srefs[i] != 0)
    && k in vm.pt && vm.pt[k].addr < |vm.frames|
    && vm' == vm.(pt := vm.pt[k := vm.pt[k].(v := false, pg := true, addr := s)],
                  swap := vm.swap[s := vm.frames[vm.pt[k].addr]], srefs := vm.srefs[s := 1])
  }

  /** ... and what `find_swapping_page` did, for an entry that may go, whose frame is `f`. */
  ghost predicate EvictedBy(vm: Vm, vm': Vm, k: Key, s: nat, f: nat) {
    Evictable(vm, k) && f == vm.pt[k].addr && vm'.refs == vm.refs[f := 0] && PagedOut(vm, vm'.(refs := vm.refs), k, s)
  }

  /** Every page that could go is too old, that is, of age 255, or there is no free slot. */
  ghost predicate NothingToEvict(vm: Vm, procs: seq<Proc>, ages: seq<nat>) {
    (forall i :: 0 <= i < |vm.srefs| ==> vm.srefs[i] != 0)
    || forall k :: Candidate(vm, procs, k) ==> Score(vm.pt, ages, k) >= 255
  }

  /** Memory is exhausted: no frame is free and none can be made free. */
  ghost predicate NoFrame(vm: Vm, procs: seq<Proc>, ages: seq<nat>) {
    vm.free == [] && NothingToEvict(vm, procs, ages)
  }

  /** Page tables become `pt'` by paging out `k`, a candidate of least age, and aging others. */
  ghost predicate Chosen(vm: Vm, pt': map<Key, Pte>, procs: seq<Proc>, ages: seq<nat>, k: Key) {
    && Candidate(vm, procs, k) && Score(vm.pt, ages, k) < 255
    && (forall l :: Candidate(vm, procs, l) ==> Score(vm.pt, ages, k) <= Score(vm.pt, ages, l))
    && (forall l :: Candidate(vm, procs, l) && Before(l, k.p, k.i) ==> Score(vm.pt, ages, k) < Score(vm.pt, ages, l))
    && k in pt' && pt'[k].pg && pt'[k] == vm.pt[k].(v := false, pg := true, acc := pt'[k].acc, addr := pt'[k].addr)
    && OnlyAged(vm.pt, pt'[k := vm.pt[k]])
  }

  lemma ChosenBy(vm: Vm, vm1: Vm, vm': Vm, procs: seq<Proc>, ages: seq<nat>, k: Key, s: nat, f: nat)
    requires Candidate(vm, procs, k) && Score(vm.pt, ages, k) < 255 && OnlyAged(vm.pt, vm1.pt)
    requires forall l :: Candidate(vm, procs, l) ==> Score(vm.pt, ages, k) <= Score(vm.pt, ages, l)
    requires forall l :: Candidate(vm, procs, l) && Before(l, k.p, k.i) ==>
        Score(vm.pt, ages, k) < Score(vm.pt, ages, l)
    requires EvictedBy(vm1, vm', k, s, f)
    ensures Chosen(vm, vm'.pt, procs, ages, k)
  {
    AgedBut(vm.pt, vm1.pt, vm'.pt, k);
    hide Candidate, Score, Evictable, OnlyAged;
  }

  lemma AgedBut(pt: map<Key, Pte>, pt1: map<Key, Pte>, pt': map<Key, Pte>, k: Key)
    requires OnlyAged(pt, pt1) && k in pt1 && k in pt' && pt' == pt1[k := pt'[k]]
    ensures k in pt && pt1[k] == pt[k].(acc := pt1[k].acc) && OnlyAged(pt, pt'[k := pt[k]])
  {
  }

  /** `kalloc_cow` gives up its share first, which makes nothing evictable. */
  lemma HoleNoFrame(vm: Vm, procs: seq<Proc>, ages: seq<nat>, k: Key)
    requires Inv(vm, None) && k in vm.pt && vm.pt[k].v && vm.pt[k].cow && vm.pt[k].addr < |vm.refs|
    requires vm.refs[vm.pt[k].addr] >= 2
    ensures var f := vm.pt[k].addr;
      NoFrame(vm.(refs := vm.refs[f := vm.refs[f] - 1]), procs, ages) <==> NoFrame(vm, procs, ages)
  {
    hide Score, Sizes, TableOk, CountsOk, FreeOk, SlotsOk;
    var vm' := vm.(refs := vm.refs[vm.pt[k].addr := vm.refs[vm.pt[k].addr] - 1]);
    forall l ensures Candidate(vm', procs, l) <==> Candidate(vm, procs, l) {
    }
  }

  /** A store to `k` needs a frame: the page is not resident, or it is shared copy-on-write. */
  predicate NeedsFrame(vm: Vm, k: Key) {
    var e := Old(vm.pt, k);
    !e.v || (e.cow && e.addr < |vm.refs| && vm.refs[e.addr] != 1)
  }

  /** Process `k.p` may store to page `k`, and there is memory to do it. */
  ghost predicate CanStore(vm: Vm, procs: seq<Proc>, ages: seq<nat>, k: Key) {
    && k in View(vm) && View(vm)[k].writable && View(vm)[k].perm.u
    && (NeedsFrame(vm, k) ==> !NoFrame(vm, procs, ages))
  }

  /** Process `k.p` may load or fetch from page `k`, and there is memory to do it. */
  ghost predicate CanLoad(vm: Vm, procs: seq<Proc>, ages: seq<nat>, k: Key, fetch: bool) {
    && k in View(vm) && View(vm)[k].perm.u && (if fetch then View(vm)[k].perm.x else View(vm)[k].perm.r)
    && (!Old(vm.pt, k).v ==> !NoFrame(vm, procs, ages))
  }

  /** A page of the process can be made resident. */
  ghost predicate CanFetch(vm: Vm, procs: seq<Proc>, ages: seq<nat>, k: Key) {
    k in View(vm) && !Old(vm.pt, k).v && !NoFrame(vm, procs, ages)
  }

  /** A page stays as it is while it is paged out, unless it is `k`. */
  ghost predicate OutStays(pt: map<Key, Pte>, pt': map<Key, Pte>, k: Key) {
    forall l :: l != k && Old(pt, l).pg && !Old(pt, l).v ==> Old(pt', l) == Old(pt, l)
  }

  lemma VictimStays(vm: Vm, vm1: Vm, procs: seq<Proc>, k: Key)
    requires Candidate(vm, procs, k) && OnlyAged(vm.pt, vm1.pt) && vm1.refs == vm.refs
    ensures Evictable(vm1, k)
  {
  }

  lemma SparedBy(pt0: map<Key, Pte>, pt1: map<Key, Pte>, pt: map<Key, Pte>)
    requires OnlyAged(pt0, pt1)
    requires pt == pt1 || exists k :: k in pt1 && pt1[k].v && !pt1[k].cow && pt == pt1[k := Old(pt, k)]
    ensures Spared(pt0, pt)
  {
  }

  lemma NothingSpared(pt: map<Key, Pte>)
    ensures Spared(pt, pt)
  {
  }

  lemma EntryBounds(vm: Vm, hole: Option<nat>)
    requires Inv(vm, hole)
    ensures |vm.refs| == |vm.frames| == |vm.held| && |vm.swap| == |vm.srefs|
  {
    hide TableOk, CountsOk, FreeOk, SlotsOk, SharingOk;
  }

  lemma TakenFrame(vm: Vm, hole: Option<nat>, f: nat)
    requires Inv(vm, hole) && vm.free != [] && f == vm.free[0]
    ensures f < |vm.refs| && vm.refs[f] == 0 && hole != Some(f) && f < |vm.held| && vm.held[f] == 0
  {
    hide TableOk, CountsOk, SlotsOk, SharingOk;
    assert f in vm.free;
    CountFacts(vm, hole);
  }

  // ----- Ages ------------------------------------------------------------------------------------------

  /** Whether PTE_A was found set at the visit that `j` others followed; `seen` holds one frame's visits,
      latest last. */
  predicate Bit(seen: seq<bool>, j: nat) { j < |seen| && seen[|seen| - 1 - j] }

  function Power(n: nat): nat { if n == 0 then 1 else 2 * Power(n - 1) }

  lemma Powers()
    ensures Power(7) == 128 && Power(8) == 256
  {
    assert Power(3) == 8 && Power(5) == 32;
  }

  /** The number whose bits, the highest first, tell of the last eight visits. */
  function AgeFrom(seen: seq<bool>, j: nat): nat
    decreases 8 - j
  {
    if j >= 8 then 0 else (if Bit(seen, j) then Power(7 - j) else 0) + AgeFrom(seen, j + 1)
  }

  function AgeOf(seen: seq<bool>): nat { AgeFrom(seen, 0) }

  /** `g` was used in the latest of the last eight visits in which they differ. */
  ghost predicate UsedLater(g: seq<bool>, h: seq<bool>) {
    exists j: nat :: j < 8 && LaterAt(g, h, j)
  }

  ghost predicate LaterAt(g: seq<bool>, h: seq<bool>, j: nat) {
    Bit(g, j) && !Bit(h, j) && forall i: nat :: i < j ==> Bit(g, i) == Bit(h, i)
  }

  lemma {:induction false} AgeBound(seen: seq<bool>, j: nat)
    requires j <= 8
    ensures AgeFrom(seen, j) < Power(8 - j)
    decreases 8 - j
  {
    if j < 8 { AgeBound(seen, j + 1); }
  }

  /** A visit halves the age and sets the top bit if the page was used. */
  lemma {:induction false} AgeShift(seen: seq<bool>, b: bool, j: nat)
    requires j < 8
    ensures 2 * AgeFrom(seen + [b], j + 1) + (if Bit(seen, 7) then 1 else 0) == AgeFrom(seen, j)
    decreases 8 - j
  {
    assert Bit(seen + [b], j + 1) == Bit(seen, j);
    if j < 7 { AgeShift(seen, b, j + 1); } else { assert AgeFrom(seen + [b], 8) == 0 && AgeFrom(seen, 8) == 0; }
  }

  lemma AgeTop(seen: seq<bool>)
    ensures AgeOf(seen) == (if Bit(seen, 0) then 128 else 0) + AgeFrom(seen, 1) < 256
  {
    AgeBound(seen, 0);
    Powers();
    hide Power, Bit;
  }

  lemma Halved(x: nat, c: nat, a: nat)
    requires 2 * x + c == a && c <= 1
    ensures a / 2 == x
  {
  }

  lemma AgeMore(seen: seq<bool>, b: bool)
    ensures AgeOf(seen + [b]) == AgeOf(seen) / 2 + (if b then 128 else 0) < 256
  {
    hide AgeFrom, Power, Bit;
    AgeShift(seen, b, 0);
    Halved(AgeFrom(seen + [b], 1), if Bit(seen, 7) then 1 else 0, AgeFrom(seen, 0));
    AgeTop(seen + [b]);
    LastBit(seen, b);
  }

  lemma LastBit(seen: seq<bool>, b: bool)
    ensures Bit(seen + [b], 0) == b
  {
  }

  /** The order of ages is the order of last use. */
  lemma {:induction false} LaterIsOlder(g: seq<bool>, h: seq<bool>, j: nat, i: nat)
    requires j < 8 && LaterAt(g, h, j) && i <= j
    ensures AgeFrom(g, i) > AgeFrom(h, i)
    decreases j - i
  {
    if i < j { LaterIsOlder(g, h, j, i + 1); } else { AgeBound(h, j + 1); }
  }

  /** A page that was not used in its last eight visits has age 0, and only such a page. */
  lemma Untouched8(seen: seq<bool>)
    ensures AgeOf(seen) == 0 <==> forall j: nat :: j < 8 ==> !Bit(seen, j)
  {
    if forall j: nat :: j < 8 ==> !Bit(seen, j) {
      NoBits(seen, 0);
    } else {
      var j: nat :| j < 8 && Bit(seen, j);
      SomeBit(seen, j, 0);
    }
  }

  lemma {:induction false} NoBits(seen: seq<bool>, i: nat)
    requires forall j: nat :: j < 8 ==> !Bit(seen, j)
    ensures AgeFrom(seen, i) == 0
    decreases 8 - i
  {
    if i < 8 { NoBits(seen, i + 1); }
  }

  lemma {:induction false} SomeBit(seen: seq<bool>, j: nat, i: nat)
    requires i <= j < 8 && Bit(seen, j)
    ensures AgeFrom(seen, i) > 0
    decreases j - i
  {
    if i < j { SomeBit(seen, j, i + 1); } else { PowerPositive(7 - j); }
  }

  lemma {:induction false} PowerPositive(n: nat)
    ensures Power(n) > 0
  {
    if n > 0 { PowerPositive(n - 1); }
  }

  /** The ages are those that the visits so far give. */
  ghost predicate Remembers(ages: seq<nat>, seen: seq<seq<bool>>) {
    |seen| == |ages| && forall f :: 0 <= f < |ages| ==> ages[f] == AgeOf(seen[f])
  }

  /** Visits are only added. */
  ghost predicate Grew(was: seq<seq<bool>>, seen: seq<seq<bool>>) {
    |seen| == |was| && forall f :: 0 <= f < |was| ==> was[f] <= seen[f]
  }

  lemma GrewOn(a: seq<seq<bool>>, b: seq<seq<bool>>, c: seq<seq<bool>>)
    ensures Grew(a, a)
    ensures Grew(a, b) && Grew(b, c) ==> Grew(a, c)
  {
  }

  /** The visits to the frame of `k`, with the one that is due. */
  ghost function Visits(pt: map<Key, Pte>, seen: seq<seq<bool>>, k: Key): seq<bool>
    requires k in pt && pt[k].addr < |seen|
  {
    seen[pt[k].addr] + [pt[k].acc]
  }

  lemma ScoreIs(pt: map<Key, Pte>, ages: seq<nat>, seen: seq<seq<bool>>, k: Key)
    requires Remembers(ages, seen) && k in pt && pt[k].addr < |ages|
    ensures Score(pt, ages, k) == AgeOf(Visits(pt, seen, k)) < 256
  {
    AgeMore(seen[pt[k].addr], pt[k].acc);
  }

  /** What eviction promises: the page that goes is not one that was used later than another that could go, and none
      that is in use while another of age below 254 is not. */
  lemma NotUsedLater(vm: Vm, pt': map<Key, Pte>, procs: seq<Proc>, ages: seq<nat>, seen: seq<seq<bool>>, k: Key, l: Key)
    requires Chosen(vm, pt', procs, ages, k) && Candidate(vm, procs, l) && Remembers(ages, seen)
    requires vm.pt[k].addr < |ages| && vm.pt[l].addr < |ages|
    ensures !UsedLater(Visits(vm.pt, seen, k), Visits(vm.pt, seen, l))
    ensures !vm.pt[l].acc && ages[vm.pt[l].addr] < 254 ==> !vm.pt[k].acc
  {
    ScoreIs(vm.pt, ages, seen, k);
    ScoreIs(vm.pt, ages, seen, l);
    var g, h := Visits(vm.pt, seen, k), Visits(vm.pt, seen, l);
    if UsedLater(g, h) {
      var j: nat :| j < 8 && LaterAt(g, h, j);
      LaterIsOlder(g, h, j, 0);
    }
    InUseIsOld(seen[vm.pt[k].addr], vm.pt[k].acc);
    InUseIsOld(seen[vm.pt[l].addr], vm.pt[l].acc);
  }

  /** The page that goes and any other that could. */
  ghost predicate Fair(vm: Vm, procs: seq<Proc>, ages: seq<nat>, seen: seq<seq<bool>>, k: Key) {
    && k in vm.pt && |seen| == |ages| && vm.pt[k].addr < |ages|
    && forall l :: Candidate(vm, procs, l) && vm.pt[l].addr < |ages| ==> FairTo(vm, ages, seen, k, l)
  }

  ghost predicate FairTo(vm: Vm, ages: seq<nat>, seen: seq<seq<bool>>, k: Key, l: Key)
    requires k in vm.pt && l in vm.pt && vm.pt[k].addr < |seen| == |ages| && vm.pt[l].addr < |seen|
  {
    && !UsedLater(Visits(vm.pt, seen, k), Visits(vm.pt, seen, l))
    && (!vm.pt[l].acc && ages[vm.pt[l].addr] < 254 ==> !vm.pt[k].acc)
  }

  lemma ChosenIsFair(vm: Vm, pt': map<Key, Pte>, procs: seq<Proc>, ages: seq<nat>, seen: seq<seq<bool>>, k: Key)
    requires Chosen(vm, pt', procs, ages, k) && Remembers(ages, seen) && |ages| == |vm.refs|
    ensures Fair(vm, procs, ages, seen, k)
  {
    hide Chosen, Remembers, UsedLater;
    assert k in vm.pt && vm.pt[k].addr < |ages| && |seen| == |ages| by { ChosenBounds(vm, pt', procs, ages, seen, k); }
    forall l | Candidate(vm, procs, l) && vm.pt[l].addr < |ages| ensures FairTo(vm, ages, seen, k, l) {
      NotUsedLater(vm, pt', procs, ages, seen, k, l);
    }
  }

  lemma ChosenBounds(vm: Vm, pt': map<Key, Pte>, procs: seq<Proc>, ages: seq<nat>, seen: seq<seq<bool>>, k: Key)
    requires Chosen(vm, pt', procs, ages, k) && Remembers(ages, seen) && |ages| == |vm.refs|
    ensures k in vm.pt && vm.pt[k].addr < |ages| && |seen| == |ages|
  {
  }

  /** The age that protects a page whatever the others do: it was used in each of the last eight visits. */
  lemma AlwaysUsed(seen: seq<bool>)
    ensures AgeOf(seen) >= 255 <==> forall j: nat :: j < 8 ==> Bit(seen, j)
  {
    hide Bit, Power;
    if forall j: nat :: j < 8 ==> Bit(seen, j) {
      AllBits(seen, 0);
    } else {
      var j: nat :| j < 8 && !Bit(seen, j);
      LackingBit(seen, j, 0);
    }
    Powers();
    hide Power;
  }

  lemma {:induction false} AllBits(seen: seq<bool>, i: nat)
    requires i <= 8 && forall j: nat :: j < 8 ==> Bit(seen, j)
    ensures AgeFrom(seen, i) == Power(8 - i) - 1
    decreases 8 - i
  {
    if i < 8 { AllBits(seen, i + 1); }
  }

  lemma {:induction false} LackingBit(seen: seq<bool>, j: nat, i: nat)
    requires i <= j < 8 && !Bit(seen, j)
    ensures AgeFrom(seen, i) < Power(8 - i) - 1
    decreases j - i
  {
    if i < j { LackingBit(seen, j, i + 1); } else { AgeBound(seen, j + 1); PowerPositive(7 - j); }
  }

  /** Eviction finds nothing exactly when no slot is free or every page that could go was used at each of its last
      eight visits. */
  lemma NothingIdle(vm: Vm, procs: seq<Proc>, ages: seq<nat>, seen: seq<seq<bool>>)
    requires Remembers(ages, seen) && |ages| == |vm.refs|
    ensures NothingToEvict(vm, procs, ages) <==>
        (forall i :: 0 <= i < |vm.srefs| ==> vm.srefs[i] != 0)
        || forall k :: Candidate(vm, procs, k) && vm.pt[k].addr < |seen| ==>
             forall j: nat :: j < 8 ==> Bit(Visits(vm.pt, seen, k), j)
  {
    hide Score, Bit, Visits, Remembers;
    forall k | Candidate(vm, procs, k)
      ensures vm.pt[k].addr < |seen|
      ensures Score(vm.pt, ages, k) >= 255 <==> forall j: nat :: j < 8 ==> Bit(Visits(vm.pt, seen, k), j)
    {
      RememberedSize(ages, seen);
      ScoreIs(vm.pt, ages, seen, k);
      AlwaysUsed(Visits(vm.pt, seen, k));
    }
  }

  lemma RememberedSize(ages: seq<nat>, seen: seq<seq<bool>>)
    requires Remembers(ages, seen)
    ensures |seen| == |ages|
  {
  }

  lemma InUseIsOld(seen: seq<bool>, b: bool)
    ensures AgeOf(seen + [b]) >= 128 <==> b
    ensures !b ==> AgeOf(seen + [b]) == AgeOf(seen) / 2
  {
    AgeMore(seen, b);
    AgeMore(seen, false);
    AgeShift(seen, b, 0);
    Powers();
    hide Power;
    AgeBound(seen, 0);
  }

  /** Pages lie below the size of their process; ages are bytes. */
  ghost predicate PlacedIn(pt: map<Key, Pte>, backing: Mem, procs: seq<Proc>, ages: seq<nat>, frames: nat) {
    && |ages| == frames && (forall f :: 0 <= f < |ages| ==> ages[f] < 256)
    && (forall k :: k in pt && (pt[k].v || pt[k].pg) ==> k.p < |procs| && k.i < procs[k.p].pages)
    && (forall k :: k in backing ==> k.p < |procs| && k.i < procs[k.p].pages)
  }

  lemma AgesSized(pt: map<Key, Pte>, backing: Mem, procs: seq<Proc>, ages: seq<nat>, frames: nat)
    requires PlacedIn(pt, backing, procs, ages, frames)
    ensures |ages| == frames
  {
  }

  /** A process of no pages has none. */
  lemma PlacedGrow(pt: map<Key, Pte>, backing: Mem, procs: seq<Proc>, ages: seq<nat>, frames: nat, c: nat, pages: nat)
    requires PlacedIn(pt, backing, procs, ages, frames) && c < |procs| && procs[c].pages == 0
    ensures PlacedIn(pt, backing, procs[c := procs[c].(pages := pages)], ages, frames)
    ensures forall k: Key :: k.p == c ==> !Old(pt, k).v && !Old(pt, k).pg && k !in backing
    ensures forall k :: k in pt && (pt[k].v || pt[k].pg) ==> k.p < |procs| && k.i < procs[k.p].pages
  {
  }

  /** `vma_fork`: the child has the areas of the parent. */
  function ForkBacking(m: Mem, p: nat, c: nat): Mem {
    map k | k in m.Keys + (set l | l in m && l.p == p :: Key(c, l.i)) :: if k in m then m[k] else m[Key(p, k.i)]
  }

  lemma PlacedAreas(pt: map<Key, Pte>, backing: Mem, backing': Mem, procs: seq<Proc>, ages: seq<nat>, frames: nat,
                    p: nat, c: nat)
    requires PlacedIn(pt, backing, procs, ages, frames) && p < |procs| && c < |procs|
    requires procs[c].pages == procs[p].pages
    requires backing' == ForkBacking(backing, p, c)
    ensures PlacedIn(pt, backing', procs, ages, frames)
  {
  }

  lemma PlacedKept(pt: map<Key, Pte>, pt': map<Key, Pte>, backing: Mem, procs: seq<Proc>, ages: seq<nat>, frames: nat)
    requires PlacedIn(pt, backing, procs, ages, frames)
    requires forall k :: k in pt' && (pt'[k].v || pt'[k].pg) ==>
               (k in pt && (pt[k].v || pt[k].pg)) || (k.p < |procs| && k.i < procs[k.p].pages)
    ensures PlacedIn(pt', backing, procs, ages, frames)
  {
  }

  lemma BackedPlace(pt: map<Key, Pte>, backing: Mem, procs: seq<Proc>, ages: seq<nat>, frames: nat, k: Key)
    requires PlacedIn(pt, backing, procs, ages, frames) && k in backing
    ensures k.p < |procs| && k.i < procs[k.p].pages
  {
  }

  lemma ResidentView(vm: Vm, k: Key)
    requires Inv(vm, None) && k in vm.pt && vm.pt[k].v
    ensures k in View(vm) && View(vm)[k].writable == (vm.pt[k].w || vm.pt[k].cow) && View(vm)[k].perm == vm.pt[k].perm
    ensures vm.pt[k].addr < |vm.frames| && View(vm)[k].bytes == vm.frames[vm.pt[k].addr]
  {
    hide CountsOk, FreeOk, SlotsOk, SharingOk;
    EntryOk(vm, None, k);
    ViewIsLook(vm);
  }

  // ----- The effect of fork, page by page -----------------------------------------------------------

  /** `m` with the first `n` mapped pages of `p` copied to `c`. */
  ghost function CopyView(m: Mem, pt: map<Key, Pte>, p: nat, c: nat, n: nat): Mem {
    map k | k in m.Keys + Copies(m, pt, p, c, n) :: if k in Copies(m, pt, p, c, n) then m[Key(p, k.i)] else m[k]
  }

  ghost function Copies(m: Mem, pt: map<Key, Pte>, p: nat, c: nat, n: nat): set<Key> {
    set k | k in m && k.p == p && k.i < n && (Old(pt, k).v || Old(pt, k).pg) :: Key(c, k.i)
  }

  lemma CopyNothing(m: Mem, pt: map<Key, Pte>, p: nat, c: nat)
    ensures CopyView(m, pt, p, c, 0) == m
  {
    assert Copies(m, pt, p, c, 0) == {};
  }

  lemma CopyOne(m: Mem, pt: map<Key, Pte>, p: nat, c: nat, i: nat)
    requires p != c
    ensures var k := Key(p, i);
      CopyView(m, pt, p, c, i + 1) == if k in m && (Old(pt, k).v || Old(pt, k).pg)
        then CopyView(m, pt, p, c, i)[Key(c, i) := m[k]] else CopyView(m, pt, p, c, i)
  {
    var k := Key(p, i);
    var a, b := Copies(m, pt, p, c, i), Copies(m, pt, p, c, i + 1);
    if k in m && (Old(pt, k).v || Old(pt, k).pg) {
      assert b == a + {Key(c, i)};
    } else {
      assert b == a;
    }
  }

  lemma ParentPage(m: Mem, pt: map<Key, Pte>, p: nat, c: nat, i: nat)
    requires p != c
    ensures var k := Key(p, i);
      (k in CopyView(m, pt, p, c, i) <==> k in m) && (k in m ==> CopyView(m, pt, p, c, i)[k] == m[k])
  {
    assert Key(p, i) !in Copies(m, pt, p, c, i);
  }

  lemma PageOfView(vm: Vm, k: Key)
    requires Inv(vm, None) && k in vm.pt
    ensures vm.pt[k].v || vm.pt[k].pg ==> k in View(vm)
    ensures k in View(vm) <==> Look(vm, k).Some?
    ensures k in View(vm) ==> Look(vm, k).value == View(vm)[k]
  {
    hide CountsOk, FreeOk, SlotsOk, SharingOk;
    EntryOk(vm, None, k);
    ViewIsLook(vm);
  }

  /** What `fork` promises: the child starts with a private copy of every page of the parent. */
  ghost function ForkMem(m: Mem, p: nat, c: nat): Mem {
    map k | k in m.Keys + (set l | l in m && l.p == p :: Key(c, l.i)) ::
      if k.p == c && Key(p, k.i) in m then m[Key(p, k.i)] else m[k]
  }

  /** The state after `uvmcopy`, before `vma_fork`. */
  ghost predicate CopiedTables(vm0: Vm, vm1: Vm, pages: nat, p: nat, c: nat) {
    && Inv(vm0, None) && Inv(vm1, None) && p != c && vm1.backing == vm0.backing
    && (forall k :: k in vm0.pt && (vm0.pt[k].v || vm0.pt[k].pg) && k.p == p ==> k.i < pages)
    && (forall k: Key :: k.p == c ==> !Old(vm0.pt, k).v && !Old(vm0.pt, k).pg && k !in vm0.backing)
    && View(vm1) == CopyView(View(vm0), vm0.pt, p, c, pages)
  }

  predicate Mapped(vm: Vm, k: Key) { Old(vm.pt, k).v || Old(vm.pt, k).pg }

  lemma MappedView(vm: Vm, k: Key)
    requires Inv(vm, None)
    ensures k in View(vm) <==> Mapped(vm, k) || k in vm.backing
    ensures k in View(vm) ==> Look(vm, k) == Some(View(vm)[k])
    ensures Mapped(vm, k) ==>
        k in View(vm) && View(vm)[k].perm == vm.pt[k].perm && (k in vm.backing ==> vm.pt[k].perm.u)
    ensures !Mapped(vm, k) && k in vm.backing ==> View(vm)[k] == vm.backing[k]
  {
    hide CountsOk, FreeOk, SlotsOk, SharingOk;
    ViewIsLook(vm);
    if k in vm.pt { EntryOk(vm, None, k); }
  }

  lemma ChildEntry(vm0: Vm, vm1: Vm, pages: nat, p: nat, c: nat, i: nat)
    requires CopiedTables(vm0, vm1, pages, p, c)
    ensures Mapped(vm1, Key(c, i)) <==> Mapped(vm0, Key(p, i))
    ensures Mapped(vm1, Key(c, i)) ==> Look(vm1, Key(c, i)) == Look(vm0, Key(p, i)) && Key(p, i) in View(vm0)
    ensures Mapped(vm1, Key(c, i)) ==> vm1.pt[Key(c, i)].perm == vm0.pt[Key(p, i)].perm
  {
    hide Inv, View, Look;
    var k, l := Key(p, i), Key(c, i);
    MappedView(vm0, k);
    MappedView(vm0, l);
    MappedView(vm1, l);
  }

  lemma OtherEntry(vm0: Vm, vm1: Vm, pages: nat, p: nat, c: nat, k: Key)
    requires CopiedTables(vm0, vm1, pages, p, c) && k.p != c
    ensures k in View(vm1) <==> k in View(vm0)
    ensures k in View(vm1) ==> View(vm1)[k] == View(vm0)[k]
  {
    hide Inv, View, Look;
    MappedView(vm0, k);
    MappedView(vm1, k);
  }

  lemma ForkLook(vm0: Vm, vm1: Vm, vm: Vm, pages: nat, p: nat, c: nat, k: Key)
    requires CopiedTables(vm0, vm1, pages, p, c) && vm == vm1.(backing := vm.backing)
    requires vm.backing == ForkBacking(vm0.backing, p, c)
    ensures k in ForkMem(View(vm0), p, c) <==> Look(vm, k).Some?
    ensures Look(vm, k).Some? ==> ForkMem(View(vm0), p, c)[k] == Look(vm, k).value
    ensures Mapped(vm, k) && k in vm.backing ==> vm.pt[k].perm.u
  {
    hide Inv, View, CopyView;
    var m0 := View(vm0);
    assert k in m0 && k.p == p ==> Key(c, k.i) in ForkMem(m0, p, c);
    MappedView(vm0, k);
    if k.p == c {
      var q := Key(p, k.i);
      ChildEntry(vm0, vm1, pages, p, c, k.i);
      MappedView(vm0, q);
      assert k in ForkMem(m0, p, c) <==> q in m0;
    } else {
      OtherEntry(vm0, vm1, pages, p, c, k);
      MappedView(vm1, k);
    }
  }

  lemma ForkTable(vm1: Vm, vm: Vm)
    requires Inv(vm1, None) && vm == vm1.(backing := vm.backing)
    requires forall k :: k in vm.backing ==> |vm.backing[k].bytes| == PGSIZE && vm.backing[k].perm.u
    requires forall k :: Mapped(vm, k) && k in vm.backing ==> vm.pt[k].perm.u
    ensures Inv(vm, None)
  {
    hide CountsOk, FreeOk, SlotsOk, SharingOk;
  }

  /** `vma_fork` after `uvmcopy`: pages not yet touched come from the copied areas. */
  lemma ForkAreas(vm0: Vm, vm1: Vm, vm: Vm, pages: nat, p: nat, c: nat)
    requires CopiedTables(vm0, vm1, pages, p, c) && vm == vm1.(backing := vm.backing)
    requires vm.backing == ForkBacking(vm0.backing, p, c)
    ensures Inv(vm, None) && View(vm) == ForkMem(View(vm0), p, c)
  {
    hide Inv, View, CopyView, ForkMem;
    forall k ensures (k in ForkMem(View(vm0), p, c) <==> Look(vm, k).Some?)
                  && (Look(vm, k).Some? ==> ForkMem(View(vm0), p, c)[k] == Look(vm, k).value)
                  && (Mapped(vm, k) && k in vm.backing ==> vm.pt[k].perm.u) {
      ForkLook(vm0, vm1, vm, pages, p, c, k);
    }
    BackingPages(vm0);
    ForkTable(vm1, vm);
    ViewIsLook(vm);
  }

  lemma BackingPages(vm: Vm)
    requires Inv(vm, None)
    ensures forall k :: k in vm.backing ==> |vm.backing[k].bytes| == PGSIZE && vm.backing[k].perm.u
  {
    hide TableOk, CountsOk, FreeOk, SlotsOk, SharingOk;
  }

  // ----- The effect of unmapping ---------------------------------------------------------------------

  ghost function UnmapView(m: Mem, backing: Mem, p: nat, from: nat, n: nat): Mem {
    map k | k in m.Keys + backing.Keys && (if k.p == p && from <= k.i < from + n then k in backing else k in m) ::
      if k.p == p && from <= k.i < from + n then backing[k] else m[k]
  }

  /** The pages of `p` at and above page `pages`. */
  ghost function ShrunkKeys(m: Mem, p: nat, pages: nat): set<Key> {
    set k | k in m && k.p == p && k.i >= pages
  }

  lemma NothingShrunk(vm: Vm, procs: seq<Proc>, ages: seq<nat>, p: nat, pages: nat)
    requires Inv(vm, None) && PlacedIn(vm.pt, vm.backing, procs, ages, |vm.frames|)
    requires p >= |procs| || pages >= procs[p].pages
    ensures ShrunkKeys(View(vm), p, pages) == {}
    ensures View(vm) - ShrunkKeys(View(vm), p, pages) == View(vm)
  {
    hide Inv, View;
    forall k | k in View(vm) ensures !(k.p == p && k.i >= pages) { MappedView(vm, k); }
  }

  lemma ShrinkAreas(vm0: Vm, vm: Vm, procs: seq<Proc>, ages: seq<nat>, p: nat, pages: nat)
    requires Inv(vm0, None) && PlacedIn(vm0.pt, vm0.backing, procs, ages, |vm0.frames|) && p < |procs|
    requires pages < procs[p].pages
    requires vm == vm0.(backing := vm.backing)
    requires vm.backing == map k | k in vm0.backing && !(k.p == p && k.i >= pages) :: vm0.backing[k]
    ensures Inv(vm, None) && PlacedIn(vm.pt, vm.backing, procs, ages, |vm.frames|)
    ensures UnmapView(View(vm), vm.backing, p, pages, procs[p].pages - pages)
            == View(vm0) - ShrunkKeys(View(vm0), p, pages)
  {
    hide View;
    assert Inv(vm, None) by {
      hide CountsOk, FreeOk, SlotsOk, SharingOk;
    }
    ShrinkView(vm0, vm, procs, ages, p, pages);
  }

  lemma ShrinkView(vm0: Vm, vm: Vm, procs: seq<Proc>, ages: seq<nat>, p: nat, pages: nat)
    requires Inv(vm0, None) && Inv(vm, None) && PlacedIn(vm0.pt, vm0.backing, procs, ages, |vm0.frames|)
    requires p < |procs| && pages < procs[p].pages && vm == vm0.(backing := vm.backing)
    requires vm.backing == map k | k in vm0.backing && !(k.p == p && k.i >= pages) :: vm0.backing[k]
    ensures UnmapView(View(vm), vm.backing, p, pages, procs[p].pages - pages)
            == View(vm0) - ShrunkKeys(View(vm0), p, pages)
  {
    hide Inv, View;
    var a := UnmapView(View(vm), vm.backing, p, pages, procs[p].pages - pages);
    var b := View(vm0) - ShrunkKeys(View(vm0), p, pages);
    forall k ensures (k in a <==> k in b) && (k in a ==> a[k] == b[k]) {
      MappedView(vm0, k);
      MappedView(vm, k);
    }
  }

  lemma PlacedShrunk(pt: map<Key, Pte>, backing: Mem, procs: seq<Proc>, ages: seq<nat>, frames: nat, p: nat, pages: nat)
    requires PlacedIn(pt, backing, procs, ages, frames) && p < |procs| && pages < procs[p].pages
    requires forall i :: pages <= i < procs[p].pages ==> !Old(pt, Key(p, i)).v && !Old(pt, Key(p, i)).pg
    requires forall k :: k in backing ==> !(k.p == p && k.i >= pages)
    ensures PlacedIn(pt, backing, procs[p := procs[p].(pages := pages)], ages, frames)
  {
    forall k | k in pt && (pt[k].v || pt[k].pg) && k.p == p ensures k.i < pages {
      assert k == Key(p, k.i) && Old(pt, k) == pt[k];
    }
  }

  // ----- Bytes ---------------------------------------------------------------------------------------

  /** The first virtual address that is not valid (Sv39). */
  const MAXVA: nat := 0x40_0000_0000

  datatype CopyInResult = Copied(bytes: seq<Byte>) | Refused | Crashed

  /** What becomes of a page that `copyin` wants to read. */
  datatype Fetch = Readable | Unreachable | Unprotected

  ghost function FetchOf(vm: Vm, procs: seq<Proc>, ages: seq<nat>, k: Key): Fetch {
    if Old(vm.pt, k).v then
      if vm.pt[k].perm.u then Readable else Unreachable
    else if !CanFetch(vm, procs, ages, k) then Unreachable
    else if View(vm)[k].perm.u then Readable
    else Unprotected
  }

  ghost function StoreMem(m: Mem, k: Key, off: nat, b: Byte): Mem {
    if k in m && off < |m[k].bytes| then m[k := m[k].(bytes := m[k].bytes[off := b])] else m
  }

  /** The byte process `p` sees at virtual address `a`. */
  ghost function ByteAt(m: Mem, p: nat, a: nat): Option<Byte> {
    var k := Key(p, a / PGSIZE);
    if k in m && |m[k].bytes| == PGSIZE then Some(m[k].bytes[a % PGSIZE]) else None
  }

  function Splice(page: Page, off: nat, bytes: seq<Byte>): (r: Page)
    requires off + |bytes| <= |page|
    ensures |r| == |page|
    ensures forall i :: 0 <= i < |r| ==> r[i] == if off <= i < off + |bytes| then bytes[i - off] else page[i]
  {
    page[..off] + bytes + page[off + |bytes|..]
  }

  /** `m'` is `m` with the first `n` bytes of `src` written at `va` by or for process `p`. */
  ghost predicate Wrote(m: Mem, m': Mem, p: nat, va: nat, src: seq<Byte>, n: nat) {
    && n <= |src| && m'.Keys == m.Keys
    && (forall k :: k in m ==> m'[k] == m[k].(bytes := m'[k].bytes) && |m[k].bytes| == |m'[k].bytes| == PGSIZE)
    && (forall q, a: nat :: ByteAt(m', q, a) ==
          if q == p && va <= a < va + n && Key(p, a / PGSIZE) in m then Some(src[a - va]) else ByteAt(m, q, a))
    && (forall a: nat :: va <= a < va + n ==> Key(p, a / PGSIZE) in m)
  }

  /** A store of process `p` to address `a` is allowed. */
  predicate WritableAt(m: Mem, p: nat, a: nat) {
    Key(p, a / PGSIZE) in m && m[Key(p, a / PGSIZE)].writable && m[Key(p, a / PGSIZE)].perm.u
  }

  /** Address `a` lies on a page the process may touch ... */
  predicate UserAt(m: Mem, p: nat, a: nat) { Key(p, a / PGSIZE) in m && m[Key(p, a / PGSIZE)].perm.u }

  /** ... or on one it owns but may not: the guard page below its stack. */
  predicate GuardedAt(m: Mem, p: nat, a: nat) { Key(p, a / PGSIZE) in m && !m[Key(p, a / PGSIZE)].perm.u }

  lemma PagesFull(vm: Vm)
    requires Inv(vm, None)
    ensures forall k :: k in View(vm) ==> |View(vm)[k].bytes| == PGSIZE
  {
    hide TableOk, CountsOk, FreeOk, SlotsOk, SharingOk;
    ViewIsLook(vm);
  }

  lemma FramePage(vm: Vm, f: nat)
    requires Inv(vm, None) && f < |vm.frames|
    ensures |vm.frames[f]| == PGSIZE
  {
    hide TableOk, CountsOk, FreeOk, SlotsOk, SharingOk;
  }

  lemma WroteNothing(m: Mem, p: nat, va: nat, src: seq<Byte>)
    requires forall k :: k in m ==> |m[k].bytes| == PGSIZE
    ensures Wrote(m, m, p, va, src, 0)
  {
  }

  lemma WroteMore(m: Mem, m1: Mem, p: nat, va: nat, src: seq<Byte>, n: nat, more: nat, page: Page)
    requires Wrote(m, m1, p, va, src, n) && n + more <= |src|
    requires Key(p, (va + n) / PGSIZE) in m1 && (va + n) % PGSIZE + more <= PGSIZE
    requires page == Splice(m1[Key(p, (va + n) / PGSIZE)].bytes, (va + n) % PGSIZE, src[n..n + more])
    ensures var k := Key(p, (va + n) / PGSIZE); Wrote(m, m1[k := m1[k].(bytes := page)], p, va, src, n + more)
  {
    var k, off := Key(p, (va + n) / PGSIZE), (va + n) % PGSIZE;
    var m2 := m1[k := m1[k].(bytes := page)];
    forall a: nat | va + n <= a < va + n + more
      ensures a / PGSIZE == (va + n) / PGSIZE && a % PGSIZE == off + (a - va - n)
    {
    }
    forall q, a: nat
      ensures ByteAt(m2, q, a) ==
                      if q == p && va <= a < va + n + more && Key(p, a / PGSIZE) in m
                      then Some(src[a - va]) else ByteAt(m, q, a)
    {
      assert ByteAt(m1, q, a) ==
             if q == p && va <= a < va + n && Key(p, a / PGSIZE) in m
             then Some(src[a - va]) else ByteAt(m, q, a);
      if Key(q, a / PGSIZE) == k {
        if va + n <= a < va + n + more {
          assert page[a % PGSIZE] == src[n..n + more][a - va - n];
        } else {
          assert !(off <= a % PGSIZE < off + more);
        }
      }
    }
  }

  lemma ReadMore(m: Mem, p: nat, va: nat, dst: seq<Byte>, more: nat, bytes: seq<Byte>)
    requires var k, off := Key(p, (va + |dst|) / PGSIZE), (va + |dst|) % PGSIZE;
      k in m && |m[k].bytes| == PGSIZE && off + more <= PGSIZE && bytes == m[k].bytes[off..off + more]
    requires forall i :: 0 <= i < |dst| ==> ByteAt(m, p, va + i) == Some(dst[i])
    ensures forall i :: 0 <= i < |dst + bytes| ==> ByteAt(m, p, va + i) == Some((dst + bytes)[i])
    ensures forall a :: va + |dst| <= a < va + |dst + bytes| ==> Key(p, a / PGSIZE) == Key(p, (va + |dst|) / PGSIZE)
  {
    var from := va + |dst|;
    forall i | |dst| <= i < |dst + bytes| ensures ByteAt(m, p, va + i) == Some((dst + bytes)[i]) {
      assert (va + i) / PGSIZE == from / PGSIZE && (va + i) % PGSIZE == from % PGSIZE + (i - |dst|);
    }
  }

  /** The first touch of a page shows what was there already. */
  lemma TouchOk(vm: Vm, k: Key, mem: nat)
    requires Inv(vm, None) && !Old(vm.pt, k).v && !Old(vm.pt, k).pg && k in vm.backing && JustTaken(vm, mem)
    ensures mem < |vm.frames| == |vm.held| && Inv(Fill(vm, k, mem, vm.backing[k]), None)
    ensures View(Fill(vm, k, mem, vm.backing[k])) == View(vm)
  {
    hide Inv, View, Fill;
    EntryBounds(vm, None);
    BackingPages(vm);
    MappedView(vm, k);
    FillOk(vm, k, mem, vm.backing[k]);
    assert View(vm)[k := View(vm)[k]] == View(vm);
  }

  lemma PageByte(k: Key, off: nat)
    requires off < PGSIZE
    ensures (k.i * PGSIZE + off) / PGSIZE == k.i && (k.i * PGSIZE + off) % PGSIZE == off
  {
  }

  /** Every address of the piece just written is on the page that was made writable. */
  lemma MoreWritable(m: Mem, m': Mem, p: nat, va: nat, n: nat, more: nat, page: Page)
    requires forall a: nat :: va <= a < va + n ==> WritableAt(m, p, a)
    requires WritableAt(m, p, va + n) && (va + n) % PGSIZE + more <= PGSIZE && va + n - (va + n) % PGSIZE < MAXVA
    requires var k := Key(p, (va + n) / PGSIZE); m' == m[k := m[k].(bytes := page)]
    ensures forall a: nat :: va <= a < va + n + more ==> WritableAt(m', p, a)
    ensures va + n + more <= MAXVA
  {
    forall a: nat | va <= a < va + n + more ensures WritableAt(m', p, a) {
      assert a < va + n ==> WritableAt(m, p, a);
      assert a >= va + n ==> a / PGSIZE == (va + n) / PGSIZE;
    }
  }

  lemma MoreUser(m: Mem, p: nat, va: nat, n: nat, more: nat)
    requires forall a: nat :: va <= a < va + n ==> UserAt(m, p, a)
    requires UserAt(m, p, va + n) && (va + n) % PGSIZE + more <= PGSIZE && va + n - (va + n) % PGSIZE < MAXVA
    ensures forall a: nat :: va <= a < va + n + more ==> UserAt(m, p, a)
    ensures va + n + more <= MAXVA
  {
    forall a: nat | va + n <= a < va + n + more ensures UserAt(m, p, a) {
      assert a / PGSIZE == (va + n) / PGSIZE;
    }
  }

  /** Page `l` holds one of the `n` bytes at `va` of process `p`. */
  predicate OnRange(l: Key, p: nat, va: nat, n: nat) {
    l.p == p && n > 0 && va / PGSIZE <= l.i <= (va + n - 1) / PGSIZE
  }

  /** Pages that were paged out still are, except those of the `n` bytes at `va` of process `p`. */
  ghost predicate OutStaysFor(pt: map<Key, Pte>, pt': map<Key, Pte>, p: nat, va: nat, n: nat) {
    forall l :: Old(pt, l).pg && !Old(pt, l).v && !OnRange(l, p, va, n) ==> Old(pt', l) == Old(pt, l)
  }

  lemma NoneFetched(pt: map<Key, Pte>, p: nat, va: nat)
    ensures OutStaysFor(pt, pt, p, va, 0)
  {
  }

  lemma MoreFetched(pt0: map<Key, Pte>, pt1: map<Key, Pte>, pt2: map<Key, Pte>, p: nat, va: nat, n: nat, more: nat)
    requires OutStaysFor(pt0, pt1, p, va, n) && OutStays(pt1, pt2, Key(p, (va + n) / PGSIZE)) && more > 0
    ensures OutStaysFor(pt0, pt2, p, va, n + more)
  {
    assert va / PGSIZE <= (va + n) / PGSIZE <= (va + n + more - 1) / PGSIZE;
    assert n > 0 ==> (va + n - 1) / PGSIZE <= (va + n + more - 1) / PGSIZE;
  }

  /** Pages that hold one of the `n` bytes at `va`. */
  function PagesOf(va: nat, n: nat): nat {
    if n == 0 then 0 else (va + n - 1) / PGSIZE - va / PGSIZE + 1
  }

  /** With a frame on the free list, at most one frame is taken and only the entry of `k` changes. */
  ghost predicate OneFetched(vm: Vm, vm': Vm, k: Key) {
    vm.free != [] ==> |vm'.free| + 1 >= |vm.free| && forall l :: l != k ==> Old(vm'.pt, l) == Old(vm.pt, l)
  }

  lemma OutIsSpared(pt0: map<Key, Pte>, pt: map<Key, Pte>, k: Key)
    requires Spared(pt0, pt)
    ensures !Old(pt0, k).v && !Old(pt0, k).pg ==> !Old(pt, k).v && !Old(pt, k).pg
    ensures k in pt0 && !pt0[k].v ==> k in pt && pt[k] == pt0[k]
  {
  }

  /** The entry of `k` is set after `kalloc` has gone from `vm` to `got`. */
  lemma Fetched(vm: Vm, got: Vm, vm': Vm, k: Key)
    requires Spared(vm.pt, got.pt) && got.free == vm'.free
    requires vm.free != [] ==> got.pt == vm.pt && got.free == vm.free[1..]
    requires forall l :: l != k ==> Old(vm'.pt, l) == Old(got.pt, l)
    ensures OutStays(vm.pt, vm'.pt, k) && OneFetched(vm, vm', k)
  {
  }

  /** So it was for every page of the `n` bytes at `va`. */
  ghost predicate AllFetched(vm: Vm, vm': Vm, p: nat, va: nat, n: nat) {
    && |vm'.free| + PagesOf(va, n) >= |vm.free|
    && forall l :: !OnRange(l, p, va, n) ==> Old(vm'.pt, l) == Old(vm.pt, l)
  }

  lemma FetchesNone(vm: Vm, p: nat, va: nat)
    ensures AllFetched(vm, vm, p, va, 0)
  {
  }

  lemma FetchesMore(vm0: Vm, vm1: Vm, vm2: Vm, p: nat, va: nat, n: nat, more: nat, len: nat)
    requires AllFetched(vm0, vm1, p, va, n) && OneFetched(vm1, vm2, Key(p, (va + n) / PGSIZE))
    requires |vm0.free| >= PagesOf(va, len) && 0 < more && n + more <= len
    requires (n == 0 || (va + n) % PGSIZE == 0) && (va + n) % PGSIZE + more <= PGSIZE
    ensures AllFetched(vm0, vm2, p, va, n + more)
  {
    PagesMore(va, n, more, len);
    assert PagesOf(va, len) > PagesOf(va, n);
    forall l | !OnRange(l, p, va, n + more) ensures !OnRange(l, p, va, n) && l != Key(p, (va + n) / PGSIZE) {
    }
  }

  lemma PagesMore(va: nat, n: nat, more: nat, len: nat)
    requires 0 < more && n + more <= len
    requires (n == 0 || (va + n) % PGSIZE == 0) && (va + n) % PGSIZE + more <= PGSIZE
    ensures (va + n + more - 1) / PGSIZE == (va + n) / PGSIZE >= va / PGSIZE
    ensures n > 0 ==> (va + n - 1) / PGSIZE == (va + n) / PGSIZE - 1
    ensures PagesOf(va, n + more) == PagesOf(va, n) + 1 <= PagesOf(va, len)
  {
    assert (va + n + more - 1) / PGSIZE <= (va + len - 1) / PGSIZE;
  }

  /** Address `va + n` is the first of `len` that the process may not touch: it lies on the guard page, and that
      page is not resident. */
  ghost predicate GuardAhead(vm: Vm, p: nat, va: nat, len: nat, n: nat) {
    && n < len && va + n < MAXVA && (forall a: nat :: va <= a < va + n ==> UserAt(View(vm), p, a))
    && GuardedAt(View(vm), p, va + n) && !Old(vm.pt, Key(p, (va + n) / PGSIZE)).v
  }

  lemma StopIs(vm: Vm, stop: Vm, procs: seq<Proc>, ages: seq<nat>, p: nat, va: nat, len: nat, n: nat)
    requires Inv(vm, None) && View(stop) == View(vm) && AllFetched(vm, stop, p, va, n)
    requires |vm.free| >= PagesOf(va, len) && n < len && (n == 0 || (va + n) % PGSIZE == 0)
    requires !FetchOf(stop, procs, ages, Key(p, (va + n) / PGSIZE)).Readable?
    ensures !UserAt(View(vm), p, va + n)
    ensures var k := Key(p, (va + n) / PGSIZE);
      FetchOf(stop, procs, ages, k).Unprotected? <==> GuardedAt(View(vm), p, va + n) && !Old(vm.pt, k).v
  {
    hide Inv, View;
    var k := Key(p, (va + n) / PGSIZE);
    PagesMore(va, n, 1, len);
    assert Old(stop.pt, k) == Old(vm.pt, k);
    assert stop.free != [];
    if k in vm.pt && vm.pt[k].v { ResidentView(vm, k); }
  }

  lemma NotBoth(m: Mem, p: nat, a: nat)
    ensures !(UserAt(m, p, a) && GuardedAt(m, p, a))
  {
  }

  /** With frames enough, what happens at the page where `copyin` stopped was settled beforehand. */
  lemma CrashForeseen(vm: Vm, stop: Vm, procs: seq<Proc>, ages: seq<nat>, p: nat, va: nat, len: nat, n: nat)
    requires Inv(vm, None) && View(stop) == View(vm) && AllFetched(vm, stop, p, va, n)
    requires |vm.free| >= PagesOf(va, len) && n <= len && (n < len ==> n == 0 || (va + n) % PGSIZE == 0)
    requires forall a: nat :: va <= a < va + n ==> UserAt(View(vm), p, a)
    requires n < len && va + n < MAXVA ==> !FetchOf(stop, procs, ages, Key(p, (va + n) / PGSIZE)).Readable?
    ensures n < len && va + n < MAXVA && FetchOf(stop, procs, ages, Key(p, (va + n) / PGSIZE)).Unprotected? <==>
        exists n0: nat :: GuardAhead(vm, p, va, len, n0)
  {
    hide View, Inv, FetchOf, AllFetched, UserAt, GuardedAt, PagesOf, Old;
    if n < len && va + n < MAXVA {
      StopIs(vm, stop, procs, ages, p, va, len, n);
    }
    if n < len && va + n < MAXVA && FetchOf(stop, procs, ages, Key(p, (va + n) / PGSIZE)).Unprotected? {
      assert GuardAhead(vm, p, va, len, n);
    }
    if n0: nat :| GuardAhead(vm, p, va, len, n0) {
      GuardIsStop(View(vm), p, va, len, n, n0);
    }
  }

  /** An address is the first of the range that the process may not touch only once. */
  lemma GuardIsStop(m: Mem, p: nat, va: nat, len: nat, n: nat, n0: nat)
    requires n <= len && n0 < len && va + n0 < MAXVA
    requires forall a: nat :: va <= a < va + n ==> UserAt(m, p, a)
    requires n < len && va + n < MAXVA ==> !UserAt(m, p, va + n)
    requires (forall a: nat :: va <= a < va + n0 ==> UserAt(m, p, a)) && GuardedAt(m, p, va + n0)
    ensures n == n0
  {
    NotBoth(m, p, va + n0);
    hide UserAt, GuardedAt;
  }

  /** What `uvmalloc` maps. */
  function ZeroPage(w: bool, x: bool): UserPage { UserPage(Filled(0), w, Perm(true, x, true)) }

  ghost function GuardMem(m: Mem, k: Key): Mem {
    if k in m then m[k := m[k].(perm := m[k].perm.(u := false))] else m
  }

  lemma PlacedMore(pt: map<Key, Pte>, backing: Mem, procs: seq<Proc>, ages: seq<nat>, frames: nat, p: nat, pt': map<Key,
                   Pte>)
    requires PlacedIn(pt, backing, procs, ages, frames) && p < |procs|
    requires var k := Key(p, procs[p].pages); k in pt' && pt' == pt[k := pt'[k]]
    ensures PlacedIn(pt', backing, procs[p := procs[p].(pages := procs[p].pages + 1)], ages, frames)
  {
  }

  // ----- Aging by the clock --------------------------------------------------------------------------

  /** `update_page_age` visits entry `k` before page `a` of process `p`. */
  predicate Visited(pt: map<Key, Pte>, procs: seq<Proc>, k: Key, p: nat, a: nat) {
    k in pt && pt[k].v && k.p < |procs| && Scanned(procs[k.p]) && k.i < procs[k.p].pages && Before(k, p, a)
  }

  /** After the whole of it, exactly the resident entries below the size of processes past the first two that run,
      can run or sleep have lost PTE_A. */
  lemma TickIs(pt0: map<Key, Pte>, ages0: seq<nat>, pt: map<Key, Pte>, ages: seq<nat>, procs: seq<Proc>, k: Key)
    requires AgedUpTo(pt0, ages0, pt, ages, procs, |procs|, 0) && k in pt0
    ensures k in pt && pt[k].(acc := pt0[k].acc) == pt0[k]
    ensures var p := if k.p < |procs| then procs[k.p] else Proc(UNUSED, 0, 0);
      pt[k].acc <==> pt0[k].acc && !(pt0[k].v && k.i < p.pages && p.pid >= 3
                                     && (p.state == RUNNING || p.state == RUNNABLE || p.state == SLEEPING))
  {
  }

  ghost predicate SoleEntry(pt: map<Key, Pte>, k: Key) {
    k in pt && forall l :: l in pt && pt[l].v && pt[l].addr == pt[k].addr ==> l == k
  }

  /** What visiting everything before page `a` of process `p` does to accessed bits and ages. */
  ghost predicate AgedUpTo(pt0: map<Key, Pte>, ages0: seq<nat>, pt: map<Key, Pte>, ages: seq<nat>, procs: seq<Proc>,
                           p: nat, a: nat) {
    && pt.Keys == pt0.Keys && |ages| == |ages0|
    && (forall k :: k in pt ==> pt[k] == if Visited(pt0, procs, k, p, a) then pt0[k].(acc := false) else pt0[k])
    && (forall k :: Visited(pt0, procs, k, p, a) && SoleEntry(pt0, k) && pt0[k].addr < |ages| ==>
          ages[pt0[k].addr] == Score(pt0, ages0, k))
    && (forall f :: 0 <= f < |ages| && (forall k :: Visited(pt0, procs, k, p, a) ==> pt0[k].addr != f) ==>
          ages[f] == ages0[f])
  }

  /** ... and to the visits. */
  ghost predicate SeenUpTo(pt0: map<Key, Pte>, seen0: seq<seq<bool>>, seen: seq<seq<bool>>, procs: seq<Proc>, p: nat,
                           a: nat) {
    && |seen| == |seen0|
    && (forall k :: Visited(pt0, procs, k, p, a) && SoleEntry(pt0, k) && pt0[k].addr < |seen0| ==>
          seen[pt0[k].addr] == Visits(pt0, seen0, k))
    && (forall f :: 0 <= f < |seen| && (forall k :: Visited(pt0, procs, k, p, a) ==> pt0[k].addr != f) ==>
          seen[f] == seen0[f])
  }

  lemma NothingSeen(pt: map<Key, Pte>, seen: seq<seq<bool>>, procs: seq<Proc>)
    ensures SeenUpTo(pt, seen, seen, procs, 0, 0)
  {
  }

  lemma SeenOne(pt0: map<Key, Pte>, seen0: seq<seq<bool>>, pt1: map<Key, Pte>, seen1: seq<seq<bool>>,
                seen: seq<seq<bool>>, procs: seq<Proc>, p: nat, a: nat)
    requires SeenUpTo(pt0, seen0, seen1, procs, p, a) && p < |procs| && Scanned(procs[p]) && a < procs[p].pages
    requires pt1.Keys == pt0.Keys
    requires forall k :: k in pt1 ==> pt1[k] == if Visited(pt0, procs, k, p, a) then pt0[k].(acc := false) else pt0[k]
    requires var k := Key(p, a);
      if k in pt1 && pt1[k].v then
        pt1[k].addr < |seen1| && seen == seen1[pt1[k].addr := seen1[pt1[k].addr] + [pt1[k].acc]]
      else seen == seen1
    ensures SeenUpTo(pt0, seen0, seen, procs, p, a + 1)
  {
    var k := Key(p, a);
    VisitedOne(pt0, procs, p, a);
    hide Visited;
    if k in pt1 && pt1[k].v {
      assert pt1[k] == pt0[k] && Visited(pt0, procs, k, p, a + 1);
    }
  }

  lemma SeenProcess(pt0: map<Key, Pte>, seen0: seq<seq<bool>>, seen: seq<seq<bool>>, procs: seq<Proc>, p: nat, a: nat)
    requires SeenUpTo(pt0, seen0, seen, procs, p, a) && p < |procs| && (Scanned(procs[p]) ==> a >= procs[p].pages)
    ensures SeenUpTo(pt0, seen0, seen, procs, p + 1, 0)
  {
    forall l ensures Visited(pt0, procs, l, p + 1, 0) <==> Visited(pt0, procs, l, p, a) {
    }
  }

  lemma NothingAged(pt: map<Key, Pte>, ages: seq<nat>, procs: seq<Proc>)
    ensures AgedUpTo(pt, ages, pt, ages, procs, 0, 0)
  {
  }

  lemma VisitedOne(pt0: map<Key, Pte>, procs: seq<Proc>, p: nat, a: nat)
    requires p < |procs| && Scanned(procs[p]) && a < procs[p].pages
    ensures forall l :: Visited(pt0, procs, l, p, a + 1) <==>
              Visited(pt0, procs, l, p, a) || (l == Key(p, a) && l in pt0 && pt0[l].v)
    ensures !Visited(pt0, procs, Key(p, a), p, a)
  {
  }

  lemma SameScore(pt0: map<Key, Pte>, ages0: seq<nat>, pt1: map<Key, Pte>, ages1: seq<nat>, k: Key)
    requires k in pt0 && k in pt1 && pt0[k] == pt1[k] && |ages0| == |ages1|
    requires pt0[k].addr < |ages0| ==> ages0[pt0[k].addr] == ages1[pt0[k].addr]
    ensures Score(pt0, ages0, k) == Score(pt1, ages1, k)
  {
  }

  /** The accessed bits after one more visit. */
  lemma BitsAged(pt0: map<Key, Pte>, pt1: map<Key, Pte>, pt: map<Key, Pte>, procs: seq<Proc>, p: nat, a: nat)
    requires pt1.Keys == pt0.Keys && p < |procs| && Scanned(procs[p]) && a < procs[p].pages
    requires forall k :: k in pt1 ==> pt1[k] == if Visited(pt0, procs, k, p, a) then pt0[k].(acc := false) else pt0[k]
    requires var k := Key(p, a); pt == if k in pt1 && pt1[k].v then pt1[k := pt1[k].(acc := false)] else pt1
    ensures pt.Keys == pt0.Keys
    ensures forall k :: k in pt ==> pt[k] == if Visited(pt0, procs, k, p, a + 1) then pt0[k].(acc := false) else pt0[k]
  {
    VisitedOne(pt0, procs, p, a);
    hide Visited;
  }

  lemma AgedOne(pt0: map<Key, Pte>, ages0: seq<nat>, pt1: map<Key, Pte>, ages1: seq<nat>, pt: map<Key, Pte>,
                ages: seq<nat>,
                procs: seq<Proc>, p: nat, a: nat)
    requires AgedUpTo(pt0, ages0, pt1, ages1, procs, p, a) && p < |procs| && Scanned(procs[p]) && a < procs[p].pages
    requires var k := Key(p, a);
      if k in pt1 && pt1[k].v then
        pt == pt1[k := pt1[k].(acc := false)] && pt1[k].addr < |ages1|
        && ages == ages1[pt1[k].addr := Score(pt1, ages1, k)]
      else pt == pt1 && ages == ages1
    ensures AgedUpTo(pt0, ages0, pt, ages, procs, p, a + 1)
  {
    var k := Key(p, a);
    BitsAged(pt0, pt1, pt, procs, p, a);
    VisitedOne(pt0, procs, p, a);
    hide Visited, Score;
    if k in pt1 && pt1[k].v {
      assert pt1[k] == pt0[k] && Visited(pt0, procs, k, p, a + 1);
      if SoleEntry(pt0, k) {
        SameScore(pt0, ages0, pt1, ages1, k);
      }
    }
  }

  lemma AgedBits(pt0: map<Key, Pte>, ages0: seq<nat>, pt: map<Key, Pte>, ages: seq<nat>, procs: seq<Proc>, p: nat,
                 a: nat)
    requires AgedUpTo(pt0, ages0, pt, ages, procs, p, a)
    ensures pt.Keys == pt0.Keys
    ensures forall k :: k in pt ==> pt[k] == if Visited(pt0, procs, k, p, a) then pt0[k].(acc := false) else pt0[k]
  {
  }

  lemma AgedProcess(pt0: map<Key, Pte>, ages0: seq<nat>, pt: map<Key, Pte>, ages: seq<nat>, procs: seq<Proc>, p: nat,
                    a: nat)
    requires AgedUpTo(pt0, ages0, pt, ages, procs, p, a) && p < |procs| && (Scanned(procs[p]) ==> a >= procs[p].pages)
    ensures AgedUpTo(pt0, ages0, pt, ages, procs, p + 1, 0)
  {
    forall l ensures Visited(pt0, procs, l, p + 1, 0) <==> Visited(pt0, procs, l, p, a) {
    }
  }

  lemma FreshBoot(vm: Vm, nframes: nat)
    requires vm.pt == map[] && vm.backing == map[] && |vm.frames| == |vm.refs| == |vm.held| == nframes == |vm.free|
    requires |vm.swap| == |vm.srefs|
    requires forall f :: 0 <= f < nframes ==> vm.refs[f] == 0 && vm.held[f] == 0 && |vm.frames[f]| == PGSIZE
                                              && vm.free[f] == nframes - 1 - f
    requires forall s :: 0 <= s < |vm.srefs| ==> vm.srefs[s] == 0 && |vm.swap[s]| == PGSIZE
    ensures Inv(vm, None) && View(vm) == map[]
  {
    forall f: nat ensures f in vm.free <==> f < nframes {
      if f < nframes { assert vm.free[nframes - 1 - f] == f; }
    }
    forall f ensures Mappers(vm.pt, f) == {} {
    }
    forall s ensures Pagers(vm.pt, s) == {} {
    }
  }

  lemma NothingAbove(vm: Vm, procs: seq<Proc>, ages: seq<nat>, p: nat)
    requires Inv(vm, None) && PlacedIn(vm.pt, vm.backing, procs, ages, |vm.frames|) && p < |procs|
    ensures Key(p, procs[p].pages) !in View(vm)
  {
    hide Inv, View;
    MappedView(vm, Key(p, procs[p].pages));
  }

  lemma GrowOk(vm0: Vm, vm: Vm, procs: seq<Proc>, ages: seq<nat>, p: nat, area: UserPage)
    requires Inv(vm0, None) && PlacedIn(vm0.pt, vm0.backing, procs, ages, |vm0.frames|) && p < |procs|
    requires |area.bytes| == PGSIZE && area.perm.u
    requires vm == vm0.(backing := vm0.backing[Key(p, procs[p].pages) := area])
    ensures Inv(vm, None) && View(vm) == View(vm0)[Key(p, procs[p].pages) := area]
    ensures PlacedIn(vm.pt, vm.backing, procs[p := procs[p].(pages := procs[p].pages + 1)], ages, |vm.frames|)
  {
    assert Inv(vm, None) by {
      hide CountsOk, FreeOk, SlotsOk, SharingOk, View;
    }
    GrowView(vm0, vm, procs, ages, p, area);
  }

  lemma GrowView(vm0: Vm, vm: Vm, procs: seq<Proc>, ages: seq<nat>, p: nat, area: UserPage)
    requires Inv(vm0, None) && Inv(vm, None) && PlacedIn(vm0.pt, vm0.backing, procs, ages, |vm0.frames|) && p < |procs|
    requires vm == vm0.(backing := vm0.backing[Key(p, procs[p].pages) := area])
    ensures View(vm) == View(vm0)[Key(p, procs[p].pages) := area]
  {
    hide Inv, View;
    var a, b := View(vm), View(vm0)[Key(p, procs[p].pages) := area];
    forall k ensures (k in a <==> k in b) && (k in a ==> a[k] == b[k]) {
      MappedView(vm0, k);
      MappedView(vm, k);
    }
  }

  class Kernel {
    var pt: map<Key, Pte>
    var frames: seq<Page>
    var refs: seq<int>
    var free: seq<nat>
    ghost var held: seq<int>
    var swap: seq<Page>
    var srefs: seq<int>
    var backing: Mem
    var procs: seq<Proc>
    var ages: seq<nat>
    /** For each frame, whether PTE_A was set at each of its visits. */
    ghost var seen: seq<seq<bool>>

    ghost function Abs(): Vm
      reads this
    {
      Vm(pt, frames, refs, free, held, swap, srefs, backing)
    }

    ghost predicate Placed()
      reads this
    {
      PlacedIn(pt, backing, procs, ages, |frames|) && Remembers(ages, seen)
    }

    ghost predicate Valid()
      reads this
    {
      Inv(Abs(), None) && Placed()
    }

    // ----- Aging and the choice of a victim (swap.c:27-40, proc.c:693-745) -----------------------

    method PageAge(k: Key, ghost hole: Option<nat>) returns (age: nat)
      requires Inv(Abs(), hole) && Placed() && k in pt && pt[k].v
      modifies this`pt, this`ages, this`seen
      ensures Grew(old(seen), seen)
      ensures old(pt)[k].addr < old(|ages|) && age == Score(old(pt), old(ages), k) && age < 256
      ensures pt == old(pt)[k := old(pt)[k].(acc := false)] && ages == old(ages)[old(pt)[k].addr := age]
      ensures old(pt)[k].addr < |old(seen)| && seen == old(seen)[old(pt)[k].addr := Visits(old(pt), old(seen), k)]
      ensures Inv(Abs(), hole) && Placed() && View(Abs()) == old(View(Abs()))
    {
      hide Inv, View;
      AccessedOk(Abs(), hole, k, false);
      EntryOk(Abs(), hole, k);
      var vm := Abs().(pt := pt[k := pt[k].(acc := false)]);
      var f := pt[k].addr;
      AgeMore(seen[f], pt[k].acc);
      seen := seen[f := seen[f] + [pt[k].acc]];
      age := ages[f] / 2;
      if pt[k].acc {
        age := age + 128;
        pt := pt[k := pt[k].(acc := false)];
      }
      ages := ages[f := age];
      assert pt == old(pt)[k := old(pt)[k].(acc := false)];
      assert Abs() == vm;
    }

    /** The inner loop of `find_swapping_page`: weighs the pages of process `p`, and stops early at age 0. */
    method ScanProcess(p: nat, best: Option<Key>, least: nat, ghost vm0: Vm, ghost ages0: seq<nat>,
                       ghost hole: Option<nat>)
      returns (ret: Option<Key>, minage: nat)
      requires p < |procs| && Scanned(procs[p])
      requires Inv(Abs(), hole) && Placed() && Inv(vm0, hole) && |ages| == |ages0| == |frames|
      requires refs == vm0.refs && View(Abs()) == View(vm0)
      requires OnlyAged(vm0.pt, pt) && Untouched(vm0, procs, ages0, pt, ages, p, 0)
      requires Best(vm0, procs, ages0, best, least) && Weighed(vm0, procs, ages0, least, p, 0)
      requires LookedUpTo(vm0, procs, ages0, pt, p, 0) && (best.Some? ==> Before(best.value, p, 0))
      modifies this`pt, this`ages, this`seen
      ensures Grew(old(seen), seen)
      ensures Inv(Abs(), hole) && Placed() && |ages| == |ages0| && View(Abs()) == View(vm0)
      ensures OnlyAged(vm0.pt, pt) && Untouched(vm0, procs, ages0, pt, ages, p + 1, 0)
      ensures Best(vm0, procs, ages0, ret, minage) && Weighed(vm0, procs, ages0, minage, p + 1, 0)
      ensures LookedUpTo(vm0, procs, ages0, pt, p + 1, 0) && (ret.Some? ==> Before(ret.value, p + 1, 0))
    {
      hide Inv, View, PlacedIn, Best, Weighed, Untouched, OnlyAged, Candidate, LookedUpTo, Going, ZeroBy, Score,
        Remembers, Visits;
      ret, minage := best, least;
      GoStart(vm0, procs, ages0, p);
      var a := 0;
      while a < procs[p].pages
        invariant Grew(old(seen), seen)
        invariant 0 <= a <= procs[p].pages
        invariant Inv(Abs(), hole) && Placed() && |ages| == |ages0| && View(Abs()) == View(vm0)
        invariant OnlyAged(vm0.pt, pt) && Untouched(vm0, procs, ages0, pt, ages, p, a)
        invariant Best(vm0, procs, ages0, ret, minage) && Weighed(vm0, procs, ages0, minage, p, a)
        invariant LookedUpTo(vm0, procs, ages0, pt, p, a) && Going(vm0, procs, ages0, p, a)
        invariant ret.Some? ==> Before(ret.value, p, a)
      {
        var k := Key(p, a);
        a := a + 1;
        if k !in pt || !pt[k].v || pt[k].cow {
          SkipPage(vm0, procs, ages0, pt, ages, minage, p, a - 1);
          NotWeighable(vm0.pt, pt, procs, k);
          LookNone(vm0, procs, ages0, pt, p, a - 1);
          continue;
        }
        AgedEntry(vm0.pt, pt, k);
        LookOne(vm0, procs, ages0, pt, p, a - 1);
        CandidatesAlone(vm0, procs, hole, k);
        EntryOk(Abs(), hole, k);
        WeighPage(vm0, procs, ages0, pt, ages, ret, minage, p, a - 1, Score(pt, ages, k));
        var f := pt[k].addr;
        var age := PageAge(k, hole);
        if age < minage && refs[f] == 1 {
          minage := age;
          ret := Some(k);
        }
        ZeroIsLeast(vm0, procs, ages0, ret, minage, p, a);
        if minage == 0 {
          break;
        }
        GoOn(vm0, procs, ages0, p, a - 1);
      }
      LookDone(vm0, procs, ages0, pt, p, a);
      ScanDone(vm0, procs, ages0, pt, ages, minage, p, a);
    }

    /** `find_swapping_page` up to the choice: a candidate of least age, if there is one below 255. */
    method FindVictim(ghost hole: Option<nat>) returns (ret: Option<Key>)
      requires Inv(Abs(), hole) && Placed()
      modifies this`pt, this`ages, this`seen
      ensures Grew(old(seen), seen)
      ensures Inv(Abs(), hole) && Placed() && View(Abs()) == old(View(Abs()))
      ensures OnlyAged(old(pt), pt)
      ensures ret.Some? ==> Candidate(old(Abs()), procs, ret.value) && Score(old(pt), old(ages), ret.value) < 255
      ensures ret.Some? ==> forall k :: Candidate(old(Abs()), procs, k) ==>
                Score(old(pt), old(ages), ret.value) <= Score(old(pt), old(ages), k)
      ensures ret.Some? ==> forall k :: Candidate(old(Abs()), procs, k) && Before(k, ret.value.p, ret.value.i) ==>
                Score(old(pt), old(ages), ret.value) < Score(old(pt), old(ages), k)
      ensures ret.None? ==> forall k :: Candidate(old(Abs()), procs, k) ==> Score(old(pt), old(ages), k) >= 255
      ensures LookedUpTo(old(Abs()), procs, old(ages), pt, |procs|, 0)
    {
      hide Inv, View, PlacedIn, LookedUpTo;
      AgesSized(pt, backing, procs, ages, |frames|);
      ghost var vm0, ages0 := Abs(), ages;
      var minage := 255;
      ret := None;
      NothingLooked(vm0, procs, ages0);
      var p := 0;
      while p < |procs|
        invariant Grew(old(seen), seen)
        invariant 0 <= p <= |procs|
        invariant Inv(Abs(), hole) && Placed() && |ages| == |ages0| && View(Abs()) == View(vm0)
        invariant OnlyAged(vm0.pt, pt) && Untouched(vm0, procs, ages0, pt, ages, p, 0)
        invariant Best(vm0, procs, ages0, ret, minage) && Weighed(vm0, procs, ages0, minage, p, 0)
        invariant LookedUpTo(vm0, procs, ages0, pt, p, 0) && (ret.Some? ==> Before(ret.value, p, 0))
      {
        if !Scanned(procs[p]) { LookDone(vm0, procs, ages0, pt, p, 0); }
        if Scanned(procs[p]) {
          ret, minage := ScanProcess(p, ret, minage, vm0, ages0, hole);
        }
        p := p + 1;
      }
    }

    // ----- Allocation (kalloc.c:50-126) and swapping (swap.c:54-92) --------------------------------

    /** `pageout`: the first free swap slot gets the page, and the entry names the slot. */
    method PageOut(k: Key) returns (pa: Option<nat>)
      requires k in pt && pt[k].addr < |frames| && |swap| == |srefs|
      modifies this`pt, this`swap, this`srefs
      ensures pa.None? <==> forall i :: 0 <= i < old(|srefs|) ==> old(srefs)[i] != 0
      ensures pa.None? ==> pt == old(pt) && swap == old(swap) && srefs == old(srefs)
      ensures pa.Some? ==> pa.value == old(pt)[k].addr && exists s: nat :: PagedOut(old(Abs()), Abs(), k, s)
    {
      var i := 0;
      while i < |srefs|
        invariant 0 <= i <= |srefs|
        invariant forall j :: 0 <= j < i ==> srefs[j] != 0
      {
        if srefs[i] == 0 {
          var f := pt[k].addr;
          srefs := srefs[i := 1];
          pt := pt[k := pt[k].(v := false, pg := true, addr := i)];
          swap := swap[i := frames[f]];
          assert PagedOut(old(Abs()), Abs(), k, i);
          return Some(f);
        }
        i := i + 1;
      }
      return None;
    }

    /** `find_swapping_page`: on success the frame it returns is referenced by nobody. */
    method FindSwappingPage(ghost hole: Option<nat>) returns (res: Option<nat>, ghost vm1: Vm)
      requires Inv(Abs(), hole) && Placed()
      modifies this`pt, this`swap, this`srefs, this`refs, this`ages, this`seen
      ensures Grew(old(seen), seen)
      ensures Inv(vm1, hole) && View(vm1) == old(View(Abs())) && Placed()
      ensures OnlyAged(old(pt), vm1.pt) && vm1 == old(Abs()).(pt := vm1.pt)
      ensures res.None? ==> Abs() == vm1
      ensures res.Some? ==>
          exists k, s :: EvictedBy(vm1, Abs(), k, s, res.value) && Chosen(old(Abs()), pt, procs, old(ages), k)
      ensures res.None? <==> NothingToEvict(old(Abs()), procs, old(ages))
    {
      hide Inv, View, PlacedIn, Candidate, OnlyAged;
      var victim := FindVictim(hole);
      vm1 := Abs();
      if victim.None? {
        return None, vm1;
      }
      var k := victim.value;
      VictimStays(old(Abs()), vm1, procs, k);
      EntryBounds(vm1, hole);
      EntryOk(vm1, hole, k);
      var idx := pt[k].addr;
      res := PageOut(k);
      if res.Some? {
        refs := refs[idx := 0];
        ghost var s: nat :| PagedOut(vm1, Abs().(refs := vm1.refs), k, s);
        assert EvictedBy(vm1, Abs(), k, s, idx);
        ChosenBy(old(Abs()), vm1, Abs(), procs, old(ages), k, s, idx);
        PlacedKept(vm1.pt, pt, backing, procs, ages, |frames|);
      }
    }

    /** The first frame of the free list. */
    method PopFree(ghost hole: Option<nat>) returns (f: nat)
      requires Inv(Abs(), hole) && Placed() && free != []
      modifies this`frames, this`refs, this`free, this`held
      ensures Inv(Abs(), hole) && Placed() && View(Abs()) == old(View(Abs())) && |frames| == old(|frames|)
      ensures f == old(free)[0] && JustTaken(Abs(), f) && hole != Some(f)
      ensures f < |old(held)| && old(held)[f] == 0 && held == old(held)[f := 1] && free == old(free)[1..]
    {
      hide Inv, View, PlacedIn;
      EntryBounds(Abs(), hole);
      TakeFreeOk(Abs(), hole);
      TakenFrame(Abs(), hole, free[0]);
      ghost var vm' := TakeFree(Abs());
      f := free[0];
      free := free[1..];
      refs, held := refs[f := refs[f] + 1], held[f := 1];
      frames := frames[f := Filled(5)];
      assert Abs() == vm';
    }

    /** The frame of a page of least age, which goes to swap. */
    method EvictFrame(ghost hole: Option<nat>) returns (r: Option<nat>)
      requires Inv(Abs(), hole) && Placed() && free == []
      modifies this`pt, this`frames, this`refs, this`held, this`swap, this`srefs, this`ages, this`seen
      ensures Grew(old(seen), seen)
      ensures Inv(Abs(), hole) && Placed() && View(Abs()) == old(View(Abs()))
      ensures |frames| == old(|frames|) && |srefs| == old(|srefs|) && Spared(old(pt), pt)
      ensures r.Some? ==> JustTaken(Abs(), r.value) && hole != Some(r.value)
      ensures r.Some? ==> r.value < |old(held)| && old(held)[r.value] == 0 && held == old(held)[r.value := 1]
      ensures r.None? ==> Abs() == old(Abs()).(pt := pt)
      ensures r.None? <==> NothingToEvict(old(Abs()), procs, old(ages))
      ensures r.Some? ==> exists k ::
          Chosen(old(Abs()), pt, procs, old(ages), k) && Fair(old(Abs()), procs, old(ages), old(seen), k)
    {
      hide Inv, View, PlacedIn, OnlyAged, NothingToEvict, Chosen, Spared, Fair, Grew;
      EntryBounds(Abs(), hole);
      AgesSized(pt, backing, procs, ages, |frames|);
      ghost var vm1;
      r, vm1 := FindSwappingPage(hole);
      SparedBy(old(pt), vm1.pt, pt);
      if r.Some? {
        var f := r.value;
        ghost var k, s :| EvictedBy(vm1, Abs(), k, s, f) && Chosen(old(Abs()), pt, procs, old(ages), k);
        ChosenIsFair(old(Abs()), pt, procs, old(ages), old(seen), k);
        EvictOk(vm1, hole, k, s);
        SoleCandidate(vm1, hole, k);
        refs, held := refs[f := refs[f] + 1], held[f := held[f] + 1];
        frames := frames[f := Filled(5)];
        assert Abs() == Evict(vm1, k, s);
      }
    }

    /** A frame for the kernel: the first of the free list, else that of an evicted page of least age.
        It fails exactly when nothing is free and nothing can be evicted. */
    method Kalloc(ghost hole: Option<nat>) returns (r: Option<nat>)
      requires Inv(Abs(), hole) && Placed()
      modifies this`pt, this`frames, this`refs, this`free, this`held, this`swap, this`srefs, this`ages, this`seen
      ensures Grew(old(seen), seen)
      ensures Inv(Abs(), hole) && Placed() && View(Abs()) == old(View(Abs()))
      ensures |frames| == old(|frames|) && |srefs| == old(|srefs|) && Spared(old(pt), pt)
      ensures r.Some? ==> JustTaken(Abs(), r.value) && hole != Some(r.value)
      ensures r.Some? ==> r.value < |old(held)| && old(held)[r.value] == 0 && held == old(held)[r.value := 1]
      ensures r.None? ==> Abs() == old(Abs()).(pt := pt)
      ensures r.None? <==> NoFrame(old(Abs()), procs, old(ages))
      ensures old(free) != [] ==> r == Some(old(free)[0]) && pt == old(pt) && ages == old(ages)
      ensures old(free) != [] ==> free == old(free)[1..]
      ensures old(free) == [] && r.Some? ==> exists k ::
          Chosen(old(Abs()), pt, procs, old(ages), k) && Fair(old(Abs()), procs, old(ages), old(seen), k)
    {
      hide Inv, View, PlacedIn, OnlyAged, NothingToEvict, Chosen, Spared, Fair, Grew;
      NothingSpared(pt);
      GrewOn(seen, seen, seen);
      if free != [] {
        var f := PopFree(hole);
        return Some(f);
      }
      r := EvictFrame(hole);
    }

    /** `kfree` of a frame the kernel itself holds. */
    method Kfree(f: nat)
      requires Valid() && f < |refs| && held[f] > 0
      modifies this`frames, this`refs, this`free, this`held
      ensures Valid() && View(Abs()) == old(View(Abs()))
      ensures refs == old(refs)[f := old(refs[f]) - 1] && held == old(held)[f := old(held[f]) - 1]
    {
      hide Inv, View, PlacedIn;
      EntryBounds(Abs(), None);
      DropOk(Abs(), f);
      ghost var vm' := Drop(Abs(), f);
      EntryBounds(vm', None);
      refs, held := refs[f := refs[f] - 1], held[f := held[f] - 1];
      if refs[f] <= 0 {
        frames := frames[f := Filled(1)];
        free := [f] + free;
      }
      assert Abs() == vm';
    }

    // ----- Faults (kalloc.c:97-117, vm.c:388-406, mmap.c:40-88, trap.c:70-89) ------------------------

    /** `kalloc_cow`: the frame the entry may keep or move to.  In the second case the share in the
        old frame is already given up. */
    method KallocCow(k: Key) returns (mem: Option<nat>)
      requires Valid() && k in pt && pt[k].v && pt[k].cow
      modifies this`pt, this`frames, this`refs, this`free, this`held, this`swap, this`srefs, this`ages, this`seen
      ensures Grew(old(seen), seen)
      ensures View(Abs()) == old(View(Abs())) && Placed() && Spared(old(pt)[k := NOPTE], pt[k := NOPTE]) && k in pt
      ensures mem == Some(old(pt)[k].addr) ==> Inv(Abs(), None) && pt[k] == old(pt)[k].(w := true, cow := false)
      ensures mem.Some? && mem.value != old(pt)[k].addr ==>
                Inv(Abs(), Some(old(pt)[k].addr)) && JustTaken(Abs(), mem.value) && pt[k] == old(pt)[k]
      ensures mem.None? ==> Inv(Abs(), None) && pt[k] == old(pt)[k]
      ensures mem.None? <==> NeedsFrame(old(Abs()), k) && NoFrame(old(Abs()), procs, old(ages))
      ensures OutStays(old(pt), pt, k)
      ensures if mem.Some? && mem.value != old(pt)[k].addr
              then mem.value < |old(held)| && old(held)[mem.value] == 0 && held == old(held)[mem.value := 1]
              else held == old(held)
    {
      hide Inv, View, PlacedIn, NoFrame, Chosen, Fair, Remembers;
      EntryOk(Abs(), None, k);
      MappedCounts(Abs(), None, k);
      CountFacts(Abs(), None);
      var pa := pt[k].addr;
      if refs[pa] == 1 {
        DecowOk(Abs(), k);
        pt := pt[k := pt[k].(w := true, cow := false)];
        PlacedKept(old(pt), pt, backing, procs, ages, |frames|);
        return Some(pa);
      }
      OpenHole(Abs(), k);
      HoleNoFrame(Abs(), procs, ages, k);
      refs := refs[pa := refs[pa] - 1];
      mem := Kalloc(Some(pa));
      if mem.None? {
        CountFacts(Abs(), Some(pa));
        CloseHole(Abs(), pa);
        refs := refs[pa := refs[pa] + 1];
      }
    }

    /** `copyonwrite`: on success the page is writable; what anyone sees is unchanged either way. */
    method CopyOnWrite(k: Key) returns (ok: bool)
      requires Valid() && k in pt && pt[k].v
      modifies this`pt, this`frames, this`refs, this`free, this`held, this`swap, this`srefs, this`ages, this`seen
      ensures Grew(old(seen), seen)
      ensures Valid() && View(Abs()) == old(View(Abs())) && k in pt && pt[k].v
      ensures held == old(held)
      ensures pt[k].w == (old(pt)[k].w || ok) && pt[k].perm == old(pt)[k].perm
      ensures ok <==> old(pt)[k].cow && (NeedsFrame(old(Abs()), k) ==> !NoFrame(old(Abs()), procs, old(ages)))
      ensures ok ==> !pt[k].cow
      ensures OutStays(old(pt), pt, k)
    {
      hide Inv, View, PlacedIn, NoFrame, Chosen;
      if !pt[k].cow {
        return false;
      }
      EntryOk(Abs(), None, k);
      var pa := pt[k].addr;
      var mem := KallocCow(k);
      if mem.None? {
        return false;
      }
      if mem.value == pa {
        return true;
      }
      EntryBounds(Abs(), Some(pa));
      CopyToOk(Abs(), k, pa, mem.value);
      ghost var vm' := CopyTo(Abs(), k, mem.value);
      ghost var pt1 := pt;
      pt := pt[k := pt[k].(w := true, cow := false, addr := mem.value)];
      frames := frames[mem.value := frames[pa]];
      held := held[mem.value := 0];
      assert Abs() == vm';
      PlacedKept(pt1, pt, backing, procs, ages, |frames|);
      return true;
    }

    /** `pagein` of a paged-out entry. */
    method PageInSlot(k: Key) returns (ok: bool)
      requires Valid() && k in pt && pt[k].pg
      modifies this`pt, this`frames, this`refs, this`free, this`held, this`swap, this`srefs, this`ages, this`seen
      ensures Grew(old(seen), seen)
      ensures Valid() && View(Abs()) == old(View(Abs())) && k in pt
      ensures held == old(held)
      ensures ok ==> pt[k].v && pt[k].w == old(pt)[k].w && pt[k].perm == old(pt)[k].perm && !pt[k].cow
      ensures !ok ==> pt[k] == old(pt)[k]
      ensures ok <==> !NoFrame(old(Abs()), procs, old(ages))
      ensures OutStays(old(pt), pt, k) && OneFetched(old(Abs()), Abs(), k)
    {
      hide Inv, View, PlacedIn, NoFrame, Chosen, OneFetched, OutStays, Spared;
      EntryOk(Abs(), None, k);
      var idx := pt[k].addr;
      var mem := Kalloc(None);
      OutIsSpared(old(pt), pt, k);
      Fetched(old(Abs()), Abs(), Abs(), k);
      ghost var got := Abs();
      if mem.None? {
        return false;
      }
      PageInOk(Abs(), k, mem.value);
      EntryOk(Abs(), None, k);
      ghost var vm' := PageIn(Abs(), k, mem.value);
      ghost var pt1 := pt;
      srefs := srefs[idx := srefs[idx] - 1];
      frames := frames[mem.value := swap[idx]];
      pt := pt[k := pt[k].(v := true, pg := false, addr := mem.value)];
      held := held[mem.value := 0];
      assert Abs() == vm';
      PlacedKept(pt1, pt, backing, procs, ages, |frames|);
      Fetched(old(Abs()), got, Abs(), k);
      return true;
    }

    /** `vma_handle` of a page of a private area that was not touched yet. */
    method TouchArea(k: Key) returns (ok: bool)
      requires Valid() && !Old(pt, k).v && !Old(pt, k).pg && k in backing
      modifies this`pt, this`frames, this`refs, this`free, this`held, this`swap, this`srefs, this`ages, this`seen
      ensures Grew(old(seen), seen)
      ensures held == old(held)
      ensures Valid() && View(Abs()) == old(View(Abs()))
      ensures ok ==> k in pt && pt[k].v && !pt[k].cow && pt[k].w == backing[k].writable && pt[k].perm == backing[k].perm
      ensures ok <==> !NoFrame(old(Abs()), procs, old(ages))
      ensures !ok ==> !Old(pt, k).v
      ensures OutStays(old(pt), pt, k) && OneFetched(old(Abs()), Abs(), k)
    {
      hide Inv, View, PlacedIn, NoFrame, Chosen, OneFetched, OutStays, Spared;
      BackedPlace(pt, backing, procs, ages, |frames|, k);
      var mem := Kalloc(None);
      OutIsSpared(old(pt), pt, k);
      Fetched(old(Abs()), Abs(), Abs(), k);
      ghost var got := Abs();
      if mem.None? {
        return false;
      }
      TouchOk(Abs(), k, mem.value);
      ghost var vm' := Fill(Abs(), k, mem.value, backing[k]);
      ghost var pt1 := pt;
      frames := frames[mem.value := backing[k].bytes];
      pt := pt[k := Pte(true, backing[k].writable, false, false, false, backing[k].perm, mem.value)];
      held := held[mem.value := 0];
      assert Abs() == vm';
      PlacedKept(pt1, pt, backing, procs, ages, |frames|);
      Fetched(old(Abs()), got, Abs(), k);
      return true;
    }

    /** `vma_handle` of a page that the user cannot reach: it comes from swap or from its private area. */
    method VmaHandle(k: Key) returns (ok: bool)
      requires Valid() && (!Old(pt, k).v || !Old(pt, k).perm.u)
      modifies this`pt, this`frames, this`refs, this`free, this`held, this`swap, this`srefs, this`ages, this`seen
      ensures Grew(old(seen), seen)
      ensures held == old(held)
      ensures Valid() && View(Abs()) == old(View(Abs()))
      ensures ok ==> k in pt && pt[k].v && !pt[k].cow && k in View(Abs())
      ensures ok ==> pt[k].w == View(Abs())[k].writable && pt[k].perm == View(Abs())[k].perm
      ensures ok <==> CanFetch(old(Abs()), procs, old(ages), k)
      ensures !ok ==> Old(pt, k).v == Old(old(pt), k).v
      ensures Old(old(pt), k).v ==> Abs() == old(Abs()) && ages == old(ages)
      ensures OutStays(old(pt), pt, k) && OneFetched(old(Abs()), Abs(), k)
    {
      hide Inv, View, PlacedIn, NoFrame;
      if k in pt { EntryOk(Abs(), None, k); }
      MappedView(Abs(), k);
      if k in pt && pt[k].pg {
        ok := PageInSlot(k);
      } else if k !in backing {
        return false;
      } else {
        ok := TouchArea(k);
      }
      if ok { ResidentView(Abs(), k); }
    }

    // ----- Fork and unmap (vm.c:180-208, vm.c:321-350, proc.c:292-299) ------------------------------

    /** One round of the loop of `uvmcopy`. */
    method UvmCopyPage(k: Key, l: Key)
      requires Valid() && k != l && l.p < |procs| && l.i < procs[l.p].pages
      requires !Old(pt, l).v && !Old(pt, l).pg && l !in backing
      modifies this`pt, this`refs, this`srefs
      ensures Valid()
      ensures forall j :: j != k && j != l ==> Old(pt, j) == Old(old(pt), j)
      ensures if Old(old(pt), k).v || Old(old(pt), k).pg
              then k in old(View(Abs())) && View(Abs()) == old(View(Abs()))[l := old(View(Abs()))[k]]
              else View(Abs()) == old(View(Abs()))
    {
      hide Inv, View, PlacedIn;
      if k !in pt {
        return;
      }
      EntryOk(Abs(), None, k);
      PageOfView(Abs(), k);
      if pt[k].pg {
        ShareSlotOk(Abs(), k, l);
        ghost var vm' := ShareSlot(Abs(), k, l);
        srefs := srefs[pt[k].addr := srefs[pt[k].addr] + 1];
        pt := pt[l := pt[k]];
        assert Abs() == vm';
        PlacedKept(old(pt), pt, backing, procs, ages, |frames|);
      }
      if !pt[k].v {
        return;
      }
      EncowOk(Abs(), k);
      pt := pt[k := Encow(pt[k])];
      EntryOk(Abs(), None, k);
      PageOfView(Abs(), k);
      ShareFrameOk(Abs(), k, l);
      ghost var vm' := ShareFrame(Abs(), k, l);
      refs := refs[pt[k].addr := refs[pt[k].addr] + 1];
      pt := pt[l := pt[k]];
      assert Abs() == vm';
      PlacedKept(old(pt), pt, backing, procs, ages, |frames|);
    }

    /** `uvmcopy`: the child names every resident or paged-out page of the parent. */
    method UvmCopy(p: nat, c: nat)
      requires Valid() && p < |procs| && c < |procs| && p != c && procs[c].pages == procs[p].pages
      requires forall k: Key :: k.p == c ==> !Old(pt, k).v && !Old(pt, k).pg && k !in backing
      modifies this`pt, this`refs, this`srefs
      ensures Valid() && View(Abs()) == CopyView(old(View(Abs())), old(pt), p, c, procs[p].pages)
    {
      hide Inv, View, PlacedIn, CopyView, Copies;
      var i := 0;
      ghost var m0, pt0 := View(Abs()), pt;
      CopyNothing(m0, pt0, p, c);
      while i < procs[p].pages
        invariant 0 <= i <= procs[p].pages
        invariant Valid() && View(Abs()) == CopyView(m0, pt0, p, c, i)
        invariant forall j: nat :: j >= i ==>
            Old(pt, Key(p, j)) == Old(pt0, Key(p, j)) && Old(pt, Key(c, j)) == Old(pt0, Key(c, j))
      {
        assert Old(pt, Key(p, i)) == Old(pt0, Key(p, i)) && Old(pt, Key(c, i)) == Old(pt0, Key(c, i));
        CopyOne(m0, pt0, p, c, i);
        ParentPage(m0, pt0, p, c, i);
        UvmCopyPage(Key(p, i), Key(c, i));
        i := i + 1;
      }
    }

    /** `fork` as far as memory goes: page tables, then areas. */
    method Fork(p: nat, c: nat) returns (ok: bool)
      requires Valid()
      modifies this`pt, this`refs, this`srefs, this`procs, this`backing
      ensures Valid()
      ensures ok <==> p < old(|procs|) && c < old(|procs|) && p != c && old(procs)[c].pages == 0
      ensures View(Abs()) == if ok then ForkMem(old(View(Abs())), p, c) else old(View(Abs()))
      ensures procs == if ok then old(procs)[c := old(procs)[c].(pages := old(procs)[p].pages)] else old(procs)
    {
      hide Inv, View, PlacedIn, CopyView, ForkMem, ForkBacking;
      if p >= |procs| || c >= |procs| || p == c || procs[c].pages != 0 {
        return false;
      }
      PlacedGrow(pt, backing, procs, ages, |frames|, c, procs[p].pages);
      procs := procs[c := procs[c].(pages := procs[p].pages)];
      UvmCopy(p, c);
      ghost var vm1 := Abs();
      backing := ForkBacking(backing, p, c);
      ForkAreas(old(Abs()), vm1, Abs(), procs[p].pages, p, c);
      PlacedAreas(pt, old(backing), backing, procs, ages, |frames|, p, c);
      return true;
    }

    /** `swapdecget` for a paged-out entry that goes. */
    method DropSlot(k: Key)
      requires Valid() && k in pt && pt[k].pg
      modifies this`pt, this`srefs
      ensures Valid() && View(Abs()) == Unmapped(old(View(Abs())), backing, k)
      ensures pt == old(pt)[k := old(pt)[k].(pg := false)] && !pt[k].v
      ensures old(pt)[k].addr < |old(srefs)| && old(srefs)[old(pt)[k].addr] >= 1
      ensures srefs == old(srefs)[old(pt)[k].addr := old(srefs)[old(pt)[k].addr] - 1]
    {
      hide Inv, View, PlacedIn;
      EntryOk(Abs(), None, k);
      UnmapSlotOk(Abs(), k);
      ghost var vm' := UnmapSlot(Abs(), k);
      var s := pt[k].addr;
      pt := pt[k := pt[k].(pg := false)];
      srefs := srefs[s := srefs[s] - 1];
      assert Abs() == vm';
      PlacedKept(old(pt), pt, backing, procs, ages, |frames|);
    }

    /** `kfree` of the frame of a resident entry that goes.  Its count is positive, so it does not panic. */
    method DropEntry(k: Key)
      requires Valid() && k in pt && pt[k].v
      modifies this`pt, this`frames, this`refs, this`free
      ensures Valid() && View(Abs()) == Unmapped(old(View(Abs())), backing, k) && pt == old(pt)[k := NOPTE]
      ensures old(pt)[k].addr < |old(refs)| && old(refs)[old(pt)[k].addr] >= 1
      ensures refs == old(refs)[old(pt)[k].addr := old(refs)[old(pt)[k].addr] - 1]
    {
      hide Inv, View, PlacedIn;
      EntryOk(Abs(), None, k);
      UnmapFrameOk(Abs(), k);
      ghost var vm' := UnmapFrame(Abs(), k);
      EntryBounds(vm', None);
      var pa := pt[k].addr;
      refs := refs[pa := refs[pa] - 1];
      if refs[pa] <= 0 {
        frames := frames[pa := Filled(1)];
        free := [pa] + free;
      }
      pt := pt[k := NOPTE];
      assert Abs() == vm';
      PlacedKept(old(pt), pt, backing, procs, ages, |frames|);
    }

    /** One round of the loop of `uvmunmap`.  The count it lowers is positive and the entry is a leaf. */
    method UnmapPage(k: Key)
      requires Valid()
      modifies this`pt, this`frames, this`refs, this`free, this`srefs
      ensures Valid() && View(Abs()) == Unmapped(old(View(Abs())), backing, k) && !Old(pt, k).v && !Old(pt, k).pg
      ensures pt.Keys == old(pt).Keys && forall l :: l in pt && l != k ==> pt[l] == old(pt)[l]
      ensures var e := Old(old(pt), k);
        if e.v then e.addr < |old(refs)| && old(refs)[e.addr] >= 1 && (e.perm.r || e.perm.x || e.perm.u)
                    && refs == old(refs)[e.addr := old(refs)[e.addr] - 1] && srefs == old(srefs)
        else if e.pg then e.addr < |old(srefs)| && old(srefs)[e.addr] >= 1
                    && srefs == old(srefs)[e.addr := old(srefs)[e.addr] - 1] && refs == old(refs)
        else refs == old(refs) && srefs == old(srefs)
    {
      hide Inv, View, PlacedIn;
      MappedView(Abs(), k);
      if k !in pt {
        return;
      }
      EntryOk(Abs(), None, k);
      if pt[k].pg {
        DropSlot(k);
      }
      if !pt[k].v {
        return;
      }
      DropEntry(k);
    }

    /** `uvmunmap` with `do_free`. */
    method UvmUnmap(p: nat, from: nat, n: nat)
      requires Valid()
      modifies this`pt, this`frames, this`refs, this`free, this`srefs
      ensures Valid() && View(Abs()) == UnmapView(old(View(Abs())), backing, p, from, n)
      ensures forall i :: from <= i < from + n ==> !Old(pt, Key(p, i)).v && !Old(pt, Key(p, i)).pg
    {
      hide Inv, View, PlacedIn;
      var a := from;
      while a < from + n
        invariant from <= a <= from + n
        invariant Valid() && View(Abs()) == UnmapView(old(View(Abs())), backing, p, from, a - from)
        invariant forall i :: from <= i < a ==> !Old(pt, Key(p, i)).v && !Old(pt, Key(p, i)).pg
      {
        UnmapPage(Key(p, a));
        a := a + 1;
      }
    }

    /** Shrinking a process to `pages` pages, or freeing it: its areas go, then its entries. */
    method Shrink(p: nat, pages: nat)
      requires Valid()
      modifies this`pt, this`frames, this`refs, this`free, this`srefs, this`backing, this`procs
      ensures Valid() && View(Abs()) == old(View(Abs())) - ShrunkKeys(old(View(Abs())), p, pages)
      ensures procs == if p < |old(procs)| && pages < old(procs)[p].pages
                       then old(procs)[p := old(procs)[p].(pages := pages)] else old(procs)
    {
      hide Inv, View, PlacedIn, UnmapView, ShrunkKeys;
      if p >= |procs| || pages >= procs[p].pages {
        NothingShrunk(Abs(), procs, ages, p, pages);
        return;
      }
      var sz := procs[p].pages;
      backing := map k | k in backing && !(k.p == p && k.i >= pages) :: backing[k];
      ShrinkAreas(old(Abs()), Abs(), procs, ages, p, pages);
      UvmUnmap(p, pages, sz - pages);
      PlacedShrunk(pt, backing, procs, ages, |frames|, p, pages);
      procs := procs[p := procs[p].(pages := pages)];
    }

    // ----- User accesses and copies (trap.c:70-89, vm.c:411-471) -------------------------------------

    /** The hardware notes an access. */
    method SetAccessed(k: Key)
      requires Valid() && k in pt
      modifies this`pt
      ensures Valid() && View(Abs()) == old(View(Abs())) && pt == old(pt)[k := old(pt)[k].(acc := true)]
    {
      hide Inv, View, PlacedIn;
      AccessedOk(Abs(), None, k, true);
      ghost var vm' := Abs().(pt := pt[k := pt[k].(acc := true)]);
      pt := pt[k := pt[k].(acc := true)];
      assert Abs() == vm';
      PlacedKept(old(pt), pt, backing, procs, ages, |frames|);
    }

    /** A load or an instruction fetch, retried after a fault that could be handled: only a page that is
        not resident can be helped.  Otherwise the process is killed. */
    method UserLoad(k: Key, off: nat, fetch: bool) returns (b: Option<Byte>)
      requires Valid() && off < PGSIZE
      modifies this`pt, this`frames, this`refs, this`free, this`held, this`swap, this`srefs, this`ages, this`seen
      ensures Grew(old(seen), seen)
      ensures held == old(held)
      ensures Valid() && View(Abs()) == old(View(Abs()))
      ensures b.Some? <==> CanLoad(old(Abs()), procs, old(ages), k, fetch)
      ensures b.Some? ==> ByteAt(View(Abs()), k.p, k.i * PGSIZE + off) == b && k in pt && pt[k].acc
    {
      hide Inv, View, PlacedIn, NoFrame, OutStays;
      MappedView(Abs(), k);
      if k !in pt || !pt[k].v {
        var ok := VmaHandle(k);
        if !ok {
          return None;
        }
      }
      EntryOk(Abs(), None, k);
      ResidentView(Abs(), k);
      if !pt[k].perm.u || (if fetch then !pt[k].perm.x else !pt[k].perm.r) {
        return None;
      }
      FramePage(Abs(), pt[k].addr);
      b := Some(frames[pt[k].addr][off]);
      SetAccessed(k);
      PageByte(k, off);
      PagesFull(Abs());
    }

    /** A user store: the access is retried after each fault that could be handled; otherwise the
        process is killed, for lack of permission or of memory. */
    method UserStore(k: Key, off: nat, b: Byte) returns (ok: bool)
      requires Valid() && off < PGSIZE
      modifies this`pt, this`frames, this`refs, this`free, this`held, this`swap, this`srefs, this`ages, this`seen
      ensures Grew(old(seen), seen)
      ensures held == old(held)
      ensures Valid()
      ensures ok <==> CanStore(old(Abs()), procs, old(ages), k)
      ensures View(Abs()) == if ok then StoreMem(old(View(Abs())), k, off, b) else old(View(Abs()))
      ensures ok ==> k in pt && pt[k].acc
    {
      hide Inv, View, PlacedIn, NoFrame, OutStays;
      while !(k in pt && pt[k].v && pt[k].w && pt[k].perm.u)
        invariant Grew(old(seen), seen)
        invariant Valid() && View(Abs()) == old(View(Abs())) && held == old(held)
        invariant (Abs() == old(Abs()) && ages == old(ages))
                  || (k in pt && pt[k].v && !pt[k].cow
                      && (NeedsFrame(old(Abs()), k) ==> !NoFrame(old(Abs()), procs, old(ages))))
        decreases if !Old(pt, k).v then 2 else if !pt[k].w then 1 else 0
      {
        MappedView(Abs(), k);
        if k in pt { EntryOk(Abs(), None, k); }
        if k !in pt || !pt[k].v {
          ok := VmaHandle(k);
        } else {
          ResidentView(Abs(), k);
          ok := CopyOnWrite(k);
        }
        if !ok {
          return;
        }
      }
      EntryOk(Abs(), None, k);
      ResidentView(Abs(), k);
      FramePage(Abs(), pt[k].addr);
      var page: Page := frames[pt[k].addr][off := b];
      PokeOk(Abs(), k, page);
      frames := frames[pt[k].addr := page];
      SetAccessed(k);
      return true;
    }

    /** One round of the loop of `copyout`, before its `memmove`: the page becomes writable. */
    method MakeWritable(k: Key) returns (ok: bool)
      requires Valid()
      modifies this`pt, this`frames, this`refs, this`free, this`held, this`swap, this`srefs, this`ages, this`seen
      ensures Grew(old(seen), seen)
      ensures held == old(held)
      ensures Valid() && View(Abs()) == old(View(Abs()))
      ensures ok ==> k in pt && pt[k].v && pt[k].w && pt[k].perm.u
      ensures ok <==> CanStore(old(Abs()), procs, old(ages), k)
    {
      hide Inv, View, PlacedIn, NoFrame, OutStays;
      MappedView(Abs(), k);
      if k !in pt || !pt[k].v {
        ok := VmaHandle(k);
        if !ok {
          return;
        }
      }
      EntryOk(Abs(), None, k);
      ResidentView(Abs(), k);
      if !pt[k].perm.u {
        return false;
      }
      if !pt[k].w {
        ok := CopyOnWrite(k);
        return;
      }
      return true;
    }

    /** The `memmove` of `copyout` to a page that is writable. */
    method PutBytes(k: Key, off: nat, bytes: seq<Byte>)
      requires Valid() && k in pt && pt[k].v && pt[k].w && off + |bytes| <= PGSIZE
      modifies this`frames
      ensures Valid() && k in old(View(Abs())) && |old(View(Abs()))[k].bytes| == PGSIZE
      ensures View(Abs()) == old(View(Abs()))
              [k := old(View(Abs()))[k].(bytes := Splice(old(View(Abs()))[k].bytes, off, bytes))]
    {
      hide Inv, View, PlacedIn;
      EntryOk(Abs(), None, k);
      ResidentView(Abs(), k);
      FramePage(Abs(), pt[k].addr);
      var page := Splice(frames[pt[k].addr], off, bytes);
      PokeOk(Abs(), k, page);
      frames := frames[pt[k].addr := page];
    }

    /** `copyout`: the first `n` bytes of `src` arrive, all of them on success; nothing else changes.
        `stop` and `ages1` are the state in which it looked at the page where it ended. */
    method CopyOut(p: nat, dstva: nat, src: seq<Byte>)
      returns (ok: bool, n: nat, ghost stop: Vm, ghost ages1: seq<nat>)
      requires Valid()
      modifies this`pt, this`frames, this`refs, this`free, this`held, this`swap, this`srefs, this`ages, this`seen
      ensures Grew(old(seen), seen)
      ensures held == old(held)
      ensures Valid() && n <= |src| && (ok <==> n == |src|)
      ensures Wrote(old(View(Abs())), View(Abs()), p, dstva, src, n)
      ensures Inv(stop, None) && stop.held == held && View(stop) == View(Abs())
      ensures n == 0 ==> stop == old(Abs()) && ages1 == old(ages)
      ensures !ok ==> dstva + n >= MAXVA || !CanStore(stop, procs, ages1, Key(p, (dstva + n) / PGSIZE))
      ensures forall a: nat :: dstva <= a < dstva + n ==> WritableAt(View(Abs()), p, a)
      ensures n > 0 ==> dstva + n <= MAXVA
    {
      hide Inv, View, PlacedIn, Wrote, NoFrame, Splice;
      var len, dst, done := |src|, dstva, 0;
      n, stop, ages1 := 0, Abs(), ages;
      PagesFull(Abs());
      WroteNothing(View(Abs()), p, dstva, src);
      while len > 0
        invariant Grew(old(seen), seen)
        invariant Valid() && done == |src| - len && n == done && 0 <= len && (len > 0 ==> dst == dstva + done)
        invariant Wrote(old(View(Abs())), View(Abs()), p, dstva, src, n) && held == old(held)
        invariant stop == Abs() && ages1 == ages && (n == 0 ==> stop == old(Abs()) && ages1 == old(ages))
        invariant (forall a: nat :: dstva <= a < dstva + n ==> WritableAt(View(Abs()), p, a))
        invariant (n > 0 ==> dstva + n <= MAXVA)
      {
        stop, ages1 := Abs(), ages;
        var va0 := dst - dst % PGSIZE;
        if va0 >= MAXVA {
          return false, n, stop, ages1;
        }
        var k, off := Key(p, dst / PGSIZE), dst - va0;
        var good := MakeWritable(k);
        if !good {
          return false, n, stop, ages1;
        }
        var m := PGSIZE - off;
        if m > len {
          m := len;
        }
        ghost var m1 := View(Abs());
        PutBytes(k, off, src[done..done + m]);
        ghost var page := Splice(m1[k].bytes, off, src[n..n + m]);
        WroteMore(old(View(Abs())), m1, p, dstva, src, n, m, page);
        MoreWritable(m1, View(Abs()), p, dstva, n, m, page);
        len, done, dst, n := len - m, done + m, va0 + PGSIZE, n + m;
        stop, ages1 := Abs(), ages;
      }
      return true, n, stop, ages1;
    }

    /** One round of the loop of `copyin`, before its `memmove`.  `Crashed` is the kernel about to read
        physical address 0: `walkaddr` failed again because the page that came back lacks PTE_U. */
    method MakeReadable(k: Key) returns (r: Fetch)
      requires Valid()
      modifies this`pt, this`frames, this`refs, this`free, this`held, this`swap, this`srefs, this`ages, this`seen
      ensures Grew(old(seen), seen)
      ensures held == old(held)
      ensures Valid() && View(Abs()) == old(View(Abs()))
      ensures r == FetchOf(old(Abs()), procs, old(ages), k)
      ensures r.Readable? ==> k in pt && pt[k].v && pt[k].perm.u
      ensures Old(old(pt), k).v ==> Abs() == old(Abs()) && ages == old(ages)
      ensures OutStays(old(pt), pt, k) && OneFetched(old(Abs()), Abs(), k)
    {
      hide Inv, View, PlacedIn, NoFrame;
      MappedView(Abs(), k);
      if k in pt { EntryOk(Abs(), None, k); }
      if k !in pt || !pt[k].v || !pt[k].perm.u {
        if k in pt && pt[k].v { ResidentView(Abs(), k); }
        var ok := VmaHandle(k);
        if !ok {
          return Unreachable;
        }
        if !pt[k].perm.u {
          return Unprotected;
        }
        return Readable;
      }
      ResidentView(Abs(), k);
      return Readable;
    }

    /** `copyin`: on success the bytes the process sees.  Otherwise the first `n` bytes were copied, and
        `stop` and `ages1` are the state in which it looked at the next page. */
    method CopyIn(p: nat, srcva: nat, len: nat)
      returns (r: CopyInResult, n: nat, ghost stop: Vm, ghost ages1: seq<nat>)
      requires Valid()
      modifies this`pt, this`frames, this`refs, this`free, this`held, this`swap, this`srefs, this`ages, this`seen
      ensures Grew(old(seen), seen)
      ensures held == old(held)
      ensures Valid() && View(Abs()) == old(View(Abs()))
      ensures r.Copied? ==> |r.bytes| == len && forall i :: 0 <= i < len ==>
          ByteAt(View(Abs()), p, srcva + i) == Some(r.bytes[i])
      ensures n <= len && Inv(stop, None) && stop.held == held && View(stop) == View(Abs())
      ensures OutStaysFor(old(pt), stop.pt, p, srcva, n)
      ensures n == 0 ==> stop == old(Abs()) && ages1 == old(ages)
      ensures (forall a: nat :: srcva <= a < srcva + n ==> UserAt(View(Abs()), p, a)) && (n > 0 ==> srcva + n <= MAXVA)
      ensures r.Copied? <==> n == len
      ensures r.Crashed? <==>
          n < len && srcva + n < MAXVA && FetchOf(stop, procs, ages1, Key(p, (srcva + n) / PGSIZE)).Unprotected?
      ensures r.Refused? <==>
          n < len && (srcva + n >= MAXVA || FetchOf(stop, procs, ages1, Key(p, (srcva + n) / PGSIZE)).Unreachable?)
      ensures |old(free)| >= PagesOf(srcva, len) ==>
          (r.Crashed? <==> exists n0: nat :: GuardAhead(old(Abs()), p, srcva, len, n0))
    {
      hide Inv, View, PlacedIn, FetchOf, OutStaysFor, OutStays, OneFetched, AllFetched, GuardAhead, PagesOf;
      ghost var plenty := |free| >= PagesOf(srcva, len);
      FetchesNone(Abs(), p, srcva);
      var left, src, dst := len, srcva, [];
      n, stop, ages1 := 0, Abs(), ages;
      NoneFetched(pt, p, srcva);
      while left > 0
        invariant Grew(old(seen), seen)
        invariant Valid() && View(Abs()) == old(View(Abs())) && held == old(held)
        invariant n == |dst| == len - left && 0 <= left && (left > 0 ==> src == srcva + |dst|)
        invariant forall i :: 0 <= i < |dst| ==> ByteAt(View(Abs()), p, srcva + i) == Some(dst[i])
        invariant (forall a: nat :: srcva <= a < srcva + n ==> UserAt(View(Abs()), p, a))
        invariant (n > 0 ==> srcva + n <= MAXVA)
        invariant stop == Abs() && ages1 == ages && (n == 0 ==> stop == old(Abs()) && ages1 == old(ages))
        invariant OutStaysFor(old(pt), pt, p, srcva, n)
        invariant plenty ==> AllFetched(old(Abs()), Abs(), p, srcva, n)
        invariant left > 0 ==> n == 0 || src % PGSIZE == 0
      {
        stop, ages1 := Abs(), ages;
        var va0 := src - src % PGSIZE;
        var k, off := Key(p, src / PGSIZE), src - va0;
        if va0 >= MAXVA {
          if plenty { CrashForeseen(old(Abs()), stop, procs, ages1, p, srcva, len, n); }
          return Refused, n, stop, ages1;
        }
        var f := MakeReadable(k);
        if !f.Readable? {
          if plenty { CrashForeseen(old(Abs()), stop, procs, ages1, p, srcva, len, n); }
          return if f.Unreachable? then Refused else Crashed, n, stop, ages1;
        }
        EntryOk(Abs(), None, k);
        ResidentView(Abs(), k);
        FramePage(Abs(), pt[k].addr);
        var m := PGSIZE - off;
        if m > left {
          m := left;
        }
        var more := frames[pt[k].addr][off..off + m];
        ReadMore(View(Abs()), p, srcva, dst, m, more);
        MoreUser(View(Abs()), p, srcva, n, m);
        MoreFetched(old(pt), stop.pt, pt, p, srcva, n, m);
        if plenty { FetchesMore(old(Abs()), stop, Abs(), p, srcva, n, m, len); }
        left, dst, src := left - m, dst + more, va0 + PGSIZE;
        n, stop, ages1 := n + m, Abs(), ages;
      }
      if plenty { CrashForeseen(old(Abs()), stop, procs, ages1, p, srcva, len, n); }
      return Copied(dst), n, stop, ages1;
    }

    /** `update_page_age` (proc.c:747-765): every scanned page loses its accessed bit, and a frame that
        one entry maps ages by what that bit was. */
    method UpdatePageAge()
      requires Valid()
      modifies this`pt, this`ages, this`seen
      ensures Grew(old(seen), seen)
      ensures Valid() && View(Abs()) == old(View(Abs()))
      ensures AgedUpTo(old(pt), old(ages), pt, ages, procs, |procs|, 0)
      ensures SeenUpTo(old(pt), old(seen), seen, procs, |procs|, 0)
    {
      hide Inv, View, PlacedIn, AgedUpTo, SeenUpTo, Remembers, Grew;
      GrewOn(seen, seen, seen);
      NothingSeen(pt, seen, procs);
      var p := 0;
      AgesSized(pt, backing, procs, ages, |frames|);
      NothingAged(pt, ages, procs);
      while p < |procs|
        invariant Grew(old(seen), seen)
        invariant 0 <= p <= |procs| && Valid() && View(Abs()) == old(View(Abs()))
        invariant AgedUpTo(old(pt), old(ages), pt, ages, procs, p, 0) && SeenUpTo(old(pt), old(seen), seen, procs, p, 0)
      {
        if Scanned(procs[p]) {
          var a := 0;
          while a < procs[p].pages
            invariant Grew(old(seen), seen)
            invariant 0 <= a <= procs[p].pages && Valid() && View(Abs()) == old(View(Abs()))
            invariant AgedUpTo(old(pt), old(ages), pt, ages, procs, p, a)
            invariant SeenUpTo(old(pt), old(seen), seen, procs, p, a)
          {
            var k := Key(p, a);
            a := a + 1;
            ghost var pt1, ages2, seen1 := pt, ages, seen;
            if k in pt && pt[k].v {
              var _ := PageAge(k, None);
            }
            AgedBits(old(pt), old(ages), pt1, ages2, procs, p, a - 1);
            SeenOne(old(pt), old(seen), pt1, seen1, seen, procs, p, a - 1);
            GrewOn(old(seen), seen1, seen);
            AgedOne(old(pt), old(ages), pt1, ages2, pt, ages, procs, p, a - 1);
          }
          AgedProcess(old(pt), old(ages), pt, ages, procs, p, a);
          SeenProcess(old(pt), old(seen), seen, procs, p, a);
        } else {
          AgedProcess(old(pt), old(ages), pt, ages, procs, p, 0);
          SeenProcess(old(pt), old(seen), seen, procs, p, 0);
        }
        p := p + 1;
      }
    }

    // ----- Start and growth --------------------------------------------------------------------------

    /** `kinit` and `initswap`: every frame goes through `kfree`, so the last one is allocated first. */
    constructor (nframes: nat, nslots: nat, nprocs: nat)
      ensures Valid() && View(Abs()) == map[] && |procs| == nprocs && |frames| == nframes && |free| == nframes
      ensures pt == map[] && |srefs| == nslots && ages == seq(nframes, i => 0) && held == seq(nframes, i => 0)
      ensures procs == seq(nprocs, i => Proc(UNUSED, 0, 0)) && seen == seq(nframes, i => [])
      ensures frames == seq(nframes, i => Filled(1))
    {
      pt, backing := map[], map[];
      frames, swap := seq(nframes, i => Filled(1)), seq(nslots, i => Filled(0));
      refs, held, srefs := seq(nframes, i => 0), seq(nframes, i => 0), seq(nslots, i => 0);
      ages, procs := seq(nframes, i => 0), seq(nprocs, i => Proc(UNUSED, 0, 0));
      seen := seq(nframes, i => []);
      free := seq(nframes, i requires 0 <= i < nframes => nframes - 1 - i);
      new;
      Untouched8([]);
      FreshBoot(Abs(), nframes);
    }

    /** A process gains a page at its upper end, of program, heap or anonymous memory not touched yet. */
    method Grow(p: nat, area: UserPage) returns (ok: bool)
      requires Valid()
      modifies this`backing, this`procs
      ensures Valid()
      ensures ok <==> p < old(|procs|) && |area.bytes| == PGSIZE && area.perm.u
      ensures View(Abs()) == if ok then old(View(Abs()))[Key(p, old(procs)[p].pages) := area] else old(View(Abs()))
      ensures ok ==> Key(p, old(procs)[p].pages) !in old(View(Abs()))
      ensures procs == if ok then old(procs)[p := old(procs)[p].(pages := old(procs)[p].pages + 1)] else old(procs)
    {
      hide Inv, View, PlacedIn;
      if p >= |procs| || |area.bytes| != PGSIZE || !area.perm.u {
        return false;
      }
      ghost var vm0 := Abs();
      NothingAbove(vm0, procs, ages, p);
      backing := backing[Key(p, procs[p].pages) := area];
      GrowOk(vm0, Abs(), procs, ages, p, area);
      procs := procs[p := procs[p].(pages := procs[p].pages + 1)];
      return true;
    }

    /** One round of `uvmalloc` (vm.c:242-266): a zeroed page at the upper end of an image that `exec`
        builds.  The image has a slot of its own until it replaces the old one. */
    method UvmAlloc(p: nat, w: bool, x: bool) returns (ok: bool)
      requires Valid()
      modifies this`pt, this`frames, this`refs, this`free, this`held, this`swap, this`srefs, this`ages, this`seen,
               this`procs
      ensures Grew(old(seen), seen)
      ensures held == old(held)
      ensures Valid()
      ensures ok <==> p < |old(procs)| && !NoFrame(old(Abs()), old(procs), old(ages))
      ensures View(Abs()) ==
              if ok then old(View(Abs()))[Key(p, old(procs)[p].pages) := ZeroPage(w, x)] else old(View(Abs()))
      ensures ok ==> Key(p, old(procs)[p].pages) !in old(View(Abs())) && Key(p, old(procs)[p].pages) !in backing
      ensures procs == if ok then old(procs)[p := old(procs)[p].(pages := old(procs)[p].pages + 1)] else old(procs)
      ensures |frames| == old(|frames|) && |srefs| == old(|srefs|)
      ensures ok ==> var e := Old(pt, Key(p, old(procs)[p].pages));
                e == Pte(true, w, false, false, false, Perm(true, x, true), e.addr)
      ensures ok && old(free) != [] ==> pt.Keys == old(pt).Keys + {Key(p, old(procs)[p].pages)} && ages == old(ages)
    {
      hide Inv, View, PlacedIn, NoFrame;
      if p >= |procs| {
        return false;
      }
      NothingAbove(Abs(), procs, ages, p);
      var k := Key(p, procs[p].pages);
      var mem := Kalloc(None);
      if mem.None? {
        return false;
      }
      EntryBounds(Abs(), None);
      MappedView(Abs(), k);
      FillOk(Abs(), k, mem.value, ZeroPage(w, x));
      ghost var vm' := Fill(Abs(), k, mem.value, ZeroPage(w, x));
      PlacedMore(pt, backing, procs, ages, |frames|, p, vm'.pt);
      frames := frames[mem.value := Filled(0)];
      pt := pt[k := Pte(true, w, false, false, false, Perm(true, x, true), mem.value)];
      held := held[mem.value := 0];
      assert Abs() == vm';
      procs := procs[p := procs[p].(pages := procs[p].pages + 1)];
      return true;
    }

    /** `uvmclear` of a page that `uvmalloc` has mapped: `exec` makes it the guard below the stack. */
    method UvmClear(k: Key)
      requires Valid() && k in pt && pt[k].v && pt[k].perm.r && k !in backing
      modifies this`pt
      ensures Valid() && k in old(View(Abs())) && View(Abs()) == GuardMem(old(View(Abs())), k)
      ensures pt == old(pt)[k := old(pt)[k].(perm := old(pt)[k].perm.(u := false))]
    {
      hide Inv, View, PlacedIn;
      GuardOk(Abs(), k);
      ghost var vm' := Guard(Abs(), k);
      pt := pt[k := pt[k].(perm := pt[k].perm.(u := false))];
      assert Abs() == vm';
      PlacedKept(old(pt), pt, backing, procs, ages, |frames|);
    }

    /** Scheduling and `allocproc`: the state and pid of a process decide whether its pages are scanned. */
    method SetState(p: nat, state: ProcState, pid: nat)
      requires Valid()
      modifies this`procs
      ensures Valid() && View(Abs()) == old(View(Abs()))
      ensures procs ==
              if p < |old(procs)| then old(procs)[p := old(procs)[p].(state := state, pid := pid)] else old(procs)
    {
      if p < |procs| {
        procs := procs[p := procs[p].(state := state, pid := pid)];
      }
    }
  }
}
