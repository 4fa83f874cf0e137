/** The private user memory of lab10: copy-on-write, demand paging and swapping.

    `Vm` is the state the routines share: page tables (one entry per process and page number),
    frames with reference counts and a free list, swap slots with reference counts.  What a process
    should see is `View`: one private page of bytes and permissions per page it owns. */
module VirtualMemory {

  const PGSIZE: nat := 4096

  type Byte = b: int | 0 <= b < 256 witness 0
  type Page = seq<Byte>

  /** Page `i` of the process in slot `p` of the process table. */
  datatype Key = Key(p: nat, i: nat)

  /** PTE_R, PTE_X and PTE_U. */
  datatype Perm = Perm(r: bool, x: bool, u: bool)

  /** A page-table entry: PTE_V, PTE_W, PTE_COW, PTE_PG, PTE_A, the permissions above, and either a
      frame number or, when `pg`, a swap slot. */
  datatype Pte = Pte(v: bool, w: bool, cow: bool, pg: bool, acc: bool, perm: Perm, addr: nat)

  const NOPTE: Pte := Pte(false, false, false, false, false, Perm(false, false, false), 0)

  /** A page as its owner sees it. */
  datatype UserPage = UserPage(bytes: Page, writable: bool, perm: Perm)

  type Mem = map<Key, UserPage>

  datatype Option<+T> = None | Some(value: T)

  /** `held[f]` counts the kernel's own references to frame `f`.  `backing` is what the areas of
      each process put into a page on its first touch. */
  datatype Vm = Vm(pt: map<Key, Pte>, frames: seq<Page>, refs: seq<int>, free: seq<nat>, held: seq<int>,
                   swap: seq<Page>, srefs: seq<int>, backing: Mem)

  function Filled(b: Byte): (r: Page)
    ensures |r| == PGSIZE
  {
    seq(PGSIZE, i => b)
  }

  // ----- What a process sees -------------------------------------------------------------------

  function Look(vm: Vm, k: Key): Option<UserPage> {
    if k in vm.pt && vm.pt[k].v && vm.pt[k].addr < |vm.frames| then
      Some(UserPage(vm.frames[vm.pt[k].addr], vm.pt[k].w || vm.pt[k].cow, vm.pt[k].perm))
    else if k in vm.pt && vm.pt[k].pg && vm.pt[k].addr < |vm.swap| then
      Some(UserPage(vm.swap[vm.pt[k].addr], vm.pt[k].w || vm.pt[k].cow, vm.pt[k].perm))
    else if k in vm.backing then Some(vm.backing[k])
    else None
  }

  function View(vm: Vm): Mem {
    map k | k in vm.pt.Keys + vm.backing.Keys && Look(vm, k).Some? :: Look(vm, k).value
  }

  lemma SameView(vm: Vm, vm': Vm)
    requires forall k :: Look(vm', k) == Look(vm, k)
    ensures View(vm') == View(vm)
  {
    forall k ensures k in View(vm) <==> k in View(vm') {
      assert Look(vm', k) == Look(vm, k);
    }
  }

  // ----- Invariant -----------------------------------------------------------------------------

  function Mappers(pt: map<Key, Pte>, f: nat): set<Key> {
    set k | k in pt && pt[k].v && pt[k].addr == f
  }

  function Pagers(pt: map<Key, Pte>, s: nat): set<Key> {
    set k | k in pt && pt[k].pg && pt[k].addr == s
  }

  ghost predicate Sizes(vm: Vm) {
    && |vm.refs| == |vm.frames| == |vm.held| && |vm.swap| == |vm.srefs|
    && (forall f :: 0 <= f < |vm.frames| ==> |vm.frames[f]| == PGSIZE)
    && (forall s :: 0 <= s < |vm.swap| ==> |vm.swap[s]| == PGSIZE)
    && (forall k :: k in vm.backing ==> |vm.backing[k].bytes| == PGSIZE && vm.backing[k].perm.u)
  }

  predicate PteOk(e: Pte, frames: nat, slots: nat) {
    && (e.v ==> e.addr < frames && !e.pg && !(e.w && e.cow) && (e.perm.r || e.perm.x || e.perm.u))
    && (e.pg ==> e.addr < slots && !e.cow && (e.perm.r || e.perm.x || e.perm.u))
  }

  ghost predicate TableOk(pt: map<Key, Pte>, frames: nat, slots: nat, backing: Mem) {
    forall k :: k in pt ==> PteOk(pt[k], frames, slots) && ((pt[k].v || pt[k].pg) && k in backing ==> pt[k].perm.u)
  }

  /** A frame's count is its valid entries plus the kernel's references.  While `kalloc_cow` runs it
      has already given up one reference, to frame `hole`, whose entry it has not yet replaced. */
  ghost predicate CountsOk(pt: map<Key, Pte>, refs: seq<int>, held: seq<int>, hole: Option<nat>) {
    && |refs| == |held|
    && (forall f :: 0 <= f < |refs| ==>
          held[f] >= 0 && refs[f] == |Mappers(pt, f)| + held[f] - (if hole == Some(f) then 1 else 0))
    && (hole.Some? ==> hole.value < |refs| && refs[hole.value] >= 1)
  }

  ghost predicate FreeOk(free: seq<nat>, refs: seq<int>) {
    && (forall i, j :: 0 <= i < j < |free| ==> free[i] != free[j])
    && (forall f: nat :: f in free <==> f < |refs| && refs[f] == 0)
  }

  ghost predicate SlotsOk(pt: map<Key, Pte>, srefs: seq<int>) {
    forall s :: 0 <= s < |srefs| ==> srefs[s] == |Pagers(pt, s)|
  }

  /** Entries that share a frame are read-only and agree on PTE_COW; a writable frame is not shared. */
  ghost predicate SharingOk(pt: map<Key, Pte>, held: seq<int>, hole: Option<nat>) {
    && (forall k, l :: k in pt && l in pt && k != l && pt[k].v && pt[l].v && pt[k].addr == pt[l].addr ==>
          !pt[k].w && pt[k].cow == pt[l].cow)
    && (forall k :: k in pt && pt[k].v && pt[k].w && pt[k].addr < |held| ==> held[pt[k].addr] == 0)
    && (hole.Some? ==> forall k :: k in pt && pt[k].v && pt[k].addr == hole.value ==> pt[k].cow)
  }

  ghost predicate Inv(vm: Vm, hole: Option<nat>) {
    && Sizes(vm)
    && TableOk(vm.pt, |vm.frames|, |vm.swap|, vm.backing)
    && CountsOk(vm.pt, vm.refs, vm.held, hole)
    && FreeOk(vm.free, vm.refs)
    && SlotsOk(vm.pt, vm.srefs)
    && SharingOk(vm.pt, vm.held, hole)
  }

  // ----- Changing one entry --------------------------------------------------------------------

  function Maps(e: Pte, f: nat): int { if e.v && e.addr == f then 1 else 0 }

  function Pages(e: Pte, s: nat): int { if e.pg && e.addr == s then 1 else 0 }

  function Old(pt: map<Key, Pte>, k: Key): Pte { if k in pt then pt[k] else NOPTE }

  lemma MappersUpdate(pt: map<Key, Pte>, k: Key, e: Pte, f: nat)
    ensures |Mappers(pt[k := e], f)| - Maps(e, f) == |Mappers(pt, f)| - Maps(Old(pt, k), f)
  {
    var m := Mappers(pt, f);
    assert Mappers(pt[k := e], f) == if e.v && e.addr == f then m + {k} else m - {k};
  }

  lemma PagersUpdate(pt: map<Key, Pte>, k: Key, e: Pte, s: nat)
    ensures |Pagers(pt[k := e], s)| - Pages(e, s) == |Pagers(pt, s)| - Pages(Old(pt, k), s)
  {
    var m := Pagers(pt, s);
    assert Pagers(pt[k := e], s) == if e.pg && e.addr == s then m + {k} else m - {k};
  }

  /** A counted frame with one reference is mapped by the entry at hand and by nothing else. */
  lemma SoleMapper(pt: map<Key, Pte>, f: nat, k: Key)
    requires k in pt && pt[k].v && pt[k].addr == f && |Mappers(pt, f)| == 1
    ensures forall l :: l in pt && pt[l].v && pt[l].addr == f ==> l == k
  {
    assert k in Mappers(pt, f);
    assert |Mappers(pt, f) - {k}| == 0;
    assert Mappers(pt, f) - {k} == {};
    assert forall l :: l in pt && pt[l].v && pt[l].addr == f ==> l in Mappers(pt, f);
  }

  lemma CountsUpdate(pt: map<Key, Pte>, refs: seq<int>, held: seq<int>, hole: Option<nat>,
                     k: Key, e: Pte, refs': seq<int>, held': seq<int>, hole': Option<nat>)
    requires CountsOk(pt, refs, held, hole)
    requires |refs'| == |held'| == |refs| && (hole'.Some? ==> hole'.value < |refs'| && refs'[hole'.value] >= 1)
    requires forall f :: 0 <= f < |refs| ==>
               held'[f] >= 0
               && refs'[f] - held'[f] + (if hole' == Some(f) then 1 else 0) - Maps(e, f)
                  == refs[f] - held[f] + (if hole == Some(f) then 1 else 0) - Maps(Old(pt, k), f)
    ensures CountsOk(pt[k := e], refs', held', hole')
  {
    forall f | 0 <= f < |refs'|
      ensures refs'[f] == |Mappers(pt[k := e], f)| + held'[f] - (if hole' == Some(f) then 1 else 0)
    {
      MappersUpdate(pt, k, e, f);
    }
  }

  lemma SlotsUpdate(pt: map<Key, Pte>, srefs: seq<int>, k: Key, e: Pte, srefs': seq<int>)
    requires SlotsOk(pt, srefs) && |srefs'| == |srefs|
    requires forall s :: 0 <= s < |srefs| ==> srefs'[s] - Pages(e, s) == srefs[s] - Pages(Old(pt, k), s)
    ensures SlotsOk(pt[k := e], srefs')
  {
    forall s | 0 <= s < |srefs| ensures srefs'[s] == |Pagers(pt[k := e], s)| {
      PagersUpdate(pt, k, e, s);
    }
  }

  /** Replacing one entry: every other entry on the new entry's frame must agree with it. */
  lemma SharingUpdate(pt: map<Key, Pte>, held: seq<int>, hole: Option<nat>, k: Key, e: Pte, held': seq<int>,
                      hole': Option<nat>)
    requires SharingOk(pt, held, hole) && |held'| == |held|
    requires e.v ==> forall l :: l in pt && l != k && pt[l].v && pt[l].addr == e.addr ==>
               !pt[l].w && !e.w && pt[l].cow == e.cow
    requires e.v && e.w && e.addr < |held| ==> held'[e.addr] == 0
    requires forall l :: l in pt && l != k && pt[l].v && pt[l].w && pt[l].addr < |held| ==>
        held'[pt[l].addr] <= held[pt[l].addr]
    requires forall f :: 0 <= f < |held| ==> held'[f] >= 0
    requires hole'.Some? && e.v && e.addr == hole'.value ==> e.cow
    requires hole'.Some? && hole != hole' ==> forall l :: l in pt && l != k && pt[l].v && pt[l].addr == hole'.value ==>
        pt[l].cow
    ensures SharingOk(pt[k := e], held', hole')
  {
  }

  lemma TableUpdate(pt: map<Key, Pte>, frames: nat, slots: nat, backing: Mem, k: Key, e: Pte)
    requires TableOk(pt, frames, slots, backing)
    requires PteOk(e, frames, slots) && ((e.v || e.pg) && k in backing ==> e.perm.u)
    ensures TableOk(pt[k := e], frames, slots, backing)
  {
  }

  /** Everything a step that replaces the entry of `k` by `e` has to show. */
  lemma EntryStep(vm: Vm, hole: Option<nat>, k: Key, e: Pte, vm': Vm, hole': Option<nat>)
    requires Inv(vm, hole) && vm'.pt == vm.pt[k := e] && vm'.backing == vm.backing
    requires Sizes(vm') && |vm'.frames| == |vm.frames| && |vm'.swap| == |vm.swap| && FreeOk(vm'.free, vm'.refs)
    requires PteOk(e, |vm.frames|, |vm.swap|) && ((e.v || e.pg) && k in vm.backing ==> e.perm.u)
    requires hole'.Some? ==> hole'.value < |vm'.refs| && vm'.refs[hole'.value] >= 1
    requires forall f :: 0 <= f < |vm.refs| ==>
               vm'.held[f] >= 0
               && vm'.refs[f] - vm'.held[f] + (if hole' == Some(f) then 1 else 0) - Maps(e, f)
                  == vm.refs[f] - vm.held[f] + (if hole == Some(f) then 1 else 0) - Maps(Old(vm.pt, k), f)
    requires forall s :: 0 <= s < |vm.srefs| ==> vm'.srefs[s] - Pages(e, s) == vm.srefs[s] - Pages(Old(vm.pt, k), s)
    requires e.v ==> forall l :: l in vm.pt && l != k && vm.pt[l].v && vm.pt[l].addr == e.addr ==>
               !vm.pt[l].w && !e.w && vm.pt[l].cow == e.cow
    requires e.v && e.w && e.addr < |vm.held| ==> vm'.held[e.addr] == 0
    requires forall l :: l in vm.pt && l != k && vm.pt[l].v && vm.pt[l].w && vm.pt[l].addr < |vm.held| ==>
               vm'.held[vm.pt[l].addr] <= vm.held[vm.pt[l].addr]
    requires hole'.Some? && e.v && e.addr == hole'.value ==> e.cow
    requires hole'.Some? && hole != hole' ==>
               forall l :: l in vm.pt && l != k && vm.pt[l].v && vm.pt[l].addr == hole'.value ==> vm.pt[l].cow
    ensures Inv(vm', hole')
  {
    hide TableOk, CountsOk, FreeOk, SlotsOk, SharingOk;
    TableUpdate(vm.pt, |vm.frames|, |vm.swap|, vm.backing, k, e);
    CountsUpdate(vm.pt, vm.refs, vm.held, hole, k, e, vm'.refs, vm'.held, hole');
    SlotsUpdate(vm.pt, vm.srefs, k, e, vm'.srefs);
    SharingUpdate(vm.pt, vm.held, hole, k, e, vm'.held, hole');
  }

  lemma OnlyChanged(vm: Vm, k: Key, vm': Vm)
    requires forall l :: l != k ==> Look(vm', l) == Look(vm, l)
    ensures Look(vm', k).Some? ==> View(vm') == View(vm)[k := Look(vm', k).value]
    ensures Look(vm', k).None? ==> View(vm') == View(vm) - {k}
    ensures Look(vm', k) == Look(vm, k) ==> View(vm') == View(vm)
  {
    hide Look, View;
    ViewIsLook(vm);
    ViewIsLook(vm');
  }

  lemma ViewIsLook(vm: Vm)
    ensures forall l :: (l in View(vm) <==> Look(vm, l).Some?) && (l in View(vm) ==> View(vm)[l] == Look(vm, l).value)
  {
  }

  /** Contents of frames and slots that no entry uses do not matter. */
  lemma EntryView(vm: Vm, k: Key, vm': Vm)
    requires vm'.pt == vm.pt[k := Old(vm'.pt, k)] && k in vm'.pt
    requires |vm'.frames| == |vm.frames| && |vm'.swap| == |vm.swap| && vm'.backing == vm.backing
    requires forall l :: l in vm.pt && l != k && vm.pt[l].v && vm.pt[l].addr < |vm.frames| ==>
               vm'.frames[vm.pt[l].addr] == vm.frames[vm.pt[l].addr]
    requires forall l :: l in vm.pt && l != k && vm.pt[l].pg && vm.pt[l].addr < |vm.swap| ==>
               vm'.swap[vm.pt[l].addr] == vm.swap[vm.pt[l].addr]
    ensures Look(vm', k).Some? ==> View(vm') == View(vm)[k := Look(vm', k).value]
    ensures Look(vm', k).None? ==> View(vm') == View(vm) - {k}
    ensures Look(vm', k) == Look(vm, k) ==> View(vm') == View(vm)
  {
    hide View;
    forall l | l != k ensures Look(vm', l) == Look(vm, l) {
    }
    OnlyChanged(vm, k, vm');
  }

  lemma FreeSame(free: seq<nat>, refs: seq<int>, refs': seq<int>)
    requires FreeOk(free, refs) && |refs'| == |refs|
    requires forall f :: 0 <= f < |refs| ==> (refs'[f] == 0 <==> refs[f] == 0)
    ensures FreeOk(free, refs')
  {
  }

  lemma FreePush(free: seq<nat>, refs: seq<int>, f: nat)
    requires FreeOk(free, refs) && f < |refs| && refs[f] != 0
    ensures FreeOk([f] + free, refs[f := 0])
  {
    var free', refs' := [f] + free, refs[f := 0];
    forall g: nat ensures g in free' <==> g < |refs'| && refs'[g] == 0 {
      assert g in free' <==> g == f || g in free;
    }
  }

  lemma FreePop(free: seq<nat>, refs: seq<int>)
    requires FreeOk(free, refs) && free != []
    ensures free[0] < |refs| && refs[free[0]] == 0 && FreeOk(free[1..], refs[free[0] := 1])
  {
    var f := free[0];
    assert f in free;
    forall g: nat ensures g in free[1..] <==> g < |refs| && refs[f := 1][g] == 0 {
      assert g in free <==> g == f || g in free[1..];
    }
  }

  lemma CountsHeld(pt: map<Key, Pte>, refs: seq<int>, held: seq<int>, hole: Option<nat>, refs': seq<int>,
                   held': seq<int>, f: nat)
    requires CountsOk(pt, refs, held, hole) && f < |refs| && hole != Some(f)
    requires |refs'| == |refs| && refs' == refs[f := refs'[f]] && |held'| == |held| && held' == held[f := held'[f]]
    requires held'[f] >= 0 && refs'[f] - held'[f] == refs[f] - held[f]
    ensures CountsOk(pt, refs', held', hole)
  {
  }

  lemma SharingHeld(pt: map<Key, Pte>, held: seq<int>, hole: Option<nat>, held': seq<int>, f: nat)
    requires SharingOk(pt, held, hole) && f < |held|
    requires |held'| == |held| && held' == held[f := held'[f]] && held'[f] >= 0
    requires held'[f] <= held[f] || forall k :: k in pt && pt[k].v ==> pt[k].addr != f
    ensures SharingOk(pt, held', hole)
  {
  }

  /** A change of one frame and of the kernel's references to it. */
  lemma HeldStep(vm: Vm, hole: Option<nat>, f: nat, vm': Vm)
    requires Inv(vm, hole) && f < |vm.refs| && hole != Some(f)
    requires vm'.pt == vm.pt && vm'.swap == vm.swap && vm'.srefs == vm.srefs && vm'.backing == vm.backing
    requires |vm'.refs| == |vm.refs| && vm'.refs == vm.refs[f := vm'.refs[f]]
    requires |vm'.held| == |vm.held| && vm'.held == vm.held[f := vm'.held[f]] && vm'.held[f] >= 0
    requires vm'.refs[f] - vm'.held[f] == vm.refs[f] - vm.held[f]
    requires |vm'.frames| == |vm.frames| && vm'.frames == vm.frames[f := vm'.frames[f]] && |vm'.frames[f]| == PGSIZE
    requires vm'.held[f] <= vm.held[f] || forall k :: k in vm.pt && vm.pt[k].v ==> vm.pt[k].addr != f
    requires vm'.frames[f] == vm.frames[f] || forall k :: k in vm.pt && vm.pt[k].v ==> vm.pt[k].addr != f
    requires FreeOk(vm'.free, vm'.refs)
    ensures Inv(vm', hole) && View(vm') == View(vm)
  {
    hide TableOk, CountsOk, FreeOk, SlotsOk, SharingOk, View;
    CountsHeld(vm.pt, vm.refs, vm.held, hole, vm'.refs, vm'.held, f);
    SharingHeld(vm.pt, vm.held, hole, vm'.held, f);
    SameView(vm, vm');
  }

  lemma UnmappedAtZero(vm: Vm, hole: Option<nat>, f: nat)
    requires Inv(vm, hole) && f < |vm.refs| && hole != Some(f) && vm.refs[f] == vm.held[f]
    ensures forall k :: k in vm.pt && vm.pt[k].v ==> vm.pt[k].addr != f
  {
    hide Sizes, TableOk, FreeOk, SlotsOk, SharingOk;
    assert |Mappers(vm.pt, f)| == 0;
    assert forall k :: k in vm.pt && vm.pt[k].v && vm.pt[k].addr == f ==> k in Mappers(vm.pt, f);
  }

  /** Simple consequences of the counts. */
  lemma CountFacts(vm: Vm, hole: Option<nat>)
    requires Inv(vm, hole)
    ensures forall f :: 0 <= f < |vm.refs| ==> vm.refs[f] >= 0 && vm.held[f] >= 0
    ensures forall f :: 0 <= f < |vm.refs| && vm.refs[f] == 0 ==> vm.held[f] == 0 && hole != Some(f)
    ensures hole.Some? ==> hole.value < |vm.refs| && vm.refs[hole.value] >= 1
  {
    hide Sizes, TableOk, FreeOk, SlotsOk, SharingOk;
  }

  lemma EntryOk(vm: Vm, hole: Option<nat>, k: Key)
    requires Inv(vm, hole) && k in vm.pt
    ensures PteOk(vm.pt[k], |vm.frames|, |vm.swap|) && |vm.refs| == |vm.frames| == |vm.held| && |vm.swap| == |vm.srefs|
    ensures (vm.pt[k].v || vm.pt[k].pg) && k in vm.backing ==> vm.pt[k].perm.u
  {
    hide CountsOk, FreeOk, SlotsOk, SharingOk;
  }

  lemma MappedCounts(vm: Vm, hole: Option<nat>, k: Key)
    requires Inv(vm, hole) && k in vm.pt && vm.pt[k].v
    ensures var f := vm.pt[k].addr;
      f < |vm.refs| && vm.refs[f] >= 1 + vm.held[f] - (if hole == Some(f) then 1 else 0)
      && (vm.refs[f] == 1 + vm.held[f] - (if hole == Some(f) then 1 else 0) ==>
            forall l :: l in vm.pt && vm.pt[l].v && vm.pt[l].addr == f ==> l == k)
  {
    hide FreeOk, SlotsOk, SharingOk;
    var f := vm.pt[k].addr;
    assert PteOk(vm.pt[k], |vm.frames|, |vm.swap|);
    assert k in Mappers(vm.pt, f);
    SubsetSize({k}, Mappers(vm.pt, f));
    if |Mappers(vm.pt, f)| == 1 {
      SoleMapper(vm.pt, f, k);
    }
  }

  lemma SubsetSize<T>(a: set<T>, b: set<T>)
    requires a <= b
    ensures |a| <= |b|
  {
    assert b == a + (b - a);
  }

  lemma PagedCounts(vm: Vm, hole: Option<nat>, s: nat)
    requires Inv(vm, hole) && s < |vm.srefs|
    ensures vm.srefs[s] >= 0
    ensures vm.srefs[s] == 0 ==> forall k :: k in vm.pt && vm.pt[k].pg ==> vm.pt[k].addr != s
  {
    hide Sizes, TableOk, CountsOk, FreeOk, SharingOk;
    assert forall k :: k in vm.pt && vm.pt[k].pg && vm.pt[k].addr == s ==> k in Pagers(vm.pt, s);
  }

  // ----- Frames --------------------------------------------------------------------------------

  /** `kalloc` from the free list (kalloc.c:83-92): the kernel now holds the frame. */
  function TakeFree(vm: Vm): Vm
    requires vm.free != [] && vm.free[0] < |vm.refs| == |vm.frames| == |vm.held|
  {
    var f := vm.free[0];
    vm.(free := vm.free[1..], refs := vm.refs[f := 1], frames := vm.frames[f := Filled(5)], held := vm.held[f := 1])
  }

  lemma TakeFreeOk(vm: Vm, hole: Option<nat>)
    requires Inv(vm, hole) && vm.free != []
    ensures vm.free[0] < |vm.refs| && Inv(TakeFree(vm), hole) && View(TakeFree(vm)) == View(vm)
  {
    hide TableOk, CountsOk, FreeOk, SlotsOk, SharingOk;
    FreePop(vm.free, vm.refs);
    CountFacts(vm, hole);
    UnmappedAtZero(vm, hole, vm.free[0]);
    HeldStep(vm, hole, vm.free[0], TakeFree(vm));
  }

  /** The kernel drops a reference (kfree, kalloc.c:50-72); at zero the frame is junked and freed. */
  function Drop(vm: Vm, f: nat): Vm
    requires f < |vm.refs| == |vm.frames| == |vm.held|
  {
    var vm' := vm.(refs := vm.refs[f := vm.refs[f] - 1], held := vm.held[f := vm.held[f] - 1]);
    if vm.refs[f] > 1 then vm' else vm'.(frames := vm.frames[f := Filled(1)], free := [f] + vm.free)
  }

  lemma DropOk(vm: Vm, f: nat)
    requires Inv(vm, None) && f < |vm.refs| && vm.held[f] > 0
    ensures vm.refs[f] >= 1 && Inv(Drop(vm, f), None) && View(Drop(vm, f)) == View(vm)
  {
    hide TableOk, CountsOk, FreeOk, SlotsOk, SharingOk;
    CountFacts(vm, None);
    HeldWithin(vm, f);
    if vm.refs[f] == 1 {
      UnmappedAtZero(vm, None, f);
      FreePush(vm.free, vm.refs, f);
    } else {
      FreeSame(vm.free, vm.refs, Drop(vm, f).refs);
    }
    HeldStep(vm, None, f, Drop(vm, f));
  }

  lemma HeldWithin(vm: Vm, f: nat)
    requires Inv(vm, None) && f < |vm.refs|
    ensures vm.refs[f] >= vm.held[f]
  {
    hide Sizes, TableOk, FreeOk, SlotsOk, SharingOk;
  }

  // ----- Swapping ------------------------------------------------------------------------------

  /** Which entries `find_swapping_page` may evict (proc.c:708-716). */
  predicate Evictable(vm: Vm, k: Key) {
    k in vm.pt && vm.pt[k].v && !vm.pt[k].cow && vm.pt[k].addr < |vm.refs| && vm.refs[vm.pt[k].addr] == 1
  }

  /** `pageout` to slot `s` and the handover of the frame to the caller of `kalloc`
      (swap.c:54-74, proc.c:738-744, kalloc.c:87-92). */
  function Evict(vm: Vm, k: Key, s: nat): Vm
    requires k in vm.pt && vm.pt[k].addr < |vm.frames| == |vm.held| == |vm.refs| && s < |vm.swap| == |vm.srefs|
  {
    var e := vm.pt[k];
    vm.(pt := vm.pt[k := e.(v := false, pg := true, addr := s)],
        swap := vm.swap[s := vm.frames[e.addr]], srefs := vm.srefs[s := 1],
        refs := vm.refs[e.addr := 1], frames := vm.frames[e.addr := Filled(5)],
        held := vm.held[e.addr := vm.held[e.addr] + 1])
  }

  lemma EvictOk(vm: Vm, hole: Option<nat>, k: Key, s: nat)
    requires Inv(vm, hole) && Evictable(vm, k) && s < |vm.srefs| && vm.srefs[s] == 0
    ensures Inv(Evict(vm, k, s), hole) && View(Evict(vm, k, s)) == View(vm)
    ensures vm.held[vm.pt[k].addr] == 0
  {
    hide CountsOk, FreeOk, SlotsOk;
    var e := vm.pt[k];
    var e' := e.(v := false, pg := true, addr := s);
    var vm' := Evict(vm, k, s);
    CountFacts(vm, hole);
    assert PteOk(e, |vm.frames|, |vm.swap|);
    MappedCounts(vm, hole, k);
    PagedCounts(vm, hole, s);
    FreeSame(vm.free, vm.refs, vm'.refs);
    hide TableOk, SharingOk;
    EntryStep(vm, hole, k, e', vm', hole);
    EntryView(vm, k, vm');
  }

  /** `pagein` into the frame the kernel just got (swap.c:76-92). */
  function PageIn(vm: Vm, k: Key, mem: nat): Vm
    requires k in vm.pt && vm.pt[k].addr < |vm.swap| == |vm.srefs| && mem < |vm.frames| == |vm.held|
  {
    var e := vm.pt[k];
    vm.(pt := vm.pt[k := e.(v := true, pg := false, addr := mem)], frames := vm.frames[mem := vm.swap[e.addr]],
        srefs := vm.srefs[e.addr := vm.srefs[e.addr] - 1], held := vm.held[mem := 0])
  }

  /** A frame that the kernel alone references, once. */
  predicate JustTaken(vm: Vm, mem: nat) {
    mem < |vm.refs| && mem < |vm.held| && vm.refs[mem] == 1 && vm.held[mem] == 1
  }

  lemma PageInOk(vm: Vm, k: Key, mem: nat)
    requires Inv(vm, None) && k in vm.pt && vm.pt[k].pg && JustTaken(vm, mem)
    ensures vm.pt[k].addr < |vm.srefs| && vm.srefs[vm.pt[k].addr] >= 1
    ensures Inv(PageIn(vm, k, mem), None) && View(PageIn(vm, k, mem)) == View(vm)
  {
    hide CountsOk, FreeOk, SlotsOk, SharingOk, View;
    var e := vm.pt[k];
    assert PteOk(e, |vm.frames|, |vm.swap|);
    CountFacts(vm, None);
    PagedCounts(vm, None, e.addr);
    UnmappedAtZero(vm, None, mem);
    hide TableOk;
    EntryStep(vm, None, k, e.(v := true, pg := false, addr := mem), PageIn(vm, k, mem), None);
    EntryView(vm, k, PageIn(vm, k, mem));
  }

  /** A page that is neither resident nor paged out gets the frame `mem` with contents `b`: on the first
      touch of a private area (mmap.c:51-88), or in `uvmalloc`. */
  function Fill(vm: Vm, k: Key, mem: nat, b: UserPage): Vm
    requires mem < |vm.frames| == |vm.held|
  {
    vm.(pt := vm.pt[k := Pte(true, b.writable, false, false, false, b.perm, mem)],
        frames := vm.frames[mem := b.bytes], held := vm.held[mem := 0])
  }

  lemma FillOk(vm: Vm, k: Key, mem: nat, b: UserPage)
    requires Inv(vm, None) && !Old(vm.pt, k).v && !Old(vm.pt, k).pg && JustTaken(vm, mem)
    requires |b.bytes| == PGSIZE && b.perm.u
    ensures Inv(Fill(vm, k, mem, b), None) && View(Fill(vm, k, mem, b)) == View(vm)[k := b]
  {
    hide TableOk, CountsOk, FreeOk, SlotsOk, SharingOk, View;
    CountFacts(vm, None);
    UnmappedAtZero(vm, None, mem);
    EntryStep(vm, None, k, Fill(vm, k, mem, b).pt[k], Fill(vm, k, mem, b), None);
    EntryView(vm, k, Fill(vm, k, mem, b));
  }

  /** `uvmclear` (vm.c:355-365): the process keeps the page and may no longer touch it. */
  function Guard(vm: Vm, k: Key): Vm
    requires k in vm.pt
  {
    vm.(pt := vm.pt[k := vm.pt[k].(perm := vm.pt[k].perm.(u := false))])
  }

  lemma GuardOk(vm: Vm, k: Key)
    requires Inv(vm, None) && k in vm.pt && vm.pt[k].v && vm.pt[k].perm.r && k !in vm.backing
    ensures Inv(Guard(vm, k), None) && k in View(vm)
    ensures View(Guard(vm, k)) == View(vm)[k := View(vm)[k].(perm := View(vm)[k].perm.(u := false))]
  {
    hide CountsOk, FreeOk, SlotsOk, View;
    var e' := vm.pt[k].(perm := vm.pt[k].perm.(u := false));
    assert PteOk(vm.pt[k], |vm.frames|, |vm.swap|);
    CountFacts(vm, None);
    ViewIsLook(vm);
    hide TableOk;
    EntryStep(vm, None, k, e', Guard(vm, k), None);
    EntryView(vm, k, Guard(vm, k));
  }

  // ----- Copy on write -------------------------------------------------------------------------

  /** Replacing PTE_W by PTE_COW in the parent's entry (vm.c:339). */
  function Encow(e: Pte): Pte { if e.w then e.(w := false, cow := true) else e }

  lemma EncowOk(vm: Vm, k: Key)
    requires Inv(vm, None) && k in vm.pt && vm.pt[k].v
    ensures var vm' := vm.(pt := vm.pt[k := Encow(vm.pt[k])]); Inv(vm', None) && View(vm') == View(vm)
  {
    hide CountsOk, FreeOk, SlotsOk, View;
    var vm' := vm.(pt := vm.pt[k := Encow(vm.pt[k])]);
    assert PteOk(vm.pt[k], |vm.frames|, |vm.swap|);
    CountFacts(vm, None);
    EntryStep(vm, None, k, Encow(vm.pt[k]), vm', None);
    EntryView(vm, k, vm');
  }

  /** `uvmcopy` of one valid page, after the parent's entry became read-only (vm.c:340-341). */
  function ShareFrame(vm: Vm, k: Key, c: Key): Vm
    requires k in vm.pt && vm.pt[k].addr < |vm.refs|
  {
    vm.(pt := vm.pt[c := vm.pt[k]], refs := vm.refs[vm.pt[k].addr := vm.refs[vm.pt[k].addr] + 1])
  }

  lemma ShareFrameOk(vm: Vm, k: Key, c: Key)
    requires Inv(vm, None) && k in vm.pt && vm.pt[k].v && !vm.pt[k].w && k != c && !Old(vm.pt, c).v && !Old(vm.pt, c).pg
    requires c in vm.backing ==> vm.pt[k].perm.u
    ensures vm.pt[k].addr < |vm.refs| && Inv(ShareFrame(vm, k, c), None)
    ensures View(ShareFrame(vm, k, c)) == View(vm)[c := Look(vm, k).value]
  {
    hide CountsOk, FreeOk, SlotsOk, View;
    assert PteOk(vm.pt[k], |vm.frames|, |vm.swap|);
    CountFacts(vm, None);
    MappedCounts(vm, None, k);
    var vm' := ShareFrame(vm, k, c);
    FreeSame(vm.free, vm.refs, vm'.refs);
    hide TableOk;
    EntryStep(vm, None, c, vm.pt[k], vm', None);
    EntryView(vm, c, vm');
  }

  /** `swappageclone` (swap.c:42-52): the child names the same slot. */
  function ShareSlot(vm: Vm, k: Key, c: Key): Vm
    requires k in vm.pt && vm.pt[k].addr < |vm.srefs|
  {
    vm.(pt := vm.pt[c := vm.pt[k]], srefs := vm.srefs[vm.pt[k].addr := vm.srefs[vm.pt[k].addr] + 1])
  }

  lemma ShareSlotOk(vm: Vm, k: Key, c: Key)
    requires Inv(vm, None) && k in vm.pt && vm.pt[k].pg && k != c && !Old(vm.pt, c).v && !Old(vm.pt, c).pg
    requires c in vm.backing ==> vm.pt[k].perm.u
    ensures vm.pt[k].addr < |vm.srefs| && Inv(ShareSlot(vm, k, c), None)
    ensures View(ShareSlot(vm, k, c)) == View(vm)[c := Look(vm, k).value]
  {
    hide CountsOk, FreeOk, SlotsOk, SharingOk, View;
    assert PteOk(vm.pt[k], |vm.frames|, |vm.swap|);
    CountFacts(vm, None);
    var vm' := ShareSlot(vm, k, c);
    hide TableOk;
    EntryStep(vm, None, c, vm.pt[k], vm', None);
    EntryView(vm, c, vm');
  }

  /** `kalloc_cow` of an unshared page (kalloc.c:105-109): write access comes back in place. */
  lemma DecowOk(vm: Vm, k: Key)
    requires Inv(vm, None) && k in vm.pt && vm.pt[k].v && vm.pt[k].cow && vm.pt[k].addr < |vm.refs|
    requires vm.refs[vm.pt[k].addr] == 1
    ensures var vm' := vm.(pt := vm.pt[k := vm.pt[k].(w := true, cow := false)]);
      Inv(vm', None) && View(vm') == View(vm)
  {
    hide CountsOk, FreeOk, SlotsOk, SharingOk, View;
    var e' := vm.pt[k].(w := true, cow := false);
    var vm' := vm.(pt := vm.pt[k := e']);
    assert PteOk(vm.pt[k], |vm.frames|, |vm.swap|);
    CountFacts(vm, None);
    MappedCounts(vm, None, k);
    hide TableOk;
    EntryStep(vm, None, k, e', vm', None);
    EntryView(vm, k, vm');
  }

  /** `kalloc_cow` gives up its share before it has a frame of its own (kalloc.c:110-111). */
  lemma OpenHole(vm: Vm, k: Key)
    requires Inv(vm, None) && k in vm.pt && vm.pt[k].v && vm.pt[k].cow && vm.pt[k].addr < |vm.refs|
    requires vm.refs[vm.pt[k].addr] >= 2
    ensures var f := vm.pt[k].addr; var vm' := vm.(refs := vm.refs[f := vm.refs[f] - 1]);
      Inv(vm', Some(f)) && View(vm') == View(vm)
  {
    hide CountsOk, FreeOk, SlotsOk, View;
    var f := vm.pt[k].addr;
    var vm' := vm.(refs := vm.refs[f := vm.refs[f] - 1]);
    assert vm.pt == vm.pt[k := vm.pt[k]];
    assert PteOk(vm.pt[k], |vm.frames|, |vm.swap|);
    CountFacts(vm, None);
    FreeSame(vm.free, vm.refs, vm'.refs);
    EntryStep(vm, None, k, vm.pt[k], vm', Some(f));
    SameView(vm, vm');
  }

  /** Out of memory: the share is taken back (kalloc.c:114-115). */
  lemma CloseHole(vm: Vm, f: nat)
    requires Inv(vm, Some(f)) && f < |vm.refs|
    ensures var vm' := vm.(refs := vm.refs[f := vm.refs[f] + 1]); Inv(vm', None) && View(vm') == View(vm)
  {
    hide FreeOk, SlotsOk, SharingOk, View;
    var vm' := vm.(refs := vm.refs[f := vm.refs[f] + 1]);
    FreeSame(vm.free, vm.refs, vm'.refs);
    hide TableOk;
    SharingNoHole(vm.pt, vm.held, Some(f));
    SameView(vm, vm');
  }

  lemma SharingNoHole(pt: map<Key, Pte>, held: seq<int>, hole: Option<nat>)
    requires SharingOk(pt, held, hole)
    ensures SharingOk(pt, held, None)
  {
  }

  /** `copyonwrite` moves the entry to the new frame and copies the page (vm.c:401-402). */
  function CopyTo(vm: Vm, k: Key, mem: nat): Vm
    requires k in vm.pt && vm.pt[k].addr < |vm.frames| == |vm.held| && mem < |vm.frames|
  {
    var e := vm.pt[k];
    vm.(pt := vm.pt[k := e.(w := true, cow := false, addr := mem)], frames := vm.frames[mem := vm.frames[e.addr]],
        held := vm.held[mem := 0])
  }

  lemma CopyToOk(vm: Vm, k: Key, f: nat, mem: nat)
    requires Inv(vm, Some(f)) && k in vm.pt && vm.pt[k].v && vm.pt[k].addr == f && JustTaken(vm, mem) && mem != f
    ensures f < |vm.frames| && Inv(CopyTo(vm, k, mem), None) && View(CopyTo(vm, k, mem)) == View(vm)
  {
    hide CountsOk, FreeOk, SlotsOk, SharingOk, View;
    var e := vm.pt[k];
    assert PteOk(e, |vm.frames|, |vm.swap|);
    CowAtHole(vm.pt, vm.held, f, k);
    UnmappedAtZero(vm, Some(f), mem);
    CountFacts(vm, Some(f));
    hide TableOk;
    EntryStep(vm, Some(f), k, e.(w := true, cow := false, addr := mem), CopyTo(vm, k, mem), None);
    EntryView(vm, k, CopyTo(vm, k, mem));
  }

  lemma CowAtHole(pt: map<Key, Pte>, held: seq<int>, f: nat, k: Key)
    requires SharingOk(pt, held, Some(f)) && k in pt && pt[k].v && pt[k].addr == f
    ensures pt[k].cow
  {
  }

  // ----- Unmapping and access ------------------------------------------------------------------

  /** `uvmunmap` of a paged-out entry (vm.c:191-196): the other bits stay behind. */
  function UnmapSlot(vm: Vm, k: Key): Vm
    requires k in vm.pt && vm.pt[k].addr < |vm.srefs|
  {
    vm.(pt := vm.pt[k := vm.pt[k].(pg := false)], srefs := vm.srefs[vm.pt[k].addr := vm.srefs[vm.pt[k].addr] - 1])
  }

  /** What is left of `k` once it is unmapped: its area, if that is still there. */
  function Unmapped(m: Mem, backing: Mem, k: Key): Mem {
    if k in backing then m[k := backing[k]] else m - {k}
  }

  lemma UnmapSlotOk(vm: Vm, k: Key)
    requires Inv(vm, None) && k in vm.pt && vm.pt[k].pg
    ensures vm.pt[k].addr < |vm.srefs| && vm.srefs[vm.pt[k].addr] >= 1 && Inv(UnmapSlot(vm, k), None)
    ensures View(UnmapSlot(vm, k)) == Unmapped(View(vm), vm.backing, k)
  {
    hide CountsOk, FreeOk, SlotsOk, SharingOk, View;
    assert PteOk(vm.pt[k], |vm.frames|, |vm.swap|);
    CountFacts(vm, None);
    PagedCounts(vm, None, vm.pt[k].addr);
    hide TableOk;
    EntryStep(vm, None, k, vm.pt[k].(pg := false), UnmapSlot(vm, k), None);
    EntryView(vm, k, UnmapSlot(vm, k));
  }

  /** `uvmunmap` of a valid entry (vm.c:199-206), with `kfree` of its frame. */
  function UnmapFrame(vm: Vm, k: Key): Vm
    requires k in vm.pt && vm.pt[k].addr < |vm.refs| == |vm.frames|
  {
    var f := vm.pt[k].addr;
    var vm' := vm.(pt := vm.pt[k := NOPTE], refs := vm.refs[f := vm.refs[f] - 1]);
    if vm.refs[f] > 1 then vm' else vm'.(frames := vm.frames[f := Filled(1)], free := [f] + vm.free)
  }

  lemma UnmapFrameOk(vm: Vm, k: Key)
    requires Inv(vm, None) && k in vm.pt && vm.pt[k].v
    ensures vm.pt[k].addr < |vm.refs| && vm.refs[vm.pt[k].addr] >= 1 && Inv(UnmapFrame(vm, k), None)
    ensures View(UnmapFrame(vm, k)) == Unmapped(View(vm), vm.backing, k)
  {
    hide CountsOk, FreeOk, SlotsOk, SharingOk, View;
    var f := vm.pt[k].addr;
    assert PteOk(vm.pt[k], |vm.frames|, |vm.swap|);
    CountFacts(vm, None);
    MappedCounts(vm, None, k);
    if vm.refs[f] == 1 {
      FreePush(vm.free, vm.refs, f);
    } else {
      FreeSame(vm.free, vm.refs, UnmapFrame(vm, k).refs);
    }
    hide TableOk;
    EntryStep(vm, None, k, NOPTE, UnmapFrame(vm, k), None);
    EntryView(vm, k, UnmapFrame(vm, k));
  }

  /** The hardware, or `memmove` through the entry, writes bytes of a page that has PTE_W. */
  function Poke(vm: Vm, k: Key, page: Page): Vm
    requires k in vm.pt && vm.pt[k].addr < |vm.frames|
  {
    vm.(frames := vm.frames[vm.pt[k].addr := page])
  }

  lemma PokeOk(vm: Vm, k: Key, page: Page)
    requires Inv(vm, None) && k in vm.pt && vm.pt[k].v && vm.pt[k].w && |page| == PGSIZE
    ensures vm.pt[k].addr < |vm.frames| && Inv(Poke(vm, k, page), None)
    ensures k in View(vm) && View(Poke(vm, k, page)) == View(vm)[k := View(vm)[k].(bytes := page)]
  {
    hide CountsOk, FreeOk, SlotsOk;
    assert PteOk(vm.pt[k], |vm.frames|, |vm.swap|);
    hide TableOk;
    assert vm.pt == vm.pt[k := vm.pt[k]];
    ViewIsLook(vm);
    hide View;
    EntryView(vm, k, Poke(vm, k, page));
  }

  /** Setting or clearing PTE_A. */
  lemma AccessedOk(vm: Vm, hole: Option<nat>, k: Key, acc: bool)
    requires Inv(vm, hole) && k in vm.pt
    ensures var vm' := vm.(pt := vm.pt[k := vm.pt[k].(acc := acc)]); Inv(vm', hole) && View(vm') == View(vm)
  {
    hide CountsOk, FreeOk, SlotsOk, View;
    var e' := vm.pt[k].(acc := acc);
    var vm' := vm.(pt := vm.pt[k := e']);
    assert PteOk(vm.pt[k], |vm.frames|, |vm.swap|);
    CountFacts(vm, hole);
    hide TableOk;
    EntryStep(vm, hole, k, e', vm', hole);
    EntryView(vm, k, vm');
  }
}
