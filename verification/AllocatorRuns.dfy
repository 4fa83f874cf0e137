/** Whole runs of the allocator: any sequence of requests and frees. */
module AllocatorRuns {

  import opened FreeList
  import opened Sbrk
  import opened Allocator

  /** What a program asks for; `refuse` is the answer of `sbrk` should it be needed.  The program may also call
      `sbrk` itself and have the break raised. */
  datatype Op =
    | Ask(nbytes: nat, refuse: bool)
    | AskAligned(nbytes: nat, refuse: bool)
    | Return(ap: nat)
    | Raise(units: nat)

  /** Requests whose sums of bytes the 32-bit parameters carry: exactly those for which `sbrk` is asked for
      enough (Sbrk.AskedExact) and the aligned pieces fit (Allocator.PiecesFit). */
  predicate Fine(op: Op) {
    match op
    case Ask(n, _) => n < UINT && Askable(Units(n))
    case AskAligned(n, _) => n + 4096 < UINT && Askable(AlignUnits(n))
    case _ => true
  }

  /** All memory obtained lies below the break. */
  ghost predicate Under(granted: iset<nat>, brk: nat) { forall x: nat :: x in granted ==> x < brk }

  lemma GrantFits(super: bool, granted: iset<nat>, brk: nat, nu: nat, refuse: bool)
    requires Under(granted, brk) && brk >= PAGE && nu <= UINT / 16 + 1 && Askable(nu)
    ensures var g := Answer(super, brk, nu, refuse);
      && Answer(super, brk, nu, false).Granted? && Offers([g], granted)
      && (refuse <==> g.Refused?)
      && (g.Granted? ==> nu <= g.units == Answer(super, brk, nu, false).units && g.start == brk)
      && Under(granted, brk + Answer(super, brk, nu, false).units)
      && Under(granted + Region(g), brk + Answer(super, brk, nu, false).units)
  {
    CountExact(super, brk, nu);
  }

  /** One answer that covers the request: the heap grows exactly when no block is large enough and memory is
      not refused. */
  lemma OneAnswer(frees: seq<Blocks>, g: Grant, n: nat, was: iset<nat>, granted: iset<nat>)
    requires Searched(frees, [g], n) && (g.Granted? ==> g.units >= n)
    requires granted == was + Got([g][..|frees| - 1])
    ensures Large(Last(frees), n) <==> Large(frees[0], n) || g.Granted?
    ensures Large(frees[0], n) || g.Refused? ==> Last(frees) == frees[0] && granted == was
    ensures !Large(frees[0], n) && g.Granted? ==> granted == was + Region(g)
    ensures |frees| == if Large(frees[0], n) || g.Refused? then 1 else 2
  {
    OneGrant(frees, [g], n);
    assert [g][..0] == [] && [g][..1] == [g];
    assert Got([g]) == Region(g) && was + iset{} == was;
  }

  /** The pointers the program holds are those of the blocks handed out. */
  ghost predicate HeldBy(alloc: Blocks, mine: set<nat>) {
    (forall a :: a in alloc ==> a + 1 in mine) && (forall p :: p in mine ==> p > 0 && p - 1 in alloc)
  }

  lemma HeldMore(alloc: Blocks, mine: set<nat>, r: nat, n: nat)
    requires HeldBy(alloc, mine) && r > 0
    ensures HeldBy(alloc[r - 1 := n], mine + {r})
  {
  }

  lemma HeldLess(alloc: Blocks, mine: set<nat>, p: nat)
    requires HeldBy(alloc, mine) && p > 0
    ensures HeldBy(alloc - {p - 1}, mine - {p})
  {
  }

  /** The heap between two calls, with the break and the pointers the program holds. */
  datatype Snap = Snap(free: Blocks, alloc: Blocks, granted: iset<nat>, brk: nat, ordered: bool, mine: set<nat>)

  ghost function Now(h: Heap, brk: nat, mine: set<nat>): Snap
    reads h
  {
    Snap(h.free, h.alloc, h.granted, brk, Ordered(h.ring, h.free), mine)
  }

  ghost predicate SnapOk(s: Snap) {
    && BlocksOk(s.free, s.alloc) && Accounts(s.free, s.alloc, s.granted) && HeldBy(s.alloc, s.mine)
    && Under(s.granted, s.brk)
  }

  /** What a call returns and does; `r` is the pointer, 0 for none. */
  ghost predicate Outcome(super: bool, s: Snap, op: Op, r: nat, t: Snap) {
    (s.ordered && !op.AskAligned? ==> t.ordered) &&
    match op
    case Ask(n, refuse) => Served(s, Units(n), Units(n), Answer(super, s.brk, Units(n), refuse), r, t)
    case AskAligned(n, refuse) =>
      && Served(s, AlignUnits(n), Units(n), Answer(super, s.brk, AlignUnits(n), refuse), r, t)
      && (r != 0 ==> r % PAGE == 0)
    case Return(ap) =>
      && t.mine == s.mine - {ap} && t.granted == s.granted && t.brk == s.brk
      && t.alloc == (if ap in s.mine && ap > 0 then s.alloc - {ap - 1} else s.alloc)
      && (ap !in s.mine ==> t.free == s.free)
    case Raise(units) => t == s.(brk := s.brk + units)
  }

  /** A request that needs a free block of `need` units hands out one of `units`.  It fails exactly when no block
      is large enough and memory is refused; memory is taken, and the break moves, exactly when no block is large
      enough and memory is granted. */
  ghost predicate Served(s: Snap, need: nat, units: nat, g: Grant, r: nat, t: Snap) {
    && (r == 0 <==> g.Refused? && !Large(s.free, need))
    && (if r == 0 then t.free == s.free && t.alloc == s.alloc && t.mine == s.mine
        else r - 1 !in s.alloc && t.alloc == s.alloc[r - 1 := units] && t.mine == s.mine + {r})
    && t.granted == (if Large(s.free, need) || g.Refused? then s.granted else s.granted + Region(g))
    && t.brk == (if Large(s.free, need) || g.Refused? then s.brk else s.brk + g.units)
  }

  method Exec(super: bool, h: Heap, op: Op, mine: set<nat>, brk: nat) returns (r: nat, mine': set<nat>, brk': nat)
    requires h.Valid() && Fine(op) && HeldBy(h.alloc, mine) && Under(h.granted, brk) && brk >= PAGE
    modifies h
    ensures h.Valid() && HeldBy(h.alloc, mine') && Under(h.granted, brk') && brk' >= PAGE
    ensures Outcome(super, old(Now(h, brk, mine)), op, r, Now(h, brk', mine'))
  {
    hide RingOk, RingHolds, SizesOk, BlocksOk, Accounts, Ordered, Large, HeldBy, Under, Returned, HoldsBlock,
      CarvedSome, AlignedSome, Region, Units, AlignUnits, Searched, Offers, Got, Answer;
    r, mine', brk' := 0, mine, brk;
    ghost var frees;
    var used;
    match op
    case Ask(nbytes, refuse) =>
      UnitsBelow(nbytes);
      GrantFits(super, h.granted, brk, Units(nbytes), refuse);
      var g := Answer(super, brk, Units(nbytes), refuse);
      r, used, frees := h.Malloc(nbytes, [g]);
      OneAnswer(frees, g, Units(nbytes), old(h.granted), h.granted);
      if used > 0 { brk' := brk + g.units; }
      if r != 0 {
        HeldMore(old(h.alloc), mine, r, Units(nbytes));
        mine' := mine + {r};
      }
    case AskAligned(nbytes, refuse) =>
      UnitsBelow(nbytes);
      GrantFits(super, h.granted, brk, AlignUnits(nbytes), refuse);
      var g := Answer(super, brk, AlignUnits(nbytes), refuse);
      r, used, frees := h.MallocAlign(nbytes, [g]);
      OneAnswer(frees, g, AlignUnits(nbytes), old(h.granted), h.granted);
      if used > 0 { brk' := brk + g.units; }
      if r != 0 {
        HeldMore(old(h.alloc), mine, r, Units(nbytes));
        mine' := mine + {r};
      }
    case Return(ap) =>
      if ap in mine {
        HeldIs(h.alloc, mine, ap);
        h.Free(ap);
        HeldLess(old(h.alloc), mine, ap);
        mine' := mine - {ap};
      }
    case Raise(units) =>
      UnderMore(h.granted, brk, brk + units);
      brk' := brk + units;
  }

  lemma UnderMore(granted: iset<nat>, brk: nat, brk': nat)
    requires Under(granted, brk) && brk <= brk'
    ensures Under(granted, brk')
  {
  }

  lemma UnitsBelow(nbytes: nat)
    requires nbytes < UINT
    ensures Units(nbytes) <= UINT / 16 + 1 && AlignUnits(nbytes) <= UINT / 16 + 1
  {
  }

  lemma HeldIs(alloc: Blocks, mine: set<nat>, p: nat)
    requires HeldBy(alloc, mine) && p in mine
    ensures p > 0 && p - 1 in alloc
  {
  }

  /** `trace` is the history of a heap on which `ops` were performed and returned `rs`. */
  ghost predicate History(super: bool, trace: seq<Snap>, ops: seq<Op>, rs: seq<nat>) {
    && |trace| == |rs| + 1 && |rs| <= |ops|
    && (forall i :: 0 <= i < |trace| ==> SnapOk(trace[i]))
    && (forall i, j :: 0 <= i && j == i + 1 && j < |trace| ==> Outcome(super, trace[i], ops[i], rs[i], trace[j]))
  }

  lemma HistoryMore(super: bool, trace: seq<Snap>, ops: seq<Op>, rs: seq<nat>, r: nat, s: Snap)
    requires History(super, trace, ops, rs) && |rs| < |ops| && SnapOk(s)
    requires Outcome(super, trace[|rs|], ops[|rs|], r, s)
    ensures History(super, trace + [s], ops, rs + [r])
  {
    hide SnapOk, Outcome;
    var n, trace', rs' := |rs|, trace + [s], rs + [r];
    assert trace'[n] == trace[n] && trace'[n + 1] == s && rs'[n] == r;
    forall i, j | 0 <= i && j == i + 1 && j < |trace'| ensures Outcome(super, trace'[i], ops[i], rs'[i], trace'[j]) {
      if j <= n { assert trace'[i] == trace[i] && trace'[j] == trace[j] && rs'[i] == rs[i]; }
    }
  }

  /** After any sequence of malloc, malloc_align and free: free and handed-out blocks are apart and
      account for all memory obtained; the ring leads through the free blocks, in address order and
      without touching blocks unless an aligned block was asked for. */
  method Run(super: bool, ops: seq<Op>, start: nat)
    returns (h: Heap, rs: seq<nat>, mine: set<nat>, brk: nat, ghost trace: seq<Snap>)
    requires start >= PAGE && forall i :: 0 <= i < |ops| ==> Fine(ops[i])
    ensures fresh(h) && h.Valid() && |rs| == |ops| && History(super, trace, ops, rs)
    ensures trace[|rs|] == Now(h, brk, mine)
    ensures trace[0] == Snap(map[], map[], iset{}, start, true, {})
  {
    hide RingOk, RingHolds, SizesOk, BlocksOk, Accounts, Ordered, HeldBy, Under, Outcome, History;
    h := new Heap();
    mine, rs := {}, [];
    NoneHeld(start);
    HistoryBoot(super, Now(h, start, mine), ops);
    ghost var boot := Now(h, start, mine);
    trace := [boot];
    brk := start;
    while |rs| < |ops|
      invariant |rs| <= |ops| && fresh(h) && h.Valid() && HeldBy(h.alloc, mine) && Under(h.granted, brk) && brk >= PAGE
      invariant History(super, trace, ops, rs) && |trace| == |rs| + 1
      invariant trace[|rs|] == Now(h, brk, mine) && trace[0] == boot
      decreases |ops| - |rs|
    {
      var r;
      r, mine, brk := Exec(super, h, ops[|rs|], mine, brk);
      HistoryMore(super, trace, ops, rs, r, Now(h, brk, mine));
      rs, trace := rs + [r], trace + [Now(h, brk, mine)];
    }
  }

  lemma HistoryBoot(super: bool, s: Snap, ops: seq<Op>)
    requires SnapOk(s)
    ensures History(super, [s], ops, [])
  {
    hide SnapOk;
  }

  /** As long as no aligned block is asked for, the ring is in address order and no two free blocks touch. */
  lemma {:induction false} OrderLasts(super: bool, trace: seq<Snap>, ops: seq<Op>, rs: seq<nat>, i: nat)
    requires History(super, trace, ops, rs) && i < |trace| && trace[0].ordered
    requires forall j :: 0 <= j < i ==> !ops[j].AskAligned?
    ensures trace[i].ordered
  {
    hide SnapOk;
    if i > 0 {
      OrderLasts(super, trace, ops, rs, i - 1);
      assert Outcome(super, trace[i - 1], ops[i - 1], rs[i - 1], trace[i]);
    }
  }

  /** If the program leaves the break alone, then in every state the memory obtained is all that lies between the
      break at the start and the break now. */
  lemma {:induction false} UpToTheBreak(super: bool, trace: seq<Snap>, ops: seq<Op>, rs: seq<nat>, i: nat)
    requires History(super, trace, ops, rs) && i < |trace| && trace[0].granted == iset{}
    requires forall j :: 0 <= j < i ==> !ops[j].Raise?
    ensures trace[0].brk <= trace[i].brk
    ensures forall x: nat :: x in trace[i].granted <==> trace[0].brk <= x < trace[i].brk
  {
    hide SnapOk, Large;
    if i > 0 {
      UpToTheBreak(super, trace, ops, rs, i - 1);
      assert Outcome(super, trace[i - 1], ops[i - 1], rs[i - 1], trace[i]);
    }
  }

  lemma NoneHeld(brk: nat)
    ensures HeldBy(map[], {}) && Under(iset{}, brk)
  {
  }

  // ----- Requests that are not fine, on a heap that a first small request has made -------------

  /** All memory after `sbrk` has moved the break, in bytes, to `brk'`. */
  ghost function Moved(granted: iset<nat>, brk: nat, brk': nat): iset<nat> {
    iset x: nat | (x in granted && 16 * x < brk') || brk <= 16 * x < brk'
  }

  /** In any heap, the block that `morecore` makes is memory that `sbrk` gave exactly when the argument is positive
      and, where the break is not read again, not cut. */
  lemma GrowExact(super: bool, free: Blocks, alloc: Blocks, granted: iset<nat>, brk: nat, nu: nat)
    requires BlocksOk(free, alloc) && Accounts(free, alloc, granted) && Under(granted, brk) && brk >= PAGE
    requires nu <= UINT / 16 + 1
    ensures var alloc', brk' := alloc[brk := Answer(super, brk, nu, false).units],
                                NewBreak(super, 16 * brk, SbrkArg(nu));
      BlocksOk(free, alloc') && Accounts(free, alloc', Moved(granted, 16 * brk, brk'))
      <==> if super then SbrkArg(nu) > 0 else Askable(nu)
  {
    var units, brk' := Answer(super, brk, nu, false).units, NewBreak(super, 16 * brk, SbrkArg(nu));
    var alloc' := alloc[brk := units];
    CountExact(super, brk, nu);
    hide SbrkArg, NewBreak, NewUnits, BlocksOk, Accounts, Under, Moved;
    if SbrkArg(nu) <= 0 {
      if BlocksOk(free, alloc') {
        BlockAbove(free, alloc', brk);
        NotObtained(free, alloc', granted, brk, brk', brk, brk);
      }
    } else if 16 * (brk + units) == brk' {
      Obtained(free, alloc, granted, brk, units);
    } else {
      NotObtained(free, alloc', granted, brk, brk', brk, brk + 1);
    }
  }

  /** A block reaching beyond the break is not accounted for. */
  lemma NotObtained(free: Blocks, alloc: Blocks, granted: iset<nat>, brk: nat, brk': nat, a: nat, x: nat)
    requires a in alloc && a <= x < a + alloc[a] && brk' <= 16 * x
    ensures !Accounts(free, alloc, Moved(granted, 16 * brk, brk'))
  {
    var m := free + alloc;
    assert a in m && a <= x < a + m[a];
    assert Covers(m, x);
  }

  lemma Obtained(free: Blocks, alloc: Blocks, granted: iset<nat>, brk: nat, units: nat)
    requires BlocksOk(free, alloc) && Accounts(free, alloc, granted) && Under(granted, brk) && brk > BASE && units > 0
    ensures BlocksOk(free, alloc[brk := units])
    ensures Accounts(free, alloc[brk := units], Moved(granted, 16 * brk, 16 * (brk + units)))
  {
    var g := Granted(brk, units);
    assert granted + Region(g) == Moved(granted, 16 * brk, 16 * (brk + units));
    NewIsFresh(free, alloc, granted, g);
    GrantBlocks(free, alloc, granted, brk, units);
  }

  /** What is handed out of the last memory obtained is its end. */
  lemma TailOf(was: Blocks, free: Blocks, alloc: Blocks, granted: iset<nat>, lo: nat, start: nat, units: nat, n: nat,
               r: nat)
    requires BlocksOk(free, alloc) && Accounts(free, alloc, granted) && r in alloc && alloc[r] == n
    requires HoldsBlock(was, start, units) && CarvedSome(was, free, n, r) && n <= units
    requires lo <= start < lo + n && forall x: nat :: x in granted ==> lo <= x < start + units
    ensures r == start + units - n
    ensures n < units ==> exists a :: a in free && a <= start && a + free[a] == r
  {
    var b :| b in was && b <= start && start + units <= b + was[b];
    var a: nat :| Carved(was, free, a, n, r);
    BlockAbove(free, alloc, r);
    var m := free + alloc;
    assert r in m && m[r] == n && Covers(m, r) && Covers(m, r + n - 1);
    assert r in granted && r + n - 1 in granted;
    hide BlocksOk, Accounts, Covers;
    if a != b {
      StaysFree(was, free, alloc, a, b, r);
      assert false;
    }
    assert r == start + units - n;
    assert n < units ==> a in free && a <= start && a + free[a] == r;
  }

  lemma StaysFree(was: Blocks, free: Blocks, alloc: Blocks, a: nat, b: nat, r: nat)
    requires BlocksOk(free, alloc) && r in alloc && a in was
    requires free == if a in free then was[a := free[a]] else was - {a}
    requires b in was && b != a
    ensures b + was[b] <= r || r + alloc[r] <= b
  {
    var m := free + alloc;
    assert m[b] == was[b] && m[r] == alloc[r];
  }

  /** A first `malloc(100)` leaves 4088 free units and hands out the last eight. */
  method First(super: bool, start: nat) returns (h: Heap)
    requires start >= PAGE
    ensures fresh(h) && h.Valid() && h.granted == Region(Granted(start, 4096))
    ensures h.free == map[start := 4088] && h.alloc == map[start + 4088 := 8]
  {
    hide RingOk, RingHolds, SizesOk, BlocksOk, Accounts, Ordered, Returned, HoldsBlock, CarvedSome, Searched, Answer,
      Got, Offers, Region, Large;
    h := new Heap();
    var g := Answer(super, start, Units(100), false);
    FirstAnswer(super, start);
    var r, used; ghost var frees;
    r, used, frees := h.Malloc(100, [g]);
    FirstTaken(frees, g, 8, iset{}, h.granted);
    InRegion(start, 4096);
    TailOf(frees[1], h.free, h.alloc, h.granted, start, start, 4096, 8, r - 1);
    OnlyOne(h.free, h.alloc, start, 4088, 8);
  }

  lemma FirstAnswer(super: bool, start: nat)
    requires start >= PAGE
    ensures Units(100) == 8 && Answer(super, start, 8, false) == Granted(start, 4096)
    ensures Offers([Granted(start, 4096)], iset{}) && !Large(map[], 8)
    ensures iset{} + Region(Granted(start, 4096)) == Region(Granted(start, 4096))
  {
  }

  /** A grant that is needed and large enough is the only one taken. */
  lemma FirstTaken(frees: seq<Blocks>, g: Grant, n: nat, was: iset<nat>, granted: iset<nat>)
    requires Searched(frees, [g], n) && g.Granted? && g.units >= n && !Large(frees[0], n)
    requires granted == was + Got([g][..|frees| - 1])
    ensures |frees| == 2 && Large(Last(frees), n) && HoldsBlock(frees[1], g.start, g.units)
    ensures granted == was + Region(g)
  {
    OneAnswer(frees, g, n, was, granted);
    OneGrant(frees, [g], n);
    assert Taken(frees[0], g, n, frees[1]);
  }

  lemma OnlyOne(free: Blocks, alloc: Blocks, start: nat, n: nat, m: nat)
    requires BlocksOk(free, alloc) && Accounts(free, alloc, Region(Granted(start, n + m)))
    requires n > 0 && m > 0 && alloc == map[start + n := m]
    requires exists a :: a in free && a <= start && a + free[a] == start + n
    ensures free == map[start := n]
  {
    var all := free + alloc;
    var a :| a in free && a <= start && a + free[a] == start + n;
    assert all[a] == free[a] && all[start + n] == m;
    assert Covers(all, a);
    forall b | b in free ensures b == start {
      assert all[b] == free[b] && Covers(all, b);
    }
  }

  /** The end, in bytes, of the last page of a process. */
  function MappedEnd(brk: nat): nat { RoundUp(brk, 4096) }

  /** For 0xFFFFFFD0 bytes `sbrk` is called with -32, and the process shrinks by two units.  Where the break is not
      read again, the block that begins at the old break is returned; unless that break is at the start of a page,
      its header lies on a page that is still there, and nothing else is stored, so the call succeeds.  Where the
      break is read again, the block is taken for one of 64 GB and cut: the header of the tail, which is stored
      before the call returns, lies behind all pages, so the process faults. */
  method Overreach(super: bool, start: nat) returns (h: Heap, r: nat)
    requires start >= PAGE
    ensures fresh(h) && r - 1 in h.alloc && h.alloc[r - 1] == Units(0xFFFF_FFD0)
    ensures var brk, end := start + 4096, MappedEnd(16 * (start + 4096 - 2));
      && SbrkArg(Units(0xFFFF_FFD0)) == -32 && NewBreak(super, 16 * brk, -32) == 16 * (brk - 2)
      && (!super ==> r - 1 == brk && (brk % PAGE >= 3 <==> 16 * (r - 1) + 16 <= end))
      && (super ==> r - 1 == brk + 0xFFFF_FFFE - Units(0xFFFF_FFD0) && 16 * (r - 1) >= end)
      && 16 * (r - 1 + h.alloc[r - 1]) > end
  {
    hide RingOk, RingHolds, SizesOk, BlocksOk, Accounts, Ordered, Returned, HoldsBlock, CarvedSome, Searched, Answer,
      Got;
    h := First(super, start);
    var brk, nu := start + 4096, Units(0xFFFF_FFD0);
    var g := Answer(super, brk, nu, false);
    Minus32(super, brk);
    assert Region(g) !! h.granted && h.granted + Region(g) == Region(Granted(start, 4096 + g.units));
    assert !Large(h.free, nu);
    var used; ghost var frees;
    r, used, frees := h.Malloc(0xFFFF_FFD0, [g]);
    FirstTaken(frees, g, nu, Region(Granted(start, 4096)), h.granted);
    InRegion(start, 4096 + g.units);
    TailOf(frees[1], h.free, h.alloc, h.granted, start, brk, g.units, nu, r - 1);
    PagesAfter(brk);
  }

  /** After a shrink by two units the page of the old break is still there unless the break was at its start. */
  lemma PagesAfter(brk: nat)
    requires brk >= PAGE
    ensures 16 * (brk - 2) <= MappedEnd(16 * (brk - 2)) < 16 * (brk - 2) + 4096
    ensures brk % PAGE >= 3 <==> 16 * brk + 16 <= MappedEnd(16 * (brk - 2))
  {
    var q, o := brk / PAGE, brk % PAGE;
    assert brk == PAGE * q + o;
    var x := 16 * (brk - 2);
    assert x == 4096 * q + (16 * o - 32);
    PageEnd(x, q, 16 * o - 32);
  }

  lemma PageEnd(x: nat, q: nat, o: int)
    requires x == 4096 * q + o && -32 <= o < 4096
    ensures RoundUp(x, 4096) == 4096 * q + if o <= 0 then 0 else 4096
  {
    var y := x + 4095;
    if o <= 0 {
      Quotient(y, q, 4095 + o);
    } else {
      Quotient(y, q + 1, o - 1);
    }
  }

  lemma Quotient(y: nat, q: nat, r: nat)
    requires y == 4096 * q + r && r < 4096
    ensures y / 4096 == q
  {
  }

  lemma InRegion(start: nat, units: nat)
    ensures forall x: nat :: x in Region(Granted(start, units)) <==> start <= x < start + units
  {
  }

  lemma Minus32(super: bool, brk: nat)
    requires brk >= PAGE
    ensures var nu := Units(0xFFFF_FFD0);
      && nu == 0xFFF_FFFE && SbrkArg(nu) == -32 && NewBreak(super, 16 * brk, -32) == 16 * (brk - 2)
      && Answer(super, brk, nu, false) == Granted(brk, if super then 0xFFFF_FFFE else nu)
  {
    assert Units(0xFFFF_FFD0) == 0xFFF_FFFE;
    ArgIs(0xFFF_FFFE);
    hide RoundUp, SbrkArg;
  }

  /** For 0xFFFFFFFF bytes `sbrk` is called with 16 until there is no memory: of `room` units all are taken,
      and the request fails. */
  method Starved(start: nat, room: nat) returns (h: Heap, r: nat)
    requires start >= PAGE && room < 0xFFF_0000
    ensures SbrkArg(Units(0xFFFF_FFFF)) == 16
    ensures forall brk: nat :: brk >= PAGE ==> Answer(true, brk, Units(0xFFFF_FFFF), false) == Granted(brk, 1)
    ensures fresh(h) && h.Valid() && r == 0 && h.granted == Region(Granted(start, 4096 + room))
  {
    hide RingOk, RingHolds, SizesOk, BlocksOk, Accounts, Ordered, Returned, HoldsBlock, CarvedSome, Searched, Answer,
      Got;
    h := First(true, start);
    var brk, nu := start + 4096, Units(0xFFFF_FFFF);
    var gs := seq(room, i requires 0 <= i < room => Answer(true, brk + i, nu, false));
    forall b: nat | b >= PAGE ensures Answer(true, b, Units(0xFFFF_FFFF), false) == Granted(b, 1) { OneUnit(b); }
    forall i | 0 <= i < room ensures gs[i] == Granted(brk + i, 1) { }
    assert Offers(gs, h.granted);
    var used; ghost var frees;
    r, used, frees := h.Malloc(0xFFFF_FFFF, gs);
    SearchedShape(frees, gs, nu);
    var taken := |frees| - 1;
    AllTaken(gs, brk, taken);
    assert h.granted == Region(Granted(start, 4096 + taken)) by {
      InRegion(start, 4096);
      InRegion(start, 4096 + taken);
    }
    if r != 0 {
      InRegion(start, 4096 + taken);
      TooLarge(h.free, h.alloc, h.granted, start, 4096 + taken, r - 1);
    }
  }

  lemma SearchedShape(frees: seq<Blocks>, gs: seq<Grant>, n: nat)
    requires Searched(frees, gs, n)
    ensures 0 < |frees| <= |gs| + 1 && (!Large(Last(frees), n) ==> RefusedAt(gs, |frees| - 1))
  {
  }

  /** A block handed out is no larger than the memory. */
  lemma TooLarge(free: Blocks, alloc: Blocks, granted: iset<nat>, start: nat, units: nat, r: nat)
    requires BlocksOk(free, alloc) && Accounts(free, alloc, granted) && r in alloc
    requires forall x: nat :: x in granted <==> start <= x < start + units
    ensures alloc[r] <= units
  {
    BlockAbove(free, alloc, r);
    var m := free + alloc;
    assert r in m && m[r] == alloc[r] && Covers(m, r) && Covers(m, r + alloc[r] - 1);
  }

  lemma OneUnit(brk: nat)
    requires brk >= PAGE
    ensures SbrkArg(Units(0xFFFF_FFFF)) == 16 && Answer(true, brk, Units(0xFFFF_FFFF), false) == Granted(brk, 1)
  {
    assert Units(0xFFFF_FFFF) == 0x1000_0001;
    ArgIs(0x1000_0001);
    UnitsBetween(16 * brk, 16 * brk + 16);
    hide NewUnits, RoundUp;
  }

  lemma {:induction false} AllTaken(gs: seq<Grant>, brk: nat, k: nat)
    requires k <= |gs| && forall i :: 0 <= i < |gs| ==> gs[i] == Granted(brk + i, 1)
    ensures forall x: nat :: x in Got(gs[..k]) <==> brk <= x < brk + k
  {
    if k > 0 {
      AllTaken(gs, brk, k - 1);
      GotMore(gs, k - 1);
    }
  }

  /** The aligned request whose sum of bytes wraps finds the one free block large enough, and its pieces do not
      fit there. */
  method AlignWraps(super: bool, start: nat) returns (h: Heap)
    requires start >= PAGE
    ensures fresh(h) && h.Valid() && h.free == map[start := 4088]
    ensures forall n :: UINT - 4096 <= n < UINT ==> AlignUnits(n) <= 4088 && !Fits(n, start, 4088)
  {
    h := First(super, start);
    forall n | UINT - 4096 <= n < UINT ensures AlignUnits(n) <= 4088 && !Fits(n, start, 4088) {
      LeadBound(start);
      Wrapped(n);
    }
  }

  lemma Wrapped(n: nat)
    requires UINT - 4096 <= n < UINT
    ensures AlignUnits(n) <= 257 && Units(n) > 4088
  {
  }
}
