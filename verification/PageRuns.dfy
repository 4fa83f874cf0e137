/** Whole runs of the per-CPU allocator: any interleaving of the critical sections of kalloc and kfree. */
module PageRuns {
  import opened PerCpuPages

  /** CPU `i` frees a page, or goes on with the call of `kalloc` it is in, or enters one. */
  datatype Op = Free(i: nat, pa: nat) | Go(i: nat)

  datatype Snap = Snap(pc: seq<Pc>, lists: seq<seq<nat>>, flights: seq<seq<nat>>, place: map<nat, Loc>)

  ghost function Now(k: Kmems): Snap
    reads k
  {
    Snap(k.pc, k.lists, k.flights, k.place)
  }

  ghost predicate SnapOk(s: Snap) {
    && Placed(s.place, s.lists, s.flights) && |s.pc| == |s.lists|
    && (forall c :: 0 <= c < |s.pc| && !s.pc[c].Idle? ==> s.lists[c] == [])
    && (forall c :: 0 <= c < |s.pc| ==> (s.pc[c].Stolen? <==> s.flights[c] != []))
  }

  /** A CPU outside `kalloc` frees pages that are handed out, each once. */
  predicate Frees(s: Snap, i: nat, pa: nat) {
    i < |s.pc| && s.pc[i].Idle? && pa != 0 && pa in s.place && s.place[pa].Out?
  }

  /** What the next critical section returns: the page `kalloc` is done with, or 0. */
  ghost function Given(s: Snap, op: Op): nat
    requires SnapOk(s)
  {
    if op.Free? || op.i >= |s.pc| then 0
    else match s.pc[op.i]
      case Idle => if s.lists[op.i] == [] then 0 else s.lists[op.i][0]
      case Searching(_) => 0
      case Stolen(_) => s.flights[op.i][0]
  }

  ghost function Next(s: Snap, op: Op): Snap
    requires SnapOk(s)
  {
    match op
    case Free(i, pa) =>
      if !Frees(s, i, pa) then s
      else s.(lists := s.lists[i := [pa] + s.lists[i]], place := s.place[pa := OnList(i)])
    case Go(i) =>
      if i >= |s.pc| then s
      else match s.pc[i]
        case Idle =>
          if s.lists[i] == [] then s.(pc := s.pc[i := Searching(0)])
          else s.(lists := s.lists[i := s.lists[i][1..]], place := s.place[s.lists[i][0] := Out])
        case Searching(j) => Looked(s, i, j)
        case Stolen(_) =>
          var f := s.flights[i];
          Snap(s.pc[i := Idle], s.lists[i := f[1..]], s.flights[i := []],
               MoveAll(s.place, f, OnList(i))[f[0] := Out])
  }

  /** CPU `i` looks at list `j`: past the last one it gives up, and of a list with pages it steals the front half. */
  ghost function Looked(s: Snap, i: nat, j: nat): Snap
    requires SnapOk(s) && i < |s.pc|
  {
    if j >= |s.pc| then s.(pc := s.pc[i := Idle])
    else if j == i || s.lists[j] == [] then s.(pc := s.pc[i := Searching(j + 1)])
    else
      var l, h := s.lists[j], Half(|s.lists[j]|);
      Snap(s.pc[i := Stolen(l[0])], s.lists[j := l[h..]], s.flights[i := l[..h]], MoveAll(s.place, l[..h], InFlight(i)))
  }

  /** Pages in use. */
  ghost predicate InUse(place: map<nat, Loc>, out: set<nat>) { forall p :: p in out <==> p in place && place[p].Out? }

  lemma ValidSnap(k: Kmems)
    requires k.Valid()
    ensures SnapOk(Now(k))
  {
  }

  lemma UseLess(place: map<nat, Loc>, out: set<nat>, pa: nat, i: nat)
    requires InUse(place, out) && pa in place
    ensures InUse(place[pa := OnList(i)], out - {pa}) && place[pa := OnList(i)].Keys == place.Keys
  {
  }

  lemma UseMore(place: map<nat, Loc>, out: set<nat>, pa: nat)
    requires InUse(place, out) && pa in place
    ensures InUse(place[pa := Out], out + {pa}) && place[pa := Out].Keys == place.Keys
  {
  }

  lemma UseMoved(s: Snap, out: set<nat>, c: nat, n: nat, l: Loc)
    requires SnapOk(s) && InUse(s.place, out) && c < |s.pc| && !l.Out?
    ensures n <= |s.lists[c]| ==> InUse(MoveAll(s.place, s.lists[c][..n], l), out)
    ensures InUse(MoveAll(s.place, s.flights[c], l), out)
    ensures forall q :: MoveAll(s.place, q, l).Keys == s.place.Keys
    ensures s.flights[c] != [] ==> s.flights[c][0] in s.place
  {
    forall p | p in s.lists[c] ensures !s.place[p].Out? { var k :| 0 <= k < |s.lists[c]| && s.lists[c][k] == p; }
    forall p | p in s.flights[c] ensures !s.place[p].Out? { var k :| 0 <= k < |s.flights[c]| && s.flights[c][k] == p; }
    forall q ensures MoveAll(s.place, q, l).Keys == s.place.Keys {
      assert forall p :: p in MoveAll(s.place, q, l) <==> p in s.place;
    }
  }

  method Exec(k: Kmems, op: Op, out: set<nat>) returns (r: nat, out': set<nat>)
    requires k.Valid() && InUse(k.place, out) && 0 !in k.place
    modifies k
    ensures k.Valid() && InUse(k.place, out') && k.place.Keys == old(k.place.Keys)
    ensures SnapOk(old(Now(k))) && r == Given(old(Now(k)), op) && Now(k) == Next(old(Now(k)), op)
  {
    match op
    case Free(i, pa) =>
      r := 0;
      out' := ExecFree(k, i, pa, out);
    case Go(i) =>
      r, out' := ExecGo(k, i, out);
  }

  method ExecFree(k: Kmems, i: nat, pa: nat, out: set<nat>) returns (out': set<nat>)
    requires k.Valid() && InUse(k.place, out) && 0 !in k.place
    modifies k
    ensures k.Valid() && InUse(k.place, out') && k.place.Keys == old(k.place.Keys)
    ensures SnapOk(old(Now(k))) && Now(k) == Next(old(Now(k)), Free(i, pa))
  {
    ValidSnap(k);
    hide Placed, Chains, Calls, Chain;
    out' := out;
    if i < |k.pc| && k.pc[i].Idle? && pa in out {
      UseLess(k.place, out, pa, i);
      k.KFree(i, pa);
      out' := out - {pa};
    }
  }

  method ExecGo(k: Kmems, i: nat, out: set<nat>) returns (r: nat, out': set<nat>)
    requires k.Valid() && InUse(k.place, out) && 0 !in k.place
    modifies k
    ensures k.Valid() && InUse(k.place, out') && k.place.Keys == old(k.place.Keys)
    ensures SnapOk(old(Now(k))) && r == Given(old(Now(k)), Go(i)) && Now(k) == Next(old(Now(k)), Go(i))
  {
    ValidSnap(k);
    hide Placed, Chains, Calls, Chain, InUse, MoveAll;
    r, out' := 0, out;
    if i >= |k.pc| {
      return;
    }
    match k.pc[i]
    case Idle =>
      ghost var was := k.place;
      r := k.TakeLocal(i);
      if r != 0 {
        UseMore(was, out, r);
        out' := out + {r};
      }
    case Searching(j) =>
      if j < |k.pc| { UseMoved(Now(k), out, j, Half(|k.lists[j]|), InFlight(i)); }
      k.Steal(i);
    case Stolen(_) =>
      UseMoved(Now(k), out, i, 0, OnList(i));
      ghost var moved := MoveAll(k.place, k.flights[i], OnList(i));
      UseMore(moved, out, k.flights[i][0]);
      r := k.Install(i);
      out' := out + {r};
  }

  // ----- Whole runs ------------------------------------------------------------------------------

  /** `trace` is the history of an allocator on which `ops` were performed and returned `rs`. */
  ghost predicate History(trace: seq<Snap>, ops: seq<Op>, rs: seq<nat>) {
    && |trace| == |rs| + 1 && |rs| <= |ops|
    && (forall i :: 0 <= i < |trace| ==> SnapOk(trace[i]))
    && (forall i, j :: 0 <= i && j == i + 1 && j < |trace| ==> Stepped(trace[i], ops[i], rs[i], trace[j]))
  }

  ghost predicate Stepped(s: Snap, op: Op, r: nat, t: Snap)
    requires SnapOk(s)
  {
    r == Given(s, op) && t == Next(s, op)
  }

  lemma HistoryMore(trace: seq<Snap>, ops: seq<Op>, rs: seq<nat>, r: nat, t: Snap)
    requires History(trace, ops, rs) && |rs| < |ops| && SnapOk(t) && Stepped(trace[|rs|], ops[|rs|], r, t)
    ensures History(trace + [t], ops, rs + [r])
  {
    hide SnapOk, Stepped;
    var n, trace', rs' := |rs|, trace + [t], rs + [r];
    forall i | 0 <= i < |trace'| ensures SnapOk(trace'[i]) {
    }
    forall i, j | 0 <= i && j == i + 1 && j < |trace'| ensures Stepped(trace'[i], ops[i], rs'[i], trace'[j]) {
      if j <= n { assert trace'[i] == trace[i] && trace'[j] == trace[j] && rs'[i] == rs[i]; }
    }
  }

  /** Any interleaving of the CPUs.  At the start all pages are handed out: `freerange` frees them first. */
  method Run(cpus: nat, pages: set<nat>, ops: seq<Op>) returns (k: Kmems, rs: seq<nat>, ghost trace: seq<Snap>)
    requires 0 !in pages
    ensures fresh(k) && k.Valid() && |rs| == |ops| && History(trace, ops, rs) && trace[|rs|] == Now(k)
    ensures trace[0].place == (map p | p in pages :: Out) && |trace[0].pc| == cpus
    ensures forall c :: 0 <= c < cpus ==> trace[0].pc[c].Idle?
  {
    hide Placed, Chains, Calls, History;
    k := new Kmems(cpus, pages);
    var out := pages;
    rs := [];
    ValidSnap(k);
    trace := [Now(k)];
    BootHistory(Now(k), ops);
    ghost var boot := Now(k);
    while |rs| < |ops|
      invariant |rs| <= |ops| && fresh(k) && k.Valid() && InUse(k.place, out) && k.place.Keys == pages
      invariant History(trace, ops, rs) && |trace| == |rs| + 1 && trace[|rs|] == Now(k) && trace[0] == boot
      decreases |ops| - |rs|
    {
      var r;
      r, out := Exec(k, ops[|rs|], out);
      ValidSnap(k);
      HistoryMore(trace, ops, rs, r, Now(k));
      rs, trace := rs + [r], trace + [Now(k)];
    }
  }

  lemma BootHistory(s: Snap, ops: seq<Op>)
    requires SnapOk(s)
    ensures History([s], ops, [])
  {
    hide SnapOk;
  }

  /** What one step does to one page and to one CPU. */
  lemma StepFacts(s: Snap, op: Op, p: nat, c: nat)
    requires SnapOk(s)
    ensures var t := Next(s, op);
      && t.place.Keys == s.place.Keys && |t.pc| == |s.pc|
      && (p in s.place && s.place[p].Out? && !t.place[p].Out? ==> op.Free? && op.pa == p && Frees(s, op.i, p))
      && (Given(s, op) == p != 0 ==> p in s.place && !s.place[p].Out? && t.place[p].Out?)
      && (c < |s.pc| && op != Go(c) ==> t.pc[c] == s.pc[c])
  {
    hide Placed;
    match op
    case Free(i, pa) =>
    case Go(i) =>
      if i < |s.pc| { GoFacts(s, i, p); }
  }

  lemma GoFacts(s: Snap, i: nat, p: nat)
    requires SnapOk(s) && i < |s.pc|
    ensures var t := Next(s, Go(i));
      && t.place.Keys == s.place.Keys
      && (p in s.place && s.place[p].Out? ==> t.place[p].Out?)
      && (Given(s, Go(i)) == p != 0 ==> p in s.place && !s.place[p].Out? && t.place[p].Out?)
  {
    var out := set q | q in s.place && s.place[q].Out?;
    match s.pc[i]
    case Idle =>
      if s.lists[i] != [] { assert s.place[s.lists[i][0]] == OnList(i); }
    case Searching(j) =>
      if j < |s.pc| { UseMoved(s, out, j, Half(|s.lists[j]|), InFlight(i)); }
    case Stolen(_) =>
      UseMoved(s, out, i, 0, OnList(i));
      assert s.place[s.flights[i][0]] == InFlight(i);
  }

  /** No page is lost or made, in any interleaving. */
  lemma {:induction false} SamePages(trace: seq<Snap>, ops: seq<Op>, rs: seq<nat>, i: nat)
    requires History(trace, ops, rs) && i < |trace|
    ensures trace[i].place.Keys == trace[0].place.Keys && |trace[i].pc| == |trace[0].pc|
  {
    hide SnapOk;
    if i > 0 {
      SamePages(trace, ops, rs, i - 1);
      assert Stepped(trace[i - 1], ops[i - 1], rs[i - 1], trace[i]);
      StepFacts(trace[i - 1], ops[i - 1], 0, 0);
    }
  }

  /** A page stays with the one who got it until someone frees it. */
  lemma {:induction false} StaysOut(trace: seq<Snap>, ops: seq<Op>, rs: seq<nat>, i: nat, j: nat, p: nat)
    requires History(trace, ops, rs) && i <= j < |trace| && p in trace[i].place && trace[i].place[p].Out?
    requires forall m :: i <= m < j ==> !(ops[m].Free? && ops[m].pa == p)
    ensures p in trace[j].place && trace[j].place[p].Out?
  {
    hide SnapOk;
    if i < j {
      StaysOut(trace, ops, rs, i, j - 1, p);
      assert Stepped(trace[j - 1], ops[j - 1], rs[j - 1], trace[j]);
      StepFacts(trace[j - 1], ops[j - 1], p, 0);
    }
  }

  /** In any interleaving, no page is handed out twice without having been freed in between. */
  lemma NeverTwice(trace: seq<Snap>, ops: seq<Op>, rs: seq<nat>, i: nat, j: nat)
    requires History(trace, ops, rs) && i < j < |rs| && rs[i] == rs[j] != 0
    ensures exists m :: i < m < j && ops[m].Free? && ops[m].pa == rs[i]
  {
    hide SnapOk;
    var p := rs[i];
    assert Stepped(trace[i], ops[i], rs[i], trace[i + 1]);
    StepFacts(trace[i], ops[i], p, 0);
    assert Stepped(trace[j], ops[j], rs[j], trace[j + 1]);
    StepFacts(trace[j], ops[j], p, 0);
    if forall m :: i < m < j ==> !(ops[m].Free? && ops[m].pa == p) {
      StaysOut(trace, ops, rs, i + 1, j, p);
      assert false;
    }
  }

  /** At step `m`, in the search that CPU `i` is still in at `k`, it found list `c` empty. */
  ghost predicate Saw(trace: seq<Snap>, ops: seq<Op>, i: nat, c: nat, m: nat, k: nat) {
    && m < k < |trace| && m < |ops| && ops[m] == Go(i) && c < |trace[m].lists| && trace[m].lists[c] == []
    && forall q :: m <= q <= k ==> i < |trace[q].pc| && trace[q].pc[i].Searching?
  }

  lemma {:induction false} LookedAt(trace: seq<Snap>, ops: seq<Op>, rs: seq<nat>, i: nat, k: nat, n: nat, c: nat)
    requires History(trace, ops, rs) && k < |trace| && i < |trace[0].pc| && trace[0].pc[i].Idle?
    requires i < |trace[k].pc| && trace[k].pc[i] == Searching(n) && c < n && c < |trace[k].pc|
    ensures exists m :: Saw(trace, ops, i, c, m, k)
  {
    hide Placed;
    assert k > 0;
    var s := trace[k - 1];
    assert Stepped(s, ops[k - 1], rs[k - 1], trace[k]);
    StepFacts(s, ops[k - 1], 0, i);
    if ops[k - 1] == Go(i) && s.pc[i] == Searching(c) {
      assert Saw(trace, ops, i, c, k - 1, k);
    } else {
      var n' := if ops[k - 1] == Go(i) then n - 1 else n;
      assert s.pc[i] == Searching(n');
      LookedAt(trace, ops, rs, i, k - 1, n', c);
      var m :| Saw(trace, ops, i, c, m, k - 1);
      assert Saw(trace, ops, i, c, m, k);
    }
  }

  /** `kalloc` fails only after it has found every list empty, each at some moment of that one call. */
  lemma FailedSawAll(trace: seq<Snap>, ops: seq<Op>, rs: seq<nat>, i: nat, k: nat, c: nat)
    requires History(trace, ops, rs) && k < |rs| && i < |trace[0].pc| && trace[0].pc[i].Idle?
    requires ops[k] == Go(i) && c < |trace[0].pc|
    requires i < |trace[k].pc| && i < |trace[k + 1].pc| && trace[k].pc[i].Searching? && trace[k + 1].pc[i].Idle?
    ensures rs[k] == 0 && exists m :: Saw(trace, ops, i, c, m, k)
  {
    hide Placed;
    SamePages(trace, ops, rs, k);
    assert Stepped(trace[k], ops[k], rs[k], trace[k + 1]);
    LookedAt(trace, ops, rs, i, k, trace[k].pc[i].j, c);
  }
}
