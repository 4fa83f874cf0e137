/** The per-CPU page allocator of lab8/kalloc.c, with half of a list stolen when a CPU runs dry.

    Each method is one critical section of a call, run with interrupts off, so a CPU is in at most
    one call; any interleaving of the CPUs is a sequence of calls.  Pages are numbers, 0 is the null
    pointer. */
module PerCpuPages {

  /** How far the call on a CPU has come: not in one, looking at list `j`, holding a stolen chain. */
  datatype Pc = Idle | Searching(j: nat) | Stolen(r: nat)

  /** Where a page is. */
  datatype Loc = OnList(cpu: nat) | InFlight(cpu: nat) | Out

  predicate Distinct(s: seq<nat>) { forall i, j :: 0 <= i < j < |s| ==> s[i] != s[j] }

  /** From `head` the links spell out `s`. */
  ghost predicate Chain(next: map<nat, nat>, head: nat, s: seq<nat>) {
    && head == (if s == [] then 0 else s[0])
    && (forall i :: 0 <= i < |s| ==> s[i] != 0 && s[i] in next)
    && (forall i, j :: 0 <= i && j == i + 1 && j < |s| ==> next[s[i]] == s[j])
    && (s != [] ==> next[s[|s| - 1]] == 0)
  }

  lemma ChainStep(next: map<nat, nat>, head: nat, s: seq<nat>, i: nat)
    requires Chain(next, head, s) && i < |s|
    ensures s[i] != 0 && s[i] in next && next[s[i]] == if i + 1 < |s| then s[i + 1] else 0
  {
  }

  lemma ChainTail(next: map<nat, nat>, head: nat, s: seq<nat>)
    requires Chain(next, head, s) && s != []
    ensures head in next && Chain(next, next[head], s[1..])
  {
    ChainStep(next, head, s, 0);
    var t := s[1..];
    forall i, j | 0 <= i && j == i + 1 && j < |t| ensures next[t[i]] == t[j] {
      ChainStep(next, head, s, i + 1);
    }
    ChainStep(next, head, s, |s| - 1);
  }

  /** Links of pages that are not on the chain do not matter. */
  lemma ChainApart(next: map<nat, nat>, next': map<nat, nat>, head: nat, s: seq<nat>)
    requires Chain(next, head, s) && forall p :: p in s ==> p in next' && next'[p] == next[p]
    ensures Chain(next', head, s)
  {
  }

  lemma ChainPush(next: map<nat, nat>, head: nat, s: seq<nat>, p: nat)
    requires Chain(next, head, s) && p != 0 && p !in s
    ensures Chain(next[p := head], p, [p] + s)
  {
    var t := [p] + s;
    forall i, j | 0 <= i && j == i + 1 && j < |t| ensures next[p := head][t[i]] == t[j] {
      if i > 0 { ChainStep(next, head, s, i - 1); }
    }
    if s != [] { ChainStep(next, head, s, |s| - 1); }
  }

  /** Length of the part the thief takes. */
  function Half(n: nat): nat { (n + 1) / 2 }

  /** The half in front has as many pages as the half behind, or one more. */
  lemma HalvesAreEven(s: seq<nat>)
    ensures Half(|s|) <= |s| && |s[Half(|s|)..]| <= |s[..Half(|s|)]| <= |s[Half(|s|)..]| + 1
  {
    assert |s[Half(|s|)..]| == |s| - Half(|s|);
  }

  lemma ChainCut(next: map<nat, nat>, head: nat, s: seq<nat>, h: nat)
    requires Chain(next, head, s) && Distinct(s) && 0 < h <= |s|
    ensures Chain(next[s[h - 1] := 0], head, s[..h])
    ensures Chain(next[s[h - 1] := 0], if h < |s| then s[h] else 0, s[h..])
  {
    var next' := next[s[h - 1] := 0];
    var a, b := s[..h], s[h..];
    forall i, j | 0 <= i && j == i + 1 && j < |a| ensures next'[a[i]] == a[j] {
      ChainStep(next, head, s, i);
    }
    forall i, j | 0 <= i && j == i + 1 && j < |b| ensures next'[b[i]] == b[j] {
      ChainStep(next, head, s, h + i);
    }
    if b != [] { ChainStep(next, head, s, |s| - 1); }
  }

  /** Every page of the lists and of the chains in flight is where `place` says, and nowhere else. */
  ghost predicate Placed(place: map<nat, Loc>, lists: seq<seq<nat>>, flights: seq<seq<nat>>) {
    && |lists| == |flights|
    && (forall c :: 0 <= c < |lists| ==> Distinct(lists[c]) && Distinct(flights[c]))
    && (forall c, k :: 0 <= c < |lists| && 0 <= k < |lists[c]| ==>
          lists[c][k] in place && place[lists[c][k]] == OnList(c))
    && (forall c, k :: 0 <= c < |flights| && 0 <= k < |flights[c]| ==>
          flights[c][k] in place && place[flights[c][k]] == InFlight(c))
    && (forall p :: p in place && place[p].OnList? ==> place[p].cpu < |lists| && p in lists[place[p].cpu])
    && (forall p :: p in place && place[p].InFlight? ==> place[p].cpu < |flights| && p in flights[place[p].cpu])
  }

  ghost predicate Chains(next: map<nat, nat>, heads: seq<nat>, lists: seq<seq<nat>>) {
    |heads| == |lists| && forall c :: 0 <= c < |lists| ==> Chain(next, heads[c], lists[c])
  }

  /** A CPU in the middle of a call has an empty list; one that stole holds the chain it took. */
  ghost predicate Calls(next: map<nat, nat>, pc: seq<Pc>, lists: seq<seq<nat>>, flights: seq<seq<nat>>) {
    && |pc| == |lists| == |flights|
    && (forall c :: 0 <= c < |pc| && !pc[c].Idle? ==> lists[c] == [])
    && (forall c :: 0 <= c < |pc| && !pc[c].Stolen? ==> flights[c] == [])
    && (forall c :: 0 <= c < |pc| && pc[c].Stolen? ==> flights[c] != [] && Chain(next, pc[c].r, flights[c]))
  }

  /** The links of pages outside every list and flight, or on those given, may change freely. */
  lemma OthersKeep(next: map<nat, nat>, next': map<nat, nat>, heads: seq<nat>, pc: seq<Pc>, place: map<nat, Loc>,
                   lists: seq<seq<nat>>, flights: seq<seq<nat>>, x: nat, c: nat)
    requires Placed(place, lists, flights) && Chains(next, heads, lists) && Calls(next, pc, lists, flights)
    requires c < |lists|
    requires forall p :: p in next && p != x ==> p in next' && next'[p] == next[p]
    requires x in place
    ensures place[x] != OnList(c) ==> Chain(next', heads[c], lists[c])
    ensures pc[c].Stolen? && place[x] != InFlight(c) ==> Chain(next', pc[c].r, flights[c])
  {
    if place[x] != OnList(c) { ChainApart(next, next', heads[c], lists[c]); }
    if pc[c].Stolen? && place[x] != InFlight(c) { ChainApart(next, next', pc[c].r, flights[c]); }
  }

  // ----- Where pages go ------------------------------------------------------------------------

  lemma PlacedTake(place: map<nat, Loc>, lists: seq<seq<nat>>, flights: seq<seq<nat>>, c: nat)
    requires Placed(place, lists, flights) && c < |lists| && lists[c] != []
    ensures lists[c][0] in place && place[lists[c][0]] == OnList(c)
    ensures Placed(place[lists[c][0] := Out], lists[c := lists[c][1..]], flights)
  {
    var r, tail := lists[c][0], lists[c][1..];
    forall p | p in lists[c] && p != r ensures p in tail {
      var k :| 0 <= k < |lists[c]| && lists[c][k] == p;
      assert tail[k - 1] == p;
    }
  }

  lemma PlacedPush(place: map<nat, Loc>, lists: seq<seq<nat>>, flights: seq<seq<nat>>, c: nat, p: nat)
    requires Placed(place, lists, flights) && c < |lists| && p in place && place[p].Out?
    ensures p !in lists[c] && Placed(place[p := OnList(c)], lists[c := [p] + lists[c]], flights)
  {
    var more := [p] + lists[c];
    assert more[0] == p;
    forall q | q in lists[c] ensures q in more {
      var k :| 0 <= k < |lists[c]| && lists[c][k] == q;
      assert more[k + 1] == q;
    }
  }

  function MoveAll(place: map<nat, Loc>, s: seq<nat>, l: Loc): map<nat, Loc> {
    map p | p in place :: if p in s then l else place[p]
  }

  lemma PlacedSteal(place: map<nat, Loc>, lists: seq<seq<nat>>, flights: seq<seq<nat>>, i: nat, j: nat, h: nat)
    requires Placed(place, lists, flights) && i < |lists| && j < |lists| && h <= |lists[j]| && flights[i] == []
    ensures var s := lists[j];
      Placed(MoveAll(place, s[..h], InFlight(i)), lists[j := s[h..]], flights[i := s[..h]])
  {
    var s := lists[j];
    var a, b := s[..h], s[h..];
    var place', lists', flights' := MoveAll(place, a, InFlight(i)), lists[j := b], flights[i := a];
    SplitWhere(s, h);
    assert forall p :: p in place' <==> p in place;
    forall c, k | 0 <= c < |lists'| && 0 <= k < |lists'[c]|
      ensures lists'[c][k] in place' && place'[lists'[c][k]] == OnList(c)
    {
      assert c == j ==> lists'[c][k] == s[h + k];
      assert c != j ==> lists'[c][k] == lists[c][k];
    }
    forall p | p in place' && place'[p].OnList? ensures place'[p].cpu < |lists'| && p in lists'[place'[p].cpu] {
      assert place'[p] == place[p];
    }
  }

  lemma SplitWhere(s: seq<nat>, h: nat)
    requires h <= |s| && Distinct(s)
    ensures Distinct(s[..h]) && Distinct(s[h..])
    ensures forall p :: p in s <==> p in s[..h] || p in s[h..]
    ensures forall k :: h <= k < |s| ==> s[k] !in s[..h]
  {
    forall p | p in s ensures p in s[..h] || p in s[h..] {
      var k :| 0 <= k < |s| && s[k] == p;
      assert if k < h then s[..h][k] == p else s[h..][k - h] == p;
    }
  }

  lemma PlacedInstall(place: map<nat, Loc>, lists: seq<seq<nat>>, flights: seq<seq<nat>>, i: nat)
    requires Placed(place, lists, flights) && i < |lists| && lists[i] == [] && flights[i] != []
    ensures var s := flights[i];
      s[0] in place && place[s[0]] == InFlight(i)
      && Placed(MoveAll(place, s, OnList(i))[s[0] := Out], lists[i := s[1..]], flights[i := []])
  {
    var s := flights[i];
    var tail := s[1..];
    forall p | p in s && p != s[0] ensures p in tail {
      var k :| 0 <= k < |s| && s[k] == p;
      assert tail[k - 1] == p;
    }
  }

  // ----- Links ---------------------------------------------------------------------------------

  lemma HeadIs(next: map<nat, nat>, heads: seq<nat>, lists: seq<seq<nat>>, c: nat)
    requires Chains(next, heads, lists) && c < |lists|
    ensures heads[c] == 0 <==> lists[c] == []
  {
    if lists[c] != [] { ChainStep(next, heads[c], lists[c], 0); }
  }

  lemma ListFacts(next: map<nat, nat>, heads: seq<nat>, pc: seq<Pc>, place: map<nat, Loc>, lists: seq<seq<nat>>,
                  flights: seq<seq<nat>>, i: nat, j: nat)
    requires Placed(place, lists, flights) && Chains(next, heads, lists) && Calls(next, pc, lists, flights)
    requires i < |pc| && j < |pc| && pc[i].Searching?
    ensures |heads| == |lists| == |flights| == |pc|
    ensures Chain(next, heads[j], lists[j]) && Distinct(lists[j]) && flights[i] == [] && lists[i] == []
    ensures lists[j] != [] ==> heads[j] == lists[j][0]
  {
  }

  lemma PushChains(next: map<nat, nat>, heads: seq<nat>, pc: seq<Pc>, place: map<nat, Loc>, lists: seq<seq<nat>>,
                   flights: seq<seq<nat>>, i: nat, pa: nat)
    requires Placed(place, lists, flights) && Chains(next, heads, lists) && Calls(next, pc, lists, flights)
    requires i < |pc| && pc[i].Idle? && pa != 0 && pa in place && place[pa].Out?
    ensures var next' := next[pa := heads[i]];
      Chains(next', heads[i := pa], lists[i := [pa] + lists[i]])
      && Calls(next', pc, lists[i := [pa] + lists[i]], flights)
  {
    var next' := next[pa := heads[i]];
    PlacedPush(place, lists, flights, i, pa);
    ChainPush(next, heads[i], lists[i], pa);
    forall c | 0 <= c < |lists|
      ensures Chain(next', heads[c], lists[c]) && (pc[c].Stolen? ==> Chain(next', pc[c].r, flights[c]))
    {
      OthersKeep(next, next', heads, pc, place, lists, flights, pa, c);
    }
    hide Placed, Chain;
  }

  lemma TakeChains(next: map<nat, nat>, heads: seq<nat>, pc: seq<Pc>, place: map<nat, Loc>, lists: seq<seq<nat>>,
                   flights: seq<seq<nat>>, i: nat)
    requires Placed(place, lists, flights) && Chains(next, heads, lists) && Calls(next, pc, lists, flights)
    requires i < |pc| && pc[i].Idle? && lists[i] != []
    ensures heads[i] in next && heads[i] == lists[i][0]
    ensures Chains(next, heads[i := next[heads[i]]], lists[i := lists[i][1..]])
    ensures Calls(next, pc, lists[i := lists[i][1..]], flights)
  {
    ChainTail(next, heads[i], lists[i]);
  }

  lemma StealChains(next: map<nat, nat>, next': map<nat, nat>, heads: seq<nat>, pc: seq<Pc>, place: map<nat, Loc>,
                    lists: seq<seq<nat>>, flights: seq<seq<nat>>, i: nat, j: nat, rest: nat)
    requires Placed(place, lists, flights) && Chains(next, heads, lists) && Calls(next, pc, lists, flights)
    requires i < |pc| && j < |pc| && i != j && pc[i].Searching? && lists[j] != []
    requires var s, h := lists[j], Half(|lists[j]|);
      0 < h <= |s| && next' == next[s[h - 1] := 0] && Chain(next', heads[j], s[..h]) && Chain(next', rest, s[h..])
    ensures var s, h := lists[j], Half(|lists[j]|);
      Chains(next', heads[j := rest], lists[j := s[h..]])
      && Calls(next', pc[i := Stolen(heads[j])], lists[j := s[h..]], flights[i := s[..h]])
  {
    var s, h := lists[j], Half(|lists[j]|);
    forall c | 0 <= c < |lists|
      ensures c != j ==> Chain(next', heads[c], lists[c])
      ensures pc[c].Stolen? ==> Chain(next', pc[c].r, flights[c])
    {
      OthersKeep(next, next', heads, pc, place, lists, flights, s[h - 1], c);
    }
    hide Placed, Chain;
  }

  lemma InstallChains(next: map<nat, nat>, heads: seq<nat>, pc: seq<Pc>, place: map<nat, Loc>, lists: seq<seq<nat>>,
                      flights: seq<seq<nat>>, i: nat)
    requires Placed(place, lists, flights) && Chains(next, heads, lists) && Calls(next, pc, lists, flights)
    requires i < |pc| && pc[i].Stolen?
    ensures pc[i].r in next && pc[i].r == flights[i][0]
    ensures Chains(next, heads[i := next[pc[i].r]], lists[i := flights[i][1..]])
    ensures Calls(next, pc[i := Idle], lists[i := flights[i][1..]], flights[i := []])
  {
    ChainTail(next, pc[i].r, flights[i]);
  }

  /** Up to page `pa`, a chain is read the same after the link of `pa` was changed. */
  lemma {:induction false} SamePrefix(next: map<nat, nat>, next': map<nat, nat>, head: nat, s: seq<nat>, s': seq<nat>,
                                      pa: nat, k: nat, m: nat)
    requires Chain(next, head, s) && Chain(next', head, s') && Distinct(s) && m <= k < |s| && s[k] == pa
    requires forall p :: p in next && p != pa ==> p in next' && next'[p] == next[p]
    ensures m < |s'| && s'[m] == s[m]
  {
    if m > 0 {
      SamePrefix(next, next', head, s, s', pa, k, m - 1);
      ChainStep(next, head, s, m - 1);
      ChainStep(next', head, s', m - 1);
    }
  }

  /** There are no lists and stolen chains that these links spell out, each page once. */
  ghost predicate Broken(next: map<nat, nat>, heads: seq<nat>, pc: seq<Pc>) {
    forall place, lists, flights :: Chains(next, heads, lists) && Calls(next, pc, lists, flights) ==>
      !Placed(place, lists, flights)
  }

  /** Page `pa` heads list `i` and is in another place too. */
  ghost predicate Twice(lists: seq<seq<nat>>, flights: seq<seq<nat>>, i: nat, pa: nat) {
    && i < |lists| == |flights| && lists[i] != [] && lists[i][0] == pa
    && (|| (exists k :: 0 < k < |lists[i]| && lists[i][k] == pa)
        || (exists j, k :: 0 <= j < |lists| && j != i && 0 <= k < |lists[j]| && lists[j][k] == pa)
        || (exists j, k :: 0 <= j < |flights| && 0 <= k < |flights[j]| && flights[j][k] == pa))
  }

  lemma TwiceIsMisplaced(place: map<nat, Loc>, lists: seq<seq<nat>>, flights: seq<seq<nat>>, i: nat, pa: nat)
    requires Twice(lists, flights, i, pa)
    ensures !Placed(place, lists, flights)
  {
  }

  /** Freeing a page that is not handed out puts it on two lists, on a list and in a stolen chain, or on a cycle. */
  lemma DoubleFree(next: map<nat, nat>, heads: seq<nat>, pc: seq<Pc>, place: map<nat, Loc>, lists: seq<seq<nat>>,
                   flights: seq<seq<nat>>, i: nat, pa: nat)
    requires Placed(place, lists, flights) && Chains(next, heads, lists) && Calls(next, pc, lists, flights)
    requires i < |pc| && pa != 0 && pa in place && !place[pa].Out?
    ensures Broken(next[pa := heads[i]], heads[i := pa], pc)
  {
    var next', heads' := next[pa := heads[i]], heads[i := pa];
    forall place', lists', flights' | Chains(next', heads', lists') && Calls(next', pc, lists', flights')
      ensures !Placed(place', lists', flights')
    {
      TwoPlaces(next, heads, pc, place, lists, flights, i, pa, lists', flights');
      TwiceIsMisplaced(place', lists', flights', i, pa);
    }
  }

  lemma TwoPlaces(next: map<nat, nat>, heads: seq<nat>, pc: seq<Pc>, place: map<nat, Loc>, lists: seq<seq<nat>>,
                  flights: seq<seq<nat>>, i: nat, pa: nat, lists': seq<seq<nat>>, flights': seq<seq<nat>>)
    requires Placed(place, lists, flights) && Chains(next, heads, lists) && Calls(next, pc, lists, flights)
    requires i < |pc| && pa != 0 && pa in place && !place[pa].Out?
    requires Chains(next[pa := heads[i]], heads[i := pa], lists')
    requires Calls(next[pa := heads[i]], pc, lists', flights')
    ensures Twice(lists', flights', i, pa)
  {
    var next' := next[pa := heads[i]];
    assert Chain(next', pa, lists'[i]) && lists'[i][0] == pa;
    match place[pa]
    case OnList(j) =>
      var k: nat :| k < |lists[j]| && lists[j][k] == pa;
      if j == i {
        ChainTail(next', pa, lists'[i]);
        SamePrefix(next, next', heads[i], lists[i], lists'[i][1..], pa, k, k);
        assert lists'[i][k + 1] == pa;
      } else {
        SamePrefix(next, next', heads[j], lists[j], lists'[j], pa, k, k);
      }
    case InFlight(c) =>
      var k: nat :| k < |flights[c]| && flights[c][k] == pa;
      SamePrefix(next, next', pc[c].r, flights[c], flights'[c], pa, k, k);
  }

  /** A page is on one list, in one stolen chain, or handed out; and once where it is. */
  lemma EachPageOnce(place: map<nat, Loc>, lists: seq<seq<nat>>, flights: seq<seq<nat>>, p: nat, c: nat)
    requires Placed(place, lists, flights) && p in place && c < |lists|
    ensures p in lists[c] <==> place[p] == OnList(c)
    ensures p in flights[c] <==> place[p] == InFlight(c)
    ensures forall j, k :: 0 <= j < |lists[c]| && 0 <= k < |lists[c]| && lists[c][j] == p == lists[c][k] ==> j == k
  {
    if p in lists[c] {
      var k :| 0 <= k < |lists[c]| && lists[c][k] == p;
    }
    if p in flights[c] {
      var k :| 0 <= k < |flights[c]| && flights[c][k] == p;
    }
  }

  // ----- The allocator -------------------------------------------------------------------------

  class Kmems {
    /** `next` of every page, `freelist` of every CPU. */
    var next: map<nat, nat>
    var heads: seq<nat>
    var pc: seq<Pc>
    ghost var place: map<nat, Loc>
    ghost var lists: seq<seq<nat>>
    ghost var flights: seq<seq<nat>>

    ghost predicate Valid()
      reads this
    {
      Placed(place, lists, flights) && Chains(next, heads, lists) && Calls(next, pc, lists, flights)
    }

    /** The two-pointer walk (kalloc.c:74-85): the list is cut into halves that differ by at most one page. */
    method KSteal(head: nat, ghost s: seq<nat>) returns (rest: nat)
      requires Chain(next, head, s) && Distinct(s) && s != []
      modifies this`next
      ensures var h := Half(|s|);
        0 < h <= |s| && 0 <= h - (|s| - h) <= 1
        && Chain(next, head, s[..h]) && Chain(next, rest, s[h..])
        && next == old(next)[s[h - 1] := 0]
    {
      ChainStep(next, head, s, 0);
      var slow, fast := head, next[head];
      ghost var i: nat := 0;
      while fast != 0 && next[fast] != 0
        invariant 2 * i + 1 <= |s| && i < |s| && slow == s[i] && next == old(next)
        invariant fast == if 2 * i + 1 < |s| then s[2 * i + 1] else 0
        invariant fast != 0 ==>
            fast in next && 2 * i + 1 < |s| && next[fast] == if 2 * i + 2 < |s| then s[2 * i + 2] else 0
        decreases |s| - i
      {
        ChainStep(next, head, s, i);
        ChainStep(next, head, s, 2 * i + 1);
        ChainStep(next, head, s, 2 * i + 2);
        slow := next[slow];
        fast := next[next[fast]];
        i := i + 1;
        if fast != 0 { ChainStep(next, head, s, 2 * i + 1); }
      }
      assert i + 1 == Half(|s|);
      ChainStep(next, head, s, i);
      ChainCut(next, head, s, i + 1);
      fast := next[slow];
      next := next[slow := 0];
      return fast;
    }

    constructor (cpus: nat, pages: set<nat>)
      requires 0 !in pages
      ensures Valid() && |heads| == |pc| == cpus && place == map p | p in pages :: Out
      ensures forall c :: 0 <= c < cpus ==> pc[c].Idle?
    {
      next, heads, pc := map[], seq(cpus, i => 0), seq(cpus, i => Idle);
      place, lists, flights := map p | p in pages :: Out, seq(cpus, i => []), seq(cpus, i => []);
    }

    /** `kfree` on CPU `i` (kalloc.c:64-71): what it does to a page that is not handed out, which it does not
        notice, no state of the allocator describes. */
    method KFree(i: nat, pa: nat)
      requires Valid() && i < |pc| && pc[i].Idle? && pa != 0 && pa in place
      modifies this
      ensures pc == old(pc) && flights == old(flights)
      ensures place == old(place)[pa := OnList(i)] && lists == old(lists)[i := [pa] + old(lists)[i]]
      ensures if old(place)[pa].Out? then Valid() else Broken(next, heads, pc)
    {
      if place[pa].Out? {
        PlacedPush(place, lists, flights, i, pa);
        PushChains(next, heads, pc, place, lists, flights, i, pa);
      } else {
        DoubleFree(next, heads, pc, place, lists, flights, i, pa);
      }
      assert |heads| == |lists| == |pc|;
      hide Placed, Chains, Calls, Chain;
      next := next[pa := heads[i]];
      heads := heads[i := pa];
      place, lists := place[pa := OnList(i)], lists[i := [pa] + lists[i]];
    }

    /** The first critical section of `kalloc` (kalloc.c:99-103); 0 when the list was empty. */
    method TakeLocal(i: nat) returns (r: nat)
      requires Valid() && i < |pc| && pc[i].Idle?
      modifies this
      ensures Valid() && flights == old(flights)
      ensures r == 0 <==> old(lists)[i] == []
      ensures r == 0 ==> place == old(place) && lists == old(lists) && pc == old(pc)[i := Searching(0)]
      ensures r != 0 ==> pc == old(pc) && r == old(lists)[i][0] && r in old(place) && old(place)[r] == OnList(i)
      ensures r != 0 ==> place == old(place)[r := Out] && lists == old(lists)[i := old(lists)[i][1..]]
    {
      HeadIs(next, heads, lists, i);
      r := heads[i];
      if r != 0 {
        PlacedTake(place, lists, flights, i);
        TakeChains(next, heads, pc, place, lists, flights, i);
        hide Placed, Chains, Calls, Chain;
        heads := heads[i := next[r]];
        place, lists := place[r := Out], lists[i := lists[i][1..]];
      } else {
        pc := pc[i := Searching(0)];
      }
    }

    /** One round of the loop over the other CPUs (kalloc.c:106-114); the call fails after the last. */
    method Steal(i: nat)
      requires Valid() && i < |pc| && pc[i].Searching?
      modifies this
      ensures Valid()
      ensures var j := old(pc)[i].j;
        if j >= |old(pc)| then pc == old(pc)[i := Idle] && lists == old(lists)
          && flights == old(flights) && place == old(place)
        else if j == i || old(lists)[j] == [] then
          pc == old(pc)[i := Searching(j + 1)] && lists == old(lists) && flights == old(flights) && place == old(place)
        else
          var s, h := old(lists)[j], Half(|old(lists)[j]|);
          0 < h <= |s| && pc == old(pc)[i := Stolen(s[0])] && lists == old(lists)[j := s[h..]]
          && flights == old(flights)[i := s[..h]]
          && place == MoveAll(old(place), s[..h], InFlight(i))
    {
      var j := pc[i].j;
      if j >= |pc| {
        pc := pc[i := Idle];
        return;
      }
      if j == i {
        pc := pc[i := Searching(j + 1)];
        return;
      }
      HeadIs(next, heads, lists, j);
      if heads[j] == 0 {
        pc := pc[i := Searching(j + 1)];
        return;
      }
      TakeHalf(i, j);
    }

    /** The list of CPU `j` is not empty: its front half goes into flight, and its first page is kept. */
    method TakeHalf(i: nat, j: nat)
      requires Valid() && i < |pc| && j < |pc| && j != i && pc[i] == Searching(j) && heads[j] != 0 && lists[j] != []
      modifies this
      ensures Valid()
      ensures var s, h := old(lists)[j], Half(|old(lists)[j]|);
        0 < h <= |s| && pc == old(pc)[i := Stolen(s[0])] && lists == old(lists)[j := s[h..]]
        && flights == old(flights)[i := s[..h]]
        && place == MoveAll(old(place), s[..h], InFlight(i))
    {
      HeadIs(next, heads, lists, j);
      var r := heads[j];
      ghost var s, was := lists[j], next;
      ListFacts(next, heads, pc, place, lists, flights, i, j);
      hide Placed, Chains, Calls, Chain, Distinct;
      var rest := KSteal(r, s);
      PlacedSteal(place, lists, flights, i, j, Half(|s|));
      StealChains(was, next, heads, pc, place, lists, flights, i, j, rest);
      heads := heads[j := rest];
      pc := pc[i := Stolen(r)];
      place := MoveAll(place, s[..Half(|s|)], InFlight(i));
      lists, flights := lists[j := s[Half(|s|)..]], flights[i := s[..Half(|s|)]];
    }

    /** The last critical section (kalloc.c:115-119): the rest of the chain becomes the list of CPU `i`.
        That list is empty, so the overwrite loses nothing. */
    method Install(i: nat) returns (r: nat)
      requires Valid() && i < |pc| && pc[i].Stolen?
      modifies this
      ensures Valid() && old(lists)[i] == [] && old(flights)[i] != [] && r == old(flights)[i][0]
      ensures lists == old(lists)[i := old(flights)[i][1..]] && flights == old(flights)[i := []]
      ensures pc == old(pc)[i := Idle]
      ensures place == MoveAll(old(place), old(flights)[i], OnList(i))[r := Out]
    {
      r := pc[i].r;
      PlacedInstall(place, lists, flights, i);
      InstallChains(next, heads, pc, place, lists, flights, i);
      hide Placed, Chains, Calls, Chain;
      heads := heads[i := next[r]];
      pc := pc[i := Idle];
      place := MoveAll(place, flights[i], OnList(i))[r := Out];
      lists, flights := lists[i := flights[i][1..]], flights[i := []];
    }
  }
}
