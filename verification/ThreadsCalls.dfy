/** What wait, join, exit, fork, clone and kill of lab6/kernel/proc.c come to, said of the process table
    alone: when a scan of wait or join may give up, and what each call leaves behind. */
module ThreadsCalls {

  import opened Threads
  import opened ThreadsProof
  import opened ThreadsSafety

  // ----- The children a scan is about ----------------------------------------------------------

  /** A child of `p` of the kind asked for: threads for join, processes for wait. */
  predicate Mine(c: Proc, p: nat, threads: bool) { c.parent == p && c.isthread == threads }

  ghost predicate HasChild(procs: seq<Proc>, p: nat, threads: bool, below: nat) {
    exists c: nat :: c < below && c < |procs| && Mine(procs[c], p, threads)
  }

  ghost predicate NoZombie(procs: seq<Proc>, p: nat, threads: bool, below: nat) {
    forall c: nat :: c < below && c < |procs| && Mine(procs[c], p, threads) ==> !procs[c].state.ZOMBIE?
  }

  predicate ZombieChild(procs: seq<Proc>, p: nat, threads: bool, c: nat) {
    c < |procs| && Mine(procs[c], p, threads) && procs[c].state.ZOMBIE?
  }

  /** A scan has noted a child exactly if it has passed one. */
  ghost predicate HaveOk(s: State, p: nat)
    requires p < |s.procs|
  {
    s.procs[p].pc.Scan? ==>
      (s.procs[p].pc.have <==> HasChild(s.procs, p, s.procs[p].pc.threads, s.procs[p].pc.i))
  }

  lemma StepSize(s: State, e: Event)
    ensures |Step(s, e).procs| == |s.procs|
  {
  }

  /** Where a scan comes from. */
  lemma ScanFrom(s: State, e: Event, p: nat)
    requires Inv(s) && p < |s.procs| && p < |Step(s, e).procs| && Step(s, e).procs[p].pc.Scan?
    ensures var pc, pc' := s.procs[p].pc, Step(s, e).procs[p].pc;
      if pc.Scan? then
        || pc' == pc
        || (e == Run(p) && pc.i < |s.procs| && pc'.threads == pc.threads && pc'.i == pc.i + 1
            && pc'.have == (pc.have || Mine(s.procs[pc.i], p, pc.threads)))
      else pc'.i == 0 && !pc'.have
  {
    hide Inv, WakeUp;
    if e.p == p {
      OwnScan(s, e, p);
    } else {
      OtherPc(s, e, p);
    }
  }

  lemma OwnScan(s: State, e: Event, p: nat)
    requires p < |s.procs| && p < |Step(s, e).procs| && e.p == p && Step(s, e).procs[p].pc.Scan?
    ensures var pc, pc' := s.procs[p].pc, Step(s, e).procs[p].pc;
      if pc.Scan? then
        || pc' == pc
        || (e == Run(p) && pc.i < |s.procs| && pc'.threads == pc.threads && pc'.i == pc.i + 1
            && pc'.have == (pc.have || Mine(s.procs[pc.i], p, pc.threads)))
      else pc'.i == 0 && !pc'.have
  {
    hide WakeUp, RunStep;
    OwnRun(s, p);
  }

  lemma OwnRun(s: State, p: nat)
    requires p < |s.procs|
    ensures p < |RunStep(s, p).procs|
    ensures var pc, pc' := s.procs[p].pc, RunStep(s, p).procs[p].pc;
      pc'.Scan? ==>
        if pc.Scan? then
          && pc.i < |s.procs| && pc'.threads == pc.threads && pc'.i == pc.i + 1
          && pc'.have == (pc.have || Mine(s.procs[pc.i], p, pc.threads))
        else pc'.i == 0 && !pc'.have
  {
    hide WakeUp;
    match s.procs[p].pc
    case ReparentWake(_) => WakeKeeps(s.procs, p, INIT);
    case ExitWake => WakeKeeps(s.procs, p, s.procs[p].parent);
    case _ =>
  }

  lemma WakeKeeps(procs: seq<Proc>, me: nat, q: int)
    ensures |WakeUp(procs, me, q)| == |procs|
    ensures forall i :: 0 <= i < |procs| ==>
      WakeUp(procs, me, q)[i] == procs[i] || WakeUp(procs, me, q)[i] == WakeOne(procs[i])
    ensures me < |procs| ==> WakeUp(procs, me, q)[me] == procs[me]
  {
  }

  /** Nobody else moves a process on; its slot may be freed. */
  lemma OtherPc(s: State, e: Event, p: nat)
    requires p < |s.procs| && e.p != p
    ensures p < |Step(s, e).procs| && (Step(s, e).procs[p].pc == s.procs[p].pc || Step(s, e).procs[p].pc == User)
  {
    hide WakeUp, RunStep;
    if e.p < |s.procs| { OtherRun(s, e.p, p); }
  }

  lemma OtherRun(s: State, q: nat, p: nat)
    requires p < |s.procs| && q < |s.procs| && q != p
    ensures p < |RunStep(s, q).procs|
    ensures RunStep(s, q).procs[p].pc == s.procs[p].pc || RunStep(s, q).procs[p].pc == User
  {
    hide WakeUp;
    match s.procs[q].pc
    case ReparentWake(_) => WakeKeeps(s.procs, q, INIT);
    case ExitWake => WakeKeeps(s.procs, q, s.procs[q].parent);
    case _ =>
  }

  /** While `p` scans, nobody but `p` can give it a child or take one away. */
  lemma ChildrenStay(s: State, e: Event, p: nat, threads: bool, c: nat)
    requires Inv(s) && p < |s.procs| && c < |s.procs| && s.procs[p].pc.Scan?
    requires c < |Step(s, e).procs| && p < |Step(s, e).procs| && Step(s, e).procs[p].pc.Scan?
    ensures Mine(Step(s, e).procs[c], p, threads) <==> Mine(s.procs[c], p, threads)
  {
    hide Inv, WakeUp;
    Facts(s, p);
    if e.p != p && e.p < |s.procs| {
      Facts(s, c);
      Facts(s, e.p);
      OthersKeep(s, e, p, threads, c);
    }
  }

  lemma OthersKeep(s: State, e: Event, p: nat, threads: bool, c: nat)
    requires p < |s.procs| && c < |s.procs| && e.p < |s.procs| && e.p != p && !Holding(s.procs[e.p].pc)
    requires s.procs[c].state.UNUSED? ==> s.procs[c].parent == -1
    requires MakingAt(s.procs, e.p)
    ensures c < |Step(s, e).procs| && (Mine(Step(s, e).procs[c], p, threads) <==> Mine(s.procs[c], p, threads))
  {
    hide WakeUp, RunStep, FailStep;
    RunOfOther(s, e.p, p, threads, c);
    FailOfOther(s, e.p, p, threads, c);
  }

  lemma FailOfOther(s: State, q: nat, p: nat, threads: bool, c: nat)
    requires p < |s.procs| && c < |s.procs| && q < |s.procs| && q != p && !Holding(s.procs[q].pc)
    requires MakingAt(s.procs, q)
    ensures c < |FailStep(s, q).procs| && (Mine(FailStep(s, q).procs[c], p, threads) <==> Mine(s.procs[c], p, threads))
  {
  }

  lemma RunOfOther(s: State, q: nat, p: nat, threads: bool, c: nat)
    requires p < |s.procs| && c < |s.procs| && q < |s.procs| && q != p && !Holding(s.procs[q].pc)
    requires MakingAt(s.procs, q)
    ensures c < |RunStep(s, q).procs| && (Mine(RunStep(s, q).procs[c], p, threads) <==> Mine(s.procs[c], p, threads))
  {
    hide WakeUp;
  }

  lemma StepKeepsHave(s: State, e: Event, p: nat)
    requires Inv(s) && p < |s.procs| && HaveOk(s, p)
    ensures p < |Step(s, e).procs| && HaveOk(Step(s, e), p)
  {
    hide Inv, Step;
    StepSize(s, e);
    var s' := Step(s, e);
    if s'.procs[p].pc.Scan? {
      ScanFrom(s, e, p);
      if s.procs[p].pc.Scan? {
        forall c: nat | c < |s.procs|
          ensures Mine(s'.procs[c], p, s.procs[p].pc.threads) <==> Mine(s.procs[c], p, s.procs[p].pc.threads)
        {
          ChildrenStay(s, e, p, s.procs[p].pc.threads, c);
        }
        HaveNext(s.procs, s'.procs, p, s.procs[p].pc.threads, s.procs[p].pc.i);
      }
    }
  }

  lemma HaveNext(procs: seq<Proc>, procs': seq<Proc>, p: nat, threads: bool, i: nat)
    requires |procs| == |procs'|
    requires forall c: nat :: c < |procs| ==> (Mine(procs'[c], p, threads) <==> Mine(procs[c], p, threads))
    ensures HasChild(procs', p, threads, i) <==> HasChild(procs, p, threads, i)
    ensures i < |procs| ==> (HasChild(procs', p, threads, i + 1) <==>
                             HasChild(procs, p, threads, i) || Mine(procs[i], p, threads))
  {
    if i < |procs| && Mine(procs[i], p, threads) { assert Mine(procs'[i], p, threads); }
    if HasChild(procs, p, threads, i) {
      var c: nat :| c < i && c < |procs| && Mine(procs[c], p, threads);
      assert Mine(procs'[c], p, threads);
    }
  }

  lemma {:induction false} RunKeepsHave(n: nat, es: seq<Event>, p: nat)
    requires n > 0 && p < |After(Boot(n), es).procs|
    ensures HaveOk(After(Boot(n), es), p)
    decreases |es|
  {
    hide Inv, Step;
    if es != [] {
      var s := After(Boot(n), es[..|es| - 1]);
      RunKeepsInv(n, es[..|es| - 1]);
      StepSize(s, es[|es| - 1]);
      RunKeepsHave(n, es[..|es| - 1], p);
      StepKeepsHave(s, es[|es| - 1], p);
    }
  }

  // ----- When wait and join give up ------------------------------------------------------------

  /** Process `p` ends its scan by freeing its first ZOMBIE child of the kind. */
  ghost predicate Frees(s: State, s': State, p: nat, threads: bool, c: nat) {
    && p < |s.procs| && ZombieChild(s.procs, p, threads, c) && NoZombie(s.procs, p, threads, c)
    && s' == Goto(FreeProc(s, c), p, User).(lock := -1)
  }

  /** What is left of a slot that was freed: nobody's, not killed, without id or page table; the page table of a process
      is gone with it, that of a thread stays. */
  lemma FreedIsBlank(s: State, c: nat)
    requires c < |s.procs|
    ensures var t := FreeProc(s, c);
      && t == s.(procs := s.procs[c := Proc(UNUSED, Nothing, false, -1, false, 0, 0, User)], spaces := t.spaces)
      && (s.procs[c].isthread || s.procs[c].space == 0 ==> t.spaces == s.spaces)
      && (!s.procs[c].isthread && s.procs[c].space != 0 ==> t.spaces == s.spaces - {s.procs[c].space})
  {
  }

  ghost predicate GivesUp(s: State, s': State, p: nat) {
    p < |s.procs| && s' == Goto(s, p, User).(lock := -1)
  }

  /** How the scan of wait or join ends, in any run.  Whatever step takes `p` out of it is its own, made under
      `wait_lock`, and it either frees the first ZOMBIE child of the kind asked for; or fails to copy out what
      that child left; or gives up with no ZOMBIE child there, because `p` was killed or has no child
      of the kind in any slot; or goes to sleep over a remaining child, none of them a ZOMBIE. */
  lemma ScanEnds(n: nat, es: seq<Event>, e: Event, p: nat)
    requires n > 0 && p < |After(Boot(n), es).procs| && p < |Step(After(Boot(n), es), e).procs|
    requires After(Boot(n), es).procs[p].pc.Scan? && !Step(After(Boot(n), es), e).procs[p].pc.Scan?
    ensures var s, s' := After(Boot(n), es), Step(After(Boot(n), es), e);
      var threads, all := s.procs[p].pc.threads, |s.procs|;
      && s.lock == p && s.procs[p].state.RUNNING?
      && (|| (e == Run(p) && exists c: nat :: Frees(s, s', p, threads, c))
          || (e == Fail(p) && GivesUp(s, s', p) && !NoZombie(s.procs, p, threads, all))
          || (e == Run(p) && GivesUp(s, s', p) && NoZombie(s.procs, p, threads, all)
              && (s.procs[p].killed || !HasChild(s.procs, p, threads, all)))
          || (e == Run(p) && s' == Goto(s, p, Doze(threads)) && NoZombie(s.procs, p, threads, all)
              && !s.procs[p].killed && HasChild(s.procs, p, threads, all)))
  {
    hide Inv, Step;
    var s := After(Boot(n), es);
    RunKeepsInv(n, es);
    RunKeepsHave(n, es, p);
    ScanSaw(s, p);
    LeavesByItself(s, e, p);
    EndOfScan(s, e, p);
  }

  lemma LeavesByItself(s: State, e: Event, p: nat)
    requires Inv(s) && p < |s.procs| && p < |Step(s, e).procs|
    requires s.procs[p].pc.Scan? && !Step(s, e).procs[p].pc.Scan?
    ensures (e == Run(p) || e == Fail(p)) && s.lock == p && s.procs[p].state.RUNNING?
  {
    hide Locals, Children, Makings, SpacesOk, Awaited;
    Facts(s, p);
    if e.p < |s.procs| { Facts(s, e.p); }
  }

  lemma ScanSaw(s: State, p: nat)
    requires Inv(s) && p < |s.procs| && s.procs[p].pc.Scan?
    ensures NoZombie(s.procs, p, s.procs[p].pc.threads, s.procs[p].pc.i)
  {
    hide Locals, Children, Makings, SpacesOk, Awaited;
    Facts(s, p);
  }

  lemma EndOfScan(s: State, e: Event, p: nat)
    requires p < |s.procs| && s.procs[p].pc.Scan? && !Step(s, e).procs[p].pc.Scan? && HaveOk(s, p)
    requires (e == Run(p) || e == Fail(p)) && s.lock == p && s.procs[p].state.RUNNING?
    requires NoZombie(s.procs, p, s.procs[p].pc.threads, s.procs[p].pc.i)
    ensures var s', threads, all := Step(s, e), s.procs[p].pc.threads, |s.procs|;
      || (e == Run(p) && exists c: nat :: Frees(s, s', p, threads, c))
      || (e == Fail(p) && GivesUp(s, s', p) && !NoZombie(s.procs, p, threads, all))
      || (e == Run(p) && GivesUp(s, s', p) && NoZombie(s.procs, p, threads, all)
          && (s.procs[p].killed || !HasChild(s.procs, p, threads, all)))
      || (e == Run(p) && s' == Goto(s, p, Doze(threads)) && NoZombie(s.procs, p, threads, all)
          && !s.procs[p].killed && HasChild(s.procs, p, threads, all))
  {
    var Scan(threads, i, have) := s.procs[p].pc;
    if e == Run(p) && i < |s.procs| && ZombieChild(s.procs, p, threads, i) {
      assert Frees(s, Step(s, e), p, threads, i);
    }
  }

  /** From one state of a scan to any later one of it, with whatever others do between, the children stay. */
  lemma {:induction false} ScanKeepsChildren(n: nat, es: seq<Event>, more: seq<Event>, p: nat, threads: bool, c: nat)
    requires n > 0 && p < n && c < n
    requires forall k :: 0 <= k <= |more| ==>
        p < |After(Boot(n), es + more[..k]).procs| && After(Boot(n), es + more[..k]).procs[p].pc.Scan?
    ensures c < |After(Boot(n), es).procs| && c < |After(Boot(n), es + more).procs|
    ensures Mine(After(Boot(n), es + more).procs[c], p, threads) <==> Mine(After(Boot(n), es).procs[c], p, threads)
    decreases |more|
  {
    hide Inv, Step, Mine;
    AfterSize(n, es);
    assert es + [] == es;
    if more == [] {
      assert es + more == es;
    } else {
      var k := |more| - 1;
      var before := es + more[..k];
      forall m | 0 <= m <= k
        ensures p < |After(Boot(n), es + more[..k][..m]).procs| && After(Boot(n), es + more[..k][..m]).procs[p].pc.Scan?
      {
        assert more[..k][..m] == more[..m];
      }
      ScanKeepsChildren(n, es, more[..k], p, threads, c);
      assert (es + more)[..|es + more| - 1] == before && more[..|more|] == more;
      assert After(Boot(n), es + more) == Step(After(Boot(n), before), more[k]);
      RunKeepsInv(n, before);
      AfterSize(n, es + more);
      ChildrenStay(After(Boot(n), before), more[k], p, threads, c);
    }
  }

  lemma {:induction false} AfterSize(n: nat, es: seq<Event>)
    requires n > 0
    ensures |After(Boot(n), es).procs| == n
    decreases |es|
  {
    hide Step;
    if es != [] {
      AfterSize(n, es[..|es| - 1]);
      StepSize(After(Boot(n), es[..|es| - 1]), es[|es| - 1]);
    }
  }

  // ----- A process left alone ------------------------------------------------------------------

  /** After `k` steps of process `p` and of nobody else. */
  function Alone(s: State, p: nat, k: nat): State
    decreases k
  {
    if k == 0 then s else Alone(Step(s, Run(p)), p, k - 1)
  }

  lemma {:induction false} AloneMore(s: State, p: nat, j: nat, k: nat)
    ensures Alone(s, p, j + k) == Alone(Alone(s, p, j), p, k)
    decreases j
  {
    hide Step;
    if j > 0 { AloneMore(Step(s, Run(p)), p, j - 1, k); }
  }

  lemma AloneOne(s: State, p: nat)
    ensures Alone(s, p, 1) == Step(s, Run(p))
  {
    hide Step;
    assert Alone(s, p, 1) == Alone(Step(s, Run(p)), p, 0);
  }

  predicate Runs(s: State, p: nat, pc: Pc) { p < |s.procs| && s.procs[p].state.RUNNING? && s.procs[p].pc == pc }

  /** What the rest of a scan comes to. */
  lemma {:induction false} ScanAlone(s: State, p: nat, threads: bool, i: nat, have: bool) returns (k: nat)
    requires Runs(s, p, Scan(threads, i, have)) && s.lock == p && i <= |s.procs|
    requires NoZombie(s.procs, p, threads, i) && (have <==> HasChild(s.procs, p, threads, i))
    ensures k <= |s.procs| - i + 1
    ensures !NoZombie(s.procs, p, threads, |s.procs|) ==> exists c: nat :: Frees(s, Alone(s, p, k), p, threads, c)
    ensures NoZombie(s.procs, p, threads, |s.procs|) ==>
      if s.procs[p].killed || !HasChild(s.procs, p, threads, |s.procs|) then GivesUp(s, Alone(s, p, k), p)
      else Alone(s, p, k) == Goto(s, p, Doze(threads))
    decreases |s.procs| - i
  {
    hide Alone;
    var s1 := Step(s, Run(p));
    AloneOne(s, p);
    k := 1;
    if i < |s.procs| {
      if ZombieChild(s.procs, p, threads, i) {
        assert Frees(s, s1, p, threads, i);
      } else {
        var have' := have || Mine(s.procs[i], p, threads);
        assert s1 == Goto(s, p, Scan(threads, i + 1, have'));
        PcApart(s, p, Scan(threads, i + 1, have'), threads);
        k := ScanAlone(s1, p, threads, i + 1, have');
        AloneMore(s, p, 1, k);
        k := 1 + k;
      }
    }
  }

  /** Where `p` stands says nothing of who its children are or what its scan frees. */
  lemma PcApart(s: State, p: nat, pc: Pc, threads: bool)
    requires p < |s.procs| && s.procs[p].state.RUNNING?
    ensures var t := Goto(s, p, pc);
      && (forall i: nat :: HasChild(t.procs, p, threads, i) <==> HasChild(s.procs, p, threads, i))
      && (forall i: nat :: NoZombie(t.procs, p, threads, i) <==> NoZombie(s.procs, p, threads, i))
      && (forall i: nat, s': State :: Frees(t, s', p, threads, i) <==> Frees(s, s', p, threads, i))
      && (forall s': State :: GivesUp(t, s', p) <==> GivesUp(s, s', p))
      && (forall pc': Pc {:trigger Goto(t, p, pc')} :: Goto(t, p, pc') == Goto(s, p, pc'))
  {
    var t := Goto(s, p, pc);
    forall i: nat
      ensures HasChild(t.procs, p, threads, i) <==> HasChild(s.procs, p, threads, i)
      ensures NoZombie(t.procs, p, threads, i) <==> NoZombie(s.procs, p, threads, i)
    {
      SameKind(s.procs, t.procs, p, threads, i);
      SameKind(t.procs, s.procs, p, threads, i);
    }
    forall i: nat, s': State ensures Frees(t, s', p, threads, i) <==> Frees(s, s', p, threads, i) {
      if ZombieChild(s.procs, p, threads, i) {
        assert Goto(FreeProc(t, i), p, User) == Goto(FreeProc(s, i), p, User);
      }
    }
  }

  lemma SameKind(procs: seq<Proc>, procs': seq<Proc>, p: nat, threads: bool, i: nat)
    requires |procs| == |procs'|
    requires forall c :: 0 <= c < |procs| ==>
        && procs'[c].parent == procs[c].parent && procs'[c].isthread == procs[c].isthread
        && procs'[c].state == procs[c].state
    ensures HasChild(procs, p, threads, i) ==> HasChild(procs', p, threads, i)
    ensures NoZombie(procs, p, threads, i) ==> NoZombie(procs', p, threads, i)
  {
    if HasChild(procs, p, threads, i) {
      var c: nat :| c < i && c < |procs| && Mine(procs[c], p, threads);
      assert Mine(procs'[c], p, threads);
    }
  }

  /** A call of wait or join alone, from the moment it wants `wait_lock`: it frees its first ZOMBIE child of the
      kind; without one it returns if `p` was killed or has no such child; and else it sleeps. */
  lemma WaitAlone(s: State, p: nat, threads: bool) returns (k: nat)
    requires Runs(s, p, WaitWant(threads)) && s.lock == -1
    ensures k <= |s.procs| + 3
    ensures !NoZombie(s.procs, p, threads, |s.procs|) ==>
              exists c: nat :: ZombieChild(s.procs, p, threads, c) && NoZombie(s.procs, p, threads, c)
                               && Alone(s, p, k) == Goto(FreeProc(s, c), p, User)
    ensures NoZombie(s.procs, p, threads, |s.procs|) ==>
      var awake := s.procs[p].killed || !HasChild(s.procs, p, threads, |s.procs|);
      Alone(s, p, k) == if awake then Goto(s, p, User)
                        else Put(s, p, s.procs[p].(state := SLEEPING, chan := OfProc(p), pc := Asleep(threads)))
  {
    hide Alone, Step, Put, FreeProc, NoZombie, HasChild;
    AcquireAlone(s, p, threads);
    var t := Alone(s, p, 1);
    ScanStart(s, t, p, threads);
    k := ScanAlone(t, p, threads, 0, false);
    AloneMore(s, p, 1, k);
    k := 1 + k;
    if !NoZombie(s.procs, p, threads, |s.procs|) {
      var c: nat :| Frees(t, Alone(s, p, k), p, threads, c);
      FreedAfter(s, t, p, threads, c);
    } else if !s.procs[p].killed && HasChild(s.procs, p, threads, |s.procs|) {
      DozeAlone(Alone(s, p, k), p, threads);
      AloneMore(s, p, k, 1);
      k := k + 1;
      SleptAfter(s, t, p, threads);
    }
  }

  predicate Starts(s: State, t: State, p: nat, threads: bool) {
    p < |s.procs| && s.procs[p].state.RUNNING? && s.lock == -1 && t == Goto(s, p, Scan(threads, 0, false)).(lock := p)
  }

  lemma ScanStart(s: State, t: State, p: nat, threads: bool)
    requires Starts(s, t, p, threads)
    ensures NoZombie(t.procs, p, threads, 0) && !HasChild(t.procs, p, threads, 0)
    ensures NoZombie(t.procs, p, threads, |s.procs|) <==> NoZombie(s.procs, p, threads, |s.procs|)
    ensures HasChild(t.procs, p, threads, |s.procs|) <==> HasChild(s.procs, p, threads, |s.procs|)
    ensures Goto(t, p, User).(lock := -1) == Goto(s, p, User)
  {
    SameKind(s.procs, t.procs, p, threads, |s.procs|);
    SameKind(t.procs, s.procs, p, threads, |s.procs|);
  }

  lemma FreedAfter(s: State, t: State, p: nat, threads: bool, c: nat)
    requires Starts(s, t, p, threads) && ZombieChild(t.procs, p, threads, c) && NoZombie(t.procs, p, threads, c)
    ensures ZombieChild(s.procs, p, threads, c) && NoZombie(s.procs, p, threads, c)
    ensures Goto(FreeProc(t, c), p, User).(lock := -1) == Goto(FreeProc(s, c), p, User)
  {
    SameKind(t.procs, s.procs, p, threads, c);
  }

  lemma SleptAfter(s: State, t: State, p: nat, threads: bool)
    requires Starts(s, t, p, threads)
    ensures var u := Goto(t, p, Doze(threads));
      Put(u, p, u.procs[p].(state := SLEEPING, chan := OfProc(p), pc := Asleep(threads))).(lock := -1)
      == Put(s, p, s.procs[p].(state := SLEEPING, chan := OfProc(p), pc := Asleep(threads)))
  {
  }

  lemma AcquireAlone(s: State, p: nat, threads: bool)
    requires Runs(s, p, WaitWant(threads)) && s.lock == -1
    ensures Alone(s, p, 1) == Goto(s, p, Scan(threads, 0, false)).(lock := p)
  {
    AloneOne(s, p);
  }

  lemma DozeAlone(s: State, p: nat, threads: bool)
    requires Runs(s, p, Doze(threads))
    ensures Alone(s, p, 1) ==
            Put(s, p, s.procs[p].(state := SLEEPING, chan := OfProc(p), pc := Asleep(threads))).(lock := -1)
  {
    AloneOne(s, p);
  }

  /** A process asleep in wait or join that is killed, and scheduled when `wait_lock` is free, returns. */
  lemma KilledWaiterReturns(s: State, p: nat, threads: bool) returns (k: nat)
    requires p < |s.procs| && s.procs[p].pc == Asleep(threads) && s.procs[p].state.SLEEPING? && s.lock == -1
    ensures k <= |s.procs| + 2
    ensures var t := Alone(Step(Step(s, Kill(p)), Schedule(p)), p, k); Runs(t, p, User) && t.lock == -1
  {
    hide Alone;
    var t := Step(Step(s, Kill(p)), Schedule(p));
    var u := Step(t, Run(p));
    AloneOne(t, p);
    k := ScanAlone(u, p, threads, 0, false);
    AloneMore(t, p, 1, k);
    k := 1 + k;
    if !NoZombie(u.procs, p, threads, |u.procs|) {
      var c: nat :| Frees(u, Alone(t, p, k), p, threads, c);
    }
  }

  // ----- fork and clone ------------------------------------------------------------------------

  /** A fork alone: a RUNNABLE child with a page table and an id of its own, and nothing else changed. */
  lemma ForkAlone(s: State, p: nat, np: nat)
    requires Runs(s, p, User) && np < |s.procs| && s.procs[np].state.UNUSED? && s.lock == -1
    ensures Alone(Step(s, Enter(p, Fork(np))), p, 2) == s.(
              procs := s.procs[np := s.procs[np].(state := RUNNABLE, parent := p, isthread := false,
                                                  space := s.nextSpace, pid := s.nextPid)],
              spaces := s.spaces + {s.nextSpace}, nextSpace := s.nextSpace + 1, nextPid := s.nextPid + 1)
  {
    var s1 := Step(s, Enter(p, Fork(np)));
    var s2 := Step(s1, Run(p));
    AloneTwo(s1, p);
    assert Step(s2, Run(p)).procs[p] == s.procs[p];
  }

  /** A clone alone: a RUNNABLE thread on the page table of its caller. */
  lemma CloneAlone(s: State, p: nat, np: nat)
    requires Runs(s, p, User) && np < |s.procs| && s.procs[np].state.UNUSED?
    ensures Alone(Step(s, Enter(p, Clone(np))), p, 2) == s.(
              procs := s.procs[np := s.procs[np].(state := RUNNABLE, parent := p, isthread := true,
                                                  space := s.procs[p].space, pid := s.nextPid)],
              nextPid := s.nextPid + 1)
  {
    var s1 := Step(s, Enter(p, Clone(np)));
    var s2 := Step(s1, Run(p));
    AloneTwo(s1, p);
    assert Step(s2, Run(p)).procs[p] == s.procs[p];
  }

  lemma AloneTwo(s: State, p: nat)
    ensures Alone(s, p, 2) == Step(Step(s, Run(p)), Run(p))
  {
    hide Step;
    AloneOne(Step(s, Run(p)), p);
    AloneMore(s, p, 1, 1);
    AloneOne(s, p);
  }

  /** In any run: the child that fork or clone leaves behind can be scheduled, and is the caller's. */
  lemma ChildStarts(n: nat, es: seq<Event>, p: nat, np: nat)
    requires n > 0 && p < n && np < n && |After(Boot(n), es).procs| == n
    requires var q := After(Boot(n), es).procs[p]; q.state.RUNNING? && (q.pc == ForkDone(np) || q.pc == CloneDone(np))
    ensures var s, s' := After(Boot(n), es), Step(After(Boot(n), es), Run(p));
      var child, thread := s'.procs[np], s.procs[p].pc.CloneDone?;
      && s'.procs[p] == s.procs[p].(pc := User) && np != p
      && child.state.RUNNABLE? && child.parent == p && child.isthread == thread && child.pid > s.procs[p].pid
      && if thread then child.space == s.procs[p].space
         else child.space in s.spaces && child.space != s.procs[p].space
  {
    RunKeepsInv(n, es);
    var s := After(Boot(n), es);
    Facts(s, p);
    Facts(s, np);
    if s.procs[p].pc.ForkDone? { OwnSpace(s, p, np); }
  }

  /** Nobody runs on the page table of a process that is still being set up. */
  lemma OwnSpace(s: State, p: nat, np: nat)
    requires Inv(s) && p < |s.procs| && np < |s.procs| && s.procs[p].state.RUNNING?
    requires s.procs[np].state.USED? && !s.procs[np].isthread
    ensures s.procs[np].space != s.procs[p].space && s.procs[np].space in s.spaces
  {
    Facts(s, p);
    Facts(s, np);
    var leader := p;
    if s.procs[p].isthread { leader := ThreadHasLeader(s, p); }
    assert Owns(s.procs[leader]) && Owns(s.procs[np]) && leader != np;
  }

  // ----- exit ----------------------------------------------------------------------------------

  /** What the kill scan of `p` does to slot `c` from slot `i` on. */
  function Told(s: State, p: nat, i: nat, c: nat): Proc
    requires c < |s.procs|
  {
    var q := s.procs[c];
    if !(i <= c && MyThread(s, c, p)) then q
    else if q.state.SLEEPING? then q.(killed := true, state := RUNNABLE)
    else q.(killed := true)
  }

  lemma {:induction false} KillAlone(s: State, p: nat, i: nat) returns (k: nat)
    requires Runs(s, p, KillScan(i)) && s.procs[p].parent != p && i <= |s.procs|
    ensures var s' := Alone(s, p, k);
      && s' == s.(procs := s'.procs) && |s'.procs| == |s.procs| && s'.procs[p] == s.procs[p].(pc := FreeScan(0))
      && forall c :: 0 <= c < |s.procs| && c != p ==> s'.procs[c] == Told(s, p, i, c)
    decreases |s.procs| - i
  {
    hide Alone;
    var s1 := Step(s, Run(p));
    AloneOne(s, p);
    k := 1;
    if i < |s.procs| {
      k := KillAlone(s1, p, i + 1);
      AloneMore(s, p, 1, k);
      k := 1 + k;
    }
  }

  /** The scan of tpkill alone: it frees its ZOMBIE threads up to the first that is not one, and then sleeps
      on; without such a thread it is done. */
  lemma {:induction false} FreeAlone(s: State, p: nat, i: nat) returns (k: nat, stop: nat)
    requires Runs(s, p, FreeScan(i)) && s.procs[p].parent != p && i <= |s.procs| && s.lock == p
    ensures i <= stop <= |s.procs|
    ensures forall c :: i <= c < stop && MyThread(s, c, p) ==> s.procs[c].state.ZOMBIE?
    ensures stop < |s.procs| ==> MyThread(s, stop, p) && !s.procs[stop].state.ZOMBIE?
    ensures var s' := Alone(s, p, k);
      && s' == s.(procs := s'.procs, lock := if stop < |s.procs| then p else -1) && |s'.procs| == |s.procs|
      && s'.procs[p] == s.procs[p].(pc := if stop < |s.procs| then TpDoze else ExitWant)
      && forall c :: 0 <= c < |s.procs| && c != p ==>
           s'.procs[c] == if i <= c < stop && MyThread(s, c, p) then Blank() else s.procs[c]
    decreases |s.procs| - i
  {
    hide Alone;
    var s1 := Step(s, Run(p));
    AloneOne(s, p);
    k, stop := 1, i;
    if i < |s.procs| && !(MyThread(s, i, p) && !s.procs[i].state.ZOMBIE?) {
      k, stop := FreeAlone(s1, p, i + 1);
      forall c | i <= c < stop && MyThread(s, c, p) ensures s.procs[c].state.ZOMBIE? {
        if c > i { assert MyThread(s1, c, p); }
      }
      AloneMore(s, p, 1, k);
      k := 1 + k;
    }
  }

  ghost predicate Orphans(s: State, p: nat, i: nat) {
    exists c :: i <= c < |s.procs| && Mine(s.procs[c], p, false)
  }

  /** A slot after its parent `p` gave its children from slot `i` on to init, and woke it if there were any. */
  ghost function Given(s: State, p: nat, i: nat, c: nat): Proc
    requires c < |s.procs|
  {
    var q := s.procs[c];
    var q1 := if i <= c && Mine(q, p, false) then q.(parent := INIT) else q;
    if Orphans(s, p, i) then Woken(q1, INIT) else q1
  }

  predicate On(q: Proc, chan: int) { q.state.SLEEPING? && q.chan.OfProc? && q.chan.slot == chan }

  function Woken(q: Proc, chan: int): Proc { if On(q, chan) then q.(state := RUNNABLE) else q }

  lemma {:induction false} ReparentAlone(s: State, p: nat, i: nat) returns (k: nat)
    requires Runs(s, p, Reparent(i)) && s.procs[p].parent != p && i <= |s.procs| && p != INIT
    ensures var s' := Alone(s, p, k);
      && s' == s.(procs := s'.procs) && |s'.procs| == |s.procs| && s'.procs[p] == s.procs[p].(pc := ExitWake)
      && forall c :: 0 <= c < |s.procs| && c != p ==> s'.procs[c] == Given(s, p, i, c)
    decreases |s.procs| - i
  {
    hide Alone, WakeUp;
    var s1 := Step(s, Run(p));
    AloneOne(s, p);
    k := 1;
    if i < |s.procs| && Mine(s.procs[i], p, false) {
      var s2 := Step(s1, Run(p));
      AloneTwo(s, p);
      HandOver(s, p, i);
      k := ReparentAlone(s2, p, i + 1);
      GivenNext(s, s2, p, i);
      AloneMore(s, p, 2, k);
      k := 2 + k;
    } else if i < |s.procs| {
      k := ReparentAlone(s1, p, i + 1);
      GivenSkip(s, s1, p, i);
      AloneMore(s, p, 1, k);
      k := 1 + k;
    }
  }

  lemma HandOver(s: State, p: nat, i: nat)
    requires Runs(s, p, Reparent(i)) && i < |s.procs| && Mine(s.procs[i], p, false) && s.procs[p].parent != p
    requires p != INIT
    ensures var s' := Step(Step(s, Run(p)), Run(p));
      && s' == s.(procs := s'.procs) && |s'.procs| == |s.procs| && s'.procs[p] == s.procs[p].(pc := Reparent(i + 1))
      && forall c :: 0 <= c < |s.procs| && c != p ==>
           s'.procs[c] == Woken(if c == i then s.procs[c].(parent := INIT) else s.procs[c], INIT)
  {
  }

  lemma GivenNext(s: State, s2: State, p: nat, i: nat)
    requires p < |s.procs| == |s2.procs| && i < |s.procs| && Mine(s.procs[i], p, false) && i != p && p != INIT
    requires s2.procs[p].parent == s.procs[p].parent != p
    requires forall c :: 0 <= c < |s.procs| && c != p ==>
        s2.procs[c] == Woken(if c == i then s.procs[c].(parent := INIT) else s.procs[c], INIT)
    ensures forall c :: 0 <= c < |s.procs| && c != p ==> Given(s2, p, i + 1, c) == Given(s, p, i, c)
  {
  }

  lemma GivenSkip(s: State, s1: State, p: nat, i: nat)
    requires p < |s.procs| == |s1.procs| && i < |s.procs| && !Mine(s.procs[i], p, false)
    requires s1.procs[p].parent == s.procs[p].parent != p
    requires forall c :: 0 <= c < |s.procs| && c != p ==> s1.procs[c] == s.procs[c]
    ensures forall c :: 0 <= c < |s.procs| && c != p ==> Given(s1, p, i + 1, c) == Given(s, p, i, c)
  {
    if Orphans(s, p, i) {
      var c :| i <= c < |s.procs| && Mine(s.procs[c], p, false);
      assert Mine(s1.procs[c], p, false);
    }
    if Orphans(s1, p, i + 1) {
      var c :| i + 1 <= c < |s1.procs| && Mine(s1.procs[c], p, false);
      assert Mine(s.procs[c], p, false);
    }
  }

  /** What the exit of `p` makes of another slot: its threads are freed, its children are init's, and init, if it
      was given any, and the parent of `p` are awake. */
  ghost function Left(s: State, p: nat, c: nat): Proc
    requires p < |s.procs| && c < |s.procs|
  {
    if MyThread(s, c, p) then Blank()
    else
      var q := s.procs[c];
      var q1 := if q.parent == p then q.(parent := INIT) else q;
      Woken(if Orphans(s, p, 0) then Woken(q1, INIT) else q1, s.procs[p].parent)
  }

  /** An exit alone, once the threads of `p` are ZOMBIEs: `p` is a ZOMBIE and `wait_lock` free. */
  lemma ExitAlone(s: State, p: nat) returns (k: nat)
    requires Runs(s, p, TpWant) && s.procs[p].parent != p && p != INIT && s.lock == -1
    requires forall c :: 0 <= c < |s.procs| && MyThread(s, c, p) ==> s.procs[c].state.ZOMBIE?
    ensures var s' := Alone(s, p, k);
      && s' == s.(procs := s'.procs) && |s'.procs| == |s.procs|
      && s'.procs[p] == s.procs[p].(state := ZOMBIE, pc := Dead)
      && forall c :: 0 <= c < |s.procs| && c != p ==> s'.procs[c] == Left(s, p, c)
  {
    hide Alone, WakeUp;
    var s1 := Step(s, Run(p));
    AloneOne(s, p);
    var a := KillAlone(s1, p, 0);
    AloneMore(s, p, 1, a);
    var s2 := Alone(s, p, 1 + a);
    var b, stop := FreeAlone(s2, p, 0);
    AloneMore(s, p, 1 + a, b);
    var s3 := Alone(s, p, 1 + a + b);
    var s4 := Step(s3, Run(p));
    AloneOne(s3, p);
    AloneMore(s, p, 1 + a + b, 1);
    var d := ReparentAlone(s4, p, 0);
    AloneMore(s, p, 2 + a + b, d);
    var s5 := Alone(s, p, 2 + a + b + d);
    LastSteps(s5, p);
    AloneMore(s, p, 2 + a + b + d, 3);
    k := 5 + a + b + d;
    OrphansStay(s, s4, p);
  }

  lemma OrphansStay(s: State, t: State, p: nat)
    requires p < |s.procs| == |t.procs| && s.procs[p].parent == t.procs[p].parent != p
    requires forall c :: 0 <= c < |s.procs| && c != p ==>
        t.procs[c] == if MyThread(s, c, p) then Blank() else s.procs[c]
    ensures Orphans(t, p, 0) <==> Orphans(s, p, 0)
  {
    if Orphans(s, p, 0) {
      var c :| 0 <= c < |s.procs| && Mine(s.procs[c], p, false);
      assert Mine(t.procs[c], p, false);
    }
    if Orphans(t, p, 0) {
      var c :| 0 <= c < |t.procs| && Mine(t.procs[c], p, false);
      assert Mine(s.procs[c], p, false);
    }
  }

  lemma LastSteps(s: State, p: nat)
    requires Runs(s, p, ExitWake)
    ensures var s' := Alone(s, p, 3);
      && s' == s.(procs := s'.procs, lock := -1) && |s'.procs| == |s.procs|
      && s'.procs[p] == s.procs[p].(state := ZOMBIE, pc := Dead)
      && forall c :: 0 <= c < |s.procs| && c != p ==> s'.procs[c] == Woken(s.procs[c], s.procs[p].parent)
  {
    hide Alone;
    var s1 := Step(s, Run(p));
    AloneTwo(s1, p);
    AloneOne(s, p);
    AloneMore(s, p, 1, 2);
  }
}
