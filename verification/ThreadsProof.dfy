/** Every step of the process table keeps the invariant. */
module ThreadsProof {

  import opened Threads

  // ----- One slot changes its program counter, run state or `killed` ---------------------------

  /** Slot `p` keeps its identity, and its lock changes hands only through `p`. */
  ghost predicate SameSlot(a: Proc, b: Proc) {
    && a.parent == b.parent && a.isthread == b.isthread && a.space == b.space && a.pid == b.pid
    && (a.state.UNUSED? <==> b.state.UNUSED?)
  }

  ghost predicate LockMove(p: nat, lock: int, lock': int) {
    lock == lock' || (lock == p && lock' == -1) || (lock == -1 && lock' == p)
  }

  lemma LocalsOne(s: State, p: nat, b: Proc, lock: int)
    requires Locals(s) && p < |s.procs| && SameSlot(s.procs[p], b) && LockMove(p, s.lock, lock)
    requires Local(b, p, |s.procs|, lock, s.spaces, s.nextPid)
    ensures Locals(Put(s, p, b).(lock := lock))
  {
  }

  /** The announcement to init is over only when init is awake. */
  ghost predicate WakingMove(procs: seq<Proc>, waking: bool, waking': bool) {
    waking ==> waking' || (INIT < |procs| && !OnOwn(procs[INIT]))
  }

  lemma ChildWaking(c: Proc, ci: nat, q: Proc, qi: nat, waking: bool, waking': bool)
    requires Child(c, ci, q, qi, waking) && (waking ==> waking' || qi != INIT || !OnOwn(q))
    ensures Child(c, ci, q, qi, waking')
  {
  }

  lemma ChildrenOne(procs: seq<Proc>, lock: int, p: nat, b: Proc, lock': int)
    requires Children(procs, lock) && p < |procs| && SameSlot(procs[p], b)
    requires var procs' := procs[p := b]; WakingMove(procs', Waking(procs, lock), Waking(procs', lock'))
    requires procs[p].parent != p && ChildAt(procs[p := b], p, Waking(procs[p := b], lock'))
    requires forall c :: 0 <= c < |procs| && c != p && procs[c].parent == p ==>
        ChildAt(procs[p := b], c, Waking(procs[p := b], lock'))
    ensures Children(procs[p := b], lock')
  {
    var procs' := procs[p := b];
    var waking, waking' := Waking(procs, lock), Waking(procs', lock');
    forall c | 0 <= c < |procs| && c != p && procs[c].parent != p ensures ChildAt(procs', c, waking') {
      assert ChildAt(procs, c, waking);
      if procs[c].parent >= 0 {
        ChildWaking(procs[c], c, procs[procs[c].parent], procs[c].parent, waking, waking');
      }
    }
    hide Waking, ChildAt, SameSlot, WakingMove;
  }

  /** Nothing changes for whoever fills in slots, or `p` has finished doing so. */
  predicate MakesMove(a: Pc, b: Pc) {
    Makes(b) == -1 || (Makes(a) == Makes(b) && a.CloneLink? == b.CloneLink? && a.CloneDone? == b.CloneDone?
                       && a.ForkLink? == b.ForkLink? && a.ForkDone? == b.ForkDone?)
  }

  ghost predicate Unmade(procs: seq<Proc>, p: nat) {
    forall q :: 0 <= q < |procs| ==> Makes(procs[q].pc) != p
  }

  lemma MakingsOne(procs: seq<Proc>, p: nat, b: Proc)
    requires Makings(procs) && p < |procs| && SameSlot(procs[p], b) && MakesMove(procs[p].pc, b.pc)
    requires procs[p].state.USED? ==> b.state.USED? || Unmade(procs, p)
    ensures Makings(procs[p := b])
  {
    var procs' := procs[p := b];
    forall q | 0 <= q < |procs| ensures MakingAt(procs', q) {
      assert MakingAt(procs, q);
    }
  }

  lemma OwnersKeep(procs: seq<Proc>, procs': seq<Proc>, spaces: set<nat>)
    requires forall x :: x in spaces ==> HasOwner(procs, x)
    requires |procs| == |procs'|
    requires forall i :: 0 <= i < |procs| && Owns(procs[i]) && procs[i].space in spaces ==>
        Owns(procs'[i]) && procs'[i].space == procs[i].space
    ensures forall x :: x in spaces ==> HasOwner(procs', x)
  {
    forall x | x in spaces ensures HasOwner(procs', x) {
      var i :| 0 <= i < |procs| && Owns(procs[i]) && procs[i].space == x;
      assert Owns(procs'[i]) && procs'[i].space == x;
    }
  }

  lemma SpacesOne(procs: seq<Proc>, spaces: set<nat>, nextSpace: nat, p: nat, b: Proc)
    requires SpacesOk(procs, spaces, nextSpace) && p < |procs| && SameSlot(procs[p], b)
    ensures SpacesOk(procs[p := b], spaces, nextSpace)
  {
    OwnersKeep(procs, procs[p := b], spaces);
    hide HasOwner;
  }

  lemma AwaitedOne(procs: seq<Proc>, p: nat, b: Proc)
    requires Awaited(procs) && p < |procs| && SameSlot(procs[p], b)
    requires Waits(b) && !Waits(procs[p]) ==> HasThread(procs, p)
    requires b.state.ZOMBIE? && !procs[p].state.ZOMBIE? && 0 <= b.parent < |procs| ==> !Waits(procs[p := b][b.parent])
    ensures Awaited(procs[p := b])
  {
    var procs' := procs[p := b];
    forall q | 0 <= q < |procs| && Waits(procs'[q]) ensures HasThread(procs', q) {
      assert HasThread(procs, q);
      var c :| 0 <= c < |procs| && LiveThread(procs[c], q);
      assert LiveThread(procs'[c], q);
    }
  }

  lemma AwaitedKeep(procs: seq<Proc>, procs': seq<Proc>)
    requires Awaited(procs) && |procs| == |procs'|
    requires forall q :: 0 <= q < |procs| && Waits(procs'[q]) ==> Waits(procs[q])
    requires forall c, q :: 0 <= c < |procs| && LiveThread(procs[c], q) ==> LiveThread(procs'[c], q)
    ensures Awaited(procs')
  {
    forall q | 0 <= q < |procs| && Waits(procs'[q]) ensures HasThread(procs', q) {
      assert HasThread(procs, q);
      var c :| 0 <= c < |procs| && LiveThread(procs[c], q);
      assert LiveThread(procs'[c], q);
    }
  }

  /** The side conditions of a change to slot `p`, as its children and its parent see it. */
  lemma OneSlot(s: State, p: nat, b: Proc, lock: int)
    requires Inv(s) && p < |s.procs| && SameSlot(s.procs[p], b) && LockMove(p, s.lock, lock)
    requires Local(b, p, |s.procs|, lock, s.spaces, s.nextPid) && Makings(s.procs[p := b]) && s.procs[p].parent != p
    requires var procs' := s.procs[p := b];
      && WakingMove(procs', Waking(s.procs, s.lock), Waking(procs', lock))
      && ChildAt(procs', p, Waking(procs', lock))
      && (forall c :: 0 <= c < |procs'| && c != p && procs'[c].parent == p ==> ChildAt(procs', c, Waking(procs', lock)))
    requires Waits(b) && !Waits(s.procs[p]) ==> HasThread(s.procs, p)
    requires b.state.ZOMBIE? && !s.procs[p].state.ZOMBIE? && 0 <= b.parent < |s.procs| ==>
        !Waits(s.procs[p := b][b.parent])
    ensures Inv(Put(s, p, b).(lock := lock))
  {
    LocalsOne(s, p, b, lock);
    ChildrenOne(s.procs, s.lock, p, b, lock);
    SpacesOne(s.procs, s.spaces, s.nextSpace, p, b);
    AwaitedOne(s.procs, p, b);
    hide Locals, Children, Makings, SpacesOk, Awaited, Waking, ChildAt, Local, SameSlot, HasThread, Unmade;
  }

  // ----- Steps of one slot ---------------------------------------------------------------------

  lemma Facts(s: State, p: nat)
    requires Inv(s) && p < |s.procs|
    ensures Local(s.procs[p], p, |s.procs|, s.lock, s.spaces, s.nextPid)
    ensures s.procs[p].parent != p && ChildAt(s.procs, p, Waking(s.procs, s.lock))
    ensures MakingAt(s.procs, p)
    ensures forall c :: 0 <= c < |s.procs| && s.procs[c].parent == p ==>
      Child(s.procs[c], c, s.procs[p], p, Waking(s.procs, s.lock))
  {
    assert ChildAt(s.procs, p, Waking(s.procs, s.lock));
    forall c | 0 <= c < |s.procs| && s.procs[c].parent == p
      ensures Child(s.procs[c], c, s.procs[p], p, Waking(s.procs, s.lock))
    {
      assert ChildAt(s.procs, c, Waking(s.procs, s.lock));
    }
  }

  /** A change of slot `p` alone, checked against each child with only the two slots in sight. */
  lemma MoveMaking(s: State, p: nat, b: Proc, lock: int)
    requires Inv(s) && p < |s.procs| && SameSlot(s.procs[p], b) && LockMove(p, s.lock, lock)
    requires Local(b, p, |s.procs|, lock, s.spaces, s.nextPid) && Makings(s.procs[p := b])
    requires WakingMove(s.procs[p := b], Waking(s.procs, s.lock), Waking(s.procs[p := b], lock))
    requires b.parent >= 0 ==>
        b.parent < |s.procs| && Child(b, p, s.procs[b.parent], b.parent, Waking(s.procs[p := b], lock))
    requires forall c :: 0 <= c < |s.procs| && c != p && s.procs[c].parent == p ==>
      Child(s.procs[c], c, b, p, Waking(s.procs[p := b], lock))
    requires Waits(b) && !Waits(s.procs[p]) ==> HasThread(s.procs, p)
    requires b.state.ZOMBIE? && !s.procs[p].state.ZOMBIE? && 0 <= b.parent < |s.procs| ==> !Waits(s.procs[b.parent])
    ensures Inv(Put(s, p, b).(lock := lock))
  {
    hide Inv;
    Facts(s, p);
    OneSlot(s, p, b, lock);
  }

  lemma Move(s: State, p: nat, b: Proc, lock: int)
    requires Inv(s) && p < |s.procs| && SameSlot(s.procs[p], b) && LockMove(p, s.lock, lock)
    requires Local(b, p, |s.procs|, lock, s.spaces, s.nextPid) && MakesMove(s.procs[p].pc, b.pc)
    requires s.procs[p].state.USED? ==> b.state.USED? || Unmade(s.procs, p)
    requires WakingMove(s.procs[p := b], Waking(s.procs, s.lock), Waking(s.procs[p := b], lock))
    requires b.parent >= 0 ==>
        b.parent < |s.procs| && Child(b, p, s.procs[b.parent], b.parent, Waking(s.procs[p := b], lock))
    requires forall c :: 0 <= c < |s.procs| && c != p && s.procs[c].parent == p ==>
      Child(s.procs[c], c, b, p, Waking(s.procs[p := b], lock))
    requires Waits(b) && !Waits(s.procs[p]) ==> HasThread(s.procs, p)
    requires b.state.ZOMBIE? && !s.procs[p].state.ZOMBIE? && 0 <= b.parent < |s.procs| ==> !Waits(s.procs[b.parent])
    ensures Inv(Put(s, p, b).(lock := lock))
  {
    MakingsOne(s.procs, p, b);
    hide Locals, Children, Makings, SpacesOk, Awaited, Waking, ChildAt, Local, SameSlot, HasThread, Unmade, Child;
    MoveMaking(s, p, b, lock);
  }

  lemma AcquireStep(s: State, p: nat, pc: Pc)
    requires Inv(s) && p < |s.procs| && s.procs[p].state.RUNNING? && s.lock == -1
    requires var me := s.procs[p].pc;
      (me.TpWant? && pc == KillScan(0)) || (me.ExitWant? && pc == Reparent(0))
      || (me.WaitWant? && pc == Scan(me.threads, 0, false))
    ensures Inv(Acquire(s, p, pc))
  {
    hide Inv;
    Facts(s, p);
    Move(s, p, s.procs[p].(pc := pc), p);
  }

  lemma WantStep(s: State, p: nat, pc: Pc)
    requires Inv(s) && p < |s.procs| && s.procs[p].state.RUNNING? && s.procs[p].pc.User?
    requires pc.WaitWant? || (pc.TpWant? && p != INIT)
    ensures Inv(Goto(s, p, pc))
  {
    hide Inv;
    Facts(s, p);
    Move(s, p, s.procs[p].(pc := pc), s.lock);
  }

  lemma KillStep(s: State, p: nat)
    requires Inv(s) && p < |s.procs|
    ensures Inv(Step(s, Kill(p)))
  {
    hide Inv;
    Facts(s, p);
    Move(s, p, WakeOne(s.procs[p].(killed := true)), s.lock);
  }

  lemma ScanOn(s: State, p: nat, have: bool)
    requires Inv(s) && p < |s.procs| && s.procs[p].state.RUNNING? && s.procs[p].pc.Scan? && s.procs[p].pc.i < |s.procs|
    requires var q := s.procs[s.procs[p].pc.i]; q.parent != p || q.isthread != s.procs[p].pc.threads || !q.state.ZOMBIE?
    ensures Inv(Goto(s, p, Scan(s.procs[p].pc.threads, s.procs[p].pc.i + 1, have)))
  {
    hide Inv;
    Facts(s, p);
    Move(s, p, s.procs[p].(pc := Scan(s.procs[p].pc.threads, s.procs[p].pc.i + 1, have)), s.lock);
  }

  lemma ScanEnd(s: State, p: nat)
    requires Inv(s) && p < |s.procs| && s.procs[p].state.RUNNING? && s.procs[p].pc.Scan? && s.procs[p].pc.i >= |s.procs|
    ensures Inv(RunStep(s, p))
  {
    hide Inv;
    Facts(s, p);
    Move(s, p, s.procs[p].(pc := RunStep(s, p).procs[p].pc), RunStep(s, p).lock);
  }

  lemma ScheduleStep(s: State, p: nat)
    requires Inv(s) && p < |s.procs|
    ensures Inv(Step(s, Schedule(p)))
  {
    hide Inv;
    Facts(s, p);
    if s.procs[p].state.RUNNABLE? {
      Move(s, p, s.procs[p].(state := RUNNING), s.lock);
    }
  }

  lemma PreemptStep(s: State, p: nat)
    requires Inv(s) && p < |s.procs|
    ensures Inv(Step(s, Preempt(p)))
  {
    hide Inv;
    Facts(s, p);
    if s.procs[p].state.RUNNING? && s.lock != p {
      Move(s, p, s.procs[p].(state := RUNNABLE), s.lock);
    }
  }

  lemma WakeElsewhereStep(s: State, p: nat)
    requires Inv(s) && p < |s.procs|
    ensures Inv(Step(s, WakeElsewhere(p)))
  {
    hide Inv;
    Facts(s, p);
    if s.procs[p].state.SLEEPING? && s.procs[p].chan.Elsewhere? {
      Move(s, p, WakeOne(s.procs[p]), s.lock);
    }
  }

  lemma SleepElsewhereStep(s: State, p: nat)
    requires Inv(s) && p < |s.procs| && s.procs[p].state.RUNNING? && s.procs[p].pc.User?
    ensures Inv(EnterCall(s, p, SleepElsewhere))
  {
    hide Inv;
    Facts(s, p);
    Move(s, p, s.procs[p].(state := SLEEPING, chan := Elsewhere), s.lock);
  }

  lemma KillScanNext(s: State, p: nat)
    requires Inv(s) && p < |s.procs| && s.procs[p].state.RUNNING? && s.procs[p].pc.KillScan?
    requires var i := s.procs[p].pc.i;
      i < |s.procs| && MyThread(s, i, p) ==> s.procs[i].killed && !s.procs[i].state.SLEEPING?
    ensures var i := s.procs[p].pc.i; Inv(Goto(s, p, if i < |s.procs| then KillScan(i + 1) else FreeScan(0)))
  {
    hide Inv;
    Facts(s, p);
    var i := s.procs[p].pc.i;
    if i < |s.procs| { Facts(s, i); }
    Move(s, p, s.procs[p].(pc := if i < |s.procs| then KillScan(i + 1) else FreeScan(0)), s.lock);
  }

  lemma NotOwnParent(s: State, i: nat)
    requires Inv(s) && i < |s.procs|
    ensures s.procs[i].parent != i
  {
    Facts(s, i);
  }

  lemma KillScanStep(s: State, p: nat)
    requires Inv(s) && p < |s.procs| && s.procs[p].state.RUNNING? && s.procs[p].pc.KillScan?
    ensures Inv(RunStep(s, p))
  {
    hide Inv, WakeUp;
    var i := s.procs[p].pc.i;
    if i < |s.procs| && MyThread(s, i, p) {
      NotOwnParent(s, i);
      KillStep(s, i);
      KillScanNext(Step(s, Kill(i)), p);
    } else {
      KillScanNext(s, p);
    }
  }

  /** A slot that no one uses any more goes back to the table. */
  lemma FreeSlot(s: State, i: nat)
    requires Inv(s) && i < |s.procs| && !Live(s.procs[i]) && !s.procs[i].state.UNUSED? && s.lock != i
    requires Unmade(s.procs, i)
    requires Makes(s.procs[i].pc) == -1
    requires 0 <= s.procs[i].parent < |s.procs| ==> !Waits(s.procs[s.procs[i].parent])
    ensures Inv(FreeProc(s, i))
  {
    FreeLocals(s, i);
    FreeChildren(s, i);
    FreeMakings(s, i);
    FreeSpaces(s, i);
    FreeAwaited(s, i);
    hide Locals, Children, Makings, Awaited, SpacesOk;
  }

  lemma FreeMakings(s: State, i: nat)
    requires Inv(s) && i < |s.procs| && Unmade(s.procs, i) && Makes(s.procs[i].pc) == -1
    ensures Makings(FreeProc(s, i).procs)
  {
    var t := FreeProc(s, i);
    forall q | 0 <= q < |t.procs| ensures MakingAt(t.procs, q) {
      assert MakingAt(s.procs, q);
    }
  }

  lemma FreeAwaited(s: State, i: nat)
    requires Inv(s) && i < |s.procs| && !Live(s.procs[i])
    requires 0 <= s.procs[i].parent < |s.procs| ==> !Waits(s.procs[s.procs[i].parent])
    ensures Awaited(FreeProc(s, i).procs)
  {
    var t := FreeProc(s, i);
    forall q | 0 <= q < |t.procs| && Waits(t.procs[q]) ensures HasThread(t.procs, q) {
      assert HasThread(s.procs, q);
      var c :| 0 <= c < |s.procs| && LiveThread(s.procs[c], q);
      assert LiveThread(t.procs[c], q);
    }
  }

  lemma FreeSpaces(s: State, i: nat)
    requires Inv(s) && i < |s.procs| && !s.procs[i].state.UNUSED?
    ensures var t := FreeProc(s, i); SpacesOk(t.procs, t.spaces, t.nextSpace)
  {
    Facts(s, i);
    var t := FreeProc(s, i);
    OwnersKeep(s.procs, t.procs, t.spaces);
    hide HasOwner, HasThread;
  }

  lemma FreeLocals(s: State, i: nat)
    requires Inv(s) && i < |s.procs| && !Live(s.procs[i]) && s.lock != i && !s.procs[i].state.UNUSED?
    ensures Locals(FreeProc(s, i))
  {
    Facts(s, i);
  }

  lemma FreeChildren(s: State, i: nat)
    requires Inv(s) && i < |s.procs| && !Live(s.procs[i]) && s.lock != i
    ensures Children(FreeProc(s, i).procs, s.lock)
  {
    var t := FreeProc(s, i);
    Facts(s, i);
    var w := Waking(s.procs, s.lock);
    forall c | 0 <= c < |t.procs| ensures ChildAt(t.procs, c, w) {
      assert ChildAt(s.procs, c, w);
    }
  }

  lemma FreeScanOn(s: State, p: nat)
    requires Inv(s) && p < |s.procs| && s.procs[p].state.RUNNING? && s.procs[p].pc.FreeScan?
    requires s.procs[p].pc.i < |s.procs| && !MyThread(s, s.procs[p].pc.i, p)
    ensures Inv(Goto(s, p, FreeScan(s.procs[p].pc.i + 1)))
  {
    hide Inv;
    Facts(s, p);
    Move(s, p, s.procs[p].(pc := FreeScan(s.procs[p].pc.i + 1)), s.lock);
  }

  lemma FreeScanEnd(s: State, p: nat)
    requires Inv(s) && p < |s.procs| && s.procs[p].state.RUNNING? && s.procs[p].pc.FreeScan?
    requires s.procs[p].pc.i >= |s.procs|
    ensures Inv(Goto(s, p, ExitWant).(lock := -1))
  {
    hide Inv;
    Facts(s, p);
    Move(s, p, s.procs[p].(pc := ExitWant), -1);
  }

  lemma FreeScanFound(s: State, p: nat)
    requires Inv(s) && p < |s.procs| && s.procs[p].state.RUNNING? && s.procs[p].pc.FreeScan?
    requires s.procs[p].pc.i < |s.procs| && MyThread(s, s.procs[p].pc.i, p) && !s.procs[s.procs[p].pc.i].state.ZOMBIE?
    ensures Inv(Goto(s, p, TpDoze))
  {
    hide Inv;
    Facts(s, p);
    var c := s.procs[p].pc.i;
    Facts(s, c);
    assert LiveThread(s.procs[c], p);
    Move(s, p, s.procs[p].(pc := TpDoze), s.lock);
  }

  lemma SleepStep(s: State, p: nat, pc: Pc)
    requires Inv(s) && p < |s.procs| && s.procs[p].state.RUNNING?
    requires var me := s.procs[p].pc; (me.TpDoze? && pc.TpSleep?) || (me.Doze? && pc == Asleep(me.threads))
    ensures Inv(Sleep(s, p, pc))
  {
    hide HasOwner;
    Facts(s, p);
    Move(s, p, s.procs[p].(state := SLEEPING, chan := OfProc(p), pc := pc), -1);
  }

  lemma ResumeStep(s: State, p: nat, pc: Pc)
    requires Inv(s) && p < |s.procs| && s.procs[p].state.RUNNING? && s.lock == -1
    requires var me := s.procs[p].pc;
      (me.TpSleep? && pc == FreeScan(0)) || (me.Asleep? && pc == Scan(me.threads, 0, false))
    ensures Inv(Resume(s, p, pc))
  {
    hide Inv;
    Facts(s, p);
    Move(s, p, s.procs[p].(chan := Nothing, pc := pc), p);
  }

  lemma ExitZombieStep(s: State, p: nat)
    requires Inv(s) && p < |s.procs| && s.procs[p].state.RUNNING? && s.procs[p].pc.ExitZombie?
    ensures Inv(RunStep(s, p))
  {
    hide HasOwner;
    Facts(s, p);
    Move(s, p, s.procs[p].(state := ZOMBIE, pc := ExitRelease), s.lock);
  }

  lemma ExitReleaseStep(s: State, p: nat)
    requires Inv(s) && p < |s.procs| && s.procs[p].pc.ExitRelease?
    ensures Inv(RunStep(s, p))
  {
    hide Inv;
    Facts(s, p);
    Move(s, p, s.procs[p].(pc := Dead), -1);
  }

  lemma ReparentEnd(s: State, p: nat)
    requires Inv(s) && p < |s.procs| && s.procs[p].state.RUNNING? && s.procs[p].pc.Reparent?
    requires var i := s.procs[p].pc.i; i >= |s.procs| || s.procs[i].parent != p || s.procs[i].isthread
    ensures Inv(RunStep(s, p))
  {
    hide Inv;
    Facts(s, p);
    Move(s, p, s.procs[p].(pc := RunStep(s, p).procs[p].pc), s.lock);
  }

  lemma ZombieUnmade(s: State, i: nat)
    requires Inv(s) && i < |s.procs| && !s.procs[i].state.USED?
    ensures Unmade(s.procs, i)
  {
    forall q | 0 <= q < |s.procs| ensures Makes(s.procs[q].pc) != i {
      assert MakingAt(s.procs, q);
    }
  }

  lemma FreeZombie(s: State, p: nat, i: nat)
    requires Inv(s) && p < |s.procs| && i < |s.procs| && s.procs[p].state.RUNNING? && s.lock == p
    requires !s.procs[p].pc.TpDoze?
    requires s.procs[i].parent == p && s.procs[i].state.ZOMBIE?
    ensures i != p && Inv(FreeProc(s, i))
  {
    Facts(s, i);
    ZombieUnmade(s, i);
    FreeSlot(s, i);
  }

  lemma FreeScanStep(s: State, p: nat)
    requires Inv(s) && p < |s.procs| && s.procs[p].state.RUNNING? && s.procs[p].pc.FreeScan?
    ensures Inv(RunStep(s, p))
  {
    hide Inv;
    var i := s.procs[p].pc.i;
    if i >= |s.procs| {
      FreeScanEnd(s, p);
    } else if !MyThread(s, i, p) {
      FreeScanOn(s, p);
    } else if !s.procs[i].state.ZOMBIE? {
      FreeScanFound(s, p);
    } else {
      Facts(s, p);
      FreeZombie(s, p, i);
      FreeScanOn(FreeProc(s, i), p);
    }
  }

  lemma ScanDone(s: State, p: nat)
    requires Inv(s) && p < |s.procs| && s.procs[p].state.RUNNING? && s.procs[p].pc.Scan?
    ensures Inv(Goto(s, p, User).(lock := -1))
  {
    hide Inv;
    Facts(s, p);
    Move(s, p, s.procs[p].(pc := User), -1);
  }

  lemma ScanStep(s: State, p: nat)
    requires Inv(s) && p < |s.procs| && s.procs[p].state.RUNNING? && s.procs[p].pc.Scan?
    ensures Inv(RunStep(s, p))
  {
    hide Inv;
    var i := s.procs[p].pc.i;
    if i >= |s.procs| {
      ScanEnd(s, p);
    } else if s.procs[i].parent != p || s.procs[i].isthread != s.procs[p].pc.threads || !s.procs[i].state.ZOMBIE? {
      ScanOn(s, p, s.procs[p].pc.have);
      ScanOn(s, p, true);
    } else {
      Facts(s, p);
      FreeZombie(s, p, i);
      ScanDone(FreeProc(s, i), p);
    }
  }

  // ----- Waking --------------------------------------------------------------------------------

  /** Only `q` itself ever sleeps on the channel of `q`, so the scan of `wakeup` changes at most that slot. */
  lemma WakeUpOne(s: State, me: nat, q: nat)
    requires Inv(s) && q < |s.procs| && me != q
    ensures WakeUp(s.procs, me, q) == if OnOwn(s.procs[q]) then s.procs[q := WakeOne(s.procs[q])] else s.procs
  {
    var w := WakeUp(s.procs, me, q);
    forall i | 0 <= i < |s.procs|
      ensures w[i] == if i == q && OnOwn(s.procs[q]) then WakeOne(s.procs[q]) else s.procs[i]
    {
      assert Local(s.procs[i], i, |s.procs|, s.lock, s.spaces, s.nextPid);
    }
  }

  lemma WakeStep(s: State, q: nat)
    requires Inv(s) && q < |s.procs| && OnOwn(s.procs[q])
    ensures Inv(Put(s, q, WakeOne(s.procs[q])))
  {
    Facts(s, q);
    Move(s, q, WakeOne(s.procs[q]), s.lock);
  }

  lemma AfterWake(s: State, me: nat, q: nat)
    requires Inv(s) && q < |s.procs| && me < |s.procs| && me != q
    ensures var t := s.(procs := WakeUp(s.procs, me, q));
      Inv(t) && !OnOwn(t.procs[q]) && t.procs[me] == s.procs[me]
  {
    WakeUpOne(s, me, q);
    hide Inv;
    if OnOwn(s.procs[q]) { WakeStep(s, q); }
  }

  lemma ReparentWakeEnd(s: State, p: nat)
    requires Inv(s) && p < |s.procs| && s.procs[p].state.RUNNING? && s.procs[p].pc.ReparentWake?
    requires !OnOwn(s.procs[INIT])
    ensures Inv(Goto(s, p, Reparent(s.procs[p].pc.i + 1)))
  {
    hide Inv;
    Facts(s, p);
    Facts(s, INIT);
    Move(s, p, s.procs[p].(pc := Reparent(s.procs[p].pc.i + 1)), s.lock);
  }

  lemma Exiter(s: State, p: nat)
    requires Inv(s) && p < |s.procs| && Exiting(s.procs[p].pc)
    ensures p != INIT && 0 <= s.procs[p].parent < |s.procs| && s.procs[p].parent != p
  {
    hide Inv;
    Facts(s, p);
  }

  lemma ReparentWakeStep(s: State, p: nat)
    requires Inv(s) && p < |s.procs| && s.procs[p].state.RUNNING? && s.procs[p].pc.ReparentWake?
    ensures Inv(RunStep(s, p))
  {
    hide Inv, WakeUp;
    Exiter(s, p);
    AfterWake(s, p, INIT);
    ReparentWakeEnd(s.(procs := WakeUp(s.procs, p, INIT)), p);
  }

  lemma ExitWakeEnd(s: State, p: nat)
    requires Inv(s) && p < |s.procs| && s.procs[p].state.RUNNING? && s.procs[p].pc.ExitWake?
    requires 0 <= s.procs[p].parent < |s.procs| && !OnOwn(s.procs[s.procs[p].parent])
    ensures Inv(Goto(s, p, ExitZombie))
  {
    hide Inv;
    Facts(s, p);
    Move(s, p, s.procs[p].(pc := ExitZombie), s.lock);
  }

  lemma ExitWakeStep(s: State, p: nat)
    requires Inv(s) && p < |s.procs| && s.procs[p].state.RUNNING? && s.procs[p].pc.ExitWake?
    ensures Inv(RunStep(s, p))
  {
    hide Inv, WakeUp;
    Exiter(s, p);
    var q := s.procs[p].parent;
    AfterWake(s, p, q);
    ExitWakeEnd(s.(procs := WakeUp(s.procs, p, q)), p);
  }

  // ----- Reparenting ---------------------------------------------------------------------------

  lemma AdoptChild(s: State, p: nat, i: nat)
    requires Inv(s) && p < |s.procs| && s.procs[p].state.RUNNING? && s.procs[p].pc == Reparent(i)
    requires i < |s.procs| && s.procs[i].parent == p && !s.procs[i].isthread
    ensures i != p && i != INIT && Child(s.procs[i].(parent := INIT), i, s.procs[INIT], INIT, true)
  {
    hide Inv;
    Facts(s, p);
    Facts(s, i);
    Facts(s, INIT);
  }

  lemma AdoptChildren(s: State, p: nat, i: nat)
    requires Inv(s) && p < |s.procs| && s.procs[p].state.RUNNING? && s.procs[p].pc == Reparent(i)
    requires i < |s.procs| && s.procs[i].parent == p && !s.procs[i].isthread
    ensures Children(RunStep(s, p).procs, s.lock) && RunStep(s, p).lock == s.lock
  {
    var t := RunStep(s, p);
    AdoptChild(s, p, i);
    Facts(s, p);
    assert !Waking(s.procs, s.lock) && Waking(t.procs, t.lock);
    forall c | 0 <= c < |t.procs| ensures ChildAt(t.procs, c, true) {
      assert ChildAt(s.procs, c, false);
      if c == i {
        Facts(s, INIT);
      }
    }
  }

  lemma AdoptLocals(s: State, p: nat, i: nat)
    requires Inv(s) && p < |s.procs| && s.procs[p].state.RUNNING? && s.procs[p].pc == Reparent(i)
    requires i < |s.procs| && s.procs[i].parent == p && !s.procs[i].isthread && i != p && i != INIT
    ensures Locals(RunStep(s, p))
  {
    hide HasOwner;
    Facts(s, p);
  }

  lemma AdoptMakings(s: State, p: nat, i: nat)
    requires Inv(s) && p < |s.procs| && s.procs[p].state.RUNNING? && s.procs[p].pc == Reparent(i)
    requires i < |s.procs| && s.procs[i].parent == p && !s.procs[i].isthread && i != p && i != INIT
    ensures Makings(RunStep(s, p).procs)
  {
    var t := RunStep(s, p);
    forall q | 0 <= q < |t.procs| ensures MakingAt(t.procs, q) {
      assert MakingAt(s.procs, q);
    }
  }

  lemma AdoptRest(s: State, p: nat, i: nat)
    requires Inv(s) && p < |s.procs| && s.procs[p].state.RUNNING? && s.procs[p].pc == Reparent(i)
    requires i < |s.procs| && s.procs[i].parent == p && !s.procs[i].isthread && i != p && i != INIT
    ensures var t := RunStep(s, p);
      |t.procs| == |s.procs| && t.lock == s.lock && SpacesOk(t.procs, t.spaces, t.nextSpace) && Awaited(t.procs)
  {
    hide Locals, Children, Makings, Awaited;
    AwaitedKeep(s.procs, RunStep(s, p).procs);
    OwnersKeep(s.procs, RunStep(s, p).procs, s.spaces);
    hide HasOwner;
  }

  lemma ReparentStep(s: State, p: nat)
    requires Inv(s) && p < |s.procs| && s.procs[p].state.RUNNING? && s.procs[p].pc.Reparent?
    ensures Inv(RunStep(s, p))
  {
    var i := s.procs[p].pc.i;
    if i >= |s.procs| || s.procs[i].parent != p || s.procs[i].isthread {
      ReparentEnd(s, p);
    } else {
      AdoptChild(s, p, i);
      AdoptChildren(s, p, i);
      AdoptLocals(s, p, i);
      AdoptMakings(s, p, i);
      AdoptRest(s, p, i);
      hide Locals, Children, Makings, Awaited, SpacesOk, RunStep;
    }
  }

  // ----- Making processes and threads ----------------------------------------------------------

  lemma AllocSlot(s: State, np: nat, isthread: bool)
    requires Inv(s) && np < |s.procs| && s.procs[np].state.UNUSED?
    ensures Inv(AllocProc(s, np, isthread)) && Unmade(AllocProc(s, np, isthread).procs, np)
  {
    hide Locals, Children, Makings, SpacesOk, Awaited;
    AllocChildren(s, np, isthread);
    AllocMakings(s, np, isthread);
    AllocAwaited(s, np, isthread);
    AllocLocals(s, np, isthread);
    AllocSpaces(s, np, isthread);
  }

  lemma AllocChildren(s: State, np: nat, isthread: bool)
    requires Inv(s) && np < |s.procs| && s.procs[np].state.UNUSED?
    ensures Children(AllocProc(s, np, isthread).procs, s.lock)
  {
    hide Locals, Makings, SpacesOk, Awaited;
    var t := AllocProc(s, np, isthread);
    Facts(s, np);
    var w := Waking(s.procs, s.lock);
    forall c | 0 <= c < |t.procs| ensures ChildAt(t.procs, c, w) {
      assert ChildAt(s.procs, c, w);
    }
  }

  lemma AllocMakings(s: State, np: nat, isthread: bool)
    requires Inv(s) && np < |s.procs| && s.procs[np].state.UNUSED?
    ensures Makings(AllocProc(s, np, isthread).procs) && Unmade(AllocProc(s, np, isthread).procs, np)
  {
    hide Locals, Children, SpacesOk, Awaited, Child;
    var t := AllocProc(s, np, isthread);
    Facts(s, np);
    ZombieUnmade(s, np);
    forall q | 0 <= q < |t.procs| ensures MakingAt(t.procs, q) {
      assert MakingAt(s.procs, q);
    }
  }

  lemma AllocAwaited(s: State, np: nat, isthread: bool)
    requires Inv(s) && np < |s.procs| && s.procs[np].state.UNUSED?
    ensures Awaited(AllocProc(s, np, isthread).procs)
  {
    hide Child;
    Facts(s, np);
    hide Locals, Children, Makings, SpacesOk, Awaited, ChildAt, MakingAt;
    AwaitedKeep(s.procs, AllocProc(s, np, isthread).procs);
  }

  lemma AllocLocals(s: State, np: nat, isthread: bool)
    requires Inv(s) && np < |s.procs| && s.procs[np].state.UNUSED?
    ensures Locals(AllocProc(s, np, isthread))
  {
    Facts(s, np);
  }

  lemma AllocSpaces(s: State, np: nat, isthread: bool)
    requires Inv(s) && np < |s.procs| && s.procs[np].state.UNUSED?
    ensures var t := AllocProc(s, np, isthread); SpacesOk(t.procs, t.spaces, t.nextSpace)
  {
    forall i | 0 <= i < |s.procs| && Owns(s.procs[i]) ensures s.procs[i].space < s.nextSpace {
      Facts(s, i);
    }
    var t := AllocProc(s, np, isthread);
    OwnersKeep(s.procs, t.procs, s.spaces);
    if !isthread {
      assert Owns(t.procs[np]) && t.procs[np].space == s.nextSpace;
    }
  }

  lemma StartMaking(s: State, p: nat, np: nat, pc: Pc)
    requires Inv(s) && p < |s.procs| && np < |s.procs| && s.procs[p].state.RUNNING? && s.procs[p].pc.User?
    requires Unmade(s.procs, np) && (pc == CloneLink(np) || pc == ForkLink(np))
    requires s.procs[np].state.USED? && s.procs[np].parent == -1 && s.procs[np].isthread == pc.CloneLink?
    requires s.procs[p].pid < s.procs[np].pid
    ensures Inv(Goto(s, p, pc))
  {
    StartMakings(s, p, np, pc);
    Facts(s, p);
    hide Makings, Children, SpacesOk, Awaited, MakingAt;
    MoveMaking(s, p, s.procs[p].(pc := pc), s.lock);
  }

  lemma StartMakings(s: State, p: nat, np: nat, pc: Pc)
    requires Inv(s) && p < |s.procs| && np < |s.procs| && s.procs[p].state.RUNNING? && s.procs[p].pc.User?
    requires Unmade(s.procs, np) && (pc == CloneLink(np) || pc == ForkLink(np))
    requires s.procs[np].state.USED? && s.procs[np].parent == -1 && s.procs[np].isthread == pc.CloneLink?
    requires s.procs[p].pid < s.procs[np].pid
    ensures Makings(s.procs[p := s.procs[p].(pc := pc)])
  {
    hide Children, SpacesOk, Awaited, Child;
    Facts(s, p);
    Facts(s, np);
    hide Locals, ChildAt;
    var procs' := s.procs[p := s.procs[p].(pc := pc)];
    forall q | 0 <= q < |procs'| ensures MakingAt(procs', q) {
      assert MakingAt(s.procs, q);
    }
  }

  /** The slot after the parent is set. */
  function LinkedSlot(s: State, p: nat, np: nat): Proc
    requires p < |s.procs| && np < |s.procs|
  {
    var q := s.procs[np].(parent := p);
    if s.procs[p].pc.CloneLink? then q.(space := s.procs[p].space) else q
  }

  lemma LinkMakings(s: State, p: nat, np: nat)
    requires Inv(s) && p < |s.procs| && np < |s.procs| && s.procs[p].state.RUNNING?
    requires s.procs[p].pc == CloneLink(np) || s.procs[p].pc == ForkLink(np)
    ensures Makings(s.procs[np := LinkedSlot(s, p, np)]) && np != p && s.procs[np].state.USED? && np != INIT
    ensures s.procs[np].isthread == s.procs[p].pc.CloneLink? && s.procs[p].pid < s.procs[np].pid
    ensures s.procs[np].parent == -1 || s.procs[np].parent == p
  {
    var procs' := s.procs[np := LinkedSlot(s, p, np)];
    assert MakingAt(s.procs, p);
    forall q | 0 <= q < |procs'| ensures MakingAt(procs', q) {
      assert MakingAt(s.procs, q);
    }
  }

  lemma LinkChildren(s: State, p: nat, np: nat)
    requires Inv(s) && p < |s.procs| && np < |s.procs| && s.procs[p].state.RUNNING? && np != p
    requires s.procs[p].pc == CloneLink(np) || s.procs[p].pc == ForkLink(np)
    requires s.procs[np].isthread == s.procs[p].pc.CloneLink? && s.procs[p].pid < s.procs[np].pid
    requires s.procs[np].state.USED?
    ensures Children(s.procs[np := LinkedSlot(s, p, np)], s.lock)
  {
    Facts(s, np);
    var w, procs' := Waking(s.procs, s.lock), s.procs[np := LinkedSlot(s, p, np)];
    forall c | 0 <= c < |procs'| ensures ChildAt(procs', c, w) {
      assert ChildAt(s.procs, c, w);
    }
  }

  lemma LinkLocals(s: State, p: nat, np: nat)
    requires Locals(s) && p < |s.procs| && np < |s.procs| && np != p && s.procs[np].state.USED? && np != INIT
    requires s.procs[np].isthread == s.procs[p].pc.CloneLink?
    ensures Locals(Put(s, np, LinkedSlot(s, p, np)))
  {
  }

  lemma LinkRest(s: State, p: nat, np: nat)
    requires Inv(s) && p < |s.procs| && np < |s.procs| && np != p && s.procs[np].state.USED? && np != INIT
    requires s.procs[np].isthread == s.procs[p].pc.CloneLink? && (s.procs[np].parent == -1 || s.procs[np].parent == p)
    ensures SpacesOk(s.procs[np := LinkedSlot(s, p, np)], s.spaces, s.nextSpace)
    ensures Awaited(s.procs[np := LinkedSlot(s, p, np)])
  {
    hide Child;
    Facts(s, np);
    hide Children, Makings, ChildAt, MakingAt, Locals;
    LinkAwaited(s, p, np);
    hide Awaited;
    OwnersKeep(s.procs, s.procs[np := LinkedSlot(s, p, np)], s.spaces);
    hide HasOwner;
  }

  lemma LinkAwaited(s: State, p: nat, np: nat)
    requires p < |s.procs| && np < |s.procs| && Awaited(s.procs)
    requires s.procs[np].parent == -1 || s.procs[np].parent == p
    ensures Awaited(s.procs[np := LinkedSlot(s, p, np)])
  {
    hide Awaited;
    AwaitedKeep(s.procs, s.procs[np := LinkedSlot(s, p, np)]);
  }

  /** The new slot gets its parent, and a thread the parent's page table. */
  lemma LinkSlot(s: State, p: nat, np: nat)
    requires Inv(s) && p < |s.procs| && np < |s.procs| && s.procs[p].state.RUNNING?
    requires s.procs[p].pc == CloneLink(np) || s.procs[p].pc == ForkLink(np)
    ensures Inv(Put(s, np, LinkedSlot(s, p, np))) && np != p && s.procs[np].state.USED?
  {
    LinkMakings(s, p, np);
    LinkChildren(s, p, np);
    LinkRest(s, p, np);
    LinkLocals(s, p, np);
    hide Children, Makings, Awaited, Locals, SpacesOk;
  }

  lemma MakesDone(s: State, p: nat, np: nat, pc: Pc)
    requires Inv(s) && p < |s.procs| && np < |s.procs| && s.procs[p].state.RUNNING? && s.procs[np].parent == p
    requires (s.procs[p].pc == CloneLink(np) && pc == CloneDone(np))
             || (s.procs[p].pc == ForkLink(np) && pc == ForkDone(np))
    ensures Inv(Goto(s, p, pc))
  {
    DoneMakings(s, p, np, pc);
    Facts(s, p);
    hide Makings, Children, SpacesOk, Awaited, MakingAt;
    MoveMaking(s, p, s.procs[p].(pc := pc), s.lock);
  }

  lemma DoneMakings(s: State, p: nat, np: nat, pc: Pc)
    requires Inv(s) && p < |s.procs| && np < |s.procs| && s.procs[p].state.RUNNING? && s.procs[np].parent == p
    requires (s.procs[p].pc == CloneLink(np) && pc == CloneDone(np))
             || (s.procs[p].pc == ForkLink(np) && pc == ForkDone(np))
    ensures Makings(s.procs[p := s.procs[p].(pc := pc)])
  {
    hide Locals, Children, SpacesOk, Awaited;
    var procs' := s.procs[p := s.procs[p].(pc := pc)];
    forall q | 0 <= q < |procs'| ensures MakingAt(procs', q) {
      assert MakingAt(s.procs, q);
    }
  }

  /** The maker lets go of the slot. */
  lemma MakeEnd(s: State, p: nat, np: nat)
    requires Inv(s) && p < |s.procs| && s.procs[p].state.RUNNING?
    requires (s.procs[p].pc == CloneDone(np) || s.procs[p].pc == ForkDone(np))
    ensures Inv(Goto(s, p, User)) && Unmade(Goto(s, p, User).procs, np)
    ensures np < |s.procs| && np != p && s.procs[np].state.USED? && s.procs[np].parent == p && np != INIT
  {
    hide HasOwner;
    Facts(s, p);
    Move(s, p, s.procs[p].(pc := User), s.lock);
    forall q | 0 <= q < |s.procs| && q != p ensures Makes(s.procs[q].pc) != np {
      assert Makes(s.procs[p].pc) == np;
    }
  }

  lemma MakeRunnable(s: State, np: nat)
    requires Inv(s) && np < |s.procs| && Unmade(s.procs, np) && s.procs[np].state.USED? && s.procs[np].parent >= 0
    requires np != INIT
    ensures Inv(Put(s, np, s.procs[np].(state := RUNNABLE)))
  {
    Facts(s, np);
    Move(s, np, s.procs[np].(state := RUNNABLE), s.lock);
  }

  lemma MakeStep(s: State, p: nat)
    requires Inv(s) && p < |s.procs| && s.procs[p].state.RUNNING?
    requires (s.procs[p].pc.CloneDone? || s.procs[p].pc.ForkDone?)
    ensures Inv(RunStep(s, p))
  {
    hide Inv, WakeUp, Unmade;
    var np := s.procs[p].pc.np;
    MakeEnd(s, p, np);
    var t := Goto(s, p, User);
    MakeRunnable(t, np);
    assert Put(t, np, t.procs[np].(state := RUNNABLE)).procs == RunStep(s, p).procs;
  }

  lemma LinkStep(s: State, p: nat)
    requires Inv(s) && p < |s.procs| && s.procs[p].state.RUNNING?
    requires (s.procs[p].pc.CloneLink? || s.procs[p].pc.ForkLink?)
    ensures Inv(RunStep(s, p))
  {
    hide Inv, WakeUp;
    var np := s.procs[p].pc.np;
    if np < |s.procs| {
      LinkSlot(s, p, np);
      MakesDone(Put(s, np, LinkedSlot(s, p, np)), p, np,
                if s.procs[p].pc.CloneLink? then CloneDone(np) else ForkDone(np));
    }
  }

  lemma FailKeeps(s: State, p: nat)
    requires Inv(s) && p < |s.procs| && s.procs[p].state.RUNNING?
    ensures Inv(FailStep(s, p))
  {
    hide Inv, Unmade;
    if s.procs[p].pc.CloneDone? {
      var np := s.procs[p].pc.np;
      MakeEnd(s, p, np);
      var t := Goto(s, p, User);
      FreeUsed(t, p, np);
      assert Goto(FreeProc(s, np), p, User).procs == FreeProc(t, np).procs;
    } else if s.procs[p].pc.Scan? {
      ScanDone(s, p);
    }
  }

  lemma FreeUsed(s: State, p: nat, np: nat)
    requires Inv(s) && p < |s.procs| && np < |s.procs| && Unmade(s.procs, np) && s.procs[np].state.USED?
    requires s.procs[np].parent == p
    requires s.procs[p].pc.User?
    ensures Inv(FreeProc(s, np))
  {
    Facts(s, np);
    FreeSlot(s, np);
  }

  lemma PidBelow(s: State, p: nat)
    requires Inv(s) && p < |s.procs| && !s.procs[p].state.UNUSED?
    ensures s.procs[p].pid < s.nextPid
  {
    hide Inv;
    Facts(s, p);
  }

  lemma UnusedParent(s: State, np: nat)
    requires Inv(s) && np < |s.procs| && s.procs[np].state.UNUSED?
    ensures s.procs[np].parent == -1
  {
    Facts(s, np);
  }

  lemma EnterKeeps(s: State, p: nat, c: Call)
    requires Inv(s) && p < |s.procs| && s.procs[p].state.RUNNING? && s.procs[p].pc.User?
    ensures Inv(EnterCall(s, p, c))
  {
    hide Inv, Unmade;
    if (c.Clone? || c.Fork?) && c.np < |s.procs| && s.procs[c.np].state.UNUSED? {
      AllocSlot(s, c.np, c.Clone?);
      PidBelow(s, p);
      UnusedParent(s, c.np);
      StartMaking(AllocProc(s, c.np, c.Clone?), p, c.np, if c.Clone? then CloneLink(c.np) else ForkLink(c.np));
    } else if c.Exit? && p != INIT {
      WantStep(s, p, TpWant);
    } else if c.Wait? {
      WantStep(s, p, WaitWant(c.threads));
    } else if c.SleepElsewhere? {
      SleepElsewhereStep(s, p);
    }
  }

  lemma RunKeeps(s: State, p: nat)
    requires Inv(s) && p < |s.procs| && (s.procs[p].state.RUNNING? || s.procs[p].pc.ExitRelease?)
    ensures Inv(RunStep(s, p))
  {
    hide Inv, WakeUp;
    match s.procs[p].pc
    case User =>
    case CloneLink(_) => LinkStep(s, p);
    case CloneDone(_) => MakeStep(s, p);
    case ForkLink(_) => LinkStep(s, p);
    case ForkDone(_) => MakeStep(s, p);
    case TpWant => if s.lock == -1 { AcquireStep(s, p, KillScan(0)); }
    case KillScan(_) => KillScanStep(s, p);
    case FreeScan(_) => FreeScanStep(s, p);
    case TpDoze => SleepStep(s, p, TpSleep);
    case TpSleep => if s.lock == -1 { ResumeStep(s, p, FreeScan(0)); }
    case ExitWant => if s.lock == -1 { AcquireStep(s, p, Reparent(0)); }
    case Reparent(_) => ReparentStep(s, p);
    case ReparentWake(_) => ReparentWakeStep(s, p);
    case ExitWake => ExitWakeStep(s, p);
    case ExitZombie => ExitZombieStep(s, p);
    case ExitRelease => ExitReleaseStep(s, p);
    case Dead =>
    case WaitWant(threads) => if s.lock == -1 { AcquireStep(s, p, Scan(threads, 0, false)); }
    case Scan(_, _, _) => ScanStep(s, p);
    case Doze(threads) => SleepStep(s, p, Asleep(threads));
    case Asleep(threads) => if s.lock == -1 { ResumeStep(s, p, Scan(threads, 0, false)); }
  }

  /** Every step keeps the invariant. */
  lemma StepKeepsInv(s: State, e: Event)
    requires Inv(s)
    ensures Inv(Step(s, e))
  {
    hide Inv, WakeUp;
    if e.p < |s.procs| {
      var me := s.procs[e.p];
      match e
      case Enter(p, c) => if me.state.RUNNING? && me.pc.User? { EnterKeeps(s, p, c); }
      case Run(p) => if me.state.RUNNING? || me.pc.ExitRelease? { RunKeeps(s, p); }
      case Fail(p) => if me.state.RUNNING? { FailKeeps(s, p); }
      case Schedule(p) => ScheduleStep(s, p);
      case Preempt(p) => PreemptStep(s, p);
      case Kill(p) => KillStep(s, p);
      case WakeElsewhere(p) => WakeElsewhereStep(s, p);
    }
  }
}
