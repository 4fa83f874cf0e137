/** Processes and threads of lab6/kernel/proc.c: clone, fork, exit, tpkill, wait and join around
    `wait_lock`, for any number of slots and any interleaving.

    Every slot of the process table carries a program counter.  A step is one iteration of a scan
    under `wait_lock`, one critical section of a `p->lock`, or one lock operation.  A thread is a
    slot with `isthread`; it uses the page table of the process that cloned it, directly or through
    other threads. */
module Threads {

  datatype RunState = UNUSED | USED | SLEEPING | RUNNABLE | RUNNING | ZOMBIE

  datatype Chan = Nothing | OfProc(slot: nat) | Elsewhere

  /** What a process does next inside the kernel; `threads` tells `join` from `wait`. */
  datatype Pc =
    | User
    | CloneLink(np: nat)                              // fill in the slot allocproc returned
    | CloneDone(np: nat)
    | ForkLink(np: nat)                               // wants wait_lock to set np->parent
    | ForkDone(np: nat)
    | TpWant                                          // tpkill: wants wait_lock
    | KillScan(i: nat)
    | FreeScan(i: nat)
    | TpDoze                                          // holds wait_lock, about to sleep
    | TpSleep
    | ExitWant
    | Reparent(i: nat)
    | ReparentWake(i: nat)                            // wakeup(initproc)
    | ExitWake                                        // wakeup(p->parent)
    | ExitZombie
    | ExitRelease
    | Dead
    | WaitWant(threads: bool)
    | Scan(threads: bool, i: nat, have: bool)
    | Doze(threads: bool)
    | Asleep(threads: bool)

  /** A slot; `parent` is -1 for none, `space` names the page table and shared record, 0 for none. */
  datatype Proc = Proc(state: RunState, chan: Chan, killed: bool, parent: int, isthread: bool,
                       space: nat, pid: nat, pc: Pc)

  const INIT: nat := 0

  /** `lock` is the holder of `wait_lock`, -1 for none; `spaces` the page tables not yet freed. */
  datatype State = State(procs: seq<Proc>, lock: int, spaces: set<nat>, nextPid: nat, nextSpace: nat)

  datatype Call = Clone(np: nat) | Fork(np: nat) | Exit | Wait(threads: bool) | SleepElsewhere

  datatype Event =
    | Enter(p: nat, call: Call)
    | Run(p: nat)
    | Fail(p: nat)           // the page-table slot search of clone, or copyout, fails
    | Schedule(p: nat)
    | Preempt(p: nat)
    | Kill(p: nat)
    | WakeElsewhere(p: nat)

  // ----- Steps ---------------------------------------------------------------------------------

  function Goto(s: State, p: nat, pc: Pc): State
    requires p < |s.procs|
  {
    s.(procs := s.procs[p := s.procs[p].(pc := pc)])
  }

  function Put(s: State, i: nat, q: Proc): State
    requires i < |s.procs|
  {
    s.(procs := s.procs[i := q])
  }

  function Blank(): Proc {
    Proc(UNUSED, Nothing, false, -1, false, 0, 0, User)
  }

  /** `freeproc` (proc.c:164-185): a thread leaves the page table alone. */
  function FreeProc(s: State, i: nat): State
    requires i < |s.procs|
  {
    var q := s.procs[i];
    var s1 := Put(s, i, Blank());
    if q.space != 0 && !q.isthread then s1.(spaces := s.spaces - {q.space}) else s1
  }

  /** `wakeup` (proc.c:750-764). */
  function WakeUp(procs: seq<Proc>, me: nat, q: int): (r: seq<Proc>)
    ensures |r| == |procs|
  {
    seq(|procs|, i requires 0 <= i < |procs| =>
      if i != me && procs[i].state.SLEEPING? && procs[i].chan.OfProc? && procs[i].chan.slot == q
      then procs[i].(state := RUNNABLE)
      else procs[i])
  }

  function WakeOne(q: Proc): Proc { if q.state.SLEEPING? then q.(state := RUNNABLE) else q }

  predicate MyThread(s: State, i: nat, p: nat)
    requires i < |s.procs|
  {
    s.procs[i].parent == p && s.procs[i].isthread
  }

  /** `allocproc` (proc.c:110-158) takes an unused slot; a thread gets no page table of its own.
      The slot keeps its `killed` flag. */
  function AllocProc(s: State, np: nat, isthread: bool): State
    requires np < |s.procs|
  {
    var q := s.procs[np].(state := USED, pid := s.nextPid, isthread := isthread,
                          space := if isthread then 0 else s.nextSpace);
    var s1 := Put(s, np, q).(nextPid := s.nextPid + 1);
    if isthread then s1 else s1.(spaces := s.spaces + {s.nextSpace}, nextSpace := s.nextSpace + 1)
  }

  function Acquire(s: State, p: nat, pc: Pc): State
    requires p < |s.procs|
  {
    if s.lock != -1 then s else Goto(s, p, pc).(lock := p)
  }

  /** `sleep(p, &wait_lock)`: from the moment `wait_lock` is free the sleeper is on its channel,
      since `p->lock` is held from before the release until `sched` (proc.c:719-746). */
  function Sleep(s: State, p: nat, pc: Pc): State
    requires p < |s.procs|
  {
    Put(s, p, s.procs[p].(state := SLEEPING, chan := OfProc(p), pc := pc)).(lock := -1)
  }

  /** A sleeper that was woken and scheduled takes `wait_lock` again. */
  function Resume(s: State, p: nat, pc: Pc): State
    requires p < |s.procs|
  {
    if s.lock != -1 then s else Put(s, p, s.procs[p].(chan := Nothing, pc := pc)).(lock := p)
  }

  function EnterCall(s: State, p: nat, c: Call): State
    requires p < |s.procs|
  {
    match c
    case Clone(np) =>
      if np < |s.procs| && s.procs[np].state.UNUSED? then Goto(AllocProc(s, np, true), p, CloneLink(np)) else s
    case Fork(np) =>
      if np < |s.procs| && s.procs[np].state.UNUSED? then Goto(AllocProc(s, np, false), p, ForkLink(np)) else s
    case Exit => if p == INIT then s else Goto(s, p, TpWant)
    case Wait(threads) => Goto(s, p, WaitWant(threads))
    case SleepElsewhere => Put(s, p, s.procs[p].(state := SLEEPING, chan := Elsewhere))
  }

  function RunStep(s: State, p: nat): State
    requires p < |s.procs|
  {
    var me, n := s.procs[p], |s.procs|;
    match me.pc
    case User => s
    case CloneLink(np) =>
      if np >= n then s
      else Goto(Put(s, np, s.procs[np].(space := me.space, parent := p)), p, CloneDone(np))
    case CloneDone(np) =>
      if np >= n then s else Goto(Put(s, np, s.procs[np].(state := RUNNABLE)), p, User)
    case ForkLink(np) =>
      if np >= n || s.lock != -1 then s else Goto(Put(s, np, s.procs[np].(parent := p)), p, ForkDone(np))
    case ForkDone(np) =>
      if np >= n then s else Goto(Put(s, np, s.procs[np].(state := RUNNABLE)), p, User)
    case TpWant => Acquire(s, p, KillScan(0))
    case KillScan(i) =>
      if i >= n then Goto(s, p, FreeScan(0))
      else if MyThread(s, i, p) then Goto(Put(s, i, WakeOne(s.procs[i].(killed := true))), p, KillScan(i + 1))
      else Goto(s, p, KillScan(i + 1))
    case FreeScan(i) =>
      if i >= n then Goto(s, p, ExitWant).(lock := -1)
      else if !MyThread(s, i, p) then Goto(s, p, FreeScan(i + 1))
      else if !s.procs[i].state.ZOMBIE? then Goto(s, p, TpDoze)
      else Goto(FreeProc(s, i), p, FreeScan(i + 1))
    case TpDoze => Sleep(s, p, TpSleep)
    case TpSleep => Resume(s, p, FreeScan(0))
    case ExitWant => Acquire(s, p, Reparent(0))
    case Reparent(i) =>
      if i >= n then Goto(s, p, ExitWake)
      else if s.procs[i].parent == p && !s.procs[i].isthread then
        Goto(Put(s, i, s.procs[i].(parent := INIT)), p, ReparentWake(i))
      else Goto(s, p, Reparent(i + 1))
    case ReparentWake(i) => Goto(s.(procs := WakeUp(s.procs, p, INIT)), p, Reparent(i + 1))
    case ExitWake => Goto(s.(procs := WakeUp(s.procs, p, me.parent)), p, ExitZombie)
    case ExitZombie => Put(s, p, me.(state := ZOMBIE, pc := ExitRelease))
    case ExitRelease => Goto(s, p, Dead).(lock := -1)
    case Dead => s
    case WaitWant(threads) => Acquire(s, p, Scan(threads, 0, false))
    case Scan(threads, i, have) =>
      if i >= n then
        if !have || me.killed then Goto(s, p, User).(lock := -1) else Goto(s, p, Doze(threads))
      else if s.procs[i].parent != p || s.procs[i].isthread != threads then Goto(s, p, Scan(threads, i + 1, have))
      else if s.procs[i].state.ZOMBIE? then Goto(FreeProc(s, i), p, User).(lock := -1)
      else Goto(s, p, Scan(threads, i + 1, true))
    case Doze(threads) => Sleep(s, p, Asleep(threads))
    case Asleep(threads) => Resume(s, p, Scan(threads, 0, false))
  }

  function FailStep(s: State, p: nat): State
    requires p < |s.procs|
  {
    match s.procs[p].pc
    case CloneDone(np) => if np >= |s.procs| then s else Goto(FreeProc(s, np), p, User)
    case Scan(threads, i, _) =>
      if i < |s.procs| && s.procs[i].parent == p && s.procs[i].isthread == threads && s.procs[i].state.ZOMBIE? then
        Goto(s, p, User).(lock := -1)
      else s
    case _ => s
  }

  /** One step of the system; an event that does not apply leaves the state alone. */
  function Step(s: State, e: Event): State {
    if e.p >= |s.procs| then s
    else
      var me := s.procs[e.p];
      match e
      case Enter(p, c) => if me.state.RUNNING? && me.pc.User? then EnterCall(s, p, c) else s
      case Run(p) => if me.state.RUNNING? || me.pc.ExitRelease? then RunStep(s, p) else s
      case Fail(p) => if me.state.RUNNING? then FailStep(s, p) else s
      case Schedule(p) => if me.state.RUNNABLE? then Put(s, p, me.(state := RUNNING)) else s
      case Preempt(p) => if me.state.RUNNING? && s.lock != p then Put(s, p, me.(state := RUNNABLE)) else s
      case Kill(p) => Put(s, p, WakeOne(me.(killed := true)))
      case WakeElsewhere(p) => if me.state.SLEEPING? && me.chan.Elsewhere? then Put(s, p, WakeOne(me)) else s
  }

  // ----- Invariant -----------------------------------------------------------------------------

  predicate Live(q: Proc) { q.state.SLEEPING? || q.state.RUNNABLE? || q.state.RUNNING? }

  predicate Holding(pc: Pc) {
    pc.KillScan? || pc.FreeScan? || pc.TpDoze? || pc.Reparent? || pc.ReparentWake? || pc.ExitWake?
    || pc.ExitZombie? || pc.ExitRelease? || pc.Scan? || pc.Doze?
  }

  predicate Exiting(pc: Pc) {
    pc.TpWant? || pc.KillScan? || pc.FreeScan? || pc.TpDoze? || pc.TpSleep? || pc.ExitWant? || pc.Reparent?
    || pc.ReparentWake? || pc.ExitWake? || pc.ExitZombie? || pc.ExitRelease? || pc.Dead?
  }

  /** Asleep in wait, join or tpkill. */
  predicate OnOwn(q: Proc) { q.state.SLEEPING? && !q.chan.Elsewhere? }

  ghost predicate StateOk(q: Proc, i: nat, lock: int) {
    && (q.state.ZOMBIE? <==> q.pc.ExitRelease? || q.pc.Dead?)
    && (q.state.USED? ==> q.pc.User? && q.chan.Nothing?)
    && (q.state.SLEEPING? ==>
          (q.pc.User? && q.chan.Elsewhere?) || ((q.pc.TpSleep? || q.pc.Asleep?) && q.chan == OfProc(i)))
    && (Holding(q.pc) <==> lock == i)
    && (Holding(q.pc) && !q.pc.ExitRelease? ==> q.state.RUNNING?)
    && (i == INIT ==> Live(q) && !q.isthread && q.parent == -1 && !Exiting(q.pc))
    && (i != INIT && (Live(q) || q.state.ZOMBIE?) ==> q.parent >= 0)
  }

  ghost predicate Local(q: Proc, i: nat, n: nat, lock: int, spaces: set<nat>, nextPid: nat) {
    if q.state.UNUSED? then
      q.parent == -1 && !q.isthread && q.space == 0 && q.chan.Nothing? && q.pc.User? && i != INIT && lock != i
    else
      && q.pid < nextPid && -1 <= q.parent < n
      && (!q.isthread ==> q.space != 0 && q.space in spaces)
      && (q.isthread && q.parent == -1 ==> q.state.USED? && q.space == 0)
      && StateOk(q, i, lock)
  }

  /** tpkill has set `killed` on slot `c` if it is its thread. */
  predicate PastKill(pc: Pc, c: nat) {
    (pc.KillScan? && c < pc.i) || pc.FreeScan? || pc.TpDoze? || pc.TpSleep?
  }

  predicate PastFree(pc: Pc, c: nat) {
    (pc.FreeScan? && c < pc.i) || pc.ExitWant? || pc.Reparent? || pc.ReparentWake? || pc.ExitWake? || pc.ExitZombie?
  }

  predicate PastReparent(pc: Pc, c: nat) {
    (pc.Reparent? && c < pc.i) || (pc.ReparentWake? && c <= pc.i) || pc.ExitWake? || pc.ExitZombie?
  }

  /** Process `q` knows that slot `c` is no zombie it waits for, or sleeps in that belief. */
  predicate Believes(q: Proc, c: nat, threads: bool) {
    || (q.pc.Scan? && q.pc.threads == threads && c < q.pc.i)
    || (q.pc.Doze? && q.pc.threads == threads)
    || (q.pc.Asleep? && q.pc.threads == threads && q.state.SLEEPING?)
  }

  /** What ties slot `ci` to its parent `q`; `waking` while a zombie handed to init is not announced yet. */
  ghost predicate Child(c: Proc, ci: nat, q: Proc, qi: nat, waking: bool) {
    && Live(q) && ci != qi
    && (c.isthread ==> c.space == q.space && q.pid < c.pid && !PastFree(q.pc, ci))
    && (!c.isthread ==> !PastReparent(q.pc, ci))
    && (c.isthread && PastKill(q.pc, ci) ==> c.killed && !c.pc.Doze? && !(c.pc.Asleep? && c.state.SLEEPING?))
    && (Believes(q, ci, c.isthread) ==> !c.state.ZOMBIE? || (waking && qi == INIT && OnOwn(q)))
    && (c.pc.ExitZombie? ==> !OnOwn(q))
  }

  /** The slot a process is filling in. */
  function Makes(pc: Pc): int {
    match pc
    case CloneLink(np) => np
    case CloneDone(np) => np
    case ForkLink(np) => np
    case ForkDone(np) => np
    case _ => -1
  }

  ghost predicate Making(q: Proc, qi: nat, c: Proc, ci: nat) {
    && c.state.USED? && ci != qi && ci != INIT
    && c.isthread == (q.pc.CloneLink? || q.pc.CloneDone?)
    && (c.parent == qi || (c.parent == -1 && (q.pc.CloneLink? || q.pc.ForkLink?)))
    && q.pid < c.pid
  }

  predicate Waking(procs: seq<Proc>, lock: int) {
    0 <= lock < |procs| && procs[lock].pc.ReparentWake?
  }

  ghost predicate Locals(s: State) {
    forall i :: 0 <= i < |s.procs| ==> Local(s.procs[i], i, |s.procs|, s.lock, s.spaces, s.nextPid)
  }

  ghost predicate ChildAt(procs: seq<Proc>, c: nat, waking: bool)
    requires c < |procs|
  {
    procs[c].parent >= 0 ==>
      procs[c].parent < |procs| && Child(procs[c], c, procs[procs[c].parent], procs[c].parent, waking)
  }

  ghost predicate Children(procs: seq<Proc>, lock: int) {
    forall c :: 0 <= c < |procs| ==> ChildAt(procs, c, Waking(procs, lock))
  }

  ghost predicate MakingAt(procs: seq<Proc>, q: nat)
    requires q < |procs|
  {
    Makes(procs[q].pc) >= 0 ==>
      Makes(procs[q].pc) < |procs| && Making(procs[q], q, procs[Makes(procs[q].pc)], Makes(procs[q].pc))
  }

  ghost predicate Makings(procs: seq<Proc>) {
    && (forall q :: 0 <= q < |procs| ==> MakingAt(procs, q))
    && (forall q, r :: 0 <= q < r < |procs| && Makes(procs[q].pc) >= 0 ==> Makes(procs[q].pc) != Makes(procs[r].pc))
  }

  predicate Owns(q: Proc) { !q.state.UNUSED? && !q.isthread }

  ghost predicate HasOwner(procs: seq<Proc>, x: nat) {
    exists i :: 0 <= i < |procs| && Owns(procs[i]) && procs[i].space == x
  }

  /** Every process has a page table of its own, and every page table a process. */
  ghost predicate SpacesOk(procs: seq<Proc>, spaces: set<nat>, nextSpace: nat) {
    && (forall x :: x in spaces ==> HasOwner(procs, x))
    && nextSpace > 0 && (forall x :: x in spaces ==> x < nextSpace)
    && (forall i, j :: 0 <= i < j < |procs| && Owns(procs[i]) && Owns(procs[j]) ==> procs[i].space != procs[j].space)
  }

  predicate Waits(q: Proc) { q.pc.TpDoze? || (q.pc.TpSleep? && q.state.SLEEPING?) }

  predicate LiveThread(c: Proc, q: nat) { c.parent == q && c.isthread && !c.state.ZOMBIE? && !c.state.UNUSED? }

  ghost predicate HasThread(procs: seq<Proc>, q: nat) {
    exists c :: 0 <= c < |procs| && LiveThread(procs[c], q)
  }

  /** Whoever sleeps in tpkill still has a thread that will wake it. */
  ghost predicate Awaited(procs: seq<Proc>) {
    forall q :: 0 <= q < |procs| && Waits(procs[q]) ==> HasThread(procs, q)
  }

  ghost predicate Inv(s: State) {
    && |s.procs| > 0 && -1 <= s.lock < |s.procs|
    && Locals(s) && Children(s.procs, s.lock) && Makings(s.procs)
    && SpacesOk(s.procs, s.spaces, s.nextSpace) && Awaited(s.procs)
  }
}
