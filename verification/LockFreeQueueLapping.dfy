/** The 32-bit counters of lab8/bio.c do wrap: a run in which no thread sleeps through 2^32 moves of
    `head` ends one step before the queue breaks. */
module LockFreeQueueLapping {
  import opened LockFreeQueue
  import opened LockFreeQueueProof

  /** Reached by a legal trace, no thread having slept through 2^32 moves on the way. */
  ghost predicate Reached(s: State) {
    exists trace, events :: AwakeTo(trace, events, s)
  }

  ghost predicate AwakeTo(trace: seq<State>, events: seq<Event>, s: State) {
    && IsTrace(trace, events) && trace[|events|] == s
    && (forall i :: 0 <= i < |events| ==> NotLapped(trace[i].c))
  }

  lemma ReachedBoot(nodes: nat, tids: set<Tid>)
    requires nodes > 0
    ensures Reached(Boot(nodes, tids))
  {
    hide Boot, NotLapped;
    assert AwakeTo([Boot(nodes, tids)], [], Boot(nodes, tids));
  }

  lemma ReachedStep(s: State, e: Event)
    requires Reached(s) && Legal(s, e) && NotLapped(s.c)
    ensures Reached(Step(s, e))
  {
    hide Boot, NotLapped, Step, Legal;
    var trace, events :| AwakeTo(trace, events, s);
    var trace', events' := trace + [Step(s, e)], events + [e];
    assert trace'[0] == trace[0];
    assert AwakeTo(trace', events', Step(s, e));
  }

  lemma ReachedInv(s: State)
    requires Reached(s)
    ensures Inv(s)
  {
    hide Inv, NotLapped;
    var trace, events :| AwakeTo(trace, events, s);
    AwakeTraceIsRun(trace, events);
    RunKeepsInv(trace, events, |events|);
  }

  // ----- Two threads and three buffers ----------------------------------------------------------

  const WORKER: Tid := 0
  const SLEEPER: Tid := 1

  /** The sleeper is about to move `head` from buffer 0, version 1, to buffer 1. */
  const STALE: Pc := DMove(Link(1, At(0)), Link(2, At(1)), Link(1, At(1)))

  /** Both threads and all three buffers are there. */
  predicate Shape(c: Core) {
    |c.qnext| == |c.inq| == 3 && c.pc.Keys == {WORKER, SLEEPER}
  }

  /** The sleeper is outside the queue, or has not slept through 2^32 moves. */
  predicate Snoozing(c: Core) {
    && SLEEPER in c.pc
    && (c.pc[SLEEPER].Idle? || (c.pc[SLEEPER] == STALE && c.head.version <= COUNTS))
  }

  /** Copies the worker has made are current. */
  predicate Fresh(c: Core) {
    && WORKER in c.pc
    && (TailHeld(c.pc[WORKER]).Some? ==> c.tail.version <= TailHeld(c.pc[WORKER]).value.version + 1)
    && (HeadHeld(c.pc[WORKER]).Some? ==> c.head == HeadHeld(c.pc[WORKER]).value)
  }

  lemma WorkerStep(s: State, e: Event)
    requires Reached(s) && Shape(s.c) && Snoozing(s.c) && Fresh(s.c)
    requires e.t == WORKER && (e.Enqueue? ==> e.b < 2)
    ensures Reached(Step(s, e))
  {
    hide Reached;
    ReachedStep(s, e);
  }

  /** `a` is the only buffer on the queue, and the worker stands at `pc`. */
  predicate Single(c: Core, a: nat, v: nat, pc: Pc) {
    && Shape(c) && a < 3 && c.qnext[a] == Link(0, Null)
    && c.head == c.tail == Link(v, At(a)) && c.pc[WORKER] == pc
  }

  /** `b` is queued behind `a`. */
  predicate Double(c: Core, a: nat, b: nat, v: nat, pc: Pc) {
    && Shape(c) && a < 3 && b < 3 && a != b && c.qnext[a] == Link(1, At(b)) && c.qnext[b] == Link(0, Null)
    && c.head == Link(v, At(a)) && c.tail == Link(v + 1, At(b)) && c.pc[WORKER] == pc
  }

  lemma WorkerClaims(s: State, a: nat, b: nat, v: nat, o: Outcome) returns (s': State)
    requires Reached(s) && Single(s.c, a, v, Idle(o)) && Snoozing(s.c) && b < 2 && a != b && !s.c.inq[b]
    ensures Reached(s') && Single(s'.c, a, v, EReadTail(b)) && s'.c.qnext[b] == Link(0, Null)
    ensures s'.c.inq == s.c.inq[b := true] && s'.c.pc[SLEEPER] == s.c.pc[SLEEPER]
  {
    hide Reached, RunHistory;
    WorkerStep(s, Enqueue(WORKER, b));
    var s1 := Step(s, Enqueue(WORKER, b));
    WorkerStep(s1, Run(WORKER));
    var s2 := Step(s1, Run(WORKER));
    WorkerStep(s2, Run(WORKER));
    s' := Step(s2, Run(WORKER));
  }

  lemma WorkerLinks(s: State, a: nat, b: nat, v: nat) returns (s': State)
    requires Reached(s) && Single(s.c, a, v, EReadTail(b)) && Snoozing(s.c) && b < 2 && a != b
    requires s.c.qnext[b] == Link(0, Null)
    ensures Reached(s') && Double(s'.c, a, b, v, Idle(Linked(b)))
    ensures s'.c.inq == s.c.inq && s'.c.pc[SLEEPER] == s.c.pc[SLEEPER]
  {
    hide Reached, RunHistory;
    WorkerStep(s, Run(WORKER));
    var s1 := Step(s, Run(WORKER));
    WorkerStep(s1, Run(WORKER));
    var s2 := Step(s1, Run(WORKER));
    WorkerStep(s2, Run(WORKER));
    var s3 := Step(s2, Run(WORKER));
    WorkerStep(s3, Run(WORKER));
    var s4 := Step(s3, Run(WORKER));
    WorkerStep(s4, Run(WORKER));
    s' := Step(s4, Run(WORKER));
  }

  lemma WorkerEnqueues(s: State, a: nat, b: nat, v: nat, o: Outcome) returns (s': State)
    requires Reached(s) && Single(s.c, a, v, Idle(o)) && Snoozing(s.c) && b < 2 && a != b && !s.c.inq[b]
    ensures Reached(s') && Double(s'.c, a, b, v, Idle(Linked(b)))
    ensures s'.c.inq == s.c.inq[b := true] && s'.c.pc[SLEEPER] == s.c.pc[SLEEPER]
  {
    hide Reached;
    s' := WorkerClaims(s, a, b, v, o);
    s' := WorkerLinks(s', a, b, v);
  }

  lemma WorkerReads(s: State, a: nat, b: nat, v: nat, o: Outcome) returns (s': State)
    requires Reached(s) && Double(s.c, a, b, v, Idle(o)) && Snoozing(s.c)
    ensures Reached(s') && Double(s'.c, a, b, v, DCheck(Link(v, At(a)), Link(v + 1, At(b)), Link(1, At(b))))
    ensures s'.c.inq == s.c.inq && s'.c.pc[SLEEPER] == s.c.pc[SLEEPER]
  {
    hide Reached, RunHistory;
    WorkerStep(s, Dequeue(WORKER));
    var s1 := Step(s, Dequeue(WORKER));
    WorkerStep(s1, Run(WORKER));
    var s2 := Step(s1, Run(WORKER));
    WorkerStep(s2, Run(WORKER));
    var s3 := Step(s2, Run(WORKER));
    WorkerStep(s3, Run(WORKER));
    s' := Step(s3, Run(WORKER));
  }

  lemma WorkerMoves(s: State, a: nat, b: nat, v: nat) returns (s': State)
    requires Reached(s) && Snoozing(s.c)
    requires Double(s.c, a, b, v, DCheck(Link(v, At(a)), Link(v + 1, At(b)), Link(1, At(b))))
    ensures Reached(s') && Single(s'.c, b, v + 1, DRelease(a))
    ensures s'.c.inq == s.c.inq && s'.c.pc[SLEEPER] == s.c.pc[SLEEPER]
  {
    hide Reached, RunHistory;
    WorkerStep(s, Run(WORKER));
    var s1 := Step(s, Run(WORKER));
    WorkerStep(s1, Run(WORKER));
    s' := Step(s1, Run(WORKER));
  }

  lemma WorkerDequeues(s: State, a: nat, b: nat, v: nat, o: Outcome) returns (s': State)
    requires Reached(s) && Double(s.c, a, b, v, Idle(o)) && Snoozing(s.c)
    ensures Reached(s') && Single(s'.c, b, v + 1, DRelease(a))
    ensures s'.c.inq == s.c.inq && s'.c.pc[SLEEPER] == s.c.pc[SLEEPER]
  {
    hide Reached;
    s' := WorkerReads(s, a, b, v, o);
    s' := WorkerMoves(s', a, b, v);
  }

  lemma WorkerReleases(s: State, a: nat, b: nat, v: nat) returns (s': State)
    requires Reached(s) && Single(s.c, b, v, DRelease(a)) && Snoozing(s.c) && a < 3
    ensures Reached(s') && Single(s'.c, b, v, Idle(Taken(a)))
    ensures s'.c.inq == s.c.inq[a := false] && s'.c.pc[SLEEPER] == s.c.pc[SLEEPER]
  {
    hide Reached, RunHistory;
    WorkerStep(s, Run(WORKER));
    s' := Step(s, Run(WORKER));
  }

  lemma SleeperStep(s: State, e: Event)
    requires Reached(s) && Shape(s.c) && s.c.pc[WORKER].Idle? && e.t == SLEEPER && !e.Enqueue?
    requires TailHeld(s.c.pc[SLEEPER]).Some? ==> s.c.tail == TailHeld(s.c.pc[SLEEPER]).value
    requires HeadHeld(s.c.pc[SLEEPER]).Some? ==> s.c.head == HeadHeld(s.c.pc[SLEEPER]).value
    ensures Reached(Step(s, e))
  {
    hide Reached;
    ReachedStep(s, e);
  }

  lemma SleeperReads(s: State, o: Outcome, o': Outcome) returns (s': State)
    requires Reached(s) && Double(s.c, 0, 1, 1, Idle(o)) && s.c.pc[SLEEPER] == Idle(o')
    ensures Reached(s') && Double(s'.c, 0, 1, 1, Idle(o)) && s'.c.inq == s.c.inq
    ensures s'.c.pc[SLEEPER] == DReadNext(Link(1, At(0)), Link(2, At(1)))
  {
    hide Reached, RunHistory;
    SleeperStep(s, Dequeue(SLEEPER));
    var s1 := Step(s, Dequeue(SLEEPER));
    SleeperStep(s1, Run(SLEEPER));
    var s2 := Step(s1, Run(SLEEPER));
    SleeperStep(s2, Run(SLEEPER));
    s' := Step(s2, Run(SLEEPER));
  }

  /** The sleeper reads `head`, `tail` and the link between them, and falls asleep. */
  lemma SleeperDozes(s: State, o: Outcome, o': Outcome) returns (s': State)
    requires Reached(s) && Double(s.c, 0, 1, 1, Idle(o)) && s.c.pc[SLEEPER] == Idle(o')
    ensures Reached(s') && Double(s'.c, 0, 1, 1, Idle(o)) && s'.c.pc[SLEEPER] == STALE && s'.c.inq == s.c.inq
  {
    hide Reached, RunHistory;
    var s1 := SleeperReads(s, o, o');
    SleeperStep(s1, Run(SLEEPER));
    var s2 := Step(s1, Run(SLEEPER));
    SleeperStep(s2, Run(SLEEPER));
    s' := Step(s2, Run(SLEEPER));
  }

  /** Just after the worker took `1 - a`: `a` alone is queued, and both are flagged. */
  predicate Resting(c: Core, a: nat, v: nat) {
    && a < 2 && Single(c, a, v, DRelease(1 - a)) && c.inq[0] && c.inq[1] && c.pc[SLEEPER] == STALE
  }

  lemma BootIsSingle()
    ensures var c := Boot(3, {WORKER, SLEEPER}).c;
      Single(c, 2, 0, Idle(Nothing)) && c.pc[SLEEPER] == Idle(Nothing) && !c.inq[0] && !c.inq[1] && !c.inq[2]
  {
  }

  /** From `binit` until the worker has put in buffer 0 and taken out the dummy. */
  lemma DummyOut() returns (s: State)
    ensures Reached(s) && Single(s.c, 0, 1, Idle(Taken(2))) && !s.c.inq[1] && s.c.pc[SLEEPER] == Idle(Nothing)
    ensures s.c.inq[0]
  {
    hide Reached, Boot;
    ReachedBoot(3, {WORKER, SLEEPER});
    BootIsSingle();
    s := WorkerEnqueues(Boot(3, {WORKER, SLEEPER}), 2, 0, 0, Nothing);
    s := WorkerDequeues(s, 2, 0, 0, Linked(0));
    s := WorkerReleases(s, 2, 0, 1);
  }

  /** The sleeper falls asleep in a dequeue, and the worker does one. */
  lemma FirstRound() returns (s: State)
    ensures Reached(s) && Resting(s.c, 1, 2)
  {
    hide Reached;
    s := DummyOut();
    s := WorkerEnqueues(s, 0, 1, 1, Taken(2));
    s := SleeperDozes(s, Linked(1), Nothing);
    s := WorkerDequeues(s, 0, 1, 1, Linked(1));
  }

  /** The worker puts back the buffer it has and takes out the other. */
  lemma NextRound(s: State, a: nat, v: nat) returns (s': State)
    requires Reached(s) && Resting(s.c, a, v) && v <= COUNTS
    ensures Reached(s') && Resting(s'.c, 1 - a, v + 1)
  {
    hide Reached;
    var s1 := WorkerReleases(s, 1 - a, a, v);
    var s2 := WorkerEnqueues(s1, a, 1 - a, v, Taken(1 - a));
    s' := WorkerDequeues(s2, a, 1 - a, v, Linked(1 - a));
  }

  /** `n` more rounds: `head` moves `n` times. */
  lemma {:induction false} Rounds(n: nat) returns (s: State)
    requires n < COUNTS
    ensures Reached(s) && Resting(s.c, (n + 1) % 2, n + 2)
  {
    hide Reached, Resting;
    if n == 0 {
      s := FirstRound();
    } else {
      s := Rounds(n - 1);
      s := NextRound(s, n % 2, n + 1);
    }
  }

  lemma SleeperWakes(s: State)
    requires Resting(s.c, 0, COUNTS + 1)
    ensures !InStep(s.c, Run(SLEEPER)) && Step(s, Run(SLEEPER)).c.head.ptr == At(1)
  {
    hide RunHistory;
    assert SameWord(Link(1, At(0)), s.c.head);
  }

  lemma OnlyZero(c: Core)
    requires Resting(c, 0, COUNTS + 1)
    ensures Walk(c.qnext, c.head.ptr, 3) == [0]
  {
    assert Walk(c.qnext, Null, 2) == [];
  }

  /** After 2^32 moves of `head` since the sleeper read it, `head` names buffer 0 again with the same
      32 bits.  Up to here every trace is a run.  Now the sleeper's CAS succeeds: `head` moves from
      buffer 0, the only one queued, to buffer 1, which the worker has in its hands. */
  lemma LappingBreaks() returns (s: State)
    ensures Reached(s) && Inv(s) && Legal(s, Run(SLEEPER)) && SLEEPER in s.c.pc && HeadHeld(s.c.pc[SLEEPER]).Some?
    ensures s.c.head.version == HeadHeld(s.c.pc[SLEEPER]).value.version + COUNTS
    ensures Walk(s.c.qnext, s.c.head.ptr, 3) == [0] && WORKER in s.c.pc && s.c.pc[WORKER] == DRelease(1)
    ensures Step(s, Run(SLEEPER)).c.head.ptr == At(1) && !Inv(Step(s, Run(SLEEPER)))
  {
    hide Reached, Inv, Step, InStep, Walk;
    s := Rounds(COUNTS - 1);
    ReachedInv(s);
    SleeperWakes(s);
    OnlyZero(s.c);
    StepBreaksInv(s, Run(SLEEPER));
  }

  // ----- The dummy -------------------------------------------------------------------------------

  /** The worker claims the dummy, which is queued without being flagged, and resets its link. */
  lemma DummyReset(s: State)
    requires Double(s.c, 2, 0, 0, Idle(Linked(0))) && !s.c.inq[2]
    ensures var s' := Step(Step(Step(s, Enqueue(WORKER, 2)), Run(WORKER)), Run(WORKER));
      s'.c.head.ptr == At(2) && |s'.c.qnext| == 3 && s'.c.qnext[2].ptr == Null && s'.a.out == s.a.out
  {
    hide AttachHistory;
  }

  /** If a caller enqueued the dummy before it was handed out, whatever is queued behind it would be lost. */
  lemma DummyTooEarly() returns (s: State)
    ensures Reached(s) && !Legal(s, Enqueue(WORKER, 2)) && Walk(s.c.qnext, s.c.head.ptr, 3) == [2, 0]
    ensures var s' := Step(Step(Step(s, Enqueue(WORKER, 2)), Run(WORKER)), Run(WORKER));
      Walk(s'.c.qnext, s'.c.head.ptr, 3) == [2] && s'.a.out == s.a.out
  {
    hide Reached, Boot, Inv, Step;
    ReachedBoot(3, {WORKER, SLEEPER});
    BootIsSingle();
    s := WorkerEnqueues(Boot(3, {WORKER, SLEEPER}), 2, 0, 0, Nothing);
    ReachedInv(s);
    DummyKept(s);
    DummyReset(s);
    assert Walk(s.c.qnext, Null, 1) == [];
  }

  /** A queued buffer that is not flagged is the dummy. */
  lemma DummyKept(s: State)
    requires Inv(s) && s.c.head.ptr == At(2) && |s.c.inq| == 3 && !s.c.inq[2]
    ensures s.a.dummyKept
  {
    hide HangOk, BirthsOk, RestOk, OwnersOk, ThreadsOk;
  }
}
