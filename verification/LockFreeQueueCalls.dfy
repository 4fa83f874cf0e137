/** What the calls of the lock-free queue of lab8/bio.c answer: over whole runs, an answer is tied to
    what the queue held and to the compare-and-swap the call itself won; and a thread that is left
    alone finishes its call in a bounded number of its own steps. */
module LockFreeQueueCalls {
  import opened LockFreeQueue
  import opened LockFreeQueueProof

  // ----- Calls in a run ------------------------------------------------------------------------

  predicate Inside(c: Core, t: Tid) { t in c.pc && !c.pc[t].Idle? }

  /** Event `j` begins the call `e` of its thread, which is still inside it in state `k`. */
  ghost predicate Call(trace: seq<State>, events: seq<Event>, e: Event, j: nat, k: nat) {
    && j < k < |trace| && k <= |events| && events[j] == e && !e.Run?
    && e.t in trace[j].c.pc && trace[j].c.pc[e.t].Idle?
    && forall m :: j < m <= k ==> Inside(trace[m].c, e.t)
  }

  /** The call's next step is its last one, with answer `o`. */
  ghost predicate Answers(trace: seq<State>, events: seq<Event>, e: Event, j: nat, k: nat, o: Outcome) {
    && Call(trace, events, e, j, k) && k + 1 < |trace| && k < |events| && events[k] == Run(e.t)
    && e.t in trace[k + 1].c.pc && trace[k + 1].c.pc[e.t] == Idle(o)
  }

  /** Event `i` is a step of thread `t` that moved `head` past buffer `b`, the first one queued, and
      so handed it out. */
  ghost predicate MovedPast(trace: seq<State>, events: seq<Event>, t: Tid, b: nat, i: nat) {
    && i < |events| && i + 1 < |trace| && events[i] == Run(t)
    && trace[i].c.head.ptr == At(b) && trace[i + 1].c.head != trace[i].c.head
    && trace[i + 1].a.out == trace[i].a.out + [b]
  }

  /** Event `i` is a step of thread `t` that wrote `b` into a link that was NULL. */
  ghost predicate LinkedBehind(trace: seq<State>, events: seq<Event>, t: Tid, b: nat, x: nat, i: nat) {
    i < |events| && i + 1 < |trace| && events[i] == Run(t) && Attached(trace[i].c.qnext, trace[i + 1].c.qnext, x, b)
  }

  predicate Attached(qnext: seq<Link>, qnext': seq<Link>, x: nat, b: nat) {
    && x < |qnext| == |qnext'| && qnext[x].ptr.Null? && qnext'[x].ptr == At(b)
    && qnext' == qnext[x := qnext'[x]]
  }

  predicate InDequeue(pc: Pc) {
    pc.DReadHead? || pc.DReadTail? || pc.DReadNext? || pc.DCheck? || pc.DHelp? || pc.DMove? || pc.DRelease?
  }

  /** Inside an `enqueue` of `b`, behind the claim or before it. */
  predicate InEnqueue(pc: Pc, b: nat) {
    match pc
    case EClaim(x) => x == b
    case ESwing(x, _) => x == b
    case _ => Carried(pc) == Some((b, true))
  }

  /** Where the call `e` can stand. */
  predicate Within(pc: Pc, e: Event) {
    match e
    case Enqueue(_, b) => InEnqueue(pc, b)
    case Dequeue(_) => InDequeue(pc)
    case Run(_) => false
  }

  lemma CallStep(c: Core, e: Event, call: Event)
    requires call.t in c.pc && (if c.pc[call.t].Idle? then e == call else Within(c.pc[call.t], call)) && !call.Run?
    requires call.t in CoreStep(c, e).pc
    ensures var pc := CoreStep(c, e).pc[call.t]; pc.Idle? || pc.Fault? || Within(pc, call)
  {
    if e.t != call.t { OthersStay(c, e, call.t); }
  }

  lemma NoFault(trace: seq<State>, events: seq<Event>, k: nat, t: Tid)
    requires IsRun(trace, events) && k < |trace| && t in trace[k].c.pc
    ensures !trace[k].c.pc[t].Fault?
  {
    RunKeepsInv(trace, events, k);
    NotFaulted(trace[k], t);
  }

  /** A call stays within its own function and keeps its argument. */
  lemma {:induction false} CallIsWithin(trace: seq<State>, events: seq<Event>, e: Event, j: nat, k: nat)
    requires IsRun(trace, events) && Call(trace, events, e, j, k)
    ensures Within(trace[k].c.pc[e.t], e)
    decreases k
  {
    hide CoreStep, Inv, Boot, InStep, Legal;
    if k - 1 > j { CallIsWithin(trace, events, e, j, k - 1); }
    assert trace[k] == Step(trace[k - 1], events[k - 1]);
    NoFault(trace, events, k, e.t);
    assert Inside(trace[k].c, e.t);
    CallStep(trace[k - 1].c, events[k - 1], e);
  }

  // ----- dequeue -------------------------------------------------------------------------------

  lemma ReleaseFrom(s: State, e: Event, t: Tid)
    requires Inv(s) && t in s.c.pc && t in CoreStep(s.c, e).pc && CoreStep(s.c, e).pc[t].DRelease?
    ensures var b, s' := CoreStep(s.c, e).pc[t].b, Step(s, e);
      if e == Run(t) then s.c.head.ptr == At(b) && s'.c.head != s.c.head && s'.a.out == s.a.out + [b]
      else s.c.pc[t] == DRelease(b)
  {
    hide ChainOk, HangOk, BirthsOk, RestOk, FlagsOk, OwnersOk;
    if e.t != t { OthersStay(s.c, e, t); } else if e.Run? { assert ThreadOk(s.c, s.a, t, s.c.pc[t]); }
  }

  lemma MovesGoToRelease(s: State, t: Tid)
    requires t in s.c.pc && Step(s, Run(t)).a.out != s.a.out
    ensures var s' := Step(s, Run(t));
      t in s'.c.pc && s'.c.pc[t].DRelease? && |s'.a.out| == |s.a.out| + 1 && s'.a.out[|s.a.out|] == s'.c.pc[t].b
  {
  }

  /** A thread about to release `b` has moved `head` past it, in the same call and with no step between. */
  lemma {:induction false} ReleasesWhatItMoved(trace: seq<State>, events: seq<Event>, e: Event, j: nat, k: nat)
    requires IsRun(trace, events) && Call(trace, events, e, j, k) && trace[k].c.pc[e.t].DRelease?
    ensures exists i :: j < i < k && MovedPast(trace, events, e.t, trace[k].c.pc[e.t].b, i)
                        && forall m :: i < m < k ==> events[m] != Run(e.t)
    decreases k
  {
    hide CoreStep, Inv, Boot, InStep, Legal;
    RunKeepsInv(trace, events, k - 1);
    var s, b := trace[k - 1], trace[k].c.pc[e.t].b;
    assert trace[k] == Step(s, events[k - 1]);
    if k - 1 == j { StartIsNotRelease(s, e); } else { assert Inside(s.c, e.t); }
    ReleaseFrom(s, events[k - 1], e.t);
    if events[k - 1] == Run(e.t) {
      assert MovedPast(trace, events, e.t, b, k - 1);
    } else {
      ReleasesWhatItMoved(trace, events, e, j, k - 1);
    }
  }

  lemma StartIsNotRelease(s: State, e: Event)
    requires !e.Run? && e.t in s.c.pc && s.c.pc[e.t].Idle?
    ensures e.t in CoreStep(s.c, e).pc && !CoreStep(s.c, e).pc[e.t].DRelease?
    ensures Step(s, e).a.out == s.a.out
  {
  }

  /** After moving `head` past `b` a thread stands before the release of `b` until it runs again. */
  lemma {:induction false} MovedIsReleased(trace: seq<State>, events: seq<Event>, t: Tid, b: nat, i: nat, k: nat)
    requires IsRun(trace, events) && MovedPast(trace, events, t, b, i) && t in trace[i].c.pc
    requires i < k < |trace| && forall m :: i < m < k ==> events[m] != Run(t)
    ensures t in trace[k].c.pc && trace[k].c.pc[t] == DRelease(b)
    decreases k
  {
    hide CoreStep, Inv, Boot, InStep, Legal, RunHistory;
    var s, e := trace[k - 1], events[k - 1];
    assert trace[k] == Step(s, e);
    if k - 1 == i {
      assert trace[k].a.out[|s.a.out|] == b;
      MovesGoToRelease(s, t);
    } else {
      MovedIsReleased(trace, events, t, b, i, k - 1);
      ReleaseWaits(s.c, e, t);
    }
  }

  lemma ReleaseWaits(c: Core, e: Event, t: Tid)
    requires t in c.pc && c.pc[t].DRelease? && e != Run(t)
    ensures t in CoreStep(c, e).pc && CoreStep(c, e).pc[t] == c.pc[t]
  {
  }

  lemma OutcomeFrom(c: Core, t: Tid, o: Outcome)
    requires t in c.pc && !c.pc[t].Idle? && RunStep(c, t).pc[t] == Idle(o)
    ensures o == Empty <==> c.pc[t].DCheck?
    ensures forall b :: o == Taken(b) <==> c.pc[t] == DRelease(b)
    ensures forall b :: o == Linked(b) <==> c.pc[t].ESwing? && c.pc[t].b == b
    ensures o == Ignored <==> c.pc[t].EClaim?
    ensures o == Ignored ==> c.pc[t].b < |c.inq| && c.inq[c.pc[t].b]
    ensures o != Nothing
  {
  }

  /** From wherever it comes: a step that answers "empty" was preceded, with no other step of the thread
      between, by its read of the link of the present head, and only that node was queued at that read. */
  lemma EmptyWasEmpty(trace: seq<State>, events: seq<Event>, k: nat, t: Tid)
    requires IsRun(trace, events) && k < |events| && events[k] == Run(t) && Inside(trace[k].c, t)
    requires t in trace[k + 1].c.pc && trace[k + 1].c.pc[t] == Idle(Empty) && Awake(trace[k].c, trace[k].c.pc[t])
    ensures exists i: nat :: ReadSingle(trace, events, t, trace[k].c.head, i, k)
  {
    assert trace[k + 1] == Step(trace[k], events[k]);
    OutcomeFrom(trace[k].c, t, Empty);
    EmptyMeansEmpty(trace, events, k, t);
  }

  lemma ReadIsInCall(trace: seq<State>, events: seq<Event>, e: Event, j: nat, k: nat, head: Link, i: nat)
    requires IsTrace(trace, events) && Call(trace, events, e, j, k) && ReadSingle(trace, events, e.t, head, i, k)
    requires trace[k].c.pc[e.t].DCheck?
    ensures j < i
  {
    if i < j {
      assert trace[j + 1] == Step(trace[j], events[j]);
      FirstStepStays(trace, events, e, j, k);
    }
  }

  lemma {:induction false} FirstStepStays(trace: seq<State>, events: seq<Event>, e: Event, j: nat, k: nat)
    requires IsTrace(trace, events) && Call(trace, events, e, j, k)
    requires forall m :: j < m < k ==> events[m] != Run(e.t)
    ensures trace[k].c.pc[e.t] == if e.Enqueue? then EClaim(e.b) else DReadHead
    decreases k
  {
    var s := trace[k - 1];
    assert trace[k] == Step(s, events[k - 1]);
    assert Inside(trace[k].c, e.t);
    if k - 1 > j {
      FirstStepStays(trace, events, e, j, k - 1);
      if events[k - 1].t != e.t { OthersStay(s.c, events[k - 1], e.t); }
    }
  }

  /** What `dequeue` answers, for every call in every run: it hands out `b` exactly if a step of the call
      itself moved `head` past `b`, then at the head of the queue; and it reports an empty queue only
      if at a read of that call the node `head` names was the only one queued. */
  lemma DequeueAnswers(trace: seq<State>, events: seq<Event>, t: Tid, j: nat, k: nat, o: Outcome)
    requires IsRun(trace, events) && Answers(trace, events, Dequeue(t), j, k, o)
    ensures o == Empty || o.Taken?
    ensures forall b :: o == Taken(b) <==> exists i :: j < i < k && MovedPast(trace, events, t, b, i)
    ensures t in trace[k].c.pc
    ensures o == Empty && Awake(trace[k].c, trace[k].c.pc[t]) ==>
              exists i: nat :: j < i && ReadSingle(trace, events, t, trace[k].c.head, i, k)
  {
    hide Inv, CoreStep, Legal, InStep, Boot, RunHistory;
    var e := Dequeue(t);
    CallIsWithin(trace, events, e, j, k);
    assert trace[k + 1] == Step(trace[k], events[k]);
    assert Inside(trace[k].c, t);
    AnswerFrom(trace[k], t, o);
    if trace[k].c.pc[t].DRelease? { ReleasesWhatItMoved(trace, events, e, j, k); }
    forall b, i | j < i < k && MovedPast(trace, events, t, b, i) ensures o == Taken(b) {
      MoveEndsCall(trace, events, e, j, k, b, i);
    }
    if o == Empty && Awake(trace[k].c, trace[k].c.pc[t]) {
      EmptyWasEmpty(trace, events, k, t);
      var i: nat :| ReadSingle(trace, events, t, trace[k].c.head, i, k);
      ReadIsInCall(trace, events, e, j, k, trace[k].c.head, i);
    }
  }

  lemma AnswerFrom(s: State, t: Tid, o: Outcome)
    requires t in s.c.pc && !s.c.pc[t].Idle? && CoreStep(s.c, Run(t)).pc[t] == Idle(o)
    ensures o == Empty <==> s.c.pc[t].DCheck?
    ensures forall b :: o == Taken(b) <==> s.c.pc[t] == DRelease(b)
    ensures forall b :: o == Linked(b) <==> s.c.pc[t].ESwing? && s.c.pc[t].b == b
    ensures o == Ignored <==> s.c.pc[t].EClaim?
    ensures o == Ignored ==> s.c.pc[t].b < |s.c.inq| && s.c.inq[s.c.pc[t].b]
    ensures o != Nothing
  {
    OutcomeFrom(s.c, t, o);
  }

  lemma ReleaseEnds(c: Core, t: Tid)
    requires t in c.pc && c.pc[t].DRelease?
    ensures CoreStep(c, Run(t)).pc[t].Idle? || CoreStep(c, Run(t)).pc[t].Fault?
  {
  }

  /** The step that moves `head` is the last but one of its call. */
  lemma MoveEndsCall(trace: seq<State>, events: seq<Event>, e: Event, j: nat, k: nat, b: nat, i: nat)
    requires IsRun(trace, events) && Call(trace, events, e, j, k) && k < |events| && events[k] == Run(e.t)
    requires j < i < k && MovedPast(trace, events, e.t, b, i)
    ensures trace[k].c.pc[e.t] == DRelease(b)
  {
    hide CoreStep, Inv, Boot, InStep, Legal, RunHistory;
    assert Inside(trace[i].c, e.t);
    if exists m :: i < m < k && events[m] == Run(e.t) {
      var m := FirstRun(events, e.t, i, k);
      assert Inside(trace[m + 1].c, e.t);
      assert trace[m + 1] == Step(trace[m], events[m]);
      NoFault(trace, events, m + 1, e.t);
      MovedIsReleased(trace, events, e.t, b, i, m);
      ReleaseEnds(trace[m].c, e.t);
    } else {
      MovedIsReleased(trace, events, e.t, b, i, k);
    }
  }

  ghost function {:induction false} FirstRun(events: seq<Event>, t: Tid, i: nat, k: nat): (m: nat)
    requires k <= |events| && exists m :: i < m < k && events[m] == Run(t)
    ensures i < m < k && events[m] == Run(t) && forall n :: i < n < m ==> events[n] != Run(t)
    decreases k - i
  {
    if events[i + 1] == Run(t) then i + 1 else FirstRun(events, t, i + 1, k)
  }

  // ----- enqueue -------------------------------------------------------------------------------

  lemma SwingFrom(s: State, e: Event, t: Tid)
    requires Inv(s) && t in s.c.pc && t in CoreStep(s.c, e).pc && CoreStep(s.c, e).pc[t].ESwing?
    ensures var b, s' := CoreStep(s.c, e).pc[t].b, Step(s, e);
      if e == Run(t) then exists x: nat :: Attached(s.c.qnext, s'.c.qnext, x, b)
      else s.c.pc[t].ESwing? && s.c.pc[t].b == b
  {
    hide ChainOk, HangOk, BirthsOk, RestOk, FlagsOk, OwnersOk;
    if e.t != t {
      OthersStay(s.c, e, t);
    } else if e.Run? {
      assert ThreadOk(s.c, s.a, t, s.c.pc[t]);
      var x := s.c.pc[t].tail.ptr.node;
      assert Attached(s.c.qnext, Step(s, e).c.qnext, x, CoreStep(s.c, e).pc[t].b);
    }
  }

  /** A thread about to swing `tail` to `b` has linked `b` itself, in the same call. */
  lemma {:induction false} SwingsWhatItLinked(trace: seq<State>, events: seq<Event>, e: Event, j: nat, k: nat)
    requires IsRun(trace, events) && Call(trace, events, e, j, k) && trace[k].c.pc[e.t].ESwing?
    ensures exists i, x: nat :: j < i < k && LinkedBehind(trace, events, e.t, trace[k].c.pc[e.t].b, x, i)
    decreases k
  {
    hide CoreStep, Inv, Boot, InStep, Legal, RunHistory;
    RunKeepsInv(trace, events, k - 1);
    var s, b := trace[k - 1], trace[k].c.pc[e.t].b;
    assert trace[k] == Step(s, events[k - 1]);
    if k - 1 > j { assert Inside(s.c, e.t); }
    SwingFrom(s, events[k - 1], e.t);
    if events[k - 1] == Run(e.t) {
      var x: nat :| Attached(s.c.qnext, trace[k].c.qnext, x, b);
      assert LinkedBehind(trace, events, e.t, b, x, k - 1);
    } else {
      SwingsWhatItLinked(trace, events, e, j, k - 1);
    }
  }

  lemma ClaimFrom(c: Core, e: Event, t: Tid)
    requires t in c.pc && t in CoreStep(c, e).pc && CoreStep(c, e).pc[t].EClaim?
    ensures e == Enqueue(t, CoreStep(c, e).pc[t].b) || (c.pc[t] == CoreStep(c, e).pc[t] && e != Run(t))
    ensures e != Run(t)
  {
    if e.t != t { OthersStay(c, e, t); }
  }

  /** The claim of `in_q` is the first step of a call. */
  lemma {:induction false} ClaimIsFirst(trace: seq<State>, events: seq<Event>, e: Event, j: nat, k: nat)
    requires IsTrace(trace, events) && Call(trace, events, e, j, k) && trace[k].c.pc[e.t].EClaim?
    ensures forall m :: j < m < k ==> events[m] != Run(e.t)
    decreases k
  {
    hide CoreStep, Boot, Legal;
    if k - 1 > j {
      assert trace[k] == Step(trace[k - 1], events[k - 1]);
      assert Inside(trace[k - 1].c, e.t) && Inside(trace[k].c, e.t);
      ClaimFrom(trace[k - 1].c, events[k - 1], e.t);
      InsideStays(trace[k - 1].c, events[k - 1], e.t);
      ClaimIsFirst(trace, events, e, j, k - 1);
    }
  }

  lemma InsideStays(c: Core, e: Event, t: Tid)
    requires Inside(c, t) && e != Run(t)
    ensures t in CoreStep(c, e).pc && CoreStep(c, e).pc[t] == c.pc[t]
  {
  }

  /** What `enqueue` answers, for every call in every run: it either found `in_q` set at its first step, or
      a step of the call itself wrote `b` into a link that was NULL. */
  lemma EnqueueAnswers(trace: seq<State>, events: seq<Event>, t: Tid, b: nat, j: nat, k: nat, o: Outcome)
    requires IsRun(trace, events) && Answers(trace, events, Enqueue(t, b), j, k, o)
    ensures o == Ignored || o == Linked(b)
    ensures o == Ignored ==> b < |trace[k].c.inq| && trace[k].c.inq[b] && forall m :: j < m < k ==> events[m] != Run(t)
    ensures o == Linked(b) ==> exists i, x: nat :: j < i < k && LinkedBehind(trace, events, t, b, x, i)
  {
    hide Inv, CoreStep, Legal, InStep, Boot, RunHistory;
    var e := Enqueue(t, b);
    CallIsWithin(trace, events, e, j, k);
    assert trace[k + 1] == Step(trace[k], events[k]);
    assert Inside(trace[k].c, t);
    AnswerFrom(trace[k], t, o);
    if o == Ignored {
      ClaimIsFirst(trace, events, e, j, k);
    } else {
      SwingsWhatItLinked(trace, events, e, j, k);
    }
  }

  // ----- A thread left alone -------------------------------------------------------------------

  /** After `n` steps of thread `t` and of no other. */
  function Alone(s: State, t: Tid, n: nat): State
    decreases n
  {
    if n == 0 then s else Alone(Step(s, Run(t)), t, n - 1)
  }

  /** The same state, but for where thread `t` stands and what it remembers of its last read. */
  predicate SameBut(s: State, s': State, t: Tid, pc: Pc) {
    s'.c == Goto(s.c, t, pc) && s'.a == s.a.(sawSingle := s'.a.sawSingle)
  }

  lemma {:induction false} AloneMore(s: State, t: Tid, m: nat, n: nat)
    ensures Alone(s, t, m + n) == Alone(Alone(s, t, m), t, n)
    decreases m
  {
    hide Step;
    if m > 0 { AloneMore(Step(s, Run(t)), t, m - 1, n); }
  }

  /** Where a round of `dequeue` gets to in four steps of its thread alone. */
  function AfterRound(c: Core): Pc
    requires c.head.ptr.At? && c.head.ptr.node < |c.qnext|
  {
    var next := c.qnext[c.head.ptr.node];
    if c.head.ptr != c.tail.ptr then DMove(c.head, c.tail, next)
    else if next.ptr.Null? then Idle(Empty)
    else DHelp(c.head, c.tail, next)
  }

  /** A step that only reads. */
  lemma ReadStep(s: State, t: Tid, pc: Pc) returns (s': State)
    requires Inv(s) && t in s.c.pc && CoreStep(s.c, Run(t)) == Goto(s.c, t, pc)
    requires s.c.pc[t].DReadHead? || s.c.pc[t].DReadTail? || s.c.pc[t].DReadNext? || s.c.pc[t].DCheck?
             || s.c.pc[t].EReadTail? || s.c.pc[t].EReadNext? || s.c.pc[t].ECheck?
    ensures s' == Step(s, Run(t)) && Inv(s') && SameBut(s, s', t, pc)
    ensures !s.c.pc[t].DReadNext? ==> s'.a == s.a
  {
    hide Inv;
    s' := Step(s, Run(t));
    StepKeepsInv(s, Run(t));
  }

  lemma HeadRound(s: State, t: Tid)
    requires Inv(s) && t in s.c.pc && s.c.pc[t] == DReadHead
    ensures s.c.head.ptr.At? && s.c.head.ptr.node < |s.c.qnext|
    ensures SameBut(s, Alone(s, t, 4), t, AfterRound(s.c)) && Inv(Alone(s, t, 4))
  {
    hide Inv, Alone;
    HeadFacts(s);
    var s1 := ReadStep(s, t, DReadTail(s.c.head));
    var s2 := ReadStep(s1, t, DReadNext(s.c.head, s.c.tail));
    var s3 := ReadStep(s2, t, DCheck(s.c.head, s.c.tail, s.c.qnext[s.c.head.ptr.node]));
    var s4 := ReadStep(s3, t, AfterRound(s.c));
    hide Step, CoreStep, RunHistory;
    AloneTwo(s, t);
    AloneTwo(s2, t);
    AloneMore(s, t, 2, 2);
  }

  /** With `head` short of `tail`, two more steps hand out the first buffer. */
  lemma TakeAlone(s: State, t: Tid, tail: Link)
    requires Inv(s) && t in s.c.pc && s.c.head.ptr.At? && s.c.head.ptr.node < |s.c.qnext|
    requires s.c.pc[t] == DMove(s.c.head, tail, s.c.qnext[s.c.head.ptr.node]) && s.c.head.ptr != s.c.tail.ptr
    ensures var s', b := Alone(s, t, 2), s.c.head.ptr.node;
      && Inv(s') && s'.c.pc == s.c.pc[t := Idle(Taken(b))]
      && s'.a.log == s.a.log && s'.a.out == s.a.out + [b] && s'.a.tpos == s.a.tpos
      && s'.c.qnext == s.c.qnext && s'.c.tail == s.c.tail && b < |s.c.inq| && s'.c.inq == s.c.inq[b := false]
      && s'.c.head == Link(s.c.head.version + 1, s.c.qnext[b].ptr)
  {
    hide ChainOk, HangOk, BirthsOk, RestOk, FlagsOk, OwnersOk, ThreadsOk, Alone;
    var s1 := Step(s, Run(t));
    StepKeepsInv(s, Run(t));
    StepKeepsInv(s1, Run(t));
    AloneTwo(s, t);
  }

  /** A `dequeue` that runs alone, in whatever state the other threads stopped, ends in at most 11 steps.  It
      hands out the first buffer queued, clears its `in_q`, and reports an empty queue only when the
      node `head` names is the only one. */
  lemma DequeueAlone(s: State, t: Tid) returns (n: nat)
    requires Inv(s) && t in s.c.pc && s.c.pc[t] == DReadHead
    ensures n <= 11 && Inv(Alone(s, t, n))
    ensures |s.a.log| > |s.a.out|
    ensures var s', b := Alone(s, t, n), s.a.log[|s.a.out|];
      && s'.a.log == s.a.log && s'.c.qnext == s.c.qnext
      && if |s.a.log| == |s.a.out| + 1 then
           s'.c == Goto(s.c, t, Idle(Empty)) && s'.a.out == s.a.out
         else
           && b < |s.c.inq| && s'.c.inq == s.c.inq[b := false] && s'.a.out == s.a.out + [b]
           && s'.c.pc == s.c.pc[t := Idle(Taken(b))]
           && s'.c.head == Link(s.c.head.version + 1, At(s.a.log[|s.a.out| + 1]))
  {
    hide Inv, Step, Alone;
    HeadRound(s, t);
    HeadFacts(s);
    var s4 := Alone(s, t, 4);
    if |s.a.log| == |s.a.out| + 1 {
      n := 4;
    } else if s.c.head.ptr != s.c.tail.ptr {
      TakeAlone(s4, t, s.c.tail);
      AloneMore(s, t, 4, 2);
      HeadLink(s);
      n := 6;
    } else {
      HelpAlone(s4, t);
      var s5 := Alone(s4, t, 1);
      AloneMore(s, t, 4, 1);
      HeadRound(s5, t);
      HeadFacts(s5);
      AloneMore(s, t, 5, 4);
      var s9 := Alone(s, t, 9);
      TakeAlone(s9, t, s5.c.tail);
      AloneMore(s, t, 9, 2);
      HeadLink(s);
      n := 11;
    }
  }

  /** How far a dequeue is from its end or its next round. */
  function StepsLeft(pc: Pc): nat {
    match pc
    case DReadTail(_) => 5
    case DReadNext(_, _) => 4
    case DCheck(_, _, _) => 3
    case DHelp(_, _, _) => 2
    case DMove(_, _, _) => 2
    case DRelease(_) => 1
    case _ => 0
  }

  lemma DequeueNext(c: Core, t: Tid)
    requires t in c.pc && InDequeue(c.pc[t]) && !c.pc[t].DReadHead? && Awake(c, c.pc[t])
    ensures t in CoreStep(c, Run(t)).pc
    ensures var c' := CoreStep(c, Run(t)); var pc := c'.pc[t];
      pc.Fault? || (pc.Idle? && (pc.last.Empty? || pc.last.Taken?))
      || (InDequeue(pc) && StepsLeft(pc) < StepsLeft(c.pc[t]) && Awake(c', pc))
  {
  }

  lemma AwakeStep(s: State, t: Tid)
    requires Inv(s) && t in s.c.pc && Awake(s.c, s.c.pc[t])
    ensures Inv(Step(s, Run(t))) && Alone(s, t, 1) == Step(s, Run(t))
    ensures t in Step(s, Run(t)).c.pc ==> !Step(s, Run(t)).c.pc[t].Fault?
  {
    hide Inv, Step, Alone;
    AwakeIsInStep(s, Run(t));
    StepKeepsInv(s, Run(t));
    var s' := Step(s, Run(t));
    if t in s'.c.pc { NotFaulted(s', t); }
    AloneTwo(s, t);
  }

  lemma NotFaulted(s: State, t: Tid)
    requires Inv(s) && t in s.c.pc
    ensures !s.c.pc[t].Fault?
  {
    hide ChainOk, HangOk, BirthsOk, RestOk, FlagsOk, OwnersOk;
    assert ThreadOk(s.c, s.a, t, s.c.pc[t]);
  }

  /** Wherever a dequeue stands, with copies however old, it ends when it runs alone, unless its copies are
      2^32 moves old. */
  lemma {:induction false} DequeueFinishes(s: State, t: Tid) returns (n: nat)
    requires Inv(s) && t in s.c.pc && InDequeue(s.c.pc[t]) && Awake(s.c, s.c.pc[t])
    ensures n <= StepsLeft(s.c.pc[t]) + 11 && Inv(Alone(s, t, n)) && t in Alone(s, t, n).c.pc
    ensures var pc := Alone(s, t, n).c.pc[t]; pc.Idle? && (pc.last.Empty? || pc.last.Taken?)
    decreases StepsLeft(s.c.pc[t])
  {
    hide Inv, CoreStep, RunHistory, Alone, Awake;
    if s.c.pc[t].DReadHead? {
      n := DequeueAlone(s, t);
    } else {
      AwakeStep(s, t);
      DequeueNext(s.c, t);
      var s' := Step(s, Run(t));
      n := 1;
      if !s'.c.pc[t].Idle? {
        n := DequeueFinishes(s', t);
        AloneMore(s, t, 1, n);
        n := 1 + n;
      }
    }
  }

  lemma HeadLink(s: State)
    requires Inv(s) && |s.a.log| > |s.a.out| + 1
    ensures s.a.log[|s.a.out|] < |s.c.qnext| && s.c.qnext[s.a.log[|s.a.out|]].ptr == At(s.a.log[|s.a.out| + 1])
  {
    hide HangOk, BirthsOk, RestOk, FlagsOk, OwnersOk, ThreadsOk;
  }

  /** `tail` stands on the head node with another node behind: the dequeuer moves it on. */
  lemma HelpAlone(s: State, t: Tid)
    requires Inv(s) && t in s.c.pc && s.c.head.ptr.At? && s.c.head.ptr.node < |s.c.qnext|
    requires s.c.pc[t] == DHelp(s.c.head, s.c.tail, s.c.qnext[s.c.head.ptr.node])
    requires s.c.head.ptr == s.c.tail.ptr && |s.a.log| > |s.a.out| + 1
    ensures var s' := Alone(s, t, 1);
      && Inv(s') && s'.a == s.a.(tpos := s.a.tpos + 1)
      && s'.c == Goto(s.c, t, DReadHead).(tail := Link(s.c.tail.version + 1, At(s.a.log[|s.a.out| + 1])))
  {
    hide ChainOk, HangOk, BirthsOk, RestOk, FlagsOk, OwnersOk, ThreadsOk;
    HeadLink(s);
    HeadFacts(s);
    StepKeepsInv(s, Run(t));
    assert Alone(s, t, 1) == Step(s, Run(t));
  }

  // ----- enqueue left alone --------------------------------------------------------------------

  /** What thread `t` needs for the round of `enqueue` of its buffer `b`. */
  ghost predicate Entered(s: State, t: Tid, b: nat) {
    Inv(s) && t in s.c.pc && s.c.pc[t] == EReadTail(b) && b in s.a.hang
  }

  /** Where a round of `enqueue` gets to in three steps of its thread alone. */
  function TailRead(c: Core, b: nat): Pc
    requires c.tail.ptr.At? && c.tail.ptr.node < |c.qnext|
  {
    var next := c.qnext[c.tail.ptr.node];
    if next.ptr.Null? then ELink(b, c.tail, next) else EHelp(b, c.tail, next)
  }

  lemma TailRound(s: State, t: Tid, b: nat)
    requires Entered(s, t, b)
    ensures s.c.tail.ptr.At? && s.c.tail.ptr.node < |s.c.qnext|
    ensures var s' := Alone(s, t, 3); s'.c == Goto(s.c, t, TailRead(s.c, b)) && s'.a == s.a && Inv(s')
  {
    hide Inv;
    HeadFacts(s);
    TailFacts(s);
    var s1 := ReadStep(s, t, EReadNext(b, s.c.tail));
    var s2 := ReadStep(s1, t, ECheck(b, s.c.tail, s.c.qnext[s.c.tail.ptr.node]));
    var s3 := ReadStep(s2, t, TailRead(s.c, b));
    assert Alone(s, t, 3) == Alone(s1, t, 2) == Alone(s2, t, 1) == s3;
  }

  lemma TailFacts(s: State)
    requires Inv(s)
    ensures |s.a.out| <= s.a.tpos < |s.a.log| && s.c.tail.ptr == At(s.a.log[s.a.tpos])
    ensures s.a.log[s.a.tpos] < |s.c.qnext|
    ensures s.c.qnext[s.a.log[s.a.tpos]].ptr ==
            if s.a.tpos + 1 < |s.a.log| then At(s.a.log[s.a.tpos + 1]) else Null
    ensures s.a.log[s.a.tpos] < |s.a.loc| && s.a.loc[s.a.log[s.a.tpos]].Queued?
  {
    hide HangOk, BirthsOk, RestOk, FlagsOk, OwnersOk, ThreadsOk;
    PathAt(s.c.qnext, s.a.log, |s.a.out|, s.a.tpos);
  }

  /** With `tail` behind, a round moves it on by one. */
  lemma HelpRound(s: State, t: Tid, b: nat)
    requires Entered(s, t, b) && s.a.tpos + 1 < |s.a.log|
    ensures var s' := Alone(s, t, 4);
      && Entered(s', t, b) && s'.a == s.a.(tpos := s.a.tpos + 1) && s'.c.head == s.c.head && s'.c.qnext == s.c.qnext
      && s'.c.inq == s.c.inq && s'.c.pc == s.c.pc
  {
    hide Inv;
    TailRound(s, t, b);
    TailFacts(s);
    var s3 := Alone(s, t, 3);
    AloneMore(s, t, 3, 1);
    TailFacts(s3);
    StepKeepsInv(s3, Run(t));
    assert Alone(s3, t, 1) == Step(s3, Run(t));
    assert s.c.pc[t := EReadTail(b)] == s.c.pc;
  }

  /** With `tail` on the last node, five steps link the buffer there and move `tail` to it. */
  lemma LinkRound(s: State, t: Tid, b: nat)
    requires Entered(s, t, b) && s.a.tpos + 1 == |s.a.log|
    ensures var s', x := Alone(s, t, 5), s.a.log[s.a.tpos];
      && Inv(s') && s'.a.log == s.a.log + s.a.hang[b] && s'.a.out == s.a.out && s'.a.tpos == |s.a.log|
      && s'.c.pc == s.c.pc[t := Idle(Linked(b))] && s'.c.head == s.c.head && s'.c.inq == s.c.inq
      && x < |s.c.qnext| && s'.c.qnext == s.c.qnext[x := Link(s.c.qnext[x].version + 1, At(b))]
  {
    hide Inv;
    TailRound(s, t, b);
    TailFacts(s);
    var s3 := Alone(s, t, 3);
    var s4 := Step(s3, Run(t));
    var s5 := Step(s4, Run(t));
    StepKeepsInv(s3, Run(t));
    TailFacts(s4);
    assert s4.a.log == s.a.log + s.a.hang[b];
    StepKeepsInv(s4, Run(t));
    AloneMore(s, t, 3, 2);
    assert Alone(s3, t, 2) == Alone(s4, t, 1) == s5;
  }

  lemma {:induction false} LinkAlone(s: State, t: Tid, b: nat) returns (n: nat)
    requires Entered(s, t, b)
    ensures s.a.tpos < |s.a.log| && n == 4 * (|s.a.log| - 1 - s.a.tpos) + 5 && Inv(Alone(s, t, n))
    ensures var s' := Alone(s, t, n);
      && s'.a.log == s.a.log + s.a.hang[b] && s'.a.out == s.a.out && s'.a.tpos == |s.a.log|
      && s'.c.pc == s.c.pc[t := Idle(Linked(b))] && s'.c.head == s.c.head && s'.c.inq == s.c.inq
    decreases |s.a.log| - s.a.tpos
  {
    hide Inv, Alone;
    TailFacts(s);
    if s.a.tpos + 1 == |s.a.log| {
      LinkRound(s, t, b);
      n := 5;
    } else {
      HelpRound(s, t, b);
      n := LinkAlone(Alone(s, t, 4), t, b);
      AloneMore(s, t, 4, n);
      n := 4 + n;
    }
  }

  /** An `enqueue` that runs alone, in whatever state the other threads stopped, ends; its buffer is the last
      one queued then, with `tail` on it; a buffer whose `in_q` is set is left where it is. */
  lemma EnqueueAlone(s: State, t: Tid, b: nat) returns (n: nat)
    requires Inv(s) && t in s.c.pc && s.c.pc[t] == EClaim(b)
    ensures b < |s.c.inq| && s.a.tpos < |s.a.log| && n <= 4 * (|s.a.log| - s.a.tpos) + 3
    ensures var s' := Alone(s, t, n);
      && Inv(s') && s'.c.head == s.c.head && s'.a.out == s.a.out
      && if s.c.inq[b] then s' == s.(c := Goto(s.c, t, Idle(Ignored)))
         else
           && s'.a.log == s.a.log + [b] && s'.c.inq == s.c.inq[b := true] && s'.c.tail.ptr == At(b)
           && s'.c.pc == s.c.pc[t := Idle(Linked(b))]
  {
    hide Inv, Step, Alone;
    ClaimAlone(s, t, b);
    TailFacts(s);
    if s.c.inq[b] {
      n := 1;
    } else {
      var s2 := Alone(s, t, 2);
      n := LinkAlone(s2, t, b);
      AloneMore(s, t, 2, n);
      TailFacts(Alone(s, t, 2 + n));
      n := 2 + n;
    }
  }

  /** How far an enqueue is from its end or its next round. */
  function StepsBefore(pc: Pc): nat {
    match pc
    case EReadNext(_, _) => 4
    case ECheck(_, _, _) => 3
    case ELink(_, _, _) => 2
    case EHelp(_, _, _) => 2
    case EReset(_) => 1
    case ESwing(_, _) => 1
    case _ => 0
  }

  lemma EnqueueNext(c: Core, t: Tid, b: nat)
    requires t in c.pc && InEnqueue(c.pc[t], b) && !c.pc[t].EReadTail? && !c.pc[t].EClaim? && Awake(c, c.pc[t])
    ensures t in CoreStep(c, Run(t)).pc
    ensures var c' := CoreStep(c, Run(t)); var pc := c'.pc[t];
      pc.Fault? || pc == Idle(Linked(b))
      || (InEnqueue(pc, b) && !pc.EClaim? && StepsBefore(pc) < StepsBefore(c.pc[t]) && Awake(c', pc))
  {
  }

  lemma Hangs(s: State, t: Tid, b: nat)
    requires Inv(s) && t in s.c.pc && s.c.pc[t] == EReadTail(b)
    ensures Entered(s, t, b)
  {
    hide ChainOk, BirthsOk, RestOk, FlagsOk, OwnersOk;
    assert ThreadOk(s.c, s.a, t, s.c.pc[t]);
  }

  /** Wherever an enqueue stands, with copies however old, it ends when it runs alone, unless its copies are
      2^32 moves old. */
  lemma {:induction false} EnqueueFinishes(s: State, t: Tid, b: nat) returns (n: nat)
    requires Inv(s) && t in s.c.pc && InEnqueue(s.c.pc[t], b) && Awake(s.c, s.c.pc[t])
    ensures Inv(Alone(s, t, n)) && t in Alone(s, t, n).c.pc
    ensures var pc := Alone(s, t, n).c.pc[t];
      pc == Idle(Linked(b))
      || (s.c.pc[t].EClaim? && b < |s.c.inq| && s.c.inq[b] && pc == Idle(Ignored))
    decreases StepsBefore(s.c.pc[t])
  {
    hide Inv, CoreStep, RunHistory, Alone, Awake;
    if s.c.pc[t].EClaim? {
      n := EnqueueAlone(s, t, b);
    } else if s.c.pc[t].EReadTail? {
      Hangs(s, t, b);
      n := LinkAlone(s, t, b);
    } else {
      AwakeStep(s, t);
      EnqueueNext(s.c, t, b);
      var s' := Step(s, Run(t));
      n := 1;
      if !s'.c.pc[t].Idle? {
        n := EnqueueFinishes(s', t, b);
        AloneMore(s, t, 1, n);
        n := 1 + n;
      }
    }
  }

  lemma ClaimAlone(s: State, t: Tid, b: nat)
    requires Inv(s) && t in s.c.pc && s.c.pc[t] == EClaim(b)
    ensures b < |s.c.inq|
    ensures if s.c.inq[b] then
              Inv(Alone(s, t, 1)) && Alone(s, t, 1) == s.(c := Goto(s.c, t, Idle(Ignored)))
            else
              var s' := Alone(s, t, 2);
              && Entered(s', t, b) && s'.a.hang[b] == [b]
              && s'.c.pc == s.c.pc[t := EReadTail(b)] && s'.c.head == s.c.head
              && s'.c.inq == s.c.inq[b := true] && s'.a.out == s.a.out && s'.a.log == s.a.log && s'.a.tpos == s.a.tpos
  {
    hide Inv, CoreStep, RunHistory, Alone;
    ClaimFacts(s, t, b);
    AloneTwo(s, t);
    var s1 := Step(s, Run(t));
    StepKeepsInv(s, Run(t));
    ClaimCore(s.c, s.a, t, b);
    if !s.c.inq[b] {
      ResetAlone(s1, t, b);
    }
  }

  lemma AloneTwo(s: State, t: Tid)
    ensures Alone(s, t, 1) == Step(s, Run(t)) && Alone(s, t, 2) == Step(Step(s, Run(t)), Run(t))
  {
    hide Step;
    assert Alone(s, t, 2) == Alone(Step(s, Run(t)), t, 1);
  }

  lemma ResetAlone(s: State, t: Tid, b: nat)
    requires Inv(s) && t in s.c.pc && s.c.pc[t] == EReset(b)
    ensures var s' := Step(s, Run(t));
      && Entered(s', t, b) && s'.a.hang[b] == [b]
      && s'.c.pc == s.c.pc[t := EReadTail(b)] && s'.c.head == s.c.head && s'.c.inq == s.c.inq
      && s'.a.out == s.a.out && s'.a.log == s.a.log && s'.a.tpos == s.a.tpos
  {
    hide Inv, CoreStep, RunHistory;
    ResetFacts(s, t, b);
    StepKeepsInv(s, Run(t));
    ResetCore(s.c, s.a, t, b);
  }

  lemma ClaimCore(c: Core, a: Aux, t: Tid, b: nat)
    requires t in c.pc && c.pc[t] == EClaim(b) && b < |c.inq| == |a.loc|
    ensures var c', a' := CoreStep(c, Run(t)), RunHistory(c, a, t);
      && a'.out == a.out && a'.log == a.log && a'.tpos == a.tpos
      && if c.inq[b] then c' == Goto(c, t, Idle(Ignored)) && a' == a
         else c' == Goto(c.(inq := c.inq[b := true]), t, EReset(b))
  {
  }

  lemma ResetCore(c: Core, a: Aux, t: Tid, b: nat)
    requires t in c.pc && c.pc[t] == EReset(b) && b < |c.qnext| == |a.loc|
    ensures var c', a' := CoreStep(c, Run(t)), RunHistory(c, a, t);
      && a'.out == a.out && a'.log == a.log && a'.tpos == a.tpos && a'.hang == a.hang[b := [b]]
      && c'.pc == c.pc[t := EReadTail(b)] && c'.inq == c.inq && c'.head == c.head
  {
  }

  lemma ClaimFacts(s: State, t: Tid, b: nat)
    requires Inv(s) && t in s.c.pc && s.c.pc[t] == EClaim(b)
    ensures b < |s.c.inq| == |s.c.qnext| == |s.a.loc| == |s.a.birth| == |s.a.owner|
  {
    hide ChainOk, HangOk, BirthsOk, RestOk, FlagsOk, OwnersOk;
    assert ThreadOk(s.c, s.a, t, s.c.pc[t]);
  }

  lemma ResetFacts(s: State, t: Tid, b: nat)
    requires Inv(s) && t in s.c.pc && s.c.pc[t] == EReset(b)
    ensures b < |s.c.inq| == |s.c.qnext| == |s.a.loc|
  {
    hide ChainOk, HangOk, BirthsOk, RestOk, FlagsOk, OwnersOk;
    assert ThreadOk(s.c, s.a, t, s.c.pc[t]);
  }
}
