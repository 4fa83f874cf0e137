/** The lock-free queue of recyclable buffers of lab8/bio.c.

    Buffers are array indices.  `bcache.head`, `bcache.tail` and every `qnext` hold a counted
    pointer: a 32-bit counter and a 32-bit index, NULL being a reserved index.  The queue keeps one
    node behind: the node `head` names is still linked, and it is the one `dequeue` hands out.

    The state machine takes one step per shared-memory access, for any number of threads.
    `Core` is what the program has.  `Aux` is the history the proof keeps beside it; `CoreStep`
    never looks at it. */
module LockFreeQueue {

  // ----- Shared memory and program counters -------------------------------------------------

  datatype Option<+T> = None | Some(value: T)

  datatype Ptr = Null | At(node: nat)

  /** A counted pointer.  `version` counts without bound; the program stores it modulo COUNTS.  A
      compare-and-swap that succeeds stores the count it expected plus one, which modulo COUNTS is
      one more than the count it found. */
  datatype Link = Link(version: nat, ptr: Ptr)

  /** Counters are 32 bits wide. */
  const COUNTS: nat := 0x1_0000_0000

  /** What a compare-and-swap can see of two counted pointers. */
  predicate SameWord(a: Link, b: Link) {
    a.ptr == b.ptr && a.version % COUNTS == b.version % COUNTS
  }

  type Tid = nat

  datatype Outcome = Nothing | Ignored | Linked(node: nat) | Empty | Taken(node: nat)

  /** Where a thread stands: the shared access it performs next, with its local variables. */
  datatype Pc =
    | Idle(last: Outcome)
    | EClaim(b: nat)                               // CAS in_q from 0 to 1
    | EReset(b: nat)                               // qnext := (0, NULL)
    | EReadTail(b: nat)
    | EReadNext(b: nat, tail: Link)
    | ECheck(b: nat, tail: Link, next: Link)       // re-read tail
    | ELink(b: nat, tail: Link, next: Link)        // CAS qnext of the tail node
    | EHelp(b: nat, tail: Link, next: Link)        // CAS tail past a linked node
    | ESwing(b: nat, tail: Link)                   // CAS tail to the node just linked
    | DReadHead
    | DReadTail(head: Link)
    | DReadNext(head: Link, tail: Link)
    | DCheck(head: Link, tail: Link, next: Link)   // re-read head
    | DHelp(head: Link, tail: Link, next: Link)
    | DMove(head: Link, tail: Link, next: Link)    // CAS head forward
    | DRelease(b: nat)                             // in_q := 0
    | Fault                                        // dereferenced NULL or a wild index

  datatype Core = Core(qnext: seq<Link>, inq: seq<bool>, head: Link, tail: Link, pc: map<Tid, Pc>)

  datatype Event = Enqueue(t: Tid, b: nat) | Dequeue(t: Tid) | Run(t: Tid)

  function Deref(c: Core, p: Ptr): Option<Link> {
    if p.At? && p.node < |c.qnext| then Some(c.qnext[p.node]) else None
  }

  function Goto(c: Core, t: Tid, pc: Pc): Core {
    c.(pc := c.pc[t := pc])
  }

  /** One atomic step of one thread.  An event that does not apply leaves the state alone. */
  function CoreStep(c: Core, e: Event): Core {
    if e.t !in c.pc then c
    else match e
      case Enqueue(t, b) => if c.pc[t].Idle? then Goto(c, t, EClaim(b)) else c
      case Dequeue(t) => if c.pc[t].Idle? then Goto(c, t, DReadHead) else c
      case Run(t) => RunStep(c, t)
  }

  function RunStep(c: Core, t: Tid): Core
    requires t in c.pc
  {
    match c.pc[t]
    case Idle(_) => c
    case Fault => c
    case EClaim(b) =>
      if b >= |c.inq| then Goto(c, t, Fault)
      else if c.inq[b] then Goto(c, t, Idle(Ignored))
      else Goto(c.(inq := c.inq[b := true]), t, EReset(b))
    case EReset(b) =>
      if b >= |c.qnext| then Goto(c, t, Fault)
      else Goto(c.(qnext := c.qnext[b := Link(0, Null)]), t, EReadTail(b))
    case EReadTail(b) => Goto(c, t, EReadNext(b, c.tail))
    case EReadNext(b, tail) =>
      var next := Deref(c, tail.ptr);
      if next.None? then Goto(c, t, Fault) else Goto(c, t, ECheck(b, tail, next.value))
    case ECheck(b, tail, next) =>
      if !SameWord(tail, c.tail) then Goto(c, t, EReadTail(b))
      else if next.ptr.Null? then Goto(c, t, ELink(b, tail, next))
      else Goto(c, t, EHelp(b, tail, next))
    case ELink(b, tail, next) =>
      var now := Deref(c, tail.ptr);
      if now.None? then Goto(c, t, Fault)
      else if !SameWord(now.value, next) then Goto(c, t, EReadTail(b))
      else
        var c' := c.(qnext := c.qnext[tail.ptr.node := Link(next.version + 1, At(b))]);
        Goto(c', t, ESwing(b, tail))
    case EHelp(b, tail, next) =>
      Goto(SwingTail(c, tail, next.ptr), t, EReadTail(b))
    case ESwing(b, tail) =>
      Goto(SwingTail(c, tail, At(b)), t, Idle(Linked(b)))
    case DReadHead => Goto(c, t, DReadTail(c.head))
    case DReadTail(head) => Goto(c, t, DReadNext(head, c.tail))
    case DReadNext(head, tail) =>
      var next := Deref(c, head.ptr);
      if next.None? then Goto(c, t, Fault) else Goto(c, t, DCheck(head, tail, next.value))
    case DCheck(head, tail, next) =>
      if !SameWord(head, c.head) then Goto(c, t, DReadHead)
      else if head.ptr == tail.ptr then
        if next.ptr.Null? then Goto(c, t, Idle(Empty)) else Goto(c, t, DHelp(head, tail, next))
      else Goto(c, t, DMove(head, tail, next))
    case DHelp(head, tail, next) =>
      Goto(SwingTail(c, tail, next.ptr), t, DReadHead)
    case DMove(head, tail, next) =>
      if !SameWord(head, c.head) then Goto(c, t, DReadHead)
      else if head.ptr.Null? then Goto(c, t, Fault)
      else Goto(c.(head := Link(c.head.version + 1, next.ptr)), t, DRelease(head.ptr.node))
    case DRelease(b) =>
      if b >= |c.inq| then Goto(c, t, Fault)
      else Goto(c.(inq := c.inq[b := false]), t, Idle(Taken(b)))
  }

  function SwingTail(c: Core, want: Link, to: Ptr): Core {
    if SameWord(want, c.tail) then c.(tail := Link(c.tail.version + 1, to)) else c
  }

  // ----- History ------------------------------------------------------------------------------

  /** Where a buffer is.  A buffer may hang: it is linked behind a buffer whose own enqueue has
      not linked it yet, because a stalled CAS found `qnext` reset to (0, NULL). */
  datatype Loc = Free | Starting | Hanging(root: nat, at: nat) | Queued(pos: nat) | Leaving

  /** `log` lists the buffers that became reachable from `head`, in queue order, and `stamp` the time
      each was claimed, which tells one enqueue of a buffer from another.  The first |out| of them
      have been handed out, `log[|out|..]` is the queue, and `tail` names `log[tpos]`. */
  datatype Aux = Aux(log: seq<nat>, stamp: seq<nat>, out: seq<nat>, tpos: nat, loc: seq<Loc>, hang: map<nat, seq<nat>>,
                     birth: seq<nat>, clock: nat, owner: seq<Tid>, sawSingle: set<Tid>, dummyKept: bool)

  datatype State = State(c: Core, a: Aux)

  /** The dummy node `binit` puts into the empty queue: the last element of the array. */
  function Dummy(c: Core): int { |c.inq| - 1 }

  /** New places for the chain hanging from `b`, once it is attached behind node `x`. */
  function Moved(l: Loc, b: nat, x: Loc, a: Aux): Loc {
    if l.Hanging? && l.root == b then
      if x.Queued? then Queued(|a.log| + l.at)
      else if x.Hanging? && x.root in a.hang then Hanging(x.root, |a.hang[x.root]| + l.at)
      else l
    else l
  }

  function Stamps(nodes: seq<nat>, birth: seq<nat>): (r: seq<nat>)
    ensures |r| == |nodes|
  {
    seq(|nodes|, i requires 0 <= i < |nodes| => if nodes[i] < |birth| then birth[nodes[i]] else 0)
  }

  function AttachHistory(a: Aux, b: nat, x: nat): Aux {
    if b !in a.hang || x >= |a.loc| then a
    else
      var loc := seq(|a.loc|, y requires 0 <= y < |a.loc| => Moved(a.loc[y], b, a.loc[x], a));
      match a.loc[x]
      case Queued(_) =>
        a.(loc := loc, log := a.log + a.hang[b], stamp := a.stamp + Stamps(a.hang[b], a.birth), hang := a.hang - {b})
      case Hanging(r, _) =>
        if r in a.hang then a.(loc := loc, hang := (a.hang - {b})[r := a.hang[r] + a.hang[b]]) else a
      case _ => a
  }

  function RunHistory(c: Core, a: Aux, t: Tid): Aux
    requires t in c.pc
  {
    match c.pc[t]
    case EClaim(b) =>
      if b < |c.inq| && !c.inq[b] && b < |a.loc| && b < |a.birth| && b < |a.owner| then
        a.(loc := a.loc[b := Starting], birth := a.birth[b := a.clock], clock := a.clock + 1,
           owner := a.owner[b := t])
      else a
    case EReset(b) =>
      if b < |a.loc| then a.(loc := a.loc[b := Hanging(b, 0)], hang := a.hang[b := [b]]) else a
    case ELink(b, tail, next) =>
      var now := Deref(c, tail.ptr);
      if now.Some? && SameWord(now.value, next) then AttachHistory(a, b, tail.ptr.node) else a
    case EHelp(_, tail, _) => if SameWord(tail, c.tail) then a.(tpos := a.tpos + 1) else a
    case ESwing(_, tail) => if SameWord(tail, c.tail) then a.(tpos := a.tpos + 1) else a
    case DHelp(_, tail, _) => if SameWord(tail, c.tail) then a.(tpos := a.tpos + 1) else a
    case DReadNext(_, _) =>
      a.(sawSingle := if |a.log| == |a.out| + 1 then a.sawSingle + {t} else a.sawSingle - {t})
    case DMove(head, _, _) =>
      if SameWord(head, c.head) && head.ptr.At? && head.ptr.node < |a.loc| && head.ptr.node < |a.owner| then
        a.(out := a.out + [head.ptr.node], loc := a.loc[head.ptr.node := Leaving],
           owner := a.owner[head.ptr.node := t])
      else a
    case DRelease(b) =>
      if b < |a.loc| then a.(loc := a.loc[b := Free], dummyKept := a.dummyKept && b != Dummy(c)) else a
    case _ => a
  }

  function Step(s: State, e: Event): State {
    State(CoreStep(s.c, e), if e.Run? && e.t in s.c.pc then RunHistory(s.c, s.a, e.t) else s.a)
  }

  // ----- Invariant ----------------------------------------------------------------------------

  ghost predicate Sizes(c: Core, a: Aux) {
    |c.qnext| == |c.inq| == |a.loc| == |a.birth| == |a.owner| && |c.inq| > 0 && |a.stamp| == |a.log|
  }

  /** The links lead from each of `s[from..]` to the next, and from the last to NULL. */
  ghost predicate Path(qnext: seq<Link>, s: seq<nat>, from: nat) {
    && from < |s|
    && (forall i :: from <= i < |s| ==> s[i] < |qnext|)
    && (forall i, j :: from <= i && j == i + 1 && j < |s| ==> qnext[s[i]].ptr == At(s[j]))
    && qnext[s[|s| - 1]].ptr == Null
  }

  /** From `head` on, the links spell out `log[|out|..]`, ending in NULL; `tail` is on that chain. */
  ghost predicate ChainOk(qnext: seq<Link>, head: Ptr, tail: Ptr, log: seq<nat>, out: seq<nat>, tpos: nat,
                          loc: seq<Loc>) {
    && |qnext| == |loc|
    && |out| <= tpos < |log|
    && out == log[..|out|]
    && Path(qnext, log, |out|)
    && (forall p :: |out| <= p < |log| ==> log[p] < |loc| && loc[log[p]] == Queued(p))
    && head == At(log[|out|])
    && tail == At(log[tpos])
    && (forall x :: 0 <= x < |loc| && loc[x].Queued? ==> |out| <= loc[x].pos < |log| && log[loc[x].pos] == x)
  }

  /** The chain hanging from `r` is linked from its root, ends in NULL, and its root was claimed last. */
  ghost predicate HangChain(qnext: seq<Link>, loc: seq<Loc>, birth: seq<nat>, r: nat, s: seq<nat>) {
    && |qnext| == |loc| == |birth|
    && |s| > 0 && s[0] == r && Path(qnext, s, 0)
    && (forall i :: 0 <= i < |s| ==> s[i] < |loc| && loc[s[i]] == Hanging(r, i))
    && (forall i :: 0 < i < |s| ==> birth[s[i]] < birth[r])
  }

  ghost predicate HangOk(qnext: seq<Link>, loc: seq<Loc>, birth: seq<nat>, hang: map<nat, seq<nat>>) {
    && |qnext| == |loc| == |birth|
    && (forall r :: r in hang ==> HangChain(qnext, loc, birth, r, hang[r]))
    && HangIndex(loc, hang)
  }

  /** Every hanging buffer is where its place says. */
  ghost predicate HangIndex(loc: seq<Loc>, hang: map<nat, seq<nat>>) {
    forall x :: 0 <= x < |loc| && loc[x].Hanging? ==>
      loc[x].root in hang && loc[x].at < |hang[loc[x].root]| && hang[loc[x].root][loc[x].at] == x
  }

  predicate Entering(l: Loc) { l.Starting? || l.Hanging? }

  /** No two entries of the log, and no entry and a buffer on its way in, are the same enqueue. */
  ghost predicate BirthsOk(stamp: seq<nat>, loc: seq<Loc>, birth: seq<nat>, clock: nat) {
    && |loc| == |birth|
    && (forall x :: 0 <= x < |birth| ==> birth[x] < clock)
    && (forall p :: 0 <= p < |stamp| ==> stamp[p] < clock)
    && (forall p, q :: 0 <= p < q < |stamp| ==> stamp[p] != stamp[q])
    && (forall x, y :: 0 <= x < y < |loc| && Entering(loc[x]) && Entering(loc[y]) ==> birth[x] != birth[y])
    && (forall x, p :: 0 <= x < |loc| && 0 <= p < |stamp| && Entering(loc[x]) ==> stamp[p] != birth[x])
  }

  /** A NULL link is found only on a chain, so no CAS links behind a buffer at rest. */
  ghost predicate RestOk(qnext: seq<Link>, loc: seq<Loc>) {
    |qnext| == |loc|
    && forall x :: 0 <= x < |loc| && (loc[x].Free? || loc[x].Starting? || loc[x].Leaving?) ==> qnext[x].ptr.At?
  }

  /** `in_q` is 1 exactly while the buffer is claimed, except for the initial dummy. */
  ghost predicate FlagsOk(inq: seq<bool>, loc: seq<Loc>, dummyKept: bool) {
    && |inq| == |loc| > 0
    && (forall x :: 0 <= x < |loc| ==> (inq[x] <==> !loc[x].Free? && !(dummyKept && x == |inq| - 1)))
    && (dummyKept ==> loc[|inq| - 1].Queued? || loc[|inq| - 1].Leaving?)
  }

  /** The buffer a thread is carrying into the queue and has not linked yet, or out of it. */
  function Carried(pc: Pc): Option<(nat, bool)> {
    match pc
    case EReset(b) => Some((b, true))
    case EReadTail(b) => Some((b, true))
    case EReadNext(b, _) => Some((b, true))
    case ECheck(b, _, _) => Some((b, true))
    case ELink(b, _, _) => Some((b, true))
    case EHelp(b, _, _) => Some((b, true))
    case DRelease(b) => Some((b, false))
    case _ => None
  }

  /** Whoever carries a buffer owns it, and every buffer that is in transit is carried. */
  ghost predicate OwnersOk(pc: map<Tid, Pc>, owner: seq<Tid>, loc: seq<Loc>) {
    && |owner| == |loc|
    && (forall t :: t in pc && Carried(pc[t]).Some? ==>
          Carried(pc[t]).value.0 < |owner| && owner[Carried(pc[t]).value.0] == t)
    && (forall x :: 0 <= x < |loc| && InTransit(loc[x], x) ==>
          owner[x] in pc && Carried(pc[owner[x]]) == Some((x, !loc[x].Leaving?)))
  }

  predicate InTransit(l: Loc, x: nat) { l.Starting? || l.Leaving? || (l.Hanging? && l.root == x) }

  /** A copy of `tail` that a thread made is the current one or an older one; a buffer that has
      come back on its way in since then was claimed after the thread's own buffer. */
  ghost predicate TailCopy(c: Core, a: Aux, tail: Link)
    requires Sizes(c, a)
  {
    && tail.version <= c.tail.version && (tail.version == c.tail.version ==> tail == c.tail)
    && tail.ptr.At? && tail.ptr.node < |c.qnext|
  }

  ghost predicate Younger(c: Core, a: Aux, tail: Link, b: nat)
    requires Sizes(c, a)
  {
    tail.ptr.At? && tail.ptr.node < |c.qnext| && b < |a.loc|
    && (Entering(a.loc[tail.ptr.node]) ==> a.birth[b] < a.birth[tail.ptr.node])
  }

  ghost predicate HeadCopy(c: Core, a: Aux, head: Link)
    requires Sizes(c, a)
  {
    && head.version <= c.head.version && (head.version == c.head.version ==> head == c.head)
    && head.ptr.At? && head.ptr.node < |c.qnext|
  }

  /** `next` was read from the node of `at`; if that copy is current, a non-NULL `next` still is. */
  ghost predicate NextCopy(c: Core, at: Link, next: Link, current: Link) {
    at == current && next.ptr.At? && at.ptr.At? && at.ptr.node < |c.qnext| ==>
      next.ptr == c.qnext[at.ptr.node].ptr
  }

  ghost predicate NonEmptySeen(c: Core, a: Aux, head: Link, tail: Link) {
    head == c.head && tail.ptr != head.ptr ==> |a.out| < a.tpos
  }

  ghost predicate ThreadOk(c: Core, a: Aux, t: Tid, pc: Pc)
    requires Sizes(c, a)
  {
    match pc
    case Idle(_) => true
    case Fault => false
    case EClaim(b) => b < |c.inq| && !(a.dummyKept && b == Dummy(c))
    case EReset(b) => b < |a.loc| && a.loc[b].Starting?
    case EReadTail(b) => b < |a.loc| && a.loc[b] == Hanging(b, 0)
    case EReadNext(b, tail) =>
      b < |a.loc| && a.loc[b] == Hanging(b, 0) && TailCopy(c, a, tail) && Younger(c, a, tail, b)
    case ECheck(b, tail, next) =>
      b < |a.loc| && a.loc[b] == Hanging(b, 0) && TailCopy(c, a, tail) && Younger(c, a, tail, b)
      && NextCopy(c, tail, next, c.tail)
    case ELink(b, tail, next) =>
      b < |a.loc| && a.loc[b] == Hanging(b, 0) && TailCopy(c, a, tail) && Younger(c, a, tail, b) && next.ptr.Null?
    case EHelp(b, tail, next) =>
      b < |a.loc| && a.loc[b] == Hanging(b, 0) && TailCopy(c, a, tail) && Younger(c, a, tail, b)
      && next.ptr.At? && NextCopy(c, tail, next, c.tail)
    case ESwing(b, tail) => TailCopy(c, a, tail) && NextCopy(c, tail, Link(0, At(b)), c.tail)
    case DReadHead => true
    case DReadTail(head) => HeadCopy(c, a, head)
    case DReadNext(head, tail) => HeadCopy(c, a, head) && TailCopy(c, a, tail) && NonEmptySeen(c, a, head, tail)
    case DCheck(head, tail, next) =>
      HeadCopy(c, a, head) && TailCopy(c, a, tail) && NonEmptySeen(c, a, head, tail)
      && (head.ptr == tail.ptr ==> NextCopy(c, tail, next, c.tail))
      && (head == c.head && head.ptr != tail.ptr ==> next.ptr.At?) && NextCopy(c, head, next, c.head)
      && (head == c.head && next.ptr.Null? ==> t in a.sawSingle)
    case DHelp(head, tail, next) => TailCopy(c, a, tail) && next.ptr.At? && NextCopy(c, tail, next, c.tail)
    case DMove(head, tail, next) =>
      HeadCopy(c, a, head) && NonEmptySeen(c, a, head, tail) && head.ptr != tail.ptr
      && (head == c.head ==> next.ptr.At?) && NextCopy(c, head, next, c.head)
    case DRelease(b) => b < |a.loc| && a.loc[b].Leaving?
  }

  ghost predicate ThreadsOk(c: Core, a: Aux)
    requires Sizes(c, a)
  {
    forall t :: t in c.pc ==> ThreadOk(c, a, t, c.pc[t])
  }

  ghost predicate Inv(s: State) {
    var c, a := s.c, s.a;
    && Sizes(c, a)
    && ChainOk(c.qnext, c.head.ptr, c.tail.ptr, a.log, a.out, a.tpos, a.loc)
    && HangOk(c.qnext, a.loc, a.birth, a.hang)
    && BirthsOk(a.stamp, a.loc, a.birth, a.clock)
    && RestOk(c.qnext, a.loc)
    && FlagsOk(c.inq, a.loc, a.dummyKept)
    && OwnersOk(c.pc, a.owner, a.loc)
    && ThreadsOk(c, a)
  }

  // ----- Assumptions about a run ----------------------------------------------------------------

  /** Callers enqueue real buffers, and never the dummy before `dequeue` has handed it out. */
  predicate Legal(s: State, e: Event) {
    e.Enqueue? ==> e.b < |s.c.inq| && !(s.a.dummyKept && e.b == Dummy(s.c))
  }

  function TailHeld(pc: Pc): Option<Link> {
    match pc
    case EReadNext(_, tail) => Some(tail)
    case ECheck(_, tail, _) => Some(tail)
    case ELink(_, tail, _) => Some(tail)
    case EHelp(_, tail, _) => Some(tail)
    case ESwing(_, tail) => Some(tail)
    case DReadNext(_, tail) => Some(tail)
    case DCheck(_, tail, _) => Some(tail)
    case DHelp(_, tail, _) => Some(tail)
    case _ => None
  }

  function HeadHeld(pc: Pc): Option<Link> {
    match pc
    case DReadTail(head) => Some(head)
    case DReadNext(head, _) => Some(head)
    case DCheck(head, _, _) => Some(head)
    case DMove(head, _, _) => Some(head)
    case _ => None
  }

  predicate Follows(c: Core, end: Link, to: Ptr) {
    Deref(c, end.ptr).Some? && Deref(c, end.ptr).value.ptr == to
  }

  /** If the next step is a compare-and-swap that moves `head` or `tail`, it moves it to the node linked
      behind the one it names now, and `head` does not overtake `tail`. */
  predicate InStep(c: Core, e: Event) {
    e.Run? && e.t in c.pc ==>
      match c.pc[e.t]
      case EHelp(_, tail, next) => SameWord(tail, c.tail) ==> Follows(c, c.tail, next.ptr)
      case ESwing(b, tail) => SameWord(tail, c.tail) ==> Follows(c, c.tail, At(b))
      case DHelp(_, tail, next) => SameWord(tail, c.tail) ==> Follows(c, c.tail, next.ptr)
      case DMove(head, _, next) => SameWord(head, c.head) ==> Follows(c, c.head, next.ptr) && c.tail.ptr != c.head.ptr
      case _ => true
  }

  /** Fewer than 2^32 moves of `head` or `tail` happened since this thread copied it. */
  predicate Awake(c: Core, pc: Pc) {
    && (TailHeld(pc).Some? ==> c.tail.version - TailHeld(pc).value.version < COUNTS)
    && (HeadHeld(pc).Some? ==> c.head.version - HeadHeld(pc).value.version < COUNTS)
  }

  /** No thread sleeps through 2^32 moves of `head` or `tail` while it holds a copy of it. */
  ghost predicate NotLapped(c: Core) {
    forall t :: t in c.pc ==> Awake(c, c.pc[t])
  }

  lemma SameVersion(copy: Link, now: Link)
    requires SameWord(copy, now) && copy.version <= now.version && now.version - copy.version < COUNTS
    ensures copy.version == now.version
  {
    var d := now.version - copy.version;
    assert (copy.version + d) % COUNTS == copy.version % COUNTS;
    assert copy.version == COUNTS * (copy.version / COUNTS) + copy.version % COUNTS;
    assert now.version == COUNTS * (now.version / COUNTS) + now.version % COUNTS;
  }
}
