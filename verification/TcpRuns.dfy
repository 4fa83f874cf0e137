/** Whole lives of a TCP control block: any sequence of calls and arriving segments. */
module TcpRuns {
  import opened TcpConnection

  datatype Call =
    | Serve
    | Open(isn: nat, client: bool)
    | Put(len: nat)
    | Finish
    | Hear(seg: Segment, isn: nat)

  /** The control block between two calls. */
  datatype Snap = Snap(state: Phase, iss: nat, irs: nat, una: nat, nxt: nat, rcvNxt: nat,
                       incarnation: nat, stream: seq<Piece>, heard: bool, peerFin: bool)

  ghost function Now(cb: ControlBlock): Snap
    reads cb
  {
    Snap(cb.state, cb.iss, cb.irs, cb.una, cb.nxt, cb.rcvNxt, cb.incarnation, cb.stream, cb.heard, cb.peerFin)
  }

  /** The numbers of the call fit their types. */
  predicate Typed(call: Call) {
    match call
    case Serve => true
    case Open(isn, _) => isn < U32
    case Put(len) => len < U32
    case Finish => true
    case Hear(seg, isn) => Ranged(seg) && isn < U32
  }

  /** The call wraps no sequence number around. */
  ghost predicate Fits(s: Snap, call: Call)
    requires s.rcvNxt < U32
  {
    match call
    case Serve => true
    case Open(isn, _) => isn + 1 < U32
    case Put(len) => s.state == ESTABLISHED ==> s.nxt + len < U32
    case Finish => s.state in {SYN_RCVD, ESTABLISHED, CLOSE_WAIT} ==> s.nxt + 1 < U32
    case Hear(seg, isn) => InOrder(s.state, s.iss, s.una, s.nxt, s.rcvNxt, seg, isn)
  }

  method WillFit(cb: ControlBlock, call: Call) returns (ok: bool)
    requires cb.rcvNxt < U32
    ensures ok <==> Fits(Now(cb), call)
  {
    match call
    case Serve => ok := true;
    case Open(isn, _) => ok := isn + 1 < U32;
    case Put(len) => ok := cb.state == ESTABLISHED ==> cb.nxt + len < U32;
    case Finish => ok := cb.state in {SYN_RCVD, ESTABLISHED, CLOSE_WAIT} ==> cb.nxt + 1 < U32;
    case Hear(seg, isn) => ok := InOrder(cb.state, cb.iss, cb.una, cb.nxt, cb.rcvNxt, seg, isn);
  }

  /** What holds of the numbers, in sections 3.2 and 3.9 of RFC 793. */
  ghost predicate Sound(s: Snap) {
    && (s.stream != [] ==> Tiled(s.stream, s.iss, s.nxt) && s.iss <= s.una <= s.nxt)
    && (s.state == FIN_WAIT2 || s.state == TIME_WAIT ==> s.stream != [] && s.una == s.nxt && FinSent(s.stream))
    && (s.state == TIME_WAIT || s.state == CLOSE_WAIT || s.state == CLOSING || s.state == LAST_ACK ==> s.peerFin)
    && (s.state == ESTABLISHED ==> s.heard && !s.peerFin && !FinSent(s.stream))
  }

  /** Nothing goes back within an incarnation. */
  predicate Ahead(s: Snap, t: Snap) {
    && s.incarnation <= t.incarnation
    && (t.incarnation == s.incarnation ==>
          && t.iss == s.iss && s.una <= t.una && s.nxt <= t.nxt && s.stream <= t.stream
          && (s.heard ==> t.heard && t.irs == s.irs && s.rcvNxt <= t.rcvNxt)
          && (s.peerFin ==> t.peerFin))
  }

  predicate HasFin(out: seq<Signal>) { exists i :: 0 <= i < |out| && out[i].isFin }

  /** What one call does and sends. */
  ghost predicate Moves(s: Snap, call: Call, t: Snap, out: seq<Signal>) {
    && Ahead(s, t)
    && (HasFin(out) ==> call.Finish? && t.incarnation == s.incarnation && !FinSent(s.stream) && FinSent(t.stream))
    && match call
       case Serve => t.state == LISTEN && out == []
       case Open(isn, _) =>
         t.state == SYN_SENT && t.iss == isn && t.incarnation == s.incarnation + 1
         && out == [Signal(isn, 0, true, false, false, false, 0)]
       case Put(len) =>
         t.state == s.state && t.incarnation == s.incarnation
         && out == if s.state == ESTABLISHED then [Signal(s.nxt, t.rcvNxt, false, true, false, false, len)] else []
       case Finish =>
         t.incarnation == s.incarnation
         && (if s.state in {SYN_RCVD, ESTABLISHED, CLOSE_WAIT} then HasFin(out) && t.state in {FIN_WAIT1, LAST_ACK}
             else out == [] && t.state == s.state)
       case Hear(seg, isn) =>
         out == Reply(s.state, s.iss, s.una, s.nxt, s.rcvNxt, seg, isn)
         && (Synchronised(s.state) && t.rcvNxt != s.rcvNxt ==> out != [] && out[|out| - 1] == Ack(s.nxt, t.rcvNxt))
         && Follows(s.state, t.state) && (t.incarnation != s.incarnation ==> t.state == SYN_RCVD && t.iss == isn)
         && (Synchronised(s.state) && !Acceptable(seg, s.rcvNxt, seg.wnd) ==>
               out == [Ack(s.nxt, s.rcvNxt)] && t.state == s.state && t.una == s.una && t.rcvNxt == s.rcvNxt)
         && (Synchronised(s.state) && Acceptable(seg, s.rcvNxt, seg.wnd) && s.rcvNxt < U32 ==>
               t.rcvNxt == s.rcvNxt + Gain(s.state, s.una, s.nxt, s.rcvNxt, seg))
  }

  method Perform(cb: ControlBlock, call: Call) returns (out: seq<Signal>)
    requires cb.Valid() && Typed(call) && Fits(Now(cb), call)
    modifies cb
    ensures cb.Valid() && Moves(old(Now(cb)), call, Now(cb), out)
  {
    hide Tiled, UnaOk, Acceptable, InOrder;
    match call
    case Serve =>
      cb.Listen();
      out := [];
    case Open(isn, client) =>
      out := cb.Connect(isn, client);
    case Put(len) =>
      var ok;
      ok, out := cb.Send(len);
    case Finish =>
      var ok;
      ok, out := cb.Close();
      assert ok ==> out[0].isFin;
    case Hear(seg, isn) =>
      out := PerformHear(cb, seg, isn);
  }

  method PerformHear(cb: ControlBlock, seg: Segment, isn: nat) returns (out: seq<Signal>)
    requires cb.Valid() && Ranged(seg) && isn < U32 && Fits(Now(cb), Hear(seg, isn))
    modifies cb
    ensures cb.Valid() && Moves(old(Now(cb)), Hear(seg, isn), Now(cb), out)
  {
    hide Tiled, UnaOk, FinSent, Acceptable, InOrder, Gain, Add, Reply, TakesText, TakesFin, Becomes;
    ghost var s := Now(cb);
    ghost var gain := Gain(s.state, s.una, s.nxt, s.rcvNxt, seg);
    if s.rcvNxt + gain < U32 { AddOk(s.rcvNxt, gain); }
    LastAcknowledges(s, seg, isn);
    out := cb.Arrive(seg, isn);
  }

  lemma LastAcknowledges(s: Snap, seg: Segment, isn: nat)
    ensures s.rcvNxt < U32 && Ranged(seg) && Synchronised(s.state) && Acceptable(seg, s.rcvNxt, seg.wnd) ==>
      var out := Reply(s.state, s.iss, s.una, s.nxt, s.rcvNxt, seg, isn);
      var end := Add(s.rcvNxt, Gain(s.state, s.una, s.nxt, s.rcvNxt, seg));
      end != s.rcvNxt ==> out != [] && out[|out| - 1] == Ack(s.nxt, end)
  {
    hide ReplyOpen, Acceptable, Add, Gain;
    if s.rcvNxt < U32 && Ranged(seg) && Synchronised(s.state) && Acceptable(seg, s.rcvNxt, seg.wnd) {
      TakenIsAcknowledged(s.state, s.una, s.nxt, s.rcvNxt, seg);
    }
  }

  lemma ValidIsSound(cb: ControlBlock)
    requires cb.Valid()
    ensures Sound(Now(cb))
  {
    hide Tiled, FinSent;
  }

  /** `trace` is the history of a control block that performed `calls` and sent `outs`. */
  ghost predicate History(trace: seq<Snap>, calls: seq<Call>, outs: seq<seq<Signal>>) {
    && |trace| == |outs| + 1 && |outs| <= |calls|
    && (forall i :: 0 <= i < |trace| ==> Sound(trace[i]))
    && (forall i, j :: 0 <= i && j == i + 1 && j < |trace| ==> Moves(trace[i], calls[i], trace[j], outs[i]))
  }

  lemma HistoryMore(trace: seq<Snap>, calls: seq<Call>, outs: seq<seq<Signal>>, out: seq<Signal>, s: Snap)
    requires History(trace, calls, outs) && |outs| < |calls| && Sound(s)
    requires Moves(trace[|outs|], calls[|outs|], s, out)
    ensures History(trace + [s], calls, outs + [out])
  {
    hide Sound, Moves;
    var n, trace', outs' := |outs|, trace + [s], outs + [out];
    assert trace'[n] == trace[n] && trace'[n + 1] == s && outs'[n] == out;
    forall i, j | 0 <= i && j == i + 1 && j < |trace'| ensures Moves(trace'[i], calls[i], trace'[j], outs'[i]) {
      if j <= n { assert trace'[i] == trace[i] && trace'[j] == trace[j] && outs'[i] == outs[i]; }
    }
  }

  /** Any calls and segments in any order, until one would make a sequence number wrap. */
  method Run(calls: seq<Call>) returns (cb: ControlBlock, outs: seq<seq<Signal>>, ghost trace: seq<Snap>)
    requires forall i :: 0 <= i < |calls| ==> Typed(calls[i])
    ensures fresh(cb) && cb.Valid() && History(trace, calls, outs) && trace[|outs|] == Now(cb)
    ensures trace[0].state == CLOSED && trace[0].stream == []
    ensures |outs| < |calls| ==> !Fits(Now(cb), calls[|outs|])
  {
    hide Sound, Moves, InOrder, Ranged;
    cb := new ControlBlock();
    ValidIsSound(cb);
    outs, trace := [], [Now(cb)];
    while |outs| < |calls|
      invariant fresh(cb) && cb.Valid() && History(trace, calls, outs) && trace[|outs|] == Now(cb)
      invariant trace[0].state == CLOSED && trace[0].stream == []
      decreases |calls| - |outs|
    {
      var ok := WillFit(cb, calls[|outs|]);
      if !ok {
        return;
      }
      var out := Perform(cb, calls[|outs|]);
      ValidIsSound(cb);
      HistoryMore(trace, calls, outs, out, Now(cb));
      outs, trace := outs + [out], trace + [Now(cb)];
    }
  }

  // ----- What holds across calls --------------------------------------------------------------------

  /** Within an incarnation, through any calls and segments: the initial numbers stay, `snd.una`,
      `snd.nxt` and `rcv.nxt` never go back, what was sent stays sent, and a FIN once heard stays heard. */
  lemma {:induction false} NothingGoesBack(trace: seq<Snap>, calls: seq<Call>, outs: seq<seq<Signal>>, i: nat, j: nat)
    requires History(trace, calls, outs) && i <= j < |trace|
    ensures Ahead(trace[i], trace[j])
    decreases j - i
  {
    hide Sound;
    if i < j {
      NothingGoesBack(trace, calls, outs, i, j - 1);
      assert Moves(trace[j - 1], calls[j - 1], trace[j], outs[j - 1]);
    }
  }

  /** After a FIN nothing more is sent in the sequence space. */
  lemma FinStays(s: Snap, t: Snap)
    requires Sound(t) && FinSent(s.stream) && s.stream <= t.stream
    ensures t.stream == s.stream
  {
    var last := |s.stream| - 1;
    assert t.stream[last] == s.stream[last];
    OneFin(t.stream, t.iss, t.nxt);
  }

  /** Two calls of one incarnation do not both send a FIN. */
  lemma OneFinPerIncarnation(trace: seq<Snap>, calls: seq<Call>, outs: seq<seq<Signal>>, i: nat, j: nat)
    requires History(trace, calls, outs) && i < j < |outs| && trace[i].incarnation == trace[j].incarnation
    requires HasFin(outs[i])
    ensures !HasFin(outs[j])
  {
    hide Sound, HasFin;
    assert Moves(trace[i], calls[i], trace[i + 1], outs[i]);
    assert Moves(trace[j], calls[j], trace[j + 1], outs[j]);
    NothingGoesBack(trace, calls, outs, i + 1, j);
    FinStays(trace[i + 1], trace[j]);
  }

  /** An own FIN, once acknowledged, was sent: from FIN_WAIT2 on the incarnation sends no further text. */
  lemma QuietAfterFin(trace: seq<Snap>, calls: seq<Call>, outs: seq<seq<Signal>>, i: nat, j: nat)
    requires History(trace, calls, outs) && i <= j < |trace| && trace[i].incarnation == trace[j].incarnation
    requires trace[i].state == FIN_WAIT2 || trace[i].state == TIME_WAIT
    ensures trace[j].stream == trace[i].stream && trace[j].nxt == trace[i].nxt == trace[j].una
  {
    NothingGoesBack(trace, calls, outs, i, j);
    FinStays(trace[i], trace[j]);
  }

  /** A peer that begins at 2^32 - 3 and sends ten bytes at once: `rcv.nxt` goes from 2^32 - 2 to 8, and from
      then on compares as smaller. */
  method ReceivedAroundZero() returns (cb: ControlBlock, before: nat)
    ensures fresh(cb) && cb.state == ESTABLISHED && before == U32 - 2 && cb.rcvNxt == 8 && cb.rcvNxt < cb.irs
  {
    hide InOrder, Gain, Acceptable, Add, Tiled, FinSent, UnaOk, Becomes;
    TextAroundZero();
    cb := new ControlBlock();
    var out := cb.Connect(0, true);
    out := cb.Arrive(Segment(U32 - 3, 1, false, true, false, true, 0, 1), 0);
    before := cb.rcvNxt;
    var text := Segment(U32 - 2, 1, false, false, false, true, 10, 1);
    out := cb.Arrive(text, 0);
  }

  lemma TextAroundZero()
    ensures Add(U32 - 3, 1) == U32 - 2 && Add(0, 1) == 1 && Add(U32 - 2, 10) == 8
    ensures var text := Segment(U32 - 2, 1, false, false, false, true, 10, 1);
      && Acceptable(text, U32 - 2, 1) && Gain(ESTABLISHED, 1, 1, U32 - 2, text) == 10
      && Becomes(ESTABLISHED, 1, 1, text) == ESTABLISHED
    ensures InOrder(SYN_SENT, 0, 0, 1, 0, Segment(U32 - 3, 1, false, true, false, true, 0, 1), 0)
  {
  }
}
