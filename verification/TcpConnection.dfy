/** The TCP control block of lab7/kernel/tcp.c, after sections 3.2 and 3.9 of RFC 793.

    Sequence numbers are 32-bit and compared as plain unsigned numbers, so they rise until one wraps
    around; each call says exactly when that is. */
module TcpConnection {

  const U32: nat := 0x1_0000_0000
  const U16: nat := 0x1_0000
  const WINDOW: nat := 2048

  datatype Phase =
    | CLOSED | LISTEN | SYN_SENT | SYN_RCVD | ESTABLISHED
    | FIN_WAIT1 | FIN_WAIT2 | CLOSING | TIME_WAIT | CLOSE_WAIT | LAST_ACK

  /** An arriving segment; `len` counts its text. */
  datatype Segment = Segment(sn: nat, ack: nat, isFin: bool, isSyn: bool, isRst: bool, isAck: bool, len: nat, wnd: nat)

  /** A segment sent. */
  datatype Signal = Signal(sn: nat, ack: nat, isSyn: bool, isAck: bool, isRst: bool, isFin: bool, len: nat)

  datatype Kind = Syn | Text | Fin

  /** A piece of the sequence space this side has used in the current incarnation. */
  datatype Piece = Piece(at: nat, len: nat, kind: Kind)

  function Add(a: nat, b: nat): nat { (a + b) % U32 }

  lemma AddOk(a: nat, b: nat)
    requires a + b < U32
    ensures Add(a, b) == a + b
  {
  }

  lemma Wraps(a: nat, b: nat)
    requires a < U32 && b < U32
    ensures Add(a, b) == if a + b < U32 then a + b else a + b - U32
  {
  }

  /** A 16-bit window less `len`. */
  function Shrunk(wnd: nat, len: nat): nat { (wnd + U32 - len % U32) % U16 }

  function Ack(sn: nat, ack: nat): Signal { Signal(sn, ack, false, true, false, false, 0) }

  function Reset(sn: nat): Signal { Signal(sn, 0, false, false, true, false, 0) }

  // ----- What this side has sent ---------------------------------------------------------------

  /** The pieces start with the SYN at `iss`, follow each other without gap or overlap up to `nxt`,
      and after a FIN there is none. */
  ghost predicate Tiled(stream: seq<Piece>, iss: nat, nxt: nat) {
    && |stream| > 0 && stream[0] == Piece(iss, 1, Syn)
    && (forall i, j :: 0 <= i && j == i + 1 && j < |stream| ==>
          stream[j].at == stream[i].at + stream[i].len && stream[j].kind != Syn && stream[i].kind != Fin)
    && (forall i :: 0 <= i < |stream| && stream[i].kind == Fin ==> stream[i].len == 1)
    && stream[|stream| - 1].at + stream[|stream| - 1].len == nxt
  }

  lemma TiledStart(isn: nat)
    ensures !FinSent([Piece(isn, 1, Syn)])
    ensures forall nxt: nat :: Tiled([Piece(isn, 1, Syn)], isn, nxt) <==> nxt == isn + 1
  {
  }

  predicate FinSent(stream: seq<Piece>) { |stream| > 0 && stream[|stream| - 1].kind == Fin }

  lemma TiledMore(stream: seq<Piece>, iss: nat, nxt: nat, len: nat, kind: Kind)
    requires Tiled(stream, iss, nxt) && !FinSent(stream) && kind != Syn && (kind == Fin ==> len == 1)
    ensures Tiled(stream + [Piece(nxt, len, kind)], iss, nxt + len)
    ensures FinSent(stream + [Piece(nxt, len, kind)]) <==> kind == Fin
  {
    var more := stream + [Piece(nxt, len, kind)];
    forall i, j | 0 <= i && j == i + 1 && j < |more|
      ensures more[j].at == more[i].at + more[i].len && more[j].kind != Syn && more[i].kind != Fin
    {
      assert more[i] == stream[i];
      if j < |stream| {
        assert more[j] == stream[j];
      } else {
        assert more[j] == Piece(nxt, len, kind) && stream[i] == stream[|stream| - 1];
      }
    }
    forall i | 0 <= i < |more| && more[i].kind == Fin ensures more[i].len == 1 {
      assert more[i] == if i < |stream| then stream[i] else Piece(nxt, len, kind);
    }
    assert more[0] == stream[0] && more[|more| - 1] == Piece(nxt, len, kind);
  }

  lemma {:induction false} TiledAt(stream: seq<Piece>, iss: nat, nxt: nat, i: nat)
    requires Tiled(stream, iss, nxt) && i < |stream|
    ensures iss <= stream[i].at && stream[i].at + stream[i].len <= nxt
    decreases |stream| - i
  {
    TiledFrom(stream, iss, nxt, i);
    if i + 1 < |stream| { TiledAt(stream, iss, nxt, i + 1); }
  }

  lemma {:induction false} TiledFrom(stream: seq<Piece>, iss: nat, nxt: nat, i: nat)
    requires Tiled(stream, iss, nxt) && i < |stream|
    ensures iss <= stream[i].at
  {
    if i > 0 { TiledFrom(stream, iss, nxt, i - 1); }
  }

  /** Every number from `iss` up to `snd.nxt` was used by exactly one piece. */
  lemma {:induction false} UsedOnce(stream: seq<Piece>, iss: nat, nxt: nat, x: nat) returns (i: nat)
    requires Tiled(stream, iss, nxt) && iss <= x < nxt
    ensures i < |stream| && stream[i].at <= x < stream[i].at + stream[i].len
    ensures forall j :: 0 <= j < |stream| && stream[j].at <= x < stream[j].at + stream[j].len ==> j == i
  {
    i := 0;
    while x >= stream[i].at + stream[i].len
      invariant i < |stream| && stream[i].at <= x
      decreases |stream| - i
    {
      i := i + 1;
    }
    forall j | 0 <= j < |stream| && stream[j].at <= x < stream[j].at + stream[j].len ensures j == i {
      if j < i { Rising(stream, iss, nxt, j, i); } else if i < j { Rising(stream, iss, nxt, i, j); }
    }
  }

  lemma {:induction false} Rising(stream: seq<Piece>, iss: nat, nxt: nat, i: nat, j: nat)
    requires Tiled(stream, iss, nxt) && i < j < |stream|
    ensures stream[i].at + stream[i].len <= stream[j].at
    decreases j - i
  {
    if i + 1 < j { Rising(stream, iss, nxt, i, j - 1); }
  }

  /** At most one FIN, and it is the last piece. */
  lemma OneFin(stream: seq<Piece>, iss: nat, nxt: nat)
    requires Tiled(stream, iss, nxt)
    ensures forall i :: 0 <= i < |stream| && stream[i].kind == Fin ==> i == |stream| - 1
  {
    forall i | 0 <= i < |stream| - 1 ensures stream[i].kind != Fin {
      var j := i + 1;
      assert stream[j].at == stream[i].at + stream[i].len;
    }
  }

  // ----- Phases --------------------------------------------------------------------------------

  /** A connection exists. */
  predicate Open(s: Phase) { s != CLOSED && s != LISTEN }

  predicate ClosedByUs(s: Phase) { s == FIN_WAIT1 || s == FIN_WAIT2 || s == CLOSING || s == TIME_WAIT || s == LAST_ACK }

  predicate ClosedByPeer(s: Phase) { s == CLOSE_WAIT || s == LAST_ACK || s == CLOSING || s == TIME_WAIT }

  /** Which phases may follow which; a closed block that hears a SYN answers like a listening one. */
  predicate Follows(s: Phase, t: Phase) {
    || s == t
    || t == CLOSED
    || ((s == CLOSED || s == LISTEN) && t == SYN_RCVD)
    || (s == SYN_SENT && (t == ESTABLISHED || t == SYN_RCVD))
    || (s == SYN_RCVD && (t == ESTABLISHED || t == CLOSE_WAIT))
    || (s == ESTABLISHED && t == CLOSE_WAIT)
    || (s == FIN_WAIT1 && (t == FIN_WAIT2 || t == CLOSING || t == TIME_WAIT))
    || ((s == FIN_WAIT2 || s == CLOSING) && t == TIME_WAIT)
  }

  /** Acknowledgement and phase fit together. */
  ghost predicate UnaOk(s: Phase, iss: nat, una: nat, nxt: nat) {
    && iss <= una <= nxt
    && (s == SYN_SENT ==> una == iss)
    && (s == FIN_WAIT1 || s == CLOSING || s == LAST_ACK ==> una < nxt)
    && (s == FIN_WAIT2 || s == TIME_WAIT ==> una == nxt)
  }

  lemma UnaClosed(s: Phase, iss: nat, una: nat, nxt: nat)
    requires UnaOk(s, iss, una, nxt)
    ensures UnaOk(CLOSED, iss, una, nxt)
  {
  }

  lemma UnaClosing(s: Phase, iss: nat, una: nat, nxt: nat)
    requires UnaOk(s, iss, una, nxt)
    ensures UnaOk(FIN_WAIT1, iss, una, nxt + 1) && UnaOk(LAST_ACK, iss, una, nxt + 1)
  {
  }

  /** The fields fit their widths in the header; the length comes from a 16-bit number. */
  predicate Ranged(seg: Segment) { seg.sn < U32 && seg.ack < U32 && seg.len < U16 && seg.wnd < U16 }

  /** The window test (tcp.c:271-281). */
  predicate Acceptable(seg: Segment, rcvNxt: nat, wnd: nat) {
    var last := if seg.len > 0 then Add(seg.sn, seg.len - 1) else 0;
    || (seg.len == 0 && wnd == 0 && seg.sn == rcvNxt)
    || (seg.len == 0 && wnd > 0 && rcvNxt <= seg.sn < Add(rcvNxt, wnd))
    || (seg.len > 0 && wnd > 0 && (rcvNxt <= seg.sn < Add(rcvNxt, wnd) || rcvNxt <= last < Add(rcvNxt, wnd)))
  }

  /** A segment is acceptable if its first or its last byte lies in the window, and an empty one if its number does,
      or is the next one expected when the window is shut. */
  lemma AcceptableIs(seg: Segment, rcvNxt: nat, wnd: nat)
    requires seg.sn + seg.len < U32 && rcvNxt + wnd < U32
    ensures Acceptable(seg, rcvNxt, wnd) <==>
        (seg.len == 0 && wnd == 0 && seg.sn == rcvNxt)
        || exists x: int :: Edge(seg, x) && rcvNxt <= x < rcvNxt + wnd
  {
    Wraps(rcvNxt, wnd);
    if seg.len > 0 { Wraps(seg.sn, seg.len - 1); }
    assert Edge(seg, seg.sn) && Edge(seg, if seg.len > 0 then seg.sn + seg.len - 1 else seg.sn);
    hide Add;
  }

  predicate Edge(seg: Segment, x: int) { x == seg.sn || (seg.len > 0 && x == seg.sn + seg.len - 1) }

  /** Text that fits shrinks the window by its length. */
  lemma ShrunkIs(wnd: nat, len: nat)
    requires len <= wnd < U16
    ensures Shrunk(wnd, len) == wnd - len
  {
    assert (wnd - len + U32) % U16 == wnd - len;
  }

  predicate Plain(seg: Segment) { !seg.isRst && !seg.isSyn }

  /** None of these segments closes our side. */
  predicate NoFins(out: seq<Signal>) { forall i :: 0 <= i < |out| ==> !out[i].isFin }

  predicate Synchronised(s: Phase) { Open(s) && s != SYN_SENT }

  /** How far the end of the text lies ahead of `rcvNxt`, around the circle of sequence numbers. */
  function Advance(seg: Segment, rcvNxt: nat): nat
    requires rcvNxt < U32
  {
    (seg.sn + seg.len + U32 - rcvNxt) % U32
  }

  /** The window test compares plain numbers, and yet the text of an acceptable segment ends ahead of `rcvNxt` and
      less than a window and the text further on, wherever the numbers wrap. */
  lemma AcceptableAhead(seg: Segment, rcvNxt: nat, wnd: nat)
    requires Acceptable(seg, rcvNxt, wnd) && Ranged(seg) && rcvNxt < U32 && wnd < U16
    ensures seg.len > 0 ==> 1 <= Advance(seg, rcvNxt) < wnd + seg.len
    ensures Add(rcvNxt, Advance(seg, rcvNxt)) == Add(seg.sn, seg.len)
    ensures seg.sn + seg.len < U32 ==> seg.sn + seg.len >= rcvNxt
  {
    Wraps(seg.sn, seg.len);
    Wraps(rcvNxt, wnd);
    if seg.len > 0 { Wraps(seg.sn, seg.len - 1); }
    AdvanceIs(seg, rcvNxt);
    Wraps(rcvNxt, Advance(seg, rcvNxt));
    hide Add, Advance;
  }

  lemma AdvanceIs(seg: Segment, rcvNxt: nat)
    requires Ranged(seg) && rcvNxt < U32
    ensures Advance(seg, rcvNxt) ==
        var d := seg.sn + seg.len - rcvNxt; if d < 0 then d + U32 else if d < U32 then d else d - U32
  {
  }

  /** Once the end of an open window wraps around, no segment is acceptable any more. */
  lemma WindowShut(rcvNxt: nat, wnd: nat)
    requires rcvNxt < U32 && 0 < wnd < U16
    ensures (forall seg: Segment :: Ranged(seg) ==> !Acceptable(seg, rcvNxt, wnd)) <==> rcvNxt + wnd >= U32
  {
    Wraps(rcvNxt, wnd);
    if rcvNxt + wnd < U32 {
      assert Acceptable(Segment(rcvNxt, 0, false, false, false, true, 0, 0), rcvNxt, wnd);
    }
  }

  // What an acceptable segment moves `rcv.nxt` over.

  predicate TakesText(s: Phase, una: nat, nxt: nat, seg: Segment) {
    && Plain(seg) && seg.isAck && seg.len > 0 && seg.ack <= nxt
    && (s in {ESTABLISHED, FIN_WAIT1, FIN_WAIT2} || (s == SYN_RCVD && una <= seg.ack))
  }

  predicate TakesFin(s: Phase, nxt: nat, seg: Segment) {
    && Plain(seg) && seg.isAck && seg.isFin
    && (s in {SYN_RCVD, TIME_WAIT} || (s in {ESTABLISHED, FIN_WAIT1, FIN_WAIT2, CLOSE_WAIT} && seg.ack <= nxt))
  }

  /** The phase once the acknowledgement was looked at. */
  function Acked(s: Phase, una: nat, nxt: nat, seg: Segment): Phase {
    if s == SYN_RCVD then if una <= seg.ack <= nxt then ESTABLISHED else SYN_RCVD
    else if seg.ack != nxt then s
    else if s == FIN_WAIT1 then FIN_WAIT2
    else if s == CLOSING then TIME_WAIT
    else if s == LAST_ACK then CLOSED
    else s
  }

  /** ... and the FIN. */
  function Becomes(s: Phase, una: nat, nxt: nat, seg: Segment): Phase {
    var t := Acked(s, una, nxt, seg);
    if TakesFin(s, nxt, seg) then Finned(t) else t
  }

  function Finned(t: Phase): Phase {
    if t == SYN_RCVD || t == ESTABLISHED then CLOSE_WAIT
    else if t == FIN_WAIT1 then CLOSING
    else if t == FIN_WAIT2 then TIME_WAIT
    else t
  }

  /** Our SYN was answered by one that does not acknowledge anything else. */
  predicate Answers(iss: nat, nxt: nat, seg: Segment) {
    seg.isSyn && !seg.isRst && (seg.isAck ==> iss < seg.ack <= nxt)
  }

  // What is sent in answer to a segment.

  function ReplyClosed(s: Phase, seg: Segment, isn: nat): seq<Signal> {
    (if s != CLOSED || seg.isRst then []
     else if seg.isAck then [Reset(seg.ack)]
     else [Signal(0, Add(seg.sn, seg.len), false, true, true, false, 0)])
    + (if seg.isRst then []
       else if seg.isAck then [Reset(seg.ack)]
       else if seg.isSyn then [Signal(isn, Add(seg.sn, 1), true, true, false, false, 0)]
       else [])
  }

  function ReplySynSent(iss: nat, nxt: nat, seg: Segment): seq<Signal> {
    if seg.isRst then []
    else if seg.isAck && !(iss < seg.ack <= nxt) then [Reset(seg.ack)]
    else if !seg.isSyn then []
    else if seg.isAck then [Ack(nxt, Add(seg.sn, 1))]
    else [Signal(iss, Add(seg.sn, 1), true, true, false, false, 0)]
  }

  /** The answer to the acknowledgement alone: a bad one is answered at once. */
  function ReplyAck(s: Phase, una: nat, nxt: nat, rcvNxt: nat, seg: Segment): seq<Signal> {
    if s == SYN_RCVD then if una <= seg.ack <= nxt then [] else [Reset(seg.ack)]
    else if s != LAST_ACK && s != TIME_WAIT && seg.ack > nxt then [Ack(nxt, rcvNxt)]
    else []
  }

  /** On a synchronised connection the text is acknowledged, and then the FIN. */
  function ReplyOpen(s: Phase, una: nat, nxt: nat, rcvNxt: nat, seg: Segment): seq<Signal> {
    if !Acceptable(seg, rcvNxt, seg.wnd) then [Ack(nxt, rcvNxt)]
    else if seg.isRst then []
    else if seg.isSyn then [Reset(seg.ack)]
    else if !seg.isAck then []
    else
      var end := if TakesText(s, una, nxt, seg) then Add(seg.sn, seg.len) else rcvNxt;
      ReplyAck(s, una, nxt, rcvNxt, seg)
      + (if TakesText(s, una, nxt, seg) then [Ack(nxt, end)] else [])
      + (if TakesFin(s, nxt, seg) then [Ack(nxt, Add(end, 1))] else [])
  }

  function Reply(s: Phase, iss: nat, una: nat, nxt: nat, rcvNxt: nat, seg: Segment, isn: nat): seq<Signal> {
    if !Open(s) then ReplyClosed(s, seg, isn)
    else if s == SYN_SENT then ReplySynSent(iss, nxt, seg)
    else ReplyOpen(s, una, nxt, rcvNxt, seg)
  }

  /** What an acceptable segment is answered with, signal by signal: nothing to a RST, a reset to a SYN; and to text
      and FIN that are taken an ACK each, the last one of the number expected then. */
  lemma AnswersInFull(s: Phase, una: nat, nxt: nat, rcvNxt: nat, seg: Segment)
    requires Synchronised(s) && Acceptable(seg, rcvNxt, seg.wnd)
    ensures var out := ReplyOpen(s, una, nxt, rcvNxt, seg);
      var text := seg.len > 0 && seg.ack <= nxt
                  && (s in {ESTABLISHED, FIN_WAIT1, FIN_WAIT2} || (s == SYN_RCVD && una <= seg.ack));
      var fin := seg.isFin && (s in {SYN_RCVD, TIME_WAIT}
                               || (s in {ESTABLISHED, FIN_WAIT1, FIN_WAIT2, CLOSE_WAIT} && seg.ack <= nxt));
      var end := if text then (seg.sn + seg.len) % U32 else rcvNxt;
      if seg.isRst then out == []
      else if seg.isSyn then out == [Signal(seg.ack, 0, false, false, true, false, 0)]
      else if !seg.isAck then out == []
      else
        && (fin ==> out != [] && out[|out| - 1] == Signal(nxt, (end + 1) % U32, false, true, false, false, 0))
        && (text && !fin ==> out != [] && out[|out| - 1] == Signal(nxt, end, false, true, false, false, 0))
        && (text && fin ==> |out| >= 2 && out[|out| - 2] == Signal(nxt, end, false, true, false, false, 0))
        && |out| <= 3 && (s == TIME_WAIT && !fin ==> out == [])
        && (s in {CLOSING, LAST_ACK} ==>
              out == if s == CLOSING && seg.ack > nxt then [Signal(nxt, rcvNxt, false, true, false, false, 0)] else [])
  {
  }

  /** Whatever moves `rcv.nxt` on a synchronised connection is acknowledged by the last signal sent. */
  lemma TakenIsAcknowledged(s: Phase, una: nat, nxt: nat, rcvNxt: nat, seg: Segment)
    requires rcvNxt < U32 && Ranged(seg) && Acceptable(seg, rcvNxt, seg.wnd)
    ensures var out, end := ReplyOpen(s, una, nxt, rcvNxt, seg), Add(rcvNxt, Gain(s, una, nxt, rcvNxt, seg));
      TakesText(s, una, nxt, seg) || TakesFin(s, nxt, seg) || end != rcvNxt ==>
        out != [] && out[|out| - 1] == Ack(nxt, end)
  {
    GainIs(s, una, nxt, rcvNxt, seg);
    hide Acceptable, Add, Gain;
  }

  function Gain(s: Phase, una: nat, nxt: nat, rcvNxt: nat, seg: Segment): nat
    requires rcvNxt < U32
  {
    (if TakesText(s, una, nxt, seg) then Advance(seg, rcvNxt) else 0) + (if TakesFin(s, nxt, seg) then 1 else 0)
  }

  /** No sequence number that this segment sets wraps around. */
  predicate InOrder(s: Phase, iss: nat, una: nat, nxt: nat, rcvNxt: nat, seg: Segment, isn: nat)
    requires rcvNxt < U32
  {
    if !Open(s) then seg.isSyn && !seg.isRst && !seg.isAck ==> isn + 1 < U32 && seg.sn + 1 < U32
    else if s == SYN_SENT then Answers(iss, nxt, seg) ==> seg.sn + 1 < U32
    else Acceptable(seg, rcvNxt, seg.wnd) ==> rcvNxt + Gain(s, una, nxt, rcvNxt, seg) < U32
  }

  lemma FollowsSynSent()
    ensures forall t :: t in {SYN_SENT, CLOSED, ESTABLISHED, SYN_RCVD} ==> Follows(SYN_SENT, t)
  {
  }

  lemma UnaPhases(s: Phase, iss: nat, una: nat, nxt: nat)
    requires UnaOk(s, iss, una, nxt)
    ensures s == SYN_RCVD || s == ESTABLISHED ==> UnaOk(CLOSE_WAIT, iss, una, nxt)
    ensures s == FIN_WAIT1 ==> UnaOk(CLOSING, iss, una, nxt)
    ensures s == FIN_WAIT2 ==> UnaOk(TIME_WAIT, iss, una, nxt)
  {
  }

  /** `rcv.nxt` moves by what is taken, and goes back exactly when that wraps around. */
  lemma GainIs(s: Phase, una: nat, nxt: nat, rcvNxt: nat, seg: Segment)
    requires rcvNxt < U32 && Ranged(seg) && Acceptable(seg, rcvNxt, seg.wnd)
    ensures var base := if TakesText(s, una, nxt, seg) then Add(seg.sn, seg.len) else rcvNxt;
      var end, gain := if TakesFin(s, nxt, seg) then Add(base, 1) else base, Gain(s, una, nxt, rcvNxt, seg);
      end == Add(rcvNxt, gain) && gain < 2 * U16 && (rcvNxt <= end <==> rcvNxt + gain < U32)
  {
    AcceptableAhead(seg, rcvNxt, seg.wnd);
    var advance := if TakesText(s, una, nxt, seg) then Advance(seg, rcvNxt) else 0;
    hide Acceptable, Advance, TakesText, TakesFin;
    Wraps(rcvNxt, advance);
    Wraps(rcvNxt, Gain(s, una, nxt, rcvNxt, seg));
    Wraps(Add(rcvNxt, advance), 1);
  }

  class ControlBlock {
    var state: Phase
    var iss: nat
    var irs: nat
    var una: nat
    var nxt: nat
    var rcvNxt: nat
    var rcvWnd: nat

    /** How many times a SYN began a connection, what was sent in the current one, whether the peer's
        SYN came, and whether its FIN did. */
    ghost var incarnation: nat
    ghost var stream: seq<Piece>
    ghost var heard: bool
    ghost var peerFin: bool

    /** What does not depend on the peer's numbers. */
    ghost predicate Steady()
      reads this
    {
      && (Open(state) ==> stream != [])
      && (stream != [] ==> Tiled(stream, iss, nxt) && UnaOk(state, iss, una, nxt))
      && (Open(state) ==> (FinSent(stream) <==> ClosedByUs(state)) && (peerFin <==> ClosedByPeer(state)))
      && (Open(state) ==> (heard <==> state != SYN_SENT))
      && nxt < U32 && rcvNxt < U32
    }

    ghost predicate Valid()
      reads this
    {
      Steady() && (heard ==> irs < rcvNxt)
    }

    /** Nothing goes back within an incarnation. */
    twostate predicate Onward()
      reads this
    {
      && old(incarnation) <= incarnation
      && (incarnation == old(incarnation) ==>
            && iss == old(iss) && old(una) <= una && old(nxt) <= nxt && old(stream) <= stream
            && (old(heard) ==> heard && irs == old(irs) && old(rcvNxt) <= rcvNxt)
            && (old(peerFin) ==> peerFin))
    }

    constructor ()
      ensures Valid() && state == CLOSED && stream == [] && !heard && !peerFin && incarnation == 0
      ensures iss == irs == una == nxt == rcvNxt == rcvWnd == 0
    {
      state, iss, irs, una, nxt, rcvNxt, rcvWnd := CLOSED, 0, 0, 0, 0, 0, 0;
      incarnation, stream, heard, peerFin := 0, [], false, false;
    }

    /** `tcp_init_server` (tcp.c:495-501). */
    method Listen()
      requires Valid()
      modifies this`state
      ensures Valid() && state == LISTEN && Onward() && stream == old(stream) && incarnation == old(incarnation)
    {
      state := LISTEN;
    }

    /** The active open of `tcp_init_client` (tcp.c:503-518) and of `tcp_api_send` on a listening
        socket (tcp.c:597-605); `isn` is the random number.  The order of the sequence numbers
        survives exactly when the number after `isn` does not wrap. */
    method Connect(isn: nat, client: bool) returns (out: seq<Signal>)
      requires Valid() && isn < U32
      modifies this`state, this`iss, this`una, this`nxt, this`rcvWnd, this`incarnation, this`stream, this`heard,
               this`peerFin
      ensures state == SYN_SENT && incarnation == old(incarnation) + 1 && iss == isn
      ensures una == isn && nxt == Add(isn, 1) && rcvWnd == if client then WINDOW else old(rcvWnd)
      ensures out == [Signal(isn, 0, true, false, false, false, 0)]
      ensures iss <= una <= nxt <==> isn + 1 < U32
      ensures isn + 1 < U32 ==> Valid() && Onward() && stream == [Piece(isn, 1, Syn)]
    {
      Wraps(isn, 1);
      TiledStart(isn);
      hide Add, Tiled, FinSent;
      if client {
        rcvWnd := WINDOW;
      }
      iss := isn;
      out := [Signal(iss, 0, true, false, false, false, 0)];
      una := iss;
      nxt := Add(iss, 1);
      state := SYN_SENT;
      incarnation, stream, heard, peerFin := incarnation + 1, [Piece(isn, 1, Syn)], false, false;
    }

    /** `tcp_api_send` (tcp.c:589-627); `len` bytes of text.  `snd.nxt` goes back exactly when it wraps. */
    method Send(len: nat) returns (ok: bool, out: seq<Signal>)
      requires Valid() && len < U32
      modifies this`nxt, this`stream
      ensures ok <==> state == ESTABLISHED
      ensures old(nxt) <= nxt <==> !ok || old(nxt) + len < U32
      ensures !ok || old(nxt) + len < U32 ==> Valid() && Onward()
      ensures ok ==> stream == old(stream) + [Piece(old(nxt), len, Text)] && nxt == Add(old(nxt), len)
      ensures ok ==> out == [Signal(old(nxt), rcvNxt, false, true, false, false, len)]
      ensures !ok ==> out == [] && stream == old(stream) && nxt == old(nxt)
    {
      if state != ESTABLISHED {
        return false, [];
      }
      hide Tiled, FinSent;
      TiledMore(stream, iss, nxt, len, Text);
      Wraps(nxt, len);
      out := [Signal(nxt, rcvNxt, false, true, false, false, len)];
      stream := stream + [Piece(nxt, len, Text)];
      nxt := Add(nxt, len);
      ok := true;
    }

    /** `tcp_api_close` (tcp.c:527-587): one FIN, and none when one was sent. */
    method Close() returns (ok: bool, out: seq<Signal>)
      requires Valid()
      modifies this`state, this`nxt, this`stream
      ensures old(nxt) <= nxt <==> !ok || old(nxt) + 1 < U32
      ensures !ok || old(nxt) + 1 < U32 ==> Valid() && Onward()
      ensures ok <==> old(state) in {SYN_RCVD, ESTABLISHED, CLOSE_WAIT}
      ensures ok ==> state == (if old(state) == CLOSE_WAIT then LAST_ACK else FIN_WAIT1)
      ensures ok ==> !FinSent(old(stream)) && stream == old(stream) + [Piece(old(nxt), 1, Fin)]
      ensures ok ==> nxt == Add(old(nxt), 1)
      ensures ok ==> out == [Signal(old(nxt), rcvNxt, false, true, false, true, 0)]
      ensures !ok ==> out == [] && state == old(state) && stream == old(stream) && nxt == old(nxt)
    {
      hide Tiled, FinSent, UnaOk;
      Wraps(nxt, 1);
      if state == SYN_RCVD || state == ESTABLISHED || state == CLOSE_WAIT {
        UnaClosing(state, iss, una, nxt);
        TiledMore(stream, iss, nxt, 1, Fin);
      }
      hide Add;
      if state == SYN_RCVD || state == ESTABLISHED {
        out := [Signal(nxt, rcvNxt, false, true, false, true, 0)];
        state := FIN_WAIT1;
      } else if state == CLOSE_WAIT {
        out := [Signal(nxt, rcvNxt, false, true, false, true, 0)];
        state := LAST_ACK;
      } else {
        return false, [];
      }
      stream := stream + [Piece(nxt, 1, Fin)];
      nxt := Add(nxt, 1);
      ok := true;
    }

    /** The answer to a SYN (tcp.c:180-192). */
    method PassiveOpen(seg: Segment, isn: nat) returns (answer: Signal)
      requires Valid() && !Open(state) && isn < U32 && seg.sn < U32
      modifies this
      ensures una == isn && nxt == Add(isn, 1) && stream == [Piece(isn, 1, Syn)] && heard && !peerFin
      ensures rcvWnd == old(rcvWnd)
      ensures Valid() <==> isn + 1 < U32 && seg.sn + 1 < U32
      ensures Onward() && state == SYN_RCVD && incarnation == old(incarnation) + 1 && rcvNxt < U32
      ensures iss == isn && irs == seg.sn && rcvNxt == Add(seg.sn, 1)
      ensures answer == Signal(isn, Add(seg.sn, 1), true, true, false, false, 0)
    {
      Wraps(seg.sn, 1);
      Wraps(isn, 1);
      TiledStart(isn);
      hide Add, Tiled, FinSent;
      rcvNxt := Add(seg.sn, 1);
      irs := seg.sn;
      iss := isn;
      answer := Signal(iss, rcvNxt, true, true, false, false, 0);
      nxt := Add(iss, 1);
      una := iss;
      state := SYN_RCVD;
      incarnation, stream, heard, peerFin := incarnation + 1, [Piece(isn, 1, Syn)], true, false;
    }

    /** A segment for a closed or listening block (tcp.c:147-195).  CLOSED has no `return`, so it
        goes on as LISTEN, and a SYN opens a connection there too. */
    method WhenClosed(seg: Segment, isn: nat) returns (out: seq<Signal>)
      requires Valid() && !Open(state) && isn < U32 && seg.sn < U32
      modifies this
      ensures Valid() <==> (state == SYN_RCVD ==> isn + 1 < U32 && seg.sn + 1 < U32)
      ensures Onward() && Follows(old(state), state)
      ensures state == SYN_RCVD <==> seg.isSyn && !seg.isRst && !seg.isAck
      ensures state == SYN_RCVD ==>
          incarnation == old(incarnation) + 1 && iss == isn && irs == seg.sn && rcvNxt == Add(seg.sn, 1)
      ensures state == SYN_RCVD ==> una == isn && nxt == Add(isn, 1) && stream == [Piece(isn, 1, Syn)]
      ensures rcvWnd == old(rcvWnd)
      ensures state != SYN_RCVD ==>
          && una == old(una) && iss == old(iss) && irs == old(irs) && rcvNxt == old(rcvNxt)
          && heard == old(heard) && peerFin == old(peerFin)
      ensures state == SYN_RCVD ==>
          |out| > 0 && out[|out| - 1] == Signal(isn, Add(seg.sn, 1), true, true, false, false, 0)
      ensures state != SYN_RCVD ==>
          incarnation == old(incarnation) && state == old(state) && stream == old(stream) && nxt == old(nxt)
      ensures out == ReplyClosed(old(state), seg, isn)
      ensures NoFins(out) && forall i :: 0 <= i < |out| && !(state == SYN_RCVD && i == |out| - 1) ==> out[i].isRst
      ensures seg.isRst ==> out == []
      ensures !seg.isRst && seg.isAck ==>
          out == if old(state) == CLOSED then [Reset(seg.ack), Reset(seg.ack)] else [Reset(seg.ack)]
      ensures !seg.isRst && !seg.isAck && old(state) == CLOSED ==>
        |out| > 0 && out[0] == Signal(0, Add(seg.sn, seg.len), false, true, true, false, 0)
      ensures !seg.isRst && !seg.isAck ==>
          |out| == (if old(state) == CLOSED then 1 else 0) + (if seg.isSyn then 1 else 0)
    {
      hide Tiled, FinSent, UnaOk, Add;
      out := [];
      if state == CLOSED {
        if !seg.isRst {
          if !seg.isAck {
            out := [Signal(0, Add(seg.sn, seg.len), false, true, true, false, 0)];
          } else {
            out := [Reset(seg.ack)];
          }
        }
      }
      if seg.isRst {
        return;
      }
      if seg.isAck {
        out := out + [Reset(seg.ack)];
        return;
      }
      if seg.isSyn {
        var answer := PassiveOpen(seg, isn);
        out := out + [answer];
      }
    }

    /** A segment in answer to our SYN (tcp.c:196-255). */
    method WhenSynSent(seg: Segment) returns (out: seq<Signal>)
      requires Valid() && state == SYN_SENT && seg.sn < U32
      modifies this`state, this`una, this`irs, this`rcvNxt, this`heard
      ensures state == SYN_SENT || state == CLOSED ==> irs == old(irs) && heard == old(heard)
      ensures Valid() <==> (state == ESTABLISHED || state == SYN_RCVD ==> seg.sn + 1 < U32)
      ensures Onward() && incarnation == old(incarnation) && Follows(SYN_SENT, state)
      ensures state == ESTABLISHED <==> seg.isSyn && seg.isAck && !seg.isRst && iss < seg.ack <= nxt
      ensures state == ESTABLISHED ==> una == seg.ack && out == [Ack(nxt, rcvNxt)]
      ensures state == SYN_RCVD <==> seg.isSyn && !seg.isAck && !seg.isRst
      ensures state == SYN_RCVD ==> una == old(una) && out == [Signal(iss, rcvNxt, true, true, false, false, 0)]
      ensures state == CLOSED <==> seg.isRst && seg.isAck && iss < seg.ack <= nxt
      ensures state == ESTABLISHED || state == SYN_RCVD ==> irs == seg.sn && rcvNxt == Add(seg.sn, 1)
      ensures stream == old(stream) && nxt == old(nxt) && NoFins(out) && out == ReplySynSent(iss, nxt, seg)
      ensures state == SYN_SENT || state == CLOSED ==> una == old(una) && rcvNxt == old(rcvNxt)
      ensures seg.isAck && !(iss < seg.ack <= nxt) ==>
          state == SYN_SENT && out == if seg.isRst then [] else [Reset(seg.ack)]
      ensures (seg.isAck ==> iss < seg.ack <= nxt) && (seg.isRst || !seg.isSyn) ==> out == []
    {
      Wraps(seg.sn, 1);
      hide Tiled, FinSent, Add, Follows;
      FollowsSynSent();
      out := [];
      var acceptable := false;
      if seg.isAck {
        if seg.ack <= iss || seg.ack > nxt {
          if !seg.isRst {
            out := [Reset(seg.ack)];
          }
          return;
        }
        acceptable := seg.ack >= una && seg.ack <= nxt;
      }
      if seg.isRst {
        if acceptable {
          state := CLOSED;
        }
        return;
      }
      if seg.isSyn {
        rcvNxt := Add(seg.sn, 1);
        irs := seg.sn;
        heard := true;
        if acceptable {
          una := seg.ack;
        }
        if una > iss {
          state := ESTABLISHED;
          out := [Ack(nxt, rcvNxt)];
        } else {
          state := SYN_RCVD;
          out := [Signal(iss, rcvNxt, true, true, false, false, 0)];
        }
      }
    }

    /** The acknowledgement (tcp.c:314-376); `goOn` when text and FIN are looked at next. */
    method TakeAck(seg: Segment) returns (goOn: bool, out: seq<Signal>)
      requires Steady() && Synchronised(state)
      modifies this`state, this`una
      ensures Steady() && Follows(old(state), state)
      ensures una == (if old(state) != LAST_ACK && old(state) != TIME_WAIT && old(una) < seg.ack <= nxt
                     then seg.ack else old(una))
      ensures old(state) == SYN_RCVD ==> state == (if old(una) <= seg.ack <= nxt then ESTABLISHED else SYN_RCVD)
      ensures old(state) == FIN_WAIT1 ==> state == (if seg.ack == nxt then FIN_WAIT2 else FIN_WAIT1)
      ensures old(state) == CLOSING ==> state == (if seg.ack == nxt then TIME_WAIT else CLOSING)
      ensures old(state) == LAST_ACK ==> state == (if seg.ack == nxt then CLOSED else LAST_ACK)
      ensures old(state) in {ESTABLISHED, FIN_WAIT2, CLOSE_WAIT, TIME_WAIT} ==> state == old(state)
      ensures NoFins(out)
      ensures goOn ==> Synchronised(state) && state != CLOSING && state != LAST_ACK
      ensures old(state) in {SYN_RCVD, TIME_WAIT} ==> goOn
      ensures old(state) in {CLOSING, LAST_ACK} ==> !goOn
      ensures old(state) in {ESTABLISHED, FIN_WAIT1, FIN_WAIT2, CLOSE_WAIT} ==> (goOn <==> seg.ack <= nxt)
      ensures out == if old(state) == SYN_RCVD && !(old(una) <= seg.ack <= nxt) then [Reset(seg.ack)]
        else if old(state) in {ESTABLISHED, FIN_WAIT1, FIN_WAIT2, CLOSE_WAIT, CLOSING} && seg.ack > nxt
          then [Ack(nxt, rcvNxt)]
        else []
    {
      hide Tiled, FinSent;
      out := [];
      if state == SYN_RCVD {
        if una <= seg.ack && seg.ack <= nxt {
          state := ESTABLISHED;
        } else {
          return true, [Reset(seg.ack)];
        }
      }
      if state == LAST_ACK {
        if seg.ack == nxt {
          state := CLOSED;
        }
        return false, [];
      }
      if state == TIME_WAIT {
        return true, [];
      }
      if una < seg.ack && seg.ack <= nxt {
        una := seg.ack;
      } else if seg.ack > nxt {
        return false, [Ack(nxt, rcvNxt)];
      }
      if state == FIN_WAIT1 {
        if seg.ack == nxt {
          state := FIN_WAIT2;
        }
      } else if state == CLOSING {
        if seg.ack == nxt {
          state := TIME_WAIT;
        }
        return false, [];
      }
      goOn := true;
    }

    /** Text (tcp.c:379-400). */
    method TakeBytes(seg: Segment) returns (out: seq<Signal>)
      requires Steady() && Synchronised(state)
      modifies this`rcvNxt, this`rcvWnd
      ensures Steady() && NoFins(out)
      ensures rcvNxt == if seg.len > 0 && state in {ESTABLISHED, FIN_WAIT1, FIN_WAIT2}
                        then Add(seg.sn, seg.len) else old(rcvNxt)
      ensures if seg.len > 0 && state in {ESTABLISHED, FIN_WAIT1, FIN_WAIT2}
              then out == [Ack(nxt, rcvNxt)] && rcvWnd == Shrunk(old(rcvWnd), seg.len)
              else out == [] && rcvWnd == old(rcvWnd)
    {
      hide Tiled, FinSent, UnaOk, Shrunk;
      out := [];
      if seg.len > 0 {
        if state == ESTABLISHED || state == FIN_WAIT1 || state == FIN_WAIT2 {
          rcvNxt := Add(seg.sn, seg.len);
          rcvWnd := Shrunk(rcvWnd, seg.len);
          out := [Ack(nxt, rcvNxt)];
        }
      }
    }

    /** FIN (tcp.c:403-436). */
    method TakeFin() returns (out: seq<Signal>)
      requires Steady() && Synchronised(state) && state != CLOSING && state != LAST_ACK
      modifies this`state, this`rcvNxt, this`peerFin
      ensures Steady() && Follows(old(state), state) && peerFin
      ensures rcvNxt == Add(old(rcvNxt), 1) && out == [Ack(nxt, rcvNxt)] && state == Finned(old(state))
    {
      UnaPhases(state, iss, una, nxt);
      hide Tiled, FinSent, UnaOk;
      rcvNxt := Add(rcvNxt, 1);
      peerFin := true;
      out := [Ack(nxt, rcvNxt)];
      if state == SYN_RCVD || state == ESTABLISHED {
        state := CLOSE_WAIT;
      } else if state == FIN_WAIT1 {
        state := CLOSING;
      } else if state == FIN_WAIT2 {
        state := TIME_WAIT;
      }
    }

    /** What follows the acknowledgement (tcp.c:378-436). */
    method TakeText(seg: Segment) returns (out: seq<Signal>)
      requires Steady() && Synchronised(state) && state != CLOSING && state != LAST_ACK
      modifies this`state, this`rcvNxt, this`rcvWnd, this`peerFin
      ensures Steady() && Follows(old(state), state)
      ensures var base := if seg.len > 0 && old(state) in {ESTABLISHED, FIN_WAIT1, FIN_WAIT2}
                    then Add(seg.sn, seg.len) else old(rcvNxt);
        rcvNxt == if seg.isFin then Add(base, 1) else base
      ensures (peerFin <==> old(peerFin) || seg.isFin) && NoFins(out)
      ensures state == if seg.isFin then Finned(old(state)) else old(state)
      ensures rcvWnd == if seg.len > 0 && old(state) in {ESTABLISHED, FIN_WAIT1, FIN_WAIT2}
                        then Shrunk(old(rcvWnd), seg.len) else old(rcvWnd)
      ensures var text := seg.len > 0 && old(state) in {ESTABLISHED, FIN_WAIT1, FIN_WAIT2};
        out == (if text then [Ack(nxt, Add(seg.sn, seg.len))] else []) + (if seg.isFin then [Ack(nxt, rcvNxt)] else [])
    {
      hide UnaOk, Tiled, FinSent, Add;
      out := TakeBytes(seg);
      if seg.isFin {
        var more := TakeFin();
        out := out + more;
      }
    }

    /** An acceptable segment on a synchronised connection (tcp.c:294-437). */
    method WhenAcceptable(seg: Segment) returns (out: seq<Signal>)
      requires Steady() && Synchronised(state) && Ranged(seg) && Acceptable(seg, rcvNxt, seg.wnd)
      modifies this`state, this`una, this`rcvNxt, this`rcvWnd, this`peerFin
      ensures Steady() && Follows(old(state), state) && old(una) <= una
      ensures rcvNxt == Add(old(rcvNxt), old(Gain(state, una, nxt, rcvNxt, seg)))
      ensures old(Gain(state, una, nxt, rcvNxt, seg)) < 2 * U16
      ensures old(rcvNxt) <= rcvNxt <==> old(rcvNxt) + old(Gain(state, una, nxt, rcvNxt, seg)) < U32
      ensures (old(peerFin) ==> peerFin)
      ensures out == ReplyOpen(old(state), old(una), nxt, old(rcvNxt), seg)
      ensures seg.isRst || seg.isSyn ==> state == CLOSED
      ensures Plain(seg) && seg.isAck ==> state == old(Becomes(state, una, nxt, seg))
      ensures peerFin <==> old(peerFin) || old(TakesFin(state, nxt, seg))
      ensures rcvWnd == if old(TakesText(state, una, nxt, seg)) then Shrunk(old(rcvWnd), seg.len) else old(rcvWnd)
      ensures Plain(seg) && !seg.isAck ==>
        out == [] && state == old(state) && una == old(una) && rcvNxt == old(rcvNxt) && peerFin == old(peerFin)
      ensures Plain(seg) && seg.isAck ==>
        una == if old(state) != LAST_ACK && old(state) != TIME_WAIT && old(una) < seg.ack <= nxt
               then seg.ack else old(una)
      ensures NoFins(out)
    {
      hide Tiled, FinSent, UnaOk, Acceptable, Add, Advance;
      UnaClosed(state, iss, una, nxt);
      GainIs(state, una, nxt, rcvNxt, seg);
      if seg.isRst {
        state := CLOSED;
        return [];
      }
      if seg.isSyn {
        state := CLOSED;
        return [Reset(seg.ack)];
      }
      if !seg.isAck {
        return [];
      }
      var goOn;
      goOn, out := TakeAck(seg);
      if goOn {
        var more := TakeText(seg);
        out := out + more;
      }
    }

    /** `tcp_segments_arrives` (tcp.c:132-437). */
    method Arrive(seg: Segment, isn: nat) returns (out: seq<Signal>)
      requires Valid() && Ranged(seg) && isn < U32
      modifies this
      ensures Valid() && Onward() <==> old(InOrder(state, iss, una, nxt, rcvNxt, seg, isn))
      ensures Follows(old(state), state)
      ensures out == old(Reply(state, iss, una, nxt, rcvNxt, seg, isn))
      ensures old(Synchronised(state)) ==> Steady() && incarnation == old(incarnation)
      ensures old(Synchronised(state)) && old(Acceptable(seg, rcvNxt, seg.wnd)) ==>
          var gain := old(Gain(state, una, nxt, rcvNxt, seg));
          && gain < 2 * U16 && rcvNxt == Add(old(rcvNxt), gain)
          && (old(rcvNxt) <= rcvNxt <==> old(rcvNxt) + gain < U32)
      ensures incarnation != old(incarnation) ==> !old(Open(state)) && state == SYN_RCVD && iss == isn
      ensures incarnation != old(incarnation) ==> una == isn && nxt == Add(isn, 1) && stream == [Piece(isn, 1, Syn)]
      ensures incarnation == old(incarnation) ==> stream == old(stream) && nxt == old(nxt) && iss == old(iss)
      ensures incarnation == old(incarnation) && !old(Open(state)) ==>
          state == old(state) && una == old(una) && irs == old(irs) && rcvNxt == old(rcvNxt) && peerFin == old(peerFin)
      ensures rcvWnd == if old(Synchronised(state)) && old(Acceptable(seg, rcvNxt, seg.wnd))
                          && old(TakesText(state, una, nxt, seg)) then Shrunk(seg.wnd, seg.len) else seg.wnd
      ensures old(Synchronised(state)) && !old(Acceptable(seg, rcvNxt, seg.wnd)) ==>
        out == [Ack(nxt, rcvNxt)] && state == old(state) && una == old(una)
        && rcvNxt == old(rcvNxt) && peerFin == old(peerFin)
      ensures old(Synchronised(state)) && old(Acceptable(seg, rcvNxt, seg.wnd)) && (seg.isRst || seg.isSyn) ==>
          state == CLOSED
      ensures old(Synchronised(state)) && old(Acceptable(seg, rcvNxt, seg.wnd)) && Plain(seg) && !seg.isAck ==>
        out == [] && state == old(state) && una == old(una) && rcvNxt == old(rcvNxt) && peerFin == old(peerFin)
      ensures old(Synchronised(state)) && old(Acceptable(seg, rcvNxt, seg.wnd)) && Plain(seg) && seg.isAck ==>
        una == if old(state) != LAST_ACK && old(state) != TIME_WAIT && old(una) < seg.ack <= nxt
               then seg.ack else old(una)
      ensures old(Synchronised(state)) && old(Acceptable(seg, rcvNxt, seg.wnd)) && Plain(seg) && seg.isAck ==>
          && state == old(Becomes(state, una, nxt, seg))
          && (peerFin <==> old(peerFin) || old(TakesFin(state, nxt, seg)))
      ensures old(state) == SYN_SENT && old(Answers(iss, nxt, seg)) ==>
          && irs == seg.sn && rcvNxt == Add(seg.sn, 1) && iss == old(iss)
          && state == (if seg.isAck then ESTABLISHED else SYN_RCVD) && una == (if seg.isAck then seg.ack else old(una))
      ensures old(state) == SYN_SENT && !old(Answers(iss, nxt, seg)) ==>
          && una == old(una) && rcvNxt == old(rcvNxt)
          && state == if seg.isRst && seg.isAck && old(iss) < seg.ack <= old(nxt) then CLOSED else SYN_SENT
      ensures old(Synchronised(state)) ==> irs == old(irs) && iss == old(iss)
      ensures old(!Open(state)) ==> (incarnation != old(incarnation) <==> seg.isSyn && !seg.isRst && !seg.isAck)
      ensures old(!Open(state)) && seg.isSyn && !seg.isRst && !seg.isAck ==> irs == seg.sn && rcvNxt == Add(seg.sn, 1)
      ensures NoFins(out)
    {
      hide Tiled, FinSent, Acceptable, UnaOk, Gain, Add, Becomes, TakesFin;
      rcvWnd := seg.wnd;
      if !Open(state) {
        out := WhenClosed(seg, isn);
        return;
      }
      if state == SYN_SENT {
        out := WhenSynSent(seg);
        return;
      }
      if !Acceptable(seg, rcvNxt, rcvWnd) {
        return [Ack(nxt, rcvNxt)];
      }
      out := WhenAcceptable(seg);
    }
  }
}
