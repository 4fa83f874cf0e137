/** Safety of the lock-free queue of lab8/bio.c, under every interleaving. */
module LockFreeQueueProof {
  import opened LockFreeQueue

  // ----- What a change elsewhere leaves alone ---------------------------------------------------

  lemma ChainFrame(qnext: seq<Link>, qnext': seq<Link>, head: Ptr, tail: Ptr, log: seq<nat>, out: seq<nat>,
                   tpos: nat, loc: seq<Loc>, loc': seq<Loc>)
    requires ChainOk(qnext, head, tail, log, out, tpos, loc)
    requires |qnext'| == |loc'| == |loc|
    requires forall x :: 0 <= x < |loc| && (loc[x].Queued? || loc'[x].Queued?) ==>
        loc'[x] == loc[x] && qnext'[x] == qnext[x]
    ensures ChainOk(qnext', head, tail, log, out, tpos, loc')
  {
  }

  lemma HangChainFrame(qnext: seq<Link>, qnext': seq<Link>, loc: seq<Loc>, loc': seq<Loc>, birth: seq<nat>,
                       birth': seq<nat>,
                       r: nat, s: seq<nat>)
    requires HangChain(qnext, loc, birth, r, s)
    requires |qnext'| == |loc'| == |loc| == |birth'|
    requires forall x :: 0 <= x < |loc| && loc[x].Hanging? && loc[x].root == r ==>
               loc'[x] == loc[x] && qnext'[x] == qnext[x] && birth'[x] == birth[x]
    ensures HangChain(qnext', loc', birth', r, s)
  {
    assert loc[s[0]] == Hanging(r, 0) && loc[s[|s| - 1]] == Hanging(r, |s| - 1);
  }

  lemma HangFrame(qnext: seq<Link>, qnext': seq<Link>, loc: seq<Loc>, loc': seq<Loc>, birth: seq<nat>, birth': seq<nat>,
                  hang: map<nat, seq<nat>>)
    requires HangOk(qnext, loc, birth, hang)
    requires |qnext'| == |loc'| == |loc| == |birth'|
    requires forall x :: 0 <= x < |loc| && (loc[x].Hanging? || loc'[x].Hanging?) ==>
               loc'[x] == loc[x] && qnext'[x] == qnext[x] && birth'[x] == birth[x]
    ensures HangOk(qnext', loc', birth', hang)
  {
    forall r | r in hang ensures HangChain(qnext', loc', birth', r, hang[r]) {
      HangChainFrame(qnext, qnext', loc, loc', birth, birth', r, hang[r]);
    }
  }

  lemma BirthsFrame(stamp: seq<nat>, loc: seq<Loc>, loc': seq<Loc>, birth: seq<nat>, clock: nat)
    requires BirthsOk(stamp, loc, birth, clock)
    requires |loc'| == |loc|
    requires forall x :: 0 <= x < |loc| && Entering(loc'[x]) ==> Entering(loc[x])
    ensures BirthsOk(stamp, loc', birth, clock)
  {
  }

  /** Thread `t` changes what it does, but neither what it carries nor who owns anything. */
  lemma OwnersFrame(pc: map<Tid, Pc>, t: Tid, next: Pc, owner: seq<Tid>, loc: seq<Loc>, loc': seq<Loc>)
    requires OwnersOk(pc, owner, loc)
    requires t in pc && Carried(next) == Carried(pc[t])
    requires |loc'| == |loc|
    requires forall x :: 0 <= x < |loc| && InTransit(loc'[x], x) ==>
               InTransit(loc[x], x) && loc'[x].Leaving? == loc[x].Leaving?
    ensures OwnersOk(pc[t := next], owner, loc')
  {
  }

  /** Thread `t` takes charge of `b`, which nobody carried. */
  lemma OwnersTake(pc: map<Tid, Pc>, t: Tid, next: Pc, b: nat, owner: seq<Tid>, loc: seq<Loc>, l: Loc)
    requires OwnersOk(pc, owner, loc)
    requires t in pc && Carried(pc[t]).None? && b < |loc| && !InTransit(loc[b], b)
    requires forall u :: u in pc && Carried(pc[u]).Some? ==> Carried(pc[u]).value.0 != b
    requires Carried(next) == Some((b, !l.Leaving?))
    ensures OwnersOk(pc[t := next], owner[b := t], loc[b := l])
  {
  }

  lemma RestFrame(qnext: seq<Link>, qnext': seq<Link>, loc: seq<Loc>, loc': seq<Loc>)
    requires RestOk(qnext, loc)
    requires |qnext'| == |loc'| == |loc|
    requires forall x :: 0 <= x < |loc| && (loc'[x].Free? || loc'[x].Starting? || loc'[x].Leaving?) ==>
               qnext'[x].ptr.At? || (qnext'[x] == qnext[x] && (loc[x].Free? || loc[x].Starting? || loc[x].Leaving?))
    ensures RestOk(qnext', loc')
  {
  }

  lemma FlagsFrame(inq: seq<bool>, loc: seq<Loc>, loc': seq<Loc>, kept: bool)
    requires FlagsOk(inq, loc, kept)
    requires |loc'| == |loc|
    requires forall x :: 0 <= x < |loc| ==>
               (loc[x].Free? <==> loc'[x].Free?)
               && (loc[x].Queued? || loc[x].Leaving? ==> loc'[x].Queued? || loc'[x].Leaving?)
    ensures FlagsOk(inq, loc', kept)
  {
  }

  /** Threads other than `t` are content if `head` and `tail` stand still, links on the queue only
      grow, what they carry stays put, and a buffer newly on its way in is younger than all others. */
  lemma ThreadsFrame(c: Core, a: Aux, c': Core, a': Aux, t: Tid, next: Pc)
    requires Sizes(c, a) && Sizes(c', a') && |c'.inq| == |c.inq| && ThreadsOk(c, a)
    requires t in c.pc && c'.pc == c.pc[t := next] && ThreadOk(c', a', t, next)
    requires c'.head == c.head && c'.tail == c.tail && a'.out == a.out && a'.tpos == a.tpos
    requires forall u :: u != t && u in a.sawSingle ==> u in a'.sawSingle
    requires a'.dummyKept ==> a.dummyKept
    requires forall x :: 0 <= x < |c.qnext| && (At(x) == c.head.ptr || At(x) == c.tail.ptr) && c.qnext[x].ptr.At? ==>
               c'.qnext[x] == c.qnext[x]
    requires forall u :: u in c.pc && u != t && Carried(c.pc[u]).Some? ==>
               var b := Carried(c.pc[u]).value.0;
               b < |a.loc| ==> a'.loc[b] == a.loc[b] && a'.birth[b] == a.birth[b]
    requires forall x :: 0 <= x < |a.loc| && Entering(a'.loc[x]) ==>
               (Entering(a.loc[x]) && a'.birth[x] == a.birth[x])
               || (forall y :: 0 <= y < |a.birth| && y != x ==> a'.birth[y] < a'.birth[x])
    ensures ThreadsOk(c', a')
  {
    forall u | u in c'.pc ensures ThreadOk(c', a', u, c'.pc[u]) {
      if u != t {
        assert ThreadOk(c, a, u, c.pc[u]);
        if Carried(c.pc[u]).Some? {
          assert Carried(c.pc[u]).value.0 < |a.loc|;
        }
      }
    }
  }

  /** Both ends of the queue are on it. */
  lemma EndsQueued(s: State)
    requires Inv(s)
    ensures s.c.head.ptr.At? && s.c.head.ptr.node < |s.a.loc| && s.a.loc[s.c.head.ptr.node].Queued?
    ensures s.c.tail.ptr.At? && s.c.tail.ptr.node < |s.a.loc| && s.a.loc[s.c.tail.ptr.node].Queued?
  {
    hide HangOk, BirthsOk, RestOk, FlagsOk, OwnersOk, ThreadsOk;
  }

  /** What a thread carries is in transit, and nobody else carries it. */
  lemma CarriedIsInTransit(s: State)
    requires Inv(s)
    ensures forall u :: u in s.c.pc && Carried(s.c.pc[u]).Some? ==>
              var b := Carried(s.c.pc[u]).value.0;
              b < |s.a.loc| && InTransit(s.a.loc[b], b) && s.a.owner[b] == u
  {
    hide ChainOk, HangOk, BirthsOk, RestOk, FlagsOk;
    forall u | u in s.c.pc && Carried(s.c.pc[u]).Some?
      ensures var b := Carried(s.c.pc[u]).value.0; b < |s.a.loc| && InTransit(s.a.loc[b], b)
    {
      assert ThreadOk(s.c, s.a, u, s.c.pc[u]);
    }
  }

  /** Thread `t` lets go of `b`. */
  lemma OwnersPut(pc: map<Tid, Pc>, t: Tid, next: Pc, b: nat, owner: seq<Tid>, loc: seq<Loc>, loc': seq<Loc>)
    requires OwnersOk(pc, owner, loc)
    requires t in pc && Carried(pc[t]).Some? && Carried(pc[t]).value.0 == b && Carried(next).None?
    requires b < |loc| == |loc'| && !InTransit(loc'[b], b)
    requires forall x :: 0 <= x < |loc| && InTransit(loc'[x], x) ==>
               InTransit(loc[x], x) && loc'[x].Leaving? == loc[x].Leaving?
    ensures OwnersOk(pc[t := next], owner, loc')
  {
  }

  // ----- One step -------------------------------------------------------------------------------

  /** A step that only moves the thread's own program counter. */
  lemma PrivateStep(s: State, t: Tid, pc: Pc)
    requires Inv(s) && t in s.c.pc
    requires Carried(pc) == Carried(s.c.pc[t]) && ThreadOk(s.c, s.a, t, pc)
    ensures Inv(State(Goto(s.c, t, pc), s.a))
  {
    hide ChainOk, HangOk, BirthsOk, RestOk, FlagsOk, OwnersOk, ThreadsOk;
    var c' := Goto(s.c, t, pc);
    ThreadsFrame(s.c, s.a, c', s.a, t, pc);
    OwnersFrame(s.c.pc, t, pc, s.a.owner, s.a.loc, s.a.loc);
  }

  lemma BirthsClaim(stamp: seq<nat>, loc: seq<Loc>, loc': seq<Loc>, birth: seq<nat>, birth': seq<nat>, clock: nat,
                    b: nat)
    requires BirthsOk(stamp, loc, birth, clock) && b < |loc|
    requires loc' == loc[b := Starting] && birth' == birth[b := clock]
    ensures BirthsOk(stamp, loc', birth', clock + 1)
    ensures forall y :: 0 <= y < |birth| && y != b ==> birth'[y] < birth'[b]
  {
  }

  lemma FlagsSet(inq: seq<bool>, inq': seq<bool>, loc: seq<Loc>, loc': seq<Loc>, kept: bool, b: nat, l: Loc)
    requires FlagsOk(inq, loc, kept) && b < |loc| && !(kept && b == |inq| - 1)
    requires inq' == inq[b := !l.Free?] && loc' == loc[b := l]
    ensures FlagsOk(inq', loc', kept)
  {
  }

  lemma ClaimStep(c: Core, a: Aux, c': Core, a': Aux, t: Tid, b: nat)
    requires Inv(State(c, a)) && t in c.pc && c.pc[t] == EClaim(b) && b < |c.inq| && a.loc[b].Free?
    requires !(a.dummyKept && b == Dummy(c))
    requires c' == c.(inq := c.inq[b := true], pc := c.pc[t := EReset(b)])
    requires a' == a.(loc := a.loc[b := Starting], birth := a.birth[b := a.clock], clock := a.clock + 1,
                      owner := a.owner[b := t])
    ensures Inv(State(c', a'))
  {
    hide ChainOk, HangOk, BirthsOk, RestOk, FlagsOk, OwnersOk, ThreadsOk;
    CarriedIsInTransit(State(c, a));
    ChainFrame(c.qnext, c'.qnext, c'.head.ptr, c'.tail.ptr, a'.log, a'.out, a'.tpos, a.loc, a'.loc);
    HangFrame(c.qnext, c'.qnext, a.loc, a'.loc, a.birth, a'.birth, a'.hang);
    BirthsClaim(a.stamp, a.loc, a'.loc, a.birth, a'.birth, a.clock, b);
    RestFrame(c.qnext, c'.qnext, a.loc, a'.loc);
    FlagsSet(c.inq, c'.inq, a.loc, a'.loc, a'.dummyKept, b, Starting);
    OwnersTake(c.pc, t, EReset(b), b, a.owner, a.loc, Starting);
    ThreadsFrame(c, a, c', a', t, EReset(b));
  }

  lemma RootHangs(qnext: seq<Link>, loc: seq<Loc>, birth: seq<nat>, hang: map<nat, seq<nat>>, r: nat)
    requires HangOk(qnext, loc, birth, hang)
    ensures r in hang ==> r < |loc| && loc[r].Hanging?
  {
    if r in hang {
      assert HangChain(qnext, loc, birth, r, hang[r]);
    }
  }

  lemma HangReset(qnext: seq<Link>, qnext': seq<Link>, loc: seq<Loc>, loc': seq<Loc>, birth: seq<nat>,
                  hang: map<nat, seq<nat>>, b: nat)
    requires HangOk(qnext, loc, birth, hang) && b < |loc| && loc[b].Starting?
    requires qnext' == qnext[b := Link(0, Null)] && loc' == loc[b := Hanging(b, 0)]
    ensures HangOk(qnext', loc', birth, hang[b := [b]])
  {
    RootHangs(qnext, loc, birth, hang, b);
    forall r | r in hang ensures HangChain(qnext', loc', birth, r, hang[r]) {
      HangChainFrame(qnext, qnext', loc, loc', birth, birth, r, hang[r]);
    }
  }

  lemma ResetStep(c: Core, a: Aux, c': Core, a': Aux, t: Tid, b: nat)
    requires Inv(State(c, a)) && t in c.pc && c.pc[t] == EReset(b) && b < |c.inq| && a.loc[b].Starting?
    requires c' == c.(qnext := c.qnext[b := Link(0, Null)], pc := c.pc[t := EReadTail(b)])
    requires a' == a.(loc := a.loc[b := Hanging(b, 0)], hang := a.hang[b := [b]])
    ensures Inv(State(c', a'))
  {
    hide ChainOk, HangOk, BirthsOk, RestOk, FlagsOk, OwnersOk, ThreadsOk;
    CarriedIsInTransit(State(c, a));
    EndsQueued(State(c, a));
    ChainFrame(c.qnext, c'.qnext, c'.head.ptr, c'.tail.ptr, a'.log, a'.out, a'.tpos, a.loc, a'.loc);
    HangReset(c.qnext, c'.qnext, a.loc, a'.loc, a.birth, a.hang, b);
    BirthsFrame(a.stamp, a.loc, a'.loc, a.birth, a.clock);
    RestFrame(c.qnext, c'.qnext, a.loc, a'.loc);
    FlagsFrame(c.inq, a.loc, a'.loc, a.dummyKept);
    OwnersFrame(c.pc, t, EReadTail(b), a.owner, a.loc, a'.loc);
    ThreadsFrame(c, a, c', a', t, EReadTail(b));
  }

  // Linking `b` and the chain behind it, after a node of the queue or of another hanging chain.

  lemma PathAppend(qnext: seq<Link>, qnext': seq<Link>, s: seq<nat>, from: nat, q: seq<nat>, x: nat)
    requires Path(qnext, s, from) && Path(qnext, q, 0) && x == s[|s| - 1]
    requires |qnext'| == |qnext| && qnext'[x].ptr == At(q[0])
    requires forall y :: 0 <= y < |qnext| && y != x ==> qnext'[y] == qnext[y]
    requires x !in q && forall i :: from <= i < |s| - 1 ==> s[i] != x
    ensures Path(qnext', s + q, from)
  {
  }

  lemma LocsLink(log: seq<nat>, out: nat, loc: seq<Loc>, loc': seq<Loc>, b: nat, s: seq<nat>)
    requires out <= |log| && |loc'| == |loc|
    requires forall p :: out <= p < |log| ==> log[p] < |loc| && loc[log[p]] == Queued(p)
    requires forall x :: 0 <= x < |loc| && loc[x].Queued? ==> out <= loc[x].pos < |log| && log[loc[x].pos] == x
    requires forall i :: 0 <= i < |s| ==> s[i] < |loc| && loc[s[i]] == Hanging(b, i)
    requires forall y :: 0 <= y < |loc| && loc[y].Hanging? && loc[y].root == b ==> loc[y].at < |s| && s[loc[y].at] == y
    requires forall y :: 0 <= y < |loc| ==>
               loc'[y] == if loc[y].Hanging? && loc[y].root == b then Queued(|log| + loc[y].at) else loc[y]
    ensures forall p :: out <= p < |log + s| ==> (log + s)[p] < |loc| && loc'[(log + s)[p]] == Queued(p)
    ensures forall x :: 0 <= x < |loc'| && loc'[x].Queued? ==>
        out <= loc'[x].pos < |log + s| && (log + s)[loc'[x].pos] == x
  {
    var n, l := |log|, log + s;
    forall p | out <= p < |l| ensures l[p] < |loc| && loc'[l[p]] == Queued(p) {
      if p >= n { assert l[p] == s[p - n] && loc[s[p - n]] == Hanging(b, p - n); }
    }
    forall y | 0 <= y < |loc'| && loc'[y].Queued? ensures out <= loc'[y].pos < |l| && l[loc'[y].pos] == y {
      if loc[y].Hanging? { assert l[n + loc[y].at] == s[loc[y].at]; }
    }
  }

  lemma ChainLink(qnext: seq<Link>, qnext': seq<Link>, head: Ptr, tail: Ptr, log: seq<nat>, out: seq<nat>,
                  tpos: nat, loc: seq<Loc>, loc': seq<Loc>, birth: seq<nat>, x: nat, b: nat, s: seq<nat>)
    requires ChainOk(qnext, head, tail, log, out, tpos, loc) && HangChain(qnext, loc, birth, b, s)
    requires x < |loc| && loc[x] == Queued(|log| - 1)
    requires |qnext'| == |qnext| && qnext'[x].ptr == At(b)
    requires forall y :: 0 <= y < |qnext| && y != x ==> qnext'[y] == qnext[y]
    requires |loc'| == |loc| && forall y :: 0 <= y < |loc| ==>
               loc'[y] == if loc[y].Hanging? && loc[y].root == b then Queued(|log| + loc[y].at) else loc[y]
    requires forall y :: 0 <= y < |loc| && loc[y].Hanging? && loc[y].root == b ==> loc[y].at < |s| && s[loc[y].at] == y
    ensures ChainOk(qnext', head, tail, log + s, out, tpos, loc')
  {
    hide Path;
    PathAppend(qnext, qnext', log, |out|, s, x);
    LocsLink(log, |out|, loc, loc', b, s);
    KeepsPrefix(log, s, |out|, tpos);
  }

  lemma KeepsPrefix(log: seq<nat>, s: seq<nat>, n: nat, tpos: nat)
    requires n <= tpos < |log|
    ensures (log + s)[..n] == log[..n] && (log + s)[n] == log[n] && (log + s)[tpos] == log[tpos]
  {
  }

  lemma BirthsLink(qnext: seq<Link>, stamp: seq<nat>, stamp': seq<nat>, loc: seq<Loc>, loc': seq<Loc>, birth: seq<nat>,
                   clock: nat, b: nat, s: seq<nat>)
    requires BirthsOk(stamp, loc, birth, clock) && HangChain(qnext, loc, birth, b, s)
    requires |loc'| == |loc| && forall y :: 0 <= y < |loc| ==>
               if loc[y].Hanging? && loc[y].root == b then !Entering(loc'[y]) else loc'[y] == loc[y]
    requires stamp' == stamp + Stamps(s, birth)
    ensures BirthsOk(stamp', loc', birth, clock)
  {
    var n := |stamp|;
    forall p | n <= p < |stamp'| ensures stamp'[p] == birth[s[p - n]] && loc[s[p - n]] == Hanging(b, p - n) {
    }
    forall p, q | 0 <= p < q < |stamp'| ensures stamp'[p] != stamp'[q] {
      if q >= n {
        assert Entering(loc[s[q - n]]);
        if p >= n {
          assert Entering(loc[s[p - n]]) && s[p - n] != s[q - n];
        }
      }
    }
    forall x, p | 0 <= x < |loc'| && 0 <= p < |stamp'| && Entering(loc'[x]) ensures stamp'[p] != birth[x] {
      if p >= n { assert Entering(loc[s[p - n]]) && s[p - n] != x; }
    }
  }

  lemma HangLinkQueue(qnext: seq<Link>, qnext': seq<Link>, loc: seq<Loc>, loc': seq<Loc>, birth: seq<nat>,
                      hang: map<nat, seq<nat>>, x: nat, b: nat)
    requires HangOk(qnext, loc, birth, hang) && b in hang
    requires x < |loc| && !loc[x].Hanging?
    requires |qnext'| == |qnext| && forall y :: 0 <= y < |qnext| && y != x ==> qnext'[y] == qnext[y]
    requires |loc'| == |loc| && forall y :: 0 <= y < |loc| ==>
               if loc[y].Hanging? && loc[y].root == b then !loc'[y].Hanging? else loc'[y] == loc[y]
    ensures HangOk(qnext', loc', birth, hang - {b})
  {
    forall r | r in hang && r != b ensures HangChain(qnext', loc', birth, r, hang[r]) {
      HangChainFrame(qnext, qnext', loc, loc', birth, birth, r, hang[r]);
    }
  }

  lemma JoinChains(qnext: seq<Link>, qnext': seq<Link>, loc: seq<Loc>, loc': seq<Loc>, birth: seq<nat>,
                   r: nat, q: seq<nat>, b: nat, s: seq<nat>, x: nat)
    requires HangChain(qnext, loc, birth, r, q) && HangChain(qnext, loc, birth, b, s)
    requires b != r && birth[b] < birth[r] && x == q[|q| - 1]
    requires |qnext'| == |qnext| && qnext'[x].ptr == At(b)
    requires forall y :: 0 <= y < |qnext| && y != x ==> qnext'[y] == qnext[y]
    requires |loc'| == |loc| && forall y :: 0 <= y < |loc| ==>
               loc'[y] == if loc[y].Hanging? && loc[y].root == b then Hanging(r, |q| + loc[y].at) else loc[y]
    ensures HangChain(qnext', loc', birth, r, q + s)
  {
    assert loc[x] == Hanging(r, |q| - 1);
    assert Path(qnext', q + s, 0) by {
      PathAppend(qnext, qnext', q, 0, s, x);
    }
    var n, j := |q|, q + s;
    forall i | n <= i < |j| ensures loc'[j[i]] == Hanging(r, i) && birth[j[i]] < birth[r] {
      assert j[i] == s[i - n] && loc[s[i - n]] == Hanging(b, i - n);
    }
  }

  /** The buffers of the chain of `b` now stand behind those of the chain of `r`. */
  lemma IndexJoin(loc: seq<Loc>, loc': seq<Loc>, hang: map<nat, seq<nat>>, r: nat, b: nat)
    requires HangIndex(loc, hang) && b in hang && r in hang && b != r
    requires |loc'| == |loc| && forall y :: 0 <= y < |loc| ==>
               loc'[y] == if loc[y].Hanging? && loc[y].root == b then Hanging(r, |hang[r]| + loc[y].at) else loc[y]
    ensures HangIndex(loc', (hang - {b})[r := hang[r] + hang[b]])
  {
    var joined := (hang - {b})[r := hang[r] + hang[b]];
    forall y | 0 <= y < |loc'| && loc'[y].Hanging?
      ensures loc'[y].root in joined && loc'[y].at < |joined[loc'[y].root]| && joined[loc'[y].root][loc'[y].at] == y
    {
      assert loc[y].root in hang && hang[loc[y].root][loc[y].at] == y;
    }
  }

  /** The other chains do not notice. */
  lemma OtherChain(qnext: seq<Link>, qnext': seq<Link>, loc: seq<Loc>, loc': seq<Loc>, birth: seq<nat>,
                   r: nat, b: nat, x: nat, q: nat, s: seq<nat>)
    requires HangChain(qnext, loc, birth, q, s) && q != b && q != r
    requires x < |loc| && loc[x].Hanging? && loc[x].root == r
    requires |qnext'| == |qnext| && forall y :: 0 <= y < |qnext| && y != x ==> qnext'[y] == qnext[y]
    requires |loc'| == |loc|
    requires forall y :: 0 <= y < |loc| && !(loc[y].Hanging? && loc[y].root == b) ==> loc'[y] == loc[y]
    ensures HangChain(qnext', loc', birth, q, s)
  {
    HangChainFrame(qnext, qnext', loc, loc', birth, birth, q, s);
  }

  /** The chain of `b` joins the end of the chain of `r`, whose root is younger. */
  lemma HangLinkChain(qnext: seq<Link>, qnext': seq<Link>, loc: seq<Loc>, loc': seq<Loc>, birth: seq<nat>,
                      hang: map<nat, seq<nat>>, r: nat, b: nat, x: nat)
    requires HangOk(qnext, loc, birth, hang) && b in hang && r in hang
    requires b < |birth| && r < |birth| && b != r && birth[b] < birth[r]
    requires |hang[r]| > 0 && x == hang[r][|hang[r]| - 1] && x < |loc| && loc[x].Hanging? && loc[x].root == r
    requires |qnext'| == |qnext| && qnext'[x].ptr == At(b)
    requires forall y :: 0 <= y < |qnext| && y != x ==> qnext'[y] == qnext[y]
    requires |loc'| == |loc| && forall y :: 0 <= y < |loc| ==>
               loc'[y] == if loc[y].Hanging? && loc[y].root == b then Hanging(r, |hang[r]| + loc[y].at) else loc[y]
    ensures HangOk(qnext', loc', birth, (hang - {b})[r := hang[r] + hang[b]])
  {
    hide HangChain, HangIndex;
    JoinChains(qnext, qnext', loc, loc', birth, r, hang[r], b, hang[b], x);
    IndexJoin(loc, loc', hang, r, b);
    forall q | q in hang && q != b && q != r ensures HangChain(qnext', loc', birth, q, hang[q]) {
      OtherChain(qnext, qnext', loc, loc', birth, r, b, x, q, hang[q]);
    }
  }

  lemma LinkQueueStep(c: Core, a: Aux, c': Core, a': Aux, t: Tid, b: nat, tail: Link, next: Link)
    requires tail.ptr.At? && tail.ptr.node < |a.loc| == |c.qnext| && |a.log| > 0
    requires var x := tail.ptr.node; a.loc[x] == Queued(|a.log| - 1) && c.qnext[x].ptr == next.ptr
    requires Inv(State(c, a)) && t in c.pc && c.pc[t] == ELink(b, tail, next) && ThreadOk(c, a, t, c.pc[t])
    requires c' == c.(qnext := c.qnext[tail.ptr.node := Link(next.version + 1, At(b))],
                        pc := c.pc[t := ESwing(b, tail)])
    requires a' == AttachHistory(a, b, tail.ptr.node) && b in a.hang && HangChain(c.qnext, a.loc, a.birth, b, a.hang[b])
    requires forall y :: 0 <= y < |a.loc| && a.loc[y].Hanging? && a.loc[y].root == b ==>
               a.loc[y].at < |a.hang[b]| && a.hang[b][a.loc[y].at] == y
    ensures Inv(State(c', a'))
  {
    hide ChainOk, HangOk, HangChain, BirthsOk, RestOk, FlagsOk, OwnersOk, ThreadsOk;
    CarriedIsInTransit(State(c, a));
    var x := tail.ptr.node;
    ChainLink(c.qnext, c'.qnext, c.head.ptr, c.tail.ptr, a.log, a.out, a.tpos, a.loc, a'.loc, a.birth, x, b, a.hang[b]);
    HangLinkQueue(c.qnext, c'.qnext, a.loc, a'.loc, a.birth, a.hang, x, b);
    BirthsLink(c.qnext, a.stamp, a'.stamp, a.loc, a'.loc, a.birth, a.clock, b, a.hang[b]);
    RestFrame(c.qnext, c'.qnext, a.loc, a'.loc);
    FlagsFrame(c.inq, a.loc, a'.loc, a.dummyKept);
    OwnersPut(c.pc, t, ESwing(b, tail), b, a.owner, a.loc, a'.loc);
    ThreadsFrame(c, a, c', a', t, ESwing(b, tail));
  }

  /** What the history says once the chain of `b` hangs from `r`. */
  lemma AttachChain(a: Aux, b: nat, x: nat, r: nat)
    requires b in a.hang && r in a.hang && x < |a.loc| && a.loc[x].Hanging? && a.loc[x].root == r
    ensures var a' := AttachHistory(a, b, x);
      && |a'.loc| == |a.loc| && a' == a.(loc := a'.loc, hang := (a.hang - {b})[r := a.hang[r] + a.hang[b]])
      && forall y :: 0 <= y < |a.loc| ==>
           a'.loc[y] ==
                 if a.loc[y].Hanging? && a.loc[y].root == b then Hanging(r, |a.hang[r]| + a.loc[y].at) else a.loc[y]
  {
  }

  /** Memory and history once the chain of `b` hangs behind node `x`, which ends the chain of `r`. */
  lemma LinkChainShared(c: Core, a: Aux, c': Core, a': Aux, b: nat, x: nat, r: nat)
    requires x < |a.loc| == |c.qnext| && b in a.hang && r in a.hang && a.loc[x].Hanging? && a.loc[x].root == r
    requires |c'.qnext| == |c.qnext| && c'.qnext[x].ptr == At(b)
    requires forall y :: 0 <= y < |c.qnext| && y != x ==> c'.qnext[y] == c.qnext[y]
    requires c'.head == c.head && c'.tail == c.tail && c'.inq == c.inq
    requires a' == a.(loc := a'.loc, hang := (a.hang - {b})[r := a.hang[r] + a.hang[b]]) && |a'.loc| == |a.loc|
    requires forall y :: 0 <= y < |a.loc| ==>
               a'.loc[y] ==
                 if a.loc[y].Hanging? && a.loc[y].root == b then Hanging(r, |a.hang[r]| + a.loc[y].at) else a.loc[y]
    requires JoinsAt(a, b, x, r) && Inv(State(c, a))
    ensures ChainOk(c'.qnext, c'.head.ptr, c'.tail.ptr, a'.log, a'.out, a'.tpos, a'.loc)
    ensures HangOk(c'.qnext, a'.loc, a'.birth, a'.hang) && BirthsOk(a'.stamp, a'.loc, a'.birth, a'.clock)
    ensures RestOk(c'.qnext, a'.loc) && FlagsOk(c'.inq, a'.loc, a'.dummyKept)
  {
    hide ChainOk, HangOk, HangChain, HangIndex, BirthsOk, RestOk, FlagsOk, OwnersOk, ThreadsOk;
    ChainFrame(c.qnext, c'.qnext, c.head.ptr, c.tail.ptr, a.log, a.out, a.tpos, a.loc, a'.loc);
    HangLinkChain(c.qnext, c'.qnext, a.loc, a'.loc, a.birth, a.hang, r, b, x);
    BirthsFrame(a.stamp, a.loc, a'.loc, a.birth, a.clock);
    RestFrame(c.qnext, c'.qnext, a.loc, a'.loc);
    FlagsFrame(c.inq, a.loc, a'.loc, a.dummyKept);
  }

  lemma LinkChainStep(c: Core, a: Aux, c': Core, a': Aux, t: Tid, b: nat, tail: Link, next: Link)
    requires tail.ptr.At? && tail.ptr.node < |a.loc| == |c.qnext|
    requires Inv(State(c, a)) && t in c.pc && c.pc[t] == ELink(b, tail, next) && ThreadOk(c, a, t, c.pc[t])
    requires b in a.hang && a.loc[tail.ptr.node].Hanging? && JoinsAt(a, b, tail.ptr.node, a.loc[tail.ptr.node].root)
    requires c' == c.(qnext := c.qnext[tail.ptr.node := Link(next.version + 1, At(b))],
                        pc := c.pc[t := ESwing(b, tail)])
    requires a' == AttachHistory(a, b, tail.ptr.node)
    ensures Inv(State(c', a'))
  {
    hide ChainOk, HangOk, HangChain, BirthsOk, RestOk, FlagsOk, OwnersOk, ThreadsOk;
    var x, r := tail.ptr.node, a.loc[tail.ptr.node].root;
    AttachChain(a, b, x, r);
    hide AttachHistory, Moved, Stamps;
    LinkChainShared(c, a, c', a', b, x, r);
    hide JoinsAt;
    CarriedIsInTransit(State(c, a));
    EndsQueued(State(c, a));
    OwnersPut(c.pc, t, ESwing(b, tail), b, a.owner, a.loc, a'.loc);
    ThreadsFrame(c, a, c', a', t, ESwing(b, tail));
  }

  lemma PathLinked(qnext: seq<Link>, s: seq<nat>, from: nat)
    requires Path(qnext, s, from)
    ensures forall i :: from <= i < |s| - 1 ==> qnext[s[i]].ptr.At?
  {
    forall i | from <= i < |s| - 1 ensures qnext[s[i]].ptr.At? {
      assert qnext[s[i]].ptr == At(s[i + 1]);
    }
  }

  /** A NULL link is at the end of the queue or at the end of a hanging chain with a younger root. */
  lemma WhereNull(c: Core, a: Aux, b: nat, x: nat)
    requires Inv(State(c, a)) && b < |a.loc| && x < |a.loc| && a.loc[b] == Hanging(b, 0)
    requires c.qnext[x].ptr.Null? && (Entering(a.loc[x]) ==> a.birth[b] < a.birth[x])
    ensures b in a.hang && HangChain(c.qnext, a.loc, a.birth, b, a.hang[b])
    ensures forall y :: 0 <= y < |a.loc| && a.loc[y].Hanging? && a.loc[y].root == b ==>
              a.loc[y].at < |a.hang[b]| && a.hang[b][a.loc[y].at] == y
    ensures a.loc[x] == Queued(|a.log| - 1) || (a.loc[x].Hanging? && JoinsAt(a, b, x, a.loc[x].root))
  {
    hide ChainOk, BirthsOk, FlagsOk, OwnersOk, ThreadsOk;
    if a.loc[x].Queued? {
      NullEndsQueue(State(c, a), x);
    } else if a.loc[x].Hanging? {
      assert HangChain(c.qnext, a.loc, a.birth, a.loc[x].root, a.hang[a.loc[x].root]);
      PathLinked(c.qnext, a.hang[a.loc[x].root], 0);
    }
  }

  lemma NullEndsQueue(s: State, x: nat)
    requires Inv(s) && x < |s.a.loc| && s.a.loc[x].Queued? && s.c.qnext[x].ptr.Null?
    ensures s.a.loc[x] == Queued(|s.a.log| - 1)
  {
    hide HangOk, BirthsOk, RestOk, FlagsOk, OwnersOk, ThreadsOk;
    PathLinked(s.c.qnext, s.a.log, |s.a.out|);
  }

  /** Node `x` ends the chain of `r`, and `r` is younger than `b`. */
  ghost predicate JoinsAt(a: Aux, b: nat, x: nat, r: nat) {
    && r in a.hang && r < |a.loc| && r < |a.birth| && b < |a.birth| && a.birth[b] < a.birth[r]
    && a.loc[r] == Hanging(r, 0)
    && |a.hang[r]| > 0 && x == a.hang[r][|a.hang[r]| - 1]
  }

  lemma LinkStep(s: State, t: Tid)
    requires Inv(s) && t in s.c.pc && s.c.pc[t].ELink?
    ensures Inv(Step(s, Run(t)))
  {
    hide ChainOk, HangOk, HangChain, BirthsOk, RestOk, FlagsOk, OwnersOk;
    var c, a, s' := s.c, s.a, Step(s, Run(t));
    var ELink(b, tail, next) := c.pc[t];
    assert ThreadOk(c, a, t, c.pc[t]);
    var x := tail.ptr.node;
    if !SameWord(c.qnext[x], next) {
      PrivateStep(s, t, EReadTail(b));
    } else {
      WhereNull(c, a, b, x);
      if a.loc[x].Queued? {
        LinkQueueStep(c, a, s'.c, s'.a, t, b, tail, next);
      } else {
        LinkChainStep(c, a, s'.c, s'.a, t, b, tail, next);
      }
    }
  }

  // Moving an end of the queue.

  /** Threads other than `t` are content when `tail` moves on. */
  lemma SwingThreads(c: Core, a: Aux, c': Core, a': Aux, t: Tid, next: Pc)
    requires Sizes(c, a) && ThreadsOk(c, a) && t in c.pc && |a.out| <= a.tpos
    requires c' == c.(tail := c'.tail, pc := c.pc[t := next]) && c'.tail.version > c.tail.version
    requires a' == a.(tpos := a.tpos + 1) && ThreadOk(c', a', t, next)
    ensures ThreadsOk(c', a')
  {
    forall u | u in c'.pc ensures ThreadOk(c', a', u, c'.pc[u]) {
      if u != t { assert ThreadOk(c, a, u, c.pc[u]); }
    }
  }

  lemma ChainSwing(qnext: seq<Link>, head: Ptr, tail: Ptr, to: Ptr, log: seq<nat>, out: seq<nat>, tpos: nat,
                   loc: seq<Loc>)
    requires ChainOk(qnext, head, tail, log, out, tpos, loc)
    requires tail.At? && tail.node < |qnext| && to.At? && to == qnext[tail.node].ptr
    ensures ChainOk(qnext, head, to, log, out, tpos + 1, loc)
  {
    assert tpos + 1 < |log|;
    assert qnext[log[tpos]].ptr == At(log[tpos + 1]);
  }

  lemma SwingStep(s: State, t: Tid, want: Link, to: Ptr, next: Pc)
    requires Inv(s) && t in s.c.pc && Carried(next) == Carried(s.c.pc[t])
    requires next.DReadHead? || next.Idle? || (next.EReadTail? && ThreadOk(s.c, s.a, t, next))
    requires to.At? && (SameWord(want, s.c.tail) ==> Follows(s.c, s.c.tail, to))
    ensures var c' := Goto(SwingTail(s.c, want, to), t, next);
            Inv(State(c', if SameWord(want, s.c.tail) then s.a.(tpos := s.a.tpos + 1) else s.a))
  {
    hide HangOk, BirthsOk, RestOk, FlagsOk, OwnersOk, ThreadsOk;
    var c, a := s.c, s.a;
    if SameWord(want, c.tail) {
      var c' := Goto(SwingTail(c, want, to), t, next);
      var a' := a.(tpos := a.tpos + 1);
      ChainSwing(c.qnext, c.head.ptr, c.tail.ptr, to, a.log, a.out, a.tpos, a.loc);
      OwnersFrame(c.pc, t, next, a.owner, a.loc, a.loc);
      SwingThreads(c, a, c', a', t, next);
    } else {
      PrivateStep(s, t, next);
    }
  }

  lemma MoveThreads(c: Core, a: Aux, c': Core, a': Aux, t: Tid, x: nat)
    requires Sizes(c, a) && Sizes(c', a') && ThreadsOk(c, a) && t in c.pc && x < |a.loc| && a.loc[x].Queued?
    requires c' == c.(head := c'.head, pc := c.pc[t := DRelease(x)]) && c'.head.version > c.head.version
    requires a' == a.(out := a'.out, loc := a.loc[x := Leaving], owner := a'.owner)
    ensures ThreadsOk(c', a')
  {
    forall u | u in c'.pc ensures ThreadOk(c', a', u, c'.pc[u]) {
      if u != t { assert ThreadOk(c, a, u, c.pc[u]); }
    }
  }

  lemma ChainMove(qnext: seq<Link>, head: Ptr, tail: Ptr, log: seq<nat>, out: seq<nat>, tpos: nat, loc: seq<Loc>,
                  x: nat)
    requires ChainOk(qnext, head, tail, log, out, tpos, loc) && |out| < tpos && head == At(x)
    ensures x < |loc| && ChainOk(qnext, qnext[x].ptr, tail, log, out + [x], tpos, loc[x := Leaving])
  {
    assert qnext[log[|out|]].ptr == At(log[|out| + 1]);
    assert out + [x] == log[..|out| + 1];
  }

  lemma MoveStep(c: Core, a: Aux, c': Core, a': Aux, t: Tid, x: nat, next: Link)
    requires Inv(State(c, a)) && t in c.pc && Carried(c.pc[t]).None? && x < |a.loc| && a.loc[x].Queued?
    requires c.head.ptr == At(x) && next.ptr == c.qnext[x].ptr && next.ptr.At? && |a.out| < a.tpos
    requires c' == c.(head := Link(c.head.version + 1, next.ptr), pc := c.pc[t := DRelease(x)])
    requires a' == a.(out := a.out + [x], loc := a.loc[x := Leaving], owner := a.owner[x := t])
    ensures Inv(State(c', a'))
  {
    hide ChainOk, HangOk, BirthsOk, RestOk, FlagsOk, OwnersOk, ThreadsOk;
    CarriedIsInTransit(State(c, a));
    ChainMove(c.qnext, c.head.ptr, c.tail.ptr, a.log, a.out, a.tpos, a.loc, x);
    HangFrame(c.qnext, c.qnext, a.loc, a'.loc, a.birth, a.birth, a.hang);
    BirthsFrame(a.stamp, a.loc, a'.loc, a.birth, a.clock);
    RestFrame(c.qnext, c.qnext, a.loc, a'.loc);
    FlagsFrame(c.inq, a.loc, a'.loc, a.dummyKept);
    OwnersTake(c.pc, t, DRelease(x), x, a.owner, a.loc, Leaving);
    MoveThreads(c, a, c', a', t, x);
  }

  lemma FlagsRelease(inq: seq<bool>, loc: seq<Loc>, kept: bool, b: nat)
    requires FlagsOk(inq, loc, kept) && b < |loc|
    ensures FlagsOk(inq[b := false], loc[b := Free], kept && b != |inq| - 1)
  {
  }

  lemma ReleaseStep(c: Core, a: Aux, c': Core, a': Aux, t: Tid, b: nat)
    requires Inv(State(c, a)) && t in c.pc && c.pc[t] == DRelease(b) && b < |a.loc| && a.loc[b].Leaving?
    requires c' == c.(inq := c.inq[b := false], pc := c.pc[t := Idle(Taken(b))])
    requires a' == a.(loc := a.loc[b := Free], dummyKept := a.dummyKept && b != Dummy(c))
    ensures Inv(State(c', a'))
  {
    hide ChainOk, HangOk, BirthsOk, RestOk, FlagsOk, OwnersOk, ThreadsOk;
    CarriedIsInTransit(State(c, a));
    ChainFrame(c.qnext, c.qnext, c.head.ptr, c.tail.ptr, a.log, a.out, a.tpos, a.loc, a'.loc);
    HangFrame(c.qnext, c.qnext, a.loc, a'.loc, a.birth, a.birth, a.hang);
    BirthsFrame(a.stamp, a.loc, a'.loc, a.birth, a.clock);
    RestFrame(c.qnext, c.qnext, a.loc, a'.loc);
    FlagsRelease(c.inq, a.loc, a.dummyKept, b);
    OwnersPut(c.pc, t, Idle(Taken(b)), b, a.owner, a.loc, a'.loc);
    ThreadsFrame(c, a, c', a', t, Idle(Taken(b)));
  }

  lemma FreeWhenClear(s: State, b: nat)
    requires Inv(s) && b < |s.c.inq| && !s.c.inq[b] && !(s.a.dummyKept && b == Dummy(s.c))
    ensures s.a.loc[b].Free?
  {
    hide ChainOk, HangOk, BirthsOk, RestOk, OwnersOk, ThreadsOk;
  }

  lemma HeadFacts(s: State)
    requires Inv(s)
    ensures |s.a.out| < |s.a.log| && s.c.head.ptr == At(s.a.log[|s.a.out|]) && s.a.log[|s.a.out|] < |s.c.qnext|
    ensures s.c.qnext[s.a.log[|s.a.out|]].ptr.Null? <==> |s.a.log| == |s.a.out| + 1
    ensures |s.a.out| <= s.a.tpos < |s.a.log| && s.c.tail.ptr == At(s.a.log[s.a.tpos])
    ensures s.a.tpos != |s.a.out| ==> s.a.log[s.a.tpos] != s.a.log[|s.a.out|]
  {
    hide HangOk, BirthsOk, RestOk, FlagsOk, OwnersOk, ThreadsOk;
    PathLinked(s.c.qnext, s.a.log, |s.a.out|);
  }

  lemma EnqueueStep(s: State, t: Tid)
    requires Inv(s) && InStep(s.c, Run(t)) && t in s.c.pc
    requires s.c.pc[t].EClaim? || s.c.pc[t].EReset? || s.c.pc[t].EReadTail? || s.c.pc[t].EReadNext? || s.c.pc[t].ECheck?
             || s.c.pc[t].EHelp? || s.c.pc[t].ESwing?
    ensures Inv(Step(s, Run(t)))
  {
    hide ChainOk, HangOk, BirthsOk, RestOk, FlagsOk, OwnersOk;
    var c, a, s' := s.c, s.a, Step(s, Run(t));
    assert ThreadOk(c, a, t, c.pc[t]);
    EndsQueued(s);
    match c.pc[t]
    case EClaim(b) =>
      if c.inq[b] {
        PrivateStep(s, t, Idle(Ignored));
      } else {
        FreeWhenClear(s, b);
        ClaimStep(c, a, s'.c, s'.a, t, b);
      }
    case EReset(b) => ResetStep(c, a, s'.c, s'.a, t, b);
    case EReadTail(b) => PrivateStep(s, t, EReadNext(b, c.tail));
    case EReadNext(b, tail) => PrivateStep(s, t, ECheck(b, tail, c.qnext[tail.ptr.node]));
    case ECheck(b, tail, next) => PrivateStep(s, t, s'.c.pc[t]);
    case EHelp(b, tail, next) => SwingStep(s, t, tail, next.ptr, EReadTail(b));
    case ESwing(b, tail) => SwingStep(s, t, tail, At(b), Idle(Linked(b)));
  }

  lemma DequeueStep(s: State, t: Tid)
    requires Inv(s) && InStep(s.c, Run(t)) && t in s.c.pc
    requires s.c.pc[t].DReadHead? || s.c.pc[t].DReadTail? || s.c.pc[t].DCheck? || s.c.pc[t].DHelp? || s.c.pc[t].DMove?
             || s.c.pc[t].DRelease?
    ensures Inv(Step(s, Run(t)))
  {
    hide ChainOk, HangOk, BirthsOk, RestOk, FlagsOk, OwnersOk;
    var c, a, s' := s.c, s.a, Step(s, Run(t));
    assert ThreadOk(c, a, t, c.pc[t]);
    EndsQueued(s);
    HeadFacts(s);
    match c.pc[t]
    case DReadHead => PrivateStep(s, t, DReadTail(c.head));
    case DReadTail(head) => PrivateStep(s, t, DReadNext(head, c.tail));
    case DCheck(head, tail, next) => PrivateStep(s, t, s'.c.pc[t]);
    case DHelp(head, tail, next) => SwingStep(s, t, tail, next.ptr, DReadHead);
    case DMove(head, tail, next) =>
      if SameWord(head, c.head) {
        MoveStep(c, a, s'.c, s'.a, t, head.ptr.node, next);
      } else {
        PrivateStep(s, t, DReadHead);
      }
    case DRelease(b) => ReleaseStep(c, a, s'.c, s'.a, t, b);
  }

  lemma ReadNextStep(s: State, t: Tid)
    requires Inv(s) && t in s.c.pc && s.c.pc[t].DReadNext?
    ensures Inv(Step(s, Run(t)))
  {
    hide ChainOk, HangOk, BirthsOk, RestOk, FlagsOk, OwnersOk;
    var c, a, s' := s.c, s.a, Step(s, Run(t));
    var DReadNext(head, tail) := c.pc[t];
    assert ThreadOk(c, a, t, c.pc[t]);
    HeadFacts(s);
    var next := DCheck(head, tail, c.qnext[head.ptr.node]);
    OwnersFrame(c.pc, t, next, a.owner, a.loc, a.loc);
    ThreadsFrame(c, a, s'.c, s'.a, t, next);
  }

  /** Every step of every thread keeps the invariant, as long as what moves an end is in step with it. */
  lemma StepKeepsInv(s: State, e: Event)
    requires Inv(s) && InStep(s.c, e) && Legal(s, e)
    ensures Inv(Step(s, e))
  {
    hide ChainOk, HangOk, BirthsOk, RestOk, FlagsOk, OwnersOk;
    if e.t in s.c.pc {
      var t := e.t;
      assert ThreadOk(s.c, s.a, t, s.c.pc[t]);
      match e
      case Enqueue(_, b) => PrivateStep(s, t, if s.c.pc[t].Idle? then EClaim(b) else s.c.pc[t]);
      case Dequeue(_) => PrivateStep(s, t, if s.c.pc[t].Idle? then DReadHead else s.c.pc[t]);
      case Run(_) =>
        if s.c.pc[t].Idle? {
          assert Step(s, e) == s;
        } else if s.c.pc[t].ELink? {
          LinkStep(s, t);
        } else if s.c.pc[t].DReadNext? {
          ReadNextStep(s, t);
        } else if s.c.pc[t].DReadHead? || s.c.pc[t].DReadTail? || s.c.pc[t].DCheck? || s.c.pc[t].DHelp?
          || s.c.pc[t].DMove?
          || s.c.pc[t].DRelease? {
          DequeueStep(s, t);
        } else {
          EnqueueStep(s, t);
        }
    }
  }

  lemma ChainNext(qnext: seq<Link>, head: Ptr, tail: Ptr, log: seq<nat>, out: seq<nat>, tpos: nat, loc: seq<Loc>)
    requires ChainOk(qnext, head, tail, log, out, tpos, loc)
    ensures forall p, q :: |out| <= p && q == p + 1 && q < |log| ==> log[p] < |qnext| && qnext[log[p]].ptr == At(log[q])
    ensures |out| <= tpos < |log| && head == At(log[|out|]) && tail == At(log[tpos])
    ensures forall p :: |out| < p < |log| ==> log[p] != log[|out|]
  {
    forall p | |out| < p < |log| ensures log[p] != log[|out|] {
      assert loc[log[p]] == Queued(p) && loc[log[|out|]] == Queued(|out|);
    }
  }

  /** Only compare-and-swaps can be out of step, and one that is breaks the queue. */
  lemma StepBreaksInv(s: State, e: Event)
    requires Inv(s) && !InStep(s.c, e)
    ensures !Inv(Step(s, e))
  {
    hide HangOk, BirthsOk, RestOk, FlagsOk, OwnersOk, ThreadsOk, ChainOk;
    var c, a, s' := s.c, s.a, Step(s, e);
    EndsQueued(s);
    ChainNext(c.qnext, c.head.ptr, c.tail.ptr, a.log, a.out, a.tpos, a.loc);
    if Inv(s') {
      ChainNext(s'.c.qnext, s'.c.head.ptr, s'.c.tail.ptr, s'.a.log, s'.a.out, s'.a.tpos, s'.a.loc);
    }
  }

  /** Exactly these steps keep the invariant. */
  lemma StepExact(s: State, e: Event)
    requires Inv(s) && Legal(s, e)
    ensures Inv(Step(s, e)) <==> InStep(s.c, e)
  {
    hide Inv, Step;
    if InStep(s.c, e) {
      StepKeepsInv(s, e);
    } else {
      StepBreaksInv(s, e);
    }
  }

  /** A thread that has not slept through 2^32 moves is in step. */
  lemma AwakeIsInStep(s: State, e: Event)
    requires Inv(s) && (e.t in s.c.pc ==> Awake(s.c, s.c.pc[e.t]))
    ensures InStep(s.c, e)
  {
    hide HangOk, BirthsOk, RestOk, FlagsOk, OwnersOk, ChainOk;
    if e.Run? && e.t in s.c.pc {
      var c, a, pc := s.c, s.a, s.c.pc[e.t];
      assert ThreadOk(c, a, e.t, pc);
      HeadFacts(s);
      if TailHeld(pc).Some? && SameWord(TailHeld(pc).value, c.tail)
         && !pc.ECheck? && TailCopy(c, a, TailHeld(pc).value) {
        SameVersion(TailHeld(pc).value, c.tail);
      }
      if HeadHeld(pc).Some? && SameWord(HeadHeld(pc).value, c.head) {
        SameVersion(HeadHeld(pc).value, c.head);
      }
    }
  }

  // ----- Whole runs -----------------------------------------------------------------------------

  /** `binit` before its loop: the dummy alone is queued, memory is zero, nobody is inside a call.
      The loop's own calls of `enqueue` are ordinary steps of the run. */
  function Boot(nodes: nat, tids: set<Tid>): State
    requires nodes > 0
  {
    var free := seq(nodes, i requires 0 <= i < nodes => if i == nodes - 1 then Queued(0) else Free);
    var link := seq(nodes, i requires 0 <= i < nodes => if i == nodes - 1 then Link(0, Null) else Link(0, At(0)));
    var end := Link(0, At(nodes - 1));
    State(Core(link, seq(nodes, i => false), end, end, map t | t in tids :: Idle(Nothing)),
          Aux([nodes - 1], [0], [], 0, free, map[], seq(nodes, i => 0), 1, seq(nodes, i => 0), {}, true))
  }

  ghost predicate IsTrace(trace: seq<State>, events: seq<Event>) {
    && |trace| == |events| + 1
    && (exists nodes: nat, tids: set<Tid> :: nodes > 0 && trace[0] == Boot(nodes, tids))
    && (forall i :: 0 <= i < |events| ==> Legal(trace[i], events[i]) && trace[i + 1] == Step(trace[i], events[i]))
  }

  /** A trace whose compare-and-swaps are all in step. */
  ghost predicate IsRun(trace: seq<State>, events: seq<Event>) {
    IsTrace(trace, events) && forall i :: 0 <= i < |events| ==> InStep(trace[i].c, events[i])
  }

  lemma BootInv(nodes: nat, tids: set<Tid>)
    requires nodes > 0
    ensures Inv(Boot(nodes, tids))
  {
  }

  lemma {:induction false} RunKeepsInv(trace: seq<State>, events: seq<Event>, k: nat)
    requires IsRun(trace, events) && k < |trace|
    ensures Inv(trace[k])
  {
    hide Inv, Boot, Step, InStep, Legal;
    if k == 0 {
      var nodes: nat, tids: set<Tid> :| nodes > 0 && trace[0] == Boot(nodes, tids);
      BootInv(nodes, tids);
    } else {
      RunKeepsInv(trace, events, k - 1);
      StepKeepsInv(trace[k - 1], events[k - 1]);
    }
  }

  /** The runs are exactly the traces that keep the invariant throughout. */
  lemma RunExact(trace: seq<State>, events: seq<Event>)
    requires IsTrace(trace, events)
    ensures IsRun(trace, events) <==> forall k :: 0 <= k < |trace| ==> Inv(trace[k])
  {
    hide Inv, Boot, Step, InStep, Legal;
    if IsRun(trace, events) {
      forall k | 0 <= k < |trace| ensures Inv(trace[k]) {
        RunKeepsInv(trace, events, k);
      }
    } else {
      var i :| 0 <= i < |events| && !InStep(trace[i].c, events[i]);
      if Inv(trace[i]) {
        StepExact(trace[i], events[i]);
        assert !Inv(trace[i + 1]);
      }
    }
  }

  /** As long as no thread sleeps through 2^32 moves, every trace is a run. */
  lemma {:induction false} AwakeTraceIsRun(trace: seq<State>, events: seq<Event>)
    requires IsTrace(trace, events)
    requires forall i :: 0 <= i < |events| ==> NotLapped(trace[i].c)
    ensures IsRun(trace, events)
    decreases |events|
  {
    hide Inv, Boot, Step, InStep, Legal, Awake;
    if events != [] {
      var n := |events| - 1;
      var before, past := trace[..n + 1], events[..n];
      assert before[0] == trace[0];
      AwakeTraceIsRun(before, past);
      RunKeepsInv(before, past, n);
      AwakeIsInStep(trace[n], events[n]);
      forall i | 0 <= i < |events| ensures InStep(trace[i].c, events[i]) {
        if i < n { assert InStep(before[i].c, past[i]); }
      }
    }
  }

  /** Following the links in memory from `p`, for at most `fuel` hops. */
  function Walk(qnext: seq<Link>, p: Ptr, fuel: nat): seq<nat>
    decreases fuel
  {
    if p.Null? || p.node >= |qnext| || fuel == 0 then [] else [p.node] + Walk(qnext, qnext[p.node].ptr, fuel - 1)
  }

  lemma PathAt(qnext: seq<Link>, s: seq<nat>, from: nat, k: nat)
    requires Path(qnext, s, from) && from <= k < |s|
    ensures s[k] < |qnext| && qnext[s[k]].ptr == if k + 1 < |s| then At(s[k + 1]) else Null
  {
  }

  lemma {:induction false} WalkPath(qnext: seq<Link>, s: seq<nat>, from: nat, k: nat, fuel: nat)
    requires Path(qnext, s, from) && from <= k < |s| && fuel >= |s| - k
    ensures Walk(qnext, At(s[k]), fuel) == s[k..]
    decreases |s| - k
  {
    hide Path;
    PathAt(qnext, s, from, k);
    if k + 1 < |s| {
      WalkPath(qnext, s, from, k + 1, fuel - 1);
      assert s[k..] == [s[k]] + s[k + 1..];
    }
  }

  /** In every reachable state the links from `head` spell out, without repetition and however far
      one is willing to follow them, what was linked and not yet handed out; `tail` is among it; and
      buffers were handed out in the order they were linked, no enqueue twice. */
  lemma QueueIsSafe(trace: seq<State>, events: seq<Event>, k: nat, fuel: nat)
    requires IsRun(trace, events) && k < |trace| && fuel >= |trace[k].a.log|
    ensures var c, a := trace[k].c, trace[k].a;
      && |a.out| <= |a.log| && Walk(c.qnext, c.head.ptr, fuel) == a.log[|a.out|..]
      && (forall i, j :: |a.out| <= i < j < |a.log| ==> a.log[i] != a.log[j])
      && (exists p :: |a.out| <= p < |a.log| && c.tail.ptr == At(a.log[p]))
      && a.out <= a.log
      && |a.stamp| == |a.log| && (forall i, j :: 0 <= i < j < |a.stamp| ==> a.stamp[i] != a.stamp[j])
      && (forall t :: t in c.pc ==> !c.pc[t].Fault?)
  {
    RunKeepsInv(trace, events, k);
    hide HangOk, RestOk, FlagsOk, OwnersOk;
    var c, a := trace[k].c, trace[k].a;
    WalkPath(c.qnext, a.log, |a.out|, |a.out|, fuel);
    forall i, j | |a.out| <= i < j < |a.log| ensures a.log[i] != a.log[j] {
      assert a.loc[a.log[i]] == Queued(i) && a.loc[a.log[j]] == Queued(j);
    }
    forall t | t in c.pc ensures !c.pc[t].Fault? {
      assert ThreadOk(c, a, t, c.pc[t]);
    }
  }

  lemma InTransitIsCarried(s: State, x: nat)
    requires Inv(s) && x < |s.a.loc| && (Entering(s.a.loc[x]) || s.a.loc[x].Leaving?)
    ensures exists t :: t in s.c.pc && Carried(s.c.pc[t]).Some?
  {
    var c, a := s.c, s.a;
    hide ChainOk, BirthsOk, RestOk, FlagsOk, ThreadsOk;
    var y := if a.loc[x].Hanging? then a.loc[x].root else x;
    if a.loc[x].Hanging? {
      assert HangChain(c.qnext, a.loc, a.birth, y, a.hang[y]);
    }
    assert InTransit(a.loc[y], y);
    assert Carried(c.pc[a.owner[y]]).Some?;
  }

  lemma QueuedMeansOnQueue(s: State, x: nat)
    requires Inv(s) && x < |s.a.loc|
    ensures s.a.loc[x].Queued? <==> x in s.a.log[|s.a.out|..]
  {
    hide HangOk, BirthsOk, RestOk, FlagsOk, OwnersOk, ThreadsOk;
    var q := s.a.log[|s.a.out|..];
    forall i | 0 <= i < |q| ensures s.a.loc[q[i]].Queued? {
      assert q[i] == s.a.log[|s.a.out| + i];
    }
    if s.a.loc[x].Queued? {
      assert q[s.a.loc[x].pos - |s.a.out|] == x;
    }
  }

  /** When nobody carries a buffer in or out, the queue holds exactly the buffers flagged `in_q`
      (and the initial dummy, which is queued unflagged): nothing that was linked has been lost. */
  lemma NothingIsLost(trace: seq<State>, events: seq<Event>, k: nat, x: nat)
    requires IsRun(trace, events) && k < |trace| && x < |trace[k].c.inq|
    requires forall t :: t in trace[k].c.pc ==> Carried(trace[k].c.pc[t]).None?
    ensures var c, a := trace[k].c, trace[k].a;
      x in Walk(c.qnext, c.head.ptr, |a.log|) <==> c.inq[x] || (a.dummyKept && x == Dummy(c))
  {
    RunKeepsInv(trace, events, k);
    QueueIsSafe(trace, events, k, |trace[k].a.log|);
    QueuedMeansOnQueue(trace[k], x);
    hide ChainOk, HangOk, BirthsOk, RestOk, OwnersOk, ThreadsOk;
    if Entering(trace[k].a.loc[x]) || trace[k].a.loc[x].Leaving? {
      InTransitIsCarried(trace[k], x);
    }
  }

  /** At step `i`, its last before step `k`, thread `t` read the link of its copy `head`, and only the dummy
      was queued then. */
  ghost predicate ReadSingle(trace: seq<State>, events: seq<Event>, t: Tid, head: Link, i: nat, k: nat) {
    && i < k < |trace| && k <= |events| && events[i] == Run(t) && (forall j :: i < j < k ==> events[j] != Run(t))
    && t in trace[i].c.pc && trace[i].c.pc[t].DReadNext? && trace[i].c.pc[t].head == head
    && |trace[i].a.log| == |trace[i].a.out| + 1
  }

  lemma CoreSaw(c: Core, e: Event, t: Tid)
    requires t in CoreStep(c, e).pc && CoreStep(c, e).pc[t].DCheck?
    ensures t in c.pc
    ensures if e == Run(t) then c.pc[t].DReadNext? && c.pc[t].head == CoreStep(c, e).pc[t].head
      else c.pc[t] == CoreStep(c, e).pc[t]
  {
    if e.t != t { OthersStay(c, e, t); }
  }

  lemma OthersStay(c: Core, e: Event, t: Tid)
    requires e.t != t
    ensures t in CoreStep(c, e).pc <==> t in c.pc
    ensures t in c.pc ==> CoreStep(c, e).pc[t] == c.pc[t]
  {
  }

  lemma HistorySaw(c: Core, a: Aux, u: Tid, t: Tid)
    requires u in c.pc
    ensures if u == t && c.pc[t].DReadNext? then t in RunHistory(c, a, u).sawSingle <==> |a.log| == |a.out| + 1
      else t in RunHistory(c, a, u).sawSingle <==> t in a.sawSingle
  {
  }

  lemma BootIsIdle(trace: seq<State>, events: seq<Event>, t: Tid)
    requires IsTrace(trace, events) && t in trace[0].c.pc
    ensures trace[0].c.pc[t].Idle?
  {
  }

  /** What the history remembers of such a read is true. */
  lemma {:induction false} SawReads(trace: seq<State>, events: seq<Event>, k: nat, t: Tid)
    requires IsTrace(trace, events) && k < |trace| && t in trace[k].c.pc && trace[k].c.pc[t].DCheck?
    requires t in trace[k].a.sawSingle
    ensures exists i: nat :: ReadSingle(trace, events, t, trace[k].c.pc[t].head, i, k)
  {
    if k == 0 {
      BootIsIdle(trace, events, t);
    } else {
      hide CoreStep, RunHistory;
      var s, e := trace[k - 1], events[k - 1];
      CoreSaw(s.c, e, t);
      if e.Run? && e.t in s.c.pc { HistorySaw(s.c, s.a, e.t, t); }
      if e == Run(t) {
        assert ReadSingle(trace, events, t, s.c.pc[t].head, k - 1, k);
      } else {
        SawReads(trace, events, k - 1, t);
        var i: nat :| ReadSingle(trace, events, t, s.c.pc[t].head, i, k - 1);
        assert ReadSingle(trace, events, t, s.c.pc[t].head, i, k);
      }
    }
  }

  /** `dequeue` reports an empty queue only if, when it read the head's link, no second node was queued. */
  lemma EmptyMeansEmpty(trace: seq<State>, events: seq<Event>, k: nat, t: Tid)
    requires IsRun(trace, events) && k < |events| && events[k] == Run(t) && t in trace[k].c.pc
    requires trace[k].c.pc[t].DCheck? && trace[k + 1].c.pc[t] == Idle(Empty) && Awake(trace[k].c, trace[k].c.pc[t])
    ensures exists i: nat :: ReadSingle(trace, events, t, trace[k].c.head, i, k)
  {
    RunKeepsInv(trace, events, k);
    var c, a := trace[k].c, trace[k].a;
    hide ChainOk, HangOk, BirthsOk, RestOk, FlagsOk, OwnersOk;
    assert ThreadOk(c, a, t, c.pc[t]);
    SameVersion(c.pc[t].head, c.head);
    SawReads(trace, events, k, t);
  }

  /** The history is only ever extended, and a buffer is handed out exactly when `head` moves past it. */
  lemma HistoryGrows(s: State, e: Event)
    requires Inv(s)
    ensures var s' := Step(s, e);
      && s.a.log <= s'.a.log && s.a.stamp <= s'.a.stamp && s.a.out <= s'.a.out
      && (s'.c.head != s.c.head ==> s.c.head.ptr.At? && s'.a.out == s.a.out + [s.c.head.ptr.node])
      && (s'.c.head == s.c.head ==> s'.a.out == s.a.out)
  {
    hide ChainOk, HangOk, BirthsOk, RestOk, FlagsOk, OwnersOk;
    if e.Run? && e.t in s.c.pc {
      assert ThreadOk(s.c, s.a, e.t, s.c.pc[e.t]);
    }
  }

}
