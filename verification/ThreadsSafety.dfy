/** What every run of the process table guarantees. */
module ThreadsSafety {

  import opened Threads
  import opened ThreadsProof

  /** `userinit`: the first slot holds init (proc.c:243-271). */
  function Boot(n: nat): State
    requires n > 0
  {
    State([Proc(RUNNABLE, Nothing, false, -1, false, 1, 1, User)] + seq(n - 1, i => Blank()), -1, {1}, 2, 2)
  }

  function After(s: State, es: seq<Event>): State
    decreases |es|
  {
    if es == [] then s else Step(After(s, es[..|es| - 1]), es[|es| - 1])
  }

  lemma {:induction false} BootInv(n: nat)
    requires n > 0
    ensures Inv(Boot(n))
  {
    var s := Boot(n);
    forall i | 0 < i < n ensures s.procs[i] == Blank() {
    }
    assert Owns(s.procs[0]) && s.procs[0].space == 1;
  }

  /** Any interleaving of any calls, kills, timer interrupts and schedulings. */
  lemma {:induction false} RunKeepsInv(n: nat, es: seq<Event>)
    requires n > 0
    ensures Inv(After(Boot(n), es))
    decreases |es|
  {
    hide Inv, Step;
    if es == [] {
      BootInv(n);
    } else {
      RunKeepsInv(n, es[..|es| - 1]);
      StepKeepsInv(After(Boot(n), es[..|es| - 1]), es[|es| - 1]);
    }
  }

  // ----- Parents, threads and page tables ------------------------------------------------------

  /** A process that is not being set up has a parent that still runs, and a zombie no children at all. */
  lemma {:induction false} ParentIsLive(n: nat, es: seq<Event>, c: nat)
    requires n > 0 && c < |After(Boot(n), es).procs| && c != INIT
    ensures var procs := After(Boot(n), es).procs;
      !procs[c].state.UNUSED? && !procs[c].state.USED? ==>
        0 <= procs[c].parent < |procs| && Live(procs[procs[c].parent])
    ensures var procs := After(Boot(n), es).procs;
      0 <= procs[c].parent < |procs| ==> Live(procs[procs[c].parent])
  {
    RunKeepsInv(n, es);
    Facts(After(Boot(n), es), c);
  }

  lemma {:induction false} ZombieHasNoThread(n: nat, es: seq<Event>, z: nat, t: nat)
    requires n > 0 && z < |After(Boot(n), es).procs| && t < |After(Boot(n), es).procs|
    ensures var procs := After(Boot(n), es).procs;
      procs[z].state.ZOMBIE? && procs[t].parent == z ==> !procs[t].isthread
  {
    RunKeepsInv(n, es);
    Facts(After(Boot(n), es), t);
  }

  predicate Leads(q: Proc, space: nat) { Live(q) && !q.isthread && q.space == space }

  /** Up the chain of parents of a thread, however deep, stands the live process whose page table it uses. */
  lemma {:induction false} ThreadHasLeader(s: State, t: nat) returns (leader: nat)
    requires Inv(s) && t < |s.procs| && s.procs[t].isthread && s.procs[t].parent >= 0
    ensures leader < |s.procs| && Leads(s.procs[leader], s.procs[t].space)
    decreases s.procs[t].pid
  {
    Facts(s, t);
    var q := s.procs[t].parent;
    Facts(s, q);
    if s.procs[q].isthread {
      leader := ThreadHasLeader(s, q);
    } else {
      leader := q;
    }
  }

  /** No slot, zombie threads included, ever names a page table that was freed: `freeproc` of a
      process finds no thread of it left. */
  lemma {:induction false} SpaceIsAlive(n: nat, es: seq<Event>, t: nat)
    requires n > 0 && t < |After(Boot(n), es).procs|
    ensures var s := After(Boot(n), es);
      !s.procs[t].state.UNUSED? && s.procs[t].space != 0 ==> s.procs[t].space in s.spaces
    ensures var s := After(Boot(n), es);
      !s.procs[t].state.UNUSED? && s.procs[t].space == 0 ==> s.procs[t].state.USED? && s.procs[t].parent == -1
  {
    RunKeepsInv(n, es);
    var s := After(Boot(n), es);
    Facts(s, t);
    if !s.procs[t].state.UNUSED? && s.procs[t].isthread && s.procs[t].parent >= 0 {
      var leader := ThreadHasLeader(s, t);
      Facts(s, leader);
    }
  }

  /** No page table is lost either: the ones not yet freed are exactly those of the processes. */
  lemma {:induction false} SpacesAreOwned(n: nat, es: seq<Event>, x: nat)
    requires n > 0
    ensures var s := After(Boot(n), es); x in s.spaces <==> HasOwner(s.procs, x)
  {
    RunKeepsInv(n, es);
    var s := After(Boot(n), es);
    if HasOwner(s.procs, x) {
      var i :| 0 <= i < |s.procs| && Owns(s.procs[i]) && s.procs[i].space == x;
      Facts(s, i);
    }
  }

  // ----- Sleeping ------------------------------------------------------------------------------

  /** No lost wakeup in wait and join: with `wait_lock` free, a sleeper has no zombie of the kind it awaits. */
  lemma {:induction false} SleeperHasNoZombie(n: nat, es: seq<Event>, p: nat, c: nat)
    requires n > 0 && p < |After(Boot(n), es).procs| && c < |After(Boot(n), es).procs| && After(Boot(n), es).lock == -1
    ensures var procs := After(Boot(n), es).procs;
      procs[p].pc.Asleep? && procs[p].state.SLEEPING? && procs[c].parent == p
      && procs[c].isthread == procs[p].pc.threads
      ==> !procs[c].state.ZOMBIE?
  {
    RunKeepsInv(n, es);
    Facts(After(Boot(n), es), c);
  }

  /** Nor in tpkill: a sleeper still has a thread that is not a zombie, and which wakes it before it becomes one. */
  lemma {:induction false} KillerHasThread(n: nat, es: seq<Event>, p: nat)
    requires n > 0 && p < |After(Boot(n), es).procs|
    ensures var procs := After(Boot(n), es).procs;
      procs[p].pc.TpSleep? && procs[p].state.SLEEPING? ==> HasThread(procs, p)
  {
    RunKeepsInv(n, es);
  }

  /** Every thread that tpkill waits for was told to die, and none of them sleeps in wait or join. */
  lemma {:induction false} VictimsDoNotWait(n: nat, es: seq<Event>, p: nat, t: nat)
    requires n > 0 && p < |After(Boot(n), es).procs| && t < |After(Boot(n), es).procs|
    ensures var procs := After(Boot(n), es).procs;
      (procs[p].pc.FreeScan? || procs[p].pc.TpDoze? || procs[p].pc.TpSleep?) && procs[t].parent == p
      && procs[t].isthread
      ==> procs[t].killed && !(procs[t].pc.Asleep? && procs[t].state.SLEEPING?)
  {
    RunKeepsInv(n, es);
    Facts(After(Boot(n), es), t);
  }

  /** At most one process is between acquiring and releasing `wait_lock`: the holder. */
  lemma {:induction false} OneHolder(n: nat, es: seq<Event>, p: nat)
    requires n > 0 && p < |After(Boot(n), es).procs|
    ensures Holding(After(Boot(n), es).procs[p].pc) <==> After(Boot(n), es).lock == p
  {
    RunKeepsInv(n, es);
    Facts(After(Boot(n), es), p);
  }
}
