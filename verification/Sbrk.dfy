/** How `morecore` asks for memory: the `int` it passes to `sbrk`, the break afterwards, and what it makes of it
    (lab3/user/umalloc.c:46-64, lab6/user/umalloc.c:47-62). */
module Sbrk {

  const UINT: nat := 0x1_0000_0000
  /** Units on a page: 4096 bytes in headers of 16. */
  const PAGE: nat := 256

  /** What `sbrk` answers: no memory, or `units` units from `start` on. */
  datatype Grant = Refused | Granted(start: nat, units: nat)

  /** Units for `nbytes` bytes and one header (lab3/user/umalloc.c:72). */
  function Units(nbytes: nat): nat { (nbytes + 15) / 16 + 1 }

  /** Units `malloc_align` searches for: its sum of bytes is a 32-bit `uint`
      (lab6/user/umalloc.c:101-103). */
  function AlignUnits(oribytes: nat): nat { Units((oribytes + 4096) % UINT) }

  /** Bytes of a superpage (lab3/kernel/riscv.h:337). */
  const SUPER: nat := 2097152

  /** Units `morecore` asks for (lab3/user/umalloc.c:52-53). */
  function Asked(nu: nat): nat { if nu < 4096 then 4096 else nu }

  /** At least 4096 units, and no more than are needed. */
  lemma AskedLeast(nu: nat, u: nat)
    ensures u >= Asked(nu) <==> u >= 4096 && u >= nu
  {
  }

  /** A number as the 32-bit signed `int` that it becomes in the call of `sbrk` (lab3/user/user.h:22). */
  function AsInt(x: nat): int {
    var low := x % UINT;
    if low < UINT / 2 then low else low - UINT
  }

  function SbrkArg(nu: nat): int { AsInt(16 * Asked(nu)) }

  function RoundUp(x: nat, to: nat): nat
    requires to > 0
  {
    (x + to - 1) / to * to
  }

  /** The break, in bytes, after a call of `sbrk` that does not fail (lab3/kernel/proc.c:291-307): with
      superpages (lab3/kernel/vm.c:283-344) growth is rounded up where they are used and the first page may stay; it
      is never lowered below 0. */
  function NewBreak(super: bool, brk: nat, arg: int): nat {
    if arg >= SUPER && super && RoundUp(brk, 4096) == RoundUp(brk, SUPER) then RoundUp(brk + arg, SUPER)
    else if brk + arg < 0 then brk
    else if brk + arg == 0 && arg < 0 < arg + SUPER && super then 4096
    else brk + arg
  }

  /** Growth is exact, except that with superpages 2 MB or more, begun on the last page before a multiple of 2 MB or at
      it, end at a multiple; `k` tells between which multiples the break stands. */
  lemma GrowthIs(super: bool, brk: nat, arg: nat, k: nat)
    requires arg > 0 && SUPER * k < brk + SUPER && brk <= SUPER * k
    ensures var brk' := NewBreak(super, brk, arg);
      if super && arg >= SUPER && SUPER * k < brk + 4096 then
        brk' % SUPER == 0 && brk + arg <= brk' < brk + arg + SUPER
      else brk' == brk + arg
  {
    Rounded(brk, SUPER, k);
    var page := (brk + 4095) / 4096;
    Rounded(brk, 4096, page);
    Rounded(brk + arg, SUPER, (brk + arg + SUPER - 1) / SUPER);
    assert SUPER * k == 4096 * (512 * k);
    if SUPER * k < brk + 4096 { Rounded(brk, 4096, 512 * k); }
    assert SUPER * ((brk + arg + SUPER - 1) / SUPER) % SUPER == 0;
    hide RoundUp;
  }

  /** Lowering is exact, except that it stops above 0: by more than there is it does nothing, and by all of less
      than 2 MB it leaves a page where there are superpages. */
  lemma LoweringIs(super: bool, brk: nat, less: nat)
    requires less > 0
    ensures NewBreak(super, brk, 0 - less) ==
            if less > brk then brk else if less < brk || !super || less >= SUPER then brk - less else 4096
  {
  }

  lemma Rounded(x: nat, to: nat, k: nat)
    requires to == SUPER || to == 4096
    ensures to * k < x + to && x <= to * k <==> RoundUp(x, to) == to * k
  {
    if to == SUPER {
      assert x + SUPER - 1 == SUPER * ((x + SUPER - 1) / SUPER) + (x + SUPER - 1) % SUPER;
    } else {
      assert x + 4095 == 4096 * ((x + 4095) / 4096) + (x + 4095) % 4096;
    }
  }

  /** Units between the two breaks as `morecore` reckons them: the difference is divided as an unsigned
      64-bit number and kept in a 32-bit one (lab3/user/umalloc.c:60). */
  function NewUnits(brk: nat, brk': nat): nat { (brk' - brk) % (UINT * UINT) / 16 % UINT }

  /** What `morecore` makes of the answer of `sbrk` when the break is at `brk` units.  With superpages it
      reads the break again, without them it takes what was asked for as granted (lab6/user/umalloc.c:59).
      Only a request for more memory can be refused. */
  function Answer(super: bool, brk: nat, nu: nat, refuse: bool): Grant {
    if refuse && SbrkArg(nu) > 0 then Refused
    else Granted(brk, if super then NewUnits(16 * brk, NewBreak(super, 16 * brk, SbrkArg(nu))) else Asked(nu))
  }

  /** Only a call that asks for memory can be refused. */
  lemma RefusedIs(super: bool, brk: nat, nu: nat, refuse: bool)
    ensures Answer(super, brk, nu, refuse).Refused? <==> refuse && 1 <= SbrkArg(nu) < UINT / 2
    ensures Answer(super, brk, nu, refuse).Granted? ==> Answer(super, brk, nu, refuse).start == brk
  {
  }

  /** The bytes asked for are a positive `int`. */
  predicate Askable(nu: nat) { 16 * Asked(nu) < UINT / 2 }

  /** The bytes asked for cover the request exactly below 2^31 - 31 bytes. */
  lemma AskedExact(nbytes: nat)
    requires nbytes < UINT
    ensures SbrkArg(Units(nbytes)) >= 16 * Units(nbytes) <==> Askable(Units(nbytes))
    ensures Askable(Units(nbytes)) <==> nbytes < UINT / 2 - 31
  {
  }

  lemma AlignAskedExact(oribytes: nat)
    requires oribytes < UINT
    ensures SbrkArg(AlignUnits(oribytes)) >= 16 * AlignUnits(oribytes) <==> Askable(AlignUnits(oribytes))
    ensures Askable(AlignUnits(oribytes)) <==> (oribytes + 4096) % UINT < UINT / 2 - 31
  {
    AskedExact((oribytes + 4096) % UINT);
  }

  lemma ArgIs(nu: nat)
    requires nu <= UINT / 16 + 1
    ensures SbrkArg(nu) == if Askable(nu) then 16 * Asked(nu) else 16 * nu - UINT
  {
  }

  /** The units that `morecore` counts end at the new break exactly when the argument is positive and, where the
      break is not read again, not cut. */
  lemma CountExact(super: bool, brk: nat, nu: nat)
    requires brk >= PAGE && nu <= UINT / 16 + 1
    ensures var arg, units, brk' :=
        SbrkArg(nu), Answer(super, brk, nu, false).units, NewBreak(super, 16 * brk, SbrkArg(nu));
      && (arg <= 0 ==> brk' <= 16 * brk && !Askable(nu) && (!super ==> units > 0))
      && (arg > 0 && (super || Askable(nu)) ==> 16 * (brk + units) == brk' && units > 0)
      && (arg > 0 && !super && !Askable(nu) ==> brk' == 16 * (brk + 1) && units > 1)
      && (Askable(nu) ==> arg == 16 * Asked(nu) && units >= Asked(nu) >= nu)
  {
    ArgIs(nu);
    hide SbrkArg;
    if SbrkArg(nu) > 0 && super {
      CountSuper(brk, SbrkArg(nu));
    }
  }

  lemma CountSuper(brk: nat, arg: nat)
    requires 0 < arg < UINT / 2 && arg % 16 == 0
    ensures var brk' := NewBreak(true, 16 * brk, arg);
      16 * (brk + NewUnits(16 * brk, brk')) == brk' && brk' >= 16 * brk + arg
  {
    hide RoundUp, NewUnits;
    var brk' := NewBreak(true, 16 * brk, arg);
    Sixteens(brk, 16 * brk + arg);
    RoundedUp(16 * brk + arg);
    UnitsBetween(16 * brk, brk');
    Sixteens(brk, brk');
  }

  lemma Sixteens(brk: nat, x: nat)
    ensures (x - 16 * brk) % 16 == x % 16
    ensures x % 16 == 0 ==> 16 * (brk + (x - 16 * brk) / 16) == x
  {
  }

  lemma RoundedUp(x: nat)
    requires x % 16 == 0
    ensures x <= RoundUp(x, SUPER) < x + SUPER && RoundUp(x, SUPER) % 16 == 0
  {
  }

  lemma UnitsBetween(brk: nat, brk': nat)
    requires 0 <= brk' - brk < UINT
    ensures NewUnits(brk, brk') == (brk' - brk) / 16
  {
  }
}
