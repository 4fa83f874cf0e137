/** What create, link and unlink of lab9/kernel/sysfile.c do to inodes with directories as lists of slots. */
module LinkUpdates {

  import opened LinkCounts

  /** `nlink` is a C short. */
  const MAXLINKS: int := 32767

  /** What a count becomes when it is stored in one. */
  function Short(n: int): int {
    if n > MAXLINKS then n - 0x1_0000 else if n < -MAXLINKS - 1 then n + 0x1_0000 else n
  }

  /** The short that equals the count modulo 2^16. */
  lemma ShortIs(n: int)
    requires -0x1_8000 <= n < 0x1_8000
    ensures -32768 <= Short(n) <= 32767 && (Short(n) - n) % 0x1_0000 == 0
  {
  }

  function Narrow(v: Inodes, i: nat): Inodes
    requires i < |v|
  {
    v[i := v[i].(nlink := Short(v[i].nlink))]
  }

  predicate Shorts(v: Inodes) { forall i :: 0 <= i < |v| ==> v[i].nlink <= MAXLINKS }

  datatype Answer = Done | Refused | Panicked

  /** Where `dirlink` writes: the first empty slot, or one more at the end. */
  function FirstEmpty(entries: seq<Entry>): (k: nat)
    ensures EmptySlot(entries, k) && forall j :: 0 <= j < k ==> entries[j].inum != 0
  {
    if entries == [] || entries[0].inum == 0 then 0 else 1 + FirstEmpty(entries[1..])
  }

  lemma {:induction false} FirstEmptyIs(entries: seq<Entry>, k: nat)
    requires EmptySlot(entries, k) && forall j :: 0 <= j < k ==> entries[j].inum != 0
    ensures FirstEmpty(entries) == k
  {
    if k > 0 { FirstEmptyIs(entries[1..], k - 1); }
  }

  /** `iput` of the last reference frees an inode without links. */
  function Put(v: Inodes, i: nat, last: bool): Inodes
    requires i < |v|
  {
    if last && v[i].nlink == 0 then v[i := Inode(Free, 0, [])] else v
  }

  /** The entry goes, and the counts of what it named. */
  function Unlinked(v: Inodes, d: nat, k: nat, t: nat): Inodes
    requires d < |v| && k < |v[d].entries| && t < |v|
  {
    if v[t].kind.Dir? then DropDir(v, d, k, t) else DropLink(v, d, k, t)
  }

  /** `name` stands in slot `k` of `d` and names `t`. */
  predicate Found(v: Inodes, d: nat, name: string, k: nat, t: nat) {
    Names(v, d, k, t) && v[d].entries[k].name == name
  }

  lemma FoundAbove(v: Inodes, d: nat, name: string, k: nat, t: nat)
    requires Inv(v) && Found(v, d, name, k, t) && name != "." && name != ".."
    ensures k >= 2 && t < |v| && v[t].nlink >= 1
    ensures IsDir(v, t) && EmptyDir(v[t].entries) ==> v[t].nlink == 1 && t != d
  {
    DirAboveZero(v, d);
    NamedIsLive(v, d, k, t);
    if IsDir(v, t) && EmptyDir(v[t].entries) { EmptyRefs(v, d, k, t); }
  }

  predicate HasFree(v: Inodes) { exists i :: 0 < i < |v| && v[i].kind.Free? }

  /** The number of the first entry of that name, 0 if there is none (fs.c:563-587). */
  function Lookup(entries: seq<Entry>, name: string): nat {
    if entries == [] then 0
    else if entries[0].inum != 0 && entries[0].name == name then entries[0].inum
    else Lookup(entries[1..], name)
  }

  lemma {:induction false} LookupAbsent(entries: seq<Entry>, name: string)
    ensures Lookup(entries, name) == 0 <==> Absent(entries, name)
  {
    if entries != [] {
      LookupAbsent(entries[1..], name);
      assert entries == [entries[0]] + entries[1..];
    }
  }

  lemma {:induction false} LookupFirst(entries: seq<Entry>, name: string, k: nat)
    requires k < |entries| && entries[k].inum != 0 && entries[k].name == name && Absent(entries[..k], name)
    ensures Lookup(entries, name) == entries[k].inum
  {
    if k > 0 {
      assert entries[..k] == [entries[0]] + entries[1..][..k - 1];
      LookupFirst(entries[1..], name, k - 1);
    }
  }

  /** `create` opens what already has the name: a file for a file, a link for a link, a device for either. */
  predicate Opens(v: Inodes, entries: seq<Entry>, name: string, kind: Kind) {
    var there := Lookup(entries, name);
    there < |v| && (kind.File? || kind.Symlink?) && (v[there].kind == kind || v[there].kind.Device?)
  }

  /** A directory with `nlink` links takes a new name: it is linked itself, and has room for the link of a new "..". */
  predicate Counted(kind: Kind, nlink: int) { nlink > 0 && (kind.Dir? ==> nlink < MAXLINKS) }

  /** The volume with the new inode named. */
  function Created(v: Inodes, d: nat, name: string, kind: Kind, c: nat): Inodes
    requires d < |v| && c < |v| && c != d
  {
    var k := FirstEmpty(v[d].entries);
    if kind.Dir? then Narrow(AddDir(v, d, k, name, c), d) else AddLink(v[c := Inode(kind, 0, [])], d, k, name, c)
  }

  /** The new inode just before it is named. */
  function Fresh(kind: Kind, c: nat, d: nat): Inode { if kind.Dir? then NewDir(c, d) else Inode(kind, 1, []) }

  lemma CreatedIs(v: Inodes, d: nat, name: string, kind: Kind, c: nat)
    requires d < |v| && c < |v| && c != d
    ensures var w := PutEntry(v[c := Fresh(kind, c, d)], d, FirstEmpty(v[d].entries), Entry(c, name));
      Created(v, d, name, kind, c) == if kind.Dir? then w[d := w[d].(nlink := Short(w[d].nlink + 1))] else w
  {
  }

  lemma ExistingIs(v: Inodes, dp: nat, off: nat, ip: nat)
    requires Inv(v) && IsDir(v, dp) && off < |v[dp].entries| && v[dp].entries[off].inum == ip != 0
    ensures ip < |v|
  {
    if v[dp].nlink > 0 { DirAboveZero(v, dp); }
  }

  lemma FreeIs(v: Inodes, c: nat)
    requires Inv(v) && c < |v| && v[c].kind.Free?
    ensures v[c] == Inode(Free, 0, []) && !IsDir(v, c)
  {
  }

  lemma NoEntries()
    ensures FirstEmpty([]) == 0 && forall name: string :: Absent([], name)
  {
  }

  lemma OneEntry(c: nat)
    requires c != 0
    ensures FirstEmpty([Entry(c, ".")]) == 1 && Absent([Entry(c, ".")], "..")
  {
  }

  lemma CreateOk(v: Inodes, d: nat, name: string, kind: Kind, c: nat)
    requires Inv(v) && Shorts(v) && IsDir(v, d) && 0 < c < |v| && v[c].kind.Free? && !kind.Free?
    requires Absent(v[d].entries, name)
    ensures c != d
    ensures Inv(Created(v, d, name, kind, c)) && Shorts(Created(v, d, name, kind, c)) <==> Counted(kind, v[d].nlink)
  {
    FreeIs(v, c);
    if kind.Dir? {
      AddDirExact(v, d, FirstEmpty(v[d].entries), name, c);
      NarrowExact(AddDir(v, d, FirstEmpty(v[d].entries), name, c), d);
    } else {
      ReplaceInv(v, c, Inode(kind, 0, []));
      AddLinkExact(v[c := Inode(kind, 0, [])], d, FirstEmpty(v[d].entries), name, c);
    }
  }

  /** `name` left the directory, the counts followed, and an inode without links or holders was freed. */
  ghost predicate Removed(v: Inodes, v': Inodes, d: nat, name: string, last: bool) {
    exists k, t: nat :: Found(v, d, name, k, t) && t < |v| && v' == Put(Unlinked(v, d, k, t), t, last)
  }

  /** `name` is there, and is no directory with anything in it. */
  ghost predicate Removable(v: Inodes, d: nat, name: string) {
    exists k, t: nat :: Found(v, d, name, k, t) && t < |v| && (v[t].kind.Dir? ==> EmptyDir(v[t].entries))
  }

  lemma IsRemovable(v: Inodes, d: nat, name: string, k: nat, t: nat)
    requires Found(v, d, name, k, t) && t < |v| && (v[t].kind.Dir? ==> EmptyDir(v[t].entries))
    ensures Removable(v, d, name)
  {
  }

  lemma AbsentNotRemovable(v: Inodes, d: nat, name: string)
    requires d < |v| && Absent(v[d].entries, name)
    ensures !Removable(v, d, name)
  {
  }

  lemma FullNotRemovable(v: Inodes, d: nat, name: string, k: nat, t: nat)
    requires Inv(v) && Found(v, d, name, k, t) && t < |v| && v[t].kind.Dir? && !EmptyDir(v[t].entries)
    ensures !Removable(v, d, name)
  {
    DirAboveZero(v, d);
  }

  lemma LinkedIs(v: Inodes, i: nat)
    requires Inv(v) && i < |v| && v[i].nlink > 0
    ensures i != 0 && !v[i].kind.Free?
  {
    hide DirsOk, KidsOk, KidsOnce, AllNamed, Counts;
  }

  /** Only a linked directory has entries besides "." and "..". */
  lemma FoundLive(v: Inodes, d: nat, name: string, off: nat)
    requires Inv(v) && IsDir(v, d) && off < |v[d].entries| && v[d].entries[off].inum != 0
    requires v[d].entries[off].name == name
    requires name != "." && name != ".."
    ensures LiveDir(v, d)
  {
    hide DirsOk, KidsOk, KidsOnce, AllNamed, Counts;
  }

  lemma FoundIs(v: Inodes, d: nat, name: string, k: nat, t: nat)
    requires LiveDir(v, d) && k < |v[d].entries| && v[d].entries[k] == Entry(t, name) && t != 0
    ensures Found(v, d, name, k, t)
  {
  }

  lemma UnlinkedIs(v: Inodes, d: nat, k: nat, t: nat)
    requires d < |v| && k < |v[d].entries| && t < |v| && (v[t].kind.Dir? ==> t != d)
    ensures var w := PutEntry(v, d, k, Entry(0, ""));
      var w1 := if w[t].kind.Dir? then w[d := w[d].(nlink := w[d].nlink - 1)] else w;
      Unlinked(v, d, k, t) == w1[t := w1[t].(nlink := w1[t].nlink - 1)]
  {
  }

  lemma RemoveShorts(v: Inodes, d: nat, k: nat, t: nat, last: bool)
    requires Shorts(v) && d < |v| && k < |v[d].entries| && t < |v|
    ensures Shorts(Put(Unlinked(v, d, k, t), t, last))
  {
  }

  lemma RemoveOk(v: Inodes, d: nat, name: string, k: nat, t: nat, last: bool)
    requires Inv(v) && Found(v, d, name, k, t) && name != "." && name != ".." && t < |v| && k >= 2
    requires v[t].kind.Dir? ==> EmptyDir(v[t].entries)
    ensures Inv(Put(Unlinked(v, d, k, t), t, last)) && Removed(v, Put(Unlinked(v, d, k, t), t, last), d, name, last)
    ensures v[t].kind.Dir? ==> t != d
  {
    hide Inv;
    if v[t].kind.Dir? { DropDirInv(v, d, k, t); } else { DropLinkInv(v, d, k, t); }
    var w := Unlinked(v, d, k, t);
    if last && w[t].nlink == 0 { ReplaceInv(w, t, Inode(Free, 0, [])); }
  }

  /** A count that does not fit comes back negative. */
  lemma NarrowExact(v: Inodes, i: nat)
    requires i < |v| && 0 <= v[i].nlink <= MAXLINKS + 1
    requires forall j :: 0 <= j < |v| && j != i ==> v[j].nlink <= MAXLINKS
    ensures Inv(Narrow(v, i)) && Shorts(Narrow(v, i)) <==> Inv(v) && v[i].nlink <= MAXLINKS
  {
    if v[i].nlink <= MAXLINKS {
      assert Narrow(v, i) == v;
    } else {
      assert Narrow(v, i)[i].nlink < 0;
      assert !KindsOk(Narrow(v, i));
    }
  }

  lemma LinkDone(was: Inodes, ip: nat, dp: nat, name: string)
    requires Inv(was) && Shorts(was) && 0 < ip < |was| && was[ip].nlink > 0 && !was[ip].kind.Dir? && IsDir(was, dp)
    requires Absent(was[dp].entries, name)
    ensures var w, v' := was[ip := was[ip].(nlink := Short(was[ip].nlink + 1))],
                         Narrow(AddLink(was, dp, FirstEmpty(was[dp].entries), name, ip), ip);
      && w[dp].entries == was[dp].entries && PutEntry(w, dp, FirstEmpty(was[dp].entries), Entry(ip, name)) == v'
      && (Inv(v') && Shorts(v') <==> was[dp].nlink > 0 && was[ip].nlink < MAXLINKS)
  {
    LinkedIs(was, ip);
    AddLinkExact(was, dp, FirstEmpty(was[dp].entries), name, ip);
    NarrowExact(AddLink(was, dp, FirstEmpty(was[dp].entries), name, ip), ip);
  }

  /** A new volume: "." and ".." of the root name the root. */
  lemma NewVolume(v: Inodes)
    requires |v| > ROOT && v[ROOT] == NewDir(ROOT, ROOT)
    requires forall i :: 0 <= i < |v| && i != ROOT ==> v[i] == Inode(Free, 0, [])
    ensures Inv(v) && Shorts(v)
  {
    forall t | 0 < t < |v| ensures CountOk(v, t) {
      forall a: nat, b: nat ensures (a, b) in Refs(v, t) <==> t == ROOT && a == ROOT && b == 1 {
        InRefs(v, a, b, t);
      }
      assert Refs(v, t) == if t == ROOT then {(ROOT, 1)} else {};
    }
  }

  /** `sys_link` gives the inode another name. */
  predicate Links(v: Inodes, ip: nat, dp: nat, name: string, sameDev: bool)
    requires ip < |v| && dp < |v|
  {
    ip != 0 && dp != 0 && !v[ip].kind.Dir? && sameDev && Absent(v[dp].entries, name)
  }
}
