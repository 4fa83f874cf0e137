/** Link counts over the directory tree of lab9: what create, link and unlink of
    lab9/kernel/sysfile.c keep true of `nlink`, directory contents and "..". */
module LinkCounts {

  datatype Kind = Free | Dir | File | Device | Symlink

  /** A directory slot; `inum` 0 marks it empty. */
  datatype Entry = Entry(inum: nat, name: string)

  datatype Inode = Inode(kind: Kind, nlink: int, entries: seq<Entry>)

  const ROOT: nat := 1

  type Inodes = seq<Inode>

  predicate LiveDir(v: Inodes, d: nat) { d < |v| && v[d].kind.Dir? && v[d].nlink > 0 }

  predicate IsDir(v: Inodes, t: nat) { t < |v| && v[t].kind.Dir? }

  /** Slot `k` of the linked directory `d` names `t`. */
  predicate Names(v: Inodes, d: nat, k: nat, t: nat) {
    LiveDir(v, d) && k < |v[d].entries| && v[d].entries[k].inum == t && t != 0
  }

  /** Such an entry counts unless it is ".". */
  predicate Ref(v: Inodes, d: nat, k: nat, t: nat) { Names(v, d, k, t) && v[d].entries[k].name != "." }

  function Refs(v: Inodes, t: nat): set<(nat, nat)> {
    set d: nat, k: nat | 0 <= d < |v| && 0 <= k < |v[d].entries| && Ref(v, d, k, t) :: (d, k)
  }

  ghost predicate CountOk(v: Inodes, t: nat)
    requires t < |v|
  {
    v[t].nlink == |Refs(v, t)|
  }

  /** Every link count is the number of entries, other than ".", that name the inode in linked directories. */
  ghost predicate Counts(v: Inodes) { forall t :: 0 < t < |v| ==> CountOk(v, t) }

  /** The directory ".." names. */
  function Parent(v: Inodes, d: nat): nat {
    if d < |v| && |v[d].entries| >= 2 then v[d].entries[1].inum else 0
  }

  /** "." and ".." come first, and no two entries have the same name. */
  ghost predicate EntriesOk(entries: seq<Entry>, d: nat, n: nat) {
    && |entries| >= 2 && entries[0] == Entry(d, ".") && entries[1].name == ".." && entries[1].inum != 0
    && (forall k :: 0 <= k < |entries| ==> entries[k].inum < n)
    && (forall j, k :: 0 <= j < k < |entries| && entries[j].inum != 0 && entries[k].inum != 0 ==>
          entries[j].name != entries[k].name)
  }

  ghost predicate DirsOk(v: Inodes) {
    forall d: nat :: LiveDir(v, d) ==> d > 0 && EntriesOk(v[d].entries, d, |v|) && LiveDir(v, Parent(v, d))
  }

  /** A directory is named, besides its own "." and the ".." of its subdirectories, by its parent. */
  ghost predicate KidsOk(v: Inodes) {
    forall d: nat, k: nat, t: nat :: k >= 2 && Names(v, d, k, t) && IsDir(v, t) ==> t != ROOT && Parent(v, t) == d
  }

  ghost predicate KidsOnce(v: Inodes) {
    forall d: nat, j: nat, k: nat, t: nat ::
      2 <= j && 2 <= k && Names(v, d, j, t) && Names(v, d, k, t) && IsDir(v, t) ==> j == k
  }

  ghost predicate Named(v: Inodes, c: nat) { exists k: nat :: k >= 2 && Names(v, Parent(v, c), k, c) }

  ghost predicate AllNamed(v: Inodes) { forall c: nat :: LiveDir(v, c) && c != ROOT ==> Named(v, c) }

  predicate EmptyDir(entries: seq<Entry>) { forall k :: 2 <= k < |entries| ==> entries[k].inum == 0 }

  /** A directory that was removed, and that a process may still be in, has at most "." and "..". */
  predicate DeadOk(i: Inode, n: nat) {
    i.kind.Dir? && i.nlink == 0 ==>
      && EmptyDir(i.entries) && (forall k :: 0 <= k < |i.entries| ==> i.entries[k].inum < n)
      && (forall k :: 0 <= k < |i.entries| && k < 2 ==> i.entries[k].name == "." || i.entries[k].name == "..")
  }

  ghost predicate KindsOk(v: Inodes) {
    forall t :: 0 <= t < |v| ==>
      v[t].nlink >= 0 && (v[t].kind.Free? ==> v[t].nlink == 0 && v[t].entries == []) && DeadOk(v[t], |v|)
  }

  ghost predicate Inv(v: Inodes) {
    && LiveDir(v, ROOT) && Parent(v, ROOT) == ROOT && v[0].kind.Free? && v[0].nlink == 0
    && DirsOk(v) && KidsOk(v) && KidsOnce(v) && AllNamed(v) && KindsOk(v) && Counts(v)
  }

  // ----- Reference sets ------------------------------------------------------------------------

  lemma InRefs(v: Inodes, d: nat, k: nat, t: nat)
    ensures (d, k) in Refs(v, t) <==> Ref(v, d, k, t)
  {
  }

  function SetSlot(entries: seq<Entry>, k: nat, e: Entry): seq<Entry>
    requires k <= |entries|
  {
    if k < |entries| then entries[k := e] else entries + [e]
  }

  function PutEntry(v: Inodes, d: nat, k: nat, e: Entry): (r: Inodes)
    requires d < |v| && k <= |v[d].entries|
    ensures |r| == |v|
  {
    v[d := v[d].(entries := SetSlot(v[d].entries, k, e))]
  }

  /** Writing an empty slot of a linked directory adds one reference. */
  lemma RefsPut(v: Inodes, d: nat, k: nat, e: Entry, t: nat)
    requires LiveDir(v, d) && k <= |v[d].entries| && (k < |v[d].entries| ==> v[d].entries[k].inum == 0)
    requires e.inum != 0 && e.name != "."
    ensures (d, k) !in Refs(v, t)
    ensures Refs(PutEntry(v, d, k, e), t) == if t == e.inum then Refs(v, t) + {(d, k)} else Refs(v, t)
  {
    var v' := PutEntry(v, d, k, e);
    forall a: nat, b: nat
      ensures (a, b) in Refs(v', t) <==> (a, b) in Refs(v, t) || (a == d && b == k && t == e.inum)
    {
      InRefs(v, a, b, t);
      InRefs(v', a, b, t);
    }
  }

  lemma RefsClear(v: Inodes, d: nat, k: nat, t: nat)
    requires LiveDir(v, d) && k < |v[d].entries| && v[d].entries[k].name != "."
    ensures Refs(PutEntry(v, d, k, Entry(0, "")), t) == Refs(v, t) - {(d, k)}
    ensures (d, k) in Refs(v, t) <==> t != 0 && v[d].entries[k].inum == t
  {
    var v' := PutEntry(v, d, k, Entry(0, ""));
    forall a: nat, b: nat
      ensures (a, b) in Refs(v', t) <==> (a, b) in Refs(v, t) && !(a == d && b == k)
    {
      InRefs(v, a, b, t);
      InRefs(v', a, b, t);
    }
  }

  /** Another link count of an inode that stays linked or is no directory moves no reference. */
  lemma RefsCount(v: Inodes, i: nat, n: int, t: nat)
    requires i < |v| && (v[i].kind.Dir? ==> (v[i].nlink > 0 <==> n > 0))
    ensures Refs(v[i := v[i].(nlink := n)], t) == Refs(v, t)
  {
    var v' := v[i := v[i].(nlink := n)];
    forall a: nat, b: nat ensures (a, b) in Refs(v', t) <==> (a, b) in Refs(v, t) {
      InRefs(v, a, b, t);
      InRefs(v', a, b, t);
    }
  }

  /** An inode that is not linked has no say, before and after it is replaced by another such. */
  lemma RefsReplace(v: Inodes, i: nat, n: Inode, t: nat)
    requires i < |v| && !LiveDir(v, i) && !(n.kind.Dir? && n.nlink > 0)
    ensures Refs(v[i := n], t) == Refs(v, t)
  {
    forall a: nat, b: nat ensures (a, b) in Refs(v[i := n], t) <==> (a, b) in Refs(v, t) {
      InRefs(v, a, b, t);
      InRefs(v[i := n], a, b, t);
    }
  }

  /** An empty directory that is linked adds the reference of its "..". */
  lemma RefsBorn(v: Inodes, c: nat, d: nat, t: nat)
    requires 0 < c < |v| && !LiveDir(v, c) && d != 0
    ensures (c, 1) !in Refs(v, t)
    ensures Refs(v[c := Inode(Dir, 1, [Entry(c, "."), Entry(d, "..")])], t) ==
              if t == d then Refs(v, t) + {(c, 1)} else Refs(v, t)
  {
    var v' := v[c := Inode(Dir, 1, [Entry(c, "."), Entry(d, "..")])];
    forall a: nat, b: nat
      ensures (a, b) in Refs(v', t) <==> (a, b) in Refs(v, t) || (a == c && b == 1 && t == d)
    {
      InRefs(v, a, b, t);
      InRefs(v', a, b, t);
    }
  }

  lemma RefsDies(v: Inodes, c: nat, n: int, t: nat)
    requires LiveDir(v, c) && EntriesOk(v[c].entries, c, |v|) && EmptyDir(v[c].entries) && n <= 0
    ensures Refs(v[c := v[c].(nlink := n)], t) == Refs(v, t) - {(c, 1)}
    ensures (c, 1) in Refs(v, t) <==> t == Parent(v, c)
  {
    var v' := v[c := v[c].(nlink := n)];
    forall a: nat, b: nat
      ensures (a, b) in Refs(v', t) <==> (a, b) in Refs(v, t) && !(a == c && b == 1)
    {
      InRefs(v, a, b, t);
      InRefs(v', a, b, t);
    }
  }

  // ----- Adding an entry -----------------------------------------------------------------------

  predicate Absent(entries: seq<Entry>, name: string) {
    forall k :: 0 <= k < |entries| && entries[k].inum != 0 ==> entries[k].name != name
  }

  predicate EmptySlot(entries: seq<Entry>, k: nat) {
    k <= |entries| && (k < |entries| ==> entries[k].inum == 0)
  }

  lemma EntriesPut(entries: seq<Entry>, d: nat, n: nat, k: nat, e: Entry)
    requires EntriesOk(entries, d, n) && EmptySlot(entries, k) && Absent(entries, e.name) && 0 < e.inum < n && d != 0
    ensures k >= 2 && EntriesOk(SetSlot(entries, k, e), d, n) && e.name != "." && e.name != ".."
    ensures |SetSlot(entries, k, e)| >= |entries| && SetSlot(entries, k, e)[k] == e
    ensures SetSlot(entries, k, e)[1] == entries[1]
    ensures forall j :: 0 <= j < |entries| && j != k ==> SetSlot(entries, k, e)[j] == entries[j]
    ensures |SetSlot(entries, k, e)| > |entries| ==> k == |entries| && |SetSlot(entries, k, e)| == |entries| + 1
  {
    assert entries[0].name == ".";
  }

  /** The new entry and the count of what it names. */
  function AddLink(v: Inodes, d: nat, k: nat, name: string, t: nat): Inodes
    requires d < |v| && k <= |v[d].entries| && t < |v|
  {
    var w := PutEntry(v, d, k, Entry(t, name));
    w[t := w[t].(nlink := w[t].nlink + 1)]
  }

  lemma AddLinkCounts(v: Inodes, d: nat, k: nat, name: string, t: nat)
    requires Counts(v) && LiveDir(v, d) && EmptySlot(v[d].entries, k) && 0 < t < |v| && name != "."
    requires v[t].kind.Dir? ==> v[t].nlink > 0
    ensures Counts(AddLink(v, d, k, name, t))
  {
    var w := PutEntry(v, d, k, Entry(t, name));
    var v' := AddLink(v, d, k, name, t);
    forall u | 0 < u < |v| ensures CountOk(v', u) {
      assert CountOk(v, u);
      RefsPut(v, d, k, Entry(t, name), u);
      RefsCount(w, t, w[t].nlink + 1, u);
    }
  }

  lemma NamesAddLink(v: Inodes, d: nat, k: nat, name: string, t: nat)
    requires LiveDir(v, d) && EntriesOk(v[d].entries, d, |v|) && EmptySlot(v[d].entries, k) && 0 < t < |v| && d > 0
    requires Absent(v[d].entries, name) && !v[t].kind.Dir?
    ensures var v' := AddLink(v, d, k, name, t);
      && (forall a: nat :: LiveDir(v', a) <==> LiveDir(v, a)) && (forall a: nat :: IsDir(v', a) <==> IsDir(v, a))
      && (forall a: nat :: IsDir(v, a) ==> Parent(v', a) == Parent(v, a))
    ensures var v' := AddLink(v, d, k, name, t);
      forall a: nat, b: nat, u: nat :: Names(v', a, b, u) <==> Names(v, a, b, u) || (a == d && b == k && u == t)
  {
    EntriesPut(v[d].entries, d, |v|, k, Entry(t, name));
    hide EntriesOk;
  }

  /** `v'` has the same linked directories with the same parents, and names the same directories. */
  ghost predicate SameTree(v: Inodes, v': Inodes) {
    && |v| == |v'|
    && (forall a: nat :: LiveDir(v', a) <==> LiveDir(v, a))
    && (forall a: nat :: LiveDir(v, a) ==> Parent(v', a) == Parent(v, a))
    && (forall t: nat :: IsDir(v', t) <==> IsDir(v, t))
    && (forall a: nat, b: nat, u: nat :: IsDir(v, u) ==> (Names(v', a, b, u) <==> Names(v, a, b, u)))
  }

  lemma SameTreeKids(v: Inodes, v': Inodes)
    requires KidsOk(v) && KidsOnce(v) && AllNamed(v) && SameTree(v, v') && Counts(v)
    requires forall d: nat, k: nat, t: nat :: k >= 2 && Names(v, d, k, t) && IsDir(v, t) ==> LiveDir(v, t)
    ensures KidsOk(v') && KidsOnce(v') && AllNamed(v')
  {
    hide Names, LiveDir, Parent, Counts;
    forall c: nat | LiveDir(v', c) && c != ROOT ensures Named(v', c) {
      assert Named(v, c);
      var j: nat :| j >= 2 && Names(v, Parent(v, c), j, c);
      LiveIsDir(v, c);
      assert Names(v', Parent(v', c), j, c);
    }
  }

  lemma LiveIsDir(v: Inodes, c: nat)
    requires LiveDir(v, c)
    ensures IsDir(v, c)
  {
  }

  /** Whatever a linked directory names is linked. */
  lemma NamedIsLive(v: Inodes, d: nat, k: nat, t: nat)
    requires Inv(v) && k >= 1 && Names(v, d, k, t)
    ensures t < |v| && v[t].nlink > 0 && !v[t].kind.Free?
  {
    assert LiveDir(v, d);
    var es := v[d].entries;
    assert es[0].name == "." && es[0].inum != 0;
    assert CountOk(v, t);
    InRefs(v, d, k, t);
    assert |Refs(v, t)| > 0;
  }

  lemma KidsLive(v: Inodes)
    requires Inv(v)
    ensures forall d: nat, k: nat, t: nat :: k >= 2 && Names(v, d, k, t) && IsDir(v, t) ==> LiveDir(v, t)
  {
    forall d: nat, k: nat, t: nat | k >= 2 && Names(v, d, k, t) && IsDir(v, t) ensures LiveDir(v, t) {
      NamedIsLive(v, d, k, t);
    }
  }

  lemma AddLinkDirs(v: Inodes, d: nat, k: nat, name: string, t: nat)
    requires DirsOk(v) && LiveDir(v, d) && EmptySlot(v[d].entries, k) && Absent(v[d].entries, name)
    requires 0 < t < |v| && !v[t].kind.Dir?
    ensures DirsOk(AddLink(v, d, k, name, t)) && SameTree(v, AddLink(v, d, k, name, t))
  {
    var v' := AddLink(v, d, k, name, t);
    EntriesPut(v[d].entries, d, |v|, k, Entry(t, name));
    NamesAddLink(v, d, k, name, t);
    hide EntriesOk, Names;
    forall a: nat | LiveDir(v', a) ensures a > 0 && EntriesOk(v'[a].entries, a, |v'|) && LiveDir(v', Parent(v', a)) {
      assert LiveDir(v, a);
    }
  }

  lemma AddLinkRest(v: Inodes, d: nat, k: nat, name: string, t: nat)
    requires LiveDir(v, ROOT) && Parent(v, ROOT) == ROOT && v[0].kind.Free? && v[0].nlink == 0 && KindsOk(v)
    requires LiveDir(v, d) && k <= |v[d].entries| && 0 < t < |v| && !v[t].kind.Free?
    requires SameTree(v, AddLink(v, d, k, name, t))
    ensures var v' := AddLink(v, d, k, name, t);
      LiveDir(v', ROOT) && Parent(v', ROOT) == ROOT && v'[0].kind.Free? && v'[0].nlink == 0 && KindsOk(v')
  {
  }

  /** A new name for anything but a directory keeps the invariant. */
  lemma AddLinkInv(v: Inodes, d: nat, k: nat, name: string, t: nat)
    requires Inv(v) && LiveDir(v, d) && EmptySlot(v[d].entries, k) && Absent(v[d].entries, name)
    requires 0 < t < |v| && !v[t].kind.Dir? && !v[t].kind.Free?
    ensures Inv(AddLink(v, d, k, name, t))
  {
    hide Counts, EntriesOk, Names, DirsOk, KidsOk, KidsOnce, AllNamed, KindsOk, SameTree, AddLink, Parent, SetSlot;
    AddLinkDirs(v, d, k, name, t);
    DirAboveZero(v, d);
    EntriesPut(v[d].entries, d, |v|, k, Entry(t, name));
    AddLinkCounts(v, d, k, name, t);
    KidsLive(v);
    SameTreeKids(v, AddLink(v, d, k, name, t));
    AddLinkRest(v, d, k, name, t);
  }

  lemma DirAboveZero(v: Inodes, d: nat)
    requires DirsOk(v) && LiveDir(v, d)
    ensures d > 0 && EntriesOk(v[d].entries, d, |v|)
  {
  }

  // ----- Removing an entry ---------------------------------------------------------------------

  function Clear(v: Inodes, d: nat, k: nat): Inodes
    requires d < |v| && k < |v[d].entries|
  {
    PutEntry(v, d, k, Entry(0, ""))
  }

  lemma EntriesClear(entries: seq<Entry>, d: nat, n: nat, k: nat)
    requires EntriesOk(entries, d, n) && 2 <= k < |entries|
    ensures EntriesOk(SetSlot(entries, k, Entry(0, "")), d, n)
  {
  }

  function DropLink(v: Inodes, d: nat, k: nat, t: nat): Inodes
    requires d < |v| && k < |v[d].entries| && t < |v|
  {
    var w := Clear(v, d, k);
    w[t := w[t].(nlink := w[t].nlink - 1)]
  }

  lemma DropLinkCounts(v: Inodes, d: nat, k: nat, t: nat)
    requires Counts(v) && Names(v, d, k, t) && t < |v| && !v[t].kind.Dir? && v[d].entries[k].name != "."
    ensures Counts(DropLink(v, d, k, t))
  {
    var w, v' := Clear(v, d, k), DropLink(v, d, k, t);
    forall u | 0 < u < |v| ensures CountOk(v', u) {
      assert CountOk(v, u);
      RefsClear(v, d, k, u);
      RefsCount(w, t, w[t].nlink - 1, u);
    }
  }

  lemma DropLinkDirs(v: Inodes, d: nat, k: nat, t: nat)
    requires DirsOk(v) && Names(v, d, k, t) && k >= 2 && t < |v| && !v[t].kind.Dir?
    ensures DirsOk(DropLink(v, d, k, t)) && SameTree(v, DropLink(v, d, k, t))
  {
    var v' := DropLink(v, d, k, t);
    DirAboveZero(v, d);
    EntriesClear(v[d].entries, d, |v|, k);
    assert forall a: nat :: Parent(v', a) == Parent(v, a);
    hide EntriesOk, Parent;
    forall a: nat | LiveDir(v', a) ensures a > 0 && EntriesOk(v'[a].entries, a, |v'|) && LiveDir(v', Parent(v', a)) {
      assert LiveDir(v, a);
    }
  }

  lemma DropLinkRest(v: Inodes, d: nat, k: nat, t: nat)
    requires LiveDir(v, ROOT) && Parent(v, ROOT) == ROOT && v[0].kind.Free? && v[0].nlink == 0 && KindsOk(v)
    requires Names(v, d, k, t) && t < |v| && v[t].nlink > 0
    requires SameTree(v, DropLink(v, d, k, t))
    ensures var v' := DropLink(v, d, k, t);
      LiveDir(v', ROOT) && Parent(v', ROOT) == ROOT && v'[0].kind.Free? && v'[0].nlink == 0 && KindsOk(v')
  {
  }

  lemma DropLinkInv(v: Inodes, d: nat, k: nat, t: nat)
    requires Inv(v) && Names(v, d, k, t) && k >= 2 && t < |v| && !v[t].kind.Dir?
    ensures v[t].nlink > 0 && Inv(DropLink(v, d, k, t))
  {
    NamedIsLive(v, d, k, t);
    SlotName(v, d, k, t);
    hide Counts, EntriesOk, DirsOk, KidsOk, KidsOnce, AllNamed, KindsOk, SameTree, DropLink, Parent, SetSlot;
    DropLinkDirs(v, d, k, t);
    DropLinkCounts(v, d, k, t);
    KidsLive(v);
    SameTreeKids(v, DropLink(v, d, k, t));
    DropLinkRest(v, d, k, t);
  }

  lemma SlotName(v: Inodes, d: nat, k: nat, t: nat)
    requires Inv(v) && Names(v, d, k, t) && k >= 1
    ensures v[d].entries[k].name != "."
    ensures k >= 2 ==> v[d].entries[k].name != ".."
  {
    assert LiveDir(v, d);
    var es := v[d].entries;
    assert es[0].name == "." && es[0].inum != 0 && es[1].name == ".." && es[1].inum != 0;
  }

  // ----- Making and removing directories -------------------------------------------------------

  function NewDir(c: nat, d: nat): Inode { Inode(Dir, 1, [Entry(c, "."), Entry(d, "..")]) }

  /** A fresh directory `c`, its name in `d`, and the count of `d` for the new "..". */
  function AddDir(v: Inodes, d: nat, k: nat, name: string, c: nat): Inodes
    requires d < |v| && k <= |v[d].entries| && c < |v| && c != d
  {
    var w := PutEntry(v[c := NewDir(c, d)], d, k, Entry(c, name));
    w[d := w[d].(nlink := w[d].nlink + 1)]
  }

  lemma AddDirCounts(v: Inodes, d: nat, k: nat, name: string, c: nat)
    requires Counts(v) && LiveDir(v, d) && EmptySlot(v[d].entries, k) && 0 < c < |v| && name != "." && d != 0
    requires v[c].nlink == 0 && c != d
    ensures Counts(AddDir(v, d, k, name, c))
  {
    var v1 := v[c := NewDir(c, d)];
    var w, v' := PutEntry(v1, d, k, Entry(c, name)), AddDir(v, d, k, name, c);
    forall u | 0 < u < |v| ensures CountOk(v', u) {
      assert CountOk(v, u);
      RefsBorn(v, c, d, u);
      RefsPut(v1, d, k, Entry(c, name), u);
      RefsCount(w, d, w[d].nlink + 1, u);
    }
  }

  lemma AddDirDirs(v: Inodes, d: nat, k: nat, name: string, c: nat)
    requires DirsOk(v) && LiveDir(v, d) && EmptySlot(v[d].entries, k) && Absent(v[d].entries, name)
    requires 0 < c < |v| && v[c].nlink == 0 && c != d
    ensures DirsOk(AddDir(v, d, k, name, c))
    ensures forall a: nat :: LiveDir(AddDir(v, d, k, name, c), a) <==> LiveDir(v, a) || a == c
    ensures forall a: nat :: LiveDir(v, a) ==> Parent(AddDir(v, d, k, name, c), a) == Parent(v, a)
    ensures Parent(AddDir(v, d, k, name, c), c) == d && k >= 2
  {
    hide EntriesOk, Parent, AddDir, SetSlot, NewDir, DirsOk, Absent;
    var v' := AddDir(v, d, k, name, c);
    DirAboveZero(v, d);
    DirPair(v, d);
    EntriesPut(v[d].entries, d, |v|, k, Entry(c, name));
    AddDirShape(v, d, k, name, c);
    NewDirOk(c, d, |v|);
    forall a: nat | LiveDir(v', a) ensures a > 0 && EntriesOk(v'[a].entries, a, |v'|) && LiveDir(v', Parent(v', a)) {
      if a != c {
        DirAboveZero(v, a);
        DirPair(v, a);
      }
    }
    DirsAll(v');
  }

  lemma DirPair(v: Inodes, d: nat)
    requires DirsOk(v) && LiveDir(v, d)
    ensures |v[d].entries| >= 2 && LiveDir(v, Parent(v, d))
  {
  }

  lemma DirsAll(v: Inodes)
    requires forall a: nat :: LiveDir(v, a) ==> a > 0 && EntriesOk(v[a].entries, a, |v|) && LiveDir(v, Parent(v, a))
    ensures DirsOk(v)
  {
  }

  lemma NewDirOk(c: nat, d: nat, n: nat)
    requires 0 < c < n && 0 < d < n
    ensures EntriesOk(NewDir(c, d).entries, c, n)
  {
  }

  lemma AddDirShape(v: Inodes, d: nat, k: nat, name: string, c: nat)
    requires LiveDir(v, d) && k <= |v[d].entries| && 0 < c < |v| && v[c].nlink == 0 && c != d && |v[d].entries| >= 2
    requires k >= 2
    ensures var v' := AddDir(v, d, k, name, c);
      && |v'| == |v| && v'[c] == NewDir(c, d) && v'[d].entries == SetSlot(v[d].entries, k, Entry(c, name))
      && (forall a :: 0 <= a < |v| && a != c && a != d ==> v'[a] == v[a])
      && (forall a: nat :: LiveDir(v', a) <==> LiveDir(v, a) || a == c)
      && (forall a: nat :: LiveDir(v, a) ==> Parent(v', a) == Parent(v, a)) && Parent(v', c) == d
  {
  }

  /** Below the first two entries only the new one is new. */
  lemma AddDirNames(v: Inodes, d: nat, k: nat, name: string, c: nat)
    requires LiveDir(v, d) && EmptySlot(v[d].entries, k) && 0 < c < |v| && v[c].nlink == 0 && c != d
    ensures var v' := AddDir(v, d, k, name, c);
      forall a: nat, b: nat, u: nat :: b >= 2 ==>
        (Names(v', a, b, u) <==> Names(v, a, b, u) || (a == d && b == k && u == c && k >= 2))
  {
  }

  lemma NamesRef(v: Inodes, a: nat, b: nat, t: nat)
    requires Inv(v)
    ensures b >= 1 && Names(v, a, b, t) ==> (a, b) in Refs(v, t)
  {
    if b >= 1 && Names(v, a, b, t) {
      SlotName(v, a, b, t);
      InRefs(v, a, b, t);
    }
  }

  lemma Unnamed(v: Inodes, c: nat)
    requires Inv(v) && 0 < c < |v| && v[c].nlink == 0
    ensures forall a: nat, b: nat :: b >= 2 ==> !Names(v, a, b, c)
  {
    assert CountOk(v, c);
    assert Refs(v, c) == {};
    forall a: nat, b: nat | b >= 2 ensures !Names(v, a, b, c) {
      NamesRef(v, a, b, c);
    }
  }

  lemma AddDirKids(v: Inodes, d: nat, k: nat, name: string, c: nat)
    requires KidsOk(v) && KidsOnce(v) && AllNamed(v) && LiveDir(v, d) && k >= 2 && EmptySlot(v[d].entries, k)
    requires 0 < c < |v| && v[c].nlink == 0 && c != ROOT && c != d
    requires forall a: nat, b: nat :: b >= 2 ==> !Names(v, a, b, c)
    requires forall d: nat, k: nat, t: nat :: k >= 2 && Names(v, d, k, t) && IsDir(v, t) ==> LiveDir(v, t)
    requires var v' := AddDir(v, d, k, name, c);
      && (forall a: nat :: LiveDir(v', a) <==> LiveDir(v, a) || a == c)
      && (forall a: nat :: LiveDir(v, a) ==> Parent(v', a) == Parent(v, a)) && Parent(v', c) == d
    ensures var v' := AddDir(v, d, k, name, c); KidsOk(v') && KidsOnce(v') && AllNamed(v')
  {
    var v' := AddDir(v, d, k, name, c);
    AddDirNames(v, d, k, name, c);
    assert forall u: nat :: u != c ==> (IsDir(v', u) <==> IsDir(v, u));
    hide Names, LiveDir, Parent, AddDir;
    forall u: nat | LiveDir(v', u) && u != ROOT ensures Named(v', u) {
      if u == c {
        assert Names(v', Parent(v', c), k, c);
      } else {
        assert Named(v, u);
        var j: nat :| j >= 2 && Names(v, Parent(v, u), j, u);
        assert Names(v', Parent(v', u), j, u);
      }
    }
  }

  lemma AddDirRest(v: Inodes, d: nat, k: nat, name: string, c: nat)
    requires LiveDir(v, ROOT) && Parent(v, ROOT) == ROOT && v[0].kind.Free? && v[0].nlink == 0 && KindsOk(v)
    requires LiveDir(v, d) && k <= |v[d].entries| && 0 < c < |v| && c != d && d != 0
    requires forall a: nat :: LiveDir(v, a) ==> Parent(AddDir(v, d, k, name, c), a) == Parent(v, a)
    ensures var v' := AddDir(v, d, k, name, c);
      LiveDir(v', ROOT) && Parent(v', ROOT) == ROOT && v'[0].kind.Free? && v'[0].nlink == 0 && KindsOk(v')
  {
  }

  lemma AddDirInv(v: Inodes, d: nat, k: nat, name: string, c: nat)
    requires Inv(v) && LiveDir(v, d) && EmptySlot(v[d].entries, k) && Absent(v[d].entries, name)
    requires 0 < c < |v| && v[c].nlink == 0
    ensures c != d && Inv(AddDir(v, d, k, name, c))
  {
    hide Counts, EntriesOk, DirsOk, KidsOk, KidsOnce, AllNamed, KindsOk, AddDir, Parent, SetSlot, Names;
    DirAboveZero(v, d);
    EntriesPut(v[d].entries, d, |v|, k, Entry(c, name));
    AddDirDirs(v, d, k, name, c);
    AddDirCounts(v, d, k, name, c);
    KidsLive(v);
    Unnamed(v, c);
    AddDirKids(v, d, k, name, c);
    AddDirRest(v, d, k, name, c);
  }

  /** The entry goes, and with it the directory and its "..". */
  function DropDir(v: Inodes, d: nat, k: nat, c: nat): Inodes
    requires d < |v| && k < |v[d].entries| && c < |v|
  {
    var w := Clear(v, d, k);
    var w1 := w[d := w[d].(nlink := w[d].nlink - 1)];
    w1[c := w1[c].(nlink := w1[c].nlink - 1)]
  }

  /** Only its own entry in the parent names an empty directory. */
  lemma EmptyRefs(v: Inodes, d: nat, k: nat, c: nat)
    requires Inv(v) && Names(v, d, k, c) && k >= 2 && LiveDir(v, c) && EmptyDir(v[c].entries)
    ensures Refs(v, c) == {(d, k)} && v[c].nlink == 1 && Parent(v, c) == d && c != ROOT && c != d
  {
    assert CountOk(v, c);
    forall a: nat, b: nat ensures (a, b) in Refs(v, c) <==> a == d && b == k {
      InRefs(v, a, b, c);
      if Ref(v, a, b, c) { EmptyRef(v, d, k, c, a, b); }
      SlotName(v, d, k, c);
    }
    assert |{(d, k)}| == 1;
  }

  /** An empty directory is nobody's parent. */
  lemma NotParent(v: Inodes, c: nat, a: nat)
    requires Inv(v) && LiveDir(v, c) && EmptyDir(v[c].entries) && c != ROOT && LiveDir(v, a)
    ensures Parent(v, a) != c
  {
    if a != ROOT {
      assert Named(v, a);
      var p := Parent(v, a);
      var j: nat :| j >= 2 && Names(v, p, j, a);
      assert !EmptyDir(v[p].entries);
    }
  }

  lemma EmptyRef(v: Inodes, d: nat, k: nat, c: nat, a: nat, b: nat)
    requires Inv(v) && Names(v, d, k, c) && k >= 2 && LiveDir(v, c) && EmptyDir(v[c].entries) && Ref(v, a, b, c)
    ensures a == d && b == k
  {
    LiveIsDir(v, c);
    assert LiveDir(v, a);
    NotParent(v, c, a);
  }

  /** The parent of a directory has its own link besides the "..". */
  lemma ParentHasTwo(v: Inodes, c: nat)
    requires Inv(v) && LiveDir(v, c) && c != ROOT
    ensures v[Parent(v, c)].nlink >= 2 && Parent(v, c) > 0
  {
    var d := Parent(v, c);
    assert LiveDir(v, d);
    DirAboveZero(v, d);
    assert CountOk(v, d);
    DotDotRef(v, c);
    var other := OwnRef(v, d);
    hide Inv, Refs, EntriesOk, Parent;
    assert {(c, 1), other} <= Refs(v, d) && (other.0 == c ==> other.1 != 1);
    SubsetSize({(c, 1), other}, Refs(v, d));
  }

  /** What names a linked directory, besides the ".." of its subdirectories. */
  lemma OwnRef(v: Inodes, d: nat) returns (r: (nat, nat))
    requires Inv(v) && LiveDir(v, d)
    ensures r in Refs(v, d) && (r.1 == 1 ==> r.0 == d == ROOT)
  {
    if d == ROOT {
      DotDotRef(v, ROOT);
      r := (d, 1);
    } else {
      assert Named(v, d);
      var j: nat :| j >= 2 && Names(v, Parent(v, d), j, d);
      NamesRef(v, Parent(v, d), j, d);
      r := (Parent(v, d), j);
    }
  }

  lemma DotDotRef(v: Inodes, c: nat)
    requires Inv(v) && LiveDir(v, c)
    ensures (c, 1) in Refs(v, Parent(v, c))
  {
    InRefs(v, c, 1, Parent(v, c));
  }

  lemma SubsetSize<T>(a: set<T>, b: set<T>)
    requires a <= b
    ensures |a| <= |b|
  {
    assert b == a + (b - a);
  }

  lemma DropDirRefs(v: Inodes, d: nat, k: nat, c: nat, u: nat)
    requires Names(v, d, k, c) && k >= 2 && LiveDir(v, c) && EntriesOk(v[c].entries, c, |v|) && EmptyDir(v[c].entries)
    requires v[c].nlink == 1 && Parent(v, c) == d && c != d && v[d].nlink >= 2 && v[d].entries[k].name != "."
    ensures Refs(DropDir(v, d, k, c), u) == Refs(v, u) - {(d, k)} - {(c, 1)}
    ensures u != 0 ==> ((d, k) in Refs(v, u) <==> u == c) && ((c, 1) in Refs(v, u) <==> u == d)
  {
    var w := Clear(v, d, k);
    var w1 := w[d := w[d].(nlink := w[d].nlink - 1)];
    RefsClear(v, d, k, u);
    RefsCount(w, d, w[d].nlink - 1, u);
    RefsDies(w1, c, 0, u);
    RefsDies(v, c, 0, u);
    hide Refs;
  }

  lemma DropDirCounts(v: Inodes, d: nat, k: nat, c: nat)
    requires Counts(v) && Names(v, d, k, c) && k >= 2 && LiveDir(v, c) && EntriesOk(v[c].entries, c, |v|)
    requires EmptyDir(v[c].entries)
    requires v[c].nlink == 1 && Parent(v, c) == d && c != d && v[d].nlink >= 2 && v[d].entries[k].name != "."
    ensures Counts(DropDir(v, d, k, c))
  {
    var v' := DropDir(v, d, k, c);
    DropDirShape(v, d, k, c);
    forall u | 0 < u < |v| ensures CountOk(v', u) {
      assert CountOk(v, u);
      DropDirRefs(v, d, k, c, u);
      DropDirSize(v, d, k, c, u);
    }
  }

  lemma DropDirSize(v: Inodes, d: nat, k: nat, c: nat, u: nat)
    requires d < |v| && k < |v[d].entries| && c < |v| && c != d && u < |v|
    ensures DropDir(v, d, k, c)[u].nlink == v[u].nlink - (if u == c then 1 else 0) - (if u == d then 1 else 0)
  {
  }

  lemma DropDirShape(v: Inodes, d: nat, k: nat, c: nat)
    requires Names(v, d, k, c) && k >= 2 && LiveDir(v, c) && c != d && v[c].nlink == 1 && v[d].nlink >= 2
    ensures var v' := DropDir(v, d, k, c);
      && |v'| == |v| && v'[c].entries == v[c].entries && v'[d].entries == SetSlot(v[d].entries, k, Entry(0, ""))
      && (forall a :: 0 <= a < |v| && a != c && a != d ==> v'[a] == v[a])
      && (forall a: nat :: LiveDir(v', a) <==> LiveDir(v, a) && a != c)
      && (forall a: nat :: Parent(v', a) == Parent(v, a)) && (forall a: nat :: IsDir(v', a) <==> IsDir(v, a))
  {
  }

  lemma DropDirNames(v: Inodes, d: nat, k: nat, c: nat)
    requires Names(v, d, k, c) && k >= 2 && LiveDir(v, c) && c != d && v[c].nlink == 1 && v[d].nlink >= 2
    requires EmptyDir(v[c].entries)
    ensures var v' := DropDir(v, d, k, c);
      forall a: nat, b: nat, u: nat :: b >= 2 ==> (Names(v', a, b, u) <==> Names(v, a, b, u) && !(a == d && b == k))
  {
  }

  lemma DropDirDirs(v: Inodes, d: nat, k: nat, c: nat)
    requires DirsOk(v) && Names(v, d, k, c) && k >= 2 && LiveDir(v, c) && c != d && v[c].nlink == 1 && v[d].nlink >= 2
    requires forall a: nat :: LiveDir(v, a) ==> Parent(v, a) != c
    ensures DirsOk(DropDir(v, d, k, c))
  {
    hide EntriesOk, Parent, DropDir, SetSlot, DirsOk;
    var v' := DropDir(v, d, k, c);
    DropDirShape(v, d, k, c);
    DirAboveZero(v, d);
    EntriesClear(v[d].entries, d, |v|, k);
    forall a: nat | LiveDir(v', a) ensures a > 0 && EntriesOk(v'[a].entries, a, |v'|) && LiveDir(v', Parent(v', a)) {
      DirAboveZero(v, a);
      DirPair(v, a);
    }
    DirsAll(v');
  }

  lemma DropDirKids(v: Inodes, d: nat, k: nat, c: nat)
    requires KidsOk(v) && KidsOnce(v) && AllNamed(v) && Names(v, d, k, c) && k >= 2 && LiveDir(v, c) && c != d
    requires v[c].nlink == 1 && v[d].nlink >= 2 && EmptyDir(v[c].entries)
    requires forall a: nat :: LiveDir(v, a) ==> Parent(v, a) != c
    ensures var v' := DropDir(v, d, k, c); KidsOk(v') && KidsOnce(v') && AllNamed(v')
  {
    var v' := DropDir(v, d, k, c);
    DropDirShape(v, d, k, c);
    DropDirNames(v, d, k, c);
    hide LiveDir, Parent, DropDir;
    forall u: nat | LiveDir(v', u) && u != ROOT ensures Named(v', u) {
      assert Named(v, u);
      var j: nat :| j >= 2 && Names(v, Parent(v, u), j, u);
      assert Names(v', Parent(v', u), j, u);
    }
  }

  lemma DropDirRest(v: Inodes, d: nat, k: nat, c: nat)
    requires LiveDir(v, ROOT) && Parent(v, ROOT) == ROOT && v[0].kind.Free? && v[0].nlink == 0 && KindsOk(v)
    requires Names(v, d, k, c) && k >= 2 && LiveDir(v, c) && c != d && v[c].nlink == 1 && v[d].nlink >= 2 && c != ROOT
    requires d > 0
    requires EmptyDir(v[c].entries) && EntriesOk(v[c].entries, c, |v|)
    ensures var v' := DropDir(v, d, k, c);
      LiveDir(v', ROOT) && Parent(v', ROOT) == ROOT && v'[0].kind.Free? && v'[0].nlink == 0 && KindsOk(v')
  {
    DropDirShape(v, d, k, c);
  }

  /** Removing the entry of an empty directory keeps the invariant, and its count falls to 0. */
  lemma DropDirInv(v: Inodes, d: nat, k: nat, c: nat)
    requires Inv(v) && Names(v, d, k, c) && k >= 2 && IsDir(v, c) && EmptyDir(v[c].entries)
    ensures c != d && v[c].nlink == 1 && Inv(DropDir(v, d, k, c))
  {
    NamedIsLive(v, d, k, c);
    EmptyRefs(v, d, k, c);
    ParentHasTwo(v, c);
    SlotName(v, d, k, c);
    forall a: nat | LiveDir(v, a) ensures Parent(v, a) != c { NotParent(v, c, a); }
    hide Counts, EntriesOk, DirsOk, KidsOk, KidsOnce, AllNamed, KindsOk, DropDir, Parent, SetSlot, Refs;
    DirAboveZero(v, c);
    DropDirDirs(v, d, k, c);
    DropDirCounts(v, d, k, c);
    DropDirKids(v, d, k, c);
    DropDirRest(v, d, k, c);
  }

  // ----- Inodes that no directory names --------------------------------------------------------

  lemma ReplaceInv(v: Inodes, i: nat, n: Inode)
    requires Inv(v) && 0 < i < |v| && v[i].nlink == 0 && n.nlink == 0 && (n.kind.Free? ==> n.entries == [])
    requires DeadOk(n, |v|)
    ensures Inv(v[i := n])
  {
    var v' := v[i := n];
    forall u | 0 < u < |v| ensures CountOk(v', u) {
      assert CountOk(v, u);
      RefsReplace(v, i, n, u);
    }
    Unnamed(v, i);
    ReplaceTree(v, i, n);
  }

  lemma ReplaceTree(v: Inodes, i: nat, n: Inode)
    requires Inv(v) && 0 < i < |v| && v[i].nlink == 0 && n.nlink == 0 && (n.kind.Free? ==> n.entries == [])
    requires DeadOk(n, |v|)
    requires forall a: nat, b: nat :: b >= 2 ==> !Names(v, a, b, i)
    ensures var v' := v[i := n];
      && LiveDir(v', ROOT) && Parent(v', ROOT) == ROOT && v'[0].kind.Free? && v'[0].nlink == 0
      && DirsOk(v') && KidsOk(v') && KidsOnce(v') && AllNamed(v') && KindsOk(v')
  {
    var v' := v[i := n];
    assert forall a: nat :: LiveDir(v', a) <==> LiveDir(v, a);
    assert forall a: nat :: a != i ==> Parent(v', a) == Parent(v, a);
    assert forall a: nat, b: nat, u: nat :: Names(v', a, b, u) <==> Names(v, a, b, u);
    KidsLive(v);
    hide Counts, EntriesOk, Names, Parent;
    forall u: nat | LiveDir(v', u) && u != ROOT ensures Named(v', u) {
      assert Named(v, u);
      var j: nat :| j >= 2 && Names(v, Parent(v, u), j, u);
      assert Names(v', Parent(v', u), j, u);
    }
  }

  /** Linking into a directory keeps the counts right exactly when that directory is itself linked. */
  lemma AddLinkExact(v: Inodes, d: nat, k: nat, name: string, t: nat)
    requires Inv(v) && IsDir(v, d) && EmptySlot(v[d].entries, k) && Absent(v[d].entries, name)
    requires 0 < t < |v| && !v[t].kind.Dir? && !v[t].kind.Free?
    ensures Inv(AddLink(v, d, k, name, t)) <==> v[d].nlink > 0
  {
    if v[d].nlink > 0 {
      AddLinkInv(v, d, k, name, t);
    } else {
      var w := PutEntry(v, d, k, Entry(t, name));
      RefsReplace(v, d, w[d], t);
      RefsCount(w, t, w[t].nlink + 1, t);
      assert CountOk(v, t);
      assert !CountOk(AddLink(v, d, k, name, t), t);
    }
  }

  /** A new directory in a removed one gives that one a link again that no one can follow. */
  lemma AddDirExact(v: Inodes, d: nat, k: nat, name: string, c: nat)
    requires Inv(v) && IsDir(v, d) && EmptySlot(v[d].entries, k) && Absent(v[d].entries, name)
    requires 0 < c < |v| && v[c].kind.Free?
    ensures c != d && (Inv(AddDir(v, d, k, name, c)) <==> v[d].nlink > 0)
  {
    FreeHasNone(v, c);
    if v[d].nlink > 0 {
      AddDirInv(v, d, k, name, c);
    } else {
      var v' := AddDir(v, d, k, name, c);
      DeadHasNone(v, d);
      Unnamed(v, d);
      assert LiveDir(v', d) && d != ROOT;
      forall b: nat | b >= 2 && Names(v', Parent(v', d), b, d) ensures false {
        assert Names(v, Parent(v', d), b, d);
      }
      assert !Named(v', d);
    }
  }

  lemma FreeHasNone(v: Inodes, c: nat)
    requires Inv(v) && c < |v| && v[c].kind.Free?
    ensures v[c] == Inode(Free, 0, [])
  {
    hide DirsOk, KidsOk, KidsOnce, AllNamed, Counts;
  }

  lemma DeadHasNone(v: Inodes, d: nat)
    requires Inv(v) && d < |v| && v[d].nlink <= 0
    ensures v[d].nlink == 0 && d != ROOT
  {
    hide DirsOk, KidsOk, KidsOnce, AllNamed, Counts;
  }
}
