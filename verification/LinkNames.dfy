/** What the calls that change names come to when the names are looked up: create, link and unlink of
    lab9/kernel/sysfile.c, read through `dirlookup`. */
module LinkNames {

  import opened LinkCounts
  import opened LinkUpdates
  import opened LinkCalls
  import opened LinkRuns
  import F = FileSystem
  import T = FileTree

  /** A new entry is found under its name, and no other name is found elsewhere than before. */
  lemma {:induction false} LookupPut(entries: seq<Entry>, k: nat, e: Entry, m: string)
    requires EmptySlot(entries, k) && Absent(entries, e.name) && e.inum != 0
    ensures Lookup(SetSlot(entries, k, e), m) == if m == e.name then e.inum else Lookup(entries, m)
  {
    if k > 0 {
      var rest := entries[1..];
      LookupPut(rest, k - 1, e, m);
      assert SetSlot(entries, k, e)[1..] == SetSlot(rest, k - 1, e);
    } else if entries != [] {
      assert SetSlot(entries, k, e)[1..] == entries[1..];
      if m == e.name {
        LookupFirst(SetSlot(entries, k, e), m, 0);
      }
    } else {
      assert SetSlot(entries, k, e) == [e];
    }
  }

  /** A cleared entry is no longer found, and every other name is. */
  lemma {:induction false} LookupClear(entries: seq<Entry>, k: nat, m: string)
    requires k < |entries| && entries[k].inum != 0
    requires forall j :: 0 <= j < |entries| && j != k && entries[j].inum != 0 ==> entries[j].name != entries[k].name
    ensures Lookup(entries[k := Entry(0, "")], m) == if m == entries[k].name then 0 else Lookup(entries, m)
  {
    var after := entries[k := Entry(0, "")];
    if k > 0 {
      LookupClear(entries[1..], k - 1, m);
      assert after[1..] == entries[1..][k - 1 := Entry(0, "")];
    } else {
      assert after[1..] == entries[1..];
      if m == entries[0].name {
        LookupAbsent(after, m);
      }
    }
  }

  /** Directory `d` has one more name, `c`'s, and nothing else changed but these two inodes. */
  ghost predicate NameAdded(v: Inodes, v': Inodes, d: nat, name: string, c: nat)
    requires d < |v|
  {
    && |v'| == |v| && (forall i :: 0 <= i < |v| && i != c && i != d ==> v'[i] == v[i])
    && v'[d].kind == v[d].kind
    && forall m: string :: Lookup(v'[d].entries, m) == if m == name then c else Lookup(v[d].entries, m)
  }

  /** A new inode of the kind asked for, with one link, found under the name; a directory has its two entries,
      and its parent the link of "..". */
  lemma CreatedReads(v: Inodes, d: nat, name: string, kind: Kind, c: nat)
    requires Inv(v) && IsDir(v, d) && 0 < c < |v| && v[c].kind.Free? && c != d && Absent(v[d].entries, name)
    requires (kind.Dir? ==> v[d].nlink < MAXLINKS) && !kind.Free?
    ensures var v' := Created(v, d, name, kind, c);
      && NameAdded(v, v', d, name, c) && v'[c].kind == kind && v'[c].nlink == 1
      && v'[d].nlink == v[d].nlink + (if kind.Dir? then 1 else 0)
      && forall m: string :: Lookup(v'[c].entries, m) ==
           if kind.Dir? && m == "." then c else if kind.Dir? && m == ".." then d else 0
  {
    FreeIs(v, c);
    var k := FirstEmpty(v[d].entries);
    forall m: string
      ensures Lookup(SetSlot(v[d].entries, k, Entry(c, name)), m) ==
              if m == name then c else Lookup(v[d].entries, m)
    {
      LookupPut(v[d].entries, k, Entry(c, name), m);
    }
    CountsAbove(v, d);
    DirZero(v, d);
    forall m: string
      ensures Lookup([Entry(c, "."), Entry(d, "..")], m) == if m == "." then c else if m == ".." then d else 0
    {
      assert [Entry(c, "."), Entry(d, "..")][1..] == [Entry(d, "..")];
      assert [Entry(d, "..")][1..] == [];
      assert Lookup([Entry(d, "..")], m) == if m == ".." then d else 0;
    }
  }

  lemma CountsAbove(v: Inodes, d: nat)
    requires Inv(v) && d < |v|
    ensures v[d].nlink >= 0
  {
    hide DirsOk, KidsOk, KidsOnce, AllNamed, Counts;
  }

  lemma DirZero(v: Inodes, d: nat)
    requires Inv(v) && IsDir(v, d)
    ensures d > 0
  {
    hide DirsOk, KidsOk, KidsOnce, AllNamed, Counts;
  }

  /** A second name for a file, with one link more. */
  lemma LinkedReads(v: Inodes, d: nat, name: string, t: nat)
    requires Inv(v) && IsDir(v, d) && 0 < t < |v| && !v[t].kind.Dir? && Absent(v[d].entries, name)
    ensures var v' := AddLink(v, d, FirstEmpty(v[d].entries), name, t);
      NameAdded(v, v', d, name, t) && v'[t] == v[t].(nlink := v[t].nlink + 1) && v'[d].nlink == v[d].nlink
  {
    var k := FirstEmpty(v[d].entries);
    forall m: string
      ensures Lookup(SetSlot(v[d].entries, k, Entry(t, name)), m) ==
              if m == name then t else Lookup(v[d].entries, m)
    {
      LookupPut(v[d].entries, k, Entry(t, name), m);
    }
  }

  /** The name is gone and every other name stays; the inode lost a link, and was freed if it has neither a link nor
      a holder; the parent of a directory lost the link of its "..". */
  lemma RemovedReads(v: Inodes, d: nat, name: string, k: nat, t: nat, last: bool)
    requires Inv(v) && Found(v, d, name, k, t) && name != "." && name != ".." && t < |v| && t != d
    ensures var v' := Put(Unlinked(v, d, k, t), t, last);
      && |v'| == |v| && (forall i :: 0 <= i < |v| && i != t && i != d ==> v'[i] == v[i])
      && Lookup(v[d].entries, name) == t && v[t].nlink >= 1
      && (forall m: string :: Lookup(v'[d].entries, m) == if m == name then 0 else Lookup(v[d].entries, m))
      && v'[d].kind == v[d].kind && v'[d].nlink == v[d].nlink - (if v[t].kind.Dir? then 1 else 0)
      && v'[t] == if last && v[t].nlink == 1 then Inode(Free, 0, []) else v[t].(nlink := v[t].nlink - 1)
  {
    DirAboveZero(v, d);
    FoundAbove(v, d, name, k, t);
    var es := v[d].entries;
    forall j | 0 <= j < |es| && j != k && es[j].inum != 0 ensures es[j].name != es[k].name {
    }
    LookupFirst(es, name, k);
    forall m: string
      ensures Lookup(es[k := Entry(0, "")], m) == if m == name then 0 else Lookup(es, m)
    {
      LookupClear(es, k, m);
    }
    UnlinkedIs(v, d, k, t);
  }

  // ----- Calls on a volume ----------------------------------------------------------------------

  /** A create that succeeds: the name was there for an inode that may be opened so, or it is now the name
      of a new inode of the kind, with one link. */
  lemma CreateReads(layers: nat, s: Snap, dp: nat, name: string, kind: Kind, t: Snap)
    requires SnapOk(s) && |t.v| == |t.disk.inodes| && IsDir(s.v, dp) && dp != 0 && !kind.Free?
    requires Makes(layers, s, dp, name, kind, true, t)
    requires Absent(s.v[dp].entries, name) && HasFree(s.v) ==> Counted(kind, s.v[dp].nlink)
    ensures var c := Lookup(t.v[dp].entries, name);
      && 0 < c < |t.v| == |s.v|
      && if Lookup(s.v[dp].entries, name) == 0 then
           && s.v[c].kind.Free? && NameAdded(s.v, t.v, dp, name, c) && t.v[c].kind == kind && t.v[c].nlink == 1
           && t.v[dp].nlink == s.v[dp].nlink + (if kind.Dir? then 1 else 0)
         else
           t.v == s.v && (kind.File? || kind.Symlink?) && (s.v[c].kind == kind || s.v[c].kind.Device?)
  {
    hide Inv, HeldOk, DataKept, Crowded, Created;
    LookupAbsent(s.v[dp].entries, name);
    if Absent(s.v[dp].entries, name) {
      var c: nat :| 0 < c < |s.v| && s.v[c].kind.Free? && c != dp && Made(layers, s, dp, name, kind, c, t);
      CreatedReads(s.v, dp, name, kind, c);
    }
  }

  /** A link that succeeds: the name was not there, and now it is that of the inode, which has one link more. */
  lemma LinkReads(layers: nat, s: Snap, ip: nat, dp: nat, name: string, sameDev: bool, t: Snap)
    requires SnapOk(s) && ip < |s.v| && dp < |s.v| && (dp != 0 ==> IsDir(s.v, dp))
    requires LinkRuns.Named(layers, s, ip, dp, name, sameDev, true, t)
    ensures sameDev && ip != 0 && dp != 0 && !s.v[ip].kind.Dir? && Lookup(s.v[dp].entries, name) == 0
    ensures NameAdded(s.v, t.v, dp, name, ip) && t.v[ip] == s.v[ip].(nlink := s.v[ip].nlink + 1)
    ensures t.v[dp].nlink == s.v[dp].nlink
  {
    hide Inv, HeldOk, DataKept, FirstEmpty, AddLink;
    LookupAbsent(s.v[dp].entries, name);
    LinkedReads(s.v, dp, name, ip);
  }

  /** An unlink that succeeds: the name named an inode, and now it names none. */
  lemma UnlinkReads(layers: nat, s: Snap, dp: nat, name: string, t: Snap)
    requires SnapOk(s) && dp < |s.v| && LinkRuns.Unnamed(layers, s, dp, name, true, t)
    ensures |t.v| == |s.v| && name != "." && name != ".."
    ensures var u := Lookup(s.v[dp].entries, name);
      && 0 < u < |s.v| && u != dp && s.v[u].nlink >= 1
      && (s.v[u].kind.Dir? ==> EmptyDir(s.v[u].entries))
      && (forall m: string :: Lookup(t.v[dp].entries, m) == if m == name then 0 else Lookup(s.v[dp].entries, m))
      && t.v[dp].kind == s.v[dp].kind && t.v[dp].nlink == s.v[dp].nlink - (if s.v[u].kind.Dir? then 1 else 0)
      && (forall i :: 0 <= i < |s.v| && i != u && i != dp ==> t.v[i] == s.v[i])
      && t.v[u] == if u !in s.held && s.v[u].nlink == 1 then Inode(Free, 0, [])
                   else s.v[u].(nlink := s.v[u].nlink - 1)
  {
    hide Inv, HeldOk, DataKept, Unlinked, Put;
    var k, u: nat :| Gone(s.v, s.held, dp, name, k, u, t.v);
    var j, w: nat :| Found(s.v, dp, name, j, w) && w < |s.v| && (s.v[w].kind.Dir? ==> EmptyDir(s.v[w].entries));
    FoundOnce(s.v, dp, name, j, w, k, u);
    FoundAbove(s.v, dp, name, k, u);
    RemovedReads(s.v, dp, name, k, u, u !in s.held);
  }

  /** Why a link is refused: an inode or directory that is not there, a directory or another device, a name that is
      taken, or no slot and no room for one. */
  lemma LinkRefused(layers: nat, s: Snap, ip: nat, dp: nat, name: string, sameDev: bool, t: Snap)
    requires SnapOk(s) && ip < |s.v| && dp < |s.v| && LinkRuns.Named(layers, s, ip, dp, name, sameDev, false, t)
    ensures t.v == s.v
    ensures var es := s.v[dp].entries;
      || ip == 0 || dp == 0 || s.v[ip].kind.Dir? || !sameDev || Lookup(es, name) != 0
      || ((forall k :: 0 <= k < |es| ==> es[k].inum != 0)
          && ((|es| % 64 == 0 && forall b :: 0 <= b < |t.disk.bitmap| ==> t.disk.bitmap[b])
              || 16 * |es| + 16 >= T.UINT || (layers <= T.TOTBUF && 16 * |es| + 16 > T.MaxFile(layers) * T.BSIZE)))
  {
    hide Inv, HeldOk, DataKept;
    LookupAbsent(s.v[dp].entries, name);
  }

  /** Why a create is refused: no directory, a name that is there for something else, no free inode, or too few
      free blocks. */
  lemma CreateRefused(layers: nat, s: Snap, dp: nat, name: string, kind: Kind, t: Snap)
    requires SnapOk(s) && |t.v| == |t.disk.inodes| && dp < |s.v| && Makes(layers, s, dp, name, kind, false, t)
    ensures t.v == s.v
    ensures var c := Lookup(s.v[dp].entries, name);
      || dp == 0 || (forall i :: 0 < i < |s.v| ==> !s.v[i].kind.Free?)
      || Crowded(s.disk.bitmap, layers, s.v[dp].entries, kind)
      || (c != 0 && (c < |s.v| && s.v[c].kind.Device? ==> kind.Dir? || kind.Device? || kind.Free?)
          && (c < |s.v| && s.v[c].kind == kind ==> !kind.File? && !kind.Symlink?))
  {
    hide Inv, HeldOk, DataKept, Crowded;
    LookupAbsent(s.v[dp].entries, name);
  }

  /** An unlink succeeds exactly for a name, other than the dots, of anything but a directory with entries. */
  lemma UnlinkExactly(layers: nat, s: Snap, dp: nat, name: string, done: bool, t: Snap)
    requires SnapOk(s) && (dp == 0 || IsDir(s.v, dp)) && LinkRuns.Unnamed(layers, s, dp, name, done, t)
    ensures !done ==> t == s
    ensures done <==>
        && dp != 0 && name != "." && name != ".." && Lookup(s.v[dp].entries, name) != 0
        && var u := Lookup(s.v[dp].entries, name);
           u < |s.v| && (s.v[u].kind.Dir? ==> EmptyDir(s.v[u].entries))
  {
    hide DataKept;
    if dp != 0 && name != "." && name != ".." {
      var es := s.v[dp].entries;
      LookupAbsent(es, name);
      if done {
        UnlinkReads(layers, s, dp, name, t);
      } else if Lookup(es, name) != 0 {
        var k := FirstOf(es, name);
        FoundLive(s.v, dp, name, k);
        FoundIs(s.v, dp, name, k, es[k].inum);
      }
    }
  }

  lemma {:induction false} FirstOf(entries: seq<Entry>, name: string) returns (k: nat)
    requires Lookup(entries, name) != 0
    ensures k < |entries| && entries[k] == Entry(Lookup(entries, name), name)
  {
    if entries[0].inum != 0 && entries[0].name == name {
      k := 0;
    } else {
      k := FirstOf(entries[1..], name);
      k := k + 1;
    }
  }
}
