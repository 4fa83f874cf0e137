/** create, link and unlink of lab9/kernel/sysfile.c over inodes and directory files on the disk: what they do to
    blocks and bytes is what LinkUpdates says of lists of entries. */
module LinkCalls {
  import opened LinkCounts
  import opened LinkUpdates
  import opened DirectoryFiles
  import T = FileTree
  import F = FileSystem

  const DOT: seq<T.Byte> := [46]
  const DOTDOT: seq<T.Byte> := [46, 46]

  // ----- The inodes on the disk ------------------------------------------------------------------

  /** Types and link counts with what the directory files hold. */
  ghost function ViewOf(kinds: seq<Kind>, nlinks: seq<int>, d: F.Disk, layers: nat): (v: Inodes)
    requires |kinds| == |nlinks| == |d.inodes|
    ensures |v| == |kinds|
  {
    seq(|kinds|, i requires 0 <= i < |kinds| =>
      Inode(kinds[i], nlinks[i], if kinds[i].Dir? then Entries(F.Contents(d, layers, i)) else []))
  }

  /** Directories hold whole entries, and free inodes no blocks; numbers fit the `ushort` of an entry. */
  ghost predicate SoundOn(kinds: seq<Kind>, nlinks: seq<int>, d: F.Disk) {
    && |kinds| == |nlinks| == |d.inodes| <= 0x1_0000
    && forall i :: 0 <= i < |kinds| ==>
        && (kinds[i].Dir? ==> d.inodes[i].size % DIRENT == 0)
        && (kinds[i].Free? ==> d.inodes[i] == Empty())
  }

  function Empty(): T.Inode { T.Inode(seq(T.TOTBUF, i => 0), 0) }

  /** Only the inodes of `which` and their files change. */
  ghost predicate SameBut(d: F.Disk, e: F.Disk, layers: nat, which: set<nat>) {
    |e.inodes| == |d.inodes| && forall n :: 0 <= n < |d.inodes| && n !in which ==>
      e.inodes[n] == d.inodes[n] && F.Contents(e, layers, n) == F.Contents(d, layers, n)
  }

  /** Files that stay in use keep their bytes. */
  ghost predicate DataKept(v: Inodes, v': Inodes, d: F.Disk, e: F.Disk, layers: nat) {
    && |v'| == |v| == |d.inodes| == |e.inodes|
    && forall n :: 0 <= n < |v| && !v[n].kind.Dir? && !v[n].kind.Free? && !v'[n].kind.Free? ==>
      F.Contents(e, layers, n) == F.Contents(d, layers, n)
  }

  /** Blocks that writing an entry into the first empty slot takes at most. */
  function Cost(layers: nat, entries: seq<Entry>): nat { F.PathLength(layers, FirstEmpty(entries) / PERBLOCK) }

  lemma ViewEntry(kinds: seq<Kind>, nlinks: seq<int>, d: F.Disk, e: F.Disk, layers: nat, dp: nat, k: nat, de: Entry)
    requires |kinds| == |nlinks| == |d.inodes| && dp < |kinds| && kinds[dp].Dir? && SameBut(d, e, layers, {dp})
    requires k <= |Entries(F.Contents(d, layers, dp))|
    requires Entries(F.Contents(e, layers, dp)) == SetSlot(Entries(F.Contents(d, layers, dp)), k, de)
    ensures ViewOf(kinds, nlinks, e, layers) == PutEntry(ViewOf(kinds, nlinks, d, layers), dp, k, de)
  {
    hide Entries, F.Contents;
    var v, w := ViewOf(kinds, nlinks, d, layers), ViewOf(kinds, nlinks, e, layers);
    forall i | 0 <= i < |w| ensures w[i] == PutEntry(v, dp, k, de)[i] {
    }
  }

  lemma ViewSame(kinds: seq<Kind>, nlinks: seq<int>, d: F.Disk, e: F.Disk, layers: nat, i: nat)
    requires |kinds| == |nlinks| == |d.inodes| && i < |kinds| && SameBut(d, e, layers, {i})
    requires kinds[i].Dir? ==> Entries(F.Contents(e, layers, i)) == Entries(F.Contents(d, layers, i))
    ensures ViewOf(kinds, nlinks, e, layers) == ViewOf(kinds, nlinks, d, layers)
  {
    hide Entries, F.Contents;
  }

  lemma ViewCount(kinds: seq<Kind>, nlinks: seq<int>, d: F.Disk, layers: nat, i: nat, n: int)
    requires |kinds| == |nlinks| == |d.inodes| && i < |kinds|
    ensures var v := ViewOf(kinds, nlinks, d, layers);
      ViewOf(kinds, nlinks[i := n], d, layers) == v[i := v[i].(nlink := n)]
  {
    hide Entries, F.Contents;
  }

  lemma ViewInode(kinds: seq<Kind>, nlinks: seq<int>, d: F.Disk, e: F.Disk, layers: nat, i: nat, kind: Kind, n: int)
    requires |kinds| == |nlinks| == |d.inodes| && i < |kinds| && SameBut(d, e, layers, {i})
    requires F.Contents(e, layers, i) == []
    ensures ViewOf(kinds[i := kind], nlinks[i := n], e, layers) ==
        ViewOf(kinds, nlinks, d, layers)[i := Inode(kind, n, [])]
  {
    hide F.Contents;
    assert Entries([]) == [];
    hide Entries;
  }

  lemma SoundChanged(kinds: seq<Kind>, nlinks: seq<int>, d: F.Disk, e: F.Disk, layers: nat, i: nat)
    requires SoundOn(kinds, nlinks, d) && i < |kinds| && SameBut(d, e, layers, {i}) && !kinds[i].Free?
    requires kinds[i].Dir? ==> e.inodes[i].size % DIRENT == 0
    ensures SoundOn(kinds, nlinks, e)
  {
    hide F.Contents;
  }

  lemma SameMore(d: F.Disk, e: F.Disk, f: F.Disk, layers: nat, s: set<nat>, t: set<nat>)
    requires SameBut(d, e, layers, s) && SameBut(e, f, layers, t)
    ensures SameBut(d, f, layers, s + t)
  {
    hide F.Contents;
  }

  lemma SameNothing(d: F.Disk, layers: nat, s: set<nat>)
    ensures SameBut(d, d, layers, s)
  {
  }

  lemma EmptyContents(d: F.Disk, layers: nat, i: nat)
    requires i < |d.inodes| && d.inodes[i] == Empty()
    ensures F.Contents(d, layers, i) == []
  {
  }

  /** A directory has no empty slot and cannot be made longer. */
  ghost predicate Refuses(fs: F.Fs, was: F.Disk, entries: seq<Entry>)
    reads fs
  {
    var k := |entries|;
    && FirstEmpty(entries) == k && NoRoom(fs.bitmap, fs.layers, k)
    && (k / PERBLOCK < T.TOTBUF - fs.layers ==> NoRoom(was.bitmap, fs.layers, k))
  }

  /** ... and that making an inode with a name in that slot takes. */
  function CreateCost(layers: nat, entries: seq<Entry>, kind: Kind): nat {
    Cost(layers, entries) + if kind.Dir? then 2 * F.PathLength(layers, 0) else 0
  }

  /** No inode could be made and named in a directory with these entries: the blocks that are free would not do,
      or the directory is at its limit. */
  ghost predicate Crowded(bitmap: seq<bool>, layers: nat, entries: seq<Entry>, kind: Kind) {
    || |F.FreeBlocks(bitmap)| <= CreateCost(layers, entries, kind)
    || NoSpace(layers, |entries|) || (kind.Dir? && NoSpace(layers, 1))
  }

  /** `e` is the disk after "." and ".." were written, if they were. */
  lemma CrowdedIs(fs: F.Fs, d: F.Disk, e: F.Disk, entries: seq<Entry>, kind: Kind)
    requires if kind.Dir? then F.Took(d.bitmap, e.bitmap, 2 * F.PathLength(fs.layers, 0)) else e == d
    requires
      || (F.Took(e.bitmap, fs.bitmap, Cost(fs.layers, entries)) && Refuses(fs, e, entries))
      || (kind.Dir? && e == fs.Abs() && (NoRoom(fs.bitmap, fs.layers, 0) || NoRoom(fs.bitmap, fs.layers, 1)))
    ensures Crowded(d.bitmap, fs.layers, entries, kind)
  {
    hide NoSpace, F.FreeBlocks, F.PathLength, Cost;
    F.FullIs(fs.bitmap);
    NoSpaceGrows(fs.layers);
  }

  lemma TookBoth(a: seq<bool>, b: seq<bool>, c: seq<bool>, layers: nat, entries: seq<Entry>, kind: Kind)
    requires if kind.Dir? then F.Took(a, b, 2 * F.PathLength(layers, 0)) else a == b
    requires F.Took(b, c, Cost(layers, entries))
    ensures F.Took(a, c, CreateCost(layers, entries, kind))
  {
    hide F.FreeBlocks, F.PathLength, Cost;
  }

  lemma SameAt(d: F.Disk, e: F.Disk, layers: nat, which: set<nat>, n: nat)
    requires SameBut(d, e, layers, which) && n < |d.inodes| && n !in which
    ensures n < |e.inodes| && F.Contents(e, layers, n) == F.Contents(d, layers, n)
  {
    hide F.Contents;
  }

  lemma NoSpaceGrows(layers: nat)
    ensures NoSpace(layers, 0) ==> NoSpace(layers, 1)
  {
    hide T.MaxFile;
  }

  // ----- The calls ---------------------------------------------------------------------------------

  class Volume {
    const fs: F.Fs
    /** `type` and `nlink` of the inodes. */
    var kinds: seq<Kind>
    var nlinks: seq<int>

    constructor (fs: F.Fs, n: nat)
      requires 0 < n <= 0x1_0000 && fs.ValidFiles() && |fs.inodes| == n
      requires forall i :: 0 <= i < n ==> fs.inodes[i] == Empty()
      ensures this.fs == fs && Sound() && |View()| == n && forall i :: 0 <= i < n ==> View()[i] == Inode(Free, 0, [])
    {
      this.fs := fs;
      kinds, nlinks := seq(n, i => Free), seq(n, i => 0);
    }

    ghost predicate Sound()
      reads this, fs
    {
      fs.ValidFiles() && |kinds| == |nlinks| == |fs.inodes| && SoundOn(kinds, nlinks, fs.Abs())
    }

    ghost function View(): Inodes
      requires |kinds| == |nlinks| == |fs.inodes|
      reads this, fs
    {
      ViewOf(kinds, nlinks, fs.Abs(), fs.layers)
    }

    ghost predicate Valid()
      reads this, fs
    {
      Sound() && Inv(View()) && Shorts(View())
    }

    /** `dirlookup` (fs.c:563-587); 0 when the name is not there. */
    method DirLookup(dp: nat, name: seq<T.Byte>) returns (inum: nat, off: nat)
      requires Sound() && IsDir(View(), dp) && IsName(name)
      modifies fs
      ensures Sound() && fs.Abs() == old(fs.Abs()) && View() == old(View())
      ensures inum == 0 <==> Absent(View()[dp].entries, Text(name))
      ensures inum != 0 ==> off < |View()[dp].entries| && View()[dp].entries[off] == Entry(inum, Text(name))
      ensures inum == Lookup(View()[dp].entries, Text(name))
    {
      hide F.DiskOk, F.FilesOk, F.Contents, Entries, Text;
      inum, off := DirectoryFiles.DirLookup(fs, dp, name);
      LookupAbsent(View()[dp].entries, Text(name));
      if inum != 0 { LookupFirst(View()[dp].entries, Text(name), off); }
    }

    /** `dirlink` (fs.c:591-618). */
    method DirLink(dp: nat, name: seq<T.Byte>, inum: nat) returns (ok: bool)
      requires Sound() && IsDir(View(), dp) && IsName(name) && inum < 0x1_0000
      modifies fs
      ensures Sound() && SameBut(old(fs.Abs()), fs.Abs(), fs.layers, {dp})
      ensures ok ==> Absent(old(View())[dp].entries, Text(name))
      ensures ok ==> View() == PutEntry(old(View()), dp, FirstEmpty(old(View())[dp].entries), Entry(inum, Text(name)))
      ensures !ok ==> View() == old(View())
      ensures !ok && Absent(old(View())[dp].entries, Text(name)) ==> Refuses(fs, old(fs.Abs()), old(View())[dp].entries)
      ensures F.Took(old(fs.bitmap), fs.bitmap, Cost(fs.layers, old(View())[dp].entries))
    {
      hide F.DiskOk, F.FilesOk, F.Contents, Entries, Text, FirstEmpty, NoRoom, F.Took, F.PathLength;
      ghost var d := fs.Abs();
      ok := DirectoryFiles.DirLink(fs, dp, name, inum);
      SoundChanged(kinds, nlinks, d, fs.Abs(), fs.layers, dp);
      if ok {
        ViewEntry(kinds, nlinks, d, fs.Abs(), fs.layers, dp, FirstEmpty(old(View())[dp].entries),
                  Entry(inum, Text(name)));
      } else {
        ViewSame(kinds, nlinks, d, fs.Abs(), fs.layers, dp);
      }
    }

    /** `isdirempty` (sysfile.c:173-186). */
    method IsDirEmpty(dp: nat) returns (empty: bool)
      requires Sound() && IsDir(View(), dp)
      modifies fs
      ensures Sound() && fs.Abs() == old(fs.Abs()) && View() == old(View())
      ensures empty <==> EmptyDir(View()[dp].entries)
    {
      hide F.DiskOk, F.FilesOk, F.Contents, Entries;
      empty := DirectoryFiles.IsDirEmpty(fs, dp);
    }

    /** `ialloc` (fs.c:198-219): the first free inode, 0 when there is none.  Its `memset` changes nothing. */
    method IAlloc(kind: Kind) returns (inum: nat)
      requires Sound() && |kinds| > 0 && !kind.Free?
      modifies this
      ensures Sound() && (inum == 0 <==> !HasFree(old(View())))
      ensures inum == 0 ==> View() == old(View())
      ensures inum != 0 ==> inum < |View()| == |old(View())| && old(View())[inum].kind.Free?
      ensures inum != 0 ==> View() == old(View())[inum := Inode(kind, 0, [])]
    {
      hide F.DiskOk, F.FilesOk, F.Contents, Entries;
      inum := 1;
      while inum < |kinds|
        invariant 1 <= inum <= |kinds| && kinds == old(kinds) && nlinks == old(nlinks)
        invariant forall i :: 0 < i < inum ==> !kinds[i].Free?
      {
        if kinds[inum].Free? {
          assert fs.inodes[inum] == Empty();
          EmptyContents(fs.Abs(), fs.layers, inum);
          SameNothing(fs.Abs(), fs.layers, {inum});
          ViewInode(kinds, nlinks, fs.Abs(), fs.Abs(), fs.layers, inum, kind, 0);
          assert View()[inum].kind.Free?;
          kinds, nlinks := kinds[inum := kind], nlinks[inum := 0];
          return;
        }
        inum := inum + 1;
      }
      inum := 0;
    }

    /** Storing a link count (`iupdate`). */
    method SetCount(i: nat, n: int)
      requires Sound() && i < |kinds|
      modifies this`nlinks
      ensures Sound() && View() == old(View())[i := old(View())[i].(nlink := n)] && nlinks == old(nlinks)[i := n]
    {
      hide F.DiskOk, F.FilesOk, F.Contents, Entries;
      ViewCount(kinds, nlinks, fs.Abs(), fs.layers, i, n);
      nlinks := nlinks[i := n];
    }

    /** `iput` (fs.c:336-362): the last holder of an inode without links frees it and its blocks. */
    method IPut(i: nat, last: bool)
      requires Sound() && 0 < i < |kinds|
      modifies this, fs
      ensures Sound() && View() == Put(old(View()), i, last)
      ensures SameBut(old(fs.Abs()), fs.Abs(), fs.layers, {i})
      ensures !(last && old(View())[i].nlink == 0) ==> fs.Abs() == old(fs.Abs())
    {
      hide F.DiskOk, F.FilesOk, F.Contents, Entries;
      SameNothing(fs.Abs(), fs.layers, {i});
      if last && nlinks[i] == 0 {
        ghost var d := fs.Abs();
        fs.Itrunc(i);
        ViewInode(kinds, nlinks, d, fs.Abs(), fs.layers, i, Free, 0);
        kinds, nlinks := kinds[i := Free], nlinks[i := 0];
      }
    }

    /** mkfs marks the root as a directory with one link. */
    method MakeRoot()
      requires Sound() && |kinds| > ROOT && kinds[ROOT].Free?
      modifies this
      ensures Sound() && View() == old(View())[ROOT := Inode(Dir, 1, [])]
    {
      hide F.DiskOk, F.FilesOk, F.Contents, Entries;
      EmptyContents(fs.Abs(), fs.layers, ROOT);
      SameNothing(fs.Abs(), fs.layers, {ROOT});
      ViewInode(kinds, nlinks, fs.Abs(), fs.Abs(), fs.layers, ROOT, Dir, 1);
      kinds, nlinks := kinds[ROOT := Dir], nlinks[ROOT := 1];
    }

    /** `sys_link` (sysfile.c:123-170): `ip` and `dp` are what the two paths lead to, 0 for nothing. */
    method Link(ip: nat, dp: nat, name: seq<T.Byte>, sameDev: bool) returns (ok: bool)
      requires Valid() && IsName(name) && (dp == 0 || IsDir(View(), dp))
      requires ip == 0 || (ip < |kinds| && (nlinks[ip] > 0 || kinds[ip].Dir?))
      modifies this, fs
      ensures Sound() && SameBut(old(fs.Abs()), fs.Abs(), fs.layers, {dp})
      ensures Valid() <==> (ok ==> old(View())[dp].nlink > 0 && old(View())[ip].nlink < MAXLINKS)
      ensures ok ==> Links(old(View()), ip, dp, Text(name), sameDev)
      ensures ok ==>
          View() == Narrow(AddLink(old(View()), dp, FirstEmpty(old(View())[dp].entries), Text(name), ip), ip)
      ensures !ok ==> View() == old(View())
      ensures !ok && Links(old(View()), ip, dp, Text(name), sameDev) ==>
          Refuses(fs, old(fs.Abs()), old(View())[dp].entries)
      ensures F.Took(old(fs.bitmap), fs.bitmap, Cost(fs.layers, old(View())[dp].entries))
    {
      hide F.DiskOk, F.FilesOk, F.Contents, Entries, Text, Inv, Absent, FirstEmpty, LiveDir, Refuses, SameBut, F.Took,
        Cost;
      SameNothing(fs.Abs(), fs.layers, {dp});
      RootThere(View());
      F.TookNone(fs.bitmap, Cost(fs.layers, View()[dp].entries));
      if ip == 0 {
        return false;
      }
      if kinds[ip].Dir? {
        return false;
      }
      LinkedIs(View(), ip);
      ghost var was := View();
      SetCount(ip, Short(nlinks[ip] + 1));
      if dp != 0 && sameDev {
        ok := DirLink(dp, name, ip);
        if ok {
          LinkDone(was, ip, dp, Text(name));
          return;
        }
      }
      SetCount(ip, Short(nlinks[ip] - 1));
      assert View() == was;
      return false;
    }

    /** The write of `sys_unlink` (sysfile.c:222-224): an entry is zeroed. */
    method ClearSlot(dp: nat, off: nat)
      requires Sound() && IsDir(View(), dp) && off < |View()[dp].entries|
      modifies fs
      ensures Sound() && SameBut(old(fs.Abs()), fs.Abs(), fs.layers, {dp})
      ensures View() == PutEntry(old(View()), dp, off, Entry(0, ""))
    {
      hide F.DiskOk, F.FilesOk, F.Contents, Entries;
      ghost var d := fs.Abs();
      DirSize(fs, dp);
      ClearEntry(fs, dp, off);
      SoundChanged(kinds, nlinks, d, fs.Abs(), fs.layers, dp);
      ViewEntry(kinds, nlinks, d, fs.Abs(), fs.layers, dp, off, Entry(0, ""));
    }

    /** `sys_unlink` (sysfile.c:188-243); `last` tells whether no one else holds the inode. */
    method Unlink(dp: nat, name: seq<T.Byte>, last: bool) returns (answer: Answer)
      requires Valid() && IsName(name) && (dp == 0 || IsDir(View(), dp))
      modifies this, fs
      ensures Valid() && answer != Panicked
      ensures answer != Done ==> View() == old(View()) && fs.Abs() == old(fs.Abs())
      ensures answer == Done ==> dp != 0 && Removed(old(View()), View(), dp, Text(name), last)
      ensures answer == Done <==>
          dp != 0 && Text(name) != "." && Text(name) != ".." && Removable(old(View()), dp, Text(name))
      ensures DataKept(old(View()), View(), old(fs.Abs()), fs.Abs(), fs.layers)
    {
      hide F.DiskOk, F.FilesOk, F.Contents, Entries, Text, Inv, Absent, LiveDir, EmptyDir, Unlinked, Removed, Removable,
        SameBut, DataKept, ViewOf, SoundOn, Shorts, Found;
      ghost var was, d := View(), fs.Abs();
      KeptBut(was, was, d, d, fs.layers, {});
      DotNames(name);
      if dp == 0 {
        return Refused;
      }
      if name == DOT || name == DOTDOT {
        return Refused;
      }
      var ip, off := DirLookup(dp, name);
      if ip == 0 {
        AbsentNotRemovable(was, dp, Text(name));
        return Refused;
      }
      FoundLive(was, dp, Text(name), off);
      FoundIs(was, dp, Text(name), off, ip);
      FoundAbove(was, dp, Text(name), off, ip);
      FieldsOf(kinds, nlinks, d, fs.layers, ip);
      FieldsOf(kinds, nlinks, d, fs.layers, dp);
      if nlinks[ip] < 1 {
        return Panicked;
      }
      if kinds[ip].Dir? {
        var empty := IsDirEmpty(ip);
        if !empty {
          FullNotRemovable(was, dp, Text(name), off, ip);
          return Refused;
        }
      }
      RemoveOk(was, dp, Text(name), off, ip, last);
      RemoveShorts(was, dp, off, ip, last);
      IsRemovable(was, dp, Text(name), off, ip);
      UnlinkedIs(was, dp, off, ip);
      ClearSlot(dp, off);
      ghost var cleared := fs.Abs();
      if kinds[ip].Dir? {
        SetCount(dp, nlinks[dp] - 1);
      }
      SetCount(ip, nlinks[ip] - 1);
      IPut(ip, last);
      SameMore(d, cleared, fs.Abs(), fs.layers, {dp}, {ip});
      RemovedData(was, View(), d, cleared, fs.Abs(), fs.layers, dp, ip);
      return Done;
    }

    /** The entries "." and ".." of a new directory (sysfile.c:278-282). */
    method LinkDots(ip: nat, dp: nat) returns (ok: bool)
      requires Sound() && 0 < ip < |kinds| && View()[ip] == Inode(Dir, 1, []) && dp < |kinds|
      modifies fs
      ensures Sound() && SameBut(old(fs.Abs()), fs.Abs(), fs.layers, {ip})
      ensures ok ==> View() == old(View())[ip := NewDir(ip, dp)]
      ensures !ok ==> exists es :: View() == old(View())[ip := Inode(Dir, 1, es)]
      ensures F.Took(old(fs.bitmap), fs.bitmap, 2 * F.PathLength(fs.layers, 0))
      ensures !ok ==> NoRoom(fs.bitmap, fs.layers, 0) || NoRoom(fs.bitmap, fs.layers, 1)
      ensures !ok && fs.layers < T.TOTBUF ==> NoRoom(old(fs.bitmap), fs.layers, 0) || NoRoom(fs.bitmap, fs.layers, 1)
    {
      hide F.DiskOk, F.FilesOk, F.Contents, Entries, Text, Absent, FirstEmpty, SameBut, NoRoom, F.PathLength;
      NoEntries();
      DotNames(DOT);
      DotNames(DOTDOT);
      ghost var d, v := fs.Abs(), View();
      ok := DirLink(ip, DOT, ip);
      ghost var e := fs.Abs();
      assert {ip} + {ip} == {ip};
      assert View() == v[ip := Inode(Dir, 1, View()[ip].entries)];
      if ok {
        assert View()[ip].entries == [Entry(ip, ".")];
        OneEntry(ip);
        ok := DirLink(ip, DOTDOT, dp);
        SameMore(d, e, fs.Abs(), fs.layers, {ip}, {ip});
        assert ok ==> View()[ip].entries == [Entry(ip, "."), Entry(dp, "..")];
        assert View() == v[ip := Inode(Dir, 1, View()[ip].entries)];
      }
    }

    /** `create` (sysfile.c:245-304).  A new directory is written before it is named, and nothing is left behind
        when that fails. */
    method Create(dp: nat, name: seq<T.Byte>, kind: Kind) returns (r: nat)
      requires Valid() && IsName(name) && !kind.Free? && (dp == 0 || IsDir(View(), dp))
      modifies this, fs
      ensures Sound()
      ensures Valid() <==>
          (r != 0 && Absent(old(View())[dp].entries, Text(name)) ==> Counted(kind, old(View())[dp].nlink))
      ensures r == 0 ==> View() == old(View())
      ensures r != 0 ==> dp != 0 && r < |View()| == |old(View())|
      ensures dp != 0 && !Absent(old(View())[dp].entries, Text(name)) ==>
          var es := old(View())[dp].entries;
          View() == old(View()) && r == if Opens(View(), es, Text(name), kind) then Lookup(es, Text(name)) else 0
      ensures r != 0 && Absent(old(View())[dp].entries, Text(name)) ==>
          && old(View())[r].kind.Free? && View() == Created(old(View()), dp, Text(name), kind, r)
          && (!kind.Dir? ==> F.Contents(fs.Abs(), fs.layers, r) == [])
          && F.Took(old(fs.bitmap), fs.bitmap, CreateCost(fs.layers, old(View())[dp].entries, kind))
      ensures dp != 0 && Absent(old(View())[dp].entries, Text(name)) && r == 0 ==>
          !HasFree(old(View())) || Crowded(old(fs.bitmap), fs.layers, old(View())[dp].entries, kind)
      ensures DataKept(old(View()), View(), old(fs.Abs()), fs.Abs(), fs.layers)
    {
      hide F.DiskOk, F.FilesOk, F.Contents, Entries, Text, Inv, Absent, SameBut, DataKept, ViewOf, SoundOn, Crowded,
        Shorts, Created;
      ghost var was, d := View(), fs.Abs();
      KeptBut(was, was, d, d, fs.layers, {});
      RootThere(was);
      if dp == 0 {
        return 0;
      }
      var ip, off := DirLookup(dp, name);
      if ip == 0 {
        r := Make(dp, name, kind);
        return;
      }
      ExistingIs(was, dp, off, ip);
      FieldsOf(kinds, nlinks, d, fs.layers, ip);
      if kind.File? && (kinds[ip].File? || kinds[ip].Device?) {
        return ip;
      }
      if kind.Symlink? && (kinds[ip].Symlink? || kinds[ip].Device?) {
        return ip;
      }
      return 0;
    }

    /** The rest of `create`, for a name that is not there (sysfile.c:267-303). */
    method Make(dp: nat, name: seq<T.Byte>, kind: Kind) returns (ip: nat)
      requires Valid() && IsName(name) && !kind.Free? && IsDir(View(), dp) && Absent(View()[dp].entries, Text(name))
      modifies this, fs
      ensures Sound() && (Valid() <==> (ip != 0 ==> Counted(kind, old(View())[dp].nlink)))
      ensures ip == 0 ==> View() == old(View())
      ensures ip == 0 ==> !HasFree(old(View())) || Crowded(old(fs.bitmap), fs.layers, old(View())[dp].entries, kind)
      ensures ip != 0 ==> ip < |View()| == |old(View())| && old(View())[ip].kind.Free?
      ensures ip != 0 ==> View() == Created(old(View()), dp, Text(name), kind, ip)
      ensures ip != 0 && !kind.Dir? ==> F.Contents(fs.Abs(), fs.layers, ip) == []
      ensures ip != 0 ==> F.Took(old(fs.bitmap), fs.bitmap, CreateCost(fs.layers, old(View())[dp].entries, kind))
      ensures DataKept(old(View()), View(), old(fs.Abs()), fs.Abs(), fs.layers)
    {
      hide F.DiskOk, F.FilesOk, F.Contents, Entries, Text, Inv, Absent, LiveDir, FirstEmpty, SameBut, DataKept, ViewOf,
        SoundOn, Refuses, Crowded, F.Took, Cost, NoRoom, F.PathLength, Shorts, Created, CreateCost;
      ghost var was, d := View(), fs.Abs();
      KeptBut(was, was, d, d, fs.layers, {});
      RootThere(was);
      ip := IAlloc(kind);
      if ip == 0 {
        return;
      }
      FreeIs(was, ip);
      FreeFile(old(kinds), old(nlinks), d, fs.layers, ip);
      SetCount(ip, 1);
      var ok := Enter(dp, name, kind, ip, was);
      if !ok {
        ghost var f := fs.Abs();
        SetCount(ip, 0);
        IPut(ip, true);
        SameMore(d, f, fs.Abs(), fs.layers, {ip} + {dp}, {ip});
        assert View() == was;
        KeptBut(was, was, d, fs.Abs(), fs.layers, {ip} + {dp} + {ip});
        return 0;
      }
      CreateOk(was, dp, Text(name), kind, ip);
      CreatedIs(was, dp, Text(name), kind, ip);
      FieldsOf(kinds, nlinks, fs.Abs(), fs.layers, dp);
      if kind.Dir? {
        SetCount(dp, Short(nlinks[dp] + 1));
      }
      KeptBut(was, View(), d, fs.Abs(), fs.layers, {ip} + {dp});
    }

    /** The new inode gets its entries, if it is a directory, and its name (sysfile.c:278-286). */
    method Enter(dp: nat, name: seq<T.Byte>, kind: Kind, ip: nat, ghost was: Inodes) returns (ok: bool)
      requires Sound() && IsName(name) && |was| == |kinds| && 0 < ip < |was| && IsDir(was, dp) && ip != dp
      requires Absent(was[dp].entries, Text(name)) && View() == was[ip := Inode(kind, 1, [])]
      modifies fs
      ensures Sound() && SameBut(old(fs.Abs()), fs.Abs(), fs.layers, {ip} + {dp})
      ensures ok ==> View() == PutEntry(was[ip := Fresh(kind, ip, dp)], dp, FirstEmpty(was[dp].entries),
                                        Entry(ip, Text(name)))
      ensures !ok ==> exists es :: View() == was[ip := Inode(kind, 1, es)]
      ensures !ok ==> Crowded(old(fs.bitmap), fs.layers, was[dp].entries, kind)
      ensures ok ==> F.Took(old(fs.bitmap), fs.bitmap, CreateCost(fs.layers, was[dp].entries, kind))
      ensures ok && !kind.Dir? ==> F.Contents(fs.Abs(), fs.layers, ip) == F.Contents(old(fs.Abs()), fs.layers, ip)
    {
      hide F.DiskOk, F.FilesOk, F.Contents, Entries, Text, Absent, FirstEmpty, SameBut, ViewOf, SoundOn, Refuses,
        Crowded, F.Took, Cost, NoRoom, F.PathLength, CreateCost;
      ghost var d := fs.Abs();
      SameNothing(d, fs.layers, {ip});
      ok := true;
      if kind.Dir? {
        ok := LinkDots(ip, dp);
      }
      ghost var e := fs.Abs();
      if ok {
        assert View() == was[ip := Fresh(kind, ip, dp)];
        FieldsOf(kinds, nlinks, e, fs.layers, ip);
        ok := DirLink(dp, name, ip);
        SameMore(d, e, fs.Abs(), fs.layers, {ip}, {dp});
        if !kind.Dir? { SameAt(d, fs.Abs(), fs.layers, {dp}, ip); }
        if ok { TookBoth(d.bitmap, e.bitmap, fs.bitmap, fs.layers, was[dp].entries, kind); }
      } else {
        SameNothing(e, fs.layers, {dp});
        SameMore(d, e, e, fs.layers, {ip}, {dp});
      }
      if !ok {
        CrowdedIs(fs, d, e, was[dp].entries, kind);
      }
    }
  }

  lemma FreeFile(kinds: seq<Kind>, nlinks: seq<int>, d: F.Disk, layers: nat, i: nat)
    requires SoundOn(kinds, nlinks, d) && i < |kinds| && ViewOf(kinds, nlinks, d, layers)[i].kind.Free?
    ensures F.Contents(d, layers, i) == []
  {
    EmptyContents(d, layers, i);
  }

  lemma FieldsOf(kinds: seq<Kind>, nlinks: seq<int>, d: F.Disk, layers: nat, i: nat)
    requires SoundOn(kinds, nlinks, d) && i < |kinds|
    ensures var v := ViewOf(kinds, nlinks, d, layers); v[i].kind == kinds[i] && v[i].nlink == nlinks[i]
    ensures |kinds| <= 0x1_0000
  {
  }

  lemma RootThere(v: Inodes)
    requires Inv(v)
    ensures |v| > ROOT
  {
  }

  /** Directories, new files and freed ones apart, nothing changed. */
  lemma KeptBut(v: Inodes, v': Inodes, d: F.Disk, e: F.Disk, layers: nat, which: set<nat>)
    requires |v'| == |v| == |d.inodes| == |e.inodes|
    requires d == e || SameBut(d, e, layers, which)
    requires forall n :: n in which && n < |v| ==> v[n].kind.Dir? || v[n].kind.Free? || v'[n].kind.Free?
    ensures DataKept(v, v', d, e, layers)
  {
    hide F.Contents;
  }

  lemma DotNames(name: seq<T.Byte>)
    ensures name == DOT <==> Text(name) == "."
    ensures name == DOTDOT <==> Text(name) == ".."
  {
    TextInjective(name, DOT);
    TextInjective(name, DOTDOT);
    assert Text(DOT) == "." && Text(DOTDOT) == "..";
  }

  /** The file that was removed keeps its bytes unless it is freed. */
  lemma RemovedData(v: Inodes, v': Inodes, d: F.Disk, cleared: F.Disk, e: F.Disk, layers: nat, dp: nat, ip: nat)
    requires |v'| == |v| == |d.inodes| == |e.inodes| && IsDir(v, dp) && SameBut(d, cleared, layers, {dp})
    requires SameBut(d, e, layers, {dp} + {ip}) && (e == cleared || (ip < |v'| && v'[ip].kind.Free?))
    ensures DataKept(v, v', d, e, layers)
  {
    if e == cleared {
      KeptBut(v, v', d, e, layers, {dp});
    } else {
      KeptBut(v, v', d, e, layers, {dp} + {ip});
    }
  }

  // ----- A new volume ------------------------------------------------------------------------------

  lemma {:induction false} FreeRange(bitmap: seq<bool>, meta: nat)
    requires meta <= |bitmap| && forall b :: 0 <= b < |bitmap| ==> (bitmap[b] <==> b < meta)
    ensures |F.FreeBlocks(bitmap)| == |bitmap| - meta
  {
    if meta < |bitmap| {
      var n := |bitmap| - 1;
      FreeRange(bitmap[..n], meta);
      assert F.FreeBlocks(bitmap) == F.FreeBlocks(bitmap[..n]) + {n};
    } else {
      assert F.FreeBlocks(bitmap) == {};
    }
  }

  lemma SpaceIn(layers: nat, k: nat)
    requires layers < T.TOTBUF && k < PERBLOCK
    ensures !NoSpace(layers, k) && F.PathLength(layers, 0) == 1
  {
  }

  /** A disk as mkfs leaves it: the root directory holds "." and "..". */
  method Format(layers: nat, nblocks: nat, meta: nat, n: nat) returns (vol: Volume)
    requires layers < T.TOTBUF && 0 < meta < nblocks <= T.UINT && ROOT < n <= 0x1_0000
    ensures fresh(vol) && fresh(vol.fs) && vol.Valid() && |vol.View()| == n && vol.fs.layers == layers
    ensures vol.View()[ROOT] == NewDir(ROOT, ROOT)
    ensures forall i :: 0 <= i < n && i != ROOT ==> vol.View()[i] == Inode(Free, 0, [])
    ensures |F.FreeBlocks(vol.fs.bitmap)| + 2 >= nblocks - meta
  {
    hide F.DiskOk, F.FilesOk, F.Contents, Entries, Text, NoSpace, F.PathLength, F.FreeBlocks, F.Full, T.MaxFile;
    var fs := new F.Fs.Mkfs(layers, nblocks, meta, n);
    FreeRange(fs.bitmap, meta);
    F.FullIs(fs.bitmap);
    vol := new Volume(fs, n);
    ghost var v := vol.View();
    assert vol.View()[ROOT].kind.Free?;
    vol.MakeRoot();
    SpaceIn(layers, 0);
    SpaceIn(layers, 1);
    var ok := vol.LinkDots(ROOT, ROOT);
    assert ok;
    NewVolume(vol.View());
  }
}
