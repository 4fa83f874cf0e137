/** Two runs of lab9 in which a link count comes to be wrong: a link made in a removed directory, and one link
    more than a `short` can count. */
module LinkLimits {
  import opened LinkCounts
  import opened LinkUpdates
  import opened LinkCalls
  import opened LinkRuns
  import opened DirectoryFiles
  import T = FileTree
  import F = FileSystem

  const A: seq<T.Byte> := [97]
  const B: seq<T.Byte> := [102]
  const X: seq<T.Byte> := [120]

  lemma Letters()
    ensures Text(A) == "a" && Text(B) == "f" && Text(X) == "x" && IsName(A) && IsName(B) && IsName(X)
  {
  }

  /** On the disks below there is room for every entry. */
  lemma NotCrowded(bitmap: seq<bool>, entries: seq<Entry>, kind: Kind)
    requires |F.FreeBlocks(bitmap)| > 9 && |entries| < 0x1_0000
    ensures !Crowded(bitmap, 2, entries, kind) && CreateCost(2, entries, kind) <= 9
  {
    hide F.FreeBlocks;
    SmallEntries(|entries|);
    SmallEntries(1);
  }

  lemma SmallEntries(k: nat)
    requires k < 0x1_0000
    ensures !NoSpace(2, k)
  {
    assert T.Pow(1) == 256 && T.Pow(2) == 256 * T.Pow(1);
    assert T.Capacity(2, 2) == 0 && T.Capacity(2, 1) == T.Pow(2) && T.Capacity(2, 0) == T.Pow(1) + T.Pow(2);
    assert T.MaxFile(2) == 11 + 256 + 65536;
  }

  // ----- A removed directory ------------------------------------------------------------------------

  /** The root holds the file `f` under "f", and nothing else is in use. */
  predicate FileMade(v: Inodes, f: nat) {
    && |v| == 5 && 1 < f < 5 && v[ROOT].kind.Dir? && v[ROOT].nlink == 1 && v[f] == Inode(File, 1, [])
    && v[ROOT].entries == [Entry(ROOT, "."), Entry(ROOT, ".."), Entry(f, "f")]
    && forall i :: 0 <= i < 5 && i != ROOT && i != f ==> v[i].kind.Free?
  }

  /** ... and then also the empty directory `d` under "a". */
  predicate DirMade(v: Inodes, f: nat, d: nat) {
    && |v| == 5 && 1 < f < 5 && 1 < d < 5 && d != f && v[ROOT].kind.Dir? && v[ROOT].nlink == 2
    && v[f] == Inode(File, 1, []) && v[d] == NewDir(d, ROOT)
    && v[ROOT].entries == [Entry(ROOT, "."), Entry(ROOT, ".."), Entry(f, "f"), Entry(d, "a")]
  }

  lemma FileIsMade(v: Inodes, f: nat)
    requires |v| == 5 && v[ROOT] == NewDir(ROOT, ROOT)
    requires forall i :: 0 <= i < 5 && i != ROOT ==> v[i] == Inode(Free, 0, [])
    ensures Absent(v[ROOT].entries, "f") && HasFree(v)
    ensures 1 < f < 5 ==> FileMade(Created(v, ROOT, "f", File, f), f)
  {
    FirstEmptyIs(v[ROOT].entries, 2);
    assert v[2].kind.Free?;
  }

  lemma DirIsMade(v: Inodes, f: nat, d: nat)
    requires FileMade(v, f)
    ensures Absent(v[ROOT].entries, "a") && HasFree(v)
    ensures d < 5 && d != ROOT && d != f && d != 0 ==> DirMade(Created(v, ROOT, "a", Dir, d), f, d)
  {
    FirstEmptyIs(v[ROOT].entries, 3);
    assert v[if f == 2 then 3 else 2].kind.Free?;
  }

  lemma DirIsRemoved(v: Inodes, f: nat, d: nat, v': Inodes)
    requires Inv(v) && DirMade(v, f, d)
    ensures Removable(v, ROOT, "a")
    ensures Removed(v, v', ROOT, "a", false) ==>
      |v'| == 5 && v'[d] == Inode(Dir, 0, [Entry(d, "."), Entry(ROOT, "..")]) && v'[f] == v[f]
  {
    hide Inv;
    assert Found(v, ROOT, "a", 3, d);
    if Removed(v, v', ROOT, "a", false) {
      var k, t: nat :| Found(v, ROOT, "a", k, t) && t < |v| && v' == Put(Unlinked(v, ROOT, k, t), t, false);
      FoundOnce(v, ROOT, "a", k, t, 3, d);
    }
  }

  /** A process stays in a directory that another removes: a link made there is counted and leads nowhere. */
  method LinkInRemoved() returns (vol: Volume, ghost v: Inodes, f: nat, d: nat)
    ensures Inv(v) && IsDir(v, d) && v[d].nlink == 0 && f < |v| && v[f] == Inode(File, 1, [])
    ensures Absent(v[d].entries, "x") && fresh(vol) && vol.Sound() && !vol.Valid()
    ensures vol.View() == AddLink(v, d, FirstEmpty(v[d].entries), "x", f)
  {
    hide Inv, Absent, FirstEmpty, Created, Removed, Removable, HasFree, SoundOn, ViewOf, F.DiskOk, F.FilesOk, Text,
      Crowded, CreateCost, F.FreeBlocks, NoSpace, DataKept, SameBut;
    Letters();
    vol := Format(2, 2000, 70, 5);
    ghost var v0 := vol.View();
    FileIsMade(v0, 0);
    NotCrowded(vol.fs.bitmap, v0[ROOT].entries, File);
    f := vol.Create(ROOT, B, File);
    FileIsMade(v0, f);
    ghost var v1 := vol.View();
    DirIsMade(v1, f, 0);
    NotCrowded(vol.fs.bitmap, v1[ROOT].entries, Dir);
    d := vol.Create(ROOT, A, Dir);
    DirIsMade(v1, f, d);
    ghost var v2 := vol.View();
    DirIsRemoved(v2, f, d, v2);
    var _ := vol.Unlink(ROOT, A, false);
    v := vol.View();
    DirIsRemoved(v2, f, d, v);
    LinkLost(v, f, d);
    FitsShort(AddLink(v, d, FirstEmpty(v[d].entries), "x", f), f);
    RemovedHasRoom(v[d].entries, d);
    FieldsOf(vol.kinds, vol.nlinks, vol.fs.Abs(), vol.fs.layers, f);
    var ok := vol.Link(f, d, X, true);
  }

  lemma RemovedHasRoom(entries: seq<Entry>, d: nat)
    requires d != 0 && entries == [Entry(d, "."), Entry(ROOT, "..")]
    ensures FirstEmpty(entries) == 2 && forall bitmap :: !NoRoom(bitmap, 2, 2)
  {
    FirstEmptyIs(entries, 2);
    SmallEntries(2);
  }

  lemma LinkLost(v: Inodes, f: nat, d: nat)
    requires Inv(v) && f < |v| && d < |v| && v[f] == Inode(File, 1, [])
    requires v[d].kind.Dir? && v[d].nlink == 0 && v[d].entries == [Entry(d, "."), Entry(ROOT, "..")]
    ensures Absent(v[d].entries, "x") && !Inv(AddLink(v, d, FirstEmpty(v[d].entries), "x", f))
  {
    LinkedIs(v, f);
    AddLinkExact(v, d, FirstEmpty(v[d].entries), "x", f);
  }

  // ----- One link too many --------------------------------------------------------------------------

  /** File names: "0", "1" and so on. */
  function Digits(n: nat): (r: seq<T.Byte>)
    ensures |r| > 0 && forall i :: 0 <= i < |r| ==> 48 <= r[i] < 58
    ensures (n < 10 ==> |r| <= 1) && (n < 100 ==> |r| <= 2) && (n < 1000 ==> |r| <= 3) && (n < 10000 ==> |r| <= 4)
    ensures n < 100000 ==> |r| <= 5
  {
    if n < 10 then [48 + n] else Digits(n / 10) + [48 + n % 10]
  }

  lemma {:induction false} DigitsDiffer(m: nat, n: nat)
    requires Digits(m) == Digits(n)
    ensures m == n
  {
    var s, t := Digits(m), Digits(n);
    var k := |s| - 1;
    assert s[k] == 48 + m % 10 && t[k] == 48 + n % 10;
    if m >= 10 && n >= 10 {
      assert s[..k] == Digits(m / 10) && t[..k] == Digits(n / 10);
      DigitsDiffer(m / 10, n / 10);
    }
  }

  /** What the root names are "f" and the first `n` numbers, besides itself. */
  predicate NamedUpTo(entries: seq<Entry>, n: nat) {
    forall k :: 0 <= k < |entries| ==>
      entries[k].name in {".", "..", "f"} || exists j: nat :: j < n && entries[k].name == Text(Digits(j))
  }

  lemma NextAbsent(entries: seq<Entry>, n: nat, f: nat)
    requires NamedUpTo(entries, n)
    ensures Absent(entries, Text(Digits(n))) && (n < 100000 ==> IsName(Digits(n)))
    ensures NamedUpTo(SetSlot(entries, FirstEmpty(entries), Entry(f, Text(Digits(n)))), n + 1)
    ensures |SetSlot(entries, FirstEmpty(entries), Entry(f, Text(Digits(n))))| <= |entries| + 1
  {
    forall k | 0 <= k < |entries| ensures entries[k].name != Text(Digits(n)) {
      if entries[k].name in {".", "..", "f"} {
        assert Text(Digits(n))[0] == Digits(n)[0] as char;
      } else {
        var j: nat :| j < n && entries[k].name == Text(Digits(j));
        TextInjective(Digits(j), Digits(n));
        if Digits(j) == Digits(n) { DigitsDiffer(j, n); }
      }
    }
    hide FirstEmpty;
  }

  /** The 32768th link to a file makes its count negative. */
  method OneLinkTooMany() returns (vol: Volume, f: nat)
    ensures fresh(vol) && vol.Sound() && f < |vol.View()| && vol.View()[f].nlink == -MAXLINKS - 1 && !vol.Valid()
  {
    hide Inv, Absent, FirstEmpty, Created, HasFree, NamedUpTo, SoundOn, ViewOf, F.DiskOk, F.FilesOk, Text, Crowded,
      CreateCost, Cost, F.FreeBlocks, NoSpace, DataKept, SameBut, Refuses;
    Letters();
    vol := Format(2, 200000, 70, 5);
    ghost var v0 := vol.View();
    FileIsMade(v0, 0);
    NotCrowded(vol.fs.bitmap, v0[ROOT].entries, File);
    f := vol.Create(ROOT, B, File);
    FileIsMade(v0, f);
    RootNames(vol.View(), f);
    var n := 0;
    while n < MAXLINKS
      invariant 0 <= n <= MAXLINKS && fresh(vol) && fresh(vol.fs) && vol.Sound() && f < |vol.View()| && ROOT != f
      invariant IsDir(vol.View(), ROOT) && vol.View()[ROOT].nlink == 1 && vol.View()[f].kind.File?
      invariant NamedUpTo(vol.View()[ROOT].entries, n) && |vol.View()[ROOT].entries| <= n + 3 && vol.fs.layers == 2
      invariant vol.View()[f].nlink == Short(n + 1) && (vol.Valid() <==> n < MAXLINKS)
      invariant |F.FreeBlocks(vol.fs.bitmap)| + 3 * n + 11 >= 199930
    {
      ghost var es := vol.View()[ROOT].entries;
      NextAbsent(es, n, f);
      FieldsOf(vol.kinds, vol.nlinks, vol.fs.Abs(), vol.fs.layers, f);
      ghost var was, before := vol.fs.Abs(), vol.fs.bitmap;
      var ok := vol.Link(f, ROOT, Digits(n), true);
      RoomLeft(vol.fs, was, es);
      n := n + 1;
    }
  }

  lemma RoomLeft(fs: F.Fs, was: F.Disk, entries: seq<Entry>)
    requires fs.layers == 2 && |entries| < 0x1_0000 && F.Took(was.bitmap, fs.bitmap, Cost(2, entries))
    ensures Cost(2, entries) <= 3
    ensures |F.FreeBlocks(was.bitmap)| > 3 ==> !Refuses(fs, was, entries)
  {
    SmallEntries(|entries|);
    F.FullIs(fs.bitmap);
    hide F.FreeBlocks, NoSpace;
  }

  lemma RootNames(v: Inodes, f: nat)
    requires FileMade(v, f)
    ensures NamedUpTo(v[ROOT].entries, 0) && |v[ROOT].entries| == 3
  {
  }

}
