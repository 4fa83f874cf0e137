/** Directories of lab9/kernel/fs.c as files of 16-byte entries: `dirlookup`, `dirlink` and the writes of
    `sys_unlink` do to the bytes what LinkCounts and LinkUpdates say of lists of entries. */
module DirectoryFiles {
  import opened FileTree
  import opened FileSystem
  import L = LinkCounts
  import C = LinkUpdates

  const DIRSIZ: nat := 14
  const DIRENT: nat := 16   // sizeof(struct dirent)

  // ----- Entries as bytes ------------------------------------------------------------------------

  /** The C string in a buffer. */
  function CString(b: seq<Byte>): (r: seq<Byte>)
    ensures |r| <= |b| && 0 !in r && r == b[..|r|] && (|r| < |b| ==> b[|r|] == 0)
  {
    if b == [] || b[0] == 0 then [] else [b[0]] + CString(b[1..])
  }

  function Text(b: seq<Byte>): string {
    seq(|b|, i requires 0 <= i < |b| => b[i] as char)
  }

  lemma TextInjective(a: seq<Byte>, b: seq<Byte>)
    ensures Text(a) == Text(b) <==> a == b
  {
    if Text(a) == Text(b) {
      assert |a| == |Text(a)| == |b|;
      forall i | 0 <= i < |a| ensures a[i] == b[i] {
        assert Text(a)[i] == Text(b)[i];
      }
    }
  }

  /** A file name as `skipelem` hands it over. */
  predicate IsName(name: seq<Byte>) { |name| <= DIRSIZ && 0 !in name }

  function Decode(de: seq<Byte>): L.Entry
    requires |de| == DIRENT
  {
    L.Entry(de[0] as nat + 256 * de[1] as nat, Text(CString(de[2..])))
  }

  /** The 16 bytes of an entry: the number, the lower byte first, and the name, filled up with NULs. */
  lemma EntryBytes(inum: nat, name: seq<Byte>, i: nat)
    requires |name| <= DIRSIZ && inum < 0x1_0000 && i < DIRSIZ
    ensures var de := Encode(inum, name);
      |de| == 16 && de[0] as nat + 256 * de[1] as nat == inum && de[2 + i] == if i < |name| then name[i] else 0
  {
  }

  lemma {:induction false} CStringIs(b: seq<Byte>, n: nat)
    requires n <= |b| && 0 !in b[..n] && (n < |b| ==> b[n] == 0)
    ensures CString(b) == b[..n]
  {
    if n > 0 {
      assert b[0] == b[..n][0] && b[1..][..n - 1] == b[..n][1..];
      CStringIs(b[1..], n - 1);
    }
  }

  /** `strncpy` fills the name with NULs; the number is a ushort. */
  function Encode(inum: nat, name: seq<Byte>): (r: seq<Byte>)
    requires |name| <= DIRSIZ
    ensures |r| == DIRENT
  {
    [inum % 256, inum / 256 % 256] + name + seq(DIRSIZ - |name|, i => 0)
  }

  lemma {:induction false} CStringPadded(name: seq<Byte>, n: nat)
    requires 0 !in name
    ensures CString(name + seq(n, i => 0)) == name
  {
    var b: seq<Byte> := name + seq(n, i => 0);
    if name == [] {
      assert n > 0 ==> b[0] == 0;
    } else {
      assert b[0] == name[0] && b[0] in name;
      assert b[1..] == name[1..] + seq(n, i => 0);
      CStringPadded(name[1..], n);
    }
  }

  lemma EncodeDecode(inum: nat, name: seq<Byte>)
    requires IsName(name)
    ensures Decode(Encode(inum, name)) == L.Entry(inum % 0x10000, Text(name))
  {
    hide Text, CString;
    var e := Encode(inum, name);
    assert e[2..] == name + seq(DIRSIZ - |name|, i => 0);
    CStringPadded(name, DIRSIZ - |name|);
    TwoBytes(inum);
  }

  lemma TwoBytes(n: nat)
    ensures n % 256 + 256 * (n / 256 % 256) == n % 0x10000
  {
    var q, r := n / 256, n % 256;
    var s, t := q / 256, q % 256;
    assert n == 256 * q + r && q == 256 * s + t;
    Remainder(n, s, 256 * t + r);
  }

  lemma Remainder(n: nat, s: nat, x: nat)
    requires n == 0x10000 * s + x && x < 0x10000
    ensures n % 0x10000 == x
  {
  }

  /** The entries of a directory with these contents. */
  function Entries(bytes: seq<Byte>): (r: seq<L.Entry>)
    ensures |r| == |bytes| / DIRENT
  {
    seq(|bytes| / DIRENT, k requires 0 <= k < |bytes| / DIRENT => Decode(bytes[k * DIRENT..k * DIRENT + DIRENT]))
  }

  lemma SplicedAt(s: seq<Byte>, off: nat, de: seq<Byte>)
    requires off <= |s|
    ensures |Spliced(s, off, de)| == if off + |de| < |s| then |s| else off + |de|
    ensures forall i :: 0 <= i < |Spliced(s, off, de)| ==>
              Spliced(s, off, de)[i] == if off <= i < off + |de| then de[i - off] else s[i]
  {
  }

  /** Writing 16 bytes at a multiple of 16 sets one entry, or adds one. */
  lemma EntriesSplice(s: seq<Byte>, k: nat, de: seq<Byte>)
    requires |s| % DIRENT == 0 && k * DIRENT <= |s| && |de| == DIRENT
    ensures k <= |Entries(s)| && |Spliced(s, k * DIRENT, de)| % DIRENT == 0
    ensures Entries(Spliced(s, k * DIRENT, de)) == L.SetSlot(Entries(s), k, Decode(de))
  {
    var t := Spliced(s, k * DIRENT, de);
    SplicedAt(s, k * DIRENT, de);
    var a, b := Entries(t), L.SetSlot(Entries(s), k, Decode(de));
    assert |a| == |b|;
    forall j | 0 <= j < |a| ensures a[j] == b[j] {
      var piece := t[j * DIRENT..j * DIRENT + DIRENT];
      if j == k {
        assert piece == de;
      } else {
        assert piece == s[j * DIRENT..j * DIRENT + DIRENT];
      }
    }
  }

  // ----- strncmp -----------------------------------------------------------------------------------

  function CharAt(s: seq<Byte>, i: nat): Byte { if i < |s| then s[i] else 0 }

  /** `namecmp`: `strncmp` of a name and the name field of an entry. */
  method NameCmp(s: seq<Byte>, t: seq<Byte>) returns (r: int)
    requires IsName(s) && |t| == DIRSIZ
    ensures r == 0 <==> s == CString(t)
    ensures r != 0 ==> exists i :: 0 <= i < DIRSIZ && i <= |s| && s[..i] == t[..i] && r == CharAt(s, i) - t[i]
  {
    var i := 0;
    while i < DIRSIZ && CharAt(s, i) != 0 && CharAt(s, i) == t[i]
      invariant 0 <= i <= DIRSIZ && i <= |s| && s[..i] == t[..i]
    {
      i := i + 1;
    }
    assert 0 !in t[..i];
    if i == DIRSIZ {
      r := 0;
      CStringIs(t, DIRSIZ);
    } else {
      r := CharAt(s, i) - t[i];
      if r == 0 {
        CStringIs(t, i);
      } else {
        assert s != CString(t);
      }
    }
  }

  // ----- dirlookup and dirlink -----------------------------------------------------------------------

  /** A directory file: whole entries only. */
  ghost predicate IsDirFile(fs: Fs, dp: nat)
    reads fs
  {
    fs.ValidFiles() && dp < |fs.inodes| && fs.inodes[dp].size % DIRENT == 0
  }

  ghost function Dir(fs: Fs, dp: nat): seq<L.Entry>
    requires dp < |fs.inodes|
    reads fs
  {
    Entries(Contents(fs.Abs(), fs.layers, dp))
  }

  /** The 16 bytes `readi` delivers for entry `k`: all of them, so the panics are unreachable. */
  method ReadEntry(fs: Fs, dp: nat, k: nat) returns (de: seq<Byte>)
    requires IsDirFile(fs, dp) && k * DIRENT < fs.inodes[dp].size
    modifies fs
    ensures fs.ValidFiles() && fs.Abs() == old(fs.Abs())
    ensures |de| == DIRENT && k < |Dir(fs, dp)| && Decode(de) == Dir(fs, dp)[k]
  {
    hide DiskOk, ByteOf;
    SizeSmall(fs.Abs(), fs.layers, dp);
    var r;
    r, de := fs.Readi(dp, k * DIRENT, DIRENT, DIRENT);
  }

  lemma SizeSmall(d: Disk, layers: nat, n: nat)
    requires FilesOk(d, layers) && n < |d.inodes|
    ensures d.inodes[n].size < UINT && |Contents(d, layers, n)| == d.inodes[n].size
    ensures layers <= TOTBUF && d.inodes[n].size <= MaxFile(layers) * BSIZE
  {
  }

  /** `dirlookup` (fs.c:563-587): the number and the place of the first entry of that name, or 0. */
  method DirLookup(fs: Fs, dp: nat, name: seq<Byte>) returns (inum: nat, k: nat)
    requires IsDirFile(fs, dp) && IsName(name)
    modifies fs
    ensures fs.ValidFiles() && fs.Abs() == old(fs.Abs())
    ensures inum == 0 <==> L.Absent(Dir(fs, dp), Text(name))
    ensures inum != 0 ==>
        k < |Dir(fs, dp)| && Dir(fs, dp)[k] == L.Entry(inum, Text(name)) && L.Absent(Dir(fs, dp)[..k], Text(name))
  {
    hide DiskOk, FilesOk, Entries, Text, CString;
    k := 0;
    ghost var es := Dir(fs, dp);
    DirSize(fs, dp);
    while k * DIRENT < fs.inodes[dp].size
      invariant fs.ValidFiles() && fs.Abs() == old(fs.Abs()) && k <= |es| && Dir(fs, dp) == es
      invariant L.Absent(es[..k], Text(name))
      decreases |es| - k
    {
      var de := ReadEntry(fs, dp, k);
      if de[0] != 0 || de[1] != 0 {
        var c := NameCmp(name, de[2..]);
        TextInjective(name, CString(de[2..]));
        if c == 0 {
          return de[0] as nat + 256 * de[1] as nat, k;
        }
      }
      k := k + 1;
    }
    assert es[..k] == es;
    return 0, k;
  }

  lemma DirSize(fs: Fs, dp: nat)
    requires IsDirFile(fs, dp)
    ensures |Dir(fs, dp)| * DIRENT == fs.inodes[dp].size
  {
  }

  /** The `writei` of an entry: all of it, or nothing because no block is left or the file is at its limit. */
  method WriteEntry(fs: Fs, dp: nat, k: nat, de: seq<Byte>) returns (ok: bool)
    requires IsDirFile(fs, dp) && k * DIRENT <= fs.inodes[dp].size && |de| == DIRENT
    modifies fs
    ensures IsDirFile(fs, dp) && |fs.inodes| == |old(fs.inodes)|
    ensures k <= |old(Dir(fs, dp))|
      && Dir(fs, dp) == if ok then L.SetSlot(old(Dir(fs, dp)), k, Decode(de)) else old(Dir(fs, dp))
    ensures !ok ==> k == |old(Dir(fs, dp))| && NoRoom(fs.bitmap, fs.layers, k)
    ensures Took(old(fs.bitmap), fs.bitmap, PathLength(fs.layers, k / PERBLOCK))
    ensures !ok && k / PERBLOCK < TOTBUF - fs.layers ==> NoRoom(old(fs.bitmap), fs.layers, k)
    ensures SameOthers(old(fs.Abs()), fs.Abs(), fs.layers, dp)
  {
    hide DiskOk, FilesOk, ByteOf, Spliced, Contents, Entries, NoSpace, SameOthers, Full, Took, PathLength;
    EntryInBlock(k);
    ghost var s := Contents(fs.Abs(), fs.layers, dp);
    SizeSmall(fs.Abs(), fs.layers, dp);
    DirSize(fs, dp);
    EntriesSplice(s, k, de);
    NothingSpliced(s, k * DIRENT);
    var tot, put := fs.Writei(dp, k * DIRENT, de, DIRENT, false);
    ok := tot == DIRENT;
    assert tot <= 0 || tot == DIRENT by {
      if 0 < tot < DIRENT { NoPartOfEntry(k, tot); }
    }
    assert tot == DIRENT ==> de[..tot] == de;
    assert tot == 0 ==> de[..tot] == [];
    SizeSmall(fs.Abs(), fs.layers, dp);
    OthersSame(old(fs.Abs()), fs.Abs(), fs.layers, dp);
    NoSpaceIs(fs.layers, k);
  }

  lemma OthersSame(d: Disk, e: Disk, layers: nat, dp: nat)
    requires |e.inodes| == |d.inodes| && forall n :: 0 <= n < |e.inodes| && n != dp ==>
      e.inodes[n] == d.inodes[n] && Contents(e, layers, n) == Contents(d, layers, n)
    ensures SameOthers(d, e, layers, dp)
  {
  }

  lemma NoSpaceIs(layers: nat, k: nat)
    ensures NoSpace(layers, k) <==>
        k * DIRENT + DIRENT >= UINT || (layers <= TOTBUF && k * DIRENT + DIRENT > MaxFile(layers) * BSIZE)
  {
  }

  /** A file cannot hold entry `k`. */
  ghost predicate NoSpace(layers: nat, k: nat) {
    k * DIRENT + DIRENT >= UINT || (layers <= TOTBUF && k * DIRENT + DIRENT > MaxFile(layers) * BSIZE)
  }

  const PERBLOCK: nat := 64   // entries in a block

  /** Entry `k` cannot be added: the file is at its limit, or no block is left to begin with it. */
  ghost predicate NoRoom(bitmap: seq<bool>, layers: nat, k: nat) {
    NoSpace(layers, k) || (k % PERBLOCK == 0 && Full(bitmap))
  }

  lemma EntryInBlock(k: nat)
    ensures k * DIRENT / BSIZE == k / PERBLOCK && InBlock(k * DIRENT, DIRENT)
    ensures k % PERBLOCK == 0 <==> k * DIRENT % BSIZE == 0
  {
    assert k == PERBLOCK * (k / PERBLOCK) + k % PERBLOCK;
    assert k * DIRENT == BSIZE * (k / PERBLOCK) + DIRENT * (k % PERBLOCK);
    DivMod(k * DIRENT, k / PERBLOCK, DIRENT * (k % PERBLOCK));
  }

  lemma NoPartOfEntry(k: nat, n: nat)
    requires 0 < n < DIRENT
    ensures (k * DIRENT + n) % BSIZE != 0
  {
    EntryRest(k, n);
    BlockRest(k * DIRENT + n);
  }

  lemma EntryRest(k: nat, n: nat)
    requires n < DIRENT
    ensures (k * DIRENT + n) % DIRENT == n
  {
  }

  lemma BlockRest(x: nat)
    ensures x % BSIZE == 0 ==> x % DIRENT == 0
  {
    assert BSIZE == 64 * DIRENT;
    assert x % BSIZE == 0 ==> x == DIRENT * (64 * (x / BSIZE));
  }

  lemma DivMod(x: nat, q: nat, r: nat)
    requires x == BSIZE * q + r && r < BSIZE
    ensures x / BSIZE == q && x % BSIZE == r
  {
  }

  ghost predicate SameOthers(d: Disk, e: Disk, layers: nat, dp: nat) {
    |e.inodes| == |d.inodes| && forall n :: 0 <= n < |d.inodes| && n != dp ==>
      e.inodes[n] == d.inodes[n] && Contents(e, layers, n) == Contents(d, layers, n)
  }

  lemma NothingSpliced(s: seq<Byte>, off: nat)
    requires off <= |s|
    ensures Spliced(s, off, []) == s
  {
  }

  /** `dirlink` (fs.c:591-618) puts the entry into the first empty slot, or behind the last.  Anything
      else it leaves alone, and it fails only for a name that is there or for want of space. */
  method DirLink(fs: Fs, dp: nat, name: seq<Byte>, inum: nat) returns (ok: bool)
    requires IsDirFile(fs, dp) && IsName(name)
    modifies fs
    ensures IsDirFile(fs, dp) && |fs.inodes| == |old(fs.inodes)|
    ensures ok ==> L.Absent(old(Dir(fs, dp)), Text(name))
    ensures var es := old(Dir(fs, dp));
      Dir(fs, dp) == if ok then L.SetSlot(es, C.FirstEmpty(es), L.Entry(inum % 0x10000, Text(name))) else es
    ensures !ok && L.Absent(old(Dir(fs, dp)), Text(name)) ==>
        C.FirstEmpty(old(Dir(fs, dp))) == |old(Dir(fs, dp))| && NoRoom(fs.bitmap, fs.layers, |old(Dir(fs, dp))|)
    ensures !ok && L.Absent(old(Dir(fs, dp)), Text(name)) && |old(Dir(fs, dp))| / PERBLOCK < TOTBUF - fs.layers ==>
        NoRoom(old(fs.bitmap), fs.layers, |old(Dir(fs, dp))|)
    ensures Took(old(fs.bitmap), fs.bitmap, PathLength(fs.layers, C.FirstEmpty(old(Dir(fs, dp))) / PERBLOCK))
    ensures SameOthers(old(fs.Abs()), fs.Abs(), fs.layers, dp)
  {
    hide DiskOk, FilesOk, Entries, Text, CString, Contents, NoRoom, Encode, Decode, Took, PathLength, SameOthers;
    TookNone(fs.bitmap, PathLength(fs.layers, C.FirstEmpty(Dir(fs, dp)) / PERBLOCK));
    OthersSame(fs.Abs(), fs.Abs(), fs.layers, dp);
    ghost var es := Dir(fs, dp);
    DirSize(fs, dp);
    var there, at := DirLookup(fs, dp, name);
    if there != 0 {
      return false;
    }
    var k := 0;
    while k * DIRENT < fs.inodes[dp].size
      invariant fs.ValidFiles() && fs.Abs() == old(fs.Abs()) && k <= |es| && Dir(fs, dp) == es
      invariant forall j :: 0 <= j < k ==> es[j].inum != 0
      decreases |es| - k
    {
      var de := ReadEntry(fs, dp, k);
      DecodedNumber(de);
      if de[0] == 0 && de[1] == 0 {
        break;
      }
      k := k + 1;
    }
    C.FirstEmptyIs(es, k);
    EncodeDecode(inum, name);
    ok := WriteEntry(fs, dp, k, Encode(inum, name));
  }

  lemma DecodedNumber(de: seq<Byte>)
    requires |de| == DIRENT
    ensures Decode(de).inum == 0 <==> de[0] == 0 && de[1] == 0
  {
  }

  /** The write of `sys_unlink` (sysfile.c:222-224) zeroes an entry; it cannot fail. */
  method ClearEntry(fs: Fs, dp: nat, k: nat)
    requires IsDirFile(fs, dp) && k * DIRENT < fs.inodes[dp].size
    modifies fs
    ensures IsDirFile(fs, dp) && k < |old(Dir(fs, dp))|
    ensures Dir(fs, dp) == L.SetSlot(old(Dir(fs, dp)), k, L.Entry(0, ""))
    ensures SameOthers(old(fs.Abs()), fs.Abs(), fs.layers, dp)
  {
    hide DiskOk, FilesOk, Entries, Contents;
    DirSize(fs, dp);
    var de: seq<Byte> := seq(DIRENT, i => 0);
    assert Decode(de) == L.Entry(0, "") by {
      CStringIs(de[2..], 0);
    }
    var _ := WriteEntry(fs, dp, k, de);
  }

  /** `isdirempty` (sysfile.c:173-186). */
  method IsDirEmpty(fs: Fs, dp: nat) returns (empty: bool)
    requires IsDirFile(fs, dp)
    modifies fs
    ensures fs.ValidFiles() && fs.Abs() == old(fs.Abs())
    ensures empty <==> L.EmptyDir(Dir(fs, dp))
  {
    hide DiskOk, FilesOk, Entries, Contents;
    ghost var es := Dir(fs, dp);
    DirSize(fs, dp);
    var k := 2;
    while k * DIRENT < fs.inodes[dp].size
      invariant fs.ValidFiles() && fs.Abs() == old(fs.Abs()) && Dir(fs, dp) == es
      invariant forall j :: 2 <= j < k && j < |es| ==> es[j].inum == 0
      decreases |es| - k
    {
      var de := ReadEntry(fs, dp, k);
      DecodedNumber(de);
      if de[0] != 0 || de[1] != 0 {
        return false;
      }
      k := k + 1;
    }
    return true;
  }
}
