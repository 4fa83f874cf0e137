/** Runs of create, link, unlink, iput, readi and writei on a disk, with the references that processes hold on
    inodes. */
module LinkRuns {
  import opened LinkCounts
  import opened LinkUpdates
  import opened LinkCalls
  import opened DirectoryFiles
  import T = FileTree
  import F = FileSystem

  datatype Op =
    | OpCreate(dp: nat, name: seq<T.Byte>, kind: Kind)
    | OpLink(ip: nat, dp: nat, name: seq<T.Byte>, sameDev: bool)
    | OpUnlink(dp: nat, name: seq<T.Byte>)
    | OpHold(i: nat)                                 // a process opens the inode or goes there
    | OpPut(i: nat)                                  // and lets go of it
    | OpWrite(i: nat, off: nat, src: seq<T.Byte>)
    | OpRead(i: nat, off: nat, n: nat)

  /** Whether the call did what it was asked, and the bytes that were read or written. */
  datatype Res = Res(done: bool, bytes: seq<T.Byte>)

  /** What paths lead to: directories, linked or removed, and files that are linked; offsets are 32-bit numbers. */
  predicate Leads(v: Inodes, op: Op) {
    match op
    case OpCreate(dp, name, kind) => IsName(name) && !kind.Free? && (dp == 0 || IsDir(v, dp))
    case OpLink(ip, dp, name, _) =>
      && IsName(name) && (dp == 0 || IsDir(v, dp))
      && (ip == 0 || (ip < |v| && (v[ip].nlink > 0 || v[ip].kind.Dir?)))
    case OpUnlink(dp, name) => IsName(name) && (dp == 0 || IsDir(v, dp))
    case OpHold(i) => 0 < i < |v| && !v[i].kind.Free?
    case OpPut(i) => 0 < i < |v|
    case OpWrite(i, off, src) => i < |v| && v[i].kind.File? && off < T.UINT && |src| < T.UINT
    case OpRead(i, off, n) => i < |v| && v[i].kind.File? && off < T.UINT && n < T.UINT
  }

  /** The calls that keep the counts right: all but those that would put a name into a removed directory or raise
      a count above 32767. */
  predicate Fits(v: Inodes, op: Op) {
    Leads(v, op) && |v| > 0 &&
    match op
    case OpCreate(dp, name, kind) =>
      dp != 0 && Absent(v[dp].entries, Text(name)) && HasFree(v) ==> Counted(kind, v[dp].nlink)
    case OpLink(ip, dp, name, sameDev) =>
      Links(v, ip, dp, Text(name), sameDev) ==> v[dp].nlink > 0 && v[ip].nlink < MAXLINKS
    case _ => true
  }

  /** A free inode is nobody's, and an inode in use without links is held: none is freed too early, and
      none is lost. */
  ghost predicate HeldOk(v: Inodes, held: multiset<nat>) {
    forall i :: 0 < i < |v| ==>
      (v[i].kind.Free? ==> i !in held) && (!v[i].kind.Free? && v[i].nlink == 0 ==> i in held)
  }

  /** No count but that of `t` falls to 0, and kinds stay. */
  ghost predicate Loosened(v: Inodes, v': Inodes, t: nat) {
    && |v'| == |v| && t < |v| && !v[t].kind.Free?
    && (forall i :: 0 <= i < |v| && i != t ==> v'[i].kind == v[i].kind && (v[i].nlink > 0 ==> v'[i].nlink > 0))
  }

  lemma LinkHeld(v: Inodes, held: multiset<nat>, d: nat, k: nat, name: string, t: nat)
    requires HeldOk(v, held) && d < |v| && k <= |v[d].entries| && t < |v| && v[t].nlink >= 0
    ensures HeldOk(AddLink(v, d, k, name, t), held)
  {
  }

  lemma FitsShort(v: Inodes, i: nat)
    requires i < |v| && 0 <= v[i].nlink <= MAXLINKS
    ensures Narrow(v, i) == v
  {
  }

  lemma CreateHeld(v: Inodes, held: multiset<nat>, d: nat, name: string, kind: Kind, c: nat)
    requires HeldOk(v, held) && IsDir(v, d) && Counted(kind, v[d].nlink)
    requires 0 < c < |v| && v[c].kind.Free? && !kind.Free?
    ensures c != d && HeldOk(Created(v, d, name, kind, c), held)
  {
  }

  lemma UnlinkLoosens(v: Inodes, d: nat, name: string, k: nat, t: nat)
    requires Inv(v) && Found(v, d, name, k, t) && name != "." && name != ".." && t < |v|
    requires v[t].kind.Dir? ==> EmptyDir(v[t].entries)
    ensures Loosened(v, Unlinked(v, d, k, t), t) && Unlinked(v, d, k, t)[t].kind == v[t].kind
    ensures Unlinked(v, d, k, t)[t].nlink == v[t].nlink - 1 >= 0
  {
    hide Inv, EmptyDir;
    FoundAbove(v, d, name, k, t);
    NamedIsLive(v, d, k, t);
    if v[t].kind.Dir? {
      EmptyRefs(v, d, k, t);
      ParentHasTwo(v, t);
    }
    hide Parent;
  }

  lemma UnlinkHeld(v: Inodes, held: multiset<nat>, d: nat, name: string, k: nat, t: nat)
    requires Inv(v) && HeldOk(v, held) && Found(v, d, name, k, t) && name != "." && name != ".." && t < |v|
    requires v[t].kind.Dir? ==> EmptyDir(v[t].entries)
    ensures HeldOk(Put(Unlinked(v, d, k, t), t, t !in held), held)
  {
    UnlinkLoosens(v, d, name, k, t);
    hide Inv, Unlinked, Found;
  }

  lemma PutHeld(v: Inodes, held: multiset<nat>, i: nat)
    requires HeldOk(v, held) && i in held && 0 < i < |v|
    ensures HeldOk(Put(v, i, held[i] == 1), held - multiset{i})
  {
  }

  /** A directory has one entry of a name. */
  lemma FoundOnce(v: Inodes, d: nat, name: string, j: nat, s: nat, k: nat, t: nat)
    requires Inv(v) && Found(v, d, name, j, s) && Found(v, d, name, k, t)
    ensures j == k && s == t
  {
    DirAboveZero(v, d);
  }

  /** The volume between two calls: inodes and directories, who holds them, and the disk. */
  datatype Snap = Snap(v: Inodes, held: multiset<nat>, disk: F.Disk)

  ghost function Now(vol: Volume, held: multiset<nat>): Snap
    requires vol.Sound()
    reads vol, vol.fs
  {
    Snap(vol.View(), held, vol.fs.Abs())
  }

  /** What a call does to inodes, directories and files. */
  ghost predicate Outcome(layers: nat, s: Snap, op: Op, r: Res, t: Snap)
    requires Fits(s.v, op) && |s.v| == |s.disk.inodes| && |t.v| == |t.disk.inodes|
  {
    match op
    case OpCreate(dp, name, kind) => Makes(layers, s, dp, Text(name), kind, r.done, t)
    case OpLink(ip, dp, name, sameDev) => Named(layers, s, ip, dp, Text(name), sameDev, r.done, t)
    case OpUnlink(dp, name) => Unnamed(layers, s, dp, Text(name), r.done, t)
    case OpHold(i) => r.done && t == s.(held := s.held + multiset{i})
    case OpPut(i) =>
      && (r.done <==> i in s.held) && (!r.done ==> t == s)
      && (r.done ==> t.v == Put(s.v, i, s.held[i] == 1) && t.held == s.held - multiset{i})
      && DataKept(s.v, t.v, s.disk, t.disk, layers)
    case OpWrite(i, off, src) => Stored(layers, s, i, off, src, r, t)
    case OpRead(i, off, n) =>
      t == s && r.bytes == Slice(F.Contents(s.disk, layers, i), off, n) && (off + n < T.UINT ==> r.done)
  }

  ghost predicate Makes(layers: nat, s: Snap, dp: nat, name: string, kind: Kind, done: bool, t: Snap)
    requires dp < |s.v| == |s.disk.inodes| && |t.v| == |t.disk.inodes|
  {
    var es := s.v[dp].entries;
    && t.held == s.held && DataKept(s.v, t.v, s.disk, t.disk, layers)
    && (!done ==> t.v == s.v) && (done ==> dp != 0)
    && (dp != 0 && !Absent(es, name) ==> t.v == s.v && (done <==> Opens(s.v, es, name, kind)))
    && (done && Absent(es, name) ==>
          exists c: nat :: 0 < c < |s.v| && s.v[c].kind.Free? && c != dp && Made(layers, s, dp, name, kind, c, t))
    && (!done && dp != 0 && Absent(es, name) ==> !HasFree(s.v) || Crowded(s.disk.bitmap, layers, es, kind))
  }

  /** Inode `c` was free; a new file is empty. */
  ghost predicate Made(layers: nat, s: Snap, dp: nat, name: string, kind: Kind, c: nat, t: Snap)
    requires dp < |s.v| && c < |s.v| && c != dp && |t.v| == |t.disk.inodes|
  {
    && t.v == Created(s.v, dp, name, kind, c)
    && (!kind.Dir? && c < |t.v| ==> F.Contents(t.disk, layers, c) == [])
  }

  ghost predicate Named(layers: nat, s: Snap, ip: nat, dp: nat, name: string, sameDev: bool, done: bool, t: Snap)
    requires ip < |s.v| && dp < |s.v|
  {
    var es := s.v[dp].entries;
    && t.held == s.held && DataKept(s.v, t.v, s.disk, t.disk, layers)
    && (done ==> Links(s.v, ip, dp, name, sameDev) && t.v == AddLink(s.v, dp, FirstEmpty(es), name, ip))
    && (!done ==> t.v == s.v)
    && (!done && Links(s.v, ip, dp, name, sameDev) ==>
          FirstEmpty(es) == |es| && NoRoom(t.disk.bitmap, layers, |es|))
  }

  ghost predicate Unnamed(layers: nat, s: Snap, dp: nat, name: string, done: bool, t: Snap) {
    && t.held == s.held && DataKept(s.v, t.v, s.disk, t.disk, layers)
    && (done <==> dp != 0 && name != "." && name != ".." && Removable(s.v, dp, name)) && (!done ==> t == s)
    && (done ==> exists k, u: nat :: Gone(s.v, s.held, dp, name, k, u, t.v))
  }

  /** The entry in slot `k` was removed, and inode `u` with it if it was the last and nobody holds it. */
  ghost predicate Gone(v: Inodes, held: multiset<nat>, dp: nat, name: string, k: nat, u: nat, v': Inodes) {
    Found(v, dp, name, k, u) && u < |v| && v' == Put(Unlinked(v, dp, k, u), u, u !in held)
  }

  /** The bytes that were written are a prefix of the source; short of it only if no block is left. */
  ghost predicate Stored(layers: nat, s: Snap, i: nat, off: nat, src: seq<T.Byte>, r: Res, t: Snap)
    requires i < |s.v| == |s.disk.inodes| && |t.v| == |t.disk.inodes|
  {
    var file := F.Contents(s.disk, layers, i);
    && t.v == s.v && t.held == s.held && r.bytes <= src
    && (forall n :: 0 <= n < |s.v| && n != i ==> F.Contents(t.disk, layers, n) == F.Contents(s.disk, layers, n))
    && (off > |file| || off + |src| >= T.UINT || TooLong(layers, off + |src|) ==> !r.done && r.bytes == [] && t == s)
    && (off <= |file| ==> F.Contents(t.disk, layers, i) == F.Spliced(file, off, r.bytes))
    && (off <= |file| && off + |src| < T.UINT && !TooLong(layers, off + |src|) ==>
          (r.done <==> r.bytes == src) && (!r.done ==> F.Full(t.disk.bitmap)))
  }

  predicate TooLong(layers: nat, n: nat) { layers <= T.TOTBUF && n > T.MaxFile(layers) * T.BSIZE }

  /** The bytes of a file in a range, as far as it goes; ranges that end above 2^32 give none. */
  function Slice(file: seq<T.Byte>, off: nat, n: nat): seq<T.Byte> {
    if off > |file| || off + n >= T.UINT then []
    else if off + n > |file| then file[off..]
    else file[off..off + n]
  }

  // ----- One call ------------------------------------------------------------------------------------

  method Exec(vol: Volume, op: Op, held: multiset<nat>) returns (r: Res, held': multiset<nat>)
    requires vol.Valid() && HeldOk(vol.View(), held) && Fits(vol.View(), op)
    modifies vol, vol.fs
    ensures vol.Valid() && HeldOk(vol.View(), held') && |vol.View()| == |old(vol.View())|
    ensures Outcome(vol.fs.layers, old(Now(vol, held)), op, r, Now(vol, held'))
  {
    hide Inv, HeldOk, SoundOn, Shorts, F.DiskOk, F.FilesOk, ViewOf, Makes, Named, Unnamed, Stored, Text, DataKept;
    held' := held;
    match op
    case OpCreate(dp, name, kind) =>
      var done := ExecCreate(vol, dp, name, kind, held);
      r := Res(done, []);
    case OpLink(ip, dp, name, sameDev) =>
      var done := ExecLink(vol, ip, dp, name, sameDev, held);
      r := Res(done, []);
    case OpUnlink(dp, name) =>
      var done := ExecUnlink(vol, dp, name, held);
      r := Res(done, []);
    case OpHold(i) =>
      HoldHeld(vol.View(), held, i);
      r, held' := Res(true, []), held + multiset{i};
    case OpPut(i) =>
      r := Res(i in held, []);
      held' := ExecPut(vol, i, held);
    case OpWrite(i, off, src) =>
      r := ExecWrite(vol, i, off, src, held);
    case OpRead(i, off, n) =>
      r := ExecRead(vol, i, off, n, held);
  }

  method ExecCreate(vol: Volume, dp: nat, name: seq<T.Byte>, kind: Kind, held: multiset<nat>) returns (done: bool)
    requires vol.Valid() && HeldOk(vol.View(), held) && Fits(vol.View(), OpCreate(dp, name, kind))
    modifies vol, vol.fs
    ensures vol.Valid() && HeldOk(vol.View(), held) && |vol.View()| == |old(vol.View())|
    ensures Makes(vol.fs.layers, old(Now(vol, held)), dp, Text(name), kind, done, Now(vol, held))
  {
    hide Inv, HeldOk, SoundOn, Shorts, F.DiskOk, F.FilesOk, ViewOf, Text, DataKept, Absent, FirstEmpty, Created,
      Crowded;
    ghost var was := vol.View();
    var r := vol.Create(dp, name, kind);
    done := r != 0;
    LookupAbsent(was[dp].entries, Text(name));
    if done && Absent(was[dp].entries, Text(name)) {
      assert HasFree(was);
      CreateHeld(was, held, dp, Text(name), kind, r);
      assert Made(vol.fs.layers, old(Now(vol, held)), dp, Text(name), kind, r, Now(vol, held));
    }
  }

  method ExecLink(vol: Volume, ip: nat, dp: nat, name: seq<T.Byte>, sameDev: bool, held: multiset<nat>)
    returns (done: bool)
    requires vol.Valid() && HeldOk(vol.View(), held) && Fits(vol.View(), OpLink(ip, dp, name, sameDev))
    modifies vol, vol.fs
    ensures vol.Valid() && HeldOk(vol.View(), held) && |vol.View()| == |old(vol.View())|
    ensures Named(vol.fs.layers, old(Now(vol, held)), ip, dp, Text(name), sameDev, done, Now(vol, held))
  {
    hide Inv, HeldOk, SoundOn, F.DiskOk, F.FilesOk, ViewOf, Text, DataKept, Absent, FirstEmpty, SameBut, NoRoom;
    ghost var was, d := vol.View(), vol.fs.Abs();
    ZeroIsFree(was);
    if ip != 0 { FieldsOf(vol.kinds, vol.nlinks, d, vol.fs.layers, ip); }
    done := vol.Link(ip, dp, name, sameDev);
    if done {
      FitsShort(AddLink(was, dp, FirstEmpty(was[dp].entries), Text(name), ip), ip);
      LinkHeld(was, held, dp, FirstEmpty(was[dp].entries), Text(name), ip);
    }
    KeptBut(was, vol.View(), d, vol.fs.Abs(), vol.fs.layers, {dp});
  }

  lemma ZeroIsFree(v: Inodes)
    requires Inv(v)
    ensures |v| > 0 && v[0].kind.Free?
  {
    hide DirsOk, KidsOk, KidsOnce, AllNamed, Counts;
  }

  method ExecPut(vol: Volume, i: nat, held: multiset<nat>) returns (held': multiset<nat>)
    requires vol.Valid() && HeldOk(vol.View(), held) && 0 < i < |vol.View()|
    modifies vol, vol.fs
    ensures vol.Valid() && HeldOk(vol.View(), held') && |vol.View()| == |old(vol.View())|
    ensures i !in held ==> held' == held && Now(vol, held) == old(Now(vol, held))
    ensures i in held ==> vol.View() == Put(old(vol.View()), i, held[i] == 1) && held' == held - multiset{i}
    ensures DataKept(old(vol.View()), vol.View(), old(vol.fs.Abs()), vol.fs.Abs(), vol.fs.layers)
  {
    hide Inv, HeldOk, SoundOn, Shorts, F.DiskOk, F.FilesOk, ViewOf, DataKept, SameBut;
    ghost var was, d := vol.View(), vol.fs.Abs();
    KeptBut(was, was, d, d, vol.fs.layers, {});
    held' := held;
    if i in held {
      PutHeld(was, held, i);
      PutKeeps(was, i, held[i] == 1);
      vol.IPut(i, held[i] == 1);
      held' := held - multiset{i};
      if was[i].nlink == 0 && held[i] == 1 {
        KeptBut(was, vol.View(), d, vol.fs.Abs(), vol.fs.layers, {i});
      } else {
        KeptBut(was, vol.View(), d, d, vol.fs.layers, {});
      }
    }
  }

  lemma PutKeeps(v: Inodes, i: nat, last: bool)
    requires Inv(v) && Shorts(v) && 0 < i < |v|
    ensures Inv(Put(v, i, last)) && Shorts(Put(v, i, last))
  {
    hide Inv;
    if last && v[i].nlink == 0 { ReplaceInv(v, i, Inode(Free, 0, [])); }
  }

  lemma HoldHeld(v: Inodes, held: multiset<nat>, i: nat)
    requires HeldOk(v, held) && 0 < i < |v| && !v[i].kind.Free?
    ensures HeldOk(v, held + multiset{i})
  {
  }

  method ExecWrite(vol: Volume, i: nat, off: nat, src: seq<T.Byte>, held: multiset<nat>) returns (r: Res)
    requires vol.Valid() && i < |vol.View()| && vol.View()[i].kind.File? && off < T.UINT && |src| < T.UINT
    modifies vol.fs
    ensures vol.Valid() && vol.View() == old(vol.View())
    ensures Stored(vol.fs.layers, old(Now(vol, held)), i, off, src, r, Now(vol, held))
  {
    hide Inv, Shorts, F.DiskOk, F.FilesOk, F.Contents, F.Spliced, Entries;
    ghost var d, layers := vol.fs.Abs(), vol.fs.layers;
    SizeSmall(d, layers, i);
    assert vol.kinds[i].File?;
    var tot, put := vol.fs.Writei(i, off, src, |src|, false);
    r := Res(tot == |src|, if tot == -1 then [] else src[..tot]);
    SoundChanged(vol.kinds, vol.nlinks, d, vol.fs.Abs(), layers, i);
    ViewSame(vol.kinds, vol.nlinks, d, vol.fs.Abs(), layers, i);
    if off <= |F.Contents(d, layers, i)| { NothingSpliced(F.Contents(d, layers, i), off); }
    assert src[..|src|] == src;
  }

  method ExecRead(vol: Volume, i: nat, off: nat, n: nat, held: multiset<nat>) returns (r: Res)
    requires vol.Valid() && i < |vol.View()| && off < T.UINT && n < T.UINT
    modifies vol.fs
    ensures vol.Valid() && Now(vol, held) == old(Now(vol, held)) && (off + n < T.UINT ==> r.done)
    ensures r.bytes == Slice(F.Contents(vol.fs.Abs(), vol.fs.layers, i), off, n)
  {
    hide Inv, Shorts, SoundOn, ViewOf, F.DiskOk, F.FilesOk, F.Contents;
    SizeSmall(vol.fs.Abs(), vol.fs.layers, i);
    var count, bytes := vol.fs.Readi(i, off, n, n);
    r := Res(true, bytes);
  }

  method ExecUnlink(vol: Volume, dp: nat, name: seq<T.Byte>, held: multiset<nat>) returns (done: bool)
    requires vol.Valid() && HeldOk(vol.View(), held) && IsName(name) && (dp == 0 || IsDir(vol.View(), dp))
    modifies vol, vol.fs
    ensures vol.Valid() && HeldOk(vol.View(), held) && |vol.View()| == |old(vol.View())|
    ensures Unnamed(vol.fs.layers, old(Now(vol, held)), dp, Text(name), done, Now(vol, held))
  {
    hide Inv, HeldOk, SoundOn, Shorts, F.DiskOk, F.FilesOk, ViewOf, Text, Absent, EmptyDir, Unlinked, F.Contents;
    ghost var was := vol.View();
    var t, last := 0, false;
    if dp != 0 {
      var off;
      t, off := vol.DirLookup(dp, name);
      if t == 0 {
        AbsentNotRemovable(was, dp, Text(name));
      } else if Text(name) != "." && Text(name) != ".." {
        FoundLive(was, dp, Text(name), off);
        FoundIs(was, dp, Text(name), off, t);
      }
      last := t !in held;
    }
    var answer := vol.Unlink(dp, name, last);
    done := answer == Done;
    if done {
      hide Removable;
      UnlinkDone(was, vol.View(), held, dp, Text(name), t, last);
    }
  }

  lemma UnlinkDone(v: Inodes, v': Inodes, held: multiset<nat>, dp: nat, name: string, t: nat, last: bool)
    requires Inv(v) && HeldOk(v, held) && Removed(v, v', dp, name, last) && Removable(v, dp, name) && name != "."
    requires name != ".."
    requires last == (t !in held) && exists k: nat :: Found(v, dp, name, k, t)
    ensures HeldOk(v', held)
    ensures exists k, t: nat :: Gone(v, held, dp, name, k, t, v')
  {
    hide Inv, HeldOk, EmptyDir;
    var k, u: nat :| Found(v, dp, name, k, u) && u < |v| && v' == Put(Unlinked(v, dp, k, u), u, last);
    var j, s: nat :| Found(v, dp, name, j, s) && s < |v| && (v[s].kind.Dir? ==> EmptyDir(v[s].entries));
    var i: nat :| Found(v, dp, name, i, t);
    hide Found, Unlinked, Put;
    FoundOnce(v, dp, name, i, t, k, u);
    FoundOnce(v, dp, name, j, s, k, u);
    UnlinkHeld(v, held, dp, name, k, u);
    assert Gone(v, held, dp, name, k, u, v');
  }

  /** Whether the next call fits. */
  method Check(vol: Volume, op: Op) returns (ok: bool)
    requires vol.Valid()
    modifies vol.fs
    ensures vol.Valid() && vol.View() == old(vol.View()) && vol.fs.Abs() == old(vol.fs.Abs())
    ensures ok <==> Fits(vol.View(), op)
  {
    hide Inv, Shorts, F.DiskOk, F.FilesOk, Text, F.Contents, Entries;
    var kinds, nlinks := vol.kinds, vol.nlinks;
    ghost var v := vol.View();
    RootThere(v);
    match op
    case OpCreate(dp, name, kind) =>
      ok := IsName(name) && !kind.Free? && (dp == 0 || (dp < |kinds| && kinds[dp].Dir?));
      if ok && dp != 0 {
        var there, at := vol.DirLookup(dp, name);
        var some := HasFreeNow(vol);
        ok := there != 0 || !some || Counted(kind, nlinks[dp]);
      }
    case OpLink(ip, dp, name, sameDev) =>
      ok := && IsName(name) && (dp == 0 || (dp < |kinds| && kinds[dp].Dir?))
            && (ip == 0 || (ip < |kinds| && (nlinks[ip] > 0 || kinds[ip].Dir?)));
      if ok && ip != 0 && dp != 0 && !kinds[ip].Dir? && sameDev {
        var there, at := vol.DirLookup(dp, name);
        ok := there != 0 || (nlinks[dp] > 0 && nlinks[ip] < MAXLINKS);
      }
    case OpUnlink(dp, name) => ok := IsName(name) && (dp == 0 || (dp < |kinds| && kinds[dp].Dir?));
    case OpHold(i) => ok := 0 < i < |kinds| && !kinds[i].Free?;
    case OpPut(i) => ok := 0 < i < |kinds|;
    case OpWrite(i, off, src) => ok := i < |kinds| && kinds[i].File? && off < T.UINT && |src| < T.UINT;
    case OpRead(i, off, n) => ok := i < |kinds| && kinds[i].File? && off < T.UINT && n < T.UINT;
  }

  method HasFreeNow(vol: Volume) returns (some: bool)
    requires vol.Sound()
    ensures some <==> HasFree(vol.View())
  {
    hide F.DiskOk, F.FilesOk, F.Contents, Entries;
    some := exists i :: 0 < i < |vol.kinds| && vol.kinds[i].Free?;
    assert forall i :: 0 <= i < |vol.kinds| ==> vol.View()[i].kind == vol.kinds[i];
  }

  // ----- Whole runs ------------------------------------------------------------------------------

  ghost predicate SnapOk(s: Snap) { Inv(s.v) && HeldOk(s.v, s.held) && |s.v| == |s.disk.inodes| }

  /** `trace` is the history of a volume on which `ops` were performed and returned `rs`. */
  ghost predicate History(layers: nat, trace: seq<Snap>, ops: seq<Op>, rs: seq<Res>) {
    && |trace| == |rs| + 1 && |rs| <= |ops|
    && (forall i :: 0 <= i < |trace| ==> SnapOk(trace[i]))
    && (forall i, j :: 0 <= i && j == i + 1 && j < |trace| ==> Stepped(layers, trace[i], ops[i], rs[i], trace[j]))
  }

  ghost predicate Stepped(layers: nat, s: Snap, op: Op, r: Res, t: Snap)
    requires SnapOk(s) && SnapOk(t)
  {
    Fits(s.v, op) && Outcome(layers, s, op, r, t)
  }

  lemma HistoryMore(layers: nat, trace: seq<Snap>, ops: seq<Op>, rs: seq<Res>, r: Res, t: Snap)
    requires History(layers, trace, ops, rs) && |rs| < |ops| && SnapOk(t)
    requires Stepped(layers, trace[|rs|], ops[|rs|], r, t)
    ensures History(layers, trace + [t], ops, rs + [r])
  {
    hide SnapOk, Stepped;
    var n, trace', rs' := |rs|, trace + [t], rs + [r];
    forall i | 0 <= i < |trace'| ensures SnapOk(trace'[i]) {
    }
    forall i, j | 0 <= i && j == i + 1 && j < |trace'|
      ensures Stepped(layers, trace'[i], ops[i], rs'[i], trace'[j])
    {
      if j <= n { assert trace'[i] == trace[i] && trace'[j] == trace[j] && rs'[i] == rs[i]; }
    }
  }

  /** Any calls in any order on a new volume, until one does not fit. */
  method Run(layers: nat, nblocks: nat, meta: nat, inodes: nat, ops: seq<Op>)
    returns (vol: Volume, rs: seq<Res>, held: multiset<nat>, ghost trace: seq<Snap>)
    requires layers < T.TOTBUF && 0 < meta < nblocks <= T.UINT && ROOT < inodes <= 0x1_0000
    ensures fresh(vol) && vol.Valid() && vol.fs.layers == layers
    ensures History(layers, trace, ops, rs) && trace[|rs|] == Now(vol, held)
    ensures |trace[0].v| == inodes && trace[0].held == multiset{}
    ensures forall i :: 0 < i < inodes && i != ROOT ==> trace[0].v[i].kind.Free?
    ensures |rs| < |ops| ==> !Fits(vol.View(), ops[|rs|])
  {
    hide Inv, Outcome, Fits, HeldOk, History, SoundOn, Shorts, ViewOf, F.DiskOk, F.FilesOk;
    vol := Format(layers, nblocks, meta, inodes);
    held, rs := multiset{}, [];
    NobodyHolds(vol.View());
    ghost var boot := Now(vol, held);
    trace := [boot];
    HistoryBoot(layers, boot, ops);
    while |rs| < |ops|
      invariant fresh(vol) && fresh(vol.fs) && vol.Valid() && HeldOk(vol.View(), held) && vol.fs.layers == layers
      invariant History(layers, trace, ops, rs) && |trace| == |rs| + 1 && trace[|rs|] == Now(vol, held)
      invariant trace[0] == boot
      decreases |ops| - |rs|
    {
      var ok := Check(vol, ops[|rs|]);
      if !ok {
        return;
      }
      var r;
      r, held := Exec(vol, ops[|rs|], held);
      HistoryMore(layers, trace, ops, rs, r, Now(vol, held));
      rs, trace := rs + [r], trace + [Now(vol, held)];
    }
  }

  lemma HistoryBoot(layers: nat, s: Snap, ops: seq<Op>)
    requires SnapOk(s)
    ensures History(layers, [s], ops, [])
  {
    hide SnapOk;
  }

  lemma NobodyHolds(v: Inodes)
    requires Inv(v) && forall i :: 0 < i < |v| && i != ROOT ==> v[i].kind.Free?
    ensures HeldOk(v, multiset{})
  {
  }

  /** In every state of every run each count is the number of entries, other than ".", that name the
      inode in linked directories; an inode in use is linked or held, and a free one neither. */
  lemma CountsInRuns(layers: nat, trace: seq<Snap>, ops: seq<Op>, rs: seq<Res>, i: nat, t: nat)
    requires History(layers, trace, ops, rs) && i < |trace| && 0 < t < |trace[i].v|
    ensures var v, held := trace[i].v, trace[i].held;
      && v[t].nlink == |Refs(v, t)|
      && (v[t].kind.Free? <==> v[t].nlink == 0 && t !in held)
  {
    hide Outcome, Fits, DirsOk, KidsOk, KidsOnce, AllNamed;
    assert SnapOk(trace[i]);
    assert CountOk(trace[i].v, t);
  }

  // ----- Files ---------------------------------------------------------------------------------------

  /** A file after the writes of the calls up to `j`, with as many bytes of each as were written. */
  ghost function Replay(ops: seq<Op>, rs: seq<Res>, n: nat, i: nat, j: nat, file: seq<T.Byte>): seq<T.Byte>
    requires i <= j <= |rs| <= |ops|
    decreases j
  {
    if i == j then file
    else
      var was := Replay(ops, rs, n, i, j - 1, file);
      match ops[j - 1]
      case OpWrite(m, off, _) => if m == n && off <= |was| then F.Spliced(was, off, rs[j - 1].bytes) else was
      case _ => was
  }

  /** A call keeps the type of an inode that stays in use, and the bytes of a file that it does not write. */
  lemma StepFile(layers: nat, s: Snap, op: Op, r: Res, t: Snap, n: nat)
    requires SnapOk(s) && SnapOk(t) && Stepped(layers, s, op, r, t)
    requires n < |s.v| && s.v[n].kind.File? && (n < |t.v| ==> !t.v[n].kind.Free?)
    ensures n < |t.v| && t.v[n].kind.File?
    ensures var was := F.Contents(s.disk, layers, n);
      F.Contents(t.disk, layers, n) ==
        if op.OpWrite? && op.i == n && op.off <= |was| then F.Spliced(was, op.off, r.bytes) else was
  {
    hide Inv, F.Contents, F.Spliced;
    if op.OpCreate? || op.OpLink? || op.OpUnlink? || op.OpPut? { KindStays(layers, s, op, r, t, n); }
    hide Created, Gone, AddLink, Fits, Absent, Crowded, Links, Removable, FirstEmpty;
  }

  lemma KindStays(layers: nat, s: Snap, op: Op, r: Res, t: Snap, n: nat)
    requires SnapOk(s) && SnapOk(t) && Stepped(layers, s, op, r, t)
    requires op.OpCreate? || op.OpLink? || op.OpUnlink? || op.OpPut?
    requires n < |s.v| && s.v[n].kind.File? && (n < |t.v| ==> !t.v[n].kind.Free?)
    ensures n < |t.v| && t.v[n].kind.File?
  {
    hide Inv, F.Contents, DataKept, Absent, Crowded, Links, Removable, FirstEmpty, NoRoom, Created, Gone;
    ZeroIsFree(s.v);
    match op
    case OpCreate(dp, name, kind) =>
      if r.done && Absent(s.v[dp].entries, Text(name)) {
        var c: nat :| 0 < c < |s.v| && s.v[c].kind.Free? && c != dp && Made(layers, s, dp, Text(name), kind, c, t);
        CreatedKeeps(s.v, dp, Text(name), kind, c, n);
      }
    case OpUnlink(dp, name) =>
      if r.done {
        var k, u: nat :| Gone(s.v, s.held, dp, Text(name), k, u, t.v);
        GoneKeeps(s.v, s.held, dp, Text(name), k, u, t.v, n);
      }
    case _ =>
  }

  lemma CreatedKeeps(v: Inodes, d: nat, name: string, kind: Kind, c: nat, n: nat)
    requires d < |v| && c < |v| && c != d && v[c].kind.Free? && n < |v| && !v[n].kind.Free?
    ensures |Created(v, d, name, kind, c)| == |v| && Created(v, d, name, kind, c)[n].kind == v[n].kind
  {
  }

  lemma GoneKeeps(v: Inodes, held: multiset<nat>, d: nat, name: string, k: nat, u: nat, v': Inodes, n: nat)
    requires Gone(v, held, d, name, k, u, v') && n < |v|
    ensures |v'| == |v| && (v'[n].kind == v[n].kind || v'[n].kind.Free?)
  {
  }

  /** From state `i` to state `j` inode `n` is never free. */
  ghost predicate InUse(trace: seq<Snap>, n: nat, i: nat, j: nat) {
    forall m :: i <= m <= j && m < |trace| && n < |trace[m].v| ==> !trace[m].v[n].kind.Free?
  }

  /** That is, in every state it has a link or a holder. */
  lemma InUseIs(layers: nat, trace: seq<Snap>, ops: seq<Op>, rs: seq<Res>, n: nat, i: nat, j: nat)
    requires History(layers, trace, ops, rs) && n > 0
    ensures InUse(trace, n, i, j) <==>
        forall m :: i <= m <= j && m < |trace| && n < |trace[m].v| ==> trace[m].v[n].nlink > 0 || n in trace[m].held
  {
    hide History;
    forall m | i <= m <= j && m < |trace| && n < |trace[m].v|
      ensures trace[m].v[n].kind.Free? <==> !(trace[m].v[n].nlink > 0 || n in trace[m].held)
    {
      CountsInRuns(layers, trace, ops, rs, m, n);
    }
  }

  /** In any run a file that always has a link or a holder holds what was written to it and nothing else. */
  lemma {:induction false} FilesHold(layers: nat, trace: seq<Snap>, ops: seq<Op>, rs: seq<Res>, i: nat, j: nat, n: nat)
    requires History(layers, trace, ops, rs) && i <= j < |trace| && n < |trace[i].v| && trace[i].v[n].kind.File?
    requires n < |trace[i].disk.inodes| && InUse(trace, n, i, j)
    ensures n < |trace[j].v| && trace[j].v[n].kind.File? && n < |trace[j].disk.inodes|
    ensures F.Contents(trace[j].disk, layers, n) ==
        Replay(ops, rs, n, i, j, F.Contents(trace[i].disk, layers, n))
    decreases j
  {
    hide Inv, HeldOk, Stepped, F.Contents, F.Spliced;
    if i < j {
      FilesHold(layers, trace, ops, rs, i, j - 1, n);
      StepFile(layers, trace[j - 1], ops[j - 1], rs[j - 1], trace[j], n);
    }
  }

  /** Whoever reads a file that was in use all the time gets what was written: it may have been closed and opened
      again, or have lost its last name while it was open. */
  lemma ReadsSeeWrites(layers: nat, trace: seq<Snap>, ops: seq<Op>, rs: seq<Res>, i: nat, j: nat, n: nat, off: nat,
                       len: nat)
    requires History(layers, trace, ops, rs) && i <= j < |rs| && ops[j] == OpRead(n, off, len)
    requires n < |trace[i].v| && trace[i].v[n].kind.File? && n < |trace[i].disk.inodes|
    requires InUse(trace, n, i, j)
    ensures rs[j].bytes == Slice(Replay(ops, rs, n, i, j, F.Contents(trace[i].disk, layers, n)), off, len)
  {
    FilesHold(layers, trace, ops, rs, i, j, n);
    hide SnapOk, F.Contents, Replay, Slice;
    assert Stepped(layers, trace[j], ops[j], rs[j], trace[j + 1]);
  }
}
