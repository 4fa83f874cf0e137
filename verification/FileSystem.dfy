/** lab9/kernel/fs.c from `balloc` to `writei`, as it updates bitmap, blocks and inodes in place. */
module FileSystem {
  import opened FileTree
  import opened FileTruncation

  datatype Disk = Disk(tree: Tree, bitmap: seq<bool>, blocks: seq<Block>, inodes: seq<Inode>)

  ghost predicate DiskOk(d: Disk, layers: nat) {
    TreeOk(d.tree, d.bitmap, d.blocks, d.inodes, layers)
  }

  ghost predicate Full(bitmap: seq<bool>) { forall b :: 0 <= b < |bitmap| ==> bitmap[b] }

  /** `e` is `d` with blocks, free before and zeroed now, added at positions on the path to `t`;
      data blocks of `d` and the other inodes are untouched. */
  ghost predicate Grew(d: Disk, e: Disk, t: Pos) {
    && |e.bitmap| == |d.bitmap| && |e.blocks| == |d.blocks| && |e.inodes| == |d.inodes|
    && (forall p :: p in d.tree ==> p in e.tree && e.tree[p] == d.tree[p])
    && (forall p :: p in e.tree && p !in d.tree ==> OnPath(p, t) && e.tree[p] < |d.bitmap| && !d.bitmap[e.tree[p]])
    && (forall b :: 0 <= b < |d.bitmap| ==> (e.bitmap[b] <==> d.bitmap[b] || b in Added(d.tree, e.tree)))
    && (forall p :: p in e.tree && IsData(p) && e.tree[p] < |e.blocks| ==>
          e.blocks[e.tree[p]] == if p in d.tree then d.blocks[e.tree[p]] else Zeros())
    && (forall n :: 0 <= n < |d.inodes| ==>
          e.inodes[n].size == d.inodes[n].size && (n != t.ino ==> e.inodes[n] == d.inodes[n]))
  }

  ghost function Added(tree: Tree, tree': Tree): set<nat> {
    set p | p in tree' && p !in tree :: tree'[p]
  }

  lemma GrewNothing(d: Disk, t: Pos)
    ensures Grew(d, d, t)
  {
  }

  lemma AddedMore(tree: Tree, tree': Tree, p: Pos, b: nat)
    requires p !in tree' && p !in tree
    ensures Added(tree, tree'[p := b]) == Added(tree, tree') + {b}
  {
    assert tree'[p := b][p] == b;
    assert forall q :: q in tree' ==> q in tree'[p := b] && tree'[p := b][q] == tree'[q];
  }

  /** A free block was taken, zeroed and entered for `p`. */
  ghost predicate AddedOne(e: Disk, f: Disk, p: Pos, b: nat) {
    && p !in e.tree && b < |e.bitmap| && !e.bitmap[b] && |e.blocks| == |e.bitmap|
    && (forall q :: q in e.tree ==> e.tree[q] < |e.bitmap| && e.tree[q] != b)
    && f.tree == e.tree[p := b] && f.bitmap == e.bitmap[b := true] && |f.blocks| == |e.blocks|
    && |f.inodes| == |e.inodes|
    && (forall n :: 0 <= n < |e.inodes| ==>
          f.inodes[n].size == e.inodes[n].size && (n != p.ino ==> f.inodes[n] == e.inodes[n]))
    && (IsData(p) ==> f.blocks[b] == Zeros())
    && (forall q :: q in e.tree && IsData(q) ==> f.blocks[e.tree[q]] == e.blocks[e.tree[q]])
  }

  lemma GrewMore(d: Disk, e: Disk, f: Disk, t: Pos, p: Pos, b: nat)
    requires Grew(d, e, t) && AddedOne(e, f, p, b) && OnPath(p, t) && p.ino == t.ino
    ensures Grew(d, f, t)
  {
    AddedMore(d.tree, e.tree, p, b);
    hide Added, OnPath;
  }

  lemma GrewOn(d: Disk, e: Disk, f: Disk, t: Pos, p: Pos, b: nat)
    requires Grew(d, e, t) && (f == e || AddedOne(e, f, p, b)) && OnPath(p, t) && p.ino == t.ino
    ensures Grew(d, f, t)
  {
    hide Grew, AddedOne, OnPath;
    if f != e {
      GrewMore(d, e, f, t, p, b);
    }
  }

  lemma InTree(d: Disk, layers: nat)
    requires DiskOk(d, layers)
    ensures |d.blocks| == |d.bitmap| && layers <= TOTBUF && BootOk(d.bitmap, d.blocks)
    ensures forall b :: 0 <= b < |d.blocks| ==> |d.blocks[b]| == BSIZE
    ensures forall n :: 0 <= n < |d.inodes| ==> |d.inodes[n].addrs| == TOTBUF
    ensures forall q :: q in d.tree ==> 0 < d.tree[q] < |d.bitmap| && d.bitmap[d.tree[q]]
    ensures forall p, q :: p in d.tree && q in d.tree && d.tree[p] == d.tree[q] ==> p == q
  {
    hide Closed, Placed, NodeOk;
  }

  lemma RootSlot(d: Disk, layers: nat, pos: Pos)
    requires DiskOk(d, layers) && Wf(pos, layers, |d.inodes|) && (pos.Direct? || pos.d == 0)
    ensures layers <= TOTBUF && |d.inodes[pos.ino].addrs| == TOTBUF
    ensures d.inodes[pos.ino].addrs[if pos.Direct? then pos.i else TOTBUF - layers + pos.l] == Get(d.tree, pos)
  {
    hide Linked, Closed, Placed, Owned;
  }

  lemma NodeSlot(d: Disk, layers: nat, pos: Pos, j: nat)
    requires DiskOk(d, layers) && pos in d.tree && !IsData(pos) && j < NINDIRECT
    ensures d.tree[pos] < |d.blocks| && |d.blocks[d.tree[pos]]| == BSIZE
    ensures Word(d.blocks[d.tree[pos]], j) == Get(d.tree, Child(pos, j))
  {
    hide Rooted, Closed, Placed;
    assert NodeOk(d.tree, d.blocks[d.tree[pos]], pos);
  }

  lemma {:induction false} AncestorsExist(tree: Tree, t: Pos, d: nat)
    requires Closed(tree) && t.Node? && d <= t.d && Above(t, d) in tree
    ensures forall e: nat :: e <= d ==> Above(t, e) in tree
  {
    if d > 0 {
      AboveStep(t, d - 1);
      AncestorsExist(tree, t, d - 1);
    }
  }

  lemma EnterRoot(d: Disk, layers: nat, pos: Pos, b: nat, i: nat)
    requires DiskOk(d, layers) && pos !in d.tree && Wf(pos, layers, |d.inodes|) && (pos.Direct? || pos.d == 0)
    requires i == if pos.Direct? then pos.i else TOTBUF - layers + pos.l
    requires b < |d.bitmap| && !d.bitmap[b] && |d.inodes[pos.ino].addrs| == TOTBUF && |d.blocks| == |d.bitmap|
    ensures var n := d.inodes[pos.ino];
      var f := Disk(d.tree[pos := b], d.bitmap[b := true], d.blocks[b := Zeros()],
                    d.inodes[pos.ino := n.(addrs := n.addrs[i := b])]);
      DiskOk(f, layers) && AddedOne(d, f, pos, b)
  {
    hide TreeOk;
    TakeBlock(d.tree, d.bitmap, d.blocks, d.inodes, layers, b);
    AddToInode(d.tree, d.bitmap[b := true], d.blocks[b := Zeros()], d.inodes, layers, pos, b, i);
    InTree(d, layers);
  }

  lemma EnterChild(d: Disk, layers: nat, parent: Pos, j: nat, b: nat)
    requires DiskOk(d, layers) && parent in d.tree && !IsData(parent) && j < NINDIRECT
    requires Child(parent, j) !in d.tree && Wf(Child(parent, j), layers, |d.inodes|) && b < |d.bitmap| && !d.bitmap[b]
    ensures 0 < d.tree[parent] < |d.blocks| == |d.bitmap| <= UINT && |d.blocks[d.tree[parent]]| == BSIZE
    ensures d.tree[parent] != b
    ensures var blocks' := d.blocks[b := Zeros()];
      var f := Disk(d.tree[Child(parent, j) := b], d.bitmap[b := true],
                    blocks'[d.tree[parent] := SetWord(blocks'[d.tree[parent]], j, b)], d.inodes);
      DiskOk(f, layers) && AddedOne(d, f, Child(parent, j), b)
  {
    hide TreeOk;
    InTree(d, layers);
    TakeBlock(d.tree, d.bitmap, d.blocks, d.inodes, layers, b);
    AddToParent(d.tree, d.bitmap[b := true], d.blocks[b := Zeros()], d.inodes, layers, parent, j, b);
  }

  lemma TreeClosed(d: Disk, layers: nat)
    requires DiskOk(d, layers)
    ensures Closed(d.tree)
  {
  }

  lemma AboveShape(t: Pos, d: nat)
    requires t.Node? && d <= t.d
    ensures Above(t, d).Node? && Above(t, d).ino == t.ino && Above(t, d).l == t.l && Above(t, d).d == d
  {
  }

  /** What a walk to position `t` did: it found or made the block there, or the disk is full. */
  ghost predicate Reached(d: Disk, e: Disk, t: Pos, addr: nat) {
    && Grew(d, e, t)
    && (addr == 0 ==> Full(e.bitmap) && t !in d.tree)
    && (addr != 0 ==> t in e.tree && e.tree[t] == addr)
    && (t in d.tree ==> e == d)
  }

  lemma OnPathToTop(d: Disk, layers: nat, t: Pos)
    requires DiskOk(d, layers) && t.Node?
    ensures OnPath(Above(t, 0), t)
    ensures t in d.tree ==> forall e: nat :: e <= t.d ==> Above(t, e) in d.tree
  {
    AboveOnPath(t, 0, t.d);
    assert Above(t, t.d) == t;
    TreeClosed(d, layers);
    if t in d.tree { AncestorsExist(d.tree, t, t.d); }
  }

  lemma SmallRem(n: nat, p: nat)
    requires n < p
    ensures Rem(n, p) == n
  {
  }

  lemma SamePart(e: Disk, f: Disk, p: Pos, b: nat)
    requires f == e || AddedOne(e, f, p, b)
    ensures |f.inodes| == |e.inodes|
  {
  }

  lemma LayerPosStep(ino: nat, layers: nat, l: nat, bn: nat)
    requires l <= layers && bn < Capacity(layers, l)
    ensures l < layers
    ensures if bn < Pow(l + 1) then LayerPos(ino, layers, l, bn) == Node(ino, l, l + 1, bn)
            else bn - Pow(l + 1) < Capacity(layers, l + 1)
                 && LayerPos(ino, layers, l, bn) == LayerPos(ino, layers, l + 1, bn - Pow(l + 1))
  {
  }

  // ----- Truncation, block by block ----------------------------------------------------------------

  /** Exactly the blocks of `s` were given back. */
  ghost predicate Freed(bitmap: seq<bool>, bitmap': seq<bool>, s: set<nat>) {
    |bitmap'| == |bitmap| && forall b :: 0 <= b < |bitmap| ==> (bitmap'[b] <==> bitmap[b] && b !in s)
  }

  /** At most the blocks of `s` were written. */
  ghost predicate KeptBlocks(blocks: seq<Block>, blocks': seq<Block>, s: set<nat>) {
    |blocks'| == |blocks| && forall b :: 0 <= b < |blocks| && b !in s ==> blocks'[b] == blocks[b]
  }

  ghost predicate Sized(blocks: seq<Block>) { forall b :: 0 <= b < |blocks| ==> |blocks[b]| == BSIZE }

  lemma FreedMore(b0: seq<bool>, b1: seq<bool>, b2: seq<bool>, s: set<nat>, t: set<nat>)
    requires Freed(b0, b1, s) && Freed(b1, b2, t)
    ensures Freed(b0, b2, s + t)
  {
  }

  lemma RootIntact(tree: Tree, bitmap: seq<bool>, blocks: seq<Block>, pos: Pos)
    requires Intact(tree, bitmap, blocks, pos) && pos in tree && pos.Node?
    ensures 0 < tree[pos] < |bitmap| == |blocks| && bitmap[tree[pos]]
    ensures !IsData(pos) ==> |blocks[tree[pos]]| == BSIZE
    ensures !IsData(pos) ==> forall i: nat :: i < NINDIRECT ==> Word(blocks[tree[pos]], i) == Get(tree, Child(pos, i))
    ensures forall j: nat :: tree[pos] !in BlocksBelow(tree, pos, j)
  {
    assert Under(pos, pos);
  }

  lemma NoneBelow(tree: Tree, pos: Pos)
    requires pos.Node?
    ensures BlocksBelow(tree, pos, 0) == {}
  {
  }

  lemma ZeroSlot(tree: Tree, bitmap: seq<bool>, blocks: seq<Block>, pos: Pos, c: Pos)
    requires Intact(tree, bitmap, blocks, pos) && Closed(tree) && Get(tree, c) == 0
    ensures Blocks(tree, c) == {}
  {
    NoBranch(tree, c);
  }

  lemma KeptWord(tree: Tree, block: Block, pos: Pos, j: nat)
    requires |block| == BSIZE && j < NINDIRECT && pos.Node?
    requires forall i: nat :: j < i < NINDIRECT ==> Word(block, i) == Get(tree, Child(pos, i))
    ensures forall i: nat :: j < i < NINDIRECT ==> Word(SetWord(block, j, 0), i) == Get(tree, Child(pos, i))
  {
    forall i: nat | j < i < NINDIRECT ensures Word(SetWord(block, j, 0), i) == Get(tree, Child(pos, i)) {
      WordOfSet(block, j, 0, i);
    }
  }

  lemma InUse(tree: Tree, bitmap: seq<bool>, blocks: seq<Block>, c: Pos)
    requires Intact(tree, bitmap, blocks, c) && c in tree
    ensures tree[c] < |bitmap| && bitmap[tree[c]]
  {
    assert Under(c, c);
  }

  /** The trees of all inodes but one. */
  ghost function Others(tree: Tree, ino: nat): Tree {
    map p | p in tree && p.ino != ino :: tree[p]
  }

  ghost function FileBlocks(tree: Tree, ino: nat): set<nat> {
    set p | p in tree && p.ino == ino :: tree[p]
  }

  /** Which entry of the inode leads to a position of its trees. */
  function Entry(p: Pos, layers: nat): int { if p.Direct? then p.i else TOTBUF - layers + p.l }

  /** The blocks reached through the first `i` entries of the inode. */
  ghost function Gone(tree: Tree, ino: nat, layers: nat, i: nat): set<nat> {
    set p | p in tree && p.ino == ino && Entry(p, layers) < i :: tree[p]
  }

  /** The root a position hangs from is the one its entry names. */
  lemma EntryUnder(layers: nat, ninodes: nat, root: Pos, q: Pos)
    requires Wf(root, layers, ninodes) && (root.Direct? || root.d == 0) && Wf(q, layers, ninodes)
    ensures Under(root, q) <==> q.ino == root.ino && Entry(q, layers) == Entry(root, layers)
  {
    if root.Node? {
      if q.Node? { UnderTop(q, layers, ninodes); }
      if Under(root, q) { UnderSame(root, q); }
    }
  }

  /** The next entry of the inode brings the blocks of its subtree, which are none if it is 0. */
  lemma GoneMore(d: Disk, layers: nat, root: Pos)
    requires DiskOk(d, layers) && Wf(root, layers, |d.inodes|) && (root.Direct? || root.d == 0)
    ensures var i := Entry(root, layers);
      && 0 <= i
      && Gone(d.tree, root.ino, layers, i + 1) == Gone(d.tree, root.ino, layers, i) + Blocks(d.tree, root)
      && Gone(d.tree, root.ino, layers, i) !! Blocks(d.tree, root)
    ensures root !in d.tree ==>
        Gone(d.tree, root.ino, layers, Entry(root, layers) + 1) == Gone(d.tree, root.ino, layers, Entry(root, layers))
    ensures root in d.tree && root.Direct? ==> Blocks(d.tree, root) == {d.tree[root]}
  {
    InTree(d, layers);
    TreeClosed(d, layers);
    forall q | q in d.tree ensures Under(root, q) <==> q.ino == root.ino && Entry(q, layers) == Entry(root, layers) {
      EntryUnder(layers, |d.inodes|, root, q);
    }
    if root !in d.tree { NoBranch(d.tree, root); }
    hide DiskOk, Under, Entry, Wf;
    if root.Direct? { UnderDirect(root); }
    GoneSets(d.tree, root, layers, Entry(root, layers));
  }

  lemma UnderDirect(root: Pos)
    requires root.Direct?
    ensures forall q :: Under(root, q) <==> q == root
  {
  }

  lemma GoneSets(tree: Tree, root: Pos, layers: nat, i: nat)
    requires forall p, q :: p in tree && q in tree && tree[p] == tree[q] ==> p == q
    requires forall q :: q in tree ==> (Under(root, q) <==> q.ino == root.ino && Entry(q, layers) == i)
    ensures Gone(tree, root.ino, layers, i + 1) == Gone(tree, root.ino, layers, i) + Blocks(tree, root)
    ensures Gone(tree, root.ino, layers, i) !! Blocks(tree, root)
    ensures root in tree && (forall q :: Under(root, q) <==> q == root) ==> Blocks(tree, root) == {tree[root]}
  {
    hide Under, Entry;
    var a, b, c := Gone(tree, root.ino, layers, i + 1), Gone(tree, root.ino, layers, i), Blocks(tree, root);
    forall x ensures x in a <==> x in b || x in c {
    }
  }

  lemma TruncStart(d: Disk, layers: nat, ino: nat)
    requires DiskOk(d, layers)
    ensures Gone(d.tree, ino, layers, 0) == {}
    ensures Freed(d.bitmap, d.bitmap, {}) && KeptBlocks(d.blocks, d.blocks, {})
  {
    hide Owned, Rooted, Linked, Closed;
    forall p | p in d.tree ensures Entry(p, layers) >= 0 {
    }
  }

  /** The subtree of a root that has not been freed yet is intact. */
  lemma SubtreeStill(d: Disk, layers: nat, s: set<nat>, root: Pos, bitmap: seq<bool>, blocks: seq<Block>)
    requires DiskOk(d, layers) && root in d.tree && s !! Blocks(d.tree, root)
    requires Freed(d.bitmap, bitmap, s) && KeptBlocks(d.blocks, blocks, s)
    ensures d.tree[root] < |bitmap| && bitmap[d.tree[root]]
    ensures Intact(d.tree, bitmap, blocks, root) && Placed(d.tree, layers, |d.inodes|) && Closed(d.tree)
  {
    assert Intact(d.tree, d.bitmap, d.blocks, root) by {
      hide Under, NodeOk, Rooted, Closed, Placed;
    }
    hide Owned, Rooted, Linked, Closed, Placed;
    InTree(d, layers);
    assert Under(root, root);
    assert d.tree[root] in Blocks(d.tree, root);
    IntactApart(d.tree, d.bitmap, bitmap, d.blocks, blocks, root);
  }

  lemma FreedOne(b1: seq<bool>, b2: seq<bool>, b: nat)
    requires b < |b1| && b2 == b1[b := false]
    ensures Freed(b1, b2, {b})
  {
  }

  lemma KeptMore(k0: seq<Block>, k1: seq<Block>, k2: seq<Block>, s: set<nat>, t: set<nat>)
    requires KeptBlocks(k0, k1, s) && (k2 == k1 || KeptBlocks(k1, k2, t))
    ensures KeptBlocks(k0, k2, s + t)
  {
  }

  lemma AllGone(tree: Tree, layers: nat, ninodes: nat, ino: nat)
    requires Placed(tree, layers, ninodes) && layers <= TOTBUF
    ensures Gone(tree, ino, layers, TOTBUF) == FileBlocks(tree, ino)
  {
    forall p | p in tree ensures Entry(p, layers) < TOTBUF {
    }
  }

  lemma AllGoneDisk(d: Disk, layers: nat, ino: nat)
    requires DiskOk(d, layers)
    ensures Gone(d.tree, ino, layers, TOTBUF) == FileBlocks(d.tree, ino)
  {
    AllGone(d.tree, layers, |d.inodes|, ino);
  }

  lemma TruncEnd(d: Disk, layers: nat, ino: nat, bitmap: seq<bool>, blocks: seq<Block>, inodes: seq<Inode>)
    requires DiskOk(d, layers) && ino < |d.inodes| == |inodes|
    requires Freed(d.bitmap, bitmap, FileBlocks(d.tree, ino)) && KeptBlocks(d.blocks, blocks, FileBlocks(d.tree, ino))
    requires Sized(blocks)
    requires forall n :: 0 <= n < |inodes| && n != ino ==> inodes[n] == d.inodes[n]
    requires inodes[ino].addrs == seq(TOTBUF, i => 0)
    ensures DiskOk(Disk(Others(d.tree, ino), bitmap, blocks, inodes), layers) && |blocks| == |d.blocks|
    ensures forall p :: p in Others(d.tree, ino) ==> p in d.tree && Others(d.tree, ino)[p] == d.tree[p]
    ensures forall p :: p in Others(d.tree, ino) ==>
        0 <= d.tree[p] < |blocks| == |d.blocks| && blocks[d.tree[p]] == d.blocks[d.tree[p]]
  {
    InTree(d, layers);
    OthersApart(d, layers, ino);
    OthersPlaced(d.tree, layers, |inodes|, ino);
    OthersOwned(d.tree, d.bitmap, bitmap, ino);
    OthersRooted(d.tree, d.inodes, inodes, layers, ino);
    OthersLinked(d.tree, d.blocks, blocks, ino);
    OthersBoot(d, layers, ino, bitmap, blocks);
    OthersIn(d.tree, ino);
    hide Owned, Rooted, Linked, Closed, Placed, BootOk, Others, FileBlocks, Freed, Sized;
  }

  lemma OthersIn(tree: Tree, ino: nat)
    ensures forall p :: p in Others(tree, ino) ==> p in tree && Others(tree, ino)[p] == tree[p] && p.ino != ino
  {
  }

  lemma OthersBoot(d: Disk, layers: nat, ino: nat, bitmap: seq<bool>, blocks: seq<Block>)
    requires BootOk(d.bitmap, d.blocks) && 0 !in FileBlocks(d.tree, ino)
    requires Freed(d.bitmap, bitmap, FileBlocks(d.tree, ino)) && KeptBlocks(d.blocks, blocks, FileBlocks(d.tree, ino))
    ensures BootOk(bitmap, blocks)
  {
  }

  lemma OthersPlaced(tree: Tree, layers: nat, ninodes: nat, ino: nat)
    requires Placed(tree, layers, ninodes) && Closed(tree)
    ensures Placed(Others(tree, ino), layers, ninodes) && Closed(Others(tree, ino))
  {
  }

  lemma OthersOwned(tree: Tree, bitmap: seq<bool>, bitmap': seq<bool>, ino: nat)
    requires Owned(tree, bitmap) && Freed(bitmap, bitmap', FileBlocks(tree, ino))
    requires forall p :: p in tree && p.ino != ino ==> tree[p] !in FileBlocks(tree, ino)
    ensures Owned(Others(tree, ino), bitmap')
  {
    hide FileBlocks;
  }

  lemma OthersRooted(tree: Tree, inodes: seq<Inode>, inodes': seq<Inode>, layers: nat, ino: nat)
    requires Rooted(tree, inodes, layers) && ino < |inodes| == |inodes'|
    requires forall n :: 0 <= n < |inodes'| && n != ino ==> inodes'[n] == inodes[n]
    requires inodes'[ino].addrs == seq(TOTBUF, i => 0)
    ensures Rooted(Others(tree, ino), inodes', layers)
  {
  }

  lemma OthersLinked(tree: Tree, blocks: seq<Block>, blocks': seq<Block>, ino: nat)
    requires Linked(tree, blocks) && KeptBlocks(blocks, blocks', FileBlocks(tree, ino)) && Sized(blocks')
    requires forall p :: p in tree && p.ino != ino ==> tree[p] !in FileBlocks(tree, ino)
    ensures Linked(Others(tree, ino), blocks')
  {
    hide FileBlocks;
    var rest := Others(tree, ino);
    forall p | p in rest && !IsData(p) && rest[p] < |blocks'| ensures NodeOk(rest, blocks'[rest[p]], p) {
      assert NodeOk(tree, blocks[tree[p]], p);
    }
  }

  /** Other inodes have none of the freed blocks. */
  lemma OthersApart(d: Disk, layers: nat, ino: nat)
    requires DiskOk(d, layers)
    ensures forall p :: p in d.tree && p.ino != ino ==> d.tree[p] !in FileBlocks(d.tree, ino)
    ensures 0 !in FileBlocks(d.tree, ino)
  {
    hide Rooted, Linked, Closed, Placed;
  }

  // ----- Contents -------------------------------------------------------------------------------------

  /** Every block below the size of a file exists. */
  ghost predicate FilesOk(d: Disk, layers: nat) {
    layers <= TOTBUF
    && (forall n :: 0 <= n < |d.inodes| ==> d.inodes[n].size <= MaxFile(layers) * BSIZE && d.inodes[n].size < UINT)
    && (forall n: nat, bn: nat :: n < |d.inodes| && bn * BSIZE < d.inodes[n].size && bn < MaxFile(layers) ==>
          FilePos(n, layers, bn) in d.tree)
  }

  /** Byte `o` of file `n`. */
  function ByteOf(d: Disk, layers: nat, n: nat, o: nat): Byte {
    if layers <= TOTBUF && o / BSIZE < MaxFile(layers) && FilePos(n, layers, o / BSIZE) in d.tree then
      var b := d.tree[FilePos(n, layers, o / BSIZE)];
      if b < |d.blocks| && |d.blocks[b]| == BSIZE then d.blocks[b][o % BSIZE] else 0
    else 0
  }

  function Contents(d: Disk, layers: nat, n: nat): seq<Byte>
    requires n < |d.inodes|
  {
    seq(d.inodes[n].size, o requires 0 <= o => ByteOf(d, layers, n, o))
  }

  /** A byte sequence with `bytes` put in at `off`, which may be its end. */
  function Spliced(s: seq<Byte>, off: nat, bytes: seq<Byte>): seq<Byte>
    requires off <= |s|
  {
    s[..off] + bytes + if off + |bytes| < |s| then s[off + |bytes|..] else []
  }

  function Splice(block: Block, off: nat, bytes: seq<Byte>): (r: Block)
    requires off + |bytes| <= |block|
    ensures |r| == |block|
    ensures forall i :: 0 <= i < |r| ==> r[i] == if off <= i < off + |bytes| then bytes[i - off] else block[i]
  {
    block[..off] + bytes + block[off + |bytes|..]
  }

  lemma LayersSmall(d: Disk, layers: nat)
    requires DiskOk(d, layers)
    ensures layers <= TOTBUF
  {
    InTree(d, layers);
  }

  lemma MappedBelow(d: Disk, layers: nat, n: nat, bn: nat)
    requires DiskOk(d, layers) && FilesOk(d, layers) && n < |d.inodes| && bn * BSIZE < d.inodes[n].size
    ensures layers <= TOTBUF && bn < MaxFile(layers) && FilePos(n, layers, bn) in d.tree
  {
    hide FilePos, MaxFile, DiskOk;
  }

  lemma AlreadyThere(d: Disk, e: Disk, layers: nat, n: nat, bn: nat, addr: nat)
    requires DiskOk(d, layers) && layers <= TOTBUF && bn < MaxFile(layers)
    requires FilePos(n, layers, bn) in d.tree && Reached(d, e, FilePos(n, layers, bn), addr)
    ensures e == d && addr != 0 && d.tree[FilePos(n, layers, bn)] == addr
  {
    hide Grew, DiskOk;
  }

  lemma ReadChunk(d: Disk, layers: nat, n: nat, at: nat, m: nat, addr: nat)
    requires DiskOk(d, layers) && layers <= TOTBUF && at / BSIZE < MaxFile(layers) && at % BSIZE + m <= BSIZE
    requires FilePos(n, layers, at / BSIZE) in d.tree && d.tree[FilePos(n, layers, at / BSIZE)] == addr
    ensures addr < |d.blocks| && |d.blocks[addr]| == BSIZE
    ensures forall o :: at <= o < at + m ==>
        ByteOf(d, layers, n, o) == d.blocks[addr][at % BSIZE..at % BSIZE + m][o - at]
  {
    InTree(d, layers);
    hide DiskOk, FilePos, MaxFile;
    forall o | at <= o < at + m ensures ByteOf(d, layers, n, o) == d.blocks[addr][at % BSIZE..at % BSIZE + m][o - at] {
      assert o / BSIZE == at / BSIZE && o % BSIZE == at % BSIZE + (o - at);
    }
  }

  // The state `d` in which `writei` on file `ino` has written `tot` bytes, compared with the start `d0`.

  /** The range of file offsets that are defined by then. */
  predicate Covered(d0: Disk, ino: nat, off: nat, tot: int, n: nat, o: nat) {
    n < |d0.inodes| && (o < d0.inodes[n].size || (n == ino && o < off + tot))
  }

  function NewByte(d0: Disk, layers: nat, ino: nat, off: nat, src: seq<Byte>, tot: int, n: nat, o: nat): Byte {
    if n == ino && off <= o < off + tot && o - off < |src| then src[o - off] else ByteOf(d0, layers, n, o)
  }

  ghost predicate HasBlock(d: Disk, layers: nat, n: nat, o: nat) {
    layers <= TOTBUF && o / BSIZE < MaxFile(layers) && FilePos(n, layers, o / BSIZE) in d.tree
  }

  ghost predicate Written(d0: Disk, d: Disk, layers: nat, ino: nat, off: nat, src: seq<Byte>, tot: int) {
    && 0 <= tot <= |src| && |d.inodes| == |d0.inodes|
    && (forall n :: 0 <= n < |d.inodes| ==> d.inodes[n].size == d0.inodes[n].size)
    && (forall n :: 0 <= n < |d.inodes| && n != ino ==> d.inodes[n] == d0.inodes[n])
    && (forall n: nat, o: nat :: Covered(d0, ino, off, tot, n, o) ==>
          HasBlock(d, layers, n, o) && ByteOf(d, layers, n, o) == NewByte(d0, layers, ino, off, src, tot, n, o))
  }

  lemma WrittenNothing(d: Disk, layers: nat, ino: nat, off: nat, src: seq<Byte>)
    requires DiskOk(d, layers) && FilesOk(d, layers) && ino < |d.inodes| && off <= d.inodes[ino].size
    ensures Written(d, d, layers, ino, off, src, 0)
  {
    hide DiskOk, FilesOk, ByteOf;
    forall n: nat, o: nat | Covered(d, ino, off, 0, n, o) ensures HasBlock(d, layers, n, o) {
      MappedBelow(d, layers, n, o / BSIZE);
    }
  }

  lemma InodesKept(d0: Disk, d: Disk, layers: nat, ino: nat, off: nat, src: seq<Byte>, tot: int)
    requires Written(d0, d, layers, ino, off, src, tot) && ino < |d0.inodes|
    ensures |d.inodes| == |d0.inodes| && d.inodes[ino].size == d0.inodes[ino].size
    ensures forall n :: 0 <= n < |d.inodes| && n != ino ==> d.inodes[n] == d0.inodes[n]
  {
  }

  lemma BlockInFile(layers: nat, at: nat, end: nat)
    requires layers <= TOTBUF && at < end <= MaxFile(layers) * BSIZE
    ensures at / BSIZE < MaxFile(layers)
  {
  }

  /** A block that was there before `bmap` reads the same after it. */
  lemma ByteGrew(d: Disk, e: Disk, layers: nat, t: Pos, n: nat, o: nat)
    requires DiskOk(d, layers) && DiskOk(e, layers) && Grew(d, e, t) && HasBlock(d, layers, n, o)
    ensures HasBlock(e, layers, n, o) && ByteOf(e, layers, n, o) == ByteOf(d, layers, n, o)
  {
    InTree(d, layers);
    InTree(e, layers);
    hide DiskOk, MaxFile, Added, OnPath;
    assert IsData(FilePos(n, layers, o / BSIZE));
  }

  lemma WrittenGrew(d0: Disk, d: Disk, e: Disk, layers: nat, ino: nat, off: nat, src: seq<Byte>, tot: int, addr: nat)
    requires DiskOk(d, layers) && DiskOk(e, layers) && Written(d0, d, layers, ino, off, src, tot)
    requires layers <= TOTBUF && (off + tot) / BSIZE < MaxFile(layers)
    requires Reached(d, e, FilePos(ino, layers, (off + tot) / BSIZE), addr)
    ensures Written(d0, e, layers, ino, off, src, tot) && (addr == 0 ==> Full(e.bitmap))
    ensures addr != 0 ==>
        HasBlock(e, layers, ino, off + tot) && e.tree[FilePos(ino, layers, (off + tot) / BSIZE)] == addr
  {
    hide DiskOk, FilesOk, ByteOf, FilePos, MaxFile, NewByte, Full;
    var t := FilePos(ino, layers, (off + tot) / BSIZE);
    forall n: nat, o: nat | Covered(d0, ino, off, tot, n, o)
      ensures HasBlock(e, layers, n, o) && ByteOf(e, layers, n, o) == NewByte(d0, layers, ino, off, src, tot, n, o)
    {
      ByteGrew(d, e, layers, t, n, o);
    }
  }

  /** Writing a data block harms nothing, and changes exactly the bytes it holds. */
  lemma WriteData(d: Disk, layers: nat, n: nat, o: nat, block: Block)
    requires DiskOk(d, layers) && HasBlock(d, layers, n, o) && |block| == BSIZE
    ensures var b := d.tree[FilePos(n, layers, o / BSIZE)];
      b < |d.blocks| && |d.blocks[b]| == BSIZE && DiskOk(d.(blocks := d.blocks[b := block]), layers)
  {
    var t := FilePos(n, layers, o / BSIZE);
    var b := d.tree[t];
    InTree(d, layers);
    hide Rooted, Closed, Placed, NodeOk, FilePos, MaxFile;
    assert IsData(t);
    assert Linked(d.tree, d.blocks[b := block]);
  }

  lemma ByteWritten(d: Disk, layers: nat, n: nat, o: nat, block: Block, n': nat, o': nat)
    requires DiskOk(d, layers) && HasBlock(d, layers, n, o) && |block| == BSIZE && HasBlock(d, layers, n', o')
    ensures d.tree[FilePos(n, layers, o / BSIZE)] < |d.blocks|
    ensures var e := d.(blocks := d.blocks[d.tree[FilePos(n, layers, o / BSIZE)] := block]);
      && HasBlock(e, layers, n', o')
      && ByteOf(e, layers, n', o') ==
         if n' == n && o' / BSIZE == o / BSIZE then block[o' % BSIZE] else ByteOf(d, layers, n', o')
  {
    InTree(d, layers);
    var t, t' := FilePos(n, layers, o / BSIZE), FilePos(n', layers, o' / BSIZE);
    if t == t' {
      assert n == n' by { assert t.ino == n && t'.ino == n'; }
      FilePosInjective(n, layers, o / BSIZE, o' / BSIZE);
    }
    hide DiskOk, FilePos, MaxFile;
  }

  function FreeBlocks(bitmap: seq<bool>): set<nat> { set b: nat | b < |bitmap| && !bitmap[b] }

  /** At most `n` blocks were taken. */
  ghost predicate Took(was: seq<bool>, bitmap: seq<bool>, n: nat) { |FreeBlocks(was)| <= |FreeBlocks(bitmap)| + n }

  lemma TookNone(bitmap: seq<bool>, n: nat)
    ensures Took(bitmap, bitmap, n)
  {
  }

  lemma FullIs(bitmap: seq<bool>)
    ensures Full(bitmap) <==> |FreeBlocks(bitmap)| == 0
  {
    if !Full(bitmap) {
      var b: nat :| b < |bitmap| && !bitmap[b];
      assert b in FreeBlocks(bitmap);
    }
  }

  /** Blocks on the way to a data block: one, or one for each level. */
  function PathLength(layers: nat, bn: nat): nat { if bn < TOTBUF - layers then 1 else layers + 1 }

  /** The bytes lie in one block. */
  predicate InBlock(off: nat, n: nat) { off % BSIZE + n <= BSIZE }

  function PathOf(t: Pos): (s: set<Pos>)
    ensures forall p :: p in s <==> OnPath(p, t)
    ensures |s| <= if t.Node? then t.d + 1 else 1
    decreases if t.Node? then t.d else 0
  {
    if t.Node? && t.d > 0 then {t} + PathOf(Parent(t)) else {t}
  }

  lemma {:induction false} ImageSize(tree: Tree, s: set<Pos>, image: set<nat>)
    requires forall b :: b in image ==> exists p :: p in s && p in tree && tree[p] == b
    ensures |image| <= |s|
  {
    if p :| p in s {
      var rest := if p in tree then image - {tree[p]} else image;
      ImageSize(tree, s - {p}, rest);
    }
  }

  lemma SizeOfUnion(a: set<nat>, b: set<nat>, c: set<nat>)
    requires a <= b + c
    ensures |a| <= |b| + |c|
  {
    var rest := (b + c) - a;
    assert b + c == a + rest;
    assert |b + c| <= |b| + |c|;
  }

  /** `bmap` takes no more than the blocks on its way. */
  lemma BmapTakes(d: Disk, e: Disk, layers: nat, ino: nat, bn: nat, addr: nat)
    requires DiskOk(e, layers) && layers <= TOTBUF && bn < MaxFile(layers)
    requires Reached(d, e, FilePos(ino, layers, bn), addr)
    ensures Took(d.bitmap, e.bitmap, PathLength(layers, bn))
  {
    var t := FilePos(ino, layers, bn);
    assert Wf(t, layers, ino + 1);
    hide DiskOk, FilePos, MaxFile;
    var added := Added(d.tree, e.tree);
    ImageSize(e.tree, PathOf(t), added);
    assert FreeBlocks(d.bitmap) <= FreeBlocks(e.bitmap) + added;
    SizeOfUnion(FreeBlocks(d.bitmap), FreeBlocks(e.bitmap), added);
    DirectPath(ino, layers, bn);
  }

  lemma DirectPath(ino: nat, layers: nat, bn: nat)
    requires layers <= TOTBUF && bn < MaxFile(layers)
    ensures bn < TOTBUF - layers <==> FilePos(ino, layers, bn).Direct?
  {
  }

  /** Within the file every byte has a block, so `bmap` finds one. */
  lemma OnlyBeyond(d0: Disk, d: Disk, e: Disk, layers: nat, ino: nat, off: nat, src: seq<Byte>, tot: int)
    requires Written(d0, d, layers, ino, off, src, tot) && ino < |d0.inodes| && layers <= TOTBUF
    requires (off + tot) / BSIZE < MaxFile(layers) && Reached(d, e, FilePos(ino, layers, (off + tot) / BSIZE), 0)
    ensures off + tot >= d0.inodes[ino].size
    ensures off <= d0.inodes[ino].size && (tot > 0 ==> (off + tot) % BSIZE == 0) ==> (off + tot) % BSIZE == 0
  {
    hide Grew, FilePos, MaxFile, ByteOf, Full;
    assert Covered(d0, ino, off, tot, ino, off + tot) ==> HasBlock(d, layers, ino, off + tot);
    var o := off - off % BSIZE;
    assert o / BSIZE == off / BSIZE;
    assert Covered(d0, ino, off, tot, ino, o) ==> HasBlock(d, layers, ino, o);
  }

  lemma WrittenMore(d0: Disk, d: Disk, layers: nat, ino: nat, off: nat, src: seq<Byte>, tot: int, m: nat, addr: nat)
    requires DiskOk(d, layers) && Written(d0, d, layers, ino, off, src, tot) && tot + m <= |src|
    requires HasBlock(d, layers, ino, off + tot) && d.tree[FilePos(ino, layers, (off + tot) / BSIZE)] == addr
    requires (off + tot) % BSIZE + m <= BSIZE && ino < |d0.inodes| && off <= d0.inodes[ino].size
    ensures addr < |d.blocks| && |d.blocks[addr]| == BSIZE
    ensures var e := d.(blocks := d.blocks[addr := Splice(d.blocks[addr], (off + tot) % BSIZE, src[tot..tot + m])]);
      DiskOk(e, layers) && Written(d0, e, layers, ino, off, src, tot + m)
  {
    hide DiskOk, FilesOk, FilePos, MaxFile, ByteOf;
    var at := off + tot;
    WriteData(d, layers, ino, at, Zeros());
    var block := Splice(d.blocks[addr], at % BSIZE, src[tot..tot + m]);
    WriteData(d, layers, ino, at, block);
    var e := d.(blocks := d.blocks[addr := block]);
    forall n: nat, o: nat | Covered(d0, ino, off, tot + m, n, o)
      ensures HasBlock(e, layers, n, o) && ByteOf(e, layers, n, o) == NewByte(d0, layers, ino, off, src, tot + m, n, o)
    {
      assert Covered(d0, ino, off, tot, n, o) || (n == ino && o / BSIZE == at / BSIZE);
      ByteWritten(d, layers, ino, at, block, n, o);
      if n == ino && o / BSIZE == at / BSIZE {
        OneByte(d, layers, ino, at, m, block, src, tot, o, addr);
      }
    }
  }

  lemma OneByte(d: Disk, layers: nat, n: nat, at: nat, m: nat, block: Block, src: seq<Byte>, tot: int, o: nat,
                addr: nat)
    requires DiskOk(d, layers) && HasBlock(d, layers, n, at) && d.tree[FilePos(n, layers, at / BSIZE)] == addr
    requires o / BSIZE == at / BSIZE && 0 <= tot && tot + m <= |src| && at % BSIZE + m <= BSIZE
    requires addr < |d.blocks| && |d.blocks[addr]| == BSIZE
    requires block == Splice(d.blocks[addr], at % BSIZE, src[tot..tot + m])
    ensures block[o % BSIZE] == if at <= o < at + m then src[tot + o - at] else ByteOf(d, layers, n, o)
  {
    hide DiskOk, FilePos, MaxFile;
    assert o % BSIZE - at % BSIZE == o - at;
  }

  function Larger(a: nat, b: nat): nat { if a > b then a else b }

  lemma DstIs(d: Disk, layers: nat, ino: nat, off: nat, dst: seq<Byte>)
    requires ino < |d.inodes| && off + |dst| <= d.inodes[ino].size
    requires forall o :: off <= o < off + |dst| ==> ByteOf(d, layers, ino, o) == dst[o - off]
    ensures dst == Contents(d, layers, ino)[off..off + |dst|]
  {
    hide ByteOf;
    forall i | 0 <= i < |dst| ensures dst[i] == Contents(d, layers, ino)[off..off + |dst|][i] {
      assert ByteOf(d, layers, ino, off + i) == dst[off + i - off];
    }
  }

  /** The result of `writei`, once the size of the inode is set.  `put` bytes reached the blocks and `tot`
      are reported; the size follows `tot`. */
  lemma WrittenDone(d0: Disk, d: Disk, layers: nat, ino: nat, off: nat, src: seq<Byte>, put: int, tot: nat)
    requires DiskOk(d, layers) && FilesOk(d0, layers) && Written(d0, d, layers, ino, off, src, put) && ino < |d0.inodes|
    requires off <= d0.inodes[ino].size && off + |src| < UINT && layers <= TOTBUF && tot <= put
    requires off + |src| <= MaxFile(layers) * BSIZE
    ensures |d.inodes| == |d0.inodes|
    ensures var size := Larger(off + tot, d.inodes[ino].size);
      var e := d.(inodes := d.inodes[ino := d.inodes[ino].(size := size)]);
      && DiskOk(e, layers) && FilesOk(e, layers)
      && size <= |Spliced(Contents(d0, layers, ino), off, src[..put])|
      && Contents(e, layers, ino) == Spliced(Contents(d0, layers, ino), off, src[..put])[..size]
      && forall n :: 0 <= n < |d.inodes| && n != ino ==> Contents(e, layers, n) == Contents(d0, layers, n)
  {
    var e := d.(inodes := d.inodes[ino := d.inodes[ino].(size := Larger(off + tot, d.inodes[ino].size))]);
    SizeSet(d, layers, ino, Larger(off + tot, d.inodes[ino].size));
    hide DiskOk, FilePos, MaxFile;
    SameBytes(d, e, layers);
    WrittenFiles(d0, d, e, layers, ino, off, src, put, tot);
    hide FilesOk;
    forall n | 0 <= n < |d.inodes| && n != ino ensures Contents(e, layers, n) == Contents(d0, layers, n) {
      WrittenOther(d0, d, e, layers, ino, off, src, put, tot, n);
    }
    WrittenHere(d0, d, e, layers, ino, off, src, put, tot);
  }

  lemma AllSpliced(d: Disk, layers: nat, ino: nat, off: nat, bytes: seq<Byte>)
    requires ino < |d.inodes| && off <= d.inodes[ino].size
    ensures var t := Spliced(Contents(d, layers, ino), off, bytes);
      |t| == Larger(off + |bytes|, d.inodes[ino].size) && t[..|t|] == t
  {
    hide ByteOf;
  }

  lemma SameBytes(d: Disk, e: Disk, layers: nat)
    requires e == d.(inodes := e.inodes)
    ensures forall n: nat, o: nat :: ByteOf(e, layers, n, o) == ByteOf(d, layers, n, o)
  {
    hide FilePos, MaxFile;
  }

  /** `e` is `d`, where `put` bytes are written, with the size `writei` sets. */
  ghost predicate WithSize(d0: Disk, d: Disk, e: Disk, layers: nat, ino: nat, off: nat, src: seq<Byte>, put: int,
                           tot: nat)
  {
    && Written(d0, d, layers, ino, off, src, put) && ino < |d0.inodes| && off <= d0.inodes[ino].size && tot <= put
    && e == d.(inodes := d.inodes[ino := d.inodes[ino].(size := Larger(off + tot, d.inodes[ino].size))])
  }

  lemma WrittenFiles(d0: Disk, d: Disk, e: Disk, layers: nat, ino: nat, off: nat, src: seq<Byte>, put: int, tot: nat)
    requires WithSize(d0, d, e, layers, ino, off, src, put, tot) && FilesOk(d0, layers)
    requires off + |src| < UINT && off + |src| <= MaxFile(layers) * BSIZE
    ensures FilesOk(e, layers)
  {
    hide FilePos, MaxFile, ByteOf;
    forall n: nat, bn: nat | n < |e.inodes| && bn * BSIZE < e.inodes[n].size && bn < MaxFile(layers)
      ensures FilePos(n, layers, bn) in e.tree
    {
      assert Covered(d0, ino, off, put, n, bn * BSIZE) && bn * BSIZE / BSIZE == bn;
      assert HasBlock(d, layers, n, bn * BSIZE);
    }
  }

  lemma WrittenOther(d0: Disk, d: Disk, e: Disk, layers: nat, ino: nat, off: nat, src: seq<Byte>, put: int, tot: nat,
                     n: nat)
    requires WithSize(d0, d, e, layers, ino, off, src, put, tot) && n < |d.inodes| && n != ino
    requires forall n: nat, o: nat :: ByteOf(e, layers, n, o) == ByteOf(d, layers, n, o)
    ensures Contents(e, layers, n) == Contents(d0, layers, n)
  {
    hide FilePos, MaxFile, ByteOf;
    forall o: nat | o < d0.inodes[n].size ensures ByteOf(e, layers, n, o) == ByteOf(d0, layers, n, o) {
      assert Covered(d0, ino, off, put, n, o);
    }
  }

  lemma WrittenHere(d0: Disk, d: Disk, e: Disk, layers: nat, ino: nat, off: nat, src: seq<Byte>, put: int, tot: nat)
    requires WithSize(d0, d, e, layers, ino, off, src, put, tot)
    requires forall n: nat, o: nat :: ByteOf(e, layers, n, o) == ByteOf(d, layers, n, o)
    ensures e.inodes[ino].size <= |Spliced(Contents(d0, layers, ino), off, src[..put])|
    ensures Contents(e, layers, ino) == Spliced(Contents(d0, layers, ino), off, src[..put])[..e.inodes[ino].size]
  {
    hide FilePos, MaxFile, ByteOf;
    var a, b := Contents(e, layers, ino), Spliced(Contents(d0, layers, ino), off, src[..put]);
    forall o | 0 <= o < |a| ensures a[o] == b[o] {
      assert Covered(d0, ino, off, put, ino, o);
    }
  }

  lemma SizeSet(d: Disk, layers: nat, n: nat, size: nat)
    requires DiskOk(d, layers) && n < |d.inodes|
    ensures DiskOk(d.(inodes := d.inodes[n := d.inodes[n].(size := size)]), layers)
  {
    hide Owned, Linked, Closed;
  }

  lemma TruncFiles(d: Disk, e: Disk, layers: nat, ino: nat)
    requires DiskOk(d, layers) && FilesOk(d, layers) && ino < |d.inodes| == |e.inodes| && e.inodes[ino].size == 0
    requires e.tree == Others(d.tree, ino) && |e.blocks| == |d.blocks|
    requires forall n :: 0 <= n < |e.inodes| && n != ino ==> e.inodes[n] == d.inodes[n]
    requires forall p :: p in e.tree ==> e.tree[p] < |d.blocks| && e.blocks[e.tree[p]] == d.blocks[e.tree[p]]
    ensures FilesOk(e, layers) && Contents(e, layers, ino) == []
    ensures forall n :: 0 <= n < |e.inodes| && n != ino ==> Contents(e, layers, n) == Contents(d, layers, n)
  {
    hide DiskOk, MaxFile;
    forall n, o: nat | 0 <= n < |e.inodes| && n != ino && o < e.inodes[n].size
      ensures ByteOf(e, layers, n, o) == ByteOf(d, layers, n, o)
    {
      MappedBelow(d, layers, n, o / BSIZE);
      assert FilePos(n, layers, o / BSIZE).ino == n;
    }
  }

  // ----- What the block trees mean on disk --------------------------------------------------------------

  /** Following block numbers on disk from `addr`, which covers block `k` from `height` levels up. */
  function Follow(blocks: seq<Block>, addr: nat, height: nat, k: nat): nat
    decreases height
  {
    if addr == 0 || height == 0 then addr
    else if addr >= |blocks| || |blocks[addr]| != BSIZE then 0
    else Follow(blocks, Word(blocks[addr], Rem(Quo(k, Pow(height - 1)), NINDIRECT)), height - 1, k)
  }

  /** The block number of block `bn` of file `ino` as the bytes of the disk give it, 0 for none. */
  function OnDisk(d: Disk, layers: nat, ino: nat, bn: nat): nat
    requires layers <= TOTBUF && bn < MaxFile(layers) && ino < |d.inodes| && |d.inodes[ino].addrs| == TOTBUF
  {
    var p := FilePos(ino, layers, bn);
    if p.Direct? then d.inodes[ino].addrs[p.i]
    else Follow(d.blocks, d.inodes[ino].addrs[TOTBUF - layers + p.l], p.l + 1, p.k)
  }

  /** The number of the `r`th block of layer `l` of file `ino`: from its top block in the inode along the digits of
      `r` to the base 256, the highest first. */
  function Numbered(d: Disk, layers: nat, ino: nat, l: nat, r: nat): nat
    requires l < layers <= TOTBUF && ino < |d.inodes| && |d.inodes[ino].addrs| == TOTBUF
  {
    Follow(d.blocks, d.inodes[ino].addrs[TOTBUF - layers + l], l + 1, r)
  }

  /** Layer 0 is one block of numbers ... */
  lemma SingleIs(d: Disk, layers: nat, ino: nat, r: nat)
    requires 0 < layers <= TOTBUF && ino < |d.inodes| && |d.inodes[ino].addrs| == TOTBUF && r < NINDIRECT
    requires var a := d.inodes[ino].addrs[TOTBUF - layers]; a < |d.blocks| && |d.blocks[a]| == BSIZE
    ensures var a := d.inodes[ino].addrs[TOTBUF - layers];
      Numbered(d, layers, ino, 0, r) == if a == 0 then 0 else Word(d.blocks[a], r)
  {
    assert Pow(0) == 1;
    Digit(r, 1);
  }

  /** ... and layer 1 a block of the numbers of such blocks. */
  lemma DoubleIs(d: Disk, layers: nat, ino: nat, r: nat)
    requires 1 < layers <= TOTBUF && ino < |d.inodes| && |d.inodes[ino].addrs| == TOTBUF && r < NINDIRECT * NINDIRECT
    requires var a := d.inodes[ino].addrs[TOTBUF - layers + 1];
      a < |d.blocks| && |d.blocks[a]| == BSIZE
      && Word(d.blocks[a], r / NINDIRECT) < |d.blocks| && |d.blocks[Word(d.blocks[a], r / NINDIRECT)]| == BSIZE
    ensures var a := d.inodes[ino].addrs[TOTBUF - layers + 1];
      var b := Word(d.blocks[a], r / NINDIRECT);
      Numbered(d, layers, ino, 1, r) == if a == 0 || b == 0 then 0 else Word(d.blocks[b], r % NINDIRECT)
  {
    assert Pow(0) == 1 && Pow(1) == NINDIRECT;
    Digit(r, 1);
    Digit(r / NINDIRECT, 1);
    var a := d.inodes[ino].addrs[TOTBUF - layers + 1];
    assert Rem(Quo(r, Pow(1)), NINDIRECT) == r / NINDIRECT;
    assert Rem(Quo(r, Pow(0)), NINDIRECT) == r % NINDIRECT;
    assert a != 0 ==> Follow(d.blocks, a, 2, r) == Follow(d.blocks, Word(d.blocks[a], r / NINDIRECT), 1, r);
  }

  lemma Digit(r: nat, one: nat)
    requires one == 1
    ensures Quo(r, one) == r && (r < NINDIRECT ==> Rem(r, NINDIRECT) == r)
  {
  }

  /** `OnDisk` is the entry of the inode for a direct block, and the number of its layer's block otherwise. */
  lemma OnDiskIs(d: Disk, layers: nat, ino: nat, bn: nat)
    requires layers <= TOTBUF && bn < MaxFile(layers) && ino < |d.inodes| && |d.inodes[ino].addrs| == TOTBUF
    ensures bn < TOTBUF - layers ==> OnDisk(d, layers, ino, bn) == d.inodes[ino].addrs[bn]
    ensures forall l: nat, r: nat :: InLayer(layers, bn, l, r) ==>
        OnDisk(d, layers, ino, bn) == Numbered(d, layers, ino, l, r)
    ensures bn >= TOTBUF - layers ==> exists l: nat, r: nat :: InLayer(layers, bn, l, r)
  {
    if bn >= TOTBUF - layers {
      var l, r := LayerOf(layers, 0, bn - (TOTBUF - layers));
      assert InLayer(layers, bn, l, r);
    }
    forall l: nat, r: nat | InLayer(layers, bn, l, r)
      ensures OnDisk(d, layers, ino, bn) == Numbered(d, layers, ino, l, r)
    {
      InLayerIs(ino, layers, bn, l, r);
    }
  }

  /** A byte of a file is the byte of the block whose number the disk gives. */
  lemma ByteOnDisk(d: Disk, layers: nat, ino: nat, o: nat)
    requires DiskOk(d, layers) && layers <= TOTBUF && o / BSIZE < MaxFile(layers) && ino < |d.inodes|
    ensures |d.inodes[ino].addrs| == TOTBUF
    ensures var b := OnDisk(d, layers, ino, o / BSIZE);
      b != 0 ==> b < |d.blocks| && |d.blocks[b]| == BSIZE && ByteOf(d, layers, ino, o) == d.blocks[b][o % BSIZE]
  {
    InTree(d, layers);
    DiskIsTree(d, layers, ino, o / BSIZE);
    hide DiskOk, FilePos, MaxFile, OnDisk;
  }

  lemma {:induction false} FollowIsTree(d: Disk, layers: nat, t: Pos, at: nat)
    requires DiskOk(d, layers) && t.Node? && IsData(t) && Wf(t, layers, |d.inodes|) && at <= t.d
    ensures Follow(d.blocks, Get(d.tree, Above(t, at)), t.d - at, t.k) == Get(d.tree, t)
    decreases t.d - at
  {
    hide DiskOk, Above, Wf, Quo, Rem;
    var p := Above(t, at);
    InTree(d, layers);
    AboveShape(t, at);
    AboveWf(t, t.d, layers, |d.inodes|);
    if at < t.d {
      AboveStep(t, at);
      OneLevel(t.k, Pow(t.d - at - 1), Pow(t.d - at));
      FollowIsTree(d, layers, t, at + 1);
      if p in d.tree {
        NodeSlot(d, layers, p, Rem(Quo(t.k, Pow(t.d - at - 1)), NINDIRECT));
      } else {
        TreeClosed(d, layers);
        if t in d.tree { AncestorsExist(d.tree, t, t.d); }
      }
    }
  }

  /** The tree the proofs speak of is what the disk says. */
  lemma DiskIsTree(d: Disk, layers: nat, ino: nat, bn: nat)
    requires DiskOk(d, layers) && layers <= TOTBUF && bn < MaxFile(layers) && ino < |d.inodes|
    ensures |d.inodes[ino].addrs| == TOTBUF && OnDisk(d, layers, ino, bn) == Get(d.tree, FilePos(ino, layers, bn))
  {
    InTree(d, layers);
    var t := FilePos(ino, layers, bn);
    if t.Direct? {
      RootSlot(d, layers, t);
    } else {
      AboveWf(t, 0, layers, |d.inodes|);
      AboveShape(t, 0);
      RootSlot(d, layers, Above(t, 0));
      FollowIsTree(d, layers, t, 0);
    }
  }

  /** `bmap` changes the block number of no other block of any file, and asked again gives the same
      block and changes nothing. */
  lemma BmapChangesOneBlock(d: Disk, e: Disk, layers: nat, ino: nat, bn: nat, addr: nat, n: nat, b: nat)
    requires DiskOk(d, layers) && DiskOk(e, layers) && ino < |d.inodes| && n < |d.inodes| && layers <= TOTBUF
    requires bn < MaxFile(layers) && b < MaxFile(layers) && (n != ino || b != bn)
    requires Reached(d, e, FilePos(ino, layers, bn), addr)
    ensures |e.inodes| == |d.inodes| && |d.inodes[n].addrs| == |e.inodes[n].addrs| == TOTBUF
    ensures OnDisk(e, layers, n, b) == OnDisk(d, layers, n, b)
    ensures forall f, again :: Reached(e, f, FilePos(ino, layers, bn), again) && addr != 0 ==> f == e && again == addr
  {
    DiskIsTree(d, layers, n, b);
    DiskIsTree(e, layers, n, b);
    var t, p := FilePos(ino, layers, bn), FilePos(n, layers, b);
    if p == t { FilePosInjective(n, layers, b, bn); }
    hide DiskOk, FilePos, MaxFile, OnDisk;
    if OnPath(p, t) { DataOnPath(p, t); }
  }

  lemma DataOnPath(p: Pos, t: Pos)
    requires IsData(p) && IsData(t) && OnPath(p, t)
    ensures p == t
  {
    if p != t { PathBelow(p, Parent(t)); }
  }

  lemma {:induction false} PathBelow(p: Pos, t: Pos)
    requires OnPath(p, t) && t.Node?
    ensures p.Node? && p.l == t.l && p.d <= t.d
    decreases t.d
  {
    if p != t { PathBelow(p, Parent(t)); }
  }

  /** Different blocks of files are different blocks of the disk, in use, and never indirect blocks. */
  lemma BlocksAreDistinct(d: Disk, layers: nat, ino: nat, bn: nat, n: nat, b: nat, indirect: Pos)
    requires DiskOk(d, layers) && layers <= TOTBUF && bn < MaxFile(layers) && b < MaxFile(layers)
    requires ino < |d.inodes| && n < |d.inodes| && |d.inodes[ino].addrs| == |d.inodes[n].addrs| == TOTBUF
    requires OnDisk(d, layers, ino, bn) != 0 && indirect in d.tree && !IsData(indirect)
    ensures OnDisk(d, layers, ino, bn) == OnDisk(d, layers, n, b) <==> ino == n && bn == b
    ensures OnDisk(d, layers, ino, bn) < |d.bitmap| && d.bitmap[OnDisk(d, layers, ino, bn)]
    ensures OnDisk(d, layers, ino, bn) != d.tree[indirect]
  {
    DiskIsTree(d, layers, ino, bn);
    DiskIsTree(d, layers, n, b);
    InTree(d, layers);
    var t, p := FilePos(ino, layers, bn), FilePos(n, layers, b);
    assert t.ino == ino && p.ino == n;
    if p == t { FilePosInjective(n, layers, b, bn); }
    hide DiskOk, FilePos, MaxFile, OnDisk;
  }

  /** What was written is what is read back, and what surrounds it is what was there. */
  lemma SpliceReads(s: seq<Byte>, off: nat, bytes: seq<Byte>)
    requires off <= |s|
    ensures var r := Spliced(s, off, bytes);
      && |r| == (if off + |bytes| > |s| then off + |bytes| else |s|)
      && r[..off] == s[..off] && r[off..off + |bytes|] == bytes
      && (off + |bytes| <= |s| ==> r[off + |bytes|..] == s[off + |bytes|..])
  {
  }

  class Fs {
    const layers: nat
    var bitmap: seq<bool>
    var blocks: seq<Block>
    var inodes: seq<Inode>
    ghost var tree: Tree

    ghost function Abs(): Disk
      reads this
    {
      Disk(tree, bitmap, blocks, inodes)
    }

    ghost predicate Valid()
      reads this
    {
      DiskOk(Abs(), layers)
    }

    // ----- Blocks (fs.c:65-105) ------------------------------------------------------------------

    /** `balloc`: the first free block, zeroed, or 0.  A bitmap block holds BSIZE * 8 bits. */
    method Balloc() returns (addr: nat)
      requires BootOk(bitmap, blocks)
      modifies this`bitmap, this`blocks
      ensures addr == 0 ==> bitmap == old(bitmap) && blocks == old(blocks) && Full(bitmap)
      ensures addr != 0 ==> addr < |old(bitmap)| && !old(bitmap)[addr]
                            && bitmap == old(bitmap)[addr := true] && blocks == old(blocks)[addr := Zeros()]
    {
      var b := 0;
      while b < |bitmap|
        invariant 0 <= b && bitmap == old(bitmap) && blocks == old(blocks)
        invariant forall i :: 0 <= i < b && i < |bitmap| ==> bitmap[i]
      {
        var bi := 0;
        while bi < BSIZE * 8 && b + bi < |bitmap|
          invariant 0 <= bi <= BSIZE * 8 && bitmap == old(bitmap) && blocks == old(blocks)
          invariant forall i :: 0 <= i < b + bi && i < |bitmap| ==> bitmap[i]
        {
          if !bitmap[b + bi] {
            bitmap := bitmap[b + bi := true];
            blocks := blocks[b + bi := Zeros()];
            return b + bi;
          }
          bi := bi + 1;
        }
        b := b + BSIZE * 8;
      }
      return 0;
    }

    // ----- bmap (fs.c:382-425) -----------------------------------------------------------------

    /** A root of a tree: a direct block, or the top block of a layer. */
    method RootBlock(pos: Pos) returns (addr: nat)
      requires Valid() && Wf(pos, layers, |inodes|) && (pos.Direct? || pos.d == 0)
      modifies this
      ensures Valid() && (addr == 0 ==> Full(bitmap) && pos !in tree)
      ensures addr != 0 ==> pos in tree && tree[pos] == addr
      ensures pos in old(tree) || addr == 0 ==> Abs() == old(Abs())
      ensures pos !in old(tree) && addr != 0 ==> AddedOne(old(Abs()), Abs(), pos, addr)
      ensures forall n :: 0 <= n < |inodes| && n != pos.ino ==> n < |old(inodes)| && inodes[n] == old(inodes)[n]
      ensures |inodes| == |old(inodes)|
    {
      hide DiskOk, AddedOne;
      RootSlot(Abs(), layers, pos);
      InTree(Abs(), layers);
      var idx := if pos.Direct? then pos.i else TOTBUF - layers + pos.l;
      addr := inodes[pos.ino].addrs[idx];
      if addr == 0 {
        addr := Balloc();
        if addr == 0 {
          return;
        }
        EnterRoot(old(Abs()), layers, pos, addr, idx);
        inodes := inodes[pos.ino := inodes[pos.ino].(addrs := inodes[pos.ino].addrs[idx := addr])];
        tree := tree[pos := addr];
      }
    }

    /** One level of the walk: from the block at depth `d` above `t` to the one below it.  Once a
        block could not be had, the walk goes on over the boot block, and gets nothing more. */
    method NextLevel(from: nat, idx: nat, ghost t: Pos, ghost d: nat) returns (addr: nat)
      requires Valid() && t.Node? && d < t.d && IsData(t) && Wf(t, layers, |inodes|)
      requires idx < NINDIRECT && Child(Above(t, d), idx) == Above(t, d + 1)
      requires if from == 0 then Full(bitmap) else Above(t, d) in tree && tree[Above(t, d)] == from
      modifies this`bitmap, this`blocks, this`tree
      ensures Valid() && (addr == 0 ==> Full(bitmap) && Abs() == old(Abs()))
      ensures addr != 0 ==> Above(t, d + 1) in tree && tree[Above(t, d + 1)] == addr
      ensures Above(t, d + 1) in old(tree) && from != 0 ==> addr != 0 && Abs() == old(Abs())
      ensures Abs() == old(Abs()) || AddedOne(old(Abs()), Abs(), Above(t, d + 1), addr)
    {
      hide DiskOk, AddedOne, Above, Wf, Word, SetWord;
      InTree(Abs(), layers);
      AboveShape(t, d);
      AboveShape(t, d + 1);
      ghost var parent := Above(t, d);
      if from != 0 {
        NodeSlot(Abs(), layers, parent, idx);
      } else {
        WordOfZeros(idx);
      }
      addr := Word(blocks[from], idx);
      if addr == 0 {
        addr := Balloc();
        if addr != 0 {
          AboveWf(t, d + 1, layers, |inodes|);
          EnterChild(old(Abs()), layers, parent, idx, addr);
          blocks := blocks[from := SetWord(blocks[from], idx, addr)];
          tree := tree[Child(parent, idx) := addr];
        }
      }
    }

    /** The walk of `bmap` down one layer, for block `bn` of that layer. */
    method WalkLayer(ino: nat, l: nat, block: nat, base: nat) returns (addr: nat)
      requires Valid() && ino < |inodes| && l < layers && block < Pow(l + 1) && base == Pow(l)
      modifies this
      ensures Valid() && Reached(old(Abs()), Abs(), Node(ino, l, l + 1, block), addr)
    {
      hide DiskOk, Above, AddedOne, Grew, OnPath, Wf, Quo, Rem, Pow, Full;
      ghost var t := Node(ino, l, l + 1, block);
      InTree(Abs(), layers);
      AboveWf(t, 0, layers, |inodes|);
      AboveWf(t, t.d, layers, |inodes|);
      AboveShape(t, 0);
      OnPathToTop(Abs(), layers, t);
      GrewNothing(Abs(), t);
      addr := RootBlock(Node(ino, l, 0, 0));
      if Abs() != old(Abs()) {
        GrewMore(old(Abs()), old(Abs()), Abs(), t, Above(t, 0), addr);
      }
      if addr == 0 {
        return;
      }
      var bn, prev_base, j := block, base, 0;
      SmallRem(block, Pow(l + 1));
      while j <= l
        invariant 0 <= j <= l + 1 && Valid()
        invariant if addr == 0 then Full(bitmap) else Above(t, j) in tree && tree[Above(t, j)] == addr
        invariant j <= l ==> bn == Rem(block, Pow(l + 1 - j)) && prev_base == Pow(l - j)
        invariant Grew(old(Abs()), Abs(), t) && |inodes| == old(|inodes|)
        invariant t in old(tree) ==> addr != 0 && Abs() == old(Abs())
      {
        AboveStep(t, j);
        if j < l { PowQuo(l - j); }
        AboveOnPath(t, j + 1, t.d);
        AboveShape(t, j + 1);
        ghost var before := Abs();
        addr := NextLevel(addr, Quo(bn, prev_base), t, j);
        SamePart(before, Abs(), Above(t, j + 1), addr);
        GrewOn(old(Abs()), before, Abs(), t, Above(t, j + 1), addr);
        bn, prev_base, j := Rem(bn, prev_base), Quo(prev_base, NINDIRECT), j + 1;
      }
    }

    /** `bmap`: the block number of block `bn` of a file, allocated on the way if need be; 0 when the
        disk is full.  The caller keeps `bn` below MAXFILE.  It is the number that inode and indirect blocks
        then hold for that block, and the one they held before if there was one. */
    method Bmap(ino: nat, bn: nat) returns (addr: nat)
      requires Valid() && ino < |inodes| && bn < MaxFile(layers)
      modifies this
      ensures Valid() && Reached(old(Abs()), Abs(), FilePos(ino, layers, bn), addr)
      ensures addr == 0 && bn < TOTBUF - layers ==> Abs() == old(Abs())
      ensures |inodes| == |old(inodes)| && |old(inodes)[ino].addrs| == |inodes[ino].addrs| == TOTBUF
      ensures bn < TOTBUF - layers && addr != 0 ==> inodes[ino].addrs[bn] == addr
      ensures bn < TOTBUF - layers && old(inodes)[ino].addrs[bn] != 0 ==> addr == old(inodes)[ino].addrs[bn]
      ensures forall l: nat, r: nat :: InLayer(layers, bn, l, r) && addr != 0 ==>
          Numbered(Abs(), layers, ino, l, r) == addr
      ensures forall l: nat, r: nat :: InLayer(layers, bn, l, r) && Numbered(old(Abs()), layers, ino, l, r) != 0 ==>
          addr == Numbered(old(Abs()), layers, ino, l, r)
    {
      addr := BmapPos(ino, bn);
      InTree(old(Abs()), layers);
      InTree(Abs(), layers);
      DiskIsTree(Abs(), layers, ino, bn);
      DiskIsTree(old(Abs()), layers, ino, bn);
      hide DiskOk, Grew, FilePos, MaxFile, OnDisk, Numbered, InLayer;
      OnDiskIs(Abs(), layers, ino, bn);
      OnDiskIs(old(Abs()), layers, ino, bn);
    }

    /** The same in terms of positions in the block trees. */
    method BmapPos(ino: nat, bn: nat) returns (addr: nat)
      requires Valid() && ino < |inodes| && bn < MaxFile(layers)
      modifies this
      ensures Valid() && Reached(old(Abs()), Abs(), FilePos(ino, layers, bn), addr)
      ensures addr == 0 && bn < TOTBUF - layers ==> Abs() == old(Abs())
    {
      hide DiskOk, AddedOne, Grew, LayerPos;
      InTree(Abs(), layers);
      GrewNothing(Abs(), FilePos(ino, layers, bn));
      if bn < TOTBUF - layers {
        addr := RootBlock(Direct(ino, bn));
        if Abs() != old(Abs()) {
          GrewMore(old(Abs()), old(Abs()), Abs(), Direct(ino, bn), Direct(ino, bn), addr);
        }
        return;
      }
      var rest: nat, base, prev_base, in_layer := bn - (TOTBUF - layers), NINDIRECT, 1, 0;
      while in_layer < layers
        invariant 0 <= in_layer <= layers && Abs() == old(Abs())
        invariant rest < Capacity(layers, in_layer) && base == Pow(in_layer + 1) && prev_base == Pow(in_layer)
        invariant LayerPos(ino, layers, in_layer, rest) == FilePos(ino, layers, bn)
      {
        LayerPosStep(ino, layers, in_layer, rest);
        if rest < base {
          addr := WalkLayer(ino, in_layer, rest, prev_base);
          return;
        }
        rest, prev_base, in_layer, base := rest - base, base, in_layer + 1, base * NINDIRECT;
      }
      assert false;
    }

    // ----- Truncation (fs.c:91-105, fs.c:429-465) -------------------------------------------------

    /** `bfree`: its panic "freeing free block" is the precondition. */
    method Bfree(b: nat)
      requires b < |bitmap| && bitmap[b]
      modifies this`bitmap
      ensures bitmap == old(bitmap)[b := false]
    {
      bitmap := bitmap[b := false];
    }

    /** `turnc_recur`: gives back the block of `pos` and every block below it, and nothing else. */
    method TruncRecur(addr: nat, layer: nat, ghost pos: Pos)
      requires pos in tree && tree[pos] == addr && pos.Node? && pos.d + layer == pos.l
      requires Intact(tree, bitmap, blocks, pos) && Placed(tree, layers, |inodes|) && Closed(tree) && Sized(blocks)
      modifies this`bitmap, this`blocks
      ensures Freed(old(bitmap), bitmap, Blocks(tree, pos)) && KeptBlocks(old(blocks), blocks, Blocks(tree, pos))
      ensures Sized(blocks)
      decreases layer
    {
      hide Placed, Closed, NodeOk, Under, Blocks, BlocksBelow, Word, SetWord;
      RootIntact(tree, bitmap, blocks, pos);
      NoneBelow(tree, pos);
      ghost var bitmap0, blocks0 := bitmap, blocks;
      var j := 0;
      while j < NINDIRECT
        invariant 0 <= j <= NINDIRECT
        invariant Freed(bitmap0, bitmap, BlocksBelow(tree, pos, j))
        invariant KeptBlocks(blocks0, blocks, BlocksBelow(tree, pos, j) + {addr})
        invariant |blocks[addr]| == BSIZE && Sized(blocks)
        invariant forall i: nat :: j <= i < NINDIRECT ==> Word(blocks[addr], i) == Get(tree, Child(pos, i))
      {
        ghost var c := Child(pos, j);
        ghost var b1, k1 := bitmap, blocks;
        NextBranch(tree, pos, j);
        IntactChild(tree, bitmap0, blocks0, pos, j);
        BranchesApart(tree, bitmap0, blocks0, pos, j);
        IntactApart(tree, bitmap0, bitmap, blocks0, blocks, c);
        var a := Word(blocks[addr], j);
        if a == 0 {
          ZeroSlot(tree, bitmap0, blocks0, pos, c);
          j := j + 1;
          continue;
        }
        if layer != 0 {
          TruncRecur(a, layer - 1, c);
          KeptWord(tree, blocks[addr], pos, j);
          blocks := blocks[addr := SetWord(blocks[addr], j, 0)];
        } else {
          DataBlocks(tree, c, layers, |inodes|);
          InUse(tree, bitmap, blocks, c);
          Bfree(a);
        }
        FreedMore(bitmap0, b1, bitmap, BlocksBelow(tree, pos, j), Blocks(tree, c));
        j := j + 1;
      }
      AllBranches(tree, pos);
      Bfree(addr);
    }

    /** `itrunc` has freed what the first `k` entries of the inode lead to. */
    ghost predicate HalfGone(d0: Disk, ino: nat, k: nat)
      reads this
    {
      && ino < |d0.inodes| && tree == d0.tree && Sized(blocks) && |inodes| == |d0.inodes|
      && |inodes[ino].addrs| == |d0.inodes[ino].addrs| == TOTBUF
      && (forall n :: 0 <= n < |inodes| && n != ino ==> inodes[n] == d0.inodes[n])
      && (forall i :: 0 <= i < TOTBUF ==> inodes[ino].addrs[i] == if i < k then 0 else d0.inodes[ino].addrs[i])
      && Freed(d0.bitmap, bitmap, Gone(d0.tree, ino, layers, k))
      && KeptBlocks(d0.blocks, blocks, Gone(d0.tree, ino, layers, k))
    }

    /** One round of the first loop of `itrunc`. */
    method TruncDirect(ino: nat, i: nat, ghost d0: Disk)
      requires DiskOk(d0, layers) && HalfGone(d0, ino, i) && layers <= TOTBUF && i < TOTBUF - layers
      modifies this`bitmap, this`inodes
      ensures HalfGone(d0, ino, i + 1)
    {
      hide DiskOk, Freed, KeptBlocks, Intact, Blocks, Gone, Under;
      ghost var pos, b1 := Direct(ino, i), bitmap;
      InTree(d0, layers);
      RootSlot(d0, layers, pos);
      GoneMore(d0, layers, pos);
      KeptMore(d0.blocks, blocks, blocks, Gone(d0.tree, ino, layers, i), Blocks(d0.tree, pos));
      var addr := inodes[ino].addrs[i];
      if addr != 0 {
        SubtreeStill(d0, layers, Gone(d0.tree, ino, layers, i), pos, bitmap, blocks);
        Bfree(addr);
        inodes := inodes[ino := inodes[ino].(addrs := inodes[ino].addrs[i := 0])];
        FreedOne(b1, bitmap, addr);
        FreedMore(d0.bitmap, b1, bitmap, Gone(d0.tree, ino, layers, i), Blocks(d0.tree, pos));
      }
    }

    /** One round of the second loop. */
    method TruncLayer(ino: nat, l: nat, ghost d0: Disk)
      requires DiskOk(d0, layers) && layers <= TOTBUF && l < layers && HalfGone(d0, ino, TOTBUF - layers + l)
      modifies this`bitmap, this`blocks, this`inodes
      ensures HalfGone(d0, ino, TOTBUF - layers + l + 1)
    {
      hide DiskOk, Freed, KeptBlocks, Intact, Blocks, Gone, Under;
      var idx := TOTBUF - layers + l;
      ghost var pos, b1, k1 := Node(ino, l, 0, 0), bitmap, blocks;
      InTree(d0, layers);
      RootSlot(d0, layers, pos);
      GoneMore(d0, layers, pos);
      if inodes[ino].addrs[idx] != 0 {
        SubtreeStill(d0, layers, Gone(d0.tree, ino, layers, idx), pos, bitmap, blocks);
        TruncRecur(inodes[ino].addrs[idx], l, pos);
        inodes := inodes[ino := inodes[ino].(addrs := inodes[ino].addrs[idx := 0])];
        FreedMore(d0.bitmap, b1, bitmap, Gone(d0.tree, ino, layers, idx), Blocks(d0.tree, pos));
        KeptMore(d0.blocks, k1, blocks, Gone(d0.tree, ino, layers, idx), Blocks(d0.tree, pos));
      }
    }

    /** `itrunc`: the inode loses all its blocks, exactly they become free, and it has size 0. */
    method Itrunc(ino: nat)
      requires Valid() && ino < |inodes|
      modifies this
      ensures Valid() && tree == Others(old(tree), ino) && |inodes| == |old(inodes)|
      ensures inodes[ino] == Inode(seq(TOTBUF, i => 0), 0)
      ensures forall n :: 0 <= n < |inodes| && n != ino ==> inodes[n] == old(inodes)[n]
      ensures Freed(old(bitmap), bitmap, FileBlocks(old(tree), ino))
      ensures forall p :: p in tree ==> blocks[tree[p]] == old(blocks)[tree[p]]
      ensures old(FilesOk(Abs(), layers)) ==> FilesOk(Abs(), layers) && Contents(Abs(), layers, ino) == []
      ensures old(FilesOk(Abs(), layers)) ==>
                forall n :: 0 <= n < |inodes| && n != ino ==>
                  Contents(Abs(), layers, n) == Contents(old(Abs()), layers, n)
    {
      hide DiskOk, Freed, KeptBlocks, Gone, FileBlocks, Others, FilesOk, ByteOf;
      InTree(Abs(), layers);
      ghost var d0 := Abs();
      TruncStart(d0, layers, ino);
      var nd := TOTBUF - layers;
      var i := 0;
      while i < nd
        invariant 0 <= i <= nd && HalfGone(d0, ino, i)
      {
        TruncDirect(ino, i, d0);
        i := i + 1;
      }
      var in_layer := 0;
      while in_layer < layers
        invariant 0 <= in_layer <= layers && HalfGone(d0, ino, nd + in_layer)
      {
        TruncLayer(ino, in_layer, d0);
        in_layer := in_layer + 1;
      }
      assert inodes[ino].addrs == seq(TOTBUF, i => 0);
      AllGoneDisk(d0, layers, ino);
      inodes := inodes[ino := inodes[ino].(size := 0)];
      TruncEnd(d0, layers, ino, bitmap, blocks, inodes);
      tree := Others(tree, ino);
      if FilesOk(d0, layers) { TruncFiles(d0, Abs(), layers, ino); }
    }

    // ----- Contents (fs.c:483-551) ------------------------------------------------------------------

    ghost predicate ValidFiles()
      reads this
    {
      Valid() && FilesOk(Abs(), layers)
    }

    /** `readi`: the bytes of the file in the range, as far as the file goes.  `good` tells how many bytes
        the destination can take: copying to user memory beyond that fails, and then the result is -1. */
    method Readi(ino: nat, off: nat, n: nat, good: nat) returns (r: int, dst: seq<Byte>)
      requires ValidFiles() && ino < |inodes| && off < UINT && n < UINT
      modifies this
      ensures ValidFiles() && Abs() == old(Abs())
      ensures var size := inodes[ino].size;
        var count := if off > size || off + n >= UINT then 0 else if off + n > size then size - off else n;
        && r == (if count <= good then count else -1) && |dst| <= count && (r != -1 ==> |dst| == r)
        && (count > 0 ==> dst == Contents(Abs(), layers, ino)[off..off + |dst|])
    {
      hide DiskOk, FilesOk, Reached, MaxFile, FilePos, ByteOf;
      dst := [];
      if off > inodes[ino].size || off + n >= UINT {
        return 0, dst;
      }
      var count := if off + n > inodes[ino].size then inodes[ino].size - off else n;
      var tot, at := 0, off;
      while tot < count
        invariant 0 <= tot <= count && tot <= good && at == off + tot && |dst| == tot && Abs() == old(Abs())
        invariant forall o :: off <= o < off + tot ==> ByteOf(Abs(), layers, ino, o) == dst[o - off]
      {
        MappedBelow(Abs(), layers, ino, at / BSIZE);
        ghost var d := Abs();
        var addr := Bmap(ino, at / BSIZE);
        AlreadyThere(d, Abs(), layers, ino, at / BSIZE, addr);
        if addr == 0 {
          break;
        }
        var m := if count - tot < BSIZE - at % BSIZE then count - tot else BSIZE - at % BSIZE;
        if tot + m > good {
          DstIs(Abs(), layers, ino, off, dst);
          return -1, dst;
        }
        ReadChunk(Abs(), layers, ino, at, m, addr);
        dst := dst + blocks[addr][at % BSIZE..at % BSIZE + m];
        tot, at := tot + m, at + m;
      }
      DstIs(Abs(), layers, ino, off, dst);
      return tot, dst;
    }

    /** The loop of `writei` (fs.c:528-541). */
    method WriteBlocks(ino: nat, off: nat, src: seq<Byte>, good: nat, kept: bool) returns (tot: nat, put: nat)
      requires ValidFiles() && ino < |inodes| && off <= inodes[ino].size && layers <= TOTBUF
      requires off + |src| < UINT && off + |src| <= MaxFile(layers) * BSIZE
      modifies this
      ensures Valid() && tot <= put <= |src| && Written(old(Abs()), Abs(), layers, ino, off, src, put)
      ensures tot < |src| ==>
          (Full(bitmap) && off + tot >= old(inodes)[ino].size && (off + tot) % BSIZE == 0 && put == tot)
          || (tot <= good < |src| && put == if kept then good else tot)
      ensures tot == |src| ==> |src| <= good
      ensures 0 < tot < |src| ==> (off + tot) % BSIZE == 0
      ensures InBlock(off, |src|) ==> Took(old(bitmap), bitmap, PathLength(layers, off / BSIZE))
      ensures InBlock(off, |src|) && off / BSIZE < TOTBUF - layers && |src| <= good && tot < |src| ==>
          bitmap == old(bitmap)
    {
      hide DiskOk, FilesOk, Reached, MaxFile, FilePos, ByteOf, Written, Splice, Full, Took, PathLength;
      TookNone(bitmap, PathLength(layers, off / BSIZE));
      LayersSmall(Abs(), layers);
      ghost var d0 := Abs();
      var at := off;
      tot, put := 0, 0;
      WrittenNothing(d0, layers, ino, off, src);
      while tot < |src|
        invariant 0 <= tot <= |src| && tot <= good && at == off + tot && put == tot
        invariant 0 < tot < |src| ==> at % BSIZE == 0
        invariant Valid() && Written(d0, Abs(), layers, ino, off, src, tot)
        invariant tot == 0 ==> Abs() == d0
        invariant InBlock(off, |src|) ==>
            Took(d0.bitmap, bitmap, PathLength(layers, off / BSIZE)) && (tot == 0 || tot == |src|)
      {
        ghost var d := Abs();
        InodesKept(d0, d, layers, ino, off, src, tot);
        BlockInFile(layers, at, off + |src|);
        var addr := Bmap(ino, at / BSIZE);
        BmapTakes(d, Abs(), layers, ino, at / BSIZE, addr);
        WrittenGrew(d0, d, Abs(), layers, ino, off, src, tot, addr);
        if addr == 0 {
          OnlyBeyond(d0, d, Abs(), layers, ino, off, src, tot);
          break;
        }
        ghost var e := Abs();
        var m := if |src| - tot < BSIZE - at % BSIZE then |src| - tot else BSIZE - at % BSIZE;
        if tot + m > good {
          if kept {
            WrittenMore(d0, e, layers, ino, off, src, tot, good - tot, addr);
            blocks := blocks[addr := Splice(blocks[addr], at % BSIZE, src[tot..good])];
            put := good;
          }
          break;
        }
        WrittenMore(d0, e, layers, ino, off, src, tot, m, addr);
        blocks := blocks[addr := Splice(blocks[addr], at % BSIZE, src[tot..tot + m])];
        tot, at, put := tot + m, at + m, tot + m;
      }
    }

    /** `writei`: -1, or the number of bytes written.  Copying from user memory fails after `good` bytes,
        and stops the loop as a full disk does.  The copy that fails has already changed the cached block:
        if that buffer is `kept`, the block does hold what was copied.  `put` bytes reach the blocks; they
        are spliced in as far as the file goes; no other byte of any file changes. */
    method Writei(ino: nat, off: nat, src: seq<Byte>, good: nat, kept: bool) returns (tot: int, put: int)
      requires ValidFiles() && ino < |inodes| && off < UINT && |src| < UINT
      modifies this
      ensures ValidFiles() && |inodes| == |old(inodes)|
      ensures tot == -1 <==> off > old(inodes)[ino].size || off + |src| >= UINT || off + |src| > MaxFile(layers) * BSIZE
      ensures tot == -1 ==> Abs() == old(Abs())
      ensures tot != -1 ==> 0 <= tot <= put <= |src| && inodes[ino].size == Larger(off + tot, old(inodes)[ino].size)
      ensures 0 <= tot < |src| ==>
          (Full(bitmap) && off + tot >= old(inodes)[ino].size && (off + tot) % BSIZE == 0 && put == tot)
          || (tot <= good < |src| && put == if kept then good else tot)
      ensures InBlock(off, |src|) ==> Took(old(bitmap), bitmap, PathLength(layers, off / BSIZE))
      ensures InBlock(off, |src|) && off / BSIZE < TOTBUF - layers && |src| <= good && 0 <= tot < |src| ==>
          Full(old(bitmap))
      ensures tot == |src| ==> put == tot && |src| <= good
      ensures 0 < tot < |src| ==> (off + tot) % BSIZE == 0
      ensures tot != -1 ==> inodes[ino].size <= |Spliced(Contents(old(Abs()), layers, ino), off, src[..put])|
      ensures tot != -1 ==> Contents(Abs(), layers, ino)
                            == Spliced(Contents(old(Abs()), layers, ino), off, src[..put])[..inodes[ino].size]
      ensures put == tot && tot != -1 ==>
                Contents(Abs(), layers, ino) == Spliced(Contents(old(Abs()), layers, ino), off, src[..tot])
      ensures forall n :: 0 <= n < |inodes| && n != ino ==>
                inodes[n] == old(inodes)[n] && Contents(Abs(), layers, n) == Contents(old(Abs()), layers, n)
    {
      hide DiskOk, FilesOk, Reached, MaxFile, FilePos, ByteOf, Written, Splice, Took, Full, PathLength;
      TookNone(bitmap, PathLength(layers, off / BSIZE));
      LayersSmall(Abs(), layers);
      if off > inodes[ino].size || off + |src| >= UINT {
        return -1, -1;
      }
      if off + |src| > MaxFile(layers) * BSIZE {
        return -1, -1;
      }
      ghost var d0 := Abs();
      tot, put := WriteBlocks(ino, off, src, good, kept);
      InodesKept(d0, Abs(), layers, ino, off, src, put);
      AllSpliced(d0, layers, ino, off, src[..put]);
      WrittenDone(d0, Abs(), layers, ino, off, src, put, tot);
      assert inodes[ino := inodes[ino].(size := inodes[ino].size)] == inodes;
      if off + tot > inodes[ino].size {
        inodes := inodes[ino := inodes[ino].(size := off + tot)];
      }
    }

    /** A write inside the file, of less than a block, that is reported as having written nothing and has
        changed the file: the copy failed half way and the buffer stayed in the cache. */
    method TornWrite(ino: nat, src: seq<Byte>, good: nat) returns (tot: int)
      requires ValidFiles() && ino < |inodes| && 0 < good < |src| <= BSIZE && |src| <= inodes[ino].size
      modifies this
      ensures ValidFiles() && tot == 0 && |inodes| == |old(inodes)|
      ensures Contents(Abs(), layers, ino) == Spliced(Contents(old(Abs()), layers, ino), 0, src[..good])
    {
      hide DiskOk, ByteOf;
      var put;
      tot, put := Writei(ino, 0, src, good, true);
      ghost var s := Contents(old(Abs()), layers, ino);
      assert Spliced(s, 0, src[..good])[..|s|] == Spliced(s, 0, src[..good]);
    }

    // ----- Start ------------------------------------------------------------------------------------

    /** A disk fresh from mkfs: the first `meta` blocks are in use, inodes have no blocks. */
    constructor Mkfs(layers: nat, nblocks: nat, meta: nat, ninodes: nat)
      requires layers <= TOTBUF && 0 < meta <= nblocks <= UINT
      ensures this.layers == layers && ValidFiles() && |inodes| == ninodes && |bitmap| == nblocks
      ensures forall b :: 0 <= b < nblocks ==> (bitmap[b] <==> b < meta)
      ensures forall n :: 0 <= n < ninodes ==>
          inodes[n] == Inode(seq(TOTBUF, i => 0), 0) && Contents(Abs(), layers, n) == []
    {
      this.layers := layers;
      bitmap := seq(nblocks, b => b < meta);
      blocks := seq(nblocks, b => Zeros());
      inodes := seq(ninodes, n => Inode(seq(TOTBUF, i => 0), 0));
      tree := map[];
    }
  }
}
