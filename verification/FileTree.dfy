/** The block trees of lab9/kernel/fs.c: block bitmap, inodes, and for each inode direct blocks and
    `layers` trees of indirect blocks of depth 1, 2, ...; the repository sets INDIR_LAYERS to 2. */
module FileTree {

  const BSIZE: nat := 1024
  const NINDIRECT: nat := 256   // BSIZE / sizeof(uint)
  const TOTBUF: nat := 13       // block numbers in an inode; NDIRECT is TOTBUF - layers
  const UINT: nat := 0x1_0000_0000

  type Byte = b: int | 0 <= b < 256 witness 0
  type Block = seq<Byte>

  datatype Inode = Inode(addrs: seq<nat>, size: nat)

  function Zeros(): (r: Block)
    ensures |r| == BSIZE && forall i :: 0 <= i < BSIZE ==> r[i] == 0
  {
    seq(BSIZE, i => 0)
  }

  // ----- Block numbers inside an indirect block, little-endian ---------------------------------

  function Word(b: Block, j: nat): (w: nat)
    requires |b| == BSIZE && j < NINDIRECT
  {
    Int4(b[4 * j], b[4 * j + 1], b[4 * j + 2], b[4 * j + 3])
  }

  function Int4(b0: int, b1: int, b2: int, b3: int): int { b0 + 0x100 * b1 + 0x1_0000 * b2 + 0x100_0000 * b3 }

  function SetWord(b: Block, j: nat, w: nat): (r: Block)
    requires |b| == BSIZE && j < NINDIRECT && w < UINT
    ensures |r| == BSIZE
  {
    b[4 * j := w % 0x100][4 * j + 1 := w / 0x100 % 0x100]
     [4 * j + 2 := w / 0x1_0000 % 0x100][4 * j + 3 := w / 0x100_0000]
  }

  /** Numbers are stored in four bytes, the lowest first. */
  lemma LowestFirst(b: Block, j: nat, w: nat, i: nat)
    requires |b| == BSIZE && j < NINDIRECT && w < UINT && i < 4
    ensures w == Word(SetWord(b, j, w), j)
    ensures SetWord(b, j, w)[4 * j + i] == w / (if i == 0 then 1 else if i == 1 then 256 else if i == 2 then 65536
                                                else 16777216) % 256
  {
    Recompose(w);
    assert w / 0x100_0000 < 0x100;
  }

  lemma Recompose(w: nat)
    ensures Int4(w % 0x100, w / 0x100 % 0x100, w / 0x1_0000 % 0x100, w / 0x100_0000) == w
  {
    assert w / 0x1_0000 == w / 0x100 / 0x100 && w / 0x100_0000 == w / 0x1_0000 / 0x100;
  }

  lemma WordOfSet(b: Block, j: nat, w: nat, i: nat)
    requires |b| == BSIZE && j < NINDIRECT && w < UINT && i < NINDIRECT
    ensures Word(SetWord(b, j, w), i) == if i == j then w else Word(b, i)
  {
    Recompose(w);
  }

  lemma WordOfZeros(j: nat)
    requires j < NINDIRECT
    ensures Word(Zeros(), j) == 0
  {
  }

  // ----- Positions -----------------------------------------------------------------------------

  /** Where a block sits: the `i`th direct block of an inode, or, in the tree of layer `l`, the `k`th
      block at depth `d`.  Depth 0 is the top block, depth `l + 1` holds data. */
  datatype Pos = Direct(ino: nat, i: nat) | Node(ino: nat, l: nat, d: nat, k: nat)

  function Pow(d: nat): (r: nat)
    ensures r > 0
  {
    if d == 0 then 1 else NINDIRECT * Pow(d - 1)
  }

  predicate Wf(pos: Pos, layers: nat, ninodes: nat) {
    pos.ino < ninodes && layers <= TOTBUF
    && if pos.Direct? then pos.i < TOTBUF - layers else pos.l < layers && pos.d <= pos.l + 1 && pos.k < Pow(pos.d)
  }

  predicate IsData(pos: Pos) { pos.Direct? || pos.d == pos.l + 1 }

  function Parent(pos: Pos): Pos
    requires pos.Node? && pos.d > 0
  {
    Node(pos.ino, pos.l, pos.d - 1, pos.k / NINDIRECT)
  }

  function Child(pos: Pos, j: nat): Pos
    requires pos.Node?
  {
    Node(pos.ino, pos.l, pos.d + 1, pos.k * NINDIRECT + j)
  }

  type Tree = map<Pos, nat>

  /** The block number stored for a position: 0 if there is none. */
  function Get(tree: Tree, pos: Pos): nat { if pos in tree then tree[pos] else 0 }

  /** The position of block `bn` of a file, counted within the trees from layer `l` on. */
  function LayerPos(ino: nat, layers: nat, l: nat, bn: nat): (r: Pos)
    requires l <= layers && bn < Capacity(layers, l)
    ensures r.Node? && r.ino == ino && l <= r.l < layers && r.d == r.l + 1 && r.k < Pow(r.d)
    decreases layers - l
  {
    if bn < Pow(l + 1) then Node(ino, l, l + 1, bn) else LayerPos(ino, layers, l + 1, bn - Pow(l + 1))
  }

  function Capacity(layers: nat, l: nat): nat
    requires l <= layers
    decreases layers - l
  {
    if l == layers then 0 else Pow(l + 1) + Capacity(layers, l + 1)
  }

  /** MAXFILE. */
  function MaxFile(layers: nat): nat
    requires layers <= TOTBUF
  {
    TOTBUF - layers + Capacity(layers, 0)
  }

  /** The position of block `bn` of file `ino`. */
  function FilePos(ino: nat, layers: nat, bn: nat): (r: Pos)
    requires layers <= TOTBUF && bn < MaxFile(layers)
    ensures IsData(r) && r.ino == ino && forall n: nat :: ino < n ==> Wf(r, layers, n)
  {
    if bn < TOTBUF - layers then Direct(ino, bn) else LayerPos(ino, layers, 0, bn - (TOTBUF - layers))
  }

  /** Blocks of the layers from `from` to before `l`. */
  function Before(from: nat, l: nat): nat
    requires from <= l
    decreases l - from
  {
    if from == l then 0 else Pow(from + 1) + Before(from + 1, l)
  }

  /** Block `bn` of a file is the `r`th of the tree of layer `l`, behind the direct blocks and the lower layers. */
  predicate InLayer(layers: nat, bn: nat, l: nat, r: nat) {
    l < layers <= TOTBUF && r < Pow(l + 1) && bn == TOTBUF - layers + Before(0, l) + r
  }

  lemma {:induction false} LayerPosIs(ino: nat, layers: nat, from: nat, l: nat, r: nat)
    requires from <= l < layers && r < Pow(l + 1)
    ensures Before(from, l) + r < Capacity(layers, from)
    ensures LayerPos(ino, layers, from, Before(from, l) + r) == Node(ino, l, l + 1, r)
    decreases l - from
  {
    if from < l {
      LayerPosIs(ino, layers, from + 1, l, r);
    }
  }

  lemma InLayerIs(ino: nat, layers: nat, bn: nat, l: nat, r: nat)
    requires InLayer(layers, bn, l, r)
    ensures bn < MaxFile(layers) && FilePos(ino, layers, bn) == Node(ino, l, l + 1, r)
  {
    LayerPosIs(ino, layers, 0, l, r);
    hide LayerPos, Before, Capacity, Pow;
  }

  /** Every block is a direct one or in exactly one place of one layer. */
  lemma {:induction false} LayerOf(layers: nat, from: nat, x: nat) returns (l: nat, r: nat)
    requires from <= layers && x < Capacity(layers, from)
    ensures from <= l < layers && r < Pow(l + 1) && x == Before(from, l) + r
    decreases layers - from
  {
    if x < Pow(from + 1) {
      l, r := from, x;
    } else {
      l, r := LayerOf(layers, from + 1, x - Pow(from + 1));
    }
  }

  lemma {:induction false} LayerPosInjective(ino: nat, layers: nat, l: nat, a: nat, b: nat)
    requires l <= layers && a < Capacity(layers, l) && b < Capacity(layers, l)
    requires LayerPos(ino, layers, l, a) == LayerPos(ino, layers, l, b)
    ensures a == b
    decreases layers - l
  {
    if a >= Pow(l + 1) && b >= Pow(l + 1) {
      LayerPosInjective(ino, layers, l + 1, a - Pow(l + 1), b - Pow(l + 1));
    }
  }

  lemma FilePosInjective(ino: nat, layers: nat, a: nat, b: nat)
    requires layers <= TOTBUF && a < MaxFile(layers) && b < MaxFile(layers)
    requires FilePos(ino, layers, a) == FilePos(ino, layers, b)
    ensures a == b
  {
    hide LayerPos, Wf, Pow;
    var nd := TOTBUF - layers;
    if a >= nd && b >= nd {
      LayerPosInjective(ino, layers, 0, a - nd, b - nd);
    }
  }

  // ----- Invariant -----------------------------------------------------------------------------

  ghost predicate Placed(tree: Tree, layers: nat, ninodes: nat) {
    forall pos :: pos in tree ==> Wf(pos, layers, ninodes)
  }

  /** Blocks of trees are in use, and no two positions share one. */
  ghost predicate Owned(tree: Tree, bitmap: seq<bool>) {
    && (forall pos :: pos in tree ==> 0 < tree[pos] < |bitmap| && bitmap[tree[pos]])
    && (forall p, q :: p in tree && q in tree && tree[p] == tree[q] ==> p == q)
  }

  ghost predicate Rooted(tree: Tree, inodes: seq<Inode>, layers: nat) {
    && layers <= TOTBUF
    && (forall n :: 0 <= n < |inodes| ==> |inodes[n].addrs| == TOTBUF)
    && (forall n, i :: 0 <= n < |inodes| && 0 <= i < TOTBUF - layers ==> inodes[n].addrs[i] == Get(tree, Direct(n, i)))
    && (forall n, l: nat :: 0 <= n < |inodes| && l < layers ==>
          inodes[n].addrs[TOTBUF - layers + l] == Get(tree, Node(n, l, 0, 0)))
  }

  /** What an indirect block says is what the tree has below it. */
  ghost predicate NodeOk(tree: Tree, block: Block, pos: Pos)
    requires pos.Node?
  {
    |block| == BSIZE && forall j: nat :: j < NINDIRECT ==> Word(block, j) == Get(tree, Child(pos, j))
  }

  ghost predicate Linked(tree: Tree, blocks: seq<Block>) {
    && (forall b :: 0 <= b < |blocks| ==> |blocks[b]| == BSIZE)
    && (forall pos :: pos in tree && !IsData(pos) && tree[pos] < |blocks| ==> NodeOk(tree, blocks[tree[pos]], pos))
  }

  ghost predicate Closed(tree: Tree) {
    forall pos :: pos in tree && pos.Node? && pos.d > 0 ==> Parent(pos) in tree
  }

  /** The boot block is in use and all zero: `bmap` reads it once `balloc` has failed. */
  ghost predicate BootOk(bitmap: seq<bool>, blocks: seq<Block>) {
    0 < |bitmap| == |blocks| <= UINT && bitmap[0] && blocks[0] == Zeros()
  }

  ghost predicate TreeOk(tree: Tree, bitmap: seq<bool>, blocks: seq<Block>, inodes: seq<Inode>, layers: nat) {
    && BootOk(bitmap, blocks) && Placed(tree, layers, |inodes|) && Owned(tree, bitmap)
    && Rooted(tree, inodes, layers) && Linked(tree, blocks) && Closed(tree)
  }

  // ----- Growing a tree ------------------------------------------------------------------------

  /** A block in use that no position has yet. */
  predicate Spare(tree: Tree, bitmap: seq<bool>, b: nat) {
    0 < b < |bitmap| && bitmap[b] && forall pos :: pos in tree ==> tree[pos] != b
  }

  /** `balloc` of block `b`: marked in use, zeroed. */
  lemma TakeBlock(tree: Tree, bitmap: seq<bool>, blocks: seq<Block>, inodes: seq<Inode>, layers: nat, b: nat)
    requires TreeOk(tree, bitmap, blocks, inodes, layers) && b < |bitmap| && !bitmap[b]
    ensures TreeOk(tree, bitmap[b := true], blocks[b := Zeros()], inodes, layers) && Spare(tree, bitmap[b := true], b)
  {
    hide Rooted, Closed, Placed, NodeOk;
    assert forall pos :: pos in tree ==> tree[pos] != b;
  }

  /** A position none of whose blocks exist yet. */
  lemma NoChildren(tree: Tree, pos: Pos, j: nat)
    requires Closed(tree) && pos.Node? && pos !in tree && j < NINDIRECT
    ensures Child(pos, j) !in tree
  {
    assert Parent(Child(pos, j)) == pos;
  }

  lemma OwnedAdd(tree: Tree, bitmap: seq<bool>, pos: Pos, b: nat)
    requires Owned(tree, bitmap) && pos !in tree && Spare(tree, bitmap, b)
    ensures Owned(tree[pos := b], bitmap)
  {
  }

  lemma ClosedAdd(tree: Tree, pos: Pos, b: nat)
    requires Closed(tree) && (pos.Node? && pos.d > 0 ==> Parent(pos) in tree)
    ensures Closed(tree[pos := b])
  {
  }

  lemma PlacedAdd(tree: Tree, layers: nat, ninodes: nat, pos: Pos, b: nat)
    requires Placed(tree, layers, ninodes) && Wf(pos, layers, ninodes)
    ensures Placed(tree[pos := b], layers, ninodes)
  {
  }

  /** Indirect blocks other than the new one's parent and the new one do not notice. */
  lemma NodeElsewhere(tree: Tree, block: Block, p: Pos, pos: Pos, b: nat)
    requires p.Node? && NodeOk(tree, block, p) && !(pos.Node? && pos.d > 0 && Parent(pos) == p)
    ensures NodeOk(tree[pos := b], block, p)
  {
    forall j: nat | j < NINDIRECT ensures Get(tree[pos := b], Child(p, j)) == Get(tree, Child(p, j)) {
      assert Parent(Child(p, j)) == p;
    }
  }

  lemma NodeFresh(tree: Tree, pos: Pos, b: nat)
    requires Closed(tree) && pos.Node? && pos !in tree
    ensures NodeOk(tree[pos := b], Zeros(), pos)
  {
    forall j: nat | j < NINDIRECT ensures Word(Zeros(), j) == Get(tree[pos := b], Child(pos, j)) {
      NoChildren(tree, pos, j);
      WordOfZeros(j);
    }
  }

  /** A zeroed block becomes a direct block or the top of a layer (fs.c:389-394, fs.c:403-406). */
  lemma AddToInode(tree: Tree, bitmap: seq<bool>, blocks: seq<Block>, inodes: seq<Inode>, layers: nat, pos: Pos, b: nat,
                   i: nat)
    requires TreeOk(tree, bitmap, blocks, inodes, layers) && pos !in tree && Wf(pos, layers, |inodes|)
    requires Spare(tree, bitmap, b) && blocks[b] == Zeros()
    requires pos.Direct? || pos.d == 0
    requires i == if pos.Direct? then pos.i else TOTBUF - layers + pos.l
    ensures |inodes[pos.ino].addrs| == TOTBUF
    ensures TreeOk(tree[pos := b], bitmap, blocks,
                   inodes[pos.ino := inodes[pos.ino].(addrs := inodes[pos.ino].addrs[i := b])], layers)
  {
    hide NodeOk;
    OwnedAdd(tree, bitmap, pos, b);
    ClosedAdd(tree, pos, b);
    PlacedAdd(tree, layers, |inodes|, pos, b);
    if pos.Node? { NodeFresh(tree, pos, b); }
    forall p | p in tree && !IsData(p) ensures NodeOk(tree[pos := b], blocks[tree[p]], p) {
      NodeElsewhere(tree, blocks[tree[p]], p, pos, b);
    }
  }

  /** A zeroed block is entered into its parent's indirect block (fs.c:411-415). */
  lemma AddToParent(tree: Tree, bitmap: seq<bool>, blocks: seq<Block>, inodes: seq<Inode>, layers: nat, parent: Pos,
                    j: nat, b: nat)
    requires TreeOk(tree, bitmap, blocks, inodes, layers) && parent in tree && !IsData(parent) && j < NINDIRECT
    requires Child(parent, j) !in tree && Wf(Child(parent, j), layers, |inodes|)
    requires Spare(tree, bitmap, b) && blocks[b] == Zeros()
    ensures tree[parent] < |blocks| && |blocks[tree[parent]]| == BSIZE
    ensures TreeOk(tree[Child(parent, j) := b], bitmap, blocks[tree[parent] := SetWord(blocks[tree[parent]], j, b)],
                   inodes, layers)
  {
    hide NodeOk;
    var pos := Child(parent, j);
    var tree', blocks' := tree[pos := b], blocks[tree[parent] := SetWord(blocks[tree[parent]], j, b)];
    assert Parent(pos) == parent;
    OwnedAdd(tree, bitmap, pos, b);
    ClosedAdd(tree, pos, b);
    PlacedAdd(tree, layers, |inodes|, pos, b);
    NodeFresh(tree, pos, b);
    NodeEntered(tree, blocks[tree[parent]], parent, j, b);
    forall p | p in tree && !IsData(p) && p != parent ensures NodeOk(tree', blocks[tree[p]], p) {
      NodeElsewhere(tree, blocks[tree[p]], p, pos, b);
    }
    hide Rooted;
    RootedAdd(tree, inodes, layers, pos, b);
  }

  lemma NodeEntered(tree: Tree, block: Block, parent: Pos, j: nat, b: nat)
    requires parent.Node? && NodeOk(tree, block, parent) && j < NINDIRECT && b < UINT
    ensures NodeOk(tree[Child(parent, j) := b], SetWord(block, j, b), parent)
  {
    forall i: nat | i < NINDIRECT
      ensures Word(SetWord(block, j, b), i) == Get(tree[Child(parent, j) := b], Child(parent, i))
    {
      WordOfSet(block, j, b, i);
    }
  }

  lemma RootedAdd(tree: Tree, inodes: seq<Inode>, layers: nat, pos: Pos, b: nat)
    requires Rooted(tree, inodes, layers) && pos.Node? && pos.d > 0
    ensures Rooted(tree[pos := b], inodes, layers)
  {
  }

  // ----- The path from a top block to a data block ----------------------------------------------

  lemma DivUnique(n: nat, p: nat, x: nat, r: nat)
    requires p > 0 && n == p * x + r && r < p
    ensures n / p == x && n % p == r
  {
    var y, t := n / p, n % p;
    assert n == p * y + t;
    if y < x {
      assert p * (x - y) == t - r;
      assert p * (x - y) >= p by { MulLe(p, 1, x - y); }
      assert false;
    } else if y > x {
      assert p * (y - x) == r - t;
      assert p * (y - x) >= p by { MulLe(p, 1, y - x); }
      assert false;
    }
  }

  lemma MulLe(p: nat, a: nat, b: nat)
    requires a <= b
    ensures p * a <= p * b
  {
  }

  lemma Compose(n: nat, p: nat, q: nat, r: nat, a: nat, t: nat)
    requires n == NINDIRECT * p * q + r && r == p * a + t
    ensures n == p * (NINDIRECT * q + a) + t
  {
    assert NINDIRECT * p * q == p * (NINDIRECT * q);
    assert p * (NINDIRECT * q + a) == p * (NINDIRECT * q) + p * a;
  }

  lemma SmallDigit(p: nat, a: nat, t: nat)
    requires p * a + t < NINDIRECT * p
    ensures a < NINDIRECT
  {
    if a >= NINDIRECT { MulLe(p, NINDIRECT, a); }
  }

  // Division and remainder under names that a proof can hide.

  function Quo(n: nat, p: nat): nat
    requires p > 0
  {
    n / p
  }

  function Rem(n: nat, p: nat): nat
    requires p > 0
  {
    n % p
  }

  lemma Quotient(n: nat, c: nat)
    requires c > 0
    ensures n == c * Quo(n, c) + Rem(n, c) && Rem(n, c) < c
  {
  }

  lemma Digits(n: nat, p: nat, q: nat, a: nat, t: nat)
    requires n == p * (NINDIRECT * q + a) + t && t < p && a < NINDIRECT
    ensures Rem(Quo(n, p), NINDIRECT) == a && Quo(Quo(n, p), NINDIRECT) == q && Rem(n, p) == t
  {
    DivUnique(n, p, NINDIRECT * q + a, t);
  }

  lemma Levels(n: nat, p: nat, c: nat, q: nat, r: nat, a: nat, t: nat)
    requires c == NINDIRECT * p && n == c * q + r && r < c && r == p * a + t && t < p
    ensures Rem(Quo(n, p), NINDIRECT) == a < NINDIRECT && Quo(Quo(n, p), NINDIRECT) == q && Rem(n, p) == t
  {
    SmallDigit(p, a, t);
    Compose(n, p, q, r, a, t);
    Digits(n, p, q, a, t);
  }

  /** The index arithmetic of `bmap`: dividing by a power of NINDIRECT peels off one level. */
  lemma OneLevel(n: nat, p: nat, c: nat)
    requires p > 0 && c == NINDIRECT * p
    ensures Quo(Rem(n, c), p) == Rem(Quo(n, p), NINDIRECT) && Quo(Rem(n, c), p) < NINDIRECT
    ensures Quo(Quo(n, p), NINDIRECT) == Quo(n, c)
    ensures Rem(Rem(n, c), p) == Rem(n, p)
  {
    hide Quo, Rem;
    Quotient(n, c);
    Quotient(Rem(n, c), p);
    Levels(n, p, c, Quo(n, c), Rem(n, c), Quo(Rem(n, c), p), Rem(Rem(n, c), p));
  }

  /** The block at depth `d` above data block `t`. */
  function Above(t: Pos, d: nat): Pos
    requires t.Node? && d <= t.d
  {
    Node(t.ino, t.l, d, t.k / Pow(t.d - d))
  }

  lemma PowQuo(d: nat)
    requires d > 0
    ensures Quo(Pow(d), NINDIRECT) == Pow(d - 1)
  {
  }

  lemma AboveStep(t: Pos, d: nat)
    requires t.Node? && d < t.d
    ensures Parent(Above(t, d + 1)) == Above(t, d)
    ensures Above(t, d + 1) == Child(Above(t, d), Quo(Rem(t.k, Pow(t.d - d)), Pow(t.d - d - 1)))
    ensures Quo(Rem(t.k, Pow(t.d - d)), Pow(t.d - d - 1)) < NINDIRECT
    ensures Rem(Rem(t.k, Pow(t.d - d)), Pow(t.d - d - 1)) == Rem(t.k, Pow(t.d - d - 1))
  {
    OneLevel(t.k, Pow(t.d - d - 1), Pow(t.d - d));
  }

  lemma {:induction false} AboveWf(t: Pos, d: nat, layers: nat, ninodes: nat)
    requires t.Node? && d <= t.d && Wf(t, layers, ninodes)
    ensures Wf(Above(t, d), layers, ninodes) && (d == 0 ==> Above(t, d).k == 0) && (d == t.d ==> Above(t, d) == t)
    decreases t.d - d
  {
    if d < t.d {
      AboveWf(t, d + 1, layers, ninodes);
      AboveStep(t, d);
      assert Above(t, d + 1).k / NINDIRECT < Pow(d);
    }
  }

  predicate OnPath(p: Pos, t: Pos)
    decreases if t.Node? then t.d else 0
  {
    p == t || (t.Node? && t.d > 0 && OnPath(p, Parent(t)))
  }

  lemma {:induction false} AboveOnPath(t: Pos, d: nat, e: nat)
    requires t.Node? && d <= e <= t.d
    ensures OnPath(Above(t, d), Above(t, e))
    decreases e
  {
    if d < e {
      AboveStep(t, e - 1);
      AboveOnPath(t, d, e - 1);
    }
  }
}
