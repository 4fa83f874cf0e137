/** Subtrees of the block trees of lab9/kernel/fs.c, and the sets of blocks `itrunc` gives back. */
module FileTruncation {
  import opened FileTree

  /** `q` is `pos` or below it. */
  predicate Under(pos: Pos, q: Pos)
    decreases if q.Node? then q.d else 0
  {
    q == pos || (pos.Node? && q.Node? && q.d > pos.d && Under(pos, Parent(q)))
  }

  /** Under which child of `pos` a lower position `q` is. */
  function Branch(pos: Pos, q: Pos): nat
    requires pos.Node? && Under(pos, q) && q != pos
    decreases if q.Node? then q.d else 0
  {
    if Parent(q) == pos then q.k % NINDIRECT else Branch(pos, Parent(q))
  }

  lemma {:induction false} UnderChild(pos: Pos, j: nat, q: Pos)
    requires pos.Node? && j < NINDIRECT
    ensures Under(Child(pos, j), q) <==> Under(pos, q) && q != pos && Branch(pos, q) == j
    decreases if q.Node? then q.d else 0
  {
    var c := Child(pos, j);
    assert Parent(c) == pos;
    if q.Node? && q.d > pos.d {
      if Parent(q) == pos {
        assert q == Child(pos, q.k % NINDIRECT);
        NotUnderDeeper(c, Parent(q));
      } else {
        UnderChild(pos, j, Parent(q));
      }
    } else {
      NotUnderDeeper(c, q);
    }
  }

  lemma {:induction false} NotUnderDeeper(pos: Pos, q: Pos)
    requires pos.Node? && (q.Node? ==> q.d < pos.d)
    ensures !Under(pos, q)
  {
  }

  lemma {:induction false} BranchBound(pos: Pos, q: Pos)
    requires pos.Node? && Under(pos, q) && q != pos
    ensures Branch(pos, q) < NINDIRECT
    decreases if q.Node? then q.d else 0
  {
    if Parent(q) != pos { BranchBound(pos, Parent(q)); }
  }

  /** A tree has everything above what it has. */
  lemma {:induction false} AncestorIn(tree: Tree, pos: Pos, q: Pos)
    requires Closed(tree) && q in tree && Under(pos, q)
    ensures pos in tree
    decreases if q.Node? then q.d else 0
  {
    if q != pos { AncestorIn(tree, pos, Parent(q)); }
  }

  /** Nothing is below a data block. */
  lemma {:induction false} UnderData(pos: Pos, q: Pos, layers: nat, ninodes: nat)
    requires pos.Node? && pos.d == pos.l + 1 && Under(pos, q) && Wf(q, layers, ninodes)
    ensures q == pos
  {
    if q != pos {
      UnderSame(pos, q);
    }
  }

  lemma {:induction false} UnderSame(pos: Pos, q: Pos)
    requires pos.Node? && Under(pos, q)
    ensures q.Node? && q.ino == pos.ino && q.l == pos.l && q.d >= pos.d
    decreases if q.Node? then q.d else 0
  {
    if q != pos { UnderSame(pos, Parent(q)); }
  }

  /** Every block of a layer is under its top block. */
  lemma {:induction false} UnderTop(q: Pos, layers: nat, ninodes: nat)
    requires q.Node? && Wf(q, layers, ninodes)
    ensures Under(Node(q.ino, q.l, 0, 0), q)
    decreases if q.Node? then q.d else 0
  {
    if q.d > 0 {
      assert q.k / NINDIRECT < Pow(q.d - 1);
      UnderTop(Parent(q), layers, ninodes);
    }
  }

  // ----- Sets of blocks ------------------------------------------------------------------------

  /** The blocks of the subtree at `pos`. */
  ghost function Blocks(tree: Tree, pos: Pos): set<nat> {
    set q | q in tree && Under(pos, q) :: tree[q]
  }

  /** The blocks below `pos` in its first `j` branches. */
  ghost function BlocksBelow(tree: Tree, pos: Pos, j: nat): set<nat>
    requires pos.Node?
  {
    set q | q in tree && Under(pos, q) && q != pos && Branch(pos, q) < j :: tree[q]
  }

  lemma NextBranch(tree: Tree, pos: Pos, j: nat)
    requires pos.Node? && j < NINDIRECT
    ensures BlocksBelow(tree, pos, j + 1) == BlocksBelow(tree, pos, j) + Blocks(tree, Child(pos, j))
  {
    forall q | q in tree ensures Under(Child(pos, j), q) <==> Under(pos, q) && q != pos && Branch(pos, q) == j {
      UnderChild(pos, j, q);
    }
    hide Under, Branch;
    var a, b, c := BlocksBelow(tree, pos, j + 1), BlocksBelow(tree, pos, j), Blocks(tree, Child(pos, j));
    forall x ensures x in a <==> x in b || x in c {
    }
  }

  lemma AllBranches(tree: Tree, pos: Pos)
    requires pos.Node? && pos in tree
    ensures Blocks(tree, pos) == BlocksBelow(tree, pos, NINDIRECT) + {tree[pos]}
  {
    forall q | q in tree && Under(pos, q) && q != pos ensures Branch(pos, q) < NINDIRECT {
      BranchBound(pos, q);
    }
    assert Under(pos, pos);
    hide Under, Branch;
    var a, b := Blocks(tree, pos), BlocksBelow(tree, pos, NINDIRECT) + {tree[pos]};
    forall x ensures x in a <==> x in b {
    }
  }

  lemma NoBranch(tree: Tree, pos: Pos)
    requires Closed(tree) && pos !in tree
    ensures Blocks(tree, pos) == {}
  {
    forall q | q in tree ensures !Under(pos, q) {
      if Under(pos, q) { AncestorIn(tree, pos, q); }
    }
  }

  lemma DataBlocks(tree: Tree, pos: Pos, layers: nat, ninodes: nat)
    requires Placed(tree, layers, ninodes) && pos in tree && pos.Node? && pos.d == pos.l + 1
    ensures Blocks(tree, pos) == {tree[pos]}
  {
    forall q | q in tree && Under(pos, q) ensures q == pos {
      UnderData(pos, q, layers, ninodes);
    }
  }

  /** What holds of a subtree that `turnc_recur` is about to free: it is intact and in use. */
  ghost predicate Intact(tree: Tree, bitmap: seq<bool>, blocks: seq<Block>, pos: Pos) {
    && |blocks| == |bitmap|
    && (forall q :: q in tree ==> 0 < tree[q] < |bitmap|)
    && (forall p, q :: p in tree && q in tree && tree[p] == tree[q] ==> p == q)
    && (forall q :: q in tree && Under(pos, q) ==> bitmap[tree[q]])
    && (forall q :: q in tree && Under(pos, q) && !IsData(q) ==> NodeOk(tree, blocks[tree[q]], q))
  }

  /** A subtree does not notice changes to blocks that are not its own. */
  lemma IntactApart(tree: Tree, bitmap: seq<bool>, bitmap': seq<bool>, blocks: seq<Block>, blocks': seq<Block>,
                    pos: Pos)
    requires Intact(tree, bitmap, blocks, pos)
    requires |bitmap'| == |bitmap| && |blocks'| == |blocks|
    requires forall b :: 0 <= b < |bitmap| && b in Blocks(tree, pos) ==>
        bitmap'[b] == bitmap[b] && blocks'[b] == blocks[b]
    ensures Intact(tree, bitmap', blocks', pos)
  {
    hide Under, NodeOk;
    forall q | q in tree && Under(pos, q) ensures tree[q] in Blocks(tree, pos) {
    }
  }

  lemma IntactChild(tree: Tree, bitmap: seq<bool>, blocks: seq<Block>, pos: Pos, j: nat)
    requires Intact(tree, bitmap, blocks, pos) && pos.Node? && j < NINDIRECT
    ensures Intact(tree, bitmap, blocks, Child(pos, j))
    ensures pos in tree ==> tree[pos] !in Blocks(tree, Child(pos, j))
  {
    forall q | q in tree ensures Under(Child(pos, j), q) ==> Under(pos, q) && q != pos {
      UnderChild(pos, j, q);
    }
    hide Under, NodeOk;
  }

  /** Different branches share no block. */
  lemma BranchesApart(tree: Tree, bitmap: seq<bool>, blocks: seq<Block>, pos: Pos, j: nat)
    requires Intact(tree, bitmap, blocks, pos) && pos.Node? && j < NINDIRECT
    ensures BlocksBelow(tree, pos, j) !! Blocks(tree, Child(pos, j))
    ensures pos in tree ==> tree[pos] !in BlocksBelow(tree, pos, j)
  {
    forall q | q in tree ensures Under(Child(pos, j), q) <==> Under(pos, q) && q != pos && Branch(pos, q) == j {
      UnderChild(pos, j, q);
    }
    hide Under, Branch, NodeOk;
  }
}
