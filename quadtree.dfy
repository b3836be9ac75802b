/**
 * `QuadtreeRenderer`'s tree logic: the constructor's initial tree, the read-only
 * tests `splitable` and `collabsible`, the mutations `split_node` and
 * `collapse_node`, the budgeted refinement of `update_tree` and the leaf walk of
 * `update_vbo`.
 *
 * The renderer keeps a ghost `shape` (a `QuadtreeShape.Skeleton`) whose cell records
 * mirror the heap cells of the tree; `Valid` says that the mirror is exact and the
 * shape is a well-formed tree hanging from `m_tree.root_node`.
 */
module Renderer {
  import opened Unsigned
  import opened SplitQueue
  import opened QuadtreeTypes
  import opened QuadtreeShape

  /**
   * The guard of the split loop of `update_tree` before its `k`-th iteration, in
   * terms of the counters on entry: `current_budget` is then 4k, `frame_budget` has
   * grown by k and `budget_filled` by 8k, all modulo 2^32.
   */
  ghost predicate LoopGuard(frameBudget0: u32, budgetFilled0: u32, budget: u32, k: nat)
  {
    && (4 * k) % U32_MODULUS < (frameBudget0 + k) % U32_MODULUS
    && (budgetFilled0 + 8 * k) % U32_MODULUS < budget
  }

  /**
   * While the number of splits stays below 2^30 (so that `current_budget` does not
   * wrap), the guard `current_budget < frame_budget` admits at most ceil(F/3) splits
   * in one call, where F is `frame_budget` on entry.
   */
  lemma SplitBound(frameBudget0: u32, budgetFilled0: u32, budget: u32, s: nat)
    requires s <= 0x4000_0000
    requires forall k :: 0 <= k < s ==> LoopGuard(frameBudget0, budgetFilled0, budget, k)
    ensures s <= (frameBudget0 + 2) / 3
  {
    if s > 0 {
      var k := s - 1;
      assert LoopGuard(frameBudget0, budgetFilled0, budget, k);
      assert (4 * k) % U32_MODULUS == 4 * k;
    }
  }

  /**
   * The counters after `s` iterations of the split loop of `update_tree`, which
   * started from `frame_budget` `F0` and `budget_filled` `B0`: `current_budget` is
   * 4s, `budget_filled` has grown by 8s and `frame_budget` by s, all modulo 2^32, and
   * the guard held before each of the `s` iterations.
   */
  ghost predicate Counted(F0: u32, B0: u32, budget: u32, s: nat,
                          currentBudget: u32, budgetFilled: u32, frameBudget: u32)
  {
    && currentBudget == (4 * s) % U32_MODULUS
    && budgetFilled == (B0 + 8 * s) % U32_MODULUS
    && frameBudget == (F0 + s) % U32_MODULUS
    && forall k :: 0 <= k < s ==> LoopGuard(F0, B0, budget, k)
  }

  /** One more iteration, taken while the guard holds, moves each counter on by one split's worth. */
  lemma CountedStep(F0: u32, B0: u32, budget: u32, s: nat, currentBudget: u32, budgetFilled: u32, frameBudget: u32)
    requires Counted(F0, B0, budget, s, currentBudget, budgetFilled, frameBudget)
    requires currentBudget < frameBudget && budgetFilled < budget
    ensures Counted(F0, B0, budget, s + 1, Add32(currentBudget, CHILDREN),
                    Add32(Add32(budgetFilled, CHILDREN), CHILDREN), Add32(frameBudget, 1))
  {
    AddAfterMod(4 * s, CHILDREN);
    AddAfterMod(B0 + 8 * s, CHILDREN);
    AddAfterMod(B0 + 8 * s + CHILDREN, CHILDREN);
    AddAfterMod(F0 + s, 1);
  }

  /** When the loop stops with candidates left, the guard failed. */
  lemma CountedStop(F0: u32, B0: u32, budget: u32, s: nat, currentBudget: u32, budgetFilled: u32, frameBudget: u32)
    requires Counted(F0, B0, budget, s, currentBudget, budgetFilled, frameBudget)
    ensures LoopGuard(F0, B0, budget, s) <==> currentBudget < frameBudget && budgetFilled < budget
  {
  }

  /**
   * The split loop of `update_tree` has split the cells `split`, in the order the
   * queue yields them, turning `s0` into `t`: the queue `pq` holds the rest of the
   * candidates `cands` and pops the rest of `PopOrder(cands, queueHead)`, and the
   * counters are `Counted` after `|split|` iterations.
   */
  ghost predicate Progress(s0: Skeleton, t: Skeleton, cands: seq<QNode>, queueHead: seq<QNode> -> nat,
                           pq: seq<QNode>, split: seq<QNode>, F0: u32, B0: u32, budget: u32,
                           currentBudget: u32, budgetFilled: u32, frameBudget: u32)
  {
    && t.Refines(s0, split, pq)
    && split + PopOrder(pq, queueHead) == PopOrder(cands, queueHead)
    && |split| + |pq| == |cands|
    && Counted(F0, B0, budget, |split|, currentBudget, budgetFilled, frameBudget)
  }

  /**
   * Splitting the head of the queue into the fresh cells `kids`, while the loop guard
   * holds, makes one more step of `Progress`.
   */
  lemma ProgressStep(s0: Skeleton, t: Skeleton, cands: seq<QNode>, queueHead: seq<QNode> -> nat,
                     pq: seq<QNode>, split: seq<QNode>, F0: u32, B0: u32, budget: u32,
                     currentBudget: u32, budgetFilled: u32, frameBudget: u32, kids: seq<QNode>)
    requires Progress(s0, t, cands, queueHead, pq, split, F0, B0, budget, currentBudget, budgetFilled, frameBudget)
    requires pq != [] && currentBudget < frameBudget && budgetFilled < budget
    requires t.cells.Keys <= t.path.Keys
    requires |kids| == CHILDREN && Distinct(kids) && forall i :: 0 <= i < CHILDREN ==> kids[i] !in t.cells
    ensures var k := queueHead(pq) % |pq|;
      Progress(s0, t.Split(pq[k], kids, 1), cands, queueHead, Without(pq, k), split + [pq[k]],
               F0, B0, budget, Add32(currentBudget, CHILDREN),
               Add32(Add32(budgetFilled, CHILDREN), CHILDREN), Add32(frameBudget, 1))
  {
    var k := queueHead(pq) % |pq|;
    t.RefinesStep(s0, split, pq, k, kids);
    PopStep(split, pq, cands, queueHead);
    CountedStep(F0, B0, budget, |split|, currentBudget, budgetFilled, frameBudget);
  }

  /** Before the first iteration, the queue holds every candidate and nothing is split. */
  lemma ProgressStart(s0: Skeleton, cands: seq<QNode>, queueHead: seq<QNode> -> nat,
                      F0: u32, B0: u32, budget: u32, maxDepth: u32)
    requires multiset(cands) == multiset(s0.SplittableIn(s0.cells.Keys, maxDepth))
    ensures Progress(s0, s0, cands, queueHead, cands, [], F0, B0, budget, 0, B0, F0)
  {
    CountsOfSet(cands, s0.SplittableIn(s0.cells.Keys, maxDepth));
    assert forall i :: 0 <= i < |cands| ==> cands[i] in s0.SplittableIn(s0.cells.Keys, maxDepth);
    assert [] + PopOrder(cands, queueHead) == PopOrder(cands, queueHead);
  }

  /**
   * When the loop stops, because the queue is empty or the guard fails, the cells
   * split are a prefix of the pop order, the guard held before each split and fails
   * after the last one unless every candidate was split, and the counters have moved
   * on by `|split|` iterations.
   */
  lemma ProgressDone(s0: Skeleton, t: Skeleton, cands: seq<QNode>, queueHead: seq<QNode> -> nat,
                     pq: seq<QNode>, split: seq<QNode>, F0: u32, B0: u32, budget: u32,
                     currentBudget: u32, budgetFilled: u32, frameBudget: u32)
    requires Progress(s0, t, cands, queueHead, pq, split, F0, B0, budget, currentBudget, budgetFilled, frameBudget)
    requires pq == [] || !(currentBudget < frameBudget && budgetFilled < budget)
    ensures |split| <= |cands| && split == PopOrder(cands, queueHead)[..|split|]
    ensures forall k :: 0 <= k < |split| ==> LoopGuard(F0, B0, budget, k)
    ensures |split| == |cands| || !LoopGuard(F0, B0, budget, |split|)
    ensures Advanced(B0, 8 * |split|, budgetFilled) && Advanced(F0, |split|, frameBudget)
    ensures t.Refines(s0, split, [])
  {
    PoppedPrefix(split, pq, cands, queueHead);
    CountedStop(F0, B0, budget, |split|, currentBudget, budgetFilled, frameBudget);
  }

  class QuadtreeRenderer {
    /** `m_tree`. */
    const mTree: QTree
    /** `q_layout.child_node_index`, defined in `quadtree_layout.inl`, which is not part of this model. */
    const childNodeIndex: (u32, u32) -> u32

    /** The shape of the tree. */
    ghost var shape: Skeleton

    /** Each cell of the shape is the record of the heap cell. */
    ghost predicate Mirrors()
      reads this, shape.cells.Keys
    {
      forall n {:trigger CellOf(n)} :: n in shape.cells ==> shape.cells[n] == CellOf(n)
    }

    /** Under the invariant, the fields of a cell of the tree are those of its record. */
    lemma Mirrored(t: QNode)
      requires Valid() && t in shape.cells
      ensures t.leaf == shape.cells[t].leaf && t.childNode == shape.cells[t].kids
      ensures t.root == shape.cells[t].root && t.depth == shape.cells[t].depth
      ensures t.parent == shape.cells[t].parent
    {
      assert shape.cells[t] == CellOf(t);
    }

    /** The object invariant: the cells form a tree hanging from `m_tree.root_node`. */
    ghost predicate Valid()
      reads this, mTree`rootNode, shape.cells.Keys
    {
      && mTree.rootNode == shape.root
      && shape.WellFormed()
      && Mirrors()
    }

    /**
     * The constructor: a single root leaf (id 0, depth 0, priority 1, error 0, four
     * empty slots) and the counters budget 10, filled 0, frame budget 1, frame budget
     * filled 0, maximum depth 1. `childNodeIndex` is the layout's child-index function.
     */
    constructor (childNodeIndex: (u32, u32) -> u32)
      ensures Valid()
      ensures this.childNodeIndex == childNodeIndex
      ensures mTree.budget == 10 && mTree.budgetFilled == 0 && mTree.frameBudget == 1
      ensures mTree.frameBudgetFilled == 0 && mTree.maxDepth == 1
      ensures mTree.rootNode != null && shape.cells.Keys == {mTree.rootNode}
      ensures fresh(mTree) && fresh(mTree.rootNode)
      ensures var r := mTree.rootNode;
        && r.nodeId == 0 && r.root && r.leaf && r.depth == 0
        && r.priority == 1.0 && r.error == 0.0 && r.childNode == EMPTY
    {
      this.childNodeIndex := childNodeIndex;
      var t := new QTree();
      mTree := t;
      t.AssignCounters(10, 0, 1, 0, 1);
      var r: QNode := new QNode();
      t.rootNode := r;
      r.Assign(0, true, 0, 1.0, 0.0);
      for c := 0 to CHILDREN
        modifies r`childNode
        invariant forall d :: 0 <= d < CHILDREN ==> r.childNode[d] == null
      {
        r.childNode := r.childNode[c := null];
      }
      shape := Skeleton(map[r := CellOf(r)], map[r := [r]], map[], r);
      new;
      assert r.childNode == EMPTY;
      assert shape.NodeOk(r);
    }

    /** `splitable(n)`: the loop over the child slots decides `CanSplit`. */
    method Splitable(n: QNode) returns (b: bool)
      ensures b == CanSplit(n.depth, n.childNode, mTree.maxDepth)
    {
      if n.depth >= mTree.maxDepth {
        return false;
      }
      for c := 0 to CHILDREN
        invariant forall d :: 0 <= d < c ==> n.childNode[d] == null
      {
        if n.childNode[c] != null {
          return false;
        }
      }
      return true;
    }

    /** `collabsible(n)`: the loop over the child slots decides `CanCollapse`. */
    method Collabsible(n: QNode) returns (b: bool)
      ensures b == CanCollapse(n)
    {
      for c := 0 to CHILDREN
        invariant forall d :: 0 <= d < c && n.childNode[d] != null ==> n.childNode[d].leaf
      {
        if n.childNode[c] != null && n.childNode[c].leaf != true {
          return false;
        }
      }
      return true;
    }

    /** The heap cells mirror the shape after `split_node` has hung `kids` under `n`. */
    lemma MirrorsAfterSplit(s0: Skeleton, n: QNode, kids: seq<QNode>, r: QNode)
      requires n in s0.cells && n in s0.path && |kids| == CHILDREN
      requires forall m :: m in s0.cells && m != n ==> s0.cells[m] == CellOf(m)
      requires n.root == s0.cells[n].root && n.depth == s0.cells[n].depth && n.parent == s0.cells[n].parent
      requires !n.leaf && n.childNode == kids && r.depth == 0
      requires forall c :: 0 <= c < CHILDREN ==> kids[c] !in s0.cells
      requires forall c :: 0 <= c < CHILDREN ==>
        FreshLeaf(kids[c], n, childNodeIndex(n.nodeId, c), Add32(r.depth, 1), r.priority * 0.25, r.error * 0.25)
      ensures forall m :: m in s0.Split(n, kids, 1).cells ==> s0.Split(n, kids, 1).cells[m] == CellOf(m)
    {
      var s := s0.Split(n, kids, 1);
      assert kids == [kids[0], kids[1], kids[2], kids[3]];
      forall m | m in s.cells ensures s.cells[m] == CellOf(m) {
        if m !in s0.cells {
          var c :| 0 <= c < CHILDREN && kids[c] == m;
        }
      }
    }

    /**
     * The heap updates of `split_node(n)`: four fresh leaves fill the empty slots of
     * `n`, child `c` with id `childNodeIndex(n.nodeId, c)` and the depth, priority and
     * error of the root (plus one, a quarter, a quarter); `n` stops being a leaf;
     * `budget_filled` grows by 4 and `frame_budget` by 1.
     */
    method SplitCells(n: QNode) returns (kids: seq<QNode>)
      requires n.childNode == EMPTY && mTree.rootNode != null
      modifies n`childNode, n`leaf, mTree`budgetFilled, mTree`frameBudget
      ensures |kids| == CHILDREN && Distinct(kids) && n.childNode == kids && !n.leaf
      ensures forall c :: 0 <= c < CHILDREN ==> fresh(kids[c])
      ensures forall c :: 0 <= c < CHILDREN ==>
        FreshLeaf(kids[c], n, childNodeIndex(n.nodeId, c), Add32(mTree.rootNode.depth, 1),
                  mTree.rootNode.priority * 0.25, mTree.rootNode.error * 0.25)
      ensures mTree.budgetFilled == Add32(old(mTree.budgetFilled), CHILDREN)
      ensures mTree.frameBudget == Add32(old(mTree.frameBudget), 1)
    {
      var r := mTree.rootNode;
      var depth, priority, error := Add32(r.depth, 1), r.priority * 0.25, r.error * 0.25;
      kids := [];
      for c := 0 to CHILDREN
        modifies n`childNode
        invariant |kids| == c && Distinct(kids)
        invariant n.childNode[..c] == kids && n.childNode[c..] == EMPTY[c..]
        invariant forall d :: 0 <= d < c ==> fresh(kids[d])
        invariant forall d :: 0 <= d < c ==>
          FreshLeaf(kids[d], n, childNodeIndex(n.nodeId, d), depth, priority, error)
      {
        var k := new QNode();
        k.parent := n;
        k.Assign(childNodeIndex(n.nodeId, c), false, depth, priority, error);
        n.childNode := n.childNode[c := k];
        kids := kids + [k];
      }
      n.leaf := false;
      mTree.CountSplit();
    }

    /**
     * The ghost half of `split_node(n)`: once the heap has four fresh leaves under the
     * leaf `n` and every other cell is as before, the shape becomes `Split`.
     */
    ghost method ReshapeAfterSplit(n: QNode, kids: seq<QNode>)
      requires shape.WellFormed() && n in shape.cells && shape.cells[n].leaf && mTree.rootNode == shape.root
      requires |kids| == CHILDREN && Distinct(kids)
      requires forall c :: 0 <= c < CHILDREN ==> kids[c] !in shape.cells
      requires forall m :: m in shape.cells && m != n ==> shape.cells[m] == CellOf(m)
      requires n.root == shape.cells[n].root && n.depth == shape.cells[n].depth
      requires n.parent == shape.cells[n].parent && !n.leaf && n.childNode == kids
      requires shape.root.depth == 0
      requires forall c :: 0 <= c < CHILDREN ==>
        FreshLeaf(kids[c], n, childNodeIndex(n.nodeId, c), Add32(mTree.rootNode.depth, 1),
                  mTree.rootNode.priority * 0.25, mTree.rootNode.error * 0.25)
      modifies this`shape
      ensures Valid() && shape == old(shape).Split(n, kids, 1)
    {
      ghost var s0 := shape;
      s0.SplitWellFormed(n, kids);
      shape := s0.Split(n, kids, 1);
      MirrorsAfterSplit(s0, n, kids, mTree.rootNode);
    }

    /**
     * `split_node(n)` on a leaf of the tree: the shape is `Split` with the four fresh
     * leaves at depth 1 (the root's depth plus one), the tree stays well formed, and
     * the cells and counters change as `SplitCells` says.
     */
    method SplitNode(n: QNode) returns (ghost kids: seq<QNode>)
      requires Valid() && n in shape.cells && shape.cells[n].leaf
      modifies this`shape, mTree`budgetFilled, mTree`frameBudget, n`childNode, n`leaf
      ensures Valid()
      ensures |kids| == CHILDREN && Distinct(kids) && shape == old(shape).Split(n, kids, 1)
      ensures !n.leaf && n.childNode == kids
      ensures forall c :: 0 <= c < CHILDREN ==> fresh(kids[c]) && kids[c] !in old(shape).cells
      ensures forall c :: 0 <= c < CHILDREN ==>
        FreshLeaf(kids[c], n, childNodeIndex(n.nodeId, c), 1,
                  mTree.rootNode.priority * 0.25, mTree.rootNode.error * 0.25)
      ensures mTree.budgetFilled == Add32(old(mTree.budgetFilled), CHILDREN)
      ensures mTree.frameBudget == Add32(old(mTree.frameBudget), 1)
    {
      Mirrored(n);
      Mirrored(shape.root);
      shape.LeafHasNoKids(n);
      shape.RootDepth();
      kids := SplitCells(n);
      forall m | m in shape.cells && m != n ensures shape.cells[m] == CellOf(m) {
        assert old(CellOf(m)) == CellOf(m);
      }
      ReshapeAfterSplit(n, kids);
    }

    /**
     * `collapse_node(n)`: `budget_filled` drops by 4 (wrapping below zero) and nothing
     * else changes. The deletes run only when `n` is a leaf, whose slots are all empty,
     * so they free nothing; an inner cell keeps its children.
     */
    method CollapseNode(n: QNode)
      requires Valid() && n in shape.cells
      modifies mTree`budgetFilled
      ensures Valid()
      ensures mTree.budgetFilled == Sub32(old(mTree.budgetFilled), CHILDREN)
      ensures n.leaf ==> n.childNode == EMPTY
    {
      if n.leaf {
        Mirrored(n);
        shape.LeafHasNoKids(n);
      }
      mTree.budgetFilled := Sub32(mTree.budgetFilled, CHILDREN);
    }

    /** `collabsible` on a cell of the tree is `Collapsible` on its record. */
    lemma CollapsibleMirrored(t: QNode)
      requires Valid() && t in shape.cells
      ensures CanCollapse(t) == shape.Collapsible(t)
    {
      Mirrored(t);
      shape.KidsInTree(t);
      forall j | 0 <= j < CHILDREN && t.childNode[j] != null
        ensures t.childNode[j].leaf == shape.cells[t.childNode[j]].leaf
      {
        Mirrored(t.childNode[j]);
      }
    }

    /** The pushes of a walk step: the present children of `t`, in slot order. */
    method PushChildren(t: QNode, stack0: seq<QNode>) returns (stack: seq<QNode>)
      requires shape.InTree(stack0)
      requires forall j :: 0 <= j < CHILDREN && t.childNode[j] != null ==> t.childNode[j] in shape.cells
      ensures shape.InTree(stack)
      ensures shape.Pending(stack) == shape.Pending(stack0) + shape.ChildSubs(t.childNode, CHILDREN)
    {
      stack := stack0;
      for c := 0 to CHILDREN
        invariant shape.InTree(stack)
        invariant shape.Pending(stack) == shape.Pending(stack0) + shape.ChildSubs(t.childNode, c)
      {
        var k := t.childNode[c];
        if k != null {
          shape.PendingPush(stack, k);
          stack := stack + [k];
        }
      }
    }

    /**
     * The state of the traversal of `update_tree` once it has visited `V`: the
     * subtrees on `stack` are what is left to visit, and the candidate lists hold the
     * visited cells `splitable` and `collabsible` accept.
     */
    ghost predicate CandidatesSoFar(V: set<QNode>, stack: seq<QNode>, splitAble: seq<QNode>, collAble: seq<QNode>)
      reads this, mTree
    {
      && shape.Walking(V, stack)
      && multiset(splitAble) == multiset(shape.SplittableIn(V, mTree.maxDepth))
      && multiset(collAble) == multiset(shape.CollapsibleIn(V))
    }

    /**
     * One iteration of the traversal of `update_tree`: pop `t`; push the children of
     * an inner cell, or list a leaf that `splitable` accepts; list `t` if
     * `collabsible` accepts it.
     */
    method CandidateStep(ghost V: set<QNode>, stack0: seq<QNode>, splitAble0: seq<QNode>, collAble0: seq<QNode>)
      returns (stack: seq<QNode>, splitAble: seq<QNode>, collAble: seq<QNode>, t: QNode)
      requires Valid() && stack0 != [] && CandidatesSoFar(V, stack0, splitAble0, collAble0)
      ensures t in shape.cells && t !in V && CandidatesSoFar(V + {t}, stack, splitAble, collAble)
    {
      splitAble, collAble := splitAble0, collAble0;
      t := stack0[|stack0| - 1];
      stack := stack0[..|stack0| - 1];
      Mirrored(t);
      shape.KidsInTree(t);
      if !t.leaf {
        stack := PushChildren(t, stack);
      } else {
        var b := Splitable(t);
        if b {
          splitAble := splitAble + [t];
        }
      }
      var b := Collabsible(t);
      if b {
        collAble := collAble + [t];
      }
      shape.VisitStep(V, stack0, stack);
      shape.SplittableStep(V, t, mTree.maxDepth);
      CollapsibleMirrored(t);
      shape.CollapsibleStep(V, t);
    }

    /**
     * The traversal of `update_tree`: a stack walk from the root that lists every
     * leaf `splitable` accepts in `splitAble` and every cell `collabsible` accepts
     * in `collAble`, each exactly once.
     */
    method CollectCandidates() returns (splitAble: seq<QNode>, collAble: seq<QNode>)
      requires Valid()
      ensures multiset(splitAble) == multiset(shape.SplittableIn(shape.cells.Keys, mTree.maxDepth))
      ensures multiset(collAble) == multiset(shape.CollapsibleIn(shape.cells.Keys))
    {
      splitAble, collAble := [], [];
      var r: QNode := mTree.rootNode;
      var stack := [r];
      ghost var V: set<QNode> := {};
      shape.WalkStart();
      while stack != []
        invariant CandidatesSoFar(V, stack, splitAble, collAble)
        decreases |shape.cells.Keys - V|
      {
        var t;
        stack, splitAble, collAble, t := CandidateStep(V, stack, splitAble, collAble);
        VisitShrinks(shape.cells.Keys, V, t);
        V := V + {t};
      }
      shape.WalkDone(V);
    }

    /** One iteration of the leaf walk of `update_vbo`: pop `t`; push its children or list it. */
    method LeafStep(ghost V: set<QNode>, stack0: seq<QNode>, leafs0: seq<QNode>)
      returns (stack: seq<QNode>, leafs: seq<QNode>, t: QNode)
      requires Valid() && stack0 != [] && shape.Walking(V, stack0)
      requires multiset(leafs0) == multiset(shape.LeavesIn(V))
      ensures t in shape.cells && t !in V && shape.Walking(V + {t}, stack)
      ensures multiset(leafs) == multiset(shape.LeavesIn(V + {t}))
    {
      leafs := leafs0;
      t := stack0[|stack0| - 1];
      stack := stack0[..|stack0| - 1];
      Mirrored(t);
      shape.KidsInTree(t);
      if !t.leaf {
        stack := PushChildren(t, stack);
      } else {
        leafs := leafs + [t];
      }
      shape.VisitStep(V, stack0, stack);
      shape.LeavesStep(V, t);
    }

    /**
     * The leaf walk of `update_vbo`: a stack walk from the root that lists every leaf
     * of the tree exactly once, and only leaves.
     */
    method CollectLeaves() returns (leafs: seq<QNode>)
      requires Valid()
      ensures multiset(leafs) == multiset(shape.Leaves())
      ensures Distinct(leafs) && forall x :: x in leafs <==> x in shape.Leaves()
    {
      leafs := [];
      var r: QNode := mTree.rootNode;
      var stack := [r];
      ghost var V: set<QNode> := {};
      shape.WalkStart();
      while stack != []
        invariant shape.Walking(V, stack)
        invariant multiset(leafs) == multiset(shape.LeavesIn(V))
        decreases |shape.cells.Keys - V|
      {
        var t;
        stack, leafs, t := LeafStep(V, stack, leafs);
        VisitShrinks(shape.cells.Keys, V, t);
        V := V + {t};
      }
      shape.WalkDone(V);
      assert shape.LeavesIn(V) == shape.Leaves();
      CountsOfSet(leafs, shape.Leaves());
    }

    /**
     * Every child hung in a slot since the shape `s0` carries the labels `split_node`
     * gives it: the id `child_node_index(parent id, slot)`, and `priority` and `error`,
     * which are a quarter of the root's.
     */
    ghost predicate ChildrenLabelled(s0: Skeleton, priority: real, error: real)
      reads this, shape.cells.Keys
    {
      forall p, c :: p in shape.cells && 0 <= c < CHILDREN && p.childNode[c] in shape.cells && p.childNode[c] !in s0.cells ==>
        && p.childNode[c].nodeId == childNodeIndex(p.nodeId, c)
        && p.childNode[c].priority == priority && p.childNode[c].error == error
    }

    /**
     * The state of the split loop of `update_tree` after the cells `split` were split:
     * the tree is valid and has made `Progress` from `s0`.
     */
    ghost predicate Splitting(s0: Skeleton, F0: u32, B0: u32, cands: seq<QNode>, queueHead: seq<QNode> -> nat,
                              pq: seq<QNode>, split: seq<QNode>, currentBudget: u32)
      reads this, mTree, shape.cells.Keys
    {
      && Valid()
      && Progress(s0, shape, cands, queueHead, pq, split,
                  F0, B0, mTree.budget, currentBudget, mTree.budgetFilled, mTree.frameBudget)
    }

    /**
     * One iteration of the split loop of `update_tree`: pop the head of the queue,
     * split it, and add 4 to `current_budget` and to `budget_filled`.
     */
    method SplitHead(ghost s0: Skeleton, ghost F0: u32, ghost B0: u32, ghost cands: seq<QNode>,
                     queueHead: seq<QNode> -> nat, pq0: seq<QNode>, ghost split0: seq<QNode>, currentBudget0: u32)
      returns (pq: seq<QNode>, ghost split: seq<QNode>, currentBudget: u32)
      requires Splitting(s0, F0, B0, cands, queueHead, pq0, split0, currentBudget0) && pq0 != []
      requires currentBudget0 < mTree.frameBudget && mTree.budgetFilled < mTree.budget
      requires ChildrenLabelled(s0, mTree.rootNode.priority * 0.25, mTree.rootNode.error * 0.25)
      modifies this`shape, mTree`budgetFilled, mTree`frameBudget, s0.cells.Keys`childNode, s0.cells.Keys`leaf
      ensures Splitting(s0, F0, B0, cands, queueHead, pq, split, currentBudget) && |pq| < |pq0|
      ensures ChildrenLabelled(s0, mTree.rootNode.priority * 0.25, mTree.rootNode.error * 0.25)
    {
      var k := queueHead(pq0) % |pq0|;
      var q := pq0[k];
      ghost var s1, bf, fb := shape, mTree.budgetFilled, mTree.frameBudget;
      s1.QueuedIsLeaf(s0, split0, pq0, k);
      ghost var kids := SplitLabelled(s0, q);
      ProgressStep(s0, s1, cands, queueHead, pq0, split0, F0, B0, mTree.budget, currentBudget0, bf, fb, kids);
      pq := Without(pq0, k);
      split := split0 + [q];
      currentBudget := Add32(currentBudget0, CHILDREN);
    }

    /** The heap effect of one iteration: `split_node(q)`, then `budget_filled += CHILDREN`. */
    method SplitAndFill(q: QNode) returns (ghost kids: seq<QNode>)
      requires Valid() && q in shape.cells && shape.cells[q].leaf
      modifies this`shape, mTree`budgetFilled, mTree`frameBudget, q`childNode, q`leaf
      ensures Valid()
      ensures |kids| == CHILDREN && Distinct(kids) && shape == old(shape).Split(q, kids, 1)
      ensures !q.leaf && q.childNode == kids
      ensures forall c :: 0 <= c < CHILDREN ==> fresh(kids[c]) && kids[c] !in old(shape).cells
      ensures forall c :: 0 <= c < CHILDREN ==>
        FreshLeaf(kids[c], q, childNodeIndex(q.nodeId, c), 1,
                  mTree.rootNode.priority * 0.25, mTree.rootNode.error * 0.25)
      ensures mTree.budgetFilled == Add32(Add32(old(mTree.budgetFilled), CHILDREN), CHILDREN)
      ensures mTree.frameBudget == Add32(old(mTree.frameBudget), 1)
    {
      kids := SplitNode(q);
      AddToFilled(CHILDREN);
    }

    /**
     * `SplitAndFill` for the split loop: besides its own effect, every child hung since
     * `s0` keeps the labels `ChildrenLabelled` asks for.
     */
    method SplitLabelled(ghost s0: Skeleton, q: QNode) returns (ghost kids: seq<QNode>)
      requires Valid() && q in shape.cells && shape.cells[q].leaf
      requires ChildrenLabelled(s0, mTree.rootNode.priority * 0.25, mTree.rootNode.error * 0.25)
      modifies this`shape, mTree`budgetFilled, mTree`frameBudget, q`childNode, q`leaf
      ensures Valid()
      ensures |kids| == CHILDREN && Distinct(kids) && shape == old(shape).Split(q, kids, 1)
      ensures forall c :: 0 <= c < CHILDREN ==> kids[c] !in old(shape).cells
      ensures mTree.budgetFilled == Add32(Add32(old(mTree.budgetFilled), CHILDREN), CHILDREN)
      ensures mTree.frameBudget == Add32(old(mTree.frameBudget), 1)
      ensures ChildrenLabelled(s0, mTree.rootNode.priority * 0.25, mTree.rootNode.error * 0.25)
    {
      ghost var s1 := shape;
      kids := SplitAndFill(q);
      forall p, c | p in shape.cells && 0 <= c < CHILDREN && p.childNode[c] in shape.cells && p.childNode[c] !in s0.cells
        ensures p.childNode[c].nodeId == childNodeIndex(p.nodeId, c)
        ensures p.childNode[c].priority == mTree.rootNode.priority * 0.25
        ensures p.childNode[c].error == mTree.rootNode.error * 0.25
      {
        var k := p.childNode[c];
        if p == q {
          assert k == kids[c];
        } else if p in s1.cells {
          assert old(CellOf(p)) == s1.cells[p] && p.childNode == old(p.childNode);
          assert s1.NodeOk(p);
          assert k in s1.cells;
          assert old(k.nodeId) == k.nodeId && old(k.priority) == k.priority && old(k.error) == k.error;
        }
      }
    }

    /** `m_tree.budget_filled += d`, which the tree invariant does not depend on. */
    method AddToFilled(d: u32)
      requires Valid()
      modifies mTree`budgetFilled
      ensures Valid() && mTree.budgetFilled == Add32(old(mTree.budgetFilled), d)
    {
      mTree.budgetFilled := Add32(mTree.budgetFilled, d);
    }

    /**
     * `update_tree`: collect the candidates, then split the head of the split queue
     * while the queue is non-empty, `current_budget < frame_budget` and
     * `budget_filled < budget`. Each split adds 4 to `current_budget`, 8 to
     * `budget_filled` (4 in `split_node`, 4 in the loop) and 1 to `frame_budget`.
     * The cells split, `split`, are the candidates in the order the queue yields them,
     * each at most once; the collapse queue is built but never used, so nothing is
     * collapsed. `queueHead` stands for `lesser_prio_ptr`, which is not part of this
     * model; the screen position argument is unused.
     */
    method UpdateTree(queueHead: seq<QNode> -> nat) returns (cands: seq<QNode>, ghost split: seq<QNode>)
      requires Valid()
      modifies this`shape, mTree`budgetFilled, mTree`frameBudget, shape.cells.Keys`childNode, shape.cells.Keys`leaf
      ensures Valid()
      ensures multiset(cands) == multiset(old(shape).SplittableIn(old(shape).cells.Keys, mTree.maxDepth))
      ensures |split| <= |cands| && split == PopOrder(cands, queueHead)[..|split|]
      ensures forall k :: 0 <= k < |split| ==>
        LoopGuard(old(mTree.frameBudget), old(mTree.budgetFilled), mTree.budget, k)
      ensures |split| == |cands| || !LoopGuard(old(mTree.frameBudget), old(mTree.budgetFilled), mTree.budget, |split|)
      ensures Advanced(old(mTree.budgetFilled), 8 * |split|, mTree.budgetFilled)
      ensures Advanced(old(mTree.frameBudget), |split|, mTree.frameBudget)
      ensures shape.Refines(old(shape), split, [])
      ensures forall m :: m in old(shape.cells) ==>
        m.nodeId == old(m.nodeId) && m.priority == old(m.priority) && m.error == old(m.error)
      ensures ChildrenLabelled(old(shape), mTree.rootNode.priority * 0.25, mTree.rootNode.error * 0.25)
    {
      var collAble;
      cands, collAble := CollectCandidates();
      split := SplitWithinBudget(cands, queueHead);
    }

    /**
     * The second half of `update_tree`: the split loop over the candidates `cands`,
     * queued in the order `queueHead` gives.
     */
    method SplitWithinBudget(cands: seq<QNode>, queueHead: seq<QNode> -> nat) returns (ghost split: seq<QNode>)
      requires Valid()
      requires multiset(cands) == multiset(shape.SplittableIn(shape.cells.Keys, mTree.maxDepth))
      modifies this`shape, mTree`budgetFilled, mTree`frameBudget, shape.cells.Keys`childNode, shape.cells.Keys`leaf
      ensures Valid()
      ensures |split| <= |cands| && split == PopOrder(cands, queueHead)[..|split|]
      ensures forall k :: 0 <= k < |split| ==>
        LoopGuard(old(mTree.frameBudget), old(mTree.budgetFilled), mTree.budget, k)
      ensures |split| == |cands| || !LoopGuard(old(mTree.frameBudget), old(mTree.budgetFilled), mTree.budget, |split|)
      ensures Advanced(old(mTree.budgetFilled), 8 * |split|, mTree.budgetFilled)
      ensures Advanced(old(mTree.frameBudget), |split|, mTree.frameBudget)
      ensures shape.Refines(old(shape), split, [])
      ensures ChildrenLabelled(old(shape), mTree.rootNode.priority * 0.25, mTree.rootNode.error * 0.25)
    {
      ghost var s0, F0, B0 := shape, mTree.frameBudget, mTree.budgetFilled;
      ProgressStart(s0, cands, queueHead, F0, B0, mTree.budget, mTree.maxDepth);
      var pq := cands;
      split := [];
      var currentBudget: u32 := 0;
      while pq != [] && currentBudget < mTree.frameBudget && mTree.budgetFilled < mTree.budget
        invariant Splitting(s0, F0, B0, cands, queueHead, pq, split, currentBudget)
        invariant ChildrenLabelled(s0, mTree.rootNode.priority * 0.25, mTree.rootNode.error * 0.25)
        decreases |pq|
      {
        pq, split, currentBudget := SplitHead(s0, F0, B0, cands, queueHead, pq, split, currentBudget);
      }
      ProgressDone(s0, shape, cands, queueHead, pq, split, F0, B0, mTree.budget,
                   currentBudget, mTree.budgetFilled, mTree.frameBudget);
    }
  }

  /**
   * Each cell `update_tree` splits was, when its traversal ran, a leaf that
   * `splitable` accepted.
   */
  lemma SplitWereSplittable(s0: Skeleton, cands: seq<QNode>, queueHead: seq<QNode> -> nat,
                            split: seq<QNode>, maxDepth: u32)
    requires multiset(cands) == multiset(s0.SplittableIn(s0.cells.Keys, maxDepth))
    requires |split| <= |cands| && split == PopOrder(cands, queueHead)[..|split|]
    ensures forall x :: x in split ==>
      x in s0.cells && s0.cells[x].leaf && CanSplit(s0.cells[x].depth, s0.cells[x].kids, maxDepth)
  {
    PoppedWereQueued(split, cands, queueHead);
    forall x | x in split ensures x in s0.SplittableIn(s0.cells.Keys, maxDepth) {
      assert x in multiset(cands);
    }
  }

  /**
   * The first `update_tree` after construction: the root is the only candidate, the
   * guard holds once (0 < 1 and 0 < 10), so the root is split into four leaves;
   * `budget_filled` ends at 8 and `frame_budget` at 2, and no cell of the new tree
   * is splittable, so later calls split nothing.
   */
  method FirstUpdate(childNodeIndex: (u32, u32) -> u32, queueHead: seq<QNode> -> nat)
    returns (r: QuadtreeRenderer, cands: seq<QNode>)
    ensures r.Valid() && r.mTree.rootNode != null
    ensures cands == [r.mTree.rootNode]
    ensures r.mTree.budgetFilled == 8 && r.mTree.frameBudget == 2
    ensures !r.mTree.rootNode.leaf && |r.shape.cells.Keys| == 5
    ensures r.shape.SplittableIn(r.shape.cells.Keys, r.mTree.maxDepth) == {}
  {
    r := new QuadtreeRenderer(childNodeIndex);
    ghost var s0 := r.shape;
    r.Mirrored(s0.root);
    ghost var split;
    cands, split := r.UpdateTree(queueHead);
    FirstSplit(s0, cands, queueHead, split);
    FirstCounters(r.mTree.budgetFilled, r.mTree.frameBudget);
    FirstShape(s0, r.shape, split);
    r.Mirrored(s0.root);
  }

  /**
   * On the one-leaf tree `s0` of the constructor, with maximum depth 1, the root is
   * the only candidate, and the guard on the counters of the constructor (frame
   * budget 1, nothing filled, budget 10) lets the loop split it.
   */
  lemma FirstSplit(s0: Skeleton, cands: seq<QNode>, queueHead: seq<QNode> -> nat, split: seq<QNode>)
    requires s0.WellFormed() && s0.cells.Keys == {s0.root} && s0.cells[s0.root].leaf
    requires multiset(cands) == multiset(s0.SplittableIn(s0.cells.Keys, 1))
    requires |split| <= |cands| && split == PopOrder(cands, queueHead)[..|split|]
    requires |split| == |cands| || !LoopGuard(1, 0, 10, |split|)
    ensures cands == [s0.root] && split == cands
  {
    FirstCandidates(s0, cands);
    FirstLoop(s0.root, cands, queueHead, split);
  }

  /** On the one-leaf tree of the constructor, with maximum depth 1, the root is the only candidate. */
  lemma FirstCandidates(s0: Skeleton, cands: seq<QNode>)
    requires s0.WellFormed() && s0.cells.Keys == {s0.root} && s0.cells[s0.root].leaf
    requires multiset(cands) == multiset(s0.SplittableIn(s0.cells.Keys, 1))
    ensures cands == [s0.root]
  {
    s0.OnlyRootSplittable(s0.cells.Keys, 1);
    SingleCandidate(cands, s0.root);
  }

  /** With one candidate and the counters of the constructor, the loop splits that candidate. */
  lemma FirstLoop(x: QNode, cands: seq<QNode>, queueHead: seq<QNode> -> nat, split: seq<QNode>)
    requires cands == [x]
    requires |split| <= |cands| && split == PopOrder(cands, queueHead)[..|split|]
    requires |split| == |cands| || !LoopGuard(1, 0, 10, |split|)
    ensures split == cands
  {
    FirstGuard();
    assert |split| == 1;
    PopOrderUnfold(cands, queueHead);
  }

  /**
   * Splitting the root of the one-leaf tree `s0` gives a tree `t` of five cells
   * whose root is inner, and in which, under maximum depth 1, nothing is splittable.
   */
  lemma FirstShape(s0: Skeleton, t: Skeleton, split: seq<QNode>)
    requires s0.cells.Keys == {s0.root} && split == [s0.root]
    requires t.WellFormed() && t.root == s0.root && t.Refines(s0, split, [])
    ensures !t.cells[t.root].leaf && |t.cells.Keys| == 5
    ensures t.SplittableIn(t.cells.Keys, 1) == {}
  {
    assert split[0] == t.root;
    t.NothingSplittableAfterRoot(t.cells.Keys, 1);
  }

  /** The guard of the first iteration holds on the counters of the constructor. */
  lemma FirstGuard()
    ensures LoopGuard(1, 0, 10, 0)
  {
    SmallMod(0);
    SmallMod(1);
  }

  /** One split from the counters of the constructor leaves budget filled 8 and frame budget 2. */
  lemma FirstCounters(budgetFilled: u32, frameBudget: u32)
    requires Advanced(0, 8 * 1, budgetFilled) && Advanced(1, 1, frameBudget)
    ensures budgetFilled == 8 && frameBudget == 2
  {
    SmallMod(8);
    SmallMod(2);
  }

  /** A sequence with the elements of a singleton set is that element alone. */
  lemma SingleCandidate(s: seq<QNode>, x: QNode)
    requires multiset(s) == multiset{x}
    ensures s == [x]
  {
    assert |s| == |multiset(s)| == 1;
    assert s[0] in multiset(s);
  }
}
