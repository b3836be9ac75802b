/**
 * The data model of `QuadtreeRenderer.hpp`: the cell record `q_node` with its four
 * child slots, and the tree record `qtree` of unsigned counters.
 */
module QuadtreeTypes {
  import opened Unsigned

  /** Number of child slots of a cell. */
  const CHILDREN: nat := 4

  /**
   * The child slots of a cell. `child_node[CHILDREN]` is an array embedded in the
   * cell, not an object of its own, so it is a value of fixed length.
   */
  type Slots = s: seq<QNode?> | |s| == CHILDREN witness [null, null, null, null]

  /** Four empty child slots. */
  const EMPTY: Slots := [null, null, null, null]

  /** A cell of the quadtree (`q_node`). */
  class QNode {
    var nodeId: u32
    var root: bool
    var leaf: bool
    var depth: u32
    var priority: real
    var error: real
    var parent: QNode?
    var childNode: Slots

    /**
     * `q_node()`: not the root, a leaf, and (an assumption of this model, since the
     * C++ constructor leaves them uninitialised) four empty child slots. No other
     * field is given a value.
     */
    constructor ()
      ensures !root && leaf && childNode == EMPTY
    {
      root := false;
      leaf := true;
      childNode := EMPTY;
    }

    /** The field assignments that follow `new q_node()` at each allocation site. */
    method Assign(nodeId: u32, root: bool, depth: u32, priority: real, error: real)
      modifies this
      ensures this.nodeId == nodeId && this.root == root && leaf
      ensures this.depth == depth && this.priority == priority && this.error == error
      ensures parent == old(parent) && childNode == old(childNode)
    {
      this.nodeId, this.root, this.leaf := nodeId, root, true;
      this.depth, this.priority, this.error := depth, priority, error;
    }
  }

  /** The tree record (`qtree`), with the `max_depth` field the renderer uses. */
  class QTree {
    var rootNode: QNode?
    var budget: u32
    var frameBudget: u32
    var budgetFilled: u32
    var frameBudgetFilled: u32
    var strict: bool
    var maxDepth: u32

    /** `qtree()` value-initialised: no root, every counter zero, not strict. */
    constructor ()
      ensures rootNode == null && !strict
      ensures budget == 0 && frameBudget == 0 && budgetFilled == 0
      ensures frameBudgetFilled == 0 && maxDepth == 0
    {
      rootNode := null;
      budget, frameBudget, budgetFilled, frameBudgetFilled := 0, 0, 0, 0;
      strict := false;
      maxDepth := 0;
    }

    /** The counter assignments of the renderer's constructor. */
    method AssignCounters(budget: u32, budgetFilled: u32, frameBudget: u32, frameBudgetFilled: u32, maxDepth: u32)
      modifies this
      ensures this.budget == budget && this.budgetFilled == budgetFilled && this.frameBudget == frameBudget
      ensures this.frameBudgetFilled == frameBudgetFilled && this.maxDepth == maxDepth
      ensures rootNode == old(rootNode) && strict == old(strict)
    {
      this.budget, this.budgetFilled, this.frameBudget := budget, budgetFilled, frameBudget;
      this.frameBudgetFilled, this.maxDepth := frameBudgetFilled, maxDepth;
    }

    /** The counter updates of `split_node`: four more cells filled, one more split allowed this frame. */
    method CountSplit()
      modifies this`budgetFilled, this`frameBudget
      ensures budgetFilled == Add32(old(budgetFilled), CHILDREN)
      ensures frameBudget == Add32(old(frameBudget), 1)
    {
      budgetFilled := Add32(budgetFilled, CHILDREN);
      frameBudget := Add32(frameBudget, 1);
    }
  }

  /** `splitable(n)`, as a condition on the fields: shallower than `max_depth`, no child. */
  ghost predicate CanSplit(depth: u32, childNode: Slots, maxDepth: u32)
  {
    depth < maxDepth && forall c :: 0 <= c < CHILDREN ==> childNode[c] == null
  }

  /**
   * `k` is a leaf just hung under `parent` by `split_node`: not the root, a leaf with
   * four empty slots, and the given id, depth, priority and error.
   */
  ghost predicate FreshLeaf(k: QNode, parent: QNode, nodeId: u32, depth: u32, priority: real, error: real)
    reads k
  {
    && k.parent == parent && k.nodeId == nodeId && !k.root && k.leaf && k.childNode == EMPTY
    && k.depth == depth && k.priority == priority && k.error == error
  }

  /** `collabsible(n)`, as a condition on the heap: every present child is a leaf. */
  ghost predicate CanCollapse(n: QNode)
    reads n, n.childNode
  {
    forall c :: 0 <= c < CHILDREN && n.childNode[c] != null ==> n.childNode[c].leaf
  }
}
