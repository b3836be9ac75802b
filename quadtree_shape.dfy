/**
 * The shape of a quadtree as a value: for each cell of the tree, the fields the
 * shape depends on; for each cell, the cells from the root down to it; and for each
 * non-root cell, the slot of its parent it occupies. The renderer keeps one of these
 * as ghost state and ties it to the heap (`Renderer.QuadtreeRenderer.Valid`), so that
 * what holds of the tree is stated and proved here, on values.
 */
module QuadtreeShape {
  import opened Unsigned
  import opened QuadtreeTypes
  import opened SplitQueue

  /** Every element occurs at most once. */
  ghost predicate Distinct<T>(s: seq<T>)
  {
    forall i, j :: 0 <= i < j < |s| ==> s[i] != s[j]
  }

  /** The elements of a sequence. */
  ghost function Elements<T>(s: seq<T>): set<T>
  {
    set x | x in s
  }

  /** The fields of a `q_node` the tree shape depends on. */
  datatype Cell = Cell(root: bool, leaf: bool, depth: u32, parent: QNode?, kids: Slots)

  /** The cell record of a heap cell. */
  ghost function CellOf(n: QNode): Cell
    reads n
  {
    Cell(n.root, n.leaf, n.depth, n.parent, n.childNode)
  }

  datatype Skeleton = Skeleton(
    cells: map<QNode, Cell>,
    path: map<QNode, seq<QNode>>,
    slot: map<QNode, nat>,
    root: QNode)
  {
    /** The path of `n` runs from the root to `n`, and each cell on it has the matching prefix as its own path. */
    ghost predicate PathOk(n: QNode)
    {
      && n in path && |path[n]| > 0 && path[n][|path[n]| - 1] == n
      && (forall i :: 0 <= i < |path[n]| ==>
            path[n][i] in cells && path[n][i] in path && path[path[n][i]] == path[n][..i + 1])
    }

    /**
     * A leaf has no children and an inner cell has all four, never a partial set; each
     * child is a distinct cell whose parent is `n` and whose path extends that of `n`.
     */
    ghost predicate KidsOk(n: QNode)
      requires n in cells && n in path
    {
      var c := cells[n];
      && (c.leaf ==> c.kids == EMPTY)
      && (!c.leaf ==> forall j :: 0 <= j < CHILDREN ==> c.kids[j] != null)
      && (forall j :: 0 <= j < CHILDREN && c.kids[j] != null ==>
            && c.kids[j] in cells && c.kids[j] in path
            && cells[c.kids[j]].parent == n && path[c.kids[j]] == path[n] + [c.kids[j]])
      && (forall j, k :: 0 <= j < k < CHILDREN && c.kids[j] != null ==> c.kids[j] != c.kids[k])
    }

    /**
     * Only `root` carries the root flag; it has depth 0 and the one-cell path. Any other
     * cell has depth 1 and sits in a slot of its parent, one step below it.
     */
    ghost predicate ParentOk(n: QNode)
      requires n in cells && n in path
    {
      var c := cells[n];
      && (c.root <==> n == root)
      && (n == root ==> path[n] == [n] && c.depth == 0)
      && (n != root ==>
            && c.parent != null && c.parent in cells && c.parent in path
            && path[n] == path[c.parent] + [n] && |path[n]| > 1
            && c.depth == 1
            && n in slot && slot[n] < CHILDREN && cells[c.parent].kids[slot[n]] == n)
    }

    /** The local conditions of cell `n`. */
    ghost predicate NodeOk(n: QNode)
      requires n in cells
    {
      PathOk(n) && KidsOk(n) && ParentOk(n)
    }

    /** The cells form a tree hanging from `root`. */
    ghost predicate WellFormed()
    {
      && root in cells && cells.Keys <= path.Keys
      && forall n {:trigger NodeOk(n)} :: n in cells ==> NodeOk(n)
    }

    /** The shape after `split_node(n)` hung the fresh leaves `kids` under `n`. */
    ghost function Split(n: QNode, kids: seq<QNode>, depth: u32): Skeleton
      requires n in cells && n in path && |kids| == CHILDREN
    {
      var leafCell := Cell(false, true, depth, n, EMPTY);
      Skeleton(
        cells[n := cells[n].(leaf := false, kids := [kids[0], kids[1], kids[2], kids[3]])]
             [kids[0] := leafCell][kids[1] := leafCell][kids[2] := leafCell][kids[3] := leafCell],
        path[kids[0] := path[n] + [kids[0]]][kids[1] := path[n] + [kids[1]]]
            [kids[2] := path[n] + [kids[2]]][kids[3] := path[n] + [kids[3]]],
        slot[kids[0] := 0][kids[1] := 1][kids[2] := 2][kids[3] := 3],
        root)
    }

    /** The leaves of the tree. */
    ghost function Leaves(): set<QNode>
    {
      set x | x in cells && cells[x].leaf
    }

    /** The leaves among `V`. */
    ghost function LeavesIn(V: set<QNode>): set<QNode>
    {
      set x | x in V && x in cells && cells[x].leaf
    }

    /** The leaves among `V` that `splitable` accepts under depth limit `maxDepth`. */
    ghost function SplittableIn(V: set<QNode>, maxDepth: u32): set<QNode>
    {
      set x | x in V && x in cells && cells[x].leaf && CanSplit(cells[x].depth, cells[x].kids, maxDepth)
    }

    /** `collabsible` on cell `x`: each present child is a leaf. */
    ghost predicate Collapsible(x: QNode)
      requires x in cells
    {
      forall j :: 0 <= j < CHILDREN && cells[x].kids[j] != null ==>
        cells[x].kids[j] in cells && cells[cells[x].kids[j]].leaf
    }

    /** The cells among `V` that `collabsible` accepts. */
    ghost function CollapsibleIn(V: set<QNode>): set<QNode>
    {
      set x | x in V && x in cells && Collapsible(x)
    }

    /** `t` lies on the path from the root to `x`: `x` is in the subtree of `t`. */
    ghost predicate Below(x: QNode, t: QNode)
    {
      && x in path && t in path
      && 0 < |path[t]| <= |path[x]| && path[x][|path[t]| - 1] == t
    }

    /** The cells of the subtree rooted at `t`. */
    ghost function Sub(t: QNode): set<QNode>
    {
      set x | x in cells && Below(x, t)
    }

    /** The entries of a stack are all cells of the tree. */
    ghost predicate InTree(S: seq<QNode>)
    {
      forall i :: 0 <= i < |S| ==> S[i] in cells
    }

    /** The cells of the subtrees rooted at the stack entries, with multiplicity. */
    ghost function Pending(S: seq<QNode>): multiset<QNode>
    {
      if S == [] then multiset{} else Pending(S[..|S| - 1]) + multiset(Sub(S[|S| - 1]))
    }

    /** The subtrees of the children in the first `c` slots of `kids`, with multiplicity. */
    ghost function ChildSubs(kids: Slots, c: nat): multiset<QNode>
      requires c <= CHILDREN
    {
      if c == 0 then multiset{}
      else ChildSubs(kids, c - 1) + (if kids[c - 1] != null then multiset(Sub(kids[c - 1])) else multiset{})
    }

    // --------------------------------------------------------------- subtrees

    /** Every cell lies below the root. */
    lemma SubOfRoot()
      requires WellFormed()
      ensures Sub(root) == cells.Keys
    {
      assert NodeOk(root);
      forall x | x in cells ensures Below(x, root) {
        assert NodeOk(x);
        var a := path[x][0];
        assert NodeOk(a);
      }
    }

    /** The cell one step below `t` on the path to `x` is a child of `t`. */
    lemma ChildOnPath(x: QNode, t: QNode) returns (a: QNode)
      requires WellFormed() && x in cells && t in cells && Below(x, t) && x != t
      ensures a in cells && Below(x, a) && a in slot && slot[a] < CHILDREN
      ensures cells[t].kids[slot[a]] == a && path[a] == path[t] + [a]
    {
      assert NodeOk(x) && NodeOk(t) && NodeOk(root);
      var L := |path[t]|;
      assert path[t] == path[x][..L];
      a := path[x][L];
      assert path[a] == path[x][..L + 1];
      assert NodeOk(a);
      var p := cells[a].parent;
      assert path[p] == path[t];
      assert NodeOk(p);
    }

    /** The root has depth 0. */
    lemma RootDepth()
      requires WellFormed()
      ensures cells[root].depth == 0
    {
      assert NodeOk(root);
    }

    /** A leaf has four empty slots. */
    lemma LeafHasNoKids(n: QNode)
      requires WellFormed() && n in cells && cells[n].leaf
      ensures cells[n].kids == EMPTY
    {
      assert NodeOk(n);
    }

    /** The present children of a cell are cells of the tree. */
    lemma KidsInTree(t: QNode)
      requires WellFormed() && t in cells
      ensures forall j :: 0 <= j < CHILDREN && cells[t].kids[j] != null ==> cells[t].kids[j] in cells
    {
      assert NodeOk(t);
    }

    /** A leaf's subtree is the leaf alone. */
    lemma SubOfLeaf(t: QNode)
      requires WellFormed() && t in cells && cells[t].leaf
      ensures Sub(t) == {t}
    {
      assert NodeOk(t);
      forall x | x in Sub(t) ensures x == t {
        if x != t {
          var a := ChildOnPath(x, t);
          assert false;
        }
      }
    }

    /** The subtree of a child `k` of `t` lies below `t`, without `t`. */
    lemma BelowChild(t: QNode, k: QNode, x: QNode)
      requires WellFormed() && t in cells && t in path && k in path && path[k] == path[t] + [k]
      requires x in Sub(k)
      ensures x in Sub(t) && x != t && path[x][|path[t]|] == k
    {
      assert NodeOk(x) && NodeOk(t);
      var L := |path[t]|;
      assert path[path[x][L]] == path[x][..L + 1];
    }

    /** An inner cell's subtree is the cell and the subtrees of its four children. */
    lemma SubOfInnerCover(t: QNode)
      requires WellFormed() && t in cells && !cells[t].leaf
      ensures forall c :: 0 <= c < CHILDREN ==> cells[t].kids[c] != null
      ensures var kids := cells[t].kids;
        Sub(t) == {t} + Sub(kids[0]) + Sub(kids[1]) + Sub(kids[2]) + Sub(kids[3])
    {
      assert NodeOk(t);
      var kids := cells[t].kids;
      var s0, s1, s2, s3 := Sub(kids[0]), Sub(kids[1]), Sub(kids[2]), Sub(kids[3]);
      forall x | x in Sub(t) && x != t ensures x in s0 + s1 + s2 + s3 {
        var a := ChildOnPath(x, t);
      }
      forall c, x | 0 <= c < CHILDREN && x in Sub(kids[c]) ensures x in Sub(t) {
        BelowChild(t, kids[c], x);
      }
      assert Below(t, t);
    }

    /** The subtrees of the children of an inner cell are disjoint and do not hold the cell. */
    lemma SubOfInnerDisjoint(t: QNode)
      requires WellFormed() && t in cells && !cells[t].leaf
      ensures forall c :: 0 <= c < CHILDREN ==> cells[t].kids[c] != null && t !in Sub(cells[t].kids[c])
      ensures forall c, d :: 0 <= c < d < CHILDREN ==> Sub(cells[t].kids[c]) !! Sub(cells[t].kids[d])
    {
      assert NodeOk(t);
      var kids := cells[t].kids;
      var L := |path[t]|;
      forall c, x | 0 <= c < CHILDREN && x in Sub(kids[c]) ensures x != t && path[x][L] == kids[c] {
        BelowChild(t, kids[c], x);
      }
    }

    /** An inner cell's subtree is the cell and the disjoint subtrees of its four children. */
    lemma SubOfInner(t: QNode)
      requires WellFormed() && t in cells && !cells[t].leaf
      ensures multiset(Sub(t)) == multiset{t} + ChildSubs(cells[t].kids, CHILDREN)
    {
      SubOfInnerCover(t);
      SubOfInnerDisjoint(t);
      var kids := cells[t].kids;
      var s0, s1, s2, s3 := Sub(kids[0]), Sub(kids[1]), Sub(kids[2]), Sub(kids[3]);
      DisjointUnion({t}, s0);
      DisjointUnion({t} + s0, s1);
      DisjointUnion({t} + s0 + s1, s2);
      DisjointUnion({t} + s0 + s1 + s2, s3);
      assert multiset({t}) == multiset{t};
      assert ChildSubs(kids, 1) == multiset(s0);
      assert ChildSubs(kids, 2) == multiset(s0) + multiset(s1);
      assert ChildSubs(kids, 3) == multiset(s0) + multiset(s1) + multiset(s2);
    }

    // --------------------------------------------------------------- stack walks

    lemma PendingPush(S: seq<QNode>, x: QNode)
      ensures Pending(S + [x]) == Pending(S) + multiset(Sub(x))
    {
      assert (S + [x])[..|S|] == S;
    }

    /** Taking the top entry off the stack: it is a cell not yet visited. */
    lemma PopStep(S: seq<QNode>, V: set<QNode>)
      requires WellFormed() && InTree(S) && S != []
      requires multiset(V) + Pending(S) == multiset(cells.Keys)
      ensures S[|S| - 1] !in V && S[|S| - 1] in cells
      ensures Pending(S) == Pending(S[..|S| - 1]) + multiset(Sub(S[|S| - 1]))
    {
      var t := S[|S| - 1];
      assert NodeOk(t);
      assert t in Sub(t);
      assert multiset(cells.Keys)[t] == 1;
      assert (multiset(V) + Pending(S))[t] == multiset(V)[t] + Pending(S)[t];
    }

    /**
     * A stack walk that has visited `V` has the subtrees of the stack entries left
     * to visit: together they count every cell exactly once.
     */
    ghost predicate Walking(V: set<QNode>, S: seq<QNode>)
    {
      InTree(S) && multiset(V) + Pending(S) == multiset(cells.Keys)
    }

    /** A walk starts with the root alone on the stack. */
    lemma WalkStart()
      requires WellFormed()
      ensures Walking({}, [root])
    {
      SubOfRoot();
      PendingPush([], root);
      assert [] + [root] == [root];
    }

    /**
     * One step of a walk: the popped cell `t` moves from the stack to the visited set;
     * a leaf adds nothing to the stack, an inner cell its children.
     */
    lemma VisitStep(V: set<QNode>, S: seq<QNode>, S': seq<QNode>)
      requires WellFormed() && S != [] && Walking(V, S) && InTree(S')
      requires cells[S[|S| - 1]].leaf ==> S' == S[..|S| - 1]
      requires !cells[S[|S| - 1]].leaf ==>
        Pending(S') == Pending(S[..|S| - 1]) + ChildSubs(cells[S[|S| - 1]].kids, CHILDREN)
      ensures S[|S| - 1] !in V && S[|S| - 1] in cells
      ensures Walking(V + {S[|S| - 1]}, S')
    {
      var t := S[|S| - 1];
      PopStep(S, V);
      DisjointUnion(V, {t});
      if cells[t].leaf {
        SubOfLeaf(t);
      } else {
        SubOfInner(t);
      }
    }

    /** Visiting `t` adds it to the leaves seen exactly when it is a leaf. */
    lemma LeavesStep(V: set<QNode>, t: QNode)
      requires t !in V && t in cells
      ensures multiset(LeavesIn(V + {t})) ==
        multiset(LeavesIn(V)) + (if cells[t].leaf then multiset{t} else multiset{})
    {
      if cells[t].leaf {
        assert LeavesIn(V + {t}) == LeavesIn(V) + {t};
        DisjointUnion(LeavesIn(V), {t});
      } else {
        assert LeavesIn(V + {t}) == LeavesIn(V);
      }
    }

    /** Visiting `t` adds it to the splittable cells seen exactly when `splitable` accepts it. */
    lemma SplittableStep(V: set<QNode>, t: QNode, maxDepth: u32)
      requires t !in V && t in cells
      ensures multiset(SplittableIn(V + {t}, maxDepth)) ==
        multiset(SplittableIn(V, maxDepth)) +
        (if cells[t].leaf && CanSplit(cells[t].depth, cells[t].kids, maxDepth) then multiset{t} else multiset{})
    {
      if cells[t].leaf && CanSplit(cells[t].depth, cells[t].kids, maxDepth) {
        assert SplittableIn(V + {t}, maxDepth) == SplittableIn(V, maxDepth) + {t};
        DisjointUnion(SplittableIn(V, maxDepth), {t});
      } else {
        assert SplittableIn(V + {t}, maxDepth) == SplittableIn(V, maxDepth);
      }
    }

    /** Visiting `t` adds it to the collapsible cells seen exactly when `collabsible` accepts it. */
    lemma CollapsibleStep(V: set<QNode>, t: QNode)
      requires t !in V && t in cells
      ensures multiset(CollapsibleIn(V + {t})) ==
        multiset(CollapsibleIn(V)) + (if Collapsible(t) then multiset{t} else multiset{})
    {
      if Collapsible(t) {
        assert CollapsibleIn(V + {t}) == CollapsibleIn(V) + {t};
        DisjointUnion(CollapsibleIn(V), {t});
      } else {
        assert CollapsibleIn(V + {t}) == CollapsibleIn(V);
      }
    }

    /** A walk that has emptied its stack has visited every cell. */
    lemma WalkDone(V: set<QNode>)
      requires Walking(V, [])
      ensures V == cells.Keys
    {
      forall x ensures x in V <==> x in cells.Keys {
        assert multiset(V)[x] == multiset(cells.Keys)[x];
      }
    }

    // --------------------------------------------------------------- depth

    /**
     * Since `split_node` gives every child the root's depth plus one, every cell but
     * the root has depth 1; so under a depth limit of at most 1 the root is the only
     * cell `splitable` can accept.
     */
    lemma OnlyRootSplittable(V: set<QNode>, maxDepth: u32)
      requires WellFormed() && maxDepth <= 1
      ensures SplittableIn(V, maxDepth) ==
        if root in V && cells[root].leaf && maxDepth == 1 then {root} else {}
    {
      forall x | x in SplittableIn(V, maxDepth) ensures x == root {
        assert NodeOk(x);
      }
      assert NodeOk(root);
      if root in V && cells[root].leaf && maxDepth == 1 {
        assert root in SplittableIn(V, maxDepth);
      }
    }

    /** Under a depth limit of at most 1, once the root is split nothing is splittable. */
    lemma NothingSplittableAfterRoot(V: set<QNode>, maxDepth: u32)
      requires WellFormed() && maxDepth <= 1 && !cells[root].leaf
      ensures SplittableIn(V, maxDepth) == {}
    {
      OnlyRootSplittable(V, maxDepth);
    }

    /** A leaf has no children, so `collabsible` accepts it. */
    lemma LeafCollapsible(n: QNode)
      requires WellFormed() && n in cells && cells[n].leaf
      ensures Collapsible(n)
    {
      LeafHasNoKids(n);
    }

    // --------------------------------------------------------------- splitting

    /**
     * This shape is `s0` after the cells of `split` were split in turn, while the
     * cells of `pq` are leaves of `s0` still untouched: the split cells are inner, no
     * other cell of `s0` changed, and four cells were added per split.
     */
    ghost predicate Refines(s0: Skeleton, split: seq<QNode>, pq: seq<QNode>)
    {
      && Distinct(split) && Distinct(pq)
      && (forall i :: 0 <= i < |pq| ==>
            pq[i] in s0.cells && s0.cells[pq[i]].leaf && pq[i] in cells && cells[pq[i]] == s0.cells[pq[i]])
      && (forall i :: 0 <= i < |split| ==> split[i] in s0.cells && split[i] in cells && !cells[split[i]].leaf)
      && s0.cells.Keys <= cells.Keys
      && (forall x :: x in s0.cells && x !in split ==> cells[x] == s0.cells[x])
      && |cells.Keys| == |s0.cells.Keys| + 4 * |split|
    }

    /** Each cell still queued is a leaf. */
    lemma QueuedIsLeaf(s0: Skeleton, split: seq<QNode>, pq: seq<QNode>, k: nat)
      requires Refines(s0, split, pq) && k < |pq|
      ensures pq[k] in cells && cells[pq[k]].leaf
    {
      assert cells[pq[k]] == s0.cells[pq[k]];
    }

    /** Splitting the head `pq[k]` of the queue moves it from the queue to the split cells. */
    lemma RefinesStep(s0: Skeleton, split: seq<QNode>, pq: seq<QNode>, k: nat, kids: seq<QNode>)
      requires cells.Keys <= path.Keys && Refines(s0, split, pq) && k < |pq|
      requires |kids| == CHILDREN && Distinct(kids)
      requires forall i :: 0 <= i < CHILDREN ==> kids[i] !in cells
      ensures pq[k] in cells && pq[k] in path
      ensures Split(pq[k], kids, 1).Refines(s0, split + [pq[k]], Without(pq, k))
    {
      RefinesStepQueue(s0, split, pq, k, kids);
      RefinesStepCells(s0, split, pq, k, kids);
    }

    lemma RefinesStepQueue(s0: Skeleton, split: seq<QNode>, pq: seq<QNode>, k: nat, kids: seq<QNode>)
      requires cells.Keys <= path.Keys && Refines(s0, split, pq) && k < |pq|
      requires |kids| == CHILDREN && Distinct(kids)
      requires forall i :: 0 <= i < CHILDREN ==> kids[i] !in cells
      ensures pq[k] in cells && pq[k] in path
      ensures var s, pq' := Split(pq[k], kids, 1), Without(pq, k);
        && Distinct(split + [pq[k]]) && Distinct(pq')
        && forall i :: 0 <= i < |pq'| ==>
             pq'[i] in s0.cells && s0.cells[pq'[i]].leaf && pq'[i] in s.cells && s.cells[pq'[i]] == s0.cells[pq'[i]]
    {
      var q := pq[k];
      assert q in cells;
      RemoveAt(pq, k);
      forall i | 0 <= i < |split| ensures split[i] != q {}
    }

    lemma RefinesStepCells(s0: Skeleton, split: seq<QNode>, pq: seq<QNode>, k: nat, kids: seq<QNode>)
      requires cells.Keys <= path.Keys && Refines(s0, split, pq) && k < |pq|
      requires |kids| == CHILDREN && Distinct(kids)
      requires forall i :: 0 <= i < CHILDREN ==> kids[i] !in cells
      ensures pq[k] in cells && pq[k] in path
      ensures var s, split' := Split(pq[k], kids, 1), split + [pq[k]];
        && (forall i :: 0 <= i < |split'| ==> split'[i] in s0.cells && split'[i] in s.cells && !s.cells[split'[i]].leaf)
        && s0.cells.Keys <= s.cells.Keys
        && (forall x :: x in s0.cells && x !in split' ==> s.cells[x] == s0.cells[x])
        && |s.cells.Keys| == |s0.cells.Keys| + 4 * |split'|
    {
      var q := pq[k];
      assert q in cells;
      SplitGrows(q, kids);
    }

    /** Splitting adds exactly the four fresh children to the cells. */
    lemma SplitGrows(n: QNode, kids: seq<QNode>)
      requires n in cells && n in path && |kids| == CHILDREN && Distinct(kids)
      requires forall i :: 0 <= i < CHILDREN ==> kids[i] !in cells
      ensures Split(n, kids, 1).cells.Keys == cells.Keys + Elements(kids)
      ensures |Split(n, kids, 1).cells.Keys| == |cells.Keys| + CHILDREN
    {
      assert Split(n, kids, 1).cells.Keys == cells.Keys + Elements(kids);
      DistinctSize(kids);
      DisjointSize(cells.Keys, Elements(kids));
    }

    /** Splitting a leaf, with fresh cells of depth 1 as its children, keeps the tree well formed. */
    lemma SplitWellFormed(n: QNode, kids: seq<QNode>)
      requires WellFormed() && n in cells && cells[n].leaf
      requires |kids| == CHILDREN && Distinct(kids)
      requires forall i :: 0 <= i < CHILDREN ==> kids[i] !in cells
      ensures Split(n, kids, 1).WellFormed()
    {
      var s := Split(n, kids, 1);
      assert NodeOk(n);
      forall m | m in s.cells ensures s.NodeOk(m) {
        if m == n {
          SplitKeepsParent(n, kids);
        } else if m in cells {
          SplitKeepsOther(n, kids, m);
        } else {
          SplitMakesLeaf(n, kids, m);
        }
      }
    }

    /**
     * `n` is a leaf of a well-formed tree and `kids` are four distinct cells not yet
     * in it: the situation in which `split_node` hangs them under `n`.
     */
    ghost predicate SplitsLeaf(n: QNode, kids: seq<QNode>)
    {
      && WellFormed() && n in cells && cells[n].leaf
      && |kids| == CHILDREN && Distinct(kids)
      && forall i :: 0 <= i < CHILDREN ==> kids[i] !in cells
    }

    lemma SplitKeepsOther(n: QNode, kids: seq<QNode>, m: QNode)
      requires SplitsLeaf(n, kids)
      requires m in cells && m != n
      ensures Split(n, kids, 1).NodeOk(m)
    {
      SplitKeepsOtherPath(n, kids, m);
      SplitKeepsOtherKids(n, kids, m);
      SplitKeepsOtherParent(n, kids, m);
    }

    lemma SplitKeepsOtherPath(n: QNode, kids: seq<QNode>, m: QNode)
      requires SplitsLeaf(n, kids)
      requires m in cells && m != n
      ensures Split(n, kids, 1).PathOk(m)
    {
      assert NodeOk(m);
    }

    lemma SplitKeepsOtherKids(n: QNode, kids: seq<QNode>, m: QNode)
      requires SplitsLeaf(n, kids)
      requires m in cells && m != n
      ensures m in Split(n, kids, 1).path && Split(n, kids, 1).KidsOk(m)
    {
      assert NodeOk(m) && NodeOk(n);
    }

    lemma SplitKeepsOtherParent(n: QNode, kids: seq<QNode>, m: QNode)
      requires SplitsLeaf(n, kids)
      requires m in cells && m != n
      ensures m in Split(n, kids, 1).path && Split(n, kids, 1).ParentOk(m)
    {
      assert NodeOk(m) && NodeOk(n);
      var p := cells[m].parent;
      if m != root {
        assert NodeOk(p);
      }
    }

    lemma SplitKeepsParent(n: QNode, kids: seq<QNode>)
      requires SplitsLeaf(n, kids)
      ensures Split(n, kids, 1).NodeOk(n)
    {
      SplitKeepsParentPath(n, kids);
      SplitKeepsParentKids(n, kids);
      SplitKeepsParentParent(n, kids);
    }

    lemma SplitKeepsParentPath(n: QNode, kids: seq<QNode>)
      requires SplitsLeaf(n, kids)
      ensures Split(n, kids, 1).PathOk(n)
    {
      assert NodeOk(n);
    }

    lemma SplitKeepsParentKids(n: QNode, kids: seq<QNode>)
      requires SplitsLeaf(n, kids)
      ensures n in Split(n, kids, 1).path && Split(n, kids, 1).KidsOk(n)
    {
      assert NodeOk(n);
    }

    lemma SplitKeepsParentParent(n: QNode, kids: seq<QNode>)
      requires SplitsLeaf(n, kids)
      ensures n in Split(n, kids, 1).path && Split(n, kids, 1).ParentOk(n)
    {
      assert NodeOk(n);
      var p := cells[n].parent;
      if n != root {
        assert NodeOk(p);
      }
    }

    lemma SplitMakesLeaf(n: QNode, kids: seq<QNode>, m: QNode)
      requires SplitsLeaf(n, kids)
      requires m in Split(n, kids, 1).cells && m !in cells
      ensures Split(n, kids, 1).NodeOk(m)
    {
      var i :| 0 <= i < CHILDREN && kids[i] == m;
      SplitMakesLeafPath(n, kids, i);
      SplitMakesLeafKids(n, kids, i);
      SplitMakesLeafParent(n, kids, i);
    }

    lemma SplitMakesLeafPath(n: QNode, kids: seq<QNode>, i: nat)
      requires SplitsLeaf(n, kids)
      requires i < CHILDREN
      ensures Split(n, kids, 1).PathOk(kids[i])
    {
      assert NodeOk(n);
      var s := Split(n, kids, 1);
      var m := kids[i];
      assert s.path[m] == path[n] + [m];
      forall j | 0 <= j < |path[n]| ensures s.path[path[n][j]] == path[path[n][j]] {}
    }

    lemma SplitMakesLeafKids(n: QNode, kids: seq<QNode>, i: nat)
      requires SplitsLeaf(n, kids)
      requires i < CHILDREN
      ensures kids[i] in Split(n, kids, 1).cells && kids[i] in Split(n, kids, 1).path
      ensures Split(n, kids, 1).KidsOk(kids[i])
    {
    }

    lemma SplitMakesLeafParent(n: QNode, kids: seq<QNode>, i: nat)
      requires SplitsLeaf(n, kids)
      requires i < CHILDREN
      ensures kids[i] in Split(n, kids, 1).cells && kids[i] in Split(n, kids, 1).path
      ensures Split(n, kids, 1).ParentOk(kids[i])
    {
      assert NodeOk(n) && NodeOk(root);
    }
  }

  /** Joining two disjoint sets adds their counts. */
  lemma DisjointUnion<T>(A: set<T>, B: set<T>)
    requires A !! B
    ensures multiset(A + B) == multiset(A) + multiset(B)
  {
    forall x ensures multiset(A + B)[x] == (multiset(A) + multiset(B))[x] {}
  }

  /** Visiting a new element of `A` leaves fewer elements to visit. */
  lemma VisitShrinks<T>(A: set<T>, V: set<T>, t: T)
    requires t in A && t !in V
    ensures |A - (V + {t})| < |A - V|
  {
    assert A - (V + {t}) == (A - V) - {t};
  }

  /** Removing entry `k` of a sequence without repeats leaves the other entries, without repeats. */
  lemma RemoveAt<T>(s: seq<T>, k: nat)
    requires Distinct(s) && k < |s|
    ensures Distinct(Without(s, k))
    ensures forall x :: x in Without(s, k) <==> x in s && x != s[k]
  {
    var r := Without(s, k);
    forall i, j | 0 <= i < j < |r| ensures r[i] != r[j] {
      var i0 := if i < k then i else i + 1;
      var j0 := if j < k then j else j + 1;
      assert r[i] == s[i0] && r[j] == s[j0];
    }
    forall x ensures x in r <==> x in s && x != s[k] {
      if x in r {
        var i :| 0 <= i < |r| && r[i] == x;
        var i0 := if i < k then i else i + 1;
        assert s[i0] == x;
      }
      if x in s && x != s[k] {
        var i :| 0 <= i < |s| && s[i] == x;
        assert r[if i < k then i else i - 1] == x;
      }
    }
  }

  /** A sequence without repeats has as many distinct elements as entries. */
  lemma {:induction false} DistinctSize<T>(s: seq<T>)
    requires Distinct(s)
    ensures |Elements(s)| == |s|
  {
    if s != [] {
      var t := s[..|s| - 1];
      assert Distinct(t);
      DistinctSize(t);
      assert Elements(s) == Elements(t) + {s[|s| - 1]};
      assert s[|s| - 1] !in Elements(t) by {
        forall i | 0 <= i < |t| ensures t[i] != s[|s| - 1] {}
      }
    }
  }

  /** Joining two disjoint sets adds their sizes. */
  lemma DisjointSize<T>(A: set<T>, B: set<T>)
    requires A !! B
    ensures |A + B| == |A| + |B|
  {
  }

  /** A sequence with the counts of a set lists each element of the set exactly once. */
  lemma CountsOfSet<T>(s: seq<T>, S: set<T>)
    requires multiset(s) == multiset(S)
    ensures Distinct(s)
    ensures forall x :: x in s <==> x in S
  {
    forall i, j | 0 <= i < j < |s| ensures s[i] != s[j] {
      var x := s[i];
      assert s == s[..j] + s[j..];
      assert s[..j][i] == x;
      assert multiset(s)[x] == multiset(s[..j])[x] + multiset(s[j..])[x];
      assert multiset(s[j..])[x] == 0;
      assert s[j..][0] == s[j];
    }
    forall x ensures x in s <==> x in S {
      assert x in s <==> x in multiset(s);
    }
  }
}
