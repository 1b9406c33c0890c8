/** binary_tree.rs: a binary tree kept in a vector, linked by positions; 0 stands for no child. */
module BinaryTrees {
  import opened Options

  datatype BinaryTreeNode<T> = BinaryTreeNode(value: T, index: nat, left: nat, right: nat)

  function NewNode<T>(value: T): BinaryTreeNode<T> {
    BinaryTreeNode(value, 0, 0, 0)
  }

  /** The vector after `add_node`: a push, and a link from the parent unless the vector was empty. */
  function Added<T>(nodes: seq<BinaryTreeNode<T>>, parent: nat, isLeft: bool, child: BinaryTreeNode<T>): seq<BinaryTreeNode<T>> {
    var position := |nodes|;
    var pushed := nodes + [child.(index := position)];
    if position == 0 || parent >= |pushed| then pushed
    else pushed[parent := if isLeft then pushed[parent].(left := position) else pushed[parent].(right := position)]
  }

  /** Every link points to a later node of the vector, and every node knows its own position. */
  ghost predicate WellLinked<T>(nodes: seq<BinaryTreeNode<T>>) {
    forall i :: 0 <= i < |nodes| ==> NodeLinked(nodes[i], i, |nodes|)
  }

  predicate NodeLinked<T>(node: BinaryTreeNode<T>, i: nat, n: nat) {
    && node.index == i
    && (node.left == 0 || i < node.left < n)
    && (node.right == 0 || i < node.right < n)
  }

  /**
   * Adding a childless node keeps every link forward, exactly when the parent is not the position
   * that the new node itself is about to take.
   */
  lemma AddedIsWellLinked<T>(nodes: seq<BinaryTreeNode<T>>, parent: nat, isLeft: bool, child: BinaryTreeNode<T>)
    requires WellLinked(nodes) && child.left == child.right == 0
    ensures WellLinked(Added(nodes, parent, isLeft, child)) <==> nodes == [] || parent != |nodes|
  {
    var r := Added(nodes, parent, isLeft, child);
    if nodes != [] && parent == |nodes| {
      assert !NodeLinked(r[parent], parent, |r|);
    } else {
      forall i | 0 <= i < |r|
        ensures NodeLinked(r[i], i, |r|)
      {
        assert i < |nodes| ==> NodeLinked(nodes[i], i, |nodes|);
      }
    }
  }

  lemma ValueKeepsLinks<T>(nodes: seq<BinaryTreeNode<T>>, i: nat, value: T)
    requires WellLinked(nodes) && i < |nodes|
    ensures WellLinked(nodes[i := nodes[i].(value := value)])
  {
    assert forall k :: 0 <= k < |nodes| ==> NodeLinked(nodes[k], k, |nodes|);
  }

  class BinaryTree<T> {
    var tree: seq<BinaryTreeNode<T>>

    constructor ()
      ensures tree == []
    {
      tree := [];
    }

    method AddNode(parent: nat, isLeft: bool, child: BinaryTreeNode<T>) returns (position: nat)
      modifies this
      ensures tree == Added(old(tree), parent, isLeft, child)
      ensures position == |old(tree)|
    {
      tree := tree + [child.(index := |tree|)];
      position := |tree| - 1;
      if position == 0 {
        return;
      }
      if parent < |tree| {
        var n := tree[parent];
        tree := tree[parent := if isLeft then n.(left := position) else n.(right := position)];
      }
    }

    method AddRoot(root: BinaryTreeNode<T>) returns (position: nat)
      modifies this
      ensures tree == Added(old(tree), 0, false, root)
      ensures position == |old(tree)|
    {
      position := AddNode(0, false, root);
    }

    method AddLeftNode(parent: nat, child: BinaryTreeNode<T>) returns (position: nat)
      modifies this
      ensures tree == Added(old(tree), parent, true, child)
      ensures position == |old(tree)|
    {
      position := AddNode(parent, true, child);
    }

    method AddRightNode(parent: nat, child: BinaryTreeNode<T>) returns (position: nat)
      modifies this
      ensures tree == Added(old(tree), parent, false, child)
      ensures position == |old(tree)|
    {
      position := AddNode(parent, false, child);
    }
  }

  function GetNode<T>(nodes: seq<BinaryTreeNode<T>>, i: nat): Option<BinaryTreeNode<T>> {
    if i < |nodes| then Some(nodes[i]) else None
  }

  function GetLeftChild<T>(nodes: seq<BinaryTreeNode<T>>, node: BinaryTreeNode<T>): Option<BinaryTreeNode<T>> {
    if node.left == 0 then None else GetNode(nodes, node.left)
  }

  function GetRightChild<T>(nodes: seq<BinaryTreeNode<T>>, node: BinaryTreeNode<T>): Option<BinaryTreeNode<T>> {
    if node.right == 0 then None else GetNode(nodes, node.right)
  }
}
