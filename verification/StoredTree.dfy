/** A decision tree laid out in a vector of linked nodes, and prediction over that vector. */
module StoredTree {
  import opened Options
  import opened Values
  import opened FittedTree
  import opened BinaryTrees

  datatype DTNode = DTNode(featureIndex: nat, featureValue: real, pred: real, missing: int, isLeaf: bool)

  type Nodes = seq<BinaryTreeNode<DTNode>>

  const EMPTY_DT_NODE: DTNode := DTNode(0, 0.0, 0.0, 0, false)

  /** `predict_one`: None where it panics, for a missing feature or a missing child. */
  function PredictOne(nodes: Nodes, node: BinaryTreeNode<DTNode>, x: seq<Feature>): Option<real>
    requires WellLinked(nodes) && node.index < |nodes| && nodes[node.index] == node
    decreases |nodes| - node.index
  {
    var v := node.value;
    assert NodeLinked(nodes[node.index], node.index, |nodes|);
    if v.isLeaf then Some(v.pred)
    else if |x| <= v.featureIndex then None
    else
      var goesLeft := if x[v.featureIndex] == UNKNOWN then v.missing == -1 else x[v.featureIndex] < v.featureValue;
      if x[v.featureIndex] == UNKNOWN && v.missing == 0 then Some(v.pred)
      else
        match if goesLeft then GetLeftChild(nodes, node) else GetRightChild(nodes, node)
        case None => None
        case Some(child) =>
          assert NodeLinked(nodes[if goesLeft then node.left else node.right], if goesLeft then node.left else node.right, |nodes|);
          PredictOne(nodes, child, x)
  }

  /** The subtree at position `i` is `t`, with both children of every branch at larger positions. */
  ghost predicate Stores(nodes: Nodes, i: nat, t: DTree)
    decreases t
  {
    && i < |nodes|
    && match t
       case Leaf(pred) => nodes[i].value.isLeaf && nodes[i].value.pred == pred
       case Branch(f, v, pred, missing, l, r) =>
         && nodes[i].value == DTNode(f, v, pred, missing, false)
         && i < nodes[i].left && i < nodes[i].right
         && Stores(nodes, nodes[i].left, l)
         && Stores(nodes, nodes[i].right, r)
  }

  /** Changing nodes before `i` and adding nodes at the end leaves the subtree at `i` alone. */
  lemma {:induction false} StoresFrame(a: Nodes, b: Nodes, i: nat, t: DTree)
    requires Stores(a, i, t) && |a| <= |b|
    requires forall k :: i <= k < |a| ==> a[k] == b[k]
    ensures Stores(b, i, t)
    decreases t
  {
    match t
    case Leaf(_) =>
    case Branch(_, _, _, _, l, r) =>
      StoresFrame(a, b, a[i].left, l);
      StoresFrame(a, b, a[i].right, r);
  }

  /** Predicting over the vector is predicting with the tree stored in it. */
  lemma {:induction false} PredictOneIsEval(nodes: Nodes, i: nat, t: DTree, x: seq<Feature>)
    requires WellLinked(nodes) && Stores(nodes, i, t)
    ensures nodes[i].index == i
    ensures PredictOne(nodes, nodes[i], x) == Eval(t, x)
    decreases t
  {
    assert NodeLinked(nodes[i], i, |nodes|);
    match t
    case Leaf(_) =>
    case Branch(_, _, _, _, l, r) =>
      PredictOneIsEval(nodes, nodes[i].left, l, x);
      PredictOneIsEval(nodes, nodes[i].right, r, x);
  }
}
