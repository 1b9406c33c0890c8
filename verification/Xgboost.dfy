/** decision_tree.rs: building a decision tree from the JSON that xgboost dumps. */
module Xgboost {
  import opened Options
  import opened Values
  import opened FittedTree
  import opened BinaryTrees
  import opened StoredTree
  import opened DecisionTrees

  datatype Json =
    | Null
    | Bool(b: bool)
    | Int(i: int)
    | Float(r: real)
    | String(s: string)
    | Array(items: seq<Json>)
    | Object(fields: map<string, Json>)

  datatype GbdtError = ParseError | NotSupportExtraMissingNode | ChildrenNotFound

  datatype Result<+T> = Ok(value: T) | Err(error: GbdtError)

  const TWO_63: int := 0x8000_0000_0000_0000

  /** `node[key]`: Null where there is no such field. */
  function Get(j: Json, key: string): (r: Json)
    ensures r == Null || r < j
  {
    if j.Object? && key in j.fields then j.fields[key] else Null
  }

  function AsI64(j: Json): Option<int> {
    if j.Int? && -TWO_63 <= j.i < TWO_63 then Some(j.i) else None
  }

  function AsF64(j: Json): Option<real> {
    match j
    case Int(i) => Some(i as real)
    case Float(r) => Some(r)
    case _ => None
  }

  function AsUsize(i: int): nat
    requires -TWO_63 <= i < TWO_63
  {
    if i < 0 then i + 2 * TWO_63 else i
  }

  function Digits(s: string): Option<nat> {
    if s == [] then Some(0)
    else
      var c := s[|s| - 1];
      var front := Digits(s[..|s| - 1]);
      if front.None? || !('0' <= c <= '9') then None else Some(10 * front.value + (c - '0') as int)
  }

  /** `str::parse::<i64>`: an optional sign, then at least one digit, within range. */
  function ParseI64(s: string): (r: Option<int>)
    ensures r.Some? ==> -TWO_63 <= r.value < TWO_63
  {
    var signed := s != [] && (s[0] == '+' || s[0] == '-');
    var digits := if signed then s[1..] else s;
    var v := Digits(digits);
    if digits == [] || v.None? then None
    else
      var i: int := if signed && s[0] == '-' then 0 - v.value else v.value;
      if -TWO_63 <= i < TWO_63 then Some(i) else None
  }

  function SplitFeature(node: Json): (r: Option<int>)
    ensures r.Some? ==> -TWO_63 <= r.value < TWO_63
  {
    match AsI64(Get(node, "split"))
    case Some(i) => Some(i)
    case None =>
      match Get(node, "split")
      case String(s) => ParseI64(if |s| <= 3 then [] else s[3..])
      case _ => None
  }

  function IsLeafJson(node: Json): bool {
    Get(node, "leaf").Int? || Get(node, "leaf").Float?
  }

  /** The fields of an inner node, in the order the builder reads them. */
  datatype Header = Header(feature: nat, threshold: real, missing: int, yes: int, no: int)

  function ReadHeader(node: Json): Result<Header> {
    var threshold := AsF64(Get(node, "split_condition"));
    var feature := SplitFeature(node);
    var missing, yes, no := AsI64(Get(node, "missing")), AsI64(Get(node, "yes")), AsI64(Get(node, "no"));
    if threshold.None? || feature.None? || missing.None? || yes.None? || no.None? then Err(ParseError)
    else if missing.value != yes.value && missing.value != no.value then Err(NotSupportExtraMissingNode)
    else Ok(Header(AsUsize(feature.value), threshold.value, missing.value, yes.value, no.value))
  }

  function Children(node: Json): (items: seq<Json>)
    ensures forall k :: 0 <= k < |items| ==> items[k] < node
  {
    var c := Get(node, "children");
    if c.Array? then c.items else []
  }

  // ---- what the JSON means ---------------------------------------------------------------------

  /** The last of the first `k` children whose id is `id`. */
  function ChildWithId(items: seq<Json>, k: nat, id: int): (c: Option<Json>)
    requires k <= |items|
    ensures c.Some? ==> exists j :: 0 <= j < k && items[j] == c.value && AsI64(Get(c.value, "nodeid")) == Some(id)
    ensures c.None? ==> forall j :: 0 <= j < k ==> AsI64(Get(items[j], "nodeid")) != Some(id)
  {
    if k == 0 then None
    else if AsI64(Get(items[k - 1], "nodeid")) == Some(id) then Some(items[k - 1])
    else ChildWithId(items, k - 1, id)
  }

  /**
   * Direct evaluation, straight from the fields: a leaf's number, or the child named by `missing` for
   * an unknown feature, by `yes` for one below the condition, and by `no` for any other.
   */
  function EvalJson(node: Json, x: seq<Feature>): Option<real> {
    match Get(node, "leaf")
    case Int(i) => Some(i as real)
    case Float(r) => Some(r)
    case _ =>
      var split, condition := SplitFeature(node), AsF64(Get(node, "split_condition"));
      var yes, no, missing := Get(node, "yes"), Get(node, "no"), Get(node, "missing");
      if split.None? || condition.None? || !yes.Int? || !no.Int? || !missing.Int? then None
      else
        var f := AsUsize(split.value);
        if |x| <= f then None
        else
          var id := if x[f] == UNKNOWN then missing.i else if x[f] < condition.value then yes.i else no.i;
          var items := Children(node);
          match ChildWithId(items, |items|, id)
          case None => None
          case Some(c) => EvalJson(c, x)
  }

  /** A dump the builder accepts: readable fields, and well-formed children for both branches. */
  predicate WellFormed(node: Json) {
    IsLeafJson(node) ||
    (&& ReadHeader(node).Ok?
     && Get(node, "children").Array?
     && var items, h := Children(node), ReadHeader(node).value;
        && (forall k :: 0 <= k < |items| ==> AsI64(Get(items[k], "nodeid")).Some?)
        && ChildWithId(items, |items|, h.yes).Some?
        && ChildWithId(items, |items|, h.no).Some?
        && (forall k :: 0 <= k < |items| && AsI64(Get(items[k], "nodeid")).value in {h.yes, h.no} ==> WellFormed(items[k])))
  }

  /** How a number is written. */
  function Decimal(n: nat): (s: string)
    ensures s != []
  {
    var last := [('0' as int + n % 10) as char];
    if n < 10 then last else Decimal(n / 10) + last
  }

  lemma {:induction false} DigitsOfDecimal(n: nat)
    ensures Digits(Decimal(n)) == Some(n) && '0' <= Decimal(n)[0] <= '9'
  {
    var s, last := Decimal(n), ('0' as int + n % 10) as char;
    assert '0' <= last <= '9' && (last - '0') as int == n % 10;
    if n < 10 {
      assert s == [last] && s[..0] == [];
      assert Digits(s[..0]) == Some(0);
    } else {
      DigitsOfDecimal(n / 10);
      assert s == Decimal(n / 10) + [last];
      assert s[..|s| - 1] == Decimal(n / 10);
    }
  }

  /** A split given as a number, or as three characters and that number in decimal digits. */
  ghost predicate SplitGiven(split: Json, f: nat) {
    f < TWO_63 && (split == Int(f) || (split.String? && |split.s| >= 3 && split.s[3..] == Decimal(f)))
  }

  lemma {:induction false} SplitIsWritten(node: Json, f: nat)
    requires SplitGiven(Get(node, "split"), f)
    ensures SplitFeature(node).Some? && AsUsize(SplitFeature(node).value) == f
  {
    if Get(node, "split").String? {
      DigitsOfDecimal(f);
    }
  }

  ghost predicate NumberIs(j: Json, r: real) {
    j == Float(r) || (j.Int? && r == j.i as real)
  }

  /** The fields of an inner node, as the dump gives them. */
  datatype Fields = Fields(feature: nat, condition: real, yes: int, no: int, missing: int, items: seq<Json>)

  ghost predicate HasFields(node: Json, d: Fields) {
    && !Get(node, "leaf").Int? && !Get(node, "leaf").Float?
    && SplitGiven(Get(node, "split"), d.feature)
    && NumberIs(Get(node, "split_condition"), d.condition)
    && Get(node, "yes") == Int(d.yes) && Get(node, "no") == Int(d.no) && Get(node, "missing") == Int(d.missing)
    && Get(node, "children") == Array(d.items)
  }

  lemma {:induction false} LastChild(items: seq<Json>, n: nat, k: nat, id: int)
    requires k < n <= |items| && -TWO_63 <= id < TWO_63 && Get(items[k], "nodeid") == Int(id)
    requires forall m :: k < m < n ==> Get(items[m], "nodeid") != Int(id)
    ensures ChildWithId(items, n, id) == Some(items[k])
  {
    if k < n - 1 {
      LastChild(items, n - 1, k, id);
    }
  }

  /**
   * An inner node means what its child `k` means, if that is the last one with the id of `missing` for
   * an unknown feature, of `yes` for one below the condition, and of `no` for any other.
   */
  lemma {:induction false} InnerNodeMeans(node: Json, d: Fields, x: seq<Feature>, k: nat)
    requires HasFields(node, d) && d.feature < |x| && k < |d.items|
    requires Get(d.items[k], "nodeid") ==
               if x[d.feature] == UNKNOWN then Int(d.missing) else if x[d.feature] < d.condition then Int(d.yes) else Int(d.no)
    requires forall m :: k < m < |d.items| ==> Get(d.items[m], "nodeid") != Get(d.items[k], "nodeid")
    requires -TWO_63 <= Get(d.items[k], "nodeid").i < TWO_63
    ensures EvalJson(node, x) == EvalJson(d.items[k], x)
  {
    SplitIsWritten(node, d.feature);
    LastChild(d.items, |d.items|, k, Get(d.items[k], "nodeid").i);
  }

  /** A leaf means its number. */
  lemma {:induction false} LeafMeans(node: Json, r: real, x: seq<Feature>)
    requires NumberIs(Get(node, "leaf"), r)
    ensures EvalJson(node, x) == Some(r)
  {
  }

  // ---- what the builder makes of it ------------------------------------------------------------

  datatype Built = Built(left: Option<DTree>, right: Option<DTree>)

  /** The tree the builder makes, or the first error it meets. */
  function Build(node: Json): Result<DTree>
    decreases node, 1, 0
  {
    if IsLeafJson(node) then Ok(Leaf(AsF64(Get(node, "leaf")).value))
    else
      match ReadHeader(node)
      case Err(e) => Err(e)
      case Ok(h) =>
        if !Get(node, "children").Array? then Err(ParseError)
        else
          match BuildChildren(node, h, |Children(node)|)
          case Err(e) => Err(e)
          case Ok(b) =>
            if b.left.None? || b.right.None? then Err(ChildrenNotFound)
            else Ok(Branch(h.feature, h.threshold, 0.0, if h.missing == h.yes then -1 else 1, b.left.value, b.right.value))
  }

  /** After the first `k` children. */
  function BuildChildren(node: Json, h: Header, k: nat): Result<Built>
    requires k <= |Children(node)|
    decreases node, 0, k
  {
    if k == 0 then Ok(Built(None, None))
    else
      match BuildChildren(node, h, k - 1)
      case Err(e) => Err(e)
      case Ok(b) =>
        var child := Children(node)[k - 1];
        match AsI64(Get(child, "nodeid"))
        case None => Err(ParseError)
        case Some(id) =>
          if id != h.yes && id != h.no then Ok(b)
          else
            match Build(child)
            case Err(e) => Err(e)
            case Ok(t) => Ok(Built(if id == h.yes then Some(t) else b.left, if id == h.no then Some(t) else b.right))
  }

  ghost predicate IsI64(j: Json) {
    j.Int? && -TWO_63 <= j.i < TWO_63
  }

  /** Which error an inner node raises before, or instead of, looking into its children. */
  lemma {:induction false} ErrorsOfNode(node: Json)
    requires !Get(node, "leaf").Int? && !Get(node, "leaf").Float?
    ensures var condition, split := Get(node, "split_condition"), Get(node, "split");
            var yes, no, missing := Get(node, "yes"), Get(node, "no"), Get(node, "missing");
            && (!IsI64(yes) || !IsI64(no) || !IsI64(missing) || !(condition.Int? || condition.Float?) || !(split.Int? || split.String?) ==>
                  Build(node) == Err(ParseError))
            && (IsI64(yes) && IsI64(no) && IsI64(missing) && (condition.Int? || condition.Float?) && (exists f: nat :: SplitGiven(split, f)) ==>
                  if missing != yes && missing != no then Build(node) == Err(NotSupportExtraMissingNode)
                  else if !Get(node, "children").Array? then Build(node) == Err(ParseError)
                  else if Children(node) == [] then Build(node) == Err(ChildrenNotFound)
                  else true)
  {
    hide Decimal;
    if f: nat :| SplitGiven(Get(node, "split"), f) {
      SplitIsWritten(node, f);
    }
  }

  lemma {:induction false} BuildChildrenFails(node: Json, h: Header, k: nat, m: nat)
    requires k <= m <= |Children(node)| && BuildChildren(node, h, k).Err?
    ensures BuildChildren(node, h, m) == BuildChildren(node, h, k)
  {
    if k < m {
      BuildChildrenFails(node, h, k, m - 1);
    }
  }

  /** What was built for each branch comes from the last child with that branch's id. */
  lemma {:induction false} BuiltFromLast(node: Json, h: Header, k: nat)
    requires k <= |Children(node)| && BuildChildren(node, h, k).Ok?
    ensures var items, b := Children(node), BuildChildren(node, h, k).value;
            && (match ChildWithId(items, k, h.yes) case None => b.left == None case Some(c) => b.left.Some? && Build(c) == Ok(b.left.value))
            && (match ChildWithId(items, k, h.no) case None => b.right == None case Some(c) => b.right.Some? && Build(c) == Ok(b.right.value))
  {
    if k > 0 {
      BuiltFromLast(node, h, k - 1);
    }
  }

  /** The built tree predicts what the JSON says, for every sample, unknown values included. */
  lemma {:induction false} BuildMeansEval(node: Json, x: seq<Feature>)
    requires Build(node).Ok?
    ensures Eval(Build(node).value, x) == EvalJson(node, x)
    decreases node
  {
    if !IsLeafJson(node) {
      var h, items := ReadHeader(node).value, Children(node);
      BuiltFromLast(node, h, |items|);
      var yes, no := ChildWithId(items, |items|, h.yes).value, ChildWithId(items, |items|, h.no).value;
      assert yes < node && no < node;
      BuildMeansEval(yes, x);
      BuildMeansEval(no, x);
    }
  }

  /** Building fails exactly on the dumps that are not well formed. */
  lemma {:induction false} BuildsIffWellFormed(node: Json)
    ensures Build(node).Ok? <==> WellFormed(node)
    decreases node, 1, 0
  {
    if !IsLeafJson(node) && ReadHeader(node).Ok? && Get(node, "children").Array? {
      var h, items := ReadHeader(node).value, Children(node);
      ChildrenBuildIff(node, h, |items|);
      if BuildChildren(node, h, |items|).Ok? {
        BuiltFromLast(node, h, |items|);
      }
    }
  }

  lemma {:induction false} ChildrenBuildIff(node: Json, h: Header, k: nat)
    requires k <= |Children(node)|
    ensures var items := Children(node);
            BuildChildren(node, h, k).Ok? <==>
              && (forall j :: 0 <= j < k ==> AsI64(Get(items[j], "nodeid")).Some?)
              && (forall j :: 0 <= j < k && AsI64(Get(items[j], "nodeid")).value in {h.yes, h.no} ==> WellFormed(items[j]))
    decreases node, 0, k
  {
    if k > 0 {
      ChildrenBuildIff(node, h, k - 1);
      BuildsIffWellFormed(Children(node)[k - 1]);
    }
  }

  // ---- building in place -----------------------------------------------------------------------

  /** The subtrees built so far hang off `node`, at later positions of the vector. */
  ghost predicate Attached(nodes: Nodes, node: nat, b: Built) {
    && node < |nodes|
    && (b.left.Some? ==> node < nodes[node].left && Stores(nodes, nodes[node].left, b.left.value))
    && (b.right.Some? ==> node < nodes[node].right && Stores(nodes, nodes[node].right, b.right.value))
  }

  /** Attaching one more child leaves the subtree on the other side alone. */
  lemma AttachChild(a: Nodes, b: Nodes, node: nat, built: Built, isLeft: bool, t: DTree)
    requires Attached(a, node, built)
    requires GrewAt(Added(a, node, isLeft, NewNode(EMPTY_DT_NODE)), b, |a|) && Stores(b, |a|, t)
    ensures GrewAt(a, b, node) && b[node].value == a[node].value
    ensures Attached(b, node, if isLeft then built.(left := Some(t)) else built.(right := Some(t)))
  {
    assert b[node] == Added(a, node, isLeft, NewNode(EMPTY_DT_NODE))[node];
    if isLeft && built.right.Some? {
      StoresFrame(a, b, a[node].right, built.right.value);
    }
    if !isLeft && built.left.Some? {
      StoresFrame(a, b, a[node].left, built.left.value);
    }
  }

  /** Grows the subtree that `node` describes at position `index`; an error may leave part of it. */
  method AddNodeFromJson(tree: BinaryTree<DTNode>, index: nat, node: Json) returns (r: Result<()>)
    requires IsBlank(tree.tree, index) && WellLinked(tree.tree)
    modifies tree
    ensures WellLinked(tree.tree) && GrewAt(old(tree.tree), tree.tree, index)
    ensures match Build(node)
            case Ok(t) => r == Ok(()) && Stores(tree.tree, index, t)
            case Err(e) => r == Err(e)
    decreases node, 1
  {
    var n := tree.tree[index];
    if IsLeafJson(node) {
      tree.tree := tree.tree[index := n.(value := n.value.(pred := AsF64(Get(node, "leaf")).value, isLeaf := true))];
      ValueKeepsLinks(old(tree.tree), index, tree.tree[index].value);
      return Ok(());
    }
    var header := ReadHeader(node);
    if header.Err? {
      return Err(header.error);
    }
    var h := header.value;
    var missing := if h.missing == h.yes then -1 else 1;
    tree.tree := tree.tree[index := n.(value := n.value.(featureValue := h.threshold, featureIndex := h.feature, missing := missing))];
    ValueKeepsLinks(old(tree.tree), index, tree.tree[index].value);
    if !Get(node, "children").Array? {
      return Err(ParseError);
    }
    r := AddChildren(tree, index, node, h);
  }

  /** The loop over the children, and the check that both branches were found. */
  method AddChildren(tree: BinaryTree<DTNode>, index: nat, node: Json, h: Header) returns (r: Result<()>)
    requires WellLinked(tree.tree) && index < |tree.tree|
    requires !IsLeafJson(node) && ReadHeader(node) == Ok(h) && Get(node, "children").Array?
    requires tree.tree[index].value == DTNode(h.feature, h.threshold, 0.0, if h.missing == h.yes then -1 else 1, false)
    modifies tree
    ensures WellLinked(tree.tree) && GrewAt(old(tree.tree), tree.tree, index)
    ensures match Build(node)
            case Ok(t) => r == Ok(()) && Stores(tree.tree, index, t)
            case Err(e) => r == Err(e)
    decreases node, 0
  {
    hide Stores, WellLinked, EvalJson, WellFormed, Attached;
    var items := Children(node);
    var findLeft, findRight := false, false;
    AttachedNone(tree.tree, index);
    for k := 0 to |items|
      invariant WellLinked(tree.tree) && GrewAt(old(tree.tree), tree.tree, index) && index < |tree.tree|
      invariant tree.tree[index].value == old(tree.tree[index].value)
      invariant BuildChildren(node, h, k).Ok? && Attached(tree.tree, index, BuildChildren(node, h, k).value)
      invariant findLeft == BuildChildren(node, h, k).value.left.Some?
      invariant findRight == BuildChildren(node, h, k).value.right.Some?
    {
      var child := items[k];
      var nodeId := AsI64(Get(child, "nodeid"));
      if BuildChildren(node, h, k + 1).Err? {
        BuildChildrenFails(node, h, k + 1, |items|);
      }
      if nodeId.None? {
        return Err(ParseError);
      }
      ghost var b := BuildChildren(node, h, k).value;
      if nodeId.value == h.yes {
        findLeft := true;
        r := AddChild(tree, index, true, node, child, b);
        if r.Err? {
          return;
        }
        b := b.(left := Some(Build(child).value));
      }
      if nodeId.value == h.no {
        findRight := true;
        r := AddChild(tree, index, false, node, child, b);
        if r.Err? {
          return;
        }
        b := b.(right := Some(Build(child).value));
      }
    }
    if !findLeft || !findRight {
      return Err(ChildrenNotFound);
    }
    AttachedBoth(tree.tree, index, BuildChildren(node, h, |items|).value);
    r := Ok(());
  }

  lemma AttachedNone(nodes: Nodes, index: nat)
    requires index < |nodes|
    ensures Attached(nodes, index, Built(None, None))
  {
  }

  lemma AttachedBoth(nodes: Nodes, i: nat, b: Built)
    requires Attached(nodes, i, b) && b.left.Some? && b.right.Some? && !nodes[i].value.isLeaf
    ensures var v := nodes[i].value;
            Stores(nodes, i, Branch(v.featureIndex, v.featureValue, v.pred, v.missing, b.left.value, b.right.value))
  {
  }

  method AddChild(tree: BinaryTree<DTNode>, index: nat, isLeft: bool, ghost node: Json, child: Json, ghost b: Built) returns (r: Result<()>)
    requires WellLinked(tree.tree) && Attached(tree.tree, index, b) && child < node
    modifies tree
    ensures WellLinked(tree.tree) && GrewAt(old(tree.tree), tree.tree, index)
    ensures index < |tree.tree| && tree.tree[index].value == old(tree.tree[index].value)
    ensures match Build(child)
            case Ok(t) => r == Ok(()) && Attached(tree.tree, index, if isLeft then b.(left := Some(t)) else b.(right := Some(t)))
            case Err(e) => r == Err(e)
    decreases child, 2
  {
    hide Build, Stores;
    ghost var nodes := tree.tree;
    AddedIsWellLinked(tree.tree, index, isLeft, NewNode(EMPTY_DT_NODE));
    var position;
    if isLeft {
      position := tree.AddLeftNode(index, NewNode(EMPTY_DT_NODE));
    } else {
      position := tree.AddRightNode(index, NewNode(EMPTY_DT_NODE));
    }
    r := AddNodeFromJson(tree, position, child);
    if Build(child).Ok? {
      AttachChild(nodes, tree.tree, index, b, isLeft, Build(child).value);
    }
  }

  /** Succeeds exactly on well-formed dumps, with a tree that predicts what the dump says. */
  method GetFromXgboost(node: Json) returns (r: Result<BinaryTree<DTNode>>)
    ensures r.Ok? <==> WellFormed(node)
    ensures r.Err? ==> Build(node) == Err(r.error)
    ensures r.Ok? ==> WellLinked(r.value.tree) && r.value.tree != [] && r.value.tree[0].index == 0
    ensures r.Ok? ==> forall x :: PredictOne(r.value.tree, r.value.tree[0], x) == EvalJson(node, x)
  {
    var tree := new BinaryTree<DTNode>();
    AddedIsWellLinked(tree.tree, 0, false, NewNode(EMPTY_DT_NODE));
    var index := tree.AddRoot(NewNode(EMPTY_DT_NODE));
    var added := AddNodeFromJson(tree, index, node);
    BuildsIffWellFormed(node);
    if added.Err? {
      return Err(added.error);
    }
    var t := Build(node).value;
    assert NodeLinked(tree.tree[0], 0, |tree.tree|);
    forall x
      ensures PredictOne(tree.tree, tree.tree[0], x) == EvalJson(node, x)
    {
      PredictOneIsEval(tree.tree, 0, t, x);
      BuildMeansEval(node, x);
    }
    r := Ok(tree);
  }
}
