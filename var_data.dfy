/**
  The node layout of the computation graph (a `VarData` object) and the
  pure specifications of what the graph's operations build and of what the
  backward pass does to the gradients.

  Nodes live in an arena (`seq<Node>`) and refer to their operands by index.
  An operand always exists before the node built from it, so every child
  index is smaller than its parent's index: the graph is acyclic and the
  parent's index is a termination measure for the backward recursion.
 */
module VarData {

  /** A `VarData`: value, accumulated gradient, operand nodes ("children")
      in order, and one local derivative per child. */
  datatype Node = Node(value: real, grad: real, children: seq<nat>, ders: seq<real>)

  /** A node without operands: a literal or an input variable. */
  predicate IsLeaf(v: Node) {
    |v.children| == 0
  }

  /** The arena invariant: children and derivatives are aligned, and every
      child was created before its parent. */
  predicate WellFormed(nodes: seq<Node>) {
    forall k :: 0 <= k < |nodes| ==>
      |nodes[k].children| == |nodes[k].ders| &&
      forall j :: 0 <= j < |nodes[k].children| ==> nodes[k].children[j] < k
  }

  /** Two arenas that differ at most in their gradients. */
  predicate SameShape(a: seq<Node>, b: seq<Node>) {
    |a| == |b| &&
    forall k :: 0 <= k < |a| ==>
      a[k].value == b[k].value && a[k].children == b[k].children && a[k].ders == b[k].ders
  }

  lemma SameShapeWellFormed(a: seq<Node>, b: seq<Node>)
    requires WellFormed(a) && SameShape(a, b)
    ensures WellFormed(b)
  {
    forall k | 0 <= k < |b|
      ensures |b[k].children| == |b[k].ders|
      ensures forall j :: 0 <= j < |b[k].children| ==> b[k].children[j] < k
    {
      assert a[k].children == b[k].children && a[k].ders == b[k].ders;
    }
  }

  // ---------------------------------------------------------------------
  // What `_backward` does (the loop over the children and the recursion)
  // ---------------------------------------------------------------------

  /** One step of the loop in `_backward`: child `i` of node `n` gets
      `ders[i]` times `n`'s current gradient added to its gradient. */
  function PushInto(nodes: seq<Node>, n: nat, i: nat): (r: seq<Node>)
    requires WellFormed(nodes) && n < |nodes| && i < |nodes[n].children|
    ensures SameShape(nodes, r) && WellFormed(r)
    ensures r[nodes[n].children[i]].grad == nodes[nodes[n].children[i]].grad + nodes[n].ders[i] * nodes[n].grad
    ensures forall k :: 0 <= k < |nodes| && k != nodes[n].children[i] ==> r[k] == nodes[k]
  {
    var c := nodes[n].children[i];
    var r := nodes[c := nodes[c].(grad := nodes[c].grad + nodes[n].ders[i] * nodes[n].grad)];
    assert SameShape(nodes, r);
    SameShapeWellFormed(nodes, r);
    r
  }

  /** The arena after node `n` has pushed its gradient into its children
      `i`, `i+1`, ... in order: push into child `c = children[i]`, let `c`
      descend, then go on with the next child. What is pushed is `n`'s
      current (running) gradient, not what it gained since an earlier
      visit. */
  function DescendFrom(nodes: seq<Node>, n: nat, i: nat): (r: seq<Node>)
    requires WellFormed(nodes) && n < |nodes| && i <= |nodes[n].children|
    ensures SameShape(nodes, r) && WellFormed(r)
    ensures forall k :: n <= k < |nodes| ==> r[k] == nodes[k]
    decreases n, |nodes[n].children| - i
  {
    if i == |nodes[n].children| then nodes
    else
      var below := DescendFrom(PushInto(nodes, n, i), nodes[n].children[i], 0);
      var r := DescendFrom(below, n, i + 1);
      SameShapeWellFormed(nodes, r);
      r
  }

  /** Children `i`, ... of `n`: once child `i` has been pushed into and
      has descended, what is left is children `i+1`, ...; `n` itself is
      untouched. */
  lemma NextChild(before: seq<Node>, after: seq<Node>, n: nat, i: nat)
    requires WellFormed(before) && n < |before| && i < |before[n].children|
    requires after == DescendFrom(PushInto(before, n, i), before[n].children[i], 0)
    ensures WellFormed(after) && |after| == |before| && after[n] == before[n]
    ensures DescendFrom(after, n, i + 1) == DescendFrom(before, n, i)
  {
  }

  /** The first step of `VarData::backward`: the root's gradient is
      overwritten with 1. */
  function Seed(nodes: seq<Node>, root: nat): (r: seq<Node>)
    requires WellFormed(nodes) && root < |nodes|
    ensures SameShape(nodes, r) && WellFormed(r)
    ensures r[root].grad == 1.0
    ensures forall k :: 0 <= k < |nodes| && k != root ==> r[k] == nodes[k]
  {
    var r := nodes[root := nodes[root].(grad := 1.0)];
    assert SameShape(nodes, r);
    SameShapeWellFormed(nodes, r);
    r
  }

  /** What `VarData::backward` does: seed the root, then descend from it. */
  function BackwardSpec(nodes: seq<Node>, root: nat): (r: seq<Node>)
    requires WellFormed(nodes) && root < |nodes|
    ensures SameShape(nodes, r) && WellFormed(r)
    ensures r[root].grad == 1.0
    ensures forall k :: root < k < |nodes| ==> r[k] == nodes[k]
  {
    DescendFrom(Seed(nodes, root), root, 0)
  }

  // ---------------------------------------------------------------------
  // The nodes the operators build
  // ---------------------------------------------------------------------

  /** The four arithmetic operators. */
  datatype Arith = Plus | Minus | Times | Over

  /** The value an operator computes from its operand values. */
  function Apply(op: Arith, u: real, v: real): real
    requires op == Over ==> v != 0.0
  {
    match op
    case Plus => u + v
    case Minus => u - v
    case Times => u * v
    case Over => u / v
  }

  /** The local derivatives an operator records: with respect to its left
      and its right operand. */
  function Partials(op: Arith, u: real, v: real): (real, real)
    requires op == Over ==> v != 0.0
  {
    match op
    case Plus => (1.0, 1.0)
    case Minus => (1.0, -1.0)
    case Times => (v, u)
    case Over => (1.0 / v, -u / (v * v))
  }

  /** The recorded left partial is the exact slope of the value in the left
      operand: every operator is affine in it. */
  lemma LeftPartialExact(op: Arith, u: real, v: real, h: real)
    requires op == Over ==> v != 0.0
    ensures Apply(op, u + h, v) == Apply(op, u, v) + Partials(op, u, v).0 * h
  {
    if op == Over {
      calc {
        (u + h) / v;
        u / v + h / v;
        u / v + (1.0 / v) * h;
      }
    }
  }

  /** For `+`, `-` and `*` the recorded right partial is the exact slope
      of the value in the right operand as well. */
  lemma RightPartialExact(op: Arith, u: real, v: real, h: real)
    requires op != Over
    ensures Apply(op, u, v + h) == Apply(op, u, v) + Partials(op, u, v).1 * h
  {
  }

  /** The node `a op b` builds for two `Var`s. */
  function BinaryNode(nodes: seq<Node>, op: Arith, a: nat, b: nat): Node
    requires a < |nodes| && b < |nodes|
    requires op == Over ==> nodes[b].value != 0.0
  {
    var p := Partials(op, nodes[a].value, nodes[b].value);
    Node(Apply(op, nodes[a].value, nodes[b].value), 0.0, [a, b], [p.0, p.1])
  }

  /** The node `a op s` builds for a `Var` and a scalar: the scalar is not a
      node, so only the left partial is recorded. */
  function ScalarNode(nodes: seq<Node>, op: Arith, a: nat, s: real): Node
    requires a < |nodes|
    requires op == Over ==> s != 0.0
  {
    Node(Apply(op, nodes[a].value, s), 0.0, [a], [Partials(op, nodes[a].value, s).0])
  }

  /** The node `exp(a)` builds; `exp` is the host's exponential. */
  function ExpNode(nodes: seq<Node>, a: nat, exp: real -> real): Node
    requires a < |nodes|
  {
    Node(exp(nodes[a].value), 0.0, [a], [exp(nodes[a].value)])
  }

  /** The node `log(a)` builds; `ln` is the host's natural logarithm. */
  function LogNode(nodes: seq<Node>, a: nat, ln: real -> real): Node
    requires a < |nodes| && nodes[a].value != 0.0
  {
    Node(ln(nodes[a].value), 0.0, [a], [1.0 / nodes[a].value])
  }

  /** The node `sqrt(a)` builds; `root` is the host's square root. */
  function SqrtNode(nodes: seq<Node>, a: nat, root: real -> real): Node
    requires a < |nodes| && root(nodes[a].value) != 0.0
  {
    Node(root(nodes[a].value), 0.0, [a], [1.0 / (2.0 * root(nodes[a].value))])
  }

  /** Appending a node whose operands already exist and whose lists are
      aligned keeps the arena invariant. */
  lemma AppendWellFormed(nodes: seq<Node>, v: Node)
    requires WellFormed(nodes)
    requires |v.children| == |v.ders|
    requires forall j :: 0 <= j < |v.children| ==> v.children[j] < |nodes|
    ensures WellFormed(nodes + [v])
  {
    var r := nodes + [v];
    forall k | 0 <= k < |r|
      ensures |r[k].children| == |r[k].ders|
      ensures forall j :: 0 <= j < |r[k].children| ==> r[k].children[j] < k
    {
      if k < |nodes| { assert r[k] == nodes[k]; }
    }
  }
}
