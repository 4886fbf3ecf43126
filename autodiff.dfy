/**
  The `Var` front end and the tape: the in-place part of the engine.

  A `Graph` holds every `VarData` node ever created (`nodes`, by creation
  order) and the registration tape `tapeOfVars` (`tape`, the ids of the
  registered nodes). A `Var` is a handle on one node; copying or assigning
  a `Var` copies the handle, so the copy and the original read and write
  the same node.
 */
module Autodiff {
  import opened VarData

  /** Why an operator refused to build its node. */
  datatype Error = DivisionByZero

  datatype Result<T> = Ok(value: T) | Err(error: Error)

  /** A `Var`: a handle on the node with index `node`. */
  datatype Var = Var(node: nat)

  class Graph {
    /** Every node created so far, oldest first. */
    var nodes: seq<Node>
    /** `tapeOfVars`: the ids of the nodes registered since the last clear. */
    var tape: seq<nat>

    /** The arena is well formed, and the tape lists the most recently
        created nodes, in creation order. */
    ghost predicate Valid()
      reads this
    {
      WellFormed(nodes) &&
      |tape| <= |nodes| &&
      forall k :: 0 <= k < |tape| ==> tape[k] == |nodes| - |tape| + k
    }

    /** An empty graph with an empty tape. */
    constructor()
      ensures Valid() && nodes == [] && tape == []
    {
      nodes := [];
      tape := [];
    }

    /** `v` refers to a node of this graph. */
    predicate Holds(v: Var)
      reads this
    {
      v.node < |nodes|
    }

    /** `Var::value()`: the value of the node `v` refers to. */
    function Value(v: Var): real
      reads this
      requires Holds(v)
    {
      nodes[v.node].value
    }

    /** `Var::grad()`: the gradient of the node `v` refers to. */
    function Grad(v: Var): real
      reads this
      requires Holds(v)
    {
      nodes[v.node].grad
    }

    /** The constructor `Var(val, gr, ch, der)`: create a node and register
        it on the tape. Every argument defaults as in the C++ declaration, so
        `NewVar()` is `Var a;` and `NewVar(s)` is `Var(s)`. */
    method NewVar(val: real := 0.0, gr: real := 0.0, ch: seq<nat> := [], der: seq<real> := []) returns (v: Var)
      requires Valid()
      requires |ch| == |der| && forall j :: 0 <= j < |ch| ==> ch[j] < |nodes|
      modifies this
      ensures Valid()
      ensures nodes == old(nodes) + [Node(val, gr, ch, der)]
      ensures tape == old(tape) + [|old(nodes)|]
      ensures v == Var(|old(nodes)|)
    {
      AppendWellFormed(nodes, Node(val, gr, ch, der));
      v := Var(|nodes|);
      nodes := nodes + [Node(val, gr, ch, der)];
      tape := tape + [v.node];
    }

    /** `Var::clearTape`: forget the registrations; the nodes stay. */
    method ClearTape()
      requires Valid()
      modifies this
      ensures Valid()
      ensures tape == [] && nodes == old(nodes)
    {
      tape := [];
    }

    /** `createVar`: register a leaf holding `value`, push the operands into
        its child list one by one, then set its derivative list. */
    method CreateVar(value: real, children: seq<nat>, derivatives: seq<real>) returns (r: Var)
      requires Valid()
      requires |children| == |derivatives|
      requires forall j :: 0 <= j < |children| ==> children[j] < |nodes|
      modifies this
      ensures Valid()
      ensures nodes == old(nodes) + [Node(value, 0.0, children, derivatives)]
      ensures tape == old(tape) + [|old(nodes)|]
      ensures r == Var(|old(nodes)|)
    {
      r := NewVar(value);
      for j := 0 to |children|
        invariant |tape| <= |nodes| && forall k :: 0 <= k < |tape| ==> tape[k] == |nodes| - |tape| + k
        invariant nodes == old(nodes) + [Node(value, 0.0, children[..j], [])]
        invariant tape == old(tape) + [|old(nodes)|]
      {
        nodes := nodes[r.node := nodes[r.node].(children := nodes[r.node].children + [children[j]])];
        assert nodes[r.node].children == children[..j + 1];
      }
      nodes := nodes[r.node := nodes[r.node].(ders := derivatives)];
      assert children[..|children|] == children;
      AppendWellFormed(old(nodes), Node(value, 0.0, children, derivatives));
    }

    /** `a + b`. */
    method Add(a: Var, b: Var) returns (r: Var)
      requires Valid() && Holds(a) && Holds(b)
      modifies this
      ensures Valid()
      ensures nodes == old(nodes) + [BinaryNode(old(nodes), Plus, a.node, b.node)]
      ensures tape == old(tape) + [|old(nodes)|]
      ensures r == Var(|old(nodes)|)
    {
      r := CreateVar(Value(a) + Value(b), [a.node, b.node], [1.0, 1.0]);
    }

    /** `a + s` for a scalar `s`. */
    method AddScalar(a: Var, s: real) returns (r: Var)
      requires Valid() && Holds(a)
      modifies this
      ensures Valid()
      ensures nodes == old(nodes) + [ScalarNode(old(nodes), Plus, a.node, s)]
      ensures tape == old(tape) + [|old(nodes)|]
      ensures r == Var(|old(nodes)|)
    {
      r := CreateVar(Value(a) + s, [a.node], [1.0]);
    }

    /** `a * b`. */
    method Mul(a: Var, b: Var) returns (r: Var)
      requires Valid() && Holds(a) && Holds(b)
      modifies this
      ensures Valid()
      ensures nodes == old(nodes) + [BinaryNode(old(nodes), Times, a.node, b.node)]
      ensures tape == old(tape) + [|old(nodes)|]
      ensures r == Var(|old(nodes)|)
    {
      r := CreateVar(Value(a) * Value(b), [a.node, b.node], [Value(b), Value(a)]);
    }

    /** `a * s` for a scalar `s`. */
    method MulScalar(a: Var, s: real) returns (r: Var)
      requires Valid() && Holds(a)
      modifies this
      ensures Valid()
      ensures nodes == old(nodes) + [ScalarNode(old(nodes), Times, a.node, s)]
      ensures tape == old(tape) + [|old(nodes)|]
      ensures r == Var(|old(nodes)|)
    {
      assert ScalarNode(nodes, Times, a.node, s) == Node(Value(a) * s, 0.0, [a.node], [s]);
      r := CreateVar(Value(a) * s, [a.node], [s]);
    }

    /** `a - b`. */
    method Sub(a: Var, b: Var) returns (r: Var)
      requires Valid() && Holds(a) && Holds(b)
      modifies this
      ensures Valid()
      ensures nodes == old(nodes) + [BinaryNode(old(nodes), Minus, a.node, b.node)]
      ensures tape == old(tape) + [|old(nodes)|]
      ensures r == Var(|old(nodes)|)
    {
      r := CreateVar(Value(a) - Value(b), [a.node, b.node], [1.0, -1.0]);
    }

    /** `a - s` for a scalar `s`. */
    method SubScalar(a: Var, s: real) returns (r: Var)
      requires Valid() && Holds(a)
      modifies this
      ensures Valid()
      ensures nodes == old(nodes) + [ScalarNode(old(nodes), Minus, a.node, s)]
      ensures tape == old(tape) + [|old(nodes)|]
      ensures r == Var(|old(nodes)|)
    {
      r := CreateVar(Value(a) - s, [a.node], [1.0]);
    }

    /** `a / b`: refused, with nothing created, when `b`'s value is 0. */
    method Div(a: Var, b: Var) returns (r: Result<Var>)
      requires Valid() && Holds(a) && Holds(b)
      modifies this
      ensures Valid()
      ensures old(Value(b)) == 0.0 ==>
        r == Err(DivisionByZero) && nodes == old(nodes) && tape == old(tape)
      ensures old(Value(b)) != 0.0 ==>
        r == Ok(Var(|old(nodes)|)) &&
        nodes == old(nodes) + [BinaryNode(old(nodes), Over, a.node, b.node)] &&
        tape == old(tape) + [|old(nodes)|]
    {
      if Value(b) == 0.0 {
        return Err(DivisionByZero);
      }
      ghost var p := Partials(Over, Value(a), Value(b));
      assert p.0 == 1.0 / Value(b) && p.1 == -Value(a) / (Value(b) * Value(b));
      var q := CreateVar(Value(a) / Value(b), [a.node, b.node],
        [1.0 / Value(b), -Value(a) / (Value(b) * Value(b))]);
      r := Ok(q);
    }

    /** `a / s` for a scalar `s`: refused, with nothing created, when `s`
        is 0. */
    method DivScalar(a: Var, s: real) returns (r: Result<Var>)
      requires Valid() && Holds(a)
      modifies this
      ensures Valid()
      ensures s == 0.0 ==>
        r == Err(DivisionByZero) && nodes == old(nodes) && tape == old(tape)
      ensures s != 0.0 ==>
        r == Ok(Var(|old(nodes)|)) &&
        nodes == old(nodes) + [ScalarNode(old(nodes), Over, a.node, s)] &&
        tape == old(tape) + [|old(nodes)|]
    {
      if s == 0.0 {
        return Err(DivisionByZero);
      }
      var q := CreateVar(Value(a) / s, [a.node], [1.0 / s]);
      r := Ok(q);
    }

    /** `exp(a)`, with `exp` the host's exponential. */
    method Exp(a: Var, exp: real -> real) returns (r: Var)
      requires Valid() && Holds(a)
      modifies this
      ensures Valid()
      ensures nodes == old(nodes) + [ExpNode(old(nodes), a.node, exp)]
      ensures tape == old(tape) + [|old(nodes)|]
      ensures r == Var(|old(nodes)|)
    {
      r := CreateVar(exp(Value(a)), [a.node], [exp(Value(a))]);
    }

    /** `log(a)`, with `ln` the host's natural logarithm. */
    method Log(a: Var, ln: real -> real) returns (r: Var)
      requires Valid() && Holds(a) && Value(a) != 0.0
      modifies this
      ensures Valid()
      ensures nodes == old(nodes) + [LogNode(old(nodes), a.node, ln)]
      ensures tape == old(tape) + [|old(nodes)|]
      ensures r == Var(|old(nodes)|)
    {
      r := CreateVar(ln(Value(a)), [a.node], [1.0 / Value(a)]);
    }

    /** `sqrt(a)`, with `root` the host's square root. */
    method Sqrt(a: Var, root: real -> real) returns (r: Var)
      requires Valid() && Holds(a) && root(Value(a)) != 0.0
      modifies this
      ensures Valid()
      ensures nodes == old(nodes) + [SqrtNode(old(nodes), a.node, root)]
      ensures tape == old(tape) + [|old(nodes)|]
      ensures r == Var(|old(nodes)|)
    {
      r := CreateVar(root(Value(a)), [a.node], [1.0 / (2.0 * root(Value(a)))]);
    }

    /** `Var::backward` and `VarData::backward`: set the root's gradient to
        1, then push gradients down from it. */
    method Backward(v: Var)
      requires Valid() && Holds(v)
      modifies this
      ensures Valid()
      ensures nodes == BackwardSpec(old(nodes), v.node)
      ensures tape == old(tape)
    {
      nodes := nodes[v.node := nodes[v.node].(grad := 1.0)];
      assert nodes == Seed(old(nodes), v.node);
      Descend(v.node);
    }

    /** `VarData::_backward` on node `n`: for each child in order, push
        into it and let it descend. */
    method Descend(n: nat)
      requires Valid() && n < |nodes|
      modifies this
      ensures Valid()
      ensures nodes == DescendFrom(old(nodes), n, 0)
      ensures tape == old(tape)
      decreases n, 1
    {
      ghost var target := DescendFrom(nodes, n, 0);
      var i := 0;
      while i < |nodes[n].children|
        invariant Valid() && tape == old(tape)
        invariant n < |nodes| && nodes[n] == old(nodes)[n]
        invariant i <= |nodes[n].children|
        invariant DescendFrom(nodes, n, i) == target
        decreases |nodes[n].children| - i
      {
        ghost var before := nodes;
        VisitChild(n, i);
        NextChild(before, nodes, n, i);
        i := i + 1;
      }
    }

    /** One iteration of the loop in `_backward`: child `i` of `n` gets
        `ders[i]` times `n`'s current gradient added to its gradient, then
        descends. */
    method VisitChild(n: nat, i: nat)
      requires Valid() && n < |nodes| && i < |nodes[n].children|
      modifies this
      ensures Valid()
      ensures nodes == DescendFrom(PushInto(old(nodes), n, i), old(nodes)[n].children[i], 0)
      ensures tape == old(tape)
      decreases n, 0
    {
      var c := nodes[n].children[i];
      nodes := nodes[c := nodes[c].(grad := nodes[c].grad + nodes[n].ders[i] * nodes[n].grad)];
      assert nodes == PushInto(old(nodes), n, i);
      Descend(c);
    }
  }
}
