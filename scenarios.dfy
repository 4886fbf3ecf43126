/**
  The library's own usage scenarios, restated: each builds a graph through
  the operators, runs `backward` and returns the values and gradients the
  scenario reads back.
 */
module Scenarios {
  import opened VarData
  import opened Gradient
  import opened Autodiff

  /** The backward pass from an operator node over two distinct fresh
      leaves gives each leaf the node's local derivative for it. */
  lemma TwoLeafBackward(a: real, b: real, v: real, d0: real, d1: real)
    ensures BackwardSpec([Node(a, 0.0, [], []), Node(b, 0.0, [], []), Node(v, 0.0, [0, 1], [d0, d1])], 2)[0].grad == d0
    ensures BackwardSpec([Node(a, 0.0, [], []), Node(b, 0.0, [], []), Node(v, 0.0, [0, 1], [d0, d1])], 2)[1].grad == d1
  {
    var s := [Node(a, 0.0, [], []), Node(b, 0.0, [], []), Node(v, 0.0, [0, 1], [d0, d1])];
    assert WellFormed(s);
    forall x | 0 <= x < |s| && !IsLeaf(s[x])
      ensures Paths(s, 2, x) <= 1
    {
      assert x == 2;
    }
    BackwardChainRule(s, 2);
    assert Contrib(s, 0, 1) == 0.0 && Contrib(s, 1, 0) == 0.0;
    assert ContribFrom(s, 2, 1, 0) == d1 * Contrib(s, 1, 0) + ContribFrom(s, 2, 2, 0);
    assert ContribFrom(s, 2, 0, 1) == d0 * Contrib(s, 0, 1) + ContribFrom(s, 2, 1, 1);
    assert Contrib(s, 2, 0) == ContribFrom(s, 2, 0, 0) == d0 * Contrib(s, 0, 0) + ContribFrom(s, 2, 1, 0);
    assert ContribFrom(s, 2, 1, 1) == d1 * Contrib(s, 1, 1) + ContribFrom(s, 2, 2, 1);
    assert Contrib(s, 2, 1) == ContribFrom(s, 2, 0, 1);
  }

  /** The backward pass from a one-operand node over a fresh leaf gives the
      leaf the node's local derivative. */
  lemma OneLeafBackward(a: real, v: real, d: real)
    ensures BackwardSpec([Node(a, 0.0, [], []), Node(v, 0.0, [0], [d])], 1)[0].grad == d
  {
    var s := [Node(a, 0.0, [], []), Node(v, 0.0, [0], [d])];
    assert WellFormed(s);
    forall x | 0 <= x < |s| && !IsLeaf(s[x])
      ensures Paths(s, 1, x) <= 1
    {
      assert x == 1;
    }
    BackwardChainRule(s, 1);
    assert ContribFrom(s, 1, 0, 0) == d * Contrib(s, 0, 0) + ContribFrom(s, 1, 1, 0);
  }

  /** `x + y` with `x = 2`, `y = 3`. */
  method Addition() returns (zValue: real, xGrad: real, yGrad: real)
    ensures zValue == 5.0 && xGrad == 1.0 && yGrad == 1.0
  {
    var g := new Graph();
    var x := g.NewVar(2.0);
    var y := g.NewVar(3.0);
    var z := g.Add(x, y);
    zValue := g.Value(z);
    assert g.nodes == [Node(2.0, 0.0, [], []), Node(3.0, 0.0, [], []), Node(5.0, 0.0, [0, 1], [1.0, 1.0])];
    TwoLeafBackward(2.0, 3.0, 5.0, 1.0, 1.0);
    g.Backward(z);
    xGrad, yGrad := g.Grad(x), g.Grad(y);
  }

  /** `x - y` with `x = 2`, `y = 3`. */
  method Subtraction() returns (zValue: real, xGrad: real, yGrad: real)
    ensures zValue == -1.0 && xGrad == 1.0 && yGrad == -1.0
  {
    var g := new Graph();
    var x := g.NewVar(2.0);
    var y := g.NewVar(3.0);
    var z := g.Sub(x, y);
    zValue := g.Value(z);
    assert g.nodes == [Node(2.0, 0.0, [], []), Node(3.0, 0.0, [], []), Node(-1.0, 0.0, [0, 1], [1.0, -1.0])];
    TwoLeafBackward(2.0, 3.0, -1.0, 1.0, -1.0);
    g.Backward(z);
    xGrad, yGrad := g.Grad(x), g.Grad(y);
  }

  /** `x * y` with `x = 2`, `y = 3`. */
  method Multiplication() returns (zValue: real, xGrad: real, yGrad: real)
    ensures zValue == 6.0 && xGrad == 3.0 && yGrad == 2.0
  {
    var g := new Graph();
    var x := g.NewVar(2.0);
    var y := g.NewVar(3.0);
    var z := g.Mul(x, y);
    zValue := g.Value(z);
    assert g.nodes == [Node(2.0, 0.0, [], []), Node(3.0, 0.0, [], []), Node(6.0, 0.0, [0, 1], [3.0, 2.0])];
    TwoLeafBackward(2.0, 3.0, 6.0, 3.0, 2.0);
    g.Backward(z);
    xGrad, yGrad := g.Grad(x), g.Grad(y);
  }

  /** `x / y` with `x = 6`, `y = 3`. */
  method Division() returns (zValue: real, xGrad: real, yGrad: real)
    ensures zValue == 2.0 && xGrad == 1.0 / 3.0 && yGrad == -6.0 / 9.0
  {
    var g := new Graph();
    var x := g.NewVar(6.0);
    var y := g.NewVar(3.0);
    var r := g.Div(x, y);
    var z := r.value;
    zValue := g.Value(z);
    assert g.nodes == [Node(6.0, 0.0, [], []), Node(3.0, 0.0, [], []), Node(2.0, 0.0, [0, 1], [1.0 / 3.0, -6.0 / 9.0])];
    TwoLeafBackward(6.0, 3.0, 2.0, 1.0 / 3.0, -6.0 / 9.0);
    g.Backward(z);
    xGrad, yGrad := g.Grad(x), g.Grad(y);
  }

  /** `x / y` with `y = 0` is refused and builds nothing. */
  method DivisionByZeroRefused() returns (refused: bool, tapeSize: nat)
    ensures refused && tapeSize == 2
  {
    var g := new Graph();
    var x := g.NewVar(6.0);
    var y := g.NewVar(0.0);
    var r := g.Div(x, y);
    refused, tapeSize := r.Err?, |g.tape|;
  }

  /** `exp(x)` with `x = 2`. */
  method Exponential(exp: real -> real) returns (zValue: real, xGrad: real)
    ensures zValue == exp(2.0) && xGrad == exp(2.0)
  {
    var g := new Graph();
    var x := g.NewVar(2.0);
    var z := g.Exp(x, exp);
    zValue := g.Value(z);
    assert g.nodes == [Node(2.0, 0.0, [], []), Node(exp(2.0), 0.0, [0], [exp(2.0)])];
    OneLeafBackward(2.0, exp(2.0), exp(2.0));
    g.Backward(z);
    xGrad := g.Grad(x);
  }

  /** `log(x)` with `x = 2`. */
  method Logarithm(ln: real -> real) returns (zValue: real, xGrad: real)
    ensures zValue == ln(2.0) && xGrad == 1.0 / 2.0
  {
    var g := new Graph();
    var x := g.NewVar(2.0);
    var z := g.Log(x, ln);
    zValue := g.Value(z);
    assert g.nodes == [Node(2.0, 0.0, [], []), Node(ln(2.0), 0.0, [0], [1.0 / 2.0])];
    OneLeafBackward(2.0, ln(2.0), 1.0 / 2.0);
    g.Backward(z);
    xGrad := g.Grad(x);
  }

  /** `sqrt(x)` with `x = 4`, for a square root that gives 2 at 4. */
  method SquareRoot(root: real -> real) returns (zValue: real, xGrad: real)
    requires root(4.0) == 2.0
    ensures zValue == 2.0 && xGrad == 0.25
  {
    var g := new Graph();
    var x := g.NewVar(4.0);
    var z := g.Sqrt(x, root);
    zValue := g.Value(z);
    assert g.nodes == [Node(4.0, 0.0, [], []), Node(2.0, 0.0, [0], [0.25])];
    OneLeafBackward(4.0, 2.0, 0.25);
    g.Backward(z);
    xGrad := g.Grad(x);
  }

  /** The tape after `x + y` and `backward` holds the three registered
      nodes; clearing it empties it. */
  method Tape() returns (before: nat, after: nat)
    ensures before == 3 && after == 0
  {
    var g := new Graph();
    g.ClearTape();
    var x := g.NewVar(2.0);
    var y := g.NewVar(3.0);
    var z := g.Add(x, y);
    g.Backward(z);
    before := |g.tape|;
    g.ClearTape();
    after := |g.tape|;
  }

  /** A copy of `x` refers to `x`'s node: it registers nothing, and after
      `z = copy + y; z.backward()` the copy and `x` report the same
      gradient. */
  method CopyAliases() returns (tapeSize: nat, copyGrad: real, xGrad: real)
    ensures tapeSize == 3 && copyGrad == 1.0 && xGrad == 1.0
  {
    var g := new Graph();
    var x := g.NewVar(2.0);
    var copy := x;
    var y := g.NewVar(3.0);
    var z := g.Add(copy, y);
    assert g.nodes == [Node(2.0, 0.0, [], []), Node(3.0, 0.0, [], []), Node(5.0, 0.0, [0, 1], [1.0, 1.0])];
    TwoLeafBackward(2.0, 3.0, 5.0, 1.0, 1.0);
    g.Backward(z);
    tapeSize, copyGrad, xGrad := |g.tape|, g.Grad(copy), g.Grad(x);
  }

  // ---------------------------------------------------------------------
  // z = x + z + y, ten times
  // ---------------------------------------------------------------------

  /** The arena after `i` rounds of `z = x + z + y` from `x = 2`, `y = 3`,
      `z = 0`: `z` is the newest node, its value is `5 i`, its derivative
      with respect to each of `x` and `y` is `i`, nothing holds a gradient
      yet, and no node with operands is reached from `z` twice. */
  ghost predicate LoopState(s: seq<Node>, z: nat, i: nat) {
    WellFormed(s) && |s| == 3 + 2 * i && z == |s| - 1 &&
    s[0] == Node(2.0, 0.0, [], []) && s[1] == Node(3.0, 0.0, [], []) &&
    s[z].value == 5.0 * i as real &&
    (forall k :: 0 <= k < |s| ==> s[k].grad == 0.0) &&
    Contrib(s, z, 0) == i as real && Contrib(s, z, 1) == i as real &&
    forall k :: 0 <= k < |s| && !IsLeaf(s[k]) ==> Paths(s, z, k) <= 1
  }

  /** The arena after one more round: `t = x + z`, then `t + y`. */
  function LoopRound(s: seq<Node>, z: nat): seq<Node>
    requires 1 < |s| && z < |s|
  {
    var s1 := s + [BinaryNode(s, Plus, 0, z)];
    s1 + [BinaryNode(s1, Plus, |s|, 1)]
  }

  /** The two nodes a round adds. */
  lemma LoopRoundShape(s: seq<Node>, z: nat)
    requires 1 < |s| && z < |s|
    ensures |LoopRound(s, z)| == |s| + 2
    ensures LoopRound(s, z)[..|s|] == s
    ensures LoopRound(s, z)[|s|] == Node(s[0].value + s[z].value, 0.0, [0, z], [1.0, 1.0])
    ensures LoopRound(s, z)[|s| + 1] == Node(s[0].value + s[z].value + s[1].value, 0.0, [|s|, 1], [1.0, 1.0])
  {
  }

  /** A node with operands reached from the new `z` is reached once. */
  lemma LoopRoundPaths(s: seq<Node>, z: nat, i: nat, k: nat)
    requires LoopState(s, z, i)
    requires WellFormed(LoopRound(s, z))
    requires k < |s| + 2 && !IsLeaf(LoopRound(s, z)[k])
    ensures Paths(LoopRound(s, z), z + 2, k) <= 1
  {
    var s2 := LoopRound(s, z);
    LoopRoundShape(s, z);
    assert s2[0] == s[0] && s2[1] == s[1];
    assert k != 0 && k != 1;
    assert Paths(s2, 1, k) == 0 by { assert PathsFrom(s2, 1, 0, k) == 0; }
    assert Paths(s2, 0, k) == 0 by { assert PathsFrom(s2, 0, 0, k) == 0; }
    if k < z + 2 {
      assert PathsFrom(s2, z + 2, 1, k) == Paths(s2, 1, k) + PathsFrom(s2, z + 2, 2, k);
      assert Paths(s2, z + 2, k) == Paths(s2, z + 1, k) + PathsFrom(s2, z + 2, 1, k);
    }
    if k < z + 1 {
      assert PathsFrom(s2, z + 1, 1, k) == Paths(s2, z, k) + PathsFrom(s2, z + 1, 2, k);
      assert Paths(s2, z + 1, k) == Paths(s2, 0, k) + PathsFrom(s2, z + 1, 1, k);
      assert AgreeUpTo(s, s2, z);
      Agree(s, s2, z, k);
      assert s2[k] == s[k];
    }
  }

  /** The new `z`'s derivatives with respect to `x` and `y` grow by one. */
  lemma LoopRoundContrib(s: seq<Node>, z: nat, i: nat, x: nat)
    requires LoopState(s, z, i)
    requires WellFormed(LoopRound(s, z))
    requires x == 0 || x == 1
    ensures Contrib(LoopRound(s, z), z + 2, x) == Contrib(s, z, x) + 1.0
  {
    var s2 := LoopRound(s, z);
    LoopRoundShape(s, z);
    assert s2[0] == s[0] && s2[1] == s[1];
    assert AgreeUpTo(s, s2, z);
    Agree(s, s2, z, x);
    assert Contrib(s2, 1, 0) == 0.0 by { assert ContribFrom(s2, 1, 0, 0) == 0.0; }
    assert Contrib(s2, 0, 1) == 0.0 by { assert ContribFrom(s2, 0, 0, 1) == 0.0; }
    assert ContribFrom(s2, z + 1, 1, x) == 1.0 * Contrib(s2, z, x) + ContribFrom(s2, z + 1, 2, x);
    assert Contrib(s2, z + 1, x) == 1.0 * Contrib(s2, 0, x) + ContribFrom(s2, z + 1, 1, x);
    assert ContribFrom(s2, z + 2, 1, x) == 1.0 * Contrib(s2, 1, x) + ContribFrom(s2, z + 2, 2, x);
    assert Contrib(s2, z + 2, x) == 1.0 * Contrib(s2, z + 1, x) + ContribFrom(s2, z + 2, 1, x);
  }

  /** One round keeps `LoopState`, one round further. */
  lemma LoopRoundState(s: seq<Node>, z: nat, i: nat)
    requires LoopState(s, z, i)
    ensures LoopState(LoopRound(s, z), z + 2, i + 1)
  {
    var s1 := s + [BinaryNode(s, Plus, 0, z)];
    var s2 := LoopRound(s, z);
    AppendWellFormed(s, BinaryNode(s, Plus, 0, z));
    AppendWellFormed(s1, BinaryNode(s1, Plus, |s|, 1));
    LoopRoundShape(s, z);
    LoopRoundContrib(s, z, i, 0);
    LoopRoundContrib(s, z, i, 1);
    forall k | 0 <= k < |s2| && !IsLeaf(s2[k])
      ensures Paths(s2, z + 2, k) <= 1
    {
      LoopRoundPaths(s, z, i, k);
    }
    forall k | 0 <= k < |s2|
      ensures s2[k].grad == 0.0
    {
      if k < |s| { assert s2[k] == s[k]; }
    }
  }

  /** `z = x + z + y` ten times from `x = 2`, `y = 3`, `z = 0`. Every
      round reuses `x` and `y`, so they are reached along ten paths each,
      but each node with operands is reached once. */
  method Loop() returns (zValue: real, xGrad: real, yGrad: real)
    ensures zValue == 50.0 && xGrad == 10.0 && yGrad == 10.0
  {
    var g := new Graph();
    var x := g.NewVar(2.0);
    var y := g.NewVar(3.0);
    var z := g.NewVar(0.0);
    assert Contrib(g.nodes, 2, 0) == 0.0 by { assert ContribFrom(g.nodes, 2, 0, 0) == 0.0; }
    assert Contrib(g.nodes, 2, 1) == 0.0 by { assert ContribFrom(g.nodes, 2, 0, 1) == 0.0; }
    for i := 0 to 10
      invariant g.Valid() && x == Var(0) && y == Var(1)
      invariant LoopState(g.nodes, z.node, i)
    {
      LoopRoundState(g.nodes, z.node, i);
      var t := g.Add(x, z);
      z := g.Add(t, y);
    }
    zValue := g.Value(z);
    ghost var built := g.nodes;
    BackwardChainRule(built, z.node);
    g.Backward(z);
    xGrad, yGrad := g.Grad(x), g.Grad(y);
  }

  // ---------------------------------------------------------------------
  // a = x + y; b = a * z; c = b / x; a = c - y
  // ---------------------------------------------------------------------

  /** A leaf reaches nothing but itself. */
  lemma LeafReachesNothing(s: seq<Node>, n: nat, x: nat)
    requires WellFormed(s) && n < |s| && IsLeaf(s[n]) && n != x
    ensures Paths(s, n, x) == 0 && Contrib(s, n, x) == 0.0
  {
  }

  /** The arena of the chained scenario: three default `Var`s, then
      `x = 4`, `y = 3`, `z = 2`, then the four operator nodes. */
  function Chained(): (r: seq<Node>)
    ensures WellFormed(r) && |r| == 10
  {
    [Node(0.0, 0.0, [], []), Node(0.0, 0.0, [], []), Node(0.0, 0.0, [], []),
     Node(4.0, 0.0, [], []), Node(3.0, 0.0, [], []), Node(2.0, 0.0, [], []),
     Node(7.0, 0.0, [3, 4], [1.0, 1.0]),
     Node(14.0, 0.0, [6, 5], [2.0, 7.0]),
     Node(3.5, 0.0, [7, 3], [1.0 / 4.0, -14.0 / 16.0]),
     Node(0.5, 0.0, [8, 4], [1.0, -1.0])]
  }

  /** Paths and derivatives through a node with two operands. */
  lemma BinaryStep(s: seq<Node>, n: nat, x: nat)
    requires WellFormed(s) && n < |s| && |s[n].children| == 2 && n != x
    ensures Paths(s, n, x) == Paths(s, s[n].children[0], x) + Paths(s, s[n].children[1], x)
    ensures Contrib(s, n, x) ==
      s[n].ders[0] * Contrib(s, s[n].children[0], x) + s[n].ders[1] * Contrib(s, s[n].children[1], x)
  {
    assert PathsFrom(s, n, 1, x) == Paths(s, s[n].children[1], x) + PathsFrom(s, n, 2, x);
    assert ContribFrom(s, n, 1, x) == s[n].ders[1] * Contrib(s, s[n].children[1], x) + ContribFrom(s, n, 2, x);
  }

  /** Every node with operands is reached once from the last node. */
  lemma ChainedPaths(s: seq<Node>, k: nat)
    requires s == Chained() && k < 10 && !IsLeaf(s[k])
    ensures Paths(s, 9, k) <= 1
  {
    assert 6 <= k;
    LeafReachesNothing(s, 3, k);
    LeafReachesNothing(s, 4, k);
    LeafReachesNothing(s, 5, k);
    if k < 9 { BinaryStep(s, 9, k); }
    if k < 8 { BinaryStep(s, 8, k); }
    if k < 7 { BinaryStep(s, 7, k); }
  }

  /** The chain-rule derivative of the last node with respect to `x`. */
  lemma ChainedContribX(s: seq<Node>)
    requires s == Chained()
    ensures Contrib(s, 9, 3) == -0.375
  {
    LeafReachesNothing(s, 4, 3);
    LeafReachesNothing(s, 5, 3);
    BinaryStep(s, 6, 3);
    assert Contrib(s, 6, 3) == 1.0;
    BinaryStep(s, 7, 3);
    assert Contrib(s, 7, 3) == 2.0;
    BinaryStep(s, 8, 3);
    assert Contrib(s, 8, 3) == -0.375;
    BinaryStep(s, 9, 3);
  }

  /** The chain-rule derivative of the last node with respect to `y`. */
  lemma ChainedContribY(s: seq<Node>)
    requires s == Chained()
    ensures Contrib(s, 9, 4) == -0.5
  {
    LeafReachesNothing(s, 3, 4);
    LeafReachesNothing(s, 5, 4);
    BinaryStep(s, 6, 4);
    assert Contrib(s, 6, 4) == 1.0;
    BinaryStep(s, 7, 4);
    assert Contrib(s, 7, 4) == 2.0;
    BinaryStep(s, 8, 4);
    assert Contrib(s, 8, 4) == 0.5;
    BinaryStep(s, 9, 4);
  }

  /** The chain-rule derivative of the last node with respect to `z`. */
  lemma ChainedContribZ(s: seq<Node>)
    requires s == Chained()
    ensures Contrib(s, 9, 5) == 1.75
  {
    LeafReachesNothing(s, 3, 5);
    LeafReachesNothing(s, 4, 5);
    BinaryStep(s, 6, 5);
    assert Contrib(s, 6, 5) == 0.0;
    BinaryStep(s, 7, 5);
    assert Contrib(s, 7, 5) == 7.0;
    BinaryStep(s, 8, 5);
    assert Contrib(s, 8, 5) == 1.75;
    BinaryStep(s, 9, 5);
  }

  /** The arena holds no gradient yet, and each node with operands is
      reached once from the last node. */
  lemma ChainedTree(s: seq<Node>)
    requires s == Chained()
    ensures forall k :: 0 <= k < |s| ==> s[k].grad == 0.0
    ensures forall k :: 0 <= k < |s| && !IsLeaf(s[k]) ==> Paths(s, 9, k) <= 1
  {
    forall k | 0 <= k < |s| && !IsLeaf(s[k])
      ensures Paths(s, 9, k) <= 1
    {
      ChainedPaths(s, k);
    }
  }

  /** `backward` from the last node gives `x`, `y` and `z` the chain-rule
      derivatives. */
  lemma ChainedBackward(s: seq<Node>)
    requires s == Chained()
    ensures BackwardSpec(s, 9)[3].grad == -0.375
    ensures BackwardSpec(s, 9)[4].grad == -0.5
    ensures BackwardSpec(s, 9)[5].grad == 1.75
  {
    ChainedTree(s);
    ChainedContribX(s);
    FreshBackward(s, 9, 3);
    ChainedContribY(s);
    FreshBackward(s, 9, 4);
    ChainedContribZ(s);
    FreshBackward(s, 9, 5);
  }

  /** `Var a, b, c; x = 4; y = 3; z = 2`: six registered leaves. */
  method ChainedLeaves() returns (g: Graph, a: Var, b: Var, c: Var, x: Var, y: Var, z: Var)
    ensures fresh(g) && g.Valid() && g.nodes == Chained()[..6]
    ensures g.tape == [0, 1, 2, 3, 4, 5]
    ensures x == Var(3) && y == Var(4) && z == Var(5)
  {
    g := new Graph();
    a := g.NewVar();
    b := g.NewVar();
    c := g.NewVar();
    x := g.NewVar(4.0);
    y := g.NewVar(3.0);
    z := g.NewVar(2.0);
  }

  /** Then `a = x + y; b = a * z; c = b / x; a = c - y`: builds the arena
      `Chained`. */
  method BuildChained() returns (g: Graph, a: Var, b: Var, c: Var, x: Var, y: Var, z: Var)
    ensures fresh(g) && g.Valid() && g.nodes == Chained()
    ensures a == Var(9) && b == Var(7) && c == Var(8)
    ensures x == Var(3) && y == Var(4) && z == Var(5)
  {
    g, a, b, c, x, y, z := ChainedLeaves();
    a := g.Add(x, y);
    assert g.nodes == Chained()[..7];
    b := g.Mul(a, z);
    assert b == Var(7);
    assert g.nodes == Chained()[..8];
    var q := g.Div(b, x);
    c := q.value;
    assert c == Var(8);
    assert g.nodes == Chained()[..9];
    a := g.Sub(c, y);
    assert a == Var(9);
    assert g.nodes == Chained()[..10];
  }

  /** The chained scenario: `x` reaches the result along two paths
      (through `a` and directly into `c`), and so does `y`; `backward`
      from the result still gives each the chain-rule derivative. */
  method ChainedSequence() returns (aValue: real, bValue: real, cValue: real,
                                    xGrad: real, yGrad: real, zGrad: real)
    ensures aValue == 0.5 && bValue == 14.0 && cValue == 3.5
    ensures xGrad == -0.375 && yGrad == -0.5 && zGrad == 1.75
  {
    var g, a, b, c, x, y, z := BuildChained();
    aValue, bValue, cValue := g.Value(a), g.Value(b), g.Value(c);
    ChainedBackward(g.nodes);
    g.Backward(a);
    xGrad, yGrad, zGrad := g.Grad(x), g.Grad(y), g.Grad(z);
  }
}
