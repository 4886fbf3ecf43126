/**
  The backward pass the library evidently intends: each visit of a node
  passes down what the node gained on that visit, not its running
  gradient. With that change every node receives exactly the chain-rule
  derivative of the root, whether or not nodes with operands are shared,
  and on graphs where no such node is shared and those reached hold no
  gradient yet it agrees with what the library computes.
 */
module Propagate {
  import opened VarData
  import opened Gradient

  /** Add `d` to the gradient of node `c`. */
  function PushDelta(nodes: seq<Node>, c: nat, d: real): (r: seq<Node>)
    requires WellFormed(nodes) && c < |nodes|
    ensures SameShape(nodes, r) && WellFormed(r)
    ensures r[c].grad == nodes[c].grad + d
    ensures forall k :: 0 <= k < |nodes| && k != c ==> r[k] == nodes[k]
  {
    var r := nodes[c := nodes[c].(grad := nodes[c].grad + d)];
    assert SameShape(nodes, r);
    SameShapeWellFormed(nodes, r);
    r
  }

  /** Node `n`, having gained `delta`, passes `ders[i]` times `delta` to each of
      its children `i`, `i+1`, ... in order, and each child passes on in
      turn what it gained. */
  function PropagateFrom(nodes: seq<Node>, n: nat, i: nat, delta: real): (r: seq<Node>)
    requires WellFormed(nodes) && n < |nodes| && i <= |nodes[n].children|
    ensures SameShape(nodes, r) && WellFormed(r)
    ensures forall k :: n <= k < |nodes| ==> r[k] == nodes[k]
    decreases n, |nodes[n].children| - i
  {
    if i == |nodes[n].children| then nodes
    else
      var c := nodes[n].children[i];
      var pushed := PushDelta(nodes, c, Scaled(nodes[n].ders[i], delta));
      var below := PropagateFrom(pushed, c, 0, Scaled(nodes[n].ders[i], delta));
      var r := PropagateFrom(below, n, i + 1, delta);
      SameShapeWellFormed(nodes, r);
      r
  }

  /** The intended `backward`: seed the root with 1 and pass increments. */
  function IntendedBackward(nodes: seq<Node>, root: nat): (r: seq<Node>)
    requires WellFormed(nodes) && root < |nodes|
    ensures SameShape(nodes, r) && WellFormed(r)
    ensures r[root].grad == 1.0
  {
    PropagateFrom(Seed(nodes, root), root, 0, 1.0)
  }

  /** Propagating `delta` from children `i`, ... of `n` added to node `x`
      `delta` times the derivative of `n` with respect to `x` through those
      children. */
  ghost predicate PropagatedAt(s: seq<Node>, nodes: seq<Node>, n: nat, i: nat, delta: real, x: nat)
    requires WellFormed(s) && WellFormed(nodes) && SameShape(s, nodes)
    requires n < |s| && i <= |s[n].children| && x < |s|
  {
    PropagateFrom(nodes, n, i, delta)[x].grad == nodes[x].grad + Scaled(delta, ContribFrom(s, n, i, x))
  }

  /** What child `i` of `n` passed on, at one node `x` below `n`. */
  ghost predicate GainedFromChild(s: seq<Node>, nodes: seq<Node>, n: nat, i: nat, delta: real, x: nat)
    requires WellFormed(s) && WellFormed(nodes) && SameShape(s, nodes)
    requires n < |s| && i < |s[n].children| && x < |s|
  {
    PropagateFrom(PushDelta(nodes, s[n].children[i], Scaled(s[n].ders[i], delta)), s[n].children[i], 0,
      Scaled(s[n].ders[i], delta))[x].grad ==
      nodes[x].grad + Scaled(delta, s[n].ders[i] * Contrib(s, s[n].children[i], x))
  }

  /** Scaling by `a * b` is scaling by `b` after multiplying by `a`. */
  lemma ScaledRegroup(a: real, b: real, c: real)
    ensures Scaled(Scaled(a, b), c) == Scaled(b, a * c)
  {
    assert (a * b) * c == b * (a * c);
  }

  /** Child `i` of `n` passes on `ders[i] * delta` times its own
      derivatives, at one node `x` below `n`. */
  lemma FromChildAt(s: seq<Node>, nodes: seq<Node>, n: nat, i: nat, delta: real, x: nat)
    requires WellFormed(s) && WellFormed(nodes) && SameShape(s, nodes)
    requires n < |s| && i < |s[n].children| && x < n
    requires x < s[n].children[i] ==>
      PropagatedAt(s, PushDelta(nodes, s[n].children[i], Scaled(s[n].ders[i], delta)), s[n].children[i], 0,
        Scaled(s[n].ders[i], delta), x)
    ensures GainedFromChild(s, nodes, n, i, delta, x)
  {
    if x < s[n].children[i] {
      FromChildBelow(s, nodes, n, i, delta, x);
    } else if x == s[n].children[i] {
      ScaledRegroup(s[n].ders[i], delta, Contrib(s, x, x));
      assert Contrib(s, x, x) == 1.0;
    } else {
      FromChildAbove(s, nodes, n, i, delta, x);
    }
  }

  /** The case of `FromChildAt` where `x` lies below the child. */
  lemma FromChildBelow(s: seq<Node>, nodes: seq<Node>, n: nat, i: nat, delta: real, x: nat)
    requires WellFormed(s) && WellFormed(nodes) && SameShape(s, nodes)
    requires n < |s| && i < |s[n].children| && x < s[n].children[i]
    requires PropagatedAt(s, PushDelta(nodes, s[n].children[i], Scaled(s[n].ders[i], delta)), s[n].children[i], 0,
        Scaled(s[n].ders[i], delta), x)
    ensures GainedFromChild(s, nodes, n, i, delta, x)
  {
    ScaledRegroup(s[n].ders[i], delta, Contrib(s, s[n].children[i], x));
    assert Contrib(s, s[n].children[i], x) == ContribFrom(s, s[n].children[i], 0, x);
    assert PushDelta(nodes, s[n].children[i], Scaled(s[n].ders[i], delta))[x] == nodes[x];
  }

  /** The case of `FromChildAt` where `x` lies above the child: nothing
      reaches it. */
  lemma FromChildAbove(s: seq<Node>, nodes: seq<Node>, n: nat, i: nat, delta: real, x: nat)
    requires WellFormed(s) && WellFormed(nodes) && SameShape(s, nodes)
    requires n < |s| && i < |s[n].children| && s[n].children[i] < x < n
    ensures GainedFromChild(s, nodes, n, i, delta, x)
  {
    NoPathUp(s, s[n].children[i], x);
    assert Scaled(delta, s[n].ders[i] * 0.0) == 0.0;
    assert PushDelta(nodes, s[n].children[i], Scaled(s[n].ders[i], delta))[x] == nodes[x];
  }

  /** Children `i`, ... of `n`: what child `i` passed on plus what the
      others pass on. */
  lemma CombineFromChild(s: seq<Node>, nodes: seq<Node>, n: nat, i: nat, delta: real, x: nat)
    requires WellFormed(s) && WellFormed(nodes) && SameShape(s, nodes)
    requires n < |s| && i < |s[n].children| && x < n
    requires GainedFromChild(s, nodes, n, i, delta, x)
    requires PropagatedAt(s,
      PropagateFrom(PushDelta(nodes, s[n].children[i], Scaled(s[n].ders[i], delta)), s[n].children[i], 0,
        Scaled(s[n].ders[i], delta)), n, i + 1, delta, x)
    ensures PropagatedAt(s, nodes, n, i, delta, x)
  {
    assert s[n].children == nodes[n].children && s[n].ders == nodes[n].ders;
    assert PropagateFrom(nodes, n, i, delta) ==
      PropagateFrom(PropagateFrom(PushDelta(nodes, s[n].children[i], Scaled(s[n].ders[i], delta)), s[n].children[i], 0,
        Scaled(s[n].ders[i], delta)), n, i + 1, delta);
    TwoSteps(nodes[x].grad,
      PropagateFrom(PushDelta(nodes, s[n].children[i], Scaled(s[n].ders[i], delta)), s[n].children[i], 0,
        Scaled(s[n].ders[i], delta))[x].grad,
      PropagateFrom(nodes, n, i, delta)[x].grad, delta,
      s[n].ders[i] * Contrib(s, s[n].children[i], x), ContribFrom(s, n, i + 1, x));
  }

  /** Passing increments from children `i`, ... of `n` adds to every node
      below `n` exactly `delta` times the chain-rule derivative of `n`
      through those children, with no condition on sharing. */
  lemma {:induction false} PropagateChainRule(s: seq<Node>, nodes: seq<Node>, n: nat, i: nat, delta: real)
    requires WellFormed(s) && WellFormed(nodes) && SameShape(s, nodes)
    requires n < |s| && i <= |s[n].children|
    ensures forall x :: 0 <= x < n ==> PropagatedAt(s, nodes, n, i, delta, x)
    decreases n, |s[n].children| - i
  {
    if i < |s[n].children| {
      var c := s[n].children[i];
      var d := Scaled(s[n].ders[i], delta);
      var pushed := PushDelta(nodes, c, d);
      PropagateChainRule(s, pushed, c, 0, d);
      var below := PropagateFrom(pushed, c, 0, d);
      PropagateChainRule(s, below, n, i + 1, delta);
      forall x | 0 <= x < n
        ensures PropagatedAt(s, nodes, n, i, delta, x)
      {
        FromChildAt(s, nodes, n, i, delta, x);
        CombineFromChild(s, nodes, n, i, delta, x);
      }
    } else {
      forall x | 0 <= x < n
        ensures PropagatedAt(s, nodes, n, i, delta, x)
      {
        assert Scaled(delta, 0.0) == 0.0;
      }
    }
  }

  /** The intended `backward` adds to every node other than the root the
      derivative of the root with respect to it, for every graph. */
  lemma IntendedChainRule(nodes: seq<Node>, root: nat)
    requires WellFormed(nodes) && root < |nodes|
    ensures forall x :: 0 <= x < |nodes| && x != root ==>
      IntendedBackward(nodes, root)[x].grad == nodes[x].grad + Contrib(nodes, root, x)
  {
    var seeded := Seed(nodes, root);
    PropagateChainRule(nodes, seeded, root, 0, 1.0);
    forall x | 0 <= x < |nodes| && x != root
      ensures IntendedBackward(nodes, root)[x].grad == nodes[x].grad + Contrib(nodes, root, x)
    {
      if x < root {
        assert PropagatedAt(nodes, seeded, root, 0, 1.0, x);
        assert seeded[x] == nodes[x];
      } else {
        NoPathUp(nodes, root, x);
        assert seeded[x] == nodes[x];
      }
    }
  }

  /** On `u = s + s` the intended pass gives `x` the derivative 2, where
      the library gives 3. */
  lemma IntendedOnSharedSum()
    ensures IntendedBackward(SharedSum(), 3)[0].grad == 2.0
    ensures BackwardSpec(SharedSum(), 3)[0].grad == 3.0
  {
    IntendedChainRule(SharedSum(), 3);
    SharedSumDerivative(SharedSum());
    SharedInnerOvercounts();
  }

  /** Where no node with operands is reached twice from the root and the
      reached ones hold no gradient, the library's pass and the intended
      one leave the same gradient in every node. */
  lemma LibraryMatchesIntendedOnTrees(nodes: seq<Node>, root: nat)
    requires WellFormed(nodes) && root < |nodes|
    requires forall x :: 0 <= x < |nodes| && !IsLeaf(nodes[x]) ==> Paths(nodes, root, x) <= 1
    requires forall x :: 0 <= x < |nodes| && x != root && !IsLeaf(nodes[x]) && Paths(nodes, root, x) > 0 ==>
      nodes[x].grad == 0.0
    ensures forall x :: 0 <= x < |nodes| ==>
      BackwardSpec(nodes, root)[x].grad == IntendedBackward(nodes, root)[x].grad
  {
    BackwardChainRule(nodes, root);
    IntendedChainRule(nodes, root);
  }
}
