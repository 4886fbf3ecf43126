/**
  What the backward pass computes, compared with the chain rule.

  `Contrib(s, n, x)` is the derivative of node `n`'s value with respect to
  node `x`'s value as the recorded local derivatives give it: the sum, over
  every path from `n` down to `x`, of the product of the derivatives along
  the path. `Paths(s, n, x)` counts those paths.

  The backward pass pushes a child's running gradient each time the child
  is reached, so a node with operands that is reached along two paths
  pushes its gradient twice, and one that already held a gradient pushes
  that too. The chain rule is therefore proved under the condition that
  every node with operands is reached along at most one path from the root
  (leaves may be shared) and those reached hold no gradient yet;
  `SharedInnerOvercounts` and `StaleGradientRepushed` show what happens
  without either half.
 */
module Gradient {
  import opened VarData

  // ---------------------------------------------------------------------
  // Path counts and path sums
  // ---------------------------------------------------------------------

  /** The number of paths from `n` down to `x`. */
  function Paths(s: seq<Node>, n: nat, x: nat): nat
    requires WellFormed(s) && n < |s|
    decreases n, 1, 0
  {
    if n == x then 1 else PathsFrom(s, n, 0, x)
  }

  /** The number of paths from `n` down to `x` whose first edge is one of
      `n`'s children `i`, `i+1`, ... */
  function PathsFrom(s: seq<Node>, n: nat, i: nat, x: nat): nat
    requires WellFormed(s) && n < |s| && i <= |s[n].children|
    decreases n, 0, |s[n].children| - i
  {
    if i == |s[n].children| then 0
    else Paths(s, s[n].children[i], x) + PathsFrom(s, n, i + 1, x)
  }

  /** The chain-rule derivative of `n`'s value with respect to `x`'s value. */
  function Contrib(s: seq<Node>, n: nat, x: nat): real
    requires WellFormed(s) && n < |s|
    decreases n, 1, 0
  {
    if n == x then 1.0 else ContribFrom(s, n, 0, x)
  }

  /** The part of `Contrib(s, n, x)` that flows through children `i`,
      `i+1`, ... of `n`. */
  function ContribFrom(s: seq<Node>, n: nat, i: nat, x: nat): real
    requires WellFormed(s) && n < |s| && i <= |s[n].children|
    decreases n, 0, |s[n].children| - i
  {
    if i == |s[n].children| then 0.0
    else s[n].ders[i] * Contrib(s, s[n].children[i], x) + ContribFrom(s, n, i + 1, x)
  }

  /** No path leads from a node to one created after it. */
  lemma {:induction false} NoPathUpFrom(s: seq<Node>, n: nat, i: nat, x: nat)
    requires WellFormed(s) && n < |s| && i <= |s[n].children|
    requires n <= x
    ensures PathsFrom(s, n, i, x) == 0
    ensures ContribFrom(s, n, i, x) == 0.0
    decreases n, |s[n].children| - i
  {
    if i < |s[n].children| {
      var c := s[n].children[i];
      NoPathUpFrom(s, c, 0, x);
      NoPathUpFrom(s, n, i + 1, x);
    }
  }

  /** A node does not depend on any node created after it. */
  lemma NoPathUp(s: seq<Node>, n: nat, x: nat)
    requires WellFormed(s) && n < |s| && n < x
    ensures Paths(s, n, x) == 0
    ensures Contrib(s, n, x) == 0.0
  {
    NoPathUpFrom(s, n, 0, x);
  }

  /** Where there is no path there is no derivative. */
  lemma {:induction false} NoPathNoContrib(s: seq<Node>, n: nat, i: nat, x: nat)
    requires WellFormed(s) && n < |s| && i <= |s[n].children|
    requires PathsFrom(s, n, i, x) == 0
    ensures ContribFrom(s, n, i, x) == 0.0
    decreases n, |s[n].children| - i
  {
    if i < |s[n].children| {
      var c := s[n].children[i];
      assert Paths(s, c, x) == 0 && PathsFrom(s, n, i + 1, x) == 0;
      NoPathNoContrib(s, c, 0, x);
      NoPathNoContrib(s, n, i + 1, x);
    }
  }

  /** Path counts and path sums below `n` depend only on the children and
      derivatives of the nodes up to `n`. */
  predicate AgreeUpTo(s: seq<Node>, t: seq<Node>, n: nat) {
    n < |s| && n < |t| &&
    forall k :: 0 <= k <= n ==> s[k].children == t[k].children && s[k].ders == t[k].ders
  }

  lemma {:induction false} AgreeFrom(s: seq<Node>, t: seq<Node>, n: nat, i: nat, x: nat)
    requires WellFormed(s) && WellFormed(t) && AgreeUpTo(s, t, n) && i <= |s[n].children|
    ensures PathsFrom(s, n, i, x) == PathsFrom(t, n, i, x)
    ensures ContribFrom(s, n, i, x) == ContribFrom(t, n, i, x)
    decreases n, |s[n].children| - i
  {
    if i < |s[n].children| {
      var c := s[n].children[i];
      assert AgreeUpTo(s, t, c);
      AgreeFrom(s, t, c, 0, x);
      AgreeFrom(s, t, n, i + 1, x);
    }
  }

  lemma Agree(s: seq<Node>, t: seq<Node>, n: nat, x: nat)
    requires WellFormed(s) && WellFormed(t) && AgreeUpTo(s, t, n)
    ensures Paths(s, n, x) == Paths(t, n, x)
    ensures Contrib(s, n, x) == Contrib(t, n, x)
  {
    AgreeFrom(s, t, n, 0, x);
  }

  // ---------------------------------------------------------------------
  // Nodes the descent does not reach
  // ---------------------------------------------------------------------

  // The lemmas below take, besides the arena `nodes` the descent works on,
  // an arena `s` of the same shape in which paths are counted and summed:
  // the descent changes gradients only, so the same `s` serves every step.

  /** Descending into children `i`, ... of `n` changes the gradient of no
      node that has no path from those children. */
  lemma {:induction false} DescendUnreachable(s: seq<Node>, nodes: seq<Node>, n: nat, i: nat, x: nat)
    requires WellFormed(s) && WellFormed(nodes) && SameShape(s, nodes)
    requires n < |s| && i <= |s[n].children| && x < |s|
    requires PathsFrom(s, n, i, x) == 0
    ensures DescendFrom(nodes, n, i)[x].grad == nodes[x].grad
    decreases n, |s[n].children| - i
  {
    if i < |s[n].children| {
      var c := s[n].children[i];
      assert Paths(s, c, x) == 0 && PathsFrom(s, n, i + 1, x) == 0;
      var pushed := PushInto(nodes, n, i);
      DescendUnreachable(s, pushed, c, 0, x);
      var below := DescendFrom(pushed, c, 0);
      DescendUnreachable(s, below, n, i + 1, x);
    }
  }

  /** `backward` leaves the gradient of every node the root does not reach
      as it was. */
  lemma BackwardUnreachable(nodes: seq<Node>, root: nat, x: nat)
    requires WellFormed(nodes) && root < |nodes| && x < |nodes|
    requires x != root && Paths(nodes, root, x) == 0
    ensures BackwardSpec(nodes, root)[x].grad == nodes[x].grad
  {
    DescendUnreachable(nodes, Seed(nodes, root), root, 0, x);
  }

  // ---------------------------------------------------------------------
  // The chain rule
  // ---------------------------------------------------------------------

  /** `g` times `c`. The chain-rule statements below multiply through this
      function, so that equal factors are recognised as equal before any
      arithmetic on the products is needed. */
  function Scaled(g: real, c: real): real {
    g * c
  }

  /** Below node `n`'s children `i`, ...: every node with operands is reached
      along at most one path, and those reached still have gradient 0. */
  ghost predicate TreeBelow(s: seq<Node>, nodes: seq<Node>, n: nat, i: nat)
    requires WellFormed(s) && SameShape(s, nodes) && n < |s| && i <= |s[n].children|
  {
    forall x :: 0 <= x < n && !IsLeaf(s[x]) ==>
      PathsFrom(s, n, i, x) <= 1 && (PathsFrom(s, n, i, x) > 0 ==> nodes[x].grad == 0.0)
  }

  /** Descending into children `i`, ... of `n` added to node `x` the gradient
      of `n` times the derivative of `n` with respect to `x` through those
      children. */
  ghost predicate ChainRuleAt(s: seq<Node>, nodes: seq<Node>, n: nat, i: nat, x: nat)
    requires WellFormed(s) && WellFormed(nodes) && SameShape(s, nodes)
    requires n < |s| && i <= |s[n].children| && x < |s|
  {
    DescendFrom(nodes, n, i)[x].grad == nodes[x].grad + Scaled(nodes[n].grad, ContribFrom(s, n, i, x))
  }

  /** Pushing into child `i` of `n` and descending into it added to node
      `x` the gradient of `n` times the derivative through that child. */
  ghost predicate GainedThroughChild(s: seq<Node>, nodes: seq<Node>, n: nat, i: nat, x: nat)
    requires WellFormed(s) && WellFormed(nodes) && SameShape(s, nodes)
    requires n < |s| && i < |s[n].children| && x < |s|
  {
    DescendFrom(PushInto(nodes, n, i), s[n].children[i], 0)[x].grad ==
      nodes[x].grad + Scaled(nodes[n].grad, s[n].ders[i] * Contrib(s, s[n].children[i], x))
  }

  /** Entering child `i` of `n`: after the push the tree condition holds
      below the child, and a child with operands had gradient 0. */
  lemma EnterChild(s: seq<Node>, nodes: seq<Node>, n: nat, i: nat)
    requires WellFormed(s) && WellFormed(nodes) && SameShape(s, nodes)
    requires n < |s| && i < |s[n].children|
    requires TreeBelow(s, nodes, n, i)
    ensures SameShape(s, PushInto(nodes, n, i))
    ensures TreeBelow(s, PushInto(nodes, n, i), s[n].children[i], 0)
    ensures !IsLeaf(s[s[n].children[i]]) ==> nodes[s[n].children[i]].grad == 0.0
  {
    var c := s[n].children[i];
    var pushed := PushInto(nodes, n, i);
    forall x | 0 <= x < c && !IsLeaf(s[x])
      ensures PathsFrom(s, c, 0, x) <= 1
      ensures PathsFrom(s, c, 0, x) > 0 ==> pushed[x].grad == 0.0
    {
      assert Paths(s, c, x) == PathsFrom(s, c, 0, x);
      assert PathsFrom(s, n, i, x) == Paths(s, c, x) + PathsFrom(s, n, i + 1, x);
    }
    assert PathsFrom(s, n, i, c) == Paths(s, c, c) + PathsFrom(s, n, i + 1, c);
  }

  /** What the descent into child `i` of `n` did at one node `x` below `n`. */
  lemma LeaveChildAt(s: seq<Node>, nodes: seq<Node>, n: nat, i: nat, x: nat)
    requires WellFormed(s) && WellFormed(nodes) && SameShape(s, nodes)
    requires n < |s| && i < |s[n].children| && x < n
    requires SameShape(s, PushInto(nodes, n, i))
    requires !IsLeaf(s[s[n].children[i]]) ==> nodes[s[n].children[i]].grad == 0.0
    requires x < s[n].children[i] ==> ChainRuleAt(s, PushInto(nodes, n, i), s[n].children[i], 0, x)
    ensures GainedThroughChild(s, nodes, n, i, x)
  {
    var c := s[n].children[i];
    var d := s[n].ders[i];
    var g := nodes[n].grad;
    var pushed := PushInto(nodes, n, i);
    var below := DescendFrom(pushed, c, 0);
    if x < c {
      var cf := ContribFrom(s, c, 0, x);
      assert Contrib(s, c, x) == cf;
      assert pushed[x] == nodes[x];
      assert below[x].grad == nodes[x].grad + pushed[c].grad * cf;
      if IsLeaf(s[c]) {
        assert cf == 0.0;
      } else {
        assert pushed[c].grad == d * g;
        assert (d * g) * cf == g * (d * cf);
      }
    } else if x == c {
      assert Contrib(s, c, x) == 1.0;
      assert below[c] == pushed[c];
    } else {
      NoPathUp(s, c, x);
      assert below[x] == pushed[x] == nodes[x];
    }
  }

  /** The tree condition for the remaining children, at one node `x`: if
      `x` is reached from them it is not reached through child `i`, so the
      descent into that child left its gradient at 0. */
  lemma TreeAfterChildAt(s: seq<Node>, nodes: seq<Node>, n: nat, i: nat, x: nat)
    requires WellFormed(s) && WellFormed(nodes) && SameShape(s, nodes)
    requires n < |s| && i < |s[n].children| && x < n
    requires TreeBelow(s, nodes, n, i) && !IsLeaf(s[x])
    requires GainedThroughChild(s, nodes, n, i, x)
    ensures PathsFrom(s, n, i + 1, x) <= 1
    ensures PathsFrom(s, n, i + 1, x) > 0 ==>
      DescendFrom(PushInto(nodes, n, i), s[n].children[i], 0)[x].grad == 0.0
  {
    var c := s[n].children[i];
    assert PathsFrom(s, n, i, x) == Paths(s, c, x) + PathsFrom(s, n, i + 1, x);
    if PathsFrom(s, n, i + 1, x) > 0 {
      assert Paths(s, c, x) == 0;
      assert x != c;
      NoPathNoContrib(s, c, 0, x);
      assert Contrib(s, c, x) == 0.0;
    }
  }

  /** Leaving child `i` of `n`: every node below `n` gained `n`'s gradient
      times the derivative through that child, `n` itself is untouched, and
      the tree condition holds for the remaining children. */
  lemma LeaveChild(s: seq<Node>, nodes: seq<Node>, n: nat, i: nat)
    requires WellFormed(s) && WellFormed(nodes) && SameShape(s, nodes)
    requires n < |s| && i < |s[n].children|
    requires TreeBelow(s, nodes, n, i)
    requires SameShape(s, PushInto(nodes, n, i))
    requires !IsLeaf(s[s[n].children[i]]) ==> nodes[s[n].children[i]].grad == 0.0
    requires forall x :: 0 <= x < s[n].children[i] ==>
      ChainRuleAt(s, PushInto(nodes, n, i), s[n].children[i], 0, x)
    ensures SameShape(s, DescendFrom(PushInto(nodes, n, i), s[n].children[i], 0))
    ensures DescendFrom(PushInto(nodes, n, i), s[n].children[i], 0)[n] == nodes[n]
    ensures TreeBelow(s, DescendFrom(PushInto(nodes, n, i), s[n].children[i], 0), n, i + 1)
    ensures forall x :: 0 <= x < n ==> GainedThroughChild(s, nodes, n, i, x)
  {
    forall x | 0 <= x < n
      ensures GainedThroughChild(s, nodes, n, i, x)
    {
      LeaveChildAt(s, nodes, n, i, x);
    }
    forall x | 0 <= x < n && !IsLeaf(s[x])
      ensures PathsFrom(s, n, i + 1, x) <= 1
      ensures PathsFrom(s, n, i + 1, x) > 0 ==>
        DescendFrom(PushInto(nodes, n, i), s[n].children[i], 0)[x].grad == 0.0
    {
      TreeAfterChildAt(s, nodes, n, i, x);
    }
  }

  /** One loop step of the chain rule, at node `x`: what child `i` passed
      down plus what children `i+1`, ... pass down. */
  lemma CombineAt(s: seq<Node>, nodes: seq<Node>, n: nat, i: nat, x: nat)
    requires WellFormed(s) && WellFormed(nodes) && SameShape(s, nodes)
    requires n < |s| && i < |s[n].children| && x < n
    requires GainedThroughChild(s, nodes, n, i, x)
    requires SameShape(s, DescendFrom(PushInto(nodes, n, i), s[n].children[i], 0))
    requires DescendFrom(PushInto(nodes, n, i), s[n].children[i], 0)[n] == nodes[n]
    requires ChainRuleAt(s, DescendFrom(PushInto(nodes, n, i), s[n].children[i], 0), n, i + 1, x)
    ensures ChainRuleAt(s, nodes, n, i, x)
  {
    assert s[n].children == nodes[n].children;
    NextChild(nodes, DescendFrom(PushInto(nodes, n, i), s[n].children[i], 0), n, i);
    TwoSteps(nodes[x].grad, DescendFrom(PushInto(nodes, n, i), s[n].children[i], 0)[x].grad,
      DescendFrom(nodes, n, i)[x].grad, nodes[n].grad,
      s[n].ders[i] * Contrib(s, s[n].children[i], x), ContribFrom(s, n, i + 1, x));
  }

  /** Two additions of multiples of `g` are one addition of `g` times the sum. */
  lemma TwoSteps(a: real, b: real, c: real, g: real, p: real, q: real)
    requires b == a + Scaled(g, p) && c == b + Scaled(g, q)
    ensures c == a + Scaled(g, p + q)
  {
  }

  /** Under `TreeBelow`, descending into children `i`, ... of `n` adds to
      every node below `n` the gradient of `n` times the chain-rule
      derivative of `n` through those children. */
  lemma {:induction false} DescendChainRule(s: seq<Node>, nodes: seq<Node>, n: nat, i: nat)
    requires WellFormed(s) && WellFormed(nodes) && SameShape(s, nodes)
    requires n < |s| && i <= |s[n].children|
    requires TreeBelow(s, nodes, n, i)
    ensures forall x :: 0 <= x < n ==> ChainRuleAt(s, nodes, n, i, x)
    decreases n, |s[n].children| - i
  {
    if i < |s[n].children| {
      var c := s[n].children[i];
      var pushed := PushInto(nodes, n, i);
      EnterChild(s, nodes, n, i);
      DescendChainRule(s, pushed, c, 0);
      LeaveChild(s, nodes, n, i);
      var below := DescendFrom(pushed, c, 0);
      DescendChainRule(s, below, n, i + 1);
      forall x | 0 <= x < n
        ensures ChainRuleAt(s, nodes, n, i, x)
      {
        CombineAt(s, nodes, n, i, x);
      }
    }
  }

  /** The chain rule for `backward`. If every node with operands is reached
      from the root along at most one path, and those reached (other than
      the root) start with gradient 0, then `backward` gives the root
      gradient 1 and adds to every other node the derivative of the root
      with respect to it: the sum over root-to-node paths of the products of
      the local derivatives. Leaves accumulate on top of what they held. */
  lemma BackwardChainRule(nodes: seq<Node>, root: nat)
    requires WellFormed(nodes) && root < |nodes|
    requires forall x :: 0 <= x < |nodes| && !IsLeaf(nodes[x]) ==> Paths(nodes, root, x) <= 1
    requires forall x :: 0 <= x < |nodes| && x != root && !IsLeaf(nodes[x]) && Paths(nodes, root, x) > 0 ==>
      nodes[x].grad == 0.0
    ensures BackwardSpec(nodes, root)[root].grad == 1.0
    ensures forall x :: 0 <= x < |nodes| && x != root ==>
      BackwardSpec(nodes, root)[x].grad == nodes[x].grad + Contrib(nodes, root, x)
  {
    var seeded := Seed(nodes, root);
    forall x | 0 <= x < root && !IsLeaf(nodes[x])
      ensures PathsFrom(nodes, root, 0, x) <= 1
      ensures PathsFrom(nodes, root, 0, x) > 0 ==> seeded[x].grad == 0.0
    {
      assert Paths(nodes, root, x) == PathsFrom(nodes, root, 0, x);
    }
    assert TreeBelow(nodes, seeded, root, 0);
    DescendChainRule(nodes, seeded, root, 0);
    forall x | 0 <= x < |nodes| && x != root
      ensures BackwardSpec(nodes, root)[x].grad == nodes[x].grad + Contrib(nodes, root, x)
    {
      if x < root {
        assert ChainRuleAt(nodes, seeded, root, 0, x);
        assert seeded[root].grad == 1.0;
        assert Contrib(nodes, root, x) == ContribFrom(nodes, root, 0, x);
      } else {
        NoPathUp(nodes, root, x);
      }
    }
  }

  /** On a graph whose gradients are all 0, `backward` leaves in every
      node other than the root exactly the derivative of the root with
      respect to it, when every node with operands is reached at most once. */
  lemma FreshBackward(nodes: seq<Node>, root: nat, x: nat)
    requires WellFormed(nodes) && root < |nodes| && x < |nodes| && x != root
    requires forall k :: 0 <= k < |nodes| ==> nodes[k].grad == 0.0
    requires forall k :: 0 <= k < |nodes| && !IsLeaf(nodes[k]) ==> Paths(nodes, root, k) <= 1
    ensures BackwardSpec(nodes, root)[x].grad == Contrib(nodes, root, x)
  {
    BackwardChainRule(nodes, root);
  }

  // ---------------------------------------------------------------------
  // A shared node with operands
  // ---------------------------------------------------------------------

  /** `x = 2`, `y = 3`, `s = x + y`, `u = s + s` as the operators build them. */
  function SharedSum(): (r: seq<Node>)
    ensures WellFormed(r) && |r| == 4
  {
    [Node(2.0, 0.0, [], []), Node(3.0, 0.0, [], []),
     Node(5.0, 0.0, [0, 1], [1.0, 1.0]), Node(10.0, 0.0, [2, 2], [1.0, 1.0])]
  }

  /** `SharedSum` with the given gradients. */
  function SharedSumWith(gx: real, gy: real, gs: real, gu: real): (r: seq<Node>)
    ensures WellFormed(r) && SameShape(SharedSum(), r)
  {
    [Node(2.0, gx, [], []), Node(3.0, gy, [], []),
     Node(5.0, gs, [0, 1], [1.0, 1.0]), Node(10.0, gu, [2, 2], [1.0, 1.0])]
  }

  /** Node `s` pushing its gradient `gs` into `x` and `y` adds `gs` to each. */
  lemma SharedVisit(gx: real, gy: real, gs: real, gu: real)
    ensures DescendFrom(SharedSumWith(gx, gy, gs, gu), 2, 0) == SharedSumWith(gx + gs, gy + gs, gs, gu)
  {
    var g := SharedSumWith(gx, gy, gs, gu);
    var a := PushInto(g, 2, 0);
    assert a == SharedSumWith(gx + gs, gy, gs, gu);
    var b := PushInto(a, 2, 1);
    assert b == SharedSumWith(gx + gs, gy + gs, gs, gu);
    assert DescendFrom(g, 2, 0) == DescendFrom(a, 2, 1) == DescendFrom(b, 2, 2);
  }

  /** `s` is reached from `u` along two paths, and the derivative of `u`
      with respect to `x` is 2. */
  lemma SharedSumDerivative(g: seq<Node>)
    requires g == SharedSum()
    ensures Paths(g, 3, 2) == 2
    ensures Contrib(g, 3, 0) == 2.0
  {
    assert PathsFrom(g, 3, 0, 2) == 2;
    assert Contrib(g, 2, 0) == 1.0 by {
      assert ContribFrom(g, 2, 1, 0) == 0.0;
    }
    assert ContribFrom(g, 3, 1, 0) == 1.0;
  }

  /** Node `u` pushing its gradient `gu` into `s` (either operand) adds
      `gu` to `s`. */
  lemma SharedPush(gx: real, gy: real, gs: real, gu: real, i: nat)
    requires i < 2
    ensures PushInto(SharedSumWith(gx, gy, gs, gu), 3, i) == SharedSumWith(gx, gy, gs + gu, gu)
  {
  }

  /** `u.backward()` visits `s` twice and pushes its running gradient each
      time: 1 on the first visit, 2 on the second. */
  lemma SharedSumBackward(g: seq<Node>)
    requires g == SharedSum()
    ensures BackwardSpec(g, 3) == SharedSumWith(3.0, 3.0, 2.0, 1.0)
  {
    var seeded := SharedSumWith(0.0, 0.0, 0.0, 1.0);
    assert Seed(g, 3) == seeded;
    SharedPush(0.0, 0.0, 0.0, 1.0, 0);
    SharedVisit(0.0, 0.0, 1.0, 1.0);
    NextChild(seeded, SharedSumWith(1.0, 1.0, 1.0, 1.0), 3, 0);
    SharedPush(1.0, 1.0, 1.0, 1.0, 1);
    SharedVisit(1.0, 1.0, 2.0, 1.0);
    NextChild(SharedSumWith(1.0, 1.0, 1.0, 1.0), SharedSumWith(3.0, 3.0, 2.0, 1.0), 3, 1);
  }

  /** Without the first half of the single-path condition the chain rule fails: `u.backward()`
      leaves `x.grad == 3` where the derivative of `u` with respect to `x`
      is 2. */
  lemma SharedInnerOvercounts()
    ensures Paths(SharedSum(), 3, 2) == 2
    ensures Contrib(SharedSum(), 3, 0) == 2.0
    ensures BackwardSpec(SharedSum(), 3)[0].grad == 3.0
    ensures BackwardSpec(SharedSum(), 3)[1].grad == 3.0
  {
    SharedSumDerivative(SharedSum());
    SharedSumBackward(SharedSum());
  }

  /** `x`, then `t = 1 * x` holding gradient 5, then `r = 1 * t`. */
  function StaleChain(): (r: seq<Node>)
    ensures WellFormed(r) && |r| == 3
  {
    [Node(2.0, 0.0, [], []), Node(2.0, 5.0, [0], [1.0]), Node(2.0, 0.0, [1], [1.0])]
  }

  /** Without the second half of the condition the chain rule fails too:
      `t` is reached once, but it pushes its stale gradient 5 along with
      the 1 it receives, so `x.grad == 6` where `dr/dx` is 1. */
  lemma StaleGradientRepushed(s: seq<Node>)
    requires s == StaleChain()
    ensures Paths(s, 2, 1) == 1
    ensures Contrib(s, 2, 0) == 1.0
    ensures BackwardSpec(s, 2)[0].grad == 6.0
  {
    assert PathsFrom(s, 2, 0, 1) == 1;
    assert Contrib(s, 1, 0) == 1.0 by {
      assert ContribFrom(s, 1, 0, 0) == 1.0 * Contrib(s, 0, 0) + ContribFrom(s, 1, 1, 0);
    }
    assert ContribFrom(s, 2, 0, 0) == 1.0 * Contrib(s, 1, 0) + ContribFrom(s, 2, 1, 0);
    var seeded := Seed(s, 2);
    assert seeded == [Node(2.0, 0.0, [], []), Node(2.0, 5.0, [0], [1.0]), Node(2.0, 1.0, [1], [1.0])];
    var p1 := PushInto(seeded, 2, 0);
    assert p1 == [Node(2.0, 0.0, [], []), Node(2.0, 6.0, [0], [1.0]), Node(2.0, 1.0, [1], [1.0])];
    var p2 := PushInto(p1, 1, 0);
    assert p2 == [Node(2.0, 6.0, [], []), Node(2.0, 6.0, [0], [1.0]), Node(2.0, 1.0, [1], [1.0])];
    assert DescendFrom(p2, 0, 0) == p2;
    NextChild(p1, p2, 1, 0);
    assert DescendFrom(p1, 1, 0) == p2;
    NextChild(seeded, p2, 2, 0);
  }
}
