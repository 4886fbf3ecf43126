# Reverse-mode automatic differentiation, modelled and verified in Dafny

This project models a small C++ reverse-mode automatic-differentiation
engine (`ad.cc`, `ad.hh`). The engine's parts:

- A `Var` is a handle on a `VarData` node. The node holds a value, an
  accumulated gradient, its operand nodes ("children") in order, and one
  local derivative per child.
- Creating a `Var` creates a node and registers it on the global tape
  `tapeOfVars`.
- Each arithmetic operator, and each of `exp`, `log` and `sqrt`, builds one
  result node through `createVar`.
- Division by zero is refused before the result node is built.
- `backward` sets the root's gradient to 1. The recursive `_backward` then
  walks each node's children in order. For each child it adds the local
  derivative times the node's current gradient to the child's gradient, and
  then recurses into that child.

The model is split into these modules:

- `VarData` (`var_data.dfy`)
  - The node datatype.
  - The arena invariant: every child index is smaller than its parent's
    index, and the child and derivative lists are aligned.
  - The node each operator builds.
  - The pure specification of the backward pass (`Seed`, `PushInto`,
    `DescendFrom`, `BackwardSpec`).
- `Autodiff` (`autodiff.dfy`)
  - `Graph` holds the arena and the tape.
  - Every operator, `createVar`, `clearTape` and `backward` is a method that
    updates them in place.
  - `Descend` / `VisitChild` are the literal loop and recursion of
    `_backward`. Each is proved equal to the specification function.
- `ScalarLeft` (`scalar_left.dfy`): the inline operators with the scalar on
  the left.
- `Gradient` (`gradient.dfy`)
  - The chain-rule derivative: a sum over paths of products of local
    derivatives.
  - A proof that `backward` gives the root gradient 1 and adds exactly that
    derivative to every other node when no node with operands is reached
    along two paths and those reached nodes hold no gradient yet (the
    single-path condition below).
  - The gradients `backward` actually leaves when such a node *is* shared.
- `Propagate` (`propagate.dfy`): the corrected backward pass (see
  Findings) and its chain rule for every graph.
- `Scenarios` (`scenarios.dfy`): the library's usage scenarios from
  `test_var.cc`, each as a method with the values and gradients it
  promises.

Reverse-mode differentiation should leave each node the derivative of the
root with respect to it. The code pushes a node's running gradient on every
visit, so it does not do this when a node with operands is shared (see
Findings). `Graph.Backward` keeps the code's behaviour. The intended pass is
modelled beside it.

Throughout, "the single-path condition" means: every node with operands is
reached from the root along at most one path, and those reached nodes
(other than the root) hold no gradient yet. Both halves are needed: a node
with operands that already holds gradient 5 pushes 6 into its operand
(`Gradient.StaleGradientRepushed`).

`Gradient.Scaled(g, c)` is ordinary multiplication `g * c`. The chain-rule
predicates (`ChainRuleAt`, `GainedThroughChild`, `PropagatedAt`,
`GainedFromChild`) are written with it so that the solver matches equal
factors by name before doing arithmetic; read it as `*`.

## Model

| member | source | states |
|---|---|---|
| VarData.PushInto | ad.cc:26 | one loop step adds `ders[i]` times the parent's current gradient to child `i`'s gradient and changes no other node; values, children and derivatives are unchanged and the arena stays well formed |
| VarData.DescendFrom | ad.cc:24-29 | descending from a node changes only gradients, keeps the arena well formed, and leaves that node and every later node untouched |
| VarData.NextChild | ad.cc:25-28 | after visiting child `i` the node itself is unchanged and the rest of the loop is the descent from child `i+1` |
| VarData.Seed | ad.cc:19 | seeding overwrites the root's gradient with exactly 1 and changes no other node, nor any value, child list or derivative list |
| VarData.BackwardSpec | ad.cc:18-21 | `backward` leaves the root's gradient exactly 1, changes no value, child list or derivative list, and leaves every node created after the root untouched |
| VarData.Partials | ad.cc:75-118 | the derivative table: `[1, 1]`, `[1, -1]`, `[v, u]`, `[1/v, -u/v²]` for `+`, `-`, `*`, `/`, and the first entry for the scalar forms |
| VarData.LeftPartialExact | ad.cc:75-118 | the recorded left partial of `+`, `-`, `*`, `/` is the exact slope of the result in the left operand |
| VarData.RightPartialExact | ad.cc:75-102 | for `+`, `-` and `*` the recorded right partial is the exact slope in the right operand |
| VarData.AppendWellFormed | ad.cc:65-72 | appending a node whose operands already exist and whose lists are aligned keeps the arena acyclic and aligned |
| Gradient.NoPathUp | ad.cc:65-72 | no node depends on a node created after it: zero paths and zero derivative |
| Gradient.NoPathNoContrib | ad.cc:24-29 | where no path leads from a node to another, the chain-rule derivative is 0 |
| Gradient.Agree | ad.cc:65-72 | paths and derivatives below a node depend only on nodes up to it, so later appends do not change them |
| Gradient.DescendUnreachable | ad.cc:24-29 | descending from a node leaves the gradient of every node it has no path to unchanged |
| Gradient.BackwardUnreachable | ad.cc:18-29 | `backward` leaves the gradient of every node the root does not reach unchanged |
| Gradient.DescendChainRule | ad.cc:24-29 | when every node with operands is reached once and holds no gradient yet, descending adds the node's gradient times the chain-rule derivative to every node below |
| Gradient.BackwardChainRule | ad.cc:18-29 | when every node with operands is reached at most once and those reached hold no gradient yet, `backward` gives the root 1 and adds to every other node the derivative of the root with respect to it |
| Gradient.FreshBackward | ad.cc:18-29 | on a graph with no gradients yet where every node with operands is reached at most once, each node's gradient after `backward` is exactly the chain-rule derivative |
| Gradient.SharedVisit | ad.cc:24-29 | node `s = x + y` descending adds its running gradient to `x` and `y` |
| Gradient.SharedPush | ad.cc:26 | node `u = s + s` pushing into either operand adds its gradient to `s` |
| Gradient.SharedSumDerivative | ad.cc:75-77 | in `s = x + y`, `u = s + s`, `s` is reached along two paths and `du/dx = 2` |
| Gradient.SharedSumBackward | ad.cc:18-29 | `u.backward()` on that graph leaves gradients `x = 3`, `y = 3`, `s = 2`, `u = 1` |
| Gradient.StaleGradientRepushed | ad.cc:24-29 | a node with operands reached once but already holding gradient 5 pushes 6 into its operand, where the derivative is 1: the zero-gradient half of the condition is needed |
| Gradient.SharedInnerOvercounts | ad.cc:24-29 | where `du/dx = 2`, `backward` leaves `x.grad == 3`: the chain rule fails once a node with operands is shared |
| Propagate.PushDelta | ad.cc:26 | adding an increment to one child changes that child's gradient only |
| Propagate.PropagateFrom | ad.cc:24-29 | the corrected descent changes only gradients and leaves the node and every later node untouched |
| Propagate.IntendedBackward | ad.cc:18-21 | the corrected `backward` leaves the root's gradient 1 and changes only gradients |
| Propagate.FromChildAt | ad.cc:26-27 | passing on an increment through one child adds, at every node below, the increment times the derivative through that child |
| Propagate.CombineFromChild | ad.cc:25-28 | one child's share plus the remaining children's share is the whole derivative through the loop |
| Propagate.PropagateChainRule | ad.cc:24-29 | the corrected descent adds the increment times the chain-rule derivative to every node below, for every graph |
| Propagate.IntendedChainRule | ad.cc:18-29 | the corrected `backward` adds to every node other than the root the derivative of the root with respect to it, with no condition on sharing |
| Propagate.IntendedOnSharedSum | ad.cc:24-29 | on `u = s + s` the corrected pass gives `x` 2 where the library gives 3 |
| Propagate.LibraryMatchesIntendedOnTrees | ad.cc:18-29 | when every node with operands is reached at most once and those reached hold no gradient yet, the library's pass and the corrected one leave identical gradients in every node |
| Autodiff.Graph.constructor | ad.cc:8 | a graph starts with no nodes and an empty tape |
| Autodiff.Graph.NewVar | ad.cc:39-42 | constructing a `Var` (every argument defaulting to 0 or empty, as ad.hh:78 declares) appends exactly one node with the given fields and one tape entry, leaves earlier nodes and entries unchanged, and returns a handle on the new node |
| Autodiff.Graph.Value | ad.hh:73 | reads the value of the node the handle refers to, so copies of a handle read the same value |
| Autodiff.Graph.Grad | ad.hh:74 | reads the gradient of the node the handle refers to, so copies of a handle read the same gradient |
| Autodiff.Graph.ClearTape | ad.cc:32-34 | the tape becomes empty and no node changes |
| Autodiff.Graph.CreateVar | ad.cc:65-72 | the loop that pushes operands one by one yields exactly one new node with value, grad 0, the operands in order and the given derivatives, and one tape entry |
| Autodiff.Graph.Add | ad.cc:75-77 | `a + b` appends the node with value `a + b`, children `[a, b]`, derivatives `[1, 1]` |
| Autodiff.Graph.AddScalar | ad.cc:80-82 | `a + s` appends the node with value `a + s`, child `[a]`, derivative `[1]` |
| Autodiff.Graph.Mul | ad.cc:85-87 | `a * b` appends the node with value `a * b`, children `[a, b]`, derivatives `[b, a]` |
| Autodiff.Graph.MulScalar | ad.cc:90-92 | `a * s` appends the node with child `[a]`, derivative `[s]` |
| Autodiff.Graph.Sub | ad.cc:95-97 | `a - b` appends the node with children `[a, b]`, derivatives `[1, -1]` |
| Autodiff.Graph.SubScalar | ad.cc:100-102 | `a - s` appends the node with child `[a]`, derivative `[1]` |
| Autodiff.Graph.Div | ad.cc:105-110 | a zero divisor is refused with nodes and tape unchanged; otherwise the node with derivatives `[1/b, -a/b²]` is appended |
| Autodiff.Graph.DivScalar | ad.cc:113-118 | a zero scalar is refused with nodes and tape unchanged; otherwise the node with derivative `[1/s]` is appended |
| Autodiff.Graph.Exp | ad.cc:121-123 | `exp(a)` appends one node with one child and derivative `exp(a)` |
| Autodiff.Graph.Log | ad.cc:126-128 | `log(a)` appends one node with one child and derivative `1/a` |
| Autodiff.Graph.Sqrt | ad.cc:131-133 | `sqrt(a)` appends one node with one child and derivative `1/(2 sqrt(a))` |
| Autodiff.Graph.Backward | ad.cc:136-138 | the in-place backward pass produces exactly `BackwardSpec` and leaves the tape alone |
| Autodiff.Graph.Descend | ad.cc:24-29 | the in-place loop over the children produces exactly `DescendFrom` |
| Autodiff.Graph.VisitChild | ad.cc:26-27 | one loop iteration is a push into the child followed by the child's descent |
| ScalarLeft.ScalarAdd | ad.hh:145-147 | `s + v` builds exactly the node `v + s` builds, with one tape entry |
| ScalarLeft.ScalarSub | ad.hh:150-152 | `s - v` registers a literal holding `s`, then the node with children `[literal, v]`, derivatives `[1, -1]`: two tape entries |
| ScalarLeft.ScalarMul | ad.hh:155-157 | `s * v` builds exactly the node `v * s` builds, with one tape entry |
| ScalarLeft.ScalarDiv | ad.hh:160-162 | `s / v` registers the literal first; a zero `v` is then refused with only the literal added, otherwise the quotient node follows |
| Scenarios.TwoLeafBackward | ad.cc:18-29 | from a node over two fresh leaves, `backward` gives each leaf its local derivative |
| Scenarios.OneLeafBackward | ad.cc:18-29 | from a one-operand node over a fresh leaf, `backward` gives the leaf its local derivative |
| Scenarios.Addition | test_var.cc:5-14 | `2 + 3` is 5 with gradients 1 and 1 |
| Scenarios.Subtraction | test_var.cc:16-25 | `2 - 3` is -1 with gradients 1 and -1 |
| Scenarios.Multiplication | test_var.cc:27-36 | `2 * 3` is 6 with gradients 3 and 2 |
| Scenarios.Division | test_var.cc:38-47 | `6 / 3` is 2 with gradients 1/3 and -6/9 |
| Scenarios.DivisionByZeroRefused | ad.cc:105-108 | dividing by a zero `Var` is refused and the tape holds only the two operands |
| Scenarios.Exponential | test_var.cc:49-56 | `exp(2)` has value and gradient `exp(2)` |
| Scenarios.Logarithm | test_var.cc:58-65 | `log(2)` has value `log(2)` and gradient 1/2 |
| Scenarios.SquareRoot | test_var.cc:83-90 | `sqrt(4)` is 2 with gradient 0.25 |
| Scenarios.Tape | test_var.cc:92-105 | after `x + y` and `backward` the tape holds 3 entries; after clearing, 0 |
| Scenarios.CopyAliases | ad.cc:44-62 | a copied `Var` registers nothing and reports the same gradient as the original after `backward` |
| Scenarios.LoopRoundShape | test_var.cc:72-74 | one round of `z = x + z + y` appends the nodes `x + z` and `(x + z) + y` |
| Scenarios.LoopRoundPaths | test_var.cc:72-74 | after a round every node with operands is still reached once from the new `z` |
| Scenarios.LoopRoundContrib | test_var.cc:72-74 | each round adds 1 to `dz/dx` and `dz/dy` |
| Scenarios.LoopRoundState | test_var.cc:72-74 | a round keeps the loop invariant: value `5 i`, derivatives `i`, no gradients, single paths |
| Scenarios.Loop | test_var.cc:67-81 | ten rounds give `z = 50`, `x.grad = 10`, `y.grad = 10` |
| Scenarios.LeafReachesNothing | ad.cc:24-29 | a leaf has no path to and no derivative with respect to any other node |
| Scenarios.BinaryStep | ad.cc:25-28 | paths and derivatives through a two-operand node are the sums over its two operands |
| Scenarios.ChainedPaths | test_var.cc:113-116 | in the chained graph every node with operands is reached once from the result |
| Scenarios.ChainedContribX | test_var.cc:113-123 | `d(result)/dx = -0.375` |
| Scenarios.ChainedContribY | test_var.cc:113-124 | `d(result)/dy = -0.5` |
| Scenarios.ChainedContribZ | test_var.cc:113-125 | `d(result)/dz = 1.75` |
| Scenarios.ChainedTree | test_var.cc:107-116 | the chained graph holds no gradient yet and satisfies the single-path condition |
| Scenarios.ChainedBackward | test_var.cc:118-125 | `backward` from the result gives `x`, `y`, `z` the gradients -0.375, -0.5, 1.75 |
| Scenarios.ChainedLeaves | test_var.cc:108-111 | three default `Var`s and `x`, `y`, `z` are six registered leaves |
| Scenarios.BuildChained | test_var.cc:113-116 | the four operations build exactly the chained arena, and the reassigned handles point to the right nodes |
| Scenarios.ChainedSequence | test_var.cc:107-126 | values 0.5, 14, 3.5 and gradients -0.375, -0.5, 1.75 |

## Left out

- Floating point: values and derivatives are `real`. IEEE-754 rounding, NaN and infinity, and `-0.0 == 0` are not modelled. The test constants are exact over the reals.
- `std::exp`, `std::log` and `std::sqrt` are parameters of type `real -> real`. Only the shape of the node they build is modelled, not their numeric content.
- Autodiff.Graph.Log: requires a nonzero operand. Over IEEE doubles, `log(0)` records the derivative `1/0 = inf`, and the reals have no such value.
- Autodiff.Graph.Sqrt: requires `sqrt(a) != 0` for the same reason.
- VarData.RightPartialExact: not stated for division, where the result is not affine in the divisor.
- `shared_ptr` ownership, destructors and lifetime after `clearTape`: the arena keeps every node ever created, and the tape holds indices.
- The raw setters and the getters that return `double&` or vector references (`setValue`, `setChildren`, `getGrad() +=` from outside, ...) are not exposed. Only `createVar` and `_backward` write through them, and both are modelled.
- `clearObject` is declared but never defined, so there is nothing to model.
- The tape is a field of the one `Graph` rather than a process-wide global. Threads are not modelled.
- Autodiff.Graph.NewVar: requires aligned child and derivative lists and existing operands. The C++ constructor accepts any vectors, but no caller outside `createVar` passes children or derivatives.
- `Var::createData` is not a separate member: it is the node construction inside `NewVar`.
- The `Var(shared_ptr)` constructor, the copy constructor and assignment are value copies of the `Var` handle (shown by `Scenarios.CopyAliases`).
- Gradient.BackwardChainRule: stated only when every node with operands is reached along at most one path and those reached hold no gradient yet, because the code does not satisfy the chain rule otherwise (see Findings).

## Findings

| source | as written | input that shows it | evidently intended | confidence | as-written member | corrected member |
|---|---|---|---|---|---|---|
| ad.cc:24-29 | `_backward` pushes a child's running gradient on every visit, so a node with operands reached along two paths passes on its accumulated gradient twice | `x = 2`, `y = 3`, `s = x + y`, `u = s + s`, `u.backward()` leaves `x.grad == 3` | each node receives the derivative of the root with respect to it, `du/dx = 2` | high, not executed | Gradient.SharedInnerOvercounts | Propagate.IntendedChainRule |

`Propagate.IntendedBackward` passes down only the increment a node
received on the current visit. `Propagate.IntendedChainRule` proves that
this gives every node the chain-rule derivative, with no condition on
sharing. `Propagate.LibraryMatchesIntendedOnTrees` proves that it agrees
with the library whenever every node with operands is reached at most once
and those reached hold no gradient yet. That condition holds in every
`test_var.cc` scenario, because each one builds fresh `Var`s and shares no
node with operands.
