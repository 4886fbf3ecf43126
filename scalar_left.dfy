/**
  The operators with the scalar on the left. `s + v` and `s * v` reuse
  `v + s` and `v * s`; `s - v` and `s / v` first register a literal node
  holding `s` and then apply the `Var`-`Var` operator to it.
 */
module ScalarLeft {
  import opened VarData
  import opened Autodiff

  /** `s + v`: the node `v + s` builds. */
  method ScalarAdd(g: Graph, s: real, v: Var) returns (r: Var)
    requires g.Valid() && g.Holds(v)
    modifies g
    ensures g.Valid()
    ensures g.nodes == old(g.nodes) + [ScalarNode(old(g.nodes), Plus, v.node, s)]
    ensures g.tape == old(g.tape) + [|old(g.nodes)|]
    ensures r == Var(|old(g.nodes)|)
  {
    r := g.AddScalar(v, s);
  }

  /** `s * v`: the node `v * s` builds. */
  method ScalarMul(g: Graph, s: real, v: Var) returns (r: Var)
    requires g.Valid() && g.Holds(v)
    modifies g
    ensures g.Valid()
    ensures g.nodes == old(g.nodes) + [ScalarNode(old(g.nodes), Times, v.node, s)]
    ensures g.tape == old(g.tape) + [|old(g.nodes)|]
    ensures r == Var(|old(g.nodes)|)
  {
    r := g.MulScalar(v, s);
  }

  /** The literal node `Var(s)` registers. */
  function Literal(s: real): (r: Node)
  {
    Node(s, 0.0, [], [])
  }

  /** `s - v`: a literal holding `s`, then the literal minus `v`. */
  method ScalarSub(g: Graph, s: real, v: Var) returns (r: Var)
    requires g.Valid() && g.Holds(v)
    modifies g
    ensures g.Valid()
    ensures g.nodes == old(g.nodes) + [Literal(s)] +
      [BinaryNode(old(g.nodes) + [Literal(s)], Minus, |old(g.nodes)|, v.node)]
    ensures g.tape == old(g.tape) + [|old(g.nodes)|, |old(g.nodes)| + 1]
    ensures r == Var(|old(g.nodes)| + 1)
  {
    var lit := g.NewVar(s);
    r := g.Sub(lit, v);
  }

  /** `s / v`: a literal holding `s`, then the literal over `v`. When `v`'s
      value is 0 the literal is already registered when the division is
      refused. */
  method ScalarDiv(g: Graph, s: real, v: Var) returns (r: Result<Var>)
    requires g.Valid() && g.Holds(v)
    modifies g
    ensures g.Valid()
    ensures old(g.Value(v)) == 0.0 ==>
      r == Err(DivisionByZero) &&
      g.nodes == old(g.nodes) + [Literal(s)] &&
      g.tape == old(g.tape) + [|old(g.nodes)|]
    ensures old(g.Value(v)) != 0.0 ==>
      r == Ok(Var(|old(g.nodes)| + 1)) &&
      g.nodes == old(g.nodes) + [Literal(s)] +
        [BinaryNode(old(g.nodes) + [Literal(s)], Over, |old(g.nodes)|, v.node)] &&
      g.tape == old(g.tape) + [|old(g.nodes)|, |old(g.nodes)| + 1]
  {
    var lit := g.NewVar(s);
    r := g.Div(lit, v);
  }
}
