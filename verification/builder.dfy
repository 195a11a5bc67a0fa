/**
  The chainable builder `Re`, the one mutable object of the program: each
  combinator replaces the wrapped expression in place and hands back the same
  builder so that calls can be chained. The contracts also say what each
  step does to the compiler's verdict on the wrapped expression.
 */
module Builder {
  import opened Regex
  import opened NfaGraph
  import opened Thompson

  /** The chainable builder. Every combinator rewrites `ex` and returns `this`. */
  class Re {
    var ex: Expression

    constructor(ex: Expression)
      ensures this.ex == ex
    {
      this.ex := ex;
    }

    /** The expression built so far. */
    function Exp(): (e: Expression)
      reads this
    {
      ex
    }

    /** Wraps the current expression in a Kleene star. The compiler has no
        case for Iteration, so the result never compiles. */
    method Iterate() returns (self: Re)
      modifies this
      ensures self == this
      ensures ex == Iteration(old(ex))
      ensures SymbolNodes(ex) == SymbolNodes(old(ex)) && UnionNodes(ex) == UnionNodes(old(ex))
      ensures Exp2NFA(ex).Failure?
    {
      ex := Iteration(ex);
      self := this;
    }

    /** The current expression becomes the left operand of a union. The result
        compiles exactly when both operands do, and carries one more Union
        node than the two operands together. */
    method Union(another: Expression) returns (self: Re)
      modifies this
      ensures self == this
      ensures ex == Expression.Union(old(ex), another)
      ensures SymbolNodes(ex) == SymbolNodes(old(ex)) + SymbolNodes(another)
      ensures UnionNodes(ex) == UnionNodes(old(ex)) + UnionNodes(another) + 1
      ensures Exp2NFA(ex).Success? <==> Exp2NFA(old(ex)).Success? && Exp2NFA(another).Success?
    {
      ex := Expression.Union(ex, another);
      self := this;
    }

    /** The current expression becomes the left operand of a concatenation.
        The compiler has no case for Concatenation, so the result never
        compiles. */
    method Concat(another: Expression) returns (self: Re)
      modifies this
      ensures self == this
      ensures ex == Concatenation(old(ex), another)
      ensures SymbolNodes(ex) == SymbolNodes(old(ex)) + SymbolNodes(another)
      ensures UnionNodes(ex) == UnionNodes(old(ex)) + UnionNodes(another)
      ensures Exp2NFA(ex).Failure?
    {
      ex := Concatenation(ex, another);
      self := this;
    }
  }

  /** The `Symbol` factory: a fresh builder around a single symbol node, whose
      expression compiles to the two-state symbol fragment. */
  method MakeSymbol(a: string) returns (b: Re)
    ensures fresh(b)
    ensures b.ex == Symbol(a)
    ensures Exp2NFA(b.ex) == Success(Compiled(Fragment(1, 0), [
              State(Symbol(a), []),
              State(Symbol(a), [Edge(Sym(a), 0)])]))
  {
    b := new Re(Symbol(a));
    assert [] + [State(Symbol(a), [])] + [State(Symbol(a), [Edge(Sym(a), 0)])]
        == [State(Symbol(a), []), State(Symbol(a), [Edge(Sym(a), 0)])];
  }

  /** The demonstration chain `Symbol('a').concat(Symbol('b').iterate())`:
      the outer node is a concatenation whose left operand is the first
      symbol and whose right operand is the starred second symbol; the
      compiler rejects it. */
  method Demo() returns (res: Expression)
    ensures res.Concatenation? && res.exA == Symbol("a")
    ensures res.exB == Iteration(Symbol("b"))
    ensures Exp2NFA(res).Failure?
  {
    var first := MakeSymbol("a");
    var second := MakeSymbol("b");
    var starred := second.Iterate();
    var chained := first.Concat(starred.Exp());
    res := chained.Exp();
  }
}
