/**
  The regular-expression syntax tree. The five node kinds are immutable
  values; composing two expressions makes a new node that refers to its
  operands.
 */
module Regex {

  /** A regular expression. `Symbol` carries its payload unchecked: the source
      accepts any string there, not only a single character. */
  datatype Expression =
    | Union(exA: Expression, exB: Expression)
    | Concatenation(exA: Expression, exB: Expression)
    | Symbol(ch: string)
    | Empty
    | Iteration(ex: Expression)

  /** Number of `Symbol` nodes in the tree. */
  function SymbolNodes(e: Expression): (n: nat) {
    match e
    case Union(a, b) => SymbolNodes(a) + SymbolNodes(b)
    case Concatenation(a, b) => SymbolNodes(a) + SymbolNodes(b)
    case Symbol(_) => 1
    case Empty => 0
    case Iteration(x) => SymbolNodes(x)
  }

  /** Number of `Union` nodes in the tree. */
  function UnionNodes(e: Expression): (n: nat) {
    match e
    case Union(a, b) => 1 + UnionNodes(a) + UnionNodes(b)
    case Concatenation(a, b) => UnionNodes(a) + UnionNodes(b)
    case Symbol(_) => 0
    case Empty => 0
    case Iteration(x) => UnionNodes(x)
  }

  /** `sub` is `e` itself or a node somewhere below it. */
  predicate Occurs(sub: Expression, e: Expression) {
    sub == e ||
    match e
    case Union(a, b) => Occurs(sub, a) || Occurs(sub, b)
    case Concatenation(a, b) => Occurs(sub, a) || Occurs(sub, b)
    case Symbol(_) => false
    case Empty => false
    case Iteration(x) => Occurs(sub, x)
  }
}
