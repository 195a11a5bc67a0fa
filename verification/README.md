# Regular-expression AST and partial Thompson compiler

This project models `re.ts`. That file holds three things:

- a regular-expression syntax tree with five node kinds: Union, Concatenation, Symbol, Empty and Iteration;
- a chainable builder `Re` whose `iterate`, `union` and `concat` replace the wrapped expression in place and return the builder itself;
- the compiler `exp2NFA`, which builds an epsilon-NFA fragment (a start state and an end state) by Thompson's construction, but only for Symbol and Union nodes. Every other node kind throws `invalid regular expression`.

Files:

- `regex.dfy` (module `Regex`): the `Expression` datatype, node counts and the `Occurs` sub-tree relation.
- `builder.dfy` (module `Builder`): the `Re` builder class, the `Symbol` factory (`MakeSymbol`) and the demonstration chain (`Demo`). Each builder step also states what it does to the compiler's verdict on the wrapped expression.
- `graph.dfy` (module `NfaGraph`): NFA states held in an arena. A state id is an index into a sequence of states. Each state owns an ordered list of `(label, target)` edges, so one state can carry two independent epsilon edges.
- `thompson.dfy` (module `Thompson`): `Build`, which compiles on top of an existing arena; `Exp2NFA`, which compiles into an empty arena; and the lemmas about both.

The compiler works as follows:

- A Symbol node gets a fresh end state with no edges. It then gets a fresh start state with one edge, keyed by the symbol, to that end.
- A Union node first compiles its left operand and then its right operand. It allocates a fresh end state. It overwrites each operand's end table with a single epsilon edge to that end. Last, it allocates a fresh start state with epsilon edges to the two operand starts, in that order.
- State ids follow that allocation order, so the end is always the second-to-last state and the start the last.
- Failure is a `Result` value. It is never a partial graph.

Facts about the code that the model keeps:

- Only Symbol and Union nodes compile (re.ts:74-116). `Build` fails on Empty, Concatenation and Iteration.
- The `Symbol` payload is not validated (re.ts:119), so `Symbol` carries any `string`.
- `union` and `concat` take an expression as their operand (re.ts:17, 21), and so do the model's `Union` and `Concat`.

`Re.Exp` is the `exp` getter: it returns the wrapped expression unchanged. It is used in `Demo`'s proof.

## Model

| member | source | states |
|---|---|---|
| Builder.Re.Iterate | re.ts:13-16 | the wrapped expression `e` becomes `Iteration(e)` and the same builder is returned; the node counts are unchanged, and the result never compiles, because the compiler has no Iteration case |
| Builder.Re.Union | re.ts:17-20 | the wrapped expression `e` becomes `Union(e, x)` and the same builder is returned; it has one more Union node than `e` and `x` together, and it compiles exactly when both `e` and `x` compile |
| Builder.Re.Concat | re.ts:21-24 | the wrapped expression `e` becomes `Concatenation(e, x)` and the same builder is returned; its node counts are those of `e` and `x` together, and it never compiles, because the compiler has no Concatenation case |
| Builder.MakeSymbol | re.ts:118-120 | the factory returns a new builder whose expression is `Symbol(a)`, with no check on `a`; that expression compiles to the two-state fragment with one edge keyed by `a` from start to end |
| Builder.Demo | re.ts:122-124 | the chain `Symbol('a').concat(Symbol('b').iterate())` yields a Concatenation whose left operand is `Symbol('a')` and whose right operand is the starred `Symbol('b')`; the compiler rejects that expression |
| Thompson.Build | re.ts:74-116 | compiling succeeds exactly on Symbol/Union trees; on success it allocates two states per Symbol or Union node, leaves every state already in the arena untouched, returns the end and start as the two new last states, tags both with the compiled node, and the end has no outgoing edges |
| Thompson.Join | re.ts:92-107 | the union's linking step leaves every state other than the two operand ends unchanged; it appends exactly two states, the new end with no edges and the new start with epsilon edges to the two operand starts in insertion order |
| Thompson.Exp2NFA | re.ts:74-116 | succeeds exactly on Symbol/Union trees; a result satisfies Thompson's invariant (start and end distinct, end without edges, all edges inside the graph, nothing enters the start) and has 2 states per Symbol/Union node, 1 edge per Symbol node and 4 edges per Union node |
| Thompson.SymbolShape | re.ts:75-88 | a Symbol compiles to two new states: the start has exactly one edge, keyed by the symbol, to the end, and the end has none |
| Thompson.UnionShape | re.ts:89-114 | after both operands are compiled, the new start has exactly the two epsilon edges to the operand starts; each operand end, which had no edges, now has exactly one epsilon edge to the new end; the new end has none; every other state is unchanged |
| Thompson.JoinEdgeCount | re.ts:94-107 | the union step replaces the two operand end tables and adds four epsilon edges to the graph |
| Thompson.BuildEdgeCount | re.ts:74-114 | compiling adds exactly one edge per Symbol node and four per Union node to the arena's edge total |
| Thompson.JoinTargetsBelowStart | re.ts:94-107 | the union step adds edges only to operand ends (towards the new end) and from the new start (towards the operand starts), so no edge reaches the new start |
| Thompson.BuildTargetsBelowStart | re.ts:74-114 | if the arena's edges stay inside it, then after compiling every edge targets an id below the new start, so no edge anywhere enters the start |
| Thompson.SupportedIffNoOtherNode | re.ts:89-115 | a tree is accepted exactly when every node in it is a Symbol or a Union |
| Thompson.Exp2NFAFailsIffOtherNode | re.ts:89-115 | `exp2NFA` fails exactly when some node anywhere in the tree is an Empty, Concatenation or Iteration node |
| Thompson.UnionOfTwoSymbols | re.ts:89-114 | `Union(Symbol('a'), Symbol('b'))` compiles to six states: two symbol fragments joined by epsilon edges from one start and into one shared end |

## Left out

- The demonstration's `console.log` output (re.ts:124-132) and the unused `assert` import (re.ts:1): output and scaffolding only.
- Builder.Demo: the source passes the builder object itself, not its expression, as the operand of `concat` (re.ts:122). This works there only because the expression interface is empty. The model passes the builder's expression instead.
- Thompson constructions for Empty, Concatenation and Iteration: the source throws for them (re.ts:115), so the model rejects them too.
- Language semantics, meaning whether an NFA accepts a string: the source has no matcher, so no claim is made about it.
- Object identity and `Map` semantics: a state is an index into the arena. The source keys each epsilon edge by a freshly allocated marker object, which makes every such key distinct. In the model this is a single `Epsilon` label that may appear several times in one edge list.
- Symbol transition keys: the source keys a symbol transition by the Symbol node object (re.ts:82). The model keys it by the node's payload, `Sym(c)`, so two distinct Symbol nodes with the same payload give equal labels.
- The `exp` back-pointer on states (re.ts:65) is kept only as a diagnostic field. The source's `null` transition table is modelled as an empty edge list.
- Builder aliasing: the builder is a mutable class. Its method contracts (`old`, `fresh`) describe one builder at a time, and nothing is said about two builders that share sub-expressions beyond what value semantics of `Expression` already gives.
