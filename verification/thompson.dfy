/**
  The partial Thompson construction `exp2NFA`. Symbol and Union nodes are
  compiled into fragments; every other node kind is rejected with the error
  "invalid regular expression", and no fragment is returned.

  The source allocates state objects on the heap. Here the compiler threads
  an arena: it receives the states allocated so far and returns them extended
  with the states it allocated. A fragment names its start and end by id.
 */
module Thompson {
  import opened Regex
  import opened NfaGraph

  /** The source's `NFA` record: the ids of a fragment's start and end states. */
  datatype Fragment = Fragment(start: nat, end: nat)

  /** A compiled fragment together with the arena it lives in. */
  datatype Compiled = Compiled(nfa: Fragment, states: seq<State>)

  datatype Error = InvalidRegularExpression

  /** The outcome of compiling: a value, or the error the source throws. */
  datatype Result<T> = Success(value: T) | Failure(error: Error) {
    predicate IsFailure() {
      Failure?
    }

    function PropagateFailure<U>(): Result<U>
      requires Failure?
    {
      Failure(error)
    }

    function Extract(): T
      requires Success?
    {
      value
    }
  }

  /** The expressions the compiler accepts: trees of Symbol and Union nodes. */
  predicate Supported(e: Expression) {
    match e
    case Symbol(_) => true
    case Union(a, b) => Supported(a) && Supported(b)
    case _ => false
  }

  /** Thompson's invariant for a fragment in its arena: start and end are
      distinct states of the arena, the end has no outgoing edges, every edge
      stays inside the arena and no edge enters the start. */
  predicate ThompsonShaped(c: Compiled) {
    && c.nfa.start < |c.states|
    && c.nfa.end < |c.states|
    && c.nfa.start != c.nfa.end
    && c.states[c.nfa.end].transitions == []
    && TargetsBelow(c.states, |c.states|)
    && NeverTargeted(c.states, c.nfa.start)
  }

  /** Compiles `e` on top of the states already in `arena`. The end state is
      allocated before the start state, in the source's order. */
  function Build(e: Expression, arena: seq<State>): (r: Result<Compiled>)
    ensures r.Success? <==> Supported(e)
    ensures r.Success? ==>
              var s := r.value.states;
              && |s| == |arena| + 2 * (SymbolNodes(e) + UnionNodes(e))
              && s[..|arena|] == arena
              && r.value.nfa.end == |s| - 2
              && r.value.nfa.start == |s| - 1
              && s[r.value.nfa.end].transitions == []
              && s[r.value.nfa.end].exp == e
              && s[r.value.nfa.start].exp == e
    decreases e
  {
    match e
    case Symbol(c) =>
      var end := |arena|;
      var states := arena + [State(e, [])] + [State(e, [Edge(Sym(c), end)])];
      Success(Compiled(Fragment(end + 1, end), states))
    case Union(a, b) =>
      var ra :- Build(a, arena);
      var rb :- Build(b, ra.states);
      var r := Join(e, ra.nfa, rb.nfa, rb.states);
      assert r.states[..|arena|] == arena by {
        assert rb.states[..|ra.states|] == ra.states;
        assert forall i :: 0 <= i < |arena| ==> r.states[i] == arena[i];
      }
      Success(r)
    case _ =>
      Failure(InvalidRegularExpression)
  }

  /** The linking step of a union, on an arena `s` that holds both compiled
      operands: allocates the new end and then the new start, gives each
      operand's end table a single epsilon edge to the new end, and gives the
      new start epsilon edges to the two operand starts, in that order. */
  function Join(e: Expression, nfaA: Fragment, nfaB: Fragment, s: seq<State>): (r: Compiled)
    requires nfaA.end < |s| && nfaB.end < |s| && nfaA.end != nfaB.end
    ensures |r.states| == |s| + 2
    ensures r.nfa == Fragment(|s| + 1, |s|)
    ensures forall i :: 0 <= i < |s| && i != nfaA.end && i != nfaB.end ==> r.states[i] == s[i]
    ensures r.states[nfaA.end] == s[nfaA.end].(transitions := [Edge(Epsilon, |s|)])
    ensures r.states[nfaB.end] == s[nfaB.end].(transitions := [Edge(Epsilon, |s|)])
    ensures r.states[|s|] == State(e, [])
    ensures r.states[|s| + 1] == State(e, [Edge(Epsilon, nfaA.start), Edge(Epsilon, nfaB.start)])
  {
    var end := |s|;
    var joined := s[nfaA.end := s[nfaA.end].(transitions := [Edge(Epsilon, end)])];
    var joined' := joined[nfaB.end := joined[nfaB.end].(transitions := [Edge(Epsilon, end)])];
    var states := joined' + [State(e, [])]
                          + [State(e, [Edge(Epsilon, nfaA.start), Edge(Epsilon, nfaB.start)])];
    Compiled(Fragment(end + 1, end), states)
  }

  /** `exp2NFA`: compiles a whole expression into a fresh arena. */
  function Exp2NFA(e: Expression): (r: Result<Compiled>)
    ensures r.Success? <==> Supported(e)
    ensures r.Success? ==> ThompsonShaped(r.value)
    ensures r.Success? ==> |r.value.states| == 2 * (SymbolNodes(e) + UnionNodes(e))
    ensures r.Success? ==> TotalEdges(r.value.states) == SymbolNodes(e) + 4 * UnionNodes(e)
  {
    if Supported(e) then
      BuildTargetsBelowStart(e, []);
      BuildEdgeCount(e, []);
      Build(e, [])
    else
      Build(e, [])
  }

  /** Compiling a symbol yields two fresh states: the start has exactly one
      edge, keyed by that symbol and leading to the end, which has none. */
  lemma SymbolShape(c: string, arena: seq<State>)
    ensures Build(Symbol(c), arena).Success?
    ensures var r := Build(Symbol(c), arena).value;
            && r.states[..|arena|] == arena
            && |r.states| == |arena| + 2
            && r.nfa.start != r.nfa.end
            && r.states[r.nfa.start].transitions == [Edge(Sym(c), r.nfa.end)]
            && r.states[r.nfa.end].transitions == []
  {
  }

  /** Compiling a union compiles both operands first, then: the new start has
      exactly two epsilon edges, to the operands' starts; each operand's end
      gets exactly one epsilon edge, to the new end, having had none before;
      the new end has no edges; and every other state is left as it was. */
  lemma UnionShape(a: Expression, b: Expression, arena: seq<State>)
    requires Supported(a) && Supported(b)
    ensures var ra := Build(a, arena).value;
            var rb := Build(b, ra.states).value;
            var r := Build(Union(a, b), arena).value;
            var s := r.states;
            && |s| == |rb.states| + 2
            && r.nfa.start !in {ra.nfa.end, rb.nfa.end, r.nfa.end}
            && r.nfa.end !in {ra.nfa.end, rb.nfa.end}
            && ra.nfa.end != rb.nfa.end
            && s[r.nfa.start].transitions == [Edge(Epsilon, ra.nfa.start), Edge(Epsilon, rb.nfa.start)]
            && rb.states[ra.nfa.end].transitions == []
            && rb.states[rb.nfa.end].transitions == []
            && s[ra.nfa.end].transitions == [Edge(Epsilon, r.nfa.end)]
            && s[rb.nfa.end].transitions == [Edge(Epsilon, r.nfa.end)]
            && s[r.nfa.end].transitions == []
            && (forall i :: 0 <= i < |rb.states| && i != ra.nfa.end && i != rb.nfa.end ==> s[i] == rb.states[i])
  {
    var ra := Build(a, arena).value;
    var rb := Build(b, ra.states).value;
    assert rb.states[ra.nfa.end] == ra.states[ra.nfa.end] by {
      assert rb.states[..|ra.states|] == ra.states;
    }
  }

  /** The union's linking step drops the operands' end tables and adds four
      epsilon edges. */
  lemma JoinEdgeCount(e: Expression, nfaA: Fragment, nfaB: Fragment, s: seq<State>)
    requires nfaA.end < |s| && nfaB.end < |s| && nfaA.end != nfaB.end
    ensures TotalEdges(Join(e, nfaA, nfaB, s).states) + |s[nfaA.end].transitions| + |s[nfaB.end].transitions|
         == TotalEdges(s) + 4
  {
    var end := |s|;
    var joined := s[nfaA.end := s[nfaA.end].(transitions := [Edge(Epsilon, end)])];
    var joined' := joined[nfaB.end := joined[nfaB.end].(transitions := [Edge(Epsilon, end)])];
    TotalEdgesUpdate(s, nfaA.end, s[nfaA.end].(transitions := [Edge(Epsilon, end)]));
    TotalEdgesUpdate(joined, nfaB.end, joined[nfaB.end].(transitions := [Edge(Epsilon, end)]));
    TotalEdgesPush2(joined', State(e, []), State(e, [Edge(Epsilon, nfaA.start), Edge(Epsilon, nfaB.start)]));
  }

  /** Compiling adds two states per Symbol or Union node, one edge per
      Symbol node and four edges per Union node. */
  lemma {:induction false} BuildEdgeCount(e: Expression, arena: seq<State>)
    requires Supported(e)
    ensures TotalEdges(Build(e, arena).value.states) == TotalEdges(arena) + SymbolNodes(e) + 4 * UnionNodes(e)
    decreases e
  {
    match e
    case Symbol(c) =>
      TotalEdgesPush2(arena, State(e, []), State(e, [Edge(Sym(c), |arena|)]));
    case Union(a, b) =>
      BuildEdgeCount(a, arena);
      var ra := Build(a, arena).value;
      BuildEdgeCount(b, ra.states);
      var rb := Build(b, ra.states).value;
      UnionShape(a, b, arena);
      JoinEdgeCount(e, ra.nfa, rb.nfa, rb.states);
  }

  /** The union's linking step only adds edges to states already in the
      arena or to the new end, so every edge stays below the new start. */
  lemma JoinTargetsBelowStart(e: Expression, nfaA: Fragment, nfaB: Fragment, s: seq<State>)
    requires nfaA.end < |s| && nfaB.end < |s| && nfaA.end != nfaB.end
    requires nfaA.start < |s| && nfaB.start < |s|
    requires TargetsBelow(s, |s|)
    ensures TargetsBelow(Join(e, nfaA, nfaB, s).states, |s| + 1)
  {
    var r := Join(e, nfaA, nfaB, s);
    forall i, k | 0 <= i < |r.states| && 0 <= k < |r.states[i].transitions|
      ensures r.states[i].transitions[k].target < |s| + 1
    {
      if i < |s| && i != nfaA.end && i != nfaB.end {
        assert r.states[i] == s[i];
      }
    }
  }

  /** When every edge already in the arena stays inside it, every edge after
      compiling targets an id below the new start; so the start is never the
      target of any edge, in the fragment or in the rest of the arena. */
  lemma {:induction false} BuildTargetsBelowStart(e: Expression, arena: seq<State>)
    requires Supported(e)
    requires TargetsBelow(arena, |arena|)
    ensures TargetsBelow(Build(e, arena).value.states, Build(e, arena).value.nfa.start)
    decreases e
  {
    match e
    case Symbol(c) =>
    case Union(a, b) =>
      BuildTargetsBelowStart(a, arena);
      var ra := Build(a, arena).value;
      BuildTargetsBelowStart(b, ra.states);
      var rb := Build(b, ra.states).value;
      UnionShape(a, b, arena);
      JoinTargetsBelowStart(e, ra.nfa, rb.nfa, rb.states);
  }

  /** The compiler succeeds exactly when no node anywhere in the tree is an
      Empty, Concatenation or Iteration node. */
  lemma {:induction false} SupportedIffNoOtherNode(e: Expression)
    ensures Supported(e) <==> forall sub :: Occurs(sub, e) ==> sub.Symbol? || sub.Union?
    decreases e
  {
    match e
    case Symbol(_) =>
    case Union(a, b) =>
      SupportedIffNoOtherNode(a);
      SupportedIffNoOtherNode(b);
    case Concatenation(a, b) =>
      assert Occurs(e, e);
    case Empty =>
      assert Occurs(e, e);
    case Iteration(x) =>
      assert Occurs(e, e);
  }

  /** `exp2NFA` fails, and returns no fragment, exactly when some node of the
      tree is an Empty, Concatenation or Iteration node. */
  lemma Exp2NFAFailsIffOtherNode(e: Expression)
    ensures Exp2NFA(e).Failure? <==> exists sub :: Occurs(sub, e) && !(sub.Symbol? || sub.Union?)
  {
    SupportedIffNoOtherNode(e);
  }

  /** The union of two symbols: the start splits by epsilon into two two-state
      symbol fragments, whose ends both join one shared end state. */
  lemma UnionOfTwoSymbols()
    ensures var e := Union(Symbol("a"), Symbol("b"));
            Exp2NFA(e) == Success(Compiled(Fragment(5, 4), [
              State(Symbol("a"), [Edge(Epsilon, 4)]),
              State(Symbol("a"), [Edge(Sym("a"), 0)]),
              State(Symbol("b"), [Edge(Epsilon, 4)]),
              State(Symbol("b"), [Edge(Sym("b"), 2)]),
              State(e, []),
              State(e, [Edge(Epsilon, 1), Edge(Epsilon, 3)])]))
  {
    var e := Union(Symbol("a"), Symbol("b"));
    var sa := [State(Symbol("a"), []), State(Symbol("a"), [Edge(Sym("a"), 0)])];
    assert [] + [State(Symbol("a"), [])] + [State(Symbol("a"), [Edge(Sym("a"), 0)])] == sa;
    assert Build(Symbol("a"), []) == Success(Compiled(Fragment(1, 0), sa));
    var sb := sa + [State(Symbol("b"), []), State(Symbol("b"), [Edge(Sym("b"), 2)])];
    assert sa + [State(Symbol("b"), [])] + [State(Symbol("b"), [Edge(Sym("b"), 2)])] == sb;
    assert Build(Symbol("b"), sa) == Success(Compiled(Fragment(3, 2), sb));
    var j := Join(e, Fragment(1, 0), Fragment(3, 2), sb);
    assert j.states == [
      State(Symbol("a"), [Edge(Epsilon, 4)]),
      State(Symbol("a"), [Edge(Sym("a"), 0)]),
      State(Symbol("b"), [Edge(Epsilon, 4)]),
      State(Symbol("b"), [Edge(Sym("b"), 2)]),
      State(e, []),
      State(e, [Edge(Epsilon, 1), Edge(Epsilon, 3)])];
  }
}
