/**
  NFA states held in an arena: a state's identity is its index in a sequence
  of states, and each state owns an ordered list of labelled edges. A list
  rather than a label-keyed map, because one state may carry several
  independent epsilon edges.
 */
module NfaGraph {
  import opened Regex

  /** A transition label. The source keys a symbol transition by the Symbol
      node itself; here the label carries that node's payload. */
  datatype Label = Epsilon | Sym(ch: string)

  datatype Edge = Edge(key: Label, target: nat)

  /** `exp` is the node the state was generated for (a diagnostic link only). */
  datatype State = State(exp: Expression, transitions: seq<Edge>)

  /** Total number of edges held by the states of `s`. */
  function TotalEdges(s: seq<State>): (n: nat) {
    if s == [] then 0 else TotalEdges(s[..|s| - 1]) + |s[|s| - 1].transitions|
  }

  /** Every edge of every state in `s` targets an id strictly below `bound`. */
  predicate TargetsBelow(s: seq<State>, bound: int) {
    forall i, k :: 0 <= i < |s| && 0 <= k < |s[i].transitions| ==> s[i].transitions[k].target < bound
  }

  /** No edge of any state in `s` targets the state `id`. */
  predicate NeverTargeted(s: seq<State>, id: nat) {
    forall i, k :: 0 <= i < |s| && 0 <= k < |s[i].transitions| ==> s[i].transitions[k].target != id
  }

  /** Concatenating two arenas adds their edge counts. */
  lemma {:induction false} TotalEdgesAppend(s: seq<State>, t: seq<State>)
    ensures TotalEdges(s + t) == TotalEdges(s) + TotalEdges(t)
    decreases |t|
  {
    if t == [] {
      assert s + t == s;
    } else {
      var t' := t[..|t| - 1];
      assert (s + t)[..|s + t| - 1] == s + t';
      assert (s + t)[|s + t| - 1] == t[|t| - 1];
      TotalEdgesAppend(s, t');
    }
  }

  /** Replacing one state changes the edge count by the difference of the
      two states' edge counts, and by nothing else. */
  lemma {:induction false} TotalEdgesUpdate(s: seq<State>, i: nat, x: State)
    requires i < |s|
    ensures TotalEdges(s[i := x]) + |s[i].transitions| == TotalEdges(s) + |x.transitions|
    decreases |s|
  {
    var last := |s| - 1;
    if i == last {
      assert s[i := x][..last] == s[..last];
    } else {
      assert s[i := x][..last] == s[..last][i := x];
      TotalEdgesUpdate(s[..last], i, x);
    }
  }

  /** Appending two states adds exactly their edges to the count. */
  lemma TotalEdgesPush2(s: seq<State>, x: State, y: State)
    ensures TotalEdges(s + [x] + [y]) == TotalEdges(s) + |x.transitions| + |y.transitions|
  {
    assert s + [x] + [y] == s + [x, y];
    TotalEdgesAppend(s, [x, y]);
    assert [x, y][..1] == [x] && [x][..0] == [];
  }
}
