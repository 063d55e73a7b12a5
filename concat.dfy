/**
 * What `_has_dynamic_concat` explores: the subtree of a node together with,
 * transitively, the bound expression of every Name it meets. The set of
 * reached nodes is defined here as a least fixed point, independently of the
 * worklist that computes it.
 */
module Concat {
  import opened Wrappers
  import opened Syntax

  /**
   * The nodes the analyser moves on to from node `j`: a Name leads to the
   * expression bound to it (if any) and nowhere else; every other node leads
   * to its children.
   */
  function Succ(t: Tree, vars: Bindings, j: nat): seq<nat> {
    if j >= |t.nodes| then []
    else
      match t.nodes[j].kind
      case Name(id) => if id in vars then [vars[id]] else []
      case _ => t.nodes[j].children
  }

  /** `S` together with everything one edge away from it. */
  function Step(t: Tree, vars: Bindings, S: set<nat>): set<nat> {
    S + (set j, c | j in S && c in Succ(t, vars, j) :: c)
  }

  /** The nodes within `k` edges of `root`. */
  function Iter(t: Tree, vars: Bindings, root: nat, k: nat): set<nat> {
    if k == 0 then {root} else Step(t, vars, Iter(t, vars, root, k - 1))
  }

  /** No edge leaves `S`. */
  ghost predicate ClosedUnder(t: Tree, vars: Bindings, S: set<nat>) {
    forall j, c :: j in S && c in Succ(t, vars, j) ==> c in S
  }

  /** Every member of `S` is below `n`. */
  ghost predicate Below(S: set<nat>, n: nat) {
    forall j :: j in S ==> j < n
  }

  /** A set of indices below `n` has at most `n` members. */
  lemma {:induction false} BelowSize(S: set<nat>, n: nat)
    requires Below(S, n)
    ensures |S| <= n
  {
    if n == 0 {
      assert S == {};
    } else {
      BelowSize(S - {n - 1}, n - 1);
    }
  }

  lemma {:induction false} IterBelow(t: Tree, vars: Bindings, root: nat, k: nat)
    requires Closed(t) && BoundIn(t, vars) && root < |t.nodes|
    ensures Below(Iter(t, vars, root, k), |t.nodes|)
  {
    if k > 0 {
      IterBelow(t, vars, root, k - 1);
    }
  }

  lemma {:induction false} SubsetSize(a: set<nat>, b: set<nat>)
    requires a <= b
    ensures |a| <= |b|
    decreases a
  {
    if a != {} {
      var x :| x in a;
      SubsetSize(a - {x}, b - {x});
    }
  }

  lemma {:induction false} StrictSubsetSize(a: set<nat>, b: set<nat>)
    requires a < b
    ensures |a| < |b|
  {
    assert b - a != {};
    var x :| x in b - a;
    SubsetSize(a, b - {x});
  }

  lemma StepGrows(t: Tree, vars: Bindings, S: set<nat>)
    ensures S <= Step(t, vars, S)
  {
  }

  /** Once a round adds nothing, the next round adds nothing either. */
  lemma IterFixed(t: Tree, vars: Bindings, root: nat, k: nat)
    requires k > 0 && Iter(t, vars, root, k) == Iter(t, vars, root, k - 1)
    ensures Iter(t, vars, root, k + 1) == Iter(t, vars, root, k)
  {
    var prev := Iter(t, vars, root, k - 1);
    calc {
      Iter(t, vars, root, k + 1);
      Step(t, vars, Iter(t, vars, root, k));
      { assert Iter(t, vars, root, k) == prev; }
      Step(t, vars, prev);
    }
  }

  /** Until the search stops growing, every round adds at least one node. */
  lemma {:induction false} IterProgress(t: Tree, vars: Bindings, root: nat, k: nat)
    ensures Iter(t, vars, root, k + 1) == Iter(t, vars, root, k) || |Iter(t, vars, root, k)| >= k + 1
  {
    if k == 0 {
      assert |Iter(t, vars, root, 0)| == 1;
    } else {
      IterProgress(t, vars, root, k - 1);
      var prev, cur := Iter(t, vars, root, k - 1), Iter(t, vars, root, k);
      if cur == prev {
        IterFixed(t, vars, root, k);
      } else {
        StepGrows(t, vars, prev);
        StrictSubsetSize(prev, cur);
        assert |cur| >= k + 1;
      }
    }
  }

  /**
   * The reached set: it holds the root, stays inside the arena and no edge
   * leaves it, however the bindings refer to one another.
   */
  function Reached(t: Tree, vars: Bindings, root: nat): (r: set<nat>)
    requires Closed(t) && BoundIn(t, vars) && root < |t.nodes|
    ensures root in r && Below(r, |t.nodes|)
    ensures ClosedUnder(t, vars, r)
  {
    var n := |t.nodes|;
    IterBelow(t, vars, root, n);
    IterProgress(t, vars, root, n);
    BelowSize(Iter(t, vars, root, n), n);
    RootInIter(t, vars, root, n);
    var r := Iter(t, vars, root, n);
    assert Step(t, vars, r) == r;
    r
  }

  lemma {:induction false} RootInIter(t: Tree, vars: Bindings, root: nat, k: nat)
    ensures root in Iter(t, vars, root, k)
  {
    if k > 0 {
      RootInIter(t, vars, root, k - 1);
    }
  }

  /** The reached set is the least edge-closed set containing the root. */
  lemma {:induction false} ReachedLeast(t: Tree, vars: Bindings, root: nat, S: set<nat>)
    requires Closed(t) && BoundIn(t, vars) && root < |t.nodes|
    requires root in S && ClosedUnder(t, vars, S)
    ensures Reached(t, vars, root) <= S
  {
    IterWithin(t, vars, root, S, |t.nodes|);
  }

  lemma {:induction false} IterWithin(t: Tree, vars: Bindings, root: nat, S: set<nat>, k: nat)
    requires root in S && ClosedUnder(t, vars, S)
    ensures Iter(t, vars, root, k) <= S
  {
    if k > 0 {
      IterWithin(t, vars, root, S, k - 1);
    }
  }

  /** A `+` or `%` BinOp, or an f-string. */
  predicate IsConcat(t: Tree, j: nat) {
    j < |t.nodes| &&
    match t.nodes[j].kind
    case BinOp(op) => op == Add || op == Mod
    case JoinedStr => true
    case _ => false
  }

  predicate IsName(t: Tree, j: nat) {
    j < |t.nodes| && t.nodes[j].kind.Name?
  }

  /** Some member of `S` is a concatenation. */
  predicate SomeConcat(t: Tree, S: set<nat>) {
    exists j :: j in S && IsConcat(t, j)
  }

  /** Some member of `S` is a Name. */
  predicate SomeName(t: Tree, S: set<nat>) {
    exists j :: j in S && IsName(t, j)
  }

  /**
   * The verdict `_has_dynamic_concat` must give: false for a missing node,
   * otherwise whether the reached set holds some concatenation and, anywhere,
   * some Name. The two need not be related.
   */
  function DynamicConcat(t: Tree, vars: Bindings, node: Option<nat>): bool
    requires Closed(t) && BoundIn(t, vars)
    requires node.Some? ==> node.value < |t.nodes|
  {
    match node
    case None => false
    case Some(i) =>
      var reached := Reached(t, vars, i);
      SomeConcat(t, reached) && SomeName(t, reached)
  }

  /**
   * A `+` or `%` BinOp one of whose operands is a Name is dynamic
   * concatenation, whatever the Name is bound to.
   */
  lemma OperandName(t: Tree, vars: Bindings, i: nat, c: nat)
    requires Closed(t) && BoundIn(t, vars) && i < |t.nodes|
    requires IsConcat(t, i) && c in t.nodes[i].children && IsName(t, c)
    ensures DynamicConcat(t, vars, Some(i))
  {
    var reached := Reached(t, vars, i);
    assert c in Succ(t, vars, i);
    assert c in reached;
  }

  /**
   * If some edge-closed set around the node holds no Name, the node is not
   * dynamic concatenation: a query built from literals only is never flagged
   * by this test.
   */
  lemma NoNameStatic(t: Tree, vars: Bindings, i: nat, S: set<nat>)
    requires Closed(t) && BoundIn(t, vars) && i < |t.nodes|
    requires i in S && ClosedUnder(t, vars, S) && forall j :: j in S ==> !IsName(t, j)
    ensures !DynamicConcat(t, vars, Some(i))
  {
    ReachedLeast(t, vars, i, S);
  }

  /** Likewise without any concatenation in a closed set around the node. */
  lemma NoConcatStatic(t: Tree, vars: Bindings, i: nat, S: set<nat>)
    requires Closed(t) && BoundIn(t, vars) && i < |t.nodes|
    requires i in S && ClosedUnder(t, vars, S) && forall j :: j in S ==> !IsConcat(t, j)
    ensures !DynamicConcat(t, vars, Some(i))
  {
    ReachedLeast(t, vars, i, S);
  }
}
