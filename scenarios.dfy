/**
 * Concrete trees taken from the sample application the detector ships with
 * (examples/sql_dataset.py), each checked against the model.
 */
module Scenarios {
  import opened Wrappers
  import opened Syntax
  import opened Concat
  import opened Rules
  import opened Ledger
  import opened Walker

  /**
   * Lines 51 and 55 of the sample application, inside a route handler:
   *
   *   def fastapi_risk_case1(user_id):
   *       sql = "SELECT * FROM user WHERE id=%s" % user_id
   */
  const QueryText := "'SELECT * FROM user WHERE id=%s' % user_id"

  const PercentQuery: Tree := Tree([
    Node(Module, [1], None, Some("def fastapi_risk_case1(user_id): ...")),
    Node(FunctionDef, [2], Some(51), Some("def fastapi_risk_case1(user_id): ...")),
    Node(Assign(1), [3, 4], Some(55), Some("sql = 'SELECT * FROM user WHERE id=%s' % user_id")),
    Node(Name("sql"), [], Some(55), Some("sql")),
    Node(BinOp(Mod), [5, 6], Some(55), Some(QueryText)),
    Node(Constant, [], Some(55), Some("'SELECT * FROM user WHERE id=%s'")),
    Node(Name("user_id"), [], Some(55), Some("user_id"))
  ])

  /** The tree is well formed: children after their parent, operand counts as Python's. */
  lemma PercentQueryShape(t: Tree)
    requires t == PercentQuery
    ensures WellFormed(t)
  {
    assert Closed(t);
    assert Ordered(t);
  }

  /** The rendering of the `%` expression holds the keyword SELECT. */
  lemma PercentQueryKeyword(t: Tree)
    requires t == PercentQuery
    ensures HasSqlKeyword(t, Some(4))
  {
    var u := Text.Upper(QueryText);
    assert u[1] == 'S' && u[2] == 'E' && u[3] == 'L' && u[4] == 'E' && u[5] == 'C' && u[6] == 'T';
    assert u[1..7] == "SELECT";
    assert Text.OccursAt("SELECT", u, 1);
  }

  lemma PercentQueryBind(t: Tree)
    requires t == PercentQuery
    ensures WellFormed(t) && Bind(t, map[], 2) == map["sql" := 4]
  {
    PercentQueryShape(t);
  }

  /** After the assignment binds `sql`, the `%` expression's check records the concatenation finding. */
  lemma PercentQueryCheck(t: Tree)
    requires t == PercentQuery
    ensures WellFormed(t)
    ensures CheckBinOp(t, State(map["sql" := 4], map[]), 4) == State(map["sql" := 4], map[55 := SqlConcatDesc])
  {
    PercentQueryShape(t);
    OperandName(t, map["sql" := 4], 4, 6);
    PercentQueryKeyword(t);
    var s1 := State(map["sql" := 4], map[]);
    assert t.nodes[4].line == Some(55);
    BinOpRecordsIff(t, s1, 4);
    var r := CheckBinOp(t, s1, 4);
    assert r.risks.Keys == {55};
    assert r.risks == map[55 := SqlConcatDesc];
  }

  /** A childless Name or Constant leaves the state as it was. */
  lemma WalkLeaf(t: Tree, s: State, i: nat)
    requires WellFormed(t) && i < |t.nodes| && Sound(t, s)
    requires t.nodes[i].children == [] && (t.nodes[i].kind.Name? || t.nodes[i].kind.Constant?)
    ensures Walk(t, s, i) == s
  {
    assert WalkChildren(t, i, s, []) == s;
  }

  /** Descending into one child is visiting it. */
  lemma WalkOne(t: Tree, p: nat, s: State, a: nat)
    requires WellFormed(t) && Sound(t, s) && p < a < |t.nodes|
    ensures WalkChildren(t, p, s, [a]) == Walk(t, s, a)
  {
    assert [a][..0] == [];
  }

  /** A Module with a single statement descends into it only when it is a definition. */
  lemma ModuleOne(t: Tree, m: nat, s: State, a: nat)
    requires WellFormed(t) && Sound(t, s) && m < a < |t.nodes| && t.nodes[m].kind.Module? && t.nodes[m].children == [a]
    ensures Walk(t, s, m) == if IsDef(t.nodes[a].kind) then WalkChildren(t, a, s, t.nodes[a].children) else s
  {
    assert Walk(t, s, m) == WalkModule(t, m, s, [a]);
    assert [a][..0] == [];
    assert WalkModule(t, m, s, []) == s;
  }

  /** Descending into two children visits them left to right. */
  lemma WalkTwo(t: Tree, p: nat, s: State, a: nat, b: nat)
    requires WellFormed(t) && Sound(t, s) && p < a < |t.nodes| && p < b < |t.nodes|
    ensures WalkChildren(t, p, s, [a, b]) == Walk(t, Walk(t, s, a), b)
  {
    assert [a, b][..1] == [a];
    WalkOne(t, p, s, a);
  }

  /** Visiting the `%` expression with `sql` bound records the finding; its operands add nothing. */
  lemma PercentQueryVisitBinOp(t: Tree)
    requires t == PercentQuery
    ensures WellFormed(t)
    ensures Walk(t, State(map["sql" := 4], map[]), 4) == State(map["sql" := 4], map[55 := SqlConcatDesc])
  {
    PercentQueryShape(t);
    var s1 := State(map["sql" := 4], map[]);
    var s2 := State(map["sql" := 4], map[55 := SqlConcatDesc]);
    PercentQueryCheck(t);
    assert Check(t, s1, 4) == s2;
    WalkDispatch(t, s1, 4);
    WalkLeaf(t, s2, 5);
    WalkLeaf(t, s2, 6);
    WalkTwo(t, 4, s2, 5, 6);
  }

  /** Visiting the assignment binds `sql`, then the `%` expression records the finding. */
  lemma PercentQueryVisitAssign(t: Tree)
    requires t == PercentQuery
    ensures WellFormed(t)
    ensures Walk(t, State(map[], map[]), 2) == State(map["sql" := 4], map[55 := SqlConcatDesc])
  {
    PercentQueryShape(t);
    var s0 := State(map[], map[]);
    var s1 := State(map["sql" := 4], map[]);
    PercentQueryBind(t);
    assert Check(t, s0, 2) == s1;
    WalkDispatch(t, s0, 2);
    WalkLeaf(t, s1, 3);
    WalkTwo(t, 2, s1, 3, 4);
    PercentQueryVisitBinOp(t);
  }

  /** The `%` query is flagged as SQL concatenation at its own line, and nothing else is. */
  lemma PercentQueryFlagged(t: Tree)
    requires t == PercentQuery
    ensures WellFormed(t) && Walk(t, State(map[], map[]), 0).risks == map[55 := SqlConcatDesc]
    ensures SortedRisks(Walk(t, State(map[], map[]), 0).risks) == [(55, SqlConcatDesc)]
  {
    PercentQueryShape(t);
    var s0 := State(map[], map[]);
    PercentQueryVisitAssign(t);
    var s2 := State(map["sql" := 4], map[55 := SqlConcatDesc]);
    assert t.nodes[0].kind.Module? && t.nodes[0].children == [1];
    assert IsDef(t.nodes[1].kind) && t.nodes[1].children == [2];
    WalkOne(t, 1, s0, 2);
    ModuleOne(t, 0, s0, 1);
    assert Walk(t, s0, 0) == s2;
    SortedSingle(55, SqlConcatDesc);
  }

  /** A ledger with one finding lists just that finding. */
  lemma SortedSingle(l: nat, d: string)
    ensures SortedRisks(map[l := d]) == [(l, d)]
  {
    var r := SortedRisks(map[l := d]);
    assert |r| == 1;
    assert r[0].0 in map[l := d];
  }

  /**
   * Line 160 of the sample application, `"response: %s" % 100`: a `%` of two
   * literals. No Name is reachable, so it is not dynamic concatenation under
   * any bindings, and its check records nothing.
   */
  const LiteralFormat: Tree := Tree([
    Node(BinOp(Mod), [1, 2], Some(160), Some("'response: %s' % 100")),
    Node(Constant, [], Some(160), Some("'response: %s'")),
    Node(Constant, [], Some(160), Some("100"))
  ])

  lemma LiteralFormatStatic(t: Tree, s: State)
    requires t == LiteralFormat
    requires BoundIn(t, s.vars) && Known(s.risks)
    ensures WellFormed(t) && !DynamicConcat(t, s.vars, Some(0))
    ensures CheckBinOp(t, s, 0) == s
  {
    LiteralFormatShape(t);
    LiteralFormatClosed(t, s.vars);
    NoNameStatic(t, s.vars, 0, {0, 1, 2});
  }

  lemma LiteralFormatShape(t: Tree)
    requires t == LiteralFormat
    ensures WellFormed(t)
  {
    assert Closed(t);
    assert Ordered(t);
  }

  lemma LiteralFormatClosed(t: Tree, vars: Bindings)
    requires t == LiteralFormat
    ensures ClosedUnder(t, vars, {0, 1, 2}) && forall j :: j in {0, 1, 2} ==> !IsName(t, j)
  {
    assert Succ(t, vars, 0) == [1, 2];
    assert Succ(t, vars, 1) == [] && Succ(t, vars, 2) == [];
  }

  /**
   * A self-referential assignment, `x = x + "a"`: the binding of `x` leads
   * back to the expression that reads `x`. The reached set is still just
   * that expression and its operands, and it is dynamic concatenation.
   */
  const SelfReference: Tree := Tree([
    Node(Assign(1), [1, 2], Some(1), Some("x = x + 'a'")),
    Node(Name("x"), [], Some(1), Some("x")),
    Node(BinOp(Add), [3, 4], Some(1), Some("x + 'a'")),
    Node(Name("x"), [], Some(1), Some("x")),
    Node(Constant, [], Some(1), Some("'a'"))
  ])

  lemma SelfReferenceShape(t: Tree)
    requires t == SelfReference
    ensures WellFormed(t) && Bind(t, map[], 0) == map["x" := 2]
  {
    assert Closed(t);
    assert Ordered(t);
  }

  lemma SelfReferenceReached(t: Tree)
    requires t == SelfReference
    ensures WellFormed(t) && Bind(t, map[], 0) == map["x" := 2]
    ensures Reached(t, map["x" := 2], 2) == {2, 3, 4}
    ensures DynamicConcat(t, map["x" := 2], Some(2))
  {
    SelfReferenceShape(t);
    var vars := map["x" := 2];
    SelfReferenceClosed(t, vars);
    ReachedLeast(t, vars, 2, {2, 3, 4});
    var R := Reached(t, vars, 2);
    assert 3 in Succ(t, vars, 2) && 4 in Succ(t, vars, 2);
    assert 3 in R && 4 in R;
    OperandName(t, vars, 2, 3);
  }

  lemma SelfReferenceClosed(t: Tree, vars: Bindings)
    requires t == SelfReference && vars == map["x" := 2]
    ensures ClosedUnder(t, vars, {2, 3, 4})
  {
    assert Succ(t, vars, 2) == [3, 4];
    assert Succ(t, vars, 3) == [2];
    assert Succ(t, vars, 4) == [];
  }

  /**
   * Line 158 of the sample application,
   * `"user " + str(user_id) + " login success at " + "2025-12-21"`: the
   * outermost `+` reaches the Names `str` and `user_id`, so it is dynamic
   * concatenation, and only the keyword test keeps it out of the ledger.
   */
  const LogMessage: Tree := Tree([
    Node(BinOp(Add), [1, 8], Some(158), Some("'user ' + str(user_id) + ' login success at ' + '2025-12-21'")),
    Node(BinOp(Add), [2, 7], Some(158), Some("'user ' + str(user_id) + ' login success at '")),
    Node(BinOp(Add), [3, 4], Some(158), Some("'user ' + str(user_id)")),
    Node(Constant, [], Some(158), Some("'user '")),
    Node(Call, [5, 6], Some(158), Some("str(user_id)")),
    Node(Name("str"), [], Some(158), Some("str")),
    Node(Name("user_id"), [], Some(158), Some("user_id")),
    Node(Constant, [], Some(158), Some("' login success at '")),
    Node(Constant, [], Some(158), Some("'2025-12-21'"))
  ])

  lemma LogMessageShape(t: Tree)
    requires t == LogMessage
    ensures WellFormed(t)
  {
    assert Closed(t);
    assert Ordered(t);
  }

  lemma LogMessageReaches(t: Tree, vars: Bindings)
    requires t == LogMessage && BoundIn(t, vars)
    ensures WellFormed(t) && DynamicConcat(t, vars, Some(0))
  {
    LogMessageShape(t);
    var R := Reached(t, vars, 0);
    assert 1 in Succ(t, vars, 0);
    assert 1 in R;
    assert 2 in Succ(t, vars, 1);
    assert 2 in R;
    assert 4 in Succ(t, vars, 2);
    assert 4 in R;
    assert 6 in Succ(t, vars, 4);
    assert 6 in R;
    assert IsConcat(t, 0) && IsName(t, 6);
  }

  lemma LogMessageConcat(t: Tree, s: State)
    requires t == LogMessage
    requires BoundIn(t, s.vars) && Known(s.risks) && 158 !in s.risks
    ensures WellFormed(t) && DynamicConcat(t, s.vars, Some(0))
    ensures CheckBinOp(t, s, 0) == s <==> !HasSqlKeyword(t, Some(0))
  {
    LogMessageReaches(t, s.vars);
    assert t.nodes[0].line == Some(158);
    BinOpRecordsIff(t, s, 0);
  }
}
