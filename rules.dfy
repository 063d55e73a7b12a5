/**
 * The fixed tables of the detector and its three classifications: the SQL
 * keyword test, the f-string rule and the ordered rule list applied to calls.
 */
module Rules {
  import opened Wrappers
  import opened Syntax
  import opened Text
  import opened Concat

  const OrmAbuseDesc := "SQL risk (ORM abuse)"
  const SqlConcatDesc := "SQL risk (SQL concatenation)"
  const FStringDesc := "SQL risk (f-string SQL injection)"
  const AsyncDesc := "SQL risk (Async SQL execution)"
  const RawSqlDesc := "SQL risk (Raw SQL without parameterization)"

  const ExecFunctions: set<string> := {"execute", "executemany", "fetch_all", "fetch_one", "fetch_val"}
  const SqlKeywords: set<string> := {"SELECT", "FROM", "WHERE", "UPDATE", "DELETE", "INSERT", "DROP", "ALTER"}
  const AsyncDbDrivers: set<string> := {"database", "db", "asyncpg", "aiomysql"}
  const OrmKeywords: set<string> := {"text(", "raw(", "extra("}

  const BaseRiskPriority: map<string, nat> :=
    map[OrmAbuseDesc := 4, SqlConcatDesc := 3, FStringDesc := 3, AsyncDesc := 2]

  /** The description of a raw execution call through method `name`. */
  function RawSqlExecDesc(name: string): string {
    RawSqlDesc + ": " + name
  }

  const RawRiskPriority: map<string, nat> :=
    map[
      RawSqlExecDesc("execute") := 1, RawSqlExecDesc("executemany") := 1, RawSqlExecDesc("fetch_all") := 1,
      RawSqlExecDesc("fetch_one") := 1, RawSqlExecDesc("fetch_val") := 1]

  /** The base table, plus priority 1 for the raw-execution description of every execution method. */
  const RiskPriority: map<string, nat> := BaseRiskPriority + RawRiskPriority

  /** The fixed priority of a description; 0 for one outside the table. */
  function Rank(desc: string): nat {
    if desc in RiskPriority then RiskPriority[desc] else 0
  }

  /** No raw-execution description coincides with a base one: they differ in the first character after "(". */
  lemma RawDescNotBase(name: string)
    ensures RawSqlExecDesc(name) !in BaseRiskPriority
  {
    var d := RawSqlExecDesc(name);
    assert d[10] == 'R';
    assert OrmAbuseDesc[10] == 'O' && SqlConcatDesc[10] == 'S' && FStringDesc[10] == 'f' && AsyncDesc[10] == 'A';
  }

  /** The priority table: ORM abuse 4, concatenation and f-string 3, async 2, raw execution 1. */
  lemma PriorityTable()
    ensures RiskPriority.Keys == BaseRiskPriority.Keys + RawRiskPriority.Keys
    ensures Rank(OrmAbuseDesc) == 4 && Rank(SqlConcatDesc) == 3 && Rank(FStringDesc) == 3 && Rank(AsyncDesc) == 2
    ensures forall name :: name in ExecFunctions ==> RawSqlExecDesc(name) in RiskPriority && Rank(RawSqlExecDesc(name)) == 1
  {
    forall d | d in BaseRiskPriority ensures d !in RawRiskPriority {
      RawDescNotBase("execute");
      RawDescNotBase("executemany");
      RawDescNotBase("fetch_all");
      RawDescNotBase("fetch_one");
      RawDescNotBase("fetch_val");
    }
  }

  /**
   * `_has_sql_keyword`: false for a missing node or a failed rendering,
   * otherwise whether one of the keywords occurs in the upper-cased rendering.
   */
  function HasSqlKeyword(t: Tree, node: Option<nat>): (r: bool)
    requires node.Some? ==> node.value < |t.nodes|
    ensures r <==>
      && node.Some?
      && t.nodes[node.value].text.Some?
      && exists kw, k :: kw in SqlKeywords && OccursAt(kw, Upper(t.nodes[node.value].text.value), k)
  {
    match node
    case None => false
    case Some(i) =>
      match t.nodes[i].text
      case None => false
      case Some(s) => exists kw :: kw in SqlKeywords && Occurs(kw, Upper(s))
  }

  /** Some segment of the node is an interpolated value. */
  predicate HasFormattedValue(t: Tree, i: nat)
    requires Closed(t) && i < |t.nodes|
  {
    exists c :: c in t.nodes[i].children && t.nodes[c].kind.FormattedValue?
  }

  /**
   * `_detect_f_string_risk`: (true, the node's own line) for an f-string with
   * an interpolated segment whose rendering holds a keyword, else (false, None).
   */
  function DetectFStringRisk(t: Tree, i: nat): (r: (bool, Option<nat>))
    requires Closed(t) && i < |t.nodes|
    ensures r.0 <==> t.nodes[i].kind.JoinedStr? && HasFormattedValue(t, i) && HasSqlKeyword(t, Some(i))
    ensures r.1 == if r.0 then t.nodes[i].line else None
  {
    if !t.nodes[i].kind.JoinedStr? then
      (false, None)
    else if HasFormattedValue(t, i) && HasSqlKeyword(t, Some(i)) then
      (true, t.nodes[i].line)
    else
      (false, None)
  }

  /** Rule 1: the lower-cased rendering holds an ORM marker and the node builds a string dynamically. */
  predicate OrmRule(t: Tree, vars: Bindings, i: nat)
    requires Closed(t) && BoundIn(t, vars) && i < |t.nodes|
  {
    match t.nodes[i].text
    case None => false
    case Some(s) => (exists m :: m in OrmKeywords && Occurs(m, Lower(s))) && DynamicConcat(t, vars, Some(i))
  }

  /** Rule 2: dynamic string building and a SQL keyword. */
  predicate ConcatRule(t: Tree, vars: Bindings, i: nat)
    requires Closed(t) && BoundIn(t, vars) && i < |t.nodes|
  {
    DynamicConcat(t, vars, Some(i)) && HasSqlKeyword(t, Some(i))
  }

  /** Rule 3: `await <driver>.<exec method>(...)` with a known async driver name. */
  predicate AsyncRule(t: Tree, i: nat)
    requires Closed(t) && WellShaped(t) && i < |t.nodes|
  {
    t.nodes[i].kind.Await? &&
    var inner := Child(t, i, 0);
    t.nodes[inner].kind.Call? &&
    var func := Child(t, inner, 0);
    t.nodes[func].kind.Attribute? &&
    var value := Child(t, func, 0);
    var driver := if t.nodes[value].kind.Name? then t.nodes[value].kind.id else "";
    driver in AsyncDbDrivers && t.nodes[func].kind.attr in ExecFunctions
  }

  /** The method name of a call through an attribute, `x.name(...)`. */
  function CalledMethod(t: Tree, i: nat): Option<string>
    requires Closed(t) && WellShaped(t) && i < |t.nodes|
  {
    if t.nodes[i].kind.Call? && t.nodes[Child(t, i, 0)].kind.Attribute? then
      Some(t.nodes[Child(t, i, 0)].kind.attr)
    else
      None
  }

  /** Rule 4: a call to an execution method whose rendering holds a SQL keyword. */
  predicate ExecRule(t: Tree, i: nat)
    requires Closed(t) && WellShaped(t) && i < |t.nodes|
  {
    CalledMethod(t, i).Some? && CalledMethod(t, i).value in ExecFunctions && HasSqlKeyword(t, Some(i))
  }

  /**
   * `_detect_raw_sql_risk`: the first of the four rules that applies decides
   * the description; no rule gives (false, None, "").
   */
  function DetectRawSqlRisk(t: Tree, vars: Bindings, node: Option<nat>): (r: (bool, Option<nat>, string))
    requires Closed(t) && WellShaped(t) && BoundIn(t, vars)
    requires node.Some? ==> node.value < |t.nodes|
    ensures r.0 <==> r.2 != ""
    ensures !r.0 ==> r == (false, None, "")
    ensures r.0 ==> node.Some? && r.1 == t.nodes[node.value].line && r.2 in RiskPriority
    ensures r.2 == AsyncDesc ==> node.Some? && t.nodes[node.value].kind.Await?
  {
    PriorityTable();
    match node
    case None => (false, None, "")
    case Some(i) =>
      var line := t.nodes[i].line;
      if OrmRule(t, vars, i) then
        (true, line, OrmAbuseDesc)
      else if ConcatRule(t, vars, i) then
        (true, line, SqlConcatDesc)
      else if AsyncRule(t, i) then
        (true, line, AsyncDesc)
      else if ExecRule(t, i) then
        (true, line, RawSqlExecDesc(CalledMethod(t, i).value))
      else
        (false, None, "")
  }

  /**
   * The rules are tried in a fixed order and the first that applies wins:
   * ORM abuse, then SQL concatenation, then the awaited driver call, then the
   * raw execution call, whose description names the method. No rule, no
   * finding.
   */
  lemma FirstRuleWins(t: Tree, vars: Bindings, i: nat)
    requires Closed(t) && WellShaped(t) && BoundIn(t, vars) && i < |t.nodes|
    ensures var r := DetectRawSqlRisk(t, vars, Some(i));
      && (r.2 == OrmAbuseDesc <==> OrmRule(t, vars, i))
      && (r.2 == SqlConcatDesc <==> !OrmRule(t, vars, i) && ConcatRule(t, vars, i))
      && (r.2 == AsyncDesc <==> !OrmRule(t, vars, i) && !ConcatRule(t, vars, i) && AsyncRule(t, i))
      && (r.0 && r.2 !in BaseRiskPriority <==>
          !OrmRule(t, vars, i) && !ConcatRule(t, vars, i) && !AsyncRule(t, i) && ExecRule(t, i))
      && (r.0 && r.2 !in BaseRiskPriority ==> r.2 == RawSqlExecDesc(CalledMethod(t, i).value))
      && (!r.0 <==> !OrmRule(t, vars, i) && !ConcatRule(t, vars, i) && !AsyncRule(t, i) && !ExecRule(t, i))
  {
    PriorityTable();
    if !OrmRule(t, vars, i) && !ConcatRule(t, vars, i) && !AsyncRule(t, i) && ExecRule(t, i) {
      RawDescNotBase(CalledMethod(t, i).value);
    }
  }

  /**
   * A node whose rendering fails can only be reported by the awaited-driver
   * rule: the ORM test is skipped, and the keyword test fails for both the
   * concatenation and the execution rule.
   */
  lemma RenderFailure(t: Tree, vars: Bindings, i: nat)
    requires Closed(t) && WellShaped(t) && BoundIn(t, vars) && i < |t.nodes|
    requires t.nodes[i].text.None?
    ensures var r := DetectRawSqlRisk(t, vars, Some(i));
      r.2 == AsyncDesc || r == (false, None, "")
  {
    assert !OrmRule(t, vars, i) && !ConcatRule(t, vars, i) && !ExecRule(t, i);
  }

  /**
   * Without a SQL keyword in its rendering a node is reported, if at all,
   * only as ORM abuse or as an awaited driver call.
   */
  lemma NoKeywordFindings(t: Tree, vars: Bindings, i: nat)
    requires Closed(t) && WellShaped(t) && BoundIn(t, vars) && i < |t.nodes|
    requires !HasSqlKeyword(t, Some(i))
    ensures var r := DetectRawSqlRisk(t, vars, Some(i));
      r.2 in {OrmAbuseDesc, AsyncDesc, ""}
  {
    assert !ConcatRule(t, vars, i) && !ExecRule(t, i);
  }

  /** The f-string rule never fires on a rendering that fails. */
  lemma FStringNeedsRendering(t: Tree, i: nat)
    requires Closed(t) && i < |t.nodes| && t.nodes[i].text.None?
    ensures DetectFStringRisk(t, i) == (false, None)
  {
    assert !HasSqlKeyword(t, Some(i));
  }
}
