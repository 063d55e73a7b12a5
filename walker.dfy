/**
 * What the tree walk does to the detector's state, as functions of the tree:
 * the handler run for each node kind, the order in which nodes are
 * dispatched, and what the walk keeps invariant.
 */
module Walker {
  import opened Wrappers
  import opened Syntax
  import opened Concat
  import opened Rules
  import opened Ledger

  /** The detector's mutable state: the variable map and the ledger. */
  datatype State = State(vars: Bindings, risks: Risks)

  predicate Sound(t: Tree, s: State) {
    BoundIn(t, s.vars) && Known(s.risks)
  }

  /** Nothing is forgotten: bindings and ledger lines persist and a line's priority never drops. */
  predicate Grows(a: State, b: State) {
    && a.vars.Keys <= b.vars.Keys
    && forall l :: l in a.risks ==> l in b.risks && Rank(b.risks[l]) >= Rank(a.risks[l])
  }

  /** An assignment with exactly one target, and that target a plain Name. */
  predicate SimpleTarget(t: Tree, i: nat)
    requires Closed(t) && WellShaped(t) && i < |t.nodes| && t.nodes[i].kind.Assign?
  {
    t.nodes[i].kind.targets == 1 && t.nodes[Child(t, i, 0)].kind.Name?
  }

  /**
   * The binding `visit_Assign` records: for a single plain-Name target the
   * name is (re)bound to the assigned value and nothing else changes; any
   * other assignment leaves the map as it was.
   */
  function Bind(t: Tree, vars: Bindings, i: nat): (r: Bindings)
    requires Closed(t) && WellShaped(t) && BoundIn(t, vars) && i < |t.nodes| && t.nodes[i].kind.Assign?
    ensures BoundIn(t, r)
    ensures SimpleTarget(t, i) ==>
      var name := t.nodes[Child(t, i, 0)].kind.id;
      && r.Keys == vars.Keys + {name}
      && r[name] == Child(t, i, 1)
      && forall x :: x in vars && x != name ==> r[x] == vars[x]
    ensures !SimpleTarget(t, i) ==> r == vars
  {
    if SimpleTarget(t, i) then vars[t.nodes[Child(t, i, 0)].kind.id := Child(t, i, 1)] else vars
  }

  /** `visit_JoinedStr`'s check. */
  function CheckFString(t: Tree, s: State, i: nat): (r: State)
    requires Closed(t) && i < |t.nodes| && Sound(t, s)
    ensures Sound(t, r) && Grows(s, r) && r.vars == s.vars
    ensures NoAsync(s.risks) ==> NoAsync(r.risks)
    ensures forall l :: l in r.risks && l !in s.risks ==> t.nodes[i].line == Some(l)
  {
    PriorityTable();
    var (hasRisk, line) := DetectFStringRisk(t, i);
    if hasRisk && Truthy(line) then s.(risks := Record(s.risks, line, FStringDesc)) else s
  }

  /** `visit_BinOp`'s check. */
  function CheckBinOp(t: Tree, s: State, i: nat): (r: State)
    requires Closed(t) && i < |t.nodes| && Sound(t, s)
    ensures Sound(t, r) && Grows(s, r) && r.vars == s.vars
    ensures NoAsync(s.risks) ==> NoAsync(r.risks)
    ensures forall l :: l in r.risks && l !in s.risks ==> t.nodes[i].line == Some(l)
  {
    if DynamicConcat(t, s.vars, Some(i)) && HasSqlKeyword(t, Some(i)) then
      s.(risks := Record(s.risks, t.nodes[i].line, SqlConcatDesc))
    else
      s
  }

  /** `visit_Call`'s check. */
  function CheckCall(t: Tree, s: State, i: nat): (r: State)
    requires Closed(t) && WellShaped(t) && i < |t.nodes| && Sound(t, s) && t.nodes[i].kind.Call?
    ensures Sound(t, r) && Grows(s, r) && r.vars == s.vars
    ensures NoAsync(s.risks) ==> NoAsync(r.risks)
    ensures forall l :: l in r.risks && l !in s.risks ==> t.nodes[i].line == Some(l)
  {
    var (hasRisk, line, desc) := DetectRawSqlRisk(t, s.vars, Some(i));
    if hasRisk && Truthy(line) then s.(risks := Record(s.risks, line, desc)) else s
  }

  /**
   * On a node whose line is set and not yet flagged, each check records a
   * finding exactly when its rule holds, with the rule's description, and
   * otherwise leaves the state as it was.
   */
  lemma FStringRecordsIff(t: Tree, s: State, i: nat)
    requires Closed(t) && i < |t.nodes| && Sound(t, s)
    requires Truthy(t.nodes[i].line) && t.nodes[i].line.value !in s.risks
    ensures var l, r := t.nodes[i].line.value, CheckFString(t, s, i);
      && (l in r.risks <==> DetectFStringRisk(t, i).0)
      && (l in r.risks ==> r.risks[l] == FStringDesc)
      && (l !in r.risks ==> r == s)
  {
    PriorityTable();
  }

  lemma BinOpRecordsIff(t: Tree, s: State, i: nat)
    requires Closed(t) && i < |t.nodes| && Sound(t, s)
    requires Truthy(t.nodes[i].line) && t.nodes[i].line.value !in s.risks
    ensures var l, r := t.nodes[i].line.value, CheckBinOp(t, s, i);
      && (l in r.risks <==> DynamicConcat(t, s.vars, Some(i)) && HasSqlKeyword(t, Some(i)))
      && (l in r.risks ==> r.risks[l] == SqlConcatDesc)
      && (l !in r.risks ==> r == s)
  {
    PriorityTable();
  }

  lemma CallRecordsIff(t: Tree, s: State, i: nat)
    requires Closed(t) && WellShaped(t) && i < |t.nodes| && Sound(t, s) && t.nodes[i].kind.Call?
    requires Truthy(t.nodes[i].line) && t.nodes[i].line.value !in s.risks
    ensures var l, r := t.nodes[i].line.value, CheckCall(t, s, i);
      && (l in r.risks <==> DetectRawSqlRisk(t, s.vars, Some(i)).0)
      && (l in r.risks ==> r.risks[l] == DetectRawSqlRisk(t, s.vars, Some(i)).2)
      && (l !in r.risks ==> r == s)
  {
    PriorityTable();
  }

  /**
   * The check a node's own visitor runs before descending: an f-string, a
   * BinOp and a Call run their rule, an Assign records its binding, every
   * other kind runs nothing. Only the node's own line can be added.
   */
  function Check(t: Tree, s: State, i: nat): (r: State)
    requires WellFormed(t) && i < |t.nodes| && Sound(t, s)
    ensures Sound(t, r) && Grows(s, r)
    ensures NoAsync(s.risks) ==> NoAsync(r.risks)
    ensures forall l :: l in r.risks && l !in s.risks ==> t.nodes[i].line == Some(l)
  {
    match t.nodes[i].kind
    case JoinedStr => CheckFString(t, s, i)
    case BinOp(_) => CheckBinOp(t, s, i)
    case Call => CheckCall(t, s, i)
    case Assign(_) => s.(vars := Bind(t, s.vars, i))
    case _ => s
  }

  /**
   * The state after visiting node `i`: a Module descends only into its
   * top-level definitions; every other node runs its check and descends.
   */
  function Walk(t: Tree, s: State, i: nat): (r: State)
    requires WellFormed(t) && i < |t.nodes| && Sound(t, s)
    ensures Sound(t, r) && Grows(s, r)
    ensures NoAsync(s.risks) ==> NoAsync(r.risks)
    decreases |t.nodes| - i, 2, 0
  {
    var n := t.nodes[i];
    if n.kind.Module? then WalkModule(t, i, s, n.children)
    else WalkChildren(t, i, Check(t, s, i), n.children)
  }

  /** Visiting a node other than a Module runs its kind's check, then walks its children. */
  lemma WalkDispatch(t: Tree, s: State, i: nat)
    requires WellFormed(t) && i < |t.nodes| && Sound(t, s) && !t.nodes[i].kind.Module?
    ensures Walk(t, s, i) == WalkChildren(t, i, Check(t, s, i), t.nodes[i].children)
    ensures t.nodes[i].kind.Call? ==> Check(t, s, i) == CheckCall(t, s, i)
    ensures t.nodes[i].kind.BinOp? ==> Check(t, s, i) == CheckBinOp(t, s, i)
    ensures t.nodes[i].kind.JoinedStr? ==> Check(t, s, i) == CheckFString(t, s, i)
  {
  }

  /** `generic_visit`: visit the nodes `cs` (children of `p`) in order. */
  function WalkChildren(t: Tree, p: nat, s: State, cs: seq<nat>): (r: State)
    requires WellFormed(t) && p < |t.nodes| && Sound(t, s)
    requires Above(cs, p, |t.nodes|)
    ensures Sound(t, r) && Grows(s, r)
    ensures NoAsync(s.risks) ==> NoAsync(r.risks)
    decreases |t.nodes| - p, 1, |cs|
  {
    if cs == [] then
      s
    else
      Walk(t, WalkChildren(t, p, s, cs[..|cs| - 1]), cs[|cs| - 1])
  }

  /** `visit_Module`: of the statements `cs` of module `m`, descend into the definitions only. */
  function WalkModule(t: Tree, m: nat, s: State, cs: seq<nat>): (r: State)
    requires WellFormed(t) && m < |t.nodes| && Sound(t, s)
    requires Above(cs, m, |t.nodes|)
    ensures Sound(t, r) && Grows(s, r)
    ensures NoAsync(s.risks) ==> NoAsync(r.risks)
    decreases |t.nodes| - m, 1, |cs|
  {
    if cs == [] then
      s
    else
      var before := WalkModule(t, m, s, cs[..|cs| - 1]);
      var c := cs[|cs| - 1];
      if IsDef(t.nodes[c].kind) then WalkChildren(t, c, before, t.nodes[c].children) else before
  }

  /** One more module statement: a definition's body is walked, anything else is skipped. */
  lemma WalkModuleStep(t: Tree, m: nat, s: State, cs: seq<nat>, k: nat)
    requires WellFormed(t) && m < |t.nodes| && Sound(t, s)
    requires Above(cs, m, |t.nodes|) && k < |cs|
    ensures Above(cs[..k], m, |t.nodes|) && Above(cs[..k + 1], m, |t.nodes|)
    ensures var before := WalkModule(t, m, s, cs[..k]);
      WalkModule(t, m, s, cs[..k + 1]) ==
        if IsDef(t.nodes[cs[k]].kind) then WalkChildren(t, cs[k], before, t.nodes[cs[k]].children) else before
  {
    assert cs[..k + 1][..k] == cs[..k];
  }

  /** Every index of `js` names a node of a tree with `n` nodes. */
  predicate Within(js: seq<nat>, n: nat) {
    forall k :: 0 <= k < |js| ==> js[k] < n
  }

  /** The nodes whose handler runs when node `i` is visited, in order. */
  function Walked(t: Tree, i: nat): (r: seq<nat>)
    requires Ordered(t) && i < |t.nodes|
    ensures Within(r, |t.nodes|)
    decreases |t.nodes| - i, 2, 0
  {
    var n := t.nodes[i];
    if n.kind.Module? then [i] + ModuleWalked(t, i, n.children) else [i] + ChildrenWalked(t, i, n.children)
  }

  function ChildrenWalked(t: Tree, p: nat, cs: seq<nat>): (r: seq<nat>)
    requires Ordered(t) && p < |t.nodes|
    requires Above(cs, p, |t.nodes|)
    ensures Within(r, |t.nodes|)
    decreases |t.nodes| - p, 1, |cs|
  {
    if cs == [] then [] else ChildrenWalked(t, p, cs[..|cs| - 1]) + Walked(t, cs[|cs| - 1])
  }

  function ModuleWalked(t: Tree, m: nat, cs: seq<nat>): (r: seq<nat>)
    requires Ordered(t) && m < |t.nodes|
    requires Above(cs, m, |t.nodes|)
    ensures Within(r, |t.nodes|)
    decreases |t.nodes| - m, 1, |cs|
  {
    if cs == [] then
      []
    else
      var c := cs[|cs| - 1];
      ModuleWalked(t, m, cs[..|cs| - 1]) + if IsDef(t.nodes[c].kind) then ChildrenWalked(t, c, t.nodes[c].children) else []
  }

  /** The checks of the nodes `js`, run one after another in that order. */
  function CheckAll(t: Tree, s: State, js: seq<nat>): (r: State)
    requires WellFormed(t) && Sound(t, s) && Within(js, |t.nodes|)
    ensures Sound(t, r) && Grows(s, r)
    decreases |js|
  {
    if js == [] then s else Check(t, CheckAll(t, s, js[..|js| - 1]), js[|js| - 1])
  }

  /** Running the checks of `a + b` is running those of `a`, then those of `b`. */
  lemma {:induction false} CheckAllAppend(t: Tree, s: State, a: seq<nat>, b: seq<nat>)
    requires WellFormed(t) && Sound(t, s) && Within(a, |t.nodes|) && Within(b, |t.nodes|)
    ensures Within(a + b, |t.nodes|)
    ensures CheckAll(t, s, a + b) == CheckAll(t, CheckAll(t, s, a), b)
    decreases |b|
  {
    assert Within(a + b, |t.nodes|) by {
      forall k | 0 <= k < |a + b| ensures (a + b)[k] < |t.nodes| {
        if k >= |a| {
          assert (a + b)[k] == b[k - |a|];
        }
      }
    }
    if b == [] {
      assert a + b == a;
    } else {
      var b' := b[..|b| - 1];
      assert (a + b)[..|a + b| - 1] == a + b';
      assert (a + b)[|a + b| - 1] == b[|b| - 1];
      CheckAllAppend(t, s, a, b');
    }
  }

  /**
   * The walk is exactly the checks of the dispatched nodes, run in dispatch
   * order: `Walked` is the order in which the handlers run.
   */
  lemma {:induction false} WalkIsCheckAll(t: Tree, s: State, i: nat)
    requires WellFormed(t) && i < |t.nodes| && Sound(t, s)
    ensures Walk(t, s, i) == CheckAll(t, s, Walked(t, i))
    decreases |t.nodes| - i, 2, 0
  {
    var n := t.nodes[i];
    CheckAllOne(t, s, i);
    if n.kind.Module? {
      var rest := ModuleWalked(t, i, n.children);
      ModuleIsCheckAll(t, i, s, n.children);
      CheckAllAppend(t, s, [i], rest);
      assert Walked(t, i) == [i] + rest;
      assert Walk(t, s, i) == WalkModule(t, i, s, n.children);
    } else {
      var rest := ChildrenWalked(t, i, n.children);
      ChildrenIsCheckAll(t, i, Check(t, s, i), n.children);
      CheckAllAppend(t, s, [i], rest);
      assert Walked(t, i) == [i] + rest;
      WalkDispatch(t, s, i);
    }
  }

  /** A single node's checks are its own check; a Module's own check changes nothing. */
  lemma CheckAllOne(t: Tree, s: State, i: nat)
    requires WellFormed(t) && i < |t.nodes| && Sound(t, s)
    ensures Within([i], |t.nodes|) && CheckAll(t, s, [i]) == Check(t, s, i)
    ensures t.nodes[i].kind.Module? ==> Check(t, s, i) == s
  {
    assert [i][..0] == [];
  }

  lemma {:induction false} ChildrenIsCheckAll(t: Tree, p: nat, s: State, cs: seq<nat>)
    requires WellFormed(t) && p < |t.nodes| && Sound(t, s) && Above(cs, p, |t.nodes|)
    ensures WalkChildren(t, p, s, cs) == CheckAll(t, s, ChildrenWalked(t, p, cs))
    decreases |t.nodes| - p, 1, |cs|
  {
    if cs != [] {
      var prefix, c := cs[..|cs| - 1], cs[|cs| - 1];
      ChildrenIsCheckAll(t, p, s, prefix);
      WalkIsCheckAll(t, WalkChildren(t, p, s, prefix), c);
      CheckAllAppend(t, s, ChildrenWalked(t, p, prefix), Walked(t, c));
    }
  }

  lemma {:induction false} ModuleIsCheckAll(t: Tree, m: nat, s: State, cs: seq<nat>)
    requires WellFormed(t) && m < |t.nodes| && Sound(t, s) && Above(cs, m, |t.nodes|)
    ensures WalkModule(t, m, s, cs) == CheckAll(t, s, ModuleWalked(t, m, cs))
    decreases |t.nodes| - m, 1, |cs|
  {
    if cs != [] {
      var prefix, c := cs[..|cs| - 1], cs[|cs| - 1];
      ModuleIsCheckAll(t, m, s, prefix);
      if IsDef(t.nodes[c].kind) {
        ChildrenIsCheckAll(t, c, WalkModule(t, m, s, prefix), t.nodes[c].children);
        CheckAllAppend(t, s, ModuleWalked(t, m, prefix), ChildrenWalked(t, c, t.nodes[c].children));
      } else {
        assert ModuleWalked(t, m, prefix) + [] == ModuleWalked(t, m, prefix);
      }
    }
  }

  /** Node `j` has a parent at index `lo` or above. */
  ghost predicate HasParentFrom(t: Tree, j: nat, lo: nat) {
    exists p :: lo <= p < |t.nodes| && j in t.nodes[p].children
  }

  /** Every dispatched node is the visited node itself or a child of a node at or after it. */
  lemma {:induction false} WalkedShape(t: Tree, i: nat)
    requires Ordered(t) && i < |t.nodes|
    ensures forall j :: j in Walked(t, i) ==> j == i || HasParentFrom(t, j, i)
    decreases |t.nodes| - i, 2, 0
  {
    var n := t.nodes[i];
    if n.kind.Module? {
      ModuleWalkedShape(t, i, n.children);
    } else {
      ChildrenWalkedShape(t, i, n.children);
    }
  }

  lemma {:induction false} ChildrenWalkedShape(t: Tree, p: nat, cs: seq<nat>)
    requires Ordered(t) && p < |t.nodes| && Above(cs, p, |t.nodes|)
    requires forall k :: 0 <= k < |cs| ==> cs[k] in t.nodes[p].children
    ensures forall j :: j in ChildrenWalked(t, p, cs) ==> HasParentFrom(t, j, p)
    decreases |t.nodes| - p, 1, |cs|
  {
    if cs != [] {
      var c := cs[|cs| - 1];
      ChildrenWalkedShape(t, p, cs[..|cs| - 1]);
      WalkedShape(t, c);
      forall j | j in Walked(t, c) ensures HasParentFrom(t, j, p) {
        if j == c {
          assert c in t.nodes[p].children;
        } else {
          var q :| c <= q < |t.nodes| && j in t.nodes[q].children;
          assert p <= q;
        }
      }
    }
  }

  lemma {:induction false} ModuleWalkedShape(t: Tree, m: nat, cs: seq<nat>)
    requires Ordered(t) && m < |t.nodes| && Above(cs, m, |t.nodes|)
    ensures forall j :: j in ModuleWalked(t, m, cs) ==> HasParentFrom(t, j, m + 1)
    decreases |t.nodes| - m, 1, |cs|
  {
    if cs != [] {
      var c := cs[|cs| - 1];
      ModuleWalkedShape(t, m, cs[..|cs| - 1]);
      if IsDef(t.nodes[c].kind) {
        ChildrenWalkedShape(t, c, t.nodes[c].children);
        forall j | j in ChildrenWalked(t, c, t.nodes[c].children) ensures HasParentFrom(t, j, m + 1) {
          var q :| c <= q < |t.nodes| && j in t.nodes[q].children;
        }
      }
    }
  }

  /**
   * No statement of a module is itself checked: the walk from the Module runs
   * the checks of the dispatched nodes only, and neither a top-level
   * definition (its own visitor never runs) nor any other module-level
   * statement is among them.
   */
  lemma ModuleStatementsNotDispatched(t: Tree, s: State, m: nat, stmt: nat)
    requires WellFormed(t) && UniqueParents(t) && m < |t.nodes| && Sound(t, s) && t.nodes[m].kind.Module?
    requires stmt in t.nodes[m].children
    ensures Walk(t, s, m) == CheckAll(t, s, Walked(t, m))
    ensures stmt !in Walked(t, m)
  {
    WalkIsCheckAll(t, s, m);
    ModuleWalkedShape(t, m, t.nodes[m].children);
    var k :| 0 <= k < |t.nodes[m].children| && t.nodes[m].children[k] == stmt;
    assert m < stmt;
  }

  lemma {:induction false} ChildrenWalkedHas(t: Tree, p: nat, cs: seq<nat>)
    requires Ordered(t) && p < |t.nodes| && Above(cs, p, |t.nodes|)
    ensures forall k :: 0 <= k < |cs| ==> cs[k] in ChildrenWalked(t, p, cs)
    decreases |cs|
  {
    if cs != [] {
      ChildrenWalkedHas(t, p, cs[..|cs| - 1]);
      assert Walked(t, cs[|cs| - 1])[0] == cs[|cs| - 1];
    }
  }

  /**
   * Visiting a node other than a Module runs the check of each of its
   * children, whatever its own check found: the order depends on the tree
   * alone.
   */
  lemma ChildrenDispatched(t: Tree, s: State, i: nat)
    requires WellFormed(t) && i < |t.nodes| && Sound(t, s) && !t.nodes[i].kind.Module?
    ensures Walk(t, s, i) == CheckAll(t, s, Walked(t, i))
    ensures forall k :: 0 <= k < |t.nodes[i].children| ==> t.nodes[i].children[k] in Walked(t, i)
  {
    WalkIsCheckAll(t, s, i);
    ChildrenWalkedHas(t, i, t.nodes[i].children);
  }

  lemma {:induction false} ModuleWalkedHas(t: Tree, m: nat, cs: seq<nat>)
    requires Ordered(t) && m < |t.nodes| && Above(cs, m, |t.nodes|)
    ensures forall k, d :: 0 <= k < |cs| && IsDef(t.nodes[cs[k]].kind) && d in t.nodes[cs[k]].children ==>
      d in ModuleWalked(t, m, cs)
    decreases |cs|
  {
    if cs != [] {
      var c := cs[|cs| - 1];
      ModuleWalkedHas(t, m, cs[..|cs| - 1]);
      ChildrenWalkedHas(t, c, t.nodes[c].children);
    }
  }

  /** From a Module, the check of every child of every top-level definition runs. */
  lemma DefinitionBodiesDispatched(t: Tree, s: State, m: nat)
    requires WellFormed(t) && m < |t.nodes| && Sound(t, s) && t.nodes[m].kind.Module?
    ensures Walk(t, s, m) == CheckAll(t, s, Walked(t, m))
    ensures forall c, d :: c in t.nodes[m].children && IsDef(t.nodes[c].kind) && d in t.nodes[c].children ==>
      d in Walked(t, m)
  {
    WalkIsCheckAll(t, s, m);
    ModuleWalkedHas(t, m, t.nodes[m].children);
  }

  /** Some node of `js` sits on line `l`. */
  ghost predicate LineOfSome(t: Tree, js: seq<nat>, l: nat) {
    exists j :: j in js && j < |t.nodes| && t.nodes[j].line == Some(l)
  }

  lemma LineOfSomeAppend(t: Tree, a: seq<nat>, b: seq<nat>, l: nat)
    requires LineOfSome(t, a, l) || LineOfSome(t, b, l)
    ensures LineOfSome(t, a + b, l)
  {
    var j :| (j in a || j in b) && j < |t.nodes| && t.nodes[j].line == Some(l);
    assert j in a + b;
  }

  /** Every line the walk adds to the ledger is the line of a node it dispatched. */
  lemma {:induction false} WalkLines(t: Tree, s: State, i: nat)
    requires WellFormed(t) && i < |t.nodes| && Sound(t, s)
    ensures forall l :: l in Walk(t, s, i).risks && l !in s.risks ==> LineOfSome(t, Walked(t, i), l)
    decreases |t.nodes| - i, 2, 0
  {
    var n := t.nodes[i];
    if n.kind.Module? {
      ModuleLines(t, i, s, n.children);
      forall l | l in Walk(t, s, i).risks && l !in s.risks ensures LineOfSome(t, Walked(t, i), l) {
        LineOfSomeAppend(t, [i], ModuleWalked(t, i, n.children), l);
      }
    } else {
      var before := Check(t, s, i);
      ChildrenLines(t, i, before, n.children);
      forall l | l in Walk(t, s, i).risks && l !in s.risks ensures LineOfSome(t, Walked(t, i), l) {
        if l in before.risks {
          assert i in [i] && t.nodes[i].line == Some(l);
        }
        LineOfSomeAppend(t, [i], ChildrenWalked(t, i, n.children), l);
      }
    }
  }

  lemma {:induction false} ChildrenLines(t: Tree, p: nat, s: State, cs: seq<nat>)
    requires WellFormed(t) && p < |t.nodes| && Sound(t, s) && Above(cs, p, |t.nodes|)
    ensures forall l :: l in WalkChildren(t, p, s, cs).risks && l !in s.risks ==>
      LineOfSome(t, ChildrenWalked(t, p, cs), l)
    decreases |t.nodes| - p, 1, |cs|
  {
    if cs != [] {
      var prefix, c := cs[..|cs| - 1], cs[|cs| - 1];
      var mid := WalkChildren(t, p, s, prefix);
      ChildrenLines(t, p, s, prefix);
      WalkLines(t, mid, c);
      forall l | l in WalkChildren(t, p, s, cs).risks && l !in s.risks
        ensures LineOfSome(t, ChildrenWalked(t, p, cs), l)
      {
        LineOfSomeAppend(t, ChildrenWalked(t, p, prefix), Walked(t, c), l);
      }
    }
  }

  lemma {:induction false} ModuleLines(t: Tree, m: nat, s: State, cs: seq<nat>)
    requires WellFormed(t) && m < |t.nodes| && Sound(t, s) && Above(cs, m, |t.nodes|)
    ensures forall l :: l in WalkModule(t, m, s, cs).risks && l !in s.risks ==>
      LineOfSome(t, ModuleWalked(t, m, cs), l)
    decreases |t.nodes| - m, 1, |cs|
  {
    if cs != [] {
      var prefix, c := cs[..|cs| - 1], cs[|cs| - 1];
      var mid := WalkModule(t, m, s, prefix);
      ModuleLines(t, m, s, prefix);
      var tailWalk := if IsDef(t.nodes[c].kind) then ChildrenWalked(t, c, t.nodes[c].children) else [];
      if IsDef(t.nodes[c].kind) {
        ChildrenLines(t, c, mid, t.nodes[c].children);
      }
      forall l | l in WalkModule(t, m, s, cs).risks && l !in s.risks
        ensures LineOfSome(t, ModuleWalked(t, m, cs), l)
      {
        LineOfSomeAppend(t, ModuleWalked(t, m, prefix), tailWalk, l);
      }
    }
  }
}
