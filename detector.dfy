/**
 * The detector object: a variable map and a risk ledger updated in place by
 * a recursive tree walk, and the worklist search behind every concatenation
 * verdict.
 */
module Detector {
  import opened Wrappers
  import opened Syntax
  import opened Concat
  import opened Rules
  import opened Ledger
  import opened Walker

  /** No index occurs twice in `s`. */
  ghost predicate Distinct(s: seq<nat>) {
    forall a, b :: 0 <= a < b < |s| ==> s[a] != s[b]
  }

  /**
   * Expanding `current` keeps the frontier invariant: every edge out of the
   * expanded nodes ends in an expanded node or on the stack.
   */
  lemma FrontierKept(t: Tree, vars: Bindings, visited: set<nat>, stack: seq<nat>, current: nat, next: seq<nat>)
    requires forall j, c :: j in visited && c in Succ(t, vars, j) ==> c in visited || c in stack + [current]
    requires forall c :: c in Succ(t, vars, current) ==> c in visited || c in next
    ensures forall j, c :: j in visited + {current} && c in Succ(t, vars, j) ==>
      c in visited + {current} || c in stack + next
  {
    forall j, c | j in visited + {current} && c in Succ(t, vars, j)
      ensures c in visited + {current} || c in stack + next
    {
      if j in visited {
        assert c in visited || c in stack + [current];
      }
    }
  }

  /** Expanding `current` adds its own kind to what the flags record. */
  lemma ExpandFlags(t: Tree, visited: set<nat>, current: nat, hasVar: bool, hasConcat: bool)
    requires hasVar <==> SomeName(t, visited)
    requires hasConcat <==> SomeConcat(t, visited)
    ensures hasVar || IsName(t, current) <==> SomeName(t, visited + {current})
    ensures hasConcat || IsConcat(t, current) <==> SomeConcat(t, visited + {current})
  {
  }

  /** What is pushed after expanding a reached node is reached too. */
  lemma NextReached(t: Tree, vars: Bindings, reached: set<nat>, stack: seq<nat>, current: nat, next: seq<nat>)
    requires ClosedUnder(t, vars, reached) && current in reached
    requires forall k :: 0 <= k < |stack| ==> stack[k] in reached
    requires forall c :: c in next ==> c in Succ(t, vars, current)
    ensures forall k :: 0 <= k < |stack + next| ==> (stack + next)[k] in reached
  {
    forall k | 0 <= k < |stack + next|
      ensures (stack + next)[k] in reached
    {
      if k >= |stack| {
        assert (stack + next)[k] == next[k - |stack|];
      }
    }
  }

  /** Appending a node not yet expanded keeps the expansion order duplicate-free. */
  lemma OrderGrows(order: seq<nat>, visited: set<nat>, current: nat)
    requires current !in visited
    requires Distinct(order) && forall j :: j in order <==> j in visited
    ensures Distinct(order + [current]) && forall j :: j in order + [current] <==> j in visited + {current}
  {
  }

  /**
   * The loop invariant of the worklist search: everything expanded or pending
   * is reached, the root is expanded or pending, every edge out of the
   * expanded nodes ends in an expanded or a pending node, the flags describe
   * the expanded nodes and `order` lists them once each.
   */
  ghost predicate Searching(t: Tree, vars: Bindings, root: nat, reached: set<nat>, visited: set<nat>,
                            stack: seq<nat>, order: seq<nat>, hasVar: bool, hasConcat: bool)
  {
    && visited <= reached
    && (forall k :: 0 <= k < |stack| ==> stack[k] in reached)
    && (root in visited || root in stack)
    && (forall j, c :: j in visited && c in Succ(t, vars, j) ==> c in visited || c in stack)
    && (hasVar <==> SomeName(t, visited))
    && (hasConcat <==> SomeConcat(t, visited))
    && Distinct(order) && (forall j :: j in order <==> j in visited)
  }

  /** Popping a node already expanded keeps the invariant. */
  lemma SearchSkip(t: Tree, vars: Bindings, root: nat, reached: set<nat>, visited: set<nat>,
                   stack: seq<nat>, current: nat, order: seq<nat>, hasVar: bool, hasConcat: bool)
    requires Searching(t, vars, root, reached, visited, stack + [current], order, hasVar, hasConcat)
    requires current in visited
    ensures Searching(t, vars, root, reached, visited, stack, order, hasVar, hasConcat)
  {
    assert forall k :: 0 <= k < |stack| ==> stack[k] == (stack + [current])[k];
  }

  /** Expanding a popped node that was not expanded before keeps the invariant. */
  lemma SearchExpand(t: Tree, vars: Bindings, root: nat, reached: set<nat>, visited: set<nat>,
                     stack: seq<nat>, current: nat, next: seq<nat>, order: seq<nat>, hasVar: bool, hasConcat: bool)
    requires Searching(t, vars, root, reached, visited, stack + [current], order, hasVar, hasConcat)
    requires ClosedUnder(t, vars, reached) && current !in visited
    requires forall c :: c in next ==> c in Succ(t, vars, current)
    requires forall c :: c in Succ(t, vars, current) ==> c in visited || c in next
    ensures Searching(t, vars, root, reached, visited + {current}, stack + next, order + [current],
                      hasVar || IsName(t, current), hasConcat || IsConcat(t, current))
  {
    assert (stack + [current])[|stack|] == current;
    assert forall k :: 0 <= k < |stack| ==> stack[k] == (stack + [current])[k];
    FrontierKept(t, vars, visited, stack, current, next);
    ExpandFlags(t, visited, current, hasVar, hasConcat);
    NextReached(t, vars, reached, stack, current, next);
    OrderGrows(order, visited, current);
    if root !in visited && root !in stack + next {
      assert root in stack + [current];
    }
  }

  /** With the stack empty, exactly the reached set has been expanded. */
  lemma SearchDone(t: Tree, vars: Bindings, root: nat, visited: set<nat>, order: seq<nat>, hasVar: bool, hasConcat: bool)
    requires Closed(t) && BoundIn(t, vars) && root < |t.nodes|
    requires Searching(t, vars, root, Reached(t, vars, root), visited, [], order, hasVar, hasConcat)
    ensures visited == Reached(t, vars, root)
  {
    assert ClosedUnder(t, vars, visited);
    ReachedLeast(t, vars, root, visited);
  }

  class SqlInjectDetector {
    var vars: Bindings
    var lines: set<nat>
    var risks: Risks

    /** The set of flagged lines is the key set of the ledger. */
    ghost predicate Valid()
      reads this
    {
      risks.Keys == lines
    }

    function Snapshot(): State
      reads this
    {
      State(vars, risks)
    }

    constructor()
      ensures Valid() && vars == map[] && lines == {} && risks == map[]
    {
      vars := map[];
      lines := {};
      risks := map[];
    }

    /**
     * `_has_dynamic_concat`: a depth-first worklist over the subtree and the
     * bound expressions of the Names it meets, each node expanded once. The
     * ghost `order` lists the expanded nodes: each once, and exactly the
     * reached set.
     */
    method HasDynamicConcat(t: Tree, node: Option<nat>) returns (r: bool, ghost order: seq<nat>)
      requires Closed(t) && WellShaped(t) && BoundIn(t, vars)
      requires node.Some? ==> node.value < |t.nodes|
      ensures r == DynamicConcat(t, vars, node)
      ensures node.Some? ==> Distinct(order) && forall j :: j in order <==> j in Reached(t, vars, node.value)
    {
      order := [];
      if node.None? {
        return false, order;
      }
      var root := node.value;
      ghost var reached := Reached(t, vars, root);
      var stack := [root];
      var hasVar, hasConcat := false, false;
      var visited: set<nat> := {};
      while stack != []
        invariant Searching(t, vars, root, reached, visited, stack, order, hasVar, hasConcat)
        decreases |t.nodes| - |visited|, |stack|
      {
        var current := stack[|stack| - 1];
        ghost var before := stack;
        stack := stack[..|stack| - 1];
        assert before == stack + [current];
        if current in visited {
          SearchSkip(t, vars, root, reached, visited, stack, current, order, hasVar, hasConcat);
          continue;
        }
        BelowSize(visited + {current}, |t.nodes|);
        var next, isName, isConcat := Expand(t, current, visited);
        SearchExpand(t, vars, root, reached, visited, stack, current, next, order, hasVar, hasConcat);
        hasVar := hasVar || isName;
        hasConcat := hasConcat || isConcat;
        visited := visited + {current};
        order := order + [current];
        stack := stack + next;
      }
      SearchDone(t, vars, root, visited, order, hasVar, hasConcat);
      r := hasConcat && hasVar;
    }

    /**
     * The branch on the popped node's type inside `_has_dynamic_concat`: a
     * `+` or `%` BinOp or a JoinedStr marks a concatenation, a Name marks a
     * variable and pushes its bound expression unless already expanded, and
     * every other node pushes its children (a BinOp its left then its right).
     */
    method Expand(t: Tree, current: nat, visited: set<nat>) returns (next: seq<nat>, isName: bool, isConcat: bool)
      requires Closed(t) && WellShaped(t) && current < |t.nodes|
      ensures isName <==> IsName(t, current)
      ensures isConcat <==> IsConcat(t, current)
      ensures forall c :: c in next ==> c in Succ(t, vars, current)
      ensures forall c :: c in Succ(t, vars, current) ==> c in visited || c in next
      ensures IsName(t, current) ==> forall c :: c in next ==> c !in visited
      ensures !IsName(t, current) ==> next == t.nodes[current].children
    {
      var n := t.nodes[current];
      isName, isConcat := false, false;
      match n.kind {
        case BinOp(op) =>
          if op == Add || op == Mod {
            isConcat := true;
          }
          next := [n.children[0], n.children[1]];
          assert next == n.children;
        case JoinedStr =>
          isConcat := true;
          next := n.children;
        case Name(id) =>
          isName := true;
          next := if id in vars && vars[id] !in visited then [vars[id]] else [];
        case _ =>
          next := n.children;
      }
    }

    /**
     * `_add_risk`: record `desc` at `line` unless the line is missing or
     * zero or the description empty; a line already flagged keeps its
     * finding unless the new one has strictly greater priority.
     */
    method AddRisk(line: Option<nat>, desc: string)
      requires Valid() && SafeLookup(risks, line, desc)
      modifies this
      ensures Valid() && risks == Record(old(risks), line, desc) && vars == old(vars)
    {
      if !Truthy(line) || desc == "" {
        return;
      }
      var l := line.value;
      if l in lines {
        var currentPriority := RiskPriority[desc];
        var oldPriority := RiskPriority[risks[l]];
        if currentPriority > oldPriority {
          risks := risks[l := desc];
        }
        return;
      }
      risks := risks[l := desc];
      lines := lines + {l};
    }

    /** `NodeVisitor.visit`: dispatch on the node's kind. */
    method Visit(t: Tree, i: nat)
      requires Valid() && WellFormed(t) && i < |t.nodes| && Sound(t, Snapshot())
      modifies this
      ensures Valid() && Snapshot() == Walk(t, old(Snapshot()), i)
      decreases |t.nodes| - i, 2
    {
      match t.nodes[i].kind
      case Module => VisitModule(t, i);
      case JoinedStr => VisitJoinedStr(t, i);
      case BinOp(_) => VisitBinOp(t, i);
      case Call => VisitCall(t, i);
      case Assign(_) => VisitAssign(t, i);
      case _ => GenericVisit(t, i);
    }

    /** `generic_visit`: visit every child in order. */
    method GenericVisit(t: Tree, i: nat)
      requires Valid() && WellFormed(t) && i < |t.nodes| && Sound(t, Snapshot())
      modifies this
      ensures Valid() && Snapshot() == WalkChildren(t, i, old(Snapshot()), t.nodes[i].children)
      decreases |t.nodes| - i, 0
    {
      var cs := t.nodes[i].children;
      var k := 0;
      while k < |cs|
        invariant 0 <= k <= |cs|
        invariant Valid() && Sound(t, Snapshot())
        invariant Snapshot() == WalkChildren(t, i, old(Snapshot()), cs[..k])
      {
        assert cs[..k + 1][..k] == cs[..k];
        Visit(t, cs[k]);
        k := k + 1;
      }
      assert cs[..k] == cs;
    }

    /** `visit_Module`: descend into top-level definitions only, skipping their own visitor. */
    method VisitModule(t: Tree, m: nat)
      requires Valid() && WellFormed(t) && m < |t.nodes| && Sound(t, Snapshot())
      requires t.nodes[m].kind.Module?
      modifies this
      ensures Valid() && Snapshot() == Walk(t, old(Snapshot()), m)
      decreases |t.nodes| - m, 1
    {
      var cs := t.nodes[m].children;
      var k := 0;
      while k < |cs|
        invariant 0 <= k <= |cs|
        invariant Valid() && Sound(t, Snapshot())
        invariant Snapshot() == WalkModule(t, m, old(Snapshot()), cs[..k])
      {
        WalkModuleStep(t, m, old(Snapshot()), cs, k);
        var child := cs[k];
        if IsDef(t.nodes[child].kind) {
          GenericVisit(t, child);
        }
        k := k + 1;
      }
      assert cs[..k] == cs;
    }

    /** `visit_Assign`: record a single plain-Name binding, then descend. */
    method VisitAssign(t: Tree, i: nat)
      requires Valid() && WellFormed(t) && i < |t.nodes| && Sound(t, Snapshot())
      requires t.nodes[i].kind.Assign?
      modifies this
      ensures Valid() && Snapshot() == Walk(t, old(Snapshot()), i)
      decreases |t.nodes| - i, 1
    {
      var n := t.nodes[i];
      if n.kind.targets == 1 && t.nodes[Child(t, i, 0)].kind.Name? {
        vars := vars[t.nodes[Child(t, i, 0)].kind.id := Child(t, i, 1)];
      }
      GenericVisit(t, i);
    }

    /** `visit_JoinedStr`: the f-string check, then descend. */
    method VisitJoinedStr(t: Tree, i: nat)
      requires Valid() && WellFormed(t) && i < |t.nodes| && Sound(t, Snapshot())
      requires t.nodes[i].kind.JoinedStr?
      modifies this
      ensures Valid() && Snapshot() == Walk(t, old(Snapshot()), i)
      decreases |t.nodes| - i, 1
    {
      PriorityTable();
      WalkDispatch(t, Snapshot(), i);
      ghost var checked := CheckFString(t, Snapshot(), i);
      var (hasRisk, line) := DetectFStringRisk(t, i);
      if hasRisk && Truthy(line) {
        AddRisk(line, FStringDesc);
      }
      assert Snapshot() == checked;
      GenericVisit(t, i);
    }

    /** `visit_BinOp`: dynamic concatenation with a SQL keyword, then descend. */
    method VisitBinOp(t: Tree, i: nat)
      requires Valid() && WellFormed(t) && i < |t.nodes| && Sound(t, Snapshot())
      requires t.nodes[i].kind.BinOp?
      modifies this
      ensures Valid() && Snapshot() == Walk(t, old(Snapshot()), i)
      decreases |t.nodes| - i, 1
    {
      PriorityTable();
      var concat;
      ghost var order;
      WalkDispatch(t, Snapshot(), i);
      ghost var checked := CheckBinOp(t, Snapshot(), i);
      concat, order := HasDynamicConcat(t, Some(i));
      if concat && HasSqlKeyword(t, Some(i)) {
        AddRisk(t.nodes[i].line, SqlConcatDesc);
      }
      assert Snapshot() == checked;
      GenericVisit(t, i);
    }

    /** `visit_Call`: the ordered call rules, then descend. */
    method VisitCall(t: Tree, i: nat)
      requires Valid() && WellFormed(t) && i < |t.nodes| && Sound(t, Snapshot())
      requires t.nodes[i].kind.Call?
      modifies this
      ensures Valid() && Snapshot() == Walk(t, old(Snapshot()), i)
      decreases |t.nodes| - i, 1
    {
      WalkDispatch(t, Snapshot(), i);
      ghost var checked := CheckCall(t, Snapshot(), i);
      var (hasRisk, line, desc) := DetectRawSqlRisk(t, vars, Some(i));
      if hasRisk && Truthy(line) {
        AddRisk(line, desc);
      }
      assert Snapshot() == checked;
      GenericVisit(t, i);
    }

    /** `get_risks`: every ledger entry exactly once, in ascending line order. */
    function GetRisks(): (r: seq<(nat, string)>)
      reads this
      ensures StrictlyAscending(r) && |r| == |risks|
      ensures forall k :: 0 <= k < |r| ==> r[k].0 in risks && risks[r[k].0] == r[k].1
    {
      SortedRisks(risks)
    }
  }

  /**
   * One file's scan: a fresh detector visits the root and reports its
   * ledger sorted by line. Lines are unique and ascending, every finding is
   * at the line of a node the walk dispatched, and the async-driver finding
   * never appears.
   */
  method Scan(t: Tree) returns (r: seq<(nat, string)>)
    requires WellFormed(t) && |t.nodes| > 0
    ensures r == SortedRisks(Walk(t, State(map[], map[]), 0).risks)
    ensures StrictlyAscending(r)
    ensures forall k :: 0 <= k < |r| ==> r[k].1 in RiskPriority && r[k].1 != AsyncDesc
    ensures forall k :: 0 <= k < |r| ==> LineOfSome(t, Walked(t, 0), r[k].0)
  {
    var detector := new SqlInjectDetector();
    detector.Visit(t, 0);
    r := detector.GetRisks();
    Report(t);
  }

  /**
   * What a scan of one tree reports: lines unique and ascending, every
   * description a known one other than the async-driver finding, every line
   * that of a dispatched node.
   */
  lemma Report(t: Tree)
    requires WellFormed(t) && |t.nodes| > 0
    ensures var r := SortedRisks(Walk(t, State(map[], map[]), 0).risks);
      && StrictlyAscending(r)
      && (forall k :: 0 <= k < |r| ==> r[k].1 in RiskPriority && r[k].1 != AsyncDesc)
      && (forall k :: 0 <= k < |r| ==> LineOfSome(t, Walked(t, 0), r[k].0))
  {
    var final := Walk(t, State(map[], map[]), 0);
    var r := SortedRisks(final.risks);
    WalkLines(t, State(map[], map[]), 0);
    forall k | 0 <= k < |r|
      ensures r[k].1 in RiskPriority && r[k].1 != AsyncDesc && LineOfSome(t, Walked(t, 0), r[k].0)
    {
      assert r[k].0 in final.risks && final.risks[r[k].0] == r[k].1;
    }
  }
}
