# PySD SQL-injection detector, modelled in Dafny

PySD scans Python web projects for SQL-injection risks. Its core is
`SQLInjectDetector`, an `ast.NodeVisitor`. It walks a module's syntax tree
and records its findings in a ledger that maps a line number to a risk
description:

- an f-string with an interpolated value whose text holds a SQL keyword;
- a `+` or `%` expression that builds a string from variables and holds a
  SQL keyword;
- a call that matches one of four ordered rules: ORM abuse, SQL
  concatenation, an awaited async-driver call, or a raw execution method.

A line keeps at most one finding. A later finding on that line replaces the
stored one only when its priority is strictly higher. `get_risks` returns
the ledger sorted by line.

The model is split into these modules:

- `Syntax` is the tree as an arena. A node is identified by its index, which
  plays the part of Python's `id(node)`. Each node has a kind, its children,
  a line and the text `ast.unparse` gives for it.
- `Text` holds ASCII case mapping and the substring test.
- `Concat` defines what `_has_dynamic_concat` explores. The reached set is
  the least edge-closed set around a node, where a Name leads to the
  expression bound to it. The verdict follows from that set.
- `Rules` holds the description constants, the priority table, the keyword
  test, the f-string rule and the ordered raw-SQL rules.
- `Ledger` is `_add_risk` as a function on maps, plus the sorted report.
- `Walker` is a pure specification of the visit. It gives the state
  (variable map and ledger) after visiting a node, and the order in which
  nodes are dispatched. It proves the walk equals running the per-node
  checks in exactly that order.
- `Detector` is the detector itself, as a class with mutable fields. Its
  worklist search and its visitor methods are each proved equal to the
  specification functions. `Scan` is the per-file use in the scanner.
- `Scenarios` holds small trees taken from the sample application
  (`examples/sql_dataset.py`). It proves which of them are flagged.

One rule of the source can never fire during a walk. The docstring of
`_detect_raw_sql_risk` (`src/sql_detector.py:152-156`) lists an asynchronous
database driver risk, and the sample application awaits `db.execute(...)`
at `examples/sql_dataset.py:104`. But the async rule
(`src/sql_detector.py:174-181`) needs an `Await` node. `visit_Call` only
ever passes a `Call` node, and there is no `visit_Await`. The model follows
the code: `Detector.Report` proves that the async description never appears
in a scan.

## Model

| member | source | states |
|---|---|---|
| Rules.PriorityTable | src/sql_detector.py:15-28 | The table gives ORM abuse 4, concatenation and f-string 3, and async 2. Each of the five execution methods gets its own raw-SQL description at priority 1. The table's keys are exactly these nine descriptions. |
| Rules.RawDescNotBase | src/sql_detector.py:24-28 | No raw-SQL description equals a base description, so the loop that extends the table overwrites none of them. |
| Text.Occurs | src/sql_detector.py:135 | Python's `keyword in text`: true iff the pattern occurs at some offset of the text. |
| Text.Upper | src/sql_detector.py:134 | `str.upper`: same length, and each character is mapped to its upper case. |
| Text.Lower | src/sql_detector.py:163 | `str.lower`: same length, and each character is mapped to its lower case. |
| Text.CaseInsensitive | src/sql_detector.py:134-135 | Upper-casing gives the same text whether or not it was lower-cased first, and the other way round. So the keyword test and the ORM test do not depend on the source's letter case. |
| Text.CaseMapped | src/sql_detector.py:134-135 | Upper-cased text holds no lower-case letter, and lower-cased text no upper-case letter. |
| Rules.HasSqlKeyword | src/sql_detector.py:127-137 | True iff a node is given, its rendering succeeds, and one of the eight keywords occurs in the upper-cased rendering. |
| Rules.DetectFStringRisk | src/sql_detector.py:139-148 | Flagged iff the node is an f-string with at least one interpolated value and a SQL keyword. The line is the node's own line when flagged, None otherwise. |
| Rules.FStringNeedsRendering | src/sql_detector.py:139-148 | An f-string whose rendering fails is never flagged. |
| Rules.DetectRawSqlRisk | src/sql_detector.py:150-190 | Flagged iff the description is non-empty. Unflagged gives (False, None, ""). Flagged gives the node's own line and a description in the priority table. The async description only comes from an `Await` node. |
| Rules.FirstRuleWins | src/sql_detector.py:161-190 | The rules apply in order and the first match wins. Each of these is an iff: ORM abuse iff the ORM rule holds; concatenation iff the ORM rule fails and the concatenation rule holds; the awaited driver call iff the first two fail and it holds; a raw-SQL description iff the first three fail and the execution rule holds. The raw-SQL description names the called method. No finding iff no rule holds. |
| Rules.RenderFailure | src/sql_detector.py:162-171 | If the node's rendering fails, the ORM, concatenation and execution rules all fail. Only the awaited driver rule can report it. |
| Rules.NoKeywordFindings | src/sql_detector.py:170-188 | A node without a SQL keyword is reported, if at all, only as ORM abuse or as an awaited driver call. |
| Concat.Reached | src/sql_detector.py:95-123 | The reached set contains the start node, lies inside the tree, and is closed under the edges: operands and children, or a Name's binding. |
| Concat.ReachedLeast | src/sql_detector.py:95-123 | The reached set is contained in every edge-closed set that contains the start node. |
| Concat.OperandName | src/sql_detector.py:103-116 | A `+` or `%` with a Name operand is dynamic concatenation, whatever the name is bound to. |
| Concat.NoNameStatic | src/sql_detector.py:114-125 | If some closed set around the node holds no Name, the node is not dynamic concatenation. |
| Concat.NoConcatStatic | src/sql_detector.py:102-125 | If some closed set around the node holds no `+`, `%` or f-string, the node is not dynamic concatenation. |
| Detector.SqlInjectDetector.HasDynamicConcat | src/sql_detector.py:81-125 | The worklist returns exactly the reference verdict: no node gives false, otherwise some concatenation and some Name in the reached set. Every reached node is expanded exactly once, even through self-referential bindings. |
| Detector.SqlInjectDetector.Expand | src/sql_detector.py:102-123 | The flags are set iff the popped node is a Name, or a `+`/`%`/f-string. Only its successors are pushed, and every successor not yet expanded is pushed. A node other than a Name pushes exactly its children, in field order. A Name never pushes a binding that was already expanded. |
| Ledger.Record | src/sql_detector.py:192-209 | A missing or zero line, or an empty description, changes nothing. A new line is inserted. A seen line is replaced only by a strictly higher priority. No other line changes. |
| Ledger.RecordNeverLowers | src/sql_detector.py:199-205 | No line disappears from the ledger, and no line's priority drops. |
| Ledger.SameLineArbitration | src/sql_detector.py:199-209 | Of two findings on one fresh line, the strictly higher priority stays. On a tie, the first stays. |
| Detector.SqlInjectDetector.AddRisk | src/sql_detector.py:192-209 | The ledger becomes `Record` of the old ledger. The set of valid lines stays equal to the ledger's line set, and the variable map does not change. |
| Ledger.SortedRisks | src/sql_detector.py:245-252 | Lines are strictly ascending. Every entry comes from the ledger, and every ledger entry appears exactly once. |
| Detector.SqlInjectDetector.GetRisks | src/sql_detector.py:245-252 | The detector's report is strictly ascending by line, has one entry per ledger line, and each entry matches the ledger. |
| Walker.Bind | src/sql_detector.py:46-53 | A single plain-Name target binds that name to the assigned value and leaves the other names alone. Any other assignment leaves the map unchanged. |
| Walker.CheckFString | src/sql_detector.py:219-226 | The f-string check keeps the state sound and never lowers it. It leaves the variables alone and can add only the node's own line. |
| Walker.CheckBinOp | src/sql_detector.py:228-234 | The same guarantees for the BinOp check. |
| Walker.CheckCall | src/sql_detector.py:236-243 | The same guarantees for the call check. |
| Walker.FStringRecordsIff | src/sql_detector.py:219-226 | On an unflagged, non-zero line: the line is recorded iff the f-string rule holds, the finding is the f-string description, and otherwise the state is unchanged. |
| Walker.BinOpRecordsIff | src/sql_detector.py:228-234 | On an unflagged, non-zero line: the line is recorded iff the node is dynamic concatenation with a keyword, the finding is the concatenation description, and otherwise the state is unchanged. |
| Walker.CallRecordsIff | src/sql_detector.py:236-243 | On an unflagged, non-zero line: the line is recorded iff `_detect_raw_sql_risk` flags the node, the finding is its description, and otherwise the state is unchanged. |
| Walker.Check | src/sql_detector.py:46-243 | Dispatch by node kind. An f-string, BinOp or Call runs its check, an assignment binds, and any other kind runs nothing. Soundness is kept, the state never drops, and only the node's own line can be added. |
| Walker.Walk | src/sql_detector.py:211-243 | Visiting a node keeps the state sound and never drops it. The async description is never added. |
| Walker.WalkChildren | src/sql_detector.py:53-67 | `generic_visit` over a list of children keeps the state sound, never drops it, and never adds the async description. |
| Walker.WalkModule | src/sql_detector.py:211-217 | `visit_Module` over its statements keeps the state sound and never drops it. |
| Walker.CheckAll | src/sql_detector.py:219-243 | Running the checks of a list of nodes in order keeps the state sound and never drops it. |
| Walker.WalkIsCheckAll | src/sql_detector.py:211-243 | The walk from a node equals running the checks of exactly the nodes in `Walked`, in that order. So `Walked` is the walk's dispatch order. |
| Walker.ModuleStatementsNotDispatched | src/sql_detector.py:211-217 | The walk from a Module runs the checks of the `Walked` nodes only, and no top-level statement is among them. So neither a statement's own check nor `visit_FunctionDef` ever runs on it. |
| Walker.DefinitionBodiesDispatched | src/sql_detector.py:215-217 | The walk from a Module runs the checks of the `Walked` nodes, and every child of every top-level definition is among them. |
| Walker.ChildrenDispatched | src/sql_detector.py:53-67 | The walk from a node other than a Module runs the checks of the `Walked` nodes, and each of the node's children is among them. |
| Walker.WalkLines | src/sql_detector.py:219-243 | Every line a walk adds to the ledger is the line of some node the walk dispatched. |
| Detector.SqlInjectDetector.constructor | src/sql_detector.py:41-44 | A new detector has an empty variable map, no valid lines and an empty ledger. |
| Detector.SqlInjectDetector.Visit | src/sql_detector.py:211-243 | Dispatching a node leaves the detector in exactly the state `Walker.Walk` gives. |
| Detector.SqlInjectDetector.GenericVisit | src/sql_detector.py:53-67 | The generic descent leaves exactly the state `Walker.WalkChildren` gives. |
| Detector.SqlInjectDetector.VisitModule | src/sql_detector.py:211-217 | `visit_Module` leaves exactly the state `Walker.Walk` gives for the module. |
| Detector.SqlInjectDetector.VisitAssign | src/sql_detector.py:46-53 | `visit_Assign` leaves exactly the state `Walker.Walk` gives for the assignment. |
| Detector.SqlInjectDetector.VisitJoinedStr | src/sql_detector.py:219-226 | `visit_JoinedStr` leaves exactly the state `Walker.Walk` gives. |
| Detector.SqlInjectDetector.VisitBinOp | src/sql_detector.py:228-234 | `visit_BinOp` leaves exactly the state `Walker.Walk` gives. |
| Detector.SqlInjectDetector.VisitCall | src/sql_detector.py:236-243 | `visit_Call` leaves exactly the state `Walker.Walk` gives. |
| Detector.Scan | src/scanner.py:36-39 | A fresh detector's report on a tree is the sorted specification ledger. Lines are strictly ascending, and each description is in the table and is not the async one. Each line belongs to a dispatched node. |
| Detector.Report | src/scanner.py:36-38 | The same properties, stated on the specification walk. |
| Scenarios.PercentQueryFlagged | examples/sql_dataset.py:51-55 | An excerpt of the handler: a module holding a function whose only statement is `sql = "SELECT ... %s" % user_id`. It leaves out the decorator, the arguments and the other statements, so it does not cover the handler's other finding at line 58. For this excerpt the walk gives exactly one finding: SQL concatenation at line 55. |
| Scenarios.PercentQueryVisitAssign | examples/sql_dataset.py:55 | Visiting the assignment binds `sql` to the `%` expression, then records the concatenation finding at line 55. |
| Scenarios.PercentQueryVisitBinOp | examples/sql_dataset.py:55 | With `sql` bound, visiting the `%` expression records the finding, and its operands add nothing. |
| Scenarios.PercentQueryCheck | examples/sql_dataset.py:55 | The BinOp check alone records exactly line 55 with the concatenation description. |
| Scenarios.PercentQueryKeyword | examples/sql_dataset.py:55 | The rendering of the query holds the keyword SELECT. |
| Scenarios.PercentQueryBind | examples/sql_dataset.py:55 | The assignment binds exactly `sql` to the `%` expression. |
| Scenarios.LiteralFormatStatic | examples/sql_dataset.py:160 | `"response: %s" % 100` is not dynamic concatenation under any bindings, and its check records nothing. |
| Scenarios.LogMessageReaches | examples/sql_dataset.py:158 | The log-message `+` chain reaches the Names `str` and `user_id`, so under any bindings it is dynamic concatenation. |
| Scenarios.LogMessageConcat | examples/sql_dataset.py:158 | So the log message stays out of the ledger exactly when its rendering has no SQL keyword. |
| Scenarios.SelfReferenceReached | src/sql_detector.py:95-119 | For `x = x + "a"`, where the binding leads back to the expression that reads it, the search reaches just that expression and its two operands, and reports dynamic concatenation. |

## Left out

- `_check_web_decorator` (and so `visit_FunctionDef` and `visit_AsyncFunctionDef`) has no effect on the detector's state. Its loop only breaks or continues, and it stores nothing. The model treats those nodes with the generic descent, which is what their visitors do after the decorator check.
- `ast.parse` and `ast.unparse` are not modelled. The tree is given as an arena, and each node carries its rendering as text. A rendering that raises is `None`.
- Text.Upper, Text.Lower: these map ASCII letters only, not Python's full Unicode case mapping.
- A `JoinedStr` without `lineno` would make `_detect_f_string_risk` raise `AttributeError`. The model gives it no line instead, so nothing is recorded for it.
- Ledger.Record, Detector.SqlInjectDetector.AddRisk: `_add_risk` raises `KeyError` for a description outside the priority table. The model requires the description, and the stored one, to be in the table on the update path. Every caller in the detector meets this.
- `get_risks` round-trips the ledger through a set of pairs before sorting. The ledger already has one entry per line, so the model sorts the map's entries directly.
- `NodeVisitor`'s reflective dispatch (`visit_<ClassName>`) is modelled as a match on the node kind. Fields of a node are its children in field order.
- `sys.setrecursionlimit` and Python's recursion limit are not modelled. The walk is unbounded.
- `scan_py_file`'s file-size check, file reading, warnings filter and exception handling are file I/O and are not modelled. Neither is `scan_dir`'s directory walk and multiprocessing pool, nor `examples/main.py`'s printing. `Detector.Scan` covers only the detector part of one file's scan.
- Walker.ModuleStatementsNotDispatched covers a module's direct statements only. Nested statements reached through a definition are dispatched as usual.
- Scenarios.LogMessageConcat is stated as an equivalence. The model does not prove that the rendering of the log message on line 158 lacks every SQL keyword.
- The awaited-driver rule is modelled in `Rules.DetectRawSqlRisk`, but the walk can never trigger it, as explained above.
