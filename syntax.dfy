/**
 * The syntax tree the detector walks, as an arena: a node is identified by its
 * index, so Python's `id(node)` becomes that index and a binding that refers
 * back to its own assignment is just an edge to a smaller index.
 */
module Syntax {
  import opened Wrappers

  /** Binary operators; only `+` and `%` count as string building. */
  datatype Op = Add | Mod | OtherOp

  /** The node kinds the detector distinguishes; everything else is `Other`. */
  datatype Kind =
    | Name(id: string)
    | Constant
    | BinOp(op: Op)
    | JoinedStr
    | FormattedValue
    | Call
    | Attribute(attr: string)
    | Await
    | Assign(targets: nat)
    | FunctionDef
    | AsyncFunctionDef
    | ClassDef
    | Module
    | Other

  /**
   * A node: its kind, its child nodes in field order (for a BinOp left then
   * right, for a Call the callee first, for an Attribute or an Await the
   * value, for an Assign the targets then the value), its source line, and
   * the text `ast.unparse` gives for its subtree (None when rendering fails).
   */
  datatype Node = Node(kind: Kind, children: seq<nat>, line: Option<nat>, text: Option<string>)

  datatype Tree = Tree(nodes: seq<Node>)

  /** The detector's variable map: name -> index of the last assigned expression. */
  type Bindings = map<string, nat>

  /** Every child index names a node of the arena. */
  predicate Closed(t: Tree) {
    forall i, c :: 0 <= i < |t.nodes| && c in t.nodes[i].children ==> c < |t.nodes|
  }

  /** The `k`-th child of node `i`, which names a node of a closed arena. */
  function Child(t: Tree, i: nat, k: nat): (c: nat)
    requires Closed(t) && i < |t.nodes| && k < |t.nodes[i].children|
    ensures c < |t.nodes| && c in t.nodes[i].children
  {
    assert t.nodes[i].children[k] in t.nodes[i].children;
    t.nodes[i].children[k]
  }

  /** Every index of `cs` lies strictly between `p` and `n`. */
  predicate Above(cs: seq<nat>, p: nat, n: nat) {
    forall k :: 0 <= k < |cs| ==> p < cs[k] < n
  }

  /** Children come after their parent, so a walk down the tree terminates. */
  predicate Ordered(t: Tree) {
    Closed(t) && forall i :: 0 <= i < |t.nodes| ==> Above(t.nodes[i].children, i, |t.nodes|)
  }

  /** The fields Python's grammar guarantees for each kind. */
  predicate Shaped(n: Node) {
    match n.kind
    case BinOp(_) => |n.children| == 2
    case Attribute(_) => |n.children| == 1
    case Await => |n.children| == 1
    case Call => |n.children| >= 1
    case Assign(k) => k >= 1 && |n.children| == k + 1
    case _ => true
  }

  predicate WellShaped(t: Tree) {
    forall i :: 0 <= i < |t.nodes| ==> Shaped(t.nodes[i])
  }

  predicate WellFormed(t: Tree) {
    Ordered(t) && WellShaped(t)
  }

  /** No node has two parents: the arena is a forest. */
  predicate UniqueParents(t: Tree) {
    forall p, q, c ::
      0 <= p < |t.nodes| && 0 <= q < |t.nodes| && c in t.nodes[p].children && c in t.nodes[q].children
      ==> p == q
  }

  /** Every binding points at a node of the arena. */
  predicate BoundIn(t: Tree, vars: Bindings) {
    forall x :: x in vars ==> vars[x] < |t.nodes|
  }

  predicate IsDef(k: Kind) {
    k.FunctionDef? || k.AsyncFunctionDef? || k.ClassDef?
  }
}
