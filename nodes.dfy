/** Tokens, the operator priority table and the expression node record. */
module Nodes {

  datatype Option<T> = None | Some(value: T)

  /** Binary operators. `NoOp` is the empty operator that joins a value leaf
      or a scope node to its parent. */
  datatype Operation = Equal | Add | Sub | Mult | Div | Exp | NoOp

  /** Unary scopes: a plain parenthesis or a trigonometric function call. */
  datatype UnaryOperation = Paren | Sin | Cos | Tan

  /** What a node currently is: a value, a unary scope, a close-parenthesis
      marker, or a pending operand slot ("to be determined"). */
  datatype NodeType = Val | UnOp | CloseParen | Tbd

  /** The fixed priority table: `NoOp` and `Equal` bind loosest, `Exp` tightest. */
  function Priority(op: Operation): (p: nat)
    ensures p <= 3
    ensures p == 0 <==> op == NoOp || op == Equal
    ensures p == 1 <==> op == Add || op == Sub
    ensures p == 2 <==> op == Mult || op == Div
    ensures p == 3 <==> op == Exp
  {
    match op
    case NoOp => 0
    case Equal => 0
    case Add => 1
    case Sub => 1
    case Mult => 2
    case Div => 2
    case Exp => 3
  }

  /** One node of the expression tree. Nodes live in an arena (a sequence of
      nodes owned by the tree); `parent` and `children` are indices into it. */
  datatype Node = Node(
    kind: NodeType,
    value: Option<real>,
    parent: Option<nat>,
    opToParent: Operation,
    unOp: Option<UnaryOperation>,
    parenClosed: Option<bool>,
    children: seq<nat>)

  /** A node that has not been linked into a tree yet. */
  predicate Detached(n: Node) {
    n.parent.None? && n.children == []
  }

  /** A node with no value and no children: evaluation passes over it. */
  predicate Empty(n: Node) {
    n.value.None? && n.children == []
  }

  /** A value leaf: never empty, joined to its parent by no operator. */
  function ValueNode(v: real): (n: Node)
    ensures Detached(n) && !Empty(n)
    ensures n.kind == Val && n.value == Some(v)
    ensures n.opToParent == NoOp && n.unOp.None? && n.parenClosed.None?
  {
    Node(Val, Some(v), None, NoOp, None, None, [])
  }

  /** An edge node: an empty slot reached through `op`; it is a unary scope
      exactly when a scope tag is given, and pending otherwise. */
  function EdgeNode(op: Operation, u: Option<UnaryOperation>): (n: Node)
    ensures Detached(n) && Empty(n)
    ensures n.opToParent == op && n.unOp == u && n.parenClosed.None?
    ensures n.kind == UnOp <==> u.Some?
    ensures n.kind == Tbd <==> u.None?
  {
    Node(if u.Some? then UnOp else Tbd, None, None, op, u, None, [])
  }

  /** The marker a close-parenthesis leaves in the tree. */
  function CloseMarker(): (n: Node)
    ensures Detached(n) && Empty(n)
    ensures n.kind == CloseParen && n.opToParent == NoOp && n.unOp.None?
  {
    EdgeNode(NoOp, None).(kind := CloseParen)
  }
}
