/** Expressions entered token by token, as the driver script does, and the
    value the finished tree evaluates to. Every tree starts from the driver's
    head: an open parenthesis scope. */
module Examples {
  import opened Nodes
  import opened Arena
  import opened Evaluation
  import opened Tree

  /** The head the driver script starts from. */
  function Head(): Node {
    EdgeNode(NoOp, Some(Paren))
  }

  /** A value leaf as the builder links it. */
  function Leaf(v: real, p: nat, op: Operation, children: seq<nat>): Node {
    Node(Val, Some(v), Some(p), op, None, None, children)
  }

  /** `a op1 b op2 c`, token by token. */
  function Chain(a: real, op1: Operation, b: real, op2: Operation, c: real): Build {
    AfterPutValue(AfterAppendOp(AfterPutValue(AfterAppendOp(
      AfterPutValue(Start(Head()), a), op1), b), op2), c)
  }

  /** `a op1 b`: the first operand hangs under the head, the second under it. */
  lemma ChainPrefix(a: real, op1: Operation, b: real)
    requires Priority(op1) > 0
    ensures AfterPutValue(AfterAppendOp(AfterPutValue(Start(Head()), a), op1), b)
      == Build([Head().(children := [1]), Leaf(a, 0, NoOp, [2]), Leaf(b, 1, op1, [])], 2)
  {
    var s1 := AfterPutValue(Start(Head()), a);
    assert |s1.nodes| == 2 && s1.last == 1 && s1.nodes[1] == Leaf(a, 0, NoOp, []);
    var s2 := AfterAppendOp(s1, op1);
    assert AttachPoint(s1.nodes, 1, op1) == 1;
    assert |s2.nodes| == 3 && s2.last == 2 && s2.nodes[0] == Head().(children := [1]);
    assert s2.nodes[1] == Leaf(a, 0, NoOp, [2]) && s2.nodes[2] == EdgeNode(op1, None).(parent := Some(1));
    var s3 := AfterPutValue(s2, b);
    assert |s3.nodes| == 3 && s3.nodes[2] == Leaf(b, 1, op1, []);
  }

  /** The arena of `a op1 b op2 c` when `op2` binds no tighter than `op1`:
      both right operands are children of `a`. */
  function FlatArena(a: real, op1: Operation, b: real, op2: Operation, c: real): seq<Node> {
    [Head().(children := [1]), Leaf(a, 0, NoOp, [2, 3]), Leaf(b, 1, op1, []), Leaf(c, 1, op2, [])]
  }

  /** The arena of `a op1 b op2 c` when `op2` binds tighter: `c` hangs under `b`. */
  function NestedArena(a: real, op1: Operation, b: real, op2: Operation, c: real): seq<Node> {
    [Head().(children := [1]), Leaf(a, 0, NoOp, [2]), Leaf(b, 1, op1, [3]), Leaf(c, 2, op2, [])]
  }

  lemma FlatChainBuilds(a: real, op1: Operation, b: real, op2: Operation, c: real)
    requires 0 < Priority(op2) <= Priority(op1)
    ensures Chain(a, op1, b, op2, c).nodes == FlatArena(a, op1, b, op2, c)
  {
    ChainPrefix(a, op1, b);
    var s3 := AfterPutValue(AfterAppendOp(AfterPutValue(Start(Head()), a), op1), b);
    var s4 := AfterAppendOp(s3, op2);
    assert AttachPoint(s3.nodes, 2, op2) == AttachPoint(s3.nodes, 1, op2) == 1;
    assert |s4.nodes| == 4 && s4.last == 3 && s4.nodes[1] == Leaf(a, 0, NoOp, [2, 3]);
    assert s4.nodes[3] == EdgeNode(op2, None).(parent := Some(1));
    var s5 := AfterPutValue(s4, c);
    assert |s5.nodes| == 4 && s5.nodes[3] == Leaf(c, 1, op2, []);
  }

  lemma NestedChainBuilds(a: real, op1: Operation, b: real, op2: Operation, c: real)
    requires 0 < Priority(op1) < Priority(op2)
    ensures Chain(a, op1, b, op2, c).nodes == NestedArena(a, op1, b, op2, c)
  {
    ChainPrefix(a, op1, b);
    var s3 := AfterPutValue(AfterAppendOp(AfterPutValue(Start(Head()), a), op1), b);
    var s4 := AfterAppendOp(s3, op2);
    assert AttachPoint(s3.nodes, 2, op2) == 2;
    assert |s4.nodes| == 4 && s4.last == 3 && s4.nodes[2] == Leaf(b, 1, op1, [3]);
    assert s4.nodes[3] == EdgeNode(op2, None).(parent := Some(2));
    var s5 := AfterPutValue(s4, c);
    assert |s5.nodes| == 4 && s5.nodes[3] == Leaf(c, 2, op2, []);
  }

  lemma FlatChainValue(ar: Arith, a: real, op1: Operation, b: real, op2: Operation, c: real)
    requires WellFormed(FlatArena(a, op1, b, op2, c))
    ensures Eval(ar, FlatArena(a, op1, b, op2, c), 0) == Success(Combine(ar, op2, Combine(ar, op1, a, b), c))
  {
    var e := FlatArena(a, op1, b, op2, c);
    assert [1][..0] == [] && [2, 3][..1] == [2] && [2][..0] == [];
    assert e[3].children == [] && e[2].children == [] && e[1].children == [2, 3] && e[0].children == [1];
    assert Eval(ar, e, 2) == Success(b) && Eval(ar, e, 3) == Success(c);
    assert Fold(ar, e, 1, [], Some(a)) == Success(Some(a));
    assert Fold(ar, e, 1, [2], Some(a)) == Success(Some(Combine(ar, op1, a, b)));
    assert Eval(ar, e, 1) == Success(Combine(ar, op2, Combine(ar, op1, a, b), c));
    assert Fold(ar, e, 0, [], None) == Success(None);
  }

  lemma NestedChainValue(ar: Arith, a: real, op1: Operation, b: real, op2: Operation, c: real)
    requires WellFormed(NestedArena(a, op1, b, op2, c))
    ensures Eval(ar, NestedArena(a, op1, b, op2, c), 0) == Success(Combine(ar, op1, a, Combine(ar, op2, b, c)))
  {
    var e := NestedArena(a, op1, b, op2, c);
    assert [1][..0] == [] && [2][..0] == [] && [3][..0] == [];
    assert e[3].children == [] && e[2].children == [3] && e[1].children == [2] && e[0].children == [1];
    assert Eval(ar, e, 3) == Success(c);
    assert !Empty(e[3]) && e[3].opToParent == op2;
    assert Fold(ar, e, 2, [], Some(b)) == Success(Some(b));
    assert Fold(ar, e, 2, [3], Some(b)) == Success(Some(Combine(ar, op2, b, c)));
    assert Eval(ar, e, 2) == Success(Combine(ar, op2, b, c));
    assert Fold(ar, e, 1, [], Some(a)) == Success(Some(a));
    assert Eval(ar, e, 1) == Success(Combine(ar, op1, a, Combine(ar, op2, b, c)));
    assert Fold(ar, e, 0, [], None) == Success(None);
  }

  /** An operator that binds no tighter than the one before it climbs back
      over it: `a op1 b op2 c` is `(a op1 b) op2 c`. */
  lemma LeftToRight(ar: Arith, a: real, op1: Operation, b: real, op2: Operation, c: real)
    requires 0 < Priority(op2) <= Priority(op1)
    ensures Eval(ar, Chain(a, op1, b, op2, c).nodes, 0) == Success(Combine(ar, op2, Combine(ar, op1, a, b), c))
  {
    FlatChainBuilds(a, op1, b, op2, c);
    FlatChainValue(ar, a, op1, b, op2, c);
  }

  /** An operator that binds tighter than the one before it stays under it:
      `a op1 b op2 c` is `a op1 (b op2 c)`. */
  lemma TighterFirst(ar: Arith, a: real, op1: Operation, b: real, op2: Operation, c: real)
    requires 0 < Priority(op1) < Priority(op2)
    ensures Eval(ar, Chain(a, op1, b, op2, c).nodes, 0) == Success(Combine(ar, op1, a, Combine(ar, op2, b, c)))
  {
    NestedChainBuilds(a, op1, b, op2, c);
    NestedChainValue(ar, a, op1, b, op2, c);
  }

  /** `4 + 3 * 2` is 10. */
  lemma AddThenMult(ar: Arith)
    ensures Eval(ar, Chain(4.0, Add, 3.0, Mult, 2.0).nodes, 0) == Success(10.0)
  {
    TighterFirst(ar, 4.0, Add, 3.0, Mult, 2.0);
  }

  /** `2 - 3 - 4` is -5. */
  lemma SubChain(ar: Arith)
    ensures Eval(ar, Chain(2.0, Sub, 3.0, Sub, 4.0).nodes, 0) == Success(-5.0)
  {
    LeftToRight(ar, 2.0, Sub, 3.0, Sub, 4.0);
  }

  /** `2 ^ 3 ^ 2` is `(2 ^ 3) ^ 2`: power is left-associative too. */
  lemma ExpChain(ar: Arith)
    ensures Eval(ar, Chain(2.0, Exp, 3.0, Exp, 2.0).nodes, 0) == Success(ar.pow(ar.pow(2.0, 3.0), 2.0))
  {
    LeftToRight(ar, 2.0, Exp, 3.0, Exp, 2.0);
  }

  /** `a op u(b)`, closed, token by token. */
  function Scoped(a: real, op: Operation, u: UnaryOperation, b: real): Build {
    AfterCloseParen(AfterPutValue(AfterAppendUnaryOp(AfterAppendOp(
      AfterPutValue(Start(Head()), a), op), u), b))
  }

  /** The arena of `a op u(b)` once closed: the scope hangs under the `op`
      slot, holding `b` and the close marker. */
  function ScopedArena(a: real, op: Operation, u: UnaryOperation, b: real): seq<Node> {
    [ Head().(children := [1]),
      Leaf(a, 0, NoOp, [2]),
      EdgeNode(op, None).(parent := Some(1), children := [3]),
      EdgeNode(NoOp, Some(u)).(parent := Some(2), parenClosed := Some(true), children := [4, 5]),
      Leaf(b, 3, NoOp, []),
      CloseMarker().(parent := Some(3)) ]
  }

  /** `a op u(`: the scope opens under the `op` slot. */
  lemma ScopedPrefix(a: real, op: Operation, u: UnaryOperation)
    requires Priority(op) > 0
    ensures var e := ScopedArena(a, op, u, 0.0);
      AfterAppendUnaryOp(AfterAppendOp(AfterPutValue(Start(Head()), a), op), u)
        == Build([e[0], e[1], e[2], e[3].(parenClosed := Some(false), children := [])], 3)
  {
    var e := ScopedArena(a, op, u, 0.0);
    var s1 := AfterPutValue(Start(Head()), a);
    assert |s1.nodes| == 2 && s1.last == 1 && s1.nodes[1] == Leaf(a, 0, NoOp, []);
    var s2 := AfterAppendOp(s1, op);
    assert AttachPoint(s1.nodes, 1, op) == 1;
    assert |s2.nodes| == 3 && s2.last == 2 && s2.nodes[0] == e[0] && s2.nodes[1] == e[1];
    assert s2.nodes[2] == EdgeNode(op, None).(parent := Some(1));
    var s3 := AfterAppendUnaryOp(s2, u);
    assert |s3.nodes| == 4 && s3.nodes[2] == e[2];
    assert s3.nodes[3] == e[3].(parenClosed := Some(false), children := []);
  }

  /** `a op u(b`: `b` lands inside the open scope. */
  lemma ScopedOpen(a: real, op: Operation, u: UnaryOperation, b: real)
    requires Priority(op) > 0
    ensures var e := ScopedArena(a, op, u, b);
      AfterPutValue(AfterAppendUnaryOp(AfterAppendOp(AfterPutValue(Start(Head()), a), op), u), b)
        == Build([e[0], e[1], e[2], e[3].(parenClosed := Some(false), children := [4]), e[4]], 4)
  {
    var e := ScopedArena(a, op, u, b);
    ScopedPrefix(a, op, u);
    var s3 := AfterAppendUnaryOp(AfterAppendOp(AfterPutValue(Start(Head()), a), op), u);
    assert |s3.nodes| == 4 && s3.last == 3 && s3.nodes[0] == e[0] && s3.nodes[1] == e[1] && s3.nodes[2] == e[2];
    assert s3.nodes[3] == e[3].(parenClosed := Some(false), children := []);
    var s4 := AfterPutValue(s3, b);
    assert |s4.nodes| == 5 && s4.last == 4 && s4.nodes[4] == e[4];
    assert s4.nodes[3] == e[3].(parenClosed := Some(false), children := [4]);
  }

  lemma ScopedBuilds(a: real, op: Operation, u: UnaryOperation, b: real)
    requires Priority(op) > 0
    ensures Scoped(a, op, u, b) == Build(ScopedArena(a, op, u, b), 2)
  {
    var e := ScopedArena(a, op, u, b);
    ScopedOpen(a, op, u, b);
    var s4 := Build([e[0], e[1], e[2], e[3].(parenClosed := Some(false), children := [4]), e[4]], 4);
    assert OpenScope(s4.nodes, 4) == Some(3);
    assert MarkerHolder(s4) == 3;
    var s5 := AfterCloseParen(s4);
    assert |s5.nodes| == 6 && s5.last == 2 && s5.nodes[5] == e[5] && s5.nodes[3] == e[3];
    assert s5.nodes[0] == e[0] && s5.nodes[1] == e[1] && s5.nodes[2] == e[2] && s5.nodes[4] == e[4];
  }

  lemma ScopedValue(ar: Arith, a: real, op: Operation, u: UnaryOperation, b: real)
    requires WellFormed(ScopedArena(a, op, u, b))
    ensures Eval(ar, ScopedArena(a, op, u, b), 0) == Success(Combine(ar, op, a, ApplyUnary(ar, Some(u), b)))
  {
    var e := ScopedArena(a, op, u, b);
    var v := ApplyUnary(ar, Some(u), b);
    assert [1][..0] == [] && [2][..0] == [] && [3][..0] == [] && [4, 5][..1] == [4] && [4][..0] == [];
    assert e[0].children == [1] && e[1].children == [2] && e[2].children == [3] && e[3].children == [4, 5];
    assert Eval(ar, e, 4) == Success(b) && Empty(e[5]);
    assert Fold(ar, e, 3, [], None) == Success(None);
    assert Fold(ar, e, 3, [4], None) == Success(Some(b));
    assert Eval(ar, e, 3) == Success(v);
    assert Fold(ar, e, 2, [], None) == Success(None);
    assert Eval(ar, e, 2) == Success(v);
    assert Fold(ar, e, 1, [], Some(a)) == Success(Some(a));
    assert Eval(ar, e, 1) == Success(Combine(ar, op, a, v));
    assert Fold(ar, e, 0, [], None) == Success(None);
  }

  /** A closed scope is one operand: after `a op u(b)` the scope is closed,
      the cursor is back on the `op` slot, and the tree is `a op u(b)`; the
      close marker left inside the scope does not count. */
  lemma ClosedScopeIsOperand(ar: Arith, a: real, op: Operation, u: UnaryOperation, b: real)
    requires Priority(op) > 0
    ensures var s := Scoped(a, op, u, b);
      && s.last == 2 && s.nodes[2].opToParent == op && s.nodes[3].parenClosed == Some(true)
      && Eval(ar, s.nodes, 0) == Success(Combine(ar, op, a, ApplyUnary(ar, Some(u), b)))
  {
    ScopedBuilds(a, op, u, b);
    ScopedValue(ar, a, op, u, b);
  }

  /** `u(b)`, token by token, and the state one more close then starts from. */
  function Grouped(u: UnaryOperation, b: real): Build {
    AfterCloseParen(AfterPutValue(AfterAppendUnaryOp(Start(Head()), u), b))
  }

  /** The arena of `u(b))`: two close markers, and the head closed as well. */
  function OverClosedArena(u: UnaryOperation, b: real): seq<Node> {
    [ Head().(parenClosed := Some(true), children := [1, 4]),
      EdgeNode(NoOp, Some(u)).(parent := Some(0), parenClosed := Some(true), children := [2, 3]),
      Leaf(b, 1, NoOp, []),
      CloseMarker().(parent := Some(1)),
      CloseMarker().(parent := Some(0)) ]
  }

  /** `u(b`: `b` lands inside the open scope. */
  lemma GroupedOpen(u: UnaryOperation, b: real)
    ensures var e := OverClosedArena(u, b);
      AfterPutValue(AfterAppendUnaryOp(Start(Head()), u), b)
        == Build([e[0].(parenClosed := None, children := [1]), e[1].(parenClosed := Some(false), children := [2]), e[2]], 2)
  {
    var e := OverClosedArena(u, b);
    var s1 := AfterAppendUnaryOp(Start(Head()), u);
    assert |s1.nodes| == 2 && s1.last == 1 && s1.nodes[0] == e[0].(parenClosed := None, children := [1]);
    assert s1.nodes[1] == e[1].(parenClosed := Some(false), children := []);
    var s2 := AfterPutValue(s1, b);
    assert |s2.nodes| == 3 && s2.last == 2 && s2.nodes[2] == e[2];
    assert s2.nodes[1] == e[1].(parenClosed := Some(false), children := [2]);
  }

  lemma GroupedBuilds(u: UnaryOperation, b: real)
    ensures var e := OverClosedArena(u, b);
      Grouped(u, b) == Build([e[0].(parenClosed := None, children := [1]), e[1], e[2], e[3]], 0)
  {
    var e := OverClosedArena(u, b);
    GroupedOpen(u, b);
    var s2 := Build([e[0].(parenClosed := None, children := [1]), e[1].(parenClosed := Some(false), children := [2]), e[2]], 2);
    assert OpenScope(s2.nodes, 2) == Some(1);
    assert MarkerHolder(s2) == 1;
    var s3 := AfterCloseParen(s2);
    assert |s3.nodes| == 4 && s3.last == 0 && s3.nodes[3] == e[3] && s3.nodes[1] == e[1];
    assert s3.nodes[0] == e[0].(parenClosed := None, children := [1]) && s3.nodes[2] == e[2];
  }

  /** `u(b))`: the second close finds the cursor on the head, so its marker
      goes under the head itself (the error path); the head's flag was never
      set, so the head counts as an open scope and is the one closed. The
      value is still `u(b)`. */
  lemma ExtraClose(ar: Arith, u: UnaryOperation, b: real)
    ensures Grouped(u, b).nodes[Grouped(u, b).last].parent.None?
    ensures var s := AfterCloseParen(Grouped(u, b));
      && MarkerHolder(Grouped(u, b)) == 0 && s.last == 0 && s.nodes[0].parenClosed == Some(true)
      && Eval(ar, s.nodes, 0) == Success(ApplyUnary(ar, Some(u), b))
  {
    GroupedBuilds(u, b);
    OverClosedBuilds(u, b, Grouped(u, b));
    OverClosedValue(ar, u, b);
  }

  /** The second close of `u(b))`, from the state the first one leaves. */
  lemma OverClosedBuilds(u: UnaryOperation, b: real, s: Build)
    requires Consistent(s.nodes, s.last)
    requires var e := OverClosedArena(u, b);
      s == Build([e[0].(parenClosed := None, children := [1]), e[1], e[2], e[3]], 0)
    ensures AfterCloseParen(s) == Build(OverClosedArena(u, b), 0)
  {
    var e := OverClosedArena(u, b);
    assert OpenScope(s.nodes, 0) == Some(0);
    assert MarkerHolder(s) == 0;
    var r := AfterCloseParen(s);
    assert |r.nodes| == 5 && r.nodes[4] == e[4] && r.nodes[0] == e[0];
    assert r.nodes[1] == e[1] && r.nodes[2] == e[2] && r.nodes[3] == e[3];
    assert r.nodes == e && r.last == 0;
  }

  lemma OverClosedValue(ar: Arith, u: UnaryOperation, b: real)
    requires WellFormed(OverClosedArena(u, b))
    ensures Eval(ar, OverClosedArena(u, b), 0) == Success(ApplyUnary(ar, Some(u), b))
  {
    var e := OverClosedArena(u, b);
    var v := ApplyUnary(ar, Some(u), b);
    assert [1, 4][..1] == [1] && [1][..0] == [] && [2, 3][..1] == [2] && [2][..0] == [];
    assert e[0].children == [1, 4] && e[1].children == [2, 3];
    assert Eval(ar, e, 2) == Success(b) && Empty(e[3]) && Empty(e[4]);
    assert Fold(ar, e, 1, [], None) == Success(None);
    assert Fold(ar, e, 1, [2], None) == Success(Some(b));
    assert Eval(ar, e, 1) == Success(v);
    assert Fold(ar, e, 0, [], None) == Success(None);
    assert Fold(ar, e, 0, [1], None) == Success(Some(v));
  }

  /** The arena of `u(op`: an operator slot that never got its operand. */
  function DanglingArena(u: UnaryOperation, op: Operation): seq<Node> {
    [ Head().(children := [1]),
      EdgeNode(NoOp, Some(u)).(parent := Some(0), parenClosed := Some(false), children := [2]),
      EdgeNode(op, None).(parent := Some(1)) ]
  }

  lemma DanglingBuilds(u: UnaryOperation, op: Operation)
    requires Priority(op) > 0
    ensures AfterAppendOp(AfterAppendUnaryOp(Start(Head()), u), op) == Build(DanglingArena(u, op), 2)
  {
    var e := DanglingArena(u, op);
    var s1 := AfterAppendUnaryOp(Start(Head()), u);
    assert |s1.nodes| == 2 && s1.last == 1 && s1.nodes[0] == e[0];
    assert s1.nodes[1] == e[1].(children := []);
    var s2 := AfterAppendOp(s1, op);
    assert AttachPoint(s1.nodes, 1, op) == 1;
    assert |s2.nodes| == 3 && s2.last == 2 && s2.nodes[0] == e[0] && s2.nodes[1] == e[1] && s2.nodes[2] == e[2];
  }

  lemma DanglingValue(ar: Arith, u: UnaryOperation, op: Operation)
    requires WellFormed(DanglingArena(u, op))
    ensures Eval(ar, DanglingArena(u, op), 0) == Failure(EmptyOperand)
  {
    var e := DanglingArena(u, op);
    assert e[0].children == [1] && e[1].children == [2] && Empty(e[2]) && e[1].value.None?;
    assert [1][..0] == [] && [2][..0] == [];
    assert Fold(ar, e, 1, [], None) == Success(None);
    assert Eval(ar, e, 1) == Failure(EmptyOperand);
    assert Fold(ar, e, 0, [], None) == Success(None);
  }

  /** `u(op`: the slot after an operator is never filled, so the scope above
      it ends its fold with no value. */
  lemma DanglingOperator(ar: Arith, u: UnaryOperation, op: Operation)
    requires Priority(op) > 0
    ensures Eval(ar, AfterAppendOp(AfterAppendUnaryOp(Start(Head()), u), op).nodes, 0) == Failure(EmptyOperand)
  {
    DanglingBuilds(u, op);
    DanglingValue(ar, u, op);
  }

  /** `)` on a childless head holding `v`: the marker gives the head a child,
      so evaluation takes the fold path and applies the head's scope
      function, where before it returned `v` as it was. */
  lemma RootCloseAppliesScope(ar: Arith, u: UnaryOperation, v: real)
    ensures var head := EdgeNode(NoOp, Some(u)).(value := Some(v));
      && Eval(ar, Start(head).nodes, 0) == Success(v)
      && Eval(ar, AfterCloseParen(Start(head)).nodes, 0) == Success(ApplyUnary(ar, Some(u), v))
  {
    var head := EdgeNode(NoOp, Some(u)).(value := Some(v));
    var s := Start(head);
    assert OpenScope(s.nodes, 0) == Some(0) && MarkerHolder(s) == 0;
    var e := AfterCloseParen(s).nodes;
    assert |e| == 2 && e[0].children == [1] && Empty(e[1]) && e[0].value == Some(v) && e[0].unOp == Some(u);
    assert [1][..0] == [];
    assert Fold(ar, e, 0, [], Some(v)) == Success(Some(v));
  }
}
