# Arithmetic expression tree, modelled in Dafny

The Swift program `Contents.swift` builds an arithmetic expression tree one
token at a time (a value, a binary operator, a unary scope `(`, `sin(`,
`cos(`, `tan(`, or a close-parenthesis) and then evaluates it. This project
models that core:

- `nodes.dfy` (module `Nodes`): the operator, scope and node-type
  enumerations, the priority table `opPri`, and the `exprNode` record with its
  two initialisers (a value leaf; an edge node that is a scope when given a
  scope tag and a pending slot otherwise).
- `arena.dfy` (module `Arena`): the tree as an arena. The nodes sit in a
  sequence, node 0 is the head, parent and children are indices, and a
  parent's index is always smaller than its child's. `WellFormed` says that
  every non-root node is listed exactly once by its parent and points back at
  it. `Attach` is `addChild`: it appends the child and sets its
  back-reference, and it keeps the arena well-formed.
- `evaluation.dfy` (module `Evaluation`): what `evaluate` computes, as the
  reference functions `Eval` and `Fold`. A childless head yields its own
  value. Otherwise the children are folded left to right, seeded with the
  head's own value. Empty children are passed over, the first value seeds an
  absent running value, and every later one is combined with that child's own
  operator. The head's scope function is applied last. A missing value is an
  error, not a crash.
- `tree.dfy` (module `Tree`): the builder `exprTree` as the class `ExprTree`,
  with the fields `nodes` and `last` (the cursor), and with `putValue`,
  `appendOp`, `appendUnaryOp`, `openParen`, `closeParen` and `evaluate` as
  methods. Each build method is proved against a pure specification function
  (`AfterPutValue`, `AfterAppendOp`, ...) on a snapshot `Build(nodes, last)`.
  The properties of the build are proved about those functions:
  - the attach point of precedence climbing (`AttachPoint`);
  - the nearest open scope that a close-parenthesis closes (`OpenScope`);
  - that the build state stays consistent: well-formed, with a cursor that is
    not a close marker, and with close markers that stay empty.

  `Evaluate` walks the subtree in place and memoises running values into the
  nodes, as the source does. It is proved to return `Eval` of the tree as it
  was before the call, and to change only values and node types inside the
  evaluated subtree.
- `examples.dfy` (module `Examples`): token sequences traced through the
  specification functions and then evaluated. They cover:
  - `a op1 b op2 c` with equal or falling priority, which groups left to
    right;
  - the same with rising priority, which nests the tighter operator;
  - `4 + 3 * 2 = 10`, `2 - 3 - 4 = -5`, and `2 ^ 3 ^ 2 = (2 ^ 3) ^ 2`;
  - a closed scope used as an operand;
  - a close-parenthesis with the cursor on the head;
  - an operator left without an operand.

Exponentiation chains left to right like every other operator: `appendOp`
climbs past an edge of equal priority. The model keeps this, and `ExpChain`
states it.

At these points the program behaves in ways a reader may not expect; the
model keeps that behaviour:
- A close-parenthesis with the cursor on the root attaches its marker under
  the root itself, prints an error and carries on.
- The head is created without a scope flag (only `appendUnaryOp` sets it to
  `false`), and an absent flag counts as open. With the driver's head, a
  scope node, an extra close-parenthesis therefore closes the head and is not
  reported as unmatched (`ExtraClose`).
- When no open scope exists at all, the marker is still added and the cursor
  stays where it was.
- A close-parenthesis on a childless root changes what the tree evaluates
  to. A childless head returns its value without its scope function, but the
  marker gives it a child, so evaluation then folds and applies the scope
  function: a `sin` head holding `v` goes from `v` to `sin(v)`
  (`RootCloseAppliesScope`), and a head with no value goes from `NoValue` to
  `EmptyOperand`. `CloseParenKeepsValues` excludes exactly this case.
- `evaluate` seeds every fold with the value an earlier call memoised into
  the node. No idempotence is claimed for repeated calls.

## Model

| member | source | states |
|---|---|---|
| `Nodes.Priority` | Contents.swift:27-35 | four priority classes: 0 exactly for the empty operator and `=`, 1 exactly for `+` and `-`, 2 exactly for `*` and `/`, 3 exactly for `^` |
| `Nodes.ValueNode` | Contents.swift:59-66 | a value leaf is detached, of type value, holds the value, has the empty operator to its parent, no scope tag and no flag |
| `Nodes.EdgeNode` | Contents.swift:67-78 | an edge node is detached and empty, carries the given operator and scope tag, and is a scope exactly when a tag is given and pending exactly when none is |
| `Nodes.CloseMarker` | Contents.swift:136-137 | the close marker is a detached, empty node of type close-paren with the empty operator and no scope tag |
| `Arena.Attach` | Contents.swift:79-82 | `addChild` on the arena: exactly one node is added at the end, pointing back at the parent; the parent's children gain that index at the end, in order; no other node changes |
| `Arena.AttachWellFormed` | Contents.swift:79-82 | linking a detached node keeps the tree well-formed: one root, every node listed once by its parent, every child pointing back |
| `Tree.ExprTree.AddChild` | Contents.swift:79-82 | the in-place `addChild` leaves the arena equal to `Attach`, still well-formed, returns the new node's index and leaves the cursor alone |
| `Tree.AttachPoint` | Contents.swift:113-118 | the node where the operator climb stops lies on the path from the cursor to the root, and is either the root or a node whose incoming priority is strictly lower than the new operator's |
| `Tree.ClimbPassesOver` | Contents.swift:116-118 | every node the climb passes over has a parent and an incoming priority at least that of the new operator, so the attach point is the first node on the path that stops the climb |
| `Tree.LoosestClimbsToRoot` | Contents.swift:116-118 | an operator of priority 0 always climbs to the head |
| `Tree.OpenScope` | Contents.swift:144-160 | the scope a close-parenthesis closes lies on the path from the cursor to the root and is a unary scope whose flag is not true (an absent flag counts as open) |
| `Tree.OpenScopeIsNearest` | Contents.swift:144-160 | no open scope lies on the path below the one found; when none is found there is no open scope on the whole path |
| `Tree.Start` | Contents.swift:89-92 | a new tree is its head alone, with the cursor on it, and is a consistent build state |
| `Tree.ExprTree.constructor` | Contents.swift:89-92 | the constructed tree is in the state `Start(head)` and is valid |
| `Tree.AfterPutValue` | Contents.swift:103-111 | a value or pending cursor takes the value and becomes a value, with nothing added and the cursor unmoved; any other cursor gets one new value leaf as its last child and the cursor moves onto it; consistency is kept |
| `Tree.ExprTree.PutValue` | Contents.swift:103-111 | the in-place `putValue` reaches exactly the state `AfterPutValue` describes and keeps the tree valid |
| `Tree.AfterAppendOp` | Contents.swift:113-121 | exactly one pending slot carrying the operator is added as the last child of the climb's attach point; the cursor moves onto it; consistency is kept |
| `Tree.ExprTree.AppendOp` | Contents.swift:113-121 | the climbing loop reaches exactly the state `AfterAppendOp` describes and keeps the tree valid |
| `Tree.AfterAppendUnaryOp` | Contents.swift:123-128 | without climbing, exactly one open scope with the tag is added as the last child of the cursor; the cursor moves into it; consistency is kept |
| `Tree.ExprTree.AppendUnaryOp` | Contents.swift:123-128 | the in-place `appendUnaryOp` reaches exactly the state `AfterAppendUnaryOp` describes and keeps the tree valid |
| `Tree.ExprTree.OpenParen` | Contents.swift:130-132 | `openParen` reaches exactly the state of appending the plain-parenthesis scope |
| `Tree.MarkerHolder` | Contents.swift:138-143 | the close marker goes under the cursor's parent, or under the cursor itself when the cursor is the root; the holder is never a close marker |
| `Tree.AfterCloseParen` | Contents.swift:134-161 | exactly one close marker is added, under `MarkerHolder`; old nodes change only in that child list and in scope flags; the nearest open scope, if any, is closed, no other flag changes, and the cursor moves to its parent (or stays on it when it is the root); with no open scope, flags and cursor are unchanged; consistency is kept |
| `Tree.CloseScope` | Contents.swift:145-151 | closing a scope sets its flag, keeps the state consistent and puts the cursor on its parent, or on the scope itself when it is the root |
| `Tree.CloseParenKeepsValues` | Contents.swift:134-161 | a close-parenthesis changes the value of no node already in the tree, whenever the marker's holder already has children (always so when the cursor is not the root) |
| `Tree.ExprTree.CloseParen` | Contents.swift:134-161 | the in-place `closeParen` (marker, then the upward search loop) reaches exactly the state `AfterCloseParen` describes, keeps the tree valid, and reports the error path exactly when the cursor was the root |
| `Evaluation.Eval` | Contents.swift:188-237 | evaluation fails with `NoValue` exactly when the head has neither value nor children |
| `Evaluation.Fold` | Contents.swift:197-223 | the fold never fails with `NoValue`, and a seeded fold that succeeds always holds a value |
| `Evaluation.FoldFailurePersists` | Contents.swift:197-202 | once a child's evaluation fails, the fold over all children fails with the same error |
| `Evaluation.FoldSkipsEmptyLast` | Contents.swift:198-200 | a trailing child with no value and no children does not change the fold |
| `Evaluation.EvalFrame` | Contents.swift:201-202 | evaluating a child reads only its own subtree: trees of the same shape with the same values there give the same result |
| `Evaluation.EvalIgnoresEmptyChild` | Contents.swift:138-141 | linking a close marker (or any empty node) under a node with children keeps the tree well-formed and changes the value of no node |
| `Tree.Absorb` | Contents.swift:203-221 | folding a child value into a node stores the child's value when the node had none (and makes it a value node), and otherwise combines the old value with the child's value by the child's operator; nothing else changes |
| `Tree.ExprTree.FoldChild` | Contents.swift:197-222 | one pass of the loop over the children: an empty child is passed over, any other is evaluated in place and folded into the head, so the head afterwards holds the fold of one more child of the tree as it was before evaluation began; a failing child makes the evaluation of the head fail with the same error; the tree stays valid and the cursor unmoved |
| `Tree.ExprTree.Evaluate` | Contents.swift:188-237 | the in-place evaluation returns `Eval` of the tree as it was, leaves the result in the head on success, keeps the tree valid with the cursor unmoved, and changes only values and types, only inside the subtree, and never at a childless node |
| `Examples.LeftToRight` | Contents.swift:113-121 | `a op1 b op2 c` with `op2` binding no tighter than `op1` evaluates to `(a op1 b) op2 c` |
| `Examples.TighterFirst` | Contents.swift:113-121 | `a op1 b op2 c` with `op2` binding tighter than `op1` evaluates to `a op1 (b op2 c)` |
| `Examples.AddThenMult` | Contents.swift:113-121 | `4 + 3 * 2` evaluates to 10 |
| `Examples.SubChain` | Contents.swift:113-121 | `2 - 3 - 4` evaluates to -5 |
| `Examples.ExpChain` | Contents.swift:113-121 | `2 ^ 3 ^ 2` evaluates to `(2 ^ 3) ^ 2` |
| `Examples.ClosedScopeIsOperand` | Contents.swift:134-161 | after `a op u(b)` the scope is closed, the cursor is back on the `op` slot, and the tree evaluates to `a op u(b)`; the marker left inside does not count |
| `Examples.ExtraClose` | Contents.swift:138-143 | in `u(b))` the second close finds the cursor on the root, puts its marker under the root, closes the head's own scope, and the value is still `u(b)` |
| `Examples.DanglingOperator` | Contents.swift:224-236 | in `u(op`, for any scope `u` and operator `op`, the operator never gets an operand, and evaluation fails with `EmptyOperand` |
| `Examples.RootCloseAppliesScope` | Contents.swift:189-191 | a head tagged `u` holding `v` evaluates to `v` while childless, and to `u(v)` once a close-parenthesis has linked its marker under it |

## Left out

- Rendering (`str`, `stringRepr`, `treeRepr`, Contents.swift:45-58 and 163-186) is not modelled. It only produces text.
- The demo driver and its clock measurements (Contents.swift:240-309) are not modelled. They are a script of calls and timing output.
- Floating point: numbers are Dafny `real`. Addition, subtraction and multiplication are exact. Division, `pow`, `sin`, `cos` and `tan` are uninterpreted parameters (`Arith`), so rounding, infinities and NaN (including division by zero) are not modelled.
- Console output: the `print` calls are left out. The root-close error is returned as `misplaced` by `CloseParen`, and the childless, valueless head is reported as `Failure(NoValue)` instead of printing and returning 0.
- The crash when `head.value!` finds no value (a node whose children are all empty, or a dangling operator) is modelled as `Failure(EmptyOperand)`, not as a precondition.
- Object identity: nodes are arena indices, not shared references, so aliasing of one node between two trees is not modelled. Subtree evaluation (`exprTree(head: child)`) is `Evaluate` on the same arena with another head index.
- Tree.ExprTree.constructor: requires a detached head that is not a close marker. The source accepts any node, but every use of it in the core passes such a head or a node already inside the same tree.
- Tree.ExprTree.Evaluate: on failure it states only which parts of the tree may have been refilled, not the exact values memoised before the failing child. The source crashes at that point.
- Tree.ExprTree.Evaluate: does not state the tree it leaves behind as a function of the old one, so re-evaluating a finished tree is left unspecified.
