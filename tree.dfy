/** The incremental tree builder: a root, a cursor and the build operations. */
module Tree {
  import opened Nodes
  import opened Arena
  import opened Evaluation

  /** Where `appendOp(op)` attaches its new node: climb from `i` while the
      new operator binds no tighter than the edge into the current node and
      the current node has a parent. */
  function AttachPoint(ns: seq<Node>, i: nat, op: Operation): (r: nat)
    requires WellFormed(ns) && i < |ns|
    ensures r < |ns| && Descends(ns, i, r)
    ensures ns[r].parent.None? || Priority(ns[r].opToParent) < Priority(op)
    decreases i
  {
    if Priority(op) <= Priority(ns[i].opToParent) && ns[i].parent.Some? then
      AttachPoint(ns, ns[i].parent.value, op)
    else
      i
  }

  /** Every node the climb passes over (on the path from `i`, strictly below
      the attach point) has a parent and an incoming priority at least that
      of `op`; so the attach point is the first node on the path that stops
      the climb. */
  lemma {:induction false} ClimbPassesOver(ns: seq<Node>, i: nat, op: Operation, x: nat)
    requires WellFormed(ns) && i < |ns| && x < |ns| && Descends(ns, i, x)
    requires x != AttachPoint(ns, i, op) && Descends(ns, x, AttachPoint(ns, i, op))
    ensures ns[x].parent.Some? && Priority(op) <= Priority(ns[x].opToParent)
    decreases i
  {
    if x != i {
      if Priority(op) <= Priority(ns[i].opToParent) && ns[i].parent.Some? {
        ClimbPassesOver(ns, ns[i].parent.value, op, x);
      } else {
        DescendsBelow(ns, i, x);
        DescendsBelow(ns, x, i);
      }
    }
  }

  /** An operator of priority 0 (`NoOp`, `Equal`) always climbs to the root. */
  lemma {:induction false} LoosestClimbsToRoot(ns: seq<Node>, i: nat, op: Operation)
    requires WellFormed(ns) && i < |ns| && Priority(op) == 0
    ensures AttachPoint(ns, i, op) == 0
  {
    var r := AttachPoint(ns, i, op);
    assert ns[r].parent.None?;
  }

  /** A unary scope that has not been closed; an absent flag counts as open. */
  predicate IsOpenScope(n: Node) {
    n.kind == UnOp && n.parenClosed != Some(true)
  }

  /** The scope `closeParen` closes: the nearest open scope at or above `i`. */
  function OpenScope(ns: seq<Node>, i: nat): (r: Option<nat>)
    requires WellFormed(ns) && i < |ns|
    ensures r.Some? ==> r.value < |ns| && Descends(ns, i, r.value) && IsOpenScope(ns[r.value])
    decreases i
  {
    if IsOpenScope(ns[i]) then Some(i)
    else if ns[i].parent.Some? then OpenScope(ns, ns[i].parent.value)
    else None
  }

  /** No open scope lies on the path from `i` below the one `OpenScope`
      finds; when it finds none, there is no open scope on the whole path. */
  lemma {:induction false} OpenScopeIsNearest(ns: seq<Node>, i: nat, x: nat)
    requires WellFormed(ns) && i < |ns| && x < |ns| && Descends(ns, i, x)
    requires OpenScope(ns, i).None? ||
      (x != OpenScope(ns, i).value && Descends(ns, x, OpenScope(ns, i).value))
    ensures !IsOpenScope(ns[x])
    decreases i
  {
    if x != i {
      if !IsOpenScope(ns[i]) && ns[i].parent.Some? {
        OpenScopeIsNearest(ns, ns[i].parent.value, x);
      } else if IsOpenScope(ns[i]) {
        DescendsBelow(ns, i, x);
        DescendsBelow(ns, x, i);
      }
    }
  }

  /** The build state the tree keeps: a well-formed arena, a cursor on a
      live node that is not a close marker, and close markers that stay
      empty. */
  predicate Consistent(ns: seq<Node>, cur: nat) {
    && WellFormed(ns)
    && cur < |ns|
    && !ns[cur].kind.CloseParen?
    && MarkersEmpty(ns)
  }

  /** Close markers never receive a value or children. */
  predicate MarkersEmpty(ns: seq<Node>) {
    forall i :: 0 <= i < |ns| && ns[i].kind.CloseParen? ==> Empty(ns[i])
  }

  /** A node with a child is never a close marker. */
  lemma ParentIsNoMarker(ns: seq<Node>, i: nat)
    requires WellFormed(ns) && MarkersEmpty(ns) && 0 < i < |ns|
    ensures !ns[ns[i].parent.value].kind.CloseParen?
  {
    assert Listed(ns, i);
  }

  /** Every node above a node that is not a close marker is not one either. */
  lemma {:induction false} AncestorIsNoMarker(ns: seq<Node>, x: nat, a: nat)
    requires WellFormed(ns) && MarkersEmpty(ns) && x < |ns| && !ns[x].kind.CloseParen?
    requires Descends(ns, x, a)
    ensures a < |ns| && !ns[a].kind.CloseParen?
    decreases x
  {
    if x != a {
      ParentIsNoMarker(ns, x);
      AncestorIsNoMarker(ns, ns[x].parent.value, a);
    }
  }

  /** Linking a detached node under a node that is not a close marker keeps
      the arena well-formed and every close marker empty. */
  lemma AttachConsistent(ns: seq<Node>, p: nat, child: Node)
    requires WellFormed(ns) && MarkersEmpty(ns) && p < |ns| && !ns[p].kind.CloseParen?
    requires Detached(child) && (child.kind.CloseParen? ==> Empty(child))
    ensures WellFormed(Attach(ns, p, child)) && MarkersEmpty(Attach(ns, p, child))
  {
    AttachWellFormed(ns, p, child);
  }

  /** Linking a node changes the open scope found from no old node. */
  lemma {:induction false} OpenScopeAttach(ns: seq<Node>, p: nat, child: Node, i: nat)
    requires WellFormed(ns) && p < |ns| && Detached(child) && i < |ns|
    ensures WellFormed(Attach(ns, p, child))
    ensures OpenScope(Attach(ns, p, child), i) == OpenScope(ns, i)
    decreases i
  {
    AttachWellFormed(ns, p, child);
    if !IsOpenScope(ns[i]) && ns[i].parent.Some? {
      OpenScopeAttach(ns, p, child, ns[i].parent.value);
    }
  }

  /** A snapshot of the builder: its arena and its cursor. */
  datatype Build = Build(nodes: seq<Node>, last: nat)

  /** `exprTree(head:)`: a tree made of `head` alone, with the cursor on it. */
  function Start(head: Node): (s: Build)
    requires Detached(head) && !head.kind.CloseParen?
    ensures Consistent(s.nodes, s.last) && s.last == 0
    ensures |s.nodes| == 1 && s.nodes[0] == head
  {
    Build([head], 0)
  }

  /** `putValue(v)`. A cursor that is a value or a pending slot takes `v`
      and becomes a value, with no node added and the cursor staying put;
      any other cursor gets a new value leaf as its last child, and the
      cursor moves onto it. */
  function AfterPutValue(s: Build, v: real): (r: Build)
    requires Consistent(s.nodes, s.last)
    ensures Consistent(r.nodes, r.last)
    ensures s.nodes[s.last].kind in {Val, Tbd} ==>
      && |r.nodes| == |s.nodes| && r.last == s.last
      && r.nodes[r.last] == s.nodes[s.last].(value := Some(v), kind := Val)
      && forall i :: 0 <= i < |s.nodes| && i != s.last ==> r.nodes[i] == s.nodes[i]
    ensures s.nodes[s.last].kind !in {Val, Tbd} ==>
      AddsChild(s.nodes, r.nodes, s.last, ValueNode(v)) && r.last == |s.nodes|
  {
    var cur := s.nodes[s.last];
    if cur.kind == Val || cur.kind == Tbd then
      RelabelWellFormed(s.nodes, s.last, cur.(value := Some(v), kind := Val));
      Build(s.nodes[s.last := cur.(value := Some(v), kind := Val)], s.last)
    else
      AttachConsistent(s.nodes, s.last, ValueNode(v));
      Build(Attach(s.nodes, s.last, ValueNode(v)), |s.nodes|)
  }

  /** `appendOp(op)`: a new pending slot reached through `op` becomes the last
      child of `AttachPoint`, and the cursor moves onto it. */
  function AfterAppendOp(s: Build, op: Operation): (r: Build)
    requires Consistent(s.nodes, s.last)
    ensures Consistent(r.nodes, r.last)
    ensures AddsChild(s.nodes, r.nodes, AttachPoint(s.nodes, s.last, op), EdgeNode(op, None))
    ensures r.last == |s.nodes|
  {
    var p := AttachPoint(s.nodes, s.last, op);
    AncestorIsNoMarker(s.nodes, s.last, p);
    AttachConsistent(s.nodes, p, EdgeNode(op, None));
    Build(Attach(s.nodes, p, EdgeNode(op, None)), |s.nodes|)
  }

  /** `appendUnaryOp(u)`: no climbing; a new open scope tagged `u` becomes the
      last child of the cursor, and the cursor moves into it. */
  function AfterAppendUnaryOp(s: Build, u: UnaryOperation): (r: Build)
    requires Consistent(s.nodes, s.last)
    ensures Consistent(r.nodes, r.last)
    ensures AddsChild(s.nodes, r.nodes, s.last, EdgeNode(NoOp, Some(u)).(parenClosed := Some(false)))
    ensures r.last == |s.nodes| && r.nodes[r.last].kind == UnOp
  {
    var scope := EdgeNode(NoOp, Some(u)).(parenClosed := Some(false));
    AttachConsistent(s.nodes, s.last, scope);
    Build(Attach(s.nodes, s.last, scope), |s.nodes|)
  }

  /** Where `closeParen` leaves its marker: under the cursor's parent, or
      under the cursor itself when the cursor is the root. */
  function MarkerHolder(s: Build): (p: nat)
    requires Consistent(s.nodes, s.last)
    ensures p < |s.nodes| && !s.nodes[p].kind.CloseParen?
    ensures s.nodes[s.last].parent.Some? ==> s.nodes[s.last].parent == Some(p)
    ensures s.nodes[s.last].parent.None? ==> p == s.last
  {
    if s.nodes[s.last].parent.Some? then
      ParentIsNoMarker(s.nodes, s.last);
      s.nodes[s.last].parent.value
    else s.last
  }

  /** `closeParen`. One close marker is added under `MarkerHolder`. The
      nearest open scope at or above the cursor, if any, is closed (and no
      other scope flag changes) and the cursor moves to its parent, or stays
      on it when it is the root; with no open scope the cursor stays. */
  function AfterCloseParen(s: Build): (r: Build)
    requires Consistent(s.nodes, s.last)
    ensures Consistent(r.nodes, r.last) && |r.nodes| == |s.nodes| + 1
    ensures r.nodes[|s.nodes|] == CloseMarker().(parent := Some(MarkerHolder(s)))
    ensures forall i :: 0 <= i < |s.nodes| ==>
      && r.nodes[i] == s.nodes[i].(children := r.nodes[i].children, parenClosed := r.nodes[i].parenClosed)
      && r.nodes[i].children == s.nodes[i].children + (if i == MarkerHolder(s) then [|s.nodes|] else [])
    ensures match OpenScope(s.nodes, s.last)
      case Some(o) =>
        && r.nodes[o].parenClosed == Some(true)
        && (forall i :: 0 <= i < |s.nodes| && i != o ==> r.nodes[i].parenClosed == s.nodes[i].parenClosed)
        && r.last == (if s.nodes[o].parent.Some? then s.nodes[o].parent.value else o)
      case None =>
        && (forall i :: 0 <= i < |s.nodes| ==> r.nodes[i].parenClosed == s.nodes[i].parenClosed)
        && r.last == s.last
  {
    var holder := MarkerHolder(s);
    var marked := Attach(s.nodes, holder, CloseMarker());
    AttachConsistent(s.nodes, holder, CloseMarker());
    OpenScopeAttach(s.nodes, holder, CloseMarker(), s.last);
    match OpenScope(marked, s.last)
    case Some(o) =>
      AncestorIsNoMarker(s.nodes, s.last, o);
      CloseScope(marked, o)
    case None => Build(marked, s.last)
  }

  /** A close-parenthesis changes the value of no old node: the marker is
      empty and evaluation reads no scope flag. This needs the marker's
      holder to have children already, which it always has when the cursor
      is not the root. */
  lemma CloseParenKeepsValues(ar: Arith, s: Build, h: nat)
    requires Consistent(s.nodes, s.last) && h < |s.nodes|
    requires s.nodes[MarkerHolder(s)].children != []
    ensures Eval(ar, AfterCloseParen(s).nodes, h) == Eval(ar, s.nodes, h)
  {
    var holder := MarkerHolder(s);
    var marked := Attach(s.nodes, holder, CloseMarker());
    var r := AfterCloseParen(s).nodes;
    EvalIgnoresEmptyChild(ar, s.nodes, holder, CloseMarker(), h);
    assert SameShape(marked, r) by {
      forall i | 0 <= i < |marked|
        ensures marked[i].parent == r[i].parent && marked[i].children == r[i].children
        ensures marked[i].opToParent == r[i].opToParent && marked[i].unOp == r[i].unOp
      {
      }
    }
    forall x | 0 <= x < |marked| && Descends(marked, x, h) ensures marked[x].value == r[x].value {
    }
    EvalFrame(ar, marked, r, h);
  }

  /** Closes the scope `o` and moves the cursor to its parent, or leaves it on
      `o` when `o` is the root. */
  function CloseScope(ns: seq<Node>, o: nat): (r: Build)
    requires Consistent(ns, o)
    ensures Consistent(r.nodes, r.last)
    ensures r.nodes == ns[o := ns[o].(parenClosed := Some(true))]
    ensures r.last == (if ns[o].parent.Some? then ns[o].parent.value else o)
  {
    RelabelWellFormed(ns, o, ns[o].(parenClosed := Some(true)));
    var closed := ns[o := ns[o].(parenClosed := Some(true))];
    if ns[o].parent.Some? then
      ParentIsNoMarker(closed, o);
      Build(closed, ns[o].parent.value)
    else Build(closed, o)
  }

  class ExprTree {
    /** The arena; node 0 is the head (root) of the tree. */
    var nodes: seq<Node>
    /** The cursor: the node the next build operation works from. */
    var last: nat

    ghost predicate Valid()
      reads this
    {
      Consistent(nodes, last)
    }

    /** The builder's state as a value. */
    function State(): Build
      reads this
    {
      Build(nodes, last)
    }

    constructor (head: Node)
      requires Detached(head) && !head.kind.CloseParen?
      ensures State() == Start(head) && Valid()
    {
      nodes := [head];
      last := 0;
    }

    /** `addChild`: appends `child` to the children of `p` and points it
        back at `p`. */
    method AddChild(p: nat, child: Node) returns (c: nat)
      requires WellFormed(nodes) && p < |nodes| && Detached(child)
      modifies this
      ensures nodes == Attach(old(nodes), p, child) && WellFormed(nodes)
      ensures c == |old(nodes)| && last == old(last)
    {
      AttachWellFormed(nodes, p, child);
      c := |nodes|;
      var holder := nodes[p];
      nodes := nodes[p := holder.(children := holder.children + [c])];
      nodes := nodes + [child.(parent := Some(p))];
    }

    method PutValue(v: real)
      requires Valid()
      modifies this
      ensures State() == AfterPutValue(old(State()), v) && Valid()
    {
      if nodes[last].kind == Val || nodes[last].kind == Tbd {
        nodes := nodes[last := nodes[last].(value := Some(v), kind := Val)];
      } else {
        var c := AddChild(last, ValueNode(v));
        last := c;
      }
    }

    /** Precedence climbing from the cursor, as `AttachPoint` describes. */
    method AppendOp(op: Operation)
      requires Valid()
      modifies this
      ensures State() == AfterAppendOp(old(State()), op) && Valid()
    {
      var selected: nat := last;
      while Priority(op) <= Priority(nodes[selected].opToParent) && nodes[selected].parent.Some?
        invariant nodes == old(nodes) && last == old(last)
        invariant selected < |nodes| && !nodes[selected].kind.CloseParen?
        invariant AttachPoint(nodes, selected, op) == AttachPoint(nodes, last, op)
        decreases selected
      {
        ParentIsNoMarker(nodes, selected);
        selected := nodes[selected].parent.value;
      }
      var c := AddChild(selected, EdgeNode(op, None));
      last := c;
    }

    method AppendUnaryOp(u: UnaryOperation)
      requires Valid()
      modifies this
      ensures State() == AfterAppendUnaryOp(old(State()), u) && Valid()
    {
      var selected: nat := last;
      var c := AddChild(selected, EdgeNode(NoOp, Some(u)));
      last := c;
      nodes := nodes[last := nodes[last].(parenClosed := Some(false))];
      assert nodes == Attach(old(nodes), old(last), EdgeNode(NoOp, Some(u)).(parenClosed := Some(false)));
    }

    /** `openParen`: exactly `AppendUnaryOp(Paren)`. */
    method OpenParen()
      requires Valid()
      modifies this
      ensures State() == AfterAppendUnaryOp(old(State()), Paren) && Valid()
    {
      AppendUnaryOp(Paren);
    }

    /** `misplaced` reports the error path: the cursor was the root. */
    method CloseParen() returns (misplaced: bool)
      requires Valid()
      modifies this
      ensures State() == AfterCloseParen(old(State())) && Valid()
      ensures misplaced <==> old(nodes)[old(last)].parent.None?
    {
      var selected: nat := last;
      misplaced := nodes[selected].parent.None?;
      if !misplaced {
        ParentIsNoMarker(nodes, selected);
        var _ := AddChild(nodes[selected].parent.value, CloseMarker());
      } else {
        var _ := AddChild(last, CloseMarker());
      }
      ghost var marked := nodes;
      assert marked == Attach(old(nodes), MarkerHolder(old(State())), CloseMarker());
      while true
        invariant nodes == marked && last == old(last) && Valid()
        invariant selected < |nodes| && !nodes[selected].kind.CloseParen?
        invariant OpenScope(marked, selected) == OpenScope(marked, old(last))
        decreases selected
      {
        if nodes[selected].kind == UnOp && nodes[selected].parenClosed != Some(true) {
          RelabelWellFormed(nodes, selected, nodes[selected].(parenClosed := Some(true)));
          nodes := nodes[selected := nodes[selected].(parenClosed := Some(true))];
          if nodes[selected].parent.Some? {
            ParentIsNoMarker(nodes, selected);
            last := nodes[selected].parent.value;
          } else {
            last := selected;
          }
          break;
        }
        if nodes[selected].parent.Some? {
          ParentIsNoMarker(nodes, selected);
          selected := nodes[selected].parent.value;
        } else {
          break;
        }
      }
    }

    /** `evaluate` on the subtree headed by `h`: the post-order fold of
        `Eval`, computed in place. Each node with a non-empty child takes its
        running value (and, when it had no value, the type `Val`) as it goes,
        so the tree is changed only inside the subtree, and only in values
        and types of nodes that have children. */
    method Evaluate(ar: Arith, h: nat) returns (r: Result<real>)
      requires Valid() && h < |nodes|
      modifies this
      ensures Valid() && last == old(last) && |nodes| == |old(nodes)|
      ensures r == Eval(ar, old(nodes), h)
      ensures r.Success? ==> nodes[h].value == Some(r.value)
      ensures Refilled(old(nodes), nodes) && Untouched(old(nodes), nodes, h)
      decreases |nodes| - h, 1
    {
      var cs := nodes[h].children;
      if cs == [] {
        if nodes[h].value.Some? {
          return Success(nodes[h].value.value);
        } else {
          return Failure(NoValue);
        }
      }
      ghost var ns0 := nodes;
      ProgressStart(ar, ns0, h);
      var k := 0;
      while k < |cs|
        invariant k <= |cs| && |nodes| == |ns0|
        invariant Valid() && last == old(last)
        invariant Progress(ar, ns0, nodes, h, k)
      {
        var err := FoldChild(ar, h, k, ns0);
        if err.Some? {
          return Failure(err.value);
        }
        k := k + 1;
      }
      ProgressFinish(ar, ns0, nodes, h, last);
      if nodes[h].value.None? {
        return Failure(EmptyOperand);
      }
      var v := ApplyUnary(ar, nodes[h].unOp, nodes[h].value.value);
      nodes := nodes[h := nodes[h].(value := Some(v))];
      r := Success(v);
    }

    /** One pass of the loop over the children of `h`: the `k`-th child is
        passed over when it is empty, and otherwise evaluated and folded into
        `h`; `err` reports a child whose evaluation failed. */
    method FoldChild(ar: Arith, h: nat, k: nat, ghost ns0: seq<Node>) returns (err: Option<EvalError>)
      requires Valid() && WellFormed(ns0) && h < |ns0| && |nodes| == |ns0| && k < |ns0[h].children|
      requires Progress(ar, ns0, nodes, h, k)
      modifies this
      ensures Valid() && last == old(last) && |nodes| == |ns0|
      ensures err.None? ==> Progress(ar, ns0, nodes, h, k + 1)
      ensures err.Some? ==>
        Refilled(ns0, nodes) && Untouched(ns0, nodes, h) && Eval(ar, ns0, h) == Failure(err.value)
      decreases |nodes| - h, 0
    {
      assert nodes[h].children == ns0[h].children;
      var c := nodes[h].children[k];
      ProgressNext(ar, ns0, nodes, h, k);
      if nodes[c].value.None? && nodes[c].children == [] {
        ProgressSkip(ar, ns0, nodes, h, k);
        return None;
      }
      ghost var before := nodes;
      var cv := Evaluate(ar, c);
      if cv.Failure? {
        ProgressFail(ar, ns0, before, nodes, h, k, cv.error);
        return Some(cv.error);
      }
      ghost var mid := nodes;
      nodes := nodes[h := Absorb(ar, nodes[h], nodes[c].opToParent, cv.value)];
      ProgressAbsorb(ar, ns0, before, mid, h, k, last, cv.value);
      err := None;
    }
  }

  /** How evaluation may change an arena: only values and node types, and a
      type only to `Val`. */
  predicate Refilled(a: seq<Node>, b: seq<Node>) {
    |a| == |b| &&
    forall x :: 0 <= x < |a| ==>
      b[x] == a[x].(value := b[x].value, kind := b[x].kind) && (b[x].kind == a[x].kind || b[x].kind == Val)
  }

  /** Outside the subtree under `h`, and at every childless node, `b` agrees with `a`. */
  predicate Untouched(a: seq<Node>, b: seq<Node>, h: nat)
    requires ParentsBelow(a) && h < |a| && |b| == |a|
  {
    forall x :: 0 <= x < |a| && (a[x].children == [] || !Descends(a, x, h)) ==> b[x] == a[x]
  }

  lemma RefilledTransitive(a: seq<Node>, b: seq<Node>, c: seq<Node>)
    requires Refilled(a, b) && Refilled(b, c)
    ensures Refilled(a, c)
  {
  }

  /** The state of the fold over the children `cs` of `h` after `k` of them:
      the arena is refilled only inside the subtree of `h` and not at all in
      the subtrees of the children still to come, and the head holds the fold
      of the first `k` children of the arena as it was. */
  ghost predicate Progress(ar: Arith, ns0: seq<Node>, ns: seq<Node>, h: nat, k: nat)
    requires WellFormed(ns0) && h < |ns0| && k <= |ns0[h].children|
  {
    var cs := ns0[h].children;
    assert AfterAll(ns0, h, cs[..k]);
    && Refilled(ns0, ns) && Untouched(ns0, ns, h)
    && (forall j, x :: k <= j < |cs| && 0 <= x < |ns| && Descends(ns0, x, cs[j]) ==> ns[x] == ns0[x])
    && Fold(ar, ns0, h, cs[..k], ns0[h].value) == Success(ns[h].value)
  }

  lemma ProgressStart(ar: Arith, ns0: seq<Node>, h: nat)
    requires WellFormed(ns0) && h < |ns0|
    ensures Progress(ar, ns0, ns0, h, 0)
  {
    assert ns0[h].children[..0] == [];
  }

  /** The next child is untouched so far. */
  lemma ProgressNext(ar: Arith, ns0: seq<Node>, ns: seq<Node>, h: nat, k: nat)
    requires WellFormed(ns0) && h < |ns0| && k < |ns0[h].children| && Progress(ar, ns0, ns, h, k)
    ensures h < ns0[h].children[k] < |ns| && ns[ns0[h].children[k]] == ns0[ns0[h].children[k]]
  {
    assert Descends(ns0, ns0[h].children[k], ns0[h].children[k]);
  }

  /** One step of the fold over the children of `h`. */
  lemma FoldStep(ar: Arith, ns: seq<Node>, h: nat, cs: seq<nat>, k: nat, seed: Option<real>)
    requires WellFormed(ns) && h < |ns| && AfterAll(ns, h, cs) && k < |cs|
    ensures AfterAll(ns, h, cs[..k]) && AfterAll(ns, h, cs[..k + 1])
    ensures Fold(ar, ns, h, cs[..k + 1], seed) ==
      match Fold(ar, ns, h, cs[..k], seed)
      case Failure(e) => Failure(e)
      case Success(acc) =>
        if Empty(ns[cs[k]]) then Success(acc)
        else
          match Eval(ar, ns, cs[k])
          case Failure(e) => Failure(e)
          case Success(v) => Success(Some(if acc.None? then v else Combine(ar, ns[cs[k]].opToParent, acc.value, v)))
  {
    assert cs[..k + 1][..k] == cs[..k];
  }

  /** An empty child is passed over. */
  lemma ProgressSkip(ar: Arith, ns0: seq<Node>, ns: seq<Node>, h: nat, k: nat)
    requires WellFormed(ns0) && h < |ns0| && k < |ns0[h].children| && Progress(ar, ns0, ns, h, k)
    requires Empty(ns0[ns0[h].children[k]])
    ensures Progress(ar, ns0, ns, h, k + 1)
  {
    FoldStep(ar, ns0, h, ns0[h].children, k, ns0[h].value);
  }

  /** What evaluating the child `c` (the `k`-th child of `h`) leaves behind:
      its result is that of the arena before the fold started, the refill so
      far still holds, and the subtrees of the later children and the head
      itself are as they were. */
  lemma ChildFrame(ar: Arith, ns0: seq<Node>, before: seq<Node>, mid: seq<Node>, h: nat, k: nat)
    requires WellFormed(ns0) && h < |ns0| && k < |ns0[h].children| && Progress(ar, ns0, before, h, k)
    requires Refilled(before, mid) && Untouched(before, mid, ns0[h].children[k])
    ensures WellFormed(before)
    ensures Eval(ar, before, ns0[h].children[k]) == Eval(ar, ns0, ns0[h].children[k])
    ensures Refilled(ns0, mid) && Untouched(ns0, mid, h) && mid[h] == before[h]
    ensures forall j, x :: k < j < |ns0[h].children| && 0 <= x < |mid| && Descends(ns0, x, ns0[h].children[j]) ==>
      mid[x] == ns0[x]
  {
    var cs := ns0[h].children;
    var c := cs[k];
    assert LinksBack(ns0, h);
    SameShapeWellFormed(ns0, before);
    forall x | 0 <= x < |ns0| && Descends(ns0, x, c) ensures ns0[x].value == before[x].value {
    }
    EvalFrame(ar, ns0, before, c);
    RefilledTransitive(ns0, before, mid);
    assert ns0[c].parent == Some(h);
    forall j, x | k < j < |cs| && 0 <= x < |mid| && Descends(ns0, x, cs[j])
      ensures mid[x] == ns0[x]
    {
      assert ns0[cs[j]].parent == Some(h);
      SiblingsDisjoint(ns0, h, c, cs[j], x);
    }
    forall x | 0 <= x < |mid| && (ns0[x].children == [] || !Descends(ns0, x, h)) ensures mid[x] == ns0[x] {
      if Descends(ns0, x, c) {
        assert Descends(ns0, c, h);
        DescendsTransitive(ns0, x, c, h);
      }
    }
    if Descends(ns0, h, c) {
      DescendsBelow(ns0, h, c);
    }
  }

  /** A child whose evaluation fails makes the whole evaluation of `h` fail. */
  lemma ProgressFail(ar: Arith, ns0: seq<Node>, before: seq<Node>, mid: seq<Node>, h: nat, k: nat, e: EvalError)
    requires WellFormed(ns0) && h < |ns0| && k < |ns0[h].children| && Progress(ar, ns0, before, h, k)
    requires !Empty(ns0[ns0[h].children[k]])
    requires Refilled(before, mid) && Untouched(before, mid, ns0[h].children[k])
    requires WellFormed(before) && Eval(ar, before, ns0[h].children[k]) == Failure(e)
    ensures Refilled(ns0, mid) && Untouched(ns0, mid, h)
    ensures Eval(ar, ns0, h) == Failure(e)
  {
    var cs := ns0[h].children;
    ChildFrame(ar, ns0, before, mid, h, k);
    FoldStep(ar, ns0, h, cs, k, ns0[h].value);
    FoldFailurePersists(ar, ns0, h, cs, k + 1, ns0[h].value);
  }

  /** The head after a non-empty child's value `v` is folded into it. */
  function Absorb(ar: Arith, n: Node, op: Operation, v: real): (m: Node)
    ensures m == n.(value := m.value, kind := m.kind)
    ensures m.value == Some(if n.value.None? then v else Combine(ar, op, n.value.value, v))
    ensures m.kind == (if n.value.None? then Val else n.kind)
  {
    if n.value.None? then n.(value := Some(v), kind := Val)
    else n.(value := Some(Combine(ar, op, n.value.value, v)))
  }

  /** A child whose evaluation succeeds is folded into the head. */
  lemma ProgressAbsorb(ar: Arith, ns0: seq<Node>, before: seq<Node>, mid: seq<Node>, h: nat, k: nat, cur: nat, v: real)
    requires WellFormed(ns0) && h < |ns0| && k < |ns0[h].children| && Progress(ar, ns0, before, h, k)
    requires !Empty(ns0[ns0[h].children[k]])
    requires Refilled(before, mid) && Untouched(before, mid, ns0[h].children[k])
    requires WellFormed(before) && Eval(ar, before, ns0[h].children[k]) == Success(v)
    requires Consistent(mid, cur)
    ensures var after := mid[h := Absorb(ar, mid[h], mid[ns0[h].children[k]].opToParent, v)];
      Consistent(after, cur) && Progress(ar, ns0, after, h, k + 1)
  {
    var cs := ns0[h].children;
    var c := cs[k];
    var after := mid[h := Absorb(ar, mid[h], mid[c].opToParent, v)];
    ChildFrame(ar, ns0, before, mid, h, k);
    FoldStep(ar, ns0, h, cs, k, ns0[h].value);
    RelabelWellFormed(mid, h, after[h]);
    assert mid[h].children != [];
    assert Refilled(ns0, after);
    forall j, x | k + 1 <= j < |cs| && 0 <= x < |after| && Descends(ns0, x, cs[j])
      ensures after[x] == ns0[x]
    {
      if x == h {
        DescendsBelow(ns0, h, cs[j]);
      }
    }
    assert Descends(ns0, h, h);
  }

  /** After the last child: the head holds the fold of all children, and
      applying its scope function completes `Eval`. */
  lemma ProgressFinish(ar: Arith, ns0: seq<Node>, ns: seq<Node>, h: nat, cur: nat)
    requires WellFormed(ns0) && h < |ns0| && ns0[h].children != [] && Consistent(ns, cur)
    requires Progress(ar, ns0, ns, h, |ns0[h].children|)
    ensures Refilled(ns0, ns) && Untouched(ns0, ns, h) && ns[h].unOp == ns0[h].unOp
    ensures ns[h].value.None? ==> Eval(ar, ns0, h) == Failure(EmptyOperand)
    ensures ns[h].value.Some? ==>
      var after := ns[h := ns[h].(value := Some(ApplyUnary(ar, ns[h].unOp, ns[h].value.value)))];
      && Consistent(after, cur) && Refilled(ns0, after) && Untouched(ns0, after, h)
      && Eval(ar, ns0, h) == Success(after[h].value.value)
  {
    var cs := ns0[h].children;
    assert cs[..|cs|] == cs;
    assert Descends(ns0, h, h);
    if ns[h].value.Some? {
      var after := ns[h := ns[h].(value := Some(ApplyUnary(ar, ns[h].unOp, ns[h].value.value)))];
      RelabelWellFormed(ns, h, after[h]);
    }
  }
}
