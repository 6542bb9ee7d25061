/** The meaning of a built tree: a post-order left fold over the children. */
module Evaluation {
  import opened Nodes
  import opened Arena

  /** The primitives the evaluator borrows from the platform's floating-point
      library. Addition, subtraction and multiplication are those of `real`;
      division, power and the trigonometric functions are left open. */
  datatype Arith = Arith(
    div: (real, real) -> real,
    pow: (real, real) -> real,
    sin: real -> real,
    cos: real -> real,
    tan: real -> real)

  /** `NoValue`: the head of the evaluation has neither value nor children.
      `EmptyOperand`: a node with children ends its fold with no value. */
  datatype EvalError = NoValue | EmptyOperand

  datatype Result<T> = Success(value: T) | Failure(error: EvalError)

  /** Folds one child's value into the running value, with the child's own
      operator; `NoOp` and `Equal` leave the running value unchanged. */
  function Combine(ar: Arith, op: Operation, acc: real, v: real): real {
    match op
    case Add => acc + v
    case Sub => acc - v
    case Mult => acc * v
    case Div => ar.div(acc, v)
    case Exp => ar.pow(acc, v)
    case NoOp => acc
    case Equal => acc
  }

  /** Applies a node's scope function after its fold; a parenthesis is the identity. */
  function ApplyUnary(ar: Arith, u: Option<UnaryOperation>, v: real): real {
    match u
    case None => v
    case Some(Paren) => v
    case Some(Sin) => ar.sin(v)
    case Some(Cos) => ar.cos(v)
    case Some(Tan) => ar.tan(v)
  }

  /** Every index in `cs` is a node after `h`. */
  predicate AfterAll(ns: seq<Node>, h: nat, cs: seq<nat>) {
    forall k :: 0 <= k < |cs| ==> h < cs[k] < |ns|
  }

  /** Every index in `cs` is a child of `h`. */
  predicate ChildrenOf(ns: seq<Node>, h: nat, cs: seq<nat>) {
    forall k :: 0 <= k < |cs| ==> h < cs[k] < |ns| && ns[cs[k]].parent == Some(h)
  }

  /** The value of the subtree under `h`. A childless head yields its own
      value. Otherwise the children are folded left to right, seeded with the
      head's own value, and the head's scope function is applied last. */
  function Eval(ar: Arith, ns: seq<Node>, h: nat): (r: Result<real>)
    requires WellFormed(ns) && h < |ns|
    ensures r == Failure(NoValue) <==> Empty(ns[h])
    decreases |ns| - h, 1, 0
  {
    if ns[h].children == [] then
      if ns[h].value.Some? then Success(ns[h].value.value) else Failure(NoValue)
    else
      match Fold(ar, ns, h, ns[h].children, ns[h].value)
      case Failure(e) => Failure(e)
      case Success(None) => Failure(EmptyOperand)
      case Success(Some(v)) => Success(ApplyUnary(ar, ns[h].unOp, v))
  }

  /** The running value after folding the children `cs` of `h`, in order,
      into `seed`. Empty children are passed over; the first child that is
      not empty seeds an absent running value; every later one is combined
      with its own operator. */
  function Fold(ar: Arith, ns: seq<Node>, h: nat, cs: seq<nat>, seed: Option<real>): (r: Result<Option<real>>)
    requires WellFormed(ns) && h < |ns| && AfterAll(ns, h, cs)
    ensures r != Failure(NoValue)
    ensures r.Success? && seed.Some? ==> r.value.Some?
    decreases |ns| - h, 0, |cs|
  {
    if cs == [] then Success(seed)
    else
      match Fold(ar, ns, h, cs[..|cs| - 1], seed)
      case Failure(e) => Failure(e)
      case Success(acc) =>
        var c := cs[|cs| - 1];
        if Empty(ns[c]) then Success(acc)
        else
          match Eval(ar, ns, c)
          case Failure(e) => Failure(e)
          case Success(v) => Success(Some(if acc.None? then v else Combine(ar, ns[c].opToParent, acc.value, v)))
  }

  /** Once a prefix of the children fails, the whole fold fails the same way. */
  lemma {:induction false} FoldFailurePersists(ar: Arith, ns: seq<Node>, h: nat, cs: seq<nat>, k: nat, seed: Option<real>)
    requires WellFormed(ns) && h < |ns| && AfterAll(ns, h, cs) && k <= |cs|
    requires Fold(ar, ns, h, cs[..k], seed).Failure?
    ensures Fold(ar, ns, h, cs, seed) == Fold(ar, ns, h, cs[..k], seed)
    decreases |cs|
  {
    if k < |cs| {
      var init := cs[..|cs| - 1];
      assert init[..k] == cs[..k];
      FoldFailurePersists(ar, ns, h, init, k, seed);
    } else {
      assert cs[..k] == cs;
    }
  }

  /** A trailing empty child does not change the fold. */
  lemma FoldSkipsEmptyLast(ar: Arith, ns: seq<Node>, h: nat, cs: seq<nat>, c: nat, seed: Option<real>)
    requires WellFormed(ns) && h < |ns| && AfterAll(ns, h, cs) && h < c < |ns| && Empty(ns[c])
    ensures Fold(ar, ns, h, cs + [c], seed) == Fold(ar, ns, h, cs, seed)
  {
    assert AfterAll(ns, h, cs + [c]);
    assert (cs + [c])[..|cs|] == cs;
  }

  /** Evaluation of `h` reads only the subtree under `h`: another arena with
      the same shape and the same values there evaluates `h` the same way. */
  lemma {:induction false} EvalFrame(ar: Arith, a: seq<Node>, b: seq<Node>, h: nat)
    requires WellFormed(a) && WellFormed(b) && SameShape(a, b) && h < |a|
    requires forall x :: 0 <= x < |a| && Descends(a, x, h) ==> a[x].value == b[x].value
    ensures Eval(ar, a, h) == Eval(ar, b, h)
    decreases |a| - h, 1, 0
  {
    assert Descends(a, h, h);
    if a[h].children != [] {
      assert LinksBack(a, h);
      FoldFrame(ar, a, b, h, a[h].children, a[h].value);
    }
  }

  lemma {:induction false} FoldFrame(ar: Arith, a: seq<Node>, b: seq<Node>, h: nat, cs: seq<nat>, seed: Option<real>)
    requires WellFormed(a) && WellFormed(b) && SameShape(a, b) && h < |a| && ChildrenOf(a, h, cs)
    requires forall x :: 0 <= x < |a| && Descends(a, x, h) ==> a[x].value == b[x].value
    ensures Fold(ar, a, h, cs, seed) == Fold(ar, b, h, cs, seed)
    decreases |a| - h, 0, |cs|
  {
    if cs != [] {
      var c := cs[|cs| - 1];
      FoldFrame(ar, a, b, h, cs[..|cs| - 1], seed);
      assert Descends(a, c, h);
      forall x | 0 <= x < |a| && Descends(a, x, c)
        ensures a[x].value == b[x].value
      {
        DescendsTransitive(a, x, c, h);
      }
      assert Descends(a, c, c);
      EvalFrame(ar, a, b, c);
    }
  }

  /** Linking an empty node under a node that already has children changes
      the value of no old node: evaluation passes over empty children. This
      covers the marker a close-parenthesis leaves behind. */
  lemma EvalIgnoresEmptyChild(ar: Arith, ns: seq<Node>, p: nat, child: Node, h: nat)
    requires WellFormed(ns) && p < |ns| && ns[p].children != [] && Detached(child) && Empty(child)
    requires h < |ns|
    ensures WellFormed(Attach(ns, p, child))
    ensures Eval(ar, Attach(ns, p, child), h) == Eval(ar, ns, h)
  {
    AttachWellFormed(ns, p, child);
    EvalLinkedEmpty(ar, ns, Attach(ns, p, child), p, h);
  }

  lemma {:induction false} EvalLinkedEmpty(ar: Arith, ns: seq<Node>, r: seq<Node>, p: nat, h: nat)
    requires WellFormed(ns) && WellFormed(r) && p < |ns| && ns[p].children != [] && h < |ns|
    requires |r| == |ns| + 1 && Empty(r[|ns|])
    requires r[p] == ns[p].(children := ns[p].children + [|ns|])
    requires forall i :: 0 <= i < |ns| && i != p ==> r[i] == ns[i]
    ensures Eval(ar, r, h) == Eval(ar, ns, h)
    decreases |ns| - h, 1, 0
  {
    var cs := ns[h].children;
    var seed := ns[h].value;
    assert r[h].value == seed && r[h].unOp == ns[h].unOp;
    if cs != [] {
      assert AfterAll(ns, h, cs);
      FoldLinkedEmpty(ar, ns, r, p, h, cs, seed);
      if h == p {
        assert AfterAll(r, h, cs);
        FoldSkipsEmptyLast(ar, r, p, cs, |ns|, seed);
        assert Fold(ar, r, h, r[h].children, seed) == Fold(ar, ns, h, cs, seed);
      } else {
        assert r[h].children == cs;
      }
    } else {
      assert r[h] == ns[h];
    }
  }

  lemma {:induction false} FoldLinkedEmpty(ar: Arith, ns: seq<Node>, r: seq<Node>, p: nat, h: nat, cs: seq<nat>, seed: Option<real>)
    requires WellFormed(ns) && WellFormed(r) && p < |ns| && ns[p].children != [] && h < |ns|
    requires |r| == |ns| + 1 && Empty(r[|ns|])
    requires r[p] == ns[p].(children := ns[p].children + [|ns|])
    requires forall i :: 0 <= i < |ns| && i != p ==> r[i] == ns[i]
    requires AfterAll(ns, h, cs)
    ensures Fold(ar, r, h, cs, seed) == Fold(ar, ns, h, cs, seed)
    decreases |ns| - h, 0, |cs|
  {
    if cs != [] {
      FoldLinkedEmpty(ar, ns, r, p, h, cs[..|cs| - 1], seed);
      var c := cs[|cs| - 1];
      assert Empty(r[c]) <==> Empty(ns[c]);
      EvalLinkedEmpty(ar, ns, r, p, c);
    }
  }
}
