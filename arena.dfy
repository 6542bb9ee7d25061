/** The node arena: well-formedness, ancestry and linking a child. */
module Arena {
  import opened Nodes

  /** Every parent index is smaller than the index of its child. */
  predicate ParentsBelow(ns: seq<Node>) {
    forall i :: 0 <= i < |ns| && ns[i].parent.Some? ==> ns[i].parent.value < i
  }

  /** A well-formed tree: node 0 is the only root; every other node appears in
      its parent's children, every child points back at its parent, and no
      child is listed twice. */
  predicate WellFormed(ns: seq<Node>) {
    && |ns| > 0
    && ns[0].parent.None?
    && ParentsBelow(ns)
    && (forall i :: 0 < i < |ns| ==> ns[i].parent.Some?)
    && (forall i {:trigger Listed(ns, i)} :: 0 < i < |ns| ==> Listed(ns, i))
    && (forall i, k :: 0 <= i < |ns| && 0 <= k < |ns[i].children| ==> i < ns[i].children[k] < |ns|)
    && (forall i {:trigger LinksBack(ns, i)} :: 0 <= i < |ns| ==> LinksBack(ns, i))
  }

  /** The children of node `i` are listed once each and point back at `i`. */
  predicate LinksBack(ns: seq<Node>, i: nat)
    requires i < |ns| && forall k :: 0 <= k < |ns[i].children| ==> ns[i].children[k] < |ns|
  {
    && (forall k :: 0 <= k < |ns[i].children| ==> ns[ns[i].children[k]].parent == Some(i))
    && (forall k, l :: 0 <= k < l < |ns[i].children| ==> ns[i].children[k] != ns[i].children[l])
  }

  /** Node `i` appears among the children of its parent. */
  predicate Listed(ns: seq<Node>, i: nat)
    requires ParentsBelow(ns) && i < |ns|
  {
    ns[i].parent.Some? && i in ns[ns[i].parent.value].children
  }

  /** `a` lies on the path from `x` up to the root (`x` itself included). */
  predicate Descends(ns: seq<Node>, x: nat, a: nat)
    requires ParentsBelow(ns) && x < |ns|
    decreases x
  {
    x == a || (ns[x].parent.Some? && Descends(ns, ns[x].parent.value, a))
  }

  lemma {:induction false} DescendsBelow(ns: seq<Node>, x: nat, a: nat)
    requires ParentsBelow(ns) && x < |ns| && Descends(ns, x, a)
    ensures a <= x
    decreases x
  {
    if x != a {
      DescendsBelow(ns, ns[x].parent.value, a);
    }
  }

  lemma {:induction false} DescendsTransitive(ns: seq<Node>, x: nat, y: nat, z: nat)
    requires ParentsBelow(ns) && x < |ns| && y < |ns|
    requires Descends(ns, x, y) && Descends(ns, y, z)
    ensures Descends(ns, x, z)
    decreases x
  {
    if x != y {
      DescendsTransitive(ns, ns[x].parent.value, y, z);
    }
  }

  /** Two ancestors of one node are themselves related by ancestry. */
  lemma {:induction false} DescendsLinear(ns: seq<Node>, x: nat, a: nat, b: nat)
    requires ParentsBelow(ns) && x < |ns| && a < |ns| && b < |ns|
    requires Descends(ns, x, a) && Descends(ns, x, b)
    ensures Descends(ns, a, b) || Descends(ns, b, a)
    decreases x
  {
    if x != a && x != b {
      DescendsLinear(ns, ns[x].parent.value, a, b);
    }
  }

  /** The subtrees of two distinct siblings share no node. */
  lemma SiblingsDisjoint(ns: seq<Node>, h: nat, c1: nat, c2: nat, x: nat)
    requires ParentsBelow(ns) && c1 < |ns| && c2 < |ns| && x < |ns| && c1 != c2
    requires ns[c1].parent == Some(h) && ns[c2].parent == Some(h)
    ensures !(Descends(ns, x, c1) && Descends(ns, x, c2))
  {
    if Descends(ns, x, c1) && Descends(ns, x, c2) {
      DescendsLinear(ns, x, c1, c2);
      if Descends(ns, c1, c2) {
        DescendsBelow(ns, h, c2);
      } else {
        DescendsBelow(ns, h, c1);
      }
    }
  }

  /** Two arenas with the same links, operators and scope tags; values, node
      types and scope flags may differ. */
  predicate SameShape(a: seq<Node>, b: seq<Node>) {
    |a| == |b| &&
    forall i :: 0 <= i < |a| ==>
      a[i].parent == b[i].parent && a[i].children == b[i].children &&
      a[i].opToParent == b[i].opToParent && a[i].unOp == b[i].unOp
  }

  lemma {:induction false} SameShapeDescends(a: seq<Node>, b: seq<Node>, x: nat, y: nat)
    requires SameShape(a, b) && ParentsBelow(a) && x < |a|
    ensures ParentsBelow(b) && (Descends(a, x, y) <==> Descends(b, x, y))
    decreases x
  {
    if x != y && a[x].parent.Some? {
      SameShapeDescends(a, b, a[x].parent.value, y);
    }
  }

  lemma SameShapeWellFormed(a: seq<Node>, b: seq<Node>)
    requires SameShape(a, b) && WellFormed(a)
    ensures WellFormed(b)
    ensures forall x, y :: 0 <= x < |a| ==> (Descends(a, x, y) <==> Descends(b, x, y))
  {
    forall i | 0 < i < |b| ensures Listed(b, i) {
      assert Listed(a, i);
    }
    forall i | 0 <= i < |b| ensures LinksBack(b, i) {
      assert LinksBack(a, i);
    }
    forall x, y | 0 <= x < |a| ensures Descends(a, x, y) <==> Descends(b, x, y) {
      SameShapeDescends(a, b, x, y);
    }
  }

  /** Changing a node's value, type or scope flag keeps the arena well-formed. */
  lemma RelabelWellFormed(ns: seq<Node>, j: nat, n: Node)
    requires WellFormed(ns) && j < |ns|
    requires n.parent == ns[j].parent && n.children == ns[j].children
    ensures WellFormed(ns[j := n])
  {
    var r := ns[j := n];
    forall i | 0 < i < |r| ensures Listed(r, i) {
      assert Listed(ns, i);
    }
    forall i | 0 <= i < |r| ensures LinksBack(r, i) {
      assert LinksBack(ns, i);
    }
  }

  /** `r` is `ns` with one more node, `child` linked to `p`: it is stored at
      the end, points back at `p`, and is appended to the children of `p`,
      whose earlier children keep their order; no other node changes. */
  predicate AddsChild(ns: seq<Node>, r: seq<Node>, p: nat, child: Node) {
    && p < |ns| && |r| == |ns| + 1
    && r[|ns|] == child.(parent := Some(p))
    && r[p] == ns[p].(children := ns[p].children + [|ns|])
    && forall i :: 0 <= i < |ns| && i != p ==> r[i] == ns[i]
  }

  /** `addChild`, on the arena. */
  function Attach(ns: seq<Node>, p: nat, child: Node): (r: seq<Node>)
    requires p < |ns|
    ensures AddsChild(ns, r, p, child)
  {
    ns[p := ns[p].(children := ns[p].children + [|ns|])] + [child.(parent := Some(p))]
  }

  /** Linking a detached node keeps the arena well-formed. */
  lemma AttachWellFormed(ns: seq<Node>, p: nat, child: Node)
    requires WellFormed(ns) && p < |ns| && Detached(child)
    ensures WellFormed(Attach(ns, p, child))
  {
    AttachDescends(ns, p, child, 0, 0);
    AttachBackLinks(ns, p, child);
    AttachChildLinks(ns, p, child);
    AttachLinksBack(ns, p, child);
  }

  lemma AttachBackLinks(ns: seq<Node>, p: nat, child: Node)
    requires WellFormed(ns) && p < |ns| && Detached(child)
    ensures ParentsBelow(Attach(ns, p, child))
    ensures var r := Attach(ns, p, child);
      forall i {:trigger Listed(r, i)} :: 0 < i < |r| ==> Listed(r, i)
  {
    var r := Attach(ns, p, child);
    AttachDescends(ns, p, child, 0, 0);
    forall i | 0 < i < |r|
      ensures Listed(r, i)
    {
      if i < |ns| {
        assert Listed(ns, i);
        var q := ns[i].parent.value;
        assert ns[q].children <= r[q].children;
      } else {
        assert r[p].children[|ns[p].children|] == |ns|;
      }
    }
  }

  lemma AttachChildLinks(ns: seq<Node>, p: nat, child: Node)
    requires WellFormed(ns) && p < |ns| && Detached(child)
    ensures var r := Attach(ns, p, child);
      forall i, k :: 0 <= i < |r| && 0 <= k < |r[i].children| ==> i < r[i].children[k] < |r|
  {
    var r := Attach(ns, p, child);
    forall i, k | 0 <= i < |r| && 0 <= k < |r[i].children|
      ensures i < r[i].children[k] < |r|
    {
      if i == p && k == |ns[p].children| {
        assert r[i].children[k] == |ns|;
      } else {
        assert r[i].children[k] == ns[i].children[k];
      }
    }
  }

  lemma AttachLinksBack(ns: seq<Node>, p: nat, child: Node)
    requires WellFormed(ns) && p < |ns| && Detached(child)
    ensures var r := Attach(ns, p, child);
      forall i {:trigger LinksBack(r, i)} :: 0 <= i < |r| ==> LinksBack(r, i)
  {
    var r := Attach(ns, p, child);
    AttachChildLinks(ns, p, child);
    forall i | 0 <= i < |r| ensures LinksBack(r, i) {
      if i == p {
        assert LinksBack(ns, i);
        forall k, l | 0 <= k < l < |r[i].children| ensures r[i].children[k] != r[i].children[l] {
          if l == |ns[p].children| {
            assert r[i].children[k] == ns[p].children[k] < |ns|;
          }
        }
      } else if i < |ns| {
        assert LinksBack(ns, i);
      }
    }
  }

  /** Linking a node leaves the ancestry of every old node as it was. */
  lemma {:induction false} AttachDescends(ns: seq<Node>, p: nat, child: Node, x: nat, y: nat)
    requires WellFormed(ns) && p < |ns| && Detached(child) && x < |ns|
    ensures ParentsBelow(Attach(ns, p, child))
    ensures Descends(Attach(ns, p, child), x, y) <==> Descends(ns, x, y)
    decreases x
  {
    if x != y && ns[x].parent.Some? {
      AttachDescends(ns, p, child, ns[x].parent.value, y);
    }
  }
}
