/** Cancelable contexts: a forest grown by forking, in which a context counts as canceled when it
    or any context above it has been. A context is identified by its position in the order of
    creation, which stands for the identity of its `Arc`. */
module Contexts {
  import opened Machine

  datatype Node = Node(parent: Option<nat>, canceled: bool)

  /** Parents are created before their children. */
  ghost predicate WellFormed(tree: seq<Node>)
  {
    forall i :: 0 <= i < |tree| && tree[i].parent.Some? ==> tree[i].parent.value < i
  }

  /** The context `n` steps up the parent chain. */
  ghost function Up(tree: seq<Node>, i: nat, n: nat): Option<nat>
    requires WellFormed(tree) && i < |tree|
    decreases n
  {
    if n == 0 then Some(i)
    else if tree[i].parent.None? then None
    else Up(tree, tree[i].parent.value, n - 1)
  }

  ghost predicate Above(tree: seq<Node>, a: nat, i: nat)
    requires WellFormed(tree) && i < |tree|
  {
    exists n: nat :: Up(tree, i, n) == Some(a)
  }

  ghost predicate StrictlyAbove(tree: seq<Node>, a: nat, i: nat)
    requires WellFormed(tree) && i < |tree|
  {
    exists n: nat :: n > 0 && Up(tree, i, n) == Some(a)
  }

  ghost predicate Canceled(tree: seq<Node>, i: nat)
    requires WellFormed(tree) && i < |tree|
  {
    exists a: nat :: Above(tree, a, i) && a < |tree| && tree[a].canceled
  }

  lemma {:induction false} UpDescends(tree: seq<Node>, i: nat, n: nat)
    requires WellFormed(tree) && i < |tree| && Up(tree, i, n).Some?
    ensures Up(tree, i, n).value + n <= i
    decreases n
  {
    if n > 0 {
      UpDescends(tree, tree[i].parent.value, n - 1);
    }
  }

  lemma {:induction false} UpAdds(tree: seq<Node>, i: nat, m: nat, n: nat)
    requires WellFormed(tree) && i < |tree| && Up(tree, i, m).Some?
    ensures Up(tree, i, m).value < |tree|
    ensures Up(tree, i, m + n) == Up(tree, Up(tree, i, m).value, n)
    decreases m
  {
    if m > 0 {
      UpAdds(tree, tree[i].parent.value, m - 1, n);
    }
  }

  /** The contexts above `i`: itself, and those above its parent. */
  lemma AboveUnfolds(tree: seq<Node>, a: nat, i: nat)
    requires WellFormed(tree) && i < |tree|
    ensures Above(tree, a, i) <==> a == i || StrictlyAbove(tree, a, i)
    ensures StrictlyAbove(tree, a, i) <==> tree[i].parent.Some? && Above(tree, a, tree[i].parent.value)
  {
    assert Up(tree, i, 0) == Some(i);
    if StrictlyAbove(tree, a, i) {
      var n: nat :| n > 0 && Up(tree, i, n) == Some(a);
      assert Up(tree, tree[i].parent.value, n - 1) == Some(a);
    }
    if tree[i].parent.Some? && Above(tree, a, tree[i].parent.value) {
      var n: nat :| Up(tree, tree[i].parent.value, n) == Some(a);
      assert Up(tree, i, n + 1) == Some(a);
    }
  }

  lemma CanceledUnfolds(tree: seq<Node>, i: nat)
    requires WellFormed(tree) && i < |tree|
    ensures Canceled(tree, i) <==>
            tree[i].canceled || (tree[i].parent.Some? && Canceled(tree, tree[i].parent.value))
  {
    forall a: nat
      ensures Above(tree, a, i) <==> a == i || (tree[i].parent.Some? && Above(tree, a, tree[i].parent.value))
    {
      AboveUnfolds(tree, a, i);
    }
    if tree[i].canceled {
      assert Above(tree, i, i);
    }
    if tree[i].parent.Some? && Canceled(tree, tree[i].parent.value) {
      var a: nat :| Above(tree, a, tree[i].parent.value) && a < |tree| && tree[a].canceled;
      assert Above(tree, a, i);
    }
  }

  /** "Strictly above" is a strict order. */
  lemma StrictlyAboveIsOrder(tree: seq<Node>, a: nat, b: nat, c: nat)
    requires WellFormed(tree) && b < |tree| && c < |tree|
    ensures !StrictlyAbove(tree, c, c)
    ensures StrictlyAbove(tree, b, c) ==> b < c
    ensures StrictlyAbove(tree, a, b) && StrictlyAbove(tree, b, c) ==> StrictlyAbove(tree, a, c)
  {
    forall d: nat, n: nat | n > 0 && Up(tree, c, n) == Some(d)
      ensures d < c
    {
      UpDescends(tree, c, n);
    }
    if StrictlyAbove(tree, a, b) && StrictlyAbove(tree, b, c) {
      var m: nat :| m > 0 && Up(tree, c, m) == Some(b);
      var n: nat :| n > 0 && Up(tree, b, n) == Some(a);
      UpAdds(tree, c, m, n);
      assert Up(tree, c, m + n) == Some(a);
    }
  }

  /** The parent chains are those of the shape alone. */
  lemma {:induction false} UpSameShape(tree: seq<Node>, other: seq<Node>, i: nat, n: nat)
    requires WellFormed(tree) && WellFormed(other) && i < |tree| <= |other|
    requires forall j :: 0 <= j < |tree| ==> tree[j].parent == other[j].parent
    ensures Up(tree, i, n) == Up(other, i, n)
    decreases n
  {
    if n > 0 && tree[i].parent.Some? {
      UpSameShape(tree, other, tree[i].parent.value, n - 1);
    }
  }

  lemma AboveSameShape(tree: seq<Node>, other: seq<Node>, a: nat, i: nat)
    requires WellFormed(tree) && WellFormed(other) && i < |tree| <= |other|
    requires forall j :: 0 <= j < |tree| ==> tree[j].parent == other[j].parent
    ensures Above(tree, a, i) <==> Above(other, a, i)
    ensures StrictlyAbove(tree, a, i) <==> StrictlyAbove(other, a, i)
  {
    forall n: nat
      ensures Up(tree, i, n) == Up(other, i, n)
    {
      UpSameShape(tree, other, i, n);
    }
  }

  /** Canceling a handle cancels exactly the contexts at or below it. */
  lemma CancelHitsSubtree(tree: seq<Node>, a: nat, i: nat)
    requires WellFormed(tree) && a < |tree| && i < |tree|
    ensures var after := tree[a := tree[a].(canceled := true)];
            WellFormed(after) && (Canceled(after, i) <==> Canceled(tree, i) || Above(tree, a, i))
  {
    var after := tree[a := tree[a].(canceled := true)];
    forall b: nat
      ensures Above(tree, b, i) <==> Above(after, b, i)
    {
      AboveSameShape(tree, after, b, i);
    }
  }

  /** A fork sits right below the context it was made from, and disturbs no other. */
  lemma ForkSitsBelow(tree: seq<Node>, p: nat, a: nat, i: nat)
    requires WellFormed(tree) && p < |tree| && i < |tree|
    ensures var after := tree + [Node(Some(p), false)];
            && WellFormed(after)
            && (StrictlyAbove(after, a, |tree|) <==> Above(tree, a, p))
            && (StrictlyAbove(after, a, i) <==> StrictlyAbove(tree, a, i))
            && (Canceled(after, |tree|) <==> Canceled(tree, p))
            && (Canceled(after, i) <==> Canceled(tree, i))
  {
    var after := tree + [Node(Some(p), false)];
    AboveUnfolds(after, a, |tree|);
    AboveSameShape(tree, after, a, p);
    AboveSameShape(tree, after, a, i);
    CanceledUnfolds(after, |tree|);
    CanceledSameNodes(tree, after, p);
    CanceledSameNodes(tree, after, i);
  }

  lemma CanceledSameNodes(tree: seq<Node>, after: seq<Node>, i: nat)
    requires WellFormed(tree) && WellFormed(after) && i < |tree| <= |after| && after[..|tree|] == tree
    ensures Canceled(after, i) <==> Canceled(tree, i)
  {
    forall j | 0 <= j < |tree|
      ensures tree[j] == after[j]
    {
      assert after[..|tree|][j] == after[j];
    }
    forall a: nat
      ensures Above(tree, a, i) <==> Above(after, a, i)
      ensures Above(tree, a, i) ==> a < |tree|
    {
      AboveSameShape(tree, after, a, i);
      if Above(tree, a, i) {
        AboveInTree(tree, a, i);
      }
    }
  }

  lemma AboveInTree(tree: seq<Node>, a: nat, i: nat)
    requires WellFormed(tree) && i < |tree| && Above(tree, a, i)
    ensures a < |tree|
  {
    var n: nat :| Up(tree, i, n) == Some(a);
    UpDescends(tree, i, n);
  }

  class ContextForest {
    var nodes: seq<Node>

    constructor ()
      ensures nodes == []
    {
      nodes := [];
    }

    /** `BackoffContext::new`. */
    method NewRoot() returns (ctx: nat)
      requires WellFormed(nodes)
      modifies this
      ensures WellFormed(nodes) && ctx == |old(nodes)| && nodes == old(nodes) + [Node(None, false)]
      ensures !Canceled(nodes, ctx) && forall a: nat :: !StrictlyAbove(nodes, a, ctx)
      ensures forall i: nat :: i < ctx ==> (Canceled(nodes, i) <==> Canceled(old(nodes), i))
    {
      ctx := |nodes|;
      ghost var before := nodes;
      nodes := nodes + [Node(None, false)];
      CanceledUnfolds(nodes, ctx);
      forall i: nat | i < ctx
        ensures Canceled(nodes, i) <==> Canceled(before, i)
      {
        CanceledSameNodes(before, nodes, i);
      }
    }

    /** `with_cancel`. */
    method WithCancel(parent: nat) returns (ctx: nat)
      requires WellFormed(nodes) && parent < |nodes|
      modifies this
      ensures WellFormed(nodes) && ctx == |old(nodes)| && nodes == old(nodes) + [Node(Some(parent), false)]
      ensures forall a: nat :: StrictlyAbove(nodes, a, ctx) <==> Above(old(nodes), a, parent)
    {
      forall a: nat
        ensures var after := nodes + [Node(Some(parent), false)];
                WellFormed(after) && (StrictlyAbove(after, a, |nodes|) <==> Above(nodes, a, parent))
      {
        ForkSitsBelow(nodes, parent, a, parent);
      }
      ctx := |nodes|;
      nodes := nodes + [Node(Some(parent), false)];
    }

    /** `BackoffCancel::cancel`. */
    method Cancel(ctx: nat)
      requires WellFormed(nodes) && ctx < |nodes|
      modifies this
      ensures |nodes| == |old(nodes)| && WellFormed(nodes)
      ensures nodes == old(nodes)[ctx := old(nodes)[ctx].(canceled := true)]
      ensures forall i: nat :: i < |nodes| ==>
                (Canceled(nodes, i) <==> Canceled(old(nodes), i) || Above(old(nodes), ctx, i))
    {
      forall i: nat | i < |nodes|
        ensures var after := nodes[ctx := nodes[ctx].(canceled := true)];
                WellFormed(after) && (Canceled(after, i) <==> Canceled(nodes, i) || Above(nodes, ctx, i))
      {
        CancelHitsSubtree(nodes, ctx, i);
      }
      nodes := nodes[ctx := nodes[ctx].(canceled := true)];
    }

    /** `is_canceled`: walks up until a canceled context or the root. */
    method IsCanceled(ctx: nat) returns (canceled: bool)
      requires WellFormed(nodes) && ctx < |nodes|
      ensures canceled <==> Canceled(nodes, ctx)
    {
      var cursor: Option<nat> := Some(ctx);
      while cursor.Some?
        invariant cursor.Some? ==> cursor.value < |nodes|
        invariant Canceled(nodes, ctx) <==> cursor.Some? && Canceled(nodes, cursor.value)
        decreases if cursor.Some? then cursor.value + 1 else 0
      {
        CanceledUnfolds(nodes, cursor.value);
        if nodes[cursor.value].canceled {
          return true;
        }
        cursor := nodes[cursor.value].parent;
      }
      return false;
    }

    /** `strict_has_ancestor`: walks up from the parent looking for the very same context. */
    method StrictHasAncestor(ctx: nat, ancestor: nat) returns (found: bool)
      requires WellFormed(nodes) && ctx < |nodes|
      ensures found <==> StrictlyAbove(nodes, ancestor, ctx)
    {
      var cursor: Option<nat> := nodes[ctx].parent;
      AboveUnfolds(nodes, ancestor, ctx);
      while cursor.Some?
        invariant cursor.Some? ==> cursor.value < |nodes|
        invariant StrictlyAbove(nodes, ancestor, ctx) <==> cursor.Some? && Above(nodes, ancestor, cursor.value)
        decreases if cursor.Some? then cursor.value + 1 else 0
      {
        AboveUnfolds(nodes, ancestor, cursor.value);
        if cursor.value == ancestor {
          return true;
        }
        cursor := nodes[cursor.value].parent;
      }
      return false;
    }
  }
}
