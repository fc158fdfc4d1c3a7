/** Interceptor chains: nested chains are flattened when linked, a later interceptor replaces an
    earlier one of the same name, and the result composes like the layers of an onion. */
module Interceptors {

  /** What runs on an outgoing request: the request's context before and after. */
  type Func<!I, !C> = (I, C) -> C

  /** Anything implementing `RpcInterceptor`: a single interceptor, given by its name and its
      `wrap`, or a chain of interceptors. */
  datatype Interceptor<!I, !C> =
    | Leaf(name: string, wrapper: Func<I, C> -> Func<I, C>)
    | Chain(items: seq<Interceptor<I, C>>)

  /** The default `wrap`: `before_send`, then the rest. */
  function DefaultWrap<I, C>(before: Func<I, C>): Func<I, C> -> Func<I, C>
  {
    (next: Func<I, C>) => (info: I, ctx: C) => next(info, before(info, ctx))
  }

  function Default<I, C>(name: string, before: Func<I, C>): Interceptor<I, C>
  {
    Leaf(name, DefaultWrap(before))
  }

  /** The single interceptors of a nested structure, outermost first. */
  function Flatten<I, C>(it: Interceptor<I, C>): seq<Interceptor<I, C>>
    decreases it, 1
  {
    match it
    case Leaf(_, _) => [it]
    case Chain(items) => FlattenAll(items)
  }

  function FlattenAll<I, C>(items: seq<Interceptor<I, C>>): seq<Interceptor<I, C>>
    decreases items, 0
  {
    if items == [] then [] else Flatten(items[0]) + FlattenAll(items[1..])
  }

  predicate Named<I, C>(it: Interceptor<I, C>, name: string)
  {
    it.Leaf? && it.name == name
  }

  /** Drops the first interceptor of that name, as `position` and `remove` do. */
  function RemoveFirst<I, C>(chain: seq<Interceptor<I, C>>, name: string): seq<Interceptor<I, C>>
  {
    if chain == [] then []
    else if Named(chain[0], name) then chain[1..]
    else [chain[0]] + RemoveFirst(chain[1..], name)
  }

  /** `link`. */
  function LinkTo<I, C>(chain: seq<Interceptor<I, C>>, it: Interceptor<I, C>): seq<Interceptor<I, C>>
    decreases it, 1
  {
    match it
    case Chain(items) => LinkAll(chain, items)
    case Leaf(name, _) => RemoveFirst(chain, name) + [it]
  }

  function LinkAll<I, C>(chain: seq<Interceptor<I, C>>, items: seq<Interceptor<I, C>>): seq<Interceptor<I, C>>
    decreases items, 0
  {
    if items == [] then chain else LinkAll(LinkTo(chain, items[0]), items[1..])
  }

  ghost predicate Occurs<I, C>(xs: seq<Interceptor<I, C>>, name: string)
  {
    exists i :: 0 <= i < |xs| && Named(xs[i], name)
  }

  ghost predicate AllLeaves<I, C>(xs: seq<Interceptor<I, C>>)
  {
    forall i :: 0 <= i < |xs| ==> xs[i].Leaf?
  }

  /** The list with only the last occurrence of each name kept. */
  ghost function KeepLast<I, C>(xs: seq<Interceptor<I, C>>): seq<Interceptor<I, C>>
    requires AllLeaves(xs)
  {
    if xs == [] then []
    else if Occurs(xs[1..], xs[0].name) then KeepLast(xs[1..])
    else [xs[0]] + KeepLast(xs[1..])
  }

  lemma {:induction false} FlattenLeaves<I, C>(it: Interceptor<I, C>)
    ensures AllLeaves(Flatten(it))
    decreases it, 1
  {
    if it.Chain? {
      FlattenAllLeaves(it.items);
    }
  }

  lemma {:induction false} FlattenAllLeaves<I, C>(items: seq<Interceptor<I, C>>)
    ensures AllLeaves(FlattenAll(items))
    decreases items, 0
  {
    if items != [] {
      FlattenLeaves(items[0]);
      FlattenAllLeaves(items[1..]);
    }
  }

  lemma OccursSplits<I, C>(a: seq<Interceptor<I, C>>, b: seq<Interceptor<I, C>>, name: string)
    ensures Occurs(a + b, name) <==> Occurs(a, name) || Occurs(b, name)
  {
    if Occurs(a, name) {
      var i :| 0 <= i < |a| && Named(a[i], name);
      assert Named((a + b)[i], name);
    }
    if Occurs(b, name) {
      var i :| 0 <= i < |b| && Named(b[i], name);
      assert Named((a + b)[|a| + i], name);
    }
  }

  lemma {:induction false} KeepLastOccurs<I, C>(xs: seq<Interceptor<I, C>>, name: string)
    requires AllLeaves(xs)
    ensures AllLeaves(KeepLast(xs)) && (Occurs(KeepLast(xs), name) <==> Occurs(xs, name))
    decreases xs
  {
    if xs != [] {
      KeepLastOccurs(xs[1..], name);
      assert xs == [xs[0]] + xs[1..];
      OccursSplits([xs[0]], xs[1..], name);
      OccursSplits([xs[0]], KeepLast(xs[1..]), name);
      assert Occurs([xs[0]], name) <==> Named(xs[0], name) by {
        assert [xs[0]][0] == xs[0];
      }
    }
  }

  lemma {:induction false} RemoveAbsent<I, C>(xs: seq<Interceptor<I, C>>, name: string)
    requires !Occurs(xs, name)
    ensures RemoveFirst(xs, name) == xs
    decreases xs
  {
    if xs != [] {
      assert !Named(xs[0], name);
      forall i | 0 <= i < |xs[1..]|
        ensures !Named(xs[1..][i], name)
      {
        assert xs[1..][i] == xs[i + 1];
      }
      RemoveAbsent(xs[1..], name);
    }
  }

  /** Linking one interceptor is appending it and keeping the last of each name. */
  lemma {:induction false} LinkLeafKeepsLast<I, C>(xs: seq<Interceptor<I, C>>, it: Interceptor<I, C>)
    requires AllLeaves(xs) && it.Leaf?
    ensures KeepLast(xs + [it]) == RemoveFirst(KeepLast(xs), it.name) + [it]
    decreases xs
  {
    if xs == [] {
      assert xs + [it] == [it];
      assert [it][1..] == [];
    } else {
      var rest := xs[1..];
      LinkLeafKeepsLast(rest, it);
      assert (xs + [it])[1..] == rest + [it];
      OccursSplits(rest, [it], xs[0].name);
      assert Occurs([it], xs[0].name) <==> it.name == xs[0].name by {
        assert [it][0] == it;
      }
      KeepLastOccurs(rest, it.name);
      if !Occurs(rest, xs[0].name) {
        assert KeepLast(xs) == [xs[0]] + KeepLast(rest);
        assert KeepLast(xs)[1..] == KeepLast(rest);
        if it.name == xs[0].name {
          RemoveAbsent(KeepLast(rest), it.name);
        }
      }
    }
  }

  /** Linking any structure, nested chains included. */
  lemma {:induction false} LinkKeepsLast<I, C>(xs: seq<Interceptor<I, C>>, it: Interceptor<I, C>)
    requires AllLeaves(xs)
    ensures AllLeaves(Flatten(it)) && LinkTo(KeepLast(xs), it) == KeepLast(xs + Flatten(it))
    decreases it, 1
  {
    FlattenLeaves(it);
    match it
    case Leaf(_, _) => LinkLeafKeepsLast(xs, it);
    case Chain(items) => LinkAllKeepsLast(xs, items);
  }

  /** Any sequence of links equals the flattened list with only the last occurrence of each name. */
  lemma {:induction false} LinkAllKeepsLast<I, C>(xs: seq<Interceptor<I, C>>, items: seq<Interceptor<I, C>>)
    requires AllLeaves(xs)
    ensures AllLeaves(FlattenAll(items)) && LinkAll(KeepLast(xs), items) == KeepLast(xs + FlattenAll(items))
    decreases items, 0
  {
    FlattenAllLeaves(items);
    if items == [] {
      assert xs + FlattenAll(items) == xs;
    } else {
      LinkKeepsLast(xs, items[0]);
      LinkAllKeepsLast(xs + Flatten(items[0]), items[1..]);
      assert xs + Flatten(items[0]) + FlattenAll(items[1..]) == xs + FlattenAll(items);
    }
  }

  /** No later interceptor has the name of the one at `i`. */
  ghost predicate LastOfName<I, C>(xs: seq<Interceptor<I, C>>, i: nat)
    requires AllLeaves(xs) && i < |xs|
  {
    forall j :: i < j < |xs| ==> xs[j].name != xs[i].name
  }

  lemma LastOfNameTail<I, C>(xs: seq<Interceptor<I, C>>, i: nat)
    requires AllLeaves(xs) && i < |xs|
    ensures i == 0 ==> (LastOfName(xs, 0) <==> !Occurs(xs[1..], xs[0].name))
    ensures i > 0 ==> (LastOfName(xs, i) <==> LastOfName(xs[1..], i - 1))
  {
    var rest := xs[1..];
    assert forall j :: 0 < j < |xs| ==> xs[j] == rest[j - 1];
    assert forall j :: 0 <= j < |rest| ==> rest[j] == xs[j + 1];
  }

  /** Every position moved up by one. */
  function Shift(at: seq<nat>): (r: seq<nat>)
    ensures |r| == |at| && forall k :: 0 <= k < |at| ==> r[k] == at[k] + 1
    ensures forall i: nat :: i in r <==> i > 0 && i - 1 in at
  {
    if at == [] then [] else [at[0] + 1] + Shift(at[1..])
  }

  ghost function KeptPositions<I, C>(xs: seq<Interceptor<I, C>>): seq<nat>
    requires AllLeaves(xs)
  {
    if xs == [] then []
    else if Occurs(xs[1..], xs[0].name) then Shift(KeptPositions(xs[1..]))
    else [0] + Shift(KeptPositions(xs[1..]))
  }

  lemma {:induction false} KeptCount<I, C>(xs: seq<Interceptor<I, C>>)
    requires AllLeaves(xs)
    ensures |KeptPositions(xs)| == |KeepLast(xs)|
    decreases xs
  {
    if xs != [] {
      KeptCount(xs[1..]);
    }
  }

  /** What `KeepLast` keeps: the interceptors at those positions, which increase... */
  lemma {:induction false} KeepLastPositions<I, C>(xs: seq<Interceptor<I, C>>, k: nat)
    requires AllLeaves(xs) && k < |KeepLast(xs)|
    ensures |KeptPositions(xs)| == |KeepLast(xs)|
    ensures KeptPositions(xs)[k] < |xs| && KeepLast(xs)[k] == xs[KeptPositions(xs)[k]]
    decreases xs
  {
    KeptCount(xs);
    if Occurs(xs[1..], xs[0].name) {
      KeepLastPositions(xs[1..], k);
    } else if k > 0 {
      KeepLastPositions(xs[1..], k - 1);
    }
  }

  lemma {:induction false} KeptPositionsIncrease<I, C>(xs: seq<Interceptor<I, C>>, k: nat, l: nat)
    requires AllLeaves(xs) && k < l < |KeptPositions(xs)|
    ensures KeptPositions(xs)[k] < KeptPositions(xs)[l]
    decreases xs
  {
    var below := KeptPositions(xs[1..]);
    if Occurs(xs[1..], xs[0].name) {
      assert KeptPositions(xs) == Shift(below);
      KeptPositionsIncrease(xs[1..], k, l);
    } else {
      assert KeptPositions(xs) == [0] + Shift(below);
      assert KeptPositions(xs)[l] == Shift(below)[l - 1];
      if k > 0 {
        assert KeptPositions(xs)[k] == Shift(below)[k - 1];
        KeptPositionsIncrease(xs[1..], k - 1, l - 1);
      }
    }
  }

  /** ... and are exactly those whose name does not recur. */
  lemma {:induction false} KeptIffLast<I, C>(xs: seq<Interceptor<I, C>>, i: nat)
    requires AllLeaves(xs) && i < |xs|
    ensures i in KeptPositions(xs) <==> LastOfName(xs, i)
    decreases xs
  {
    LastOfNameTail(xs, i);
    if i > 0 {
      KeptIffLast(xs[1..], i - 1);
    }
  }

  // Wrapping.

  /** `wrap`: the first interceptor is the outermost layer. */
  function Wrap<I, C>(it: Interceptor<I, C>, next: Func<I, C>): Func<I, C>
    decreases it, 1
  {
    match it
    case Leaf(_, wrapper) => wrapper(next)
    case Chain(items) => WrapAll(items, next)
  }

  function WrapAll<I, C>(items: seq<Interceptor<I, C>>, next: Func<I, C>): Func<I, C>
    decreases items, 0
  {
    if items == [] then next else Wrap(items[0], WrapAll(items[1..], next))
  }

  lemma {:induction false} WrapAppends<I, C>(a: seq<Interceptor<I, C>>, b: seq<Interceptor<I, C>>, next: Func<I, C>)
    ensures WrapAll(a + b, next) == WrapAll(a, WrapAll(b, next))
    decreases a
  {
    if a == [] {
      assert a + b == b;
    } else {
      assert (a + b)[1..] == a[1..] + b;
      WrapAppends(a[1..], b, next);
    }
  }

  /** Flattening preserves the meaning: a nested chain wraps like the list of its interceptors. */
  lemma {:induction false} FlattenPreservesWrap<I, C>(it: Interceptor<I, C>, next: Func<I, C>)
    ensures Wrap(it, next) == WrapAll(Flatten(it), next)
    decreases it, 1
  {
    match it
    case Leaf(_, _) =>
      assert [it][1..] == [];
      assert WrapAll([it], next) == Wrap(it, WrapAll([it][1..], next));
    case Chain(items) => FlattenAllPreservesWrap(items, next);
  }

  lemma {:induction false} FlattenAllPreservesWrap<I, C>(items: seq<Interceptor<I, C>>, next: Func<I, C>)
    ensures WrapAll(items, next) == WrapAll(FlattenAll(items), next)
    decreases items, 0
  {
    if items != [] {
      var inner := WrapAll(items[1..], next);
      FlattenPreservesWrap(items[0], inner);
      FlattenAllPreservesWrap(items[1..], next);
      WrapAppends(Flatten(items[0]), FlattenAll(items[1..]), next);
    }
  }

  /** The `before_send` functions applied one after the other. */
  function RunAll<I, C>(befores: seq<Func<I, C>>, info: I, ctx: C): C
  {
    if befores == [] then ctx else RunAll(befores[1..], info, befores[0](info, ctx))
  }

  ghost predicate AllDefault<I, C>(chain: seq<Interceptor<I, C>>, befores: seq<Func<I, C>>)
  {
    |chain| == |befores| &&
    forall i :: 0 <= i < |chain| ==> chain[i].Leaf? && chain[i] == Default(chain[i].name, befores[i])
  }

  /** A chain of default interceptors applies every `before_send` once, in link order, and then
      calls `next` once on the result. */
  lemma {:induction false} DefaultsRunInOrder<I, C>(chain: seq<Interceptor<I, C>>, befores: seq<Func<I, C>>,
                                                    next: Func<I, C>, info: I, ctx: C)
    requires AllDefault(chain, befores)
    ensures WrapAll(chain, next)(info, ctx) == next(info, RunAll(befores, info, ctx))
    decreases chain
  {
    if chain != [] {
      var inner := WrapAll(chain[1..], next);
      assert chain[0].wrapper == DefaultWrap(befores[0]);
      assert WrapAll(chain, next) == DefaultWrap(befores[0])(inner);
      DefaultsRunInOrder(chain[1..], befores[1..], next, info, befores[0](info, ctx));
    }
  }

  /** The elements at the given positions. */
  function Select<T>(xs: seq<T>, at: seq<nat>): seq<T>
    requires forall k :: 0 <= k < |at| ==> at[k] < |xs|
  {
    seq(|at|, k requires 0 <= k < |at| => xs[at[k]])
  }

  /** End to end: link any nested structure of default interceptors, in any number of steps, and run
      the chain. Each `before_send` that is the last of its name runs once, in order, then `next`. */
  lemma LinkedChainRuns<I, C>(items: seq<Interceptor<I, C>>, befores: seq<Func<I, C>>, next: Func<I, C>,
                              info: I, ctx: C)
    requires AllDefault(FlattenAll(items), befores)
    ensures AllLeaves(FlattenAll(items))
    ensures var at := KeptPositions(FlattenAll(items));
            && (forall k :: 0 <= k < |at| ==> at[k] < |befores|)
            && WrapAll(LinkAll([], items), next)(info, ctx) == next(info, RunAll(Select(befores, at), info, ctx))
  {
    var xs := FlattenAll(items);
    LinkAllKeepsLast([], items);
    assert [] + xs == xs;
    assert KeepLast<I, C>([]) == [];
    var at := KeptPositions(xs);
    KeptCount(xs);
    forall k: nat | k < |at|
      ensures at[k] < |befores| && KeepLast(xs)[k] == xs[at[k]]
    {
      KeepLastPositions(xs, k);
    }
    DefaultsRunInOrder(KeepLast(xs), Select(befores, at), next, info, ctx);
  }

  class RpcInterceptorChain<!I, !C> {
    var chain: seq<Interceptor<I, C>>

    constructor ()
      ensures chain == []
    {
      chain := [];
    }

    /** `link`: recurses into chains; otherwise removes the first of the same name and pushes. */
    method Link(it: Interceptor<I, C>)
      modifies this
      ensures chain == LinkTo(old(chain), it)
      decreases it
    {
      match it
      case Chain(items) =>
        for k := 0 to |items|
          invariant LinkAll(chain, items[k..]) == LinkAll(old(chain), items)
        {
          assert items[k..][1..] == items[k + 1..];
          Link(items[k]);
        }
      case Leaf(name, _) =>
        var pos := 0;
        while pos < |chain| && !Named(chain[pos], name)
          invariant 0 <= pos <= |chain|
          invariant RemoveFirst(chain, name) == chain[..pos] + RemoveFirst(chain[pos..], name)
        {
          assert chain[pos..][1..] == chain[pos + 1..];
          assert chain[..pos] + [chain[pos]] == chain[..pos + 1];
          pos := pos + 1;
        }
        ghost var before := chain;
        if pos < |chain| {
          assert chain[pos..][1..] == chain[pos + 1..];
          chain := chain[..pos] + chain[pos + 1..];
        } else {
          assert RemoveFirst(before, name) == before[..pos] + [];
        }
        assert chain == RemoveFirst(before, name);
        chain := chain + [it];
    }

    /** `wrap`: from the last interceptor to the first. */
    method WrapWith(next: Func<I, C>) returns (wrapped: Func<I, C>)
      ensures wrapped == WrapAll(chain, next)
    {
      wrapped := next;
      var k := |chain|;
      while k > 0
        invariant 0 <= k <= |chain|
        invariant wrapped == WrapAll(chain[k..], next)
      {
        k := k - 1;
        assert chain[k..][1..] == chain[k + 1..];
        wrapped := Wrap(chain[k], wrapped);
      }
      assert chain[0..] == chain;
    }

    /** `apply`: what the chain alone does to a request. */
    method Apply(info: I, ctx: C) returns (after: C)
      ensures after == WrapAll(chain, (i: I, c: C) => c)(info, ctx)
    {
      var noop: Func<I, C> := (i: I, c: C) => c;
      var wrapped := WrapWith(noop);
      after := wrapped(info, ctx);
    }
  }

  /** `chain_rpc_interceptors`. */
  method ChainRpcInterceptors<I, C>(first: Interceptor<I, C>, rest: seq<Interceptor<I, C>>)
      returns (r: Interceptor<I, C>)
    ensures AllLeaves(Flatten(first) + FlattenAll(rest))
    ensures r == Chain(KeepLast(Flatten(first) + FlattenAll(rest)))
  {
    var c := new RpcInterceptorChain<I, C>();
    c.Link(first);
    for k := 0 to |rest|
      invariant LinkAll(c.chain, rest[k..]) == LinkAll(LinkTo([], first), rest)
    {
      assert rest[k..][1..] == rest[k + 1..];
      c.Link(rest[k]);
    }
    r := Chain(c.chain);
    LinkKeepsLast([], first);
    assert [] + Flatten(first) == Flatten(first);
    LinkAllKeepsLast(Flatten(first), rest);
  }
}
