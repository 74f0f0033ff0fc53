/** The per-quota layers and the handler chain they are folded into. */
module Layering {
  import opened Stores

  /** The `*Middleware` built for one quota: its store, and the quota name its
      key function puts in front of every caller key. */
  datatype Middleware = Middleware(store: Store, prefix: string)

  /** `quotaMiddlewarePair`: a layer together with its quota's interval. */
  datatype Pair = Pair(middleware: Middleware, interval: Duration)

  /** An `http.Handler`: either one that is not a quota layer (the protected
      handler, say), or a layer's `Handle` wrapped around an inner handler. */
  datatype Handler = Leaf(id: nat) | Wrapped(middleware: Middleware, inner: Handler)

  /** The quota layers of `h`, outermost first. */
  function Layers(h: Handler): seq<Middleware>
  {
    match h
    case Leaf(_) => []
    case Wrapped(mw, inner) => [mw] + Layers(inner)
  }

  /** `h` with its `n` outermost layers peeled off. */
  function Unwrap(h: Handler, n: nat): Handler
    requires n <= |Layers(h)|
  {
    if n == 0 then h else Unwrap(h.inner, n - 1)
  }

  /** The handler that wrapping `next` with each pair of `ps` in turn, first
      pair first, produces: the first pair ends up innermost. */
  function Chain(next: Handler, ps: seq<Pair>): Handler
  {
    if ps == [] then next
    else Wrapped(ps[|ps| - 1].middleware, Chain(next, ps[..|ps| - 1]))
  }

  /** Ordered as the middleware's sort leaves the pairs: intervals never
      increase from left to right. */
  predicate SortedByIntervalDesc(ps: seq<Pair>)
  {
    forall i, j :: 0 <= i < j < |ps| ==> ps[i].interval >= ps[j].interval
  }

  /** Every pair records the interval its store was configured with. */
  predicate IntervalsMatchStores(ps: seq<Pair>)
  {
    forall p :: p in ps ==> p.interval == p.middleware.store.interval
  }

  /** No store backs two layers of `ps`. */
  predicate LayerStoresDistinct(ps: seq<Pair>)
  {
    forall i, j :: 0 <= i < j < |ps| ==> ps[i].middleware.store != ps[j].middleware.store
  }

  /** Folding `ps` around `next` adds exactly `|ps|` layers on top of those of
      `next`, and they are the middlewares of `ps` in reverse order. */
  lemma {:induction false} ChainShape(next: Handler, ps: seq<Pair>)
    ensures |Layers(Chain(next, ps))| == |ps| + |Layers(next)|
    ensures forall k :: 0 <= k < |ps| ==> Layers(Chain(next, ps))[k] == ps[|ps| - 1 - k].middleware
    ensures Layers(Chain(next, ps))[|ps|..] == Layers(next)
  {
    if ps != [] {
      var init := ps[..|ps| - 1];
      ChainShape(next, init);
      assert Layers(Chain(next, ps)) == [ps[|ps| - 1].middleware] + Layers(Chain(next, init));
    }
  }

  /** Peeling `k` layers off the chain leaves the chain of the first
      `|ps| - k` pairs; peeling all of them gives back `next`. */
  lemma {:induction false} UnwrapChain(next: Handler, ps: seq<Pair>, k: nat)
    requires k <= |ps|
    ensures |Layers(Chain(next, ps))| == |ps| + |Layers(next)|
    ensures Unwrap(Chain(next, ps), k) == Chain(next, ps[..|ps| - k])
  {
    ChainShape(next, ps);
    if k > 0 {
      var init := ps[..|ps| - 1];
      UnwrapChain(next, init, k - 1);
      assert init[..|init| - (k - 1)] == ps[..|ps| - k];
    } else {
      assert ps[..|ps|] == ps;
    }
  }

  /** The fold wraps every pair around `next` and nothing else: `next` sits
      exactly `|ps|` layers deep, and an empty `ps` leaves it as it is. */
  lemma {:induction false} ChainWrapsNext(next: Handler, ps: seq<Pair>)
    ensures |Layers(Chain(next, ps))| == |ps| + |Layers(next)|
    ensures Unwrap(Chain(next, ps), |ps|) == next
    ensures ps == [] ==> Chain(next, ps) == next
  {
    UnwrapChain(next, ps, |ps|);
  }

  /** The first pair of `ps`, the one with the longest interval once sorted,
      is the layer wrapped directly around `next`. */
  lemma {:induction false} FirstPairWrapsNext(next: Handler, ps: seq<Pair>)
    requires |ps| > 0
    ensures |Layers(Chain(next, ps))| == |ps| + |Layers(next)|
    ensures Unwrap(Chain(next, ps), |ps| - 1) == Wrapped(ps[0].middleware, next)
  {
    UnwrapChain(next, ps, |ps| - 1);
    assert ps[..1][..0] == [];
  }

  /** Folding pairs sorted by descending interval gives a chain whose
      intervals, read from the outside in, never decrease: the layer with the
      shortest interval is outermost and the longest is innermost. */
  lemma ChainIntervalsAscendInward(next: Handler, ps: seq<Pair>)
    requires SortedByIntervalDesc(ps) && IntervalsMatchStores(ps)
    ensures |Layers(Chain(next, ps))| == |ps| + |Layers(next)|
    ensures forall i, j :: 0 <= i < j < |ps| ==>
      Layers(Chain(next, ps))[i].store.interval <= Layers(Chain(next, ps))[j].store.interval
  {
    ChainShape(next, ps);
    forall i, j | 0 <= i < j < |ps|
      ensures Layers(Chain(next, ps))[i].store.interval <= Layers(Chain(next, ps))[j].store.interval
    {
      assert ps[|ps| - 1 - j] in ps && ps[|ps| - 1 - i] in ps;
    }
  }

  /** The outermost layer, the first a request meets, is the last sorted pair,
      and its interval is the shortest of all. */
  lemma {:induction false} OutermostIsShortest(next: Handler, ps: seq<Pair>)
    requires |ps| > 0
    requires SortedByIntervalDesc(ps) && IntervalsMatchStores(ps)
    ensures Layers(Chain(next, ps)) != []
    ensures Layers(Chain(next, ps))[0] == ps[|ps| - 1].middleware
    ensures forall p :: p in ps ==> Layers(Chain(next, ps))[0].store.interval <= p.interval
  {
    ChainShape(next, ps);
    assert ps[|ps| - 1] in ps;
  }

  /** A permutation keeps the link between each pair and its store. */
  lemma PermutationKeepsIntervals(a: seq<Pair>, b: seq<Pair>)
    requires multiset(a) == multiset(b) && IntervalsMatchStores(a)
    ensures IntervalsMatchStores(b)
  {
    forall p | p in b ensures p.interval == p.middleware.store.interval {
      assert p in multiset(b);
    }
  }

  /** In a sequence without repeats every element occurs once. */
  lemma {:induction false} DistinctOccursOnce(s: seq<Pair>, x: Pair)
    requires forall i, j :: 0 <= i < j < |s| ==> s[i] != s[j]
    ensures multiset(s)[x] <= 1
  {
    if s != [] {
      var init := s[..|s| - 1];
      DistinctOccursOnce(init, x);
      assert s == init + [s[|s| - 1]];
      if x == s[|s| - 1] {
        assert x !in init;
      }
    }
  }

  /** An element found at two positions occurs at least twice. */
  lemma RepeatOccursTwice(s: seq<Pair>, i: nat, j: nat)
    requires i < j < |s| && s[i] == s[j]
    ensures multiset(s)[s[i]] >= 2
  {
    assert s == s[..j] + s[j..];
    assert s[i] in s[..j] && s[j] in s[j..];
  }

  /** Reordering the pairs cannot make two layers share a store. */
  lemma PermutationKeepsStoresDistinct(a: seq<Pair>, b: seq<Pair>)
    requires multiset(a) == multiset(b) && LayerStoresDistinct(a)
    ensures LayerStoresDistinct(b)
  {
    forall i, j | 0 <= i < j < |b|
      ensures b[i].middleware.store != b[j].middleware.store
    {
      assert b[i] in multiset(a) && b[j] in multiset(a);
      var x :| 0 <= x < |a| && a[x] == b[i];
      var y :| 0 <= y < |a| && a[y] == b[j];
      if b[i] == b[j] {
        DistinctOccursOnce(a, b[i]);
        RepeatOccursTwice(b, i, j);
        assert false;
      } else {
        assert x != y;
      }
    }
  }

  /** The library sort the middleware calls on its pairs, with a comparator
      that puts the longer interval first: reorders them in place by
      descending interval. The library sort is not stable; this insertion
      sort happens to be, and the contract leaves the order of equal
      intervals open. */
  method SortByIntervalDesc(a: array<Pair>)
    modifies a
    ensures SortedByIntervalDesc(a[..])
    ensures multiset(a[..]) == multiset(old(a[..]))
  {
    var i := 0;
    while i < a.Length
      invariant 0 <= i <= a.Length
      invariant SortedByIntervalDesc(a[..i])
      invariant multiset(a[..]) == multiset(old(a[..]))
    {
      InsertLast(a, i);
      i := i + 1;
    }
  }

  /** One insertion step: moves `a[i]` left past every shorter interval. */
  method InsertLast(a: array<Pair>, i: nat)
    requires i < a.Length && SortedByIntervalDesc(a[..i])
    modifies a
    ensures SortedByIntervalDesc(a[..i + 1])
    ensures multiset(a[..]) == multiset(old(a[..]))
  {
    var j := i;
    while j > 0 && a[j - 1].interval < a[j].interval
      invariant 0 <= j <= i
      invariant forall k, l :: 0 <= k < l <= i && k != j && l != j ==> a[k].interval >= a[l].interval
      invariant forall l :: j < l <= i ==> a[j].interval >= a[l].interval
      invariant multiset(a[..]) == multiset(old(a[..]))
    {
      Swap(a, j - 1, j);
      j := j - 1;
    }
  }

  /** Exchanges two adjacent entries. */
  method Swap(a: array<Pair>, i: nat, j: nat)
    requires i < j < a.Length
    modifies a
    ensures a[..] == old(a[..])[i := old(a[j])][j := old(a[i])]
    ensures multiset(a[..]) == multiset(old(a[..]))
  {
    a[i], a[j] := a[j], a[i];
  }

  /** The fold at the end of the middleware: starting from `next`, each
      pair's `Handle` is wrapped around the handler built so far, in array
      order. */
  method Fold(next: Handler, pairs: array<Pair>) returns (h: Handler)
    ensures h == Chain(next, pairs[..])
  {
    h := next;
    for i := 0 to pairs.Length
      invariant h == Chain(next, pairs[..i])
    {
      assert pairs[..i + 1][..i] == pairs[..i];
      h := Wrapped(pairs[i].middleware, h);
    }
    assert pairs[..pairs.Length] == pairs[..];
  }
}
