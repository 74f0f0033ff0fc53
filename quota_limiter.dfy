/** The `httplimit` quota limiter: configuration by options, one store per
    quota, per-quota key namespacing, and the composition of the per-quota
    layers into one handler. */
module HttpLimit {
  import opened Wrappers
  import opened Stores
  import opened Layering

  /** One named limit: `tokens` requests per `interval`. */
  datatype Quota = Quota(name: string, tokens: Uint64, interval: Duration)

  /** The one option the limiter offers: use the Redis backend at `connStr`. */
  datatype QuotaOption = WithRedisConnStr(connStr: string)

  /** What applying `opt` does to the connection string setting. */
  function ApplyOption(connStr: Option<string>, opt: QuotaOption): Option<string>
  {
    match opt
    case WithRedisConnStr(s) => Some(s)
  }

  /** The connection string setting after applying `opts` left to right. */
  function ApplyOptions(connStr: Option<string>, opts: seq<QuotaOption>): Option<string>
    decreases |opts|
  {
    if opts == [] then connStr else ApplyOptions(ApplyOption(connStr, opts[0]), opts[1..])
  }

  /** Applying one more option after a list is applying it last. */
  lemma {:induction false} ApplyOptionsSnoc(connStr: Option<string>, opts: seq<QuotaOption>, opt: QuotaOption)
    ensures ApplyOptions(connStr, opts + [opt]) == ApplyOption(ApplyOptions(connStr, opts), opt)
    decreases |opts|
  {
    if opts != [] {
      assert (opts + [opt])[1..] == opts[1..] + [opt];
      ApplyOptionsSnoc(ApplyOption(connStr, opts[0]), opts[1..], opt);
    }
  }

  /** No option leaves the setting alone; otherwise the last
      `WithRedisConnStr` wins, whatever came before it. */
  lemma {:induction false} LastOptionWins(connStr: Option<string>, opts: seq<QuotaOption>)
    ensures opts == [] ==> ApplyOptions(connStr, opts) == connStr
    ensures opts != [] ==> ApplyOptions(connStr, opts) == Some(opts[|opts| - 1].connStr)
    decreases |opts|
  {
    if |opts| > 1 {
      LastOptionWins(ApplyOption(connStr, opts[0]), opts[1..]);
    }
  }

  /** Go's `error`, carried as its message. */
  datatype Error = Error(message: string)

  /** A `KeyFunc`'s two results: the key and an error that may be nil. */
  datatype KeyOutcome = KeyOutcome(key: string, err: Option<Error>)

  /** The key function a quota's layer uses: the caller's key function with
      the quota name put in front of the key it returns. An error passes
      through unchanged, with an empty key in place of whatever key the
      caller's function returned beside it. */
  function WrapKeyFunc<Request(!new)>(qName: string, keyFunc: Request -> KeyOutcome): (wrapped: Request -> KeyOutcome)
    ensures forall r :: wrapped(r).err == keyFunc(r).err
    ensures forall r :: keyFunc(r).err.Some? ==> wrapped(r).key == ""
    ensures forall r :: keyFunc(r).err.None? ==>
      |qName| <= |wrapped(r).key| && wrapped(r).key[..|qName|] == qName && wrapped(r).key[|qName|..] == keyFunc(r).key
  {
    r => if keyFunc(r).err.Some? then KeyOutcome("", keyFunc(r).err) else KeyOutcome(qName + keyFunc(r).key, None)
  }

  /** Within one quota, requests with different keys get different counters. */
  lemma {:induction false} WrappedKeysStayApart<Request(!new)>(qName: string, keyFunc: Request -> KeyOutcome, r1: Request, r2: Request)
    requires keyFunc(r1).err.None? && keyFunc(r2).err.None?
    ensures WrapKeyFunc(qName, keyFunc)(r1).key == WrapKeyFunc(qName, keyFunc)(r2).key
      <==> keyFunc(r1).key == keyFunc(r2).key
  {
    var w := WrapKeyFunc(qName, keyFunc);
    if w(r1).key == w(r2).key {
      assert keyFunc(r1).key == w(r1).key[|qName|..];
    }
  }

  /** The name is put in front with no separator, so across two quotas the
      namespaced keys can coincide: quota "a" with key "bc" and quota "ab"
      with key "c" both give "abc". Each quota has a store of its own, so
      this matters only where two stores share one key space. */
  lemma PrefixedKeysCanCoincide<Request(!new)>(keyFunc: Request -> KeyOutcome, r1: Request, r2: Request)
    requires keyFunc(r1) == KeyOutcome("bc", None) && keyFunc(r2) == KeyOutcome("c", None)
    ensures WrapKeyFunc("a", keyFunc)(r1) == WrapKeyFunc("ab", keyFunc)(r2) == KeyOutcome("abc", None)
  {
  }

  /** The backend a store gets, given the limiter's connection string. */
  function BackendFor(connStr: Option<string>): Backend
  {
    if connStr.Some? then Redis(connStr.value) else Memory
  }

  /** `s` was created for quota `q` by a limiter whose connection string was `connStr`. */
  predicate ConfiguredFor(s: Store, q: Quota, connStr: Option<string>)
  {
    s.backend == BackendFor(connStr) && s.tokens == q.tokens && s.interval == q.interval
  }

  /** The pairs the middleware builds, one per quota in declaration order,
      given the stores created for them. */
  function PairsFor(quotas: seq<Quota>, ss: seq<Store>): (ps: seq<Pair>)
    requires |ss| == |quotas|
  {
    seq(|quotas|, j requires 0 <= j < |quotas| => Pair(Middleware(ss[j], quotas[j].name), quotas[j].interval))
  }

  /** Two quotas, "burst" (one second) and "daily" (one day): the
      sort puts "daily" first, so the fold makes "burst" the outermost layer,
      the one a request meets first, and "daily" the next one in. */
  lemma BurstIsOutermost(next: Handler, burst: Middleware, daily: Middleware, sorted: seq<Pair>)
    requires multiset(sorted) == multiset([Pair(burst, 1_000_000_000), Pair(daily, 86_400_000_000_000)])
    requires SortedByIntervalDesc(sorted)
    ensures |Layers(Chain(next, sorted))| == 2 + |Layers(next)|
    ensures Layers(Chain(next, sorted))[..2] == [burst, daily]
  {
    var b, d := Pair(burst, 1_000_000_000), Pair(daily, 86_400_000_000_000);
    assert |sorted| == |multiset(sorted)| == 2;
    assert sorted[0] in multiset(sorted) && sorted[1] in multiset(sorted);
    if sorted[0] == sorted[1] {
      RepeatOccursTwice(sorted, 0, 1);
      assert false;
    }
    assert sorted == [d, b];
    ChainShape(next, sorted);
  }

  /** `QuotaLimiter`: the stores it has created, in creation order, and the
      optional Redis connection string. */
  class QuotaLimiter {
    var stores: seq<Store>
    var redisConnStr: Option<string>

    /** Every store was created once, by this limiter. */
    ghost predicate Valid()
      reads this
    {
      AllDistinct(stores)
    }

    /** `NewQuotaLimiter(options...)`: an empty limiter, then each option
        applied to it in order. */
    constructor (options: seq<QuotaOption>)
      ensures Valid()
      ensures stores == [] && redisConnStr == ApplyOptions(None, options)
    {
      stores := [];
      redisConnStr := None;
      new;
      for i := 0 to |options|
        invariant stores == [] && redisConnStr == ApplyOptions(None, options[..i])
      {
        ApplyOptionsSnoc(None, options[..i], options[i]);
        assert options[..i + 1] == options[..i] + [options[i]];
        Apply(options[i]);
      }
      assert options[..|options|] == options;
    }

    /** Calls the option on the limiter: `WithRedisConnStr` sets the
        connection string. */
    method Apply(opt: QuotaOption)
      modifies this
      ensures redisConnStr == ApplyOption(old(redisConnStr), opt)
      ensures stores == old(stores)
    {
      match opt
      case WithRedisConnStr(connStr) =>
        redisConnStr := Some(connStr);
    }

    /** `createStore`: a new store for `quota`, backed by Redis exactly when a
        connection string is set and by memory otherwise, appended to `stores`. */
    method CreateStore(quota: Quota) returns (store: Store)
      requires Valid()
      modifies this
      ensures Valid()
      ensures stores == old(stores) + [store] && redisConnStr == old(redisConnStr)
      ensures fresh(store) && store.closeCount == 0
      ensures store.backend.Redis? <==> redisConnStr.Some?
      ensures redisConnStr.Some? ==> store.backend.connStr == redisConnStr.value
      ensures ConfiguredFor(store, quota, redisConnStr)
    {
      if redisConnStr.Some? {
        store := new Store(Redis(redisConnStr.value), quota.tokens, quota.interval);
      } else {
        store := new Store(Memory, quota.tokens, quota.interval);
      }
      stores := stores + [store];
    }

    /** `NewMiddleware(quotas, keyFunc)` applied to `next`. Building the
        middleware only captures its arguments; everything happens when it is
        applied: one fresh store per quota, the pairs sorted by descending
        interval (`sorted`), and the pairs folded around `next`. The layer
        for quota `q` keys its store with `WrapKeyFunc(q.name, keyFunc)`. */
    method ApplyQuotaMiddleware(quotas: seq<Quota>, next: Handler) returns (h: Handler, ghost sorted: seq<Pair>)
      requires Valid()
      modifies this
      ensures Valid() && redisConnStr == old(redisConnStr)
      ensures |stores| == old(|stores|) + |quotas| && stores[..old(|stores|)] == old(stores)
      ensures forall k :: old(|stores|) <= k < |stores| ==>
        fresh(stores[k]) && stores[k].closeCount == 0 &&
        ConfiguredFor(stores[k], quotas[k - old(|stores|)], redisConnStr)
      ensures multiset(sorted) == multiset(PairsFor(quotas, stores[old(|stores|)..]))
      ensures SortedByIntervalDesc(sorted) && h == Chain(next, sorted)
      ensures |Layers(h)| == |quotas| + |Layers(next)| && Unwrap(h, |quotas|) == next
      ensures quotas == [] ==> h == next
      ensures forall i, j :: 0 <= i < j < |quotas| ==> Layers(h)[i].store.interval <= Layers(h)[j].store.interval
      ensures forall i, j :: 0 <= i < j < |quotas| ==> Layers(h)[i].store != Layers(h)[j].store
    {
      ghost var n0 := |stores|;
      var pairs: seq<Pair> := [];
      for i := 0 to |quotas|
        invariant Valid() && redisConnStr == old(redisConnStr)
        invariant |stores| == n0 + i && stores[..n0] == old(stores)
        invariant forall k :: n0 <= k < |stores| ==>
          fresh(stores[k]) && stores[k].closeCount == 0 &&
          ConfiguredFor(stores[k], quotas[k - n0], redisConnStr)
        invariant |pairs| == i
        invariant forall j :: 0 <= j < i ==>
          pairs[j] == Pair(Middleware(stores[n0 + j], quotas[j].name), quotas[j].interval)
      {
        var store := CreateStore(quotas[i]);
        pairs := pairs + [Pair(Middleware(store, quotas[i].name), quotas[i].interval)];
      }
      assert pairs == PairsFor(quotas, stores[n0..]);

      var arr := new Pair[|pairs|](k requires 0 <= k < |pairs| => pairs[k]);
      assert arr[..] == pairs;
      SortByIntervalDesc(arr);
      h := Fold(next, arr);
      sorted := arr[..];

      assert IntervalsMatchStores(pairs);
      PermutationKeepsIntervals(pairs, sorted);
      assert LayerStoresDistinct(pairs) by {
        forall i, j | 0 <= i < j < |pairs|
          ensures pairs[i].middleware.store != pairs[j].middleware.store
        {
          assert stores[n0 + i] != stores[n0 + j];
        }
      }
      PermutationKeepsStoresDistinct(pairs, sorted);
      ChainWrapsNext(next, sorted);
      ChainIntervalsAscendInward(next, sorted);
      ChainShape(next, sorted);
    }

    /** `Cleanup`: closes every store the limiter created, once each, in
        creation order: the calls it adds to `log` are exactly `stores`. The
        list of stores stays as it is. */
    method Cleanup(ghost log: CloseLog)
      requires Valid()
      modifies (set s | s in stores), log
      ensures unchanged(this)
      ensures log.closed == old(log.closed) + stores
      ensures forall s :: s in stores ==> s.closeCount == old(s.closeCount) + 1
    {
      for i := 0 to |stores|
        invariant log.closed == old(log.closed) + stores[..i]
        invariant forall k :: 0 <= k < i ==> stores[k].closeCount == old(stores[k].closeCount) + 1
        invariant forall k :: i <= k < |stores| ==> stores[k].closeCount == old(stores[k].closeCount)
      {
        stores[i].Close(log);
        assert stores[..i + 1] == stores[..i] + [stores[i]];
      }
      assert stores[..|stores|] == stores;
    }
  }
}
