# Quota limiter composition, modelled in Dafny

This project models the quota limiter of the `httplimit` package of
go-limiter. The limiter takes a list of quotas (`Quota{Name, Tokens,
Interval}`) and turns them into one HTTP middleware that enforces all of them
together. It does four things:

- it is configured by options: the only one is `WithRedisConnStr`, which
  chooses the shared Redis backend over the in-process one;
- `createStore` makes one token-bucket store per quota and records it in
  the limiter's `stores` list;
- the middleware gives each quota a layer whose key function puts the quota
  name in front of the caller's key, sorts the layers by descending interval,
  and folds them around the protected handler;
- `Cleanup` closes every store the limiter created.

Files and modules:

- `wrappers.dfy` (`Wrappers`): `Option`, used for Go's nil-able pointer and `error`.
- `stores.dfy` (`Stores`): the `Duration` and `Uint64` integer widths, and
  `Store`. A store is an opaque object. It records its backend, tokens and
  interval, and counts how often it has been closed. Being an object, each
  store has its own identity. A ghost `CloseLog` records the order of the
  `Close` calls.
- `layering.dfy` (`Layering`): the per-quota `Middleware`, the
  `quotaMiddlewarePair` (`Pair`) and the handler chain (`Handler`). It also
  holds the specification of the fold (`Chain`), the in-place sort, the fold
  as a loop, and lemmas about the order of the resulting chain.
- `quota_limiter.dfy` (`HttpLimit`): `Quota`, the options, the key wrapper
  and the class `QuotaLimiter`. The class has the source's two fields:
  `stores` and `redisConnStr`.

## Which layer runs first

The code sorts the pairs so that the longest interval comes first. It then
wraps them around `next` in that order. The first pair wrapped ends up
innermost, so the longest-interval quota sits directly around `next`. The
shortest-interval quota is outermost, and a request meets it first.

A coarsest-first order, with the longest window outermost and checked
first, is not what the code produces. Reading the comparator alone, one
might expect it.
`ChainIntervalsAscendInward`, `OutermostIsShortest`, `FirstPairWrapsNext`
and `BurstIsOutermost` state the order the code produces. For a one-second
"burst" quota and a one-day "daily" quota, "burst" is the outer layer.

Three more facts about the code that are easy to misread:

- `Cleanup` ignores the error each `Close` returns; it does not collect them.
- The library sort is not stable. Tied quotas need not keep their
  declaration order, and the model leaves their order open.
- The quota name is joined to the caller's key with no separator.
  `PrefixedKeysCanCoincide` shows two quotas producing the same namespaced
  key. Counters stay apart only because each quota has its own store.

## Model

| member | source | states |
|---|---|---|
| `HttpLimit.QuotaLimiter.constructor` | httplimit/quota-limiter.go:35-41 | The new limiter has no stores, and its connection string is what applying the options left to right to nil gives. |
| `HttpLimit.QuotaLimiter.Apply` | httplimit/quota-limiter.go:29-33 | Applying `WithRedisConnStr(s)` sets the connection string to `s` and leaves `stores` alone. |
| `HttpLimit.ApplyOptionsSnoc` | httplimit/quota-limiter.go:37-39 | Applying one more option after a list gives the same setting as applying that option to the list's result. This is the step of the options loop. |
| `HttpLimit.LastOptionWins` | httplimit/quota-limiter.go:29-41 | With no options the setting stays as it was (nil for a new limiter). Otherwise the last `WithRedisConnStr` decides it, whatever came before. |
| `HttpLimit.QuotaLimiter.CreateStore` | httplimit/quota-limiter.go:45-72 | Exactly one new store is appended to `stores`, and earlier entries are unchanged. The backend is Redis, with the limiter's connection string, if and only if a connection string is set; otherwise it is memory. The store gets the quota's tokens and interval. |
| `HttpLimit.WrapKeyFunc` | httplimit/quota-limiter.go:85-93 | The caller's error passes through unchanged, with an empty key beside it. On success the key is the quota name followed by the caller's key, and the caller's key can be read back after the name. |
| `HttpLimit.WrappedKeysStayApart` | httplimit/quota-limiter.go:85-93 | Within one quota, two requests get the same namespaced key if and only if the caller's key function gave them the same key. |
| `HttpLimit.PrefixedKeysCanCoincide` | httplimit/quota-limiter.go:91 | The name is put in front without a separator: quota "a" with key "bc" and quota "ab" with key "c" both give "abc". |
| `HttpLimit.QuotaLimiter.ApplyQuotaMiddleware` | httplimit/quota-limiter.go:74-117 | One application grows `stores` by exactly `len(quotas)` and keeps the earlier entries. The new stores are fresh and unclosed, and each is configured from its quota. The layers are a permutation of the per-quota pairs, sorted by non-increasing interval, and folded around `next`. Exactly `len(quotas)` layers wrap `next`, and none for an empty list. From the outside in, layer intervals never decrease. No two layers share a store. |
| `HttpLimit.BurstIsOutermost` | httplimit/quota-limiter.go:107-114 | For quotas of one second ("burst") and one day ("daily"), every sorted order puts "daily" first. The resulting chain has "burst" outermost and "daily" next. |
| `HttpLimit.QuotaLimiter.Cleanup` | httplimit/quota-limiter.go:120-124 | Every recorded store is closed exactly once. The `Close` calls, as each call records them in the close log, are exactly `stores` in insertion order. The limiter, including `stores`, is unchanged. |
| `Stores.Store.constructor` | httplimit/quota-limiter.go:50-64 | A store remembers the backend, tokens and interval it was created with, and starts unclosed. |
| `Stores.Store.Close` | httplimit/quota-limiter.go:122 | Closing a store adds one to its close count and appends the store to the close log. |
| `Layering.SortByIntervalDesc` | httplimit/quota-limiter.go:107-109 | After the sort, the pairs are a permutation of those before it, ordered by non-increasing interval. |
| `Layering.Fold` | httplimit/quota-limiter.go:111-114 | The loop's handler is the fold of the pairs around `next`, first pair innermost. |
| `Layering.ChainShape` | httplimit/quota-limiter.go:111-114 | The fold adds exactly one layer per pair on top of the layers of `next`. Read outermost first, they are the pairs in reverse order. |
| `Layering.UnwrapChain` | httplimit/quota-limiter.go:111-114 | Peeling `k` layers off the fold leaves the fold of the first `len(pairs) - k` pairs. |
| `Layering.ChainWrapsNext` | httplimit/quota-limiter.go:111-116 | `next` sits exactly `len(pairs)` layers deep. With no pairs the result is `next` itself. |
| `Layering.FirstPairWrapsNext` | httplimit/quota-limiter.go:107-114 | The first pair (after sorting, the one with the longest interval) is the layer wrapped directly around `next`. |
| `Layering.ChainIntervalsAscendInward` | httplimit/quota-limiter.go:107-114 | Folding pairs sorted by descending interval gives a chain whose intervals, read from the outside in, never decrease. |
| `Layering.OutermostIsShortest` | httplimit/quota-limiter.go:107-114 | The outermost layer is the last sorted pair, and its interval is the shortest of all. |
| `Layering.PermutationKeepsIntervals` | httplimit/quota-limiter.go:101-109 | Reordering the pairs keeps each pair's interval equal to its store's interval. |
| `Layering.PermutationKeepsStoresDistinct` | httplimit/quota-limiter.go:95-109 | If no two pairs share a store before the sort, none do after it. |

## Left out

- The stores' token counting (`memorystore`, `redisstore`): they are external packages, so a store is an opaque object with its configuration and a close count.
- `Store.Close`'s error result: `Cleanup` discards it, so the model's `Close` returns nothing.
- The Redis dial function reads the limiter's connection string each time it dials (lines 53-55). The model fixes the dial target when the store is created. In Go, applying a `WithRedisConnStr` option to a limiter that already has Redis stores would redirect their later dials to the new string. In the model those stores keep the string they were created with.
- Go's `QuotaOption` is any `func(*QuotaLimiter)`. The model's `QuotaOption` has only `WithRedisConnStr`. An option written outside the package could, for example, apply a middleware during construction. The constructor's `stores == []` does not cover such options.
- Store and middleware construction failures and the `log.Fatalf` calls that end the process on them (lines 58, 66 and 98): the external constructors are taken to succeed.
- What a layer does with a request (`Middleware.Handle`, allow/deny, short-circuit, headers): it is defined outside this file, so layers stay uninterpreted. A layer records its store and the quota name its key function puts in front of the key.
- `HttpLimit.QuotaLimiter.ApplyQuotaMiddleware`: it takes no key function. Every layer uses `WrapKeyFunc(name, keyFunc)` with the one key function given to `NewMiddleware`, so the quota name determines the layer's key function. Building the middleware before applying it only captures its arguments, so it is not modelled separately.
- `net/http` requests and responses, `context.Context`, and the TCP connection to Redis: these are I/O. A request is a type parameter of the key functions.
- Concurrent use of the limiter and of its middleware: the model is sequential.
- `time.Duration` is a signed 64-bit integer of nanoseconds, compared as an integer. No other time semantics are modelled.
