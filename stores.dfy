/** The token-bucket stores the limiter creates. Their counting logic lives in
    external packages, so a store is an opaque object that remembers how it
    was configured and how often it has been closed. */
module Stores {

  /** Go's `time.Duration`: a signed 64-bit count of nanoseconds. */
  newtype Duration = x: int | -0x8000_0000_0000_0000 <= x < 0x8000_0000_0000_0000

  /** Go's `uint64`, the type of `Quota.Tokens`. */
  newtype Uint64 = x: int | 0 <= x < 0x1_0000_0000_0000_0000

  /** Which package backs a store: the in-process one or the Redis one. */
  datatype Backend = Memory | Redis(connStr: string)

  /** A record of the `Close` calls made so far, in the order they were
      made. It exists only for the proof: each call appends its store. */
  class CloseLog {
    ghost var closed: seq<Store>

    constructor ()
      ensures closed == []
    {
      closed := [];
    }
  }

  /** One `limiter.Store`. Its identity is the object itself. */
  class Store {
    const backend: Backend
    const tokens: Uint64
    const interval: Duration
    /** How many times `Close` has been called on this store. */
    var closeCount: nat

    constructor (backend: Backend, tokens: Uint64, interval: Duration)
      ensures this.backend == backend && this.tokens == tokens && this.interval == interval
      ensures closeCount == 0
    {
      this.backend := backend;
      this.tokens := tokens;
      this.interval := interval;
      closeCount := 0;
    }

    /** `Store.Close`: releases the store's resources. The call is recorded
        at the end of `log`. */
    method Close(ghost log: CloseLog)
      modifies this, log
      ensures closeCount == old(closeCount) + 1
      ensures log.closed == old(log.closed) + [this]
    {
      closeCount := closeCount + 1;
      log.closed := log.closed + [this];
    }
  }

  /** No store object occurs twice in `ss`. */
  predicate AllDistinct(ss: seq<Store>)
  {
    forall i, j :: 0 <= i < j < |ss| ==> ss[i] != ss[j]
  }
}
