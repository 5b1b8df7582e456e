/** Types shared by the models of the cache core and of the Hot Rod client:
    a Java-style result (a value or a thrown exception), the exception kinds
    the modelled code raises, cache keys, the invocation flags and the
    component lifecycle states. */
module Base {

  /** A Java reference that may be null. */
  datatype Option<+T> = None | Some(value: T)

  /** The kinds of throwable the modelled code raises or lets through. */
  datatype Exception =
    | IllegalStateException(detail: string)
    | IllegalArgumentException(detail: string)
    | NullPointerException
    | UnsupportedOperationException
    | NoSuchElementException
    | RollbackException(detail: string)          // javax.transaction
    | HeuristicMixedException                    // javax.transaction
    | SystemException(detail: string)            // javax.transaction
    | CacheLoaderException(detail: string)
    | InvalidResponseException(detail: string)   // Hot Rod client
    | HotRodClientException(message: string, messageId: int, status: int)
    | TimeoutException                           // Hot Rod client
    | TransportException                         // the transport could not deliver a field
    | UncheckedThrowable(origin: nat)            // any other throwable a collaborator raises

  /** The outcome of a Java call: it returns a value or throws. */
  datatype Result<+T> = Ok(value: T) | Err(error: Exception)

  /** Cache keys. Keys are never null: the cache API rejects null keys. */
  type Key = nat

  /** org.infinispan.context.Flag, the per-invocation behaviour flags. */
  datatype Flag =
    | FailSilently
    | ForceWriteLock
    | SkipLocking
    | ZeroLockAcquisitionTimeout
    | CacheModeLocal
    | SkipCacheStore
    | SkipRemoteLookup

  /** org.infinispan.lifecycle.ComponentStatus. */
  datatype ComponentStatus =
    | Instantiated
    | Initializing
    | Running
    | Stopping
    | Terminated
    | Failed
  {
    predicate IsTerminated() { this == Terminated }
    predicate IsStopping() { this == Stopping }
  }

  /** An opaque value returned by a cache command. */
  datatype Value = BoolValue(b: bool) | ObjectValue(id: nat)
}
