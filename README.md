# Infinispan core, modelled in Dafny

This project models seven classes from an early Infinispan data grid and proves properties of the model:

- **Hot Rod client operations** (`HotrodOperationsImpl`): get, put, remove, containsKey, getWithVersion, putIfAbsent, replace, replaceIfUnmodified, removeIfUnmodified, clear, stats and ping. Each operation writes a request header and body. It then validates the response header (magic, message id, opcode, then status), maps the status to a result, and hands the transport back to its pool.
- **The dummy JTA transaction** (`DummyTransaction`): two-phase commit over an ordered list of XA resources, plus beforeCompletion and afterCompletion callbacks to the registered synchronizations.
- **The invocation context interceptor** (`InvocationContextInterceptor`): the first interceptor of the chain. It gates invocations on the cache's lifecycle status. It marks the caller's transaction rollback-only when an invocation fails, and resets the context.
- **The lock control command** (`LockControlCommand`): its key representation, key replacement, marshalling and remote `perform`.
- **The key-set command** (`KeySetCommand`): its read-only filtered view, with size, contains and the two-phase iterator.
- **The invalidate command** (`InvalidateCommand`): per-key invalidation and marshalling.
- **The cluster cache loader** (`ClusterCacheLoader`): a remote get sent to the other members, and reconciliation of their responses.

Code that changes state in place is modelled by classes whose methods have `modifies` clauses. Examples are the transaction's fields, the command's fields, the iterator's cursors and the transport. Each such method is proved against a pure function of the old state and the inputs, and the properties are proved as lemmas about those functions.

A Hot Rod transport is a pair of queues of already-decoded protocol fields: what the client wrote, with a marker for each flush, and what the server sent. The protocol constants are those of version 1.0 of the Hot Rod protocol.

Collaborators whose code is not part of this model become parameters:

- the rest of the interceptor chain;
- the remote procedure call;
- the XA resources and synchronizations, each described by what it does when called;
- the data container;
- whether a context holds transactional modifications.

The Hot Rod and transaction classes model the code as written, including the defects listed under "## Findings". The evidently intended behaviour sits beside each defect as a separate definition with its property proved.

Modules: `Base` (shared types and exceptions), `HotRodTransport`, `HotRod`, `Transactions`, `Interceptors`, `LockControl`, `KeySet`, `Invalidation`, `ClusterLoader`.

## Model

| member | source | states |
|---|---|---|
| HotRodTransport.MessageIdCounter.IncrementAndGet | client/hotrod-client/src/main/java/org/infinispan/client/hotrod/impl/HotrodOperationsImpl.java:26 | incrementAndGet on the shared message-id counter returns a fresh id, greater than every id handed out before |
| HotRod.HeaderFields | client/hotrod-client/src/main/java/org/infinispan/client/hotrod/impl/HotrodOperationsImpl.java:266-283 | the request header has eight fields, with the message id second and the opcode fourth |
| HotRod.FlagWordOf | client/hotrod-client/src/main/java/org/infinispan/client/hotrod/impl/HotrodOperationsImpl.java:273-279 | the flag loop ORs the flag ints in array order, and a null array gives 0 |
| HotRod.HasForceReturn | client/hotrod-client/src/main/java/org/infinispan/client/hotrod/impl/HotrodOperationsImpl.java:334-340 | true exactly when the flag array is non-null and contains FORCE_RETURN_VALUE |
| HotRod.ClassifyStatus | client/hotrod-client/src/main/java/org/infinispan/client/hotrod/impl/HotrodOperationsImpl.java:311-331 | the five server-error statuses and only those are server-reported; 0x86 and only it is a timeout; NO_ERROR and KEY_DOES_NOT_EXIST and only those are accepted as written |
| HotRod.CheckStatus | client/hotrod-client/src/main/java/org/infinispan/client/hotrod/impl/HotrodOperationsImpl.java:311-331 | the check passes exactly on an accepted status and then consumes nothing |
| HotRod.ValidatedStatusAccepted | client/hotrod-client/src/main/java/org/infinispan/client/hotrod/impl/HotrodOperationsImpl.java:288-309 | a validated header only ever yields NO_ERROR or KEY_DOES_NOT_EXIST |
| HotRod.HeaderChecksInOrder | client/hotrod-client/src/main/java/org/infinispan/client/hotrod/impl/HotrodOperationsImpl.java:288-304 | checks run magic, then message id, then opcode; the first mismatch decides the InvalidResponseException, whatever follows it |
| HotRod.ErrorResponseRouted | client/hotrod-client/src/main/java/org/infinispan/client/hotrod/impl/HotrodOperationsImpl.java:297-302 | an ERROR_RESPONSE opcode goes to the status check: a server error raises HotRodClientException with the server's message, a timeout raises TimeoutException, and anything else raises IllegalStateException |
| HotRod.ReplyValidates | client/hotrod-client/src/main/java/org/infinispan/client/hotrod/impl/HotrodOperationsImpl.java:288-309 | a well-formed reply with an accepted status validates to that status and consumes exactly the header; a timeout or an unknown status raises |
| HotRod.PrevValue | client/hotrod-client/src/main/java/org/infinispan/client/hotrod/impl/HotrodOperationsImpl.java:352-354 | without FORCE_RETURN_VALUE no previous value is read and the input is untouched |
| HotRod.PrevValueOnlyWhenForced | client/hotrod-client/src/main/java/org/infinispan/client/hotrod/impl/HotrodOperationsImpl.java:352-354 | a previous value is read exactly when FORCE_RETURN_VALUE is among the flags, and it is the next byte array |
| HotRod.ReadOperationsMapStatus | client/hotrod-client/src/main/java/org/infinispan/client/hotrod/impl/HotrodOperationsImpl.java:35-97 | get and getWithVersion map KEY_DOES_NOT_EXIST to null and NO_ERROR to the value (and version) that follow; containsKey maps them to false and true |
| HotRod.PutRequiresNoError | client/hotrod-client/src/main/java/org/infinispan/client/hotrod/impl/HotrodOperationsImpl.java:100-111 | KEY_DOES_NOT_EXIST, the only other status header validation lets through, raises InvalidResponseException; NO_ERROR returns the possible previous value |
| HotRod.RemoveMapsStatus | client/hotrod-client/src/main/java/org/infinispan/client/hotrod/impl/HotrodOperationsImpl.java:51-64 | remove maps KEY_DOES_NOT_EXIST to null and NO_ERROR to the previous value, read only when FORCE_RETURN_VALUE is set |
| HotRod.PingAnswers | client/hotrod-client/src/main/java/org/infinispan/client/hotrod/impl/HotrodOperationsImpl.java:223-241 | ping answers true on NO_ERROR and raises IllegalStateException on KEY_DOES_NOT_EXIST; a TransportException while reading the reply, such as an empty connection, answers false; any other failure is raised |
| HotRod.RspCodeOf | client/hotrod-client/src/main/java/org/infinispan/client/hotrod/impl/HotrodOperationsImpl.java:366-375 | the versioned response code is defined exactly for NO_ERROR, NOT_PUT_REMOVED_REPLACED and KEY_DOES_NOT_EXIST |
| HotRod.VersionedStatusMapping | client/hotrod-client/src/main/java/org/infinispan/client/hotrod/impl/HotrodOperationsImpl.java:361-378 | NO_ERROR maps to SUCCESS, NOT_PUT_REMOVED_REPLACED to MODIFIED_KEY and KEY_DOES_NOT_EXIST to NO_SUCH_KEY; a validated status always has a code |
| HotRod.ConditionalPutRefusalRejected | client/hotrod-client/src/main/java/org/infinispan/client/hotrod/impl/HotrodOperationsImpl.java:113-141 | as written, a NOT_PUT_REMOVED_REPLACED reply to putIfAbsent or replace raises IllegalStateException |
| HotRod.ConditionalPutRefusalYieldsNull | client/hotrod-client/src/main/java/org/infinispan/client/hotrod/impl/HotrodOperationsImpl.java:113-141 | as intended, that reply yields null and consumes only the header |
| HotRod.VersionedModifiedKeyUnreachable | client/hotrod-client/src/main/java/org/infinispan/client/hotrod/impl/HotrodOperationsImpl.java:361-378 | as written, no versioned operation ever returns MODIFIED_KEY; the refusal reply raises instead |
| HotRod.VersionedModifiedKeyReported | client/hotrod-client/src/main/java/org/infinispan/client/hotrod/impl/HotrodOperationsImpl.java:366-372 | as intended, the refusal reply yields MODIFIED_KEY, with the previous value read after the header when FORCE_RETURN_VALUE was sent |
| HotRod.RemoveIfUnmodifiedReplyRejected | client/hotrod-client/src/main/java/org/infinispan/client/hotrod/impl/HotrodOperationsImpl.java:170-186 | as written, the server's REMOVE_IF_UNMODIFIED_RESPONSE reply is rejected as an invalid response operation, whatever its status |
| HotRod.RemoveIfUnmodifiedReplyAccepted | client/hotrod-client/src/main/java/org/infinispan/client/hotrod/impl/HotrodOperationsImpl.java:170-186 | as intended, validation against REMOVE_IF_UNMODIFIED_RESPONSE maps the reply to SUCCESS or NO_SUCH_KEY, with the previous value read after the header when FORCE_RETURN_VALUE was sent |
| HotRod.ReadStatsDecodes | client/hotrod-client/src/main/java/org/infinispan/client/hotrod/impl/HotrodOperationsImpl.java:205-211 | the statistics loop decodes n (name, value) pairs into the map, later names overriding earlier ones |
| HotRod.StatsPropagatesHeaderError | client/hotrod-client/src/main/java/org/infinispan/client/hotrod/impl/HotrodOperationsImpl.java:199-216 | stats raises whatever header validation raises |
| HotRod.StatsReplyRejected | client/hotrod-client/src/main/java/org/infinispan/client/hotrod/impl/HotrodOperationsImpl.java:203-204 | as written, the server's STATS_RESPONSE reply is rejected as an invalid response operation, whatever its status and body |
| HotRod.StatsReplyDecoded | client/hotrod-client/src/main/java/org/infinispan/client/hotrod/impl/HotrodOperationsImpl.java:199-216 | as intended, validation against STATS_RESPONSE decodes the statistics the server sent |
| HotRod.HotrodOperations.constructor | client/hotrod-client/src/main/java/org/infinispan/client/hotrod/impl/HotrodOperationsImpl.java:30-33 | the client keeps the cache name bytes and shares the message-id counter |
| HotRod.HotrodOperations.WriteHeader | client/hotrod-client/src/main/java/org/infinispan/client/hotrod/impl/HotrodOperationsImpl.java:266-283 | writes the header fields with a fresh message id and returns that id |
| HotRod.HotrodOperations.CheckForErrorsInResponseStatus | client/hotrod-client/src/main/java/org/infinispan/client/hotrod/impl/HotrodOperationsImpl.java:311-331 | the result and the input left are those of the status check |
| HotRod.HotrodOperations.ReadHeaderAndValidate | client/hotrod-client/src/main/java/org/infinispan/client/hotrod/impl/HotrodOperationsImpl.java:288-309 | the result and the input left are those of header validation |
| HotRod.HotrodOperations.ReturnPossiblePrevValue | client/hotrod-client/src/main/java/org/infinispan/client/hotrod/impl/HotrodOperationsImpl.java:352-354 | reads the previous value exactly as the previous-value rule says |
| HotRod.HotrodOperations.SendKeyOperation | client/hotrod-client/src/main/java/org/infinispan/client/hotrod/impl/HotrodOperationsImpl.java:342-350 | writes the header, the key and a flush, then validates the reply |
| HotRod.HotrodOperations.SendPutOperation | client/hotrod-client/src/main/java/org/infinispan/client/hotrod/impl/HotrodOperationsImpl.java:245-260 | writes the header, key, lifespan, max idle, value and a flush, then validates the reply |
| HotRod.HotrodOperations.ReturnVersionedOperationResponse | client/hotrod-client/src/main/java/org/infinispan/client/hotrod/impl/HotrodOperationsImpl.java:361-378 | validates against REPLACE_IF_UNMODIFIED_RESPONSE, maps the status to its code and reads the possible previous value |
| HotRod.HotrodOperations.Get | client/hotrod-client/src/main/java/org/infinispan/client/hotrod/impl/HotrodOperationsImpl.java:35-49 | sends GET; the result is the get outcome of the reply; the transport is released once; the message id it used is the counter's next value, appended to the ids issued |
| HotRod.HotrodOperations.Remove | client/hotrod-client/src/main/java/org/infinispan/client/hotrod/impl/HotrodOperationsImpl.java:51-64 | sends REMOVE; the result is the remove outcome; the transport is released once; the message id it used is the counter's next value, appended to the ids issued |
| HotRod.HotrodOperations.ContainsKey | client/hotrod-client/src/main/java/org/infinispan/client/hotrod/impl/HotrodOperationsImpl.java:66-79 | sends CONTAINS_KEY; the result is the containsKey outcome; the transport is released once; the message id it used is the counter's next value, appended to the ids issued |
| HotRod.HotrodOperations.GetWithVersion | client/hotrod-client/src/main/java/org/infinispan/client/hotrod/impl/HotrodOperationsImpl.java:81-97 | sends GET_WITH_CAS; the result is the versioned value or null; the transport is released once; the message id it used is the counter's next value, appended to the ids issued |
| HotRod.HotrodOperations.Put | client/hotrod-client/src/main/java/org/infinispan/client/hotrod/impl/HotrodOperationsImpl.java:100-111 | sends PUT with key, lifespan, max idle and value; the result is the put outcome; the transport is released once; the message id it used is the counter's next value, appended to the ids issued |
| HotRod.HotrodOperations.ConditionalPut | client/hotrod-client/src/main/java/org/infinispan/client/hotrod/impl/HotrodOperationsImpl.java:113-141 | putIfAbsent and replace: sends the request; the result is the conditional-put outcome under the status check as written; the transport is released once; the message id it used is the counter's next value, appended to the ids issued |
| HotRod.HotrodOperations.ReplaceIfUnmodified | client/hotrod-client/src/main/java/org/infinispan/client/hotrod/impl/HotrodOperationsImpl.java:149-165 | sends the version with the put body, without a flush; the result is the versioned outcome; the transport is released once; the message id it used is the counter's next value, appended to the ids issued |
| HotRod.HotrodOperations.RemoveIfUnmodified | client/hotrod-client/src/main/java/org/infinispan/client/hotrod/impl/HotrodOperationsImpl.java:170-186 | sends the key and version; the result is the versioned outcome, validated against REPLACE_IF_UNMODIFIED_RESPONSE; the transport is released once; the message id it used is the counter's next value, appended to the ids issued |
| HotRod.HotrodOperations.Clear | client/hotrod-client/src/main/java/org/infinispan/client/hotrod/impl/HotrodOperationsImpl.java:188-197 | sends CLEAR and validates the reply; the transport is released once; the message id it used is the counter's next value, appended to the ids issued |
| HotRod.HotrodOperations.Ping | client/hotrod-client/src/main/java/org/infinispan/client/hotrod/impl/HotrodOperationsImpl.java:223-241 | sends PING with an empty flag array; NO_ERROR gives true, a TransportException gives false; the transport is released once; the message id it used is the counter's next value, appended to the ids issued |
| HotRod.HotrodOperations.Stats | client/hotrod-client/src/main/java/org/infinispan/client/hotrod/impl/HotrodOperationsImpl.java:199-216 | sends STATS, validates against CLEAR_RESPONSE and reads the announced number of statistics; the transport is released once; the message id it used is the counter's next value, appended to the ids issued |
| Transactions.ReadWriteVoters | core/src/main/java/org/infinispan/transaction/tm/DummyTransaction.java:303-319 | the resources to commit under a per-vote check are exactly those that did not vote XA_RDONLY |
| Transactions.RegistrationRefusal | core/src/main/java/org/infinispan/transaction/tm/DummyTransaction.java:199-232 | registration is accepted exactly in ACTIVE and PREPARING; it is refused with RollbackException exactly in MARKED_ROLLBACK, ROLLING_BACK and ROLLEDBACK, and with IllegalStateException otherwise |
| Transactions.BeforeCompletionFailureRollsBack | core/src/main/java/org/infinispan/transaction/tm/DummyTransaction.java:76-95 | if a beforeCompletion callback throws, all callbacks still run, nothing is prepared, the resources roll back in order, the status stays ROLLING_BACK and RollbackException (or the escaping throwable) is raised |
| Transactions.PrepareStopsAtFirstFailure | core/src/main/java/org/infinispan/transaction/tm/DummyTransaction.java:250-266 | prepare runs in order up to the first resource that does not vote; an XAException leads to rollback, and any other throwable raises SystemException with the status left PREPARING |
| Transactions.CommitIgnoresEarlierStatus | core/src/main/java/org/infinispan/transaction/tm/DummyTransaction.java:76-112 | if all callbacks succeed, every resource votes and every commit succeeds, commit ends COMMITTED whatever the earlier status |
| Transactions.RollbackIsBestEffort | core/src/main/java/org/infinispan/transaction/tm/DummyTransaction.java:291-301 | XAExceptions during rollback are swallowed, so every resource is asked to roll back, in order |
| Transactions.CommitPhaseOutcome | core/src/main/java/org/infinispan/transaction/tm/DummyTransaction.java:97-112 | with a recorded XA_RDONLY vote nothing is committed; otherwise resources commit in order, and the first XAException gives UNKNOWN and HeuristicMixedException; afterCompletion then runs with the final status and the synchronizations are cleared |
| Transactions.AfterCompletionOnlyOnCommitPath | core/src/main/java/org/infinispan/transaction/tm/DummyTransaction.java:76-112 | afterCompletion runs exactly when commit gets past a successful prepare; otherwise the synchronizations stay and the status is PREPARING or ROLLING_BACK |
| Transactions.RollbackOutcomeStates | core/src/main/java/org/infinispan/transaction/tm/DummyTransaction.java:122-134 | rollback ends ROLLEDBACK after notifying every synchronization, or wraps a non-XA throwable in IllegalStateException with the status left ROLLING_BACK |
| Transactions.ReadOnlyLastVoteSkipsCommit | core/src/main/java/org/infinispan/transaction/tm/DummyTransaction.java:250-266 | as written, with resource A voting XA_OK and resource B voting XA_RDONLY, the transaction ends COMMITTED and A is never committed |
| Transactions.IntendedCommitCommitsEveryWriter | core/src/main/java/org/infinispan/transaction/tm/DummyTransaction.java:303-319 | as intended, every resource that voted something other than XA_RDONLY is committed, in order, and the status ends COMMITTED |
| Transactions.MarkedRollbackStillCommits | core/src/main/java/org/infinispan/transaction/tm/DummyTransaction.java:65-93 | as written, a transaction marked rollback-only still commits its resource |
| Transactions.IntendedCommitHonoursRollbackOnly | core/src/main/java/org/infinispan/transaction/tm/DummyTransaction.java:65-75 | as intended, committing a rollback-only transaction rolls every resource back and raises RollbackException |
| Transactions.DummyTransaction.constructor | core/src/main/java/org/infinispan/transaction/tm/DummyTransaction.java:60-63 | a new transaction is ACTIVE, with no resources, no synchronizations and an empty log |
| Transactions.DummyTransaction.SetRollbackOnly | core/src/main/java/org/infinispan/transaction/tm/DummyTransaction.java:142-144 | the status becomes MARKED_ROLLBACK |
| Transactions.DummyTransaction.EnlistResource | core/src/main/java/org/infinispan/transaction/tm/DummyTransaction.java:166-175 | the resource is appended and started; an XAException on start raises SystemException, and the resource stays enlisted |
| Transactions.DummyTransaction.DelistResource | core/src/main/java/org/infinispan/transaction/tm/DummyTransaction.java:185-188 | delisting is always refused with SystemException |
| Transactions.DummyTransaction.RegisterSynchronization | core/src/main/java/org/infinispan/transaction/tm/DummyTransaction.java:199-232 | a null synchronization is refused with IllegalArgumentException; otherwise the status decides, and an accepted one is added once |
| Transactions.DummyTransaction.NotifyBeforeCompletion | core/src/main/java/org/infinispan/transaction/tm/DummyTransaction.java:235-248 | every synchronization is notified in order; the result says whether none threw |
| Transactions.DummyTransaction.NotifyAfterCompletion | core/src/main/java/org/infinispan/transaction/tm/DummyTransaction.java:272-285 | every synchronization is told the status, then the set is cleared |
| Transactions.DummyTransaction.RunPrepare | core/src/main/java/org/infinispan/transaction/tm/DummyTransaction.java:250-266 | prepares up to the first non-voting resource and records each vote; XAException gives false, any other throwable SystemException |
| Transactions.DummyTransaction.RunRollback | core/src/main/java/org/infinispan/transaction/tm/DummyTransaction.java:291-301 | the new state and the escaping throwable are those of the rollback phase |
| Transactions.DummyTransaction.RunCommitTx | core/src/main/java/org/infinispan/transaction/tm/DummyTransaction.java:303-319 | nothing is committed when the recorded vote is XA_RDONLY; otherwise resources commit in order up to the first failure |
| Transactions.DummyTransaction.Commit | core/src/main/java/org/infinispan/transaction/tm/DummyTransaction.java:76-112 | the new state and the thrown exception are those of the commit outcome; the transaction is disassociated from the manager |
| Transactions.DummyTransaction.CommitPhase | core/src/main/java/org/infinispan/transaction/tm/DummyTransaction.java:97-107 | the new state and the thrown exception are those of the commit phase |
| Transactions.DummyTransaction.Rollback | core/src/main/java/org/infinispan/transaction/tm/DummyTransaction.java:122-134 | the new state and the thrown exception are those of the rollback outcome; disassociated only on success |
| Interceptors.TerminatedRejectsFirst | core/src/main/java/org/infinispan/interceptors/InvocationContextInterceptor.java:76-80 | a TERMINATED cache raises IllegalStateException before any other check, without invoking the chain |
| Interceptors.StoppingAcceptsOnlyOngoingTransactions | core/src/main/java/org/infinispan/interceptors/InvocationContextInterceptor.java:81-86 | a STOPPING cache invokes the chain exactly for a transactional invocation whose transaction has a local record |
| Interceptors.NullContextRejected | core/src/main/java/org/infinispan/interceptors/InvocationContextInterceptor.java:89 | a running cache refuses a null context with IllegalStateException |
| Interceptors.FailureHandling | core/src/main/java/org/infinispan/interceptors/InvocationContextInterceptor.java:95-113 | results pass through; with FAIL_SILENTLY a failure becomes null; otherwise it is rethrown, and the transaction is marked rollback-only exactly when the invocation is local and transactional and the transaction is ACTIVE or PREPARING |
| Interceptors.NonNullResult | core/src/main/java/org/infinispan/interceptors/InvocationContextInterceptor.java:67-70 | a null result becomes false; anything else passes through |
| Interceptors.MarkTxForRollbackAndRethrow | core/src/main/java/org/infinispan/interceptors/InvocationContextInterceptor.java:136-155 | rethrows the same failure and marks a running transaction rollback-only only for a local transactional invocation |
| Interceptors.HandleAll | core/src/main/java/org/infinispan/interceptors/InvocationContextInterceptor.java:72-114 | result, context reset and rollback marking are those of the handleAll outcome; the context's scope, origin and flags and the transaction's resources, synchronizations, prepare status and log are left unchanged |
| Interceptors.VisitLockControlCommand | core/src/main/java/org/infinispan/interceptors/InvocationContextInterceptor.java:67-70 | the handleAll result with null turned into false; the context reset, the rollback marking and the unchanged context and transaction fields are those of handleAll |
| Interceptors.InvocationContext.Reset | core/src/main/java/org/infinispan/interceptors/InvocationContextInterceptor.java:111-113 | the looked-up state is cleared and the reset is counted |
| LockControl.FromKeys | core/src/main/java/org/infinispan/commands/control/LockControlCommand.java:72-86 | the constructor never sets both key fields |
| LockControl.ConstructorKeepsKeys | core/src/main/java/org/infinispan/commands/control/LockControlCommand.java:72-119 | getKeys returns exactly the given keys; multipleKeys holds exactly when more than one distinct key was given; a single key is stored unboxed |
| LockControl.ReplaceKeySubstitutes | core/src/main/java/org/infinispan/commands/control/LockControlCommand.java:103-111 | the replacement takes the old key's place exactly when the old key is present |
| LockControl.ReplaceKeysBounded | core/src/main/java/org/infinispan/commands/control/LockControlCommand.java:113-115 | replaceKeys adds only replacement keys, never grows the key set, and leaves the transaction, unlock flag and flags alone |
| LockControl.Parameters | core/src/main/java/org/infinispan/commands/control/LockControlCommand.java:176-184 | the parameter array has five elements without keys and six with keys, with the key mode in fourth place |
| LockControl.ApplyParameters | core/src/main/java/org/infinispan/commands/control/LockControlCommand.java:186-213 | setParameters keeps the implicit flag and never sets both key fields |
| LockControl.ParametersRoundTrip | core/src/main/java/org/infinispan/commands/control/LockControlCommand.java:176-213 | setParameters of getParameters restores the transaction, cache name, unlock flag, flags and keys; an empty non-null key set comes back as no key |
| LockControl.ForeignCommandIdRefused | core/src/main/java/org/infinispan/commands/control/LockControlCommand.java:186-188 | a foreign command id raises IllegalStateException |
| LockControl.PerformUnknownTransaction | core/src/main/java/org/infinispan/commands/control/LockControlCommand.java:146-170 | unlocking an unknown transaction does nothing and returns null; locking for one adds exactly one remote transaction, with no modifications; a known transaction is reused |
| LockControl.PerformRefusesContext | core/src/main/java/org/infinispan/commands/control/LockControlCommand.java:146-149 | a non-null context raises IllegalStateException and leaves the table and the chain untouched |
| LockControl.LockControlCommand.Empty | core/src/main/java/org/infinispan/commands/control/LockControlCommand.java:65-66 | a new command has no transaction, no keys and no flags |
| LockControl.LockControlCommand.constructor | core/src/main/java/org/infinispan/commands/control/LockControlCommand.java:72-86 | the fields are those of the constructor rule |
| LockControl.LockControlCommand.AttachGlobalTransaction | core/src/main/java/org/infinispan/commands/control/LockControlCommand.java:88-90 | only the global transaction changes |
| LockControl.LockControlCommand.GetSingleKey | core/src/main/java/org/infinispan/commands/control/LockControlCommand.java:121-132 | the unboxed key if set, else a key of the key set; null exactly when there is no key |
| LockControl.LockControlCommand.ReplaceKey | core/src/main/java/org/infinispan/commands/control/LockControlCommand.java:103-111 | the new fields are those of the replacement rule |
| LockControl.LockControlCommand.ReplaceKeys | core/src/main/java/org/infinispan/commands/control/LockControlCommand.java:113-115 | the new fields are those of applying each replacement in turn |
| LockControl.LockControlCommand.SetParameters | core/src/main/java/org/infinispan/commands/control/LockControlCommand.java:186-213 | the new fields are those setParameters computes, or unchanged when it refuses |
| LockControl.LockControlCommand.Perform | core/src/main/java/org/infinispan/commands/control/LockControlCommand.java:146-170 | a non-null context is refused, whether or not a global transaction is attached; the table, the chain invocation and the result are those of the remote perform |
| KeySet.Lookup | core/src/main/java/org/infinispan/commands/read/KeySetCommand.java:100 | the entry found carries the key, and none is found exactly when no entry carries it |
| KeySet.Perform | core/src/main/java/org/infinispan/commands/read/KeySetCommand.java:60-67 | without transactional modifications the container's keys are returned read-only; otherwise the filtered view over them and the looked-up entries is returned |
| KeySet.Size | core/src/main/java/org/infinispan/commands/read/KeySetCommand.java:85-96 | for the container's duplicate-free key set, the count plus created minus removed entries, floored at zero |
| KeySet.Contains | core/src/main/java/org/infinispan/commands/read/KeySetCommand.java:98-107 | a key with no looked-up entry raises NullPointerException; a removed one is absent |
| KeySet.Mutate | core/src/main/java/org/infinispan/commands/read/KeySetCommand.java:114-142 | every mutator raises UnsupportedOperationException |
| KeySet.CreatedKeysMembers | core/src/main/java/org/infinispan/commands/read/KeySetCommand.java:155-170 | the first phase yields exactly the keys of created entries |
| KeySet.SurvivingMembers | core/src/main/java/org/infinispan/commands/read/KeySetCommand.java:172-187 | the second phase yields exactly the container keys not removed by the transaction |
| KeySet.IterationMembers | core/src/main/java/org/infinispan/commands/read/KeySetCommand.java:144-211 | the iterator yields a key exactly when a created entry carries it, or the container holds it and it was not removed |
| KeySet.CreatedContainerKeyRepeats | core/src/main/java/org/infinispan/commands/read/KeySetCommand.java:155-187 | a created key that the container also holds is yielded twice |
| KeySet.ContainsAgreesWithIteration | core/src/main/java/org/infinispan/commands/read/KeySetCommand.java:98-107 | for a looked-up key of a coherent transaction, contains agrees with what the iterator yields |
| KeySet.SizeMatchesIteration | core/src/main/java/org/infinispan/commands/read/KeySetCommand.java:85-96 | for a coherent transaction, the unfloored size equals the number of keys the iterator yields |
| KeySet.KeySetIterator.constructor | core/src/main/java/org/infinispan/commands/read/KeySetCommand.java:151-153 | the keys remaining are the whole iteration |
| KeySet.KeySetIterator.FetchNext | core/src/main/java/org/infinispan/commands/read/KeySetCommand.java:155-188 | the remaining keys are unchanged, and nothing is pending only when none remain |
| KeySet.KeySetIterator.SeekCreated | core/src/main/java/org/infinispan/commands/read/KeySetCommand.java:156-170 | the first loop keeps the remaining keys and stays on the entries exactly when it found a created one |
| KeySet.KeySetIterator.SeekSurviving | core/src/main/java/org/infinispan/commands/read/KeySetCommand.java:172-187 | the second loop keeps the remaining keys |
| KeySet.KeySetIterator.HasNext | core/src/main/java/org/infinispan/commands/read/KeySetCommand.java:191-196 | true exactly when keys remain, and nothing is consumed |
| KeySet.KeySetIterator.Next | core/src/main/java/org/infinispan/commands/read/KeySetCommand.java:199-211 | yields the first remaining key and drops it, or raises NoSuchElementException when none remain |
| Invalidation.Parameters | core/src/main/java/org/infinispan/commands/write/InvalidateCommand.java:104-115 | the array is the key count followed by the keys in order; a null key array counts as empty |
| Invalidation.ApplyParameters | core/src/main/java/org/infinispan/commands/write/InvalidateCommand.java:117-127 | a foreign command id raises IllegalStateException; otherwise the array gets as many keys as the count says |
| Invalidation.ParametersRoundTrip | core/src/main/java/org/infinispan/commands/write/InvalidateCommand.java:104-127 | setParameters of getParameters restores the keys; a null array comes back empty |
| Invalidation.DecodeThenEncode | core/src/main/java/org/infinispan/commands/write/InvalidateCommand.java:104-127 | the parameters of the decoded keys are the prefix of the array that was read |
| Invalidation.ArraysEqual | core/src/main/java/org/infinispan/commands/write/InvalidateCommand.java:143-161 | the elementwise comparison holds exactly when the key arrays are equal, with two nulls equal |
| Invalidation.InvalidateCommand.Empty | core/src/main/java/org/infinispan/commands/write/InvalidateCommand.java:47-48 | a new command has a null key array |
| Invalidation.InvalidateCommand.Varargs | core/src/main/java/org/infinispan/commands/write/InvalidateCommand.java:50-53 | keeps the caller's array |
| Invalidation.InvalidateCommand.constructor | core/src/main/java/org/infinispan/commands/write/InvalidateCommand.java:55-61 | a fresh array of the collection's elements in order, empty for a null or empty collection |
| Invalidation.InvalidateCommand.Invalidate | core/src/main/java/org/infinispan/commands/write/InvalidateCommand.java:80-85 | sets the key and hands it to the removal |
| Invalidation.InvalidateCommand.Perform | core/src/main/java/org/infinispan/commands/write/InvalidateCommand.java:70-78 | every key is invalidated once, in array order, and null is returned; a null array raises NullPointerException |
| Invalidation.InvalidateCommand.GetParameters | core/src/main/java/org/infinispan/commands/write/InvalidateCommand.java:104-115 | a fresh array holding the parameter encoding of the keys |
| Invalidation.InvalidateCommand.SetParameters | core/src/main/java/org/infinispan/commands/write/InvalidateCommand.java:117-127 | installs a fresh array of the decoded keys, or refuses a foreign id and keeps the old array |
| Invalidation.InvalidateCommand.GetKey | core/src/main/java/org/infinispan/commands/write/InvalidateCommand.java:134-137 | always raises UnsupportedOperationException |
| Invalidation.InvalidateCommand.Equals | core/src/main/java/org/infinispan/commands/write/InvalidateCommand.java:143-161 | equal exactly when the same object, or when the superclass agrees and the key arrays are equal |
| ClusterLoader.ValidMembers | core/src/main/java/org/infinispan/loaders/cluster/ClusterCacheLoader.java:131-134 | the members whose responses count are exactly the cluster members other than this node |
| ClusterLoader.FromResponse | core/src/main/java/org/infinispan/loaders/cluster/ClusterCacheLoader.java:95-102 | a successful response with a value yields that value as an entry for the key; a null value raises NullPointerException; any other response raises CacheLoaderException |
| ClusterLoader.ResolveDependsOnlyOnDistinct | core/src/main/java/org/infinispan/loaders/cluster/ClusterCacheLoader.java:80-93 | the outcome depends only on the set of distinct responses, not on their order or duplicates |
| ClusterLoader.ResolveCases | core/src/main/java/org/infinispan/loaders/cluster/ClusterCacheLoader.java:80-102 | no responses give null; two different responses raise CacheLoaderException; identical responses are resolved as one |
| ClusterLoader.LoadGate | core/src/main/java/org/infinispan/loaders/cluster/ClusterCacheLoader.java:76-79 | only a running cache serving a local call asks the cluster; a failed remote call raises CacheLoaderException |
| ClusterLoader.ClusterCacheLoader.DoRemoteCall | core/src/main/java/org/infinispan/loaders/cluster/ClusterCacheLoader.java:131-141 | broadcasts one ClusteredGet, counting only responses from the members other than this node; a failure is wrapped in CacheLoaderException |
| ClusterLoader.ClusterCacheLoader.Load | core/src/main/java/org/infinispan/loaders/cluster/ClusterCacheLoader.java:76-103 | the result is the load outcome, and a remote call is made exactly when the cache is running and the call is local |
| ClusterLoader.ClusterCacheLoader.LoadAll | core/src/main/java/org/infinispan/loaders/cluster/ClusterCacheLoader.java:106-108 | always empty |
| ClusterLoader.ClusterCacheLoader.LoadSome | core/src/main/java/org/infinispan/loaders/cluster/ClusterCacheLoader.java:110-112 | always empty |
| ClusterLoader.ClusterCacheLoader.LoadAllKeys | core/src/main/java/org/infinispan/loaders/cluster/ClusterCacheLoader.java:115-117 | always empty |

## Left out

- The byte encodings of the transport: variable-length ints and longs, length-prefixed arrays and strings. A transport is a queue of decoded fields, and an I/O failure is a missing or mistyped field raising TransportException.
- Transport pooling, and a failing getTransport: every operation is given a live transport. In ping, the null-transport path this would need is not modelled.
- Thread safety of the shared AtomicLong message-id counter: it is a class whose increments happen one at a time.
- HotRodTransport.MessageIdCounter.IncrementAndGet: the counter is an unbounded natural number. The AtomicLong wraps to Long.MIN_VALUE after 2^63 - 1 increments, after which an id is no longer greater than every earlier one; that wrap-around is not modelled.
- HotRod.HotrodOperations.constructor: it takes the cache name's bytes directly. The encoding of the name with the platform's default charset is left to the caller.
- Logging, trace output, toString, hashCode and the text of exception messages. Messages are kept only where they tell exceptions apart.
- LockControlCommand.equals and hashCode. They are not part of the operations modelled here.
- The removal of one key in InvalidateCommand: the superclass's perform is not part of this model. It is recorded as a per-key effect in a log.
- HashSet and HashMap iteration order is modelled as a sequence. The synchronizations, the container's key set, the looked-up entries and the replacement map are all sequences in their iteration order.
- KeySet.Size: the Java int count is an unbounded integer, so overflow past 2^31 - 1 is not modelled.
- LockControl.LockControlCommand.SetParameters and LockControl.ApplyParameters require a well-shaped argument array. A malformed one is not modelled. With fewer than four elements, or with mode 2 or 3 and only four, the code raises ArrayIndexOutOfBoundsException. A null unlock flag or mode raises NullPointerException, and an element of the wrong class raises ClassCastException.
- Invalidation.InvalidateCommand.SetParameters and Invalidation.ApplyParameters require a non-negative count followed by at least that many keys. A null count raises NullPointerException when unboxed, and a negative count raises NegativeArraySizeException. An array shorter than the count plus one raises ArrayIndexOutOfBoundsException. The keys themselves are never cast.
- HotRod.FlagWordOf: the flag word is proved equal to the OR fold of the flag ints. Bit-level facts about that fold (which bits are set) are not proved.
- Whether an invocation context carries transactional modifications is a parameter (`noTxModifications`): the context classes are not part of this model.
- Responses, remote transactions and cache values are compared by value, as their equals methods do. Object identity is not modelled.
- LockControl.LockControlCommand.SetParameters and LockControl.LockControlCommand.ReplaceKey: the key set is a value, so its aliasing is not modelled. In the code, setParameters stores the received set by reference, and getKeys and getParameters hand out that live set. replaceKey's in-place removal and addition are therefore visible to every other holder of the set.
- HotRod.HotrodOperations.ConditionalPut, HotRod.HotrodOperations.Stats and HotRod.HotrodOperations.RemoveIfUnmodified follow the code as written. The corrected behaviour is proved on the pure definitions only; see "## Findings".
- Transactions.DummyTransaction.Commit follows the code as written. The corrected commit is the pure definition `IntendedCommitOutcome`, with its properties proved.
- Failures of afterCompletion callbacks: the code only logs them, so the model does not represent them.

## Findings

| source | as written | input that shows it | evidently intended | confidence | as-written member | corrected member |
|---|---|---|---|---|---|---|
| core/src/main/java/org/infinispan/transaction/tm/DummyTransaction.java:250-266 | prepare keeps only the last resource's vote, and the commit phase is skipped when that vote is XA_RDONLY | resource A votes XA_OK, then resource B votes XA_RDONLY: the transaction ends COMMITTED and A is never committed | commit every resource that did not vote XA_RDONLY | high, not executed | Transactions.ReadOnlyLastVoteSkipsCommit | Transactions.IntendedCommitCommitsEveryWriter |
| core/src/main/java/org/infinispan/transaction/tm/DummyTransaction.java:76-93 | commit overwrites a MARKED_ROLLBACK status with PREPARING or ROLLING_BACK before testing it, so the rollback-only test can never hold | a transaction marked rollback-only with one resource that votes XA_OK: it commits | a rollback-only transaction is rolled back and RollbackException is raised, as the method's Javadoc says | high, not executed | Transactions.MarkedRollbackStillCommits | Transactions.IntendedCommitHonoursRollbackOnly |
| client/hotrod-client/src/main/java/org/infinispan/client/hotrod/impl/HotrodOperationsImpl.java:311-331 | the status check rejects NOT_PUT_REMOVED_REPLACED (0x01) as an unknown status | a putIfAbsent, replace, replaceIfUnmodified or removeIfUnmodified reply with status 0x01 raises IllegalStateException | return null from putIfAbsent and replace, and MODIFIED_KEY from the versioned operations | high, not executed | HotRod.ConditionalPutRefusalRejected | HotRod.ConditionalPutRefusalYieldsNull |
| client/hotrod-client/src/main/java/org/infinispan/client/hotrod/impl/HotrodOperationsImpl.java:361-378 | the MODIFIED_KEY branch can never be reached | any versioned reply with status 0x01 raises IllegalStateException | the reply yields MODIFIED_KEY | high, not executed | HotRod.VersionedModifiedKeyUnreachable | HotRod.VersionedModifiedKeyReported |
| client/hotrod-client/src/main/java/org/infinispan/client/hotrod/impl/HotrodOperationsImpl.java:199-216 | stats validates its reply against CLEAR_RESPONSE | a STATS_RESPONSE reply (0x16) raises InvalidResponseException | validate against STATS_RESPONSE and decode the statistics | high, not executed | HotRod.StatsReplyRejected | HotRod.StatsReplyDecoded |
| client/hotrod-client/src/main/java/org/infinispan/client/hotrod/impl/HotrodOperationsImpl.java:170-186 | removeIfUnmodified validates its reply against REPLACE_IF_UNMODIFIED_RESPONSE | a REMOVE_IF_UNMODIFIED_RESPONSE reply (0x0E) raises InvalidResponseException | validate against REMOVE_IF_UNMODIFIED_RESPONSE | high, not executed | HotRod.RemoveIfUnmodifiedReplyRejected | HotRod.RemoveIfUnmodifiedReplyAccepted |
