# Verified models of the framework's stateful cores

A Dafny project beside the web framework. It models the parts whose correctness depends on whole
runs or on several functions together, and proves what those parts are for. `dafny verify
dfyconfig.toml` checks everything.

- **Idempotency** (`IdempotencyStore`, `IdempotencyProtocol`, `IdempotencySafety`,
  `IdempotencyEviction`, `IdempotencyHandler`, `CaptureWriter`, `RedisWait`). The in-memory store and the response-capturing writer are classes; any number of
  requests, a janitor and a clock interleave as a state machine over them. The only assumption is
  that no look-up or lock deletes an expired entry which a request still holds, and it is exact: a
  run keeps the invariant if and only if it makes no such step, and one such step leads to two
  handlers running for a key and strands whoever waits for the evicted entry.
- **Request signing** (`ByteStrings`, `CanonicalRequest`, `HmacAuth`, `NonceStore`, `ReplayWindow`,
  `VerifyRuns`). The canonical form, signing and verifying over uninterpreted digests, the bounded
  nonce store, and replay rejection over every sequence of verifications with the exact lifetime that
  it needs.
- **Token buckets** (`TokenBucket`, `TokenBucketRuns`, `TokenBucketClocks`). The in-process bucket and
  the Redis script over reals: an exact admission theorem, exactly when the two decide alike, and when
  dropping an idle bucket is unnoticed.
- **Routing** (`Middleware`, `DirectPattern`, `PatternMatching`, `RouteTables`, `Dispatch`,
  `DispatchOverlap`). Patterns, parameter capture, group registration, the precomputed tables, the
  orders in which they are asked, and exactly when two of these orders answer differently.
- **OpenAPI schemas** (`SchemaBuilder`, `SchemaProperties`, `SchemaRequired`, `SchemaTermination`). The
  recursion over a cyclic type graph, as a class with maps, what it emits, and exactly when it ends.
- **Smaller machines** (`EventStream`, `CertReload`, `Compress`). The event printer against the
  standard's parser, the certificate reloader among other threads, and the threshold-compressing
  writers.

Methods with loops or state follow the program's own steps and are proved against functions of
their inputs or of a ghost history; what the program promises is then proved of those functions.
Concurrent code is a state machine whose steps are the program's critical sections. Byte strings
are sequences of bytes, headers map canonical names to value lists, times are integers, and clocks,
randomness, digests, codecs and the standard multiplexer are parameters.

## Where code and documentation differ

- The schema builder's comments say that named structs make cycles end. Embedding a named struct
  flattens it without registering it, so `type E struct { X []struct{ E } }` is never finished:
  `SchemaTermination.EmbeddingNeverEnds`, and `SchemaTermination.EndsIffNoInlineCycle` for the exact
  condition.
- The Redis token bucket is described as the in-process one made atomic. It moves its timestamp back
  with the clock, and then earns the same time twice (`TokenBucketRuns.ScriptEarnsTwice`); the two
  decide alike exactly as long as the clock has not gone back: `TokenBucketClocks.AlikeIffClockNeverWentBack`.
- Which route serves a request that several patterns match can depend on whether a hook is registered,
  as for `/users/me` on the application and `/users/{id}` in a group (`DispatchOverlap.UsersMe`);
  `DispatchOverlap.HooksChangeNothingIff` has the exact condition. Where the same route serves, its
  parameters may still be kept in another place: `DispatchOverlap.ParametersMoveIff`.
- A native handler that returns an error has its response saved as it stands, and the error handler
  writes to its client after that. A replay is what the client of the saver was sent if and only if no
  such report was written: `IdempotencySafety.ReplayIsWhatWasSentIff`.
- The default nonce lifetime is computed in 64-bit nanoseconds and overflows for a skew of more than
  4,611,685,988 seconds; then nothing is protected: `ReplayWindow.DefaultAllowsFiftyNineSeconds`.
- A field that shadows one of an embedded struct is listed twice among the required properties, which
  section 6.5.3 of JSON Schema Validation (2020-12) rules out: `SchemaRequired.ShadowedIsListedTwice`,
  and `SchemaRequired.RequiredUniqueIff` for the exact condition.
- Path parameters are unescaped although the path they are taken from is unescaped already, so a value
  that reads as an escape is changed: `PatternMatching.RenderThenMatch`.
- A body that turns out to be excluded from compression after bytes were buffered is sent with those
  bytes last: `Compress.LateTypeReorders`, and `Compress.InOrderIffCommute` for the exact condition. A
  body that its handler had encoded and marked itself is encoded again under the writer's mark alone:
  `Compress.BodyArrives`.
- An event whose data holds a carriage return is not rejected, and is not read back as sent:
  `EventStream.RoundTrip`.

## Model

| member | source | states |
|---|---|---|
| IdempotencyStore.MemoryStore.Lock | plugins/idempotency/store.go:139-161 | wins exactly when nothing unexpired is stored; an expired entry is replaced, whoever holds it |
| IdempotencyStore.MemoryStore.Unlock | plugins/idempotency/store.go:163-187 | drops an entry without a response, releases one with a response, and wakes the sleepers of that very entry |
| IdempotencyStore.MemoryStore.Get | plugins/idempotency/store.go:190-205 | an unexpired saved response or nothing; deletes an expired entry |
| IdempotencyStore.MemoryStore.Save | plugins/idempotency/store.go:208-226 | the entry of the key (made if missing) gets response and expiry, and no other entry changes |
| IdempotencyStore.MemoryStore.BeginWait | plugins/idempotency/store.go:230-245 | the first critical section of Wait: the entry to sleep on, and whether to |
| IdempotencyStore.MemoryStore.Recheck | plugins/idempotency/store.go:246-269 | what one pass of the wait loop reports about an entry that may have left the map |
| IdempotencyStore.MemoryStore.SweepExpired | plugins/idempotency/store.go:271-283 | drops exactly the expired entries that nobody holds, in any order of visits |
| IdempotencySafety.InvariantIffNoHeldEviction | plugins/idempotency/idempotency.go:361-415 | in every run of requests, sweeps and ticks the protocol invariant holds throughout if and only if no step deletes an expired entry that is held |
| IdempotencySafety.AtMostOneHandler | plugins/idempotency/idempotency.go:361-415 | at most one handler runs per key, in every reachable state |
| IdempotencySafety.NoHandlerBeforeExpiry | plugins/idempotency/idempotency.go:361-415 | in every run: when one step saves a response and a later one starts a handler of the key, the response has expired by then |
| IdempotencySafety.EverySleeperHasHolder | plugins/idempotency/store.go:230-269 | in every run a sleeping waiter's entry has a holder that is still to unlock it, so no wake-up is lost |
| IdempotencySafety.EveryUnlockWakes | plugins/idempotency/store.go:163-187 | that unlock makes every sleeper of the entry runnable |
| IdempotencySafety.EveryWakeGivesHoldersResponse | plugins/idempotency/store.go:246-269 | and a woken waiter ends with exactly what the holder saved, or with a conflict if it saved nothing |
| IdempotencySafety.RunsAreRecorded | plugins/idempotency/idempotency.go:361-415 | what a run stored and sent is a function of its handler's writer calls |
| IdempotencySafety.ReplaysAreFaithful | plugins/idempotency/idempotency.go:511-619 | every replay has the status, the body and the replayable headers that the saver's own client was sent for its handler's calls, and with body hashing the saver's body hash, on hit and wait path |
| IdempotencySafety.ReplayIsWhatWasSentIff | plugins/idempotency/idempotency.go:391-414 | it is all that client was sent if and only if no error report was written to it outside the middleware |
| IdempotencySafety.ReportIsNotReplayed | plugins/idempotency/idempotency.go:391-414 | after any such report, possible in every state with a replay whose saver is done, the two differ |
| IdempotencySafety.LateUnlockAllowsTwoHandlers | plugins/idempotency/store.go:139-205 | without the assumption: from any state where a saved response expired before its unlock, two handlers of one key come to run at once |
| IdempotencySafety.StealTwice | plugins/idempotency/store.go:139-187 | the run that does it: the late unlock drops the entry of the request that took over |
| IdempotencyEviction.SleepersOfEvictedNeverEnd | plugins/idempotency/store.go:139-269 | in every run: whoever sleeps on an entry that is evicted while held is woken by no unlock and never ends, unless its own caller gives up |
| IdempotencyEviction.LateUnlockStrandsSleepers | plugins/idempotency/store.go:139-269 | from any state where a saved response is not yet unlocked, a run evicts its entry; the unlock then finds none, and everyone asleep on it is stranded whatever follows |
| CaptureWriter.Capture.Write | plugins/idempotency/writer.go:98-148 | keeps the writer equal to a function of the calls so far and never buffers more than the cap |
| CaptureWriter.Capture.FlushUnderCap | plugins/idempotency/writer.go:151-171 | the client has one status (the first chosen, or 200), the headers of its time and exactly the written bytes; a second flush does nothing |
| CaptureWriter.Capture.Snapshot | plugins/idempotency/writer.go:182-209 | nothing exactly when the body outgrew the cap, otherwise status, allowed headers and whole body |
| CaptureWriter.Serve | plugins/idempotency/writer.go:78-171 | for every sequence of handler calls and a final flush the client receives what the calls mean |
| IdempotencyHandler.Handle | plugins/idempotency/idempotency.go:361-415 | one request through store and capturing writer: store, outcome and client end as the protocol's step functions compose |
| IdempotencyHandler.HandleConflict | plugins/idempotency/idempotency.go:511-530 | rejected, or answered with what waiting yields |
| IdempotencyHandler.ReplayTo | plugins/idempotency/idempotency.go:571-619 | sends status, filtered headers and body of the stored response |
| IdempotencyHandler.HandledIsProtocol | plugins/idempotency/idempotency.go:361-415 | handling a request is a run of the protocol, with the clock going on between its store calls: same store, same outcome, same reply, or the same point at which it comes to wait |
| RedisWait.NoLostNotification | plugins/idempotency-redis/redis.go:190-241 | in every interleaving, once no publication is under way no waiter sleeps on a stored response, and a returned response was saved |
| RedisWait.ReceiveFindsResponse | plugins/idempotency-redis/redis.go:243-273 | without expiry the look that follows a message finds a saved response |
| RedisWait.LookingFirstLosesTheMessage | plugins/idempotency-redis/redis.go:216-241 | with look and subscription exchanged a run leads to a waiter asleep on a stored response with no publication to come |
| RedisWait.SleepsOn | plugins/idempotency-redis/redis.go:216-241 | and it stays asleep whatever follows, short of another save, a closed channel or giving up |
| CanonicalRequest.PercentEncode | plugins/hmacauth/canonical.go:59-112 | the two-pass encoder computes the byte-wise encoding |
| CanonicalRequest.DecodeEncode | plugins/hmacauth/canonical.go:59-86 | the encoding can be decoded, hence is injective |
| CanonicalRequest.EncodeAlphabet | plugins/hmacauth/canonical.go:59-112 | an encoded text consists of unreserved bytes and '%' |
| CanonicalRequest.CanonicalQuery | plugins/hmacauth/canonical.go:25-56 | in any map order the loops print the sorted list of encoded pairs |
| CanonicalRequest.SameCanonicalQuery | plugins/hmacauth/canonical.go:25-56 | two queries have one canonical form if and only if they hold the same pairs equally often |
| CanonicalRequest.AppendHex | plugins/hmacauth/canonical.go:137-143 | appends the lower-case hex form |
| CanonicalRequest.HexRoundTrip | plugins/hmacauth/canonical.go:137-143 | which decodes to the bytes |
| CanonicalRequest.CanonicalRequest | plugins/hmacauth/canonical.go:114-135 | the buffer holds the six fields separated by newlines |
| CanonicalRequest.Unambiguous | plugins/hmacauth/canonical.go:114-135 | two requests have one canonical form if and only if method, path, query pairs, body digest, timestamp and nonce agree, newlines in the path included |
| CanonicalRequest.NewlineInMethodIsAmbiguous | plugins/hmacauth/canonical.go:114-135 | every method with a newline collides with another method and path |
| CanonicalRequest.NewlineInNonceIsAmbiguous | plugins/hmacauth/canonical.go:114-135 | a nonce with the last fields of another request in it collides with that request |
| HmacAuth.Verify | plugins/hmacauth/hmacauth.go:532-610 | the outcome of every check in order, and the nonce store is asked exactly when all others pass |
| HmacAuth.AcceptedIsGenuine | plugins/hmacauth/hmacauth.go:532-610 | accepted before the nonce check if and only if some non-empty key of the client signs the request, the timestamp is within the skew and nothing is missing |
| HmacAuth.CompareAllSecrets | plugins/hmacauth/hmacauth.go:620-642 | a match exactly when some non-empty candidate matches |
| HmacAuth.ReadBody | plugins/hmacauth/hmacauth.go:682-709 | the whole body exactly when it ends within the limit, told apart from overflow and read errors |
| HmacAuth.StopsOnce | plugins/hmacauth/hmacauth.go:682-709 | the read at which it stops is determined by the reads and the limit |
| HmacAuth.Sign | plugins/hmacauth/signer.go:50-98 | succeeds exactly when there is an identifier, a usable key, a nonce and a readable body, and then signs under a key of the client |
| HmacAuth.ChooseSecret | plugins/hmacauth/signer.go:57-71 | the primary secret, else the first non-empty rotation slot, else none exists |
| HmacAuth.ResolveSignBody | plugins/hmacauth/signer.go:108-124 | what is signed is what is sent unless the caller supplies a body; fails exactly on unreadable or one-shot bodies |
| HmacAuth.SignedIsAccepted | plugins/hmacauth/signer.go:50-98 | what a client signs is accepted by a server that knows it, with clocks within the skew |
| HmacAuth.AcceptedIsWhatWasSigned | plugins/hmacauth/hmacauth.go:573-590 | whatever is accepted under a signature agrees with what was signed, unless the canonical forms of the two requests are a collision of the digest under keys of their clients |
| HmacAuth.NonceKeysAreSeparate | plugins/hmacauth/hmacauth.go:591-593 | clients without a colon in their identifier never share a nonce |
| HmacAuth.ColonSharesNonces | plugins/hmacauth/hmacauth.go:591-593 | with a colon they do |
| HmacAuth.ShareNoncesIff | plugins/hmacauth/hmacauth.go:591-593 | two clients share nonces if and only if they are one, or one identifier is the other followed by a colon and more |
| NonceStore.MemoryNonceStore.SetNX | plugins/hmacauth/noncestore.go:95-123 | new exactly when no live entry is stored; a full store evicts first; a done context changes nothing |
| NonceStore.MemoryNonceStore.EvictLocked | plugins/hmacauth/noncestore.go:132-157 | removes all expired entries, or one oldest when there is none |
| NonceStore.MemoryNonceStore.JanitorSweep | plugins/hmacauth/noncestore.go:159-177 | keeps exactly the live entries |
| NonceStore.SetsKeepsBound | plugins/hmacauth/noncestore.go:95-157 | the store never exceeds its maximum, and a live nonce is lost only from a store full of live ones, as an oldest |
| NonceStore.FullStoreForgets | plugins/hmacauth/noncestore.go:117-157 | in a store full of live nonces one fresh nonce makes a live one acceptable again |
| ReplayWindow.Normalize | plugins/hmacauth/hmacauth.go:301-342 | refuses exactly negative settings, never leaves a zero skew, and fills in a lifetime of twice the skew plus a minute exactly if that fits 64-bit nanoseconds |
| ReplayWindow.StoreIsHistory | plugins/hmacauth/noncestore.go:95-177 | in every run the store answers as if it kept all history: new if and only if no accepted insertion of the nonce is within its lifetime |
| ReplayWindow.NoReplay | plugins/hmacauth/hmacauth.go:553-607 | no nonce and timestamp is accepted twice in any run when the lifetime covers the window |
| ReplayWindow.ReplayProtectionIsExact | plugins/hmacauth/hmacauth.go:553-607 | that holds for all runs if and only if (2 * skew + 1) seconds plus the lag of the insertion fit the lifetime |
| ReplayWindow.DefaultAllowsFiftyNineSeconds | plugins/hmacauth/hmacauth.go:340-342 | with the default lifetime exactly lags up to 59 seconds are safe, and none when the lifetime overflows |
| VerifyRuns.VerifyAll | plugins/hmacauth/hmacauth.go:532-610 | a sequence of verifications and janitor sweeps on one store reports and stores, event by event, what the decision and the nonce store say |
| VerifyRuns.HistoryIsRun | plugins/hmacauth/hmacauth.go:553-607 | every such sequence is a run of the replay window, calls that never reach the store included |
| VerifyRuns.NoMessageAcceptedTwice | plugins/hmacauth/hmacauth.go:553-607 | no two verifications of one client, nonce and timestamp, and so of one message, both accept |
| VerifyRuns.ProtectionOfMessagesIsExact | plugins/hmacauth/hmacauth.go:553-607 | for a server with a client that can sign, that holds for all sequences if and only if the lifetime covers the window and the lag |
| TokenBucket.Entry.Decide | plugins/ratelimit/algo_token_bucket.go:11-48 | new state, decision, remaining and reset of the in-process bucket, for any clock |
| TokenBucket.Hash.Script | plugins/ratelimit-redis/ratelimit.go:309-349 | the same for the Redis script |
| TokenBucket.RefilledWithinBurst | plugins/ratelimit/algo_token_bucket.go:15-32 | refilling never loses tokens and never exceeds the burst |
| TokenBucket.FullAtReset | plugins/ratelimit-redis/ratelimit.go:341-348 | the script's reset time is the first at which an untouched bucket is full |
| TokenBucket.ReportedResetIsEarly | plugins/ratelimit/algo_token_bucket.go:38-47 | the reset time that is reported lies before the first full tick of an untouched bucket by what the clock went back and, unless the wait is whole, one tick |
| TokenBucketRuns.AdmissionsArePaidFor | plugins/ratelimit/algo_token_bucket.go:15-32 | admissions after any point plus the tokens left are covered by the tokens then and the advance of `last`, with clocks in any order |
| TokenBucketRuns.AdmissionBound | plugins/ratelimit/algo_token_bucket.go:15-32 | hence at most burst + rate * advance over any stretch of any run |
| TokenBucketRuns.AdmissionFromStart | plugins/ratelimit/algo_token_bucket.go:15-32 | and over the whole run from its first request |
| TokenBucketRuns.TokensAreRoom | plugins/ratelimit/algo_token_bucket.go:15-35 | the tokens are exactly the room that the admitted requests leave in every window |
| TokenBucketRuns.AdmissionIsExact | plugins/ratelimit/algo_token_bucket.go:15-35 | a request is admitted if and only if every window that ends with it stays within burst + rate * length |
| TokenBucketRuns.ConformingIffAllAdmitted | plugins/ratelimit/algo_token_bucket.go:15-35 | a run is admitted in full if and only if all its intervals conform |
| TokenBucketRuns.AdmittedConform | plugins/ratelimit/algo_token_bucket.go:15-35 | what is admitted conforms, whatever is requested |
| TokenBucketRuns.ScriptAgreesOnStep | plugins/ratelimit-redis/ratelimit.go:324-338 | one request leaves the same state if and only if its time is not before the last one |
| TokenBucketRuns.ScriptAgrees | plugins/ratelimit-redis/ratelimit.go:309-349 | on a clock that does not go back the script and the in-process bucket go through the same states |
| TokenBucketRuns.ScriptEarnsTwice | plugins/ratelimit-redis/ratelimit.go:326-338 | the shortest example: one token, back and forth, and the script admits what the in-process bucket denies |
| TokenBucketClocks.AlikeIffClockNeverWentBack | plugins/ratelimit-redis/ratelimit.go:324-338 | for every configuration and run: all decisions from any request of the run on, on a steady clock, are the same for both buckets if and only if the clock of the run never goes back |
| TokenBucketClocks.ScriptCatchesUp | plugins/ratelimit-redis/ratelimit.go:324-338 | whatever the clock did, both buckets are in one state again once the burst has refilled |
| TokenBucketRuns.DropsUnnoticedIffBurstRefills | plugins/ratelimit-redis/ratelimit.go:351-361 | dropping buckets idle for a lifetime goes unnoticed in every run if and only if the burst refills in it |
| TokenBucketRuns.BurstRefills | plugins/ratelimit-redis/ratelimit.go:351-361 | which in whole numbers is burst * window <= limit * lifetime |
| TokenBucketRuns.DefaultsRefill | plugins/ratelimit-redis/ratelimit.go:351-361 | both default lifetimes meet it when burst <= 2 * limit |
| TokenBucketRuns.DropNoticed | plugins/ratelimit/store.go:117-130 | a run in which a drop shows when it does not hold |
| Middleware.BuildChain | middleware.go:182-187 | the first slot is outermost, and a request meets the slots in order and then the handler |
| Middleware.BuildNativeChain | middleware.go:192-201 | exists exactly when every slot is native, and then is the same nest |
| Middleware.AllNative | middleware.go:206-213 | true exactly when every slot is native |
| DirectPattern.Compile | dispatch.go:585-607 | the parts of the trimmed, split pattern |
| DirectPattern.PiecesAreSegments | dispatch.go:623-640 | what the loop consumes turn by turn are the segments of the path, one trailing empty one ignored |
| DirectPattern.Match | dispatch.go:609-664 | a match exactly when the pattern captures the path; the parameters are added in order, and a failed match adds none |
| DirectPattern.DecodePathValue | dispatch.go:666-678 | changes a value exactly when it holds a '%' and unescapes without error |
| DirectPattern.Context.Lookup | context.go:326-333 | the first stored parameter of the name, or the request's own value |
| DirectPattern.Context.SetDirectPathParam | context.go:354-363 | appended to the buffer while there is room, otherwise given to the request after all others |
| DirectPattern.Context.MaterializePathParams | context.go:365-373 | once only, later parameters replacing earlier ones of the name |
| PatternMatching.MatchesIffSegmentsFit | dispatch.go:609-664 | a compiled pattern accepts exactly the paths whose segments fit it, a catch-all taking the rest |
| PatternMatching.CapturedSegment | dispatch.go:636-650 | the parameter of a named part is the decoded segment at its place |
| PatternMatching.CapturedRest | dispatch.go:620-632 | there is one parameter per named part, and a named catch-all has the decoded rest of the path |
| PatternMatching.RenderThenMatch | dispatch.go:609-678 | a rendered pattern always matches, and gives the values back if and only if none of them reads as an escaped text |
| PatternMatching.CompiledIsRenderable | dispatch.go:585-607 | compiled patterns can be rendered unless they end with a nameless part |
| RouteTables.App.AddRoute | app_routes.go:85-113 | an application route enters the exact or dynamic table exactly when it has no middleware of its own |
| RouteTables.App.AddGroupRoute | router.go:325-384 | a group route enters its table, and the native one exactly when all its middleware is native |
| RouteTables.App.BuildRouteChainFast | dispatch.go:25-163 | every chained table is its source table behind the global middleware, native ones only when that is native |
| RouteTables.RouteGroup.AddRoute | router.go:271-291 | the route gets the group's prefix, the group's middleware and then its own |
| RouteTables.Declare | router.go:441-464 | nested groups start from the middleware in force where they stand, and later additions of the parent do not reach them |
| Dispatch.Scan | dispatch.go:193-199 | the first pattern in registration order that matches, with its parameters in the context |
| Dispatch.ServeDirect | dispatch.go:482-530 | the order of the direct tables, over the history of registrations |
| Dispatch.ServeInner | dispatch.go:184-210 | the order of the multiplexer's wrapper |
| Dispatch.ServeHTTP | dispatch.go:350-474 | the order of all tables, with or without hooks and global middleware |
| Dispatch.ServePooled | dispatch.go:346-400 | the same order of tables with a pooled context, whatever it was left with |
| Dispatch.DirectPicksTheOne | dispatch.go:482-530 | the one matching route is picked if the direct tables hold it, otherwise the multiplexer decides |
| Dispatch.ChainedPicksTheOne | dispatch.go:402-474 | so it is in the chained order, whether the native tables are filled or not |
| Dispatch.ServesTheOne | dispatch.go:350-474 | whichever way a request takes, the one matching route serves it under its own pattern and parameters, behind global, group and route middleware in that order, if the tables of that way hold it; otherwise the multiplexer decides |
| Dispatch.ServesTheOneByMux | dispatch.go:350-530 | with a multiplexer that names a matching route, that route serves on every way, under its pattern and middleware |
| DispatchOverlap.ExactIffRoute | dispatch.go:482-510 | an exact table answers a request if and only if it holds a route that matches |
| DispatchOverlap.DynamicIffRoute | dispatch.go:482-510 | so does a table of patterns |
| DispatchOverlap.HooksChangeNothingIff | dispatch.go:350-530 | for all routes registered once each: a hook leaves the route that serves, its pattern and its middleware as they are if and only if there is no static application route under a dynamic group route, no dynamic application route beside group routes without a native match, and no multiplexer answer, alone on the direct way, with another service than the route that the group tables find |
| DispatchOverlap.RegisteredMuxBesideGroup | dispatch.go:482-530 | for a multiplexer that names a route of the method, the last of these is that it names another route than the group tables find |
| DispatchOverlap.ParametersMoveIff | dispatch.go:402-530 | where a hook leaves the route as it is, it moves the parameters if and only if the multiplexer alone finds the route directly and the group tables find one with parameters |
| DispatchOverlap.StaticLosesToGroup | dispatch.go:402-510 | every static application route under a dynamic group route: the one serves without hooks, the other with them |
| DispatchOverlap.MuxLosesToGroup | dispatch.go:402-530 | every static application route with middleware of its own under a dynamic group route that is not native: the multiplexer's route serves without hooks, the group's with them |
| DispatchOverlap.UsersMe | dispatch.go:402-510 | /users/me on the application and /users/{id} in a group without middleware |
| SchemaBuilder.Builder.AssignName | plugins/openapi/schema.go:262-295 | the search ends and returns the first free candidate |
| SchemaBuilder.Builder.BuildSchema | plugins/openapi/schema.go:162-234 | the in-place builder computes the recursion over its maps, whenever that ends |
| SchemaBuilder.Builder.ComponentRef | plugins/openapi/schema.go:240-253 | a placeholder is staked out before the fields are walked and completed after |
| SchemaBuilder.Builder.WalkFields | plugins/openapi/schema.go:326-365 | fields in order, embedded structs flattened, a later property of a name winning, the names of needed fields collected and sorted |
| SchemaBuilder.SortStrings | plugins/openapi/schema.go:593-599 | the insertion sort leaves the sorted list of the names in the slice |
| SchemaProperties.SchemaExtends | plugins/openapi/schema.go:162-253 | a nested build changes no component, finished or not, and adds finished ones only |
| SchemaProperties.SchemaIsMeant | plugins/openapi/schema.go:162-253 | the emitted schema is what the type denotes under the final names, independent of state and order |
| SchemaProperties.DocumentIsSound | plugins/openapi/schema.go:162-295 | every component is finished and is what its type denotes, every reference resolves, and distinct types have distinct components |
| SchemaProperties.ComponentsAreFinal | plugins/openapi/schema.go:240-253 | later roots change no component |
| SchemaRequired.RequiredIsExact | plugins/openapi/schema.go:326-365 | the required list is the sorted list of the names of the needed fields, those of embedded structs included, and the properties are exactly those of the visible fields |
| SchemaRequired.RequiredUniqueIff | plugins/openapi/schema.go:326-365 | no name is listed twice if and only if no two needed fields share their name |
| SchemaRequired.ComponentsListNeeded | plugins/openapi/schema.go:240-365 | both hold of every component of every finished document |
| SchemaRequired.ShadowedIsListedTwice | plugins/openapi/schema.go:326-365 | a field that shadows one of an embedded struct is one property and is listed twice |
| SchemaTermination.EndsIffNoInlineCycle | plugins/openapi/schema.go:162-365 | schemas can be built for all types if and only if no cycle is walked without a reference to a named struct |
| SchemaTermination.DocumentEnds | plugins/openapi/schema.go:162-365 | then a document can be built from any roots in any order |
| SchemaTermination.EmbeddingNeverEnds | plugins/openapi/schema.go:340-343 | a graph whose only cycle goes through a named struct and for which building never ends |
| EventStream.Format | sse.go:59-96 | prints the event, or fails exactly when name or identifier holds a line break |
| EventStream.Writer.Send | sse.go:102-124 | appends one event unless closed, cancelled or invalid |
| EventStream.Writer.Comment | sse.go:131-156 | appends one comment unless closed or cancelled |
| EventStream.RunSession | sse.go:102-184 | a session of sends, comments and closing writes what was sent before it was closed, without cancelled and invalid ones |
| EventStream.RoundTrip | sse.go:59-156 | parsing all that was written yields exactly the sent events in order if and only if no data holds a carriage return and no identifier a NUL |
| EventStream.SessionRoundTrip | sse.go:59-156 | and every session is read back so under the same condition |
| CertReload.NewCertReloader | cert_reload.go:73-116 | fails exactly when a file is missing or the pair does not load, and serves a pair not older than the recorded signatures |
| CertReload.Reloader.ReloadOnce | cert_reload.go:218-257 | does one reload with the versions that its accesses find; with files replaced between any two of them the served pair is never older than the recorded signatures, and a failure changes nothing |
| CertReload.RunsKeepInv | cert_reload.go:126-216 | in every interleaving one poller at most, every channel closed at most once, and what is served never goes back |
| CertReload.NoChangeIsLost | cert_reload.go:92-116 | when recorded and on-disk signatures agree, the pair on disk is the one served |
| CertReload.UndisturbedReload | cert_reload.go:218-257 | an undisturbed reload serves a loadable pair exactly if it was served before or its signatures tell, and leaves all as it is for one that does not load |
| CertReload.ReloadIsReloaded | cert_reload.go:218-257 | in every interleaving the steps of the goroutine from a tick to its next wait come to one such reload, whatever the other threads do between them |
| CertReload.NothingChangesAfterStop | cert_reload.go:156-176 | after a Stop has returned on a started reloader nothing is served or recorded anew, and it never runs again |
| Compress.Writer.Write | plugins/compress/compress.go:111-157 | keeps all fields and the client's side equal to functions of the calls so far |
| Compress.Writer.Finish | plugins/compress/compress.go:160-177 | the client has one status, the headers of its time and one body, as the calls mean |
| Compress.CompressedIffReached | plugins/compress/compress.go:121-150 | compressed if and only if some write reaches the threshold before any write sees an excluded type |
| Compress.BodyArrives | plugins/compress/compress.go:111-177 | a body that reaches the threshold decodes to the written bytes and carries the writer's mark alone, even over a mark of the handler's own; any other goes out under the handler's headers, with the bytes buffered before an excluded type last |
| Compress.MarkedIffReached | plugins/compress/compress.go:121-150 | if the handler sets no encoding itself, the mark is there exactly for compressed bodies |
| Compress.InOrderIffCommute | plugins/compress/compress.go:111-177 | the client gets the written bytes in order if and only if those buffered before the first write that sees an excluded type may change places with the rest |
| Compress.CommuteIffPowers | plugins/compress/compress.go:160-177 | which is so exactly when both repeat one and the same text |
| Compress.LateTypeReorders | plugins/compress/compress.go:121-177 | a run of three calls in which the buffered bytes come last |

## Left out

- At-most-once execution in the Redis idempotency store: lock and response are separate keys there, so it does not hold; only its wait handshake is modelled.
- Store and transport errors, pub/sub failures, panics inside the stores, and clocks that differ between Redis and its clients.
- Skippers, observers, log output and metrics; what error handlers write is a parameter, and what a recovery middleware writes after a panic is not modelled.
- Header names set by writing to the header map directly in a non-canonical form.
- Unicode case mapping of the method: only ASCII letters are upper-cased, which is all that valid methods hold.
- TokenBucket.Entry.Decide: rounding of floating-point numbers is not modelled, tokens are reals; the same holds for the script.
- The sliding-window rate limiter, which is a separate algorithm without the whole-run property of the bucket.
- IdempotencyHandler.Handle: safe methods, missing keys, skipped paths and the capped read of the body to be hashed come before it and are not modelled; the hash is a parameter, and what waiting yields comes from the surroundings.
- IdempotencyHandler.HandleConflict: what the wait yields is given, and errors of the store are not modelled.
- HmacAuth.Sign: header names are the defaults, and the request object's body readers are represented by what they yield.
- HmacAuth.AcceptedIsWhatWasSigned: the client identifier is not signed and is not covered.
- DirectPattern.Match: a pattern with more than 16 parameters panics in the program and is excluded by the requires clause.
- Dispatch.ServeHTTP: trailing-slash redirects, hooks that answer a request themselves, 404 and 405 handling, mounted handlers and context pooling; the standard multiplexer is an oracle that names a registered route or none.
- RouteTables.Declare: nested groups are a list of declarations instead of callbacks, so a callback that keeps a parent group and uses it later is not modelled.
- SchemaBuilder.Builder.BuildSchema: the constraints that validation tags put on a property, other than that it is required, the sanitising of package paths and the JSON output are not modelled; the requires clause says that the recursion ends for the given type, and SchemaTermination says for which graphs it does.
- EventStream.Writer.Send: partial writes of the connection below, and decoding of the stream as UTF-8 before it is parsed.
- CertReload.Reloader.ReloadOnce: certificates are version numbers; parsing them is a parameter.
- Compress.Writer.Write: the encoder is a function of the whole body, so flushing inside it, its errors and the choice of encoding from the request headers are not modelled.
- Cookies, tokens, CORS, problem documents, codecs, listeners and the other plugins, which are single checks or thin wrappers.
