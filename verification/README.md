# Global XML-RPC client and multi-server call: a Dafny model

This project models `xmlrpc-c/src/xmlrpc_client_global.c` of a modified
xmlrpc-c client library. That file keeps one process-wide client behind a
flag, guards every call entry point with a check that the client exists, and
adds `xmlrpc_client_call`, which sends one RPC to several servers at once from
one thread per server and waits until a shared counter reaches a threshold.

The model has five modules:

- `ClientTypes` (`client_types.dfy`): the faults an `xmlrpc_env` can carry
  (`AlreadyCreated`, `NotCreated`, and `Library(code)` for faults raised by
  routines outside the model), outcomes of those routines, and opaque handles.
- `Lifecycle` (`lifecycle.dfy`): the state `globalClientExists`, whether the
  global constants are set up, and `globalClientP`. Its transitions are
  `xmlrpc_client_init2`, `xmlrpc_client_init` and `xmlrpc_client_cleanup`, and
  `ValidateExists` is the guard `validateGlobalClientExists`. The outcomes of
  `xmlrpc_client_setup_global_const` and `xmlrpc_client_create` are parameters,
  so every success/failure combination is covered.
- `EntryPoints` (`entry_points.dfy`): the single-server synchronous and
  asynchronous entry points. Each one is a pure function that returns the
  sequence of calls it makes into the library or into the caller's response
  handler. The results of those library calls are parameters.
- `ArgFormat` (`arg_format.dfy`): the rewrite of the argument format string.
  It drops the server-URL slots and keeps an opening parenthesis. The model
  also shows how many bytes the rewrite writes into its `strlen(format)`-byte
  buffer.
- `FanOut` (`fan_out.dfy`): the counter and threshold of `xmlrpc_client_call`,
  modelled sequentially. A schedule (`seq<Event>`) lists, in order, worker
  completions (`Done(w)`) and the caller's checks of the counter (`Poll`). A
  well-formed schedule completes only spawned workers, each at most once.
  `Wait` is the polling loop. `Call` is the whole function as written, and
  `CallCorrected` returns the guard fault instead of waiting forever.

The example client describes its one argument as "the number of servers to
wait for responses from before returning", chosen among the tokens ANY,
MAJORITY and ALL (`xmlrpc-c/examples/xmlrpc_synch2_multi_client.c:46-58`).
The library code does not do that, and the model follows the code:

- The threshold is always `server_num` (line 184). No wait policy is ever
  turned into a threshold, so `Call` waits for every spawned worker.
- The example client passes its `wait_type` in the `server_num` position and
  the server count as the first variadic argument
  (`xmlrpc-c/examples/xmlrpc_synch2_multi_client.c:78`). So the policy reaches
  the library only as a server count.

`Call` requires `server_num >= 1`. The function declares arrays of
`server_num` elements. `ArgFormat.RewriteFitsBufferIff` also proves that with
no server slot the rewritten format overflows its buffer by one byte.

## Model

| member | source | states |
|---|---|---|
| Lifecycle.Init2 | xmlrpc-c/src/xmlrpc_client_global.c:25-54 | If the client already exists: fault "already created", and state and client pointer unchanged. Otherwise the flag becomes true exactly when constant setup and client creation both succeed. No fault is left exactly when that happens. A failed setup leaves the state as it was. A failed creation tears the constants down and reports its own fault. |
| Lifecycle.Init | xmlrpc-c/src/xmlrpc_client_global.c:58-80 | The silent initializer: after it, a client exists exactly when one already existed or setup and creation both succeeded. It never changes an existing client. |
| Lifecycle.Cleanup | xmlrpc-c/src/xmlrpc_client_global.c:84-97 | Callable only while the client exists (the source asserts it). Afterwards the flag is false, the constants are torn down, and the pointer is left as it was. |
| Lifecycle.ValidateExists | xmlrpc-c/src/xmlrpc_client_global.c:101-109 | Faults exactly when no global client exists, and the fault is "has not been created". |
| Lifecycle.Init2KeepsValid | xmlrpc-c/src/xmlrpc_client_global.c:35-53 | init2 preserves the invariant for every setup and creation outcome: constants set up exactly while the flag is true, and a true flag never goes with a null client. |
| Lifecycle.CleanupKeepsValid | xmlrpc-c/src/xmlrpc_client_global.c:89-96 | cleanup preserves the same invariant. |
| Lifecycle.RunKeepsValid | xmlrpc-c/src/xmlrpc_client_global.c:21-97 | Any sequence of init2/cleanup calls that does not trip cleanup's assertion keeps that invariant from program start. |
| Lifecycle.CleanupAllowsReinit | xmlrpc-c/src/xmlrpc_client_global.c:89-96 | After cleanup, an init2 whose setup and creation succeed creates the new client with no fault. |
| Lifecycle.SecondInit2Faults | xmlrpc-c/src/xmlrpc_client_global.c:35-40 | A second init2 after a successful one faults "already created" and keeps the first client, whatever the outcomes of setup and creation. |
| Lifecycle.FailedInit2ChangesNothing | xmlrpc-c/src/xmlrpc_client_global.c:43-52 | From a valid state with no client, a failed init2 leaves the flag, the constants and the pointer as they were. |
| EntryPoints.TransportCall | xmlrpc-c/src/xmlrpc_client_global.c:113-126 | Without a client: the "not created" fault, no value and no transport call. With one: exactly one transport call. Its failure is the only fault, and its answer is returned. |
| EntryPoints.CallServer | xmlrpc-c/src/xmlrpc_client_global.c:235-256 | The same guard contract. With a client, exactly one `call_server2_va` to the given server, and its fault or answer is passed on. |
| EntryPoints.CallServerParams | xmlrpc-c/src/xmlrpc_client_global.c:260-277 | The same guard contract. With a client, exactly one `call2` to the given server, and its fault or answer is passed on. |
| EntryPoints.CallParams | xmlrpc-c/src/xmlrpc_client_global.c:281-305 | The same guard contract. `call2` is made exactly when the client exists and the server description could be built. That description is freed after the call. When the call is made, its fault is the only fault and its answer is the returned value. If building the description fails, that fault is reported and nothing else is called. |
| EntryPoints.CallServerAsynchParams | xmlrpc-c/src/xmlrpc_client_global.c:309-340 | Calls the response handler exactly once, with a NULL result, when the client is missing or the RPC start fails. Calls it zero times when the RPC was started. Starts the RPC exactly when the client exists. |
| EntryPoints.CallAsynchParams | xmlrpc-c/src/xmlrpc_client_global.c:399-422 | Calls the handler exactly once, with a NULL result, when building the server description, the guard or the start fails. Calls it zero times otherwise. The RPC is started exactly when the client exists and the description was built, and a built description is freed last. |
| ArgFormat.RewriteFormat | xmlrpc-c/src/xmlrpc_client_global.c:175-177 | The rewritten format opens with "(" and is `server_num` characters shorter than the original. |
| ArgFormat.RewriteFitsBufferIff | xmlrpc-c/src/xmlrpc_client_global.c:175-177 | The rewrite plus its terminator fits the `strlen(format)`-byte buffer if and only if `server_num >= 1`. With zero slots it needs one byte more. |
| ArgFormat.RewriteDropsServerSlots | xmlrpc-c/src/xmlrpc_client_global.c:175-177 | A format made of an opening character, `n` server slots and an argument part is rewritten to "(" followed by just the argument part. |
| ArgFormat.RewriteRoundTrip | xmlrpc-c/src/xmlrpc_client_global.c:354-356 | Putting the dropped opening character and slots back in front of the rewrite's argument part rebuilds the original format. |
| ArgFormat.ExampleFormat | xmlrpc-c/examples/xmlrpc_synch2_multi_client.c:78 | The example passes its wait-policy value `w` as `server_num` with the format "(sssii)". For `w` from 0 to 3 the rewrite is "(" followed by the last `3 - w` server slots and "ii)". So any `w` below 3 leaves a server slot in the argument format, and `w = 0` writes 8 bytes into the 7-byte buffer. Only `server_num = 3` would give "(ii)". The numeric values of the policy enumeration are defined in a header that is not part of this model. |
| FanOut.CounterCountsWorkers | xmlrpc-c/src/xmlrpc_client_global.c:157-159 | Each completion adds exactly one. On a well-formed schedule the counter therefore equals the number of distinct workers that completed, and all of them were spawned. |
| FanOut.CounterBounded | xmlrpc-c/src/xmlrpc_client_global.c:157-159 | On a well-formed schedule the counter never exceeds the number of spawned workers. |
| FanOut.CounterReachesSpawnedIff | xmlrpc-c/src/xmlrpc_client_global.c:184-226 | The counter equals the number of spawned workers if and only if every spawned worker has completed. |
| FanOut.NoWorkersNoIncrements | xmlrpc-c/src/xmlrpc_client_global.c:189-214 | When no worker was spawned, the counter stays 0 on every schedule. |
| FanOut.Wait | xmlrpc-c/src/xmlrpc_client_global.c:223-226 | The loop returns at the first poll that sees the counter at or above the threshold, and the counter it returns is the number of increments so far. While it waits, every poll saw the counter below the threshold. |
| FanOut.Call | xmlrpc-c/src/xmlrpc_client_global.c:164-232 | Rewrites the format and sets the threshold to `server_num`. With a client: one worker per server, and the call returns only once every worker has completed, with the counter at exactly `server_num`. It never waits past a poll that sees all workers done. Without a client: the "not created" fault, no worker, and the call never returns on any schedule. |
| FanOut.CallCorrected | xmlrpc-c/src/xmlrpc_client_global.c:179-226 | Rewrites the format and sets the threshold to `server_num`, as `Call` does. Without a client it returns the "not created" fault at once, with no worker and no wait. With a client it spawns one worker per server and enters the wait. It returns only once every worker has completed, with the counter at `server_num`, and it never waits past a poll that sees all workers done. |

## Left out

- Threads, the mutex, and the `sleep(1)` polling are left out. Workers are a schedule of completions. Each completion adds one to the counter atomically, which is what the mutex ensures.
- The value `xmlrpc_client_call` returns is left out. Every worker writes `resultP` with no synchronisation (last writer wins), so it is not modelled. `CallRun` records the guard's fault, the format, the threshold, the workers and the state of the wait.
- The shared `rpc_args` record is left out. Its `serverUrl` is overwritten while threads start, so a worker may call another worker's server. `CallRun.workers` lists the servers the loop intends to spawn workers for.
- Workers write their faults into the caller's env concurrently. This is not modelled.
- The RPC, XML and HTTP routines are left out: `xmlrpc_client_call2f_va`, `xmlrpc_client_call2`, `xmlrpc_client_call_server2_va`, `xmlrpc_client_transport_call2`, `xmlrpc_client_start_rpc`, `xmlrpc_server_info_new/free`, `xmlrpc_client_setup_global_const`, `xmlrpc_client_create` and `xmlrpc_client_destroy`. They are library code not in this file. Only their success or failure enters the model, as parameters.
- Variadic argument marshalling (`va_list`) is left out. The server URLs are a `seq<Url>` of length `server_num`. The method's own arguments are not modelled.
- `xmlrpc_client_call_asynch` is left out. Its call to `xmlrpc_client_start_multi_rpcf_va` has stray commas and does not compile, and the multi-RPC engine it uses is not in this file. Its format rewrite is the one in `ArgFormat`.
- `xmlrpc_client_call_server_asynch` is left out. It tests `env.fault_occurred` before `xmlrpc_env_init`, which is undefined behaviour rather than a contract.
- `xmlrpc_client_event_loop_finish_asynch` and its timeout variant are left out. They only assert that the client exists and call event-loop routines that are not in this file.
- The example client program is left out, apart from its format string in `ArgFormat.ExampleFormat`. It compares command-line tokens, prints and exits.
- Thresholds derived from a wait policy (any, majority, all) are left out. The code never computes them.
- FanOut.Call: `server_num = 0` is excluded, as it is for `FanOut.CallCorrected`. The source then declares zero-length arrays (`xmlrpc-c/src/xmlrpc_client_global.c:172-173`), which is undefined behaviour in C. It also writes one byte past `arg_format` (lines 175-177, proved by `ArgFormat.RewriteFitsBufferIff`).
- Lifecycle.Init2: the global constants are a boolean. The reference count that the library keeps behind `xmlrpc_client_setup_global_const` is not part of this model.

## Findings

| source | as written | input that shows it | evidently intended | confidence | as-written member | corrected member |
|---|---|---|---|---|---|---|
| xmlrpc-c/src/xmlrpc_client_global.c:179-226 | When the guard faults, no worker is spawned, but the wait loop still runs until the counter reaches `server_num`. | No global client and `server_num = 1`: the counter stays 0, so the call never returns, on any schedule. | Return the "not created" fault at once, as every other guarded entry point does. | high; not executed | FanOut.Call | FanOut.CallCorrected |
