/** The single-server entry points of xmlrpc_client_global.c. Each is a pure
    function of the global state and of the outcomes of the library routines
    it calls; what it does to the outside world is the sequence of `Effect`s
    it performs, in order. */
module EntryPoints {
  import opened ClientTypes
  import opened Lifecycle

  /** A server description made by `xmlrpc_server_info_new`. */
  datatype ServerInfo = ServerInfo(url: Url)

  /** One call out of this file: into the client library, or into the
      caller's response handler. */
  datatype Effect =
    | TransportCall2(server: Url)                 // xmlrpc_client_transport_call2
    | CallServer2(server: Url, methodName: string)    // xmlrpc_client_call_server2_va
    | Call2(server: Url, methodName: string)          // xmlrpc_client_call2
    | ServerInfoNew(url: Url)
    | ServerInfoFree(url: Url)
    | StartRpc(server: Url, methodName: string)       // xmlrpc_client_start_rpc
    | Handler(server: Url, methodName: string, fault: Fault, result: Option<Value>)

  /** What a synchronous entry point leaves behind: the fault in the
      caller's env, the returned value (`None` where the source returns an
      unset pointer) and the calls it made. */
  datatype SyncResult = SyncResult(fault: Option<Fault>, result: Option<Value>, effects: seq<Effect>)

  /** The guard's promise: without a client the caller gets the
      "has not been created" fault and nothing is called; with one, that
      fault never appears and the call goes out. */
  predicate Guarded(s: GlobalState, r: SyncResult) {
    && (!s.clientExists ==> r.fault == Some(NotCreated) && r.effects == [] && r.result.None?)
    && (s.clientExists ==> r.fault != Some(NotCreated) && r.effects != [])
  }

  /** The fault and value a blocking library call hands back. */
  function Complete(rpc: RpcOutcome, effects: seq<Effect>): SyncResult {
    match rpc
    case Answer(v) => SyncResult(None, Some(v), effects)
    case RpcFault(code) => SyncResult(Some(Library(code)), None, effects)
  }

  /** `xmlrpc_client_transport_call`. */
  function TransportCall(s: GlobalState, server: ServerInfo, response: RpcOutcome): (r: SyncResult)
    ensures Guarded(s, r)
    ensures s.clientExists ==> r.effects == [TransportCall2(server.url)]
    ensures s.clientExists ==> (r.fault.None? <==> response.Answer?)
    ensures s.clientExists && response.Answer? ==> r.result == Some(response.value)
  {
    match ValidateExists(s)
    case Some(f) => SyncResult(Some(f), None, [])
    case None => Complete(response, [TransportCall2(server.url)])
  }

  /** `xmlrpc_client_call_server`. */
  function CallServer(s: GlobalState, server: ServerInfo, methodName: string, rpc: RpcOutcome): (r: SyncResult)
    ensures Guarded(s, r)
    ensures s.clientExists ==> r.effects == [CallServer2(server.url, methodName)]
    ensures s.clientExists ==> (r.fault.None? <==> rpc.Answer?)
    ensures s.clientExists && rpc.Answer? ==> r.result == Some(rpc.value)
  {
    match ValidateExists(s)
    case Some(f) => SyncResult(Some(f), None, [])
    case None => Complete(rpc, [CallServer2(server.url, methodName)])
  }

  /** `xmlrpc_client_call_server_params`. */
  function CallServerParams(s: GlobalState, server: ServerInfo, methodName: string, rpc: RpcOutcome): (r: SyncResult)
    ensures Guarded(s, r)
    ensures s.clientExists ==> r.effects == [Call2(server.url, methodName)]
    ensures s.clientExists ==> (r.fault.None? <==> rpc.Answer?)
    ensures s.clientExists && rpc.Answer? ==> r.result == Some(rpc.value)
  {
    match ValidateExists(s)
    case Some(f) => SyncResult(Some(f), None, [])
    case None => Complete(rpc, [Call2(server.url, methodName)])
  }

  /** `xmlrpc_client_call_params`: builds a server description first, and
      makes the call only when that succeeds; the description is freed. */
  function CallParams(s: GlobalState, url: Url, methodName: string, info: Outcome, rpc: RpcOutcome): (r: SyncResult)
    ensures Guarded(s, r)
    ensures Call2(url, methodName) in r.effects <==> s.clientExists && info.Pass?
    ensures s.clientExists && info.Fail? ==> r == SyncResult(Some(Library(info.code)), None, [ServerInfoNew(url)])
    ensures s.clientExists && info.Pass? ==>
              r.effects == [ServerInfoNew(url), Call2(url, methodName), ServerInfoFree(url)]
              && (r.fault.None? <==> rpc.Answer?)
              && (rpc.Answer? ==> r.result == Some(rpc.value))
  {
    match ValidateExists(s)
    case Some(f) => SyncResult(Some(f), None, [])
    case None =>
      match info
      case Fail(code) => SyncResult(Some(Library(code)), None, [ServerInfoNew(url)])
      case Pass => Complete(rpc, [ServerInfoNew(url), Call2(url, methodName), ServerInfoFree(url)])
  }

  /** How many times the response handler is invoked. */
  function HandlerCalls(effects: seq<Effect>): nat
  {
    if effects == [] then 0
    else (if effects[0].Handler? then 1 else 0) + HandlerCalls(effects[1..])
  }

  /** Every handler invocation in the trace carries a NULL result. */
  predicate NullResults(effects: seq<Effect>) {
    forall i :: 0 <= i < |effects| && effects[i].Handler? ==> effects[i].result.None?
  }

  lemma {:induction false} HandlerCallsAppend(a: seq<Effect>, b: seq<Effect>)
    ensures HandlerCalls(a + b) == HandlerCalls(a) + HandlerCalls(b)
    decreases |a|
  {
    if a != [] {
      assert (a + b)[1..] == a[1..] + b;
      HandlerCallsAppend(a[1..], b);
    } else {
      assert a + b == b;
    }
  }

  /** `xmlrpc_client_call_server_asynch_params`. A started RPC reports to the
      handler later through the library's event loop; this function invokes
      the handler itself only when the guard or the start fails, and then
      exactly once, with a NULL result. */
  function CallServerAsynchParams(s: GlobalState, server: ServerInfo, methodName: string, start: Outcome): (r: seq<Effect>)
    ensures HandlerCalls(r) == (if s.clientExists && start.Pass? then 0 else 1)
    ensures NullResults(r)
    ensures StartRpc(server.url, methodName) in r <==> s.clientExists
    ensures !s.clientExists ==> r == [Handler(server.url, methodName, NotCreated, None)]
    ensures s.clientExists && start.Fail? ==> r[|r| - 1] == Handler(server.url, methodName, Library(start.code), None)
  {
    match ValidateExists(s)
    case Some(f) => [Handler(server.url, methodName, f, None)]
    case None =>
      match start
      case Pass => [StartRpc(server.url, methodName)]
      case Fail(code) =>
        var handler := Handler(server.url, methodName, Library(code), None);
        HandlerCallsAppend([StartRpc(server.url, methodName)], [handler]);
        [StartRpc(server.url, methodName)] + [handler]
  }

  /** The library goes on to handle the RPC only when the client exists and
      every setup step of `xmlrpc_client_call_asynch_params` succeeds. */
  predicate AsynchStarts(s: GlobalState, info: Outcome, start: Outcome) {
    s.clientExists && info.Pass? && start.Pass?
  }

  /** `xmlrpc_client_call_asynch_params`: the handler runs exactly once
      (with a NULL result) when any setup step fails, and not at all when
      the RPC was handed to the library. */
  function CallAsynchParams(s: GlobalState, url: Url, methodName: string, info: Outcome, start: Outcome): (r: seq<Effect>)
    ensures HandlerCalls(r) == (if AsynchStarts(s, info, start) then 0 else 1)
    ensures NullResults(r)
    ensures StartRpc(url, methodName) in r <==> s.clientExists && info.Pass?
    ensures info.Pass? ==> r[|r| - 1] == ServerInfoFree(url)
  {
    match info
    case Fail(code) => [ServerInfoNew(url), Handler(url, methodName, Library(code), None)]
    case Pass =>
      var inner := CallServerAsynchParams(s, ServerInfo(url), methodName, start);
      HandlerCallsAppend([ServerInfoNew(url)], inner);
      HandlerCallsAppend([ServerInfoNew(url)] + inner, [ServerInfoFree(url)]);
      [ServerInfoNew(url)] + inner + [ServerInfoFree(url)]
  }
}
