/** The process-wide client of xmlrpc_client_global.c: a flag saying whether
    the global client exists, whether the global constants are set up, and
    the global client pointer, with the transitions `xmlrpc_client_init2`,
    `xmlrpc_client_init` and `xmlrpc_client_cleanup` and the guard every
    call entry point runs first. */
module Lifecycle {
  import opened ClientTypes

  /** `clientExists` is `globalClientExists`, `client` is `globalClientP`
      (left dangling by cleanup, as in the source). */
  datatype GlobalState = GlobalState(clientExists: bool, constsReady: bool, client: Client)

  /** Program start: the flag is false and nothing is set up. */
  const Initial := GlobalState(false, false, Null)

  /** The consistency every reachable state keeps: the constants are set up
      exactly while the client exists, and an existing client is a real one. */
  predicate Valid(s: GlobalState) {
    && s.constsReady == s.clientExists
    && (s.clientExists ==> s.client.Handle?)
  }

  /** The outcome of `xmlrpc_client_create`, which is outside the model. */
  datatype Creation = Created(id: nat) | CreateFailed(code: int)

  /** A transition's new state together with the fault left in the caller's env. */
  datatype Step = Step(state: GlobalState, fault: Option<Fault>)

  /** `xmlrpc_client_init2`, with the results of `xmlrpc_client_setup_global_const`
      (`setup`) and `xmlrpc_client_create` (`create`) given as parameters. */
  function Init2(s: GlobalState, setup: Outcome, create: Creation): (r: Step)
    ensures s.clientExists ==> r.state == s && r.fault == Some(AlreadyCreated)
    ensures !s.clientExists ==> (r.state.clientExists <==> setup.Pass? && create.Created?)
    ensures !s.clientExists ==> (r.fault.None? <==> r.state.clientExists)
    ensures !s.clientExists && setup.Fail? ==> r.state == s && r.fault == Some(Library(setup.code))
    ensures !s.clientExists && setup.Pass? && create.CreateFailed? ==>
              !r.state.clientExists && !r.state.constsReady && r.fault == Some(Library(create.code))
    ensures r.state.clientExists && !s.clientExists ==>
              r.state.constsReady && r.state.client == Handle(create.id)
  {
    if s.clientExists then
      Step(s, Some(AlreadyCreated))
    else
      match setup
      case Fail(code) => Step(s, Some(Library(code)))
      case Pass =>
        match create
        case Created(id) => Step(GlobalState(true, true, Handle(id)), None)
        // creation failed: the constants are torn down again
        case CreateFailed(code) => Step(GlobalState(false, false, s.client), Some(Library(code)))
  }

  /** `xmlrpc_client_init`: init2 with a private env whose fault is dropped. */
  function Init(s: GlobalState, setup: Outcome, create: Creation): (r: GlobalState)
    ensures r.clientExists <==> s.clientExists || (setup.Pass? && create.Created?)
    ensures s.clientExists ==> r == s
  {
    Init2(s, setup, create).state
  }

  /** `xmlrpc_client_cleanup`; the source asserts that the client exists. */
  function Cleanup(s: GlobalState): (r: GlobalState)
    requires s.clientExists
    ensures !r.clientExists && !r.constsReady
    ensures r.client == s.client
  {
    GlobalState(false, false, s.client)
  }

  /** `validateGlobalClientExists`: the fault it leaves in a clean env. */
  function ValidateExists(s: GlobalState): (f: Option<Fault>)
    ensures f.None? <==> s.clientExists
    ensures f.Some? ==> f.value == NotCreated
  {
    if s.clientExists then None else Some(NotCreated)
  }

  /** A lifecycle call made by the program. */
  datatype Op = DoInit2(setup: Outcome, create: Creation) | DoCleanup

  /** Runs a sequence of lifecycle calls; `None` when a cleanup hits the
      source's assertion that the client exists. */
  function Run(s: GlobalState, ops: seq<Op>): Option<GlobalState>
    decreases |ops|
  {
    if ops == [] then Some(s)
    else match ops[0]
      case DoInit2(setup, create) => Run(Init2(s, setup, create).state, ops[1..])
      case DoCleanup => if s.clientExists then Run(Cleanup(s), ops[1..]) else None
  }

  /** init2 keeps `Valid`, whatever setup and creation do. */
  lemma Init2KeepsValid(s: GlobalState, setup: Outcome, create: Creation)
    requires Valid(s)
    ensures Valid(Init2(s, setup, create).state)
  {
  }

  /** cleanup keeps `Valid`. */
  lemma CleanupKeepsValid(s: GlobalState)
    requires Valid(s) && s.clientExists
    ensures Valid(Cleanup(s))
  {
  }

  /** Every state reachable from program start is `Valid`: the flag and the
      constants move together and the flag never names a null client. */
  lemma {:induction false} RunKeepsValid(s: GlobalState, ops: seq<Op>)
    requires Valid(s)
    requires Run(s, ops).Some?
    ensures Valid(Run(s, ops).value)
    decreases |ops|
  {
    if ops != [] {
      match ops[0]
      case DoInit2(setup, create) =>
        Init2KeepsValid(s, setup, create);
        RunKeepsValid(Init2(s, setup, create).state, ops[1..]);
      case DoCleanup =>
        CleanupKeepsValid(s);
        RunKeepsValid(Cleanup(s), ops[1..]);
    }
  }

  /** After cleanup a later init2 can succeed again. */
  lemma CleanupAllowsReinit(s: GlobalState, id: nat)
    requires s.clientExists
    ensures Init2(Cleanup(s), Pass, Created(id)) == Step(GlobalState(true, true, Handle(id)), None)
  {
  }

  /** A second init2 without cleanup faults and keeps the first client. */
  lemma SecondInit2Faults(s: GlobalState, id: nat, setup: Outcome, create: Creation)
    requires !s.clientExists
    ensures var first := Init2(s, Pass, Created(id)).state;
            Init2(first, setup, create) == Step(first, Some(AlreadyCreated))
            && first.client == Handle(id)
  {
  }

  /** A failed init2 leaves the lifecycle exactly where it was in a valid state. */
  lemma FailedInit2ChangesNothing(s: GlobalState, setup: Outcome, create: Creation)
    requires Valid(s) && !s.clientExists
    requires Init2(s, setup, create).fault.Some?
    ensures Init2(s, setup, create).state.clientExists == s.clientExists
    ensures Init2(s, setup, create).state.constsReady == s.constsReady
    ensures Init2(s, setup, create).state.client == s.client
  {
  }
}
