/** Values shared by every part of the model of xmlrpc-c's global client:
    the faults an `xmlrpc_env` can carry, the outcomes of library routines
    that lie outside the model, and opaque handles for clients and results. */
module ClientTypes {

  datatype Option<+T> = None | Some(value: T)

  /** A fault recorded in an `xmlrpc_env`. The two faults raised by the
      global-client guards are told apart; every fault raised inside a
      library routine that is not part of this model is `Library(code)`. */
  datatype Fault =
    | AlreadyCreated      // the global client exists; cleanup must come first
    | NotCreated          // the global client has not been created by init2
    | Library(code: int)  // raised by a routine outside the model

  /** The outcome of an external routine that either succeeds or faults. */
  datatype Outcome = Pass | Fail(code: int)

  /** A client pointer: `Null` before any client was created. */
  datatype Client = Null | Handle(id: nat)

  /** An opaque XML-RPC value (a result or a response document). */
  datatype Value = Value(id: nat)

  /** What a blocking RPC primitive outside the model produced. */
  datatype RpcOutcome = Answer(value: Value) | RpcFault(code: int)

  type Url = string
}
