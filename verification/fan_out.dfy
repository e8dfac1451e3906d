/** The fan-out of `xmlrpc_client_call`, abstracted sequentially. The call
    spawns one worker per server; each worker makes its RPC and then, under
    a mutex, adds one to a shared counter; the caller polls the counter
    until it reaches a threshold that is hard-coded to the number of
    servers. Threads are replaced by a schedule: the order in which worker
    completions and the caller's polls happen. */
module FanOut {
  import opened ClientTypes
  import opened Lifecycle
  import opened ArgFormat

  /** One step of an interleaving: the caller re-checks the counter
      (`Poll`), or worker `worker` finishes its critical section (`Done`). */
  datatype Event = Poll | Done(worker: nat)

  /** A schedule the spawned workers can produce: only spawned workers
      complete, and each completes at most once. */
  predicate WellFormed(schedule: seq<Event>, spawned: nat) {
    && (forall i :: 0 <= i < |schedule| && schedule[i].Done? ==> schedule[i].worker < spawned)
    && (forall i, j :: 0 <= i < j < |schedule| && schedule[i].Done? && schedule[j].Done? ==>
          schedule[i].worker != schedule[j].worker)
  }

  /** The number of increments the workers made during `events`. */
  function Increments(events: seq<Event>): nat
  {
    if events == [] then 0
    else Increments(events[..|events| - 1]) + (if events[|events| - 1].Done? then 1 else 0)
  }

  /** The workers that have completed during `events`. */
  function Completed(events: seq<Event>): set<nat>
  {
    if events == [] then {}
    else
      var last := events[|events| - 1];
      Completed(events[..|events| - 1]) + (if last.Done? then {last.worker} else {})
  }

  /** The identities `0 .. n - 1` of `n` spawned workers. */
  function WorkerIds(n: nat): (ids: set<nat>)
    ensures forall w: nat :: w in ids <==> w < n
    ensures |ids| == n
  {
    if n == 0 then {} else WorkerIds(n - 1) + {n - 1}
  }

  /** A proper subset is strictly smaller. */
  lemma {:induction false} ProperSubsetSmaller(a: set<nat>, b: set<nat>)
    requires a < b
    ensures |a| < |b|
  {
    var x :| x in b && x !in a;
    var rest := b - {x};
    assert a <= rest;
    SubsetNotLarger(a, rest);
  }

  lemma {:induction false} SubsetNotLarger(a: set<nat>, b: set<nat>)
    requires a <= b
    ensures |a| <= |b|
    decreases |b|
  {
    if a != {} {
      var x :| x in a;
      SubsetNotLarger(a - {x}, b - {x});
    }
  }

  lemma WellFormedPrefix(schedule: seq<Event>, spawned: nat, k: nat)
    requires WellFormed(schedule, spawned) && k <= |schedule|
    ensures WellFormed(schedule[..k], spawned)
  {
  }

  lemma {:induction false} CompletedHasWitness(events: seq<Event>, w: nat)
    requires w in Completed(events)
    ensures exists i :: 0 <= i < |events| && events[i] == Done(w)
    decreases |events|
  {
    var prefix := events[..|events| - 1];
    if w in Completed(prefix) {
      CompletedHasWitness(prefix, w);
      var i :| 0 <= i < |prefix| && prefix[i] == Done(w);
      assert events[i] == Done(w);
    } else {
      assert events[|events| - 1] == Done(w);
    }
  }

  /** Each completion adds exactly one to the counter, so on a well-formed
      schedule the counter is the number of distinct workers that completed,
      all of them spawned ones. */
  lemma {:induction false} CounterCountsWorkers(events: seq<Event>, spawned: nat)
    requires WellFormed(events, spawned)
    ensures Increments(events) == |Completed(events)|
    ensures Completed(events) <= WorkerIds(spawned)
    decreases |events|
  {
    if events != [] {
      var prefix := events[..|events| - 1];
      var last := events[|events| - 1];
      WellFormedPrefix(events, spawned, |events| - 1);
      CounterCountsWorkers(prefix, spawned);
      if last.Done? {
        if last.worker in Completed(prefix) {
          CompletedHasWitness(prefix, last.worker);
          assert false;
        }
      }
    }
  }

  /** The counter never exceeds the number of spawned workers. */
  lemma CounterBounded(events: seq<Event>, spawned: nat)
    requires WellFormed(events, spawned)
    ensures Increments(events) <= spawned
  {
    CounterCountsWorkers(events, spawned);
    SubsetNotLarger(Completed(events), WorkerIds(spawned));
  }

  /** The counter reaches the number of spawned workers exactly when every
      spawned worker has completed. */
  lemma CounterReachesSpawnedIff(events: seq<Event>, spawned: nat)
    requires WellFormed(events, spawned)
    ensures Increments(events) == spawned <==> Completed(events) == WorkerIds(spawned)
  {
    CounterCountsWorkers(events, spawned);
    if Completed(events) != WorkerIds(spawned) {
      ProperSubsetSmaller(Completed(events), WorkerIds(spawned));
    }
  }

  /** With no worker spawned the counter stays at zero. */
  lemma NoWorkersNoIncrements(events: seq<Event>)
    requires WellFormed(events, 0)
    ensures Increments(events) == 0
  {
    CounterBounded(events, 0);
  }

  /** Where the wait loop stands at the end of a schedule: it returned at
      the poll `at` seeing `counter`, or it is still waiting. */
  datatype WaitOutcome = Returned(at: nat, counter: int) | Waiting(counter: int)

  /** `while (return_counter < threshold) sleep(1);` against the schedule. */
  method Wait(threshold: int, schedule: seq<Event>) returns (w: WaitOutcome)
    ensures w.Returned? ==>
              && w.at < |schedule| && schedule[w.at] == Poll
              && w.counter == Increments(schedule[..w.at]) && w.counter >= threshold
    ensures w.Returned? ==>
              forall j :: 0 <= j < w.at && schedule[j] == Poll ==> Increments(schedule[..j]) < threshold
    ensures w.Waiting? ==>
              && w.counter == Increments(schedule)
              && forall j :: 0 <= j < |schedule| && schedule[j] == Poll ==> Increments(schedule[..j]) < threshold
  {
    var counter := 0;
    var i := 0;
    while i < |schedule|
      invariant 0 <= i <= |schedule|
      invariant counter == Increments(schedule[..i])
      invariant forall j :: 0 <= j < i && schedule[j] == Poll ==> Increments(schedule[..j]) < threshold
      decreases |schedule| - i
    {
      assert schedule[..i + 1][..i] == schedule[..i];
      if schedule[i].Done? {
        // the worker's locked `*counter = *counter + 1`
        counter := counter + 1;
      } else if counter >= threshold {
        return Returned(i, counter);
      }
      i := i + 1;
    }
    assert schedule[..i] == schedule;
    return Waiting(counter);
  }

  /** What `xmlrpc_client_call` did by the end of a schedule: the fault the
      client-exists guard left in the caller's env (faults the workers' RPCs
      write into the same env are not modelled), the rewritten argument format, the threshold, the
      servers a worker was spawned for, and the state of the wait (`None`
      when the call returns without waiting). */
  datatype CallRun = CallRun(
    fault: Option<Fault>,
    argFormat: string,
    threshold: int,
    workers: seq<Url>,
    wait: Option<WaitOutcome>)

  /** The call has returned to its caller. */
  predicate Returns(r: CallRun) {
    r.wait.None? || r.wait.value.Returned?
  }

  /** `xmlrpc_client_call` as written. `servers` are the URLs read from the
      variadic list; the source declares arrays of `serverNum` elements and
      points `serverNum + 1` characters into `format`. Workers can complete
      only if they were spawned, hence the requirement on `schedule`. */
  method Call(s: GlobalState, format: string, serverNum: int, servers: seq<Url>, schedule: seq<Event>)
    returns (r: CallRun)
    requires 1 <= serverNum < |format|
    requires |servers| == serverNum
    requires WellFormed(schedule, if s.clientExists then serverNum else 0)
    ensures r.argFormat == RewriteFormat(format, serverNum)
    ensures r.threshold == serverNum
    ensures r.fault.None? <==> s.clientExists
    ensures r.fault.Some? ==> r.fault.value == NotCreated && r.workers == [] && !Returns(r)
    ensures r.fault.None? ==> r.workers == servers
    ensures Returns(r) ==>
              && r.wait.Some?
              && r.wait.value.at < |schedule|
              && r.wait.value.counter == serverNum
              && Completed(schedule[..r.wait.value.at]) == WorkerIds(|r.workers|)
    ensures r.fault.None? && !Returns(r) ==>
              forall j :: 0 <= j < |schedule| && schedule[j] == Poll ==>
                Completed(schedule[..j]) != WorkerIds(serverNum)
  {
    var argFormat := RewriteFormat(format, serverNum);
    var fault := ValidateExists(s);
    var threshold := serverNum;
    var workers: seq<Url> := if fault.None? then servers else [];
    var w := Wait(threshold, schedule);
    if w.Returned? {
      WellFormedPrefix(schedule, |workers|, w.at);
      CounterBounded(schedule[..w.at], |workers|);
      CounterReachesSpawnedIff(schedule[..w.at], |workers|);
    } else {
      forall j | 0 <= j < |schedule| && schedule[j] == Poll
        ensures fault.None? ==> Completed(schedule[..j]) != WorkerIds(serverNum)
      {
        WellFormedPrefix(schedule, |workers|, j);
        CounterBounded(schedule[..j], |workers|);
        CounterReachesSpawnedIff(schedule[..j], |workers|);
      }
    }
    r := CallRun(fault, argFormat, threshold, workers, Some(w));
  }

  /** `xmlrpc_client_call` with the guard fault returned at once instead of
      entering the wait loop; otherwise identical to `Call`. */
  method CallCorrected(s: GlobalState, format: string, serverNum: int, servers: seq<Url>, schedule: seq<Event>)
    returns (r: CallRun)
    requires 1 <= serverNum < |format|
    requires |servers| == serverNum
    requires WellFormed(schedule, if s.clientExists then serverNum else 0)
    ensures r.argFormat == RewriteFormat(format, serverNum)
    ensures r.threshold == serverNum
    ensures r.fault.None? <==> s.clientExists
    ensures r.fault.Some? ==> r.fault.value == NotCreated && r.workers == [] && Returns(r) && r.wait.None?
    ensures r.fault.None? ==> r.workers == servers && r.wait.Some?
    ensures r.wait.Some? && r.wait.value.Returned? ==>
              && r.wait.value.at < |schedule|
              && r.wait.value.counter == serverNum
              && Completed(schedule[..r.wait.value.at]) == WorkerIds(serverNum)
    ensures r.fault.None? && !Returns(r) ==>
              forall j :: 0 <= j < |schedule| && schedule[j] == Poll ==>
                Completed(schedule[..j]) != WorkerIds(serverNum)
  {
    if !s.clientExists {
      return CallRun(Some(NotCreated), RewriteFormat(format, serverNum), serverNum, [], None);
    }
    r := Call(s, format, serverNum, servers, schedule);
  }
}
