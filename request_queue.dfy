/**
 * The outbound request queue of callisto-util-request: one request at a time,
 * each retried a bounded number of times.
 *
 * The module-level state of the source (`queueOrder`, `queuedRequests`,
 * `readyRequests`, `performingRequest`) is the class `Queue`. The two timers
 * of the source are explicit steps: `Tick` is the global interval that hands
 * out turns, `Poll` is one firing of a request's own interval. The fetcher
 * (`requestAsBrowser`) is a function from the attempt number to its outcome,
 * and `uuid()` is a counter of issued ids.
 */
module RequestQueue {
  import opened Wrappers

  /** How many times a request is tried before it is given up (REQUEST_TRIES). */
  const RequestTries: nat := 5
  /** Milliseconds between polls (WAIT_PERIOD); the model does not measure time. */
  const WaitPeriod: nat := 1000

  type RequestId = nat

  /** What `getQueueSpot` hands back: the slot in `queuedRequests` and the request's id. */
  datatype Ticket = Ticket(queueNumber: nat, requestID: RequestId)

  /** A request waiting in the queue: its ticket and its retry budget. */
  datatype QueuedRequest = QueuedRequest(ticket: Ticket, retries: nat)

  datatype Response = Response(body: string)
  datatype FetchError = FetchError(code: string)

  /** One call of the fetcher: a response, or the error it was rejected with. */
  datatype FetchResult = Fetched(response: Response) | Failed(error: FetchError)

  /** How the promise of a request settles; `Rejected(None)` is `reject(undefined)`. */
  datatype Outcome = Resolved(response: Response) | Rejected(error: Option<FetchError>)

  datatype PollResult = NotReady | Settled(outcome: Outcome)

  /** The outcome of the retry loop and how many times it called the fetcher. */
  datatype RetryRun = RetryRun(outcome: Outcome, calls: nat)

  /** The retry loop from attempt `tries` on, `latestError` being the last failure seen. */
  function RetryFrom(fetch: nat -> FetchResult, retries: nat, tries: nat, latestError: Option<FetchError>): (run: RetryRun)
    requires tries <= retries
    requires forall j :: 0 <= j < tries ==> fetch(j).Failed?
    requires latestError == if tries == 0 then None else Some(fetch(tries - 1).error)
    ensures tries <= run.calls <= retries
    ensures run.outcome.Resolved? ==>
      1 <= run.calls && fetch(run.calls - 1) == Fetched(run.outcome.response)
      && forall j :: 0 <= j < run.calls - 1 ==> fetch(j).Failed?
    ensures run.outcome.Rejected? ==>
      run.calls == retries && (forall j :: 0 <= j < retries ==> fetch(j).Failed?)
      && run.outcome.error == if retries == 0 then None else Some(fetch(retries - 1).error)
    decreases retries - tries
  {
    if tries == retries then RetryRun(Rejected(latestError), tries)
    else match fetch(tries)
      case Fetched(r) => RetryRun(Resolved(r), tries + 1)
      case Failed(e) => RetryFrom(fetch, retries, tries + 1, Some(e))
  }

  /**
   * The retry loop of a request that has been given its turn: at most
   * `retries` calls, resolving with the first success, otherwise rejecting
   * with the last error.
   */
  function Retry(fetch: nat -> FetchResult, retries: nat): (run: RetryRun)
    ensures run.calls <= retries
    ensures run.outcome.Resolved? <==> exists k :: 0 <= k < retries && fetch(k).Fetched?
    ensures run.outcome.Resolved? ==>
      1 <= run.calls && fetch(run.calls - 1) == Fetched(run.outcome.response)
      && forall j :: 0 <= j < run.calls - 1 ==> fetch(j).Failed?
    ensures run.outcome.Rejected? ==>
      run.calls == retries
      && run.outcome.error == if retries == 0 then None else Some(fetch(retries - 1).error)
  {
    RetryFrom(fetch, retries, 0, None)
  }

  /** How a request's poll ends as the source is written: line 60 reads an undeclared `lastError`. */
  datatype AsWrittenRun = Finished(outcome: Outcome) | Crashed

  /**
   * The retry loop as written. Before the second attempt, the warning at
   * line 60 evaluates `lastError.code`; `lastError` is declared nowhere (the
   * loop's variable is `latestError`), so a ReferenceError is thrown inside
   * the interval callback and the request never settles.
   */
  function RetryAsWritten(fetch: nat -> FetchResult, retries: nat): (run: AsWrittenRun)
    ensures run == Crashed <==> 2 <= retries && fetch(0).Failed?
    ensures run != Crashed ==> run.outcome == Retry(fetch, retries).outcome
  {
    if retries == 0 then Finished(Rejected(None))
    else match fetch(0)
      case Fetched(r) => Finished(Resolved(r))
      case Failed(e) => if retries == 1 then Finished(Rejected(Some(e))) else Crashed
  }

  /**
   * A request that fails twice and then succeeds, with a budget of three:
   * the intended loop resolves on the third call, the loop as written never
   * makes the second call.
   */
  lemma RetryAsWrittenCrashesOnFirstRetry(e: FetchError, r: Response)
    ensures var fetch := (k: nat) => if k < 2 then Failed(e) else Fetched(r);
      RetryAsWritten(fetch, 3) == Crashed && Retry(fetch, 3) == RetryRun(Resolved(r), 3)
  {
    var fetch := (k: nat) => if k < 2 then Failed(e) else Fetched(r);
    assert fetch(2).Fetched?;
    var run := Retry(fetch, 3);
    assert run.outcome.Resolved?;
    assert fetch(0).Failed? && fetch(1).Failed?;
  }

  /** The position in `queueOrder` of the first entry still present. */
  function FirstPending(order: seq<Option<nat>>): (r: Option<nat>)
    ensures r.Some? ==> r.value < |order| && order[r.value].Some?
    ensures r.Some? ==> forall j :: 0 <= j < r.value ==> order[j].None?
    ensures r.None? ==> forall j :: 0 <= j < |order| ==> order[j].None?
  {
    if order == [] then None
    else if order[0].Some? then Some(0)
    else match FirstPending(order[1..])
      case Some(a) => Some(a + 1)
      case None => None
  }

  /** What the global tick does when no request is running. `GiveTurn(None)` sets the flag of key `undefined`. */
  datatype TickStep = CollectGarbage | GiveTurn(key: Option<RequestId>)

  /** The tick as intended: the turn goes to the request in the slot named by the first entry of `queueOrder`. */
  function TickDecision(order: seq<Option<nat>>, queued: seq<Option<RequestId>>): TickStep
  {
    match FirstPending(order)
    case None => CollectGarbage
    case Some(a) => GiveTurn(if order[a].value < |queued| then queued[order[a].value] else None)
  }

  /** The tick as written at line 107: `queuedRequests[a]`, with `a` the position in `queueOrder`. */
  function TickAsWritten(order: seq<Option<nat>>, queued: seq<Option<RequestId>>): (step: TickStep)
    ensures step == CollectGarbage <==> TickDecision(order, queued) == CollectGarbage
  {
    match FirstPending(order)
    case None => CollectGarbage
    case Some(a) => GiveTurn(if a < |queued| then queued[a] else None)
  }

  /**
   * After slot 0 has been reused by a third request and the second request
   * has finished, the first entry of `queueOrder` sits at position 2 and names
   * slot 0. As written, the tick reads `queuedRequests[2]`, which is a hole,
   * so the waiting request `c` is never given its turn.
   */
  lemma TickAsWrittenSkipsWaitingRequest(c: RequestId)
    ensures var order := [None, None, Some(0)];
      var queued := [Some(c), None];
      TickAsWritten(order, queued) == GiveTurn(None)
      && TickDecision(order, queued) == GiveTurn(Some(c))
  {
    var order: seq<Option<nat>> := [None, None, Some(0)];
    assert order[1..][1..] == [Some(0)];
    assert FirstPending(order) == Some(2);
  }

  /** The ids of the requests occupying a slot. */
  function LiveIds(queued: seq<Option<RequestId>>): set<RequestId>
  {
    set s | 0 <= s < |queued| && queued[s].Some? :: queued[s].value
  }

  /** `queuedRequests[n] = id`, growing the array by one when `n` is its length. */
  function Occupy(queued: seq<Option<RequestId>>, n: nat, id: RequestId): (r: seq<Option<RequestId>>)
    requires n <= |queued|
    ensures |r| == if n < |queued| then |queued| else |queued| + 1
    ensures r[n] == Some(id) && forall s :: 0 <= s < |queued| && s != n ==> r[s] == queued[s]
  {
    if n < |queued| then queued[n := Some(id)] else queued + [Some(id)]
  }

  /** `delete queueOrder[a]` for every position holding `n`. */
  function Vacate(order: seq<Option<nat>>, n: nat): (r: seq<Option<nat>>)
  {
    seq(|order|, j requires 0 <= j < |order| => if order[j] == Some(n) then None else order[j])
  }

  /** A pending entry after the first one does not change which entry is first. */
  lemma FirstPendingAppend(order: seq<Option<nat>>, x: Option<nat>)
    requires FirstPending(order).Some?
    ensures FirstPending(order + [x]) == FirstPending(order)
  {
    var a := FirstPending(order).value;
    var b := FirstPending(order + [x]);
    assert (order + [x])[a] == order[a];
  }

  /** Entries that do not name slot `n` keep their places when slot `n` is vacated. */
  lemma FirstPendingVacate(order: seq<Option<nat>>, n: nat)
    requires FirstPending(order).Some? && order[FirstPending(order).value] != Some(n)
    ensures FirstPending(Vacate(order, n)) == FirstPending(order)
  {
    var a := FirstPending(order).value;
    var v := Vacate(order, n);
    assert v[a] == order[a];
    assert forall j :: 0 <= j < a ==> v[j].None?;
  }

  /** Every entry of `queueOrder` names an occupied slot. */
  ghost predicate OrderNamesSlots(order: seq<Option<nat>>, queued: seq<Option<RequestId>>)
  {
    forall a :: 0 <= a < |order| && order[a].Some? ==>
      order[a].value < |queued| && queued[order[a].value].Some?
  }

  /** Every occupied slot is named by some entry of `queueOrder`. */
  ghost predicate SlotsNamed(order: seq<Option<nat>>, queued: seq<Option<RequestId>>)
  {
    forall s :: 0 <= s < |queued| && queued[s].Some? ==> Some(s) in order
  }

  /** No request id occupies two slots. */
  ghost predicate DistinctIds(queued: seq<Option<RequestId>>)
  {
    forall s, t :: 0 <= s < t < |queued| && queued[s].Some? && queued[t].Some? ==> queued[s] != queued[t]
  }

  /** Every queued id has been handed out already. */
  ghost predicate IdsBelow(queued: seq<Option<RequestId>>, next: nat)
  {
    forall s :: 0 <= s < |queued| && queued[s].Some? ==> queued[s].value < next
  }

  /** A flag that is true belongs to the request the tick would pick. */
  ghost predicate TurnGranted(order: seq<Option<nat>>, queued: seq<Option<RequestId>>, ready: map<RequestId, bool>)
  {
    forall id :: id in ready && ready[id] ==> TickDecision(order, queued) == GiveTurn(Some(id))
  }

  /** The invariant of the queue's bookkeeping. */
  ghost predicate Consistent(order: seq<Option<nat>>, queued: seq<Option<RequestId>>, ready: map<RequestId, bool>, next: nat)
  {
    && OrderNamesSlots(order, queued)
    && SlotsNamed(order, queued)
    && DistinctIds(queued)
    && IdsBelow(queued, next)
    && ready.Keys == LiveIds(queued)
    && TurnGranted(order, queued, ready)
  }

  /** The ticket names its own slot, unless the request has finished. */
  ghost predicate Holds(t: Ticket, queued: seq<Option<RequestId>>, ready: map<RequestId, bool>)
  {
    t.requestID in ready ==> t.queueNumber < |queued| && queued[t.queueNumber] == Some(t.requestID)
  }

  /** Taking a free slot for a fresh id keeps the invariant and every ticket. */
  lemma SpotKeepsConsistent(order: seq<Option<nat>>, queued: seq<Option<RequestId>>, ready: map<RequestId, bool>, next: nat, a: nat)
    requires Consistent(order, queued, ready, next)
    requires a <= |queued| && (a < |queued| ==> queued[a].None?)
    ensures Consistent(order + [Some(a)], Occupy(queued, a, next), ready[next := false], next + 1)
    ensures forall u: Ticket :: u.requestID < next && Holds(u, queued, ready) ==>
      Holds(u, Occupy(queued, a, next), ready[next := false])
  {
    var order', queued', ready' := order + [Some(a)], Occupy(queued, a, next), ready[next := false];
    assert next !in LiveIds(queued);
    OccupyLive(queued, a, next);
    SpotNamesSlots(order, queued, a, next);
    SpotSlotsNamed(order, queued, a, next);
    SpotDistinct(queued, a, next);
    SpotTurnGranted(order, queued, ready, next, a);
  }

  lemma SpotNamesSlots(order: seq<Option<nat>>, queued: seq<Option<RequestId>>, a: nat, id: RequestId)
    requires OrderNamesSlots(order, queued)
    requires a <= |queued|
    ensures OrderNamesSlots(order + [Some(a)], Occupy(queued, a, id))
  {
    var order', queued' := order + [Some(a)], Occupy(queued, a, id);
    forall j | 0 <= j < |order'| && order'[j].Some?
      ensures order'[j].value < |queued'| && queued'[order'[j].value].Some?
    {
      if j < |order| {
        assert order'[j] == order[j];
      }
    }
  }

  lemma SpotSlotsNamed(order: seq<Option<nat>>, queued: seq<Option<RequestId>>, a: nat, id: RequestId)
    requires SlotsNamed(order, queued)
    requires a <= |queued|
    ensures SlotsNamed(order + [Some(a)], Occupy(queued, a, id))
  {
    var order', queued' := order + [Some(a)], Occupy(queued, a, id);
    forall s | 0 <= s < |queued'| && queued'[s].Some?
      ensures Some(s) in order'
    {
      if s != a {
        assert Some(s) in order;
      } else {
        assert order'[|order|] == Some(a);
      }
    }
  }

  lemma SpotDistinct(queued: seq<Option<RequestId>>, a: nat, id: RequestId)
    requires DistinctIds(queued) && id !in LiveIds(queued)
    requires a <= |queued| && (a < |queued| ==> queued[a].None?)
    ensures DistinctIds(Occupy(queued, a, id))
  {
    var q := Occupy(queued, a, id);
    forall s, t | 0 <= s < t < |q| && q[s].Some? && q[t].Some? ensures q[s] != q[t] {
      if s != a && t != a {
        assert q[s] == queued[s] && q[t] == queued[t];
      } else if s == a {
        assert queued[t].value in LiveIds(queued);
      } else {
        assert queued[s].value in LiveIds(queued);
      }
    }
  }

  lemma SpotTurnGranted(order: seq<Option<nat>>, queued: seq<Option<RequestId>>, ready: map<RequestId, bool>, next: nat, a: nat)
    requires OrderNamesSlots(order, queued) && TurnGranted(order, queued, ready)
    requires a <= |queued| && (a < |queued| ==> queued[a].None?)
    requires next !in ready
    ensures TurnGranted(order + [Some(a)], Occupy(queued, a, next), ready[next := false])
  {
    var order', queued', ready' := order + [Some(a)], Occupy(queued, a, next), ready[next := false];
    forall id | id in ready' && ready'[id] ensures TickDecision(order', queued') == GiveTurn(Some(id)) {
      assert id in ready && ready[id];
      assert TickDecision(order, queued) == GiveTurn(Some(id));
      assert FirstPending(order).Some?;
      FirstPendingAppend(order, Some(a));
      var f := FirstPending(order).value;
      assert order'[f] == order[f];
      assert queued'[order[f].value] == queued[order[f].value];
    }
  }

  /** Forgetting the running request keeps the invariant and every other ticket. */
  lemma CleanKeepsConsistent(order: seq<Option<nat>>, queued: seq<Option<RequestId>>, ready: map<RequestId, bool>, next: nat, n: nat, id: RequestId)
    requires Consistent(order, queued, ready, next)
    requires n < |queued| && queued[n] == Some(id)
    requires forall x :: x in ready && ready[x] ==> x == id
    ensures Consistent(Vacate(order, n), queued[n := None], ready - {id}, next)
    ensures forall u: Ticket :: Holds(u, queued, ready) ==> Holds(u, queued[n := None], ready - {id})
  {
    var order', queued' := Vacate(order, n), queued[n := None];
    VacateLive(queued, n, id);
    forall s | 0 <= s < |queued'| && queued'[s].Some?
      ensures Some(s) in order'
    {
      assert Some(s) in order;
      var j :| 0 <= j < |order| && order[j] == Some(s);
      assert order'[j] == Some(s);
    }
  }

  /** The request the tick picks is queued, and setting its flag keeps the invariant. */
  lemma GrantKeepsConsistent(order: seq<Option<nat>>, queued: seq<Option<RequestId>>, ready: map<RequestId, bool>, next: nat)
    requires Consistent(order, queued, ready, next) && FirstPending(order).Some?
    ensures TickDecision(order, queued).GiveTurn? && TickDecision(order, queued).key.Some?
    ensures TickDecision(order, queued).key.value in ready
    ensures Consistent(order, queued, ready[TickDecision(order, queued).key.value := true], next)
  {
    var a := FirstPending(order).value;
    var s := order[a].value;
    assert queued[s].value in LiveIds(queued);
  }

  /** When no entry of `queueOrder` is left, no request is queued. */
  lemma NothingPendingNothingQueued(order: seq<Option<nat>>, queued: seq<Option<RequestId>>, ready: map<RequestId, bool>, next: nat)
    requires Consistent(order, queued, ready, next) && FirstPending(order).None?
    ensures LiveIds(queued) == {} && ready == map[]
  {
    assert forall s :: 0 <= s < |queued| ==> queued[s].None?;
  }

  /**
   * The retry loop of a queued request: up to `retries` attempts, stopping
   * at the first that succeeds; it rejects with the last error, or with
   * nothing when no attempt was made.
   */
  method RunAttempts(fetch: nat -> FetchResult, retries: nat) returns (outcome: Outcome, calls: nat)
    ensures RetryRun(outcome, calls) == Retry(fetch, retries)
  {
    var tries := 0;
    var latestError: Option<FetchError> := None;
    while tries < retries
      invariant 0 <= tries <= retries
      invariant forall j :: 0 <= j < tries ==> fetch(j).Failed?
      invariant latestError == if tries == 0 then None else Some(fetch(tries - 1).error)
      invariant Retry(fetch, retries) == RetryFrom(fetch, retries, tries, latestError)
    {
      tries := tries + 1;
      var result := fetch(tries - 1);
      if result.Fetched? {
        return Resolved(result.response), tries;
      }
      latestError := Some(result.error);
    }
    return Rejected(latestError), tries;
  }

  /** The scan of `getQueueSpot`: the lowest empty slot, or the length when every slot is taken. */
  method FreeSlot(queued: seq<Option<RequestId>>) returns (a: nat)
    ensures a <= |queued|
    ensures a < |queued| ==> queued[a].None?
    ensures forall s :: 0 <= s < a ==> queued[s].Some?
  {
    a := 0;
    while a < |queued| && queued[a].Some?
      invariant 0 <= a <= |queued|
      invariant forall s :: 0 <= s < a ==> queued[s].Some?
    {
      a := a + 1;
    }
  }

  /** The loop of `cleanFromQueue` over `queueOrder`: every entry naming slot `n` is deleted. */
  method VacateOrder(order: seq<Option<nat>>, n: nat) returns (r: seq<Option<nat>>)
    ensures r == Vacate(order, n)
  {
    r := order;
    var a := 0;
    while a < |r|
      invariant 0 <= a <= |r| == |order|
      invariant forall j :: 0 <= j < |r| ==> r[j] == if j < a && order[j] == Some(n) then None else order[j]
    {
      if r[a] == Some(n) {
        r := r[a := None];
      }
      a := a + 1;
    }
  }

  class Queue {
    /** Slot numbers in the order the requests are to run; `None` is a deleted entry. */
    var queueOrder: seq<Option<nat>>
    /** Request ids by slot; `None` is a free slot. */
    var queuedRequests: seq<Option<RequestId>>
    /** Per request id: whether it may run. */
    var readyRequests: map<RequestId, bool>
    /** True while a request is running. */
    var performingRequest: bool
    /** Ids handed out so far (stands for `uuid()`). */
    var nextId: nat

    ghost predicate Valid()
      reads this
    {
      Consistent(queueOrder, queuedRequests, readyRequests, nextId)
    }

    /** The ticket was handed out by this queue and still names its slot, unless the request has finished. */
    ghost predicate Issued(t: Ticket)
      reads this
    {
      t.requestID < nextId && Holds(t, queuedRequests, readyRequests)
    }

    /** The request with this ticket may run now. */
    predicate IsReady(t: Ticket)
      reads this
    {
      t.requestID in readyRequests && readyRequests[t.requestID]
    }

    /** The state the module starts in. */
    constructor ()
      ensures Valid()
      ensures queueOrder == [] && queuedRequests == [] && readyRequests == map[] && !performingRequest
    {
      queueOrder := [];
      queuedRequests := [];
      readyRequests := map[];
      performingRequest := false;
      nextId := 0;
    }

    /** `getQueueSpot`: takes the lowest free slot and puts the new request at the end of the order. */
    method GetQueueSpot() returns (t: Ticket)
      requires Valid()
      modifies this
      ensures Valid() && Issued(t)
      ensures t.requestID == old(nextId) && nextId == old(nextId) + 1
      ensures t.requestID !in old(readyRequests)
      ensures t.queueNumber <= |old(queuedRequests)|
      ensures t.queueNumber < |old(queuedRequests)| ==> old(queuedRequests)[t.queueNumber].None?
      ensures forall s :: 0 <= s < t.queueNumber ==> old(queuedRequests)[s].Some?
      ensures queuedRequests == Occupy(old(queuedRequests), t.queueNumber, t.requestID)
      ensures readyRequests == old(readyRequests)[t.requestID := false]
      ensures queueOrder == old(queueOrder) + [Some(t.queueNumber)]
      ensures performingRequest == old(performingRequest)
      ensures forall u: Ticket :: old(Issued(u)) ==> Issued(u)
    {
      var a := FreeSlot(queuedRequests);
      var requestID := nextId;
      SpotKeepsConsistent(queueOrder, queuedRequests, readyRequests, nextId, a);
      assert requestID !in LiveIds(queuedRequests);
      nextId := nextId + 1;
      queuedRequests := Occupy(queuedRequests, a, requestID);
      readyRequests := readyRequests[requestID := false];
      queueOrder := queueOrder + [Some(a)];
      t := Ticket(a, requestID);
    }

    /** `cleanFromQueue`: forgets the finished request and lets the next one run. */
    method CleanFromQueue(requestID: RequestId, queueNumber: nat)
      requires Valid()
      requires queueNumber < |queuedRequests| && queuedRequests[queueNumber] == Some(requestID)
      requires forall id :: id in readyRequests && readyRequests[id] ==> id == requestID
      modifies this
      ensures Valid()
      ensures readyRequests == old(readyRequests) - {requestID}
      ensures queuedRequests == old(queuedRequests)[queueNumber := None]
      ensures queueOrder == Vacate(old(queueOrder), queueNumber)
      ensures !performingRequest && nextId == old(nextId)
      ensures forall u: Ticket :: old(Issued(u)) ==> Issued(u)
    {
      var order := VacateOrder(queueOrder, queueNumber);
      queueOrder, queuedRequests, readyRequests, performingRequest :=
        order, queuedRequests[queueNumber := None], readyRequests - {requestID}, false;
      CleanKeepsConsistent(old(queueOrder), old(queuedRequests), old(readyRequests), nextId, queueNumber, requestID);
      assert Consistent(queueOrder, queuedRequests, readyRequests, nextId);
    }

    /**
     * The global tick: does nothing while a request runs; otherwise gives
     * the turn to the first request in `queueOrder`, or, when no entry is
     * left, resets the bookkeeping (which then holds no request).
     */
    method Tick()
      requires Valid()
      modifies this
      ensures Valid()
      ensures old(performingRequest) ==> unchanged(this)
      ensures performingRequest == old(performingRequest) && nextId == old(nextId)
      ensures !old(performingRequest) && FirstPending(old(queueOrder)).Some? ==>
        && TickDecision(old(queueOrder), old(queuedRequests)).GiveTurn?
        && TickDecision(old(queueOrder), old(queuedRequests)).key.Some?
        && readyRequests == old(readyRequests)[TickDecision(old(queueOrder), old(queuedRequests)).key.value := true]
        && queueOrder == old(queueOrder) && queuedRequests == old(queuedRequests)
      ensures !old(performingRequest) && FirstPending(old(queueOrder)).None? ==>
        && old(LiveIds(queuedRequests)) == {}
        && queueOrder == [] && queuedRequests == [] && readyRequests == map[]
      ensures forall u: Ticket :: old(Issued(u)) ==> Issued(u)
    {
      if performingRequest {
        return;
      }
      var a := 0;
      while a < |queueOrder|
        invariant 0 <= a <= |queueOrder|
        invariant forall j :: 0 <= j < a ==> queueOrder[j].None?
      {
        if queueOrder[a].Some? {
          assert FirstPending(queueOrder) == Some(a);
          GrantKeepsConsistent(queueOrder, queuedRequests, readyRequests, nextId);
          var requestID := queuedRequests[queueOrder[a].value];
          readyRequests := readyRequests[requestID.value := true];
          return;
        }
        a := a + 1;
      }
      NothingPendingNothingQueued(queueOrder, queuedRequests, readyRequests, nextId);
      queueOrder := [];
      queuedRequests := [];
      readyRequests := map[];
    }

    /** `makeQueuedRequest`: takes a queue spot; the returned value stands for the pending promise. */
    method MakeQueuedRequest(retries: nat) returns (req: QueuedRequest)
      requires Valid()
      modifies this
      ensures Valid() && Issued(req.ticket) && req.retries == retries
      ensures req.ticket.requestID == old(nextId) && nextId == old(nextId) + 1
      ensures req.ticket.requestID !in old(readyRequests)
      ensures req.ticket.queueNumber <= |old(queuedRequests)|
      ensures req.ticket.queueNumber < |old(queuedRequests)| ==> old(queuedRequests)[req.ticket.queueNumber].None?
      ensures forall s :: 0 <= s < req.ticket.queueNumber ==> old(queuedRequests)[s].Some?
      ensures queuedRequests == Occupy(old(queuedRequests), req.ticket.queueNumber, req.ticket.requestID)
      ensures readyRequests == old(readyRequests)[req.ticket.requestID := false]
      ensures queueOrder == old(queueOrder) + [Some(req.ticket.queueNumber)]
      ensures performingRequest == old(performingRequest)
      ensures forall u: Ticket :: old(Issued(u)) ==> Issued(u)
    {
      var t := GetQueueSpot();
      req := QueuedRequest(t, retries);
    }

    /** `requestURL`: a queued request with the default budget of `RequestTries` attempts. */
    method RequestUrl() returns (req: QueuedRequest)
      requires Valid()
      modifies this
      ensures Valid() && Issued(req.ticket) && req.retries == RequestTries
      ensures req.ticket.requestID == old(nextId) && nextId == old(nextId) + 1
      ensures req.ticket.requestID !in old(readyRequests)
      ensures req.ticket.queueNumber <= |old(queuedRequests)|
      ensures req.ticket.queueNumber < |old(queuedRequests)| ==> old(queuedRequests)[req.ticket.queueNumber].None?
      ensures forall s :: 0 <= s < req.ticket.queueNumber ==> old(queuedRequests)[s].Some?
      ensures queuedRequests == Occupy(old(queuedRequests), req.ticket.queueNumber, req.ticket.requestID)
      ensures readyRequests == old(readyRequests)[req.ticket.requestID := false]
      ensures queueOrder == old(queueOrder) + [Some(req.ticket.queueNumber)]
      ensures performingRequest == old(performingRequest)
      ensures forall u: Ticket :: old(Issued(u)) ==> Issued(u)
    {
      req := MakeQueuedRequest(RequestTries);
    }

    /**
     * One firing of a request's own interval. Unless the request's flag is
     * true nothing happens. Otherwise it marks the queue busy, stops its
     * interval, runs the retry loop against `fetch`, and cleans itself from
     * the queue whether the loop resolved or rejected. The warning before a
     * retry is logging and is left out (`RetryAsWritten` shows what it does
     * as written).
     */
    method Poll(req: QueuedRequest, fetch: nat -> FetchResult) returns (r: PollResult, calls: nat)
      requires Valid() && Issued(req.ticket)
      modifies this
      ensures Valid()
      ensures !old(IsReady(req.ticket)) ==> r == NotReady && calls == 0 && unchanged(this)
      ensures old(IsReady(req.ticket)) ==>
        && r == Settled(Retry(fetch, req.retries).outcome)
        && calls == Retry(fetch, req.retries).calls
        && readyRequests == old(readyRequests) - {req.ticket.requestID}
        && queuedRequests == old(queuedRequests)[req.ticket.queueNumber := None]
        && queueOrder == Vacate(old(queueOrder), req.ticket.queueNumber)
        && !performingRequest
      ensures forall u: Ticket :: old(Issued(u)) ==> Issued(u)
    {
      var requestID, queueNumber, retries := req.ticket.requestID, req.ticket.queueNumber, req.retries;
      if !(requestID in readyRequests && readyRequests[requestID]) {
        return NotReady, 0;
      }
      performingRequest := true;
      var outcome;
      outcome, calls := RunAttempts(fetch, retries);
      CleanFromQueue(requestID, queueNumber);
      return Settled(outcome), calls;
    }
  }

  /** The queue holds exactly this bookkeeping. */
  ghost predicate InState(q: Queue, order: seq<Option<nat>>, queued: seq<Option<RequestId>>, ready: map<RequestId, bool>)
    reads q
  {
    q.Valid() && q.queueOrder == order && q.queuedRequests == queued && q.readyRequests == ready
  }

  /** Scenario, first step: requests `a` and `b` are queued in slots 0 and 1. */
  method QueueTwo() returns (q: Queue, a: QueuedRequest, b: QueuedRequest)
    ensures fresh(q) && !q.performingRequest && q.Issued(a.ticket) && q.Issued(b.ticket)
    ensures a.ticket.requestID != b.ticket.requestID
    ensures InState(q, [Some(0), Some(1)], [Some(a.ticket.requestID), Some(b.ticket.requestID)],
      map[a.ticket.requestID := false, b.ticket.requestID := false])
  {
    q := new Queue();
    a := q.RequestUrl();
    b := q.RequestUrl();
  }

  /** A tick that gives the turn to `x`, then a poll of `x` whose first attempt succeeds. */
  method RunNext(q: Queue, x: QueuedRequest, body: string)
    requires q.Valid() && !q.performingRequest && q.Issued(x.ticket)
    requires TickDecision(q.queueOrder, q.queuedRequests) == GiveTurn(Some(x.ticket.requestID))
    modifies q
    ensures q.Valid() && !q.performingRequest
    ensures q.readyRequests == old(q.readyRequests) - {x.ticket.requestID}
    ensures q.queuedRequests == old(q.queuedRequests)[x.ticket.queueNumber := None]
    ensures q.queueOrder == Vacate(old(q.queueOrder), x.ticket.queueNumber)
    ensures forall u: Ticket :: old(q.Issued(u)) ==> q.Issued(u)
  {
    ghost var ready := q.readyRequests;
    q.Tick();
    assert q.readyRequests == ready[x.ticket.requestID := true];
    var r, calls := q.Poll(x, (k: nat) => Fetched(Response(body)));
    assert q.readyRequests == ready - {x.ticket.requestID};
  }

  /** Scenario, second step: the tick picks `a`, which succeeds and frees slot 0. */
  method RunFirst(q: Queue, a: QueuedRequest, b: QueuedRequest, body: string)
    requires !q.performingRequest && q.Issued(a.ticket) && q.Issued(b.ticket)
    requires a.ticket.requestID != b.ticket.requestID
    requires InState(q, [Some(0), Some(1)], [Some(a.ticket.requestID), Some(b.ticket.requestID)],
      map[a.ticket.requestID := false, b.ticket.requestID := false])
    modifies q
    ensures !q.performingRequest && q.Issued(b.ticket)
    ensures InState(q, [None, Some(1)], [None, Some(b.ticket.requestID)], map[b.ticket.requestID := false])
  {
    var ia, ib := a.ticket.requestID, b.ticket.requestID;
    var order: seq<Option<nat>> := [Some(0), Some(1)];
    assert FirstPending(order) == Some(0);
    assert a.ticket.queueNumber == 0;
    RunNext(q, a, body);
    assert Vacate(order, 0) == [None, Some(1)];
    assert map[ia := false, ib := false] - {ia} == map[ib := false];
  }

  /** Scenario, third step: `c` is queued in the freed slot 0. */
  method QueueThird(q: Queue, b: QueuedRequest) returns (c: QueuedRequest)
    requires !q.performingRequest && q.Issued(b.ticket)
    requires InState(q, [None, Some(1)], [None, Some(b.ticket.requestID)], map[b.ticket.requestID := false])
    modifies q
    ensures !q.performingRequest && q.Issued(b.ticket) && q.Issued(c.ticket)
    ensures c.ticket.requestID != b.ticket.requestID
    ensures InState(q, [None, Some(1), Some(0)], [Some(c.ticket.requestID), Some(b.ticket.requestID)],
      map[b.ticket.requestID := false, c.ticket.requestID := false])
  {
    ghost var queued := q.queuedRequests;
    c := q.RequestUrl();
    assert queued[0].None?;
    assert c.ticket.queueNumber == 0;
  }

  /** Scenario, last step: the tick picks `b`, which succeeds and frees slot 1. */
  method RunSecond(q: Queue, b: QueuedRequest, c: QueuedRequest, body: string)
    requires !q.performingRequest && q.Issued(b.ticket) && q.Issued(c.ticket)
    requires c.ticket.requestID != b.ticket.requestID
    requires InState(q, [None, Some(1), Some(0)], [Some(c.ticket.requestID), Some(b.ticket.requestID)],
      map[b.ticket.requestID := false, c.ticket.requestID := false])
    modifies q
    ensures InState(q, [None, None, Some(0)], [Some(c.ticket.requestID), None], map[c.ticket.requestID := false])
  {
    var ib, ic := b.ticket.requestID, c.ticket.requestID;
    var order: seq<Option<nat>> := [None, Some(1), Some(0)];
    assert order[1..] == [Some(1), Some(0)];
    assert FirstPending(order) == Some(1);
    assert b.ticket.queueNumber == 1;
    RunNext(q, b, body);
    assert Vacate(order, 1) == [None, None, Some(0)];
    assert map[ib := false, ic := false] - {ib} == map[ic := false];
  }

  /**
   * Three requests through the queue: `a` and `b` are queued, `a` runs, `c`
   * reuses the freed slot 0, `b` runs. What is left is the state of
   * `TickAsWrittenSkipsWaitingRequest`: as written the next tick sets the
   * flag of key `undefined` and `c` waits forever; as intended `c` runs.
   */
  method SlotReuseScenario(body: string) returns (order: seq<Option<nat>>, queued: seq<Option<RequestId>>, c: Ticket)
    ensures order == [None, None, Some(0)] && queued == [Some(c.requestID), None]
    ensures TickAsWritten(order, queued) == GiveTurn(None)
    ensures TickDecision(order, queued) == GiveTurn(Some(c.requestID))
  {
    var q, a, b := QueueTwo();
    RunFirst(q, a, b, body);
    var cReq := QueueThird(q, b);
    RunSecond(q, b, cReq, body);
    order, queued, c := q.queueOrder, q.queuedRequests, cReq.ticket;
    TickAsWrittenSkipsWaitingRequest(c.requestID);
  }

  /** Filling a free slot adds exactly the new id to the live ids. */
  lemma OccupyLive(queued: seq<Option<RequestId>>, n: nat, id: RequestId)
    requires n <= |queued| && (n < |queued| ==> queued[n].None?)
    ensures LiveIds(Occupy(queued, n, id)) == LiveIds(queued) + {id}
  {
    var q := Occupy(queued, n, id);
    forall x | x in LiveIds(queued) ensures x in LiveIds(q) {
      var s :| 0 <= s < |queued| && queued[s] == Some(x);
      assert q[s] == Some(x);
    }
    assert q[n] == Some(id);
  }

  /** Freeing the slot of `id` removes exactly `id` from the live ids when ids are distinct. */
  lemma VacateLive(queued: seq<Option<RequestId>>, n: nat, id: RequestId)
    requires n < |queued| && queued[n] == Some(id)
    requires forall s, t :: 0 <= s < t < |queued| && queued[s].Some? && queued[t].Some? ==> queued[s] != queued[t]
    ensures LiveIds(queued[n := None]) == LiveIds(queued) - {id}
  {
    var q := queued[n := None];
    forall x | x in LiveIds(queued) - {id} ensures x in LiveIds(q) {
      var s :| 0 <= s < |queued| && queued[s] == Some(x);
      assert q[s] == Some(x);
    }
  }
}
