/** One connection of wrk.c: requests are sent at a constant rate, and latency is measured
    from when a request was due, not from when it was sent. Handlers are given the times
    that they read from a clock that never runs backwards, and the outcomes of their system
    calls. Any handler may run at any time. */
module WrkPacing {

  /** When request number `complete` is due, in microseconds after the start. */
  function Due(complete: nat, throughput: real): (r: int)
    requires throughput > 0.0
  {
    (complete as real / throughput).Floor
  }

  lemma {:induction false} DueIs(complete: nat, throughput: real, elapsed: int)
    requires throughput > 0.0
    ensures Due(complete, throughput) >= 0 && Due(0, throughput) == 0
    ensures Due(complete, throughput) <= elapsed ==> complete as real < throughput * (elapsed + 1) as real
  {
    var x := complete as real / throughput;
    assert x * throughput == complete as real;
    if x < 0.0 { Scaled(x, 0.0, throughput); }
    if Due(complete, throughput) <= elapsed { Scaled(x, (elapsed + 1) as real, throughput); }
  }

  lemma {:induction false} Scaled(x: real, y: real, t: real)
    requires t > 0.0 && x < y
    ensures x * t < y * t
  {
  }

  datatype Outcome = Ok(n: nat) | Failed | Retry

  /** The handler that is registered for when the socket can be written. */
  datatype Handler = NoHandler | Connected | Writeable

  /** A batch of requests that was started: when, after how many responses, and the
      catch-up that it was part of. */
  datatype Batch = Batch(at: nat, complete: nat, since: nat, base: nat)
  {
    /** It was not started before it was due, at the constant rate and at that of the
        catch-up. */
    predicate OnPace(threadStart: nat, throughput: real)
      requires throughput > 0.0
    {
      threadStart + Due(complete, throughput) <= at &&
      since <= at && base <= complete && since + Due(complete - base, throughput * 2.0) <= at
    }
  }

  /** How many requests `n` batches hold. */
  function Requests(n: nat, pipeline: nat): nat { if n == 0 then 0 else Requests(n - 1, pipeline) + pipeline }

  class Connection {
    const throughput: real
    const pipeline: nat
    const recordAll: bool
    const stopAt: nat
    var threadStart: nat
    var complete: nat
    var completeAtLastBatchStart: nat
    var catchUpStartTime: nat
    var completeAtCatchUpStart: nat
    var start: nat
    var length: nat
    var written: nat
    var pending: nat
    var actualLatencyStart: nat
    var hasPending: bool
    var caughtUp: bool
    // what is recorded in the histograms, what the event loop holds, and whether there is
    // a socket
    var latency: seq<int>
    var uLatency: seq<int>
    var handler: Handler
    var timers: nat
    var alive: bool
    // the last time that was read, and the batches so far
    ghost var clock: nat
    ghost var batches: seq<Batch>

    ghost predicate Paced()
      reads this
    {
      throughput > 0.0 && threadStart <= clock && completeAtLastBatchStart <= complete &&
      completeAtCatchUpStart <= complete &&
      catchUpStartTime <= clock && forall b <- batches :: b.OnPace(threadStart, throughput) && b.at <= clock
    }

    /** Every batch before the last has had its responses, and the last has had those that
        are not pending. */
    ghost predicate Counted()
      reads this
    {
      (hasPending ==> pending > 0 && batches != []) &&
      Requests(|batches|, pipeline) <= complete + (if hasPending then pending else 0) &&
      forall k {:trigger batches[k]} :: 0 <= k < |batches| ==> Requests(k, pipeline) <= batches[k].complete <= complete
    }

    /** The corrected start of the last batch is no later than its actual start. */
    ghost predicate Corrected()
      reads this
    {
      throughput > 0.0 &&
      if batches == [] then actualLatencyStart == 0 && completeAtLastBatchStart == 0 && !hasPending
      else threadStart + Due(completeAtLastBatchStart, throughput) <= actualLatencyStart <= clock
    }

    ghost predicate Recorded()
      reads this
    {
      |latency| == |uLatency| && forall i :: 0 <= i < |latency| ==> 0 <= uLatency[i] <= latency[i]
    }

    /** As long as there is a socket, something is to happen: the socket is to be written,
        or a timer to fire, or a response to come. */
    ghost predicate Busy()
      reads this
    {
      (hasPending <==> pending > 0) &&
      (alive && written > 0 ==> handler != NoHandler && hasPending) &&
      (alive && handler == NoHandler && timers == 0 ==> hasPending)
    }

    /** A response is to a request that was sent; the last one of a batch comes when all
        of the batch was. */
    predicate Expected()
      reads this
    {
      alive && pending > 0 && (pending == 1 ==> written == 0)
    }

    /** There is a socket, but nothing to write, no timer, and no response to come. */
    predicate Stalled()
      reads this
    {
      alive && handler == NoHandler && timers == 0 && !hasPending
    }

    ghost predicate Valid()
      reads this
    {
      throughput > 0.0 && pipeline > 0 && written < length && (handler != NoHandler ==> alive) &&
      Paced() && Corrected() && Counted()
    }

    /** thread_main and delayed_initial_connect */
    constructor (throughput: real, pipeline: nat, recordAll: bool, stopAt: nat, length: nat, now: nat, connected: bool)
      requires throughput > 0.0 && pipeline > 0 && length > 0
      ensures Valid() && Recorded() && Busy() && clock == now && threadStart == now && latency == [] && batches == []
      ensures this.throughput == throughput && this.recordAll == recordAll && this.stopAt == stopAt
      ensures this.pipeline == pipeline && alive == connected && handler == (if connected then Connected else NoHandler)
      ensures written == 0 && !hasPending && timers == 0 && complete == 0 && caughtUp
    {
      this.throughput, this.pipeline, this.recordAll, this.stopAt, this.length := throughput, pipeline, recordAll,
      stopAt, length;
      threadStart, complete, completeAtLastBatchStart, catchUpStartTime, completeAtCatchUpStart := now, 0, 0, 0, 0;
      start, written, pending, actualLatencyStart, hasPending, caughtUp := 0, 0, 0, 0, false, true;
      latency, uLatency, timers := [], [], 0;
      handler := if connected then Connected else NoHandler;
      clock, alive, batches := now, connected, [];
    }

    /** A request is due at the constant rate, and, if the connection is catching up, at
        the rate for that. */
    ghost predicate Ready(now: nat)
      requires throughput > 0.0 && completeAtCatchUpStart <= complete
      reads this
    {
      threadStart + Due(complete, throughput) <= now &&
      (caughtUp || catchUpStartTime + Due(complete - completeAtCatchUpStart, throughput * 2.0) <= now)
    }

    /** usec_to_next_send: 0 exactly if a request is ready; otherwise the time until one is
        due. */
    method UsecToNextSend(now: nat) returns (wait: nat)
      requires Valid() && clock <= now
      modifies this`caughtUp, this`catchUpStartTime, this`completeAtCatchUpStart, this`clock
      ensures Valid() && clock == now && (old(Busy()) ==> Busy())
      ensures wait == 0 <==> old(Ready(now))
      ensures wait == 0 ==>
        threadStart + Due(complete, throughput) <= now &&
        catchUpStartTime + Due(complete - completeAtCatchUpStart, throughput * 2.0) <= now
      ensures threadStart + Due(complete, throughput) > now ==>
        caughtUp && now + wait == threadStart + Due(complete, throughput)
      ensures threadStart + Due(complete, throughput) <= now ==>
        !caughtUp && (wait > 0 ==>
          now + wait == catchUpStartTime + Due(complete - completeAtCatchUpStart, throughput * 2.0))
    {
      clock := now;
      DueIs(complete, throughput, 0);
      var nextStartTime: nat := threadStart + Due(complete, throughput);
      var sendNow := true;
      if nextStartTime > now {
        caughtUp, sendNow := true, false;
      } else {
        if caughtUp {
          caughtUp, catchUpStartTime, completeAtCatchUpStart := false, now, complete;
        }
        var since := complete - completeAtCatchUpStart;
        DueIs(since, throughput * 2.0, 0);
        nextStartTime := catchUpStartTime + Due(since, throughput * 2.0);
        if nextStartTime > now { sendNow := false; }
      }
      wait := if sendNow then 0 else nextStartTime - now;
    }

    /** reconnect_socket; without a socket nothing happens any more. */
    method Reconnect(connected: bool)
      requires Valid()
      modifies this`handler, this`alive
      ensures Valid() && alive == connected && handler == (if connected then Connected else NoHandler)
      ensures (hasPending <==> pending > 0) && (alive && written > 0 ==> hasPending) ==> Busy()
    {
      handler, alive := if connected then Connected else NoHandler, connected;
    }

    /** socket_connected */
    method SocketConnected(outcome: Outcome, reconnected: bool)
      requires Valid() && alive
      modifies this`written, this`handler, this`alive
      ensures Valid() && (old(Busy()) ==> Busy())
      ensures outcome.Ok? ==> written == 0 && handler == Writeable && alive
    {
      match outcome
      case Ok(_) =>
        written, handler := 0, Writeable;
      case Retry =>
      case Failed =>
        Reconnect(reconnected);
    }

    /** delay_request: a timer that fires again, or goes. */
    method DelayRequest(now: nat)
      requires Valid() && clock <= now && timers > 0
      modifies this`caughtUp, this`catchUpStartTime, this`completeAtCatchUpStart, this`clock, this`handler, this`timers
      ensures Valid() && clock == now && (old(Busy()) ==> Busy())
      ensures timers == old(timers) - if old(Ready(now)) then 1 else 0
      ensures old(Ready(now)) && alive ==> handler == Writeable
    {
      hide Ready, Due;
      var wait := UsecToNextSend(now);
      if wait == 0 {
        timers := timers - 1;
        if alive { handler := Writeable; }
      }
    }

    /** A look at the clock. */
    method Tick(now: nat)
      requires Valid() && clock <= now
      modifies this`clock
      ensures Valid() && clock == now
    {
      hide Due, Batch.OnPace;
      clock := now;
      assert forall b <- batches :: b.OnPace(threadStart, throughput);
    }

    /** The start of a batch. */
    method StartBatch(now: nat)
      requires Valid() && clock == now && !hasPending && pending > 0
      requires threadStart + Due(complete, throughput) <= now
      requires catchUpStartTime + Due(complete - completeAtCatchUpStart, throughput * 2.0) <= now
      requires pending == pipeline
      modifies this`actualLatencyStart, this`completeAtLastBatchStart, this`hasPending, this`batches
      ensures Valid() && hasPending && completeAtLastBatchStart == complete && actualLatencyStart == now
      ensures batches == old(batches) + [Batch(now, complete, catchUpStartTime, completeAtCatchUpStart)]
    {
      ghost var batch, n := Batch(now, complete, catchUpStartTime, completeAtCatchUpStart), |batches|;
      assert batch.OnPace(threadStart, throughput);
      assert Requests(n + 1, pipeline) == Requests(n, pipeline) + pipeline;
      hide Due, Batch.OnPace, Requests;
      actualLatencyStart, completeAtLastBatchStart, hasPending := now, complete, true;
      batches := batches + [batch];
    }

    /** The start of a request, and of a batch, if none is pending. */
    method StartRequest(now: nat, len: nat)
      requires Valid() && clock <= now && len > 0 && written == 0
      requires threadStart + Due(complete, throughput) <= clock
      requires catchUpStartTime + Due(complete - completeAtCatchUpStart, throughput * 2.0) <= clock
      modifies this`start, this`length, this`actualLatencyStart, this`completeAtLastBatchStart, this`hasPending,
        this`pending,
        this`clock, this`batches
      ensures Valid() && clock == now && hasPending && pending == pipeline && written < length == len
      ensures !old(hasPending) ==> completeAtLastBatchStart == complete && actualLatencyStart == now
      ensures batches == if old(hasPending) then old(batches) else
        old(batches) + [Batch(now, complete, catchUpStartTime, completeAtCatchUpStart)]
    {
      ghost var n := |batches|;
      assert hasPending ==> n > 0 && Requests(n - 1, pipeline) <= batches[n - 1].complete <= complete;
      hide Due, Batch.OnPace;
      start, length, pending := now, len, pipeline;
      Tick(now);
      hide Paced, Corrected, Counted, Requests;
      if !hasPending { StartBatch(now); }
    }

    /** socket_writeable, with the times of its first and last look at the clock. */
    method SocketWriteable(now: nat, later: nat, len: nat, outcome: Outcome, reconnected: bool)
      requires Valid() && clock <= now <= later && len > 0 && alive && handler == Writeable
      requires outcome.Ok? ==> outcome.n <= (if written == 0 then len else length - written)
      modifies this
      ensures Valid() && now <= clock <= later && latency == old(latency) && uLatency == old(uLatency)
      ensures complete == old(complete) && threadStart == old(threadStart)
      ensures old(Busy()) ==> Busy()
      ensures old(written == 0 && Ready(now) && !hasPending) ==>
        batches == old(batches) + [Batch(later, complete, catchUpStartTime, completeAtCatchUpStart)] && hasPending &&
        completeAtLastBatchStart == complete && actualLatencyStart == later
      ensures !old(written == 0 && Ready(now) && !hasPending) ==> batches == old(batches)
      ensures timers == old(timers) + if old(written == 0 && !Ready(now)) then 1 else 0
      ensures outcome.Ok? && old(written > 0 || Ready(now)) ==> alive && Wrote(old(written) + outcome.n)
      ensures old(written) == 0 && old(Ready(now)) ==> length == len && hasPending && pending == pipeline
      ensures old(written) > 0 ==> length == old(length) && hasPending == old(hasPending) && pending == old(pending)
    {
      hide Due, Batch.OnPace, Ready;
      if written == 0 {
        var wait := UsecToNextSend(now);
        if wait != 0 {
          Delay();
          return;
        }
        StartRequest(later, len);
      } else {
        clock := now;
      }
      Write(outcome, reconnected);
    }

    /** Not yet time to send: waits for a timer instead of the socket. */
    method Delay()
      requires Valid()
      modifies this`handler, this`timers
      ensures Valid() && handler == NoHandler && timers == old(timers) + 1
      ensures old(Busy()) && written == 0 ==> Busy()
    {
      handler, timers := NoHandler, timers + 1;
    }

    /** So many bytes of the request are written. */
    predicate Wrote(n: nat)
      reads this
    {
      written == (if n == length then 0 else n) && handler == if n == length then NoHandler else Writeable
    }

    /** The write itself: all of the request, or a part, or nothing. */
    method Write(outcome: Outcome, reconnected: bool)
      requires Valid() && alive && handler == Writeable && (outcome.Ok? ==> outcome.n <= length - written)
      requires hasPending || written > 0
      modifies this`written, this`handler, this`alive
      ensures Valid() && (old(Busy()) ==> Busy())
      ensures outcome.Ok? ==> alive && Wrote(old(written) + outcome.n)
    {
      match outcome
      case Retry =>
      case Failed =>
        Reconnect(reconnected);
      case Ok(n) =>
        written := written + n;
        if written == length { written, handler := 0, NoHandler; }
    }

    /** The latencies of a response. The corrected one is not negative; it is not less
        than the uncorrected one, and that not negative, exactly if some batch was started
        before. */
    method Record(now: nat)
      requires Valid() && clock == now
      modifies this`latency, this`uLatency
      ensures latency == old(latency) + [now - (threadStart + Due(completeAtLastBatchStart, throughput))]
      ensures uLatency == old(uLatency) + [now - actualLatencyStart] && latency[|latency| - 1] >= 0
      ensures latency[|latency| - 1] >= uLatency[|uLatency| - 1] >= 0 <==> batches != [] || threadStart == 0
      ensures old(Recorded()) && (batches != [] || threadStart == 0) ==> Recorded()
      ensures Valid()
    {
      DueIs(completeAtLastBatchStart, throughput, 0);
      var expectedStart := threadStart + Due(completeAtLastBatchStart, throughput);
      latency := latency + [now - expectedStart];
      uLatency := uLatency + [now - actualLatencyStart];
    }

    /** One response more, and one less to wait for; the counter has 64 bits. */
    method CountResponse()
      requires Valid()
      modifies this`complete, this`pending, this`hasPending, this`handler
      ensures Valid() && complete == old(complete) + 1
      ensures old(pending) == 1 ==> pending == 0 && !hasPending && (alive ==> handler == Writeable)
      ensures old(Busy()) && alive ==> (Busy() <==> old(Expected()))
    {
      hide Due, Batch.OnPace;
      complete := complete + 1;
      pending := if pending == 0 then 0xffff_ffff_ffff_ffff else pending - 1;
      if pending == 0 { hasPending, handler := false, if alive then Writeable else handler; }
      assert forall b <- batches :: b.OnPace(threadStart, throughput);
    }

    /** response_complete */
    method ResponseComplete(now: nat, keepAlive: bool, reconnected: bool)
      requires Valid() && clock <= now
      modifies this
      ensures Valid() && clock == now && threadStart == old(threadStart) && batches == old(batches)
      ensures complete == old(complete) + if now < stopAt then 1 else 0
      ensures written == old(written) && length == old(length) && timers == old(timers)
      ensures now < stopAt && old(pending) == 1 ==> !hasPending && pending == 0
      ensures now < stopAt && old(pending) == 1 && old(alive) && keepAlive ==> alive && handler == Writeable
      ensures now >= stopAt || !(recordAll || !hasPending) ==> latency == old(latency) && uLatency == old(uLatency)
      ensures now < stopAt && (recordAll || !hasPending) ==>
        latency == old(latency) + [now - (threadStart + Due(old(completeAtLastBatchStart), throughput))] &&
        uLatency == old(uLatency) + [now - old(actualLatencyStart)] &&
        (latency[|latency| - 1] >= uLatency[|uLatency| - 1] >= 0 <==> batches != [] || threadStart == 0)
      ensures old(Recorded()) && (batches != [] || threadStart == 0) ==> Recorded()
      ensures old(Busy()) && old(Expected()) ==> Busy()
      ensures old(Busy()) && old(alive) && now < stopAt && keepAlive ==> (Busy() <==> old(Expected()))
    {
      hide Due, Requests, Paced, Corrected, Counted;
      Tick(now);
      if now >= stopAt { return; }
      CountResponse();
      if recordAll || !hasPending { Record(now); }
      if !keepAlive { Reconnect(reconnected); }
    }
  }

  // ----- runs -----

  /** What happens to a connection, and when. */
  datatype Event =
    | CanConnect(outcome: Outcome, reconnected: bool)
    | CanWrite(now: nat, later: nat, len: nat, outcome: Outcome, reconnected: bool)
    | TimerFires(now: nat)
    | Response(now: nat, keepAlive: bool, reconnected: bool)
    | ReadFails(reconnected: bool)

  /** The clock never runs backwards. */
  predicate InTime(clock: nat, events: seq<Event>)
    decreases |events|
  {
    events != [] ==>
      match events[0]
      case CanWrite(now, later, _, _, _) => clock <= now <= later && InTime(later, events[1..])
      case TimerFires(now) => clock <= now && InTime(now, events[1..])
      case Response(now, _, _) => clock <= now && InTime(now, events[1..])
      case _ => InTime(clock, events[1..])
  }

  lemma {:induction false} InTimeSooner(clock: nat, later: nat, events: seq<Event>)
    requires clock <= later && InTime(later, events)
    ensures InTime(clock, events)
    decreases |events|
  {
    if events != [] && (events[0].CanConnect? || events[0].ReadFails?) { InTimeSooner(clock, later, events[1..]); }
  }

  predicate Quiet(events: seq<Event>) { forall e <- events :: !e.Response? && !e.ReadFails? }

  /** Over every run, no batch is started ahead of its time. If each response is `checked`
      to be expected, all latencies that are recorded are corrected upwards, and the
      connection always waits for something that can happen. A connection that is stalled
      stays so. Events that cannot happen are passed over. */
  method Serve(c: Connection, events: seq<Event>, checked: bool)
    requires c.Valid() && InTime(c.clock, events) && (checked ==> c.Recorded() && c.Busy())
    modifies c
    ensures c.Valid() && (checked ==> c.Recorded() && c.Busy())
    ensures old(c.Stalled()) && Quiet(events) ==> c.Stalled() && c.batches == old(c.batches)
    decreases |events|
  {
    assert c.Busy() && c.Expected() ==> c.batches != [];
    hide Connection.Paced, Connection.Corrected, Connection.Counted, Due;
    if events == [] { return; }
    match events[0] {
      case CanConnect(outcome, reconnected) =>
        if c.handler == Connected { c.SocketConnected(outcome, reconnected); }
      case CanWrite(now, later, len, outcome, reconnected) =>
        if c.handler == Writeable && len > 0 &&
          (outcome.Ok? ==> outcome.n <= if c.written == 0 then len else c.length - c.written) {
          c.SocketWriteable(now, later, len, outcome, reconnected);
        }
        InTimeSooner(c.clock, later, events[1..]);
      case TimerFires(now) =>
        if c.timers > 0 { c.DelayRequest(now); }
        InTimeSooner(c.clock, now, events[1..]);
      case Response(now, keepAlive, reconnected) =>
        if c.alive && (checked ==> c.Expected()) { c.ResponseComplete(now, keepAlive, reconnected); }
        InTimeSooner(c.clock, now, events[1..]);
      case ReadFails(reconnected) =>
        if c.alive { c.Reconnect(reconnected); }
    }
    Serve(c, events[1..], checked);
  }

  /** The requests for which the rate leaves room up to so many microseconds. */
  function Room(throughput: real, elapsed: int): real { throughput * (elapsed + 1) as real }

  lemma {:induction false} BatchInTime(c: Connection, k: nat)
    requires c.Valid() && k < |c.batches|
    ensures c.threadStart <= c.batches[k].at <= c.clock
    ensures Requests(k, c.pipeline) as real < Room(c.throughput, c.batches[k].at - c.threadStart)
  {
    hide Due;
    var b := c.batches[k];
    assert b in c.batches && b.OnPace(c.threadStart, c.throughput);
    DueIs(b.complete, c.throughput, b.at - c.threadStart);
  }

  lemma {:induction false} RoomGrows(throughput: real, x: int, y: int)
    requires throughput > 0.0 && x <= y
    ensures Room(throughput, x) <= Room(throughput, y)
  {
    if x < y { Scaled((x + 1) as real, (y + 1) as real, throughput); }
  }

  /** At no time are more requests sent than the rate has room for, and one batch: not when
      a batch is started, and not at any later time. */
  lemma {:induction false} RateKept(c: Connection)
    requires c.Valid()
    ensures forall k {:trigger c.batches[k]} :: 0 <= k < |c.batches| ==>
      Requests(k, c.pipeline) as real < Room(c.throughput, c.batches[k].at - c.threadStart)
    ensures |c.batches| > 0 ==>
      Requests(|c.batches|, c.pipeline) as real < Room(c.throughput, c.clock - c.threadStart) + c.pipeline as real
  {
    assert c.throughput > 0.0;
    hide Connection.Valid, Room;
    forall k {:trigger c.batches[k]} | 0 <= k < |c.batches|
      ensures Requests(k, c.pipeline) as real < Room(c.throughput, c.batches[k].at - c.threadStart)
    {
      BatchInTime(c, k);
    }
    if |c.batches| > 0 {
      var n := |c.batches| - 1;
      BatchInTime(c, n);
      RoomGrows(c.throughput, c.batches[n].at - c.threadStart, c.clock - c.threadStart);
    }
  }

  /** A response that comes while its request is still being written stalls a connection:
      when the rest is written, nothing is waited for. */
  method EarlyStall() returns (c: Connection)
    ensures c.Valid() && c.Stalled() && c.batches != []
  {
    c := new Connection(1.0, 1, true, 1000, 10, 0, true);
    c.SocketConnected(Ok(0), true);
    assert Due(0, 1.0) == 0;
    c.SocketWriteable(0, 0, 10, Ok(4), true);
    assert !c.Expected();
    c.ResponseComplete(1, true, true);
    c.SocketWriteable(1, 1, 10, Ok(6), true);
  }
}
