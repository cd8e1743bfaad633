/**
 * The channel wrapper that records every call in the history of the
 * simulation: a start record when the call is made and, when its result
 * arrives, an optional trace label followed by exactly one outcome record.
 * A call that failed with an error that may hide a completed call (a
 * transport or execution error) is recorded as lost; any other error removes
 * the call from the history.
 *
 * The history recorder's own storage and the futures machinery are not part
 * of this model; the recorder is a log of the records it is given.
 */
module HistoryChannels {
  import opened Wrappers
  import opened ByteStrings
  import opened Channels

  type Cookie = nat
  type TraceId = string

  datatype ErrorCode = TransportError | ExecutionError | OtherError(code: nat)

  datatype CallResult = Ok(value: BytesValue) | Err(error: ErrorCode)

  datatype Record =
    | CallStarted(cookie: Cookie, methodName: string, input: BytesValue)
    | LabelAdded(cookie: Cookie, traceId: TraceId)
    | CallCompleted(cookie: Cookie, value: BytesValue)
    | CallLost(cookie: Cookie)
    | CallRemoved(cookie: Cookie)

  /** The global history recorder: the records it was given and the next cookie it hands out. */
  class Recorder {
    var records: seq<Record>
    var nextCookie: Cookie

    constructor ()
      ensures records == [] && nextCookie == 0
    {
      records := [];
      nextCookie := 0;
    }

    method Start(methodName: string, input: BytesValue) returns (cookie: Cookie)
      modifies this
      ensures cookie == old(nextCookie) && nextCookie == cookie + 1
      ensures records == old(records) + [CallStarted(cookie, methodName, input)]
    {
      cookie := nextCookie;
      nextCookie := nextCookie + 1;
      records := records + [CallStarted(cookie, methodName, input)];
    }

    method Add(r: Record)
      modifies this
      ensures records == old(records) + [r] && nextCookie == old(nextCookie)
    {
      records := records + [r];
    }
  }

  /** Errors after which the call may still have taken effect. */
  predicate MaybeCompleted(e: ErrorCode) {
    e == TransportError || e == ExecutionError
  }

  /** The outcome record for a finished call. */
  function Outcome(cookie: Cookie, result: CallResult): Record {
    match result
    case Ok(value) => CallCompleted(cookie, value)
    case Err(e) => if MaybeCompleted(e) then CallLost(cookie) else CallRemoved(cookie)
  }

  /** The label record, when there is a current trace id. */
  function Label(cookie: Cookie, traceId: Option<TraceId>): seq<Record> {
    if traceId.Some? then [LabelAdded(cookie, traceId.value)] else []
  }

  /**
   * Exactly one of completed, lost or removed, about the right call:
   * completed with the value iff the call succeeded, lost iff it failed with
   * a transport or execution error, removed iff it failed otherwise.
   */
  lemma OutcomeClassifies(cookie: Cookie, result: CallResult)
    ensures Outcome(cookie, result).cookie == cookie
    ensures Outcome(cookie, result).CallCompleted? <==> result.Ok?
    ensures result.Ok? ==> Outcome(cookie, result) == CallCompleted(cookie, result.value)
    ensures Outcome(cookie, result).CallLost? <==>
              result.Err? && (result.error == TransportError || result.error == ExecutionError)
    ensures Outcome(cookie, result).CallRemoved? <==> result.Err? && result.error.OtherError?
    ensures !Outcome(cookie, result).CallStarted? && !Outcome(cookie, result).LabelAdded?
  {
  }

  class HistoryChannel {
    const impl: Channel
    const recorder: Recorder

    constructor (impl: Channel, recorder: Recorder)
      ensures this.impl == impl && this.recorder == recorder
    {
      this.impl := impl;
      this.recorder := recorder;
    }

    method Close()
      modifies impl.log
      ensures impl.log.effects == old(impl.log.effects) + [Closed(impl.id)]
    {
      impl.Close();
    }

    function Peer(): (peer: string)
      ensures peer == impl.peer
    {
      impl.Peer()
    }

    /**
     * Records the start of the call, then forwards it; returns the cookie
     * under which the result is to be recorded.
     */
    method Call(methodName: string, input: BytesValue) returns (cookie: Cookie)
      modifies recorder, impl.log
      ensures cookie == old(recorder.nextCookie) && recorder.nextCookie == cookie + 1
      ensures recorder.records == old(recorder.records) + [CallStarted(cookie, methodName, input)]
      ensures impl.log.effects == old(impl.log.effects) + [Forwarded(impl.id, methodName, input)]
    {
      cookie := recorder.Start(methodName, input);
      impl.Call(methodName, input);
    }
  }

  /**
   * Called when the result of the call with `cookie` arrives; `traceId` is
   * the trace id current at that moment, if any.
   */
  method RecordCallResult(recorder: Recorder, cookie: Cookie, result: CallResult, traceId: Option<TraceId>)
    modifies recorder
    ensures recorder.records == old(recorder.records) + Label(cookie, traceId) + [Outcome(cookie, result)]
    ensures recorder.nextCookie == old(recorder.nextCookie)
  {
    if traceId.Some? {
      recorder.Add(LabelAdded(cookie, traceId.value));
    }
    if result.Ok? {
      recorder.Add(CallCompleted(cookie, result.value));
    } else {
      if MaybeCompleted(result.error) {
        recorder.Add(CallLost(cookie));
      } else {
        recorder.Add(CallRemoved(cookie));
      }
    }
  }

  /**
   * What recording a finished call appends: at most one label, present iff
   * there is a trace id, and it comes before exactly one outcome, last.
   */
  lemma RecordedShape(cookie: Cookie, result: CallResult, traceId: Option<TraceId>)
    ensures var added := Label(cookie, traceId) + [Outcome(cookie, result)];
      && |added| == (if traceId.Some? then 2 else 1)
      && (traceId.Some? <==> added[0].LabelAdded?)
      && (traceId.Some? ==> added[0] == LabelAdded(cookie, traceId.value))
      && added[|added| - 1] == Outcome(cookie, result)
      && (forall k :: 0 <= k < |added| - 1 ==> added[k].LabelAdded?)
  {
  }
}
