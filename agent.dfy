/** `run_agent` as the loop it is written as: one accumulator overwritten
    event by event inside a single try block, proved to compute the fold of
    the Reducer module and to emit its log. */
module Agent {
  import opened Events
  import opened Reducer

  /** The body of the loop for one event (lines 53-77): `failed` when it
      raises, otherwise the new accumulator and the record it logs. */
  method HandleEvent(h: Host, response: Value, event: Event) returns (failed: bool, next: Value, record: LogRecord)
    ensures failed <==> Step(h, response, event).None?
    ensures !failed ==> Step(h, response, event) == Some(next) && record == Record(event)
  {
    next, record := response, ExceptionRecord;
    if HasKey(event, "chunk") {
      var payload := Lookup(event, "chunk");
      if payload.Dict? && HasKey(payload.fields, "bytes") && Lookup(payload.fields, "bytes").Bytes? {
        var decoded := h.decodeUtf8(Lookup(payload.fields, "bytes").bytes);
        if decoded.Some? {
          failed, next, record := false, Text(decoded.value), LogRecord(Info, "chunk");
        } else {
          failed := true;
        }
      } else {
        failed := true;
      }
    } else if HasKey(event, "trace") {
      if Serializable(h, Lookup(event, "trace")) {
        failed, record := false, LogRecord(Info, "trace");
      } else {
        failed := true;
      }
    } else {
      var errorKey := FirstKeyIn(event, ErrorLevelKeys);
      if errorKey.Some? {
        failed, next, record := HandleServiceError(h, response, event, Error, errorKey.value);
      } else {
        var warningKey := FirstKeyIn(event, WarningLevelKeys);
        if warningKey.Some? {
          failed, next, record := HandleServiceError(h, response, event, Warning, warningKey.value);
        } else {
          failed, next, record := false, Text(UnexpectedText), LogRecord(Warning, "unexpected");
        }
      }
    }
  }

  /** `error_msg = event[key].get('message', str(event[key]))`, logged at
      `level` and stored (lines 64-67 and 69-72). */
  method HandleServiceError(h: Host, response: Value, event: Event, level: Level, key: string)
    returns (failed: bool, next: Value, record: LogRecord)
    requires HasKey(event, key)
    ensures failed <==> !Lookup(event, key).Dict?
    ensures !failed ==> Some(next) == ServiceMessage(h, Lookup(event, key)) && record == LogRecord(level, key)
    ensures !failed && HasKey(Lookup(event, key).fields, "message") ==> next == Lookup(Lookup(event, key).fields, "message")
  {
    next, record := response, ExceptionRecord;
    var payload := Lookup(event, key);
    if payload.Dict? {
      var message :=
        if HasKey(payload.fields, "message") then Lookup(payload.fields, "message")
        else Text(h.render(payload));
      failed, next, record := false, message, LogRecord(level, key);
    } else {
      failed := true;
    }
  }

  /** One pass of the loop body over `events[i]`, with the log so far:
      either the handler's exception record ends the log and the fold raises,
      or the event's record is appended and the fold continues from `next`. */
  method Iterate(h: Host, response: Value, events: seq<Event>, i: nat, interrupted: bool, log: seq<LogRecord>)
    returns (failed: bool, next: Value, log': seq<LogRecord>)
    requires i < |events|
    ensures failed ==>
      Reduce(h, response, events[i..], interrupted) == Raised &&
      log' == log + History(h, response, events[i..], interrupted) &&
      log' == log + [ExceptionRecord]
    ensures !failed ==> Step(h, response, events[i]) == Some(next) && log' == log + [Record(events[i])]
    ensures !failed ==>
      Reduce(h, response, events[i..], interrupted) == Reduce(h, next, events[i + 1..], interrupted) &&
      log + History(h, response, events[i..], interrupted) == log' + History(h, next, events[i + 1..], interrupted)
  {
    var record;
    failed, next, record := HandleEvent(h, response, events[i]);
    assert events[i..][0] == events[i] && events[i..][1..] == events[i + 1..];
    if failed {
      // The except clause: log the exception and raise it again.
      log' := log + [ExceptionRecord];
    } else {
      ghost var rest := History(h, next, events[i + 1..], interrupted);
      assert log + ([record] + rest) == (log + [record]) + rest;
      log' := log + [record];
    }
  }

  /** Everything from the lookup of `completion` to the final return. The
      service call that produces `completion` is not part of this method. */
  method RunAgent(h: Host, completion: Option<Stream>) returns (outcome: Outcome, log: seq<LogRecord>)
    ensures outcome == Run(h, completion)
    ensures log == RunLog(h, completion)
    ensures completion.None? ==> outcome == Returned(Text(NoResponseText)) && log == [NoResponseRecord]
  {
    if completion.None? {
      log := [NoResponseRecord];
      return Returned(Text(NoResponseText)), log;
    }
    outcome, log := ConsumeStream(h, completion.value);
  }

  /** The try block around `for event in event_stream` and its handler: the
      accumulator starts as the empty string and is overwritten event by
      event; an exception is logged and raised again. */
  method ConsumeStream(h: Host, stream: Stream) returns (outcome: Outcome, log: seq<LogRecord>)
    ensures outcome == Reduce(h, InitialResponse, stream.events, stream.interrupted)
    ensures log == History(h, InitialResponse, stream.events, stream.interrupted)
  {
    var response := InitialResponse;
    var events := stream.events;
    var interrupted := stream.interrupted;
    ghost var whole := Reduce(h, InitialResponse, events, interrupted);
    ghost var wholeLog := History(h, InitialResponse, events, interrupted);
    log := [];
    var i := 0;
    assert events[i..] == events;
    while i < |events|
      invariant 0 <= i <= |events|
      invariant whole == Reduce(h, response, events[i..], interrupted)
      invariant wholeLog == log + History(h, response, events[i..], interrupted)
    {
      var failed, next;
      failed, next, log := Iterate(h, response, events, i, interrupted, log);
      if failed {
        return Raised, log;
      }
      response := next;
      i := i + 1;
    }
    assert events[i..] == [];
    if interrupted {
      // Pulling the next event raised: the same except clause.
      log := log + [ExceptionRecord];
      return Raised, log;
    }
    return Returned(response), log;
  }
}
