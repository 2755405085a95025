/** What the reducer of `run_agent` guarantees, stated over the pure model. */
module ReducerProperties {
  import opened Events
  import opened Reducer

  /** A stream of one event returns what its step sets, and logs its record. */
  lemma SingleEvent(h: Host, e: Event)
    ensures Run(h, Some(Stream([e], false))) ==
      match Step(h, InitialResponse, e)
      case None => Raised
      case Some(v) => Returned(v)
    ensures RunLog(h, Some(Stream([e], false))) ==
      match Step(h, InitialResponse, e)
      case None => [ExceptionRecord]
      case Some(v) => [Record(e)]
  {
    var single: seq<Event> := [e];
    assert single[0] == e && single[1..] == [];
    assert Run(h, Some(Stream(single, false))) == Reduce(h, InitialResponse, single, false);
    match Step(h, InitialResponse, e)
    case None =>
    case Some(v) =>
      assert Reduce(h, InitialResponse, single, false) == Reduce(h, v, [], false);
      assert History(h, InitialResponse, single, false) == [Record(e)] + History(h, v, [], false);
  }

  /** The two severity sets share no key. */
  lemma KeySetsDisjoint()
    ensures ErrorLevelKeys * WarningLevelKeys == {}
  {
  }

  /** An absent completion returns the fixed text and logs one error, without
      looking at any event. */
  lemma AbsentStream(h: Host)
    ensures Run(h, None) == Returned(Text(NoResponseText))
    ensures RunLog(h, None) == [LogRecord(Error, NoResponseText)]
  {
  }

  /** A present stream that yields nothing returns the initial empty string. */
  lemma EmptyStream(h: Host)
    ensures Run(h, Some(Stream([], false))) == Returned(Text(""))
    ensures RunLog(h, Some(Stream([], false))) == []
  {
  }

  /** A chunk event whose payload holds bytes `b` under `bytes` (beside any
      other fields) sets the accumulator to their UTF-8 decoding, or raises
      when they do not decode; alone in a stream, that is the result. */
  lemma SingleChunk(h: Host, acc: Value, e: Event, fs: Fields, b: seq<bv8>)
    requires HasKey(e, "chunk") && Lookup(e, "chunk") == Dict(fs)
    requires HasKey(fs, "bytes") && Lookup(fs, "bytes") == Bytes(b)
    ensures h.decodeUtf8(b).Some? ==>
      Step(h, acc, e) == Some(Text(h.decodeUtf8(b).value)) &&
      Run(h, Some(Stream([e], false))) == Returned(Text(h.decodeUtf8(b).value)) &&
      RunLog(h, Some(Stream([e], false))) == [LogRecord(Info, "chunk")]
    ensures h.decodeUtf8(b).None? ==>
      Step(h, acc, e) == None &&
      Run(h, Some(Stream([e], false))) == Raised &&
      RunLog(h, Some(Stream([e], false))) == [ExceptionRecord]
  {
    SingleEvent(h, e);
    assert ChunkText(h, Dict(fs)) == h.decodeUtf8(b);
  }

  /** A service exception event whose payload has a `message` field (beside
      any other fields) sets the accumulator to that message, and logs its key
      at the severity of the key's set; alone in a stream, that is the result. */
  lemma SingleServiceError(h: Host, acc: Value, e: Event, level: Level, key: string, fs: Fields)
    requires Classify(e) == ServiceError(level, key)
    requires Lookup(e, key) == Dict(fs) && HasKey(fs, "message")
    ensures Step(h, acc, e) == Some(Lookup(fs, "message"))
    ensures Run(h, Some(Stream([e], false))) == Returned(Lookup(fs, "message"))
    ensures RunLog(h, Some(Stream([e], false))) == [LogRecord(level, key)]
    ensures level == (if key in ErrorLevelKeys then Error else Warning)
  {
    SingleEvent(h, e);
  }

  /** The same event without a `message` field sets the accumulator to the
      stringified payload. */
  lemma ServiceErrorWithoutMessage(h: Host, acc: Value, e: Event, level: Level, key: string, fs: Fields)
    requires Classify(e) == ServiceError(level, key)
    requires Lookup(e, key) == Dict(fs) && !HasKey(fs, "message")
    ensures Step(h, acc, e) == Some(Text(h.render(Dict(fs))))
    ensures Run(h, Some(Stream([e], false))) == Returned(Text(h.render(Dict(fs))))
  {
    SingleEvent(h, e);
  }

  /** The smallest service exception event, `{key: {message: m}}`, is
      classified by its key's set. */
  lemma ServiceErrorEvent(key: string, message: Value)
    requires key in ErrorLevelKeys + WarningLevelKeys
    ensures var e := [(key, Dict([("message", message)]))];
      Classify(e) == ServiceError(if key in ErrorLevelKeys then Error else Warning, key) &&
      Lookup(e, key) == Dict([("message", message)])
  {
    var e := [(key, Dict([("message", message)]))];
    assert e[0].0 == key;
    assert !HasKey(e, "chunk") && !HasKey(e, "trace");
  }

  /** An event that matches no known key returns the fixed unexpected text and
      is logged at warning level. */
  lemma UnrecognizedEvent(h: Host, e: Event)
    requires !HasKey(e, "chunk") && !HasKey(e, "trace")
    requires forall j :: 0 <= j < |e| ==> e[j].0 !in ErrorLevelKeys + WarningLevelKeys
    ensures Run(h, Some(Stream([e], false))) == Returned(Text(UnexpectedText))
    ensures RunLog(h, Some(Stream([e], false))) == [LogRecord(Warning, "unexpected")]
  {
    SingleEvent(h, e);
    assert Classify(e) == Unrecognized;
  }

  /** A trace never changes the accumulator: it either keeps it or raises. */
  lemma TraceKeepsResponse(h: Host, acc: Value, e: Event)
    requires Classify(e) == Trace
    ensures Step(h, acc, e) == Some(acc) <==> TraceSerializable(h, e)
    ensures Step(h, acc, e) != Some(acc) ==> Step(h, acc, e) == None
  {
  }

  /** Every event other than a trace sets the accumulator regardless of its
      previous value. */
  lemma StepIgnoresAccumulator(h: Host, a1: Value, a2: Value, e: Event)
    requires Classify(e) != Trace
    ensures Step(h, a1, e) == Step(h, a2, e)
  {
  }

  /** A stream of traces only returns the accumulator it started with, unless
      one of the traces cannot be serialised. */
  lemma {:induction false} TracesOnly(h: Host, acc: Value, events: seq<Event>)
    requires forall i :: 0 <= i < |events| ==> Classify(events[i]) == Trace
    ensures Reduce(h, acc, events, false) == Returned(acc) <==>
      forall i :: 0 <= i < |events| ==> TraceSerializable(h, events[i])
    ensures Reduce(h, acc, events, false) != Returned(acc) ==> Reduce(h, acc, events, false) == Raised
  {
    if events != [] {
      TraceKeepsResponse(h, acc, events[0]);
      TracesOnly(h, acc, events[1..]);
      assert forall i :: 1 <= i < |events| ==> events[i] == events[1..][i - 1];
    }
  }

  /** A present stream of traces only returns the empty string. */
  lemma TraceOnlyStream(h: Host, events: seq<Event>)
    requires forall i :: 0 <= i < |events| ==> Classify(events[i]) == Trace
    requires forall i :: 0 <= i < |events| ==> TraceSerializable(h, events[i])
    ensures Run(h, Some(Stream(events, false))) == Returned(Text(""))
  {
    TracesOnly(h, InitialResponse, events);
  }

  /** Running two stretches of the stream one after the other is running the
      first and continuing from its accumulator. */
  lemma {:induction false} ReduceAppend(h: Host, acc: Value, first: seq<Event>, rest: seq<Event>, interrupted: bool)
    decreases |first|
    ensures Reduce(h, acc, first + rest, interrupted) ==
      match Reduce(h, acc, first, false)
      case Raised => Raised
      case Returned(mid) => Reduce(h, mid, rest, interrupted)
  {
    if first == [] {
      assert first + rest == rest;
    } else {
      assert (first + rest)[0] == first[0];
      assert (first + rest)[1..] == first[1..] + rest;
      match Step(h, acc, first[0])
      case None =>
      case Some(next) => ReduceAppend(h, next, first[1..], rest, interrupted);
    }
  }

  /** An event whose step raises, once reached, makes the whole run raise:
      no later event can turn the failure into a returned value. */
  lemma FailureRaises(h: Host, acc: Value, events: seq<Event>, i: nat, interrupted: bool)
    requires i < |events|
    requires Reduce(h, acc, events[..i], false).Returned?
    requires Step(h, Reduce(h, acc, events[..i], false).response, events[i]) == None
    ensures Reduce(h, acc, events, interrupted) == Raised
  {
    assert events == events[..i] + events[i..];
    ReduceAppend(h, acc, events[..i], events[i..], interrupted);
  }

  /** A run of traces after an accumulator value keeps it (or raises). */
  lemma {:induction false} TrailingTraces(h: Host, acc: Value, events: seq<Event>)
    requires forall i :: 0 <= i < |events| ==> Classify(events[i]) == Trace
    requires Reduce(h, acc, events, false).Returned?
    ensures Reduce(h, acc, events, false) == Returned(acc)
  {
    TracesOnly(h, acc, events);
  }

  /** Last write wins: when the run returns, its value is what the last
      non-trace event sets the accumulator to, and neither the events before
      it nor the initial accumulator have any influence. */
  lemma LastWriteWins(h: Host, acc: Value, events: seq<Event>, i: nat)
    requires i < |events| && Classify(events[i]) != Trace
    requires forall j :: i < j < |events| ==> Classify(events[j]) == Trace
    requires Reduce(h, acc, events, false).Returned?
    ensures forall a :: Step(h, a, events[i]) == Some(Reduce(h, acc, events, false).response)
    ensures forall a :: Reduce(h, a, events[i..], false) == Reduce(h, acc, events, false)
  {
    assert events == events[..i] + events[i..];
    ReduceAppend(h, acc, events[..i], events[i..], false);
    var mid := Reduce(h, acc, events[..i], false).response;
    var tail := events[i + 1..];
    assert events[i..][0] == events[i] && events[i..][1..] == tail;
    forall j | 0 <= j < |tail| ensures Classify(tail[j]) == Trace {
      assert tail[j] == events[i + 1 + j];
    }
    var next := Step(h, mid, events[i]).value;
    TrailingTraces(h, next, tail);
    forall a ensures Step(h, a, events[i]) == Some(next) {
      StepIgnoresAccumulator(h, a, mid, events[i]);
    }
  }

  /** When no event other than a trace occurs, a returned value is the
      initial accumulator. */
  lemma NoWriteKeepsInitial(h: Host, events: seq<Event>)
    requires forall j :: 0 <= j < |events| ==> Classify(events[j]) == Trace
    requires Run(h, Some(Stream(events, false))).Returned?
    ensures Run(h, Some(Stream(events, false))) == Returned(Text(""))
  {
    TrailingTraces(h, InitialResponse, events);
  }

  /** A run that returns logged every event once, in order, at its kind's
      severity. */
  lemma {:induction false} HistoryOnReturn(h: Host, acc: Value, events: seq<Event>)
    decreases |events|
    requires Reduce(h, acc, events, false).Returned?
    ensures |History(h, acc, events, false)| == |events|
    ensures forall i :: 0 <= i < |events| ==> History(h, acc, events, false)[i] == Record(events[i])
  {
    if events != [] {
      var next := Step(h, acc, events[0]).value;
      HistoryOnReturn(h, next, events[1..]);
      assert forall i :: 1 <= i < |events| ==> events[i] == events[1..][i - 1];
    }
  }

  /** A run that raises logs the records of the events it handled, in order,
      and then the exception record. */
  lemma {:induction false} HistoryOnRaise(h: Host, acc: Value, events: seq<Event>, interrupted: bool)
    decreases |events|
    requires Reduce(h, acc, events, interrupted) == Raised
    ensures var log := History(h, acc, events, interrupted);
      0 < |log| <= |events| + 1 && log[|log| - 1] == ExceptionRecord &&
      forall j :: 0 <= j < |log| - 1 ==> log[j] == Record(events[j])
  {
    if events != [] {
      match Step(h, acc, events[0])
      case None =>
      case Some(next) =>
        HistoryOnRaise(h, next, events[1..], interrupted);
        var log := History(h, acc, events, interrupted);
        var rest := History(h, next, events[1..], interrupted);
        assert log == [Record(events[0])] + rest;
        forall j | 1 <= j < |log| - 1 ensures log[j] == Record(events[j]) {
          assert log[j] == rest[j - 1] && events[j] == events[1..][j - 1];
        }
    }
  }
}
