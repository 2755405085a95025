/** The stream reducer of `run_agent` as pure functions: how one event is
    classified, how it changes the response accumulator, what it logs, and the
    left fold of those steps over the whole stream. */
module Reducer {
  import opened Events

  /** The library behaviour the reducer relies on but that is not modelled:
      `bytes.decode('utf-8')` (None when the bytes are not valid UTF-8),
      Python's `str()` of a payload, and whether `json.dumps` accepts an
      opaque object. */
  datatype Host = Host(
    decodeUtf8: seq<bv8> -> Option<string>,
    render: Value -> string,
    opaqueSerializable: nat -> bool)

  /** The completion handed back by the service call: the events it yields,
      in order, and whether pulling the next event after them raises instead
      of ending the iteration. */
  datatype Stream = Stream(events: seq<Event>, interrupted: bool)

  /** What a call of `run_agent` does: return a value, or raise. */
  datatype Outcome = Returned(response: Value) | Raised

  datatype Level = Info | Warning | Error

  /** One call of the logger: its severity and what it was about (the event
      kind or service exception key); the formatted text is not modelled. */
  datatype LogRecord = LogRecord(level: Level, tag: string)

  /** The closed set of shapes an event is sorted into. */
  datatype Kind = Chunk | Trace | ServiceError(level: Level, key: string) | Unrecognized

  const NoResponseText := "No response from the agent"
  const UnexpectedText := "Unexpected error occurred"

  /** The initial value of the accumulator, the empty string. */
  const InitialResponse := Text("")

  const NoResponseRecord := LogRecord(Error, NoResponseText)
  const ExceptionRecord := LogRecord(Error, UnexpectedText)

  /** The if/elif chain: `chunk`, then `trace`, then the first error-level key,
      then the first warning-level key, otherwise unrecognized. */
  function Classify(e: Event): (k: Kind)
    ensures k == Chunk <==> HasKey(e, "chunk")
    ensures k == Trace <==> !HasKey(e, "chunk") && HasKey(e, "trace")
    ensures k.ServiceError? ==> !HasKey(e, "chunk") && !HasKey(e, "trace") && HasKey(e, k.key)
    ensures k.ServiceError? ==> (k.level == Error <==> k.key in ErrorLevelKeys)
    ensures k.ServiceError? ==> (k.level == Warning <==> k.key in WarningLevelKeys)
    ensures k.ServiceError? ==> k.level != Info
    ensures k.ServiceError? && k.level == Error ==>
      forall j :: 0 <= j < IndexOf(e, k.key) ==> e[j].0 !in ErrorLevelKeys
    ensures k.ServiceError? && k.level == Warning ==>
      (forall j :: 0 <= j < |e| ==> e[j].0 !in ErrorLevelKeys) &&
      (forall j :: 0 <= j < IndexOf(e, k.key) ==> e[j].0 !in WarningLevelKeys)
    ensures k == Unrecognized <==>
      !HasKey(e, "chunk") && !HasKey(e, "trace") &&
      forall j :: 0 <= j < |e| ==> e[j].0 !in ErrorLevelKeys && e[j].0 !in WarningLevelKeys
  {
    if HasKey(e, "chunk") then Chunk
    else if HasKey(e, "trace") then Trace
    else match FirstKeyIn(e, ErrorLevelKeys)
      case Some(key) => ServiceError(Error, key)
      case None =>
        match FirstKeyIn(e, WarningLevelKeys)
        case Some(key) => ServiceError(Warning, key)
        case None => Unrecognized
  }

  /** Whether `json.dumps` (without a custom encoder) accepts a value: bytes
      are refused, strings accepted, dictionaries when all their values are. */
  predicate Serializable(h: Host, v: Value): (ok: bool)
    ensures v.Bytes? ==> !ok
    ensures ok && v.Dict? ==> forall i :: 0 <= i < |v.fields| ==> !v.fields[i].1.Bytes?
  {
    match v
    case Bytes(_) => false
    case Text(_) => true
    case Opaque(id) => h.opaqueSerializable(id)
    case Dict(fs) => forall i :: 0 <= i < |fs| ==> Serializable(h, fs[i].1)
  }

  /** The event carries a `trace` payload that `json.dumps` accepts. */
  predicate TraceSerializable(h: Host, e: Event): (ok: bool)
    ensures ok ==> HasKey(e, "trace") && !Lookup(e, "trace").Bytes?
  {
    HasKey(e, "trace") && Serializable(h, Lookup(e, "trace"))
  }

  /** `event['chunk']['bytes'].decode('utf-8')`; None where Python raises
      (the payload is no dictionary, has no `bytes`, is not bytes, or does not
      decode). */
  function ChunkText(h: Host, payload: Value): (r: Option<string>)
    ensures r.Some? ==> payload.Dict? && HasKey(payload.fields, "bytes") && Lookup(payload.fields, "bytes").Bytes?
    ensures forall b :: payload.Dict? && HasKey(payload.fields, "bytes") && Lookup(payload.fields, "bytes") == Bytes(b) ==>
      r == h.decodeUtf8(b)
  {
    if payload.Dict? && HasKey(payload.fields, "bytes") then
      var data := Lookup(payload.fields, "bytes");
      if data.Bytes? then h.decodeUtf8(data.bytes) else None
    else None
  }

  /** `payload.get('message', str(payload))`; None where `.get` raises
      because the payload is no dictionary. */
  function ServiceMessage(h: Host, payload: Value): (r: Option<Value>)
    ensures r.Some? <==> payload.Dict?
    ensures r.Some? && HasKey(payload.fields, "message") ==> r.value == Lookup(payload.fields, "message")
    ensures r.Some? && !HasKey(payload.fields, "message") ==> r.value == Text(h.render(payload))
  {
    if payload.Dict? then
      Some(if HasKey(payload.fields, "message") then Lookup(payload.fields, "message")
           else Text(h.render(payload)))
    else None
  }

  /** One iteration of the loop: the new accumulator, or None when the
      iteration raised. */
  function Step(h: Host, acc: Value, e: Event): (r: Option<Value>)
    ensures Classify(e) == Trace ==> (r.Some? <==> TraceSerializable(h, e)) && (r.Some? ==> r.value == acc)
    ensures Classify(e) == Chunk && r.Some? ==> r.value.Text?
    ensures Classify(e) == Unrecognized ==> r == Some(Text(UnexpectedText))
    ensures Classify(e).ServiceError? ==> (r.None? <==> !Lookup(e, Classify(e).key).Dict?)
  {
    match Classify(e)
    case Chunk =>
      (match ChunkText(h, Lookup(e, "chunk"))
       case Some(s) => Some(Text(s))
       case None => None)
    case Trace => if TraceSerializable(h, e) then Some(acc) else None
    case ServiceError(_, key) => ServiceMessage(h, Lookup(e, key))
    case Unrecognized => Some(Text(UnexpectedText))
  }

  /** What a successfully handled event logs. */
  function Record(e: Event): (rec: LogRecord)
    ensures rec != ExceptionRecord
    ensures rec.level == Error ==> rec.tag in ErrorLevelKeys && HasKey(e, rec.tag)
    ensures rec.level == Info <==> HasKey(e, "chunk") || HasKey(e, "trace")
    ensures rec.level == Error <==> Classify(e).ServiceError? && Classify(e).key in ErrorLevelKeys
    ensures rec.level == Warning <==>
      (Classify(e).ServiceError? && Classify(e).key in WarningLevelKeys) || Classify(e) == Unrecognized
  {
    match Classify(e)
    case Chunk => LogRecord(Info, "chunk")
    case Trace => LogRecord(Info, "trace")
    case ServiceError(level, key) => LogRecord(level, key)
    case Unrecognized => LogRecord(Warning, "unexpected")
  }

  /** The loop over the remaining events from accumulator `acc`; an exception
      in any step, or an interrupted stream, ends in Raised. */
  function Reduce(h: Host, acc: Value, events: seq<Event>, interrupted: bool): (r: Outcome)
    decreases |events|
    ensures interrupted ==> r == Raised
  {
    if events == [] then (if interrupted then Raised else Returned(acc))
    else match Step(h, acc, events[0])
      case None => Raised
      case Some(next) => Reduce(h, next, events[1..], interrupted)
  }

  /** The log records the same loop emits, ending with the exception record
      when it raised. */
  function History(h: Host, acc: Value, events: seq<Event>, interrupted: bool): (log: seq<LogRecord>)
    decreases |events|
    ensures |log| <= |events| + 1
    ensures interrupted ==> |log| > 0 && log[|log| - 1] == ExceptionRecord
  {
    if events == [] then (if interrupted then [ExceptionRecord] else [])
    else match Step(h, acc, events[0])
      case None => [ExceptionRecord]
      case Some(next) => [Record(events[0])] + History(h, next, events[1..], interrupted)
  }

  /** `run_agent` from the moment the completion is known. */
  function Run(h: Host, completion: Option<Stream>): (r: Outcome)
    ensures completion.None? ==> r == Returned(Text(NoResponseText))
    ensures completion == Some(Stream([], false)) ==> r == Returned(Text(""))
    ensures completion.Some? && completion.value.interrupted ==> r == Raised
  {
    match completion
    case None => Returned(Text(NoResponseText))
    case Some(s) => Reduce(h, InitialResponse, s.events, s.interrupted)
  }

  /** The log records of `run_agent` from the same moment. */
  function RunLog(h: Host, completion: Option<Stream>): (log: seq<LogRecord>)
    ensures completion.None? ==> log == [NoResponseRecord]
    ensures completion.Some? ==> |log| <= |completion.value.events| + 1
    ensures completion.Some? && completion.value.interrupted ==> |log| > 0 && log[|log| - 1] == ExceptionRecord
  {
    match completion
    case None => [NoResponseRecord]
    case Some(s) => History(h, InitialResponse, s.events, s.interrupted)
  }
}
