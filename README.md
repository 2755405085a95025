# run_agent stream reducer, modelled in Dafny

`run_agent` in `source/run_agent.py` calls a remote conversational agent and reads the event stream
(`completion`) it returns. Each event is a loosely typed dictionary. The function classifies each event by
its keys, in this order: `chunk` (the final answer, as bytes), `trace` (diagnostics), a service exception
key from the error-level set, a key from the warning-level set, and otherwise "unexpected". It keeps one
accumulator, `agent_response`, which every event except a trace overwrites. It returns the accumulator's
last value. An absent stream returns `"No response from the agent"`. An exception raised while the stream
is iterated is logged and raised again.

This project models that reducer from the moment `completion` is known:

- `events.dfy` (module `Events`): payload values, events as ordered dictionaries, `k in d`, `d[k]`,
  `next(k for k in d if k in s)`, and the two key sets.
- `reducer.dfy` (module `Reducer`): the classification, one loop step as a pure function `Step`, the fold
  `Reduce`, the log it emits (`History`), and `Run`/`RunLog` for the whole call.
- `properties.dfy` (module `ReducerProperties`): the properties of the reducer, as lemmas.
- `agent.dfy` (module `Agent`): `RunAgent`, the loop as written, proved to return `Run` and to log
  `RunLog`.

Modelling decisions:

- An event is a `seq<(string, Value)>` in insertion order. Python iterates a dictionary in that order, so
  "the first error-level key" is the first such key in the sequence. `d[k]` is the first entry with key `k`.
  A Python dictionary never repeats a key; a sequence that repeats one stands for no event, and what the
  model says about it (a shadowed entry is still inspected by `Serializable`) has no counterpart in Python.
- The accumulator is a `Value`, not a string. `event[key].get('message', ...)` returns whatever the
  payload's `message` holds.
- The library behaviour the code relies on is a `Host` value of functions:
  - UTF-8 decoding, which is partial; a failure is a raise;
  - Python's `str()` of a payload;
  - whether `json.dumps` accepts an opaque object.
- `json.dumps` refuses bytes, accepts strings, and accepts a dictionary when it accepts every value in it.
  The code passes no custom encoder, so a trace holding bytes or a timestamp raises.
- Every way an iteration raises becomes `Raised`:
  - a chunk payload that is not a dictionary, has no `bytes`, is not bytes, or does not decode;
  - a trace that cannot be serialised;
  - a service exception payload that is not a dictionary, so `.get` does not exist;
  - a stream that raises when the next event is pulled (`Stream.interrupted`).
- The log is a sequence of `(level, tag)` records: info for chunks and traces, error or warning for
  service exceptions by their key set, warning for unexpected events, and error for the absent stream and
  for the exception handler.

Three behaviours of the code are worth stating plainly:

- A service exception event stores the service's own `message`, or `str(payload)` when there is no
  `message` (`source/run_agent.py:65-72`). It does not store a fixed fallback text.
- An unexpected event stores `'Unexpected error occurred'` (`source/run_agent.py:77`).
- `json.dumps` is called without a custom encoder (`source/run_agent.py:61`), so a trace holding bytes or
  a timestamp raises.

The tests in `tests/` import `source/invoke_cloud_agent.py`, which is not part of this model. They expect
`'Something went wrong'` and a dictionary result, and neither is the behaviour of `source/run_agent.py`.

## Model

| member | source | states |
|---|---|---|
| Events.HasKey | source/run_agent.py:53 | `k in d` holds exactly when some pair with key `k` is in the dictionary |
| Events.IndexOf | source/run_agent.py:54 | the position of a present key holds that key, and no earlier entry does (`d[k]` finds the first entry) |
| Events.Lookup | source/run_agent.py:54 | `d[k]` is a value paired with `k` in the dictionary |
| Events.FirstKeyIn | source/run_agent.py:63-64 | returns a key of the event that is in the set, and no earlier key of the event is in the set; returns None exactly when no key of the event is in the set (the `any(...)` test) |
| Reducer.Classify | source/run_agent.py:53-77 | chunk exactly when `chunk` is present; trace exactly when `trace` is present and `chunk` is not; a service exception carries a present key that is the first key of its severity set, error level exactly for error-level keys, and warning level only when no key is error level; unrecognized exactly when no handled key is present |
| Reducer.Serializable | source/run_agent.py:61 | bytes are never accepted by `json.dumps`, and an accepted dictionary holds no bytes value directly |
| Reducer.TraceSerializable | source/run_agent.py:60-61 | an accepted trace is present and its payload is not bytes |
| Reducer.ChunkText | source/run_agent.py:54-55 | a decoded text requires a dictionary payload whose `bytes` field is present and holds bytes (a missing field, a non-dictionary payload or a `bytes` field of any other type raises); for a payload whose `bytes` field holds bytes `b` the result is the UTF-8 decoding of `b` |
| Reducer.ServiceMessage | source/run_agent.py:65 | defined exactly for dictionary payloads; then it is the `message` field when present, else `str(payload)` |
| Reducer.Step | source/run_agent.py:53-77 | one iteration: a trace keeps the accumulator exactly when its payload serialises and otherwise raises; a chunk that succeeds stores text; an unrecognized event stores 'Unexpected error occurred'; a service exception raises exactly when its payload is no dictionary (exact chunk and service values: `SingleChunk`, `SingleServiceError`, `ServiceErrorWithoutMessage`) |
| Reducer.Record | source/run_agent.py:56-76 | a handled event's record is never the exception record; chunks and traces log at info, error-level keys at error (tagged with a present error-level key), warning-level keys and unexpected events at warning |
| Reducer.Reduce | source/run_agent.py:50-82 | a stream that raises while being pulled ends in a raise, whatever events came before |
| Reducer.History | source/run_agent.py:50-82 | at most one record per event plus the exception record; an interrupted stream's log ends with the exception record |
| Reducer.Run | source/run_agent.py:34-84 | an absent completion returns "No response from the agent"; an empty present stream returns `''`; an interrupted stream raises |
| Reducer.RunLog | source/run_agent.py:36-82 | an absent completion logs one error record; otherwise at most one record per event plus the exception record, ending with it when the stream is interrupted |
| ReducerProperties.KeySetsDisjoint | source/run_agent.py:40-47 | the error-level and warning-level key sets share no key |
| ReducerProperties.AbsentStream | source/run_agent.py:35-38 | an absent completion returns exactly "No response from the agent" and logs one error record |
| ReducerProperties.EmptyStream | source/run_agent.py:34-84 | a present stream without events returns the initial empty string and logs nothing |
| ReducerProperties.SingleEvent | source/run_agent.py:50-84 | a one-event stream returns what the event's step sets, or raises when the step raises, and logs that event's record |
| ReducerProperties.SingleChunk | source/run_agent.py:53-57 | any chunk event whose payload holds bytes `B` under `bytes`, with any other fields, sets the accumulator to the UTF-8 decoding of `B`, or raises when `B` does not decode; alone in a stream that is the result, logged at info |
| ReducerProperties.SingleServiceError | source/run_agent.py:63-72 | any service exception event whose payload has a `message`, with any other fields, sets the accumulator to that message; alone in a stream that is the result, logged with its key at error level for error-level keys and warning level otherwise |
| ReducerProperties.ServiceErrorWithoutMessage | source/run_agent.py:63-72 | without a `message` field the stringified payload is stored and returned |
| ReducerProperties.ServiceErrorEvent | source/run_agent.py:63-69 | the event `{key: {message: m}}` is classified at error level for an error-level key and at warning level for a warning-level key |
| ReducerProperties.UnrecognizedEvent | source/run_agent.py:74-77 | an event with none of the handled keys returns 'Unexpected error occurred' and logs a warning |
| ReducerProperties.TraceKeepsResponse | source/run_agent.py:59-61 | a trace keeps the accumulator exactly when its payload serialises, and otherwise raises |
| ReducerProperties.StepIgnoresAccumulator | source/run_agent.py:53-77 | every event other than a trace yields the same result whatever the accumulator held before |
| ReducerProperties.TracesOnly | source/run_agent.py:50-61 | a stream of traces returns its starting accumulator exactly when every trace serialises, and otherwise raises |
| ReducerProperties.TraceOnlyStream | source/run_agent.py:34-61 | a present stream of serialisable traces returns the empty string |
| ReducerProperties.ReduceAppend | source/run_agent.py:50-77 | running two stretches of events in turn equals running the first and continuing from its accumulator; a raise in the first stretch ends the run |
| ReducerProperties.FailureRaises | source/run_agent.py:49-82 | once an event whose handling raises is reached, the run raises, whatever follows |
| ReducerProperties.TrailingTraces | source/run_agent.py:59-61 | a returning run of traces leaves the accumulator as it was |
| ReducerProperties.LastWriteWins | source/run_agent.py:50-84 | a returned value is what the last non-trace event sets the accumulator to, and running from that event with any accumulator gives the same result |
| ReducerProperties.NoWriteKeepsInitial | source/run_agent.py:34-84 | a returning run with no event other than traces returns the empty string |
| ReducerProperties.HistoryOnReturn | source/run_agent.py:50-77 | a returning run logs exactly one record per event, in stream order, with that event's level and tag |
| ReducerProperties.HistoryOnRaise | source/run_agent.py:79-82 | a raising run logs the records of the events it handled, in stream order, and then the exception record |
| Agent.HandleServiceError | source/run_agent.py:63-72 | raises exactly when the payload is not a dictionary; otherwise stores the payload's `message`, or else its stringified form, logged with the key at the given level |
| Agent.HandleEvent | source/run_agent.py:53-77 | the loop body raises exactly when `Step` does, and otherwise sets the accumulator to `Step`'s value and logs the event's record |
| Agent.Iterate | source/run_agent.py:53-82 | one pass of the loop body: either the step raises, the fold raises and the exception record is appended, or `next` is `Step`'s value, `Record` of the event is appended, and the fold and its log continue from `next` |
| Agent.ConsumeStream | source/run_agent.py:49-84 | the loop and its re-raising handler return, or raise, exactly as the fold `Reduce` does from `''` and emit exactly `History` |
| Agent.RunAgent | source/run_agent.py:34-84 | `run_agent` returns, or raises, exactly as `Run` does and emits exactly `RunLog`; an absent completion returns "No response from the agent" |

## Left out

- The service call `boto3.client(...).invoke_agent(...)` and the logging of its raw response
  (`source/run_agent.py:24-32`): network and foreign SDK. The completion is an input of `Run` and
  `RunAgent`.
- The generated session id (`source/run_agent.py:20-21`): randomness. It only feeds the service call.
- The parameters `agent_id`, `agent_alias_id`, `enable_trace` and `end_session`: they are only passed
  to the service call (`source/run_agent.py:25-31`).
- The parameter `input_text`: `run_agent` never uses it. The service call at `source/run_agent.py:25-31`
  does not pass the utterance, which looks like a defect of the source outside the modelled reducer.
- The text of log lines (`json.dumps` with indentation, the f-strings, the stack trace): only the
  severity and a tag are modelled.
- A raise from `str(event[key])` or from the f-strings of the log calls (`source/run_agent.py:65-76`):
  `Host.render` is total, and `str(...)` is taken never to raise, even though Python evaluates it eagerly
  when `message` is present too; log lines are not formatted at all.
- Real UTF-8 decoding, Python's `str()`, and which opaque objects `json.dumps` accepts: these are the
  functions of `Host`.
- Assigning `'Unexpected error occurred'` in the exception handler (`source/run_agent.py:81`): the value is
  never observed, because the handler raises again.
- Only dictionaries have `.get`; an opaque payload with a `.get` method of its own is not modelled. Events
  themselves are always dictionaries with string keys.
- Only `bytes` payloads can be decoded: a `bytearray`, or any object with its own `decode` or
  `__getitem__`, would not raise in Python, but the model treats every chunk payload other than a
  dictionary holding `Bytes` as a raise.
- A stream that never ends: `Stream.events` is finite, so the model cannot express a `for` loop that
  keeps waiting for events forever.
- `source/common/logger_setup.py`: logger configuration, with no logic.
- `source/invoke_cloud_agent.py`, and the tests that exercise it, are not part of this model.
