/** Loosely typed records of the agent service's event stream, and the
    dictionary operations the reducer applies to them. */
module Events {

  datatype Option<+T> = None | Some(value: T)

  /** The payload values an event record can hold. A Python object that is
      neither bytes, a string nor a dictionary is `Opaque`; its identity is
      only used to ask the host how it serialises. */
  datatype Value =
    | Bytes(bytes: seq<bv8>)
    | Text(text: string)
    | Dict(fields: Fields)
    | Opaque(id: nat)

  /** A dictionary in insertion order, which is also Python's iteration order.
      Its keys are meant to be distinct, as a Python dictionary's are; a
      sequence that repeats a key stands for no dictionary. */
  type Fields = seq<(string, Value)>

  /** One record yielded by the stream: a dictionary keyed by event kind. */
  type Event = Fields

  /** `k in d` for a Python dictionary. */
  predicate HasKey(d: Fields, k: string): (present: bool)
    ensures present <==> exists v :: (k, v) in d
  {
    exists i :: 0 <= i < |d| && d[i].0 == k
  }

  /** The position of key `k`: the first entry carrying it. */
  function IndexOf(d: Fields, k: string): (i: nat)
    requires HasKey(d, k)
    ensures i < |d| && d[i].0 == k
    ensures forall j :: 0 <= j < i ==> d[j].0 != k
  {
    if d[0].0 == k then 0
    else
      assert HasKey(d[1..], k) by {
        var i :| 0 <= i < |d| && d[i].0 == k;
        assert d[1..][i - 1].0 == k;
      }
      1 + IndexOf(d[1..], k)
  }

  /** `d[k]` for a key that is present. */
  function Lookup(d: Fields, k: string): (v: Value)
    requires HasKey(d, k)
    ensures (k, v) in d
  {
    d[IndexOf(d, k)].1
  }

  /** `next(k for k in d if k in s)`: the first key of `d`, in iteration
      order, that belongs to `s`, or None when `any(k in d for k in s)` is false. */
  function FirstKeyIn(d: Fields, s: set<string>): (r: Option<string>)
    ensures r.Some? ==> r.value in s && HasKey(d, r.value)
    ensures r.Some? ==> forall j :: 0 <= j < IndexOf(d, r.value) ==> d[j].0 !in s
    ensures r.None? <==> forall i :: 0 <= i < |d| ==> d[i].0 !in s
  {
    if d == [] then None
    else if d[0].0 in s then Some(d[0].0)
    else
      var r := FirstKeyIn(d[1..], s);
      assert r.Some? ==> d[1 + IndexOf(d[1..], r.value)].0 == r.value;
      r
  }

  /** Service exception keys handled at error level. */
  const ErrorLevelKeys: set<string> := {
    "accessDeniedException", "conflictException",
    "dependencyFailedException", "internalServerException", "resourceNotFoundException",
    "invalidRequestException", "serviceQuotaExceededException", "validationException"
  }

  /** Service exception keys handled at warning level. */
  const WarningLevelKeys: set<string> := {
    "badGatewayException", "throttlingException", "modelNotReadyException"
  }
}
