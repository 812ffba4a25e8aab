/**
 * Python values as the validators see them (what `json.loads` builds, plus the
 * `datetime` the datetime validator returns), Python truthiness, dictionaries as
 * ordered key/value lists, and the library calls whose behaviour is not modelled
 * here, gathered in one `Runtime` record of functions.
 */
module PyValue {
  import opened PyText

  datatype Option<+T> = None | Some(value: T)

  datatype Result<+T, +E> = Ok(value: T) | Err(error: E)

  type byte = b: int | 0 <= b < 256

  type Bits64 = b: int | 0 <= b < 0x1_0000_0000_0000_0000

  /** A Python `float`: an IEEE-754 double, identified by its bit pattern. */
  datatype Double = Double(bits: Bits64)

  const PositiveZero := Double(0)
  const NegativeZero := Double(0x8000_0000_0000_0000)
  const PositiveOne := Double(0x3FF0_0000_0000_0000)

  predicate IsZero(d: Double) {
    d == PositiveZero || d == NegativeZero
  }

  /** The eleven biased-exponent bits of a double. */
  function Exponent(d: Double): nat {
    (d.bits / 0x10_0000_0000_0000) % 0x800
  }

  /** The 52 fraction bits of a double. */
  function Fraction(d: Double): nat {
    d.bits % 0x10_0000_0000_0000
  }

  /** NaN or an infinity: every exponent bit is set. */
  predicate NonFinite(d: Double) {
    Exponent(d) == 0x7FF
  }

  /** A `datetime.datetime`, as `fromisoformat` builds it. */
  datatype DateTime = DateTime(
    year: int, month: int, day: int,
    hour: int, minute: int, second: int, microsecond: int,
    utcOffsetMinutes: Option<int>)

  /** A Python object of one of the kinds that reach or leave a validator. */
  datatype Value =
    | VNone
    | VBool(b: bool)
    | VInt(i: int)
    | VFloat(d: Double)
    | VStr(s: string)
    | VList(items: seq<Value>)
    | VDict(entries: seq<(string, Value)>)
    | VDatetime(dt: DateTime)

  /** The items of a Python `dict`, in insertion order. */
  type Entries = seq<(string, Value)>

  /** Python's `bool(v)`. */
  predicate Truthy(v: Value) {
    match v
    case VNone => false
    case VBool(b) => b
    case VInt(i) => i != 0
    case VFloat(d) => !IsZero(d)
    case VStr(s) => s != ""
    case VList(items) => items != []
    case VDict(entries) => entries != []
    case VDatetime(_) => true
  }

  function Keys<V>(d: seq<(string, V)>): (ks: seq<string>)
    ensures |ks| == |d|
    ensures forall k | 0 <= k < |d| :: ks[k] == d[k].0
  {
    seq(|d|, k requires 0 <= k < |d| => d[k].0)
  }

  /** A Python `dict` never holds the same key twice. */
  predicate UniqueKeys(d: Entries) {
    forall i, j | 0 <= i < j < |d| :: d[i].0 != d[j].0
  }

  /** Python's `d.get(key)`: the value stored under `key`, if any. */
  function Get(d: Entries, key: string): (r: Option<Value>)
    ensures r.Some? <==> key in Keys(d)
    ensures r.Some? ==> (key, r.value) in d
    ensures r.None? ==> forall k | 0 <= k < |d| :: d[k].0 != key
  {
    if d == [] then None
    else if d[0].0 == key then Some(d[0].1)
    else
      var r := Get(d[1..], key);
      assert Keys(d) == [d[0].0] + Keys(d[1..]);
      r
  }

  /** In a dict without repeated keys, `get` finds the value at the key's position. */
  lemma {:induction false} GetAt(d: Entries, k: nat)
    requires UniqueKeys(d) && k < |d|
    ensures Get(d, d[k].0) == Some(d[k].1)
  {
    if k > 0 {
      GetAt(d[1..], k - 1);
    }
  }

  /** Whether a `datetime` occurs anywhere inside `v` (`json.dumps` raises `TypeError` on one). */
  predicate HasDatetime(v: Value)
    decreases v
  {
    match v
    case VDatetime(_) => true
    case VList(items) => exists k | 0 <= k < |items| :: HasDatetime(items[k])
    case VDict(entries) => exists k | 0 <= k < |entries| :: HasDatetime(entries[k].1)
    case _ => false
  }

  /** What `json.loads` can build: no `datetime`, and no dict repeating a key. */
  predicate IsJson(v: Value)
    decreases v
  {
    match v
    case VDatetime(_) => false
    case VList(items) => forall k | 0 <= k < |items| :: IsJson(items[k])
    case VDict(entries) => UniqueKeys(entries) && forall k | 0 <= k < |entries| :: IsJson(entries[k].1)
    case _ => true
  }

  lemma {:induction false} JsonHasNoDatetime(v: Value)
    requires IsJson(v)
    ensures !HasDatetime(v)
    decreases v
  {
    match v
    case VList(items) =>
      forall k | 0 <= k < |items| ensures !HasDatetime(items[k]) { JsonHasNoDatetime(items[k]); }
    case VDict(entries) =>
      forall k | 0 <= k < |entries| ensures !HasDatetime(entries[k].1) { JsonHasNoDatetime(entries[k].1); }
    case _ =>
  }

  /** An embedding vector as the embedding service returns it. */
  type Vector = seq<Double>

  /**
   * What `json.loads` raises on text it does not turn into a value: a
   * `JSONDecodeError` for text that is not JSON, or another exception, such as
   * the `ValueError` of an integer literal over 4300 digits or the
   * `RecursionError` of very deep nesting.
   */
  datatype LoadsError = DecodeError | OtherLoadsError

  /**
   * The library and network calls the core makes and this model does not define:
   * JSON parsing and printing, decimal-to-double rounding, ISO-8601 parsing,
   * UTF-8 decoding, CSV parsing, the text splitter and the embedding service.
   * Each is a total function; a `None` stands for the call raising, and
   * `jsonLoadsError` says what `json.loads` raises when it gives `None`.
   */
  datatype Runtime = Runtime(
    jsonLoads: string -> Option<Value>,
    jsonLoadsError: string -> LoadsError,
    jsonDumps: Value -> string,
    doubleOfText: string -> Double,
    doubleOfInt: int -> Double,
    fromIsoFormat: string -> Option<DateTime>,
    utf8Decode: seq<byte> -> Option<string>,
    csvRows: string -> Option<seq<seq<string>>>,
    chunkText: string -> seq<string>,
    getEmbeddings: seq<string> -> Option<seq<Vector>>)

  /** Python's `json.dumps(v)`: it raises on a `datetime`, and otherwise prints the value. */
  function JsonDumps(rt: Runtime, v: Value): Option<string> {
    if HasDatetime(v) then None else Some(rt.jsonDumps(v))
  }

  /** The JSON whitespace `json.loads` skips before a value. */
  predicate IsJsonSpace(c: char) {
    c == ' ' || c == '\t' || c == '\n' || c == '\r'
  }

  /** The first character of `s` that is not JSON whitespace. */
  function FirstJsonChar(s: string): Option<char>
  {
    if s == [] then None
    else if IsJsonSpace(s[0]) then FirstJsonChar(s[1..])
    else Some(s[0])
  }

  /**
   * Facts about the real libraries that the model's lemmas rely on: `json.loads`
   * builds JSON values, a JSON array text starts with `[` and a JSON object text
   * with `{` after leading whitespace, and decoding no bytes gives the empty string.
   */
  ghost predicate Sane(rt: Runtime) {
    && (forall s :: rt.jsonLoads(s).Some? ==> IsJson(rt.jsonLoads(s).value))
    && (forall s :: rt.jsonLoads(s).Some? && rt.jsonLoads(s).value.VList? ==> FirstJsonChar(s) == Some('['))
    && (forall s :: rt.jsonLoads(s).Some? && rt.jsonLoads(s).value.VDict? ==> FirstJsonChar(s) == Some('{'))
    && rt.utf8Decode([]) == Some("")
  }
}
