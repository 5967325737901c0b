/**
 * The decoding half of the JWT page (`src/pages/jwt-parser.js`): turning the
 * text of the input box into a `JwtDetails` record, the "expired" test used
 * when a saved token is rendered, and the sort applied to the saved list.
 *
 * A token is the compact serialisation of section 7.1 of RFC 7515: parts
 * joined by `.`. The page decodes every part with `atob` (standard base64)
 * followed by `JSON.parse`, falling back to the part's raw text when either
 * throws. `JSON.parse` is a parameter; the clock is a parameter.
 */
module JwtParser {
  import opened Wrappers
  import opened Text
  import opened Json
  import Base64
  import Sorting

  /** `JSON.parse`, with `None` for the `SyntaxError` it throws. */
  type Parser = string -> Option<JsonValue>

  /** What one destructured part holds: a parsed value, the part's raw text, or `undefined`. */
  datatype Field = Parsed(value: JsonValue) | Raw(text: string) | Missing

  /** `typeof` of a field. */
  function FieldType(f: Field): JsType {
    match f
    case Parsed(v) => TypeOf(v)
    case Raw(_) => String
    case Missing => Undefined
  }

  /** The exception raised while building the record: reading `exp` of `undefined` or of `null`. */
  datatype JsError = ExpOfUndefined | ExpOfNull

  /** The record `generateDisplayObject` returns. */
  datatype JwtDetails = JwtDetails(
    valid: bool,
    original: string,
    parts: seq<string>,
    timestamp: int,
    expiration: JsonValue,
    header: Field,
    payload: Field,
    signature: Field)

  /** One part through `JSON.parse(atob(part))`, with the raw text as the `catch` fallback. */
  function DecodePart(parse: Parser, part: string): (f: Field)
    ensures f.Raw? ==> f.text == part
    ensures !f.Parsed? ==> f == Raw(part)
    ensures f.Parsed? <==> Base64.Atob(part).Some? && parse(Base64.Atob(part).value).Some?
    ensures f.Parsed? ==> Some(f.value) == parse(Base64.Atob(part).value)
  {
    match Base64.Atob(part)
    case None => Raw(part)
    case Some(binary) =>
      match parse(binary)
      case None => Raw(part)
      case Some(v) => Parsed(v)
  }

  /** The destructured element `i` of the decoded parts: `undefined` past the end. */
  function DecodedAt(parse: Parser, parts: seq<string>, i: nat): (f: Field)
    ensures i >= |parts| <==> f.Missing?
  {
    if i < |parts| then DecodePart(parse, parts[i]) else Missing
  }

  /**
   * `payload.exp ? payload.exp : 0`. Reading a property of `undefined` or
   * `null` throws; strings, numbers, booleans and arrays have no `exp`.
   */
  function ExpirationOf(payload: Field): (r: Result<JsonValue, JsError>)
    ensures r.Failure? <==> payload.Missing? || payload == Parsed(Null)
    ensures r.Success? ==> r.value == Num(0) || Truthy(r.value)
    ensures r.Success? && r.value != Num(0) ==>
      payload.Parsed? && payload.value.Obj? && "exp" in payload.value.fields && payload.value.fields["exp"] == r.value
    ensures r.Success? && payload.Parsed? && payload.value.Obj? && "exp" in payload.value.fields ==>
      (Truthy(payload.value.fields["exp"]) ==> r.value == payload.value.fields["exp"])
  {
    match payload
    case Missing => Failure(ExpOfUndefined)
    case Raw(_) => Success(Num(0))
    case Parsed(v) =>
      match v
      case Null => Failure(ExpOfNull)
      case Obj(fields) =>
        if "exp" in fields && Truthy(fields["exp"]) then Success(fields["exp"]) else Success(Num(0))
      case _ => Success(Num(0))
  }

  /**
   * `generateDisplayObject(original)` with the clock reading `now`. It throws
   * exactly when the payload is `undefined` (no `.` in the input) or `null`.
   */
  function GenerateDisplayObject(parse: Parser, now: int, original: string): (r: Result<JwtDetails, JsError>)
    ensures r.Failure? <==> '.' !in original || DecodePart(parse, Split(original, '.')[1]) == Parsed(Null)
    ensures r.Success? ==> r.value.original == original && r.value.timestamp == now
    ensures r.Success? ==> r.value.parts == Split(original, '.') && |r.value.parts| >= 2
    ensures r.Success? ==> Join(r.value.parts, '.') == original
    ensures r.Success? ==> && r.value.header == DecodePart(parse, r.value.parts[0])
                           && r.value.payload == DecodePart(parse, r.value.parts[1])
                           && r.value.signature == DecodedAt(parse, r.value.parts, 2)
    ensures r.Success? ==> r.value.expiration == ExpirationOf(r.value.payload).value
    ensures r.Success? ==> (r.value.valid <==> FieldType(r.value.header) == Object && FieldType(r.value.payload) == Object)
  {
    var parts := Split(original, '.');
    var header := DecodedAt(parse, parts, 0);
    var payload := DecodedAt(parse, parts, 1);
    var signature := DecodedAt(parse, parts, 2);
    var valid := FieldType(header) == Object && FieldType(payload) == Object;
    match ExpirationOf(payload)
    case Failure(e) => Failure(e)
    case Success(expiration) =>
      JoinSplit(original, '.');
      Success(JwtDetails(valid, original, parts, now, expiration, header, payload, signature))
  }

  /**
   * The expired test of a saved row: `expiration * 1000 < now`, after
   * JavaScript's numeric conversion of the stored value. `None` marks a string,
   * array or object expiration, whose conversion is not modelled.
   */
  function Expired(expiration: JsonValue, now: int): (r: Option<bool>)
    ensures expiration.Num? ==> r == Some(expiration.n * 1000 < now)
    ensures expiration.Str? || expiration.Arr? || expiration.Obj? <==> r.None?
  {
    match expiration
    case Null => Some(0 < now)
    case Bool(b) => Some((if b then 1000 else 0) < now)
    case Num(n) => Some(n * 1000 < now)
    case _ => None
  }

  /** The sort comparator `(a, b) => a.timestamp > b.timestamp ? 1 : -1`, as "a goes after b". */
  const TimestampAfter: (JwtDetails, JwtDetails) -> bool :=
    (a: JwtDetails, b: JwtDetails) => a.timestamp > b.timestamp

  /** Ascending by save time. */
  predicate Ascending(s: seq<JwtDetails>) {
    forall i, j :: 0 <= i < j < |s| ==> s[i].timestamp <= s[j].timestamp
  }

  /** `previousInputs.sort(...)`: a permutation of the list, ascending by timestamp. */
  function SortSaved(saved: seq<JwtDetails>): (r: seq<JwtDetails>)
    ensures multiset(r) == multiset(saved)
    ensures Ascending(r)
  {
    TimestampComparatorIsWeakOrder();
    var r := Sorting.InsertionSort(TimestampAfter, saved);
    SortedIsAscending(r);
    r
  }

  lemma TimestampComparatorIsWeakOrder()
    ensures Sorting.StrictWeakOrder(TimestampAfter)
  {
  }

  lemma SortedIsAscending(s: seq<JwtDetails>)
    ensures Sorting.Sorted(TimestampAfter, s) <==> Ascending(s)
  {
    if Sorting.Sorted(TimestampAfter, s) {
      forall i, j | 0 <= i < j < |s| ensures s[i].timestamp <= s[j].timestamp {
        assert !TimestampAfter(s[i], s[j]);
      }
    }
  }

  /** No two different records share a timestamp. */
  predicate DistinctTimestamps(s: seq<JwtDetails>) {
    forall i, j :: 0 <= i < |s| && 0 <= j < |s| && s[i] != s[j] ==> s[i].timestamp != s[j].timestamp
  }
}
