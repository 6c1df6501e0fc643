/** The error record shared by the server store, the local access layer and the table:
    its fields, the values a sort can compare, ASCII lower-casing and lookup by id. */
module Records {

  datatype Option<+T> = None | Some(value: T)

  /** A value a record field can hold, as seen by a comparison: absent (`undefined`),
      a number, or a string. */
  datatype Value = Missing | Num(n: int) | Str(s: string)

  /** One stored error. `errorType` is the JavaScript field `type`; the three times are
      milliseconds since the epoch; `extra` holds the diagnostic fields (`source`, `lineno`,
      `stack`, ...) that the store passes through without looking at them. */
  datatype Record = Record(
    id: Option<string>,
    errorType: Option<string>,
    message: Option<string>,
    timestamp: Option<nat>,
    createdAt: Option<nat>,
    updatedAt: Option<nat>,
    status: Option<string>,
    comment: Option<string>,
    extra: map<string, Value>)

  /** `!record.message` is false: a message is present and non-empty. */
  predicate HasMessage(r: Record) {
    r.message.Some? && r.message.value != ""
  }

  function LowerChar(c: char): char {
    if 'A' <= c <= 'Z' then (c as int + 32) as char else c
  }

  /** `toLowerCase`, restricted to ASCII letters. */
  function Lower(s: string): string
  {
    if s == [] then [] else [LowerChar(s[0])] + Lower(s[1..])
  }

  /** Lower-casing keeps the length and lower-cases each ASCII letter in place. */
  lemma {:induction false} LowerAt(s: string)
    ensures |Lower(s)| == |s|
    ensures forall i :: 0 <= i < |s| ==> Lower(s)[i] == LowerChar(s[i])
  {
    if s != [] {
      LowerAt(s[1..]);
    }
  }

  /** `String(e.type)`: a missing type is rendered as "undefined". */
  function TypeText(r: Record): string {
    match r.errorType
    case None => "undefined"
    case Some(t) => t
  }

  function TextValue(o: Option<string>): Value {
    match o
    case None => Missing
    case Some(s) => Str(s)
  }

  function TimeValue(o: Option<nat>): Value {
    match o
    case None => Missing
    case Some(t) => Num(t)
  }

  /** `record[name]`: the raw value a comparator sees for a field name. */
  function FieldValue(r: Record, name: string): Value {
    if name == "id" then TextValue(r.id)
    else if name == "type" then TextValue(r.errorType)
    else if name == "message" then TextValue(r.message)
    else if name == "timestamp" then TimeValue(r.timestamp)
    else if name == "createdAt" then TimeValue(r.createdAt)
    else if name == "updatedAt" then TimeValue(r.updatedAt)
    else if name == "status" then TextValue(r.status)
    else if name == "comment" then TextValue(r.comment)
    else if name in r.extra then r.extra[name]
    else Missing
  }

  /** The table's time key `a.timestamp || a.createdAt`: the source stamps times as ISO
      strings, which are truthy whenever present, so a present `timestamp` wins, then
      `createdAt`, and a record with neither counts as 0. */
  function EffectiveTime(r: Record): nat {
    if r.timestamp.Some? then r.timestamp.value
    else if r.createdAt.Some? then r.createdAt.value
    else 0
  }

  /** `findIndex(e => e.id === id)`: the first position holding the id, or -1. */
  function FindIndex(s: seq<Record>, id: string): (r: int)
    ensures -1 <= r < |s|
    ensures r == -1 <==> forall i :: 0 <= i < |s| ==> s[i].id != Some(id)
    ensures r >= 0 ==> s[r].id == Some(id) && forall i :: 0 <= i < r ==> s[i].id != Some(id)
  {
    if |s| == 0 then -1
    else if s[0].id == Some(id) then 0
    else
      var k := FindIndex(s[1..], id);
      assert forall i :: 1 <= i < |s| ==> s[i] == s[1..][i - 1];
      if k == -1 then -1 else k + 1
  }

  /** No two records carry the same id. */
  ghost predicate UniqueIds(s: seq<Record>) {
    forall i, j :: 0 <= i < j < |s| && s[i].id.Some? ==> s[i].id != s[j].id
  }

  /** The store's invariant: every record has an id and a message, and ids are unique. */
  ghost predicate StoreInvariant(s: seq<Record>) {
    (forall i :: 0 <= i < |s| ==> s[i].id.Some? && HasMessage(s[i])) && UniqueIds(s)
  }
}
