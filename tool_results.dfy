/**
 * `_format_tool_result`: the one-line digest the chat view shows for a tool's
 * JSON result. The digest keeps the payload values it quotes; the wording of
 * the sentence around them is not modelled.
 */
module ToolResults {
  import opened Wrappers
  import opened Dicts
  import opened PyStr

  /** A decoded JSON value; numbers are integers. */
  datatype Json =
    | JNull
    | JBool(b: bool)
    | JInt(i: int)
    | JStr(s: string)
    | JList(items: seq<Json>)
    | JObject(entries: Dict<Json>)

  /** Which kind of result was recognised, with the values the message quotes. */
  datatype Digest =
    | Found(count: Json)                               // "Found {count} form fields"
    | Queued(preview: Option<string>, pending: Json)   // "Queued: '{preview}' ({pending} changes pending)"
    | Applied(count: Json, total: Json, showTotal: bool) // "Applied {count} ..." with the total iff showTotal
    | ReadyToApply(edits: nat)                         // "Ready to apply {n} changes"

  /** `str(n)` for an integer. */
  function IntToString(i: int): string {
    if i < 0 then "-" + NatToString(-i) else NatToString(i)
  }

  /** `str(j)` for a scalar; the `repr` of a list or an object is not modelled. */
  function PyStrOf(j: Json): Option<string> {
    match j
    case JNull => Some("None")
    case JBool(b) => Some(if b then "True" else "False")
    case JInt(i) => Some(IntToString(i))
    case JStr(s) => Some(s)
    case _ => None
  }

  const PREVIEW_LENGTH: nat := 30

  /** `str(value)[:30]` */
  function Preview(j: Json): (r: Option<string>)
    ensures r.Some? <==> PyStrOf(j).Some?
    ensures r.Some? ==>
      && |r.value| == (if |PyStrOf(j).value| <= PREVIEW_LENGTH then |PyStrOf(j).value| else PREVIEW_LENGTH)
      && PyStrOf(j).value[..|r.value|] == r.value
  {
    match PyStrOf(j)
    case Some(s) => Some(Take(s, PREVIEW_LENGTH))
    case None => None
  }

  /** The exception the code raises on an operand of the wrong type. */
  const TYPE_ERROR: string := "TypeError"

  /** Python truthiness of a JSON value. */
  predicate Truthy(j: Json) {
    match j
    case JNull => false
    case JBool(b) => b
    case JInt(i) => i != 0
    case JStr(s) => s != ""
    case JList(items) => items != []
    case JObject(entries) => entries != []
  }

  /** `len(j)`, which raises on a value that has no length. */
  function Len(j: Json): (r: Result<nat, string>)
    ensures r.Ok? <==> j.JStr? || j.JList? || j.JObject?
  {
    match j
    case JStr(s) => Ok(|s|)
    case JList(items) => Ok(|items|)
    case JObject(entries) => Ok(|entries|)
    case _ => Err(TYPE_ERROR)
  }

  /** The value of a number (a boolean counts as 0 or 1), if `j` is one. */
  function Number(j: Json): Option<int> {
    match j
    case JInt(i) => Some(i)
    case JBool(b) => Some(if b then 1 else 0)
    case _ => None
  }

  /** Code-point order on strings, as Python compares them. */
  predicate StrGreater(a: string, b: string) {
    if a == [] then false
    else if b == [] then true
    else if a[0] != b[0] then a[0] > b[0]
    else StrGreater(a[1..], b[1..])
  }

  /**
   * Python's `==` on decoded JSON: numbers by value (a boolean is 0 or 1),
   * lists element by element, objects by their keys and the values under
   * them; values of different kinds are unequal.
   */
  predicate PyEq(a: Json, b: Json)
    decreases a
  {
    if Number(a).Some? && Number(b).Some? then Number(a).value == Number(b).value
    else if a.JNull? && b.JNull? then true
    else if a.JStr? && b.JStr? then a.s == b.s
    else if a.JList? && b.JList? then
      |a.items| == |b.items| && forall i :: 0 <= i < |a.items| ==> PyEq(a.items[i], b.items[i])
    else if a.JObject? && b.JObject? then
      |a.entries| == |b.entries| &&
      forall i :: 0 <= i < |a.entries| ==>
        Get(b.entries, a.entries[i].0).Some? && PyEq(a.entries[i].1, Get(b.entries, a.entries[i].0).value)
    else false
  }

  /** The first index at which two lists hold unequal elements, if there is one before the shorter ends. */
  function FirstDiff(xs: seq<Json>, ys: seq<Json>): (r: Option<nat>)
    ensures r.None? ==> forall j :: 0 <= j < |xs| && j < |ys| ==> PyEq(xs[j], ys[j])
    ensures r.Some? ==>
      && r.value < |xs| && r.value < |ys| && !PyEq(xs[r.value], ys[r.value])
      && forall j :: 0 <= j < r.value ==> PyEq(xs[j], ys[j])
  {
    if xs == [] || ys == [] then None
    else if !PyEq(xs[0], ys[0]) then Some(0)
    else match FirstDiff(xs[1..], ys[1..])
      case None => None
      case Some(i) => Some(i + 1)
  }

  /**
   * `a > b`: numbers by value, strings in code-point order, lists
   * lexicographically (the first unequal pair decides; otherwise the longer
   * list is greater). Any other pair, or an unequal pair that cannot be
   * ordered, raises.
   */
  function Greater(a: Json, b: Json): (r: Result<bool, string>)
    decreases a
    ensures r.Err? ==> r.error == TYPE_ERROR
    ensures Number(a).Some? && Number(b).Some? ==> r == Ok(Number(a).value > Number(b).value)
    ensures a.JStr? && b.JStr? ==> r == Ok(StrGreater(a.s, b.s))
    ensures !(Number(a).Some? && Number(b).Some?) && !(a.JStr? && b.JStr?) && !(a.JList? && b.JList?) ==>
      r == Err(TYPE_ERROR)
    ensures a.JList? && b.JList? && (forall j :: 0 <= j < |a.items| && j < |b.items| ==> PyEq(a.items[j], b.items[j])) ==>
      r == Ok(|a.items| > |b.items|)
    ensures forall i ::
      (&& a.JList? && b.JList? && 0 <= i < |a.items| && i < |b.items| && !PyEq(a.items[i], b.items[i])
       && (forall j :: 0 <= j < i ==> PyEq(a.items[j], b.items[j]))) ==>
      r == Greater(a.items[i], b.items[i])
  {
    if Number(a).Some? && Number(b).Some? then Ok(Number(a).value > Number(b).value)
    else if a.JStr? && b.JStr? then Ok(StrGreater(a.s, b.s))
    else if a.JList? && b.JList? then
      match FirstDiff(a.items, b.items)
      case None => Ok(|a.items| > |b.items|)
      case Some(i) => Greater(a.items[i], b.items[i])
    else Err(TYPE_ERROR)
  }

  predicate Has(data: Dict<Json>, key: string) {
    key in Keys(data)
  }

  /** `data.get(key, default)` */
  function GetOr(data: Dict<Json>, key: string, default: Json): Json {
    Get(data, key).GetOr(default)
  }

  predicate IsLoadResult(data: Dict<Json>) {
    Has(data, "field_count") && Has(data, "success")
  }

  predicate IsSetResult(data: Dict<Json>) {
    Has(data, "field_id") && Has(data, "value") && Has(data, "pending_count")
  }

  predicate IsCommitResult(data: Dict<Json>) {
    Has(data, "applied_count")
  }

  predicate IsPendingResult(data: Dict<Json>) {
    Has(data, "pending_edits")
  }

  /** `data.get("applied_count", 0)` */
  function CommitCount(d: Dict<Json>): Json {
    GetOr(d, "applied_count", JInt(0))
  }

  /** `data.get("total_fields_filled", count)` */
  function CommitTotal(d: Dict<Json>): Json {
    GetOr(d, "total_fields_filled", CommitCount(d))
  }

  /** `data.get("pending_edits", [])` */
  function PendingEdits(d: Dict<Json>): Json {
    GetOr(d, "pending_edits", JList([]))
  }

  /**
   * `_format_tool_result(data)`: `Ok(None)` where the code returns `None`,
   * `Err` where it raises. The tests are tried in the code's order.
   */
  function FormatToolResult(data: Json): (r: Result<Option<Digest>, string>)
    ensures !data.JObject? ==> r == Ok(None)
    ensures r.Ok? && r.value.Some? && r.value.value.Found? <==> data.JObject? && IsLoadResult(data.entries)
    ensures r.Ok? && r.value.Some? && r.value.value.Queued? <==>
      data.JObject? && !IsLoadResult(data.entries) && IsSetResult(data.entries)
    ensures r.Err? ==> data.JObject? && !IsLoadResult(data.entries) && !IsSetResult(data.entries)
    ensures r.Err? ==> r.error == TYPE_ERROR
    ensures r.Err? <==>
      && data.JObject? && !IsLoadResult(data.entries) && !IsSetResult(data.entries)
      && (if IsCommitResult(data.entries) then Greater(CommitTotal(data.entries), CommitCount(data.entries)).Err?
          else IsPendingResult(data.entries) && Truthy(PendingEdits(data.entries)) && Len(PendingEdits(data.entries)).Err?)
  {
    if !data.JObject? then Ok(None)
    else
      var d := data.entries;
      if IsLoadResult(d) then
        Ok(Some(Found(GetOr(d, "field_count", JInt(0)))))
      else if IsSetResult(d) then
        Ok(Some(Queued(Preview(GetOr(d, "value", JStr(""))), GetOr(d, "pending_count", JInt(0)))))
      else if IsCommitResult(d) then
        var count := CommitCount(d);
        var total := CommitTotal(d);
        match Greater(total, count)
        case Ok(more) => Ok(Some(Applied(count, total, more)))
        case Err(e) => Err(e)
      else if IsPendingResult(d) then
        var edits := PendingEdits(d);
        if Truthy(edits) then
          match Len(edits)
          case Ok(n) => Ok(Some(ReadyToApply(n)))
          case Err(e) => Err(e)
        else Ok(None)
      else Ok(None)
  }

  /** `_parse_tool_result_friendly` after decoding: an exception gives no digest. */
  function FriendlyResult(data: Json): Option<Digest> {
    match FormatToolResult(data)
    case Ok(d) => d
    case Err(_) => None
  }

  // ---------------------------------------------------------------------------
  // Properties
  // ---------------------------------------------------------------------------

  /** A load result is recognised by its two keys and quotes the field count. */
  lemma LoadDigest(d: Dict<Json>)
    requires IsLoadResult(d)
    ensures FormatToolResult(JObject(d)) == Ok(Some(Found(Get(d, "field_count").value)))
  {
  }

  /** A commit result shows the total exactly when it exceeds the count applied this time. */
  lemma CommitDigest(d: Dict<Json>, count: int, total: int)
    requires !IsLoadResult(d) && !IsSetResult(d)
    requires Get(d, "applied_count") == Some(JInt(count))
    requires Get(d, "total_fields_filled") == Some(JInt(total))
    ensures FormatToolResult(JObject(d)) == Ok(Some(Applied(JInt(count), JInt(total), total > count)))
  {
  }

  /** Without a total the count stands in for it, so the total is never shown. */
  lemma CommitDigestNoTotal(d: Dict<Json>, count: int)
    requires !IsLoadResult(d) && !IsSetResult(d)
    requires Get(d, "applied_count") == Some(JInt(count))
    requires !Has(d, "total_fields_filled")
    ensures FriendlyResult(JObject(d)) == Some(Applied(JInt(count), JInt(count), false))
  {
  }

  /** A pending review is digested exactly when its list of edits is non-empty. */
  lemma PendingDigest(d: Dict<Json>, edits: seq<Json>)
    requires !IsLoadResult(d) && !IsSetResult(d) && !IsCommitResult(d)
    requires Get(d, "pending_edits") == Some(JList(edits))
    ensures FriendlyResult(JObject(d)) == if edits == [] then None else Some(ReadyToApply(|edits|))
  {
  }

  /** A truthy number in place of the list of edits has no length: the code raises. */
  lemma PendingNumberRaises(d: Dict<Json>, n: int)
    requires !IsLoadResult(d) && !IsSetResult(d) && !IsCommitResult(d)
    requires Get(d, "pending_edits") == Some(JInt(n)) && n != 0
    ensures FormatToolResult(JObject(d)).Err? && FriendlyResult(JObject(d)) == None
  {
  }

  /** An object with none of the recognised keys has no digest. */
  lemma UnknownNoDigest(d: Dict<Json>)
    requires !IsLoadResult(d) && !IsSetResult(d) && !IsCommitResult(d) && !IsPendingResult(d)
    ensures FormatToolResult(JObject(d)) == Ok(None)
  {
  }

  /** Every object inside `j` has distinct keys, as a decoded JSON object does. */
  ghost predicate WellKeyed(j: Json)
    decreases j
  {
    match j
    case JList(items) => forall i :: 0 <= i < |items| ==> WellKeyed(items[i])
    case JObject(entries) => Distinct(entries) && forall i :: 0 <= i < |entries| ==> WellKeyed(entries[i].1)
    case _ => true
  }

  /** Every decoded value equals itself. */
  lemma {:induction false} PyEqRefl(a: Json)
    requires WellKeyed(a)
    ensures PyEq(a, a)
    decreases a
  {
    match a
    case JList(items) =>
      forall i | 0 <= i < |items| ensures PyEq(items[i], items[i]) {
        PyEqRefl(items[i]);
      }
    case JObject(entries) =>
      forall i | 0 <= i < |entries|
        ensures Get(entries, entries[i].0).Some? && PyEq(entries[i].1, Get(entries, entries[i].0).value)
      {
        GetAt(entries, i);
        PyEqRefl(entries[i].1);
      }
    case _ =>
  }

  lemma {:induction false} StrGreaterIrreflexive(s: string)
    ensures !StrGreater(s, s)
    decreases |s|
  {
    if s != [] {
      StrGreaterIrreflexive(s[1..]);
    }
  }

  /** No value is greater than itself: the comparison is false or raises. */
  lemma {:induction false} GreaterIrreflexive(a: Json)
    requires WellKeyed(a)
    ensures Greater(a, a) != Ok(true)
  {
    if a.JStr? {
      StrGreaterIrreflexive(a.s);
    } else if a.JList? {
      forall j | 0 <= j < |a.items| ensures PyEq(a.items[j], a.items[j]) {
        PyEqRefl(a.items[j]);
      }
    }
  }

  /** A list is greater than any proper prefix of it. */
  lemma {:induction false} GreaterThanPrefix(xs: seq<Json>, ys: seq<Json>)
    requires forall i :: 0 <= i < |xs| ==> WellKeyed(xs[i])
    requires ys != []
    ensures Greater(JList(xs + ys), JList(xs)) == Ok(true)
  {
    var a := JList(xs + ys);
    forall j | 0 <= j < |xs| ensures PyEq(a.items[j], xs[j]) {
      assert a.items[j] == xs[j];
      PyEqRefl(xs[j]);
    }
  }

  /** Lists are compared element by element, so a commit that reports them still has a digest. */
  lemma CommitListDigest()
    ensures var d := [("applied_count", JList([JInt(1)])), ("total_fields_filled", JList([JInt(2)]))];
      FormatToolResult(JObject(d)) == Ok(Some(Applied(JList([JInt(1)]), JList([JInt(2)]), true)))
  {
    var d := [("applied_count", JList([JInt(1)])), ("total_fields_filled", JList([JInt(2)]))];
    CommitListKeys();
    assert Get(d, "applied_count") == Some(JList([JInt(1)]));
    assert Get(d, "total_fields_filled") == Some(JList([JInt(2)]));
    OneTwoListGreater();
  }

  lemma CommitListKeys()
    ensures var d := [("applied_count", JList([JInt(1)])), ("total_fields_filled", JList([JInt(2)]))];
      !IsLoadResult(d) && !IsSetResult(d) && IsCommitResult(d)
  {
    var d := [("applied_count", JList([JInt(1)])), ("total_fields_filled", JList([JInt(2)]))];
    assert Get(d, "field_count") == None;
    assert Get(d, "field_id") == None;
    assert Get(d, "applied_count").Some?;
  }

  lemma OneTwoListGreater()
    ensures Greater(JList([JInt(2)]), JList([JInt(1)])) == Ok(true)
  {
    assert !PyEq(JInt(2), JInt(1));
    assert FirstDiff([JInt(2)], [JInt(1)]) == Some(0);
  }

  /** A string total is compared with a number count: the code raises. */
  lemma CommitMixedRaises(d: Dict<Json>, count: int, total: string)
    requires !IsLoadResult(d) && !IsSetResult(d)
    requires Get(d, "applied_count") == Some(JInt(count))
    requires Get(d, "total_fields_filled") == Some(JStr(total))
    ensures FormatToolResult(JObject(d)) == Err(TYPE_ERROR)
  {
  }
}
