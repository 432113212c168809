/**
 * What the read-only tools report about the field snapshot: the field list,
 * the search, the details of one field and the review of staged edits. Each
 * shows a committed value (`applied_edits`) in preference to the value the
 * snapshot was detected with.
 */
module Views {
  import opened Wrappers
  import opened Dicts
  import opened PyStr
  import opened PdfProcessor

  /** `next((f for f in fields if f.field_id == id), None)` */
  function FindField(fields: seq<DetectedField>, id: string): (r: Option<DetectedField>)
    ensures r.Some? ==> r.value in fields && r.value.fieldId == id
    ensures r.None? <==> forall i :: 0 <= i < |fields| ==> fields[i].fieldId != id
  {
    if fields == [] then None
    else if fields[0].fieldId == id then Some(fields[0])
    else
      var r := FindField(fields[1..], id);
      assert forall i :: 1 <= i < |fields| ==> fields[i] == fields[1..][i - 1];
      r
  }

  /** The search stops at the first field with the id. */
  lemma {:induction false} FindFieldFirst(fields: seq<DetectedField>, id: string, i: nat)
    requires i < |fields| && fields[i].fieldId == id
    requires forall k :: 0 <= k < i ==> fields[k].fieldId != id
    ensures FindField(fields, id) == Some(fields[i])
  {
    if i > 0 {
      FindFieldFirst(fields[1..], id, i - 1);
    }
  }

  /** The snapshot's value as a field value. */
  function SnapshotValue(f: DetectedField): Option<Value> {
    match f.currentValue
    case Some(s) => Some(Str(s))
    case None => None
  }

  // ---------------------------------------------------------------------------
  // list_all_fields
  // ---------------------------------------------------------------------------

  const LIST_CONTEXT_LENGTH: nat := 100

  datatype FieldInfo = FieldInfo(
    fieldId: string,
    fieldType: FieldType,
    page: nat,
    labelContext: string,
    hasOptions: bool,
    currentValue: Option<Value>)

  /**
   * The value the list shows: the committed one if there is one, otherwise
   * the snapshot's when it is a non-empty string, otherwise none.
   */
  function ListedValue(f: DetectedField, applied: Dict<Value>): (r: Option<Value>)
    ensures f.fieldId in Keys(applied) ==> r == Get(applied, f.fieldId)
    ensures f.fieldId !in Keys(applied) ==>
      (r.Some? <==> f.currentValue.Some? && f.currentValue.value != "")
    ensures f.fieldId !in Keys(applied) && r.Some? ==> r == SnapshotValue(f)
  {
    if f.fieldId in Keys(applied) then Get(applied, f.fieldId)
    else if f.currentValue.Some? && f.currentValue.value != "" then SnapshotValue(f)
    else None
  }

  function ListInfo(f: DetectedField, applied: Dict<Value>): FieldInfo {
    FieldInfo(f.fieldId, f.fieldType, f.page, Take(f.labelContext, LIST_CONTEXT_LENGTH),
      f.options.Some?, ListedValue(f, applied))
  }

  /** The list `list_all_fields` builds: one entry per snapshot field, in order. */
  function ListView(fields: seq<DetectedField>, applied: Dict<Value>): (r: seq<FieldInfo>)
    ensures |r| == |fields|
    ensures forall i :: 0 <= i < |fields| ==> r[i] == ListInfo(fields[i], applied)
  {
    seq(|fields|, i requires 0 <= i < |fields| => ListInfo(fields[i], applied))
  }

  // ---------------------------------------------------------------------------
  // search_fields
  // ---------------------------------------------------------------------------

  const SEARCH_CONTEXT_LENGTH: nat := 150
  const SEARCH_LIMIT: nat := 10

  datatype SearchHit = SearchHit(
    fieldId: string,
    fieldType: FieldType,
    page: nat,
    labelContext: string,
    options: Option<seq<string>>,
    currentValue: Option<Value>)

  /** `query in context_lower or any(word in context_lower for word in query.split())`, both lower-cased. */
  predicate SearchMatches(query: string, context: string) {
    var q, c := Lower(query), Lower(context);
    Contains(c, q) || exists k :: 0 <= k < |Words(q)| && Contains(c, Words(q)[k])
  }

  function SearchInfo(f: DetectedField, applied: Dict<Value>): SearchHit {
    SearchHit(f.fieldId, f.fieldType, f.page, Take(f.labelContext, SEARCH_CONTEXT_LENGTH),
      f.options, Get(applied, f.fieldId))
  }

  /** Every matching field, in snapshot order, before the cut to ten. */
  function Hits(query: string, fields: seq<DetectedField>, applied: Dict<Value>): seq<SearchHit> {
    if fields == [] then []
    else
      var f := Last(fields);
      Hits(query, fields[..|fields| - 1], applied)
        + (if SearchMatches(query, f.labelContext) then [SearchInfo(f, applied)] else [])
  }

  /** `results[:10]` */
  function SearchView(query: string, fields: seq<DetectedField>, applied: Dict<Value>): seq<SearchHit> {
    Take(Hits(query, fields, applied), SEARCH_LIMIT)
  }

  /** Every hit is the entry of a matching snapshot field. */
  lemma {:induction false} HitsSound(query: string, fields: seq<DetectedField>, applied: Dict<Value>, k: nat)
    requires k < |Hits(query, fields, applied)|
    ensures exists i :: (0 <= i < |fields| && SearchMatches(query, fields[i].labelContext)
      && Hits(query, fields, applied)[k] == SearchInfo(fields[i], applied))
  {
    var init := fields[..|fields| - 1];
    var before := Hits(query, init, applied);
    if k < |before| {
      HitsSound(query, init, applied, k);
      var i :| 0 <= i < |init| && SearchMatches(query, init[i].labelContext)
        && before[k] == SearchInfo(init[i], applied);
      assert init[i] == fields[i];
    } else {
      assert Hits(query, fields, applied)[k] == SearchInfo(fields[|fields| - 1], applied);
    }
  }

  /** Every matching snapshot field is a hit. */
  lemma {:induction false} HitsComplete(query: string, fields: seq<DetectedField>, applied: Dict<Value>, i: nat)
    requires i < |fields| && SearchMatches(query, fields[i].labelContext)
    ensures SearchInfo(fields[i], applied) in Hits(query, fields, applied)
  {
    var init := fields[..|fields| - 1];
    var here := if SearchMatches(query, Last(fields).labelContext) then [SearchInfo(Last(fields), applied)] else [];
    if i < |init| {
      HitsComplete(query, init, applied, i);
      assert init[i] == fields[i];
    }
    InAppend(SearchInfo(fields[i], applied), Hits(query, init, applied), here);
  }

  lemma {:induction false} HitsBound(query: string, fields: seq<DetectedField>, applied: Dict<Value>)
    ensures |Hits(query, fields, applied)| <= |fields|
  {
    if fields != [] {
      HitsBound(query, fields[..|fields| - 1], applied);
    }
  }

  /**
   * The hits keep snapshot order: the hits among the first `i` fields are
   * the first hits of all of them, so the first ten come from the earliest
   * matching fields.
   */
  lemma {:induction false} HitsPrefix(query: string, fields: seq<DetectedField>, applied: Dict<Value>, i: nat)
    requires i <= |fields|
    ensures var before := Hits(query, fields[..i], applied);
      |before| <= |Hits(query, fields, applied)| && Hits(query, fields, applied)[..|before|] == before
    decreases |fields|
  {
    if i < |fields| {
      var init := fields[..|fields| - 1];
      assert fields[..i] == init[..i];
      HitsPrefix(query, init, applied, i);
      var whole := Hits(query, fields, applied);
      var mid := Hits(query, init, applied);
      assert whole[..|mid|] == mid;
    } else {
      assert fields[..i] == fields;
    }
  }

  /** At most ten results, each the entry of a matching field, and all of them when there are ten or fewer. */
  lemma SearchViewFacts(query: string, fields: seq<DetectedField>, applied: Dict<Value>)
    ensures |SearchView(query, fields, applied)| <= SEARCH_LIMIT
    ensures |Hits(query, fields, applied)| <= SEARCH_LIMIT ==>
      SearchView(query, fields, applied) == Hits(query, fields, applied)
    ensures |SearchView(query, fields, applied)| <= |fields|
  {
    HitsBound(query, fields, applied);
  }

  /** An empty query is contained in every context, so it returns the first ten fields. */
  lemma {:induction false} EmptyQueryMatchesAll(fields: seq<DetectedField>, applied: Dict<Value>)
    ensures |Hits("", fields, applied)| == |fields|
  {
    if fields != [] {
      EmptyQueryMatchesAll(fields[..|fields| - 1], applied);
      assert Lower("") == "";
      assert StartsWith(Lower(Last(fields).labelContext), "");
    }
  }

  /** A context holding one word of the query matches, even when the whole query does not occur. */
  lemma WordMatches(query: string, context: string, k: nat)
    requires k < |Words(Lower(query))| && Contains(Lower(context), Words(Lower(query))[k])
    ensures SearchMatches(query, context)
  {
  }

  // ---------------------------------------------------------------------------
  // get_field_details
  // ---------------------------------------------------------------------------

  datatype Details = Details(
    fieldId: string,
    fieldType: FieldType,
    page: nat,
    labelContext: string,
    options: Option<seq<string>>,
    pendingValue: Option<Value>,
    currentValue: Option<Value>)

  /** `applied_edits.get(id) or field.current_value`: a falsy committed value gives way to the snapshot. */
  function DetailValue(f: DetectedField, applied: Dict<Value>): (r: Option<Value>)
    ensures Get(applied, f.fieldId).Some? && BoolOf(Get(applied, f.fieldId).value) ==> r == Get(applied, f.fieldId)
    ensures !(Get(applied, f.fieldId).Some? && BoolOf(Get(applied, f.fieldId).value)) ==> r == SnapshotValue(f)
  {
    var a := Get(applied, f.fieldId);
    if a.Some? && BoolOf(a.value) then a else SnapshotValue(f)
  }

  const NOT_FOUND_PREFIX: string := "Field not found: "

  function FieldNotFound(id: string): string {
    NOT_FOUND_PREFIX + id
  }

  /** `get_field_details` once a document is loaded. */
  function DetailsView(fields: seq<DetectedField>, pending: Dict<Value>, applied: Dict<Value>, id: string)
    : (r: Result<Details, string>)
    ensures r.Err? <==> FindField(fields, id).None?
    ensures r.Err? ==> r.error == FieldNotFound(id)
    ensures r.Ok? ==> r.value.fieldId == id && r.value.pendingValue == Get(pending, id)
    ensures r.Ok? ==> var f := FindField(fields, id).value;
      && r.value.fieldType == f.fieldType && r.value.page == f.page
      && r.value.labelContext == f.labelContext && r.value.options == f.options
      && r.value.currentValue == DetailValue(f, applied)
  {
    match FindField(fields, id)
    case None => Err(FieldNotFound(id))
    case Some(f) =>
      Ok(Details(f.fieldId, f.fieldType, f.page, f.labelContext, f.options,
        Get(pending, id), DetailValue(f, applied)))
  }

  /**
   * The list and the details agree on a committed value that is truthy, but
   * not on a committed `False` or empty string: the details then fall back
   * to the value detected at load time.
   */
  lemma DetailsMaskFalsy(f: DetectedField, applied: Dict<Value>, v: Value)
    requires Get(applied, f.fieldId) == Some(v)
    ensures ListedValue(f, applied) == Some(v)
    ensures DetailValue(f, applied) == if BoolOf(v) then Some(v) else SnapshotValue(f)
  {
  }

  /** A concrete case: a checkbox ticked at load time and committed unticked still shows as ticked in the details. */
  lemma UntickedShowsTicked()
    ensures var f := DetectedField("page0_Agree", Checkbox, 0, "", Some("true"), None, Some("Agree"));
      var applied := [("page0_Agree", Bool(false))];
      ListedValue(f, applied) == Some(Bool(false)) && DetailValue(f, applied) == Some(Str("true"))
  {
    var applied := [("page0_Agree", Bool(false))];
    assert "page0_Agree" in Keys(applied) by { assert applied[0].0 == "page0_Agree"; }
  }

  // ---------------------------------------------------------------------------
  // get_pending_edits
  // ---------------------------------------------------------------------------

  const PENDING_CONTEXT_LENGTH: nat := 80
  const UNKNOWN: string := "unknown"

  datatype PendingEntry = PendingEntry(fieldId: string, value: Value, labelContext: string, typeName: string)

  /** One staged edit with what the snapshot knows of its field, `unknown` when it knows nothing. */
  function PendingInfo(fields: seq<DetectedField>, id: string, v: Value): (r: PendingEntry)
    ensures r.fieldId == id && r.value == v
    ensures FindField(fields, id).None? ==> r.labelContext == UNKNOWN && r.typeName == UNKNOWN
    ensures FindField(fields, id).Some? ==> var f := FindField(fields, id).value;
      && r.typeName == FieldTypeName(f.fieldType)
      && |r.labelContext| == (if |f.labelContext| <= PENDING_CONTEXT_LENGTH then |f.labelContext| else PENDING_CONTEXT_LENGTH)
      && r.labelContext == f.labelContext[..|r.labelContext|]
  {
    match FindField(fields, id)
    case None => PendingEntry(id, v, UNKNOWN, UNKNOWN)
    case Some(f) => PendingEntry(id, v, Take(f.labelContext, PENDING_CONTEXT_LENGTH), FieldTypeName(f.fieldType))
  }

  /** The review: one entry per staged edit, in staging order. */
  function PendingView(fields: seq<DetectedField>, pending: Dict<Value>): (r: seq<PendingEntry>)
    ensures |r| == |pending|
    ensures forall i :: 0 <= i < |pending| ==> r[i] == PendingInfo(fields, pending[i].0, pending[i].1)
  {
    seq(|pending|, i requires 0 <= i < |pending| => PendingInfo(fields, pending[i].0, pending[i].1))
  }
}
