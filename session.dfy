/**
 * `FormFillingSession` and the tool bodies that read and change it: loading
 * a document, the read views, staging, review, the batch commit, and the
 * reset or soft reset at the start of a turn. Each tool is a method on the
 * session; the results the chat view digests are built as JSON.
 */
module Agent {
  import opened Wrappers
  import opened Dicts
  import opened PyStr
  import opened PdfProcessor
  import opened Views
  import opened Commit
  import opened ToolResults

  const NO_PDF: string := "No PDF loaded."
  const NO_PDF_LIST: string := "No PDF loaded. Call load_pdf first."

  /** A staged value as JSON. */
  function ValueJson(v: Value): Json {
    match v
    case Str(s) => JStr(s)
    case Bool(b) => JBool(b)
  }

  /**
   * What loading a path gives: the open raises; the open succeeds and reading
   * the bytes or detecting the fields raises; or all of it succeeds.
   */
  datatype LoadOutcome =
    | OpenFailed(message: string)
    | ReadFailed(document: Document, message: string)
    | Opened(d: Document)

  /** `{"error": message}` */
  function ErrorJson(message: string): Json {
    JObject([("error", JStr(message))])
  }

  /** The result of a successful load. */
  function LoadJson(count: nat): Json {
    JObject([
      ("success", JBool(true)),
      ("message", JStr("Loaded PDF with " + NatToString(count) + " form fields")),
      ("field_count", JInt(count))])
  }

  /** The result of a load that raised. */
  function LoadErrorJson(message: string): Json {
    JObject([("success", JBool(false)), ("error", JStr(message))])
  }

  /** The result of a successful `set_field`. */
  function SetJson(id: string, v: Value, pendingCount: nat): Json {
    JObject([
      ("success", JBool(true)),
      ("field_id", JStr(id)),
      ("value", ValueJson(v)),
      ("pending_count", JInt(pendingCount))])
  }

  function EntryJson(e: PendingEntry): Json {
    JObject([
      ("field_id", JStr(e.fieldId)),
      ("value", ValueJson(e.value)),
      ("label_context", JStr(e.labelContext)),
      ("type", JStr(e.typeName))])
  }

  /** The result of `get_pending_edits`. */
  function PendingJson(edits: seq<PendingEntry>): Json {
    JObject([
      ("pending_edits", JList(seq(|edits|, i requires 0 <= i < |edits| => EntryJson(edits[i])))),
      ("count", JInt(|edits|))])
  }

  /** What `commit_edits` reports. */
  datatype CommitReport = CommitReport(
    success: bool,
    applied: seq<(string, Value)>,
    appliedCount: nat,
    totalFilled: nat,
    errors: seq<string>,
    outputPath: string)

  function AppliedJson(applied: seq<(string, Value)>): Json {
    JList(seq(|applied|, i requires 0 <= i < |applied| =>
      JObject([("field_id", JStr(applied[i].0)), ("value", ValueJson(applied[i].1))])))
  }

  function CommitJson(r: CommitReport): Json {
    JObject([
      ("success", JBool(r.success)),
      ("applied", AppliedJson(r.applied)),
      ("applied_count", JInt(r.appliedCount)),
      ("total_fields_filled", JInt(r.totalFilled)),
      ("errors", JList(seq(|r.errors|, i requires 0 <= i < |r.errors| => JStr(r.errors[i])))),
      ("output_path", JStr(r.outputPath))])
  }

  /** The value `set_field` stages: a checkbox takes the truth of the value, any other field the value itself. */
  function StagedValue(f: DetectedField, v: Value): (r: Value)
    ensures f.fieldType == Checkbox ==> r == Bool(Ticks(v))
    ensures f.fieldType != Checkbox ==> r == v
  {
    if f.fieldType == Checkbox then Bool(Ticks(v)) else v
  }

  /** `pending_count` after staging: the number of distinct staged ids, the new one included. */
  lemma StagedCount(pending: Dict<Value>, id: string, v: Value)
    requires Distinct(pending)
    ensures |Put(pending, id, v)| == |Keys(pending) + {id}|
  {
    DistinctSize(Put(pending, id, v));
  }

  /** The commit's search for the widget of one staged edit: the `for widget in page.widgets()` loop with its `break`. */
  method CommitEntry(doc: Document, fields: seq<DetectedField>, faults: map<string, string>, id: string)
    returns (o: Outcome)
    ensures o == EntryOutcome(doc, fields, faults, id)
  {
    var found := FindField(fields, id);
    if found.None? {
      return NotFound;
    }
    var p := found.value.page;
    if p >= |doc| {
      return Failed(PAGE_MISSING);
    }
    var ws := doc[p];
    var j := 0;
    while j < |ws| && WidgetFieldId(p, ws[j]) != id
      invariant 0 <= j <= |ws|
      invariant forall k :: 0 <= k < j ==> WidgetFieldId(p, ws[k]) != id
    {
      j := j + 1;
    }
    if j == |ws| {
      return NoWidget;
    }
    if id in faults {
      return Failed(faults[id]);
    }
    return Write(p, j);
  }

  /**
   * The commit loop over the staged edits, in staging order: the outcome of
   * each is found by `CommitEntry`, a written widget gets its new value, and
   * the edit joins `applied` and `applied_edits`; a failure adds its error.
   */
  method CommitPending(doc: Document, fields: seq<DetectedField>, faults: map<string, string>,
                       entries: Dict<Value>, appliedEdits: Dict<Value>)
    returns (st: CommitState)
    requires Distinct(appliedEdits)
    ensures st == Run(CommitState(doc, [], [], appliedEdits), fields, faults, entries)
    ensures Distinct(st.appliedEdits)
  {
    ghost var st0 := CommitState(doc, [], [], appliedEdits);
    var d := doc;
    var appliedList: seq<(string, Value)> := [];
    var errors: seq<string> := [];
    var ae := appliedEdits;
    var i := 0;
    while i < |entries|
      invariant 0 <= i <= |entries|
      invariant Distinct(ae)
      invariant CommitState(d, appliedList, errors, ae) == Run(st0, fields, faults, entries[..i])
    {
      var id, v := entries[i].0, entries[i].1;
      var o := CommitEntry(d, fields, faults, id);
      match o {
        case Write(p, j) =>
          var w := d[p][j].(value := Some(CommitValue(FindField(fields, id).value, v)));
          AdvanceWrites(st0, fields, faults, entries, i, CommitState(d, appliedList, errors, ae), p, j, w);
          d := d[p := d[p][j := w]];
          appliedList := appliedList + [entries[i]];
          ae := Put(ae, id, v);
        case _ =>
          AdvanceSkips(st0, fields, faults, entries, i, CommitState(d, appliedList, errors, ae));
          errors := errors + ErrorOf(id, o);
      }
      i := i + 1;
    }
    assert entries[..i] == entries;
    st := CommitState(d, appliedList, errors, ae);
  }

  class FormFillingSession {
    var doc: Option<Document>
    var pdfPath: Option<string>
    var outputPath: Option<string>
    var fields: seq<DetectedField>
    var pending: Dict<Value>
    var applied: Dict<Value>
    /** The document as last saved, kept for the next turn. */
    var currentPdf: Option<Document>
    var isContinuation: bool

    /** Both edit maps are dicts, and a loaded document has a path. */
    ghost predicate Valid()
      reads this
    {
      Distinct(pending) && Distinct(applied) && (doc.Some? ==> pdfPath.Some?)
    }

    /** `if not _session.doc`: a document with no pages is falsy too. */
    predicate Loaded()
      reads this
    {
      doc.Some? && doc.value != []
    }

    constructor()
      ensures Valid()
      ensures doc == None && pdfPath == None && outputPath == None && currentPdf == None
      ensures fields == [] && pending == [] && applied == [] && !isContinuation
    {
      doc := None;
      pdfPath := None;
      outputPath := None;
      fields := [];
      pending := [];
      applied := [];
      currentPdf := None;
      isContinuation := false;
    }

    /** `reset`: everything cleared. */
    method Reset()
      modifies this
      ensures Valid()
      ensures doc == None && pdfPath == None && outputPath == None && currentPdf == None
      ensures fields == [] && pending == [] && applied == [] && !isContinuation
    {
      doc := None;
      pdfPath := None;
      outputPath := None;
      fields := [];
      pending := [];
      applied := [];
      currentPdf := None;
      isContinuation := false;
    }

    /** `soft_reset`: the staged edits are dropped and nothing else changes. */
    method SoftReset()
      requires Valid()
      modifies this`pending
      ensures Valid()
      ensures pending == []
      ensures doc == old(doc) && pdfPath == old(pdfPath) && outputPath == old(outputPath) && fields == old(fields)
      ensures applied == old(applied) && currentPdf == old(currentPdf) && isContinuation == old(isContinuation)
    {
      pending := [];
    }

    /**
     * The reset at the start of a turn and `_create_agent_options` storing
     * its arguments: a continuation keeps the document and what was applied,
     * replaced by `previousEdits` when those are non-empty.
     */
    method StartTurn(continuation: bool, previousEdits: Dict<Value>, output: Option<string>)
      requires Valid() && Distinct(previousEdits)
      modifies this
      ensures Valid()
      ensures outputPath == output && isContinuation == continuation && pending == []
      ensures continuation ==>
        && doc == old(doc) && pdfPath == old(pdfPath) && fields == old(fields) && currentPdf == old(currentPdf)
        && applied == (if previousEdits != [] then previousEdits else old(applied))
      ensures !continuation ==>
        doc == None && pdfPath == None && currentPdf == None && fields == [] && applied == []
    {
      if continuation {
        SoftReset();
        if previousEdits != [] {
          applied := previousEdits;
        }
      } else {
        Reset();
      }
      outputPath := output;
      isContinuation := continuation;
    }

    /**
     * `load_pdf`: `opening` is what opening `path`, reading its bytes and
     * detecting its fields give. The document and path are stored as soon as
     * the open succeeds, so a later failure leaves them set over the old
     * fields and edits. A full success detects the fields and drops the staged
     * edits, and drops the applied ones too unless the turn is a continuation.
     */
    method LoadPdf(path: string, opening: LoadOutcome) returns (result: Json)
      requires Valid()
      modifies this
      ensures Valid()
      ensures outputPath == old(outputPath) && currentPdf == old(currentPdf) && isContinuation == old(isContinuation)
      ensures opening.OpenFailed? ==>
        && result == LoadErrorJson(opening.message)
        && doc == old(doc) && pdfPath == old(pdfPath) && fields == old(fields)
        && pending == old(pending) && applied == old(applied)
      ensures opening.ReadFailed? ==>
        && result == LoadErrorJson(opening.message)
        && doc == Some(opening.document) && pdfPath == Some(path) && fields == old(fields)
        && pending == old(pending) && applied == old(applied)
      ensures opening.Opened? ==>
        && doc == Some(opening.d) && pdfPath == Some(path)
        && fields == Detected(opening.d) && pending == []
        && applied == (if isContinuation then old(applied) else [])
        && result == LoadJson(|fields|)
    {
      match opening {
        case OpenFailed(e) =>
          result := LoadErrorJson(e);
        case ReadFailed(d, e) =>
          doc := Some(d);
          pdfPath := Some(path);
          result := LoadErrorJson(e);
        case Opened(d) =>
          doc := Some(d);
          pdfPath := Some(path);
          fields := DetectFormFields(d);
          pending := [];
          if !isContinuation {
            applied := [];
          }
          result := LoadJson(|fields|);
      }
    }

    /** `list_all_fields`: every snapshot field, a committed value in preference to the detected one. */
    method ListAllFields() returns (r: Result<seq<FieldInfo>, string>)
      ensures !Loaded() ==> r == Err(NO_PDF_LIST)
      ensures Loaded() ==> r == Ok(ListView(fields, applied))
    {
      if !Loaded() {
        return Err(NO_PDF_LIST);
      }
      var out: seq<FieldInfo> := [];
      var i := 0;
      while i < |fields|
        invariant 0 <= i <= |fields|
        invariant |out| == i
        invariant forall k :: 0 <= k < i ==> out[k] == ListInfo(fields[k], applied)
      {
        out := out + [ListInfo(fields[i], applied)];
        i := i + 1;
      }
      assert out == ListView(fields, applied);
      return Ok(out);
    }

    /** `search_fields`: the matching fields in snapshot order, at most ten. */
    method SearchFields(query: string) returns (r: Result<seq<SearchHit>, string>)
      ensures !Loaded() ==> r == Err(NO_PDF)
      ensures Loaded() ==> r == Ok(SearchView(query, fields, applied))
    {
      if !Loaded() {
        return Err(NO_PDF);
      }
      var results: seq<SearchHit> := [];
      var i := 0;
      while i < |fields|
        invariant 0 <= i <= |fields|
        invariant results == Hits(query, fields[..i], applied)
      {
        var f := fields[i];
        assert fields[..i + 1][..i] == fields[..i];
        if SearchMatches(query, f.labelContext) {
          results := results + [SearchInfo(f, applied)];
        }
        i := i + 1;
      }
      assert fields[..i] == fields;
      return Ok(Take(results, SEARCH_LIMIT));
    }

    /** `get_field_details` */
    method GetFieldDetails(id: string) returns (r: Result<Details, string>)
      ensures !Loaded() ==> r == Err(NO_PDF)
      ensures Loaded() ==> r == DetailsView(fields, pending, applied, id)
    {
      if !Loaded() {
        return Err(NO_PDF);
      }
      return DetailsView(fields, pending, applied, id);
    }

    /**
     * `set_field`: an id of the snapshot is staged, coerced for a checkbox,
     * overwriting an earlier staging of the same id; anything else is refused
     * and stages nothing.
     */
    method SetField(id: string, v: Value) returns (result: Json)
      requires Valid()
      modifies this`pending
      ensures Valid()
      ensures !Loaded() ==> result == ErrorJson(NO_PDF) && pending == old(pending)
      ensures Loaded() && FindField(fields, id).None? ==>
        result == ErrorJson(FieldNotFound(id)) && pending == old(pending)
      ensures Loaded() && FindField(fields, id).Some? ==>
        var staged := StagedValue(FindField(fields, id).value, v);
        && pending == Put(old(pending), id, staged)
        && Get(pending, id) == Some(staged)
        && result == SetJson(id, staged, |pending|)
    {
      if !Loaded() {
        return ErrorJson(NO_PDF);
      }
      var found := FindField(fields, id);
      if found.None? {
        return ErrorJson(FieldNotFound(id));
      }
      var staged := StagedValue(found.value, v);
      pending := Put(pending, id, staged);
      result := SetJson(id, staged, |pending|);
    }

    /** `get_pending_edits`: one entry per staged edit, in staging order; it needs no document. */
    method GetPendingEdits() returns (edits: seq<PendingEntry>)
      ensures edits == PendingView(fields, pending)
    {
      edits := [];
      var i := 0;
      while i < |pending|
        invariant 0 <= i <= |pending|
        invariant |edits| == i
        invariant forall k :: 0 <= k < i ==> edits[k] == PendingInfo(fields, pending[k].0, pending[k].1)
      {
        edits := edits + [PendingInfo(fields, pending[i].0, pending[i].1)];
        i := i + 1;
      }
    }

    /**
     * `commit_edits`: `faults` holds the message of each widget write the
     * engine refuses and `save` what saving reports. Each staged edit is
     * tried in order (see `Commit.Run`); `applied_edits` is updated as the loop
     * goes, the save's error is added at the end, and the staged edits are
     * dropped whatever failed.
     */
    method CommitEdits(outputArg: Option<string>, faults: map<string, string>, save: SaveOutcome)
      returns (r: Result<CommitReport, string>)
      requires Valid()
      modifies this
      ensures Valid()
      ensures fields == old(fields) && pdfPath == old(pdfPath) && outputPath == old(outputPath)
      ensures isContinuation == old(isContinuation)
      ensures !old(Loaded()) ==>
        r == Err(NO_PDF) && doc == old(doc) && pending == old(pending) && applied == old(applied)
        && currentPdf == old(currentPdf)
      ensures old(Loaded()) ==>
        var st := Run(CommitState(old(doc).value, [], [], old(applied)), fields, faults, old(pending));
        && doc == Some(st.doc) && applied == st.appliedEdits && pending == []
        && currentPdf == (if save.SaveError? then old(currentPdf) else Some(st.doc))
        && r.Ok?
        && r.value.applied == st.applied
        && r.value.errors == st.errors + SaveErrors(save)
        && r.value.outputPath == OutputPathChoice(outputArg, outputPath, pdfPath.value)
        && r.value.success == (r.value.errors == [])
        && r.value.appliedCount == |r.value.applied|
        && r.value.totalFilled == |applied|
    {
      if !Loaded() {
        return Err(NO_PDF);
      }
      var path := OutputPathChoice(outputArg, outputPath, pdfPath.value);
      var st := CommitPending(doc.value, fields, faults, pending, applied);
      var d, appliedList, errors := st.doc, st.applied, st.errors;
      applied := st.appliedEdits;
      doc := Some(d);
      if !save.SaveError? {
        currentPdf := Some(d);
      }
      errors := errors + SaveErrors(save);
      pending := [];
      r := Ok(CommitReport(errors == [], appliedList, |appliedList|, |applied|, errors, path));
    }
  }

  // ---------------------------------------------------------------------------
  // What the chat view shows for these results
  // ---------------------------------------------------------------------------

  /** A key no entry carries is absent. */
  lemma Absent(d: Dict<Json>, k: string)
    requires forall i :: 0 <= i < |d| ==> d[i].0 != k
    ensures !Has(d, k) && Get(d, k) == None
  {
  }

  /** A successful load is digested with its field count. */
  lemma LoadDigested(count: nat)
    ensures FormatToolResult(LoadJson(count)) == Ok(Some(Found(JInt(count))))
  {
    var d := LoadJson(count).entries;
    assert d[2] == ("field_count", JInt(count)) && d[0].0 == "success";
    assert Get(d, "field_count") == Some(JInt(count)) by { GetAt(d, 2); }
  }

  /** A successful staging is digested with a preview of the staged value and the pending count. */
  lemma SetDigested(id: string, v: Value, pendingCount: nat)
    ensures FormatToolResult(SetJson(id, v, pendingCount))
      == Ok(Some(Queued(Preview(ValueJson(v)), JInt(pendingCount))))
  {
    var d := SetJson(id, v, pendingCount).entries;
    Absent(d, "field_count");
    assert d[1].0 == "field_id" && d[2] == ("value", ValueJson(v)) && d[3] == ("pending_count", JInt(pendingCount));
    assert Get(d, "value") == Some(ValueJson(v)) by { GetAt(d, 2); }
    assert Get(d, "pending_count") == Some(JInt(pendingCount)) by { GetAt(d, 3); }
  }

  /** A commit result is digested with its counts, showing the total exactly when earlier turns added to it. */
  lemma CommitDigested(r: CommitReport)
    ensures FormatToolResult(CommitJson(r))
      == Ok(Some(Applied(JInt(r.appliedCount), JInt(r.totalFilled), r.totalFilled > r.appliedCount)))
  {
    var d := CommitJson(r).entries;
    Absent(d, "field_count");
    Absent(d, "field_id");
    assert d[2] == ("applied_count", JInt(r.appliedCount)) && d[3] == ("total_fields_filled", JInt(r.totalFilled));
    assert Get(d, "applied_count") == Some(JInt(r.appliedCount)) by { GetAt(d, 2); }
    assert Get(d, "total_fields_filled") == Some(JInt(r.totalFilled)) by { GetAt(d, 3); }
    CommitDigest(d, r.appliedCount, r.totalFilled);
  }

  /** A review is digested exactly when something is staged. */
  lemma PendingDigested(edits: seq<PendingEntry>)
    ensures FormatToolResult(PendingJson(edits)) == Ok(if edits == [] then None else Some(ReadyToApply(|edits|)))
  {
    var d := PendingJson(edits).entries;
    Absent(d, "field_count");
    Absent(d, "field_id");
    Absent(d, "applied_count");
    assert Get(d, "pending_edits") == Some(d[0].1) by { GetAt(d, 0); }
  }

  /** Error results and failed loads have no digest. */
  lemma ErrorsNotDigested(message: string)
    ensures FormatToolResult(ErrorJson(message)) == Ok(None)
    ensures FormatToolResult(LoadErrorJson(message)) == Ok(None)
  {
    var d := LoadErrorJson(message).entries;
    Absent(d, "field_count");
    Absent(d, "field_id");
    Absent(d, "applied_count");
    Absent(d, "pending_edits");
    var e := ErrorJson(message).entries;
    Absent(e, "field_count");
    Absent(e, "field_id");
    Absent(e, "applied_count");
    Absent(e, "pending_edits");
  }
}
