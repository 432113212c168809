/**
 * The best-effort batch commit of `tool_commit_edits`: every staged edit is
 * tried in staging order, successes are collected in `applied` and recorded
 * in `applied_edits`, failures become error strings, and nothing undoes an
 * earlier success when a later step or the save fails.
 */
module Commit {
  import opened Wrappers
  import opened Dicts
  import opened PyStr
  import opened PdfProcessor
  import opened Views

  /** What saving reports: saved and read back, an exception, or no file found afterwards. */
  datatype SaveOutcome = Saved | SaveError(message: string) | NotCreated

  /** The message of the engine's exception for a page index past the last page. */
  const PAGE_MISSING: string := "page not in document"

  /** `f"page{field.page}_{widget.field_name}"`, where an absent name prints as `None`. */
  function WidgetFieldId(p: nat, w: Widget): string {
    PageFieldId(p, if w.name == "" then "None" else w.name)
  }

  /** The loop over `page.widgets()` with its `break`: the first widget whose id is `id`. */
  function FirstMatch(p: nat, ws: seq<Widget>, id: string): (r: Option<nat>)
    ensures r.Some? ==> r.value < |ws| && WidgetFieldId(p, ws[r.value]) == id
    ensures r.Some? ==> forall k :: 0 <= k < r.value ==> WidgetFieldId(p, ws[k]) != id
    ensures r.None? <==> forall k :: 0 <= k < |ws| ==> WidgetFieldId(p, ws[k]) != id
  {
    if ws == [] then None
    else if WidgetFieldId(p, ws[0]) == id then Some(0)
    else
      var r := FirstMatch(p, ws[1..], id);
      assert forall k :: 1 <= k < |ws| ==> ws[k] == ws[1..][k - 1];
      match r
      case None => None
      case Some(k) => Some(k + 1)
  }

  /** `bool(value)` for a field the snapshot calls a checkbox, `str(value)` for any other. */
  function CommitValue(f: DetectedField, v: Value): (r: Value)
    ensures f.fieldType == Checkbox ==> r == Bool(BoolOf(v))
    ensures f.fieldType != Checkbox ==> r == Str(StrOf(v))
  {
    if f.fieldType == Checkbox then Bool(BoolOf(v)) else Str(StrOf(v))
  }

  /** What happens to one staged edit. */
  datatype Outcome =
    | NotFound                       // no field with the id in the snapshot
    | Failed(message: string)        // an exception while writing the widget
    | NoWidget                       // the field's page has no widget with the id
    | Write(page: nat, index: nat)   // the widget written

  /** The outcome of staged edit `id`; `faults` holds the message of each write the engine refuses. */
  function EntryOutcome(doc: Document, fields: seq<DetectedField>, faults: map<string, string>, id: string)
    : (o: Outcome)
    ensures o == NotFound <==> FindField(fields, id).None?
    ensures o.Write? ==> FindField(fields, id).Some? && o.page == FindField(fields, id).value.page
    ensures o.Write? ==> o.page < |doc| && FirstMatch(o.page, doc[o.page], id) == Some(o.index)
    ensures o.Write? ==> o.index < |doc[o.page]| && WidgetFieldId(o.page, doc[o.page][o.index]) == id
    ensures o.Write? ==> id !in faults
    ensures var found := FindField(fields, id);
      found.Some? && found.value.page >= |doc| ==> o == Failed(PAGE_MISSING)
    ensures var found := FindField(fields, id);
      found.Some? && found.value.page < |doc| && FirstMatch(found.value.page, doc[found.value.page], id).None? ==>
        o == NoWidget
    ensures var found := FindField(fields, id);
      found.Some? && found.value.page < |doc| && FirstMatch(found.value.page, doc[found.value.page], id).Some? ==>
        o == if id in faults then Failed(faults[id])
             else Write(found.value.page, FirstMatch(found.value.page, doc[found.value.page], id).value)
  {
    match FindField(fields, id)
    case None => NotFound
    case Some(f) =>
      if f.page >= |doc| then Failed(PAGE_MISSING)
      else
        match FirstMatch(f.page, doc[f.page], id)
        case None => NoWidget
        case Some(j) => if id in faults then Failed(faults[id]) else Write(f.page, j)
  }

  function FailedToApply(id: string, message: string): string {
    "Failed to apply " + id + ": " + message
  }

  /** The error string an outcome adds, if any. */
  function ErrorOf(id: string, o: Outcome): seq<string> {
    match o
    case NotFound => [FieldNotFound(id)]
    case Failed(m) => [FailedToApply(id, m)]
    case _ => []
  }

  /** The same number of pages, and of widgets on each page. */
  ghost predicate SameShape(a: Document, b: Document) {
    |a| == |b| && forall p :: 0 <= p < |a| ==> |a[p]| == |b[p]|
  }

  /** The document, `applied`, `errors` and `applied_edits` as the loop goes. */
  datatype CommitState = CommitState(
    doc: Document,
    applied: seq<(string, Value)>,
    errors: seq<string>,
    appliedEdits: Dict<Value>)

  /** One turn of the loop. */
  function Step(st: CommitState, fields: seq<DetectedField>, faults: map<string, string>, id: string, v: Value)
    : (r: CommitState)
    ensures SameShape(st.doc, r.doc)
  {
    var o := EntryOutcome(st.doc, fields, faults, id);
    match o
    case Write(p, j) =>
      var w := st.doc[p][j].(value := Some(CommitValue(FindField(fields, id).value, v)));
      CommitState(st.doc[p := st.doc[p][j := w]], st.applied + [(id, v)], st.errors,
        Put(st.appliedEdits, id, v))
    case _ => st.(errors := st.errors + ErrorOf(id, o))
  }

  /** The loop over the staged edits, in staging order. */
  function Run(st: CommitState, fields: seq<DetectedField>, faults: map<string, string>, entries: Dict<Value>)
    : (r: CommitState)
    ensures SameShape(st.doc, r.doc)
  {
    if entries == [] then st
    else
      var last := Last(entries);
      Step(Run(st, fields, faults, entries[..|entries| - 1]), fields, faults, last.0, last.1)
  }

  /** A turn that writes widget `j` of page `p`. */
  lemma StepWrites(st: CommitState, fields: seq<DetectedField>, faults: map<string, string>, id: string, v: Value,
                   p: nat, j: nat, w: Widget)
    requires EntryOutcome(st.doc, fields, faults, id) == Write(p, j)
    requires w == st.doc[p][j].(value := Some(CommitValue(FindField(fields, id).value, v)))
    ensures Step(st, fields, faults, id, v)
      == CommitState(st.doc[p := st.doc[p][j := w]], st.applied + [(id, v)], st.errors, Put(st.appliedEdits, id, v))
  {
  }

  /** A turn that writes nothing. */
  lemma StepSkips(st: CommitState, fields: seq<DetectedField>, faults: map<string, string>, id: string, v: Value)
    requires !EntryOutcome(st.doc, fields, faults, id).Write?
    ensures Step(st, fields, faults, id, v)
      == st.(errors := st.errors + ErrorOf(id, EntryOutcome(st.doc, fields, faults, id)))
  {
  }

  /** One more turn of the loop. */
  lemma RunSnoc(st: CommitState, fields: seq<DetectedField>, faults: map<string, string>, entries: Dict<Value>, i: nat)
    requires i < |entries|
    ensures Run(st, fields, faults, entries[..i + 1])
      == Step(Run(st, fields, faults, entries[..i]), fields, faults, entries[i].0, entries[i].1)
  {
    assert entries[..i + 1][..i] == entries[..i];
  }

  /** The loop's state after one more staged edit that writes widget `j` of page `p`. */
  lemma AdvanceWrites(st0: CommitState, fields: seq<DetectedField>, faults: map<string, string>, entries: Dict<Value>,
                      i: nat, st: CommitState, p: nat, j: nat, w: Widget)
    requires i < |entries| && st == Run(st0, fields, faults, entries[..i])
    requires EntryOutcome(st.doc, fields, faults, entries[i].0) == Write(p, j)
    requires w == st.doc[p][j].(value := Some(CommitValue(FindField(fields, entries[i].0).value, entries[i].1)))
    ensures Run(st0, fields, faults, entries[..i + 1])
      == CommitState(st.doc[p := st.doc[p][j := w]], st.applied + [entries[i]], st.errors,
                     Put(st.appliedEdits, entries[i].0, entries[i].1))
  {
    RunSnoc(st0, fields, faults, entries, i);
    StepWrites(st, fields, faults, entries[i].0, entries[i].1, p, j, w);
  }

  /** The loop's state after one more staged edit that writes nothing. */
  lemma AdvanceSkips(st0: CommitState, fields: seq<DetectedField>, faults: map<string, string>, entries: Dict<Value>,
                     i: nat, st: CommitState)
    requires i < |entries| && st == Run(st0, fields, faults, entries[..i])
    requires !EntryOutcome(st.doc, fields, faults, entries[i].0).Write?
    ensures Run(st0, fields, faults, entries[..i + 1])
      == st.(errors := st.errors + ErrorOf(entries[i].0, EntryOutcome(st.doc, fields, faults, entries[i].0)))
  {
    RunSnoc(st0, fields, faults, entries, i);
    StepSkips(st, fields, faults, entries[i].0, entries[i].1);
  }

  /** The error the save adds. */
  function SaveErrors(save: SaveOutcome): seq<string> {
    match save
    case Saved => []
    case SaveError(m) => ["Save failed: " + m]
    case NotCreated => ["File not created after save"]
  }

  // ---------------------------------------------------------------------------
  // Reference definitions, on the document the commit starts from
  // ---------------------------------------------------------------------------

  /** The staged edits that are written, in order. */
  function WrittenEntries(doc: Document, fields: seq<DetectedField>, faults: map<string, string>, entries: Dict<Value>)
    : seq<(string, Value)>
  {
    if entries == [] then []
    else
      var last := Last(entries);
      WrittenEntries(doc, fields, faults, entries[..|entries| - 1])
        + (if EntryOutcome(doc, fields, faults, last.0).Write? then [last] else [])
  }

  /** The errors of the staged edits, in order. */
  function ErrorsFor(doc: Document, fields: seq<DetectedField>, faults: map<string, string>, entries: Dict<Value>)
    : seq<string>
  {
    if entries == [] then []
    else
      var last := Last(entries);
      ErrorsFor(doc, fields, faults, entries[..|entries| - 1])
        + ErrorOf(last.0, EntryOutcome(doc, fields, faults, last.0))
  }

  /** `d[k] = v` for each entry in order. */
  function PutAll(d: Dict<Value>, entries: seq<(string, Value)>): Dict<Value> {
    if entries == [] then d
    else
      var last := Last(entries);
      Put(PutAll(d, entries[..|entries| - 1]), last.0, last.1)
  }

  /** Two documents that differ in widget values only. */
  ghost predicate OnlyValuesDiffer(a: Document, b: Document) {
    && |a| == |b|
    && forall p :: 0 <= p < |a| ==>
         |a[p]| == |b[p]| && forall j :: 0 <= j < |a[p]| ==> a[p][j].(value := b[p][j].value) == b[p][j]
  }

  // ---------------------------------------------------------------------------
  // Properties
  // ---------------------------------------------------------------------------

  lemma {:induction false} FirstMatchStable(p: nat, a: seq<Widget>, b: seq<Widget>, id: string)
    requires |a| == |b| && forall j :: 0 <= j < |a| ==> a[j].name == b[j].name
    ensures FirstMatch(p, a, id) == FirstMatch(p, b, id)
  {
    if a != [] {
      FirstMatchStable(p, a[1..], b[1..], id);
    }
  }

  /** The outcome of an edit depends on the widget names only. */
  lemma OutcomeStable(a: Document, b: Document, fields: seq<DetectedField>, faults: map<string, string>, id: string)
    requires OnlyValuesDiffer(a, b)
    ensures EntryOutcome(a, fields, faults, id) == EntryOutcome(b, fields, faults, id)
  {
    var f := FindField(fields, id);
    if f.Some? && f.value.page < |a| {
      var p := f.value.page;
      assert forall j :: 0 <= j < |a[p]| ==> a[p][j].name == a[p][j].(value := b[p][j].value).name;
      FirstMatchStable(p, a[p], b[p], id);
    }
  }

  lemma OnlyValuesTrans(a: Document, b: Document, c: Document)
    requires OnlyValuesDiffer(a, b) && OnlyValuesDiffer(b, c)
    ensures OnlyValuesDiffer(a, c)
  {
    forall p, j | 0 <= p < |a| && 0 <= j < |a[p]| ensures a[p][j].(value := c[p][j].value) == c[p][j] {
      assert a[p][j].(value := b[p][j].value) == b[p][j];
      assert b[p][j].(value := c[p][j].value) == c[p][j];
    }
  }

  /** A step writes at most one widget value and changes nothing else of the document. */
  lemma StepValuesOnly(st: CommitState, fields: seq<DetectedField>, faults: map<string, string>, id: string, v: Value)
    ensures OnlyValuesDiffer(st.doc, Step(st, fields, faults, id, v).doc)
  {
    var o := EntryOutcome(st.doc, fields, faults, id);
    var d: Document := Step(st, fields, faults, id, v).doc;
    forall p, j | 0 <= p < |st.doc| && 0 <= j < |st.doc[p]|
      ensures st.doc[p][j].(value := d[p][j].value) == d[p][j]
    {
      StepAt(st, fields, faults, id, v, p, j);
    }
  }

  /** What a step leaves in one widget: the written value if the step targets it, else the old widget. */
  lemma StepAt(st: CommitState, fields: seq<DetectedField>, faults: map<string, string>, id: string, v: Value,
               p: nat, j: nat)
    requires p < |st.doc| && j < |st.doc[p]|
    ensures Step(st, fields, faults, id, v).doc[p][j]
      == if EntryOutcome(st.doc, fields, faults, id) == Write(p, j)
         then st.doc[p][j].(value := Some(CommitValue(FindField(fields, id).value, v)))
         else st.doc[p][j]
  {
  }

  /** One step against the reference definitions, for any document with the same names. */
  lemma StepSpec(doc0: Document, st: CommitState, fields: seq<DetectedField>, faults: map<string, string>,
                 id: string, v: Value)
    requires OnlyValuesDiffer(doc0, st.doc)
    ensures var o := EntryOutcome(doc0, fields, faults, id);
      var r := Step(st, fields, faults, id, v);
      && OnlyValuesDiffer(doc0, r.doc)
      && r.applied == st.applied + (if o.Write? then [(id, v)] else [])
      && r.errors == st.errors + ErrorOf(id, o)
      && r.appliedEdits == (if o.Write? then Put(st.appliedEdits, id, v) else st.appliedEdits)
  {
    OnlyValuesSym(doc0, st.doc);
    OutcomeStable(st.doc, doc0, fields, faults, id);
    StepValuesOnly(st, fields, faults, id, v);
    OnlyValuesTrans(doc0, st.doc, Step(st, fields, faults, id, v).doc);
  }

  lemma PutAllSnoc(d: Dict<Value>, entries: seq<(string, Value)>, e: (string, Value))
    ensures PutAll(d, entries + [e]) == Put(PutAll(d, entries), e.0, e.1)
  {
    assert (entries + [e])[..|entries|] == entries;
  }

  lemma OnlyValuesRefl(a: Document)
    ensures OnlyValuesDiffer(a, a)
  {
    forall p, j | 0 <= p < |a| && 0 <= j < |a[p]| ensures a[p][j].(value := a[p][j].value) == a[p][j] {
    }
  }

  /**
   * The loop against the reference definitions: it changes widget values
   * only, its `applied` list is exactly the written edits, its errors are
   * exactly theirs, and `applied_edits` records each written edit in order.
   */
  lemma {:induction false} RunSpec(st: CommitState, fields: seq<DetectedField>, faults: map<string, string>, entries: Dict<Value>)
    ensures var r := Run(st, fields, faults, entries);
      && OnlyValuesDiffer(st.doc, r.doc)
      && r.applied == st.applied + WrittenEntries(st.doc, fields, faults, entries)
      && r.errors == st.errors + ErrorsFor(st.doc, fields, faults, entries)
      && r.appliedEdits == PutAll(st.appliedEdits, WrittenEntries(st.doc, fields, faults, entries))
  {
    if entries == [] {
      OnlyValuesRefl(st.doc);
    } else {
      var init := entries[..|entries| - 1];
      var last := Last(entries);
      RunSpec(st, fields, faults, init);
      var mid := Run(st, fields, faults, init);
      StepSpec(st.doc, mid, fields, faults, last.0, last.1);
      var o := EntryOutcome(st.doc, fields, faults, last.0);
      var wInit := WrittenEntries(st.doc, fields, faults, init);
      var here := if o.Write? then [last] else [];
      ConcatAssoc(st.applied, wInit, here);
      ConcatAssoc(st.errors, ErrorsFor(st.doc, fields, faults, init), ErrorOf(last.0, o));
      if o.Write? {
        PutAllSnoc(st.appliedEdits, wInit, last);
      } else {
        assert wInit + here == wInit;
      }
    }
  }

  lemma OnlyValuesSym(a: Document, b: Document)
    requires OnlyValuesDiffer(a, b)
    ensures OnlyValuesDiffer(b, a)
  {
    forall p, j | 0 <= p < |b| && 0 <= j < |b[p]| ensures b[p][j].(value := a[p][j].value) == a[p][j] {
      assert a[p][j].(value := b[p][j].value) == b[p][j];
    }
  }

  /** Each staged edit adds at most one entry to `applied` or to `errors`. */
  lemma {:induction false} CommitCounts(doc: Document, fields: seq<DetectedField>, faults: map<string, string>, entries: Dict<Value>)
    ensures |WrittenEntries(doc, fields, faults, entries)| + |ErrorsFor(doc, fields, faults, entries)| <= |entries|
  {
    if entries != [] {
      CommitCounts(doc, fields, faults, entries[..|entries| - 1]);
    }
  }

  /** Everything in `applied` is a staged `(id, value)` pair that was written. */
  lemma {:induction false} WrittenSound(doc: Document, fields: seq<DetectedField>, faults: map<string, string>,
                                        entries: Dict<Value>, k: nat)
    requires k < |WrittenEntries(doc, fields, faults, entries)|
    ensures var e := WrittenEntries(doc, fields, faults, entries)[k];
      e in entries && EntryOutcome(doc, fields, faults, e.0).Write?
  {
    var init := entries[..|entries| - 1];
    var w := WrittenEntries(doc, fields, faults, init);
    if k < |w| {
      WrittenSound(doc, fields, faults, init, k);
      assert w[k] in init;
      InAppend(w[k], init, [Last(entries)]);
      assert entries == init + [Last(entries)];
    }
  }

  /** Every staged edit that finds its widget is in `applied`. */
  lemma {:induction false} WrittenComplete(doc: Document, fields: seq<DetectedField>, faults: map<string, string>,
                                           entries: Dict<Value>, i: nat)
    requires i < |entries| && EntryOutcome(doc, fields, faults, entries[i].0).Write?
    ensures entries[i] in WrittenEntries(doc, fields, faults, entries)
  {
    var init := entries[..|entries| - 1];
    var here := if EntryOutcome(doc, fields, faults, Last(entries).0).Write? then [Last(entries)] else [];
    if i < |init| {
      WrittenComplete(doc, fields, faults, init, i);
      assert init[i] == entries[i];
    }
    InAppend(entries[i], WrittenEntries(doc, fields, faults, init), here);
  }

  /** Each staged id missing from the snapshot adds its own "Field not found" error. */
  lemma {:induction false} NotFoundReported(doc: Document, fields: seq<DetectedField>, faults: map<string, string>,
                                            entries: Dict<Value>, i: nat)
    requires i < |entries| && FindField(fields, entries[i].0).None?
    ensures FieldNotFound(entries[i].0) in ErrorsFor(doc, fields, faults, entries)
  {
    var init := entries[..|entries| - 1];
    var here := ErrorOf(Last(entries).0, EntryOutcome(doc, fields, faults, Last(entries).0));
    if i < |init| {
      NotFoundReported(doc, fields, faults, init, i);
      assert init[i] == entries[i];
    } else {
      assert here == [FieldNotFound(entries[i].0)];
    }
    InAppend(FieldNotFound(entries[i].0), ErrorsFor(doc, fields, faults, init), here);
  }

  /** A staged edit that finds no widget on its page leaves no trace: neither applied nor an error. */
  lemma NoWidgetSilent(doc: Document, fields: seq<DetectedField>, faults: map<string, string>, id: string, v: Value)
    requires EntryOutcome(doc, fields, faults, id) == NoWidget
    ensures WrittenEntries(doc, fields, faults, [(id, v)]) == []
    ensures ErrorsFor(doc, fields, faults, [(id, v)]) == []
  {
    assert [(id, v)][..0] == [];
  }

  /** The keys of `applied_edits` after recording entries: the old ones and the entries' ids. */
  lemma {:induction false} PutAllKeys(d: Dict<Value>, entries: seq<(string, Value)>)
    ensures Keys(PutAll(d, entries)) == Keys(d) + Keys(entries)
    ensures Distinct(d) ==> Distinct(PutAll(d, entries))
  {
    if entries != [] {
      var init := entries[..|entries| - 1];
      PutAllKeys(d, init);
      KeysSnoc(init, Last(entries));
      assert entries == init + [Last(entries)];
    }
  }

  /** Recording entries keeps the value of every key they do not mention. */
  lemma {:induction false} PutAllOthers(d: Dict<Value>, entries: seq<(string, Value)>, k: string)
    requires k !in Keys(entries)
    ensures Get(PutAll(d, entries), k) == Get(d, k)
  {
    if entries != [] {
      var init := entries[..|entries| - 1];
      KeysSnoc(init, Last(entries));
      assert entries == init + [Last(entries)];
      PutAllOthers(d, init, k);
    }
  }

  /** Recording entries gives a mentioned key the value of its last entry. */
  lemma {:induction false} PutAllLast(d: Dict<Value>, entries: seq<(string, Value)>, i: nat)
    requires Distinct(d) && i < |entries|
    requires forall j :: i < j < |entries| ==> entries[j].0 != entries[i].0
    ensures Get(PutAll(d, entries), entries[i].0) == Some(entries[i].1)
  {
    var init := entries[..|entries| - 1];
    PutAllKeys(d, init);
    if i < |entries| - 1 {
      PutAllLast(d, init, i);
      assert init[i] == entries[i];
    }
  }

  /** The written edits are some of the staged ones, so their ids are distinct too. */
  lemma {:induction false} WrittenKeys(doc: Document, fields: seq<DetectedField>, faults: map<string, string>,
                                       entries: Dict<Value>)
    ensures Keys(WrittenEntries(doc, fields, faults, entries)) <= Keys(entries)
    ensures Distinct(entries) ==> Distinct(WrittenEntries(doc, fields, faults, entries))
  {
    if entries != [] {
      var init := entries[..|entries| - 1];
      var last := Last(entries);
      var w := WrittenEntries(doc, fields, faults, init);
      WrittenKeys(doc, fields, faults, init);
      assert entries == init + [last];
      KeysSnoc(init, last);
      KeysSnoc(w, last);
      if Distinct(entries) {
        assert Distinct(init);
        assert last.0 !in Keys(init) by {
          forall i | 0 <= i < |init| ensures init[i].0 != last.0 {
            assert init[i] == entries[i];
          }
        }
      }
    }
  }

  /**
   * `applied_edits` after the loop: a written id holds its staged value and
   * every other key keeps the value it had.
   */
  lemma AppliedEditsAfter(st: CommitState, fields: seq<DetectedField>, faults: map<string, string>,
                          entries: Dict<Value>, k: string)
    requires Distinct(st.appliedEdits) && Distinct(entries)
    ensures var w := WrittenEntries(st.doc, fields, faults, entries);
      var r := Run(st, fields, faults, entries);
      && (k in Keys(w) ==> Get(r.appliedEdits, k) == Get(entries, k) && Get(entries, k).Some?)
      && (k !in Keys(w) ==> Get(r.appliedEdits, k) == Get(st.appliedEdits, k))
  {
    var w := WrittenEntries(st.doc, fields, faults, entries);
    RunSpec(st, fields, faults, entries);
    WrittenKeys(st.doc, fields, faults, entries);
    if k in Keys(w) {
      var i :| 0 <= i < |w| && w[i].0 == k;
      PutAllLast(st.appliedEdits, w, i);
      WrittenSound(st.doc, fields, faults, entries, i);
      var n :| 0 <= n < |entries| && entries[n] == w[i];
      GetAt(entries, n);
    } else {
      PutAllOthers(st.appliedEdits, w, k);
    }
  }

  /** Two ids that write the same widget are the same id. */
  lemma TargetDeterminesId(doc: Document, fields: seq<DetectedField>, faults: map<string, string>, a: string, b: string)
    ensures EntryOutcome(doc, fields, faults, a).Write? && EntryOutcome(doc, fields, faults, a) == EntryOutcome(doc, fields, faults, b)
      ==> a == b
  {
  }

  /** A widget no staged edit targets keeps its value. */
  lemma {:induction false} RunUntouched(st: CommitState, fields: seq<DetectedField>, faults: map<string, string>,
                                        entries: Dict<Value>, p: nat, j: nat)
    requires p < |st.doc| && j < |st.doc[p]|
    requires forall i :: 0 <= i < |entries| ==> EntryOutcome(st.doc, fields, faults, entries[i].0) != Write(p, j)
    ensures Run(st, fields, faults, entries).doc[p][j] == st.doc[p][j]
  {
    if entries != [] {
      var init := entries[..|entries| - 1];
      assert forall i :: 0 <= i < |init| ==> init[i] == entries[i];
      RunUntouched(st, fields, faults, init, p, j);
      var mid := Run(st, fields, faults, init);
      RunSpec(st, fields, faults, init);
      OnlyValuesSym(st.doc, mid.doc);
      OutcomeStable(mid.doc, st.doc, fields, faults, Last(entries).0);
      StepAt(mid, fields, faults, Last(entries).0, Last(entries).1, p, j);
    }
  }

  /** The widget a staged edit targets ends with the value the commit writes for that edit. */
  lemma {:induction false} RunWrites(st: CommitState, fields: seq<DetectedField>, faults: map<string, string>,
                                     entries: Dict<Value>, i: nat)
    requires Distinct(entries) && i < |entries|
    requires EntryOutcome(st.doc, fields, faults, entries[i].0).Write?
    ensures var o := EntryOutcome(st.doc, fields, faults, entries[i].0);
      Run(st, fields, faults, entries).doc[o.page][o.index]
        == st.doc[o.page][o.index].(value := Some(CommitValue(FindField(fields, entries[i].0).value, entries[i].1)))
  {
    var o := EntryOutcome(st.doc, fields, faults, entries[i].0);
    var init := entries[..|entries| - 1];
    var last := Last(entries);
    var mid := Run(st, fields, faults, init);
    RunSpec(st, fields, faults, init);
    OnlyValuesSym(st.doc, mid.doc);
    OutcomeStable(mid.doc, st.doc, fields, faults, last.0);
    StepAt(mid, fields, faults, last.0, last.1, o.page, o.index);
    if i == |entries| - 1 {
      forall k | 0 <= k < |init| ensures EntryOutcome(st.doc, fields, faults, init[k].0) != o {
        TargetDeterminesId(st.doc, fields, faults, entries[i].0, init[k].0);
        assert init[k] == entries[k];
      }
      RunUntouched(st, fields, faults, init, o.page, o.index);
    } else {
      assert Distinct(init);
      assert init[i] == entries[i];
      RunWrites(st, fields, faults, init, i);
      TargetDeterminesId(st.doc, fields, faults, entries[i].0, last.0);
    }
  }

  /** A second widget with the id of an earlier one on its page is never written: the loop stops at the first. */
  lemma DuplicateUntouched(st: CommitState, fields: seq<DetectedField>, faults: map<string, string>,
                           entries: Dict<Value>, p: nat, j: nat)
    requires p < |st.doc| && j < |st.doc[p]|
    requires FirstMatch(p, st.doc[p], WidgetFieldId(p, st.doc[p][j])) != Some(j)
    ensures Run(st, fields, faults, entries).doc[p][j] == st.doc[p][j]
  {
    forall i | 0 <= i < |entries| ensures EntryOutcome(st.doc, fields, faults, entries[i].0) != Write(p, j) {
      var o := EntryOutcome(st.doc, fields, faults, entries[i].0);
      assert o.Write? && o.page == p ==> WidgetFieldId(p, st.doc[p][o.index]) == entries[i].0;
    }
    RunUntouched(st, fields, faults, entries, p, j);
  }

  /** An unnamed widget is written by the id of a field named `None` when it comes first on the page. */
  lemma UnnamedTakesNone(v: Value)
    ensures var unnamed := Widget("", WIDGET_TEXT, None, None, "");
      var named := Widget("None", WIDGET_TEXT, None, None, "");
      var f := DetectedField(PageFieldId(0, "None"), Text, 0, "", None, None, Some("None"));
      EntryOutcome([[unnamed, named]], [f], map[], PageFieldId(0, "None")) == Write(0, 0)
  {
  }

  // ---------------------------------------------------------------------------
  // Output path
  // ---------------------------------------------------------------------------

  const PDF_SUFFIX: string := ".pdf"
  const FILLED_SUFFIX: string := "_filled.pdf"

  /** `pdf_path.replace('.pdf', '_filled.pdf')` */
  function DefaultOutput(pdfPath: string): string {
    ReplaceAll(pdfPath, PDF_SUFFIX, FILLED_SUFFIX)
  }

  /** `args.get("output_path") or session.output_path`, and the default when both are empty. */
  function OutputPathChoice(argument: Option<string>, sessionOutput: Option<string>, pdfPath: string): (r: string)
    ensures argument.Some? && argument.value != "" ==> r == argument.value
    ensures !(argument.Some? && argument.value != "") && sessionOutput.Some? && sessionOutput.value != "" ==>
      r == sessionOutput.value
    ensures !(argument.Some? && argument.value != "") && !(sessionOutput.Some? && sessionOutput.value != "") ==>
      r == DefaultOutput(pdfPath)
  {
    if argument.Some? && argument.value != "" then argument.value
    else if sessionOutput.Some? && sessionOutput.value != "" then sessionOutput.value
    else DefaultOutput(pdfPath)
  }

  /** A path whose stem has no `.` gets `_filled` before its `.pdf`. */
  lemma {:induction false} DefaultOutputOfStem(stem: string)
    requires '.' !in stem
    ensures DefaultOutput(stem + PDF_SUFFIX) == stem + FILLED_SUFFIX
    decreases |stem|
  {
    var s := stem + PDF_SUFFIX;
    if stem == [] {
      assert s == PDF_SUFFIX;
      assert s[..|PDF_SUFFIX|] == PDF_SUFFIX;
      assert s[|PDF_SUFFIX|..] == [];
    } else {
      assert s[0] == stem[0] && stem[0] != '.';
      assert s[..|PDF_SUFFIX|] != PDF_SUFFIX by { assert PDF_SUFFIX[0] == '.'; }
      assert s[1..] == stem[1..] + PDF_SUFFIX;
      DefaultOutputOfStem(stem[1..]);
      assert stem == [stem[0]] + stem[1..];
      ConcatAssoc([stem[0]], stem[1..], FILLED_SUFFIX);
    }
  }

  /** A path without `.pdf` is its own default output: the save would overwrite the input. */
  lemma DefaultOutputNoSuffix(pdfPath: string)
    requires !Contains(pdfPath, PDF_SUFFIX)
    ensures DefaultOutput(pdfPath) == pdfPath
  {
  }
}
