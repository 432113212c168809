/**
 * Field detection and edit application over an abstract document: a
 * document is a sequence of pages, a page a sequence of form widgets. The
 * document engine's own calls (open, save, `widget.update()`) are not
 * modelled; a widget carries the text the engine would extract around it.
 */
module PdfProcessor {
  import opened Wrappers
  import opened PyStr
  import opened PyRepr

  datatype FieldType = Text | Checkbox | Dropdown | Radio

  /** `FieldType.value` */
  function FieldTypeName(t: FieldType): string {
    match t
    case Text => "text"
    case Checkbox => "checkbox"
    case Dropdown => "dropdown"
    case Radio => "radio"
  }

  // The widget type codes of the document engine.
  const WIDGET_UNKNOWN: int := 0
  const WIDGET_BUTTON: int := 1
  const WIDGET_CHECKBOX: int := 2
  const WIDGET_COMBOBOX: int := 3
  const WIDGET_LISTBOX: int := 4
  const WIDGET_RADIOBUTTON: int := 5
  const WIDGET_SIGNATURE: int := 6
  const WIDGET_TEXT: int := 7

  /** A field value as the code passes it around: `str | bool`. */
  datatype Value = Str(s: string) | Bool(b: bool)

  /** `str(value)` */
  function StrOf(v: Value): string {
    match v
    case Str(s) => s
    case Bool(b) => if b then "True" else "False"
  }

  /** `bool(value)` */
  function BoolOf(v: Value): bool {
    match v
    case Str(s) => s != ""
    case Bool(b) => b
  }

  const TRUTHY_TOKENS: seq<string> := ["true", "yes", "1", "checked"]

  /** `value.lower() in ('true', 'yes', '1', 'checked')` */
  predicate IsTruthyToken(s: string) {
    Lower(s) in TRUTHY_TOKENS
  }

  /**
   * A form widget. An absent field name is the empty string; `clipText` is
   * what the engine returns for the text around the widget.
   */
  datatype Widget = Widget(
    name: string,
    widgetType: int,
    value: Option<Value>,
    choiceValues: Option<seq<string>>,
    clipText: string)

  type Page = seq<Widget>

  type Document = seq<Page>

  datatype DetectedField = DetectedField(
    fieldId: string,
    fieldType: FieldType,
    page: nat,
    labelContext: string,
    currentValue: Option<string>,
    options: Option<seq<string>>,
    nativeFieldName: Option<string>)

  datatype FieldEdit = FieldEdit(fieldId: string, value: Value)

  /** `f"page{page}_{name}"` */
  function PageFieldId(page: nat, name: string): string {
    "page" + NatToString(page) + "_" + name
  }

  /** Two widgets on one page get the same id exactly when they have the same name. */
  lemma PageFieldIdInjective(page: nat, a: string, b: string)
    ensures PageFieldId(page, a) == PageFieldId(page, b) <==> a == b
  {
    var pre := "page" + NatToString(page) + "_";
    if PageFieldId(page, a) == PageFieldId(page, b) {
      assert a == PageFieldId(page, a)[|pre|..];
      assert b == PageFieldId(page, b)[|pre|..];
    }
  }

  predicate IsChoiceWidget(widgetType: int) {
    widgetType == WIDGET_COMBOBOX || widgetType == WIDGET_LISTBOX
  }

  /** `_widget_type_to_field_type`: a lookup table with `TEXT` as the default. */
  function WidgetTypeToFieldType(widgetType: int): (t: FieldType)
    ensures t == Checkbox <==> widgetType == WIDGET_CHECKBOX
    ensures t == Dropdown <==> IsChoiceWidget(widgetType)
    ensures t == Radio <==> widgetType == WIDGET_RADIOBUTTON
    ensures t == Text <==> widgetType !in {WIDGET_CHECKBOX, WIDGET_COMBOBOX, WIDGET_LISTBOX, WIDGET_RADIOBUTTON}
  {
    var table := map[
      WIDGET_TEXT := Text,
      WIDGET_CHECKBOX := Checkbox,
      WIDGET_COMBOBOX := Dropdown,
      WIDGET_LISTBOX := Dropdown,
      WIDGET_RADIOBUTTON := Radio];
    if widgetType in table then table[widgetType] else Text
  }

  // ---------------------------------------------------------------------------
  // Nearby text: the line clean-up of `_extract_nearby_text`
  // ---------------------------------------------------------------------------

  predicate IsStripped(s: string) {
    s == [] || (!IsSpace(s[0]) && !IsSpace(s[|s| - 1]))
  }

  /** `[line.strip() for line in lines if line.strip()]` */
  function CleanLines(lines: seq<string>): (r: seq<string>)
    ensures |r| <= |lines|
  {
    if lines == [] then []
    else
      var s := Strip(lines[0]);
      if s != [] then [s] + CleanLines(lines[1..]) else CleanLines(lines[1..])
  }

  /** Every kept line is a non-blank input line, stripped. */
  lemma {:induction false} CleanLinesSound(lines: seq<string>, i: nat)
    requires i < |CleanLines(lines)|
    ensures CleanLines(lines)[i] != [] && IsStripped(CleanLines(lines)[i])
    ensures exists j :: 0 <= j < |lines| && CleanLines(lines)[i] == Strip(lines[j])
  {
    var s, rest := Strip(lines[0]), CleanLines(lines[1..]);
    if s != [] {
      assert CleanLines(lines) == [s] + rest;
      if i > 0 {
        CleanLinesSound(lines[1..], i - 1);
        var j :| 0 <= j < |lines[1..]| && rest[i - 1] == Strip(lines[1..][j]);
        assert lines[1..][j] == lines[j + 1];
      }
    } else {
      assert CleanLines(lines) == rest;
      CleanLinesSound(lines[1..], i);
      var j :| 0 <= j < |lines[1..]| && rest[i] == Strip(lines[1..][j]);
      assert lines[1..][j] == lines[j + 1];
    }
  }

  /** The clean-up keeps the order of the lines. */
  lemma {:induction false} CleanLinesAppend(a: seq<string>, b: seq<string>)
    ensures CleanLines(a + b) == CleanLines(a) + CleanLines(b)
  {
    if a == [] {
      assert a + b == b;
    } else {
      assert (a + b)[0] == a[0];
      assert (a + b)[1..] == a[1..] + b;
      CleanLinesAppend(a[1..], b);
    }
  }

  /** Every non-blank line is kept, stripped. */
  lemma {:induction false} CleanLinesKeeps(lines: seq<string>, j: nat)
    requires j < |lines| && Strip(lines[j]) != []
    ensures Strip(lines[j]) in CleanLines(lines)
  {
    if j > 0 {
      CleanLinesKeeps(lines[1..], j - 1);
      assert lines[1..][j - 1] == lines[j];
    }
  }

  /** The label context of a widget: its first five non-blank lines of text, stripped. */
  function NearbySegments(clipText: string): seq<string> {
    Take(CleanLines(Split(Strip(clipText), '\n')), 5)
  }

  /** `' | '.join(lines[:5])` */
  function NearbyText(clipText: string): string {
    Join(NearbySegments(clipText), " | ")
  }

  /** At most five segments, each non-blank, stripped and without a line break. */
  lemma NearbySegmentsClean(clipText: string)
    ensures var segs := NearbySegments(clipText);
      && |segs| <= 5
      && forall i :: 0 <= i < |segs| ==> segs[i] != [] && IsStripped(segs[i]) && '\n' !in segs[i]
  {
    var lines := Split(Strip(clipText), '\n');
    var kept := CleanLines(lines);
    var segs := NearbySegments(clipText);
    assert segs == Take(kept, 5);
    forall i | 0 <= i < |segs| ensures segs[i] != [] && IsStripped(segs[i]) && '\n' !in segs[i] {
      assert segs[i] == kept[i];
      CleanLinesSound(lines, i);
      var j :| 0 <= j < |lines| && kept[i] == Strip(lines[j]);
      StripOmits(lines[j], '\n');
    }
  }

  /** Stripping adds no character. */
  lemma StripOmits(s: string, c: char)
    requires c !in s
    ensures c !in Strip(s)
  {
    var r, k := Strip(s), LeadingSpaces(s);
    forall m | 0 <= m < |r| ensures r[m] != c {
      assert r[m] == s[k + m];
    }
  }

  /** The label context is one line of text, empty exactly when the widget has no text around it. */
  lemma NearbyTextOneLine(clipText: string)
    ensures '\n' !in NearbyText(clipText)
    ensures NearbyText(clipText) == [] <==> NearbySegments(clipText) == []
  {
    NearbySegmentsClean(clipText);
    JoinPipesOneLine(NearbySegments(clipText));
  }

  lemma {:induction false} JoinPipesOneLine(segs: seq<string>)
    requires forall i :: 0 <= i < |segs| ==> segs[i] != [] && '\n' !in segs[i]
    ensures '\n' !in Join(segs, " | ")
    ensures Join(segs, " | ") == [] <==> segs == []
  {
    if |segs| > 1 {
      JoinPipesOneLine(segs[1..]);
    }
  }

  /** A widget with at most five lines of text around it keeps all of them. */
  lemma FewLinesAllKept(clipText: string)
    requires |CleanLines(Split(Strip(clipText), '\n'))| <= 5
    ensures NearbySegments(clipText) == CleanLines(Split(Strip(clipText), '\n'))
  {
  }

  // ---------------------------------------------------------------------------
  // Detection
  // ---------------------------------------------------------------------------

  /** A boolean widget value is reported as `str(value).lower()`; others pass through. */
  function ReportedValue(v: Option<Value>): (r: Option<string>)
    ensures v == Some(Bool(true)) ==> r == Some("true")
    ensures v == Some(Bool(false)) ==> r == Some("false")
    ensures v.None? ==> r.None?
    ensures v.Some? && v.value.Str? ==> r == Some(v.value.s)
  {
    match v
    case None => None
    case Some(Str(s)) => Some(s)
    case Some(Bool(b)) =>
      assert Lower("True") == "true" && Lower("False") == "false" by {
        assert LowerChar('T') == 't' && LowerChar('F') == 'f';
      }
      Some(Lower(StrOf(Bool(b))))
  }

  /** The field detected for a named widget `w` on page `p`. */
  function MakeField(p: nat, w: Widget): DetectedField {
    DetectedField(
      fieldId := PageFieldId(p, w.name),
      fieldType := WidgetTypeToFieldType(w.widgetType),
      page := p,
      labelContext := NearbyText(w.clipText),
      currentValue := ReportedValue(w.value),
      options := if IsChoiceWidget(w.widgetType) then Some(w.choiceValues.GetOr([])) else None,
      nativeFieldName := Some(w.name))
  }

  /** The images under `f` of the elements of `s` that `keep` accepts, in order. */
  function FilterMap<A, B>(s: seq<A>, keep: A -> bool, f: A -> B): seq<B> {
    if s == [] then []
    else
      var x := s[|s| - 1];
      FilterMap(s[..|s| - 1], keep, f) + (if keep(x) then [f(x)] else [])
  }

  /** The number of elements of `s` that `keep` accepts. */
  function CountWhere<A>(s: seq<A>, keep: A -> bool): nat {
    if s == [] then 0 else CountWhere(s[..|s| - 1], keep) + (if keep(s[|s| - 1]) then 1 else 0)
  }

  /** A widget that detection reports: one with a name. */
  predicate IsNamed(w: Widget) {
    w.name != ""
  }

  /** The fields of the widgets `ws` of page `p`: one per named widget, in order. */
  function PageFields(p: nat, ws: seq<Widget>): seq<DetectedField> {
    FilterMap(ws, IsNamed, w => MakeField(p, w))
  }

  /** The fields of the first `n` pages. */
  function DetectedUpTo(doc: Document, n: nat): seq<DetectedField>
    requires n <= |doc|
  {
    if n == 0 then [] else DetectedUpTo(doc, n - 1) + PageFields(n - 1, doc[n - 1])
  }

  /** What `detect_form_fields` returns for `doc`. */
  function Detected(doc: Document): seq<DetectedField> {
    DetectedUpTo(doc, |doc|)
  }

  /** `detect_form_fields`: one field per named widget, pages in order, widgets in order. */
  method DetectFormFields(doc: Document) returns (fields: seq<DetectedField>)
    ensures fields == Detected(doc)
  {
    fields := [];
    var p := 0;
    while p < |doc|
      invariant p <= |doc|
      invariant fields == DetectedUpTo(doc, p)
    {
      var widgets := doc[p];
      var j := 0;
      while j < |widgets|
        invariant j <= |widgets|
        invariant fields == DetectedUpTo(doc, p) + PageFields(p, widgets[..j])
      {
        var widget := widgets[j];
        DetectStep(DetectedUpTo(doc, p), p, widgets, j);
        if widget.name != "" {
          fields := fields + [MakeField(p, widget)];
        }
        j := j + 1;
      }
      assert widgets[..j] == widgets;
      p := p + 1;
    }
  }

  lemma FilterMapSnoc<A, B>(s: seq<A>, keep: A -> bool, f: A -> B, j: nat)
    requires j < |s|
    ensures FilterMap(s[..j + 1], keep, f) == FilterMap(s[..j], keep, f) + (if keep(s[j]) then [f(s[j])] else [])
  {
    assert s[..j + 1][..j] == s[..j];
  }

  lemma {:induction false} FilterMapAppend<A, B>(a: seq<A>, b: seq<A>, keep: A -> bool, f: A -> B)
    ensures FilterMap(a + b, keep, f) == FilterMap(a, keep, f) + FilterMap(b, keep, f)
    decreases |b|
  {
    if b != [] {
      var b' := b[..|b| - 1];
      assert (a + b)[..|a + b| - 1] == a + b';
      FilterMapAppend(a, b', keep, f);
    } else {
      assert a + b == a;
    }
  }

  lemma {:induction false} FilterMapSound<A, B>(s: seq<A>, keep: A -> bool, f: A -> B, k: nat)
    requires k < |FilterMap(s, keep, f)|
    ensures exists j :: 0 <= j < |s| && keep(s[j]) && FilterMap(s, keep, f)[k] == f(s[j])
  {
    var init := s[..|s| - 1];
    if k < |FilterMap(init, keep, f)| {
      FilterMapSound(init, keep, f, k);
      var j :| 0 <= j < |init| && keep(init[j]) && FilterMap(init, keep, f)[k] == f(init[j]);
      assert s[j] == init[j];
    }
  }

  lemma {:induction false} FilterMapComplete<A, B>(s: seq<A>, keep: A -> bool, f: A -> B, j: nat)
    requires j < |s| && keep(s[j])
    ensures f(s[j]) in FilterMap(s, keep, f)
  {
    var init := s[..|s| - 1];
    if j < |init| {
      FilterMapComplete(init, keep, f, j);
      assert init[j] == s[j];
    }
  }

  lemma {:induction false} FilterMapCount<A, B>(s: seq<A>, keep: A -> bool, f: A -> B)
    ensures |FilterMap(s, keep, f)| == CountWhere(s, keep)
  {
    if s != [] {
      FilterMapCount(s[..|s| - 1], keep, f);
    }
  }

  /** The fields found so far, after one more widget of page `p`. */
  lemma DetectStep(before: seq<DetectedField>, p: nat, ws: seq<Widget>, j: nat)
    requires j < |ws|
    ensures before + PageFields(p, ws[..j + 1])
      == before + PageFields(p, ws[..j]) + (if ws[j].name != "" then [MakeField(p, ws[j])] else [])
  {
    PageFieldsSnoc(p, ws, j);
    ConcatAssoc(before, PageFields(p, ws[..j]), if ws[j].name != "" then [MakeField(p, ws[j])] else []);
  }

  /** One more widget of the page. */
  lemma PageFieldsSnoc(p: nat, ws: seq<Widget>, j: nat)
    requires j < |ws|
    ensures PageFields(p, ws[..j + 1])
      == PageFields(p, ws[..j]) + (if ws[j].name != "" then [MakeField(p, ws[j])] else [])
  {
    FilterMapSnoc(ws, IsNamed, w => MakeField(p, w), j);
  }

  /** Detection over a page split in two is the detection of each part, in order. */
  lemma PageFieldsAppend(p: nat, a: seq<Widget>, b: seq<Widget>)
    ensures PageFields(p, a + b) == PageFields(p, a) + PageFields(p, b)
  {
    FilterMapAppend(a, b, IsNamed, w => MakeField(p, w));
  }

  /** Every detected field comes from a named widget of its page. */
  lemma PageFieldsSound(p: nat, ws: seq<Widget>, k: nat)
    requires k < |PageFields(p, ws)|
    ensures exists j :: 0 <= j < |ws| && ws[j].name != "" && PageFields(p, ws)[k] == MakeField(p, ws[j])
  {
    FilterMapSound(ws, IsNamed, w => MakeField(p, w), k);
  }

  /** Every named widget of the page yields its field. */
  lemma PageFieldsComplete(p: nat, ws: seq<Widget>, j: nat)
    requires j < |ws| && ws[j].name != ""
    ensures MakeField(p, ws[j]) in PageFields(p, ws)
  {
    FilterMapComplete(ws, IsNamed, w => MakeField(p, w), j);
  }

  lemma PageFieldsPage(p: nat, ws: seq<Widget>)
    ensures forall k :: 0 <= k < |PageFields(p, ws)| ==> PageFields(p, ws)[k].page == p
  {
    forall k | 0 <= k < |PageFields(p, ws)| ensures PageFields(p, ws)[k].page == p {
      PageFieldsSound(p, ws, k);
    }
  }

  /** The number of named widgets: the number of fields detection reports. */
  function NamedCount(ws: seq<Widget>): nat {
    CountWhere(ws, IsNamed)
  }

  function NamedCountUpTo(doc: Document, n: nat): nat
    requires n <= |doc|
  {
    if n == 0 then 0 else NamedCountUpTo(doc, n - 1) + NamedCount(doc[n - 1])
  }

  lemma {:induction false} DetectedCount(doc: Document, n: nat)
    requires n <= |doc|
    ensures |DetectedUpTo(doc, n)| == NamedCountUpTo(doc, n)
  {
    if n > 0 {
      DetectedCount(doc, n - 1);
      PageFieldsCount(n - 1, doc[n - 1]);
    }
  }

  lemma PageFieldsCount(p: nat, ws: seq<Widget>)
    ensures |PageFields(p, ws)| == NamedCount(ws)
  {
    FilterMapCount(ws, IsNamed, w => MakeField(p, w));
  }

  /**
   * Soundness of detection: each field is the field of a named widget on
   * the page it names, so its id is `page<p>_<name>` and its native name is
   * the widget's name.
   */
  lemma {:induction false} DetectedSound(doc: Document, n: nat, k: nat)
    requires n <= |doc| && k < |DetectedUpTo(doc, n)|
    ensures DetectedUpTo(doc, n)[k].page < n
    ensures FieldOfWidget(doc, DetectedUpTo(doc, n)[k])
  {
    var before := DetectedUpTo(doc, n - 1);
    var here := PageFields(n - 1, doc[n - 1]);
    var fs := DetectedUpTo(doc, n);
    assert fs == before + here;
    if k < |before| {
      DetectedSound(doc, n - 1, k);
      assert fs[k] == before[k];
    } else {
      PageFieldOfWidget(doc, n - 1, k - |before|);
      assert fs[k] == here[k - |before|];
    }
  }

  /** `f` is the field of a named widget of the page `f` names. */
  ghost predicate FieldOfWidget(doc: Document, f: DetectedField) {
    && f.page < |doc|
    && exists j :: 0 <= j < |doc[f.page]| && doc[f.page][j].name != "" && f == MakeField(f.page, doc[f.page][j])
  }

  lemma PageFieldOfWidget(doc: Document, p: nat, m: nat)
    requires p < |doc| && m < |PageFields(p, doc[p])|
    ensures PageFields(p, doc[p])[m].page == p
    ensures FieldOfWidget(doc, PageFields(p, doc[p])[m])
  {
    var f := PageFields(p, doc[p])[m];
    PageFieldsSound(p, doc[p], m);
    var j :| 0 <= j < |doc[p]| && doc[p][j].name != "" && f == MakeField(p, doc[p][j]);
    assert f.page == p;
  }

  /** Completeness of detection: every named widget yields its field. */
  lemma {:induction false} DetectedComplete(doc: Document, n: nat, p: nat, j: nat)
    requires n <= |doc| && p < n && j < |doc[p]| && doc[p][j].name != ""
    ensures MakeField(p, doc[p][j]) in DetectedUpTo(doc, n)
  {
    var before, here := DetectedUpTo(doc, n - 1), PageFields(n - 1, doc[n - 1]);
    if p < n - 1 {
      DetectedComplete(doc, n - 1, p, j);
    } else {
      PageFieldsComplete(p, doc[p], j);
    }
    InAppend(MakeField(p, doc[p][j]), before, here);
  }

  /** Detection lists fields page by page. */
  lemma {:induction false} DetectedPagesOrdered(doc: Document, n: nat)
    requires n <= |doc|
    ensures forall a, b :: 0 <= a < b < |DetectedUpTo(doc, n)| ==>
      DetectedUpTo(doc, n)[a].page <= DetectedUpTo(doc, n)[b].page < n
  {
    if n > 0 {
      DetectedPagesOrdered(doc, n - 1);
      DetectedSoundPages(doc, n - 1);
      PageFieldsPage(n - 1, doc[n - 1]);
      var before := DetectedUpTo(doc, n - 1);
      var fs := DetectedUpTo(doc, n);
      var here := PageFields(n - 1, doc[n - 1]);
      forall a, b | 0 <= a < b < |fs| ensures fs[a].page <= fs[b].page < n {
        if b >= |before| {
          assert fs[b].page == here[b - |before|].page;
          assert here[b - |before|].page == n - 1;
          if a >= |before| {
            assert fs[a].page == here[a - |before|].page;
          } else {
            assert fs[a].page == before[a].page;
            assert before[a].page < n - 1;
          }
        } else {
          assert fs[a].page == before[a].page && fs[b].page == before[b].page;
          assert before[a].page <= before[b].page < n - 1;
        }
      }
    }
  }

  lemma {:induction false} DetectedSoundPages(doc: Document, n: nat)
    requires n <= |doc|
    ensures forall k :: 0 <= k < |DetectedUpTo(doc, n)| ==> DetectedUpTo(doc, n)[k].page < n
  {
    forall k | 0 <= k < |DetectedUpTo(doc, n)| ensures DetectedUpTo(doc, n)[k].page < n {
      DetectedSound(doc, n, k);
    }
  }

  /** A document without named widgets has no fields, and only such a document. */
  lemma NoFieldsExactly(doc: Document)
    ensures Detected(doc) == [] <==>
      forall p, j :: 0 <= p < |doc| && 0 <= j < |doc[p]| ==> doc[p][j].name == ""
  {
    if Detected(doc) == [] {
      forall p, j | 0 <= p < |doc| && 0 <= j < |doc[p]| ensures doc[p][j].name == "" {
        if doc[p][j].name != "" {
          DetectedComplete(doc, |doc|, p, j);
        }
      }
    } else {
      DetectedSound(doc, |doc|, 0);
    }
  }

  /**
   * What a detected field records about its widget: the id built from the
   * page and the widget's name, the mapped type, options exactly for choice
   * widgets, the reported value and the nearby text.
   */
  lemma DetectedFieldFacts(doc: Document, k: nat)
    requires k < |Detected(doc)|
    ensures var f := Detected(doc)[k];
      && f.page < |doc|
      && exists j :: 0 <= j < |doc[f.page]| && WidgetFacts(f, doc[f.page][j])
  {
    var f := Detected(doc)[k];
    DetectedSound(doc, |doc|, k);
    var j :| 0 <= j < |doc[f.page]| && doc[f.page][j].name != "" && f == MakeField(f.page, doc[f.page][j]);
    MakeFieldFacts(f.page, doc[f.page][j]);
  }

  /** `f` is what detection reports for the named widget `w` on page `f.page`. */
  predicate WidgetFacts(f: DetectedField, w: Widget) {
    && w.name != ""
    && f.fieldId == PageFieldId(f.page, w.name)
    && f.nativeFieldName == Some(w.name)
    && f.fieldType == WidgetTypeToFieldType(w.widgetType)
    && (f.options.Some? <==> IsChoiceWidget(w.widgetType))
    && (f.options.Some? ==> f.options.value == w.choiceValues.GetOr([]))
    && f.currentValue == ReportedValue(w.value)
    && f.labelContext == NearbyText(w.clipText)
  }

  lemma MakeFieldFacts(p: nat, w: Widget)
    requires w.name != ""
    ensures MakeField(p, w).page == p && WidgetFacts(MakeField(p, w), w)
  {
  }

  function FieldIds(fields: seq<DetectedField>): (ids: seq<string>)
    ensures |ids| == |fields|
    ensures forall i :: 0 <= i < |fields| ==> ids[i] == fields[i].fieldId
  {
    seq(|fields|, i requires 0 <= i < |fields| => fields[i].fieldId)
  }

  lemma FieldIdsAppend(x: seq<DetectedField>, y: seq<DetectedField>)
    ensures FieldIds(x + y) == FieldIds(x) + FieldIds(y)
  {
    assert forall i :: 0 <= i < |x| ==> (x + y)[i] == x[i];
    assert forall i :: |x| <= i < |x| + |y| ==> (x + y)[i] == y[i - |x|];
  }

  /** The same pages with the same widget names, whatever their values. */
  ghost predicate SameNames(a: Document, b: Document) {
    && |a| == |b|
    && forall p :: 0 <= p < |a| ==>
         |a[p]| == |b[p]| && forall j :: 0 <= j < |a[p]| ==> a[p][j].name == b[p][j].name
  }

  /** Field ids are stable: re-detecting a document whose values changed gives the same ids in the same order. */
  lemma {:induction false} IdsStable(a: Document, b: Document, n: nat)
    requires SameNames(a, b) && n <= |a|
    ensures FieldIds(DetectedUpTo(a, n)) == FieldIds(DetectedUpTo(b, n))
  {
    if n > 0 {
      IdsStable(a, b, n - 1);
      PageIdsStable(n - 1, a[n - 1], b[n - 1]);
      FieldIdsAppend(DetectedUpTo(a, n - 1), PageFields(n - 1, a[n - 1]));
      FieldIdsAppend(DetectedUpTo(b, n - 1), PageFields(n - 1, b[n - 1]));
    }
  }

  lemma PageIdsStable(p: nat, a: seq<Widget>, b: seq<Widget>)
    requires |a| == |b| && forall j :: 0 <= j < |a| ==> a[j].name == b[j].name
    ensures FieldIds(PageFields(p, a)) == FieldIds(PageFields(p, b))
  {
    var mf := w => MakeField(p, w);
    var id := (f: DetectedField) => f.fieldId;
    forall j | 0 <= j < |a| ensures IsNamed(a[j]) == IsNamed(b[j]) && id(mf(a[j])) == id(mf(b[j])) {
      assert a[j].name == b[j].name;
    }
    FilterMapSameImages(a, b, IsNamed, mf, id);
  }

  /** Two sequences whose elements agree on `keep` and on `key . f` are filtered and mapped alike under `key`. */
  lemma {:induction false} FilterMapSameImages<A, B, K>(a: seq<A>, b: seq<A>, keep: A -> bool, f: A -> B, key: B -> K)
    requires |a| == |b|
    requires forall j :: 0 <= j < |a| ==> keep(a[j]) == keep(b[j]) && key(f(a[j])) == key(f(b[j]))
    ensures |FilterMap(a, keep, f)| == |FilterMap(b, keep, f)|
    ensures forall k :: 0 <= k < |FilterMap(a, keep, f)| ==> key(FilterMap(a, keep, f)[k]) == key(FilterMap(b, keep, f)[k])
  {
    if a != [] {
      var a', b' := a[..|a| - 1], b[..|b| - 1];
      forall j | 0 <= j < |a'| ensures keep(a'[j]) == keep(b'[j]) && key(f(a'[j])) == key(f(b'[j])) {
        assert a'[j] == a[j] && b'[j] == b[j];
      }
      FilterMapSameImages(a', b', keep, f, key);
      var fa, fb := FilterMap(a, keep, f), FilterMap(b, keep, f);
      var ia, ib := FilterMap(a', keep, f), FilterMap(b', keep, f);
      forall k | 0 <= k < |fa| ensures key(fa[k]) == key(fb[k]) {
        if k < |ia| {
          assert fa[k] == ia[k] && fb[k] == ib[k];
        } else {
          assert fa[k] == f(a[|a| - 1]) && fb[k] == f(b[|b| - 1]);
        }
      }
    }
  }

  // ---------------------------------------------------------------------------
  // Applying edits
  // ---------------------------------------------------------------------------

  /** `{e.field_id: e for e in edits}`: a later edit of the same id replaces an earlier one. */
  function EditMap(edits: seq<FieldEdit>): (m: map<string, Value>)
    ensures m.Keys == set i | 0 <= i < |edits| :: edits[i].fieldId
  {
    if edits == [] then map[]
    else
      var last := edits[|edits| - 1];
      var m := EditMap(edits[..|edits| - 1])[last.fieldId := last.value];
      assert m.Keys == set i | 0 <= i < |edits| :: edits[i].fieldId by {
        var init := edits[..|edits| - 1];
        forall x | x in m.Keys ensures exists i :: 0 <= i < |edits| && edits[i].fieldId == x {
          if x != last.fieldId {
            var i :| 0 <= i < |init| && init[i].fieldId == x;
            assert edits[i].fieldId == x;
          }
        }
        forall i | 0 <= i < |edits| ensures edits[i].fieldId in m.Keys {
          if i < |init| { assert init[i].fieldId == edits[i].fieldId; }
        }
      }
      m
  }

  /** Last write wins: the map holds the value of the last edit of each id. */
  lemma {:induction false} EditMapLastWins(edits: seq<FieldEdit>, i: nat)
    requires i < |edits|
    requires forall j :: i < j < |edits| ==> edits[j].fieldId != edits[i].fieldId
    ensures EditMap(edits)[edits[i].fieldId] == edits[i].value
  {
    if i < |edits| - 1 {
      var init := edits[..|edits| - 1];
      EditMapLastWins(init, i);
      assert init[i] == edits[i];
    }
  }

  /** Whether a value ticks a checkbox: a string by its token, a boolean as itself. */
  predicate Ticks(v: Value) {
    match v
    case Str(s) => IsTruthyToken(s)
    case Bool(b) => b
  }

  /** `_apply_widget_edit`: the per-type coercion, by the widget's own type. */
  function ApplyWidgetEdit(w: Widget, v: Value): (r: Widget)
    ensures r.name == w.name && r.widgetType == w.widgetType
    ensures r.choiceValues == w.choiceValues && r.clipText == w.clipText
    ensures w.widgetType == WIDGET_CHECKBOX ==> r.value == Some(Bool(Ticks(v)))
    ensures w.widgetType != WIDGET_CHECKBOX ==> r.value == Some(Str(StrOf(v)))
  {
    if w.widgetType == WIDGET_CHECKBOX then
      w.(value := Some(Bool(Ticks(v))))
    else if w.widgetType == WIDGET_RADIOBUTTON then
      w.(value := Some(Str(StrOf(v))))
    else
      w.(value := Some(Str(StrOf(v))))
  }

  /** The widgets the code edits for an edit map: named widgets whose recomputed id is a key. */
  predicate Matches(p: nat, w: Widget, m: map<string, Value>) {
    w.name != "" && PageFieldId(p, w.name) in m
  }

  function EditedWidget(p: nat, w: Widget, m: map<string, Value>): Widget {
    if Matches(p, w, m) then ApplyWidgetEdit(w, m[PageFieldId(p, w.name)]) else w
  }

  /** The document after `apply_edits`: every matching widget edited, all others untouched. */
  function EditedDoc(doc: Document, m: map<string, Value>): (r: Document)
    ensures |r| == |doc|
    ensures forall p :: 0 <= p < |doc| ==> |r[p]| == |doc[p]|
    ensures forall p, j :: 0 <= p < |doc| && 0 <= j < |doc[p]| ==>
      r[p][j] == EditedWidget(p, doc[p][j], m)
  {
    seq(|doc|, p requires 0 <= p < |doc| =>
      seq(|doc[p]|, j requires 0 <= j < |doc[p]| => EditedWidget(p, doc[p][j], m)))
  }

  /** `apply_edits`, returning the edited document in place of its bytes. */
  method ApplyEdits(doc: Document, edits: seq<FieldEdit>) returns (out: Document)
    ensures out == EditedDoc(doc, EditMap(edits))
  {
    var editMap := EditMap(edits);
    out := doc;
    var p := 0;
    while p < |out|
      invariant p <= |out| == |doc|
      invariant forall q :: 0 <= q < p ==> out[q] == EditedDoc(doc, editMap)[q]
      invariant forall q :: p <= q < |out| ==> out[q] == doc[q]
    {
      var page := out[p];
      var j := 0;
      while j < |page|
        invariant j <= |page| == |doc[p]|
        invariant forall k :: 0 <= k < j ==> page[k] == EditedWidget(p, doc[p][k], editMap)
        invariant forall k :: j <= k < |page| ==> page[k] == doc[p][k]
      {
        var widget := page[j];
        if widget.name != "" {
          var fieldId := PageFieldId(p, widget.name);
          if fieldId in editMap {
            page := page[j := ApplyWidgetEdit(widget, editMap[fieldId])];
          }
        }
        j := j + 1;
      }
      assert page == EditedDoc(doc, editMap)[p];
      out := out[p := page];
      p := p + 1;
    }
    assert out == EditedDoc(doc, editMap);
  }

  /** A checkbox is ticked by the four tokens, in any letter case, and by `True`, and by nothing else. */
  lemma CheckboxCoercion(w: Widget)
    requires w.widgetType == WIDGET_CHECKBOX
    ensures ApplyWidgetEdit(w, Str("Yes")).value == Some(Bool(true))
    ensures ApplyWidgetEdit(w, Str("TRUE")).value == Some(Bool(true))
    ensures ApplyWidgetEdit(w, Str("1")).value == Some(Bool(true))
    ensures ApplyWidgetEdit(w, Str("Checked")).value == Some(Bool(true))
    ensures ApplyWidgetEdit(w, Str("no")).value == Some(Bool(false))
    ensures ApplyWidgetEdit(w, Str("on")).value == Some(Bool(false))
    ensures ApplyWidgetEdit(w, Str("")).value == Some(Bool(false))
    ensures ApplyWidgetEdit(w, Bool(false)).value == Some(Bool(false))
  {
    assert Lower("Yes") == "yes" by { assert LowerChar('Y') == 'y'; }
    assert Lower("TRUE") == "true" by {
      assert LowerChar('T') == 't' && LowerChar('R') == 'r' && LowerChar('U') == 'u' && LowerChar('E') == 'e';
    }
    assert Lower("1") == "1";
    assert Lower("Checked") == "checked" by { assert LowerChar('C') == 'c'; }
    assert Lower("no") == "no";
    assert Lower("on") == "on";
  }

  /** Any other widget is given the value's text, booleans as `True` and `False`. */
  lemma TextCoercion(w: Widget, v: Value)
    requires w.widgetType != WIDGET_CHECKBOX
    ensures ApplyWidgetEdit(w, v).value == Some(Str(StrOf(v)))
    ensures ApplyWidgetEdit(w, Bool(true)).value == Some(Str("True"))
  {
  }

  /** Editing changes values only, so re-detection after `apply_edits` reports the same ids. */
  lemma EditsKeepIds(doc: Document, m: map<string, Value>)
    ensures FieldIds(Detected(EditedDoc(doc, m))) == FieldIds(Detected(doc))
  {
    var r := EditedDoc(doc, m);
    assert SameNames(doc, r);
    IdsStable(doc, r, |doc|);
  }

  /**
   * Read-back: after `apply_edits`, detecting the edited widget reports the
   * value written, as text, checkbox values as `true` or `false`.
   */
  lemma EditReadsBack(doc: Document, m: map<string, Value>, p: nat, j: nat)
    requires p < |doc| && j < |doc[p]| && Matches(p, doc[p][j], m)
    ensures var v := m[PageFieldId(p, doc[p][j].name)];
      MakeField(p, EditedDoc(doc, m)[p][j]).currentValue ==
        if doc[p][j].widgetType == WIDGET_CHECKBOX then
          Some(if Ticks(v) then "true" else "false")
        else Some(StrOf(v))
  {
  }

  /** A dictionary of `edit_pdf_with_instructions`, reduced to its two keys; `None` is a missing key. */
  datatype EditRequest = EditRequest(fieldId: Option<string>, value: Option<Value>)

  /**
   * `[FieldEdit(field_id=e["field_id"], value=e["value"]) for e in edits]`:
   * one edit per request in order, or the key error of the first incomplete request.
   */
  function ToFieldEdits(reqs: seq<EditRequest>): (r: Result<seq<FieldEdit>, string>)
    ensures r.Ok? <==> forall i :: 0 <= i < |reqs| ==> reqs[i].fieldId.Some? && reqs[i].value.Some?
    ensures r.Ok? ==> |r.value| == |reqs| && forall i :: 0 <= i < |reqs| ==>
      r.value[i] == FieldEdit(reqs[i].fieldId.value, reqs[i].value.value)
    ensures r.Err? ==> r.error in {"field_id", "value"}
  {
    if reqs == [] then Ok([])
    else if reqs[0].fieldId.None? then Err("field_id")
    else if reqs[0].value.None? then Err("value")
    else
      match ToFieldEdits(reqs[1..])
      case Err(e) => Err(e)
      case Ok(rest) =>
        assert forall i :: 1 <= i < |reqs| ==> reqs[i] == reqs[1..][i - 1];
        Ok([FieldEdit(reqs[0].fieldId.value, reqs[0].value.value)] + rest)
  }

  /** `edit_pdf_with_instructions` */
  method EditPdfWithInstructions(doc: Document, reqs: seq<EditRequest>) returns (r: Result<Document, string>)
    ensures r.Err? <==> ToFieldEdits(reqs).Err?
    ensures r.Ok? ==> r.value == EditedDoc(doc, EditMap(ToFieldEdits(reqs).value))
  {
    var edits := ToFieldEdits(reqs);
    if edits.Err? {
      return Err(edits.error);
    }
    var out := ApplyEdits(doc, edits.value);
    return Ok(out);
  }

  // ---------------------------------------------------------------------------
  // Form summary
  // ---------------------------------------------------------------------------

  const NO_FIELDS_MESSAGE: string := "No fillable form fields detected in this PDF."

  /** The lines `get_form_summary` writes for one field. */
  function FieldSummaryLines(f: DetectedField): seq<string> {
    ["  - " + f.fieldId + " (" + FieldTypeName(f.fieldType) + ")",
     "    Context: " + Take(f.labelContext, 80) + "..."]
    + (if f.currentValue.Some? && f.currentValue.value != "" then ["    Current value: " + f.currentValue.value] else [])
    + (if f.options.Some? && f.options.value != [] then ["    Options: " + ListRepr(f.options.value)] else [])
    + [""]
  }

  function SummaryLines(fields: seq<DetectedField>): seq<string> {
    if fields == [] then []
    else SummaryLines(fields[..|fields| - 1]) + FieldSummaryLines(fields[|fields| - 1])
  }

  /** The summary text for a list of detected fields. */
  function SummaryText(fields: seq<DetectedField>): string {
    if fields == [] then NO_FIELDS_MESSAGE
    else Join(["Found " + NatToString(|fields|) + " fillable form fields:\n"] + SummaryLines(fields), "\n")
  }

  lemma JoinStartsWith(parts: seq<string>, sep: string)
    requires |parts| >= 1
    ensures StartsWith(Join(parts, sep), parts[0])
  {
  }

  /** The fixed message is returned exactly when detection finds nothing. */
  lemma SummaryMessageExactly(fields: seq<DetectedField>)
    ensures SummaryText(fields) == NO_FIELDS_MESSAGE <==> fields == []
  {
    if fields != [] {
      var head := "Found " + NatToString(|fields|) + " fillable form fields:\n";
      var parts := [head] + SummaryLines(fields);
      JoinStartsWith(parts, "\n");
      assert parts[0] == head;
      assert SummaryText(fields) == Join(parts, "\n");
      var text := Join(parts, "\n");
      assert text[..|head|] == head;
      assert head[0] == 'F';
      assert text[0] == text[..|head|][0];
      assert NO_FIELDS_MESSAGE == "No" + NO_FIELDS_MESSAGE[2..];
    }
  }

  /** `get_form_summary` */
  method GetFormSummary(doc: Document) returns (summary: string)
    ensures summary == SummaryText(Detected(doc))
    ensures summary == NO_FIELDS_MESSAGE <==> Detected(doc) == []
  {
    var fields := DetectFormFields(doc);
    SummaryMessageExactly(fields);
    if fields == [] {
      return NO_FIELDS_MESSAGE;
    }
    var lines := ["Found " + NatToString(|fields|) + " fillable form fields:\n"];
    var i := 0;
    while i < |fields|
      invariant i <= |fields|
      invariant lines == ["Found " + NatToString(|fields|) + " fillable form fields:\n"] + SummaryLines(fields[..i])
    {
      assert fields[..i + 1][..i] == fields[..i];
      ConcatAssoc(["Found " + NatToString(|fields|) + " fillable form fields:\n"], SummaryLines(fields[..i]), FieldSummaryLines(fields[i]));
      lines := lines + FieldSummaryLines(fields[i]);
      i := i + 1;
    }
    assert fields[..i] == fields;
    summary := Join(lines, "\n");
  }
}
