# Form-filling session and field detection, in Dafny

This project models the core of a PDF form-filling assistant. The assistant
has two parts.

- **A field processor** (`pdf_processor.py`). It finds every fillable
  AcroForm widget in a document and reports each one as a `DetectedField`.
  It also applies a batch of edits to the widgets.
- **A session** (`agent.py`). It holds a snapshot of the detected fields,
  the staged edits (`pending_edits`) and the cumulative committed edits
  (`applied_edits`). Tools read the snapshot, stage values, review them and
  commit them in one best-effort pass. At the start of each turn the session
  is either hard-reset or soft-reset.

The document is modelled as a value: a sequence of pages, each a sequence of
widgets. A widget has a name, a widget type (PyMuPDF's integer codes), a
value, its choice values and the text found around it. The session is a
class with the source's fields, and each tool body is a method on it.
Python dicts are insertion-ordered association lists, because the commit
walks the staged edits in insertion order.

Modules follow the program's structure:

- `Wrappers`, `Dicts` and `PyStr` provide `Option`/`Result`, Python-dict
  behaviour and the ASCII string operations the code calls.
- `PdfProcessor` models detection, nearby text, edit application and the
  summary.
- `FieldNames` models `_format_field_name` and `ToolResults` models
  `_format_tool_result`.
- `Views` holds the read views of the session.
- `Commit` holds the commit loop as a reference function with its lemmas.
- `Agent` holds the session class.

The model follows the code where it differs from its comments and from the
intended behaviour.

- **`"Text1"` becomes `"1"`, not `"Text 1"`.** The comment example at
  `agent.py:622` says otherwise. The code strips `text` because a digit
  follows it (`FieldNames.ExampleText1`).
- **`get_field_details` uses `or`.** A committed `False` or empty string
  falls back to the snapshot's value, so a checkbox unticked in this session
  can show as ticked (`Views.DetailsMaskFalsy`, `Views.UntickedShowsTicked`).
  `list_all_fields` does not fall back.
- **Some staged ids are silently skipped.** An id whose field exists but
  which matches no widget appears in neither `applied` nor `errors`
  (`Commit.NoWidgetSilent`).
- **`applied_edits` is not rolled back on save failure.** It is updated
  before the save, so a failed save does not undo it.
- **The two write paths differ.** The commit writes only the first widget
  whose id matches (`Commit.DuplicateUntouched`). `apply_edits` writes every
  matching widget (`PdfProcessor.EditedDoc`).
- **Index stripping is a single pass.** `[[0]0]` keeps an index and gives
  the label `[0]` (`FieldNames.StripIndicesSinglePass`,
  `FieldNames.ExampleNestedIndex`).
- **An empty document counts as not loaded.** Tools guard on
  `if not _session.doc`, and a document with no pages is falsy
  (`Agent.FormFillingSession.Loaded`).

## Model

| member | source | states |
|---|---|---|
| PdfProcessor.PageFieldIdInjective | form-filling-exp/backend/pdf_processor.py:87 | On one page, two widget names give the same `page<N>_<name>` id exactly when the names are equal. |
| PdfProcessor.WidgetTypeToFieldType | form-filling-exp/backend/pdf_processor.py:190-199 | The mapping is total. Checkbox maps to CHECKBOX and radio to RADIO. Combobox and listbox, and only they, map to DROPDOWN. Every other code, unknown ones included, maps to TEXT. |
| PdfProcessor.CleanLinesSound | form-filling-exp/backend/pdf_processor.py:186 | Every kept line is non-empty, stripped, and the strip of some input line. |
| PdfProcessor.CleanLinesKeeps | form-filling-exp/backend/pdf_processor.py:186 | Every input line that is non-blank once stripped is kept. |
| PdfProcessor.CleanLinesAppend | form-filling-exp/backend/pdf_processor.py:186 | Line cleanup works line by line: cleaning a concatenation concatenates the cleaned parts, so order is kept. |
| PdfProcessor.NearbySegmentsClean | form-filling-exp/backend/pdf_processor.py:183-187 | The nearby text has at most 5 segments, each a stripped, non-empty line without a newline. |
| PdfProcessor.NearbyTextOneLine | form-filling-exp/backend/pdf_processor.py:187 | The label, its segments joined by a spaced pipe, is one line, and it is empty exactly when no segment is kept. |
| PdfProcessor.FewLinesAllKept | form-filling-exp/backend/pdf_processor.py:187 | With at most five non-blank lines, all of them are kept, in order. |
| PdfProcessor.ReportedValue | form-filling-exp/backend/pdf_processor.py:82-84 | A boolean widget value is reported as `"true"` or `"false"`. A string value is reported as it is, and a missing value as `None`. |
| PdfProcessor.DetectFormFields | form-filling-exp/backend/pdf_processor.py:49-98 | The nested page/widget loop returns exactly the reference detection `Detected(doc)`. |
| PdfProcessor.DetectedSound | form-filling-exp/backend/pdf_processor.py:65-95 | Every detected field is built from a named widget of the page it names. |
| PdfProcessor.DetectedFieldFacts | form-filling-exp/backend/pdf_processor.py:71-94 | Each detected field comes from a named widget of its page. Its id is `page<p>_<name>` and its native name is the widget's name. Its type is the mapped widget type and its value is the reported value. It has options exactly for choice widgets, and then they are `choice_values or []`. |
| PdfProcessor.DetectedComplete | form-filling-exp/backend/pdf_processor.py:65-95 | Every named widget's field is detected. |
| PdfProcessor.DetectedCount | form-filling-exp/backend/pdf_processor.py:69-72 | The number of fields equals the number of named widgets: one field per named widget, none for unnamed ones. |
| PdfProcessor.DetectedPagesOrdered | form-filling-exp/backend/pdf_processor.py:65-69 | Fields are listed page by page, in non-decreasing page order. |
| PdfProcessor.PageFieldsAppend | form-filling-exp/backend/pdf_processor.py:69-95 | Within a page, fields follow widget order: detecting a split list of widgets concatenates the parts. |
| PdfProcessor.NoFieldsExactly | form-filling-exp/backend/pdf_processor.py:65-98 | Detection yields no fields exactly when no widget has a name. |
| PdfProcessor.IdsStable | form-filling-exp/backend/pdf_processor.py:87 | Two documents whose pages carry the same widget names give the same field ids, in the same order. |
| PdfProcessor.EditMap | form-filling-exp/backend/pdf_processor.py:115 | The keys of the edit map are exactly the ids of the edits. |
| PdfProcessor.EditMapLastWins | form-filling-exp/backend/pdf_processor.py:115 | When ids repeat, the map holds the value of the last edit with that id. |
| PdfProcessor.ApplyWidgetEdit | form-filling-exp/backend/pdf_processor.py:202-220 | An edit keeps the widget's name, type, choices and nearby text. A checkbox gets the boolean of the checkbox coercion of the value, and any other widget gets `str(value)`. |
| PdfProcessor.CheckboxCoercion | form-filling-exp/backend/pdf_processor.py:206-210 | On a checkbox, `yes`, `TRUE`, `1` and `Checked` tick it. `no` and `on` do not. A boolean passes through. |
| PdfProcessor.TextCoercion | form-filling-exp/backend/pdf_processor.py:212-218 | Every non-checkbox widget gets `str(value)`, so `True` becomes `"True"`. |
| PdfProcessor.EditedDoc | form-filling-exp/backend/pdf_processor.py:117-128 | The shape is kept. Every named widget whose recomputed id is a key is edited with that key's value, duplicates included. Every other widget, unnamed ones included, is unchanged. |
| PdfProcessor.ApplyEdits | form-filling-exp/backend/pdf_processor.py:101-132 | The nested loop produces exactly `EditedDoc(doc, EditMap(edits))`. |
| PdfProcessor.EditsKeepIds | form-filling-exp/backend/pdf_processor.py:117-128 | Applying edits never changes which fields are detected or their ids. |
| PdfProcessor.EditReadsBack | form-filling-exp/backend/pdf_processor.py:202-220 | In the document model, after an edit, re-detection reports the written value: `"true"`/`"false"` on a checkbox, `str(value)` elsewhere. |
| PdfProcessor.ToFieldEdits | form-filling-exp/backend/pdf_processor.py:151-157 | The conversion succeeds exactly when every request has both keys. It is then one-for-one, keeping order, ids and values. Otherwise it fails with a key error. |
| PdfProcessor.EditPdfWithInstructions | form-filling-exp/backend/pdf_processor.py:135-158 | It fails exactly when the conversion does. Otherwise it is `apply_edits` of the converted edits. |
| PdfProcessor.SummaryMessageExactly | form-filling-exp/backend/pdf_processor.py:234-248 | The summary is the fixed "No fillable form fields…" message exactly when there are no fields. |
| PdfProcessor.GetFormSummary | form-filling-exp/backend/pdf_processor.py:227-248 | The loop builds the reference summary of the detected fields, each option list written as Python prints a list of strings (`PyRepr.ListRepr`). It is the fixed message exactly when detection is empty. |
| FieldNames.LastSegment | form-filling-exp/backend/agent.py:626-627 | The result has no `.`, and a name without `.` is kept. |
| FieldNames.IndexMatch | form-filling-exp/backend/agent.py:630 | A match at the start is `[`, one or more digits, `]`. |
| FieldNames.StripIndices | form-filling-exp/backend/agent.py:630 | Removing indices never lengthens the name and adds no character. |
| FieldNames.StripIndicesRemovesIndex | form-filling-exp/backend/agent.py:630 | An index `[digits]` between two parts is removed, and the text before it is kept. |
| FieldNames.StripIndicesSinglePass | form-filling-exp/backend/agent.py:630 | The substitution is one pass: `[[0]0]` becomes `[0]`. |
| FieldNames.StripPrefixFirst | form-filling-exp/backend/agent.py:633-641 | The first listed prefix that applies is stripped (case-insensitive, followed by upper case, a digit or `_`), and no later one. |
| FieldNames.StripPrefixNone | form-filling-exp/backend/agent.py:633-641 | When no prefix applies, the name is unchanged. |
| FieldNames.SplitCamel | form-filling-exp/backend/agent.py:644 | The result starts like its input, holds only the input's characters and spaces, and has no lower-case letter directly before an upper-case one. |
| FieldNames.SplitCamelKeeps | form-filling-exp/backend/agent.py:644 | The split only inserts spaces: with the spaces removed, the result and the input are the same string. |
| FieldNames.SplitCamelInserts | form-filling-exp/backend/agent.py:644 | The matches never overlap, so the result is the input with one space inserted after each lower-case letter that an upper-case letter follows, and no other change. |
| FieldNames.Underscores | form-filling-exp/backend/agent.py:647 | Each `_` becomes a space and every other character is kept. |
| FieldNames.Truncate | form-filling-exp/backend/agent.py:655-657 | The result is a prefix of at most 30 characters. A name of at most 30 characters is kept whole. A longer one is cut at the last space within its first 30 characters, or at 30 when there is none. |
| FieldNames.TruncateKeeps | form-filling-exp/backend/agent.py:655-657 | On a single-spaced label the cut is still single-spaced and empty only for empty input, and falls where `Truncate` says. |
| FieldNames.FormatFieldName | form-filling-exp/backend/agent.py:615-659 | Empty input gives `None`. A label is non-empty, at most 30 characters, has no `_` or `.`, and has no doubled, leading or trailing spaces. |
| FieldNames.FormatFieldNameNone | form-filling-exp/backend/agent.py:615-659 | The result is `None` exactly for empty input or when no word survives the rewrites. |
| FieldNames.ExampleLastName | form-filling-exp/backend/agent.py:621 | `topmostSubform[0].Page1[0].LastName[0]` is labelled `Last Name`. |
| FieldNames.ExampleClaimant | form-filling-exp/backend/agent.py:623 | `claimant_last_name` is labelled `Claimant Last Name`. |
| FieldNames.ExampleText1 | form-filling-exp/backend/agent.py:633-641 | `Text1` is labelled `1`: the `text` prefix is stripped before a digit. |
| FieldNames.ExampleAgree | form-filling-exp/backend/agent.py:633-641 | `chkAgree` is labelled `Agree`. |
| FieldNames.ExampleNestedIndex | form-filling-exp/backend/agent.py:630 | A nested index survives the whole chain: `[[0]0]` is labelled `[0]`. |
| ToolResults.Preview | form-filling-exp/backend/agent.py:693 | The quoted value is the prefix of `str(value)` of exactly 30 characters, or the whole of it when it is shorter. |
| ToolResults.Greater | form-filling-exp/backend/agent.py:701 | Two numbers compare numerically and two strings by code point. Two lists compare lexicographically: the first unequal pair decides, and with no unequal pair the longer list is greater. Any other pair raises `TypeError`. |
| ToolResults.FirstDiff | form-filling-exp/backend/agent.py:701 | The index found is the first where the two lists hold unequal elements. With none found, the lists agree up to the shorter length. |
| ToolResults.PyEqRefl | form-filling-exp/backend/agent.py:701 | Every decoded JSON value equals itself under Python's `==`. |
| ToolResults.GreaterIrreflexive | form-filling-exp/backend/agent.py:701 | `x > x` is never true: it is false or raises. |
| ToolResults.GreaterThanPrefix | form-filling-exp/backend/agent.py:701 | A list is greater than each of its proper prefixes. |
| ToolResults.CommitListDigest | form-filling-exp/backend/agent.py:698-703 | A commit result whose counts are the lists `[1]` and `[2]` is still digested, with the total shown. |
| ToolResults.FormatToolResult | form-filling-exp/backend/agent.py:681-711 | A non-dict gives `None`. A load result is recognised by `field_count` and `success`. A staging result is recognised only when it is not a load result. A raise is always `TypeError`. It happens exactly when, past those two tests, a commit result's total and count cannot be ordered, or a non-commit result's pending edits are truthy and have no length. |
| ToolResults.CommitDigest | form-filling-exp/backend/agent.py:698-703 | A commit result shows its total exactly when the total exceeds the count. |
| ToolResults.CommitDigestNoTotal | form-filling-exp/backend/agent.py:700 | Without `total_fields_filled` the total is never shown. |
| ToolResults.PendingDigest | form-filling-exp/backend/agent.py:706-709 | A pending review is digested exactly when its list is non-empty, with its length. |
| ToolResults.PendingNumberRaises | form-filling-exp/backend/agent.py:708-709 | A truthy number in place of the list raises, and the friendly parser then gives `None`. |
| ToolResults.CommitMixedRaises | form-filling-exp/backend/agent.py:701 | A string total compared with a number count raises. |
| ToolResults.UnknownNoDigest | form-filling-exp/backend/agent.py:711 | An object with none of the recognised keys gives `None`. |
| Views.FindField | form-filling-exp/backend/agent.py:203 | A found field is in the snapshot and has the id. Nothing is found exactly when no snapshot field has the id. |
| Views.FindFieldFirst | form-filling-exp/backend/agent.py:203 | The lookup returns the first snapshot field with the id. |
| Views.ListedValue | form-filling-exp/backend/agent.py:162-165 | A committed value, even a falsy one, is shown in preference to the snapshot's. Otherwise a non-empty snapshot value is shown, and nothing else is. |
| Views.ListView | form-filling-exp/backend/agent.py:152-166 | One entry per snapshot field, in order. |
| Views.HitsSound | form-filling-exp/backend/agent.py:179-192 | Every search hit is the entry of a snapshot field whose label matches. |
| Views.HitsComplete | form-filling-exp/backend/agent.py:179-192 | Every matching field is a hit, with its committed value. |
| Views.HitsPrefix | form-filling-exp/backend/agent.py:179-194 | Hits keep snapshot order: the hits among the first fields are a prefix of all hits. |
| Views.SearchViewFacts | form-filling-exp/backend/agent.py:194 | At most 10 results are returned, and all hits when there are at most 10. |
| Views.WordMatches | form-filling-exp/backend/agent.py:181 | A label containing any word of the query matches. |
| Views.EmptyQueryMatchesAll | form-filling-exp/backend/agent.py:181 | The empty query matches every field. |
| Views.DetailValue | form-filling-exp/backend/agent.py:215 | A truthy committed value is shown. Otherwise the snapshot's value is shown. |
| Views.DetailsView | form-filling-exp/backend/agent.py:202-216 | An unknown id gives `Field not found: <id>`. Otherwise the details carry the id, the staged value, and the snapshot field's type, page, label and options. The current value is the committed one when truthy, else the snapshot's. |
| Views.DetailsMaskFalsy | form-filling-exp/backend/agent.py:215 | The list and the details agree on a truthy committed value. A falsy one is masked in the details. |
| Views.UntickedShowsTicked | form-filling-exp/backend/agent.py:215 | A checkbox committed as `False` and detected as `"true"` lists as `False` but shows as `"true"` in the details. |
| Views.PendingInfo | form-filling-exp/backend/agent.py:255-261 | An entry keeps its id and value. A snapshot field gives its type name and exactly the first 80 characters of its label, or all of it when shorter. An id outside the snapshot shows `unknown` label and type. |
| Views.PendingView | form-filling-exp/backend/agent.py:253-261 | One entry per staged edit, in staging order. |
| Agent.StagedValue | form-filling-exp/backend/agent.py:234-237 | A checkbox stages the truth of the value, and any other field stages the value as given. |
| Agent.StagedCount | form-filling-exp/backend/agent.py:239-246 | `pending_count` is the number of distinct staged ids, the new one included. |
| Agent.CommitEntry | form-filling-exp/backend/agent.py:296-316 | The widget search with its `break` yields exactly the reference outcome of one staged edit. |
| Agent.CommitPending | form-filling-exp/backend/agent.py:292-317 | The commit loop yields exactly the reference run `Commit.Run` over the staged edits, and `applied_edits` stays a dict. |
| Agent.FormFillingSession.constructor | form-filling-exp/backend/agent.py:74-84 | A new session has nothing loaded, no fields and no edits, and is not a continuation. |
| Agent.FormFillingSession.Reset | form-filling-exp/backend/agent.py:86-97 | A hard reset clears the document, both paths, the fields, both edit maps and the saved PDF, and clears `is_continuation`. |
| Agent.FormFillingSession.SoftReset | form-filling-exp/backend/agent.py:99-103 | A soft reset empties the staged edits and changes nothing else. |
| Agent.FormFillingSession.StartTurn | form-filling-exp/backend/agent.py:755-761 | A continuation keeps the document, fields and saved PDF. It replaces `applied_edits` by the previous edits when those are non-empty. Otherwise the session is hard-reset. The output path and flag are then stored, as `_create_agent_options` does at agent.py:454-456. |
| Agent.FormFillingSession.LoadPdf | form-filling-exp/backend/agent.py:117-144 | A failed open changes nothing. A failure after the open leaves the new document and path set over the old fields and edits. A full success stores the document and detected fields and drops the staged edits. It drops the applied edits only when the turn is not a continuation. |
| Agent.FormFillingSession.ListAllFields | form-filling-exp/backend/agent.py:146-168 | Without a document it fails with the "Call load_pdf first" error. Otherwise it returns the list view. |
| Agent.FormFillingSession.SearchFields | form-filling-exp/backend/agent.py:170-194 | Without a document it fails. Otherwise the loop returns the first ten hits. |
| Agent.FormFillingSession.GetFieldDetails | form-filling-exp/backend/agent.py:196-217 | Without a document it fails. Otherwise it returns the details view. |
| Agent.FormFillingSession.SetField | form-filling-exp/backend/agent.py:219-248 | Without a document, or with an id outside the snapshot, it returns the error and stages nothing. Otherwise it stages the coerced value, overwriting an earlier one. It reports the value and the pending count. |
| Agent.FormFillingSession.GetPendingEdits | form-filling-exp/backend/agent.py:250-264 | It returns one entry per staged edit, in order, whether or not a document is loaded. |
| Agent.FormFillingSession.CommitEdits | form-filling-exp/backend/agent.py:277-351 | Without a document nothing changes. Otherwise the document and `applied_edits` are those of the reference run, and the staged edits are cleared. The save's error is appended and the output path is chosen. `success` holds iff there are no errors, `applied_count` is `len(applied)` and `total_fields_filled` is `len(applied_edits)`. |
| Agent.LoadDigested | form-filling-exp/backend/agent.py:687-689 | The chat view digests a load result as "Found N form fields". |
| Agent.SetDigested | form-filling-exp/backend/agent.py:692-695 | The chat view digests a staging result with the value preview and the pending count. |
| Agent.CommitDigested | form-filling-exp/backend/agent.py:698-703 | The chat view digests a commit result with the total shown iff it exceeds the applied count. |
| Agent.PendingDigested | form-filling-exp/backend/agent.py:706-709 | The chat view digests a pending review iff it is non-empty. |
| Agent.ErrorsNotDigested | form-filling-exp/backend/agent.py:686-711 | The chat view does not digest error results. |
| Commit.FirstMatch | form-filling-exp/backend/agent.py:303-314 | The search finds the first widget whose recomputed id matches, and finds none exactly when no widget matches. |
| Commit.CommitValue | form-filling-exp/backend/agent.py:306-309 | A checkbox is written `bool(value)` and any other field `str(value)`. |
| Commit.EntryOutcome | form-filling-exp/backend/agent.py:296-316 | An id outside the snapshot is not found, and only such an id. A field whose page is missing fails with the engine's message. With no matching widget there is no outcome to report. Otherwise the first matching widget is written when the engine raises no fault, and the fault's message is reported when it does. |
| Commit.Step | form-filling-exp/backend/agent.py:295-316 | One turn of the loop keeps the number of pages and widgets. Its exact effect is `Commit.StepSpec`. |
| Commit.Run | form-filling-exp/backend/agent.py:295-317 | The loop over the staged edits keeps the number of pages and widgets. Its exact effect is `Commit.RunSpec`. |
| Commit.StepSpec | form-filling-exp/backend/agent.py:295-317 | One staged edit changes only widget values. It adds its entry to `applied` and `applied_edits` exactly when written. It adds exactly its own errors. |
| Commit.RunSpec | form-filling-exp/backend/agent.py:295-317 | The whole loop changes only widget values. It appends the written entries, the errors of the others and the written entries put into `applied_edits`, all in staging order. |
| Commit.CommitCounts | form-filling-exp/backend/agent.py:295-317 | `|applied| + |errors from the loop| <= |pending|`. |
| Commit.WrittenSound | form-filling-exp/backend/agent.py:311 | Every applied entry is a staged `(id, value)` pair that was written. |
| Commit.WrittenComplete | form-filling-exp/backend/agent.py:305-311 | Every staged edit that is written appears in `applied`. |
| Commit.NotFoundReported | form-filling-exp/backend/agent.py:297-299 | A staged id outside the snapshot adds `Field not found: <id>` to the errors. |
| Commit.NoWidgetSilent | form-filling-exp/backend/agent.py:301-314 | A staged id whose field exists but which matches no widget is neither applied nor reported. |
| Commit.AppliedEditsAfter | form-filling-exp/backend/agent.py:312 | After the loop, each written id holds its staged value in `applied_edits`, and every other key is unchanged. |
| Commit.WrittenKeys | form-filling-exp/backend/agent.py:311 | Applied ids are staged ids, without repeats. |
| Commit.RunWrites | form-filling-exp/backend/agent.py:306-310 | The widget a written edit targets holds the coerced value after the loop. |
| Commit.RunUntouched | form-filling-exp/backend/agent.py:301-314 | A widget no staged edit targets is unchanged. |
| Commit.DuplicateUntouched | form-filling-exp/backend/agent.py:314 | A second widget with the same id as an earlier one is never written. |
| Commit.UnnamedTakesNone | form-filling-exp/backend/agent.py:304 | An unnamed widget's recomputed id is `page<N>_None`, so it can take the edit of a field named `None`. |
| Commit.OutputPathChoice | form-filling-exp/backend/agent.py:286-288 | The output path is the argument if non-empty, else the session's output path if non-empty, else the default. |
| Commit.DefaultOutputOfStem | form-filling-exp/backend/agent.py:288 | For a path whose stem has no `.`, the default replaces `.pdf` with `_filled.pdf`. |
| PyRepr.QuoteFor | form-filling-exp/backend/pdf_processor.py:245 | `repr` uses double quotes exactly when the string holds a single quote and no double quote. |
| PyRepr.ReprRoundTrip | form-filling-exp/backend/pdf_processor.py:245 | `repr` of an option loses nothing: its quotes match, and the text between them unescapes to the option. |
| PyRepr.ReprPlain | form-filling-exp/backend/pdf_processor.py:245 | An option without quotes, backslashes or control characters is shown in single quotes as it is. |
| PyRepr.ReprApostrophe | form-filling-exp/backend/pdf_processor.py:245 | `it's` is shown as `"it's"`. |
| PyRepr.ReprBackslash | form-filling-exp/backend/pdf_processor.py:245 | A backslash in an option is doubled. |
| Dicts.Put | form-filling-exp/backend/agent.py:239 | `d[k] = v` adds `k` to the keys, grows the dict only for a new key, keeps every other entry in place, keeps keys distinct and makes `k` map to `v`. |
| Dicts.PutPut | form-filling-exp/backend/agent.py:239 | Staging the same id twice leaves only the second value. |
| PyStr.JoinSplit | form-filling-exp/backend/agent.py:627 | Splitting on `.` loses nothing: joining the parts with `.` gives the name back. |
| PyStr.TitleCasing | form-filling-exp/backend/agent.py:653 | `str.title` upper-cases exactly the letters that start a run of letters and lower-cases every other letter. |
| Commit.DefaultOutputNoSuffix | form-filling-exp/backend/agent.py:288 | A path without `.pdf` is its own default, so the save targets the input path. |

## Left out

- The agent SDK and MCP plumbing (`ClaudeSDKClient`, the `@tool` decorator, `create_sdk_mcp_server`, message streaming and serialisation, prompt text) are foreign calls without decision logic. Each tool body is a method on the session, and its result is a JSON value rather than JSON text.
- PyMuPDF is replaced by a value of pages and widgets. Opening, `widget.update()` and `page.get_text(clip=...)` are not modelled. The widget carries the text its clip rectangle would return, and the engine's write exceptions are an input map from id to message. `PAGE_MISSING` stands for the engine's message when a field's page is not in the document.
- Rectangle expansion and clipping in `_extract_nearby_text` and the `bbox` tuple are float geometry and are not modelled. Only the line cleanup is.
- Saving, reading the saved bytes back and the `os.path` checks are one input, `SaveOutcome`: saved, an exception with its message, or the file missing afterwards. The saved bytes are the document value.
- Agent.FormFillingSession.CommitEdits: assigns `applied_edits` once after the loop rather than inside it. Nothing reads it in between and both happen before the save, so the result is the same.
- Parallel `set_field` calls by the agent are not modelled: staging is sequential.
- `main.py`, the web UI, `session.ts` and `test_local.py` are not part of this model.
- Case handling (`lower`, `title`, `isupper`, `isdigit`) is ASCII only. So is whitespace: `isspace`, `strip()` and `split()` remove only ASCII whitespace, not Unicode whitespace such as U+00A0. The regex `\d` matches only ASCII digits, not every Unicode decimal digit.
- A widget whose name is `None` and one whose name is `""` are both the empty name. The only place they differ is the commit's recomputed id, which prints `None` (`Commit.WidgetFieldId`).
- FieldNames.FormatFieldName: does not promise that the label contains no `[digits]`. The single-pass substitution can leave one, as `FieldNames.ExampleNestedIndex` shows.
- The `repr` of a list or an object inside `str(value)` in the tool-result digest is not modelled, and such a value gives no preview.
- The digest's sentence wording is not modelled: a `Digest` keeps which kind of result was recognised and the values the sentence quotes.
- JSON numbers are integers: floats, and comparisons that mix them with integers, are not modelled.
- ToolResults.PyEq: compares objects by looking up each key of the first in the second, which is Python's dict equality only when keys are distinct, as in decoded JSON (`ToolResults.WellKeyed`).
- PyRepr.Repr: treats every character at or above 0x80 as printable and writes it as it is. Python escapes the non-printable ones.
