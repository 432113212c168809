/**
 * `_format_field_name`: the chain of string rewrites that turns a raw form
 * field name such as `topmostSubform[0].Page1[0].LastName[0]` into a label
 * such as `Last Name`. Letter case is ASCII only.
 */
module FieldNames {
  import opened Wrappers
  import opened PyStr

  // ---------------------------------------------------------------------------
  // The stages, in the order the code applies them
  // ---------------------------------------------------------------------------

  /** `name.split(".")[-1]` when the name holds a dot, else the name. */
  function LastSegment(name: string): (r: string)
    ensures '.' !in r
    ensures '.' !in name ==> r == name
  {
    if '.' in name then Last(Split(name, '.')) else name
  }

  /** The number of leading ASCII digits. */
  function DigitRun(s: string): (k: nat)
    ensures k <= |s|
    ensures forall i :: 0 <= i < k ==> IsDigit(s[i])
    ensures k < |s| ==> !IsDigit(s[k])
  {
    if s == [] || !IsDigit(s[0]) then 0 else 1 + DigitRun(s[1..])
  }

  /** The length of a match of `\[\d+\]` at the start of `s`, or 0 when there is none. */
  function IndexMatch(s: string): (m: nat)
    ensures m <= |s|
    ensures m > 0 ==> m >= 3 && s[0] == '[' && s[m - 1] == ']' && forall i :: 1 <= i < m - 1 ==> IsDigit(s[i])
  {
    if s != [] && s[0] == '[' then
      var k := DigitRun(s[1..]);
      if k >= 1 && k + 1 < |s| && s[k + 1] == ']' then k + 2 else 0
    else 0
  }

  /** `re.sub(r'\[\d+\]', '', s)`: one left-to-right pass removing non-overlapping matches. */
  function StripIndices(s: string): (r: string)
    ensures |r| <= |s|
    ensures forall c :: c in r ==> c in s
    decreases |s|
  {
    if s == [] then []
    else
      var m := IndexMatch(s);
      if m > 0 then
        var rest := StripIndices(s[m..]);
        assert forall c :: c in rest ==> c in s by {
          forall c | c in rest ensures c in s {
            var i :| 0 <= i < |s[m..]| && s[m..][i] == c;
            assert s[m + i] == c;
          }
        }
        rest
      else
        var rest := StripIndices(s[1..]);
        assert forall c :: c in rest ==> c in s by {
          forall c | c in rest ensures c in s {
            var i :| 0 <= i < |s[1..]| && s[1..][i] == c;
            assert s[1 + i] == c;
          }
        }
        [s[0]] + rest
  }

  const PREFIXES: seq<string> := ["txt", "fld", "field", "text", "chk", "checkbox", "radio", "rb", "cb"]

  /** The character after a prefix that marks it as one: an upper-case letter, a digit or `_`. */
  predicate MarksPrefixEnd(c: char) {
    IsUpper(c) || IsDigit(c) || c == '_'
  }

  /** Whether the code removes `prefix` from `name`. */
  predicate PrefixApplies(name: string, prefix: string) {
    StartsWith(Lower(name), prefix) && |name| > |prefix| && MarksPrefixEnd(name[|prefix|])
  }

  /** The prefix loop with its `break`: the first prefix of the list that applies is removed. */
  function StripPrefixFrom(name: string, prefixes: seq<string>): (r: string)
    ensures |r| <= |name| && r == name[|name| - |r|..]
  {
    if prefixes == [] then name
    else if PrefixApplies(name, prefixes[0]) then name[|prefixes[0]|..]
    else StripPrefixFrom(name, prefixes[1..])
  }

  /** The first prefix that applies is the one removed. */
  lemma {:induction false} StripPrefixFirst(name: string, prefixes: seq<string>, i: nat)
    requires i < |prefixes| && PrefixApplies(name, prefixes[i])
    requires forall j :: 0 <= j < i ==> !PrefixApplies(name, prefixes[j])
    ensures StripPrefixFrom(name, prefixes) == name[|prefixes[i]|..]
  {
    if i > 0 {
      assert !PrefixApplies(name, prefixes[0]);
      StripPrefixFirst(name, prefixes[1..], i - 1);
    }
  }

  /** When no prefix applies the name is kept. */
  lemma {:induction false} StripPrefixNone(name: string, prefixes: seq<string>)
    requires forall j :: 0 <= j < |prefixes| ==> !PrefixApplies(name, prefixes[j])
    ensures StripPrefixFrom(name, prefixes) == name
  {
    if prefixes != [] {
      assert !PrefixApplies(name, prefixes[0]);
      StripPrefixNone(name, prefixes[1..]);
    }
  }

  function StripPrefix(name: string): (r: string)
    ensures |r| <= |name| && r == name[|name| - |r|..]
  {
    StripPrefixFrom(name, PREFIXES)
  }

  /** `re.sub(r'([a-z])([A-Z])', r'\1 \2', s)` */
  function SplitCamel(s: string): (r: string)
    ensures s != [] ==> r != [] && r[0] == s[0]
    ensures s == [] ==> r == []
    ensures forall c :: c in r ==> c == ' ' || c in s
    ensures forall i :: 0 <= i < |r| - 1 ==> !(IsLower(r[i]) && IsUpper(r[i + 1]))
    decreases |s|
  {
    if s == [] then []
    else if |s| >= 2 && IsLower(s[0]) && IsUpper(s[1]) then
      var rest := SplitCamel(s[2..]);
      assert forall c :: c in rest ==> c == ' ' || c in s by {
        forall c | c in rest && c != ' ' ensures c in s {
          var i :| 0 <= i < |s[2..]| && s[2..][i] == c;
          assert s[2 + i] == c;
        }
      }
      var r := [s[0], ' ', s[1]] + rest;
      assert forall i :: 3 <= i < |r| ==> r[i] == rest[i - 3];
      r
    else
      var rest := SplitCamel(s[1..]);
      assert forall c :: c in rest ==> c == ' ' || c in s by {
        forall c | c in rest && c != ' ' ensures c in s {
          var i :| 0 <= i < |s[1..]| && s[1..][i] == c;
          assert s[1 + i] == c;
        }
      }
      var r := [s[0]] + rest;
      assert forall i :: 1 <= i < |r| ==> r[i] == rest[i - 1];
      r
  }

  /** `s` with every space removed. */
  function NoSpaces(s: string): string {
    if s == [] then [] else (if s[0] == ' ' then [] else [s[0]]) + NoSpaces(s[1..])
  }

  lemma {:induction false} NoSpacesAppend(a: string, b: string)
    ensures NoSpaces(a + b) == NoSpaces(a) + NoSpaces(b)
    decreases |a|
  {
    if a != [] {
      assert (a + b)[1..] == a[1..] + b;
      NoSpacesAppend(a[1..], b);
    } else {
      assert a + b == b;
    }
  }

  /**
   * The reference reading of the substitution: one character at a time, a
   * space after each lower-case letter that an upper-case letter follows.
   */
  function InsertSpaces(s: string): string {
    if s == [] then []
    else if |s| >= 2 && IsLower(s[0]) && IsUpper(s[1]) then [s[0], ' '] + InsertSpaces(s[1..])
    else [s[0]] + InsertSpaces(s[1..])
  }

  lemma {:induction false} InsertSpacesKeeps(s: string)
    ensures NoSpaces(InsertSpaces(s)) == NoSpaces(s)
    decreases |s|
  {
    if s != [] {
      InsertSpacesKeeps(s[1..]);
      var rest := InsertSpaces(s[1..]);
      if |s| >= 2 && IsLower(s[0]) && IsUpper(s[1]) {
        NoSpacesAppend([s[0], ' '], rest);
        assert [s[0], ' '][1..] == [' '];
        assert NoSpaces([' ']) == [] by { assert [' '][1..] == []; }
      } else {
        assert ([s[0]] + rest)[1..] == rest;
      }
    }
  }

  /** The camel split inserts spaces and nothing else: without spaces it is its input. */
  lemma SplitCamelKeeps(s: string)
    ensures NoSpaces(SplitCamel(s)) == NoSpaces(s)
  {
    SplitCamelInserts(s);
    InsertSpacesKeeps(s);
  }

  /** The matches never overlap, so the substitution is exactly the one-character-at-a-time insertion. */
  lemma {:induction false} SplitCamelInserts(s: string)
    ensures SplitCamel(s) == InsertSpaces(s)
    decreases |s|
  {
    if s != [] {
      if |s| >= 2 && IsLower(s[0]) && IsUpper(s[1]) {
        SplitCamelInserts(s[2..]);
        assert s[1..][1..] == s[2..];
        assert InsertSpaces(s[1..]) == [s[1]] + InsertSpaces(s[2..]);
      } else {
        SplitCamelInserts(s[1..]);
      }
    }
  }

  /** `s.replace('_', ' ')` */
  function Underscores(s: string): (r: string)
    ensures |r| == |s|
    ensures forall i :: 0 <= i < |s| ==> r[i] == if s[i] == '_' then ' ' else s[i]
  {
    seq(|s|, i requires 0 <= i < |s| => if s[i] == '_' then ' ' else s[i])
  }

  /** The position of the last `c` in `s`. */
  function LastIndexOf(s: string, c: char): (i: nat)
    requires c in s
    ensures i < |s| && s[i] == c
    ensures forall j :: i < j < |s| ==> s[j] != c
  {
    if s[|s| - 1] == c then |s| - 1 else
      assert c in s[..|s| - 1] by {
        var k :| 0 <= k < |s| && s[k] == c;
        assert s[..|s| - 1][k] == c;
      }
      LastIndexOf(s[..|s| - 1], c)
  }

  const MAX_LABEL: nat := 30

  /**
   * `name[:30].rsplit(' ', 1)[0]` for a name longer than 30 characters: the
   * cut falls at the last space within the first 30 characters, or at 30.
   */
  function Truncate(s: string): (r: string)
    ensures |r| <= MAX_LABEL && |r| <= |s| && r == s[..|r|]
    ensures |s| <= MAX_LABEL ==> r == s
    ensures |s| > MAX_LABEL && ' ' !in s[..MAX_LABEL] ==> r == s[..MAX_LABEL]
    ensures |s| > MAX_LABEL && ' ' in s[..MAX_LABEL] ==>
      |r| < MAX_LABEL && s[|r|] == ' ' && ' ' !in s[|r| + 1..MAX_LABEL]
  {
    if |s| <= MAX_LABEL then s
    else
      var t := s[..MAX_LABEL];
      if ' ' in t then t[..LastIndexOf(t, ' ')] else t
  }

  /** `_format_field_name`: `None` stands for Python's `None`. */
  function FormatFieldName(name: string): (r: Option<string>)
    ensures name == [] ==> r == None
    ensures r.Some? ==> r.value != [] && |r.value| <= MAX_LABEL && SingleSpaced(r.value)
    ensures r.Some? ==> '_' !in r.value && '.' !in r.value
  {
    if name == [] then None
    else
      var spaced := Underscores(SplitCamel(StripPrefix(StripIndices(LastSegment(name)))));
      var collapsed := CollapseSpaces(spaced);
      var titled := Title(collapsed);
      var cut := Truncate(titled);
      CleanStages(name);
      TitleKeeps(collapsed);
      TruncateKeeps(titled);
      if cut == [] then None else Some(cut)
  }

  /** The stages up to the title one: no `_`, no `.`; a space-collapsed result. */
  lemma CleanStages(name: string)
    ensures var collapsed := CollapseSpaces(Underscores(SplitCamel(StripPrefix(StripIndices(LastSegment(name))))));
      SingleSpaced(collapsed) && '_' !in collapsed && '.' !in collapsed
  {
    var seg := LastSegment(name);
    var noIdx := StripIndices(seg);
    assert '.' !in noIdx;
    var noPre := StripPrefix(noIdx);
    assert '.' !in noPre;
    var camel := SplitCamel(noPre);
    var spaced := Underscores(camel);
    assert '.' !in spaced && '_' !in spaced;
  }

  /** Title-casing moves no space and creates no `_` or `.`. */
  lemma TitleKeeps(s: string)
    ensures SingleSpaced(s) ==> SingleSpaced(Title(s))
    ensures '_' !in s ==> '_' !in Title(s)
    ensures '.' !in s ==> '.' !in Title(s)
    ensures Title(s) == [] <==> s == []
  {
    var r := Title(s);
    assert forall i :: 0 <= i < |s| ==> (IsSpace(r[i]) <==> IsSpace(s[i])) && (IsSpace(s[i]) ==> r[i] == s[i]);
    assert forall i :: 0 <= i < |s| ==> (r[i] == '_' <==> s[i] == '_') && (r[i] == '.' <==> s[i] == '.');
  }

  /** The cut keeps the result within 30 characters, single-spaced, and made of the input's characters. */
  lemma TruncateKeeps(s: string)
    requires SingleSpaced(s)
    ensures var r := Truncate(s);
      && |r| <= MAX_LABEL && SingleSpaced(r)
      && (r == [] <==> s == [])
      && |r| <= |s| && r == s[..|r|]
      && (|s| <= MAX_LABEL ==> r == s)
      && (|s| > MAX_LABEL && ' ' !in s[..MAX_LABEL] ==> r == s[..MAX_LABEL])
      && (|s| > MAX_LABEL && ' ' in s[..MAX_LABEL] ==>
            |r| < MAX_LABEL && s[|r|] == ' ' && ' ' !in s[|r| + 1..MAX_LABEL])
  {
    if |s| > MAX_LABEL {
      var t := s[..MAX_LABEL];
      if ' ' in t {
        var k := LastIndexOf(t, ' ');
        assert k > 0 by { assert t[0] == s[0]; }
        assert t[k - 1] != ' ' by { assert t[k - 1] == s[k - 1] && s[k] == ' '; }
        assert forall i :: 0 <= i < k ==> t[..k][i] == s[i];
      } else {
        assert forall i :: 0 <= i < |t| ==> t[i] == s[i] && t[i] != ' ';
      }
    }
  }

  // ---------------------------------------------------------------------------
  // Properties
  // ---------------------------------------------------------------------------

  /** What the label is built from before the cut. */
  function Spaced(name: string): string {
    Underscores(SplitCamel(StripPrefix(StripIndices(LastSegment(name)))))
  }

  /** `None` comes back exactly for an empty name and for a name whose rewrites leave only spaces. */
  lemma FormatFieldNameNone(name: string)
    ensures FormatFieldName(name).None? <==> name == [] || Words(Spaced(name)) == []
  {
    if name != [] {
      var collapsed := CollapseSpaces(Spaced(name));
      CleanStages(name);
      TitleKeeps(collapsed);
      TruncateKeeps(Title(collapsed));
    }
  }

  /** An index `[digits]` before the rest of the name is removed. */
  lemma {:induction false} StripIndicesRemovesIndex(a: string, digits: string, b: string)
    requires '[' !in a
    requires digits != [] && forall c :: c in digits ==> IsDigit(c)
    ensures StripIndices(a + "[" + digits + "]" + b) == a + StripIndices(b)
    decreases |a|
  {
    var s := a + "[" + digits + "]" + b;
    if a == [] {
      assert s == "[" + digits + "]" + b;
      IndexAtStart(digits, b);
    } else {
      assert a[0] in a;
      var t := a[1..] + "[" + digits + "]" + b;
      assert s == [a[0]] + t;
      StripIndicesKeeps(a[0], t);
      StripIndicesRemovesIndex(a[1..], digits, b);
      assert a == [a[0]] + a[1..];
      ConcatAssoc([a[0]], a[1..], StripIndices(b));
    }
  }

  lemma StripIndicesKeeps(c: char, t: string)
    requires c != '['
    ensures StripIndices([c] + t) == [c] + StripIndices(t)
  {
    assert ([c] + t)[1..] == t;
  }

  lemma IndexAtStart(digits: string, b: string)
    requires digits != [] && forall c :: c in digits ==> IsDigit(c)
    ensures StripIndices("[" + digits + "]" + b) == StripIndices(b)
  {
    var s := "[" + digits + "]" + b;
    assert s[1..] == digits + "]" + b;
    DigitRunOf(digits, "]" + b);
    assert s[0] == '[' && s[|digits| + 1] == ']';
    assert IndexMatch(s) == |digits| + 2;
    assert s[|digits| + 2..] == b;
  }

  lemma {:induction false} DigitRunOf(digits: string, rest: string)
    requires forall c :: c in digits ==> IsDigit(c)
    requires rest != [] && !IsDigit(rest[0])
    ensures DigitRun(digits + rest) == |digits|
    decreases |digits|
  {
    if digits != [] {
      assert (digits + rest)[1..] == digits[1..] + rest;
      assert digits[0] in digits;
      DigitRunOf(digits[1..], rest);
    } else {
      assert digits + rest == rest;
    }
  }

  /** A name without `[` passes the index stage untouched. */
  lemma {:induction false} StripIndicesNoBracket(s: string)
    requires '[' !in s
    ensures StripIndices(s) == s
    decreases |s|
  {
    if s != [] {
      assert s[0] != '[';
      StripIndicesNoBracket(s[1..]);
    }
  }

  /** The index pass is a single pass: a nested index leaves an index behind. */
  lemma StripIndicesSinglePass()
    ensures StripIndices("[[0]0]") == "[0]"
  {
    var s := "[[0]0]";
    assert IndexMatch(s) == 0 by { assert DigitRun(s[1..]) == 0; }
    assert s[1..] == "[0]0]";
    assert IndexMatch("[0]0]") == 3 by {
      assert "[0]0]"[1..] == "0]0]";
      assert DigitRun("0]0]") == 1 by { assert "0]0]"[1..] == "]0]"; }
    }
    assert "[0]0]"[3..] == "0]";
    assert StripIndices("0]") == "0]" by { StripIndicesNoBracket("0]"); }
  }

  // ---------------------------------------------------------------------------
  // Worked examples
  // ---------------------------------------------------------------------------

  lemma UnderscoresNone(s: string)
    requires '_' !in s
    ensures Underscores(s) == s
  {
  }

  /** A name without upper-case letters has no camel case to split. */
  lemma {:induction false} SplitCamelNoUpper(s: string)
    requires forall i :: 0 <= i < |s| ==> !IsUpper(s[i])
    ensures SplitCamel(s) == s
    decreases |s|
  {
    if s != [] {
      assert forall i :: 0 <= i < |s[1..]| ==> s[1..][i] == s[i + 1];
      SplitCamelNoUpper(s[1..]);
    }
  }

  /** No prefix applies to a name whose first two letters begin none of them. */
  lemma NoPrefixFor(n: string)
    requires |n| >= 2
    requires forall j :: 0 <= j < |PREFIXES| ==>
      PREFIXES[j][0] != LowerChar(n[0]) || PREFIXES[j][1] != LowerChar(n[1])
    ensures StripPrefix(n) == n
  {
    forall j | 0 <= j < |PREFIXES| ensures !PrefixApplies(n, PREFIXES[j]) {
      var p := PREFIXES[j];
      if |p| <= |n| {
        var head := Lower(n)[..|p|];
        assert head[0] == LowerChar(n[0]) && head[1] == LowerChar(n[1]);
        assert head != p;
      }
    }
    StripPrefixNone(n, PREFIXES);
  }

  /** A name whose rewrites give a short single-spaced string is labelled by its title case. */
  lemma FormatVia(name: string, spaced: string)
    requires name != [] && Spaced(name) == spaced && SingleSpaced(spaced) && |spaced| <= MAX_LABEL
    ensures FormatFieldName(name) == if spaced == [] then None else Some(Title(spaced))
  {
    CollapseSingleSpaced(spaced);
    TitleKeeps(spaced);
  }

  /** `"topmostSubform[0].Page1[0].LastName[0]"`: the leaf of the path, without its index. */
  lemma LastNameSpaced()
    ensures Spaced("topmostSubform[0].Page1[0].LastName[0]") == "Last Name"
  {
    LastNameLeaf();
    LastNameIndex();
    LastNamePrefix();
    LastNameCamel();
    LastNameUnderscores();
  }

  lemma LastNamePrefix()
    ensures StripPrefix("LastName") == "LastName"
  {
    NoPrefixFor("LastName");
  }

  lemma LastNameUnderscores()
    ensures Underscores("Last Name") == "Last Name"
  {
    UnderscoresNone("Last Name");
  }

  lemma LastNameLeaf()
    ensures LastSegment("topmostSubform[0].Page1[0].LastName[0]") == "LastName[0]"
  {
    var path, leaf := "topmostSubform[0].Page1[0]", "LastName[0]";
    var name := path + "." + leaf;
    assert name == "topmostSubform[0].Page1[0].LastName[0]";
    assert name[|path|] == '.' && name[|path| + 1..] == leaf;
    SplitLast(name, '.', |path|);
  }

  lemma LastNameIndex()
    ensures StripIndices("LastName[0]") == "LastName"
  {
    StripIndicesRemovesIndex("LastName", "0", "");
    assert "LastName" + "[" + "0" + "]" + "" == "LastName[0]";
  }

  lemma LastNameCamel()
    ensures SplitCamel("LastName") == "Last Name"
  {
  }

  lemma LastNameWords()
    ensures SingleSpaced("Last Name")
  {
  }

  lemma LastNameTitle()
    ensures Title("Last Name") == "Last Name"
  {
    assert Join(["Last", "Name"], " ") == "Last Name";
    TitleWords(["Last", "Name"]);
    assert Capitalize("Last") == "Last" && Capitalize("Name") == "Name";
  }

  lemma ExampleLastName()
    ensures FormatFieldName("topmostSubform[0].Page1[0].LastName[0]") == Some("Last Name")
  {
    LastNameSpaced();
    LastNameWords();
    LastNameTitle();
    FormatVia("topmostSubform[0].Page1[0].LastName[0]", "Last Name");
  }

  /** `"claimant_last_name"`: underscores become spaces and each word is capitalised. */
  lemma ExampleClaimant()
    ensures FormatFieldName("claimant_last_name") == Some("Claimant Last Name")
  {
    ClaimantSpaced();
    ClaimantWords();
    ClaimantTitle();
    FormatVia("claimant_last_name", "claimant last name");
  }

  lemma ClaimantSpaced()
    ensures Spaced("claimant_last_name") == "claimant last name"
  {
    ClaimantUntouched();
    ClaimantUnderscores();
  }

  /** No `.`, no index, no prefix and no upper-case letter: the first four stages keep the name. */
  lemma ClaimantUntouched()
    ensures LastSegment("claimant_last_name") == "claimant_last_name"
    ensures StripIndices("claimant_last_name") == "claimant_last_name"
    ensures StripPrefix("claimant_last_name") == "claimant_last_name"
    ensures SplitCamel("claimant_last_name") == "claimant_last_name"
  {
    ClaimantNoDot();
    ClaimantNoBracket();
    ClaimantNoPrefix();
    ClaimantNoUpper();
  }

  lemma ClaimantNoDot()
    ensures LastSegment("claimant_last_name") == "claimant_last_name"
  {
    var n := "claimant_last_name";
    assert forall i :: 0 <= i < |n| ==> n[i] != '.';
    assert '.' !in n;
  }

  lemma ClaimantNoBracket()
    ensures StripIndices("claimant_last_name") == "claimant_last_name"
  {
    var n := "claimant_last_name";
    assert forall i :: 0 <= i < |n| ==> n[i] != '[';
    StripIndicesNoBracket("claimant_last_name");
  }

  lemma ClaimantNoPrefix()
    ensures StripPrefix("claimant_last_name") == "claimant_last_name"
  {
    NoPrefixFor("claimant_last_name");
  }

  lemma ClaimantNoUpper()
    ensures SplitCamel("claimant_last_name") == "claimant_last_name"
  {
    var n := "claimant_last_name";
    assert forall i :: 0 <= i < |n| ==> IsLower(n[i]) || n[i] == '_';
    SplitCamelNoUpper("claimant_last_name");
  }

  lemma ClaimantUnderscores()
    ensures Underscores("claimant_last_name") == "claimant last name"
  {
  }

  lemma ClaimantWords()
    ensures SingleSpaced("claimant last name")
  {
  }

  lemma ClaimantTitle()
    ensures Title("claimant last name") == "Claimant Last Name"
  {
    assert Join(["claimant", "last", "name"], " ") == "claimant last name";
    ClaimantLetters();
    TitleWords(["claimant", "last", "name"]);
    ClaimantCaps();
  }

  lemma ClaimantLetters()
    ensures var ws := ["claimant", "last", "name"];
      forall i :: 0 <= i < |ws| ==> ws[i] != [] && AllAlpha(ws[i])
  {
    var ws := ["claimant", "last", "name"];
    assert AllAlpha(ws[0]) && AllAlpha(ws[1]) && AllAlpha(ws[2]);
  }

  lemma ClaimantCaps()
    ensures var ws := ["claimant", "last", "name"];
      Join(seq(|ws|, i requires 0 <= i < |ws| => Capitalize(ws[i])), " ") == "Claimant Last Name"
  {
    var ws := ["claimant", "last", "name"];
    var caps := seq(|ws|, i requires 0 <= i < |ws| => Capitalize(ws[i]));
    assert Capitalize("claimant") == "Claimant" && Capitalize("last") == "Last" && Capitalize("name") == "Name";
    assert caps == ["Claimant", "Last", "Name"];
    ClaimantJoin();
  }

  lemma ClaimantJoin()
    ensures Join(["Claimant", "Last", "Name"], " ") == "Claimant Last Name"
  {
    assert Join(["Last", "Name"], " ") == "Last Name";
    assert ["Claimant", "Last", "Name"][1..] == ["Last", "Name"];
  }

  /** A nested index survives the whole chain: the label of `[[0]0]` is `[0]`. */
  lemma ExampleNestedIndex()
    ensures FormatFieldName("[[0]0]") == Some("[0]")
  {
    NestedSpaced();
    NestedWords();
    FormatVia("[[0]0]", "[0]");
  }

  lemma NestedSpaced()
    ensures Spaced("[[0]0]") == "[0]"
  {
    NestedNoDot();
    StripIndicesSinglePass();
    NestedRest();
  }

  lemma NestedNoDot()
    ensures LastSegment("[[0]0]") == "[[0]0]"
  {
    var n := "[[0]0]";
    assert forall i :: 0 <= i < |n| ==> n[i] != '.';
  }

  lemma NestedRest()
    ensures StripPrefix("[0]") == "[0]" && SplitCamel("[0]") == "[0]" && Underscores("[0]") == "[0]"
  {
    NestedNoPrefix();
    NestedNoCamel();
    NestedNoUnderscore();
  }

  lemma NestedNoPrefix()
    ensures StripPrefix("[0]") == "[0]"
  {
    var n := "[0]";
    assert LowerChar(n[0]) == '[';
    NoPrefixFor(n);
  }

  lemma NestedNoCamel()
    ensures SplitCamel("[0]") == "[0]"
  {
    var n := "[0]";
    forall i | 0 <= i < |n| ensures !IsUpper(n[i]) {
      assert n[i] in {'[', '0', ']'};
    }
    SplitCamelNoUpper(n);
  }

  lemma NestedNoUnderscore()
    ensures Underscores("[0]") == "[0]"
  {
    var n := "[0]";
    assert '_' !in n by {
      forall i | 0 <= i < |n| ensures n[i] != '_' {
        assert n[i] in {'[', '0', ']'};
      }
    }
    UnderscoresNone(n);
  }

  lemma NestedWords()
    ensures SingleSpaced("[0]") && Title("[0]") == "[0]"
  {
    var n := "[0]";
    assert forall i :: 0 <= i < |n| ==> !IsAlpha(n[i]);
    assert Title(n)[0] == n[0] && Title(n)[1] == n[1] && Title(n)[2] == n[2];
  }

  /** `"Text1"`: `text` followed by a digit is taken for a prefix, so only the digit is left. */
  lemma ExampleText1()
    ensures FormatFieldName("Text1") == Some("1")
  {
    Text1Spaced();
    Text1Words();
    FormatVia("Text1", "1");
  }

  lemma Text1Spaced()
    ensures Spaced("Text1") == "1"
  {
    Text1Untouched();
    Text1Prefix();
    Text1Rest();
  }

  lemma Text1Untouched()
    ensures LastSegment("Text1") == "Text1" && StripIndices("Text1") == "Text1"
  {
    Text1NoBracket();
  }

  lemma Text1NoBracket()
    ensures StripIndices("Text1") == "Text1"
  {
    StripIndicesNoBracket("Text1");
  }

  lemma Text1Prefix()
    ensures StripPrefix("Text1") == "1"
  {
    var n := "Text1";
    assert Lower(n) == "text1";
    forall j | 0 <= j < 3 ensures !PrefixApplies(n, PREFIXES[j]) {
      assert Lower(n)[0] == 't' && Lower(n)[1] == 'e';
    }
    assert PrefixApplies(n, PREFIXES[3]);
    StripPrefixFirst(n, PREFIXES, 3);
  }

  lemma Text1Rest()
    ensures SplitCamel("1") == "1" && Underscores("1") == "1"
  {
  }

  lemma Text1Words()
    ensures SingleSpaced("1") && Title("1") == "1"
  {
  }

  /** `"chkAgree"`: the prefix `chk` before an upper-case letter is removed. */
  lemma ExampleAgree()
    ensures FormatFieldName("chkAgree") == Some("Agree")
  {
    AgreeSpaced();
    AgreeWords();
    AgreeTitle();
    FormatVia("chkAgree", "Agree");
  }

  lemma AgreeSpaced()
    ensures Spaced("chkAgree") == "Agree"
  {
    AgreeUntouched();
    AgreePrefix();
    AgreeRest();
  }

  lemma AgreeUntouched()
    ensures LastSegment("chkAgree") == "chkAgree" && StripIndices("chkAgree") == "chkAgree"
  {
    var n := "chkAgree";
    assert '.' !in n by {
      forall i | 0 <= i < |n| ensures n[i] != '.' {
        assert n[i] in {'c', 'h', 'k', 'A', 'g', 'r', 'e'};
      }
    }
    AgreeNoBracket();
  }

  lemma AgreeNoBracket()
    ensures StripIndices("chkAgree") == "chkAgree"
  {
    StripIndicesNoBracket("chkAgree");
  }

  lemma AgreePrefix()
    ensures StripPrefix("chkAgree") == "Agree"
  {
    var n := "chkAgree";
    assert Lower(n) == "chkagree";
    forall j | 0 <= j < 4 ensures !PrefixApplies(n, PREFIXES[j]) {
      assert Lower(n)[0] == 'c';
    }
    assert PrefixApplies(n, PREFIXES[4]);
    StripPrefixFirst(n, PREFIXES, 4);
  }

  lemma AgreeRest()
    ensures SplitCamel("Agree") == "Agree" && Underscores("Agree") == "Agree"
  {
  }

  lemma AgreeWords()
    ensures SingleSpaced("Agree")
  {
  }

  lemma AgreeTitle()
    ensures Title("Agree") == "Agree"
  {
    assert Join(["Agree"], " ") == "Agree";
    TitleWords(["Agree"]);
    assert Capitalize("Agree") == "Agree";
  }
}
