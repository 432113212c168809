/**
 * The Python `str` operations the form-filling code relies on, with ASCII
 * semantics: `isspace`, `isupper`, `isdigit`, `lower`, `strip`, `split`,
 * `title`, `join`, `replace`, slicing and the `in` substring test.
 */
module PyStr {

  /** `str.isspace` on one ASCII character (space, \t, \n, \r, \v, \f and \x1c-\x1f). */
  predicate IsSpace(c: char) {
    c == ' ' || c == '\t' || c == '\n' || c == '\r' || c == '\U{000B}' || c == '\U{000C}'
    || ('\U{001C}' <= c <= '\U{001F}')
  }

  predicate IsUpper(c: char) { 'A' <= c <= 'Z' }

  predicate IsLower(c: char) { 'a' <= c <= 'z' }

  predicate IsDigit(c: char) { '0' <= c <= '9' }

  /** The cased characters of `str.title`. */
  predicate IsAlpha(c: char) { IsUpper(c) || IsLower(c) }

  function LowerChar(c: char): (r: char)
    ensures IsUpper(c) ==> IsLower(r) && r as int == c as int + 32
    ensures !IsUpper(c) ==> r == c
  {
    if IsUpper(c) then (c as int + 32) as char else c
  }

  function UpperChar(c: char): (r: char)
    ensures IsLower(c) ==> IsUpper(r) && r as int == c as int - 32
    ensures !IsLower(c) ==> r == c
  {
    if IsLower(c) then (c as int - 32) as char else c
  }

  /** `s.lower()` */
  function Lower(s: string): (r: string)
    ensures |r| == |s|
    ensures forall i :: 0 <= i < |s| ==> r[i] == LowerChar(s[i])
  {
    seq(|s|, i requires 0 <= i < |s| => LowerChar(s[i]))
  }

  /** `s.startswith(p)` */
  predicate StartsWith(s: string, p: string) {
    |p| <= |s| && s[..|p|] == p
  }

  /** `sub in s` */
  predicate Contains(s: string, sub: string)
    decreases |s|
  {
    StartsWith(s, sub) || (|s| > 0 && Contains(s[1..], sub))
  }

  /** Python slicing `s[:n]`. */
  function Take<T>(s: seq<T>, n: nat): (r: seq<T>)
    ensures |r| == if |s| <= n then |s| else n
    ensures r == s[..|r|]
  {
    if |s| <= n then s else s[..n]
  }

  /** Sequence concatenation is associative. */
  lemma ConcatAssoc<T>(a: seq<T>, b: seq<T>, c: seq<T>)
    ensures (a + b) + c == a + (b + c)
  {
  }

  /** The number of leading whitespace characters. */
  function LeadingSpaces(s: string): (k: nat)
    ensures k <= |s|
    ensures forall i :: 0 <= i < k ==> IsSpace(s[i])
    ensures k < |s| ==> !IsSpace(s[k])
  {
    if s == [] || !IsSpace(s[0]) then 0 else 1 + LeadingSpaces(s[1..])
  }

  /** The length of `s` once trailing whitespace is removed. */
  function TrimmedLength(s: string): (k: nat)
    ensures k <= |s|
    ensures forall i :: k <= i < |s| ==> IsSpace(s[i])
    ensures k > 0 ==> !IsSpace(s[k - 1])
  {
    if s == [] || !IsSpace(s[|s| - 1]) then |s| else TrimmedLength(s[..|s| - 1])
  }

  function LStrip(s: string): (r: string)
    ensures r == s[LeadingSpaces(s)..]
  {
    s[LeadingSpaces(s)..]
  }

  function RStrip(s: string): (r: string)
    ensures r == s[..TrimmedLength(s)]
  {
    s[..TrimmedLength(s)]
  }

  /** `s.strip()` */
  function Strip(s: string): (r: string)
    ensures r == [] || (!IsSpace(r[0]) && !IsSpace(r[|r| - 1]))
    ensures LeadingSpaces(s) + |r| <= |s| && r == s[LeadingSpaces(s)..LeadingSpaces(s) + |r|]
  {
    var t := LStrip(s);
    var r := RStrip(t);
    assert s[LeadingSpaces(s)..LeadingSpaces(s) + |r|] == r;
    r
  }

  /** The index of the first `c` in `s`. */
  function IndexOf(s: string, c: char): (i: nat)
    requires c in s
    ensures i < |s| && s[i] == c && c !in s[..i]
  {
    if s[0] == c then 0 else
      assert c in s[1..];
      1 + IndexOf(s[1..], c)
  }

  /** `s.split(sep)` for a one-character separator: never empty, and no part holds `sep`. */
  function Split(s: string, sep: char): (parts: seq<string>)
    ensures |parts| >= 1
    ensures forall i :: 0 <= i < |parts| ==> sep !in parts[i]
    decreases |s|
  {
    if sep in s then
      var i := IndexOf(s, sep);
      [s[..i]] + Split(s[i + 1..], sep)
    else
      [s]
  }

  lemma InAppend<T>(x: T, a: seq<T>, b: seq<T>)
    ensures x in a + b <==> x in a || x in b
  {
  }

  lemma PrefixExcludes(s: string, c: char, i: nat, j: nat)
    requires i <= |s| && c !in s[..i]
    ensures j < i ==> s[j] != c
  {
    if j < i {
      assert s[..i][j] == s[j];
    }
  }

  /** Python's `s[-1]`. */
  function Last<T>(s: seq<T>): T
    requires |s| > 0
  {
    s[|s| - 1]
  }

  lemma LastAppend<T>(a: seq<T>, b: seq<T>)
    requires |b| > 0
    ensures Last(a + b) == Last(b)
  {
  }

  /** The last part of a split is what follows the last separator. */
  lemma {:induction false} SplitLast(s: string, sep: char, k: nat)
    requires k < |s| && s[k] == sep && sep !in s[k + 1..]
    ensures Last(Split(s, sep)) == s[k + 1..]
    decreases |s|
  {
    var i := IndexOf(s, sep);
    PrefixExcludes(s, sep, i, k);
    var t := s[i + 1..];
    assert Split(s, sep) == [s[..i]] + Split(t, sep);
    LastAppend([s[..i]], Split(t, sep));
    if i < k {
      assert t[k - i - 1] == sep;
      assert t[k - i..] == s[k + 1..];
      SplitLast(t, sep, k - i - 1);
    }
  }

  /** `sep.join(parts)` */
  function Join(parts: seq<string>, sep: string): (r: string)
  {
    if |parts| == 0 then ""
    else if |parts| == 1 then parts[0]
    else parts[0] + sep + Join(parts[1..], sep)
  }

  /** Splitting on a character and joining with it again gives back the string. */
  lemma {:induction false} JoinSplit(s: string, sep: char)
    ensures Join(Split(s, sep), [sep]) == s
    decreases |s|
  {
    if sep in s {
      var i := IndexOf(s, sep);
      var rest := s[i + 1..];
      JoinSplit(rest, sep);
      assert Split(s, sep) == [s[..i]] + Split(rest, sep);
      assert s == s[..i] + [sep] + rest;
    }
  }

  /** Every character of a join comes from a part or from the separator. */
  lemma {:induction false} JoinChars(parts: seq<string>, sep: string, c: char)
    requires c in Join(parts, sep)
    ensures c in sep || exists i :: 0 <= i < |parts| && c in parts[i]
  {
    if |parts| > 1 {
      var rest := Join(parts[1..], sep);
      assert Join(parts, sep) == parts[0] + sep + rest;
      if c in rest {
        JoinChars(parts[1..], sep, c);
        if !(c in sep) {
          var i :| 0 <= i < |parts[1..]| && c in parts[1..][i];
          assert c in parts[i + 1];
        }
      }
    } else if |parts| == 1 {
      assert c in parts[0];
    }
  }

  /** The length of the leading run of non-whitespace characters. */
  function WordLength(s: string): (k: nat)
    ensures k <= |s|
    ensures forall i :: 0 <= i < k ==> !IsSpace(s[i])
    ensures k < |s| ==> IsSpace(s[k])
  {
    if s == [] || IsSpace(s[0]) then 0 else 1 + WordLength(s[1..])
  }

  /** The words of `s.split()` (no argument): maximal runs of non-whitespace characters. */
  function Words(s: string): (ws: seq<string>)
    ensures forall i :: 0 <= i < |ws| ==> ws[i] != [] && forall c :: c in ws[i] ==> !IsSpace(c)
    decreases |s|
  {
    var t := LStrip(s);
    if t == [] then []
    else
      var k := WordLength(t);
      [t[..k]] + Words(t[k..])
  }

  /** Every character of a word of `s` is a character of `s`. */
  lemma {:induction false} WordsChars(s: string, i: nat, c: char)
    requires i < |Words(s)| && c in Words(s)[i]
    ensures c in s
    decreases |s|
  {
    var t := LStrip(s);
    var k := WordLength(t);
    if i > 0 {
      assert Words(s)[i] == Words(t[k..])[i - 1];
      WordsChars(t[k..], i - 1, c);
    } else {
      assert c in t[..k];
    }
  }

  /**
   * No whitespace other than single inner spaces: what `' '.join(s.split())`
   * leaves behind.
   */
  predicate SingleSpaced(s: string) {
    && (forall i :: 0 <= i < |s| && IsSpace(s[i]) ==> s[i] == ' ')
    && (|s| > 0 ==> s[0] != ' ' && s[|s| - 1] != ' ')
    && (forall i :: 0 <= i < |s| - 1 && s[i] == ' ' ==> s[i + 1] != ' ')
  }

  /** `' '.join(s.split())` */
  function CollapseSpaces(s: string): (r: string)
    ensures SingleSpaced(r)
    ensures r == [] <==> Words(s) == []
    ensures forall c :: c in r ==> c == ' ' || c in s
  {
    var ws := Words(s);
    JoinWordsSingleSpaced(ws);
    forall c | c in Join(ws, " ") && c != ' '
      ensures c in s
    {
      JoinChars(ws, " ", c);
      var i :| 0 <= i < |ws| && c in ws[i];
      WordsChars(s, i, c);
    }
    Join(ws, " ")
  }

  /** Collapsing spaces changes nothing in a string that is already single-spaced. */
  lemma CollapseSingleSpaced(s: string)
    requires SingleSpaced(s)
    ensures CollapseSpaces(s) == s
  {
    JoinWordsBack(s);
  }

  /** The words of a single-spaced string, joined with single spaces, give it back. */
  lemma {:induction false} JoinWordsBack(s: string)
    requires SingleSpaced(s)
    ensures Join(Words(s), " ") == s
    decreases |s|
  {
    if s != [] {
      assert LeadingSpaces(s) == 0;
      assert LStrip(s) == s;
      var k := WordLength(s);
      if k < |s| {
        var rest := s[k + 1..];
        SingleSpacedTail(s, k);
        JoinWordsBack(rest);
        var tail := Words(rest);
        assert tail != [];
        var ws := [s[..k]] + tail;
        assert Words(s) == [s[..k]] + Words(s[k..]);
        assert Words(s) == ws;
        assert ws[0] == s[..k] && ws[1..] == tail;
        assert Join(ws, " ") == s[..k] + " " + Join(tail, " ");
        RejoinAt(s, k);
      } else {
        assert s[k..] == [] && s[..k] == s;
        assert LStrip(s[k..]) == [];
        assert Words(s) == [s];
      }
    }
  }

  /** A string is its part before a space, the space, and its part after. */
  lemma RejoinAt(s: string, k: nat)
    requires k < |s| && s[k] == ' '
    ensures s == s[..k] + " " + s[k + 1..]
  {
    assert s[k..] == [' '] + s[k + 1..];
    assert s == s[..k] + s[k..];
  }

  /** What follows a space of a single-spaced string is single-spaced. */
  lemma SingleSpacedSuffix(s: string, m: nat)
    requires SingleSpaced(s) && 0 < m < |s| && s[m - 1] == ' '
    ensures SingleSpaced(s[m..])
  {
    var t := s[m..];
    forall i | 0 <= i < |t| ensures t[i] == s[m + i] {
    }
    assert t[0] != ' ' by {
      assert s[m - 1] == ' ';
    }
    assert t[|t| - 1] == s[|s| - 1];
    forall i | 0 <= i < |t| - 1 && t[i] == ' ' ensures t[i + 1] != ' ' {
      assert s[m + i] == ' ';
    }
  }

  /** After the first word of a single-spaced string come one space and a single-spaced rest. */
  lemma SingleSpacedTail(s: string, k: nat)
    requires SingleSpaced(s) && s != [] && k == WordLength(s) < |s|
    ensures 0 < k < |s| - 1 && s[k] == ' '
    ensures SingleSpaced(s[k + 1..]) && LeadingSpaces(s[k + 1..]) == 0 && s[k + 1..] != []
    ensures Words(s[k..]) == Words(s[k + 1..])
  {
    assert !IsSpace(s[0]) && k == 1 + WordLength(s[1..]);
    assert IsSpace(s[k]) && s[k] == ' ';
    assert k != |s| - 1;
    var rest := s[k + 1..];
    SingleSpacedSuffix(s, k + 1);
    assert forall i :: 0 <= i < |rest| ==> rest[i] == s[k + 1 + i];
    assert LeadingSpaces(s[k..]) == 1 by {
      assert s[k..][1..] == rest;
      assert LeadingSpaces(rest) == 0;
    }
    assert LStrip(s[k..]) == rest;
    assert LStrip(rest) == rest;
  }

  lemma {:induction false} JoinWordsSingleSpaced(ws: seq<string>)
    requires forall i :: 0 <= i < |ws| ==> ws[i] != [] && forall c :: c in ws[i] ==> !IsSpace(c)
    ensures SingleSpaced(Join(ws, " "))
    ensures Join(ws, " ") == [] <==> ws == []
  {
    if |ws| > 1 {
      JoinWordsSingleSpaced(ws[1..]);
      var w, rest := ws[0], Join(ws[1..], " ");
      var r := w + " " + rest;
      assert Join(ws, " ") == r;
      forall i | 0 <= i < |w| ensures r[i] == w[i] && !IsSpace(r[i]) {
        assert w[i] in w;
      }
      forall i | |w| < i < |r| ensures r[i] == rest[i - |w| - 1] { }
      assert r[|w|] == ' ';
      assert r[0] == w[0] && w[0] in w;
      assert r[|r| - 1] == rest[|rest| - 1];
    } else if |ws| == 1 {
      assert Join(ws, " ") == ws[0];
      forall i | 0 <= i < |ws[0]| ensures !IsSpace(ws[0][i]) {
        assert ws[0][i] in ws[0];
      }
    }
  }

  /** `s.title()`, where `prevCased` says whether the character before `s` was a letter. */
  function TitleFrom(s: string, prevCased: bool): (r: string)
    ensures |r| == |s|
    ensures forall i :: 0 <= i < |s| ==> (IsAlpha(r[i]) <==> IsAlpha(s[i]))
    ensures forall i :: 0 <= i < |s| && !IsAlpha(s[i]) ==> r[i] == s[i]
  {
    if s == [] then []
    else
      var c := s[0];
      var c' := if !IsAlpha(c) then c else if prevCased then LowerChar(c) else UpperChar(c);
      [c'] + TitleFrom(s[1..], IsAlpha(c))
  }

  /** Title-casing a concatenation: the second part continues from the last character of the first. */
  lemma {:induction false} TitleFromAppend(a: string, b: string, prevCased: bool)
    ensures TitleFrom(a + b, prevCased) ==
      TitleFrom(a, prevCased) + TitleFrom(b, if a == [] then prevCased else IsAlpha(a[|a| - 1]))
  {
    if a == [] {
      assert a + b == b;
    } else {
      assert (a + b)[1..] == a[1..] + b;
      assert (a + b)[0] == a[0];
      TitleFromAppend(a[1..], b, IsAlpha(a[0]));
      if |a| > 1 {
        assert a[1..][|a[1..]| - 1] == a[|a| - 1];
      }
    }
  }

  /** `s.title()` */
  function Title(s: string): (r: string)
    ensures |r| == |s|
    ensures forall i :: 0 <= i < |s| ==> (IsAlpha(r[i]) <==> IsAlpha(s[i]))
    ensures forall i :: 0 <= i < |s| && !IsAlpha(s[i]) ==> r[i] == s[i]
  {
    TitleFrom(s, false)
  }

  /**
   * `str.title` upper-cases exactly the letters that start a run of letters
   * and lower-cases every other letter.
   */
  lemma {:induction false} TitleCasing(s: string, prevCased: bool, i: nat)
    requires i < |s| && IsAlpha(s[i])
    ensures var startsWord := if i == 0 then !prevCased else !IsAlpha(s[i - 1]);
            IsUpper(TitleFrom(s, prevCased)[i]) <==> startsWord
  {
    if i > 0 {
      TitleCasing(s[1..], IsAlpha(s[0]), i - 1);
      assert TitleFrom(s, prevCased)[i] == TitleFrom(s[1..], IsAlpha(s[0]))[i - 1];
    }
  }

  predicate AllAlpha(w: string) {
    forall i :: 0 <= i < |w| ==> IsAlpha(w[i])
  }

  /** `w.capitalize()` for a word of letters: the first upper-cased, the rest lower-cased. */
  function Capitalize(w: string): string {
    if w == [] then [] else [UpperChar(w[0])] + Lower(w[1..])
  }

  /** Inside a run of letters `str.title` lower-cases; at its start it capitalizes. */
  lemma {:induction false} TitleWord(w: string, prevCased: bool)
    requires AllAlpha(w)
    ensures TitleFrom(w, prevCased) == if prevCased then Lower(w) else Capitalize(w)
  {
    if w != [] {
      assert AllAlpha(w[1..]) by {
        forall i | 0 <= i < |w[1..]| ensures IsAlpha(w[1..][i]) { assert w[1..][i] == w[i + 1]; }
      }
      TitleWord(w[1..], true);
      assert IsAlpha(w[0]);
      assert Lower(w) == [LowerChar(w[0])] + Lower(w[1..]);
    }
  }

  /** `str.title` of words of letters joined by single spaces capitalizes each word. */
  lemma {:induction false} TitleWords(ws: seq<string>)
    requires forall i :: 0 <= i < |ws| ==> ws[i] != [] && AllAlpha(ws[i])
    ensures Title(Join(ws, " ")) == Join(seq(|ws|, i requires 0 <= i < |ws| => Capitalize(ws[i])), " ")
  {
    if |ws| == 1 {
      TitleWord(ws[0], false);
    } else if |ws| > 1 {
      TitleJoinStep(ws[0], Join(ws[1..], " "));
      TitleWords(ws[1..]);
      CapitalizedTail(ws);
    }
  }

  /** The title-casing of a word of letters, a space and more text. */
  lemma TitleJoinStep(w: string, rest: string)
    requires w != [] && AllAlpha(w)
    ensures Title(w + " " + rest) == Capitalize(w) + " " + Title(rest)
  {
    assert w + " " + rest == w + (" " + rest);
    TitleFromAppend(w, " " + rest, false);
    TitleWord(w, false);
    assert IsAlpha(w[|w| - 1]);
    TitleFromAppend(" ", rest, true);
    assert TitleFrom(" ", true) == " ";
  }

  lemma CapitalizedTail(ws: seq<string>)
    requires |ws| > 1
    ensures Join(seq(|ws|, i requires 0 <= i < |ws| => Capitalize(ws[i])), " ")
      == Capitalize(ws[0]) + " " + Join(seq(|ws| - 1, i requires 0 <= i < |ws| - 1 => Capitalize(ws[1..][i])), " ")
  {
    var caps := seq(|ws|, i requires 0 <= i < |ws| => Capitalize(ws[i]));
    assert caps[1..] == seq(|ws| - 1, i requires 0 <= i < |ws| - 1 => Capitalize(ws[1..][i]));
  }


  /** `s.replace(pat, rep)`: every non-overlapping occurrence, left to right. */
  function ReplaceAll(s: string, pat: string, rep: string): (r: string)
    requires |pat| > 0
    ensures !Contains(s, pat) ==> r == s
    decreases |s|
  {
    if |s| < |pat| then s
    else if s[..|pat|] == pat then rep + ReplaceAll(s[|pat|..], pat, rep)
    else [s[0]] + ReplaceAll(s[1..], pat, rep)
  }

  function DigitChar(d: nat): (c: char)
    requires d < 10
    ensures IsDigit(c)
  {
    "0123456789"[d]
  }

  /** `str(n)` for a natural number: its decimal digits, most significant first. */
  function NatToString(n: nat): (r: string)
    ensures |r| >= 1
    ensures forall c :: c in r ==> IsDigit(c)
  {
    if n < 10 then [DigitChar(n)] else NatToString(n / 10) + [DigitChar(n % 10)]
  }
}
