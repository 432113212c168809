/**
 * Python's `repr` of a string, and of a list of strings as `str(list)`
 * prints it: the quote is chosen by what the string holds, and a quote,
 * a backslash and the ASCII control characters are escaped.
 */
module PyRepr {
  import opened PyStr

  const SINGLE: char := '\''
  const DOUBLE: char := '\"'
  const BACKSLASH: char := '\\'

  /** Double quotes only when the string holds a single quote and no double quote. */
  function QuoteFor(s: string): (q: char)
    ensures q == SINGLE || q == DOUBLE
    ensures q == DOUBLE <==> SINGLE in s && DOUBLE !in s
  {
    if SINGLE in s && DOUBLE !in s then DOUBLE else SINGLE
  }

  /** A lower-case hexadecimal digit. */
  function HexDigit(n: nat): (c: char)
    requires n < 16
    ensures IsHexDigit(c)
  {
    "0123456789abcdef"[n]
  }

  predicate IsHexDigit(c: char) {
    '0' <= c <= '9' || 'a' <= c <= 'f'
  }

  function HexValue(c: char): (n: nat)
    requires IsHexDigit(c)
    ensures n < 16
  {
    if '0' <= c <= '9' then c as int - '0' as int else c as int - 'a' as int + 10
  }

  lemma HexValueOf(n: nat)
    requires n < 16
    ensures HexValue(HexDigit(n)) == n
  {
    var digits := "0123456789abcdef";
    assert forall k :: 0 <= k < 16 ==> digits[k] as int == if k < 10 then '0' as int + k else 'a' as int + k - 10;
  }

  /** An ASCII character `repr` writes as `\xhh`. */
  predicate IsHexEscaped(c: char) {
    (c as int < 0x20 && c != '\t' && c != '\n' && c != '\r') || c as int == 0x7f
  }

  /** How `repr` writes one character inside quotes `q`. */
  function EscapeChar(c: char, q: char): (r: string)
    ensures |r| >= 1
  {
    if c == q || c == BACKSLASH then [BACKSLASH, c]
    else if c == '\t' then "\\t"
    else if c == '\n' then "\\n"
    else if c == '\r' then "\\r"
    else if IsHexEscaped(c) then [BACKSLASH, 'x', HexDigit(c as int / 16), HexDigit(c as int % 16)]
    else [c]
  }

  function EscapeAll(s: string, q: char): string {
    if s == [] then [] else EscapeChar(s[0], q) + EscapeAll(s[1..], q)
  }

  /** `repr(s)` */
  function Repr(s: string): string {
    var q := QuoteFor(s);
    [q] + EscapeAll(s, q) + [q]
  }

  /** `str(items)` for a list of strings. */
  function ListRepr(items: seq<string>): string {
    "[" + Join(seq(|items|, i requires 0 <= i < |items| => Repr(items[i])), ", ") + "]"
  }

  /** Reading an escaped body back: the inverse of `EscapeAll`. */
  function Unescape(t: string): string
    decreases |t|
  {
    if t == [] then []
    else if t[0] == BACKSLASH && |t| >= 4 && t[1] == 'x' && IsHexDigit(t[2]) && IsHexDigit(t[3]) then
      [(HexValue(t[2]) * 16 + HexValue(t[3])) as char] + Unescape(t[4..])
    else if t[0] == BACKSLASH && |t| >= 2 then
      [if t[1] == 't' then '\t' else if t[1] == 'n' then '\n' else if t[1] == 'r' then '\r' else t[1]]
        + Unescape(t[2..])
    else [t[0]] + Unescape(t[1..])
  }

  // ---------------------------------------------------------------------------
  // Properties
  // ---------------------------------------------------------------------------

  /** One escaped character reads back as itself, whatever follows it. */
  lemma UnescapeStep(c: char, q: char, rest: string)
    requires q == SINGLE || q == DOUBLE
    ensures Unescape(EscapeChar(c, q) + rest) == [c] + Unescape(rest)
  {
    var t := EscapeChar(c, q) + rest;
    if c == q || c == BACKSLASH {
      assert t[0] == BACKSLASH && t[1] == c && t[2..] == rest;
    } else if c == '\t' || c == '\n' || c == '\r' {
      assert t[0] == BACKSLASH && t[2..] == rest;
    } else if IsHexEscaped(c) {
      var hi, lo := c as int / 16, c as int % 16;
      HexValueOf(hi);
      HexValueOf(lo);
      assert t[0] == BACKSLASH && t[1] == 'x' && t[2] == HexDigit(hi) && t[3] == HexDigit(lo);
      assert t[4..] == rest;
      assert (HexValue(t[2]) * 16 + HexValue(t[3])) as char == c;
    } else {
      assert t[0] == c && t[1..] == rest;
    }
  }

  lemma {:induction false} UnescapeAll(s: string, q: char)
    requires q == SINGLE || q == DOUBLE
    ensures Unescape(EscapeAll(s, q)) == s
    decreases |s|
  {
    if s != [] {
      UnescapeStep(s[0], q, EscapeAll(s[1..], q));
      UnescapeAll(s[1..], q);
      assert s == [s[0]] + s[1..];
    }
  }

  /** `repr` loses nothing: its quotes match, and the text between them reads back as the string. */
  lemma ReprRoundTrip(s: string)
    ensures var r := Repr(s);
      && |r| >= 2 && r[0] == QuoteFor(s) && r[|r| - 1] == QuoteFor(s)
      && Unescape(r[1..|r| - 1]) == s
  {
    var q := QuoteFor(s);
    var r := Repr(s);
    assert r[1..|r| - 1] == EscapeAll(s, q);
    UnescapeAll(s, q);
  }

  /** Characters `repr` writes as they are. */
  predicate PlainChar(c: char) {
    c != SINGLE && c != BACKSLASH && !(c as int < 0x20) && c as int != 0x7f
  }

  lemma {:induction false} EscapePlain(s: string)
    requires forall i :: 0 <= i < |s| ==> PlainChar(s[i])
    ensures EscapeAll(s, SINGLE) == s
    decreases |s|
  {
    if s != [] {
      EscapePlain(s[1..]);
      assert s == [s[0]] + s[1..];
    }
  }

  /** A string without quotes, backslashes or control characters is shown in single quotes as it is. */
  lemma ReprPlain(s: string)
    requires forall i :: 0 <= i < |s| ==> PlainChar(s[i])
    ensures Repr(s) == [SINGLE] + s + [SINGLE]
  {
    assert SINGLE !in s by {
      forall i | 0 <= i < |s| ensures s[i] != SINGLE {
        assert PlainChar(s[i]);
      }
    }
    EscapePlain(s);
  }

  /** A string holding a single quote and no double quote is shown in double quotes. */
  lemma ReprApostrophe()
    ensures Repr("it's") == "\"it's\""
  {
    ApostropheQuote();
    ApostropheBody();
  }

  lemma ApostropheQuote()
    ensures QuoteFor("it's") == DOUBLE
  {
    var s := "it's";
    assert s[2] == SINGLE;
    forall i | 0 <= i < |s| ensures s[i] != DOUBLE {
      assert s[i] in {'i', 't', '\'', 's'};
    }
  }

  lemma ApostropheBody()
    ensures EscapeAll("it's", DOUBLE) == "it's"
  {
    var s := "it's";
    assert EscapeAll(s[3..], DOUBLE) == "s";
    assert EscapeAll(s[2..], DOUBLE) == "'s";
    assert EscapeAll(s[1..], DOUBLE) == "t's";
  }

  /** A backslash is doubled. */
  lemma ReprBackslash()
    ensures Repr("a\\b") == "'a\\\\b'"
  {
    var s := "a\\b";
    assert SINGLE !in s by {
      forall i | 0 <= i < |s| ensures s[i] != SINGLE {
        assert s[i] in {'a', '\\', 'b'};
      }
    }
    assert EscapeAll(s, SINGLE) == "a\\\\b" by {
      assert EscapeAll(s[2..], SINGLE) == "b";
      assert EscapeAll(s[1..], SINGLE) == "\\\\b";
    }
  }
}
