/** `literal` (deploy/configure_official_cloud_routes.py:41-42) against the SQL scanner of string constants. */
module SqlLiteral {
  import opened Wrappers

  const QUOTE: char := '\''

  /** str.replace("'", "''") */
  function Doubled(s: string): string {
    if s == [] then []
    else if s[0] == QUOTE then [QUOTE, QUOTE] + Doubled(s[1..])
    else [s[0]] + Doubled(s[1..])
  }

  function Literal(s: string): string {
    [QUOTE] + Doubled(s) + [QUOTE]
  }

  predicate IsNewline(c: char) {
    c == '\n' || c == '\r'
  }

  predicate IsSpace(c: char) {
    c == ' ' || c == '\t' || IsNewline(c) || c == '\U{000c}' || c == '\U{000b}'
  }

  predicate IsComment(s: string) {
    |s| >= 2 && s[0] == '-' && s[1] == '-'
  }

  function LineEnd(s: string): (k: nat)
    ensures k <= |s|
  {
    if s == [] || IsNewline(s[0]) then 0 else 1 + LineEnd(s[1..])
  }

  /** Where the quote that resumes a constant stands, when only whitespace and
      comments to the end of a line, with at least one newline, separate the two
      pieces. */
  function Resumption(s: string, newline: bool): (r: Option<nat>)
    ensures r.Some? ==> r.value < |s|
    decreases |s|
  {
    if s == [] then None
    else if s[0] == QUOTE then (if newline then Some(0) else None)
    else if !IsSpace(s[0]) && !IsComment(s) then None
    else
      var k := if IsComment(s) then LineEnd(s) else 1;
      match Resumption(s[k..], newline || IsNewline(s[0]))
      case None => None
      case Some(j) => Some(k + j)
  }

  /** The scanner after an opening quote: the constant's value and the text
      that follows it, or None for an unterminated constant. */
  function Scan(s: string): Option<(string, string)>
    decreases |s|
  {
    if s == [] then None
    else if s[0] != QUOTE then
      match Scan(s[1..])
      case None => None
      case Some(p) => Some(([s[0]] + p.0, p.1))
    else if |s| > 1 && s[1] == QUOTE then
      match Scan(s[2..])
      case None => None
      case Some(p) => Some(([QUOTE] + p.0, p.1))
    else
      match Resumption(s[1..], false)
      case None => Some(("", s[1..]))
      case Some(k) => Scan(s[1..][k + 1..])
  }

  function Lex(s: string): Option<(string, string)> {
    if s != [] && s[0] == QUOTE then Scan(s[1..]) else None
  }

  /** A scan never gives back more text than it was given. */
  lemma {:induction false} ScanShrinks(s: string)
    ensures Scan(s).Some? ==> |Scan(s).value.1| < |s|
    decreases |s|
  {
    if s == [] {
    } else if s[0] != QUOTE {
      ScanShrinks(s[1..]);
    } else if |s| > 1 && s[1] == QUOTE {
      ScanShrinks(s[2..]);
    } else {
      match Resumption(s[1..], false)
      case None =>
      case Some(k) => ScanShrinks(s[1..][k + 1..]);
    }
  }

  /** A scan result with a prefix put before its value. */
  function Prefixed(s: string, r: Option<(string, string)>): Option<(string, string)> {
    match r
    case None => None
    case Some(p) => Some((s + p.0, p.1))
  }

  lemma ScanPlain(c: char, rest: string)
    requires c != QUOTE
    ensures Scan([c] + rest) == Prefixed([c], Scan(rest))
  {
    assert ([c] + rest)[1..] == rest;
  }

  lemma ScanPair(rest: string)
    ensures Scan([QUOTE, QUOTE] + rest) == Prefixed([QUOTE], Scan(rest))
  {
    assert ([QUOTE, QUOTE] + rest)[2..] == rest;
  }

  lemma PrefixedTwice(a: string, b: string, r: Option<(string, string)>)
    ensures Prefixed(a, Prefixed(b, r)) == Prefixed(a + b, r)
  {
    if r.Some? {
      assert a + (b + r.value.0) == a + b + r.value.0;
    }
  }

  /** The doubled body scans to the original, and the scan goes on at the
      closing quote. */
  lemma {:induction false} ScanDoubled(s: string, tail: string)
    ensures Scan(Doubled(s) + tail) == Prefixed(s, Scan(tail))
    decreases |s|
  {
    if s == [] {
      assert Doubled(s) + tail == tail;
      if Scan(tail).Some? {
        assert s + Scan(tail).value.0 == Scan(tail).value.0;
      }
    } else {
      var c, rest := s[0], Doubled(s[1..]) + tail;
      ScanDoubled(s[1..], tail);
      PrefixedTwice([c], s[1..], Scan(tail));
      assert s == [c] + s[1..];
      if c == QUOTE {
        assert Doubled(s) + tail == [QUOTE, QUOTE] + rest;
        ScanPair(rest);
      } else {
        assert Doubled(s) + tail == [c] + rest;
        ScanPlain(c, rest);
      }
    }
  }

  /** What may follow a constant without becoming part of it. */
  predicate Detached(suffix: string) {
    (suffix == [] || suffix[0] != QUOTE) && Resumption(suffix, false).None?
  }

  /** Quoting round-trips exactly in front of detached text. */
  lemma {:induction false} LiteralRoundTrip(s: string, suffix: string)
    ensures Lex(Literal(s) + suffix) == Some((s, suffix)) <==> Detached(suffix)
  {
    var tail := [QUOTE] + suffix;
    assert (Literal(s) + suffix)[1..] == Doubled(s) + tail;
    ScanDoubled(s, tail);
    assert tail[1..] == suffix;
    if Detached(suffix) {
      assert s + "" == s;
    } else if suffix != [] && suffix[0] == QUOTE {
      ScanShrinks(tail[2..]);
    } else {
      ScanShrinks(suffix[Resumption(suffix, false).value + 1..]);
    }
  }

  /** `literal(literal(s))`, spliced into generated SQL that is itself built
      from constants: evaluating the outer constant gives the inner one, and
      evaluating that gives `s`. */
  lemma NestedLiteralRoundTrip(s: string, outer: string, inner: string)
    requires Detached(outer) && Detached(inner)
    ensures Lex(Literal(Literal(s)) + outer) == Some((Literal(s), outer))
    ensures Lex(Lex(Literal(Literal(s)) + outer).value.0 + inner) == Some((s, inner))
  {
    LiteralRoundTrip(Literal(s), outer);
    LiteralRoundTrip(s, inner);
  }
}
