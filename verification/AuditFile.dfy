/** The exception list: its line parser, and the quoting printer it inverts
    (tools/check_pnpm_audit_exceptions.py:12-48). */
module AuditFile {
  import opened Wrappers
  import OutboxEncoding

  // ------------------------------------------------------------------ whitespace

  /** The characters str.strip() removes. */
  predicate IsSpace(c: char) {
    var n := c as int;
    || 0x09 <= n <= 0x0D || 0x1C <= n <= 0x20 || n == 0x85 || n == 0xA0 || n == 0x1680
    || 0x2000 <= n <= 0x200A || n == 0x2028 || n == 0x2029 || n == 0x202F || n == 0x205F || n == 0x3000
  }

  const SPACES: seq<int> := [
    0x09, 0x0A, 0x0B, 0x0C, 0x0D, 0x1C, 0x1D, 0x1E, 0x1F, 0x20, 0x85, 0xA0, 0x1680,
    0x2000, 0x2001, 0x2002, 0x2003, 0x2004, 0x2005, 0x2006, 0x2007, 0x2008, 0x2009, 0x200A,
    0x2028, 0x2029, 0x202F, 0x205F, 0x3000
  ]

  /** The same characters by their code points. */
  lemma SpacesAre(c: char)
    ensures IsSpace(c) <==> c as int in SPACES
  {}

  function LStrip(s: string): string {
    if s != [] && IsSpace(s[0]) then LStrip(s[1..]) else s
  }

  function RStrip(s: string): string {
    if s != [] && IsSpace(s[|s| - 1]) then RStrip(s[..|s| - 1]) else s
  }

  function Strip(s: string): string {
    RStrip(LStrip(s))
  }

  predicate Trimmed(s: string) {
    s != [] ==> !IsSpace(s[0]) && !IsSpace(s[|s| - 1])
  }

  predicate AllSpace(s: string) {
    forall i :: 0 <= i < |s| ==> IsSpace(s[i])
  }

  lemma {:induction false} LStripOff(a: string, s: string)
    requires AllSpace(a)
    ensures LStrip(a + s) == LStrip(s)
    decreases |a|
  {
    if a == [] {
      assert a + s == s;
    } else {
      assert (a + s)[0] == a[0] && (a + s)[1..] == a[1..] + s;
      LStripOff(a[1..], s);
    }
  }

  lemma {:induction false} RStripOff(s: string, b: string)
    requires AllSpace(b)
    ensures RStrip(s + b) == RStrip(s)
    decreases |b|
  {
    if b == [] {
      assert s + b == s;
    } else {
      var k := |b| - 1;
      assert (s + b)[|s + b| - 1] == b[k] && (s + b)[..|s + b| - 1] == s + b[..k];
      RStripOff(s, b[..k]);
    }
  }

  /** Stripping takes the whitespace off both ends, and nothing else. */
  lemma StripExactly(a: string, t: string, b: string)
    requires AllSpace(a) && AllSpace(b) && Trimmed(t)
    ensures Strip(a + t + b) == t
  {
    assert a + t + b == a + (t + b);
    LStripOff(a, t + b);
    if t == [] {
      assert t + b == b + [];
      LStripOff(b, []);
    } else {
      assert (t + b)[0] == t[0];
      RStripOff(t, b);
    }
  }

  lemma StripNothing(s: string)
    requires Trimmed(s)
    ensures Strip(s) == s
  {
    StripExactly("", s, "");
    assert "" + s + "" == s;
  }

  // ------------------------------------------------------------------- key: value

  predicate StartsWith(s: string, prefix: string) {
    |prefix| <= |s| && s[..|prefix|] == prefix
  }

  function IndexOf(s: string, c: char): (i: nat)
    requires c in s
    ensures i < |s| && s[i] == c && c !in s[..i]
  {
    if s[0] == c then 0 else
      assert c in s[1..];
      1 + IndexOf(s[1..], c)
  }

  /** A value in matching quotes loses its first and last character; value[1:-1]
      of a lone quote is empty. */
  function Unquoted(v: string): string {
    if v == [] then v
    else if (v[0] == '\"' && v[|v| - 1] == '\"') || (v[0] == '\'' && v[|v| - 1] == '\'') then
      if |v| == 1 then "" else v[1..|v| - 1]
    else v
  }

  /** split_kv; without a colon the unpacking raises ValueError. */
  function SplitKv(line: string): Result<(string, string), string> {
    if ':' !in line then Err("ValueError") else
      var i := IndexOf(line, ':');
      Ok((Strip(line[..i]), Unquoted(Strip(line[i + 1..]))))
  }

  // ---------------------------------------------------------------------- parser

  /** An exception, as a dictionary of its fields. */
  type Fields = map<string, string>

  /** The loop's variables `exceptions` and `current`. */
  datatype State = State(exceptions: seq<Fields>, current: Option<Fields>)

  /** An empty record is dropped. */
  function Flushed(s: State): seq<Fields> {
    if s.current.Some? && s.current.value != map[] then s.exceptions + [s.current.value] else s.exceptions
  }

  predicate IsSkipped(line: string) {
    || line == [] || line[0] == '#'
    || StartsWith(line, "version:") || StartsWith(line, "exceptions:")
  }

  /** What one stripped line does. */
  function OneLine(s: State, line: string): Result<State, string> {
    if IsSkipped(line) then Ok(s)
    else if StartsWith(line, "- ") then
      var rest := Strip(line[2..]);
      if rest == [] then Ok(State(Flushed(s), Some(map[])))
      else
        match SplitKv(rest)
        case Err(e) => Err(e)
        case Ok((k, v)) => Ok(State(Flushed(s), Some(map[k := v])))
    else if s.current.Some? && ':' in line then
      match SplitKv(line)
      case Err(e) => Err(e)
      case Ok((k, v)) => Ok(s.(current := Some(s.current.value[k := v])))
    else Ok(s)
  }

  function Lines(s: State, raws: seq<string>): Result<State, string>
    decreases |raws|
  {
    if raws == [] then Ok(s) else
      match OneLine(s, Strip(raws[0]))
      case Err(e) => Err(e)
      case Ok(t) => Lines(t, raws[1..])
  }

  function Parsed(raws: seq<string>): Result<seq<Fields>, string> {
    match Lines(State([], None), raws)
    case Err(e) => Err(e)
    case Ok(s) => Ok(Flushed(s))
  }

  /** parse_exceptions */
  method ParseExceptions(raws: seq<string>) returns (r: Result<seq<Fields>, string>)
    ensures r == Parsed(raws)
  {
    var exceptions: seq<Fields>, current: Option<Fields> := [], None;
    assert raws[0..] == raws;
    for i := 0 to |raws|
      invariant Lines(State([], None), raws) == Lines(State(exceptions, current), raws[i..])
    {
      assert raws[i..][0] == raws[i] && raws[i..][1..] == raws[i + 1..];
      var line := Strip(raws[i]);
      if line == [] || line[0] == '#' {
        continue;
      }
      if StartsWith(line, "version:") || StartsWith(line, "exceptions:") {
        continue;
      }
      if StartsWith(line, "- ") {
        if current.Some? && current.value != map[] {
          exceptions := exceptions + [current.value];
        }
        current := Some(map[]);
        line := Strip(line[2..]);
        if line != [] {
          match SplitKv(line) {
            case Err(e) => return Err(e);
            case Ok((k, v)) => current := Some(current.value[k := v]);
          }
        }
        continue;
      }
      if current.Some? && ':' in line {
        match SplitKv(line) {
          case Err(e) => return Err(e);
          case Ok((k, v)) => current := Some(current.value[k := v]);
        }
      }
    }
    assert raws[|raws|..] == [];
    if current.Some? && current.value != map[] {
      exceptions := exceptions + [current.value];
    }
    r := Ok(exceptions);
  }

  /** The parser fails only on an item line without a colon. */
  lemma OnlyItemsFail(s: State, line: string)
    ensures OneLine(s, line).Err? <==>
            !IsSkipped(line) && StartsWith(line, "- ") && Strip(line[2..]) != [] && ':' !in Strip(line[2..])
  {}

  // ----------------------------------------------------------------------- noise

  function WithoutNoise(raws: seq<string>): seq<string> {
    if raws == [] then []
    else if IsSkipped(Strip(raws[0])) then WithoutNoise(raws[1..])
    else [raws[0]] + WithoutNoise(raws[1..])
  }

  lemma {:induction false} NoiseDoesNothing(s: State, raws: seq<string>)
    ensures Lines(s, raws) == Lines(s, WithoutNoise(raws))
    decreases |raws|
  {
    if raws != [] {
      if IsSkipped(Strip(raws[0])) {
        NoiseDoesNothing(s, raws[1..]);
      } else {
        var kept := [raws[0]] + WithoutNoise(raws[1..]);
        assert kept[1..] == WithoutNoise(raws[1..]);
        match OneLine(s, Strip(raws[0])) {
          case Err(e) =>
          case Ok(t) => NoiseDoesNothing(t, raws[1..]);
        }
      }
    }
  }

  // -------------------------------------------------------------------- printing

  /** A value may be written as it is, or in quotes of either kind. */
  datatype Style = Bare | Single | Double

  /** A field as a file may hold it, with whitespace where the format allows it. */
  datatype Pair = Pair(key: string, value: string, style: Style,
                       indent: string, before: string, between: string, after: string)

  type Pairs = seq<Pair>

  function Rendered(p: Pair): string {
    match p.style
    case Bare => p.value
    case Single => "'" + p.value + "'"
    case Double => "\"" + p.value + "\""
  }

  function Text(p: Pair): string {
    p.key + p.before + ":" + p.between + Rendered(p) + p.after
  }

  function FieldLine(p: Pair): string {
    p.indent + Text(p)
  }

  /** The line of a record's first field. */
  function ItemLine(p: Pair): string {
    p.indent + "- " + Text(p)
  }

  function FieldLines(pairs: Pairs): seq<string> {
    if pairs == [] then [] else [FieldLine(pairs[0])] + FieldLines(pairs[1..])
  }

  function RecordLines(pairs: Pairs): seq<string>
    requires pairs != []
  {
    [ItemLine(pairs[0])] + FieldLines(pairs[1..])
  }

  ghost predicate AllPrintable(pairs: Pairs) {
    forall p :: p in pairs ==> PrintablePair(p)
  }

  ghost predicate Printable(records: seq<Pairs>) {
    forall i :: 0 <= i < |records| ==> records[i] != [] && AllPrintable(records[i])
  }

  lemma PrintableRest(pairs: Pairs)
    requires pairs != [] && AllPrintable(pairs)
    ensures PrintablePair(pairs[0]) && AllPrintable(pairs[1..])
  {
    assert pairs[0] in pairs && forall p :: p in pairs[1..] ==> p in pairs;
  }

  lemma PrintableRecords(records: seq<Pairs>)
    requires records != [] && Printable(records)
    ensures records[0] != [] && AllPrintable(records[0]) && Printable(records[1..])
  {
    assert forall i :: 0 <= i < |records[1..]| ==> records[1..][i] == records[i + 1];
  }

  predicate NewlineFree(s: string) {
    '\n' !in s && '\r' !in s
  }

  predicate IsBlank(s: string) {
    AllSpace(s) && NewlineFree(s)
  }

  /** In quotes of one kind at both ends. */
  predicate Wrapped(v: string) {
    v != [] && ((v[0] == '\"' && v[|v| - 1] == '\"') || (v[0] == '\'' && v[|v| - 1] == '\''))
  }

  /** Keys that can be told from the parser's own markers; values are free but for
      line ends, and a bare one is trimmed and not wrapped in quotes. */
  predicate PrintablePair(p: Pair) {
    && ':' !in p.key && Trimmed(p.key) && NewlineFree(p.key)
    && p.key != "version" && p.key != "exceptions" && p.key != "-"
    && !StartsWith(p.key, "#") && !StartsWith(p.key, "- ")
    && NewlineFree(p.value)
    && (p.style.Bare? ==> Trimmed(p.value) && !Wrapped(p.value))
    && IsBlank(p.indent) && IsBlank(p.before) && IsBlank(p.between) && IsBlank(p.after)
  }

  function FileLines(records: seq<Pairs>): seq<string>
    requires forall i :: 0 <= i < |records| ==> records[i] != []
  {
    if records == [] then [] else RecordLines(records[0]) + FileLines(records[1..])
  }

  /** The dictionary a list of pairs makes: later pairs win. */
  function Dict(f: Fields, pairs: Pairs): Fields
    decreases |pairs|
  {
    if pairs == [] then f else Dict(f[pairs[0].key := pairs[0].value], pairs[1..])
  }

  function Dicts(records: seq<Pairs>): seq<Fields> {
    seq(|records|, i requires 0 <= i < |records| => Dict(map[], records[i]))
  }

  // ------------------------------------------------------------ one printed field

  /** What is left of a field's text when it is stripped, and what is stripped. */
  function Head(p: Pair): string {
    if p.key == "" then "" else p.key + p.before
  }

  function Tail(p: Pair): string {
    if Rendered(p) == "" then "" else p.between + Rendered(p)
  }

  function Core(p: Pair): string {
    Head(p) + [':'] + Tail(p)
  }

  function Lead(p: Pair): string {
    if p.key == "" then p.before else ""
  }

  function Rest(p: Pair): string {
    if Rendered(p) == "" then p.between + p.after else p.after
  }

  lemma RenderedUnquotes(p: Pair)
    requires PrintablePair(p)
    ensures Trimmed(Rendered(p)) && Unquoted(Rendered(p)) == p.value
  {
    var v := Rendered(p);
    if !p.style.Bare? {
      assert |v| == |p.value| + 2 && v[0] == v[|v| - 1] && v[1..|v| - 1] == p.value;
    }
  }

  lemma TextParts(p: Pair)
    requires PrintablePair(p)
    ensures Text(p) == Lead(p) + Core(p) + Rest(p)
    ensures AllSpace(Lead(p)) && AllSpace(Rest(p))
  {
    var v := Rendered(p);
    assert Lead(p) + Head(p) == p.key + p.before;
    assert Tail(p) + Rest(p) == p.between + v + p.after;
    assert Text(p) == (p.key + p.before) + [':'] + (p.between + v + p.after);
  }

  lemma CoreEnds(p: Pair)
    requires PrintablePair(p)
    ensures Core(p) != [] && Trimmed(Core(p))
    ensures Core(p)[0] == if p.key == "" then ':' else p.key[0]
  {
    RenderedUnquotes(p);
    var line := Core(p);
    if Tail(p) == "" {
      assert line[|line| - 1] == ':';
    } else {
      assert line[|line| - 1] == Rendered(p)[|Rendered(p)| - 1];
    }
  }

  lemma HeadStrips(p: Pair)
    requires PrintablePair(p)
    ensures ':' !in Head(p) && Strip(Head(p)) == p.key
  {
    assert ':' !in p.before;
    if p.key == "" {
      StripNothing("");
    } else {
      StripExactly("", p.key, p.before);
      assert "" + p.key + p.before == p.key + p.before;
    }
  }

  lemma TailStrips(p: Pair)
    requires PrintablePair(p)
    ensures Strip(Tail(p)) == Rendered(p)
  {
    RenderedUnquotes(p);
    if Rendered(p) == "" {
      StripNothing("");
    } else {
      StripExactly(p.between, Rendered(p), "");
      assert p.between + Rendered(p) + "" == Tail(p);
    }
  }

  /** The text is cut at its first colon. */
  lemma CoreCuts(p: Pair)
    requires ':' !in Head(p)
    ensures ':' in Core(p)
    ensures Core(p)[..IndexOf(Core(p), ':')] == Head(p)
    ensures Core(p)[IndexOf(Core(p), ':') + 1..] == Tail(p)
  {
    var line := Core(p);
    assert line[|Head(p)|] == ':';
    var i := IndexOf(line, ':');
    assert line[..i] + [':'] + line[i + 1..] == line;
    OutboxEncoding.CutAtSeparator(line[..i], Head(p), ':', line[i + 1..], Tail(p));
  }

  /** Splitting a printed field gives back its key and its value. */
  lemma SplitPrinted(p: Pair)
    requires PrintablePair(p)
    ensures SplitKv(Core(p)) == Ok((p.key, p.value))
  {
    HeadStrips(p);
    TailStrips(p);
    CoreCuts(p);
    RenderedUnquotes(p);
  }

  /** A marker ending in a colon starts a printed field only when it is the key. */
  lemma MarkerIsKey(p: Pair, marker: string)
    requires PrintablePair(p) && ':' !in marker && Trimmed(marker)
    requires StartsWith(Core(p), marker + [':'])
    ensures p.key == marker
  {
    var line, n := Core(p), |marker| + 1;
    HeadStrips(p);
    assert line == marker + [':'] + line[n..];
    OutboxEncoding.CutAtSeparator(Head(p), marker, ':', Tail(p), line[n..]);
    StripNothing(marker);
  }

  lemma FirstDiffers(s: string, prefix: string)
    requires s != [] && prefix != [] && s[0] != prefix[0]
    ensures !StartsWith(s, prefix)
  {
    if |prefix| <= |s| {
      assert s[..|prefix|][0] == s[0];
    }
  }

  lemma NotAnItem(p: Pair)
    requires PrintablePair(p)
    ensures !StartsWith(Core(p), "- ")
  {
    var line, k := Core(p), p.key;
    CoreEnds(p);
    if k == "" || k[0] != '-' {
      FirstDiffers(line, "- ");
    } else {
      assert |k| > 1;
      assert line[..2] == k[..2];
    }
  }

  lemma CoreShape(p: Pair)
    requires PrintablePair(p)
    ensures Core(p) != [] && ':' in Core(p) && !IsSkipped(Core(p)) && !StartsWith(Core(p), "- ")
  {
    HeadStrips(p);
    CoreCuts(p);
    NotAnItem(p);
    NotSkipped(p);
  }

  lemma NotSkipped(p: Pair)
    requires PrintablePair(p)
    ensures Core(p) != [] && !IsSkipped(Core(p))
  {
    NoMarker(p, "version", "version:");
    NoMarker(p, "exceptions", "exceptions:");
    NotAComment(p);
  }

  lemma NoMarker(p: Pair, marker: string, line: string)
    requires PrintablePair(p) && p.key != marker && ':' !in marker && Trimmed(marker) && line == marker + [':']
    ensures !StartsWith(Core(p), line)
  {
    if StartsWith(Core(p), line) {
      MarkerIsKey(p, marker);
    }
  }

  lemma NotAComment(p: Pair)
    requires PrintablePair(p)
    ensures Core(p) != [] && Core(p)[0] != '#'
  {
    CoreEnds(p);
    assert p.key != "" ==> p.key[..1] == [p.key[0]];
  }

  lemma SpaceJoins(a: string, b: string)
    requires AllSpace(a) && AllSpace(b)
    ensures AllSpace(a + b)
  {}

  lemma IndentJoins(a: string, b: string, c: string, d: string)
    ensures a + (b + c + d) == (a + b) + c + d
  {}

  lemma FieldLineStrips(p: Pair)
    requires PrintablePair(p)
    ensures Strip(FieldLine(p)) == Core(p)
  {
    TextParts(p);
    CoreEnds(p);
    SpaceJoins(p.indent, Lead(p));
    IndentJoins(p.indent, Lead(p), Core(p), Rest(p));
    StripExactly(p.indent + Lead(p), Core(p), Rest(p));
  }

  lemma ItemLineIs(p: Pair)
    requires PrintablePair(p)
    ensures Strip(ItemLine(p)) == "- " + (Lead(p) + Core(p))
  {
    TextParts(p);
    CoreEnds(p);
    ItemTrimmed(Lead(p), Core(p));
    ItemJoins(p.indent, Lead(p), Core(p), Rest(p));
    StripExactly(p.indent, "- " + (Lead(p) + Core(p)), Rest(p));
  }

  lemma ItemTrimmed(a: string, b: string)
    requires b != [] && Trimmed(b)
    ensures Trimmed("- " + (a + b))
  {
    var line := "- " + (a + b);
    assert line[0] == '-' && line[|line| - 1] == b[|b| - 1];
  }

  lemma ItemJoins(indent: string, a: string, b: string, c: string)
    ensures indent + "- " + (a + b + c) == indent + ("- " + (a + b)) + c
  {}

  lemma LeadStrips(p: Pair)
    requires PrintablePair(p)
    ensures Strip(Lead(p) + Core(p)) == Core(p)
  {
    TextParts(p);
    CoreEnds(p);
    StripExactly(Lead(p), Core(p), "");
    assert Lead(p) + Core(p) + "" == Lead(p) + Core(p);
  }

  /** The marker of an item and what the parser cuts off behind it. */
  lemma ItemLineStrips(p: Pair)
    requires PrintablePair(p)
    ensures var line := Strip(ItemLine(p));
            StartsWith(line, "- ") && !IsSkipped(line) && Strip(line[2..]) == Core(p)
  {
    var line := "- " + (Lead(p) + Core(p));
    ItemLineIs(p);
    LeadStrips(p);
    assert line[0] == '-' && line[2..] == Lead(p) + Core(p) && line[..2] == "- ";
    FirstDiffers(line, "version:");
    FirstDiffers(line, "exceptions:");
  }

  /** A quote by itself counts as an empty quoted value. */
  lemma LoneQuoteIsEmpty()
    ensures Unquoted("\"") == "" && Unquoted("'") == ""
  {}

  // ------------------------------------------------------------------ round trip

  lemma LinesStep(s: State, raw: string, t: State, more: seq<string>)
    requires OneLine(s, Strip(raw)) == Ok(t)
    ensures Lines(s, [raw] + more) == Lines(t, more)
  {
    assert ([raw] + more)[1..] == more;
  }

  /** A printed continuation line sets its field. */
  lemma FieldLineSets(s: State, f: Fields, p: Pair, more: seq<string>)
    requires PrintablePair(p) && s.current == Some(f)
    ensures Lines(s, [FieldLine(p)] + more) == Lines(s.(current := Some(f[p.key := p.value])), more)
  {
    CoreShape(p);
    FieldLineStrips(p);
    SplitPrinted(p);
    LinesStep(s, FieldLine(p), s.(current := Some(f[p.key := p.value])), more);
  }

  /** A printed item line ends the record before it and starts a new one. */
  lemma ItemLineStarts(s: State, p: Pair, more: seq<string>)
    requires PrintablePair(p)
    ensures Lines(s, [ItemLine(p)] + more) == Lines(State(Flushed(s), Some(map[p.key := p.value])), more)
  {
    CoreShape(p);
    ItemLineStrips(p);
    SplitPrinted(p);
    LinesStep(s, ItemLine(p), State(Flushed(s), Some(map[p.key := p.value])), more);
  }

  lemma {:induction false} FieldLinesSet(s: State, f: Fields, pairs: Pairs, more: seq<string>)
    requires AllPrintable(pairs) && s.current == Some(f)
    ensures Lines(s, FieldLines(pairs) + more) == Lines(s.(current := Some(Dict(f, pairs))), more)
    decreases |pairs|
  {
    if pairs == [] {
      assert FieldLines(pairs) + more == more;
    } else {
      var p, rest := pairs[0], pairs[1..];
      PrintableRest(pairs);
      FieldLineSets(s, f, p, FieldLines(rest) + more);
      assert FieldLines(pairs) + more == [FieldLine(p)] + (FieldLines(rest) + more);
      FieldLinesSet(s.(current := Some(f[p.key := p.value])), f[p.key := p.value], rest, more);
    }
  }

  lemma {:induction false} DictGrows(f: Fields, pairs: Pairs)
    requires f != map[]
    ensures Dict(f, pairs) != map[]
    decreases |pairs|
  {
    if pairs != [] {
      assert pairs[0].key in f[pairs[0].key := pairs[0].value];
      DictGrows(f[pairs[0].key := pairs[0].value], pairs[1..]);
    }
  }

  lemma RecordLinesAdd(s: State, pairs: Pairs, more: seq<string>)
    requires pairs != [] && AllPrintable(pairs)
    ensures Dict(map[], pairs) != map[]
    ensures Lines(s, RecordLines(pairs) + more) == Lines(State(Flushed(s), Some(Dict(map[], pairs))), more)
  {
    var p, rest := pairs[0], pairs[1..];
    PrintableRest(pairs);
    ItemLineStarts(s, p, FieldLines(rest) + more);
    assert RecordLines(pairs) + more == [ItemLine(p)] + (FieldLines(rest) + more);
    var first: Fields := map[p.key := p.value];
    assert p.key in first;
    assert map[][p.key := p.value] == first;
    FieldLinesSet(State(Flushed(s), Some(first)), first, rest, more);
    DictGrows(first, rest);
  }

  lemma {:induction false} FileLinesAdd(s: State, records: seq<Pairs>)
    requires Printable(records)
    ensures Lines(s, FileLines(records)).Ok?
    ensures Flushed(Lines(s, FileLines(records)).value) == Flushed(s) + Dicts(records)
    decreases |records|
  {
    if records == [] {
      assert Flushed(s) + Dicts(records) == Flushed(s);
    } else {
      var pairs, rest := records[0], records[1..];
      PrintableRecords(records);
      RecordLinesAdd(s, pairs, FileLines(rest));
      var next := State(Flushed(s), Some(Dict(map[], pairs)));
      FileLinesAdd(next, rest);
      DictsSplit(records);
      FlushedJoins(s, Dict(map[], pairs), Dicts(rest));
    }
  }

  lemma DictsSplit(records: seq<Pairs>)
    requires records != []
    ensures Dicts(records) == [Dict(map[], records[0])] + Dicts(records[1..])
  {}

  lemma FlushedJoins(s: State, f: Fields, more: seq<Fields>)
    requires f != map[]
    ensures Flushed(State(Flushed(s), Some(f))) + more == Flushed(s) + ([f] + more)
  {}

  /** The parser inverts the printer, whatever blank, comment, version: or
      exceptions: lines are put between the printed ones. */
  lemma ParsePrinted(records: seq<Pairs>, raws: seq<string>)
    requires Printable(records)
    requires WithoutNoise(raws) == WithoutNoise(FileLines(records))
    ensures Parsed(raws) == Ok(Dicts(records))
  {
    var start := State([], None);
    NoiseDoesNothing(start, raws);
    NoiseDoesNothing(start, FileLines(records));
    FileLinesAdd(start, records);
    assert Flushed(start) + Dicts(records) == Dicts(records);
  }

  // ------------------------------------------------------------------ line ends

  /** Where the first line of a text stops. */
  function LineEnd(text: string): (i: nat)
    ensures i <= |text|
  {
    if text == [] || text[0] == '\n' || text[0] == '\r' then 0 else 1 + LineEnd(text[1..])
  }

  /** Reading a text file line by line with universal newlines; a line is given
      without its end, which the parser strips. */
  function ReadLines(text: string): seq<string>
    decreases |text|
  {
    if text == [] then [] else
      var i := LineEnd(text);
      var end := if i + 1 < |text| && text[i] == '\r' && text[i + 1] == '\n' then 2 else 1;
      [text[..i]] + if i + end <= |text| then ReadLines(text[i + end..]) else []
  }

  /** Writing each line with a line end after it. */
  function Written(raws: seq<string>, eol: string): string {
    if raws == [] then "" else raws[0] + (eol + Written(raws[1..], eol))
  }

  predicate IsLineEnd(eol: string) {
    eol == "\n" || eol == "\r\n" || eol == "\r"
  }

  lemma {:induction false} LineStopsAtEnd(line: string, eol: string, rest: string)
    requires NewlineFree(line) && IsLineEnd(eol)
    ensures LineEnd(line + (eol + rest)) == |line|
  {
    if line == [] {
      assert (line + (eol + rest))[0] == eol[0];
    } else {
      assert (line + (eol + rest))[1..] == line[1..] + (eol + rest);
      LineStopsAtEnd(line[1..], eol, rest);
    }
  }

  /** A line end of "\r" alone is not followed by "\n". */
  lemma NoNewlineAhead(raws: seq<string>)
    requires forall raw :: raw in raws ==> NewlineFree(raw)
    ensures Written(raws, "\r") != [] ==> Written(raws, "\r")[0] != '\n'
  {
    if raws != [] {
      assert raws[0] in raws;
      if raws[0] != [] {
        assert raws[0][0] in raws[0];
      }
    }
  }

  lemma ReadFirst(line: string, eol: string, rest: string)
    requires NewlineFree(line) && IsLineEnd(eol)
    requires eol == "\r" && rest != [] ==> rest[0] != '\n'
    ensures ReadLines(line + (eol + rest)) == [line] + ReadLines(rest)
  {
    var text := line + (eol + rest);
    LineStopsAtEnd(line, eol, rest);
    assert text[..|line|] == line && text[|line|] == eol[0];
    assert text[|line| + |eol|..] == rest;
    assert |eol| == 2 ==> text[|line| + 1] == eol[1];
    assert |eol| == 1 && rest != [] ==> text[|line| + 1] == rest[0];
  }

  lemma {:induction false} ReadWritten(raws: seq<string>, eol: string)
    requires (forall raw :: raw in raws ==> NewlineFree(raw)) && IsLineEnd(eol)
    ensures ReadLines(Written(raws, eol)) == raws
    decreases |raws|
  {
    if raws != [] {
      assert raws[0] in raws && forall raw :: raw in raws[1..] ==> raw in raws;
      ReadWritten(raws[1..], eol);
      NoNewlineAhead(raws[1..]);
      ReadFirst(raws[0], eol, Written(raws[1..], eol));
    }
  }

  lemma PairIsOneLine(p: Pair)
    requires PrintablePair(p)
    ensures NewlineFree(FieldLine(p)) && NewlineFree(ItemLine(p))
  {
    assert NewlineFree(Rendered(p));
    assert NewlineFree(Text(p));
  }

  lemma {:induction false} FieldsAreLines(pairs: Pairs)
    requires AllPrintable(pairs)
    ensures forall raw :: raw in FieldLines(pairs) ==> NewlineFree(raw)
  {
    if pairs != [] {
      PrintableRest(pairs);
      PairIsOneLine(pairs[0]);
      FieldsAreLines(pairs[1..]);
    }
  }

  lemma {:induction false} PrintedAreLines(records: seq<Pairs>)
    requires Printable(records)
    ensures forall raw :: raw in FileLines(records) ==> NewlineFree(raw)
  {
    if records != [] {
      var pairs := records[0];
      PrintableRecords(records);
      PrintableRest(pairs);
      PairIsOneLine(pairs[0]);
      FieldsAreLines(pairs[1..]);
      PrintedAreLines(records[1..]);
    }
  }

  /** The same for the text of the file, whichever line end it is written with:
      printed records are read back, alone or among lines of noise. */
  lemma ReadPrintedFile(records: seq<Pairs>, raws: seq<string>, eol: string)
    requires Printable(records) && IsLineEnd(eol)
    requires WithoutNoise(raws) == WithoutNoise(FileLines(records))
    requires forall raw :: raw in raws ==> NewlineFree(raw)
    ensures Parsed(ReadLines(Written(raws, eol))) == Ok(Dicts(records))
    ensures Parsed(ReadLines(Written(FileLines(records), eol))) == Ok(Dicts(records))
  {
    ReadWritten(raws, eol);
    PrintedAreLines(records);
    ReadWritten(FileLines(records), eol);
    ParsePrinted(records, raws);
    ParsePrinted(records, FileLines(records));
  }
}
