/**
 * CSV ingestion: the quote-aware line tokenizer and the row loop that turns
 * CSV text into sitemap entries plus per-row error messages. XML parsing is
 * not part of this module.
 */
module Parser {
  import opened Wrappers
  import opened Text
  import opened Sitemap

  // ---------------------------------------------------------------------------
  // The line tokenizer

  /**
   * The fields of the rest `s` of a line, when the scanner is inside quotes
   * iff `q`: a `"` flips the quote state and is dropped, a `,` outside quotes
   * ends a field, every other character joins the current field.
   */
  function Fields(s: string, q: bool): (r: seq<string>)
    ensures |r| >= 1
    decreases |s|
  {
    if s == [] then [[]]
    else if s[0] == '"' then Fields(s[1..], !q)
    else if s[0] == ',' && !q then [[]] + Fields(s[1..], q)
    else
      var t := Fields(s[1..], q);
      [[s[0]] + t[0]] + t[1..]
  }

  /** The fields of a whole line, which starts outside quotes. */
  function CsvFields(line: string): seq<string> {
    Fields(line, false)
  }

  /** The fields so far, with the current field completed by the rest of the line. */
  function Resume(done: seq<string>, current: string, rest: seq<string>): seq<string>
    requires |rest| >= 1
  {
    done + [current + rest[0]] + rest[1..]
  }

  /** `_parseCSVLine`: one pass over the characters with an `inQuotes` flag. */
  method ParseCsvLine(line: string) returns (fields: seq<string>)
    ensures fields == CsvFields(line)
  {
    var result: seq<string> := [];
    var current := "";
    var inQuotes := false;
    var i := 0;
    assert line[0..] == line;
    assert Resume([], "", CsvFields(line)) == CsvFields(line) by {
      var f := CsvFields(line);
      assert "" + f[0] == f[0];
      assert [f[0]] + f[1..] == f;
    }
    while i < |line|
      invariant 0 <= i <= |line|
      invariant Resume(result, current, Fields(line[i..], inQuotes)) == CsvFields(line)
    {
      var ch := line[i];
      assert line[i..][0] == ch && line[i..][1..] == line[i + 1..];
      var rest := Fields(line[i + 1..], inQuotes);
      if ch == '"' {
        inQuotes := !inQuotes;
      } else if ch == ',' && !inQuotes {
        assert Resume(result, current, [[]] + rest) == Resume(result + [current], "", rest) by {
          assert ([[]] + rest)[1..] == rest == [rest[0]] + rest[1..];
          assert current + [] == current && "" + rest[0] == rest[0];
        }
        result := result + [current];
        current := "";
      } else {
        assert Resume(result, current, [[ch] + rest[0]] + rest[1..]) == Resume(result, current + [ch], rest) by {
          assert current + ([ch] + rest[0]) == current + [ch] + rest[0];
        }
        current := current + [ch];
      }
      i := i + 1;
    }
    assert line[i..] == [];
    assert current + [] == current;
    assert Resume(result, current, [[]]) == result + [current];
    fields := result + [current];
  }

  /** The number of commas met outside quotes, starting in quote state `q`. */
  function Separators(s: string, q: bool): nat
    decreases |s|
  {
    if s == [] then 0
    else (if s[0] == ',' && !q then 1 else 0) + Separators(s[1..], if s[0] == '"' then !q else q)
  }

  /** `s` with every `"` removed. */
  function Unquoted(s: string): (r: string)
    ensures |r| == |s| - Occurrences(s, '"')
    ensures '"' !in r
    decreases |s|
  {
    if s == [] then []
    else if s[0] == '"' then Unquoted(s[1..])
    else [s[0]] + Unquoted(s[1..])
  }

  /** There is one field more than there are commas outside quotes. */
  lemma {:induction false} FieldCount(s: string, q: bool)
    ensures |Fields(s, q)| == 1 + Separators(s, q)
    ensures Separators(s, q) <= Occurrences(s, ',')
    decreases |s|
  {
    if s != [] {
      FieldCount(s[1..], if s[0] == '"' then !q else q);
    }
  }

  /** No field contains a quote character. */
  lemma {:induction false} FieldsHaveNoQuote(s: string, q: bool)
    ensures forall k :: 0 <= k < |Fields(s, q)| ==> '"' !in Fields(s, q)[k]
    decreases |s|
  {
    if s != [] {
      FieldsHaveNoQuote(s[1..], if s[0] == '"' then !q else q);
    }
  }

  lemma JoinConsHead(c: char, t: seq<string>, sep: string)
    requires |t| >= 1
    ensures Join([[c] + t[0]] + t[1..], sep) == [c] + Join(t, sep)
  {
    var u := [[c] + t[0]] + t[1..];
    if |t| > 1 {
      assert u[1..] == t[1..];
    }
  }

  /**
   * Joining the fields with commas gives back the line without its quote
   * characters: separating commas turn back into commas, quoted commas stay
   * inside their field, and quotes vanish.
   */
  lemma {:induction false} FieldsJoin(s: string, q: bool)
    ensures Join(Fields(s, q), ",") == Unquoted(s)
    decreases |s|
  {
    if s != [] {
      var q' := if s[0] == '"' then !q else q;
      FieldsJoin(s[1..], q');
      var t := Fields(s[1..], q');
      if s[0] == '"' {
      } else if s[0] == ',' && !q {
        assert ([[]] + t)[1..] == t;
      } else {
        JoinConsHead(s[0], t, ",");
      }
    }
  }

  /** Without quotes, the tokenizer is a plain split on commas. */
  lemma {:induction false} FieldsWithoutQuotes(s: string)
    requires '"' !in s
    ensures Fields(s, false) == Split(s, ',')
    decreases |s|
  {
    if s != [] {
      FieldsWithoutQuotes(s[1..]);
    }
  }

  /** A doubled quote toggles the quote state twice and contributes nothing. */
  lemma {:induction false} DoubledQuoteVanishes(a: string, b: string, q: bool)
    ensures Fields(a + "\"\"" + b, q) == Fields(a + b, q)
    decreases |a|
  {
    var w := a + "\"\"" + b;
    if a == [] {
      assert w[1..][1..] == b;
      assert a + b == b;
    } else {
      var q' := if a[0] == '"' then !q else q;
      assert w[0] == a[0] && w[1..] == a[1..] + "\"\"" + b;
      assert (a + b)[0] == a[0] && (a + b)[1..] == a[1..] + b;
      DoubledQuoteVanishes(a[1..], b, q');
    }
  }

  // ---------------------------------------------------------------------------
  // Lines and rows

  /** The trimmed, non-empty pieces of a list of raw lines, in order. */
  function NonBlank(raw: seq<string>): (r: seq<string>)
    ensures |r| <= |raw|
    ensures forall k :: 0 <= k < |r| ==> r[k] != [] && Trimmed(r[k])
  {
    if raw == [] then []
    else
      var p := NonBlank(raw[..|raw| - 1]);
      var l := Trim(raw[|raw| - 1]);
      if l == [] then p else p + [l]
  }

  /** `csvText.split('\n').map(l => l.trim()).filter(l => l)`. */
  function Lines(text: string): seq<string> {
    NonBlank(Split(text, '\n'))
  }

  /** `_isValidURL`: the URL parses and its scheme is `http:` or `https:`. */
  predicate IsValidUrl(parse: UrlParser, s: string) {
    match parse(s)
    case None => false
    case Some(u) => IsHttp(u)
  }

  /** The first line is a header iff, lower-cased, it mentions `url` or `loc`. */
  predicate HasHeader(first: string) {
    Contains(ToLower(first), "url") || Contains(ToLower(first), "loc")
  }

  /** `cols[k] ? cols[k].trim() : ''`. */
  function Column(cols: seq<string>, k: nat): (r: string)
    ensures Trimmed(r)
  {
    if k < |cols| && cols[k] != [] then Trim(cols[k]) else ""
  }

  /** The error message for the data line at index `i` of the non-blank lines. */
  function RowError(i: nat, url: string): string {
    "Row " + NatToString(i + 1) + ": Invalid URL \U{2014} " + url
  }

  /** What one data line contributes. */
  datatype Outcome = Blank | Good(entry: Entry) | Bad(message: string)

  /** The body of the `for` loop of `parseCSV` for line `i`. */
  function RowOutcome(parse: UrlParser, line: string, i: nat): (r: Outcome)
    ensures r.Blank? <==> Column(CsvFields(line), 0) == []
    ensures r.Bad? <==> Column(CsvFields(line), 0) != [] && !IsValidUrl(parse, Column(CsvFields(line), 0))
    ensures r.Bad? ==> r.message == RowError(i, Column(CsvFields(line), 0))
    ensures r.Good? ==> r.entry.loc == Column(CsvFields(line), 0) && r.entry.loc != [] && IsValidUrl(parse, r.entry.loc)
  {
    var cols := CsvFields(line);
    var url := Column(cols, 0);
    if url == [] then Blank
    else if !IsValidUrl(parse, url) then Bad(RowError(i, url))
    else Good(Entry(url, Column(cols, 1), Column(cols, 2), Column(cols, 3)))
  }

  /** What `parseCSV` returns on success. */
  datatype Parsed = Parsed(entries: seq<Entry>, errors: seq<string>)

  /** The entries and errors of the data lines `lines[start..end]`. */
  function Rows(parse: UrlParser, lines: seq<string>, start: nat, end: nat): (r: Parsed)
    requires start <= end <= |lines|
    ensures forall k :: 0 <= k < |r.entries| ==> r.entries[k].loc != [] && IsValidUrl(parse, r.entries[k].loc)
    decreases end - start
  {
    if end == start then Parsed([], [])
    else
      var p := Rows(parse, lines, start, end - 1);
      match RowOutcome(parse, lines[end - 1], end - 1)
      case Blank => p
      case Good(e) => Parsed(p.entries + [e], p.errors)
      case Bad(m) => Parsed(p.entries, p.errors + [m])
  }

  const TooFewLines := "CSV must have a header row and at least one data row"

  /** The whole of `parseCSV`, with the exception as `Err`. */
  function ParseCsvSpec(parse: UrlParser, text: string): Result<Parsed, string> {
    var lines := Lines(text);
    if |lines| < 2 then Err(TooFewLines)
    else Ok(Rows(parse, lines, if HasHeader(lines[0]) then 1 else 0, |lines|))
  }

  /** `parseCSV`: split into lines, skip a header if there is one, and classify every data line. */
  method ParseCsv(parse: UrlParser, text: string) returns (r: Result<Parsed, string>)
    ensures r == ParseCsvSpec(parse, text)
    ensures r.Err? <==> |Lines(text)| < 2
  {
    var lines := Lines(text);
    if |lines| < 2 {
      return Err(TooFewLines);
    }
    var startIdx := if HasHeader(lines[0]) then 1 else 0;
    var entries: seq<Entry> := [];
    var errors: seq<string> := [];
    var i := startIdx;
    while i < |lines|
      invariant startIdx <= i <= |lines|
      invariant Parsed(entries, errors) == Rows(parse, lines, startIdx, i)
    {
      var outcome := ParseRow(parse, lines[i], i);
      if outcome.Bad? {
        errors := errors + [outcome.message];
      } else if outcome.Good? {
        entries := entries + [outcome.entry];
      }
      i := i + 1;
    }
    return Ok(Parsed(entries, errors));
  }

  /** One iteration of the row loop of `parseCSV`. */
  method ParseRow(parse: UrlParser, line: string, i: nat) returns (r: Outcome)
    ensures r == RowOutcome(parse, line, i)
  {
    var cols := ParseCsvLine(line);
    var url := if |cols| > 0 && cols[0] != [] then Trim(cols[0]) else "";
    if url == [] {
      r := Blank;
    } else if !IsValidUrl(parse, url) {
      r := Bad(RowError(i, url));
    } else {
      r := Good(Entry(url, Column(cols, 1), Column(cols, 2), Column(cols, 3)));
    }
  }

  /** Each data line yields at most one entry or one error. */
  lemma {:induction false} RowsBounded(parse: UrlParser, lines: seq<string>, start: nat, end: nat)
    requires start <= end <= |lines|
    ensures |Rows(parse, lines, start, end).entries| + |Rows(parse, lines, start, end).errors| <= end - start
    decreases end - start
  {
    if end > start {
      RowsBounded(parse, lines, start, end - 1);
    }
  }

  /** Every entry's `loc` is trimmed, and absent columns become empty strings. */
  lemma {:induction false} RowsEntriesTrimmed(parse: UrlParser, lines: seq<string>, start: nat, end: nat)
    requires start <= end <= |lines|
    ensures forall e :: e in Rows(parse, lines, start, end).entries ==>
      Trimmed(e.loc) && Trimmed(e.lastmod) && Trimmed(e.changefreq) && Trimmed(e.priority)
    decreases end - start
  {
    if end > start {
      RowsEntriesTrimmed(parse, lines, start, end - 1);
    }
  }

  /** A well-formed input: the number of entries plus errors is at most the number of data lines. */
  lemma ParseCsvBounded(parse: UrlParser, text: string)
    ensures var r := ParseCsvSpec(parse, text);
      r.Ok? ==> |r.value.entries| + |r.value.errors| <= |Lines(text)| - (if HasHeader(Lines(text)[0]) then 1 else 0)
  {
    var lines := Lines(text);
    if |lines| >= 2 {
      RowsBounded(parse, lines, if HasHeader(lines[0]) then 1 else 0, |lines|);
    }
  }
}
