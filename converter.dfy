/**
 * The export encoders: formula sanitising and quoting for CSV, entity
 * escaping for XML and HTML, and the three serialisers `toCSV`, `toXML`
 * and `toXLS` (an HTML table that spreadsheet programs open).
 */
module Converter {
  import opened Text
  import opened Sitemap
  import Parser

  // ---------------------------------------------------------------------
  // Formula sanitising
  // ---------------------------------------------------------------------

  /** A first character that makes a spreadsheet read the cell as a formula. */
  predicate FormulaStart(c: char) {
    c == '=' || c == '+' || c == '-' || c == '@' || c == '\t' || c == '\r'
  }

  /**
   * `_sanitize`: the empty value stays empty; a value that would start a
   * formula gets a leading apostrophe; anything else is kept.
   */
  function Sanitize(val: string): (r: string)
    ensures val == [] ==> r == []
    ensures r == [] || !FormulaStart(r[0])
    ensures r == "'" + val <==> val != [] && FormulaStart(val[0])
    ensures r == val <==> !(val != [] && FormulaStart(val[0]))
  {
    if val == [] then []
    else if FormulaStart(val[0]) then "'" + val
    else val
  }

  // ---------------------------------------------------------------------
  // CSV quoting
  // ---------------------------------------------------------------------

  /** A value that must be quoted: it holds a comma, a quote or a newline. */
  predicate NeedsQuotes(s: string) {
    ',' in s || '"' in s || '\n' in s
  }

  /** Every `"` written twice. */
  function DoubleQuotes(s: string): (r: string)
    ensures '"' !in s ==> r == s
    decreases |s|
  {
    if s == [] then []
    else (if s[0] == '"' then "\"\"" else [s[0]]) + DoubleQuotes(s[1..])
  }

  /** The `escape` closure of `toCSV`. */
  function CsvEscape(s: string): (r: string)
    ensures NeedsQuotes(s) ==> |r| >= 2 && r[0] == '"' && r[|r| - 1] == '"'
    ensures !NeedsQuotes(s) ==> r == s
  {
    if NeedsQuotes(s) then "\"" + DoubleQuotes(s) + "\"" else s
  }

  /** Doubling adds one character per quote and keeps the set of characters. */
  lemma {:induction false} DoubleQuotesShape(s: string)
    ensures |DoubleQuotes(s)| == |s| + Occurrences(s, '"')
    ensures forall c :: c in DoubleQuotes(s) <==> c in s
    decreases |s|
  {
    if s != [] {
      DoubleQuotesShape(s[1..]);
      assert s == [s[0]] + s[1..];
    }
  }

  /**
   * A value is quoted exactly when it holds a comma, a quote or a newline;
   * quoting adds the two quotes and one more per inner quote, and no
   * character other than `"` is added or lost.
   */
  lemma CsvEscapeShape(s: string)
    ensures var r := CsvEscape(s);
      (|r| >= 2 && r[0] == '"' && r[|r| - 1] == '"') <==> NeedsQuotes(s)
    ensures NeedsQuotes(s) ==> |CsvEscape(s)| == |s| + Occurrences(s, '"') + 2
    ensures forall c :: c != '"' ==> (c in CsvEscape(s) <==> c in s)
  {
    DoubleQuotesShape(s);
  }

  /** Each `""` read back as one `"`. */
  function UndoubleQuotes(t: string): string
    decreases |t|
  {
    if t == [] then []
    else if |t| >= 2 && t[0] == '"' && t[1] == '"' then "\"" + UndoubleQuotes(t[2..])
    else [t[0]] + UndoubleQuotes(t[1..])
  }

  /** Reading one escaped value back: strip the surrounding quotes and undouble. */
  function CsvUnescape(r: string): string {
    if |r| >= 2 && r[0] == '"' && r[|r| - 1] == '"' then UndoubleQuotes(r[1..|r| - 1]) else r
  }

  lemma {:induction false} UndoubleDouble(s: string)
    ensures UndoubleQuotes(DoubleQuotes(s)) == s
    decreases |s|
  {
    if s != [] {
      UndoubleDouble(s[1..]);
      var d, rest := DoubleQuotes(s), DoubleQuotes(s[1..]);
      if s[0] == '"' {
        assert d == "\"\"" + rest;
        assert d[2..] == rest;
        assert UndoubleQuotes(d) == "\"" + UndoubleQuotes(rest);
      } else {
        assert d == [s[0]] + rest;
        assert d[1..] == rest;
        assert UndoubleQuotes(d) == [s[0]] + UndoubleQuotes(rest);
      }
      assert [s[0]] + s[1..] == s;
    }
  }

  /** Unquoting inverts `CsvEscape`. */
  lemma CsvEscapeRoundTrip(s: string)
    ensures CsvUnescape(CsvEscape(s)) == s
  {
    var r := CsvEscape(s);
    if NeedsQuotes(s) {
      assert r[1..|r| - 1] == DoubleQuotes(s);
      UndoubleDouble(s);
    }
  }

  // ---------------------------------------------------------------------
  // Entity escaping
  // ---------------------------------------------------------------------

  /** `s.replace(/c/g, rep)`. */
  function ReplaceChar(s: string, c: char, rep: string): (r: string)
    ensures c !in s ==> r == s
    decreases |s|
  {
    if s == [] then []
    else (if s[0] == c then rep else [s[0]]) + ReplaceChar(s[1..], c, rep)
  }

  /** A character is in the result iff it is kept from `s` or comes from a replacement. */
  lemma {:induction false} ReplaceCharHas(s: string, c: char, rep: string, x: char)
    ensures x in ReplaceChar(s, c, rep) <==> (x != c && x in s) || (c in s && x in rep)
    decreases |s|
  {
    if s != [] {
      ReplaceCharHas(s[1..], c, rep, x);
      assert s == [s[0]] + s[1..];
    }
  }

  /** A character no replacement holds is in the result iff it is kept from `s`. */
  lemma ReplaceCharKeeps(s: string, c: char, rep: string, x: char)
    requires x !in rep
    ensures x in ReplaceChar(s, c, rep) <==> x != c && x in s
  {
    ReplaceCharHas(s, c, rep, x);
  }

  /** The entities hold no markup character and no newline. */
  lemma EntitiesPlain()
    ensures forall e | e in ["&amp;", "&lt;", "&gt;", "&quot;", "&apos;"] ::
      '<' !in e && '>' !in e && '"' !in e && '\'' !in e && '\n' !in e
  {
  }

  lemma {:induction false} ReplaceCharAppend(a: string, b: string, c: char, rep: string)
    ensures ReplaceChar(a + b, c, rep) == ReplaceChar(a, c, rep) + ReplaceChar(b, c, rep)
    decreases |a|
  {
    if a == [] {
      assert a + b == b;
    } else {
      assert (a + b)[1..] == a[1..] + b;
      ReplaceCharAppend(a[1..], b, c, rep);
    }
  }

  /** `_escapeXml`: the five replacements, `&` first. */
  function EscapeXml(s: string): (r: string)
    ensures '<' !in r && '>' !in r && '"' !in r && '\'' !in r
    ensures '\n' in r <==> '\n' in s
  {
    XmlChainMarkup(s, '<');
    XmlChainMarkup(s, '>');
    XmlChainQuotes(s);
    XmlChainNewline(s);
    ReplaceChar(ReplaceChar(ReplaceChar(ReplaceChar(ReplaceChar(
      s, '&', "&amp;"), '<', "&lt;"), '>', "&gt;"), '"', "&quot;"), '\'', "&apos;")
  }

  /** After the five replacements no angle bracket is left. */
  lemma XmlChainMarkup(s: string, x: char)
    requires x == '<' || x == '>'
    ensures x !in ReplaceChar(ReplaceChar(ReplaceChar(ReplaceChar(ReplaceChar(
      s, '&', "&amp;"), '<', "&lt;"), '>', "&gt;"), '"', "&quot;"), '\'', "&apos;")
  {
    var a := ReplaceChar(s, '&', "&amp;");
    var b := ReplaceChar(a, '<', "&lt;");
    var c := ReplaceChar(b, '>', "&gt;");
    var d := ReplaceChar(c, '"', "&quot;");
    EntitiesPlain();
    ReplaceCharKeeps(a, '<', "&lt;", x);
    ReplaceCharKeeps(b, '>', "&gt;", x);
    ReplaceCharKeeps(c, '"', "&quot;", x);
    ReplaceCharKeeps(d, '\'', "&apos;", x);
  }

  /** After the five replacements no quote is left. */
  lemma XmlChainQuotes(s: string)
    ensures var r := ReplaceChar(ReplaceChar(ReplaceChar(ReplaceChar(ReplaceChar(
        s, '&', "&amp;"), '<', "&lt;"), '>', "&gt;"), '"', "&quot;"), '\'', "&apos;");
      '"' !in r && '\'' !in r
  {
    var c := ReplaceChar(ReplaceChar(ReplaceChar(s, '&', "&amp;"), '<', "&lt;"), '>', "&gt;");
    var d := ReplaceChar(c, '"', "&quot;");
    EntitiesPlain();
    ReplaceCharKeeps(c, '"', "&quot;", '"');
    ReplaceCharKeeps(d, '\'', "&apos;", '"');
    ReplaceCharKeeps(d, '\'', "&apos;", '\'');
  }

  /** None of the five replacements adds or removes a newline. */
  lemma XmlChainNewline(s: string)
    ensures var r := ReplaceChar(ReplaceChar(ReplaceChar(ReplaceChar(ReplaceChar(
        s, '&', "&amp;"), '<', "&lt;"), '>', "&gt;"), '"', "&quot;"), '\'', "&apos;");
      '\n' in r <==> '\n' in s
  {
    var a := ReplaceChar(s, '&', "&amp;");
    var b := ReplaceChar(a, '<', "&lt;");
    var c := ReplaceChar(b, '>', "&gt;");
    var d := ReplaceChar(c, '"', "&quot;");
    EntitiesPlain();
    ReplaceCharKeeps(s, '&', "&amp;", '\n');
    ReplaceCharKeeps(a, '<', "&lt;", '\n');
    ReplaceCharKeeps(b, '>', "&gt;", '\n');
    ReplaceCharKeeps(c, '"', "&quot;", '\n');
    ReplaceCharKeeps(d, '\'', "&apos;", '\n');
  }

  /** `_escapeHtml` (and the comparer's `_esc`): only `&`, `<` and `>`. */
  function EscapeHtml(s: string): (r: string)
    ensures '<' !in r && '>' !in r
    ensures '\n' in r <==> '\n' in s
    ensures '&' !in s && '<' !in s && '>' !in s ==> r == s
  {
    var a := ReplaceChar(s, '&', "&amp;");
    var b := ReplaceChar(a, '<', "&lt;");
    EntitiesPlain();
    ReplaceCharKeeps(s, '&', "&amp;", '\n');
    ReplaceCharKeeps(a, '<', "&lt;", '\n');
    ReplaceCharKeeps(b, '>', "&gt;", '\n');
    ReplaceCharKeeps(a, '<', "&lt;", '<');
    ReplaceCharKeeps(b, '>', "&gt;", '<');
    ReplaceCharKeeps(b, '>', "&gt;", '>');
    ReplaceChar(b, '>', "&gt;")
  }

  /** What `EscapeXml` writes for one character. */
  function XmlEntity(c: char): string {
    if c == '&' then "&amp;"
    else if c == '<' then "&lt;"
    else if c == '>' then "&gt;"
    else if c == '"' then "&quot;"
    else if c == '\'' then "&apos;"
    else [c]
  }

  /** What `EscapeHtml` writes for one character. */
  function HtmlEntity(c: char): string {
    if c == '&' then "&amp;"
    else if c == '<' then "&lt;"
    else if c == '>' then "&gt;"
    else [c]
  }

  /** Character-by-character XML escaping. */
  function XmlEscaped(s: string): (r: string)
    ensures '<' !in r && '>' !in r && '"' !in r && '\'' !in r
    ensures '\n' in r <==> '\n' in s
    decreases |s|
  {
    if s == [] then [] else XmlEntitySafe(s[0]); XmlEntity(s[0]) + XmlEscaped(s[1..])
  }

  /** One character's entity holds none of the escaped characters, and a newline only for a newline. */
  lemma XmlEntitySafe(c: char)
    ensures var r := XmlEntity(c); '<' !in r && '>' !in r && '"' !in r && '\'' !in r
    ensures '\n' in XmlEntity(c) <==> c == '\n'
  {
  }

  /** Character-by-character HTML escaping. */
  function HtmlEscaped(s: string): (r: string)
    ensures '<' !in r && '>' !in r
    ensures |r| >= |s|
    ensures |r| == |s| <==> '&' !in s && '<' !in s && '>' !in s
    decreases |s|
  {
    if s == [] then [] else HtmlEntity(s[0]) + HtmlEscaped(s[1..])
  }

  lemma ReplaceOne(c: char, d: char, rep: string)
    ensures ReplaceChar([c], d, rep) == if c == d then rep else [c]
  {
    assert [c][1..] == [];
  }

  /** The replacements after the first leave alone a string with none of their characters. */
  lemma LaterStagesKeep(s: string)
    requires '<' !in s && '>' !in s && '"' !in s && '\'' !in s
    ensures ReplaceChar(ReplaceChar(ReplaceChar(ReplaceChar(
      s, '<', "&lt;"), '>', "&gt;"), '"', "&quot;"), '\'', "&apos;") == s
  {
  }

  lemma EscapeXmlOne(c: char)
    ensures EscapeXml([c]) == XmlEntity(c)
  {
    ReplaceOne(c, '&', "&amp;");
    if c == '&' {
      LaterStagesKeep("&amp;");
    } else {
      ReplaceOne(c, '<', "&lt;");
      if c == '<' {
        LaterStagesKeep("&lt;");
      } else {
        ReplaceOne(c, '>', "&gt;");
        if c == '>' {
          LaterStagesKeep("&gt;");
        } else {
          ReplaceOne(c, '"', "&quot;");
          if c == '"' {
            LaterStagesKeep("&quot;");
          } else {
            ReplaceOne(c, '\'', "&apos;");
          }
        }
      }
    }
  }

  lemma EscapeHtmlOne(c: char)
    ensures EscapeHtml([c]) == HtmlEntity(c)
  {
    EntitiesPlain();
    ReplaceOne(c, '&', "&amp;");
    if c == '&' {
      assert ReplaceChar("&amp;", '<', "&lt;") == "&amp;";
      assert ReplaceChar("&amp;", '>', "&gt;") == "&amp;";
    } else {
      ReplaceOne(c, '<', "&lt;");
      if c == '<' {
        assert ReplaceChar("&lt;", '>', "&gt;") == "&lt;";
      } else {
        ReplaceOne(c, '>', "&gt;");
      }
    }
  }

  lemma EscapeXmlAppend(a: string, b: string)
    ensures EscapeXml(a + b) == EscapeXml(a) + EscapeXml(b)
  {
    var s1 := ReplaceChar(a, '&', "&amp;");
    var t1 := ReplaceChar(b, '&', "&amp;");
    ReplaceCharAppend(a, b, '&', "&amp;");
    var s2 := ReplaceChar(s1, '<', "&lt;");
    var t2 := ReplaceChar(t1, '<', "&lt;");
    ReplaceCharAppend(s1, t1, '<', "&lt;");
    var s3 := ReplaceChar(s2, '>', "&gt;");
    var t3 := ReplaceChar(t2, '>', "&gt;");
    ReplaceCharAppend(s2, t2, '>', "&gt;");
    var s4 := ReplaceChar(s3, '"', "&quot;");
    var t4 := ReplaceChar(t3, '"', "&quot;");
    ReplaceCharAppend(s3, t3, '"', "&quot;");
    ReplaceCharAppend(s4, t4, '\'', "&apos;");
  }

  lemma EscapeHtmlAppend(a: string, b: string)
    ensures EscapeHtml(a + b) == EscapeHtml(a) + EscapeHtml(b)
  {
    var s1 := ReplaceChar(a, '&', "&amp;");
    var t1 := ReplaceChar(b, '&', "&amp;");
    ReplaceCharAppend(a, b, '&', "&amp;");
    var s2 := ReplaceChar(s1, '<', "&lt;");
    var t2 := ReplaceChar(t1, '<', "&lt;");
    ReplaceCharAppend(s1, t1, '<', "&lt;");
    ReplaceCharAppend(s2, t2, '>', "&gt;");
  }

  /** The chain of replacements escapes each character on its own. */
  lemma {:induction false} EscapeXmlCharwise(s: string)
    ensures EscapeXml(s) == XmlEscaped(s)
    decreases |s|
  {
    if s != [] {
      assert s == [s[0]] + s[1..];
      EscapeXmlAppend([s[0]], s[1..]);
      EscapeXmlOne(s[0]);
      EscapeXmlCharwise(s[1..]);
    }
  }

  /** The chain of replacements escapes each character on its own. */
  lemma {:induction false} EscapeHtmlCharwise(s: string)
    ensures EscapeHtml(s) == HtmlEscaped(s)
    decreases |s|
  {
    if s != [] {
      assert s == [s[0]] + s[1..];
      EscapeHtmlAppend([s[0]], s[1..]);
      EscapeHtmlOne(s[0]);
      EscapeHtmlCharwise(s[1..]);
    }
  }

  /** No `<`, `>`, `"` or `'` survives XML escaping; newlines pass through. */
  /** HTML escaping changes exactly the strings holding `&`, `<` or `>`. */
  lemma EscapeHtmlSafe(s: string)
    ensures EscapeHtml(s) == s <==> '&' !in s && '<' !in s && '>' !in s
  {
    EscapeHtmlCharwise(s);
  }

  // ---------------------------------------------------------------------
  // Decoding the entities
  // ---------------------------------------------------------------------

  /** Decodes the five XML entities, scanning left to right. */
  function UnescapeXml(t: string): string
    decreases |t|
  {
    if t == [] then []
    else if StartsWith(t, "&amp;") then "&" + UnescapeXml(t[5..])
    else if StartsWith(t, "&lt;") then "<" + UnescapeXml(t[4..])
    else if StartsWith(t, "&gt;") then ">" + UnescapeXml(t[4..])
    else if StartsWith(t, "&quot;") then "\"" + UnescapeXml(t[6..])
    else if StartsWith(t, "&apos;") then "'" + UnescapeXml(t[6..])
    else [t[0]] + UnescapeXml(t[1..])
  }

  /** A string does not start with a prefix whose first character differs from its own. */
  lemma FirstDiffers(t: string, p: string)
    requires t != [] && p != [] && t[0] != p[0]
    ensures !StartsWith(t, p)
  {
    if |p| <= |t| {
      assert t[..|p|][0] == t[0];
    }
  }

  /** Any character other than `&` is copied by the decoder. */
  lemma UnescapePlain(c: char, rest: string)
    requires c != '&'
    ensures UnescapeXml([c] + rest) == [c] + UnescapeXml(rest)
  {
    var t := [c] + rest;
    assert t[0] == c && t[1..] == rest;
    FirstDiffers(t, "&amp;");
    FirstDiffers(t, "&lt;");
    FirstDiffers(t, "&gt;");
    FirstDiffers(t, "&quot;");
    FirstDiffers(t, "&apos;");
  }

  /** A string does not start with a prefix it differs from at some position. */
  lemma DiffersAt(t: string, p: string, i: nat)
    requires i < |t| && i < |p| && t[i] != p[i]
    ensures !StartsWith(t, p)
  {
    if |p| <= |t| {
      assert t[..|p|][i] == t[i];
    }
  }

  lemma UnescapeAmp(rest: string)
    ensures UnescapeXml("&amp;" + rest) == "&" + UnescapeXml(rest)
  {
    var t := "&amp;" + rest;
    assert t[..5] == "&amp;" && t[5..] == rest;
  }

  lemma UnescapeLt(rest: string)
    ensures UnescapeXml("&lt;" + rest) == "<" + UnescapeXml(rest)
  {
    var t := "&lt;" + rest;
    assert t[..4] == "&lt;" && t[4..] == rest;
    DiffersAt(t, "&amp;", 1);
  }

  lemma UnescapeGt(rest: string)
    ensures UnescapeXml("&gt;" + rest) == ">" + UnescapeXml(rest)
  {
    var t := "&gt;" + rest;
    assert t[..4] == "&gt;" && t[4..] == rest;
    DiffersAt(t, "&amp;", 1);
    DiffersAt(t, "&lt;", 1);
  }

  lemma UnescapeQuot(rest: string)
    ensures UnescapeXml("&quot;" + rest) == "\"" + UnescapeXml(rest)
  {
    var t := "&quot;" + rest;
    assert t[..6] == "&quot;" && t[6..] == rest;
    DiffersAt(t, "&amp;", 1);
    DiffersAt(t, "&lt;", 1);
    DiffersAt(t, "&gt;", 1);
  }

  lemma UnescapeApos(rest: string)
    ensures UnescapeXml("&apos;" + rest) == "'" + UnescapeXml(rest)
  {
    var t := "&apos;" + rest;
    assert t[..6] == "&apos;" && t[6..] == rest;
    DiffersAt(t, "&amp;", 2);
    DiffersAt(t, "&lt;", 1);
    DiffersAt(t, "&gt;", 1);
    DiffersAt(t, "&quot;", 1);
  }

  /** The decoder reads back the entity of one character. */
  lemma UnescapeEntity(c: char, rest: string)
    ensures UnescapeXml(XmlEntity(c) + rest) == [c] + UnescapeXml(rest)
  {
    if c == '&' {
      UnescapeAmp(rest);
    } else if c == '<' {
      UnescapeLt(rest);
    } else if c == '>' {
      UnescapeGt(rest);
    } else if c == '"' {
      UnescapeQuot(rest);
    } else if c == '\'' {
      UnescapeApos(rest);
    } else {
      UnescapePlain(c, rest);
    }
  }

  /** Decoding the entities gives back the escaped text, because `&` is replaced first. */
  lemma {:induction false} EscapeXmlRoundTrip(s: string)
    ensures UnescapeXml(EscapeXml(s)) == s
    decreases |s|
  {
    EscapeXmlCharwise(s);
    if s != [] {
      EscapeXmlRoundTrip(s[1..]);
      EscapeXmlCharwise(s[1..]);
      UnescapeEntity(s[0], XmlEscaped(s[1..]));
      assert [s[0]] + s[1..] == s;
    }
  }

  /** The same decoder inverts HTML escaping. */
  lemma {:induction false} EscapeHtmlRoundTrip(s: string)
    ensures UnescapeXml(EscapeHtml(s)) == s
    decreases |s|
  {
    EscapeHtmlCharwise(s);
    HtmlEscapedRoundTrip(s);
  }

  lemma {:induction false} HtmlEscapedRoundTrip(s: string)
    ensures UnescapeXml(HtmlEscaped(s)) == s
    decreases |s|
  {
    if s != [] {
      var c, r := s[0], HtmlEscaped(s[1..]);
      HtmlEscapedRoundTrip(s[1..]);
      assert HtmlEscaped(s) == HtmlEntity(c) + r;
      if c == '&' || c == '<' || c == '>' {
        assert HtmlEntity(c) == XmlEntity(c);
        UnescapeEntity(c, r);
      } else {
        assert HtmlEntity(c) == [c];
        UnescapePlain(c, r);
      }
      assert [c] + s[1..] == s;
    }
  }

  /** Every `&` in escaped XML starts one of the five entities. */
  predicate EntityAt(r: string, i: nat)
    requires i < |r|
  {
    var t := r[i..];
    StartsWith(t, "&amp;") || StartsWith(t, "&lt;") || StartsWith(t, "&gt;")
    || StartsWith(t, "&quot;") || StartsWith(t, "&apos;")
  }

  lemma {:induction false} AmpersandsStartEntities(s: string)
    ensures forall i :: 0 <= i < |XmlEscaped(s)| && XmlEscaped(s)[i] == '&' ==> EntityAt(XmlEscaped(s), i)
    decreases |s|
  {
    if s != [] {
      AmpersandsStartEntities(s[1..]);
      var e := XmlEntity(s[0]);
      var rest := XmlEscaped(s[1..]);
      var r := e + rest;
      forall i | 0 <= i < |r| && r[i] == '&'
        ensures EntityAt(r, i)
      {
        if i < |e| {
          assert i == 0;
          assert r[..|e|] == e;
        } else {
          assert r[i..] == rest[i - |e|..];
        }
      }
    }
  }

  // ---------------------------------------------------------------------
  // toCSV
  // ---------------------------------------------------------------------

  const CsvHeaders: seq<string> := ["URL", "Last Modified", "Change Frequency", "Priority"]

  /** The four sanitised cells of one entry. */
  function Cells(e: Entry): seq<string> {
    [Sanitize(e.loc), Sanitize(e.lastmod), Sanitize(e.changefreq), Sanitize(e.priority)]
  }

  /** `row.map(escape)`. */
  function EscapeCells(cells: seq<string>): (r: seq<string>)
    ensures |r| == |cells|
    ensures forall i :: 0 <= i < |r| ==> CsvUnescape(r[i]) == cells[i]
    decreases |cells|
  {
    if cells == [] then []
    else
      CsvEscapeRoundTrip(cells[0]);
      [CsvEscape(cells[0])] + EscapeCells(cells[1..])
  }

  /** One CSV record: the escaped cells joined with commas. */
  function CsvRecord(cells: seq<string>): string {
    Join(EscapeCells(cells), ",")
  }

  /** The records of the entries, in order. */
  function CsvRecords(es: seq<Entry>): (r: seq<string>)
    ensures |r| == |es|
    decreases |es|
  {
    if es == [] then [] else CsvRecords(es[..|es| - 1]) + [CsvRecord(Cells(es[|es| - 1]))]
  }

  /**
   * The header line followed by one record per entry. The header is the
   * titles joined by commas: escaping leaves them as they are (`CsvHeaderLine`).
   */
  function CsvLines(es: seq<Entry>): seq<string> {
    [Join(CsvHeaders, ",")] + CsvRecords(es)
  }

  function CsvDocument(es: seq<Entry>): string {
    Join(CsvLines(es), "\n")
  }

  lemma CsvRecordsPrefix(es: seq<Entry>, i: nat)
    requires i < |es|
    ensures CsvRecords(es[..i + 1]) == CsvRecords(es[..i]) + [CsvRecord(Cells(es[i]))]
  {
    assert es[..i + 1][..i] == es[..i];
  }

  /** `toCSV`: collects the lines, then joins them with newlines. */
  method ToCsv(entries: seq<Entry>) returns (csv: string)
    ensures csv == CsvDocument(entries)
  {
    var lines := [Join(CsvHeaders, ",")];
    for i := 0 to |entries|
      invariant lines == [Join(CsvHeaders, ",")] + CsvRecords(entries[..i])
    {
      CsvRecordsPrefix(entries, i);
      lines := lines + [CsvRecord(Cells(entries[i]))];
    }
    assert entries[..|entries|] == entries;
    assert lines == CsvLines(entries);
    csv := Join(lines, "\n");
  }

  /** No column title needs quoting, so escaping leaves the header line as the titles joined by commas. */
  lemma CsvHeaderLine(titles: seq<string>)
    requires titles == CsvHeaders
    ensures CsvRecord(titles) == Join(titles, ",")
  {
    forall k | 0 <= k < |titles|
      ensures !NeedsQuotes(titles[k])
    {
    }
    PlainRecord(titles);
  }

  /** A record of cells that need no quoting is the cells joined with commas. */
  lemma PlainRecord(cells: seq<string>)
    requires forall k :: 0 <= k < |cells| ==> !NeedsQuotes(cells[k])
    ensures CsvRecord(cells) == Join(cells, ",")
  {
    EscapeCellsPlain(cells);
  }

  /** Cells that need no quoting are written as they are. */
  lemma {:induction false} EscapeCellsPlain(cells: seq<string>)
    requires forall k :: 0 <= k < |cells| ==> !NeedsQuotes(cells[k])
    ensures EscapeCells(cells) == cells
    decreases |cells|
  {
    if cells != [] {
      EscapeCellsPlain(cells[1..]);
      assert [cells[0]] + cells[1..] == cells;
    }
  }

  /** A join of pieces free of `c`, with a separator free of `c`, is free of `c`. */
  lemma {:induction false} JoinAvoids(parts: seq<string>, sep: string, c: char)
    requires c !in sep
    requires forall k :: 0 <= k < |parts| ==> c !in parts[k]
    ensures c !in Join(parts, sep)
    decreases |parts|
  {
    if |parts| > 1 {
      JoinAvoids(parts[1..], sep, c);
    }
  }

  /** No field of the entry holds a newline. */
  predicate SingleLine(e: Entry) {
    '\n' !in e.loc && '\n' !in e.lastmod && '\n' !in e.changefreq && '\n' !in e.priority
  }

  lemma RecordSingleLine(cells: seq<string>)
    requires forall k :: 0 <= k < |cells| ==> '\n' !in cells[k]
    ensures '\n' !in CsvRecord(cells)
  {
    var r := EscapeCells(cells);
    forall k | 0 <= k < |r|
      ensures '\n' !in r[k]
    {
      EscapeCellsAt(cells, k);
      CsvEscapeShape(cells[k]);
    }
    JoinAvoids(r, ",", '\n');
  }

  lemma {:induction false} EscapeCellsAt(cells: seq<string>, k: nat)
    requires k < |cells|
    ensures EscapeCells(cells)[k] == CsvEscape(cells[k])
    decreases k
  {
    assert EscapeCells(cells) == [CsvEscape(cells[0])] + EscapeCells(cells[1..]);
    if k > 0 {
      EscapeCellsAt(cells[1..], k - 1);
      assert cells[1..][k - 1] == cells[k];
    }
  }

  lemma {:induction false} RecordsSingleLine(es: seq<Entry>)
    requires forall i :: 0 <= i < |es| ==> SingleLine(es[i])
    ensures forall k :: 0 <= k < |CsvRecords(es)| ==> '\n' !in CsvRecords(es)[k]
    decreases |es|
  {
    if es != [] {
      var p := es[..|es| - 1];
      RecordsSingleLine(p);
      var e := es[|es| - 1];
      RecordSingleLine(Cells(e));
    }
  }

  /**
   * When no value holds a newline, splitting the CSV text on newlines gives
   * the header line followed by exactly one record per entry, in order.
   */
  lemma CsvDocumentLines(es: seq<Entry>)
    requires forall i :: 0 <= i < |es| ==> SingleLine(es[i])
    ensures Split(CsvDocument(es), '\n') == CsvLines(es)
    ensures |Split(CsvDocument(es), '\n')| == |es| + 1
  {
    RecordsSingleLine(es);
    HeaderLineSingle(CsvHeaders);
    SplitAfterHeader(Join(CsvHeaders, ","), CsvRecords(es));
  }

  lemma HeaderLineSingle(titles: seq<string>)
    requires titles == CsvHeaders
    ensures '\n' !in Join(titles, ",")
  {
    forall i | 0 <= i < 3 ensures titles[0][i] != '\n' {}
    forall i | 0 <= i < 13 ensures titles[1][i] != '\n' {}
    forall i | 0 <= i < 16 ensures titles[2][i] != '\n' {}
    forall i | 0 <= i < 8 ensures titles[3][i] != '\n' {}
    JoinAvoids(titles, ",", '\n');
  }

  lemma SplitAfterHeader(h: string, records: seq<string>)
    requires '\n' !in h && NoNewline(records)
    ensures Split(Join([h] + records, "\n"), '\n') == [h] + records
  {
    SplitJoin([h] + records, '\n');
  }

  /** A value without `"` or `,` reads through the tokenizer unchanged, in or out of quotes. */
  lemma {:induction false} PlainRun(x: string, rest: string, q: bool)
    requires '"' !in x && (q || ',' !in x)
    ensures Parser.Fields(x + rest, q) == [x + Parser.Fields(rest, q)[0]] + Parser.Fields(rest, q)[1..]
    decreases |x|
  {
    var f := Parser.Fields(rest, q);
    if x == [] {
      assert x + rest == rest;
      assert x + f[0] == f[0];
      assert f == [f[0]] + f[1..];
    } else {
      assert (x + rest)[1..] == x[1..] + rest;
      PlainRun(x[1..], rest, q);
      var t := Parser.Fields(x[1..] + rest, q);
      assert t[0] == x[1..] + f[0];
      assert t[1..] == f[1..];
      assert Parser.Fields(x + rest, q) == [[x[0]] + t[0]] + t[1..];
      assert [x[0]] + (x[1..] + f[0]) == x + f[0];
    }
  }

  /** An escaped value without `"` reads back as itself: the quotes CsvEscape adds are dropped. */
  lemma EscapedRun(x: string, rest: string)
    requires '"' !in x
    ensures Parser.Fields(CsvEscape(x) + rest, false) == [x + Parser.Fields(rest, false)[0]] + Parser.Fields(rest, false)[1..]
  {
    if NeedsQuotes(x) {
      var t := "\"" + rest;
      assert CsvEscape(x) + rest == "\"" + (x + t);
      assert ("\"" + (x + t))[1..] == x + t;
      PlainRun(x, t, true);
      assert t[1..] == rest;
    } else {
      PlainRun(x, rest, false);
    }
  }

  /**
   * A record whose cells hold no `"` is read back by the import tokenizer
   * as exactly those cells.
   */
  lemma {:induction false} CsvRecordReparses(cells: seq<string>)
    requires |cells| >= 1
    requires forall k :: 0 <= k < |cells| ==> '"' !in cells[k]
    ensures Parser.CsvFields(CsvRecord(cells)) == cells
    decreases |cells|
  {
    if |cells| == 1 {
      CsvCellReparses(cells);
    } else {
      CsvRecordReparses(cells[1..]);
      CsvRecordReparsesStep(cells);
    }
  }

  /** A single cell without `"` is read back as itself. */
  lemma CsvCellReparses(cells: seq<string>)
    requires |cells| == 1 && '"' !in cells[0]
    ensures Parser.CsvFields(CsvRecord(cells)) == cells
  {
    var r := EscapeCells(cells);
    EscapeCellsAt(cells, 0);
    EscapedRun(cells[0], []);
    assert CsvRecord(cells) == r[0] == CsvEscape(cells[0]);
    assert CsvEscape(cells[0]) + [] == CsvEscape(cells[0]);
    assert Parser.Fields([], false) == [[]];
    assert cells[0] + [] == cells[0];
    assert [cells[0]] == cells;
  }

  /** The first cell, then a comma, then a record that reads back. */
  lemma CsvRecordReparsesStep(cells: seq<string>)
    requires |cells| >= 2 && '"' !in cells[0]
    requires Parser.CsvFields(CsvRecord(cells[1..])) == cells[1..]
    ensures Parser.CsvFields(CsvRecord(cells)) == cells
  {
    var r := EscapeCells(cells);
    EscapeCellsAt(cells, 0);
    var tail := Join(r[1..], ",");
    assert r[1..] == EscapeCells(cells[1..]);
    assert CsvRecord(cells) == CsvEscape(cells[0]) + ("," + tail);
    EscapedRun(cells[0], "," + tail);
    assert ("," + tail)[1..] == tail;
    assert CsvRecord(cells[1..]) == tail;
    assert Parser.Fields("," + tail, false) == [[]] + Parser.Fields(tail, false);
    assert Parser.Fields(tail, false) == cells[1..];
    assert cells[0] + [] == cells[0];
    assert [cells[0]] + cells[1..] == cells;
  }

  lemma {:induction false} DoubleQuotesAppend(a: string, b: string)
    ensures DoubleQuotes(a + b) == DoubleQuotes(a) + DoubleQuotes(b)
    decreases |a|
  {
    if a == [] {
      assert a + b == b;
    } else {
      assert (a + b)[1..] == a[1..] + b;
      DoubleQuotesAppend(a[1..], b);
      var h := if a[0] == '"' then "\"\"" else [a[0]];
      AppendAssoc(h, DoubleQuotes(a[1..]), DoubleQuotes(b));
    }
  }

  /**
   * The tokenizer does not undo the doubling of quotes: a value holding one
   * `"` comes back without it.
   */
  lemma QuoteNotRestored(a: string, b: string)
    requires '"' !in a && '"' !in b
    ensures Parser.CsvFields(CsvRecord([a + "\"" + b])) == [a + b]
  {
    var q := "\"";
    var x, y := q + a, b + q;
    CsvRecordSingle(a + q + b);
    EscapeOneQuote(a, b);
    Parser.DoubledQuoteVanishes(x, y, false);
    assert x + y == q + (a + b) + q;
    QuotedRun(a + b);
    calc {
      Parser.CsvFields(CsvRecord([a + q + b]));
      Parser.Fields(x + "\"\"" + y, false);
      Parser.Fields(x + y, false);
      Parser.Fields(q + (a + b) + q, false);
      [a + b];
    }
  }

  lemma EscapeOneQuote(a: string, b: string)
    requires '"' !in a && '"' !in b
    ensures CsvEscape(a + "\"" + b) == ("\"" + a) + "\"\"" + (b + "\"")
  {
    var x := a + "\"" + b;
    assert x[|a|] == '"';
    assert NeedsQuotes(x);
    DoubledText(a, b);
  }

  lemma CsvRecordSingle(c: string)
    ensures CsvRecord([c]) == CsvEscape(c)
  {
    assert [c][1..] == [];
  }

  lemma DoubledText(a: string, b: string)
    requires '"' !in a && '"' !in b
    ensures DoubleQuotes(a + "\"" + b) == a + "\"\"" + b
  {
    DoubleQuotesAppend(a + "\"", b);
    DoubleQuotesAppend(a, "\"");
    assert DoubleQuotes("\"") == "\"\"" by {
      assert "\""[1..] == [];
    }
  }

  /** A quoted value without `"` reads back as that value alone. */
  lemma QuotedRun(y: string)
    requires '"' !in y
    ensures Parser.Fields("\"" + y + "\"", false) == [y]
  {
    var q := "\"";
    assert Parser.Fields(q, true) == [[]] by {
      assert q[1..] == [];
    }
    PlainRun(y, q, true);
    assert y + [] == y;
    assert (q + y + q)[1..] == y + q;
  }

  // ---------------------------------------------------------------------
  // toXML
  // ---------------------------------------------------------------------

  const XmlDeclaration := "<?xml version=\"1.0\" encoding=\"UTF-8\"?>"
  const SitemapNamespace := "http://www.sitemaps.org/schemas/sitemap/0.9"
  const UrlsetOpen := "<urlset xmlns=\"" + SitemapNamespace + "\">"
  const UrlsetClose := "</urlset>"
  const UrlOpen := "  <url>"
  const UrlClose := "  </url>"

  /** One text line as written, with its newline. */
  function Line(l: string): string {
    l + "\n"
  }

  /** The indented opening tag of a field element. */
  function ElementOpen(name: string): string {
    "    <" + name + ">"
  }

  /** An element line `    <name>value</name>`, its value escaped. */
  function TagLine(name: string, value: string): string {
    ElementOpen(name) + EscapeXml(value) + "</" + name + ">"
  }

  /** The element line of an optional field: nothing when the value is empty. */
  function OptionalLine(name: string, value: string): string {
    if value == [] then [] else Line(TagLine(name, value))
  }

  /** One `<url>` block: `<loc>` always, the other three fields when non-empty. */
  function UrlBlock(e: Entry): string {
    Line(UrlOpen) + Line(TagLine("loc", e.loc))
    + OptionalLine("lastmod", e.lastmod)
    + OptionalLine("changefreq", e.changefreq)
    + OptionalLine("priority", e.priority)
    + Line(UrlClose)
  }

  /** The blocks of the entries, in order. */
  function UrlBlocks(es: seq<Entry>): string
    decreases |es|
  {
    if es == [] then [] else UrlBlocks(es[..|es| - 1]) + UrlBlock(es[|es| - 1])
  }

  function XmlDocument(es: seq<Entry>): string {
    Line(XmlDeclaration) + Line(UrlsetOpen) + UrlBlocks(es) + UrlsetClose
  }

  /** `xml += piece`, keeping track of what was written since `start`. */
  method Put(xml0: string, ghost start: string, ghost written0: string, piece: string)
    returns (xml: string, ghost written: string)
    requires xml0 == start + written0
    ensures written == written0 + piece
    ensures xml == start + written
  {
    xml := xml0 + piece;
    written := written0 + piece;
    AppendAssoc(start, written0, piece);
  }

  /** `if (value) xml += ...`: the element line of an optional field. */
  method PutOptional(xml0: string, ghost start: string, ghost written0: string, name: string, value: string)
    returns (xml: string, ghost written: string)
    requires xml0 == start + written0
    ensures written == written0 + OptionalLine(name, value)
    ensures xml == start + written
  {
    if value != [] {
      xml, written := Put(xml0, start, written0, Line(TagLine(name, value)));
    } else {
      xml, written := xml0, written0;
      assert written0 + [] == written0;
    }
  }

  /** The body of the `forEach`: writes one `<url>` block. */
  method AppendUrl(xml0: string, e: Entry) returns (xml: string)
    ensures xml == xml0 + UrlBlock(e)
  {
    ghost var w: string;
    xml, w := xml0 + Line(UrlOpen), Line(UrlOpen);
    xml, w := Put(xml, xml0, w, Line(TagLine("loc", e.loc)));
    xml, w := PutOptional(xml, xml0, w, "lastmod", e.lastmod);
    xml, w := PutOptional(xml, xml0, w, "changefreq", e.changefreq);
    xml, w := PutOptional(xml, xml0, w, "priority", e.priority);
    xml, w := Put(xml, xml0, w, Line(UrlClose));
  }

  /** `toXML`: the declaration, the `<urlset>` opening, one block per entry, the closing tag. */
  method ToXml(entries: seq<Entry>) returns (xml: string)
    ensures xml == XmlDocument(entries)
  {
    xml := Line(XmlDeclaration);
    xml := xml + Line(UrlsetOpen);
    ghost var head := xml;
    for i := 0 to |entries|
      invariant xml == head + UrlBlocks(entries[..i])
    {
      assert entries[..i + 1][..i] == entries[..i];
      ghost var blocks := UrlBlocks(entries[..i]);
      xml := AppendUrl(xml, entries[i]);
      AppendAssoc(head, blocks, UrlBlock(entries[i]));
    }
    assert entries[..|entries|] == entries;
    xml := xml + UrlsetClose;
  }

  // The document seen as lines.

  /** The element line of an optional field as a list: empty when the value is empty. */
  function OptionalTag(name: string, value: string): seq<string> {
    if value == [] then [] else [TagLine(name, value)]
  }

  /** The lines of one `<url>` block. */
  function UrlLines(e: Entry): seq<string> {
    [UrlOpen] + [TagLine("loc", e.loc)]
    + OptionalTag("lastmod", e.lastmod)
    + OptionalTag("changefreq", e.changefreq)
    + OptionalTag("priority", e.priority)
    + [UrlClose]
  }

  function BlockLines(es: seq<Entry>): seq<string>
    decreases |es|
  {
    if es == [] then [] else BlockLines(es[..|es| - 1]) + UrlLines(es[|es| - 1])
  }

  /** All lines of the document, the last one without a newline. */
  function XmlLines(es: seq<Entry>): seq<string> {
    [XmlDeclaration, UrlsetOpen] + BlockLines(es) + [UrlsetClose]
  }

  /** Lines written one after the other, each followed by a newline. */
  function Terminated(lines: seq<string>): string
    decreases |lines|
  {
    if lines == [] then [] else Terminated(lines[..|lines| - 1]) + Line(lines[|lines| - 1])
  }

  lemma {:induction false} TerminatedAppend(a: seq<string>, b: seq<string>)
    ensures Terminated(a + b) == Terminated(a) + Terminated(b)
    decreases |b|
  {
    if b == [] {
      assert a + b == a;
    } else {
      var p := b[..|b| - 1];
      TerminatedAppend(a, p);
      assert (a + b)[..|a + b| - 1] == a + p;
      AppendAssoc(Terminated(a), Terminated(p), Line(b[|b| - 1]));
    }
  }

  lemma TerminatedOne(l: string)
    ensures Terminated([l]) == Line(l)
  {
    assert [l][..0] == [];
  }

  lemma TerminatedOptional(name: string, value: string)
    ensures Terminated(OptionalTag(name, value)) == OptionalLine(name, value)
  {
    if value != [] {
      TerminatedOne(TagLine(name, value));
    }
  }

  /** A block is its lines, each followed by a newline. */
  lemma UrlBlockLines(e: Entry)
    ensures UrlBlock(e) == Terminated(UrlLines(e))
  {
    var o1, o2, o3 := OptionalTag("lastmod", e.lastmod), OptionalTag("changefreq", e.changefreq), OptionalTag("priority", e.priority);
    var head := [UrlOpen, TagLine("loc", e.loc)];
    assert head == [UrlOpen] + [TagLine("loc", e.loc)];
    TerminatedAppend([UrlOpen], [TagLine("loc", e.loc)]);
    TerminatedOne(UrlOpen);
    TerminatedOne(TagLine("loc", e.loc));
    TerminatedAppend(head, o1);
    TerminatedOptional("lastmod", e.lastmod);
    TerminatedAppend(head + o1, o2);
    TerminatedOptional("changefreq", e.changefreq);
    TerminatedAppend(head + o1 + o2, o3);
    TerminatedOptional("priority", e.priority);
    TerminatedAppend(head + o1 + o2 + o3, [UrlClose]);
    TerminatedOne(UrlClose);
  }

  lemma {:induction false} UrlBlocksLines(es: seq<Entry>)
    ensures UrlBlocks(es) == Terminated(BlockLines(es))
    decreases |es|
  {
    if es != [] {
      var p := es[..|es| - 1];
      UrlBlocksLines(p);
      UrlBlockLines(es[|es| - 1]);
      TerminatedAppend(BlockLines(p), UrlLines(es[|es| - 1]));
    }
  }

  /** Newline-terminated lines followed by a last line are the lines joined with newlines. */
  lemma {:induction false} TerminatedJoin(lines: seq<string>, last: string)
    ensures Terminated(lines) + last == Join(lines + [last], "\n")
    decreases |lines|
  {
    if lines == [] {
      assert lines + [last] == [last];
    } else {
      var rest := lines[1..];
      assert lines == [lines[0]] + rest;
      TerminatedAppend([lines[0]], rest);
      TerminatedOne(lines[0]);
      TerminatedJoin(rest, last);
      assert (lines + [last])[1..] == rest + [last];
      AppendAssoc(Line(lines[0]), Terminated(rest), last);
    }
  }

  /** No line holds a newline character. */
  predicate NoNewline(lines: seq<string>) {
    forall k :: 0 <= k < |lines| ==> '\n' !in lines[k]
  }

  /** The fixed markup of the element lines holds no newline. */
  lemma MarkupSingle()
    ensures '\n' !in "    <" && '\n' !in ">" && '\n' !in "</"
    ensures '\n' !in "loc" && '\n' !in "lastmod" && '\n' !in "changefreq" && '\n' !in "priority"
    ensures '\n' !in UrlOpen && '\n' !in UrlClose
  {
    forall i | 0 <= i < 5 ensures "    <"[i] != '\n' {}
    forall i | 0 <= i < 2 ensures "</"[i] != '\n' {}
    forall i | 0 <= i < 7 ensures "lastmod"[i] != '\n' {}
    forall i | 0 <= i < 10 ensures "changefreq"[i] != '\n' {}
    forall i | 0 <= i < 8 ensures "priority"[i] != '\n' {}
    forall i | 0 <= i < 3 ensures "loc"[i] != '\n' {}
    forall i | 0 <= i < |UrlOpen| ensures UrlOpen[i] != '\n' {}
    forall i | 0 <= i < |UrlClose| ensures UrlClose[i] != '\n' {}
  }

  /** Nor do the declaration and the `<urlset>` lines. */
  lemma HeaderSingle()
    ensures NoNewline([XmlDeclaration, UrlsetOpen]) && NoNewline([UrlsetClose])
  {
    forall i | 0 <= i < 20 ensures XmlDeclaration[i] != '\n' {}
    forall i | 20 <= i < |XmlDeclaration| ensures XmlDeclaration[i] != '\n' {}
    forall i | 0 <= i < 25 ensures SitemapNamespace[i] != '\n' {}
    forall i | 25 <= i < |SitemapNamespace| ensures SitemapNamespace[i] != '\n' {}
    forall i | 0 <= i < 15 ensures "<urlset xmlns=\""[i] != '\n' {}
    forall i | 0 <= i < 2 ensures "\">"[i] != '\n' {}
    forall i | 0 <= i < |UrlsetClose| ensures UrlsetClose[i] != '\n' {}
  }

  lemma TagLineSingle(name: string, value: string)
    requires '\n' !in name && '\n' !in value
    ensures '\n' !in TagLine(name, value)
  {
    MarkupSingle();
  }

  lemma OptionalSingle(name: string, value: string)
    requires '\n' !in name && '\n' !in value
    ensures NoNewline(OptionalTag(name, value))
  {
    if value != [] {
      TagLineSingle(name, value);
    }
  }

  /** No line of a block holds a newline when no field does. */
  lemma UrlLinesSingle(e: Entry)
    requires SingleLine(e)
    ensures NoNewline(UrlLines(e))
  {
    MarkupSingle();
    TagLineSingle("loc", e.loc);
    var head := [UrlOpen] + [TagLine("loc", e.loc)];
    assert NoNewline(head);
    OptionalSingle("lastmod", e.lastmod);
    OptionalSingle("changefreq", e.changefreq);
    OptionalSingle("priority", e.priority);
    NoNewlineAppend(head, OptionalTag("lastmod", e.lastmod));
    var l := head + OptionalTag("lastmod", e.lastmod);
    NoNewlineAppend(l, OptionalTag("changefreq", e.changefreq));
    var c := l + OptionalTag("changefreq", e.changefreq);
    NoNewlineAppend(c, OptionalTag("priority", e.priority));
    var p := c + OptionalTag("priority", e.priority);
    NoNewlineAppend(p, [UrlClose]);
  }

  lemma NoNewlineAppend(a: seq<string>, b: seq<string>)
    requires NoNewline(a) && NoNewline(b)
    ensures NoNewline(a + b)
  {
    forall k | 0 <= k < |a + b|
      ensures '\n' !in (a + b)[k]
    {
      if k < |a| {
        assert (a + b)[k] == a[k];
      } else {
        assert (a + b)[k] == b[k - |a|];
      }
    }
  }

  lemma {:induction false} BlockLinesSingle(es: seq<Entry>)
    requires forall i :: 0 <= i < |es| ==> SingleLine(es[i])
    ensures NoNewline(BlockLines(es))
    decreases |es|
  {
    if es != [] {
      BlockLinesSingle(es[..|es| - 1]);
      UrlLinesSingle(es[|es| - 1]);
    }
  }

  /**
   * When no value holds a newline, splitting the XML text on newlines gives
   * the declaration, the `<urlset>` line, the lines of each entry's block in
   * order, and the closing tag.
   */
  lemma XmlDocumentLines(es: seq<Entry>)
    requires forall i :: 0 <= i < |es| ==> SingleLine(es[i])
    ensures Split(XmlDocument(es), '\n') == XmlLines(es)
  {
    XmlDocumentJoin(es);
    BlockLinesSingle(es);
    HeaderSingle();
    NoNewlineFramed([XmlDeclaration, UrlsetOpen], BlockLines(es), [UrlsetClose]);
    SplitJoin(XmlLines(es), '\n');
  }

  lemma NoNewlineFramed(head: seq<string>, body: seq<string>, tail: seq<string>)
    requires NoNewline(head) && NoNewline(body) && NoNewline(tail)
    ensures NoNewline(head + body + tail)
  {
  }

  /** The XML text is its lines joined with newlines. */
  lemma XmlDocumentJoin(es: seq<Entry>)
    ensures XmlDocument(es) == Join(XmlLines(es), "\n")
  {
    var head := [XmlDeclaration, UrlsetOpen];
    UrlBlocksLines(es);
    TerminatedPair(XmlDeclaration, UrlsetOpen);
    TerminatedAppend(head, BlockLines(es));
    TerminatedJoin(head + BlockLines(es), UrlsetClose);
  }

  lemma TerminatedPair(a: string, b: string)
    ensures Terminated([a, b]) == Line(a) + Line(b)
  {
    TerminatedAppend([a], [b]);
    assert [a, b] == [a] + [b];
    TerminatedOne(a);
    TerminatedOne(b);
  }

  /** How many lines equal `l`. */
  function CountLine(lines: seq<string>, l: string): nat
    decreases |lines|
  {
    if lines == [] then 0
    else CountLine(lines[..|lines| - 1], l) + (if lines[|lines| - 1] == l then 1 else 0)
  }

  lemma {:induction false} CountLineAppend(a: seq<string>, b: seq<string>, l: string)
    ensures CountLine(a + b, l) == CountLine(a, l) + CountLine(b, l)
    decreases |b|
  {
    if b == [] {
      assert a + b == a;
    } else {
      CountLineAppend(a, b[..|b| - 1], l);
      assert (a + b)[..|a + b| - 1] == a + b[..|b| - 1];
    }
  }

  /** A field element line is not the `<url>` line: it is indented further. */
  lemma TagLineNotUrlOpen(name: string, value: string)
    ensures TagLine(name, value) != UrlOpen
  {
    assert TagLine(name, value)[2] == ' ';
  }

  lemma CountLineOne(l: string, x: string)
    ensures CountLine([l], x) == if l == x then 1 else 0
  {
    assert [l][..0] == [];
  }

  lemma OptionalNoUrlOpen(name: string, value: string)
    ensures CountLine(OptionalTag(name, value), UrlOpen) == 0
  {
    if value != [] {
      TagLineNotUrlOpen(name, value);
      CountLineOne(TagLine(name, value), UrlOpen);
    }
  }

  /** Each block holds exactly one `<url>` line. */
  lemma UrlLinesOneOpen(e: Entry)
    ensures CountLine(UrlLines(e), UrlOpen) == 1
  {
    var o1, o2, o3 := OptionalTag("lastmod", e.lastmod), OptionalTag("changefreq", e.changefreq), OptionalTag("priority", e.priority);
    var a, b, c := [UrlOpen], [TagLine("loc", e.loc)], [UrlClose];
    assert UrlLines(e) == a + b + o1 + o2 + o3 + c;
    CountLineOne(UrlOpen, UrlOpen);
    TagLineNotUrlOpen("loc", e.loc);
    CountLineOne(TagLine("loc", e.loc), UrlOpen);
    assert |UrlClose| != |UrlOpen|;
    CountLineOne(UrlClose, UrlOpen);
    OptionalNoUrlOpen("lastmod", e.lastmod);
    OptionalNoUrlOpen("changefreq", e.changefreq);
    OptionalNoUrlOpen("priority", e.priority);
    CountLineAppend(a, b, UrlOpen);
    CountLineAppend(a + b, o1, UrlOpen);
    CountLineAppend(a + b + o1, o2, UrlOpen);
    CountLineAppend(a + b + o1 + o2, o3, UrlOpen);
    CountLineAppend(a + b + o1 + o2 + o3, c, UrlOpen);
  }

  lemma {:induction false} BlockLinesOpenCount(es: seq<Entry>)
    ensures CountLine(BlockLines(es), UrlOpen) == |es|
    decreases |es|
  {
    if es != [] {
      var p := es[..|es| - 1];
      BlockLinesOpenCount(p);
      UrlLinesOneOpen(es[|es| - 1]);
      CountLineAppend(BlockLines(p), UrlLines(es[|es| - 1]), UrlOpen);
    }
  }

  lemma CountFramed(head: seq<string>, body: seq<string>, tail: seq<string>, x: string)
    requires CountLine(head, x) == 0 && CountLine(tail, x) == 0
    ensures CountLine(head + body + tail, x) == CountLine(body, x)
  {
    CountLineAppend(head, body, x);
    CountLineAppend(head + body, tail, x);
  }

  /** The declaration, `<urlset>` and `</urlset>` lines are not `<url>` lines. */
  lemma FrameNotUrlOpen()
    ensures CountLine([XmlDeclaration, UrlsetOpen], UrlOpen) == 0
    ensures CountLine([UrlsetClose], UrlOpen) == 0
  {
    assert |XmlDeclaration| != |UrlOpen| && |UrlsetOpen| != |UrlOpen| && |UrlsetClose| != |UrlOpen|;
    CountLineOne(XmlDeclaration, UrlOpen);
    CountLineOne(UrlsetOpen, UrlOpen);
    CountLineOne(UrlsetClose, UrlOpen);
    CountLineAppend([XmlDeclaration], [UrlsetOpen], UrlOpen);
    assert [XmlDeclaration] + [UrlsetOpen] == [XmlDeclaration, UrlsetOpen];
  }

  /** The document has exactly one `<url>` line per entry. */
  lemma XmlOneBlockPerEntry(es: seq<Entry>)
    ensures CountLine(XmlLines(es), UrlOpen) == |es|
  {
    BlockLinesOpenCount(es);
    FrameNotUrlOpen();
    CountFramed([XmlDeclaration, UrlsetOpen], BlockLines(es), [UrlsetClose], UrlOpen);
  }

  /** An element line of one field does not open another field's element. */
  lemma ElementNamesDiffer(n: string, v: string, m: string)
    requires n != m && '>' !in n && '>' !in m
    ensures !StartsWith(TagLine(n, v), ElementOpen(m))
  {
    var t, p := TagLine(n, v), ElementOpen(m);
    assert t[..5 + |n| + 1] == "    <" + n + ">";
    if |n| == |m| {
      var k :| 0 <= k < |n| && n[k] != m[k];
      assert t[5 + k] == n[k] && p[5 + k] == m[k];
    } else if |n| < |m| {
      assert t[5 + |n|] == '>' && p[5 + |n|] == m[|n|];
    } else if |p| <= |t| {
      assert p[5 + |m|] == '>' && t[5 + |m|] == n[|m|];
    }
  }

  /** The lines of a block that open the element `name`. */
  predicate HasElement(lines: seq<string>, name: string) {
    exists k :: 0 <= k < |lines| && StartsWith(lines[k], ElementOpen(name))
  }

  lemma HasElementAppend(a: seq<string>, b: seq<string>, n: string)
    ensures HasElement(a + b, n) <==> HasElement(a, n) || HasElement(b, n)
  {
    if HasElement(a, n) {
      var k :| 0 <= k < |a| && StartsWith(a[k], ElementOpen(n));
      assert (a + b)[k] == a[k];
    }
    if HasElement(b, n) {
      var k :| 0 <= k < |b| && StartsWith(b[k], ElementOpen(n));
      assert (a + b)[|a| + k] == b[k];
    }
    if HasElement(a + b, n) {
      var k :| 0 <= k < |a + b| && StartsWith((a + b)[k], ElementOpen(n));
      if k < |a| {
        assert (a + b)[k] == a[k];
      } else {
        assert (a + b)[k] == b[k - |a|];
      }
    }
  }

  /** An element line opens its own element and no other. */
  lemma HasElementTag(m: string, v: string, n: string)
    requires '>' !in m && '>' !in n
    ensures HasElement([TagLine(m, v)], n) <==> m == n
  {
    if m == n {
      assert StartsWith([TagLine(m, v)][0], ElementOpen(n));
    } else {
      ElementNamesDiffer(m, v, n);
    }
  }

  lemma HasElementOptional(m: string, v: string, n: string)
    requires '>' !in m && '>' !in n
    ensures HasElement(OptionalTag(m, v), n) <==> v != [] && m == n
  {
    if v != [] {
      HasElementTag(m, v, n);
    }
  }

  /** The `<url>` and `</url>` lines open no field element. */
  lemma HasElementFrame(n: string)
    ensures !HasElement([UrlOpen], n) && !HasElement([UrlClose], n)
  {
    assert ElementOpen(n)[2] == ' ';
    assert UrlOpen[2] == '<' && UrlClose[2] == '<';
  }

  /** The elements a block opens are those its field lines open. */
  lemma BlockHas(b: seq<string>, o1: seq<string>, o2: seq<string>, o3: seq<string>, n: string)
    ensures HasElement([UrlOpen] + b + o1 + o2 + o3 + [UrlClose], n) <==>
      HasElement(b, n) || HasElement(o1, n) || HasElement(o2, n) || HasElement(o3, n)
  {
    var a, c := [UrlOpen], [UrlClose];
    HasElementFrame(n);
    HasElementAppend(a, b, n);
    HasElementAppend(a + b, o1, n);
    HasElementAppend(a + b + o1, o2, n);
    HasElementAppend(a + b + o1 + o2, o3, n);
    HasElementAppend(a + b + o1 + o2 + o3, c, n);
  }

  /**
   * A block with a mandatory element `n1` and optional elements `n2`, `n3`,
   * `n4`, all named differently, opens `n1` and each optional element
   * exactly when its value is non-empty.
   */
  lemma FieldsOpened(n1: string, n2: string, n3: string, n4: string,
                     v1: string, v2: string, v3: string, v4: string)
    requires '>' !in n1 && '>' !in n2 && '>' !in n3 && '>' !in n4
    requires n1 != n2 && n1 != n3 && n1 != n4 && n2 != n3 && n2 != n4 && n3 != n4
    ensures var lines := [UrlOpen] + [TagLine(n1, v1)] + OptionalTag(n2, v2) + OptionalTag(n3, v3) + OptionalTag(n4, v4) + [UrlClose];
      HasElement(lines, n1)
      && (HasElement(lines, n2) <==> v2 != [])
      && (HasElement(lines, n3) <==> v3 != [])
      && (HasElement(lines, n4) <==> v4 != [])
  {
    var b, o2, o3, o4 := [TagLine(n1, v1)], OptionalTag(n2, v2), OptionalTag(n3, v3), OptionalTag(n4, v4);
    BlockHas(b, o2, o3, o4, n1);
    BlockHas(b, o2, o3, o4, n2);
    BlockHas(b, o2, o3, o4, n3);
    BlockHas(b, o2, o3, o4, n4);
    HasElementTag(n1, v1, n1);
    HasElementTag(n1, v1, n2);
    HasElementTag(n1, v1, n3);
    HasElementTag(n1, v1, n4);
    HasElementOptional(n2, v2, n2);
    HasElementOptional(n2, v2, n3);
    HasElementOptional(n2, v2, n4);
    HasElementOptional(n3, v3, n2);
    HasElementOptional(n3, v3, n3);
    HasElementOptional(n3, v3, n4);
    HasElementOptional(n4, v4, n2);
    HasElementOptional(n4, v4, n3);
    HasElementOptional(n4, v4, n4);
  }

  lemma NamesDistinct(n1: string, n2: string, n3: string, n4: string)
    requires |n1| == 3 && |n2| == 7 && |n3| == 10 && |n4| == 8
    ensures n1 != n2 && n1 != n3 && n1 != n4 && n2 != n3 && n2 != n4 && n3 != n4
  {
  }

  /** No field name holds `>`. */
  predicate FieldNamesPlain() {
    '>' !in "loc" && '>' !in "lastmod" && '>' !in "changefreq" && '>' !in "priority"
  }

  lemma FieldNamesArePlain()
    ensures FieldNamesPlain()
  {
    forall i | 0 <= i < 3 ensures "loc"[i] != '>' {}
    forall i | 0 <= i < 7 ensures "lastmod"[i] != '>' {}
    forall i | 0 <= i < 10 ensures "changefreq"[i] != '>' {}
    forall i | 0 <= i < 8 ensures "priority"[i] != '>' {}
  }

  /**
   * Each block has its `<loc>` line, and a `<lastmod>`, `<changefreq>` or
   * `<priority>` line exactly when that field is non-empty.
   */
  lemma UrlBlockFields(e: Entry)
    ensures HasElement(UrlLines(e), "loc")
    ensures HasElement(UrlLines(e), "lastmod") <==> e.lastmod != []
    ensures HasElement(UrlLines(e), "changefreq") <==> e.changefreq != []
    ensures HasElement(UrlLines(e), "priority") <==> e.priority != []
  {
    FieldNamesArePlain();
    NamesDistinct("loc", "lastmod", "changefreq", "priority");
    FieldsOpened("loc", "lastmod", "changefreq", "priority", e.loc, e.lastmod, e.changefreq, e.priority);
  }

  // ---------------------------------------------------------------------
  // toXLS: an HTML table that spreadsheet programs open
  // ---------------------------------------------------------------------

  const XlsHead := "<html><head><meta charset=\"UTF-8\"></head><body>"
  const TableOpen := "<table border=\"1\">"
  const HeaderRow := "<tr><th>URL</th><th>Last Modified</th><th>Change Frequency</th><th>Priority</th></tr>"
  const XlsTail := "</table></body></html>"

  /** One table cell, its value HTML-escaped. */
  function Cell(value: string): string {
    "<td>" + EscapeHtml(value) + "</td>"
  }

  /** The row of one entry: its four fields in header order. */
  function XlsRow(e: Entry): string {
    "<tr>" + Cell(e.loc) + Cell(e.lastmod) + Cell(e.changefreq) + Cell(e.priority) + "</tr>"
  }

  function XlsRows(es: seq<Entry>): string
    decreases |es|
  {
    if es == [] then [] else XlsRows(es[..|es| - 1]) + XlsRow(es[|es| - 1])
  }

  /** The whole XLS text. */
  function XlsDocument(es: seq<Entry>): string {
    XlsHead + TableOpen + HeaderRow + XlsRows(es) + XlsTail
  }

  /** Appends the row of one entry, piece by piece. */
  method AppendRow(html0: string, e: Entry) returns (html: string)
    ensures html == html0 + XlsRow(e)
  {
    ghost var w: string;
    html, w := html0 + "<tr>", "<tr>";
    html, w := Put(html, html0, w, Cell(e.loc));
    html, w := Put(html, html0, w, Cell(e.lastmod));
    html, w := Put(html, html0, w, Cell(e.changefreq));
    html, w := Put(html, html0, w, Cell(e.priority));
    html, w := Put(html, html0, w, "</tr>");
  }

  /** `toXLS`: the fixed head and header row, one row per entry, the closing tags. */
  method ToXls(entries: seq<Entry>) returns (html: string)
    ensures html == XlsDocument(entries)
  {
    html := XlsHead;
    html := html + TableOpen;
    html := html + HeaderRow;
    ghost var head := html;
    for i := 0 to |entries|
      invariant html == head + XlsRows(entries[..i])
    {
      assert entries[..i + 1][..i] == entries[..i];
      ghost var rows := XlsRows(entries[..i]);
      html := AppendRow(html, entries[i]);
      AppendAssoc(head, rows, XlsRow(entries[i]));
    }
    assert entries[..|entries|] == entries;
    html := html + XlsTail;
  }

  /** The value of a cell, read back by decoding the text between the tags. */
  function CellValue(c: string): string {
    if |c| >= 9 then UnescapeXml(c[4..|c| - 5]) else []
  }

  /** Reading a cell gives back the value written into it. */
  lemma CellRoundTrip(v: string)
    ensures CellValue(Cell(v)) == v
  {
    var c := Cell(v);
    assert c[4..|c| - 5] == EscapeHtml(v);
    EscapeHtmlRoundTrip(v);
  }

  /** A cell has exactly two tag openings, whatever its value holds. */
  lemma CellTags(v: string)
    ensures Occurrences(Cell(v), '<') == 2
  {
    OccurrencesAbsent(EscapeHtml(v), '<');
    TagPieces();
    OccurrencesAppend("<td>", EscapeHtml(v), '<');
    OccurrencesAppend("<td>" + EscapeHtml(v), "</td>", '<');
  }

  lemma TagPieces()
    ensures Occurrences("<td>", '<') == 1 && Occurrences("</td>", '<') == 1
    ensures Occurrences("<tr>", '<') == 1 && Occurrences("</tr>", '<') == 1
  {
  }

  /** A row has ten tag openings: no value can add markup. */
  lemma RowTags(e: Entry)
    ensures Occurrences(XlsRow(e), '<') == 10
  {
    var a, b, c, d := Cell(e.loc), Cell(e.lastmod), Cell(e.changefreq), Cell(e.priority);
    CellTags(e.loc);
    CellTags(e.lastmod);
    CellTags(e.changefreq);
    CellTags(e.priority);
    TagPieces();
    OccurrencesAppend("<tr>", a, '<');
    OccurrencesAppend("<tr>" + a, b, '<');
    OccurrencesAppend("<tr>" + a + b, c, '<');
    OccurrencesAppend("<tr>" + a + b + c, d, '<');
    OccurrencesAppend("<tr>" + a + b + c + d, "</tr>", '<');
  }

  /** The table body has exactly ten tag openings per entry. */
  lemma {:induction false} RowsTags(es: seq<Entry>)
    ensures Occurrences(XlsRows(es), '<') == 10 * |es|
    decreases |es|
  {
    if es != [] {
      var p := es[..|es| - 1];
      RowsTags(p);
      RowTags(es[|es| - 1]);
      OccurrencesAppend(XlsRows(p), XlsRow(es[|es| - 1]), '<');
    }
  }
}
