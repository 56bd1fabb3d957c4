/**
 * The reference-table normaliser: reads a TaiCOL checklist export (a header
 * line naming the columns, then one taxon per line) and keeps the accepted
 * names as `Taxon` records, in input order.
 *
 * Two parsers are at work, as in the source: the header line is cut at every
 * comma, while each data line goes through a quote-aware splitter that
 * toggles "inside quotes" at every `"` and never copies a quote character.
 */
module Csv {
  import opened TextUtil
  import opened Types

  // ---------------------------------------------------------------------------
  // Lines and header

  /** Removes one trailing carriage return. */
  function DropCR(s: string): (r: string)
    ensures r == s || (s == r + "\r")
    ensures s != [] && s[|s| - 1] == '\r' ==> s == r + "\r"
    ensures r <= s
  {
    if s != [] && s[|s| - 1] == '\r' then s[..|s| - 1] else s
  }

  /**
   * `content.split(/\r?\n/)`: one line per line feed plus one, none holding a
   * line feed; every line but the last is the text before its line feed less
   * one carriage return, the last is the text after the last line feed.
   */
  function SplitLines(content: string): (lines: seq<string>)
    ensures |lines| == Count(content, '\n') + 1 == |Split(content, '\n')|
    ensures forall k, i :: 0 <= k < |lines| && 0 <= i < |lines[k]| ==> lines[k][i] != '\n'
    ensures forall k :: 0 <= k < |lines| - 1 ==> lines[k] == DropCR(Split(content, '\n')[k])
    ensures lines[|lines| - 1] == Split(content, '\n')[|lines| - 1]
  {
    var pieces := Split(content, '\n');
    SplitCount(content, '\n');
    var lines := DropCRs(pieces);
    forall k, i | 0 <= k < |lines| && 0 <= i < |lines[k]|
      ensures lines[k][i] != '\n'
    {
      if k < |lines| - 1 {
        assert lines[k] <= pieces[k];
      }
      assert lines[k][i] == pieces[k][i];
    }
    lines
  }

  /** Drops the carriage return at the end of every piece but the last (which no line feed follows). */
  function DropCRs(pieces: seq<string>): (lines: seq<string>)
    ensures |lines| == |pieces|
    ensures forall k :: 0 <= k < |pieces| - 1 ==> lines[k] == DropCR(pieces[k])
    ensures pieces != [] ==> lines[|pieces| - 1] == pieces[|pieces| - 1]
  {
    if |pieces| <= 1 then pieces else [DropCR(pieces[0])] + DropCRs(pieces[1..])
  }

  /**
   * `s.replace(/^"|"$/g, '')`: a leading double quote goes and then a trailing
   * one, so a lone `"` gives the empty string.
   */
  function StripQuotes(s: string): (r: string)
    ensures |s| >= 2 && s[0] == '"' && s[|s| - 1] == '"' ==> r == s[1..|s| - 1]
    ensures s != [] && s[0] == '"' && s[|s| - 1] != '"' ==> r == s[1..]
    ensures s != [] && s[0] != '"' && s[|s| - 1] == '"' ==> r == s[..|s| - 1]
    ensures s == [] || (s[0] != '"' && s[|s| - 1] != '"') ==> r == s
    ensures s == "\"" ==> r == []
    ensures |r| <= |s|
  {
    var a := if s != [] && s[0] == '"' then s[1..] else s;
    if a != [] && a[|a| - 1] == '"' then a[..|a| - 1] else a
  }

  /** Quoting a value and stripping the quotes gives the value back. */
  lemma StripQuotesOfQuoted(v: string)
    ensures StripQuotes("\"" + v + "\"") == v
  {
    var s := "\"" + v + "\"";
    assert s[1..|s| - 1] == v;
  }

  /** The header names: the first line cut at every comma, each name trimmed and unquoted. */
  function HeaderNames(line: string): (names: seq<string>)
    ensures |names| == Count(line, ',') + 1 == |Split(line, ',')|
    ensures forall k :: 0 <= k < |names| ==> names[k] == StripQuotes(Trim(Split(line, ',')[k]))
  {
    SplitCount(line, ',');
    CleanNames(Split(line, ','))
  }

  /** `.map(h => h.trim().replace(/^"|"$/g, ''))`. */
  function CleanNames(raw: seq<string>): (names: seq<string>)
    ensures |names| == |raw|
    ensures forall k :: 0 <= k < |raw| ==> names[k] == StripQuotes(Trim(raw[k]))
  {
    if raw == [] then [] else [StripQuotes(Trim(raw[0]))] + CleanNames(raw[1..])
  }

  /** `headers.indexOf(name)`: the first position holding `name`, or -1. */
  function IndexOf(headers: seq<string>, name: string): (r: int)
    ensures -1 <= r < |headers|
    ensures r == -1 <==> name !in headers
    ensures r >= 0 ==> headers[r] == name && name !in headers[..r]
  {
    if headers == [] then -1
    else if headers[0] == name then 0
    else
      var k := IndexOf(headers[1..], name);
      assert headers[1..][..if k < 0 then 0 else k] == headers[1..if k < 0 then 1 else k + 1];
      if k == -1 then -1 else k + 1
  }

  /** The column position of each recognised header, -1 when the header lacks it. */
  datatype Columns = Columns(
    usageStatus: int, taxonId: int, simpleName: int, searchName: int,
    commonNameC: int, rank: int, family: int, genus: int)

  function ColumnsOf(headers: seq<string>): Columns {
    Columns(
      IndexOf(headers, "usage_status"), IndexOf(headers, "taxon_id"),
      IndexOf(headers, "simple_name"), IndexOf(headers, "search_name"),
      IndexOf(headers, "common_name_c"), IndexOf(headers, "rank"),
      IndexOf(headers, "family"), IndexOf(headers, "genus"))
  }

  // ---------------------------------------------------------------------------
  // The quote-aware line splitter

  /**
   * The fields of the rest `s` of a line, given the field `cur` read so far
   * and whether the splitter is inside quotes: a `"` flips the quote state and
   * is dropped, a comma outside quotes closes the field, anything else is kept.
   */
  function FieldsFrom(s: string, cur: string, inQuote: bool): (fields: seq<string>)
    ensures |fields| >= 1
  {
    if s == [] then [cur]
    else if s[0] == '"' then FieldsFrom(s[1..], cur, !inQuote)
    else if s[0] == ',' && !inQuote then [cur] + FieldsFrom(s[1..], "", inQuote)
    else FieldsFrom(s[1..], cur + [s[0]], inQuote)
  }

  /** The fields of a whole data line. */
  function CsvFields(line: string): seq<string> {
    FieldsFrom(line, "", false)
  }

  /** `parseCSVLine`: one pass over the characters, pushing each finished field. */
  method ParseCsvLine(line: string) returns (result: seq<string>)
    ensures result == CsvFields(line)
  {
    result := [];
    var cur := "";
    var inQuote := false;
    var i := 0;
    while i < |line|
      invariant 0 <= i <= |line|
      invariant result + FieldsFrom(line[i..], cur, inQuote) == CsvFields(line)
    {
      var c := line[i];
      assert line[i..][1..] == line[i + 1..];
      if c == '"' {
        inQuote := !inQuote;
      } else if c == ',' && !inQuote {
        result := result + [cur];
        cur := "";
      } else {
        cur := cur + [c];
      }
      i := i + 1;
    }
    result := result + [cur];
  }

  /** The line with every double quote removed. */
  function RemoveQuotes(s: string): (r: string)
    ensures forall i :: 0 <= i < |r| ==> r[i] != '"'
  {
    if s == [] then [] else (if s[0] == '"' then [] else [s[0]]) + RemoveQuotes(s[1..])
  }

  predicate QuoteFree(s: string) {
    forall i :: 0 <= i < |s| ==> s[i] != '"'
  }

  /** No field ever holds a double quote. */
  lemma {:induction false} FieldsQuoteFree(s: string, cur: string, inQuote: bool)
    requires QuoteFree(cur)
    ensures forall k :: 0 <= k < |FieldsFrom(s, cur, inQuote)| ==> QuoteFree(FieldsFrom(s, cur, inQuote)[k])
  {
    if s != [] {
      if s[0] == '"' {
        FieldsQuoteFree(s[1..], cur, !inQuote);
      } else if s[0] == ',' && !inQuote {
        FieldsQuoteFree(s[1..], "", inQuote);
      } else {
        FieldsQuoteFree(s[1..], cur + [s[0]], inQuote);
      }
    }
  }

  /**
   * Nothing but quotes is lost: joining the fields with commas gives the line
   * back without its quote characters (so a comma inside quotes stays in its field).
   */
  lemma {:induction false} JoinFields(s: string, cur: string, inQuote: bool)
    ensures Join(FieldsFrom(s, cur, inQuote), ",") == cur + RemoveQuotes(s)
  {
    if s == [] {
    } else if s[0] == '"' {
      JoinFields(s[1..], cur, !inQuote);
      assert RemoveQuotes(s) == RemoveQuotes(s[1..]);
    } else if s[0] == ',' && !inQuote {
      JoinFields(s[1..], "", inQuote);
      var rest := FieldsFrom(s[1..], "", inQuote);
      assert ([cur] + rest)[1..] == rest;
      assert Join([cur] + rest, ",") == cur + "," + Join(rest, ",");
      assert RemoveQuotes(s) == "," + RemoveQuotes(s[1..]);
    } else {
      JoinFields(s[1..], cur + [s[0]], inQuote);
      assert RemoveQuotes(s) == [s[0]] + RemoveQuotes(s[1..]);
    }
  }

  /** Inside quotes everything up to the closing quote, commas included, joins the current field. */
  lemma {:induction false} QuotedStretch(x: string, rest: string, cur: string)
    requires QuoteFree(x)
    ensures FieldsFrom(x + "\"" + rest, cur, true) == FieldsFrom(rest, cur + x, false)
  {
    if x == [] {
      var s := x + "\"" + rest;
      assert s[0] == '"' && s[1..] == rest;
      assert cur + x == cur;
    } else {
      assert (x + "\"" + rest)[1..] == x[1..] + "\"" + rest;
      QuotedStretch(x[1..], rest, cur + [x[0]]);
      assert cur + [x[0]] + x[1..] == cur + x;
    }
  }

  /** A doubled quote flips the quote state twice and leaves nothing behind. */
  lemma DoubledQuoteVanishes(rest: string, cur: string, inQuote: bool)
    ensures FieldsFrom("\"\"" + rest, cur, inQuote) == FieldsFrom(rest, cur, inQuote)
  {
    assert ("\"\"" + rest)[1..][1..] == rest;
  }

  /** The number of quotes before position `i` is even: position `i` is outside quotes. */
  predicate OutsideQuotes(line: string, i: nat)
    requires i <= |line|
  {
    Count(line[..i], '"') % 2 == 0
  }

  /** The number of commas of `line` that stand outside quotes, counted from the left. */
  function Separators(line: string): nat
  {
    if line == [] then 0
    else
      var n := |line| - 1;
      Separators(line[..n]) + (if line[n] == ',' && OutsideQuotes(line, n) then 1 else 0)
  }

  lemma {:induction false} CountAppend(s: string, c: char, d: char)
    ensures Count(s + [d], c) == Count(s, c) + (if d == c then 1 else 0)
  {
    if s != [] {
      assert (s + [d])[1..] == s[1..] + [d];
      CountAppend(s[1..], c, d);
    }
  }

  lemma {:induction false} FieldCountFrom(line: string, i: nat, cur: string)
    requires i <= |line|
    ensures |FieldsFrom(line[i..], cur, !OutsideQuotes(line, i))| == Separators(line) - Separators(line[..i]) + 1
    decreases |line| - i
  {
    if i < |line| {
      var q := !OutsideQuotes(line, i);
      assert line[i..][1..] == line[i + 1..];
      assert line[..i + 1][..i] == line[..i];
      assert line[..i + 1] == line[..i] + [line[i]];
      CountAppend(line[..i], '"', line[i]);
      assert Separators(line[..i + 1]) == Separators(line[..i]) + (if line[i] == ',' && !q then 1 else 0);
      if line[i] == '"' {
        assert !OutsideQuotes(line, i + 1) == !q;
        FieldCountFrom(line, i + 1, cur);
      } else if line[i] == ',' && !q {
        FieldCountFrom(line, i + 1, "");
      } else {
        FieldCountFrom(line, i + 1, cur + [line[i]]);
      }
    } else {
      assert line[..i] == line;
    }
  }

  /** A data line has one field more than it has commas outside quotes. */
  lemma FieldCount(line: string)
    ensures |CsvFields(line)| == Separators(line) + 1
  {
    assert line[0..] == line;
    FieldCountFrom(line, 0, "");
  }

  // ---------------------------------------------------------------------------
  // One data row

  /** `row[col]`: undefined (None) when the column is missing or the row is short. */
  function Field(row: seq<string>, col: int): Option<string> {
    if 0 <= col < |row| then Some(row[col]) else None
  }

  /** `row[col]?.replace(/^"|"$/g, '') || ''`. */
  function ColumnText(row: seq<string>, col: int): (r: string)
    ensures col < 0 ==> r == ""
  {
    match Field(row, col)
    case None => ""
    case Some(v) => StripQuotes(v)
  }

  /**
   * `(row[col] || '').toLowerCase().replace(/^"|"$/g, '')`: the field lower-cased
   * less one leading and one trailing quote; a missing field reads as empty.
   */
  function UsageStatus(row: seq<string>, col: int): (r: string)
    ensures Field(row, col).None? ==> r == ""
    ensures Field(row, col).Some? ==> r == StripQuotes(ToLower(row[col]))
  {
    StripQuotes(ToLower(match Field(row, col) case None => "" case Some(v) => v))
  }

  /** A row's status reads "accepted" exactly when its field, lower-cased, is `accepted` with or without a quote at either end. */
  lemma UsageStatusAccepted(row: seq<string>, col: int)
    ensures UsageStatus(row, col) == "accepted" <==>
      Field(row, col).Some? && ToLower(row[col]) in AcceptedSpellings
  {
    if Field(row, col).Some? {
      AcceptedSpelling(ToLower(row[col]));
    }
  }

  const AcceptedSpellings: seq<string> := ["accepted", "\"accepted", "accepted\"", "\"accepted\""]

  lemma AcceptedSpelling(w: string)
    ensures StripQuotes(w) == "accepted" <==> w in AcceptedSpellings
  {
    StripQuotesOfQuoted("accepted");
    assert StripQuotes("\"accepted") == "\"accepted"[1..] == "accepted";
    assert StripQuotes("accepted\"") == "accepted\""[..8] == "accepted";
    if StripQuotes(w) == "accepted" {
      if |w| >= 2 && w[0] == '"' && w[|w| - 1] == '"' {
        assert w == "\"" + w[1..|w| - 1] + "\"" == AcceptedSpellings[3];
      } else if w != [] && w[0] == '"' && w[|w| - 1] != '"' {
        assert w == "\"" + w[1..] == AcceptedSpellings[1];
      } else if w != [] && w[0] != '"' && w[|w| - 1] == '"' {
        assert w == w[..|w| - 1] + "\"" == AcceptedSpellings[2];
      }
    }
  }

  /** `(row[search] || row[common])?.replace(...) || ''`: the search name unless it is empty. */
  function ChineseName(row: seq<string>, search: int, common: int): (r: string)
    ensures Truthy(Field(row, search)) ==> r == StripQuotes(row[search])
    ensures !Truthy(Field(row, search)) ==> r == ColumnText(row, common)
  {
    var pick := if Truthy(Field(row, search)) then Field(row, search) else Field(row, common);
    match pick
    case None => ""
    case Some(v) => StripQuotes(v)
  }

  /**
   * Species and subspecies read off a simple name: word 1, and words 2..
   * joined by spaces.  A species is read when the name holds a space, a
   * subspecies when it holds two, and genus word, species and subspecies
   * put back together with spaces give the name again.
   */
  function SpeciesParts(simpleName: string): (p: (Option<string>, Option<string>))
    ensures p.0.Some? <==> Count(simpleName, ' ') >= 1
    ensures p.1.Some? <==> Count(simpleName, ' ') >= 2
    ensures p.0.Some? ==> forall i :: 0 <= i < |p.0.value| ==> p.0.value[i] != ' '
    ensures p.0.Some? ==>
              simpleName == Split(simpleName, ' ')[0] + " " + p.0.value + (if p.1.Some? then " " + p.1.value else "")
  {
    var parts := Split(simpleName, ' ');
    SplitCount(simpleName, ' ');
    JoinSplit(simpleName, ' ');
    if |parts| >= 2 then
      assert Join(parts, " ") == parts[0] + " " + Join(parts[1..], " ");
      if |parts| >= 3 then
        assert parts[1..][1..] == parts[2..];
        assert Join(parts[1..], " ") == parts[1] + " " + Join(parts[2..], " ");
        (Some(parts[1]), Some(Join(parts[2..], " ")))
      else
        (Some(parts[1]), None)
    else (None, None)
  }

  /** The taxon built from an accepted row. */
  function RowTaxon(cols: Columns, row: seq<string>): Taxon {
    var simpleName := ColumnText(row, cols.simpleName);
    var (species, subspecies) := SpeciesParts(simpleName);
    Taxon(
      ColumnText(row, cols.taxonId), simpleName,
      ChineseName(row, cols.searchName, cols.commonNameC),
      ColumnText(row, cols.rank), ColumnText(row, cols.family), ColumnText(row, cols.genus),
      species, subspecies, None)
  }

  /** A row survives when it has a field per header and its usage status is "accepted". */
  predicate Accepted(headerCount: nat, cols: Columns, row: seq<string>) {
    |row| >= headerCount && UsageStatus(row, cols.usageStatus) == "accepted"
  }

  /** The taxa of the data lines, one per accepted row, in line order. */
  function NormalizeLines(headerCount: nat, cols: Columns, lines: seq<string>): seq<Taxon>
  {
    if lines == [] then []
    else
      var n := |lines| - 1;
      var row := CsvFields(lines[n]);
      NormalizeLines(headerCount, cols, lines[..n])
        + (if Accepted(headerCount, cols, row) then [RowTaxon(cols, row)] else [])
  }

  /** One more line adds its taxon when its row is accepted, and nothing otherwise. */
  lemma NormalizeStep(headerCount: nat, cols: Columns, lines: seq<string>, n: nat)
    requires n < |lines|
    ensures NormalizeLines(headerCount, cols, lines[..n + 1])
         == NormalizeLines(headerCount, cols, lines[..n])
            + (if Accepted(headerCount, cols, CsvFields(lines[n])) then [RowTaxon(cols, CsvFields(lines[n]))] else [])
  {
    assert lines[..n + 1][..n] == lines[..n];
    assert lines[..n + 1][n] == lines[n];
  }

  /** The whole normaliser, `parseTaiColCSV`, as a function of the file's text. */
  function TaiColTaxa(content: string): seq<Taxon> {
    var lines := SplitLines(content);
    if |lines| < 2 then []
    else
      var headers := HeaderNames(lines[0]);
      NormalizeLines(|headers|, ColumnsOf(headers), lines[1..])
  }

  /** `parseTaiColCSV`: split the text into lines, read the header, then walk the data lines. */
  method ParseTaiColCsv(content: string) returns (results: seq<Taxon>)
    ensures results == TaiColTaxa(content)
  {
    var lines := SplitLines(content);
    if |lines| < 2 {
      return [];
    }
    var headers := HeaderNames(lines[0]);
    results := CollectAccepted(lines, headers);
  }

  /** The row loop of `parseTaiColCSV`: from line 1 on, push a taxon for every accepted row. */
  method CollectAccepted(lines: seq<string>, headers: seq<string>) returns (results: seq<Taxon>)
    requires |lines| >= 1
    ensures results == NormalizeLines(|headers|, ColumnsOf(headers), lines[1..])
  {
    var col := ColumnsOf(headers);
    ghost var data := lines[1..];
    results := [];
    var i := 1;
    while i < |lines|
      invariant 1 <= i <= |lines|
      invariant results == NormalizeLines(|headers|, col, data[..i - 1])
    {
      var row := ParseCsvLine(lines[i]);
      assert data[i - 1] == lines[i];
      NormalizeStep(|headers|, col, data, i - 1);
      ghost var next := NormalizeLines(|headers|, col, data[..i]);
      // A short row, or one whose status is not "accepted", is skipped.
      if |row| >= |headers| {
        var usageStatus := UsageStatus(row, col.usageStatus);
        if usageStatus == "accepted" {
          var taxon := BuildTaxon(col, row);
          results := results + [taxon];
        }
      }
      assert next == results;
      i := i + 1;
    }
    assert data[..i - 1] == data;
  }

  /** The body of the row loop: read the fields, split the simple name, build the taxon. */
  method BuildTaxon(col: Columns, row: seq<string>) returns (taxon: Taxon)
    ensures taxon == RowTaxon(col, row)
  {
    var simpleName := ColumnText(row, col.simpleName);
    var parts := Split(simpleName, ' ');
    var species: Option<string> := None;
    var subspecies: Option<string> := None;
    if |parts| >= 2 {
      species := Some(parts[1]);
      if |parts| >= 3 {
        subspecies := Some(Join(parts[2..], " "));
      }
    }
    taxon := Taxon(
      ColumnText(row, col.taxonId), simpleName,
      ChineseName(row, col.searchName, col.commonNameC),
      ColumnText(row, col.rank), ColumnText(row, col.family), ColumnText(row, col.genus),
      species, subspecies, None);
  }

  // ---------------------------------------------------------------------------
  // Properties of the normaliser

  /** Text without a line feed is at most a header: nothing comes out. */
  lemma NoDataLinesNoTaxa(content: string)
    requires Count(content, '\n') == 0
    ensures TaiColTaxa(content) == []
  {
    SplitCount(content, '\n');
  }

  /** The accepted rows among `lines`, front to back: a reference definition by filtering. */
  function AcceptedRows(headerCount: nat, cols: Columns, lines: seq<string>): seq<seq<string>>
  {
    if lines == [] then []
    else
      var row := CsvFields(lines[0]);
      (if Accepted(headerCount, cols, row) then [row] else []) + AcceptedRows(headerCount, cols, lines[1..])
  }

  function MapRowTaxon(cols: Columns, rows: seq<seq<string>>): (r: seq<Taxon>)
    ensures |r| == |rows|
    ensures forall k :: 0 <= k < |rows| ==> r[k] == RowTaxon(cols, rows[k])
  {
    if rows == [] then [] else [RowTaxon(cols, rows[0])] + MapRowTaxon(cols, rows[1..])
  }

  /** Normalising two runs of lines gives the first run's taxa, then the second's. */
  lemma {:induction false} NormalizeLinesAppend(headerCount: nat, cols: Columns, a: seq<string>, b: seq<string>)
    ensures NormalizeLines(headerCount, cols, a + b)
         == NormalizeLines(headerCount, cols, a) + NormalizeLines(headerCount, cols, b)
    decreases |b|
  {
    if b == [] {
      assert a + b == a;
    } else {
      var n := |b| - 1;
      assert (a + b)[..|a + b| - 1] == a + b[..n];
      NormalizeLinesAppend(headerCount, cols, a, b[..n]);
    }
  }

  /** The normaliser emits exactly the accepted rows' taxa, in row order. */
  lemma {:induction false} NormalizeLinesIsFilterMap(headerCount: nat, cols: Columns, lines: seq<string>)
    ensures NormalizeLines(headerCount, cols, lines) == MapRowTaxon(cols, AcceptedRows(headerCount, cols, lines))
  {
    if lines != [] {
      NormalizeLinesIsFilterMap(headerCount, cols, lines[1..]);
      assert lines == [lines[0]] + lines[1..];
      NormalizeLinesAppend(headerCount, cols, [lines[0]], lines[1..]);
      assert [lines[0]][..0] == [];
      var row := CsvFields(lines[0]);
      var first := if Accepted(headerCount, cols, row) then [row] else [];
      MapRowTaxonAppend(cols, first, AcceptedRows(headerCount, cols, lines[1..]));
    }
  }

  lemma MapRowTaxonAppend(cols: Columns, a: seq<seq<string>>, b: seq<seq<string>>)
    ensures MapRowTaxon(cols, a + b) == MapRowTaxon(cols, a) + MapRowTaxon(cols, b)
  {
    var l, r := MapRowTaxon(cols, a + b), MapRowTaxon(cols, a) + MapRowTaxon(cols, b);
    forall k | 0 <= k < |l| ensures l[k] == r[k] {
      if k < |a| {
        assert (a + b)[k] == a[k];
        assert r[k] == MapRowTaxon(cols, a)[k];
      } else {
        assert (a + b)[k] == b[k - |a|];
        assert r[k] == MapRowTaxon(cols, b)[k - |a|];
      }
    }
  }

  /** Every accepted row has its fields; every row that comes out was accepted. */
  lemma {:induction false} AcceptedRowsAreAccepted(headerCount: nat, cols: Columns, lines: seq<string>)
    ensures forall k :: 0 <= k < |AcceptedRows(headerCount, cols, lines)| ==>
      |AcceptedRows(headerCount, cols, lines)[k]| >= headerCount
      && UsageStatus(AcceptedRows(headerCount, cols, lines)[k], cols.usageStatus) == "accepted"
  {
    if lines != [] {
      AcceptedRowsAreAccepted(headerCount, cols, lines[1..]);
    }
  }

  /** A simple name of one word gives neither species nor subspecies. */
  lemma OneWordName(simpleName: string)
    requires NoSpace(simpleName)
    ensures SpeciesParts(simpleName) == (None, None)
  {
    SplitWord(simpleName, ' ');
  }

  /**
   * Reading species and subspecies off a formatted name gives back what was
   * formatted: the species, and the subspecies when it is non-empty.
   */
  lemma FormattedNameParts(genus: string, species: string, subspecies: Option<string>)
    requires NoSpace(genus) && NoSpace(species) && species != ""
    ensures SpeciesParts(FormatScientificName(genus, Some(species), subspecies))
         == (Some(species), if Truthy(subspecies) then subspecies else None)
  {
    FormatScientificNameWords(genus, Some(species), subspecies);
    if Truthy(subspecies) {
      var parts := [genus, species] + Split(subspecies.value, ' ');
      assert parts[2..] == Split(subspecies.value, ' ');
      JoinSplit(subspecies.value, ' ');
    }
  }

  /** "Genus species sub1 sub2" reads as species "species" and subspecies "sub1 sub2". */
  lemma SubspeciesKeepsItsWords(genus: string, species: string, sub1: string, sub2: string)
    requires NoSpace(genus) && NoSpace(species) && NoSpace(sub1) && NoSpace(sub2)
    ensures SpeciesParts(genus + " " + species + " " + sub1 + " " + sub2) == (Some(species), Some(sub1 + " " + sub2))
  {
    var rest := sub1 + " " + sub2;
    assert genus + " " + species + " " + sub1 + " " + sub2 == genus + [' '] + (species + [' '] + rest);
    SplitAfterWord(genus, ' ', species + [' '] + rest);
    SplitAfterWord(species, ' ', rest);
    SplitAfterWord(sub1, ' ', sub2);
    SplitWord(sub2, ' ');
    var parts := [genus, species, sub1, sub2];
    assert Split(genus + " " + species + " " + sub1 + " " + sub2, ' ') == parts;
    assert parts[2..] == [sub1, sub2];
    assert Join([sub1, sub2], " ") == sub1 + " " + Join([sub2], " ");
  }

  /** A header that lacks a recognised column gives the empty string for that field. */
  lemma MissingColumnIsEmpty(headers: seq<string>, name: string, row: seq<string>)
    requires name !in headers
    ensures ColumnText(row, IndexOf(headers, name)) == ""
  {
  }
}
