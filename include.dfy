/** The include helpers: `csvToTable`, which turns already-parsed CSV records
    into an HTML table, and the plain fallback of `highlightCode`. Cell text
    and code go through `html.EscapeString`. */
module Include {
  import opened Wrappers
  import opened Strings

  /** `html.EscapeString` of golang.org/x/net/html on one character. */
  function EscapeChar(c: char): string {
    if c == '&' then "&amp;"
    else if c == '\'' then "&#39;"
    else if c == '<' then "&lt;"
    else if c == '>' then "&gt;"
    else if c == '"' then "&#34;"
    else if c == '\r' then "&#13;"
    else [c]
  }

  /** The characters `html.EscapeString` replaces. */
  predicate Special(c: char) {
    c == '&' || c == '\'' || c == '<' || c == '>' || c == '"' || c == '\r'
  }

  /** `html.EscapeString`. */
  function Escape(s: string): string {
    if s == [] then "" else EscapeChar(s[0]) + Escape(s[1..])
  }

  /** One escaped character holds no special character but the `&` that
      starts an entity. */
  lemma EscapeCharSafe(c: char)
    ensures forall x :: x in EscapeChar(c) ==> !Special(x) || x == '&'
  {
    var e := EscapeChar(c);
    if Special(c) {
      assert forall k :: 1 <= k < |e| ==> e[k] in "amp;#39ltg4-13";
    }
  }

  /** Escaped text holds none of the characters that end an attribute value
      or start or end a tag. */
  lemma {:induction false} EscapeSafe(s: string)
    ensures forall c :: c in Escape(s) ==> !Special(c) || c == '&'
  {
    if s != [] {
      EscapeSafe(s[1..]);
      EscapeCharSafe(s[0]);
      var a, b := EscapeChar(s[0]), Escape(s[1..]);
      forall c | c in a + b ensures !Special(c) || c == '&' {
        assert c in a || c in b;
      }
    }
  }

  /** Decoding of exactly the six entities `Escape` writes. */
  function Unescape(s: string): string
    decreases |s|
  {
    if s == [] then ""
    else if s[0] != '&' then [s[0]] + Unescape(s[1..])
    else if HasPrefix(s, "&amp;") then "&" + Unescape(s[5..])
    else if HasPrefix(s, "&#39;") then "'" + Unescape(s[5..])
    else if HasPrefix(s, "&lt;") then "<" + Unescape(s[4..])
    else if HasPrefix(s, "&gt;") then ">" + Unescape(s[4..])
    else if HasPrefix(s, "&#34;") then "\"" + Unescape(s[5..])
    else if HasPrefix(s, "&#13;") then "\r" + Unescape(s[5..])
    else "&" + Unescape(s[1..])
  }

  /** An entity followed by more text decodes to its character. */
  lemma UnescapeEntity(e: string, c: char, t: string)
    requires EscapeChar(c) == e && Special(c)
    ensures Unescape(e + t) == [c] + Unescape(t)
  {
    assert (e + t)[..|e|] == e && (e + t)[|e|..] == t;
    assert (e + t)[0] == '&' && (e + t)[1] == e[1] && (e + t)[2] == e[2];
  }

  lemma UnescapeChar(c: char, t: string)
    ensures Unescape(EscapeChar(c) + t) == [c] + Unescape(t)
  {
    if Special(c) {
      UnescapeEntity(EscapeChar(c), c, t);
    } else {
      assert ([c] + t)[0] == c && ([c] + t)[1..] == t;
    }
  }

  /** Escaping loses nothing: decoding the entities gives the text back. */
  lemma {:induction false} UnescapeEscape(s: string)
    ensures Unescape(Escape(s)) == s
  {
    if s != [] {
      UnescapeChar(s[0], Escape(s[1..]));
      UnescapeEscape(s[1..]);
    }
  }

  /** The cell texts of one record, escaped. */
  function EscapeRow(esc: string -> string, row: seq<string>): (r: seq<string>)
    ensures |r| == |row|
  {
    if row == [] then [] else [esc(row[0])] + EscapeRow(esc, row[1..])
  }

  /** Every record, escaped. */
  function EscapeRecords(esc: string -> string, records: seq<seq<string>>): (r: seq<seq<string>>)
    ensures |r| == |records|
  {
    if records == [] then [] else [EscapeRow(esc, records[0])] + EscapeRecords(esc, records[1..])
  }

  /** One already escaped cell text between `open` and `close`. */
  function Cell(open: string, text: string, close: string): string {
    open + text + close
  }

  /** Already escaped cell texts, each between `open` and `close`. */
  function Cells(texts: seq<string>, open: string, close: string): string {
    if texts == [] then "" else Cell(open, texts[0], close) + Cells(texts[1..], open, close)
  }

  /** A body row of escaped texts. */
  function Row(texts: seq<string>): string {
    "<tr>" + (Cells(texts, "<td>", "</td>") + "</tr>\n")
  }

  function Rows(rows: seq<seq<string>>): string {
    if rows == [] then "" else Row(rows[0]) + Rows(rows[1..])
  }

  const TableHead := "<table>\n<thead>\n<tr>"
  const HeadEnd := "</tr>\n</thead>\n<tbody>\n"
  const TableEnd := "</tbody>\n</table>"

  /** The markup around an escaped header and escaped body rows. */
  function Markup(head: seq<string>, body: seq<seq<string>>): string {
    TableHead + (Cells(head, "<th>", "</th>") + (HeadEnd + (Rows(body) + TableEnd)))
  }

  /** The table for a non-empty record list: the first record is the header
      row, every other record a body row. */
  function Table(esc: string -> string, records: seq<seq<string>>): string
    requires records != []
  {
    Markup(EscapeRow(esc, records[0]), EscapeRecords(esc, records[1..]))
  }

  /** `csvToTable` on the parser's answer: None is a parse error. */
  function TableSpec(esc: string -> string, parsed: Option<seq<seq<string>>>): string {
    match parsed
    case None => ""
    case Some(records) => if records == [] then "" else Table(esc, records)
  }

  /** Writes one escaped cell. */
  method WriteCell(sb: string, open: string, cell: string, close: string, esc: string -> string) returns (sb': string)
    ensures sb' == sb + Cell(open, esc(cell), close)
  {
    sb' := sb + open;
    sb' := sb' + esc(cell);
    sb' := sb' + close;
  }

  /** Texts that are, one for one, the escaped cells of `row`. */
  lemma {:induction false} EscapeRowOf(esc: string -> string, row: seq<string>, texts: seq<string>)
    requires |texts| == |row|
    requires forall k :: 0 <= k < |row| ==> texts[k] == esc(row[k])
    ensures texts == EscapeRow(esc, row)
  {
    if row != [] {
      EscapeRowOf(esc, row[1..], texts[1..]);
      assert texts == [texts[0]] + texts[1..];
    }
  }

  /** Rows that are, one for one, the escaped records. */
  lemma {:induction false} EscapeRecordsOf(esc: string -> string, records: seq<seq<string>>, rows: seq<seq<string>>)
    requires |rows| == |records|
    requires forall k :: 0 <= k < |records| ==> rows[k] == EscapeRow(esc, records[k])
    ensures rows == EscapeRecords(esc, records)
  {
    if records != [] {
      EscapeRecordsOf(esc, records[1..], rows[1..]);
      assert rows == [rows[0]] + rows[1..];
    }
  }

  /** One more cell at the end. */
  lemma {:induction false} CellsSnoc(texts: seq<string>, e: string, open: string, close: string)
    ensures Cells(texts + [e], open, close) == Cells(texts, open, close) + Cell(open, e, close)
  {
    if texts == [] {
      assert [] + [e] == [e] && [e][1..] == [];
    } else {
      assert (texts + [e])[0] == texts[0] && (texts + [e])[1..] == texts[1..] + [e];
      CellsSnoc(texts[1..], e, open, close);
    }
  }

  /** One more row at the end. */
  lemma {:induction false} RowsSnoc(rows: seq<seq<string>>, row: seq<string>)
    ensures Rows(rows + [row]) == Rows(rows) + Row(row)
  {
    if rows == [] {
      assert [] + [row] == [row] && [row][1..] == [];
    } else {
      assert (rows + [row])[0] == rows[0] && (rows + [row])[1..] == rows[1..] + [row];
      RowsSnoc(rows[1..], row);
    }
  }

  /** The inner loop of `csvToTable`: the cells of one record. */
  method WriteCells(sb: string, row: seq<string>, open: string, close: string, esc: string -> string) returns (sb': string)
    ensures sb' == sb + Cells(EscapeRow(esc, row), open, close)
  {
    sb' := sb;
    ghost var done: seq<string> := [];
    var j := 0;
    while j < |row|
      invariant 0 <= j <= |row| && |done| == j
      invariant forall k :: 0 <= k < j ==> done[k] == esc(row[k])
      invariant sb' == sb + Cells(done, open, close)
    {
      ghost var before := sb';
      sb' := WriteCell(sb', open, row[j], close, esc);
      CellsSnoc(done, esc(row[j]), open, close);
      done := done + [esc(row[j])];
      j := j + 1;
    }
    EscapeRowOf(esc, row, done);
  }

  /** One body row. */
  method WriteRow(sb: string, row: seq<string>, esc: string -> string) returns (sb': string)
    ensures sb' == sb + Row(EscapeRow(esc, row))
  {
    sb' := sb + "<tr>";
    sb' := WriteCells(sb', row, "<td>", "</td>", esc);
    sb' := sb' + "</tr>\n";
    assert sb' == sb + "<tr>" + Cells(EscapeRow(esc, row), "<td>", "</td>") + "</tr>\n";
  }

  /** The outer loop of `csvToTable`: the body rows. */
  method WriteRows(sb: string, records: seq<seq<string>>, esc: string -> string) returns (sb': string)
    ensures sb' == sb + Rows(EscapeRecords(esc, records))
  {
    sb' := sb;
    ghost var done: seq<seq<string>> := [];
    var i := 0;
    while i < |records|
      invariant 0 <= i <= |records| && |done| == i
      invariant forall k :: 0 <= k < i ==> done[k] == EscapeRow(esc, records[k])
      invariant sb' == sb + Rows(done)
    {
      sb' := WriteRow(sb', records[i], esc);
      RowsSnoc(done, EscapeRow(esc, records[i]));
      done := done + [EscapeRow(esc, records[i])];
      i := i + 1;
    }
    EscapeRecordsOf(esc, records, done);
  }

  /** The header part of `csvToTable`. */
  method WriteHead(header: seq<string>, esc: string -> string) returns (sb: string)
    ensures sb == TableHead + Cells(EscapeRow(esc, header), "<th>", "</th>") + HeadEnd
  {
    sb := TableHead;
    sb := WriteCells(sb, header, "<th>", "</th>", esc);
    sb := sb + HeadEnd;
  }

  /** `csvToTable`. The second result says whether a parse error was
      reported. */
  method CsvToTable(parsed: Option<seq<seq<string>>>, esc: string -> string) returns (r: string, warned: bool)
    ensures r == TableSpec(esc, parsed) && warned == parsed.None?
  {
    warned := parsed.None?;
    if parsed.None? {
      return "", warned;
    }
    var records := parsed.value;
    if |records| == 0 {
      return "", warned;
    }
    var sb := WriteHead(records[0], esc);
    sb := WriteRows(sb, records[1..], esc);
    r := sb + TableEnd;
    Assembled(TableHead, Cells(EscapeRow(esc, records[0]), "<th>", "</th>"), HeadEnd,
      Rows(EscapeRecords(esc, records[1..])), TableEnd);
  }

  /** Writing the pieces one after the other builds the nested concatenation. */
  lemma Assembled(a: string, b: string, c: string, d: string, e: string)
    ensures a + b + c + d + e == a + (b + (c + (d + e)))
  {
  }

  /** Sum of the cell counts of the records. */
  function CellTotal(rows: seq<seq<string>>): nat {
    if rows == [] then 0 else |rows[0]| + CellTotal(rows[1..])
  }

  /** An opening tag short enough that the pieces written around cells
      cannot hide one across their ends. */
  predicate Tag(p: string) {
    0 < |p| <= 4 && p[0] == '<'
  }

  /** Escaped text holds no `<`. */
  lemma EscapedNoLt(x: string)
    ensures '<' !in Escape(x)
  {
    EscapeSafe(x);
  }

  /** An escaping function whose output never holds `<`. */
  ghost predicate SafeEscape(esc: string -> string) {
    forall s :: '<' !in esc(s)
  }

  /** `html.EscapeString` is one. */
  lemma EscapeIsSafe()
    ensures SafeEscape(Escape)
  {
    forall s {
      EscapedNoLt(s);
    }
  }

  /** Cell texts that hold no `<`. */
  predicate Plain(texts: seq<string>) {
    forall k :: 0 <= k < |texts| ==> '<' !in texts[k]
  }

  /** Rows of such texts. */
  predicate AllPlain(rows: seq<seq<string>>) {
    forall i :: 0 <= i < |rows| ==> Plain(rows[i])
  }

  lemma {:induction false} EscapeRowPlain(esc: string -> string, row: seq<string>)
    requires SafeEscape(esc)
    ensures Plain(EscapeRow(esc, row))
  {
    if row != [] {
      EscapeRowPlain(esc, row[1..]);
    }
  }

  lemma {:induction false} EscapeRecordsPlain(esc: string -> string, records: seq<seq<string>>)
    requires SafeEscape(esc)
    ensures AllPlain(EscapeRecords(esc, records))
  {
    if records != [] {
      EscapeRowPlain(esc, records[0]);
      EscapeRecordsPlain(esc, records[1..]);
    }
  }

  /** Escaping keeps every record's number of cells. */
  lemma {:induction false} EscapeRecordsTotal(esc: string -> string, records: seq<seq<string>>)
    ensures CellTotal(EscapeRecords(esc, records)) == CellTotal(records)
  {
    if records != [] {
      var e := EscapeRecords(esc, records);
      assert e[0] == EscapeRow(esc, records[0]) && e[1..] == EscapeRecords(esc, records[1..]);
      EscapeRecordsTotal(esc, records[1..]);
    }
  }

  lemma Regroup(open: string, e: string, close: string, cells: string, t: string)
    ensures Cell(open, e, close) + cells + t == open + (e + (close + (cells + t)))
  {
  }

  /** One cell: only its opening and closing can hold the tag. */
  lemma CellStep(open: string, e: string, close: string, rest: string, p: string)
    requires Tag(p) && NoTailStart(open, p) && NoTailStart(close, p) && '<' !in e
    ensures Count(open + (e + (close + rest)), p) == Count(open, p) + Count(close, p) + Count(rest, p)
  {
    CountAbsentHead(e, p);
    assert NoTailStart(e, p);
    CountSplit(open, e + (close + rest), p);
    CountSplit(e, close + rest, p);
    CountSplit(close, rest, p);
  }

  /** The tags in a run of cells are those of its openings and closings:
      no cell text adds one. An opening and closing that hold the tag once
      give one per cell. */
  lemma {:induction false} CellsCount(texts: seq<string>, open: string, close: string, t: string, p: string)
    requires Tag(p) && NoTailStart(open, p) && NoTailStart(close, p) && Plain(texts)
    requires Count(open, p) + Count(close, p) <= 1
    ensures Count(Cells(texts, open, close) + t, p) ==
      (if Count(open, p) + Count(close, p) == 1 then |texts| else 0) + Count(t, p)
  {
    if texts == [] {
      assert Cells(texts, open, close) + t == t;
    } else {
      var rest := Cells(texts[1..], open, close) + t;
      Regroup(open, texts[0], close, Cells(texts[1..], open, close), t);
      CellStep(open, texts[0], close, rest, p);
      assert Plain(texts[1..]) by {
        forall k | 0 <= k < |texts[1..]| ensures '<' !in texts[1..][k] {
          assert texts[1..][k] == texts[k + 1];
        }
      }
      CellsCount(texts[1..], open, close, t, p);
    }
  }

  /** The pieces written around body cells and rows cannot hide a tag
      across their ends. */
  lemma RowPiecesSafe(p: string)
    requires Tag(p)
    ensures NoTailStart("<tr>", p) && NoTailStart("</tr>\n", p)
    ensures NoTailStart("<td>", p) && NoTailStart("</td>", p)
  {
  }

  /** Nor can those around header cells. */
  lemma HeadPiecesSafe(p: string)
    requires Tag(p)
    ensures NoTailStart("<th>", p) && NoTailStart("</th>", p)
  {
  }

  /** The three tags whose number the table's shape fixes. */
  datatype TagName = Th | Td | Tr

  /** The opening tag of that name. */
  function Open(n: TagName): (p: string)
    ensures Tag(p)
  {
    match n
    case Th => "<th>"
    case Td => "<td>"
    case Tr => "<tr>"
  }

  /** One body row followed by more text: one `<tr>`, one `<td>` per cell,
      no `<th>`. */
  lemma RowPrefixCount(row: seq<string>, rest: string, n: TagName)
    requires Plain(row)
    ensures Count(Row(row) + rest, Open(n)) ==
      (if n == Tr then 1 else if n == Td then |row| else 0) + Count(rest, Open(n))
  {
    var p := Open(n);
    TrOpenTags(n);
    TdOpenTags(n);
    ClosingPieces();
    ClosingTags("</td>", n);
    ClosingTags("</tr>\n", n);
    RowPiecesSafe(p);
    var cells := Cells(row, "<td>", "</td>");
    var u := "</tr>\n" + rest;
    assert Row(row) + rest == "<tr>" + (cells + u);
    CountSplit("<tr>", cells + u, p);
    CellsCount(row, "<td>", "</td>", u, p);
    CountSplit("</tr>\n", rest, p);
  }

  /** The body rows: one `<tr>` per row, one `<td>` per cell. */
  lemma {:induction false} RowsCount(rows: seq<seq<string>>, t: string, n: TagName)
    requires AllPlain(rows)
    ensures Count(Rows(rows) + t, Open(n)) ==
      (if n == Tr then |rows| else if n == Td then CellTotal(rows) else 0) + Count(t, Open(n))
  {
    if rows == [] {
      assert Rows(rows) + t == t;
    } else {
      var rest := Rows(rows[1..]) + t;
      assert Rows(rows) + t == Row(rows[0]) + rest;
      RowPrefixCount(rows[0], rest, n);
      assert AllPlain(rows[1..]) by {
        forall i | 0 <= i < |rows[1..]| ensures Plain(rows[1..][i]) {
          assert rows[1..][i] == rows[i + 1];
        }
      }
      RowsCount(rows[1..], t, n);
    }
  }

  lemma HeaderCellsCount(header: seq<string>, u: string, n: TagName)
    requires Plain(header)
    ensures Count(Cells(header, "<th>", "</th>") + u, Open(n)) == (if n == Th then |header| else 0) + Count(u, Open(n))
  {
    ThOpenTags(n);
    ClosingPieces();
    ClosingTags("</th>", n);
    HeadPiecesSafe(Open(n));
    CellsCount(header, "<th>", "</th>", u, Open(n));
  }

  /** No `<` after the first character. */
  predicate OneLt(s: string) {
    forall k :: 1 <= k < |s| ==> s[k] != '<'
  }

  /** A piece that starts with `<` and holds no other `<` holds the tag `p`
      once if it starts with it, and otherwise not at all. */
  lemma Lead(s: string, p: string)
    requires Tag(p) && |p| <= |s| && OneLt(s)
    ensures Count(s, p) == if s[..|p|] == p then 1 else 0
  {
    assert '<' !in s[1..] by {
      forall k | 0 <= k < |s[1..]| ensures s[1..][k] != '<' {
        assert s[1..][k] == s[k + 1];
      }
    }
    CountAbsentHead(s[1..], p);
  }

  /** A piece that starts with `<`, holds no other `<` and differs from the
      tag at position `i` does not hold it. */
  lemma Miss(s: string, p: string, i: nat)
    requires Tag(p) && |p| <= |s| && OneLt(s) && i < |p| && s[i] != p[i]
    ensures Count(s, p) == 0
  {
    Lead(s, p);
    assert s[..|p|][i] != p[i];
  }

  lemma Hit(s: string, p: string)
    requires Tag(p) && |p| <= |s| && OneLt(s) && s[..|p|] == p
    ensures Count(s, p) == 1
  {
    Lead(s, p);
  }

  // The counted tags each fixed piece holds.

  lemma ThOpenTags(n: TagName)
    ensures Count("<th>", Open(n)) == if n == Th then 1 else 0
  {
    match n
    case Th => Hit("<th>", Open(n));
    case Td => Miss("<th>", Open(n), 2);
    case Tr => Miss("<th>", Open(n), 2);
  }

  lemma TdOpenTags(n: TagName)
    ensures Count("<td>", Open(n)) == if n == Td then 1 else 0
  {
    match n
    case Th => Miss("<td>", Open(n), 2);
    case Td => Hit("<td>", Open(n));
    case Tr => Miss("<td>", Open(n), 2);
  }

  lemma TrOpenTags(n: TagName)
    ensures Count("<tr>", Open(n)) == if n == Tr then 1 else 0
  {
    match n
    case Th => Miss("<tr>", Open(n), 2);
    case Td => Miss("<tr>", Open(n), 2);
    case Tr => Hit("<tr>", Open(n));
  }

  /** A closing piece: `</`, a name and `>`, possibly a line break. */
  predicate Closing(s: string) {
    |s| >= 4 && s[1] == '/' && OneLt(s)
  }

  /** A closing piece holds none of the counted tags. */
  lemma ClosingTags(s: string, n: TagName)
    requires Closing(s)
    ensures Count(s, Open(n)) == 0
  {
    Miss(s, Open(n), 1);
  }

  lemma ClosingPieces()
    ensures Closing("</th>") && Closing("</td>") && Closing("</tr>\n")
  {
  }

  /** A string written between a first and a last piece starts with the
      first and ends with the last. */
  lemma Framed(a: string, m: string, b: string)
    ensures HasPrefix(a + (m + b), a) && HasSuffix(a + (m + b), b)
  {
    var s := a + (m + b);
    assert s[..|a|] == a;
    assert s[|s| - |b|..] == b;
  }

  /** The table opens with its head and closes with its end. */
  lemma TableFrame(esc: string -> string, records: seq<seq<string>>)
    requires records != []
    ensures HasPrefix(Table(esc, records), TableHead) && HasSuffix(Table(esc, records), TableEnd)
  {
    var c := Cells(EscapeRow(esc, records[0]), "<th>", "</th>");
    var r := Rows(EscapeRecords(esc, records[1..]));
    Assembled(TableHead, c, HeadEnd, r, TableEnd);
    Framed(TableHead, c + HeadEnd + r, TableEnd);
  }

  /** The header cells of the table hold one `<th>` per header cell and no
      `<td>` or `<tr>`: no cell text can add a tag. */
  lemma HeaderTags(esc: string -> string, header: seq<string>, n: TagName)
    requires SafeEscape(esc)
    ensures Count(Cells(EscapeRow(esc, header), "<th>", "</th>"), Open(n)) == if n == Th then |header| else 0
  {
    var c := Cells(EscapeRow(esc, header), "<th>", "</th>");
    EscapeRowPlain(esc, header);
    HeaderCellsCount(EscapeRow(esc, header), "", n);
    NoMore(c);
  }

  /** The body rows of the table hold one `<tr>` per body record, one `<td>`
      per body cell and no `<th>`: no cell text can add a tag. */
  lemma BodyTags(esc: string -> string, body: seq<seq<string>>, n: TagName)
    requires SafeEscape(esc)
    ensures Count(Rows(EscapeRecords(esc, body)), Open(n)) ==
      if n == Tr then |body| else if n == Td then CellTotal(body) else 0
  {
    var r := Rows(EscapeRecords(esc, body));
    EscapeRecordsPlain(esc, body);
    EscapeRecordsTotal(esc, body);
    RowsCount(EscapeRecords(esc, body), "", n);
    NoMore(r);
  }

  /** A body row is framed by `<tr>` and `</tr>` and a line break, and holds
      one `<tr>` and one `<td>` per cell. */
  lemma RowShape(esc: string -> string, row: seq<string>)
    requires SafeEscape(esc)
    ensures var r := Row(EscapeRow(esc, row));
      HasPrefix(r, "<tr>") && HasSuffix(r, "</tr>\n") &&
      Count(r, "<tr>") == 1 && Count(r, "<td>") == |row|
  {
    var texts := EscapeRow(esc, row);
    EscapeRowPlain(esc, row);
    Framed("<tr>", Cells(texts, "<td>", "</td>"), "</tr>\n");
    RowCount(texts, Tr);
    RowCount(texts, Td);
  }

  lemma RowCount(texts: seq<string>, n: TagName)
    requires Plain(texts)
    ensures Count(Row(texts), Open(n)) == if n == Tr then 1 else if n == Td then |texts| else 0
  {
    RowPrefixCount(texts, "", n);
    NoMore(Row(texts));
  }

  lemma NoMore(s: string)
    ensures s + "" == s
  {
  }

  /** `filepath.Ext` with `/` as the only separator: the suffix of the
      last path element from its last dot on, or empty when it has none. */
  function Ext(path: string): (e: string)
    ensures |e| <= |path|
    decreases |path|
  {
    if path == [] || path[|path| - 1] == '/' then ""
    else if path[|path| - 1] == '.' then "."
    else
      var e := Ext(path[..|path| - 1]);
      if e == "" then "" else e + [path[|path| - 1]]
  }

  /** A non-empty extension is a suffix of the path that starts with its
      only dot and holds no separator. */
  lemma {:induction false} ExtShape(path: string)
    ensures var e := Ext(path);
      e != "" ==> (HasSuffix(path, e) && e[0] == '.' &&
        forall k :: 1 <= k < |e| ==> e[k] != '.' && e[k] != '/')
    decreases |path|
  {
    if path != [] && path[|path| - 1] != '/' && path[|path| - 1] != '.' {
      var init := path[..|path| - 1];
      var c := path[|path| - 1];
      ExtShape(init);
      var e := Ext(init);
      if e != "" {
        assert path[|path| - |e + [c]|..] == init[|init| - |e|..] + [c];
        assert (e + [c])[0] == e[0];
        forall k | 1 <= k < |e| + 1 ensures (e + [c])[k] != '.' && (e + [c])[k] != '/' {
          if k < |e| {
            assert (e + [c])[k] == e[k];
          }
        }
      }
    } else if path != [] && path[|path| - 1] == '.' {
      assert path[|path| - 1..] == ".";
    }
  }

  /** The extension is empty exactly when every dot of the path is
      followed by a separator. */
  lemma {:induction false} ExtEmptyIff(path: string)
    ensures Ext(path) == "" <==> forall k :: 0 <= k < |path| && path[k] == '.' ==>
      exists j :: k < j < |path| && path[j] == '/'
    decreases |path|
  {
    if path != [] && path[|path| - 1] != '/' && path[|path| - 1] != '.' {
      var init := path[..|path| - 1];
      ExtEmptyIff(init);
      if Ext(init) != "" {
        var k :| 0 <= k < |init| && init[k] == '.' && forall j :: k < j < |init| ==> init[j] != '/';
        assert path[k] == '.';
      } else {
        forall k | 0 <= k < |path| && path[k] == '.'
          ensures exists j :: k < j < |path| && path[j] == '/'
        {
          assert init[k] == path[k];
          var j :| k < j < |init| && init[j] == '/';
          assert path[j] == '/';
        }
      }
    } else if path != [] && path[|path| - 1] == '.' {
      assert path[|path| - 1] == '.';
    } else if path != [] {
      forall k | 0 <= k < |path| && path[k] == '.'
        ensures exists j :: k < j < |path| && path[j] == '/'
      {
        assert path[|path| - 1] == '/';
      }
    }
  }

  /** The language name put in the fallback's class: the extension without
      its dot. */
  function Lang(src: string): string {
    TrimPrefix(Ext(src), ".")
  }

  const CodeOpen := "<pre><code class=\"language-"
  const CodeMid := "\">"
  const CodeClose := "</code></pre>"

  /** The plain block `highlightCode` returns when the highlighter fails. */
  function Fallback(src: string, data: string): string {
    CodeOpen + (Lang(src) + (CodeMid + (Escape(data) + CodeClose)))
  }

  /** `highlightCode`. The highlighter is an input: `highlighted` is its
      output, or None when tokenising or formatting fails. */
  function HighlightCode(src: string, data: string, highlighted: Option<string>): string {
    match highlighted
    case Some(h) => h
    case None => Fallback(src, data)
  }

  /** Where the parts of a four-piece string lie. */
  lemma Slices(a: string, l: string, m: string, x: string, c: string)
    ensures var s := a + (l + (m + (x + c)));
      var k := |a| + |l| + |m|;
      s[..|a|] == a && s[|a|..|a| + |l|] == l && s[k..|s| - |c|] == x && s[|s| - |c|..] == c
  {
  }

  /** The fallback block names the language of the file's extension in its
      class and holds exactly the escaped code between its opening and its
      closing, so that decoding the entities there gives the file's bytes
      back (`UnescapeEscape`). */
  lemma FallbackCode(src: string, data: string)
    ensures var out := HighlightCode(src, data, None);
      var k := |CodeOpen| + |Lang(src)| + |CodeMid|;
      k + |CodeClose| <= |out| &&
      HasPrefix(out, CodeOpen) && out[|CodeOpen|..|CodeOpen| + |Lang(src)|] == Lang(src) &&
      HasSuffix(out, CodeClose) && out[k..|out| - |CodeClose|] == Escape(data)
  {
    Slices(CodeOpen, Lang(src), CodeMid, Escape(data), CodeClose);
  }

  /** The language is the extension without its dot, or empty. */
  lemma LangOfExt(src: string)
    ensures Ext(src) == "" ==> Lang(src) == ""
    ensures Ext(src) != "" ==> Ext(src) == "." + Lang(src)
  {
    ExtShape(src);
    if Ext(src) != "" {
      assert Ext(src)[..1] == ".";
    }
  }
}
