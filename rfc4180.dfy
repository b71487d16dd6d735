/** The writing side of section 2 of RFC 4180, used to state what the tokenizer reads:
    a table of cells, each bare or quoted (a quoted cell doubles its embedded quotes),
    cells separated by commas and lines ended by `\n`, `\r` or `\r\n`. The main result,
    `TokenizeTable`, is that the tokenizer gives back exactly the table's rows, less the
    rows whose fields are all empty. */
module Rfc4180 {
  import opened Tokenizer

  /** A cell as it appears in CSV text: its characters as they are, or between quotes. */
  datatype Cell = Bare(text: string) | Quoted(text: string)

  /** The characters that have a meaning outside quotes. */
  predicate IsSpecial(c: char)
  {
    c == '"' || c == ',' || c == '\n' || c == '\r'
  }

  predicate BareSafe(s: string)
  {
    forall k :: 0 <= k < |s| ==> !IsSpecial(s[k])
  }

  /** A bare cell may not hold a quote, a comma or a line terminator. */
  predicate ValidCell(c: Cell)
  {
    c.Bare? ==> BareSafe(c.text)
  }

  /** A line has at least one cell, and every cell is valid. */
  predicate ValidCells(cells: seq<Cell>)
  {
    |cells| > 0 && forall k :: 0 <= k < |cells| ==> ValidCell(cells[k])
  }

  /** Doubles every quote (section 2, rule 7). */
  function Escape(s: string): (r: string)
    ensures (forall k :: 0 <= k < |s| ==> s[k] != '"') ==> r == s
  {
    if s == [] then []
    else (if s[0] == '"' then "\"\"" else [s[0]]) + Escape(s[1..])
  }

  function EncodeCell(c: Cell): string
  {
    match c
    case Bare(t) => t
    case Quoted(t) => "\"" + Escape(t) + "\""
  }

  /** The cells of one line, separated by commas. */
  function EncodeCells(cells: seq<Cell>): string
    requires |cells| > 0
  {
    if |cells| == 1 then EncodeCell(cells[0])
    else EncodeCell(cells[0]) + "," + EncodeCells(cells[1..])
  }

  /** The fields a line of cells stands for. */
  function Texts(cells: seq<Cell>): (r: Row)
    ensures |r| == |cells| && forall k :: 0 <= k < |cells| ==> r[k] == cells[k].text
  {
    if cells == [] then [] else Texts(cells[..|cells| - 1]) + [cells[|cells| - 1].text]
  }

  datatype Terminator = LF | CR | CRLF

  function TerminatorText(t: Terminator): string
  {
    match t
    case LF => "\n"
    case CR => "\r"
    case CRLF => "\r\n"
  }

  datatype Line = Line(cells: seq<Cell>, end: Terminator)

  predicate ValidTable(lines: seq<Line>, last: seq<Cell>)
  {
    (forall k :: 0 <= k < |lines| ==> ValidCells(lines[k].cells)) && ValidCells(last)
  }

  /** The text of a table: every line followed by its terminator, then a last line with
      no terminator (a single empty bare cell when the text ends with a terminator). */
  function EncodeTable(lines: seq<Line>, last: seq<Cell>): string
    requires ValidTable(lines, last)
  {
    if lines == [] then EncodeCells(last)
    else EncodeCells(lines[0].cells) + TerminatorText(lines[0].end) + EncodeTable(lines[1..], last)
  }

  /** The rows a table stands for, one per line. */
  function TableRows(lines: seq<Line>, last: seq<Cell>): (r: seq<Row>)
    ensures |r| == |lines| + 1
  {
    if lines == [] then [Texts(last)] else [Texts(lines[0].cells)] + TableRows(lines[1..], last)
  }

  /** The rows that have a non-empty field, in order. */
  function NonBlank(rows: seq<Row>): (r: seq<Row>)
    ensures |r| <= |rows|
    ensures forall k :: 0 <= k < |r| ==> HasContent(r[k])
  {
    if rows == [] then []
    else (if HasContent(rows[0]) then [rows[0]] else []) + NonBlank(rows[1..])
  }

  // ----- reading the pieces back -----

  /** Outside quotes, characters with no special meaning are appended to the field. */
  lemma {:induction false} RunBare(t: string, rest: string, st: Scan)
    requires !st.quoted && BareSafe(t)
    ensures Run(t + rest, st) == Run(rest, st.(field := st.field + t))
    decreases |t|
  {
    if t != [] {
      var next := st.(field := st.field + [t[0]]);
      assert Step(t + rest, st) == (1, next);
      assert (t + rest)[1..] == t[1..] + rest;
      RunBare(t[1..], rest, next);
      assert next.field + t[1..] == st.field + t;
    } else {
      assert t + rest == rest && st.field + t == st.field;
    }
  }

  /** Inside quotes, the escaped form of one character yields that character. */
  lemma RunEscapedChar(t: string, rest: string, st: Scan)
    requires st.quoted && t != []
    ensures Run(Escape(t) + rest, st) == Run(Escape(t[1..]) + rest, st.(field := st.field + [t[0]]))
  {
    var tail := Escape(t[1..]) + rest;
    EscapeHead(t, rest);
    if t[0] == '"' {
      DoubledQuoteInsideQuotes(tail, st);
    } else {
      LiteralInsideQuotes(t[0], tail, st);
    }
  }

  /** The escaped form of the first character, then the rest. */
  lemma EscapeHead(t: string, rest: string)
    requires t != []
    ensures Escape(t) + rest == (if t[0] == '"' then "\"\"" else [t[0]]) + (Escape(t[1..]) + rest)
  {
  }

  /** Inside quotes, a quote that is not followed by another one closes the quotes. */
  lemma RunClosingQuote(rest: string, st: Scan)
    requires st.quoted
    requires rest == [] || rest[0] != '"'
    ensures Run("\"" + rest, st) == Run(rest, st.(quoted := false))
  {
    assert ("\"" + rest)[1..] == rest;
  }

  /** Inside quotes, an escaped text followed by the closing quote yields the text
      itself and leaves quoted mode, provided the closing quote is not followed by
      another quote. */
  lemma {:induction false} RunQuotedBody(t: string, rest: string, st: Scan)
    requires st.quoted
    requires rest == [] || rest[0] != '"'
    ensures Run(Escape(t) + ("\"" + rest), st) == Run(rest, st.(field := st.field + t, quoted := false))
    decreases |t|
  {
    if t == [] {
      RunClosingQuote(rest, st);
      assert Escape(t) + ("\"" + rest) == "\"" + rest;
      assert st.(field := st.field + t, quoted := false) == st.(quoted := false) by {
        assert st.field + t == st.field;
      }
    } else {
      var next := st.(field := st.field + [t[0]]);
      var after := st.(field := st.field + t, quoted := false);
      assert next.(field := next.field + t[1..], quoted := false) == after by {
        assert next.field + t[1..] == st.field + t;
      }
      RunEscapedChar(t, "\"" + rest, st);
      RunQuotedBody(t[1..], rest, next);
    }
  }

  /** A valid cell, read outside quotes, appends its text to the field, provided what
      follows it is a separator, a terminator or the end. */
  lemma RunCell(c: Cell, rest: string, st: Scan)
    requires !st.quoted && ValidCell(c)
    requires rest == [] || rest[0] == ',' || rest[0] == '\n' || rest[0] == '\r'
    ensures Run(EncodeCell(c) + rest, st) == Run(rest, st.(field := st.field + c.text))
  {
    match c
    case Bare(t) =>
      RunBare(t, rest, st);
    case Quoted(t) =>
      var s := "\"" + (Escape(t) + ("\"" + rest));
      var inside := st.(quoted := true);
      assert EncodeCell(c) + rest == s;
      assert Step(s, st) == (1, inside);
      assert s[1..] == Escape(t) + ("\"" + rest);
      RunQuotedBody(t, rest, inside);
  }

  /** A cell and the comma after it, read from the start of a field, move the cell's
      text into the row. */
  lemma RunCellAndComma(c: Cell, tail: string, rows: seq<Row>, row: Row)
    requires ValidCell(c)
    ensures Run(EncodeCell(c) + ("," + tail), Scan(rows, row, "", false))
         == Run(tail, Scan(rows, row + [c.text], "", false))
  {
    var st := Scan(rows, row, "", false);
    RunCell(c, "," + tail, st);
    assert "" + c.text == c.text;
    CommaEndsField(tail, st.(field := c.text));
  }

  lemma ValidTail(cells: seq<Cell>)
    requires ValidCells(cells) && |cells| >= 2
    ensures ValidCells(cells[1..])
  {
    forall k | 0 <= k < |cells| - 1 ensures ValidCell(cells[1..][k]) {
      assert cells[1..][k] == cells[k + 1];
    }
  }

  lemma CellsTail(cells: seq<Cell>, row: Row)
    requires ValidCells(cells) && |cells| >= 2
    ensures ValidCells(cells[1..])
    ensures row + [cells[0].text] + Texts(cells[1..][..|cells[1..]| - 1]) == row + Texts(cells[..|cells| - 1])
    ensures cells[1..][|cells[1..]| - 1] == cells[|cells| - 1]
  {
    var n := |cells|;
    forall k | 0 <= k < n - 1 ensures ValidCell(cells[1..][k]) {
      assert cells[1..][k] == cells[k + 1];
    }
    assert cells[1..][..n - 2] == cells[1..n - 1];
    assert cells[..n - 1][1..] == cells[1..n - 1];
    assert Texts(cells[..n - 1]) == [cells[0].text] + Texts(cells[1..][..n - 2]);
  }

  /** A line of one cell leaves that cell's text as the pending field. */
  lemma RunOneCell(c: Cell, rest: string, rows: seq<Row>, row: Row)
    requires ValidCell(c)
    requires rest == [] || rest[0] == '\n' || rest[0] == '\r'
    ensures Run(EncodeCells([c]) + rest, Scan(rows, row, "", false)) == Run(rest, Scan(rows, row, c.text, false))
  {
    RunCell(c, rest, Scan(rows, row, "", false));
    assert "" + c.text == c.text;
  }

  /** The cells of a line, read from the start of a field, leave all but the last cell's
      text in the row and the last one as the pending field. */
  lemma {:induction false} RunCells(cells: seq<Cell>, rest: string, rows: seq<Row>, row: Row)
    requires ValidCells(cells)
    requires rest == [] || rest[0] == '\n' || rest[0] == '\r'
    ensures Run(EncodeCells(cells) + rest, Scan(rows, row, "", false))
         == Run(rest, Scan(rows, row + Texts(cells[..|cells| - 1]), cells[|cells| - 1].text, false))
    decreases |cells|, 1
  {
    if |cells| == 1 {
      RunOneCell(cells[0], rest, rows, row);
      SingleCell(cells, row);
    } else {
      RunSeveralCells(cells, rest, rows, row);
    }
  }

  /** `RunCells` for two cells or more: the first cell and its comma, then the others. */
  lemma {:induction false} RunSeveralCells(cells: seq<Cell>, rest: string, rows: seq<Row>, row: Row)
    requires ValidCells(cells) && |cells| >= 2
    requires rest == [] || rest[0] == '\n' || rest[0] == '\r'
    ensures Run(EncodeCells(cells) + rest, Scan(rows, row, "", false))
         == Run(rest, Scan(rows, row + Texts(cells[..|cells| - 1]), cells[|cells| - 1].text, false))
    decreases |cells|, 0
  {
    ValidTail(cells);
    RunCells(cells[1..], rest, rows, row + [cells[0].text]);
    RunCellsStep(cells, rest, rows, row);
  }

  lemma SingleCell(cells: seq<Cell>, row: Row)
    requires |cells| == 1
    ensures cells == [cells[0]] && row + Texts(cells[..0]) == row
  {
    assert cells[..0] == [];
  }

  /** The first cell and its comma, then the other cells as `RunCells` reads them. */
  lemma RunCellsStep(cells: seq<Cell>, rest: string, rows: seq<Row>, row: Row)
    requires ValidCells(cells) && |cells| >= 2
    requires Run(EncodeCells(cells[1..]) + rest, Scan(rows, row + [cells[0].text], "", false))
          == Run(rest, Scan(rows, row + [cells[0].text] + Texts(cells[1..][..|cells[1..]| - 1]),
                            cells[1..][|cells[1..]| - 1].text, false))
    ensures Run(EncodeCells(cells) + rest, Scan(rows, row, "", false))
         == Run(rest, Scan(rows, row + Texts(cells[..|cells| - 1]), cells[|cells| - 1].text, false))
  {
    var first := EncodeCell(cells[0]);
    var others := EncodeCells(cells[1..]);
    assert EncodeCells(cells) == first + "," + others;
    ConcatAssoc(first, ",", others, rest);
    RunCellAndComma(cells[0], others + rest, rows, row);
    CellsTail(cells, row);
  }

  lemma ConcatAssoc(a: string, b: string, c: string, d: string)
    ensures a + b + c + d == a + (b + (c + d))
  {
  }

  /** Flushing the state a line of cells leaves behind adds the line's row when it has a
      non-empty field. */
  lemma FlushCells(cells: seq<Cell>, rows: seq<Row>)
    requires |cells| > 0
    ensures EndRow(Scan(rows, Texts(cells[..|cells| - 1]), cells[|cells| - 1].text, false))
         == Scan(rows + NonBlank([Texts(cells)]), [], "", false)
  {
    FlushRow(rows, Texts(cells[..|cells| - 1]), cells[|cells| - 1].text);
  }

  lemma FlushRow(rows: seq<Row>, row: Row, field: string)
    ensures EndRow(Scan(rows, row, field, false)) == Scan(rows + NonBlank([row + [field]]), [], "", false)
  {
    var r := row + [field];
    EndRowKeepsNonBlankRows(Scan(rows, row, field, false));
    assert [r][1..] == [];
    assert NonBlank([r]) == if HasContent(r) then [r] else [];
  }

  lemma RunTerminator(t: Terminator, rest: string, st: Scan)
    requires !st.quoted
    ensures Run(TerminatorText(t) + rest, st) == Run(rest, EndRow(st))
  {
    TerminatorsEndRow(rest, st);
  }

  /** A whole line with its terminator, read from the start of a row, adds its row when
      that row has a non-empty field. */
  lemma RunLine(cells: seq<Cell>, t: Terminator, rest: string, rows: seq<Row>)
    requires ValidCells(cells)
    ensures Run(EncodeCells(cells) + TerminatorText(t) + rest, Scan(rows, [], "", false))
         == Run(rest, Scan(rows + NonBlank([Texts(cells)]), [], "", false))
  {
    var term := TerminatorText(t) + rest;
    assert EncodeCells(cells) + TerminatorText(t) + rest == EncodeCells(cells) + term;
    RunCells(cells, term, rows, []);
    var pending := Scan(rows, Texts(cells[..|cells| - 1]), cells[|cells| - 1].text, false);
    assert [] + Texts(cells[..|cells| - 1]) == Texts(cells[..|cells| - 1]);
    RunTerminator(t, rest, pending);
    FlushCells(cells, rows);
  }

  lemma TableTail(lines: seq<Line>, last: seq<Cell>)
    requires ValidTable(lines, last) && lines != []
    ensures ValidTable(lines[1..], last)
    ensures NonBlank(TableRows(lines, last))
         == NonBlank([Texts(lines[0].cells)]) + NonBlank(TableRows(lines[1..], last))
  {
    forall k | 0 <= k < |lines| - 1 ensures ValidCells(lines[1..][k].cells) {
      assert lines[1..][k] == lines[k + 1];
    }
    var all := TableRows(lines, last);
    assert all[1..] == TableRows(lines[1..], last);
  }

  lemma {:induction false} RunTable(lines: seq<Line>, last: seq<Cell>, rows: seq<Row>)
    requires ValidTable(lines, last)
    ensures EndRow(Run(EncodeTable(lines, last), Scan(rows, [], "", false))).rows
         == rows + NonBlank(TableRows(lines, last))
    decreases |lines|
  {
    if lines == [] {
      assert EncodeCells(last) == EncodeCells(last) + [];
      RunCells(last, [], rows, []);
      assert [] + Texts(last[..|last| - 1]) == Texts(last[..|last| - 1]);
      FlushCells(last, rows);
    } else {
      TableTail(lines, last);
      RunLine(lines[0].cells, lines[0].end, EncodeTable(lines[1..], last), rows);
      RunTable(lines[1..], last, rows + NonBlank([Texts(lines[0].cells)]));
    }
  }

  /** The tokenizer reads back every table written under section 2 of RFC 4180, with
      any mix of bare and quoted cells and of `\n`, `\r` and `\r\n` terminators: it
      returns the table's rows minus those whose fields are all empty. */
  lemma TokenizeTable(lines: seq<Line>, last: seq<Cell>)
    requires ValidTable(lines, last)
    ensures Tokenize(EncodeTable(lines, last)) == NonBlank(TableRows(lines, last))
  {
    RunTable(lines, last, []);
  }

  // ----- one line without quotes -----

  /** The pieces of `s` between its commas (`s.split(',')`). */
  function SplitFields(s: string): (r: seq<string>)
    ensures |r| >= 1
  {
    if s == [] then [""]
    else
      var t := SplitFields(s[1..]);
      if s[0] == ',' then [""] + t else [[s[0]] + t[0]] + t[1..]
  }

  function CountChar(s: string, c: char): nat
  {
    if s == [] then 0 else (if s[0] == c then 1 else 0) + CountChar(s[1..], c)
  }

  function Bares(fields: seq<string>): (r: seq<Cell>)
    ensures |r| == |fields| && forall k :: 0 <= k < |r| ==> r[k] == Bare(fields[k])
  {
    if fields == [] then [] else [Bare(fields[0])] + Bares(fields[1..])
  }

  /** Splitting at commas makes one more piece than there are commas. */
  lemma {:induction false} SplitFieldsCount(s: string)
    ensures |SplitFields(s)| == CountChar(s, ',') + 1
  {
    if s != [] {
      SplitFieldsCount(s[1..]);
    }
  }

  /** Without quotes and terminators in `s`, every piece can be written bare. */
  lemma {:induction false} SplitFieldsSafe(s: string)
    requires forall k :: 0 <= k < |s| ==> s[k] != '"' && s[k] != '\n' && s[k] != '\r'
    ensures forall k :: 0 <= k < |SplitFields(s)| ==> BareSafe(SplitFields(s)[k])
  {
    if s != [] {
      SplitFieldsSafe(s[1..]);
      var t := SplitFields(s[1..]);
      if s[0] != ',' {
        assert BareSafe(t[0]);
        assert BareSafe([s[0]] + t[0]);
      }
    }
  }

  lemma EncodeBaresCons(f: string, fields: seq<string>)
    requires fields != []
    ensures EncodeCells(Bares([f] + fields)) == f + "," + EncodeCells(Bares(fields))
  {
    assert ([f] + fields)[1..] == fields;
  }

  /** A character put in front of the first piece is put in front of the line. */
  lemma EncodeBaresExtend(c: char, f: string, fields: seq<string>)
    ensures EncodeCells(Bares([[c] + f] + fields)) == [c] + EncodeCells(Bares([f] + fields))
  {
    if fields == [] {
      assert Bares([[c] + f]) == [Bare([c] + f)];
      assert Bares([f]) == [Bare(f)];
    } else {
      EncodeBaresCons([c] + f, fields);
      EncodeBaresCons(f, fields);
      ConcatAssoc([c], f, ",", EncodeCells(Bares(fields)));
    }
  }

  /** Writing the pieces back as bare cells between commas gives `s` again. */
  lemma {:induction false} SplitFieldsEncode(s: string)
    ensures EncodeCells(Bares(SplitFields(s))) == s
  {
    if s != [] {
      var t := SplitFields(s[1..]);
      SplitFieldsEncode(s[1..]);
      assert s == [s[0]] + s[1..];
      if s[0] == ',' {
        EncodeBaresCons("", t);
      } else {
        assert t == [t[0]] + t[1..];
        EncodeBaresExtend(s[0], t[0], t[1..]);
      }
    }
  }

  /** Splitting at commas makes one more piece than there are commas, and writing the
      pieces back as bare cells gives the line. */
  lemma SplitFieldsRoundTrip(s: string)
    requires forall k :: 0 <= k < |s| ==> s[k] != '"' && s[k] != '\n' && s[k] != '\r'
    ensures |SplitFields(s)| == CountChar(s, ',') + 1
    ensures ValidCells(Bares(SplitFields(s)))
    ensures EncodeCells(Bares(SplitFields(s))) == s
  {
    SplitFieldsCount(s);
    SplitFieldsSafe(s);
    SplitFieldsEncode(s);
  }

  /** A line without quotes or terminators becomes one row with one field per piece
      between its commas, that is one more field than it has commas, unless every piece
      is empty, in which case it yields no row at all. */
  lemma TokenizeUnquotedLine(s: string)
    requires forall k :: 0 <= k < |s| ==> s[k] != '"' && s[k] != '\n' && s[k] != '\r'
    ensures Tokenize(s) == if HasContent(SplitFields(s)) then [SplitFields(s)] else []
    ensures |SplitFields(s)| == CountChar(s, ',') + 1
  {
    SplitFieldsRoundTrip(s);
    var cells := Bares(SplitFields(s));
    TokenizeTable([], cells);
    assert Texts(cells) == SplitFields(s);
  }
}
