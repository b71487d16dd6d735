/** The text `exportToCsv` writes: a header line `currentUser,count,files`, then one line
    per missing user with its identifier, its count and its files joined by `;`, every
    cell between quotes, lines separated by `\n`.

    As written, the cells are put between quotes without doubling the quotes inside
    them, so a summary whose cells hold a quote does not read back as its rows
    (`QuoteBreaksRoundTrip`). `SummaryCsvEscaped` doubles them as section 2 of RFC 4180
    requires, and every summary it writes reads back exactly (`EscapedRoundTrip`). */
module Export {
  import opened Text
  import opened Tokenizer
  import opened Rfc4180
  import opened Comparison

  const Header: seq<string> := ["currentUser", "count", "files"]

  /** `[user.currentUser, user.count.toString(), user.files.join(';')]`. */
  function SummaryFields(user: MissingUser): seq<string>
  {
    [user.currentUser, Decimal(user.count), Join(user.files, ";")]
  }

  /** The rows a summary stands for: the header, then one row per missing user. */
  function SummaryRows(users: seq<MissingUser>): seq<Row>
  {
    [Header] + seq(|users|, k requires 0 <= k < |users| => SummaryFields(users[k]))
  }

  /** `` `"${cell}"` ``: the cell between quotes, as it is. */
  function Wrap(cell: string): string
  {
    "\"" + cell + "\""
  }

  /** The cell between quotes, each quote inside doubled. */
  function Quote(cell: string): string
  {
    "\"" + Escape(cell) + "\""
  }

  /** A data line as written: `row.map(cell => `"${cell}"`).join(',')`. */
  function WrappedLine(fields: seq<string>): string
  {
    Join(seq(|fields|, k requires 0 <= k < |fields| => Wrap(fields[k])), ",")
  }

  function QuotedLine(fields: seq<string>): string
  {
    Join(seq(|fields|, k requires 0 <= k < |fields| => Quote(fields[k])), ",")
  }

  /** The lines of `csvContent` as the source builds them. */
  function WrittenLines(users: seq<MissingUser>): seq<string>
  {
    [Join(Header, ",")] + seq(|users|, k requires 0 <= k < |users| => WrappedLine(SummaryFields(users[k])))
  }

  function EscapedLines(users: seq<MissingUser>): seq<string>
  {
    [Join(Header, ",")] + seq(|users|, k requires 0 <= k < |users| => QuotedLine(SummaryFields(users[k])))
  }

  /** `csvContent`, as the source builds it. */
  function SummaryCsv(users: seq<MissingUser>): string
  {
    Join(WrittenLines(users), "\n")
  }

  /** `csvContent` with the quotes inside cells doubled. */
  function SummaryCsvEscaped(users: seq<MissingUser>): string
  {
    Join(EscapedLines(users), "\n")
  }

  // ----- from joined text to an RFC 4180 table -----

  /** Joining encoded cells with commas is encoding the line. */
  lemma {:induction false} JoinCells(cells: seq<Cell>, parts: seq<string>)
    requires |cells| > 0 && |parts| == |cells|
    requires forall k :: 0 <= k < |cells| ==> parts[k] == EncodeCell(cells[k])
    ensures Join(parts, ",") == EncodeCells(cells)
  {
    if |cells| > 1 {
      JoinCells(cells[1..], parts[1..]);
    }
  }

  /** Lines that all end with `\n`. */
  function LfLines(cellss: seq<seq<Cell>>): seq<Line>
  {
    seq(|cellss|, k requires 0 <= k < |cellss| => Line(cellss[k], LF))
  }

  lemma LfLinesTail(cellss: seq<seq<Cell>>)
    requires |cellss| > 1
    ensures LfLines(cellss[..|cellss| - 1])[1..] == LfLines(cellss[1..][..|cellss| - 2])
  {
  }

  /** Lines of encoded cells joined with `\n` are the text of a table of those lines,
      each but the last ended by `\n`. */
  lemma {:induction false} JoinLines(cellss: seq<seq<Cell>>, parts: seq<string>)
    requires |cellss| > 0 && |parts| == |cellss|
    requires forall k :: 0 <= k < |cellss| ==> ValidCells(cellss[k]) && parts[k] == EncodeCells(cellss[k])
    ensures ValidTable(LfLines(cellss[..|cellss| - 1]), cellss[|cellss| - 1])
    ensures Join(parts, "\n") == EncodeTable(LfLines(cellss[..|cellss| - 1]), cellss[|cellss| - 1])
  {
    var n := |cellss|;
    if n == 1 {
      assert LfLines(cellss[..0]) == [];
    } else {
      JoinLines(cellss[1..], parts[1..]);
      LfLinesTail(cellss);
    }
  }

  /** The rows of such a table are the lines' fields. */
  lemma {:induction false} LinesRows(cellss: seq<seq<Cell>>, rows: seq<Row>)
    requires |cellss| > 0 && |rows| == |cellss|
    requires forall k :: 0 <= k < |cellss| ==> rows[k] == Texts(cellss[k])
    ensures TableRows(LfLines(cellss[..|cellss| - 1]), cellss[|cellss| - 1]) == rows
  {
    var n := |cellss|;
    if n == 1 {
      assert LfLines(cellss[..0]) == [];
    } else {
      LinesRows(cellss[1..], rows[1..]);
      LfLinesTail(cellss);
      assert rows == [rows[0]] + rows[1..];
    }
  }

  // ----- reading a summary back -----

  /** The header names, written as they are. */
  function HeaderCells(): seq<Cell>
  {
    BareCells(Header)
  }

  function BareCells(names: seq<string>): seq<Cell>
  {
    seq(|names|, k requires 0 <= k < |names| => Bare(names[k]))
  }

  function QuotedCells(fields: seq<string>): seq<Cell>
  {
    seq(|fields|, k requires 0 <= k < |fields| => Quoted(fields[k]))
  }

  function SummaryCells(users: seq<MissingUser>): seq<seq<Cell>>
  {
    [HeaderCells()] + seq(|users|, k requires 0 <= k < |users| => QuotedCells(SummaryFields(users[k])))
  }

  /** Names free of quotes, commas and line breaks, joined with commas, are a line of
      bare cells. */
  lemma BareLine(names: seq<string>)
    requires |names| > 0 && forall k :: 0 <= k < |names| ==> BareSafe(names[k])
    ensures ValidCells(BareCells(names)) && Texts(BareCells(names)) == names
    ensures Join(names, ",") == EncodeCells(BareCells(names))
  {
    JoinCells(BareCells(names), names);
  }

  lemma HeaderLine()
    ensures ValidCells(HeaderCells()) && Texts(HeaderCells()) == Header
    ensures Join(Header, ",") == EncodeCells(HeaderCells())
  {
    assert BareSafe(Header[0]) && BareSafe(Header[1]) && BareSafe(Header[2]);
    BareLine(Header);
  }

  lemma QuotedLineCells(fields: seq<string>)
    requires |fields| > 0
    ensures ValidCells(QuotedCells(fields)) && Texts(QuotedCells(fields)) == fields
    ensures QuotedLine(fields) == EncodeCells(QuotedCells(fields))
  {
    JoinCells(QuotedCells(fields), seq(|fields|, k requires 0 <= k < |fields| => Quote(fields[k])));
  }

  /** The line of the `k`-th missing user is the encoding of its quoted cells. */
  lemma UserLine(users: seq<MissingUser>, k: nat)
    requires 1 <= k <= |users|
    ensures ValidCells(SummaryCells(users)[k])
    ensures EscapedLines(users)[k] == EncodeCells(SummaryCells(users)[k])
    ensures SummaryRows(users)[k] == Texts(SummaryCells(users)[k])
  {
    var fields := SummaryFields(users[k - 1]);
    assert SummaryCells(users)[k] == QuotedCells(fields);
    assert EscapedLines(users)[k] == QuotedLine(fields);
    assert SummaryRows(users)[k] == fields;
    QuotedLineCells(fields);
  }

  /** Line by line, the escaped summary is the encoding of its cells, and the cells'
      texts are the summary's rows. */
  lemma EscapedCells(users: seq<MissingUser>)
    ensures |SummaryCells(users)| == |EscapedLines(users)| == |SummaryRows(users)| == |users| + 1
    ensures forall k :: 0 <= k < |users| + 1 ==>
              && ValidCells(SummaryCells(users)[k])
              && EscapedLines(users)[k] == EncodeCells(SummaryCells(users)[k])
              && SummaryRows(users)[k] == Texts(SummaryCells(users)[k])
  {
    HeaderLine();
    forall k | 1 <= k < |users| + 1
      ensures ValidCells(SummaryCells(users)[k])
      ensures EscapedLines(users)[k] == EncodeCells(SummaryCells(users)[k])
      ensures SummaryRows(users)[k] == Texts(SummaryCells(users)[k])
    {
      UserLine(users, k);
    }
  }

  /** Every row of a summary has a non-empty field: the header's names, and each user's
      count, whose decimal form is never empty. */
  lemma SummaryRowsHaveContent(users: seq<MissingUser>)
    ensures forall k :: 0 <= k < |SummaryRows(users)| ==> HasContent(SummaryRows(users)[k])
  {
    forall k | 0 <= k < |SummaryRows(users)| ensures HasContent(SummaryRows(users)[k]) {
      var row := SummaryRows(users)[k];
      if k > 0 {
        assert row[1..][0] == row[1] != "";
      }
    }
  }

  lemma {:induction false} NonBlankKeepsAll(rows: seq<Row>)
    requires forall k :: 0 <= k < |rows| ==> HasContent(rows[k])
    ensures NonBlank(rows) == rows
  {
    if rows != [] {
      NonBlankKeepsAll(rows[1..]);
    }
  }

  /** The escaped summary reads back as the header and one row per missing user, each
      cell as it was, quotes, commas, `;` and line breaks included. */
  lemma EscapedRoundTrip(users: seq<MissingUser>)
    ensures Tokenize(SummaryCsvEscaped(users)) == SummaryRows(users)
  {
    var cellss := SummaryCells(users);
    EscapedCells(users);
    JoinLines(cellss, EscapedLines(users));
    LinesRows(cellss, SummaryRows(users));
    TokenizeTable(LfLines(cellss[..|cellss| - 1]), cellss[|cellss| - 1]);
    SummaryRowsHaveContent(users);
    NonBlankKeepsAll(SummaryRows(users));
  }

  // ----- the summary as written -----

  predicate QuoteFree(s: string)
  {
    forall k :: 0 <= k < |s| ==> s[k] != '"'
  }

  /** Without quotes in identifiers and file names, the summary as written is the
      escaped one, and so reads back exactly. */
  lemma WrittenRoundTrip(users: seq<MissingUser>)
    requires forall k :: 0 <= k < |users| ==> QuoteFree(users[k].currentUser) && QuoteFree(Join(users[k].files, ";"))
    ensures SummaryCsv(users) == SummaryCsvEscaped(users)
    ensures Tokenize(SummaryCsv(users)) == SummaryRows(users)
  {
    forall k | 0 <= k < |users| ensures WrappedLine(SummaryFields(users[k])) == QuotedLine(SummaryFields(users[k])) {
      var fields := SummaryFields(users[k]);
      assert QuoteFree(Decimal(users[k].count));
      assert seq(|fields|, i requires 0 <= i < |fields| => Wrap(fields[i]))
          == seq(|fields|, i requires 0 <= i < |fields| => Quote(fields[i]));
    }
    assert WrittenLines(users) == EscapedLines(users);
    EscapedRoundTrip(users);
  }

  // ----- a summary that does not read back -----

  /** One missing user whose identifier is a single quote, with no files and count `n`. */
  function Stray(n: nat): seq<MissingUser>
  {
    [MissingUser("\"", [], n)]
  }

  /** The data line the source writes for `Stray(n)`: `""","n",""`. */
  function StrayLine(n: nat): string
  {
    "\"\"\",\"" + Decimal(n) + "\",\"\""
  }

  lemma StrayWrappedLine(n: nat)
    ensures WrappedLine(SummaryFields(Stray(n)[0])) == StrayLine(n)
  {
    var d := Decimal(n);
    var fields := SummaryFields(Stray(n)[0]);
    assert fields == ["\"", d, ""];
    var wrapped := seq(|fields|, k requires 0 <= k < |fields| => Wrap(fields[k]));
    assert Wrap("\"") == "\"\"\"" && Wrap("") == "\"\"";
    assert wrapped == ["\"\"\"", Wrap(d), "\"\""];
    JoinThree("\"\"\"", Wrap(d), "\"\"", ",");
  }

  lemma JoinThree(a: string, b: string, c: string, sep: string)
    ensures Join([a, b, c], sep) == a + sep + (b + sep + c)
  {
    assert [a, b, c][1..] == [b, c] && [b, c][1..] == [c];
    assert Join([c], sep) == c;
    assert Join([b, c], sep) == b + sep + c;
  }

  lemma StrayText(n: nat)
    ensures SummaryCsv(Stray(n)) == EncodeCells(HeaderCells()) + "\n" + StrayLine(n)
  {
    StrayWrappedLine(n);
    var lines := WrittenLines(Stray(n));
    assert |lines| == 2 && lines[0] == Join(Header, ",") && lines[1] == StrayLine(n);
    assert lines[1..] == [StrayLine(n)];
    HeaderLine();
  }

  /** The header line and its terminator, read from the start, leave the header row. */
  lemma HeaderThenRest(rest: string)
    ensures Run(EncodeCells(HeaderCells()) + "\n" + rest, Scan([], [], "", false))
         == Run(rest, Scan([Header], [], "", false))
  {
    HeaderLine();
    RunLine(HeaderCells(), LF, rest, []);
    assert TerminatorText(LF) == "\n";
    assert HasContent(Header);
    assert NonBlank([Header]) == [Header] by {
      assert [Header][1..] == [];
    }
    assert [] + NonBlank([Texts(HeaderCells())]) == [Header];
  }

  /** `""",`: the quote opens, `""` is one quote, the comma is literal. */
  lemma StrayOpening(rest: string, rows: seq<Row>)
    ensures Run("\"\"\"," + rest, Scan(rows, [], "", false)) == Run(rest, Scan(rows, [], "\",", true))
  {
    var r3 := "," + rest;
    var r1 := "\"\"" + r3;
    assert "\"\"\"," + rest == "\"" + r1;
    OpenQuote(r1, Scan(rows, [], "", false));
    DoubledQuoteInsideQuotes(r3, Scan(rows, [], "", true));
    assert "" + "\"" == "\"";
    LiteralInsideQuotes(',', rest, Scan(rows, [], "\"", true));
    assert "\"" + [','] == "\",";
  }

  /** `"d",` for plain non-empty `d`: the quote closes, `d` is plain, the next quote
      opens, the comma is literal. */
  lemma StrayMiddle(d: string, rest: string, rows: seq<Row>, field: string)
    requires d != [] && BareSafe(d)
    ensures Run("\"" + d + "\"," + rest, Scan(rows, [], field, true))
         == Run(rest, Scan(rows, [], field + d + ",", true))
  {
    var r7 := "," + rest;
    var r6 := "\"" + r7;
    var r5 := d + r6;
    assert "\"" + d + "\"," + rest == "\"" + r5;
    assert r5[0] == d[0] && !IsSpecial(d[0]);
    RunClosingQuote(r5, Scan(rows, [], field, true));
    RunBare(d, r6, Scan(rows, [], field, false));
    OpenQuote(r7, Scan(rows, [], field + d, false));
    LiteralInsideQuotes(',', rest, Scan(rows, [], field + d, true));
    assert field + d + [','] == field + d + ",";
  }

  /** Reading `""","n",""` after the header: the second quote is read as an escaped
      quote, so the quotes end up open and the commas inside the line are literal. */
  lemma StrayLineReading(n: nat)
    ensures Run(StrayLine(n), Scan([Header], [], "", false))
         == Scan([Header], [], "\"," + Decimal(n) + ",\"", true)
  {
    var d := Decimal(n);
    assert BareSafe(d);
    var tail := "\"\"";
    var middle := "\"" + d + "\"," + tail;
    assert StrayLine(n) == "\"\"\"," + middle;
    StrayOpening(middle, [Header]);
    StrayMiddle(d, tail, [Header], "\",");
    DoubledQuoteInsideQuotes([], Scan([Header], [], "\"," + d + ",", true));
    assert tail == "\"\"" + [];
  }

  /** At the end of the input, a pending non-empty field becomes a row of its own. */
  lemma FlushField(rows: seq<Row>, f: string)
    requires f != ""
    ensures EndRow(Scan(rows, [], f, true)).rows == rows + [[f]]
  {
    assert [] + [f] == [f];
    assert HasContent([f]);
  }

  /** The source's summary for `Stray(n)` reads back as the header and one row with the
      single field `",n,"`, not as the row `"`, `n`, empty. */
  lemma QuoteBreaksRoundTrip(n: nat)
    ensures Tokenize(SummaryCsv(Stray(n))) == [Header, ["\"," + Decimal(n) + ",\""]]
    ensures Tokenize(SummaryCsv(Stray(n))) != SummaryRows(Stray(n))
  {
    var d := Decimal(n);
    var text := SummaryCsv(Stray(n));
    var f := "\"," + d + ",\"";
    StrayText(n);
    HeaderThenRest(StrayLine(n));
    StrayLineReading(n);
    assert Run(text, Start) == Scan([Header], [], f, true);
    FlushField([Header], f);
    assert [Header] + [[f]] == [Header, [f]];
    assert SummaryRows(Stray(n))[1] == ["\"", d, ""];
    assert |[f]| != |["\"", d, ""]|;
  }
}
