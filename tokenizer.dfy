/** The CSV tokenizer `parseRfc4180Csv`: one left-to-right pass over the text with one
    character of lookahead, splitting it into rows of fields under the quoting rules of
    section 2 of RFC 4180, accepting `\n`, `\r` and `\r\n` as line terminators and
    dropping every row whose fields are all empty.

    `Run` is the specification: it consumes the remaining text `s` from a scanner state,
    `s[1]` being the lookahead character. The method `ParseRfc4180Csv` is the loop of the
    source, proved to compute `Tokenize`. */
module Tokenizer {

  type Row = seq<string>

  /** `row.some(field => field.length > 0)`. */
  predicate HasContent(row: Row)
  {
    row != [] && (row[0] != "" || HasContent(row[1..]))
  }

  /** The scanner's accumulators: finished rows, the row being built, the field being
      built and whether the scanner is inside a quoted section. */
  datatype Scan = Scan(rows: seq<Row>, row: Row, field: string, quoted: bool)

  const Start: Scan := Scan([], [], "", false)

  /** `rows` with `row` appended when it has a non-empty field. */
  function Kept(rows: seq<Row>, row: Row): seq<Row>
  {
    if HasContent(row) then rows + [row] else rows
  }

  /** What a line terminator outside quotes, and the end of input, do: when a field or a
      row is pending, the field is appended to the row, the row is kept only if it has a
      non-empty field, and both accumulators are reset. */
  function EndRow(st: Scan): Scan
  {
    if st.field != "" || |st.row| > 0 then
      var row := st.row + [st.field];
      Scan(if HasContent(row) then st.rows + [row] else st.rows, [], "", st.quoted)
    else
      st
  }

  /** One iteration of the loop on the remaining text `s`: how many characters it
      consumes and the new state. */
  function Step(s: string, st: Scan): (r: (nat, Scan))
    requires s != []
    ensures 1 <= r.0 <= 2 && r.0 <= |s|
  {
    var c := s[0];
    if c == '"' then
      if st.quoted && |s| > 1 && s[1] == '"' then (2, st.(field := st.field + "\""))
      else (1, st.(quoted := !st.quoted))
    else if c == ',' && !st.quoted then
      (1, st.(row := st.row + [st.field], field := ""))
    else if (c == '\n' || c == '\r') && !st.quoted then
      (if c == '\r' && |s| > 1 && s[1] == '\n' then 2 else 1, EndRow(st))
    else
      (1, st.(field := st.field + [c]))
  }

  /** The state after the loop has consumed all of `s`. */
  function Run(s: string, st: Scan): Scan
    decreases |s|
  {
    if s == [] then st
    else
      var step := Step(s, st);
      Run(s[step.0..], step.1)
  }

  /** The rows `parseRfc4180Csv(text)` returns: the loop, then the final flush. */
  function Tokenize(text: string): seq<Row>
  {
    EndRow(Run(text, Start)).rows
  }

  /** The tokenizer as the source writes it: a `while` loop over the index `i`. */
  method ParseRfc4180Csv(text: string) returns (rows: seq<Row>)
    ensures rows == Tokenize(text)
    ensures forall k :: 0 <= k < |rows| ==> HasContent(rows[k])
  {
    rows := [];
    var currentRow: Row := [];
    var currentField := "";
    var insideQuotes := false;
    var i := 0;

    while i < |text|
      invariant 0 <= i <= |text|
      invariant EndRow(Run(text[i..], Scan(rows, currentRow, currentField, insideQuotes))).rows
                == Tokenize(text)
    {
      ghost var before := Scan(rows, currentRow, currentField, insideQuotes);
      ghost var i0 := i;
      ghost var s := text[i..];
      var c := text[i];
      assert s[0] == c && (i + 1 < |text| ==> |s| > 1 && s[1] == text[i + 1]);
      if c == '"' {
        if insideQuotes && i + 1 < |text| && text[i + 1] == '"' {
          assert Step(s, before) == (2, before.(field := currentField + "\""));
          currentField := currentField + "\"";
          i := i + 2;
        } else {
          assert Step(s, before) == (1, before.(quoted := !insideQuotes));
          insideQuotes := !insideQuotes;
          i := i + 1;
        }
      } else if c == ',' && !insideQuotes {
        assert Step(s, before) == (1, before.(row := currentRow + [currentField], field := ""));
        currentRow := currentRow + [currentField];
        currentField := "";
        i := i + 1;
      } else if (c == '\n' || c == '\r') && !insideQuotes {
        ghost var n := if c == '\r' && i + 1 < |text| && text[i + 1] == '\n' then 2 else 1;
        assert Step(s, before) == (n, EndRow(before));
        if currentField != "" || |currentRow| > 0 {
          currentRow := currentRow + [currentField];
          if HasContent(currentRow) {
            rows := rows + [currentRow];
          }
          currentRow := [];
          currentField := "";
        }
        if c == '\r' && i + 1 < |text| && text[i + 1] == '\n' {
          i := i + 2;
        } else {
          i := i + 1;
        }
      } else {
        assert Step(s, before) == (1, before.(field := currentField + [c]));
        currentField := currentField + [c];
        i := i + 1;
      }
      RunAdvance(text, i0, before, i - i0, Scan(rows, currentRow, currentField, insideQuotes));
    }

    if currentField != "" || |currentRow| > 0 {
      currentRow := currentRow + [currentField];
      if HasContent(currentRow) {
        rows := rows + [currentRow];
      }
    }
    TokenizeRowsHaveContent(text);
  }

  // ----- properties of the tokenizer -----

  /** One step of the loop at position `i` moves the rest of the run to `i + n`. */
  lemma RunAdvance(text: string, i: nat, st: Scan, n: nat, next: Scan)
    requires i < |text| && Step(text[i..], st) == (n, next)
    ensures i + n <= |text| && Run(text[i..], st) == Run(text[i + n..], next)
  {
    assert text[i..][n..] == text[i + n..];
  }

  /** The guard before a row is flushed changes nothing: flushing always appends the
      pending field and keeps the row exactly when one of its fields is non-empty. */
  lemma EndRowKeepsNonBlankRows(st: Scan)
    ensures EndRow(st) == Scan(Kept(st.rows, st.row + [st.field]), [], "", st.quoted)
  {
    if st.field == "" && |st.row| == 0 {
      assert !HasContent(st.row + [st.field]);
    }
  }

  /** Flushing twice is flushing once: a terminator right after another adds nothing. */
  lemma EndRowIdempotent(st: Scan)
    ensures EndRow(EndRow(st)) == EndRow(st)
  {
  }

  /** The loop never loses a row it has emitted and only emits rows with content. */
  lemma {:induction false} RunKeepsContent(s: string, st: Scan)
    requires forall k :: 0 <= k < |st.rows| ==> HasContent(st.rows[k])
    ensures forall k :: 0 <= k < |Run(s, st).rows| ==> HasContent(Run(s, st).rows[k])
    ensures st.rows <= Run(s, st).rows
    decreases |s|
  {
    if s != [] {
      var step := Step(s, st);
      RunKeepsContent(s[step.0..], step.1);
    }
  }

  /** Every row the tokenizer returns holds at least one non-empty field. */
  lemma TokenizeRowsHaveContent(text: string)
    ensures forall k :: 0 <= k < |Tokenize(text)| ==> HasContent(Tokenize(text)[k])
  {
    RunKeepsContent(text, Start);
  }

  /** Inside quotes, a doubled quote adds one literal quote and consumes both characters. */
  lemma DoubledQuoteInsideQuotes(rest: string, st: Scan)
    requires st.quoted
    ensures Run("\"\"" + rest, st) == Run(rest, st.(field := st.field + "\""))
  {
    assert ("\"\"" + rest)[2..] == rest;
  }

  /** Outside quotes, a quote opens a quoted section. */
  lemma OpenQuote(rest: string, st: Scan)
    requires !st.quoted
    ensures Run("\"" + rest, st) == Run(rest, st.(quoted := true))
  {
    assert ("\"" + rest)[1..] == rest;
  }

  /** Inside quotes, every character but the quote, commas and line terminators
      included, is part of the field. */
  lemma LiteralInsideQuotes(c: char, rest: string, st: Scan)
    requires st.quoted && c != '"'
    ensures Run([c] + rest, st) == Run(rest, st.(field := st.field + [c]))
  {
    assert ([c] + rest)[1..] == rest;
  }

  /** Outside quotes, a comma ends the field and starts the next one. */
  lemma CommaEndsField(rest: string, st: Scan)
    requires !st.quoted
    ensures Run("," + rest, st) == Run(rest, st.(row := st.row + [st.field], field := ""))
  {
    assert ("," + rest)[1..] == rest;
  }

  /** Outside quotes, `\r\n`, a lone `\r` and `\n` all end the row once: `\r\n` is one
      terminator, and whatever follows a terminator starts a new row. */
  lemma TerminatorsEndRow(rest: string, st: Scan)
    requires !st.quoted
    ensures Run("\r\n" + rest, st) == Run(rest, EndRow(st))
    ensures Run("\r" + rest, st) == Run(rest, EndRow(st))
    ensures Run("\n" + rest, st) == Run(rest, EndRow(st))
  {
    assert ("\r\n" + rest)[2..] == rest;
    assert ("\r" + rest)[1..] == rest;
    assert ("\n" + rest)[1..] == rest;
    if rest != [] && rest[0] == '\n' {
      // the lone `\r` sees `\n` ahead and takes both; reading them apart flushes twice
      assert "\r" + rest == "\r\n" + rest[1..];
      EndRowIdempotent(st);
      assert Run(rest, EndRow(st)) == Run(rest[1..], EndRow(EndRow(st)));
    }
  }

  /** A quote that is never closed absorbs the rest of the input, commas and line
      terminators included, into the current field. */
  lemma {:induction false} UnclosedQuoteAbsorbsRest(s: string, st: Scan)
    requires st.quoted
    requires forall k :: 0 <= k < |s| ==> s[k] != '"'
    ensures Run(s, st) == st.(field := st.field + s)
    decreases |s|
  {
    if s != [] {
      var next := st.(field := st.field + [s[0]]);
      assert Step(s, st) == (1, next);
      UnclosedQuoteAbsorbsRest(s[1..], next);
      assert next.field + s[1..] == st.field + s;
    }
  }
}
