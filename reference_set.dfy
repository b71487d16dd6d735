/** The reference-set builder `parseCsvFile`: tokenizes the CSV text, finds the named
    column in the trimmed header and collects, from every data row, either the value a
    JSON cell holds under the key or, when the cell is not JSON, the trimmed cell
    itself. The file is given as its text. */
module ReferenceSet {
  import opened Wrappers
  import opened Text
  import opened Json
  import opened Tokenizer

  /** The two errors `parseCsvFile` throws. */
  datatype CsvError = EmptyCsv | ColumnNotFound(column: string, available: seq<string>)

  /** The error's message, as the user sees it. */
  function Message(e: CsvError): string
  {
    match e
    case EmptyCsv => "CSV file is empty"
    case ColumnNotFound(column, available) =>
      "Column \"" + column + "\" not found in CSV. Available columns: " + Join(available, ", ")
  }

  /** `rows[0].map(h => h.trim())`. */
  function Headers(header: Row): (r: seq<string>)
    ensures |r| == |header| && forall k :: 0 <= k < |header| ==> r[k] == Trim(header[k])
  {
    seq(|header|, k requires 0 <= k < |header| => Trim(header[k]))
  }

  /** `headers.indexOf(name)`: the first position holding exactly `name`, or -1. */
  function IndexOf(headers: seq<string>, name: string): (r: int)
    ensures -1 <= r < |headers|
    ensures r == -1 <==> name !in headers
    ensures r >= 0 ==> headers[r] == name && forall k :: 0 <= k < r ==> headers[k] != name
  {
    if headers == [] then -1
    else if headers[0] == name then 0
    else
      var i := IndexOf(headers[1..], name);
      if i == -1 then -1 else i + 1
  }

  /** How a cell reads: as a JSON document, or as plain text when it is not JSON. */
  datatype CellReading = Structured(doc: Document) | Plain(text: string)

  function ReadCell(parse: Parser, cell: string): CellReading
  {
    match parse(cell)
    case Some(doc) => Structured(doc)
    case None => Plain(cell)
  }

  /** What one data row adds to the set: nothing for a row too short to have the
      column or whose cell is blank; for a JSON cell, the trimmed value under the key if
      that value is truthy and nothing otherwise; for any other cell, the cell trimmed. */
  function RowIdentifier(row: Row, column: nat, jsonKey: string, parse: Parser): Option<string>
  {
    if |row| <= column then None
    else
      var cell := Trim(row[column]);
      if cell == "" then None
      else
        match ReadCell(parse, cell)
        case Structured(doc) =>
          var v := Get(doc, jsonKey);
          if Truthy(v) then Some(Trim(Shown(v))) else None
        case Plain(text) => Some(Trim(text))
  }

  /** The identifiers the data rows yield, as a set. */
  function Identifiers(rows: seq<Row>, column: nat, jsonKey: string, parse: Parser): set<string>
  {
    if rows == [] then {}
    else
      var earlier := Identifiers(rows[..|rows| - 1], column, jsonKey, parse);
      match RowIdentifier(rows[|rows| - 1], column, jsonKey, parse)
      case Some(x) => earlier + {x}
      case None => earlier
  }

  /** What `parseCsvFile` yields for the tokenized rows: an error for no rows or for a
      header without the column, otherwise the identifiers of the data rows. */
  function ReferenceSetOf(rows: seq<Row>, jsonColumnName: string, jsonKey: string, parse: Parser)
    : Result<set<string>, CsvError>
  {
    if rows == [] then Failure(EmptyCsv)
    else
      var headers := Headers(rows[0]);
      var column := IndexOf(headers, jsonColumnName);
      if column == -1 then Failure(ColumnNotFound(jsonColumnName, headers))
      else Success(Identifiers(rows[1..], column, jsonKey, parse))
  }

  /** One more data row adds what it yields, if anything. */
  lemma IdentifiersStep(rows: seq<Row>, i: nat, column: nat, jsonKey: string, parse: Parser)
    requires 1 <= i < |rows|
    ensures RowIdentifier(rows[i], column, jsonKey, parse).Some? ==>
              Identifiers(rows[1..i + 1], column, jsonKey, parse)
              == Identifiers(rows[1..i], column, jsonKey, parse) + {RowIdentifier(rows[i], column, jsonKey, parse).value}
    ensures RowIdentifier(rows[i], column, jsonKey, parse).None? ==>
              Identifiers(rows[1..i + 1], column, jsonKey, parse) == Identifiers(rows[1..i], column, jsonKey, parse)
  {
    var longer := rows[1..i + 1];
    assert longer[..|longer| - 1] == rows[1..i];
    assert longer[|longer| - 1] == rows[i];
  }

  /** The loop of `parseCsvFile` over the data rows `rows[1..]`. */
  method CollectIdentifiers(rows: seq<Row>, columnIndex: nat, jsonKey: string, parse: Parser)
    returns (users: set<string>)
    requires rows != []
    ensures users == Identifiers(rows[1..], columnIndex, jsonKey, parse)
  {
    users := {};
    for i := 1 to |rows|
      invariant users == Identifiers(rows[1..i], columnIndex, jsonKey, parse)
    {
      IdentifiersStep(rows, i, columnIndex, jsonKey, parse);
      var row := rows[i];
      if |row| > columnIndex {
        var cellValue := Trim(row[columnIndex]);
        if cellValue != "" {
          match parse(cellValue) {
            case Some(jsonData) =>
              var value := Get(jsonData, jsonKey);
              if Truthy(value) {
                users := users + {Trim(Shown(value))};
              }
            case None =>
              users := users + {Trim(cellValue)};
          }
        }
      }
    }
    assert rows[1..|rows|] == rows[1..];
  }

  /** `parseCsvFile`, with the file given as its text. */
  method ParseCsvFile(text: string, jsonColumnName: string, jsonKey: string, parse: Parser)
    returns (r: Result<set<string>, CsvError>)
    ensures r == ReferenceSetOf(Tokenize(text), jsonColumnName, jsonKey, parse)
  {
    var rows := Tokenizer.ParseRfc4180Csv(text);
    if |rows| == 0 {
      return Failure(EmptyCsv);
    }
    var headers := Headers(rows[0]);
    var columnIndex := IndexOf(headers, jsonColumnName);
    if columnIndex == -1 {
      return Failure(ColumnNotFound(jsonColumnName, headers));
    }

    var users := CollectIdentifiers(rows, columnIndex, jsonKey, parse);
    return Success(users);
  }

  // ----- properties of the reference set -----

  /** The two errors and when each occurs: no rows at all, or a header (trimmed) in which
      no column is named exactly `jsonColumnName`; the second reports the trimmed headers. */
  lemma ReferenceSetErrors(rows: seq<Row>, jsonColumnName: string, jsonKey: string, parse: Parser)
    ensures ReferenceSetOf(rows, jsonColumnName, jsonKey, parse) == Failure(EmptyCsv) <==> rows == []
    ensures ReferenceSetOf(rows, jsonColumnName, jsonKey, parse).Failure?
              && ReferenceSetOf(rows, jsonColumnName, jsonKey, parse).error.ColumnNotFound?
            <==> rows != [] && jsonColumnName !in Headers(rows[0])
    ensures rows != [] && jsonColumnName !in Headers(rows[0])
            ==> ReferenceSetOf(rows, jsonColumnName, jsonKey, parse)
                == Failure(ColumnNotFound(jsonColumnName, Headers(rows[0])))
  {
  }

  /** When the column is found, the set holds what the data rows yield from the first
      column whose trimmed header is exactly `jsonColumnName`, and it has no more members
      than there are data rows. */
  lemma ReferenceSetSuccess(rows: seq<Row>, jsonColumnName: string, jsonKey: string, parse: Parser)
    requires rows != [] && jsonColumnName in Headers(rows[0])
    ensures var column := IndexOf(Headers(rows[0]), jsonColumnName);
            && 0 <= column < |rows[0]|
            && Headers(rows[0])[column] == jsonColumnName
            && (forall k :: 0 <= k < column ==> Headers(rows[0])[k] != jsonColumnName)
            && ReferenceSetOf(rows, jsonColumnName, jsonKey, parse)
               == Success(Identifiers(rows[1..], column, jsonKey, parse))
    ensures ReferenceSetOf(rows, jsonColumnName, jsonKey, parse).Success?
    ensures |ReferenceSetOf(rows, jsonColumnName, jsonKey, parse).value| <= |rows| - 1
  {
    IdentifiersBound(rows[1..], IndexOf(Headers(rows[0]), jsonColumnName), jsonKey, parse);
  }

  /** What a row yields is in the set. */
  lemma {:induction false} RowInIdentifiers(rows: seq<Row>, column: nat, jsonKey: string, parse: Parser, i: nat)
    requires i < |rows| && RowIdentifier(rows[i], column, jsonKey, parse).Some?
    ensures RowIdentifier(rows[i], column, jsonKey, parse).value in Identifiers(rows, column, jsonKey, parse)
  {
    if i < |rows| - 1 {
      var init := rows[..|rows| - 1];
      assert init[i] == rows[i];
      RowInIdentifiers(init, column, jsonKey, parse, i);
    }
  }

  /** Each member of the set comes from a row that yields it. */
  lemma {:induction false} IdentifierSource(rows: seq<Row>, column: nat, jsonKey: string, parse: Parser, x: string)
    requires x in Identifiers(rows, column, jsonKey, parse)
    ensures exists i :: 0 <= i < |rows| && RowIdentifier(rows[i], column, jsonKey, parse) == Some(x)
  {
    var init := rows[..|rows| - 1];
    if RowIdentifier(rows[|rows| - 1], column, jsonKey, parse) != Some(x) {
      IdentifierSource(init, column, jsonKey, parse, x);
      var i :| 0 <= i < |init| && RowIdentifier(init[i], column, jsonKey, parse) == Some(x);
      assert rows[i] == init[i];
    }
  }

  /** An identifier is in the set exactly when some data row yields it. */
  lemma IdentifiersMembership(rows: seq<Row>, column: nat, jsonKey: string, parse: Parser, x: string)
    ensures x in Identifiers(rows, column, jsonKey, parse)
            <==> exists i :: 0 <= i < |rows| && RowIdentifier(rows[i], column, jsonKey, parse) == Some(x)
  {
    if x in Identifiers(rows, column, jsonKey, parse) {
      IdentifierSource(rows, column, jsonKey, parse, x);
    }
    forall i | 0 <= i < |rows| && RowIdentifier(rows[i], column, jsonKey, parse) == Some(x)
      ensures x in Identifiers(rows, column, jsonKey, parse)
    {
      RowInIdentifiers(rows, column, jsonKey, parse, i);
    }
  }

  /** Each data row adds at most one identifier, so the set is no larger than the number
      of data rows. */
  lemma {:induction false} IdentifiersBound(rows: seq<Row>, column: nat, jsonKey: string, parse: Parser)
    ensures |Identifiers(rows, column, jsonKey, parse)| <= |rows|
  {
    if rows != [] {
      IdentifiersBound(rows[..|rows| - 1], column, jsonKey, parse);
    }
  }

  /** A cell that is not JSON is never lost: when it is not blank, its trimmed text is
      in the set. */
  lemma PlainCellIsKept(rows: seq<Row>, column: nat, jsonKey: string, parse: Parser, i: nat)
    requires i < |rows| && column < |rows[i]|
    requires Trim(rows[i][column]) != "" && parse(Trim(rows[i][column])).None?
    ensures Trim(rows[i][column]) in Identifiers(rows, column, jsonKey, parse)
  {
    TrimIdempotent(rows[i][column]);
    IdentifiersMembership(rows, column, jsonKey, parse, Trim(rows[i][column]));
  }

  /** A JSON cell never falls back to its text: whatever it yields is the trimmed value
      under the key, and when that value is missing or falsy it yields nothing. */
  lemma StructuredCellNeverFallsBack(row: Row, column: nat, jsonKey: string, parse: Parser)
    requires column < |row| && Trim(row[column]) != ""
    requires parse(Trim(row[column])).Some?
    ensures var v := Get(parse(Trim(row[column])).value, jsonKey);
            RowIdentifier(row, column, jsonKey, parse)
            == if Truthy(v) then Some(Trim(Shown(v))) else None
  {
  }

  /** A row whose cell is JSON with a truthy value under the key that is all white
      space: the one kind of row that yields the empty identifier. */
  predicate BlankValueRow(row: Row, column: nat, jsonKey: string, parse: Parser)
  {
    && column < |row|
    && Trim(row[column]) != ""
    && parse(Trim(row[column])).Some?
    && Truthy(Get(parse(Trim(row[column])).value, jsonKey))
    && Trim(Shown(Get(parse(Trim(row[column])).value, jsonKey))) == ""
  }

  /** A row yields `""` exactly when it is a `BlankValueRow`: a plain cell that is not
      blank never trims to the empty string. */
  lemma RowYieldsEmpty(row: Row, column: nat, jsonKey: string, parse: Parser)
    ensures RowIdentifier(row, column, jsonKey, parse) == Some("")
            <==> BlankValueRow(row, column, jsonKey, parse)
  {
    if column < |row| && parse(Trim(row[column])).None? {
      TrimIdempotent(row[column]);
    }
  }

  /** `""` is in the set exactly when some data row is a `BlankValueRow`. */
  lemma EmptyIdentifier(rows: seq<Row>, column: nat, jsonKey: string, parse: Parser)
    ensures "" in Identifiers(rows, column, jsonKey, parse)
            <==> exists i :: 0 <= i < |rows| && BlankValueRow(rows[i], column, jsonKey, parse)
  {
    IdentifiersMembership(rows, column, jsonKey, parse, "");
    forall i | 0 <= i < |rows|
      ensures RowIdentifier(rows[i], column, jsonKey, parse) == Some("")
              <==> BlankValueRow(rows[i], column, jsonKey, parse)
    {
      RowYieldsEmpty(rows[i], column, jsonKey, parse);
    }
  }

  /** Every identifier in the set is trimmed, and the empty identifier can only come from
      a JSON cell whose value under the key is truthy but all white space. */
  lemma IdentifiersAreTrimmed(rows: seq<Row>, column: nat, jsonKey: string, parse: Parser, x: string)
    requires x in Identifiers(rows, column, jsonKey, parse)
    ensures Trim(x) == x
    ensures x == "" ==> exists i :: 0 <= i < |rows| && BlankValueRow(rows[i], column, jsonKey, parse)
  {
    IdentifiersMembership(rows, column, jsonKey, parse, x);
    var i :| 0 <= i < |rows| && RowIdentifier(rows[i], column, jsonKey, parse) == Some(x);
    RowYieldsEmpty(rows[i], column, jsonKey, parse);
    var cell := Trim(rows[i][column]);
    match parse(cell)
    case Some(doc) =>
      TrimIdempotent(Shown(Get(doc, jsonKey)));
    case None =>
      TrimIdempotent(rows[i][column]);
      TrimIdempotent(cell);
  }
}
