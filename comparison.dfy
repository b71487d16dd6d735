/** `handleProcess`: checks that both inputs are there, builds the reference set from the
    CSV, scans the JSON files against it and assembles the comparison result, or reports
    the first error as its message. */
module Comparison {
  import opened Wrappers
  import opened Json
  import opened Tokenizer
  import opened ReferenceSet
  import opened Scanner

  /** One identifier that is not in the reference set, with the files that carry it. */
  datatype MissingUser = MissingUser(currentUser: string, files: seq<string>, count: nat)

  datatype ComparisonResult = ComparisonResult(
    totalJsonFiles: nat,
    matchingUsers: nat,
    missingUsers: seq<MissingUser>,
    csvCount: nat)

  const NoInputs: string := "Please select both CSV file and JSON files"

  /** `Array.from(missing.entries()).map(([user, files]) => ({ currentUser: user, files,
      count: files.length }))`. */
  function MissingUsers(m: Entries): seq<MissingUser>
  {
    seq(|m|, k requires 0 <= k < |m| => MissingUser(m[k].0, m[k].1, |m[k].1|))
  }

  /** The result object `handleProcess` stores. */
  function Assemble(totalJsonFiles: nat, csvUsers: set<string>, t: Tally): ComparisonResult
  {
    ComparisonResult(totalJsonFiles, t.matching, MissingUsers(t.missing), |csvUsers|)
  }

  /** The sum of the `count` fields. */
  function SumCounts(users: seq<MissingUser>): nat
  {
    if users == [] then 0 else users[0].count + SumCounts(users[1..])
  }

  /** `handleProcess`, with the CSV file given as its text (`None` when none is
      selected) and the JSON files by name and text. */
  method HandleProcess(csvText: Option<string>, jsonFiles: Option<seq<JsonFile>>,
                       csvColumn: string, jsonKey: string, parse: Parser)
    returns (r: Result<ComparisonResult, string>)
    ensures csvText == None || jsonFiles == None || jsonFiles.value == [] ==> r == Failure(NoInputs)
    ensures csvText.Some? && jsonFiles.Some? && jsonFiles.value != [] ==>
              var reference := ReferenceSetOf(Tokenize(csvText.value), csvColumn, jsonKey, parse);
              && (reference.Failure? ==> r == Failure(Message(reference.error)))
              && (reference.Success? ==>
                    r == Success(Assemble(|jsonFiles.value|, reference.value,
                                          ScanFiles(jsonFiles.value, reference.value, jsonKey, parse))))
  {
    if csvText == None || jsonFiles == None || |jsonFiles.value| == 0 {
      return Failure(NoInputs);
    }
    var csvResult := ParseCsvFile(csvText.value, csvColumn, jsonKey, parse);
    if csvResult.Failure? {
      return Failure(Message(csvResult.error));
    }
    var csvUsers := csvResult.value;
    var matching, missing := ParseJsonFiles(jsonFiles.value, csvUsers, jsonKey, parse);
    var missingUsers := MissingUsers(missing);
    r := Success(ComparisonResult(|jsonFiles.value|, matching, missingUsers, |csvUsers|));
  }

  // ----- properties of the result -----

  lemma {:induction false} SumCountsTotal(m: Entries)
    ensures SumCounts(MissingUsers(m)) == Total(m)
  {
    if m != [] {
      assert MissingUsers(m)[1..] == MissingUsers(m[1..]);
      SumCountsTotal(m[1..]);
    }
  }

  /** What the result says about the JSON files: every file with an identifier is
      counted once, as matching or in the count of its missing user, so the two together
      never exceed the number of files; each missing user is reported once, is not in
      the reference set, and lists, in input order, every file that carries it, its
      count being the length of that list. */
  lemma ResultAccounting(files: seq<JsonFile>, csvUsers: set<string>, jsonKey: string, parse: Parser)
    ensures var res := Assemble(|files|, csvUsers, ScanFiles(files, csvUsers, jsonKey, parse));
            && res.matchingUsers == MatchCount(files, csvUsers, jsonKey, parse)
            && res.matchingUsers + SumCounts(res.missingUsers) == Identified(files, jsonKey, parse)
            && Identified(files, jsonKey, parse) <= res.totalJsonFiles
            && res.csvCount == |csvUsers|
            && (forall k :: 0 <= k < |res.missingUsers| ==>
                  var u := res.missingUsers[k];
                  && u.currentUser !in csvUsers
                  && u.files == NamesFor(files, u.currentUser, jsonKey, parse)
                  && u.count == |u.files| > 0)
            && (forall i, j :: 0 <= i < j < |res.missingUsers| ==>
                  res.missingUsers[i].currentUser != res.missingUsers[j].currentUser)
  {
    var t := ScanFiles(files, csvUsers, jsonKey, parse);
    ScanMatching(files, csvUsers, jsonKey, parse);
    ScanAccounting(files, csvUsers, jsonKey, parse);
    SumCountsTotal(t.missing);
    IdentifiedBound(files, jsonKey, parse);
    ScanEntries(files, csvUsers, jsonKey, parse);
    KeysIndex(t.missing);
  }
}
