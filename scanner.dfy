/** The JSON batch scanner `parseJsonFiles`: reads the identifier under the key from
    every JSON file, counts the files whose identifier is in the reference set and
    groups the names of the other files by identifier, in a map that keeps its keys in
    the order they were first inserted. A file is given as its name and its text. */
module Scanner {
  import opened Wrappers
  import opened Text
  import opened Json

  datatype JsonFile = JsonFile(name: string, text: string)

  /** `String(jsonData[jsonKey] || '').trim()`, with `None` for a file that does not
      parse and for an identifier that is empty once trimmed; such files are skipped. */
  function FileIdentifier(file: JsonFile, jsonKey: string, parse: Parser): Option<string>
  {
    match parse(file.text)
    case None => None
    case Some(doc) =>
      var v := Get(doc, jsonKey);
      var user := Trim(if Truthy(v) then Shown(v) else "");
      if user == "" then None else Some(user)
  }

  // ----- an insertion-ordered map from identifiers to file names -----

  /** The entries of a JavaScript `Map`, in insertion order. */
  type Entries = seq<(string, seq<string>)>

  function Keys(m: Entries): seq<string>
  {
    if m == [] then [] else [m[0].0] + Keys(m[1..])
  }

  /** `m.get(key)`. */
  function Lookup(m: Entries, key: string): Option<seq<string>>
  {
    if m == [] then None
    else if m[0].0 == key then Some(m[0].1)
    else Lookup(m[1..], key)
  }

  /** `m.set(key, value)`: an existing key keeps its place, a new key goes last. */
  function Store(m: Entries, key: string, value: seq<string>): Entries
  {
    if m == [] then [(key, value)]
    else if m[0].0 == key then [(key, value)] + m[1..]
    else [m[0]] + Store(m[1..], key, value)
  }

  /** The number of file names the map holds. */
  function Total(m: Entries): nat
  {
    if m == [] then 0 else |m[0].1| + Total(m[1..])
  }

  /** `m.get(key) || []`. */
  function Existing(m: Entries, key: string): seq<string>
  {
    match Lookup(m, key)
    case Some(names) => names
    case None => []
  }

  lemma {:induction false} KeysIndex(m: Entries)
    ensures |Keys(m)| == |m| && forall k :: 0 <= k < |m| ==> Keys(m)[k] == m[k].0
  {
    if m != [] {
      KeysIndex(m[1..]);
    }
  }

  /** With distinct keys, each entry is what its key reads. */
  lemma {:induction false} LookupAt(m: Entries, k: nat)
    requires k < |m| && Distinct(Keys(m))
    ensures Lookup(m, m[k].0) == Some(m[k].1)
  {
    KeysIndex(m);
    if k > 0 {
      assert Keys(m)[0] != Keys(m)[k];
      KeysIndex(m[1..]);
      assert Distinct(Keys(m[1..])) by {
        forall i, j | 0 <= i < j < |m| - 1 ensures Keys(m[1..])[i] != Keys(m[1..])[j] {
          assert Keys(m[1..])[i] == Keys(m)[i + 1] && Keys(m[1..])[j] == Keys(m)[j + 1];
        }
      }
      LookupAt(m[1..], k - 1);
    }
  }

  lemma {:induction false} LookupKeys(m: Entries, key: string)
    ensures Lookup(m, key).Some? <==> key in Keys(m)
  {
    if m != [] {
      LookupKeys(m[1..], key);
    }
  }

  /** Storing a key adds it at the end exactly when it is new. */
  lemma {:induction false} StoreKeys(m: Entries, key: string, value: seq<string>)
    ensures Keys(Store(m, key, value)) == if key in Keys(m) then Keys(m) else Keys(m) + [key]
  {
    if m != [] && m[0].0 != key {
      StoreKeys(m[1..], key, value);
    }
  }

  /** Storing a key changes what that key reads and nothing else. */
  lemma {:induction false} StoreLookup(m: Entries, key: string, value: seq<string>, other: string)
    ensures Lookup(Store(m, key, value), other)
            == if other == key then Some(value) else Lookup(m, other)
  {
    if m != [] && m[0].0 != key {
      StoreLookup(m[1..], key, value, other);
    }
  }

  /** Storing a key replaces the names it held. */
  lemma {:induction false} StoreTotal(m: Entries, key: string, value: seq<string>)
    ensures Total(Store(m, key, value)) + |Existing(m, key)| == Total(m) + |value|
  {
    if m != [] && m[0].0 != key {
      StoreTotal(m[1..], key, value);
    }
  }

  // ----- the scan -----

  /** The loop's accumulators: `matchingCount` and `missingMap`. */
  datatype Tally = Tally(matching: nat, missing: Entries)

  /** One iteration of the loop. */
  function Record(t: Tally, file: JsonFile, csvUsers: set<string>, jsonKey: string, parse: Parser): Tally
  {
    match FileIdentifier(file, jsonKey, parse)
    case None => t
    case Some(user) =>
      if user in csvUsers then t.(matching := t.matching + 1)
      else t.(missing := Store(t.missing, user, Existing(t.missing, user) + [file.name]))
  }

  /** The accumulators after the loop has read `files`. */
  function ScanFiles(files: seq<JsonFile>, csvUsers: set<string>, jsonKey: string, parse: Parser): Tally
  {
    if files == [] then Tally(0, [])
    else Record(ScanFiles(files[..|files| - 1], csvUsers, jsonKey, parse),
                files[|files| - 1], csvUsers, jsonKey, parse)
  }

  lemma ScanFilesStep(files: seq<JsonFile>, i: nat, csvUsers: set<string>, jsonKey: string, parse: Parser)
    requires i < |files|
    ensures ScanFiles(files[..i + 1], csvUsers, jsonKey, parse)
            == Record(ScanFiles(files[..i], csvUsers, jsonKey, parse), files[i], csvUsers, jsonKey, parse)
  {
    assert files[..i + 1][..i] == files[..i];
  }

  /** `parseJsonFiles`, with the files given by name and text. */
  method ParseJsonFiles(files: seq<JsonFile>, csvUsers: set<string>, jsonKey: string, parse: Parser)
    returns (matching: nat, missing: Entries)
    ensures Tally(matching, missing) == ScanFiles(files, csvUsers, jsonKey, parse)
  {
    matching := 0;
    missing := [];
    for i := 0 to |files|
      invariant Tally(matching, missing) == ScanFiles(files[..i], csvUsers, jsonKey, parse)
    {
      ScanFilesStep(files, i, csvUsers, jsonKey, parse);
      var file := files[i];
      match parse(file.text) {
        case None =>
          // the error is logged and the file skipped
        case Some(jsonData) =>
          var value := Get(jsonData, jsonKey);
          var currentUser := Trim(if Truthy(value) then Shown(value) else "");
          if currentUser != "" {
            if currentUser in csvUsers {
              matching := matching + 1;
            } else {
              var existing := Existing(missing, currentUser);
              existing := existing + [file.name];
              missing := Store(missing, currentUser, existing);
            }
          }
      }
    }
    assert files[..|files|] == files;
  }

  // ----- reference definitions -----

  /** The number of files whose identifier is in the reference set. */
  function MatchCount(files: seq<JsonFile>, csvUsers: set<string>, jsonKey: string, parse: Parser): nat
  {
    if files == [] then 0
    else
      var n := MatchCount(files[..|files| - 1], csvUsers, jsonKey, parse);
      match FileIdentifier(files[|files| - 1], jsonKey, parse)
      case Some(user) => if user in csvUsers then n + 1 else n
      case None => n
  }

  /** The number of files with a non-empty identifier. */
  function Identified(files: seq<JsonFile>, jsonKey: string, parse: Parser): nat
  {
    if files == [] then 0
    else
      var n := Identified(files[..|files| - 1], jsonKey, parse);
      if FileIdentifier(files[|files| - 1], jsonKey, parse).Some? then n + 1 else n
  }

  /** The names of the files whose identifier is `user`, in input order. */
  function NamesFor(files: seq<JsonFile>, user: string, jsonKey: string, parse: Parser): seq<string>
  {
    if files == [] then []
    else
      var names := NamesFor(files[..|files| - 1], user, jsonKey, parse);
      if FileIdentifier(files[|files| - 1], jsonKey, parse) == Some(user)
      then names + [files[|files| - 1].name]
      else names
  }

  /** The identifiers outside the reference set, one per file, in input order. */
  function MissingIds(files: seq<JsonFile>, csvUsers: set<string>, jsonKey: string, parse: Parser): seq<string>
  {
    if files == [] then []
    else
      var ids := MissingIds(files[..|files| - 1], csvUsers, jsonKey, parse);
      match FileIdentifier(files[|files| - 1], jsonKey, parse)
      case Some(user) => if user in csvUsers then ids else ids + [user]
      case None => ids
  }

  /** `xs` without repeats, each element where it first occurs. */
  function FirstSeen(xs: seq<string>): seq<string>
  {
    if xs == [] then []
    else
      var init := FirstSeen(xs[..|xs| - 1]);
      if xs[|xs| - 1] in init then init else init + [xs[|xs| - 1]]
  }

  predicate Distinct(xs: seq<string>)
  {
    forall i, j :: 0 <= i < j < |xs| ==> xs[i] != xs[j]
  }

  // ----- properties of the scan -----

  lemma {:induction false} FirstSeenProperties(xs: seq<string>)
    ensures Distinct(FirstSeen(xs))
    ensures forall x :: x in FirstSeen(xs) <==> x in xs
  {
    if xs != [] {
      var init := xs[..|xs| - 1];
      FirstSeenProperties(init);
      assert xs == init + [xs[|xs| - 1]];
    }
  }

  /** The matching count is the number of files whose identifier is in the reference
      set. */
  lemma {:induction false} ScanMatching(files: seq<JsonFile>, csvUsers: set<string>, jsonKey: string, parse: Parser)
    ensures ScanFiles(files, csvUsers, jsonKey, parse).matching == MatchCount(files, csvUsers, jsonKey, parse)
  {
    if files != [] {
      ScanMatching(files[..|files| - 1], csvUsers, jsonKey, parse);
    }
  }

  /** Every file with an identifier is accounted for exactly once: either it matched, or
      its name is in the group of its identifier. */
  lemma {:induction false} ScanAccounting(files: seq<JsonFile>, csvUsers: set<string>, jsonKey: string, parse: Parser)
    ensures var t := ScanFiles(files, csvUsers, jsonKey, parse);
            t.matching + Total(t.missing) == Identified(files, jsonKey, parse)
  {
    if files != [] {
      var init := files[..|files| - 1];
      var file := files[|files| - 1];
      ScanAccounting(init, csvUsers, jsonKey, parse);
      var t := ScanFiles(init, csvUsers, jsonKey, parse);
      match FileIdentifier(file, jsonKey, parse)
      case None =>
      case Some(user) =>
        if user !in csvUsers {
          StoreTotal(t.missing, user, Existing(t.missing, user) + [file.name]);
        }
    }
  }

  /** The group of an identifier holds the names of all the files with that identifier,
      in input order and with repeats, when the identifier is outside the reference set
      and some file has it; otherwise the identifier is not a key. */
  lemma {:induction false} ScanGroups(files: seq<JsonFile>, csvUsers: set<string>, jsonKey: string, parse: Parser, user: string)
    ensures Lookup(ScanFiles(files, csvUsers, jsonKey, parse).missing, user)
            == if user in csvUsers || NamesFor(files, user, jsonKey, parse) == [] then None
               else Some(NamesFor(files, user, jsonKey, parse))
  {
    if files != [] {
      var init := files[..|files| - 1];
      var file := files[|files| - 1];
      ScanGroups(init, csvUsers, jsonKey, parse, user);
      var t := ScanFiles(init, csvUsers, jsonKey, parse);
      match FileIdentifier(file, jsonKey, parse)
      case None =>
      case Some(other) =>
        if other !in csvUsers {
          ScanGroups(init, csvUsers, jsonKey, parse, other);
          StoreLookup(t.missing, other, Existing(t.missing, other) + [file.name], user);
        }
    }
  }

  /** The groups appear in the order their identifiers were first met. */
  lemma {:induction false} ScanOrder(files: seq<JsonFile>, csvUsers: set<string>, jsonKey: string, parse: Parser)
    ensures Keys(ScanFiles(files, csvUsers, jsonKey, parse).missing)
            == FirstSeen(MissingIds(files, csvUsers, jsonKey, parse))
  {
    if files != [] {
      var init := files[..|files| - 1];
      var file := files[|files| - 1];
      ScanOrder(init, csvUsers, jsonKey, parse);
      var t := ScanFiles(init, csvUsers, jsonKey, parse);
      match FileIdentifier(file, jsonKey, parse)
      case None =>
      case Some(user) =>
        if user !in csvUsers {
          var ids := MissingIds(init, csvUsers, jsonKey, parse);
          StoreKeys(t.missing, user, Existing(t.missing, user) + [file.name]);
          assert (ids + [user])[..|ids|] == ids;
        }
    }
  }

  /** A file with the identifier puts a name in the list. */
  lemma {:induction false} FileInNames(files: seq<JsonFile>, user: string, jsonKey: string, parse: Parser, i: nat)
    requires i < |files| && FileIdentifier(files[i], jsonKey, parse) == Some(user)
    ensures NamesFor(files, user, jsonKey, parse) != []
  {
    if i < |files| - 1 {
      var init := files[..|files| - 1];
      assert init[i] == files[i];
      FileInNames(init, user, jsonKey, parse, i);
    }
  }

  /** A non-empty list has a file with the identifier behind it. */
  lemma {:induction false} NamesSource(files: seq<JsonFile>, user: string, jsonKey: string, parse: Parser)
    requires NamesFor(files, user, jsonKey, parse) != []
    ensures exists i :: 0 <= i < |files| && FileIdentifier(files[i], jsonKey, parse) == Some(user)
  {
    var init := files[..|files| - 1];
    if FileIdentifier(files[|files| - 1], jsonKey, parse) != Some(user) {
      NamesSource(init, user, jsonKey, parse);
      var i :| 0 <= i < |init| && FileIdentifier(init[i], jsonKey, parse) == Some(user);
      assert files[i] == init[i];
    }
  }

  /** An identifier's list of names is non-empty exactly when some file has it. */
  lemma NamesForNonEmpty(files: seq<JsonFile>, user: string, jsonKey: string, parse: Parser)
    ensures NamesFor(files, user, jsonKey, parse) != []
            <==> exists i :: 0 <= i < |files| && FileIdentifier(files[i], jsonKey, parse) == Some(user)
  {
    if NamesFor(files, user, jsonKey, parse) != [] {
      NamesSource(files, user, jsonKey, parse);
    }
    forall i | 0 <= i < |files| && FileIdentifier(files[i], jsonKey, parse) == Some(user)
      ensures NamesFor(files, user, jsonKey, parse) != []
    {
      FileInNames(files, user, jsonKey, parse, i);
    }
  }

  /** The missing map, entry by entry: identifiers appear once, none of them is in the
      reference set, and each holds the names of all the files with that identifier,
      in input order, which is never an empty list. */
  lemma ScanEntries(files: seq<JsonFile>, csvUsers: set<string>, jsonKey: string, parse: Parser)
    ensures var m := ScanFiles(files, csvUsers, jsonKey, parse).missing;
            && Distinct(Keys(m))
            && forall k :: 0 <= k < |m| ==>
                 && m[k].0 !in csvUsers
                 && m[k].1 == NamesFor(files, m[k].0, jsonKey, parse)
                 && m[k].1 != []
  {
    var m := ScanFiles(files, csvUsers, jsonKey, parse).missing;
    ScanOrder(files, csvUsers, jsonKey, parse);
    FirstSeenProperties(MissingIds(files, csvUsers, jsonKey, parse));
    forall k | 0 <= k < |m|
      ensures m[k].0 !in csvUsers && m[k].1 == NamesFor(files, m[k].0, jsonKey, parse) && m[k].1 != []
    {
      LookupAt(m, k);
      ScanGroups(files, csvUsers, jsonKey, parse, m[k].0);
    }
  }

  /** An identifier is reported missing exactly when some file has it and the reference
      set does not. */
  lemma ScanMissingKeys(files: seq<JsonFile>, csvUsers: set<string>, jsonKey: string, parse: Parser, user: string)
    ensures user in Keys(ScanFiles(files, csvUsers, jsonKey, parse).missing)
            <==> user !in csvUsers
                 && exists i :: 0 <= i < |files| && FileIdentifier(files[i], jsonKey, parse) == Some(user)
  {
    LookupKeys(ScanFiles(files, csvUsers, jsonKey, parse).missing, user);
    ScanGroups(files, csvUsers, jsonKey, parse, user);
    NamesForNonEmpty(files, user, jsonKey, parse);
  }

  /** At most every file is identified. */
  lemma {:induction false} IdentifiedBound(files: seq<JsonFile>, jsonKey: string, parse: Parser)
    ensures Identified(files, jsonKey, parse) <= |files|
  {
    if files != [] {
      IdentifiedBound(files[..|files| - 1], jsonKey, parse);
    }
  }
}
