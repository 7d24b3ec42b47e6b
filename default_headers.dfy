/** The DEFAULT_HEADERS configuration string: comma-separated `Name:Value`
    entries, parsed at start-up into the default-header map (main.go:145-154).
    Go's strings.Split with a one-character separator is modelled by Split. */
module DefaultHeaders {

  /** The failure of the parse: Go indexes `headerParts[1]` of an entry that
      has no colon, which panics with an index out of range. `entry` is the
      position of the first such entry. */
  datatype ParseError = IndexOutOfRange(entry: nat)

  datatype Result<T> = Ok(value: T) | Err(error: ParseError)

  datatype Option<T> = None | Some(value: T)

  /** The inverse of Split: the parts glued together with `sep` between them
      (strings.Join). */
  function Join(parts: seq<string>, sep: char): string
  {
    if parts == [] then ""
    else if |parts| == 1 then parts[0]
    else parts[0] + [sep] + Join(parts[1..], sep)
  }

  /** strings.Split(s, sep) for a one-character separator: the substrings
      between occurrences of `sep`, always at least one (the split of "" is
      [""]), none containing `sep`, and joining them back gives `s`. */
  function Split(s: string, sep: char): (parts: seq<string>)
    ensures |parts| >= 1
    ensures forall i :: 0 <= i < |parts| ==> sep !in parts[i]
    ensures Join(parts, sep) == s
    decreases |s|
  {
    if |s| == 0 then [""]
    else
      var rest := Split(s[1..], sep);
      if s[0] == sep then
        assert [sep] + Join(rest, sep) == s;
        [""] + rest
      else
        var parts := [[s[0]] + rest[0]] + rest[1..];
        assert parts[1..] == rest[1..];
        assert s == [s[0]] + s[1..];
        parts
  }

  /** Splitting a string whose first separator follows `x`. */
  lemma {:induction false} SplitAfterFirst(x: string, sep: char, y: string)
    requires sep !in x
    ensures Split(x + [sep] + y, sep) == [x] + Split(y, sep)
    decreases |x|
  {
    if |x| == 0 {
      assert x + [sep] + y == [sep] + y;
      assert ([sep] + y)[1..] == y;
    } else {
      assert (x + [sep] + y)[1..] == x[1..] + [sep] + y;
      SplitAfterFirst(x[1..], sep, y);
      assert [x[0]] + x[1..] == x;
    }
  }

  /** Split undoes Join on parts that do not contain the separator. */
  lemma {:induction false} SplitJoin(parts: seq<string>, sep: char)
    requires |parts| >= 1
    requires forall i :: 0 <= i < |parts| ==> sep !in parts[i]
    ensures Split(Join(parts, sep), sep) == parts
    decreases |parts|
  {
    if |parts| == 1 {
      SplitNoSeparator(parts[0], sep);
    } else {
      SplitJoin(parts[1..], sep);
      SplitAfterFirst(parts[0], sep, Join(parts[1..], sep));
      assert [parts[0]] + parts[1..] == parts;
    }
  }

  /** A string without the separator splits into itself alone. */
  lemma {:induction false} SplitNoSeparator(s: string, sep: char)
    requires sep !in s
    ensures Split(s, sep) == [s]
    decreases |s|
  {
    if |s| > 0 {
      SplitNoSeparator(s[1..], sep);
      assert [s[0]] + s[1..] == s;
    }
  }

  /** The split has two or more parts exactly when the separator occurs. */
  lemma SplitHasSecondPart(s: string, sep: char)
    ensures |Split(s, sep)| >= 2 <==> sep in s
  {
    var parts := Split(s, sep);
    if |parts| == 1 {
      assert s == parts[0];
    } else {
      assert s == parts[0] + [sep] + Join(parts[1..], sep);
      assert s[|parts[0]|] == sep;
    }
  }

  /** One DEFAULT_HEADERS entry: part 0 and part 1 of its split on ':'
      (main.go:151-152); None when there is no part 1. */
  function ParseEntry(entry: string): (r: Option<(string, string)>)
    ensures r.None? <==> ':' !in entry
    ensures r.Some? ==> ':' !in r.value.0 && ':' !in r.value.1
  {
    SplitHasSecondPart(entry, ':');
    var headerParts := Split(entry, ':');
    if |headerParts| < 2 then None else Some((headerParts[0], headerParts[1]))
  }

  /** Every entry has a colon separating name from value. */
  ghost predicate AllHaveColon(entries: seq<string>)
  {
    forall j :: 0 <= j < |entries| ==> ':' in entries[j]
  }

  /** The entries in order, each written into the map, so that a later entry
      with the same name overwrites an earlier one; the first entry without a
      colon is the failure. */
  function ParseEntries(entries: seq<string>): (r: Result<map<string, string>>)
    ensures r.Ok? <==> AllHaveColon(entries)
    ensures r.Ok? ==> forall k :: k in r.value ==> ':' !in k && ':' !in r.value[k]
    ensures r.Err? ==> r.error.entry < |entries| && ':' !in entries[r.error.entry]
    decreases |entries|
  {
    if entries == [] then Ok(map[])
    else
      match ParseEntries(entries[..|entries| - 1])
      case Err(e) => Err(e)
      case Ok(m) =>
        match ParseEntry(entries[|entries| - 1])
        case None => Err(IndexOutOfRange(|entries| - 1))
        case Some(nv) => Ok(m[nv.0 := nv.1])
  }

  /** The whole DEFAULT_HEADERS value: the empty string is skipped, anything
      else is split on ',' into entries (main.go:147-154). */
  function ParseDefaultHeaders(headers: string): (r: Result<map<string, string>>)
    ensures r.Ok? <==> headers == "" || AllHaveColon(Split(headers, ','))
    ensures r.Ok? ==> forall k :: k in r.value ==> ':' !in k && ':' !in r.value[k]
    ensures r.Err? ==> r.error.entry < |Split(headers, ',')| && ':' !in Split(headers, ',')[r.error.entry]
  {
    if headers == "" then Ok(map[]) else ParseEntries(Split(headers, ','))
  }

  /** The start-up loop of main.go:147-154, filling the map entry by entry. */
  method LoadDefaultHeaders(headers: string) returns (r: Result<map<string, string>>)
    ensures r == ParseDefaultHeaders(headers)
  {
    var headersMap: map<string, string> := map[];
    if headers != "" {
      var entries := Split(headers, ',');
      for i := 0 to |entries|
        invariant ParseEntries(entries[..i]) == Ok(headersMap)
      {
        assert entries[..i + 1][..i] == entries[..i];
        var headerParts := Split(entries[i], ':');
        if |headerParts| < 2 {
          EntryWithoutColon(entries[i]);
          ParseEntriesSucceeds(entries[..i]);
          assert forall j :: 0 <= j < i ==> entries[..i][j] == entries[j];
          ParseEntriesFails(entries, i);
          return Err(IndexOutOfRange(i));
        }
        headersMap := headersMap[headerParts[0] := headerParts[1]];
      }
      assert entries[..|entries|] == entries;
    }
    return Ok(headersMap);
  }

  // ---------------------------------------------------------------------
  // Properties of the parse

  /** The name of an entry: everything before its first colon. */
  function Name(entry: string): string
  {
    Split(entry, ':')[0]
  }

  /** The value of an entry: everything between its first and second colon. */
  function Value(entry: string): string
    requires ':' in entry
  {
    SplitHasSecondPart(entry, ':');
    Split(entry, ':')[1]
  }

  /** No trimming, and text after a second colon is dropped: the name is the
      exact text before the first colon, the value the exact text after it up
      to the next colon or the end of the entry. */
  lemma EntryFields(entry: string)
    requires ':' in entry
    ensures ParseEntry(entry) == Some((Name(entry), Value(entry)))
    ensures ':' !in Name(entry) && ':' !in Value(entry)
    ensures entry[..|Name(entry)|] == Name(entry) && entry[|Name(entry)|] == ':'
    ensures var rest := entry[|Name(entry)| + 1..];
            |Value(entry)| <= |rest| && rest[..|Value(entry)|] == Value(entry) &&
            (|rest| == |Value(entry)| || rest[|Value(entry)|] == ':')
  {
    var parts := Split(entry, ':');
    SplitHasSecondPart(entry, ':');
    var tail := Join(parts[1..], ':');
    assert entry == parts[0] + [':'] + tail;
    assert entry[|parts[0]| + 1..] == tail;
    if |parts| > 2 {
      assert tail == parts[1] + [':'] + Join(parts[2..], ':') by {
        assert parts[1..][1..] == parts[2..];
      }
    }
  }

  /** An entry without a colon cannot be parsed. */
  lemma EntryWithoutColon(entry: string)
    ensures ParseEntry(entry).None? <==> ':' !in entry
  {
    SplitHasSecondPart(entry, ':');
  }

  /** The parse fails exactly at the first entry that has no colon. */
  lemma {:induction false} ParseEntriesFails(entries: seq<string>, i: nat)
    ensures ParseEntries(entries) == Err(IndexOutOfRange(i)) <==>
            (i < |entries| && ':' !in entries[i] &&
             forall j :: 0 <= j < i ==> ':' in entries[j])
    decreases |entries|
  {
    if entries != [] {
      var n := |entries| - 1;
      var init := entries[..n];
      ParseEntriesFails(init, i);
      EntryWithoutColon(entries[n]);
      ParseEntriesSucceeds(init);
      if i < n {
        assert init[i] == entries[i];
        assert forall j :: 0 <= j < i ==> init[j] == entries[j];
      } else if i == n {
        assert forall j :: 0 <= j < n ==> init[j] == entries[j];
      }
    }
  }

  /** The parse succeeds exactly when every entry has a colon. */
  lemma {:induction false} ParseEntriesSucceeds(entries: seq<string>)
    ensures ParseEntries(entries).Ok? <==> AllHaveColon(entries)
    decreases |entries|
  {
    if entries != [] {
      var n := |entries| - 1;
      ParseEntriesSucceeds(entries[..n]);
      EntryWithoutColon(entries[n]);
      assert forall j :: 0 <= j < n ==> entries[..n][j] == entries[j];
    }
  }

  /** No later entry carries the same name as entry `i`. */
  ghost predicate LastWithName(entries: seq<string>, i: nat)
    requires i < |entries|
  {
    forall j :: i < j < |entries| ==> Name(entries[j]) != Name(entries[i])
  }

  /** The last entry of a successful parse is written over the map of the
      entries before it. */
  lemma ParseEntriesStep(entries: seq<string>, m: map<string, string>)
    requires entries != [] && ParseEntries(entries) == Ok(m)
    ensures var n := |entries| - 1;
            && ':' in entries[n]
            && ParseEntries(entries[..n]).Ok?
            && m == ParseEntries(entries[..n]).value[Name(entries[n]) := Value(entries[n])]
  {
    var n := |entries| - 1;
    EntryWithoutColon(entries[n]);
    EntryFields(entries[n]);
  }

  /** A successful parse maps exactly the entries' names. */
  lemma {:induction false} ParseEntriesKeys(entries: seq<string>, m: map<string, string>)
    requires ParseEntries(entries) == Ok(m)
    ensures m.Keys == set j | 0 <= j < |entries| :: Name(entries[j])
    decreases |entries|
  {
    if entries != [] {
      var n := |entries| - 1;
      var init := entries[..n];
      ParseEntriesStep(entries, m);
      var m0 := ParseEntries(init).value;
      ParseEntriesKeys(init, m0);
      assert forall j :: 0 <= j < n ==> init[j] == entries[j];
      forall k | k in m.Keys ensures exists j :: 0 <= j < |entries| && Name(entries[j]) == k {
        if k != Name(entries[n]) {
          var j :| 0 <= j < n && Name(init[j]) == k;
          assert Name(entries[j]) == k;
        }
      }
    }
  }

  /** A successful parse maps each name to the value of the last entry that
      carries it: a later duplicate overwrites an earlier one. */
  lemma {:induction false} ParseEntriesLastWins(entries: seq<string>, m: map<string, string>)
    requires ParseEntries(entries) == Ok(m)
    ensures AllHaveColon(entries)
    ensures forall i :: 0 <= i < |entries| && LastWithName(entries, i) ==>
              Name(entries[i]) in m && m[Name(entries[i])] == Value(entries[i])
    decreases |entries|
  {
    ParseEntriesSucceeds(entries);
    if entries != [] {
      var n := |entries| - 1;
      var init := entries[..n];
      ParseEntriesStep(entries, m);
      var m0 := ParseEntries(init).value;
      ParseEntriesLastWins(init, m0);
      forall i | 0 <= i < |entries| && LastWithName(entries, i)
        ensures Name(entries[i]) in m && m[Name(entries[i])] == Value(entries[i])
      {
        if i < n {
          assert init[i] == entries[i];
          assert LastWithName(init, i) by {
            forall j | i < j < n ensures Name(init[j]) != Name(init[i]) {
              assert init[j] == entries[j];
            }
          }
        }
      }
    }
  }

  /** The empty string gives the empty map. */
  lemma ParseEmpty()
    ensures ParseDefaultHeaders("") == Ok(map[])
  {
  }

  /** DEFAULT_HEADERS parses exactly when it is empty or every comma-separated
      entry has a colon; otherwise it fails at the first entry that has none. */
  lemma ParseOutcome(headers: string, i: nat)
    ensures ParseDefaultHeaders(headers).Ok? <==>
            headers == "" || AllHaveColon(Split(headers, ','))
    ensures ParseDefaultHeaders(headers) == Err(IndexOutOfRange(i)) <==>
            (headers != "" && i < |Split(headers, ',')| && ':' !in Split(headers, ',')[i] &&
             forall j :: 0 <= j < i ==> ':' in Split(headers, ',')[j])
  {
    if headers != "" {
      var entries := Split(headers, ',');
      assert ParseDefaultHeaders(headers) == ParseEntries(entries);
      ParseEntriesSucceeds(entries);
      ParseEntriesFails(entries, i);
    }
  }

  /** A successful parse of a non-empty DEFAULT_HEADERS maps exactly the
      entries' names, a later duplicate overwriting an earlier one. */
  lemma ParseLastWins(headers: string, m: map<string, string>)
    requires headers != "" && ParseDefaultHeaders(headers) == Ok(m)
    ensures var entries := Split(headers, ',');
            && AllHaveColon(entries)
            && m.Keys == (set j | 0 <= j < |entries| :: Name(entries[j]))
            && forall i :: 0 <= i < |entries| && LastWithName(entries, i) ==>
                 m[Name(entries[i])] == Value(entries[i])
  {
    ParseEntriesKeys(Split(headers, ','), m);
    ParseEntriesLastWins(Split(headers, ','), m);
  }

  /** Splitting a string that ends in the separator leaves an empty last part. */
  lemma {:induction false} SplitTrailingSeparator(s: string, sep: char)
    ensures Split(s + [sep], sep) == Split(s, sep) + [""]
    decreases |s|
  {
    if |s| > 0 {
      assert (s + [sep])[1..] == s[1..] + [sep];
      SplitTrailingSeparator(s[1..], sep);
      assert [s[0]] + s[1..] == s;
    }
  }

  /** A trailing comma leaves an empty last entry, which has no colon, so
      DEFAULT_HEADERS ending in ',' always fails. */
  lemma TrailingCommaFails(headers: string)
    ensures ParseDefaultHeaders(headers + ",").Err?
  {
    var entries := Split(headers + ",", ',');
    SplitTrailingSeparator(headers, ',');
    assert entries[|entries| - 1] == "";
    ParseEntriesSucceeds(entries);
  }

  /** One `Name:Value` entry whose parts hold no separator parses to the
      one-entry map, name and value exactly as written. */
  lemma SingleEntry(name: string, value: string)
    requires ',' !in name && ':' !in name && ',' !in value && ':' !in value
    ensures ParseDefaultHeaders(name + [':'] + value) == Ok(map[name := value])
  {
    var s := name + [':'] + value;
    assert ',' !in s by {
      forall i | 0 <= i < |s| ensures s[i] != ',' {
        if i < |name| { assert s[i] == name[i]; }
        else if i > |name| { assert s[i] == value[i - |name| - 1]; }
      }
    }
    SplitNoSeparator(s, ',');
    SplitAfterFirst(name, ':', value);
    SplitNoSeparator(value, ':');
    assert Split(s, ':') == [name, value];
    assert ParseEntry(s) == Some((name, value));
    assert [s][..0] == [];
    assert ParseEntries([s]) == Ok(map[][name := value]);
  }
}
