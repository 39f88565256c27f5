/**
  The known-hosts file: host name to public key, and trust on first use that
  goes through the file's text on every call.
 */
module KnownHosts {
  import opened Prelude
  import opened TrustText
  import Base64
  import TrustLines
  import TrustOrder

  type Hosts = map<string, PubKey>

  /** Later rows win. */
  function ToHosts(rows: seq<Row>): Hosts {
    if rows == [] then map[] else ToHosts(rows[..|rows| - 1])[rows[|rows| - 1].name := rows[|rows| - 1].key]
  }

  function Parsed(content: string): Result<Hosts, ParseError> {
    match ParseRows(Lines(content), 1) case Ok(rows) => Ok(ToHosts(rows)) case Err(e) => Err(e)
  }

  method Parse(content: string) returns (r: Result<Hosts, ParseError>)
    ensures r == Parsed(content)
  {
    hide ParseLine, Lines, ParseRows, ToHosts;
    var lines, entries: Hosts := Lines(content), map[];
    ghost var rows: seq<Row> := [];
    LinesStart(lines);
    NoRows();
    for i := 0 to |lines|
      invariant entries == ToHosts(rows)
      invariant ParseRows(lines, 1) == Prepend(rows, ParseRows(lines[i..], i + 1))
    {
      var line := ParseLine(lines[i]);
      LineStep(rows, lines, i);
      match line {
        case Blank =>
        case Bad(reason) => return Err(ParseError(i + 1, reason));
        case Entry(row) =>
          entries := entries[row.name := row.key];
          OneMoreRow(rows, row);
          rows := rows + [row];
      }
    }
    LinesEnd(rows, lines, |lines| + 1);
    r := Ok(entries);
  }

  lemma NoRows()
    ensures ToHosts([]) == map[]
  {
  }

  lemma OneMoreRow(rows: seq<Row>, row: Row)
    ensures ToHosts(rows + [row]) == ToHosts(rows)[row.name := row.key]
  {
    assert (rows + [row])[..|rows|] == rows;
  }

  function RowsOf(hosts: Hosts, names: seq<string>): (rows: seq<Row>)
    requires forall n :: n in names ==> n in hosts
    ensures |rows| == |names|
    ensures forall k :: 0 <= k < |rows| ==> rows[k] == Row(names[k], hosts[names[k]])
  {
    if names == [] then []
    else RowsOf(hosts, names[..|names| - 1]) + [Row(names[|names| - 1], hosts[names[|names| - 1]])]
  }

  /** The text a map is saved as: its rows by ascending name. */
  ghost predicate IsSaved(hosts: Hosts, content: string) {
    exists names :: Lists(names, hosts.Keys) && content == Print(RowsOf(hosts, names))
  }

  method Save(hosts: Hosts) returns (content: string)
    ensures IsSaved(hosts, content)
  {
    hide Print, RowsOf, ToBase64;
    var names := SortedNames(hosts.Keys);
    content := "";
    PrintNothing(hosts);
    for i := 0 to |names|
      invariant content == Print(RowsOf(hosts, names[..i]))
    {
      PrintStep(hosts, names, i);
      content := content + (names[i] + " " + ToBase64(hosts[names[i]]) + "\n");
    }
    assert names[..|names|] == names;
  }

  lemma PrintNothing(hosts: Hosts)
    ensures Print(RowsOf(hosts, [])) == ""
  {
  }

  lemma PrintStep(hosts: Hosts, names: seq<string>, i: nat)
    requires i < |names| && forall n :: n in names ==> n in hosts
    ensures names[i] in names
    ensures Print(RowsOf(hosts, names[..i + 1]))
            == Print(RowsOf(hosts, names[..i])) + PrintRow(Row(names[i], hosts[names[i]]))
  {
    hide ToBase64;
    assert names[..i + 1][..i] == names[..i];
    PrintAppend(RowsOf(hosts, names[..i]), Row(names[i], hosts[names[i]]));
  }

  lemma {:induction false} PrintAppend(rows: seq<Row>, row: Row)
    ensures Print(rows + [row]) == Print(rows) + PrintRow(row)
  {
    hide PrintRow;
    if rows == [] {
      assert [row][1..] == [] && PrintRow(row) + "" == PrintRow(row) && "" + PrintRow(row) == PrintRow(row);
    } else {
      PrintAppend(rows[1..], row);
      assert (rows + [row])[1..] == rows[1..] + [row];
      Assoc(PrintRow(rows[0]), Print(rows[1..]), PrintRow(row));
    }
  }

  /** Saving is deterministic, whatever order the map is traversed in: a map has one text. */
  lemma SavedOnce(hosts: Hosts, a: string, b: string)
    requires IsSaved(hosts, a) && IsSaved(hosts, b)
    ensures a == b
  {
    var m :| Lists(m, hosts.Keys) && a == Print(RowsOf(hosts, m));
    var n :| Lists(n, hosts.Keys) && b == Print(RowsOf(hosts, n));
    ListingUnique(m, n, hosts.Keys);
  }

  lemma {:induction false} HostsOfRows(hosts: Hosts, names: seq<string>)
    requires forall n :: n in names ==> n in hosts
    ensures forall n :: n in ToHosts(RowsOf(hosts, names)) <==> n in names
    ensures forall n :: n in names ==> ToHosts(RowsOf(hosts, names))[n] == hosts[n]
  {
    if names != [] {
      var pre, last := names[..|names| - 1], names[|names| - 1];
      HostsOfRows(hosts, pre);
      assert names == pre + [last];
      assert RowsOf(hosts, names)[..|pre|] == RowsOf(hosts, pre);
    }
  }

  ghost predicate AllWellFormed(names: set<string>) {
    forall n :: n in names ==> WellFormed(n)
  }

  lemma {:induction false} ParsedNames(rows: seq<Row>)
    requires forall k :: 0 <= k < |rows| ==> WellFormed(rows[k].name)
    ensures AllWellFormed(ToHosts(rows).Keys)
  {
    if rows != [] {
      ParsedNames(rows[..|rows| - 1]);
    }
  }

  /** The saved text reads back as the same map exactly when every name is well formed. */
  lemma ParseOfSave(hosts: Hosts, content: string)
    requires IsSaved(hosts, content)
    ensures Parsed(content) == Ok(hosts) <==> AllWellFormed(hosts.Keys)
  {
    var names :| Lists(names, hosts.Keys) && content == Print(RowsOf(hosts, names));
    if AllWellFormed(hosts.Keys) {
      SavedReads(hosts, names);
    }
    ParsedWellFormed(content);
  }

  lemma SavedReads(hosts: Hosts, names: seq<string>)
    requires Lists(names, hosts.Keys) && AllWellFormed(hosts.Keys)
    ensures Parsed(Print(RowsOf(hosts, names))) == Ok(hosts)
  {
    hide WellFormed, Print, ParseRows, Lines;
    HostsOfRows(hosts, names);
    assert ToHosts(RowsOf(hosts, names)) == hosts;
    assert forall k :: 0 <= k < |names| ==> names[k] in names;
    RowsRead(RowsOf(hosts, names), 1);
  }

  /** Every name that is read from a text is well formed. */
  lemma ParsedWellFormed(content: string)
    ensures Parsed(content).Ok? ==> AllWellFormed(Parsed(content).value.Keys)
  {
    hide WellFormed, ParseRows, Lines, ToHosts;
    RowsWellFormed(Lines(content), 1);
    if Parsed(content).Ok? {
      ParsedNames(ParseRows(Lines(content), 1).value);
    }
  }

  // ---------------------------------------------------------------------
  // The text, character by character
  // ---------------------------------------------------------------------

  /** A blank or comment line may stand between any two lines of the file: only an error's line number tells. */
  lemma CommentsSkipped(a: string, line: string, b: string)
    requires (a == "" || a[|a| - 1] == '\n') && '\n' !in line
    requires TrustLines.Skippable(line)
    ensures Parsed(a + (line + ("\n" + b)))
         == match Parsed(a + b)
            case Ok(hosts) => Ok(hosts)
            case Err(e) => Err(ParseError(if e.line <= |Lines(a)| then e.line else e.line + 1, e.reason))
  {
    hide ParseRows, Lines, TrustLines.Skippable, ToHosts;
    TrustLines.SkippedLine(a, line, b);
  }

  /** The last line is read with or without a line end. */
  lemma LastLineEndIsOptional(content: string)
    requires content != "" && content[|content| - 1] != '\n'
    ensures Parsed(content + "\n") == Parsed(content)
  {
    hide ParseRows, Lines, ToHosts;
    TrustLines.LastLineEndIsOptional(content);
  }

  /** Of several rows for one host the last one counts. */
  lemma {:induction false} LastRowCounts(rows: seq<Row>, host: string)
    ensures host in ToHosts(rows) <==> exists k :: 0 <= k < |rows| && rows[k].name == host
    ensures host in ToHosts(rows) ==>
              exists k :: 0 <= k < |rows| && rows[k] == Row(host, ToHosts(rows)[host])
                          && forall j :: k < j < |rows| ==> rows[j].name != host
  {
    hide ToHosts;
    if rows == [] {
      NoRows();
    } else {
      var pre, last := rows[..|rows| - 1], rows[|rows| - 1];
      assert rows == pre + [last];
      LastRowCounts(pre, host);
      OneMoreRow(pre, last);
      if last.name == host {
        assert rows[|pre|] == Row(host, ToHosts(rows)[host]);
      } else if host in ToHosts(pre) {
        var k :| 0 <= k < |pre| && pre[k] == Row(host, ToHosts(pre)[host]) && forall j :: k < j < |pre| ==> pre[j].name != host;
        assert rows[k] == Row(host, ToHosts(rows)[host]);
      }
    }
  }

  /** The lines `<name> <key>` for the given names. */
  function Spelled(hosts: Hosts, names: seq<string>): string
    requires forall n :: n in names ==> n in hosts
  {
    if names == [] then ""
    else
      var n := names[|names| - 1];
      Spelled(hosts, names[..|names| - 1]) + (n + " " + Base64.Encode(hosts[n]) + "\n")
  }

  lemma {:induction false} PrintIsSpelled(hosts: Hosts, names: seq<string>)
    requires forall n :: n in names ==> n in hosts
    ensures Print(RowsOf(hosts, names)) == Spelled(hosts, names)
  {
    hide ToBase64, Base64.Encode, Print, RowsOf;
    if names == [] {
      PrintNothing(hosts);
    } else {
      var i := |names| - 1;
      PrintIsSpelled(hosts, names[..i]);
      PrintStep(hosts, names, i);
      assert names[..i + 1] == names;
      RowSpelled(Row(names[i], hosts[names[i]]));
    }
  }

  lemma RowSpelled(row: Row)
    ensures PrintRow(row) == row.name + " " + Base64.Encode(row.key) + "\n"
  {
  }

  /** What is saved: one line `<name> <key>` for each host, in the order of the names' characters. */
  lemma SavedTextExactly(hosts: Hosts, content: string)
    ensures IsSaved(hosts, content) <==>
              exists names :: && (forall n :: n in names <==> n in hosts)
                              && (forall i, j :: 0 <= i < j < |names| ==> TrustOrder.Before(names[i], names[j]))
                              && content == Spelled(hosts, names)
  {
    hide Print, RowsOf, Spelled, TrustOrder.Before;
    if IsSaved(hosts, content) {
      var names :| Lists(names, hosts.Keys) && content == Print(RowsOf(hosts, names));
      PrintIsSpelled(hosts, names);
      TrustOrder.SortedExactly(names);
      assert forall n :: n in names <==> n in hosts;
    }
    if names :| && (forall n :: n in names <==> n in hosts)
                && (forall i, j :: 0 <= i < j < |names| ==> TrustOrder.Before(names[i], names[j]))
                && content == Spelled(hosts, names) {
      PrintIsSpelled(hosts, names);
      TrustOrder.SortedExactly(names);
      assert Lists(names, hosts.Keys);
    }
  }

  // ---------------------------------------------------------------------
  // Trust on first use
  // ---------------------------------------------------------------------

  datatype Verdict = FirstSeen | Matched | Mismatch(expected: PubKey, got: PubKey)

  /** The file at the store's path; `None` while it does not exist. */
  class HostFile {
    var content: Option<string>

    constructor ()
      ensures content == None
    {
      content := None;
    }

    method VerifyOrRecord(host: string, key: PubKey) returns (r: Result<Verdict, ParseError>)
      modifies this
      ensures Verified(old(content), host, key, content, r)
      ensures Loaded(old(content)).Err? ==> content == old(content) && r == Err(Loaded(old(content)).error)
    {
      var hosts: Hosts := map[];
      if content.Some? {
        var parsed := Parse(content.value);
        if parsed.Err? {
          return Err(parsed.error);
        }
        hosts := parsed.value;
      }
      if host !in hosts {
        hosts := hosts[host := key];
        var text := Save(hosts);
        content := Some(text);
        return Ok(FirstSeen);
      }
      if hosts[host] == key {
        return Ok(Matched);
      }
      return Ok(Mismatch(hosts[host], key));
    }
  }

  function Loaded(file: Option<string>): Result<Hosts, ParseError> {
    if file.Some? then Parsed(file.value) else Ok(map[])
  }

  /** One call: from file `before` to file `after` with result `r`. */
  ghost predicate Verified(before: Option<string>, host: string, key: PubKey,
                           after: Option<string>, r: Result<Verdict, ParseError>) {
    match Loaded(before)
    case Err(e) => r == Err(e) && after == before
    case Ok(hosts) =>
      if host !in hosts then r == Ok(FirstSeen) && after.Some? && IsSaved(hosts[host := key], after.value)
      else
        && after == before
        && r == Ok(if hosts[host] == key then Matched else Mismatch(hosts[host], key))
  }

  datatype Call = Call(host: string, key: PubKey)

  /** Files and results along a run of calls; `files` has one entry more than there are calls. */
  ghost predicate IsRun(calls: seq<Call>, files: seq<Option<string>>, results: seq<Result<Verdict, ParseError>>) {
    && |files| == |calls| + 1 && |results| == |calls| && files[0] == None
    && forall k :: 0 <= k < |calls| ==> Verified(files[k], calls[k].host, calls[k].key, files[k + 1], results[k])
  }

  /** The key of the first call for each host. */
  function FirstKeys(calls: seq<Call>): Hosts {
    if calls == [] then map[]
    else
      var before, c := FirstKeys(calls[..|calls| - 1]), calls[|calls| - 1];
      if c.host in before then before else before[c.host := c.key]
  }

  /** A host is on record exactly when it was seen, with the key of its first call. */
  lemma {:induction false} FirstKeysAreFirst(calls: seq<Call>, host: string)
    ensures host in FirstKeys(calls) <==> exists k :: 0 <= k < |calls| && calls[k].host == host
    ensures host in FirstKeys(calls) ==>
              exists k :: 0 <= k < |calls| && calls[k] == Call(host, FirstKeys(calls)[host]) &&
                          forall j :: 0 <= j < k ==> calls[j].host != host
  {
    if calls != [] {
      var pre := calls[..|calls| - 1];
      FirstKeysAreFirst(pre, host);
      assert forall k :: 0 <= k < |pre| ==> pre[k] == calls[k];
      if host in FirstKeys(calls) && host !in FirstKeys(pre) {
        assert calls[|pre|].host == host;
      }
    }
  }

  ghost predicate CallsWellFormed(calls: seq<Call>) {
    forall k :: 0 <= k < |calls| ==> WellFormed(calls[k].host)
  }

  /** Before each call the file holds exactly the first keys seen so far. */
  lemma {:induction false} FileHoldsFirstKeys(calls: seq<Call>, files: seq<Option<string>>,
                                              results: seq<Result<Verdict, ParseError>>, n: nat)
    requires IsRun(calls, files, results) && CallsWellFormed(calls) && n <= |calls|
    ensures Loaded(files[n]) == Ok(FirstKeys(calls[..n]))
    ensures AllWellFormed(FirstKeys(calls[..n]).Keys)
    ensures n > 0 ==> files[n].Some?
  {
    if n > 0 {
      FileHoldsFirstKeys(calls, files, results, n - 1);
      assert calls[..n][..n - 1] == calls[..n - 1];
      var before, c := FirstKeys(calls[..n - 1]), calls[n - 1];
      assert Verified(files[n - 1], c.host, c.key, files[n], results[n - 1]);
      if c.host !in before {
        ParseOfSave(before[c.host := c.key], files[n].value);
      }
    }
  }

  /**
    Trust on first use over whole runs, through the text: a call answers
    FirstSeen exactly when its host was never seen before, else Matched exactly
    when its key is the first one seen for it, else Mismatch with that key; and
    the file changes only on FirstSeen.
   */
  lemma TrustOnFirstUse(calls: seq<Call>, files: seq<Option<string>>,
                        results: seq<Result<Verdict, ParseError>>, n: nat)
    requires IsRun(calls, files, results) && CallsWellFormed(calls) && n < |calls|
    ensures var c, seen := calls[n], FirstKeys(calls[..n]);
            && results[n] == Ok(if c.host !in seen then FirstSeen
                                else if seen[c.host] == c.key then Matched
                                else Mismatch(seen[c.host], c.key))
            && (results[n] != Ok(FirstSeen) ==> files[n + 1] == files[n])
            && Loaded(files[n + 1]) == Ok(if c.host in seen then seen else seen[c.host := c.key])
  {
    var c := calls[n];
    FileHoldsFirstKeys(calls, files, results, n);
    FileHoldsFirstKeys(calls, files, results, n + 1);
    assert calls[..n + 1][..n] == calls[..n];
    assert Verified(files[n], c.host, c.key, files[n + 1], results[n]);
  }

  /** What is on record for a host stays on record for good. */
  lemma {:induction false} RecordsArePermanent(calls: seq<Call>, m: nat, n: nat, host: string)
    requires m <= n <= |calls| && host in FirstKeys(calls[..m])
    ensures host in FirstKeys(calls[..n]) && FirstKeys(calls[..n])[host] == FirstKeys(calls[..m])[host]
    decreases n
  {
    if m < n {
      RecordsArePermanent(calls, m, n - 1, host);
      assert calls[..n][..n - 1] == calls[..n - 1];
    }
  }

  /**
    The file of a run holds the first key of every host called exactly when all
    host names are well formed: any other name is lost or spoils the file.
   */
  lemma FileFaithfulExactly(calls: seq<Call>, files: seq<Option<string>>, results: seq<Result<Verdict, ParseError>>)
    requires IsRun(calls, files, results)
    ensures Loaded(files[|calls|]) == Ok(FirstKeys(calls)) <==> CallsWellFormed(calls)
  {
    assert calls[..|calls|] == calls;
    if CallsWellFormed(calls) {
      FileHoldsFirstKeys(calls, files, results, |calls|);
    } else {
      var k :| 0 <= k < |calls| && !WellFormed(calls[k].host);
      FirstKeysAreFirst(calls, calls[k].host);
      var file := files[|calls|];
      hide WellFormed, Parsed;
      if file.Some? {
        ParsedWellFormed(file.value);
      }
    }
  }
}
