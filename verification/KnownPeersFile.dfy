/** The legacy known-peers file: public key to label, saved by ascending base64 key. */
module KnownPeersFile {
  import opened Prelude
  import opened Base64
  import opened TrustText
  import KnownHosts
  import TrustLines
  import TrustOrder

  type Peers = map<PubKey, string>

  /** Later rows win. */
  function ToPeers(rows: seq<Row>): Peers {
    if rows == [] then map[] else ToPeers(rows[..|rows| - 1])[rows[|rows| - 1].key := rows[|rows| - 1].name]
  }

  function Parsed(content: string): Result<Peers, ParseError> {
    match ParseRows(Lines(content), 1) case Ok(rows) => Ok(ToPeers(rows)) case Err(e) => Err(e)
  }

  method Parse(content: string) returns (r: Result<Peers, ParseError>)
    ensures r == Parsed(content)
  {
    hide ParseLine, Lines, ParseRows, ToPeers;
    var lines, entries: Peers := Lines(content), map[];
    ghost var rows: seq<Row> := [];
    LinesStart(lines);
    NoRows();
    for i := 0 to |lines|
      invariant entries == ToPeers(rows)
      invariant ParseRows(lines, 1) == Prepend(rows, ParseRows(lines[i..], i + 1))
    {
      var line := ParseLine(lines[i]);
      LineStep(rows, lines, i);
      match line {
        case Blank =>
        case Bad(reason) => return Err(ParseError(i + 1, reason));
        case Entry(row) =>
          entries := entries[row.key := row.name];
          OneMoreRow(rows, row);
          rows := rows + [row];
      }
    }
    LinesEnd(rows, lines, |lines| + 1);
    r := Ok(entries);
  }

  lemma NoRows()
    ensures ToPeers([]) == map[]
  {
  }

  lemma OneMoreRow(rows: seq<Row>, row: Row)
    ensures ToPeers(rows + [row]) == ToPeers(rows)[row.key := row.name]
  {
    assert (rows + [row])[..|rows|] == rows;
  }

  function KeyTexts(peers: Peers): set<string> {
    set k | k in peers :: ToBase64(k)
  }

  function KeyOf(peers: Peers, text: string): (k: PubKey)
    requires text in KeyTexts(peers)
    ensures k in peers && ToBase64(k) == text
  {
    hide Encode, Decode, Trim;
    assert exists k: PubKey :: k in peers && ToBase64(k) == text;
    assert forall k: PubKey :: ToBase64(k) == text ==> FromBase64(text) == Some(k) by {
      forall k: PubKey ensures FromBase64(ToBase64(k)) == Some(k) {
        KeyReads(k);
      }
    }
    FromBase64(text).value
  }

  function RowOf(peers: Peers, text: string): (row: Row)
    requires text in KeyTexts(peers)
    ensures row.key in peers && row.name == peers[row.key] && ToBase64(row.key) == text
  {
    var k := KeyOf(peers, text);
    Row(peers[k], k)
  }

  /** The rows for the given key texts, in that order. */
  function RowsOf(peers: Peers, texts: seq<string>): (rows: seq<Row>)
    requires forall t :: t in texts ==> t in KeyTexts(peers)
    ensures |rows| == |texts|
    ensures forall k :: 0 <= k < |rows| ==> texts[k] in texts && rows[k] == RowOf(peers, texts[k])
  {
    hide ToBase64, KeyTexts, RowOf;
    seq(|texts|, k requires 0 <= k < |texts| => RowOf(peers, texts[k]))
  }

  lemma RowsOfOneMore(peers: Peers, texts: seq<string>, last: string)
    requires forall t :: t in texts + [last] ==> t in KeyTexts(peers)
    ensures last in texts + [last] && forall t :: t in texts ==> t in texts + [last]
    ensures RowsOf(peers, texts + [last]) == RowsOf(peers, texts) + [RowOf(peers, last)]
  {
    hide ToBase64, KeyTexts, RowOf;
    assert last in texts + [last];
    assert forall t :: t in texts ==> t in texts + [last];
  }

  /** The text a store is saved as: its rows by ascending base64 key. */
  ghost predicate IsSaved(peers: Peers, content: string) {
    exists texts :: Lists(texts, KeyTexts(peers)) && content == Print(RowsOf(peers, texts))
  }

  method Save(peers: Peers) returns (content: string)
    ensures IsSaved(peers, content)
  {
    hide Print, RowsOf, ToBase64;
    var texts := SortedNames(KeyTexts(peers));
    content := "";
    PrintNothing(peers);
    for i := 0 to |texts|
      invariant content == Print(RowsOf(peers, texts[..i]))
    {
      PrintStep(peers, texts, i);
      content := content + (RowOf(peers, texts[i]).name + " " + texts[i] + "\n");
    }
    assert texts[..|texts|] == texts;
  }

  lemma PrintNothing(peers: Peers)
    ensures Print(RowsOf(peers, [])) == ""
  {
  }

  lemma PrintStep(peers: Peers, texts: seq<string>, i: nat)
    requires i < |texts| && forall t :: t in texts ==> t in KeyTexts(peers)
    ensures texts[i] in texts
    ensures Print(RowsOf(peers, texts[..i + 1]))
            == Print(RowsOf(peers, texts[..i])) + (RowOf(peers, texts[i]).name + " " + texts[i] + "\n")
  {
    hide ToBase64, KeyTexts, RowOf;
    assert texts[..i + 1] == texts[..i] + [texts[i]];
    RowsOfOneMore(peers, texts[..i], texts[i]);
    KnownHosts.PrintAppend(RowsOf(peers, texts[..i]), RowOf(peers, texts[i]));
  }

  /** Saving is deterministic, whatever order the map is traversed in. */
  lemma SavedOnce(peers: Peers, a: string, b: string)
    requires IsSaved(peers, a) && IsSaved(peers, b)
    ensures a == b
  {
    var m :| Lists(m, KeyTexts(peers)) && a == Print(RowsOf(peers, m));
    var n :| Lists(n, KeyTexts(peers)) && b == Print(RowsOf(peers, n));
    ListingUnique(m, n, KeyTexts(peers));
  }

  /** What one more row adds. */
  lemma PeersOfOneMore(peers: Peers, rows: seq<Row>, row: Row, last: string)
    requires row.key in peers && row.name == peers[row.key] && ToBase64(row.key) == last
    ensures forall k: PubKey :: k in ToPeers(rows + [row]) <==> k in ToPeers(rows) || (k in peers && ToBase64(k) == last)
    ensures ToPeers(rows + [row]) == ToPeers(rows)[row.key := peers[row.key]]
  {
    hide ToBase64, ToPeers;
    OneMoreRow(rows, row);
    forall k: PubKey ensures ToBase64(k) == last <==> k == row.key {
      TextTellsKey(k, row.key);
    }
  }

  lemma {:induction false} PeersOfRows(peers: Peers, texts: seq<string>)
    requires forall t :: t in texts ==> t in KeyTexts(peers)
    ensures forall k: PubKey :: k in ToPeers(RowsOf(peers, texts)) <==> k in peers && ToBase64(k) in texts
    ensures forall k: PubKey :: k in ToPeers(RowsOf(peers, texts)) ==> ToPeers(RowsOf(peers, texts))[k] == peers[k]
  {
    hide ToBase64, KeyTexts, RowOf;
    if texts != [] {
      hide ToPeers, RowsOf;
      var pre, last := texts[..|texts| - 1], texts[|texts| - 1];
      assert texts == pre + [last];
      PeersOfRows(peers, pre);
      RowsOfOneMore(peers, pre, last);
      PeersOfOneMore(peers, RowsOf(peers, pre), RowOf(peers, last), last);
    }
  }

  lemma PeersListed(peers: Peers, texts: seq<string>)
    requires Lists(texts, KeyTexts(peers))
    ensures ToPeers(RowsOf(peers, texts)) == peers
  {
    hide ToBase64, RowsOf, ToPeers, Sorted;
    PeersOfRows(peers, texts);
    assert forall k: PubKey :: k in peers ==> ToBase64(k) in KeyTexts(peers);
  }

  ghost predicate LabelsWellFormed(peers: Peers) {
    forall k :: k in peers ==> WellFormed(peers[k])
  }

  lemma {:induction false} ParsedLabels(rows: seq<Row>)
    requires forall k :: 0 <= k < |rows| ==> WellFormed(rows[k].name)
    ensures LabelsWellFormed(ToPeers(rows))
  {
    hide WellFormed;
    if rows != [] {
      ParsedLabels(rows[..|rows| - 1]);
    }
  }

  lemma ParsedWellFormed(content: string)
    ensures Parsed(content).Ok? ==> LabelsWellFormed(Parsed(content).value)
  {
    hide WellFormed, ParseRows, Lines, ToPeers;
    RowsWellFormed(Lines(content), 1);
    if Parsed(content).Ok? {
      ParsedLabels(ParseRows(Lines(content), 1).value);
    }
  }

  lemma SavedReads(peers: Peers, texts: seq<string>)
    requires Lists(texts, KeyTexts(peers)) && LabelsWellFormed(peers)
    ensures Parsed(Print(RowsOf(peers, texts))) == Ok(peers)
  {
    hide WellFormed, Print, ParseRows, Lines, ToBase64, KeyTexts, RowsOf, ToPeers;
    PeersListed(peers, texts);
    RowsRead(RowsOf(peers, texts), 1);
  }

  /** The saved text reads back as the same store exactly when every label is well formed. */
  lemma ParseOfSave(peers: Peers, content: string)
    requires IsSaved(peers, content)
    ensures Parsed(content) == Ok(peers) <==> LabelsWellFormed(peers)
  {
    var texts :| Lists(texts, KeyTexts(peers)) && content == Print(RowsOf(peers, texts));
    if LabelsWellFormed(peers) {
      SavedReads(peers, texts);
    }
    ParsedWellFormed(content);
  }

  // ---------------------------------------------------------------------
  // The text, character by character
  // ---------------------------------------------------------------------

  /** A blank or comment line may stand between any two lines of the file: only an error's line number tells. */
  lemma CommentsSkipped(a: string, line: string, b: string)
    requires (a == "" || a[|a| - 1] == '\n') && '\n' !in line
    requires TrustLines.Skippable(line)
    ensures Parsed(a + (line + ("\n" + b)))
         == match Parsed(a + b)
            case Ok(peers) => Ok(peers)
            case Err(e) => Err(ParseError(if e.line <= |Lines(a)| then e.line else e.line + 1, e.reason))
  {
    hide ParseRows, Lines, TrustLines.Skippable, ToPeers;
    TrustLines.SkippedLine(a, line, b);
  }

  /** The last line is read with or without a line end. */
  lemma LastLineEndIsOptional(content: string)
    requires content != "" && content[|content| - 1] != '\n'
    ensures Parsed(content + "\n") == Parsed(content)
  {
    hide ParseRows, Lines, ToPeers;
    TrustLines.LastLineEndIsOptional(content);
  }

  /** Of several rows for one key the last one counts. */
  lemma {:induction false} LastRowCounts(rows: seq<Row>, key: PubKey)
    ensures key in ToPeers(rows) <==> exists k :: 0 <= k < |rows| && rows[k].key == key
    ensures key in ToPeers(rows) ==>
              exists k :: 0 <= k < |rows| && rows[k] == Row(ToPeers(rows)[key], key)
                          && forall j :: k < j < |rows| ==> rows[j].key != key
  {
    hide ToPeers;
    if rows == [] {
      NoRows();
    } else {
      var pre, last := rows[..|rows| - 1], rows[|rows| - 1];
      assert rows == pre + [last];
      LastRowCounts(pre, key);
      OneMoreRow(pre, last);
      if last.key == key {
        assert rows[|pre|] == Row(ToPeers(rows)[key], key);
      } else if key in ToPeers(pre) {
        var k :| 0 <= k < |pre| && pre[k] == Row(ToPeers(pre)[key], key) && forall j :: k < j < |pre| ==> pre[j].key != key;
        assert rows[k] == Row(ToPeers(rows)[key], key);
      }
    }
  }

  /** The lines `<label> <key>` for the given keys. */
  function Spelled(peers: Peers, keys: seq<PubKey>): string
    requires forall k :: k in keys ==> k in peers
  {
    if keys == [] then ""
    else
      var k := keys[|keys| - 1];
      Spelled(peers, keys[..|keys| - 1]) + (peers[k] + " " + Encode(k) + "\n")
  }

  lemma {:induction false} PrintIsSpelled(peers: Peers, keys: seq<PubKey>, texts: seq<string>)
    requires forall k :: k in keys ==> k in peers
    requires |texts| == |keys| && forall i :: 0 <= i < |keys| ==> texts[i] == Encode(keys[i])
    requires forall t :: t in texts ==> t in KeyTexts(peers)
    ensures Print(RowsOf(peers, texts)) == Spelled(peers, keys)
  {
    hide Encode, Print, RowsOf, KeyTexts;
    if keys == [] {
      PrintNothing(peers);
    } else {
      var i := |keys| - 1;
      PrintIsSpelled(peers, keys[..i], texts[..i]);
      PrintStep(peers, texts, i);
      assert texts[..i + 1] == texts;
      assert RowOf(peers, texts[i]).name == peers[keys[i]] by {
        KeyOfText(peers, keys[i], texts[i]);
      }
    }
  }

  lemma KeyOfText(peers: Peers, k: PubKey, text: string)
    requires k in peers && text == Encode(k) && text in KeyTexts(peers)
    ensures RowOf(peers, text) == Row(peers[k], k)
  {
    hide Encode, KeyTexts, KeyOf;
    assert text == ToBase64(k);
    var r := RowOf(peers, text);
    hide ToBase64;
    TextTellsKey(k, r.key);
  }

  /** What is saved: one line `<label> <key>` for each peer, in the order of the characters of the keys' texts. */
  lemma SavedTextIs(peers: Peers, content: string) returns (keys: seq<PubKey>)
    requires IsSaved(peers, content)
    ensures forall k :: k in keys <==> k in peers
    ensures forall i, j :: 0 <= i < j < |keys| ==> TrustOrder.Before(Encode(keys[i]), Encode(keys[j]))
    ensures content == Spelled(peers, keys)
  {
    hide Print, RowsOf, Spelled, TrustOrder.Before, Encode, KeyTexts, KeyOf;
    var texts :| Lists(texts, KeyTexts(peers)) && content == Print(RowsOf(peers, texts));
    keys := KeysOf(peers, texts);
    PrintIsSpelled(peers, keys, texts);
    TrustOrder.SortedExactly(texts);
    forall k | k in peers ensures k in keys {
      AllKeysListed(peers, texts, keys, k);
    }
  }

  lemma {:induction false} KeysOf(peers: Peers, texts: seq<string>) returns (keys: seq<PubKey>)
    requires forall t :: t in texts ==> t in KeyTexts(peers)
    ensures |keys| == |texts|
    ensures forall i :: 0 <= i < |texts| ==> texts[i] == Encode(keys[i])
    ensures forall k :: k in keys ==> k in peers
  {
    hide Encode, KeyTexts;
    if texts == [] {
      keys := [];
    } else {
      var i := |texts| - 1;
      var rest := KeysOf(peers, texts[..i]);
      var last := KeyOf(peers, texts[i]);
      assert ToBase64(last) == Encode(last);
      keys := rest + [last];
    }
  }

  lemma AllKeysListed(peers: Peers, texts: seq<string>, keys: seq<PubKey>, k: PubKey)
    requires forall t :: t in KeyTexts(peers) ==> t in texts
    requires |keys| == |texts| && forall i :: 0 <= i < |texts| ==> texts[i] == Encode(keys[i])
    requires k in peers
    ensures k in keys
  {
    assert ToBase64(k) in KeyTexts(peers) && ToBase64(k) == Encode(k);
    hide Encode, KeyTexts, ToBase64;
    var i :| 0 <= i < |texts| && texts[i] == Encode(k);
    EncodeInjective(keys[i], k);
  }
}
