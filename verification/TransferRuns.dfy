/** What whole runs of the receiver guarantee: safety, non-interference and delivery. */
module TransferRuns {
  import opened Prelude
  import opened TransferNames
  import opened FileTransfer

  // ---------------------------------------------------------------------
  // Safety over arbitrary message runs
  // ---------------------------------------------------------------------

  ghost predicate Fresh(r: Receiver) {
    r.transfers == map[]
  }

  /** The declared size of the latest accepted Begin for `id`. */
  function Declared(r: Receiver, ms: seq<Message>, id: nat): Option<nat> {
    if ms == [] then None
    else
      var pre, m := ms[..|ms| - 1], ms[|ms| - 1];
      if m.Begin? && m.id == id && Step(Run(r, pre), m).1.Progress? then Some(m.total)
      else Declared(r, pre, id)
  }

  /** The chunks accepted for `id` since its latest accepted Begin, in the order of acceptance. */
  function Accepted(r: Receiver, ms: seq<Message>, id: nat): (cs: seq<Message>)
    ensures forall k :: 0 <= k < |cs| ==> cs[k].Chunk? && cs[k].id == id
  {
    if ms == [] then []
    else
      var pre, m := ms[..|ms| - 1], ms[|ms| - 1];
      if !Concerns(m, id) || !Step(Run(r, pre), m).1.Progress? then Accepted(r, pre, id)
      else if m.Begin? then []
      else Accepted(r, pre, id) + [m]
  }

  function Payload(cs: seq<Message>): Bytes
    requires forall k :: 0 <= k < |cs| ==> cs[k].Chunk?
  {
    if cs == [] then [] else Payload(cs[..|cs| - 1]) + cs[|cs| - 1].bytes
  }

  lemma PayloadGrows(cs: seq<Message>, m: Message)
    requires m.Chunk? && forall k :: 0 <= k < |cs| ==> cs[k].Chunk?
    ensures Payload(cs + [m]) == Payload(cs) + m.bytes
  {
    assert (cs + [m])[..|cs|] == cs;
  }

  lemma WrapNext(n: nat)
    ensures (n % U32 + 1) % U32 == (n + 1) % U32
  {
  }

  lemma RunOneMore(r: Receiver, ms: seq<Message>, m: Message)
    ensures Run(r, ms + [m]) == Step(Run(r, ms), m).0
  {
    hide Step;
    assert (ms + [m])[..|ms|] == ms;
  }

  /** How one message changes what counts as accepted and declared. */
  lemma HistoryOneMore(r: Receiver, ms: seq<Message>, m: Message, id: nat)
    ensures var own, cs := Concerns(m, id) && Step(Run(r, ms), m).1.Progress?, Accepted(r, ms, id);
            && Accepted(r, ms + [m], id) == (if !own then cs else if m.Begin? then [] else cs + [m])
            && Declared(r, ms + [m], id) == (if own && m.Begin? then Some(m.total) else Declared(r, ms, id))
  {
    hide Step, Run;
    assert (ms + [m])[..|ms|] == ms;
  }

  /** The table's own books: bytes, size and chunk counter of a live transfer follow from the chunks accepted. */
  ghost predicate Tallied(q: Receiver, id: nat, cs: seq<Message>, declared: Option<nat>)
    requires forall k :: 0 <= k < |cs| ==> cs[k].Chunk?
  {
    id in q.transfers ==>
      var t := q.transfers[id];
      && t.written == |Payload(cs)| <= t.total <= q.maxBytes
      && declared == Some(t.total)
      && t.nextSeq == |cs| % U32
      && forall k :: 0 <= k < |cs| ==> cs[k].chunkSeq == k % U32
  }

  lemma TalliedStep(q: Receiver, m: Message, id: nat, cs: seq<Message>, declared: Option<nat>)
    requires forall k :: 0 <= k < |cs| ==> cs[k].Chunk?
    requires Tallied(q, id, cs, declared)
    ensures !(Concerns(m, id) && Step(q, m).1.Progress?) ==> Tallied(Step(q, m).0, id, cs, declared)
    ensures m.Begin? && m.id == id && Step(q, m).1.Progress? ==> Tallied(Step(q, m).0, id, [], Some(m.total))
    ensures m.Chunk? && m.id == id && Step(q, m).1.Progress? ==> Tallied(Step(q, m).0, id, cs + [m], declared)
  {
    hide Payload, WriteAt, UniqueName, SafeBase;
    if m.Chunk? && m.id == id && Step(q, m).1.Progress? {
      PayloadGrows(cs, m);
      WrapNext(|cs|);
    }
    assert Payload([]) == [] by {
      NoPayload();
    }
  }

  lemma EndNeverProgresses(q: Receiver, m: Message)
    ensures m.End? ==> !Step(q, m).1.Progress?
  {
  }

  lemma NoPayload()
    ensures Payload([]) == []
  {
  }

  /** In every run, with free names or not, the table's books are right. */
  lemma {:induction false} RunIsTallied(r: Receiver, ms: seq<Message>, id: nat)
    requires Fresh(r)
    ensures Tallied(Run(r, ms), id, Accepted(r, ms, id), Declared(r, ms, id))
    ensures Run(r, ms).maxBytes == r.maxBytes
  {
    CapIsFixed(r, ms);
    if ms == [] {
      assert Run(r, ms) == r;
    } else {
      hide Run, Accepted, Declared, Tallied, Step;
      var pre, m := ms[..|ms| - 1], ms[|ms| - 1];
      RunIsTallied(r, pre, id);
      assert pre + [m] == ms;
      RunOneMore(r, pre, m);
      HistoryOneMore(r, pre, m, id);
      EndNeverProgresses(Run(r, pre), m);
      TalliedStep(Run(r, pre), m, id, Accepted(r, pre, id), Declared(r, pre, id));
    }
  }

  /** A live transfer's file is the payload of its accepted chunks. */
  ghost predicate Recorded(q: Receiver, id: nat, cs: seq<Message>)
    requires forall k :: 0 <= k < |cs| ==> cs[k].Chunk?
  {
    id in q.transfers ==>
      var t := q.transfers[id];
      t.dest in q.files && q.files[t.dest] == Payload(cs)
  }

  lemma RecordedStep(q: Receiver, m: Message, id: nat, cs: seq<Message>)
    requires Sound(q) && FindsName(q, m)
    requires forall k :: 0 <= k < |cs| ==> cs[k].Chunk?
    requires Recorded(q, id, cs)
    ensures !(Concerns(m, id) && Step(q, m).1.Progress?) ==> Recorded(Step(q, m).0, id, cs)
    ensures m.Begin? && m.id == id && Step(q, m).1.Progress? ==> Recorded(Step(q, m).0, id, [])
    ensures m.Chunk? && m.id == id && Step(q, m).1.Progress? ==> Recorded(Step(q, m).0, id, cs + [m])
  {
    hide Payload, WriteAt, UniqueName, SafeBase, FindsName;
    NoPayload();
    if !(Concerns(m, id) && Step(q, m).1.Progress?) {
      if id in Step(q, m).0.transfers {
        UnacceptedKeeps(q, m, id);
      }
    } else if m.Chunk? {
      PayloadGrows(cs, m);
      ChunkAppends(q, m);
    }
  }

  /** With free names, every live transfer's file is the payload of the chunks accepted since its latest Begin. */
  lemma {:induction false} RunIsRecorded(r: Receiver, ms: seq<Message>, id: nat)
    requires Fresh(r) && NamesLast(r, ms)
    ensures Recorded(Run(r, ms), id, Accepted(r, ms, id))
  {
    if ms != [] {
      var pre, m := ms[..|ms| - 1], ms[|ms| - 1];
      assert NamesLast(r, pre) && FindsName(Run(r, pre), m);
      hide Run, Accepted, Declared, Recorded, Step, Sound, FindsName, NamesLast;
      RunIsRecorded(r, pre, id);
      RunKeepsSound(r, pre);
      assert pre + [m] == ms;
      RunOneMore(r, pre, m);
      HistoryOneMore(r, pre, m, id);
      EndNeverProgresses(Run(r, pre), m);
      RecordedStep(Run(r, pre), m, id, Accepted(r, pre, id));
    }
  }

  /**
    Safety, over every run: an End is answered with success exactly when it says
    so and the chunks 0, 1, ..., n-1 accepted since the id's latest accepted
    Begin add up to the length that Begin declared.  With free names the file it
    reports holds exactly those chunks.
   */
  lemma CompletionMeansPayload(r: Receiver, ms: seq<Message>, id: nat, success: bool)
    requires Fresh(r) && Step(Run(r, ms), End(id, success)).1.Completed?
    ensures var q, cs := Run(r, ms), Accepted(r, ms, id);
            var outcome := Step(q, End(id, success)).1;
            && Declared(r, ms, id).Some?
            && (outcome.success <==> success && |Payload(cs)| == Declared(r, ms, id).value)
            && (forall k :: 0 <= k < |cs| ==> cs[k].chunkSeq == k % 0x1_0000_0000)
            && (NamesLast(r, ms) ==> outcome.dest in q.files && q.files[outcome.dest] == Payload(cs))
  {
    RunIsTallied(r, ms, id);
    if NamesLast(r, ms) {
      RunIsRecorded(r, ms, id);
    }
    hide Run, Accepted, Declared, Payload;
  }

  /** Over every run: bytes, size and counter of a live transfer; with free names also the length of its file. */
  lemma LiveTransfersAreBounded(r: Receiver, ms: seq<Message>, id: nat)
    requires Fresh(r) && id in Run(r, ms).transfers
    ensures var q, cs := Run(r, ms), Accepted(r, ms, id);
            var t := q.transfers[id];
            && t.written == |Payload(cs)| <= t.total <= r.maxBytes
            && Declared(r, ms, id) == Some(t.total)
            && t.nextSeq == |cs| % 0x1_0000_0000
            && (NamesLast(r, ms) ==> t.dest in q.files && |q.files[t.dest]| == t.written)
  {
    RunIsTallied(r, ms, id);
    if NamesLast(r, ms) {
      RunIsRecorded(r, ms, id);
    }
    hide Run, Accepted, Declared, Payload;
  }

  lemma {:induction false} CapIsFixed(r: Receiver, ms: seq<Message>)
    ensures Run(r, ms).maxBytes == r.maxBytes
  {
    if ms != [] {
      CapIsFixed(r, ms[..|ms| - 1]);
    }
  }

  /** A refused chunk, or an End, takes the transfer out of the table. */
  lemma RefusalEnds(r: Receiver, m: Message)
    requires m.Chunk? || m.End?
    ensures !Step(r, m).1.Progress? ==> m.id !in Step(r, m).0.transfers
  {
  }

  /** Once out of the table, an id stays out, and its chunks and Ends are dropped, until a Begin for it is accepted. */
  lemma {:induction false} DeadUntilBegin(r: Receiver, ms: seq<Message>, id: nat, m: Message)
    requires id !in r.transfers && Declared(r, ms, id).None?
    ensures id !in Run(r, ms).transfers
    ensures (m.Chunk? || m.End?) && m.id == id ==> Step(Run(r, ms), m) == (Run(r, ms), Dropped)
  {
    if ms != [] {
      DeadUntilBegin(r, ms[..|ms| - 1], id, m);
      hide Run, Declared, UniqueName, SafeBase, WriteAt;
    }
  }

  lemma BeginEmpties(q: Receiver, id: nat, base: string, total: nat)
    requires SafeBase(base) == Some(base) && total <= q.maxBytes
    ensures Step(q, Begin(id, base, total))
         == (q.(transfers := q.transfers[id := Live(UniqueName(q.files.Keys, base), total, 0, 0)],
                files := q.files[UniqueName(q.files.Keys, base) := []]), Progress)
  {
    hide SafeBase, UniqueName;
  }

  lemma WholeInOneChunk(q: Receiver, id: nat, dest: string, content: Bytes)
    requires id in q.transfers && q.transfers[id] == Live(dest, |content|, 0, 0)
    requires dest in q.files && q.files[dest] == []
    ensures var sent := Step(q, Chunk(id, 0, content)).0;
            && sent.files == q.files[dest := content] && sent.maxBytes == q.maxBytes
            && Step(sent, End(id, true)).1 == Completed(dest, true)
            && Step(sent, End(id, true)).0.files == sent.files && Step(sent, End(id, true)).0.maxBytes == q.maxBytes
  {
    WriteAppends([], content);
    assert [] + content == content;
    hide WriteAt;
  }

  /** Names as they are in a directory that lacks only the base name, and in one that lacks none. */
  lemma NamesRunOut(existing: set<string>, base: string)
    requires existing == FirstCandidates(base, SUFFIX_LIMIT) - {base}
    ensures NameFree(existing, base) && UniqueName(existing, base) == base
    ensures UniqueName(existing + {base}, base) == base && !NameFree(existing + {base}, base)
  {
    OnlyBaseFree(existing, base);
    AllCandidatesTaken(existing + {base}, base);
    UniqueNameIsFree(existing + {base}, base);
  }

  /**
    Without a free name the files are not safe: in a directory where all of a
    base name's other candidates are taken, a completed transfer's file is
    emptied by the next Begin for that name under another id.
   */
  lemma CompletedFileEmptied(r: Receiver, base: string, content: Bytes, id: nat, other: nat)
    requires SafeBase(base) == Some(base) && |content| <= r.maxBytes
    requires r.files.Keys == FirstCandidates(base, SUFFIX_LIMIT) - {base}
    ensures var sent := [Begin(id, base, |content|), Chunk(id, 0, content)];
            var done := Step(Run(r, sent), End(id, true));
            var spoiling := Begin(other, base, 0);
            && FindsName(r, sent[0]) && !FindsName(done.0, spoiling)
            && done.1 == Completed(base, true) && done.0.files == r.files[base := content]
            && Step(done.0, spoiling).1 == Progress && Step(done.0, spoiling).0.files == r.files[base := []]
  {
    var sent := [Begin(id, base, |content|), Chunk(id, 0, content)];
    hide SafeBase, UniqueName, FirstCandidates, Run, NameFree, Step;
    NamesRunOut(r.files.Keys, base);
    SentInOneChunk(r, base, content, id);
    var done := Step(Run(r, sent), End(id, true)).0;
    Overwritten(r.files, base, content, []);
    BeginEmpties(done, other, base, 0);
  }

  lemma Overwritten(files: Files, name: string, a: Bytes, b: Bytes)
    ensures files[name := a][name := b] == files[name := b]
    ensures files[name := a].Keys == files.Keys + {name}
  {
  }

  lemma SentInOneChunk(r: Receiver, base: string, content: Bytes, id: nat)
    requires SafeBase(base) == Some(base) && |content| <= r.maxBytes && UniqueName(r.files.Keys, base) == base
    ensures var sent := [Begin(id, base, |content|), Chunk(id, 0, content)];
            var done := Step(Run(r, sent), End(id, true));
            done.1 == Completed(base, true) && done.0.files == r.files[base := content] && done.0.maxBytes == r.maxBytes
  {
    hide SafeBase, UniqueName, Run, Step;
    var begin, chunk := Begin(id, base, |content|), Chunk(id, 0, content);
    BeginEmpties(r, id, base, |content|);
    NothingRun(r);
    RunOneMore(r, [], begin);
    RunOneMore(r, [begin], chunk);
    assert [] + [begin] == [begin] && [begin] + [chunk] == [begin, chunk];
    WholeInOneChunk(Step(r, begin).0, id, base, content);
  }

  lemma NothingRun(r: Receiver)
    ensures Run(r, []) == r
  {
  }

  /** A file that no live transfer holds is never changed again. */
  lemma {:induction false} ClosedFilesKept(r: Receiver, ms: seq<Message>, name: string)
    requires Sound(r) && NamesLast(r, ms) && name in r.files
    requires forall id :: id in r.transfers ==> r.transfers[id].dest != name
    ensures name in Run(r, ms).files && Run(r, ms).files[name] == r.files[name]
    ensures forall id :: id in Run(r, ms).transfers ==> Run(r, ms).transfers[id].dest != name
  {
    if ms != [] {
      var pre, m := ms[..|ms| - 1], ms[|ms| - 1];
      ClosedFilesKept(r, pre, name);
      RunKeepsSound(r, pre);
      StepKeepsSound(Run(r, pre), m);
      if m.Begin? && SafeBase(m.filename).Some? {
        UniqueNameIsFree(Run(r, pre).files.Keys, SafeBase(m.filename).value);
      }
    }
  }

  // ---------------------------------------------------------------------
  // Non-interference
  // ---------------------------------------------------------------------

  function Filter(ms: seq<Message>, id: nat): seq<Message> {
    if ms == [] then []
    else Filter(ms[..|ms| - 1], id) + (if Concerns(ms[|ms| - 1], id) then [ms[|ms| - 1]] else [])
  }

  /** What a message does for its own id, up to the name of the file. */
  datatype Effect = Going(content: Bytes) | Finished(success: bool, content: Bytes) | Ignored

  function EffectOf(r: Receiver, m: Message): Effect {
    var (q, outcome) := Step(r, m);
    match outcome
    case Progress => if !m.Unrelated? && m.id in q.transfers then Going(ContentAt(q.files, q.transfers[m.id].dest)) else Ignored
    case Completed(dest, success) => Finished(success, ContentAt(q.files, dest))
    case _ => Ignored
  }

  function Effects(r: Receiver, ms: seq<Message>, id: nat): seq<Effect> {
    if ms == [] then []
    else
      var pre, m := ms[..|ms| - 1], ms[|ms| - 1];
      Effects(r, pre, id) + (if Concerns(m, id) then [EffectOf(Run(r, pre), m)] else [])
  }

  /** Two receivers that agree on everything about `id` but the name of its file. */
  ghost predicate Alike(a: Receiver, b: Receiver, id: nat) {
    && a.maxBytes == b.maxBytes
    && (id in a.transfers <==> id in b.transfers)
    && (id in a.transfers ==>
          var s, t := a.transfers[id], b.transfers[id];
          s.total == t.total && s.written == t.written && s.nextSeq == t.nextSeq
          && ContentAt(a.files, s.dest) == ContentAt(b.files, t.dest))
  }

  lemma BeginsAlike(a: Receiver, b: Receiver, m: Message)
    requires m.Begin? && Alike(a, b, m.id) && FindsName(a, m) && FindsName(b, m)
    ensures Alike(Step(a, m).0, Step(b, m).0, m.id) && EffectOf(a, m) == EffectOf(b, m)
  {
    hide SafeBase, UniqueName, WriteAt, NameFree;
  }

  lemma ChunksAlike(a: Receiver, b: Receiver, m: Message)
    requires m.Chunk? && Alike(a, b, m.id)
    ensures Alike(Step(a, m).0, Step(b, m).0, m.id) && EffectOf(a, m) == EffectOf(b, m)
  {
    hide WriteAt;
  }

  lemma OwnStepAlike(a: Receiver, b: Receiver, id: nat, m: Message)
    requires Alike(a, b, id) && Concerns(m, id) && FindsName(a, m) && FindsName(b, m)
    ensures Alike(Step(a, m).0, Step(b, m).0, id) && EffectOf(a, m) == EffectOf(b, m)
  {
    match m
    case Begin(_, _, _) => BeginsAlike(a, b, m);
    case Chunk(_, _, _) => ChunksAlike(a, b, m);
    case End(_, _) =>
    case Unrelated =>
  }

  lemma OtherStepAlike(a: Receiver, b: Receiver, id: nat, m: Message)
    requires Alike(a, b, id) && !Concerns(m, id) && Sound(a) && FindsName(a, m)
    ensures Alike(Step(a, m).0, b, id)
  {
    StepKeepsSound(a, m);
  }

  lemma {:induction false} RunsAlike(r: Receiver, q: Receiver, ms: seq<Message>, id: nat)
    requires Fresh(r) && Fresh(q) && r.maxBytes == q.maxBytes
    requires NamesLast(r, ms) && NamesLast(q, Filter(ms, id))
    ensures Alike(Run(r, ms), Run(q, Filter(ms, id)), id)
    ensures Effects(r, ms, id) == Effects(q, Filter(ms, id), id)
  {
    if ms != [] {
      var pre, m := ms[..|ms| - 1], ms[|ms| - 1];
      var f := Filter(pre, id);
      RunKeepsSound(r, pre);
      if Concerns(m, id) {
        assert Filter(ms, id)[..|f|] == f && Filter(ms, id)[|f|] == m;
        RunsAlike(r, q, pre, id);
        RunKeepsSound(q, f);
        OwnStepAlike(Run(r, pre), Run(q, f), id, m);
      } else {
        assert Filter(ms, id) == f;
        RunsAlike(r, q, pre, id);
        OtherStepAlike(Run(r, pre), Run(q, f), id, m);
      }
    }
  }

  /**
    Non-interference: the outcomes and file contents one transfer id sees in an
    interleaved run are those of the run of its own messages alone, whatever the
    two directories held before.
   */
  lemma NonInterference(r: Receiver, q: Receiver, ms: seq<Message>, id: nat)
    requires Fresh(r) && Fresh(q) && r.maxBytes == q.maxBytes
    requires NamesLast(r, ms) && NamesLast(q, Filter(ms, id))
    ensures Effects(r, ms, id) == Effects(q, Filter(ms, id), id)
  {
    RunsAlike(r, q, ms, id);
  }

  // ---------------------------------------------------------------------
  // Delivery
  // ---------------------------------------------------------------------

  lemma FilterSplit(ms: seq<Message>, k: nat, id: nat)
    requires k < |ms| && Concerns(ms[k], id)
    ensures Filter(ms[..k], id) + [ms[k]] <= Filter(ms, id)
  {
    FilterGrows(ms, k + 1, id);
    assert ms[..k + 1][..k] == ms[..k];
  }

  lemma {:induction false} FilterGrows(ms: seq<Message>, k: nat, id: nat)
    requires k <= |ms|
    ensures Filter(ms[..k], id) <= Filter(ms, id)
    decreases |ms|
  {
    if k < |ms| {
      FilterGrows(ms[..|ms| - 1], k, id);
      assert ms[..|ms| - 1][..k] == ms[..k];
    } else {
      assert ms[..k] == ms;
    }
  }

  /** After the Begin and the first j chunks of a send, the transfer is live and its file holds the first j pieces. */
  ghost predicate Receiving(q: Receiver, id: nat, total: nat, pieces: seq<Bytes>, j: nat)
    requires j <= |pieces|
  {
    && id in q.transfers
    && var t := q.transfers[id];
       && t.total == total && t.nextSeq == j % U32 && t.written == |Concat(pieces[..j])|
       && t.dest in q.files && q.files[t.dest] == Concat(pieces[..j])
  }

  lemma {:induction false} ConcatGrows(pieces: seq<Bytes>, j: nat)
    requires j <= |pieces|
    ensures |Concat(pieces[..j])| <= |Concat(pieces)|
    decreases |pieces| - j
  {
    if j < |pieces| {
      ConcatGrows(pieces, j + 1);
      assert pieces[..j + 1][..j] == pieces[..j];
    } else {
      assert pieces[..j] == pieces;
    }
  }

  lemma PieceReceived(q: Receiver, id: nat, pieces: seq<Bytes>, j: nat)
    requires Sound(q) && 0 < j <= |pieces| && |Concat(pieces)| <= q.maxBytes
    requires Receiving(q, id, |Concat(pieces)|, pieces, j - 1)
    ensures Receiving(Step(q, Chunk(id, (j - 1) % U32, pieces[j - 1])).0, id, |Concat(pieces)|, pieces, j)
  {
    var m := Chunk(id, (j - 1) % U32, pieces[j - 1]);
    assert pieces[..j][..j - 1] == pieces[..j - 1];
    assert Concat(pieces[..j]) == Concat(pieces[..j - 1]) + pieces[j - 1];
    ConcatGrows(pieces, j);
    assert Step(q, m).1.Progress?;
    ChunkAppends(q, m);
    hide Step, Concat, Sound;
    WrapNext(j - 1);
  }

  lemma BeginReceives(q: Receiver, id: nat, name: string, pieces: seq<Bytes>)
    requires SafeBase(name).Some? && |Concat(pieces)| <= q.maxBytes
    ensures Receiving(Step(q, Begin(id, name, |Concat(pieces)|)).0, id, |Concat(pieces)|, pieces, 0)
  {
    assert pieces[..0] == [];
  }

  lemma OtherKeepsReceiving(q: Receiver, m: Message, id: nat, total: nat, pieces: seq<Bytes>, j: nat)
    requires Sound(q) && FindsName(q, m) && !Concerns(m, id)
    requires j <= |pieces| && Receiving(q, id, total, pieces, j)
    ensures Receiving(Step(q, m).0, id, total, pieces, j)
  {
    hide Concat, WriteAt, UniqueName;
    StepKeepsSound(q, m);
  }

  lemma FilteredLast(ms: seq<Message>, id: nat, sent: seq<Message>, j: nat)
    requires j < |sent| && Filter(ms, id) == sent[..j + 1]
    ensures ms != []
    ensures Concerns(ms[|ms| - 1], id) ==> ms[|ms| - 1] == sent[j] && Filter(ms[..|ms| - 1], id) == sent[..j]
    ensures !Concerns(ms[|ms| - 1], id) ==> Filter(ms[..|ms| - 1], id) == sent[..j + 1]
  {
    hide Concerns;
  }

  lemma {:induction false} PrefixReceived(r: Receiver, ms: seq<Message>, id: nat, name: string, pieces: seq<Bytes>, j: nat)
    requires Fresh(r) && NamesLast(r, ms) && j <= |pieces|
    requires SafeBase(name).Some? && |Concat(pieces)| <= r.maxBytes
    requires Filter(ms, id) == SendMessages(id, name, |Concat(pieces)|, pieces)[..j + 1]
    ensures Receiving(Run(r, ms), id, |Concat(pieces)|, pieces, j)
  {
    var pre, m := ms[..|ms| - 1], ms[|ms| - 1];
    var q, sent := Run(r, pre), SendMessages(id, name, |Concat(pieces)|, pieces);
    RunKeepsSound(r, pre);
    CapIsFixed(r, pre);
    assert Run(r, ms) == Step(q, m).0;
    FilteredLast(ms, id, sent, j);
    assert sent[j] == if j == 0 then Begin(id, name, |Concat(pieces)|) else Chunk(id, (j - 1) % U32, pieces[j - 1]);
    hide Step, Run, Sound, Receiving, SendMessages, Filter, Concat, Concerns, SafeBase;
    if !Concerns(m, id) {
      PrefixReceived(r, pre, id, name, pieces, j);
      OtherKeepsReceiving(q, m, id, |Concat(pieces)|, pieces, j);
    } else {
      if j == 0 {
        BeginReceives(q, id, name, pieces);
      } else {
        PrefixReceived(r, pre, id, name, pieces, j - 1);
        PieceReceived(q, id, pieces, j);
      }
    }
  }

  /**
    End-to-end delivery: if the messages of one send of the file at `path` arrive in order among any
    others, its End completes with success, and at the end of the run the file
    it names holds the source byte for byte.
   */
  lemma Delivery(r: Receiver, ms: seq<Message>, k: nat, id: nat, path: string, content: Bytes, pieces: seq<Bytes>)
    requires Fresh(r) && NamesLast(r, ms)
    requires ReadsOf(pieces, content) && |content| <= r.maxBytes && FileName(path).Some? && '\0' !in path
    requires Filter(ms, id) == SendMessages(id, FileName(path).value, |content|, pieces)
    requires k < |ms| && ms[k] == End(id, true)
    ensures var outcome := Step(Run(r, ms[..k]), ms[k]).1;
            && outcome.Completed? && outcome.success
            && outcome.dest in Run(r, ms).files && Run(r, ms).files[outcome.dest] == content
  {
    var name := FileName(path).value;
    OwnBaseName(path);
    var sent, before := SendMessages(id, name, |content|, pieces), Filter(ms[..k], id);
    FilterSplit(ms, k, id);
    assert sent[|before|] == End(id, true);
    assert |before| == |pieces| + 1 && before == sent[..|pieces| + 1];
    NamesPrefix(r, ms, k);
    PrefixReceived(r, ms[..k], id, name, pieces, |pieces|);
    assert pieces[..|pieces|] == pieces;
    var q := Run(r, ms[..k]);
    var dest, after := q.transfers[id].dest, Step(q, ms[k]).0;
    RunKeepsSound(r, ms[..k]);
    RunSplit(r, ms, k + 1);
    assert ms[..k + 1][..k] == ms[..k];
    NamesPrefix(r, ms, k + 1);
    assert Run(r, ms[..k + 1]) == after;
    ClosedFilesKept(after, ms[k + 1..], dest);
  }

  lemma {:induction false} NamesPrefix(r: Receiver, ms: seq<Message>, k: nat)
    requires NamesLast(r, ms) && k <= |ms|
    ensures NamesLast(r, ms[..k]) && NamesLast(Run(r, ms[..k]), ms[k..])
    decreases |ms|
  {
    if k == |ms| {
      assert ms[..k] == ms && ms[k..] == [];
    } else {
      var pre := ms[..|ms| - 1];
      NamesPrefix(r, pre, k);
      RunSplit(r, pre, k);
      assert pre[..k] == ms[..k] && pre[k..] == ms[k..][..|ms| - k - 1];
    }
  }

  lemma {:induction false} RunSplit(r: Receiver, ms: seq<Message>, k: nat)
    requires k <= |ms|
    ensures Run(r, ms) == Run(Run(r, ms[..k]), ms[k..])
    decreases |ms|
  {
    if k == |ms| {
      assert ms[..k] == ms && ms[k..] == [];
    } else {
      var pre := ms[..|ms| - 1];
      RunSplit(r, pre, k);
      assert pre[..k] == ms[..k] && pre[k..] == ms[k..][..|ms| - k - 1];
    }
  }

  /** Fewer messages than free names: then every Begin finds one, whatever else is sent. */
  lemma DeliveryIntoSmallDirectory(r: Receiver, ms: seq<Message>, k: nat, id: nat, path: string, content: Bytes, pieces: seq<Bytes>)
    requires Fresh(r) && |r.files| + |ms| <= SUFFIX_LIMIT
    requires ReadsOf(pieces, content) && |content| <= r.maxBytes && FileName(path).Some? && '\0' !in path
    requires Filter(ms, id) == SendMessages(id, FileName(path).value, |content|, pieces)
    requires k < |ms| && ms[k] == End(id, true)
    ensures var outcome := Step(Run(r, ms[..k]), ms[k]).1;
            && outcome.Completed? && outcome.success
            && outcome.dest in Run(r, ms).files && Run(r, ms).files[outcome.dest] == content
  {
    FewBeginsFindNames(r, ms);
    Delivery(r, ms, k, id, path, content, pieces);
  }
}
