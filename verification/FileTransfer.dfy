/**
  The chunked file transfer: the sender's loop and the receiver's state machine.

  The receive directory is a map from file names to contents.  A live transfer
  holds a write handle whose offset is the number of bytes it has written.
 */
module FileTransfer {
  import opened Prelude
  import opened TransferNames

  const U32 := 0x1_0000_0000
  const CHUNK_BYTES := 8 * 1024

  type Bytes = seq<byte>
  type Files = map<string, Bytes>

  /** The control messages; `Unrelated` stands for every variant that is not about file transfer. */
  datatype Message =
    | Begin(id: nat, filename: string, total: nat)
    | Chunk(id: nat, chunkSeq: nat, bytes: Bytes)
    | End(id: nat, success: bool)
    | Unrelated

  datatype Outcome = NotForUs | Progress | Completed(dest: string, success: bool) | Dropped

  datatype Live = Live(dest: string, total: nat, written: nat, nextSeq: nat)

  /** A snapshot of a receiver and its directory. */
  datatype Receiver = Receiver(maxBytes: nat, transfers: map<nat, Live>, files: Files)

  function Zeros(n: nat): Bytes {
    seq(n, _ => 0)
  }

  /** Writing through a handle at an offset: a gap behind the end reads as zeros; writing nothing does nothing. */
  function WriteAt(content: Bytes, offset: nat, bytes: Bytes): Bytes {
    if bytes == [] then content
    else if offset <= |content| then
      content[..offset] + bytes
      + (if offset + |bytes| <= |content| then content[offset + |bytes|..] else [])
    else content + Zeros(offset - |content|) + bytes
  }

  function ContentAt(files: Files, name: string): Bytes {
    if name in files then files[name] else []
  }

  function Without(transfers: map<nat, Live>, id: nat): map<nat, Live> {
    transfers - {id}
  }

  /** What one message does to the receiver. */
  function Step(r: Receiver, m: Message): (Receiver, Outcome) {
    match m
    case Unrelated => (r, NotForUs)
    case Begin(id, filename, total) =>
      if total > r.maxBytes then (r, Dropped)
      else (
        match SafeBase(filename)
        case None => (r, Dropped)
        case Some(base) =>
          var dest := UniqueName(r.files.Keys, base);
          (r.(transfers := r.transfers[id := Live(dest, total, 0, 0)], files := r.files[dest := []]), Progress))
    case Chunk(id, chunkSeq, bytes) =>
      if id !in r.transfers then (r, Dropped)
      else
        var t := r.transfers[id];
        if chunkSeq != t.nextSeq || t.written + |bytes| > t.total
        then (r.(transfers := Without(r.transfers, id)), Dropped)
        else
          (r.(transfers := r.transfers[id := t.(written := t.written + |bytes|, nextSeq := (t.nextSeq + 1) % U32)],
              files := r.files[t.dest := WriteAt(ContentAt(r.files, t.dest), t.written, bytes)]), Progress)
    case End(id, success) =>
      if id !in r.transfers then (r, Dropped)
      else
        var t := r.transfers[id];
        (r.(transfers := Without(r.transfers, id)), Completed(t.dest, success && t.written == t.total))
  }

  class TransferReceiver {
    const maxBytes: nat
    var transfers: map<nat, Live>
    var files: Files

    ghost function State(): Receiver
      reads this
    {
      Receiver(maxBytes, transfers, files)
    }

    constructor (maxBytes: nat, files: Files)
      ensures State() == Receiver(maxBytes, map[], files)
    {
      this.maxBytes := maxBytes;
      this.transfers := map[];
      this.files := files;
    }

    method Handle(m: Message) returns (outcome: Outcome)
      modifies this
      ensures (State(), outcome) == Step(old(State()), m)
    {
      match m {
        case Begin(id, filename, total) =>
          if total > maxBytes {
            return Dropped;
          }
          var base := SafeBase(filename);
          if base.None? {
            return Dropped;
          }
          var dest := UniquePath(files.Keys, base.value);
          files := files[dest := []];
          transfers := transfers[id := Live(dest, total, 0, 0)];
          return Progress;
        case Chunk(id, chunkSeq, bytes) =>
          if id !in transfers {
            return Dropped;
          }
          var t := transfers[id];
          if chunkSeq != t.nextSeq {
            transfers := Without(transfers, id);
            return Dropped;
          }
          if t.written + |bytes| > t.total {
            transfers := Without(transfers, id);
            return Dropped;
          }
          files := files[t.dest := WriteAt(ContentAt(files, t.dest), t.written, bytes)];
          transfers := transfers[id := t.(written := t.written + |bytes|, nextSeq := (t.nextSeq + 1) % U32)];
          return Progress;
        case End(id, success) =>
          if id !in transfers {
            return Dropped;
          }
          var t := transfers[id];
          transfers := Without(transfers, id);
          return Completed(t.dest, success && t.written == t.total);
        case Unrelated =>
          return NotForUs;
      }
    }
  }

  // ---------------------------------------------------------------------
  // The sender
  // ---------------------------------------------------------------------

  datatype SendResult = Sent | TooLarge(size: nat, max: nat) | BadFilename

  function Concat(parts: seq<Bytes>): Bytes {
    if parts == [] then [] else Concat(parts[..|parts| - 1]) + parts[|parts| - 1]
  }

  function ChunkMessages(id: nat, pieces: seq<Bytes>): (ms: seq<Message>)
    ensures |ms| == |pieces|
    ensures forall k :: 0 <= k < |ms| ==> ms[k] == Chunk(id, k % U32, pieces[k])
  {
    seq(|pieces|, k requires 0 <= k < |pieces| => Chunk(id, k % U32, pieces[k]))
  }

  /** Everything `send_file` puts on the wire for a file read in the given pieces. */
  function SendMessages(id: nat, name: string, total: nat, pieces: seq<Bytes>): seq<Message> {
    [Begin(id, name, total)] + ChunkMessages(id, pieces) + [End(id, true)]
  }

  /** How a file may be read: non-empty pieces of at most one buffer that add up to it. */
  ghost predicate ReadsOf(pieces: seq<Bytes>, content: Bytes) {
    && Concat(pieces) == content
    && forall k :: 0 <= k < |pieces| ==> 0 < |pieces[k]| <= CHUNK_BYTES
  }

  /** `pieces` is what successive calls of `read` return; the call behind them returns 0. */
  method SendFile(id: nat, path: string, content: Bytes, maxBytes: nat, pieces: seq<Bytes>)
    returns (r: SendResult, wire: seq<Message>)
    requires ReadsOf(pieces, content)
    ensures |content| > maxBytes ==> r == TooLarge(|content|, maxBytes) && wire == []
    ensures |content| <= maxBytes && FileName(path).None? ==> r == BadFilename && wire == []
    ensures |content| <= maxBytes && FileName(path).Some? ==>
              && r == Sent
              && wire == SendMessages(id, FileName(path).value, |content|, pieces)
              && |wire| == |pieces| + 2
              && wire[0] == Begin(id, FileName(path).value, |content|)
              && (forall k :: 1 <= k <= |pieces| ==> wire[k] == Chunk(id, (k - 1) % 0x1_0000_0000, pieces[k - 1]))
              && wire[|pieces| + 1] == End(id, true)
  {
    wire := [];
    if |content| > maxBytes {
      return TooLarge(|content|, maxBytes), wire;
    }
    var name := FileName(path);
    if name.None? {
      return BadFilename, wire;
    }
    hide SendMessages;
    wire := [Begin(id, name.value, |content|)];
    var chunkSeq, i := 0, 0;
    while true
      invariant 0 <= i <= |pieces| && chunkSeq == i % U32
      invariant |wire| == i + 1 && wire[0] == Begin(id, name.value, |content|)
      invariant forall k :: 1 <= k <= i ==> wire[k] == Chunk(id, (k - 1) % 0x1_0000_0000, pieces[k - 1])
      decreases |pieces| - i
    {
      var piece := if i < |pieces| then pieces[i] else [];
      if |piece| == 0 {
        break;
      }
      wire := wire + [Chunk(id, chunkSeq, piece)];
      chunkSeq := (chunkSeq + 1) % U32;
      i := i + 1;
    }
    wire := wire + [End(id, true)];
    r := Sent;
    WireSpelled(id, name.value, |content|, pieces, wire);
  }

  lemma WireSpelled(id: nat, name: string, total: nat, pieces: seq<Bytes>, wire: seq<Message>)
    requires |wire| == |pieces| + 2
    requires wire[0] == Begin(id, name, total)
    requires forall k :: 1 <= k <= |pieces| ==> wire[k] == Chunk(id, (k - 1) % 0x1_0000_0000, pieces[k - 1])
    requires wire[|pieces| + 1] == End(id, true)
    ensures wire == SendMessages(id, name, total, pieces)
  {
    var chunks := ChunkMessages(id, pieces);
    assert wire[1..|pieces| + 1] == chunks by {
      forall k | 0 <= k < |pieces| ensures wire[1..|pieces| + 1][k] == chunks[k] {
        assert wire[1..|pieces| + 1][k] == wire[k + 1];
      }
    }
    hide ChunkMessages;
    assert wire == [wire[0]] + wire[1..|pieces| + 1] + [wire[|pieces| + 1]];
  }

  lemma {:induction false} ReadsAreNoMoreThanBytes(pieces: seq<Bytes>)
    requires forall k :: 0 <= k < |pieces| ==> |pieces[k]| > 0
    ensures |pieces| <= |Concat(pieces)|
  {
    if pieces != [] {
      ReadsAreNoMoreThanBytes(pieces[..|pieces| - 1]);
    }
  }

  /** Below 4 GiB, and so under the 64 MiB cap, the sequence number is the chunk's index: it never wraps. */
  lemma SequenceNeverWraps(id: nat, content: Bytes, pieces: seq<Bytes>)
    requires ReadsOf(pieces, content) && |content| < 0x1_0000_0000
    ensures |pieces| < 0x1_0000_0000 && forall k :: 0 <= k < |pieces| ==> ChunkMessages(id, pieces)[k] == Chunk(id, k, pieces[k])
  {
    ReadsAreNoMoreThanBytes(pieces);
  }

  // ---------------------------------------------------------------------
  // Runs
  // ---------------------------------------------------------------------

  function Run(r: Receiver, ms: seq<Message>): Receiver {
    if ms == [] then r else Step(Run(r, ms[..|ms| - 1]), ms[|ms| - 1]).0
  }

  predicate Concerns(m: Message, id: nat) {
    !m.Unrelated? && m.id == id
  }

  /** A Begin that would be accepted finds a free name. */
  ghost predicate FindsName(r: Receiver, m: Message) {
    m.Begin? && SafeBase(m.filename).Some? ==> NameFree(r.files.Keys, SafeBase(m.filename).value)
  }

  ghost predicate NamesLast(r: Receiver, ms: seq<Message>) {
    ms != [] ==> NamesLast(r, ms[..|ms| - 1]) && FindsName(Run(r, ms[..|ms| - 1]), ms[|ms| - 1])
  }

  /** Each live transfer has its own file, as long as it has written; nothing exceeds its declared size. */
  ghost predicate Sound(r: Receiver) {
    && (forall id :: id in r.transfers ==>
          var t := r.transfers[id];
          && t.dest in r.files && |r.files[t.dest]| == t.written <= t.total <= r.maxBytes && t.nextSeq < U32)
    && (forall i, j :: i in r.transfers && j in r.transfers && i != j ==> r.transfers[i].dest != r.transfers[j].dest)
  }

  /** A write byte by byte. */
  lemma WrittenExactly(content: Bytes, offset: nat, bytes: Bytes)
    requires bytes != []
    ensures var after, end := WriteAt(content, offset, bytes), offset + |bytes|;
            && |after| == (if end < |content| then |content| else end)
            && forall k :: 0 <= k < |after| ==>
                 after[k] == if offset <= k < end then bytes[k - offset] else if k < |content| then content[k] else 0
  {
  }

  /** With exclusive files a write appends. */
  lemma WriteAppends(content: Bytes, bytes: Bytes)
    ensures WriteAt(content, |content|, bytes) == content + bytes
  {
  }

  /** Every file but that of the transfer a chunk belongs to stays as it is. */
  ghost predicate OthersKept(r: Receiver, m: Message) {
    forall name :: name in r.files ==>
      name in Step(r, m).0.files &&
      (Step(r, m).0.files[name] == r.files[name] ||
       (m.Chunk? && m.id in r.transfers && name == r.transfers[m.id].dest))
  }

  lemma BeginKeepsSound(r: Receiver, m: Message)
    requires Sound(r) && FindsName(r, m) && m.Begin?
    ensures Sound(Step(r, m).0) && OthersKept(r, m)
  {
    hide SafeBase, UniqueName, NameFree, WriteAt;
    if SafeBase(m.filename).Some? {
      UniqueNameIsFree(r.files.Keys, SafeBase(m.filename).value);
    }
  }

  lemma ChunkKeepsSound(r: Receiver, m: Message)
    requires Sound(r) && m.Chunk?
    ensures Sound(Step(r, m).0) && OthersKept(r, m)
  {
    hide WriteAt, UniqueName, SafeBase;
    if m.id in r.transfers {
      var t := r.transfers[m.id];
      WriteAppends(r.files[t.dest], m.bytes);
    }
  }

  /**
    One step of a sound receiver: it stays sound, touches no file but that of
    the transfer it belongs to, and a Begin only adds a file.
   */
  lemma StepKeepsSound(r: Receiver, m: Message)
    requires Sound(r) && FindsName(r, m)
    ensures Sound(Step(r, m).0) && OthersKept(r, m)
  {
    match m
    case Begin(_, _, _) => BeginKeepsSound(r, m);
    case Chunk(_, _, _) => ChunkKeepsSound(r, m);
    case End(_, _) =>
    case Unrelated =>
  }

  /** An accepted chunk is the next one, and appends to its own file. */
  lemma ChunkAppends(r: Receiver, m: Message)
    requires Sound(r) && m.Chunk? && Step(r, m).1.Progress?
    ensures m.id in r.transfers
    ensures var t := r.transfers[m.id];
            && t.dest in r.files && m.chunkSeq == t.nextSeq
            && Step(r, m).0 == r.(transfers := r.transfers[m.id := Live(t.dest, t.total, t.written + |m.bytes|, (t.nextSeq + 1) % U32)],
                                  files := r.files[t.dest := r.files[t.dest] + m.bytes])
  {
    WriteAppends(r.files[r.transfers[m.id].dest], m.bytes);
  }

  /** A message that is not accepted for `id` leaves its live transfer and its file alone, if it stays live. */
  lemma UnacceptedKeeps(r: Receiver, m: Message, id: nat)
    requires Sound(r) && FindsName(r, m) && !(Concerns(m, id) && Step(r, m).1.Progress?)
    requires id in Step(r, m).0.transfers
    ensures id in r.transfers && Step(r, m).0.transfers[id] == r.transfers[id]
    ensures r.transfers[id].dest in r.files
    ensures r.transfers[id].dest in Step(r, m).0.files
    ensures Step(r, m).0.files[r.transfers[id].dest] == r.files[r.transfers[id].dest]
  {
    StepKeepsSound(r, m);
  }

  lemma {:induction false} RunKeepsSound(r: Receiver, ms: seq<Message>)
    requires Sound(r) && NamesLast(r, ms)
    ensures Sound(Run(r, ms))
  {
    if ms != [] {
      RunKeepsSound(r, ms[..|ms| - 1]);
      StepKeepsSound(Run(r, ms[..|ms| - 1]), ms[|ms| - 1]);
    }
  }

  /**
    A Begin that is accepted leaves every existing file as it is, unless all
    10,000 names are taken: then the base name's file is emptied.
   */
  lemma BeginAltersOnlyWithoutName(r: Receiver, m: Message)
    requires m.Begin? && Step(r, m).1.Progress?
    ensures (forall name :: name in r.files ==> name in Step(r, m).0.files && Step(r, m).0.files[name] == r.files[name])
            <==> FindsName(r, m) || r.files[SafeBase(m.filename).value] == []
  {
    UniqueNameIsFree(r.files.Keys, SafeBase(m.filename).value);
  }

  lemma {:induction false} FewBeginsFindNames(r: Receiver, ms: seq<Message>)
    requires |r.files| + |ms| <= SUFFIX_LIMIT && Sound(r)
    ensures NamesLast(r, ms) && |Run(r, ms).files| <= |r.files| + |ms|
  {
    if ms != [] {
      var pre, m := ms[..|ms| - 1], ms[|ms| - 1];
      FewBeginsFindNames(r, pre);
      RunKeepsSound(r, pre);
      var q := Run(r, pre);
      assert |q.files.Keys| == |q.files|;
      if m.Begin? && SafeBase(m.filename).Some? {
        FewFilesLeaveAName(q.files.Keys, SafeBase(m.filename).value);
      }
      OneMoreFile(q, m);
    }
  }

  lemma OneMoreFile(r: Receiver, m: Message)
    requires Sound(r)
    ensures |Step(r, m).0.files| <= |r.files| + 1
  {
    var files := Step(r, m).0.files;
    if files != r.files {
      var name := if m.Begin? then UniqueName(r.files.Keys, SafeBase(m.filename).value) else r.transfers[m.id].dest;
      assert files.Keys == r.files.Keys + {name};
      assert |files| == |files.Keys| && |r.files| == |r.files.Keys|;
    }
  }
}
