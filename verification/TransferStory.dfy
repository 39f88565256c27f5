/**
  The receiver against a simpler account of it: for each transfer id, what was
  declared and the pieces received so far, and nothing about files or names.
 */
module TransferStory {
  import opened Prelude
  import opened TransferNames
  import opened FileTransfer
  import opened TransferRuns

  datatype Story = Closed | Open(total: nat, got: seq<Bytes>)

  /** An outcome without the file it names. */
  datatype Answer = NotOurs | GoesOn | Done(success: bool) | Refused

  function AnswerOf(outcome: Outcome): Answer {
    match outcome
    case NotForUs => NotOurs
    case Progress => GoesOn
    case Completed(_, success) => Done(success)
    case Dropped => Refused
  }

  /** What a message does to the story of its id. */
  function Tell(maxBytes: nat, s: Story, m: Message): (Story, Answer) {
    match m
    case Unrelated => (s, NotOurs)
    case Begin(_, filename, total) =>
      if total <= maxBytes && SafeBase(filename).Some? then (Open(total, []), GoesOn) else (s, Refused)
    case Chunk(_, chunkSeq, bytes) =>
      if s.Closed? then (Closed, Refused)
      else if chunkSeq == |s.got| % 0x1_0000_0000 && |Concat(s.got)| + |bytes| <= s.total
      then (Open(s.total, s.got + [bytes]), GoesOn)
      else (Closed, Refused)
    case End(_, success) =>
      if s.Closed? then (Closed, Refused) else (Closed, Done(success && |Concat(s.got)| == s.total))
  }

  /** The story of an id after a run, told by its own messages. */
  function StoryAfter(maxBytes: nat, ms: seq<Message>, id: nat): Story {
    if ms == [] then Closed
    else
      var before, m := StoryAfter(maxBytes, ms[..|ms| - 1], id), ms[|ms| - 1];
      if Concerns(m, id) then Tell(maxBytes, before, m).0 else before
  }

  /** The receiver's table entry for an id tells its story. */
  ghost predicate Tells(q: Receiver, id: nat, s: Story) {
    if id in q.transfers then
      var t := q.transfers[id];
      s.Open? && t.total == s.total && t.written == |Concat(s.got)| && t.nextSeq == |s.got| % 0x1_0000_0000
    else s.Closed?
  }

  lemma OnePieceMore(got: seq<Bytes>, bytes: Bytes)
    ensures Concat(got + [bytes]) == Concat(got) + bytes
  {
    assert (got + [bytes])[..|got|] == got;
  }

  lemma OwnMessageTold(q: Receiver, id: nat, s: Story, m: Message)
    requires Tells(q, id, s) && Concerns(m, id)
    ensures Tells(Step(q, m).0, id, Tell(q.maxBytes, s, m).0)
    ensures AnswerOf(Step(q, m).1) == Tell(q.maxBytes, s, m).1
  {
    hide SafeBase, UniqueName, WriteAt, Concat;
    assert Concat([]) == [] by {
      NothingGot();
    }
    if m.Chunk? && s.Open? {
      OnePieceMore(s.got, m.bytes);
      WrapNext(|s.got|);
    }
  }

  lemma NothingGot()
    ensures Concat([]) == []
  {
  }

  lemma OtherMessageTold(q: Receiver, id: nat, s: Story, m: Message)
    requires Tells(q, id, s) && !Concerns(m, id)
    ensures Tells(Step(q, m).0, id, s)
  {
    hide SafeBase, UniqueName, WriteAt, Concat;
  }

  lemma {:induction false} RunTellsStory(r: Receiver, ms: seq<Message>, id: nat)
    requires Fresh(r)
    ensures Tells(Run(r, ms), id, StoryAfter(r.maxBytes, ms, id))
  {
    if ms != [] {
      var pre, m := ms[..|ms| - 1], ms[|ms| - 1];
      RunTellsStory(r, pre, id);
      CapIsFixed(r, pre);
      hide Tells, Step, Tell, Concerns;
      if Concerns(m, id) {
        OwnMessageTold(Run(r, pre), id, StoryAfter(r.maxBytes, pre, id), m);
      } else {
        OtherMessageTold(Run(r, pre), id, StoryAfter(r.maxBytes, pre, id), m);
      }
    }
  }

  /**
    Over every run, with free names or not, each message is answered as the
    story of its id has it, and one that is not about file transfer is left to
    others.
   */
  lemma AnsweredByStory(r: Receiver, ms: seq<Message>, m: Message)
    requires Fresh(r)
    ensures var answer := AnswerOf(Step(Run(r, ms), m).1);
            answer == if m.Unrelated? then NotOurs else Tell(r.maxBytes, StoryAfter(r.maxBytes, ms, m.id), m).1
  {
    if !m.Unrelated? {
      RunTellsStory(r, ms, m.id);
      CapIsFixed(r, ms);
      hide Run, StoryAfter, Tells, Tell, AnswerOf;
      OwnMessageTold(Run(r, ms), m.id, StoryAfter(r.maxBytes, ms, m.id), m);
    }
  }
}
