/**
  The input task of a session: one loop that takes every received message
  through the permission gates to the injector, the clipboard, the file
  transfer receiver, the bitrate channel and the IDR flag.
 */
module InputTask {
  import opened Prelude
  import opened HostTypes
  import FileTransfer

  const MIN_BPS := 1_000_000
  const U32_MAX := 0xFFFF_FFFF

  type u32 = x: int | 0 <= x <= U32_MAX

  /** An input event, as the bytes it came in. */
  type InputEvent = seq<byte>

  /** `Transfer(Unrelated)` stands for every control message without an arm of its own. */
  datatype Control =
    | KeepAlive
    | ClipboardText(text: string)
    | Transfer(message: FileTransfer.Message)
    | Bye
    | LatencyReport
    | RequestIdr
    | SetBitrate(bps: u32)

  /** What one turn of the loop gets: a message, another kind of packet, a receive error, or the cancellation. */
  datatype Received =
    | Input(event: InputEvent)
    | Message(control: Control)
    | OtherReceived
    | Failed
    | Cancelled

  datatype Status = Running | Stopped | Panicked

  /** `rates` is all that was sent into the bitrate channel. */
  datatype Task = Task(injected: seq<InputEvent>, clipboard: seq<string>, lastRemote: Option<string>,
                       receiver: FileTransfer.Receiver, rates: seq<u32>, forceIdr: bool,
                       keepAlives: nat, status: Status)

  predicate ChannelAllowed(perms: Permissions, m: Control) {
    match m
    case ClipboardText(_) => perms.clipboard
    case Transfer(message) => message.Unrelated? || perms.fileTransfer
    case _ => true
  }

  predicate Allowed(perms: Permissions, r: Received) {
    match r
    case Input(_) => perms.input
    case Message(m) => ChannelAllowed(perms, m)
    case _ => true
  }

  /** The multiplication saturates at the width of the integer. */
  function HostMax(mbps: u32): u32 {
    if mbps * 1_000_000 > U32_MAX then U32_MAX else mbps * 1_000_000
  }

  /** Clamping between bounds that are the wrong way round is a panic. */
  function Clamp(bps: u32, mbps: u32): (c: Option<u32>)
    ensures c == None <==> mbps == 0
    ensures c.Some? ==>
              var top := if mbps * 1_000_000 < 0x1_0000_0000 then mbps * 1_000_000 else 0xFFFF_FFFF;
              c.value == if bps < 1_000_000 then 1_000_000 else if bps > top then top else bps
  {
    if MIN_BPS > HostMax(mbps) then None
    else Some(if bps < MIN_BPS then MIN_BPS else if bps > HostMax(mbps) then HostMax(mbps) else bps)
  }

  function ControlStep(perms: Permissions, mbps: u32, t: Task, m: Control): Task {
    if m.KeepAlive? then t.(keepAlives := t.keepAlives + 1)
    else if !ChannelAllowed(perms, m) then t
    else
      match m
      case ClipboardText(text) => t.(clipboard := t.clipboard + [text], lastRemote := Some(text))
      case Bye => t.(status := Stopped)
      case LatencyReport => t
      case RequestIdr => t.(forceIdr := true)
      case SetBitrate(bps) =>
        (match Clamp(bps, mbps)
         case Some(c) => t.(rates := t.rates + [c])
         case None => t.(status := Panicked))
      case Transfer(message) => t.(receiver := FileTransfer.Step(t.receiver, message).0)
      case KeepAlive => t
  }

  /** One turn of the loop; once it has ended nothing more is taken. */
  function TaskStep(perms: Permissions, mbps: u32, t: Task, r: Received): Task {
    if !t.status.Running? then t
    else
      match r
      case Input(event) => if perms.input then t.(injected := t.injected + [event]) else t
      case Message(m) => ControlStep(perms, mbps, t, m)
      case OtherReceived => t
      case Failed => t.(status := Stopped)
      case Cancelled => t.(status := Stopped)
  }

  function Run(perms: Permissions, mbps: u32, t: Task, rs: seq<Received>): Task {
    if rs == [] then t else TaskStep(perms, mbps, Run(perms, mbps, t, rs[..|rs| - 1]), rs[|rs| - 1])
  }

  class InputLoop {
    const perms: Permissions
    const mbps: u32
    const receiver: FileTransfer.TransferReceiver
    var injected: seq<InputEvent>
    var clipboard: seq<string>
    var lastRemote: Option<string>
    var rates: seq<u32>
    var forceIdr: bool
    var keepAlives: nat
    var status: Status

    ghost function Snapshot(): Task
      reads this, receiver
    {
      Task(injected, clipboard, lastRemote, receiver.State(), rates, forceIdr, keepAlives, status)
    }

    constructor (perms: Permissions, mbps: u32, receiver: FileTransfer.TransferReceiver)
      ensures this.perms == perms && this.mbps == mbps && this.receiver == receiver
      ensures Snapshot() == Task([], [], None, receiver.State(), [], false, 0, Running)
    {
      this.perms := perms;
      this.mbps := mbps;
      this.receiver := receiver;
      injected, clipboard, lastRemote := [], [], None;
      rates, forceIdr, keepAlives, status := [], false, 0, Running;
    }

    method HandleInputEvent(event: InputEvent) returns (dispatched: bool)
      modifies this`injected
      ensures dispatched == perms.input
      ensures injected == if perms.input then old(injected) + [event] else old(injected)
    {
      if !perms.input {
        return false;
      }
      injected := injected + [event];
      return true;
    }

    method HandleControl(m: Control)
      modifies this, receiver
      ensures Snapshot() == ControlStep(perms, mbps, old(Snapshot()), m)
    {
      if m.KeepAlive? {
        keepAlives := keepAlives + 1;
        return;
      }
      if !ChannelAllowed(perms, m) {
        return;
      }
      match m {
        case ClipboardText(text) =>
          lastRemote := Some(text);
          clipboard := clipboard + [text];
        case Bye => status := Stopped;
        case LatencyReport =>
        case RequestIdr => forceIdr := true;
        case SetBitrate(bps) =>
          var clamped := Clamp(bps, mbps);
          if clamped.None? {
            status := Panicked;
          } else {
            rates := rates + [clamped.value];
          }
        case Transfer(message) =>
          var _ := receiver.Handle(message);
        case KeepAlive =>
      }
    }

    /** The loop; it ends at the end of the stream at the latest. */
    method Serve(rs: seq<Received>)
      modifies this, receiver
      ensures Snapshot() == Run(perms, mbps, old(Snapshot()), rs)
    {
      ghost var start := Snapshot();
      var i := 0;
      assert rs[..0] == [];
      while i < |rs| && status.Running?
        invariant 0 <= i <= |rs|
        invariant Snapshot() == Run(perms, mbps, start, rs[..i])
      {
        RunOneMore(perms, mbps, start, rs, i);
        match rs[i] {
          case Input(event) => var _ := HandleInputEvent(event);
          case Message(m) => HandleControl(m);
          case OtherReceived =>
          case Failed => status := Stopped;
          case Cancelled => status := Stopped;
        }
        i := i + 1;
      }
      RunEnded(perms, mbps, start, rs, i);
    }
  }

  lemma RunOneMore(perms: Permissions, mbps: u32, t: Task, rs: seq<Received>, i: nat)
    requires i < |rs|
    ensures Run(perms, mbps, t, rs[..i + 1]) == TaskStep(perms, mbps, Run(perms, mbps, t, rs[..i]), rs[i])
  {
    hide TaskStep;
    assert rs[..i + 1][..i] == rs[..i];
  }

  lemma {:induction false} RunEnded(perms: Permissions, mbps: u32, t: Task, rs: seq<Received>, i: nat)
    requires i <= |rs| && (i < |rs| ==> !Run(perms, mbps, t, rs[..i]).status.Running?)
    ensures Run(perms, mbps, t, rs) == Run(perms, mbps, t, rs[..i])
    decreases |rs| - i
  {
    if i < |rs| {
      RunOneMore(perms, mbps, t, rs, i);
      RunEnded(perms, mbps, t, rs, i + 1);
    } else {
      assert rs[..i] == rs;
    }
  }

  // ---------------------------------------------------------------------
  // Permission filtering
  // ---------------------------------------------------------------------

  function AllowedOnly(perms: Permissions, rs: seq<Received>): seq<Received> {
    if rs == [] then []
    else AllowedOnly(perms, rs[..|rs| - 1]) + (if Allowed(perms, rs[|rs| - 1]) then [rs[|rs| - 1]] else [])
  }

  lemma DeniedIsIgnored(perms: Permissions, mbps: u32, t: Task, r: Received)
    ensures TaskStep(perms, mbps, t, r) == if Allowed(perms, r) then TaskStep(ALL, mbps, t, r) else t
  {
    hide FileTransfer.Step, Clamp;
  }

  /**
    A session under any permissions is in everything it does the fully
    permitted session fed only the allowed messages, and ends where that one ends.
   */
  lemma {:induction false} PermissionFiltering(perms: Permissions, mbps: u32, t: Task, rs: seq<Received>)
    ensures Run(perms, mbps, t, rs) == Run(ALL, mbps, t, AllowedOnly(perms, rs))
  {
    if rs != [] {
      var pre, r := rs[..|rs| - 1], rs[|rs| - 1];
      var allowed := AllowedOnly(perms, pre);
      PermissionFiltering(perms, mbps, t, pre);
      DeniedIsIgnored(perms, mbps, Run(perms, mbps, t, pre), r);
      hide TaskStep, Allowed;
      if Allowed(perms, r) {
        assert (allowed + [r])[..|allowed|] == allowed;
      } else {
        assert allowed + [] == allowed;
      }
    }
  }

  // ---------------------------------------------------------------------
  // Each channel by itself
  // ---------------------------------------------------------------------

  predicate Ends(mbps: u32, r: Received) {
    r == Message(Bye) || r.Failed? || r.Cancelled? || (mbps == 0 && r.Message? && r.control.SetBitrate?)
  }

  /** The messages before the one that ends the loop. */
  function BeforeEnd(mbps: u32, rs: seq<Received>): seq<Received> {
    if rs == [] then []
    else
      var before := BeforeEnd(mbps, rs[..|rs| - 1]);
      if |before| == |rs| - 1 && !Ends(mbps, rs[|rs| - 1]) then rs else before
  }

  /** What messages carry, sorted by the channel it is for. */
  datatype Traffic = Traffic(inputs: seq<InputEvent>, texts: seq<string>, transfers: seq<FileTransfer.Message>,
                             rates: seq<u32>, idr: bool, keepAlives: nat)

  function TrafficOf(mbps: u32, r: Received): Traffic {
    match r
    case Input(event) => Traffic([event], [], [], [], false, 0)
    case Message(ClipboardText(text)) => Traffic([], [text], [], [], false, 0)
    case Message(Transfer(message)) => Traffic([], [], [message], [], false, 0)
    case Message(SetBitrate(bps)) =>
      Traffic([], [], [], match Clamp(bps, mbps) case Some(c) => [c] case None => [], false, 0)
    case Message(KeepAlive) => Traffic([], [], [], [], false, 1)
    case _ => Traffic([], [], [], [], r == Message(RequestIdr), 0)
  }

  function Join(a: Traffic, b: Traffic): Traffic {
    Traffic(a.inputs + b.inputs, a.texts + b.texts, a.transfers + b.transfers, a.rates + b.rates,
            a.idr || b.idr, a.keepAlives + b.keepAlives)
  }

  function Sorted(mbps: u32, rs: seq<Received>): Traffic {
    if rs == [] then Traffic([], [], [], [], false, 0)
    else Join(Sorted(mbps, rs[..|rs| - 1]), TrafficOf(mbps, rs[|rs| - 1]))
  }

  /** What each channel must hold after the given traffic. */
  ghost predicate ChannelsHold(perms: Permissions, t: Task, after: Task, c: Traffic) {
    && after.injected == t.injected + (if perms.input then c.inputs else [])
    && after.clipboard == t.clipboard + (if perms.clipboard then c.texts else [])
    && after.lastRemote == (if perms.clipboard && c.texts != [] then Some(c.texts[|c.texts| - 1]) else t.lastRemote)
    && after.receiver == (if perms.fileTransfer then FileTransfer.Run(t.receiver, c.transfers) else t.receiver)
    && after.rates == t.rates + c.rates
    && after.forceIdr == (t.forceIdr || c.idr)
    && after.keepAlives == t.keepAlives + c.keepAlives
  }

  lemma ReceiverStep(r: FileTransfer.Receiver, ms: seq<FileTransfer.Message>, m: FileTransfer.Message)
    ensures FileTransfer.Run(r, ms + [m]) == FileTransfer.Step(FileTransfer.Run(r, ms), m).0
  {
    hide FileTransfer.Step;
    assert (ms + [m])[..|ms|] == ms;
  }

  lemma NothingAdded<T>(s: seq<T>)
    ensures s + [] == s
  {
  }

  lemma ReceiverStarts(r: FileTransfer.Receiver, m: FileTransfer.Message)
    ensures FileTransfer.Run(r, []) == r && FileTransfer.Run(r, [m]) == FileTransfer.Step(r, m).0
    ensures m.Unrelated? ==> FileTransfer.Step(r, m).0 == r
  {
    ReceiverStep(r, [], m);
    assert [] + [m] == [m];
  }

  /** What a message that does not end the loop does to the channels. */
  lemma LiveEffect(perms: Permissions, mbps: u32, t: Task, r: Received)
    requires t.status.Running? && !Ends(mbps, r)
    ensures ChannelsHold(perms, t, TaskStep(perms, mbps, t, r), TrafficOf(mbps, r))
    ensures TaskStep(perms, mbps, t, r).status.Running?
  {
    hide FileTransfer.Step, FileTransfer.Run, Clamp;
    NothingAdded(t.injected);
    NothingAdded(t.clipboard);
    NothingAdded(t.rates);
    ReceiverStarts(t.receiver, if r.Message? && r.control.Transfer? then r.control.message else FileTransfer.Unrelated);
  }

  lemma ReceiverRuns(r: FileTransfer.Receiver, ms: seq<FileTransfer.Message>, more: seq<FileTransfer.Message>)
    requires |more| <= 1
    ensures FileTransfer.Run(r, ms + more) == FileTransfer.Run(FileTransfer.Run(r, ms), more)
  {
    if more == [] {
      assert ms + more == ms;
    } else {
      ReceiverStep(r, ms, more[0]);
      ReceiverStep(FileTransfer.Run(r, ms), [], more[0]);
      assert more == [more[0]] == [] + [more[0]];
    }
  }

  /** The effects of consecutive messages add up. */
  lemma ChannelsCompose(perms: Permissions, t: Task, now: Task, after: Task, c: Traffic, d: Traffic)
    requires |d.transfers| <= 1
    requires ChannelsHold(perms, t, now, c) && ChannelsHold(perms, now, after, d)
    ensures ChannelsHold(perms, t, after, Join(c, d))
  {
    ReceiverRuns(t.receiver, c.transfers, d.transfers);
    hide FileTransfer.Run;
    Assoc(t.injected, c.inputs, d.inputs);
    Assoc(t.clipboard, c.texts, d.texts);
    Assoc(t.rates, c.rates, d.rates);
    NothingAdded(t.injected);
    NothingAdded(t.clipboard);
    NothingAdded(c.texts);
  }

  /** The message that ends the loop, and those after it, change no channel. */
  lemma DeadStep(perms: Permissions, mbps: u32, t: Task, r: Received)
    requires t.status.Running? ==> Ends(mbps, r)
    ensures TaskStep(perms, mbps, t, r) == t.(status := TaskStep(perms, mbps, t, r).status)
    ensures !TaskStep(perms, mbps, t, r).status.Running?
  {
  }

  lemma OneMoreReceived(perms: Permissions, mbps: u32, t: Task, rs: seq<Received>, r: Received)
    ensures Run(perms, mbps, t, rs + [r]) == TaskStep(perms, mbps, Run(perms, mbps, t, rs), r)
    ensures Sorted(mbps, rs + [r]) == Join(Sorted(mbps, rs), TrafficOf(mbps, r))
    ensures BeforeEnd(mbps, rs + [r])
         == if BeforeEnd(mbps, rs) == rs && !Ends(mbps, r) then rs + [r] else BeforeEnd(mbps, rs)
  {
    hide TaskStep, Join, TrafficOf, Ends;
    assert (rs + [r])[..|rs|] == rs;
    BeforeEndIsPrefix(mbps, rs);
  }

  lemma {:induction false} BeforeEndIsPrefix(mbps: u32, rs: seq<Received>)
    ensures BeforeEnd(mbps, rs) <= rs
  {
    hide Ends;
    if rs != [] {
      BeforeEndIsPrefix(mbps, rs[..|rs| - 1]);
    }
  }

  lemma NothingHeld(perms: Permissions, mbps: u32, t: Task)
    ensures Run(perms, mbps, t, []) == t && BeforeEnd(mbps, []) == []
    ensures ChannelsHold(perms, t, t, Sorted(mbps, []))
  {
    NothingAdded(t.injected);
    NothingAdded(t.clipboard);
    NothingAdded(t.rates);
  }

  lemma KeepsHolding(perms: Permissions, t: Task, now: Task, c: Traffic, status: Status)
    requires ChannelsHold(perms, t, now, c)
    ensures ChannelsHold(perms, t, now.(status := status), c)
  {
  }

  /**
    No message crosses into a channel that is not its own, none of a permitted
    channel is lost or reordered before the loop ends, and none acts after that.
   */
  lemma {:induction false} ChannelsExactly(perms: Permissions, mbps: u32, t: Task, rs: seq<Received>)
    requires t.status.Running?
    ensures ChannelsHold(perms, t, Run(perms, mbps, t, rs), Sorted(mbps, BeforeEnd(mbps, rs)))
    ensures Run(perms, mbps, t, rs).status.Running? <==> BeforeEnd(mbps, rs) == rs
    ensures BeforeEnd(mbps, rs) <= rs
  {
    hide Run, TaskStep, FileTransfer.Run, Ends, Join, ChannelsHold, Sorted, BeforeEnd, TrafficOf;
    BeforeEndIsPrefix(mbps, rs);
    if rs == [] {
      NothingHeld(perms, mbps, t);
    } else {
      var pre, r := rs[..|rs| - 1], rs[|rs| - 1];
      var now := Run(perms, mbps, t, pre);
      var after := TaskStep(perms, mbps, now, r);
      ChannelsExactly(perms, mbps, t, pre);
      assert pre + [r] == rs;
      OneMoreReceived(perms, mbps, t, pre, r);
      if now.status.Running? && !Ends(mbps, r) {
        LiveEffect(perms, mbps, now, r);
        FewTransfers(mbps, r);
        ChannelsCompose(perms, t, now, after, Sorted(mbps, pre), TrafficOf(mbps, r));
      } else {
        DeadStep(perms, mbps, now, r);
        KeepsHolding(perms, t, now, Sorted(mbps, BeforeEnd(mbps, pre)), after.status);
        BeforeEndIsPrefix(mbps, pre);
      }
    }
  }

  lemma FewTransfers(mbps: u32, r: Received)
    ensures |TrafficOf(mbps, r).transfers| <= 1
  {
  }

  predicate Panics(perms: Permissions, mbps: u32, t: Task, rs: seq<Received>) {
    Run(perms, mbps, t, rs).status.Panicked?
  }

  /** The task can panic exactly when the configured bitrate is zero. */
  lemma PanicsExactly(perms: Permissions, mbps: u32, t: Task)
    requires t.status.Running?
    ensures (exists rs :: Panics(perms, mbps, t, rs)) <==> mbps == 0
  {
    if mbps == 0 {
      var rs := [Message(SetBitrate(0))];
      assert rs[..0] == [];
      assert Panics(perms, mbps, t, rs);
    } else {
      forall rs ensures !Panics(perms, mbps, t, rs) {
        NeverPanics(perms, mbps, t, rs);
      }
    }
  }

  lemma NoPanicStep(perms: Permissions, mbps: u32, t: Task, r: Received)
    requires mbps != 0 && !t.status.Panicked?
    ensures !TaskStep(perms, mbps, t, r).status.Panicked?
  {
    hide FileTransfer.Step;
  }

  lemma {:induction false} NeverPanics(perms: Permissions, mbps: u32, t: Task, rs: seq<Received>)
    requires mbps != 0 && !t.status.Panicked?
    ensures !Run(perms, mbps, t, rs).status.Panicked?
  {
    if rs != [] {
      NeverPanics(perms, mbps, t, rs[..|rs| - 1]);
      NoPanicStep(perms, mbps, Run(perms, mbps, t, rs[..|rs| - 1]), rs[|rs| - 1]);
      hide TaskStep;
    }
  }
}
