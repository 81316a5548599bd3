/** The interrupt-driven pulse player and serial link of the STM8 board, as atomic steps: a
    button press, a timer overflow, a byte to send, a byte received.  Stored pulse data are
    the number of pulses, then three bytes a pulse: two of duration, one of level. */
module DriverMachine {
  import opened Words

  const RX_BUFFER_SIZE: nat := 20
  const START_BYTE: nat := 0xAA

  const GET_PULSE_DATA: nat := 5
  const TRANSMIT_PULSE_DATA: nat := 7

  const EC_OK: nat := 0
  const EC_UNKNOWN_COMMAND: nat := 1
  const EC_RX_BUFFER_OVERFLOW: nat := 2

  // ---- the pulse player ---------------------------------------------------------------------------

  datatype Pulse = Pulse(hi: u8, lo: u8, level: u8)

  /** What the player does to the outside: reload the timer for a pulse, or stop. */
  datatype Play = Reload(p: Pulse) | Stop

  datatype Player = Player(current: nat, address: nat, running: bool, timer: bool, pin: u8, plays: seq<Play>)

  /** A byte of the stored data; beyond it, whatever the memory holds, here 0. */
  function Stored(data: seq<u8>, i: nat): u8 {
    if i < |data| then data[i] else 0
  }

  function PulseAt(data: seq<u8>, address: nat): Pulse {
    Pulse(Stored(data, address), Stored(data, address + 1), Stored(data, address + 2))
  }

  function Count(data: seq<u8>): nat {
    Stored(data, 0)
  }

  /** Reads the pulse at the data pointer and moves the pointer on. */
  function Load(data: seq<u8>, p: Player): Player {
    var pulse := PulseAt(data, p.address);
    p.(address := p.address + 3, pin := pulse.level, plays := p.plays + [Reload(pulse)])
  }

  function Transmit(data: seq<u8>, p: Player): Player {
    Load(data, p.(current := 0, address := 1, running := true, timer := true))
  }

  function Button(data: seq<u8>, p: Player): Player {
    if p.running then p else Transmit(data, p)
  }

  /** A timer overflow; the timer only runs while a transmission does.  The counter of pulses
      has sixteen bits. */
  function Tick(data: seq<u8>, p: Player): Player {
    if !p.timer then p else
      var next := (p.current + 1) % WORD;
      if next == Count(data) then
        p.(current := next, running := false, timer := false, pin := 0, plays := p.plays + [Stop])
      else Load(data, p.(current := next))
  }

  /** While running, the pointer is just behind the current pulse, and that pulse exists. */
  predicate PlayerOk(data: seq<u8>, p: Player) {
    && p.timer == p.running
    && (p.running ==> p.address == 1 + 3 * (p.current + 1) && p.current < Count(data))
    && (!p.running ==> p.pin == 0)
  }

  lemma PlayerStepsKeepOk(data: seq<u8>, p: Player)
    requires Count(data) > 0 && PlayerOk(data, p)
    ensures PlayerOk(data, Transmit(data, p)) && PlayerOk(data, Button(data, p)) && PlayerOk(data, Tick(data, p))
  {
  }

  // ---- the receiver -------------------------------------------------------------------------------

  /** buffer[..count] is what has arrived of a frame; at is the write pointer. */
  datatype Receiver = Receiver(receiving: bool, buffer: seq<u8>, at: nat, count: nat)

  datatype Outcome = Nothing | Dispatch(frame: seq<u8>) | Overflow

  predicate ReceiverOk(r: Receiver) {
    |r.buffer| == RX_BUFFER_SIZE && r.at == r.count <= RX_BUFFER_SIZE - 1
  }

  function Receive(r: Receiver, b: u8): (Receiver, Outcome)
    requires ReceiverOk(r)
  {
    if !r.receiving && b == START_BYTE then (r.(receiving := true, at := 0, count := 0), Nothing)
    else if !r.receiving then (r, Nothing)
    else if r.count < RX_BUFFER_SIZE - 1 then
      var s := r.(buffer := r.buffer[r.at := b], at := r.at + 1, count := r.count + 1);
      if s.count > 1 && s.buffer[0] as int - 1 == s.count
      then (s.(receiving := false), Dispatch(s.buffer[..s.count]))
      else (s, Nothing)
    else (r.(receiving := false), Overflow)
  }

  lemma ReceiveKeepsOk(r: Receiver, b: u8)
    requires ReceiverOk(r)
    ensures ReceiverOk(Receive(r, b).0)
  {
  }

  /** The receiver and the outcomes after a stream of bytes. */
  function Listen(r: Receiver, bytes: seq<u8>): (res: (Receiver, seq<Outcome>))
    requires ReceiverOk(r)
    ensures ReceiverOk(res.0)
  {
    if bytes == [] then (r, []) else
      var (s, os) := Listen(r, bytes[..|bytes| - 1]);
      var (t, o) := Receive(s, bytes[|bytes| - 1]);
      ReceiveKeepsOk(s, bytes[|bytes| - 1]);
      (t, if o.Nothing? then os else os + [o])
  }

  lemma ListenNext(r: Receiver, bytes: seq<u8>, b: u8)
    requires ReceiverOk(r)
    ensures var (s, os) := Listen(r, bytes);
      var (t, o) := Receive(s, b);
      Listen(r, bytes + [b]) == (t, if o.Nothing? then os else os + [o])
  {
    hide Receive, ReceiverOk;
    assert (bytes + [b])[..|bytes|] == bytes;
  }

  lemma {:induction false} ListenAppend(r: Receiver, a: seq<u8>, b: seq<u8>)
    requires ReceiverOk(r)
    ensures Listen(r, a + b).0 == Listen(Listen(r, a).0, b).0
    ensures Listen(r, a + b).1 == Listen(r, a).1 + Listen(Listen(r, a).0, b).1
  {
    hide Receive, ReceiverOk;
    if b == [] {
      assert a + b == a;
    } else {
      var init, last := b[..|b| - 1], b[|b| - 1];
      var s := Listen(r, a).0;
      ListenAppend(r, a, init);
      assert a + b == (a + init) + [last] && b == init + [last];
      hide Listen;
      ListenNext(r, a + init, last);
      ListenNext(s, init, last);
    }
  }

  predicate ValidLength(len: nat) {
    3 <= len <= RX_BUFFER_SIZE
  }

  /** The bytes of a frame so far are in the buffer. */
  predicate Holding(r: Receiver, bytes: seq<u8>) {
    ReceiverOk(r) && r.receiving && r.count == |bytes| && r.buffer[..r.count] == bytes
  }

  predicate Complete(bytes: seq<u8>) {
    |bytes| > 0 && ValidLength(bytes[0]) && |bytes| == bytes[0] - 1
  }

  lemma NextFrameByte(r: Receiver, bytes: seq<u8>, b: u8)
    requires Holding(r, bytes) && |bytes| < RX_BUFFER_SIZE
    requires |bytes| > 0 && ValidLength(bytes[0]) ==> |bytes| < bytes[0] - 1
    ensures var (s, o) := Receive(r, b);
      if Complete(bytes + [b]) then !s.receiving && o == Dispatch(bytes + [b])
      else if |bytes| + 1 == RX_BUFFER_SIZE then !s.receiving && o == Overflow
      else Holding(s, bytes + [b]) && o == Nothing
  {
    if |bytes| < RX_BUFFER_SIZE - 1 {
      var u := r.buffer[r.at := b];
      assert u[..|bytes| + 1] == bytes + [b];
      assert u[0] == (bytes + [b])[0];
    }
  }

  lemma FrameStarts(r: Receiver)
    requires ReceiverOk(r) && !r.receiving
    ensures var (s, os) := Listen(r, [START_BYTE] + []);
      Holding(s, []) && os == []
  {
    ListenNext(r, [], START_BYTE);
    NothingHeard(r);
    assert [START_BYTE] + [] == [] + [START_BYTE];
  }

  /** What the receiver has after a start byte and the bytes of a frame so far: the frame is
      complete one byte before its announced length, if that length is valid; otherwise the
      buffer overflows at the twentieth byte. */
  lemma {:induction false} FrameProgress(r: Receiver, bytes: seq<u8>)
    requires ReceiverOk(r) && !r.receiving && |bytes| <= RX_BUFFER_SIZE
    requires |bytes| > 0 && ValidLength(bytes[0]) ==> |bytes| <= bytes[0] - 1
    ensures var (s, os) := Listen(r, [START_BYTE] + bytes);
      if Complete(bytes) then !s.receiving && os == [Dispatch(bytes)]
      else if |bytes| == RX_BUFFER_SIZE then !s.receiving && os == [Overflow]
      else Holding(s, bytes) && os == []
  {
    hide Listen, Receive, Holding;
    if bytes == [] {
      FrameStarts(r);
    } else {
      var init, b := bytes[..|bytes| - 1], bytes[|bytes| - 1];
      FrameProgress(r, init);
      assert [START_BYTE] + bytes == ([START_BYTE] + init) + [b] && bytes == init + [b];
      ListenNext(r, [START_BYTE] + init, b);
      NextFrameByte(Listen(r, [START_BYTE] + init).0, init, b);
    }
  }

  // ---- streams of frames -----------------------------------------------------------------------

  /** A frame on the wire: start byte, length, the body the length announces. */
  datatype Frame = Frame(body: seq<u8>)

  predicate ValidFrame(f: Frame) {
    ValidLength(|f.body| + 2)
  }

  function Content(f: Frame): seq<u8>
    requires ValidFrame(f)
  {
    [(|f.body| + 2) as u8] + f.body
  }

  function Wire(frames: seq<Frame>): seq<u8>
    requires forall i :: 0 <= i < |frames| ==> ValidFrame(frames[i])
  {
    if frames == [] then [] else Wire(frames[..|frames| - 1]) + ([START_BYTE] + Content(frames[|frames| - 1]))
  }

  function Dispatches(frames: seq<Frame>): seq<Outcome>
    requires forall i :: 0 <= i < |frames| ==> ValidFrame(frames[i])
  {
    seq(|frames|, i requires 0 <= i < |frames| => Dispatch(Content(frames[i])))
  }

  /** A stream of frames is dispatched frame by frame, each exactly once and with its own
      content, whatever the bodies hold (start bytes included). */
  lemma {:induction false} FramesDispatchedOnce(r: Receiver, frames: seq<Frame>)
    requires ReceiverOk(r) && !r.receiving
    requires forall i :: 0 <= i < |frames| ==> ValidFrame(frames[i])
    ensures !Listen(r, Wire(frames)).0.receiving
    ensures Listen(r, Wire(frames)).1 == Dispatches(frames)
  {
    hide Receive, ReceiverOk, Listen, Content, Complete;
    if frames == [] {
      NothingHeard(r);
    } else {
      var init, f := frames[..|frames| - 1], frames[|frames| - 1];
      FramesDispatchedOnce(r, init);
      var s := Listen(r, Wire(init)).0;
      ListenAppend(r, Wire(init), [START_BYTE] + Content(f));
      ContentComplete(f);
      FrameProgress(s, Content(f));
      assert Dispatches(frames) == Dispatches(init) + [Dispatch(Content(f))];
    }
  }

  lemma ContentComplete(f: Frame)
    requires ValidFrame(f)
    ensures Complete(Content(f)) && |Content(f)| <= RX_BUFFER_SIZE
  {
  }

  lemma NothingHeard(r: Receiver)
    requires ReceiverOk(r)
    ensures Listen(r, []) == (r, [])
  {
  }

  /** The receiver never stays in a frame for more than twenty bytes: some prefix of any
      twenty bytes ends it. */
  lemma {:induction false} LeavesFrameInTime(r: Receiver, bytes: seq<u8>)
    requires ReceiverOk(r) && r.receiving && |bytes| == RX_BUFFER_SIZE - r.count
    ensures exists k :: 0 < k <= |bytes| && !Listen(r, bytes[..k]).0.receiving
    decreases |bytes|
  {
    hide Listen;
    var (s, o) := Receive(r, bytes[0]);
    ListenNext(r, [], bytes[0]);
    NothingHeard(r);
    assert bytes[..1] == [] + [bytes[0]];
    if s.receiving {
      LeavesFrameInTime(s, bytes[1..]);
      var k :| 0 < k <= |bytes[1..]| && !Listen(s, bytes[1..][..k]).0.receiving;
      ListenAppend(r, bytes[..1], bytes[1..][..k]);
      assert bytes[..k + 1] == bytes[..1] + bytes[1..][..k];
    }
  }

  // ---- the sender ---------------------------------------------------------------------------------

  /** What is being sent: one code, or the stored pulse data. */
  datatype Source = Code(code: u8) | Data

  /** data bytes [0, length) of the source are sent one a transmit interrupt. */
  datatype Sender = Sender(source: Source, count: nat, length: nat, enabled: bool, sent: seq<u8>)

  function SourceByte(data: seq<u8>, source: Source, i: nat): u8 {
    match source
    case Code(c) => c
    case Data => Stored(data, i)
  }

  /** Starts a response: the length, cut to a byte, plus one goes out at once. */
  function Respond(s: Sender, source: Source, length: nat): Sender {
    var n := length % 0x100;
    Sender(source, 0, n, true, s.sent + [(n + 1) % 0x100])
  }

  function SendNext(data: seq<u8>, s: Sender): Sender {
    if !s.enabled then s
    else if s.count < s.length then
      s.(count := s.count + 1, sent := s.sent + [SourceByte(data, s.source, s.count)])
    else s.(enabled := false)
  }

  function SendMany(data: seq<u8>, s: Sender, n: nat): Sender {
    if n == 0 then s else SendNext(data, SendMany(data, s, n - 1))
  }

  function SourceBytes(data: seq<u8>, source: Source, n: nat): seq<u8> {
    seq(n, i requires 0 <= i < n => SourceByte(data, source, i))
  }

  /** Left alone, a response sends its length and its bytes, in order, and then stops. */
  lemma {:induction false} ResponseRuns(data: seq<u8>, s: Sender, source: Source, length: nat, n: nat)
    requires length < 0x100 && n <= length
    ensures var t := SendMany(data, Respond(s, source, length), n);
      && t.enabled && t.count == n && t.length == length && t.source == source
      && t.sent == s.sent + [(length + 1) % 0x100] + SourceBytes(data, source, n)
      && (n == length ==> !SendNext(data, t).enabled && SendNext(data, t).sent == t.sent)
    decreases n
  {
    hide SourceByte;
    if n > 0 {
      ResponseRuns(data, s, source, length, n - 1);
      assert SourceBytes(data, source, n) == SourceBytes(data, source, n - 1) + [SourceByte(data, source, n - 1)];
    }
  }

  // ---- playing back ---------------------------------------------------------------------------------

  datatype PlayEvent = PressButton | TimerOverflow

  function PlayStep(data: seq<u8>, p: Player, e: PlayEvent): Player {
    if e.PressButton? then Button(data, p) else Tick(data, p)
  }

  function PlayAll(data: seq<u8>, p: Player, es: seq<PlayEvent>): Player {
    if es == [] then p else PlayStep(data, PlayAll(data, p, es[..|es| - 1]), es[|es| - 1])
  }

  function Ticks(es: seq<PlayEvent>): nat {
    if es == [] then 0 else Ticks(es[..|es| - 1]) + (if es[|es| - 1].TimerOverflow? then 1 else 0)
  }

  /** The first k stored pulses, as reloads. */
  function Pulses(data: seq<u8>, k: nat): seq<Play> {
    seq(k, i requires 0 <= i < k => Reload(PulseAt(data, 1 + 3 * i)))
  }

  /** A transmission plays the stored pulses in order, one a timer overflow, button presses
      or not. */
  lemma {:induction false} PlaysStoredPulses(data: seq<u8>, p: Player, es: seq<PlayEvent>)
    requires Ticks(es) < Count(data)
    ensures var q := PlayAll(data, Transmit(data, p), es);
      && q.running && q.timer && q.current == Ticks(es) && q.address == 1 + 3 * (Ticks(es) + 1)
      && q.plays == p.plays + Pulses(data, Ticks(es) + 1)
  {
    hide PulseAt, Stored;
    if es != [] {
      var init := es[..|es| - 1];
      PlaysStoredPulses(data, p, init);
      var k := Ticks(init);
      assert Pulses(data, k + 2) == Pulses(data, k + 1) + [Reload(PulseAt(data, 1 + 3 * (k + 1)))];
    }
  }

  /** The overflow after the last pulse stops the transmission, output low: by then every
      stored pulse has been played once, in order. */
  lemma StopsAfterLastPulse(data: seq<u8>, p: Player, es: seq<PlayEvent>)
    requires Ticks(es) + 1 == Count(data)
    ensures var q := Tick(data, PlayAll(data, Transmit(data, p), es));
      && !q.running && !q.timer && q.pin == 0
      && q.plays == p.plays + Pulses(data, Count(data)) + [Stop]
  {
    hide PlayAll, Transmit, Pulses, Ticks;
    PlaysStoredPulses(data, p, es);
  }

  /** With no pulse stored a transmission plays whatever lies behind the table; the overflow
      that ends it is the one that wraps the counter, and no other. */
  lemma {:induction false} EmptyTableStopsIffCounterWraps(data: seq<u8>, p: Player, es: seq<PlayEvent>)
    requires Count(data) == 0 && Ticks(es) < WORD
    ensures var q := PlayAll(data, Transmit(data, p), es);
      && q.running && q.timer && q.current == Ticks(es)
      && (!Tick(data, q).running <==> Ticks(es) + 1 == WORD)
  {
    hide PulseAt, Stored;
    if es != [] {
      EmptyTableStopsIffCounterWraps(data, p, es[..|es| - 1]);
    }
  }

  // ---- the whole driver -------------------------------------------------------------------------------

  datatype Machine = Machine(player: Player, receiver: Receiver, sender: Sender, outcomes: seq<Outcome>)

  datatype Event = ButtonPressed | TimerOverflowed | TransmitReady | ByteReceived(b: u8)

  /** What a complete frame asks for. */
  function Process(data: seq<u8>, m: Machine, command: u8): Machine {
    if command == GET_PULSE_DATA then m.(sender := Respond(m.sender, Data, 3 * Count(data) + 1))
    else if command == TRANSMIT_PULSE_DATA then
      m.(player := Transmit(data, m.player), sender := Respond(m.sender, Code(EC_OK), 1))
    else if 1 <= command <= 6 then m
    else m.(sender := Respond(m.sender, Code(EC_UNKNOWN_COMMAND), 1))
  }

  function Next(data: seq<u8>, m: Machine, e: Event): (next: Machine)
    requires ReceiverOk(m.receiver)
    ensures ReceiverOk(next.receiver)
  {
    match e
    case ButtonPressed => m.(player := Button(data, m.player))
    case TimerOverflowed => m.(player := Tick(data, m.player))
    case TransmitReady => m.(sender := SendNext(data, m.sender))
    case ByteReceived(b) =>
      var (r, o) := Receive(m.receiver, b);
      var n := m.(receiver := r, outcomes := if o.Nothing? then m.outcomes else m.outcomes + [o]);
      match o
      case Nothing => n
      case Dispatch(f) => if |f| > 1 then Process(data, n, f[1]) else n
      case Overflow => n.(sender := Respond(n.sender, Code(EC_RX_BUFFER_OVERFLOW), 1))
  }

  /** The four things a received byte can do. */
  lemma NextOnByte(data: seq<u8>, m: Machine, b: u8)
    requires ReceiverOk(m.receiver)
    ensures var r := m.receiver;
      var s := Receiver(true, if r.at < |r.buffer| then r.buffer[r.at := b] else [], r.at + 1, r.count + 1);
      Next(data, m, ByteReceived(b)) ==
        if !r.receiving then
          if b == START_BYTE then m.(receiver := r.(receiving := true, at := 0, count := 0)) else m
        else if r.count >= RX_BUFFER_SIZE - 1 then
          m.(receiver := r.(receiving := false), outcomes := m.outcomes + [Overflow],
             sender := Respond(m.sender, Code(EC_RX_BUFFER_OVERFLOW), 1))
        else if s.count > 1 && s.buffer[0] as int - 1 == s.count then
          Process(data, m.(receiver := s.(receiving := false),
            outcomes := m.outcomes + [Dispatch(s.buffer[..s.count])]), s.buffer[1])
        else m.(receiver := s)
  {
    hide Process, Respond;
  }

  predicate MachineOk(data: seq<u8>, m: Machine) {
    PlayerOk(data, m.player) && ReceiverOk(m.receiver)
  }

  lemma NextKeepsOk(data: seq<u8>, m: Machine, e: Event)
    requires Count(data) > 0 && MachineOk(data, m)
    ensures MachineOk(data, Next(data, m, e))
  {
    hide PlayerOk, Transmit, Button, Tick, Receive, ReceiverOk;
    PlayerStepsKeepOk(data, m.player);
    if e.ByteReceived? {
      ReceiveKeepsOk(m.receiver, e.b);
    }
  }

  /** Any interleaving of interrupts. */
  function RunAll(data: seq<u8>, m: Machine, es: seq<Event>): (n: Machine)
    requires ReceiverOk(m.receiver)
    ensures ReceiverOk(n.receiver)
  {
    if es == [] then m else
      var k := RunAll(data, m, es[..|es| - 1]);
      Next(data, k, es[|es| - 1])
  }

  /** Whatever the interleaving, the data pointer stays with the current pulse and the
      receiver's write pointer with its count. */
  lemma {:induction false} EveryRunKeepsOk(data: seq<u8>, m: Machine, es: seq<Event>)
    requires Count(data) > 0 && MachineOk(data, m)
    ensures MachineOk(data, RunAll(data, m, es))
  {
    hide Next, PlayerOk, ReceiverOk;
    if es != [] {
      EveryRunKeepsOk(data, m, es[..|es| - 1]);
      NextKeepsOk(data, RunAll(data, m, es[..|es| - 1]), es[|es| - 1]);
    }
  }

  /** The bytes received in a run. */
  function BytesOf(es: seq<Event>): seq<u8> {
    if es == [] then []
    else BytesOf(es[..|es| - 1]) + (if es[|es| - 1].ByteReceived? then [es[|es| - 1].b] else [])
  }

  lemma NextOnReceiver(data: seq<u8>, m: Machine, e: Event)
    requires ReceiverOk(m.receiver)
    ensures var n := Next(data, m, e);
      if e.ByteReceived? then
        var (r, o) := Receive(m.receiver, e.b);
        n.receiver == r && n.outcomes == if o.Nothing? then m.outcomes else m.outcomes + [o]
      else n.receiver == m.receiver && n.outcomes == m.outcomes
  {
    hide Transmit, Receive, ReceiverOk;
  }

  /** Other interrupts do not disturb the receiver. */
  lemma {:induction false} ReceiverSeesBytesOnly(data: seq<u8>, m: Machine, es: seq<Event>)
    requires ReceiverOk(m.receiver)
    ensures var n := RunAll(data, m, es);
      && n.receiver == Listen(m.receiver, BytesOf(es)).0
      && n.outcomes == m.outcomes + Listen(m.receiver, BytesOf(es)).1
  {
    hide Next, ReceiverOk, Receive, Listen;
    if es == [] {
      NothingHeard(m.receiver);
    } else {
      var init, e := es[..|es| - 1], es[|es| - 1];
      ReceiverSeesBytesOnly(data, m, init);
      NextOnReceiver(data, RunAll(data, m, init), e);
      if e.ByteReceived? {
        ListenNext(m.receiver, BytesOf(init), e.b);
      } else {
        assert BytesOf(es) == BytesOf(init);
      }
    }
  }

  /** Frames arriving between any other interrupts are each dispatched once, with their content. */
  lemma FramesDispatchedUnderInterleaving(data: seq<u8>, m: Machine, es: seq<Event>, frames: seq<Frame>)
    requires ReceiverOk(m.receiver) && !m.receiver.receiving
    requires (forall i :: 0 <= i < |frames| ==> ValidFrame(frames[i])) && BytesOf(es) == Wire(frames)
    ensures RunAll(data, m, es).outcomes == m.outcomes + Dispatches(frames)
    ensures !RunAll(data, m, es).receiver.receiving
  {
    hide RunAll, Listen, BytesOf, Wire;
    ReceiverSeesBytesOnly(data, m, es);
    FramesDispatchedOnce(m.receiver, frames);
  }

  /** The response to a request for the pulse data is the whole table exactly when the table
      has at most 84 pulses: the length sent is cut to a byte. */
  lemma PulseDataResponseWholeIffSmall(data: seq<u8>, s: Sender)
    ensures var n := 3 * Count(data) + 1;
      Respond(s, Data, n).length == n <==> Count(data) <= 84
  {
  }

  /** The player's part of a run. */
  function PlayEventsOf(es: seq<Event>): seq<PlayEvent> {
    if es == [] then [] else
      PlayEventsOf(es[..|es| - 1])
      + (match es[|es| - 1]
         case ButtonPressed => [PressButton]
         case TimerOverflowed => [TimerOverflow]
         case _ => [])
  }

  predicate AsksToTransmit(o: Outcome) {
    o.Dispatch? && |o.frame| > 1 && o.frame[1] == TRANSMIT_PULSE_DATA
  }

  /** From an outcome on, none asks for a transmission. */
  predicate NoneAsks(outcomes: seq<Outcome>, from: nat) {
    forall i :: from <= i < |outcomes| ==> !AsksToTransmit(outcomes[i])
  }

  lemma NextOnPlayer(data: seq<u8>, m: Machine, e: Event)
    requires ReceiverOk(m.receiver)
    ensures m.outcomes <= Next(data, m, e).outcomes
    ensures NoneAsks(Next(data, m, e).outcomes, |m.outcomes|) ==>
      Next(data, m, e).player == match e
        case ButtonPressed => Button(data, m.player)
        case TimerOverflowed => Tick(data, m.player)
        case _ => m.player
  {
    hide Transmit, Button, Tick, Receive, ReceiverOk;
    if e.ByteReceived? {
      var o := Receive(m.receiver, e.b).1;
      assert !o.Nothing? ==> Next(data, m, e).outcomes[|m.outcomes|] == o;
    }
  }

  /** Until a command asks for a transmission, the serial link does not disturb the player. */
  lemma {:induction false} PlayerSeesPlayEventsOnly(data: seq<u8>, m: Machine, es: seq<Event>)
    requires ReceiverOk(m.receiver)
    ensures m.outcomes <= RunAll(data, m, es).outcomes
    ensures NoneAsks(RunAll(data, m, es).outcomes, |m.outcomes|) ==>
      RunAll(data, m, es).player == PlayAll(data, m.player, PlayEventsOf(es))
  {
    hide Next, ReceiverOk, AsksToTransmit, PlayStep;
    if es != [] {
      var init, e := es[..|es| - 1], es[|es| - 1];
      var k := RunAll(data, m, init);
      PlayerSeesPlayEventsOnly(data, m, init);
      NextOnPlayer(data, k, e);
      if NoneAsks(RunAll(data, m, es).outcomes, |m.outcomes|) {
        assert forall i :: 0 <= i < |k.outcomes| ==> k.outcomes[i] == RunAll(data, m, es).outcomes[i];
        PlayNext(data, m.player, init, e);
      }
    }
  }

  lemma PlayNext(data: seq<u8>, p: Player, init: seq<Event>, e: Event)
    ensures var q := PlayAll(data, p, PlayEventsOf(init));
      PlayAll(data, p, PlayEventsOf(init + [e])) == match e
        case ButtonPressed => Button(data, q)
        case TimerOverflowed => Tick(data, q)
        case _ => q
  {
    hide Button, Tick;
    assert (init + [e])[..|init|] == init;
    var ps := PlayEventsOf(init);
    assert PlayEventsOf(init + [e]) == ps + (match e
      case ButtonPressed => [PressButton]
      case TimerOverflowed => [TimerOverflow]
      case _ => []);
    assert (ps + [PressButton])[..|ps|] == ps && (ps + [TimerOverflow])[..|ps|] == ps;
    assert ps + [] == ps;
  }

  /** A button press at rest plays the whole table, whatever else is interleaved, and the
      overflow after the last pulse ends it with the output low. */
  lemma PlaybackUnderInterleaving(data: seq<u8>, m: Machine, es: seq<Event>)
    requires ReceiverOk(m.receiver) && !m.player.running
    requires Ticks(PlayEventsOf(es)) + 1 == Count(data)
    requires var k := RunAll(data, Next(data, m, ButtonPressed), es);
      NoneAsks(k.outcomes, |m.outcomes|)
    ensures var k := RunAll(data, Next(data, m, ButtonPressed), es);
      var n := Next(data, k, TimerOverflowed);
      && k.player.running
      && !n.player.running && !n.player.timer && n.player.pin == 0
      && n.player.plays == m.player.plays + Pulses(data, Count(data)) + [Stop]
  {
    hide RunAll, PlayAll, Tick, Transmit, Pulses, Ticks, PlayEventsOf, AsksToTransmit;
    PlayerSeesPlayEventsOnly(data, Next(data, m, ButtonPressed), es);
    PlaysStoredPulses(data, m.player, PlayEventsOf(es));
    StopsAfterLastPulse(data, m.player, PlayEventsOf(es));
  }

  // ---- responses under interleaving ---------------------------------------------------------------------

  /** The outcome makes the driver answer. */
  predicate Answers(o: Outcome) {
    match o
    case Nothing => false
    case Dispatch(f) => |f| > 1 && (f[1] == GET_PULSE_DATA || !(1 <= f[1] <= 6))
    case Overflow => true
  }

  /** From an outcome on, none makes the driver answer. */
  predicate NoneAnswers(outcomes: seq<Outcome>, from: nat) {
    forall i :: from <= i < |outcomes| ==> !Answers(outcomes[i])
  }

  /** How often the transmit register becomes empty in a run. */
  function Readies(es: seq<Event>): nat {
    if es == [] then 0 else Readies(es[..|es| - 1]) + (if es[|es| - 1].TransmitReady? then 1 else 0)
  }

  lemma NextOnSender(data: seq<u8>, m: Machine, e: Event)
    requires ReceiverOk(m.receiver)
    ensures m.outcomes <= Next(data, m, e).outcomes
    ensures NoneAnswers(Next(data, m, e).outcomes, |m.outcomes|) ==>
      Next(data, m, e).sender == if e.TransmitReady? then SendNext(data, m.sender) else m.sender
  {
    hide Transmit, Receive, ReceiverOk, Respond, SendNext;
    if e.ByteReceived? {
      var o := Receive(m.receiver, e.b).1;
      assert !o.Nothing? ==> Next(data, m, e).outcomes[|m.outcomes|] == o;
    }
  }

  /** Until an outcome makes the driver answer anew, the sender in any interleaving is the one
      of the transmit interrupts alone. */
  lemma {:induction false} SenderSeesTransmitReadyOnly(data: seq<u8>, m: Machine, es: seq<Event>)
    requires ReceiverOk(m.receiver)
    ensures m.outcomes <= RunAll(data, m, es).outcomes
    ensures NoneAnswers(RunAll(data, m, es).outcomes, |m.outcomes|) ==>
      RunAll(data, m, es).sender == SendMany(data, m.sender, Readies(es))
  {
    hide Next, ReceiverOk, Answers, SendNext;
    if es != [] {
      var init, e := es[..|es| - 1], es[|es| - 1];
      var k := RunAll(data, m, init);
      SenderSeesTransmitReadyOnly(data, m, init);
      NextOnSender(data, k, e);
      if NoneAnswers(RunAll(data, m, es).outcomes, |m.outcomes|) {
        assert forall i :: 0 <= i < |k.outcomes| ==> k.outcomes[i] == RunAll(data, m, es).outcomes[i];
      }
    }
  }

  function Lesser(a: nat, b: nat): nat {
    if a < b then a else b
  }

  /** However many transmit interrupts follow, a response sends its length and its bytes, one
      an interrupt, and stops at the one after the last byte. */
  lemma {:induction false} ResponseSends(data: seq<u8>, s: Sender, source: Source, length: nat, n: nat)
    requires length < 0x100
    ensures var t := SendMany(data, Respond(s, source, length), n);
      && (t.enabled <==> n <= length)
      && t.sent == s.sent + [(length + 1) % 0x100] + SourceBytes(data, source, Lesser(n, length))
    decreases n
  {
    if n <= length {
      ResponseRuns(data, s, source, length, n);
    } else {
      ResponseSends(data, s, source, length, n - 1);
      ResponseRuns(data, s, source, length, length);
    }
  }

  /** A response in any interleaving that starts no other: the bytes sent are its length and
      its bytes in order, one a transmit interrupt, and nothing after the last. */
  lemma ResponseUnderInterleaving(data: seq<u8>, m: Machine, es: seq<Event>, s: Sender, source: Source, length: nat)
    requires ReceiverOk(m.receiver) && length < 0x100 && m.sender == Respond(s, source, length)
    requires NoneAnswers(RunAll(data, m, es).outcomes, |m.outcomes|)
    ensures var t := RunAll(data, m, es).sender;
      && (t.enabled <==> Readies(es) <= length)
      && t.sent == s.sent + [(length + 1) % 0x100] + SourceBytes(data, source, Lesser(Readies(es), length))
  {
    hide RunAll, Readies, SendMany, Respond, SourceBytes, NoneAnswers;
    SenderSeesTransmitReadyOnly(data, m, es);
    ResponseSends(data, s, source, length, Readies(es));
  }
}
