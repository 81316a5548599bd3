/** What the board does on a command, said of the bytes on the wire: lengths, commands, codes
    and places of stored bytes by their numbers, in any interleaving. */
module DriverLaws {
  import opened Words
  import opened DriverMachine

  // ---- stored bytes --------------------------------------------------------------------------------

  /** Stored byte i; beyond the data whatever the memory holds, here 0. */
  function ByteStored(data: seq<u8>, i: nat): u8 {
    if i < |data| then data[i] else 0
  }

  /** The first n stored bytes. */
  function FirstBytes(data: seq<u8>, n: nat): (bytes: seq<u8>)
    ensures |bytes| == n
  {
    seq(n, i requires 0 <= i < n => ByteStored(data, i))
  }

  /** Pulse i is the three bytes behind the count and the pulses before it: the timer's high and
      low byte, and the level. */
  lemma PulsesAreStored(data: seq<u8>, k: nat, i: nat)
    requires i < k
    ensures |Pulses(data, k)| == k
    ensures Pulses(data, k)[i]
      == Reload(Pulse(ByteStored(data, 3 * i + 1), ByteStored(data, 3 * i + 2), ByteStored(data, 3 * i + 3)))
  {
  }

  // ---- frames on the wire -----------------------------------------------------------------------------

  /** A frame: 0xAA, its length of 3 to 20, and two bytes less than that, the first of them the
      command. */
  predicate IsFrame(bytes: seq<u8>, command: u8) {
    && 3 <= |bytes| <= 20 && bytes[0] == 0xAA && bytes[1] == |bytes| && bytes[2] == command
  }

  /** A start byte and twenty bytes of which the first is no length. */
  predicate IsOverlong(bytes: seq<u8>) {
    |bytes| == 21 && bytes[0] == 0xAA && !(3 <= bytes[1] <= 20)
  }

  /** The state before the last byte of what is received: a receiver at rest has heard the bytes
      before it. */
  predicate HasHeard(data: seq<u8>, m: Machine, k: Machine, bytes: seq<u8>)
    requires ReceiverOk(m.receiver)
  {
    k.receiver == Listen(m.receiver, bytes).0
  }

  lemma RunHasHeard(data: seq<u8>, m: Machine, es: seq<Event>)
    requires ReceiverOk(m.receiver)
    ensures HasHeard(data, m, RunAll(data, m, es), BytesOf(es))
  {
    hide RunAll, Listen, BytesOf;
    ReceiverSeesBytesOnly(data, m, es);
  }

  /** A start byte and what follows it, up to the last byte. */
  lemma StartAndRest(bytes: seq<u8>)
    requires |bytes| >= 2 && bytes[0] == 0xAA
    ensures var n := |bytes| - 1;
      bytes == [START_BYTE] + bytes[1..] && bytes[..n] == [START_BYTE] + bytes[1..n] && bytes == bytes[..n] + [bytes[n]]
  {
  }

  /** What the last byte does, from what the receiver has before and after it. */
  lemma LastByte(r: Receiver, init: seq<u8>, last: u8, o: Outcome)
    requires ReceiverOk(r) && !o.Nothing?
    requires Listen(r, init).1 == [] && Listen(r, init + [last]).1 == [o]
    ensures Receive(Listen(r, init).0, last).1 == o
  {
    hide Listen, Receive, ReceiverOk;
    ListenNext(r, init, last);
    var next := Receive(Listen(r, init).0, last).1;
    assert Listen(r, init + [last]).1 == if next.Nothing? then [] else [] + [next];
    assert [] + [next] == [next];
    assert [next][0] == next && [o][0] == o;
  }

  /** The last byte of a frame dispatches it. */
  lemma LastByteDispatches(r: Receiver, bytes: seq<u8>, command: u8)
    requires ReceiverOk(r) && !r.receiving && IsFrame(bytes, command)
    ensures var (s, os) := Listen(r, bytes[..|bytes| - 1]);
      Receive(s, bytes[|bytes| - 1]).1 == Dispatch(bytes[1..])
  {
    hide Listen, Receive, ReceiverOk, Holding;
    var n := |bytes| - 1;
    StartAndRest(bytes);
    FrameProgress(r, bytes[1..]);
    FrameProgress(r, bytes[1..n]);
    LastByte(r, bytes[..n], bytes[n], Dispatch(bytes[1..]));
  }

  lemma LastByteOverflows(r: Receiver, bytes: seq<u8>)
    requires ReceiverOk(r) && !r.receiving && IsOverlong(bytes)
    ensures var (s, os) := Listen(r, bytes[..|bytes| - 1]);
      Receive(s, bytes[|bytes| - 1]).1 == Overflow
  {
    hide Listen, Receive, ReceiverOk, Holding;
    var n := |bytes| - 1;
    StartAndRest(bytes);
    assert bytes[1..][0] == bytes[1..n][0] == bytes[1];
    FrameProgress(r, bytes[1..]);
    FrameProgress(r, bytes[1..n]);
    LastByte(r, bytes[..n], bytes[n], Overflow);
  }

  // ---- commands ---------------------------------------------------------------------------------------

  /** What the last byte of a frame does to player and sender. */
  lemma FrameIsProcessed(data: seq<u8>, m: Machine, k: Machine, bytes: seq<u8>, command: u8)
    requires ReceiverOk(m.receiver) && ReceiverOk(k.receiver) && !m.receiver.receiving && IsFrame(bytes, command)
    requires HasHeard(data, m, k, bytes[..|bytes| - 1])
    ensures var f := Next(data, k, ByteReceived(bytes[|bytes| - 1]));
      && (command == 5 ==> f.player == k.player && f.sender == Respond(k.sender, Data, 3 * ByteStored(data, 0) + 1))
      && (command == 7 ==> f.player == Transmit(data, k.player) && f.sender == Respond(k.sender, Code(0), 1))
      && (1 <= command <= 4 || command == 6 ==> f.player == k.player && f.sender == k.sender)
      && (command == 0 || command > 7 ==> f.player == k.player && f.sender == Respond(k.sender, Code(1), 1))
  {
    hide Listen, Receive, ReceiverOk, Respond, Transmit;
    LastByteDispatches(m.receiver, bytes, command);
    assert bytes[1..][1] == command;
  }

  /** The bytes a response has sent after n transmit interrupts. */
  function AnswerSent(first: u8, bytes: seq<u8>, n: nat): seq<u8> {
    [first] + if n < |bytes| then bytes[..n] else bytes
  }

  lemma CodeBytes(data: seq<u8>, c: u8)
    ensures SourceBytes(data, Code(c), 0) == [] && SourceBytes(data, Code(c), 1) == [c]
  {
  }

  lemma DataBytes(data: seq<u8>, n: nat, i: nat)
    requires i <= n
    ensures SourceBytes(data, Data, i) == FirstBytes(data, n)[..i]
  {
  }

  /** Command 5: whatever is interleaved, and until the driver answers anew, the board sends the
      number of stored bytes plus one and the stored bytes in order, one a transmit interrupt;
      both numbers are cut to a byte. */
  lemma PulseDataAreSent(data: seq<u8>, m: Machine, before: seq<Event>, last: u8, later: seq<Event>)
    requires ReceiverOk(m.receiver) && !m.receiver.receiving && IsFrame(BytesOf(before) + [last], 5)
    requires var f := Next(data, RunAll(data, m, before), ByteReceived(last));
      NoneAnswers(RunAll(data, f, later).outcomes, |f.outcomes|)
    ensures var k := RunAll(data, m, before);
      var n := 3 * ByteStored(data, 0);
      RunAll(data, Next(data, k, ByteReceived(last)), later).sender.sent
      == k.sender.sent + AnswerSent((n + 2) % 0x100, FirstBytes(data, (n + 1) % 0x100), Readies(later))
  {
    hide RunAll, Next, Listen, NoneAnswers, BytesOf, Readies, FirstBytes, SourceBytes, HasHeard;
    var bytes, k := BytesOf(before) + [last], RunAll(data, m, before);
    RunHasHeard(data, m, before);
    assert bytes[..|bytes| - 1] == BytesOf(before);
    FrameIsProcessed(data, m, k, bytes, 5);
    var f := Next(data, k, ByteReceived(last));
    var n := 3 * ByteStored(data, 0) + 1;
    RespondInByte(k.sender, Data, n);
    ResponseUnderInterleaving(data, f, later, k.sender, Data, n % 0x100);
    DataBytes(data, n % 0x100, Lesser(Readies(later), n % 0x100));
    assert FirstBytes(data, n % 0x100)[..n % 0x100] == FirstBytes(data, n % 0x100);
  }

  lemma RespondInByte(s: Sender, source: Source, n: nat)
    ensures Respond(s, source, n).source == source && Respond(s, source, n).length == n % 0x100
    ensures Respond(s, source, n) == Respond(s, source, n % 0x100)
    ensures (n % 0x100 + 1) % 0x100 == (n + 1) % 0x100
  {
  }

  /** A frame answered with a one-byte code sends 2 and the code. */
  lemma CodeIsSent(data: seq<u8>, s: Sender, f: Machine, later: seq<Event>, code: u8)
    requires ReceiverOk(f.receiver) && f.sender == Respond(s, Code(code), 1)
    requires NoneAnswers(RunAll(data, f, later).outcomes, |f.outcomes|)
    ensures RunAll(data, f, later).sender.sent == s.sent + AnswerSent(2, [code], Readies(later))
  {
    hide RunAll, NoneAnswers, Readies, SourceBytes;
    ResponseUnderInterleaving(data, f, later, s, Code(code), 1);
    CodeBytes(data, code);
  }

  /** Command 7: the transmission starts, on pulse 0, whatever the player was doing, and the
      board sends 2 and 0. */
  lemma TransmitStarts(data: seq<u8>, m: Machine, before: seq<Event>, last: u8, later: seq<Event>)
    requires ReceiverOk(m.receiver) && !m.receiver.receiving && IsFrame(BytesOf(before) + [last], 7)
    requires var f := Next(data, RunAll(data, m, before), ByteReceived(last));
      NoneAnswers(RunAll(data, f, later).outcomes, |f.outcomes|)
    ensures var k := RunAll(data, m, before);
      var f := Next(data, k, ByteReceived(last));
      && f.player.running && f.player.timer && f.player.current == 0 && f.player.address == 4
      && f.player.pin == ByteStored(data, 3)
      && f.player.plays
         == k.player.plays + [Reload(Pulse(ByteStored(data, 1), ByteStored(data, 2), ByteStored(data, 3)))]
      && RunAll(data, f, later).sender.sent == k.sender.sent + AnswerSent(2, [0], Readies(later))
  {
    hide RunAll, Next, Listen, NoneAnswers, BytesOf, Readies, HasHeard, Respond;
    var bytes, k := BytesOf(before) + [last], RunAll(data, m, before);
    RunHasHeard(data, m, before);
    assert bytes[..|bytes| - 1] == BytesOf(before);
    FrameIsProcessed(data, m, k, bytes, 7);
    CodeIsSent(data, k.sender, Next(data, k, ByteReceived(last)), later, 0);
  }

  /** Commands 1 to 4 and 6: nothing is sent and the player goes on. */
  lemma KnownCommandsDoNothing(data: seq<u8>, m: Machine, before: seq<Event>, last: u8, command: u8)
    requires ReceiverOk(m.receiver) && !m.receiver.receiving && IsFrame(BytesOf(before) + [last], command)
    requires 1 <= command <= 4 || command == 6
    ensures var k := RunAll(data, m, before);
      var f := Next(data, k, ByteReceived(last));
      f.player == k.player && f.sender == k.sender
  {
    hide RunAll, Next, Listen, BytesOf, HasHeard;
    var bytes := BytesOf(before) + [last];
    RunHasHeard(data, m, before);
    assert bytes[..|bytes| - 1] == BytesOf(before);
    FrameIsProcessed(data, m, RunAll(data, m, before), bytes, command);
  }

  /** Any other command: 2 and 1 are sent and the player goes on. */
  lemma UnknownCommandIsRefused(data: seq<u8>, m: Machine, before: seq<Event>, last: u8, command: u8, later: seq<Event>)
    requires ReceiverOk(m.receiver) && !m.receiver.receiving && IsFrame(BytesOf(before) + [last], command)
    requires command == 0 || command > 7
    requires var f := Next(data, RunAll(data, m, before), ByteReceived(last));
      NoneAnswers(RunAll(data, f, later).outcomes, |f.outcomes|)
    ensures var k := RunAll(data, m, before);
      var f := Next(data, k, ByteReceived(last));
      f.player == k.player && RunAll(data, f, later).sender.sent == k.sender.sent + AnswerSent(2, [1], Readies(later))
  {
    hide RunAll, Next, Listen, NoneAnswers, BytesOf, Readies, HasHeard, Respond;
    var bytes, k := BytesOf(before) + [last], RunAll(data, m, before);
    RunHasHeard(data, m, before);
    assert bytes[..|bytes| - 1] == BytesOf(before);
    FrameIsProcessed(data, m, k, bytes, command);
    CodeIsSent(data, k.sender, Next(data, k, ByteReceived(last)), later, 1);
  }

  /** A frame without a length: 2 and 2 are sent at the twentieth byte and the player goes on. */
  lemma OverflowIsRefused(data: seq<u8>, m: Machine, before: seq<Event>, last: u8, later: seq<Event>)
    requires ReceiverOk(m.receiver) && !m.receiver.receiving && IsOverlong(BytesOf(before) + [last])
    requires var f := Next(data, RunAll(data, m, before), ByteReceived(last));
      NoneAnswers(RunAll(data, f, later).outcomes, |f.outcomes|)
    ensures var k := RunAll(data, m, before);
      var f := Next(data, k, ByteReceived(last));
      f.player == k.player && RunAll(data, f, later).sender.sent == k.sender.sent + AnswerSent(2, [2], Readies(later))
  {
    hide RunAll, Listen, NoneAnswers, BytesOf, Readies, HasHeard, Respond, Receive, ReceiverOk;
    var bytes, k := BytesOf(before) + [last], RunAll(data, m, before);
    RunHasHeard(data, m, before);
    assert bytes[..|bytes| - 1] == BytesOf(before);
    OverflowIsAnswered(data, m, k, bytes);
    CodeIsSent(data, k.sender, Next(data, k, ByteReceived(last)), later, 2);
  }

  lemma OverflowIsAnswered(data: seq<u8>, m: Machine, k: Machine, bytes: seq<u8>)
    requires ReceiverOk(m.receiver) && ReceiverOk(k.receiver) && !m.receiver.receiving && IsOverlong(bytes)
    requires HasHeard(data, m, k, bytes[..|bytes| - 1])
    ensures var f := Next(data, k, ByteReceived(bytes[|bytes| - 1]));
      f.player == k.player && f.sender == Respond(k.sender, Code(2), 1)
  {
    hide Listen, Receive, ReceiverOk, Respond, Transmit;
    LastByteOverflows(m.receiver, bytes);
  }

  /** A frame that answers is one with another command than 1 to 4 and 6. */
  lemma AnswersIff(frame: seq<u8>)
    requires |frame| > 1
    ensures Answers(Dispatch(frame)) <==> !(1 <= frame[1] <= 4) && frame[1] != 6
    ensures Answers(Overflow) && !Answers(Nothing)
  {
  }
}
