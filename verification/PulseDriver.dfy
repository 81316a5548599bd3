/** The driver's interrupt handlers, on the variables they update. */
module PulseDriver {
  import opened Words
  import opened DriverMachine

  class Driver {
    const eeprom: seq<u8>
    // pulse timer
    var numberOfPulses: nat
    var currentPulse: nat
    var pulseDataAddress: nat
    var running: bool
    var timerEnabled: bool
    var output: u8
    ghost var plays: seq<Play>
    // serial link, sending
    var txSource: Source
    var txCount: nat
    var txLength: nat
    var txEnabled: bool
    ghost var sent: seq<u8>
    // serial link, receiving
    const rxBuffer: array<u8>
    var rxAt: nat
    var rxCount: nat
    var receiving: bool
    ghost var outcomes: seq<Outcome>

    /** The machine state the variables stand for. */
    ghost function View(): Machine
      reads this, rxBuffer
    {
      Machine(PlayerView(), ReceiverView(), SenderView(), outcomes)
    }

    ghost function PlayerView(): Player
      reads this`currentPulse, this`pulseDataAddress, this`running, this`timerEnabled, this`output, this`plays
    {
      Player(currentPulse, pulseDataAddress, running, timerEnabled, output, plays)
    }

    ghost function ReceiverView(): Receiver
      reads this`receiving, this`rxAt, this`rxCount, rxBuffer
    {
      Receiver(receiving, rxBuffer[..], rxAt, rxCount)
    }

    ghost function SenderView(): Sender
      reads this`txSource, this`txCount, this`txLength, this`txEnabled, this`sent
    {
      Sender(txSource, txCount, txLength, txEnabled, sent)
    }

    ghost predicate Valid()
      reads this, rxBuffer
    {
      numberOfPulses == Count(eeprom) && ReceiverOk(ReceiverView())
    }

    /** Power-up: the number of pulses is read once, outputs are off, the receiver is idle. */
    constructor (stored: seq<u8>)
      ensures eeprom == stored && Valid() && fresh(rxBuffer)
      ensures View().player == Player(0, 1, false, false, 0, [])
      ensures !View().receiver.receiving && View().outcomes == []
      ensures MachineOk(eeprom, View())
    {
      eeprom := stored;
      numberOfPulses := Stored(stored, 0);
      currentPulse, pulseDataAddress, running, timerEnabled, output, plays := 0, 1, false, false, 0, [];
      txSource, txCount, txLength, txEnabled, sent := Code(0), 0, 0, false, [];
      rxBuffer := new u8[RX_BUFFER_SIZE];
      rxAt, rxCount, receiving, outcomes := 0, 0, false, [];
    }

    method SendResponse(source: Source, length: nat)
      modifies this`txSource, this`txCount, this`txLength, this`txEnabled, this`sent
      ensures SenderView() == Respond(old(SenderView()), source, length)
    {
      txLength := length % 0x100;
      txSource := source;
      txCount := 0;
      sent := sent + [(txLength + 1) % 0x100];
      txEnabled := true;
    }

    method LoadPulse()
      modifies this`pulseDataAddress, this`output, this`plays
      ensures PlayerView() == Load(eeprom, old(PlayerView()))
    {
      var hi := Stored(eeprom, pulseDataAddress);
      pulseDataAddress := pulseDataAddress + 1;
      var lo := Stored(eeprom, pulseDataAddress);
      pulseDataAddress := pulseDataAddress + 1;
      output := Stored(eeprom, pulseDataAddress);
      pulseDataAddress := pulseDataAddress + 1;
      plays := plays + [Reload(Pulse(hi, lo, output))];
    }

    method TransmitPulseData()
      modifies this`currentPulse, this`pulseDataAddress, this`running, this`timerEnabled, this`output, this`plays
      ensures PlayerView() == Transmit(eeprom, old(PlayerView()))
    {
      running := true;
      currentPulse := 0;
      pulseDataAddress := 1;
      LoadPulse();
      timerEnabled := true;
    }

    method ButtonHandler()
      requires Valid()
      modifies this`currentPulse, this`pulseDataAddress, this`running, this`timerEnabled, this`output, this`plays
      ensures Valid() && View() == Next(eeprom, old(View()), ButtonPressed)
    {
      hide Transmit, ReceiverOk, ReceiverView, SenderView;
      if !running {
        TransmitPulseData();
      }
    }

    /** Timer 2 overflow; the interrupt comes only while the timer is enabled. */
    method TimerHandler()
      requires Valid() && timerEnabled
      modifies this`currentPulse, this`pulseDataAddress, this`running, this`timerEnabled, this`output, this`plays
      ensures Valid() && View() == Next(eeprom, old(View()), TimerOverflowed)
    {
      hide Load, Stored, ReceiverOk, ReceiverView, SenderView;
      currentPulse := (currentPulse + 1) % WORD;
      if currentPulse == numberOfPulses {
        output := 0;
        timerEnabled := false;
        running := false;
        plays := plays + [Stop];
      } else {
        LoadPulse();
      }
    }

    /** Transmit register empty; the interrupt comes only while it is enabled. */
    method TransmitHandler()
      requires Valid() && txEnabled
      modifies this`txCount, this`txEnabled, this`sent
      ensures Valid() && View() == Next(eeprom, old(View()), TransmitReady)
    {
      if txCount < txLength {
        sent := sent + [SourceByte(eeprom, txSource, txCount)];
        txCount := txCount + 1;
      } else {
        txEnabled := false;
      }
    }

    method SendNak(code: u8)
      modifies this`txSource, this`txCount, this`txLength, this`txEnabled, this`sent
      ensures SenderView() == Respond(old(SenderView()), Code(code), 1)
    {
      SendResponse(Code(code), 1);
    }

    method SendAck()
      modifies this`txSource, this`txCount, this`txLength, this`txEnabled, this`sent
      ensures SenderView() == Respond(old(SenderView()), Code(EC_OK), 1)
    {
      SendResponse(Code(EC_OK), 1);
    }

    /** Acts on the frame in the receive buffer. */
    method ProcessUartData()
      requires ReceiverOk(ReceiverView())
      modifies this`currentPulse, this`pulseDataAddress, this`running, this`timerEnabled, this`output, this`plays,
               this`txSource, this`txCount, this`txLength, this`txEnabled, this`sent, this`receiving
      ensures View() == Process(eeprom, old(View()).(receiver := old(ReceiverView()).(receiving := false)), rxBuffer[1])
    {
      hide Transmit, Respond, PlayerView, SenderView;
      var command := rxBuffer[1];
      if command == GET_PULSE_DATA {
        SendResponse(Data, 3 * Stored(eeprom, 0) + 1);
      } else if command == TRANSMIT_PULSE_DATA {
        TransmitPulseData();
        SendAck();
      } else if 1 <= command <= 6 {
      } else {
        SendNak(EC_UNKNOWN_COMMAND);
      }
      receiving := false;
    }

    method StoreByte(dataByte: u8)
      requires ReceiverOk(ReceiverView()) && rxCount < RX_BUFFER_SIZE - 1
      modifies this`rxAt, this`rxCount, rxBuffer
      ensures var r := old(ReceiverView());
        ReceiverView() == r.(buffer := r.buffer[r.at := dataByte], at := r.at + 1, count := r.count + 1)
    {
      rxBuffer[rxAt] := dataByte;
      rxAt := rxAt + 1;
      rxCount := rxCount + 1;
    }

    /** A byte has arrived inside a frame. */
    method TakeByte(dataByte: u8)
      requires Valid() && receiving
      modifies this`currentPulse, this`pulseDataAddress, this`running, this`timerEnabled, this`output, this`plays,
               this`txSource, this`txCount, this`txLength, this`txEnabled, this`sent,
               this`receiving, this`rxAt, this`rxCount, this`outcomes, rxBuffer
      ensures Valid() && View() == Next(eeprom, old(View()), ByteReceived(dataByte))
    {
      hide Respond, Process, Transmit, PlayerView, SenderView, Next, Receive;
      NextOnByte(eeprom, View(), dataByte);
      if rxCount < RX_BUFFER_SIZE - 1 {
        StoreByte(dataByte);
        if rxCount > 1 && rxBuffer[0] as int - 1 == rxCount {
          outcomes := outcomes + [Dispatch(rxBuffer[..rxCount])];
          ProcessUartData();
        }
      } else {
        outcomes := outcomes + [Overflow];
        SendNak(EC_RX_BUFFER_OVERFLOW);
        receiving := false;
      }
    }

    /** A byte has arrived. */
    method ReceiveHandler(dataByte: u8)
      requires Valid()
      modifies this`currentPulse, this`pulseDataAddress, this`running, this`timerEnabled, this`output, this`plays,
               this`txSource, this`txCount, this`txLength, this`txEnabled, this`sent,
               this`receiving, this`rxAt, this`rxCount, this`outcomes, rxBuffer
      ensures Valid() && View() == Next(eeprom, old(View()), ByteReceived(dataByte))
    {
      hide Respond, Process, Transmit, PlayerView, SenderView, Next, Receive;
      NextOnByte(eeprom, View(), dataByte);
      if !receiving && dataByte == START_BYTE {
        rxAt := 0;
        rxCount := 0;
        receiving := true;
      } else if receiving {
        TakeByte(dataByte);
      }
    }
  }
}
