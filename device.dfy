/** The driver of the current API: a `W25Q` over an SPI device and a delay
    provider (one recorder, `Spi.Bus`). Every command is one bus transaction;
    commands that change the array are preceded by a write-enable and
    followed by a busy poll of status register 1.

    Each operation has a specification function giving the run it performs
    against a reply script: the events it logs, its result and the script it
    leaves. The methods are proved to perform exactly that run. */
module Device {
  import opened Machine
  import opened Registers
  import opened StatusRegisters
  import opened Framing
  import opened Spi

  // ------------------------------------------------------------ runs

  /** A transaction whose read bytes the caller drops (`?; Ok(())`). */
  function Unit(ops: seq<Operation>, script: seq<Reply>): Run<(), SpiError> {
    var reply := Answer(script);
    Run([Transact(ops, reply)], if reply.Reject? then Err(reply.error) else Ok(()), Rest(script))
  }

  /** A transaction that writes one opcode and nothing else. */
  function Cmd(opcode: Byte): seq<Operation> {
    [Write([opcode])]
  }

  /** The transaction `read_status_register` performs for `register`. */
  function StatusReadOps(register: SR): seq<Operation> {
    WriteThenRead([StatusReadOpcode(register)], 1)
  }

  function StatusReadOpcode(register: SR): Byte {
    match register
    case Status1(_) => READ_STATUS_REGISTER_1
    case Status2(_) => READ_STATUS_REGISTER_2
    case Status3(_) => READ_STATUS_REGISTER_3
  }

  /** `read_status_register` against `script`. */
  function StatusRun(register: SR, script: seq<Reply>): Run<Byte, SpiError> {
    Run([Transact(StatusReadOps(register), Answer(script))], StatusByte(Answer(script)), Rest(script))
  }

  const SR1_DEFAULT := SR1(false, false, false, 0, false, false)

  /** The transaction of one busy poll. */
  const POLL_OPS := StatusReadOps(Status1(SR1_DEFAULT))

  /** A poll reply that reports BUSY: the loop delays and polls again. */
  predicate BusyReply(reply: Reply) {
    StatusByte(reply).Ok? && StatusByte(reply).value & 0x01 != 0
  }

  /** `wait_until_ready`: read status register 1 until BUSY reads clear,
      with a 1 ms delay after every busy read. */
  function PollRun(script: seq<Reply>): Run<(), SpiError>
    decreases |script|
  {
    var read := Transact(POLL_OPS, Answer(script));
    if BusyReply(Answer(script)) then
      var next := PollRun(Rest(script));
      Run([read, Delay(1)] + next.events, next.result, next.rest)
    else
      Run([read], if Answer(script).Reject? then Err(Answer(script).error) else Ok(()), Rest(script))
  }

  /** The poll resumed on `script` after it has logged `done`. */
  function Resumed(done: seq<Event>, script: seq<Reply>): Run<(), SpiError> {
    var left := PollRun(script);
    Run(done + left.events, left.result, left.rest)
  }

  /** After a busy read and its delay the poll resumes on the rest of the
      script, which is shorter: an exhausted script reads "not busy". */
  lemma PollResumeBusy(done: seq<Event>, script: seq<Reply>)
    requires BusyReply(Answer(script))
    ensures script != []
    ensures Resumed(done, script) == Resumed(done + [Transact(POLL_OPS, Answer(script)), Delay(1)], Rest(script))
  {
  }

  /** A read that is not busy ends the poll. */
  lemma PollResumeDone(done: seq<Event>, script: seq<Reply>)
    requires !BusyReply(Answer(script))
    ensures Resumed(done, script) == Run(done + [Transact(POLL_OPS, Answer(script))], if Answer(script).Reject? then Err(Answer(script).error) else Ok(()), Rest(script))
  {
  }

  /** `write_address`: a volatile-status-register write enable, then the
      addressed command with its payload in one transaction. */
  function WriteAddressRun(command: Byte, address: U32, payload: seq<Byte>, script: seq<Reply>): Run<(), SpiError> {
    var enable := Unit(Cmd(VOLATILE_SR_WRITE_ENABLE), script);
    AndThen(enable, Unit([Write(AddressHeader(command, address)), Write(payload)], enable.rest))
  }

  /** One poll read that does not report BUSY, seen from the loop: the
      poll's whole run has logged what came before and this read. */
  lemma PollStepDone(start: seq<Event>, done: seq<Event>, before: seq<Reply>, status: Result<Byte, SpiError>)
    requires status == StatusByte(Answer(before)) && (status.Err? || status.value & 0x01 == 0)
    ensures var whole := Resumed(done, before);
      whole.events == done + [Transact(POLL_OPS, Answer(before))]
      && (start + done) + [Transact(POLL_OPS, Answer(before))] == start + whole.events
      && whole.rest == Rest(before)
      && whole.result == if status.Err? then Err(status.error) else Ok(())
  {
    PollResumeDone(done, before);
  }

  /** One busy poll read, seen from the loop: the script is not exhausted and
      the poll goes on after the read and its delay. */
  lemma PollStepBusy(start: seq<Event>, done: seq<Event>, before: seq<Reply>, status: Result<Byte, SpiError>)
    requires status == StatusByte(Answer(before)) && !(status.Err? || status.value & 0x01 == 0)
    ensures before != []
    ensures Resumed(done, before) == Resumed(done + [Transact(POLL_OPS, Answer(before)), Delay(1)], Rest(before))
    ensures (start + done) + [Transact(POLL_OPS, Answer(before))] + [Delay(1)]
      == start + (done + [Transact(POLL_OPS, Answer(before)), Delay(1)])
  {
    PollResumeBusy(done, before);
  }

  /** write enable, `write_address`, wait until ready: the shape shared by the
      erases, page program, security-register program/erase and the
      individual block locks. */
  function GatedRun(command: Byte, address: U32, payload: seq<Byte>, script: seq<Reply>): Run<(), SpiError> {
    var enable := Unit(Cmd(WRITE_ENABLE), script);
    AndThen(enable, ThenPoll(WriteAddressRun(command, address, payload, enable.rest)))
  }

  /** A step followed, when it succeeds, by `wait_until_ready`. */
  function ThenPoll(first: Run<(), SpiError>): Run<(), SpiError> {
    AndThen(first, PollRun(first.rest))
  }

  /** The opcode and the byte `write_status_register` sends for `register`. */
  function StatusWrite(register: SR): (Byte, Byte) {
    match register
    case Status1(s) => (WRITE_STATUS_REGISTER_1, WritableSR1(s))
    case Status2(s) => (WRITE_STATUS_REGISTER_2, WritableSR2(s))
    case Status3(s) => (WRITE_STATUS_REGISTER_3, WritableSR3(s))
  }

  /** `write_data`: volatile write enable, opcode and payload in one transaction. */
  function WriteDataOps(command: Byte, payload: seq<Byte>): seq<Operation> {
    [Write([VOLATILE_SR_WRITE_ENABLE]), Write([command]), Write(payload)]
  }

  /** `write_status_register`: write enable, `write_data`, wait until ready. */
  function WriteStatusRun(register: SR, script: seq<Reply>): Run<(), SpiError> {
    var (command, value) := StatusWrite(register);
    var enable := Unit(Cmd(WRITE_ENABLE), script);
    AndThen(enable, ThenPoll(Unit(WriteDataOps(command, [value]), enable.rest)))
  }

  /** `chip_erase`: write enable, the chip-erase opcode, wait until ready. */
  function ChipEraseRun(script: seq<Reply>): Run<(), SpiError> {
    var enable := Unit(Cmd(WRITE_ENABLE), script);
    AndThen(enable, ThenPoll(Unit(Cmd(CHIP_ERASE), enable.rest)))
  }

  /** `global_block_lock` / `global_block_unlock`: write enable, then the
      opcode; no busy poll. */
  function LockedCommandRun(opcode: Byte, script: seq<Reply>): Run<(), SpiError> {
    var enable := Unit(Cmd(WRITE_ENABLE), script);
    AndThen(enable, Unit(Cmd(opcode), enable.rest))
  }

  /** `reset_device`: enable-reset and reset in one transaction, then 30 ms. */
  function ResetRun(script: seq<Reply>): Run<(), SpiError> {
    var reset := Unit([Write([ENABLE_RESET]), Write([RESET_DEVICE])], script);
    AndThen(reset, Run([Delay(30)], Ok(()), reset.rest))
  }

  /** The read transaction of `read_from_address` for `n` bytes. */
  function AddressedReadOps(command: Byte, address: U32, n: nat): seq<Operation> {
    WriteThenRead(AddressHeader(command, address), n)
  }

  // ------------------------------------------------------------ properties

  /** `wait_until_ready` against a script whose first `i` replies report
      BUSY and whose next reply does not: it logs `i` busy reads, each
      followed by a 1 ms delay, then one final read, and stops there; it
      fails exactly when that final read fails, and consumes `i + 1`
      replies. */
  lemma {:induction false} PollRunSpec(script: seq<Reply>, i: nat)
    requires i <= |script|
    requires forall j :: 0 <= j < i ==> BusyReply(script[j])
    requires !BusyReply(Answer(script[i..]))
    ensures |PollRun(script).events| == 2 * i + 1
    ensures forall j :: 0 <= j < i ==>
      PollRun(script).events[2 * j] == Transact(POLL_OPS, script[j]) && PollRun(script).events[2 * j + 1] == Delay(1)
    ensures PollRun(script).events[2 * i] == Transact(POLL_OPS, Answer(script[i..]))
    ensures PollRun(script).result == if Answer(script[i..]).Reject? then Err(Answer(script[i..]).error) else Ok(())
    ensures PollRun(script).rest == Rest(script[i..])
    decreases i
  {
    if i > 0 {
      var tail := script[1..];
      assert BusyReply(Answer(script)) by { assert script[0] == Answer(script); }
      assert tail[i - 1..] == script[i..];
      forall j | 0 <= j < i - 1
        ensures BusyReply(tail[j])
      {
        assert tail[j] == script[j + 1];
      }
      PollRunSpec(tail, i - 1);
      PollBusyStep(script);
      PollPairsCons(PollRun(script).events, PollRun(tail).events, script, i);
    }
  }

  /** A busy first reply: the read, the delay, then the poll on the rest. */
  lemma PollBusyStep(script: seq<Reply>)
    requires BusyReply(Answer(script))
    ensures script != []
    ensures PollRun(script) == Run([Transact(POLL_OPS, script[0]), Delay(1)] + PollRun(script[1..]).events,
      PollRun(script[1..]).result, PollRun(script[1..]).rest)
  {
  }

  /** Prepending a busy read and its delay to the events of the poll on
      the rest keeps reads and delays alternating. */
  lemma PollPairsCons(events: seq<Event>, tail: seq<Event>, script: seq<Reply>, i: nat)
    requires 0 < i <= |script| && events == [Transact(POLL_OPS, script[0]), Delay(1)] + tail
    requires |tail| == 2 * (i - 1) + 1
    requires forall j :: 0 <= j < i - 1 ==> tail[2 * j] == Transact(POLL_OPS, script[1..][j]) && tail[2 * j + 1] == Delay(1)
    ensures |events| == 2 * i + 1 && events[2 * i] == tail[2 * (i - 1)]
    ensures forall j :: 0 <= j < i ==> events[2 * j] == Transact(POLL_OPS, script[j]) && events[2 * j + 1] == Delay(1)
  {
    forall j | 0 <= j < i
      ensures events[2 * j] == Transact(POLL_OPS, script[j]) && events[2 * j + 1] == Delay(1)
    {
      if j > 0 {
        assert events[2 * j] == tail[2 * (j - 1)] && events[2 * j + 1] == tail[2 * (j - 1) + 1];
        assert script[1..][j - 1] == script[j];
      }
    }
  }

  /** A poll ends with success only on a read whose BUSY bit is clear. */
  lemma PollSucceedsOnlyWhenReady(script: seq<Reply>)
    ensures PollRun(script).result.Ok? ==>
      var last := PollRun(script).events[|PollRun(script).events| - 1];
      last.Transact? && last.ops == POLL_OPS && StatusByte(last.reply).Ok? && StatusByte(last.reply).value & 0x01 == 0
    decreases |script|
  {
    if BusyReply(Answer(script)) {
      PollSucceedsOnlyWhenReady(Rest(script));
    }
  }

  /** A gated command: the write enable goes out first; its failure stops
      everything; otherwise the volatile write enable and the addressed
      command follow, and the poll runs on what is left of the script. */
  lemma GatedRunShape(command: Byte, address: U32, payload: seq<Byte>, script: seq<Reply>)
    ensures GatedRun(command, address, payload, script).events[0] == Transact(Cmd(WRITE_ENABLE), Answer(script))
    ensures Answer(script).Reject? ==>
      GatedRun(command, address, payload, script) == Run([Transact(Cmd(WRITE_ENABLE), Answer(script))], Err(Answer(script).error), Rest(script))
    ensures |script| >= 3 && script[0].Accept? && script[1].Accept? && script[2].Accept? ==>
      GatedRun(command, address, payload, script) ==
        Run([Transact(Cmd(WRITE_ENABLE), script[0]),
             Transact(Cmd(VOLATILE_SR_WRITE_ENABLE), script[1]),
             Transact([Write(AddressHeader(command, address)), Write(payload)], script[2])]
            + PollRun(script[3..]).events,
            PollRun(script[3..]).result, PollRun(script[3..]).rest)
  {
    if Answer(script).Reject? {
      GatedRejected(command, address, payload, script);
    } else {
      GatedEnabled(command, address, payload, script);
    }
    if |script| >= 3 && script[0].Accept? && script[1].Accept? && script[2].Accept? {
      GatedAccepted(command, address, payload, script);
    }
  }

  lemma GatedRejected(command: Byte, address: U32, payload: seq<Byte>, script: seq<Reply>)
    requires Answer(script).Reject?
    ensures GatedRun(command, address, payload, script) == Run([Transact(Cmd(WRITE_ENABLE), Answer(script))], Err(Answer(script).error), Rest(script))
  {
  }

  lemma GatedEnabled(command: Byte, address: U32, payload: seq<Byte>, script: seq<Reply>)
    requires Answer(script).Accept?
    ensures GatedRun(command, address, payload, script).events[0] == Transact(Cmd(WRITE_ENABLE), Answer(script))
  {
    var enable := Unit(Cmd(WRITE_ENABLE), script);
    var after := ThenPoll(WriteAddressRun(command, address, payload, enable.rest));
    assert GatedRun(command, address, payload, script).events == enable.events + after.events;
  }

  lemma GatedAccepted(command: Byte, address: U32, payload: seq<Byte>, script: seq<Reply>)
    requires |script| >= 3 && script[0].Accept? && script[1].Accept? && script[2].Accept?
    ensures GatedRun(command, address, payload, script) ==
        Run([Transact(Cmd(WRITE_ENABLE), script[0]),
             Transact(Cmd(VOLATILE_SR_WRITE_ENABLE), script[1]),
             Transact([Write(AddressHeader(command, address)), Write(payload)], script[2])]
            + PollRun(script[3..]).events,
            PollRun(script[3..]).result, PollRun(script[3..]).rest)
  {
    assert Rest(Rest(Rest(script))) == script[3..];
    var enable := Unit(Cmd(WRITE_ENABLE), script);
    assert enable == Run([Transact(Cmd(WRITE_ENABLE), script[0])], Ok(()), Rest(script));
    var write := WriteAddressRun(command, address, payload, enable.rest);
    assert write == Run([Transact(Cmd(VOLATILE_SR_WRITE_ENABLE), script[1]),
                         Transact([Write(AddressHeader(command, address)), Write(payload)], script[2])],
                        Ok(()), script[3..]);
    var poll := PollRun(script[3..]);
    assert ThenPoll(write) == Run(write.events + poll.events, poll.result, poll.rest);
    assert enable.events + (write.events + poll.events) == [Transact(Cmd(WRITE_ENABLE), script[0]),
             Transact(Cmd(VOLATILE_SR_WRITE_ENABLE), script[1]),
             Transact([Write(AddressHeader(command, address)), Write(payload)], script[2])]
            + poll.events;
  }

  /** `write_status_register` sends, inside the write-data transaction, only
      the writable bits of the register: SR1 never with BUSY, WEL or SRP0,
      SR2 never with SUS, reserved bit 2 or SRP1, SR3 never with the
      reserved bits or HOLD/RESET. */
  lemma WriteStatusSendsWritableBits(register: SR, script: seq<Reply>)
    requires Answer(script).Accept?
    ensures var (command, value) := StatusWrite(register);
      WriteStatusRun(register, script).events[1] == Transact(WriteDataOps(command, [value]), Answer(Rest(script)))
      && value & (match register case Status1(_) => 0x83 case Status2(_) => 0x85 case Status3(_) => 0x9B) == 0
  {
    match register
    case Status1(s) =>
    case Status2(s) =>
    case Status3(s) =>
  }

  // ------------------------------------------------------------ the driver

  class W25Q {
    const periph: Bus
    /** The page buffer behind `fill_buf`. */
    const buffer: array<Byte>
    /** Address of the next read or write of the stream interface. */
    var seekPtr: nat
    /** The window `buffer[bufferStart..bufferEnd]` not yet consumed. */
    var bufferStart: nat
    var bufferEnd: nat

    ghost predicate Valid()
      reads this
    {
      buffer.Length == PAGE_SIZE && bufferStart <= bufferEnd <= PAGE_SIZE && periph as object != buffer
    }

    /** `new_with_spi`: seek pointer 0, a zeroed buffer, window `[0, 256)`. */
    constructor NewWithSpi(spiDev: Bus)
      ensures Valid() && fresh(buffer) && periph == spiDev
      ensures seekPtr == 0 && bufferStart == 0 && bufferEnd == PAGE_SIZE
      ensures buffer[..] == Zeros(PAGE_SIZE)
    {
      periph := spiDev;
      seekPtr := 0;
      buffer := new Byte[PAGE_SIZE](_ => 0);
      bufferStart := 0;
      bufferEnd := PAGE_SIZE;
    }

    /** `read_from_address`: the header, then `payload.Length` bytes read
        into `payload`; the result is the opcode sent. */
    method ReadFromAddress(command: Byte, address: U32, payload: array<Byte>) returns (r: Result<Byte, SpiError>)
      requires payload as object != periph
      modifies periph, payload
      ensures Replayed(periph, Single(AddressedReadOps(command, address, payload.Length), old(periph.script)))
      ensures match Exchange(AddressedReadOps(command, address, payload.Length), Answer(old(periph.script)))
        case Ok(d) => r == Ok(command) && payload[..] == d
        case Err(e) => r == Err(e) && payload[..] == old(payload[..])
    {
      var data := periph.Transaction(AddressedReadOps(command, address, payload.Length));
      if data.Err? {
        return Err(data.error);
      }
      CopyInto(payload, data.value);
      r := Ok(command);
    }

    /** `read_register`: the opcode, then `payload.Length` bytes read into
        `payload`. */
    method ReadRegister(command: Byte, payload: array<Byte>) returns (r: Result<(), SpiError>)
      requires payload as object != periph
      modifies periph, payload
      ensures Replayed(periph, Single(WriteThenRead([command], payload.Length), old(periph.script)))
      ensures match Exchange(WriteThenRead([command], payload.Length), Answer(old(periph.script)))
        case Ok(d) => r == Ok(()) && payload[..] == d
        case Err(e) => r == Err(e) && payload[..] == old(payload[..])
    {
      var data := periph.Transaction(WriteThenRead([command], payload.Length));
      if data.Err? {
        return Err(data.error);
      }
      CopyInto(payload, data.value);
      r := Ok(());
    }

    method WriteAddress(command: Byte, address: U32, payload: seq<Byte>) returns (r: Result<(), SpiError>)
      modifies periph
      ensures Replayed(periph, WriteAddressRun(command, address, payload, old(periph.script)))
      ensures r == WriteAddressRun(command, address, payload, old(periph.script)).result
    {
      var enable := periph.Transaction(Cmd(VOLATILE_SR_WRITE_ENABLE));
      if enable.Err? {
        return Err(enable.error);
      }
      var written := periph.Transaction([Write(AddressHeader(command, address)), Write(payload)]);
      if written.Err? {
        return Err(written.error);
      }
      r := Ok(());
    }

    method WriteData(command: Byte, payload: seq<Byte>) returns (r: Result<(), SpiError>)
      modifies periph
      ensures Replayed(periph, Unit(WriteDataOps(command, payload), old(periph.script)))
      ensures r == Unit(WriteDataOps(command, payload), old(periph.script)).result
    {
      var written := periph.Transaction(WriteDataOps(command, payload));
      if written.Err? {
        return Err(written.error);
      }
      r := Ok(());
    }

    /** `read_jedec_id`: three bytes after the JEDEC-ID opcode. */
    method ReadJedecId() returns (r: Result<seq<Byte>, SpiError>)
      modifies periph
      ensures Replayed(periph, Single(WriteThenRead([JEDEC_ID], 3), old(periph.script)))
      ensures r == Exchange(WriteThenRead([JEDEC_ID], 3), Answer(old(periph.script)))
      ensures r.Ok? ==> |r.value| == 3
    {
      var id := new Byte[3](_ => 0);
      var read := ReadRegister(JEDEC_ID, id);
      if read.Err? {
        return Err(read.error);
      }
      r := Ok(id[..]);
    }

    /** `read_unique_id`: the opcode and four dummy bytes, then eight bytes. */
    method ReadUniqueId() returns (r: Result<seq<Byte>, SpiError>)
      modifies periph
      ensures Replayed(periph, Single(WriteThenRead([READ_UNIQUE_ID, 0, 0, 0, 0], 8), old(periph.script)))
      ensures r == Exchange(WriteThenRead([READ_UNIQUE_ID, 0, 0, 0, 0], 8), Answer(old(periph.script)))
      ensures r.Ok? ==> |r.value| == 8
    {
      r := periph.Transaction(WriteThenRead([READ_UNIQUE_ID, 0, 0, 0, 0], 8));
    }

    /** `read_status_register`: the register's read opcode, one byte back;
        the fields carried by `register` are ignored. */
    method ReadStatusRegister(register: SR) returns (r: Result<Byte, SpiError>)
      modifies periph
      ensures Replayed(periph, StatusRun(register, old(periph.script)))
      ensures r == StatusRun(register, old(periph.script)).result
    {
      var status := new Byte[1](_ => 0);
      FirstReadByte(WriteThenRead([StatusReadOpcode(register)], 1), Answer(periph.script));
      var read := ReadRegister(StatusReadOpcode(register), status);
      if read.Err? {
        return Err(read.error);
      }
      r := Ok(status[0]);
    }

    /** `write_status_register`: only the writable bits of `register` are
        sent (see `WritableSR1`..`WritableSR3`). */
    method WriteStatusRegister(register: SR) returns (r: Result<(), SpiError>)
      modifies periph
      ensures Replayed(periph, WriteStatusRun(register, old(periph.script)))
      ensures r == WriteStatusRun(register, old(periph.script)).result
    {
      var (command, value) := StatusWrite(register);
      var enable := WriteEnable();
      if enable.Err? {
        return Err(enable.error);
      }
      r := WriteDataAndWait(command, [value]);
    }

    method WriteEnable() returns (r: Result<(), SpiError>)
      modifies periph
      ensures Replayed(periph, Unit(Cmd(WRITE_ENABLE), old(periph.script)))
      ensures r == Unit(Cmd(WRITE_ENABLE), old(periph.script)).result
    {
      r := Command(WRITE_ENABLE);
    }

    method WriteDisable() returns (r: Result<(), SpiError>)
      modifies periph
      ensures Replayed(periph, Unit(Cmd(WRITE_DISABLE), old(periph.script)))
      ensures r == Unit(Cmd(WRITE_DISABLE), old(periph.script)).result
    {
      r := Command(WRITE_DISABLE);
    }

    /** A transaction of one opcode, its result passed on. */
    method Command(opcode: Byte) returns (r: Result<(), SpiError>)
      modifies periph
      ensures Replayed(periph, Unit(Cmd(opcode), old(periph.script)))
      ensures r == Unit(Cmd(opcode), old(periph.script)).result
    {
      var sent := periph.Transaction(Cmd(opcode));
      r := if sent.Err? then Err(sent.error) else Ok(());
    }

    method ChipErase() returns (r: Result<(), SpiError>)
      modifies periph
      ensures Replayed(periph, ChipEraseRun(old(periph.script)))
      ensures r == ChipEraseRun(old(periph.script)).result
    {
      var enable := WriteEnable();
      if enable.Err? {
        return Err(enable.error);
      }
      r := CommandAndWait(CHIP_ERASE);
    }

    /** Write enable, `write_address(command, address, payload)`, wait until
        ready. */
    method Gated(command: Byte, address: U32, payload: seq<Byte>) returns (r: Result<(), SpiError>)
      modifies periph
      ensures Replayed(periph, GatedRun(command, address, payload, old(periph.script)))
      ensures r == GatedRun(command, address, payload, old(periph.script)).result
    {
      var enable := WriteEnable();
      if enable.Err? {
        return Err(enable.error);
      }
      r := WriteAddressAndWait(command, address, payload);
    }

    /** `write_address(..)?; wait_until_ready()`. */
    method WriteAddressAndWait(command: Byte, address: U32, payload: seq<Byte>) returns (r: Result<(), SpiError>)
      modifies periph
      ensures Replayed(periph, ThenPoll(WriteAddressRun(command, address, payload, old(periph.script))))
      ensures r == ThenPoll(WriteAddressRun(command, address, payload, old(periph.script))).result
    {
      var written := WriteAddress(command, address, payload);
      if written.Err? {
        return Err(written.error);
      }
      r := WaitUntilReady();
    }

    /** `write_data(..)?; wait_until_ready()`. */
    method WriteDataAndWait(command: Byte, payload: seq<Byte>) returns (r: Result<(), SpiError>)
      modifies periph
      ensures Replayed(periph, ThenPoll(Unit(WriteDataOps(command, payload), old(periph.script))))
      ensures r == ThenPoll(Unit(WriteDataOps(command, payload), old(periph.script))).result
    {
      var written := WriteData(command, payload);
      if written.Err? {
        return Err(written.error);
      }
      r := WaitUntilReady();
    }

    /** A one-opcode transaction, then `wait_until_ready`. */
    method CommandAndWait(opcode: Byte) returns (r: Result<(), SpiError>)
      modifies periph
      ensures Replayed(periph, ThenPoll(Unit(Cmd(opcode), old(periph.script))))
      ensures r == ThenPoll(Unit(Cmd(opcode), old(periph.script))).result
    {
      var sent := Command(opcode);
      if sent.Err? {
        return Err(sent.error);
      }
      r := WaitUntilReady();
    }

    method SectorErase(address: U32) returns (r: Result<(), SpiError>)
      modifies periph
      ensures Replayed(periph, GatedRun(SECTOR_ERASE, address, [], old(periph.script)))
      ensures r == GatedRun(SECTOR_ERASE, address, [], old(periph.script)).result
    {
      r := Gated(SECTOR_ERASE, address, []);
    }

    method BlockErase32Kb(address: U32) returns (r: Result<(), SpiError>)
      modifies periph
      ensures Replayed(periph, GatedRun(BLOCK_ERASE_32KB, address, [], old(periph.script)))
      ensures r == GatedRun(BLOCK_ERASE_32KB, address, [], old(periph.script)).result
    {
      r := Gated(BLOCK_ERASE_32KB, address, []);
    }

    method BlockErase64Kb(address: U32) returns (r: Result<(), SpiError>)
      modifies periph
      ensures Replayed(periph, GatedRun(BLOCK_ERASE_64KB, address, [], old(periph.script)))
      ensures r == GatedRun(BLOCK_ERASE_64KB, address, [], old(periph.script)).result
    {
      r := Gated(BLOCK_ERASE_64KB, address, []);
    }

    /** `page_program`: the data goes out unchecked; the device wraps writes
        that cross a page boundary. */
    method PageProgram(address: U32, data: seq<Byte>) returns (r: Result<(), SpiError>)
      modifies periph
      ensures Replayed(periph, GatedRun(PAGE_PROGRAM, address, data, old(periph.script)))
      ensures r == GatedRun(PAGE_PROGRAM, address, data, old(periph.script)).result
    {
      r := Gated(PAGE_PROGRAM, address, data);
    }

    method ReadData(address: U32, data: array<Byte>) returns (r: Result<(), SpiError>)
      requires data as object != periph
      modifies periph, data
      ensures Replayed(periph, Single(AddressedReadOps(READ_DATA, address, data.Length), old(periph.script)))
      ensures match Exchange(AddressedReadOps(READ_DATA, address, data.Length), Answer(old(periph.script)))
        case Ok(d) => r == Ok(()) && data[..] == d
        case Err(e) => r == Err(e) && data[..] == old(data[..])
    {
      var read := ReadFromAddress(READ_DATA, address, data);
      r := if read.Err? then Err(read.error) else Ok(());
    }

    /** `fast_read`: the fast-read frame (with its dummy byte), then the data. */
    method FastRead(address: U32, data: array<Byte>) returns (r: Result<(), SpiError>)
      requires data as object != periph
      modifies periph, data
      ensures Replayed(periph, Single(WriteThenRead(FastReadFrame(address), data.Length), old(periph.script)))
      ensures match Exchange(WriteThenRead(FastReadFrame(address), data.Length), Answer(old(periph.script)))
        case Ok(d) => r == Ok(()) && data[..] == d
        case Err(e) => r == Err(e) && data[..] == old(data[..])
    {
      var read := periph.Transaction(WriteThenRead(FastReadFrame(address), data.Length));
      if read.Err? {
        return Err(read.error);
      }
      CopyInto(data, read.value);
      r := Ok(());
    }

    /** `fast_read_into_internal_buffer`: a page fills the buffer and the
        window becomes the whole buffer; on an error nothing but the bus
        changes. */
    method FastReadIntoInternalBuffer(address: U32) returns (r: Result<(), SpiError>)
      requires Valid()
      modifies periph, buffer, this`bufferStart, this`bufferEnd
      ensures Valid()
      ensures Replayed(periph, Single(WriteThenRead(FastReadFrame(address), PAGE_SIZE), old(periph.script)))
      ensures match Exchange(WriteThenRead(FastReadFrame(address), PAGE_SIZE), Answer(old(periph.script)))
        case Ok(d) => r == Ok(()) && buffer[..] == d && bufferStart == 0 && bufferEnd == PAGE_SIZE
        case Err(e) =>
          r == Err(e) && buffer[..] == old(buffer[..])
          && bufferStart == old(bufferStart) && bufferEnd == old(bufferEnd)
    {
      var read := periph.Transaction(WriteThenRead(FastReadFrame(address), buffer.Length));
      if read.Err? {
        return Err(read.error);
      }
      CopyInto(buffer, read.value);
      bufferStart := 0;
      bufferEnd := buffer.Length;
      r := Ok(());
    }

    method PowerDown() returns (r: Result<(), SpiError>)
      modifies periph
      ensures Replayed(periph, Unit(Cmd(POWER_DOWN), old(periph.script)))
      ensures r == Unit(Cmd(POWER_DOWN), old(periph.script)).result
    {
      r := Command(POWER_DOWN);
    }

    method ReleasePowerDown() returns (r: Result<(), SpiError>)
      modifies periph
      ensures Replayed(periph, Unit(Cmd(RELEASE_POWER_DOWN), old(periph.script)))
      ensures r == Unit(Cmd(RELEASE_POWER_DOWN), old(periph.script)).result
    {
      r := Command(RELEASE_POWER_DOWN);
    }

    method EraseSecurityRegister(address: U32) returns (r: Result<(), SpiError>)
      modifies periph
      ensures Replayed(periph, GatedRun(ERASE_SECURITY_REGISTER, address, [], old(periph.script)))
      ensures r == GatedRun(ERASE_SECURITY_REGISTER, address, [], old(periph.script)).result
    {
      r := Gated(ERASE_SECURITY_REGISTER, address, []);
    }

    method ProgramSecurityRegister(address: U32, data: seq<Byte>) returns (r: Result<(), SpiError>)
      modifies periph
      ensures Replayed(periph, GatedRun(PROGRAM_SECURITY_REGISTER, address, data, old(periph.script)))
      ensures r == GatedRun(PROGRAM_SECURITY_REGISTER, address, data, old(periph.script)).result
    {
      r := Gated(PROGRAM_SECURITY_REGISTER, address, data);
    }

    method ReadSecurityRegister(address: U32, data: array<Byte>) returns (r: Result<(), SpiError>)
      requires data as object != periph
      modifies periph, data
      ensures Replayed(periph, Single(AddressedReadOps(READ_SECURITY_REGISTER, address, data.Length), old(periph.script)))
      ensures match Exchange(AddressedReadOps(READ_SECURITY_REGISTER, address, data.Length), Answer(old(periph.script)))
        case Ok(d) => r == Ok(()) && data[..] == d
        case Err(e) => r == Err(e) && data[..] == old(data[..])
    {
      var read := ReadFromAddress(READ_SECURITY_REGISTER, address, data);
      r := if read.Err? then Err(read.error) else Ok(());
    }

    method GlobalBlockLock() returns (r: Result<(), SpiError>)
      modifies periph
      ensures Replayed(periph, LockedCommandRun(GLOBAL_BLOCK_LOCK, old(periph.script)))
      ensures r == LockedCommandRun(GLOBAL_BLOCK_LOCK, old(periph.script)).result
    {
      var enable := WriteEnable();
      if enable.Err? {
        return Err(enable.error);
      }
      r := Command(GLOBAL_BLOCK_LOCK);
    }

    method GlobalBlockUnlock() returns (r: Result<(), SpiError>)
      modifies periph
      ensures Replayed(periph, LockedCommandRun(GLOBAL_BLOCK_UNLOCK, old(periph.script)))
      ensures r == LockedCommandRun(GLOBAL_BLOCK_UNLOCK, old(periph.script)).result
    {
      var enable := WriteEnable();
      if enable.Err? {
        return Err(enable.error);
      }
      r := Command(GLOBAL_BLOCK_UNLOCK);
    }

    /** `read_block_lock`: one byte after the addressed opcode; bit 0 is the
        lock. */
    method ReadBlockLock(address: U32) returns (r: Result<bool, SpiError>)
      modifies periph
      ensures Replayed(periph, Single(AddressedReadOps(READ_BLOCK_LOCK, address, 1), old(periph.script)))
      ensures match StatusByte(Answer(old(periph.script)))
        case Ok(b) => r == Ok(b & 0x01 != 0)
        case Err(e) => r == Err(e)
    {
      var status := new Byte[1](_ => 0);
      var read := ReadFromAddress(READ_BLOCK_LOCK, address, status);
      if read.Err? {
        return Err(read.error);
      }
      r := Ok(status[0] & 0x01 != 0);
    }

    method IndividualBlockLock(address: U32) returns (r: Result<(), SpiError>)
      modifies periph
      ensures Replayed(periph, GatedRun(INDIVIDUAL_BLOCK_LOCK, address, [], old(periph.script)))
      ensures r == GatedRun(INDIVIDUAL_BLOCK_LOCK, address, [], old(periph.script)).result
    {
      r := Gated(INDIVIDUAL_BLOCK_LOCK, address, []);
    }

    method IndividualBlockUnlock(address: U32) returns (r: Result<(), SpiError>)
      modifies periph
      ensures Replayed(periph, GatedRun(INDIVIDUAL_BLOCK_UNLOCK, address, [], old(periph.script)))
      ensures r == GatedRun(INDIVIDUAL_BLOCK_UNLOCK, address, [], old(periph.script)).result
    {
      r := Gated(INDIVIDUAL_BLOCK_UNLOCK, address, []);
    }

    method EraseProgramSuspend() returns (r: Result<(), SpiError>)
      modifies periph
      ensures Replayed(periph, Unit(Cmd(ERASE_PROGRAM_SUSPEND), old(periph.script)))
      ensures r == Unit(Cmd(ERASE_PROGRAM_SUSPEND), old(periph.script)).result
    {
      r := Command(ERASE_PROGRAM_SUSPEND);
    }

    method EraseProgramResume() returns (r: Result<(), SpiError>)
      modifies periph
      ensures Replayed(periph, Unit(Cmd(ERASE_PROGRAM_RESUME), old(periph.script)))
      ensures r == Unit(Cmd(ERASE_PROGRAM_RESUME), old(periph.script)).result
    {
      r := Command(ERASE_PROGRAM_RESUME);
    }

    method ResetDevice() returns (r: Result<(), SpiError>)
      modifies periph
      ensures Replayed(periph, ResetRun(old(periph.script)))
      ensures r == ResetRun(old(periph.script)).result
    {
      var reset := periph.Transaction([Write([ENABLE_RESET]), Write([RESET_DEVICE])]);
      if reset.Err? {
        return Err(reset.error);
      }
      periph.DelayMs(30);
      r := Ok(());
    }

    /** `capacity`: the whole array, page count times page size. */
    function Capacity(): (c: U64)
      ensures c == PAGE_COUNT * PAGE_SIZE
    {
      TOTAL_SIZE
    }

    /** `wait_until_ready`. */
    method WaitUntilReady() returns (r: Result<(), SpiError>)
      modifies periph
      ensures Replayed(periph, PollRun(old(periph.script)))
      ensures r == PollRun(old(periph.script)).result
    {
      ghost var done: seq<Event> := [];
      while true
        invariant periph.log == old(periph.log) + done
        invariant PollRun(old(periph.script)) == Resumed(done, periph.script)
        decreases |periph.script|
      {
        ghost var before := periph.script;
        ghost var logged := periph.log;
        var status := ReadStatusRegister(Status1(SR1_DEFAULT));
        if status.Err? || status.value & 0x01 == 0 {
          PollStepDone(old(periph.log), done, before, status);
          r := if status.Err? then Err(status.error) else Ok(());
          return;
        }
        PollStepBusy(old(periph.log), done, before, status);
        periph.DelayMs(1);
        done := done + [Transact(POLL_OPS, Answer(before)), Delay(1)];
      }
    }
  }
}
