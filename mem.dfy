/** The older driver variant's memory operations: a `W25Q` over a
    `SpiInterface`, exposing the chip as a flat byte store with `read`,
    `write` (split at page boundaries) and `erase_sector` (expanded to
    sectors), plus the status and identification reads.

    As in `Device`, each operation has a specification function giving the
    run it performs against a reply script, and the methods are proved to
    perform exactly that run. */
module Mem {
  import opened Machine
  import opened Registers
  import opened StatusRegisters
  import opened Framing
  import opened Spi
  import opened Interface
  import opened Geometry

  // ------------------------------------------------------------ status

  /** A one-byte register read (`read_sr1` and friends) against `script`. */
  function RegisterByteRun(opcode: Byte, script: seq<Reply>): Run<Byte, Error> {
    var reply := Answer(script);
    Run([Transact(WriteThenRead([opcode], 1), reply)], Lift(StatusByte(reply)), Rest(script))
  }

  /** `write_enable` against `script`: read SR1, and send the write-enable
      opcode only if the latch reads clear. */
  function WriteEnableRun(script: seq<Reply>): Run<(), Error> {
    var status := RegisterByteRun(READ_STATUS_REGISTER_1, script);
    if status.result.Ok? && DecodeSR1(status.result.value).wel then Run(status.events, Ok(()), status.rest)
    else AndThen(status, WriteDataRun([WRITE_ENABLE], status.rest))
  }

  /** `write_enable` always reads SR1 first, and sends `[0x06]` (as a bare
      bus write) exactly when that read succeeds with bit 1 (`wel`) clear. */
  lemma WriteEnableOnlyWhenLatchClear(script: seq<Reply>)
    ensures var run := WriteEnableRun(script);
      run.events != [] && run.events[0] == Transact(WriteThenRead([READ_STATUS_REGISTER_1], 1), Answer(script))
      && (|run.events| == 2 <==> StatusByte(Answer(script)).Ok? && StatusByte(Answer(script)).value & 0x02 == 0)
      && |run.events| <= 2
      && (|run.events| == 2 ==> run.events[1] == BusWrite([WRITE_ENABLE], Answer(Rest(script))))
      && (StatusByte(Answer(script)).Err? ==> run.result == Err(Comm(StatusByte(Answer(script)).error)))
  {
  }

  // ------------------------------------------------------------ read

  /** `read(off, buf)` with `|buf| == n` against `script`. */
  function ReadRun(off: nat, n: nat, script: seq<Reply>): Run<nat, Error> {
    if off >= TOTAL_SIZE then Run([], Err(AddressSize), script)
    else
      var read := ReadFromAddrRun(READ_DATA, ToWord(off), ReadSize(off, n), script);
      Run(read.events, if read.result.Err? then Err(read.result.error) else Ok(ReadSize(off, n)), read.rest)
  }

  /** An offset past the chip fails before any bus traffic; otherwise one
      read transaction fetches `min(n, TOTAL_SIZE - off)` bytes at `off`, and
      that count is returned unless the bus fails. */
  lemma ReadClamped(off: nat, n: nat, script: seq<Reply>)
    ensures off >= TOTAL_SIZE ==> ReadRun(off, n, script) == Run([], Err(AddressSize), script)
    ensures off < TOTAL_SIZE ==>
      var run := ReadRun(off, n, script);
      run.events == [Transact(WriteThenRead(AddressHeader(READ_DATA, ToWord(off)), Min(n, TOTAL_SIZE - off)), Answer(script))]
      && (run.result.Ok? <==> Answer(script).Accept?)
      && (run.result.Ok? ==> run.result.value == Min(n, TOTAL_SIZE - off))
  {
  }

  // ------------------------------------------------------------ write

  /** The bytes of `data` the write loop programs at `offset`: what is left
      of the current page, or all of `data` if that is less. */
  function PageRoom(offset: nat, data: seq<Byte>): nat {
    Min(PAGE_SIZE - offset % PAGE_SIZE, |data|)
  }

  /** The page-split loop of `write`, from a state where `done` has been
      logged, the current offset is `offset` and `left` is the data left:
      program the part of `left` that fits in the current page, then go on
      from the next page, stopping at the first failure. */
  function ProgramLoop(done: seq<Event>, offset: nat, left: seq<Byte>, script: seq<Reply>): Run<(), Error>
    decreases |left|
  {
    if left == [] then Run(done, Ok(()), script)
    else
      var size := PageRoom(offset, left);
      var first := WriteAddrRun(PAGE_PROGRAM, ToWord(offset), left[..size], script);
      if first.result.Err? then Run(done + first.events, Err(first.result.error), first.rest)
      else ProgramLoop(done + first.events, offset + size, left[size..], first.rest)
  }

  /** One pass of the write loop as the method takes it: the program
      command of the first chunk, then either its failure or the rest of
      the loop. */
  lemma ProgramStep(base: seq<Event>, logged: seq<Event>, offset: nat, left: seq<Byte>, size: nat, script: seq<Reply>)
    requires left != [] && size == PageRoom(offset, left)
    ensures var first := WriteAddrRun(PAGE_PROGRAM, ToWord(offset), left[..size], script);
      (base + logged) + first.events == base + (logged + first.events)
      && ProgramLoop(logged, offset, left, script)
         == if first.result.Err? then Run(logged + first.events, Err(first.result.error), first.rest)
            else ProgramLoop(logged + first.events, offset + size, left[size..], first.rest)
  {
  }

  /** `write(off, data)` against `script`: write enable, the bounds check,
      then the page-split loop. */
  function WriteRun(off: nat, data: seq<Byte>, script: seq<Reply>): Run<nat, Error> {
    var enable := WriteEnableRun(script);
    if enable.result.Err? then Run(enable.events, Err(enable.result.error), enable.rest)
    else if off >= TOTAL_SIZE then Run(enable.events, Err(AddressSize), enable.rest)
    else
      var program := ProgramLoop(enable.events, off, data, enable.rest);
      Run(program.events, if program.result.Err? then Err(program.result.error) else Ok(|data|), program.rest)
  }

  /** The loop from a state with `done` logged logs `done`, then what the
      loop logs from a state with nothing logged. */
  lemma {:induction false} ProgramLoopShift(done: seq<Event>, offset: nat, left: seq<Byte>, script: seq<Reply>)
    ensures ProgramLoop(done, offset, left, script) == Continued(done, ProgramLoop([], offset, left, script))
    decreases |left|
  {
    if left == [] {
      assert done + [] == done;
    } else {
      var size := PageRoom(offset, left);
      var first := WriteAddrRun(PAGE_PROGRAM, ToWord(offset), left[..size], script);
      if first.result.Err? {
        ProgramFirstFails(done, offset, left, size, script);
      } else {
        ProgramLoopShift(done + first.events, offset + size, left[size..], first.rest);
        ProgramLoopShift(first.events, offset + size, left[size..], first.rest);
        ProgramFirstSucceeds(done, offset, left, size, script);
      }
    }
  }

  /** A failing first program command ends the loop, whatever was logged
      before it. */
  lemma ProgramFirstFails(done: seq<Event>, offset: nat, left: seq<Byte>, size: nat, script: seq<Reply>)
    requires left != [] && size == PageRoom(offset, left)
    requires WriteAddrRun(PAGE_PROGRAM, ToWord(offset), left[..size], script).result.Err?
    ensures ProgramLoop(done, offset, left, script) == Continued(done, ProgramLoop([], offset, left, script))
  {
    var first := WriteAddrRun(PAGE_PROGRAM, ToWord(offset), left[..size], script);
    assert [] + first.events == first.events;
  }

  /** A successful first program command: the loop goes on from both
      starting logs, and the shifted tails line up. */
  lemma ProgramFirstSucceeds(done: seq<Event>, offset: nat, left: seq<Byte>, size: nat, script: seq<Reply>)
    requires left != [] && size == PageRoom(offset, left)
    requires var first := WriteAddrRun(PAGE_PROGRAM, ToWord(offset), left[..size], script);
      first.result.Ok?
      && ProgramLoop(done + first.events, offset + size, left[size..], first.rest)
         == Continued(done + first.events, ProgramLoop([], offset + size, left[size..], first.rest))
      && ProgramLoop(first.events, offset + size, left[size..], first.rest)
         == Continued(first.events, ProgramLoop([], offset + size, left[size..], first.rest))
    ensures ProgramLoop(done, offset, left, script) == Continued(done, ProgramLoop([], offset, left, script))
  {
    var first := WriteAddrRun(PAGE_PROGRAM, ToWord(offset), left[..size], script);
    assert [] + first.events == first.events;
    var tail := ProgramLoop([], offset + size, left[size..], first.rest);
    assert done + (first.events + tail.events) == (done + first.events) + tail.events;
    assert ProgramLoop([], offset, left, script) == ProgramLoop(first.events, offset + size, left[size..], first.rest);
  }

  /** Event `e` is the page-program transaction of chunk `c`. */
  predicate Programs(e: Event, c: Chunk) {
    e.Transact? && e.ops == WriteAddrOps(PAGE_PROGRAM, ToWord(c.offset), c.bytes)
  }

  /** `events` are the page-program transactions of `cs`, one each, in order. */
  predicate ProgramsEach(events: seq<Event>, cs: seq<Chunk>) {
    |events| == |cs| && forall i :: 0 <= i < |cs| ==> Programs(events[i], cs[i])
  }

  /** A successful write loop logs one transaction per page chunk of the
      data (see `PageChunks`: within one page each, contiguous,
      concatenating to the data), programming that chunk at its offset, and
      nothing else: no status polls between pages. */
  lemma {:induction false} ProgramLoopOk(offset: nat, left: seq<Byte>, script: seq<Reply>)
    requires ProgramLoop([], offset, left, script).result.Ok?
    ensures ProgramsEach(ProgramLoop([], offset, left, script).events, PageChunks(offset, left))
    decreases |left|
  {
    if left != [] {
      var size := PageRoom(offset, left);
      var first := WriteAddrRun(PAGE_PROGRAM, ToWord(offset), left[..size], script);
      ProgramLoopStep(offset, left, script);
      ProgramLoopOk(offset + size, left[size..], first.rest);
      PageChunksStep(offset, left);
      ProgramsCons(first.events, ProgramLoop([], offset + size, left[size..], first.rest).events,
        Chunk(offset, left[..size]), PageChunks(offset + size, left[size..]));
    }
  }

  /** `PageChunks` on non-empty data: the first chunk, then the chunks of
      the rest. */
  lemma PageChunksStep(offset: nat, left: seq<Byte>)
    requires left != []
    ensures PageChunks(offset, left)
      == [Chunk(offset, left[..PageRoom(offset, left)])] + PageChunks(offset + PageRoom(offset, left), left[PageRoom(offset, left)..])
  {
  }

  /** Prepending a programmed chunk keeps events and chunks paired up. */
  lemma ProgramsCons(first: seq<Event>, tail: seq<Event>, c: Chunk, rest: seq<Chunk>)
    requires |first| == 1 && Programs(first[0], c)
    requires ProgramsEach(tail, rest)
    ensures ProgramsEach(first + tail, [c] + rest)
  {
    forall i | 0 <= i < |[c] + rest|
      ensures Programs((first + tail)[i], ([c] + rest)[i])
    {
      if i > 0 {
        assert (first + tail)[i] == tail[i - 1] && ([c] + rest)[i] == rest[i - 1];
      }
    }
  }

  /** One successful step of the write loop: it programs the first chunk,
      then goes on with the rest of the data. */
  lemma ProgramLoopStep(offset: nat, left: seq<Byte>, script: seq<Reply>)
    requires left != [] && ProgramLoop([], offset, left, script).result.Ok?
    ensures var size := PageRoom(offset, left);
      var first := WriteAddrRun(PAGE_PROGRAM, ToWord(offset), left[..size], script);
      first.result.Ok? && |first.events| == 1 && Programs(first.events[0], Chunk(offset, left[..size]))
      && ProgramLoop([], offset + size, left[size..], first.rest).result.Ok?
      && ProgramLoop([], offset, left, script).events
         == first.events + ProgramLoop([], offset + size, left[size..], first.rest).events
  {
    var size := PageRoom(offset, left);
    var first := WriteAddrRun(PAGE_PROGRAM, ToWord(offset), left[..size], script);
    assert [] + first.events == first.events;
    assert ProgramLoop([], offset, left, script) == ProgramLoop(first.events, offset + size, left[size..], first.rest);
    ProgramLoopShift(first.events, offset + size, left[size..], first.rest);
  }

  /** `write` returns `|data|` on success, after the write enable's events
      and one page program per page chunk. It enables writing before it
      checks the offset: an offset past the chip still reads SR1 before
      failing with `AddressSize`. */
  lemma WriteOutcome(off: nat, data: seq<Byte>, script: seq<Reply>)
    ensures var run := WriteRun(off, data, script);
      var enable := WriteEnableRun(script);
      (run.result.Ok? ==>
        run.result.value == |data| && off < TOTAL_SIZE
        && |enable.events| <= |run.events|
        && run.events[..|enable.events|] == enable.events
        && ProgramsEach(run.events[|enable.events|..], PageChunks(off, data)))
      && (off >= TOTAL_SIZE && enable.result.Ok? ==>
        run.result == Err(AddressSize) && run.events == enable.events
        && run.events[0] == Transact(WriteThenRead([READ_STATUS_REGISTER_1], 1), Answer(script)))
  {
    WriteEnableOnlyWhenLatchClear(script);
    if WriteRun(off, data, script).result.Ok? {
      var enable := WriteEnableRun(script);
      var loop := ProgramLoop(enable.events, off, data, enable.rest);
      assert WriteRun(off, data, script) == Run(loop.events, Ok(|data|), loop.rest);
      ProgramLoopAfter(WriteRun(off, data, script).events, enable.events, off, data, enable.rest);
    }
  }

  /** A successful loop after `pre` was logged logs `pre`, then one program
      transaction per chunk. */
  lemma ProgramLoopAfter(events: seq<Event>, pre: seq<Event>, off: nat, data: seq<Byte>, script: seq<Reply>)
    requires ProgramLoop(pre, off, data, script).result.Ok? && events == ProgramLoop(pre, off, data, script).events
    ensures |pre| <= |events| && events[..|pre|] == pre
    ensures ProgramsEach(events[|pre|..], PageChunks(off, data))
  {
    ProgramLoopShift(pre, off, data, script);
    ProgramLoopOk(off, data, script);
    var tail := ProgramLoop([], off, data, script).events;
    assert events == pre + tail;
    assert events[..|pre|] == pre && events[|pre|..] == tail;
  }

  // ------------------------------------------------------------ erase

  /** The sector-erase commands of `erase_sector`'s `for` loop, from a state
      where `done` has been logged and `sector` is the next index, stopping
      at the first failure. */
  function EraseLoop(done: seq<Event>, sector: nat, end: nat, script: seq<Reply>): Run<(), Error>
    decreases end - sector
  {
    if sector >= end then Run(done, Ok(()), script)
    else
      var first := WriteAddrRun(SECTOR_ERASE, ToWord(sector * SECTOR_SIZE), [], script);
      if first.result.Err? then Run(done + first.events, Err(first.result.error), first.rest)
      else EraseLoop(done + first.events, sector + 1, end, first.rest)
  }

  /** The busy poll after the erase commands, from a state where `done` has
      been logged: wait 45 ms, read SR1, and go again while it reports busy. */
  function ErasePoll(done: seq<Event>, script: seq<Reply>): Run<(), Error>
    decreases |script|
  {
    var status := RegisterByteRun(READ_STATUS_REGISTER_1, script);
    var events := done + [Delay(45)] + status.events;
    if status.result.Ok? && DecodeSR1(status.result.value).busy then ErasePoll(events, status.rest)
    else Run(events, if status.result.Err? then Err(status.result.error) else Ok(()), status.rest)
  }

  /** One pass of the erase loop as the method takes it. */
  lemma EraseStep(base: seq<Event>, logged: seq<Event>, sector: nat, end: nat, script: seq<Reply>)
    requires sector < end
    ensures var first := WriteAddrRun(SECTOR_ERASE, ToWord(sector * SECTOR_SIZE), [], script);
      (base + logged) + first.events == base + (logged + first.events)
      && EraseLoop(logged, sector, end, script)
         == if first.result.Err? then Run(logged + first.events, Err(first.result.error), first.rest)
            else EraseLoop(logged + first.events, sector + 1, end, first.rest)
  {
  }

  /** One pass of the erase poll as the method takes it. */
  lemma ErasePollStep(base: seq<Event>, logged: seq<Event>, script: seq<Reply>)
    ensures var status := RegisterByteRun(READ_STATUS_REGISTER_1, script);
      var events := logged + [Delay(45)] + status.events;
      (base + logged) + [Delay(45)] + status.events == base + events
      && ErasePoll(logged, script)
         == if status.result.Ok? && DecodeSR1(status.result.value).busy then ErasePoll(events, status.rest)
            else Run(events, if status.result.Err? then Err(status.result.error) else Ok(()), status.rest)
  {
  }

  /** `erase_sector(off, len)` against `script`. */
  function EraseSectorRun(off: nat, len: nat, script: seq<Reply>): Run<nat, Error> {
    var enable := WriteEnableRun(script);
    if enable.result.Err? then Run(enable.events, Err(enable.result.error), enable.rest)
    else if off >= TOTAL_SIZE || len >= TOTAL_SIZE then Run(enable.events, Err(AddressSize), enable.rest)
    else
      var erase := EraseLoop(enable.events, EraseStart(off), EraseEnd(off, len), enable.rest);
      if erase.result.Err? then Run(erase.events, Err(erase.result.error), erase.rest)
      else
        var poll := ErasePoll(erase.events, erase.rest);
        Run(poll.events, if poll.result.Err? then Err(poll.result.error) else Ok((EraseEnd(off, len) - EraseStart(off)) * SECTOR_SIZE), poll.rest)
  }

  /** `EraseSectorRun` once the write enable has succeeded and the bounds
      check has passed, for the sector range the method computes. */
  lemma EraseSectorShape(off: nat, len: nat, script: seq<Reply>, start: nat, end: nat)
    requires WriteEnableRun(script).result.Ok? && off < TOTAL_SIZE && len < TOTAL_SIZE
    requires start == EraseStart(off) && end == EraseEnd(off, len)
    ensures var enable := WriteEnableRun(script);
      var erase := EraseLoop(enable.events, start, end, enable.rest);
      erase.result.Err? ==> EraseSectorRun(off, len, script) == Run(erase.events, Err(erase.result.error), erase.rest)
    ensures var enable := WriteEnableRun(script);
      var erase := EraseLoop(enable.events, start, end, enable.rest);
      var poll := ErasePoll(erase.events, erase.rest);
      erase.result.Ok? ==>
        EraseSectorRun(off, len, script)
        == Run(poll.events, if poll.result.Err? then Err(poll.result.error) else Ok((end - start) * SECTOR_SIZE), poll.rest)
  {
  }

  /** The erase loop from a state with `done` logged logs `done`, then what
      the loop logs from a state with nothing logged. */
  lemma {:induction false} EraseLoopShift(done: seq<Event>, sector: nat, end: nat, script: seq<Reply>)
    ensures EraseLoop(done, sector, end, script) == Continued(done, EraseLoop([], sector, end, script))
    decreases end - sector
  {
    if sector < end {
      var first := WriteAddrRun(SECTOR_ERASE, ToWord(sector * SECTOR_SIZE), [], script);
      assert [] + first.events == first.events;
      if first.result.Ok? {
        EraseLoopShift(done + first.events, sector + 1, end, first.rest);
        EraseLoopShift(first.events, sector + 1, end, first.rest);
        var tail := EraseLoop([], sector + 1, end, first.rest);
        assert done + (first.events + tail.events) == (done + first.events) + tail.events;
      }
    }
  }

  /** Event `e` is the erase command of sector index `sector`. */
  predicate ErasesSector(e: Event, sector: nat) {
    e.Transact? && e.ops == WriteAddrOps(SECTOR_ERASE, ToWord(sector * SECTOR_SIZE), [])
  }

  /** `events` erase the sectors `sector`, `sector + 1`, ... in order. */
  predicate ErasesFrom(events: seq<Event>, sector: nat) {
    forall k :: 0 <= k < |events| ==> ErasesSector(events[k], sector + k)
  }

  /** A successful erase loop logs one sector-erase command per index, at
      address `index * 4096` with an empty payload. */
  lemma {:induction false} EraseLoopOk(sector: nat, end: nat, script: seq<Reply>)
    requires sector <= end && EraseLoop([], sector, end, script).result.Ok?
    ensures |EraseLoop([], sector, end, script).events| == end - sector
    ensures ErasesFrom(EraseLoop([], sector, end, script).events, sector)
    decreases end - sector
  {
    if sector < end {
      var first := WriteAddrRun(SECTOR_ERASE, ToWord(sector * SECTOR_SIZE), [], script);
      EraseLoopStep(sector, end, script);
      EraseLoopOk(sector + 1, end, first.rest);
      ErasesCons(first.events, EraseLoop([], sector + 1, end, first.rest).events, sector);
    }
  }

  /** One successful step of the erase loop: it erases `sector`, then goes
      on with the next index. */
  lemma EraseLoopStep(sector: nat, end: nat, script: seq<Reply>)
    requires sector < end && EraseLoop([], sector, end, script).result.Ok?
    ensures var first := WriteAddrRun(SECTOR_ERASE, ToWord(sector * SECTOR_SIZE), [], script);
      first.result.Ok? && |first.events| == 1 && ErasesSector(first.events[0], sector)
      && EraseLoop([], sector + 1, end, first.rest).result.Ok?
      && EraseLoop([], sector, end, script).events == first.events + EraseLoop([], sector + 1, end, first.rest).events
  {
    var first := WriteAddrRun(SECTOR_ERASE, ToWord(sector * SECTOR_SIZE), [], script);
    assert [] + first.events == first.events;
    assert EraseLoop([], sector, end, script) == EraseLoop(first.events, sector + 1, end, first.rest);
    EraseLoopShift(first.events, sector + 1, end, first.rest);
  }

  /** Prepending the erase of `sector` to erases from `sector + 1`. */
  lemma ErasesCons(first: seq<Event>, tail: seq<Event>, sector: nat)
    requires |first| == 1 && ErasesSector(first[0], sector) && ErasesFrom(tail, sector + 1)
    ensures ErasesFrom(first + tail, sector)
  {
    forall k | 0 <= k < |first + tail|
      ensures ErasesSector((first + tail)[k], sector + k)
    {
      if k > 0 {
        assert (first + tail)[k] == tail[k - 1] && sector + 1 + (k - 1) == sector + k;
      }
    }
  }

  /** If the last sector's address fails the 24-bit check, the erase loop
      cannot succeed. */
  lemma {:induction false} EraseLoopFailsAtLast(done: seq<Event>, sector: nat, end: nat, script: seq<Reply>)
    requires sector < end && !Addressable(ToWord((end - 1) * SECTOR_SIZE))
    ensures EraseLoop(done, sector, end, script).result.Err?
    decreases end - sector
  {
    var first := WriteAddrRun(SECTOR_ERASE, ToWord(sector * SECTOR_SIZE), [], script);
    if sector + 1 == end {
      assert first.result == Err(AddressSize);
    } else if first.result.Ok? {
      EraseLoopFailsAtLast(done + first.events, sector + 1, end, first.rest);
    }
  }

  /** `events` ends with a 45 ms delay and an SR1 read whose busy bit is
      clear. */
  predicate IdleEnd(events: seq<Event>) {
    |events| >= 2 && events[|events| - 2] == Delay(45)
    && events[|events| - 1].Transact?
    && events[|events| - 1].ops == WriteThenRead([READ_STATUS_REGISTER_1], 1)
    && StatusByte(events[|events| - 1].reply).Ok?
    && StatusByte(events[|events| - 1].reply).value & 0x01 == 0
  }

  /** A successful poll ends with a 45 ms delay and an SR1 read whose busy
      bit is clear. */
  lemma {:induction false} ErasePollEndsIdle(done: seq<Event>, script: seq<Reply>)
    requires ErasePoll(done, script).result.Ok?
    ensures |ErasePoll(done, script).events| >= |done| + 2 && IdleEnd(ErasePoll(done, script).events)
    decreases |script|
  {
    var status := RegisterByteRun(READ_STATUS_REGISTER_1, script);
    var events := done + [Delay(45)] + status.events;
    if status.result.Ok? && DecodeSR1(status.result.value).busy {
      ErasePollEndsIdle(events, status.rest);
    }
  }

  /** The erase poll keeps what was logged before it. */
  lemma {:induction false} ErasePollPrefix(done: seq<Event>, script: seq<Reply>)
    ensures |done| <= |ErasePoll(done, script).events|
    ensures ErasePoll(done, script).events[..|done|] == done
    decreases |script|
  {
    var status := RegisterByteRun(READ_STATUS_REGISTER_1, script);
    var events := done + [Delay(45)] + status.events;
    assert events[..|done|] == done;
    if status.result.Ok? && DecodeSR1(status.result.value).busy {
      ErasePollPrefix(events, status.rest);
      var all := ErasePoll(events, status.rest).events;
      assert all[..|done|] == all[..|events|][..|done|];
    }
  }

  /** An SR1 reply that reads BUSY. */
  predicate BusyStatus(reply: Reply) {
    StatusByte(reply).Ok? && DecodeSR1(StatusByte(reply).value).busy
  }

  /** The erase poll logs the same events after any prefix. */
  lemma {:induction false} ErasePollShift(done: seq<Event>, script: seq<Reply>)
    ensures ErasePoll(done, script).events == done + ErasePoll([], script).events
    ensures ErasePoll(done, script).result == ErasePoll([], script).result
    ensures ErasePoll(done, script).rest == ErasePoll([], script).rest
    decreases |script|
  {
    var status := RegisterByteRun(READ_STATUS_REGISTER_1, script);
    if status.result.Ok? && DecodeSR1(status.result.value).busy {
      var step := [Delay(45)] + status.events;
      ErasePollShift(done + step, status.rest);
      ErasePollShift([] + step, status.rest);
      assert done + [Delay(45)] + status.events == done + step;
      assert [] + [Delay(45)] + status.events == [] + step;
    }
  }

  /** One round of the erase poll: a 45 ms delay and an SR1 read. */
  function PollPair(reply: Reply): seq<Event> {
    [Delay(45), Transact(WriteThenRead([READ_STATUS_REGISTER_1], 1), reply)]
  }

  /** One step of the erase poll: after the first pair, a BUSY read polls
      again on the rest of the script; any other read ends the poll. */
  lemma ErasePollRound(done: seq<Event>, script: seq<Reply>)
    ensures BusyStatus(Answer(script)) ==>
      ErasePoll(done, script) == ErasePoll(done + PollPair(Answer(script)), Rest(script))
    ensures !BusyStatus(Answer(script)) ==>
      ErasePoll(done, script) == Run(done + PollPair(Answer(script)),
        if StatusByte(Answer(script)).Err? then Err(Comm(StatusByte(Answer(script)).error)) else Ok(()),
        Rest(script))
  {
    assert done + [Delay(45)] + RegisterByteRun(READ_STATUS_REGISTER_1, script).events == done + PollPair(Answer(script));
  }

  /** From index `at` on, `events` holds `n` poll pairs. */
  predicate PollPairsAt(events: seq<Event>, at: nat, n: nat) {
    at + 2 * n <= |events|
    && forall k :: 0 <= k < n ==>
      events[at + 2 * k] == Delay(45)
      && events[at + 2 * k + 1].Transact?
      && events[at + 2 * k + 1].ops == WriteThenRead([READ_STATUS_REGISTER_1], 1)
  }

  /** From index `at` on, the first `n` poll reads of `events` read BUSY. */
  predicate BusyReadsAt(events: seq<Event>, at: nat, n: nat)
    requires PollPairsAt(events, at, n)
  {
    forall k :: 0 <= k < n ==> BusyStatus(events[at + 2 * k + 1].reply)
  }

  /** A pair in front of `n` pairs makes `n + 1` pairs. */
  lemma ErasePairsCons(events: seq<Event>, at: nat, n: nat, reply: Reply)
    requires at + 2 <= |events| && events[at..at + 2] == PollPair(reply)
    requires PollPairsAt(events, at + 2, n)
    ensures PollPairsAt(events, at, n + 1)
    ensures BusyStatus(reply) && BusyReadsAt(events, at + 2, n) ==> BusyReadsAt(events, at, n + 1)
  {
    assert events[at] == events[at..at + 2][0] && events[at + 1] == events[at..at + 2][1];
    forall k | 0 <= k < n + 1
      ensures events[at + 2 * k] == Delay(45)
      ensures events[at + 2 * k + 1].Transact?
      ensures events[at + 2 * k + 1].ops == WriteThenRead([READ_STATUS_REGISTER_1], 1)
    {
      if k > 0 {
        assert at + 2 * k == (at + 2) + 2 * (k - 1);
      }
    }
    if BusyStatus(reply) && BusyReadsAt(events, at + 2, n) {
      forall k | 0 <= k < n + 1
        ensures BusyStatus(events[at + 2 * k + 1].reply)
      {
        if k > 0 {
          assert at + 2 * k + 1 == (at + 2) + 2 * (k - 1) + 1;
        }
      }
    }
  }

  /** `events` is `done` followed by poll pairs, every read but the last
      reading BUSY. */
  predicate PollLog(events: seq<Event>, done: seq<Event>) {
    var pairs := (|events| - |done|) / 2;
    |done| + 2 <= |events| && (|events| - |done|) % 2 == 0 && events[..|done|] == done
    && PollPairsAt(events, |done|, pairs) && BusyReadsAt(events, |done|, pairs - 1)
  }

  /** A single pair is a poll log. */
  lemma PollLogLast(done: seq<Event>, reply: Reply)
    ensures PollLog(done + PollPair(reply), done)
  {
    var events := done + PollPair(reply);
    assert events[|done|..|done| + 2] == PollPair(reply);
    ErasePairsCons(events, |done|, 0, reply);
  }

  /** A busy pair in front of a poll log is a poll log. */
  lemma PollLogCons(events: seq<Event>, done: seq<Event>, reply: Reply)
    requires BusyStatus(reply) && PollLog(events, done + PollPair(reply))
    ensures PollLog(events, done)
  {
    var next := done + PollPair(reply);
    assert events[..|done|] == events[..|next|][..|done|];
    assert events[|done|..|next|] == events[..|next|][|done|..];
    var m := (|events| - |next|) / 2;
    assert (|events| - |done|) / 2 == m + 1;
    ErasePairsCons(events, |done|, m, reply);
    PollPairsFewer(events, |next|, m, m - 1);
    ErasePairsCons(events, |done|, m - 1, reply);
  }

  /** Fewer pairs than a run of pairs is a run of pairs. */
  lemma PollPairsFewer(events: seq<Event>, at: nat, n: nat, fewer: nat)
    requires PollPairsAt(events, at, n) && fewer <= n
    ensures PollPairsAt(events, at, fewer)
  {
  }

  /** Whatever the replies, the erase poll appends pairs of a 45 ms delay
      and an SR1 read, and every read but the last reads BUSY. */
  lemma {:induction false} ErasePollShape(done: seq<Event>, script: seq<Reply>)
    ensures PollLog(ErasePoll(done, script).events, done)
    decreases |script|
  {
    ErasePollRound(done, script);
    if BusyStatus(Answer(script)) {
      ErasePollShape(done + PollPair(Answer(script)), Rest(script));
      PollLogCons(ErasePoll(done, script).events, done, Answer(script));
    } else {
      PollLogLast(done, Answer(script));
    }
  }

  /** The erase poll against a script whose first `i` replies read BUSY and
      whose next reply does not: `i` pairs of a 45 ms delay and a busy SR1
      read, then one delay and the final read; it fails exactly when that
      final read fails, and consumes `i + 1` replies. */
  lemma {:induction false} ErasePollSpec(done: seq<Event>, script: seq<Reply>, i: nat)
    requires i <= |script|
    requires forall j :: 0 <= j < i ==> BusyStatus(script[j])
    requires !BusyStatus(Answer(script[i..]))
    ensures ErasePoll(done, script).events == done + PollReplies(script[..i]) + PollPair(Answer(script[i..]))
    ensures ErasePoll(done, script).result ==
      if StatusByte(Answer(script[i..])).Err? then Err(Comm(StatusByte(Answer(script[i..])).error)) else Ok(())
    ensures ErasePoll(done, script).rest == Rest(script[i..])
    decreases i
  {
    ErasePollRound(done, script);
    if i > 0 {
      BusyTail(script, i);
      ErasePollSpec(done + PollPair(script[0]), script[1..], i - 1);
      PollRepliesStep(done, script, i, PollPair(Answer(script[i..])));
    } else {
      assert script[i..] == script;
    }
  }

  /** The first `i` replies read BUSY: so does the first, and the first
      `i - 1` of the rest. */
  lemma BusyTail(script: seq<Reply>, i: nat)
    requires 0 < i <= |script|
    requires forall j :: 0 <= j < i ==> BusyStatus(script[j])
    ensures BusyStatus(Answer(script)) && Rest(script) == script[1..] && script[0] == Answer(script)
    ensures forall j :: 0 <= j < i - 1 ==> BusyStatus(script[1..][j])
    ensures script[1..][i - 1..] == script[i..]
  {
    assert BusyStatus(script[0]);
    forall j | 0 <= j < i - 1
      ensures BusyStatus(script[1..][j])
    {
      assert script[1..][j] == script[j + 1];
    }
  }

  /** The pair of the first reply, then the pairs of the next `i - 1`, are
      the pairs of the first `i`. */
  lemma PollRepliesStep(done: seq<Event>, script: seq<Reply>, i: nat, last: seq<Event>)
    requires 0 < i <= |script|
    ensures (done + PollPair(script[0])) + PollReplies(script[1..][..i - 1]) + last
      == done + PollReplies(script[..i]) + last
  {
    assert script[..i] == [script[0]] + script[1..][..i - 1];
    PollRepliesCons(script[0], script[1..][..i - 1]);
  }

  /** A poll pair for each reply, in order. */
  function PollReplies(replies: seq<Reply>): (events: seq<Event>)
    ensures |events| == 2 * |replies|
  {
    if replies == [] then [] else PollPair(replies[0]) + PollReplies(replies[1..])
  }

  /** The `j`-th pair of `PollReplies` is the delay and the read that got
      the `j`-th reply. */
  lemma {:induction false} PollRepliesAt(replies: seq<Reply>, j: nat)
    requires j < |replies|
    ensures PollReplies(replies)[2 * j] == Delay(45)
    ensures PollReplies(replies)[2 * j + 1] == Transact(WriteThenRead([READ_STATUS_REGISTER_1], 1), replies[j])
    decreases j
  {
    if j > 0 {
      PollRepliesAt(replies[1..], j - 1);
      assert 2 * j == 2 + 2 * (j - 1);
    }
  }

  lemma PollRepliesCons(reply: Reply, replies: seq<Reply>)
    ensures PollReplies([reply] + replies) == PollPair(reply) + PollReplies(replies)
  {
    assert ([reply] + replies)[1..] == replies;
  }

  /** A successful `erase_sector` returns 4096 times the number of sector
      commands it sent: its log is the write enable's events, then one
      sector-erase command for each index from `off / 4096` up to
      `(min(off + len, TOTAL_SIZE) + 4096) / 4096`, exclusive, then the
      busy poll and nothing else: pairs of a 45 ms delay and an SR1 read,
      every read but the last reading BUSY and the last one idle. An offset
      or length of at least the chip size fails with `AddressSize`. */
  lemma EraseSectorOutcome(off: nat, len: nat, script: seq<Reply>)
    ensures var run := EraseSectorRun(off, len, script);
      (run.result.Ok? ==>
        off < TOTAL_SIZE && len < TOTAL_SIZE
        && EraseStart(off) < EraseEnd(off, len)
        && run.result.value == (EraseEnd(off, len) - EraseStart(off)) * SECTOR_SIZE)
      && ((off >= TOTAL_SIZE || len >= TOTAL_SIZE) && WriteEnableRun(script).result.Ok? ==>
        run.result == Err(AddressSize))
    ensures var run := EraseSectorRun(off, len, script);
      var enable := WriteEnableRun(script);
      run.result.Ok? ==>
        EraseLog(run.events, enable.events, EraseEnd(off, len) - EraseStart(off), EraseStart(off))
        && run.events[|enable.events| + (EraseEnd(off, len) - EraseStart(off))..]
           == ErasePoll([], EraseLoop([], EraseStart(off), EraseEnd(off, len), enable.rest).rest).events
  {
    if off < TOTAL_SIZE {
      EraseCovers(off, len);
    }
    if EraseSectorRun(off, len, script).result.Ok? {
      EraseSectorLogged(off, len, script);
      EraseSectorPollSuffix(off, len, script);
    }
  }

  /** The log half of `EraseSectorOutcome`. */
  lemma EraseSectorLogged(off: nat, len: nat, script: seq<Reply>)
    requires EraseSectorRun(off, len, script).result.Ok?
    ensures EraseLog(EraseSectorRun(off, len, script).events, WriteEnableRun(script).events,
      EraseEnd(off, len) - EraseStart(off), EraseStart(off))
  {
    EraseSectorParts(off, len, script);
    var enable := WriteEnableRun(script);
    var loop := EraseLoop([], EraseStart(off), EraseEnd(off, len), enable.rest);
    var n := EraseEnd(off, len) - EraseStart(off);
    assert EraseLog(ErasePoll(enable.events + loop.events, loop.rest).events, enable.events, n, EraseStart(off)) by {
      PollAfterCommands(enable.events, loop.events, n, loop.rest, EraseStart(off));
    }
  }

  /** What follows the sector-erase commands of a successful
      `erase_sector` is the log of the poll run on its own. */
  lemma EraseSectorPollSuffix(off: nat, len: nat, script: seq<Reply>)
    requires EraseSectorRun(off, len, script).result.Ok?
    ensures var enable := WriteEnableRun(script);
      var n := EraseEnd(off, len) - EraseStart(off);
      |enable.events| + n <= |EraseSectorRun(off, len, script).events|
      && EraseSectorRun(off, len, script).events[|enable.events| + n..]
         == ErasePoll([], EraseLoop([], EraseStart(off), EraseEnd(off, len), enable.rest).rest).events
  {
    EraseSectorParts(off, len, script);
    var enable := WriteEnableRun(script);
    var loop := EraseLoop([], EraseStart(off), EraseEnd(off, len), enable.rest);
    var n := EraseEnd(off, len) - EraseStart(off);
    var all := ErasePoll(enable.events + loop.events, loop.rest).events;
    assert |enable.events| + n <= |all| && all[|enable.events| + n..] == ErasePoll([], loop.rest).events by {
      ErasePollAfter(enable.events + loop.events, loop.rest);
      assert |enable.events + loop.events| == |enable.events| + n;
    }
  }

  /** The log of a successful `erase_sector`: the write enable's events
      `enable`, then `n` sector-erase commands from index `sector` on, then
      only poll pairs of a 45 ms delay and an SR1 read, every read but the
      last reading BUSY and the last one idle. */
  predicate EraseLog(events: seq<Event>, enable: seq<Event>, n: nat, sector: nat) {
    |enable| + n + 2 <= |events| && events[..|enable|] == enable
    && ErasesFrom(events[|enable|..|enable| + n], sector)
    && PollLog(events, events[..|enable| + n]) && IdleEnd(events)
  }

  /** A successful poll after `a` and then `n` sector-erase commands `b`
      makes an erase log. */
  lemma PollAfterCommands(a: seq<Event>, b: seq<Event>, n: nat, script: seq<Reply>, sector: nat)
    requires |b| == n && ErasesFrom(b, sector) && ErasePoll(a + b, script).result.Ok?
    ensures EraseLog(ErasePoll(a + b, script).events, a, n, sector)
  {
    var all := ErasePoll(a + b, script).events;
    ErasePollAfter(a + b, script);
    ErasePollPrefix(a + b, script);
    ErasePollEndsIdle(a + b, script);
    assert |a + b| == |a| + n;
    assert all[..|a|] == all[..|a + b|][..|a|];
    assert all[|a|..|a| + n] == all[..|a + b|][|a|..];
  }

  /** A successful `erase_sector` is the write enable, then the erase loop
      run on its own, then the poll after both; the loop sends exactly the
      sector-erase commands from `EraseStart(off)` on. */
  lemma EraseSectorParts(off: nat, len: nat, script: seq<Reply>)
    requires EraseSectorRun(off, len, script).result.Ok?
    ensures var enable := WriteEnableRun(script);
      var loop := EraseLoop([], EraseStart(off), EraseEnd(off, len), enable.rest);
      enable.result.Ok? && loop.result.Ok?
      && |loop.events| == EraseEnd(off, len) - EraseStart(off)
      && ErasesFrom(loop.events, EraseStart(off))
      && EraseSectorRun(off, len, script).events == ErasePoll(enable.events + loop.events, loop.rest).events
      && ErasePoll(enable.events + loop.events, loop.rest).result.Ok?
  {
    var enable := WriteEnableRun(script);
    var start, end := EraseStart(off), EraseEnd(off, len);
    EraseCovers(off, len);
    EraseLoopShift(enable.events, start, end, enable.rest);
    EraseLoopOk(start, end, enable.rest);
  }

  /** After `logged`, the erase poll's log is a poll log, and it is the log
      the poll makes on its own. */
  lemma ErasePollAfter(logged: seq<Event>, script: seq<Reply>)
    ensures var events := ErasePoll(logged, script).events;
      |logged| <= |events| && PollLog(events, events[..|logged|])
      && events[|logged|..] == ErasePoll([], script).events
  {
    ErasePollShape(logged, script);
    ErasePollShift(logged, script);
  }

  /** Every reply in `script` is accepted: a bus that never fails. */
  predicate AllAccept(script: seq<Reply>) {
    forall j :: 0 <= j < |script| ==> script[j].Accept?
  }

  /** A bus that never fails accepts the next exchange and keeps never
      failing. */
  lemma AllAcceptRest(script: seq<Reply>)
    requires AllAccept(script)
    ensures Answer(script).Accept? && AllAccept(Rest(script))
  {
    if script != [] {
      assert script[0].Accept?;
      forall j | 0 <= j < |Rest(script)|
        ensures Rest(script)[j].Accept?
      {
        assert Rest(script)[j] == script[j + 1];
      }
    }
  }

  /** On a bus that never fails, `write_enable` succeeds. */
  lemma WriteEnableAccepted(script: seq<Reply>)
    requires AllAccept(script)
    ensures WriteEnableRun(script).result.Ok? && AllAccept(WriteEnableRun(script).rest)
  {
    AllAcceptRest(script);
    AllAcceptRest(Rest(script));
  }

  /** On a bus that never fails, an erase loop that runs up to sector index
      4096 fails with `AddressSize` on that last index, whose address
      0x100_0000 fails the 24-bit check. */
  lemma {:induction false} EraseLoopRejectsChipEnd(done: seq<Event>, sector: nat, script: seq<Reply>)
    requires sector <= SECTOR_COUNT && AllAccept(script)
    ensures EraseLoop(done, sector, SECTOR_COUNT + 1, script).result == Err(AddressSize)
    decreases SECTOR_COUNT - sector
  {
    var first := WriteAddrRun(SECTOR_ERASE, ToWord(sector * SECTOR_SIZE), [], script);
    if sector == SECTOR_COUNT {
      assert ToWord(sector * SECTOR_SIZE) == 0x100_0000;
      assert first.result == Err(AddressSize);
    } else {
      assert sector * SECTOR_SIZE < 0x100_0000;
      assert ToWord(sector * SECTOR_SIZE) == sector * SECTOR_SIZE;
      AllAcceptRest(script);
      assert first.result == Ok(()) && first.rest == Rest(script);
      EraseLoopRejectsChipEnd(done + first.events, sector + 1, first.rest);
    }
  }

  /** An erase whose range reaches the end of the chip never succeeds: its
      last sector index is 4096, whose address 0x100_0000 fails the 24-bit
      check after the sectors before it have been erased. On a bus that
      never fails, that check is what ends it, with `AddressSize`. */
  lemma EraseAtChipEndFails(off: nat, len: nat, script: seq<Reply>)
    requires off < TOTAL_SIZE && len < TOTAL_SIZE && off + len >= TOTAL_SIZE
    ensures !EraseSectorRun(off, len, script).result.Ok?
    ensures AllAccept(script) ==> EraseSectorRun(off, len, script).result == Err(AddressSize)
  {
    EraseReachesPastChip(off, len);
    EraseCovers(off, len);
    assert EraseEnd(off, len) - 1 == SECTOR_COUNT;
    assert ToWord(SECTOR_COUNT * SECTOR_SIZE) == 0x100_0000;
    var enable := WriteEnableRun(script);
    if enable.result.Ok? {
      EraseLoopFailsAtLast(enable.events, EraseStart(off), EraseEnd(off, len), enable.rest);
    }
    if AllAccept(script) {
      WriteEnableAccepted(script);
      EraseLoopRejectsChipEnd(enable.events, EraseStart(off), enable.rest);
    }
  }

  /** `erase_sector(0, 4096)` returns 8192 when it succeeds: its loop runs
      over sector indices 0 and 1, which erase addresses 0 and 0x1000. */
  lemma EraseFirstSectorExample(script: seq<Reply>)
    ensures EraseSectorRun(0, 4096, script).result.Ok? ==> EraseSectorRun(0, 4096, script).result.value == 8192
    ensures EraseStart(0) == 0 && EraseEnd(0, 4096) == 2
    ensures EraseLoop([], 0, 2, script).result.Ok? ==>
      var events := EraseLoop([], 0, 2, script).events;
      |events| == 2
      && events[0].ops == WriteAddrOps(SECTOR_ERASE, 0, []) && events[1].ops == WriteAddrOps(SECTOR_ERASE, 0x1000, [])
  {
    EraseExamples();
    EraseSectorOutcome(0, 4096, script);
    if EraseLoop([], 0, 2, script).result.Ok? {
      EraseLoopOk(0, 2, script);
      assert ToWord((0 + 0) * SECTOR_SIZE) == 0 && ToWord((0 + 1) * SECTOR_SIZE) == 0x1000;
    }
  }

  // ------------------------------------------------------------ identification

  /** The two big-endian words `read_unique_id` assembles from bytes 4..8
      and 8..12 of its 12-byte read. */
  function UniqueIdWords(d: seq<Byte>): (w: (U32, U32))
    requires |d| == 12
    ensures BigEndian(w.0) == d[4..8] && BigEndian(w.1) == d[8..12]
  {
    var w := (BigEndianWord(d[4], d[5], d[6], d[7]), BigEndianWord(d[8], d[9], d[10], d[11]));
    BigEndianRoundTrip(w.0, d[4], d[5], d[6], d[7]);
    BigEndianRoundTrip(w.1, d[8], d[9], d[10], d[11]);
    w
  }

  // ------------------------------------------------------------ the driver

  /** The older `W25Q`: the interface (whose recorder also stands in for
      the delay provider). */
  class W25Q {
    const iface: SpiInterface

    constructor (iface: SpiInterface)
      ensures this.iface == iface
    {
      this.iface := iface;
    }

    /** `read_unique_id`: a 12-byte read after the bare opcode. */
    method ReadUniqueId() returns (r: Result<(U32, U32), Error>)
      modifies iface.spi
      ensures Replayed(iface.spi, ReadDataRun(READ_UNIQUE_ID, 12, old(iface.spi.script)))
      ensures match ReadDataRun(READ_UNIQUE_ID, 12, old(iface.spi.script)).result
        case Ok(d) => r == Ok(UniqueIdWords(d))
        case Err(e) => r == Err(e)
    {
      var data := new Byte[12](_ => 0xFF);
      var read := iface.ReadData(READ_UNIQUE_ID, data);
      if read.Err? {
        return Err(read.error);
      }
      r := Ok(UniqueIdWords(data[..]));
    }

    /** `read_jedec_id`: three bytes after the opcode. */
    method ReadJedecId() returns (r: Result<(Byte, Byte, Byte), Error>)
      modifies iface.spi
      ensures Replayed(iface.spi, ReadDataRun(JEDEC_ID, 3, old(iface.spi.script)))
      ensures match ReadDataRun(JEDEC_ID, 3, old(iface.spi.script)).result
        case Ok(d) => r == Ok((d[0], d[1], d[2]))
        case Err(e) => r == Err(e)
    {
      var data := new Byte[3](_ => 0xFF);
      var read := iface.ReadData(JEDEC_ID, data);
      if read.Err? {
        return Err(read.error);
      }
      r := Ok((data[0], data[1], data[2]));
    }

    /** `read_sfdp`: 256 bytes from SFDP address 0. */
    method ReadSfdp() returns (r: Result<seq<Byte>, Error>)
      modifies iface.spi
      ensures Replayed(iface.spi, ReadFromAddrRun(READ_SFDP_REGISTER, 0, 256, old(iface.spi.script)))
      ensures r == ReadFromAddrRun(READ_SFDP_REGISTER, 0, 256, old(iface.spi.script)).result
      ensures r.Ok? ==> |r.value| == 256
      ensures r.Err? ==> r.error.Comm?
    {
      var data := new Byte[256](_ => 0xFF);
      var read := iface.ReadFromAddr(READ_SFDP_REGISTER, 0, data);
      if read.Err? {
        return Err(read.error);
      }
      r := Ok(data[..]);
    }

    /** `write_enable`. */
    method WriteEnable() returns (r: Result<(), Error>)
      modifies iface.spi
      ensures Replayed(iface.spi, WriteEnableRun(old(iface.spi.script)))
      ensures r == WriteEnableRun(old(iface.spi.script)).result
    {
      var canWrite := CanWrite();
      if canWrite.Err? {
        return Err(canWrite.error);
      }
      if canWrite.value {
        return Ok(());
      }
      var written := iface.WriteData([WRITE_ENABLE]);
      if written.Err? {
        return Err(written.error);
      }
      r := Ok(());
    }

    /** `can_write`: the write-enable latch of SR1. */
    method CanWrite() returns (r: Result<bool, Error>)
      modifies iface.spi
      ensures Replayed(iface.spi, RegisterByteRun(READ_STATUS_REGISTER_1, old(iface.spi.script)))
      ensures match RegisterByteRun(READ_STATUS_REGISTER_1, old(iface.spi.script)).result
        case Ok(b) => r == Ok(DecodeSR1(b).wel)
        case Err(e) => r == Err(e)
    {
      var sr1 := ReadSr1();
      if sr1.Err? {
        return Err(sr1.error);
      }
      r := Ok(sr1.value.wel);
    }

    /** `read(off, buf)`: on success the first `min(|buf|, TOTAL_SIZE - off)`
        bytes of `buf` hold the data read and the rest is untouched; on any
        failure `buf` is untouched. */
    method Read(off: nat, buf: array<Byte>) returns (r: Result<nat, Error>)
      modifies iface.spi, buf
      ensures Replayed(iface.spi, ReadRun(off, buf.Length, old(iface.spi.script)))
      ensures r == ReadRun(off, buf.Length, old(iface.spi.script)).result
      ensures off >= TOTAL_SIZE ==> buf[..] == old(buf[..])
      ensures off < TOTAL_SIZE ==>
        match ReadFromAddrRun(READ_DATA, ToWord(off), ReadSize(off, buf.Length), old(iface.spi.script)).result
        case Ok(d) => buf[..|d|] == d && buf[|d|..] == old(buf[|d|..])
        case Err(_) => buf[..] == old(buf[..])
    {
      if off >= TOTAL_SIZE {
        return Err(AddressSize);
      }
      var maxPossible := TOTAL_SIZE - off;
      var readSize := Min(buf.Length, maxPossible);
      var window := new Byte[readSize](i reads buf requires 0 <= i < readSize => buf[i]);
      var read := iface.ReadFromAddr(READ_DATA, ToWord(off), window);
      if read.Err? {
        return Err(read.error);
      }
      forall i | 0 <= i < readSize {
        buf[i] := window[i];
      }
      assert buf[..readSize] == window[..];
      r := Ok(readSize);
    }

    /** `write(off, data)`. */
    method Write(off: nat, data: seq<Byte>) returns (r: Result<nat, Error>)
      modifies iface.spi
      ensures Replayed(iface.spi, WriteRun(off, data, old(iface.spi.script)))
      ensures r == WriteRun(off, data, old(iface.spi.script)).result
    {
      var enable := WriteEnable();
      if enable.Err? {
        return Err(enable.error);
      }
      if off >= TOTAL_SIZE {
        return Err(AddressSize);
      }
      r := ProgramPages(old(iface.spi.log), WriteEnableRun(old(iface.spi.script)).events, off, data);
    }

    /** The page-split loop of `write`, entered with `done` logged since
        `base`. */
    method ProgramPages(ghost base: seq<Event>, ghost done: seq<Event>, off: nat, data: seq<Byte>) returns (r: Result<nat, Error>)
      requires iface.spi.log == base + done
      modifies iface.spi
      ensures var run := ProgramLoop(done, off, data, old(iface.spi.script));
        iface.spi.log == base + run.events && iface.spi.script == run.rest
        && r == if run.result.Err? then Err(run.result.error) else Ok(|data|)
    {
      var totalWritten: nat := 0;
      var currentOffset: nat := off;
      var dataLeft := data;
      ghost var logged := done;
      ghost var goal := ProgramLoop(done, off, data, iface.spi.script);
      while dataLeft != []
        invariant totalWritten <= |data| && currentOffset == off + totalWritten && dataLeft == data[totalWritten..]
        invariant iface.spi.log == base + logged
        invariant goal == ProgramLoop(logged, currentOffset, dataLeft, iface.spi.script)
        decreases |dataLeft|
      {
        var pageOffset := currentOffset % PAGE_SIZE;
        var maxWriteSize := PAGE_SIZE - pageOffset;
        var writeSize := Min(maxWriteSize, |dataLeft|);
        var written;
        written, logged := ProgramChunk(base, logged, goal, currentOffset, dataLeft, writeSize);
        if written.Err? {
          return Err(written.error);
        }
        totalWritten := totalWritten + writeSize;
        currentOffset := currentOffset + writeSize;
        dataLeft := dataLeft[writeSize..];
      }
      r := Ok(totalWritten);
    }

    /** One pass of `write`'s loop: program the first `size` bytes of
        `left` at `offset`; the loop's run `goal` then either ends with
        this failure or goes on from the next offset, with `next` logged. */
    method ProgramChunk(ghost base: seq<Event>, ghost logged: seq<Event>, ghost goal: Run<(), Error>, offset: nat, left: seq<Byte>, size: nat)
      returns (written: Result<(), Error>, ghost next: seq<Event>)
      requires iface.spi.log == base + logged && left != [] && size == PageRoom(offset, left)
      requires goal == ProgramLoop(logged, offset, left, iface.spi.script)
      modifies iface.spi
      ensures iface.spi.log == base + next
      ensures written.Err? ==> goal == Run(next, Err(written.error), iface.spi.script)
      ensures written.Ok? ==> goal == ProgramLoop(next, offset + size, left[size..], iface.spi.script)
    {
      ProgramStep(base, logged, offset, left, size, iface.spi.script);
      ghost var first := WriteAddrRun(PAGE_PROGRAM, ToWord(offset), left[..size], iface.spi.script);
      written := iface.WriteAddr(PAGE_PROGRAM, ToWord(offset), left[..size]);
      next := logged + first.events;
    }

    /** `erase_sector(off, len)`. */
    method EraseSector(off: nat, len: nat) returns (r: Result<nat, Error>)
      modifies iface.spi
      ensures Replayed(iface.spi, EraseSectorRun(off, len, old(iface.spi.script)))
      ensures r == EraseSectorRun(off, len, old(iface.spi.script)).result
    {
      var enable := WriteEnable();
      if enable.Err? {
        return Err(enable.error);
      }
      if off >= TOTAL_SIZE || len >= TOTAL_SIZE {
        return Err(AddressSize);
      }
      var end := Min(off + len, TOTAL_SIZE);
      var startSector := off / SECTOR_SIZE;
      var endSector := (end + SECTOR_SIZE) / SECTOR_SIZE;
      EraseCovers(off, len);
      EraseSectorShape(off, len, old(iface.spi.script), startSector, endSector);
      ghost var base := old(iface.spi.log);
      ghost var erase := EraseLoop(WriteEnableRun(old(iface.spi.script)).events, startSector, endSector, iface.spi.script);
      var erased := EraseSectors(base, WriteEnableRun(old(iface.spi.script)).events, startSector, endSector);
      if erased.Err? {
        return Err(erased.error);
      }
      var idle := AwaitErase(base, erase.events);
      if idle.Err? {
        return Err(idle.error);
      }
      r := Ok((endSector - startSector) * 4096);
    }

    /** The `for` loop of `erase_sector`, entered with `done` logged since
        `base`: one sector erase per index. */
    method EraseSectors(ghost base: seq<Event>, ghost done: seq<Event>, startSector: nat, endSector: nat) returns (r: Result<(), Error>)
      requires startSector <= endSector && iface.spi.log == base + done
      modifies iface.spi
      ensures var run := EraseLoop(done, startSector, endSector, old(iface.spi.script));
        iface.spi.log == base + run.events && iface.spi.script == run.rest && r == run.result
    {
      ghost var logged := done;
      for sectorIndex := startSector to endSector
        invariant iface.spi.log == base + logged
        invariant EraseLoop(done, startSector, endSector, old(iface.spi.script)) == EraseLoop(logged, sectorIndex, endSector, iface.spi.script)
      {
        ghost var before := iface.spi.script;
        var sectorAddr := sectorIndex * SECTOR_SIZE;
        EraseStep(base, logged, sectorIndex, endSector, before);
        var erased := iface.WriteAddr(SECTOR_ERASE, ToWord(sectorAddr), []);
        if erased.Err? {
          return Err(erased.error);
        }
        logged := logged + WriteAddrRun(SECTOR_ERASE, ToWord(sectorAddr), [], before).events;
      }
      r := Ok(());
    }

    /** The polling loop of `erase_sector`, entered with `done` logged since
        `base`. */
    method AwaitErase(ghost base: seq<Event>, ghost done: seq<Event>) returns (r: Result<(), Error>)
      requires iface.spi.log == base + done
      modifies iface.spi
      ensures var run := ErasePoll(done, old(iface.spi.script));
        iface.spi.log == base + run.events && iface.spi.script == run.rest && r == run.result
    {
      ghost var logged := done;
      while true
        invariant iface.spi.log == base + logged
        invariant ErasePoll(done, old(iface.spi.script)) == ErasePoll(logged, iface.spi.script)
        decreases |iface.spi.script|
      {
        ghost var before := iface.spi.script;
        ErasePollStep(base, logged, before);
        iface.spi.DelayMs(45);
        var sr1 := ReadSr1();
        if sr1.Err? || !sr1.value.busy {
          r := if sr1.Err? then Err(sr1.error) else Ok(());
          return;
        }
        logged := logged + [Delay(45)] + RegisterByteRun(READ_STATUS_REGISTER_1, before).events;
      }
    }

    /** `read_sr1`. */
    method ReadSr1() returns (r: Result<SR1, Error>)
      modifies iface.spi
      ensures Replayed(iface.spi, RegisterByteRun(READ_STATUS_REGISTER_1, old(iface.spi.script)))
      ensures match RegisterByteRun(READ_STATUS_REGISTER_1, old(iface.spi.script)).result
        case Ok(b) => r == Ok(DecodeSR1(b))
        case Err(e) => r == Err(e)
    {
      var b := ReadRegisterByte(READ_STATUS_REGISTER_1);
      if b.Err? {
        return Err(b.error);
      }
      r := Ok(DecodeSR1(b.value));
    }

    /** `read_sr2`. */
    method ReadSr2() returns (r: Result<SR2, Error>)
      modifies iface.spi
      ensures Replayed(iface.spi, RegisterByteRun(READ_STATUS_REGISTER_2, old(iface.spi.script)))
      ensures match RegisterByteRun(READ_STATUS_REGISTER_2, old(iface.spi.script)).result
        case Ok(b) => r == Ok(DecodeSR2(b))
        case Err(e) => r == Err(e)
    {
      var b := ReadRegisterByte(READ_STATUS_REGISTER_2);
      if b.Err? {
        return Err(b.error);
      }
      r := Ok(DecodeSR2(b.value));
    }

    /** `read_sr3`. */
    method ReadSr3() returns (r: Result<SR3, Error>)
      modifies iface.spi
      ensures Replayed(iface.spi, RegisterByteRun(READ_STATUS_REGISTER_3, old(iface.spi.script)))
      ensures match RegisterByteRun(READ_STATUS_REGISTER_3, old(iface.spi.script)).result
        case Ok(b) => r == Ok(DecodeSR3(b))
        case Err(e) => r == Err(e)
    {
      var b := ReadRegisterByte(READ_STATUS_REGISTER_3);
      if b.Err? {
        return Err(b.error);
      }
      r := Ok(DecodeSR3(b.value));
    }

    /** The shared body of `read_sr1..3`: a one-byte `read_data` into a
        buffer initialised to 0xFF. */
    method ReadRegisterByte(opcode: Byte) returns (r: Result<Byte, Error>)
      modifies iface.spi
      ensures Replayed(iface.spi, RegisterByteRun(opcode, old(iface.spi.script)))
      ensures r == RegisterByteRun(opcode, old(iface.spi.script)).result
    {
      var data := new Byte[1](_ => 0xFF);
      FirstReadByte(WriteThenRead([opcode], 1), Answer(iface.spi.script));
      var read := iface.ReadData(opcode, data);
      if read.Err? {
        return Err(read.error);
      }
      r := Ok(data[0]);
    }
  }
}
