/** The embedded-io stream interface of the current driver: a cursor
    (`seekPtr`) over the whole chip, `Read`/`Write` at the cursor, and a
    page-sized read buffer behind `BufRead`. Errors are mapped to
    embedded-io error kinds. */
module Io {
  import opened Machine
  import opened Registers
  import opened Framing
  import opened Spi
  import opened Device
  import Geometry

  // ------------------------------------------------------------ errors

  /** embedded-io's `ErrorKind`. */
  datatype IoErrorKind =
    | Other | NotFound | PermissionDenied | ConnectionRefused | ConnectionReset
    | ConnectionAborted | NotConnected | AddrInUse | AddrNotAvailable | BrokenPipe
    | AlreadyExists | InvalidInput | InvalidData | TimedOut | Interrupted
    | Unsupported | OutOfMemory | WriteZero

  /** The stream error: an I/O kind of its own, or the kind of a bus error. */
  datatype W25QError = Io(ioKind: IoErrorKind) | Spi(spiKind: SpiErrorKind)

  /** `embedded_io::Error::kind`: an I/O error reports its own kind; a bus
      error reports one of five kinds, and the three bus kinds that carry a
      meaning of their own map to three different I/O kinds. */
  function Kind(e: W25QError): (k: IoErrorKind)
    ensures e.Io? ==> k == e.ioKind
    ensures e.Spi? ==> k in {OutOfMemory, PermissionDenied, InvalidData, ConnectionReset, IoErrorKind.Other}
    ensures e.Spi? && e.spiKind.Overrun? <==> e.Spi? && k == OutOfMemory
    ensures e.Spi? && e.spiKind.ModeFault? <==> e.Spi? && k == PermissionDenied
    ensures e.Spi? && e.spiKind.FrameFormat? <==> e.Spi? && k == InvalidData
    ensures e.Spi? && e.spiKind.ChipSelectFault? <==> e.Spi? && k == ConnectionReset
  {
    match e
    case Io(k) => k
    case Spi(k) =>
      match k
      case Overrun => OutOfMemory
      case ModeFault => PermissionDenied
      case FrameFormat => InvalidData
      case ChipSelectFault => ConnectionReset
      case Other => IoErrorKind.Other
      case Unlisted(_) => IoErrorKind.Other
  }

  /** `From<spi::ErrorKind>`: kinds the driver does not know become `Other`. */
  function FromSpiKind(k: SpiErrorKind): (e: W25QError)
    ensures e.Spi? && !e.spiKind.Unlisted?
    ensures e == Spi(k) <==> !k.Unlisted?
  {
    if k.Unlisted? then Spi(SpiErrorKind.Other) else Spi(k)
  }

  /** The conversion never changes what `kind` reports. */
  lemma FromSpiKindKeepsKind(k: SpiErrorKind)
    ensures Kind(FromSpiKind(k)) == Kind(Spi(k))
  {
  }

  /** Distinct listed bus error kinds are reported as distinct I/O kinds; a
      bus error reads as `Other` exactly when its kind is `Other` or one the
      driver does not list. */
  lemma SpiKindsDistinguished(a: SpiErrorKind, b: SpiErrorKind)
    ensures !a.Unlisted? && !b.Unlisted? && a != b ==> Kind(Spi(a)) != Kind(Spi(b))
    ensures Kind(Spi(a)) == IoErrorKind.Other <==> a == SpiErrorKind.Other || a.Unlisted?
  {
  }

  // ------------------------------------------------------------ seek

  /** embedded-io's `SeekFrom`. */
  datatype SeekFrom = Start(offset: U64) | End(back: I64) | Current(delta: I64)

  /** The arithmetic of `seek` does not overflow: `End(p)` subtracts
      `p.abs()` from the capacity as a `u64`, and `Current(p)` adds `p` to
      `seek_ptr as i64`. */
  predicate SeekDefined(ptr: nat, pos: SeekFrom) {
    match pos
    case Start(_) => true
    case End(p) => 0 <= TOTAL_SIZE + p
    case Current(p) => ptr < 0x8000_0000_0000_0000 && ptr + p < 0x8000_0000_0000_0000
  }

  /** The position a seek asks for, as a mathematical integer. */
  function Requested(ptr: nat, pos: SeekFrom): int {
    match pos
    case Start(p) => p
    case End(p) => TOTAL_SIZE + p
    case Current(p) => ptr + p
  }

  /** The outcome of `seek(pos)` with the cursor at `ptr`, branch by branch
      as the driver decides it: it succeeds exactly when the requested
      position lies in `[0, capacity]`, and then returns that position. */
  function SeekTarget(ptr: nat, pos: SeekFrom): (r: Result<U64, W25QError>)
    requires SeekDefined(ptr, pos)
    ensures r.Ok? <==> 0 <= Requested(ptr, pos) <= TOTAL_SIZE
    ensures r.Ok? ==> r.value == Requested(ptr, pos)
    ensures r.Err? ==> r.error == Io(InvalidInput)
  {
    match pos
    case Start(p) =>
      if p > TOTAL_SIZE then Err(Io(InvalidInput)) else Ok(p)
    case End(p) =>
      if p > 0 then Err(Io(InvalidInput)) else Ok(TOTAL_SIZE - (-p))
    case Current(p) =>
      if ptr + p < 0 || ptr + p > TOTAL_SIZE then Err(Io(InvalidInput)) else Ok(ptr + p)
  }

  /** `End(0)` is the capacity. */
  lemma SeekEndZero(ptr: nat)
    ensures SeekTarget(ptr, End(0)) == Ok(TOTAL_SIZE)
  {
  }

  /** `Seek::seek`: only the cursor changes, and only on success. */
  method Seek(dev: W25Q, pos: SeekFrom) returns (r: Result<U64, W25QError>)
    requires dev.Valid() && SeekDefined(dev.seekPtr, pos)
    modifies dev`seekPtr
    ensures dev.Valid()
    ensures r == SeekTarget(old(dev.seekPtr), pos)
    ensures dev.seekPtr == if r.Ok? then r.value else old(dev.seekPtr)
  {
    var seeked: U64;
    match pos {
      case Start(p) =>
        if p > dev.Capacity() {
          return Err(Io(InvalidInput));
        }
        seeked := p;
        dev.seekPtr := seeked;
      case End(p) =>
        if p > 0 {
          return Err(Io(InvalidInput));
        }
        seeked := dev.Capacity() - (-p);
        dev.seekPtr := seeked;
      case Current(p) =>
        var target := dev.seekPtr + p;
        if target < 0 || target > dev.Capacity() {
          return Err(Io(InvalidInput));
        }
        seeked := target;
        dev.seekPtr := seeked;
    }
    r := Ok(seeked);
  }

  // ------------------------------------------------------------ read / write

  /** `Read::read`: one fast read of `buf.Length` bytes at the cursor
      (truncated to 32 bits); the cursor advances by the full length on
      success and stays on a bus error. */
  method Read(dev: W25Q, buf: array<Byte>) returns (r: Result<nat, W25QError>)
    requires dev.Valid() && buf != dev.buffer
    modifies dev.periph, buf, dev`seekPtr
    ensures dev.Valid()
    ensures Replayed(dev.periph, Single(WriteThenRead(FastReadFrame(ToWord(old(dev.seekPtr))), buf.Length), old(dev.periph.script)))
    ensures match Exchange(WriteThenRead(FastReadFrame(ToWord(old(dev.seekPtr))), buf.Length), Answer(old(dev.periph.script)))
      case Ok(d) => r == Ok(buf.Length) && buf[..] == d && dev.seekPtr == old(dev.seekPtr) + buf.Length
      case Err(e) => r == Err(Spi(e.kind)) && buf[..] == old(buf[..]) && dev.seekPtr == old(dev.seekPtr)
  {
    var address := ToWord(dev.seekPtr);
    var read := dev.FastRead(address, buf);
    if read.Err? {
      return Err(Spi(read.error.kind));
    }
    dev.seekPtr := dev.seekPtr + buf.Length;
    r := Ok(buf.Length);
  }

  /** `Write::write`: the whole buffer in one `page_program` at the cursor,
      without splitting at page boundaries. */
  method Write(dev: W25Q, buf: seq<Byte>) returns (r: Result<nat, W25QError>)
    requires dev.Valid()
    modifies dev.periph, dev`seekPtr
    ensures dev.Valid()
    ensures Replayed(dev.periph, GatedRun(PAGE_PROGRAM, ToWord(old(dev.seekPtr)), buf, old(dev.periph.script)))
    ensures match GatedRun(PAGE_PROGRAM, ToWord(old(dev.seekPtr)), buf, old(dev.periph.script)).result
      case Ok(_) => r == Ok(|buf|) && dev.seekPtr == old(dev.seekPtr) + |buf|
      case Err(e) => r == Err(Spi(e.kind)) && dev.seekPtr == old(dev.seekPtr)
  {
    var address := ToWord(dev.seekPtr);
    var written := dev.PageProgram(address, buf);
    if written.Err? {
      return Err(Spi(written.error.kind));
    }
    dev.seekPtr := dev.seekPtr + |buf|;
    r := Ok(|buf|);
  }

  // ------------------------------------------------------------ buffered reads

  /** The page a refill fetches: the one holding the cursor. */
  function PageStart(ptr: nat): (p: nat)
    ensures p <= ptr < p + PAGE_SIZE && p % PAGE_SIZE == 0
  {
    ptr / PAGE_SIZE * PAGE_SIZE
  }

  /** `BufRead::fill_buf`. With bytes left in the window it returns them and
      touches nothing. With the window empty it reads the cursor's page into
      the buffer and opens the window at the cursor's offset in that page;
      if that read fails, nothing but the bus changes. */
  method FillBuf(dev: W25Q) returns (r: Result<seq<Byte>, W25QError>)
    requires dev.Valid()
    modifies dev.periph, dev.buffer, dev`bufferStart, dev`bufferEnd
    ensures dev.Valid()
    ensures old(dev.bufferStart) < old(dev.bufferEnd) ==>
      dev.periph.log == old(dev.periph.log) && dev.periph.script == old(dev.periph.script)
      && dev.buffer[..] == old(dev.buffer[..])
      && dev.bufferStart == old(dev.bufferStart) && dev.bufferEnd == old(dev.bufferEnd)
      && r == Ok(dev.buffer[dev.bufferStart..dev.bufferEnd])
    ensures old(dev.bufferStart) >= old(dev.bufferEnd) ==>
      Replayed(dev.periph, Single(WriteThenRead(FastReadFrame(ToWord(PageStart(dev.seekPtr))), PAGE_SIZE), old(dev.periph.script)))
      && match Exchange(WriteThenRead(FastReadFrame(ToWord(PageStart(dev.seekPtr))), PAGE_SIZE), Answer(old(dev.periph.script)))
        case Ok(d) =>
          dev.buffer[..] == d && dev.bufferStart == dev.seekPtr % PAGE_SIZE && dev.bufferEnd == PAGE_SIZE
          && r == Ok(d[dev.seekPtr % PAGE_SIZE..])
        case Err(e) =>
          r == Err(Spi(e.kind)) && dev.buffer[..] == old(dev.buffer[..])
          && dev.bufferStart == old(dev.bufferStart) && dev.bufferEnd == old(dev.bufferEnd)
  {
    if dev.bufferStart >= dev.bufferEnd {
      var pageStart := PageStart(dev.seekPtr);
      var read := dev.FastReadIntoInternalBuffer(ToWord(pageStart));
      if read.Err? {
        return Err(Spi(read.error.kind));
      }
      dev.bufferStart := dev.seekPtr - pageStart;
      dev.bufferEnd := PAGE_SIZE;
      assert dev.buffer[dev.bufferStart..dev.bufferEnd] == dev.buffer[..][dev.bufferStart..];
    }
    r := Ok(dev.buffer[dev.bufferStart..dev.bufferEnd]);
  }

  /** `BufRead::consume`: the window start moves forward by `amt` but not
      past its end; the cursor moves by `amt` regardless. */
  method Consume(dev: W25Q, amt: nat)
    requires dev.Valid()
    modifies dev`bufferStart, dev`seekPtr
    ensures dev.Valid()
    ensures dev.bufferStart == Geometry.Min(old(dev.bufferStart) + amt, dev.bufferEnd)
    ensures dev.seekPtr == old(dev.seekPtr) + amt
  {
    var newStart := dev.bufferStart + amt;
    dev.bufferStart := Geometry.Min(newStart, dev.bufferEnd);
    dev.seekPtr := dev.seekPtr + amt;
  }

  /** A freshly built driver's first `fill_buf` returns 256 zero bytes and
      puts nothing on the bus: the constructor opens the window over the
      whole zeroed buffer. */
  method FreshFill(bus: Bus) returns (r: Result<seq<Byte>, W25QError>)
    modifies bus
    ensures r == Ok(Zeros(PAGE_SIZE))
    ensures bus.log == old(bus.log) && bus.script == old(bus.script)
  {
    var dev := new W25Q.NewWithSpi(bus);
    r := FillBuf(dev);
    assert dev.buffer[0..PAGE_SIZE] == dev.buffer[..];
  }

  /** No operation closes the buffered window: after a fresh driver seeks
      to offset 252, `fill_buf` still returns the 256 zero bytes the
      constructor opened, not the chip's bytes from 252 on, and puts
      nothing on the bus. */
  method SeekThenFill(bus: Bus) returns (dev: W25Q, r: Result<seq<Byte>, W25QError>)
    modifies bus
    ensures dev.seekPtr == 252 && dev.bufferStart == 0 && dev.bufferEnd == PAGE_SIZE
    ensures r == Ok(Zeros(PAGE_SIZE))
    ensures bus.log == old(bus.log) && bus.script == old(bus.script)
  {
    dev := new W25Q.NewWithSpi(bus);
    var s := Seek(dev, Start(252));
    r := FillBuf(dev);
    assert dev.buffer[0..PAGE_SIZE] == dev.buffer[..];
  }
}
