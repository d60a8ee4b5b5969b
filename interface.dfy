/** The bus layer of the older driver variant: `SpiInterface` frames the
    addressed commands, rejects addresses beyond 24 bits before touching the
    bus, and wraps every transport failure as `Error::Comm`. */
module Interface {
  import opened Machine
  import opened Framing
  import opened Spi

  /** The crate's `Error<E>`; `BadData` is declared but never produced. */
  datatype Error = Comm(cause: SpiError) | AddressSize | BadData

  /** `map_err(Error::Comm)`. */
  function Lift<T>(r: Result<T, SpiError>): Result<T, Error> {
    match r
    case Ok(v) => Ok(v)
    case Err(e) => Err(Comm(e))
  }

  /** Wrapping loses nothing: the transport error comes back unchanged. */
  lemma LiftIsLossless<T>(a: Result<T, SpiError>, b: Result<T, SpiError>)
    ensures Lift(a) == Lift(b) <==> a == b
    ensures Lift(a).Ok? <==> a.Ok?
  {
    if Lift(a) == Lift(b) && a.Err? {
      assert Lift(a).error.cause == a.error;
    }
  }

  /** The 24-bit address check `addr & 0xFF00_0000 == 0`: the top byte of
      the `u32` is zero, that is, the address is below 2^24
      (`MaskTestIsBound`). */
  predicate Addressable(addr: U32) {
    addr < 0x100_0000
  }

  /** On 32-bit words the mask test and the bound agree. */
  lemma MaskTestIsBound(w: bv32)
    ensures w & 0xFF00_0000 == 0 <==> w < 0x100_0000
  {
  }

  /** For an address that passes the check, the three address bytes of the
      header, read most significant first, are the address. */
  lemma HeaderEncodesAddress(register: Byte, addr: U32)
    requires Addressable(addr)
    ensures var h := AddressHeader(register, addr);
      h[0] == register && (h[1] as int) * 0x1_0000 + (h[2] as int) * 0x100 + (h[3] as int) == addr
  {
    AddressHeaderValue(register, addr);
    SmallIsOwnRemainder(addr);
  }

  lemma SmallIsOwnRemainder(addr: U32)
    requires Addressable(addr)
    ensures addr % 0x100_0000 == addr
  {
  }

  // ------------------------------------------------------------ runs

  /** `read_from_addr` against `script`; the result carries the bytes read. */
  function ReadFromAddrRun(register: Byte, addr: U32, n: nat, script: seq<Reply>): Run<seq<Byte>, Error> {
    if !Addressable(addr) then Run([], Err(AddressSize), script)
    else
      var read := Single(WriteThenRead(AddressHeader(register, addr), n), script);
      Run(read.events, Lift(read.result), read.rest)
  }

  /** `read_data` against `script`. */
  function ReadDataRun(register: Byte, n: nat, script: seq<Reply>): Run<seq<Byte>, Error> {
    var read := Single(WriteThenRead([register], n), script);
    Run(read.events, Lift(read.result), read.rest)
  }

  /** The transaction of `write_addr`. */
  function WriteAddrOps(register: Byte, addr: U32, payload: seq<Byte>): seq<Operation> {
    [Write(AddressHeader(register, addr)), Write(payload)]
  }

  /** `write_addr` against `script`. */
  function WriteAddrRun(register: Byte, addr: U32, payload: seq<Byte>, script: seq<Reply>): Run<(), Error> {
    if !Addressable(addr) then Run([], Err(AddressSize), script)
    else
      var reply := Answer(script);
      Run([Transact(WriteAddrOps(register, addr, payload), reply)],
          if reply.Reject? then Err(Comm(reply.error)) else Ok(()), Rest(script))
  }

  /** `write_data` against `script`. */
  function WriteDataRun(payload: seq<Byte>, script: seq<Reply>): Run<(), Error> {
    var reply := Answer(script);
    Run([BusWrite(payload, reply)], if reply.Reject? then Err(Comm(reply.error)) else Ok(()), Rest(script))
  }

  /** The addressed operations fail with `AddressSize` exactly when the
      address has its top byte set, and then issue nothing; otherwise they
      issue one transaction, which fails exactly when the bus rejects it,
      with that bus error. */
  lemma AddressedRunsChecked(register: Byte, addr: U32, n: nat, payload: seq<Byte>, script: seq<Reply>)
    ensures var rd := ReadFromAddrRun(register, addr, n, script);
      (rd.result == Err(AddressSize) <==> !Addressable(addr))
      && (!Addressable(addr) ==> rd.events == [] && rd.rest == script)
      && (Addressable(addr) ==> |rd.events| == 1 && (rd.result.Err? <==> Answer(script).Reject?))
      && (Addressable(addr) && Answer(script).Reject? ==> rd.result == Err(Comm(Answer(script).error)))
    ensures var wr := WriteAddrRun(register, addr, payload, script);
      (wr.result == Err(AddressSize) <==> !Addressable(addr))
      && (!Addressable(addr) ==> wr.events == [] && wr.rest == script)
      && (Addressable(addr) ==> |wr.events| == 1 && (wr.result.Err? <==> Answer(script).Reject?))
      && (Addressable(addr) && Answer(script).Reject? ==> wr.result == Err(Comm(Answer(script).error)))
  {
  }

  /** The SPI interface: the only thing it owns is the device. */
  class SpiInterface {
    const spi: Bus

    constructor (spi: Bus)
      ensures this.spi == spi
    {
      this.spi := spi;
    }

    /** `read_from_addr`: on success `payload` holds the bytes read and the
        register is returned; on failure `payload` is untouched. */
    method ReadFromAddr(register: Byte, addr: U32, payload: array<Byte>) returns (r: Result<Byte, Error>)
      modifies spi, payload
      ensures Replayed(spi, ReadFromAddrRun(register, addr, payload.Length, old(spi.script)))
      ensures match ReadFromAddrRun(register, addr, payload.Length, old(spi.script)).result
        case Ok(d) => r == Ok(register) && payload[..] == d
        case Err(e) => r == Err(e) && payload[..] == old(payload[..])
    {
      if !Addressable(addr) {
        return Err(AddressSize);
      }
      var data := AddressHeader(register, addr);
      var read := spi.Transaction(WriteThenRead(data, payload.Length));
      if read.Err? {
        return Err(Comm(read.error));
      }
      CopyInto(payload, read.value);
      r := Ok(data[0]);
    }

    /** `read_data`: the register byte, then `payload.Length` bytes. */
    method ReadData(register: Byte, payload: array<Byte>) returns (r: Result<(), Error>)
      modifies spi, payload
      ensures Replayed(spi, ReadDataRun(register, payload.Length, old(spi.script)))
      ensures match ReadDataRun(register, payload.Length, old(spi.script)).result
        case Ok(d) => r == Ok(()) && payload[..] == d
        case Err(e) => r == Err(e) && payload[..] == old(payload[..])
    {
      var read := spi.Transaction(WriteThenRead([register], payload.Length));
      if read.Err? {
        return Err(Comm(read.error));
      }
      CopyInto(payload, read.value);
      r := Ok(());
    }

    /** `write_addr`: header and payload in one transaction. */
    method WriteAddr(register: Byte, addr: U32, payload: seq<Byte>) returns (r: Result<(), Error>)
      modifies spi
      ensures Replayed(spi, WriteAddrRun(register, addr, payload, old(spi.script)))
      ensures r == WriteAddrRun(register, addr, payload, old(spi.script)).result
    {
      if !Addressable(addr) {
        return Err(AddressSize);
      }
      var written := spi.Transaction(WriteAddrOps(register, addr, payload));
      if written.Err? {
        return Err(Comm(written.error));
      }
      r := Ok(());
    }

    /** `write_data`: a bare bus write of `payload`. */
    method WriteData(payload: seq<Byte>) returns (r: Result<(), Error>)
      modifies spi
      ensures Replayed(spi, WriteDataRun(payload, old(spi.script)))
      ensures r == WriteDataRun(payload, old(spi.script)).result
    {
      var written := spi.Write(payload);
      r := Lift(written);
    }
  }
}
