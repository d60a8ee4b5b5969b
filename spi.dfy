/** The bus the driver talks to, as an abstract recorder. The real SPI
    peripheral and delay timer are outside the model: the recorder keeps a
    log of every exchange (with the device's answer) and of every delay, and
    answers from a finite script of replies. Once the script is used up the
    device answers every read with zero bytes, so a status poll then reads
    "not busy"; this is what bounds the driver's busy-poll loops. */
module Spi {
  import opened Machine

  /** embedded-hal's `spi::ErrorKind`. That enum is non-exhaustive; kinds it
      may gain later are `Unlisted`. */
  datatype SpiErrorKind = Overrun | ModeFault | FrameFormat | ChipSelectFault | Other | Unlisted(code: nat)

  /** A transport error. The driver only ever looks at its kind. */
  datatype SpiError = SpiError(kind: SpiErrorKind)

  /** One phase of a transaction, as in embedded-hal's `spi::Operation`. */
  datatype Operation = Write(bytes: seq<Byte>) | Read(len: nat)

  /** The device's side of one exchange: the bytes it clocked out, or a
      transport failure. */
  datatype Reply = Accept(data: seq<Byte>) | Reject(error: SpiError)

  /** What the recorder logs: a transaction (chip select held across all its
      operations), a bare `write` outside a transaction, or a delay. */
  datatype Event =
    | Transact(ops: seq<Operation>, reply: Reply)
    | BusWrite(bytes: seq<Byte>, reply: Reply)
    | Delay(ms: nat)

  /** The reply the next exchange receives. */
  function Answer(script: seq<Reply>): Reply {
    if script == [] then Accept([]) else script[0]
  }

  /** The script left after one exchange. */
  function Rest(script: seq<Reply>): (r: seq<Reply>)
    ensures |r| == if script == [] then 0 else |script| - 1
  {
    if script == [] then [] else script[1..]
  }

  /** Number of bytes a transaction reads. */
  function ReadLength(ops: seq<Operation>): nat {
    if ops == [] then 0
    else (if ops[0].Read? then ops[0].len else 0) + ReadLength(ops[1..])
  }

  /** The usual read transaction: a command frame, then `n` bytes read. */
  function WriteThenRead(frame: seq<Byte>, n: nat): (ops: seq<Operation>)
    ensures ops == [Write(frame), Read(n)] && ReadLength(ops) == n
  {
    var ops := [Write(frame), Read(n)];
    assert ops[1..] == [Read(n)] && ops[1..][1..] == [];
    assert ReadLength(ops[1..]) == n + ReadLength([]);
    ops
  }

  /** The device's bytes cut or zero-padded to the length the driver reads. */
  function Fit(data: seq<Byte>, n: nat): (r: seq<Byte>)
    ensures |r| == n
  {
    if |data| >= n then data[..n] else data + Zeros(n - |data|)
  }

  /** The bytes the device sent, then zeros. */
  lemma FitContents(data: seq<Byte>, n: nat)
    ensures forall i :: 0 <= i < n ==> Fit(data, n)[i] == if i < |data| then data[i] else 0
  {
  }

  /** What the driver receives from one exchange: the bytes read, or the error. */
  function Exchange(ops: seq<Operation>, reply: Reply): Result<seq<Byte>, SpiError> {
    match reply
    case Reject(e) => Err(e)
    case Accept(d) => Ok(Fit(d, ReadLength(ops)))
  }

  /** The effect of running (part of) a driver operation against a reply
      script: the events it logs, its result, and the script it leaves. */
  datatype Run<+T, +E> = Run(events: seq<Event>, result: Result<T, E>, rest: seq<Reply>)

  /** One transaction against `script`. */
  function Single(ops: seq<Operation>, script: seq<Reply>): Run<seq<Byte>, SpiError> {
    Run([Transact(ops, Answer(script))], Exchange(ops, Answer(script)), Rest(script))
  }

  /** Sequencing with `?`: the first step's error ends the operation. */
  function AndThen<T, U, E>(first: Run<T, E>, next: Run<U, E>): Run<U, E>
  {
    if first.result.Err? then Run(first.events, Err(first.result.error), first.rest)
    else Run(first.events + next.events, next.result, next.rest)
  }

  /** The byte a one-byte read yields (a status register, say). */
  function StatusByte(reply: Reply): Result<Byte, SpiError> {
    match reply
    case Reject(e) => Err(e)
    case Accept(d) => Ok(if d == [] then 0 else d[0])
  }

  /** The one byte read is the device's first byte, or 0 if it sent none. */
  lemma FirstReadByte(ops: seq<Operation>, reply: Reply)
    requires ReadLength(ops) == 1
    ensures match Exchange(ops, reply)
      case Ok(d) => StatusByte(reply) == Ok(d[0])
      case Err(e) => StatusByte(reply) == Err(e)
  {
    if reply.Accept? && reply.data == [] {
      assert Fit([], 1) == [0];
    }
  }

  /** `run` performed after the events `done`. */
  function Continued<T, E>(done: seq<Event>, run: Run<T, E>): Run<T, E> {
    Run(done + run.events, run.result, run.rest)
  }

  /** `bus` has logged exactly `run.events` since the pre-state and its script
      is `run.rest`. */
  twostate predicate Replayed<T, E>(bus: Bus, new run: Run<T, E>)
    reads bus
  {
    bus.log == old(bus.log) + run.events && bus.script == run.rest
  }

  /** The recorder standing in for the `SpiDevice` and the `DelayNs` provider. */
  class Bus {
    var log: seq<Event>
    var script: seq<Reply>

    constructor (script: seq<Reply>)
      ensures log == [] && this.script == script
    {
      log := [];
      this.script := script;
    }

    /** `SpiDevice::transaction`. */
    method Transaction(ops: seq<Operation>) returns (r: Result<seq<Byte>, SpiError>)
      modifies this
      ensures Replayed(this, Single(ops, old(script)))
      ensures r == Exchange(ops, Answer(old(script)))
    {
      var reply := Answer(script);
      log := log + [Transact(ops, reply)];
      script := Rest(script);
      r := Exchange(ops, reply);
    }

    /** `SpiDevice::write`: the bytes in one exchange of their own. */
    method Write(bytes: seq<Byte>) returns (r: Result<(), SpiError>)
      modifies this
      ensures log == old(log) + [BusWrite(bytes, Answer(old(script)))] && script == Rest(old(script))
      ensures r == if Answer(old(script)).Reject? then Err(Answer(old(script)).error) else Ok(())
    {
      var reply := Answer(script);
      log := log + [BusWrite(bytes, reply)];
      script := Rest(script);
      r := if reply.Reject? then Err(reply.error) else Ok(());
    }

    /** `DelayNs::delay_ms`: only recorded. */
    method DelayMs(ms: nat)
      modifies this
      ensures log == old(log) + [Delay(ms)] && script == old(script)
    {
      log := log + [Delay(ms)];
    }
  }
}
