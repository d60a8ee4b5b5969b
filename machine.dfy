/** Machine-level vocabulary shared by both driver variants: bytes, the
    fixed-width integers that appear in the driver's signatures, a result
    type for the driver's fallible operations, and the chip geometry. */
module Machine {

  /** One byte on the bus or in a register. */
  type Byte = bv8

  /** Rust's `u32`, `u64` and `i64`; `usize` is modelled as `nat`. */
  type U32 = x: int | 0 <= x < 0x1_0000_0000
  type U64 = x: int | 0 <= x < 0x1_0000_0000_0000_0000
  type I64 = x: int | -0x8000_0000_0000_0000 <= x < 0x8000_0000_0000_0000

  /** `x as u32`: truncation to the low 32 bits, by repeatedly dropping
      2^32 (see `ToWordTruncates`). */
  function ToWord(x: nat): U32
    decreases x
  {
    if x < 0x1_0000_0000 then x else ToWord(x - 0x1_0000_0000)
  }

  /** `ToWord` keeps the remainder modulo 2^32. */
  lemma {:induction false} ToWordTruncates(x: nat)
    ensures ToWord(x) == x % 0x1_0000_0000
    decreases x
  {
    if x >= 0x1_0000_0000 {
      ToWordTruncates(x - 0x1_0000_0000);
    }
  }

  /** `n as u8` for `n` below 256, counted up from zero one increment
      at a time. */
  function ToByte(n: nat): Byte
    requires n < 0x100
    decreases n
  {
    if n == 0 then 0 else ToByte(n - 1) + 1
  }

  /** The byte made from `n` reads back as `n`. */
  lemma {:induction false} ToByteValue(n: nat)
    requires n < 0x100
    ensures ToByte(n) as int == n
    decreases n
  {
    if n > 0 {
      ToByteValue(n - 1);
      Increment(ToByte(n - 1));
    }
  }

  lemma Increment(b: Byte)
    requires b as int < 0xFF
    ensures (b + 1) as int == b as int + 1
  {
  }

  /** A byte read as a number and made a byte again is the same byte. */
  lemma ByteOfValue(b: Byte)
    ensures ToByte(b as int) == b
  {
    ToByteValue(b as int);
    SameValue(ToByte(b as int), b);
  }

  lemma SameValue(a: Byte, b: Byte)
    requires a as int == b as int
    ensures a == b
  {
  }

  /** Rust's `Result`, usable with `:-` like the source's `?`. */
  datatype Result<+T, +E> = Ok(value: T) | Err(error: E) {
    predicate IsFailure() { Err? }

    function PropagateFailure<U>(): Result<U, E>
      requires Err?
    {
      Err(error)
    }

    function Extract(): T
      requires Ok?
    {
      value
    }
  }

  // Flash geometry of the W25Q chip (16 MiB, 4 KiB sectors, 256-byte pages).
  const SECTOR_SIZE: nat := 4096
  const SECTOR_COUNT: nat := 4096
  const BLOCK_SIZE_32: nat := 32768
  const BLOCK_SIZE_64: nat := 65536
  const PAGE_SIZE: nat := 256
  const PAGE_COUNT: nat := 65536
  const TOTAL_SIZE: nat := SECTOR_COUNT * SECTOR_SIZE

  /** `n` zero bytes: what a freshly constructed buffer holds. */
  function Zeros(n: nat): (z: seq<Byte>)
    ensures |z| == n && forall i :: 0 <= i < n ==> z[i] == 0
  {
    seq(n, _ => 0)
  }

  /** Copies `src` into `dst`, as the bus does when it fills a read buffer. */
  method CopyInto(dst: array<Byte>, src: seq<Byte>)
    requires |src| == dst.Length
    modifies dst
    ensures dst[..] == src
  {
    forall i | 0 <= i < dst.Length {
      dst[i] := src[i];
    }
  }
}
