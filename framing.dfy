/** Command framing: the opcode-plus-24-bit-address header that both driver
    variants put in front of addressed commands, the fast-read frame, and the
    big-endian word assembly of the unique-ID read. Addresses are `u32`
    values. The driver takes them apart with shifts and masks, which on an
    unsigned value are divisions and remainders by powers of 256, and it puts
    bytes together with shifts and ORs, which `ShiftsAssembleWord` shows are
    sums of multiples of powers of 256. */
module Framing {
  import opened Machine
  import opened Registers

  /** `x >> (8 * i)` of a `u32`, for `i` in 0..3. */
  function Shifted(x: U32, i: nat): nat
    requires i < 4
  {
    if i == 0 then x
    else if i == 1 then x / 0x100
    else if i == 2 then x / 0x100 / 0x100
    else x / 0x100 / 0x100 / 0x100
  }

  /** `(x >> (8 * i)) & 0xFF`, as a byte. */
  function ByteAt(x: U32, i: nat): Byte
    requires i < 4
  {
    ToByte(Shifted(x, i) % 0x100)
  }

  /** Base-256 digits are unique. */
  lemma Digit(x: int, q: int, r: int)
    requires 0 <= r < 0x100 && x == q * 0x100 + r
    ensures x / 0x100 == q && x % 0x100 == r
  {
  }

  /** The base-256 digits of `x`, lowest first, and what they add up to. */
  lemma Digits(x: U32)
    ensures var r0 := x % 0x100; var r1 := x / 0x100 % 0x100; var r2 := x / 0x100 / 0x100 % 0x100;
      var r3 := x / 0x100 / 0x100 / 0x100;
      r3 < 0x100 && x == ((r3 * 0x100 + r2) * 0x100 + r1) * 0x100 + r0
      && x % 0x100_0000 == (r2 * 0x100 + r1) * 0x100 + r0
  {
    var q1 := x / 0x100;
    var q2 := q1 / 0x100;
    var q3 := q2 / 0x100;
    var r0, r1, r2 := x % 0x100, q1 % 0x100, q2 % 0x100;
    assert x == q1 * 0x100 + r0;
    assert q1 == q2 * 0x100 + r1;
    assert q2 == q3 * 0x100 + r2;
    assert q1 < 0x100_0000 && q2 < 0x1_0000 && q3 < 0x100;
    var low := (r2 * 0x100 + r1) * 0x100 + r0;
    assert x == q3 * 0x100_0000 + low;
    LowDigits(x, q3, low);
  }

  lemma LowDigits(x: int, q: int, r: int)
    requires 0 <= r < 0x100_0000 && x == q * 0x100_0000 + r
    ensures x % 0x100_0000 == r
  {
  }

  /** `[command, (address >> 16) & 0xFF, (address >> 8) & 0xFF, address & 0xFF]`. */
  function AddressHeader(command: Byte, address: U32): (h: seq<Byte>)
    ensures |h| == 4 && h[0] == command
  {
    [command, ByteAt(address, 2), ByteAt(address, 1), ByteAt(address, 0)]
  }

  /** The three address bytes of the header spell the low 24 bits of the
      address, most significant byte first. */
  lemma AddressHeaderValue(command: Byte, address: U32)
    ensures var h := AddressHeader(command, address);
      ((h[1] as int) * 0x100 + (h[2] as int)) * 0x100 + (h[3] as int) == address % 0x100_0000
  {
    Digits(address);
    ToByteValue(address / 0x100 / 0x100 % 0x100);
    ToByteValue(address / 0x100 % 0x100);
    ToByteValue(address % 0x100);
  }

  /** Two addresses give the same header exactly when their low 24 bits
      agree: the top address byte is silently dropped. */
  lemma HeaderIgnoresTopByte(command: Byte, a: U32, b: U32)
    ensures AddressHeader(command, a) == AddressHeader(command, b) <==> a % 0x100_0000 == b % 0x100_0000
  {
    if AddressHeader(command, a) == AddressHeader(command, b) {
      AddressHeaderValue(command, a);
      AddressHeaderValue(command, b);
    }
    if a % 0x100_0000 == b % 0x100_0000 {
      SameLowDigits(a, b);
      assert AddressHeader(command, a) == AddressHeader(command, b);
    }
  }

  lemma SameLowDigits(a: U32, b: U32)
    requires a % 0x100_0000 == b % 0x100_0000
    ensures a % 0x100 == b % 0x100 && a / 0x100 % 0x100 == b / 0x100 % 0x100
    ensures a / 0x100 / 0x100 % 0x100 == b / 0x100 / 0x100 % 0x100
  {
    Digits(a);
    Digits(b);
    var m := a % 0x100_0000;
    var a1, a2 := a / 0x100 % 0x100, a / 0x100 / 0x100 % 0x100;
    var b1, b2 := b / 0x100 % 0x100, b / 0x100 / 0x100 % 0x100;
    Digit(m, a2 * 0x100 + a1, a % 0x100);
    Digit(m, b2 * 0x100 + b1, b % 0x100);
    Digit(a2 * 0x100 + a1, a2, a1);
    Digit(b2 * 0x100 + b1, b2, b1);
  }

  /** `u32::to_be_bytes`. */
  function BigEndian(x: U32): (b: seq<Byte>)
    ensures |b| == 4
  {
    [ByteAt(x, 3), ByteAt(x, 2), ByteAt(x, 1), ByteAt(x, 0)]
  }

  /** The fast-read frame: opcode, `address.to_be_bytes()[1..]`, one dummy
      byte; the same address bytes as the plain header. */
  function FastReadFrame(address: U32): (f: seq<Byte>)
    ensures f == AddressHeader(FAST_READ, address) + [0]
  {
    [FAST_READ] + BigEndian(address)[1..] + [0]
  }

  /** `(b0 as u32) << 24 | (b1 as u32) << 16 | (b2 as u32) << 8 | b3 as u32`:
      the bytes do not overlap, so the ORs are additions. */
  function BigEndianWord(b0: Byte, b1: Byte, b2: Byte, b3: Byte): U32 {
    (((b0 as int) * 0x100 + (b1 as int)) * 0x100 + (b2 as int)) * 0x100 + (b3 as int)
  }

  /** The driver's shift-and-OR assembly computes `BigEndianWord`. */
  lemma ShiftsAssembleWord(b0: Byte, b1: Byte, b2: Byte, b3: Byte)
    ensures (((b0 as bv32) << 24) | ((b1 as bv32) << 16) | ((b2 as bv32) << 8) | (b3 as bv32)) as int
      == BigEndianWord(b0, b1, b2, b3)
  {
  }

  lemma RoundTripFromWord(x: U32)
    ensures var b := BigEndian(x); BigEndianWord(b[0], b[1], b[2], b[3]) == x
  {
    Digits(x);
    var r0, r1, r2, r3 := x % 0x100, x / 0x100 % 0x100, x / 0x100 / 0x100 % 0x100, x / 0x100 / 0x100 / 0x100;
    ToByteValue(r3);
    ToByteValue(r2);
    ToByteValue(r1);
    ToByteValue(r0);
    var b := BigEndian(x);
    assert b[0] as int == r3 && b[1] as int == r2 && b[2] as int == r1 && b[3] as int == r0;
  }

  lemma RoundTripFromBytes(b0: Byte, b1: Byte, b2: Byte, b3: Byte)
    ensures BigEndian(BigEndianWord(b0, b1, b2, b3)) == [b0, b1, b2, b3]
  {
    var w := BigEndianWord(b0, b1, b2, b3);
    var q1 := (b0 as int) * 0x100 + (b1 as int);
    var q2 := q1 * 0x100 + (b2 as int);
    Digit(w, q2, b3 as int);
    Digit(q2, q1, b2 as int);
    Digit(q1, b0 as int, b1 as int);
    ByteOfValue(b0);
    ByteOfValue(b1);
    ByteOfValue(b2);
    ByteOfValue(b3);
  }

  /** Assembling the bytes of `to_be_bytes` gives the word back, and taking
      an assembled word apart gives the bytes back. */
  lemma BigEndianRoundTrip(x: U32, b0: Byte, b1: Byte, b2: Byte, b3: Byte)
    ensures var b := BigEndian(x); BigEndianWord(b[0], b[1], b[2], b[3]) == x
    ensures BigEndian(BigEndianWord(b0, b1, b2, b3)) == [b0, b1, b2, b3]
  {
    RoundTripFromWord(x);
    RoundTripFromBytes(b0, b1, b2, b3);
  }
}
