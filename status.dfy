/** Status registers SR1, SR2 and SR3: decoding a register byte into its
    fields, encoding the fields back, and the "writable" projection that is
    transmitted when a register is written. Both driver variants share the
    decode/encode pair; only the newer variant has the writable projection. */
module StatusRegisters {
  import opened Machine

  /** Status register 1: protection bits plus the read-only `wel` and `busy`. */
  datatype SR1 = SR1(srp0: bool, sec: bool, tb: bool, bp: Byte, wel: bool, busy: bool)

  /** Status register 2. `lb` is the three lock bits. */
  datatype SR2 = SR2(sus: bool, cmp: bool, lb: Byte, qe: bool, srp1: bool)

  /** Status register 3. */
  datatype SR3 = SR3(holdOrReset: bool, driverStrength: Byte, wps: bool)

  /** Which register a status read or write addresses, with its contents. */
  datatype SR = Status1(s1: SR1) | Status2(s2: SR2) | Status3(s3: SR3)

  /** `b as u8` for a boolean. */
  function Bit(b: bool): (r: Byte)
    ensures r <= 1 && (r == 1 <==> b)
  {
    if b then 1 else 0
  }

  // ---------------------------------------------------------------- SR1

  function DecodeSR1(b: Byte): (s: SR1)
    ensures s.bp <= 7
    ensures EncodeSR1(s) == b
  {
    SR1(b & 0x80 != 0, b & 0x40 != 0, b & 0x20 != 0, (b & 0x1C) >> 2, b & 0x02 != 0, b & 0x01 != 0)
  }

  function EncodeSR1(s: SR1): Byte
  {
    (Bit(s.srp0) << 7) | (Bit(s.sec) << 6) | (Bit(s.tb) << 5) | ((s.bp & 0x07) << 2) | (Bit(s.wel) << 1) | Bit(s.busy)
  }

  /** The SR1 byte sent by a status-register write: `srp0`, `wel` and `busy`
      are never transmitted. */
  function WritableSR1(s: SR1): (b: Byte)
    ensures b & 0x83 == 0
    ensures b == EncodeSR1(s) & 0x7C
  {
    (Bit(s.sec) << 6) | (Bit(s.tb) << 5) | ((s.bp & 0x07) << 2)
  }

  // ---------------------------------------------------------------- SR2

  function DecodeSR2(b: Byte): (s: SR2)
    ensures s.lb <= 7
    ensures EncodeSR2(s) == b & 0xE3
  {
    SR2(b & 0x80 != 0, b & 0x40 != 0, (b >> 5) & 0x07, b & 0x02 != 0, b & 0x01 != 0)
  }

  function EncodeSR2(s: SR2): Byte
  {
    (Bit(s.sus) << 7) | (Bit(s.cmp) << 6) | ((s.lb & 0x07) << 5) | (Bit(s.qe) << 1) | Bit(s.srp1)
  }

  /** The SR2 byte sent by a status-register write: `lb` goes to bits 5..3
      here (decode and encode use bits 7..5); `sus` and `srp1` are dropped. */
  function WritableSR2(s: SR2): (b: Byte)
    ensures b & 0x85 == 0
    ensures (b >> 6) & 1 == Bit(s.cmp) && (b >> 3) & 0x07 == s.lb & 0x07 && (b >> 1) & 1 == Bit(s.qe)
  {
    (Bit(s.cmp) << 6) | (Bit(s.qe) << 1) | ((s.lb & 0x07) << 3)
  }

  // ---------------------------------------------------------------- SR3

  function DecodeSR3(b: Byte): (s: SR3)
    ensures s.driverStrength <= 3
    ensures EncodeSR3(s) == b & 0xE4
  {
    SR3(b & 0x80 != 0, (b >> 5) & 0x03, b & 0x04 != 0)
  }

  function EncodeSR3(s: SR3): Byte
  {
    (Bit(s.holdOrReset) << 7) | ((s.driverStrength & 0x03) << 5) | (Bit(s.wps) << 2)
  }

  /** The SR3 byte sent by a status-register write: `hold_or_reset` is dropped. */
  function WritableSR3(s: SR3): (b: Byte)
    ensures b & 0x9B == 0
    ensures b == EncodeSR3(s) & 0x64
  {
    (Bit(s.wps) << 2) | ((s.driverStrength & 0x03) << 5)
  }

  // ------------------------------------------------------------ lemmas

  /** Decoding an encoded SR1 gives the fields back exactly when `bp` fits
      in its three bits; encode ignores the higher bits of `bp`. */
  lemma SR1FieldsRoundTrip(s: SR1)
    ensures DecodeSR1(EncodeSR1(s)) == s <==> s.bp < 8
  {
  }

  /** SR2's `lb` is read from and written to bits 7..5, overlapping `sus` and
      `cmp`, so a field round trip holds only when those agree with `lb`. */
  lemma SR2FieldsRoundTrip(s: SR2)
    ensures DecodeSR2(EncodeSR2(s)) == s <==> s.lb < 8 && s.sus == (s.lb & 0x04 != 0) && s.cmp == (s.lb & 0x02 != 0)
  {
  }

  lemma SR3FieldsRoundTrip(s: SR3)
    ensures DecodeSR3(EncodeSR3(s)) == s <==> s.driverStrength < 4
  {
  }

  /** The SR1 write payload depends only on `sec`, `tb` and the low three
      bits of `bp`: changing `srp0`, `wel` or `busy` does not change it. */
  lemma WritableSR1Depends(x: SR1, y: SR1)
    requires x.sec == y.sec && x.tb == y.tb && x.bp & 0x07 == y.bp & 0x07
    ensures WritableSR1(x) == WritableSR1(y)
  {
  }

  /** The SR2 write payload depends only on `cmp`, `qe` and `lb & 7`. */
  lemma WritableSR2Depends(x: SR2, y: SR2)
    requires x.cmp == y.cmp && x.qe == y.qe && x.lb & 0x07 == y.lb & 0x07
    ensures WritableSR2(x) == WritableSR2(y)
  {
  }

  /** The SR3 write payload depends only on `wps` and `driver_strength & 3`. */
  lemma WritableSR3Depends(x: SR3, y: SR3)
    requires x.wps == y.wps && x.driverStrength & 0x03 == y.driverStrength & 0x03
    ensures WritableSR3(x) == WritableSR3(y)
  {
  }
}
