# W25Q serial NOR-flash driver, modelled in Dafny

This project models the command layer of a driver for the Winbond W25Q
serial NOR-flash chip, and proves properties of that model. The chip has
16 MiB, 4 KiB sectors and 256-byte pages. The driver turns storage
operations (read, write, erase, lock, power management) into byte-exact SPI
transactions. It also offers the chip as a seekable byte stream with a
one-page read buffer.

The repository holds two versions of the driver, modelled as separate modules.

The current crate (`src/lib.rs` with `src/io.rs`) is modelled by:
- `Device`: the `W25Q` struct and its commands;
- `Io`: the embedded-io `Seek`, `Read`, `Write` and `BufRead` streams and the mapping of errors to `ErrorKind`.

The older variant (`src/mem.rs` with `src/interface.rs` and `src/types.rs`) is modelled by:
- `Interface`: `SpiInterface`, which checks the 24-bit address range, builds the command header and wraps bus errors as `Error::Comm`;
- `Mem`: the older `W25Q`, with `read`, a `write` that splits at page boundaries, `erase_sector` over sectors, and the status and identification reads.

Both variants share these modules:
- `StatusRegisters`: the SR1/SR2/SR3 decode, encode and writable-byte codecs;
- `Framing`: the opcode-and-address header, the fast-read frame and big-endian word assembly;
- `Geometry`: page splitting, erase sector ranges and read clamping, used by the older variant; the current one uses only its `Min`;
- `Registers`: the opcode constants;
- `Machine`: bytes, fixed-width integers, `Result` and the chip geometry.

**The bus.** `Spi.Bus` is a recorder that stands in for the embedded-hal
`SpiDevice` and the `DelayNs` provider.
- It logs every transaction, every bare `write` and every `delay_ms` as an `Event`, together with the device's reply.
- It answers from a finite script of replies. Each exchange takes one reply, which is a `Reject` (a bus error) or the bytes the device sends. Those bytes are cut or zero-padded to the length read.
- Once the script is used up, the device answers with zero bytes.
- On a `Reject` the recorder writes nothing into the read buffers. embedded-hal does not promise this of a real `SpiDevice`, so the read contracts' "untouched on failure" clauses describe this bus, not the driver (see "## Left out").

**How operations are specified.** Every driver operation has a specification
function `...Run(..., script)` that returns a `Run`, made of three parts:
- the events the operation logs;
- its result;
- the script it leaves.

Each method is proved to perform exactly that run. For the loops, that
means `wait_until_ready`, both loops of `erase_sector` and the page loop
of `write`. The lemmas then state what the runs mean: which transactions are
sent and in what order, when an operation fails and with which error, and
what it returns.

**Integers.**
- `usize` is an unbounded `nat`.
- `u32`, `u64` and `i64` are subset types.
- The `as u32` casts truncate modulo 2^32 (`Machine.ToWord`), in both variants.
- Address shifts and masks are divisions and remainders by powers of 256. Two of them are connected to the bit-vector forms the source writes: the shift-and-OR word assembly (`Framing.ShiftsAssembleWord`) and the `addr & 0xFF00_0000` range test (`Interface.MaskTestIsBound`). The header bytes `((addr >> 8 * i) & 0xFF) as u8` are written as `Framing.ByteAt` directly, without such a lemma.

**Erase arithmetic.**
`erase_sector` computes its end sector as `(min(off + len, TOTAL_SIZE) + 4096) / 4096`.
This is not the ceiling of the end offset:
- when the end is sector-aligned, one sector more is erased;
- otherwise the result equals the ceiling (`Geometry.EraseEndVersusCeiling`).

The two differ on an aligned end. For `(0, 4096)` a ceiling of the end
offset would erase sector 0 only and return 4096. The code erases sectors
0 and 1 and returns 8192 (`Mem.EraseFirstSectorExample`). For `(4097, 1)`
the end is not aligned, and the code and a ceiling agree: sector 1 only,
4096 bytes (`Geometry.EraseExamples`).
The code also sends every erase command first and then polls once, rather
than polling after each sector. Both points are modelled as the code does
them.

**The buffered window is never invalidated.** `fill_buf` refills only when
the window `[buffer_start, buffer_end)` is empty. Nothing else closes it:
`seek`, `read` and `write` move the cursor or change the chip, but leave
the window as it is. So `fill_buf` can return bytes that belong to another
offset range than the cursor's, or bytes the chip no longer holds. A fresh
driver opens the window over its zeroed 256-byte buffer: after seeking to
252, `fill_buf` returns those 256 zeros, not the chip's bytes from offset
252 on (`Io.SeekThenFill`). This is modelled as the code does it.

## Model

| member | source | states |
|---|---|---|
| StatusRegisters.DecodeSR1 | src/lib.rs:41-63 | the decoded `bp` is at most 7, and encoding the decoded fields gives back every byte: the six fields cover all eight bits |
| StatusRegisters.SR1FieldsRoundTrip | src/types.rs:21-43 | decoding an encoded SR1 gives back the fields exactly when `bp < 8`; encode drops the higher `bp` bits |
| StatusRegisters.WritableSR1 | src/lib.rs:65-73 | the SR1 write byte has bits 7, 1 and 0 clear, so `srp0`, `wel` and `busy` are never sent; it is the encoding masked with 0x7C |
| StatusRegisters.WritableSR1Depends | src/lib.rs:65-73 | the SR1 write byte depends only on `sec`, `tb` and `bp & 7` |
| StatusRegisters.DecodeSR2 | src/types.rs:55-75 | the decoded `lb` is at most 7, and re-encoding a decoded byte gives `b & 0b1110_0011`: bits 4..2 are never read |
| StatusRegisters.SR2FieldsRoundTrip | src/lib.rs:85-105 | decode(encode(s)) == s exactly when `lb < 8`, `sus` equals bit 2 of `lb` and `cmp` equals bit 1 of `lb`, because `lb` overlaps them at bits 7..5 |
| StatusRegisters.WritableSR2 | src/lib.rs:107-115 | the SR2 write byte has bits 7, 2 and 0 clear, with `cmp` at bit 6, `lb & 7` at bits 5..3 and `qe` at bit 1 |
| StatusRegisters.WritableSR2Depends | src/lib.rs:107-115 | the SR2 write byte depends only on `cmp`, `qe` and `lb & 7` |
| StatusRegisters.DecodeSR3 | src/types.rs:85-99 | the decoded drive strength is at most 3, and re-encoding a decoded byte gives `b & 0b1110_0100` |
| StatusRegisters.SR3FieldsRoundTrip | src/lib.rs:125-139 | decode(encode(s)) == s exactly when the drive strength is below 4 |
| StatusRegisters.WritableSR3 | src/lib.rs:141-148 | the SR3 write byte has bits 7, 4, 3, 1 and 0 clear; it is the encoding masked with 0x64 |
| StatusRegisters.WritableSR3Depends | src/lib.rs:141-148 | the SR3 write byte depends only on `wps` and the drive strength's low two bits |
| Machine.ToWordTruncates | src/mem.rs:80 | the `as u32` cast of an offset keeps its remainder modulo 2^32 |
| Machine.ToByteValue | src/interface.rs:46-48 | the `as u8` of a value below 256 reads back as that value |
| Machine.Zeros | src/lib.rs:243 | a fresh buffer of n bytes has length n and every byte zero |
| Framing.AddressHeader | src/lib.rs:262-267 | the header has four bytes and starts with the command |
| Framing.AddressHeaderValue | src/lib.rs:294-299 | the three address bytes of the header, most significant first, spell the address modulo 2^24 |
| Framing.HeaderIgnoresTopByte | src/lib.rs:262-267 | two addresses give the same header exactly when their low 24 bits agree: without a range check, the top address byte is silently dropped |
| Framing.FastReadFrame | src/lib.rs:405-406 | the fast-read frame is the addressed header of opcode 0x0B followed by one zero dummy byte |
| Framing.ShiftsAssembleWord | src/mem.rs:25-32 | the shift-and-OR assembly of four bytes equals the base-256 number they spell |
| Framing.BigEndianRoundTrip | src/mem.rs:25-32 | assembling the `to_be_bytes` of a word gives the word back, and the `to_be_bytes` of an assembled word gives the bytes back |
| Interface.LiftIsLossless | src/interface.rs:52 | wrapping a bus result as `Error::Comm` is injective and keeps success as success |
| Interface.MaskTestIsBound | src/interface.rs:40 | `addr & 0xFF000000 == 0` holds exactly when the address is below 2^24 |
| Interface.HeaderEncodesAddress | src/interface.rs:43-48 | for an address that passes the check, `h[1]*65536 + h[2]*256 + h[3]` equals the address and `h[0]` is the register |
| Interface.AddressedRunsChecked | src/interface.rs:39-42 | `read_from_addr` and `write_addr` fail with AddressSize exactly when the top address byte is set, and then send nothing; otherwise they send one transaction, which fails exactly when the bus rejects it, with `Comm` of that error |
| Interface.SpiInterface.ReadFromAddr | src/interface.rs:33-54 | performs the `read_from_addr` run; on success the payload holds the bytes read and the register is returned; on failure the payload is untouched |
| Interface.SpiInterface.ReadData | src/interface.rs:56-61 | one transaction `[Write([register]), Read(n)]` with no range check; on success the payload holds the bytes read, on failure it is untouched |
| Interface.SpiInterface.WriteAddr | src/interface.rs:80-96 | performs the `write_addr` run: the range check, then header and payload in one transaction |
| Interface.SpiInterface.WriteData | src/interface.rs:98-100 | one bare bus write of the payload, its error wrapped as `Comm` |
| Geometry.Min | src/mem.rs:169-175 | the result is at most both arguments and is one of them |
| Geometry.PageChunks | src/mem.rs:94-115 | the write loop's chunks concatenate to the data; there are none exactly when the data is empty; the first starts at `off`; each holds at least one byte and lies within one page |
| Geometry.PageChunksContiguous | src/mem.rs:98-113 | each chunk starts where the previous one ends, on a page boundary, so the data is split at every page boundary it crosses and nowhere else |
| Geometry.PageChunksEnd | src/mem.rs:98-113 | the last chunk ends at `off + data.len()` |
| Geometry.PageChunksExample | src/mem.rs:98-113 | 300 bytes at offset 200 are written as 56 bytes at 200, then 244 bytes at 256 |
| Geometry.EraseCovers | src/mem.rs:125-133 | the erased sectors start at or before `off`, reach past the clamped end of the range, and are never empty |
| Geometry.EraseEndVersusCeiling | src/mem.rs:127 | the end sector index is the ceiling of the clamped end, plus one when that end is sector-aligned |
| Geometry.EraseReachesPastChip | src/mem.rs:125-127 | the last sector index is 4096, one past the chip, exactly when the range reaches the end of the chip, and never beyond |
| Geometry.EraseExamples | src/mem.rs:126-127 | `(0, 4096)` covers sectors 0 and 1; `(4097, 1)` covers sector 1 only |
| Geometry.ReadSize | src/mem.rs:76-77 | the read length is at most the buffer length, stays within the chip, and is either the whole buffer or exactly what remains of the chip |
| Mem.WriteEnableOnlyWhenLatchClear | src/mem.rs:55-69 | `write_enable` always reads SR1 first, and sends `[0x06]` as a bare write exactly when that read succeeds with `wel` (bit 1) clear; a failed read is returned as `Comm` |
| Mem.ReadClamped | src/mem.rs:71-84 | an offset past the chip fails with AddressSize before any bus traffic; otherwise one opcode-0x03 transaction at `off` reads `min(n, TOTAL_SIZE - off)` bytes, and that count is returned exactly when the bus accepts |
| Mem.ProgramLoopOk | src/mem.rs:98-113 | a successful page loop sends exactly one page-program transaction per page chunk, in order, each with the chunk's offset and bytes |
| Mem.WriteOutcome | src/mem.rs:86-116 | a successful `write` returns `data.len()` with `off` inside the chip, logs the write enable's events and then one page program per chunk with no poll between them; an offset past the chip still reads SR1 and then fails with AddressSize |
| Mem.EraseLoopOk | src/mem.rs:129-133 | a successful erase loop sends one sector-erase command per index, at address index × 4096, in order |
| Mem.EraseLoopFailsAtLast | src/mem.rs:129-133 | when the last sector's address fails the 24-bit check, the erase loop fails |
| Mem.ErasePollEndsIdle | src/mem.rs:135-142 | a successful erase poll ends with a 45 ms delay and an SR1 read whose busy bit is clear |
| Mem.EraseSectorOutcome | src/mem.rs:118-145 | a successful erase logs the write enable's events, then one sector-erase command for each index from `off / 4096` up to `(min(off + len, TOTAL_SIZE) + 4096) / 4096`, exclusive, in order, then only the busy poll: pairs of a 45 ms delay and an SR1 read, every read but the last reading BUSY and the last one idle; it returns 4096 × the number of those commands; an offset or length of at least the chip size fails with AddressSize |
| Mem.EraseSectorParts | src/mem.rs:118-145 | a successful erase is the write enable, then the sector loop, which sends exactly `EraseEnd - EraseStart` sector-erase commands from `off / 4096` on, then the poll after both, which succeeds |
| Mem.EraseSectorLogged | src/mem.rs:118-145 | the log half of `EraseSectorOutcome`: write enable, the sector-erase commands in order, then only poll pairs of a 45 ms delay and an SR1 read, all but the last BUSY and the last idle |
| Mem.EraseSectorPollSuffix | src/mem.rs:134-144 | what follows the sector-erase commands of a successful erase is exactly the log of the poll run on its own |
| Mem.ErasePollPrefix | src/mem.rs:135-142 | the busy poll only appends to the log |
| Mem.PollRepliesAt | src/mem.rs:135-142 | pair `j` of the poll log for a list of replies is a 45 ms delay and the SR1 read that got reply `j` |
| Mem.ErasePollShift | src/mem.rs:135-142 | the busy poll logs the same events, returns the same result and leaves the same replies whatever was logged before it |
| Mem.ErasePollShape | src/mem.rs:135-142 | whatever the replies, the busy poll appends only pairs of a 45 ms delay and an SR1 read, and every read but the last reads BUSY |
| Mem.ErasePollSpec | src/mem.rs:135-142 | with `i` BUSY replies followed by one that is not, the poll logs exactly `i` pairs of a 45 ms delay and a read of those replies (`PollReplies`, whose pair `j` holds reply `j` by `Mem.PollRepliesAt`), then a delay and the final read; it fails exactly when that read fails, with `Comm`, and consumes `i + 1` replies |
| Mem.EraseAtChipEndFails | src/mem.rs:125-132 | an erase whose range reaches the end of the chip never succeeds; on a bus that accepts every exchange it fails with AddressSize, because its last sector address 0x1000000 fails the 24-bit check |
| Mem.EraseLoopRejectsChipEnd | src/mem.rs:129-132 | on a bus that accepts every exchange, a sector loop running up to index 4096 fails with AddressSize |
| Mem.WriteEnableAccepted | src/mem.rs:55-64 | on a bus that accepts every exchange, `write_enable` succeeds |
| Mem.EraseFirstSectorExample | src/mem.rs:125-144 | a successful `erase_sector(0, 4096)` returns 8192 and sends its erase commands to addresses 0 and 0x1000 |
| Mem.UniqueIdWords | src/mem.rs:25-33 | the two words of the unique ID are the big-endian readings of bytes 4..8 and 8..12 of the 12-byte read |
| Mem.W25Q.ReadUniqueId | src/mem.rs:19-35 | one 12-byte `read_data` after opcode 0x4B; on success the two 32-bit words of bytes 4..12; the error is passed on |
| Mem.W25Q.ReadJedecId | src/mem.rs:37-43 | one 3-byte `read_data` after opcode 0x9F; on success the three bytes |
| Mem.W25Q.ReadSfdp | src/mem.rs:45-53 | one 256-byte `read_from_addr` at SFDP address 0; on success exactly 256 bytes; address 0 cannot fail the range check, so the only error is `Comm` |
| Mem.W25Q.WriteEnable | src/mem.rs:55-64 | performs the `write_enable` run: read SR1, and send the write enable only when the latch is clear |
| Mem.W25Q.CanWrite | src/mem.rs:66-69 | one SR1 read; on success the decoded `wel` bit |
| Mem.W25Q.Read | src/mem.rs:71-84 | performs the `read` run; on success the first `min(buf.len(), TOTAL_SIZE - off)` bytes of `buf` hold the data read and the rest is untouched; on failure `buf` is untouched |
| Mem.W25Q.Write | src/mem.rs:86-116 | performs the `write` run: write enable, the bounds check, then the page loop |
| Mem.W25Q.ProgramPages | src/mem.rs:94-115 | the `while` loop logs exactly what the page loop specifies and returns `data.len()` unless a page program fails |
| Mem.W25Q.EraseSector | src/mem.rs:118-145 | performs the `erase_sector` run: write enable, the bounds check, the sector loop, the busy poll |
| Mem.W25Q.EraseSectors | src/mem.rs:129-133 | the `for` loop logs exactly the sector-erase commands the erase loop specifies and stops at the first failure |
| Mem.W25Q.AwaitErase | src/mem.rs:135-142 | the poll loop (45 ms delay, SR1 read, repeat while busy) logs exactly what the erase poll specifies |
| Mem.W25Q.ReadSr1 | src/mem.rs:147-152 | one 1-byte read after opcode 0x05, decoded as SR1 |
| Mem.W25Q.ReadSr2 | src/mem.rs:154-159 | one 1-byte read after opcode 0x35, decoded as SR2 |
| Mem.W25Q.ReadSr3 | src/mem.rs:161-166 | one 1-byte read after opcode 0x15, decoded as SR3 |
| Device.PollRunSpec | src/lib.rs:518-527 | when `i` busy replies come before a not-busy one, `wait_until_ready` logs `i` pairs of an SR1 read and a 1 ms delay, then one final read, and stops; it fails exactly when that read fails, and uses `i + 1` replies |
| Device.PollSucceedsOnlyWhenReady | src/lib.rs:518-527 | the poll succeeds only when its last event is an SR1 read whose status byte has bit 0 clear |
| Device.GatedRunShape | src/lib.rs:375-397 | a gated command sends `[0x06]` first, and its failure stops everything; when the first three exchanges succeed, the log is `[0x06]`, `[0x50]`, header with payload, then the busy poll on the rest of the script |
| Device.WriteStatusSendsWritableBits | src/lib.rs:347-356 | after the write enable, the one write-data transaction is `[0x50] [cmd] [value]`, with the opcode chosen by register; its value byte has the register's read-only bits clear |
| Device.W25Q.NewWithSpi | src/lib.rs:238-247 | a new device has seek pointer 0, a zeroed 256-byte buffer and the window `[0, 256)` |
| Device.W25Q.ReadFromAddress | src/lib.rs:256-272 | one transaction of header and read, with no range check; on success the payload holds the bytes and the command is returned |
| Device.W25Q.ReadRegister | src/lib.rs:275-285 | one transaction `[Write([command]), Read(n)]`; on success the payload holds the bytes, on failure it is untouched |
| Device.W25Q.WriteAddress | src/lib.rs:288-309 | a `[0x50]` transaction, then the header and payload in one transaction; the first failure is returned |
| Device.W25Q.WriteData | src/lib.rs:312-320 | one transaction `[0x50] [command] [payload]` |
| Device.W25Q.ReadJedecId | src/lib.rs:322-326 | one 3-byte read after opcode 0x9F; on success exactly three bytes |
| Device.W25Q.ReadUniqueId | src/lib.rs:328-334 | one 8-byte read after `[0x4B, 0, 0, 0, 0]`; on success exactly eight bytes |
| Device.W25Q.ReadStatusRegister | src/lib.rs:336-345 | one 1-byte read with the register's read opcode; the fields the argument carries are ignored |
| Device.W25Q.WriteStatusRegister | src/lib.rs:347-356 | performs the status-write run: write enable, write data with the writable byte, busy poll |
| Device.W25Q.WriteEnable | src/lib.rs:358-361 | one `[0x06]` transaction, with its result passed on |
| Device.W25Q.WriteDisable | src/lib.rs:363-366 | one `[0x04]` transaction, with its result passed on |
| Device.W25Q.ChipErase | src/lib.rs:368-373 | write enable, `[0xC7]`, busy poll; the first failure is returned |
| Device.W25Q.SectorErase | src/lib.rs:375-379 | the gated run of opcode 0x20 with an empty payload |
| Device.W25Q.BlockErase32Kb | src/lib.rs:381-385 | the gated run of opcode 0x52 with an empty payload |
| Device.W25Q.BlockErase64Kb | src/lib.rs:387-391 | the gated run of opcode 0xD8 with an empty payload |
| Device.W25Q.PageProgram | src/lib.rs:393-397 | the gated run of opcode 0x02 with the data as payload, unsplit |
| Device.W25Q.ReadData | src/lib.rs:399-402 | one addressed read with opcode 0x03 into `data`; on failure `data` is untouched |
| Device.W25Q.FastRead | src/lib.rs:404-410 | one transaction of the fast-read frame and a read of `data.len()` bytes; on failure `data` is untouched |
| Device.W25Q.FastReadIntoInternalBuffer | src/lib.rs:412-425 | one fast read of 256 bytes; on success the buffer holds them and the window is `[0, 256)`; on failure the buffer and window are unchanged |
| Device.W25Q.PowerDown | src/lib.rs:427-430 | one `[0xB9]` transaction |
| Device.W25Q.ReleasePowerDown | src/lib.rs:432-435 | one `[0xAB]` transaction |
| Device.W25Q.EraseSecurityRegister | src/lib.rs:437-441 | the gated run of opcode 0x44 with an empty payload |
| Device.W25Q.ProgramSecurityRegister | src/lib.rs:443-451 | the gated run of opcode 0x42 with the data as payload |
| Device.W25Q.ReadSecurityRegister | src/lib.rs:453-460 | one addressed read with opcode 0x48 into `data` |
| Device.W25Q.GlobalBlockLock | src/lib.rs:462-466 | write enable, then `[0x7E]`, with no busy poll |
| Device.W25Q.GlobalBlockUnlock | src/lib.rs:468-473 | write enable, then `[0x98]`, with no busy poll |
| Device.W25Q.ReadBlockLock | src/lib.rs:475-479 | one addressed 1-byte read with opcode 0x3D; on success whether bit 0 of the byte is set |
| Device.W25Q.IndividualBlockLock | src/lib.rs:481-485 | the gated run of opcode 0x36 |
| Device.W25Q.IndividualBlockUnlock | src/lib.rs:487-491 | the gated run of opcode 0x39 |
| Device.W25Q.EraseProgramSuspend | src/lib.rs:493-497 | one `[0x75]` transaction |
| Device.W25Q.EraseProgramResume | src/lib.rs:499-503 | one `[0x7A]` transaction |
| Device.W25Q.ResetDevice | src/lib.rs:505-512 | one transaction `[0x66] [0x99]`, then a 30 ms delay if it succeeds |
| Device.W25Q.Capacity | src/lib.rs:514-516 | the capacity is page count × page size (16 MiB) |
| Device.W25Q.WaitUntilReady | src/lib.rs:518-527 | the polling loop logs exactly what the poll specifies: SR1 reads with a 1 ms delay after each busy one, until bit 0 reads clear or a read fails |
| Io.FromSpiKind | src/io.rs:32-43 | the conversion keeps every listed bus error kind and maps kinds the driver does not list to `Other` |
| Io.FromSpiKindKeepsKind | src/io.rs:16-43 | converting a bus error kind never changes what `kind()` reports |
| Io.SpiKindsDistinguished | src/io.rs:16-30 | distinct listed bus error kinds are reported as distinct I/O kinds; a bus error reads as `Other` exactly when its kind is `Other` or unlisted |
| Io.SeekTarget | src/io.rs:90-118 | a seek succeeds exactly when the requested position lies in `[0, capacity]` and then returns it; otherwise it fails with InvalidInput, branch by branch for Start, End and Current |
| Io.SeekEndZero | src/io.rs:100-106 | `seek(End(0))` returns the capacity |
| Io.Seek | src/io.rs:90-118 | the result is the seek target; the cursor becomes the target on success and is unchanged on failure; the buffer and window are never touched |
| Io.Read | src/io.rs:58-64 | one fast read of `buf.len()` bytes at the cursor; on success it returns `buf.len()`, `buf` holds the data and the cursor advances by `buf.len()`; on a bus error the cursor and `buf` are unchanged and the error's kind is returned |
| Io.Write | src/io.rs:72-78 | the whole buffer in one `page_program` at the cursor, with no page splitting; on success it returns `buf.len()` and the cursor advances by it; on a bus error the cursor is unchanged |
| Io.PageStart | src/io.rs:148 | the refill page starts on a page boundary, at or before the cursor and less than a page before it |
| Io.FillBuf | src/io.rs:146-155 | with bytes left in the window it sends nothing and returns them; otherwise it fetches the cursor's page, opens the window `[cursor mod 256, 256)` and returns it; a failed fetch changes nothing but the bus |
| Io.Consume | src/io.rs:157-161 | the window start becomes `min(start + amt, end)` and the cursor advances by `amt`, keeping `start <= end <= 256` |
| Io.FreshFill | src/io.rs:146-155 | a freshly built device's first `fill_buf` returns 256 zero bytes and sends nothing on the bus |
| Io.SeekThenFill | src/io.rs:146-155 | after a fresh device seeks to 252, `fill_buf` still returns the 256 zero bytes of the initial window and sends nothing: seek does not invalidate the window |
| Io.Kind | src/io.rs:16-30 | an I/O error reports its own kind; a bus error reports one of five kinds, and Overrun, ModeFault, FrameFormat and ChipSelectFault are exactly the bus errors that map to OutOfMemory, PermissionDenied, InvalidData and ConnectionReset |

## Left out

- `src/littlefs.rs` and the `littlefs2` `Storage` adapter in `src/mem.rs:177-203`: these only forward calls and convert errors into another crate's type.
- The board demo programs `driver.rs`, `stm32f401.rs` and `littlefs.rs` (clock and pin setup, logging, demo loops): these are not driver logic.
- `src/registers.rs` has no behaviour of its own. Its opcode values appear as the constants of module `Registers`.
- The defmt `Format` impl (`src/lib.rs:213-231`) is logging only.
- `flush`, `read_ready` and `write_ready` in `src/io.rs` always return `Ok`, so there is nothing to prove about them.
- The SPI peripheral, chip-select timing and real delays: the bus is an abstract recorder, and a delay is only a logged event.
- Physical flash semantics (erase sets bytes to 0xFF, program only clears bits): the driver neither relies on them nor checks them.
- Device.W25Q.WaitUntilReady: the source polls without bound. The model ends the poll when the reply script runs out, because an exhausted script reads "not busy". `Mem.W25Q.AwaitErase` does the same.
- Io.Seek: overflow of `seek_ptr as i64 + pos` and the underflow of `capacity - pos.abs()` for `pos < -capacity` are excluded by the precondition `SeekDefined`. The source would panic in debug builds or wrap in release builds there.
- `usize` is unbounded, so `current_offset += write_size` and the cursor arithmetic of `consume`, `read` and `write` never overflow in the model.
- Mem.W25Q.Read: the source's subslice `&mut buf[..read_size]` is modelled as a separate array of that length, copied back into `buf` after a successful read. Its "`buf` untouched on failure" clause holds because the recorder writes nothing on a bus error; a real `SpiDevice` does not promise that.
- Interface.SpiInterface.ReadFromAddr: its "payload untouched on failure" clause holds because the recorder writes nothing into a read buffer when the bus reports an error. embedded-hal does not promise what an `Operation::Read` buffer holds after a failed `SpiDevice::transaction`, so the driver does not guarantee this clause.
- Interface.SpiInterface.ReadData: its "payload untouched on failure" clause holds because the recorder writes nothing into a read buffer when the bus reports an error. embedded-hal does not promise what an `Operation::Read` buffer holds after a failed `SpiDevice::transaction`, so the driver does not guarantee this clause.
- Device.W25Q.ReadFromAddress: its "payload untouched on failure" clause holds because the recorder writes nothing into a read buffer when the bus reports an error. embedded-hal does not promise what an `Operation::Read` buffer holds after a failed `SpiDevice::transaction`, so the driver does not guarantee this clause.
- Device.W25Q.ReadRegister: its "payload untouched on failure" clause holds because the recorder writes nothing into a read buffer when the bus reports an error. embedded-hal does not promise what an `Operation::Read` buffer holds after a failed `SpiDevice::transaction`, so the driver does not guarantee this clause.
- Device.W25Q.ReadData: its "`data` untouched on failure" clause holds because the recorder writes nothing into a read buffer when the bus reports an error. embedded-hal does not promise what an `Operation::Read` buffer holds after a failed `SpiDevice::transaction`, so the driver does not guarantee this clause.
- Device.W25Q.FastRead: its "`data` untouched on failure" clause holds because the recorder writes nothing into a read buffer when the bus reports an error. embedded-hal does not promise what an `Operation::Read` buffer holds after a failed `SpiDevice::transaction`, so the driver does not guarantee this clause.
- Device.W25Q.FastReadIntoInternalBuffer: its "internal buffer untouched on failure" clause holds because the recorder writes nothing into a read buffer when the bus reports an error. embedded-hal does not promise what an `Operation::Read` buffer holds after a failed `SpiDevice::transaction`, so the driver does not guarantee this clause.
- Device.W25Q.ReadSecurityRegister: its "`data` untouched on failure" clause holds because the recorder writes nothing into a read buffer when the bus reports an error. embedded-hal does not promise what an `Operation::Read` buffer holds after a failed `SpiDevice::transaction`, so the driver does not guarantee this clause.
- Io.Read: its "`buf` untouched on failure" clause holds because the recorder writes nothing into a read buffer when the bus reports an error. embedded-hal does not promise what an `Operation::Read` buffer holds after a failed `SpiDevice::transaction`, so the driver does not guarantee this clause.
- Io.FillBuf: its "internal buffer untouched on failure" clause holds because the recorder writes nothing into a read buffer when the bus reports an error. embedded-hal does not promise what an `Operation::Read` buffer holds after a failed `SpiDevice::transaction`, so the driver does not guarantee this clause.
- Spi.Bus.Transaction: its "read buffer untouched on failure" clause holds because the recorder writes nothing into a read buffer when the bus reports an error. embedded-hal does not promise what an `Operation::Read` buffer holds after a failed `SpiDevice::transaction`, so the driver does not guarantee this clause.
- `Error::BadData` is declared but never produced, so no member produces it.
