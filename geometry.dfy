/** Address-space arithmetic of the older driver variant: how a write is
    split at page boundaries, which sectors an erase touches, and how a read
    is clamped to the chip's capacity. */
module Geometry {
  import opened Machine

  /** The local `min` helper. */
  function Min(a: int, b: int): (m: int)
    ensures m <= a && m <= b && (m == a || m == b)
  {
    if a < b then a else b
  }

  // ------------------------------------------------------------ writes

  /** One page-program command: `bytes` written at `offset`. */
  datatype Chunk = Chunk(offset: nat, bytes: seq<Byte>)

  function End(c: Chunk): nat {
    c.offset + |c.bytes|
  }

  /** A chunk holds at least one byte and all its bytes lie in one page. */
  predicate WithinPage(c: Chunk) {
    |c.bytes| > 0 && c.offset / PAGE_SIZE == (End(c) - 1) / PAGE_SIZE
  }

  /** The bytes of the chunks, in order. */
  function Concat(cs: seq<Chunk>): seq<Byte> {
    if cs == [] then [] else cs[0].bytes + Concat(cs[1..])
  }

  /** The split the write loop performs: from `offset`, take what is left of
      the current page (or of the data, if less), and go on from there. */
  function PageChunks(offset: nat, data: seq<Byte>): (cs: seq<Chunk>)
    decreases |data|
    ensures Concat(cs) == data
    ensures (cs == []) == (data == [])
    ensures cs != [] ==> cs[0].offset == offset
    ensures forall i :: 0 <= i < |cs| ==> WithinPage(cs[i])
  {
    if data == [] then []
    else
      var size := Min(PAGE_SIZE - offset % PAGE_SIZE, |data|);
      var rest := PageChunks(offset + size, data[size..]);
      var cs := [Chunk(offset, data[..size])] + rest;
      assert Concat(cs) == data[..size] + Concat(rest);
      cs
  }

  /** Chunk `i + 1` starts where chunk `i` ends, and that is a page boundary. */
  predicate Joined(cs: seq<Chunk>, i: nat)
    requires i + 1 < |cs|
  {
    cs[i + 1].offset == End(cs[i]) && End(cs[i]) % PAGE_SIZE == 0
  }

  /** Consecutive chunks are contiguous, and every chunk but the last ends on
      a page boundary: the data is split at every page boundary it crosses
      and nowhere else. */
  lemma {:induction false} PageChunksContiguous(offset: nat, data: seq<Byte>)
    ensures forall i :: 0 <= i < |PageChunks(offset, data)| - 1 ==> Joined(PageChunks(offset, data), i)
    decreases |data|
  {
    if data != [] {
      var size := Min(PAGE_SIZE - offset % PAGE_SIZE, |data|);
      var rest := PageChunks(offset + size, data[size..]);
      PageChunksContiguous(offset + size, data[size..]);
      var c := Chunk(offset, data[..size]);
      assert PageChunks(offset, data) == [c] + rest;
      if rest != [] {
        assert size < |data|;
        assert rest[0].offset == offset + size && size == PAGE_SIZE - offset % PAGE_SIZE;
        NextPageStart(offset);
        assert End(c) == offset + size;
      }
      JoinedCons(c, rest);
    }
  }

  /** A chunk ending at a page boundary where the next chunks begin, put in
      front of contiguous chunks, keeps them contiguous. */
  lemma JoinedCons(c: Chunk, rest: seq<Chunk>)
    requires rest != [] ==> rest[0].offset == End(c) && End(c) % PAGE_SIZE == 0
    requires forall i :: 0 <= i < |rest| - 1 ==> Joined(rest, i)
    ensures forall i :: 0 <= i < |[c] + rest| - 1 ==> Joined([c] + rest, i)
  {
    forall i | 0 <= i < |[c] + rest| - 1
      ensures Joined([c] + rest, i)
    {
      if i > 0 {
        assert Joined(rest, i - 1);
      }
    }
  }

  /** Filling up the rest of the current page reaches the next page start. */
  lemma NextPageStart(offset: nat)
    ensures offset + (PAGE_SIZE - offset % PAGE_SIZE) == (offset / PAGE_SIZE + 1) * PAGE_SIZE
    ensures (offset + (PAGE_SIZE - offset % PAGE_SIZE)) % PAGE_SIZE == 0
  {
  }

  /** Where the last chunk ends: the write covers `[offset, offset + |data|)`. */
  lemma {:induction false} PageChunksEnd(offset: nat, data: seq<Byte>)
    requires data != []
    ensures End(PageChunks(offset, data)[|PageChunks(offset, data)| - 1]) == offset + |data|
    decreases |data|
  {
    var size := Min(PAGE_SIZE - offset % PAGE_SIZE, |data|);
    if size < |data| {
      PageChunksEnd(offset + size, data[size..]);
    }
  }

  /** A worked example: 300 bytes at offset 200 are
      written as 56 bytes at 200 and 244 bytes at 256. */
  lemma PageChunksExample(data: seq<Byte>)
    requires |data| == 300
    ensures PageChunks(200, data) == [Chunk(200, data[..56]), Chunk(256, data[56..])]
  {
    var rest := data[56..];
    assert rest[244..] == [] && rest[..244] == rest;
    assert Min(PAGE_SIZE - 256 % PAGE_SIZE, |rest|) == 244;
    assert PageChunks(256, rest) == [Chunk(256, rest)] + PageChunks(500, []);
    assert Min(PAGE_SIZE - 200 % PAGE_SIZE, |data|) == 56;
    assert PageChunks(200, data) == [Chunk(200, data[..56])] + PageChunks(256, rest);
  }

  // ------------------------------------------------------------ erases

  /** First sector index `erase_sector(off, len)` erases: `off / 4096`. */
  function EraseStart(off: nat): nat {
    off / SECTOR_SIZE
  }

  /** One past the last sector index it erases, as the source computes it:
      `(min(off + len, TOTAL_SIZE) + 4096) / 4096`. */
  function EraseEnd(off: nat, len: nat): nat {
    (Min(off + len, TOTAL_SIZE) + SECTOR_SIZE) / SECTOR_SIZE
  }

  /** The erased sectors cover the requested range and more: they also
      always cover the byte just past its (clamped) end. */
  lemma EraseCovers(off: nat, len: nat)
    requires off < TOTAL_SIZE
    ensures EraseStart(off) * SECTOR_SIZE <= off
    ensures Min(off + len, TOTAL_SIZE) < EraseEnd(off, len) * SECTOR_SIZE
    ensures EraseStart(off) < EraseEnd(off, len)
  {
  }

  /** Compared with the ceiling `(end + 4095) / 4096` that covers exactly
      the sectors meeting `[off, end)`, the source's end index is one sector
      more when `end` is sector-aligned and the same otherwise. */
  lemma EraseEndVersusCeiling(off: nat, len: nat)
    ensures var end := Min(off + len, TOTAL_SIZE);
      EraseEnd(off, len) == (end + SECTOR_SIZE - 1) / SECTOR_SIZE + (if end % SECTOR_SIZE == 0 then 1 else 0)
  {
  }

  /** The last sector index reaches 4096, past the end of the chip, exactly
      when the requested range reaches the end of the chip. */
  lemma EraseReachesPastChip(off: nat, len: nat)
    ensures EraseEnd(off, len) - 1 == SECTOR_COUNT <==> off + len >= TOTAL_SIZE
    ensures EraseEnd(off, len) - 1 <= SECTOR_COUNT
  {
  }

  /** Two examples: `(0, 4096)` erases sectors 0 and 1 (8192 bytes);
      `(4097, 1)` erases sector 1 only (4096 bytes). */
  lemma EraseExamples()
    ensures EraseStart(0) == 0 && EraseEnd(0, 4096) == 2
    ensures EraseStart(4097) == 1 && EraseEnd(4097, 1) == 2
  {
  }

  // ------------------------------------------------------------- reads

  /** How many bytes a read of `len` bytes at `off` transfers: what fits
      before the end of the chip. */
  function ReadSize(off: nat, len: nat): (n: nat)
    requires off < TOTAL_SIZE
    ensures n <= len && off + n <= TOTAL_SIZE
    ensures n == len || off + n == TOTAL_SIZE
  {
    Min(len, TOTAL_SIZE - off)
  }
}
