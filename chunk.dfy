/** The VelocyStream chunk: a 24-byte little-endian header followed by a
    payload, and the bit-packed `chunk_x` descriptor that marks a chunk as
    the first of its message (low bit set, the rest is the chunk count) or
    as a continuation (low bit clear, the rest is the chunk's number). */
module Chunks {
  import opened Bytes

  /** Bytes taken by length, chunk_x, message_id and message_length. */
  const HeaderSize: nat := 24

  /** One wire unit of a message. No field constrains another: the parser
      below accepts any header values. */
  datatype Chunk = Chunk(
    length: u32,          // total chunk size, header included
    chunkX: u32,          // descriptor: first-chunk flag in bit 0, count or number above it
    messageId: u64,       // identifies the message; 0 is reserved for "not set"
    messageLength: u64,   // total size of the message this chunk is part of
    data: seq<u8>)        // payload

  /** The documented relation between `length` and the payload. A chunk
      can meet it only if its payload leaves room for the header in a u32. */
  predicate LengthConsistent(c: Chunk)
    ensures LengthConsistent(c) ==> |c.data| < 0x1_0000_0000 - HeaderSize
  {
    c.length == HeaderSize + |c.data|
  }

  // ---------------------------------------------------------------- descriptor

  /** `encode_chunk_x`: a one-chunk message is always 3 (first, count 1);
      otherwise index 0 gives `(num_chunks << 1) + 1` and any other index
      `chunk_index << 1`. The shifts are u32 shifts, so bit 31 of the
      operand is lost. */
  function EncodeChunkX(chunkIndex: u32, numChunks: u32): (r: u32)
    ensures LowBit(r) == 1 <==> numChunks == 1 || chunkIndex == 0
    ensures Shr1(r) == if numChunks == 1 then 1
                       else if chunkIndex == 0 then numChunks % 0x8000_0000
                       else chunkIndex % 0x8000_0000
  {
    if numChunks == 1 then 3
    else if chunkIndex == 0 then Shl1(numChunks) + 1
    else Shl1(chunkIndex)
  }

  /** `is_first_chunk`: the low bit of the descriptor. */
  predicate IsFirstChunk(c: Chunk)
  {
    LowBit(c.chunkX) == 1
  }

  /** `get_chunk`: the chunk count, as carried by a first chunk. Its
      `assert!` makes a first chunk a precondition. */
  function GetChunk(c: Chunk): (r: u32)
    requires IsFirstChunk(c)
    ensures c.chunkX == 2 * r + 1
  {
    Shr1(c.chunkX)
  }

  /** `get_chunk_number` as written: 1 for a first chunk; for any other
      chunk it calls `get_chunk`, whose `assert!` then fails, so the
      function too can only be called on a first chunk. */
  function GetChunkNumber(c: Chunk): (r: u32)
    requires IsFirstChunk(c)
    ensures r == 1
  {
    if IsFirstChunk(c) then 1
    else
      // the call `get_chunk()`: its assertion fails before `chunk_x >> 1`
      assert false; Shr1(c.chunkX)
  }

  /** The evidently intended chunk number: 1 for a first chunk, the number
      carried in the descriptor for a continuation chunk. */
  function ChunkNumber(c: Chunk): (r: u32)
    ensures IsFirstChunk(c) ==> r == GetChunkNumber(c)
    ensures !IsFirstChunk(c) ==> c.chunkX == 2 * r
  {
    if IsFirstChunk(c) then 1 else Shr1(c.chunkX)
  }

  /** A one-chunk descriptor reads as "first chunk, one chunk in total",
      whatever index it was encoded with. */
  lemma SingleChunkDescriptor(c: Chunk, chunkIndex: u32)
    requires c.chunkX == EncodeChunkX(chunkIndex, 1)
    ensures c.chunkX == 3
    ensures IsFirstChunk(c) && GetChunk(c) == 1 && GetChunkNumber(c) == 1
  {
  }

  /** The first chunk of a multi-chunk message is marked first, and its
      count survives exactly when it fits in 31 bits. */
  lemma FirstChunkDescriptor(c: Chunk, numChunks: u32)
    requires numChunks != 1 && c.chunkX == EncodeChunkX(0, numChunks)
    ensures IsFirstChunk(c)
    ensures GetChunk(c) == numChunks <==> numChunks < 0x8000_0000
  {
  }

  /** A continuation chunk is not marked first, and the descriptor carries
      its index exactly when that fits in 31 bits. */
  lemma ContinuationDescriptor(c: Chunk, chunkIndex: u32, numChunks: u32)
    requires chunkIndex != 0 && numChunks != 1
    requires c.chunkX == EncodeChunkX(chunkIndex, numChunks)
    ensures !IsFirstChunk(c)
    ensures Shr1(c.chunkX) == chunkIndex <==> chunkIndex < 0x8000_0000
  {
  }

  /** The second chunk of a two-chunk message is outside the domain of
      `get_chunk_number`, although it carries the number 1. */
  lemma GetChunkNumberRejectsContinuation()
    ensures var c := Chunk(25, EncodeChunkX(1, 2), 11, 2, [0]);
            !IsFirstChunk(c) && ChunkNumber(c) == 1
  {
  }

  /** The corrected chunk number recovers what the encoder was given. */
  lemma ChunkNumberOfEncoded(c: Chunk, chunkIndex: u32, numChunks: u32)
    requires chunkIndex < 0x8000_0000
    requires c.chunkX == EncodeChunkX(chunkIndex, numChunks)
    ensures ChunkNumber(c) == if numChunks == 1 || chunkIndex == 0 then 1 else chunkIndex
  {
  }

  /** `encode_chunk_x` counts chunk indices from 0 (index 0 is the first
      chunk), while `get_chunk_number` numbers the first chunk 1. So for any
      count other than 1 the first chunk and the chunk at index 1 get the
      same number, even under the corrected numbering. */
  lemma FirstAndSecondChunkShareNumber(numChunks: u32)
    requires numChunks != 1
    ensures ChunkNumber(Chunk(0, EncodeChunkX(0, numChunks), 0, 0, []))
         == ChunkNumber(Chunk(0, EncodeChunkX(1, numChunks), 0, 0, [])) == 1
  {
  }

  // ---------------------------------------------------------------- construction

  /** `from_data`: a single-chunk message with the fixed id 11. Both casts
      (`as u32`, `as u64`) keep only the low bits of the size. */
  function FromData(data: seq<u8>): (c: Chunk)
    ensures c.data == data && c.messageId == 11
    ensures c.length == (HeaderSize + |data|) % 0x1_0000_0000
    ensures HeaderSize + |data| < 0x1_0000_0000 <==> LengthConsistent(c)
    ensures c.messageLength == |data| % 0x1_0000_0000_0000_0000
    ensures |data| < 0x1_0000_0000_0000_0000 ==> c.messageLength == |data|
    ensures IsFirstChunk(c) && GetChunk(c) == 1 && GetChunkNumber(c) == 1
  {
    Chunk((HeaderSize + |data|) % 0x1_0000_0000,
          EncodeChunkX(0, 1),
          11,
          |data| % 0x1_0000_0000_0000_0000,
          data)
  }

  // ---------------------------------------------------------------- wire codec

  /** The bytes `to_bytes` produces: the four header fields in little-endian
      order, then the payload. */
  function Wire(c: Chunk): (r: seq<u8>)
    ensures |r| == HeaderSize + |c.data|
    ensures r[0..4] == U32ToLe(c.length)
    ensures r[4..8] == U32ToLe(c.chunkX)
    ensures r[8..16] == U64ToLe(c.messageId)
    ensures r[16..24] == U64ToLe(c.messageLength)
    ensures r[HeaderSize..] == c.data
  {
    U32ToLe(c.length) + U32ToLe(c.chunkX) + U64ToLe(c.messageId)
      + U64ToLe(c.messageLength) + c.data
  }

  /** The chunk `from_bytes` reads from b. The length field is taken as it
      is, not compared with the size of b. */
  function Parse(b: seq<u8>): (c: Chunk)
    requires |b| >= HeaderSize
    ensures Wire(c) == b
    ensures c.data == b[HeaderSize..]
    ensures LengthConsistent(c) <==> c.length == |b|
  {
    var c := Chunk(U32FromLe(b[0..4]), U32FromLe(b[4..8]),
                   U64FromLe(b[8..16]), U64FromLe(b[16..24]), b[HeaderSize..]);
    assert Wire(c) == b[0..4] + b[4..8] + b[8..16] + b[16..24] + b[HeaderSize..];
    c
  }

  /** Parsing the bytes of any chunk reproduces every field of it. */
  lemma RoundTrip(c: Chunk)
    ensures Parse(Wire(c)) == c
  {
  }

  /** A 24-byte buffer of zeros parses, although its length field says 0. */
  lemma ParseIgnoresLengthField()
    ensures var c := Parse(seq(HeaderSize, _ => 0));
            c.length == 0 && c.data == [] && !LengthConsistent(c)
  {
    var b: seq<u8> := seq(HeaderSize, _ => 0);
    assert b[0..4] == U32ToLe(0);
  }

  /** A chunk built by `from_data` announces its own size on the wire when
      that size fits in the u32 length field. */
  lemma FromDataFrameSelfDescribing(data: seq<u8>)
    requires HeaderSize + |data| < 0x1_0000_0000
    ensures U32FromLe(Wire(FromData(data))[0..4]) == |Wire(FromData(data))|
    ensures Parse(Wire(FromData(data))) == FromData(data)
  {
    RoundTrip(FromData(data));
  }

  // ---------------------------------------------------------------- imperative codec

  /** `to_bytes`: extends a writer with each field's bytes in turn. */
  method ToBytes(c: Chunk) returns (writer: seq<u8>)
    ensures writer == Wire(c)
  {
    writer := [];
    writer := writer + U32ToLe(c.length);
    writer := writer + U32ToLe(c.chunkX);
    writer := writer + U64ToLe(c.messageId);
    writer := writer + U64ToLe(c.messageLength);
    writer := writer + c.data;
  }

  /** `<[u8]>::copy_from_slice`, which panics unless the lengths agree. */
  method CopyFromSlice(buf: array<u8>, src: seq<u8>)
    requires buf.Length == |src|
    modifies buf
    ensures buf[..] == src
  {
    var i := 0;
    while i < buf.Length
      invariant 0 <= i <= buf.Length
      invariant buf[..i] == src[..i]
    {
      buf[i] := src[i];
      i := i + 1;
    }
  }

  /** `from_bytes`: refills a 4-byte and then an 8-byte buffer from the
      header slices and decodes each; slicing needs 24 bytes. */
  method FromBytes(data: seq<u8>) returns (c: Chunk)
    requires |data| >= HeaderSize
    ensures c == Parse(data)
  {
    var buf := new u8[4];
    CopyFromSlice(buf, data[0..4]);
    var length := U32FromLe(buf[..]);

    CopyFromSlice(buf, data[4..8]);
    var chunkX := U32FromLe(buf[..]);

    var buf8 := new u8[8];
    CopyFromSlice(buf8, data[8..16]);
    var messageId := U64FromLe(buf8[..]);

    CopyFromSlice(buf8, data[16..24]);
    var messageLength := U64FromLe(buf8[..]);

    c := Chunk(length, chunkX, messageId, messageLength, data[HeaderSize..]);
  }
}
