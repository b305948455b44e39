# VelocyStream chunk framing, modelled in Dafny

A model of the chunk framing layer of `rust-velocystream` (`src/lib.rs`), a
client for ArangoDB's VelocyStream transport. A message travels as chunks;
each chunk is a 24-byte header followed by a payload:

| offset | field | type |
|---|---|---|
| 0..4 | `length` (whole chunk, header included) | u32, little-endian |
| 4..8 | `chunk_x` (descriptor) | u32, little-endian |
| 8..16 | `message_id` | u64, little-endian |
| 16..24 | `message_length` | u64, little-endian |
| 24.. | `data` | bytes |

The descriptor `chunk_x` packs two things into one u32. Bit 0 says whether
this is the first chunk of its message. The bits above it hold the chunk
count in a first chunk, and the chunk's own number in a continuation chunk.
The model also covers the request envelope: the `RequestType` and
`MessageType` discriminants, the default request, and the seven values that
`RequestMessage::to_bytes` hands to the serializer, in their order.

Files:

- `bytes.dfy` (module `Bytes`) holds the integer widths and the
  little-endian images (`to_le_bytes` / `from_le_bytes`). It also holds the
  u32 operations `<< 1`, `>> 1` and `& 0x01`, written as arithmetic: `x << 1`
  is `2x mod 2^32`, so bit 31 is lost as in Rust.
- `chunk.dfy` (module `Chunks`) holds the `Chunk` datatype, the descriptor
  functions, `from_data`, and the wire codec. The codec is given twice: as
  functions (`Wire`, `Parse`) that the lemmas use, and as methods
  (`ToBytes`, `FromBytes`) written the way the source works, step by step.
  `ToBytes` extends a writer field by field. `FromBytes` refills a 4-byte and
  an 8-byte buffer with `copy_from_slice`.
- `request.dfy` (module `Envelope`) holds the request envelope.

Panics become preconditions. `from_bytes` slices 24 header bytes, so it
requires at least 24. `get_chunk` begins with `assert!(self.is_first_chunk())`,
so it requires a first chunk. `copy_from_slice` requires equal lengths.

What the code does not do, and the model therefore does not do either:

- `from_bytes` does not compare the `length` field with the buffer size, and
  does not check the payload size, although the field comment at
  src/lib.rs:10 says `length` is 24 plus the payload size.
  `ParseIgnoresLengthField` shows a buffer whose length field says 0 being
  accepted.
- `encode_chunk_x` does not reject a count of 0. Index 0 with count 0
  encodes to 1, which reads as a first chunk with count 0.
- `encode_chunk_x` does not guard its shifts. A count or index of 2^31 or
  more loses its top bit, and the lemmas state exactly when the value
  survives.
- Nothing checks `message_id` against 0, although the field comment at
  src/lib.rs:19 reserves 0 for "not set".
- `from_data` always builds a single-chunk message with id 11.
- The code has no message splitter and no reassembler.

## Model

| member | source | states |
|---|---|---|
| `Bytes.LeValueOfLeBytes` | src/lib.rs:70-73 | reading back the n-byte little-endian image of a value below 256^n yields the value |
| `Bytes.LeBytesOfLeValue` | src/lib.rs:47-57 | re-encoding the value read from a byte sequence, at its own width, yields the same bytes |
| `Bytes.U32ToLe` | src/lib.rs:70-71 | `u32::to_le_bytes` gives 4 bytes that `from_le_bytes` reads back as the same u32 |
| `Bytes.U32FromLe` | src/lib.rs:46-50 | `u32::from_le_bytes` gives the u32 whose 4-byte image is exactly the input |
| `Bytes.U64ToLe` | src/lib.rs:72-73 | `u64::to_le_bytes` gives 8 bytes that `from_le_bytes` reads back as the same u64 |
| `Bytes.U64FromLe` | src/lib.rs:53-57 | `u64::from_le_bytes` gives the u64 whose 8-byte image is exactly the input |
| `Bytes.Shl1` | src/lib.rs:82-84 | `x << 1` on u32 is even, halves back to `x mod 2^31`, and equals `2x` exactly when `x < 2^31` |
| `Bytes.Shr1` | src/lib.rs:98 | `x >> 1` is the r with `2r <= x <= 2r + 1` |
| `Bytes.LowBit` | src/lib.rs:102 | `x & 0x01` is 0 or 1 and has the parity of x |
| `Chunks.EncodeChunkX` | src/lib.rs:78-86 | the low bit is set iff the count is 1 or the index is 0; the upper bits read 1 for a one-chunk message, the count mod 2^31 for index 0, and the index mod 2^31 otherwise |
| `Chunks.GetChunk` | src/lib.rs:96-103 | defined only on a first chunk, that is one for which `is_first_chunk` (src/lib.rs:101-103, the predicate `IsFirstChunk`: the low bit of `chunk_x` is 1) holds; the descriptor is twice the result plus that bit |
| `Chunks.GetChunkNumber` | src/lib.rs:88-99 | as written: callable only on a first chunk, because every other chunk reaches the failing `assert!` of `get_chunk`; on a first chunk it returns 1 |
| `Chunks.ChunkNumber` | src/lib.rs:88-94 | corrected: agrees with `get_chunk_number` on first chunks; on a continuation chunk returns the number held in the descriptor |
| `Chunks.SingleChunkDescriptor` | src/lib.rs:78-80 | `encode_chunk_x(i, 1)` is 3 for every i and reads as a first chunk with count 1 and chunk number 1 |
| `Chunks.FirstChunkDescriptor` | src/lib.rs:81-82 | for a count other than 1, index 0 gives a first chunk whose `get_chunk` equals the count iff the count is below 2^31 |
| `Chunks.ContinuationDescriptor` | src/lib.rs:83-84 | a nonzero index with a count other than 1 gives a non-first chunk whose `chunk_x >> 1` equals the index iff the index is below 2^31 |
| `Chunks.GetChunkNumberRejectsContinuation` | src/lib.rs:88-99 | the second chunk of a two-chunk message is not a first chunk, so `get_chunk_number` cannot be applied, though its intended number is 1 |
| `Chunks.ChunkNumberOfEncoded` | src/lib.rs:78-94 | the corrected chunk number of an encoded descriptor is 1 for a first chunk and the encoder's index otherwise, for indices below 2^31 |
| `Chunks.LengthConsistent` | src/lib.rs:10-11 | the field comment's invariant `length == 24 + len(data)`; a chunk meeting it has a payload below 2^32 - 24 bytes |
| `Chunks.FirstAndSecondChunkShareNumber` | src/lib.rs:78-94 | for every count other than 1, the chunks encoded with index 0 and index 1 both get chunk number 1 |
| `Chunks.FromData` | src/lib.rs:34-42 | payload kept, id 11, descriptor "first of 1"; length is `(24 + len) mod 2^32`, consistent with the payload iff `24 + len < 2^32`; message_length is the payload size mod 2^64 |
| `Chunks.Wire` | src/lib.rs:68-76 | the image has length `24 + len`; bytes 0..4, 4..8, 8..16 and 16..24 are the little-endian images of the four header fields, and the rest is the payload |
| `Chunks.Parse` | src/lib.rs:44-66 | on 24 or more bytes: writing the parsed chunk back gives the input; the payload is everything after byte 24; the chunk is length-consistent iff its length field equals the buffer size |
| `Chunks.RoundTrip` | src/lib.rs:44-76 | parsing the bytes of any chunk reproduces every field of it |
| `Chunks.ParseIgnoresLengthField` | src/lib.rs:44-66 | 24 zero bytes parse to a chunk whose length field 0 contradicts its size |
| `Chunks.FromDataFrameSelfDescribing` | src/lib.rs:34-42 | when `24 + len < 2^32`, the length field on the wire of a `from_data` chunk equals the image size, and the chunk parses back unchanged |
| `Chunks.ToBytes` | src/lib.rs:68-76 | the writer built field by field equals the wire image |
| `Chunks.CopyFromSlice` | src/lib.rs:45-56 | with equal lengths, the buffer afterwards holds exactly the source slice |
| `Chunks.FromBytes` | src/lib.rs:44-66 | refilling the buffers and decoding each header field gives the parsed chunk |
| `Envelope.RequestTypeCode` | src/lib.rs:106-115 | the body is the source's table Delete 0, Get 1, Post 2, Put 3, Patch 5; the contract keeps every discriminant in 0..5 and never 4, the unused Head |
| `Envelope.RequestTypeCodeInjective` | src/lib.rs:106-115 | distinct verbs have distinct discriminants |
| `Envelope.MessageTypeCode` | src/lib.rs:117-128 | the body is the source's table Request 1, FinalResponse 2, Response 3, Authentication 1000; the contract keeps every discriminant among 1, 2, 3 and 1000 |
| `Envelope.MessageTypeCodeInjective` | src/lib.rs:117-128 | distinct message kinds have distinct discriminants |
| `Envelope.EnvelopeValues` | src/lib.rs:141-151 | exactly seven values: version, message type as i32, database, request type as i32, path, parameters, meta, in that order |
| `Envelope.EnvelopeValuesInjective` | src/lib.rs:141-151 | the seven values determine the request, so a receiver can decode them by position |
| `Envelope.Default` | src/lib.rs:156-168 | the default request hands over `[1, 1, "_system", 1, "/_admin/echo", {}, {}]` |
| `Envelope.ToBytes` | src/lib.rs:141-153 | the array pushed value by value is the seven-value list, and the serializer's result on it is returned unchanged |

## Findings

| source | as written | input that shows it | evidently intended | confidence | as-written member | corrected member |
|---|---|---|---|---|---|---|
| src/lib.rs:88-99 | `get_chunk_number` returns `get_chunk()` for a non-first chunk, and `get_chunk` asserts that the chunk IS a first chunk, so every continuation chunk panics | the second chunk of a two-chunk message, `chunk_x = encode_chunk_x(1, 2) = 2` | a continuation chunk's number is `chunk_x >> 1`, 1 here. A second inconsistency stays: `encode_chunk_x` counts indices from 0, so the first chunk and index 1 both get number 1 (`Chunks.FirstAndSecondChunkShareNumber`); distinct numbers would need continuation indices from 2 | medium, not executed | `Chunks.GetChunkNumber`, `Chunks.GetChunkNumberRejectsContinuation` | `Chunks.ChunkNumber`, `Chunks.ChunkNumberOfEncoded` |

## Left out

- The value serializer (`velocypack::to_bytes` and the `erased_serde` boxes): its output format is not visible here. `Envelope.ToBytes` takes it as a function parameter and models only the list handed to it.
- The iteration order of the `HashMap` fields: they are plain maps, and nothing depends on their order.
- The unused imports (`std::io::prelude`, `ReadBytesExt`/`WriteBytesExt`, `BigEndian`, `Duration`): all encoding is little-endian.
- Message splitting and multi-chunk reassembly: the code has neither. Only the single-chunk `from_data` exists.
- Message-id generation: the code hard-codes 11, and so does the model.
- `Chunk::data`, a plain accessor of the payload: the model reads the field directly.
- Machine limits on `Vec` lengths (`usize`, `isize::MAX`): Dafny sequences are unbounded. Wrapping is modelled only where the code casts or shifts: `as u32`, `as u64`, `<< 1`.
- The bit operations are written as arithmetic on integers and are not cross-checked against 32-bit vectors.
