/**
 * The photo tunnel's wire format: the packed 13-byte PacketHeader both
 * stations cast over their radio buffers, the packet kinds, and the chunk
 * arithmetic that cuts a photo into 200-byte pieces.
 */
module PhotoFrame {
  import opened Bytes
  import opened Crc16Spec

  const HEADER_SIZE: nat := 13
  const CHUNK_SIZE: nat := 200
  /** The receiver's radio buffer: one header and one full chunk. */
  const MAX_FRAME: nat := HEADER_SIZE + CHUNK_SIZE

  const PKT_START: u8 := 0x01
  const PKT_DATA: u8 := 0x02
  const PKT_END: u8 := 0x03
  const PKT_ACK: u8 := 0x04
  const PKT_NACK: u8 := 0x05
  const PKT_PING: u8 := 0x06

  /** PacketHeader; `kind` is the `type` byte. */
  datatype Header = Header(kind: u8, photoId: u32, chunkIndex: u16, totalChunks: u16, dataLen: u16, crc: u16)

  /**
   * The header's bytes as the ESP32 lays out the packed struct: type at 0,
   * photoId at 1..4, chunkIndex at 5, totalChunks at 7, dataLen at 9, crc at
   * 11, every field little-endian.
   */
  function Serialize(h: Header): (r: seq<u8>)
    ensures |r| == HEADER_SIZE
    ensures r[0] == h.kind && ReadLe32(r, 1) == h.photoId
    ensures ReadLe16(r, 5) == h.chunkIndex && ReadLe16(r, 7) == h.totalChunks
    ensures ReadLe16(r, 9) == h.dataLen && ReadLe16(r, 11) == h.crc
  {
    [h.kind] + Le32(h.photoId) + Le16(h.chunkIndex) + Le16(h.totalChunks) + Le16(h.dataLen) + Le16(h.crc)
  }

  /** `(PacketHeader*)buffer`: the header read from the first 13 bytes of a frame. */
  function Parse(b: seq<u8>): (h: Header)
    requires |b| >= HEADER_SIZE
    ensures h.kind == b[0] && h.photoId == ReadLe32(b, 1) && h.chunkIndex == ReadLe16(b, 5)
    ensures h.totalChunks == ReadLe16(b, 7) && h.dataLen == ReadLe16(b, 9) && h.crc == ReadLe16(b, 11)
  {
    Header(b[0], ReadLe32(b, 1), ReadLe16(b, 5), ReadLe16(b, 7), ReadLe16(b, 9), ReadLe16(b, 11))
  }

  /** A header read back from a frame that starts with it is that header, whatever follows. */
  lemma ParseSerialize(h: Header, payload: seq<u8>)
    ensures Parse(Serialize(h) + payload) == h
  {
    var b := Serialize(h) + payload;
    assert b[..HEADER_SIZE] == Serialize(h);
    ReadPrefix(Serialize(h), payload);
  }

  /** Reading a field needs only the bytes of that field. */
  lemma ReadPrefix(s: seq<u8>, t: seq<u8>)
    requires |s| == HEADER_SIZE
    ensures ReadLe32(s + t, 1) == ReadLe32(s, 1) && ReadLe16(s + t, 5) == ReadLe16(s, 5)
    ensures ReadLe16(s + t, 7) == ReadLe16(s, 7) && ReadLe16(s + t, 9) == ReadLe16(s, 9)
    ensures ReadLe16(s + t, 11) == ReadLe16(s, 11)
  {
  }

  /** Writing back the header read from a frame reproduces the frame's first 13 bytes. */
  lemma SerializeParse(b: seq<u8>)
    requires |b| >= HEADER_SIZE
    ensures Serialize(Parse(b)) == b[..HEADER_SIZE]
  {
    var h := Parse(b);
    Le32OfRead(b, 1);
    Le16OfRead(b, 5);
    Le16OfRead(b, 7);
    Le16OfRead(b, 9);
    Le16OfRead(b, 11);
    assert b[..HEADER_SIZE] == [b[0]] + b[1..5] + b[5..7] + b[7..9] + b[9..11] + b[11..13];
  }

  /** Two different headers are never written as the same bytes. */
  lemma SerializeInjective(g: Header, h: Header)
    requires Serialize(g) == Serialize(h)
    ensures g == h
  {
    ParseSerialize(g, []);
    ParseSerialize(h, []);
    assert Serialize(g) + [] == Serialize(g);
    assert Serialize(h) + [] == Serialize(h);
  }

  /**
   * `(photoSize + CHUNK_SIZE - 1) / CHUNK_SIZE` computed in uint32_t and
   * stored in a uint16_t.
   */
  function TotalChunks(size: u32): u16 {
    Wrap16(Wrap32(size + CHUNK_SIZE - 1) / CHUNK_SIZE)
  }

  /**
   * For every photo of at most 65535 chunks the count is ceil(size / 200):
   * enough chunks to hold the photo, and no empty chunk at the end.
   */
  lemma TotalChunksIsCeiling(size: u32)
    requires size <= 0x1_0000 * CHUNK_SIZE - CHUNK_SIZE
    ensures TotalChunks(size) * CHUNK_SIZE >= size
    ensures TotalChunks(size) == 0 || (TotalChunks(size) - 1) * CHUNK_SIZE < size
    ensures TotalChunks(size) == 0 <==> size == 0
  {
  }

  /** The first byte of chunk `i`. */
  function ChunkOffset(i: nat): nat {
    i * CHUNK_SIZE
  }

  /**
   * `min((uint32_t)CHUNK_SIZE, photoSize - offset)`: the length of chunk `i`,
   * with the uint32_t subtraction wrapping when the offset is past the end.
   */
  function ChunkLen(size: u32, i: u16): (r: u16)
    ensures r <= CHUNK_SIZE
    ensures ChunkOffset(i) < size ==> r > 0 && ChunkOffset(i) + r <= size
    ensures ChunkOffset(i) + CHUNK_SIZE <= size ==> r == CHUNK_SIZE
    ensures ChunkOffset(i) < size < ChunkOffset(i) + CHUNK_SIZE ==> ChunkOffset(i) + r == size
  {
    var rest := Wrap32(size - ChunkOffset(i));
    if CHUNK_SIZE <= rest then CHUNK_SIZE else rest
  }

  /** Every chunk `sendPhoto` sends lies inside the photo, and only the last is short. */
  lemma ChunkInside(size: u32, i: u16)
    requires size <= 0x1_0000 * CHUNK_SIZE - CHUNK_SIZE && i < TotalChunks(size)
    ensures ChunkOffset(i) < size && ChunkOffset(i) + ChunkLen(size, i) <= size
    ensures i + 1 < TotalChunks(size) ==> ChunkLen(size, i) == CHUNK_SIZE
    ensures i + 1 == TotalChunks(size) ==> ChunkOffset(i) + ChunkLen(size, i) == size
  {
    TotalChunksIsCeiling(size);
  }

  /** Byte `x` of the photo lies in chunk `x / CHUNK_SIZE`. */
  lemma ChunkOfByte(size: u32, x: nat)
    requires x < size <= 0x1_0000 * CHUNK_SIZE - CHUNK_SIZE
    ensures x / CHUNK_SIZE < TotalChunks(size)
    ensures ChunkOffset(x / CHUNK_SIZE) <= x < ChunkOffset(x / CHUNK_SIZE) + ChunkLen(size, x / CHUNK_SIZE)
  {
    TotalChunksIsCeiling(size);
    var j := x / CHUNK_SIZE;
    assert j * CHUNK_SIZE <= x < j * CHUNK_SIZE + CHUNK_SIZE;
  }

  /** The bytes of chunk `i` of `data`, as `memcpy(packet + 13, photoData + offset, dataLen)` copies them. */
  function ChunkBytes(data: seq<u8>, i: u16): (r: seq<u8>)
    requires |data| < 0x1_0000_0000
    requires ChunkOffset(i) < |data|
    ensures r == data[ChunkOffset(i)..ChunkOffset(i) + ChunkLen(|data|, i)]
    ensures 0 < |r| <= CHUNK_SIZE
  {
    data[ChunkOffset(i)..ChunkOffset(i) + ChunkLen(|data|, i)]
  }

  /** The chunks 0 .. n-1 of `data`, one after the other. */
  function Chunks(data: seq<u8>, n: u16): (r: seq<u8>)
    requires |data| < 0x1_0000_0000
    requires n <= TotalChunks(|data|) && |data| <= 0x1_0000 * CHUNK_SIZE - CHUNK_SIZE
  {
    if n == 0 then [] else Chunks(data, n - 1) + ChunkBytes(data, n - 1)
  }

  /** The first `n` chunks are the first `n` * 200 bytes, or all of the photo when `n` reaches the end. */
  lemma {:induction false} ChunksPrefix(data: seq<u8>, n: u16)
    requires |data| <= 0x1_0000 * CHUNK_SIZE - CHUNK_SIZE && n <= TotalChunks(|data|)
    ensures n < TotalChunks(|data|) ==> Chunks(data, n) == data[..ChunkOffset(n)]
    ensures n == TotalChunks(|data|) ==> Chunks(data, n) == data
  {
    if n > 0 {
      ChunksPrefix(data, n - 1);
      ChunkInside(|data|, n - 1);
      var k := ChunkOffset(n - 1);
      assert data[..k] + data[k..k + ChunkLen(|data|, n - 1)] == data[..k + ChunkLen(|data|, n - 1)];
      if n == TotalChunks(|data|) {
        assert data[..|data|] == data;
      }
    }
  }

  /** The chunks of a photo, concatenated in index order, are the whole photo: cutting loses nothing. */
  lemma ChunksCover(data: seq<u8>)
    requires |data| <= 0x1_0000 * CHUNK_SIZE - CHUNK_SIZE
    ensures Chunks(data, TotalChunks(|data|)) == data
  {
    ChunksPrefix(data, TotalChunks(|data|));
  }

  /** The DATA header for chunk `i`: its index, the total, its length and the CRC of exactly its bytes. */
  function DataHeader(photoId: u32, i: u16, total: u16, chunk: seq<u8>): (h: Header)
    requires |chunk| < 0x1_0000
    ensures h.kind == PKT_DATA && h.chunkIndex == i && h.totalChunks == total
    ensures h.dataLen == |chunk| && h.crc == Crc(chunk) && h.photoId == photoId
  {
    Header(PKT_DATA, photoId, i, total, |chunk|, Crc(chunk))
  }

  /**
   * The START header: index 0, the chunk count, the size cut to its low 16
   * bits, and the CRC of the first min(size, 32) bytes.
   */
  function StartHeader(photoId: u32, data: seq<u8>): (h: Header)
    requires |data| < 0x1_0000_0000
    ensures h.kind == PKT_START && h.photoId == photoId && h.chunkIndex == 0
    ensures h.totalChunks == TotalChunks(|data|) && h.dataLen == |data| % 0x1_0000
    ensures |data| < 32 ==> h.crc == Crc(data)
    ensures |data| >= 32 ==> h.crc == Crc(data[..32])
  {
    var first := if |data| < 32 then data else data[..32];
    Header(PKT_START, photoId, 0, TotalChunks(|data|), Wrap16(|data|), Crc(first))
  }

  /**
   * Where the END checksum starts as the sender writes it,
   * `photoData + photoSize - 32`: before the photo when it is shorter than
   * 32 bytes.
   */
  function EndCrcStartAsWritten(size: nat): (start: int)
    ensures start + 32 == size
  {
    size - 32
  }

  /**
   * For every photo shorter than 32 bytes, the END checksum as written starts
   * 32 - size bytes before the photo, while the corrected range, and so the
   * END header of the model, covers the whole photo.
   */
  lemma EndCrcUnderflow(photoId: u32, data: seq<u8>)
    requires |data| < 32
    ensures EndCrcStartAsWritten(|data|) < 0 && 0 - EndCrcStartAsWritten(|data|) == 32 - |data|
    ensures EndCrcStart(|data|) == 0 && EndHeader(photoId, data).crc == Crc(data)
  {
    assert data[0..] == data;
  }

  /** The intended END checksum range: the last min(size, 32) bytes, always inside the photo. */
  function EndCrcStart(size: nat): (start: nat)
    ensures start <= size && size - start == (if size < 32 then size else 32)
    ensures size >= 32 ==> start == EndCrcStartAsWritten(size)
  {
    if size < 32 then 0 else size - 32
  }

  /** The END header: chunkIndex = totalChunks, the truncated size, the CRC of the tail. */
  function EndHeader(photoId: u32, data: seq<u8>): (h: Header)
    requires |data| < 0x1_0000_0000
    ensures h.kind == PKT_END && h.photoId == photoId
    ensures h.chunkIndex == h.totalChunks == TotalChunks(|data|) && h.dataLen == |data| % 0x1_0000
    ensures h.crc == Crc(data[EndCrcStart(|data|)..])
    ensures |data| >= 32 ==> h.crc == Crc(data[|data| - 32..])
  {
    var n := TotalChunks(|data|);
    Header(PKT_END, photoId, n, n, Wrap16(|data|), Crc(data[EndCrcStart(|data|)..]))
  }

  /** The PING the sender's `p` command transmits: only the type and an id from the clock. */
  function PingHeader(now: u32): (h: Header)
    ensures h.kind == PKT_PING && h.photoId == now
    ensures h.chunkIndex == 0 && h.totalChunks == 0 && h.dataLen == 0 && h.crc == 0
  {
    Header(PKT_PING, now, 0, 0, 0, 0)
  }

  /** sendAck / sendNack: the reply to one chunk, with all the other fields zero. */
  function ReplyHeader(ack: bool, photoId: u32, chunkIndex: u16): (h: Header)
    ensures h.kind == (if ack then PKT_ACK else PKT_NACK)
    ensures h.photoId == photoId && h.chunkIndex == chunkIndex
    ensures h.totalChunks == 0 && h.dataLen == 0 && h.crc == 0
  {
    Header(if ack then PKT_ACK else PKT_NACK, photoId, chunkIndex, 0, 0, 0)
  }
}
