/**
 * The receiving station: the photoRx record with its heap buffer and its
 * chunkReceived mask, updated in place by the packet handlers of the
 * receive loop. Every handler is proved to do what PhotoRxSpec says.
 */
module PhotoReceiver {
  import opened Bytes
  import opened Crc16Spec
  import opened Crc16
  import opened PhotoFrame
  import opened PhotoRxSpec

  class Reception {
    var active: bool
    var photoId: u32
    var totalSize: u32
    var totalChunks: u16
    var receivedChunks: u16
    var buffer: array<u8>
    var chunkReceived: array<bool>
    var startTime: u32
    var lastChunkTime: u32

    /** The record as a value. */
    function State(): RxState
      reads this, buffer, chunkReceived
    {
      RxState(active, photoId, totalSize, totalChunks, receivedChunks, buffer[..], chunkReceived[..], startTime, lastChunkTime)
    }

    predicate Valid()
      reads this, buffer, chunkReceived
    {
      Consistent(State())
    }

    /** The record at power-up; the empty arrays stand for the unallocated buffer and mask. */
    constructor()
      ensures Valid() && State() == Initial()
    {
      active := false;
      photoId := 0;
      totalSize := 0;
      totalChunks := 0;
      receivedChunks := 0;
      buffer := new u8[0];
      chunkReceived := new bool[0];
      startTime := 0;
      lastChunkTime := 0;
    }

    /** startPhotoReception: replaces both arrays and restarts the counters. */
    method StartPhotoReception(id: u32, chunks: u16, size: u16, now: u32)
      modifies this
      ensures Valid() && State() == Started(id, chunks, size, now)
      ensures fresh(buffer) && fresh(chunkReceived)
    {
      active := true;
      photoId := id;
      totalChunks := chunks;
      totalSize := size;
      receivedChunks := 0;
      startTime := now;
      lastChunkTime := now;
      buffer := new u8[size](_ => 0);
      chunkReceived := new bool[chunks](_ => false);
      assert buffer[..] == Zeros(size);
      assert chunkReceived[..] == seq(chunks, _ => false);
      CountTrueNone(chunks);
    }

    /**
     * processDataChunk: checks length and CRC, NACKs a bad chunk, ACKs a
     * duplicate, and copies a fresh chunk into the buffer before ACKing it.
     */
    method ProcessDataChunk(frame: seq<u8>, now: u32, connected: bool) returns (reply: Option<Header>, notes: seq<PhoneNote>)
      requires Valid() && |frame| < 0x1_0000
      modifies this, buffer, chunkReceived
      ensures Valid() && buffer == old(buffer) && chunkReceived == old(chunkReceived)
      ensures State() == AfterData(old(State()), frame, now)
      ensures reply == DataReply(old(State()), frame)
      ensures notes == (if connected && DataVerdict(old(State()), frame) == Fresh
                        then [ProgressNote(receivedChunks, totalChunks)] else [])
    {
      ghost var s := State();
      notes := [];
      if |frame| < HEADER_SIZE {
        return None, notes;
      }
      var h := Parse(frame);
      var dataLen := Wrap16(|frame| - HEADER_SIZE);
      if dataLen != h.dataLen {
        return Some(ReplyHeader(false, photoId, h.chunkIndex)), notes;
      }
      var computed := CalculateCrc16(frame, HEADER_SIZE, dataLen);
      assert frame[HEADER_SIZE..HEADER_SIZE + dataLen] == Payload(frame);
      if computed != h.crc {
        return Some(ReplyHeader(false, photoId, h.chunkIndex)), notes;
      }
      var offset := h.chunkIndex * CHUNK_SIZE;
      if h.chunkIndex >= totalChunks || offset + dataLen > totalSize {
        return Some(ReplyHeader(false, photoId, h.chunkIndex)), notes;
      }
      if chunkReceived[h.chunkIndex] {
        return Some(ReplyHeader(true, photoId, h.chunkIndex)), notes;
      }
      StoreChunk(frame, now);
      if connected {
        notes := [ProgressNote(receivedChunks, totalChunks)];
      }
      return Some(ReplyHeader(true, photoId, h.chunkIndex)), notes;
    }

    /** The fresh-chunk branch of processDataChunk: copy, mark, count, refresh lastChunkTime. */
    method StoreChunk(frame: seq<u8>, now: u32)
      requires Valid() && |frame| < 0x1_0000 && DataVerdict(State(), frame) == Fresh
      modifies this`receivedChunks, this`lastChunkTime, buffer, chunkReceived
      ensures Valid() && State() == AfterData(old(State()), frame, now)
    {
      ghost var s := State();
      var i := Parse(frame).chunkIndex;
      CopyChunk(frame, i * CHUNK_SIZE, |frame| - HEADER_SIZE);
      CountTrueSet(s.mask, i);
      CountTrueBelow(s.mask, i);
      chunkReceived[i] := true;
      receivedChunks := receivedChunks + 1;
      lastChunkTime := now;
    }

    /** The memcpy of a chunk's bytes to buffer + offset. */
    method CopyChunk(frame: seq<u8>, offset: nat, dataLen: nat)
      requires HEADER_SIZE + dataLen == |frame| && offset + dataLen <= buffer.Length
      modifies buffer
      ensures buffer[..] == Overwrite(old(buffer[..]), offset, frame[HEADER_SIZE..])
    {
      for k := 0 to dataLen
        invariant buffer[..offset] == old(buffer[..offset])
        invariant buffer[offset..offset + k] == frame[HEADER_SIZE..HEADER_SIZE + k]
        invariant buffer[offset + k..] == old(buffer[offset + k..])
      {
        buffer[offset + k] := frame[HEADER_SIZE + k];
        assert buffer[offset..offset + k + 1] == buffer[offset..offset + k] + [buffer[offset + k]];
      }
      assert buffer[..] == buffer[..offset] + buffer[offset..offset + dataLen] + buffer[offset + dataLen..];
    }

    /**
     * sendPhotoToPhone: nothing without a connected phone; otherwise the
     * buffer in 509-byte notifications, then COMPLETE with the size.
     */
    method SendPhotoToPhone(connected: bool) returns (notes: seq<PhoneNote>)
      requires Valid()
      ensures notes == (if connected then PieceNotes(BlePieces(buffer[..])) + [CompleteNote(totalSize)] else [])
    {
      if !connected {
        return [];
      }
      var pieces := CutPieces();
      notes := PieceNotes(pieces) + [CompleteNote(totalSize)];
    }

    /** The loop of sendPhotoToPhone: ceil(totalSize / 509) pieces of at most 509 bytes, walking an offset through the buffer. */
    method CutPieces() returns (pieces: seq<seq<u8>>)
      requires Valid()
      ensures pieces == BlePieces(buffer[..])
    {
      ghost var b := buffer[..];
      pieces := [];
      var offset: nat := 0;
      BlePiecesJoin(b);
      var bleChunks := Wrap16((totalSize + BLE_PIECE - 1) / BLE_PIECE);
      for i := 0 to bleChunks
        invariant offset <= |b|
        invariant pieces + BlePieces(b[offset..]) == BlePieces(b)
        invariant |BlePieces(b[offset..])| == bleChunks - i
      {
        var len := if BLE_PIECE < totalSize - offset then BLE_PIECE else totalSize - offset;
        BlePiecesStep(b, pieces, offset, len);
        pieces := pieces + [buffer[offset..offset + len]];
        offset := offset + len;
      }
      assert b[offset..] == [];
    }

    /** finalizePhotoReception: hands the photo to the phone, then ends the reception; the buffer stays. */
    method FinalizePhotoReception(connected: bool) returns (notes: seq<PhoneNote>)
      requires Valid()
      modifies this
      ensures Valid() && State() == old(State()).(active := false)
      ensures notes == (if connected then PieceNotes(BlePieces(buffer[..])) + [CompleteNote(totalSize)] else [])
    {
      notes := SendPhotoToPhone(connected);
      active := false;
    }

    /**
     * One pass of the receive side of loop with a frame of `len` bytes in
     * hand: dispatch on the packet type.
     */
    method HandlePacket(frame: seq<u8>, now: u32, connected: bool) returns (reply: Option<Header>, notes: seq<PhoneNote>)
      requires Valid()
      modifies this, buffer, chunkReceived
      ensures Valid()
      ensures State() == Receive(old(State()), frame, now)
      ensures reply == Reply(old(State()), frame)
      ensures notes == Notes(old(State()), frame, connected)
    {
      reply, notes := None, [];
      if !(0 < |frame| <= MAX_FRAME) || |frame| < HEADER_SIZE {
        return;
      }
      var h := Parse(frame);
      if h.kind == PKT_START {
        StartPhotoReception(h.photoId, h.totalChunks, h.dataLen, now);
        if connected {
          notes := [StartNote(photoId, totalSize, totalChunks)];
        }
      } else if h.kind == PKT_DATA {
        if active && h.photoId == photoId {
          reply, notes := ProcessDataChunk(frame, now, connected);
        }
      } else if h.kind == PKT_END {
        if active && h.photoId == photoId && receivedChunks == totalChunks {
          notes := FinalizePhotoReception(connected);
        }
      }
    }

    /** The timeout check at the end of loop. */
    method CheckTimeout(now: u32)
      requires Valid()
      modifies this
      ensures Valid() && State() == AfterTimeout(old(State()), now)
    {
      if active && Elapsed(now, lastChunkTime) > RX_TIMEOUT {
        active := false;
      }
    }
  }
}
