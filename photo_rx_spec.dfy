/**
 * The receiving station's photoRx record as a value, and what each radio
 * packet and each pass of the timeout check do to it. The PhotoReceiver
 * class is proved to follow these functions; the lemmas here are the
 * protocol's guarantees on the receiving side.
 */
module PhotoRxSpec {
  import opened Bytes
  import opened Crc16Spec
  import opened PhotoFrame
  import Crc16

  const RX_TIMEOUT: nat := 10000

  /** photoRx, with the heap buffer and the chunkReceived mask as sequences. */
  datatype RxState = RxState(
    active: bool,
    photoId: u32,
    totalSize: u32,
    totalChunks: u16,
    receivedChunks: u16,
    buffer: seq<u8>,
    mask: seq<bool>,
    startTime: u32,
    lastChunkTime: u32)

  /** The record before the first START: nothing allocated. */
  function Initial(): (s: RxState)
    ensures !s.active && s.buffer == [] && s.mask == [] && s.receivedChunks == 0
  {
    RxState(false, 0, 0, 0, 0, [], [], 0, 0)
  }

  /** The number of entries of `m` that are set. */
  function CountTrue(m: seq<bool>): (n: nat)
    ensures n <= |m|
  {
    if m == [] then 0 else (if m[0] then 1 else 0) + CountTrue(m[1..])
  }

  /** Setting one clear entry adds exactly one to the count. */
  lemma {:induction false} CountTrueSet(m: seq<bool>, i: nat)
    requires i < |m| && !m[i]
    ensures CountTrue(m[i := true]) == CountTrue(m) + 1
  {
    if i > 0 {
      assert m[i := true][1..] == m[1..][i - 1 := true];
      CountTrueSet(m[1..], i - 1);
    } else {
      assert m[i := true][1..] == m[1..];
    }
  }

  /** A mask with a clear entry counts fewer than its length. */
  lemma {:induction false} CountTrueBelow(m: seq<bool>, i: nat)
    requires i < |m| && !m[i]
    ensures CountTrue(m) < |m|
  {
    if i > 0 {
      CountTrueBelow(m[1..], i - 1);
    }
  }

  /** A mask of clear entries counts zero. */
  lemma {:induction false} CountTrueNone(n: nat)
    ensures CountTrue(seq(n, _ => false)) == 0
  {
    if n > 0 {
      assert seq(n, _ => false)[1..] == seq(n - 1, _ => false);
      CountTrueNone(n - 1);
    }
  }

  /**
   * What the receiver keeps true between packets: one mask entry per chunk,
   * one byte per photo byte, and receivedChunks equal to the number of
   * chunks marked received.
   */
  predicate Consistent(s: RxState) {
    |s.mask| == s.totalChunks && |s.buffer| == s.totalSize && s.totalSize < 0x1_0000
    && s.receivedChunks == CountTrue(s.mask)
  }

  /**
   * startPhotoReception: drops whatever reception was going on and begins a
   * new one with a fresh buffer (the model zeroes it) and an all-clear mask.
   */
  function Started(photoId: u32, totalChunks: u16, totalSize: u16, now: u32): (s: RxState)
    ensures Consistent(s) && s.active && s.receivedChunks == 0
    ensures s.photoId == photoId && s.totalChunks == totalChunks && s.totalSize == totalSize
    ensures |s.mask| == totalChunks && forall i :: 0 <= i < |s.mask| ==> !s.mask[i]
    ensures s.startTime == now && s.lastChunkTime == now
  {
    CountTrueNone(totalChunks);
    RxState(true, photoId, totalSize, totalChunks, 0, Zeros(totalSize), seq(totalChunks, _ => false), now, now)
  }

  /** The ways processDataChunk can treat a DATA frame, in the order it tests them. */
  datatype Verdict = TooShort | LengthMismatch | CrcMismatch | OutOfRange | Duplicate | Fresh

  /** The bytes behind the header. */
  function Payload(frame: seq<u8>): seq<u8>
    requires |frame| >= HEADER_SIZE
  {
    frame[HEADER_SIZE..]
  }

  /**
   * processDataChunk's tests: a full header, the attached byte count equal
   * to dataLen, the CRC of the attached bytes equal to the header's, the
   * chunk inside the reception (a test the firmware lacks and the model
   * adds), and then whether the chunk was already received.
   */
  function DataVerdict(s: RxState, frame: seq<u8>): (v: Verdict)
    requires Consistent(s) && |frame| < 0x1_0000
    ensures v == TooShort <==> |frame| < HEADER_SIZE
    ensures v == LengthMismatch <==> |frame| >= HEADER_SIZE && |Payload(frame)| != Parse(frame).dataLen
    ensures v == CrcMismatch <==> |frame| >= HEADER_SIZE && |Payload(frame)| == Parse(frame).dataLen && Crc(Payload(frame)) != Parse(frame).crc
    ensures v in {Duplicate, Fresh} <==>
      |frame| >= HEADER_SIZE && |Payload(frame)| == Parse(frame).dataLen && Crc(Payload(frame)) == Parse(frame).crc
      && Parse(frame).chunkIndex < s.totalChunks && ChunkOffset(Parse(frame).chunkIndex) + |Payload(frame)| <= s.totalSize
    ensures v == Duplicate ==> s.mask[Parse(frame).chunkIndex]
    ensures v == Fresh ==> !s.mask[Parse(frame).chunkIndex]
  {
    if |frame| < HEADER_SIZE then TooShort
    else
      var h := Parse(frame);
      var dataLen := Wrap16(|frame| - HEADER_SIZE);
      assert frame[HEADER_SIZE..HEADER_SIZE + dataLen] == Payload(frame);
      if dataLen != h.dataLen then LengthMismatch
      else if Crc(frame[HEADER_SIZE..HEADER_SIZE + dataLen]) != h.crc then CrcMismatch
      else if h.chunkIndex >= s.totalChunks || ChunkOffset(h.chunkIndex) + dataLen > s.totalSize then OutOfRange
      else if s.mask[h.chunkIndex] then Duplicate
      else Fresh
  }

  /** `b` with `p` written over it from `at` on. */
  function Overwrite(b: seq<u8>, at: nat, p: seq<u8>): (r: seq<u8>)
    requires at + |p| <= |b|
    ensures |r| == |b| && r[at..at + |p|] == p
    ensures forall k :: 0 <= k < |b| && !(at <= k < at + |p|) ==> r[k] == b[k]
  {
    b[..at] + p + b[at + |p|..]
  }

  /**
   * The state after a DATA frame of the current reception: only a fresh,
   * valid chunk changes it, by copying its bytes to chunkIndex * 200,
   * marking it, counting it and refreshing lastChunkTime.
   */
  function AfterData(s: RxState, frame: seq<u8>, now: u32): (t: RxState)
    requires Consistent(s) && |frame| < 0x1_0000
    ensures Consistent(t) && t.active == s.active && t.photoId == s.photoId
  {
    if DataVerdict(s, frame) != Fresh then s
    else
      var i := Parse(frame).chunkIndex;
      CountTrueSet(s.mask, i);
      CountTrueBelow(s.mask, i);
      s.(buffer := Overwrite(s.buffer, ChunkOffset(i), Payload(frame)),
         mask := s.mask[i := true],
         receivedChunks := s.receivedChunks + 1,
         lastChunkTime := now)
  }

  /** sendAck / sendNack for a DATA frame: NACK for a rejected chunk, ACK for a duplicate or a fresh one. */
  function DataReply(s: RxState, frame: seq<u8>): (r: Option<Header>)
    requires Consistent(s) && |frame| < 0x1_0000
  {
    match DataVerdict(s, frame)
    case TooShort => None
    case Duplicate => Some(ReplyHeader(true, s.photoId, Parse(frame).chunkIndex))
    case Fresh => Some(ReplyHeader(true, s.photoId, Parse(frame).chunkIndex))
    case _ => Some(ReplyHeader(false, s.photoId, Parse(frame).chunkIndex))
  }

  /** What the packet dispatch in loop does with a frame. */
  datatype Action = Ignore | StartPhoto | DataChunk | EndPhoto

  /**
   * The dispatch: frames that are empty, longer than the 213-byte buffer or
   * shorter than a header are dropped; START always starts; DATA and END
   * count only for the active reception's photoId; END only when every
   * chunk has arrived; PING and unknown types do nothing.
   */
  function Classify(s: RxState, frame: seq<u8>): Action {
    if |frame| == 0 || |frame| > MAX_FRAME || |frame| < HEADER_SIZE then Ignore
    else
      var h := Parse(frame);
      if h.kind == PKT_START then StartPhoto
      else if h.kind == PKT_DATA && s.active && h.photoId == s.photoId then DataChunk
      else if h.kind == PKT_END && s.active && h.photoId == s.photoId && s.receivedChunks == s.totalChunks then EndPhoto
      else Ignore
  }

  /** The state after one received frame. */
  function Receive(s: RxState, frame: seq<u8>, now: u32): (t: RxState)
    requires Consistent(s)
    ensures Consistent(t) && t.receivedChunks <= t.totalChunks
  {
    match Classify(s, frame)
    case Ignore => s
    case StartPhoto =>
      var h := Parse(frame);
      Started(h.photoId, h.totalChunks, h.dataLen, now)
    case DataChunk => AfterData(s, frame, now)
    case EndPhoto => s.(active := false)
  }

  /** The radio reply to one received frame. */
  function Reply(s: RxState, frame: seq<u8>): Option<Header>
    requires Consistent(s)
  {
    if Classify(s, frame) == DataChunk then DataReply(s, frame) else None
  }

  /** The timeout check at the end of loop: more than 10 s without a new chunk ends the reception, buffers kept. */
  function AfterTimeout(s: RxState, now: u32): (t: RxState)
    ensures Consistent(s) ==> Consistent(t)
    ensures !t.active <==> !s.active || Elapsed(now, s.lastChunkTime) > RX_TIMEOUT
  {
    if s.active && Elapsed(now, s.lastChunkTime) > RX_TIMEOUT then s.(active := false) else s
  }

  /** Bytes per BLE notification of the photo characteristic: the 512-byte MTU less 3 bytes of ATT overhead. */
  const BLE_PIECE: nat := 509

  /**
   * The photo cut into notifications the way sendPhotoToPhone does: 509
   * bytes each, the last one shorter, none empty.
   */
  function BlePieces(b: seq<u8>): (r: seq<seq<u8>>)
    decreases |b|
  {
    if |b| == 0 then []
    else if |b| <= BLE_PIECE then [b]
    else [b[..BLE_PIECE]] + BlePieces(b[BLE_PIECE..])
  }

  /** The pieces joined back together. */
  function Flatten(ps: seq<seq<u8>>): (r: seq<u8>)
  {
    if ps == [] then [] else ps[0] + Flatten(ps[1..])
  }

  /** Cutting into pieces loses and reorders nothing, gives ceil(n / 509) pieces, and every piece holds 1 to 509 bytes. */
  lemma {:induction false} BlePiecesJoin(b: seq<u8>)
    ensures Flatten(BlePieces(b)) == b
    ensures |BlePieces(b)| == (|b| + BLE_PIECE - 1) / BLE_PIECE
    ensures forall k :: 0 <= k < |BlePieces(b)| ==> 0 < |BlePieces(b)[k]| <= BLE_PIECE
    decreases |b|
  {
    if |b| > BLE_PIECE {
      var rest := b[BLE_PIECE..];
      BlePiecesJoin(rest);
      assert BlePieces(b)[1..] == BlePieces(rest);
      assert b == b[..BLE_PIECE] + rest;
      assert forall k :: 1 <= k < |BlePieces(b)| ==> BlePieces(b)[k] == BlePieces(rest)[k - 1];
    }
  }

  /** The first piece of a non-empty photo and the pieces of the rest. */
  lemma BlePiecesFirst(b: seq<u8>, len: nat)
    requires 0 < |b| && len == (if BLE_PIECE < |b| then BLE_PIECE else |b|)
    ensures BlePieces(b) == [b[..len]] + BlePieces(b[len..])
  {
    if |b| <= BLE_PIECE {
      assert b[..len] == b && b[len..] == [];
    }
  }

  /** One turn of sendPhotoToPhone's loop: the next piece, and one piece fewer to go. */
  lemma BlePiecesStep(b: seq<u8>, pieces: seq<seq<u8>>, offset: nat, len: nat)
    requires offset <= |b| && pieces + BlePieces(b[offset..]) == BlePieces(b) && |BlePieces(b[offset..])| > 0
    requires len == (if BLE_PIECE < |b| - offset then BLE_PIECE else |b| - offset)
    ensures offset + len <= |b|
    ensures (pieces + [b[offset..offset + len]]) + BlePieces(b[offset + len..]) == BlePieces(b)
    ensures |BlePieces(b[offset + len..])| == |BlePieces(b[offset..])| - 1
  {
    var rest := b[offset..];
    BlePiecesFirst(rest, len);
    assert rest[len..] == b[offset + len..];
    assert rest[..len] == b[offset..offset + len];
  }

  /** The notifications the receiver sends the phone over BLE; the text the firmware formats for each is not modelled. */
  datatype PhoneNote =
    | StartNote(photoId: u32, totalSize: u32, totalChunks: u16)
    | ProgressNote(received: u16, total: u16)
    | PhotoPiece(bytes: seq<u8>)
    | CompleteNote(totalSize: u32)

  /** The photo as PhotoPiece notifications. */
  function PieceNotes(ps: seq<seq<u8>>): (r: seq<PhoneNote>)
    ensures |r| == |ps| && forall k :: 0 <= k < |ps| ==> r[k] == PhotoPiece(ps[k])
  {
    seq(|ps|, k requires 0 <= k < |ps| => PhotoPiece(ps[k]))
  }

  /**
   * What one frame makes the receiver tell a connected phone: START
   * announces the reception, a fresh chunk reports progress, a completing
   * END sends the photo and then COMPLETE. Nothing reaches a phone that is
   * not connected.
   */
  function Notes(s: RxState, frame: seq<u8>, connected: bool): (r: seq<PhoneNote>)
    requires Consistent(s)
  {
    if !connected then []
    else match Classify(s, frame)
      case Ignore => []
      case StartPhoto => [StartNote(Parse(frame).photoId, Parse(frame).dataLen, Parse(frame).totalChunks)]
      case DataChunk =>
        if DataVerdict(s, frame) == Fresh then
          CountTrueBelow(s.mask, Parse(frame).chunkIndex);
          [ProgressNote(s.receivedChunks + 1, s.totalChunks)] else []
      case EndPhoto => PieceNotes(BlePieces(s.buffer)) + [CompleteNote(s.totalSize)]
  }

  /** The bytes of the PhotoPiece notifications, in order. */
  function PhotoBytes(ns: seq<PhoneNote>): (r: seq<u8>)
  {
    if ns == [] then [] else (if ns[0].PhotoPiece? then ns[0].bytes else []) + PhotoBytes(ns[1..])
  }

  lemma {:induction false} PhotoBytesOfPieces(ps: seq<seq<u8>>, tail: PhoneNote)
    requires !tail.PhotoPiece?
    ensures PhotoBytes(PieceNotes(ps) + [tail]) == Flatten(ps)
  {
    if ps == [] {
      assert PieceNotes(ps) + [tail] == [tail];
    } else {
      assert (PieceNotes(ps) + [tail])[1..] == PieceNotes(ps[1..]) + [tail];
      PhotoBytesOfPieces(ps[1..], tail);
    }
  }

  /** A completing END hands a connected phone exactly the reassembled buffer, followed by COMPLETE with its size. */
  lemma EndDeliversBuffer(s: RxState, frame: seq<u8>)
    requires Consistent(s) && Classify(s, frame) == EndPhoto
    ensures PhotoBytes(Notes(s, frame, true)) == s.buffer
    ensures Notes(s, frame, true)[|Notes(s, frame, true)| - 1] == CompleteNote(s.totalSize)
  {
    PhotoBytesOfPieces(BlePieces(s.buffer), CompleteNote(s.totalSize));
    BlePiecesJoin(s.buffer);
  }

  /** Frames that are dropped, PINGs, and DATA or END for another transfer or while idle change nothing and get no reply. */
  lemma IgnoredFrame(s: RxState, frame: seq<u8>, now: u32)
    requires Consistent(s)
    requires |frame| == 0 || |frame| > MAX_FRAME || |frame| < HEADER_SIZE
      || Parse(frame).kind == PKT_PING
      || (Parse(frame).kind in {PKT_DATA, PKT_END} && (!s.active || Parse(frame).photoId != s.photoId))
    ensures Receive(s, frame, now) == s && Reply(s, frame) == None
  {
  }

  /** START begins a new reception whatever state the receiver was in; its CRC is never looked at. */
  lemma StartAlwaysRestarts(s: RxState, frame: seq<u8>, now: u32)
    requires Consistent(s) && HEADER_SIZE <= |frame| <= MAX_FRAME && Parse(frame).kind == PKT_START
    ensures Receive(s, frame, now) == Started(Parse(frame).photoId, Parse(frame).totalChunks, Parse(frame).dataLen, now)
    ensures Reply(s, frame) == None
  {
  }

  /** A DATA frame whose length or CRC does not match is NACKed and changes nothing. */
  lemma RejectedChunk(s: RxState, frame: seq<u8>, now: u32)
    requires Consistent(s) && Classify(s, frame) == DataChunk
    requires DataVerdict(s, frame) in {LengthMismatch, CrcMismatch, OutOfRange}
    ensures Receive(s, frame, now) == s
    ensures Reply(s, frame) == Some(ReplyHeader(false, s.photoId, Parse(frame).chunkIndex))
  {
  }

  /**
   * A fresh valid chunk is copied to its place in the buffer and nowhere
   * else, only its mask entry is set, the count grows by one, it is ACKed.
   */
  lemma FreshChunk(s: RxState, frame: seq<u8>, now: u32)
    requires Consistent(s) && Classify(s, frame) == DataChunk && DataVerdict(s, frame) == Fresh
    ensures var t := Receive(s, frame, now); var i := Parse(frame).chunkIndex;
      t.buffer[ChunkOffset(i)..ChunkOffset(i) + |Payload(frame)|] == Payload(frame)
      && (forall k :: 0 <= k < |s.buffer| && !(ChunkOffset(i) <= k < ChunkOffset(i) + |Payload(frame)|) ==> t.buffer[k] == s.buffer[k])
      && t.mask == s.mask[i := true] && t.receivedChunks == s.receivedChunks + 1
      && t.lastChunkTime == now && t.active && t.photoId == s.photoId
    ensures Reply(s, frame) == Some(ReplyHeader(true, s.photoId, Parse(frame).chunkIndex))
  {
  }

  /** A chunk delivered again is ACKed again and changes nothing: duplicates are harmless. */
  lemma DuplicateIdempotent(s: RxState, frame: seq<u8>, now: u32, later: u32)
    requires Consistent(s) && Classify(s, frame) == DataChunk && DataVerdict(s, frame) == Fresh
    ensures var t := Receive(s, frame, now);
      Classify(t, frame) == DataChunk && DataVerdict(t, frame) == Duplicate
      && Receive(t, frame, later) == t && Reply(t, frame) == Reply(s, frame)
  {
    var t := Receive(s, frame, now);
    assert t.mask[Parse(frame).chunkIndex];
  }

  /** END completes the reception exactly when every chunk has arrived; otherwise nothing changes. */
  lemma EndCompletes(s: RxState, frame: seq<u8>, now: u32)
    requires Consistent(s) && HEADER_SIZE <= |frame| <= MAX_FRAME && Parse(frame).kind == PKT_END
    requires s.active && Parse(frame).photoId == s.photoId
    ensures s.receivedChunks == s.totalChunks ==> Receive(s, frame, now) == s.(active := false)
    ensures s.receivedChunks != s.totalChunks ==> Receive(s, frame, now) == s
  {
  }

  /** The timeout clears `active` after more than 10000 ms of silence and keeps everything else, buffer included. */
  lemma TimeoutKeepsBuffer(s: RxState, now: u32)
    requires s.active && Elapsed(now, s.lastChunkTime) > RX_TIMEOUT
    ensures AfterTimeout(s, now) == s.(active := false)
  {
  }

  /** A reception is complete when every chunk is marked. */
  lemma {:induction false} AllMarked(m: seq<bool>)
    requires CountTrue(m) == |m|
    ensures forall i :: 0 <= i < |m| ==> m[i]
  {
    if m != [] {
      AllMarked(m[1..]);
      assert forall i :: 1 <= i < |m| ==> m[i] == m[1..][i - 1];
    }
  }

  /** When END completes a reception, every chunk of it was received. */
  lemma CompleteMeansAllChunks(s: RxState)
    requires Consistent(s) && s.receivedChunks == s.totalChunks
    ensures forall i :: 0 <= i < s.totalChunks ==> s.mask[i]
  {
    AllMarked(s.mask);
  }

  /**
   * processDataChunk as the firmware writes it has no range test: after the
   * length and CRC tests it reads chunkReceived[chunkIndex] and writes the
   * buffer from chunkIndex * 200.
   */
  predicate PassesFirmwareTests(s: RxState, frame: seq<u8>) {
    |frame| >= HEADER_SIZE && |Payload(frame)| == Parse(frame).dataLen && Crc(Payload(frame)) == Parse(frame).crc
  }

  /** The frame the firmware's tests let through and that indexes past the mask and the buffer. */
  function StrayChunk(photoId: u32): (f: seq<u8>)
    ensures |f| == HEADER_SIZE
  {
    Serialize(Header(PKT_DATA, photoId, 5, 1, 0, 0xFFFF))
  }

  /**
   * A reception of one 10-byte chunk receives DATA for chunk 5 with no
   * bytes (CRC 0xFFFF): it passes the firmware's tests although chunk 5 lies
   * outside the one-entry mask and the 10-byte buffer. The model NACKs it.
   */
  lemma StrayChunkPassesFirmware(photoId: u32, now: u32)
    ensures var s := Started(photoId, 1, 10, now); var f := StrayChunk(photoId);
      PassesFirmwareTests(s, f) && Parse(f).chunkIndex >= |s.mask| && ChunkOffset(Parse(f).chunkIndex) > |s.buffer|
      && DataVerdict(s, f) == OutOfRange
  {
    var f := StrayChunk(photoId);
    ParseSerialize(Header(PKT_DATA, photoId, 5, 1, 0, 0xFFFF), []);
    assert f + [] == f;
    assert Payload(f) == [];
    Crc16.CrcEmpty();
  }
}
