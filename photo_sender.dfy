/**
 * The sending station: waitForAck, sendChunkWithRetry and sendPhoto.
 *
 * The radio is replaced by what it reports. Each attempt to send a chunk is
 * an `Attempt`: whether lora.transmit succeeded, the millis() value at which
 * waitForAck started listening, and the packets its lora.receive() calls
 * returned, each stamped with the millis() value of the loop test made just
 * before the blocking receive that returned it. A transfer is given the outcome of the START
 * transmission, the attempts for every chunk and the outcome of the END
 * transmission; it returns its verdict and every frame it handed to
 * lora.transmit, in order.
 */
module PhotoSender {
  import opened Bytes
  import opened Crc16Spec
  import opened Crc16
  import opened PhotoFrame

  const MAX_RETRIES: nat := 3
  const ACK_TIMEOUT: nat := 2000

  /**
   * A packet lora.receive() returned while the sender listened. `polledAt` is
   * the millis() value of the `millis() - startTime < ACK_TIMEOUT` test that
   * let that receive start, not the moment it returned: a receive begun
   * inside the window may return its packet after the window has closed,
   * and the packet still counts. Receives that return no packet are not
   * listed; the stamps are the loop's successive tests.
   */
  datatype Arrival = Arrival(polledAt: u32, frame: seq<u8>)

  /** Whether lora.transmit succeeded, when listening began, and what arrived. */
  datatype Attempt = Attempt(transmitted: bool, listenFrom: u32, traffic: seq<Arrival>)

  datatype AckOutcome = Acked | Nacked | TimedOut

  /** A verdict and the frames handed to lora.transmit, in order. */
  datatype Run = Run(ok: bool, sent: seq<seq<u8>>)

  /** The receive that brought the packet began inside the ACK window opened at `start` (millis() arithmetic wraps). */
  predicate InWindow(a: Arrival, start: u32) {
    Elapsed(a.polledAt, start) < ACK_TIMEOUT
  }

  /** The frame carries a full header of kind `kind` for chunk `chunkIndex`; the photoId is not looked at. */
  predicate Answers(f: seq<u8>, kind: u8, chunkIndex: u16) {
    |f| >= HEADER_SIZE && Parse(f).kind == kind && Parse(f).chunkIndex == chunkIndex
  }

  /** What waitForAck makes of the traffic: the first ACK or NACK for the chunk inside the window decides. */
  function AckOutcomeOf(chunkIndex: u16, start: u32, traffic: seq<Arrival>): AckOutcome
    decreases |traffic|
  {
    if traffic == [] || !InWindow(traffic[0], start) then TimedOut
    else if Answers(traffic[0].frame, PKT_ACK, chunkIndex) then Acked
    else if Answers(traffic[0].frame, PKT_NACK, chunkIndex) then Nacked
    else AckOutcomeOf(chunkIndex, start, traffic[1..])
  }

  /**
   * waitForAck(chunkIndex): poll until 2000 ms have passed since `start`;
   * true on an ACK for the chunk, false on a NACK for it or at the timeout.
   */
  method WaitForAck(chunkIndex: u16, start: u32, traffic: seq<Arrival>) returns (acked: bool)
    ensures acked <==> AckOutcomeOf(chunkIndex, start, traffic) == Acked
  {
    var i := 0;
    while i < |traffic| && Elapsed(traffic[i].polledAt, start) < ACK_TIMEOUT
      invariant 0 <= i <= |traffic|
      invariant AckOutcomeOf(chunkIndex, start, traffic[i..]) == AckOutcomeOf(chunkIndex, start, traffic)
    {
      var f := traffic[i].frame;
      if |f| >= HEADER_SIZE {
        var hdr := Parse(f);
        if hdr.kind == PKT_ACK && hdr.chunkIndex == chunkIndex {
          return true;
        } else if hdr.kind == PKT_NACK && hdr.chunkIndex == chunkIndex {
          return false;
        }
      }
      assert traffic[i..][1..] == traffic[i + 1..];
      i := i + 1;
    }
    return false;
  }

  /** Packet `k` is the first answer for the chunk, and it and everything before it came inside the window. */
  predicate DecidesAt(chunkIndex: u16, start: u32, traffic: seq<Arrival>, k: nat) {
    k < |traffic|
    && (forall j :: 0 <= j <= k ==> InWindow(traffic[j], start))
    && (Answers(traffic[k].frame, PKT_ACK, chunkIndex) || Answers(traffic[k].frame, PKT_NACK, chunkIndex))
    && (forall j :: 0 <= j < k ==> !Answers(traffic[j].frame, PKT_ACK, chunkIndex) && !Answers(traffic[j].frame, PKT_NACK, chunkIndex))
  }

  /** The deciding packet decides: an ACK acknowledges, a NACK refuses. */
  lemma {:induction false} OutcomeAt(chunkIndex: u16, start: u32, traffic: seq<Arrival>, k: nat)
    requires DecidesAt(chunkIndex, start, traffic, k)
    ensures AckOutcomeOf(chunkIndex, start, traffic) == if Answers(traffic[k].frame, PKT_ACK, chunkIndex) then Acked else Nacked
  {
    if k > 0 {
      assert DecidesAt(chunkIndex, start, traffic[1..], k - 1);
      OutcomeAt(chunkIndex, start, traffic[1..], k - 1);
    }
  }

  /** waitForAck only reports success for an ACK of the awaited chunk that decided inside the window. */
  lemma {:induction false} AckedHasWitness(chunkIndex: u16, start: u32, traffic: seq<Arrival>)
    requires AckOutcomeOf(chunkIndex, start, traffic) == Acked
    ensures exists k: nat :: DecidesAt(chunkIndex, start, traffic, k) && Answers(traffic[k].frame, PKT_ACK, chunkIndex)
  {
    if Answers(traffic[0].frame, PKT_ACK, chunkIndex) {
      assert DecidesAt(chunkIndex, start, traffic, 0);
    } else {
      AckedHasWitness(chunkIndex, start, traffic[1..]);
      var k: nat :| DecidesAt(chunkIndex, start, traffic[1..], k) && Answers(traffic[1..][k].frame, PKT_ACK, chunkIndex);
      assert DecidesAt(chunkIndex, start, traffic, k + 1);
    }
  }

  /** Traffic without any answer for the chunk ends in the timeout. */
  lemma {:induction false} NoAnswerTimesOut(chunkIndex: u16, start: u32, traffic: seq<Arrival>)
    requires forall j :: 0 <= j < |traffic| ==> !Answers(traffic[j].frame, PKT_ACK, chunkIndex) && !Answers(traffic[j].frame, PKT_NACK, chunkIndex)
    ensures AckOutcomeOf(chunkIndex, start, traffic) == TimedOut
  {
    if traffic != [] && InWindow(traffic[0], start) {
      NoAnswerTimesOut(chunkIndex, start, traffic[1..]);
    }
  }

  /** An ACK for the same chunk index from another transfer (another photoId) is taken as this chunk's ACK. */
  lemma ForeignAckAccepted(chunkIndex: u16, start: u32, otherId: u32)
    ensures AckOutcomeOf(chunkIndex, start, [Arrival(start, Serialize(ReplyHeader(true, otherId, chunkIndex)))]) == Acked
  {
    var f := Serialize(ReplyHeader(true, otherId, chunkIndex));
    ParseSerialize(ReplyHeader(true, otherId, chunkIndex), []);
    assert f + [] == f;
  }

  /** DATA frame for chunk `i`: its header followed by exactly the chunk's bytes. */
  function DataFrame(data: seq<u8>, photoId: u32, i: u16, total: u16): (f: seq<u8>)
    requires |data| < 0x1_0000_0000 && ChunkOffset(i) < |data|
    ensures |f| == HEADER_SIZE + ChunkLen(|data|, i) && f[HEADER_SIZE..] == ChunkBytes(data, i)
    ensures Parse(f) == DataHeader(photoId, i, total, ChunkBytes(data, i))
  {
    var chunk := ChunkBytes(data, i);
    ParseSerialize(DataHeader(photoId, i, total, chunk), chunk);
    Serialize(DataHeader(photoId, i, total, chunk)) + chunk
  }

  /** The type byte of a frame that holds a full header, -1 for a shorter one. */
  function KindOf(f: seq<u8>): int {
    if |f| >= HEADER_SIZE then f[0] else -1
  }

  /** The chunkIndex field of a frame that holds a full header, -1 for a shorter one. */
  function IndexOf(f: seq<u8>): int {
    if |f| >= HEADER_SIZE then ReadLe16(f, 5) else -1
  }

  /** The DATA frame for chunk `i` is a DATA frame for index `i`. */
  lemma DataFrameFields(data: seq<u8>, photoId: u32, i: u16, total: u16)
    requires |data| < 0x1_0000_0000 && ChunkOffset(i) < |data|
    ensures KindOf(DataFrame(data, photoId, i, total)) == PKT_DATA
    ensures IndexOf(DataFrame(data, photoId, i, total)) == i
  {
  }

  /** Copies the header bytes, then `n` payload bytes from data[from..], into the front of `packet`. */
  method FillPacket(packet: array<u8>, hdr: seq<u8>, data: seq<u8>, from: nat, n: nat)
    requires |hdr| == HEADER_SIZE && HEADER_SIZE + n <= packet.Length && from + n <= |data|
    modifies packet
    ensures packet[..HEADER_SIZE + n] == hdr + data[from..from + n]
  {
    var k := 0;
    while k < HEADER_SIZE
      invariant 0 <= k <= HEADER_SIZE
      invariant packet[..k] == hdr[..k]
    {
      packet[k] := hdr[k];
      k := k + 1;
    }
    var j := 0;
    while j < n
      invariant 0 <= j <= n
      invariant packet[..HEADER_SIZE] == hdr
      invariant packet[HEADER_SIZE..HEADER_SIZE + j] == data[from..from + j]
    {
      packet[HEADER_SIZE + j] := data[from + j];
      j := j + 1;
    }
    assert packet[..HEADER_SIZE + n] == packet[..HEADER_SIZE] + packet[HEADER_SIZE..HEADER_SIZE + n];
  }

  /**
   * Fills the radio packet buffer for chunk `i` as sendChunkWithRetry does:
   * the header fields, then `memcpy` of the chunk behind them. The first
   * 13 + dataLen bytes are what is handed to lora.transmit.
   */
  method PrepareDataPacket(data: seq<u8>, photoId: u32, i: u16, total: u16) returns (packet: array<u8>, len: nat)
    requires |data| < 0x1_0000_0000 && ChunkOffset(i) < |data|
    ensures fresh(packet) && packet.Length == MAX_FRAME
    ensures len == HEADER_SIZE + ChunkLen(|data|, i) <= MAX_FRAME
    ensures packet[..len] == DataFrame(data, photoId, i, total)
  {
    var offset := ChunkOffset(i);
    var dataLen := ChunkLen(|data|, i);
    packet := new u8[MAX_FRAME](_ => 0);
    var crc := CalculateCrc16(data, offset, dataLen);
    var hdr := Serialize(Header(PKT_DATA, photoId, i, total, dataLen, crc));
    FillPacket(packet, hdr, data, offset, dataLen);
    len := HEADER_SIZE + dataLen;
  }

  /** The attempt the radio reports for try `k`; a try it reports nothing for counts as a failed transmission. */
  function TryAt(tries: seq<Attempt>, k: nat): Attempt {
    if k < |tries| then tries[k] else Attempt(false, 0, [])
  }

  /** A try succeeds when the frame went out and waitForAck saw the ACK. */
  predicate Succeeds(chunkIndex: u16, t: Attempt) {
    t.transmitted && AckOutcomeOf(chunkIndex, t.listenFrom, t.traffic) == Acked
  }

  /** The verdict of a retry loop and the number of tries it made. */
  datatype Retry = Retry(ok: bool, used: nat)

  /** The tries from number `k` on: the first success ends them, and there are at most three. */
  function RetryFrom(chunkIndex: u16, tries: seq<Attempt>, k: nat): Retry
    requires k <= MAX_RETRIES
    decreases MAX_RETRIES - k
  {
    if k == MAX_RETRIES then Retry(false, 0)
    else if Succeeds(chunkIndex, TryAt(tries, k)) then Retry(true, 1)
    else var rest := RetryFrom(chunkIndex, tries, k + 1); Retry(rest.ok, rest.used + 1)
  }

  /** The number of tries sendChunkWithRetry makes. */
  function TriesUsed(chunkIndex: u16, tries: seq<Attempt>): nat {
    RetryFrom(chunkIndex, tries, 0).used
  }

  /** sendChunkWithRetry's verdict. */
  predicate ChunkDelivered(chunkIndex: u16, tries: seq<Attempt>) {
    RetryFrom(chunkIndex, tries, 0).ok
  }

  /**
   * The tries from `k` on: success means the last of them succeeded and all
   * earlier ones failed, failure means every try up to the third failed.
   */
  lemma {:induction false} RetryFromFacts(chunkIndex: u16, tries: seq<Attempt>, k: nat)
    requires k <= MAX_RETRIES
    ensures var r := RetryFrom(chunkIndex, tries, k);
      k + r.used <= MAX_RETRIES && (k < MAX_RETRIES ==> r.used > 0)
      && (forall j :: k <= j < k + r.used - 1 ==> !Succeeds(chunkIndex, TryAt(tries, j)))
      && (r.ok ==> r.used > 0 && Succeeds(chunkIndex, TryAt(tries, k + r.used - 1)))
      && (!r.ok ==> k + r.used == MAX_RETRIES && forall j :: k <= j < MAX_RETRIES ==> !Succeeds(chunkIndex, TryAt(tries, j)))
    decreases MAX_RETRIES - k
  {
    if k < MAX_RETRIES && !Succeeds(chunkIndex, TryAt(tries, k)) {
      RetryFromFacts(chunkIndex, tries, k + 1);
    }
  }

  /**
   * sendChunkWithRetry makes one to three tries; it reports success exactly
   * when some try among the first three succeeds, and then stops at the first.
   */
  lemma RetryFacts(chunkIndex: u16, tries: seq<Attempt>)
    ensures 1 <= TriesUsed(chunkIndex, tries) <= MAX_RETRIES
    ensures ChunkDelivered(chunkIndex, tries) <==> exists j :: 0 <= j < MAX_RETRIES && Succeeds(chunkIndex, TryAt(tries, j))
    ensures ChunkDelivered(chunkIndex, tries) ==> Succeeds(chunkIndex, TryAt(tries, TriesUsed(chunkIndex, tries) - 1))
    ensures forall j :: 0 <= j < TriesUsed(chunkIndex, tries) - 1 ==> !Succeeds(chunkIndex, TryAt(tries, j))
  {
    RetryFromFacts(chunkIndex, tries, 0);
  }

  /** A try whose transmission failed is never waited on: its traffic does not matter. */
  lemma FailedTransmissionIgnoresTraffic(chunkIndex: u16, listenFrom: u32, traffic: seq<Arrival>)
    ensures !Succeeds(chunkIndex, Attempt(false, listenFrom, traffic))
  {
  }

  /** `n` copies of the frame `f`. */
  function Repeat(f: seq<u8>, n: nat): (r: seq<seq<u8>>)
    ensures |r| == n && forall j :: 0 <= j < n ==> r[j] == f
  {
    seq(n, _ => f)
  }

  /**
   * sendChunkWithRetry: up to three tries, each building and transmitting
   * the same DATA frame, waiting for the ACK only after a good transmission.
   */
  method SendChunkWithRetry(data: seq<u8>, photoId: u32, i: u16, total: u16, tries: seq<Attempt>)
    returns (ok: bool, sent: seq<seq<u8>>)
    requires |data| < 0x1_0000_0000 && ChunkOffset(i) < |data|
    ensures ok == ChunkDelivered(i, tries)
    ensures sent == Repeat(DataFrame(data, photoId, i, total), TriesUsed(i, tries))
  {
    ghost var frame := DataFrame(data, photoId, i, total);
    sent := [];
    var attempt := 0;
    while attempt < MAX_RETRIES
      invariant 0 <= attempt <= MAX_RETRIES
      invariant sent == Repeat(frame, attempt)
      invariant RetryFrom(i, tries, 0) == Retry(RetryFrom(i, tries, attempt).ok, attempt + RetryFrom(i, tries, attempt).used)
    {
      var packet, len := PrepareDataPacket(data, photoId, i, total);
      sent := sent + [packet[..len]];
      var t := TryAt(tries, attempt);
      if t.transmitted {
        var acked := WaitForAck(i, t.listenFrom, t.traffic);
        if acked {
          return true, sent;
        }
      }
      attempt := attempt + 1;
    }
    return false, sent;
  }

  /** The tries the radio reports for chunk `i`. */
  function TriesFor(chunkTries: seq<seq<Attempt>>, i: nat): seq<Attempt> {
    if i < |chunkTries| then chunkTries[i] else []
  }

  /** Chunk indices below the chunk count always start inside the photo, even when the count wrapped. */
  lemma ChunkIndexInside(size: u32, i: u16)
    requires i < TotalChunks(size)
    ensures ChunkOffset(i) < size
  {
    var q := Wrap32(size + CHUNK_SIZE - 1) / CHUNK_SIZE;
    assert TotalChunks(size) <= q;
    assert q * CHUNK_SIZE <= Wrap32(size + CHUNK_SIZE - 1) <= size + CHUNK_SIZE - 1;
    assert (i + 1) * CHUNK_SIZE <= q * CHUNK_SIZE;
  }

  /** The frames sendChunkWithRetry hands to the radio for chunk `i`. */
  function ChunkFrames(data: seq<u8>, photoId: u32, chunkTries: seq<seq<Attempt>>, i: u16): seq<seq<u8>>
    requires 0 < |data| < 0x1_0000_0000 && i < TotalChunks(|data|)
  {
    ChunkIndexInside(|data|, i);
    Repeat(DataFrame(data, photoId, i, TotalChunks(|data|)), TriesUsed(i, TriesFor(chunkTries, i)))
  }

  /** What sendChunkWithRetry reports for one chunk and the frames it transmits. */
  datatype ChunkResult = ChunkResult(delivered: bool, frames: seq<seq<u8>>)

  /** The result of sendChunkWithRetry for every chunk of the photo, in index order. */
  function ChunkResults(data: seq<u8>, photoId: u32, chunkTries: seq<seq<Attempt>>): (r: seq<ChunkResult>)
    requires 0 < |data| < 0x1_0000_0000
    ensures |r| == TotalChunks(|data|)
    ensures forall i :: 0 <= i < |r| ==> r[i] == ChunkResult(ChunkDelivered(i as u16, TriesFor(chunkTries, i)), ChunkFrames(data, photoId, chunkTries, i as u16))
  {
    seq(TotalChunks(|data|), i requires 0 <= i < TotalChunks(|data|) =>
      ChunkResult(ChunkDelivered(i as u16, TriesFor(chunkTries, i)), ChunkFrames(data, photoId, chunkTries, i as u16)))
  }

  /** Chunks `i` onwards, in order, stopping at the first that is not delivered. */
  function ChunksFrom(results: seq<ChunkResult>, i: nat): Run
    requires i <= |results|
    decreases |results| - i
  {
    if i == |results| then Run(true, [])
    else if !results[i].delivered then Run(false, results[i].frames)
    else var rest := ChunksFrom(results, i + 1); Run(rest.ok, results[i].frames + rest.sent)
  }

  /** START, the chunks in order, END: what sendPhoto does with the radio's answers. */
  function PhotoRun(data: seq<u8>, now: u32, startSent: bool, chunkTries: seq<seq<Attempt>>, endSent: bool): Run
    requires |data| < 0x1_0000_0000
  {
    if |data| == 0 then Run(false, [])
    else
      var start := [Serialize(StartHeader(now, data))];
      if !startSent then Run(false, start)
      else
        var chunks := ChunksFrom(ChunkResults(data, now, chunkTries), 0);
        if !chunks.ok then Run(false, start + chunks.sent)
        else Run(endSent, start + chunks.sent + [Serialize(EndHeader(now, data))])
  }

  /** Entry `i` of the chunk results is what sendChunkWithRetry returns for chunk `i`. */
  lemma ChunkResultAt(data: seq<u8>, photoId: u32, chunkTries: seq<seq<Attempt>>, i: u16)
    requires 0 < |data| < 0x1_0000_0000 && i < TotalChunks(|data|)
    ensures ChunkOffset(i) < |data|
    ensures ChunkResults(data, photoId, chunkTries)[i] == ChunkResult(ChunkDelivered(i, TriesFor(chunkTries, i)),
      Repeat(DataFrame(data, photoId, i, TotalChunks(|data|)), TriesUsed(i, TriesFor(chunkTries, i))))
  {
    ChunkIndexInside(|data|, i);
  }

  /** One more chunk of the chunk phase: a failure ends it, a success continues with the next chunk. */
  lemma ChunksStep(results: seq<ChunkResult>, i: nat, sent: seq<seq<u8>>)
    requires i < |results|
    requires ChunksFrom(results, 0) == Run(ChunksFrom(results, i).ok, sent + ChunksFrom(results, i).sent)
    ensures !results[i].delivered ==> ChunksFrom(results, 0) == Run(false, sent + results[i].frames)
    ensures results[i].delivered ==>
      ChunksFrom(results, 0) == Run(ChunksFrom(results, i + 1).ok, (sent + results[i].frames) + ChunksFrom(results, i + 1).sent)
  {
    if results[i].delivered {
      assert sent + (results[i].frames + ChunksFrom(results, i + 1).sent) == (sent + results[i].frames) + ChunksFrom(results, i + 1).sent;
    }
  }

  /** The chunk loop of sendPhoto: sendChunkWithRetry for chunks 0, 1, ..., stopping at the first failure. */
  method SendChunks(data: seq<u8>, photoId: u32, chunkTries: seq<seq<Attempt>>) returns (ok: bool, sent: seq<seq<u8>>)
    requires 0 < |data| < 0x1_0000_0000
    ensures Run(ok, sent) == ChunksFrom(ChunkResults(data, photoId, chunkTries), 0)
  {
    var total := TotalChunks(|data|);
    ghost var results := ChunkResults(data, photoId, chunkTries);
    sent := [];
    var i: u16 := 0;
    while i < total
      invariant i <= total
      invariant ChunksFrom(results, 0) == Run(ChunksFrom(results, i).ok, sent + ChunksFrom(results, i).sent)
    {
      ChunkResultAt(data, photoId, chunkTries, i);
      var delivered, frames := SendChunkWithRetry(data, photoId, i, total, TriesFor(chunkTries, i));
      ChunksStep(results, i, sent);
      sent := sent + frames;
      if !delivered {
        return false, sent;
      }
      i := i + 1;
    }
    return true, sent;
  }

  /**
   * sendPhoto(photoData, photoSize) with photoId = millis() = `now`: START,
   * then every chunk in index order, aborting at the first that fails,
   * then END.
   */
  method SendPhoto(data: seq<u8>, now: u32, startSent: bool, chunkTries: seq<seq<Attempt>>, endSent: bool)
    returns (ok: bool, sent: seq<seq<u8>>)
    requires |data| < 0x1_0000_0000
    ensures Run(ok, sent) == PhotoRun(data, now, startSent, chunkTries, endSent)
  {
    if |data| == 0 {
      return false, [];
    }
    var photoId := now;
    var start := [Serialize(StartHeader(photoId, data))];
    if !startSent {
      return false, start;
    }
    var chunksOk, chunkSent := SendChunks(data, photoId, chunkTries);
    if !chunksOk {
      return false, start + chunkSent;
    }
    return endSent, start + chunkSent + [Serialize(EndHeader(photoId, data))];
  }

  /** An empty photo is refused before anything is transmitted. */
  lemma EmptyPhotoSendsNothing(now: u32, startSent: bool, chunkTries: seq<seq<Attempt>>, endSent: bool)
    ensures PhotoRun([], now, startSent, chunkTries, endSent) == Run(false, [])
  {
  }

  /** When START cannot be transmitted nothing else is, and the transfer fails. */
  lemma StartFailureStops(data: seq<u8>, now: u32, chunkTries: seq<seq<Attempt>>, endSent: bool)
    requires 0 < |data| < 0x1_0000_0000
    ensures PhotoRun(data, now, false, chunkTries, endSent) == Run(false, [Serialize(StartHeader(now, data))])
  {
  }

  /** Every frame is a DATA frame for a chunk in [lo, hi), and chunk indices never go down. */
  predicate DataFramesIn(sent: seq<seq<u8>>, lo: int, hi: int) {
    (forall j :: 0 <= j < |sent| ==> KindOf(sent[j]) == PKT_DATA && lo <= IndexOf(sent[j]) < hi)
    && (forall j, k :: 0 <= j < k < |sent| ==> IndexOf(sent[j]) <= IndexOf(sent[k]))
  }

  /** The frames transmitted for chunk `i` are all DATA frames for index `i`. */
  predicate FramesForChunks(results: seq<ChunkResult>) {
    forall i :: 0 <= i < |results| ==> DataFramesIn(results[i].frames, i, i + 1)
  }

  /** The frames for chunk `i` are DATA frames for index `i`. */
  lemma ChunkResultsFields(data: seq<u8>, photoId: u32, chunkTries: seq<seq<Attempt>>)
    requires 0 < |data| < 0x1_0000_0000
    ensures FramesForChunks(ChunkResults(data, photoId, chunkTries))
  {
    var results := ChunkResults(data, photoId, chunkTries);
    forall i | 0 <= i < |results|
      ensures DataFramesIn(results[i].frames, i, i + 1)
    {
      ChunkIndexInside(|data|, i as u16);
      DataFrameFields(data, photoId, i as u16, TotalChunks(|data|));
    }
  }

  /** Frames for one chunk followed by frames for later chunks keep the order. */
  lemma ConcatDataFrames(here: seq<seq<u8>>, rest: seq<seq<u8>>, i: int, hi: int)
    requires i < hi && DataFramesIn(here, i, i + 1) && DataFramesIn(rest, i + 1, hi)
    ensures DataFramesIn(here + rest, i, hi)
  {
    var s := here + rest;
    forall j | 0 <= j < |s|
      ensures KindOf(s[j]) == PKT_DATA && i <= IndexOf(s[j]) < hi
    {
      if j >= |here| {
        assert s[j] == rest[j - |here|];
      }
    }
    forall j, k | 0 <= j < k < |s|
      ensures IndexOf(s[j]) <= IndexOf(s[k])
    {
      if j >= |here| {
        assert s[j] == rest[j - |here|] && s[k] == rest[k - |here|];
      } else if k >= |here| {
        assert s[j] == here[j] && s[k] == rest[k - |here|];
      }
    }
  }

  /** The chunk phase from `i` sends only DATA frames, for chunks from `i` on, in ascending order. */
  lemma {:induction false} ChunksFromFrames(results: seq<ChunkResult>, i: nat)
    requires i <= |results| && FramesForChunks(results)
    ensures DataFramesIn(ChunksFrom(results, i).sent, i, |results|)
    decreases |results| - i
  {
    if i < |results| && results[i].delivered {
      ChunksFromFrames(results, i + 1);
      ConcatDataFrames(results[i].frames, ChunksFrom(results, i + 1).sent, i, |results|);
    }
  }

  /** The chunk phase from `i` succeeds exactly when every remaining chunk is delivered. */
  lemma {:induction false} ChunksFromOk(results: seq<ChunkResult>, i: nat)
    requires i <= |results|
    ensures ChunksFrom(results, i).ok <==> forall k :: i <= k < |results| ==> results[k].delivered
    decreases |results| - i
  {
    if i < |results| && results[i].delivered {
      ChunksFromOk(results, i + 1);
    }
  }

  /** When chunk `k` is the first that fails, the chunk phase fails and sends nothing for chunks after `k`. */
  lemma {:induction false} FirstFailureStops(results: seq<ChunkResult>, i: nat, k: nat)
    requires i <= k < |results| && FramesForChunks(results)
    requires !results[k].delivered
    requires forall m :: i <= m < k ==> results[m].delivered
    ensures !ChunksFrom(results, i).ok
    ensures DataFramesIn(ChunksFrom(results, i).sent, i, k + 1)
    decreases k - i
  {
    if i < k {
      FirstFailureStops(results, i + 1, k);
      ConcatDataFrames(results[i].frames, ChunksFrom(results, i + 1).sent, i, k + 1);
    }
  }

  /**
   * sendPhoto reports success exactly when START went out, every chunk was
   * acknowledged within its three tries, and END went out; the frames are
   * then START, DATA frames in ascending chunk order, and END last.
   */
  lemma PhotoSuccess(data: seq<u8>, now: u32, startSent: bool, chunkTries: seq<seq<Attempt>>, endSent: bool)
    requires 0 < |data| < 0x1_0000_0000
    ensures PhotoRun(data, now, startSent, chunkTries, endSent).ok <==>
      startSent && endSent && forall k :: 0 <= k < TotalChunks(|data|) ==> ChunkDelivered(k as u16, TriesFor(chunkTries, k))
    ensures var r := PhotoRun(data, now, startSent, chunkTries, endSent);
      r.ok ==> (|r.sent| >= 2 && r.sent[0] == Serialize(StartHeader(now, data))
        && r.sent[|r.sent| - 1] == Serialize(EndHeader(now, data))
        && DataFramesIn(r.sent[1..|r.sent| - 1], 0, TotalChunks(|data|)))
  {
    var results := ChunkResults(data, now, chunkTries);
    ChunksFromOk(results, 0);
    ChunkResultsFields(data, now, chunkTries);
    ChunksFromFrames(results, 0);
    var r := PhotoRun(data, now, startSent, chunkTries, endSent);
    if r.ok {
      assert r.sent[1..|r.sent| - 1] == ChunksFrom(results, 0).sent;
    }
  }

  /**
   * Every photo shorter than 32 bytes whose chunks all get through makes
   * sendPhoto build END: as written, its checksum read begins 32 - size bytes
   * before photoData; the model's END frame carries the CRC of the whole photo.
   */
  lemma EndCrcReadsBeforePhoto(data: seq<u8>, now: u32, chunkTries: seq<seq<Attempt>>, endSent: bool)
    requires 0 < |data| < 32
    requires forall k :: 0 <= k < TotalChunks(|data|) ==> ChunkDelivered(k as u16, TriesFor(chunkTries, k))
    ensures var r := PhotoRun(data, now, true, chunkTries, endSent);
      |r.sent| >= 2 && |r.sent[|r.sent| - 1]| == HEADER_SIZE
      && Parse(r.sent[|r.sent| - 1]).kind == PKT_END
      && EndCrcStartAsWritten(|data|) < 0 && 0 - EndCrcStartAsWritten(|data|) == 32 - |data|
      && Parse(r.sent[|r.sent| - 1]).crc == Crc(data)
  {
    ChunksFromOk(ChunkResults(data, now, chunkTries), 0);
    var h := EndHeader(now, data);
    ParseSerialize(h, []);
    assert Serialize(h) + [] == Serialize(h);
    EndCrcUnderflow(now, data);
  }

  /** After the first failing chunk the transfer fails, sends no END and nothing for a later chunk. */
  lemma PhotoAbort(data: seq<u8>, now: u32, chunkTries: seq<seq<Attempt>>, endSent: bool, k: nat)
    requires 0 < |data| < 0x1_0000_0000 && k < TotalChunks(|data|)
    requires !ChunkDelivered(k as u16, TriesFor(chunkTries, k))
    requires forall m :: 0 <= m < k ==> ChunkDelivered(m as u16, TriesFor(chunkTries, m))
    ensures var r := PhotoRun(data, now, true, chunkTries, endSent);
      !r.ok && |r.sent| >= 1 && r.sent[0] == Serialize(StartHeader(now, data)) && DataFramesIn(r.sent[1..], 0, k + 1)
  {
    var results := ChunkResults(data, now, chunkTries);
    ChunkResultsFields(data, now, chunkTries);
    FirstFailureStops(results, 0, k);
    var r := PhotoRun(data, now, true, chunkTries, endSent);
    assert r.sent[1..] == ChunksFrom(results, 0).sent;
  }
}
