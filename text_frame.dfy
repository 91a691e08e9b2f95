/**
 * The packed MessagePacket of the text-tunnel sketches: a uint32_t time
 * stamp, a uint16_t messageLen and a 200-byte text field, little-endian.
 * Only the first 6 + messageLen bytes go on the air. The receiving side
 * reads a packet of `len` bytes into a 206-byte stack buffer, checks the
 * lengths, terminates the text and counts the message.
 */
module TextFrame {
  import opened Bytes
  import LineEditor

  const MAX_MESSAGE_LEN: nat := 200
  /** sizeof(uint32_t) + sizeof(uint16_t). */
  const FIELDS_SIZE: nat := 6
  /** sizeof(MessagePacket). */
  const PACKET_SIZE: nat := 206

  /** `uint16_t len = strlen(text)`: the C string length, cut to 16 bits. */
  function SendLen(text: seq<u8>): (len: u16)
    ensures CStrLen(text) < 0x1_0000 ==> len == CStrLen(text)
    ensures len <= CStrLen(text)
  {
    Wrap16(CStrLen(text))
  }

  /**
   * sendMessage / sendMessageViaLoRa after the radio check: a text whose
   * length is 0 or above 200 sends nothing; otherwise the frame is the time
   * stamp, messageLen = len and the len text bytes taken from the strncpy'd
   * field, 6 + len bytes in all.
   */
  function EncodeFrame(text: seq<u8>, timestamp: u32): (r: Option<seq<u8>>)
    ensures r.Some? <==> 0 < SendLen(text) <= MAX_MESSAGE_LEN
    ensures r.Some? ==>
      var len := SendLen(text);
      |r.value| == FIELDS_SIZE + len && ReadLe32(r.value, 0) == timestamp && ReadLe16(r.value, 4) == len
      && r.value[FIELDS_SIZE..] == text[..len] && 0 !in r.value[FIELDS_SIZE..]
  {
    var len := SendLen(text);
    if len == 0 || len > MAX_MESSAGE_LEN then None
    else
      var packet := Le32(timestamp) + Le16(len) + Strncpy(text, MAX_MESSAGE_LEN);
      assert packet[FIELDS_SIZE..FIELDS_SIZE + len] == Strncpy(text, MAX_MESSAGE_LEN)[..len];
      Some(packet[..FIELDS_SIZE + len])
  }

  /** The stack buffer after readData(buffer, len): the received bytes over whatever the buffer held before. */
  function Window(frame: seq<u8>, stale: seq<u8>): (w: seq<u8>)
    requires |frame| <= PACKET_SIZE == |stale|
    ensures |w| == PACKET_SIZE && w[..|frame|] == frame
  {
    frame + stale[|frame|..]
  }

  /** The receive checks: 0 < len <= 206, a successful read, len >= 6 and 1 <= messageLen <= 200. */
  predicate Accepted(frame: seq<u8>, readOk: bool) {
    0 < |frame| <= PACKET_SIZE && readOk && |frame| >= FIELDS_SIZE
    && 1 <= ReadLe16(frame, 4) <= MAX_MESSAGE_LEN
  }

  /** A decoded text message: the text as %s prints it and the sender's time stamp. */
  datatype Delivery = Delivery(text: seq<u8>, timestamp: u32)

  /**
   * What the receiving loop hands on for a packet: nothing unless accepted;
   * otherwise the C string in the messageLen bytes after the fields, taken
   * from the buffer, since messageLen is never compared with len.
   */
  function Decode(frame: seq<u8>, readOk: bool, stale: seq<u8>): (r: Option<Delivery>)
    requires |stale| == PACKET_SIZE
    ensures r.Some? <==> Accepted(frame, readOk)
    ensures r.Some? ==>
      var ml := ReadLe16(frame, 4);
      |r.value.text| <= ml && 0 !in r.value.text && r.value.timestamp == ReadLe32(frame, 0)
      && (FIELDS_SIZE + ml <= |frame| ==> r.value.text == CStr(frame[FIELDS_SIZE..FIELDS_SIZE + ml]))
  {
    if !Accepted(frame, readOk) then None
    else
      var ml := ReadLe16(frame, 4);
      var w := Window(frame, stale);
      assert FIELDS_SIZE + ml <= |frame| ==> w[FIELDS_SIZE..FIELDS_SIZE + ml] == frame[FIELDS_SIZE..FIELDS_SIZE + ml];
      Some(Delivery(CStr(w[FIELDS_SIZE..FIELDS_SIZE + ml]), ReadLe32(frame, 0)))
  }

  /** A sent frame decodes to the text that was sent and its time stamp, whatever the buffer held before. */
  lemma RoundTrip(text: seq<u8>, timestamp: u32, stale: seq<u8>)
    requires EncodeFrame(text, timestamp).Some? && |stale| == PACKET_SIZE
    ensures Decode(EncodeFrame(text, timestamp).value, true, stale) == Some(Delivery(text[..SendLen(text)], timestamp))
    ensures CStrLen(text) < 0x1_0000 ==> Decode(EncodeFrame(text, timestamp).value, true, stale).value.text == CStr(text)
  {
    var f := EncodeFrame(text, timestamp).value;
    CStrOfNulFree(f[FIELDS_SIZE..]);
  }

  /**
   * A 6-byte packet that claims five text bytes is accepted, and its text is
   * whatever the stack buffer held: two different earlier contents give two
   * different texts.
   */
  lemma StaleBytesReachText()
    ensures var frame := Le32(0) + Le16(5);
      Accepted(frame, true)
      && Decode(frame, true, seq(PACKET_SIZE, _ => 65)).value.text == [65, 65, 65, 65, 65]
      && Decode(frame, true, seq(PACKET_SIZE, _ => 66)).value.text == [66, 66, 66, 66, 66]
  {
    StaleText(65);
    StaleText(66);
    assert seq(5, _ => 65) == [65, 65, 65, 65, 65];
    assert seq(5, _ => 66) == [66, 66, 66, 66, 66];
  }

  /** The header-only packet claiming five bytes reads them from a buffer filled with `c`. */
  lemma StaleText(c: u8)
    requires c != 0
    ensures var frame := Le32(0) + Le16(5);
      Accepted(frame, true) && Decode(frame, true, seq(PACKET_SIZE, _ => c)).value.text == seq(5, _ => c)
  {
    var frame := Le32(0) + Le16(5);
    var stale: seq<u8> := seq(PACKET_SIZE, _ => c);
    assert |frame| == FIELDS_SIZE && frame[4..6] == Le16(5);
    var piece := Window(frame, stale)[FIELDS_SIZE..FIELDS_SIZE + 5];
    assert piece == stale[FIELDS_SIZE..FIELDS_SIZE + 5];
    assert piece == seq(5, _ => c);
    CStrOfNulFree(piece);
  }

  /** As written: `packet->message[packet->messageLen] = '\0'` writes buffer byte 6 + messageLen. */
  function TerminatorIndex(frame: seq<u8>): (i: nat)
    requires |frame| >= FIELDS_SIZE
    ensures i == FIELDS_SIZE + ReadLe16(frame, 4)
  {
    FIELDS_SIZE + ReadLe16(frame, 4)
  }

  /** A full 200-byte message passes the checks and its terminator lands one byte past the 206-byte buffer. */
  lemma TerminatorOverrun(timestamp: u32)
    ensures var frame := Le32(timestamp) + Le16(200) + seq(200, _ => 65);
      Accepted(frame, true) && TerminatorIndex(frame) == PACKET_SIZE
  {
    var frame := Le32(timestamp) + Le16(200) + seq(200, _ => 65);
    assert frame[4..6] == Le16(200);
  }

  /** A NUL ends a C string: what follows it is never read. */
  lemma {:induction false} CStrAtNul(x: seq<u8>, y: seq<u8>)
    ensures CStr(x + [0] + y) == CStr(x)
  {
    if x != [] {
      if x[0] != 0 {
        assert (x + [0] + y)[1..] == x[1..] + [0] + y;
        CStrAtNul(x[1..], y);
        assert CStrLen(x + [0] + y) == 1 + CStrLen(x[1..] + [0] + y);
        assert CStr(x) == [x[0]] + CStr(x[1..]);
      }
    }
  }

  /** A packet heard on the radio: the `len` bytes read, whether readData succeeded, and what the stack buffer held before. */
  datatype Heard = Heard(frame: seq<u8>, readOk: bool, stale: seq<u8>)

  /**
   * sendMessage of the sketches that frame text (the one-way and
   * bidirectional senders, sendMessageViaLoRa of the M1 station): no frame
   * without a radio, otherwise the frame of the text when it is accepted.
   */
  function Transmitted(loraReady: bool, text: seq<u8>, now: u32): (r: Option<seq<u8>>)
    ensures r.Some? <==> loraReady && 0 < SendLen(text) <= MAX_MESSAGE_LEN
    ensures r.Some? ==> r == EncodeFrame(text, now) && 0 < |r.value| - FIELDS_SIZE <= MAX_MESSAGE_LEN
  {
    if loraReady then EncodeFrame(text, now) else None
  }

  /** The frames that sending `lines`, in order, puts on the air: none without a radio, none for a rejected text. */
  function SentFrames(loraReady: bool, lines: seq<seq<u8>>, timestamp: u32): (r: seq<seq<u8>>)
    ensures |r| <= |lines|
    ensures !loraReady ==> r == []
    decreases |lines|
  {
    if lines == [] then []
    else
      var last := lines[|lines| - 1];
      var f := Transmitted(loraReady, last, timestamp);
      SentFrames(loraReady, lines[..|lines| - 1], timestamp) + (if f.Some? then [f.value] else [])
  }

  /** Sending one more line adds its frame, if it gets one. */
  lemma SentFramesSnoc(loraReady: bool, lines: seq<seq<u8>>, line: seq<u8>, timestamp: u32)
    ensures SentFrames(loraReady, lines + [line], timestamp) == SentFrames(loraReady, lines, timestamp)
      + (if Transmitted(loraReady, line, timestamp).Some? then [Transmitted(loraReady, line, timestamp).value] else [])
  {
    assert (lines + [line])[..|lines|] == lines;
  }

  /**
   * Every line the 200-character editor hands to sendMessage is accepted:
   * with a radio, each line becomes one frame carrying exactly that line.
   */
  lemma {:induction false} EditorLinesAllSent(lines: seq<seq<u8>>, timestamp: u32)
    requires forall k :: 0 <= k < |lines| ==> lines[k] != [] && LineEditor.Line(lines[k], MAX_MESSAGE_LEN)
    ensures |SentFrames(true, lines, timestamp)| == |lines|
    ensures forall k :: 0 <= k < |lines| ==>
      |SentFrames(true, lines, timestamp)[k]| == FIELDS_SIZE + |lines[k]|
      && SentFrames(true, lines, timestamp)[k][FIELDS_SIZE..] == lines[k]
    decreases |lines|
  {
    if lines != [] {
      var n := |lines| - 1;
      EditorLinesAllSent(lines[..n], timestamp);
      PrintableText(lines[n]);
      assert SendLen(lines[n]) == |lines[n]|;
    }
  }

  /** A printable line holds no NUL, so strlen sees all of it. */
  lemma PrintableText(line: seq<u8>)
    requires LineEditor.Line(line, MAX_MESSAGE_LEN)
    ensures CStrLen(line) == |line| && line[..CStrLen(line)] == line
  {
    assert forall i :: 0 <= i < |line| ==> line[i] != 0;
    CStrOfNulFree(line);
  }

  /**
   * The receive path of loop with the terminator write kept inside the
   * buffer: a buffer one byte longer than the packet, so messageLen = 200
   * terminates at the spare byte. Counts every accepted packet.
   */
  class FrameReceiver {
    var messageCount: u32

    constructor()
      ensures messageCount == 0
    {
      messageCount := 0;
    }

    method Receive(frame: seq<u8>, readOk: bool, stale: seq<u8>) returns (got: Option<Delivery>)
      requires |stale| == PACKET_SIZE
      modifies this
      ensures got == Decode(frame, readOk, stale)
      ensures messageCount == if got.Some? then Wrap32(old(messageCount) + 1) else old(messageCount)
    {
      got := None;
      if !(0 < |frame| <= PACKET_SIZE) || !readOk || |frame| < FIELDS_SIZE {
        return;
      }
      var w := Window(frame, stale);
      var buffer := new u8[PACKET_SIZE + 1]((i: nat) => if i < |w| then w[i] else 0);
      var messageLen := buffer[4] as int + 0x100 * (buffer[5] as int);
      assert messageLen == ReadLe16(frame, 4);
      if 0 < messageLen <= MAX_MESSAGE_LEN {
        buffer[FIELDS_SIZE + messageLen] := 0;
        assert buffer[FIELDS_SIZE..] == w[FIELDS_SIZE..FIELDS_SIZE + messageLen] + [0] + buffer[FIELDS_SIZE + messageLen + 1..];
        CStrAtNul(w[FIELDS_SIZE..FIELDS_SIZE + messageLen], buffer[FIELDS_SIZE + messageLen + 1..]);
        messageCount := Wrap32(messageCount + 1);
        got := Some(Delivery(CStr(buffer[FIELDS_SIZE..]), ReadLe32(frame, 0)));
      }
    }
  }
}
