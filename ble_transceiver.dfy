/**
 * The addressed BLE + LoRa transceiver: each board has a DEVICE_ID (1 or 2)
 * and a BLE name derived from it, sends 188-byte packets carrying its own id,
 * a destination (0 = broadcast), a message id taken from millis() and a
 * 180-byte text field, and keeps only the packets addressed to it or to
 * everyone that another board sent.
 */
module BleTransceiver {
  import opened Bytes
  import opened LineEditor

  const MAX_TEXT: nat := 180
  /** sizeof(MessagePacket): 1 + 1 + 4 + 2 + 180. */
  const PACKET_SIZE: nat := 188
  const BROADCAST: u8 := 0

  /** deviceNames[DEVICE_ID]. */
  function DeviceName(id: u8): (name: string)
    requires id < 3
    ensures id == 0 <==> name == ""
    ensures id != 0 ==> name == "LoRa_Station_" + [('0' as int + id) as char]
  {
    ["", "LoRa_Station_1", "LoRa_Station_2"][id]
  }

  /** The two boards advertise under different names. */
  lemma DeviceNamesDiffer()
    ensures DeviceName(1) == "LoRa_Station_1" && DeviceName(2) == "LoRa_Station_2"
    ensures DeviceName(1) != DeviceName(2)
  {
  }

  datatype Packet = Packet(fromDevice: u8, toDevice: u8, messageId: u32, messageLen: u16, message: seq<u8>)

  predicate WellSized(p: Packet) {
    |p.message| == MAX_TEXT
  }

  /** The packed struct as it goes on the air. */
  function Serialize(p: Packet): (b: seq<u8>)
    requires WellSized(p)
    ensures |b| == PACKET_SIZE
  {
    [p.fromDevice, p.toDevice] + Le32(p.messageId) + Le16(p.messageLen) + p.message
  }

  /** The struct read back from its 188 bytes. */
  function Parse(b: seq<u8>): (p: Packet)
    requires |b| == PACKET_SIZE
    ensures WellSized(p)
  {
    Packet(b[0], b[1], ReadLe32(b, 2), ReadLe16(b, 6), b[8..])
  }

  lemma ParseSerialize(p: Packet)
    requires WellSized(p)
    ensures Parse(Serialize(p)) == p
  {
    var b := Serialize(p);
    assert b[2..6] == Le32(p.messageId);
    assert b[6..8] == Le16(p.messageLen);
    assert b[8..] == p.message;
  }

  lemma SerializeParse(b: seq<u8>)
    requires |b| == PACKET_SIZE
    ensures Serialize(Parse(b)) == b
  {
    Le32OfRead(b, 2);
    Le16OfRead(b, 6);
    assert b == b[..2] + b[2..6] + b[6..8] + b[8..];
  }

  /**
   * sendMessage after the radio check: an empty text or one above 180
   * characters is refused; otherwise the packet from this board to
   * `toDevice`, messageLen = the length and the strncpy'd text field.
   */
  function BuildPacket(deviceId: u8, text: seq<u8>, toDevice: u8, now: u32): (r: Option<Packet>)
    ensures r.Some? <==> 0 < |text| <= MAX_TEXT
    ensures r.Some? ==> (WellSized(r.value) && r.value.fromDevice == deviceId && r.value.toDevice == toDevice
                         && r.value.messageId == now && r.value.messageLen == |text|)
  {
    if |text| == 0 || |text| > MAX_TEXT then None
    else Some(Packet(deviceId, toDevice, now, |text|, Strncpy(text, MAX_TEXT)))
  }

  /** The address filter of checkForMessages: for this board or for everyone, and not from this board. */
  predicate ForUs(p: Packet, deviceId: u8) {
    (p.toDevice == BROADCAST || p.toDevice == deviceId) && p.fromDevice != deviceId
  }

  /** A broadcast is kept by every other board, and no board keeps its own packets. */
  lemma FilterFacts(p: Packet, deviceId: u8)
    ensures p.toDevice == BROADCAST && p.fromDevice != deviceId ==> ForUs(p, deviceId)
    ensures p.fromDevice == deviceId ==> !ForUs(p, deviceId)
    ensures p.toDevice != BROADCAST && p.toDevice != deviceId ==> !ForUs(p, deviceId)
  {
  }

  /**
   * As written: String(packet.message) reads the text field as a C string
   * and runs on into the bytes that follow the struct when the field holds
   * no NUL.
   */
  function TextAsWritten(p: Packet, following: seq<u8>): (t: seq<u8>)
    ensures 0 !in t
  {
    CStr(p.message + following)
  }

  /** A 180-character text fills the field with no terminator, so what the receiver reads depends on memory past the packet. */
  lemma FullTextUnterminated(deviceId: u8, now: u32)
    ensures var p := BuildPacket(deviceId, seq(MAX_TEXT, _ => 65), BROADCAST, now).value;
      0 !in p.message
      && TextAsWritten(p, [66, 0]) == seq(MAX_TEXT, _ => 65) + [66]
      && TextAsWritten(p, [0]) == seq(MAX_TEXT, _ => 65)
  {
    var text: seq<u8> := seq(MAX_TEXT, _ => 65);
    CStrOfNulFree(text);
    var p := BuildPacket(deviceId, text, BROADCAST, now).value;
    assert p.message == text;
    CStrNul(text, []);
    CStrNul(text + [66], []);
    assert text + [66, 0] == text + [66] + [0] + [];
    assert text + [0] == text + [0] + [];
  }

  /** A NUL-free prefix followed by a NUL is the whole C string. */
  lemma {:induction false} CStrNul(x: seq<u8>, y: seq<u8>)
    requires 0 !in x
    ensures CStr(x + [0] + y) == x
  {
    if x != [] {
      assert (x + [0] + y)[1..] == x[1..] + [0] + y;
      CStrNul(x[1..], y);
    }
  }

  /** The text as the receiver should read it: the C string within the 180-byte field (strnlen). */
  function MessageText(p: Packet): (t: seq<u8>)
    ensures |t| <= |p.message| && 0 !in t
  {
    CStr(p.message)
  }

  /**
   * The corrected read differs from the source's only on a field without a
   * NUL: whenever the field holds a terminator, String(packet.message) reads
   * exactly MessageText, whatever follows the struct.
   */
  lemma TerminatedTextAgrees(p: Packet, following: seq<u8>)
    requires 0 in p.message
    ensures TextAsWritten(p, following) == MessageText(p)
  {
    var m := p.message;
    var k := CStrLen(m);
    assert k < |m|;
    assert m == m[..k] + [0] + m[k + 1..];
    assert 0 !in m[..k];
    CStrNul(m[..k], m[k + 1..] + following);
    assert m + following == m[..k] + [0] + (m[k + 1..] + following);
  }

  /** Sent and received, a packet carries the C string of the text. */
  lemma TextRoundTrip(deviceId: u8, text: seq<u8>, toDevice: u8, now: u32)
    requires 0 < |text| <= MAX_TEXT
    ensures MessageText(Parse(Serialize(BuildPacket(deviceId, text, toDevice, now).value))) == CStr(text)
  {
    var p := BuildPacket(deviceId, text, toDevice, now).value;
    ParseSerialize(p);
    if CStrLen(text) < MAX_TEXT {
      CStrNulPadded(CStr(text), MAX_TEXT - CStrLen(text));
    } else {
      CStrOfNulFree(text);
    }
  }

  lemma CStrNulPadded(x: seq<u8>, n: nat)
    requires 0 !in x && n > 0
    ensures CStr(x + Zeros(n)) == x
  {
    assert x + Zeros(n) == x + [0] + Zeros(n - 1);
    CStrNul(x, Zeros(n - 1));
  }

  /** What is forwarded to a connected phone: the sender's id and the text. */
  datatype Forward = Forward(fromDevice: u8, text: seq<u8>)

  /** `frames[k]` is the 188-byte broadcast packet of `lines[k]`, for every k. */
  predicate PacketsFor(frames: seq<seq<u8>>, lines: seq<seq<u8>>, deviceId: u8, now: u32) {
    |frames| == |lines|
    && forall k :: 0 <= k < |frames| ==>
         |frames[k]| == PACKET_SIZE && BuildPacket(deviceId, lines[k], BROADCAST, now) == Some(Parse(frames[k]))
  }

  lemma PacketsForSnoc(frames: seq<seq<u8>>, lines: seq<seq<u8>>, f: seq<u8>, line: seq<u8>, deviceId: u8, now: u32)
    requires PacketsFor(frames, lines, deviceId, now)
    requires |f| == PACKET_SIZE && BuildPacket(deviceId, line, BROADCAST, now) == Some(Parse(f))
    ensures PacketsFor(frames + [f], lines + [line], deviceId, now)
  {
  }

  class Transceiver {
    const deviceId: u8
    const loraReady: bool
    var deviceConnected: bool
    var messageCount: u32
    var inputBuffer: seq<u8>

    /** The serial buffer is a line of at most 180 printable characters. */
    ghost predicate Valid()
      reads this
    {
      Line(inputBuffer, MAX_TEXT)
    }

    constructor(id: u8, radioUp: bool)
      requires id == 1 || id == 2
      ensures Valid() && deviceId == id && loraReady == radioUp && !deviceConnected && messageCount == 0 && inputBuffer == []
    {
      deviceId := id;
      loraReady := radioUp;
      deviceConnected := false;
      messageCount := 0;
      inputBuffer := [];
    }

    /** onConnect / onDisconnect. */
    method SetConnected(connected: bool)
      modifies this`deviceConnected
      ensures deviceConnected == connected
    {
      deviceConnected := connected;
    }

    /** sendMessage: nothing without a radio or for a refused text; otherwise the whole 188-byte struct. */
    method SendMessage(text: seq<u8>, toDevice: u8, now: u32) returns (frame: Option<seq<u8>>)
      ensures frame.Some? <==> loraReady && 0 < |text| <= MAX_TEXT
      ensures frame.Some? ==> |frame.value| == PACKET_SIZE && Parse(frame.value) == BuildPacket(deviceId, text, toDevice, now).value
    {
      if !loraReady {
        return None;
      }
      var p := BuildPacket(deviceId, text, toDevice, now);
      if p.None? {
        return None;
      }
      ParseSerialize(p.value);
      frame := Some(Serialize(p.value));
    }

    /** onWrite: a non-empty write is broadcast. */
    method OnWrite(value: seq<u8>, now: u32) returns (frame: Option<seq<u8>>)
      ensures frame.Some? <==> loraReady && 0 < |value| <= MAX_TEXT
      ensures frame.Some? ==> |frame.value| == PACKET_SIZE && Parse(frame.value) == BuildPacket(deviceId, value, BROADCAST, now).value
    {
      frame := None;
      if |value| > 0 {
        frame := SendMessage(value, BROADCAST, now);
      }
    }

    /**
     * checkForMessages: a packet read without error is counted and
     * forwarded exactly when the address filter keeps it; the phone sees it
     * only when connected. `heard` is the whole 188-byte MessagePacket struct
     * after readData(&packet, sizeof(MessagePacket)): a shorter packet on air
     * leaves whatever the stack held in the bytes past it, so every packet
     * length is covered and the size is that of the struct, not of the packet.
     */
    method CheckForMessages(heard: Option<seq<u8>>, readOk: bool) returns (forward: Option<Forward>)
      requires heard.Some? ==> |heard.value| == PACKET_SIZE
      modifies this`messageCount
      ensures var kept := loraReady && heard.Some? && readOk && ForUs(Parse(heard.value), deviceId);
        messageCount == (if kept then Wrap32(old(messageCount) + 1) else old(messageCount))
        && forward == (if kept && deviceConnected
                       then Some(Forward(Parse(heard.value).fromDevice, MessageText(Parse(heard.value)))) else None)
    {
      forward := None;
      if !loraReady || heard.None? || !readOk {
        return;
      }
      var packet := Parse(heard.value);
      if packet.toDevice == BROADCAST || packet.toDevice == deviceId {
        if packet.fromDevice != deviceId {
          messageCount := Wrap32(messageCount + 1);
          if deviceConnected {
            forward := Some(Forward(packet.fromDevice, MessageText(packet)));
          }
        }
      }
    }

    /** One character of the serial loop (limit 180): edit the buffer, and broadcast it on a newline. */
    method Key(c: u8, now: u32) returns (f: Option<seq<u8>>)
      requires Valid()
      modifies this`inputBuffer
      ensures Valid()
      ensures var s := Edit(old(inputBuffer), c, MAX_TEXT);
        inputBuffer == s.buffer
        && (f.Some? <==> s.sent.Some? && loraReady)
        && (f.Some? ==> |f.value| == PACKET_SIZE && Parse(f.value) == BuildPacket(deviceId, s.sent.value, BROADCAST, now).value)
    {
      f := None;
      if c == 10 || c == 13 {
        if |inputBuffer| > 0 {
          f := SendMessage(inputBuffer, BROADCAST, now);
          inputBuffer := [];
        }
      } else if c == 8 || c == 127 {
        if |inputBuffer| > 0 {
          inputBuffer := inputBuffer[..|inputBuffer| - 1];
        }
      } else if 32 <= c <= 126 {
        if |inputBuffer| < MAX_TEXT {
          inputBuffer := inputBuffer + [c];
        }
      }
    }

    /** The serial half of loop: with a radio, one packet per completed line, carrying that line, in order. */
    method ReadSerial(input: seq<u8>, now: u32) returns (frames: seq<seq<u8>>)
      requires Valid()
      modifies this`inputBuffer
      ensures Valid()
      ensures var e := EditAll(old(inputBuffer), input, MAX_TEXT);
        inputBuffer == e.buffer && PacketsFor(frames, if loraReady then e.sent else [], deviceId, now)
    {
      frames := [];
      var i := 0;
      while i < |input|
        invariant 0 <= i <= |input| && Valid()
        invariant var e := EditAll(old(inputBuffer), input[..i], MAX_TEXT);
          inputBuffer == e.buffer && PacketsFor(frames, if loraReady then e.sent else [], deviceId, now)
      {
        ghost var e := EditAll(old(inputBuffer), input[..i], MAX_TEXT);
        ghost var s := Edit(inputBuffer, input[i], MAX_TEXT);
        EditAllSnoc(old(inputBuffer), input, i, MAX_TEXT);
        var f := Key(input[i], now);
        if f.Some? {
          SerializeParse(f.value);
          PacketsForSnoc(frames, e.sent, f.value, s.sent.value, deviceId, now);
          frames := frames + [f.value];
        } else if s.sent.Some? {
          assert !loraReady;
        } else {
          assert e.sent + [] == e.sent;
        }
        i := i + 1;
      }
      assert input[..|input|] == input;
    }

    /** One pass of loop: the radio first, then the serial console. */
    method Loop(heard: Option<seq<u8>>, readOk: bool, input: seq<u8>, now: u32) returns (forward: Option<Forward>, frames: seq<seq<u8>>)
      requires Valid()
      requires heard.Some? ==> |heard.value| == PACKET_SIZE
      modifies this`messageCount, this`inputBuffer
      ensures Valid()
      ensures var kept := loraReady && heard.Some? && readOk && ForUs(Parse(heard.value), deviceId);
        messageCount == (if kept then Wrap32(old(messageCount) + 1) else old(messageCount))
        && forward == (if kept && deviceConnected
                       then Some(Forward(Parse(heard.value).fromDevice, MessageText(Parse(heard.value)))) else None)
      ensures var e := EditAll(old(inputBuffer), input, MAX_TEXT);
        inputBuffer == e.buffer && PacketsFor(frames, if loraReady then e.sent else [], deviceId, now)
    {
      forward := CheckForMessages(heard, readOk);
      frames := ReadSerial(input, now);
    }
  }
}
