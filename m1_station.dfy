/**
 * The M1 station: a phone write over BLE is framed and sent over LoRa to
 * M2, and a text frame heard from M2 is checked, counted and notified to
 * the phone as "[M2→M1 hh:mm:ss] text", the clock taken from the sender's
 * millisecond time stamp.
 */
module M1Station {
  import opened Bytes
  import opened TextFrame

  /** hours % 24 with hours = minutes / 60, minutes = seconds / 60, seconds = ms / 1000. */
  function Hours(ms: u32): (h: nat)
    ensures h < 24 && h == (ms / 3_600_000) % 24
  {
    var seconds := ms / 1000;
    var minutes := seconds / 60;
    var hours := minutes / 60;
    hours % 24
  }

  /** minutes % 60. */
  function Minutes(ms: u32): (m: nat)
    ensures m < 60 && m == (ms / 60_000) % 60
  {
    var seconds := ms / 1000;
    var minutes := seconds / 60;
    minutes % 60
  }

  /** seconds % 60: below 60, and a whole number of minutes short of the whole seconds. */
  function Seconds(ms: u32): (s: nat)
    ensures s < 60 && s <= ms / 1000 && (ms / 1000 - s) % 60 == 0
  {
    var seconds := ms / 1000;
    seconds % 60
  }

  /** The three fields of the clock are the time of day of the stamp, in seconds, modulo a day. */
  lemma ClockIsTimeOfDay(ms: u32)
    ensures Hours(ms) * 3600 + Minutes(ms) * 60 + Seconds(ms) == (ms / 1000) % 86400
  {
  }

  /** The byte of an ASCII character of a string literal of the sketch. */
  function Ascii(s: string): (r: seq<u8>)
    requires forall i :: 0 <= i < |s| ==> s[i] < '\U{0080}'
    ensures |r| == |s| && forall i :: 0 <= i < |s| ==> r[i] == s[i] as int
  {
    seq(|s|, i requires 0 <= i < |s| => s[i] as int)
  }

  /** `%02lu` of a value below 100: two ASCII digits. */
  function TwoDigits(n: nat): (r: seq<u8>)
    requires n < 100
    ensures |r| == 2 && '0' as int <= r[0] <= '9' as int && '0' as int <= r[1] <= '9' as int
    ensures (r[0] - '0' as int) * 10 + (r[1] - '0' as int) == n
  {
    ['0' as int + n / 10, '0' as int + n % 10]
  }

  /** "hh:mm:ss" of the sender's time stamp. */
  function Clock(ms: u32): (r: seq<u8>)
    ensures |r| == 8 && r[2] == ':' as int && r[5] == ':' as int
    ensures r[..2] == TwoDigits(Hours(ms)) && r[3..5] == TwoDigits(Minutes(ms)) && r[6..] == TwoDigits(Seconds(ms))
  {
    TwoDigits(Hours(ms)) + [':' as int] + TwoDigits(Minutes(ms)) + [':' as int] + TwoDigits(Seconds(ms))
  }

  /** The arrow of the format string, as the three bytes of its UTF-8 encoding in the sketch's source. */
  const ARROW_UTF8: seq<u8> := [0xE2, 0x86, 0x92]

  /**
   * The snprintf of sendMessageToPhone: "[M2", the arrow, "M1 ", the clock,
   * "] ", then the text. The 19-byte prefix and a text of at most 200 bytes
   * always fit the 250-byte buffer, so nothing is cut.
   */
  function PhoneLine(timestamp: u32, text: seq<u8>): (r: seq<u8>)
    ensures |r| == 19 + |text|
    ensures r[..19] == Ascii("[M2") + ARROW_UTF8 + Ascii("M1 ") + Clock(timestamp) + Ascii("] ")
    ensures r[19..] == text
    ensures |text| <= MAX_MESSAGE_LEN ==> |r| < MAX_MESSAGE_LEN + 50
  {
    var head := Ascii("[M2") + ARROW_UTF8 + Ascii("M1 ") + Clock(timestamp) + Ascii("] ");
    assert |head| == 19;
    head + text
  }

  class Station {
    const loraReady: bool
    var deviceConnected: bool
    const rx: FrameReceiver

    constructor(radioUp: bool)
      ensures loraReady == radioUp && !deviceConnected && fresh(rx) && rx.messageCount == 0
    {
      loraReady := radioUp;
      deviceConnected := false;
      rx := new FrameReceiver();
    }

    /** onConnect / onDisconnect. */
    method SetConnected(connected: bool)
      modifies this`deviceConnected
      ensures deviceConnected == connected
    {
      deviceConnected := connected;
    }

    /** sendMessageViaLoRa: nothing without a radio, otherwise the frame of the C string, if it is accepted. */
    method SendMessageViaLoRa(text: seq<u8>, now: u32) returns (frame: Option<seq<u8>>)
      ensures frame == Transmitted(loraReady, text, now)
      ensures frame.Some? <==> loraReady && 0 < SendLen(text) <= MAX_MESSAGE_LEN
    {
      frame := Transmitted(loraReady, text, now);
    }

    /** onWrite: a non-empty write is sent on over LoRa. */
    method OnWrite(value: seq<u8>, now: u32) returns (frame: Option<seq<u8>>)
      ensures frame == (if value != [] then Transmitted(loraReady, value, now) else None)
    {
      frame := None;
      if |value| > 0 {
        frame := SendMessageViaLoRa(value, now);
      }
    }

    /** sendMessageToPhone: nothing without a phone, otherwise the formatted line. */
    method SendMessageToPhone(message: seq<u8>, timestamp: u32) returns (note: Option<seq<u8>>)
      ensures note == (if deviceConnected then Some(PhoneLine(timestamp, message)) else None)
    {
      if !deviceConnected {
        return None;
      }
      note := Some(PhoneLine(timestamp, message));
    }

    /** The receive half of loop: an accepted frame is counted and, with a phone connected, notified. */
    method Listen(heard: Option<Heard>) returns (note: Option<seq<u8>>)
      requires heard.Some? ==> |heard.value.stale| == PACKET_SIZE
      modifies rx
      ensures var got := if loraReady && heard.Some? then Decode(heard.value.frame, heard.value.readOk, heard.value.stale) else None;
        rx.messageCount == (if got.Some? then Wrap32(old(rx.messageCount) + 1) else old(rx.messageCount))
        && note == (if got.Some? && deviceConnected then Some(PhoneLine(got.value.timestamp, got.value.text)) else None)
    {
      note := None;
      if loraReady && heard.Some? {
        var got := rx.Receive(heard.value.frame, heard.value.readOk, heard.value.stale);
        if got.Some? {
          note := SendMessageToPhone(got.value.text, got.value.timestamp);
        }
      }
    }
  }
}
