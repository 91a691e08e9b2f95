/**
 * The BLE service of the Mob-app phone app: which scanned devices are LoRa
 * stations, how a notification of the station is parsed into a chat
 * message, and when a typed message is written and echoed.
 */
module MobBleService {
  import opened Bytes
  import opened Text
  import opened BleText
  import M1Station

  datatype Station = M1 | M2

  /** A BLE device as the app sees it; `name` may be null. */
  datatype Device = Device(id: string, name: Option<string>)

  /** One entry of the scan results; isConnected is always false there. */
  datatype LoRaDevice = LoRaDevice(id: string, name: string, isConnected: bool, rssi: Option<int>, stationType: Station)

  /** The message record handed to the UI; the random id, the Date and RSSI/SNR are not modelled. */
  datatype ChatMessage = ChatMessage(text: string, fromDevice: string, deviceId: nat, stationType: Option<Station>, isOutgoing: bool)

  /** The name test of the scan callback. */
  predicate ScanAccepts(name: string) {
    name == "M1" || name == "M2" || Contains(name, "LoRa") || Contains(name, "ESP32")
  }

  /** The stationType of a scanned device: M1 exactly when the name contains "M1". */
  function ScanStationType(name: string): (t: Station)
    ensures t == M1 <==> Contains(name, "M1")
  {
    if Contains(name, "M1") || name == "M1" then
      if name == "M1" then
        ContainsPrefix(name, "M1");
        M1
      else M1
    else M2
  }

  /** The scan callback's state: the foundDevices set and the devices array. */
  class Scan {
    var foundDevices: set<string>
    var devices: seq<LoRaDevice>

    /** The set holds exactly the ids of the results, and no id is listed twice. */
    ghost predicate Valid()
      reads this
    {
      foundDevices == (set k | 0 <= k < |devices| :: devices[k].id)
      && forall j, k :: 0 <= j < k < |devices| ==> devices[j].id != devices[k].id
    }

    constructor()
      ensures Valid() && foundDevices == {} && devices == []
    {
      foundDevices := {};
      devices := [];
    }

    /** One scanned device: kept when it has a non-empty name that passes the test and an unseen id. */
    method OnDevice(d: Device, rssi: Option<int>)
      requires Valid()
      modifies this
      ensures Valid()
      ensures var added := d.name.Some? && d.name.value != "" && ScanAccepts(d.name.value) && d.id !in old(foundDevices);
        devices == old(devices) + (if added then [LoRaDevice(d.id, d.name.value, false, RssiField(rssi), ScanStationType(d.name.value))] else [])
        && foundDevices == old(foundDevices) + (if added then {d.id} else {})
    {
      if d.name.Some? && d.name.value != "" && ScanAccepts(d.name.value) && d.id !in foundDevices {
        foundDevices := foundDevices + {d.id};
        devices := devices + [LoRaDevice(d.id, d.name.value, false, RssiField(rssi), ScanStationType(d.name.value))];
        assert devices[|devices| - 1].id == d.id;
        assert foundDevices == (set k | 0 <= k < |devices| :: devices[k].id) by {
          forall x | x in foundDevices
            ensures x in (set k | 0 <= k < |devices| :: devices[k].id)
          {
            if x != d.id {
              var k :| 0 <= k < |old(devices)| && old(devices)[k].id == x;
              assert devices[k].id == x;
            }
          }
        }
      }
    }
  }

  /** The arrow of the app's regular expression, U+2192. */
  const ARROW: char := '\U{2192}'

  /** `\d`: an ASCII digit. */
  predicate IsDigit(c: char) {
    '0' <= c <= '9'
  }

  /** The characters `.` does not match: LineTerminator. */
  predicate IsLineTerminator(c: char) {
    c == '\n' || c == '\r' || c == '\U{2028}' || c == '\U{2029}'
  }

  /**
   * The regular expression `\[(M[12])→(M[12]) (\d{2}:\d{2}:\d{2})\] (.+)`
   * matches from position `i`: 17 fixed characters, then at least one
   * character that is not a line terminator.
   */
  predicate MatchAt(s: string, i: nat) {
    i + 18 <= |s|
    && s[i] == '[' && s[i + 1] == 'M' && (s[i + 2] == '1' || s[i + 2] == '2') && s[i + 3] == ARROW
    && s[i + 4] == 'M' && (s[i + 5] == '1' || s[i + 5] == '2') && s[i + 6] == ' '
    && IsDigit(s[i + 7]) && IsDigit(s[i + 8]) && s[i + 9] == ':' && IsDigit(s[i + 10]) && IsDigit(s[i + 11])
    && s[i + 12] == ':' && IsDigit(s[i + 13]) && IsDigit(s[i + 14]) && s[i + 15] == ']' && s[i + 16] == ' '
    && !IsLineTerminator(s[i + 17])
  }

  /** The leftmost match from `from` on, as String.prototype.match finds it. */
  function FindMatch(s: string, from: nat): (r: Option<nat>)
    ensures r.Some? ==> from <= r.value && MatchAt(s, r.value) && forall j :: from <= j < r.value ==> !MatchAt(s, j)
    ensures r.None? ==> forall j :: from <= j ==> !MatchAt(s, j)
    decreases |s| - from
  {
    if from + 18 > |s| then None
    else if MatchAt(s, from) then Some(from)
    else FindMatch(s, from + 1)
  }

  /** The greedy `(.+)`: the longest run from `j` without a line terminator. */
  function RestOfLine(s: string, j: nat): (r: string)
    requires j <= |s|
    ensures j + |r| <= |s| && r == s[j..j + |r|]
    ensures forall k :: 0 <= k < |r| ==> !IsLineTerminator(r[k])
    ensures j + |r| == |s| || IsLineTerminator(s[j + |r|])
    decreases |s| - j
  {
    if j == |s| || IsLineTerminator(s[j]) then [] else [s[j]] + RestOfLine(s, j + 1)
  }

  /** `this.connectedDevice?.name || 'LoRa Device'`. */
  function FallbackSender(deviceName: Option<string>): (r: string)
    ensures r != []
    ensures deviceName.Some? && deviceName.value != [] ==> r == deviceName.value
  {
    if deviceName.Some? && deviceName.value != [] then deviceName.value else "LoRa Device"
  }

  /**
   * parseReceivedMessage on the decoded value: nothing for an empty value;
   * the captured text, "M1 Station"/"M2 Station", 1/2 and the station type
   * for a formatted line; otherwise the whole value from the connected
   * device with deviceId 0 and no station type.
   */
  function ParseReceived(decoded: string, deviceName: Option<string>): (r: Option<ChatMessage>)
    ensures r.None? <==> decoded == []
    ensures r.Some? ==> !r.value.isOutgoing
    ensures r.Some? ==> (r.value.deviceId == 0 <==> r.value.stationType.None?)
    ensures decoded != [] && (forall i :: !MatchAt(decoded, i)) ==>
      r == Some(ChatMessage(decoded, FallbackSender(deviceName), 0, None, false))
  {
    if decoded == [] then None
    else
      match FindMatch(decoded, 0)
      case Some(i) =>
        var from := if decoded[i + 2] == '1' then M1 else M2;
        Some(ChatMessage(RestOfLine(decoded, i + 17), if from == M1 then "M1 Station" else "M2 Station",
                         if from == M1 then 1 else 2, Some(from), false))
      case None =>
        Some(ChatMessage(decoded, FallbackSender(deviceName), 0, None, false))
  }

  /** A formatted line is parsed at its leftmost match: the text is the rest of that line, never empty, from that line's sending station, incoming. */
  lemma ParsedAtLeftmostMatch(decoded: string, deviceName: Option<string>, i: nat)
    requires MatchAt(decoded, i) && forall j :: 0 <= j < i ==> !MatchAt(decoded, j)
    ensures var r := ParseReceived(decoded, deviceName);
      r.Some? && r.value.text == RestOfLine(decoded, i + 17) && r.value.text != []
      && r.value.deviceId == (if decoded[i + 2] == '1' then 1 else 2)
      && r.value.stationType == Some(if decoded[i + 2] == '1' then M1 else M2)
      && r.value.fromDevice == (if decoded[i + 2] == '1' then "M1 Station" else "M2 Station")
      && !r.value.isOutgoing
  {
    assert FindMatch(decoded, 0) == Some(i);
  }

  /**
   * The notification value as the app decodes it, with atob: one character
   * per byte. This is the code as written.
   */
  function AtobNotification(value: seq<u8>, deviceName: Option<string>): (r: Option<ChatMessage>)
    ensures r.None? <==> value == []
  {
    ParseReceived(Atob(value), deviceName)
  }

  /** The line the M1 station notifies, decoded by atob, never matches: the arrow arrives as three characters below U+0100. */
  lemma FirmwareLineMissed(timestamp: u32, text: seq<u8>, deviceName: Option<string>)
    ensures var line := M1Station.PhoneLine(timestamp, text);
      AtobNotification(line, deviceName) == Some(ChatMessage(Atob(line), FallbackSender(deviceName), 0, None, false))
  {
    var s := Atob(M1Station.PhoneLine(timestamp, text));
    forall i: nat
      ensures !MatchAt(s, i)
    {
      if i + 18 <= |s| {
        assert s[i + 3] as int < 0x100;
      }
    }
  }

  /** The notification value decoded as UTF-8, as the station encodes it: the corrected decoding. */
  function Notification(value: seq<u8>, deviceName: Option<string>): (r: Option<ChatMessage>)
    ensures value == [] ==> r.None?
  {
    ParseReceived(Utf8Decode(value), deviceName)
  }

  /** atob of concatenated bytes is the concatenation of the strings. */
  lemma AtobAppend(a: seq<u8>, b: seq<u8>)
    ensures Atob(a + b) == Atob(a) + Atob(b)
  {
    assert forall k :: 0 <= k < |a + b| ==> Atob(a + b)[k] == (Atob(a) + Atob(b))[k];
  }

  /** The bytes of an ASCII literal read back as the literal. */
  lemma AtobAscii(s: string)
    requires forall i :: 0 <= i < |s| ==> s[i] < '\U{0080}'
    ensures AsciiBytes(M1Station.Ascii(s)) && Atob(M1Station.Ascii(s)) == s
  {
    assert forall k :: 0 <= k < |s| ==> Atob(M1Station.Ascii(s))[k] == s[k];
  }

  /** The digits and colons of the clock, read as characters. */
  lemma ClockChars(timestamp: u32)
    ensures var c := Atob(M1Station.Clock(timestamp));
      AsciiBytes(M1Station.Clock(timestamp)) && |c| == 8
      && IsDigit(c[0]) && IsDigit(c[1]) && c[2] == ':' && IsDigit(c[3]) && IsDigit(c[4]) && c[5] == ':' && IsDigit(c[6]) && IsDigit(c[7])
  {
    var clock := M1Station.Clock(timestamp);
    assert clock[0] == clock[..2][0] && clock[1] == clock[..2][1];
    assert clock[3] == clock[3..5][0] && clock[4] == clock[3..5][1];
    assert clock[6] == clock[6..][0] && clock[7] == clock[6..][1];
  }

  /** The part of the station's line after the arrow is ASCII and reads back as its pieces. */
  lemma LineTailAscii(timestamp: u32, text: seq<u8>)
    requires AsciiBytes(text)
    ensures var rest := M1Station.Ascii("M1 ") + M1Station.Clock(timestamp) + M1Station.Ascii("] ") + text;
      AsciiBytes(rest) && Atob(rest) == "M1 " + Atob(M1Station.Clock(timestamp)) + "] " + Atob(text)
  {
    var clock := M1Station.Clock(timestamp);
    AtobAscii("M1 ");
    AtobAscii("] ");
    ClockChars(timestamp);
    AtobAppend(M1Station.Ascii("M1 "), clock);
    AtobAppend(M1Station.Ascii("M1 ") + clock, M1Station.Ascii("] "));
    AtobAppend(M1Station.Ascii("M1 ") + clock + M1Station.Ascii("] "), text);
  }

  /** The station's line as its ASCII head, the arrow's bytes and the rest. */
  lemma PhoneLineSplit(timestamp: u32, text: seq<u8>)
    ensures M1Station.PhoneLine(timestamp, text)
      == M1Station.Ascii("[M2") + (M1Station.ARROW_UTF8
         + (M1Station.Ascii("M1 ") + M1Station.Clock(timestamp) + M1Station.Ascii("] ") + text))
  {
    var line := M1Station.PhoneLine(timestamp, text);
    assert line == line[..19] + line[19..];
  }

  /** ASCII, the arrow's three bytes, ASCII: UTF-8 decoding gives one character for the arrow. */
  lemma ArrowBetweenAscii(head: seq<u8>, rest: seq<u8>)
    requires AsciiBytes(head) && AsciiBytes(rest)
    ensures Utf8Decode(head + (M1Station.ARROW_UTF8 + rest)) == Atob(head) + ([ARROW] + Atob(rest))
  {
    Utf8DecodeAscii(head, M1Station.ARROW_UTF8 + rest);
    assert SequenceLength(M1Station.ARROW_UTF8) == 3;
    assert Scalar(M1Station.ARROW_UTF8) == ARROW;
    Utf8DecodeThree(M1Station.ARROW_UTF8, rest);
    Utf8DecodeAscii(rest, []);
    assert rest + [] == rest;
  }

  /** The M1 station's line, UTF-8-decoded: the head with its one arrow character, then the text. */
  lemma PhoneLineDecoded(timestamp: u32, text: seq<u8>)
    requires AsciiBytes(text)
    ensures Utf8Decode(M1Station.PhoneLine(timestamp, text))
      == "[M2" + [ARROW] + "M1 " + Atob(M1Station.Clock(timestamp)) + "] " + Atob(text)
  {
    var head := M1Station.Ascii("[M2");
    var rest := M1Station.Ascii("M1 ") + M1Station.Clock(timestamp) + M1Station.Ascii("] ") + text;
    PhoneLineSplit(timestamp, text);
    AtobAscii("[M2");
    LineTailAscii(timestamp, text);
    DecodedShape(M1Station.PhoneLine(timestamp, text), head, rest, Atob(M1Station.Clock(timestamp)), Atob(text));
  }

  /** The decoding of a line made of an ASCII head, the arrow and an ASCII rest, in terms of what atob reads in the two ASCII parts. */
  lemma DecodedShape(line: seq<u8>, head: seq<u8>, rest: seq<u8>, c: string, t: string)
    requires line == head + (M1Station.ARROW_UTF8 + rest) && AsciiBytes(head) && AsciiBytes(rest)
    requires Atob(head) == "[M2" && Atob(rest) == "M1 " + c + "] " + t
    ensures Utf8Decode(line) == "[M2" + [ARROW] + "M1 " + c + "] " + t
  {
    ArrowBetweenAscii(head, rest);
    assert Utf8Decode(line) == "[M2" + ([ARROW] + ("M1 " + c + "] " + t));
  }

  /** A run without line terminators is taken whole by `(.+)`. */
  lemma {:induction false} RestOfLineWhole(s: string, j: nat)
    requires j <= |s| && forall k :: j <= k < |s| ==> !IsLineTerminator(s[k])
    ensures RestOfLine(s, j) == s[j..]
    decreases |s| - j
  {
    if j < |s| {
      RestOfLineWhole(s, j + 1);
      assert s[j..] == [s[j]] + s[j + 1..];
    }
  }

  /** The station's head followed by a first text character matches at position 0. */
  lemma HeadMatches(c: string, t: string)
    requires |c| == 8 && IsDigit(c[0]) && IsDigit(c[1]) && c[2] == ':' && IsDigit(c[3]) && IsDigit(c[4])
    requires c[5] == ':' && IsDigit(c[6]) && IsDigit(c[7])
    requires t != [] && !IsLineTerminator(t[0])
    ensures MatchAt("[M2" + [ARROW] + "M1 " + c + "] " + t, 0)
  {
    var s := "[M2" + [ARROW] + "M1 " + c + "] " + t;
    assert s[7] == c[0] && s[8] == c[1] && s[9] == c[2] && s[10] == c[3];
    assert s[11] == c[4] && s[12] == c[5] && s[13] == c[6] && s[14] == c[7];
    assert s[17] == t[0];
  }

  /** A line in the station's format is parsed to its text, from "M2 Station". */
  lemma StationLineParsed(c: string, t: string, deviceName: Option<string>)
    requires |c| == 8 && IsDigit(c[0]) && IsDigit(c[1]) && c[2] == ':' && IsDigit(c[3]) && IsDigit(c[4])
    requires c[5] == ':' && IsDigit(c[6]) && IsDigit(c[7])
    requires t != [] && forall k :: 0 <= k < |t| ==> !IsLineTerminator(t[k])
    ensures ParseReceived("[M2" + [ARROW] + "M1 " + c + "] " + t, deviceName)
      == Some(ChatMessage(t, "M2 Station", 2, Some(M2), false))
  {
    var s := "[M2" + [ARROW] + "M1 " + c + "] " + t;
    HeadMatches(c, t);
    ParsedAtLeftmostMatch(s, deviceName, 0);
    assert s[17..] == t;
    assert forall k :: 17 <= k < |s| ==> s[k] == t[k - 17];
    RestOfLineWhole(s, 17);
    assert s[2] == '2';
  }

  /**
   * Decoded as UTF-8, the line the M1 station notifies for a non-empty
   * single-line ASCII text parses back to that text, from "M2 Station",
   * device 2, station type M2.
   */
  lemma FirmwareLineParsed(timestamp: u32, text: seq<u8>, deviceName: Option<string>)
    requires text != [] && AsciiBytes(text)
    requires forall k :: 0 <= k < |text| ==> text[k] != 10 && text[k] != 13
    ensures Notification(M1Station.PhoneLine(timestamp, text), deviceName)
      == Some(ChatMessage(Atob(text), "M2 Station", 2, Some(M2), false))
  {
    PhoneLineDecoded(timestamp, text);
    ClockChars(timestamp);
    var t := Atob(text);
    assert forall k :: 0 <= k < |t| ==> !IsLineTerminator(t[k]);
    StationLineParsed(Atob(M1Station.Clock(timestamp)), t, deviceName);
  }

  /** What the app receives from sending, as far as the UI sees it. */
  datatype SendOutcome = SendOutcome(ok: bool, written: Option<seq<u8>>, echo: Option<ChatMessage>)

  /** The service's mutable fields. */
  class Service {
    var connectedDevice: Option<Device>
    var hasCallback: bool

    constructor()
      ensures connectedDevice.None? && !hasCallback
    {
      connectedDevice := None;
      hasCallback := false;
    }

    /** setMessageCallback. */
    method SetMessageCallback()
      modifies this`hasCallback
      ensures hasCallback
    {
      hasCallback := true;
    }

    /**
     * connectToDevice: the device is kept as soon as the connection is made,
     * even when discovering its services then fails; the result is whether
     * both steps succeeded.
     */
    method ConnectToDevice(d: Device, connectOk: bool, discoverOk: bool) returns (result: bool)
      modifies this`connectedDevice
      ensures connectedDevice == (if connectOk then Some(d) else old(connectedDevice))
      ensures result == (connectOk && discoverOk)
    {
      if !connectOk {
        return false;
      }
      connectedDevice := Some(d);
      if !discoverOk {
        return false;
      }
      return true;
    }

    /** disconnect: forgets the device when cancelling succeeded. */
    method Disconnect(ok: bool)
      modifies this`connectedDevice
      ensures connectedDevice == (if ok then None else old(connectedDevice))
    {
      if connectedDevice.Some? && ok {
        connectedDevice := None;
      }
    }

    /** getConnectedStationType: only an exact "M1" or "M2" name gives a type. */
    function ConnectedStationType(): (t: Option<Station>)
      reads this
      ensures t == Some(M1) <==> connectedDevice.Some? && connectedDevice.value.name == Some("M1")
      ensures t == Some(M2) <==> connectedDevice.Some? && connectedDevice.value.name == Some("M2")
    {
      if connectedDevice.Some? && connectedDevice.value.name == Some("M1") then Some(M1)
      else if connectedDevice.Some? && connectedDevice.value.name == Some("M2") then Some(M2)
      else None
    }

    /**
     * The RX notification handler: the parsed message reaches the UI when a
     * callback is set. The value is decoded with the corrected UTF-8
     * Notification, not the atob of parseReceivedMessage; the two agree on
     * every ASCII value.
     */
    method OnNotification(value: seq<u8>) returns (delivered: Option<ChatMessage>)
      ensures delivered == (if hasCallback then Notification(value, if connectedDevice.Some? then connectedDevice.value.name else None) else None)
      ensures AsciiBytes(value) ==> delivered == (if hasCallback then AtobNotification(value, if connectedDevice.Some? then connectedDevice.value.name else None) else None)
    {
      if value == [] {
        return None;
      }
      if AsciiBytes(value) {
        Utf8DecodeAscii(value, []);
        assert value + [] == value;
        assert Atob(value) + [] == Atob(value);
        assert Utf8Decode(value) == Atob(value);
      }
      var name := if connectedDevice.Some? then connectedDevice.value.name else None;
      var message := Notification(value, name);
      delivered := None;
      if message.Some? && hasCallback {
        delivered := message;
      }
    }

    /**
     * sendMessage: false without a device or for a blank text; otherwise the
     * text itself (untrimmed) is written when btoa accepts it, and a
     * successful write is echoed once as an outgoing message from "You".
     */
    method SendMessage(text: string, writeOk: bool) returns (out: SendOutcome)
      ensures connectedDevice.None? || Trim(text) == [] || Btoa(text).None? ==> out == SendOutcome(false, None, None)
      ensures connectedDevice.Some? && Trim(text) != [] && Btoa(text).Some? ==>
        out.written == Btoa(text) && out.ok == writeOk
        && out.echo == (if writeOk && hasCallback
                        then Some(ChatMessage(text, "You", 0, Some(if connectedDevice.value.name == Some("M1") then M1 else M2), true))
                        else None)
    {
      if connectedDevice.None? {
        return SendOutcome(false, None, None);
      }
      if Trim(text) == [] {
        return SendOutcome(false, None, None);
      }
      var messageData := Btoa(text);
      if messageData.None? {
        return SendOutcome(false, None, None);
      }
      if !writeOk {
        return SendOutcome(false, messageData, None);
      }
      var echo := None;
      if hasCallback {
        var stationType := if connectedDevice.value.name == Some("M1") then M1 else M2;
        echo := Some(ChatMessage(text, "You", 0, Some(stationType), true));
      }
      return SendOutcome(true, messageData, echo);
    }
  }
}
