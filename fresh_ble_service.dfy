/**
 * The BLE service of the FreshLoRaApp phone app: the name patterns that make
 * a scanned device an ESP32 LoRa station, its M1/M2 type, the station a
 * received line is attributed to, and the guards of sending.
 */
module FreshBleService {
  import opened Bytes
  import opened Text
  import opened BleText

  datatype Station = M1 | M2

  /** A BLE device as the app sees it; `name` may be null. */
  datatype Device = Device(id: string, name: Option<string>)

  /** One entry of the scan results. */
  datatype LoRaDevice = LoRaDevice(id: string, name: string, rssi: Option<int>, stationType: Station)

  /** The message record handed to the UI; the random id and the Date are not modelled. */
  datatype ChatMessage = ChatMessage(text: string, sender: string, isOwn: bool, deviceId: nat, stationType: Station)

  /** The isLoRaDevice disjunction of scanForDevices, on the original name and its lower-case form. */
  predicate IsLoRaDevice(name: string) {
    var lower := Lower(name);
    name == "M1-LoRa-Bridge" || name == "M2-LoRa-Bridge" || name == "M1" || name == "M2"
    || Contains(name, "LoRa-Bridge") || Contains(name, "LoRa_ESP32") || Contains(name, "LoRa_")
    || Contains(name, "ESP32") || Contains(lower, "lora") || Contains(lower, "m1") || Contains(lower, "m2")
    || StartsWith(name, "M1_") || StartsWith(name, "M2_")
  }

  /** A name that is, or starts with, "Mx" contains "Mx", and its lower-case form "mx". */
  lemma StationPrefix(name: string, station: string, lower: string)
    requires (station == "M1" && lower == "m1") || (station == "M2" && lower == "m2")
    requires name == station + "-LoRa-Bridge" || name == station || StartsWith(name, station + "_")
    ensures Contains(name, station) && Contains(Lower(name), lower)
  {
    assert StartsWith(name, station) by {
      if StartsWith(name, station + "_") {
        assert name[..2] == name[..3][..2] == (station + "_")[..2] == station;
      } else if name == station + "-LoRa-Bridge" {
        assert name[..2] == station;
      }
    }
    ContainsPrefix(name, station);
    ContainsLower(name, station);
    assert Lower(station) == lower;
  }

  /** A string that starts with "LoRa" starts with "lora" once lower-cased. */
  lemma LowerStartsLora(p: string)
    requires StartsWith(p, "LoRa")
    ensures StartsWith(Lower(p), "lora")
  {
    LowerSlice(p, 0, 4);
    assert Lower("LoRa") == "lora";
  }

  /** A "LoRa" pattern leaves "lora" in the lower-case name. */
  lemma LoRaPatternOne(name: string, p: string)
    requires Contains(name, p) && StartsWith(p, "LoRa")
    ensures Contains(Lower(name), "lora")
  {
    ContainsLower(name, p);
    LowerStartsLora(p);
    ContainsStart(Lower(name), Lower(p), "lora");
  }

  /** The three "LoRa" patterns all leave "lora" in the lower-case name. */
  lemma LoRaPattern(name: string)
    requires Contains(name, "LoRa-Bridge") || Contains(name, "LoRa_ESP32") || Contains(name, "LoRa_")
    ensures Contains(Lower(name), "lora")
  {
    if Contains(name, "LoRa-Bridge") {
      LoRaPatternOne(name, "LoRa-Bridge");
    } else if Contains(name, "LoRa_ESP32") {
      LoRaPatternOne(name, "LoRa_ESP32");
    } else {
      LoRaPatternOne(name, "LoRa_");
    }
  }

  /** The four tests the other nine reduce to. */
  predicate LoRaName(name: string) {
    Contains(name, "ESP32") || Contains(Lower(name), "lora") || Contains(Lower(name), "m1") || Contains(Lower(name), "m2")
  }

  /**
   * Most of the thirteen tests are implied by the others: a name is a LoRa
   * device exactly when it contains "ESP32" or its lower-case form contains
   * "lora", "m1" or "m2".
   */
  lemma IsLoRaDeviceReduced(name: string)
    ensures IsLoRaDevice(name) <==> LoRaName(name)
  {
    if name == "M1-LoRa-Bridge" || name == "M1" || StartsWith(name, "M1_") {
      StationPrefix(name, "M1", "m1");
    } else if name == "M2-LoRa-Bridge" || name == "M2" || StartsWith(name, "M2_") {
      StationPrefix(name, "M2", "m2");
    } else if Contains(name, "LoRa-Bridge") || Contains(name, "LoRa_ESP32") || Contains(name, "LoRa_") {
      LoRaPattern(name);
    }
  }

  /** The stationType of scanForDevices: M2 on any of five M2 patterns, else M1. */
  function ScanStationType(name: string): (t: Station)
    ensures t == M2 <==> Contains(name, "M2") || Contains(Lower(name), "m2")
  {
    if name == "M2-LoRa-Bridge" || Contains(name, "M2") || name == "M2" || Contains(Lower(name), "m2") || StartsWith(name, "M2_") then
      if name == "M2-LoRa-Bridge" || name == "M2" || StartsWith(name, "M2_") then
        ContainsPrefix(name, "M2");
        M2
      else M2
    else M1
  }

  /** The upper-case test adds nothing: the type is M2 exactly when the lower-case name contains "m2". */
  lemma ScanStationTypeLower(name: string)
    ensures ScanStationType(name) == M2 <==> Contains(Lower(name), "m2")
  {
    if Contains(name, "M2") {
      ContainsLower(name, "M2");
      assert Lower("M2") == "m2";
    }
  }

  /** The scan callback's state: the deviceIds set and the devices array. */
  class Scan {
    var deviceIds: set<string>
    var devices: seq<LoRaDevice>

    /** The set holds exactly the ids of the results, and no id is listed twice. */
    ghost predicate Valid()
      reads this
    {
      deviceIds == (set k | 0 <= k < |devices| :: devices[k].id)
      && forall j, k :: 0 <= j < k < |devices| ==> devices[j].id != devices[k].id
    }

    constructor()
      ensures Valid() && deviceIds == {} && devices == []
    {
      deviceIds := {};
      devices := [];
    }

    /** One scanned device: kept when it has a non-empty name, an unseen id and a LoRa name pattern. */
    method OnDevice(d: Device, rssi: Option<int>)
      requires Valid()
      modifies this
      ensures Valid()
      ensures var added := d.name.Some? && d.name.value != "" && d.id !in old(deviceIds) && IsLoRaDevice(d.name.value);
        devices == old(devices) + (if added then [LoRaDevice(d.id, d.name.value, RssiField(rssi), ScanStationType(d.name.value))] else [])
        && deviceIds == old(deviceIds) + (if added then {d.id} else {})
    {
      if d.name.Some? && d.name.value != "" && d.id !in deviceIds {
        var originalName := d.name.value;
        if IsLoRaDevice(originalName) {
          deviceIds := deviceIds + {d.id};
          devices := devices + [LoRaDevice(d.id, originalName, RssiField(rssi), ScanStationType(originalName))];
          assert devices[|devices| - 1].id == d.id;
          assert deviceIds == (set k | 0 <= k < |devices| :: devices[k].id) by {
            forall x | x in deviceIds
              ensures x in (set k | 0 <= k < |devices| :: devices[k].id)
            {
              if x != d.id {
                var k :| 0 <= k < |old(devices)| && old(devices)[k].id == x;
                assert devices[k].id == x;
              }
            }
          }
        }
      }
    }
  }

  /** getConnectedStationType: null without a device; M2 for an M2 name; M1 otherwise, a null name included. */
  function ConnectedStationType(connected: Option<Device>): (t: Option<Station>)
    ensures connected.None? <==> t.None?
    ensures t == Some(M2) <==> connected.Some? && connected.value.name.Some? && Contains(connected.value.name.value, "M2")
  {
    if connected.None? then None
    else
      var name := connected.value.name;
      if name == Some("M2-LoRa-Bridge") || (name.Some? && Contains(name.value, "M2")) || name == Some("M2") then
        if name == Some("M2-LoRa-Bridge") || name == Some("M2") then
          ContainsPrefix(name.value, "M2");
          Some(M2)
        else Some(M2)
      else if name == Some("M1-LoRa-Bridge") || (name.Some? && Contains(name.value, "M1")) || name == Some("M1") then Some(M1)
      else Some(M1)
  }

  /** handleIncomingMessage: the trimmed text, from the station opposite the connected one (M1 when the type is null). */
  function IncomingMessage(raw: string, connected: Option<Device>): (m: ChatMessage)
    ensures m.text == Trim(raw) && m.sender == "remote" && !m.isOwn
    ensures m.deviceId == (if m.stationType == M1 then 1 else 2)
  {
    var from := if ConnectedStationType(connected) == Some(M1) then M2 else M1;
    ChatMessage(Trim(raw), "remote", false, if from == M1 then 1 else 2, from)
  }

  /** A connected app never attributes a line to its own station. */
  lemma AttributedToOtherStation(raw: string, connected: Option<Device>)
    requires connected.Some?
    ensures Some(IncomingMessage(raw, connected).stationType) != ConnectedStationType(connected)
    ensures ConnectedStationType(connected) == Some(M1) <==> IncomingMessage(raw, connected).deviceId == 2
  {
  }

  /** The service's mutable fields. */
  class Service {
    var connectedDevice: Option<Device>
    var hasCallback: bool

    constructor()
      ensures connectedDevice.None? && !hasCallback
    {
      connectedDevice := None;
      hasCallback := false;
    }

    /** setMessageCallback. */
    method SetMessageCallback()
      modifies this`hasCallback
      ensures hasCallback
    {
      hasCallback := true;
    }

    /** connectToDevice: the device on success; no device at all after a failed attempt. */
    method ConnectToDevice(d: Device, ok: bool) returns (result: bool)
      modifies this`connectedDevice
      ensures result == ok && connectedDevice == (if ok then Some(d) else None)
    {
      if ok {
        connectedDevice := Some(d);
        return true;
      }
      connectedDevice := None;
      return false;
    }

    /** disconnect: forgets the device when cancelling succeeded. */
    method Disconnect(ok: bool)
      modifies this`connectedDevice
      ensures connectedDevice == (if ok then None else old(connectedDevice))
    {
      if connectedDevice.Some? && ok {
        connectedDevice := None;
      }
    }

    /** isConnected. */
    function IsConnected(): (b: bool)
      reads this
      ensures b <==> ConnectedStationType(connectedDevice).Some?
    {
      connectedDevice.Some?
    }

    /** The notification handler: a non-empty value, decoded by atob, is handed to the UI when a callback is set. */
    method OnNotification(value: seq<u8>) returns (delivered: Option<ChatMessage>)
      ensures delivered == (if hasCallback && value != [] then Some(IncomingMessage(Atob(value), connectedDevice)) else None)
    {
      if value == [] {
        return None;
      }
      var message := Atob(value);
      var chatMessage := IncomingMessage(message, connectedDevice);
      if hasCallback {
        return Some(chatMessage);
      }
      return None;
    }

    /**
     * sendMessage: false without a device; otherwise the trimmed text is
     * written, even when it is empty, as long as btoa accepts it, and the
     * result is whether the write succeeded.
     */
    method SendMessage(text: string, writeOk: bool) returns (ok: bool, written: Option<seq<u8>>)
      ensures connectedDevice.None? || Btoa(Trim(text)).None? ==> !ok && written.None?
      ensures connectedDevice.Some? && Btoa(Trim(text)).Some? ==> written == Btoa(Trim(text)) && ok == writeOk
    {
      if connectedDevice.None? {
        return false, None;
      }
      var messageText := Trim(text);
      var base64Message := Btoa(messageText);
      if base64Message.None? {
        return false, None;
      }
      written := base64Message;
      ok := writeOk;
    }
  }
}
