/**
 * The LoRa-Bluetooth tunnel: a phone writes text over BLE, the text waits
 * in the BLE-to-LoRa queue until a partner station has been paired, and
 * DATA from the partner waits in the LoRa-to-BLE queue until it is notified
 * to the phone. Pairing is a HELLO_ broadcast answered by the first other
 * station heard.
 */
module CompleteTunnel {
  import opened Bytes
  import opened Text
  import opened RingQueue

  const QUEUE_SIZE: nat := 10
  const MAX_MESSAGE_SIZE: nat := 200
  const PAIRING_TIMEOUT: nat := 30000

  /** One queue entry. */
  datatype Message = Message(content: string, fromDevice: string, toDevice: string, timestamp: u32)

  /** The fields of a LoRa JSON document that was read and parsed; the JSON text itself is not modelled. */
  datatype Packet = Packet(kind: string, from: string, to: string, data: string)

  /** What a pass of the firmware hands to the radio or to the phone; the texts of the phone notifications are not modelled. */
  datatype Output =
    | Radio(kind: string, from: string, to: string, data: string)
    | ToPhone(from: string, content: string)
    | Confirm(content: string)
    | PairedNote(partner: string)

  /**
   * sendLoRaMessage: nothing without a radio; PAIR goes to BROADCAST, every
   * other type to the partner.
   */
  function LoRaSend(loraReady: bool, myId: string, partner: string, message: string, kind: string): (out: seq<Output>)
    ensures !loraReady <==> out == []
    ensures loraReady ==> (|out| == 1 && out[0].Radio? && out[0].from == myId && out[0].data == message
                           && out[0].to == (if kind == "PAIR" then "BROADCAST" else partner))
  {
    if !loraReady then []
    else [Radio(kind, myId, if kind == "PAIR" then "BROADCAST" else partner, message)]
  }

  /** What loop works on: the pairing globals and the contents of both queues, oldest first. */
  datatype TunnelState = TunnelState(paired: bool, partner: string, pairingStart: u32, toRadio: seq<Message>, toPhone: seq<Message>)

  /** A state together with what a step of loop hands to the radio and the phone. */
  datatype Step = Step(state: TunnelState, out: seq<Output>)

  /** The add of a ring of QUEUE_SIZE slots: a queue holding QUEUE_SIZE - 1 messages drops the new one. */
  function Enqueue(items: seq<Message>, m: Message): seq<Message> {
    if |items| < QUEUE_SIZE - 1 then items + [m] else items
  }

  /** The take of a ring: the oldest message leaves, if there is one. */
  function Dequeue(items: seq<Message>): seq<Message> {
    if items == [] then [] else items[1..]
  }

  /**
   * handleLoRaReceive with the radio up: a PAIR from the partner of a paired
   * station is ignored, a HELLO_ from another station pairs an unpaired one,
   * which answers PAIRED_ and tells a connected phone; DATA from the
   * partner is queued for the phone; anything else changes nothing.
   */
  function OnPacket(st: TunnelState, received: Option<Packet>, now: u32, myId: string, connected: bool): Step {
    if received.None? then Step(st, [])
    else
      var p := received.value;
      if p.kind == "PAIR" then
        if !st.paired && StartsWith(p.data, "HELLO_") && p.from != myId then
          Step(st.(paired := true, partner := p.from),
               LoRaSend(true, myId, p.from, "PAIRED_" + myId, "PAIR") + (if connected then [PairedNote(p.from)] else []))
        else Step(st, [])
      else if p.kind == "DATA" && p.from == st.partner then
        Step(st.(toPhone := Enqueue(st.toPhone, Message(p.data, p.from, myId, now))), [])
      else Step(st, [])
  }

  /** The BLE-to-LoRa step: the oldest message leaves its queue and goes out as DATA only when paired. */
  function ToRadioStep(st: TunnelState, myId: string): Step {
    Step(st.(toRadio := Dequeue(st.toRadio)),
         if st.toRadio != [] && st.paired then LoRaSend(true, myId, st.partner, st.toRadio[0].content, "DATA") else [])
  }

  /** The pairing timeout: unpaired more than 30 s after the last HELLO_, broadcast HELLO_ again. */
  function TimeoutStep(st: TunnelState, now: u32, myId: string): Step {
    if !st.paired && Elapsed(now, st.pairingStart) > PAIRING_TIMEOUT then
      Step(st.(partner := "", pairingStart := now), LoRaSend(true, myId, "", "HELLO_" + myId, "PAIR"))
    else Step(st, [])
  }

  /** The LoRa-to-BLE step: the oldest message leaves its queue and is notified only to a connected phone. */
  function ToPhoneStep(st: TunnelState, connected: bool): Step {
    Step(st.(toPhone := Dequeue(st.toPhone)),
         if st.toPhone != [] && connected then [ToPhone(st.toPhone[0].fromDevice, st.toPhone[0].content)] else [])
  }

  /** One pass of loop: with the radio up, receive, forward to the radio and check the timeout; then forward to the phone. */
  function LoopPass(st: TunnelState, received: Option<Packet>, now: u32, loraReady: bool, myId: string, connected: bool): Step {
    if loraReady then
      var a := OnPacket(st, received, now, myId, connected);
      var b := ToRadioStep(a.state, myId);
      var c := TimeoutStep(b.state, now, myId);
      var d := ToPhoneStep(c.state, connected);
      Step(d.state, a.out + b.out + c.out + d.out)
    else ToPhoneStep(st, connected)
  }

  /** A paired station stays paired with the same partner through any pass. */
  lemma PassKeepsPartner(st: TunnelState, received: Option<Packet>, now: u32, loraReady: bool, myId: string, connected: bool)
    requires st.paired
    ensures var t := LoopPass(st, received, now, loraReady, myId, connected).state;
      t.paired && t.partner == st.partner
  {
  }

  /**
   * While paired with the radio up, the oldest message written by the phone
   * goes to the partner as DATA in this pass, whatever is received.
   */
  lemma QueuedTextSent(st: TunnelState, received: Option<Packet>, now: u32, myId: string, connected: bool)
    requires st.paired && st.toRadio != []
    ensures var r := LoopPass(st, received, now, true, myId, connected);
      r.state.toRadio == st.toRadio[1..]
      && Radio("DATA", myId, st.partner, st.toRadio[0].content) in r.out
  {
    var a := OnPacket(st, received, now, myId, connected);
    assert a.state.paired && a.state.partner == st.partner && a.state.toRadio == st.toRadio;
    var b := ToRadioStep(a.state, myId);
    assert b.out == [Radio("DATA", myId, st.partner, st.toRadio[0].content)];
    var c := TimeoutStep(b.state, now, myId);
    var d := ToPhoneStep(c.state, connected);
    assert LoopPass(st, received, now, true, myId, connected).out == a.out + b.out + c.out + d.out;
    assert (a.out + b.out + c.out + d.out)[|a.out|] == b.out[0];
  }

  /**
   * Unpaired, the oldest message written by the phone leaves its queue in a
   * pass that receives nothing, and no DATA goes on the air: it is lost.
   */
  lemma UnpairedTextLost(st: TunnelState, now: u32, myId: string, connected: bool)
    requires !st.paired && st.toRadio != []
    ensures var r := LoopPass(st, None, now, true, myId, connected);
      r.state.toRadio == st.toRadio[1..] && forall o :: o in r.out ==> !(o.Radio? && o.kind == "DATA")
  {
  }

  /**
   * DATA from the partner reaches a connected phone in the same pass when
   * nothing else waits for the phone.
   */
  lemma PartnerDataShown(st: TunnelState, to: string, data: string, now: u32, myId: string)
    requires st.toPhone == []
    ensures var r := LoopPass(st, Some(Packet("DATA", st.partner, to, data)), now, true, myId, true);
      r.state.toPhone == [] && r.out[|r.out| - 1] == ToPhone(st.partner, data)
  {
  }

  class Tunnel {
    var deviceConnected: bool
    const loraReady: bool
    var devicePaired: bool
    var partnerDeviceId: string
    const myDeviceId: string
    var pairingStartTime: u32
    const bleToLora: Ring<Message>
    const loraToBle: Ring<Message>

    ghost predicate Valid()
      reads this, bleToLora, bleToLora.slots, loraToBle, loraToBle.slots
    {
      bleToLora.Valid() && loraToBle.Valid()
      && bleToLora.capacity == QUEUE_SIZE && loraToBle.capacity == QUEUE_SIZE
      && bleToLora != loraToBle && bleToLora.slots != loraToBle.slots
      && (devicePaired ==> partnerDeviceId != myDeviceId)
    }

    /** The globals loop works on, with each queue's contents. */
    ghost function Snapshot(): TunnelState
      reads this, bleToLora, loraToBle
    {
      TunnelState(devicePaired, partnerDeviceId, pairingStartTime, bleToLora.items, loraToBle.items)
    }

    /** The globals after generateDeviceId and initLoRa: unpaired, no phone, both queues empty. */
    constructor(myId: string, radioUp: bool)
      ensures Valid() && myDeviceId == myId && loraReady == radioUp
      ensures !deviceConnected && !devicePaired && partnerDeviceId == ""
      ensures bleToLora.items == [] && loraToBle.items == []
    {
      myDeviceId := myId;
      loraReady := radioUp;
      deviceConnected := false;
      devicePaired := false;
      partnerDeviceId := "";
      pairingStartTime := 0;
      bleToLora := new Ring(QUEUE_SIZE);
      loraToBle := new Ring(QUEUE_SIZE);
    }

    /** onConnect / onDisconnect. */
    method SetConnected(connected: bool)
      modifies this`deviceConnected
      ensures deviceConnected == connected
    {
      deviceConnected := connected;
    }

    /**
     * onWrite: a write of 1 to 200 bytes is queued for the radio as the
     * C string it holds, addressed from this station to the partner, and
     * confirmed to a connected phone; other writes are ignored.
     */
    method OnWrite(value: string, now: u32) returns (out: seq<Output>)
      requires Valid()
      modifies bleToLora, bleToLora.slots
      ensures Valid()
      ensures var accepted := 0 < |value| <= MAX_MESSAGE_SIZE;
        var m := Message(CString(value), myDeviceId, partnerDeviceId, now);
        bleToLora.items == (if accepted && |old(bleToLora.items)| < QUEUE_SIZE - 1 then old(bleToLora.items) + [m] else old(bleToLora.items))
        && out == (if accepted && deviceConnected then [Confirm(CString(value))] else [])
    {
      out := [];
      if 0 < |value| <= MAX_MESSAGE_SIZE {
        var message := CString(value);
        AddToBleLoraQueue(message, now);
        if deviceConnected {
          out := [Confirm(message)];
        }
      }
    }

    /** addToBleLoraQueue: the message from this station to the partner, unless the queue is full. */
    method AddToBleLoraQueue(message: string, now: u32)
      requires Valid()
      modifies bleToLora, bleToLora.slots
      ensures Valid()
      ensures var m := Message(message, myDeviceId, partnerDeviceId, now);
        bleToLora.items == (if |old(bleToLora.items)| < QUEUE_SIZE - 1 then old(bleToLora.items) + [m] else old(bleToLora.items))
    {
      bleToLora.Add(Message(message, myDeviceId, partnerDeviceId, now));
    }

    /** addToLoraBleQueue: the message from `fromDevice` to this station, unless the queue is full. */
    method AddToLoraBleQueue(message: string, fromDevice: string, now: u32)
      requires Valid()
      modifies loraToBle, loraToBle.slots
      ensures Valid()
      ensures var m := Message(message, fromDevice, myDeviceId, now);
        loraToBle.items == (if |old(loraToBle.items)| < QUEUE_SIZE - 1 then old(loraToBle.items) + [m] else old(loraToBle.items))
    {
      loraToBle.Add(Message(message, fromDevice, myDeviceId, now));
    }

    /** startPairing: forget any partner and broadcast HELLO_ with this station's id. */
    method StartPairing(now: u32) returns (out: seq<Output>)
      requires Valid()
      modifies this`devicePaired, this`partnerDeviceId, this`pairingStartTime
      ensures Valid() && !devicePaired && partnerDeviceId == "" && pairingStartTime == now
      ensures out == LoRaSend(loraReady, myDeviceId, "", "HELLO_" + myDeviceId, "PAIR")
    {
      devicePaired := false;
      partnerDeviceId := "";
      pairingStartTime := now;
      out := LoRaSend(loraReady, myDeviceId, partnerDeviceId, "HELLO_" + myDeviceId, "PAIR");
    }

    /**
     * handlePairingMessage: an unpaired station pairs with the first other
     * station whose HELLO_ it hears and answers PAIRED_; a paired station
     * keeps its partner; its own HELLO_ is ignored.
     */
    method HandlePairingMessage(fromDevice: string, data: string) returns (out: seq<Output>)
      requires Valid()
      modifies this`devicePaired, this`partnerDeviceId
      ensures Valid()
      ensures var pairs := !old(devicePaired) && StartsWith(data, "HELLO_") && fromDevice != myDeviceId;
        devicePaired == (old(devicePaired) || pairs)
        && partnerDeviceId == (if pairs then fromDevice else old(partnerDeviceId))
        && out == (if pairs then LoRaSend(loraReady, myDeviceId, fromDevice, "PAIRED_" + myDeviceId, "PAIR")
                     + (if deviceConnected then [PairedNote(fromDevice)] else [])
                   else [])
    {
      out := [];
      if devicePaired && partnerDeviceId == fromDevice {
        return;
      }
      if StartsWith(data, "HELLO_") && fromDevice != myDeviceId {
        if !devicePaired {
          partnerDeviceId := fromDevice;
          devicePaired := true;
          out := LoRaSend(loraReady, myDeviceId, partnerDeviceId, "PAIRED_" + myDeviceId, "PAIR");
          if deviceConnected {
            out := out + [PairedNote(partnerDeviceId)];
          }
        }
      }
    }

    /**
     * handleLoRaReceive: PAIR goes to the pairing handler; DATA is queued for
     * the phone only when it comes from the partner, whoever it is addressed
     * to; anything else, and a failed read or parse (None), is dropped.
     */
    method HandleLoRaReceive(received: Option<Packet>, now: u32) returns (out: seq<Output>)
      requires Valid()
      modifies this`devicePaired, this`partnerDeviceId, loraToBle, loraToBle.slots
      ensures Valid()
      ensures !loraReady || received.None? || received.value.kind != "PAIR" ==>
        devicePaired == old(devicePaired) && partnerDeviceId == old(partnerDeviceId) && out == []
      ensures var queued := loraReady && received.Some? && received.value.kind == "DATA" && received.value.from == old(partnerDeviceId);
        loraToBle.items ==
          (if queued && |old(loraToBle.items)| < QUEUE_SIZE - 1
           then old(loraToBle.items) + [Message(received.value.data, received.value.from, myDeviceId, now)]
           else old(loraToBle.items))
      ensures old(devicePaired) ==> devicePaired && partnerDeviceId == old(partnerDeviceId)
      ensures loraReady ==>
        var r := OnPacket(old(Snapshot()), received, now, myDeviceId, deviceConnected); Snapshot() == r.state && out == r.out
    {
      out := [];
      if !loraReady || received.None? {
        return;
      }
      var p := received.value;
      if p.kind == "PAIR" {
        out := HandlePairingMessage(p.from, p.data);
      } else if p.kind == "DATA" && p.from == partnerDeviceId {
        AddToLoraBleQueue(p.data, p.from, now);
      }
    }

    /**
     * The BLE-to-LoRa step of loop: the oldest queued message is taken out
     * and sent as DATA only when paired; taken out while unpaired, it is lost.
     */
    method ForwardToRadio() returns (out: seq<Output>)
      requires Valid()
      modifies bleToLora
      ensures Valid()
      ensures bleToLora.items == (if old(bleToLora.items) == [] then [] else old(bleToLora.items)[1..])
      ensures out == (if old(bleToLora.items) != [] && devicePaired
                      then LoRaSend(loraReady, myDeviceId, partnerDeviceId, old(bleToLora.items)[0].content, "DATA")
                      else [])
      ensures loraReady ==>
        var r := ToRadioStep(old(Snapshot()), myDeviceId); Snapshot() == r.state && out == r.out
    {
      out := [];
      var ok, msg := bleToLora.Take();
      if ok && devicePaired {
        out := LoRaSend(loraReady, myDeviceId, partnerDeviceId, msg.content, "DATA");
      }
    }

    /** The pairing timeout of loop: still unpaired more than 30 s after the last HELLO_, start again. */
    method CheckPairingTimeout(now: u32) returns (out: seq<Output>)
      requires Valid()
      modifies this`devicePaired, this`partnerDeviceId, this`pairingStartTime
      ensures Valid()
      ensures var retry := !old(devicePaired) && Elapsed(now, old(pairingStartTime)) > PAIRING_TIMEOUT;
        (retry ==> partnerDeviceId == "" && pairingStartTime == now
                   && out == LoRaSend(loraReady, myDeviceId, "", "HELLO_" + myDeviceId, "PAIR"))
        && (!retry ==> partnerDeviceId == old(partnerDeviceId) && pairingStartTime == old(pairingStartTime) && out == [])
        && devicePaired == old(devicePaired)
      ensures loraReady ==>
        var r := TimeoutStep(old(Snapshot()), now, myDeviceId); Snapshot() == r.state && out == r.out
    {
      out := [];
      if !devicePaired && Elapsed(now, pairingStartTime) > PAIRING_TIMEOUT {
        out := StartPairing(now);
      }
    }

    /**
     * The LoRa-to-BLE step of loop: the oldest queued message is taken out
     * and notified only to a connected phone; otherwise it is lost.
     */
    method ForwardToPhone() returns (out: seq<Output>)
      requires Valid()
      modifies loraToBle
      ensures Valid()
      ensures loraToBle.items == (if old(loraToBle.items) == [] then [] else old(loraToBle.items)[1..])
      ensures out == (if old(loraToBle.items) != [] && deviceConnected
                      then [ToPhone(old(loraToBle.items)[0].fromDevice, old(loraToBle.items)[0].content)]
                      else [])
      ensures var r := ToPhoneStep(old(Snapshot()), deviceConnected); Snapshot() == r.state && out == r.out
    {
      out := [];
      var ok, msg := loraToBle.Take();
      if ok && deviceConnected {
        out := [ToPhone(msg.fromDevice, msg.content)];
      }
    }

    /**
     * One pass of loop: with a radio, receive, forward one message to the
     * radio and check the pairing timeout; then forward one message to the
     * phone: exactly LoopPass on the globals. Each queue loses at most its
     * oldest message per pass, and a station once paired stays paired with
     * the same partner.
     */
    method Loop(received: Option<Packet>, now: u32) returns (out: seq<Output>)
      requires Valid()
      modifies this`devicePaired, this`partnerDeviceId, this`pairingStartTime
      modifies bleToLora, bleToLora.slots, loraToBle, loraToBle.slots
      ensures Valid()
      ensures bleToLora.items == (if loraReady && old(bleToLora.items) != [] then old(bleToLora.items)[1..] else old(bleToLora.items))
      ensures old(devicePaired) ==> devicePaired && partnerDeviceId == old(partnerDeviceId)
      ensures var r := LoopPass(old(Snapshot()), received, now, loraReady, myDeviceId, deviceConnected);
        Snapshot() == r.state && out == r.out
    {
      out := [];
      if loraReady {
        var a := HandleLoRaReceive(received, now);
        var b := ForwardToRadio();
        var c := CheckPairingTimeout(now);
        out := a + b + c;
      }
      var d := ForwardToPhone();
      out := out + d;
    }
  }
}
