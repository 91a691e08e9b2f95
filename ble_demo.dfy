/**
 * The BLE-only demo sketch: phone writes are queued in a ring of five slots
 * and echoed back, one per pass of loop, as if a partner had sent them.
 */
module BleDemo {
  import opened Bytes
  import opened Text
  import opened RingQueue

  const QUEUE_SIZE: nat := 5
  const MAX_MESSAGE_SIZE: nat := 200

  datatype Message = Message(content: string, timestamp: u32)

  /** What the demo notifies to the phone; the notification texts are not modelled. */
  datatype Note = Confirmed(content: string) | Relayed(content: string)

  class Demo {
    var deviceConnected: bool
    const queue: Ring<Message>

    ghost predicate Valid()
      reads this, queue, queue.slots
    {
      queue.Valid() && queue.capacity == QUEUE_SIZE
    }

    constructor()
      ensures Valid() && !deviceConnected && queue.items == []
    {
      deviceConnected := false;
      queue := new Ring(QUEUE_SIZE);
    }

    /** onConnect / onDisconnect. */
    method SetConnected(connected: bool)
      modifies this`deviceConnected
      ensures deviceConnected == connected
    {
      deviceConnected := connected;
    }

    /**
     * onWrite: a write of 1 to 200 bytes is queued (unless four messages
     * already wait) and confirmed to a connected phone; other writes are ignored.
     */
    method OnWrite(value: string, now: u32) returns (out: seq<Note>)
      requires Valid()
      modifies queue, queue.slots
      ensures Valid()
      ensures var accepted := 0 < |value| <= MAX_MESSAGE_SIZE;
        queue.items == (if accepted && |old(queue.items)| < QUEUE_SIZE - 1
                        then old(queue.items) + [Message(CString(value), now)] else old(queue.items))
        && out == (if accepted && deviceConnected then [Confirmed(CString(value))] else [])
    {
      out := [];
      if 0 < |value| <= MAX_MESSAGE_SIZE {
        var message := CString(value);
        AddToQueue(message, now);
        if deviceConnected {
          out := [Confirmed(message)];
        }
      }
    }

    /** addToQueue: stamp and append, unless the ring is full. */
    method AddToQueue(message: string, now: u32)
      requires Valid()
      modifies queue, queue.slots
      ensures Valid()
      ensures queue.items == (if |old(queue.items)| < QUEUE_SIZE - 1
                              then old(queue.items) + [Message(message, now)] else old(queue.items))
    {
      queue.Add(Message(message, now));
    }

    /**
     * processMessages: the oldest message is taken out and relayed only to a
     * connected phone; taken out while no phone listens, it is lost.
     */
    method ProcessMessages() returns (out: seq<Note>)
      requires Valid()
      modifies queue
      ensures Valid()
      ensures queue.items == (if old(queue.items) == [] then [] else old(queue.items)[1..])
      ensures out == (if old(queue.items) != [] && deviceConnected then [Relayed(old(queue.items)[0].content)] else [])
    {
      out := [];
      var ok, msg := queue.Take();
      if ok && deviceConnected {
        out := [Relayed(msg.content)];
      }
    }

    /** The status line's message count. */
    function Pending(): (n: int)
      reads this, queue, queue.slots
      requires Valid()
      ensures n == |queue.items| && 0 <= n <= 4
    {
      queue.Count()
    }
  }
}
