/**
 * The bidirectional sender station: text typed on the serial console is
 * framed and sent over LoRa, and text frames heard on the radio are checked,
 * counted and printed.
 */
module BidirectionalSender {
  import opened Bytes
  import opened LineEditor
  import opened TextFrame

  class Sender {
    const loraReady: bool
    const rx: FrameReceiver
    /** The static inputBuffer of loop. */
    var inputBuffer: seq<u8>

    constructor(radioUp: bool)
      ensures loraReady == radioUp && inputBuffer == [] && fresh(rx) && rx.messageCount == 0
    {
      loraReady := radioUp;
      rx := new FrameReceiver();
      inputBuffer := [];
    }

    /** sendMessage: nothing without a radio, otherwise the frame of the text, if it is accepted. */
    method SendMessage(text: seq<u8>, now: u32) returns (frame: Option<seq<u8>>)
      ensures frame == Transmitted(loraReady, text, now)
      ensures frame.Some? <==> loraReady && 0 < SendLen(text) <= MAX_MESSAGE_LEN
    {
      frame := Transmitted(loraReady, text, now);
    }

    /** The radio half of loop: a heard packet goes through the receive checks and is counted. */
    method Listen(heard: Option<Heard>) returns (got: Option<Delivery>)
      requires heard.Some? ==> |heard.value.stale| == PACKET_SIZE
      modifies rx
      ensures got == (if loraReady && heard.Some? then Decode(heard.value.frame, heard.value.readOk, heard.value.stale) else None)
      ensures rx.messageCount == (if got.Some? then Wrap32(old(rx.messageCount) + 1) else old(rx.messageCount))
    {
      got := None;
      if loraReady && heard.Some? {
        got := rx.Receive(heard.value.frame, heard.value.readOk, heard.value.stale);
      }
    }

    /**
     * The serial half of loop: every available character edits the buffer
     * (limit 200), and each completed line is sent at once.
     */
    method ReadSerial(input: seq<u8>, now: u32) returns (frames: seq<seq<u8>>)
      modifies this`inputBuffer
      ensures var e := EditAll(old(inputBuffer), input, MAX_MESSAGE_LEN);
        inputBuffer == e.buffer && frames == SentFrames(loraReady, e.sent, now)
    {
      frames := [];
      var i := 0;
      while i < |input|
        invariant 0 <= i <= |input|
        invariant var e := EditAll(old(inputBuffer), input[..i], MAX_MESSAGE_LEN);
          inputBuffer == e.buffer && frames == SentFrames(loraReady, e.sent, now)
      {
        ghost var e := EditAll(old(inputBuffer), input[..i], MAX_MESSAGE_LEN);
        ghost var s := Edit(inputBuffer, input[i], MAX_MESSAGE_LEN);
        EditAllSnoc(old(inputBuffer), input, i, MAX_MESSAGE_LEN);
        var f := Key(input[i], now);
        if s.sent.Some? {
          SentFramesSnoc(loraReady, e.sent, s.sent.value, now);
        } else {
          assert e.sent + [] == e.sent;
        }
        if f.Some? {
          frames := frames + [f.value];
        }
        i := i + 1;
      }
      assert input[..|input|] == input;
    }

    /** One character of the serial loop: edit the buffer, and send it on a newline. */
    method Key(c: u8, now: u32) returns (f: Option<seq<u8>>)
      modifies this`inputBuffer
      ensures var s := Edit(old(inputBuffer), c, MAX_MESSAGE_LEN);
        inputBuffer == s.buffer
        && f == (if s.sent.Some? then Transmitted(loraReady, s.sent.value, now) else None)
    {
      f := None;
      if c == 10 || c == 13 {
        if |inputBuffer| > 0 {
          f := SendMessage(inputBuffer, now);
          inputBuffer := [];
        }
      } else if c == 8 || c == 127 {
        if |inputBuffer| > 0 {
          inputBuffer := inputBuffer[..|inputBuffer| - 1];
        }
      } else if 32 <= c <= 126 {
        if |inputBuffer| < MAX_MESSAGE_LEN {
          inputBuffer := inputBuffer + [c];
        }
      }
    }

    /** One pass of loop: the radio first, then the serial console. */
    method Loop(heard: Option<Heard>, input: seq<u8>, now: u32) returns (got: Option<Delivery>, frames: seq<seq<u8>>)
      requires heard.Some? ==> |heard.value.stale| == PACKET_SIZE
      requires Line(inputBuffer, MAX_MESSAGE_LEN)
      modifies this`inputBuffer, rx
      ensures got == (if loraReady && heard.Some? then Decode(heard.value.frame, heard.value.readOk, heard.value.stale) else None)
      ensures rx.messageCount == (if got.Some? then Wrap32(old(rx.messageCount) + 1) else old(rx.messageCount))
      ensures Line(inputBuffer, MAX_MESSAGE_LEN)
      ensures var e := EditAll(old(inputBuffer), input, MAX_MESSAGE_LEN);
        inputBuffer == e.buffer && frames == SentFrames(loraReady, e.sent, now)
        && |frames| == (if loraReady then |e.sent| else 0)
    {
      got := Listen(heard);
      frames := ReadSerial(input, now);
      EditAllKeepsLine(old(inputBuffer), input, MAX_MESSAGE_LEN);
      EditorLinesAllSent(EditAll(old(inputBuffer), input, MAX_MESSAGE_LEN).sent, now);
    }
  }
}
