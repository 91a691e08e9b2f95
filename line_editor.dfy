/**
 * The serial line editor of the sender sketches: every character read from
 * the serial port edits a static input buffer. CR or LF hands a non-empty
 * buffer to sendMessage and clears it, backspace (8 or DEL) drops the last
 * character, a printable character (32..126) is appended while the buffer
 * is below the sketch's limit, and everything else is ignored.
 */
module LineEditor {
  import opened Bytes

  predicate IsNewline(c: u8) {
    c == 10 || c == 13
  }

  predicate IsBackspace(c: u8) {
    c == 8 || c == 127
  }

  predicate Printable(c: u8) {
    32 <= c <= 126
  }

  /** A buffer the editor can hold: at most `limit` printable characters. */
  predicate Line(b: seq<u8>, limit: nat) {
    |b| <= limit && forall i :: 0 <= i < |b| ==> Printable(b[i])
  }

  /** The buffer after one character, and the line it sends, if any. */
  datatype Step = Step(buffer: seq<u8>, sent: Option<seq<u8>>)

  /** One pass of the body of `while (Serial.available())`. */
  function Edit(buffer: seq<u8>, c: u8, limit: nat): (r: Step)
    ensures r.sent.Some? <==> IsNewline(c) && buffer != []
    ensures r.sent.Some? ==> r.sent.value == buffer && r.buffer == []
    ensures IsBackspace(c) ==> r.buffer == (if buffer == [] then [] else buffer[..|buffer| - 1])
    ensures Printable(c) && |buffer| < limit ==> r.buffer == buffer + [c]
    ensures !IsNewline(c) && !IsBackspace(c) && !(Printable(c) && |buffer| < limit) ==> r.buffer == buffer
  {
    if IsNewline(c) then
      if |buffer| > 0 then Step([], Some(buffer)) else Step(buffer, None)
    else if IsBackspace(c) then
      if |buffer| > 0 then Step(buffer[..|buffer| - 1], None) else Step(buffer, None)
    else if Printable(c) then
      if |buffer| < limit then Step(buffer + [c], None) else Step(buffer, None)
    else Step(buffer, None)
  }

  /** The buffer is never longer than the limit and holds only printable characters; a sent line is a non-empty such buffer. */
  lemma EditKeepsLine(buffer: seq<u8>, c: u8, limit: nat)
    requires Line(buffer, limit)
    ensures Line(Edit(buffer, c, limit).buffer, limit)
    ensures Edit(buffer, c, limit).sent.Some? ==> Line(Edit(buffer, c, limit).sent.value, limit) && Edit(buffer, c, limit).sent.value != []
  {
  }

  /** The buffer and the lines sent after reading `input`, one character after another. */
  datatype Edited = Edited(buffer: seq<u8>, sent: seq<seq<u8>>)

  function EditAll(buffer: seq<u8>, input: seq<u8>, limit: nat): (r: Edited)
    decreases |input|
  {
    if input == [] then Edited(buffer, [])
    else
      var before := EditAll(buffer, input[..|input| - 1], limit);
      var s := Edit(before.buffer, input[|input| - 1], limit);
      Edited(s.buffer, before.sent + (if s.sent.Some? then [s.sent.value] else []))
  }

  /** Reading one more character is one more `Edit`. */
  lemma EditAllSnoc(buffer: seq<u8>, input: seq<u8>, i: nat, limit: nat)
    requires i < |input|
    ensures var before := EditAll(buffer, input[..i], limit);
      var s := Edit(before.buffer, input[i], limit);
      EditAll(buffer, input[..i + 1], limit) == Edited(s.buffer, before.sent + (if s.sent.Some? then [s.sent.value] else []))
  {
    assert input[..i + 1][..i] == input[..i];
  }

  /** Over a whole input, the buffer stays a line and every sent line is non-empty, printable and within the limit. */
  lemma {:induction false} EditAllKeepsLine(buffer: seq<u8>, input: seq<u8>, limit: nat)
    requires Line(buffer, limit)
    ensures Line(EditAll(buffer, input, limit).buffer, limit)
    ensures forall k :: 0 <= k < |EditAll(buffer, input, limit).sent| ==>
      EditAll(buffer, input, limit).sent[k] != [] && Line(EditAll(buffer, input, limit).sent[k], limit)
    decreases |input|
  {
    if input != [] {
      var before := EditAll(buffer, input[..|input| - 1], limit);
      EditAllKeepsLine(buffer, input[..|input| - 1], limit);
      EditKeepsLine(before.buffer, input[|input| - 1], limit);
    }
  }

  /** The number of CR and LF characters in `input`. */
  function Newlines(input: seq<u8>): (n: nat)
    ensures n <= |input|
    decreases |input|
  {
    if input == [] then 0
    else Newlines(input[..|input| - 1]) + (if IsNewline(input[|input| - 1]) then 1 else 0)
  }

  /** At most one line is sent per newline character of the input. */
  lemma {:induction false} EditAllSendsPerNewline(buffer: seq<u8>, input: seq<u8>, limit: nat)
    ensures |EditAll(buffer, input, limit).sent| <= Newlines(input)
    decreases |input|
  {
    if input != [] {
      EditAllSendsPerNewline(buffer, input[..|input| - 1], limit);
    }
  }

  /** Typing a line of printable characters into an empty buffer and pressing Enter sends exactly that line. */
  lemma {:induction false} TypedLineSent(line: seq<u8>, limit: nat)
    requires Line(line, limit) && line != []
    ensures EditAll([], line + [13], limit) == Edited([], [line])
  {
    TypedPrefix(line, |line|, limit);
    assert line[..|line|] == line;
    assert (line + [13])[..|line|] == line;
    assert Edit(line, 13, limit) == Step([], Some(line));
  }

  lemma {:induction false} TypedPrefix(line: seq<u8>, n: nat, limit: nat)
    requires Line(line, limit) && n <= |line|
    ensures EditAll([], line[..n], limit) == Edited(line[..n], [])
  {
    if n > 0 {
      TypedPrefix(line, n - 1, limit);
      EditAllSnoc([], line, n - 1, limit);
      var c := line[n - 1];
      assert Printable(c) && |line[..n - 1]| < limit;
      assert Edit(line[..n - 1], c, limit) == Step(line[..n - 1] + [c], None);
      assert line[..n - 1] + [c] == line[..n];
    }
  }
}
