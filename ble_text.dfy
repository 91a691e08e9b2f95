/**
 * How the phone apps turn characteristic values into strings and back.
 * react-native-ble-plx hands values over as base64; the apps decode them
 * with atob, which yields one character per byte, and encode with btoa,
 * which refuses any character above U+00FF. A UTF-8 decoding of the same
 * bytes is defined beside them.
 */
module BleText {
  import opened Bytes

  /** atob of the base64 of `b`: the "binary string" with one character per byte. */
  function Atob(b: seq<u8>): (r: string)
    ensures |r| == |b| && forall i :: 0 <= i < |b| ==> r[i] as int == b[i]
  {
    seq(|b|, i requires 0 <= i < |b| => b[i] as char)
  }

  /** Every character is at most U+00FF. */
  predicate BinaryString(s: string) {
    forall i :: 0 <= i < |s| ==> s[i] as int < 0x100
  }

  /** The bytes under the base64 of btoa(s); None where btoa throws InvalidCharacterError. */
  function Btoa(s: string): (r: Option<seq<u8>>)
    ensures r.Some? <==> BinaryString(s)
    ensures r.Some? ==> |r.value| == |s| && forall i :: 0 <= i < |s| ==> r.value[i] == s[i] as int
  {
    if BinaryString(s) then Some(seq(|s|, i requires 0 <= i < |s| => s[i] as int)) else None
  }

  /** A binary string survives btoa and then atob. */
  lemma AtobOfBtoa(s: string)
    requires BinaryString(s)
    ensures Atob(Btoa(s).value) == s
  {
    assert |Atob(Btoa(s).value)| == |s|;
    assert forall i :: 0 <= i < |s| ==> Atob(Btoa(s).value)[i] == s[i];
  }

  /** Bytes survive atob and then btoa. */
  lemma BtoaOfAtob(b: seq<u8>)
    ensures Btoa(Atob(b)) == Some(b)
  {
    assert BinaryString(Atob(b));
    var r := Btoa(Atob(b)).value;
    assert |r| == |b|;
    assert forall i :: 0 <= i < |b| ==> r[i] == b[i];
    assert r == b;
  }

  /** `device.rssi || undefined`: the scan results leave a null or zero RSSI out. */
  function RssiField(rssi: Option<int>): (r: Option<int>)
    ensures r.Some? <==> rssi.Some? && rssi.value != 0
    ensures r.Some? ==> r == rssi
  {
    if rssi.Some? && rssi.value != 0 then rssi else None
  }

  /** The Unicode replacement character. */
  const REPLACEMENT: char := '\U{FFFD}'

  predicate Continuation(x: u8) {
    0x80 <= x < 0xC0
  }

  /** The length of the well-formed UTF-8 sequence at the front of `b` (RFC 3629, section 4), or 0 when there is none. */
  function SequenceLength(b: seq<u8>): (n: nat)
    ensures n <= 4 && n <= |b|
    ensures b != [] && b[0] < 0x80 ==> n == 1
  {
    if b == [] then 0
    else if b[0] < 0x80 then 1
    else if 0xC2 <= b[0] <= 0xDF && |b| >= 2 && Continuation(b[1]) then 2
    else if 0xE0 <= b[0] <= 0xEF && |b| >= 3 && Continuation(b[1]) && Continuation(b[2])
            && (b[0] != 0xE0 || b[1] >= 0xA0) && (b[0] != 0xED || b[1] < 0xA0) then 3
    else if 0xF0 <= b[0] <= 0xF4 && |b| >= 4 && Continuation(b[1]) && Continuation(b[2]) && Continuation(b[3])
            && (b[0] != 0xF0 || b[1] >= 0x90) && (b[0] != 0xF4 || b[1] < 0x90) then 4
    else 0
  }

  /** The scalar value a well-formed sequence encodes. */
  function Scalar(b: seq<u8>): (c: char)
    requires SequenceLength(b) > 0
  {
    var n := SequenceLength(b);
    if n == 1 then b[0] as char
    else if n == 2 then ((b[0] as int - 0xC0) * 0x40 + (b[1] as int - 0x80)) as char
    else if n == 3 then
      var v := (b[0] as int - 0xE0) * 0x1000 + (b[1] as int - 0x80) * 0x40 + (b[2] as int - 0x80);
      assert b[0] == 0xED ==> v < 0xD800;
      assert b[0] < 0xED ==> v < 0xD000;
      assert v < 0x1_0000;
      v as char
    else
      var v := (b[0] as int - 0xF0) * 0x4_0000 + (b[1] as int - 0x80) * 0x1000 + (b[2] as int - 0x80) * 0x40 + (b[3] as int - 0x80);
      assert b[0] == 0xF4 ==> v < 0x11_0000;
      assert b[0] < 0xF4 ==> v < 0x10_0000;
      v as char
  }

  /** UTF-8 decoding, one replacement character for each byte that does not start a well-formed sequence. */
  function Utf8Decode(b: seq<u8>): (r: string)
    ensures |r| <= |b|
    decreases |b|
  {
    if b == [] then []
    else
      var n := SequenceLength(b);
      if n == 0 then [REPLACEMENT] + Utf8Decode(b[1..])
      else [Scalar(b[..n])] + Utf8Decode(b[n..])
  }

  predicate AsciiBytes(b: seq<u8>) {
    forall i :: 0 <= i < |b| ==> b[i] < 0x80
  }

  /** An ASCII byte at the front decodes to its one character. */
  lemma Utf8DecodeAsciiByte(b: seq<u8>)
    requires b != [] && b[0] < 0x80
    ensures Utf8Decode(b) == [b[0] as char] + Utf8Decode(b[1..])
  {
    assert SequenceLength(b[..1]) == 1;
  }

  lemma AtobFront(a: seq<u8>)
    requires a != []
    ensures Atob(a) == [a[0] as char] + Atob(a[1..])
  {
    assert Atob(a)[1..] == Atob(a[1..]);
  }

  /** On ASCII, UTF-8 decoding and atob agree, and decoding goes on unchanged after an ASCII run. */
  lemma {:induction false} Utf8DecodeAscii(a: seq<u8>, b: seq<u8>)
    requires AsciiBytes(a)
    ensures Utf8Decode(a + b) == Atob(a) + Utf8Decode(b)
    decreases |a|
  {
    if a == [] {
      assert a + b == b;
    } else {
      var ab := a + b;
      assert ab[1..] == a[1..] + b;
      Utf8DecodeAsciiByte(ab);
      Utf8DecodeAscii(a[1..], b);
      AtobFront(a);
    }
  }

  /** A three-byte sequence at the front decodes to its one character, and decoding goes on after it. */
  lemma Utf8DecodeThree(a: seq<u8>, b: seq<u8>)
    requires |a| == 3 && SequenceLength(a) == 3
    ensures Utf8Decode(a + b) == [Scalar(a)] + Utf8Decode(b)
  {
    var ab := a + b;
    assert ab[..3] == a;
    assert SequenceLength(ab) == 3;
    assert ab[3..] == b;
  }
}
