/**
 * Python's `bytes.decode('utf-8', errors='ignore')`: well-formed sequences
 * become their characters and every ill-formed stretch is dropped. After an
 * error, decoding resumes after the maximal subpart of a well-formed sequence
 * (the longest prefix that could still have been completed), which is how
 * CPython's decoder chooses the extent of each error.
 */
module Utf8 {

  newtype byte = x: int | 0 <= x < 256

  predicate IsContinuation(b: byte) {
    0x80 <= b <= 0xBF
  }

  /** Length of the well-formed sequence a lead byte announces; 0 for a byte no sequence starts with. */
  function SequenceLength(b: byte): nat {
    if b < 0x80 then 1
    else if 0xC2 <= b <= 0xDF then 2
    else if 0xE0 <= b <= 0xEF then 3
    else if 0xF0 <= b <= 0xF4 then 4
    else 0
  }

  /** Bounds on the byte after a lead byte, per Table 3-7 of the Unicode Standard. */
  function SecondLow(b: byte): byte {
    if b == 0xE0 then 0xA0 else if b == 0xF0 then 0x90 else 0x80
  }

  function SecondHigh(b: byte): byte {
    if b == 0xED then 0x9F else if b == 0xF4 then 0x8F else 0xBF
  }

  /** How many leading bytes of `s` begin a well-formed sequence (the maximal subpart). */
  function ValidPrefix(s: seq<byte>): (k: nat)
    requires |s| >= 1 && SequenceLength(s[0]) >= 2
    ensures 1 <= k <= SequenceLength(s[0]) && k <= |s|
  {
    var n := SequenceLength(s[0]);
    if |s| < 2 || !(SecondLow(s[0]) <= s[1] <= SecondHigh(s[0])) then 1
    else if n == 2 || |s| < 3 || !IsContinuation(s[2]) then 2
    else if n == 3 || |s| < 4 || !IsContinuation(s[3]) then 3
    else 4
  }

  /** `s` starts with a complete multi-byte sequence. */
  predicate WellFormedLead(s: seq<byte>) {
    |s| >= 1 && SequenceLength(s[0]) >= 2 && ValidPrefix(s) == SequenceLength(s[0])
  }

  /** The character a complete multi-byte sequence at the start of `s` encodes. */
  function MultiByteChar(s: seq<byte>): (c: char)
    requires WellFormedLead(s)
    ensures c as int >= 0x80
  {
    var n := SequenceLength(s[0]);
    if n == 2 then
      ((s[0] as int - 0xC0) * 64 + (s[1] as int - 0x80)) as char
    else if n == 3 then
      ((s[0] as int - 0xE0) * 4096 + (s[1] as int - 0x80) * 64 + (s[2] as int - 0x80)) as char
    else
      ((s[0] as int - 0xF0) * 262144 + (s[1] as int - 0x80) * 4096
        + (s[2] as int - 0x80) * 64 + (s[3] as int - 0x80)) as char
  }

  /** One decoding step: how many bytes are consumed, and the character produced if any. */
  datatype Step = Step(length: nat, decoded: seq<char>)

  function DecodeStep(s: seq<byte>): (r: Step)
    requires s != []
    ensures 1 <= r.length <= |s|
    ensures |r.decoded| <= 1
  {
    if s[0] < 0x80 then Step(1, [s[0] as int as char])
    else if SequenceLength(s[0]) == 0 then Step(1, [])
    else if !WellFormedLead(s) then Step(ValidPrefix(s), [])
    else Step(SequenceLength(s[0]), [MultiByteChar(s)])
  }

  /** `bytes.decode('utf-8', errors='ignore')`. */
  function Decode(s: seq<byte>): string
    decreases |s|
  {
    if s == [] then []
    else
      var st := DecodeStep(s);
      st.decoded + Decode(s[st.length..])
  }

  /** Dropping invalid bytes never makes the text longer than the input. */
  lemma {:induction false} DecodeLength(s: seq<byte>)
    ensures |Decode(s)| <= |s|
    decreases |s|
  {
    if s != [] {
      DecodeLength(s[DecodeStep(s).length..]);
    }
  }

  predicate IsAscii(s: seq<byte>) {
    forall i :: 0 <= i < |s| ==> s[i] < 0x80
  }

  /** ASCII input decodes byte for byte. */
  lemma {:induction false} DecodeAscii(s: seq<byte>)
    requires IsAscii(s)
    ensures |Decode(s)| == |s|
    ensures forall i :: 0 <= i < |s| ==> Decode(s)[i] as int == s[i] as int
    decreases |s|
  {
    if s != [] {
      var t := s[1..];
      assert forall i :: 0 <= i < |t| ==> t[i] == s[i + 1];
      DecodeAscii(t);
    }
  }

  /** UTF-8 encoding of one character. */
  function EncodeChar(c: char): (bs: seq<byte>)
    ensures 1 <= |bs| <= 4
  {
    var cp := c as int;
    if cp < 0x80 then [cp as byte]
    else if cp < 0x800 then [(0xC0 + cp / 64) as byte, (0x80 + cp % 64) as byte]
    else if cp < 0x10000 then
      [(0xE0 + cp / 4096) as byte, (0x80 + (cp / 64) % 64) as byte, (0x80 + cp % 64) as byte]
    else
      [(0xF0 + cp / 262144) as byte, (0x80 + (cp / 4096) % 64) as byte,
       (0x80 + (cp / 64) % 64) as byte, (0x80 + cp % 64) as byte]
  }

  function Encode(s: string): seq<byte> {
    if s == [] then [] else EncodeChar(s[0]) + Encode(s[1..])
  }

  lemma Step2(c: char, e: seq<byte>, rest: seq<byte>)
    requires 0x80 <= c as int < 0x800
    requires e == EncodeChar(c)
    ensures DecodeStep(e + rest) == Step(|e|, [c])
  {
    var cp := c as int;
    var s := e + rest;
    assert s[0] == e[0] && s[1] == e[1];
    assert (s[0] as int - 0xC0) * 64 + (s[1] as int - 0x80) == cp;
  }

  lemma Step3(c: char, e: seq<byte>, rest: seq<byte>)
    requires 0x800 <= c as int < 0x10000
    requires e == EncodeChar(c)
    ensures DecodeStep(e + rest) == Step(|e|, [c])
  {
    var cp := c as int;
    var s := e + rest;
    assert s[0] == e[0] && s[1] == e[1] && s[2] == e[2];
    Digits(cp);
    ThreeByteSecond(cp);
    assert SecondLow(s[0]) <= s[1] <= SecondHigh(s[0]);
    assert WellFormedLead(s);
    assert s[0] as int - 0xE0 == cp / 4096 && s[1] as int - 0x80 == (cp / 64) % 64 && s[2] as int - 0x80 == cp % 64;
    assert MultiByteChar(s) as int == cp;
  }

  /** The second byte of a three-byte encoding respects the E0 and ED bounds (no overlong form, no surrogate). */
  lemma ThreeByteSecond(cp: nat)
    requires 0x800 <= cp < 0x10000 && !(0xD800 <= cp < 0xE000)
    ensures cp / 4096 == 0 ==> (cp / 64) % 64 >= 0x20
    ensures cp / 4096 == 13 ==> (cp / 64) % 64 < 0x20
    ensures cp / 4096 < 16 && cp / 262144 == 0 && (cp / 4096) % 64 == cp / 4096
  {
  }

  /** Base-64 digits of a code point: cp == ((a * 64 + b) * 64 + c) * 64 + d. */
  lemma Digits(cp: nat)
    ensures cp / 64 / 64 / 64 == cp / 262144 && (cp / 64 / 64) % 64 == (cp / 4096) % 64
    ensures (cp / 64) % 64 * 64 + cp % 64 + (cp / 4096) % 64 * 4096 + (cp / 262144) * 262144 == cp
  {
    var q1 := cp / 64;
    var q2 := q1 / 64;
    assert cp == q1 * 64 + cp % 64;
    assert q1 == q2 * 64 + q1 % 64;
    assert q2 == cp / 4096;
    assert q2 == (q2 / 64) * 64 + q2 % 64;
    assert q2 / 64 == cp / 262144;
  }

  lemma Step4(c: char, e: seq<byte>, rest: seq<byte>)
    requires 0x10000 <= c as int
    requires e == EncodeChar(c)
    ensures DecodeStep(e + rest) == Step(|e|, [c])
  {
    var cp := c as int;
    var s := e + rest;
    assert s[0] == e[0] && s[1] == e[1] && s[2] == e[2] && s[3] == e[3];
    Digits(cp);
  }

  /** Decoding the encoding of a character yields it back, consuming exactly its bytes. */
  lemma StepEncodeChar(c: char, rest: seq<byte>)
    ensures DecodeStep(EncodeChar(c) + rest) == Step(|EncodeChar(c)|, [c])
  {
    var e := EncodeChar(c);
    if c as int < 0x80 {
      assert (e + rest)[0] == e[0];
    } else if c as int < 0x800 {
      Step2(c, e, rest);
    } else if c as int < 0x10000 {
      Step3(c, e, rest);
    } else {
      Step4(c, e, rest);
    }
  }

  /** Well-formed input loses nothing: decoding undoes encoding. */
  lemma {:induction false} DecodeEncode(s: string)
    ensures Decode(Encode(s)) == s
  {
    if s != [] {
      var e := EncodeChar(s[0]);
      var r := Encode(s[1..]);
      StepEncodeChar(s[0], r);
      assert (e + r)[|e|..] == r;
      DecodeEncode(s[1..]);
      assert Decode(e + r) == [s[0]] + Decode(r);
    }
  }
}
