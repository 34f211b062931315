/** Well-formed UTF-8, as `from_utf8` accepts it (Table 3-7 of the Unicode Standard). */
module Utf8 {
  import opened Basics
  import opened Octets

  predicate IsContinuation(b: Byte) {
    0x80 <= b <= 0xBF
  }

  /** The length of the well-formed sequence that begins `s`, or 0 if none does. */
  function SequenceLength(s: Bytes): (n: nat)
    ensures n <= |s| && n <= 4
  {
    if s == [] then 0
    else if s[0] <= 0x7F then 1
    else if |s| < 2 then 0
    else if 0xC2 <= s[0] <= 0xDF then
      if IsContinuation(s[1]) then 2 else 0
    else if |s| < 3 || !IsContinuation(s[2]) then 0
    else if s[0] == 0xE0 then
      if 0xA0 <= s[1] <= 0xBF then 3 else 0
    else if s[0] == 0xED then
      if 0x80 <= s[1] <= 0x9F then 3 else 0
    else if 0xE1 <= s[0] <= 0xEF then
      if IsContinuation(s[1]) then 3 else 0
    else if |s| < 4 || !IsContinuation(s[3]) then 0
    else if s[0] == 0xF0 then
      if 0x90 <= s[1] <= 0xBF then 4 else 0
    else if 0xF1 <= s[0] <= 0xF3 then
      if IsContinuation(s[1]) then 4 else 0
    else if s[0] == 0xF4 then
      if 0x80 <= s[1] <= 0x8F then 4 else 0
    else 0
  }

  predicate IsUtf8(s: Bytes)
    decreases |s|
  {
    s == [] || (SequenceLength(s) > 0 && IsUtf8(s[SequenceLength(s)..]))
  }

  /** A Rust `String`: bytes that are known to be UTF-8. */
  type Utf8String = s: Bytes | IsUtf8(s) witness []

  // ---------------------------------------------------------------- text

  predicate IsScalar(n: int) {
    0 <= n < 0xD800 || 0xE000 <= n < 0x11_0000
  }

  /** The UTF-8 form of a code point: one to four bytes, by its size. */
  function ScalarBytes(n: int): (s: Bytes)
    requires IsScalar(n)
    ensures 0 < |s| <= 4
  {
    if n < 0x80 then [n]
    else if n < 0x800 then [0xC0 + n / 64, 0x80 + n % 64]
    else if n < 0x1_0000 then [0xE0 + n / 64 / 64, 0x80 + n / 64 % 64, 0x80 + n % 64]
    else [0xF0 + n / 64 / 64 / 64, 0x80 + n / 64 / 64 % 64, 0x80 + n / 64 % 64, 0x80 + n % 64]
  }

  /** The code point that a well-formed sequence spells. */
  function CodePoint(s: Bytes): (n: int)
    requires SequenceLength(s) > 0
    ensures IsScalar(n)
  {
    var l := SequenceLength(s);
    if l == 1 then s[0]
    else
      var two := (s[0] as int - (if l == 2 then 0xC0 else if l == 3 then 0xE0 else 0xF0)) * 64
                 + (s[1] as int - 0x80);
      if l == 2 then two
      else
        var three := two * 64 + (s[2] as int - 0x80);
        if l == 3 then three else three * 64 + (s[3] as int - 0x80)
  }

  /** `String::into_bytes`. */
  function TextBytes(text: string): Bytes {
    if text == "" then [] else ScalarBytes(text[0] as int) + TextBytes(text[1..])
  }

  /** `from_utf8`. */
  function TextOf(s: Bytes): Option<string>
    decreases |s|
  {
    if s == [] then Some("")
    else if SequenceLength(s) == 0 then None
    else
      var rest := TextOf(s[SequenceLength(s)..]);
      if rest.None? then None else Some([CodePoint(s) as char] + rest.value)
  }

  lemma Digit(high: nat, low: nat)
    requires low < 64
    ensures (high * 64 + low) / 64 == high && (high * 64 + low) % 64 == low
  {
  }

  lemma ScalarRoundTrip(n: int, tail: Bytes)
    requires IsScalar(n)
    ensures SequenceLength(ScalarBytes(n) + tail) == |ScalarBytes(n)|
    ensures CodePoint(ScalarBytes(n) + tail) == n
  {
    var s := ScalarBytes(n) + tail;
    assert forall i :: 0 <= i < |ScalarBytes(n)| ==> s[i] == ScalarBytes(n)[i];
    assert n == n / 64 * 64 + n % 64;
    assert n / 64 == n / 64 / 64 * 64 + n / 64 % 64;
  }

  lemma FourByteRoundTrip(s: Bytes)
    requires SequenceLength(s) == 4
    ensures ScalarBytes(CodePoint(s)) == s[..4]
  {
    Digit(s[0] - 0xF0, s[1] - 0x80);
    Digit((s[0] - 0xF0) as int * 64 + (s[1] - 0x80), s[2] - 0x80);
    Digit(((s[0] - 0xF0) as int * 64 + (s[1] - 0x80)) * 64 + (s[2] - 0x80), s[3] - 0x80);
  }

  lemma SequenceRoundTrip(s: Bytes)
    requires SequenceLength(s) > 0
    ensures ScalarBytes(CodePoint(s)) == s[..SequenceLength(s)]
  {
    var l := SequenceLength(s);
    if l == 1 {
    } else if l == 2 {
      Digit(s[0] - 0xC0, s[1] - 0x80);
    } else if l == 3 {
      Digit(s[0] - 0xE0, s[1] - 0x80);
      Digit((s[0] - 0xE0) as int * 64 + (s[1] - 0x80), s[2] - 0x80);
    } else {
      FourByteRoundTrip(s);
    }
  }

  /** Every text survives being stored as bytes. */
  lemma {:induction false} TextRoundTrip(text: string)
    ensures TextOf(TextBytes(text)) == Some(text)
  {
    if text != "" {
      var head, tail := ScalarBytes(text[0] as int), TextBytes(text[1..]);
      ScalarRoundTrip(text[0] as int, tail);
      assert (head + tail)[|head|..] == tail;
      assert [text[0]] + text[1..] == text;
      TextRoundTrip(text[1..]);
    }
  }

  /** A byte string reads as text exactly when it is UTF-8, and the text gives it back. */
  lemma {:induction false} BytesRoundTrip(s: Bytes)
    ensures TextOf(s).Some? <==> IsUtf8(s)
    ensures TextOf(s).Some? ==> TextBytes(TextOf(s).value) == s
    decreases |s|
  {
    hide SequenceLength, CodePoint, ScalarBytes;
    if s != [] && SequenceLength(s) > 0 {
      var rest := s[SequenceLength(s)..];
      BytesRoundTrip(rest);
      if TextOf(rest).Some? {
        SequenceRoundTrip(s);
        assert TextOf(s).value[1..] == TextOf(rest).value;
        assert s == s[..SequenceLength(s)] + rest;
      }
    }
  }

  /** Text within ASCII is stored one byte for each character. */
  lemma {:induction false} AsciiBytes(text: string)
    requires forall i :: 0 <= i < |text| ==> text[i] as int < 0x80
    ensures |TextBytes(text)| == |text|
    ensures forall i :: 0 <= i < |text| ==> TextBytes(text)[i] == text[i] as int
  {
    if text != "" {
      AsciiBytes(text[1..]);
    }
  }

  /** The first and last code points of each length, and the bytes that they are stored as. */
  lemma LengthBoundaries()
    ensures ScalarBytes(0x7F) == [0x7F] && ScalarBytes(0x80) == [0xC2, 0x80]
    ensures ScalarBytes(0x7FF) == [0xDF, 0xBF] && ScalarBytes(0x800) == [0xE0, 0xA0, 0x80]
    ensures ScalarBytes(0xFFFF) == [0xEF, 0xBF, 0xBF] && ScalarBytes(0x1_0000) == [0xF0, 0x90, 0x80, 0x80]
    ensures ScalarBytes(0x10_FFFF) == [0xF4, 0x8F, 0xBF, 0xBF]
  {
  }
}
