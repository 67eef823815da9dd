// UTF-8 as Rust sees it: the check of `str::from_utf8` and the replacement of `String::from_utf8_lossy`.
// A Rust `String` is modelled as a byte sequence satisfying `ValidUtf8`.
module Utf8 {
  import opened Prelude

  // Number of bytes a leading byte announces; 0 for a byte that cannot lead.
  function Width(b: byte): nat {
    if b < 0x80 then 1
    else if 0xC2 <= b < 0xE0 then 2
    else if 0xE0 <= b < 0xF0 then 3
    else if 0xF0 <= b < 0xF5 then 4
    else 0
  }

  predicate Continues(b: byte) { 0x80 <= b < 0xC0 }

  // The second byte excludes overlong forms, surrogates and code points above U+10FFFF.
  predicate SecondAllowed(first: byte, second: byte) {
    && Continues(second)
    && (first == 0xE0 ==> 0xA0 <= second)
    && (first == 0xED ==> second < 0xA0)
    && (first == 0xF0 ==> 0x90 <= second)
    && (first == 0xF4 ==> second < 0x90)
  }

  datatype Chunk = Good(len: nat) | Bad(len: nat)

  // The first character of `s`, or the longest prefix that starts one without finishing it.
  function FirstChunk(s: bytes): (c: Chunk)
    requires s != []
    ensures 1 <= c.len <= |s|
  {
    var w := Width(s[0]);
    if w == 1 then Good(1)
    else if w == 0 || |s| < 2 || !SecondAllowed(s[0], s[1]) then Bad(1)
    else if w == 2 then Good(2)
    else if |s| < 3 || !Continues(s[2]) then Bad(2)
    else if w == 3 then Good(3)
    else if |s| < 4 || !Continues(s[3]) then Bad(3)
    else Good(4)
  }

  predicate ValidUtf8(s: bytes) {
    s == [] || (FirstChunk(s).Good? && ValidUtf8(s[FirstChunk(s).len..]))
  }

  // U+FFFD
  const REPLACEMENT: bytes := [0xEF, 0xBF, 0xBD]

  function Lossy(s: bytes): bytes {
    if s == [] then []
    else
      var c := FirstChunk(s);
      (if c.Good? then s[..c.len] else REPLACEMENT) + Lossy(s[c.len..])
  }

  lemma {:induction false} LossyIsIdentityOnValid(s: bytes)
    requires ValidUtf8(s)
    ensures Lossy(s) == s
  {
    if s != [] {
      LossyIsIdentityOnValid(s[FirstChunk(s).len..]);
    }
  }

  // Whatever the input, the lossy conversion produces a Rust string.
  lemma {:induction false} LossyIsValid(s: bytes)
    ensures ValidUtf8(Lossy(s))
  {
    if s != [] {
      var c := FirstChunk(s);
      LossyIsValid(s[c.len..]);
      var head := if c.Good? then s[..c.len] else REPLACEMENT;
      var rest := Lossy(s[c.len..]);
      assert FirstChunk(head + rest) == Good(|head|);
      assert (head + rest)[|head|..] == rest;
    }
  }

  lemma {:induction false} AsciiIsValid(s: bytes)
    requires forall i :: 0 <= i < |s| ==> s[i] < 0x80
    ensures ValidUtf8(s)
  {
    if s != [] {
      AsciiIsValid(s[1..]);
    }
  }

  lemma AsciiTextIsValid(text: string)
    requires forall i :: 0 <= i < |text| ==> (text[i] as int) < 128
    ensures ValidUtf8(Ascii(text)) && |Ascii(text)| == |text|
  {
    AsciiIsValid(Ascii(text));
  }
}
