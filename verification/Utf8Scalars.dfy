// What the strings of Utf8 are, by the encoding form of section 3 of RFC 3629 and the definitions of chapter 3.9 of the
// Unicode Standard: concatenations of encoded scalar values, and what invalid bytes become.
module Utf8Scalars {
  import opened Prelude
  import opened Utf8

  // A Unicode scalar value: a code point that is not a surrogate.
  predicate IsScalar(c: nat) { c < 0xD800 || 0xE000 <= c < 0x11_0000 }

  function EncodeScalar(c: nat): (r: bytes)
    requires IsScalar(c)
    ensures 1 <= |r| <= 4
  {
    if c < 0x80 then [c]
    else if c < 0x800 then [0xC0 + c / 0x40, 0x80 + c % 0x40]
    else if c < 0x1_0000 then [0xE0 + c / 0x1000, 0x80 + c / 0x40 % 0x40, 0x80 + c % 0x40]
    else [0xF0 + c / 0x4_0000, 0x80 + c / 0x1000 % 0x40, 0x80 + c / 0x40 % 0x40, 0x80 + c % 0x40]
  }

  predicate AreScalars(cs: seq<nat>) { forall c :: c in cs ==> IsScalar(c) }

  function EncodeScalars(cs: seq<nat>): bytes
    requires AreScalars(cs)
  {
    if cs == [] then [] else EncodeScalar(cs[0]) + EncodeScalars(cs[1..])
  }

  // The scalar value that a well-formed sequence of `n` bytes encodes.
  function DecodeScalar(s: bytes, n: nat): int
    requires n <= |s|
  {
    if n == 1 then s[0]
    else if n == 2 then (s[0] as int - 0xC0) * 0x40 + (s[1] as int - 0x80)
    else if n == 3 then (s[0] as int - 0xE0) * 0x1000 + (s[1] as int - 0x80) * 0x40 + (s[2] as int - 0x80)
    else if n == 4 then
      (s[0] as int - 0xF0) * 0x4_0000 + (s[1] as int - 0x80) * 0x1000 + (s[2] as int - 0x80) * 0x40
      + (s[3] as int - 0x80)
    else 0
  }

  // --- characters ---

  lemma ScalarIsGood(c: nat, t: bytes)
    requires IsScalar(c)
    ensures FirstChunk(EncodeScalar(c) + t) == Good(|EncodeScalar(c)|)
  {
  }

  lemma LastSixBits(high: int, low: int)
    requires 0 <= low < 0x40
    ensures (high * 0x40 + low) / 0x40 == high && (high * 0x40 + low) % 0x40 == low
  {
  }

  lemma TwoBytes(a: byte, b: byte)
    requires 0xC2 <= a < 0xE0 && Continues(b)
    ensures var c := DecodeScalar([a, b], 2); 0x80 <= c < 0x800 && EncodeScalar(c) == [a, b]
  {
    LastSixBits(a as int - 0xC0, b as int - 0x80);
  }

  lemma ThreeBytes(a: byte, b: byte, d: byte)
    requires 0xE0 <= a < 0xF0 && SecondAllowed(a, b) && Continues(d)
    ensures var c := DecodeScalar([a, b, d], 3); 0x800 <= c < 0x1_0000 && IsScalar(c) && EncodeScalar(c) == [a, b, d]
  {
    var x, y, z := a as int - 0xE0, b as int - 0x80, d as int - 0x80;
    LastSixBits(x * 0x40 + y, z);
    LastSixBits(x, y);
    ThousandIs(x * 0x1000 + y * 0x40 + z);
  }

  lemma ThousandIs(c: int)
    requires 0 <= c
    ensures c / 0x1000 == c / 0x40 / 0x40 && c / 0x4_0000 == c / 0x40 / 0x40 / 0x40
  {
  }

  lemma FourBytes(a: byte, b: byte, d: byte, e: byte)
    requires 0xF0 <= a < 0xF5 && SecondAllowed(a, b) && Continues(d) && Continues(e)
    ensures var c := DecodeScalar([a, b, d, e], 4); 0x1_0000 <= c && IsScalar(c) && EncodeScalar(c) == [a, b, d, e]
  {
    var w, x, y, z := a as int - 0xF0, b as int - 0x80, d as int - 0x80, e as int - 0x80;
    LastSixBits((w * 0x40 + x) * 0x40 + y, z);
    LastSixBits(w * 0x40 + x, y);
    LastSixBits(w, x);
    ThousandIs(w * 0x4_0000 + x * 0x1000 + y * 0x40 + z);
  }

  // A character is the encoding of a scalar value.
  lemma GoodIsScalar(s: bytes) returns (c: nat)
    requires s != [] && FirstChunk(s).Good?
    ensures IsScalar(c) && EncodeScalar(c) == s[..FirstChunk(s).len]
  {
    var n := FirstChunk(s).len;
    hide SecondAllowed, Continues, EncodeScalar;
    if n == 1 {
      c := s[0];
      OneByte(s[0]);
    } else if n == 2 {
      TwoBytes(s[0], s[1]);
      c := DecodeScalar([s[0], s[1]], 2);
    } else if n == 3 {
      ThreeBytes(s[0], s[1], s[2]);
      c := DecodeScalar([s[0], s[1], s[2]], 3);
    } else {
      FourBytes(s[0], s[1], s[2], s[3]);
      c := DecodeScalar([s[0], s[1], s[2], s[3]], 4);
    }
  }

  lemma OneByte(b: byte)
    requires b < 0x80
    ensures EncodeScalar(b) == [b]
  {
  }

  // --- strings ---

  lemma {:induction false} ScalarsAreValid(cs: seq<nat>)
    requires AreScalars(cs)
    ensures ValidUtf8(EncodeScalars(cs))
  {
    hide EncodeScalar, FirstChunk;
    if cs != [] {
      ScalarsAreValid(cs[1..]);
      var head, rest := EncodeScalar(cs[0]), EncodeScalars(cs[1..]);
      ScalarIsGood(cs[0], rest);
      assert (head + rest)[|head|..] == rest;
    }
  }

  lemma {:induction false} ValidIsScalars(s: bytes) returns (cs: seq<nat>)
    requires ValidUtf8(s)
    ensures AreScalars(cs) && EncodeScalars(cs) == s
  {
    hide EncodeScalar, FirstChunk;
    if s == [] {
      cs := [];
    } else {
      var n := FirstChunk(s).len;
      var c := GoodIsScalar(s);
      var rest := ValidIsScalars(s[n..]);
      cs := [c] + rest;
      assert cs[1..] == rest && s[..n] + s[n..] == s;
    }
  }

  ghost predicate Encodes(cs: seq<nat>, s: bytes) { AreScalars(cs) && EncodeScalars(cs) == s }

  // A string is valid if and only if it encodes some sequence of scalar values.
  lemma ValidExactly(s: bytes)
    ensures ValidUtf8(s) <==> exists cs :: Encodes(cs, s)
  {
    hide ValidUtf8;
    if ValidUtf8(s) {
      var cs := ValidIsScalars(s);
      assert Encodes(cs, s);
    }
    if cs :| Encodes(cs, s) {
      ScalarsAreValid(cs);
    }
  }

  // --- what invalid bytes become ---

  predicate StartsWithScalar(s: bytes, c: nat) { IsScalar(c) && EncodeScalar(c) <= s }

  // The bytes start the encoding of a scalar value without finishing it.
  predicate Truncates(p: bytes, c: nat) { IsScalar(c) && p < EncodeScalar(c) }

  // No character is at the start of `s`, and its first `n` bytes are as much as can start one, one byte at least.
  ghost predicate MaximalIllFormed(s: bytes, n: nat) {
    && 1 <= n <= |s|
    && (forall c :: !StartsWithScalar(s, c))
    && (n > 1 ==> exists c :: Truncates(s[..n], c))
    && (forall m, c :: n < m <= |s| ==> !Truncates(s[..m], c))
  }

  datatype Part = Scalar(c: nat) | IllFormed(len: nat)

  function PartLength(p: Part): nat {
    match p
    case Scalar(c) => if IsScalar(c) then |EncodeScalar(c)| else 0
    case IllFormed(n) => n
  }

  ghost predicate IsPart(s: bytes, p: Part) {
    match p
    case Scalar(c) => StartsWithScalar(s, c)
    case IllFormed(n) => MaximalIllFormed(s, n)
  }

  // The text is cut into characters and maximal ill-formed parts.
  ghost predicate Cut(s: bytes, parts: seq<Part>) {
    if parts == [] then s == []
    else IsPart(s, parts[0]) && PartLength(parts[0]) <= |s| && Cut(s[PartLength(parts[0])..], parts[1..])
  }

  // What is shown of it: characters as they are, each ill-formed part as U+FFFD.
  function Shown(parts: seq<Part>): bytes {
    if parts == [] then []
    else
      (match parts[0]
       case Scalar(c) => if IsScalar(c) then EncodeScalar(c) else []
       case IllFormed(_) => [0xEF, 0xBF, 0xBD])
      + Shown(parts[1..])
  }

  lemma StartIsGood(s: bytes, c: nat)
    requires StartsWithScalar(s, c)
    ensures s != [] && FirstChunk(s) == Good(|EncodeScalar(c)|)
  {
    hide EncodeScalar, FirstChunk;
    var e := EncodeScalar(c);
    assert s == e + s[|e|..];
    ScalarIsGood(c, s[|e|..]);
  }

  // What a proper beginning of a character agrees with.
  lemma TruncatedIs(p: bytes, c: nat) returns (e: bytes)
    requires Truncates(p, c) && p != []
    ensures |p| < |e| && p == e[..|p|] && FirstChunk(e) == Good(|e|)
  {
    hide EncodeScalar, FirstChunk;
    e := EncodeScalar(c);
    ScalarIsGood(c, []);
    assert e + [] == e;
  }

  lemma NoLongerPart(s: bytes, m: nat, c: nat)
    requires s != [] && FirstChunk(s).Bad? && FirstChunk(s).len < m <= |s|
    ensures !Truncates(s[..m], c)
  {
    hide EncodeScalar, Truncates, SecondAllowed, Continues;
    if Truncates(s[..m], c) {
      var e := TruncatedIs(s[..m], c);
      assert forall j :: 0 <= j < m ==> s[j] == s[..m][j] == e[j];
      assert false;
    }
  }

  lemma CompletesThree(a: byte, b: byte)
    requires 0xE0 <= a < 0xF0 && SecondAllowed(a, b)
    ensures exists c :: Truncates([a, b], c)
  {
    ThreeBytes(a, b, 0x80);
    var c := DecodeScalar([a, b, 0x80], 3);
    assert [a, b] < [a, b, 0x80];
    assert Truncates([a, b], c);
  }

  lemma CompletesFour(a: byte, b: byte, d: byte)
    requires 0xF0 <= a < 0xF5 && SecondAllowed(a, b) && Continues(d)
    ensures exists c :: Truncates([a, b, d], c)
    ensures d == 0x80 ==> exists c :: Truncates([a, b], c)
  {
    FourBytes(a, b, d, 0x80);
    var c := DecodeScalar([a, b, d, 0x80], 4);
    assert [a, b, d] < [a, b, d, 0x80] && [a, b] < [a, b, d, 0x80];
    assert Truncates([a, b, d], c);
    assert d == 0x80 ==> Truncates([a, b], c);
  }

  lemma BadIsTruncated(s: bytes)
    requires s != [] && FirstChunk(s).Bad? && FirstChunk(s).len > 1
    ensures exists c :: Truncates(s[..FirstChunk(s).len], c)
  {
    hide SecondAllowed, Truncates;
    var n := FirstChunk(s).len;
    if n == 3 {
      CompletesFour(s[0], s[1], s[2]);
      assert s[..3] == [s[0], s[1], s[2]];
    } else {
      assert s[..2] == [s[0], s[1]];
      if s[0] < 0xF0 {
        CompletesThree(s[0], s[1]);
      } else {
        CompletesFour(s[0], s[1], 0x80);
      }
    }
  }

  lemma BadIsMaximal(s: bytes)
    requires s != [] && FirstChunk(s).Bad?
    ensures MaximalIllFormed(s, FirstChunk(s).len)
  {
    hide FirstChunk, Truncates, StartsWithScalar, EncodeScalar;
    var n := FirstChunk(s).len;
    forall c ensures !StartsWithScalar(s, c) {
      if StartsWithScalar(s, c) {
        StartIsGood(s, c);
        assert false;
      }
    }
    if n > 1 {
      BadIsTruncated(s);
    }
    forall m, c | n < m <= |s| ensures !Truncates(s[..m], c) {
      NoLongerPart(s, m, c);
    }
  }

  // The first part is determined.
  lemma PartIsChunk(s: bytes, p: Part)
    requires IsPart(s, p)
    ensures s != [] && FirstChunk(s) == (if p.Scalar? then Good(PartLength(p)) else Bad(PartLength(p)))
  {
    hide FirstChunk, EncodeScalar, Truncates, StartsWithScalar;
    match p
    case Scalar(c) =>
      assert StartsWithScalar(s, c);
      StartIsGood(s, c);
      StartIsScalar(s, c);
    case IllFormed(n) =>
      var m := FirstChunk(s).len;
      if FirstChunk(s).Good? {
        var c := GoodIsScalar(s);
        GoodStarts(s, c);
        assert false;
      }
      BadIsMaximal(s);
  }

  lemma StartIsScalar(s: bytes, c: nat)
    requires StartsWithScalar(s, c)
    ensures IsScalar(c) && EncodeScalar(c) <= s
  {
  }

  lemma GoodStarts(s: bytes, c: nat)
    requires s != [] && IsScalar(c) && EncodeScalar(c) == s[..FirstChunk(s).len]
    ensures StartsWithScalar(s, c)
  {
  }

  // Every text can be cut so, in one way.
  lemma {:induction false} CutExists(s: bytes) returns (parts: seq<Part>)
    ensures Cut(s, parts)
  {
    hide FirstChunk, EncodeScalar, Truncates, StartsWithScalar, MaximalIllFormed;
    if s == [] {
      parts := [];
    } else {
      var n := FirstChunk(s).len;
      var first := IllFormed(n);
      if FirstChunk(s).Good? {
        var c := GoodIsScalar(s);
        GoodStarts(s, c);
        first := Scalar(c);
      } else {
        BadIsMaximal(s);
      }
      assert IsPart(s, first) && PartLength(first) == n;
      var rest := CutExists(s[n..]);
      parts := [first] + rest;
      assert parts[1..] == rest;
    }
  }

  // However a text is cut, the lossy conversion shows its parts: the characters with their bytes and in their order,
  // and U+FFFD for each maximal ill-formed part.
  lemma {:induction false} LossyShows(s: bytes, parts: seq<Part>)
    requires Cut(s, parts)
    ensures Lossy(s) == Shown(parts)
  {
    hide FirstChunk, EncodeScalar, IsPart, PartLength;
    if parts != [] {
      PartIsChunk(s, parts[0]);
      LossyShows(s[PartLength(parts[0])..], parts[1..]);
      if parts[0].Scalar? {
        ShownFirst(s, parts[0]);
      }
    }
  }

  lemma {:induction false} ValidOfCut(s: bytes, parts: seq<Part>)
    requires Cut(s, parts)
    ensures ValidUtf8(s) <==> forall k :: 0 <= k < |parts| ==> parts[k].Scalar?
  {
    hide FirstChunk, IsPart, PartLength;
    if parts != [] {
      PartIsChunk(s, parts[0]);
      ValidOfCut(s[PartLength(parts[0])..], parts[1..]);
      assert forall k :: 1 <= k < |parts| ==> parts[k] == parts[1..][k - 1];
      assert forall k :: 0 <= k < |parts[1..]| ==> parts[1..][k] == parts[k + 1];
    }
  }

  lemma ShownFirst(s: bytes, p: Part)
    requires IsPart(s, p) && p.Scalar? && PartLength(p) <= |s|
    ensures IsScalar(p.c) && s[..PartLength(p)] == EncodeScalar(p.c)
  {
  }

  // Exactly the texts without an ill-formed part stay as they are.
  lemma LossyExactly(s: bytes) returns (parts: seq<Part>)
    ensures Cut(s, parts) && Lossy(s) == Shown(parts)
    ensures ValidUtf8(s) <==> forall k :: 0 <= k < |parts| ==> parts[k].Scalar?
  {
    hide Cut, Shown, Lossy, ValidUtf8;
    parts := CutExists(s);
    LossyShows(s, parts);
    ValidOfCut(s, parts);
  }
}
