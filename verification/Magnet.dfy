// Magnet links: crates/core/src/magnet.rs, `to_hex` of crates/core/src/lib.rs and the expansion of a bare
// info hash in crates/daemon/src/server.rs. Strings are byte sequences.
module Magnet {
  import opened Prelude
  import opened Utf8

  const AMPERSAND: byte := 38
  const PERCENT: byte := 37
  const PLUS: byte := 43
  const SPACE: byte := 32

  const MAGNET: bytes := [109, 97, 103, 110, 101, 116, 58, 63] // "magnet:?"
  const XT: bytes := [120, 116, 61] // "xt="
  const BTIH: bytes := [117, 114, 110, 58, 98, 116, 105, 104, 58] // "urn:btih:"
  const TR: bytes := [116, 114, 61] // "tr="
  const DN: bytes := [100, 110, 61] // "dn="

  datatype MagnetError = InvalidPrefix | MissingXt | InvalidUrlEncoding

  datatype MagnetLink = MagnetLink(infoHash: bytes, trackers: seq<bytes>, name: Option<bytes>)

  // --- hexadecimal ---

  function HexChar(n: nat): byte
    requires n < 16
  {
    if n < 10 then 48 + n else 87 + n
  }

  function UpperHexChar(n: nat): byte
    requires n < 16
  {
    if n < 10 then 48 + n else 55 + n
  }

  function ToHex(b: bytes): bytes {
    if b == [] then [] else [HexChar(b[0] / 16), HexChar(b[0] % 16)] + ToHex(b[1..])
  }

  function ParseHexDigit(c: byte): byte {
    if 48 <= c <= 57 then c - 48
    else if 97 <= c <= 102 then c - 97 + 10
    else if 65 <= c <= 70 then c - 65 + 10
    else 255
  }

  predicate IsHex(s: bytes) { forall i :: 0 <= i < |s| ==> ParseHexDigit(s[i]) != 255 }

  function LowerByte(b: byte): byte {
    var c: int := b;
    if 65 <= c <= 90 then c + 32 else c
  }

  function ToLower(s: bytes): bytes {
    if s == [] then [] else [LowerByte(s[0])] + ToLower(s[1..])
  }

  // The bytes of an even number of hexadecimal digits.
  function HexBytes(s: bytes): bytes
    requires |s| % 2 == 0 && IsHex(s)
  {
    if s == [] then []
    else [ParseHexDigit(s[0]) * 16 + ParseHexDigit(s[1])] + HexBytes(s[2..])
  }

  function DecodeHex(s: bytes, len: nat): Option<bytes> {
    if |s| % 2 != 0 || |s| / 2 != len || !IsHex(s) then None else Some(HexBytes(s))
  }

  // --- percent coding ---

  // application/x-www-form-urlencoded byte serializer, section 5.2 of the WHATWG URL Standard.
  function EncodeByte(b: byte): bytes {
    if Unreserved(b) then [b]
    else if b == SPACE then [PLUS]
    else [PERCENT, UpperHexChar(b / 16), UpperHexChar(b % 16)]
  }

  predicate Unreserved(b: byte) {
    48 <= b <= 57 || 65 <= b <= 90 || 97 <= b <= 122 || b == 42 || b == 45 || b == 46 || b == 95
  }

  function UrlEncode(s: bytes): bytes {
    if s == [] then [] else EncodeByte(s[0]) + UrlEncode(s[1..])
  }

  // Section 2.1 of RFC 3986; a '+' stays a '+'.
  function PercentDecode(s: bytes): Option<bytes> {
    if s == [] then Some([])
    else if s[0] != PERCENT then
      var rest := PercentDecode(s[1..]);
      if rest.Some? then Some([s[0]] + rest.value) else None
    else if |s| > 2 && ParseHexDigit(s[1]) != 255 && ParseHexDigit(s[2]) != 255 then
      var rest := PercentDecode(s[3..]);
      if rest.Some? then Some([ParseHexDigit(s[1]) * 16 + ParseHexDigit(s[2])] + rest.value) else None
    else None
  }

  function UrlDecode(s: bytes): Result<bytes, MagnetError> {
    match PercentDecode(s)
    case None => Err(InvalidUrlEncoding)
    case Some(b) => if ValidUtf8(b) then Ok(b) else Err(InvalidUrlEncoding)
  }

  // --- links ---

  predicate StartsWith(s: bytes, prefix: bytes) { |prefix| <= |s| && s[..|prefix|] == prefix }

  // The parts between separators; there is always at least one.
  function Split(s: bytes, sep: byte): (parts: seq<bytes>)
    ensures parts != []
  {
    if s == [] then [[]]
    else
      var rest := Split(s[1..], sep);
      if s[0] == sep then [[]] + rest else [[s[0]] + rest[0]] + rest[1..]
  }

  datatype Found = Found(infoHash: Option<bytes>, trackers: seq<bytes>, name: Option<bytes>)

  // What one parameter adds; undecodable values and hashes of another length are ignored.
  function ApplyPair(f: Found, pair: bytes): Found {
    if StartsWith(pair, XT) then
      var xt := pair[|XT|..];
      if StartsWith(xt, BTIH) && |xt[|BTIH|..]| == 40 && DecodeHex(xt[|BTIH|..], 20).Some?
      then f.(infoHash := DecodeHex(xt[|BTIH|..], 20)) else f
    else if StartsWith(pair, TR) then
      var tr := UrlDecode(pair[|TR|..]);
      if tr.Ok? then f.(trackers := f.trackers + [tr.value]) else f
    else if StartsWith(pair, DN) then
      var dn := UrlDecode(pair[|DN|..]);
      if dn.Ok? then f.(name := Some(dn.value)) else f
    else f
  }

  function ApplyPairs(f: Found, pairs: seq<bytes>): Found
    decreases pairs
  {
    if pairs == [] then f else ApplyPairs(ApplyPair(f, pairs[0]), pairs[1..])
  }

  // `MagnetLink::parse`
  function Parse(url: bytes): Result<MagnetLink, MagnetError> {
    if !StartsWith(url, MAGNET) then Err(InvalidPrefix)
    else
      var f := ApplyPairs(Found(None, [], None), Split(url[|MAGNET|..], AMPERSAND));
      if f.infoHash.None? then Err(MissingXt) else Ok(MagnetLink(f.infoHash.value, f.trackers, f.name))
  }

  function TrackerParams(trackers: seq<bytes>): bytes {
    if trackers == [] then [] else [AMPERSAND] + TR + UrlEncode(trackers[0]) + TrackerParams(trackers[1..])
  }

  // The magnet link `add_torrent_internal` makes of a bare hash.
  function Expand(hash: bytes, trackers: seq<bytes>): bytes {
    MAGNET + XT + BTIH + hash + TrackerParams(trackers)
  }

  // --- the program's loops ---

  method ToHexString(b: bytes) returns (s: bytes)
    ensures s == ToHex(b)
  {
    s := [];
    for k := 0 to |b|
      invariant s + ToHex(b[k..]) == ToHex(b)
    {
      assert b[k..][1..] == b[k + 1..];
      s := s + [HexChar(b[k] / 16)];
      s := s + [HexChar(b[k] % 16)];
    }
  }

  // Fills `out` digit pair by digit pair; on failure `out` may be partly filled.
  method DecodeHexInto(s: bytes, out: array<byte>) returns (ok: bool)
    modifies out
    ensures ok <==> DecodeHex(s, out.Length).Some?
    ensures ok ==> Some(out[..]) == DecodeHex(s, out.Length)
  {
    if |s| % 2 != 0 || |s| / 2 != out.Length {
      return false;
    }
    hide ParseHexDigit, HexBytes;
    var i := 0;
    while i < out.Length
      invariant i <= out.Length
      invariant PairsDecoded(s, out[..i])
    {
      var high := ParseHexDigit(s[2 * i]);
      var low := ParseHexDigit(s[2 * i + 1]);
      if high == 255 || low == 255 {
        return false;
      }
      DigitBound(s[2 * i]);
      DigitBound(s[2 * i + 1]);
      out[i] := high * 16 + low;
      i := i + 1;
    }
    assert out[..i] == out[..];
    PairsAreHexBytes(s, out[..]);
    return true;
  }

  // The digits `high` and `low` are those of `x`.
  predicate DigitsOf(high: int, low: int, x: int) { high != 255 && low != 255 && x == high * 16 + low }

  // The first |b| pairs of digits are those of `b`.
  predicate PairsDecoded(s: bytes, b: bytes) {
    && 2 * |b| <= |s|
    && forall j :: 0 <= j < |b| ==> DigitsOf(ParseHexDigit(s[2 * j]), ParseHexDigit(s[2 * j + 1]), b[j])
  }

  lemma {:induction false} PairsAreHexBytes(s: bytes, b: bytes)
    requires PairsDecoded(s, b) && |s| == 2 * |b|
    ensures IsHex(s) && HexBytes(s) == b
  {
    hide ParseHexDigit;
    if s != [] {
      PairsDecodedTail(s, b);
      PairsAreHexBytes(s[2..], b[1..]);
      assert DigitsOf(ParseHexDigit(s[2 * 0]), ParseHexDigit(s[2 * 0 + 1]), b[0]);
      forall i | 0 <= i < |s| ensures ParseHexDigit(s[i]) != 255 {
        if i >= 2 {
          assert s[i] == s[2..][i - 2];
        }
      }
      assert b == [b[0]] + b[1..];
    }
  }

  lemma PairsDecodedTail(s: bytes, b: bytes)
    requires PairsDecoded(s, b) && b != []
    ensures PairsDecoded(s[2..], b[1..])
  {
    hide ParseHexDigit;
    forall j | 0 <= j < |b[1..]|
      ensures DigitsOf(ParseHexDigit(s[2..][2 * j]), ParseHexDigit(s[2..][2 * j + 1]), b[1..][j])
    {
      assert DigitsOf(ParseHexDigit(s[2 * (j + 1)]), ParseHexDigit(s[2 * (j + 1) + 1]), b[j + 1]);
      assert 2 * (j + 1) == 2 * j + 2;
    }
  }

  method UrlDecodeString(s: bytes) returns (r: Result<bytes, MagnetError>)
    ensures r == UrlDecode(s)
  {
    hide ValidUtf8, ParseHexDigit, PercentDecode;
    var out: bytes := [];
    var i := 0;
    PrependNothing(PercentDecode(s));
    assert s[0..] == s;
    while i < |s|
      invariant i <= |s|
      invariant PercentDecode(s) == Prepend(out, PercentDecode(s[i..]))
      decreases |s| - i
    {
      if s[i] == PERCENT {
        if i + 2 < |s| {
          var high := ParseHexDigit(s[i + 1]);
          var low := ParseHexDigit(s[i + 2]);
          if high != 255 && low != 255 {
            DigitBound(s[i + 1]);
            DigitBound(s[i + 2]);
            DecodePair(s, i);
            PrependTwice(out, [high * 16 + low], PercentDecode(s[i + 3..]));
            out := out + [high * 16 + low];
            i := i + 3;
            continue;
          }
        }
        DecodeStuck(s, i);
        return Err(InvalidUrlEncoding);
      } else {
        DecodePlain(s, i);
        PrependTwice(out, [s[i]], PercentDecode(s[i + 1..]));
        out := out + [s[i]];
        i := i + 1;
      }
    }
    assert s[i..] == [] && out + [] == out;
    DecodeEnd();
    r := if ValidUtf8(out) then Ok(out) else Err(InvalidUrlEncoding);
  }

  // What is known of a decoding once `done` has been decoded.
  function Prepend(done: bytes, rest: Option<bytes>): Option<bytes> {
    if rest.Some? then Some(done + rest.value) else None
  }

  // The branches of the decoder at position `i`.
  lemma DecodePlain(s: bytes, i: nat)
    requires i < |s| && s[i] != PERCENT
    ensures PercentDecode(s[i..]) == Prepend([s[i]], PercentDecode(s[i + 1..]))
  {
    assert s[i..][1..] == s[i + 1..];
  }

  lemma DecodePair(s: bytes, i: nat)
    requires i + 2 < |s| && s[i] == PERCENT
    requires ParseHexDigit(s[i + 1]) != 255 && ParseHexDigit(s[i + 2]) != 255
    ensures PercentDecode(s[i..])
            == Prepend([ParseHexDigit(s[i + 1]) * 16 + ParseHexDigit(s[i + 2])], PercentDecode(s[i + 3..]))
  {
    assert s[i..][3..] == s[i + 3..];
  }

  lemma DecodeStuck(s: bytes, i: nat)
    requires i < |s| && s[i] == PERCENT
    requires i + 2 >= |s| || ParseHexDigit(s[i + 1]) == 255 || ParseHexDigit(s[i + 2]) == 255
    ensures PercentDecode(s[i..]) == None
  {
    hide ParseHexDigit;
  }

  lemma DecodeEnd()
    ensures PercentDecode([]) == Some([])
  {
  }

  lemma PrependNothing(rest: Option<bytes>)
    ensures Prepend([], rest) == rest
  {
    if rest.Some? {
      assert [] + rest.value == rest.value;
    }
  }

  lemma PrependTwice(a: bytes, b: bytes, rest: Option<bytes>)
    ensures Prepend(a, Prepend(b, rest)) == Prepend(a + b, rest)
  {
    if rest.Some? {
      assert a + (b + rest.value) == a + b + rest.value;
    }
  }

  lemma DigitBound(c: byte)
    ensures ParseHexDigit(c) != 255 ==> ParseHexDigit(c) < 16
  {
  }

  method ParseLink(url: bytes) returns (r: Result<MagnetLink, MagnetError>)
    ensures r == Parse(url)
  {
    hide Split, StartsWith, DecodeHex, UrlDecode;
    if !StartsWith(url, MAGNET) {
      return Err(InvalidPrefix);
    }
    assert |MAGNET| <= |url| by {
      PrefixFits(url, MAGNET);
    }
    var pairs := Split(url[|MAGNET|..], AMPERSAND);
    var infoHash: Option<bytes> := None;
    var trackers: seq<bytes> := [];
    var name: Option<bytes> := None;
    assert pairs[0..] == pairs;
    for k := 0 to |pairs|
      invariant ApplyPairs(Found(None, [], None), pairs) == ApplyPairs(Found(infoHash, trackers, name), pairs[k..])
    {
      assert pairs[k..][1..] == pairs[k + 1..];
      var pair := pairs[k];
      if StartsWith(pair, XT) {
        PrefixFits(pair, XT);
        var xt := pair[|XT|..];
        if StartsWith(xt, BTIH) {
          PrefixFits(xt, BTIH);
          var hash := xt[|BTIH|..];
          if |hash| == 40 {
            var out := new byte[20];
            var ok := DecodeHexInto(hash, out);
            if ok {
              infoHash := Some(out[..]);
            }
          }
        }
      } else if StartsWith(pair, TR) {
        PrefixFits(pair, TR);
        var decoded := UrlDecodeString(pair[|TR|..]);
        if decoded.Ok? {
          trackers := trackers + [decoded.value];
        }
      } else if StartsWith(pair, DN) {
        PrefixFits(pair, DN);
        var decoded := UrlDecodeString(pair[|DN|..]);
        if decoded.Ok? {
          name := Some(decoded.value);
        }
      }
    }
    r := if infoHash.None? then Err(MissingXt) else Ok(MagnetLink(infoHash.value, trackers, name));
  }

  lemma PrefixFits(s: bytes, prefix: bytes)
    ensures StartsWith(s, prefix) ==> |prefix| <= |s|
  {
  }

  method ExpandBareHash(hash: bytes, defaultTrackers: seq<bytes>) returns (url: bytes)
    ensures url == Expand(hash, defaultTrackers)
  {
    var trackersStr: bytes := [];
    for k := 0 to |defaultTrackers|
      invariant trackersStr + TrackerParams(defaultTrackers[k..]) == TrackerParams(defaultTrackers)
    {
      assert defaultTrackers[k..][1..] == defaultTrackers[k + 1..];
      ghost var before, rest := trackersStr, TrackerParams(defaultTrackers[k + 1..]);
      var encoded := UrlEncode(defaultTrackers[k]);
      trackersStr := trackersStr + ([AMPERSAND] + TR + encoded);
      assert before + ([AMPERSAND] + TR + encoded + rest) == trackersStr + rest;
    }
    url := MAGNET + XT + BTIH + hash + trackersStr;
  }

  // --- coding round trips ---

  lemma DigitRoundTrip(c: byte)
    requires ParseHexDigit(c) != 255
    ensures ParseHexDigit(c) < 16 && HexChar(ParseHexDigit(c)) == LowerByte(c)
  {
  }

  lemma {:induction false} HexRoundTrip(s: bytes)
    requires |s| % 2 == 0 && IsHex(s)
    ensures |HexBytes(s)| == |s| / 2 && ToHex(HexBytes(s)) == ToLower(s)
  {
    if s != [] {
      hide ParseHexDigit, HexChar, LowerByte;
      HexRoundTrip(s[2..]);
      DigitRoundTrip(s[0]);
      DigitRoundTrip(s[1]);
      var b := HexBytes(s);
      assert b[1..] == HexBytes(s[2..]);
      assert b[0] / 16 == ParseHexDigit(s[0]) && b[0] % 16 == ParseHexDigit(s[1]);
      assert s[1..][1..] == s[2..];
      var x, y, rest := LowerByte(s[0]), LowerByte(s[1]), ToLower(s[2..]);
      assert ToLower(s[1..]) == [y] + rest;
      assert [x] + ([y] + rest) == [x, y] + rest;
    }
  }

  // Writing bytes in hexadecimal and reading them back.
  lemma {:induction false} HexBack(b: bytes)
    ensures |ToHex(b)| == 2 * |b| && IsHex(ToHex(b)) && HexBytes(ToHex(b)) == b
  {
    if b != [] {
      HexBack(b[1..]);
      var s := ToHex(b);
      assert s[2..] == ToHex(b[1..]);
      forall i | 0 <= i < |s| ensures ParseHexDigit(s[i]) != 255 {
        if i >= 2 {
          assert s[i] == s[2..][i - 2];
        }
      }
    }
  }

  // What percent coding does not bring back: the encoder writes '+' for a space, the decoder keeps it.
  function PlusForSpace(s: bytes): bytes {
    if s == [] then [] else [if s[0] == SPACE then PLUS else s[0]] + PlusForSpace(s[1..])
  }

  lemma {:induction false} PlusForSpaceExactly(s: bytes)
    ensures PlusForSpace(s) == s <==> SPACE !in s
  {
    if s != [] {
      PlusForSpaceExactly(s[1..]);
      assert s == [s[0]] + s[1..];
      assert PlusForSpace(s)[1..] == PlusForSpace(s[1..]);
    }
  }

  lemma {:induction false} PercentRoundTrip(s: bytes)
    ensures PercentDecode(UrlEncode(s)) == Some(PlusForSpace(s))
  {
    if s != [] {
      PercentRoundTrip(s[1..]);
      var e := EncodeByte(s[0]);
      assert UrlEncode(s)[|e|..] == UrlEncode(s[1..]);
      if !Unreserved(s[0]) && s[0] != SPACE {
        HexDigitsBack(s[0]);
      }
    }
  }

  lemma HexDigitsBack(b: byte)
    ensures ParseHexDigit(UpperHexChar(b / 16)) * 16 + ParseHexDigit(UpperHexChar(b % 16)) == b
    ensures ParseHexDigit(UpperHexChar(b / 16)) != 255 && ParseHexDigit(UpperHexChar(b % 16)) != 255
  {
  }

  lemma {:induction false} PlusKeepsUtf8(s: bytes)
    requires ValidUtf8(s)
    ensures |PlusForSpace(s)| == |s| && ValidUtf8(PlusForSpace(s))
    ensures forall i :: 0 <= i < |s| ==> PlusForSpace(s)[i] == if s[i] == SPACE then PLUS else s[i]
    decreases |s|
  {
    PlusPointwise(s);
    if s != [] {
      var n := FirstChunk(s).len;
      var p := PlusForSpace(s);
      PlusKeepsUtf8(s[n..]);
      PlusPointwise(s[n..]);
      assert p[n..] == PlusForSpace(s[n..]);
      assert FirstChunk(p) == FirstChunk(s);
    }
  }

  lemma {:induction false} PlusPointwise(s: bytes)
    ensures |PlusForSpace(s)| == |s|
    ensures forall i :: 0 <= i < |s| ==> PlusForSpace(s)[i] == if s[i] == SPACE then PLUS else s[i]
  {
    if s != [] {
      PlusPointwise(s[1..]);
    }
  }

  lemma {:induction false} EncodedHasNoAmpersand(s: bytes)
    ensures AMPERSAND !in UrlEncode(s)
  {
    if s != [] {
      EncodedHasNoAmpersand(s[1..]);
      assert AMPERSAND !in EncodeByte(s[0]);
    }
  }

  // --- splitting ---

  lemma {:induction false} SplitOne(a: bytes, sep: byte)
    requires sep !in a
    ensures Split(a, sep) == [a]
  {
    if a != [] {
      assert a == [a[0]] + a[1..];
      SplitOne(a[1..], sep);
    }
  }

  lemma {:induction false} SplitFirst(a: bytes, b: bytes, sep: byte)
    requires sep !in a
    ensures Split(a + [sep] + b, sep) == [a] + Split(b, sep)
  {
    var s := a + [sep] + b;
    if a == [] {
      assert s[1..] == b;
    } else {
      assert a == [a[0]] + a[1..];
      assert s[1..] == a[1..] + [sep] + b;
      SplitFirst(a[1..], b, sep);
      assert ([a[1..]] + Split(b, sep))[1..] == Split(b, sep);
    }
  }

  function TrackerPairs(trackers: seq<bytes>): seq<bytes> {
    if trackers == [] then [] else [TR + UrlEncode(trackers[0])] + TrackerPairs(trackers[1..])
  }

  lemma {:induction false} SplitQuery(first: bytes, trackers: seq<bytes>)
    requires AMPERSAND !in first
    ensures Split(first + TrackerParams(trackers), AMPERSAND) == [first] + TrackerPairs(trackers)
    decreases trackers
  {
    hide Split, UrlEncode;
    if trackers == [] {
      assert first + [] == first;
      SplitOne(first, AMPERSAND);
    } else {
      var next, rest := TR + UrlEncode(trackers[0]), TrackerParams(trackers[1..]);
      EncodedHasNoAmpersand(trackers[0]);
      SplitQuery(next, trackers[1..]);
      SplitFirst(first, next + rest, AMPERSAND);
      ConcatAssoc(first, [AMPERSAND], next + rest);
      ConcatAssoc([AMPERSAND], TR, UrlEncode(trackers[0]));
      ConcatAssoc([AMPERSAND], next, rest);
    }
  }

  // --- the expansion round trip ---

  function Received(trackers: seq<bytes>): seq<bytes> {
    if trackers == [] then [] else [PlusForSpace(trackers[0])] + Received(trackers[1..])
  }

  lemma TrackerArrives(f: Found, t: bytes)
    requires ValidUtf8(t)
    ensures ApplyPair(f, TR + UrlEncode(t)) == f.(trackers := f.trackers + [PlusForSpace(t)])
  {
    hide ValidUtf8, PercentDecode, UrlEncode, DecodeHex, PlusForSpace;
    var pair := TR + UrlEncode(t);
    PercentRoundTrip(t);
    PlusKeepsUtf8(t);
    assert pair[|TR|..] == UrlEncode(t) && pair[..|TR|] == TR;
    assert pair[0] == TR[0] != XT[0];
    assert pair[..|XT|][0] == pair[0];
  }

  lemma {:induction false} TrackersArrive(f: Found, trackers: seq<bytes>)
    requires forall t :: t in trackers ==> ValidUtf8(t)
    ensures ApplyPairs(f, TrackerPairs(trackers)) == f.(trackers := f.trackers + Received(trackers))
    decreases trackers
  {
    hide ApplyPair, ValidUtf8, PlusForSpace, UrlEncode;
    if trackers == [] {
      assert f.trackers + [] == f.trackers;
    } else {
      var t := trackers[0];
      TrackerArrives(f, t);
      var g := f.(trackers := f.trackers + [PlusForSpace(t)]);
      ApplyCons(f, TR + UrlEncode(t), TrackerPairs(trackers[1..]));
      forall x | x in trackers[1..] ensures ValidUtf8(x) {
        assert x in trackers;
      }
      TrackersArrive(g, trackers[1..]);
      ConcatAssoc(f.trackers, [PlusForSpace(t)], Received(trackers[1..]));
    }
  }

  lemma ApplyCons(f: Found, pair: bytes, rest: seq<bytes>)
    ensures ApplyPairs(f, [pair] + rest) == ApplyPairs(ApplyPair(f, pair), rest)
  {
    hide ApplyPair;
    assert ([pair] + rest)[1..] == rest;
  }

  // The magnet link made of a bare hash parses back to that hash, in lower case, and to the same trackers in
  // order, with '+' for their spaces.
  lemma ExpansionParses(hash: bytes, trackers: seq<bytes>)
    requires |hash| == 40 && IsHex(hash)
    requires forall t :: t in trackers ==> ValidUtf8(t)
    ensures var r := Parse(Expand(hash, trackers));
            && r.Ok?
            && |r.value.infoHash| == 20 && ToHex(r.value.infoHash) == ToLower(hash)
            && r.value.trackers == Received(trackers)
            && r.value.name == None
  {
    hide Split, TrackerParams, HexBytes, ToHex, ToLower, UrlDecode;
    var url := Expand(hash, trackers);
    var first := XT + BTIH + hash;
    assert url == MAGNET + (first + TrackerParams(trackers));
    assert url[..|MAGNET|] == MAGNET && url[|MAGNET|..] == first + TrackerParams(trackers);
    forall i | 0 <= i < |hash| ensures hash[i] != AMPERSAND {
      assert ParseHexDigit(AMPERSAND) == 255;
    }
    assert AMPERSAND !in hash;
    SplitQuery(first, trackers);
    HexRoundTrip(hash);
    assert first[..|XT|] == XT && first[|XT|..] == BTIH + hash;
    assert (BTIH + hash)[..|BTIH|] == BTIH && (BTIH + hash)[|BTIH|..] == hash;
    var f := Found(Some(HexBytes(hash)), [], None);
    assert ApplyPair(Found(None, [], None), first) == f;
    TrackersArrive(f, trackers);
    assert ([first] + TrackerPairs(trackers))[1..] == TrackerPairs(trackers);
    assert [] + Received(trackers) == Received(trackers);
  }

  lemma {:induction false} ReceivedExactly(trackers: seq<bytes>)
    ensures Received(trackers) == trackers <==> forall t :: t in trackers ==> SPACE !in t
  {
    if trackers != [] {
      PlusForSpaceExactly(trackers[0]);
      ReceivedExactly(trackers[1..]);
      assert trackers == [trackers[0]] + trackers[1..];
      assert Received(trackers)[1..] == Received(trackers[1..]);
    }
  }

  // So the trackers survive the round trip exactly when none contains a space.
  lemma ExpansionKeepsTrackersExactly(hash: bytes, trackers: seq<bytes>)
    requires |hash| == 40 && IsHex(hash)
    requires forall t :: t in trackers ==> ValidUtf8(t)
    ensures Parse(Expand(hash, trackers)).Ok?
    ensures Parse(Expand(hash, trackers)).value.trackers == trackers <==> forall t :: t in trackers ==> SPACE !in t
  {
    hide Parse, Expand, ToHex, ToLower;
    ExpansionParses(hash, trackers);
    ReceivedExactly(trackers);
  }
}
