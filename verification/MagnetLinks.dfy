// What a magnet link says, parameter by parameter, and what the two codings of its values are, character by character.
module MagnetLinks {
  import opened Prelude
  import opened Utf8
  import opened Magnet

  // --- digits ---

  function LowerDigits(): (d: bytes)
    ensures |d| == 16
  {
    Ascii("0123456789abcdef")
  }

  function UpperDigits(): (d: bytes)
    ensures |d| == 16
  {
    Ascii("0123456789ABCDEF")
  }

  // The character is the hexadecimal digit of that value, in either case.
  predicate IsDigitOf(c: byte, v: nat) { v < 16 && (c == LowerDigits()[v] || c == UpperDigits()[v]) }

  lemma DigitsAre(v: nat)
    requires v < 16
    ensures HexChar(v) == LowerDigits()[v] && UpperHexChar(v) == UpperDigits()[v]
  {
  }

  lemma DigitExactly(c: byte, v: nat)
    ensures v < 16 ==> (ParseHexDigit(c) == v <==> IsDigitOf(c, v))
    ensures ParseHexDigit(c) == 255 || ParseHexDigit(c) < 16
  {
    if v < 16 {
      DigitsAre(v);
    }
  }

  // `to_hex` writes the two digits of each byte.
  lemma {:induction false} HexAt(b: bytes, k: nat)
    requires k < |b|
    ensures |ToHex(b)| == 2 * |b|
    ensures ToHex(b)[2 * k] == LowerDigits()[b[k] / 16] && ToHex(b)[2 * k + 1] == LowerDigits()[b[k] % 16]
  {
    hide HexChar, LowerDigits;
    HexBack(b);
    if k == 0 {
      DigitsAre(b[0] / 16);
      DigitsAre(b[0] % 16);
    } else {
      HexAt(b[1..], k - 1);
      assert ToHex(b)[2..] == ToHex(b[1..]);
    }
  }

  // The text is the two digits of each byte.
  predicate IsHexOf(s: bytes, b: bytes) {
    && |s| == 2 * |b|
    && forall k :: 0 <= k < |b| ==> IsDigitOf(s[2 * k], b[k] / 16) && IsDigitOf(s[2 * k + 1], b[k] % 16)
  }

  // `from_hex` reads n bytes from a text if and only if it is their digits.
  lemma HexExactly(s: bytes, b: bytes)
    ensures DecodeHex(s, |b|) == Some(b) <==> IsHexOf(s, b)
  {
    hide IsDigitOf, ParseHexDigit, HexBytes;
    if IsHexOf(s, b) {
      forall k | 0 <= k < |b| ensures DigitsOf(ParseHexDigit(s[2 * k]), ParseHexDigit(s[2 * k + 1]), b[k]) {
        DigitExactly(s[2 * k], b[k] / 16);
        DigitExactly(s[2 * k + 1], b[k] % 16);
      }
      PairsAreHexBytes(s, b);
    }
    if DecodeHex(s, |b|) == Some(b) {
      DigitsOfBytes(s);
    }
  }

  lemma {:induction false} DigitsOfBytes(s: bytes)
    requires |s| % 2 == 0 && IsHex(s)
    ensures IsHexOf(s, HexBytes(s))
  {
    hide IsDigitOf, ParseHexDigit;
    if s != [] {
      DigitsOfBytes(s[2..]);
      var x, y := ParseHexDigit(s[0]), ParseHexDigit(s[1]);
      DigitExactly(s[0], x);
      DigitExactly(s[1], y);
      var b := HexBytes(s);
      assert b[0] / 16 == x && b[0] % 16 == y && b[1..] == HexBytes(s[2..]);
      forall k | 0 < k < |b| ensures IsDigitOf(s[2 * k], b[k] / 16) && IsDigitOf(s[2 * k + 1], b[k] % 16) {
        assert s[2 * k] == s[2..][2 * (k - 1)] && s[2 * k + 1] == s[2..][2 * (k - 1) + 1] && b[k] == b[1..][k - 1];
      }
    }
  }

  // --- percent coding ---

  datatype Token = Plain(b: byte) | Escaped(high: byte, low: byte, value: byte)

  // A character other than '%', or '%' and the two digits of a byte.
  predicate IsToken(t: Token) {
    match t
    case Plain(b) => b != 37
    case Escaped(high, low, value) => IsDigitOf(high, value / 16) && IsDigitOf(low, value % 16)
  }

  predicate AreTokens(ts: seq<Token>) { forall t :: t in ts ==> IsToken(t) }

  function Spelling(ts: seq<Token>): bytes {
    if ts == [] then []
    else (match ts[0] case Plain(b) => [b] case Escaped(high, low, _) => [37, high, low]) + Spelling(ts[1..])
  }

  function Meaning(ts: seq<Token>): bytes {
    if ts == [] then []
    else [match ts[0] case Plain(b) => b case Escaped(_, _, value) => value] + Meaning(ts[1..])
  }

  lemma {:induction false} TokensDecode(ts: seq<Token>)
    requires AreTokens(ts)
    ensures PercentDecode(Spelling(ts)) == Some(Meaning(ts))
  {
    hide ParseHexDigit, IsDigitOf;
    if ts != [] {
      assert ts[0] in ts && forall t :: t in ts[1..] ==> t in ts;
      TokensDecode(ts[1..]);
      var s := Spelling(ts);
      match ts[0]
      case Plain(b) =>
        assert s[0] == b && s[1..] == Spelling(ts[1..]);
      case Escaped(high, low, value) =>
        DigitExactly(high, value / 16);
        DigitExactly(low, value % 16);
        assert s[3..] == Spelling(ts[1..]);
    }
  }

  lemma {:induction false} DecodedTokens(s: bytes) returns (ts: seq<Token>)
    requires PercentDecode(s).Some?
    ensures AreTokens(ts) && Spelling(ts) == s && Meaning(ts) == PercentDecode(s).value
  {
    hide ParseHexDigit, IsDigitOf;
    if s == [] {
      ts := [];
    } else if s[0] != PERCENT {
      var rest := DecodedTokens(s[1..]);
      ts := [Plain(s[0])] + rest;
      assert ts[1..] == rest && [s[0]] + s[1..] == s;
    } else {
      var rest := DecodedTokens(s[3..]);
      var x, y := ParseHexDigit(s[1]), ParseHexDigit(s[2]);
      DigitExactly(s[1], x);
      DigitExactly(s[2], y);
      assert (x * 16 + y) / 16 == x && (x * 16 + y) % 16 == y;
      ts := [Escaped(s[1], s[2], x * 16 + y)] + rest;
      assert ts[1..] == rest && [s[0], s[1], s[2]] + s[3..] == s;
    }
  }

  ghost predicate Spells(ts: seq<Token>, s: bytes, b: bytes) { AreTokens(ts) && Spelling(ts) == s && Meaning(ts) == b }

  // A text decodes to bytes if and only if it spells them and they are UTF-8; any other text is refused.
  lemma DecodesExactly(s: bytes, b: bytes)
    ensures UrlDecode(s) == Ok(b) <==> ValidUtf8(b) && exists ts :: Spells(ts, s, b)
    ensures UrlDecode(s).Err? ==> UrlDecode(s) == Err(InvalidUrlEncoding)
  {
    hide PercentDecode, Spelling, Meaning, AreTokens, ValidUtf8;
    if PercentDecode(s) == Some(b) {
      var ts := DecodedTokens(s);
      assert Spells(ts, s, b);
    }
    if ts :| Spells(ts, s, b) {
      TokensDecode(ts);
    }
  }

  // The encoder of section 5.2 of the WHATWG URL Standard: letters, digits and "*-._" stay, a space becomes "+", and of
  // every other byte the two upper-case digits are written.
  lemma EncodedByteIs(b: byte)
    ensures EncodeByte(b) ==
              if (Ascii("0")[0] <= b <= Ascii("9")[0]) || (Ascii("A")[0] <= b <= Ascii("Z")[0])
                 || (Ascii("a")[0] <= b <= Ascii("z")[0]) || b in Ascii("*-._") then [b]
              else if b == Ascii(" ")[0] then Ascii("+")
              else Ascii("%") + [UpperDigits()[b / 16], UpperDigits()[b % 16]]
  {
    hide UpperDigits;
    DigitsAre(b / 16);
    DigitsAre(b % 16);
    UnreservedMarks(b);
  }

  lemma UnreservedMarks(b: byte)
    ensures b in Ascii("*-._") <==> b == 42 || b == 45 || b == 46 || b == 95
  {
    var marks := Ascii("*-._");
    assert marks == [42, 45, 46, 95];
  }

  // --- parameters ---

  // Parameters with '&' between them.
  function Join(params: seq<bytes>): bytes {
    if params == [] then [] else if |params| == 1 then params[0] else params[0] + Ascii("&") + Join(params[1..])
  }

  predicate AreParams(params: seq<bytes>) {
    params != [] && forall p :: p in params ==> Ascii("&")[0] !in p
  }

  // The value a parameter gives for a key, if it starts with the key.
  function Given(param: bytes, key: bytes): seq<bytes> { if key <= param then [param[|key|..]] else [] }

  // The values given for a key, in order.
  function Values(params: seq<bytes>, key: bytes): seq<bytes> {
    if params == [] then [] else Given(params[0], key) + Values(params[1..], key)
  }

  function Readable(r: Result<bytes, MagnetError>): seq<bytes> { if r.Ok? then [r.value] else [] }

  // Those that decode, decoded.
  function Decoded(values: seq<bytes>): seq<bytes> {
    if values == [] then []
    else Readable(UrlDecode(values[0])) + Decoded(values[1..])
  }

  // Those that are the 40 digits of 20 bytes, as bytes.
  function Hashes(values: seq<bytes>): seq<bytes> {
    if values == [] then []
    else (if DecodeHex(values[0], 20).Some? then [DecodeHex(values[0], 20).value] else []) + Hashes(values[1..])
  }

  function Last<T>(xs: seq<T>): Option<T> { if xs == [] then None else Some(xs[|xs| - 1]) }

  lemma {:induction false} JoinSplits(params: seq<bytes>)
    requires AreParams(params)
    ensures Split(Join(params), AMPERSAND) == params
  {
    hide Split;
    assert params[0] in params;
    if |params| == 1 {
      SplitOne(params[0], AMPERSAND);
    } else {
      assert Ascii("&") == [AMPERSAND];
      assert forall p :: p in params[1..] ==> p in params;
      JoinSplits(params[1..]);
      SplitFirst(params[0], Join(params[1..]), AMPERSAND);
      assert [params[0]] + params[1..] == params;
    }
  }

  // Every text is such a list of parameters.
  lemma {:induction false} SplitJoins(s: bytes)
    ensures AreParams(Split(s, AMPERSAND)) && Join(Split(s, AMPERSAND)) == s
  {
    if s != [] {
      var rest := Split(s[1..], AMPERSAND);
      SplitJoins(s[1..]);
      assert Ascii("&") == [AMPERSAND];
      assert rest[0] in rest && forall p :: p in rest[1..] ==> p in rest;
      if s[0] == AMPERSAND {
        assert ([[]] + rest)[1..] == rest;
      } else {
        assert ([[s[0]] + rest[0]] + rest[1..])[1..] == rest[1..];
        if |rest| > 1 {
          assert [s[0]] + (rest[0] + Ascii("&") + Join(rest[1..])) == ([s[0]] + rest[0]) + Ascii("&") + Join(rest[1..]);
        }
      }
    }
  }

  // --- what a link says ---

  function XtKey(): bytes { Ascii("xt=urn:btih:") }

  function TrKey(): bytes { Ascii("tr=") }

  function DnKey(): bytes { Ascii("dn=") }

  function Later(before: Option<bytes>, values: seq<bytes>): Option<bytes> {
    if values == [] then before else Last(values)
  }

  function Extended(f: Found, hashes: seq<bytes>, trackers: seq<bytes>, names: seq<bytes>): Found {
    Found(Later(f.infoHash, hashes), f.trackers + trackers, Later(f.name, names))
  }

  lemma KeysAre()
    ensures Ascii("magnet:?") == MAGNET && XtKey() == XT + BTIH && TrKey() == TR && DnKey() == DN
    ensures Ascii("&") == [AMPERSAND]
  {
  }

  lemma StartsWithIsPrefix(s: bytes, prefix: bytes)
    ensures StartsWith(s, prefix) <==> prefix <= s
  {
  }

  lemma PrefixOfTwo(s: bytes, a: bytes, b: bytes)
    ensures a + b <= s <==> a <= s && b <= s[|a|..]
    ensures a + b <= s ==> s[|a|..][|b|..] == s[|a + b|..]
  {
    if a <= s && b <= s[|a|..] {
      assert s == a + (b + s[|a|..][|b|..]);
      assert s == (a + b) + s[|a|..][|b|..];
    }
    if a + b <= s {
      assert s == (a + b) + s[|a + b|..];
      assert s == a + (b + s[|a + b|..]);
      assert s[|a|..] == b + s[|a + b|..];
    }
  }

  lemma StepAdds(f: Found, p: bytes)
    ensures ApplyPair(f, p)
            == Extended(f, Hashes(Given(p, XtKey())), Decoded(Given(p, TrKey())), Decoded(Given(p, DnKey())))
  {
    hide UrlDecode, HexBytes, StartsWith, IsHex;
    KeysAre();
    StartsWithIsPrefix(p, XT);
    StartsWithIsPrefix(p, TR);
    StartsWithIsPrefix(p, DN);
    PrefixOfTwo(p, XT, BTIH);
    if XT <= p {
      StartsWithIsPrefix(p[|XT|..], BTIH);
      assert p[0] == XT[0];
    } else if TR <= p {
      assert p[0] == TR[0];
    }
  }

  lemma {:induction false} HashesOf(a: seq<bytes>, b: seq<bytes>)
    ensures Hashes(a + b) == Hashes(a) + Hashes(b)
  {
    hide DecodeHex;
    if a == [] {
      assert a + b == b;
    } else {
      HashesOf(a[1..], b);
      assert (a + b)[0] == a[0] && (a + b)[1..] == a[1..] + b;
    }
  }

  lemma {:induction false} DecodedOf(a: seq<bytes>, b: seq<bytes>)
    ensures Decoded(a + b) == Decoded(a) + Decoded(b)
  {
    hide UrlDecode, Readable;
    if a == [] {
      assert a + b == b;
    } else {
      DecodedOf(a[1..], b);
      assert (a + b)[0] == a[0] && (a + b)[1..] == a[1..] + b;
      ConcatAssoc(Readable(UrlDecode(a[0])), Decoded(a[1..]), Decoded(b));
    }
  }

  lemma ExtendTwice(f: Found, h: seq<bytes>, h': seq<bytes>, t: seq<bytes>, t': seq<bytes>,
                    n: seq<bytes>, n': seq<bytes>)
    ensures Extended(Extended(f, h, t, n), h', t', n') == Extended(f, h + h', t + t', n + n')
  {
    assert f.trackers + t + t' == f.trackers + (t + t');
    assert h' == [] ==> h + h' == h;
    assert n' == [] ==> n + n' == n;
  }

  lemma {:induction false} StepsAdd(f: Found, params: seq<bytes>)
    ensures ApplyPairs(f, params)
            == Extended(f, Hashes(Values(params, XtKey())), Decoded(Values(params, TrKey())),
                        Decoded(Values(params, DnKey())))
    decreases params
  {
    hide ApplyPair, Given, Hashes, Decoded, XtKey, TrKey, DnKey, Extended;
    if params == [] {
      NothingAdds(f);
    } else {
      var p, rest := params[0], params[1..];
      StepAdds(f, p);
      StepsAdd(ApplyPair(f, p), rest);
      HashesOf(Given(p, XtKey()), Values(rest, XtKey()));
      DecodedOf(Given(p, TrKey()), Values(rest, TrKey()));
      DecodedOf(Given(p, DnKey()), Values(rest, DnKey()));
      ExtendTwice(f, Hashes(Given(p, XtKey())), Hashes(Values(rest, XtKey())),
                  Decoded(Given(p, TrKey())), Decoded(Values(rest, TrKey())),
                  Decoded(Given(p, DnKey())), Decoded(Values(rest, DnKey())));
    }
  }

  lemma NothingAdds(f: Found)
    ensures Extended(f, Hashes([]), Decoded([]), Decoded([])) == f
  {
    assert f.trackers + [] == f.trackers;
  }

  function LinkOf(hash: Option<bytes>, trackers: seq<bytes>, name: Option<bytes>): Result<MagnetLink, MagnetError> {
    if hash.None? then Err(MissingXt) else Ok(MagnetLink(hash.value, trackers, name))
  }

  // A link with these parameters, in whatever order they stand, says: the last well-formed hash, without which it is
  // refused; the trackers that decode, in order; the last name that decodes, if any.
  lemma LinkSays(params: seq<bytes>)
    requires AreParams(params)
    ensures var hashes := Hashes(Values(params, XtKey()));
            var names := Decoded(Values(params, DnKey()));
            Parse(Ascii("magnet:?") + Join(params))
            == LinkOf(Last(hashes), Decoded(Values(params, TrKey())), Last(names))
  {
    hide ApplyPairs, Split, Join, Values, Hashes, Decoded;
    KeysAre();
    var url := Ascii("magnet:?") + Join(params);
    assert url[..|MAGNET|] == MAGNET && url[|MAGNET|..] == Join(params);
    JoinSplits(params);
    StepsAdd(Found(None, [], None), params);
    assert [] + Decoded(Values(params, TrKey())) == Decoded(Values(params, TrKey()));
  }

  // Every text that starts with "magnet:?" is such a link, and no other text is a link at all.
  lemma EveryLink(url: bytes) returns (params: seq<bytes>)
    ensures Ascii("magnet:?") <= url ==> AreParams(params) && url == Ascii("magnet:?") + Join(params)
    ensures !(Ascii("magnet:?") <= url) ==> Parse(url) == Err(InvalidPrefix)
  {
    hide ApplyPairs, Split;
    KeysAre();
    StartsWithIsPrefix(url, MAGNET);
    params := [];
    if MAGNET <= url {
      params := Split(url[|MAGNET|..], AMPERSAND);
      SplitJoins(url[|MAGNET|..]);
    }
  }

  // --- links that are written ---

  function TrackersText(trackers: seq<bytes>): bytes {
    if trackers == [] then [] else Ascii("&tr=") + UrlEncode(trackers[0]) + TrackersText(trackers[1..])
  }

  // The text `add_torrent_internal` makes of a bare hash.
  lemma {:induction false} ExpansionText(hash: bytes, trackers: seq<bytes>)
    ensures Expand(hash, trackers) == Ascii("magnet:?xt=urn:btih:") + hash + TrackersText(trackers)
  {
    hide TrackerParams, UrlEncode;
    assert Ascii("magnet:?xt=urn:btih:") == MAGNET + XT + BTIH;
    TrackersAreText(trackers);
  }

  lemma {:induction false} TrackersAreText(trackers: seq<bytes>)
    ensures TrackerParams(trackers) == TrackersText(trackers)
  {
    hide UrlEncode;
    assert Ascii("&tr=") == [AMPERSAND] + TR;
    if trackers != [] {
      TrackersAreText(trackers[1..]);
    }
  }

  function WrittenLink(hash: bytes, name: bytes, trackers: seq<bytes>): bytes {
    Ascii("magnet:?xt=urn:btih:") + ToHex(hash) + Ascii("&dn=") + UrlEncode(name) + TrackersText(trackers)
  }

  lemma WrittenLinkSplits(hash: bytes, name: bytes, trackers: seq<bytes>)
    requires AMPERSAND !in XT + BTIH + ToHex(hash)
    ensures StartsWith(WrittenLink(hash, name, trackers), MAGNET)
    ensures Split(WrittenLink(hash, name, trackers)[|MAGNET|..], AMPERSAND)
            == [XT + BTIH + ToHex(hash)] + ([DN + UrlEncode(name)] + TrackerPairs(trackers))
  {
    hide Split, ToHex, UrlEncode, TrackersText, TrackerParams, TrackerPairs;
    var first, second, rest := XT + BTIH + ToHex(hash), DN + UrlEncode(name), TrackerParams(trackers);
    TrackersAreText(trackers);
    var url := WrittenLink(hash, name, trackers);
    assert url == MAGNET + (first + [AMPERSAND] + (second + rest)) by {
      assert Ascii("magnet:?xt=urn:btih:") == MAGNET + XT + BTIH && Ascii("&dn=") == [AMPERSAND] + DN;
    }
    assert url[..|MAGNET|] == MAGNET && url[|MAGNET|..] == first + [AMPERSAND] + (second + rest);
    SplitFirst(first, second + rest, AMPERSAND);
    EncodedHasNoAmpersand(name);
    SplitQuery(second, trackers);
  }

  // A link written with a hash, a name and trackers gives all three back, with '+' for spaces.
  lemma WrittenLinkParses(hash: bytes, name: bytes, trackers: seq<bytes>)
    requires |hash| == 20
    requires ValidUtf8(name) && forall t :: t in trackers ==> ValidUtf8(t)
    ensures Parse(WrittenLink(hash, name, trackers))
            == Ok(MagnetLink(hash, Received(trackers), Some(PlusForSpace(name))))
  {
    hide ApplyPairs, Split, ToHex, UrlEncode, TrackerPairs, ValidUtf8, ApplyPair, WrittenLink, StartsWith;
    hide Received, PlusForSpace;
    PrefixFits(WrittenLink(hash, name, trackers), MAGNET);
    var none, f := Found(None, [], None), Found(Some(hash), [], None);
    HashArrives(none, hash);
    WrittenLinkSplits(hash, name, trackers);
    NameArrives(f, name);
    ApplyCons(none, XT + BTIH + ToHex(hash), [DN + UrlEncode(name)] + TrackerPairs(trackers));
    ApplyCons(f, DN + UrlEncode(name), TrackerPairs(trackers));
    TrackersArrive(f.(name := Some(PlusForSpace(name))), trackers);
    assert [] + Received(trackers) == Received(trackers);
  }

  lemma HashArrives(f: Found, hash: bytes)
    requires |hash| == 20
    ensures ApplyPair(f, XT + BTIH + ToHex(hash)) == f.(infoHash := Some(hash))
    ensures AMPERSAND !in XT + BTIH + ToHex(hash)
  {
    hide ToHex, UrlDecode, HexBytes;
    HexBack(hash);
    var text := ToHex(hash);
    forall i | 0 <= i < |text| ensures text[i] != AMPERSAND {
      assert ParseHexDigit(AMPERSAND) == 255;
    }
    var first := XT + BTIH + text;
    assert first[..|XT|] == XT && first[|XT|..] == BTIH + text;
    assert (BTIH + text)[..|BTIH|] == BTIH && (BTIH + text)[|BTIH|..] == text;
  }

  lemma NameArrives(f: Found, name: bytes)
    requires ValidUtf8(name)
    ensures ApplyPair(f, DN + UrlEncode(name)) == f.(name := Some(PlusForSpace(name)))
  {
    hide ValidUtf8, PercentDecode, UrlEncode, DecodeHex, PlusForSpace;
    var pair := DN + UrlEncode(name);
    PercentRoundTrip(name);
    PlusKeepsUtf8(name);
    assert pair[|DN|..] == UrlEncode(name) && pair[..|DN|] == DN;
    assert pair[0] == DN[0];
    assert pair[..|XT|][0] == pair[0] && pair[..|TR|][0] == pair[0];
  }
}
