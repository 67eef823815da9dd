// What the bencode reader and writer promise each other.
module BencodingProofs {
  import opened Prelude
  import opened Decimal
  import opened Bencoding
  import Utf8

  // --- maps ---

  lemma {:induction false} GetInsert(es: seq<Entry>, key: bytes, value: Bencode, k: bytes)
    requires Ascending(es)
    ensures Get(Insert(es, key, value), k) == if k == key then Some(value) else Get(es, k)
  {
    if es != [] {
      assert Ascending(es[1..]);
      LessTrichotomy(key, es[0].key);
      GetInsert(es[1..], key, value, k);
    }
  }

  lemma {:induction false} InsertMembers(es: seq<Entry>, key: bytes, value: Bencode)
    ensures forall e :: e in Insert(es, key, value) ==> e in es || e == Entry(key, value)
  {
    if es != [] {
      InsertMembers(es[1..], key, value);
    }
  }

  lemma AscendingCons(e: Entry, es: seq<Entry>)
    requires Ascending(es) && forall x :: x in es ==> Less(e.key, x.key)
    ensures Ascending([e] + es)
  {
    var all := [e] + es;
    forall i, j | 0 <= i < j < |all| ensures Less(all[i].key, all[j].key) {
      if i == 0 {
        assert all[j] in es;
      }
    }
  }

  lemma {:induction false} InsertAscending(es: seq<Entry>, key: bytes, value: Bencode)
    requires Ascending(es)
    ensures Ascending(Insert(es, key, value))
  {
    if es != [] {
      var rest := es[1..];
      assert Ascending(rest);
      LessTrichotomy(key, es[0].key);
      forall x | x in rest ensures Less(es[0].key, x.key) {}
      if es[0].key == key {
        AscendingCons(Entry(key, value), rest);
      } else if Less(key, es[0].key) {
        forall x | x in es ensures Less(key, x.key) {
          if x != es[0] {
            LessTransitive(key, es[0].key, x.key);
          }
        }
        AscendingCons(Entry(key, value), es);
      } else {
        InsertAscending(rest, key, value);
        InsertMembers(rest, key, value);
        AscendingCons(es[0], Insert(rest, key, value));
      }
    }
  }

  // A parsed dictionary is a map: its keys ascend, and a duplicate key keeps its last value.
  lemma {:induction false} CollectIsLastWins(es: seq<Entry>)
    ensures Ascending(Collect(es))
    ensures forall k :: Get(Collect(es), k) == GetLast(es, k)
  {
    if es != [] {
      var init, last := es[..|es| - 1], es[|es| - 1];
      CollectIsLastWins(init);
      InsertAscending(Collect(init), last.key, last.value);
      forall k ensures Get(Collect(es), k) == GetLast(es, k) {
        GetInsert(Collect(init), last.key, last.value, k);
      }
    }
  }

  lemma {:induction false} InsertAtEnd(es: seq<Entry>, e: Entry)
    requires forall x :: x in es ==> Less(x.key, e.key)
    ensures Insert(es, e.key, e.value) == es + [e]
  {
    if es != [] {
      assert es[0] in es;
      LessTrichotomy(es[0].key, e.key);
      InsertAtEnd(es[1..], e);
      assert es == [es[0]] + es[1..];
    }
  }

  lemma {:induction false} CollectOfAscending(es: seq<Entry>)
    requires Ascending(es)
    ensures Collect(es) == es
  {
    if es != [] {
      var init := es[..|es| - 1];
      CollectOfAscending(init);
      InsertAtEnd(init, es[|es| - 1]);
      assert es == init + [es[|es| - 1]];
    }
  }

  // Ascending entries are determined by the lookups they answer.
  lemma {:induction false} GetHasKey(es: seq<Entry>, k: bytes)
    ensures Get(es, k).Some? <==> exists e :: e in es && e.key == k
  {
    if es != [] {
      GetHasKey(es[1..], k);
      assert es == [es[0]] + es[1..];
    }
  }

  // --- decoding what was encoded ---

  lemma FindHit(s: bytes, b: byte, from: nat, k: nat)
    requires from <= k < |s| && s[k] == b
    requires forall i :: from <= i < k ==> s[i] != b
    ensures Find(s, b, from) == k
  {
  }

  lemma IntTextIsAscii(i: int)
    ensures forall j :: 0 <= j < |IntText(i)| ==> IntText(i)[j] < 0x80 && IntText(i)[j] != CHAR_E
  {
  }

  lemma RoundTripInt(i: int, t: bytes)
    requires IsI64(i)
    ensures Parse(Encode(Int(i)) + t) == Ok((Int(i), |Encode(Int(i))|))
  {
    var text := IntText(i);
    var s := Encode(Int(i)) + t;
    assert s == [CHAR_I] + text + [CHAR_E] + t;
    IntTextIsAscii(i);
    FindHit(s, CHAR_E, 1, 1 + |text|);
    assert s[1..1 + |text|] == text;
    Utf8.AsciiIsValid(text);
    ParseIntText(i);
  }

  lemma RoundTripString(x: bytes, t: bytes)
    requires |x| < U64
    ensures Parse(EncodeString(x) + t) == Ok((ByteString(x), |EncodeString(x)|))
  {
    hide NatText, ParseUsize, Utf8.ValidUtf8;
    var text := NatText(|x|);
    var s := EncodeString(x) + t;
    assert s == text + [COLON] + x + t;
    FindHit(s, COLON, 0, |text|);
    assert s[..|text|] == text;
    Utf8.AsciiIsValid(text);
    ParseNatText(|x|);
    assert s[|text| + 1..|text| + 1 + |x|] == x;
    assert IsDigit(s[0]);
  }

  lemma {:induction false} EncodeFirstByte(v: Bencode)
    ensures Encode(v) != [] && Encode(v)[0] != CHAR_E
  {
    if v.ByteString? {
      assert IsDigit(Encode(v)[0]);
    }
  }

  // Every valid value survives: reading its encoding, whatever follows, gives it back and takes
  // exactly its bytes.
  lemma {:induction false} RoundTrip(v: Bencode, t: bytes)
    requires Valid(v)
    ensures Parse(Encode(v) + t) == Ok((v, |Encode(v)|))
    decreases v, 0
  {
    hide ParseItems, ParseEntries, ParseInteger, ParseString, EncodeItems, EncodeEntries, Collect;
    match v
    case Int(i) => RoundTripInt(i, t);
    case ByteString(x) => RoundTripString(x, t);
    case List(items) =>
      RoundTripItems(items, t);
      var s := Encode(v) + t;
      assert s[0] == CHAR_L && s[1..] == EncodeItems(items) + [CHAR_E] + t;
    case Dict(es) =>
      RoundTripEntries(es, t);
      CollectOfAscending(es);
      var s := Encode(v) + t;
      assert s[0] == CHAR_D && s[1..] == EncodeEntries(es) + [CHAR_E] + t;
  }

  lemma {:induction false} RoundTripItems(items: seq<Bencode>, t: bytes)
    requires forall x :: x in items ==> Valid(x)
    ensures ParseItems(EncodeItems(items) + [CHAR_E] + t) == Ok((items, |EncodeItems(items)| + 1))
    decreases items, 1
  {
    hide Parse, Encode;
    var s := EncodeItems(items) + [CHAR_E] + t;
    if items != [] {
      var v, rest := items[0], EncodeItems(items[1..]) + [CHAR_E] + t;
      RoundTrip(v, rest);
      RoundTripItems(items[1..], t);
      assert s == Encode(v) + rest;
      EncodeFirstByte(v);
      assert s[|Encode(v)|..] == rest;
      assert items == [v] + items[1..];
    }
  }

  lemma RoundTripEntry(e: Entry, t: bytes)
    requires |e.key| < U64 && Valid(e.value)
    ensures ParseEntry(EncodeEntry(e) + t) == Ok((e, |EncodeEntry(e)|))
    ensures EncodeEntry(e) != [] && EncodeEntry(e)[0] != CHAR_E
    decreases e, 1
  {
    hide Parse, Encode;
    var key, value := EncodeString(e.key), Encode(e.value);
    assert IsDigit(key[0]);
    RoundTripString(e.key, value + t);
    RoundTrip(e.value, t);
    assert key + value + t == key + (value + t);
    assert (key + value + t)[|key|..] == value + t;
  }

  lemma {:induction false} RoundTripEntries(es: seq<Entry>, t: bytes)
    requires forall e :: e in es ==> |e.key| < U64 && Valid(e.value)
    ensures ParseEntries(EncodeEntries(es) + [CHAR_E] + t) == Ok((es, |EncodeEntries(es)| + 1))
    decreases es, 1
  {
    hide Parse, ParseEntry, Encode, EncodeEntry;
    var s := EncodeEntries(es) + [CHAR_E] + t;
    if es != [] {
      var e, rest := es[0], EncodeEntries(es[1..]) + [CHAR_E] + t;
      RoundTripEntry(e, rest);
      RoundTripEntries(es[1..], t);
      assert s == EncodeEntry(e) + rest;
      assert s[|EncodeEntry(e)|..] == rest;
      assert es == [e] + es[1..];
    }
  }

  // The same at any offset of any input, as the program reads it.
  lemma RoundTripInContext(p: bytes, v: Bencode, t: bytes)
    requires Valid(v)
    ensures Parse((p + Encode(v) + t)[|p|..]) == Ok((v, |Encode(v)|))
  {
    hide Parse, Encode;
    RoundTrip(v, t);
    assert (p + Encode(v) + t)[|p|..] == Encode(v) + t;
  }

  // Encodings are unambiguous: no encoding is a prefix of another value's encoding.
  lemma EncodingsArePrefixFree(v: Bencode, s: bytes, w: Bencode, t: bytes)
    requires Valid(v) && Valid(w)
    requires Encode(v) + s == Encode(w) + t
    ensures v == w && s == t
  {
    hide Parse, Encode;
    RoundTrip(v, s);
    RoundTrip(w, t);
    assert (Encode(v) + s)[|Encode(v)|..] == s;
    assert (Encode(w) + t)[|Encode(w)|..] == t;
  }

  // --- a successful read depends only on what it consumes ---

  lemma FindStable(s: bytes, b: byte, from: nat, n: nat, t: bytes)
    requires from <= |s| && Find(s, b, from) < n <= |s|
    ensures Find(s[..n] + t, b, from) == Find(s, b, from)
  {
    var k := Find(s, b, from);
    FindHit(s[..n] + t, b, from, k);
  }

  lemma LocalLeaf(s: bytes, t: bytes)
    requires s != [] && Parse(s).Ok? && s[0] != CHAR_L && s[0] != CHAR_D
    ensures Parse(s[..Parse(s).value.1] + t) == Parse(s)
  {
    var n := Parse(s).value.1;
    var u := s[..n] + t;
    if s[0] == CHAR_I {
      FindStable(s, CHAR_E, 1, n, t);
      assert u[1..n - 1] == s[1..n - 1];
    } else {
      var colon := Find(s, COLON, 0);
      FindStable(s, COLON, 0, n, t);
      assert u[..colon] == s[..colon];
      assert u[colon + 1..n] == s[colon + 1..n];
    }
  }

  lemma {:induction false} ParseIsLocal(s: bytes, t: bytes)
    requires Parse(s).Ok?
    ensures Parse(s[..Parse(s).value.1] + t) == Parse(s)
    decreases |s|, 0
  {
    hide ParseItems, ParseEntries, ParseInteger, ParseString, Collect;
    var n := Parse(s).value.1;
    var u := s[..n] + t;
    if s[0] == CHAR_L {
      ParseItemsIsLocal(s[1..], t);
      assert u[1..] == s[1..][..n - 1] + t;
    } else if s[0] == CHAR_D {
      ParseEntriesIsLocal(s[1..], t);
      assert u[1..] == s[1..][..n - 1] + t;
    } else {
      LocalLeaf(s, t);
    }
  }

  lemma {:induction false} ParseItemsIsLocal(s: bytes, t: bytes)
    requires ParseItems(s).Ok?
    ensures ParseItems(s[..ParseItems(s).value.1] + t) == ParseItems(s)
    decreases |s|, 1
  {
    hide Parse;
    if s[0] != CHAR_E {
      var n, all := Parse(s).value.1, ParseItems(s).value.1;
      var u := s[..all] + t;
      ParseIsLocal(s, s[n..all] + t);
      assert u == s[..n] + (s[n..all] + t);
      ParseItemsIsLocal(s[n..], t);
      assert u[n..] == s[n..][..all - n] + t;
    }
  }

  lemma ParseEntryIsLocal(s: bytes, t: bytes)
    requires ParseEntry(s).Ok?
    ensures ParseEntry(s[..ParseEntry(s).value.1] + t) == ParseEntry(s)
    decreases |s|, 1
  {
    hide Parse;
    var n, all := Parse(s).value.1, ParseEntry(s).value.1;
    var u := s[..all] + t;
    ParseIsLocal(s, s[n..all] + t);
    assert u == s[..n] + (s[n..all] + t);
    ParseIsLocal(s[n..], t);
    assert u[n..] == s[n..][..all - n] + t;
  }

  lemma {:induction false} ParseEntriesIsLocal(s: bytes, t: bytes)
    requires ParseEntries(s).Ok?
    ensures ParseEntries(s[..ParseEntries(s).value.1] + t) == ParseEntries(s)
    decreases |s|, 2
  {
    hide Parse, ParseEntry;
    if s[0] != CHAR_E {
      var n, all := ParseEntry(s).value.1, ParseEntries(s).value.1;
      var u := s[..all] + t;
      ParseEntryIsLocal(s, s[n..all] + t);
      assert u == s[..n] + (s[n..all] + t);
      ParseEntriesIsLocal(s[n..], t);
      assert u[n..] == s[n..][..all - n] + t;
    }
  }

  // --- re-encoding what was decoded ---

  // Canonical integers and lengths, and strictly ascending dictionary keys, at every level.
  predicate Canonical(s: bytes)
    requires Parse(s).Ok?
    decreases |s|, 0
  {
    if s[0] == CHAR_I then CanonicalInt(s[1..Parse(s).value.1 - 1])
    else if s[0] == CHAR_L then CanonicalItems(s[1..])
    else if s[0] == CHAR_D then CanonicalEntries(s[1..]) && Ascending(ParseEntries(s[1..]).value.0)
    else CanonicalNat(s[..Find(s, COLON, 0)])
  }

  predicate CanonicalItems(s: bytes)
    requires ParseItems(s).Ok?
    decreases |s|, 1
  {
    s[0] == CHAR_E || (Canonical(s) && CanonicalItems(s[Parse(s).value.1..]))
  }

  predicate CanonicalEntry(s: bytes)
    requires ParseEntry(s).Ok?
    decreases |s|, 1
  {
    Canonical(s) && Canonical(s[Parse(s).value.1..])
  }

  predicate CanonicalEntries(s: bytes)
    requires ParseEntries(s).Ok?
    decreases |s|, 2
  {
    s[0] == CHAR_E || (CanonicalEntry(s) && CanonicalEntries(s[ParseEntry(s).value.1..]))
  }

  lemma {:induction false} CollectMembers(es: seq<Entry>)
    ensures forall e :: e in Collect(es) ==> e in es
  {
    if es != [] {
      var init, last := es[..|es| - 1], es[|es| - 1];
      CollectMembers(init);
      InsertMembers(Collect(init), last.key, last.value);
    }
  }

  // Whatever the input, a parsed value is one the writer can write.
  lemma {:induction false} ParsedIsValid(s: bytes)
    requires Parse(s).Ok?
    ensures Valid(Parse(s).value.0)
    decreases |s|, 0
  {
    hide ParseItems, ParseEntries;
    if s[0] == CHAR_L {
      ParsedItemsAreValid(s[1..]);
    } else if s[0] == CHAR_D {
      ParsedEntriesAreValid(s[1..]);
      CollectIsLastWins(ParseEntries(s[1..]).value.0);
      CollectMembers(ParseEntries(s[1..]).value.0);
    }
  }

  lemma {:induction false} ParsedItemsAreValid(s: bytes)
    requires ParseItems(s).Ok?
    ensures forall x :: x in ParseItems(s).value.0 ==> Valid(x)
    decreases |s|, 1
  {
    hide Parse;
    if s[0] != CHAR_E {
      ParsedIsValid(s);
      ParsedItemsAreValid(s[Parse(s).value.1..]);
    }
  }

  lemma {:induction false} ParsedEntriesAreValid(s: bytes)
    requires ParseEntries(s).Ok?
    ensures forall e :: e in ParseEntries(s).value.0 ==> |e.key| < U64 && Valid(e.value)
    decreases |s|, 2
  {
    hide Parse;
    if s[0] != CHAR_E {
      ParsedIsValid(s);
      ParsedIsValid(s[Parse(s).value.1..]);
      ParsedEntriesAreValid(s[ParseEntry(s).value.1..]);
    }
  }

  lemma ReencodeInt(s: bytes)
    requires Parse(s).Ok? && s[0] == CHAR_I
    ensures Encode(Parse(s).value.0) == s[..Parse(s).value.1] <==> Canonical(s)
  {
    hide Utf8.ValidUtf8, ParseI64, CanonicalInt, IntText;
    var (v, n) := Parse(s).value;
    var text := s[1..n - 1];
    CanonicalIntExactly(text);
    assert s[..n] == [CHAR_I] + text + [CHAR_E];
    assert Encode(v)[1..|Encode(v)| - 1] == IntText(v.i);
    assert s[..n][1..n - 1] == text;
  }

  lemma ReencodeString(s: bytes)
    requires Parse(s).Ok? && IsDigit(s[0])
    ensures Encode(Parse(s).value.0) == s[..Parse(s).value.1] <==> Canonical(s)
  {
    hide Utf8.ValidUtf8, CanonicalNat, NatText;
    var (v, n) := Parse(s).value;
    var colon := Find(s, COLON, 0);
    var text := s[..colon];
    assert s[..n] == text + ([COLON] + v.s);
    CanonicalNatExactly(text);
    var written := NatText(|v.s|);
    assert Encode(v) == written + ([COLON] + v.s);
    assert Encode(v)[..|Encode(v)| - 1 - |v.s|] == written;
    assert s[..n][..n - 1 - |v.s|] == text;
  }

  // Re-encoding a parsed value gives back exactly the bytes it was read from if and only if those bytes
  // were canonical.
  lemma {:induction false} ReencodeExactly(s: bytes)
    requires Parse(s).Ok?
    ensures Encode(Parse(s).value.0) == s[..Parse(s).value.1] <==> Canonical(s)
    decreases |s|, 0
  {
    hide ParseItems, ParseEntries, ParseInteger, ParseString, EncodeItems, EncodeEntries, Collect,
      CanonicalItems, CanonicalEntries;
    var (v, n) := Parse(s).value;
    if s[0] == CHAR_L {
      ReencodeItems(s[1..]);
      var body := EncodeItems(v.items) + [CHAR_E];
      assert Encode(v) == [CHAR_L] + body;
      assert s[..n] == [CHAR_L] + s[1..][..n - 1];
      assert Encode(v)[1..] == body && s[..n][1..] == s[1..][..n - 1];
    } else if s[0] == CHAR_D {
      ReencodeDict(s[1..]);
      var body := EncodeEntries(v.entries) + [CHAR_E];
      assert Encode(v) == [CHAR_D] + body;
      assert s[..n] == [CHAR_D] + s[1..][..n - 1];
      assert Encode(v)[1..] == body && s[..n][1..] == s[1..][..n - 1];
    } else if s[0] == CHAR_I {
      ReencodeInt(s);
    } else {
      ReencodeString(s);
    }
  }

  lemma {:induction false} ReencodeItems(s: bytes)
    requires ParseItems(s).Ok?
    ensures EncodeItems(ParseItems(s).value.0) + [CHAR_E] == s[..ParseItems(s).value.1] <==> CanonicalItems(s)
    decreases |s|, 1
  {
    hide Parse, Encode, Canonical;
    var (vs, n) := ParseItems(s).value;
    if s[0] != CHAR_E {
      var (v, k) := Parse(s).value;
      var tail := EncodeItems(vs[1..]) + [CHAR_E];
      ReencodeExactly(s);
      ReencodeItems(s[k..]);
      assert vs[1..] == ParseItems(s[k..]).value.0;
      assert EncodeItems(vs) + [CHAR_E] == Encode(v) + tail;
      PrefixInParts(s, k, n, Encode(v), tail);
      if Encode(v) + tail == s[..n] {
        ParsedIsValid(s);
        PrefixAndRest(s, n, Encode(v), tail);
        RoundTrip(v, tail + s[n..]);
      }
    }
  }

  lemma {:induction false} ReencodeEntry(s: bytes)
    requires ParseEntry(s).Ok?
    ensures EncodeEntry(ParseEntry(s).value.0) == s[..ParseEntry(s).value.1] <==> CanonicalEntry(s)
    decreases |s|, 1
  {
    hide Parse, Canonical;
    var (e, n) := ParseEntry(s).value;
    var k := Parse(s).value.1;
    var key, value := EncodeString(e.key), Encode(e.value);
    ReencodeExactly(s);
    ReencodeExactly(s[k..]);
    assert Encode(ByteString(e.key)) == key;
    PrefixInParts(s, k, n, key, value);
    if key + value == s[..n] {
      ParsedIsValid(s);
      PrefixAndRest(s, n, key, value);
      RoundTripString(e.key, value + s[n..]);
    }
  }

  lemma {:induction false} ReencodeEntries(s: bytes)
    requires ParseEntries(s).Ok?
    ensures EncodeEntries(ParseEntries(s).value.0) + [CHAR_E] == s[..ParseEntries(s).value.1]
       <==> CanonicalEntries(s)
    decreases |s|, 2
  {
    hide Parse, ParseEntry, EncodeEntry, CanonicalEntry;
    var (es, n) := ParseEntries(s).value;
    if s[0] != CHAR_E {
      var (e, k) := ParseEntry(s).value;
      var tail := EncodeEntries(es[1..]) + [CHAR_E];
      ReencodeEntry(s);
      ReencodeEntries(s[k..]);
      assert es[1..] == ParseEntries(s[k..]).value.0;
      assert EncodeEntries(es) + [CHAR_E] == EncodeEntry(e) + tail;
      PrefixInParts(s, k, n, EncodeEntry(e), tail);
      if EncodeEntry(e) + tail == s[..n] {
        ParsedEntriesAreValid(s);
        PrefixAndRest(s, n, EncodeEntry(e), tail);
        RoundTripEntry(e, tail + s[n..]);
      }
    }
  }

  lemma EntriesDetermined(s: bytes, written: seq<Entry>)
    requires ParseEntries(s).Ok?
    requires forall e :: e in written ==> |e.key| < U64 && Valid(e.value)
    requires EncodeEntries(written) + [CHAR_E] == s[..ParseEntries(s).value.1]
    ensures ParseEntries(s).value.0 == written
  {
    hide ParseEntries, EncodeEntries;
    var n := ParseEntries(s).value.1;
    RoundTripEntries(written, s[n..]);
    assert s == s[..n] + s[n..];
  }

  lemma ReencodeDict(s: bytes)
    requires ParseEntries(s).Ok?
    ensures EncodeEntries(Collect(ParseEntries(s).value.0)) + [CHAR_E] == s[..ParseEntries(s).value.1]
       <==> CanonicalEntries(s) && Ascending(ParseEntries(s).value.0)
    decreases |s|, 3
  {
    hide ParseEntries, EncodeEntries, Collect, CanonicalEntries;
    var (es, n) := ParseEntries(s).value;
    ReencodeEntries(s);
    if Ascending(es) {
      CollectOfAscending(es);
    }
    CollectIsLastWins(es);
    if EncodeEntries(Collect(es)) + [CHAR_E] == s[..n] {
      ParsedEntriesAreValid(s);
      CollectMembers(es);
      EntriesDetermined(s, Collect(es));
    }
  }

  // --- the info scanner against the decoder ---

  lemma InfoKeySpelling(key: bytes)
    requires |key| < U64
    ensures EncodeString(key) == ENCODED_INFO_KEY <==> key == INFO_KEY
  {
    assert NatText(4) == [52];
    assert EncodeString(INFO_KEY) == ENCODED_INFO_KEY;
    if EncodeString(key) == ENCODED_INFO_KEY {
      EncodingsArePrefixFree(ByteString(key), [], ByteString(INFO_KEY), []);
    }
  }

  // The raw entries whose keys are spelled canonically, "4:info" and not "04:info".
  function CanonicallyKeyed(s: bytes): seq<Entry>
    requires ParseEntries(s).Ok?
  {
    if s[0] == CHAR_E then []
    else
      var (e, n) := ParseEntry(s).value;
      (if Canonical(s) then [e] else []) + CanonicallyKeyed(s[n..])
  }

  // The scanner returns the raw bytes of the first entry under a canonically spelled "info".
  lemma {:induction false} ScannerFindsFirst(s: bytes)
    requires ParseEntries(s).Ok?
    ensures var first := Get(CanonicallyKeyed(s), INFO_KEY);
            match ScanInfo(s)
            case None => first.None?
            case Some(x) => first.Some? && Parse(x) == Ok((first.value, |x|))
  {
    hide Parse, ParseEntry, Canonical, ScanInfo;
    ScanUnfold(s);
    if s[0] != CHAR_E {
      var (e, t) := ParseEntry(s).value;
      var n := Parse(s).value.1;
      SpelledExactly(s);
      GetFirst(e, CanonicallyKeyed(s[t..]), INFO_KEY);
      NothingFirst(CanonicallyKeyed(s[t..]));
      ScannedValue(s);
      ScannerFindsFirst(s[t..]);
    }
  }

  // One round of the scan, in terms of the entry that the parser reads there.
  lemma ScanUnfold(s: bytes)
    requires s != []
    ensures s[0] == CHAR_E ==> ScanInfo(s) == None
    ensures ParseEntry(s).Ok? && s[0] != CHAR_E ==>
              && Parse(s).Ok? && Parse(s).value.1 <= ParseEntry(s).value.1
              && Parse(s).value.0 == ByteString(ParseEntry(s).value.0.key)
              && ScanInfo(s) == if s[..Parse(s).value.1] == ENCODED_INFO_KEY
                                then Some(s[Parse(s).value.1..ParseEntry(s).value.1])
                                else ScanInfo(s[ParseEntry(s).value.1..])
  {
    hide Parse, ParseEntry;
    if ParseEntry(s).Ok? {
      EntryParts(s);
    }
  }

  lemma EntryParts(s: bytes)
    requires ParseEntry(s).Ok?
    ensures var (e, t) := ParseEntry(s).value;
            && Parse(s).Ok? && Parse(s).value.0 == ByteString(e.key)
            && var n := Parse(s).value.1;
            && n <= t && Parse(s[n..]) == Ok((e.value, t - n))
  {
    hide Parse;
  }

  // The scanned slice is the entry's value and nothing else.
  lemma ScannedValue(s: bytes)
    requires ParseEntry(s).Ok?
    ensures var (e, t), n := ParseEntry(s).value, Parse(s).value.1;
            n <= t && Parse(s[n..t]) == Ok((e.value, t - n))
  {
    hide Parse, ParseEntry;
    EntryParts(s);
    var n, t := Parse(s).value.1, ParseEntry(s).value.1;
    ParseIsLocal(s[n..], []);
    assert s[n..][..t - n] + [] == s[n..t];
  }

  lemma NothingFirst(es: seq<Entry>)
    ensures [] + es == es
  {
  }

  lemma GetFirst(e: Entry, es: seq<Entry>, k: bytes)
    ensures Get([e] + es, k) == if e.key == k then Some(e.value) else Get(es, k)
  {
    assert ([e] + es)[1..] == es;
  }

  lemma SpelledExactly(s: bytes)
    requires Parse(s).Ok? && Parse(s).value.0.ByteString?
    ensures s[..Parse(s).value.1] == ENCODED_INFO_KEY <==> Parse(s).value.0.s == INFO_KEY && Canonical(s)
  {
    hide Parse, Canonical;
    var (k, n) := Parse(s).value;
    ReencodeExactly(s);
    ParsedIsValid(s);
    assert Encode(k) == EncodeString(k.s);
    InfoKeySpelling(k.s);
    if s[..n] == ENCODED_INFO_KEY {
      InfoKeySpelling(INFO_KEY);
      RoundTripString(INFO_KEY, s[n..]);
      assert s == ENCODED_INFO_KEY + s[n..];
    }
  }

  lemma {:induction false} FirstAndLast(es: seq<Entry>, k: bytes)
    ensures Get(es, k).Some? <==> GetLast(es, k).Some?
    ensures GetLast(es, k).Some? ==> exists e :: e in es && e.key == k && GetLast(es, k) == Some(e.value)
  {
    GetHasKey(es, k);
    if es != [] {
      var init, last := es[..|es| - 1], es[|es| - 1];
      FirstAndLast(init, k);
      GetHasKey(init, k);
      assert es == init + [last];
    }
  }

  predicate DistinctKeys(es: seq<Entry>) {
    forall i, j :: 0 <= i < j < |es| ==> es[i].key != es[j].key
  }

  lemma {:induction false} GetMember(es: seq<Entry>, e: Entry)
    requires DistinctKeys(es) && e in es
    ensures Get(es, e.key) == Some(e.value)
  {
    var j :| 0 <= j < |es| && es[j] == e;
    if j > 0 {
      assert es[0].key != es[j].key;
      assert es[1..][j - 1] == e;
      GetMember(es[1..], e);
    }
  }

  lemma DistinctFirstIsLast(es: seq<Entry>, k: bytes)
    requires DistinctKeys(es)
    ensures Get(es, k) == GetLast(es, k)
  {
    FirstAndLast(es, k);
    if GetLast(es, k).Some? {
      var e :| e in es && e.key == k && GetLast(es, k) == Some(e.value);
      GetMember(es, e);
    }
  }

  // The scanner and the decoder say the same about "info".
  predicate InfoAgrees(s: bytes)
    requires Parse(s).Ok? && s[0] == CHAR_D
  {
    match FindInfo(s)
    case None => Get(Parse(s).value.0.entries, INFO_KEY).None?
    case Some(x) => (Parse(x).Ok? && Parse(x).value.1 == |x|
                     && Get(Parse(s).value.0.entries, INFO_KEY) == Some(Parse(x).value.0))
  }

  // On every input that decodes to a dictionary they agree exactly when the first entry under a canonically
  // spelled "info" has the value of the last entry under "info", however that is spelled.
  lemma ScannerAgreesExactly(s: bytes)
    requires Parse(s).Ok? && s[0] == CHAR_D
    ensures InfoAgrees(s)
       <==> Get(CanonicallyKeyed(s[1..]), INFO_KEY) == GetLast(ParseEntries(s[1..]).value.0, INFO_KEY)
  {
    hide ParseEntries, ScanInfo, Collect, CanonicallyKeyed;
    ScannerFindsFirst(s[1..]);
    CollectIsLastWins(ParseEntries(s[1..]).value.0);
  }

  lemma {:induction false} AllCanonicallyKeyed(s: bytes)
    requires ParseEntries(s).Ok? && |CanonicallyKeyed(s)| == |ParseEntries(s).value.0|
    ensures CanonicallyKeyed(s) == ParseEntries(s).value.0
  {
    hide Parse, Canonical, ParseEntry;
    if s[0] != CHAR_E {
      FewerCanonicallyKeyed(s[ParseEntry(s).value.1..]);
      AllCanonicallyKeyed(s[ParseEntry(s).value.1..]);
    }
  }

  lemma {:induction false} FewerCanonicallyKeyed(s: bytes)
    requires ParseEntries(s).Ok?
    ensures |CanonicallyKeyed(s)| <= |ParseEntries(s).value.0|
  {
    hide Parse, Canonical, ParseEntry;
    if s[0] != CHAR_E {
      FewerCanonicallyKeyed(s[ParseEntry(s).value.1..]);
    }
  }

  // In particular on every input whose top-level keys are distinct and all spelled canonically.
  lemma ScannerAgreesOnDistinctKeys(s: bytes)
    requires Parse(s).Ok? && s[0] == CHAR_D
    requires |CanonicallyKeyed(s[1..])| == |ParseEntries(s[1..]).value.0|
    requires DistinctKeys(ParseEntries(s[1..]).value.0)
    ensures InfoAgrees(s)
  {
    hide ParseEntries, InfoAgrees, CanonicallyKeyed, DistinctKeys;
    AllCanonicallyKeyed(s[1..]);
    ScannerAgreesExactly(s);
    DistinctFirstIsLast(ParseEntries(s[1..]).value.0, INFO_KEY);
  }

  // On the encoding of a dictionary the slice is exactly the encoding of its info value.
  lemma FindInfoOfEncoded(es: seq<Entry>, t: bytes)
    requires Valid(Dict(es))
    ensures FindInfo(Encode(Dict(es)) + t)
         == match Get(es, INFO_KEY) case None => None case Some(v) => Some(Encode(v))
  {
    hide ScanInfo, EncodeEntries, Get;
    ScanInfoOfEncoded(es, t);
    var s := Encode(Dict(es)) + t;
    assert s[0] == CHAR_D && s[1..] == EncodeEntries(es) + [CHAR_E] + t;
  }

  lemma {:induction false} ScanInfoOfEncoded(es: seq<Entry>, t: bytes)
    requires forall e :: e in es ==> |e.key| < U64 && Valid(e.value)
    ensures ScanInfo(EncodeEntries(es) + [CHAR_E] + t)
         == match Get(es, INFO_KEY) case None => None case Some(v) => Some(Encode(v))
  {
    hide Parse, ParseEntry, ScanInfo, EncodeEntry, EncodeString, Encode;
    var s := EncodeEntries(es) + [CHAR_E] + t;
    ScanUnfold(s);
    if es != [] {
      var e, rest := es[0], EncodeEntries(es[1..]) + [CHAR_E] + t;
      assert e in es;
      assert s == EncodeEntry(e) + rest;
      RoundTripEntry(e, rest);
      KeyOfEncoded(e, rest);
      InfoKeySpelling(e.key);
      ScanInfoOfEncoded(es[1..], t);
    }
  }

  lemma KeyOfEncoded(e: Entry, rest: bytes)
    requires |e.key| < U64
    ensures var s, n := EncodeEntry(e) + rest, |EncodeString(e.key)|;
            && Parse(s) == Ok((ByteString(e.key), n))
            && s[..n] == EncodeString(e.key)
            && n <= |EncodeEntry(e)| && s[n..|EncodeEntry(e)|] == Encode(e.value)
            && s[|EncodeEntry(e)|..] == rest
  {
    hide Parse, EncodeString, Encode;
    RoundTripString(e.key, Encode(e.value) + rest);
    ConcatAssoc(EncodeString(e.key), Encode(e.value), rest);
  }
}
