// The bencode reader and writer of crates/core/src/bencode.rs.
//
// `Parse`, `Encode` and `ScanInfo` say what is computed; the methods `DecodeInner`, `EncodeInner` and
// `FindInfoDictSlice` do it the way the program does, moving an offset or appending to a buffer.
module Bencoding {
  import opened Prelude
  import opened Decimal
  import Utf8

  const CHAR_D: byte := 100 // 'd'
  const CHAR_E: byte := 101 // 'e'
  const CHAR_I: byte := 105 // 'i'
  const CHAR_L: byte := 108 // 'l'
  const COLON: byte := 58 // ':'
  const INFO_KEY: bytes := [105, 110, 102, 111] // "info"
  const ENCODED_INFO_KEY: bytes := [52, 58, 105, 110, 102, 111] // "4:info"

  // A BTreeMap is the sequence of its entries in key order.
  datatype Bencode =
    | Int(i: int)
    | ByteString(s: bytes)
    | List(items: seq<Bencode>)
    | Dict(entries: seq<Entry>)

  datatype Entry = Entry(key: bytes, value: Bencode)

  datatype BencodeError =
    | UnexpectedEOF
    | InvalidChar(c: byte)
    | InvalidInteger
    | InvalidLength
    | Utf8Error
    | IndexOutOfBounds // the program panics: a non-string key ends the input

  // --- ordered maps ---

  // The order of `Vec<u8>`: lexicographic, a proper prefix first.
  predicate Less(a: bytes, b: bytes) {
    b != [] && (a == [] || a[0] < b[0] || (a[0] == b[0] && Less(a[1..], b[1..])))
  }

  lemma {:induction false} LessTrichotomy(a: bytes, b: bytes)
    ensures Less(a, b) || a == b || Less(b, a)
    ensures !(Less(a, b) && Less(b, a))
    ensures !Less(a, a)
  {
    if a != [] && b != [] {
      LessTrichotomy(a[1..], b[1..]);
      assert a == [a[0]] + a[1..] && b == [b[0]] + b[1..];
    }
    if a != [] {
      LessTrichotomy(a[1..], a[1..]);
    }
  }

  lemma {:induction false} LessTransitive(a: bytes, b: bytes, c: bytes)
    requires Less(a, b) && Less(b, c)
    ensures Less(a, c)
  {
    if a != [] && a[0] == b[0] == c[0] {
      LessTransitive(a[1..], b[1..], c[1..]);
    }
  }

  predicate Ascending(es: seq<Entry>) {
    forall i, j :: 0 <= i < j < |es| ==> Less(es[i].key, es[j].key)
  }

  // The first entry under `key`.
  function Get(es: seq<Entry>, key: bytes): Option<Bencode> {
    if es == [] then None
    else if es[0].key == key then Some(es[0].value)
    else Get(es[1..], key)
  }

  // The last entry under `key`.
  function GetLast(es: seq<Entry>, key: bytes): Option<Bencode> {
    if es == [] then None
    else if es[|es| - 1].key == key then Some(es[|es| - 1].value)
    else GetLast(es[..|es| - 1], key)
  }

  // BTreeMap::insert
  function Insert(es: seq<Entry>, key: bytes, value: Bencode): seq<Entry> {
    if es == [] then [Entry(key, value)]
    else if es[0].key == key then [Entry(key, value)] + es[1..]
    else if Less(key, es[0].key) then [Entry(key, value)] + es
    else [es[0]] + Insert(es[1..], key, value)
  }

  // The map after inserting every entry in reading order.
  function Collect(es: seq<Entry>): seq<Entry> {
    if es == [] then []
    else Insert(Collect(es[..|es| - 1]), es[|es| - 1].key, es[|es| - 1].value)
  }

  predicate Valid(v: Bencode) {
    match v
    case Int(i) => IsI64(i)
    case ByteString(s) => |s| < U64
    case List(items) => forall x :: x in items ==> Valid(x)
    case Dict(es) => Ascending(es) && forall e :: e in es ==> |e.key| < U64 && Valid(e.value)
  }

  // --- writer ---

  function EncodeString(s: bytes): bytes { NatText(|s|) + [COLON] + s }

  function Encode(v: Bencode): bytes
    decreases v, 0
  {
    match v
    case Int(i) => [CHAR_I] + IntText(i) + [CHAR_E]
    case ByteString(s) => EncodeString(s)
    case List(items) => [CHAR_L] + EncodeItems(items) + [CHAR_E]
    case Dict(es) => [CHAR_D] + EncodeEntries(es) + [CHAR_E]
  }

  function EncodeItems(items: seq<Bencode>): bytes
    decreases items, 1
  {
    if items == [] then [] else Encode(items[0]) + EncodeItems(items[1..])
  }

  function EncodeEntries(es: seq<Entry>): bytes
    decreases es, 1
  {
    if es == [] then [] else EncodeEntry(es[0]) + EncodeEntries(es[1..])
  }

  function EncodeEntry(e: Entry): bytes
    decreases e, 1
  {
    EncodeString(e.key) + Encode(e.value)
  }

  // --- reader ---

  // The first position from `from` on holding `b`, or the length of `s`.
  function Find(s: bytes, b: byte, from: nat): (k: nat)
    requires from <= |s|
    ensures from <= k <= |s|
    ensures forall i :: from <= i < k ==> s[i] != b
    ensures k < |s| ==> s[k] == b
    decreases |s| - from
  {
    if from == |s| || s[from] == b then from else Find(s, b, from + 1)
  }

  // "i<integer>e"
  function ParseInteger(s: bytes): (r: Result<(Bencode, nat), BencodeError>)
    requires s != []
    ensures r.Ok? ==> 0 < r.value.1 <= |s|
  {
    var end := Find(s, CHAR_E, 1);
    if end == |s| then Err(UnexpectedEOF)
    else if !Utf8.ValidUtf8(s[1..end]) then Err(Utf8Error)
    else if ParseI64(s[1..end]).None? then Err(InvalidInteger)
    else Ok((Int(ParseI64(s[1..end]).value), end + 1))
  }

  // "<length>:<bytes>"
  function ParseString(s: bytes): (r: Result<(Bencode, nat), BencodeError>)
    ensures r.Ok? ==> 0 < r.value.1 <= |s|
  {
    var colon := Find(s, COLON, 0);
    if colon == |s| then Err(UnexpectedEOF)
    else if !Utf8.ValidUtf8(s[..colon]) then Err(Utf8Error)
    else if ParseUsize(s[..colon]).None? then Err(InvalidLength)
    else
      var end := colon + 1 + ParseUsize(s[..colon]).value;
      if end > |s| then Err(UnexpectedEOF) else Ok((ByteString(s[colon + 1..end]), end))
  }

  // The value at the start of `s` and the number of bytes it takes.
  function Parse(s: bytes): (r: Result<(Bencode, nat), BencodeError>)
    ensures r.Ok? ==> 0 < r.value.1 <= |s|
    decreases |s|, 0
  {
    if s == [] then Err(UnexpectedEOF)
    else if s[0] == CHAR_I then ParseInteger(s)
    else if s[0] == CHAR_L then
      var (items, n) :- ParseItems(s[1..]);
      Ok((List(items), 1 + n))
    else if s[0] == CHAR_D then
      var (es, n) :- ParseEntries(s[1..]);
      Ok((Dict(Collect(es)), 1 + n))
    else if IsDigit(s[0]) then ParseString(s)
    else Err(InvalidChar(s[0]))
  }

  // Values up to and including the closing 'e'.
  function ParseItems(s: bytes): (r: Result<(seq<Bencode>, nat), BencodeError>)
    ensures r.Ok? ==> 0 < r.value.1 <= |s|
    decreases |s|, 1
  {
    if s == [] then Err(UnexpectedEOF)
    else if s[0] == CHAR_E then Ok(([], 1))
    else
      var (v, n) :- Parse(s);
      var (vs, m) :- ParseItems(s[n..]);
      Ok(([v] + vs, n + m))
  }

  // One key and its value.
  function ParseEntry(s: bytes): (r: Result<(Entry, nat), BencodeError>)
    ensures r.Ok? ==> 0 < r.value.1 <= |s|
    decreases |s|, 1
  {
    var (k, n) :- Parse(s);
    if !k.ByteString? then Err(if n < |s| then InvalidChar(s[n]) else IndexOutOfBounds)
    else
      var (v, m) :- Parse(s[n..]);
      Ok((Entry(k.s, v), n + m))
  }

  // Keys and values in reading order, up to and including the closing 'e'.
  function ParseEntries(s: bytes): (r: Result<(seq<Entry>, nat), BencodeError>)
    ensures r.Ok? ==> 0 < r.value.1 <= |s|
    decreases |s|, 2
  {
    if s == [] then Err(UnexpectedEOF)
    else if s[0] == CHAR_E then Ok(([], 1))
    else
      var (e, n) :- ParseEntry(s);
      var (es, m) :- ParseEntries(s[n..]);
      Ok(([e] + es, n + m))
  }

  function Decode(s: bytes): Result<Bencode, BencodeError> {
    var (v, _) :- Parse(s);
    Ok(v)
  }

  // The value of the first top-level key spelled "4:info".
  function ScanInfo(s: bytes): (r: Option<bytes>) {
    if s == [] || s[0] == CHAR_E || Parse(s).Err? then None
    else
      var n := Parse(s).value.1;
      if Parse(s[n..]).Err? then None
      else
        var m := Parse(s[n..]).value.1;
        if s[..n] == ENCODED_INFO_KEY then Some(s[n..n + m]) else ScanInfo(s[n + m..])
  }

  function FindInfo(s: bytes): Option<bytes> {
    if s == [] || s[0] != CHAR_D then None else ScanInfo(s[1..])
  }

  // --- the program's loops ---

  // What is known of `ParseItems(all)` once `done` has been read and `used` bytes are gone.
  function Resumed<T>(done: seq<T>, used: nat, rest: Result<(seq<T>, nat), BencodeError>):
    Result<(seq<T>, nat), BencodeError>
  {
    match rest
    case Ok((vs, n)) => Ok((done + vs, used + n))
    case Err(e) => Err(e)
  }

  lemma ResumedNothing<T>(rest: Result<(seq<T>, nat), BencodeError>)
    ensures Resumed([], 0, rest) == rest
  {
    if rest.Ok? {
      assert [] + rest.value.0 == rest.value.0;
    }
  }

  lemma ResumedTwice<T>(a: seq<T>, n: nat, b: seq<T>, m: nat, rest: Result<(seq<T>, nat), BencodeError>)
    ensures Resumed(a, n, Resumed(b, m, rest)) == Resumed(a + b, n + m, rest)
  {
    if rest.Ok? {
      assert a + (b + rest.value.0) == a + b + rest.value.0;
    }
  }

  // One round of the list loop, in offsets of the whole input.
  lemma ItemsStep(b: bytes, at: nat, next: nat)
    requires at < next <= |b| && b[at] != CHAR_E
    requires Parse(b[at..]).Ok? && Parse(b[at..]).value.1 == next - at
    ensures ParseItems(b[at..]) == Resumed([Parse(b[at..]).value.0], next - at, ParseItems(b[next..]))
  {
    hide Parse, ParseEntry;
    assert b[at..][next - at..] == b[next..];
  }

  // One round of the dictionary loop, in offsets of the whole input.
  lemma EntriesStep(b: bytes, at: nat, next: nat)
    requires at < next <= |b| && b[at] != CHAR_E
    requires ParseEntry(b[at..]).Ok? && ParseEntry(b[at..]).value.1 == next - at
    ensures ParseEntries(b[at..]) == Resumed([ParseEntry(b[at..]).value.0], next - at, ParseEntries(b[next..]))
  {
    hide Parse, ParseEntry;
    assert b[at..][next - at..] == b[next..];
  }

  // One round of the scan, in offsets of the whole input.
  lemma ScanStep(b: bytes, key: nat, val: nat, end: nat)
    requires key < val < end <= |b| && b[key] != CHAR_E
    requires Parse(b[key..]).Ok? && Parse(b[key..]).value.1 == val - key
    requires Parse(b[val..]).Ok? && Parse(b[val..]).value.1 == end - val
    ensures ScanInfo(b[key..])
         == if b[key..val] == ENCODED_INFO_KEY then Some(b[val..end]) else ScanInfo(b[end..])
  {
    hide Parse, ScanInfo;
    var s, n, m := b[key..], val - key, end - val;
    assert s[n..] == b[val..];
    assert s[..n] == b[key..val];
    assert s[n..n + m] == b[val..end];
    assert s[n + m..] == b[end..];
    ScanOnce(s, n, m);
  }

  lemma ScanOnce(s: bytes, n: nat, m: nat)
    requires s != [] && s[0] != CHAR_E && n + m <= |s|
    requires Parse(s).Ok? && Parse(s).value.1 == n
    requires Parse(s[n..]).Ok? && Parse(s[n..]).value.1 == m
    ensures ScanInfo(s) == if s[..n] == ENCODED_INFO_KEY then Some(s[n..n + m]) else ScanInfo(s[n + m..])
  {
    hide Parse;
  }

  // The 'i' branch of `decode_inner`.
  method DecodeInteger(b: bytes, offset: nat) returns (r: Result<Bencode, BencodeError>, next: nat)
    requires offset < |b|
    ensures match ParseInteger(b[offset..])
            case Ok((v, n)) => r == Ok(v) && next == offset + n
            case Err(e) => r == Err(e)
  {
    hide Utf8.ValidUtf8, ParseI64;
    next := offset + 1;
    var start := next;
    while next < |b| && b[next] != CHAR_E
      invariant start <= next <= |b|
      invariant forall i :: start <= i < next ==> b[i] != CHAR_E
    {
      next := next + 1;
    }
    ghost var s := b[offset..];
    assert Find(s, CHAR_E, 1) == next - offset;
    if next >= |b| {
      return Err(UnexpectedEOF), next;
    }
    assert s[1..next - offset] == b[start..next];
    if !Utf8.ValidUtf8(b[start..next]) {
      return Err(Utf8Error), next;
    }
    var val := ParseI64(b[start..next]);
    if val.None? {
      return Err(InvalidInteger), next;
    }
    next := next + 1;
    return Ok(Int(val.value)), next;
  }

  // The digit branch of `decode_inner`.
  method DecodeString(b: bytes, offset: nat) returns (r: Result<Bencode, BencodeError>, next: nat)
    requires offset < |b|
    ensures match ParseString(b[offset..])
            case Ok((v, n)) => r == Ok(v) && next == offset + n
            case Err(e) => r == Err(e)
  {
    hide Utf8.ValidUtf8, ParseUsize;
    next := offset;
    var start := next;
    while next < |b| && b[next] != COLON
      invariant start <= next <= |b|
      invariant forall i :: start <= i < next ==> b[i] != COLON
    {
      next := next + 1;
    }
    ghost var s := b[offset..];
    assert Find(s, COLON, 0) == next - offset;
    if next >= |b| {
      return Err(UnexpectedEOF), next;
    }
    assert s[..next - offset] == b[start..next];
    if !Utf8.ValidUtf8(b[start..next]) {
      return Err(Utf8Error), next;
    }
    var len := ParseUsize(b[start..next]);
    if len.None? {
      return Err(InvalidLength), next;
    }
    next := next + 1;
    if next + len.value > |b| {
      return Err(UnexpectedEOF), next;
    }
    var val := b[next..next + len.value];
    assert s[next - offset..next - offset + len.value] == val;
    next := next + len.value;
    return Ok(ByteString(val)), next;
  }

  // The 'l' branch of `decode_inner`, from the byte after the 'l'.
  method DecodeList(b: bytes, offset: nat) returns (r: Result<Bencode, BencodeError>, next: nat)
    requires offset <= |b|
    ensures match ParseItems(b[offset..])
            case Ok((vs, n)) => r == Ok(List(vs)) && next == offset + n
            case Err(e) => r == Err(e)
    decreases |b| - offset, 1
  {
    hide Parse;
    next := offset;
    var list: seq<Bencode> := [];
    ResumedNothing(ParseItems(b[next..]));
    while next < |b| && b[next] != CHAR_E
      invariant offset <= next <= |b|
      invariant ParseItems(b[offset..]) == Resumed(list, next - offset, ParseItems(b[next..]))
      decreases |b| - next
    {
      var at := next;
      var v;
      v, next := DecodeInner(b, at);
      if v.Err? {
        return Err(v.error), next;
      }
      ItemsStep(b, at, next);
      ResumedTwice(list, at - offset, [v.value], next - at, ParseItems(b[next..]));
      list := list + [v.value];
    }
    if next >= |b| {
      return Err(UnexpectedEOF), next;
    }
    assert list + [] == list;
    next := next + 1;
    return Ok(List(list)), next;
  }

  // The body of the dictionary loop up to the insertion.
  method DecodeEntry(b: bytes, offset: nat) returns (r: Result<Entry, BencodeError>, next: nat)
    requires offset < |b|
    ensures match ParseEntry(b[offset..])
            case Ok((e, n)) => r == Ok(e) && next == offset + n
            case Err(e) => r == Err(e)
    decreases |b| - offset, 1
  {
    var k, v;
    k, next := DecodeInner(b, offset);
    if k.Err? {
      return Err(k.error), next;
    }
    if !k.value.ByteString? {
      return Err(if next < |b| then InvalidChar(b[next]) else IndexOutOfBounds), next;
    }
    var mid := next;
    assert b[offset..][mid - offset..] == b[mid..];
    v, next := DecodeInner(b, mid);
    if v.Err? {
      return Err(v.error), next;
    }
    return Ok(Entry(k.value.s, v.value)), next;
  }

  lemma EntriesEnd(b: bytes, at: nat)
    requires at <= |b|
    ensures at == |b| ==> ParseEntries(b[at..]) == Err(UnexpectedEOF)
    ensures at < |b| && b[at] == CHAR_E ==> ParseEntries(b[at..]) == Ok(([], 1))
  {
  }

  lemma EntriesStuck(b: bytes, at: nat)
    requires at < |b| && b[at] != CHAR_E && ParseEntry(b[at..]).Err?
    ensures ParseEntries(b[at..]) == Err(ParseEntry(b[at..]).error)
  {
    hide ParseEntry;
  }

  lemma CollectNothing()
    ensures Collect([]) == []
  {
  }

  lemma CollectOneMore(es: seq<Entry>, e: Entry)
    ensures Collect(es + [e]) == Insert(Collect(es), e.key, e.value)
  {
    assert (es + [e])[..|es|] == es;
  }

  // The 'd' branch of `decode_inner`, from the byte after the 'd'.
  method DecodeDict(b: bytes, offset: nat) returns (r: Result<Bencode, BencodeError>, next: nat)
    requires offset <= |b|
    ensures match ParseEntries(b[offset..])
            case Ok((es, n)) => r == Ok(Dict(Collect(es))) && next == offset + n
            case Err(e) => r == Err(e)
    decreases |b| - offset, 2
  {
    hide Parse, ParseEntry, ParseEntries, Collect;
    next := offset;
    var dict: seq<Entry> := [];
    ghost var read: seq<Entry> := [];
    CollectNothing();
    ResumedNothing(ParseEntries(b[next..]));
    while next < |b| && b[next] != CHAR_E
      invariant offset <= next <= |b|
      invariant dict == Collect(read)
      invariant ParseEntries(b[offset..]) == Resumed(read, next - offset, ParseEntries(b[next..]))
      decreases |b| - next
    {
      var at := next;
      var e;
      e, next := DecodeEntry(b, at);
      if e.Err? {
        EntriesStuck(b, at);
        return Err(e.error), next;
      }
      EntriesStep(b, at, next);
      ResumedTwice(read, at - offset, [e.value], next - at, ParseEntries(b[next..]));
      CollectOneMore(read, e.value);
      read := read + [e.value];
      dict := Insert(dict, e.value.key, e.value.value);
    }
    EntriesEnd(b, next);
    if next >= |b| {
      return Err(UnexpectedEOF), next;
    }
    assert read + [] == read;
    next := next + 1;
    return Ok(Dict(dict)), next;
  }

  // Reads the value at `offset`; `next` is the offset after it. The result is that of `Parse` on the
  // bytes from `offset` on, so nothing before `offset` matters.
  method DecodeInner(b: bytes, offset: nat) returns (r: Result<Bencode, BencodeError>, next: nat)
    ensures offset >= |b| ==> r == Err(UnexpectedEOF)
    ensures offset < |b| ==> match Parse(b[offset..])
                             case Ok((v, n)) => r == Ok(v) && next == offset + n
                             case Err(e) => r == Err(e)
    decreases |b| - offset, 0
  {
    next := offset;
    if next >= |b| {
      return Err(UnexpectedEOF), next;
    }
    if b[next] == CHAR_I {
      r, next := DecodeInteger(b, next);
    } else if b[next] == CHAR_L {
      assert b[offset..][1..] == b[offset + 1..];
      r, next := DecodeList(b, next + 1);
    } else if b[next] == CHAR_D {
      assert b[offset..][1..] == b[offset + 1..];
      r, next := DecodeDict(b, next + 1);
    } else if IsDigit(b[next]) {
      r, next := DecodeString(b, next);
    } else {
      r := Err(InvalidChar(b[next]));
    }
  }

  // `Bencode::decode`: the bytes after the first value are ignored.
  method DecodeBytes(b: bytes) returns (r: Result<Bencode, BencodeError>)
    ensures r == Decode(b)
  {
    var offset := 0;
    r, offset := DecodeInner(b, offset);
    assert b[0..] == b;
  }

  // Appends the encoding of `v` to `buf`.
  method EncodeInner(v: Bencode, buf: bytes) returns (out: bytes)
    ensures out == buf + Encode(v)
    decreases v, 0
  {
    match v
    case Int(i) =>
      out := buf + [CHAR_I];
      out := out + IntText(i);
      out := out + [CHAR_E];
    case ByteString(s) =>
      out := EncodeStringInto(s, buf);
    case List(items) =>
      out := buf + [CHAR_L];
      out := EncodeListInto(items, out);
      out := out + [CHAR_E];
    case Dict(es) =>
      out := buf + [CHAR_D];
      out := EncodeDictInto(es, out);
      out := out + [CHAR_E];
  }

  method EncodeStringInto(s: bytes, buf: bytes) returns (out: bytes)
    ensures out == buf + EncodeString(s)
  {
    out := buf + NatText(|s|);
    out := out + [COLON];
    out := out + s;
    assert out == buf + EncodeString(s);
  }

  // The loop of the list branch.
  method EncodeListInto(items: seq<Bencode>, buf: bytes) returns (out: bytes)
    ensures out == buf + EncodeItems(items)
    decreases items, 1
  {
    hide Encode;
    out := buf;
    var k := 0;
    while k < |items|
      invariant k <= |items|
      invariant out + EncodeItems(items[k..]) == buf + EncodeItems(items)
    {
      assert items[k..][1..] == items[k + 1..];
      ghost var before, rest := out, EncodeItems(items[k + 1..]);
      out := EncodeInner(items[k], out);
      assert before + (Encode(items[k]) + rest) == out + rest;
      k := k + 1;
    }
  }

  // The loop of the dictionary branch.
  method EncodeDictInto(es: seq<Entry>, buf: bytes) returns (out: bytes)
    ensures out == buf + EncodeEntries(es)
    decreases es, 1
  {
    hide Encode, EncodeString;
    out := buf;
    var k := 0;
    while k < |es|
      invariant k <= |es|
      invariant out + EncodeEntries(es[k..]) == buf + EncodeEntries(es)
    {
      assert es[k..][1..] == es[k + 1..];
      ghost var before, rest := out, EncodeEntries(es[k + 1..]);
      out := EncodeStringInto(es[k].key, out);
      out := EncodeInner(es[k].value, out);
      assert before + EncodeEntry(es[k]) == out;
      assert before + (EncodeEntry(es[k]) + rest) == out + rest;
      k := k + 1;
    }
  }

  // The slice of the raw torrent holding the value of its first "4:info" key.
  method FindInfoDictSlice(b: bytes) returns (r: Option<bytes>)
    ensures r == FindInfo(b)
  {
    hide Parse;
    var offset := 0;
    if b == [] || b[offset] != CHAR_D {
      return None;
    }
    offset := offset + 1;
    while offset < |b| && b[offset] != CHAR_E
      invariant 1 <= offset <= |b|
      invariant ScanInfo(b[1..]) == ScanInfo(b[offset..])
      decreases |b| - offset
    {
      var keyStart := offset;
      var k, v;
      k, offset := DecodeInner(b, keyStart);
      if k.Err? {
        return None;
      }
      var keyBytes := b[keyStart..offset];
      var isInfo := keyBytes == ENCODED_INFO_KEY;
      var valStart := offset;
      assert b[keyStart..][valStart - keyStart..] == b[valStart..];
      v, offset := DecodeInner(b, valStart);
      if v.Err? {
        return None;
      }
      ScanStep(b, keyStart, valStart, offset);
      if isInfo {
        return Some(b[valStart..offset]);
      }
    }
    return None;
  }
}
