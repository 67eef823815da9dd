// Bencoded texts, written out: a grammar that does not mention the reader or the writer. The reader of
// crates/core/src/bencode.rs accepts exactly these texts, and the writer writes the plainest of them.
module Grammar {
  import opened Prelude
  import opened Decimal
  import opened Bencoding
  import opened BencodingProofs
  import Utf8

  // A text with the parts a reader may choose to overlook: how a number is written, and the order of keys.
  datatype Raw =
    | RawInt(text: bytes, i: int)
    | RawString(length: bytes, s: bytes)
    | RawList(items: seq<Raw>)
    | RawDict(fields: seq<Field>)

  datatype Field = Field(length: bytes, key: bytes, value: Raw)

  function Text(r: Raw): bytes
    decreases r, 0
  {
    match r
    case RawInt(text, _) => Ascii("i") + text + Ascii("e")
    case RawString(length, s) => length + Ascii(":") + s
    case RawList(items) => Ascii("l") + ItemsText(items) + Ascii("e")
    case RawDict(fields) => Ascii("d") + FieldsText(fields) + Ascii("e")
  }

  function ItemsText(rs: seq<Raw>): bytes
    decreases rs, 1
  {
    if rs == [] then [] else Text(rs[0]) + ItemsText(rs[1..])
  }

  function FieldsText(fs: seq<Field>): bytes
    decreases fs, 1
  {
    if fs == [] then [] else FieldText(fs[0]) + FieldsText(fs[1..])
  }

  function FieldText(f: Field): bytes
    decreases f, 1
  {
    f.length + Ascii(":") + f.key + Text(f.value)
  }

  // Decimal digits, at least one, with or without leading zeros.
  predicate Digits(t: bytes, n: nat) { t != [] && AllDigits(t) && DigitsValue(t) == n }

  // A 64-bit integer with an optional sign.
  predicate SpellsInt(t: bytes, i: int) {
    && -0x8000_0000_0000_0000 <= i < 0x8000_0000_0000_0000
    && t != []
    && if t[0] == Ascii("-")[0] then i <= 0 && Digits(t[1..], -i)
       else if t[0] == Ascii("+")[0] then i >= 0 && Digits(t[1..], i)
       else i >= 0 && Digits(t, i)
  }

  predicate SpellsLength(t: bytes, n: nat) { n < 0x1_0000_0000_0000_0000 && Digits(t, n) }

  predicate Good(r: Raw)
    decreases r, 0
  {
    match r
    case RawInt(text, i) => SpellsInt(text, i)
    case RawString(length, s) => SpellsLength(length, |s|)
    case RawList(items) => forall x :: x in items ==> Good(x)
    case RawDict(fields) => forall f :: f in fields ==> GoodField(f)
  }

  predicate GoodField(f: Field)
    decreases f, 1
  {
    SpellsLength(f.length, |f.key|) && Good(f.value)
  }

  // What it means; of fields with the same key, the last.
  function Value(r: Raw): Bencode
    decreases r, 0
  {
    match r
    case RawInt(_, i) => Int(i)
    case RawString(_, s) => ByteString(s)
    case RawList(items) => List(Values(items))
    case RawDict(fields) => Dict(Collect(Entries(fields)))
  }

  function Values(rs: seq<Raw>): seq<Bencode>
    decreases rs, 1
  {
    if rs == [] then [] else [Value(rs[0])] + Values(rs[1..])
  }

  function Entries(fs: seq<Field>): seq<Entry>
    decreases fs, 1
  {
    if fs == [] then [] else [Entry(fs[0].key, Value(fs[0].value))] + Entries(fs[1..])
  }

  lemma Marks()
    ensures Ascii("i") == [CHAR_I] && Ascii("l") == [CHAR_L] && Ascii("d") == [CHAR_D] && Ascii("e") == [CHAR_E]
    ensures Ascii(":") == [COLON] && Ascii("-") == [MINUS] && Ascii("+") == [PLUS]
  {
  }

  // --- numbers ---

  lemma IntExactly(t: bytes, i: int)
    ensures ParseI64(t) == Some(i) <==> SpellsInt(t, i)
  {
    hide DigitsValue;
    Marks();
  }

  lemma LengthExactly(t: bytes, n: nat)
    requires t != [] && IsDigit(t[0])
    ensures ParseUsize(t) == Some(n) <==> SpellsLength(t, n)
  {
    hide DigitsValue;
  }

  lemma SpellingsHaveNoMarks(t: bytes, i: int)
    ensures SpellsInt(t, i) ==> forall k :: 0 <= k < |t| ==> t[k] < 0x80 && t[k] != CHAR_E
    ensures i >= 0 && SpellsLength(t, i) ==> forall k :: 0 <= k < |t| ==> IsDigit(t[k])
  {
    hide DigitsValue;
    Marks();
    if SpellsInt(t, i) {
      forall k | 0 <= k < |t| ensures t[k] < 0x80 && t[k] != CHAR_E {
        if k > 0 {
          assert t[1..][k - 1] == t[k];
        }
      }
    }
  }

  // --- every such text is read ---

  lemma IntIsRead(text: bytes, i: int, t: bytes)
    requires SpellsInt(text, i)
    ensures Parse(Ascii("i") + text + Ascii("e") + t) == Ok((Int(i), |text| + 2))
  {
    hide SpellsInt, ParseI64, Utf8.ValidUtf8;
    Marks();
    var s := Ascii("i") + text + Ascii("e") + t;
    SpellingsHaveNoMarks(text, i);
    FindHit(s, CHAR_E, 1, 1 + |text|);
    assert s[1..1 + |text|] == text;
    Utf8.AsciiIsValid(text);
    IntExactly(text, i);
  }

  lemma StringIsRead(length: bytes, x: bytes, t: bytes)
    requires SpellsLength(length, |x|)
    ensures Parse(length + Ascii(":") + x + t) == Ok((ByteString(x), |length| + 1 + |x|))
  {
    hide ParseUsize, Utf8.ValidUtf8, DigitsValue;
    Marks();
    var s := length + Ascii(":") + x + t;
    SpellingsHaveNoMarks(length, |x|);
    FindHit(s, COLON, 0, |length|);
    assert s[..|length|] == length;
    Utf8.AsciiIsValid(length);
    LengthExactly(length, |x|);
    assert s[|length| + 1..|length| + 1 + |x|] == x;
    assert IsDigit(s[0]);
  }

  lemma FirstByte(r: Raw)
    requires Good(r)
    ensures Text(r) != [] && Text(r)[0] != CHAR_E
  {
    hide DigitsValue;
    Marks();
    if r.RawString? {
      assert IsDigit(r.length[0]);
      assert Text(r)[0] == r.length[0];
    }
  }

  // Whatever follows, such a text is read as what it means, and no further.
  lemma {:induction false} TextIsRead(r: Raw, t: bytes)
    requires Good(r)
    ensures Parse(Text(r) + t) == Ok((Value(r), |Text(r)|))
    decreases r, 0
  {
    hide ParseItems, ParseEntries, ParseInteger, ParseString, ItemsText, FieldsText, Collect, SpellsInt, SpellsLength;
    Marks();
    match r
    case RawInt(text, i) => IntIsRead(text, i, t);
    case RawString(length, s) => StringIsRead(length, s, t);
    case RawList(items) =>
      ItemsAreRead(items, t);
      var s := Text(r) + t;
      assert s[0] == CHAR_L && s[1..] == ItemsText(items) + [CHAR_E] + t;
    case RawDict(fields) =>
      FieldsAreRead(fields, t);
      var s := Text(r) + t;
      assert s[0] == CHAR_D && s[1..] == FieldsText(fields) + [CHAR_E] + t;
  }

  lemma {:induction false} ItemsAreRead(rs: seq<Raw>, t: bytes)
    requires forall x :: x in rs ==> Good(x)
    ensures ParseItems(ItemsText(rs) + [CHAR_E] + t) == Ok((Values(rs), |ItemsText(rs)| + 1))
    decreases rs, 1
  {
    hide Parse, Text, Good, Value;
    if rs != [] {
      var s, rest := ItemsText(rs) + [CHAR_E] + t, ItemsText(rs[1..]) + [CHAR_E] + t;
      assert rs[0] in rs;
      TextIsRead(rs[0], rest);
      ItemsAreRead(rs[1..], t);
      FirstByte(rs[0]);
      assert s == Text(rs[0]) + rest;
      assert s[|Text(rs[0])|..] == rest;
    }
  }

  lemma FieldIsRead(f: Field, t: bytes)
    requires GoodField(f)
    ensures ParseEntry(FieldText(f) + t) == Ok((Entry(f.key, Value(f.value)), |FieldText(f)|))
    ensures FieldText(f) != [] && FieldText(f)[0] != CHAR_E
    decreases f, 1
  {
    hide Parse, Text, Value, Good, DigitsValue;
    var key, value := f.length + Ascii(":") + f.key, Text(f.value);
    StringIsRead(f.length, f.key, value + t);
    TextIsRead(f.value, t);
    assert IsDigit(f.length[0]) && FieldText(f)[0] == f.length[0];
    assert key + value + t == key + (value + t);
    assert (key + value + t)[|key|..] == value + t;
  }

  lemma {:induction false} FieldsAreRead(fs: seq<Field>, t: bytes)
    requires forall f :: f in fs ==> GoodField(f)
    ensures ParseEntries(FieldsText(fs) + [CHAR_E] + t) == Ok((Entries(fs), |FieldsText(fs)| + 1))
    decreases fs, 1
  {
    hide ParseEntry, FieldText, Good, Value, SpellsLength;
    if fs != [] {
      var s, rest := FieldsText(fs) + [CHAR_E] + t, FieldsText(fs[1..]) + [CHAR_E] + t;
      assert fs[0] in fs;
      FieldIsRead(fs[0], rest);
      FieldsAreRead(fs[1..], t);
      assert s == FieldText(fs[0]) + rest;
      assert s[|FieldText(fs[0])|..] == rest;
    }
  }

  // --- nothing else is ---

  // What was read is such a text.
  lemma {:induction false} ReadIsText(s: bytes) returns (r: Raw)
    requires Parse(s).Ok?
    ensures var (v, n) := Parse(s).value;
            Good(r) && Text(r) == s[..n] && Value(r) == v
    decreases |s|, 0
  {
    hide ParseItems, ParseEntries, ParseInteger, ParseString, Collect, SpellsInt, SpellsLength;
    Marks();
    var n := Parse(s).value.1;
    if s[0] == CHAR_I {
      r := ReadInt(s);
    } else if s[0] == CHAR_L {
      var items := ReadItems(s[1..]);
      r := RawList(items);
      assert s[..n] == [s[0]] + s[1..][..n - 1];
    } else if s[0] == CHAR_D {
      var fields := ReadFields(s[1..]);
      r := RawDict(fields);
      assert s[..n] == [s[0]] + s[1..][..n - 1];
    } else {
      r := ReadString(s);
    }
  }

  lemma ReadInt(s: bytes) returns (r: Raw)
    requires s != [] && s[0] == CHAR_I && ParseInteger(s).Ok?
    ensures var (v, n) := ParseInteger(s).value;
            Good(r) && Text(r) == s[..n] && Value(r) == v
  {
    hide ParseI64, SpellsInt, Utf8.ValidUtf8;
    Marks();
    var end := Find(s, CHAR_E, 1);
    var text := s[1..end];
    r := RawInt(text, ParseI64(text).value);
    IntExactly(text, ParseI64(text).value);
    assert s[..end + 1] == [s[0]] + text + [s[end]];
  }

  lemma ReadString(s: bytes) returns (r: Raw)
    requires s != [] && IsDigit(s[0]) && ParseString(s).Ok?
    ensures var (v, n) := ParseString(s).value;
            && v.ByteString? && r.RawString? && r.s == v.s
            && Good(r) && Text(r) == s[..n] && Value(r) == v
  {
    hide ParseUsize, SpellsLength, Utf8.ValidUtf8;
    Marks();
    var colon := Find(s, COLON, 0);
    var length := s[..colon];
    var n := ParseUsize(length).value;
    r := RawString(length, s[colon + 1..colon + 1 + n]);
    LengthExactly(length, n);
    assert s[..colon + 1 + n] == length + [s[colon]] + s[colon + 1..colon + 1 + n];
  }

  lemma {:induction false} ReadItems(s: bytes) returns (rs: seq<Raw>)
    requires ParseItems(s).Ok?
    ensures var (vs, n) := ParseItems(s).value;
            (forall x :: x in rs ==> Good(x)) && ItemsText(rs) + [CHAR_E] == s[..n] && Values(rs) == vs
    decreases |s|, 1
  {
    hide Parse, Good, Text, Value;
    if s[0] == CHAR_E {
      rs := [];
      assert s[..1] == [s[0]];
    } else {
      var n, m := Parse(s).value.1, ParseItems(s[Parse(s).value.1..]).value.1;
      var first := ReadIsText(s);
      var rest := ReadItems(s[n..]);
      rs := [first] + rest;
      assert rs[1..] == rest;
      assert s[..n + m] == s[..n] + s[n..][..m];
    }
  }

  lemma ReadField(s: bytes) returns (f: Field)
    requires s != [] && s[0] != CHAR_E && ParseEntry(s).Ok?
    ensures var (e, n) := ParseEntry(s).value;
            && GoodField(f) && FieldText(f) == s[..n] && Entry(f.key, Value(f.value)) == e
    decreases |s|, 1
  {
    hide ParseItems, ParseEntries, ParseInteger, ParseString, SpellsLength, Text, Value;
    var n := Parse(s).value.1;
    var key := ReadKey(s);
    var value := ReadIsText(s[n..]);
    f := Field(key.length, key.s, value);
    var m := Parse(s[n..]).value.1;
    assert s[..n + m] == s[..n] + s[n..][..m];
  }

  lemma ReadKey(s: bytes) returns (r: Raw)
    requires Parse(s).Ok? && Parse(s).value.0.ByteString?
    ensures var (v, n) := Parse(s).value;
            && r.RawString? && r.s == v.s && SpellsLength(r.length, |r.s|)
            && r.length + Ascii(":") + r.s == s[..n]
  {
    hide ParseItems, ParseEntries, ParseString, SpellsLength;
    r := ReadString(s);
  }

  lemma {:induction false} ReadFields(s: bytes) returns (fs: seq<Field>)
    requires ParseEntries(s).Ok?
    ensures var (es, n) := ParseEntries(s).value;
            && (forall f :: f in fs ==> GoodField(f))
            && FieldsText(fs) + [CHAR_E] == s[..n] && Entries(fs) == es
    decreases |s|, 2
  {
    hide ParseEntry, Good, FieldText, Value, SpellsLength;
    if s[0] == CHAR_E {
      fs := [];
      assert s[..1] == [s[0]];
    } else {
      var n, m := ParseEntry(s).value.1, ParseEntries(s[ParseEntry(s).value.1..]).value.1;
      var first := ReadField(s);
      var rest := ReadFields(s[n..]);
      fs := [first] + rest;
      assert fs[1..] == rest;
      assert s[..n + m] == s[..n] + s[n..][..m];
    }
  }

  ghost predicate Reads(r: Raw, s: bytes, v: Bencode) { Good(r) && Text(r) <= s && Value(r) == v }

  // The decoder succeeds with a value if and only if the input starts with a text of the grammar that means it.
  lemma DecodesExactly(s: bytes, v: Bencode)
    ensures Decode(s) == Ok(v) <==> exists r :: Reads(r, s, v)
  {
    hide Parse, Good, Text, Value;
    if Decode(s) == Ok(v) {
      var r := ReadIsText(s);
      assert Reads(r, s, v);
    }
    if r :| Reads(r, s, v) {
      var t := s[|Text(r)|..];
      assert s == Text(r) + t;
      TextIsRead(r, t);
    }
  }

  // --- what the writer writes ---

  // The value as a text with canonical numbers.
  function Plain(v: Bencode): Raw
    decreases v, 0
  {
    match v
    case Int(i) => RawInt(IntText(i), i)
    case ByteString(s) => RawString(NatText(|s|), s)
    case List(items) => RawList(PlainItems(items))
    case Dict(es) => RawDict(PlainFields(es))
  }

  function PlainItems(items: seq<Bencode>): seq<Raw>
    decreases items, 1
  {
    if items == [] then [] else [Plain(items[0])] + PlainItems(items[1..])
  }

  function PlainFields(es: seq<Entry>): seq<Field>
    decreases es, 1
  {
    if es == [] then [] else [Field(NatText(|es[0].key|), es[0].key, Plain(es[0].value))] + PlainFields(es[1..])
  }

  lemma {:induction false} WriterIsPlain(v: Bencode)
    ensures Encode(v) == Text(Plain(v))
    decreases v, 0
  {
    hide IntText, NatText, EncodeItems, EncodeEntries, ItemsText, FieldsText, PlainItems, PlainFields;
    Marks();
    match v
    case Int(_) =>
    case ByteString(_) =>
    case List(items) => ItemsArePlain(items);
    case Dict(es) => EntriesArePlain(es);
  }

  lemma {:induction false} ItemsArePlain(items: seq<Bencode>)
    ensures EncodeItems(items) == ItemsText(PlainItems(items))
    decreases items, 1
  {
    hide Encode, Text, Plain;
    if items != [] {
      WriterIsPlain(items[0]);
      ItemsArePlain(items[1..]);
      assert PlainItems(items)[1..] == PlainItems(items[1..]);
    }
  }

  lemma {:induction false} EntriesArePlain(es: seq<Entry>)
    ensures EncodeEntries(es) == FieldsText(PlainFields(es))
    decreases es, 1
  {
    hide Encode, Text, Plain, NatText;
    Marks();
    if es != [] {
      WriterIsPlain(es[0].value);
      EntriesArePlain(es[1..]);
      assert PlainFields(es)[1..] == PlainFields(es[1..]);
      assert EncodeEntry(es[0]) == FieldText(PlainFields(es)[0]);
    }
  }

  // --- keys ---

  // A dictionary is read whatever the order of its keys, and of equal ones the last counts.
  lemma AnyOrderIsRead(es: seq<Entry>, t: bytes)
    requires forall e :: e in es ==> |e.key| < U64 && Valid(e.value)
    ensures var text := Ascii("d") + EncodeEntries(es) + Ascii("e");
            exists m :: Parse(text + t) == Ok((Dict(m), |text|))
                     && Ascending(m) && forall k :: Get(m, k) == GetLast(es, k)
  {
    hide ParseEntries, ParseItems, ParseInteger, ParseString, EncodeEntries, Collect, Get, GetLast, Ascending, Valid;
    Marks();
    var s := Ascii("d") + EncodeEntries(es) + Ascii("e") + t;
    RoundTripEntries(es, t);
    assert s[0] == CHAR_D && s[1..] == EncodeEntries(es) + [CHAR_E] + t;
    CollectIsLastWins(es);
  }

  predicate FirstDifference(a: bytes, b: bytes, k: nat) {
    k <= |a| && k < |b| && a[..k] == b[..k] && (k == |a| || a[k] < b[k])
  }

  // Keys ascend like raw strings: by the first byte that differs, and a prefix comes first.
  lemma {:induction false} LessExactly(a: bytes, b: bytes)
    ensures Less(a, b) <==> exists k: nat :: FirstDifference(a, b, k)
  {
    if Less(a, b) {
      if a == [] || a[0] < b[0] {
        assert FirstDifference(a, b, 0);
      } else {
        LessExactly(a[1..], b[1..]);
        var k: nat :| FirstDifference(a[1..], b[1..], k);
        assert a[..k + 1] == [a[0]] + a[1..][..k] && b[..k + 1] == [b[0]] + b[1..][..k];
        assert FirstDifference(a, b, k + 1);
      }
    }
    if k: nat :| FirstDifference(a, b, k) {
      if k > 0 {
        assert a[0] == a[..k][0] == b[..k][0] == b[0];
        LessExactly(a[1..], b[1..]);
        assert a[1..][..k - 1] == a[..k][1..] && b[1..][..k - 1] == b[..k][1..];
        assert FirstDifference(a[1..], b[1..], k - 1);
      }
    }
  }

  // --- the info scanner ---

  // The key is spelled with the six characters "4:info".
  predicate IsInfoField(f: Field) { f.length + Ascii(":") + f.key == Ascii("4:info") }

  // The key and the value of the first field, as the scanner sees them.
  lemma ScanField(f: Field, rest: bytes)
    requires GoodField(f)
    ensures ScanInfo(FieldText(f) + rest) == if IsInfoField(f) then Some(Text(f.value)) else ScanInfo(rest)
  {
    hide Good, Text, Value, ScanInfo, SpellsLength, Parse, ParseEntry, Ascii;
    var key, s, n, t := f.length + Ascii(":") + f.key, FieldText(f) + rest, |f.length| + 1 + |f.key|, |FieldText(f)|;
    assert ENCODED_INFO_KEY == Ascii("4:info") by { InfoKeyText(); }
    StringIsRead(f.length, f.key, Text(f.value) + rest);
    ConcatAssoc(key, Text(f.value), rest);
    FieldIsRead(f, rest);
    ScanUnfold(s);
    assert s[..n] == key && s[n..t] == Text(f.value) && s[t..] == rest;
  }

  lemma InfoKeyText()
    ensures ENCODED_INFO_KEY == Ascii("4:info")
  {
  }

  lemma {:induction false} ScanFields(fs: seq<Field>, rest: bytes)
    requires forall f :: f in fs ==> GoodField(f) && !IsInfoField(f)
    ensures ScanInfo(FieldsText(fs) + rest) == ScanInfo(rest)
  {
    hide GoodField, IsInfoField, FieldText, ScanInfo;
    if fs == [] {
      assert FieldsText(fs) + rest == rest;
    } else {
      assert fs[0] in fs;
      ScanField(fs[0], FieldsText(fs[1..]) + rest);
      ConcatAssoc(FieldText(fs[0]), FieldsText(fs[1..]), rest);
      ScanFields(fs[1..], rest);
    }
  }

  // `find_info_dict_slice` returns the text of the value after the first key spelled "4:info", whatever comes after it;
  // without such a key, and without a dictionary, nothing.
  lemma ScannerIs(fs: seq<Field>, f: Field, t: bytes)
    requires forall x :: x in fs ==> GoodField(x) && !IsInfoField(x)
    ensures GoodField(f) && IsInfoField(f) ==>
              FindInfo(Ascii("d") + FieldsText(fs) + FieldText(f) + t) == Some(Text(f.value))
    ensures FindInfo(Ascii("d") + FieldsText(fs) + Ascii("e") + t) == None
    ensures !(Ascii("d") <= t) ==> FindInfo(t) == None
  {
    hide GoodField, IsInfoField, FieldText, FieldsText, ScanInfo, Text;
    Marks();
    var a, b := Ascii("d") + FieldsText(fs) + FieldText(f) + t, Ascii("d") + FieldsText(fs) + Ascii("e") + t;
    assert a[1..] == FieldsText(fs) + (FieldText(f) + t) && b[1..] == FieldsText(fs) + (Ascii("e") + t);
    ScanFields(fs, FieldText(f) + t);
    ScanFields(fs, Ascii("e") + t);
    ScanUnfold(Ascii("e") + t);
    if GoodField(f) {
      ScanField(f, t);
    }
  }

  // --- errors ---

  // How a value can fail to start: no input, or a byte that starts none.
  lemma NoValue(c: byte, t: bytes)
    ensures Parse([]) == Err(UnexpectedEOF)
    ensures [c] != Ascii("i") && [c] != Ascii("l") && [c] != Ascii("d") && !(Ascii("0")[0] <= c <= Ascii("9")[0]) ==>
              Parse([c] + t) == Err(InvalidChar(c))
  {
    Marks();
  }

  // How an integer can fail: it does not end; what is before its end is not UTF-8, or is not a number.
  lemma BadInteger(text: bytes, t: bytes)
    requires CHAR_E !in text
    ensures Parse(Ascii("i") + text) == Err(UnexpectedEOF)
    ensures (forall i :: !SpellsInt(text, i)) ==>
              Parse(Ascii("i") + text + Ascii("e") + t)
              == Err(if Utf8.ValidUtf8(text) then InvalidInteger else Utf8Error)
  {
    hide ParseI64, SpellsInt, Utf8.ValidUtf8;
    Marks();
    var s := Ascii("i") + text;
    assert forall k :: 1 <= k < |s| ==> s[k] == text[k - 1] && text[k - 1] in text;
    var u := Ascii("i") + text + Ascii("e") + t;
    assert forall k :: 1 <= k < |s| ==> u[k] == s[k];
    FindHit(u, CHAR_E, 1, 1 + |text|);
    assert u[1..1 + |text|] == text;
    if ParseI64(text).Some? {
      IntExactly(text, ParseI64(text).value);
    }
  }

  // How a string can fail: its length does not end, is not a number, or is more than there is.
  lemma BadString(length: bytes, rest: bytes)
    requires length != [] && IsDigit(length[0]) && COLON !in length
    ensures Parse(length) == Err(UnexpectedEOF)
    ensures (forall n: nat :: !SpellsLength(length, n)) ==>
              Parse(length + Ascii(":") + rest) == Err(if Utf8.ValidUtf8(length) then InvalidLength else Utf8Error)
    ensures (exists n: nat :: n > |rest| && SpellsLength(length, n)) ==>
              Parse(length + Ascii(":") + rest) == Err(UnexpectedEOF)
  {
    hide ParseUsize, SpellsLength, Utf8.ValidUtf8;
    Marks();
    assert forall k :: 0 <= k < |length| ==> length[k] in length;
    var u := length + Ascii(":") + rest;
    FindHit(u, COLON, 0, |length|);
    assert u[..|length|] == length;
    if ParseUsize(length).Some? {
      LengthExactly(length, ParseUsize(length).value);
    }
    if n: nat :| n > |rest| && SpellsLength(length, n) {
      LengthExactly(length, n);
      SpellingsHaveNoMarks(length, n);
      Utf8.AsciiIsValid(length);
    }
  }

  // A key that is not a string is refused, with the byte after it; with none left, the program panics.
  lemma BadKey(key: Raw, t: bytes)
    requires Good(key) && !key.RawString?
    ensures Parse(Ascii("d") + Text(key) + t) == Err(if t == [] then IndexOutOfBounds else InvalidChar(t[0]))
  {
    hide Good, Text, ParseEntry, ParseItems, ParseInteger, ParseString;
    Marks();
    BadKeyEntry(key, t);
    FirstByte(key);
    var s, u := Ascii("d") + Text(key) + t, Text(key) + t;
    assert s[1..] == u && u[0] == Text(key)[0];
    assert ParseEntries(u).Err?;
  }

  lemma BadKeyEntry(key: Raw, t: bytes)
    requires Good(key) && !key.RawString?
    ensures ParseEntry(Text(key) + t) == Err(if t == [] then IndexOutOfBounds else InvalidChar(t[0]))
  {
    hide Good, Text, Value, Parse;
    TextIsRead(key, t);
    ValueKind(key);
    var u, n := Text(key) + t, |Text(key)|;
    assert t != [] ==> u[n] == t[0];
  }

  lemma ValueKind(r: Raw)
    ensures Value(r).ByteString? <==> r.RawString?
  {
  }

  // A list fails the way its first bad item does, a dictionary the way its first bad value does.
  lemma BadInside(items: seq<Raw>, fields: seq<Field>, f: Field, rest: bytes)
    requires Parse(rest).Err? && (rest == [] || rest[0] != CHAR_E)
    requires forall x :: x in items ==> Good(x)
    requires forall f :: f in fields ==> GoodField(f)
    requires SpellsLength(f.length, |f.key|)
    ensures Parse(Ascii("l") + ItemsText(items) + rest) == Err(Parse(rest).error)
    ensures Parse(Ascii("d") + FieldsText(fields) + rest) == Err(Parse(rest).error)
    ensures Parse(Ascii("d") + FieldsText(fields) + f.length + Ascii(":") + f.key + rest) == Err(Parse(rest).error)
  {
    hide Good, ItemsText, FieldsText, SpellsLength, ParseInteger, ParseString, ParseItems, ParseEntries;
    Marks();
    var s := Ascii("l") + ItemsText(items) + rest;
    assert s[1..] == ItemsText(items) + rest;
    BadItem(items, rest);
    var d := Ascii("d") + FieldsText(fields) + rest;
    assert d[1..] == FieldsText(fields) + rest;
    BadEntryStart(rest);
    BadField(fields, rest);
    var key := f.length + Ascii(":") + f.key;
    var v := Ascii("d") + FieldsText(fields) + f.length + Ascii(":") + f.key + rest;
    assert v[1..] == FieldsText(fields) + (key + rest);
    BadEntryValue(f, rest);
    BadField(fields, key + rest);
  }

  lemma BadEntryStart(rest: bytes)
    requires Parse(rest).Err?
    ensures ParseEntry(rest) == Err(Parse(rest).error)
  {
    hide Parse;
  }

  lemma BadEntryValue(f: Field, rest: bytes)
    requires SpellsLength(f.length, |f.key|) && Parse(rest).Err?
    ensures var s := f.length + Ascii(":") + f.key + rest;
            s != [] && s[0] != CHAR_E && ParseEntry(s) == Err(Parse(rest).error)
  {
    hide Parse, DigitsValue;
    StringIsRead(f.length, f.key, rest);
    var s, n := f.length + Ascii(":") + f.key + rest, |f.length| + 1 + |f.key|;
    assert s[n..] == rest && IsDigit(f.length[0]);
  }

  lemma {:induction false} BadItem(rs: seq<Raw>, rest: bytes)
    requires Parse(rest).Err? && (rest == [] || rest[0] != CHAR_E)
    requires forall x :: x in rs ==> Good(x)
    ensures ParseItems(ItemsText(rs) + rest) == Err(Parse(rest).error)
  {
    hide Parse, Good, Text, Value;
    if rs == [] {
      assert ItemsText(rs) + rest == rest;
      NothingFails(rest);
    } else {
      var s, u := ItemsText(rs) + rest, ItemsText(rs[1..]) + rest;
      assert rs[0] in rs;
      BadItem(rs[1..], rest);
      TextIsRead(rs[0], u);
      FirstByte(rs[0]);
      assert s == Text(rs[0]) + u && s[|Text(rs[0])|..] == u;
    }
  }

  lemma NothingFails(rest: bytes)
    requires Parse(rest).Err?
    ensures rest == [] ==> Parse(rest) == Err(UnexpectedEOF)
  {
  }

  lemma {:induction false} BadField(fs: seq<Field>, rest: bytes)
    requires ParseEntry(rest).Err? && (rest == [] || rest[0] != CHAR_E)
    requires forall f :: f in fs ==> GoodField(f)
    ensures ParseEntries(FieldsText(fs) + rest) == Err(ParseEntry(rest).error)
  {
    hide ParseItems, ParseInteger, ParseString, Good, FieldText, Value, SpellsLength;
    if fs == [] {
      assert FieldsText(fs) + rest == rest;
    } else {
      var s, u := FieldsText(fs) + rest, FieldsText(fs[1..]) + rest;
      assert fs[0] in fs;
      BadField(fs[1..], rest);
      FieldIsRead(fs[0], u);
      assert s == FieldText(fs[0]) + u && s[|FieldText(fs[0])|..] == u;
    }
  }
}
