// Inputs on which the program does something else than one might expect, one for each condition of the exact results.
module Differences {
  import opened Prelude
  import opened Decimal
  import opened Bencoding
  import opened BencodingProofs
  import opened Metainfo
  import opened MetainfoProofs
  import Magnet
  import MagnetWorker
  import Utf8
  import Wire

  // With a repeated key scanner and decoder differ: "d4:infoi1e4:infoi2ee" decodes to info = 2, while the
  // scanner returns "i1e".
  lemma DuplicateInfoKeyDisagrees()
    ensures exists s ::
      && Decode(s).Ok? && Decode(s).value.Dict?
      && Get(Decode(s).value.entries, INFO_KEY) == Some(Int(2))
      && FindInfo(s) == Some(Encode(Int(1)))
  {
    hide ParseEntries, ScanInfo, EncodeEntries, Collect;
    var raw := [Entry(INFO_KEY, Int(1)), Entry(INFO_KEY, Int(2))];
    var body := EncodeEntries(raw) + [CHAR_E];
    var s := [CHAR_D] + body;
    assert s[1..] == body == body + [];
    RoundTripEntries(raw, []);
    ScanInfoOfEncoded(raw, []);
    CollectIsLastWins(raw);
    assert Decode(s) == Ok(Dict(Collect(raw)));
    assert GetLast(raw, INFO_KEY) == Some(Int(2));
  }

  const PADDED_INFO_KEY: bytes := [48, 52, 58, 105, 110, 102, 111] // "04:info"

  lemma PaddedKeyParses(t: bytes)
    ensures Parse(PADDED_INFO_KEY + t) == Ok((ByteString(INFO_KEY), 7))
  {
    hide Utf8.ValidUtf8;
    var s := PADDED_INFO_KEY + t;
    FindHit(s, COLON, 0, 2);
    assert s[..2] == [48, 52];
    Utf8.AsciiIsValid([48, 52]);
    assert [48, 52][..1] == [48] && [48][..0] == [];
    assert DigitsValue([48]) == 0 && DigitsValue([48, 52]) == 4;
    assert s[3..7] == INFO_KEY;
  }

  // "d04:info<value>e": the decoder finds the value, the scanner finds nothing.
  lemma PaddedInfoKeyIsNotScanned(v: Bencode)
    requires Valid(v)
    ensures var s := [CHAR_D] + PADDED_INFO_KEY + Encode(v) + [CHAR_E];
            Decode(s) == Ok(Dict([Entry(INFO_KEY, v)])) && FindInfo(s) == None
  {
    hide Encode, Parse;
    var rest, end := Encode(v) + [CHAR_E], [CHAR_E];
    var s, body := [CHAR_D] + PADDED_INFO_KEY + Encode(v) + [CHAR_E], PADDED_INFO_KEY + rest;
    assert s[1..] == body;
    PaddedKeyParses(rest);
    RoundTrip(v, end);
    assert body[7..] == rest && rest[|Encode(v)|..] == end && body[7 + |Encode(v)|..] == end;
    assert ParseEntry(body) == Ok((Entry(INFO_KEY, v), 7 + |Encode(v)|));
    assert ParseEntries(end) == Ok(([], 1));
    assert body[..7] == PADDED_INFO_KEY != ENCODED_INFO_KEY;
    assert ScanInfo(end) == None;
    OneEntry(Entry(INFO_KEY, v));
    assert ParseEntries(s[1..]) == Ok(([Entry(INFO_KEY, v)], |body|));
    DictionaryParses(s);
  }

  lemma OneEntry(e: Entry)
    ensures Collect([e]) == [e] && [e] + [] == [e]
  {
    assert [e][..0] == [];
  }

  lemma DictionaryParses(s: bytes)
    requires s != [] && s[0] == CHAR_D && ParseEntries(s[1..]).Ok?
    ensures Decode(s) == Ok(Dict(Collect(ParseEntries(s[1..]).value.0)))
  {
  }

  // "i+<digit>e" decodes, and encodes again without the plus sign.
  lemma PlusSignIsLost(d: nat, t: bytes)
    requires d < 10
    ensures var s := [CHAR_I, PLUS, ZERO + d, CHAR_E];
            Parse(s + t) == Ok((Int(d), 4)) && Encode(Int(d)) == [CHAR_I, ZERO + d, CHAR_E] != s
  {
    hide Utf8.ValidUtf8;
    var s, text := [CHAR_I, PLUS, ZERO + d, CHAR_E] + t, [PLUS, ZERO + d];
    FindHit(s, CHAR_E, 1, 3);
    assert s[1..3] == text && text[1..] == [ZERO + d];
    Utf8.AsciiIsValid(text);
    assert [ZERO + d][..0] == [];
    assert DigitsValue([ZERO + d]) == d;
  }

  // Any metainfo with its tiers replaced by a single empty one loads without a list of trackers.
  lemma EmptyTierIsLost(H: bytes -> Digest, m: TorrentMeta)
    requires ValidMeta(m) && m.announceList == Some([[]]) && m.infoHash == H(Encode(InfoToBencode(m.info)))
    ensures FromBytes(H, IntoBytes(m)) == Ok(m.(announceList := None)) != Ok(m)
  {
    hide FromBytes, IntoBytes, Encode, InfoToBencode;
    MetaRoundTrip(H, m);
    assert m.announceList.value[1..] == [];
    assert DropEmpty(m.announceList.value) == [];
  }

  // A tracker that is one space arrives as a plus sign.
  lemma SpacedTrackerChanges(hash: bytes)
    requires |hash| == 40 && Magnet.IsHex(hash)
    ensures var r := Magnet.Parse(Magnet.Expand(hash, [[32]])); r.Ok? && r.value.trackers == [[43]]
  {
    hide Magnet.Parse, Magnet.Expand, Magnet.ToHex, Magnet.ToLower;
    Utf8.AsciiIsValid([32]);
    Magnet.ExpansionParses(hash, [[32]]);
    assert [[32]][1..] == [];
    assert [32][1..] == [];
    assert Magnet.PlusForSpace([32]) == [43];
  }

  // A Have frame whose length field says 9 is read all the same, and written with the length 5.
  lemma WrongLengthIsRead(index: bytes)
    requires |index| == 4
    ensures var s := [0, 0, 0, 9, 4] + index;
            && Wire.Read(s) == Ok((Wire.Have(Wire.FromBe32(index)), 9))
            && Wire.Frame(Wire.Have(Wire.FromBe32(index))) == [0, 0, 0, 5, 4] + index != s
  {
    var s := [0, 0, 0, 9, 4] + index;
    assert s[..4] == [0, 0, 0, 9] && s[5..] == index && index[..4] == index;
    SmallLengths();
    hide Wire.FromBe32, Wire.Be32;
    Wire.FromBe32Inverse(index);
    Wire.Be32Length(Wire.FromBe32(index));
  }

  lemma SmallLengths()
    ensures Wire.FromBe32([0, 0, 0, 9]) == 9 && Wire.Be32(5) == [0, 0, 0, 5]
  {
  }

  // "d6:lengthi+<digit>e4:name0:12:piece lengthi1e6:pieces0:e"
  function PlusMetadata(d: nat): bytes
    requires d < 10
  {
    [CHAR_D] + (EncodeString(LENGTH) + [CHAR_I, PLUS, ZERO + d, CHAR_E]) + EncodeEntries(OtherFields()) + [CHAR_E]
  }

  function OtherFields(): Map {
    [Entry(NAME, ByteString([])), Entry(PIECE_LENGTH, Int(1)), Entry(PIECES, ByteString([]))]
  }

  function PlusInfo(d: nat): InfoDict { InfoDict([], 1, [], Single(d)) }

  // Metadata with a plus sign passes the check of the magnet's hash, and the metainfo returned has another info hash:
  // that of bytes that differ from the metadata.
  lemma PlusMetadataIsRehashed(H: bytes -> Digest, d: nat)
    requires d < 10
    ensures var metadata, info := PlusMetadata(d), InfoToBencode(PlusInfo(d));
            && MagnetWorker.Conclude(H, metadata, H(metadata))
            == Ok((TorrentMeta([], None, PlusInfo(d), H(Encode(info))), info))
            && Encode(info) != metadata
  {
    hide Encode, FromBytes, Insert, InfoFields, ValidInfo, PlusMetadata;
    var metadata, info := PlusMetadata(d), PlusInfo(d);
    var v := InfoToBencode(info);
    PlusMetadataDecodes(d);
    MagnetWorker.RewrapFields(v);
    var m := TorrentMeta([], None, info, H(Encode(v)));
    assert ValidInfo(info) by { PlusInfoIsValid(d); }
    MetaRoundTrip(H, m);
    assert MagnetWorker.Rewrap(v) == IntoBytes(m);
    MagnetWorker.NoTiersKept();
  }

  lemma PlusInfoIsValid(d: nat)
    requires d < 10
    ensures ValidInfo(PlusInfo(d))
  {
  }

  lemma {:induction false} LessAt(a: bytes, b: bytes, k: nat)
    requires k < |a| && k < |b| && a[..k] == b[..k] && a[k] < b[k]
    ensures Less(a, b)
  {
    if k > 0 {
      assert a[0] == a[..k][0] == b[..k][0] == b[0];
      assert a[1..][..k - 1] == a[..k][1..] == b[..k][1..] == b[1..][..k - 1];
      LessAt(a[1..], b[1..], k - 1);
    }
  }

  lemma FieldOrder()
    ensures Less(LENGTH, NAME) && Less(NAME, PIECE_LENGTH) && Less(NAME, PIECES) && Less(PIECE_LENGTH, PIECES)
    ensures Less(LENGTH, PIECE_LENGTH) && Less(LENGTH, PIECES)
    ensures !Less(PIECE_LENGTH, NAME) && !Less(PIECES, NAME) && !Less(PIECES, PIECE_LENGTH)
  {
    LessAt(LENGTH, NAME, 0);
    LessAt(NAME, PIECE_LENGTH, 0);
    LessAt(NAME, PIECES, 0);
    LessAt(LENGTH, PIECE_LENGTH, 0);
    LessAt(LENGTH, PIECES, 0);
    LessAt(PIECE_LENGTH, PIECES, 5);
    LessTrichotomy(NAME, PIECE_LENGTH);
    LessTrichotomy(NAME, PIECES);
    LessTrichotomy(PIECE_LENGTH, PIECES);
  }

  lemma PlusFields(d: nat)
    requires d < 10
    ensures InfoFields(PlusInfo(d)) == [Entry(LENGTH, Int(d))] + OtherFields()
    ensures Ascending([Entry(LENGTH, Int(d))] + OtherFields())
  {
    hide Less;
    FieldOrder();
    KeysDiffer();
    var e1, e2, e3 := Entry(NAME, ByteString([])), Entry(PIECE_LENGTH, Int(1)), Entry(PIECES, ByteString([]));
    assert Insert([], NAME, ByteString([])) == [e1];
    assert Insert([e1], PIECE_LENGTH, Int(1)) == [e1, e2] by {
      assert [e1][1..] == [];
    }
    InsertAtEnd([e1, e2], e3);
    assert [e1, e2] + [e3] == [e1, e2, e3];
    assert JoinDigests([]) == [];
  }

  lemma PlusMetadataDecodes(d: nat)
    requires d < 10
    ensures Decode(PlusMetadata(d)) == Ok(InfoToBencode(PlusInfo(d)))
    ensures Encode(InfoToBencode(PlusInfo(d))) != PlusMetadata(d)
  {
    hide Parse, ParseEntry, ParseEntries, Encode, EncodeEntries, EncodeString, Collect, Ascending,
      InfoFields, OtherFields;
    var key, value, tail :=
      EncodeString(LENGTH), [CHAR_I, PLUS, ZERO + d, CHAR_E], EncodeEntries(OtherFields()) + [CHAR_E];
    var metadata, body := PlusMetadata(d), key + value + tail;
    assert metadata == [CHAR_D] + body && metadata[1..] == body;
    PlusEntryParses(d, tail);
    OthersParse();
    assert body[|key| + 4..] == tail;
    EntryThenEntries(body);
    DictionaryParses(metadata);
    PlusFields(d);
    CollectOfAscending([Entry(LENGTH, Int(d))] + OtherFields());
    PlusEncoding(d);
  }

  lemma EntryThenEntries(s: bytes)
    requires s != [] && s[0] != CHAR_E && ParseEntry(s).Ok? && ParseEntries(s[ParseEntry(s).value.1..]).Ok?
    ensures ParseEntries(s).Ok?
    ensures ParseEntries(s).value.0
         == [ParseEntry(s).value.0] + ParseEntries(s[ParseEntry(s).value.1..]).value.0
  {
  }

  lemma PlusEntryParses(d: nat, tail: bytes)
    requires d < 10
    ensures var key, value := EncodeString(LENGTH), [CHAR_I, PLUS, ZERO + d, CHAR_E];
            && key != [] && key[0] != CHAR_E
            && ParseEntry(key + value + tail) == Ok((Entry(LENGTH, Int(d)), |key| + 4))
  {
    hide Parse, Encode;
    var key, value := EncodeString(LENGTH), [CHAR_I, PLUS, ZERO + d, CHAR_E];
    assert IsDigit(key[0]);
    RoundTripString(LENGTH, value + tail);
    PlusSignIsLost(d, tail);
    assert key + value + tail == key + (value + tail);
    assert (key + value + tail)[|key|..] == value + tail;
  }

  lemma OthersParse()
    ensures ParseEntries(EncodeEntries(OtherFields()) + [CHAR_E])
         == Ok((OtherFields(), |EncodeEntries(OtherFields())| + 1))
  {
    hide ParseEntries, EncodeEntries;
    RoundTripEntries(OtherFields(), []);
    assert EncodeEntries(OtherFields()) + [CHAR_E] + [] == EncodeEntries(OtherFields()) + [CHAR_E];
  }

  // The program writes the dictionary one byte shorter.
  lemma PlusEncoding(d: nat)
    requires d < 10
    ensures |Encode(InfoToBencode(PlusInfo(d)))| + 1 == |PlusMetadata(d)|
  {
    hide InfoFields, OtherFields, EncodeString, NatText;
    var e := Entry(LENGTH, Int(d));
    PlusFields(d);
    PlusSignIsLost(d, []);
    assert ([e] + OtherFields())[1..] == OtherFields();
    assert EncodeEntries([e] + OtherFields()) == EncodeEntry(e) + EncodeEntries(OtherFields());
  }
}
