// Torrent files to the letter: what crates/core/src/meta.rs writes for a metainfo, and what it makes of any file.
module MetainfoTexts {
  import opened Prelude
  import opened Decimal
  import opened Bencoding
  import opened BencodingProofs
  import opened Metainfo
  import opened MetainfoProofs
  import opened Utf8
  import Grammar

  // --- the texts ---

  function StringText(s: bytes): bytes { NatText(|s|) + Ascii(":") + s }

  function StringsText(xs: seq<bytes>): bytes {
    if xs == [] then [] else StringText(xs[0]) + StringsText(xs[1..])
  }

  function IntField(key: bytes, i: int): bytes { key + Ascii("i") + IntText(i) + Ascii("e") }

  function ListText(items: bytes): bytes { Ascii("l") + items + Ascii("e") }

  function DictText(fields: bytes): bytes { Ascii("d") + fields + Ascii("e") }

  function FileText(f: TorrentFile): bytes {
    DictText(IntField(Ascii("6:length"), AsI64(f.length)) + (Ascii("4:path") + ListText(StringsText(f.path))))
  }

  function FilesText(fs: seq<TorrentFile>): bytes { if fs == [] then [] else FileText(fs[0]) + FilesText(fs[1..]) }

  function ModeText(mode: FileMode): bytes {
    match mode
    case Single(length) => IntField(Ascii("6:length"), AsI64(length))
    case Multi(files) => Ascii("5:files") + ListText(FilesText(files))
  }

  // Keys ascend: length or files, name, piece length, pieces.
  function InfoText(info: InfoDict): bytes {
    DictText(ModeText(info.mode)
             + (Ascii("4:name") + StringText(info.name)
                + (IntField(Ascii("12:piece length"), AsI64(info.pieceLength))
                   + (Ascii("6:pieces") + StringText(JoinDigests(info.pieces))))))
  }

  function TiersText(tiers: seq<seq<bytes>>): bytes {
    if tiers == [] then [] else ListText(StringsText(tiers[0])) + TiersText(tiers[1..])
  }

  // The list of tiers stands between the other two, if there is one.
  function MetaText(m: TorrentMeta): bytes {
    var announce, info := Ascii("8:announce") + StringText(m.announce), Ascii("4:info") + InfoText(m.info);
    DictText(announce
             + (if m.announceList.Some?
                then Ascii("13:announce-list") + ListText(TiersText(m.announceList.value)) + info
                else info))
  }

  // --- keys ---

  lemma Marks()
    ensures Ascii("i") == [CHAR_I] && Ascii("l") == [CHAR_L] && Ascii("d") == [CHAR_D] && Ascii("e") == [CHAR_E]
    ensures Ascii(":") == [COLON]
  {
  }

  lemma KeysAre()
    ensures ANNOUNCE == Ascii("announce") && ANNOUNCE_LIST == Ascii("announce-list") && INFO_KEY == Ascii("info")
    ensures NAME == Ascii("name") && PIECE_LENGTH == Ascii("piece length") && PIECES == Ascii("pieces")
    ensures LENGTH == Ascii("length") && FILES == Ascii("files") && PATH == Ascii("path")
  {
  }

  lemma OtherNames()
    ensures ROOT == Ascii("root") && FILE_ITEM == Ascii("file item") && PATH_SEGMENT == Ascii("path segment")
    ensures LENGTH_OR_FILES == Ascii("length or files")
  {
  }

  lemma InfoKeysAreWritten()
    ensures EncodeString(NAME) == Ascii("4:name") && EncodeString(PIECE_LENGTH) == Ascii("12:piece length")
    ensures EncodeString(PIECES) == Ascii("6:pieces") && EncodeString(LENGTH) == Ascii("6:length")
    ensures EncodeString(FILES) == Ascii("5:files") && EncodeString(PATH) == Ascii("4:path")
  {
    assert NatText(1) == [49];
    assert NatText(12) == [49, 50];
    assert NatText(4) == [52] && NatText(6) == [54] && NatText(5) == [53];
  }

  lemma MetaKeysAreWritten()
    ensures EncodeString(ANNOUNCE) == Ascii("8:announce") && EncodeString(ANNOUNCE_LIST) == Ascii("13:announce-list")
    ensures EncodeString(INFO_KEY) == Ascii("4:info")
  {
    assert NatText(1) == [49];
    assert NatText(13) == [49, 51];
    assert NatText(8) == [56] && NatText(4) == [52];
  }

  lemma KeysAscend()
    ensures Less(LENGTH, NAME) && Less(FILES, NAME) && Less(NAME, PIECE_LENGTH) && Less(PIECE_LENGTH, PIECES)
    ensures Less(LENGTH, PIECE_LENGTH) && Less(LENGTH, PIECES) && Less(FILES, PIECE_LENGTH) && Less(FILES, PIECES)
    ensures Less(NAME, PIECES) && Less(LENGTH, PATH)
    ensures Less(ANNOUNCE, ANNOUNCE_LIST) && Less(ANNOUNCE, INFO_KEY) && Less(ANNOUNCE_LIST, INFO_KEY)
  {
    assert Grammar.FirstDifference(PIECE_LENGTH, PIECES, 5);
    Grammar.LessExactly(PIECE_LENGTH, PIECES);
    assert Grammar.FirstDifference(ANNOUNCE, ANNOUNCE_LIST, 8);
    Grammar.LessExactly(ANNOUNCE, ANNOUNCE_LIST);
  }

  // --- building dictionaries ---

  lemma InsertFirst(es: Map, e: Entry)
    requires es == [] || Less(e.key, es[0].key)
    ensures Insert(es, e.key, e.value) == [e] + es
  {
    if es != [] {
      LessTrichotomy(e.key, es[0].key);
    }
  }

  lemma EncodedCons(e: Entry, es: Map)
    ensures EncodeEntries([e] + es) == EncodeEntry(e) + EncodeEntries(es)
  {
    assert ([e] + es)[1..] == es;
  }

  lemma EncodedNone()
    ensures EncodeEntries([]) == []
  {
  }

  // --- the writer ---

  lemma StringIsText(s: bytes)
    ensures EncodeString(s) == StringText(s)
  {
    Marks();
  }

  lemma IntEntryIsText(key: bytes, i: int)
    ensures EncodeEntry(Entry(key, Int(i))) == IntField(EncodeString(key), i)
  {
    hide IntText, EncodeString;
    Marks();
  }

  lemma {:induction false} StringsAreText(xs: seq<bytes>)
    ensures EncodeItems(Strings(xs)) == StringsText(xs)
  {
    hide StringText, EncodeString;
    if xs != [] {
      StringIsText(xs[0]);
      StringsAreText(xs[1..]);
      assert Strings(xs)[1..] == Strings(xs[1..]);
    }
  }

  lemma ListIsText(items: seq<Bencode>)
    ensures Encode(List(items)) == ListText(EncodeItems(items))
  {
    hide EncodeItems;
    Marks();
  }

  lemma DictIsText(es: Map)
    ensures Encode(Dict(es)) == DictText(EncodeEntries(es))
  {
    hide EncodeEntries;
    Marks();
  }

  // Dictionaries of one entry after another.
  lemma OneEntry(a: Entry)
    ensures EncodeEntries([a]) == EncodeEntry(a)
  {
    hide EncodeEntry;
    EncodedCons(a, []);
    EncodedNone();
    assert [a] + [] == [a];
  }

  lemma FileIsText(f: TorrentFile)
    ensures Encode(FileToBencode(f)) == FileText(f)
  {
    hide EncodeEntry, EncodeEntries, EncodeString, EncodeItems, StringsText, Strings, Encode, Ascii, Insert;
    hide IntField, ListText, DictText;
    var a, b := Entry(LENGTH, Int(AsI64(f.length))), Entry(PATH, List(Strings(f.path)));
    FileEntries(a, b);
    DictIsText([a] + [b]);
    EncodedCons(a, [b]);
    OneEntry(b);
    ListIsText(Strings(f.path));
    StringsAreText(f.path);
    InfoKeysAreWritten();
    IntEntryIsText(LENGTH, AsI64(f.length));
    EntryIsText(b);
  }

  lemma EntryIsText(e: Entry)
    ensures EncodeEntry(e) == EncodeString(e.key) + Encode(e.value)
  {
  }

  lemma FileEntries(a: Entry, b: Entry)
    requires a.key == LENGTH && b.key == PATH
    ensures Insert(Insert([], LENGTH, a.value), PATH, b.value) == [a] + [b]
  {
    KeysAscend();
    InsertFirst([], a);
    InsertAtEnd([a], b);
  }

  lemma {:induction false} FilesAreText(fs: seq<TorrentFile>)
    ensures EncodeItems(FilesToBencode(fs)) == FilesText(fs)
  {
    hide FileToBencode, FileText, Encode;
    if fs != [] {
      FileIsText(fs[0]);
      FilesAreText(fs[1..]);
      assert FilesToBencode(fs)[1..] == FilesToBencode(fs[1..]);
    }
  }

  lemma {:induction false} TiersAreText(tiers: seq<seq<bytes>>)
    ensures EncodeItems(TiersToBencode(tiers)) == TiersText(tiers)
  {
    hide Strings, StringsText, Encode;
    if tiers != [] {
      ListIsText(Strings(tiers[0]));
      StringsAreText(tiers[0]);
      TiersAreText(tiers[1..]);
      assert TiersToBencode(tiers)[1..] == TiersToBencode(tiers[1..]);
    }
  }

  // The entry of the file mode comes first.
  function ModeEntry(mode: FileMode): Entry {
    match mode
    case Single(length) => Entry(LENGTH, Int(AsI64(length)))
    case Multi(files) => Entry(FILES, List(FilesToBencode(files)))
  }

  lemma ModeIsText(mode: FileMode)
    ensures EncodeEntry(ModeEntry(mode)) == ModeText(mode)
  {
    hide FilesText, FilesToBencode, EncodeItems, Encode, Ascii, EncodeString, EncodeEntry, IntField, ListText;
    InfoKeysAreWritten();
    EntryIsText(ModeEntry(mode));
    match mode
    case Single(length) => IntEntryIsText(LENGTH, AsI64(length));
    case Multi(files) =>
      FilesAreText(files);
      ListIsText(FilesToBencode(files));
  }

  lemma InfoEntries(info: InfoDict)
    ensures InfoFields(info)
            == [ModeEntry(info.mode)] + ([Entry(NAME, ByteString(info.name))]
               + ([Entry(PIECE_LENGTH, Int(AsI64(info.pieceLength)))]
                  + [Entry(PIECES, ByteString(JoinDigests(info.pieces)))]))
  {
    hide Insert, JoinDigests, FilesToBencode, Less;
    KeysAscend();
    var n, l, p := Entry(NAME, ByteString(info.name)), Entry(PIECE_LENGTH, Int(AsI64(info.pieceLength))),
                   Entry(PIECES, ByteString(JoinDigests(info.pieces)));
    InsertFirst([], n);
    InsertAtEnd([n], l);
    InsertAtEnd([n, l], p);
    assert [n] + [] == [n] && [n] + [l] == [n, l] && [n, l] + [p] == [n, l, p] == [n] + ([l] + [p]);
    InsertFirst([n, l, p], ModeEntry(info.mode));
  }

  // The info dictionary that is hashed is this text.
  lemma InfoIsText(info: InfoDict)
    ensures Encode(InfoToBencode(info)) == InfoText(info)
  {
    hide InfoFields, EncodeEntry, EncodeEntries, EncodeString, JoinDigests, Encode, Ascii, IntField, DictText, ModeText;
    hide ModeEntry, StringText;
    var m, n := ModeEntry(info.mode), Entry(NAME, ByteString(info.name));
    var l, p := Entry(PIECE_LENGTH, Int(AsI64(info.pieceLength))), Entry(PIECES, ByteString(JoinDigests(info.pieces)));
    InfoEntries(info);
    DictIsText(InfoFields(info));
    EncodedCons(m, [n] + ([l] + [p]));
    EncodedCons(n, [l] + [p]);
    EncodedCons(l, [p]);
    OneEntry(p);
    InfoKeysAreWritten();
    ModeIsText(info.mode);
    IntEntryIsText(PIECE_LENGTH, AsI64(info.pieceLength));
    StringEntryIsText(NAME, info.name);
    StringEntryIsText(PIECES, JoinDigests(info.pieces));
  }

  lemma StringEntryIsText(key: bytes, s: bytes)
    ensures EncodeEntry(Entry(key, ByteString(s))) == EncodeString(key) + StringText(s)
  {
    hide EncodeString, StringText;
    StringIsText(s);
  }

  lemma MetaEntries(m: TorrentMeta)
    ensures var a, i := Entry(ANNOUNCE, ByteString(m.announce)), Entry(INFO_KEY, InfoToBencode(m.info));
            MetaFields(m)
            == [a] + if m.announceList.Some?
                     then [Entry(ANNOUNCE_LIST, List(TiersToBencode(m.announceList.value)))] + [i] else [i]
  {
    hide Insert, InfoFields, TiersToBencode, Less;
    KeysAscend();
    var a, i := Entry(ANNOUNCE, ByteString(m.announce)), Entry(INFO_KEY, InfoToBencode(m.info));
    InsertFirst([], a);
    assert [a] + [] == [a];
    if m.announceList.Some? {
      var t := Entry(ANNOUNCE_LIST, List(TiersToBencode(m.announceList.value)));
      InsertAtEnd([a], t);
      InsertAtEnd([a] + [t], i);
      assert [a] + [t] + [i] == [a] + ([t] + [i]);
    } else {
      InsertAtEnd([a], i);
    }
  }

  // The torrent file that is written is this text.
  lemma MetaIsText(m: TorrentMeta)
    ensures IntoBytes(m) == MetaText(m)
  {
    hide MetaFields, EncodeEntry, EncodeEntries, EncodeString, InfoToBencode, TiersToBencode, TiersText, Encode, Ascii;
    hide InfoText, StringText, ListText, DictText, EncodeItems;
    var a, i := Entry(ANNOUNCE, ByteString(m.announce)), Entry(INFO_KEY, InfoToBencode(m.info));
    MetaEntries(m);
    DictIsText(MetaFields(m));
    MetaKeysAreWritten();
    OneEntry(i);
    EntryIsText(i);
    InfoIsText(m.info);
    StringEntryIsText(ANNOUNCE, m.announce);
    if m.announceList.Some? {
      var t := Entry(ANNOUNCE_LIST, List(TiersToBencode(m.announceList.value)));
      EncodedCons(a, [t] + [i]);
      EncodedCons(t, [i]);
      EntryIsText(t);
      TiersAreText(m.announceList.value);
      ListIsText(TiersToBencode(m.announceList.value));
    } else {
      EncodedCons(a, [i]);
    }
  }
}
