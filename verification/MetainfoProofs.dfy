// Loading what was written: the metainfo round trip of crates/core/src/meta.rs.
module MetainfoProofs {
  import opened Prelude
  import opened Bencoding
  import opened BencodingProofs
  import opened Metainfo
  import opened Utf8

  // A string of the program: valid UTF-8 that fits in memory.
  predicate IsString(s: bytes) { ValidUtf8(s) && |s| < U64 }

  predicate AreStrings(xs: seq<bytes>) { forall x :: x in xs ==> IsString(x) }

  predicate ValidFile(f: TorrentFile) { f.length < U64 && AreStrings(f.path) }

  predicate ValidInfo(info: InfoDict) {
    && IsString(info.name)
    && info.pieceLength < U64
    && 20 * |info.pieces| < U64
    && match info.mode
       case Single(length) => length < U64
       case Multi(files) => forall f :: f in files ==> ValidFile(f)
  }

  // What the types of the program guarantee about any TorrentMeta.
  predicate ValidMeta(m: TorrentMeta) {
    && IsString(m.announce)
    && (m.announceList.Some? ==> forall tier :: tier in m.announceList.value ==> AreStrings(tier))
    && ValidInfo(m.info)
  }

  // BEP 12 tiers as the loader keeps them: empty tiers are dropped, and no tier at all means no list.
  function DropEmpty(tiers: seq<seq<bytes>>): seq<seq<bytes>> {
    if tiers == [] then []
    else (if tiers[0] == [] then [] else [tiers[0]]) + DropEmpty(tiers[1..])
  }

  function KeptTiers(list: Option<seq<seq<bytes>>>): Option<seq<seq<bytes>>> {
    match list
    case None => None
    case Some(tiers) => if DropEmpty(tiers) == [] then None else Some(DropEmpty(tiers))
  }

  // --- keys and maps ---

  lemma KeysDiffer()
    ensures LENGTH != PATH && LENGTH != NAME && LENGTH != PIECE_LENGTH && LENGTH != PIECES && LENGTH != FILES
    ensures FILES != NAME && FILES != PIECE_LENGTH && FILES != PIECES
    ensures NAME != PIECE_LENGTH && NAME != PIECES && PIECE_LENGTH != PIECES
    ensures ANNOUNCE != ANNOUNCE_LIST && ANNOUNCE != INFO_KEY && ANNOUNCE_LIST != INFO_KEY
  {
    assert LENGTH[0] != PIECES[0];
  }

  predicate ValidMap(es: Map) { Valid(Dict(es)) }

  lemma InsertValid(es: Map, key: bytes, value: Bencode)
    requires ValidMap(es) && |key| < U64 && Valid(value)
    ensures ValidMap(Insert(es, key, value))
  {
    InsertAscending(es, key, value);
    InsertMembers(es, key, value);
  }

  lemma InsertGets(es: Map, key: bytes, value: Bencode)
    requires ValidMap(es)
    ensures forall k :: Get(Insert(es, key, value), k) == if k == key then Some(value) else Get(es, k)
  {
    forall k ensures Get(Insert(es, key, value), k) == if k == key then Some(value) else Get(es, k) {
      GetInsert(es, key, value, k);
    }
  }

  // --- one piece of the structure at a time ---

  // The i64/u64 casts are inverse on every u64.
  lemma CastsInverse(x: nat)
    requires x < U64
    ensures Decimal.IsI64(AsI64(x)) && AsU64(AsI64(x)) == x
  {
  }

  lemma {:induction false} StringsBack(xs: seq<bytes>)
    requires AreStrings(xs)
    ensures Valid(List(Strings(xs)))
    ensures LoadPath(Strings(xs)) == Ok(xs)
    ensures LoadTier(Strings(xs)) == xs
  {
    if xs != [] {
      StringsBack(xs[1..]);
      assert IsString(xs[0]);
      LossyIsIdentityOnValid(xs[0]);
      assert Strings(xs)[1..] == Strings(xs[1..]);
      assert xs == [xs[0]] + xs[1..];
    }
  }

  lemma FileBack(f: TorrentFile)
    requires ValidFile(f)
    ensures Valid(FileToBencode(f)) && LoadFile(FileToBencode(f)) == Ok(f)
  {
    hide Insert, Get, Strings, LoadPath, LoadTier;
    KeysDiffer();
    CastsInverse(f.length);
    StringsBack(f.path);
    var d1 := Insert([], LENGTH, Int(AsI64(f.length)));
    InsertValid([], LENGTH, Int(AsI64(f.length)));
    InsertGets([], LENGTH, Int(AsI64(f.length)));
    InsertValid(d1, PATH, List(Strings(f.path)));
    InsertGets(d1, PATH, List(Strings(f.path)));
  }

  lemma {:induction false} FilesBack(fs: seq<TorrentFile>)
    requires forall f :: f in fs ==> ValidFile(f)
    ensures Valid(List(FilesToBencode(fs)))
    ensures LoadFiles(FilesToBencode(fs)) == Ok(fs)
  {
    hide FileToBencode, LoadFile;
    if fs != [] {
      FilesBack(fs[1..]);
      FileBack(fs[0]);
      assert FilesToBencode(fs)[1..] == FilesToBencode(fs[1..]);
      assert fs == [fs[0]] + fs[1..];
    }
  }

  lemma {:induction false} PiecesBack(ds: seq<Digest>)
    ensures |JoinDigests(ds)| == 20 * |ds|
    ensures Chunks20(JoinDigests(ds)) == ds
  {
    if ds != [] {
      PiecesBack(ds[1..]);
      var s := JoinDigests(ds);
      assert s[..20] == ds[0] && s[20..] == JoinDigests(ds[1..]);
      assert ds == [ds[0]] + ds[1..];
    }
  }

  lemma {:induction false} TiersBack(tiers: seq<seq<bytes>>)
    requires forall tier :: tier in tiers ==> AreStrings(tier)
    ensures Valid(List(TiersToBencode(tiers)))
    ensures LoadTiers(TiersToBencode(tiers)) == DropEmpty(tiers)
  {
    hide Strings, LoadTier;
    if tiers != [] {
      TiersBack(tiers[1..]);
      StringsBack(tiers[0]);
      assert TiersToBencode(tiers)[1..] == TiersToBencode(tiers[1..]);
    }
  }

  // The entries every info dictionary has, and that its mode's fields do not touch them.
  lemma ModeBack(mode: FileMode, d: Map)
    requires ValidMap(d) && Get(d, LENGTH).None? && Get(d, FILES).None?
    requires match mode
             case Single(length) => length < U64
             case Multi(files) => forall f :: f in files ==> ValidFile(f)
    ensures ValidMap(ModeFields(mode, d)) && LoadMode(ModeFields(mode, d)) == Ok(mode)
    ensures forall k :: k != LENGTH && k != FILES ==> Get(ModeFields(mode, d), k) == Get(d, k)
  {
    hide Insert, Get, FilesToBencode, LoadFiles;
    KeysDiffer();
    match mode
    case Single(length) =>
      CastsInverse(length);
      InsertValid(d, LENGTH, Int(AsI64(length)));
      InsertGets(d, LENGTH, Int(AsI64(length)));
    case Multi(files) =>
      FilesBack(files);
      InsertValid(d, FILES, List(FilesToBencode(files)));
      InsertGets(d, FILES, List(FilesToBencode(files)));
  }

  lemma InfoBack(info: InfoDict)
    requires ValidInfo(info)
    ensures ValidMap(InfoFields(info)) && LoadInfo(InfoFields(info)) == Ok(info)
  {
    hide Insert, Get, JoinDigests, Chunks20, ModeFields, LoadMode, Lossy;
    KeysDiffer();
    CastsInverse(info.pieceLength);
    PiecesBack(info.pieces);
    LossyIsIdentityOnValid(info.name);
    var d1 := Insert([], NAME, ByteString(info.name));
    InsertValid([], NAME, ByteString(info.name));
    InsertGets([], NAME, ByteString(info.name));
    var d2 := Insert(d1, PIECE_LENGTH, Int(AsI64(info.pieceLength)));
    InsertValid(d1, PIECE_LENGTH, Int(AsI64(info.pieceLength)));
    InsertGets(d1, PIECE_LENGTH, Int(AsI64(info.pieceLength)));
    var d3 := Insert(d2, PIECES, ByteString(JoinDigests(info.pieces)));
    InsertValid(d2, PIECES, ByteString(JoinDigests(info.pieces)));
    InsertGets(d2, PIECES, ByteString(JoinDigests(info.pieces)));
    assert Get([], LENGTH) == None && Get([], FILES) == None by { GetNothing(LENGTH); GetNothing(FILES); }
    ModeBack(info.mode, d3);
  }

  lemma GetNothing(k: bytes)
    ensures Get([], k) == None
  {
  }

  lemma MetaFieldsBack(m: TorrentMeta)
    requires ValidMeta(m)
    ensures var d := MetaFields(m);
            && ValidMap(d)
            && Get(d, ANNOUNCE) == Some(ByteString(m.announce))
            && Get(d, INFO_KEY) == Some(InfoToBencode(m.info))
            && LoadAnnounceList(d) == KeptTiers(m.announceList)
  {
    hide Insert, Get, InfoFields, TiersToBencode, LoadTiers, DropEmpty;
    KeysDiffer();
    InfoBack(m.info);
    GetNothing(ANNOUNCE_LIST);
    var d1 := Insert([], ANNOUNCE, ByteString(m.announce));
    InsertValid([], ANNOUNCE, ByteString(m.announce));
    InsertGets([], ANNOUNCE, ByteString(m.announce));
    var d2 := d1;
    if m.announceList.Some? {
      var tiers := List(TiersToBencode(m.announceList.value));
      TiersBack(m.announceList.value);
      d2 := Insert(d1, ANNOUNCE_LIST, tiers);
      InsertValid(d1, ANNOUNCE_LIST, tiers);
      InsertGets(d1, ANNOUNCE_LIST, tiers);
    }
    InsertValid(d2, INFO_KEY, InfoToBencode(m.info));
    InsertGets(d2, INFO_KEY, InfoToBencode(m.info));
  }

  lemma DecodeEncoded(v: Bencode)
    requires Valid(v)
    ensures Decode(Encode(v)) == Ok(v)
  {
    hide Parse, Encode;
    RoundTrip(v, []);
    assert Encode(v) + [] == Encode(v);
  }

  // Loading the bytes of any metainfo gives it back with its empty tracker tiers dropped, and with the hash
  // of the encoded info dictionary as its info hash.
  lemma MetaRoundTrip(H: bytes -> Digest, m: TorrentMeta)
    requires ValidMeta(m)
    ensures FromBytes(H, IntoBytes(m)) == Ok(m.(
              announceList := KeptTiers(m.announceList),
              infoHash := H(Encode(InfoToBencode(m.info)))))
  {
    hide MetaFields, Encode, Decode, FindInfo, LoadInfo, InfoFields, LoadAnnounceList, Get, Lossy, KeptTiers;
    var d := MetaFields(m);
    MetaFieldsBack(m);
    InfoBack(m.info);
    DecodeEncoded(Dict(d));
    FindInfoOfEncoded(d, []);
    assert Encode(Dict(d)) + [] == Encode(Dict(d));
    LossyIsIdentityOnValid(m.announce);
  }

  // A torrent whose stored hash is the one of its info dictionary and that has no empty tiers loads
  // unchanged.
  lemma MetaRoundTripExactly(H: bytes -> Digest, m: TorrentMeta)
    requires ValidMeta(m)
    ensures FromBytes(H, IntoBytes(m)) == Ok(m)
       <==> m.infoHash == H(Encode(InfoToBencode(m.info))) && m.announceList == KeptTiers(m.announceList)
  {
    hide FromBytes, IntoBytes, KeptTiers, Encode, InfoToBencode;
    MetaRoundTrip(H, m);
  }
}
