// The metainfo layer of crates/core/src/meta.rs. Strings are byte sequences; the lossy conversion on loading
// is `Utf8.Lossy`. The functions say what is built and loaded, the methods do it with the program's loops.
module Metainfo {
  import opened Prelude
  import opened Bencoding
  import opened Utf8

  datatype TorrentFile = TorrentFile(length: nat, path: seq<bytes>)

  datatype FileMode = Single(length: nat) | Multi(files: seq<TorrentFile>)

  datatype InfoDict = InfoDict(name: bytes, pieceLength: nat, pieces: seq<Digest>, mode: FileMode)

  datatype TorrentMeta = TorrentMeta(
    announce: bytes,
    announceList: Option<seq<seq<bytes>>>,
    info: InfoDict,
    infoHash: Digest)

  datatype MetaError =
    | BencodeFailure(e: BencodeError)
    | MissingField(field: bytes)
    | InvalidType(field: bytes)
    | MissingInfoSlice
    | InvalidPiecesLength(len: nat)

  type Map = seq<Entry>

  const ANNOUNCE: bytes := [97, 110, 110, 111, 117, 110, 99, 101] // "announce"
  const ANNOUNCE_LIST: bytes := [97, 110, 110, 111, 117, 110, 99, 101, 45, 108, 105, 115, 116] // "announce-list"
  const NAME: bytes := [110, 97, 109, 101] // "name"
  const PIECE_LENGTH: bytes := [112, 105, 101, 99, 101, 32, 108, 101, 110, 103, 116, 104] // "piece length"
  const PIECES: bytes := [112, 105, 101, 99, 101, 115] // "pieces"
  const LENGTH: bytes := [108, 101, 110, 103, 116, 104] // "length"
  const FILES: bytes := [102, 105, 108, 101, 115] // "files"
  const PATH: bytes := [112, 97, 116, 104] // "path"
  // Names that occur only in error messages.
  const ROOT: bytes := [114, 111, 111, 116] // "root"
  const FILE_ITEM: bytes := [102, 105, 108, 101, 32, 105, 116, 101, 109] // "file item"
  const PATH_SEGMENT: bytes := [112, 97, 116, 104, 32, 115, 101, 103, 109, 101, 110, 116] // "path segment"
  // "length or files"
  const LENGTH_OR_FILES: bytes := [108, 101, 110, 103, 116, 104, 32, 111, 114, 32, 102, 105, 108, 101, 115]

  // Rust's `x as i64` on a u64, and back.
  function AsI64(x: nat): int { if x < U64 / 2 then x else x - U64 }

  function AsU64(i: int): nat { i % U64 }

  // --- writing ---

  function Strings(xs: seq<bytes>): seq<Bencode> {
    if xs == [] then [] else [ByteString(xs[0])] + Strings(xs[1..])
  }

  function FileToBencode(f: TorrentFile): Bencode {
    Dict(Insert(Insert([], LENGTH, Int(AsI64(f.length))), PATH, List(Strings(f.path))))
  }

  function FilesToBencode(fs: seq<TorrentFile>): seq<Bencode> {
    if fs == [] then [] else [FileToBencode(fs[0])] + FilesToBencode(fs[1..])
  }

  function ModeFields(mode: FileMode, dict: Map): Map {
    match mode
    case Single(length) => Insert(dict, LENGTH, Int(AsI64(length)))
    case Multi(files) => Insert(dict, FILES, List(FilesToBencode(files)))
  }

  function JoinDigests(ds: seq<Digest>): bytes {
    if ds == [] then [] else ds[0] + JoinDigests(ds[1..])
  }

  function InfoFields(info: InfoDict): Map {
    var d1 := Insert([], NAME, ByteString(info.name));
    var d2 := Insert(d1, PIECE_LENGTH, Int(AsI64(info.pieceLength)));
    var d3 := Insert(d2, PIECES, ByteString(JoinDigests(info.pieces)));
    ModeFields(info.mode, d3)
  }

  function InfoToBencode(info: InfoDict): Bencode { Dict(InfoFields(info)) }

  function TiersToBencode(tiers: seq<seq<bytes>>): seq<Bencode> {
    if tiers == [] then [] else [List(Strings(tiers[0]))] + TiersToBencode(tiers[1..])
  }

  function MetaFields(m: TorrentMeta): Map {
    var d1 := Insert([], ANNOUNCE, ByteString(m.announce));
    var d2 := if m.announceList.Some?
              then Insert(d1, ANNOUNCE_LIST, List(TiersToBencode(m.announceList.value)))
              else d1;
    Insert(d2, INFO_KEY, InfoToBencode(m.info))
  }

  function IntoBytes(m: TorrentMeta): bytes { Encode(Dict(MetaFields(m))) }

  // --- loading ---

  function GetBytes(d: Map, key: bytes): Result<bytes, MetaError> {
    match Get(d, key)
    case None => Err(MissingField(key))
    case Some(ByteString(s)) => Ok(s)
    case Some(_) => Err(InvalidType(key))
  }

  function GetString(d: Map, key: bytes): Result<bytes, MetaError> {
    var s :- GetBytes(d, key);
    Ok(Lossy(s))
  }

  // The i64 of an entry, cast to u64 as every caller does.
  function GetU64(d: Map, key: bytes): Result<nat, MetaError> {
    match Get(d, key)
    case None => Err(MissingField(key))
    case Some(Int(i)) => Ok(AsU64(i))
    case Some(_) => Err(InvalidType(key))
  }

  function LoadTier(items: seq<Bencode>): seq<bytes> {
    if items == [] then []
    else (if items[0].ByteString? then [Lossy(items[0].s)] else []) + LoadTier(items[1..])
  }

  function LoadTiers(outer: seq<Bencode>): seq<seq<bytes>> {
    if outer == [] then []
    else (if outer[0].List? && LoadTier(outer[0].items) != [] then [LoadTier(outer[0].items)] else [])
         + LoadTiers(outer[1..])
  }

  function LoadAnnounceList(d: Map): Option<seq<seq<bytes>>> {
    match Get(d, ANNOUNCE_LIST)
    case Some(List(outer)) => if LoadTiers(outer) == [] then None else Some(LoadTiers(outer))
    case _ => None
  }

  function Chunks20(s: bytes): seq<Digest>
    requires |s| % 20 == 0
  {
    if s == [] then [] else [s[..20]] + Chunks20(s[20..])
  }

  function LoadPath(items: seq<Bencode>): Result<seq<bytes>, MetaError> {
    if items == [] then Ok([])
    else if !items[0].ByteString? then Err(InvalidType(PATH_SEGMENT))
    else
      var rest :- LoadPath(items[1..]);
      Ok([Lossy(items[0].s)] + rest)
  }

  function LoadFile(v: Bencode): Result<TorrentFile, MetaError> {
    if !v.Dict? then Err(InvalidType(FILE_ITEM))
    else
      var length :- GetU64(v.entries, LENGTH);
      match Get(v.entries, PATH)
      case None => Err(MissingField(PATH))
      case Some(List(items)) => (var path :- LoadPath(items); Ok(TorrentFile(length, path)))
      case Some(_) => Err(InvalidType(PATH))
  }

  function LoadFiles(items: seq<Bencode>): Result<seq<TorrentFile>, MetaError> {
    if items == [] then Ok([])
    else
      var f :- LoadFile(items[0]);
      var rest :- LoadFiles(items[1..]);
      Ok([f] + rest)
  }

  function LoadMode(d: Map): Result<FileMode, MetaError> {
    if Get(d, LENGTH).Some? then
      var length :- GetU64(d, LENGTH);
      Ok(Single(length))
    else
      match Get(d, FILES)
      case None => Err(MissingField(LENGTH_OR_FILES))
      case Some(List(items)) => (var files :- LoadFiles(items); Ok(Multi(files)))
      case Some(_) => Err(InvalidType(FILES))
  }

  function LoadInfo(d: Map): Result<InfoDict, MetaError> {
    var name :- GetString(d, NAME);
    var pieceLength :- GetU64(d, PIECE_LENGTH);
    var pieces :- GetBytes(d, PIECES);
    if |pieces| % 20 != 0 then Err(InvalidPiecesLength(|pieces|))
    else
      var mode :- LoadMode(d);
      Ok(InfoDict(name, pieceLength, Chunks20(pieces), mode))
  }

  // `TorrentMeta::from_bytes`
  function FromBytes(H: bytes -> Digest, b: bytes): Result<TorrentMeta, MetaError> {
    match Decode(b)
    case Err(e) => Err(BencodeFailure(e))
    case Ok(v) =>
      if !v.Dict? then Err(InvalidType(ROOT))
      else
        var announce :- GetString(v.entries, ANNOUNCE);
        match Get(v.entries, INFO_KEY)
        case None => Err(MissingField(INFO_KEY))
        case Some(Dict(d)) =>
          (var info :- LoadInfo(d);
           match FindInfo(b)
           case None => Err(MissingInfoSlice)
           case Some(slice) => Ok(TorrentMeta(announce, LoadAnnounceList(v.entries), info, H(slice))))
        case Some(_) => Err(InvalidType(INFO_KEY))
  }

  // --- the program's loops: writing ---

  method BuildStrings(xs: seq<bytes>) returns (list: seq<Bencode>)
    ensures list == Strings(xs)
  {
    list := [];
    for k := 0 to |xs|
      invariant list + Strings(xs[k..]) == Strings(xs)
    {
      assert xs[k..][1..] == xs[k + 1..];
      list := list + [ByteString(xs[k])];
    }
  }

  method BuildModeFields(mode: FileMode, dict: Map) returns (out: Map)
    ensures out == ModeFields(mode, dict)
  {
    match mode
    case Single(length) =>
      out := Insert(dict, LENGTH, Int(AsI64(length)));
    case Multi(files) =>
      var list: seq<Bencode> := [];
      for k := 0 to |files|
        invariant list + FilesToBencode(files[k..]) == FilesToBencode(files)
      {
        assert files[k..][1..] == files[k + 1..];
        var d: Map := Insert([], LENGTH, Int(AsI64(files[k].length)));
        var pathList := BuildStrings(files[k].path);
        d := Insert(d, PATH, List(pathList));
        list := list + [Dict(d)];
      }
      assert list == FilesToBencode(files);
      out := Insert(dict, FILES, List(list));
  }

  method BuildInfo(info: InfoDict) returns (v: Bencode)
    ensures v == InfoToBencode(info)
  {
    var dict: Map := Insert([], NAME, ByteString(info.name));
    dict := Insert(dict, PIECE_LENGTH, Int(AsI64(info.pieceLength)));
    var piecesBytes: bytes := [];
    for k := 0 to |info.pieces|
      invariant piecesBytes + JoinDigests(info.pieces[k..]) == JoinDigests(info.pieces)
    {
      assert info.pieces[k..][1..] == info.pieces[k + 1..];
      piecesBytes := piecesBytes + info.pieces[k];
    }
    assert piecesBytes == JoinDigests(info.pieces);
    dict := Insert(dict, PIECES, ByteString(piecesBytes));
    dict := BuildModeFields(info.mode, dict);
    v := Dict(dict);
  }

  method BuildMeta(m: TorrentMeta) returns (v: Bencode)
    ensures v == Dict(MetaFields(m))
  {
    var dict: Map := Insert([], ANNOUNCE, ByteString(m.announce));
    if m.announceList.Some? {
      var list := m.announceList.value;
      var outer: seq<Bencode> := [];
      for k := 0 to |list|
        invariant outer + TiersToBencode(list[k..]) == TiersToBencode(list)
      {
        assert list[k..][1..] == list[k + 1..];
        var inner := BuildStrings(list[k]);
        outer := outer + [List(inner)];
      }
      assert outer == TiersToBencode(list);
      dict := Insert(dict, ANNOUNCE_LIST, List(outer));
    }
    var info := BuildInfo(m.info);
    dict := Insert(dict, INFO_KEY, info);
    v := Dict(dict);
  }

  // --- the program's loops: loading ---

  method ReadTier(inner: seq<Bencode>) returns (sub: seq<bytes>)
    ensures sub == LoadTier(inner)
  {
    sub := [];
    for k := 0 to |inner|
      invariant sub + LoadTier(inner[k..]) == LoadTier(inner)
    {
      assert inner[k..][1..] == inner[k + 1..];
      if inner[k].ByteString? {
        sub := sub + [Lossy(inner[k].s)];
      }
    }
  }

  method ReadAnnounceList(d: Map) returns (r: Option<seq<seq<bytes>>>)
    ensures r == LoadAnnounceList(d)
  {
    hide LoadTier;
    var val := Get(d, ANNOUNCE_LIST);
    if val.None? || !val.value.List? {
      return None;
    }
    var outer := val.value.items;
    var result: seq<seq<bytes>> := [];
    for k := 0 to |outer|
      invariant result + LoadTiers(outer[k..]) == LoadTiers(outer)
    {
      assert outer[k..][1..] == outer[k + 1..];
      ghost var before := result;
      if outer[k].List? {
        var sub := ReadTier(outer[k].items);
        if sub != [] {
          result := result + [sub];
        }
      }
      assert before + LoadTiers(outer[k..]) == result + LoadTiers(outer[k + 1..]);
    }
    assert result == LoadTiers(outer);
    r := if result == [] then None else Some(result);
  }

  method ReadPieces(s: bytes) returns (pieces: seq<Digest>)
    requires |s| % 20 == 0
    ensures pieces == Chunks20(s)
  {
    pieces := [];
    var k := 0;
    while k < |s|
      invariant k <= |s| && k % 20 == 0
      invariant pieces + Chunks20(s[k..]) == Chunks20(s)
    {
      assert s[k..][..20] == s[k..k + 20] && s[k..][20..] == s[k + 20..];
      pieces := pieces + [s[k..k + 20]];
      k := k + 20;
    }
  }

  // What is known of a loading loop once `done` has been loaded.
  function Loaded<T>(done: seq<T>, rest: Result<seq<T>, MetaError>): Result<seq<T>, MetaError> {
    match rest
    case Ok(vs) => Ok(done + vs)
    case Err(e) => Err(e)
  }

  method ReadPath(items: seq<Bencode>) returns (r: Result<seq<bytes>, MetaError>)
    ensures r == LoadPath(items)
  {
    var path: seq<bytes> := [];
    assert Loaded(path, LoadPath(items)) == LoadPath(items) by { LoadedNothing(LoadPath(items)); }
    for k := 0 to |items|
      invariant Loaded(path, LoadPath(items[k..])) == LoadPath(items)
    {
      assert items[k..][1..] == items[k + 1..];
      if !items[k].ByteString? {
        return Err(InvalidType(PATH_SEGMENT));
      }
      LoadedTwice(path, [Lossy(items[k].s)], LoadPath(items[k + 1..]));
      path := path + [Lossy(items[k].s)];
    }
    assert path + [] == path;
    r := Ok(path);
  }

  lemma LoadedNothing<T>(rest: Result<seq<T>, MetaError>)
    ensures Loaded([], rest) == rest
  {
    if rest.Ok? {
      assert [] + rest.value == rest.value;
    }
  }

  lemma LoadedTwice<T>(a: seq<T>, b: seq<T>, rest: Result<seq<T>, MetaError>)
    ensures Loaded(a, Loaded(b, rest)) == Loaded(a + b, rest)
  {
    if rest.Ok? {
      assert a + (b + rest.value) == a + b + rest.value;
    }
  }

  method ReadFileList(items: seq<Bencode>) returns (r: Result<seq<TorrentFile>, MetaError>)
    ensures r == LoadFiles(items)
  {
    var files: seq<TorrentFile> := [];
    LoadedNothing(LoadFiles(items));
    for k := 0 to |items|
      invariant Loaded(files, LoadFiles(items[k..])) == LoadFiles(items)
    {
      assert items[k..][1..] == items[k + 1..];
      if !items[k].Dict? {
        return Err(InvalidType(FILE_ITEM));
      }
      var length := GetU64(items[k].entries, LENGTH);
      if length.Err? {
        return Err(length.error);
      }
      var pathVal := Get(items[k].entries, PATH);
      if pathVal.None? {
        return Err(MissingField(PATH));
      }
      if !pathVal.value.List? {
        return Err(InvalidType(PATH));
      }
      var path := ReadPath(pathVal.value.items);
      if path.Err? {
        return Err(path.error);
      }
      var f := TorrentFile(length.value, path.value);
      assert LoadFile(items[k]) == Ok(f);
      LoadedTwice(files, [f], LoadFiles(items[k + 1..]));
      files := files + [f];
    }
    assert files + [] == files;
    r := Ok(files);
  }

  method ReadMode(d: Map) returns (r: Result<FileMode, MetaError>)
    ensures r == LoadMode(d)
  {
    if Get(d, LENGTH).Some? {
      var length := GetU64(d, LENGTH);
      return if length.Ok? then Ok(Single(length.value)) else Err(length.error);
    }
    var val := Get(d, FILES);
    if val.None? {
      return Err(MissingField(LENGTH_OR_FILES));
    }
    if !val.value.List? {
      return Err(InvalidType(FILES));
    }
    var files := ReadFileList(val.value.items);
    r := if files.Ok? then Ok(Multi(files.value)) else Err(files.error);
  }

  method ReadMeta(H: bytes -> Digest, b: bytes) returns (r: Result<TorrentMeta, MetaError>)
    ensures r == FromBytes(H, b)
  {
    hide Decode, Lossy, FindInfo;
    var v := DecodeBytes(b);
    if v.Err? {
      return Err(BencodeFailure(v.error));
    }
    if !v.value.Dict? {
      return Err(InvalidType(ROOT));
    }
    var dict := v.value.entries;
    var announce := GetString(dict, ANNOUNCE);
    if announce.Err? {
      return Err(announce.error);
    }
    var announceList := ReadAnnounceList(dict);
    var infoVal := Get(dict, INFO_KEY);
    if infoVal.None? {
      return Err(MissingField(INFO_KEY));
    }
    if !infoVal.value.Dict? {
      return Err(InvalidType(INFO_KEY));
    }
    var d := infoVal.value.entries;
    var name := GetString(d, NAME);
    if name.Err? {
      return Err(name.error);
    }
    var pieceLength := GetU64(d, PIECE_LENGTH);
    if pieceLength.Err? {
      return Err(pieceLength.error);
    }
    var piecesBytes := GetBytes(d, PIECES);
    if piecesBytes.Err? {
      return Err(piecesBytes.error);
    }
    if |piecesBytes.value| % 20 != 0 {
      return Err(InvalidPiecesLength(|piecesBytes.value|));
    }
    var pieces := ReadPieces(piecesBytes.value);
    var mode := ReadMode(d);
    if mode.Err? {
      return Err(mode.error);
    }
    var slice := FindInfoDictSlice(b);
    if slice.None? {
      return Err(MissingInfoSlice);
    }
    var info := InfoDict(name.value, pieceLength.value, pieces, mode.value);
    assert LoadInfo(d) == Ok(info);
    r := Ok(TorrentMeta(announce.value, announceList, info, H(slice.value)));
  }
}
