// What crates/core/src/meta.rs makes of any torrent file, field by field, and how it refuses one.
module MetainfoLoads {
  import opened Prelude
  import opened Bencoding
  import opened Metainfo
  import opened Utf8
  import MetainfoTexts

  // --- what is accepted ---

  predicate IsText(v: Option<Bencode>, s: bytes) { v.Some? && v.value.ByteString? && s == Lossy(v.value.s) }

  // A 64-bit integer taken as unsigned.
  predicate IsSize(v: Option<Bencode>, n: nat) { v.Some? && v.value.Int? && n == v.value.i % 0x1_0000_0000_0000_0000 }

  predicate IsPath(items: seq<Bencode>, path: seq<bytes>) {
    |items| == |path| && forall k :: 0 <= k < |items| ==> IsText(Some(items[k]), path[k])
  }

  predicate IsFile(v: Bencode, f: TorrentFile) {
    && v.Dict?
    && IsSize(Get(v.entries, Ascii("length")), f.length)
    && var path := Get(v.entries, Ascii("path"));
       path.Some? && path.value.List? && IsPath(path.value.items, f.path)
  }

  predicate AreFiles(items: seq<Bencode>, files: seq<TorrentFile>) {
    |items| == |files| && forall k :: 0 <= k < |items| ==> IsFile(items[k], files[k])
  }

  // Twenty bytes for each piece.
  predicate AreDigests(s: bytes, pieces: seq<Digest>) {
    |s| == 20 * |pieces| && forall k :: 0 <= k < |pieces| ==> pieces[k] == s[20 * k..20 * k + 20]
  }

  // A length makes a single file, whether or not there are files too.
  predicate IsMode(d: Map, mode: FileMode) {
    var length, files := Get(d, Ascii("length")), Get(d, Ascii("files"));
    if length.Some? then mode.Single? && IsSize(length, mode.length)
    else files.Some? && files.value.List? && mode.Multi? && AreFiles(files.value.items, mode.files)
  }

  predicate IsInfo(d: Map, info: InfoDict) {
    && IsText(Get(d, Ascii("name")), info.name)
    && IsSize(Get(d, Ascii("piece length")), info.pieceLength)
    && (var pieces := Get(d, Ascii("pieces"));
        pieces.Some? && pieces.value.ByteString? && AreDigests(pieces.value.s, info.pieces))
    && IsMode(d, info.mode)
  }

  // The file is a dictionary with these fields, and the hash is that of the scanned info dictionary.
  predicate IsMeta(H: bytes -> Digest, b: bytes, m: TorrentMeta) {
    && Decode(b).Ok? && Decode(b).value.Dict?
    && var d := Decode(b).value.entries;
    && IsText(Get(d, Ascii("announce")), m.announce)
    && m.announceList == LoadAnnounceList(d)
    && (var info := Get(d, Ascii("info")); info.Some? && info.value.Dict? && IsInfo(info.value.entries, m.info))
    && FindInfo(b).Some? && m.infoHash == H(FindInfo(b).value)
  }

  lemma {:induction false} PathExactly(items: seq<Bencode>, path: seq<bytes>)
    ensures LoadPath(items) == Ok(path) <==> IsPath(items, path)
    ensures LoadPath(items).Err? ==> LoadPath(items) == Err(InvalidType(Ascii("path segment")))
  {
    hide Lossy;
    MetainfoTexts.OtherNames();
    if items == [] {
    } else if path == [] {
      PathExactly(items[1..], path);
    } else if !items[0].ByteString? {
      assert !IsText(Some(items[0]), path[0]);
    } else {
      PathExactly(items[1..], path[1..]);
      assert path == [path[0]] + path[1..];
      if IsPath(items, path) {
        assert IsText(Some(items[0]), path[0]);
      } else if IsText(Some(items[0]), path[0]) && IsPath(items[1..], path[1..]) {
        forall k | 0 <= k < |items| ensures IsText(Some(items[k]), path[k]) {
          if k > 0 {
            assert IsText(Some(items[1..][k - 1]), path[1..][k - 1]);
          }
        }
      }
    }
  }

  lemma FileExactly(v: Bencode, f: TorrentFile)
    ensures LoadFile(v) == Ok(f) <==> IsFile(v, f)
  {
    hide Lossy, Get, LoadPath, IsPath;
    MetainfoTexts.KeysAre();
    if v.Dict? {
      match Get(v.entries, PATH)
      case Some(List(items)) => PathExactly(items, f.path);
      case _ =>
    }
  }

  lemma {:induction false} FilesExactly(items: seq<Bencode>, files: seq<TorrentFile>)
    ensures LoadFiles(items) == Ok(files) <==> AreFiles(items, files)
  {
    hide LoadFile, IsFile;
    if items == [] {
    } else if files == [] {
      FilesExactly(items[1..], files);
    } else {
      FileExactly(items[0], files[0]);
      FilesExactly(items[1..], files[1..]);
      assert files == [files[0]] + files[1..];
      if AreFiles(items, files) {
        assert IsFile(items[0], files[0]);
      } else if IsFile(items[0], files[0]) && AreFiles(items[1..], files[1..]) {
        forall k | 0 <= k < |items| ensures IsFile(items[k], files[k]) {
          if k > 0 {
            assert IsFile(items[1..][k - 1], files[1..][k - 1]);
          }
        }
      }
    }
  }

  lemma {:induction false} DigestsExactly(s: bytes, pieces: seq<Digest>)
    requires |s| % 20 == 0
    ensures Chunks20(s) == pieces <==> AreDigests(s, pieces)
  {
    if s == [] {
    } else if pieces == [] {
    } else {
      DigestsExactly(s[20..], pieces[1..]);
      assert pieces == [pieces[0]] + pieces[1..];
      if AreDigests(s, pieces) {
        assert pieces[0] == s[20 * 0..20 * 0 + 20];
        forall k | 0 <= k < |pieces[1..]| ensures pieces[1..][k] == s[20..][20 * k..20 * k + 20] {
          assert pieces[k + 1] == s[20 * (k + 1)..20 * (k + 1) + 20];
        }
      }
      if Chunks20(s) == pieces {
        forall k | 0 <= k < |pieces| ensures pieces[k] == s[20 * k..20 * k + 20] {
          if k > 0 {
            assert pieces[1..][k - 1] == s[20..][20 * (k - 1)..20 * (k - 1) + 20];
          }
        }
      }
    }
  }

  lemma ModeExactly(d: Map, mode: FileMode)
    ensures LoadMode(d) == Ok(mode) <==> IsMode(d, mode)
  {
    hide Get, LoadFiles, AreFiles;
    MetainfoTexts.KeysAre();
    match Get(d, FILES)
    case Some(List(items)) =>
      if mode.Multi? {
        FilesExactly(items, mode.files);
      }
    case _ =>
  }

  lemma InfoExactly(d: Map, info: InfoDict)
    ensures LoadInfo(d) == Ok(info) <==> IsInfo(d, info)
  {
    hide Get, LoadMode, IsMode, Lossy, Chunks20, AreDigests;
    MetainfoTexts.KeysAre();
    ModeExactly(d, info.mode);
    match Get(d, PIECES)
    case Some(ByteString(s)) =>
      if |s| % 20 == 0 {
        DigestsExactly(s, info.pieces);
      } else {
        NotDigests(s, info.pieces);
      }
    case _ =>
  }

  lemma NotDigests(s: bytes, pieces: seq<Digest>)
    requires |s| % 20 != 0
    ensures !AreDigests(s, pieces)
  {
  }

  // A torrent file loads as a metainfo if and only if it has these fields.
  lemma LoadsExactly(H: bytes -> Digest, b: bytes, m: TorrentMeta)
    ensures FromBytes(H, b) == Ok(m) <==> IsMeta(H, b, m)
  {
    hide Decode, FindInfo, Get, LoadInfo, IsInfo, Lossy, LoadAnnounceList;
    MetainfoTexts.KeysAre();
    if Decode(b).Ok? && Decode(b).value.Dict? {
      match Get(Decode(b).value.entries, INFO_KEY)
      case Some(Dict(d)) => InfoExactly(d, m.info);
      case _ =>
    }
  }

  // --- tiers ---

  // BEP 12: each list is a tier of its strings, in order; what is not a string or not a list is passed over, and so is
  // a list without strings.
  lemma {:induction false} TiersGrow(outer: seq<Bencode>, v: Bencode)
    ensures LoadTiers(outer + [v])
            == LoadTiers(outer) + if v.List? && LoadTier(v.items) != [] then [LoadTier(v.items)] else []
  {
    hide LoadTier;
    if outer == [] {
      assert [] + [v] == [v] && [v][1..] == [];
    } else {
      assert (outer + [v])[0] == outer[0] && (outer + [v])[1..] == outer[1..] + [v];
      TiersGrow(outer[1..], v);
    }
  }

  lemma {:induction false} TierGrows(items: seq<Bencode>, v: Bencode)
    ensures LoadTier(items + [v]) == LoadTier(items) + if v.ByteString? then [Lossy(v.s)] else []
  {
    hide Lossy;
    if items == [] {
      assert [] + [v] == [v] && [v][1..] == [];
    } else {
      assert (items + [v])[0] == items[0] && (items + [v])[1..] == items[1..] + [v];
      TierGrows(items[1..], v);
    }
  }

  // The list is that of "announce-list"; without tiers there is none.
  lemma AnnounceListIs(d: Map)
    ensures LoadTiers([]) == [] && LoadTier([]) == []
    ensures var v := Get(d, Ascii("announce-list"));
            LoadAnnounceList(d)
            == if v.Some? && v.value.List? && LoadTiers(v.value.items) != [] then Some(LoadTiers(v.value.items))
               else None
  {
    hide Get;
    MetainfoTexts.KeysAre();
  }

  // --- refusals, in the order in which they are found ---

  function Refusal(v: Option<Bencode>, key: bytes): MetaError {
    if v.None? then MissingField(key) else InvalidType(key)
  }

  predicate IsString(v: Option<Bencode>) { v.Some? && v.value.ByteString? }

  predicate IsInt(v: Option<Bencode>) { v.Some? && v.value.Int? }

  predicate IsDict(v: Option<Bencode>) { v.Some? && v.value.Dict? }

  lemma MetaRefused(H: bytes -> Digest, b: bytes)
    ensures Decode(b).Err? ==> FromBytes(H, b) == Err(BencodeFailure(Decode(b).error))
    ensures Decode(b).Ok? && !Decode(b).value.Dict? ==> FromBytes(H, b) == Err(InvalidType(Ascii("root")))
    ensures Decode(b).Ok? && Decode(b).value.Dict? ==>
              var d := Decode(b).value.entries;
              var announce, info := Get(d, Ascii("announce")), Get(d, Ascii("info"));
              if !IsString(announce) then FromBytes(H, b) == Err(Refusal(announce, Ascii("announce")))
              else if !IsDict(info) then FromBytes(H, b) == Err(Refusal(info, Ascii("info")))
              else if LoadInfo(info.value.entries).Err? then FromBytes(H, b) == Err(LoadInfo(info.value.entries).error)
              else FindInfo(b).None? ==> FromBytes(H, b) == Err(MissingInfoSlice)
  {
    hide Decode, FindInfo, Get, LoadInfo, Lossy, LoadAnnounceList;
    MetainfoTexts.KeysAre();
    MetainfoTexts.OtherNames();
  }

  lemma InfoRefused(d: Map)
    ensures var name, size, pieces := Get(d, Ascii("name")), Get(d, Ascii("piece length")), Get(d, Ascii("pieces"));
            if !IsString(name) then LoadInfo(d) == Err(Refusal(name, Ascii("name")))
            else if !IsInt(size) then LoadInfo(d) == Err(Refusal(size, Ascii("piece length")))
            else if !IsString(pieces) then LoadInfo(d) == Err(Refusal(pieces, Ascii("pieces")))
            else if |pieces.value.s| % 20 != 0 then LoadInfo(d) == Err(InvalidPiecesLength(|pieces.value.s|))
            else LoadMode(d).Err? ==> LoadInfo(d) == Err(LoadMode(d).error)
  {
    hide Get, LoadMode, Lossy, Chunks20;
    MetainfoTexts.KeysAre();
  }

  lemma ModeRefused(d: Map)
    ensures var length, files := Get(d, Ascii("length")), Get(d, Ascii("files"));
            if length.Some? then !length.value.Int? ==> LoadMode(d) == Err(InvalidType(Ascii("length")))
            else if files.None? then LoadMode(d) == Err(MissingField(Ascii("length or files")))
            else if !files.value.List? then LoadMode(d) == Err(InvalidType(Ascii("files")))
            else LoadFiles(files.value.items).Err? ==> LoadMode(d) == Err(LoadFiles(files.value.items).error)
  {
    hide Get, LoadFiles;
    MetainfoTexts.KeysAre();
    MetainfoTexts.OtherNames();
  }

  // The first file that cannot be loaded decides.
  lemma {:induction false} FilesRefused(items: seq<Bencode>, k: nat)
    requires k < |items| && LoadFile(items[k]).Err?
    requires forall j :: 0 <= j < k ==> LoadFile(items[j]).Ok?
    ensures LoadFiles(items) == Err(LoadFile(items[k]).error)
  {
    hide LoadFile;
    if k > 0 {
      FilesRefused(items[1..], k - 1);
    }
  }

  lemma FileRefused(v: Bencode)
    ensures !v.Dict? ==> LoadFile(v) == Err(InvalidType(Ascii("file item")))
    ensures v.Dict? ==>
              var length, path := Get(v.entries, Ascii("length")), Get(v.entries, Ascii("path"));
              if !IsInt(length) then LoadFile(v) == Err(Refusal(length, Ascii("length")))
              else if path.None? || !path.value.List? then LoadFile(v) == Err(Refusal(path, Ascii("path")))
              else LoadPath(path.value.items).Err? ==> LoadFile(v) == Err(InvalidType(Ascii("path segment")))
  {
    hide Get, LoadPath;
    MetainfoTexts.KeysAre();
    MetainfoTexts.OtherNames();
    if v.Dict? {
      match Get(v.entries, PATH)
      case Some(List(items)) => PathExactly(items, []);
      case _ =>
    }
  }
}
