// The torrent creator of crates/daemon/src/creator.rs, and that its hashes are the ones the verifier of
// crates/daemon/src/engine.rs expects.
module Creator {
  import opened Prelude
  import opened Bencoding
  import opened Metainfo
  import opened MetainfoProofs
  import opened Storage
  import opened Geometry
  import Utf8
  import Swarm
  import SwarmProofs

  const DEFAULT_PIECE_LENGTH: nat := 524288

  const DEFAULT_TRACKER: bytes := Ascii("udp://tracker.opentrackr.org:1337/announce")

  // The hashes of the consecutive pieces of `s`; the last piece may be shorter.
  function PieceHashes(H: bytes -> Digest, s: bytes, pieceLength: nat): seq<Digest>
    requires pieceLength > 0
  {
    if s == [] then []
    else
      var n := Min(pieceLength, |s|);
      [H(s[..n])] + PieceHashes(H, s[n..], pieceLength)
  }

  // `hash_piece` with the variables it captures. `hasher` is what the running SHA-1 has been fed since it was
  // last finalized, `fed` everything it was ever fed.
  class PieceHasher {
    const H: bytes -> Digest
    var hasher: bytes
    var currentPieceLen: nat
    var pieces: seq<Digest>
    ghost var fed: bytes

    ghost predicate Valid()
      reads this
    {
      && |hasher| == currentPieceLen < DEFAULT_PIECE_LENGTH
      && |hasher| <= |fed|
      && (|fed| - |hasher|) % DEFAULT_PIECE_LENGTH == 0
      && hasher == fed[|fed| - |hasher|..]
      && pieces == PieceHashes(H, fed[..|fed| - |hasher|], DEFAULT_PIECE_LENGTH)
    }

    constructor (H: bytes -> Digest)
      ensures Valid() && fed == [] && this.H == H
    {
      this.H := H;
      hasher := [];
      currentPieceLen := 0;
      pieces := [];
      fed := [];
    }

    method HashPiece(data: bytes, len: nat)
      requires Valid() && len <= |data|
      modifies this
      ensures Valid() && fed == old(fed) + data[..len]
    {
      hide PieceHashes, WholePieces;
      var offset := 0;
      assert fed == old(fed) + data[..0];
      while offset < len
        invariant offset <= len
        invariant Valid() && fed == old(fed) + data[..offset]
      {
        var space := DEFAULT_PIECE_LENGTH - currentPieceLen;
        var take := Min(space, len - offset);
        ghost var chunk, before := data[offset..offset + take], fed;
        WholeMultiple(|fed| - |hasher|);
        FedMore(H, fed, hasher, chunk, DEFAULT_PIECE_LENGTH);
        hasher := hasher + data[offset..offset + take];
        fed := fed + chunk;
        FedPrefix(data, offset, take);
        ConcatAssoc(old(fed), data[..offset], chunk);
        currentPieceLen := currentPieceLen + take;
        offset := offset + take;
        if currentPieceLen == DEFAULT_PIECE_LENGTH {
          pieces := pieces + [H(hasher)];
          hasher := [];
          currentPieceLen := 0;
          assert fed[..|fed|] == fed;
        }
      }
    }

    // The read loop over one file: each read returns an arbitrary positive number of bytes until the end.
    method HashFile(content: bytes)
      requires Valid()
      modifies this
      ensures Valid() && fed == old(fed) + content
    {
      var buffer: bytes := seq(DEFAULT_PIECE_LENGTH, _ => 0);
      var pos := 0;
      assert fed == old(fed) + content[..0];
      while true
        invariant pos <= |content| && |buffer| == DEFAULT_PIECE_LENGTH
        invariant Valid() && fed == old(fed) + content[..pos]
        decreases |content| - pos
      {
        assert Min(1, |content| - pos) <= |buffer|;
        var n: nat :| n <= |buffer| && n <= |content| - pos && (n == 0 <==> pos == |content|);
        buffer := content[pos..pos + n] + buffer[n..];
        if n == 0 {
          break;
        }
        HashPiece(buffer, n);
        ReadMore(content, pos, n, buffer);
        ConcatAssoc(old(fed), content[..pos], content[pos..pos + n]);
        pos := pos + n;
      }
      assert content[..pos] == content;
    }

    // The final piece, if any data remains.
    method Finish()
      requires Valid()
      modifies this
      ensures pieces == PieceHashes(H, old(fed), DEFAULT_PIECE_LENGTH)
    {
      if currentPieceLen > 0 {
        WholeMultiple(|fed| - |hasher|);
        LastPiece(H, fed, hasher, DEFAULT_PIECE_LENGTH);
        pieces := pieces + [H(hasher)];
        hasher := [];
      } else {
        assert fed[..|fed|] == fed;
      }
    }
  }

  lemma FedPrefix(data: bytes, offset: nat, take: nat)
    requires offset + take <= |data|
    ensures data[..offset] + data[offset..offset + take] == data[..offset + take]
  {
  }

  lemma ReadMore(content: bytes, pos: nat, n: nat, buffer: bytes)
    requires pos + n <= |content| && n <= |buffer| && buffer == content[pos..pos + n] + buffer[n..]
    ensures buffer[..n] == content[pos..pos + n]
    ensures content[..pos] + content[pos..pos + n] == content[..pos + n]
  {
  }

  // --- chunking ---

  lemma HashesCons(H: bytes -> Digest, a: bytes, b: bytes, n: nat)
    requires 0 < n <= |a|
    ensures PieceHashes(H, a + b, n) == [H(a[..n])] + PieceHashes(H, a[n..] + b, n)
  {
    assert (a + b)[..n] == a[..n] && (a + b)[n..] == a[n..] + b;
  }

  lemma HashesHead(H: bytes -> Digest, a: bytes, n: nat)
    requires 0 < n <= |a|
    ensures PieceHashes(H, a, n) == [H(a[..n])] + PieceHashes(H, a[n..], n)
  {
  }

  // A length that is a number of whole pieces.
  predicate WholePieces(len: nat, n: nat)
    requires n > 0
  {
    len == 0 || (len >= n && WholePieces(len - n, n))
  }

  lemma {:induction false} WholeMultiple(len: nat)
    requires len % DEFAULT_PIECE_LENGTH == 0
    ensures WholePieces(len, DEFAULT_PIECE_LENGTH)
  {
    if len > 0 {
      WholeMultiple(len - DEFAULT_PIECE_LENGTH);
    }
  }

  lemma {:induction false} HashesConcat(H: bytes -> Digest, a: bytes, b: bytes, n: nat)
    requires n > 0 && WholePieces(|a|, n)
    ensures PieceHashes(H, a + b, n) == PieceHashes(H, a, n) + PieceHashes(H, b, n)
  {
    if a == [] {
      assert a + b == b;
    } else {
      hide PieceHashes;
      var x, y, z := H(a[..n]), PieceHashes(H, a[n..], n), PieceHashes(H, b, n);
      HashesConcat(H, a[n..], b, n);
      HashesCons(H, a, b, n);
      HashesHead(H, a, n);
      ConcatAssoc([x], y, z);
    }
  }

  // Whole pieces followed by at most one more.
  lemma HashesAppend(H: bytes -> Digest, closed: bytes, open: bytes, n: nat)
    requires n > 0 && WholePieces(|closed|, n) && 0 < |open| <= n
    ensures PieceHashes(H, closed + open, n) == PieceHashes(H, closed, n) + [H(open)]
  {
    hide WholePieces;
    HashesConcat(H, closed, open, n);
    assert open[..|open|] == open && open[|open|..] == [];
  }

  // Feeding up to the end of the current piece extends the open piece, or closes it.
  lemma FedMore(H: bytes -> Digest, fed: bytes, open: bytes, chunk: bytes, n: nat)
    requires |open| <= |fed| && open == fed[|fed| - |open|..]
    requires n > 0 && WholePieces(|fed| - |open|, n)
    requires |open| < n && |open| + |chunk| <= n
    ensures var f, o := fed + chunk, open + chunk;
            && o == f[|f| - |o|..] && f[..|f| - |o|] == fed[..|fed| - |open|]
            && (|o| == n ==> PieceHashes(H, f, n) == PieceHashes(H, fed[..|fed| - |open|], n) + [H(o)])
  {
    hide PieceHashes, WholePieces;
    var f, o, closed := fed + chunk, open + chunk, fed[..|fed| - |open|];
    assert fed == closed + open;
    ConcatAssoc(closed, open, chunk);
    assert f == closed + o;
    if |o| == n {
      HashesAppend(H, closed, o, n);
    }
  }

  lemma LastPiece(H: bytes -> Digest, fed: bytes, open: bytes, n: nat)
    requires 0 < |open| <= |fed| && open == fed[|fed| - |open|..] && |open| < n
    requires WholePieces(|fed| - |open|, n)
    ensures PieceHashes(H, fed, n) == PieceHashes(H, fed[..|fed| - |open|], n) + [H(open)]
  {
    hide PieceHashes, WholePieces;
    var at := |fed| - |open|;
    assert fed == fed[..at] + fed[at..];
    HashesAppend(H, fed[..at], open, n);
  }

  predicate HashOfStretch(H: bytes -> Digest, s: bytes, n: nat, i: nat, h: Digest) {
    i * n < |s| && h == H(s[i * n..Min(i * n + n, |s|)])
  }

  lemma LaterStretch(H: bytes -> Digest, s: bytes, n: nat, i: nat, h: Digest)
    requires 0 < n <= |s| && i > 0 && HashOfStretch(H, s[n..], n, i - 1, h)
    ensures HashOfStretch(H, s, n, i, h)
  {
    MulNext(i - 1, n);
    var lo := (i - 1) * n;
    var hi := Min(lo + n, |s| - n);
    SliceOfSlice(s, n, |s|, lo, hi);
    assert s[n..|s|] == s[n..];
  }

  // Piece by piece: there are ceil(size / length) hashes, the i-th of the i-th stretch.
  lemma {:induction false} HashesAt(H: bytes -> Digest, s: bytes, n: nat)
    requires n > 0
    ensures var hs := PieceHashes(H, s, n);
            |hs| == CeilDiv(|s|, n) && forall i :: 0 <= i < |hs| ==> HashOfStretch(H, s, n, i, hs[i])
  {
    hide HashOfStretch, CeilDiv;
    if s == [] {
      CeilDivUnique(0, n, 0);
    } else {
      var m := Min(n, |s|);
      HashesAt(H, s[m..], n);
      var hs, rest := PieceHashes(H, s, n), PieceHashes(H, s[m..], n);
      CeilDivBounds(|s| - m, n);
      MulNext(|rest|, n);
      CeilDivUnique(|s|, n, |rest| + 1);
      forall i | 0 <= i < |hs| ensures HashOfStretch(H, s, n, i, hs[i]) {
        if i == 0 {
          FirstStretch(H, s, n);
        } else {
          assert hs[i] == rest[i - 1];
          LaterStretch(H, s, n, i, hs[i]);
        }
      }
    }
  }

  lemma FirstStretch(H: bytes -> Digest, s: bytes, n: nat)
    requires n > 0 && s != []
    ensures HashOfStretch(H, s, n, 0, H(s[..Min(n, |s|)]))
  {
  }

  // --- the torrent ---

  // What is on disk at the path to make a torrent of; a directory's files in sorted order.
  datatype Source = File(content: bytes) | Directory(files: seq<SourceFile>)

  datatype SourceFile = SourceFile(path: seq<bytes>, content: bytes)

  function Concatenated(files: seq<SourceFile>): bytes {
    if files == [] then [] else files[0].content + Concatenated(files[1..])
  }

  function AllContent(source: Source): bytes {
    match source
    case File(content) => content
    case Directory(files) => Concatenated(files)
  }

  function TorrentFiles(files: seq<SourceFile>): seq<TorrentFile> {
    if files == [] then [] else [TorrentFile(|files[0].content|, files[0].path)] + TorrentFiles(files[1..])
  }

  function ModeOf(source: Source): FileMode {
    match source
    case File(content) => Single(|content|)
    case Directory(files) => Multi(TorrentFiles(files))
  }

  function OwnTiers(trackers: seq<bytes>): seq<seq<bytes>> {
    if trackers == [] then [] else [[trackers[0]]] + OwnTiers(trackers[1..])
  }

  function CreatedInfo(H: bytes -> Digest, name: bytes, source: Source): InfoDict {
    InfoDict(name, DEFAULT_PIECE_LENGTH, PieceHashes(H, AllContent(source), DEFAULT_PIECE_LENGTH), ModeOf(source))
  }

  function CreatedMeta(H: bytes -> Digest, name: bytes, source: Source, trackers: seq<bytes>): TorrentMeta {
    var info := CreatedInfo(H, name, source);
    TorrentMeta(
      if trackers == [] then DEFAULT_TRACKER else trackers[0],
      if |trackers| > 1 then Some(OwnTiers(trackers)) else None,
      info,
      H(Encode(InfoToBencode(info))))
  }

  // Whatever the sizes of the reads, the torrent is made of the hashes of the consecutive pieces of the
  // concatenated files.
  method CreateTorrent(H: bytes -> Digest, name: bytes, source: Source, trackers: seq<bytes>) returns (b: bytes)
    ensures b == IntoBytes(CreatedMeta(H, name, source, trackers))
  {
    hide PieceHashes, Encode, InfoToBencode, MetaFields;
    var hasher := new PieceHasher(H);
    var mode;
    match source {
      case File(content) =>
        mode := Single(|content|);
        hasher.HashFile(content);
        assert [] + content == content;
      case Directory(files) =>
        var list: seq<TorrentFile> := [];
        for k := 0 to |files|
          invariant hasher.Valid() && hasher.H == H && fresh(hasher)
          invariant list + TorrentFiles(files[k..]) == TorrentFiles(files)
          invariant hasher.fed + Concatenated(files[k..]) == Concatenated(files)
        {
          assert files[k..][1..] == files[k + 1..];
          list := list + [TorrentFile(|files[k].content|, files[k].path)];
          ghost var fed, rest := hasher.fed, Concatenated(files[k + 1..]);
          hasher.HashFile(files[k].content);
          assert fed + (files[k].content + rest) == hasher.fed + rest;
        }
        assert list + [] == list && hasher.fed + [] == hasher.fed;
        mode := Multi(list);
    }
    assert hasher.fed == AllContent(source);
    hasher.Finish();
    var info := InfoDict(name, DEFAULT_PIECE_LENGTH, hasher.pieces, mode);
    assert info == CreatedInfo(H, name, source);
    var infoValue := BuildInfo(info);
    var infoBytes := EncodeInner(infoValue, []);
    assert [] + Encode(infoValue) == Encode(infoValue);
    var announce := if trackers == [] then DEFAULT_TRACKER else trackers[0];
    var announceList := None;
    if |trackers| > 1 {
      var list := BuildTiers(trackers);
      announceList := Some(list);
    }
    var m := TorrentMeta(announce, announceList, info, H(infoBytes));
    assert m == CreatedMeta(H, name, source, trackers);
    var v := BuildMeta(m);
    b := EncodeInner(v, []);
    assert [] + Encode(v) == Encode(v);
  }

  // One tier for each tracker.
  method BuildTiers(trackers: seq<bytes>) returns (list: seq<seq<bytes>>)
    ensures list == OwnTiers(trackers)
  {
    list := [];
    for k := 0 to |trackers|
      invariant list + OwnTiers(trackers[k..]) == OwnTiers(trackers)
    {
      assert trackers[k..][1..] == trackers[k + 1..];
      list := list + [[trackers[k]]];
    }
  }

  // --- what was created loads unchanged ---

  lemma {:induction false} OwnTiersKept(trackers: seq<bytes>)
    requires AreStrings(trackers)
    ensures DropEmpty(OwnTiers(trackers)) == OwnTiers(trackers)
    ensures forall tier :: tier in OwnTiers(trackers) ==> AreStrings(tier)
  {
    if trackers != [] {
      OwnTiersKept(trackers[1..]);
      assert OwnTiers(trackers)[1..] == OwnTiers(trackers[1..]);
    }
  }

  // The loader computes the info hash the creator computed, and everything else comes back as it was.
  lemma CreatedTorrentLoads(H: bytes -> Digest, name: bytes, source: Source, trackers: seq<bytes>)
    requires AreStrings(trackers) && ValidInfo(CreatedInfo(H, name, source))
    ensures var m := CreatedMeta(H, name, source, trackers);
            FromBytes(H, IntoBytes(m)) == Ok(m)
  {
    hide FromBytes, IntoBytes, CreatedInfo, ValidInfo, PieceHashes, Encode, InfoToBencode;
    var m := CreatedMeta(H, name, source, trackers);
    OwnTiersKept(trackers);
    Utf8.AsciiTextIsValid("udp://tracker.opentrackr.org:1337/announce");
    assert trackers != [] ==> trackers[0] in trackers;
    MetaRoundTripExactly(H, m);
  }

  lemma {:induction false} OwnTiersAre(trackers: seq<bytes>)
    ensures |OwnTiers(trackers)| == |trackers|
    ensures forall i :: 0 <= i < |trackers| ==> OwnTiers(trackers)[i] == [trackers[i]]
  {
    if trackers != [] {
      OwnTiersAre(trackers[1..]);
    }
  }

  lemma {:induction false} TorrentFilesAre(files: seq<SourceFile>)
    ensures |TorrentFiles(files)| == |files|
    ensures forall k :: 0 <= k < |files| ==> TorrentFiles(files)[k] == TorrentFile(|files[k].content|, files[k].path)
  {
    if files != [] {
      TorrentFilesAre(files[1..]);
    }
  }

  // What the loader finds in a created torrent, field by field. Each tracker is a tier of its own, and there is a list
  // of tiers if and only if there are two trackers or more. The i-th hash is that of the i-th 512 KiB of the content.
  lemma LoadedTorrentHas(H: bytes -> Digest, name: bytes, source: Source, trackers: seq<bytes>)
    requires AreStrings(trackers) && ValidInfo(CreatedInfo(H, name, source))
    ensures var r := FromBytes(H, IntoBytes(CreatedMeta(H, name, source, trackers)));
            r.Ok? &&
            var m, all := r.value, AllContent(source);
            && m.announce == (if trackers == [] then DEFAULT_TRACKER else trackers[0])
            && (m.announceList.Some? <==> |trackers| >= 2)
            && (m.announceList.Some? ==>
                  && |m.announceList.value| == |trackers|
                  && forall i :: 0 <= i < |trackers| ==> m.announceList.value[i] == [trackers[i]])
            && m.info.name == name && m.info.pieceLength == 524288
            && |m.info.pieces| == CeilDiv(|all|, 524288)
            && (forall i :: 0 <= i < |m.info.pieces| ==> HashOfStretch(H, all, 524288, i, m.info.pieces[i]))
            && match source
               case File(content) => m.info.mode == Single(|content|)
               case Directory(files) =>
                 && m.info.mode.Multi? && |m.info.mode.files| == |files|
                 && forall k :: 0 <= k < |files| ==>
                      m.info.mode.files[k] == TorrentFile(|files[k].content|, files[k].path)
  {
    hide FromBytes, IntoBytes, ValidInfo, PieceHashes, HashOfStretch, CeilDiv, AllContent, Encode, InfoToBencode;
    hide AreStrings, OwnTiers, TorrentFiles;
    CreatedTorrentLoads(H, name, source, trackers);
    OwnTiersAre(trackers);
    HashesAt(H, AllContent(source), DEFAULT_PIECE_LENGTH);
    match source
    case File(_) =>
    case Directory(files) => TorrentFilesAre(files);
  }

  // --- the verifier accepts what was created ---

  function CreatedGeometry(H: bytes -> Digest, source: Source): Geometry {
    Geometry(DEFAULT_PIECE_LENGTH, |AllContent(source)|,
             PieceHashes(H, AllContent(source), DEFAULT_PIECE_LENGTH))
  }

  lemma CreatedPieceMatches(H: bytes -> Digest, source: Source, i: nat)
    requires WellFormed(CreatedGeometry(H, source)) && i < |CreatedGeometry(H, source).hashes|
    ensures var g := CreatedGeometry(H, source);
            H(PieceAt(g, AllContent(source), i)) == g.hashes[i]
  {
    hide PieceHashes, AllContent, CeilDiv, WellFormed;
    PieceBounds(CreatedGeometry(H, source), i);
    HashesAt(H, AllContent(source), DEFAULT_PIECE_LENGTH);
  }

  // The engine's files hold the creator's bytes when they hold its files: the torrent's layout is the
  // creator's order.
  lemma {:induction false} SourceFilesOnDisk(name: bytes, files: seq<SourceFile>, disk: Disk)
    requires forall k :: 0 <= k < |files| ==>
               var path := [name] + files[k].path; path in disk && disk[path] == files[k].content
    ensures var es := FileExtents(name, TorrentFiles(files));
            && OnDisk(es, disk) && Flat(es, disk) == Concatenated(files)
            && FileLengths(TorrentFiles(files)) == |Concatenated(files)|
  {
    if files != [] {
      forall k | 0 <= k < |files[1..]|
        ensures var path := [name] + files[1..][k].path; path in disk && disk[path] == files[1..][k].content
      {
        assert files[1..][k] == files[k + 1];
      }
      SourceFilesOnDisk(name, files[1..], disk);
      assert FileExtents(name, TorrentFiles(files))[1..] == FileExtents(name, TorrentFiles(files[1..])) by {
        assert TorrentFiles(files)[1..] == TorrentFiles(files[1..]);
      }
    }
  }

  // The files a torrent was made from, below the directory it is loaded into.
  predicate SourceOnDisk(name: bytes, source: Source, disk: Disk) {
    match source
    case File(content) => [name] in disk && disk[[name]] == content
    case Directory(files) =>
      forall k :: 0 <= k < |files| ==>
        var path := [name] + files[k].path; path in disk && disk[path] == files[k].content
  }

  lemma SourceLayout(H: bytes -> Digest, name: bytes, source: Source, disk: Disk)
    requires SourceOnDisk(name, source, disk)
    ensures var info := CreatedInfo(H, name, source);
            && OnDisk(Extents(info), disk) && Flat(Extents(info), disk) == AllContent(source)
            && TotalSize(info.mode) == |AllContent(source)|
  {
    hide PieceHashes;
    match source
    case File(content) =>
      var es := [Extent([name], |content|)];
      assert Extents(CreatedInfo(H, name, source)) == es;
      assert Flat(es[1..], disk) == [];
      assert content + [] == content;
    case Directory(files) => SourceFilesOnDisk(name, files, disk);
  }

  // Creator and verifier cut the same pieces: over the files it was made from, every piece of a created
  // torrent verifies, so a session starts complete, with every byte counted.
  lemma CreatedTorrentVerifies(H: bytes -> Digest, name: bytes, source: Source, disk: Disk)
    requires SourceOnDisk(name, source, disk)
    requires CeilDiv(|AllContent(source)|, DEFAULT_PIECE_LENGTH) < U32
    ensures var info := CreatedInfo(H, name, source);
            && OnDisk(Extents(info), disk)
            && var g, flat := Geometry(info.pieceLength, TotalSize(info.mode), info.pieces), Flat(Extents(info), disk);
               && WellFormed(g) && |flat| == g.total
               && (forall i :: 0 <= i < |g.hashes| ==> Swarm.Verified(g, H, flat)[i])
               && Swarm.Resume(g, H, flat).status == Swarm.Completed
               && Swarm.Resume(g, H, flat).downloaded == g.total
  {
    hide PieceHashes, AllContent, CeilDiv, PieceAt, Flat, OnDisk, Extents, TotalSize, ModeOf;
    SourceLayout(H, name, source, disk);
    var g, flat := CreatedGeometry(H, source), AllContent(source);
    HashesAt(H, flat, DEFAULT_PIECE_LENGTH);
    forall i | 0 <= i < |g.hashes| ensures Swarm.Verified(g, H, flat)[i] {
      CreatedPieceMatches(H, source, i);
    }
    SwarmProofs.ResumeInv(g, H, flat);
    SwarmProofs.SizesAddUp(g);
    SwarmProofs.AllHaveBytes(g, Swarm.Verified(g, H, flat), |g.hashes|);
  }
}
