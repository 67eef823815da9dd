// `TorrentDownloader` of crates/daemon/src/engine.rs: its files, its resume and the steps of its peer loops.
// Each method is proved against the torrent's bytes (one splice, one slice) or against one Swarm transition.
module Engine {
  import opened Prelude
  import opened Metainfo
  import opened Storage
  import opened FileLoops
  import opened Geometry
  import opened Swarm
  import opened QueueOrder
  import Bitfields
  import Network
  import SwarmProofs

  class TorrentDownloader {
    const H: bytes -> Digest
    const meta: TorrentMeta
    var disk: Disk // the files below the download directory
    var missing: seq<nat>
    var have: seq<bool>
    var downloaded: nat // of the shared TorrentState
    var size: nat // of the shared TorrentState
    var status: Status // of the shared TorrentState
    var peers: seq<Phase> // the piece guard of each peer loop
    var refunds: seq<Refund> // the tasks spawned by dropped guards

    function Es(): seq<Extent> { Extents(meta.info) }

    function Size(): nat { TotalSize(meta.info.mode) }

    function Geo(): Geometry { Geometry(meta.info.pieceLength, Size(), meta.info.pieces) }

    // The hypothesis on the files: distinct non-empty paths, and every file is there at its declared length.
    predicate FilesReady()
      reads this`disk
    {
      GoodPaths(meta.info) && OnDisk(Es(), disk)
    }

    // The torrent's bytes: the concatenation of its files.
    function Content(): (r: bytes)
      requires FilesReady()
      reads this`disk
      ensures |r| == Size()
    {
      ExtentsTotal(meta.info);
      Flat(Es(), disk)
    }

    function Abs(): State
      requires FilesReady()
      reads this
    {
      State(Content(), missing, have, downloaded, status, peers, refunds)
    }

    // What every step keeps, whatever messages arrive.
    predicate Sane()
      reads this
    {
      FilesReady() && size == Size() && WellFormed(Geo()) && Shape(Geo(), Abs())
    }

    // Moreover every piece has one owner, and the counters are right.
    predicate Valid()
      reads this
    {
      FilesReady() && size == Size() && Inv(Geo(), Abs())
    }

    constructor (H: bytes -> Digest, meta: TorrentMeta, disk: Disk, size: nat)
      ensures this.H == H && this.meta == meta && this.disk == disk && this.size == size
      ensures missing == [] && have == seq(|meta.info.pieces|, _ => false)
      ensures peers == [] && refunds == []
    {
      this.H := H;
      this.meta := meta;
      this.disk := disk;
      this.missing := [];
      this.have := seq(|meta.info.pieces|, _ => false);
      this.downloaded := 0;
      this.size := size;
      this.status := Downloading;
      this.peers := [];
      this.refunds := [];
    }

    // --- files ---

    // Afterwards every file has its length; what was there is kept, and files already in place are untouched.
    method InitializeFiles()
      modifies this`disk
      ensures GoodPaths(meta.info) ==> FilesReady() && Initialized(Es(), old(disk), disk, |Es()|)
      ensures GoodPaths(meta.info) ==>
                match meta.info.mode
                case Single(length) => Lengthened(old(disk), disk, [meta.info.name], length)
                case Multi(files) =>
                  forall k :: 0 <= k < |files| ==>
                    Lengthened(old(disk), disk, [meta.info.name] + files[k].path, files[k].length)
      ensures old(FilesReady()) ==> disk == old(disk)
      ensures forall path :: Elsewhere(Es(), path) ==> SameFile(disk, old(disk), path)
    {
      match meta.info.mode
      case Single(length) =>
        var path := [meta.info.name];
        assert Es()[0] == Extent(path, length);
        ResizeLengthens(disk, disk, path, length);
        disk := disk[path := Resize(ContentOr(disk, path), length)];
      case Multi(files) =>
        disk := FileLoops.InitializeFiles(meta.info.name, files, disk);
    }

    // On the torrent's bytes this is one splice, clipped at the end of the torrent.
    method WriteBlock(pieceIndex: nat, offset: nat, data: bytes) returns (r: Result<(), IoError>)
      modifies this`disk
      ensures (r, disk) == BlockWritten(meta.info, old(disk), PieceStart(Geo(), pieceIndex) + offset, data)
      ensures old(FilesReady()) ==>
                && r.Ok? && FilesReady()
                && Content() == Splice(old(Content()), PieceStart(Geo(), pieceIndex) + offset, data)
      ensures old(FilesReady()) ==>
                var at := pieceIndex * meta.info.pieceLength + offset;
                forall x :: 0 <= x < Size() ==>
                  Content()[x] == if at <= x < at + |data| then data[x - at] else old(Content())[x]
      ensures forall path :: Elsewhere(Es(), path) ==> SameFile(disk, old(disk), path)
    {
      hide FileWrite, WriteThrough, Splice, Flat, OnDisk, Elsewhere, SameFile, DistinctPaths, Extents;
      var absoluteOffset := pieceIndex * meta.info.pieceLength + offset;
      ghost var before := disk;
      match meta.info.mode {
        case Single(length) =>
          var path := [meta.info.name];
          if path !in disk {
            r := Err(NotFound);
          } else {
            var remaining := SaturatingSub(length, absoluteOffset);
            var toWrite := Min(|data|, remaining);
            disk := disk[path := FileWrite(disk[path], absoluteOffset, data[..toWrite])];
            r := Ok(());
          }
        case Multi(files) =>
          r, disk := FileLoops.WriteFiles(meta.info.name, files, disk, absoluteOffset, data);
      }
      assert (r, disk) == BlockWritten(meta.info, before, absoluteOffset, data);
      if old(FilesReady()) {
        BlockWrittenIsSplice(meta.info, before, absoluteOffset, data);
        forall x | 0 <= x < Size()
          ensures Content()[x] ==
                    if absoluteOffset <= x < absoluteOffset + |data| then data[x - absoluteOffset]
                    else old(Content())[x]
        {
          SpliceAt(old(Content()), absoluteOffset, data, x);
        }
      }
      forall path | Elsewhere(Es(), path) ensures SameFile(disk, before, path) {
        BlockWrittenElsewhere(meta.info, before, absoluteOffset, data, path);
      }
    }

    // On the torrent's bytes this is one slice. Beyond their end a single file is refused, while several files
    // leave the buffer's zeros.
    method ReadPieceFromDisk(offset: nat, len: nat) returns (r: Result<bytes, IoError>)
      ensures r == BytesRead(meta.info, disk, offset, len)
      ensures FilesReady() ==>
                r == if meta.info.mode.Single? && offset + len > Size() && len > 0 then Err(UnexpectedEof)
                     else Ok(Window(Content(), offset, len))
      ensures FilesReady() && r.Ok? ==>
                && |r.value| == len
                && forall x :: 0 <= x < len ==>
                     r.value[x] == if offset + x < Size() then Content()[offset + x] else 0
    {
      hide ReadThrough, Window, Flat, OnDisk, DistinctPaths, Extents;
      match meta.info.mode {
        case Single(length) =>
          var path := [meta.info.name];
          if path !in disk {
            r := Err(NotFound);
          } else if len > 0 && offset + len > |disk[path]| {
            r := Err(UnexpectedEof);
          } else {
            r := Ok(if len == 0 then [] else disk[path][offset..offset + len]);
          }
        case Multi(files) =>
          r := FileLoops.ReadFiles(meta.info.name, files, disk, offset, len);
      }
      if FilesReady() {
        assert |Content()| == Size();
        BytesReadIsSlice(meta.info, disk, offset, len);
        forall x | 0 <= x < len
          ensures Window(Content(), offset, len)[x] == if offset + x < Size() then Content()[offset + x] else 0
        {
          WindowAt(Content(), offset, len, x);
        }
      }
    }

    // What was written is read back, and a read beside it gives what it gave before.
    method WriteThenRead(pieceIndex: nat, offset: nat, data: bytes, lo: nat, len: nat)
      returns (written: Result<bytes, IoError>, beside: Result<bytes, IoError>)
      requires FilesReady() && PieceStart(Geo(), pieceIndex) + offset + |data| <= Size()
      modifies this`disk
      ensures written == Ok(data)
      ensures var at := PieceStart(Geo(), pieceIndex) + offset;
              lo + len <= at || at + |data| <= lo ==> beside == BytesRead(meta.info, old(disk), lo, len)
    {
      hide BlockWritten, BytesRead, Window, Flat, OnDisk, DistinctPaths, Splice, TotalSize, Extents;
      var at := PieceStart(Geo(), pieceIndex) + offset;
      ExtentsTotal(meta.info);
      WrittenIsRead(meta.info, disk, at, data, lo, len);
      var r := WriteBlock(pieceIndex, offset, data);
      written := ReadPieceFromDisk(at, |data|);
      beside := ReadPieceFromDisk(lo, len);
    }

    // --- resume ---

    // The hash check of piece `i` as the program cuts it.
    predicate HashMatches(flat: bytes, i: nat)
      requires |flat| == Size() && i < |meta.info.pieces|
    {
      var start := i * meta.info.pieceLength;
      start < Size() && H(flat[start..Min(start + meta.info.pieceLength, Size())]) == meta.info.pieces[i]
    }

    // The same of whatever can be read of the piece, if anything.
    predicate ReadMatches(disk: Disk, i: nat)
      requires i < |meta.info.pieces|
    {
      var start := i * meta.info.pieceLength;
      && start < Size()
      && var r := BytesRead(meta.info, disk, start, Min(start + meta.info.pieceLength, Size()) - start);
         r.Ok? && H(r.value) == meta.info.pieces[i]
    }

    lemma MatchesAgree(i: nat)
      requires FilesReady() && i < |meta.info.pieces|
      ensures ReadMatches(disk, i) <==> HashMatches(Content(), i)
    {
      hide Flat, OnDisk, DistinctPaths, Window, BytesRead, TotalSize;
      var start := i * meta.info.pieceLength;
      if start < Size() {
        BytesReadIsSlice(meta.info, disk, start, Min(start + meta.info.pieceLength, Size()) - start);
        ExtentsTotal(meta.info);
      }
    }

    method VerifyPieces() returns (completed: seq<bool>)
      ensures |completed| == |meta.info.pieces|
      ensures forall i :: 0 <= i < |completed| ==> (completed[i] <==> ReadMatches(disk, i))
      ensures FilesReady() ==> forall i :: 0 <= i < |completed| ==> (completed[i] <==> HashMatches(Content(), i))
    {
      hide Flat, OnDisk, DistinctPaths, TotalSize, BytesRead, Window, HashMatches;
      var totalSize := Size();
      completed := seq(|meta.info.pieces|, _ => false);
      for k := 0 to |meta.info.pieces|
        invariant |completed| == |meta.info.pieces|
        invariant forall i :: 0 <= i < k ==> (completed[i] <==> ReadMatches(disk, i))
        invariant forall i :: k <= i < |completed| ==> !completed[i]
      {
        var pieceStart := k * meta.info.pieceLength;
        var pieceEnd := Min(pieceStart + meta.info.pieceLength, totalSize);
        if pieceStart >= totalSize {
          forall i | k <= i < |completed| ensures !ReadMatches(disk, i) {
            MulAtMost(k, i, meta.info.pieceLength);
          }
          break;
        }
        var data := ReadPieceFromDisk(pieceStart, pieceEnd - pieceStart);
        if data.Err? {
          continue;
        }
        if H(data.value) == meta.info.pieces[k] {
          completed := completed[k := true];
        }
      }
      if FilesReady() {
        forall i | 0 <= i < |completed| ensures completed[i] <==> HashMatches(Content(), i) {
          MatchesAgree(i);
        }
      }
    }

    // For well-formed metainfo the program's check is the one of the transition system.
    lemma CheckIsVerified(completed: seq<bool>)
      requires WellFormed(Geo()) && FilesReady() && |completed| == |meta.info.pieces|
      requires forall i :: 0 <= i < |completed| ==> (completed[i] <==> HashMatches(Content(), i))
      ensures completed == Verified(Geo(), H, Content())
    {
      hide CeilDiv;
      forall i | 0 <= i < |completed| ensures completed[i] == Verified(Geo(), H, Content())[i] {
        PieceBounds(Geo(), i);
      }
    }

    // All bytes of piece `i` are on the disk, in files that may be shorter than their lengths.
    ghost predicate PieceThere(disk: Disk, i: nat, data: bytes) {
      && i * meta.info.pieceLength < Size()
      && |data| == Min(meta.info.pieceLength, Size() - i * meta.info.pieceLength)
      && forall x :: 0 <= x < |data| ==> ByteThere(Es(), disk, i * meta.info.pieceLength + x, data[x])
    }

    // Setting the lengths keeps such a piece, so that the hash check is over the same bytes.
    lemma PieceIsKept(before: Disk, i: nat, data: bytes)
      requires WellFormed(Geo()) && FilesReady() && Initialized(Es(), before, disk, |Es()|)
      requires i < |meta.info.pieces| && PieceThere(before, i, data)
      ensures PieceAt(Geo(), Content(), i) == data
    {
      hide Initialized, OnDisk, DistinctPaths, Flat, TotalSize, CeilDiv, ByteThere;
      PieceBounds(Geo(), i);
      var start := i * meta.info.pieceLength;
      assert |PieceAt(Geo(), Content(), i)| == |data|;
      forall x | 0 <= x < |data| ensures PieceAt(Geo(), Content(), i)[x] == data[x] {
        BytesAreKept(Es(), before, disk, start + x, data[x]);
      }
    }

    // A new session: afterwards the state is the one `Resume` builds from the disk.
    method VerifyAndResume() returns (verifiedCount: nat)
      requires WellFormed(Geo()) && GoodPaths(meta.info) && size == Size()
      requires peers == [] && refunds == []
      modifies this
      ensures Valid() && Abs() == Resume(Geo(), H, Content())
      ensures Initialized(Es(), old(disk), disk, |Es()|)
      ensures old(FilesReady()) ==> disk == old(disk)
      ensures size == old(size) && verifiedCount == CountTrue(have)
      ensures IsMissingList(have, missing)
      ensures forall i, data :: 0 <= i < |have| && (PieceThere(old(disk), i, data) || PieceThere(disk, i, data)) ==>
                (have[i] <==> H(data) == meta.info.pieces[i])
    {
      hide Inv, Resume, Verified, WellFormed, Flat, OnDisk, DistinctPaths, Initialized, TotalSize, MissingBelow,
        ResumedBytes, ProperPaths, Extents, Shape, CountTrue, HashMatches, ReadMatches, BytesRead, Elsewhere, SameFile,
        GoodPaths, PieceThere, PieceAt, IsMissingList, Lengthened;
      InitializeFiles();
      var completed := VerifyPieces();
      CheckIsVerified(completed);
      var missingList := ListMissing(completed);
      var isCompleted := missingList == [];
      missing := missingList;
      have := completed;
      var verified;
      verified, verifiedCount := SumVerified(Geo(), completed);
      downloaded := Min(verified, size);
      status := if isCompleted then Completed else Downloading;
      ResumedState(Geo(), H, Content(), missing, have, downloaded, status);
      SwarmProofs.ResumeInv(Geo(), H, Content());
      ghost var before := old(disk);
      forall i, data | 0 <= i < |have| && (PieceThere(before, i, data) || PieceThere(disk, i, data))
        ensures have[i] <==> H(data) == meta.info.pieces[i]
      {
        InitializedStays(Es(), disk);
        PieceIsKept(if PieceThere(before, i, data) then before else disk, i, data);
      }
    }

    // --- what is sent to other clients ---

    // The bitfield message's payload.
    method BitfieldToSend() returns (b: bytes)
      ensures Bitfields.Packs(b, have)
    {
      b := Bitfields.PackBits(have);
    }

    // The answer to a Request message: the bytes that can be read, if the piece is marked. Inside the torrent they are
    // its bytes; beyond its end a single file is not served, while several files are served with zeros.
    method ServeRequest(index: nat, begin: nat, length: nat) returns (r: seq<Network.Message>)
      ensures var data := BytesRead(meta.info, disk, index * PieceLength32(Geo()) + begin, length);
              r == if index < |have| && have[index] && data.Ok? then [Network.Piece(index, begin, data.value)] else []
      ensures Sane() && PieceStart(Geo(), index) + begin + length <= Size() ==>
                r == Network.Reply(Geo(), Abs(), index, begin, length)
      ensures Sane() && PieceStart(Geo(), index) + begin + length > Size() && length > 0 && r != [] ==>
                && meta.info.mode.Multi?
                && r == [Network.Piece(index, begin, Window(Content(), PieceStart(Geo(), index) + begin, length))]
    {
      hide Shape, OnDisk, Flat, DistinctPaths, CeilDiv, TotalSize, BytesRead, Extents;
      r := [];
      if index < |have| && have[index] {
        var offset := index * PieceLength32(Geo()) + begin;
        var data := ReadPieceFromDisk(offset, length);
        if data.Ok? {
          r := [Network.Piece(index, begin, data.value)];
        }
        if Sane() {
          assert PieceLength32(Geo()) == Geo().pieceLength;
        }
      }
    }

    // --- the steps of the peer loops ---

    // A new peer loop takes its first piece. Returns its index among the peers.
    method Connect() returns (p: nat)
      requires Sane()
      modifies this`missing, this`peers
      ensures Sane() && Abs() == Next(Geo(), H, old(Abs()), Action.Connect)
      ensures old(Valid()) ==> Valid()
      ensures p == |old(peers)| && |peers| == p + 1 && peers[..p] == old(peers)
      ensures if old(missing) == [] then missing == [] && peers[p] == Waiting(Guard(0, 0, true))
              else missing == old(missing)[1..] && peers[p] == Waiting(Guard(old(missing)[0], 0, false))
    {
      ghost var before := Abs();
      p := |peers|;
      var guard := NEW_GUARD;
      if missing != [] {
        guard := Guard(missing[0], 0, false);
        missing := missing[1..];
      }
      peers := peers + [Waiting(guard)];
      StepTaken(before, Action.Connect);
    }

    // After a step of the transition system: what it keeps.
    lemma StepTaken(before: State, a: Action)
      requires FilesReady() && size == Size() && WellFormed(Geo()) && Shape(Geo(), before)
      requires Enabled(Geo(), before, a) && Abs() == Next(Geo(), H, before, a)
      ensures Sane()
      ensures Inv(Geo(), before) ==> (Valid() <==> Harmless(Geo(), before, a))
    {
      hide Shape, Partition, Conservation, Harmless, Next, OnDisk, DistinctPaths;
      SwarmProofs.StepKeepsShape(Geo(), H, before, a);
      if Inv(Geo(), before) {
        SwarmProofs.StepKeepsExactly(Geo(), H, before, a);
      }
    }

    // The request of a peer loop's guard, after an unchoke or a piece; none for a complete guard.
    method NextRequest(p: nat) returns (req: seq<Network.Message>)
      requires Sane() && p < |peers| && peers[p].Waiting?
      ensures req == Network.Ask(Geo(), peers[p].guard)
      ensures var guard := peers[p].guard;
              if guard.complete then req == []
              else
                && guard.piece < |meta.info.pieces| && guard.offset < PieceSize(Geo(), guard.piece)
                && req == [Network.Request(guard.piece, guard.offset,
                                           Min(16384, PieceSize(Geo(), guard.piece) - guard.offset))]
    {
      hide OnDisk, DistinctPaths, CeilDiv;
      req := [];
      if !peers[p].guard.complete {
        var i, offset := peers[p].guard.piece, peers[p].guard.offset;
        assert peers[p] in Abs().peers;
        SwarmProofs.GuardsCanAlwaysAsk(Geo(), Abs(), p);
        RequestLengthIsRest(Geo(), i, offset);
        var reqLen := GetRequestLength(Geo(), i, offset);
        if reqLen > 0 {
          req := [Network.Request(i, offset, reqLen)];
        }
      }
    }

    // A Piece message, any at all: its block goes where the message says. The handler does not compare that with
    // what was requested.
    method PieceArrives(p: nat, index: nat, begin: nat, block: bytes) returns (r: Result<(), IoError>)
      requires Sane() && Enabled(Geo(), Abs(), Write(p, index, begin, block))
      modifies this`disk, this`peers
      ensures r.Ok? && Sane() && Abs() == Next(Geo(), H, old(Abs()), Write(p, index, begin, block))
      ensures old(Valid()) ==> Valid()
      ensures var at := index * meta.info.pieceLength + begin;
              forall x :: 0 <= x < Size() ==>
                Content()[x] == if at <= x < at + |block| then block[x - at] else old(Content())[x]
      ensures peers == old(peers)[p := Written(old(peers[p]).guard, |block|)]
    {
      hide Splice, Flat, OnDisk, DistinctPaths, TotalSize, BlockWritten;
      ghost var before := Abs();
      r := WriteBlock(index, begin, block);
      peers := peers[p := Written(peers[p].guard, |block|)];
      StepTaken(before, Write(p, index, begin, block));
    }

    // Its bytes are counted, and the guard advances, wherever the block belonged.
    method CreditBlock(p: nat)
      requires Sane() && Enabled(Geo(), Abs(), Credit(p))
      modifies this`downloaded, this`status, this`peers
      ensures Sane() && Abs() == Next(Geo(), H, old(Abs()), Credit(p))
      ensures old(Valid()) ==> (Valid() <==> old(CountsRight(Geo(), Abs(), peers[p].guard, peers[p].len)))
      ensures downloaded == Min(old(downloaded) + old(peers[p].len), size)
      ensures status == if downloaded == size then Completed else Downloading
      ensures var guard, len := old(peers[p].guard), old(peers[p].len);
              var offset := (guard.offset + len) % 0x1_0000_0000;
              guard.piece < |meta.info.pieces| ==>
                peers == old(peers)[p := if offset >= PieceSize(Geo(), guard.piece)
                                         then Finished(Guard(guard.piece, offset, true), !guard.complete)
                                         else Waiting(Guard(guard.piece, offset, guard.complete))]
    {
      hide Shape, TargetSize, CeilDiv, OnDisk, DistinctPaths;
      ghost var before := Abs();
      var guard, len := peers[p].guard, peers[p].len;
      downloaded := Min(downloaded + len, size);
      status := if downloaded >= size then Completed else Downloading;
      var blockOffset := (guard.offset + len) % U32;
      var target := TargetSize(Geo(), guard.piece);
      peers := peers[p := if blockOffset >= target then Finished(Guard(guard.piece, blockOffset, true), !guard.complete)
                          else Waiting(Guard(guard.piece, blockOffset, guard.complete))];
      if guard.piece < |meta.info.pieces| {
        TargetIsPieceSize(Geo(), guard.piece);
      }
      assert Abs() == Next(Geo(), H, before, Credit(p));
      StepTaken(before, Credit(p));
    }

    method MarkHave(p: nat)
      requires Sane() && Enabled(Geo(), Abs(), Mark(p))
      modifies this`have, this`peers
      ensures Sane() && Abs() == Next(Geo(), H, old(Abs()), Mark(p))
      ensures old(Valid()) ==> (Valid() <==> old(Harmless(Geo(), Abs(), Mark(p))))
      ensures |have| == |old(have)|
      ensures forall i :: 0 <= i < |have| ==> have[i] == (old(have[i]) || i == old(peers[p]).guard.piece)
      ensures peers == old(peers)[p := Marked(old(peers[p]).guard)]
    {
      hide Shape;
      ghost var before := Abs();
      var guard := peers[p].guard;
      if guard.piece < |have| {
        have := have[guard.piece := true];
      }
      peers := peers[p := Marked(guard)];
      assert Abs() == Next(Geo(), H, before, Mark(p));
      StepTaken(before, Mark(p));
    }

    method TakeNextPiece(p: nat)
      requires Sane() && Enabled(Geo(), Abs(), TakeNext(p))
      modifies this`missing, this`peers
      ensures Sane() && Abs() == Next(Geo(), H, old(Abs()), TakeNext(p))
      ensures old(Valid()) ==> Valid()
      ensures if old(missing) == [] then missing == [] && peers == old(peers)[p := Waiting(old(peers[p]).guard)]
              else
                && missing == old(missing)[1..]
                && peers == old(peers)[p := Waiting(Guard(old(missing)[0], 0, false))]
    {
      hide Shape;
      ghost var before := Abs();
      if missing != [] {
        peers := peers[p := Waiting(Guard(missing[0], 0, false))];
        missing := missing[1..];
      } else {
        peers := peers[p := Waiting(peers[p].guard)];
      }
      assert Abs() == Next(Geo(), H, before, TakeNext(p));
      StepTaken(before, TakeNext(p));
    }

    // The peer loop ends and its guard is dropped; an incomplete guard spawns a refund.
    method DropPeer(p: nat)
      requires Sane() && Enabled(Geo(), Abs(), Drop(p))
      modifies this`peers, this`refunds
      ensures Sane() && Abs() == Next(Geo(), H, old(Abs()), Drop(p))
      ensures old(Valid()) ==> (Valid() <==> !old(peers[p].Finished? && peers[p].held))
      ensures peers == old(peers)[p := Gone]
      ensures var ph := old(peers[p]);
              refunds == if (ph.Waiting? || ph.Written?) && !ph.guard.complete
                         then old(refunds) + [Owed(ph.guard.piece, ph.guard.offset)] else old(refunds)
    {
      hide Shape;
      ghost var before := Abs();
      var ph := peers[p];
      peers := peers[p := Gone];
      if (ph.Waiting? || ph.Written?) && !ph.guard.complete {
        refunds := refunds + [Owed(ph.guard.piece, ph.guard.offset)];
      }
      assert Abs() == Next(Geo(), H, before, Drop(p));
      StepTaken(before, Drop(p));
    }

    // The first half of a refund task: the bytes.
    method SubtractRefundBytes(k: nat)
      requires Sane() && Enabled(Geo(), Abs(), SubtractRefund(k))
      modifies this`downloaded, this`status, this`refunds
      ensures Sane() && Abs() == Next(Geo(), H, old(Abs()), SubtractRefund(k))
      ensures old(Valid()) ==> Valid()
      ensures downloaded == SaturatingSub(old(downloaded), old(refunds[k].count))
      ensures status == if downloaded < size then Downloading else old(status)
      ensures refunds == old(refunds)[k := Returning(old(refunds[k].piece))]
    {
      hide Shape;
      ghost var before := Abs();
      downloaded := SaturatingSub(downloaded, refunds[k].count);
      if downloaded < size {
        status := Downloading;
      }
      refunds := refunds[k := Returning(refunds[k].piece)];
      assert Abs() == Next(Geo(), H, before, SubtractRefund(k));
      StepTaken(before, SubtractRefund(k));
    }

    // The second half: the piece.
    method PushRefundPiece(k: nat)
      requires Sane() && Enabled(Geo(), Abs(), PushRefund(k))
      modifies this`missing, this`refunds
      ensures Sane() && Abs() == Next(Geo(), H, old(Abs()), PushRefund(k))
      ensures old(Valid()) ==> Valid()
      ensures missing == old(missing) + [old(refunds[k].piece)]
      ensures refunds == old(refunds)[..k] + old(refunds)[k + 1..]
    {
      hide Shape;
      ghost var before := Abs();
      missing := missing + [refunds[k].piece];
      refunds := refunds[..k] + refunds[k + 1..];
      assert Abs() == Next(Geo(), H, before, PushRefund(k));
      StepTaken(before, PushRefund(k));
    }
  }

  function CountTrue(have: seq<bool>): nat { SumBy((b: bool) => if b then 1 else 0, have) }

  // The filter and map of `verify_and_resume`.
  method ListMissing(completed: seq<bool>) returns (missing: seq<nat>)
    ensures missing == MissingBelow(completed, |completed|)
    ensures IsMissingList(completed, missing)
  {
    missing := [];
    for i := 0 to |completed|
      invariant missing == MissingBelow(completed, i)
    {
      if !completed[i] {
        missing := missing + [i];
      }
      assert MissingBelow(completed, i) + [] == MissingBelow(completed, i);
    }
    MissingIsList(completed);
  }

  // Its fold over the sizes, and its count.
  method SumVerified(g: Geometry, completed: seq<bool>) returns (verified: nat, count: nat)
    requires WellFormed(g) && |completed| == |g.hashes|
    ensures verified == ResumedBytes(g, completed, |completed|)
    ensures count == CountTrue(completed)
  {
    verified, count := 0, 0;
    var totalPieces := |g.hashes|;
    for i := 0 to |completed|
      invariant verified == ResumedBytes(g, completed, i)
      invariant count == CountTrue(completed[..i])
    {
      if completed[i] {
        PieceBounds(g, i);
        var pieceLen := if i == totalPieces - 1 then g.total - (totalPieces - 1) * g.pieceLength else g.pieceLength;
        verified := verified + pieceLen;
        count := count + 1;
      }
      assert completed[..i + 1] == completed[..i] + [completed[i]];
      CountOneMore(completed[..i], completed[i]);
    }
    assert completed[..|completed|] == completed;
  }

  lemma CountOneMore(have: seq<bool>, b: bool)
    ensures CountTrue(have + [b]) == CountTrue(have) + if b then 1 else 0
  {
    SumByAppend((b: bool) => if b then 1 else 0, have, b);
  }

  lemma MulAtMost(a: nat, b: nat, k: nat)
    requires a <= b
    ensures a * k <= b * k
  {
  }

  lemma ResumedState(g: Geometry, H: bytes -> Digest, disk: bytes,
                     missing: seq<nat>, have: seq<bool>, downloaded: nat, status: Status)
    requires WellFormed(g) && |disk| == g.total && have == Verified(g, H, disk)
    requires missing == MissingBelow(have, |have|)
    requires downloaded == Min(ResumedBytes(g, have, |have|), g.total)
    requires status == if missing == [] then Completed else Downloading
    ensures State(disk, missing, have, downloaded, status, [], []) == Resume(g, H, disk)
  {
  }

  // Two clients with the two layouts of one file, whose contents are equal: the same calls give the same results, and
  // equal contents again. Reads are inside the file.
  method OneFileClientsAgree(a: TorrentDownloader, b: TorrentDownloader, pieceIndex: nat, offset: nat, data: bytes,
                             lo: nat, len: nat)
    returns (r: Result<bytes, IoError>)
    requires a != b && a.FilesReady() && b.FilesReady()
    requires a.meta.info.mode.Single? && a.meta.info.pieceLength == b.meta.info.pieceLength
    requires b.meta.info.mode.Multi? && |b.meta.info.mode.files| == 1
    requires b.meta.info.mode.files[0].length == a.meta.info.mode.length
    requires a.Content() == b.Content() && lo + len <= a.Size()
    modifies a`disk, b`disk
    ensures a.FilesReady() && b.FilesReady() && a.Content() == b.Content()
    ensures r == BytesRead(a.meta.info, a.disk, lo, len) == BytesRead(b.meta.info, b.disk, lo, len)
  {
    hide BlockWritten, Splice, OnDisk, Flat, DistinctPaths, Window;
    var _ := a.WriteBlock(pieceIndex, offset, data);
    var _ := b.WriteBlock(pieceIndex, offset, data);
    r := a.ReadPieceFromDisk(lo, len);
    var t := b.ReadPieceFromDisk(lo, len);
  }
}
