// The loops of crates/daemon/src/engine.rs over a torrent's files, on any disk. The file system is passed in and out.
module FileLoops {
  import opened Prelude
  import opened Metainfo
  import opened Storage

  datatype IoError = NotFound | IsADirectory | UnexpectedEof

  // Every path names something below the torrent's directory.
  predicate ProperPaths(files: seq<TorrentFile>) {
    forall k :: 0 <= k < |files| ==> files[k].path != []
  }

  predicate SameFile(a: Disk, b: Disk, path: Path) {
    (path in a <==> path in b) && (path in a ==> a[path] == b[path])
  }

  predicate Elsewhere(es: seq<Extent>, path: Path) {
    forall i :: 0 <= i < |es| ==> es[i].path != path
  }

  function ContentOr(disk: Disk, path: Path): bytes {
    if path in disk then disk[path] else []
  }

  lemma OnDiskAt(es: seq<Extent>, disk: Disk, k: nat)
    requires OnDisk(es, disk) && k < |es|
    ensures es[k].path in disk && |disk[es[k].path]| == es[k].length
  {
  }

  // The file has its length. Its bytes are the old ones as far as those reached, and zeros after that; of a file that
  // was missing, all are zeros.
  predicate Lengthened(before: Disk, disk: Disk, path: Path, length: nat) {
    && path in disk && |disk[path]| == length
    && forall i :: 0 <= i < length ==>
         disk[path][i] == if path in before && i < |before[path]| then before[path][i] else 0
  }

  lemma ResizeLengthens(before: Disk, disk: Disk, path: Path, length: nat)
    requires SameFile(disk, before, path)
    ensures Lengthened(before, disk[path := Resize(ContentOr(disk, path), length)], path, length)
    ensures path in before && |before[path]| == length ==> Resize(ContentOr(disk, path), length) == before[path]
  {
  }

  // The first `k` files have their length and keep what was there; the others are as before.
  predicate Initialized(es: seq<Extent>, before: Disk, disk: Disk, k: nat)
    requires k <= |es|
  {
    && (forall i :: 0 <= i < k ==> Lengthened(before, disk, es[i].path, es[i].length))
    && (forall i :: k <= i < |es| ==> SameFile(disk, before, es[i].path))
  }

  lemma InitializeRound(es: seq<Extent>, before: Disk, disk: Disk, k: nat)
    requires DistinctPaths(es) && k < |es| && Initialized(es, before, disk, k)
    ensures var content := Resize(ContentOr(disk, es[k].path), es[k].length);
            && Initialized(es, before, disk[es[k].path := content], k + 1)
            && (OnDisk(es, before) && disk == before ==> disk[es[k].path := content] == before)
  {
    hide Resize, DistinctPaths;
    DistinctFromOthers(es, k);
    assert SameFile(disk, before, es[k].path);
    ResizeLengthens(before, disk, es[k].path, es[k].length);
    var content := Resize(ContentOr(disk, es[k].path), es[k].length);
    forall i | 0 <= i < k
      ensures Lengthened(before, disk[es[k].path := content], es[i].path, es[i].length)
    {
      assert Lengthened(before, disk, es[i].path, es[i].length);
    }
    if OnDisk(es, before) {
      OnDiskAt(es, before, k);
    }
  }

  lemma InitializedAt(es: seq<Extent>, before: Disk, disk: Disk, k: nat)
    requires k < |es| && Initialized(es, before, disk, |es|)
    ensures Lengthened(before, disk, es[k].path, es[k].length)
  {
  }

  lemma InitializedOnDisk(es: seq<Extent>, before: Disk, disk: Disk)
    requires Initialized(es, before, disk, |es|)
    ensures OnDisk(es, disk)
  {
    forall i | 0 <= i < |es| ensures es[i].path in disk && |disk[es[i].path]| == es[i].length {
      assert Lengthened(before, disk, es[i].path, es[i].length);
    }
  }

  lemma InitializedStays(es: seq<Extent>, disk: Disk)
    requires OnDisk(es, disk)
    ensures Initialized(es, disk, disk, |es|)
  {
  }

  // The byte at that place of the torrent is on the disk, in a file that may be shorter than its length.
  ghost predicate ByteThere(es: seq<Extent>, disk: Disk, at: nat, b: byte) {
    exists k, i ::
      && 0 <= k < |es| && 0 <= i < es[k].length && at == Total(es[..k]) + i
      && es[k].path in disk && i < |disk[es[k].path]| && disk[es[k].path][i] == b
  }

  // It stays there.
  lemma BytesAreKept(es: seq<Extent>, before: Disk, disk: Disk, at: nat, b: byte)
    requires Initialized(es, before, disk, |es|) && ByteThere(es, before, at, b)
    ensures OnDisk(es, disk) && at < Total(es) && Flat(es, disk)[at] == b
  {
    hide Flat, Total;
    InitializedOnDisk(es, before, disk);
    var k, i :|
      && 0 <= k < |es| && 0 <= i < es[k].length && at == Total(es[..k]) + i
      && es[k].path in before && i < |before[es[k].path]| && before[es[k].path][i] == b;
    assert Lengthened(before, disk, es[k].path, es[k].length);
    FlatAt(es, disk, k);
    assert Flat(es, disk)[Total(es[..k])..Total(es[..k]) + es[k].length][i] == Flat(es, disk)[at];
  }

  // `initialize_files`, several files: creates what is missing and sets every length, keeping what was there.
  method InitializeFiles(name: bytes, files: seq<TorrentFile>, before: Disk) returns (disk: Disk)
    ensures var es := FileExtents(name, files);
            && (DistinctPaths(es) && ProperPaths(files) ==>
                  && OnDisk(es, disk) && Initialized(es, before, disk, |es|)
                  && (forall k :: 0 <= k < |files| ==>
                        Lengthened(before, disk, [name] + files[k].path, files[k].length))
                  && (OnDisk(es, before) ==> disk == before))
            && (forall path :: Elsewhere(es, path) ==> SameFile(disk, before, path))
  {
    hide Resize, DistinctPaths, OnDisk, Initialized, FileExtents, Lengthened;
    ghost var es, proper := FileExtents(name, files), DistinctPaths(FileExtents(name, files)) && ProperPaths(files);
    FileExtentsAre(name, files);
    disk := before;
    InitializedNone(es, before);
    for k := 0 to |files|
      invariant proper ==> Initialized(es, before, disk, k)
      invariant proper && OnDisk(es, before) ==> disk == before
      invariant forall path :: Elsewhere(es, path) ==> SameFile(disk, before, path)
    {
      if files[k].path != [] {
        var path := [name] + files[k].path;
        assert path == es[k].path;
        var content := Resize(ContentOr(disk, path), files[k].length);
        if proper {
          InitializeRound(es, before, disk, k);
        }
        disk := disk[path := content];
      }
    }
    if proper {
      InitializedOnDisk(es, before, disk);
      forall k | 0 <= k < |files| ensures Lengthened(before, disk, [name] + files[k].path, files[k].length) {
        InitializedAt(es, before, disk, k);
      }
    }
  }

  lemma InitializedNone(es: seq<Extent>, before: Disk)
    ensures Initialized(es, before, before, 0)
  {
  }

  // --- what the loops do to any files, missing ones and ones of another length included ---

  // Where data goes that is to be written from `at` on. A missing file takes none of it, so that what belongs there
  // goes to the start of the next file.
  function WriteThrough(name: bytes, files: seq<TorrentFile>, disk: Disk, at: nat, data: bytes):
    (Result<(), IoError>, Disk)
  {
    if files == [] then (Ok(()), disk)
    else
      var file, path := files[0], [name] + files[0].path;
      if at >= file.length then WriteThrough(name, files[1..], disk, at - file.length, data)
      else if file.path == [] then (Err(IsADirectory), disk)
      else
        var w := if path in disk then Min(|data|, file.length - at) else 0;
        var disk' := if path in disk then disk[path := FileWrite(disk[path], at, data[..w])] else disk;
        if w == |data| then (Ok(()), disk') else WriteThrough(name, files[1..], disk', 0, data[w..])
  }

  // What is read from `at` on. A missing file is passed over without its length being taken off the offset.
  function ReadThrough(name: bytes, files: seq<TorrentFile>, disk: Disk, at: nat, len: nat): (r: Result<bytes, IoError>)
    ensures r.Ok? ==> |r.value| == len
  {
    if files == [] || len == 0 then Ok(seq(len, _ => 0))
    else
      var file, path := files[0], [name] + files[0].path;
      if at >= file.length then ReadThrough(name, files[1..], disk, at - file.length, len)
      else if file.path == [] then Err(IsADirectory)
      else if path !in disk then ReadThrough(name, files[1..], disk, at, len)
      else
        var w := Min(len, file.length - at);
        if at + w > |disk[path]| then Err(UnexpectedEof)
        else ReadAfter(disk[path][at..at + w], ReadThrough(name, files[1..], disk, 0, len - w))
  }

  // What a read gives once `done` has been read.
  function ReadAfter(done: bytes, rest: Result<bytes, IoError>): Result<bytes, IoError> {
    if rest.Ok? then Ok(done + rest.value) else rest
  }

  // A write to a missing file lands at the start of the next one: with the first of two files missing, data that
  // belongs there overwrites the second.
  lemma MissingFileShifts(name: bytes, a: TorrentFile, b: TorrentFile, disk: Disk, at: nat, data: bytes)
    requires at < a.length && a.path != [] && b.path != [] && data != [] && |data| <= b.length
    requires [name] + a.path !in disk && [name] + b.path in disk && |disk[[name] + b.path]| == b.length
    ensures var path := [name] + b.path;
            WriteThrough(name, [a, b], disk, at, data) == (Ok(()), disk[path := Splice(disk[path], 0, data)])
  {
    hide FileWrite, Splice;
    assert [a, b][1..] == [b];
    assert data[..|data|] == data && data[0..] == data;
    FileWriteInside(disk[[name] + b.path], 0, data);
    SpliceExact(disk[[name] + b.path], 0, data);
  }

  // A read that begins in a missing file gives the bytes of the next one, from the same offset on.
  lemma MissingFileIsPassedOver(name: bytes, a: TorrentFile, b: TorrentFile, disk: Disk, at: nat, len: nat)
    requires at < a.length && a.path != [] && b.path != []
    requires [name] + a.path !in disk && [name] + b.path in disk && |disk[[name] + b.path]| == b.length
    requires at + len <= b.length
    ensures ReadThrough(name, [a, b], disk, at, len) == Ok(disk[[name] + b.path][at..at + len])
  {
    assert [a, b][1..] == [b];
    ReadOne(name, b, disk, at, len);
    assert disk[[name] + b.path][at..at + len] + [] == disk[[name] + b.path][at..at + len];
  }

  // A file that is too short ends the read, one without a path ends both; and the files before them have been written.
  lemma BadFilesFail(name: bytes, a: TorrentFile, b: TorrentFile, disk: Disk, at: nat, data: bytes)
    requires at < a.length && a.path != [] && [name] + a.path in disk && |disk[[name] + a.path]| == a.length
    requires a.length < at + |data| <= a.length + b.length
    ensures b.path != [] && [name] + b.path in disk && |disk[[name] + b.path]| < at + |data| - a.length ==>
              ReadThrough(name, [a, b], disk, at, |data|) == Err(UnexpectedEof)
    ensures b.path == [] ==>
              var path, n := [name] + a.path, a.length - at;
              && ReadThrough(name, [a, b], disk, at, |data|) == Err(IsADirectory)
              && WriteThrough(name, [a, b], disk, at, data)
                 == (Err(IsADirectory), disk[path := disk[path][..at] + data[..n]])
  {
    hide FileWrite;
    assert [a, b][1..] == [b];
    var content, n := disk[[name] + a.path], a.length - at;
    FileWriteInside(content, at, data[..n]);
    assert content[..at] + data[..n] + content[at + n..] == content[..at] + data[..n];
  }

  // One round of the writing loop.
  lemma WriteOn(name: bytes, files: seq<TorrentFile>, disk: Disk, k: nat, at: nat, data: bytes, done: nat)
    requires k < |files| && done <= |data|
    ensures var file, path := files[k], [name] + files[k].path;
            WriteThrough(name, files[k..], disk, at, data[done..]) ==
              if at >= file.length then WriteThrough(name, files[k + 1..], disk, at - file.length, data[done..])
              else if file.path == [] then (Err(IsADirectory), disk)
              else
                var w := if path in disk then Min(|data| - done, file.length - at) else 0;
                var disk' := if path in disk then disk[path := FileWrite(disk[path], at, data[done..done + w])]
                             else disk;
                if done + w == |data| then (Ok(()), disk')
                else WriteThrough(name, files[k + 1..], disk', 0, data[done + w..])
  {
    hide FileWrite;
    assert files[k..][0] == files[k] && files[k..][1..] == files[k + 1..];
    var file, path := files[k], [name] + files[k].path;
    if at < file.length {
      var w := if path in disk then Min(|data| - done, file.length - at) else 0;
      assert data[done..][..w] == data[done..done + w] && data[done..][w..] == data[done + w..];
    }
  }

  // `write_block`, several files, on any disk.
  method WriteFiles(name: bytes, files: seq<TorrentFile>, before: Disk, absoluteOffset: nat, data: bytes)
    returns (r: Result<(), IoError>, disk: Disk)
    ensures (r, disk) == WriteThrough(name, files, before, absoluteOffset, data)
  {
    hide FileWrite, WriteThrough;
    disk := before;
    var remainingOffset: nat, dataPos: nat := absoluteOffset, 0;
    assert files[0..] == files && data[0..] == data;
    for k := 0 to |files|
      invariant dataPos <= |data|
      invariant WriteThrough(name, files, before, absoluteOffset, data)
             == WriteThrough(name, files[k..], disk, remainingOffset, data[dataPos..])
    {
      WriteOn(name, files, disk, k, remainingOffset, data, dataPos);
      if remainingOffset >= files[k].length {
        remainingOffset := remainingOffset - files[k].length;
        continue;
      }
      if files[k].path == [] {
        return Err(IsADirectory), disk;
      }
      var path := [name] + files[k].path;
      if path in disk {
        var available := files[k].length - remainingOffset;
        var toWrite := Min(|data| - dataPos, available);
        disk := disk[path := FileWrite(disk[path], remainingOffset, data[dataPos..dataPos + toWrite])];
        dataPos := dataPos + toWrite;
      }
      remainingOffset := 0;
      if dataPos >= |data| {
        return Ok(()), disk;
      }
    }
    NoFilesLeft(name, files, disk, remainingOffset, data[dataPos..]);
    return Ok(()), disk;
  }

  lemma NoFilesLeft(name: bytes, files: seq<TorrentFile>, disk: Disk, at: nat, data: bytes)
    ensures WriteThrough(name, files[|files|..], disk, at, data) == (Ok(()), disk)
  {
  }

  // With every file in place, the skip, clip and carry arithmetic is one splice of their concatenation, clipped at
  // its end.
  lemma WriteThroughIsSplice(name: bytes, files: seq<TorrentFile>, disk: Disk, at: nat, data: bytes)
    requires Ready(FileExtents(name, files), disk) && ProperPaths(files)
    ensures var es := FileExtents(name, files);
            var (r, disk') := WriteThrough(name, files, disk, at, data);
            r.Ok? && OnDisk(es, disk') && Flat(es, disk') == Splice(Flat(es, disk), at, data)
  {
    hide WriteThrough, Flat, Splice, DistinctPaths, OnDisk, FileExtents;
    FileExtentsAre(name, files);
    var f := Flat(FileExtents(name, files), disk);
    assert files[0..] == files && data[0..] == data && data[..0] == [];
    SpliceNothing(f, at);
    TotalOfNone(FileExtents(name, files));
    WriteRounds(name, files, disk, f, at, data, 0, 0, at);
  }

  // The same from the k-th file on, with `done` bytes written.
  lemma {:induction false} WriteRounds(name: bytes, files: seq<TorrentFile>, disk: Disk, f: bytes, at: nat, data: bytes,
                                       done: nat, k: nat, pos: nat)
    requires var es := FileExtents(name, files);
             && Ready(es, disk) && ProperPaths(files) && |f| == Total(es) && |es| == |files|
             && k <= |files| && done <= |data| && (done > 0 ==> pos == 0)
             && Total(es[..k]) + pos == at + done && Flat(es, disk) == Splice(f, at, data[..done])
    ensures var es := FileExtents(name, files);
            var (r, disk') := WriteThrough(name, files[k..], disk, pos, data[done..]);
            r.Ok? && OnDisk(es, disk') && Flat(es, disk') == Splice(f, at, data)
    decreases |files| - k
  {
    hide WriteThrough, Flat, Splice, FileWrite, DistinctPaths, OnDisk, Total, FileExtents;
    var es := FileExtents(name, files);
    FileExtentsAre(name, files);
    if k == |files| {
      TotalAll(es);
      NoFilesLeft(name, files, disk, pos, data[done..]);
      WriteEnd(f, at, data, done, pos);
    } else {
      TotalSplit(es, k);
      WriteOn(name, files, disk, k, pos, data, done);
      if pos >= files[k].length {
        WriteRounds(name, files, disk, f, at, data, done, k + 1, pos - files[k].length);
      } else {
        OnDiskAt(es, disk, k);
        var w := Min(|data| - done, files[k].length - pos);
        WriteRound(es, disk, f, at, data, done, k, pos, w);
        var disk' := disk[es[k].path := FileWrite(disk[es[k].path], pos, data[done..done + w])];
        if done + w == |data| {
          assert data[..done + w] == data;
        } else {
          WriteRounds(name, files, disk', f, at, data, done + w, k + 1, 0);
        }
      }
    }
  }

  // Whatever is missing, no file outside the torrent is touched.
  lemma {:induction false} WriteThroughElsewhere(name: bytes, files: seq<TorrentFile>, disk: Disk, at: nat, data: bytes,
                                                 path: Path)
    requires Elsewhere(FileExtents(name, files), path)
    ensures SameFile(WriteThrough(name, files, disk, at, data).1, disk, path)
  {
    hide FileWrite;
    if files != [] {
      var es, rest := FileExtents(name, files), FileExtents(name, files[1..]);
      assert es[0].path == [name] + files[0].path;
      assert Elsewhere(rest, path) by {
        forall i | 0 <= i < |rest| ensures rest[i].path != path {
          assert rest[i] == es[i + 1];
        }
      }
      if at >= files[0].length {
        WriteThroughElsewhere(name, files[1..], disk, at - files[0].length, data, path);
      } else if files[0].path != [] {
        var w := if es[0].path in disk then Min(|data|, files[0].length - at) else 0;
        var disk' :=
          if es[0].path in disk then disk[es[0].path := FileWrite(disk[es[0].path], at, data[..w])] else disk;
        WriteThroughElsewhere(name, files[1..], disk', 0, data[w..], path);
      }
    }
  }

  // One round of the reading loop.
  lemma ReadOn(name: bytes, files: seq<TorrentFile>, disk: Disk, k: nat, at: nat, len: nat)
    requires k < |files|
    ensures len == 0 ==> ReadThrough(name, files[k + 1..], disk, at, len) == Ok([])
    ensures var file, path := files[k], [name] + files[k].path;
            ReadThrough(name, files[k..], disk, at, len) ==
              if len == 0 then Ok([])
              else if at >= file.length then ReadThrough(name, files[k + 1..], disk, at - file.length, len)
              else if file.path == [] then Err(IsADirectory)
              else if path !in disk then ReadThrough(name, files[k + 1..], disk, at, len)
              else
                var w := Min(len, file.length - at);
                if at + w > |disk[path]| then Err(UnexpectedEof)
                else ReadAfter(disk[path][at..at + w], ReadThrough(name, files[k + 1..], disk, 0, len - w))
  {
    hide ReadAfter;
    assert files[k..][0] == files[k] && files[k..][1..] == files[k + 1..];
  }

  lemma ReadAfterTwice(a: bytes, b: bytes, rest: Result<bytes, IoError>)
    ensures ReadAfter(a, ReadAfter(b, rest)) == ReadAfter(a + b, rest)
  {
    if rest.Ok? {
      ConcatAssoc(a, b, rest.value);
    }
  }

  lemma ReadAfterNothing(rest: Result<bytes, IoError>)
    ensures ReadAfter([], rest) == rest
  {
    if rest.Ok? {
      assert [] + rest.value == rest.value;
    }
  }

  // The rest of the buffer stays as it was allocated.
  lemma ReadsZeros(name: bytes, files: seq<TorrentFile>, disk: Disk, k: nat, at: nat, buf: bytes, pos: nat)
    requires k <= |files| && pos <= |buf| && (k == |files| || pos == |buf|)
    requires buf[pos..] == seq(|buf| - pos, _ => 0)
    ensures ReadAfter(buf[..pos], ReadThrough(name, files[k..], disk, at, |buf| - pos)) == Ok(buf)
  {
    assert buf[..pos] + buf[pos..] == buf;
  }

  // Filling in a chunk of a zeroed buffer.
  lemma Refill(buf: bytes, pos: nat, chunk: bytes)
    requires pos + |chunk| <= |buf| && buf[pos..] == seq(|buf| - pos, _ => 0)
    ensures var after := buf[..pos] + chunk + buf[pos + |chunk|..];
            && |after| == |buf| && after[..pos + |chunk|] == buf[..pos] + chunk
            && after[pos + |chunk|..] == seq(|buf| - pos - |chunk|, _ => 0)
  {
    assert buf[pos + |chunk|..] == buf[pos..][|chunk|..];
  }

  // `read_piece_from_disk`, several files, on any disk.
  method ReadFiles(name: bytes, files: seq<TorrentFile>, disk: Disk, offset: nat, len: nat)
    returns (r: Result<bytes, IoError>)
    ensures r == ReadThrough(name, files, disk, offset, len)
  {
    hide ReadThrough, ReadAfter;
    var buf: bytes := seq(len, _ => 0);
    var bufPos: nat, remainingOffset: nat := 0, offset;
    assert files[0..] == files && buf[..0] == [] && buf[0..] == buf;
    ReadAfterNothing(ReadThrough(name, files, disk, offset, len));
    for k := 0 to |files|
      invariant bufPos <= len && |buf| == len
      invariant buf[bufPos..] == seq(len - bufPos, _ => 0)
      invariant ReadThrough(name, files, disk, offset, len)
             == ReadAfter(buf[..bufPos], ReadThrough(name, files[k..], disk, remainingOffset, len - bufPos))
    {
      ReadOn(name, files, disk, k, remainingOffset, len - bufPos);
      if remainingOffset >= files[k].length {
        remainingOffset := remainingOffset - files[k].length;
        NothingToRead(name, files[k + 1..], disk, remainingOffset);
        continue;
      }
      var path := [name] + files[k].path;
      var toRead := Min(len - bufPos, files[k].length - remainingOffset);
      if files[k].path == [] && toRead > 0 {
        ReadFails(buf[..bufPos], IsADirectory);
        return Err(IsADirectory);
      }
      if path !in disk {
        continue;
      }
      if toRead > 0 && remainingOffset + toRead > |disk[path]| {
        ReadFails(buf[..bufPos], UnexpectedEof);
        return Err(UnexpectedEof);
      }
      var chunk := if toRead > 0 then disk[path][remainingOffset..remainingOffset + toRead] else [];
      ReadAfterTwice(buf[..bufPos], chunk, ReadThrough(name, files[k + 1..], disk, 0, len - bufPos - toRead));
      if toRead == 0 {
        NothingToRead(name, files[k + 1..], disk, 0);
        ReadAfterNothing(Ok([]));
      }
      Refill(buf, bufPos, chunk);
      buf := buf[..bufPos] + chunk + buf[bufPos + toRead..];
      bufPos := bufPos + toRead;
      remainingOffset := 0;
      if bufPos >= len {
        ReadsZeros(name, files, disk, k + 1, remainingOffset, buf, bufPos);
        return Ok(buf);
      }
    }
    ReadsZeros(name, files, disk, |files|, remainingOffset, buf, bufPos);
    return Ok(buf);
  }

  lemma NothingToRead(name: bytes, files: seq<TorrentFile>, disk: Disk, at: nat)
    ensures ReadThrough(name, files, disk, at, 0) == Ok([])
  {
  }

  lemma ReadFails(done: bytes, e: IoError)
    ensures ReadAfter(done, Err(e)) == Err(e)
  {
  }

  // With every file in place it is one slice of their concatenation; what lies beyond its end stays zero.
  lemma ReadThroughIsSlice(name: bytes, files: seq<TorrentFile>, disk: Disk, offset: nat, len: nat)
    requires Ready(FileExtents(name, files), disk) && ProperPaths(files)
    ensures ReadThrough(name, files, disk, offset, len) == Ok(Window(Flat(FileExtents(name, files), disk), offset, len))
  {
    hide ReadThrough, Flat, Window, DistinctPaths, OnDisk, FileExtents;
    FileExtentsAre(name, files);
    assert files[0..] == files;
    TotalOfNone(FileExtents(name, files));
    ReadRounds(name, files, disk, 0, offset, len);
  }

  // The same from the k-th file on.
  lemma {:induction false} ReadRounds(name: bytes, files: seq<TorrentFile>, disk: Disk, k: nat, pos: nat, len: nat)
    requires var es := FileExtents(name, files);
             Ready(es, disk) && ProperPaths(files) && |es| == |files| && k <= |files|
    ensures var es := FileExtents(name, files);
            ReadThrough(name, files[k..], disk, pos, len) == Ok(Window(Flat(es, disk), Total(es[..k]) + pos, len))
    decreases |files| - k
  {
    hide ReadThrough, Flat, Window, DistinctPaths, OnDisk, Total, FileExtents;
    var es := FileExtents(name, files);
    FileExtentsAre(name, files);
    if k == |files| {
      TotalAll(es);
      WindowBeyond(Flat(es, disk), Total(es[..k]) + pos, len);
      ReadsPastEnd(name, files, disk, pos, len);
    } else {
      TotalSplit(es, k);
      ReadOn(name, files, disk, k, pos, len);
      if len == 0 {
        assert Window(Flat(es, disk), Total(es[..k]) + pos, len) == [];
      } else if pos >= files[k].length {
        ReadRounds(name, files, disk, k + 1, pos - files[k].length, len);
      } else {
        var w := Min(len, files[k].length - pos);
        ReadRound(es, disk, k, pos, w, len);
        ReadRounds(name, files, disk, k + 1, 0, len - w);
        assert es[k].path == [name] + files[k].path;
        if w < len {
          assert Total(es[..k + 1]) == Total(es[..k]) + pos + w;
        } else {
          var f := Flat(es, disk);
          assert Window(f, Total(es[..k]) + pos + w, 0) == [] == Window(f, Total(es[..k + 1]), 0);
        }
      }
    }
  }

  lemma ReadsPastEnd(name: bytes, files: seq<TorrentFile>, disk: Disk, at: nat, len: nat)
    ensures ReadThrough(name, files[|files|..], disk, at, len) == Ok(seq(len, _ => 0))
  {
  }

  // --- both modes ---

  // `write_block` on any disk.
  function BlockWritten(info: InfoDict, disk: Disk, at: nat, data: bytes): (Result<(), IoError>, Disk) {
    match info.mode
    case Single(length) =>
      var path := [info.name];
      if path !in disk then (Err(NotFound), disk)
      else (Ok(()), disk[path := FileWrite(disk[path], at, data[..Min(|data|, SaturatingSub(length, at))])])
    case Multi(files) => WriteThrough(info.name, files, disk, at, data)
  }

  // `read_piece_from_disk` on any disk.
  function BytesRead(info: InfoDict, disk: Disk, at: nat, len: nat): Result<bytes, IoError> {
    match info.mode
    case Single(length) =>
      var path := [info.name];
      if path !in disk then Err(NotFound)
      else if len == 0 then Ok([])
      else if at + len > |disk[path]| then Err(UnexpectedEof)
      else Ok(disk[path][at..at + len])
    case Multi(files) => ReadThrough(info.name, files, disk, at, len)
  }

  // A single file, whatever its length is on the disk: what is written is clipped at the declared length, and nothing
  // is read past the actual one. A missing file is an error.
  lemma OneFile(info: InfoDict, length: nat, disk: Disk, at: nat, data: bytes, len: nat)
    requires info.mode == Single(length)
    ensures [info.name] !in disk ==>
              && BlockWritten(info, disk, at, data) == (Err(NotFound), disk)
              && BytesRead(info, disk, at, len) == Err(NotFound)
    ensures [info.name] in disk ==>
              var path, n := [info.name], Min(|data|, SaturatingSub(length, at));
              var (r, disk'), content := BlockWritten(info, disk, at, data), disk[path];
              && r == Ok(()) && path in disk' && disk' == disk[path := disk'[path]]
              && |disk'[path]| == (if n > 0 && at + n > |content| then at + n else |content|)
              && (forall x :: 0 <= x < |disk'[path]| ==>
                    disk'[path][x]
                    == if at <= x < at + n then data[x - at] else if x < |content| then content[x] else 0)
              && BytesRead(info, disk, at, len)
                 == if len > 0 && at + len > |content| then Err(UnexpectedEof)
                    else Ok(if len > 0 then content[at..at + len] else [])
  {
    hide FileWrite;
    if [info.name] in disk {
      var content, piece := disk[[info.name]], data[..Min(|data|, SaturatingSub(length, at))];
      FileWriteAt(content, at, piece, 0);
      forall x | 0 <= x < |FileWrite(content, at, piece)|
        ensures FileWrite(content, at, piece)[x]
                == if at <= x < at + |piece| then piece[x - at] else if x < |content| then content[x] else 0
      {
        FileWriteAt(content, at, piece, x);
      }
    }
  }

  // Distinct paths, none of them empty.
  predicate GoodPaths(info: InfoDict) {
    DistinctPaths(Extents(info)) && (info.mode.Multi? ==> ProperPaths(info.mode.files))
  }

  // With every file in place a write is one splice of the torrent's bytes, clipped at their end.
  lemma BlockWrittenIsSplice(info: InfoDict, disk: Disk, at: nat, data: bytes)
    requires GoodPaths(info) && OnDisk(Extents(info), disk)
    ensures var (r, disk') := BlockWritten(info, disk, at, data);
            && r.Ok? && OnDisk(Extents(info), disk')
            && Flat(Extents(info), disk') == Splice(Flat(Extents(info), disk), at, data)
  {
    hide FileWrite, Splice;
    match info.mode
    case Single(length) =>
      var path := [info.name];
      assert Extents(info)[0] == Extent(path, length);
      SingleWrite(disk[path], at, data);
      SpliceLength(disk[path], at, data);
      SingleContent(disk, path, length);
      SingleContent(BlockWritten(info, disk, at, data).1, path, length);
    case Multi(files) =>
      WriteThroughIsSplice(info.name, files, disk, at, data);
  }

  lemma SpliceLength(f: bytes, at: nat, data: bytes)
    ensures |Splice(f, at, data)| == |f|
  {
  }

  // Whatever is missing, a write touches no file outside the torrent.
  lemma BlockWrittenElsewhere(info: InfoDict, disk: Disk, at: nat, data: bytes, path: Path)
    requires Elsewhere(Extents(info), path)
    ensures SameFile(BlockWritten(info, disk, at, data).1, disk, path)
  {
    hide FileWrite;
    match info.mode
    case Single(length) => assert Extents(info)[0].path == [info.name];
    case Multi(files) => WriteThroughElsewhere(info.name, files, disk, at, data, path);
  }

  // With every file in place a read is one slice of the torrent's bytes. Beyond their end a single file is refused,
  // while several files leave the buffer's zeros.
  lemma BytesReadIsSlice(info: InfoDict, disk: Disk, at: nat, len: nat)
    requires GoodPaths(info) && OnDisk(Extents(info), disk)
    ensures var f := Flat(Extents(info), disk);
            BytesRead(info, disk, at, len) ==
              if info.mode.Single? && at + len > |f| && len > 0 then Err(UnexpectedEof) else Ok(Window(f, at, len))
  {
    match info.mode
    case Single(length) =>
      var path := [info.name];
      assert Extents(info)[0] == Extent(path, length);
      SingleContent(disk, path, length);
    case Multi(files) =>
      ReadThroughIsSlice(info.name, files, disk, at, len);
  }

  // What was written is read back, and other reads are not affected.
  lemma WrittenIsRead(info: InfoDict, disk: Disk, at: nat, data: bytes, lo: nat, len: nat)
    requires GoodPaths(info) && OnDisk(Extents(info), disk) && at + |data| <= Total(Extents(info))
    ensures var disk' := BlockWritten(info, disk, at, data).1;
            && BytesRead(info, disk', at, |data|) == Ok(data)
            && (lo + len <= at || at + |data| <= lo ==>
                  BytesRead(info, disk', lo, len) == BytesRead(info, disk, lo, len))
  {
    hide BlockWritten, BytesRead, OnDisk, Flat, Total, Splice, Window, Extents, DistinctPaths;
    var disk' := BlockWritten(info, disk, at, data).1;
    var es := Extents(info);
    var f := Flat(es, disk);
    BlockWrittenIsSplice(info, disk, at, data);
    BytesReadIsSlice(info, disk', at, |data|);
    BytesReadIsSlice(info, disk', lo, len);
    BytesReadIsSlice(info, disk, lo, len);
    SpliceLength(f, at, data);
    SpliceInside(f, at, data, at, at + |data|);
    assert f[at..at] + data + f[at + |data|..at + |data|] == data;
    if lo + len <= at || at + |data| <= lo {
      WindowBeside(f, at, data, lo, len);
    }
  }

  lemma WindowBeside(f: bytes, at: nat, data: bytes, lo: nat, len: nat)
    requires at + |data| <= |f| && (lo + len <= at || at + |data| <= lo)
    ensures Window(Splice(f, at, data), lo, len) == Window(f, lo, len)
  {
    hide Splice;
    SpliceLength(f, at, data);
    var n := Min(len, SaturatingSub(|f|, lo));
    if n > 0 {
      SpliceBeside(f, at, data, lo, lo + n);
    }
  }

  lemma WriteOne(name: bytes, file: TorrentFile, disk: Disk, at: nat, data: bytes)
    requires file.path != []
    ensures var path := [name] + file.path;
            WriteThrough(name, [file], disk, at, data) ==
              (Ok(()), if path in disk && at < file.length
                       then disk[path := FileWrite(disk[path], at, data[..Min(|data|, file.length - at)])] else disk)
  {
    hide FileWrite;
    assert [file][1..] == [];
  }

  lemma ReadOne(name: bytes, file: TorrentFile, disk: Disk, at: nat, len: nat)
    requires file.path != []
    ensures var path := [name] + file.path;
            ReadThrough(name, [file], disk, at, len) ==
              if len == 0 || at >= file.length || path !in disk then Ok(seq(len, _ => 0))
              else
                var w := Min(len, file.length - at);
                if at + w > |disk[path]| then Err(UnexpectedEof)
                else Ok(disk[path][at..at + w] + seq(len - w, _ => 0))
  {
    assert [file][1..] == [];
  }

  // The two layouts of one file, equal in content. Writes agree if and only if the file is there; reads agree, for a
  // file of its length, if and only if they do not pass its end.
  lemma OneFileLayoutsAgree(single: InfoDict, multi: InfoDict, length: nat, path: Path, a: Disk, b: Disk,
                            at: nat, data: bytes, len: nat)
    requires single.mode == Single(length) && multi.mode == Multi([TorrentFile(length, path)]) && path != []
    requires var p, q := [single.name], [multi.name] + path; (p in a <==> q in b) && (p in a ==> a[p] == b[q])
    ensures var p, q := [single.name], [multi.name] + path;
            var (r, a'), (t, b') := BlockWritten(single, a, at, data), BlockWritten(multi, b, at, data);
            && (r == t <==> p in a)
            && (p in a ==> p in a' && q in b' && a'[p] == b'[q])
            && (p in a && |a[p]| == length ==>
                  (BytesRead(single, a, at, len) == BytesRead(multi, b, at, len) <==> at + len <= length || len == 0))
  {
    hide WriteThrough, ReadThrough;
    var p, file := [single.name], TorrentFile(length, path);
    WriteOne(multi.name, file, b, at, data);
    ReadOne(multi.name, file, b, at, len);
    if p in a && at >= length {
      assert data[..0] == [];
    }
    if p in a && |a[p]| == length && at + len <= length {
      assert a[p][at..at + len] + [] == a[p][at..at + len];
    }
  }

  // --- single files ---

  lemma SingleContent(disk: Disk, path: Path, length: nat)
    requires OnDisk([Extent(path, length)], disk)
    ensures path in disk && Flat([Extent(path, length)], disk) == disk[path]
  {
    var es := [Extent(path, length)];
    assert es[0].path in disk;
    assert es[1..] == [];
    assert Flat(es[1..], disk) == [];
    assert disk[path] + [] == disk[path];
  }

  // Clipping the data to the file's length first makes the write a splice.
  lemma SingleWrite(content: bytes, at: nat, data: bytes)
    ensures FileWrite(content, at, data[..Min(|data|, SaturatingSub(|content|, at))]) == Splice(content, at, data)
  {
    var n := Min(|data|, SaturatingSub(|content|, at));
    if n > 0 {
      FileWriteInside(content, at, data[..n]);
    } else {
      assert data[..n] == [];
      if at < |content| {
        assert data == [];
        SpliceNothing(content, at);
      }
    }
  }
}
