// The torrent's byte space laid over its files.
module Storage {
  import opened Prelude
  import opened Metainfo

  type Path = seq<bytes>
  type Disk = map<Path, bytes>

  // The torrent's size, as the engine computes it.
  function TotalSize(mode: FileMode): nat {
    match mode
    case Single(length) => length
    case Multi(files) => FileLengths(files)
  }

  function FileLengths(files: seq<TorrentFile>): nat {
    if files == [] then 0 else files[0].length + FileLengths(files[1..])
  }

  // One file of the torrent: where it lives below the download directory, and its declared length.
  datatype Extent = Extent(path: Path, length: nat)

  function FileExtents(name: bytes, files: seq<TorrentFile>): seq<Extent> {
    if files == [] then []
    else [Extent([name] + files[0].path, files[0].length)] + FileExtents(name, files[1..])
  }

  function Extents(info: InfoDict): seq<Extent> {
    match info.mode
    case Single(length) => [Extent([info.name], length)]
    case Multi(files) => FileExtents(info.name, files)
  }

  function Total(es: seq<Extent>): nat {
    if es == [] then 0 else es[0].length + Total(es[1..])
  }

  lemma {:induction false} FileExtentsAre(name: bytes, files: seq<TorrentFile>)
    ensures var es := FileExtents(name, files);
            && |es| == |files|
            && Total(es) == FileLengths(files)
            && forall k :: 0 <= k < |files| ==> es[k] == Extent([name] + files[k].path, files[k].length)
  {
    if files != [] {
      FileExtentsAre(name, files[1..]);
    }
  }

  lemma ExtentsTotal(info: InfoDict)
    ensures Total(Extents(info)) == TotalSize(info.mode)
  {
    match info.mode
    case Single(_) =>
    case Multi(files) => FileExtentsAre(info.name, files);
  }

  // Paths are compared part by part. So for this to mean distinct files, the parts have to be plain names: not empty,
  // not `.` or `..`, without separators.
  predicate DistinctPaths(es: seq<Extent>) {
    forall i, j :: 0 <= i < j < |es| ==> es[i].path != es[j].path
  }

  // Every file exists at its declared length, as `initialize_files` sets them up.
  predicate OnDisk(es: seq<Extent>, disk: Disk) {
    forall i :: 0 <= i < |es| ==> es[i].path in disk && |disk[es[i].path]| == es[i].length
  }

  // The concatenation of the files.
  function Flat(es: seq<Extent>, disk: Disk): (r: bytes)
    requires OnDisk(es, disk)
    ensures |r| == Total(es)
  {
    if es == [] then []
    else
      assert es[0].path in disk && |disk[es[0].path]| == es[0].length;
      disk[es[0].path] + Flat(es[1..], disk)
  }

  // write_all at a seek position: the gap before it is zero-filled, nothing happens for no data.
  function FileWrite(content: bytes, pos: nat, data: bytes): bytes {
    if data == [] then content
    else if pos > |content| then content + seq(pos - |content|, _ => 0) + data
    else content[..pos] + data + (if pos + |data| < |content| then content[pos + |data|..] else [])
  }

  // set_len: truncate or zero-extend.
  function Resize(content: bytes, length: nat): bytes {
    if length <= |content| then content[..length] else content + seq(length - |content|, _ => 0)
  }

  // Byte by byte. Nothing to write changes nothing, not even the length.
  lemma FileWriteAt(content: bytes, pos: nat, data: bytes, x: nat)
    ensures data == [] ==> FileWrite(content, pos, data) == content
    ensures data != [] ==>
              |FileWrite(content, pos, data)| == if pos + |data| > |content| then pos + |data| else |content|
    ensures x < |FileWrite(content, pos, data)| ==>
              FileWrite(content, pos, data)[x]
              == if pos <= x < pos + |data| then data[x - pos] else if x < |content| then content[x] else 0
  {
  }

  lemma OnDiskParts(es: seq<Extent>, disk: Disk, k: nat)
    requires OnDisk(es, disk) && k < |es|
    ensures OnDisk(es[..k], disk) && OnDisk(es[k..], disk) && OnDisk(es[k + 1..], disk)
    ensures es[k].path in disk && |disk[es[k].path]| == es[k].length
  {
  }

  lemma {:induction false} FlatConcat(a: seq<Extent>, b: seq<Extent>, disk: Disk)
    requires OnDisk(a, disk) && OnDisk(b, disk) && OnDisk(a + b, disk)
    ensures Flat(a + b, disk) == Flat(a, disk) + Flat(b, disk)
  {
    if a == [] {
      assert a + b == b;
    } else {
      assert (a + b)[1..] == a[1..] + b;
      FlatConcat(a[1..], b, disk);
      assert disk[a[0].path] + (Flat(a[1..], disk) + Flat(b, disk))
          == disk[a[0].path] + Flat(a[1..], disk) + Flat(b, disk);
    }
  }

  lemma {:induction false} TotalConcat(a: seq<Extent>, b: seq<Extent>)
    ensures Total(a + b) == Total(a) + Total(b)
  {
    if a == [] {
      assert a + b == b;
    } else {
      assert (a + b)[1..] == a[1..] + b;
      TotalConcat(a[1..], b);
    }
  }

  lemma TotalSplit(es: seq<Extent>, k: nat)
    requires k < |es|
    ensures Total(es[..k + 1]) == Total(es[..k]) + es[k].length
    ensures Total(es) == Total(es[..k + 1]) + Total(es[k + 1..])
  {
    TotalConcat(es[..k], [es[k]]);
    assert es[..k] + [es[k]] == es[..k + 1];
    TotalConcat(es[..k + 1], es[k + 1..]);
    assert es[..k + 1] + es[k + 1..] == es;
  }

  lemma TotalAll(es: seq<Extent>)
    ensures Total(es[..|es|]) == Total(es)
  {
    assert es[..|es|] == es;
  }

  lemma TotalOfNone(es: seq<Extent>)
    ensures Total(es[..0]) == 0
  {
  }

  // The concatenation around the k-th file.
  lemma FlatSplit(es: seq<Extent>, disk: Disk, k: nat)
    requires OnDisk(es, disk) && k < |es|
    ensures OnDisk(es[..k], disk) && OnDisk(es[k + 1..], disk) && es[k].path in disk
    ensures Flat(es, disk) == Flat(es[..k], disk) + (disk[es[k].path] + Flat(es[k + 1..], disk))
  {
    OnDiskParts(es, disk, k);
    assert es[..k] + es[k..] == es;
    FlatConcat(es[..k], es[k..], disk);
    assert es[k..][1..] == es[k + 1..];
  }

  lemma Middle(a: bytes, m: bytes, z: bytes)
    ensures var f := a + (m + z);
            f[..|a|] == a && f[|a|..|a| + |m|] == m && f[|a| + |m|..] == z
  {
  }

  // The k-th file is the k-th stretch of the concatenation.
  lemma FlatAt(es: seq<Extent>, disk: Disk, k: nat)
    requires OnDisk(es, disk) && k < |es|
    ensures es[k].path in disk && |disk[es[k].path]| == es[k].length
    ensures Total(es[..k]) + es[k].length <= Total(es)
    ensures Flat(es, disk)[Total(es[..k])..Total(es[..k]) + es[k].length] == disk[es[k].path]
  {
    hide Flat, Total;
    TotalSplit(es, k);
    FlatSplit(es, disk, k);
    OnDiskParts(es, disk, k);
    Middle(Flat(es[..k], disk), disk[es[k].path], Flat(es[k + 1..], disk));
  }

  // A file outside the list does not matter.
  lemma {:induction false} FlatFrame(es: seq<Extent>, disk: Disk, path: Path, content: bytes)
    requires OnDisk(es, disk) && forall i :: 0 <= i < |es| ==> es[i].path != path
    ensures OnDisk(es, disk[path := content]) && Flat(es, disk[path := content]) == Flat(es, disk)
  {
    if es != [] {
      FlatFrame(es[1..], disk, path, content);
    }
  }

  lemma DistinctFromOthers(es: seq<Extent>, k: nat)
    requires DistinctPaths(es) && k < |es|
    ensures forall i :: 0 <= i < |es| && i != k ==> es[i].path != es[k].path
  {
    forall i | 0 <= i < |es| && i != k ensures es[i].path != es[k].path {
      if i < k {
        assert es[i].path != es[k].path;
      } else {
        assert es[k].path != es[i].path;
      }
    }
  }

  // Replacing the k-th file by one of the same length replaces the k-th stretch.
  lemma FlatReplace(es: seq<Extent>, disk: Disk, k: nat, content: bytes)
    requires OnDisk(es, disk) && DistinctPaths(es) && k < |es| && |content| == es[k].length
    ensures OnDisk(es, disk[es[k].path := content])
    ensures Total(es[..k]) + es[k].length <= Total(es)
    ensures var f, lo := Flat(es, disk), Total(es[..k]);
            Flat(es, disk[es[k].path := content]) == f[..lo] + content + f[lo + es[k].length..]
  {
    hide Flat, Total;
    TotalSplit(es, k);
    DistinctFromOthers(es, k);
    OnDiskParts(es, disk, k);
    FlatFrame(es[..k], disk, es[k].path, content);
    FlatFrame(es[k + 1..], disk, es[k].path, content);
    FlatSplit(es, disk, k);
    FlatSplit(es, disk[es[k].path := content], k);
    Middle(Flat(es[..k], disk), disk[es[k].path], Flat(es[k + 1..], disk));
  }

  // --- splices built up file by file ---

  lemma FileWriteInside(content: bytes, pos: nat, data: bytes)
    requires pos + |data| <= |content|
    ensures FileWrite(content, pos, data) == content[..pos] + data + content[pos + |data|..]
  {
    if data == [] {
      assert content[..pos] + [] + content[pos..] == content;
    }
  }

  // Writing inside the k-th file is a splice of the concatenation.
  lemma FlatWrite(es: seq<Extent>, disk: Disk, k: nat, pos: nat, data: bytes)
    requires OnDisk(es, disk) && DistinctPaths(es) && k < |es| && pos + |data| <= es[k].length
    ensures var disk' := disk[es[k].path := FileWrite(disk[es[k].path], pos, data)];
            OnDisk(es, disk') && Flat(es, disk') == Splice(Flat(es, disk), Total(es[..k]) + pos, data)
  {
    hide Flat, Total, FileWrite, Splice, DistinctPaths;
    OnDiskParts(es, disk, k);
    var f, lo, before := Flat(es, disk), Total(es[..k]), disk[es[k].path];
    FlatAt(es, disk, k);
    FileWriteInside(before, pos, data);
    var content := FileWrite(before, pos, data);
    FlatReplace(es, disk, k, content);
    SliceOfSlice(f, lo, lo + es[k].length, 0, pos);
    SliceOfSlice(f, lo, lo + es[k].length, pos + |data|, es[k].length);
    SpliceParts(f, lo, pos, data, es[k].length);
  }

  lemma Regroup(a: bytes, b: bytes, d: bytes, y: bytes, z: bytes)
    ensures a + b + d + (y + z) == a + (b + d + y) + z
  {
  }

  lemma SpliceParts(f: bytes, lo: nat, pos: nat, data: bytes, len: nat)
    requires pos + |data| <= len && lo + len <= |f|
    ensures Splice(f, lo + pos, data)
         == f[..lo] + (f[lo..lo + pos] + data + f[lo + pos + |data|..lo + len]) + f[lo + len..]
  {
    hide Splice;
    var at := lo + pos;
    SpliceExact(f, at, data);
    assert f[..lo] + f[lo..at] == f[..at];
    assert f[at + |data|..lo + len] + f[lo + len..] == f[at + |data|..];
    Regroup(f[..lo], f[lo..at], data, f[at + |data|..lo + len], f[lo + len..]);
  }

  // Two adjacent splices are one.
  lemma SpliceTwice(f: bytes, at: nat, a: bytes, b: bytes)
    requires at + |a| + |b| <= |f|
    ensures Splice(Splice(f, at, a), at + |a|, b) == Splice(f, at, a + b)
  {
    SpliceExact(f, at, a);
    SpliceExact(f, at, a + b);
    var g := Splice(f, at, a);
    SpliceExact(g, at + |a|, b);
    assert g[..at + |a|] == f[..at] + a;
    assert g[at + |a| + |b|..] == f[at + |a| + |b|..];
  }

  lemma SpliceExact(f: bytes, at: nat, data: bytes)
    requires at + |data| <= |f|
    ensures Splice(f, at, data) == f[..at] + data + f[at + |data|..]
  {
    if at < |f| {
      assert data[..|data|] == data;
    }
  }

  lemma SpliceClipped(f: bytes, at: nat, data: bytes, n: nat)
    requires n <= |data| && at + n == |f|
    ensures Splice(f, at, data[..n]) == Splice(f, at, data)
  {
  }

  lemma SpliceNothing(f: bytes, at: nat)
    ensures Splice(f, at, []) == f
  {
  }

  // --- one round of the file loops ---

  predicate Ready(es: seq<Extent>, disk: Disk) { DistinctPaths(es) && OnDisk(es, disk) }

  // `write_block`: the k-th file takes the next `w` bytes.
  lemma WriteRound(es: seq<Extent>, disk: Disk, f: bytes, at: nat, data: bytes, done: nat, k: nat, pos: nat, w: nat)
    requires Ready(es, disk) && k < |es| && |f| == Total(es)
    requires done + w <= |data| && pos + w <= es[k].length && Total(es[..k]) + pos == at + done
    requires Flat(es, disk) == Splice(f, at, data[..done])
    ensures var disk' := disk[es[k].path := FileWrite(disk[es[k].path], pos, data[done..done + w])];
            Ready(es, disk') && Flat(es, disk') == Splice(f, at, data[..done + w])
  {
    hide Flat, Total, FileWrite, Splice;
    FlatAt(es, disk, k);
    FlatWrite(es, disk, k, pos, data[done..done + w]);
    SpliceTwice(f, at, data[..done], data[done..done + w]);
    assert data[..done] + data[done..done + w] == data[..done + w];
  }

  // After the last file, or once the data is used up, the splice is complete.
  lemma WriteEnd(f: bytes, at: nat, data: bytes, done: nat, remaining: nat)
    requires done <= |data| && (done > 0 ==> remaining == 0)
    requires done < |data| ==> |f| + remaining == at + done
    ensures Splice(f, at, data[..done]) == Splice(f, at, data)
  {
    if done == |data| {
      assert data[..done] == data;
    } else if done > 0 {
      SpliceClipped(f, at, data, done);
    } else {
      SpliceNothing(f, at);
      assert data[..done] == [];
    }
  }

  // `len` bytes of `f` from `at` on, zeros beyond its end.
  function Window(f: bytes, at: nat, len: nat): (r: bytes)
    ensures |r| == len
    ensures at + len <= |f| ==> r == f[at..at + len]
  {
    var n := Min(len, SaturatingSub(|f|, at));
    (if n > 0 then f[at..at + n] else []) + seq(len - n, _ => 0)
  }

  lemma WindowAt(f: bytes, at: nat, len: nat, x: nat)
    requires x < len
    ensures Window(f, at, len)[x] == if at + x < |f| then f[at + x] else 0
  {
  }

  // `read_piece_from_disk`: the k-th file yields the next `w` bytes.
  lemma ReadRound(es: seq<Extent>, disk: Disk, k: nat, pos: nat, w: nat, len: nat)
    requires OnDisk(es, disk) && k < |es| && w <= len && pos + w <= es[k].length
    ensures var f, at := Flat(es, disk), Total(es[..k]) + pos;
            && at + w <= |f| && es[k].path in disk && |disk[es[k].path]| == es[k].length
            && disk[es[k].path][pos..pos + w] + Window(f, at + w, len - w) == Window(f, at, len)
  {
    hide Flat, Total;
    FlatAt(es, disk, k);
    var f, lo := Flat(es, disk), Total(es[..k]);
    SliceOfSlice(f, lo, lo + es[k].length, pos, pos + w);
    WindowSplit(f, lo + pos, w, len);
  }

  lemma WindowSplit(f: bytes, at: nat, w: nat, len: nat)
    requires w <= len && at + w <= |f|
    ensures f[at..at + w] + Window(f, at + w, len - w) == Window(f, at, len)
  {
    var n := Min(len, |f| - at);
    assert f[at..at + w] + f[at + w..at + n] == f[at..at + n];
  }

  lemma WindowBeyond(f: bytes, at: nat, len: nat)
    requires |f| <= at
    ensures Window(f, at, len) == seq(len, _ => 0)
  {
  }
}
