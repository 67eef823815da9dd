// What the scheduler keeps when the blocks it receives are true.
module SwarmTruth {
  import opened Prelude
  import opened Geometry
  import opened Swarm
  import opened SwarmProofs

  // `truth` is the content the hashes were made from.
  predicate Truth(g: Geometry, H: bytes -> Digest, truth: bytes) {
    && WellFormed(g) && |truth| == g.total
    && forall i :: 0 <= i < |g.hashes| ==> H(PieceAt(g, truth, i)) == g.hashes[i]
  }

  // A block carries the true bytes of the place it names.
  predicate TrueBlock(g: Geometry, truth: bytes, index: nat, begin: nat, block: bytes) {
    var at := PieceStart(g, index) + begin;
    at + |block| <= |truth| && block == truth[at..at + |block|]
  }

  // Piece messages carry true blocks.
  predicate Honest(g: Geometry, truth: bytes, a: Action) {
    a.Write? ==> TrueBlock(g, truth, a.index, a.begin, a.block)
  }

  predicate HonestRun(g: Geometry, truth: bytes, run: seq<Action>) {
    forall k :: 0 <= k < |run| ==> Honest(g, truth, run[k])
  }

  // The first `n` bytes of piece `i` are true.
  predicate TruePrefix(g: Geometry, truth: bytes, disk: bytes, i: nat, n: nat)
    requires WellFormed(g) && |truth| == |disk| == g.total && i < |g.hashes| && n <= PieceSize(g, i)
  {
    PieceAt(g, disk, i)[..n] == PieceAt(g, truth, i)[..n]
  }

  // How many bytes of its piece a guard relies on.
  function ReliedOn(g: Geometry, ph: Phase): nat
    requires WellFormed(g) && PhaseOk(g, ph)
  {
    match ph
    case Waiting(guard) => if guard.complete then 0 else guard.offset
    case Written(guard, len) => if guard.complete then 0 else Min(guard.offset + len, PieceSize(g, guard.piece))
    case Finished(guard, held) => if held then PieceSize(g, guard.piece) else 0
    case _ => 0
  }

  predicate GuardTrue(g: Geometry, truth: bytes, disk: bytes, ph: Phase)
    requires WellFormed(g) && |truth| == |disk| == g.total && PhaseOk(g, ph)
  {
    Incomplete(ph) || (ph.Finished? && ph.held) ==> TruePrefix(g, truth, disk, ph.guard.piece, ReliedOn(g, ph))
  }

  // Marked pieces are good, and guards hold a true prefix of their piece.
  predicate Sound(g: Geometry, truth: bytes, good: (nat, bytes) -> bool, s: State)
    requires WellFormed(g) && |truth| == g.total && Shape(g, s)
  {
    && (forall i :: 0 <= i < |g.hashes| && s.have[i] ==> good(i, PieceAt(g, s.disk, i)))
    && (forall p :: 0 <= p < |s.peers| ==> GuardTrue(g, truth, s.disk, s.peers[p]))
  }

  // What counts as good: at least the true piece.
  predicate Criterion(g: Geometry, truth: bytes, good: (nat, bytes) -> bool)
    requires WellFormed(g) && |truth| == g.total
  {
    forall i :: 0 <= i < |g.hashes| ==> good(i, PieceAt(g, truth, i))
  }

  // The pieces of this disk that have the right hash are good.
  predicate ResumesGood(g: Geometry, H: bytes -> Digest, good: (nat, bytes) -> bool, disk: bytes)
    requires WellFormed(g) && |disk| == g.total
  {
    forall i :: 0 <= i < |g.hashes| && H(PieceAt(g, disk, i)) == g.hashes[i] ==> good(i, PieceAt(g, disk, i))
  }

  function IsTrue(g: Geometry, truth: bytes): (nat, bytes) -> bool
    requires WellFormed(g) && |truth| == g.total
  {
    (i: nat, x: bytes) => i < |g.hashes| && x == PieceAt(g, truth, i)
  }

  // No piece of this disk has the right hash and the wrong content.
  predicate NoFalseMatch(g: Geometry, H: bytes -> Digest, truth: bytes, disk: bytes)
    requires WellFormed(g) && |truth| == |disk| == g.total
  {
    ResumesGood(g, H, IsTrue(g, truth), disk)
  }

  // Every restart of the run is from such a disk.
  predicate RestartsGood(g: Geometry, H: bytes -> Digest, good: (nat, bytes) -> bool, s: State, run: seq<Action>)
    requires WellFormed(g) && EnabledRun(g, H, s, run)
    decreases |run|
  {
    run == [] ||
    ((run[0].Restart? ==> ResumesGood(g, H, good, s.disk)) && RestartsGood(g, H, good, Next(g, H, s, run[0]), run[1..]))
  }

  // --- one write ---

  // Writing inside piece `p` leaves the other pieces alone ...
  lemma WriteBesidePiece(g: Geometry, disk: bytes, p: nat, offset: nat, block: bytes, q: nat)
    requires WellFormed(g) && |disk| == g.total && p < |g.hashes| && q < |g.hashes| && q != p
    requires offset + |block| <= PieceSize(g, p)
    ensures PieceAt(g, Splice(disk, PieceStart(g, p) + offset, block), q) == PieceAt(g, disk, q)
  {
    hide PieceStart, WellFormed, Splice;
    PieceBounds(g, p);
    PieceBounds(g, q);
    if p < q {
      PiecesDisjoint(g, p, q);
    } else {
      PiecesDisjoint(g, q, p);
    }
    SpliceBeside(disk, PieceStart(g, p) + offset, block, PieceStart(g, q), PieceStart(g, q) + PieceSize(g, q));
  }

  // ... and puts the block after the bytes of `p` before it.
  lemma WriteInPiece(g: Geometry, disk: bytes, p: nat, offset: nat, block: bytes)
    requires WellFormed(g) && |disk| == g.total && p < |g.hashes|
    requires offset + |block| <= PieceSize(g, p)
    ensures PieceAt(g, Splice(disk, PieceStart(g, p) + offset, block), p)[..offset + |block|]
         == PieceAt(g, disk, p)[..offset] + block
  {
    hide PieceStart, WellFormed, Splice;
    PieceBounds(g, p);
    var s, at, end := PieceStart(g, p), PieceStart(g, p) + offset, PieceStart(g, p) + PieceSize(g, p);
    SpliceInside(disk, at, block, s, end);
    var head := disk[s..at];
    SliceOfSlice(disk, s, end, 0, offset);
    assert disk[s..end] == PieceAt(g, disk, p);
    assert (head + block + disk[at + |block|..end])[..offset + |block|] == head + block;
  }

  // A true block that goes where the next bytes of a piece belong extends a true prefix.
  lemma WriteExtendsPrefix(g: Geometry, truth: bytes, disk: bytes, i: nat, offset: nat, block: bytes)
    requires WellFormed(g) && |truth| == |disk| == g.total && i < |g.hashes|
    requires offset + |block| <= PieceSize(g, i) && TruePrefix(g, truth, disk, i, offset)
    requires TrueBlock(g, truth, i, offset, block)
    ensures TruePrefix(g, truth, Splice(disk, PieceStart(g, i) + offset, block), i, offset + |block|)
  {
    hide PieceStart, WellFormed, Splice;
    PieceBounds(g, i);
    WriteInPiece(g, disk, i, offset, block);
    var t, s := PieceAt(g, truth, i), PieceStart(g, i);
    assert t == truth[s..s + PieceSize(g, i)];
    SliceOfSlice(truth, s, s + PieceSize(g, i), offset, offset + |block|);
    assert t[..offset + |block|] == t[..offset] + block;
  }

  // The byte at position `x` of the torrent, x in piece `i`, decides about prefixes that reach beyond it.
  lemma PrefixByte(g: Geometry, truth: bytes, disk: bytes, i: nat, n: nat, x: nat)
    requires WellFormed(g) && |truth| == |disk| == g.total && i < |g.hashes| && n <= PieceSize(g, i)
    requires PieceStart(g, i) <= x < PieceStart(g, i) + n && TruePrefix(g, truth, disk, i, n)
    ensures x < g.total && disk[x] == truth[x]
  {
    PieceBounds(g, i);
    var k := x - PieceStart(g, i);
    assert PieceAt(g, disk, i)[..n][k] == disk[x] && PieceAt(g, truth, i)[..n][k] == truth[x];
  }

  lemma PrefixFromBytes(g: Geometry, truth: bytes, disk: bytes, i: nat, n: nat)
    requires WellFormed(g) && |truth| == |disk| == g.total && i < |g.hashes| && n <= PieceSize(g, i)
    requires forall x :: PieceStart(g, i) <= x < PieceStart(g, i) + n && x < g.total ==> disk[x] == truth[x]
    ensures TruePrefix(g, truth, disk, i, n)
  {
    PieceBounds(g, i);
    var a, b, s := PieceAt(g, disk, i)[..n], PieceAt(g, truth, i)[..n], PieceStart(g, i);
    forall k | 0 <= k < n ensures a[k] == b[k] {
      assert a[k] == disk[s + k] && b[k] == truth[s + k];
    }
  }

  // For a nonempty true block that fits, the guard's prefix grows whatever the disk was if and only if the block
  // goes where the next bytes of the guard's piece belong. The handler does not look at that.
  lemma OnlyAnswersExtend(g: Geometry, truth: bytes, i: nat, offset: nat, index: nat, begin: nat, block: bytes)
    requires WellFormed(g) && |truth| == g.total && i < |g.hashes| && block != []
    requires offset + |block| <= PieceSize(g, i) && TrueBlock(g, truth, index, begin, block)
    ensures (forall disk: bytes :: |disk| == g.total && TruePrefix(g, truth, disk, i, offset) ==>
               TruePrefix(g, truth, Splice(disk, PieceStart(g, index) + begin, block), i, offset + |block|))
       <==> Answers(g, Guard(i, offset, false), index, begin, |block|)
  {
    hide Splice, TruePrefix;
    var at, to := PieceStart(g, i) + offset, PieceStart(g, index) + begin;
    PieceBounds(g, i);
    if to == at {
      assert TrueBlock(g, truth, i, offset, block);
      forall disk: bytes | |disk| == g.total && TruePrefix(g, truth, disk, i, offset)
        ensures TruePrefix(g, truth, Splice(disk, to, block), i, offset + |block|)
      {
        WriteExtendsPrefix(g, truth, disk, i, offset, block);
      }
    } else {
      // The first or the last of the bytes that should have been written is wrong, and stays so.
      var x := if to > at then at else at + |block| - 1;
      var wrong: byte := if truth[x] == 0 then 1 else 0;
      var disk := truth[x := wrong];
      PrefixFromBytes(g, truth, disk, i, offset);
      SpliceAt(disk, to, block, x);
      if TruePrefix(g, truth, Splice(disk, to, block), i, offset + |block|) {
        PrefixByte(g, truth, Splice(disk, to, block), i, offset + |block|, x);
      }
    }
  }

  // Inside a piece that is: if and only if it names the guard's piece and offset.
  lemma SamePlace(g: Geometry, i: nat, offset: nat, index: nat, begin: nat)
    requires g.pieceLength > 0 && offset < g.pieceLength && begin < g.pieceLength
    ensures PieceStart(g, index) + begin == PieceStart(g, i) + offset <==> index == i && begin == offset
  {
    if index < i {
      MulLess(index, i, g.pieceLength);
    } else if i < index {
      MulLess(i, index, g.pieceLength);
    }
  }

  // --- one step ---

  // A marked piece is not the one being written.
  lemma HeldIsNotMarked(g: Geometry, s: State, p: nat, i: nat)
    requires Inv(g, s) && p < |s.peers| && i < |g.hashes| && Holding(s.peers[p], i)
    ensures !s.have[i]
  {
    assert Owners(s, i) == 1;
    SumByMember(Holds(i), s.peers, p);
  }

  lemma GuardIsTrue(g: Geometry, truth: bytes, good: (nat, bytes) -> bool, s: State, p: nat)
    requires WellFormed(g) && |truth| == g.total && Shape(g, s) && Sound(g, truth, good, s) && p < |s.peers|
    ensures PhaseOk(g, s.peers[p]) && GuardTrue(g, truth, s.disk, s.peers[p])
  {
    assert s.peers[p] in s.peers;
  }

  lemma WriteSound(g: Geometry, H: bytes -> Digest, truth: bytes, good: (nat, bytes) -> bool, s: State, a: Action)
    requires Inv(g, s) && Enabled(g, s, a) && Inv(g, Next(g, H, s, a)) && a.Write? && Expected(g, s, a)
    requires |truth| == g.total && Sound(g, truth, good, s) && Honest(g, truth, a)
    ensures Sound(g, truth, good, Next(g, H, s, a))
  {
    hide PieceStart, Partition, Conservation, WellFormed, Splice, Owners, PieceAt, TruePrefix;
    var s', guard := Next(g, H, s, a), s.peers[a.p].guard;
    assert s.peers[a.p] in s.peers;
    assert s'.disk == Splice(s.disk, PieceStart(g, guard.piece) + guard.offset, a.block);
    forall i | 0 <= i < |g.hashes| && s'.have[i] ensures good(i, PieceAt(g, s'.disk, i)) {
      HeldIsNotMarked(g, s, a.p, guard.piece);
      WriteBesidePiece(g, s.disk, guard.piece, guard.offset, a.block, i);
    }
    forall p | 0 <= p < |s'.peers| ensures GuardTrue(g, truth, s'.disk, s'.peers[p]) {
      GuardIsTrue(g, truth, good, s, p);
      if p == a.p {
        WriteExtendsPrefix(g, truth, s.disk, guard.piece, guard.offset, a.block);
      } else {
        OtherGuardTrue(g, truth, s, a.p, p, a.block);
      }
    }
  }

  // Another peer's guard is not disturbed by a write.
  lemma OtherGuardTrue(g: Geometry, truth: bytes, s: State, w: nat, p: nat, block: bytes)
    requires Inv(g, s) && |truth| == g.total && w < |s.peers| && p < |s.peers| && p != w && Incomplete(s.peers[w])
    requires s.peers[w].guard.piece < |g.hashes|
    requires s.peers[w].guard.offset + |block| <= PieceSize(g, s.peers[w].guard.piece)
    requires PhaseOk(g, s.peers[p]) && GuardTrue(g, truth, s.disk, s.peers[p])
    ensures var disk' := Splice(s.disk, PieceStart(g, s.peers[w].guard.piece) + s.peers[w].guard.offset, block);
            GuardTrue(g, truth, disk', s.peers[p])
  {
    hide PieceStart, Partition, Conservation, WellFormed, Splice, PieceAt;
    var guard, other := s.peers[w].guard, s.peers[p];
    if Incomplete(other) || (other.Finished? && other.held) {
      NoTwoPeersShareAPiece(g, s, w, p, guard.piece, other.guard.piece);
      WriteBesidePiece(g, s.disk, guard.piece, guard.offset, block, other.guard.piece);
    }
  }

  lemma CreditSound(g: Geometry, H: bytes -> Digest, truth: bytes, good: (nat, bytes) -> bool, s: State, p: nat)
    requires Inv(g, s) && Tidy(g, s) && Enabled(g, s, Credit(p)) && Inv(g, Next(g, H, s, Credit(p)))
    requires |truth| == g.total && Sound(g, truth, good, s)
    ensures Sound(g, truth, good, Next(g, H, s, Credit(p)))
  {
    hide Partition, Conservation, TruePrefix;
    var ph := s.peers[p];
    assert ph in s.peers;
    AdvanceIs(g, ph.guard, ph.len);
    GuardIsTrue(g, truth, good, s, p);
  }

  lemma MarkSound(g: Geometry, H: bytes -> Digest, truth: bytes, good: (nat, bytes) -> bool, s: State, p: nat)
    requires Inv(g, s) && Tidy(g, s) && Enabled(g, s, Mark(p)) && Inv(g, Next(g, H, s, Mark(p)))
    requires |truth| == g.total && Criterion(g, truth, good) && Sound(g, truth, good, s)
    ensures Sound(g, truth, good, Next(g, H, s, Mark(p)))
  {
    hide Partition, Conservation;
    GuardIsTrue(g, truth, good, s, p);
    var i := s.peers[p].guard.piece;
    assert s.peers[p] in s.peers;
    assert PieceAt(g, s.disk, i)[..PieceSize(g, i)] == PieceAt(g, s.disk, i);
    assert PieceAt(g, truth, i)[..PieceSize(g, i)] == PieceAt(g, truth, i);
  }

  lemma StepSound(g: Geometry, H: bytes -> Digest, truth: bytes, good: (nat, bytes) -> bool, s: State, a: Action)
    requires Inv(g, s) && Tidy(g, s) && Enabled(g, s, a) && Expected(g, s, a)
    requires |truth| == g.total && Criterion(g, truth, good)
    requires Sound(g, truth, good, s) && Honest(g, truth, a)
    requires a.Restart? ==> ResumesGood(g, H, good, s.disk)
    ensures Inv(g, Next(g, H, s, a)) && Tidy(g, Next(g, H, s, a)) && Sound(g, truth, good, Next(g, H, s, a))
  {
    hide Partition, Conservation, TruePrefix, Tidy;
    ExpectedIsHarmless(g, H, s, a);
    match a
    case Write(_, _, _, _) => WriteSound(g, H, truth, good, s, a);
    case Credit(p) => CreditSound(g, H, truth, good, s, p);
    case Mark(p) => MarkSound(g, H, truth, good, s, p);
    case TakeNext(p) => FreshGuardTrue(g, H, truth, good, s, a);
    case Connect => FreshGuardTrue(g, H, truth, good, s, a);
    case _ =>
  }

  // Taking a piece relies on nothing yet.
  lemma FreshGuardTrue(g: Geometry, H: bytes -> Digest, truth: bytes, good: (nat, bytes) -> bool, s: State, a: Action)
    requires Inv(g, s) && Enabled(g, s, a) && (a.Connect? || a.TakeNext?) && Inv(g, Next(g, H, s, a))
    requires |truth| == g.total && Sound(g, truth, good, s)
    ensures Sound(g, truth, good, Next(g, H, s, a))
  {
    hide Partition, Conservation;
    var s' := Next(g, H, s, a);
    forall p | 0 <= p < |s'.peers| ensures GuardTrue(g, truth, s'.disk, s'.peers[p]) {
      assert s'.peers[p] in s'.peers;
      if a.TakeNext? {
        GuardIsTrue(g, truth, good, s, a.p);
      }
      if p < |s.peers| {
        GuardIsTrue(g, truth, good, s, p);
      }
      if a.TakeNext? {
        assert s.peers[a.p] in s.peers;
      }
    }
  }

  // --- honest runs ---

  // From a disk, then steps.
  predicate HonestDownload(g: Geometry, H: bytes -> Digest, truth: bytes, disk: bytes, run: seq<Action>) {
    && WellFormed(g) && |truth| == |disk| == g.total
    && EnabledRun(g, H, Resume(g, H, disk), run)
    && ExpectedRun(g, H, Resume(g, H, disk), run)
    && HonestRun(g, truth, run)
  }

  lemma {:induction false} HonestRunSound(g: Geometry, H: bytes -> Digest, truth: bytes,
                                          good: (nat, bytes) -> bool, s: State, run: seq<Action>)
    requires Inv(g, s) && Tidy(g, s) && EnabledRun(g, H, s, run) && ExpectedRun(g, H, s, run)
    requires |truth| == g.total && Criterion(g, truth, good) && RestartsGood(g, H, good, s, run)
    requires Sound(g, truth, good, s) && HonestRun(g, truth, run)
    ensures Inv(g, After(g, H, s, run)) && Tidy(g, After(g, H, s, run)) && Sound(g, truth, good, After(g, H, s, run))
    decreases |run|
  {
    hide Shape, Partition, Conservation, Sound, Criterion, Tidy, Honest, Next, Enabled, Expected, ResumesGood;
    if run != [] {
      StepSound(g, H, truth, good, s, run[0]);
      HonestRunSound(g, H, truth, good, Next(g, H, s, run[0]), run[1..]);
    }
  }

  lemma ResumeSound(g: Geometry, H: bytes -> Digest, truth: bytes, good: (nat, bytes) -> bool, disk: bytes)
    requires WellFormed(g) && |truth| == |disk| == g.total && ResumesGood(g, H, good, disk)
    ensures Inv(g, Resume(g, H, disk)) && Tidy(g, Resume(g, H, disk)) && Sound(g, truth, good, Resume(g, H, disk))
  {
    ResumeInv(g, H, disk);
    ResumeHasNoPeers(g, H, disk);
  }

  // What a download leaves, for any notion of a good piece that its restarts respect.
  lemma DownloadSound(g: Geometry, H: bytes -> Digest, truth: bytes, good: (nat, bytes) -> bool, disk: bytes,
                      run: seq<Action>)
    requires HonestDownload(g, H, truth, disk, run) && Criterion(g, truth, good)
    requires ResumesGood(g, H, good, disk) && RestartsGood(g, H, good, Resume(g, H, disk), run)
    ensures var s := After(g, H, Resume(g, H, disk), run); Inv(g, s) && Tidy(g, s) && Sound(g, truth, good, s)
  {
    ResumeSound(g, H, truth, good, disk);
    HonestRunSound(g, H, truth, good, Resume(g, H, disk), run);
  }

  lemma {:induction false} HashedRestartsGood(g: Geometry, H: bytes -> Digest, s: State, run: seq<Action>)
    requires WellFormed(g) && EnabledRun(g, H, s, run)
    ensures RestartsGood(g, H, (i: nat, x: bytes) => i < |g.hashes| && H(x) == g.hashes[i], s, run)
    decreases |run|
  {
    if run != [] {
      HashedRestartsGood(g, H, Next(g, H, s, run[0]), run[1..]);
    }
  }

  // A session starting from any disk content, then any honest run. In the state reached the queue, the
  // guards, the refunds and `have` partition the pieces, every counted byte has an owner, every marked piece
  // has the hash the metainfo demands, and every guard's counted bytes are true content on disk.
  lemma HonestRunsAreSafe(g: Geometry, H: bytes -> Digest, truth: bytes, disk: bytes, run: seq<Action>)
    requires Truth(g, H, truth) && HonestDownload(g, H, truth, disk, run)
    ensures var s := After(g, H, Resume(g, H, disk), run);
            && Inv(g, s)
            && (forall i :: 0 <= i < |g.hashes| && s.have[i] ==> H(PieceAt(g, s.disk, i)) == g.hashes[i])
            && (forall p :: 0 <= p < |s.peers| ==> GuardTrue(g, truth, s.disk, s.peers[p]))
  {
    HashedRestartsGood(g, H, Resume(g, H, disk), run);
    DownloadSound(g, H, truth, (i: nat, x: bytes) => i < |g.hashes| && H(x) == g.hashes[i], disk, run);
  }

  // A piece that was there at the start, or the true one.
  function ThereOrTrue(g: Geometry, truth: bytes, have: seq<bool>): (nat, bytes) -> bool
    requires WellFormed(g) && |truth| == g.total && |have| == |g.hashes|
  {
    (i: nat, x: bytes) => i < |g.hashes| && (have[i] || x == PieceAt(g, truth, i))
  }

  lemma ThereIsGood(g: Geometry, H: bytes -> Digest, truth: bytes, disk: bytes)
    requires WellFormed(g) && |truth| == |disk| == g.total
    ensures var good := ThereOrTrue(g, truth, Resume(g, H, disk).have);
            Criterion(g, truth, good) && ResumesGood(g, H, good, disk)
  {
    hide PieceAt, MissingBelow, ResumedBytes, CeilDiv;
  }

  // A piece fetched in the session itself is the true one, whatever the hash function.
  lemma FetchedPiecesAreTrue(g: Geometry, H: bytes -> Digest, truth: bytes, disk: bytes, run: seq<Action>)
    requires HonestDownload(g, H, truth, disk, run) && forall k :: 0 <= k < |run| ==> !run[k].Restart?
    ensures var s, first := After(g, H, Resume(g, H, disk), run), Resume(g, H, disk);
            && Inv(g, s)
            && forall i :: 0 <= i < |g.hashes| && s.have[i] && !first.have[i] ==>
                 PieceAt(g, s.disk, i) == PieceAt(g, truth, i)
  {
    hide Partition, Conservation, Tidy, After, ExpectedRun, HonestRun, RestartsGood, Resume, Criterion, ResumesGood,
      EnabledRun, CeilDiv, PieceAt, GuardTrue;
    ResumeInv(g, H, disk);
    var good := ThereOrTrue(g, truth, Resume(g, H, disk).have);
    ThereIsGood(g, H, truth, disk);
    NoRestarts(g, H, good, Resume(g, H, disk), run);
    DownloadSound(g, H, truth, good, disk, run);
  }

  lemma {:induction false} NoRestarts(g: Geometry, H: bytes -> Digest, good: (nat, bytes) -> bool, s: State,
                                      run: seq<Action>)
    requires WellFormed(g) && EnabledRun(g, H, s, run) && forall k :: 0 <= k < |run| ==> !run[k].Restart?
    ensures RestartsGood(g, H, good, s, run)
    decreases |run|
  {
    if run != [] {
      NoRestarts(g, H, good, Next(g, H, s, run[0]), run[1..]);
    }
  }

  // If no piece that a session verified, at the start or at a restart, matches falsely, then marked pieces are
  // the true ones; and when the torrent is complete the files are exactly the true content.
  lemma HonestRunsHoldTheTruth(g: Geometry, H: bytes -> Digest, truth: bytes, disk: bytes, run: seq<Action>)
    requires HonestDownload(g, H, truth, disk, run) && NoFalseMatch(g, H, truth, disk)
    requires RestartsGood(g, H, IsTrue(g, truth), Resume(g, H, disk), run)
    ensures var s := After(g, H, Resume(g, H, disk), run);
            && Inv(g, s)
            && (forall i :: 0 <= i < |g.hashes| && s.have[i] ==> PieceAt(g, s.disk, i) == PieceAt(g, truth, i))
            && (s.status == Completed ==> s.disk == truth)
  {
    var good := IsTrue(g, truth);
    DownloadSound(g, H, truth, good, disk, run);
    MarkedIsTrue(g, truth, After(g, H, Resume(g, H, disk), run));
  }

  lemma MarkedIsTrue(g: Geometry, truth: bytes, s: State)
    requires Inv(g, s) && |truth| == g.total && Sound(g, truth, IsTrue(g, truth), s)
    ensures forall i :: 0 <= i < |g.hashes| && s.have[i] ==> PieceAt(g, s.disk, i) == PieceAt(g, truth, i)
    ensures s.status == Completed ==> s.disk == truth
  {
    hide Partition, Conservation;
    forall i | 0 <= i < |g.hashes| && s.have[i] ensures PieceAt(g, s.disk, i) == PieceAt(g, truth, i) {
      assert IsTrue(g, truth)(i, PieceAt(g, s.disk, i));
    }
    if s.status == Completed {
      CompletedExactly(g, s);
      forall i | 0 <= i < |g.hashes| ensures PieceAt(g, s.disk, i) == PieceAt(g, truth, i) {
        assert Done(s, i);
        if !s.have[i] {
          var ph :| ph in s.peers && ph.Finished? && Holding(ph, i);
          var p :| 0 <= p < |s.peers| && s.peers[p] == ph;
          GuardIsTrue(g, truth, IsTrue(g, truth), s, p);
          assert PieceAt(g, s.disk, i)[..PieceSize(g, i)] == PieceAt(g, s.disk, i);
          assert PieceAt(g, truth, i)[..PieceSize(g, i)] == PieceAt(g, truth, i);
        }
      }
      PiecesDetermine(g, s.disk, truth);
    }
  }

  lemma {:induction false} PiecesDetermineBelow(g: Geometry, a: bytes, b: bytes, n: nat)
    requires WellFormed(g) && |a| == |b| == g.total && n <= |g.hashes|
    requires forall i :: 0 <= i < n ==> PieceAt(g, a, i) == PieceAt(g, b, i)
    ensures SizeBelow(g, n) <= g.total && a[..SizeBelow(g, n)] == b[..SizeBelow(g, n)]
  {
    SizeBelowIs(g, n);
    if n > 0 {
      PiecesDetermineBelow(g, a, b, n - 1);
      SizeBelowIs(g, n - 1);
      PieceBounds(g, n - 1);
      var lo, hi := SizeBelow(g, n - 1), SizeBelow(g, n);
      assert lo == PieceStart(g, n - 1);
      assert a[lo..hi] == PieceAt(g, a, n - 1) == b[lo..hi];
      assert a[..hi] == a[..lo] + a[lo..hi] && b[..hi] == b[..lo] + b[lo..hi];
    }
  }

  // The pieces are all of the torrent.
  lemma PiecesDetermine(g: Geometry, a: bytes, b: bytes)
    requires WellFormed(g) && |a| == |b| == g.total
    requires forall i :: 0 <= i < |g.hashes| ==> PieceAt(g, a, i) == PieceAt(g, b, i)
    ensures a == b
  {
    PiecesDetermineBelow(g, a, b, |g.hashes|);
    SizesAddUp(g);
  }

  // A restart at any point of an honest run verifies at least every marked piece, counts exactly the verified
  // pieces, and reports completion exactly when all are verified.
  lemma RestartRecovers(g: Geometry, H: bytes -> Digest, truth: bytes, disk: bytes, run: seq<Action>)
    requires Truth(g, H, truth) && HonestDownload(g, H, truth, disk, run)
    ensures var s := After(g, H, Resume(g, H, disk), run);
            && Inv(g, s)
            && var t := Resume(g, H, s.disk);
               && t.disk == s.disk
               && (forall i :: 0 <= i < |g.hashes| ==> (t.have[i] <==> H(PieceAt(g, s.disk, i)) == g.hashes[i]))
               && (forall i :: 0 <= i < |g.hashes| && s.have[i] ==> t.have[i])
               && t.downloaded == HaveBytes(g, t.have, |t.have|)
               && (t.status == Completed <==> forall i :: 0 <= i < |g.hashes| ==> t.have[i])
  {
    HonestRunsAreSafe(g, H, truth, disk, run);
    ResumeInv(g, H, After(g, H, Resume(g, H, disk), run).disk);
  }
}
