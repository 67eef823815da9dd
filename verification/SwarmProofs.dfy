// What every interleaving of the download scheduler keeps.
module SwarmProofs {
  import opened Prelude
  import opened Geometry
  import opened Swarm

  // --- counted bytes never exceed the torrent ---

  // The counted bytes of piece `i` alone.
  function CountedAt(g: Geometry, i: nat): Phase -> nat
    requires WellFormed(g)
  {
    (ph: Phase) => if Holding(ph, i) then Counted(g, ph) else 0
  }

  function OwedAt(i: nat): Refund -> nat { (r: Refund) => if r.Owed? && r.piece == i then r.count else 0 }

  function BytesAt(g: Geometry, s: State, i: nat): nat
    requires WellFormed(g) && i < |s.have|
  {
    (if s.have[i] then SizeOr0(g, i) else 0) + SumBy(CountedAt(g, i), s.peers) + SumBy(OwedAt(i), s.refunds)
  }

  lemma BytesBelowNext(g: Geometry, s: State, i: nat)
    requires WellFormed(g) && i < |s.have|
    ensures BytesBelow(g, s, i + 1) == BytesBelow(g, s, i) + BytesAt(g, s, i)
  {
    SumByAdd(CountedBelow(g, i + 1), CountedBelow(g, i), CountedAt(g, i), s.peers);
    SumByAdd(OwedBelow(i + 1), OwedBelow(i), OwedAt(i), s.refunds);
  }

  // With one owner a piece has at most its size counted.
  lemma BytesAtBound(g: Geometry, s: State, i: nat)
    requires WellFormed(g) && Shape(g, s) && i < |g.hashes| && Owners(s, i) == 1
    ensures BytesAt(g, s, i) <= PieceSize(g, i)
  {
    var size := PieceSize(g, i);
    SumByAtMost(CountedAt(g, i), Holds(i), size, s.peers);
    SumByAtMost(OwedAt(i), Owes(i), size, s.refunds);
    var h, o := SumBy(Holds(i), s.peers), SumBy(Owes(i), s.refunds);
    assert h <= 1 && o <= 1;
  }

  lemma BytesAtExact(g: Geometry, s: State, i: nat)
    requires WellFormed(g) && Shape(g, s) && i < |g.hashes| && Owners(s, i) == 1
    ensures BytesAt(g, s, i) == PieceSize(g, i) <==> Done(s, i)
  {
    BytesAtBound(g, s, i);
    var size := PieceSize(g, i);
    TargetIsPieceSize(g, i);
    if !s.have[i] && Done(s, i) {
      var p :| 0 <= p < |s.peers| && s.peers[p].Finished? && Holding(s.peers[p], i);
      SumByMember(CountedAt(g, i), s.peers, p);
    } else if !Done(s, i) {
      SumByAtMost(CountedAt(g, i), Holds(i), size - 1, s.peers);
      SumByAtMost(OwedAt(i), Owes(i), size - 1, s.refunds);
      var h, o := SumBy(Holds(i), s.peers), SumBy(Owes(i), s.refunds);
      assert h + o <= 1;
    }
  }

  // The size of the first n pieces.
  function SizeBelow(g: Geometry, n: nat): nat
    requires WellFormed(g) && n <= |g.hashes|
  {
    if n == 0 then 0 else SizeBelow(g, n - 1) + PieceSize(g, n - 1)
  }

  lemma {:induction false} SizeBelowIs(g: Geometry, n: nat)
    requires WellFormed(g) && n <= |g.hashes|
    ensures SizeBelow(g, n) == Min(n * g.pieceLength, g.total)
  {
    if n > 0 {
      SizeBelowIs(g, n - 1);
      PieceBounds(g, n - 1);
      MulNext(n - 1, g.pieceLength);
    }
  }

  lemma SizesAddUp(g: Geometry)
    requires WellFormed(g)
    ensures SizeBelow(g, |g.hashes|) == g.total
  {
    SizeBelowIs(g, |g.hashes|);
    CeilDivBounds(g.total, g.pieceLength);
  }

  lemma {:induction false} BytesBound(g: Geometry, s: State, n: nat)
    requires WellFormed(g) && Shape(g, s) && Partition(g, s) && n <= |g.hashes|
    ensures BytesBelow(g, s, n) <= SizeBelow(g, n)
    ensures BytesBelow(g, s, n) == SizeBelow(g, n) <==> forall i :: 0 <= i < n ==> Done(s, i)
  {
    if n == 0 {
      SumByAtMost(CountedBelow(g, 0), CountedBelow(g, 0), 0, s.peers);
      SumByAtMost(OwedBelow(0), OwedBelow(0), 0, s.refunds);
    } else {
      hide BytesBelow, BytesAt, Done, Owners;
      BytesBound(g, s, n - 1);
      BytesBelowNext(g, s, n - 1);
      BytesAtBound(g, s, n - 1);
      BytesAtExact(g, s, n - 1);
    }
  }

  // All the counted bytes fit in the torrent, and they are all of it exactly when every piece is done.
  lemma CountedFits(g: Geometry, s: State)
    requires WellFormed(g) && Shape(g, s) && Partition(g, s)
    ensures BytesBelow(g, s, |g.hashes|) <= g.total
    ensures BytesBelow(g, s, |g.hashes|) == g.total <==> forall i :: 0 <= i < |g.hashes| ==> Done(s, i)
  {
    BytesBound(g, s, |g.hashes|);
    SizesAddUp(g);
  }

  // --- one step at a time ---

  // Replacing a guard changes its piece's ownership and the counted bytes by the difference of the two.
  lemma OwnersOfReplacedPeer(s: State, p: nat, ph: Phase, i: nat)
    requires p < |s.peers| && i < |s.have|
    ensures Owners(s.(peers := s.peers[p := ph]), i) + Holds(i)(s.peers[p]) == Owners(s, i) + Holds(i)(ph)
  {
    SumByUpdate(Holds(i), s.peers, p, ph);
  }

  lemma BytesOfReplacedPeer(g: Geometry, s: State, p: nat, ph: Phase)
    requires WellFormed(g) && |s.have| == |g.hashes| && p < |s.peers|
    ensures BytesBelow(g, s.(peers := s.peers[p := ph]), |g.hashes|) + CountedBelow(g, |g.hashes|)(s.peers[p])
         == BytesBelow(g, s, |g.hashes|) + CountedBelow(g, |g.hashes|)(ph)
  {
    SumByUpdate(CountedBelow(g, |g.hashes|), s.peers, p, ph);
  }

  lemma AddPeer(g: Geometry, s: State, ph: Phase)
    requires WellFormed(g) && |s.have| == |g.hashes|
    ensures var s' := s.(peers := s.peers + [ph]);
            && (forall i :: 0 <= i < |s.have| ==> Owners(s', i) == Owners(s, i) + Holds(i)(ph))
            && BytesBelow(g, s', |g.hashes|) == BytesBelow(g, s, |g.hashes|) + CountedBelow(g, |g.hashes|)(ph)
  {
    forall i | 0 <= i < |s.have|
      ensures Owners(s.(peers := s.peers + [ph]), i) == Owners(s, i) + Holds(i)(ph)
    {
      SumByAppend(Holds(i), s.peers, ph);
    }
    SumByAppend(CountedBelow(g, |g.hashes|), s.peers, ph);
  }

  lemma PopMissing(s: State, i: nat)
    requires s.missing != [] && i < |s.have|
    ensures Owners(s.(missing := s.missing[1..]), i) + IsPiece(i)(s.missing[0]) == Owners(s, i)
  {
  }

  lemma ConnectKeeps(g: Geometry, H: bytes -> Digest, s: State)
    requires Inv(g, s)
    ensures Inv(g, Next(g, H, s, Connect))
  {
    var s' := Next(g, H, s, Connect);
    var (missing, guard) := TakePiece(s.missing, NEW_GUARD);
    var mid := s.(missing := missing);
    AddPeer(g, mid, Waiting(guard));
    if s.missing != [] {
      assert s.missing[0] in s.missing;
      TargetIsPieceSize(g, s.missing[0]);
    }
    assert s' == mid.(peers := mid.peers + [Waiting(guard)]);
    forall i | 0 <= i < |g.hashes| ensures Owners(s', i) == 1 {
      if s.missing != [] {
        PopMissing(s, i);
      }
    }
  }

  lemma TakeNextKeeps(g: Geometry, H: bytes -> Digest, s: State, p: nat)
    requires Inv(g, s) && Enabled(g, s, TakeNext(p))
    ensures Inv(g, Next(g, H, s, TakeNext(p)))
  {
    var s' := Next(g, H, s, TakeNext(p));
    var (missing, guard) := TakePiece(s.missing, s.peers[p].guard);
    var ph := Waiting(guard);
    assert s.peers[p] in s.peers;
    var mid := s.(missing := missing);
    BytesOfReplacedPeer(g, mid, p, ph);
    if s.missing != [] {
      assert s.missing[0] in s.missing;
      TargetIsPieceSize(g, s.missing[0]);
    }
    assert s' == mid.(peers := mid.peers[p := ph]);
    forall i | 0 <= i < |g.hashes| ensures Owners(s', i) == 1 {
      OwnersOfReplacedPeer(mid, p, ph, i);
      if s.missing != [] {
        PopMissing(s, i);
      }
    }
  }

  // Whatever a Piece message carries, and wherever its block goes.
  lemma WriteKeeps(g: Geometry, H: bytes -> Digest, s: State, p: nat, index: nat, begin: nat, block: bytes)
    requires Inv(g, s) && Enabled(g, s, Write(p, index, begin, block))
    ensures Inv(g, Next(g, H, s, Write(p, index, begin, block)))
  {
    var s' := Next(g, H, s, Write(p, index, begin, block));
    assert s.peers[p] in s.peers;
    var ph := Written(s.peers[p].guard, |block|);
    var mid := s.(disk := s'.disk);
    BytesOfReplacedPeer(g, mid, p, ph);
    assert s' == mid.(peers := mid.peers[p := ph]);
    forall i | 0 <= i < |g.hashes| ensures Owners(s', i) == 1 {
      OwnersOfReplacedPeer(mid, p, ph, i);
      assert Owners(mid, i) == Owners(s, i);
    }
  }

  // What an advancing incomplete guard becomes, as long as the block fits: complete exactly when its piece is.
  lemma AdvanceIs(g: Geometry, guard: Guard, len: nat)
    requires WellFormed(g) && guard.piece < |g.hashes| && guard.offset + len <= PieceSize(g, guard.piece)
    ensures Advance(g, guard, len)
         == if guard.offset + len == PieceSize(g, guard.piece)
            then Finished(Guard(guard.piece, guard.offset + len, true), !guard.complete)
            else Waiting(guard.(offset := guard.offset + len))
  {
    TargetIsPieceSize(g, guard.piece);
  }

  // The state with the guard advanced but nothing counted.
  function Advanced(g: Geometry, s: State, p: nat): State
    requires p < |s.peers| && s.peers[p].Written?
  {
    s.(peers := s.peers[p := Advance(g, s.peers[p].guard, s.peers[p].len)])
  }

  // Whatever its length, a counted block keeps every piece owned; and what is owed for the guard changes with it.
  lemma AdvancedOwns(g: Geometry, s: State, p: nat)
    requires Inv(g, s) && Enabled(g, s, Credit(p))
    ensures Shape(g, Advanced(g, s, p)) && Partition(g, Advanced(g, s, p))
    ensures BytesBelow(g, Advanced(g, s, p), |g.hashes|) <= g.total
    ensures BytesBelow(g, Advanced(g, s, p), |g.hashes|) + Counted(g, s.peers[p])
         == s.downloaded + Counted(g, Advanced(g, s, p).peers[p])
  {
    var ph, t := s.peers[p], Advanced(g, s, p);
    assert ph in s.peers;
    if !ph.guard.complete {
      TargetIsPieceSize(g, ph.guard.piece);
    }
    BytesOfReplacedPeer(g, s, p, t.peers[p]);
    forall i | 0 <= i < |g.hashes| ensures Owners(t, i) == 1 {
      OwnersOfReplacedPeer(s, p, t.peers[p], i);
    }
    assert Shape(g, t);
    CountedFits(g, t);
  }

  // A piece some peer is still fetching is not done.
  lemma FetchedIsNotDone(g: Geometry, s: State, p: nat)
    requires WellFormed(g) && Shape(g, s) && Partition(g, s) && p < |s.peers| && Incomplete(s.peers[p])
    ensures s.peers[p].guard.piece < |s.have| && !Done(s, s.peers[p].guard.piece)
  {
    assert s.peers[p] in s.peers;
    var i := s.peers[p].guard.piece;
    assert Owners(s, i) == 1;
    SumByMember(Holds(i), s.peers, p);
    if ph :| ph in s.peers && ph.Finished? && Holding(ph, i) {
      var q :| 0 <= q < |s.peers| && s.peers[q] == ph;
      SumByTwoMembers(Holds(i), s.peers, if p < q then p else q, if p < q then q else p);
    }
  }

  // Counting a block keeps the counts right exactly if `CountsRight` holds before.
  lemma CreditExactly(g: Geometry, H: bytes -> Digest, s: State, p: nat)
    requires Inv(g, s) && Enabled(g, s, Credit(p))
    ensures Inv(g, Next(g, H, s, Credit(p))) <==> CountsRight(g, s, s.peers[p].guard, s.peers[p].len)
  {
    hide BytesBelow, Owners, CountsRight, Advance, Counted;
    var s', t := Next(g, H, s, Credit(p)), Advanced(g, s, p);
    AdvancedOwns(g, s, p);
    CountsDiffer(g, t, s');
    UnfinishedIsShort(g, t, p);
    CountedFits(g, s);
    CountIsRight(g, s, p, BytesBelow(g, t, |g.hashes|));
    assert s'.downloaded == Min(s.downloaded + s.peers[p].len, g.total);
    assert s' == t.(downloaded := s'.downloaded, status := s'.status);
  }

  lemma UnfinishedIsShort(g: Geometry, s: State, p: nat)
    requires WellFormed(g) && Shape(g, s) && Partition(g, s) && p < |s.peers|
    ensures Incomplete(s.peers[p]) ==> BytesBelow(g, s, |g.hashes|) < g.total
  {
    hide BytesBelow;
    if Incomplete(s.peers[p]) {
      FetchedIsNotDone(g, s, p);
      CountedFits(g, s);
    }
  }

  // `bytes` is what should be counted after the guard has advanced.
  lemma CountIsRight(g: Geometry, s: State, p: nat, bytes: nat)
    requires WellFormed(g) && Shape(g, s) && p < |s.peers| && s.peers[p].Written? && s.downloaded <= g.total
    requires var ph' := Advance(g, s.peers[p].guard, s.peers[p].len);
             && bytes + Counted(g, s.peers[p]) == s.downloaded + Counted(g, ph')
             && bytes <= g.total && (Incomplete(ph') ==> bytes < g.total)
    ensures Min(s.downloaded + s.peers[p].len, g.total) == bytes
       <==> CountsRight(g, s, s.peers[p].guard, s.peers[p].len)
  {
    hide CeilDiv, PieceSize, TargetSize;
    var ph := s.peers[p];
    assert ph in s.peers;
    if !ph.guard.complete {
      TargetIsPieceSize(g, ph.guard.piece);
    }
  }

  // Two states that differ in their counters only.
  lemma CountsDiffer(g: Geometry, t: State, s: State)
    requires WellFormed(g) && Shape(g, t) && Partition(g, t)
    requires s == t.(downloaded := s.downloaded, status := s.status)
    ensures Shape(g, s) && Partition(g, s) && BytesBelow(g, s, |g.hashes|) == BytesBelow(g, t, |g.hashes|)
  {
    forall i | 0 <= i < |g.hashes| ensures Owners(s, i) == 1 {
      assert Owners(t, i) == 1;
    }
  }

  lemma {:induction false} HaveOneMore(g: Geometry, have: seq<bool>, i: nat, n: nat)
    requires WellFormed(g) && i < |have| && n <= |have| && !have[i]
    ensures HaveBytes(g, have[i := true], n) == HaveBytes(g, have, n) + if i < n then SizeOr0(g, i) else 0
  {
    if n > 0 {
      HaveOneMore(g, have, i, n - 1);
    }
  }

  // Marking keeps the invariant exactly if the guard held the piece, or there is nothing to mark.
  lemma MarkExactly(g: Geometry, H: bytes -> Digest, s: State, p: nat)
    requires Inv(g, s) && Enabled(g, s, Mark(p))
    ensures Inv(g, Next(g, H, s, Mark(p))) <==> Harmless(g, s, Mark(p))
    ensures Shape(g, Next(g, H, s, Mark(p))) && (Partition(g, Next(g, H, s, Mark(p))) <==> Harmless(g, s, Mark(p)))
  {
    var s' := Next(g, H, s, Mark(p));
    var ph := s.peers[p];
    var m := ph.guard.piece;
    assert ph in s.peers;
    BytesOfReplacedPeer(g, s, p, s'.peers[p]);
    if ph.held {
      assert !s.have[m] by {
        assert Owners(s, m) == 1;
        SumByMember(Holds(m), s.peers, p);
      }
      HaveOneMore(g, s.have, m, |g.hashes|);
      forall i | 0 <= i < |g.hashes| ensures Owners(s', i) == 1 {
        OwnersOfReplacedPeer(s, p, s'.peers[p], i);
      }
    } else if Harmless(g, s, Mark(p)) {
      assert s'.have == s.have;
      forall i | 0 <= i < |g.hashes| ensures Owners(s', i) == 1 {
        OwnersOfReplacedPeer(s, p, s'.peers[p], i);
      }
    } else {
      OwnersOfReplacedPeer(s, p, s'.peers[p], m);
      assert Owners(s, m) == 1 && Owners(s', m) == 2;
    }
  }

  lemma AddRefund(g: Geometry, s: State, r: Refund)
    requires WellFormed(g) && |s.have| == |g.hashes|
    ensures var s' := s.(refunds := s.refunds + [r]);
            && (forall i :: 0 <= i < |s.have| ==> Owners(s', i) == Owners(s, i) + Owes(i)(r))
            && BytesBelow(g, s', |g.hashes|) == BytesBelow(g, s, |g.hashes|) + OwedBelow(|g.hashes|)(r)
  {
    forall i | 0 <= i < |s.have|
      ensures Owners(s.(refunds := s.refunds + [r]), i) == Owners(s, i) + Owes(i)(r)
    {
      SumByAppend(Owes(i), s.refunds, r);
    }
    SumByAppend(OwedBelow(|g.hashes|), s.refunds, r);
  }

  // Dropping a guard keeps the invariant exactly if it is not between completion and marking; in that window it
  // spawns no refund, because it is complete already, and the piece is lost to this session.
  lemma DropExactly(g: Geometry, H: bytes -> Digest, s: State, p: nat)
    requires Inv(g, s) && Enabled(g, s, Drop(p))
    ensures Inv(g, Next(g, H, s, Drop(p))) <==> Harmless(g, s, Drop(p))
    ensures Shape(g, Next(g, H, s, Drop(p))) && (Partition(g, Next(g, H, s, Drop(p))) <==> Harmless(g, s, Drop(p)))
  {
    var s' := Next(g, H, s, Drop(p));
    var ph := s.peers[p];
    assert ph in s.peers;
    var mid := s.(peers := s.peers[p := Gone]);
    BytesOfReplacedPeer(g, s, p, Gone);
    if Incomplete(ph) {
      var r := Owed(ph.guard.piece, ph.guard.offset);
      AddRefund(g, mid, r);
      assert s' == mid.(refunds := mid.refunds + [r]);
    } else {
      assert s' == mid;
    }
    if ph.Finished? && ph.held {
      OwnersOfReplacedPeer(s, p, Gone, ph.guard.piece);
      assert Owners(s, ph.guard.piece) == 1 && Owners(s', ph.guard.piece) == 0;
    } else {
      forall i | 0 <= i < |g.hashes| ensures Owners(s', i) == 1 {
        OwnersOfReplacedPeer(s, p, Gone, i);
      }
    }
  }

  // The bytes of a pending refund are part of what is counted, so subtracting them never saturates.
  lemma RefundIsCounted(g: Geometry, s: State, k: nat)
    requires Inv(g, s) && Enabled(g, s, SubtractRefund(k))
    ensures s.refunds[k].count <= s.downloaded
  {
    assert s.refunds[k] in s.refunds;
    SumByMember(OwedBelow(|g.hashes|), s.refunds, k);
  }

  // A piece on its way back to the queue is not done.
  lemma RefundedIsNotDone(g: Geometry, s: State, k: nat)
    requires WellFormed(g) && Shape(g, s) && Partition(g, s) && k < |s.refunds|
    ensures s.refunds[k].piece < |s.have| && !Done(s, s.refunds[k].piece)
  {
    assert s.refunds[k] in s.refunds;
    var i := s.refunds[k].piece;
    assert Owners(s, i) == 1;
    SumByMember(Owes(i), s.refunds, k);
    if ph :| ph in s.peers && ph.Finished? && Holding(ph, i) {
      var p :| 0 <= p < |s.peers| && s.peers[p] == ph;
      SumByMember(Holds(i), s.peers, p);
    }
  }

  lemma SubtractRefundOwners(g: Geometry, H: bytes -> Digest, s: State, k: nat)
    requires Inv(g, s) && Enabled(g, s, SubtractRefund(k))
    ensures Shape(g, Next(g, H, s, SubtractRefund(k)))
    ensures Partition(g, Next(g, H, s, SubtractRefund(k)))
  {
    var s' := Next(g, H, s, SubtractRefund(k));
    var r := Returning(s.refunds[k].piece);
    assert s.refunds[k] in s.refunds;
    forall i | 0 <= i < |g.hashes| ensures Owners(s', i) == 1 {
      assert Owners(s, i) == 1;
      SumByUpdate(Owes(i), s.refunds, k, r);
    }
  }

  lemma SubtractRefundKeeps(g: Geometry, H: bytes -> Digest, s: State, k: nat)
    requires Inv(g, s) && Enabled(g, s, SubtractRefund(k))
    ensures Inv(g, Next(g, H, s, SubtractRefund(k)))
  {
    hide Owners, Done;
    var s' := Next(g, H, s, SubtractRefund(k));
    var n := |g.hashes|;
    RefundIsCounted(g, s, k);
    SubtractRefundOwners(g, H, s, k);
    assert s.refunds[k] in s.refunds;
    SumByUpdate(OwedBelow(n), s.refunds, k, Returning(s.refunds[k].piece));
    RefundedIsNotDone(g, s', k);
    CountedFits(g, s');
  }

  lemma PushRefundOwners(g: Geometry, s: State, k: nat, i: nat)
    requires k < |s.refunds| && i < |s.have|
    ensures var r := s.refunds[k];
            Owners(s.(missing := s.missing + [r.piece], refunds := s.refunds[..k] + s.refunds[k + 1..]), i)
            == Owners(s, i)
  {
    SumByRemove(Owes(i), s.refunds, k);
    SumByAppend<int>(IsPiece(i), s.missing, s.refunds[k].piece);
  }

  lemma PushRefundKeeps(g: Geometry, H: bytes -> Digest, s: State, k: nat)
    requires Inv(g, s) && Enabled(g, s, PushRefund(k))
    ensures Inv(g, Next(g, H, s, PushRefund(k)))
  {
    hide Owners;
    var s' := Next(g, H, s, PushRefund(k));
    assert s.refunds[k] in s.refunds;
    SumByRemove(OwedBelow(|g.hashes|), s.refunds, k);
    forall i | 0 <= i < |g.hashes| ensures Owners(s', i) == 1 {
      PushRefundOwners(g, s, k, i);
    }
  }

  // --- a new session ---

  lemma {:induction false} MissingBelowIs(have: seq<bool>, n: nat, i: nat)
    requires n <= |have| && i < |have|
    ensures SumBy<int>(IsPiece(i), MissingBelow(have, n)) == if i < n && !have[i] then 1 else 0
  {
    if n > 0 {
      hide SumBy;
      var rest := MissingBelow(have, n - 1);
      MissingBelowIs(have, n - 1, i);
      if !have[n - 1] {
        assert MissingBelow(have, n) == rest + [n - 1];
        SumByAppend<int>(IsPiece(i), rest, n - 1);
      } else {
        assert MissingBelow(have, n) == rest + [] == rest;
      }
    }
  }

  lemma {:induction false} MissingBelowMembers(have: seq<bool>, n: nat)
    requires n <= |have|
    ensures forall x :: x in MissingBelow(have, n) ==> x < n && !have[x]
  {
    if n > 0 {
      MissingBelowMembers(have, n - 1);
    }
  }

  // The resume sum is the size of the verified pieces: the last piece's own formula agrees.
  lemma {:induction false} ResumedBytesIs(g: Geometry, have: seq<bool>, n: nat)
    requires WellFormed(g) && n <= |have| == |g.hashes|
    ensures ResumedBytes(g, have, n) == HaveBytes(g, have, n)
  {
    if n > 0 {
      ResumedBytesIs(g, have, n - 1);
      PieceBounds(g, n - 1);
    }
  }

  // A session built from any disk content satisfies the invariant.
  lemma ResumeInv(g: Geometry, H: bytes -> Digest, disk: bytes)
    requires WellFormed(g) && |disk| == g.total
    ensures Inv(g, Resume(g, H, disk))
    ensures var s := Resume(g, H, disk);
            && s.downloaded == HaveBytes(g, s.have, |s.have|)
            && (s.status == Completed <==> forall i :: 0 <= i < |s.have| ==> s.have[i])
  {
    hide MissingBelow, ResumedBytes, HaveBytes, SizeOr0, Owners, BytesBelow, CeilDiv;
    var s := Resume(g, H, disk);
    var n := |g.hashes|;
    MissingBelowMembers(s.have, n);
    forall i | 0 <= i < n ensures Owners(s, i) == 1 {
      ResumeOwns(g, H, disk, i);
    }
    forall k | 0 <= k < |s.missing| ensures s.missing[k] < n {
      assert s.missing[k] in s.missing;
    }
    ResumedBytesIs(g, s.have, n);
    ResumeCounts(g, H, disk);
    CountedFits(g, s);
    forall i | 0 <= i < n && !s.have[i] ensures s.missing != [] {
      ResumeQueues(g, H, disk, i);
    }
    if s.missing != [] {
      assert s.missing[0] in s.missing;
      assert !Done(s, s.missing[0]);
    }
  }

  lemma ResumeOwns(g: Geometry, H: bytes -> Digest, disk: bytes, i: nat)
    requires WellFormed(g) && |disk| == g.total && i < |g.hashes|
    ensures Owners(Resume(g, H, disk), i) == 1
  {
    hide MissingBelow, ResumedBytes;
    MissingBelowIs(Resume(g, H, disk).have, |g.hashes|, i);
  }

  lemma ResumeQueues(g: Geometry, H: bytes -> Digest, disk: bytes, i: nat)
    requires WellFormed(g) && |disk| == g.total && i < |g.hashes| && !Resume(g, H, disk).have[i]
    ensures Resume(g, H, disk).missing != []
  {
    hide MissingBelow, ResumedBytes;
    MissingBelowIs(Resume(g, H, disk).have, |g.hashes|, i);
  }

  lemma ResumeCounts(g: Geometry, H: bytes -> Digest, disk: bytes)
    requires WellFormed(g) && |disk| == g.total
    ensures var s := Resume(g, H, disk); BytesBelow(g, s, |g.hashes|) == HaveBytes(g, s.have, |g.hashes|)
  {
    hide MissingBelow, ResumedBytes, HaveBytes;
  }

  lemma {:induction false} GoneHoldNothing(f: Phase -> nat, n: nat)
    requires f(Gone) == 0
    ensures SumBy(f, seq(n, _ => Gone)) == 0
  {
    if n > 0 {
      GoneHoldNothing(f, n - 1);
      assert seq(n, _ => Gone)[1..] == seq(n - 1, _ => Gone);
    }
  }

  lemma RestartKeeps(g: Geometry, H: bytes -> Digest, s: State)
    requires WellFormed(g) && Enabled(g, s, Restart)
    ensures Inv(g, Next(g, H, s, Restart))
  {
    hide Resume, MissingBelow, ResumedBytes, HaveBytes;
    var r, s' := Resume(g, H, s.disk), Next(g, H, s, Restart);
    ResumeInv(g, H, s.disk);
    assert r.peers == [] && r.refunds == [] by { ResumeHasNoPeers(g, H, s.disk); }
    GoneHoldNothing(CountedBelow(g, |g.hashes|), |s.peers|);
    forall i | 0 <= i < |g.hashes| ensures Owners(s', i) == 1 {
      assert Owners(r, i) == 1;
      GoneHoldNothing(Holds(i), |s.peers|);
    }
  }

  lemma ResumeHasNoPeers(g: Geometry, H: bytes -> Digest, disk: bytes)
    requires WellFormed(g) && |disk| == g.total
    ensures var s := Resume(g, H, disk); s.peers == [] && s.refunds == [] && s.disk == disk
  {
  }

  lemma {:induction false} AllHaveBytes(g: Geometry, have: seq<bool>, n: nat)
    requires WellFormed(g) && n <= |have| == |g.hashes| && forall i :: 0 <= i < n ==> have[i]
    ensures HaveBytes(g, have, n) == SizeBelow(g, n)
  {
    if n > 0 {
      AllHaveBytes(g, have, n - 1);
    }
  }

  // --- every run ---

  // Every step the program can take from a state of the invariant keeps it if and only if it is harmless.
  lemma StepKeepsExactly(g: Geometry, H: bytes -> Digest, s: State, a: Action)
    requires Inv(g, s) && Enabled(g, s, a)
    ensures Inv(g, Next(g, H, s, a)) <==> Harmless(g, s, a)
  {
    hide Shape, Partition, Conservation, Next;
    match a
    case Connect => ConnectKeeps(g, H, s);
    case Write(p, index, begin, block) => WriteKeeps(g, H, s, p, index, begin, block);
    case Credit(p) => CreditExactly(g, H, s, p);
    case Mark(p) => MarkExactly(g, H, s, p);
    case TakeNext(p) => TakeNextKeeps(g, H, s, p);
    case Drop(p) => DropExactly(g, H, s, p);
    case SubtractRefund(k) => SubtractRefundKeeps(g, H, s, k);
    case PushRefund(k) => PushRefundKeeps(g, H, s, k);
    case Restart => RestartKeeps(g, H, s);
  }

  // So for every run, of any number of peers, with any Piece messages and any number of restarts.
  lemma {:induction false} RunKeepsExactly(g: Geometry, H: bytes -> Digest, s: State, run: seq<Action>)
    requires Inv(g, s) && EnabledRun(g, H, s, run)
    ensures AlwaysInv(g, H, s, run) <==> HarmlessRun(g, H, s, run)
    decreases |run|
  {
    hide Inv, Enabled, Harmless, Next;
    InvIsWellFormed(g, s);
    if run != [] {
      StepKeepsExactly(g, H, s, run[0]);
      if Harmless(g, s, run[0]) {
        RunKeepsExactly(g, H, Next(g, H, s, run[0]), run[1..]);
      } else if AlwaysInv(g, H, s, run) {
        AlwaysStarts(g, H, Next(g, H, s, run[0]), run[1..]);
      }
    }
  }

  lemma InvIsWellFormed(g: Geometry, s: State)
    requires Inv(g, s)
    ensures WellFormed(g)
  {
  }

  lemma AlwaysStarts(g: Geometry, H: bytes -> Digest, s: State, run: seq<Action>)
    requires WellFormed(g) && EnabledRun(g, H, s, run) && AlwaysInv(g, H, s, run)
    ensures Inv(g, s)
  {
  }

  // Every step keeps the pieces in range and the guards inside them.
  lemma StepKeepsShape(g: Geometry, H: bytes -> Digest, s: State, a: Action)
    requires WellFormed(g) && Shape(g, s) && Enabled(g, s, a)
    ensures Shape(g, Next(g, H, s, a))
  {
    hide Resume, CeilDiv, Splice;
    match a
    case Connect =>
      if s.missing != [] {
        HeadInRange(g, s);
      }
    case TakeNext(p) =>
      if s.missing != [] {
        HeadInRange(g, s);
      }
      assert s.peers[p] in s.peers;
    case Credit(p) =>
      assert s.peers[p] in s.peers;
      if !s.peers[p].guard.complete {
        TargetIsPieceSize(g, s.peers[p].guard.piece);
      }
    case Drop(p) => assert s.peers[p] in s.peers;
    case Write(p, _, _, _) => assert s.peers[p] in s.peers;
    case Mark(p) => assert s.peers[p] in s.peers;
    case SubtractRefund(k) => assert s.refunds[k] in s.refunds;
    case PushRefund(k) => assert s.refunds[k] in s.refunds;
    case Restart =>
      ResumeInv(g, H, s.disk);
      ResumeHasNoPeers(g, H, s.disk);
  }

  lemma HeadInRange(g: Geometry, s: State)
    requires WellFormed(g) && Shape(g, s) && s.missing != []
    ensures s.missing[0] < |g.hashes| && PieceSize(g, s.missing[0]) > 0
  {
    TargetIsPieceSize(g, s.missing[0]);
  }

  // The same state with its counters put right.
  function Recounted(g: Geometry, s: State): State
    requires WellFormed(g) && Shape(g, s)
  {
    var bytes := BytesBelow(g, s, |g.hashes|);
    s.(downloaded := bytes, status := StatusOf(bytes, g.total))
  }

  lemma RecountedInv(g: Geometry, s: State)
    requires WellFormed(g) && Shape(g, s) && Partition(g, s)
    ensures Inv(g, Recounted(g, s))
  {
    hide BytesBelow, Owners;
    CountsDiffer(g, s, Recounted(g, s));
    CountedFits(g, s);
  }

  // No count is needed for the ownership: whatever Piece messages carry, every piece keeps exactly one owner in a
  // step if and only if the step is no drop in the window and marks nothing that was not held.
  lemma OwnershipExactly(g: Geometry, H: bytes -> Digest, s: State, a: Action)
    requires WellFormed(g) && Shape(g, s) && Partition(g, s) && Enabled(g, s, a)
    ensures Shape(g, Next(g, H, s, a))
    ensures Partition(g, Next(g, H, s, a)) <==> a.Credit? || Harmless(g, s, a)
  {
    hide BytesBelow, Resume, Owners, Shape, Partition;
    var r := Recounted(g, s);
    RecountedInv(g, s);
    match a {
      case Credit(p) => AdvancedOwns(g, r, p);
      case Mark(p) => MarkExactly(g, H, r, p);
      case Drop(p) => DropExactly(g, H, r, p);
      case _ => StepKeepsExactly(g, H, r, a);
    }
    var t := if a.Credit? then Advanced(g, r, a.p) else Next(g, H, r, a);
    assert Next(g, H, s, a) == t.(downloaded := Next(g, H, s, a).downloaded, status := Next(g, H, s, a).status);
    OwnersIgnoreCounts(g, t, Next(g, H, s, a));
  }

  lemma OwnersIgnoreCounts(g: Geometry, t: State, s: State)
    requires WellFormed(g) && Shape(g, t) && s == t.(downloaded := s.downloaded, status := s.status)
    ensures Shape(g, s) && (Partition(g, s) <==> Partition(g, t))
  {
    assert forall i :: 0 <= i < |g.hashes| ==> Owners(s, i) == Owners(t, i);
  }

  // Under the hypotheses every step is harmless, and the hypotheses keep their own precondition.
  lemma ExpectedIsHarmless(g: Geometry, H: bytes -> Digest, s: State, a: Action)
    requires Inv(g, s) && Tidy(g, s) && Enabled(g, s, a) && Expected(g, s, a)
    ensures Harmless(g, s, a) && Inv(g, Next(g, H, s, a)) && Tidy(g, Next(g, H, s, a))
  {
    hide Partition, Conservation;
    StepKeepsExactly(g, H, s, a);
    match a
    case Credit(p) =>
      var ph := s.peers[p];
      assert ph in s.peers;
      AdvanceIs(g, ph.guard, ph.len);
    case Mark(p) => assert s.peers[p] in s.peers;
    case _ =>
  }

  // From any disk content, after any interleaving of any number of peers, across any number of restarts.
  lemma {:induction false} RunKeeps(g: Geometry, H: bytes -> Digest, s: State, run: seq<Action>)
    requires Inv(g, s) && Tidy(g, s) && EnabledRun(g, H, s, run) && ExpectedRun(g, H, s, run)
    ensures HarmlessRun(g, H, s, run) && Inv(g, After(g, H, s, run)) && Tidy(g, After(g, H, s, run))
    decreases |run|
  {
    hide Shape, Partition, Conservation, Tidy, Enabled, Expected, Harmless, Next;
    if run != [] {
      ExpectedIsHarmless(g, H, s, run[0]);
      RunKeeps(g, H, Next(g, H, s, run[0]), run[1..]);
    }
  }

  // --- what the invariant says ---

  lemma TwoOwners(s: State, i: nat, p: nat, q: nat)
    requires i < |s.have| && Owners(s, i) == 1 && p < q < |s.peers|
    ensures !(Holding(s.peers[p], i) && Holding(s.peers[q], i))
  {
    SumByTwoMembers(Holds(i), s.peers, p, q);
  }

  // No two peers ever fetch the same piece.
  lemma NoTwoPeersShareAPiece(g: Geometry, s: State, p: nat, q: nat, i: nat, j: nat)
    requires Inv(g, s) && p < |s.peers| && q < |s.peers| && p != q
    requires Holding(s.peers[p], i) && Holding(s.peers[q], j)
    ensures i != j
  {
    assert s.peers[p] in s.peers;
    assert Owners(s, i) == 1;
    TwoOwners(s, i, if p < q then p else q, if p < q then q else p);
  }

  // The queue holds no piece twice, and none that is held, on its way back or marked.
  lemma QueueIsExclusive(g: Geometry, s: State, k: nat)
    requires Inv(g, s) && k < |s.missing|
    ensures s.missing[k] !in s.missing[..k] && s.missing[k] !in s.missing[k + 1..]
    ensures !s.have[s.missing[k]]
    ensures forall ph :: ph in s.peers ==> !Holding(ph, s.missing[k])
    ensures forall r :: r in s.refunds ==> r.piece != s.missing[k]
  {
    var i := s.missing[k];
    assert Owners(s, i) == 1;
    SumByMember<int>(IsPiece(i), s.missing, k);
    forall j | 0 <= j < |s.missing| && j != k ensures s.missing[j] != i {
      SumByTwoMembers<int>(IsPiece(i), s.missing, if j < k then j else k, if j < k then k else j);
    }
    forall ph | ph in s.peers ensures !Holding(ph, i) {
      var p :| 0 <= p < |s.peers| && s.peers[p] == ph;
      SumByMember(Holds(i), s.peers, p);
    }
    forall r | r in s.refunds ensures r.piece != i {
      var q :| 0 <= q < |s.refunds| && s.refunds[q] == r;
      SumByMember(Owes(i), s.refunds, q);
    }
  }

  // No piece is lost: one that is not marked is queued, held by a peer, or on its way back.
  lemma NoPieceIsLost(g: Geometry, s: State, i: nat)
    requires Inv(g, s) && i < |g.hashes| && !s.have[i]
    ensures i in s.missing || (exists ph :: ph in s.peers && Holding(ph, i))
         || (exists r :: r in s.refunds && r.piece == i)
  {
    assert Owners(s, i) == 1;
    if SumBy<int>(IsPiece(i), s.missing) > 0 {
      var k := SumByWitness<int>(IsPiece(i), s.missing);
    } else if SumBy(Holds(i), s.peers) > 0 {
      var p := SumByWitness(Holds(i), s.peers);
      assert s.peers[p] in s.peers;
    } else {
      var k := SumByWitness(Owes(i), s.refunds);
      assert s.refunds[k] in s.refunds;
    }
  }

  // The torrent is reported complete exactly when every piece is marked or has all its bytes counted; so,
  // when no peer is between counting and marking, exactly when every piece is marked.
  lemma CompletedExactly(g: Geometry, s: State)
    requires Inv(g, s)
    ensures s.status == Completed <==> forall i :: 0 <= i < |g.hashes| ==> Done(s, i)
    ensures (forall ph :: ph in s.peers ==> !ph.Finished?) ==>
              (s.status == Completed <==> forall i :: 0 <= i < |g.hashes| ==> s.have[i])
  {
    hide Owners, BytesBelow;
    CountedFits(g, s);
    if forall ph :: ph in s.peers ==> !ph.Finished? {
      forall i | 0 <= i < |g.hashes| ensures Done(s, i) <==> s.have[i] {
      }
    }
  }

  // The clamp to the size changes a count, or the count is wrong, only in a step that is not harmless; the
  // saturating subtraction never changes a result.
  lemma ClampsNeverBite(g: Geometry, H: bytes -> Digest, s: State, a: Action)
    requires Inv(g, s) && Enabled(g, s, a)
    ensures a.Credit? && Incomplete(s.peers[a.p])
            && s.peers[a.p].guard.offset + s.peers[a.p].len <= SizeOr0(g, s.peers[a.p].guard.piece) ==>
              Next(g, H, s, a).downloaded == s.downloaded + s.peers[a.p].len
    ensures a.SubtractRefund? ==> Next(g, H, s, a).downloaded + s.refunds[a.k].count == s.downloaded
  {
    match a
    case Credit(p) =>
      AdvancedOwns(g, s, p);
      assert s.peers[p] in s.peers;
      if Incomplete(s.peers[p]) && s.peers[p].guard.offset + s.peers[p].len <= SizeOr0(g, s.peers[p].guard.piece) {
        AdvanceIs(g, s.peers[p].guard, s.peers[p].len);
      }
    case SubtractRefund(k) => RefundIsCounted(g, s, k);
    case _ =>
  }

  // An incomplete guard can always ask for more: the u32 subtraction does not underflow and the request is for
  // 1 to 16384 bytes of its own piece; and counting the reply does not wrap its u32 offset.
  lemma GuardsCanAlwaysAsk(g: Geometry, s: State, p: nat)
    requires WellFormed(g) && Shape(g, s) && p < |s.peers| && Incomplete(s.peers[p])
    ensures var guard := s.peers[p].guard;
            && guard.piece < |g.hashes| && guard.offset <= PieceLength32(g)
            && 1 <= GetRequestLength(g, guard.piece, guard.offset) <= BLOCK
            && guard.offset + GetRequestLength(g, guard.piece, guard.offset) <= PieceSize(g, guard.piece) < U32
  {
    var guard := s.peers[p].guard;
    assert s.peers[p] in s.peers;
    TargetIsPieceSize(g, guard.piece);
    RequestLengthIsRest(g, guard.piece, guard.offset);
  }
}
