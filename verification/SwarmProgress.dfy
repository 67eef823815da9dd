// No state of the scheduler is a dead end: whatever happened so far, some continuation completes the torrent.
module SwarmProgress {
  import opened Prelude
  import opened Geometry
  import opened Swarm
  import opened SwarmProofs
  import opened SwarmTruth

  // --- the measure: refunds first, then blocks to count, then bytes, queue and marks ---

  function RefundWeight(r: Refund): nat { if r.Owed? then 2 else 1 }

  function Uncounted(ph: Phase): nat { if ph.Written? then 1 else 0 }

  function MarkWeight(ph: Phase): nat { if ph.Finished? then 2 else if ph.Marked? then 1 else 0 }

  function BytesLeft(g: Geometry, s: State): nat { SaturatingSub(g.total, s.downloaded) }

  // `t` is nearer to completion than `s`.
  predicate Nearer(g: Geometry, s: State, t: State) {
    var r, r' := SumBy(RefundWeight, s.refunds), SumBy(RefundWeight, t.refunds);
    var u, u' := SumBy(Uncounted, s.peers), SumBy(Uncounted, t.peers);
    var m, m' := SumBy(MarkWeight, s.peers), SumBy(MarkWeight, t.peers);
    || r' < r
    || (r' == r && u' < u)
    || (r' == r && u' == u && BytesLeft(g, t) < BytesLeft(g, s))
    || (r' == r && u' == u && BytesLeft(g, t) == BytesLeft(g, s) && |t.missing| < |s.missing|)
    || (r' == r && u' == u && BytesLeft(g, t) == BytesLeft(g, s) && |t.missing| == |s.missing| && m' < m)
  }

  lemma SubtractIsNearer(g: Geometry, H: bytes -> Digest, s: State, k: nat)
    requires WellFormed(g) && Enabled(g, s, SubtractRefund(k))
    ensures Nearer(g, s, Next(g, H, s, SubtractRefund(k)))
  {
    SumByUpdate(RefundWeight, s.refunds, k, Returning(s.refunds[k].piece));
  }

  lemma PushIsNearer(g: Geometry, H: bytes -> Digest, s: State, k: nat)
    requires WellFormed(g) && Enabled(g, s, PushRefund(k))
    ensures Nearer(g, s, Next(g, H, s, PushRefund(k)))
  {
    SumByRemove(RefundWeight, s.refunds, k);
  }

  lemma CreditIsNearer(g: Geometry, H: bytes -> Digest, s: State, p: nat)
    requires WellFormed(g) && Enabled(g, s, Credit(p))
    ensures Nearer(g, s, Next(g, H, s, Credit(p)))
  {
    var ph := s.peers[p];
    SumByUpdate(Uncounted, s.peers, p, Advance(g, ph.guard, ph.len));
  }

  lemma MarkIsNearer(g: Geometry, H: bytes -> Digest, s: State, p: nat)
    requires WellFormed(g) && Enabled(g, s, Mark(p))
    ensures Nearer(g, s, Next(g, H, s, Mark(p)))
  {
    SumByUpdate(Uncounted, s.peers, p, Marked(s.peers[p].guard));
    SumByUpdate(MarkWeight, s.peers, p, Marked(s.peers[p].guard));
  }

  lemma TakeIsNearer(g: Geometry, H: bytes -> Digest, s: State, p: nat)
    requires WellFormed(g) && Enabled(g, s, TakeNext(p))
    ensures Nearer(g, s, Next(g, H, s, TakeNext(p)))
  {
    var ph := Waiting(TakePiece(s.missing, s.peers[p].guard).1);
    SumByUpdate(Uncounted, s.peers, p, ph);
    SumByUpdate(MarkWeight, s.peers, p, ph);
  }

  lemma ConnectIsNearer(g: Geometry, H: bytes -> Digest, s: State)
    requires WellFormed(g) && s.missing != []
    ensures Nearer(g, s, Next(g, H, s, Connect))
  {
    SumByAppend(Uncounted, s.peers, Waiting(Guard(s.missing[0], 0, false)));
    SumByAppend(MarkWeight, s.peers, Waiting(Guard(s.missing[0], 0, false)));
  }

  // The Piece message that answers peer `p`, with the true bytes it asks for.
  function Answer(g: Geometry, truth: bytes, s: State, p: nat): (a: Action)
    requires |truth| == g.total && Inv(g, s) && p < |s.peers| && s.peers[p].Waiting? && Incomplete(s.peers[p])
    ensures a.Write? && a.p == p && |a.block| > 0
    ensures Enabled(g, s, a) && Expected(g, s, a) && Honest(g, truth, a)
  {
    var guard := s.peers[p].guard;
    GuardsCanAlwaysAsk(g, s, p);
    PieceBounds(g, guard.piece);
    var at := PieceStart(g, guard.piece) + guard.offset;
    Write(p, guard.piece, guard.offset, truth[at..at + GetRequestLength(g, guard.piece, guard.offset)])
  }

  // Receiving and counting it.
  lemma BlockIsNearer(g: Geometry, H: bytes -> Digest, s: State, a: Action)
    requires Inv(g, s) && Tidy(g, s) && a.Write? && Enabled(g, s, a) && Expected(g, s, a) && |a.block| > 0
    ensures var t := Next(g, H, s, a);
            && Inv(g, t) && Tidy(g, t) && Enabled(g, t, Credit(a.p)) && Expected(g, t, Credit(a.p))
            && Nearer(g, s, Next(g, H, t, Credit(a.p)))
  {
    hide Shape, Partition, Conservation;
    var t := Next(g, H, s, a);
    ExpectedIsHarmless(g, H, s, a);
    ExpectedIsHarmless(g, H, t, Credit(a.p));
    ClampsNeverBite(g, H, t, Credit(a.p));
    DownloadedFits(g, Next(g, H, t, Credit(a.p)));
    var ph := t.peers[a.p];
    SumByUpdate(Uncounted, s.peers, a.p, ph);
    SumByUpdate(Uncounted, t.peers, a.p, Advance(g, ph.guard, ph.len));
  }

  lemma DownloadedFits(g: Geometry, s: State)
    requires Inv(g, s)
    ensures s.downloaded <= g.total
  {
    CountedFits(g, s);
  }

  // --- some step leads nearer, or all is done ---

  predicate AllMarked(s: State) { forall i :: 0 <= i < |s.have| ==> s.have[i] }

  // A run of expected steps with true blocks, and no restart.
  predicate CleanRun(g: Geometry, H: bytes -> Digest, truth: bytes, s: State, run: seq<Action>)
    requires WellFormed(g)
    decreases |run|
  {
    run == [] || (
      && Enabled(g, s, run[0]) && Expected(g, s, run[0]) && Honest(g, truth, run[0]) && !run[0].Restart?
      && CleanRun(g, H, truth, Next(g, H, s, run[0]), run[1..]))
  }

  lemma {:induction false} CleanRunIs(g: Geometry, H: bytes -> Digest, truth: bytes, s: State, run: seq<Action>)
    requires WellFormed(g) && CleanRun(g, H, truth, s, run)
    ensures EnabledRun(g, H, s, run) && ExpectedRun(g, H, s, run) && HonestRun(g, truth, run)
    ensures forall good :: RestartsGood(g, H, good, s, run)
    decreases |run|
  {
    hide Enabled, Expected, Honest, Next;
    if run != [] {
      CleanRunIs(g, H, truth, Next(g, H, s, run[0]), run[1..]);
      assert run == [run[0]] + run[1..];
    }
  }

  // One or two clean steps towards completion.
  lemma SomeStep(g: Geometry, H: bytes -> Digest, truth: bytes, s: State) returns (run: seq<Action>)
    requires Inv(g, s) && Tidy(g, s) && |truth| == g.total && !AllMarked(s)
    ensures CleanRun(g, H, truth, s, run) && EnabledRun(g, H, s, run)
    ensures var t := After(g, H, s, run); Inv(g, t) && Tidy(g, t) && Nearer(g, s, t)
  {
    hide Shape, Partition, Conservation, Tidy, Nearer, SumBy, Honest;
    if s.refunds != [] && s.refunds[0].Owed? {
      SubtractIsNearer(g, H, s, 0);
      run := OneStep(g, H, truth, s, SubtractRefund(0));
    } else if s.refunds != [] {
      PushIsNearer(g, H, s, 0);
      run := OneStep(g, H, truth, s, PushRefund(0));
    } else if p :| 0 <= p < |s.peers| && s.peers[p].Written? {
      CreditIsNearer(g, H, s, p);
      run := OneStep(g, H, truth, s, Credit(p));
    } else if p :| 0 <= p < |s.peers| && s.peers[p].Finished? {
      MarkIsNearer(g, H, s, p);
      run := OneStep(g, H, truth, s, Mark(p));
    } else if p :| 0 <= p < |s.peers| && s.peers[p].Marked? {
      TakeIsNearer(g, H, s, p);
      run := OneStep(g, H, truth, s, TakeNext(p));
    } else if p :| 0 <= p < |s.peers| && Incomplete(s.peers[p]) {
      var a := Answer(g, truth, s, p);
      BlockIsNearer(g, H, s, a);
      run := TwoSteps(g, H, truth, s, a, Credit(p));
    } else {
      SomethingQueued(g, s);
      ConnectIsNearer(g, H, s);
      run := OneStep(g, H, truth, s, Connect);
    }
  }

  lemma OneStep(g: Geometry, H: bytes -> Digest, truth: bytes, s: State, a: Action) returns (run: seq<Action>)
    requires Inv(g, s) && Tidy(g, s) && Enabled(g, s, a) && Expected(g, s, a) && !a.Write? && !a.Restart?
    ensures run == [a] && CleanRun(g, H, truth, s, run) && EnabledRun(g, H, s, run)
    ensures After(g, H, s, run) == Next(g, H, s, a) && Inv(g, Next(g, H, s, a)) && Tidy(g, Next(g, H, s, a))
  {
    hide Shape, Partition, Conservation, Tidy, Enabled, Expected, Next;
    ExpectedIsHarmless(g, H, s, a);
    run := [a];
    assert run[1..] == [];
  }

  lemma TwoSteps(g: Geometry, H: bytes -> Digest, truth: bytes, s: State, a: Action, b: Action)
    returns (run: seq<Action>)
    requires Inv(g, s) && Tidy(g, s) && Enabled(g, s, a) && Expected(g, s, a) && Honest(g, truth, a) && !a.Restart?
    requires !b.Write? && !b.Restart? && Enabled(g, Next(g, H, s, a), b) && Expected(g, Next(g, H, s, a), b)
    ensures CleanRun(g, H, truth, s, run) && EnabledRun(g, H, s, run)
    ensures After(g, H, s, run) == Next(g, H, Next(g, H, s, a), b)
    ensures Inv(g, After(g, H, s, run)) && Tidy(g, After(g, H, s, run))
  {
    hide Shape, Partition, Conservation, Tidy, Enabled, Expected, Next, Honest;
    ExpectedIsHarmless(g, H, s, a);
    var rest := OneStep(g, H, truth, Next(g, H, s, a), b);
    run := [a] + rest;
    assert run[1..] == rest;
  }

  lemma SomethingQueued(g: Geometry, s: State)
    requires Inv(g, s) && !AllMarked(s) && s.refunds == []
    requires forall p :: 0 <= p < |s.peers| ==> !Incomplete(s.peers[p]) && !s.peers[p].Finished?
    ensures s.missing != []
  {
    var i: nat :| i < |s.have| && !s.have[i];
    NoPieceIsLost(g, s, i);
  }

  // --- completion is always within reach ---

  lemma {:induction false} RunsConcat(g: Geometry, H: bytes -> Digest, truth: bytes, s: State,
                                      a: seq<Action>, b: seq<Action>)
    requires WellFormed(g) && EnabledRun(g, H, s, a) && CleanRun(g, H, truth, After(g, H, s, a), b)
    ensures EnabledRun(g, H, s, a + b) && EnabledRun(g, H, After(g, H, s, a), b)
    ensures CleanRun(g, H, truth, s, a) ==> CleanRun(g, H, truth, s, a + b)
    ensures ExpectedRun(g, H, s, a) ==> ExpectedRun(g, H, s, a + b)
    ensures forall good :: RestartsGood(g, H, good, s, a) ==> RestartsGood(g, H, good, s, a + b)
    ensures HonestRun(g, truth, a) ==> HonestRun(g, truth, a + b)
    ensures After(g, H, s, a + b) == After(g, H, After(g, H, s, a), b)
    decreases |a|
  {
    hide Enabled, Expected, Next, Honest;
    CleanRunIs(g, H, truth, After(g, H, s, a), b);
    if a == [] {
      assert a + b == b;
    } else {
      assert (a + b)[1..] == a[1..] + b;
      RunsConcat(g, H, truth, Next(g, H, s, a[0]), a[1..], b);
    }
  }

  // From every state of the invariant some clean run marks every piece: the scheduler strands no piece and
  // no interleaving leads into a dead end.
  lemma {:induction false} CanAlwaysComplete(g: Geometry, H: bytes -> Digest, truth: bytes, s: State)
    returns (run: seq<Action>)
    requires Inv(g, s) && Tidy(g, s) && |truth| == g.total
    ensures CleanRun(g, H, truth, s, run) && EnabledRun(g, H, s, run)
    ensures Inv(g, After(g, H, s, run)) && AllMarked(After(g, H, s, run))
    decreases SumBy(RefundWeight, s.refunds), SumBy(Uncounted, s.peers), BytesLeft(g, s), |s.missing|,
      SumBy(MarkWeight, s.peers)
  {
    hide Shape, Partition, Conservation, Tidy, Enabled, Expected, Next, Honest, SumBy, AllMarked;
    if AllMarked(s) {
      run := [];
    } else {
      var first := SomeStep(g, H, truth, s);
      var rest := CanAlwaysComplete(g, H, truth, After(g, H, s, first));
      RunsConcat(g, H, truth, s, first, rest);
      run := first + rest;
    }
  }

  // So an honest download, however it went, can be continued to one whose files are exactly the true content.
  lemma DownloadsCanComplete(g: Geometry, H: bytes -> Digest, truth: bytes, disk: bytes, run: seq<Action>)
    returns (more: seq<Action>)
    requires HonestDownload(g, H, truth, disk, run) && NoFalseMatch(g, H, truth, disk)
    requires RestartsGood(g, H, IsTrue(g, truth), Resume(g, H, disk), run)
    ensures HonestDownload(g, H, truth, disk, run + more)
    ensures var s := After(g, H, Resume(g, H, disk), run + more);
            s.status == Completed && AllMarked(s) && s.disk == truth
  {
    hide Enabled, Expected, Next, Honest, Resume, ResumesGood, Shape, Partition, Conservation, Tidy, Sound,
      RestartsGood, AllMarked, EnabledRun, ExpectedRun, HonestRun, CleanRun, After, CeilDiv, IsTrue;
    var s := Resume(g, H, disk);
    ResumeSound(g, H, truth, IsTrue(g, truth), disk);
    RunKeeps(g, H, s, run);
    more := CanAlwaysComplete(g, H, truth, After(g, H, s, run));
    RunsConcat(g, H, truth, s, run, more);
    HonestRunsHoldTheTruth(g, H, truth, disk, run + more);
    AllMarkedIsCompleted(g, After(g, H, s, run + more));
  }

  lemma AllMarkedIsCompleted(g: Geometry, s: State)
    requires Inv(g, s) && AllMarked(s)
    ensures s.status == Completed
  {
    CompletedExactly(g, s);
  }
}
