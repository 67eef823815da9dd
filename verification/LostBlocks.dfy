// What becomes of a piece that was marked before it was on disk, when the connection ends too early.
module LostBlocks {
  import opened Prelude
  import opened Geometry
  import opened Swarm
  import opened SwarmTruth
  import opened Network
  import opened NetworkOrder
  import opened Sharing
  import opened Losses
  import opened DoubledRequests

  // --- an engine that has nothing to fetch ---

  // Nothing is missing or being returned, no peer loop fetches, and nothing can come to one.
  predicate Idle(net: Net, n: nat) {
    && Wired(net) && n < |net.nodes| && net.nodes[n].missing == [] && net.nodes[n].refunds == []
    && (forall ph :: ph in net.nodes[n].peers ==> ph.Gone? || (ph.Waiting? && ph.guard.complete))
    && (forall e :: 0 <= e < |net.ends| && net.ends[e].node == n ==> NothingComes(net, e))
  }

  predicate NothingComes(net: Net, e: nat)
    requires e < |net.ends|
  {
    Other(e) < |net.ends| && (!Ended(net, e) ==> Pending(net, e) == [])
  }

  lemma IdleStep(g: Geometry, H: bytes -> Digest, net: Net, ev: Event, n: nat)
    requires WellFormed(g) && Possible(g, net, ev) && Idle(net, n) && ev != Reset(n)
    ensures n < |Happen(g, H, net, ev).nodes|
    ensures var s, s' := net.nodes[n], Happen(g, H, net, ev).nodes[n];
            && s'.missing == [] && s'.refunds == [] && s'.disk == s.disk && s'.have == s.have
            && forall ph :: ph in s'.peers ==> ph.Gone? || (ph.Waiting? && ph.guard.complete)
  {
    hide Happen, Next, Wired, RepliesIn, RequestsIn;
    EndsAfter(g, H, net, ev);
    var s, step := net.nodes[n], StepOf(g, net, ev);
    if NodeOf(g, net, ev) == n && step.Some? {
      IdleActs(g, net, ev, n);
      IdleNext(g, H, s, step.value);
    }
  }

  lemma IdleActs(g: Geometry, net: Net, ev: Event, n: nat)
    requires Possible(g, net, ev) && Idle(net, n) && ev != Reset(n)
    requires NodeOf(g, net, ev) == n && StepOf(g, net, ev).Some?
    ensures StepOf(g, net, ev).value.Connect? || StepOf(g, net, ev).value.Drop?
  {
    hide NothingComes, Wired;
    if ActorOf(ev).Some? {
      WiredAt(net, ActorOf(ev).value);
    }
    if ev.Read? {
      IdleReadsNoPiece(g, net, n, ev.e);
    }
  }

  lemma IdleReadsNoPiece(g: Geometry, net: Net, n: nat, e: nat)
    requires Possible(g, net, Read(e)) && Idle(net, n) && net.ends[e].node == n
    ensures !net.ends[e].inbox[0].Piece?
  {
    hide Wired, RepliesIn, RequestsIn;
    HeadOf(net.ends[e].inbox);
    assert NothingComes(net, e);
    RunningIsNotEnded(net, e);
  }

  lemma IdleNext(g: Geometry, H: bytes -> Digest, s: State, a: Action)
    requires WellFormed(g) && Enabled(g, s, a) && (a.Connect? || a.Drop?) && s.missing == [] && s.refunds == []
    requires forall ph :: ph in s.peers ==> ph.Gone? || (ph.Waiting? && ph.guard.complete)
    ensures var s' := Next(g, H, s, a);
            && s'.missing == [] && s'.refunds == [] && s'.disk == s.disk && s'.have == s.have
            && forall ph :: ph in s'.peers ==> ph.Gone? || (ph.Waiting? && ph.guard.complete)
  {
    if a.Drop? {
      assert s.peers[a.p] in s.peers;
    }
  }

  lemma NothingStillComes(g: Geometry, H: bytes -> Digest, net: Net, ev: Event, n: nat, e: nat)
    requires WellFormed(g) && Possible(g, net, ev) && Idle(net, n) && ev != Reset(n)
    requires e < |Happen(g, H, net, ev).ends| && Happen(g, H, net, ev).ends[e].node == n
    ensures NothingComes(Happen(g, H, net, ev), e)
  {
    hide Happen, Next, Wired, RepliesIn, RequestsIn, Ask, PhaseAt;
    var net' := Happen(g, H, net, ev);
    EndsAfter(g, H, net, ev);
    WiredAtEnd(net);
    if e < |net.ends| {
      SameNode(g, H, net, ev, e);
      assert NothingComes(net, e);
      PendingIs(g, H, net, ev, e);
      if Ended(net, e) {
        StaysEnded(g, H, net, ev, e);
      } else {
        if ev == Read(e) {
          HeadOf(net.ends[e].inbox);
          IdleReads(g, H, net, n, e);
        } else if ev == Read(Other(e)) {
          HeadOf(net.ends[Other(e)].inbox);
        }
        IdleProceedsNot(g, net, n, e);
      }
    } else {
      OneMessage(Unchoke);
      NewEnds(g, H, net, ev, e);
      NewEnds(g, H, net, ev, Other(e));
    }
  }

  lemma IdleProceedsNot(g: Geometry, net: Net, n: nat, e: nat)
    requires Idle(net, n) && e < |net.ends| && net.ends[e].node == n
    ensures !Possible(g, net, Proceed(e))
  {
    hide NothingComes, Wired;
    WiredAt(net, e);
  }

  lemma IdleReads(g: Geometry, H: bytes -> Digest, net: Net, n: nat, e: nat)
    requires WellFormed(g) && Possible(g, net, Read(e)) && Idle(net, n) && net.ends[e].node == n
    ensures net.ends[e].inbox[0].Unchoke? ==> Sent(g, H, net, Read(e)) == []
  {
    hide NothingComes, Wired;
    WiredAt(net, e);
    CompleteAsksNothing(g, PhaseAt(net, e).guard);
  }

  lemma StaysEnded(g: Geometry, H: bytes -> Digest, net: Net, ev: Event, e: nat)
    requires WellFormed(g) && Possible(g, net, ev) && e < |net.ends| && Ended(net, e)
    ensures e < |Happen(g, H, net, ev).ends| && Ended(Happen(g, H, net, ev), e)
  {
    hide Happen, PhaseAt;
    if Ordinary(ev) {
      LivesOn(g, H, net, ev, e);
    } else {
      StillIs(g, H, net, ev, e);
    }
  }

  // So it stays as it is until its next session, whatever the others do.
  lemma {:induction false} StaysAsItIs(g: Geometry, H: bytes -> Digest, net: Net, n: nat, run: seq<Event>)
    requires WellFormed(g) && Idle(net, n) && PossibleRun(g, H, net, run) && forall ev :: ev in run ==> ev != Reset(n)
    ensures Idle(Outcome(g, H, net, run), n) && n < |Outcome(g, H, net, run).nodes|
    ensures var s, s' := net.nodes[n], Outcome(g, H, net, run).nodes[n]; s'.disk == s.disk && s'.have == s.have
    decreases |run|
  {
    hide Possible, Happen, NothingComes, Wired;
    if run != [] {
      assert run[0] in run && forall ev :: ev in run[1..] ==> ev in run;
      var net' := Happen(g, H, net, run[0]);
      WiringAfter(g, H, net, run[0]);
      IdleStep(g, H, net, run[0], n);
      forall e | 0 <= e < |net'.ends| && net'.ends[e].node == n ensures NothingComes(net', e) {
        NothingStillComes(g, H, net, run[0], n, e);
      }
      StaysAsItIs(g, H, net', n, run[1..]);
    }
  }

  // --- a connection that ends too early ---

  // Engine n marks its piece while only the first half is on disk, and then its connection ends: the second half does
  // not come in any continuation in which n starts no new session.
  lemma HangupLosesHalf(g: Geometry, H: bytes -> Digest, truth: bytes, disks: seq<bytes>, n: nat, m: nat)
    returns (run: seq<Event>)
    requires TwoBlocks(g, H, truth) && forall d :: d in disks ==> |d| == g.total
    requires n < |disks| && m < |disks| && disks[m] == truth && H(disks[n]) != g.hashes[0]
    requires disks[n][BLOCK..] != truth[BLOCK..]
    ensures PossibleRun(g, H, Start(g, H, disks), run)
    ensures var net := Outcome(g, H, Start(g, H, disks), run);
            && |net.nodes| == |disks| && NeverChanges(g, H, net, n)
            && net.nodes[n].have == [true] && net.nodes[n].disk == truth[..BLOCK] + disks[n][BLOCK..]
            && !EngineSettled(g, truth, net, n)
  {
    hide Start, Outcome, PossibleRun, Wired, EngineSettled, Truth, Idle, NeverChanges, Happen, Possible, PieceAt, Ended,
      PieceSize, TargetSize, Ask, Resume;
    Sizes(g, H, truth);
    var first, net := FirstMarks(g, H, truth, disks, n, m);
    EndsWithHangup(g, H, net, n, m);
    var net' := Happen(g, H, net, Hangup(0));
    run := first + [Hangup(0)];
    SingleEvent(g, H, net, Hangup(0));
    EventsConcat(g, H, Start(g, H, disks), first, [Hangup(0)]);
    assert net'.nodes[n].disk[BLOCK..] == disks[n][BLOCK..];
    HalfIsNotSettled(g, H, truth, net', n);
    IdleNeverChanges(g, H, net', n);
  }

  // In no continuation in which the engine starts no new session do its marks and its disk change.
  ghost predicate NeverChanges(g: Geometry, H: bytes -> Digest, net: Net, n: nat)
    requires WellFormed(g) && n < |net.nodes|
  {
    forall more :: PossibleRun(g, H, net, more) && (forall ev :: ev in more ==> ev != Reset(n)) ==>
      && n < |Outcome(g, H, net, more).nodes|
      && Outcome(g, H, net, more).nodes[n].have == net.nodes[n].have
      && Outcome(g, H, net, more).nodes[n].disk == net.nodes[n].disk
  }

  lemma IdleNeverChanges(g: Geometry, H: bytes -> Digest, net: Net, n: nat)
    requires WellFormed(g) && n < |net.nodes| && Idle(net, n)
    ensures NeverChanges(g, H, net, n)
  {
    hide Outcome, PossibleRun, Idle;
    forall more | PossibleRun(g, H, net, more) && (forall ev :: ev in more ==> ev != Reset(n))
      ensures n < |Outcome(g, H, net, more).nodes|
      ensures Outcome(g, H, net, more).nodes[n].have == net.nodes[n].have
      ensures Outcome(g, H, net, more).nodes[n].disk == net.nodes[n].disk
    {
      StaysAsItIs(g, H, net, n, more);
      IdleExists(Outcome(g, H, net, more), n);
    }
  }

  lemma IdleExists(net: Net, n: nat)
    requires Idle(net, n)
    ensures n < |net.nodes|
  {
  }

  lemma EndsWithHangup(g: Geometry, H: bytes -> Digest, net: Net, n: nat, m: nat)
    requires WellFormed(g) && Wired(net) && n < |net.nodes| && n != m
    requires net.nodes[n].missing == [] && net.nodes[n].refunds == []
    requires |net.ends| == 2 && net.ends[0].node == n && net.ends[1].node == m && net.ends[0].peer.Some?
    requires var s, p := net.nodes[n], net.ends[0].peer.value;
             && p < |s.peers| && s.peers[p].Marked? && s.peers[p].guard.complete
             && forall q :: 0 <= q < |s.peers| && q != p ==> s.peers[q].Gone?
    ensures Possible(g, net, Hangup(0))
    ensures var net' := Happen(g, H, net, Hangup(0));
            && Idle(net', n) && |net'.nodes| == |net.nodes| && Ended(net', 0) && |net'.ends| == 2
            && net'.ends[0].node == n && net'.ends[1].node == m
            && net'.nodes[n].have == net.nodes[n].have && net'.nodes[n].disk == net.nodes[n].disk
  {
    hide Wired, Happen;
    assert Possible(g, net, Hangup(0));
    WiringAfter(g, H, net, Hangup(0));
    EndsAfter(g, H, net, Hangup(0));
    StillIs(g, H, net, Hangup(0), 0);
    StillIs(g, H, net, Hangup(0), 1);
  }

  lemma HalfIsNotSettled(g: Geometry, H: bytes -> Digest, truth: bytes, net: Net, n: nat)
    requires TwoBlocks(g, H, truth) && n < |net.nodes| && |net.nodes[n].disk| == 2 * BLOCK && net.nodes[n].disk != truth
    requires net.nodes[n].have == [true] && |net.ends| == 2 && net.ends[0].node == n && net.ends[1].node != n
    requires Ended(net, 0)
    ensures WellFormed(g) && |truth| == g.total && !EngineSettled(g, truth, net, n)
  {
    hide SettledRange, PieceAt, PieceStart, PieceSize, TargetSize, Ask, Truth, NothingUnderWay, Ended;
    Sizes(g, H, truth);
    TruthHolds(g, H, truth);
    OnlyEndOver(net, n);
    assert PieceAt(g, net.nodes[n].disk, 0) == net.nodes[n].disk && PieceAt(g, truth, 0) == truth;
  }

  lemma OnlyEndOver(net: Net, n: nat)
    requires |net.ends| == 2 && net.ends[0].node == n && net.ends[1].node != n && Ended(net, 0)
    ensures NothingUnderWay(net, 0, n)
  {
    hide RepliesIn, RequestsIn;
    NothingForGone(net, 0);
  }
}
