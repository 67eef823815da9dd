// When engines that fetch from each other lose bytes that they rely on, or are sent false ones. They lose one exactly
// when a connection ends, a request for it is not served, or a peer loop goes on behind one that has ended, while the
// byte is neither true on disk nor under way elsewhere.
module Losses {
  import opened Prelude
  import opened Geometry
  import opened Swarm
  import opened SwarmProofs
  import opened SwarmTruth
  import opened Network
  import opened NetworkOrder
  import opened Sharing

  // --- what an event leaves under way ---

  predicate EndedAfter(net: Net, ev: Event, e: nat)
    requires e < |net.ends|
  {
    net.ends[e].peer.Some? && (PhaseAt(net, e).Gone? || ev == Hangup(e) || ev == Reset(net.ends[e].node))
  }

  // What is in the inbox when the event has read its first message.
  function Unread(net: Net, ev: Event, e: nat): seq<Message>
    requires e < |net.ends|
  {
    if ev == Read(e) && net.ends[e].inbox != [] then net.ends[e].inbox[1..] else net.ends[e].inbox
  }

  // What can still arrive, of what could before, when the event is the end of peer loops or the reading of a request
  // that is not served.
  function StillUnderWay(net: Net, ev: Event, e: nat): seq<Message>
    requires e < |net.ends| && Other(e) < |net.ends|
  {
    if PhaseAt(net, e).Gone? || EndedAfter(net, ev, e) then []
    else
      RepliesIn(net.ends[e].inbox) + if EndedAfter(net, ev, Other(e)) then [] else RequestsIn(Unread(net, ev, Other(e)))
  }

  predicate StillAwaited(g: Geometry, net: Net, base: nat, ev: Event, n: nat, x: nat) {
    exists e :: base <= e < |net.ends| && net.ends[e].node == n && Other(e) < |net.ends|
                && exists m :: m in StillUnderWay(net, ev, e) && IsAbout(g, m, x)
  }

  predicate LoopRelies(g: Geometry, ph: Phase, more: bool, x: nat)
    requires WellFormed(g)
  {
    && !ph.Gone?
    && var start := PieceStart(g, ph.guard.piece);
       || start <= x < start + Counted(g, ph)
       || (Incomplete(ph) && (ph.Written? || more)
           && start + ph.guard.offset <= x < start + ph.guard.offset + Needed(g, ph.guard))
  }

  // A mark or a guard that is left relies on the byte.
  predicate StillRelied(g: Geometry, net: Net, base: nat, ev: Event, n: nat, x: nat)
    requires WellFormed(g)
  {
    && ev != Reset(n) && n < |net.nodes|
    && ((exists i :: 0 <= i < |g.hashes| && i < |net.nodes[n].have| && net.nodes[n].have[i]
                     && PieceStart(g, i) <= x < PieceStart(g, i) + PieceSize(g, i))
        || exists e :: base <= e < |net.ends| && net.ends[e].node == n && Other(e) < |net.ends|
                       && !EndedAfter(net, ev, e)
                       && LoopRelies(g, PhaseAt(net, e), StillUnderWay(net, ev, e) != [], x))
  }

  // A byte is still relied on, but it is not true, and it was under way only where the event ends it.
  predicate Loses(g: Geometry, truth: bytes, net: Net, base: nat, group: set<nat>, ev: Event)
    requires WellFormed(g)
  {
    exists n, x :: n in group && 0 <= x < g.total && LosesByte(g, truth, net, base, ev, n, x)
  }

  predicate LosesByte(g: Geometry, truth: bytes, net: Net, base: nat, ev: Event, n: nat, x: nat)
    requires WellFormed(g)
  {
    && n < |net.nodes| && x < g.total && x < |truth| && x < |net.nodes[n].disk|
    && StillRelied(g, net, base, ev, n, x) && net.nodes[n].disk[x] != truth[x]
    && !StillAwaited(g, net, base, ev, n, x)
  }

  lemma StillIs(g: Geometry, H: bytes -> Digest, net: Net, ev: Event, e: nat)
    requires WellFormed(g) && Possible(g, net, ev) && !Regular(g, net, ev) && e < |net.ends|
    ensures var net' := Happen(g, H, net, ev);
            && |net'.ends| == |net.ends|
            && net'.ends[e].node == net.ends[e].node && net'.ends[e].inbox == Unread(net, ev, e)
            && PhaseAt(net', e) == (if EndedAfter(net, ev, e) then Gone else PhaseAt(net, e))
            && (Ended(net', e) <==> EndedAfter(net, ev, e))
  {
    hide Happen, NodeAfter, PhaseAfter, Wired, PhaseAt, Refuses;
    if Ordinary(ev) {
      RefusedIs(g, H, net, ev, e);
    } else {
      EndedIs(g, H, net, ev, e);
    }
  }

  lemma EndedIs(g: Geometry, H: bytes -> Digest, net: Net, ev: Event, e: nat)
    requires WellFormed(g) && Possible(g, net, ev) && !Ordinary(ev) && e < |net.ends|
    ensures var net' := Happen(g, H, net, ev);
            && |net'.ends| == |net.ends|
            && net'.ends[e].node == net.ends[e].node && net'.ends[e].inbox == net.ends[e].inbox
            && PhaseAt(net', e) == (if EndedAfter(net, ev, e) then Gone else PhaseAt(net, e))
            && (Ended(net', e) <==> EndedAfter(net, ev, e))
  {
    hide Happen, NodeAfter, PhaseAfter, Wired;
    Effect(g, H, net, ev);
    EndsAfter(g, H, net, ev);
    if ev == Hangup(e) {
      HungUpIsGone(g, H, net, e);
    }
    assert ActorOf(ev).Some? ==> ev.Hangup?;
    UnbegunIsGone(net, e);
  }

  lemma RefusedIs(g: Geometry, H: bytes -> Digest, net: Net, ev: Event, e: nat)
    requires WellFormed(g) && Possible(g, net, ev) && Refuses(g, net, ev) && e < |net.ends|
    ensures var net' := Happen(g, H, net, ev);
            && |net'.ends| == |net.ends|
            && net'.ends[e].node == net.ends[e].node && net'.ends[e].inbox == Unread(net, ev, e)
            && PhaseAt(net', e) == PhaseAt(net, e)
            && (Ended(net', e) <==> PhaseAt(net, e).Gone? && net.ends[e].peer.Some?)
  {
    hide Happen, NodeAfter, PhaseAfter, Wired, PhaseAt, Sent, Reply;
    Effect(g, H, net, ev);
    EndsAfter(g, H, net, ev);
    ReadsFirst(g, net, ev.e);
    RefusedKeeps(g, H, net, ev);
    assert net.ends[e].inbox + [] == net.ends[e].inbox;
  }

  lemma RefusedKeeps(g: Geometry, H: bytes -> Digest, net: Net, ev: Event)
    requires WellFormed(g) && Possible(g, net, ev) && Refuses(g, net, ev)
    ensures Sent(g, H, net, ev) == [] && PhaseAfter(g, H, net, ev) == PhaseAt(net, ev.e)
    ensures NodeAfter(g, H, net, ev) == net.nodes[NodeOf(g, net, ev)]
  {
    assert Attached(net, ev.e);
  }

  lemma UnbegunIsGone(net: Net, e: nat)
    requires e < |net.ends|
    ensures net.ends[e].peer.None? ==> PhaseAt(net, e).Gone?
  {
  }

  lemma StillUnderWayIs(g: Geometry, H: bytes -> Digest, net: Net, ev: Event, e: nat)
    requires WellFormed(g) && Possible(g, net, ev) && !Regular(g, net, ev) && e < |net.ends| && Other(e) < |net.ends|
    ensures Other(e) < |Happen(g, H, net, ev).ends| && e < |Happen(g, H, net, ev).ends|
    ensures UnderWay(Happen(g, H, net, ev), e) == StillUnderWay(net, ev, e)
  {
    hide Happen, EndedAfter, Ended, RepliesIn, RequestsIn, PhaseAt, Possible, Unread;
    StillIs(g, H, net, ev, e);
    StillIs(g, H, net, ev, Other(e));
    RepliesLeft(g, net, ev, e);
  }

  lemma RepliesLeft(g: Geometry, net: Net, ev: Event, e: nat)
    requires Possible(g, net, ev) && !Regular(g, net, ev) && e < |net.ends|
    ensures RepliesIn(Unread(net, ev, e)) == RepliesIn(net.ends[e].inbox)
  {
    hide RepliesIn, RequestsIn;
    if ev == Read(e) {
      HeadOf(net.ends[e].inbox);
    }
  }

  // --- exactly when an ending loses ---

  lemma EndingNode(g: Geometry, H: bytes -> Digest, net: Net, ev: Event, n: nat)
    requires WellFormed(g) && Possible(g, net, ev) && !Regular(g, net, ev) && n < |net.nodes| && ev != Reset(n)
    ensures |Happen(g, H, net, ev).nodes| == |net.nodes|
    ensures var s := Happen(g, H, net, ev).nodes[n]; s.disk == net.nodes[n].disk && s.have == net.nodes[n].have
  {
    hide Happen, Wired;
    EndsAfter(g, H, net, ev);
  }

  lemma StillSettled(g: Geometry, H: bytes -> Digest, truth: bytes, net: Net, base: nat, group: set<nat>, ev: Event,
                     n: nat, x: nat)
    requires WellFormed(g) && |truth| == g.total && Placed(g, net, base, group)
    requires Possible(g, net, ev) && !Regular(g, net, ev) && n in group && ev != Reset(n) && x < g.total
    ensures n < |net.nodes| && x < |net.nodes[n].disk|
    ensures Settled(g, truth, Happen(g, H, net, ev), base, n, x)
       <==> net.nodes[n].disk[x] == truth[x] || StillAwaited(g, net, base, ev, n, x)
  {
    hide Happen, Wired, Shape, PlacedEnd, UnderWay, StillUnderWay, IsAbout, Possible;
    var net' := Happen(g, H, net, ev);
    DiskSize(g, net.nodes[n]);
    EndingNode(g, H, net, ev, n);
    EndsAfter(g, H, net, ev);
    if Settled(g, truth, net', base, n, x) && net.nodes[n].disk[x] != truth[x] {
      var e :| base <= e < |net'.ends| && net'.ends[e].node == n && Awaited(g, net', e, x);
      StillAt(g, H, net, base, group, ev, e);
    }
    if StillAwaited(g, net, base, ev, n, x) {
      var e :| base <= e < |net.ends| && net.ends[e].node == n && Other(e) < |net.ends|
               && exists msg :: msg in StillUnderWay(net, ev, e) && IsAbout(g, msg, x);
      StillAt(g, H, net, base, group, ev, e);
      assert Awaited(g, net', e, x);
    }
  }

  lemma StillAt(g: Geometry, H: bytes -> Digest, net: Net, base: nat, group: set<nat>, ev: Event, e: nat)
    requires WellFormed(g) && Placed(g, net, base, group)
    requires Possible(g, net, ev) && !Regular(g, net, ev) && base <= e < |net.ends| && net.ends[e].node in group
    ensures var net' := Happen(g, H, net, ev);
            && |net'.ends| == |net.ends| && Other(e) < |net.ends| && net'.ends[e].node == net.ends[e].node
            && UnderWay(net', e) == StillUnderWay(net, ev, e)
  {
    hide Happen, Placed, PlacedEnd, UnderWay, StillUnderWay, Possible;
    EndOfPlaced(g, net, base, group, e);
    StillIs(g, H, net, ev, e);
    StillUnderWayIs(g, H, net, ev, e);
  }

  lemma EndOfPlaced(g: Geometry, net: Net, base: nat, group: set<nat>, e: nat)
    requires WellFormed(g) && Placed(g, net, base, group) && base <= e < |net.ends| && net.ends[e].node in group
    ensures PlacedEnd(g, net, e) && Other(e) < |net.ends|
  {
    hide Wired, Shape;
  }

  lemma LoopSettledIs(g: Geometry, truth: bytes, net: Net, base: nat, n: nat, ph: Phase, more: bool)
    requires WellFormed(g)
    ensures LoopSettled(g, truth, net, base, n, ph, more)
       <==> forall x: nat :: x < g.total && LoopRelies(g, ph, more, x) ==> Settled(g, truth, net, base, n, x)
  {
    hide Settled, PieceStart, Counted, Needed;
  }

  lemma EndingKeeps(g: Geometry, H: bytes -> Digest, truth: bytes, net: Net, base: nat, group: set<nat>, ev: Event)
    requires WellFormed(g) && |truth| == g.total && Faithful(g, truth, net, base, group)
    requires Possible(g, net, ev) && Within(net, base, group, ev) && !Regular(g, net, ev)
    requires !Loses(g, truth, net, base, group, ev) && !Mistakes(g, H, truth, net, group, ev)
    ensures AllSettled(g, truth, Happen(g, H, net, ev), base, group)
  {
    hide Happen, Placed, Within, MarkedSettled, EndSettled, Possible, LosesByte, Loses;
    var net' := Happen(g, H, net, ev);
    FaithfulBasics(g, truth, net, base, group);
    forall n | n in group ensures n < |net'.nodes| && MarkedSettled(g, truth, net', base, n) {
      MarksKept(g, H, truth, net, base, group, ev, n);
    }
    forall e | base <= e < |net'.ends| && net'.ends[e].node in group ensures EndSettled(g, truth, net', base, e) {
      EndKept(g, H, truth, net, base, group, ev, e);
    }
  }

  lemma MarksKept(g: Geometry, H: bytes -> Digest, truth: bytes, net: Net, base: nat, group: set<nat>, ev: Event,
                  n: nat)
    requires WellFormed(g) && |truth| == g.total && Placed(g, net, base, group)
    requires Possible(g, net, ev) && Within(net, base, group, ev) && !Regular(g, net, ev) && n in group
    requires !Loses(g, truth, net, base, group, ev) && !Mistakes(g, H, truth, net, group, ev)
    ensures n < |Happen(g, H, net, ev).nodes| && MarkedSettled(g, truth, Happen(g, H, net, ev), base, n)
  {
    hide Happen, Placed, Possible, Settled, PieceSize, PieceStart, StillAwaited, NoFalseMatch;
    PlacedBasics(g, net, base, group);
    if ev == Reset(n) {
      ResetIsSettled(g, H, truth, net, base, n);
    } else {
      EndingNode(g, H, net, ev, n);
      var net' := Happen(g, H, net, ev);
      forall i, x: nat |
        0 <= i < |g.hashes| && i < |net'.nodes[n].have| && net'.nodes[n].have[i]
        && PieceStart(g, i) <= x < PieceStart(g, i) + PieceSize(g, i) && x < g.total
        ensures Settled(g, truth, net', base, n, x)
      {
        StillSettled(g, H, truth, net, base, group, ev, n, x);
        assert StillRelied(g, net, base, ev, n, x);
        assert !LosesByte(g, truth, net, base, ev, n, x);
      }
    }
  }

  lemma EndKept(g: Geometry, H: bytes -> Digest, truth: bytes, net: Net, base: nat, group: set<nat>, ev: Event, e: nat)
    requires WellFormed(g) && |truth| == g.total && Placed(g, net, base, group)
    requires Possible(g, net, ev) && !Regular(g, net, ev) && !Loses(g, truth, net, base, group, ev)
    requires base <= e < |Happen(g, H, net, ev).ends| && Happen(g, H, net, ev).ends[e].node in group
    ensures EndSettled(g, truth, Happen(g, H, net, ev), base, e)
  {
    hide Happen, Placed, Possible, Settled, StillAwaited, UnderWay, StillUnderWay, LoopRelies, LoopSettled, PhaseAt,
      PlacedEnd;
    PlacedBasics(g, net, base, group);
    EndsAfter(g, H, net, ev);
    assert e < |net.ends|;
    SameNode(g, H, net, ev, e);
    EndOfPlaced(g, net, base, group, e);
    StillIs(g, H, net, ev, e);
    StillUnderWayIs(g, H, net, ev, e);
    var net', n := Happen(g, H, net, ev), net.ends[e].node;
    var ph', more := PhaseAt(net', e), UnderWay(net', e) != [];
    LoopSettledIs(g, truth, net', base, n, ph', more);
    forall x: nat | x < g.total && LoopRelies(g, ph', more, x) ensures Settled(g, truth, net', base, n, x) {
      ReliesLive(g, ph', more, x);
      ResetEnds(net, ev, e);
      StillSettled(g, H, truth, net, base, group, ev, n, x);
      assert StillRelied(g, net, base, ev, n, x);
      assert !LosesByte(g, truth, net, base, ev, n, x);
    }
  }

  lemma ReliesLive(g: Geometry, ph: Phase, more: bool, x: nat)
    requires WellFormed(g) && LoopRelies(g, ph, more, x)
    ensures !ph.Gone?
  {
  }

  lemma ResetEnds(net: Net, ev: Event, e: nat)
    requires e < |net.ends| && !EndedAfter(net, ev, e) && !PhaseAt(net, e).Gone?
    ensures ev != Reset(net.ends[e].node)
  {
  }

  lemma LossBreaks(g: Geometry, H: bytes -> Digest, truth: bytes, net: Net, base: nat, group: set<nat>, ev: Event)
    requires WellFormed(g) && |truth| == g.total && Placed(g, net, base, group)
    requires Possible(g, net, ev) && !Regular(g, net, ev) && Loses(g, truth, net, base, group, ev)
    ensures !AllSettled(g, truth, Happen(g, H, net, ev), base, group)
  {
    hide Happen, Placed, Possible, Settled, UnderWay, StillUnderWay, LoopRelies, LoopSettled, PhaseAt, StillRelied,
      EndedAfter, StillAwaited;
    var n, x :| n in group && 0 <= x < g.total && LosesByte(g, truth, net, base, ev, n, x);
    RelyKnows(g, net, base, ev, n, x);
    StillSettled(g, H, truth, net, base, group, ev, n, x);
    if AllSettled(g, truth, Happen(g, H, net, ev), base, group) {
      RelySettled(g, H, truth, net, base, group, ev, n, x);
      assert false;
    }
  }

  lemma RelyKnows(g: Geometry, net: Net, base: nat, ev: Event, n: nat, x: nat)
    requires WellFormed(g) && StillRelied(g, net, base, ev, n, x)
    ensures ev != Reset(n) && n < |net.nodes|
  {
  }

  lemma RelySettled(g: Geometry, H: bytes -> Digest, truth: bytes, net: Net, base: nat, group: set<nat>, ev: Event,
                    n: nat, x: nat)
    requires WellFormed(g) && |truth| == g.total && Placed(g, net, base, group)
    requires Possible(g, net, ev) && !Regular(g, net, ev) && n in group && x < g.total
    requires StillRelied(g, net, base, ev, n, x) && AllSettled(g, truth, Happen(g, H, net, ev), base, group)
    ensures Settled(g, truth, Happen(g, H, net, ev), base, n, x)
  {
    hide Happen, Placed, Possible, Settled, UnderWay, StillUnderWay, LoopRelies, LoopSettled, PhaseAt, EndedAfter;
    var net' := Happen(g, H, net, ev);
    EndingNode(g, H, net, ev, n);
    if i :| 0 <= i < |g.hashes| && i < |net.nodes[n].have| && net.nodes[n].have[i]
            && PieceStart(g, i) <= x < PieceStart(g, i) + PieceSize(g, i) {
      assert MarkedSettled(g, truth, net', base, n);
    } else {
      var e :| base <= e < |net.ends| && net.ends[e].node == n && Other(e) < |net.ends| && !EndedAfter(net, ev, e)
               && LoopRelies(g, PhaseAt(net, e), StillUnderWay(net, ev, e) != [], x);
      StillIs(g, H, net, ev, e);
      StillUnderWayIs(g, H, net, ev, e);
      LoopSettledIs(g, truth, net', base, n, PhaseAt(net', e), UnderWay(net', e) != []);
      assert EndSettled(g, truth, net', base, e);
    }
  }

  // --- every event ---

  // An engine of the group starts a session from a disk with a false match.
  predicate Mistakes(g: Geometry, H: bytes -> Digest, truth: bytes, net: Net, group: set<nat>, ev: Event)
    requires WellFormed(g) && |truth| == g.total && Possible(g, net, ev)
  {
    ev.Reset? && ev.n in group && !NoFalseMatch(g, H, truth, net.nodes[ev.n].disk)
  }

  // What keeps a network faithful: nothing is lost, nothing false is served, no peer loop goes on in vain, and no piece
  // on a disk is mistaken for one of the torrent.
  predicate Keeps(g: Geometry, H: bytes -> Digest, truth: bytes, net: Net, base: nat, group: set<nat>, ev: Event)
    requires WellFormed(g) && |truth| == g.total && Possible(g, net, ev)
  {
    if Regular(g, net, ev) then
      !Misleads(g, truth, net, base, group, ev) && RegularKeeps(g, H, truth, net, base, group, ev)
    else !Loses(g, truth, net, base, group, ev) && !Mistakes(g, H, truth, net, group, ev)
  }

  lemma StaysFaithfulExactly(g: Geometry, H: bytes -> Digest, truth: bytes, net: Net, base: nat, group: set<nat>,
                             ev: Event)
    requires WellFormed(g) && |truth| == g.total && Faithful(g, truth, net, base, group)
    requires Possible(g, net, ev) && Within(net, base, group, ev)
    ensures Faithful(g, truth, Happen(g, H, net, ev), base, group) <==> Keeps(g, H, truth, net, base, group, ev)
  {
    hide Placed, Genuine, AllSettled, Happen, Within, Possible, RegularKeeps, Loses, Misleads, Refuses;
    PlacedStays(g, H, net, base, group, ev);
    GenuineStaysExactly(g, H, truth, net, base, group, ev);
    if Regular(g, net, ev) {
      RegularExactly(g, H, truth, net, base, group, ev);
    } else {
      MisleadsRegularly(g, truth, net, base, group, ev);
      if Loses(g, truth, net, base, group, ev) {
        LossBreaks(g, H, truth, net, base, group, ev);
      } else if Mistakes(g, H, truth, net, group, ev) {
        MistakeBreaks(g, H, truth, net, base, group, ev);
      } else {
        EndingKeeps(g, H, truth, net, base, group, ev);
      }
    }
  }

  // A piece that is marked by mistake has a byte that is not true, and nothing can arrive for the new session.
  lemma MistakeBreaks(g: Geometry, H: bytes -> Digest, truth: bytes, net: Net, base: nat, group: set<nat>, ev: Event)
    requires WellFormed(g) && |truth| == g.total && Possible(g, net, ev) && Mistakes(g, H, truth, net, group, ev)
    ensures !AllSettled(g, truth, Happen(g, H, net, ev), base, group)
  {
    hide Happen, Wired, PieceAt, SettledRange, PieceSize, NothingUnderWay, EndSettled;
    var n, net', disk := ev.n, Happen(g, H, net, ev), net.nodes[ev.n].disk;
    EndsAfter(g, H, net, ev);
    ResetResumes(g, H, net.nodes[n]);
    NothingAfterReset(g, H, net, base, n);
    var i :| 0 <= i < |g.hashes| && H(PieceAt(g, disk, i)) == g.hashes[i]
             && !IsTrue(g, truth)(i, PieceAt(g, disk, i));
    if AllSettled(g, truth, net', base, group) {
      assert MarkedSettled(g, truth, net', base, n);
      SettledIsTrue(g, truth, net', base, n, i);
      assert false;
    }
  }

  lemma NothingAfterReset(g: Geometry, H: bytes -> Digest, net: Net, base: nat, n: nat)
    requires WellFormed(g) && Possible(g, net, Reset(n))
    ensures NothingUnderWay(Happen(g, H, net, Reset(n)), base, n)
  {
    hide Happen, Wired, RepliesIn, RequestsIn, PhaseAt;
    var net' := Happen(g, H, net, Reset(n));
    EndsAfter(g, H, net, Reset(n));
    Effect(g, H, net, Reset(n));
    forall e | base <= e < |net'.ends| && net'.ends[e].node == n && Other(e) < |net'.ends|
      ensures UnderWay(net', e) == []
    {
      SameNode(g, H, net, Reset(n), e);
      NothingForGone(net', e);
    }
  }

  lemma MisleadsRegularly(g: Geometry, truth: bytes, net: Net, base: nat, group: set<nat>, ev: Event)
    requires Possible(g, net, ev) && !Regular(g, net, ev)
    ensures !Misleads(g, truth, net, base, group, ev)
  {
  }

  // --- when nothing is lost ---

  // An ending loses nothing if nothing that can still arrive ends with it.
  lemma NothingEnds(g: Geometry, truth: bytes, net: Net, base: nat, group: set<nat>, ev: Event)
    requires WellFormed(g) && |truth| == g.total && Faithful(g, truth, net, base, group)
    requires forall e :: base <= e < |net.ends| && net.ends[e].node in group && Other(e) < |net.ends|
                         && ev != Reset(net.ends[e].node) ==>
               StillUnderWay(net, ev, e) == UnderWay(net, e)
    ensures !Loses(g, truth, net, base, group, ev)
  {
    hide Placed, AllSettled, UnderWay, StillUnderWay, EndedAfter, PhaseAt, StillAwaited, Settled, LoopRelies,
      LoopSettled;
    if Loses(g, truth, net, base, group, ev) {
      var n, x :| n in group && 0 <= x < g.total && LosesByte(g, truth, net, base, ev, n, x);
      RelyKnows(g, net, base, ev, n, x);
      ReliedWasSettled(g, truth, net, base, group, ev, n, x);
      SettledIsStill(g, truth, net, base, ev, n, x);
      assert false;
    }
  }

  lemma SettledIsStill(g: Geometry, truth: bytes, net: Net, base: nat, ev: Event, n: nat, x: nat)
    requires Settled(g, truth, net, base, n, x) && net.nodes[n].disk[x] != truth[x]
    requires forall e :: base <= e < |net.ends| && net.ends[e].node == n && Other(e) < |net.ends| ==>
               StillUnderWay(net, ev, e) == UnderWay(net, e)
    ensures StillAwaited(g, net, base, ev, n, x)
  {
    hide UnderWay, StillUnderWay, IsAbout;
    var e :| base <= e < |net.ends| && net.ends[e].node == n && Awaited(g, net, e, x);
    assert StillUnderWay(net, ev, e) == UnderWay(net, e);
  }

  lemma ReliedWasSettled(g: Geometry, truth: bytes, net: Net, base: nat, group: set<nat>, ev: Event,
                         n: nat, x: nat)
    requires WellFormed(g) && |truth| == g.total && Faithful(g, truth, net, base, group) && n in group
    requires x < g.total && StillRelied(g, net, base, ev, n, x)
    ensures Settled(g, truth, net, base, n, x)
  {
    hide Placed, Settled, UnderWay, StillUnderWay, LoopRelies, LoopSettled, PhaseAt, EndedAfter;
    if i :| 0 <= i < |g.hashes| && i < |net.nodes[n].have| && net.nodes[n].have[i]
            && PieceStart(g, i) <= x < PieceStart(g, i) + PieceSize(g, i) {
      assert MarkedSettled(g, truth, net, base, n);
    } else {
      var e :| base <= e < |net.ends| && net.ends[e].node == n && Other(e) < |net.ends| && !EndedAfter(net, ev, e)
               && LoopRelies(g, PhaseAt(net, e), StillUnderWay(net, ev, e) != [], x);
      assert EndSettled(g, truth, net, base, e);
      LoopSettledIs(g, truth, net, base, n, PhaseAt(net, e), UnderWay(net, e) != []);
      FewerRelied(g, net, ev, e, x);
    }
  }

  lemma FewerRelied(g: Geometry, net: Net, ev: Event, e: nat, x: nat)
    requires WellFormed(g) && e < |net.ends| && Other(e) < |net.ends|
    requires LoopRelies(g, PhaseAt(net, e), StillUnderWay(net, ev, e) != [], x)
    ensures LoopRelies(g, PhaseAt(net, e), UnderWay(net, e) != [], x)
  {
    hide PieceStart, Counted, Needed, PhaseAt;
    assert StillUnderWay(net, ev, e) != [] ==> UnderWay(net, e) != [];
  }

  // --- every run ---

  predicate WithinRun(g: Geometry, H: bytes -> Digest, net: Net, base: nat, group: set<nat>, run: seq<Event>)
    requires WellFormed(g) && PossibleRun(g, H, net, run)
    decreases |run|
  {
    run == [] || (Within(net, base, group, run[0])
                  && WithinRun(g, H, Happen(g, H, net, run[0]), base, group, run[1..]))
  }

  // No event of the run loses anything, where it happens.
  predicate KeepsRun(g: Geometry, H: bytes -> Digest, truth: bytes, net: Net, base: nat, group: set<nat>,
                     run: seq<Event>)
    requires WellFormed(g) && |truth| == g.total && PossibleRun(g, H, net, run)
    decreases |run|
  {
    run == [] || (Keeps(g, H, truth, net, base, group, run[0])
                  && KeepsRun(g, H, truth, Happen(g, H, net, run[0]), base, group, run[1..]))
  }

  predicate AlwaysFaithful(g: Geometry, H: bytes -> Digest, truth: bytes, net: Net, base: nat, group: set<nat>,
                           run: seq<Event>)
    requires WellFormed(g) && |truth| == g.total && PossibleRun(g, H, net, run)
    decreases |run|
  {
    && Faithful(g, truth, net, base, group)
    && (run == [] || AlwaysFaithful(g, H, truth, Happen(g, H, net, run[0]), base, group, run[1..]))
  }

  lemma {:induction false} WithinAll(g: Geometry, H: bytes -> Digest, net: Net, group: set<nat>, run: seq<Event>)
    requires WellFormed(g) && PossibleRun(g, H, net, run)
    ensures WithinRun(g, H, net, 0, group, run)
    decreases |run|
  {
    hide Possible, Happen;
    if run != [] {
      WithinAll(g, H, Happen(g, H, net, run[0]), group, run[1..]);
    }
  }

  lemma {:induction false} RunStaysFaithfulExactly(g: Geometry, H: bytes -> Digest, truth: bytes, net: Net, base: nat,
                                                   group: set<nat>, run: seq<Event>)
    requires WellFormed(g) && |truth| == g.total && Faithful(g, truth, net, base, group)
    requires PossibleRun(g, H, net, run) && WithinRun(g, H, net, base, group, run)
    ensures AlwaysFaithful(g, H, truth, net, base, group, run) <==> KeepsRun(g, H, truth, net, base, group, run)
    ensures KeepsRun(g, H, truth, net, base, group, run) ==>
              Faithful(g, truth, Outcome(g, H, net, run), base, group)
    decreases |run|
  {
    hide Faithful, Within, Possible, Happen, Keeps;
    if run != [] {
      StaysFaithfulExactly(g, H, truth, net, base, group, run[0]);
      if Keeps(g, H, truth, net, base, group, run[0]) {
        RunStaysFaithfulExactly(g, H, truth, Happen(g, H, net, run[0]), base, group, run[1..]);
      } else {
        FaithfulBegins(g, H, truth, Happen(g, H, net, run[0]), base, group, run[1..]);
      }
    }
  }

  lemma FaithfulBegins(g: Geometry, H: bytes -> Digest, truth: bytes, net: Net, base: nat, group: set<nat>,
                       run: seq<Event>)
    requires WellFormed(g) && |truth| == g.total && PossibleRun(g, H, net, run)
    ensures AlwaysFaithful(g, H, truth, net, base, group, run) ==> Faithful(g, truth, net, base, group)
  {
  }

  // Engines started on disks of which those of the group have no false match.
  lemma StartIsFaithful(g: Geometry, H: bytes -> Digest, truth: bytes, disks: seq<bytes>, group: set<nat>)
    requires WellFormed(g) && |truth| == g.total && forall d :: d in disks ==> |d| == g.total
    requires forall n :: n in group ==> n < |disks| && NoFalseMatch(g, H, truth, disks[n])
    ensures Faithful(g, truth, Start(g, H, disks), 0, group)
  {
    hide Resume, NoFalseMatch, Shape, MarkedSettled, Start;
    var net := Start(g, H, disks);
    StartNodes(g, H, disks);
    forall n | n in group
      ensures n < |net.nodes| && Shape(g, net.nodes[n]) && MarkedSettled(g, truth, net, 0, n)
    {
      StartedNode(g, H, truth, disks, n);
    }
  }

  lemma StartNodes(g: Geometry, H: bytes -> Digest, disks: seq<bytes>)
    requires WellFormed(g) && forall d :: d in disks ==> |d| == g.total
    ensures var net := Start(g, H, disks);
            && net.ends == [] && Wired(net) && |net.nodes| == |disks|
            && forall n :: 0 <= n < |disks| ==> |disks[n]| == g.total && net.nodes[n] == Resume(g, H, disks[n])
  {
    hide Resume;
    assert forall n :: 0 <= n < |disks| ==> disks[n] in disks;
  }

  lemma StartedNode(g: Geometry, H: bytes -> Digest, truth: bytes, disks: seq<bytes>, n: nat)
    requires WellFormed(g) && |truth| == g.total && n < |disks|
    requires (forall d :: d in disks ==> |d| == g.total) && NoFalseMatch(g, H, truth, disks[n])
    ensures var net := Start(g, H, disks);
            n < |net.nodes| && Shape(g, net.nodes[n]) && MarkedSettled(g, truth, net, 0, n)
  {
    hide NoFalseMatch, Shape, SettledRange, Start, PieceAt, Partition, Conservation, MissingBelow, ResumedBytes,
      Verified;
    StartNodes(g, H, disks);
    ResumeInv(g, H, disks[n]);
    var net := Start(g, H, disks);
    forall i | 0 <= i < |g.hashes| && i < |net.nodes[n].have| && net.nodes[n].have[i]
      ensures SettledRange(g, truth, net, 0, n, PieceStart(g, i), PieceStart(g, i) + PieceSize(g, i))
    {
      ResumedIsSettled(g, H, truth, net, 0, n, i);
    }
  }

  // Nothing can still arrive for engine n.
  predicate NothingUnderWay(net: Net, base: nat, n: nat) {
    forall e :: base <= e < |net.ends| && net.ends[e].node == n && Other(e) < |net.ends| ==> UnderWay(net, e) == []
  }

  predicate EngineSettled(g: Geometry, truth: bytes, net: Net, n: nat)
    requires WellFormed(g) && |truth| == g.total
  {
    && n < |net.nodes| && |net.nodes[n].disk| == g.total && |net.nodes[n].have| == |g.hashes|
    && forall i :: 0 <= i < |g.hashes| && net.nodes[n].have[i] ==>
         && SettledRange(g, truth, net, 0, n, PieceStart(g, i), PieceStart(g, i) + PieceSize(g, i))
         && (NothingUnderWay(net, 0, n) ==> PieceAt(g, net.nodes[n].disk, i) == PieceAt(g, truth, i))
  }

  // --- runs that lose nothing ---

  predicate NobodyEnded(net: Net) { forall e :: 0 <= e < |net.ends| ==> !Ended(net, e) }

  // No peer loop ends, and a request that is read is served with true bytes.
  predicate Truthful(g: Geometry, truth: bytes, net: Net, ev: Event)
    requires Possible(g, net, ev)
  {
    Regular(g, net, ev)
    && (ev.Read? && net.ends[ev.e].inbox[0].Request? ==>
          TrueOnDisk(g, truth, net.nodes[NodeOf(g, net, ev)].disk, net.ends[ev.e].inbox[0]))
  }

  predicate TruthfulRun(g: Geometry, H: bytes -> Digest, truth: bytes, net: Net, run: seq<Event>)
    requires WellFormed(g) && PossibleRun(g, H, net, run)
    decreases |run|
  {
    run == [] || (Truthful(g, truth, net, run[0]) && TruthfulRun(g, H, truth, Happen(g, H, net, run[0]), run[1..]))
  }

  lemma TruthfulKeeps(g: Geometry, H: bytes -> Digest, truth: bytes, net: Net, base: nat, group: set<nat>, ev: Event)
    requires WellFormed(g) && |truth| == g.total && Possible(g, net, ev)
    requires NobodyEnded(net) && Truthful(g, truth, net, ev)
    ensures Keeps(g, H, truth, net, base, group, ev) && NobodyEnded(Happen(g, H, net, ev))
  {
    hide Happen, Ended, Refuses, TrueOnDisk, NextSettled, PhaseAt, Wired, PhaseAfter;
    var net' := Happen(g, H, net, ev);
    EndsAfter(g, H, net, ev);
    forall e | 0 <= e < |net'.ends| ensures !Ended(net', e) {
      if e < |net.ends| {
        LivesOn(g, H, net, ev, e);
      } else {
        NewEnds(g, H, net, ev, e);
        UnbegunIsNotEnded(net', e);
      }
    }
  }

  lemma UnbegunIsNotEnded(net: Net, e: nat)
    requires e < |net.ends| && net.ends[e].peer.None?
    ensures !Ended(net, e)
  {
  }

  // So a run in which no peer loop ends and every request is served truly loses nothing, whatever the engines fetch
  // from each other, and however often blocks are requested, sent and counted twice.
  lemma {:induction false} TruthfulRunKeeps(g: Geometry, H: bytes -> Digest, truth: bytes, net: Net, base: nat,
                                            group: set<nat>, run: seq<Event>)
    requires WellFormed(g) && |truth| == g.total && NobodyEnded(net)
    requires PossibleRun(g, H, net, run) && TruthfulRun(g, H, truth, net, run)
    ensures KeepsRun(g, H, truth, net, base, group, run)
    decreases |run|
  {
    hide Possible, Happen, Truthful, Keeps, NobodyEnded;
    if run != [] {
      TruthfulKeeps(g, H, truth, net, base, group, run[0]);
      TruthfulRunKeeps(g, H, truth, Happen(g, H, net, run[0]), base, group, run[1..]);
    }
  }

  lemma {:induction false} TruthfulOn(g: Geometry, H: bytes -> Digest, truth: bytes, net: Net, run: seq<Event>,
                                      ev: Event)
    requires WellFormed(g) && PossibleRun(g, H, net, run) && TruthfulRun(g, H, truth, net, run)
    requires Possible(g, Outcome(g, H, net, run), ev) && Truthful(g, truth, Outcome(g, H, net, run), ev)
    ensures PossibleRun(g, H, net, run + [ev]) && TruthfulRun(g, H, truth, net, run + [ev])
    decreases |run|
  {
    hide Possible, Happen, Truthful;
    if run == [] {
      SingleEvent(g, H, net, ev);
      assert run + [ev] == [ev] && [ev][1..] == [];
    } else {
      assert (run + [ev])[1..] == run[1..] + [ev];
      TruthfulOn(g, H, truth, Happen(g, H, net, run[0]), run[1..], ev);
    }
  }

  // --- what is marked ---

  function Everyone(count: nat): (group: set<nat>)
    ensures forall n: nat :: n in group <==> n < count
  {
    if count == 0 then {} else Everyone(count - 1) + {count - 1}
  }

  // Any engines, connected in any way, of which those of the group start from disks without false matches. After any
  // run every byte of every piece that an engine of the group has marked is true, or is in a request or reply that can
  // still arrive, if no event of the run loses anything or serves false bytes; so when nothing can arrive its marked
  // pieces are true.
  lemma MarksAreSettled(g: Geometry, H: bytes -> Digest, truth: bytes, disks: seq<bytes>, group: set<nat>,
                        run: seq<Event>)
    requires WellFormed(g) && |truth| == g.total && forall d :: d in disks ==> |d| == g.total
    requires forall n :: n in group ==> n < |disks| && NoFalseMatch(g, H, truth, disks[n])
    requires PossibleRun(g, H, Start(g, H, disks), run)
    requires KeepsRun(g, H, truth, Start(g, H, disks), 0, group, run)
    ensures forall n :: n in group ==> EngineSettled(g, truth, Outcome(g, H, Start(g, H, disks), run), n)
  {
    hide NoFalseMatch, PossibleRun, WithinRun, KeepsRun, Outcome, Start, Faithful, EngineSettled;
    StartIsFaithful(g, H, truth, disks, group);
    WithinAll(g, H, Start(g, H, disks), group, run);
    RunStaysFaithfulExactly(g, H, truth, Start(g, H, disks), 0, group, run);
    forall n | n in group ensures EngineSettled(g, truth, Outcome(g, H, Start(g, H, disks), run), n) {
      FaithfulIsSettled(g, truth, Outcome(g, H, Start(g, H, disks), run), group, n);
    }
  }

  lemma FaithfulIsSettled(g: Geometry, truth: bytes, net: Net, group: set<nat>, n: nat)
    requires WellFormed(g) && |truth| == g.total && Faithful(g, truth, net, 0, group) && n in group
    ensures EngineSettled(g, truth, net, n)
  {
    hide Shape, SettledRange, PieceAt, NothingUnderWay, PlacedEnd, EndSettled, Wired;
    DiskSize(g, net.nodes[n]);
    forall i | 0 <= i < |g.hashes| && net.nodes[n].have[i]
      ensures SettledRange(g, truth, net, 0, n, PieceStart(g, i), PieceStart(g, i) + PieceSize(g, i))
      ensures NothingUnderWay(net, 0, n) ==> PieceAt(g, net.nodes[n].disk, i) == PieceAt(g, truth, i)
    {
      assert MarkedSettled(g, truth, net, 0, n);
      if NothingUnderWay(net, 0, n) {
        SettledIsTrue(g, truth, net, 0, n, i);
      }
    }
  }

  lemma SettledIsTrue(g: Geometry, truth: bytes, net: Net, base: nat, n: nat, i: nat)
    requires WellFormed(g) && |truth| == g.total && n < |net.nodes| && |net.nodes[n].disk| == g.total && i < |g.hashes|
    requires SettledRange(g, truth, net, base, n, PieceStart(g, i), PieceStart(g, i) + PieceSize(g, i))
    requires NothingUnderWay(net, base, n)
    ensures PieceAt(g, net.nodes[n].disk, i) == PieceAt(g, truth, i)
  {
    hide PieceAt, PieceSize, PieceStart, UnderWay;
    var disk := net.nodes[n].disk;
    forall x | PieceStart(g, i) <= x < PieceStart(g, i) + PieceSize(g, i) && x < g.total ensures disk[x] == truth[x] {
      assert Settled(g, truth, net, base, n, x);
    }
    PrefixFromBytes(g, truth, disk, i, PieceSize(g, i));
    WholePrefix(g, truth, disk, i);
  }
}
