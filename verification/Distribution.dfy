// From the creator to the last downloader: one engine with the files a torrent was created from is enough for every
// engine of a network to get them.
module Distribution {
  import opened Prelude
  import opened Geometry
  import opened Swarm
  import opened SwarmProofs
  import opened SwarmTruth
  import opened Network
  import opened NetworkOrder
  import opened Sharing
  import opened Seeding
  import opened Losses
  import opened Exchange
  import P = SwarmProgress
  import Creator

  // --- a seeder stays one in every network ---

  // Engine m has all of the torrent, and nothing is under way for it.
  predicate Serves(g: Geometry, truth: bytes, net: Net, m: nat)
    requires WellFormed(g) && |truth| == g.total
  {
    && Wired(net) && m < |net.nodes| && Seeder(g, truth, net.nodes[m])
    && forall e :: 0 <= e < |net.ends| && net.ends[e].node == m ==> Other(e) < |net.ends| && Pending(net, e) == []
  }

  predicate Sized(g: Geometry, net: Net) { forall n :: 0 <= n < |net.nodes| ==> |net.nodes[n].disk| == g.total }

  lemma SizesStay(g: Geometry, H: bytes -> Digest, net: Net, ev: Event)
    requires WellFormed(g) && Possible(g, net, ev) && Sized(g, net)
    ensures Sized(g, Happen(g, H, net, ev))
  {
    hide Happen, Next, Wired;
    EndsAfter(g, H, net, ev);
    if StepOf(g, net, ev).Some? {
      NextDisk(g, H, net.nodes[NodeOf(g, net, ev)], StepOf(g, net, ev).value);
    }
  }

  lemma ServingEndStays(g: Geometry, H: bytes -> Digest, truth: bytes, net: Net, m: nat, ev: Event, e: nat)
    requires WellFormed(g) && |truth| == g.total && Serves(g, truth, net, m) && Possible(g, net, ev)
    requires e < |Happen(g, H, net, ev).ends| && Happen(g, H, net, ev).ends[e].node == m
    ensures Other(e) < |Happen(g, H, net, ev).ends| && Pending(Happen(g, H, net, ev), e) == []
  {
    hide Happen, Next, Wired, RepliesIn, RequestsIn, Ask, Shape, P.AllMarked;
    EndsAfter(g, H, net, ev);
    WiredAtEnd(net);
    if e < |net.ends| {
      SameNode(g, H, net, ev, e);
      PendingIs(g, H, net, ev, e);
      WiredAt(net, e);
      if ev == Read(e) {
        HeadOf(net.ends[e].inbox);
        CompleteAsksNothing(g, PhaseAt(net, e).guard);
      } else if ev == Read(Other(e)) {
        HeadOf(net.ends[Other(e)].inbox);
      }
    } else {
      OneMessage(Unchoke);
      NewEnds(g, H, net, ev, e);
      NewEnds(g, H, net, ev, Other(e));
    }
  }

  lemma ServesStays(g: Geometry, H: bytes -> Digest, truth: bytes, net: Net, m: nat, ev: Event)
    requires Truth(g, H, truth) && Serves(g, truth, net, m) && Possible(g, net, ev)
    ensures Serves(g, truth, Happen(g, H, net, ev), m)
  {
    hide Happen, Next, Wired, RepliesIn, RequestsIn, Seeder, PieceAt;
    WiringAfter(g, H, net, ev);
    EndsAfter(g, H, net, ev);
    var step := StepOf(g, net, ev);
    if NodeOf(g, net, ev) == m && step.Some? {
      if step.value.Write? {
        HeadOf(net.ends[ev.e].inbox);
        assert false;
      }
      SeederSteps(g, H, truth, net.nodes[m], step.value);
    }
    forall e | 0 <= e < |Happen(g, H, net, ev).ends| && Happen(g, H, net, ev).ends[e].node == m
      ensures Other(e) < |Happen(g, H, net, ev).ends| && Pending(Happen(g, H, net, ev), e) == []
    {
      ServingEndStays(g, H, truth, net, m, ev, e);
    }
  }

  lemma {:induction false} RunServes(g: Geometry, H: bytes -> Digest, truth: bytes, net: Net, m: nat, run: seq<Event>)
    requires Truth(g, H, truth) && Serves(g, truth, net, m) && Sized(g, net) && PossibleRun(g, H, net, run)
    ensures Serves(g, truth, Outcome(g, H, net, run), m) && Sized(g, Outcome(g, H, net, run))
    ensures |Outcome(g, H, net, run).nodes| == |net.nodes|
    decreases |run|
  {
    hide Serves, Sized, Possible, Happen;
    if run != [] {
      ServesStays(g, H, truth, net, m, run[0]);
      SizesStay(g, H, net, run[0]);
      EndsAfter(g, H, net, run[0]);
      RunServes(g, H, truth, Happen(g, H, net, run[0]), m, run[1..]);
    }
  }

  // --- one engine completes ---

  predicate Complete(truth: bytes, s: State) {
    s.status == Completed && P.AllMarked(s) && s.disk == truth
  }

  lemma ResetIs(g: Geometry, H: bytes -> Digest, net: Net, n: nat)
    requires WellFormed(g) && Wired(net) && n < |net.nodes| && |net.nodes[n].disk| == g.total
    ensures Possible(g, net, Reset(n))
    ensures var net' := Happen(g, H, net, Reset(n));
            && |net'.nodes| == |net.nodes| && net'.ends == net.ends
            && (forall k :: 0 <= k < |net.nodes| && k != n ==> net'.nodes[k] == net.nodes[k])
            && net'.nodes[n] == Next(g, H, net.nodes[n], Restart)
  {
    hide Next;
    EndsAfter(g, H, net, Reset(n));
    assert Happen(g, H, net, Reset(n)).ends == net.ends;
  }

  // A session over the true content is complete.
  lemma TrueResetCompletes(g: Geometry, H: bytes -> Digest, truth: bytes, s: State)
    requires Truth(g, H, truth) && s.disk == truth
    ensures Complete(truth, Next(g, H, s, Restart))
  {
    hide CeilDiv, PieceAt, MissingBelow, ResumedBytes;
    SeederResumes(g, H, truth);
    ResumeInv(g, H, truth);
  }

  // After a reset the client may start its one connection.
  lemma ResetIsStar(g: Geometry, H: bytes -> Digest, truth: bytes, net: Net, m: nat, n: nat)
    requires Truth(g, H, truth) && Serves(g, truth, net, m) && n < |net.nodes| && n != m
    requires |net.nodes[n].disk| == g.total && NoFalseMatch(g, H, truth, net.nodes[n].disk)
    ensures Possible(g, net, Reset(n))
    ensures var net' := Happen(g, H, net, Reset(n));
            Star(g, truth, net', |net'.ends|, m, {n}) && ClientAlone(g, net'.nodes[n], None)
  {
    hide Next, Wired, Seeder, MarkedSettled, Shape, Partition, NoFalseMatch;
    ResetIs(g, H, net, n);
    var net' := Happen(g, H, net, Reset(n));
    ServesStays(g, H, truth, net, m, Reset(n));
    WiredAtEnd(net);
    ResetAlone(g, H, net.nodes[n]);
    ResetIsSettled(g, H, truth, net, |net'.ends|, n);
  }

  lemma ResetAlone(g: Geometry, H: bytes -> Digest, s: State)
    requires WellFormed(g) && |s.disk| == g.total
    ensures ClientAlone(g, Next(g, H, s, Restart), None)
  {
    hide MissingBelow, ResumedBytes, CeilDiv;
    RestartKeeps(g, H, s);
    ResumeHasNoPeers(g, H, s.disk);
  }

  // The client dials the seeder, and both peer loops start.
  lemma Connecting(g: Geometry, H: bytes -> Digest, truth: bytes, net: Net, base: nat, m: nat, clients: set<nat>,
                   n: nat)
    returns (run: seq<Event>)
    requires Truth(g, H, truth) && Star(g, truth, net, base, m, clients) && n in clients
    requires n < |net.nodes| && ClientAlone(g, net.nodes[n], None)
    ensures PossibleRun(g, H, net, run) && forall ev :: ev in run ==> !ev.Reset?
    ensures var after := Outcome(g, H, net, run);
            && Exchanging(g, truth, after, base, m, clients, |net.ends|) && after.ends[|net.ends|].node == n
            && OthersKept(net, after, m, n) && FirstEndsKept(net, after) && |after.ends| == |net.ends| + 2
  {
    hide Star, ClientAlone, Happen, Possible, Truth, InStar, ClientWaits, PossibleRun, Outcome, Exchanging, OthersKept,
      FirstEndsKept;
    TruthHolds(g, H, truth);
    StarBasics(g, truth, net, base, m, clients);
    var b := |net.ends|;
    var one := Dialed(g, H, truth, net, base, m, clients, n);
    var two := ClientStarts(g, H, truth, one, b, base, m, clients, n);
    ServerStarts(g, H, truth, two, b, base, m, clients, n);
    var three := Happen(g, H, two, Begin(b + 1));
    SingleEvent(g, H, net, Dial(n, m));
    SingleEvent(g, H, one, Begin(b));
    SingleEvent(g, H, two, Begin(b + 1));
    EventsConcat(g, H, net, [Dial(n, m)], [Begin(b)]);
    EventsConcat(g, H, net, [Dial(n, m)] + [Begin(b)], [Begin(b + 1)]);
    KeptOn(net, one, two, m, n);
    KeptOn(net, two, three, m, n);
    FirstKeptOn(net, one, two, b);
    FirstKeptOn(net, two, three, b);
    run := [Dial(n, m)] + [Begin(b)] + [Begin(b + 1)];
  }

  lemma KeptOn(a: Net, b: Net, c: Net, m: nat, n: nat)
    requires OthersKept(a, b, m, n) && OthersKept(b, c, m, n)
    ensures OthersKept(a, c, m, n)
  {
  }

  // The connections there were are as they were.
  predicate FirstEndsKept(net: Net, net': Net) {
    && |net.ends| <= |net'.ends|
    && forall f :: 0 <= f < |net.ends| ==> net'.ends[f] == net.ends[f] && PhaseAt(net', f) == PhaseAt(net, f)
  }

  predicate BelowKept(net: Net, net': Net, b: nat) {
    && b <= |net.ends| <= |net'.ends|
    && forall f :: 0 <= f < b ==> net'.ends[f] == net.ends[f] && PhaseAt(net', f) == PhaseAt(net, f)
  }

  lemma FirstKeptOn(a: Net, b: Net, c: Net, k: nat)
    requires k == |a.ends| && FirstEndsKept(a, b) && BelowKept(b, c, k)
    ensures FirstEndsKept(a, c)
  {
    hide PhaseAt;
  }

  lemma OthersArePhases(g: Geometry, H: bytes -> Digest, net: Net, ev: Event, b: nat)
    requires WellFormed(g) && Possible(g, net, ev) && b % 2 == 0 && b <= |net.ends|
    requires ev.Dial? || (ev.Begin? && ev.e >= b)
    ensures BelowKept(net, Happen(g, H, net, ev), b)
  {
    hide Happen, PhaseAt, PhaseAfter, NodeAfter, Possible;
    Effect(g, H, net, ev);
    EndsAfter(g, H, net, ev);
    forall f | 0 <= f < b ensures Happen(g, H, net, ev).ends[f] == net.ends[f] {
      LowEndKept(g, H, net, ev, b, f);
    }
  }

  lemma LowEndKept(g: Geometry, H: bytes -> Digest, net: Net, ev: Event, b: nat, f: nat)
    requires WellFormed(g) && Possible(g, net, ev) && b % 2 == 0 && f < b <= |net.ends|
    requires ev.Dial? || (ev.Begin? && ev.e >= b)
    ensures EndAfter(g, H, net, ev, f) == net.ends[f]
  {
    hide Sent, Wired;
  }

  lemma Dialed(g: Geometry, H: bytes -> Digest, truth: bytes, net: Net, base: nat, m: nat, clients: set<nat>, n: nat)
    returns (net': Net)
    requires Truth(g, H, truth) && Star(g, truth, net, base, m, clients) && n in clients
    ensures Possible(g, net, Dial(n, m)) && net' == Happen(g, H, net, Dial(n, m)) && |net.ends| % 2 == 0
    ensures Star(g, truth, net', base, m, clients) && OthersKept(net, net', m, n) && FirstEndsKept(net, net')
    ensures |net'.ends| == |net.ends| + 2 && n < |net'.nodes| && net'.nodes[n] == net.nodes[n]
    ensures net'.ends[|net.ends|] == End(n, None, []) && net'.ends[|net.ends| + 1] == End(m, None, [])
  {
    hide Truth, Wired, Frame, AllSettled, Happen, PhaseAt;
    TruthHolds(g, H, truth);
    FrameBasics(g, truth, net, base, m, clients);
    assert Possible(g, net, Dial(n, m)) && InStar(g, H, truth, net, base, m, clients, Dial(n, m));
    StarStays(g, H, truth, net, base, m, clients, Dial(n, m));
    net' := Happen(g, H, net, Dial(n, m));
    EndsAfter(g, H, net, Dial(n, m));
    DialedEnds(g, H, net, Dial(n, m));
    OthersArePhases(g, H, net, Dial(n, m), |net.ends|);
  }

  lemma ClientStarts(g: Geometry, H: bytes -> Digest, truth: bytes, net: Net, b: nat, base: nat, m: nat,
                     clients: set<nat>, n: nat)
    returns (net': Net)
    requires Truth(g, H, truth) && Star(g, truth, net, base, m, clients) && n in clients
    requires b % 2 == 0 && |net.ends| == b + 2 && base <= b
    requires net.ends[b] == End(n, None, []) && net.ends[b + 1] == End(m, None, [])
    requires n < |net.nodes| && n != m && ClientAlone(g, net.nodes[n], None)
    ensures Possible(g, net, Begin(b)) && net' == Happen(g, H, net, Begin(b))
    ensures Star(g, truth, net', base, m, clients) && OthersKept(net, net', m, n) && BelowKept(net, net', b)
    ensures |net'.ends| == b + 2 && n < |net'.nodes|
    ensures net'.ends[b].node == n && net'.ends[b].inbox == [] && net'.ends[b + 1] == End(m, None, GREETING)
    ensures PhaseAt(net', b).Waiting? && (PhaseAt(net', b).guard.complete ==> net'.nodes[n].missing == [])
    ensures net'.ends[b].peer.Some? && ClientAlone(g, net'.nodes[n], net'.ends[b].peer)
  {
    hide Seeder, AllSettled, Shape, Partition, Truth, FrameEnd, Happen, Next, Wired, ClientAlone;
    TruthHolds(g, H, truth);
    assert Wired(net) && Possible(g, net, Begin(b));
    net' := Happen(g, H, net, Begin(b));
    StarStays(g, H, truth, net, base, m, clients, Begin(b));
    EndsAfter(g, H, net, Begin(b));
    OthersArePhases(g, H, net, Begin(b), b);
    NewLoop(g, H, net.nodes[n]);
    assert [] + GREETING == GREETING;
    assert net'.nodes[n] == Next(g, H, net.nodes[n], Connect);
  }

  lemma NewLoop(g: Geometry, H: bytes -> Digest, s: State)
    requires WellFormed(g) && ClientAlone(g, s, None)
    ensures var s' := Next(g, H, s, Connect);
            && |s'.peers| == |s.peers| + 1 && ClientAlone(g, s', Some(|s.peers|))
            && s'.peers[|s.peers|].Waiting? && (s'.peers[|s.peers|].guard.complete ==> s'.missing == [])
  {
    hide Shape, Partition;
    OwnershipExactly(g, H, s, Connect);
  }

  lemma ServerStarts(g: Geometry, H: bytes -> Digest, truth: bytes, net: Net, b: nat, base: nat, m: nat,
                     clients: set<nat>, n: nat)
    requires Truth(g, H, truth) && Star(g, truth, net, base, m, clients) && n in clients
    requires b % 2 == 0 && |net.ends| == b + 2 && base <= b && n < |net.nodes| && n != m
    requires net.ends[b].node == n && net.ends[b].inbox == [] && net.ends[b + 1] == End(m, None, GREETING)
    requires PhaseAt(net, b).Waiting? && (PhaseAt(net, b).guard.complete ==> net.nodes[n].missing == [])
    requires net.ends[b].peer.Some? && ClientAlone(g, net.nodes[n], net.ends[b].peer)
    ensures Possible(g, net, Begin(b + 1))
    ensures Exchanging(g, truth, Happen(g, H, net, Begin(b + 1)), base, m, clients, b)
    ensures Happen(g, H, net, Begin(b + 1)).ends[b].node == n && |Happen(g, H, net, Begin(b + 1)).ends| == b + 2
    ensures OthersKept(net, Happen(g, H, net, Begin(b + 1)), m, n)
    ensures BelowKept(net, Happen(g, H, net, Begin(b + 1)), b)
  {
    hide AllSettled, Truth, Frame, Happen, Wired, Pending, ClientAlone, PhaseAfter, NodeAfter;
    TruthHolds(g, H, truth);
    FrameBasics(g, truth, net, base, m, clients);
    assert Wired(net) && Possible(g, net, Begin(b + 1));
    StarStays(g, H, truth, net, base, m, clients, Begin(b + 1));
    EndsAfter(g, H, net, Begin(b + 1));
    Effect(g, H, net, Begin(b + 1));
    BeginsWaiting(g, H, net, b + 1);
    OthersArePhases(g, H, net, Begin(b + 1), b);
    assert [] + GREETING == GREETING && GREETING[1] == Unchoke;
  }

  lemma BeginsWaiting(g: Geometry, H: bytes -> Digest, net: Net, e: nat)
    requires WellFormed(g) && Possible(g, net, Begin(e))
    ensures PhaseAfter(g, H, net, Begin(e)).Waiting?
  {
    hide Wired;
  }

  // One engine can complete, while the others stay as they are.
  lemma NodeCanComplete(g: Geometry, H: bytes -> Digest, truth: bytes, net: Net, m: nat, n: nat)
    returns (run: seq<Event>)
    requires Truth(g, H, truth) && g.pieceLength + BLOCK <= U32
    requires Serves(g, truth, net, m) && Sized(g, net) && n < |net.nodes|
    requires NoFalseMatch(g, H, truth, net.nodes[n].disk)
    ensures PossibleRun(g, H, net, run)
    ensures var after := Outcome(g, H, net, run);
            n < |after.nodes| && Complete(truth, after.nodes[n]) && OthersKept(net, after, m, n)
  {
    hide Serves, Happen, Possible, Truth, NoFalseMatch, PossibleRun, Outcome, Complete, Exchanging, Linked, Star,
      ClientAlone, OthersKept, OtherEndsKept, FirstEndsKept, Next, Quiet, Shape, Partition;
    TruthHolds(g, H, truth);
    ServingIs(g, truth, net, m);
    if n == m {
      ResetIs(g, H, net, n);
      TrueResetCompletes(g, H, truth, net.nodes[n]);
      SingleEvent(g, H, net, Reset(n));
      ResetKeepsOthers(g, H, net, m, n);
      run := [Reset(n)];
    } else {
      ResetIsStar(g, H, truth, net, m, n);
      ResetKeepsOthers(g, H, net, m, n);
      SingleEvent(g, H, net, Reset(n));
      var zero := Happen(g, H, net, Reset(n));
      ResetIs(g, H, net, n);
      var e := |zero.ends|;
      var connect := Connecting(g, H, truth, zero, e, m, {n}, n);
      var one := Outcome(g, H, zero, connect);
      assert Linked(g, truth, one, e, m, {n}, e) by { ExchangeIsLinked(g, truth, one, e, m, {n}, e); }
      var exchange := LinkEnds(g, H, truth, one, e, m, {n}, e);
      var two := Outcome(g, H, one, exchange);
      QuietIsDone(g, truth, two, e, m, {n}, e);
      LinkIs(g, truth, two, e, m, {n}, e);
      ResetIs(g, H, two, n);
      TrueResetCompletes(g, H, truth, two.nodes[n]);
      SingleEvent(g, H, two, Reset(n));
      ResetKeepsOthers(g, H, two, m, n);
      EventsConcat(g, H, net, [Reset(n)], connect);
      EventsConcat(g, H, net, [Reset(n)] + connect, exchange);
      EventsConcat(g, H, net, [Reset(n)] + connect + exchange, [Reset(n)]);
      KeptOn(net, zero, one, m, n);
      KeptOn(net, one, two, m, n);
      KeptOn(net, two, Happen(g, H, two, Reset(n)), m, n);
      run := [Reset(n)] + connect + exchange + [Reset(n)];
    }
  }

  lemma ExchangeIsLinked(g: Geometry, truth: bytes, net: Net, base: nat, m: nat, clients: set<nat>, e: nat)
    requires WellFormed(g) && |truth| == g.total && Exchanging(g, truth, net, base, m, clients, e)
    ensures Linked(g, truth, net, base, m, clients, e)
  {
  }

  lemma ServingIs(g: Geometry, truth: bytes, net: Net, m: nat)
    requires WellFormed(g) && |truth| == g.total && Serves(g, truth, net, m)
    ensures Wired(net) && m < |net.nodes| && net.nodes[m].disk == truth
  {
  }

  lemma ResetKeepsOthers(g: Geometry, H: bytes -> Digest, net: Net, m: nat, n: nat)
    requires WellFormed(g) && Wired(net) && n < |net.nodes| && |net.nodes[n].disk| == g.total
    ensures Possible(g, net, Reset(n)) && OthersKept(net, Happen(g, H, net, Reset(n)), m, n)
  {
    ResetIs(g, H, net, n);
  }

  // --- all of them ---

  // All engines below n, and the seeder last.
  lemma {:induction false} AllCanComplete(g: Geometry, H: bytes -> Digest, truth: bytes, net: Net, m: nat, n: nat)
    returns (run: seq<Event>)
    requires Truth(g, H, truth) && g.pieceLength + BLOCK <= U32
    requires Serves(g, truth, net, m) && Sized(g, net) && n <= |net.nodes|
    requires forall k :: 0 <= k < |net.nodes| ==> NoFalseMatch(g, H, truth, net.nodes[k].disk)
    ensures PossibleRun(g, H, net, run)
    ensures var after := Outcome(g, H, net, run);
            && |after.nodes| == |net.nodes| && Serves(g, truth, after, m) && Sized(g, after)
            && (forall k :: 0 <= k < n && k != m ==> Complete(truth, after.nodes[k]))
            && (forall k :: n <= k < |net.nodes| && k != m ==> after.nodes[k] == net.nodes[k])
    decreases n
  {
    hide Serves, Truth, NoFalseMatch, Complete, Sized, Possible, Happen;
    TruthHolds(g, H, truth);
    if n == 0 {
      run := [];
    } else {
      var before := AllCanComplete(g, H, truth, net, m, n - 1);
      var net' := Outcome(g, H, net, before);
      if n - 1 == m {
        run := before;
      } else {
        var last := NodeCanComplete(g, H, truth, net', m, n - 1);
        RunServes(g, H, truth, net', m, last);
        EventsConcat(g, H, net, before, last);
        run := before + last;
      }
    }
  }

  // From every state of a network with a seeder, all engines can complete, as long as no disk has a false match.
  lemma EveryoneCanComplete(g: Geometry, H: bytes -> Digest, truth: bytes, net: Net, m: nat) returns (run: seq<Event>)
    requires Truth(g, H, truth) && g.pieceLength + BLOCK <= U32
    requires Serves(g, truth, net, m) && Sized(g, net)
    requires forall k :: 0 <= k < |net.nodes| ==> NoFalseMatch(g, H, truth, net.nodes[k].disk)
    ensures PossibleRun(g, H, net, run)
    ensures |Outcome(g, H, net, run).nodes| == |net.nodes|
    ensures forall s :: s in Outcome(g, H, net, run).nodes ==> Complete(truth, s)
  {
    hide Serves, Truth, NoFalseMatch, Complete, Sized, PossibleRun, Outcome;
    TruthHolds(g, H, truth);
    var others := AllCanComplete(g, H, truth, net, m, |net.nodes|);
    var net' := Outcome(g, H, net, others);
    SeederMatches(g, H, truth, net', m);
    var last := NodeCanComplete(g, H, truth, net', m, m);
    EventsConcat(g, H, net, others, last);
    run := others + last;
    var after := Outcome(g, H, net, run);
    forall s | s in after.nodes ensures Complete(truth, s) {
      var k :| 0 <= k < |after.nodes| && after.nodes[k] == s;
      assert k == m || after.nodes[k] == net'.nodes[k];
    }
  }

  lemma SeederMatches(g: Geometry, H: bytes -> Digest, truth: bytes, net: Net, m: nat)
    requires WellFormed(g) && |truth| == g.total && Serves(g, truth, net, m)
    ensures m < |net.nodes| && |net.nodes[m].disk| == g.total && NoFalseMatch(g, H, truth, net.nodes[m].disk)
  {
    hide PieceAt, CeilDiv, Shape, P.AllMarked;
  }

  // --- created torrents ---

  lemma CreatedTruth(H: bytes -> Digest, source: Creator.Source)
    requires CeilDiv(|Creator.AllContent(source)|, Creator.DEFAULT_PIECE_LENGTH) < U32
    ensures Truth(Creator.CreatedGeometry(H, source), H, Creator.AllContent(source))
  {
    hide Creator.PieceHashes, Creator.AllContent, CeilDiv, PieceAt;
    var g, truth := Creator.CreatedGeometry(H, source), Creator.AllContent(source);
    Creator.HashesAt(H, truth, Creator.DEFAULT_PIECE_LENGTH);
    forall i | 0 <= i < |g.hashes| ensures H(PieceAt(g, truth, i)) == g.hashes[i] {
      Creator.CreatedPieceMatches(H, source, i);
    }
  }

  lemma StartServes(g: Geometry, H: bytes -> Digest, truth: bytes, disks: seq<bytes>, m: nat)
    requires Truth(g, H, truth) && (forall d :: d in disks ==> |d| == g.total)
    requires m < |disks| && disks[m] == truth
    ensures Serves(g, truth, Start(g, H, disks), m) && Sized(g, Start(g, H, disks))
    ensures |Start(g, H, disks).nodes| == |disks|
  {
    hide Seeder, PieceAt, CeilDiv, Resume;
    SeederResumes(g, H, truth);
    forall n | 0 <= n < |disks| ensures |Start(g, H, disks).nodes[n].disk| == g.total {
      ResumeHasNoPeers(g, H, disks[n]);
    }
  }

  // A torrent is created, engine m is started over the files it was made from, and others over any disks. Whatever
  // has happened between them, doubled requests, lost connections and restarts included, the run can be continued
  // until every engine has exactly those files; only no piece on a disk may match its hash falsely.
  lemma CreatedTorrentDistributes(H: bytes -> Digest, source: Creator.Source, disks: seq<bytes>, m: nat,
                                  run: seq<Event>)
    returns (more: seq<Event>)
    requires CeilDiv(|Creator.AllContent(source)|, Creator.DEFAULT_PIECE_LENGTH) < U32
    requires forall d :: d in disks ==> |d| == |Creator.AllContent(source)|
    requires m < |disks| && disks[m] == Creator.AllContent(source)
    requires WellFormed(Creator.CreatedGeometry(H, source))
    requires var g := Creator.CreatedGeometry(H, source);
             && PossibleRun(g, H, Start(g, H, disks), run)
             && forall s :: s in Outcome(g, H, Start(g, H, disks), run).nodes ==>
                  |s.disk| == g.total && NoFalseMatch(g, H, Creator.AllContent(source), s.disk)
    ensures var g, truth := Creator.CreatedGeometry(H, source), Creator.AllContent(source);
            && PossibleRun(g, H, Start(g, H, disks), run + more)
            && |Outcome(g, H, Start(g, H, disks), run + more).nodes| == |disks|
            && forall s :: s in Outcome(g, H, Start(g, H, disks), run + more).nodes ==> Complete(truth, s)
  {
    var g, truth := Creator.CreatedGeometry(H, source), Creator.AllContent(source);
    assert g.total == |truth| && g.pieceLength + BLOCK <= U32;
    CreatedTruth(H, source);
    hide Creator.CreatedGeometry, Creator.AllContent, NoFalseMatch, PossibleRun, Outcome, Serves, Sized, Truth,
      Complete, Start;
    var start := Start(g, H, disks);
    StartServes(g, H, truth, disks, m);
    RunServes(g, H, truth, start, m, run);
    var net := Outcome(g, H, start, run);
    more := EveryoneCanComplete(g, H, truth, net, m);
    EventsConcat(g, H, start, run, more);
  }
}
