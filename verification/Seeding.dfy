// Engines connected to a seeder: clients that share what one engine has, which fetches nothing itself.
module Seeding {
  import opened Prelude
  import opened Geometry
  import opened Swarm
  import opened SwarmProofs
  import opened SwarmTruth
  import opened Network
  import opened NetworkOrder
  import opened Sharing
  import opened Losses
  import P = SwarmProgress

  // All of the torrent, and nobody fetching.
  predicate Seeder(g: Geometry, truth: bytes, s: State)
    requires WellFormed(g) && |truth| == g.total
  {
    && Shape(g, s) && P.AllMarked(s) && s.disk == truth && s.missing == [] && s.refunds == []
    && forall ph :: ph in s.peers ==> ph.Gone? || (ph.Waiting? && ph.guard.complete)
  }

  // One block at most, inside its piece, and true.
  predicate WellPlaced(g: Geometry, truth: bytes, m: Message)
    requires WellFormed(g)
  {
    InPlace(g, m) && (m.Piece? ==> IsGenuine(g, truth, m))
  }

  predicate ClientEnd(g: Geometry, truth: bytes, net: Net, e: nat)
    requires WellFormed(g) && e < |net.ends|
  {
    PlacedEnd(g, net, e) && forall m :: m in Pending(net, e) ==> WellPlaced(g, truth, m)
  }

  predicate FrameEnd(g: Geometry, truth: bytes, net: Net, m: nat, clients: set<nat>, e: nat)
    requires WellFormed(g) && e < |net.ends|
  {
    && Other(e) < |net.ends| && net.ends[e].node < |net.nodes|
    && if net.ends[e].node == m then net.ends[Other(e)].node in clients && Pending(net, e) == []
       else net.ends[e].node in clients && net.ends[Other(e)].node == m && ClientEnd(g, truth, net, e)
  }

  // Engine m is a seeder, the engines in `clients` are not, and each connection from `base` on leads from a client
  // to m.
  predicate Frame(g: Geometry, truth: bytes, net: Net, base: nat, m: nat, clients: set<nat>)
    requires WellFormed(g) && |truth| == g.total
  {
    && Wired(net) && base % 2 == 0 && base <= |net.ends|
    && m < |net.nodes| && m !in clients && Seeder(g, truth, net.nodes[m])
    && (forall n :: n in clients ==> n < |net.nodes| && Shape(g, net.nodes[n]))
    && (forall e :: base <= e < |net.ends| ==> FrameEnd(g, truth, net, m, clients, e))
  }

  predicate Star(g: Geometry, truth: bytes, net: Net, base: nat, m: nat, clients: set<nat>)
    requires WellFormed(g) && |truth| == g.total
  {
    Frame(g, truth, net, base, m, clients) && AllSettled(g, truth, net, base, clients)
  }

  // Events of that part of the network: of the connections from `base` on, and of their engines. A session starts
  // from a disk without false matches.
  predicate InStar(g: Geometry, H: bytes -> Digest, truth: bytes, net: Net, base: nat, m: nat, clients: set<nat>,
                   ev: Event)
    requires WellFormed(g) && |truth| == g.total && Possible(g, net, ev)
  {
    match ev
    case Dial(a, b) => (a == m && b in clients) || (a in clients && b == m)
    case Refund(n, _) => n == m || n in clients
    case Reset(n) => (n == m || n in clients) && NoFalseMatch(g, H, truth, net.nodes[n].disk)
    case _ => ActorOf(ev).value >= base
  }

  // --- it is a network of engines that share ---

  lemma FrameIsPlaced(g: Geometry, truth: bytes, net: Net, base: nat, m: nat, clients: set<nat>)
    requires WellFormed(g) && |truth| == g.total && Frame(g, truth, net, base, m, clients)
    ensures Placed(g, net, base, clients) && Genuine(g, truth, net, base, clients)
  {
    hide Seeder, Shape, Wired, PlacedEnd, RepliesIn, RequestsIn, WellPlaced, IsGenuine;
    forall e | base <= e < |net.ends| && net.ends[e].node in clients
      ensures PlacedEnd(g, net, e) && GenuineEnd(g, truth, net, e)
    {
      assert FrameEnd(g, truth, net, m, clients, e);
      RepliesAreReplies(net.ends[e].inbox);
      ClientIsGenuine(g, truth, net, e);
    }
  }

  lemma {:induction false} RepliesAreReplies(ms: seq<Message>)
    ensures forall m :: m in RepliesIn(ms) ==> m.Piece?
  {
    if ms != [] {
      RepliesAreReplies(ms[1..]);
    }
  }

  lemma ClientIsGenuine(g: Geometry, truth: bytes, net: Net, e: nat)
    requires WellFormed(g) && e < |net.ends| && ClientEnd(g, truth, net, e)
    ensures GenuineEnd(g, truth, net, e)
  {
    hide RepliesIn, RequestsIn, InPlace, LoopFits;
    RepliesAreReplies(net.ends[e].inbox);
    forall m | m in RepliesIn(net.ends[e].inbox) ensures IsGenuine(g, truth, m) {
      assert m in Pending(net, e);
    }
  }

  lemma StarIsFaithful(g: Geometry, truth: bytes, net: Net, base: nat, m: nat, clients: set<nat>)
    requires WellFormed(g) && |truth| == g.total && Frame(g, truth, net, base, m, clients)
    ensures Star(g, truth, net, base, m, clients) <==> Faithful(g, truth, net, base, clients)
  {
    hide Frame, Placed, Genuine, AllSettled;
    FrameIsPlaced(g, truth, net, base, m, clients);
  }

  lemma StarIsWithin(g: Geometry, H: bytes -> Digest, truth: bytes, net: Net, base: nat, m: nat, clients: set<nat>,
                     ev: Event)
    requires WellFormed(g) && |truth| == g.total && Possible(g, net, ev)
    requires InStar(g, H, truth, net, base, m, clients, ev)
    ensures Within(net, base, clients, ev)
  {
  }

  // --- the seeder stays one ---

  lemma SeederSteps(g: Geometry, H: bytes -> Digest, truth: bytes, s: State, a: Action)
    requires Truth(g, H, truth) && Seeder(g, truth, s) && Enabled(g, s, a) && !a.Write?
    ensures Seeder(g, truth, Next(g, H, s, a))
  {
    hide CeilDiv, PieceAt, MissingBelow, ResumedBytes;
    StepKeepsShape(g, H, s, a);
    assert forall p :: 0 <= p < |s.peers| ==> s.peers[p] in s.peers;
    if a.Restart? {
      SeederResumes(g, H, truth);
    }
  }

  // A session over the true content has all pieces and nothing to fetch.
  lemma SeederResumes(g: Geometry, H: bytes -> Digest, truth: bytes)
    requires Truth(g, H, truth)
    ensures Seeder(g, truth, Resume(g, H, truth))
  {
    hide CeilDiv, PieceAt, ResumedBytes;
    ResumeInv(g, H, truth);
    ResumeHasNoPeers(g, H, truth);
    var s := Resume(g, H, truth);
    MissingBelowMembers(s.have, |s.have|);
  }

  // A Piece message that is read is a true block, and read by a client.
  lemma ReadIsWellPlaced(g: Geometry, truth: bytes, net: Net, base: nat, m: nat, clients: set<nat>, e: nat)
    requires WellFormed(g) && |truth| == g.total && Frame(g, truth, net, base, m, clients)
    requires Possible(g, net, Read(e)) && base <= e && net.ends[e].inbox[0].Piece?
    ensures net.ends[e].node in clients && WellPlaced(g, truth, net.ends[e].inbox[0])
    ensures Other(e) < |net.ends| && net.ends[e].inbox[0] in Pending(net, e)
  {
    hide RepliesIn, RequestsIn, WellPlaced, Wired, Seeder, PlacedEnd;
    assert FrameEnd(g, truth, net, m, clients, e);
    HeadOf(net.ends[e].inbox);
    assert net.ends[e].inbox[0] in RepliesIn(net.ends[e].inbox);
  }

  // The seeder answers what a client requests, truly.
  lemma RequestServed(g: Geometry, H: bytes -> Digest, truth: bytes, net: Net, base: nat, m: nat, clients: set<nat>,
                      e: nat)
    requires WellFormed(g) && |truth| == g.total && Frame(g, truth, net, base, m, clients)
    requires base <= e < |net.ends| && net.ends[e].node in clients && Possible(g, net, Read(Other(e)))
    requires net.ends[Other(e)].inbox[0].Request?
    ensures Other(e) < |net.ends| && !Refuses(g, net, Read(Other(e)))
    ensures !Misleads(g, truth, net, base, clients, Read(Other(e)))
    ensures var request, sent := net.ends[Other(e)].inbox[0], Sent(g, H, net, Read(Other(e)));
            && |sent| == 1 && WellPlaced(g, truth, sent[0])
            && (forall x :: IsAbout(g, request, x) ==> IsAbout(g, sent[0], x))
  {
    hide RepliesIn, RequestsIn, Wired, Seeder, IsAbout, Reply, PhaseAt, LoopFits, PlacedEnd, ClientEnd, InPlace,
      IsGenuine;
    FrameIsPlaced(g, truth, net, base, m, clients);
    assert FrameEnd(g, truth, net, m, clients, e);
    RequestAnswered(g, H, net, base, clients, e);
    var request := net.ends[Other(e)].inbox[0];
    SeederReplies(g, truth, net.nodes[m], request);
  }

  lemma SeederReplies(g: Geometry, truth: bytes, s: State, m: Message)
    requires WellFormed(g) && |truth| == g.total && Seeder(g, truth, s) && m.Request? && InPlace(g, m)
    ensures Reply(g, s, m.index, m.begin, m.length) != [] && TrueOnDisk(g, truth, s.disk, m)
    ensures IsGenuine(g, truth, Reply(g, s, m.index, m.begin, m.length)[0])
  {
    hide IsGenuine;
    PieceBounds(g, m.index);
    assert TrueOnDisk(g, truth, s.disk, m);
    ServedIsGenuine(g, truth, s, m);
  }

  lemma SeederStays(g: Geometry, H: bytes -> Digest, truth: bytes, net: Net, base: nat, m: nat, clients: set<nat>,
                    ev: Event)
    requires Truth(g, H, truth) && Frame(g, truth, net, base, m, clients)
    requires Possible(g, net, ev) && InStar(g, H, truth, net, base, m, clients, ev)
    ensures m < |Happen(g, H, net, ev).nodes| && Seeder(g, truth, Happen(g, H, net, ev).nodes[m])
  {
    hide Happen, Next, Wired, Seeder, FrameEnd, PieceAt, RepliesIn, RequestsIn;
    EndsAfter(g, H, net, ev);
    var step := StepOf(g, net, ev);
    if NodeOf(g, net, ev) == m && step.Some? {
      if step.value.Write? {
        ReadIsWellPlaced(g, truth, net, base, m, clients, ev.e);
        assert false;
      }
      SeederSteps(g, H, truth, net.nodes[m], step.value);
    }
  }

  // The seeder requests nothing, so nothing is ever under way for it.
  lemma SeederEndStays(g: Geometry, H: bytes -> Digest, truth: bytes, net: Net, base: nat, m: nat,
                       clients: set<nat>, ev: Event, e: nat)
    requires WellFormed(g) && |truth| == g.total && Frame(g, truth, net, base, m, clients) && Possible(g, net, ev)
    requires base <= e < |net.ends| && net.ends[e].node == m
    ensures e < |Happen(g, H, net, ev).ends| && Other(e) < |Happen(g, H, net, ev).ends|
    ensures Pending(Happen(g, H, net, ev), e) == []
  {
    hide Happen, Next, Wired, RepliesIn, RequestsIn, Ask, ClientEnd, Shape, P.AllMarked;
    EndsAfter(g, H, net, ev);
    assert FrameEnd(g, truth, net, m, clients, e);
    PendingIs(g, H, net, ev, e);
    WiredAt(net, e);
    if ev == Read(e) {
      HeadOf(net.ends[e].inbox);
      CompleteAsksNothing(g, PhaseAt(net, e).guard);
    } else if ev == Read(Other(e)) {
      HeadOf(net.ends[Other(e)].inbox);
    }
  }

  // --- the frame stays in every event ---

  lemma ClientEndStays(g: Geometry, H: bytes -> Digest, truth: bytes, net: Net, base: nat, m: nat, clients: set<nat>,
                       ev: Event, e: nat)
    requires WellFormed(g) && |truth| == g.total && Frame(g, truth, net, base, m, clients)
    requires Possible(g, net, ev) && base <= e < |net.ends| && net.ends[e].node in clients
    ensures e < |Happen(g, H, net, ev).ends| && ClientEnd(g, truth, Happen(g, H, net, ev), e)
  {
    hide Happen, Wired, Seeder, RepliesIn, RequestsIn, PlacedEnd, InPlace, IsGenuine, Shape, Sent;
    EndsAfter(g, H, net, ev);
    SameNode(g, H, net, ev, e);
    FrameIsPlaced(g, truth, net, base, m, clients);
    PlacedEndStays(g, H, net, base, clients, ev, e);
    assert FrameEnd(g, truth, net, m, clients, e);
    PendingIs(g, H, net, ev, e);
    PlacedIs(g, Happen(g, H, net, ev), e);
    if ev == Read(Other(e)) && net.ends[Other(e)].inbox[0].Request? {
      RequestServed(g, H, truth, net, base, m, clients, e);
      HeadOf(net.ends[Other(e)].inbox);
    } else if ev == Read(e) && net.ends[e].inbox[0].Piece? {
      HeadOf(net.ends[e].inbox);
    } else if ev == Proceed(e) || (ev == Read(e) && net.ends[e].inbox[0].Unchoke?) {
      AsksOnly(g, H, net, ev);
    }
  }

  lemma PlacedIs(g: Geometry, net: Net, e: nat)
    requires WellFormed(g) && e < |net.ends| && PlacedEnd(g, net, e)
    ensures Other(e) < |net.ends| && forall m :: m in Pending(net, e) ==> InPlace(g, m)
  {
  }

  lemma AsksOnly(g: Geometry, H: bytes -> Digest, net: Net, ev: Event)
    requires WellFormed(g) && Possible(g, net, ev)
    requires ev.Proceed? || (ev.Read? && net.ends[ev.e].inbox[0].Unchoke?)
    ensures forall m :: m in Sent(g, H, net, ev) ==> m.Request?
  {
    hide PhaseAfter, GetRequestLength, NodeOf;
  }

  lemma FrameEndStays(g: Geometry, H: bytes -> Digest, truth: bytes, net: Net, base: nat, m: nat, clients: set<nat>,
                      ev: Event, e: nat)
    requires WellFormed(g) && |truth| == g.total && Frame(g, truth, net, base, m, clients)
    requires Possible(g, net, ev) && InStar(g, H, truth, net, base, m, clients, ev)
    requires base <= e < |Happen(g, H, net, ev).ends|
    ensures FrameEnd(g, truth, Happen(g, H, net, ev), m, clients, e)
  {
    hide Happen, Wired, Seeder, Pending, ClientEnd, InStar, Shape;
    EndsAfter(g, H, net, ev);
    if e < |net.ends| {
      assert FrameEnd(g, truth, net, m, clients, e);
      SameNode(g, H, net, ev, e);
      SameNode(g, H, net, ev, Other(e));
      if net.ends[e].node == m {
        SeederEndStays(g, H, truth, net, base, m, clients, ev, e);
      } else {
        ClientEndStays(g, H, truth, net, base, m, clients, ev, e);
      }
    } else {
      DialedEnd(g, H, truth, net, base, m, clients, ev, e);
    }
  }

  lemma DialedEnd(g: Geometry, H: bytes -> Digest, truth: bytes, net: Net, base: nat, m: nat, clients: set<nat>,
                  ev: Event, e: nat)
    requires WellFormed(g) && |truth| == g.total && Frame(g, truth, net, base, m, clients)
    requires Possible(g, net, ev) && InStar(g, H, truth, net, base, m, clients, ev)
    requires |net.ends| <= e < |Happen(g, H, net, ev).ends|
    ensures FrameEnd(g, truth, Happen(g, H, net, ev), m, clients, e)
      {
    hide Frame, InStar, FrameEnd, NodeAfter, Happen, EndAfter, Pending, PhaseAt, Possible;
    var net' := Happen(g, H, net, ev);
    FrameBasics(g, truth, net, base, m, clients);
    DialInStar(g, H, truth, net, base, m, clients, ev);
    EndsAfter(g, H, net, ev);
    DialedEnds(g, H, net, ev);
    OtherOfNew(|net.ends|, e);
    UntouchedEnd(net', e);
    NewFrameEnd(g, truth, net', m, clients, e);
  }

  lemma FrameBasics(g: Geometry, truth: bytes, net: Net, base: nat, m: nat, clients: set<nat>)
    requires WellFormed(g) && |truth| == g.total && Frame(g, truth, net, base, m, clients)
    ensures Wired(net) && base <= |net.ends| && |net.ends| % 2 == 0 && m < |net.nodes| && m !in clients
    ensures forall n :: n in clients ==> n < |net.nodes|
  {
    hide Seeder, FrameEnd, Shape;
  }

  lemma DialInStar(g: Geometry, H: bytes -> Digest, truth: bytes, net: Net, base: nat, m: nat, clients: set<nat>,
                   ev: Event)
    requires WellFormed(g) && |truth| == g.total && Possible(g, net, ev)
    requires InStar(g, H, truth, net, base, m, clients, ev)
    requires |Happen(g, H, net, ev).ends| > |net.ends|
    ensures ev.Dial? && ((ev.n == m && ev.m in clients) || (ev.n in clients && ev.m == m))
  {
    hide NodeAfter, EndAfter;
  }

  lemma NewFrameEnd(g: Geometry, truth: bytes, net: Net, m: nat, clients: set<nat>, e: nat)
    requires WellFormed(g) && e < |net.ends| && Other(e) < |net.ends| && net.ends[e].node < |net.nodes|
    requires (net.ends[e].node == m && net.ends[Other(e)].node in clients)
          || (net.ends[e].node in clients && net.ends[Other(e)].node == m)
    requires Pending(net, e) == [] && PhaseAt(net, e).Gone? && m !in clients
    ensures FrameEnd(g, truth, net, m, clients, e)
  {
  }

  // Whatever happens, connections end included.
  lemma FrameStays(g: Geometry, H: bytes -> Digest, truth: bytes, net: Net, base: nat, m: nat, clients: set<nat>,
                   ev: Event)
    requires Truth(g, H, truth) && Frame(g, truth, net, base, m, clients)
    requires Possible(g, net, ev) && InStar(g, H, truth, net, base, m, clients, ev)
    ensures Frame(g, truth, Happen(g, H, net, ev), base, m, clients)
  {
    hide Happen, InStar, FrameEnd, Seeder, Shape, EndAfter, NodeAfter, NodeOf, Possible;
    WiringAfter(g, H, net, ev);
    EndsAfter(g, H, net, ev);
    SeederStays(g, H, truth, net, base, m, clients, ev);
    forall n | n in clients ensures n < |Happen(g, H, net, ev).nodes| && Shape(g, Happen(g, H, net, ev).nodes[n]) {
      ClientShape(g, H, truth, net, base, m, clients, ev, n);
    }
    forall e | base <= e < |Happen(g, H, net, ev).ends|
      ensures FrameEnd(g, truth, Happen(g, H, net, ev), m, clients, e)
    {
      FrameEndStays(g, H, truth, net, base, m, clients, ev, e);
    }
  }

  lemma ClientShape(g: Geometry, H: bytes -> Digest, truth: bytes, net: Net, base: nat, m: nat, clients: set<nat>,
                    ev: Event, n: nat)
    requires WellFormed(g) && |truth| == g.total && Frame(g, truth, net, base, m, clients)
    requires Possible(g, net, ev) && n in clients
    ensures n < |Happen(g, H, net, ev).nodes| && Shape(g, Happen(g, H, net, ev).nodes[n])
  {
    hide Happen, Frame, Placed, Shape;
    FrameIsPlaced(g, truth, net, base, m, clients);
    ShapeStays(g, H, net, base, clients, ev, n);
  }

  // --- what the clients rely on ---

  lemma EndOfClient(g: Geometry, truth: bytes, net: Net, m: nat, clients: set<nat>, e: nat)
    requires WellFormed(g) && e < |net.ends| && FrameEnd(g, truth, net, m, clients, e) && net.ends[e].node in clients
    requires m !in clients
    ensures Other(e) < |net.ends| && net.ends[e].node < |net.nodes|
    ensures net.ends[Other(e)].node == m && ClientEnd(g, truth, net, e)
  {
  }

  lemma StarBasics(g: Geometry, truth: bytes, net: Net, base: nat, m: nat, clients: set<nat>)
    requires WellFormed(g) && |truth| == g.total && Star(g, truth, net, base, m, clients)
    ensures Frame(g, truth, net, base, m, clients) && AllSettled(g, truth, net, base, clients)
    ensures Wired(net) && base <= |net.ends| && |net.ends| % 2 == 0 && m < |net.nodes| && m !in clients
    ensures forall n :: n in clients ==> n < |net.nodes|
  {
    hide AllSettled;
    FrameBasics(g, truth, net, base, m, clients);
  }

  lemma EndOfStar(g: Geometry, truth: bytes, net: Net, base: nat, m: nat, clients: set<nat>, e: nat)
    requires WellFormed(g) && |truth| == g.total && Frame(g, truth, net, base, m, clients) && base <= e < |net.ends|
    ensures FrameEnd(g, truth, net, m, clients, e) && Other(e) < |net.ends|
  {
    hide Seeder, Wired, Shape, PlacedEnd;
  }

  lemma StarStaysExactly(g: Geometry, H: bytes -> Digest, truth: bytes, net: Net, base: nat, m: nat, clients: set<nat>,
                         ev: Event)
    requires Truth(g, H, truth) && Star(g, truth, net, base, m, clients)
    requires Possible(g, net, ev) && InStar(g, H, truth, net, base, m, clients, ev)
    ensures Star(g, truth, Happen(g, H, net, ev), base, m, clients)
       <==> Keeps(g, H, truth, net, base, clients, ev)
  {
    hide Truth, Frame, Star, Faithful, Happen, InStar, Possible, Keeps;
    TruthHolds(g, H, truth);
    StarBasics(g, truth, net, base, m, clients);
    FrameStays(g, H, truth, net, base, m, clients, ev);
    StarIsFaithful(g, truth, net, base, m, clients);
    StarIsFaithful(g, truth, Happen(g, H, net, ev), base, m, clients);
    StarIsWithin(g, H, truth, net, base, m, clients, ev);
    StaysFaithfulExactly(g, H, truth, net, base, clients, ev);
  }

  // Nothing is refused to a client, and no false byte served.
  lemma ClientsAreServed(g: Geometry, H: bytes -> Digest, truth: bytes, net: Net, base: nat, m: nat,
                         clients: set<nat>, ev: Event)
    requires WellFormed(g) && |truth| == g.total && Frame(g, truth, net, base, m, clients)
    requires Possible(g, net, ev) && InStar(g, H, truth, net, base, m, clients, ev) && Ordinary(ev)
    ensures Regular(g, net, ev) && !Misleads(g, truth, net, base, clients, ev)
  {
    hide Frame, Misleads, Reply, NodeOf;
    if ev.Read? && net.ends[ev.e].inbox[0].Request? {
      RequestIsOfClient(g, truth, net, base, m, clients, ev.e);
      assert Other(Other(ev.e)) == ev.e;
      RequestServed(g, H, truth, net, base, m, clients, Other(ev.e));
    } else {
      ReadsNoRequest(g, truth, net, base, clients, ev);
    }
  }

  lemma ReadsNoRequest(g: Geometry, truth: bytes, net: Net, base: nat, clients: set<nat>, ev: Event)
    requires Possible(g, net, ev) && !(ev.Read? && net.ends[ev.e].inbox[0].Request?)
    ensures !Refuses(g, net, ev) && !Misleads(g, truth, net, base, clients, ev)
  {
  }

  lemma RequestIsOfClient(g: Geometry, truth: bytes, net: Net, base: nat, m: nat, clients: set<nat>, e: nat)
    requires WellFormed(g) && |truth| == g.total && Frame(g, truth, net, base, m, clients)
    requires base <= e && Possible(g, net, Read(e)) && net.ends[e].inbox[0].Request?
    ensures base <= Other(e) < |net.ends| && net.ends[Other(e)].node in clients
  {
    hide RepliesIn, RequestsIn, Wired, Seeder, Shape, ClientEnd, PhaseAt;
    assert FrameEnd(g, truth, net, m, clients, e);
    WiredAt(net, e);
    assert FrameEnd(g, truth, net, m, clients, Other(e));
    HeadOf(net.ends[e].inbox);
  }

  // While its peer loops neither end nor go on in vain everything stays settled. In particular:
  lemma StarStays(g: Geometry, H: bytes -> Digest, truth: bytes, net: Net, base: nat, m: nat, clients: set<nat>,
                  ev: Event)
    requires Truth(g, H, truth) && Star(g, truth, net, base, m, clients)
    requires Possible(g, net, ev) && InStar(g, H, truth, net, base, m, clients, ev) && Ordinary(ev)
    requires ev.Proceed? && Other(ev.e) < |net.ends| ==> !Ended(net, Other(ev.e))
    ensures Keeps(g, H, truth, net, base, clients, ev)
    ensures Star(g, truth, Happen(g, H, net, ev), base, m, clients)
  {
    hide Truth, Frame, AllSettled, Happen, InStar, Possible, NextSettled, Misleads, Refuses, Ended;
    TruthHolds(g, H, truth);
    ClientsAreServed(g, H, truth, net, base, m, clients, ev);
    StarStaysExactly(g, H, truth, net, base, m, clients, ev);
  }

  // --- every run ---

  predicate StarRun(g: Geometry, H: bytes -> Digest, truth: bytes, net: Net, base: nat, m: nat, clients: set<nat>,
                    run: seq<Event>)
    requires WellFormed(g) && |truth| == g.total && PossibleRun(g, H, net, run)
    decreases |run|
  {
    run == [] || (InStar(g, H, truth, net, base, m, clients, run[0])
                  && StarRun(g, H, truth, Happen(g, H, net, run[0]), base, m, clients, run[1..]))
  }

  predicate AlwaysStar(g: Geometry, H: bytes -> Digest, truth: bytes, net: Net, base: nat, m: nat, clients: set<nat>,
                       run: seq<Event>)
    requires WellFormed(g) && |truth| == g.total && PossibleRun(g, H, net, run)
    decreases |run|
  {
    && Star(g, truth, net, base, m, clients)
    && (run == [] || AlwaysStar(g, H, truth, Happen(g, H, net, run[0]), base, m, clients, run[1..]))
  }

  lemma {:induction false} RunStaysStarExactly(g: Geometry, H: bytes -> Digest, truth: bytes, net: Net, base: nat,
                                               m: nat, clients: set<nat>, run: seq<Event>)
    requires Truth(g, H, truth) && Star(g, truth, net, base, m, clients)
    requires PossibleRun(g, H, net, run) && StarRun(g, H, truth, net, base, m, clients, run)
    ensures AlwaysStar(g, H, truth, net, base, m, clients, run) <==> KeepsRun(g, H, truth, net, base, clients, run)
    ensures KeepsRun(g, H, truth, net, base, clients, run) ==>
              Star(g, truth, Outcome(g, H, net, run), base, m, clients)
    decreases |run|
  {
    hide Star, InStar, Possible, Happen, Keeps;
    if run != [] {
      StarStaysExactly(g, H, truth, net, base, m, clients, run[0]);
      if Keeps(g, H, truth, net, base, clients, run[0]) {
        RunStaysStarExactly(g, H, truth, Happen(g, H, net, run[0]), base, m, clients, run[1..]);
      } else {
        StarBegins(g, H, truth, Happen(g, H, net, run[0]), base, m, clients, run[1..]);
      }
    }
  }

  lemma StarBegins(g: Geometry, H: bytes -> Digest, truth: bytes, net: Net, base: nat, m: nat, clients: set<nat>,
                     run: seq<Event>)
    requires WellFormed(g) && |truth| == g.total && PossibleRun(g, H, net, run)
    ensures AlwaysStar(g, H, truth, net, base, m, clients, run) ==> Star(g, truth, net, base, m, clients)
  {
  }

  // The engines below `count` except m.
  function Clients(count: nat, m: nat): (clients: set<nat>)
    ensures forall n: nat :: n in clients <==> n < count && n != m
  {
    if count == 0 then {} else Clients(count - 1, m) + (if count - 1 == m then {} else {count - 1})
  }

  lemma StartIsStar(g: Geometry, H: bytes -> Digest, truth: bytes, disks: seq<bytes>, m: nat)
    requires Truth(g, H, truth) && m < |disks| && disks[m] == truth
    requires forall d :: d in disks ==> |d| == g.total && NoFalseMatch(g, H, truth, d)
    ensures Star(g, truth, Start(g, H, disks), 0, m, Clients(|disks|, m))
  {
    hide Seeder, Resume, NoFalseMatch, Shape, MarkedSettled, Truth, Start;
    TruthHolds(g, H, truth);
    SeederResumes(g, H, truth);
    var net := Start(g, H, disks);
    StartNodes(g, H, disks);
    forall n | n in Clients(|disks|, m)
      ensures n < |net.nodes| && Shape(g, net.nodes[n]) && MarkedSettled(g, truth, net, 0, n)
    {
      StartedNode(g, H, truth, disks, n);
    }
  }

  // Engine m is started on the true content and the others on any disks; connections lead to m. After any run that
  // loses nothing every byte of every piece an engine has marked is true, or is in a request or reply that can still
  // arrive; so when nothing can its marked pieces are true.
  lemma SeededMarksAreSettled(g: Geometry, H: bytes -> Digest, truth: bytes, disks: seq<bytes>, m: nat,
                              run: seq<Event>)
    requires Truth(g, H, truth) && m < |disks| && disks[m] == truth
    requires forall d :: d in disks ==> |d| == g.total && NoFalseMatch(g, H, truth, d)
    requires PossibleRun(g, H, Start(g, H, disks), run)
    requires StarRun(g, H, truth, Start(g, H, disks), 0, m, Clients(|disks|, m), run)
    requires KeepsRun(g, H, truth, Start(g, H, disks), 0, Clients(|disks|, m), run)
    ensures var net := Outcome(g, H, Start(g, H, disks), run);
            forall n :: 0 <= n < |disks| && n != m ==> EngineSettled(g, truth, net, n)
  {
    hide Truth, NoFalseMatch, PossibleRun, StarRun, KeepsRun, Outcome, Start, Star, EngineSettled;
    TruthHolds(g, H, truth);
    StartIsStar(g, H, truth, disks, m);
    RunStaysStarExactly(g, H, truth, Start(g, H, disks), 0, m, Clients(|disks|, m), run);
    var net := Outcome(g, H, Start(g, H, disks), run);
    forall n | 0 <= n < |disks| && n != m ensures EngineSettled(g, truth, net, n) {
      StarSettles(g, truth, net, 0, m, Clients(|disks|, m));
      FaithfulIsSettled(g, truth, net, Clients(|disks|, m), n);
    }
  }

  lemma StarSettles(g: Geometry, truth: bytes, net: Net, base: nat, m: nat, clients: set<nat>)
    requires WellFormed(g) && |truth| == g.total && Star(g, truth, net, base, m, clients)
    ensures Faithful(g, truth, net, base, clients)
  {
    hide Frame, Faithful;
    StarIsFaithful(g, truth, net, base, m, clients);
  }

  // --- runs in which no connection is closed ---

  predicate ServersUp(net: Net, base: nat, m: nat) {
    forall e :: base <= e < |net.ends| && net.ends[e].node == m ==> !Ended(net, e)
  }

  // No peer loop ends but those of clients that start a new session.
  predicate NobodyLeaves(m: nat, run: seq<Event>) { forall ev :: ev in run ==> !ev.Hangup? && ev != Reset(m) }

  lemma CalmKeeps(g: Geometry, H: bytes -> Digest, truth: bytes, net: Net, base: nat, m: nat, clients: set<nat>,
                  ev: Event)
    requires Truth(g, H, truth) && Star(g, truth, net, base, m, clients) && ServersUp(net, base, m)
    requires Possible(g, net, ev) && InStar(g, H, truth, net, base, m, clients, ev)
    requires !ev.Hangup? && ev != Reset(m)
    ensures Keeps(g, H, truth, net, base, clients, ev) && ServersUp(Happen(g, H, net, ev), base, m)
  {
    hide Truth, Frame, AllSettled, Faithful, Happen, Possible, NextSettled, UnderWay, StillUnderWay, Ended, PhaseAt,
      Loses, Mistakes, InStar;
    TruthHolds(g, H, truth);
    if Ordinary(ev) {
      ProceedsBehindRunning(g, H, truth, net, base, m, clients, ev);
    } else {
      forall e | base <= e < |net.ends| && net.ends[e].node in clients && Other(e) < |net.ends|
                 && ev != Reset(net.ends[e].node)
        ensures StillUnderWay(net, ev, e) == UnderWay(net, e)
      {
        EndOfStar(g, truth, net, base, m, clients, e);
        FrameBasics(g, truth, net, base, m, clients);
        EndOfClient(g, truth, net, m, clients, e);
        SameUnderWay(net, ev, e);
      }
      StarSettles(g, truth, net, base, m, clients);
      NothingEnds(g, truth, net, base, clients, ev);
      ResetIsNoMistake(g, H, truth, net, base, m, clients, ev);
    }
    ServersStayUp(g, H, net, base, m, ev);
  }

  lemma ResetIsNoMistake(g: Geometry, H: bytes -> Digest, truth: bytes, net: Net, base: nat, m: nat, clients: set<nat>,
                         ev: Event)
    requires WellFormed(g) && |truth| == g.total && Possible(g, net, ev)
    requires InStar(g, H, truth, net, base, m, clients, ev)
    ensures !Mistakes(g, H, truth, net, clients, ev)
  {
  }

  lemma SameUnderWay(net: Net, ev: Event, e: nat)
    requires e < |net.ends| && Other(e) < |net.ends| && !Ordinary(ev) && !ev.Hangup?
    requires ev != Reset(net.ends[e].node) && ev != Reset(net.ends[Other(e)].node)
    ensures StillUnderWay(net, ev, e) == UnderWay(net, e)
  {
  }

  lemma ProceedsBehindRunning(g: Geometry, H: bytes -> Digest, truth: bytes, net: Net, base: nat, m: nat,
                              clients: set<nat>, ev: Event)
    requires WellFormed(g) && |truth| == g.total && Frame(g, truth, net, base, m, clients) && ServersUp(net, base, m)
    requires Possible(g, net, ev) && InStar(g, H, truth, net, base, m, clients, ev) && Ordinary(ev)
    ensures Keeps(g, H, truth, net, base, clients, ev)
  {
    hide Frame, Happen, NextSettled, UnderWay, Ended, PhaseAfter, FrameEnd, Regular, Misleads;
    ClientsAreServed(g, H, truth, net, base, m, clients, ev);
    if ev.Proceed? && net.ends[ev.e].node in clients {
      EndOfStar(g, truth, net, base, m, clients, ev.e);
      FrameBasics(g, truth, net, base, m, clients);
      EndOfClient(g, truth, net, m, clients, ev.e);
      OtherIsAbove(g, truth, net, base, m, clients, ev.e);
    }
  }

  lemma OtherIsAbove(g: Geometry, truth: bytes, net: Net, base: nat, m: nat, clients: set<nat>, e: nat)
    requires WellFormed(g) && |truth| == g.total && Frame(g, truth, net, base, m, clients) && base <= e
    ensures base <= Other(e)
  {
    hide Seeder, Shape, FrameEnd, Wired;
  }

  lemma ServersStayUp(g: Geometry, H: bytes -> Digest, net: Net, base: nat, m: nat, ev: Event)
    requires WellFormed(g) && Possible(g, net, ev) && ServersUp(net, base, m) && !ev.Hangup? && ev != Reset(m)
    ensures ServersUp(Happen(g, H, net, ev), base, m)
  {
    hide Happen, Ended, PhaseAt, Possible;
    var net' := Happen(g, H, net, ev);
    EndsAfter(g, H, net, ev);
    forall e | base <= e < |net'.ends| && net'.ends[e].node == m ensures !Ended(net', e) {
      if e >= |net.ends| {
        NewEnds(g, H, net, ev, e);
        UnbegunIsNotEnded(net', e);
      } else {
        SameNode(g, H, net, ev, e);
        if Ordinary(ev) {
          LivesOn(g, H, net, ev, e);
        } else {
          StillIs(g, H, net, ev, e);
          NotEndedAfter(net, ev, e);
        }
      }
    }
  }

  lemma NotEndedAfter(net: Net, ev: Event, e: nat)
    requires e < |net.ends| && !Ended(net, e) && !ev.Hangup? && ev != Reset(net.ends[e].node)
    ensures !EndedAfter(net, ev, e)
  {
  }

  // Then nothing is ever lost, however often blocks are requested, sent and counted twice.
  lemma {:induction false} CalmRunKeeps(g: Geometry, H: bytes -> Digest, truth: bytes, net: Net, base: nat, m: nat,
                                        clients: set<nat>, run: seq<Event>)
    requires Truth(g, H, truth) && Star(g, truth, net, base, m, clients) && ServersUp(net, base, m)
    requires PossibleRun(g, H, net, run) && StarRun(g, H, truth, net, base, m, clients, run) && NobodyLeaves(m, run)
    ensures KeepsRun(g, H, truth, net, base, clients, run)
    ensures Star(g, truth, Outcome(g, H, net, run), base, m, clients)
    decreases |run|
  {
    hide Star, InStar, Possible, Happen, Keeps, ServersUp;
    if run != [] {
      assert run[0] in run && forall ev :: ev in run[1..] ==> ev in run;
      CalmKeeps(g, H, truth, net, base, m, clients, run[0]);
      StarStaysExactly(g, H, truth, net, base, m, clients, run[0]);
      CalmRunKeeps(g, H, truth, Happen(g, H, net, run[0]), base, m, clients, run[1..]);
    }
  }
}
