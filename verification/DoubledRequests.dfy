// Why a network of these engines is not orderly. Each peer loop sends an Unchoke when it starts and another one in
// answer to the Interested of the other; both arrive before the first block, and each makes an incomplete guard send
// its request. The second reply then advances the guard past bytes that were never written.
module DoubledRequests {
  import opened Prelude
  import opened Geometry
  import opened Swarm
  import opened SwarmTruth
  import opened Network
  import opened Sharing
  import opened Losses

  // --- one connection inside a network ---

  // The last connection, of ends e and e + 1: peer loop p of engine n, the client, and q of engine m, the server.
  datatype Line = Line(e: nat, n: nat, m: nat, p: nat, q: nat)

  // A run of a network so far. `base` is the network before the connection; `truthful` says that no peer loop has ended
  // and each request was served with true bytes.
  datatype Story = Story(start: Net, run: seq<Event>, net: Net, base: Net, line: Line, truth: bytes, truthful: bool)

  predicate Told(g: Geometry, H: bytes -> Digest, x: Story) {
    && WellFormed(g) && PossibleRun(g, H, x.start, x.run) && Outcome(g, H, x.start, x.run) == x.net
    && OnLine(x.net, x.line) && Beside(x.base, x.net, x.line)
    && (x.truthful ==> TruthfulRun(g, H, x.truth, x.start, x.run))
  }

  predicate OnLine(net: Net, c: Line) {
    && Wired(net) && c.e % 2 == 0 && |net.ends| == c.e + 2
    && c.n != c.m && c.n < |net.nodes| && c.m < |net.nodes|
    && net.ends[c.e].node == c.n && net.ends[c.e].peer == Some(c.p) && c.p < |net.nodes[c.n].peers|
    && net.ends[c.e + 1].node == c.m && net.ends[c.e + 1].peer == Some(c.q) && c.q < |net.nodes[c.m].peers|
  }

  // The other engines and connections are where they were.
  predicate Beside(base: Net, net: Net, c: Line) {
    && |base.nodes| == |net.nodes| && |base.ends| == c.e <= |net.ends|
    && (forall k :: 0 <= k < |net.nodes| && k != c.n && k != c.m ==> net.nodes[k] == base.nodes[k])
    && (forall f :: 0 <= f < c.e ==> net.ends[f].node == base.ends[f].node)
  }

  // What matters of the two engines: the client's peer loop, whether it has the one piece, and its disk; what the
  // server serves; what is under way; and whether the server's peer loop still runs.
  datatype Scene =
    Scene(phase: Phase, have: bool, disk: bytes, served: bytes, toClient: seq<Message>, toServer: seq<Message>,
          up: bool)

  predicate Shows(x: Story, t: Scene) {
    && OnLine(x.net, x.line)
    && ClientIs(x.net.nodes[x.line.n], x.line.p, t) && ServerIs(x.net.nodes[x.line.m], x.line.q, t)
    && x.net.ends[x.line.e].inbox == t.toClient && x.net.ends[x.line.e + 1].inbox == t.toServer
  }

  predicate ClientIs(s: State, p: nat, t: Scene) {
    && p < |s.peers| && s.peers[p] == t.phase && s.have == [t.have] && s.disk == t.disk && s.missing == []
    && s.refunds == [] && forall q :: 0 <= q < |s.peers| && q != p ==> s.peers[q].Gone?
  }

  predicate ServerIs(s: State, q: nat, t: Scene) {
    && q < |s.peers| && (if t.up then s.peers[q].Waiting? && s.peers[q].guard.complete else s.peers[q].Gone?)
    && s.have == [true] && s.disk == t.served && s.missing == []
  }

  function On(g: Geometry, H: bytes -> Digest, x: Story, ev: Event): Story
    requires WellFormed(g) && Possible(g, x.net, ev)
  {
    x.(run := x.run + [ev], net := Happen(g, H, x.net, ev), truthful := x.truthful && Truthful(g, x.truth, x.net, ev))
  }

  // An event of one of the two ends.
  lemma GoesOn(g: Geometry, H: bytes -> Digest, x: Story, ev: Event)
    requires Told(g, H, x) && Possible(g, x.net, ev)
    requires ev == Read(x.line.e) || ev == Read(x.line.e + 1) || ev == Proceed(x.line.e) || ev == Hangup(x.line.e + 1)
    ensures Told(g, H, On(g, H, x, ev))
    ensures var y, c := On(g, H, x, ev), x.line;
            var sent := Sent(g, H, x.net, ev);
            if ev == Read(c.e + 1) then
              && y.net.nodes[c.m] == NodeAfter(g, H, x.net, ev) && y.net.nodes[c.n] == x.net.nodes[c.n]
              && y.net.ends[c.e].inbox == x.net.ends[c.e].inbox + sent
              && y.net.ends[c.e + 1].inbox == x.net.ends[c.e + 1].inbox[1..]
            else if ev.Hangup? then
              && y.net.nodes[c.m] == NodeAfter(g, H, x.net, ev) && y.net.nodes[c.n] == x.net.nodes[c.n]
              && y.net.ends[c.e].inbox == x.net.ends[c.e].inbox + sent
              && y.net.ends[c.e + 1].inbox == x.net.ends[c.e + 1].inbox
            else
              && y.net.nodes[c.n] == NodeAfter(g, H, x.net, ev) && y.net.nodes[c.m] == x.net.nodes[c.m]
              && y.net.ends[c.e].inbox == (if ev.Read? then x.net.ends[c.e].inbox[1..] else x.net.ends[c.e].inbox)
              && y.net.ends[c.e + 1].inbox == x.net.ends[c.e + 1].inbox + sent
  {
    hide Happen, NodeAfter, Sent, Wired, PossibleRun, Outcome, StepOf, Truthful, TruthfulRun;
    SingleEvent(g, H, x.net, ev);
    if x.truthful && Truthful(g, x.truth, x.net, ev) {
      TruthfulOn(g, H, x.truth, x.start, x.run, ev);
    }
    EventsConcat(g, H, x.start, x.run, [ev]);
    EndsAfter(g, H, x.net, ev);
    NodesGrow(g, H, x.net, ev);
    WiringAfter(g, H, x.net, ev);
  }

  // --- the messages, one at a time ---

  // A torrent of one piece of two blocks.
  predicate TwoBlocks(g: Geometry, H: bytes -> Digest, truth: bytes) {
    Truth(g, H, truth) && g.pieceLength == g.total == 2 * BLOCK
  }

  function RequestOf(offset: nat): Message { Request(0, offset, BLOCK) }

  function BlockAt(served: bytes, offset: nat): Message
    requires offset + BLOCK <= |served|
  {
    Piece(0, offset, served[offset..offset + BLOCK])
  }

  lemma Sizes(g: Geometry, H: bytes -> Digest, truth: bytes)
    requires TwoBlocks(g, H, truth)
    ensures WellFormed(g) && |g.hashes| == 1 && g.pieceLength == g.total == 2 * BLOCK
    ensures PieceSize(g, 0) == 2 * BLOCK && PieceStart(g, 0) == 0 && TargetSize(g, 0) == 2 * BLOCK
    ensures Ask(g, Guard(0, 0, false)) == [RequestOf(0)] && Ask(g, Guard(0, BLOCK, false)) == [RequestOf(BLOCK)]
    ensures forall d: bytes :: |d| == g.total ==> PieceAt(g, d, 0) == d
  {
    assert CeilDiv(g.total, g.pieceLength) == 1;
    TargetIsPieceSize(g, 0);
    RequestLengthIsRest(g, 0, 0);
    RequestLengthIsRest(g, 0, BLOCK);
  }

  // The client reads an Interested or an Unchoke.
  lemma Hears(g: Geometry, H: bytes -> Digest, x: Story, t: Scene, after: Scene) returns (y: Story)
    requires Told(g, H, x) && Shows(x, t) && t.phase.Waiting? && t.toClient != []
    requires t.toClient[0].Interested? || t.toClient[0].Unchoke?
    requires after == t.(toClient := t.toClient[1..],
                         toServer := t.toServer + if t.toClient[0].Unchoke? then Ask(g, t.phase.guard) else [Unchoke])
    ensures Told(g, H, y) && Shows(y, after) && y == x.(run := y.run, net := y.net) && x.run <= y.run
  {
    hide Happen, Wired, Ask, PossibleRun, Outcome, Beside;
    var ev := Read(x.line.e);
    GoesOn(g, H, x, ev);
    y := On(g, H, x, ev);
  }

  // The server has a true block there.
  predicate TrueAt(truth: bytes, served: bytes, offset: nat) {
    offset + BLOCK <= |truth| && offset + BLOCK <= |served|
    && served[offset..offset + BLOCK] == truth[offset..offset + BLOCK]
  }

  // The server reads an Interested, an Unchoke, or a request for one of the two blocks.
  lemma ServerReads(g: Geometry, H: bytes -> Digest, x: Story, t: Scene, after: Scene) returns (y: Story)
    requires Told(g, H, x) && Shows(x, t) && t.up && t.toServer != []
    requires |t.served| == |x.truth| == 2 * BLOCK && g.pieceLength == 2 * BLOCK
    requires var m := t.toServer[0];
             && (m.Interested? || m.Unchoke? || m == RequestOf(0) || m == RequestOf(BLOCK))
             && after == t.(toServer := t.toServer[1..],
                            toClient := t.toClient + if m.Interested? then [Unchoke] else if m.Unchoke? then []
                                                     else [BlockAt(t.served, m.begin)])
    ensures Told(g, H, y) && Shows(y, after) && y == x.(run := y.run, net := y.net, truthful := y.truthful)
    ensures y.run == x.run + [Read(x.line.e + 1)] && Possible(g, x.net, Read(x.line.e + 1))
    ensures y.truthful ==
              (x.truthful && (t.toServer[0].Request? ==> TrueAt(x.truth, t.served, t.toServer[0].begin)))
  {
    hide Happen, Wired, PossibleRun, Outcome, Beside, TruthfulRun, Truthful, TrueAt;
    var ev := Read(x.line.e + 1);
    GoesOn(g, H, x, ev);
    y := On(g, H, x, ev);
    ServesTruly(g, x, t);
  }

  lemma ServesTruly(g: Geometry, x: Story, t: Scene)
    requires Shows(x, t) && t.up && t.toServer != [] && |t.served| == |x.truth| == 2 * BLOCK
    requires g.pieceLength == 2 * BLOCK
    requires var m := t.toServer[0]; m.Interested? || m.Unchoke? || m == RequestOf(0) || m == RequestOf(BLOCK)
    ensures Possible(g, x.net, Read(x.line.e + 1))
    ensures Truthful(g, x.truth, x.net, Read(x.line.e + 1)) <==>
              (t.toServer[0].Request? ==> TrueAt(x.truth, t.served, t.toServer[0].begin))
  {
    hide Wired;
    var m := t.toServer[0];
    if m.Request? {
      TrueAtIs(g, x.truth, t.served, m);
    }
  }

  lemma TrueAtIs(g: Geometry, truth: bytes, served: bytes, m: Message)
    requires |served| == |truth| == 2 * BLOCK && (m == RequestOf(0) || m == RequestOf(BLOCK))
    ensures TrueOnDisk(g, truth, served, m) <==> TrueAt(truth, served, m.begin)
  {
    var at := m.begin;
    assert PieceStart(g, 0) == 0;
    if TrueAt(truth, served, at) {
      assert forall x :: at <= x < at + BLOCK ==>
          served[x] == served[at..at + BLOCK][x - at] && truth[x] == truth[at..at + BLOCK][x - at];
    }
    if TrueOnDisk(g, truth, served, m) {
      assert forall x :: at <= x < at + BLOCK ==> IsAbout(g, m, x);
    }
  }

  // The client reads a block, and counts it. It does not matter where the block belongs.
  lemma Receives(g: Geometry, H: bytes -> Digest, truth: bytes, x: Story, t: Scene, offset: nat, after: Scene)
    returns (y: Story)
    requires TwoBlocks(g, H, truth) && Told(g, H, x) && Shows(x, t) && |t.disk| == |t.served| == 2 * BLOCK
    requires t.phase.Waiting? && t.phase.guard.piece == 0 && t.toClient != [] && offset + BLOCK <= |t.served|
    requires t.toClient[0] == BlockAt(t.served, offset)
    requires var ph := Advance(g, t.phase.guard, BLOCK);
             after == t.(phase := ph, disk := Splice(t.disk, offset, BlockAt(t.served, offset).block),
                         toClient := t.toClient[1..], toServer := t.toServer + Resumed(g, ph))
    ensures Told(g, H, y) && Shows(y, after) && y == x.(run := y.run, net := y.net) && x.run <= y.run
  {
    hide Happen, Wired, PossibleRun, Outcome, Beside, Splice, Advance, Resumed, TwoBlocks;
    GoesOn(g, H, x, Read(x.line.e));
    var z := On(g, H, x, Read(x.line.e));
    GoesOn(g, H, z, Proceed(x.line.e));
    y := On(g, H, z, Proceed(x.line.e));
  }

  lemma ServerHangsUp(g: Geometry, H: bytes -> Digest, x: Story, t: Scene, after: Scene) returns (y: Story)
    requires Told(g, H, x) && Shows(x, t) && t.up && after == t.(up := false)
    ensures Told(g, H, y) && Shows(y, after) && y == x.(run := y.run, net := y.net, truthful := false)
  {
    hide Happen, Wired, PossibleRun, Outcome, Beside;
    var ev := Hangup(x.line.e + 1);
    GoesOn(g, H, x, ev);
    y := On(g, H, x, ev);
    assert x.net.ends[x.line.e].inbox + [] == x.net.ends[x.line.e].inbox;
  }

  lemma Marks(g: Geometry, H: bytes -> Digest, x: Story, t: Scene, after: Scene) returns (y: Story)
    requires Told(g, H, x) && Shows(x, t) && t.phase.Finished? && t.phase.guard.piece == 0
    requires after == t.(phase := Marked(t.phase.guard), have := true)
    ensures Told(g, H, y) && Shows(y, after) && y == x.(run := y.run, net := y.net) && x.run <= y.run
  {
    hide Happen, Wired, PossibleRun, Outcome, Beside;
    GoesOn(g, H, x, Proceed(x.line.e));
    y := On(g, H, x, Proceed(x.line.e));
  }

  // There is no next piece, so the guard stays complete and asks for nothing.
  lemma TakesNothing(g: Geometry, H: bytes -> Digest, x: Story, t: Scene, after: Scene) returns (y: Story)
    requires Told(g, H, x) && Shows(x, t) && t.phase.Marked? && t.phase.guard.complete
    requires after == t.(phase := Waiting(t.phase.guard))
    ensures Told(g, H, y) && Shows(y, after) && y == x.(run := y.run, net := y.net) && x.run <= y.run
  {
    hide Happen, Wired, PossibleRun, Outcome, Beside;
    GoesOn(g, H, x, Proceed(x.line.e));
    y := On(g, H, x, Proceed(x.line.e));
  }

  // --- connecting ---

  predicate Reaches(g: Geometry, H: bytes -> Digest, truth: bytes, start: Net, run: seq<Event>, net: Net) {
    && WellFormed(g) && PossibleRun(g, H, start, run) && Outcome(g, H, start, run) == net && Wired(net)
    && TruthfulRun(g, H, truth, start, run)
  }

  lemma ReachesOn(g: Geometry, H: bytes -> Digest, truth: bytes, start: Net, run: seq<Event>, net: Net, ev: Event)
    requires Reaches(g, H, truth, start, run, net) && Possible(g, net, ev) && (ev.Dial? || ev.Begin?)
    ensures Reaches(g, H, truth, start, run + [ev], Happen(g, H, net, ev))
  {
    hide Possible, Happen, PossibleRun, Outcome, TruthfulRun;
    TruthfulOn(g, H, truth, start, run, ev);
    SingleEvent(g, H, net, ev);
    EventsConcat(g, H, start, run, [ev]);
    WiringAfter(g, H, net, ev);
  }

  // Nothing but the new ends and these two engines' peer loops has changed.
  predicate Joined(net: Net, now: Net, n: nat, m: nat, p: Option<nat>, q: Option<nat>, toN: seq<Message>,
                   toM: seq<Message>)
  {
    && |now.nodes| == |net.nodes| && |now.ends| == |net.ends| + 2
    && now.ends[|net.ends|] == End(n, p, toN) && now.ends[|net.ends| + 1] == End(m, q, toM)
    && (forall k :: 0 <= k < |net.nodes| && k != n && k != m ==> now.nodes[k] == net.nodes[k])
    && (forall f :: 0 <= f < |net.ends| ==> now.ends[f].node == net.ends[f].node)
  }

  lemma Dialing(g: Geometry, H: bytes -> Digest, net: Net, n: nat, m: nat)
    requires WellFormed(g) && Wired(net) && n < |net.nodes| && m < |net.nodes| && n != m
    ensures Possible(g, net, Dial(n, m))
    ensures var now := Happen(g, H, net, Dial(n, m));
            Joined(net, now, n, m, None, None, [], []) && now.nodes[n] == net.nodes[n] && now.nodes[m] == net.nodes[m]
  {
    hide Wired, Happen;
    assert Possible(g, net, Dial(n, m));
    EndsAfter(g, H, net, Dial(n, m));
    DialedEnds(g, H, net, Dial(n, m));
  }

  lemma DialerBegins(g: Geometry, H: bytes -> Digest, net: Net, now: Net, n: nat, m: nat)
    requires WellFormed(g) && Wired(now) && |net.ends| % 2 == 0 && n != m && n < |now.nodes| && m < |now.nodes|
    requires Joined(net, now, n, m, None, None, [], [])
    ensures Possible(g, now, Begin(|net.ends|))
    ensures var next := Happen(g, H, now, Begin(|net.ends|));
            && Joined(net, next, n, m, Some(|now.nodes[n].peers|), None, [], GREETING)
            && next.nodes[n] == Next(g, H, now.nodes[n], Connect) && next.nodes[m] == now.nodes[m]
  {
    hide Wired, Happen, Next;
    assert Possible(g, now, Begin(|net.ends|));
    EndsAfter(g, H, now, Begin(|net.ends|));
    assert [] + GREETING == GREETING;
  }

  lemma DialedBegins(g: Geometry, H: bytes -> Digest, net: Net, now: Net, n: nat, m: nat, p: nat)
    requires WellFormed(g) && Wired(now) && |net.ends| % 2 == 0 && n != m && n < |now.nodes| && m < |now.nodes|
    requires Joined(net, now, n, m, Some(p), None, [], GREETING)
    ensures Possible(g, now, Begin(|net.ends| + 1))
    ensures var next := Happen(g, H, now, Begin(|net.ends| + 1));
            && Joined(net, next, n, m, Some(p), Some(|now.nodes[m].peers|), GREETING, GREETING)
            && next.nodes[m] == Next(g, H, now.nodes[m], Connect) && next.nodes[n] == now.nodes[n]
  {
    hide Wired, Happen, Next;
    assert Possible(g, now, Begin(|net.ends| + 1));
    EndsAfter(g, H, now, Begin(|net.ends| + 1));
    assert [] + GREETING == GREETING;
  }

  // An engine without the piece connects to one that has marked it.
  lemma Connects(g: Geometry, H: bytes -> Digest, truth: bytes, start: Net, run: seq<Event>, net: Net, n: nat, m: nat,
                 first: Scene)
    returns (x: Story)
    requires Reaches(g, H, truth, start, run, net) && n < |net.nodes| && m < |net.nodes| && n != m
    requires net.nodes[n].have == [false] && net.nodes[n].missing == [0]
    requires net.nodes[n].peers == [] && net.nodes[n].refunds == []
    requires net.nodes[m].have == [true] && net.nodes[m].missing == []
    requires first ==
      Scene(Waiting(Guard(0, 0, false)), false, net.nodes[n].disk, net.nodes[m].disk, GREETING, GREETING, true)
    ensures Told(g, H, x) && Shows(x, first)
    ensures x.start == start && x.base == net && x.line.n == n && x.line.m == m && x.truth == truth && x.truthful
  {
    var p, q, e := |net.nodes[n].peers|, |net.nodes[m].peers|, |net.ends|;
    hide Happen, Possible, PossibleRun, Outcome;
    Dialing(g, H, net, n, m);
    ReachesOn(g, H, truth, start, run, net, Dial(n, m));
    var one := Happen(g, H, net, Dial(n, m));
    assert Wired(one) && |net.ends| % 2 == 0;
    DialerBegins(g, H, net, one, n, m);
    ReachesOn(g, H, truth, start, run + [Dial(n, m)], one, Begin(e));
    var two := Happen(g, H, one, Begin(e));
    DialedBegins(g, H, net, two, n, m, p);
    ReachesOn(g, H, truth, start, run + [Dial(n, m)] + [Begin(e)], two, Begin(e + 1));
    x := Story(start, run + [Dial(n, m)] + [Begin(e)] + [Begin(e + 1)], Happen(g, H, two, Begin(e + 1)), net,
               Line(e, n, m, p, q), truth, true);
  }

  // --- the run ---

  // Each end gets a second Unchoke.
  lemma GreetingsCross(g: Geometry, H: bytes -> Digest, truth: bytes, x: Story, t: Scene, after: Scene)
    returns (y: Story)
    requires TwoBlocks(g, H, truth) && Told(g, H, x) && Shows(x, t) && t.up && |t.served| == |x.truth| == 2 * BLOCK
    requires t.phase.Waiting? && t.toClient == t.toServer == [Interested, Unchoke]
    requires after == t.(toClient := [Unchoke, Unchoke], toServer := [Unchoke])
    ensures Told(g, H, y) && Shows(y, after) && y == x.(run := y.run, net := y.net) && x.run <= y.run
  {
    hide Told, Shows, Ask, TwoBlocks, BlockAt;
    Sizes(g, H, truth);
    var i, u := Interested, Unchoke;
    var t1, t2 := t.(toClient := [i, u, u], toServer := [u]), t.(toClient := [i, u, u], toServer := []);
    y := ServerReads(g, H, x, t, t1);
    y := ServerReads(g, H, y, t1, t2);
    y := Hears(g, H, y, t2, after);
  }

  // Both Unchokes make the client request its first block.
  lemma RequestsTwice(g: Geometry, H: bytes -> Digest, truth: bytes, x: Story, t: Scene, after: Scene)
    returns (y: Story)
    requires TwoBlocks(g, H, truth) && Told(g, H, x) && Shows(x, t) && t.up && |t.served| == |x.truth| == 2 * BLOCK
    requires t.phase == Waiting(Guard(0, 0, false)) && t.toClient == t.toServer == [Interested, Unchoke]
    requires after == t.(toClient := [], toServer := [Unchoke, RequestOf(0), RequestOf(0)])
    ensures Told(g, H, y) && Shows(y, after) && y == x.(run := y.run, net := y.net) && x.run <= y.run
  {
    hide Told, Shows, Ask, TwoBlocks, BlockAt;
    Sizes(g, H, truth);
    var r, u := RequestOf(0), Unchoke;
    var t1, t2 := t.(toClient := [u, u], toServer := [u]), t.(toClient := [u], toServer := [u, r]);
    y := GreetingsCross(g, H, truth, x, t, t1);
    y := Hears(g, H, y, t1, t2);
    y := Hears(g, H, y, t2, after);
  }

  // The server answers both requests.
  lemma RepliesTwice(g: Geometry, H: bytes -> Digest, truth: bytes, x: Story, t: Scene, after: Scene)
    returns (y: Story)
    requires TwoBlocks(g, H, truth) && Told(g, H, x) && Shows(x, t) && t.up && |t.served| == |x.truth| == 2 * BLOCK
    requires t.toClient == [] && t.toServer == [Unchoke, RequestOf(0), RequestOf(0)]
    requires TrueAt(x.truth, t.served, 0)
    requires after == t.(toClient := [BlockAt(t.served, 0), BlockAt(t.served, 0)], toServer := [])
    ensures Told(g, H, y) && Shows(y, after) && y == x.(run := y.run, net := y.net) && x.run <= y.run
  {
    hide Told, Shows, TwoBlocks;
    Sizes(g, H, truth);
    var r, b := RequestOf(0), BlockAt(t.served, 0);
    var t1, t2 := t.(toServer := [r, r]), t.(toClient := [b], toServer := [r]);
    y := ServerReads(g, H, x, t, t1);
    y := ServerReads(g, H, y, t1, t2);
    y := ServerReads(g, H, y, t2, after);
  }

  lemma GuardAdvances(g: Geometry, H: bytes -> Digest, truth: bytes)
    requires TwoBlocks(g, H, truth)
    ensures Advance(g, Guard(0, 0, false), BLOCK) == Waiting(Guard(0, BLOCK, false))
    ensures Advance(g, Guard(0, BLOCK, false), BLOCK) == Finished(Guard(0, 2 * BLOCK, true), true)
    ensures Advance(g, Guard(0, 2 * BLOCK, true), BLOCK) == Finished(Guard(0, 3 * BLOCK, true), false)
  {
    hide TargetSize, TwoBlocks;
    Sizes(g, H, truth);
  }

  // The first half of the server's piece over the client's second half.
  function Halves(served: bytes, disk: bytes): bytes
    requires |served| == |disk| == 2 * BLOCK
  {
    served[..BLOCK] + disk[BLOCK..]
  }

  lemma BlocksWritten(served: bytes, disk: bytes)
    requires |served| == |disk| == 2 * BLOCK
    ensures var once := Splice(disk, 0, served[0..0 + BLOCK]);
            once == Splice(once, 0, served[0..0 + BLOCK]) == Halves(served, disk)
    ensures Splice(Halves(served, disk), BLOCK, served[BLOCK..BLOCK + BLOCK]) == served
  {
  }

  // The client writes the first block twice and counts it twice, so it marks the piece, while its request for the
  // second block is still under way.
  lemma MarksEarly(g: Geometry, H: bytes -> Digest, truth: bytes, x: Story, t: Scene, after: Scene) returns (y: Story)
    requires TwoBlocks(g, H, truth) && Told(g, H, x) && Shows(x, t) && |t.disk| == |t.served| == 2 * BLOCK
    requires t.phase == Waiting(Guard(0, 0, false)) && t.toServer == []
    requires t.toClient == [BlockAt(t.served, 0), BlockAt(t.served, 0)]
    requires after == t.(phase := Marked(Guard(0, 2 * BLOCK, true)), have := true, disk := Halves(t.served, t.disk),
                         toClient := [], toServer := [RequestOf(BLOCK)])
    ensures Told(g, H, y) && Shows(y, after) && y == x.(run := y.run, net := y.net) && x.run <= y.run
  {
    hide Told, Shows, Ask, TwoBlocks, Advance, Splice, Halves;
    Sizes(g, H, truth);
    GuardAdvances(g, H, truth);
    BlocksWritten(t.served, t.disk);
    var t1 := after.(phase := Waiting(Guard(0, BLOCK, false)), have := t.have, toClient := [BlockAt(t.served, 0)]);
    y := Receives(g, H, truth, x, t, 0, t1);
    var t2 := after.(phase := Finished(Guard(0, 2 * BLOCK, true), true), have := t.have);
    y := Receives(g, H, truth, y, t1, 0, t2);
    y := Marks(g, H, y, t2, after);
  }

  // When the second block arrives it is written all the same, and then nothing is left to do.
  lemma LastBlockArrives(g: Geometry, H: bytes -> Digest, truth: bytes, x: Story, t: Scene, after: Scene)
    returns (y: Story)
    requires TwoBlocks(g, H, truth) && Told(g, H, x) && Shows(x, t) && t.up && |t.served| == |x.truth| == 2 * BLOCK
    requires t.phase == Waiting(Guard(0, 2 * BLOCK, true)) && t.have && t.toClient == []
    requires t.toServer == [RequestOf(BLOCK)]
    requires exists d: bytes :: |d| == 2 * BLOCK && t.disk == Halves(t.served, d)
    requires after == t.(phase := Waiting(Guard(0, 3 * BLOCK, true)), disk := t.served, toServer := [])
    ensures Told(g, H, y) && Shows(y, after) && y == x.(run := y.run, net := y.net, truthful := y.truthful)
    ensures Possible(g, x.net, Read(x.line.e + 1)) && x.run + [Read(x.line.e + 1)] <= y.run
  {
    hide Told, Shows, Ask, TwoBlocks, Advance, Splice, Possible;
    Sizes(g, H, truth);
    GuardAdvances(g, H, truth);
    var d: bytes :| |d| == 2 * BLOCK && t.disk == Halves(t.served, d);
    BlocksWritten(t.served, d);
    var t2 := t.(toClient := [BlockAt(t.served, BLOCK)], toServer := []);
    y := ServerReads(g, H, x, t, t2);
    var t3 := after.(phase := Finished(Guard(0, 3 * BLOCK, true), false));
    y := Receives(g, H, truth, y, t2, BLOCK, t3);
    var t4 := after.(phase := Marked(Guard(0, 3 * BLOCK, true)));
    y := Marks(g, H, y, t3, t4);
    y := TakesNothing(g, H, y, t4, after);
  }

  // --- what becomes of it ---

  lemma OnePieceResumes(g: Geometry, H: bytes -> Digest, disk: bytes)
    requires WellFormed(g) && |disk| == g.total && |g.hashes| == 1 && PieceAt(g, disk, 0) == disk
    ensures var s, ok := Resume(g, H, disk), H(disk) == g.hashes[0];
            && s.have == [ok] && s.missing == (if ok then [] else [0]) && s.peers == [] && s.refunds == []
            && s.disk == disk
  {
    var have := Verified(g, H, disk);
    assert have == [H(disk) == g.hashes[0]];
    assert MissingBelow(have, 0) == [];
    assert MissingBelow(have, 1) == MissingBelow(have, 0) + (if have[0] then [] else [0]);
  }

  // A client without the piece connects to an engine that has marked it, and marks it when it has the first half.
  lemma ConnectsAndMarks(g: Geometry, H: bytes -> Digest, truth: bytes, start: Net, run: seq<Event>, net: Net,
                         n: nat, m: nat, after: Scene)
    returns (x: Story)
    requires TwoBlocks(g, H, truth) && Reaches(g, H, truth, start, run, net)
    requires n < |net.nodes| && m < |net.nodes| && n != m
    requires net.nodes[n].have == [false] && net.nodes[n].missing == [0] && |net.nodes[n].disk| == 2 * BLOCK
    requires net.nodes[n].peers == [] && net.nodes[n].refunds == []
    requires net.nodes[m].have == [true] && net.nodes[m].missing == [] && |net.nodes[m].disk| == 2 * BLOCK
    requires |truth| == 2 * BLOCK && TrueAt(truth, net.nodes[m].disk, 0)
    requires var s, d := net.nodes[m].disk, net.nodes[n].disk;
             after == Scene(Marked(Guard(0, 2 * BLOCK, true)), true, Halves(s, d), s, [], [RequestOf(BLOCK)], true)
    ensures Told(g, H, x) && Shows(x, after)
    ensures x.start == start && x.base == net && x.line.n == n && x.line.m == m && x.truth == truth && x.truthful
  {
    hide Told, Shows, Reaches, TwoBlocks, Halves;
    var s, d := net.nodes[m].disk, net.nodes[n].disk;
    var t1 := Scene(Waiting(Guard(0, 0, false)), false, d, s, GREETING, GREETING, true);
    var t2 := t1.(toClient := [], toServer := [Unchoke, RequestOf(0), RequestOf(0)]);
    var t3 := t1.(toClient := [BlockAt(s, 0), BlockAt(s, 0)], toServer := []);
    x := Connects(g, H, truth, start, run, net, n, m, t1);
    x := RequestsTwice(g, H, truth, x, t1, t2);
    x := RepliesTwice(g, H, truth, x, t2, t3);
    x := MarksEarly(g, H, truth, x, t3, after);
  }

  lemma NoEnds(net: Net)
    requires net.ends == []
    ensures Wired(net)
  {
  }

  lemma TruthMatches(g: Geometry, H: bytes -> Digest, truth: bytes)
    requires TwoBlocks(g, H, truth)
    ensures |g.hashes| == 1 && H(truth) == g.hashes[0]
  {
    Sizes(g, H, truth);
  }

  // The engines before the first connection.
  lemma StartsFresh(g: Geometry, H: bytes -> Digest, truth: bytes, disks: seq<bytes>, n: nat, m: nat)
    requires TwoBlocks(g, H, truth) && forall d :: d in disks ==> |d| == g.total
    requires n < |disks| && m < |disks| && disks[m] == truth && H(disks[n]) != g.hashes[0]
    ensures n != m && |disks[n]| == 2 * BLOCK && |truth| == 2 * BLOCK
    ensures var start := Start(g, H, disks);
            && Reaches(g, H, truth, start, [], start) && start.ends == [] && |start.nodes| == |disks|
            && start.nodes[n].have == [false] && start.nodes[n].missing == [0] && start.nodes[n].disk == disks[n]
            && start.nodes[n].peers == [] && start.nodes[n].refunds == []
            && start.nodes[m].have == [true] && start.nodes[m].missing == [] && start.nodes[m].disk == truth
  {
    hide PieceAt, Resume, Wired, TargetSize, Truth;
    Sizes(g, H, truth);
    OnePieceResumes(g, H, disks[n]);
    OnePieceResumes(g, H, truth);
    assert H(truth) == g.hashes[0] by { TruthMatches(g, H, truth); }
    assert Wired(Start(g, H, disks)) by { NoEnds(Start(g, H, disks)); }
  }

  lemma VainEnd(g: Geometry, H: bytes -> Digest, x: Story, t: Scene)
    requires Told(g, H, x) && Shows(x, t) && !t.up && x.base.ends == []
    ensures PossibleRun(g, H, x.start, x.run) && Outcome(g, H, x.start, x.run) == x.net
    ensures |x.net.nodes| == |x.base.nodes| && x.line.n < |x.net.nodes| && |x.net.ends| == 2
    ensures x.net.nodes[x.line.n].have == [t.have] && x.net.nodes[x.line.n].disk == t.disk
    ensures PhaseAt(x.net, 1).Gone? && x.net.ends[0].inbox == t.toClient
  {
    hide PossibleRun, Outcome, Wired;
  }

  // Nor does it help when nothing is lost as the connection ends: if it does so when both copies of the first block
  // have been sent, the client reads them, asks in vain for the second block, and marks the piece.
  lemma MarksInVain(g: Geometry, H: bytes -> Digest, truth: bytes, disks: seq<bytes>, n: nat, m: nat)
    returns (run: seq<Event>)
    requires TwoBlocks(g, H, truth) && forall d :: d in disks ==> |d| == g.total
    requires n < |disks| && m < |disks| && disks[m] == truth && H(disks[n]) != g.hashes[0]
    ensures PossibleRun(g, H, Start(g, H, disks), run)
    ensures var net := Outcome(g, H, Start(g, H, disks), run);
            && |net.nodes| == |disks| && net.nodes[n].have == [true]
            && net.nodes[n].disk == truth[..BLOCK] + disks[n][BLOCK..]
            && |net.ends| == 2 && PhaseAt(net, 1).Gone? && net.ends[0].inbox == []
  {
    var s, d := truth, disks[n];
    var start := Start(g, H, disks);
    StartsFresh(g, H, truth, disks, n, m);
    hide Told, Shows, Reaches, TwoBlocks, Truth, Start, Resume, Wired;
    var t1 := Scene(Waiting(Guard(0, 0, false)), false, d, s, GREETING, GREETING, true);
    var t2 := t1.(toClient := [], toServer := [Unchoke, RequestOf(0), RequestOf(0)]);
    var t3 := t1.(toClient := [BlockAt(s, 0), BlockAt(s, 0)], toServer := []);
    var t4 := t3.(up := false);
    var after := t4.(phase := Marked(Guard(0, 2 * BLOCK, true)), have := true, disk := Halves(s, d),
                     toClient := [], toServer := [RequestOf(BLOCK)]);
    var x := Connects(g, H, truth, start, [], start, n, m, t1);
    x := RequestsTwice(g, H, truth, x, t1, t2);
    x := RepliesTwice(g, H, truth, x, t2, t3);
    x := ServerHangsUp(g, H, x, t3, t4);
    x := MarksEarly(g, H, truth, x, t4, after);
    VainEnd(g, H, x, after);
    run := x.run;
  }

  // Among any engines as written, m with the content and n without: n marks the piece while its second half on disk
  // is still the old one.
  lemma MarksFalsely(g: Geometry, H: bytes -> Digest, truth: bytes, disks: seq<bytes>, n: nat, m: nat)
    returns (run: seq<Event>)
    requires TwoBlocks(g, H, truth) && forall d :: d in disks ==> |d| == g.total
    requires n < |disks| && m < |disks| && disks[m] == truth && H(disks[n]) != g.hashes[0]
    ensures PossibleRun(g, H, Start(g, H, disks), run)
    ensures var net := Outcome(g, H, Start(g, H, disks), run);
            && |net.nodes| == |disks| && net.nodes[n].have == [true]
            && net.nodes[n].disk == truth[..BLOCK] + disks[n][BLOCK..]
  {
    hide Truth, Start, Outcome, PossibleRun, Wired;
    var net;
    run, net := FirstMarks(g, H, truth, disks, n, m);
  }

  lemma ToldIs(g: Geometry, H: bytes -> Digest, x: Story)
    requires Told(g, H, x) && x.truthful
    ensures Reaches(g, H, x.truth, x.start, x.run, x.net)
  {
  }

  lemma FirstMarks(g: Geometry, H: bytes -> Digest, truth: bytes, disks: seq<bytes>, n: nat, m: nat)
    returns (run: seq<Event>, net: Net)
    requires TwoBlocks(g, H, truth) && forall d :: d in disks ==> |d| == g.total
    requires n < |disks| && m < |disks| && disks[m] == truth && H(disks[n]) != g.hashes[0]
    ensures Reaches(g, H, truth, Start(g, H, disks), run, net) && |net.nodes| == |disks|
    ensures net.nodes[n].have == [true] && net.nodes[n].missing == []
    ensures net.nodes[n].disk == truth[..BLOCK] + disks[n][BLOCK..]
    ensures forall k :: 0 <= k < |disks| && k != n && k != m ==> net.nodes[k] == Resume(g, H, disks[k])
    ensures |net.ends| == 2 && net.ends[0].node == n && net.ends[1].node == m
    ensures net.ends[0].peer.Some? && net.ends[0].peer.value < |net.nodes[n].peers| && net.nodes[n].refunds == []
    ensures var p := net.ends[0].peer.value;
            && net.nodes[n].peers[p] == Marked(Guard(0, 2 * BLOCK, true))
            && forall q :: 0 <= q < |net.nodes[n].peers| && q != p ==> net.nodes[n].peers[q].Gone?
  {
    hide PieceAt, Resume, Wired, TargetSize, Truth;
    Sizes(g, H, truth);
    var start := Start(g, H, disks);
    StartsFresh(g, H, truth, disks, n, m);
    var after :=
      Scene(Marked(Guard(0, 2 * BLOCK, true)), true, Halves(truth, disks[n]), truth, [], [RequestOf(BLOCK)], true);
    var x := ConnectsAndMarks(g, H, truth, start, [], start, n, m, after);
    run, net := x.run, x.net;
    ToldIs(g, H, x);
  }

  // A third engine that now connects to n gets the false half as well. It marks the piece, everything it asked for has
  // arrived, and its disk is wrong. Up to where n serves the false half nothing was lost.
  lemma FalseBytesStay(g: Geometry, H: bytes -> Digest, truth: bytes, disks: seq<bytes>, k: nat, n: nat, m: nat)
    returns (before: seq<Event>, e: nat, run: seq<Event>)
    requires TwoBlocks(g, H, truth) && forall d :: d in disks ==> |d| == g.total
    requires n < |disks| && m < |disks| && k < |disks| && k != n && k != m && disks[m] == truth
    requires H(disks[n]) != g.hashes[0] && H(disks[k]) != g.hashes[0] && disks[n][BLOCK..] != truth[BLOCK..]
    ensures WellFormed(g) && |truth| == g.total && before + [Read(e)] <= run
    ensures PossibleRun(g, H, Start(g, H, disks), before)
    ensures KeepsRun(g, H, truth, Start(g, H, disks), 0, Everyone(|disks|), before)
    ensures var net := Outcome(g, H, Start(g, H, disks), before);
            Possible(g, net, Read(e)) && Misleads(g, truth, net, 0, Everyone(|disks|), Read(e))
    ensures PossibleRun(g, H, Start(g, H, disks), run)
    ensures var net := Outcome(g, H, Start(g, H, disks), run);
            && |net.nodes| == |disks|
            && net.nodes[k].have == [true] && net.nodes[k].disk != truth
            && forall f :: 0 <= f < |net.ends| && net.ends[f].node == k ==>
                 Other(f) < |net.ends| && net.ends[f].inbox == net.ends[Other(f)].inbox == []
  {
    hide PieceAt, Resume, Wired, TwoBlocks, Told, Shows, Reaches, Start, Possible, KeepsRun, Misleads, NobodyEnded;
    Sizes(g, H, truth);
    TruthHasSize(g, H, truth);
    var x, t, net := ThirdAsks(g, H, truth, disks, k, n, m);
    var after := t.(phase := Waiting(Guard(0, 3 * BLOCK, true)), disk := t.served, toServer := []);
    var y := LastBlockArrives(g, H, truth, x, t, after);
    before, e, run := x.run, x.line.e + 1, y.run;
    assert t.served[BLOCK..] == disks[n][BLOCK..];
    ServesFalsely(g, H, x, t, Everyone(|disks|));
    StartsRunning(g, H, disks);
    TruthfulRunKeeps(g, H, truth, x.start, 0, Everyone(|disks|), before);
    AllArrived(g, H, y, after, k, n, m);
  }

  lemma TruthHasSize(g: Geometry, H: bytes -> Digest, truth: bytes)
    requires TwoBlocks(g, H, truth)
    ensures |truth| == g.total
  {
  }

  lemma StartsRunning(g: Geometry, H: bytes -> Digest, disks: seq<bytes>)
    requires WellFormed(g) && forall d :: d in disks ==> |d| == g.total
    ensures NobodyEnded(Start(g, H, disks))
  {
  }

  lemma ServesFalsely(g: Geometry, H: bytes -> Digest, x: Story, t: Scene, group: set<nat>)
    requires Told(g, H, x) && Shows(x, t) && t.up && x.truthful && t.toServer == [RequestOf(BLOCK)] && t.phase.Waiting?
    requires |t.served| == |x.truth| == 2 * BLOCK && g.pieceLength == 2 * BLOCK && x.line.n in group
    requires t.served[BLOCK..] != x.truth[BLOCK..]
    ensures PossibleRun(g, H, x.start, x.run) && Outcome(g, H, x.start, x.run) == x.net
    ensures TruthfulRun(g, H, x.truth, x.start, x.run)
    ensures Possible(g, x.net, Read(x.line.e + 1)) && Misleads(g, x.truth, x.net, 0, group, Read(x.line.e + 1))
  {
    hide Wired, PossibleRun, Outcome, TruthfulRun, TrueAt;
    ServesTruly(g, x, t);
    FalseHalf(x.truth, t.served);
  }

  lemma FalseHalf(truth: bytes, served: bytes)
    requires |served| == |truth| == 2 * BLOCK && served[BLOCK..] != truth[BLOCK..]
    ensures !TrueAt(truth, served, BLOCK)
  {
    assert served[BLOCK..BLOCK + BLOCK] == served[BLOCK..] && truth[BLOCK..BLOCK + BLOCK] == truth[BLOCK..];
  }

  // Up to where n reads the request for the second half, every request was served with true bytes.
  lemma ThirdAsks(g: Geometry, H: bytes -> Digest, truth: bytes, disks: seq<bytes>, k: nat, n: nat, m: nat)
    returns (x: Story, t: Scene, net: Net)
    requires TwoBlocks(g, H, truth) && forall d :: d in disks ==> |d| == g.total
    requires n < |disks| && m < |disks| && k < |disks| && k != n && k != m && disks[m] == truth
    requires H(disks[n]) != g.hashes[0] && H(disks[k]) != g.hashes[0]
    ensures Told(g, H, x) && Shows(x, t) && x.truthful && x.truth == truth && x.start == Start(g, H, disks)
    ensures |disks[k]| == |disks[n]| == |truth| == 2 * BLOCK && t.served == truth[..BLOCK] + disks[n][BLOCK..]
    ensures t == Scene(Waiting(Guard(0, 2 * BLOCK, true)), true, Halves(t.served, disks[k]), t.served, [],
                       [RequestOf(BLOCK)], true)
    ensures x.base == net && x.line.n == k && x.line.m == n && |net.nodes| == |disks|
    ensures |net.ends| == 2 && net.ends[0].node == n && net.ends[1].node == m
  {
    hide PieceAt, Resume, Wired, TwoBlocks, Told, Shows, Reaches, Start;
    Sizes(g, H, truth);
    StartsFresh(g, H, truth, disks, n, m);
    var first;
    first, net := FirstMarks(g, H, truth, disks, n, m);
    OnePieceResumes(g, H, disks[k]);
    var s := net.nodes[n].disk;
    assert s[0..BLOCK] == truth[0..BLOCK];
    var t1 := Scene(Marked(Guard(0, 2 * BLOCK, true)), true, Halves(s, disks[k]), s, [], [RequestOf(BLOCK)], true);
    x := ConnectsAndMarks(g, H, truth, Start(g, H, disks), first, net, k, n, t1);
    t := t1.(phase := Waiting(Guard(0, 2 * BLOCK, true)));
    x := TakesNothing(g, H, x, t1, t);
  }

  lemma AllArrived(g: Geometry, H: bytes -> Digest, y: Story, t: Scene, k: nat, n: nat, m: nat)
    requires Told(g, H, y) && Shows(y, t) && t.toClient == t.toServer == [] && y.line.n == k && y.line.m == n
    requires |y.base.ends| == 2 && y.base.ends[0].node == n && y.base.ends[1].node == m && k != n && k != m
    ensures PossibleRun(g, H, y.start, y.run) && Outcome(g, H, y.start, y.run) == y.net
    ensures |y.net.nodes| == |y.base.nodes| && k < |y.net.nodes|
    ensures y.net.nodes[k].have == [t.have] && y.net.nodes[k].disk == t.disk
    ensures forall e :: 0 <= e < |y.net.ends| && y.net.ends[e].node == k ==>
              Other(e) < |y.net.ends| && y.net.ends[e].inbox == y.net.ends[Other(e)].inbox == []
  {
    hide Wired, PossibleRun, Outcome;
  }

  // For instance with 32768 ones as the content and empty files of that length.
  lemma ZerosForOnes() returns (g: Geometry, H: bytes -> Digest, truth: bytes, disks: seq<bytes>, run: seq<Event>)
    ensures TwoBlocks(g, H, truth) && truth == seq(2 * BLOCK, _ => 1)
    ensures var zeros := seq(2 * BLOCK, _ => 0); disks == [zeros, truth, zeros]
    ensures PossibleRun(g, H, Start(g, H, disks), run)
    ensures var net := Outcome(g, H, Start(g, H, disks), run);
            |net.nodes| == 3 && net.nodes[2].have == [true] && net.nodes[2].disk != truth
  {
    truth := seq(2 * BLOCK, _ => 1);
    var zeros: bytes := seq(2 * BLOCK, _ => 0);
    disks := [zeros, truth, zeros];
    var right: Digest, wrong: Digest := seq(20, _ => 1), seq(20, _ => 0);
    assert right[0] != wrong[0] && truth[BLOCK..][0] != zeros[BLOCK..][0] && truth[0] != zeros[0];
    H := (x: bytes) => if x == truth then right else wrong;
    g := Geometry(2 * BLOCK, 2 * BLOCK, [right]);
    assert CeilDiv(g.total, g.pieceLength) == 1;
    assert PieceAt(g, truth, 0) == truth;
    var before, e;
    before, e, run := FalseBytesStay(g, H, truth, disks, 2, 0, 1);
  }
}
