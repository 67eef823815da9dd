// Several engines connected to each other. A connection carries in each direction, in order, the messages that
// `peer_loop` of crates/daemon/src/engine.rs acts on; those it ignores are not modelled.
module Network {
  import opened Prelude
  import opened Geometry
  import opened Swarm

  datatype Message =
    | Interested
    | Unchoke
    | Request(index: nat, begin: nat, length: nat)
    | Piece(index: nat, begin: nat, block: bytes)

  // One end of a connection: its engine, the peer loop once that runs, and what arrived but was not read.
  datatype End = End(node: nat, peer: Option<nat>, inbox: seq<Message>)

  // Ends 2c and 2c + 1 are those of connection c.
  datatype Net = Net(nodes: seq<State>, ends: seq<End>)

  function Other(e: nat): nat { if e % 2 == 0 then e + 1 else e - 1 }

  datatype Event =
    | Dial(n: nat, m: nat) // engine n connects to engine m
    | Begin(e: nat) // the peer loop of an end starts
    | Read(e: nat) // a peer loop takes the first message it has not read
    | Proceed(e: nat) // the next step after a Piece message: counting, marking, taking the next piece
    | Hangup(e: nat) // a peer loop ends
    | Refund(n: nat, k: nat) // a refund task of engine n makes its next step
    | Reset(n: nat) // a new session of engine n, after the peer loops of the old one

  // The phase of the peer loop of an end; an end without one is like an end whose loop is gone.
  function PhaseAt(net: Net, e: nat): Phase {
    if e < |net.ends| && net.ends[e].peer.Some? && net.ends[e].node < |net.nodes|
       && net.ends[e].peer.value < |net.nodes[net.ends[e].node].peers|
    then net.nodes[net.ends[e].node].peers[net.ends[e].peer.value]
    else Gone
  }

  // --- the handler ---

  // What an incomplete guard requests.
  function Ask(g: Geometry, guard: Guard): seq<Message> {
    if guard.complete || guard.offset > PieceLength32(g) then []
    else
      var len := GetRequestLength(g, guard.piece, guard.offset);
      if len > 0 then [Request(guard.piece, guard.offset, len)] else []
  }

  // What is sent for a request: nothing, unless the piece is marked.
  function Reply(g: Geometry, s: State, index: nat, begin: nat, length: nat): seq<Message> {
    var at := PieceStart(g, index) + begin;
    if index < |s.have| && s.have[index] && at + length <= |s.disk| then [Piece(index, begin, s.disk[at..at + length])]
    else []
  }

  // What a peer loop sends when it starts.
  const GREETING: seq<Message> := [Interested, Unchoke]

  // What a peer loop with this guard sends on reading a message.
  function Response(g: Geometry, s: State, guard: Guard, m: Message): seq<Message> {
    match m
    case Interested => [Unchoke]
    case Unchoke => Ask(g, guard)
    case Request(index, begin, length) => Reply(g, s, index, begin, length)
    case Piece(_, _, _) => []
  }

  // The step that follows in the handling of a Piece message.
  function Follow(ph: Phase, p: nat): Action
    requires ph.Written? || ph.Finished? || ph.Marked?
  {
    if ph.Written? then Credit(p) else if ph.Finished? then Mark(p) else TakeNext(p)
  }

  // A guard that waits again requests what it needs.
  function Resumed(g: Geometry, ph: Phase): seq<Message> { if ph.Waiting? then Ask(g, ph.guard) else [] }

  // --- events ---

  // Every end has its other end and its engine, and every peer loop one end.
  predicate Wired(net: Net) {
    && |net.ends| % 2 == 0
    && (forall e :: 0 <= e < |net.ends| ==> Attached(net, e))
    && (forall e, f :: 0 <= e < f < |net.ends| ==> !SameLoop(net.ends[e], net.ends[f]))
  }

  predicate Attached(net: Net, e: nat)
    requires e < |net.ends|
  {
    && net.ends[e].node < |net.nodes|
    && (net.ends[e].peer.Some? ==> net.ends[e].peer.value < |net.nodes[net.ends[e].node].peers|)
  }

  predicate SameLoop(x: End, y: End) { x.peer.Some? && x.node == y.node && x.peer == y.peer }

  predicate Possible(g: Geometry, net: Net, ev: Event) {
    && Wired(net)
    && match ev
       case Dial(n, m) => n < |net.nodes| && m < |net.nodes|
       case Begin(e) => e < |net.ends| && net.ends[e].peer.None?
       case Read(e) => e < |net.ends| && PhaseAt(net, e).Waiting? && net.ends[e].inbox != []
       case Proceed(e) =>
         e < |net.ends| && (PhaseAt(net, e).Written? || PhaseAt(net, e).Finished? || PhaseAt(net, e).Marked?)
       case Hangup(e) => e < |net.ends| && !PhaseAt(net, e).Gone?
       case Refund(n, k) => n < |net.nodes| && k < |net.nodes[n].refunds|
       case Reset(n) => n < |net.nodes| && |net.nodes[n].disk| == g.total
  }

  // The engine that acts.
  function NodeOf(g: Geometry, net: Net, ev: Event): (n: nat)
    requires Possible(g, net, ev)
    ensures n < |net.nodes|
  {
    match ev
    case Dial(n, _) => n
    case Begin(e) => assert Attached(net, e); net.ends[e].node
    case Read(e) => assert Attached(net, e); net.ends[e].node
    case Proceed(e) => assert Attached(net, e); net.ends[e].node
    case Hangup(e) => assert Attached(net, e); net.ends[e].node
    case Refund(n, _) => n
    case Reset(n) => n
  }

  // The step it takes: a Piece message is written, whatever it says.
  function StepOf(g: Geometry, net: Net, ev: Event): (a: Option<Action>)
    requires Possible(g, net, ev)
    ensures a.Some? ==> Enabled(g, net.nodes[NodeOf(g, net, ev)], a.value)
  {
    match ev
    case Dial(_, _) => None
    case Begin(_) => Some(Connect)
    case Read(e) =>
      var m := net.ends[e].inbox[0];
      if m.Piece? then Some(Write(net.ends[e].peer.value, m.index, m.begin, m.block)) else None
    case Proceed(e) => Some(Follow(PhaseAt(net, e), net.ends[e].peer.value))
    case Hangup(e) => Some(Drop(net.ends[e].peer.value))
    case Refund(n, k) => Some(if net.nodes[n].refunds[k].Owed? then SubtractRefund(k) else PushRefund(k))
    case Reset(_) => Some(Restart)
  }

  function NodeAfter(g: Geometry, H: bytes -> Digest, net: Net, ev: Event): State
    requires WellFormed(g) && Possible(g, net, ev)
  {
    var s := net.nodes[NodeOf(g, net, ev)];
    match StepOf(g, net, ev)
    case None => s
    case Some(a) => Next(g, H, s, a)
  }

  // The end whose peer loop acts, if one does.
  function ActorOf(ev: Event): Option<nat> {
    match ev
    case Begin(e) => Some(e)
    case Read(e) => Some(e)
    case Proceed(e) => Some(e)
    case Hangup(e) => Some(e)
    case _ => None
  }

  // The phase of the acting peer loop afterwards.
  function PhaseAfter(g: Geometry, H: bytes -> Digest, net: Net, ev: Event): Phase
    requires WellFormed(g) && Possible(g, net, ev) && ActorOf(ev).Some?
  {
    var s := NodeAfter(g, H, net, ev);
    var p := if ev.Begin? then |net.nodes[NodeOf(g, net, ev)].peers| else net.ends[ev.e].peer.value;
    if p < |s.peers| then s.peers[p] else Gone
  }

  // What it sends to the other end.
  function Sent(g: Geometry, H: bytes -> Digest, net: Net, ev: Event): seq<Message>
    requires WellFormed(g) && Possible(g, net, ev)
  {
    match ev
    case Begin(_) => GREETING
    case Read(e) => Response(g, net.nodes[NodeOf(g, net, ev)], PhaseAt(net, e).guard, net.ends[e].inbox[0])
    case Proceed(e) => Resumed(g, PhaseAfter(g, H, net, ev))
    case _ => []
  }

  function EndAfter(g: Geometry, H: bytes -> Digest, net: Net, ev: Event, f: nat): End
    requires WellFormed(g) && Possible(g, net, ev) && f < |net.ends|
  {
    var end := net.ends[f];
    if ev == Begin(f) then end.(peer := Some(|net.nodes[NodeOf(g, net, ev)].peers|))
    else if ev == Read(f) then end.(inbox := end.inbox[1..])
    else if ActorOf(ev) == Some(Other(f)) then end.(inbox := end.inbox + Sent(g, H, net, ev))
    else end
  }

  function Happen(g: Geometry, H: bytes -> Digest, net: Net, ev: Event): Net
    requires WellFormed(g) && Possible(g, net, ev)
  {
    Net(
      net.nodes[NodeOf(g, net, ev) := NodeAfter(g, H, net, ev)],
      seq(|net.ends|, f requires 0 <= f < |net.ends| => EndAfter(g, H, net, ev, f))
      + (if ev.Dial? then [End(ev.n, None, []), End(ev.m, None, [])] else []))
  }

  predicate PossibleRun(g: Geometry, H: bytes -> Digest, net: Net, run: seq<Event>)
    requires WellFormed(g)
    decreases |run|
  {
    run == [] || (Possible(g, net, run[0]) && PossibleRun(g, H, Happen(g, H, net, run[0]), run[1..]))
  }

  function Outcome(g: Geometry, H: bytes -> Digest, net: Net, run: seq<Event>): Net
    requires WellFormed(g) && PossibleRun(g, H, net, run)
    decreases |run|
  {
    if run == [] then net else Outcome(g, H, Happen(g, H, net, run[0]), run[1..])
  }

  // Engines started on any disks, not yet connected.
  function Start(g: Geometry, H: bytes -> Digest, disks: seq<bytes>): Net
    requires WellFormed(g) && forall d :: d in disks ==> |d| == g.total
  {
    Net(seq(|disks|, n requires 0 <= n < |disks| => Resume(g, H, disks[n])), [])
  }

  // --- what an event changes ---

  // The one peer loop a step of an engine concerns.
  predicate Concerns(a: Action, p: nat) {
    match a
    case Write(q, _, _, _) => q == p
    case Credit(q) => q == p
    case Mark(q) => q == p
    case TakeNext(q) => q == p
    case Drop(q) => q == p
    case _ => false
  }

  // A step leaves the other peer loops in their phases, except that none survives a restart.
  lemma NextPeers(g: Geometry, H: bytes -> Digest, s: State, a: Action)
    requires WellFormed(g) && Enabled(g, s, a)
    ensures var s' := Next(g, H, s, a);
            && |s'.peers| == |s.peers| + (if a.Connect? then 1 else 0)
            && forall p :: 0 <= p < |s.peers| && !Concerns(a, p) ==>
                 s'.peers[p] == if a.Restart? then Gone else s.peers[p]
  {
    hide Resume, TargetSize, Splice, CeilDiv;
  }

  lemma EndsAfter(g: Geometry, H: bytes -> Digest, net: Net, ev: Event)
    requires WellFormed(g) && Possible(g, net, ev)
    ensures var net' := Happen(g, H, net, ev);
            && |net'.nodes| == |net.nodes|
            && |net'.ends| == |net.ends| + (if ev.Dial? then 2 else 0)
            && (forall f :: 0 <= f < |net.ends| ==> net'.ends[f] == EndAfter(g, H, net, ev, f))
            && (forall n :: 0 <= n < |net.nodes| ==>
                  net'.nodes[n] == if n == NodeOf(g, net, ev) then NodeAfter(g, H, net, ev) else net.nodes[n])
  {
    hide NodeAfter, EndAfter, NodeOf;
  }

  lemma NodesGrow(g: Geometry, H: bytes -> Digest, net: Net, ev: Event)
    requires WellFormed(g) && Possible(g, net, ev)
    ensures var s, s' := net.nodes[NodeOf(g, net, ev)], NodeAfter(g, H, net, ev);
            |s'.peers| == |s.peers| + (if ev.Begin? then 1 else 0)
  {
    hide Next, Wired;
    var n, step := NodeOf(g, net, ev), StepOf(g, net, ev);
    if step.Some? {
      NextPeers(g, H, net.nodes[n], step.value);
    }
  }

  lemma WiringAfter(g: Geometry, H: bytes -> Digest, net: Net, ev: Event)
    requires WellFormed(g) && Possible(g, net, ev)
    ensures Wired(Happen(g, H, net, ev))
  {
    hide Next, Sent, NodeAfter, Happen, StepOf;
    var net' := Happen(g, H, net, ev);
    EndsAfter(g, H, net, ev);
    NodesGrow(g, H, net, ev);
    forall f | 0 <= f < |net'.ends| ensures Attached(net', f) {
      NewEnds(g, H, net, ev, f);
      if f < |net.ends| {
        assert Attached(net, f) && net'.ends[f] == EndAfter(g, H, net, ev, f);
        assert ev == Begin(f) ==> NodeOf(g, net, ev) == net.ends[f].node;
      }
    }
    forall e, f | 0 <= e < f < |net'.ends| ensures !SameLoop(net'.ends[e], net'.ends[f]) {
      NewEnds(g, H, net, ev, f);
      if f < |net.ends| {
        assert Attached(net, e) && Attached(net, f) && !SameLoop(net.ends[e], net.ends[f]);
        assert net'.ends[e] == EndAfter(g, H, net, ev, e) && net'.ends[f] == EndAfter(g, H, net, ev, f);
        assert ev.Begin? ==> NodeOf(g, net, ev) == net.ends[ev.e].node;
      }
    }
  }

  lemma NewEnds(g: Geometry, H: bytes -> Digest, net: Net, ev: Event, f: nat)
    requires WellFormed(g) && Possible(g, net, ev) && f < |Happen(g, H, net, ev).ends|
    ensures f >= |net.ends| ==>
              var end := Happen(g, H, net, ev).ends[f]; end.peer == None && end.node < |net.nodes| && end.inbox == []
  {
  }

  lemma DialedEnds(g: Geometry, H: bytes -> Digest, net: Net, ev: Event)
    requires WellFormed(g) && Possible(g, net, ev) && ev.Dial?
    ensures var ends := Happen(g, H, net, ev).ends;
            && |ends| == |net.ends| + 2
            && ends[|net.ends|] == End(ev.n, None, []) && ends[|net.ends| + 1] == End(ev.m, None, [])
  {
    hide EndAfter, NodeAfter;
  }

  // Nothing is rewired, and a peer loop changes phase only in its own events or in a reset of its engine.
  lemma Effect(g: Geometry, H: bytes -> Digest, net: Net, ev: Event)
    requires WellFormed(g) && Possible(g, net, ev)
    ensures var net' := Happen(g, H, net, ev);
            && Wired(net')
            && (forall f :: 0 <= f < |net.ends| && ActorOf(ev) != Some(f) ==>
                  PhaseAt(net', f) == if ev == Reset(net.ends[f].node) then Gone else PhaseAt(net, f))
            && (ActorOf(ev).Some? ==> PhaseAt(net', ActorOf(ev).value) == PhaseAfter(g, H, net, ev))
  {
    hide Next, Sent, Wired, Happen, StepOf;
    WiringAfter(g, H, net, ev);
    EndsAfter(g, H, net, ev);
    forall f | 0 <= f < |net.ends| && ActorOf(ev) != Some(f)
      ensures PhaseAt(Happen(g, H, net, ev), f) == if ev == Reset(net.ends[f].node) then Gone else PhaseAt(net, f)
    {
      OtherPhase(g, H, net, ev, f);
    }
  }

  lemma OtherPhase(g: Geometry, H: bytes -> Digest, net: Net, ev: Event, f: nat)
    requires WellFormed(g) && Possible(g, net, ev) && f < |net.ends| && ActorOf(ev) != Some(f)
    ensures PhaseAt(Happen(g, H, net, ev), f) == if ev == Reset(net.ends[f].node) then Gone else PhaseAt(net, f)
  {
    hide Next, Sent, Happen;
    EndsAfter(g, H, net, ev);
    assert Attached(net, f);
    var n, step := NodeOf(g, net, ev), StepOf(g, net, ev);
    if step.Some? && net.ends[f].node == n && net.ends[f].peer.Some? {
      OthersUnconcerned(g, net, ev, f);
      NextPeers(g, H, net.nodes[n], step.value);
    }
  }

  lemma OthersUnconcerned(g: Geometry, net: Net, ev: Event, f: nat)
    requires Possible(g, net, ev) && f < |net.ends| && ActorOf(ev) != Some(f) && StepOf(g, net, ev).Some?
    requires net.ends[f].node == NodeOf(g, net, ev) && net.ends[f].peer.Some?
    ensures !Concerns(StepOf(g, net, ev).value, net.ends[f].peer.value)
  {
    if ActorOf(ev).Some? {
      var e := ActorOf(ev).value;
      assert !SameLoop(net.ends[if e < f then e else f], net.ends[if e < f then f else e]);
    }
  }

  // --- runs ---

  lemma {:induction false} EventsConcat(g: Geometry, H: bytes -> Digest, net: Net, a: seq<Event>, b: seq<Event>)
    requires WellFormed(g) && PossibleRun(g, H, net, a) && PossibleRun(g, H, Outcome(g, H, net, a), b)
    ensures PossibleRun(g, H, net, a + b)
    ensures Outcome(g, H, net, a + b) == Outcome(g, H, Outcome(g, H, net, a), b)
    decreases |a|
  {
    hide Possible, Happen;
    if a == [] {
      assert a + b == b;
    } else {
      assert (a + b)[1..] == a[1..] + b;
      EventsConcat(g, H, Happen(g, H, net, a[0]), a[1..], b);
    }
  }

  lemma SingleEvent(g: Geometry, H: bytes -> Digest, net: Net, ev: Event)
    requires WellFormed(g) && Possible(g, net, ev)
    ensures PossibleRun(g, H, net, [ev]) && Outcome(g, H, net, [ev]) == Happen(g, H, net, ev)
  {
    hide Possible, Happen;
    assert [ev][1..] == [];
  }
}
