// Why engines of this kind transfer nothing in a safe run. Both Unchokes of a peer loop come before its first reply, so
// a guard that will be answered reads the second one while its request is under way.
module Greetings {
  import opened Prelude
  import opened Geometry
  import opened Swarm
  import opened SwarmProofs
  import opened SwarmTruth
  import opened Network
  import opened NetworkOrder
  import opened Sharing
  import opened Losses

  // --- the Unchokes of a connection ---

  function Unchokes(ms: seq<Message>): nat {
    if ms == [] then 0 else (if ms[0].Unchoke? then 1 else 0) + Unchokes(ms[1..])
  }

  predicate Greeted(ms: seq<Message>) { ms != [] && ms[0].Interested? }

  // The Unchokes that the peer loop of an end is still to read: those in its inbox, the two that the other peer loop
  // will send if it has not started, and the one that will answer an Interested not yet read.
  function Due(net: Net, e: nat): nat
    requires e < |net.ends| && Other(e) < |net.ends|
  {
    var other := net.ends[Other(e)];
    Unchokes(net.ends[e].inbox) + if other.peer.None? then 2 else if Greeted(other.inbox) then 1 else 0
  }

  // No reply comes before the first Unchoke.
  predicate Guarded(ms: seq<Message>) { ms == [] || ms[0].Unchoke? || (!ms[0].Piece? && Guarded(ms[1..])) }

  predicate InterestedFirst(ms: seq<Message>) { forall k :: 0 < k < |ms| ==> !ms[k].Interested? }

  // The engine at the other end has the piece of the guard, and its peer loop is not over.
  predicate WillBeServed(net: Net, e: nat)
    requires e < |net.ends| && Other(e) < |net.ends| && !PhaseAt(net, e).Gone?
  {
    var n, guard := net.ends[Other(e)].node, PhaseAt(net, e).guard;
    && !guard.complete && !Ended(net, Other(e))
    && n < |net.nodes| && guard.piece < |net.nodes[n].have| && net.nodes[n].have[guard.piece]
  }

  predicate Balanced(net: Net, e: nat)
    requires e < |net.ends|
  {
    && Other(e) < |net.ends|
    && InterestedFirst(net.ends[e].inbox)
    && (net.ends[e].peer.None? ==>
          && net.ends[Other(e)].inbox == []
          && net.ends[e].inbox == if net.ends[Other(e)].peer.None? then [] else GREETING)
    && (!PhaseAt(net, e).Gone? ==> PhaseAt(net, e).Waiting? && Guarded(net.ends[e].inbox) && Counts(net, e))
  }

  // Two Unchokes are to be read, or one and the request has been made.
  predicate Counts(net: Net, e: nat)
    requires e < |net.ends| && Other(e) < |net.ends| && !PhaseAt(net, e).Gone?
  {
    WillBeServed(net, e) ==> Due(net, e) == if Pending(net, e) == [] then 2 else 1
  }

  // Nothing has been transferred: each engine has what it was started with.
  predicate Untouched(g: Geometry, H: bytes -> Digest, net: Net, disks: seq<bytes>)
    requires WellFormed(g)
  {
    && |net.nodes| == |disks|
    && (forall n :: 0 <= n < |disks| ==>
          |disks[n]| == g.total && net.nodes[n].disk == disks[n] && net.nodes[n].have == Verified(g, H, disks[n]))
    && (forall e :: 0 <= e < |net.ends| ==> Balanced(net, e))
  }

  // --- lists of messages ---

  lemma {:induction false} UnchokesConcat(a: seq<Message>, b: seq<Message>)
    ensures Unchokes(a + b) == Unchokes(a) + Unchokes(b)
  {
    if a == [] {
      assert a + b == b;
    } else {
      assert (a + b)[1..] == a[1..] + b;
      UnchokesConcat(a[1..], b);
    }
  }

  lemma {:induction false} GuardedConcat(a: seq<Message>, b: seq<Message>)
    requires Guarded(a) && (Unchokes(a) > 0 || Guarded(b))
    ensures Guarded(a + b)
  {
    if a == [] {
      assert a + b == b;
    } else {
      assert (a + b)[1..] == a[1..] + b;
      if !a[0].Unchoke? {
        GuardedConcat(a[1..], b);
      }
    }
  }

  lemma {:induction false} NoRepliesIsGuarded(ms: seq<Message>)
    requires RepliesIn(ms) == []
    ensures Guarded(ms)
  {
    if ms != [] {
      NoRepliesIsGuarded(ms[1..]);
    }
  }

  lemma GreetingIs()
    ensures Unchokes(GREETING) == 1 && Guarded(GREETING) && Greeted(GREETING) && InterestedFirst(GREETING)
    ensures RepliesIn(GREETING) == RequestsIn(GREETING) == []
  {
    assert GREETING[1..] == [Unchoke] && [Unchoke][1..] == [];
    OneMessage(Interested);
    OneMessage(Unchoke);
  }

  lemma FirstMessage(ms: seq<Message>)
    requires ms != []
    ensures Unchokes(ms) == (if ms[0].Unchoke? then 1 else 0) + Unchokes(ms[1..])
    ensures InterestedFirst(ms) ==> InterestedFirst(ms[1..]) && !Greeted(ms[1..])
    ensures Guarded(ms) && !ms[0].Unchoke? ==> Guarded(ms[1..]) && !ms[0].Piece?
  {
  }

  // What a peer loop sends on reading a message.
  lemma SentOnReading(g: Geometry, H: bytes -> Digest, net: Net, e: nat)
    requires WellFormed(g) && Possible(g, net, Read(e))
    ensures var m, sent := net.ends[e].inbox[0], Sent(g, H, net, Read(e));
            && Unchokes(sent) == (if m.Interested? then 1 else 0)
            && (forall k :: 0 <= k < |sent| ==> !sent[k].Interested?)
            && (!m.Request? ==> RepliesIn(sent) == [])
  {
    hide Wired, GetRequestLength, NodeOf;
    SentKinds(g, H, net, Read(e));
    var sent := Sent(g, H, net, Read(e));
    assert |sent| <= 1;
    if sent != [] {
      assert sent[1..] == [];
    }
  }

  // --- the engines ---

  lemma ReadsNoPiece(g: Geometry, net: Net, e: nat)
    requires Possible(g, net, Read(e)) && Balanced(net, e)
    ensures !net.ends[e].inbox[0].Piece?
  {
    hide Wired, Counts;
    FirstMessage(net.ends[e].inbox);
  }

  lemma NothingProceeds(g: Geometry, net: Net, e: nat)
    requires e < |net.ends| && Balanced(net, e)
    ensures !Possible(g, net, Proceed(e))
  {
    hide Wired, Counts;
  }

  lemma NodesUntouched(g: Geometry, H: bytes -> Digest, net: Net, disks: seq<bytes>, ev: Event)
    requires WellFormed(g) && Possible(g, net, ev) && Untouched(g, H, net, disks)
    ensures var nodes := Happen(g, H, net, ev).nodes;
            && |nodes| == |disks|
            && forall n :: 0 <= n < |disks| ==> nodes[n].disk == disks[n] && nodes[n].have == Verified(g, H, disks[n])
  {
    hide Happen, Balanced, Next, Verified, Wired;
    EndsAfter(g, H, net, ev);
    if ev.Proceed? {
      NothingProceeds(g, net, ev.e);
      assert false;
    }
    if StepOf(g, net, ev).Some? {
      StepTouchesNothing(g, H, net, ev);
    }
  }

  lemma StepTouchesNothing(g: Geometry, H: bytes -> Digest, net: Net, ev: Event)
    requires WellFormed(g) && Possible(g, net, ev) && StepOf(g, net, ev).Some? && !ev.Proceed?
    requires ev.Read? ==> Balanced(net, ev.e)
    requires var s := net.nodes[NodeOf(g, net, ev)]; |s.disk| == g.total && s.have == Verified(g, H, s.disk)
    ensures var s, s' := net.nodes[NodeOf(g, net, ev)], NodeAfter(g, H, net, ev);
            s'.disk == s.disk && s'.have == s.have
  {
    hide Balanced, Verified, MissingBelow, ResumedBytes, Wired, CeilDiv, Splice, Advance;
    if ev.Read? {
      ReadsNoPiece(g, net, ev.e);
    }
  }

  // --- the ends ---

  // What others do changes nothing for a connection, but that it may end.
  lemma StaysBalanced(net: Net, net': Net, e: nat)
    requires e < |net.ends| && Other(e) < |net.ends| && e < |net'.ends| && Other(e) < |net'.ends|
    requires Balanced(net, e) && SameHaves(net, net')
    requires net'.ends[e] == net.ends[e] && net'.ends[Other(e)] == net.ends[Other(e)]
    requires PhaseAt(net', e).Gone? || PhaseAt(net', e) == PhaseAt(net, e)
    requires Ended(net, Other(e)) ==> Ended(net', Other(e))
    ensures Balanced(net', e)
  {
    hide Unchokes, Guarded, RepliesIn, RequestsIn, PhaseAt, Ended, InterestedFirst;
  }

  predicate SameHaves(net: Net, net': Net) {
    |net'.nodes| == |net.nodes| && forall n :: 0 <= n < |net.nodes| ==> net'.nodes[n].have == net.nodes[n].have
  }

  // The peer loop of the end starts: it has an Unchoke to read if the other has started, and the second one will
  // answer its Interested.
  lemma BeginsBalanced(g: Geometry, H: bytes -> Digest, net: Net, e: nat)
    requires WellFormed(g) && Possible(g, net, Begin(e)) && Balanced(net, e)
    ensures e < |Happen(g, H, net, Begin(e)).ends| && Balanced(Happen(g, H, net, Begin(e)), e)
  {
    hide Happen, PhaseAt, Wired, PhaseAfter, Counts, Guarded, InterestedFirst;
    BeginIs(g, H, net, e);
    BegunIsBalanced(net, Happen(g, H, net, Begin(e)), e);
  }

  lemma BeginIs(g: Geometry, H: bytes -> Digest, net: Net, e: nat)
    requires WellFormed(g) && Possible(g, net, Begin(e)) && Other(e) < |net.ends|
    ensures var net', f := Happen(g, H, net, Begin(e)), Other(e);
            && |net'.ends| == |net.ends| && PhaseAt(net', e).Waiting? && PhaseAt(net', f) == PhaseAt(net, f)
            && net.ends[e].peer.None? && net'.ends[e].peer.Some? && net'.ends[e].inbox == net.ends[e].inbox
            && net'.ends[f].peer == net.ends[f].peer && net'.ends[f].inbox == net.ends[f].inbox + GREETING
            && net'.ends[e].node == net.ends[e].node && net'.ends[f].node == net.ends[f].node
            && Ended(net', f) == Ended(net, f)
  {
    hide Happen, PhaseAt, Wired, PhaseAfter;
    EndsAfter(g, H, net, Begin(e));
    Effect(g, H, net, Begin(e));
    BeginsWaiting(g, H, net, e);
  }

  lemma BegunIsBalanced(net: Net, net': Net, e: nat)
    requires e < |net.ends| && Balanced(net, e) && |net'.ends| == |net.ends| && PhaseAt(net', e).Waiting?
    requires net.ends[e].peer.None? && net'.ends[e].peer.Some? && net'.ends[e].inbox == net.ends[e].inbox
    requires Other(e) < |net.ends| ==> net'.ends[Other(e)].peer == net.ends[Other(e)].peer
    requires Other(e) < |net.ends| ==> net'.ends[Other(e)].inbox == net.ends[Other(e)].inbox + GREETING
    ensures Balanced(net', e)
  {
    hide Unchokes, Guarded, RepliesIn, RequestsIn, PhaseAt, WillBeServed, Greeted, InterestedFirst;
    GreetingIs();
    NoMessages();
    assert [] + GREETING == GREETING;
    assert Pending(net', e) == [] && Due(net', e) == 2;
  }

  lemma NoMessages()
    ensures Unchokes([]) == 0 && Guarded([]) && !Greeted([]) && RepliesIn([]) == RequestsIn([]) == []
  {
  }

  lemma BeginsWaiting(g: Geometry, H: bytes -> Digest, net: Net, e: nat)
    requires WellFormed(g) && Possible(g, net, Begin(e))
    ensures PhaseAfter(g, H, net, Begin(e)).Waiting?
  {
    assert Attached(net, e);
  }

  // The other peer loop starts.
  lemma OtherBegins(g: Geometry, H: bytes -> Digest, net: Net, e: nat)
    requires WellFormed(g) && e < |net.ends| && Possible(g, net, Begin(Other(e)))
    requires Balanced(net, e) && Balanced(net, Other(e))
    ensures e < |Happen(g, H, net, Begin(Other(e))).ends| && Balanced(Happen(g, H, net, Begin(Other(e))), e)
  {
    hide Happen, PhaseAt, Wired, PhaseAfter, Counts, Guarded, InterestedFirst;
    assert Other(Other(e)) == e;
    BeginIs(g, H, net, Other(e));
    GreetedIsBalanced(net, Happen(g, H, net, Begin(Other(e))), e);
  }

  lemma GreetedIsBalanced(net: Net, net': Net, e: nat)
    requires e < |net.ends| && Other(e) < |net.ends| && Balanced(net, e) && Balanced(net, Other(e))
    requires |net'.ends| == |net.ends| && PhaseAt(net', e) == PhaseAt(net, e)
    requires net.ends[Other(e)].peer.None? && net'.ends[Other(e)].peer.Some?
    requires net'.ends[e].peer == net.ends[e].peer && net'.ends[e].inbox == net.ends[e].inbox + GREETING
    requires net'.ends[Other(e)].inbox == net.ends[Other(e)].inbox
    ensures Balanced(net', e)
  {
    hide Unchokes, Guarded, RepliesIn, RequestsIn, PhaseAt, WillBeServed, Greeted, InterestedFirst;
    assert Other(Other(e)) == e;
    GreetingIs();
    NoMessages();
    UnbegunIsGone(net, e);
    assert [] + GREETING == GREETING;
    if !PhaseAt(net', e).Gone? {
      assert Pending(net', e) == [] && Due(net', e) == 2;
    }
  }

  // --- reading ---

  lemma ReadIs(g: Geometry, H: bytes -> Digest, net: Net, e: nat)
    requires WellFormed(g) && Possible(g, net, Read(e)) && Other(e) < |net.ends| && !net.ends[e].inbox[0].Piece?
    ensures var net', f := Happen(g, H, net, Read(e)), Other(e);
            && |net'.ends| == |net.ends| && PhaseAt(net', e) == PhaseAt(net, e) && PhaseAt(net', f) == PhaseAt(net, f)
            && net'.ends[e] == net.ends[e].(inbox := net.ends[e].inbox[1..])
            && net'.ends[f] == net.ends[f].(inbox := net.ends[f].inbox + Sent(g, H, net, Read(e)))
            && (Ended(net', e) <==> Ended(net, e)) && (Ended(net', f) <==> Ended(net, f))
            && Pending(net', e) == PendingAfter(g, H, net, Read(e), e)
            && Pending(net', f) == PendingAfter(g, H, net, Read(e), f)
  {
    hide Happen, PhaseAt, Wired, PhaseAfter, Sent, Pending, PendingAfter, NodeAfter;
    EndsAfter(g, H, net, Read(e));
    Effect(g, H, net, Read(e));
    ReadsTo(g, H, net, e);
    PendingIs(g, H, net, Read(e), e);
    PendingIs(g, H, net, Read(e), Other(e));
  }

  lemma ServedTheSame(net: Net, net': Net, e: nat)
    requires e < |net.ends| && Other(e) < |net.ends| && !PhaseAt(net, e).Gone? && PhaseAt(net', e) == PhaseAt(net, e)
    requires |net'.ends| == |net.ends| && net'.ends[Other(e)].node == net.ends[Other(e)].node && SameHaves(net, net')
    requires Ended(net', Other(e)) <==> Ended(net, Other(e))
    ensures WillBeServed(net', e) <==> WillBeServed(net, e)
  {
    hide PhaseAt, Ended;
  }

  lemma AfterReading(net: Net, net': Net, e: nat, sent: seq<Message>)
    requires e < |net.ends| && Balanced(net, e) && !PhaseAt(net, e).Gone? && net.ends[e].inbox != []
    requires |net'.ends| == |net.ends| && SameHaves(net, net')
    requires PhaseAt(net', e) == PhaseAt(net, e) && (Ended(net', Other(e)) <==> Ended(net, Other(e)))
    requires net'.ends[e] == net.ends[e].(inbox := net.ends[e].inbox[1..])
    requires net'.ends[Other(e)] == net.ends[Other(e)].(inbox := net.ends[Other(e)].inbox + sent)
    requires forall k :: 0 <= k < |sent| ==> !sent[k].Interested?
    requires net.ends[e].peer.Some?
    requires WillBeServed(net, e) ==>
               if net.ends[e].inbox[0].Unchoke? then Pending(net, e) == [] && Pending(net', e) != []
               else Pending(net', e) == [] <==> Pending(net, e) == []
    requires Guarded(net.ends[e].inbox[1..])
    ensures Balanced(net', e)
  {
    hide PhaseAt, Ended, Unchokes, Guarded, RepliesIn, RequestsIn, WillBeServed, InterestedFirst, Pending;
    ServedTheSame(net, net', e);
    FirstMessage(net.ends[e].inbox);
  }

  // An Unchoke is one less to come, and makes the guard ask.
  lemma ReaderBalanced(g: Geometry, H: bytes -> Digest, truth: bytes, net: Net, e: nat)
    requires WellFormed(g) && |truth| == g.total && Orderly(g, truth, net)
    requires Possible(g, net, Read(e)) && Safe(g, H, truth, net, Read(e)) && Balanced(net, e)
    requires SameHaves(net, Happen(g, H, net, Read(e)))
    ensures e < |Happen(g, H, net, Read(e)).ends| && Balanced(Happen(g, H, net, Read(e)), e)
  {
    hide Happen, PhaseAt, Wired, Sent, Pending, PendingAfter, Orderly, Unchokes, Guarded, Ask, Current, Ended,
      InterestedFirst, WillBeServed, Due;
    ReadsNoPiece(g, net, e);
    ReadIs(g, H, net, e);
    SentOnReading(g, H, net, e);
    FirstMessage(net.ends[e].inbox);
    ReaderPending(g, H, truth, net, e);
    AfterReading(net, Happen(g, H, net, Read(e)), e, Sent(g, H, net, Read(e)));
  }

  lemma ReaderPending(g: Geometry, H: bytes -> Digest, truth: bytes, net: Net, e: nat)
    requires WellFormed(g) && |truth| == g.total && Orderly(g, truth, net)
    requires Possible(g, net, Read(e)) && Safe(g, H, truth, net, Read(e)) && Balanced(net, e)
    requires !net.ends[e].inbox[0].Piece?
    ensures net.ends[e].peer.Some? && Guarded(net.ends[e].inbox[1..])
    ensures var after := PendingAfter(g, H, net, Read(e), e);
            WillBeServed(net, e) ==>
              if net.ends[e].inbox[0].Unchoke? then Pending(net, e) == [] && after != []
              else after == [] <==> Pending(net, e) == []
  {
    hide Wired, OrderlyNode, Current, Unchokes, Ask, Due;
    WiredAt(net, e);
    var inbox := net.ends[e].inbox;
    FirstMessage(inbox);
    HeadOf(inbox);
    if inbox[0].Unchoke? {
      if PhaseAt(net, e).guard.complete {
        NoneForComplete(g, truth, net, e);
      } else {
        ReaderAsks(g, truth, net, e);
      }
      NoRepliesIsGuarded(inbox[1..]);
    }
  }

  lemma NoneForComplete(g: Geometry, truth: bytes, net: Net, e: nat)
    requires WellFormed(g) && |truth| == g.total && Orderly(g, truth, net)
    requires e < |net.ends| && Other(e) < |net.ends| && PhaseAt(net, e).Waiting? && PhaseAt(net, e).guard.complete
    ensures Pending(net, e) == []
  {
    hide Wired, OrderlyNode, Pending, PhaseAt, Ask;
    assert OrderlyEnd(g, truth, net, e);
    CompleteAsksNothing(g, PhaseAt(net, e).guard);
    NothingIsCurrent(g, truth, net, e);
  }

  lemma NothingIsCurrent(g: Geometry, truth: bytes, net: Net, e: nat)
    requires e < |net.ends| && Other(e) < |net.ends| && PhaseAt(net, e).Waiting?
    requires OrderlyEnd(g, truth, net, e) && Ask(g, PhaseAt(net, e).guard) == []
    ensures Pending(net, e) == []
  {
    hide Pending, PhaseAt, Ask;
    UnbegunIsGone(net, e);
  }

  // What the other peer loop reads: an Interested makes it send an Unchoke, and it serves a request only while one is
  // to be read.
  lemma OtherReads(g: Geometry, H: bytes -> Digest, truth: bytes, net: Net, e: nat)
    requires WellFormed(g) && |truth| == g.total && Orderly(g, truth, net) && e < |net.ends|
    requires Possible(g, net, Read(Other(e))) && Balanced(net, e) && Balanced(net, Other(e))
    requires SameHaves(net, Happen(g, H, net, Read(Other(e))))
    ensures e < |Happen(g, H, net, Read(Other(e))).ends| && Balanced(Happen(g, H, net, Read(Other(e))), e)
  {
    hide Happen, PhaseAt, Wired, Sent, Pending, PendingAfter, Orderly, Unchokes, Guarded, Ask, Current, Ended,
      InterestedFirst, WillBeServed, Due;
    var f := Other(e);
    assert Other(f) == e;
    ReadsNoPiece(g, net, f);
    ReadIs(g, H, net, f);
    SentOnReading(g, H, net, f);
    FirstMessage(net.ends[f].inbox);
    ServerPending(g, H, truth, net, e);
    AfterOther(net, Happen(g, H, net, Read(f)), e, Sent(g, H, net, Read(f)));
  }

  lemma AfterOther(net: Net, net': Net, e: nat, sent: seq<Message>)
    requires e < |net.ends| && Other(e) < |net.ends| && Balanced(net, e)
    requires net.ends[e].peer.Some? && net.ends[Other(e)].peer.Some? && net.ends[Other(e)].inbox != []
    requires InterestedFirst(net.ends[Other(e)].inbox)
    requires |net'.ends| == |net.ends| && SameHaves(net, net')
    requires PhaseAt(net', e) == PhaseAt(net, e) && (Ended(net', Other(e)) <==> Ended(net, Other(e)))
    requires net'.ends[Other(e)] == net.ends[Other(e)].(inbox := net.ends[Other(e)].inbox[1..])
    requires net'.ends[e] == net.ends[e].(inbox := net.ends[e].inbox + sent)
    requires Unchokes(sent) == if net.ends[Other(e)].inbox[0].Interested? then 1 else 0
    requires forall k :: 0 <= k < |sent| ==> !sent[k].Interested?
    requires !PhaseAt(net, e).Gone? ==> Guarded(net.ends[e].inbox + sent)
    requires !PhaseAt(net, e).Gone? && WillBeServed(net, e) ==> (Pending(net', e) == [] <==> Pending(net, e) == [])
    ensures Balanced(net', e)
  {
    hide PhaseAt, Ended, Unchokes, Guarded, RepliesIn, RequestsIn, WillBeServed, Pending;
    if !PhaseAt(net, e).Gone? {
      ServedTheSame(net, net', e);
    }
    FirstMessage(net.ends[Other(e)].inbox);
    UnchokesConcat(net.ends[e].inbox, sent);
  }

  lemma ServerPending(g: Geometry, H: bytes -> Digest, truth: bytes, net: Net, e: nat)
    requires WellFormed(g) && |truth| == g.total && Orderly(g, truth, net) && e < |net.ends|
    requires Possible(g, net, Read(Other(e))) && Balanced(net, e) && Balanced(net, Other(e))
    requires !net.ends[Other(e)].inbox[0].Piece?
    ensures Other(e) < |net.ends| && net.ends[e].peer.Some? && net.ends[Other(e)].peer.Some?
    ensures var sent, after := Sent(g, H, net, Read(Other(e))), PendingAfter(g, H, net, Read(Other(e)), e);
            !PhaseAt(net, e).Gone? ==>
              && Guarded(net.ends[e].inbox + sent)
              && (WillBeServed(net, e) ==> (after == [] <==> Pending(net, e) == []))
  {
    hide Wired, Orderly, Current, Unchokes, Ask, Due, Guarded, RepliesIn, RequestsIn, PhaseAt, Ended, WillBeServed,
      Sent;
    var f := Other(e);
    assert Other(f) == e;
    OrderlyIsWired(g, truth, net);
    WiredAt(net, f);
    SentOnReading(g, H, net, f);
    var sent := Sent(g, H, net, Read(f));
    if !PhaseAt(net, e).Gone? {
      if net.ends[f].inbox[0].Request? {
        ServesWhileDue(g, H, truth, net, e);
        if sent != [] {
          GuardedConcat(net.ends[e].inbox, sent);
        } else {
          assert net.ends[e].inbox + sent == net.ends[e].inbox;
        }
      } else {
        NoRepliesIsGuarded(sent);
        GuardedConcat(net.ends[e].inbox, sent);
      }
    }
  }

  lemma OrderlyIsWired(g: Geometry, truth: bytes, net: Net)
    requires WellFormed(g) && |truth| == g.total && Orderly(g, truth, net)
    ensures Wired(net)
  {
  }

  // A request that is served is the current one, so an Unchoke is still to be read.
  lemma ServesWhileDue(g: Geometry, H: bytes -> Digest, truth: bytes, net: Net, e: nat)
    requires WellFormed(g) && |truth| == g.total && Orderly(g, truth, net) && e < |net.ends|
    requires Possible(g, net, Read(Other(e))) && Balanced(net, e) && !PhaseAt(net, e).Gone?
    requires Other(e) < |net.ends| && net.ends[Other(e)].inbox[0].Request?
    ensures var sent := Sent(g, H, net, Read(Other(e)));
            && (sent != [] ==> Unchokes(net.ends[e].inbox) > 0)
            && (WillBeServed(net, e) ==> sent != [] && Pending(net, e) != [])
            && (PendingAfter(g, H, net, Read(Other(e)), e) == [] <==> sent == [])
  {
    hide Wired, Unchokes, PhaseAt, Orderly, Sent, Guarded, Ask, RepliesIn, RequestsIn, Ended, Reply, InterestedFirst;
    var f, m := Other(e), net.ends[Other(e)].inbox[0];
    OnlyRequest(g, truth, net, e);
    ServesCurrent(g, H, truth, net, e);
    RunningIsNotEnded(net, f);
    ActingPhase(g, net, Read(f));
    assert PendingAfter(g, H, net, Read(f), e) == Sent(g, H, net, Read(f));
  }

  lemma OnlyRequest(g: Geometry, truth: bytes, net: Net, e: nat)
    requires WellFormed(g) && |truth| == g.total && Orderly(g, truth, net) && e < |net.ends| && Other(e) < |net.ends|
    requires PhaseAt(net, e).Waiting? && net.ends[Other(e)].inbox != [] && net.ends[Other(e)].inbox[0].Request?
    ensures var m := net.ends[Other(e)].inbox[0];
            && RepliesIn(net.ends[e].inbox) == [] && RequestsIn(net.ends[Other(e)].inbox) == [m]
            && Pending(net, e) == [m] && Ask(g, PhaseAt(net, e).guard) == [m]
  {
    hide Wired, OrderlyNode, RepliesIn, RequestsIn, PhaseAt, Ask;
    HeadOf(net.ends[Other(e)].inbox);
    assert OrderlyEnd(g, truth, net, e);
    UnbegunIsGone(net, e);
    var m, requests := net.ends[Other(e)].inbox[0], RequestsIn(net.ends[Other(e)].inbox);
    assert |Pending(net, e)| == 1;
    assert RepliesIn(net.ends[e].inbox) == [] && requests == [m];
    assert [] + requests == requests;
  }

  lemma ServesCurrent(g: Geometry, H: bytes -> Digest, truth: bytes, net: Net, e: nat)
    requires WellFormed(g) && |truth| == g.total && Orderly(g, truth, net) && e < |net.ends| && Other(e) < |net.ends|
    requires Possible(g, net, Read(Other(e))) && PhaseAt(net, e).Waiting? && net.ends[Other(e)].inbox[0].Request?
    requires Ask(g, PhaseAt(net, e).guard) == [net.ends[Other(e)].inbox[0]]
    ensures var n, guard := net.ends[Other(e)].node, PhaseAt(net, e).guard;
            && n < |net.nodes| && !guard.complete
            && (Sent(g, H, net, Read(Other(e))) != [] <==>
                  guard.piece < |net.nodes[n].have| && net.nodes[n].have[guard.piece])
  {
    hide Wired, OrderlyEnd, PhaseAt, Ask, Tidy, Sound, Partition, Conservation, PieceSize;
    WiredAt(net, e);
    WiredAt(net, Other(e));
    var ph, m, s := PhaseAt(net, e), net.ends[Other(e)].inbox[0], net.nodes[net.ends[Other(e)].node];
    assert OrderlyNode(g, truth, net.nodes[net.ends[e].node]) && OrderlyNode(g, truth, s);
    CompleteAsksNothing(g, ph.guard);
    AskIs(g, net.nodes[net.ends[e].node], ph);
    assert Sent(g, H, net, Read(Other(e))) == Reply(g, s, m.index, m.begin, m.length);
    if s.have[m.index] {
      ServedIsTrue(g, truth, s, m.index, m.begin, m.length);
    }
  }

  // --- every event and every run ---

  lemma OthersBalance(g: Geometry, H: bytes -> Digest, net: Net, ev: Event, e: nat)
    requires WellFormed(g) && Possible(g, net, ev) && e < |net.ends| && Other(e) < |net.ends| && Balanced(net, e)
    requires ActorOf(ev).Some? && (ActorOf(ev).value == e || ActorOf(ev).value == Other(e)) ==> ev.Hangup?
    requires SameHaves(net, Happen(g, H, net, ev))
    ensures e < |Happen(g, H, net, ev).ends| && Balanced(Happen(g, H, net, ev), e)
  {
    hide Happen, PhaseAt, Wired, Balanced, Sent, PhaseAfter;
    EndsAfter(g, H, net, ev);
    if Ordinary(ev) {
      LivesOn(g, H, net, ev, Other(e));
      Effect(g, H, net, ev);
    } else {
      EndedIs(g, H, net, ev, e);
      EndedIs(g, H, net, ev, Other(e));
    }
    assert Other(Other(e)) == e;
    StaysBalanced(net, Happen(g, H, net, ev), e);
  }

  lemma EndBalances(g: Geometry, H: bytes -> Digest, truth: bytes, net: Net, disks: seq<bytes>, ev: Event, e: nat)
    requires WellFormed(g) && |truth| == g.total && Orderly(g, truth, net) && Untouched(g, H, net, disks)
    requires Possible(g, net, ev) && Safe(g, H, truth, net, ev) && e < |net.ends|
    requires SameHaves(net, Happen(g, H, net, ev))
    ensures e < |Happen(g, H, net, ev).ends| && Balanced(Happen(g, H, net, ev), e)
  {
    hide Happen, Wired, Orderly, Balanced, Safe, Possible;
    OrderlyIsWired(g, truth, net);
    WiredAt(net, e);
    assert Balanced(net, e) && Balanced(net, Other(e)) && Other(Other(e)) == e;
    match ev
    case Begin(f) =>
      if f == e {
        BeginsBalanced(g, H, net, e);
      } else if f == Other(e) {
        OtherBegins(g, H, net, e);
      } else {
        OthersBalance(g, H, net, ev, e);
      }
    case Read(f) =>
      if f == e {
        ReaderBalanced(g, H, truth, net, e);
      } else if f == Other(e) {
        OtherReads(g, H, truth, net, e);
      } else {
        OthersBalance(g, H, net, ev, e);
      }
    case Proceed(f) =>
      ActingPhase(g, net, ev);
      NothingProceeds(g, net, f);
      assert false;
    case _ => OthersBalance(g, H, net, ev, e);
  }

  lemma SafeTouchesNothing(g: Geometry, H: bytes -> Digest, truth: bytes, net: Net, disks: seq<bytes>, ev: Event)
    requires WellFormed(g) && |truth| == g.total && Orderly(g, truth, net) && Untouched(g, H, net, disks)
    requires Possible(g, net, ev) && Safe(g, H, truth, net, ev)
    ensures Untouched(g, H, Happen(g, H, net, ev), disks) && !ReadsPiece(net, ev)
  {
    hide Happen, Wired, Orderly, Balanced, Safe, Possible;
    var net' := Happen(g, H, net, ev);
    NodesUntouched(g, H, net, disks, ev);
    EndsAfter(g, H, net, ev);
    forall e | 0 <= e < |net'.ends| ensures Balanced(net', e) {
      if e < |net.ends| {
        EndBalances(g, H, truth, net, disks, ev, e);
      } else {
        NewEndIsBalanced(g, H, net, ev, e);
      }
    }
    if ReadsPiece(net, ev) {
      ReadsNoPiece(g, net, ev.e);
      assert false;
    }
  }

  lemma NewEndIsBalanced(g: Geometry, H: bytes -> Digest, net: Net, ev: Event, e: nat)
    requires WellFormed(g) && Possible(g, net, ev) && |net.ends| <= e < |Happen(g, H, net, ev).ends|
    ensures Balanced(Happen(g, H, net, ev), e)
  {
    hide Happen, Wired, PhaseAt;
    EndsAfter(g, H, net, ev);
    StaysWired(g, H, net, ev);
    WiredAtEnd(net);
    NewEnds(g, H, net, ev, e);
    OtherOfNew(|net.ends|, e);
    NewEnds(g, H, net, ev, Other(e));
    UnbegunIsGone(Happen(g, H, net, ev), e);
  }

  predicate ReadsPiece(net: Net, ev: Event) {
    ev.Read? && ev.e < |net.ends| && net.ends[ev.e].inbox != [] && net.ends[ev.e].inbox[0].Piece?
  }

  // Somewhere in the run a peer loop reads a Piece message.
  predicate Transfers(g: Geometry, H: bytes -> Digest, net: Net, run: seq<Event>)
    requires WellFormed(g) && PossibleRun(g, H, net, run)
    decreases |run|
  {
    run != [] && (ReadsPiece(net, run[0]) || Transfers(g, H, Happen(g, H, net, run[0]), run[1..]))
  }

  lemma {:induction false} SafeRunTouchesNothing(g: Geometry, H: bytes -> Digest, truth: bytes, net: Net,
                                                 disks: seq<bytes>, run: seq<Event>)
    requires WellFormed(g) && |truth| == g.total && Orderly(g, truth, net) && Untouched(g, H, net, disks)
    requires PossibleRun(g, H, net, run) && SafeRun(g, H, truth, net, run)
    ensures Untouched(g, H, Outcome(g, H, net, run), disks) && !Transfers(g, H, net, run)
    decreases |run|
  {
    hide Happen, Orderly, Untouched, Safe, Possible, ReadsPiece;
    if run != [] {
      SafeTouchesNothing(g, H, truth, net, disks, run[0]);
      StaysOrderlyExactly(g, H, truth, net, run[0]);
      SafeRunTouchesNothing(g, H, truth, Happen(g, H, net, run[0]), disks, run[1..]);
    }
  }

  // Engines started on any disks without false matches, connected in any way: in a safe run no Piece message is ever
  // read, and each engine keeps the disk and the marks it was started with.
  lemma SafeRunsTransferNothing(g: Geometry, H: bytes -> Digest, truth: bytes, disks: seq<bytes>, run: seq<Event>)
    requires WellFormed(g) && |truth| == g.total
    requires forall d :: d in disks ==> |d| == g.total && NoFalseMatch(g, H, truth, d)
    requires PossibleRun(g, H, Start(g, H, disks), run) && SafeRun(g, H, truth, Start(g, H, disks), run)
    ensures !Transfers(g, H, Start(g, H, disks), run)
    ensures var start, net := Start(g, H, disks), Outcome(g, H, Start(g, H, disks), run);
            && |net.nodes| == |start.nodes| == |disks|
            && forall n :: 0 <= n < |disks| ==>
                 net.nodes[n].disk == disks[n] && net.nodes[n].have == start.nodes[n].have
  {
    hide NoFalseMatch, PossibleRun, SafeRun, Outcome, Start, Orderly, Transfers, Balanced;
    StartIsOrderly(g, H, truth, disks);
    StartNodes(g, H, disks);
    var start := Start(g, H, disks);
    forall n | 0 <= n < |disks|
      ensures start.nodes[n].disk == disks[n] && start.nodes[n].have == Verified(g, H, disks[n])
    {
      ResumedHas(g, H, disks[n]);
    }
    SafeRunTouchesNothing(g, H, truth, start, disks, run);
  }

  lemma ResumedHas(g: Geometry, H: bytes -> Digest, disk: bytes)
    requires WellFormed(g) && |disk| == g.total
    ensures Resume(g, H, disk).disk == disk && Resume(g, H, disk).have == Verified(g, H, disk)
  {
    hide Verified, MissingBelow, ResumedBytes;
  }
}
