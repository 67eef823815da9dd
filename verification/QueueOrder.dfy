// The order in which pieces are fetched: `missing_pieces` of crates/daemon/src/engine.rs is taken from at its front and
// added to at its end.
module QueueOrder {
  import opened Prelude
  import opened Geometry
  import opened Swarm
  import opened SwarmProofs

  predicate Ascending(s: seq<nat>) { forall i, j :: 0 <= i < j < |s| ==> s[i] < s[j] }

  // The pieces that are not there, each once, from the first to the last.
  predicate IsMissingList(have: seq<bool>, missing: seq<nat>) {
    && Ascending(missing)
    && (forall x :: x in missing ==> x < |have| && !have[x])
    && (forall x :: 0 <= x < |have| && !have[x] ==> x in missing)
  }

  lemma {:induction false} MissingBelowHas(have: seq<bool>, n: nat)
    requires n <= |have|
    ensures Ascending(MissingBelow(have, n))
    ensures forall x :: x in MissingBelow(have, n) <==> 0 <= x < n && !have[x]
  {
    if n > 0 {
      var rest := MissingBelow(have, n - 1);
      MissingBelowHas(have, n - 1);
      forall k | 0 <= k < |rest| ensures rest[k] < n - 1 {
        assert rest[k] in rest;
      }
    }
  }

  lemma MissingIsList(have: seq<bool>)
    ensures IsMissingList(have, MissingBelow(have, |have|))
  {
    MissingBelowHas(have, |have|);
  }

  lemma FirstIsLeast(have: seq<bool>, missing: seq<nat>, i: nat)
    requires IsMissingList(have, missing) && i < |have| && !have[i]
    ensures missing != [] && missing[0] <= i
  {
    var k :| 0 <= k < |missing| && missing[k] == i;
  }

  // --- what a run takes from the queue and what it adds ---

  // The piece that a step gives to a peer loop: to a new one, or to one whose guard was complete.
  function TakenBy(s: State, a: Action, t: State): seq<nat> {
    match a
    case Connect => if t.peers != [] then Fetched(t.peers[|t.peers| - 1]) else []
    case TakeNext(p) => if p < |t.peers| then Fetched(t.peers[p]) else []
    case _ => []
  }

  function Fetched(ph: Phase): seq<nat> { if ph.Waiting? && !ph.guard.complete then [ph.guard.piece] else [] }

  // The piece that a step gives back.
  function GivenBackBy(s: State, a: Action): seq<nat> {
    if a.PushRefund? && a.k < |s.refunds| then [s.refunds[a.k].piece] else []
  }

  function Taken(g: Geometry, H: bytes -> Digest, s: State, run: seq<Action>): seq<nat>
    requires WellFormed(g) && EnabledRun(g, H, s, run)
    decreases |run|
  {
    if run == [] then []
    else
      var t := Next(g, H, s, run[0]);
      TakenBy(s, run[0], t) + Taken(g, H, t, run[1..])
  }

  function GivenBack(g: Geometry, H: bytes -> Digest, s: State, run: seq<Action>): seq<nat>
    requires WellFormed(g) && EnabledRun(g, H, s, run)
    decreases |run|
  {
    if run == [] then [] else GivenBackBy(s, run[0]) + GivenBack(g, H, Next(g, H, s, run[0]), run[1..])
  }

  predicate OneSession(run: seq<Action>) { forall a :: a in run ==> !a.Restart? }

  lemma StepIsFifo(g: Geometry, H: bytes -> Digest, s: State, a: Action)
    requires WellFormed(g) && Shape(g, s) && Enabled(g, s, a) && !a.Restart?
    ensures var t := Next(g, H, s, a);
            TakenBy(s, a, t) + t.missing == s.missing + GivenBackBy(s, a)
  {
    hide Splice, StatusOf, TargetSize, CeilDiv;
    match a
    case Connect =>
    case TakeNext(p) => assert s.peers[p] in s.peers;
    case _ =>
  }

  // Within a session the queue is first in, first out: what a run takes, followed by what it leaves, is what it found,
  // followed by what it gave back.
  lemma {:induction false} QueueIsFifo(g: Geometry, H: bytes -> Digest, s: State, run: seq<Action>)
    requires WellFormed(g) && Shape(g, s) && EnabledRun(g, H, s, run) && OneSession(run)
    ensures Taken(g, H, s, run) + After(g, H, s, run).missing == s.missing + GivenBack(g, H, s, run)
    decreases |run|
  {
    hide Shape, Next, TakenBy, GivenBackBy;
    if run != [] {
      var a, rest := run[0], run[1..];
      var t := Next(g, H, s, a);
      assert a in run && forall b :: b in rest ==> b in run;
      StepIsFifo(g, H, s, a);
      StepKeepsShape(g, H, s, a);
      QueueIsFifo(g, H, t, rest);
      var x, y := TakenBy(s, a, t), GivenBackBy(s, a);
      ConcatAssoc(x, Taken(g, H, t, rest), After(g, H, t, rest).missing);
      ConcatAssoc(x, t.missing, GivenBack(g, H, t, rest));
      ConcatAssoc(s.missing, y, GivenBack(g, H, t, rest));
    }
  }

  // --- what follows ---

  // The first peer loop of a new session starts with the first piece that is not verified, at its beginning; with none
  // if all are.
  lemma FirstLoopFetchesFirst(g: Geometry, H: bytes -> Digest, disk: bytes)
    requires WellFormed(g) && |disk| == g.total
    ensures var have := Verified(g, H, disk);
            var t := Next(g, H, Resume(g, H, disk), Connect);
            && |t.peers| == 1 && t.peers[0].Waiting?
            && var guard := t.peers[0].guard;
               if forall i :: 0 <= i < |have| ==> have[i] then guard.complete
               else
                 && !guard.complete && guard.offset == 0
                 && guard.piece < |have| && !have[guard.piece] && forall i :: 0 <= i < guard.piece ==> have[i]
  {
    hide Verified, ResumedBytes;
    var have := Verified(g, H, disk);
    MissingIsList(have);
    var missing := MissingBelow(have, |have|);
    if missing != [] {
      var first := missing[0];
      assert first in missing;
      forall i | 0 <= i < |have| && !have[i] ensures first <= i {
        FirstIsLeast(have, missing, i);
      }
    }
  }

  // A new session hands out the pieces that are not verified in ascending order, before any that was given back.
  lemma FreshPiecesAscend(g: Geometry, H: bytes -> Digest, disk: bytes, run: seq<Action>)
    requires WellFormed(g) && |disk| == g.total
    requires EnabledRun(g, H, Resume(g, H, disk), run) && OneSession(run)
    ensures var have := Verified(g, H, disk);
            var taken := Taken(g, H, Resume(g, H, disk), run);
            var missing := Resume(g, H, disk).missing;
            && IsMissingList(have, missing)
            && if |taken| <= |missing| then taken == missing[..|taken|]
               else missing == taken[..|missing|] && taken[|missing|..] <= GivenBack(g, H, Resume(g, H, disk), run)
  {
    hide Verified, ResumedBytes, Taken, GivenBack, After, EnabledRun, IsMissingList, Shape;
    var s := Resume(g, H, disk);
    ResumeInv(g, H, disk);
    QueueIsFifo(g, H, s, run);
    MissingIsList(s.have);
    FrontsAgree(Taken(g, H, s, run), After(g, H, s, run).missing, s.missing, GivenBack(g, H, s, run));
  }

  lemma FrontsAgree<T>(a: seq<T>, b: seq<T>, c: seq<T>, d: seq<T>)
    requires a + b == c + d
    ensures if |a| <= |c| then a == c[..|a|] && b == c[|a|..] + d else c == a[..|c|] && d == a[|c|..] + b
  {
    if |a| <= |c| {
      assert (a + b)[..|a|] == a && (c + d)[..|a|] == c[..|a|];
      assert (a + b)[|a|..] == b && (c + d)[|a|..] == c[|a|..] + d;
    } else {
      assert (a + b)[..|c|] == a[..|c|] && (c + d)[..|c|] == c;
      assert (a + b)[|c|..] == a[|c|..] + b && (c + d)[|c|..] == d;
    }
  }

  // A piece that is given back is taken after every piece that was queued before it: either it still waits behind those
  // of them that are left, or all of them have been taken before it, in order.
  lemma GivenBackWaits(g: Geometry, H: bytes -> Digest, s: State, k: nat, run: seq<Action>)
    requires WellFormed(g) && Shape(g, s) && Enabled(g, s, PushRefund(k))
    requires EnabledRun(g, H, Next(g, H, s, PushRefund(k)), run) && OneSession(run)
    ensures var t := Next(g, H, s, PushRefund(k));
            var taken, left := Taken(g, H, t, run), After(g, H, t, run).missing;
            var queued, piece := s.missing, s.refunds[k].piece;
            if |taken| <= |queued|
            then taken == queued[..|taken|] && queued[|taken|..] + [piece] <= left
            else queued == taken[..|queued|] && taken[|queued|] == piece
  {
    hide Shape, Taken, After, EnabledRun;
    var t := Next(g, H, s, PushRefund(k));
    var taken, left := Taken(g, H, t, run), After(g, H, t, run).missing;
    var queued, piece := s.missing, s.refunds[k].piece;
    StepKeepsShape(g, H, s, PushRefund(k));
    QueueIsFifo(g, H, t, run);
    assert t.missing == queued + [piece];
    ConcatAssoc(queued, [piece], GivenBack(g, H, t, run));
    FrontsAgree(taken, left, queued, [piece] + GivenBack(g, H, t, run));
    if |taken| <= |queued| {
      ConcatAssoc(queued[|taken|..], [piece], GivenBack(g, H, t, run));
    } else {
      assert ([piece] + GivenBack(g, H, t, run))[0] == (taken[|queued|..] + left)[0] == taken[|queued|];
    }
  }
}
