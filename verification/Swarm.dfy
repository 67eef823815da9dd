// The download scheduler of crates/daemon/src/engine.rs as a transition system over any number of peers.
//
// A step is one stretch of a task between two points where another task can run: one lock region, or one
// file write. `peers[p]` is the PieceGuard of the p-th peer loop, `refunds` are the tasks that dropped guards
// have spawned.
module Swarm {
  import opened Prelude
  import opened Geometry

  datatype Status = Downloading | Completed

  // The fields of a PieceGuard. A complete guard keeps the piece and offset it had.
  datatype Guard = Guard(piece: nat, offset: nat, complete: bool)

  datatype Phase =
    | Waiting(guard: Guard) // for the next message
    | Written(guard: Guard, len: nat) // a block is on disk, not yet counted
    | Finished(guard: Guard, held: bool) // the guard is complete, `have` not yet set; `held`: it was not before
    | Marked(guard: Guard) // `have` set, the next piece not yet taken
    | Gone // the peer loop has ended

  datatype Refund =
    | Owed(piece: nat, count: nat) // spawned: bytes to subtract, piece to push back
    | Returning(piece: nat) // bytes subtracted, piece not yet pushed

  // `disk` is the concatenation of the torrent's files.
  datatype State = State(
    disk: bytes,
    missing: seq<nat>,
    have: seq<bool>,
    downloaded: nat,
    status: Status,
    peers: seq<Phase>,
    refunds: seq<Refund>)

  datatype Action =
    | Connect // a new peer loop takes its first piece
    | Write(p: nat, index: nat, begin: nat, block: bytes) // a Piece message, any at all
    | Credit(p: nat) // its bytes are counted and the guard advances
    | Mark(p: nat)
    | TakeNext(p: nat)
    | Drop(p: nat) // disconnect, time-out or write error: the guard is dropped
    | SubtractRefund(k: nat)
    | PushRefund(k: nat)
    | Restart // a new session is built from the disk; the peer loops of the old one have ended

  // --- steps ---

  function StatusOf(downloaded: nat, size: nat): Status {
    if downloaded >= size then Completed else Downloading
  }

  function TakePiece(missing: seq<nat>, guard: Guard): (seq<nat>, Guard) {
    if missing == [] then (missing, guard) else (missing[1..], Guard(missing[0], 0, false))
  }

  // The guard of a new peer loop before it takes a piece.
  const NEW_GUARD := Guard(0, 0, true)

  // After `len` counted bytes. The guard does not look at where they belong, nor whether it was complete.
  function Advance(g: Geometry, guard: Guard, len: nat): Phase {
    var next := (guard.offset + len) % U32;
    if next >= TargetSize(g, guard.piece) then Finished(Guard(guard.piece, next, true), !guard.complete)
    else Waiting(guard.(offset := next))
  }

  // Which pieces the disk holds, by their hashes.
  function Verified(g: Geometry, H: bytes -> Digest, disk: bytes): (have: seq<bool>)
    requires WellFormed(g) && |disk| == g.total
    ensures |have| == |g.hashes|
    ensures forall i :: 0 <= i < |have| ==> (have[i] <==> H(PieceAt(g, disk, i)) == g.hashes[i])
  {
    seq(|g.hashes|, i requires 0 <= i < |g.hashes| => H(PieceAt(g, disk, i)) == g.hashes[i])
  }

  function MissingBelow(have: seq<bool>, n: nat): seq<nat>
    requires n <= |have|
  {
    if n == 0 then []
    else MissingBelow(have, n - 1) + (if have[n - 1] then [] else [n - 1])
  }

  // The sum of `verify_and_resume`, which computes the last piece's size on its own.
  function ResumedBytes(g: Geometry, have: seq<bool>, n: nat): nat
    requires WellFormed(g) && n <= |have| == |g.hashes|
  {
    if n == 0 then 0
    else
      var rest := ResumedBytes(g, have, n - 1);
      if !have[n - 1] then rest
      else if n - 1 == |g.hashes| - 1 then
        // the u64 subtraction does not underflow
        PieceBounds(g, n - 1);
        rest + (g.total - (|g.hashes| - 1) * g.pieceLength)
      else rest + g.pieceLength
  }

  function Resume(g: Geometry, H: bytes -> Digest, disk: bytes): State
    requires WellFormed(g) && |disk| == g.total
  {
    var have := Verified(g, H, disk);
    var missing := MissingBelow(have, |have|);
    State(disk, missing, have, Min(ResumedBytes(g, have, |have|), g.total),
          if missing == [] then Completed else Downloading, [], [])
  }

  function AfterRefund(g: Geometry, s: State, count: nat): State {
    var left := SaturatingSub(s.downloaded, count);
    s.(downloaded := left, status := if left < g.total then Downloading else s.status)
  }

  predicate Incomplete(ph: Phase) { (ph.Waiting? || ph.Written?) && !ph.guard.complete }

  // The guard of peer `p` is dropped; an incomplete one spawns a refund.
  function Dropped(s: State, p: nat): State
    requires p < |s.peers|
  {
    var ph := s.peers[p];
    s.(peers := s.peers[p := Gone],
       refunds := if Incomplete(ph) then s.refunds + [Owed(ph.guard.piece, ph.guard.offset)] else s.refunds)
  }

  // What the program can do.
  predicate Enabled(g: Geometry, s: State, a: Action) {
    match a
    case Connect => true
    case Write(p, _, _, _) => p < |s.peers| && s.peers[p].Waiting?
    case Credit(p) => p < |s.peers| && s.peers[p].Written?
    case Mark(p) => p < |s.peers| && s.peers[p].Finished?
    case TakeNext(p) => p < |s.peers| && s.peers[p].Marked?
    case Drop(p) => p < |s.peers| && !s.peers[p].Gone?
    case SubtractRefund(k) => k < |s.refunds| && s.refunds[k].Owed?
    case PushRefund(k) => k < |s.refunds| && s.refunds[k].Returning?
    case Restart => |s.disk| == g.total
  }

  function Next(g: Geometry, H: bytes -> Digest, s: State, a: Action): State
    requires WellFormed(g) && Enabled(g, s, a)
  {
    match a
    case Connect =>
      var (missing, guard) := TakePiece(s.missing, NEW_GUARD);
      s.(missing := missing, peers := s.peers + [Waiting(guard)])
    case Write(p, index, begin, block) =>
      s.(disk := Splice(s.disk, PieceStart(g, index) + begin, block),
         peers := s.peers[p := Written(s.peers[p].guard, |block|)])
    case Credit(p) =>
      var ph := s.peers[p];
      var downloaded := Min(s.downloaded + ph.len, g.total);
      s.(downloaded := downloaded,
         status := StatusOf(downloaded, g.total),
         peers := s.peers[p := Advance(g, ph.guard, ph.len)])
    case Mark(p) =>
      var guard := s.peers[p].guard;
      s.(have := if guard.piece < |s.have| then s.have[guard.piece := true] else s.have,
         peers := s.peers[p := Marked(guard)])
    case TakeNext(p) =>
      var (missing, guard) := TakePiece(s.missing, s.peers[p].guard);
      s.(missing := missing, peers := s.peers[p := Waiting(guard)])
    case Drop(p) => Dropped(s, p)
    case SubtractRefund(k) =>
      AfterRefund(g, s, s.refunds[k].count).(refunds := s.refunds[k := Returning(s.refunds[k].piece)])
    case PushRefund(k) =>
      s.(missing := s.missing + [s.refunds[k].piece], refunds := s.refunds[..k] + s.refunds[k + 1..])
    case Restart => Resume(g, H, s.disk).(peers := seq(|s.peers|, _ => Gone))
  }

  // --- who owns a piece, and which bytes are counted for whom ---

  function IsPiece(i: int): int -> nat { (x: int) => if x == i then 1 else 0 }

  predicate Holding(ph: Phase, i: nat) {
    (Incomplete(ph) || (ph.Finished? && ph.held)) && ph.guard.piece == i
  }

  function Holds(i: nat): Phase -> nat { (ph: Phase) => if Holding(ph, i) then 1 else 0 }

  function Owes(i: nat): Refund -> nat { (r: Refund) => if r.piece == i then 1 else 0 }

  // How often piece `i` occurs in the queue, in the guards, in the refund tasks and in `have` together.
  function Owners(s: State, i: nat): nat
    requires i < |s.have|
  {
    SumBy<int>(IsPiece(i), s.missing) + SumBy(Holds(i), s.peers) + SumBy(Owes(i), s.refunds)
    + (if s.have[i] then 1 else 0)
  }

  function SizeOr0(g: Geometry, i: nat): nat
    requires WellFormed(g)
  {
    if i < |g.hashes| then PieceSize(g, i) else 0
  }

  function Counted(g: Geometry, ph: Phase): nat
    requires WellFormed(g)
  {
    if Incomplete(ph) then ph.guard.offset
    else if ph.Finished? && ph.held then SizeOr0(g, ph.guard.piece)
    else 0
  }

  // The counted bytes of guards whose piece is below `n`.
  function CountedBelow(g: Geometry, n: nat): Phase -> nat
    requires WellFormed(g)
  {
    (ph: Phase) => if !ph.Gone? && ph.guard.piece < n then Counted(g, ph) else 0
  }

  function OwedBelow(n: nat): Refund -> nat {
    (r: Refund) => if r.Owed? && r.piece < n then r.count else 0
  }

  function HaveBytes(g: Geometry, have: seq<bool>, n: nat): nat
    requires WellFormed(g) && n <= |have|
  {
    if n == 0 then 0 else HaveBytes(g, have, n - 1) + (if have[n - 1] then SizeOr0(g, n - 1) else 0)
  }

  // Bytes of marked pieces, of guards and of pending refunds, for the pieces below `n`.
  function BytesBelow(g: Geometry, s: State, n: nat): nat
    requires WellFormed(g) && n <= |s.have|
  {
    HaveBytes(g, s.have, n) + SumBy(CountedBelow(g, n), s.peers) + SumBy(OwedBelow(n), s.refunds)
  }

  // --- the invariant ---

  predicate PhaseOk(g: Geometry, ph: Phase)
    requires WellFormed(g)
  {
    && (Incomplete(ph) ==> ph.guard.piece < |g.hashes| && ph.guard.offset < PieceSize(g, ph.guard.piece))
    && (ph.Finished? && ph.held ==> ph.guard.piece < |g.hashes|)
    && (ph.Finished? || ph.Marked? ==> ph.guard.complete)
  }

  predicate RefundOk(g: Geometry, r: Refund)
    requires WellFormed(g)
  {
    r.piece < |g.hashes| && (r.Owed? ==> r.count < PieceSize(g, r.piece))
  }

  predicate Shape(g: Geometry, s: State)
    requires WellFormed(g)
  {
    && |s.disk| == g.total
    && |s.have| == |g.hashes|
    && (forall k :: 0 <= k < |s.missing| ==> s.missing[k] < |g.hashes|)
    && (forall ph :: ph in s.peers ==> PhaseOk(g, ph))
    && (forall r :: r in s.refunds ==> RefundOk(g, r))
  }

  // Every piece has exactly one owner.
  predicate Partition(g: Geometry, s: State)
    requires WellFormed(g) && Shape(g, s)
  {
    forall i :: 0 <= i < |g.hashes| ==> Owners(s, i) == 1
  }

  // Every counted byte belongs to an owner, and the status says whether all are counted.
  predicate Conservation(g: Geometry, s: State)
    requires WellFormed(g) && Shape(g, s)
  {
    && s.downloaded == BytesBelow(g, s, |g.hashes|)
    && (s.status == Completed <==> s.downloaded == g.total)
  }

  predicate Inv(g: Geometry, s: State) {
    WellFormed(g) && Shape(g, s) && Partition(g, s) && Conservation(g, s)
  }

  // The piece needs no more bytes: it is marked, or about to be marked by the peer that has all of it.
  predicate Done(s: State, i: nat)
    requires i < |s.have|
  {
    s.have[i] || exists ph :: ph in s.peers && ph.Finished? && Holding(ph, i)
  }

  // --- what an action must meet to keep the invariant ---

  // A block is counted right if it fits into the rest of the guard's piece, or if it is too long but the rest of
  // the piece is all that the torrent lacks, so that the clamp to the size hides it. For a complete guard it must
  // be empty, or all bytes must be counted already.
  predicate CountsRight(g: Geometry, s: State, guard: Guard, len: nat)
    requires WellFormed(g)
  {
    if guard.complete then len == 0 || s.downloaded == g.total
    else
      var size := SizeOr0(g, guard.piece);
      || guard.offset + len <= size
      || ((guard.offset + len) % U32 >= size && s.downloaded + size == g.total + guard.offset)
  }

  // A guard may be dropped except when it is complete but its piece is not yet marked; and a guard that never
  // held a piece must not mark one.
  predicate Harmless(g: Geometry, s: State, a: Action)
    requires WellFormed(g) && Enabled(g, s, a)
  {
    match a
    case Credit(p) => CountsRight(g, s, s.peers[p].guard, s.peers[p].len)
    case Mark(p) => s.peers[p].held || s.peers[p].guard.piece >= |s.have| || s.have[s.peers[p].guard.piece]
    case Drop(p) => !(s.peers[p].Finished? && s.peers[p].held)
    case _ => true
  }

  // --- runs ---

  predicate EnabledRun(g: Geometry, H: bytes -> Digest, s: State, run: seq<Action>)
    requires WellFormed(g)
    decreases |run|
  {
    run == [] || (Enabled(g, s, run[0]) && EnabledRun(g, H, Next(g, H, s, run[0]), run[1..]))
  }

  function After(g: Geometry, H: bytes -> Digest, s: State, run: seq<Action>): State
    requires WellFormed(g) && EnabledRun(g, H, s, run)
    decreases |run|
  {
    if run == [] then s else After(g, H, Next(g, H, s, run[0]), run[1..])
  }

  // Every step of the run is harmless where it is taken.
  predicate HarmlessRun(g: Geometry, H: bytes -> Digest, s: State, run: seq<Action>)
    requires WellFormed(g) && EnabledRun(g, H, s, run)
    decreases |run|
  {
    run == [] || (Harmless(g, s, run[0]) && HarmlessRun(g, H, Next(g, H, s, run[0]), run[1..]))
  }

  // Every state of the run meets the invariant.
  predicate AlwaysInv(g: Geometry, H: bytes -> Digest, s: State, run: seq<Action>)
    requires WellFormed(g) && EnabledRun(g, H, s, run)
    decreases |run|
  {
    Inv(g, s) && (run == [] || AlwaysInv(g, H, Next(g, H, s, run[0]), run[1..]))
  }

  // --- the hypotheses under which every step is harmless ---

  // A Piece message answers the current request of an incomplete guard: its block goes where the next bytes of
  // the piece belong, and is not longer than what is left of the piece.
  predicate Answers(g: Geometry, guard: Guard, index: nat, begin: nat, len: nat)
    requires WellFormed(g)
  {
    && !guard.complete
    && PieceStart(g, index) + begin == PieceStart(g, guard.piece) + guard.offset
    && guard.offset + len <= SizeOr0(g, guard.piece)
  }

  // Piece messages answer, and no guard is dropped between counting the last block of its piece and marking it.
  predicate Expected(g: Geometry, s: State, a: Action)
    requires WellFormed(g) && Enabled(g, s, a)
  {
    match a
    case Write(p, index, begin, block) => Answers(g, s.peers[p].guard, index, begin, |block|)
    case Drop(p) => !s.peers[p].Finished?
    case _ => true
  }

  predicate ExpectedRun(g: Geometry, H: bytes -> Digest, s: State, run: seq<Action>)
    requires WellFormed(g) && EnabledRun(g, H, s, run)
    decreases |run|
  {
    run == [] || (Expected(g, s, run[0]) && ExpectedRun(g, H, Next(g, H, s, run[0]), run[1..]))
  }

  // What Piece messages that answer leave behind.
  predicate Tidy(g: Geometry, s: State)
    requires WellFormed(g)
  {
    forall ph :: ph in s.peers ==>
      && (ph.Written? ==> !ph.guard.complete && ph.guard.offset + ph.len <= SizeOr0(g, ph.guard.piece))
      && (ph.Finished? ==> ph.held)
  }
}
