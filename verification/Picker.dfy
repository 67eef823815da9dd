// `PiecePicker` of crates/piece/src/lib.rs: rarest-first selection.
module Picker {
  import opened Prelude
  import opened Bitfields

  datatype Candidate = Candidate(index: nat, count: nat)

  // A piece that is neither had nor requested and that the peer offers. Beyond the end of `downloaded` and
  // `requested` nothing is wanted; beyond the end of the peer's bitfield nothing is offered.
  predicate Wanted(downloaded: seq<bool>, requested: seq<bool>, peer: seq<bool>, i: nat) {
    GetBit(downloaded, i) == Some(false) && GetBit(requested, i) == Some(false) && GetBit(peer, i) == Some(true)
  }

  // Rarer first, and among equally rare pieces the one with the smaller index.
  predicate Before(a: Candidate, b: Candidate) {
    a.count < b.count || (a.count == b.count && a.index < b.index)
  }

  predicate Ordered(s: seq<Candidate>) {
    forall j, k :: 0 <= j < k < |s| ==> Before(s[j], s[k])
  }

  function CandidatesBelow(availability: seq<nat>, downloaded: seq<bool>, requested: seq<bool>, peer: seq<bool>,
                           n: nat): seq<Candidate>
    requires n <= |availability|
  {
    if n == 0 then []
    else
      CandidatesBelow(availability, downloaded, requested, peer, n - 1)
      + (if Wanted(downloaded, requested, peer, n - 1) then [Candidate(n - 1, availability[n - 1])] else [])
  }

  function Candidates(availability: seq<nat>, downloaded: seq<bool>, requested: seq<bool>, peer: seq<bool>):
      seq<Candidate>
  {
    CandidatesBelow(availability, downloaded, requested, peer, |availability|)
  }

  // Rust's stable `sort_by_key` on the count, as an insertion sort.
  function StableSort(s: seq<Candidate>): (r: seq<Candidate>) {
    if s == [] then [] else Insert(StableSort(s[..|s| - 1]), s[|s| - 1])
  }

  // After the elements with the same key.
  function Insert(s: seq<Candidate>, x: Candidate): seq<Candidate> {
    if s == [] || s[|s| - 1].count <= x.count then s + [x]
    else Insert(s[..|s| - 1], x) + [s[|s| - 1]]
  }

  function Pick(availability: seq<nat>, downloaded: seq<bool>, requested: seq<bool>, peer: seq<bool>): Option<nat> {
    var sorted := StableSort(Candidates(availability, downloaded, requested, peer));
    if sorted == [] then None else Some(sorted[0].index)
  }

  // The picks of one peer's run of `pick_next_piece` and `mark_requested(_, true)`, until there is none.
  function Picks(availability: seq<nat>, downloaded: seq<bool>, requested: seq<bool>, peer: seq<bool>): seq<Candidate>
    decreases SumBy((b: bool) => if b then 0 else 1, requested)
  {
    match Pick(availability, downloaded, requested, peer)
    case None => []
    case Some(i) =>
      PickIsRarest(availability, downloaded, requested, peer);
      SumByUpdate((b: bool) => if b then 0 else 1, requested, i, true);
      [Candidate(i, availability[i])]
      + Picks(availability, downloaded, SetBit(requested, i, true), peer)
  }

  // --- the sort ---

  lemma OrderedAppend(s: seq<Candidate>, x: Candidate)
    requires Ordered(s) && forall y :: y in s ==> Before(y, x)
    ensures Ordered(s + [x])
  {
  }

  lemma {:induction false} InsertAdds(s: seq<Candidate>, x: Candidate)
    ensures multiset(Insert(s, x)) == multiset(s) + multiset{x}
  {
    if s != [] && s[|s| - 1].count > x.count {
      assert s == s[..|s| - 1] + [s[|s| - 1]];
      InsertAdds(s[..|s| - 1], x);
    }
  }

  lemma {:induction false} InsertKeepsOrder(s: seq<Candidate>, x: Candidate)
    requires Ordered(s) && forall y :: y in s ==> y.index < x.index
    ensures Ordered(Insert(s, x))
  {
    if s != [] && s[|s| - 1].count > x.count {
      var front, last := s[..|s| - 1], s[|s| - 1];
      InsertKeepsOrder(front, x);
      InsertAdds(front, x);
      forall y | y in Insert(front, x) ensures Before(y, last) {
        assert y in multiset(front) + multiset{x};
      }
      OrderedAppend(Insert(front, x), last);
    } else {
      forall y | y in s ensures Before(y, x) {
        assert s[|s| - 1] == y || Before(y, s[|s| - 1]);
      }
      OrderedAppend(s, x);
    }
  }

  // On candidates with ascending indices the stable sort orders by count and index, and loses nothing.
  lemma {:induction false} StableSortSorts(s: seq<Candidate>)
    requires forall j, k :: 0 <= j < k < |s| ==> s[j].index < s[k].index
    ensures Ordered(StableSort(s)) && multiset(StableSort(s)) == multiset(s)
  {
    if s != [] {
      var front, last := s[..|s| - 1], s[|s| - 1];
      assert s == front + [last];
      StableSortSorts(front);
      forall y | y in StableSort(front) ensures y.index < last.index {
        assert y in multiset(StableSort(front));
        assert y in front;
      }
      InsertKeepsOrder(StableSort(front), last);
      InsertAdds(StableSort(front), last);
    }
  }

  // The order is total, so the elements determine the sorted sequence.
  lemma {:induction false} OrderIsUnique(s: seq<Candidate>, t: seq<Candidate>)
    requires Ordered(s) && Ordered(t) && forall x :: x in s <==> x in t
    ensures s == t
  {
    assert (s != [] ==> s[0] in t) && (t != [] ==> t[0] in s);
    if s != [] && t != [] {
      assert s[0] == t[0];
      forall x ensures x in s[1..] <==> x in t[1..] {
        assert s == [s[0]] + s[1..] && t == [t[0]] + t[1..];
        if x in s[1..] {
          var j :| 0 < j < |s| && s[j] == x;
          assert Before(s[0], x);
          assert x in t;
        }
        if x in t[1..] {
          var j :| 0 < j < |t| && t[j] == x;
          assert Before(t[0], x);
          assert x in s;
        }
      }
      OrderIsUnique(s[1..], t[1..]);
    }
  }

  // --- the candidates ---

  lemma {:induction false} CandidatesAre(availability: seq<nat>, downloaded: seq<bool>, requested: seq<bool>,
                                         peer: seq<bool>, n: nat)
    requires n <= |availability|
    ensures var s := CandidatesBelow(availability, downloaded, requested, peer, n);
            && (forall j, k :: 0 <= j < k < |s| ==> s[j].index < s[k].index)
            && (forall x :: x in s <==>
                  x.index < n && Wanted(downloaded, requested, peer, x.index) && x.count == availability[x.index])
  {
    if n > 0 {
      CandidatesAre(availability, downloaded, requested, peer, n - 1);
      var s := CandidatesBelow(availability, downloaded, requested, peer, n - 1);
      assert forall j :: 0 <= j < |s| ==> s[j] in s;
    }
  }

  // One pick is the rarest wanted piece, the first of several; None means that nothing is wanted.
  lemma PickIsRarest(availability: seq<nat>, downloaded: seq<bool>, requested: seq<bool>, peer: seq<bool>)
    ensures match Pick(availability, downloaded, requested, peer)
            case None => forall i :: 0 <= i < |availability| ==> !Wanted(downloaded, requested, peer, i)
            case Some(i) =>
              && i < |availability| && Wanted(downloaded, requested, peer, i)
              && forall j :: 0 <= j < |availability| && j != i && Wanted(downloaded, requested, peer, j) ==>
                   Before(Candidate(i, availability[i]), Candidate(j, availability[j]))
  {
    hide Wanted;
    var s := Candidates(availability, downloaded, requested, peer);
    var sorted := StableSort(s);
    CandidatesAre(availability, downloaded, requested, peer, |availability|);
    StableSortSorts(s);
    hide StableSort, CandidatesBelow;
    forall j | 0 <= j < |availability| && Wanted(downloaded, requested, peer, j)
      ensures sorted != [] && (j == sorted[0].index || Before(sorted[0], Candidate(j, availability[j])))
    {
      assert Candidate(j, availability[j]) in s;
      assert Candidate(j, availability[j]) in multiset(sorted);
      var k :| 0 <= k < |sorted| && sorted[k] == Candidate(j, availability[j]);
    }
    if sorted != [] {
      assert sorted[0] in multiset(sorted);
      assert sorted[0] in s;
    }
  }

  // --- runs ---

  lemma {:induction false} PicksAre(availability: seq<nat>, downloaded: seq<bool>, requested: seq<bool>,
                                    peer: seq<bool>)
    ensures var s := Picks(availability, downloaded, requested, peer);
            && Ordered(s)
            && forall x :: x in s <==> x in Candidates(availability, downloaded, requested, peer)
    decreases SumBy((b: bool) => if b then 0 else 1, requested)
  {
    hide Wanted, Pick, CandidatesBelow;
    PickIsRarest(availability, downloaded, requested, peer);
    CandidatesAre(availability, downloaded, requested, peer, |availability|);
    var pick := Pick(availability, downloaded, requested, peer);
    if pick.Some? {
      var i := pick.value;
      var requested' := SetBit(requested, i, true);
      WantedAfter(downloaded, requested, peer, i);
      SumByUpdate((b: bool) => if b then 0 else 1, requested, i, true);
      PicksAre(availability, downloaded, requested', peer);
      CandidatesAre(availability, downloaded, requested', peer, |availability|);
      var rest := Picks(availability, downloaded, requested', peer);
      OrderedPrepend(Candidate(i, availability[i]), rest);
    }
  }

  lemma OrderedPrepend(x: Candidate, s: seq<Candidate>)
    requires Ordered(s) && forall y :: y in s ==> Before(x, y)
    ensures Ordered([x] + s)
  {
  }

  // The same without names for it: a piece that is not downloaded, not requested and offered by the peer, with the
  // least count, and among those with the least index.
  lemma PickIs(availability: seq<nat>, downloaded: seq<bool>, requested: seq<bool>, peer: seq<bool>)
    requires |downloaded| == |requested| == |availability|
    ensures match Pick(availability, downloaded, requested, peer)
            case None =>
              forall j :: 0 <= j < |availability| && j < |peer| ==> downloaded[j] || requested[j] || !peer[j]
            case Some(i) =>
              && i < |availability| && i < |peer| && !downloaded[i] && !requested[i] && peer[i]
              && forall j ::
                   0 <= j < |availability| && j < |peer| && !downloaded[j] && !requested[j] && peer[j] && j != i ==>
                     availability[i] < availability[j] || (availability[i] == availability[j] && i < j)
  {
    hide Pick;
    PickIsRarest(availability, downloaded, requested, peer);
    forall j | 0 <= j < |availability| && j < |peer| && !downloaded[j] && !requested[j] && peer[j]
      ensures Wanted(downloaded, requested, peer, j)
    {
    }
  }

  // Marking a wanted piece as requested takes just that piece away from the wanted ones.
  lemma WantedAfter(downloaded: seq<bool>, requested: seq<bool>, peer: seq<bool>, i: nat)
    requires Wanted(downloaded, requested, peer, i)
    ensures i < |requested| && !requested[i]
    ensures forall j: nat :: Wanted(downloaded, SetBit(requested, i, true), peer, j)
                             <==> j != i && Wanted(downloaded, requested, peer, j)
  {
  }

  // A run of picks with fixed availability yields the stable sort of the candidates: each wanted piece once,
  // rarest first.
  lemma RunIsTheStableSort(availability: seq<nat>, downloaded: seq<bool>, requested: seq<bool>, peer: seq<bool>)
    ensures Picks(availability, downloaded, requested, peer)
            == StableSort(Candidates(availability, downloaded, requested, peer))
  {
    var s := Candidates(availability, downloaded, requested, peer);
    CandidatesAre(availability, downloaded, requested, peer, |availability|);
    StableSortSorts(s);
    PicksAre(availability, downloaded, requested, peer);
    forall x ensures x in StableSort(s) <==> x in s {
      assert x in multiset(StableSort(s)) <==> x in multiset(s);
    }
    OrderIsUnique(Picks(availability, downloaded, requested, peer), StableSort(s));
  }

  // A run picks exactly the wanted pieces, none twice, and ends after as many picks as there are candidates.
  lemma RunPicksEachOnce(availability: seq<nat>, downloaded: seq<bool>, requested: seq<bool>, peer: seq<bool>)
    ensures var s := Picks(availability, downloaded, requested, peer);
            && |s| == |Candidates(availability, downloaded, requested, peer)|
            && (forall j, k :: 0 <= j < k < |s| ==> s[j].index != s[k].index)
            && (forall i: nat :: Picked(s, i) <==> i < |availability| && Wanted(downloaded, requested, peer, i))
  {
    hide Wanted, Picks;
    var s := Picks(availability, downloaded, requested, peer);
    var c := Candidates(availability, downloaded, requested, peer);
    RunIsTheStableSort(availability, downloaded, requested, peer);
    CandidatesAre(availability, downloaded, requested, peer, |availability|);
    StableSortSorts(c);
    assert |multiset(s)| == |multiset(c)|;
    PicksAre(availability, downloaded, requested, peer);
    OrderedIsDistinct(s, availability);
    forall i: nat ensures Picked(s, i) <==> i < |availability| && Wanted(downloaded, requested, peer, i) {
      if i < |availability| && Wanted(downloaded, requested, peer, i) {
        assert Candidate(i, availability[i]) in s;
      }
    }
  }

  predicate Picked(s: seq<Candidate>, i: nat) { exists x :: x in s && x.index == i }

  lemma OrderedIsDistinct(s: seq<Candidate>, availability: seq<nat>)
    requires Ordered(s) && forall x :: x in s ==> x.index < |availability| && x.count == availability[x.index]
    ensures forall j, k :: 0 <= j < k < |s| ==> s[j].index != s[k].index
  {
    forall j, k | 0 <= j < k < |s| ensures s[j].index != s[k].index {
      assert s[j] in s && s[k] in s && Before(s[j], s[k]);
    }
  }

  // --- the class ---

  class PiecePicker {
    const numPieces: nat
    const pieceAvailability: array<nat>
    const downloaded: Bitfield
    const requested: Bitfield

    predicate Valid()
      reads this, pieceAvailability, downloaded, requested
    {
      && pieceAvailability.Length == numPieces
      && downloaded != requested
      && |downloaded.bits| == numPieces
      && |requested.bits| == numPieces
    }

    constructor (numPieces: nat)
      ensures Valid() && this.numPieces == numPieces
      ensures fresh(pieceAvailability) && fresh(downloaded) && fresh(requested)
      ensures pieceAvailability[..] == seq(numPieces, _ => 0)
      ensures downloaded.bits == requested.bits == seq(numPieces, _ => false)
    {
      this.numPieces := numPieces;
      pieceAvailability := new nat[numPieces](_ => 0);
      downloaded := new Bitfield(numPieces);
      requested := new Bitfield(numPieces);
    }

    method PeerHasPiece(index: nat)
      requires Valid()
      modifies pieceAvailability
      ensures Valid()
      ensures var was := old(pieceAvailability[..]);
              pieceAvailability[..] == if index < numPieces then was[index := was[index] + 1] else was
    {
      if index < numPieces {
        pieceAvailability[index] := pieceAvailability[index] + 1;
      }
    }

    method PeerLostPiece(index: nat)
      requires Valid()
      modifies pieceAvailability
      ensures Valid()
      ensures var was := old(pieceAvailability[..]);
              pieceAvailability[..] == if index < numPieces then was[index := SaturatingSub(was[index], 1)] else was
    {
      if index < numPieces && pieceAvailability[index] > 0 {
        pieceAvailability[index] := pieceAvailability[index] - 1;
      }
    }

    method MarkDownloaded(index: nat)
      requires Valid()
      modifies downloaded
      ensures Valid() && downloaded.bits == SetBit(old(downloaded.bits), index, true)
    {
      downloaded.Set(index, true);
    }

    method MarkRequested(index: nat, isRequested: bool)
      requires Valid()
      modifies requested
      ensures Valid() && requested.bits == SetBit(old(requested.bits), index, isRequested)
    {
      requested.Set(index, isRequested);
    }

    method PickNextPiece(peer: Bitfield) returns (r: Option<nat>)
      requires Valid()
      ensures r == Pick(pieceAvailability[..], downloaded.bits, requested.bits, peer.bits)
    {
      hide Pick, StableSort;
      var candidates: seq<Candidate> := [];
      for i := 0 to numPieces
        invariant candidates
                  == CandidatesBelow(pieceAvailability[..], downloaded.bits, requested.bits, peer.bits, i)
      {
        if downloaded.Get(i) == Some(false) && requested.Get(i) == Some(false) && peer.Get(i) == Some(true) {
          candidates := candidates + [Candidate(i, pieceAvailability[i])];
        }
        assert candidates + [] == candidates;
      }
      PickUnfolds(pieceAvailability[..], downloaded.bits, requested.bits, peer.bits);
      candidates := StableSort(candidates);
      r := if candidates == [] then None else Some(candidates[0].index);
    }
  }

  lemma PickUnfolds(availability: seq<nat>, downloaded: seq<bool>, requested: seq<bool>, peer: seq<bool>)
    ensures var sorted := StableSort(CandidatesBelow(availability, downloaded, requested, peer, |availability|));
            Pick(availability, downloaded, requested, peer)
            == if sorted == [] then None else Some(sorted[0].index)
  {
  }
}
