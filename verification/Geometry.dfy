// How a torrent's bytes are cut into pieces and blocks: the size arithmetic of crates/daemon/src/engine.rs.
module Geometry {
  import opened Prelude

  const BLOCK: nat := 16384

  // Piece length, total size and one hash per piece.
  datatype Geometry = Geometry(pieceLength: nat, total: nat, hashes: seq<Digest>)

  // The metainfo the engine is written for.
  predicate WellFormed(g: Geometry) {
    && 0 < g.pieceLength < U32
    && |g.hashes| == CeilDiv(g.total, g.pieceLength)
    && |g.hashes| < U32
  }

  function PieceStart(g: Geometry, i: nat): nat { i * g.pieceLength }

  // Every piece has the piece length, except that the last one ends with the torrent.
  function PieceSize(g: Geometry, i: nat): nat
    requires WellFormed(g) && i < |g.hashes|
  {
    PieceBounds(g, i);
    Min(g.pieceLength, g.total - PieceStart(g, i))
  }

  function PieceAt(g: Geometry, flat: bytes, i: nat): (r: bytes)
    requires WellFormed(g) && i < |g.hashes| && |flat| == g.total
    ensures |r| == PieceSize(g, i)
  {
    PieceBounds(g, i);
    flat[PieceStart(g, i)..PieceStart(g, i) + PieceSize(g, i)]
  }

  lemma PieceBounds(g: Geometry, i: nat)
    requires WellFormed(g) && i < |g.hashes|
    ensures PieceStart(g, i) < g.total
    ensures i < |g.hashes| - 1 ==> PieceStart(g, i) + g.pieceLength <= g.total
    ensures i == |g.hashes| - 1 ==> g.total - PieceStart(g, i) <= g.pieceLength
  {
    hide CeilDiv;
    var n, p := |g.hashes|, g.pieceLength;
    CeilDivBounds(g.total, p);
    MulLess(i, n, p);
    if i < n - 1 {
      MulLess(i, i + 1, p);
      MulLess(i + 1, n, p);
    } else {
      MulNext(i, p);
    }
  }

  lemma PiecesDisjoint(g: Geometry, i: nat, j: nat)
    requires i < j
    ensures PieceStart(g, i) + g.pieceLength <= PieceStart(g, j)
  {
    MulLess(i, j, g.pieceLength);
  }

  // --- the arithmetic of `peer_loop`, casts included ---

  function PieceLength32(g: Geometry): nat { g.pieceLength % U32 }

  // The closure `get_request_length`; the u32 subtraction needs blockOffset <= piece_length.
  function GetRequestLength(g: Geometry, piece: nat, blockOffset: nat): nat
    requires blockOffset <= PieceLength32(g)
  {
    var pieceStart := piece * PieceLength32(g);
    var remainingInTorrent := SaturatingSub(g.total, pieceStart + blockOffset);
    var remainingInPiece := PieceLength32(g) - blockOffset;
    Min(Min(BLOCK, remainingInTorrent), remainingInPiece) % U32
  }

  // `piece_target_size`
  function TargetSize(g: Geometry, piece: nat): nat {
    if piece == |g.hashes| % U32 - 1
    then SaturatingSub(g.total, piece * PieceLength32(g)) % U32
    else PieceLength32(g)
  }

  // The program's target is the size of the piece, for the last piece too, and no cast loses anything.
  lemma TargetIsPieceSize(g: Geometry, i: nat)
    requires WellFormed(g) && i < |g.hashes|
    ensures TargetSize(g, i) == PieceSize(g, i)
    ensures 0 < PieceSize(g, i) <= PieceLength32(g) == g.pieceLength
  {
    PieceBounds(g, i);
  }

  // The program asks for what is left of the piece, one block at most; so for nothing exactly at its end.
  lemma RequestLengthIsRest(g: Geometry, i: nat, off: nat)
    requires WellFormed(g) && i < |g.hashes| && off <= PieceSize(g, i)
    ensures GetRequestLength(g, i, off) == Min(BLOCK, PieceSize(g, i) - off)
    ensures GetRequestLength(g, i, off) == 0 <==> off >= TargetSize(g, i)
  {
    hide CeilDiv, TargetSize;
    PieceBounds(g, i);
    TargetIsPieceSize(g, i);
  }

  // The requests sent for piece `i` from `off` on when every reply has the requested length.
  function Requests(g: Geometry, i: nat, off: nat): seq<(nat, nat)>
    requires WellFormed(g) && i < |g.hashes| && off <= PieceSize(g, i)
    decreases PieceSize(g, i) - off
  {
    TargetIsPieceSize(g, i);
    RequestLengthIsRest(g, i, off);
    var len := GetRequestLength(g, i, off);
    if len == 0 then [] else [(off, len)] + Requests(g, i, off + len)
  }

  lemma {:induction false} RequestsFrom(g: Geometry, i: nat, off: nat)
    requires WellFormed(g) && i < |g.hashes| && off <= PieceSize(g, i)
    ensures var r := Requests(g, i, off);
            && |r| == CeilDiv(PieceSize(g, i) - off, BLOCK)
            && forall k :: 0 <= k < |r| ==>
                 && r[k].0 == off + BLOCK * k < PieceSize(g, i)
                 && r[k].1 == Min(BLOCK, PieceSize(g, i) - r[k].0)
    decreases PieceSize(g, i) - off
  {
    hide GetRequestLength, TargetSize, PieceSize, WellFormed, CeilDiv;
    TargetIsPieceSize(g, i);
    RequestLengthIsRest(g, i, off);
    var len := GetRequestLength(g, i, off);
    BlocksLeft(PieceSize(g, i) - off);
    if len > 0 {
      RequestsFrom(g, i, off + len);
      var r, rest := Requests(g, i, off), Requests(g, i, off + len);
      assert r == [(off, len)] + rest;
      BlocksLeft(PieceSize(g, i) - off - len);
    }
  }

  lemma BlocksLeft(rest: nat)
    ensures CeilDiv(rest, BLOCK) == if rest == 0 then 0 else 1 + CeilDiv(rest - Min(BLOCK, rest), BLOCK)
  {
  }

  predicate Covers(request: (nat, nat), offset: nat) {
    request.0 <= offset < request.0 + request.1
  }

  // The requests of a piece tile it: there are ceil(size/16384) of them, each asks for 1 to 16384 bytes,
  // and every offset of the piece lies in exactly one.
  lemma RequestsTilePiece(g: Geometry, i: nat)
    requires WellFormed(g) && i < |g.hashes|
    ensures var r := Requests(g, i, 0);
            && |r| == CeilDiv(PieceSize(g, i), BLOCK)
            && (forall k :: 0 <= k < |r| ==> 1 <= r[k].1 <= BLOCK && r[k].0 + r[k].1 <= PieceSize(g, i))
            && (forall o, k :: 0 <= o < PieceSize(g, i) && 0 <= k < |r| ==>
                  (Covers(r[k], o) <==> k == o / BLOCK))
            && (forall o :: 0 <= o < PieceSize(g, i) ==> o / BLOCK < |r| && Covers(r[o / BLOCK], o))
  {
    RequestsFrom(g, i, 0);
  }
}
