/** Sides and moves as the player sees them (board::piece_type, action::place). */
module Pieces {

  /** The piece values the player uses; `Empty` is also the "no side yet" value of `who`. */
  datatype Piece = Black | White | Empty

  predicate IsSide(p: Piece) {
    p == Black || p == White
  }

  /** A move: a placement of `who` on cell `cell`, or the null action (a pass). */
  datatype Move = Place(cell: nat, who: Piece) | Pass

  /** player::who_change: swaps black and white, leaves every other value alone. */
  function WhoChange(p: Piece): (r: Piece)
    ensures p == Black ==> r == White
    ensures p == White ==> r == Black
    ensures !IsSide(p) ==> r == p
    ensures IsSide(p) <==> IsSide(r)
  {
    if p == Black then White
    else if p == White then Black
    else p
  }

  lemma WhoChangeInvolution(p: Piece)
    ensures WhoChange(WhoChange(p)) == p
  {
  }

  /** The side to move after `k` successful placements, starting from `p`. */
  function Flip(p: Piece, k: nat): (r: Piece)
    ensures IsSide(r) <==> IsSide(p)
  {
    if k == 0 then p else WhoChange(Flip(p, k - 1))
  }

  /** Only the parity of the number of placements matters. */
  lemma {:induction false} FlipParity(p: Piece, k: nat)
    ensures Flip(p, k) == if k % 2 == 0 then p else WhoChange(p)
  {
    if k > 0 {
      FlipParity(p, k - 1);
    }
  }

  /** After an odd number of placements a side is the opponent of where it started, so it
      differs from the start exactly when the count is odd. */
  lemma FlipDiffers(p: Piece, k: nat)
    requires IsSide(p)
    ensures Flip(p, k) != p <==> k % 2 == 1
    ensures IsSide(Flip(p, k))
  {
    FlipParity(p, k);
  }

  /** Starting one placement later is starting from the other side. */
  lemma {:induction false} FlipShift(p: Piece, k: nat)
    ensures Flip(WhoChange(p), k) == Flip(p, k + 1)
  {
    if k > 0 {
      FlipShift(p, k - 1);
    }
  }

  /** k placements after n placements are n + k placements. */
  lemma {:induction false} FlipAdd(p: Piece, n: nat, k: nat)
    ensures Flip(Flip(p, n), k) == Flip(p, n + k)
  {
    if k > 0 {
      FlipAdd(p, n, k - 1);
    }
  }

  /** The side to move k placements after the other side of `Flip(p, n)` moved. */
  lemma {:induction false} FlipAfter(p: Piece, n: nat, k: nat)
    ensures Flip(WhoChange(Flip(p, n)), k) == Flip(p, n + 1 + k)
  {
    FlipShift(Flip(p, n), k);
    FlipAdd(p, n, k + 1);
  }
}
