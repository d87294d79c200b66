/** Pawn move generation, with the branch structure of the source: a single push,
    a double push, and two diagonal captures. Every pawn move, capture or not, is
    created as a plain `MajourMove`.

    The double-push condition groups as `(offset 16 && first move && seventh rank &&
    black) || (second rank && white)`, so a white pawn on its second rank takes the
    double-push branch for offsets 16, 7 and 9 (and for 8 when the square ahead is
    occupied): it makes quiet moves onto empty squares, never captures, and from h2
    its offset 7 lands on a2. */
module Pawns {
  import opened Wrappers
  import opened Pieces
  import opened BoardUtils
  import opened Tiles
  import opened Moves
  import opened Boards

  const CandidateMoveCoordinates: seq<int> := [8, 16, 7, 9]

  /** The guard of the double-push branch, grouped as the source groups it. */
  predicate DoublePushBranch(pawn: Piece, offset: int)
    requires IsValidTileCoordinate(pawn.position)
  {
    (offset == 16 && pawn.isFirstMove && SeventhRank(pawn.position) && pawn.alliance == Black) ||
    (SecondRank(pawn.position) && pawn.alliance == White)
  }

  predicate LeftCaptureBranch(pawn: Piece, offset: int)
    requires IsValidTileCoordinate(pawn.position)
  {
    offset == 7 &&
    !((EighthColumn(pawn.position) && pawn.alliance == White) || (FirstColumn(pawn.position) && pawn.alliance == Black))
  }

  predicate RightCaptureBranch(pawn: Piece, offset: int)
    requires IsValidTileCoordinate(pawn.position)
  {
    offset == 9 &&
    !((FirstColumn(pawn.position) && pawn.alliance == White) || (EighthColumn(pawn.position) && pawn.alliance == Black))
  }

  /** An occupied square holding a piece of the other alliance. */
  predicate HoldsEnemy(b: Board, c: int, a: Alliance)
    requires |b.tiles| == NumTiles && IsValidTileCoordinate(c)
  {
    IsOccupied(b, c) && PieceAt(b, c).value.alliance != a
  }

  function PawnStep(b: Board, pawn: Piece, offset: int): (ms: seq<Move>)
    requires |b.tiles| == NumTiles && IsValidTileCoordinate(pawn.position)
    ensures |ms| <= 1
  {
    var dir := pawn.alliance.Direction();
    var dest := pawn.position + offset * dir;
    if !IsValidTileCoordinate(dest) then []
    else if offset == 8 && !IsOccupied(b, dest) then [MajourMove(pawn, dest)]
    else if DoublePushBranch(pawn, offset) then
      var behind := pawn.position + dir * 8;
      if !IsOccupied(b, behind) && !IsOccupied(b, dest) then [MajourMove(pawn, dest)] else []
    else if LeftCaptureBranch(pawn, offset) || RightCaptureBranch(pawn, offset) then
      if HoldsEnemy(b, dest, pawn.alliance) then [MajourMove(pawn, dest)] else []
    else []
  }

  function PawnMovesUpTo(b: Board, pawn: Piece, n: nat): seq<Move>
    requires |b.tiles| == NumTiles && IsValidTileCoordinate(pawn.position)
    requires n <= |CandidateMoveCoordinates|
  {
    if n == 0 then []
    else PawnMovesUpTo(b, pawn, n - 1) + PawnStep(b, pawn, CandidateMoveCoordinates[n - 1])
  }

  function PawnMoves(b: Board, pawn: Piece): seq<Move>
    requires |b.tiles| == NumTiles && IsValidTileCoordinate(pawn.position)
  {
    PawnMovesUpTo(b, pawn, |CandidateMoveCoordinates|)
  }

  /** `Pawn.calculateLegalMoves`. */
  method CalculateLegalMoves(b: Board, pawn: Piece) returns (legalMoves: seq<Move>)
    requires |b.tiles| == NumTiles && IsValidTileCoordinate(pawn.position)
    ensures legalMoves == PawnMoves(b, pawn)
  {
    legalMoves := [];
    for i := 0 to |CandidateMoveCoordinates|
      invariant legalMoves == PawnMovesUpTo(b, pawn, i)
    {
      var offset := CandidateMoveCoordinates[i];
      var dest := pawn.position + offset * pawn.alliance.Direction();
      if !IsValidTileCoordinate(dest) {
        continue;
      }
      if offset == 8 && !b.tiles[dest].IsTileOccupied() {
        legalMoves := legalMoves + [MajourMove(pawn, dest)];
      } else if DoublePushBranch(pawn, offset) {
        var behind := pawn.position + pawn.alliance.Direction() * 8;
        if !b.tiles[behind].IsTileOccupied() && !b.tiles[dest].IsTileOccupied() {
          legalMoves := legalMoves + [MajourMove(pawn, dest)];
        }
      } else if LeftCaptureBranch(pawn, offset) || RightCaptureBranch(pawn, offset) {
        if b.tiles[dest].IsTileOccupied() {
          var occupant := b.tiles[dest].GetPiece().value;
          if pawn.alliance != occupant.alliance {
            legalMoves := legalMoves + [MajourMove(pawn, dest)];
          }
        }
      }
    }
  }

  /** What a pawn move should be: a push one row forward onto an empty square, a double
      push from the start rank over an empty square onto an empty square, or a diagonal
      step one row forward onto an enemy piece. */
  ghost predicate PawnMoveOk(b: Board, pawn: Piece, m: Move)
    requires |b.tiles| == NumTiles && IsValidTileCoordinate(pawn.position)
  {
    var dir := pawn.alliance.Direction();
    m.MajourMove? && m.movedPiece == pawn && IsValidTileCoordinate(m.destination) &&
    var dr := Row(m.destination) - Row(pawn.position);
    var dc := Column(m.destination) - Column(pawn.position);
    (dr == dir && dc == 0 && !IsOccupied(b, m.destination)) ||
    (dr == 2 * dir && dc == 0 && !IsOccupied(b, m.destination) &&
     !IsOccupied(b, pawn.position + 8 * dir) && pawn.isFirstMove) ||
    (dr == dir && (dc == 1 || dc == -1) && HoldsEnemy(b, m.destination, pawn.alliance))
  }

  lemma StepIsPawnMove(b: Board, pawn: Piece, offset: int)
    requires |b.tiles| == NumTiles && IsValidTileCoordinate(pawn.position)
    requires offset in CandidateMoveCoordinates
    requires !(pawn.alliance == White && SecondRank(pawn.position))
    ensures forall m :: m in PawnStep(b, pawn, offset) ==> PawnMoveOk(b, pawn, m)
  {
    var pos := pawn.position;
    var dir := pawn.alliance.Direction();
    var dest := pos + offset * dir;
    if IsValidTileCoordinate(dest) {
      if offset == 8 || offset == 16 {
        Shift(pos, offset / 8 * dir, 0);
      } else if LeftCaptureBranch(pawn, offset) || RightCaptureBranch(pawn, offset) {
        var dc := if offset == 7 then -dir else dir;
        Shift(pos, dir, dc);
      }
    }
  }

  /** Outside the white second rank, every generated pawn move is a forward push onto an
      empty square, a double push of a first-move pawn, or a diagonal capture of an enemy. */
  lemma {:induction false} PawnMovesSound(b: Board, pawn: Piece, n: nat)
    requires |b.tiles| == NumTiles && IsValidTileCoordinate(pawn.position)
    requires n <= |CandidateMoveCoordinates|
    requires !(pawn.alliance == White && SecondRank(pawn.position))
    ensures forall m :: m in PawnMovesUpTo(b, pawn, n) ==> PawnMoveOk(b, pawn, m)
    ensures |PawnMovesUpTo(b, pawn, n)| <= n
  {
    if n > 0 {
      PawnMovesSound(b, pawn, n - 1);
      StepIsPawnMove(b, pawn, CandidateMoveCoordinates[n - 1]);
    }
  }

  /** A white pawn on its second rank only ever moves onto empty squares: it cannot
      capture, and each of its moves needs the square straight ahead to be empty. */
  lemma {:induction false} SecondRankWhitePawnNeverCaptures(b: Board, pawn: Piece, n: nat)
    requires |b.tiles| == NumTiles && IsValidTileCoordinate(pawn.position)
    requires n <= |CandidateMoveCoordinates|
    requires pawn.alliance == White && SecondRank(pawn.position)
    ensures forall m :: m in PawnMovesUpTo(b, pawn, n) ==>
      m.MajourMove? && m.movedPiece == pawn && IsValidTileCoordinate(m.destination) &&
      m.destination < pawn.position &&
      !IsOccupied(b, m.destination) && !IsOccupied(b, pawn.position - 8)
  {
    if n > 0 {
      SecondRankWhitePawnNeverCaptures(b, pawn, n - 1);
    }
  }

  /** The white pawn on h2 can move sideways to a2 whenever h3 and a2 are empty. */
  lemma WhitePawnOnH2ReachesA2(b: Board, pawn: Piece)
    requires |b.tiles| == NumTiles
    requires pawn.kind == Pawn && pawn.alliance == White && pawn.position == 55
    requires !IsOccupied(b, 47) && !IsOccupied(b, 48)
    ensures MajourMove(pawn, 48) in PawnMoves(b, pawn)
    ensures Row(48) == Row(55)
  {
    assert White.Direction() == -1;
    assert DoublePushBranch(pawn, 7);
    assert PawnStep(b, pawn, 7) == [MajourMove(pawn, 48)];
    assert PawnMovesUpTo(b, pawn, 3) == PawnMovesUpTo(b, pawn, 2) + [MajourMove(pawn, 48)];
    assert PawnMoves(b, pawn) == PawnMovesUpTo(b, pawn, 3) + PawnStep(b, pawn, 9);
  }

  /** A black pawn whose first-move flag is clear never moves two rows. */
  lemma BlackPawnWithoutFlagNeverDoublePushes(b: Board, pawn: Piece, m: Move)
    requires |b.tiles| == NumTiles && IsValidTileCoordinate(pawn.position)
    requires pawn.alliance == Black && !pawn.isFirstMove
    requires m in PawnMoves(b, pawn)
    ensures m.MajourMove? && IsValidTileCoordinate(m.destination)
    ensures Row(m.destination) == Row(pawn.position) + 1
  {
    PawnMovesSound(b, pawn, |CandidateMoveCoordinates|);
  }
}
