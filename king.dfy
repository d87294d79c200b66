/** King move generation: one square in each of the eight directions, with
    column exclusions that stop steps from wrapping across the a/h files. */
module Kings {
  import opened Wrappers
  import opened Pieces
  import opened BoardUtils
  import opened Tiles
  import opened Moves
  import opened Boards

  const CandidateMoveCoordinates: seq<int> := [-9, -8, -7, -1, 1, 7, 8, 9]

  predicate IsFirstColumnExclusion(position: int, offset: int)
    requires IsValidTileCoordinate(position)
  {
    FirstColumn(position) && (offset == -9 || offset == -1 || offset == 7)
  }

  predicate IsEighthColumnExclusion(position: int, offset: int)
    requires IsValidTileCoordinate(position)
  {
    EighthColumn(position) && (offset == -7 || offset == 1 || offset == 9)
  }

  /** The moves one offset contributes: none, a quiet move or a capture. The exclusion
      is tested before the destination is checked against the board. */
  function KingStep(b: Board, king: Piece, offset: int): (ms: seq<Move>)
    requires |b.tiles| == NumTiles && IsValidTileCoordinate(king.position)
    ensures |ms| <= 1
  {
    var dest := king.position + offset;
    if IsFirstColumnExclusion(king.position, offset) || IsEighthColumnExclusion(king.position, offset) then []
    else if !IsValidTileCoordinate(dest) then []
    else if !IsOccupied(b, dest) then [MajourMove(king, dest)]
    else
      var occupant := PieceAt(b, dest).value;
      if king.alliance != occupant.alliance then [AttackMove(king, dest, occupant)] else []
  }

  function KingMovesUpTo(b: Board, king: Piece, n: nat): seq<Move>
    requires |b.tiles| == NumTiles && IsValidTileCoordinate(king.position)
    requires n <= |CandidateMoveCoordinates|
  {
    if n == 0 then []
    else KingMovesUpTo(b, king, n - 1) + KingStep(b, king, CandidateMoveCoordinates[n - 1])
  }

  function KingMoves(b: Board, king: Piece): seq<Move>
    requires |b.tiles| == NumTiles && IsValidTileCoordinate(king.position)
  {
    KingMovesUpTo(b, king, |CandidateMoveCoordinates|)
  }

  /** `King.calculateLegalMoves`. */
  method CalculateLegalMoves(b: Board, king: Piece) returns (legalMoves: seq<Move>)
    requires |b.tiles| == NumTiles && IsValidTileCoordinate(king.position)
    ensures legalMoves == KingMoves(b, king)
  {
    legalMoves := [];
    for i := 0 to |CandidateMoveCoordinates|
      invariant legalMoves == KingMovesUpTo(b, king, i)
    {
      var offset := CandidateMoveCoordinates[i];
      var dest := king.position + offset;
      if IsFirstColumnExclusion(king.position, offset) || IsEighthColumnExclusion(king.position, offset) {
        continue;
      }
      if IsValidTileCoordinate(dest) {
        var tile := b.tiles[dest];
        if !tile.IsTileOccupied() {
          legalMoves := legalMoves + [MajourMove(king, dest)];
        } else {
          var occupant := tile.GetPiece().value;
          if king.alliance != occupant.alliance {
            legalMoves := legalMoves + [AttackMove(king, dest, occupant)];
          }
        }
      }
    }
  }

  /** A generated king move: the king itself steps to an adjacent square (no wrapping)
      that is empty (quiet move) or holds an enemy piece (capture of that piece). */
  ghost predicate KingMoveOk(b: Board, king: Piece, m: Move)
    requires |b.tiles| == NumTiles && IsValidTileCoordinate(king.position)
  {
    (m.MajourMove? || m.AttackMove?) && m.movedPiece == king &&
    IsValidTileCoordinate(m.destination) && m.destination != king.position &&
    -1 <= Row(m.destination) - Row(king.position) <= 1 &&
    -1 <= Column(m.destination) - Column(king.position) <= 1 &&
    (m.MajourMove? <==> !IsOccupied(b, m.destination)) &&
    (m.AttackMove? ==> PieceAt(b, m.destination) == Some(m.attackedPiece) &&
                       m.attackedPiece.alliance != king.alliance)
  }

  lemma StepIsKingMove(b: Board, king: Piece, offset: int)
    requires |b.tiles| == NumTiles && IsValidTileCoordinate(king.position)
    requires offset in CandidateMoveCoordinates
    ensures forall m :: m in KingStep(b, king, offset) ==> KingMoveOk(b, king, m)
  {
    var pos := king.position;
    var dest := pos + offset;
    if !(IsFirstColumnExclusion(pos, offset) || IsEighthColumnExclusion(pos, offset)) && IsValidTileCoordinate(dest) {
      var dr := if offset < -1 then -1 else if offset > 1 then 1 else 0;
      var dc := offset - 8 * dr;
      Shift(pos, dr, dc);
    }
  }

  /** Every generated move is a one-square king move onto an empty or enemy square. */
  lemma {:induction false} KingMovesSound(b: Board, king: Piece, n: nat)
    requires |b.tiles| == NumTiles && IsValidTileCoordinate(king.position)
    requires n <= |CandidateMoveCoordinates|
    ensures forall m :: m in KingMovesUpTo(b, king, n) ==> KingMoveOk(b, king, m)
    ensures |KingMovesUpTo(b, king, n)| <= n
  {
    if n > 0 {
      KingMovesSound(b, king, n - 1);
      StepIsKingMove(b, king, CandidateMoveCoordinates[n - 1]);
    }
  }
}
