/** Knight move generation: an offset table filtered by board bounds and by
    column-exclusion tables that stop jumps from wrapping across the a/h files. */
module Knights {
  import opened Wrappers
  import opened Pieces
  import opened BoardUtils
  import opened Tiles
  import opened Moves
  import opened Boards

  const CandidateMoveCoordinates: seq<int> := [-17, -15, -10, -6, 6, 10, 15, 17]

  predicate IsFirstColumnExclusion(position: int, offset: int)
    requires IsValidTileCoordinate(position)
  {
    FirstColumn(position) && (offset == -17 || offset == -10 || offset == 6 || offset == 15)
  }

  predicate IsSecondColumnExclusion(position: int, offset: int)
    requires IsValidTileCoordinate(position)
  {
    SecondColumn(position) && (offset == -10 || offset == 6)
  }

  predicate IsSeventhColumnExclusion(position: int, offset: int)
    requires IsValidTileCoordinate(position)
  {
    SeventhColumn(position) && (offset == -6 || offset == 10)
  }

  predicate IsEighthColumnExclusion(position: int, offset: int)
    requires IsValidTileCoordinate(position)
  {
    EighthColumn(position) && (offset == 17 || offset == 10 || offset == -6 || offset == -15)
  }

  predicate Excluded(position: int, offset: int)
    requires IsValidTileCoordinate(position)
  {
    IsFirstColumnExclusion(position, offset) || IsSecondColumnExclusion(position, offset) ||
    IsSeventhColumnExclusion(position, offset) || IsEighthColumnExclusion(position, offset)
  }

  /** The moves one offset contributes: none, a quiet move or a capture. */
  function KnightStep(b: Board, knight: Piece, offset: int): (ms: seq<Move>)
    requires |b.tiles| == NumTiles && IsValidTileCoordinate(knight.position)
    ensures |ms| <= 1
  {
    var dest := knight.position + offset;
    if !IsValidTileCoordinate(dest) || Excluded(knight.position, offset) then []
    else if !IsOccupied(b, dest) then [MajourMove(knight, dest)]
    else
      var occupant := PieceAt(b, dest).value;
      if knight.alliance != occupant.alliance then [MajourAttackMove(knight, dest, occupant)] else []
  }

  /** The moves of the first `n` offsets of the table, in table order. */
  function KnightMovesUpTo(b: Board, knight: Piece, n: nat): (ms: seq<Move>)
    requires |b.tiles| == NumTiles && IsValidTileCoordinate(knight.position)
    requires n <= |CandidateMoveCoordinates|
  {
    if n == 0 then []
    else KnightMovesUpTo(b, knight, n - 1) + KnightStep(b, knight, CandidateMoveCoordinates[n - 1])
  }

  function KnightMoves(b: Board, knight: Piece): seq<Move>
    requires |b.tiles| == NumTiles && IsValidTileCoordinate(knight.position)
  {
    KnightMovesUpTo(b, knight, |CandidateMoveCoordinates|)
  }

  /** `Knight.calculateLegalMoves`. */
  method CalculateLegalMoves(b: Board, knight: Piece) returns (legalMoves: seq<Move>)
    requires |b.tiles| == NumTiles && IsValidTileCoordinate(knight.position)
    ensures legalMoves == KnightMoves(b, knight)
  {
    legalMoves := [];
    for i := 0 to |CandidateMoveCoordinates|
      invariant legalMoves == KnightMovesUpTo(b, knight, i)
    {
      var offset := CandidateMoveCoordinates[i];
      var dest := knight.position + offset;
      if IsValidTileCoordinate(dest) {
        if Excluded(knight.position, offset) {
          continue;
        }
        var tile := b.tiles[dest];
        if !tile.IsTileOccupied() {
          legalMoves := legalMoves + [MajourMove(knight, dest)];
        } else {
          var occupant := tile.GetPiece().value;
          if knight.alliance != occupant.alliance {
            legalMoves := legalMoves + [MajourAttackMove(knight, dest, occupant)];
          }
        }
      }
    }
  }

  function Abs(x: int): int { if x < 0 then -x else x }

  /** An L-shaped jump: two rows and one file, or one row and two files. */
  ghost predicate IsKnightJump(from: int, to: int)
    requires IsValidTileCoordinate(from) && IsValidTileCoordinate(to)
  {
    var dr := Row(to) - Row(from);
    var dc := Column(to) - Column(from);
    (Abs(dr) == 1 && Abs(dc) == 2) || (Abs(dr) == 2 && Abs(dc) == 1)
  }

  /** What a generated knight move is: the knight itself jumps an L onto an empty square
      (a quiet move) or onto an enemy piece (a capture of that piece), never onto a friend. */
  ghost predicate KnightMoveOk(b: Board, knight: Piece, m: Move)
    requires |b.tiles| == NumTiles && IsValidTileCoordinate(knight.position)
  {
    (m.MajourMove? || m.MajourAttackMove?) && m.movedPiece == knight &&
    IsValidTileCoordinate(m.destination) && IsKnightJump(knight.position, m.destination) &&
    (m.MajourMove? <==> !IsOccupied(b, m.destination)) &&
    (m.MajourAttackMove? ==> PieceAt(b, m.destination) == Some(m.attackedPiece) &&
                             m.attackedPiece.alliance != knight.alliance)
  }

  lemma StepIsKnightMove(b: Board, knight: Piece, offset: int)
    requires |b.tiles| == NumTiles && IsValidTileCoordinate(knight.position)
    requires offset in CandidateMoveCoordinates
    ensures forall m :: m in KnightStep(b, knight, offset) ==> KnightMoveOk(b, knight, m)
  {
    var pos := knight.position;
    var dest := pos + offset;
    if IsValidTileCoordinate(dest) && !Excluded(pos, offset) {
      var dr := if offset < -10 then -2 else if offset < 0 then -1 else if offset < 11 then 1 else 2;
      var dc := offset - 8 * dr;
      assert dc in {-2, -1, 1, 2};
      Shift(pos, dr, dc);
    }
  }

  /** Every generated move is a legal knight jump onto an empty or enemy square, and at
      most one move comes from each of the eight offsets. */
  lemma {:induction false} KnightMovesSound(b: Board, knight: Piece, n: nat)
    requires |b.tiles| == NumTiles && IsValidTileCoordinate(knight.position)
    requires n <= |CandidateMoveCoordinates|
    ensures forall m :: m in KnightMovesUpTo(b, knight, n) ==> KnightMoveOk(b, knight, m)
    ensures |KnightMovesUpTo(b, knight, n)| <= n
  {
    if n > 0 {
      KnightMovesSound(b, knight, n - 1);
      StepIsKnightMove(b, knight, CandidateMoveCoordinates[n - 1]);
    }
  }
}
