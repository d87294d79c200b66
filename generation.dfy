/** Move generation over a whole side: each piece's `calculateLegalMoves`
    dispatched on its kind, and `Board.calculateLegalMoves`, which concatenates the
    moves of a list of pieces in list order. */
module Generation {
  import opened Wrappers
  import opened Pieces
  import opened BoardUtils
  import opened Tiles
  import opened Moves
  import opened Boards
  import Knights
  import Sliding
  import Kings
  import Pawns

  /** The moves of one piece. A queen moves as a rook and as a bishop. */
  function PieceMoves(b: Board, p: Piece): seq<Move>
    requires |b.tiles| == NumTiles && IsValidTileCoordinate(p.position)
  {
    match p.kind
    case Pawn => Pawns.PawnMoves(b, p)
    case Knight => Knights.KnightMoves(b, p)
    case Bishop => Sliding.SliderMoves(Sliding.Diagonal, b, p)
    case Rook => Sliding.SliderMoves(Sliding.Orthogonal, b, p)
    case Queen => Sliding.SliderMoves(Sliding.Orthogonal, b, p) + Sliding.SliderMoves(Sliding.Diagonal, b, p)
    case King => Kings.KingMoves(b, p)
  }

  /** `piece.calculateLegalMoves(board)`, dispatched on the piece's class. */
  method PieceCalculateLegalMoves(b: Board, p: Piece) returns (moves: seq<Move>)
    requires |b.tiles| == NumTiles && IsValidTileCoordinate(p.position)
    ensures moves == PieceMoves(b, p)
  {
    match p.kind {
      case Pawn => moves := Pawns.CalculateLegalMoves(b, p);
      case Knight => moves := Knights.CalculateLegalMoves(b, p);
      case Bishop => moves := Sliding.CalculateLegalMoves(Sliding.Diagonal, b, p);
      case Rook => moves := Sliding.CalculateLegalMoves(Sliding.Orthogonal, b, p);
      case Queen =>
        var straight := Sliding.CalculateLegalMoves(Sliding.Orthogonal, b, p);
        var diagonal := Sliding.CalculateLegalMoves(Sliding.Diagonal, b, p);
        moves := straight + diagonal;
      case King => moves := Kings.CalculateLegalMoves(b, p);
    }
  }

  ghost predicate OnBoard(ps: seq<Piece>) {
    forall p :: p in ps ==> IsValidTileCoordinate(p.position)
  }

  /** The moves of every piece of `ps`, in list order. */
  function StandardMoves(b: Board, ps: seq<Piece>): seq<Move>
    requires |b.tiles| == NumTiles && OnBoard(ps)
  {
    if ps == [] then []
    else StandardMoves(b, ps[..|ps| - 1]) + PieceMoves(b, ps[|ps| - 1])
  }

  /** `Board.calculateLegalMoves`. */
  method CalculateLegalMoves(b: Board, ps: seq<Piece>) returns (legalMoves: seq<Move>)
    requires |b.tiles| == NumTiles && OnBoard(ps)
    ensures legalMoves == StandardMoves(b, ps)
  {
    legalMoves := [];
    for i := 0 to |ps|
      invariant legalMoves == StandardMoves(b, ps[..i])
    {
      assert ps[..i + 1][..i] == ps[..i];
      var moves := PieceCalculateLegalMoves(b, ps[i]);
      legalMoves := legalMoves + moves;
    }
    assert ps[..|ps|] == ps;
  }

  /** A generated move: a move of an ordinary kind made by `p` from its own square to
      another square, never onto a piece of its own side. */
  ghost predicate StandardMoveOk(b: Board, p: Piece, m: Move)
    requires |b.tiles| == NumTiles
  {
    (m.MajourMove? || m.AttackMove? || m.MajourAttackMove?) &&
    m.movedPiece == p && IsValidTileCoordinate(m.destination) && m.destination != p.position &&
    (IsOccupied(b, m.destination) ==> PieceAt(b, m.destination).value.alliance != p.alliance) &&
    (m.MajourMove? || (PieceAt(b, m.destination) == Some(m.attackedPiece)))
  }

  lemma PieceMovesOk(b: Board, p: Piece)
    requires |b.tiles| == NumTiles && IsValidTileCoordinate(p.position)
    ensures forall m :: m in PieceMoves(b, p) ==> StandardMoveOk(b, p, m)
  {
    match p.kind {
      case Pawn =>
        if p.alliance == White && SecondRank(p.position) {
          Pawns.SecondRankWhitePawnNeverCaptures(b, p, |Pawns.CandidateMoveCoordinates|);
        } else {
          Pawns.PawnMovesSound(b, p, |Pawns.CandidateMoveCoordinates|);
        }
      case Knight => Knights.KnightMovesSound(b, p, |Knights.CandidateMoveCoordinates|);
      case Bishop => Sliding.SliderMovesSound(Sliding.Diagonal, b, p, 4);
      case Rook => Sliding.SliderMovesSound(Sliding.Orthogonal, b, p, 4);
      case Queen =>
        Sliding.SliderMovesSound(Sliding.Orthogonal, b, p, 4);
        Sliding.SliderMovesSound(Sliding.Diagonal, b, p, 4);
      case King => Kings.KingMovesSound(b, p, |Kings.CandidateMoveCoordinates|);
    }
  }

  /** Every move of a side's list is made by one of its pieces from that piece's square,
      and none lands on a piece of the mover's own side. */
  lemma {:induction false} StandardMovesOk(b: Board, ps: seq<Piece>)
    requires |b.tiles| == NumTiles && OnBoard(ps)
    ensures forall m :: m in StandardMoves(b, ps) ==>
      exists p :: p in ps && StandardMoveOk(b, p, m)
  {
    if ps != [] {
      var init := ps[..|ps| - 1];
      var last := ps[|ps| - 1];
      StandardMovesOk(b, init);
      PieceMovesOk(b, last);
      forall m | m in StandardMoves(b, ps)
        ensures exists p :: p in ps && StandardMoveOk(b, p, m)
      {
        if m in StandardMoves(b, init) {
          var p :| p in init && StandardMoveOk(b, p, m);
          assert p in ps;
        } else {
          assert last in ps && StandardMoveOk(b, last, m);
        }
      }
    }
  }

  /** The moves of a list depend only on its members in order: appending a piece appends
      exactly that piece's moves. */
  lemma StandardMovesAppend(b: Board, ps: seq<Piece>, p: Piece)
    requires |b.tiles| == NumTiles && OnBoard(ps) && IsValidTileCoordinate(p.position)
    ensures OnBoard(ps + [p])
    ensures StandardMoves(b, ps + [p]) == StandardMoves(b, ps) + PieceMoves(b, p)
  {
    assert (ps + [p])[..|ps|] == ps;
  }
}
