/** What the players' castles do, and when they are offered. */
module PlayerProperties {
  import opened Wrappers
  import opened Pieces
  import opened BoardUtils
  import opened Moves
  import opened Boards
  import opened Execution
  import opened ExecutionProperties
  import opened Players

  /** The castles a player is offered: those of its own king, computed against the
      opponent's standard moves. */
  function OfferedCastles(b: Board, a: Alliance): seq<Move>
    requires Valid(b)
  {
    var p := PlayerOf(b, a);
    KingCastles(b, a, p.playerKing, false, SideStandardMoves(b, a.Opposite()))
  }

  /** A king from the public `King` constructor has its first-move flag cleared, so it is
      never offered a castle. */
  lemma ConstructedKingNeverCastles(b: Board, a: Alliance, position: int, isInCheck: bool, opponentLegals: seq<Move>)
    requires |b.tiles| == NumTiles
    ensures KingCastles(b, a, NewKing(position, a), isInCheck, opponentLegals) == []
  {
  }

  /** The legal moves of a player are its standard moves followed by at most two
      castles of its king. */
  lemma LegalMovesShape(b: Board, a: Alliance)
    requires Valid(b)
    ensures var p := PlayerOf(b, a);
      p.legalMoves == SideStandardMoves(b, a) + OfferedCastles(b, a) &&
      |OfferedCastles(b, a)| <= 2 &&
      forall m :: m in OfferedCastles(b, a) ==> IsCastlingMove(m) && m.movedPiece == p.playerKing
  {
  }

  /** The in-check test is made before the player's own check status is known: an
      unmoved king with a free king side is offered the castle whether or not it is in
      check. */
  lemma CastlingIgnoresCheck(b: Board, a: Alliance)
    requires Valid(b)
    requires PlayerOf(b, a).playerKing.isFirstMove
    requires KingSideCastle(b, a, PlayerOf(b, a).playerKing, SideStandardMoves(b, a.Opposite())).Some?
    ensures KingSideCastle(b, a, PlayerOf(b, a).playerKing, SideStandardMoves(b, a.Opposite())).value
            in PlayerOf(b, a).legalMoves
  {
    var p := PlayerOf(b, a);
    var opp := SideStandardMoves(b, a.Opposite());
    var ks := KingSideCastle(b, a, p.playerKing, opp).value;
    assert OfferedCastles(b, a)[0] == ks;
    assert p.legalMoves[|SideStandardMoves(b, a)|] == ks;
  }

  /** Every castle of the list names the king, moves it and the rook onto two distinct
      empty squares, and takes the rook from the square it stands on. */
  lemma CastleSquares(b: Board, a: Alliance, king: Piece, opponentLegals: seq<Move>, m: Move)
    requires |b.tiles| == NumTiles && m in KingCastles(b, a, king, false, opponentLegals)
    ensures IsCastlingMove(m) && m.movedPiece == king && m.castleRook.kind == Rook
    ensures IsValidTileCoordinate(m.destination) && IsValidTileCoordinate(m.castleRookDestination)
    ensures m.destination != m.castleRookDestination
    ensures PieceAt(b, m.destination).None? && PieceAt(b, m.castleRookDestination).None?
    ensures IsValidTileCoordinate(m.castleRookStart) && PieceAt(b, m.castleRookStart) == Some(m.castleRook)
  {
    var ks := KingSideCastle(b, a, king, opponentLegals);
    var qs := QueenSideCastle(b, a, king, opponentLegals);
    assert (ks.Some? && m == ks.value) || (qs.Some? && m == qs.value);
  }

  /** A castle offered to the side to move satisfies what its execution needs, and the
      rook it names stands on its starting square. */
  lemma OfferedCastleExecutable(b: Board, m: Move)
    requires Valid(b) && m in OfferedCastles(b, b.nextMoveMaker)
    ensures CastlePrerequisites(b, m)
    ensures IsValidTileCoordinate(m.castleRookStart) && PieceAt(b, m.castleRookStart) == Some(m.castleRook)
    ensures m.movedPiece == PlayerOf(b, b.nextMoveMaker).playerKing
  {
    var a := b.nextMoveMaker;
    var king := PlayerOf(b, a).playerKing;
    CastleSquares(b, a, king, SideStandardMoves(b, a.Opposite()), m);
    assert king in b.PiecesOf(a);
    ActivePiecesExactly(b.tiles, a);
  }

  /** Executing a castle whose king and rook stand on their squares. */
  lemma CastleResult(b: Board, m: Move)
    requires Valid(b) && CastlePrerequisites(b, m)
    requires IsValidTileCoordinate(m.castleRookStart) && PieceAt(b, m.castleRookStart) == Some(m.castleRook)
    requires IsValidTileCoordinate(m.movedPiece.position) && PieceAt(b, m.movedPiece.position) == Some(m.movedPiece)
    ensures ExecuteSpec(b, m).Some?
    ensures var r := ExecuteSpec(b, m).value;
      PieceAt(r, m.destination) == Some(MovedPiece(King, m.destination, b.nextMoveMaker)) &&
      PieceAt(r, m.castleRookDestination) == Some(Piece(Rook, m.castleRookDestination, m.castleRook.alliance, false)) &&
      PieceAt(r, m.castleRookStart).None? && PieceAt(r, m.movedPiece.position).None? &&
      r.nextMoveMaker == b.nextMoveMaker.Opposite()
  {
    CastleEffect(b, m, m.destination);
    var r := ExecuteSpec(b, m).value;
    assert PieceAt(r, m.castleRookDestination) == Some(Piece(Rook, m.castleRookDestination, m.castleRook.alliance, false)) by {
      CastleEffect(b, m, m.castleRookDestination);
    }
    assert PieceAt(r, m.castleRookStart).None? by {
      CastleEffect(b, m, m.castleRookStart);
    }
    assert PieceAt(r, m.movedPiece.position).None? by {
      CastleEffect(b, m, m.movedPiece.position);
    }
  }

  /** Executing an offered castle: the king stands on its castling square, a rook with a
      cleared first-move flag on the rook's destination, the king's and the rook's
      starting squares are empty, and the opponent moves next. */
  lemma CastleOutcome(b: Board, m: Move)
    requires Valid(b) && m in OfferedCastles(b, b.nextMoveMaker)
    ensures CastlePrerequisites(b, m) && IsValidTileCoordinate(m.castleRookStart)
    ensures IsValidTileCoordinate(m.movedPiece.position)
    ensures ExecuteSpec(b, m).Some?
    ensures var r := ExecuteSpec(b, m).value;
      PieceAt(r, m.destination) == Some(MovedPiece(King, m.destination, b.nextMoveMaker)) &&
      PieceAt(r, m.castleRookDestination) == Some(Piece(Rook, m.castleRookDestination, m.castleRook.alliance, false)) &&
      PieceAt(r, m.castleRookStart).None? && PieceAt(r, m.movedPiece.position).None? &&
      r.nextMoveMaker == b.nextMoveMaker.Opposite()
  {
    OfferedCastleExecutable(b, m);
    assert m.movedPiece in b.AllPieces();
    PieceOnItsSquare(b, m.movedPiece);
    CastleResult(b, m);
  }
}
