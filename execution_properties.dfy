/** What executing a move does to the position, square by square. */
module ExecutionProperties {
  import opened Wrappers
  import opened Pieces
  import opened BoardUtils
  import opened Tiles
  import opened Moves
  import opened Boards
  import opened Execution

  /** No two pieces of the list stand on the same square. */
  ghost predicate DistinctPositions(ps: seq<Piece>) {
    forall i, j :: 0 <= i < j < |ps| ==> ps[i].position != ps[j].position
  }

  lemma ValidSidesDistinct(b: Board)
    requires Valid(b)
    ensures DistinctPositions(b.whitePieces) && DistinctPositions(b.blackPieces)
    ensures DistinctPositions(b.AllPieces())
  {
    ActivePiecesExactly(b.tiles, White);
    ActivePiecesExactly(b.tiles, Black);
    var all := b.AllPieces();
    var w := |b.whitePieces|;
    forall i, j | 0 <= i < j < |all|
      ensures all[i].position != all[j].position
    {
      if i < w && j >= w {
        assert all[i] in b.whitePieces && all[j] in b.blackPieces;
        assert OnTiles(b.tiles, all[i]) && OnTiles(b.tiles, all[j]);
      } else if i >= w {
        assert all[i] == b.blackPieces[i - w] && all[j] == b.blackPieces[j - w];
      }
    }
  }

  /** Filtering pieces out of a list with one piece per square empties the squares of
      the filtered pieces and leaves every other square as it was. */
  lemma {:induction false} KeepAt(ps: seq<Piece>, x: Piece, y: Piece, c: int)
    requires DistinctPositions(ps)
    ensures LastAt(Keep(ps, x, y), c) ==
      if LastAt(ps, c) == Some(x) || LastAt(ps, c) == Some(y) then None else LastAt(ps, c)
  {
    if ps != [] {
      var init := ps[..|ps| - 1];
      var last := ps[|ps| - 1];
      assert DistinctPositions(init);
      KeepAt(init, x, y, c);
      var kept := Keep(init, x, y);
      if last.position == c {
        assert forall p :: p in init ==> p.position != c;
        if last == x || last == y {
          assert Keep(ps, x, y) == kept;
        } else {
          assert Keep(ps, x, y) == kept + [last];
        }
      } else if last != x && last != y {
        assert Keep(ps, x, y) == kept + [last];
        assert (kept + [last])[..|kept|] == kept;
      } else {
        assert Keep(ps, x, y) == kept;
      }
    }
  }

  /** A side's list, looked up by square, gives the piece on that square if it is of
      that side. */
  lemma SideAt(b: Board, a: Alliance, c: int)
    requires Valid(b) && IsValidTileCoordinate(c)
    ensures LastAt(b.PiecesOf(a), c) ==
      if PieceAt(b, c).Some? && PieceAt(b, c).value.alliance == a then PieceAt(b, c) else None
  {
    ActivePiecesAt(b.tiles, a, c);
  }

  /** A built position holds on each square what the builder's map holds there. */
  lemma BuiltAt(config: map<int, Piece>, mover: Option<Alliance>, enPassant: Option<Piece>,
                transition: Option<Move>, c: int)
    requires KeyedByPosition(config) && IsValidTileCoordinate(c)
    requires BuildBoard(config, mover, enPassant, transition).Some?
    ensures PieceAt(BuildBoard(config, mover, enPassant, transition).value, c) == Lookup(config, c)
  {
  }

  /** The pieces of a valid position stand on their own squares. */
  lemma PieceOnItsSquare(b: Board, p: Piece)
    requires Valid(b) && p in b.AllPieces()
    ensures IsValidTileCoordinate(p.position) && PieceAt(b, p.position) == Some(p)
    ensures forall c :: IsValidTileCoordinate(c) && c != p.position ==> PieceAt(b, c) != Some(p)
  {
    PiecesPartitionBoard(b);
  }

  /** The mover's kept pieces, looked up by square. */
  lemma KeptAt(b: Board, a: Alliance, x: Piece, c: int)
    requires Valid(b) && IsValidTileCoordinate(c)
    ensures LastAt(Keep(b.PiecesOf(a), x, x), c) ==
      if PieceAt(b, c).Some? && PieceAt(b, c).value.alliance == a && PieceAt(b, c) != Some(x)
      then PieceAt(b, c) else None
  {
    ValidSidesDistinct(b);
    SideAt(b, a, c);
    KeepAt(b.PiecesOf(a), x, x, c);
  }

  /** The piece on `c` if it is of alliance `a` and is not `x`. */
  function SideExcept(b: Board, a: Alliance, x: Option<Piece>, c: int): Option<Piece>
    requires |b.tiles| == NumTiles && IsValidTileCoordinate(c)
  {
    var here := PieceAt(b, c);
    if here.Some? && here.value.alliance == a && here != x then here else None
  }

  lemma OpponentKeptAt(b: Board, captured: Option<Piece>, c: int)
    requires Valid(b) && IsValidTileCoordinate(c)
    ensures LastAt(OpponentKept(b, captured), c) == SideExcept(b, b.nextMoveMaker.Opposite(), captured, c)
  {
    if captured.Some? {
      KeptAt(b, b.nextMoveMaker.Opposite(), captured.value, c);
    } else {
      SideAt(b, b.nextMoveMaker.Opposite(), c);
    }
  }

  /** Before the moved piece is placed, the builder's map holds the opponent's kept piece on
      a square, or else the mover's kept piece. */
  lemma KeptPiecesAt(b: Board, moved: Piece, captured: Option<Piece>, c: int)
    requires Valid(b) && IsValidTileCoordinate(c)
    ensures Lookup(PlaceAll(PlaceAll(map[], MoverKept(b, moved)), OpponentKept(b, captured)), c) ==
      if SideExcept(b, b.nextMoveMaker.Opposite(), captured, c).Some?
      then SideExcept(b, b.nextMoveMaker.Opposite(), captured, c)
      else SideExcept(b, b.nextMoveMaker, Some(moved), c)
  {
    KeptAt(b, b.nextMoveMaker, moved, c);
    OpponentKeptAt(b, captured, c);
    PlaceAllLookup(map[], MoverKept(b, moved), c);
    PlaceAllLookup(PlaceAll(map[], MoverKept(b, moved)), OpponentKept(b, captured), c);
  }

  /** The ordinary map: the successor on its square; the moved piece (if it is the mover's)
      and the captured piece (if it is the opponent's) gone; everything else unchanged. */
  lemma StandardConfigAt(b: Board, moved: Piece, captured: Option<Piece>, successor: Piece, c: int)
    requires Valid(b) && IsValidTileCoordinate(c)
    ensures Lookup(StandardConfig(b, moved, captured, successor), c) ==
      if c == successor.position then Some(successor)
      else if PieceAt(b, c) == Some(moved) && moved.alliance == b.nextMoveMaker then None
      else if PieceAt(b, c).Some? && captured == PieceAt(b, c) && captured.value.alliance != b.nextMoveMaker then None
      else PieceAt(b, c)
  {
    KeptPiecesAt(b, moved, captured, c);
  }

  /** After an ordinary move of one of the mover's pieces to a board square: the
      destination holds the moved piece's successor, its origin is empty, every other
      square is unchanged; the opponent moves next. */
  lemma StandardExecuteEffect(b: Board, moved: Piece, captured: Option<Piece>, successor: Piece,
                              enPassant: Option<Piece>, m: Move, c: int)
    requires Valid(b) && IsValidTileCoordinate(c) && IsValidTileCoordinate(successor.position)
    requires moved in b.PiecesOf(b.nextMoveMaker)
    requires captured.Some? ==> captured.value in b.PiecesOf(b.nextMoveMaker.Opposite())
    requires StandardExecute(b, moved, captured, successor, enPassant, m).Some?
    ensures var r := StandardExecute(b, moved, captured, successor, enPassant, m).value;
      PieceAt(r, c) ==
        if c == successor.position then Some(successor)
        else if c == moved.position || (captured.Some? && c == captured.value.position) then None
        else PieceAt(b, c)
    ensures var r := StandardExecute(b, moved, captured, successor, enPassant, m).value;
      r.nextMoveMaker == b.nextMoveMaker.Opposite() && r.enPassantPawn == enPassant
  {
    var config := StandardConfig(b, moved, captured, successor);
    BuiltAt(config, Some(b.nextMoveMaker.Opposite()), enPassant, Some(m), c);
    StandardConfigAt(b, moved, captured, successor, c);
    PieceOnItsSquare(b, moved);
    if captured.Some? {
      PieceOnItsSquare(b, captured.value);
    }
  }

  /** The ordinary map keeps a king of `a` if the successor is one, or if that side's king
      is neither the moved piece, nor captured, nor standing on the destination. */
  lemma StandardConfigKeepsKing(b: Board, moved: Piece, captured: Option<Piece>, successor: Piece, a: Alliance)
    requires Valid(b) && IsValidTileCoordinate(successor.position)
    requires var k := EstablishKing(b.PiecesOf(a)).value;
      (successor.kind == King && successor.alliance == a) ||
      (k.position != successor.position && k != moved && captured != Some(k))
    ensures HasKingOnBoard(StandardConfig(b, moved, captured, successor), a)
  {
    var config := StandardConfig(b, moved, captured, successor);
    var k := EstablishKing(b.PiecesOf(a)).value;
    StandardConfigAt(b, successor, captured, successor, successor.position);
    if !(successor.kind == King && successor.alliance == a) {
      PieceOnItsSquare(b, k);
      StandardConfigAt(b, moved, captured, successor, k.position);
      assert Lookup(config, k.position) == Some(k);
    } else {
      StandardConfigAt(b, moved, captured, successor, successor.position);
    }
  }

  /** An ordinary move of one of the mover's pieces to another board square succeeds
      unless it lands on a king or captures one. */
  lemma StandardExecuteSucceeds(b: Board, moved: Piece, captured: Option<Piece>, successor: Piece,
                                enPassant: Option<Piece>, m: Move)
    requires Valid(b) && IsValidTileCoordinate(successor.position)
    requires moved in b.PiecesOf(b.nextMoveMaker)
    requires successor.kind == moved.kind && successor.alliance == moved.alliance
    requires PieceAt(b, successor.position).None? || PieceAt(b, successor.position).value.kind != King
    requires captured.None? || captured.value.kind != King
    ensures StandardExecute(b, moved, captured, successor, enPassant, m).Some?
  {
    var config := StandardConfig(b, moved, captured, successor);
    forall a | a == White || a == Black
      ensures HasKingOnBoard(config, a)
    {
      var k := EstablishKing(b.PiecesOf(a)).value;
      PieceOnItsSquare(b, k);
      StandardConfigKeepsKing(b, moved, captured, successor, a);
    }
    BuildSucceedsIffKings(config, Some(b.nextMoveMaker.Opposite()), enPassant, Some(m));
  }

  /** An ordinary move class: the base `execute` or the pawn jump's. */
  predicate IsOrdinary(m: Move) {
    m.MajourMove? || m.AttackMove? || m.MajourAttackMove? || m.PawnMove? || m.PawnAttackMove? || m.PawnJump?
  }

  /** A move made by one of the side to move's pieces to a board square. */
  ghost predicate MoverMovesOwnPiece(b: Board, m: Move)
    requires Valid(b)
  {
    MovedPieceOf(m).Some? && MovedPieceOf(m).value in b.PiecesOf(b.nextMoveMaker) &&
    IsValidTileCoordinate(Destination(m))
  }

  /** The ordinary classes all execute through the base `execute`. */
  lemma OrdinaryExecute(b: Board, m: Move)
    requires Valid(b) && IsOrdinary(m)
    requires m.PawnJump? ==> m.movedPiece.kind == Pawn
    ensures var successor := MovedPiece(m.movedPiece.kind, m.destination, m.movedPiece.alliance);
      ExecuteSpec(b, m) ==
        StandardExecute(b, m.movedPiece, None, successor, if m.PawnJump? then Some(successor) else None, m)
  {
  }

  /** Executing an ordinary move of the mover's own piece to a square without a king
      succeeds (a pawn jump needs a pawn); the destination then holds the moved piece's
      successor, the origin is empty, all other squares are unchanged, the opponent
      moves next, and only a pawn jump leaves an en-passant pawn. */
  lemma OrdinaryMoveEffect(b: Board, m: Move, c: int)
    requires Valid(b) && IsOrdinary(m) && MoverMovesOwnPiece(b, m) && IsValidTileCoordinate(c)
    requires PieceAt(b, m.destination).None? || PieceAt(b, m.destination).value.kind != King
    requires m.PawnJump? ==> m.movedPiece.kind == Pawn
    ensures ExecuteSpec(b, m).Some?
    ensures var r := ExecuteSpec(b, m).value;
      var successor := MovedPiece(m.movedPiece.kind, m.destination, m.movedPiece.alliance);
      PieceAt(r, c) ==
        (if c == m.destination then Some(successor)
         else if c == m.movedPiece.position then None
         else PieceAt(b, c)) &&
      r.nextMoveMaker == b.nextMoveMaker.Opposite() &&
      r.enPassantPawn == (if m.PawnJump? then Some(successor) else None)
  {
    var moved := m.movedPiece;
    var successor := MovedPiece(moved.kind, m.destination, moved.alliance);
    var ep := if m.PawnJump? then Some(successor) else None;
    OrdinaryExecute(b, m);
    StandardExecuteSucceeds(b, moved, None, successor, ep, m);
    StandardExecuteEffect(b, moved, None, successor, ep, m, c);
  }

  /** An en-passant capture also empties the captured pawn's square. */
  lemma EnPassantEffect(b: Board, m: Move, c: int)
    requires Valid(b) && m.PawnEnPassantAttackMove? && MoverMovesOwnPiece(b, m) && IsValidTileCoordinate(c)
    requires m.attackedPiece in b.PiecesOf(b.nextMoveMaker.Opposite()) && m.attackedPiece.kind != King
    requires PieceAt(b, m.destination).None? || PieceAt(b, m.destination).value.kind != King
    ensures ExecuteSpec(b, m).Some?
    ensures var r := ExecuteSpec(b, m).value;
      var successor := MovedPiece(m.movedPiece.kind, m.destination, m.movedPiece.alliance);
      PieceAt(r, c) ==
        (if c == m.destination then Some(successor)
         else if c == m.movedPiece.position || c == m.attackedPiece.position then None
         else PieceAt(b, c)) &&
      r.nextMoveMaker == b.nextMoveMaker.Opposite() && r.enPassantPawn.None?
  {
    var moved := m.movedPiece;
    var successor := MovedPiece(moved.kind, m.destination, moved.alliance);
    assert ExecuteSpec(b, m) == StandardExecute(b, moved, Some(m.attackedPiece), successor, None, m);
    StandardExecuteSucceeds(b, moved, Some(m.attackedPiece), successor, None, m);
    StandardExecuteEffect(b, moved, Some(m.attackedPiece), successor, None, m, c);
  }

  /** A promotion executes its pawn move, then rebuilds that position around the
      promotion piece, keeping that position's side to move. */
  lemma PromotionExecute(b: Board, m: Move)
    requires Valid(b) && m.PawnPromotion?
    requires MovedPieceOf(m.decoratedMove).Some? && MovedPieceOf(m.decoratedMove).value.kind == Pawn
    requires ExecuteSpec(b, m.decoratedMove).Some?
    ensures var pb := ExecuteSpec(b, m.decoratedMove).value;
      var pawn := MovedPieceOf(m.decoratedMove).value;
      var promoted := MovedPiece(m.promotionPiece.kind, Destination(m.decoratedMove), pawn.alliance);
      ExecuteSpec(b, m) == PromotionRebuild(pb, pawn, promoted, m)
  {
  }

  /** The preconditions under which a promotion is proved to succeed. */
  ghost predicate PromotablePawnMove(b: Board, m: Move)
    requires Valid(b)
  {
    m.PawnPromotion? && IsOrdinary(m.decoratedMove) && !m.decoratedMove.PawnJump? &&
    MoverMovesOwnPiece(b, m.decoratedMove) && m.decoratedMove.movedPiece.kind == Pawn &&
    (PieceAt(b, m.decoratedMove.destination).None? ||
     PieceAt(b, m.decoratedMove.destination).value.kind != King)
  }

  /** Rebuilding a position around a promotion piece keeps both kings, unless the
      promotion square held one. */
  lemma RebuildSucceeds(pb: Board, pawn: Piece, promoted: Piece, m: Move)
    requires Valid(pb) && IsValidTileCoordinate(promoted.position) && pawn.kind != King
    requires PieceAt(pb, promoted.position).None? || PieceAt(pb, promoted.position).value.kind != King
    ensures PromotionRebuild(pb, pawn, promoted, m).Some?
  {
    var config := StandardConfig(pb, pawn, None, promoted);
    forall a | a == White || a == Black
      ensures HasKingOnBoard(config, a)
    {
      var k := EstablishKing(pb.PiecesOf(a)).value;
      PieceOnItsSquare(pb, k);
      StandardConfigKeepsKing(pb, pawn, None, promoted, a);
    }
    BuildSucceedsIffKings(config, Some(pb.nextMoveMaker), None, Some(m));
  }

  /** Rebuilding a position around a promotion piece of the side that has just
      moved changes only the promotion square. */
  lemma RebuildAt(pb: Board, pawn: Piece, promoted: Piece, m: Move, c: int)
    requires Valid(pb) && IsValidTileCoordinate(promoted.position) && pawn.kind != King
    requires PieceAt(pb, promoted.position).None? || PieceAt(pb, promoted.position).value.kind != King
    requires pawn.alliance != pb.nextMoveMaker && IsValidTileCoordinate(c)
    ensures PromotionRebuild(pb, pawn, promoted, m).Some?
    ensures var r := PromotionRebuild(pb, pawn, promoted, m).value;
      PieceAt(r, c) == if c == promoted.position then Some(promoted) else PieceAt(pb, c)
  {
    var config := StandardConfig(pb, pawn, None, promoted);
    var built := BuildBoard(config, Some(pb.nextMoveMaker), None, Some(m));
    RebuildSucceeds(pb, pawn, promoted, m);
    assert PieceAt(built.value, c) == Lookup(config, c) by {
      BuiltAt(config, Some(pb.nextMoveMaker), None, Some(m), c);
    }
    RebuildConfigAt(pb, pawn, promoted, c);
  }

  lemma RebuildConfigAt(pb: Board, pawn: Piece, promoted: Piece, c: int)
    requires Valid(pb) && pawn.alliance != pb.nextMoveMaker && IsValidTileCoordinate(c)
    ensures Lookup(StandardConfig(pb, pawn, None, promoted), c) ==
      if c == promoted.position then Some(promoted) else PieceAt(pb, c)
  {
    StandardConfigAt(pb, pawn, None, promoted, c);
  }

  lemma PromotionSucceeds(b: Board, m: Move)
    requires Valid(b) && PromotablePawnMove(b, m)
    ensures ExecuteSpec(b, m.decoratedMove).Some? && ExecuteSpec(b, m).Some?
  {
    var dec := m.decoratedMove;
    var pawn := dec.movedPiece;
    var d := dec.destination;
    OrdinaryMoveEffect(b, dec, d);
    var pb := ExecuteSpec(b, dec).value;
    var promoted := MovedPiece(m.promotionPiece.kind, d, pawn.alliance);
    RebuildSucceeds(pb, pawn, promoted, m);
    PromotionExecute(b, m);
  }

  /** A promotion replaces the pawn's successor by the promotion piece: the destination
      holds the promotion piece, the pawn's origin is empty, other squares are unchanged,
      and the opponent moves next. */
  lemma PromotionEffect(b: Board, m: Move, c: int)
    requires Valid(b) && PromotablePawnMove(b, m) && IsValidTileCoordinate(c)
    ensures ExecuteSpec(b, m).Some?
    ensures var r := ExecuteSpec(b, m).value;
      var pawn := m.decoratedMove.movedPiece;
      PieceAt(r, c) ==
        (if c == m.decoratedMove.destination
         then Some(MovedPiece(m.promotionPiece.kind, m.decoratedMove.destination, pawn.alliance))
         else if c == pawn.position then None
         else PieceAt(b, c)) &&
      r.nextMoveMaker == b.nextMoveMaker.Opposite() && r.enPassantPawn.None?
  {
    var dec := m.decoratedMove;
    var pawn := dec.movedPiece;
    var d := dec.destination;
    PromotionSucceeds(b, m);
    OrdinaryMoveEffect(b, dec, c);
    OrdinaryMoveEffect(b, dec, d);
    var pb := ExecuteSpec(b, dec).value;
    var promoted := MovedPiece(m.promotionPiece.kind, d, pawn.alliance);
    RebuildAt(pb, pawn, promoted, m, c);
    PromotionExecute(b, m);
  }

  /** Both sides' lists together, looked up by square, give the piece on that square. */
  lemma AllAt(b: Board, c: int)
    requires Valid(b) && IsValidTileCoordinate(c)
    ensures LastAt(b.AllPieces(), c) == PieceAt(b, c)
  {
    PiecesPartitionBoard(b);
    var all := b.AllPieces();
    if LastAt(all, c).Some? {
      var q := LastAt(all, c).value;
      assert b.tiles[q.position] == OccupiedTile(q.position, q);
    }
  }

  /** The castling map: the king's successor on its destination, the new rook on the
      rook's destination, the castling king and rook gone from their squares, every
      other square as it was. */
  lemma CastleConfigAt(b: Board, king: Piece, destination: int, rook: Piece, rookDestination: int, c: int)
    requires Valid(b) && IsValidTileCoordinate(c)
    ensures Lookup(CastleConfig(b, king, destination, rook, rookDestination), c) ==
      if c == rookDestination then Some(Piece(Rook, rookDestination, rook.alliance, false))
      else if c == destination then Some(MovedPiece(king.kind, destination, king.alliance))
      else if PieceAt(b, c) == Some(king) || PieceAt(b, c) == Some(rook) then None
      else PieceAt(b, c)
  {
    ValidSidesDistinct(b);
    AllAt(b, c);
    KeepAt(b.AllPieces(), king, rook, c);
    PlaceAllLookup(map[], Keep(b.AllPieces(), king, rook), c);
  }

  /** What a castling move needs for its execution to yield a position: the king of the
      side to move castles onto an empty square, and a rook onto another empty square. */
  ghost predicate CastlePrerequisites(b: Board, m: Move)
    requires Valid(b)
  {
    IsCastlingMove(m) && m.movedPiece.kind == King && m.movedPiece.alliance == b.nextMoveMaker &&
    IsValidTileCoordinate(m.destination) && IsValidTileCoordinate(m.castleRookDestination) &&
    m.destination != m.castleRookDestination && m.castleRook.kind == Rook &&
    PieceAt(b, m.destination).None? && PieceAt(b, m.castleRookDestination).None?
  }

  lemma CastleSucceeds(b: Board, m: Move)
    requires Valid(b) && CastlePrerequisites(b, m)
    ensures CastleExecute(b, m.movedPiece, m.destination, m.castleRook, m.castleRookDestination, m).Some?
  {
    var config := CastleConfig(b, m.movedPiece, m.destination, m.castleRook, m.castleRookDestination);
    CastleConfigAt(b, m.movedPiece, m.destination, m.castleRook, m.castleRookDestination, m.destination);
    assert HasKingOnBoard(config, b.nextMoveMaker);
    var o := b.nextMoveMaker.Opposite();
    var k := EstablishKing(b.PiecesOf(o)).value;
    PieceOnItsSquare(b, k);
    CastleConfigAt(b, m.movedPiece, m.destination, m.castleRook, m.castleRookDestination, k.position);
    assert Lookup(config, k.position) == Some(k);
    assert HasKingOnBoard(config, o);
    assert b.nextMoveMaker == White || b.nextMoveMaker == Black;
    BuildSucceedsIffKings(config, Some(o), None, Some(m));
  }

  /** After a castling move: the king stands on its destination, a rook on the rook's
      destination, the squares the king and rook left are empty, every other square is
      unchanged, and the opponent moves next. */
  lemma CastleEffect(b: Board, m: Move, c: int)
    requires Valid(b) && CastlePrerequisites(b, m) && IsValidTileCoordinate(c)
    ensures ExecuteSpec(b, m).Some?
    ensures var r := ExecuteSpec(b, m).value;
      PieceAt(r, c) ==
        (if c == m.castleRookDestination then Some(Piece(Rook, m.castleRookDestination, m.castleRook.alliance, false))
         else if c == m.destination then Some(MovedPiece(King, m.destination, m.movedPiece.alliance))
         else if PieceAt(b, c) == Some(m.movedPiece) || PieceAt(b, c) == Some(m.castleRook) then None
         else PieceAt(b, c)) &&
      r.nextMoveMaker == b.nextMoveMaker.Opposite() && r.enPassantPawn.None?
  {
    var king, d, rook, rd := m.movedPiece, m.destination, m.castleRook, m.castleRookDestination;
    var config := CastleConfig(b, king, d, rook, rd);
    assert ExecuteSpec(b, m) == CastleExecute(b, king, d, rook, rd, m);
    CastleSucceeds(b, m);
    assert PieceAt(ExecuteSpec(b, m).value, c) == Lookup(config, c) by {
      BuiltAt(config, Some(b.nextMoveMaker.Opposite()), None, Some(m), c);
    }
    CastleConfigAt(b, king, d, rook, rd, c);
  }

  /** Executing the null move throws. */
  lemma NullMoveFails(b: Board)
    requires Valid(b)
    ensures ExecuteSpec(b, NullMove).None?
  {
  }
}
