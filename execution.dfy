/** `Move.execute` and its overrides: every move builds a fresh position with a
    `Board.Builder`. The side to move keeps its pieces except the moved one, the
    opponent keeps all of its pieces (an en-passant capture drops the captured
    pawn), and the moved piece is placed last on its destination, replacing
    whatever the builder held there. */
module Execution {
  import opened Wrappers
  import opened Pieces
  import opened BoardUtils
  import opened Tiles
  import opened Moves
  import opened Boards

  /** `ps` without the pieces equal to `x` or to `y`, in order (a stream filter). */
  function Keep(ps: seq<Piece>, x: Piece, y: Piece): (r: seq<Piece>)
    ensures forall p :: p in r <==> p in ps && p != x && p != y
  {
    if ps == [] then []
    else
      var last := ps[|ps| - 1];
      var init := Keep(ps[..|ps| - 1], x, y);
      assert forall p :: p in ps <==> p in ps[..|ps| - 1] || p == last;
      init + (if last != x && last != y then [last] else [])
  }

  /** The builder map of the ordinary `execute`: the mover's pieces except `moved`, the
      opponent's pieces except `captured` (when there is one), then the moved piece. The
      second half of a promotion builds the same map on the position after the pawn's move. */
  function StandardConfig(b: Board, moved: Piece, captured: Option<Piece>, successor: Piece): (config: map<int, Piece>)
    ensures KeyedByPosition(config)
  {
    PlaceAll(PlaceAll(map[], MoverKept(b, moved)), OpponentKept(b, captured))[successor.position := successor]
  }

  /** The side to move's pieces that the builder receives. */
  function MoverKept(b: Board, moved: Piece): seq<Piece> {
    Keep(b.PiecesOf(b.nextMoveMaker), moved, moved)
  }

  /** The opponent's pieces that the builder receives. */
  function OpponentKept(b: Board, captured: Option<Piece>): seq<Piece> {
    var theirs := b.PiecesOf(b.nextMoveMaker.Opposite());
    if captured.Some? then Keep(theirs, captured.value, captured.value) else theirs
  }

  /** The map of a castle: every piece except the king and the rook, then the king on its
      destination, then a new rook (first-move flag clear) on the rook's destination. */
  function CastleConfig(b: Board, king: Piece, destination: int, rook: Piece, rookDestination: int): (config: map<int, Piece>)
    ensures KeyedByPosition(config)
  {
    var movedKing := MovedPiece(king.kind, destination, king.alliance);
    var movedRook := Piece(Rook, rookDestination, rook.alliance, false);
    PlaceAll(map[], Keep(b.AllPieces(), king, rook))[destination := movedKing][rookDestination := movedRook]
  }

  /** The position built by the ordinary `execute`, handing the move to the opponent. */
  function StandardExecute(b: Board, moved: Piece, captured: Option<Piece>, successor: Piece,
                           enPassant: Option<Piece>, m: Move): (r: Option<Board>)
    ensures r.Some? ==> Valid(r.value) && r.value.transitionMove == Some(m)
  {
    BuildBoard(StandardConfig(b, moved, captured, successor), Some(b.nextMoveMaker.Opposite()), enPassant, Some(m))
  }

  /** The position built by `CastleMove.execute`. */
  function CastleExecute(b: Board, king: Piece, destination: int, rook: Piece, rookDestination: int,
                         m: Move): (r: Option<Board>)
    ensures r.Some? ==> Valid(r.value) && r.value.transitionMove == Some(m)
  {
    BuildBoard(CastleConfig(b, king, destination, rook, rookDestination), Some(b.nextMoveMaker.Opposite()), None, Some(m))
  }

  /** The rebuilding half of `PawnPromotion.execute`: the position after the pawn's move
      rebuilt with the promotion piece in place of the pawn, keeping its side to move. */
  function PromotionRebuild(pb: Board, pawn: Piece, promoted: Piece, m: Move): (r: Option<Board>)
    ensures r.Some? ==> Valid(r.value) && r.value.transitionMove == Some(m)
  {
    BuildBoard(StandardConfig(pb, pawn, None, promoted), Some(pb.nextMoveMaker), None, Some(m))
  }

  /** `move.execute()` on the move's own board: the new position, or None where Java throws
      (a null move, a position without a king, a failed cast to `Pawn`). A successful
      execution yields a constructed position (two kings, piece lists derived from the
      tiles) that records the move as its transition. */
  function ExecuteSpec(b: Board, m: Move): (r: Option<Board>)
    requires Valid(b)
    ensures m.NullMove? ==> r.None?
    ensures r.Some? ==> Valid(r.value) && r.value.transitionMove == Some(m)
    decreases m
  {
    match m
    case NullMove => None
    case PawnPromotion(decorated, promotion) =>
      var pawn := MovedPieceOf(decorated);
      if pawn.None? || pawn.value.kind != Pawn then None
      else
        var pawnMoved := ExecuteSpec(b, decorated);
        if pawnMoved.None? then None
        else
          var promoted := MovedPiece(promotion.kind, Destination(decorated), pawn.value.alliance);
          PromotionRebuild(pawnMoved.value, pawn.value, promoted, m)
    case KingSideCastleMove(king, destination, rook, _, rookDestination) =>
      CastleExecute(b, king, destination, rook, rookDestination, m)
    case QueenSideCastleMove(king, destination, rook, _, rookDestination) =>
      CastleExecute(b, king, destination, rook, rookDestination, m)
    case PawnEnPassantAttackMove(moved, destination, attacked) =>
      StandardExecute(b, moved, Some(attacked), MovedPiece(moved.kind, destination, moved.alliance), None, m)
    case PawnJump(moved, destination) =>
      if moved.kind != Pawn then None
      else
        var movedPawn := MovedPiece(moved.kind, destination, moved.alliance);
        StandardExecute(b, moved, None, movedPawn, Some(movedPawn), m)
    case _ =>
      // the quiet, attack and pawn moves inherit the ordinary execute
      var moved := m.movedPiece;
      StandardExecute(b, moved, None, MovedPiece(moved.kind, m.destination, moved.alliance), None, m)
  }

  /** `forEach(builder::setPiece)` over a list. */
  method SetPieces(builder: Builder, ps: seq<Piece>)
    requires builder.Valid()
    modifies builder
    ensures builder.Valid()
    ensures builder.boardConfig == PlaceAll(old(builder.boardConfig), ps)
    ensures builder.nextMoveMaker == old(builder.nextMoveMaker)
    ensures builder.enPassantPawn == old(builder.enPassantPawn)
    ensures builder.moveTransition == old(builder.moveTransition)
  {
    for i := 0 to |ps|
      invariant builder.Valid()
      invariant builder.boardConfig == PlaceAll(old(builder.boardConfig), ps[..i])
      invariant builder.nextMoveMaker == old(builder.nextMoveMaker)
      invariant builder.enPassantPawn == old(builder.enPassantPawn)
      invariant builder.moveTransition == old(builder.moveTransition)
    {
      assert ps[..i + 1][..i] == ps[..i];
      builder.SetPiece(ps[i]);
    }
    assert ps[..|ps|] == ps;
  }

  /** `filter(piece -> !x.equals(piece) && !y.equals(piece)).forEach(builder::setPiece)`. */
  method SetPiecesExcept(builder: Builder, ps: seq<Piece>, x: Piece, y: Piece)
    requires builder.Valid()
    modifies builder
    ensures builder.Valid()
    ensures builder.boardConfig == PlaceAll(old(builder.boardConfig), Keep(ps, x, y))
    ensures builder.nextMoveMaker == old(builder.nextMoveMaker)
    ensures builder.enPassantPawn == old(builder.enPassantPawn)
    ensures builder.moveTransition == old(builder.moveTransition)
  {
    for i := 0 to |ps|
      invariant builder.Valid()
      invariant builder.boardConfig == PlaceAll(old(builder.boardConfig), Keep(ps[..i], x, y))
      invariant builder.nextMoveMaker == old(builder.nextMoveMaker)
      invariant builder.enPassantPawn == old(builder.enPassantPawn)
      invariant builder.moveTransition == old(builder.moveTransition)
    {
      assert ps[..i + 1][..i] == ps[..i];
      var kept := Keep(ps[..i], x, y);
      if ps[i] != x && ps[i] != y {
        assert Keep(ps[..i + 1], x, y) == kept + [ps[i]];
        assert (kept + [ps[i]])[..|kept|] == kept;
        builder.SetPiece(ps[i]);
      } else {
        assert Keep(ps[..i + 1], x, y) == kept;
      }
    }
    assert ps[..|ps|] == ps;
  }

  /** The ordinary `execute` (and the en-passant and pawn-jump overrides). */
  method BuildStandard(b: Board, moved: Piece, captured: Option<Piece>, successor: Piece,
                       enPassant: Option<Piece>, m: Move) returns (r: Option<Board>)
    requires Valid(b)
    ensures r == StandardExecute(b, moved, captured, successor, enPassant, m)
  {
    var builder := new Builder();
    SetPiecesExcept(builder, b.PiecesOf(b.nextMoveMaker), moved, moved);
    if captured.Some? {
      SetPiecesExcept(builder, b.PiecesOf(b.nextMoveMaker.Opposite()), captured.value, captured.value);
    } else {
      SetPieces(builder, b.PiecesOf(b.nextMoveMaker.Opposite()));
    }
    builder.SetPiece(successor);
    if enPassant.Some? {
      builder.SetEnPassantPawn(enPassant.value);
    }
    builder.SetMoveMaker(b.nextMoveMaker.Opposite());
    builder.SetMoveTransition(m);
    r := builder.Build();
  }

  /** `CastleMove.execute`. */
  method BuildCastle(b: Board, king: Piece, destination: int, rook: Piece, rookDestination: int, m: Move)
    returns (r: Option<Board>)
    requires Valid(b)
    ensures r == CastleExecute(b, king, destination, rook, rookDestination, m)
  {
    var builder := new Builder();
    SetPiecesExcept(builder, b.AllPieces(), king, rook);
    builder.SetPiece(MovedPiece(king.kind, destination, king.alliance));
    builder.SetPiece(Piece(Rook, rookDestination, rook.alliance, false));
    builder.SetMoveMaker(b.nextMoveMaker.Opposite());
    builder.SetMoveTransition(m);
    r := builder.Build();
  }

  /** The rebuilding half of `PawnPromotion.execute`. */
  method BuildPromotion(pb: Board, pawn: Piece, promoted: Piece, m: Move) returns (r: Option<Board>)
    requires Valid(pb)
    ensures r == PromotionRebuild(pb, pawn, promoted, m)
  {
    var builder := new Builder();
    SetPiecesExcept(builder, pb.PiecesOf(pb.nextMoveMaker), pawn, pawn);
    SetPieces(builder, pb.PiecesOf(pb.nextMoveMaker.Opposite()));
    builder.SetPiece(promoted);
    builder.SetMoveMaker(pb.nextMoveMaker);
    builder.SetMoveTransition(m);
    r := builder.Build();
  }

  /** `execute()` of each move class. */
  method Execute(b: Board, m: Move) returns (r: Option<Board>)
    requires Valid(b)
    ensures r == ExecuteSpec(b, m)
    decreases m
  {
    match m {
      case NullMove =>
        r := None;
      case PawnPromotion(decorated, promotion) =>
        var pawn := MovedPieceOf(decorated);
        if pawn.None? || pawn.value.kind != Pawn {
          return None;
        }
        var pawnMoved := Execute(b, decorated);
        if pawnMoved.None? {
          return None;
        }
        var promoted := MovedPiece(promotion.kind, Destination(decorated), pawn.value.alliance);
        r := BuildPromotion(pawnMoved.value, pawn.value, promoted, m);
      case KingSideCastleMove(king, destination, rook, _, rookDestination) =>
        r := BuildCastle(b, king, destination, rook, rookDestination, m);
      case QueenSideCastleMove(king, destination, rook, _, rookDestination) =>
        r := BuildCastle(b, king, destination, rook, rookDestination, m);
      case PawnEnPassantAttackMove(moved, destination, attacked) =>
        r := BuildStandard(b, moved, Some(attacked), MovedPiece(moved.kind, destination, moved.alliance), None, m);
      case PawnJump(moved, destination) =>
        if moved.kind != Pawn {
          return None;
        }
        var movedPawn := MovedPiece(moved.kind, destination, moved.alliance);
        r := BuildStandard(b, moved, None, movedPawn, Some(movedPawn), m);
      case _ =>
        var moved := m.movedPiece;
        var successor := MovedPiece(moved.kind, m.destination, moved.alliance);
        r := BuildStandard(b, moved, None, successor, None, m);
    }
  }
}
