/** The players of a position: check detection, castling, `makeMove` and its three
    outcomes, the search for an escape move, checkmate and stalemate. White's and
    Black's players differ only in their alliance; Black's castling squares are
    White's moved seven ranks up (the square number minus 56). */
module Players {
  import opened Wrappers
  import opened Pieces
  import opened BoardUtils
  import opened Moves
  import opened Boards
  import opened Generation
  import opened Execution

  /** `calculateAttackOnTile`: the moves that land on square `c`, in their order. */
  function AttacksOnTile(c: int, moves: seq<Move>): (r: seq<Move>)
    ensures forall m :: m in r <==> m in moves && Destination(m) == c
    ensures |r| <= |moves|
  {
    if moves == [] then []
    else
      var init := moves[..|moves| - 1];
      var last := moves[|moves| - 1];
      var r := AttacksOnTile(c, init) + (if Destination(last) == c then [last] else []);
      assert forall m :: m in init ==> m in moves;
      assert forall m :: m in moves ==> m in init || m == last;
      r
  }

  method CalculateAttackOnTile(c: int, moves: seq<Move>) returns (attackMoves: seq<Move>)
    ensures attackMoves == AttacksOnTile(c, moves)
  {
    attackMoves := [];
    for i := 0 to |moves|
      invariant attackMoves == AttacksOnTile(c, moves[..i])
    {
      assert moves[..i + 1][..i] == moves[..i];
      if Destination(moves[i]) == c {
        attackMoves := attackMoves + [moves[i]];
      }
    }
    assert moves[..|moves|] == moves;
  }

  /** No move of the list lands on square `c`. */
  predicate Unattacked(c: int, moves: seq<Move>) {
    forall m :: m in moves ==> Destination(m) != c
  }

  /** The a-file square of the side's back rank: 56 (a1) for White, 0 (a8) for Black. */
  function BackRank(a: Alliance): (s: int)
    ensures IsValidTileCoordinate(s) && Column(s) == 0
  {
    if a == White then 56 else 0
  }

  /** The piece on square `c` if it is a rook that has not moved. */
  predicate UnmovedRookAt(b: Board, c: int)
    requires |b.tiles| == NumTiles && IsValidTileCoordinate(c)
  {
    PieceAt(b, c).Some? && PieceAt(b, c).value.isFirstMove && PieceAt(b, c).value.kind.IsRook()
  }

  /** The king-side castle: the f- and g-squares of the back rank empty, an unmoved rook
      on the h-square, no opponent move onto the f- or g-square. The king goes to g,
      the rook from h to f. */
  function KingSideCastle(b: Board, a: Alliance, king: Piece, opponentLegals: seq<Move>): (r: Option<Move>)
    requires |b.tiles| == NumTiles
    ensures var r0 := BackRank(a);
      r.Some? <==>
        PieceAt(b, r0 + 5).None? && PieceAt(b, r0 + 6).None? && UnmovedRookAt(b, r0 + 7) &&
        Unattacked(r0 + 5, opponentLegals) && Unattacked(r0 + 6, opponentLegals)
    ensures var r0 := BackRank(a);
      r.Some? ==> r.value == KingSideCastleMove(king, r0 + 6, PieceAt(b, r0 + 7).value, r0 + 7, r0 + 5)
  {
    var r0 := BackRank(a);
    if PieceAt(b, r0 + 5).None? && PieceAt(b, r0 + 6).None? then
      var rookTile := PieceAt(b, r0 + 7);
      if rookTile.Some? && rookTile.value.isFirstMove then
        if AttacksOnTile(r0 + 5, opponentLegals) == [] && AttacksOnTile(r0 + 6, opponentLegals) == [] &&
           rookTile.value.kind.IsRook()
        then
          Some(KingSideCastleMove(king, r0 + 6, rookTile.value, r0 + 7, r0 + 5))
        else
          assert AttacksOnTile(r0 + 5, opponentLegals) != [] ==> AttacksOnTile(r0 + 5, opponentLegals)[0] in opponentLegals;
          assert AttacksOnTile(r0 + 6, opponentLegals) != [] ==> AttacksOnTile(r0 + 6, opponentLegals)[0] in opponentLegals;
          None
      else None
    else None
  }

  /** The queen-side castle: the b-, c- and d-squares empty, an unmoved rook on the
      a-square, no opponent move onto the c- or d-square. The king goes to c, the rook
      from a to d. */
  function QueenSideCastle(b: Board, a: Alliance, king: Piece, opponentLegals: seq<Move>): (r: Option<Move>)
    requires |b.tiles| == NumTiles
    ensures var r0 := BackRank(a);
      r.Some? <==>
        PieceAt(b, r0 + 3).None? && PieceAt(b, r0 + 2).None? && PieceAt(b, r0 + 1).None? &&
        UnmovedRookAt(b, r0) && Unattacked(r0 + 2, opponentLegals) && Unattacked(r0 + 3, opponentLegals)
    ensures var r0 := BackRank(a);
      r.Some? ==> r.value == QueenSideCastleMove(king, r0 + 2, PieceAt(b, r0).value, r0, r0 + 3)
  {
    var r0 := BackRank(a);
    if PieceAt(b, r0 + 3).None? && PieceAt(b, r0 + 2).None? && PieceAt(b, r0 + 1).None? then
      var rookTile := PieceAt(b, r0);
      if rookTile.Some? && rookTile.value.isFirstMove &&
         AttacksOnTile(r0 + 2, opponentLegals) == [] && AttacksOnTile(r0 + 3, opponentLegals) == [] &&
         rookTile.value.kind.IsRook()
      then
        Some(QueenSideCastleMove(king, r0 + 2, rookTile.value, r0, r0 + 3))
      else
        assert AttacksOnTile(r0 + 2, opponentLegals) != [] ==> AttacksOnTile(r0 + 2, opponentLegals)[0] in opponentLegals;
        assert AttacksOnTile(r0 + 3, opponentLegals) != [] ==> AttacksOnTile(r0 + 3, opponentLegals)[0] in opponentLegals;
        None
    else None
  }

  function OptionToSeq(o: Option<Move>): seq<Move> {
    if o.Some? then [o.value] else []
  }

  /** `calculateKingCastles`: nothing unless the king has not moved and the player is not
      in check; otherwise the king-side castle, then the queen-side castle, each when
      its conditions hold. */
  function KingCastles(b: Board, a: Alliance, king: Piece, isInCheck: bool, opponentLegals: seq<Move>): (r: seq<Move>)
    requires |b.tiles| == NumTiles
    ensures |r| <= 2
    ensures forall m :: m in r ==> IsCastlingMove(m) && m.movedPiece == king
    ensures |r| == 2 ==> r[0].KingSideCastleMove? && r[1].QueenSideCastleMove?
    ensures !king.isFirstMove || isInCheck ==> r == []
  {
    if king.isFirstMove && !isInCheck then
      OptionToSeq(KingSideCastle(b, a, king, opponentLegals)) +
      OptionToSeq(QueenSideCastle(b, a, king, opponentLegals))
    else []
  }

  method CalculateKingSideCastle(b: Board, a: Alliance, king: Piece, opponentLegals: seq<Move>)
    returns (r: Option<Move>)
    requires |b.tiles| == NumTiles
    ensures r == KingSideCastle(b, a, king, opponentLegals)
  {
    r := None;
    var r0 := BackRank(a);
    if PieceAt(b, r0 + 5).None? && PieceAt(b, r0 + 6).None? {
      var rookTile := PieceAt(b, r0 + 7);
      if rookTile.Some? && rookTile.value.isFirstMove {
        var onF := CalculateAttackOnTile(r0 + 5, opponentLegals);
        var onG := CalculateAttackOnTile(r0 + 6, opponentLegals);
        if onF == [] && onG == [] && rookTile.value.kind.IsRook() {
          r := Some(KingSideCastleMove(king, r0 + 6, rookTile.value, r0 + 7, r0 + 5));
        }
      }
    }
  }

  method CalculateQueenSideCastle(b: Board, a: Alliance, king: Piece, opponentLegals: seq<Move>)
    returns (r: Option<Move>)
    requires |b.tiles| == NumTiles
    ensures r == QueenSideCastle(b, a, king, opponentLegals)
  {
    r := None;
    var r0 := BackRank(a);
    if PieceAt(b, r0 + 3).None? && PieceAt(b, r0 + 2).None? && PieceAt(b, r0 + 1).None? {
      var rookTile := PieceAt(b, r0);
      if rookTile.Some? && rookTile.value.isFirstMove {
        var onC := CalculateAttackOnTile(r0 + 2, opponentLegals);
        var onD := CalculateAttackOnTile(r0 + 3, opponentLegals);
        if onC == [] && onD == [] && rookTile.value.kind.IsRook() {
          r := Some(QueenSideCastleMove(king, r0 + 2, rookTile.value, r0, r0 + 3));
        }
      }
    }
  }

  method CalculateKingCastles(b: Board, a: Alliance, king: Piece, isInCheck: bool, opponentLegals: seq<Move>)
    returns (kingCastles: seq<Move>)
    requires |b.tiles| == NumTiles
    ensures kingCastles == KingCastles(b, a, king, isInCheck, opponentLegals)
  {
    kingCastles := [];
    if king.isFirstMove && !isInCheck {
      var kingSide := CalculateKingSideCastle(b, a, king, opponentLegals);
      if kingSide.Some? {
        kingCastles := kingCastles + [kingSide.value];
      }
      var queenSide := CalculateQueenSideCastle(b, a, king, opponentLegals);
      if queenSide.Some? {
        kingCastles := kingCastles + [queenSide.value];
      }
    }
  }

  /** A player: the position, its side, its king, its legal moves (the standard moves
      followed by the castles) and whether it is in check. */
  datatype Player = Player(board: Board, alliance: Alliance, playerKing: Piece, legalMoves: seq<Move>, isInCheck: bool)

  /** The `Player` constructor. `calculateKingCastles` runs while the `isInCheck` field
      still holds its default, so the castles are computed as if the player were not
      in check. The constructor throws when the side has no king. */
  function NewPlayer(b: Board, a: Alliance, playerLegals: seq<Move>, opponentLegals: seq<Move>): (r: Option<Player>)
    requires |b.tiles| == NumTiles
    ensures r.None? <==> EstablishKing(b.PiecesOf(a)).None?
    ensures r.Some? ==>
      r.value.board == b && r.value.alliance == a &&
      r.value.playerKing.kind == King && r.value.playerKing in b.PiecesOf(a) &&
      |playerLegals| <= |r.value.legalMoves| <= |playerLegals| + 2 &&
      r.value.legalMoves[..|playerLegals|] == playerLegals &&
      (r.value.isInCheck <==> !Unattacked(r.value.playerKing.position, opponentLegals))
  {
    match EstablishKing(b.PiecesOf(a))
    case None => None
    case Some(king) =>
      var legals := playerLegals + KingCastles(b, a, king, false, opponentLegals);
      assert legals[..|playerLegals|] == playerLegals;
      var attacks := AttacksOnTile(king.position, opponentLegals);
      assert attacks != [] ==> attacks[0] in attacks;
      Some(Player(b, a, king, legals, attacks != []))
  }

  method CreatePlayer(b: Board, a: Alliance, playerLegals: seq<Move>, opponentLegals: seq<Move>)
    returns (r: Option<Player>)
    requires |b.tiles| == NumTiles
    ensures r == NewPlayer(b, a, playerLegals, opponentLegals)
  {
    var king := FindKing(b.PiecesOf(a));
    if king.None? {
      return None;
    }
    var castles := CalculateKingCastles(b, a, king.value, false, opponentLegals);
    var attacks := CalculateAttackOnTile(king.value.position, opponentLegals);
    r := Some(Player(b, a, king.value, playerLegals + castles, attacks != []));
  }

  /** The pieces of a constructed position stand on board squares. */
  lemma ValidOnBoard(b: Board)
    requires Valid(b)
    ensures |b.tiles| == NumTiles && OnBoard(b.whitePieces) && OnBoard(b.blackPieces)
  {
    PiecesPartitionBoard(b);
  }

  /** The standard moves of a side of a constructed position (`Board.calculateLegalMoves`). */
  function SideStandardMoves(b: Board, a: Alliance): seq<Move>
    requires Valid(b)
  {
    ValidOnBoard(b);
    StandardMoves(b, b.PiecesOf(a))
  }

  /** `whitePlayer()` / `blackPlayer()`: the player of side `a`, given its own standard
      moves and the opponent's. */
  function PlayerOf(b: Board, a: Alliance): (p: Player)
    requires Valid(b)
    ensures p.board == b && p.alliance == a && Some(p.playerKing) == EstablishKing(b.PiecesOf(a))
    ensures p.legalMoves ==
      SideStandardMoves(b, a) + KingCastles(b, a, p.playerKing, false, SideStandardMoves(b, a.Opposite()))
    ensures p.isInCheck <==>
      exists m :: m in SideStandardMoves(b, a.Opposite()) && Destination(m) == p.playerKing.position
  {
    ValidOnBoard(b);
    NewPlayer(b, a, SideStandardMoves(b, a), SideStandardMoves(b, a.Opposite())).value
  }

  /** `currentPlayer()`: the player of the side to move. */
  function CurrentPlayer(b: Board): (p: Player)
    requires Valid(b)
    ensures p.alliance == b.nextMoveMaker && p == PlayerOf(b, b.nextMoveMaker)
  {
    PlayerOf(b, b.nextMoveMaker)
  }

  /** `getOpponent()`: the other side's player of the same position. */
  function Opponent(p: Player): (o: Player)
    requires Valid(p.board)
    ensures o.board == p.board && o.alliance == p.alliance.Opposite()
  {
    PlayerOf(p.board, p.alliance.Opposite())
  }

  /** `getActivePieces()`: the player's side of the position; on a constructed position,
      exactly the pieces of the player's side standing on their own tiles. */
  function ActivePiecesOf(p: Player): (ps: seq<Piece>)
    ensures Valid(p.board) ==> forall q :: q in ps <==> q.alliance == p.alliance && OnTiles(p.board.tiles, q)
  {
    ActiveSideOnTiles(p.board, p.alliance);
    p.board.PiecesOf(p.alliance)
  }

  lemma ActiveSideOnTiles(b: Board, a: Alliance)
    ensures Valid(b) ==> forall q :: q in b.PiecesOf(a) <==> q.alliance == a && OnTiles(b.tiles, q)
  {
    if Valid(b) {
      ActivePiecesExactly(b.tiles, a);
    }
  }

  /** The king of a player the position constructs is among its active pieces. */
  lemma KingIsActive(b: Board, a: Alliance)
    requires Valid(b)
    ensures var p := PlayerOf(b, a);
      p.playerKing in ActivePiecesOf(p) && p.playerKing.kind == King && OnTiles(b.tiles, p.playerKing)
  {
  }

  /** `isMoveLegal`: `legalMoves.contains(move)`, which asks `move.equals` of each entry. */
  predicate IsMoveLegal(p: Player, m: Move) {
    exists i :: 0 <= i < |p.legalMoves| && MoveEquals(m, p.legalMoves[i])
  }

  datatype MoveStatus = Done | IllegalMove | LeavesPlayerInCheck {
    predicate IsDone() {
      this == Done
    }
  }

  datatype MoveTransition = MoveTransition(transitionBoard: Board, move: Move, moveStatus: MoveStatus)

  /** `makeMove`. An illegal move leaves the position as it was; a legal move is
      executed, and the result is refused when the new side to move then has a move onto
      the king of the side that moved. `None` is an exception thrown by `execute`. */
  function MakeMove(p: Player, m: Move): (r: Option<MoveTransition>)
    requires Valid(p.board)
  {
    if !IsMoveLegal(p, m) then Some(MoveTransition(p.board, m, IllegalMove))
    else
      match ExecuteSpec(p.board, m)
      case None => None
      case Some(tb) =>
        var current := CurrentPlayer(tb);
        var kingAttacks := AttacksOnTile(Opponent(current).playerKing.position, current.legalMoves);
        if kingAttacks != [] then Some(MoveTransition(p.board, m, LeavesPlayerInCheck))
        else Some(MoveTransition(tb, m, Done))
  }

  /** A move outside the legal list is refused and the position stays as it was. */
  lemma IllegalMoveRefused(p: Player, m: Move)
    requires Valid(p.board) && !IsMoveLegal(p, m)
    ensures MakeMove(p, m) == Some(MoveTransition(p.board, m, IllegalMove))
  {
  }

  lemma NoAttacksIff(c: int, moves: seq<Move>)
    ensures AttacksOnTile(c, moves) == [] <==> Unattacked(c, moves)
  {
    var attacks := AttacksOnTile(c, moves);
    assert attacks != [] ==> attacks[0] in attacks;
  }

  /** A legal move throws exactly when its execution does; otherwise it is DONE, with the
      executed position, exactly when the mover's king is not attacked afterwards, and
      else it is refused with the position unchanged. */
  lemma LegalMoveOutcome(p: Player, m: Move)
    requires Valid(p.board) && IsMoveLegal(p, m)
    ensures MakeMove(p, m).None? <==> ExecuteSpec(p.board, m).None?
    ensures MakeMove(p, m).Some? ==>
      var t := MakeMove(p, m).value;
      t.move == m && t.moveStatus != IllegalMove &&
      (t.moveStatus.IsDone() <==> KingSafeAfter(ExecuteSpec(p.board, m).value)) &&
      (t.moveStatus.IsDone() ==> Some(t.transitionBoard) == ExecuteSpec(p.board, m)) &&
      (!t.moveStatus.IsDone() ==> t.transitionBoard == p.board)
  {
    if ExecuteSpec(p.board, m).Some? {
      var tb := ExecuteSpec(p.board, m).value;
      var current := CurrentPlayer(tb);
      NoAttacksIff(Opponent(current).playerKing.position, current.legalMoves);
    }
  }

  /** After a move: no legal move of the new side to move lands on the king of the side
      that has just moved. */
  ghost predicate KingSafeAfter(tb: Board) {
    Valid(tb) &&
    var current := CurrentPlayer(tb);
    Unattacked(Opponent(current).playerKing.position, current.legalMoves)
  }

  /** The loop of `hasEscapeMoves` over `moves`: the first move whose `makeMove` is done
      answers true; an exception from `makeMove` ends the search with `None`. */
  function EscapeSearch(p: Player, moves: seq<Move>): Option<bool>
    requires Valid(p.board)
  {
    if moves == [] then Some(false)
    else
      match MakeMove(p, moves[0])
      case None => None
      case Some(t) => if t.moveStatus.IsDone() then Some(true) else EscapeSearch(p, moves[1..])
  }

  /** What `makeMove` answers the escape search: `None` when it throws, otherwise whether
      the move is DONE. */
  function Outcome(p: Player, m: Move): Option<bool>
    requires Valid(p.board)
  {
    match MakeMove(p, m)
    case None => None
    case Some(t) => Some(t.moveStatus.IsDone())
  }

  /** The move `m` can be made and its status is DONE. */
  ghost predicate Escapes(p: Player, m: Move)
    requires Valid(p.board)
  {
    Outcome(p, m) == Some(true)
  }

  /** The move `m` can be made: `makeMove` does not throw. */
  ghost predicate Makes(p: Player, m: Move)
    requires Valid(p.board)
  {
    Outcome(p, m).Some?
  }

  /** The outcome of each move, in order. */
  function Outcomes(p: Player, moves: seq<Move>): (r: seq<Option<bool>>)
    requires Valid(p.board)
    ensures |r| == |moves| && forall i :: 0 <= i < |moves| ==> r[i] == Outcome(p, moves[i])
  {
    if moves == [] then [] else [Outcome(p, moves[0])] + Outcomes(p, moves[1..])
  }

  /** The escape loop on outcomes: the first DONE answers true, the first exception
      ends the loop, and running out of outcomes answers false. */
  function FirstDone(outcomes: seq<Option<bool>>): Option<bool> {
    if outcomes == [] then Some(false)
    else
      match outcomes[0]
      case None => None
      case Some(done) => if done then Some(true) else FirstDone(outcomes[1..])
  }

  /** The search runs the loop on the outcomes of the moves. */
  lemma {:induction false} EscapeSearchOutcomes(p: Player, moves: seq<Move>)
    requires Valid(p.board)
    ensures EscapeSearch(p, moves) == FirstDone(Outcomes(p, moves))
  {
    if moves != [] {
      EscapeSearchOutcomes(p, moves[1..]);
      assert Outcomes(p, moves)[1..] == Outcomes(p, moves[1..]);
    }
  }

  /** The loop answers true exactly when some outcome is DONE and every earlier one is
      not an exception. */
  lemma {:induction false} FirstDoneTrue(outcomes: seq<Option<bool>>)
    ensures FirstDone(outcomes) == Some(true) <==>
      exists i :: 0 <= i < |outcomes| && outcomes[i] == Some(true) &&
        forall j :: 0 <= j < i ==> outcomes[j].Some?
  {
    if outcomes != [] && outcomes[0] == Some(false) {
      var rest := outcomes[1..];
      FirstDoneTrue(rest);
      if FirstDone(rest) == Some(true) {
        var i :| 0 <= i < |rest| && rest[i] == Some(true) && forall j :: 0 <= j < i ==> rest[j].Some?;
        assert outcomes[i + 1] == Some(true);
        assert forall j :: 0 < j < i + 1 ==> outcomes[j] == rest[j - 1];
      } else {
        forall i | 0 <= i < |outcomes| && outcomes[i] == Some(true)
          ensures exists j :: 0 <= j < i && outcomes[j].None?
        {
          assert i > 0 && rest[i - 1] == outcomes[i];
          var k :| 0 <= k < i - 1 && rest[k].None?;
          assert outcomes[k + 1] == rest[k];
        }
      }
    }
  }

  /** The loop answers false exactly when every outcome is a move that is not DONE. */
  lemma {:induction false} FirstDoneFalse(outcomes: seq<Option<bool>>)
    ensures FirstDone(outcomes) == Some(false) <==> forall i :: 0 <= i < |outcomes| ==> outcomes[i] == Some(false)
  {
    if outcomes != [] && outcomes[0] == Some(false) {
      var rest := outcomes[1..];
      FirstDoneFalse(rest);
      assert forall i :: 0 < i < |outcomes| ==> outcomes[i] == rest[i - 1];
    }
  }

  /** Outcome `i` is DONE exactly when move `i` escapes, and is not an exception exactly
      when move `i` can be made. */
  lemma OutcomesMeaning(p: Player, moves: seq<Move>)
    requires Valid(p.board)
    ensures forall i :: 0 <= i < |moves| ==>
      (Outcomes(p, moves)[i] == Some(true) <==> Escapes(p, moves[i])) &&
      (Outcomes(p, moves)[i].Some? <==> Makes(p, moves[i]))
  {
  }

  /** The search answers true exactly when some move escapes and every earlier move
      can be made. */
  lemma EscapeSearchTrue(p: Player, moves: seq<Move>)
    requires Valid(p.board)
    ensures EscapeSearch(p, moves) == Some(true) <==>
      exists i :: 0 <= i < |moves| && Escapes(p, moves[i]) && forall j :: 0 <= j < i ==> Makes(p, moves[j])
  {
    EscapeSearchOutcomes(p, moves);
    OutcomesTrue(p, moves);
  }

  lemma OutcomesTrue(p: Player, moves: seq<Move>)
    requires Valid(p.board)
    ensures FirstDone(Outcomes(p, moves)) == Some(true) <==>
      exists i :: 0 <= i < |moves| && Escapes(p, moves[i]) && forall j :: 0 <= j < i ==> Makes(p, moves[j])
  {
    var outcomes := Outcomes(p, moves);
    FirstDoneTrue(outcomes);
    OutcomesMeaning(p, moves);
  }

  /** The search answers false exactly when every move can be made and none escapes. */
  lemma EscapeSearchFalse(p: Player, moves: seq<Move>)
    requires Valid(p.board)
    ensures EscapeSearch(p, moves) == Some(false) <==>
      forall i :: 0 <= i < |moves| ==> Makes(p, moves[i]) && !Escapes(p, moves[i])
  {
    EscapeSearchOutcomes(p, moves);
    OutcomesFalse(p, moves);
  }

  lemma OutcomesFalse(p: Player, moves: seq<Move>)
    requires Valid(p.board)
    ensures FirstDone(Outcomes(p, moves)) == Some(false) <==>
      forall i :: 0 <= i < |moves| ==> Makes(p, moves[i]) && !Escapes(p, moves[i])
  {
    FirstDoneFalse(Outcomes(p, moves));
    OutcomesMeaning(p, moves);
  }

  /** `hasEscapeMoves`. */
  method HasEscapeMoves(p: Player) returns (r: Option<bool>)
    requires Valid(p.board)
    ensures r == EscapeSearch(p, p.legalMoves)
  {
    var i := 0;
    while i < |p.legalMoves|
      invariant 0 <= i <= |p.legalMoves|
      invariant EscapeSearch(p, p.legalMoves) == EscapeSearch(p, p.legalMoves[i..])
    {
      var transition := MakeMove(p, p.legalMoves[i]);
      if transition.None? {
        return None;
      }
      if transition.value.moveStatus.IsDone() {
        return Some(true);
      }
      assert p.legalMoves[i..][1..] == p.legalMoves[i + 1..];
      i := i + 1;
    }
    return Some(false);
  }

  /** `isInCheckMate`: in check and no escape move; the escape search runs only when the
      player is in check. */
  function IsInCheckMate(p: Player): Option<bool>
    requires Valid(p.board)
  {
    if !p.isInCheck then Some(false)
    else
      match EscapeSearch(p, p.legalMoves)
      case None => None
      case Some(e) => Some(!e)
  }

  /** `isInStaleMate`: not in check and no escape move. */
  function IsInStaleMate(p: Player): Option<bool>
    requires Valid(p.board)
  {
    if p.isInCheck then Some(false)
    else
      match EscapeSearch(p, p.legalMoves)
      case None => None
      case Some(e) => Some(!e)
  }

  /** Checkmate needs check and stalemate needs its absence, so a player is never
      reported both; each is reported exactly when every legal move can be made and
      none escapes. */
  lemma MateAndStalemateExclusive(p: Player)
    requires Valid(p.board)
    ensures !(IsInCheckMate(p) == Some(true) && IsInStaleMate(p) == Some(true))
    ensures IsInCheckMate(p) == Some(true) <==>
      p.isInCheck && forall i :: 0 <= i < |p.legalMoves| ==> Makes(p, p.legalMoves[i]) && !Escapes(p, p.legalMoves[i])
    ensures IsInStaleMate(p) == Some(true) <==>
      !p.isInCheck && forall i :: 0 <= i < |p.legalMoves| ==> Makes(p, p.legalMoves[i]) && !Escapes(p, p.legalMoves[i])
  {
    EscapeSearchFalse(p, p.legalMoves);
  }

  /** `isCasteled`: the base class never reports a castled player. */
  predicate IsCastled(p: Player) {
    false
  }

  /** `Board.getAllLegalMoves`: White's legal moves followed by Black's. */
  function AllLegalMoves(b: Board): seq<Move>
    requires Valid(b)
  {
    PlayerOf(b, White).legalMoves + PlayerOf(b, Black).legalMoves
  }

  /** The move leaves square `c` for square `d`. */
  predicate Connects(m: Move, c: int, d: int) {
    CurrentCoordinate(m) == c && Destination(m) == d
  }

  /** The search of `MoveFactory.createMove`: the first move from `c` to `d`, else the
      null move. */
  function FirstMatch(moves: seq<Move>, c: int, d: int): (r: Move)
    ensures r != NullMove ==> r in moves && Connects(r, c, d)
    ensures (exists m :: m in moves && Connects(m, c, d)) ==> Connects(r, c, d)
    ensures (forall m :: m in moves ==> !Connects(m, c, d)) ==> r == NullMove
  {
    if moves == [] then NullMove
    else if Connects(moves[0], c, d) then moves[0]
    else
      var r := FirstMatch(moves[1..], c, d);
      assert forall m :: m in moves[1..] ==> m in moves;
      assert forall m :: m in moves ==> m == moves[0] || m in moves[1..];
      r
  }

  /** The search returns the earliest move from `c` to `d`. */
  lemma {:induction false} FirstMatchIsFirst(moves: seq<Move>, c: int, d: int, i: int)
    requires 0 <= i < |moves| && Connects(moves[i], c, d)
    requires forall j :: 0 <= j < i ==> !Connects(moves[j], c, d)
    ensures FirstMatch(moves, c, d) == moves[i]
  {
    if i > 0 {
      FirstMatchIsFirst(moves[1..], c, d, i - 1);
    }
  }

  /** `MoveFactory.createMove`. */
  method CreateMove(b: Board, c: int, d: int) returns (r: Move)
    requires Valid(b)
    ensures r == FirstMatch(AllLegalMoves(b), c, d)
  {
    r := FindMove(AllLegalMoves(b), c, d);
  }

  /** The loop of `createMove` over the board's legal moves. */
  method FindMove(moves: seq<Move>, c: int, d: int) returns (r: Move)
    ensures r == FirstMatch(moves, c, d)
  {
    var i := 0;
    while i < |moves|
      invariant 0 <= i <= |moves|
      invariant FirstMatch(moves, c, d) == FirstMatch(moves[i..], c, d)
    {
      if CurrentCoordinate(moves[i]) == c && Destination(moves[i]) == d {
        return moves[i];
      }
      assert moves[i..][1..] == moves[i + 1..];
      i := i + 1;
    }
    return NullMove;
  }
}
