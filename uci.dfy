/** Reading a move written in UCI long algebraic notation ("e2e4", "e7e8q") against a
    position. A Java exception thrown while parsing is `None`; a Java `null` string is
    `None` as input. */
module Uci {
  import opened Wrappers
  import opened Pieces
  import opened BoardUtils
  import opened Moves
  import opened Boards

  /** `getCoordinateFromUci`: file 'a'..'h' is the column and rank '8'..'1' the row, row 0
      being Black's back rank. Other characters give coordinates off the board. */
  function CoordinateFromUci(square: string): int
    requires |square| >= 2
  {
    var columnIndex := square[0] as int - 'a' as int;
    var rowIndex := 8 - (square[1] as int - '0' as int);
    rowIndex * 8 + columnIndex
  }

  /** A square name: a file letter followed by a rank digit. */
  predicate IsUciSquare(square: string) {
    |square| == 2 && 'a' <= square[0] <= 'h' && '1' <= square[1] <= '8'
  }

  /** The name of a square, the inverse of `CoordinateFromUci`. */
  function UciSquare(c: int): (square: string)
    requires IsValidTileCoordinate(c)
    ensures IsUciSquare(square)
  {
    [('a' as int + c % 8) as char, ('0' as int + 8 - c / 8) as char]
  }

  /** Naming a square and reading the name back gives the square. */
  lemma SquareRoundTrip(c: int)
    requires IsValidTileCoordinate(c)
    ensures CoordinateFromUci(UciSquare(c)) == c
  {
    var s := UciSquare(c);
    assert s[0] as int - 'a' as int == c % 8;
    assert 8 - (s[1] as int - '0' as int) == c / 8;
  }

  /** Every square name reads as a tile of the board, and that tile's name is the name
      read: the 64 names and the 64 tiles are in one-to-one correspondence. */
  lemma CoordinateRoundTrip(square: string)
    requires IsUciSquare(square)
    ensures IsValidTileCoordinate(CoordinateFromUci(square))
    ensures UciSquare(CoordinateFromUci(square)) == square
  {
    var c := CoordinateFromUci(square);
    var column := square[0] as int - 'a' as int;
    var row := 8 - (square[1] as int - '0' as int);
    assert 0 <= column < 8 && 0 <= row < 8;
    assert c % 8 == column && c / 8 == row;
    var t := UciSquare(c);
    assert t[0] == square[0] && t[1] == square[1];
  }

  /** `createPromotionPiece`: q, r, b and n give a queen, rook, bishop and knight of the
      pawn's side on the destination; any other letter throws. */
  function PromotionPiece(letter: char, alliance: Alliance, destination: int): (r: Option<Piece>)
    ensures r.Some? <==> letter == 'q' || letter == 'r' || letter == 'b' || letter == 'n'
    ensures r.Some? ==> r.value.position == destination && r.value.alliance == alliance &&
                        r.value.kind != Pawn && r.value.kind != King
  {
    match letter
    case 'q' => Some(NewQueen(destination, alliance))
    case 'r' => Some(NewRook(destination, alliance))
    case 'b' => Some(NewBishop(destination, alliance))
    case 'n' => Some(NewKnight(destination, alliance))
    case _ => None
  }

  /** The four castle strings. */
  predicate IsKingSideCastleString(s: string) {
    s == "e1g1" || s == "e8g8"
  }

  predicate IsQueenSideCastleString(s: string) {
    s == "e1c1" || s == "e8c8"
  }

  /** `Board.getPieceAt`, which `Board` does not define, read as `getTile(c).getPiece()`;
      coordinates off the board are not reached from the castle strings. */
  function PieceOn(b: Board, c: int): Option<Piece>
    requires |b.tiles| == NumTiles
  {
    if IsValidTileCoordinate(c) then PieceAt(b, c) else None
  }

  /** `parseMove`. The castle strings are checked before promotion, en passant and
      capture; the promotion letter is read before the mover is known to be a pawn;
      a castle string whose rook square holds no rook throws. With `getPieceAt` read as
      `getTile(c).getPiece()`, a square off the board throws too. */
  function ParseMove(b: Board, uciMove: Option<string>): (r: Option<Move>)
    requires |b.tiles| == NumTiles
  {
    if uciMove.None? || |uciMove.value| < 4 then Some(NullMove)
    else
      var s := uciMove.value;
      var from := CoordinateFromUci(s[..2]);
      var to := CoordinateFromUci(s[2..4]);
      if !IsValidTileCoordinate(from) then None
      else if PieceAt(b, from).None? then Some(NullMove)
      else
        var moved := PieceAt(b, from).value;
        if IsKingSideCastleString(s) then
          var rook := PieceOn(b, to + 1);
          if rook.Some? && rook.value.kind == Rook
          then Some(KingSideCastleMove(moved, to, rook.value, rook.value.position, to - 1))
          else None
        else if IsQueenSideCastleString(s) then
          var rook := PieceOn(b, to - 2);
          if rook.Some? && rook.value.kind == Rook
          then Some(QueenSideCastleMove(moved, to, rook.value, rook.value.position, to + 1))
          else None
        else if |s| == 5 && PromotionPiece(s[4], moved.alliance, to).None? then None
        else if |s| == 5 && moved.kind == Pawn then
          Some(PawnPromotion(PawnMove(moved, to), PromotionPiece(s[4], moved.alliance, to).value))
        else if moved.kind == Pawn && b.enPassantPawn.Some? && b.enPassantPawn.value.position == to then
          Some(PawnEnPassantAttackMove(moved, to, b.enPassantPawn.value))
        else if !IsValidTileCoordinate(to) then None
        else if PieceAt(b, to).Some? then Some(AttackMove(moved, to, PieceAt(b, to).value))
        else Some(MajourMove(moved, to))
  }

  /** The null move comes back exactly for a missing or short string and for an empty
      origin square; every other move that comes back moves the piece on the origin
      square to the destination the string names. */
  lemma ParseMoveMeaning(b: Board, uciMove: Option<string>)
    requires |b.tiles| == NumTiles
    ensures ParseMove(b, uciMove) == Some(NullMove) <==>
      uciMove.None? || |uciMove.value| < 4 ||
      (IsValidTileCoordinate(CoordinateFromUci(uciMove.value[..2])) &&
       PieceAt(b, CoordinateFromUci(uciMove.value[..2])).None?)
    ensures ParseMove(b, uciMove).Some? && ParseMove(b, uciMove) != Some(NullMove) ==>
      var s := uciMove.value;
      |s| >= 4 && IsValidTileCoordinate(CoordinateFromUci(s[..2])) &&
      MovedPieceOf(ParseMove(b, uciMove).value) == PieceAt(b, CoordinateFromUci(s[..2])) &&
      Destination(ParseMove(b, uciMove).value) == CoordinateFromUci(s[2..4])
  {
  }

  /** A castle string names the king-side castle with the rook taken from beyond the
      king's destination and placed beside it on the other side, or the queen-side
      castle with the rook taken from two squares beyond and placed on the square the
      king crossed; without a rook there the parse throws. */
  lemma CastleStrings(b: Board, s: string)
    requires WellFormedTiles(b.tiles)
    requires IsKingSideCastleString(s) || IsQueenSideCastleString(s)
    requires PieceAt(b, CoordinateFromUci(s[..2])).Some?
    ensures var to := CoordinateFromUci(s[2..4]);
      var r := ParseMove(b, Some(s));
      if IsKingSideCastleString(s) then
        (r.Some? <==> PieceAt(b, to + 1).Some? && PieceAt(b, to + 1).value.kind == Rook) &&
        (r.Some? ==> r.value.KingSideCastleMove? && r.value.castleRookStart == to + 1 &&
                     r.value.castleRookDestination == to - 1 && r.value.castleRook == PieceAt(b, to + 1).value)
      else
        (r.Some? <==> PieceAt(b, to - 2).Some? && PieceAt(b, to - 2).value.kind == Rook) &&
        (r.Some? ==> r.value.QueenSideCastleMove? && r.value.castleRookStart == to - 2 &&
                     r.value.castleRookDestination == to + 1 && r.value.castleRook == PieceAt(b, to - 2).value)
  {
    var to := CoordinateFromUci(s[2..4]);
    var rook := if IsKingSideCastleString(s) then to + 1 else to - 2;
    assert IsValidTileCoordinate(rook);
  }

  /** Writing a move in UCI and parsing it back gives a move of the piece on the origin
      square to the named destination: a pawn moving onto the square of the pawn that may
      be taken en passant takes that pawn en passant; otherwise a capture of the piece
      standing on the destination, or a quiet move when it is empty. */
  lemma ParseRoundTrip(b: Board, from: int, to: int)
    requires |b.tiles| == NumTiles && IsValidTileCoordinate(from) && IsValidTileCoordinate(to)
    requires PieceAt(b, from).Some?
    requires var s := UciSquare(from) + UciSquare(to); !IsKingSideCastleString(s) && !IsQueenSideCastleString(s)
    ensures var moved := PieceAt(b, from).value;
      var r := ParseMove(b, Some(UciSquare(from) + UciSquare(to)));
      r == Some(if moved.kind == Pawn && b.enPassantPawn.Some? && b.enPassantPawn.value.position == to
                then PawnEnPassantAttackMove(moved, to, b.enPassantPawn.value)
                else if PieceAt(b, to).Some? then AttackMove(moved, to, PieceAt(b, to).value)
                else MajourMove(moved, to))
  {
    var s := UciSquare(from) + UciSquare(to);
    assert s[..2] == UciSquare(from) && s[2..4] == UciSquare(to);
    SquareRoundTrip(from);
    SquareRoundTrip(to);
  }

  /** A pawn move written with a promotion letter parses to a promotion of that pawn into
      the named piece; an unknown letter makes the parse throw whatever the piece; a known
      letter after the move of another piece is ignored, giving its capture or quiet move. */
  lemma PromotionStrings(b: Board, from: int, to: int, letter: char)
    requires |b.tiles| == NumTiles && IsValidTileCoordinate(from) && IsValidTileCoordinate(to)
    requires PieceAt(b, from).Some?
    requires var s := UciSquare(from) + UciSquare(to) + [letter]; !IsKingSideCastleString(s) && !IsQueenSideCastleString(s)
    ensures var moved := PieceAt(b, from).value;
      var r := ParseMove(b, Some(UciSquare(from) + UciSquare(to) + [letter]));
      (PromotionPiece(letter, moved.alliance, to).None? ==> r.None?) &&
      (PromotionPiece(letter, moved.alliance, to).Some? && moved.kind == Pawn ==>
        r == Some(PawnPromotion(PawnMove(moved, to), PromotionPiece(letter, moved.alliance, to).value))) &&
      (PromotionPiece(letter, moved.alliance, to).Some? && moved.kind != Pawn ==>
        r == Some(if PieceAt(b, to).Some? then AttackMove(moved, to, PieceAt(b, to).value)
                  else MajourMove(moved, to)))
  {
    var s := UciSquare(from) + UciSquare(to) + [letter];
    assert s[..2] == UciSquare(from) && s[2..4] == UciSquare(to) && s[4] == letter;
    SquareRoundTrip(from);
    SquareRoundTrip(to);
  }
}
