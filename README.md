# A verified model of a Java chess engine's core

This project models the core of a small Java chess engine in Dafny and proves properties of the model. The engine stores a position as 64 tiles numbered 0 (a8) to 63 (h1). It generates the moves of knights, kings, pawns and the sliding pieces (bishop, rook, queen). It executes moves by rebuilding a new `Board` through a `Board.Builder`, and decides whether a move is legal by checking that the mover's king is not attacked afterwards. It also models:

- the `StandardBoardEvaluator` scoring terms;
- the `MiniMax` search;
- a UCI move parser;
- an opening book read from a text file.

Several Java mechanisms are modelled explicitly:

- **Exceptions become `None`.** A Java exception becomes `None` in an `Option` result. This covers:
  - the `RuntimeException` `establishKing` throws when a side has no king;
  - a `NullPointerException` when no side to move is set;
  - a failed `Integer.parseInt`;
  - an invalid promotion letter;
  - a failed `(Rook)` cast.
- **`null` becomes `None`.** A Java `null` is `None` too, or the `NullMove` value where the source returns `Move.NULL_MOVE`.
- **32-bit integers wrap.** Java `int` arithmetic wraps, and `JavaInts.Wrap32` models that wrap-around. Dafny integers are otherwise unbounded.
- **Mutable builders are classes.** The classes the source updates in place are Dafny classes with `modifies` clauses:
  - `Board.Builder` is `Boards.Builder`;
  - the opening book's map is `OpeningBooks.OpeningBook`.
- **Loops are methods with invariants.** Every loop the source runs is a `method` with loop invariants. Each such method is proved equal to a specification function, and the lemmas are proved about that function.

Modules follow the Java packages:

- `Pieces`, `Tiles`, `Boards`, `Moves`, `Execution` and `ExecutionProperties` cover `Piece`, `Tile`, `Board` and `Move`.
- `Knights`, `Kings`, `Pawns`, `Sliding` and `Generation` cover the piece move generators.
- `Players` and `PlayerProperties` cover `Player` and `WhitePlayer`.
- `Evaluator` covers `StandardBoardEvaluator`.
- `MiniMax` covers `MiniMax`.
- `Uci` covers `UciParser`.
- `OpeningBooks` covers `OpeningBook`.
- `JavaStrings` holds `trim`, `split`, `String.join` and `Integer.parseInt`, which `OpeningBook` relies on.

Several behaviours of the source are modelled as written, with lemmas that exhibit them:

- **White pawn on the second rank (`Pawns.SecondRankWhitePawnNeverCaptures`, `Pawns.WhitePawnOnH2ReachesA2`).** The double-push condition in `Pawn.calculateLegalMoves` is missing parentheses. A white pawn on its second rank therefore takes the double-push branch for every offset except an unblocked single push. It cannot capture diagonally, and it may be offered a "move" along its own rank.
- **Castling ignores check (`PlayerProperties.CastlingIgnoresCheck`).** `Player`'s constructor computes the castles before it sets `isInCheck`, so the castles are computed as if the player were not in check.
- **Constructed kings never castle (`PlayerProperties.ConstructedKingNeverCastles`).** The public `King` constructor clears the first-move flag, so a constructed king is never offered a castle.
- **`PawnJump` equality is asymmetric (`Moves.PawnJumpEqualityIsAsymmetric`).** `PawnJump` does not override `equals`, so the equality between moves is not symmetric.
- **`MiniMax.execute` returns `null` (`MiniMax.Execute`).** It always returns `null` after searching. `MiniMax.SelectBestMove` states what the search selects.
- **Checkmate is counted twice (`Evaluator.MateCountedTwice`).** The scorer counts a checkmate bonus twice: once in `kingThreats` and once in `checkMate`.

## Model

| member | source | states |
|---|---|---|
| Pieces.PieceType.Name | src/com/chess/engine/pieces/Piece.java:134-143 | each piece type's name is a lower-case letter |
| Pieces.NamesAreDistinct | src/com/chess/engine/pieces/Piece.java:70-143 | two piece types share a name exactly when they are the same type |
| Pieces.NewPiece | src/com/chess/engine/pieces/Piece.java:17-23 | a new piece has the given type, square and side, and its first-move flag is cleared |
| Pieces.ThreeArgumentKindsNeverFirstMove | src/com/chess/engine/pieces/Piece.java:17-23 | pawns, kings and bishops from the public constructors never have the first-move flag; the two-argument knight and rook constructors set it |
| Pieces.PieceEqualsIsValueEquality | src/com/chess/engine/pieces/Piece.java:33-44 | `equals` (same square, type, side and flag) holds exactly for equal values, so it is reflexive and symmetric |
| Pieces.EqualPiecesHashEqually | src/com/chess/engine/pieces/Piece.java:26-32 | pieces that are `equals` have the same 32-bit hash code |
| Pieces.MovedPiece | src/com/chess/engine/pieces/Pawn.java:73-76 | `movePiece` gives a piece of the same type and side on the destination square, without the first-move flag |
| Tiles.Tile.GetPiece | src/com/chess/engine/board/Tile.java:51-81 | a tile has a piece exactly when it is occupied, and an occupied tile returns its own piece |
| Tiles.CreateAllPossibleEmptyTiles | src/com/chess/engine/board/Tile.java:18-26 | the cache has exactly the squares 0..63, each mapped to its own empty tile |
| Tiles.CreateTile | src/com/chess/engine/board/Tile.java:28-30 | a piece gives an occupied tile holding it; no piece gives the cached empty tile, which exists only for a valid square |
| Tiles.TileText | src/com/chess/engine/board/Tile.java:46-76 | one character: "-" for an empty tile, the piece letter in lower case for Black and in upper case for White |
| Boards.PlaceAll | src/com/chess/engine/board/Board.java:142-145 | placing pieces keeps every entry keyed by its piece's own square |
| Boards.PlaceAllLookup | src/com/chess/engine/board/Board.java:142-145 | after `setPiece` on a sequence, a square holds the last piece placed on it, or what it held before |
| Boards.Builder.constructor | src/com/chess/engine/board/Board.java:138-140 | a new builder has an empty configuration and no side to move, en-passant pawn or transition move |
| Boards.Builder.SetPiece | src/com/chess/engine/board/Board.java:142-145 | the piece is stored under its own square, replacing what was there; nothing else changes |
| Boards.Builder.SetMoveMaker | src/com/chess/engine/board/Board.java:147-150 | the side to move is set; nothing else changes |
| Boards.Builder.SetEnPassantPawn | src/com/chess/engine/board/Board.java:157-159 | the en-passant pawn is set; nothing else changes |
| Boards.Builder.SetMoveTransition | src/com/chess/engine/board/Move.java:100 | the transition move is set; nothing else changes |
| Boards.Builder.Build | src/com/chess/engine/board/Board.java:153-155 | building yields exactly the board of the configuration, side to move, en-passant pawn and transition move |
| Boards.TileFor | src/com/chess/engine/board/Board.java:118-125 | the tile at a square is the one `createTile` makes from the piece stored there |
| Boards.GameBoard | src/com/chess/engine/board/Board.java:118-125 | 64 tiles, tile i made from the piece stored at i; tiles are well formed when the configuration is keyed by square |
| Boards.CreateGameBoard | src/com/chess/engine/board/Board.java:118-125 | the loop builds exactly those 64 tiles |
| Boards.ActivePieces | src/com/chess/engine/board/Board.java:104-116 | the active pieces of a side all belong to that side, at most one per tile |
| Boards.CalculateActivePieces | src/com/chess/engine/board/Board.java:104-116 | the loop collects exactly the active pieces |
| Boards.ActivePiecesExactly | src/com/chess/engine/board/Board.java:104-116 | a piece is active for a side exactly when it stands on its tile and belongs to that side; the list is in square order |
| Boards.ActivePiecesAt | src/com/chess/engine/board/Board.java:104-116 | the active piece of a side on a square is the tile's piece when it belongs to that side, else none |
| Boards.EstablishKing | src/com/chess/engine/player/Player.java:46-54 | the king found is one of the pieces and is a king; none is found exactly when no piece is a king |
| Boards.FindKing | src/com/chess/engine/player/Player.java:46-54 | the loop returns the first king, as `establishKing` does |
| Boards.BuildBoard | src/com/chess/engine/board/Board.java:37-51 | a built board is valid: tiles from the configuration, each side's active pieces, both kings present, fields as given |
| Boards.KingFoundIffOnBoard | src/com/chess/engine/player/Player.java:46-54 | `establishKing` succeeds on a built board exactly when the configuration holds a king of that side on a valid square |
| Boards.BuildSucceedsIffKings | src/com/chess/engine/board/Board.java:37-51 | a board is built exactly when a side to move is set and both sides have a king; otherwise construction throws |
| Boards.PiecesPartitionBoard | src/com/chess/engine/board/Board.java:38-40 | no piece is on both sides; every occupied tile's piece is active; every active piece stands on its own tile |
| Moves.MovedPieceOf | src/com/chess/engine/board/Move.java:74-76 | a move's piece is the piece it was built with; a promotion's is that of the move it wraps; only the null move, or a promotion wrapping one, has none |
| Moves.OnlyNullMoveHasNoPiece | src/com/chess/engine/board/Move.java:21-28 | of the moves Java can build (a promotion never wraps the null move, whose missing piece the constructor would dereference), only the null move has no piece, and every other move's piece is that of its innermost move |
| Moves.CurrentCoordinate | src/com/chess/engine/board/Move.java:66-68 | the origin is the moved piece's square; -1 for the null move |
| Moves.Destination | src/com/chess/engine/board/Move.java:70-72 | a move's destination is the square it was built with; a promotion's is that of the move it wraps; the null move's is 65 |
| Moves.AttackedPieceOf | src/com/chess/engine/board/Move.java:86-88 | a move has an attacked piece exactly when `isAttack` holds |
| Moves.AttackAndCastleQueries | src/com/chess/engine/board/Move.java:78-84 | attacks are the attack kinds or promotions of attacks; castles are neither attacks nor have a captured piece |
| Moves.EqualMovesShareEndpoints | src/com/chess/engine/board/Move.java:51-64 | equal moves share origin, destination and moved piece; equal attacks share the captured piece |
| Moves.MoveEqualsReflexive | src/com/chess/engine/board/Move.java:51-64 | every move equals itself |
| Moves.EqualityDemandsSameKind | src/com/chess/engine/board/Move.java:111-114 | for kinds whose `equals` checks the class, equal moves are of the same kind |
| Moves.PawnJumpEqualityIsAsymmetric | src/com/chess/engine/board/Move.java:311-337 | a pawn jump equals the quiet move with the same endpoints, but not the other way round |
| Execution.Keep | src/com/chess/engine/board/Move.java:96 | the filter keeps exactly the pieces other than the moved (and captured) piece |
| Execution.StandardConfig | src/com/chess/engine/board/Move.java:94-98 | the configuration an ordinary execution builds is keyed by square |
| Execution.CastleConfig | src/com/chess/engine/board/Move.java:364-374 | the configuration a castle builds is keyed by square |
| Execution.StandardExecute | src/com/chess/engine/board/Move.java:94-102 | a board built by an ordinary execution is valid and records the move as its transition |
| Execution.CastleExecute | src/com/chess/engine/board/Move.java:364-378 | a board built by a castle is valid and records the move |
| Execution.PromotionRebuild | src/com/chess/engine/board/Move.java:198-209 | a board rebuilt by a promotion is valid and records the promotion |
| Execution.ExecuteSpec | src/com/chess/engine/board/Move.java:444-457 | the null move cannot be executed; any executed board is valid and records the move |
| Execution.SetPieces | src/com/chess/engine/board/Move.java:97 | placing a side's pieces one by one gives the `PlaceAll` configuration |
| Execution.SetPiecesExcept | src/com/chess/engine/board/Move.java:96 | placing the filtered pieces gives the `PlaceAll` of the kept ones |
| Execution.BuildStandard | src/com/chess/engine/board/Move.java:94-102 | the builder code of `execute` computes `StandardExecute` |
| Execution.BuildCastle | src/com/chess/engine/board/Move.java:364-378 | the builder code of a castle computes `CastleExecute` |
| Execution.BuildPromotion | src/com/chess/engine/board/Move.java:198-209 | the builder code of a promotion computes `PromotionRebuild` |
| Execution.Execute | src/com/chess/engine/board/Move.java:94-102 | executing any move kind yields `ExecuteSpec` |
| ExecutionProperties.ValidSidesDistinct | src/com/chess/engine/board/Board.java:104-116 | on a valid board no two active pieces share a square |
| ExecutionProperties.StandardExecuteEffect | src/com/chess/engine/board/Move.java:94-102 | after an ordinary execution the destination holds the moved piece, the origin and the captured square are empty, every other square is unchanged, and the other side moves |
| ExecutionProperties.StandardExecuteSucceeds | src/com/chess/engine/board/Move.java:94-101 | an ordinary execution that captures no king builds a board |
| ExecutionProperties.OrdinaryExecute | src/com/chess/engine/board/Move.java:318-330 | quiet, attack and pawn moves run the base `execute`; a pawn jump also records the moved pawn as en-passant pawn |
| ExecutionProperties.OrdinaryMoveEffect | src/com/chess/engine/board/Move.java:94-102 | square by square result of a non-capturing ordinary move, with the new en-passant pawn |
| ExecutionProperties.EnPassantEffect | src/com/chess/engine/board/Move.java:293-302 | an en-passant capture empties the origin and the captured pawn's square and places the pawn on the destination |
| ExecutionProperties.PromotionExecute | src/com/chess/engine/board/Move.java:198-209 | a promotion executes the wrapped pawn move, then rebuilds with the promoted piece |
| ExecutionProperties.RebuildSucceeds | src/com/chess/engine/board/Move.java:202-208 | the rebuild succeeds unless it would overwrite a king |
| ExecutionProperties.RebuildAt | src/com/chess/engine/board/Move.java:202-208 | after the rebuild the destination holds the promoted piece and every other square is unchanged |
| ExecutionProperties.PromotionSucceeds | src/com/chess/engine/board/Move.java:198-209 | a promotion of the mover's pawn to an empty or non-king square executes |
| ExecutionProperties.PromotionEffect | src/com/chess/engine/board/Move.java:198-209 | after a promotion the destination holds the new piece, the pawn's square is empty and the rest is unchanged |
| ExecutionProperties.CastleSucceeds | src/com/chess/engine/board/Move.java:364-378 | a castle with its king and rook on the board and free destinations executes |
| ExecutionProperties.CastleEffect | src/com/chess/engine/board/Move.java:364-378 | after a castle the king and the rook, both without the first-move flag, stand on their destinations, their origins are empty, the rest is unchanged |
| ExecutionProperties.NullMoveFails | src/com/chess/engine/board/Move.java:449-452 | executing the null move always fails |
| Generation.PieceCalculateLegalMoves | src/com/chess/engine/board/Board.java:91-98 | the dispatch to each piece type yields that type's move list |
| Generation.CalculateLegalMoves | src/com/chess/engine/board/Board.java:91-98 | the loop over a side's pieces yields the concatenation of their move lists |
| Generation.PieceMovesOk | src/com/chess/engine/board/Board.java:91-98 | every move a piece generates moves that piece to another valid square not held by its own side, capturing exactly the piece there |
| Generation.StandardMovesOk | src/com/chess/engine/board/Board.java:91-98 | every move of a side comes from one of its pieces in that way |
| Generation.StandardMovesAppend | src/com/chess/engine/board/Board.java:91-98 | one more piece appends exactly its own moves |
| Knights.KnightStep | src/com/chess/engine/pieces/Knight.java:35-56 | each offset contributes at most one move |
| Knights.CalculateLegalMoves | src/com/chess/engine/pieces/Knight.java:29-61 | the loop yields the specified knight moves |
| Knights.StepIsKnightMove | src/com/chess/engine/pieces/Knight.java:35-56 | an offset's move is a knight jump to a valid square; quiet exactly when the square is empty, otherwise a capture of an enemy |
| Knights.KnightMovesSound | src/com/chess/engine/pieces/Knight.java:29-61 | all knight moves are such jumps, at most one per offset |
| Kings.KingStep | src/com/chess/engine/pieces/King.java:28-51 | each offset contributes at most one move |
| Kings.CalculateLegalMoves | src/com/chess/engine/pieces/King.java:23-55 | the loop yields the specified king moves |
| Kings.StepIsKingMove | src/com/chess/engine/pieces/King.java:28-51 | an offset's move goes one square in any direction; quiet exactly when empty, otherwise an `AttackMove` of an enemy |
| Kings.KingMovesSound | src/com/chess/engine/pieces/King.java:23-55 | all king moves are such steps, at most eight |
| Pawns.PawnStep | src/com/chess/engine/pieces/Pawn.java:25-64 | each offset contributes at most one move |
| Pawns.CalculateLegalMoves | src/com/chess/engine/pieces/Pawn.java:20-68 | the loop yields the specified pawn moves |
| Pawns.StepIsPawnMove | src/com/chess/engine/pieces/Pawn.java:25-64 | apart from a white pawn on its second rank, each move is a push to an empty square, a first double push over an empty square, or a diagonal step onto an enemy |
| Pawns.PawnMovesSound | src/com/chess/engine/pieces/Pawn.java:20-68 | the same for all of that pawn's moves |
| Pawns.SecondRankWhitePawnNeverCaptures | src/com/chess/engine/pieces/Pawn.java:33-42 | a white pawn on its second rank only gets quiet moves toward row 0 onto empty squares with the square ahead empty: it never captures |
| Pawns.WhitePawnOnH2ReachesA2 | src/com/chess/engine/pieces/Pawn.java:33-42 | a white pawn on h2 is offered a move to a2, on its own rank |
| Pawns.BlackPawnWithoutFlagNeverDoublePushes | src/com/chess/engine/pieces/Pawn.java:33-35 | a black pawn without the first-move flag only moves one row forward |
| Sliding.Offsets | src/com/chess/engine/pieces/Rook.java:16 | four direction offsets per slider |
| Sliding.Capture | src/com/chess/engine/pieces/Bishop.java:46-53 | a capture is a `MajourAttackMove` (rook) or `AttackMove` (bishop) of the piece onto the destination taking the piece there |
| Sliding.CalculateLegalMoves | src/com/chess/engine/pieces/Rook.java:27-64 | the loop yields the specified slider moves |
| Sliding.WalkRay | src/com/chess/engine/pieces/Rook.java:34-60 | the inner `while` loop yields one ray |
| Sliding.RayStep | src/com/chess/engine/pieces/Rook.java:36-58 | a ray stops at an edge exclusion or off the board, continues over empty squares, and ends with a capture of an enemy or before a friend |
| Sliding.DirectionsMove | src/com/chess/engine/pieces/Rook.java:16 | rook offsets change row or column only, bishop offsets both |
| Sliding.RayGeometry | src/com/chess/engine/pieces/Rook.java:34-60 | successive ray squares advance one step in a fixed row and column direction |
| Sliding.RayContents | src/com/chess/engine/pieces/Rook.java:45-58 | all but the last move of a ray are quiet; the last is quiet or an enemy capture |
| Sliding.RayMoveOnLine | src/com/chess/engine/pieces/Rook.java:34-60 | every ray destination lies on the piece's row or column (rook) or diagonal (bishop), within seven steps |
| Sliding.RayMovesOk | src/com/chess/engine/pieces/Rook.java:34-60 | every ray move is a sound slider move; a ray has at most seven moves |
| Sliding.SliderMovesSound | src/com/chess/engine/pieces/Rook.java:27-64 | every slider move is quiet or a capture along one of its lines, at most seven per direction |
| Sliding.RayPathClear | src/com/chess/engine/pieces/Bishop.java:30-56 | every square before a ray's j-th move is empty and lies i+1 steps from the piece |
| Players.AttacksOnTile | src/com/chess/engine/player/Player.java:36-44 | the attacks on a tile are exactly the moves whose destination is that tile |
| Players.CalculateAttackOnTile | src/com/chess/engine/player/Player.java:36-44 | the loop collects exactly those moves |
| Players.NoAttacksIff | src/com/chess/engine/player/Player.java:36-44 | the attack list is empty exactly when no move reaches the tile |
| Players.BackRank | src/com/chess/engine/player/WhitePlayer.java:37-75 | the a-file square of a side's back rank: 56 for White, 0 for Black |
| Players.KingSideCastle | src/com/chess/engine/player/WhitePlayer.java:44-56 | offered exactly when f- and g-squares are empty and unattacked and an unmoved rook stands on h; the move is described in full |
| Players.QueenSideCastle | src/com/chess/engine/player/WhitePlayer.java:58-71 | offered exactly when b-, c- and d-squares are empty, c and d unattacked, and an unmoved rook stands on a |
| Players.KingCastles | src/com/chess/engine/player/WhitePlayer.java:37-75 | at most two castles, king side first, all moving the king; none when the king has moved or the player is in check |
| Players.CalculateKingSideCastle | src/com/chess/engine/player/WhitePlayer.java:44-56 | the branchy code computes `KingSideCastle` |
| Players.CalculateQueenSideCastle | src/com/chess/engine/player/WhitePlayer.java:58-71 | the branchy code computes `QueenSideCastle` |
| Players.CalculateKingCastles | src/com/chess/engine/player/WhitePlayer.java:37-75 | the method computes `KingCastles` |
| Players.NewPlayer | src/com/chess/engine/player/Player.java:21-26 | fails exactly when the side has no king; otherwise its legal moves are the standard moves plus up to two castles, and it is in check exactly when an opponent move reaches its king |
| Players.CreatePlayer | src/com/chess/engine/player/Player.java:21-26 | the constructor code computes `NewPlayer` |
| Players.PlayerOf | src/com/chess/engine/board/Board.java:43-47 | the player a board builds: its king, standard moves plus castles computed as if not in check, and check status |
| Players.CurrentPlayer | src/com/chess/engine/board/Board.java:48 | the current player is the side to move |
| Players.Opponent | src/com/chess/engine/player/WhitePlayer.java:33-36 | the opponent is the other side on the same board |
| Players.ActivePiecesOf | src/com/chess/engine/player/WhitePlayer.java:25-28 | on a constructed position, a player's active pieces are exactly the pieces of its side standing on their own tiles |
| Players.ActiveSideOnTiles | src/com/chess/engine/board/Board.java:38-39 | a side's piece list holds exactly that side's pieces on the tiles |
| Players.KingIsActive | src/com/chess/engine/player/Player.java:45-54 | the king a player establishes is a king among its active pieces, standing on its tile |
| Players.IllegalMoveRefused | src/com/chess/engine/player/Player.java:94-96 | a move not in the legal list is refused, and the board is kept |
| Players.LegalMoveOutcome | src/com/chess/engine/player/Player.java:97-105 | a legal move fails exactly when execution throws; it is done exactly when the mover's king is safe afterwards, else the old board is kept |
| Players.FirstDoneTrue | src/com/chess/engine/player/Player.java:60-68 | the escape loop answers true exactly when some move escapes and every earlier move could be made |
| Players.FirstDoneFalse | src/com/chess/engine/player/Player.java:60-68 | the escape loop answers false exactly when every move was made and none escaped |
| Players.EscapeSearchOutcomes | src/com/chess/engine/player/Player.java:60-68 | the escape search is the loop over the moves' outcomes |
| Players.EscapeSearchTrue | src/com/chess/engine/player/Player.java:60-68 | `hasEscapeMoves` is true exactly when some move escapes check and all earlier moves execute |
| Players.EscapeSearchFalse | src/com/chess/engine/player/Player.java:60-68 | `hasEscapeMoves` is false exactly when every move executes and none escapes |
| Players.HasEscapeMoves | src/com/chess/engine/player/Player.java:60-68 | the loop computes the escape search |
| Players.MateAndStalemateExclusive | src/com/chess/engine/player/Player.java:74-80 | checkmate is check with no escape, stalemate no check and no escape; they never both hold |
| Players.FirstMatch | src/com/chess/engine/board/Move.java:469-478 | a match is a move with those endpoints; one is found when any exists, else the null move |
| Players.FirstMatchIsFirst | src/com/chess/engine/board/Move.java:469-478 | the match is the first such move |
| Players.CreateMove | src/com/chess/engine/board/Move.java:469-478 | `createMove` searches all legal moves of the board |
| Players.FindMove | src/com/chess/engine/board/Move.java:471-477 | the loop returns the first match |
| PlayerProperties.ConstructedKingNeverCastles | src/com/chess/engine/pieces/King.java:19-21 | a king from the public constructor is never offered a castle |
| PlayerProperties.LegalMovesShape | src/com/chess/engine/player/Player.java:21-26 | a player's moves are its standard moves followed by at most two castles of its own king |
| PlayerProperties.CastlingIgnoresCheck | src/com/chess/engine/player/Player.java:21-26 | an available king-side castle is offered even when the player is in check |
| PlayerProperties.CastleSquares | src/com/chess/engine/player/WhitePlayer.java:37-75 | an offered castle moves the king and a rook that stands on its start square to two distinct empty squares |
| PlayerProperties.OfferedCastleExecutable | src/com/chess/engine/player/WhitePlayer.java:37-75 | an offered castle of the side to move meets what executing it needs |
| PlayerProperties.CastleResult | src/com/chess/engine/board/Move.java:364-378 | a castle puts king and rook on their destinations, empties their origins and passes the move |
| PlayerProperties.CastleOutcome | src/com/chess/engine/board/Move.java:364-378 | every castle the side to move is offered executes with that result |
| Evaluator.TotalValue | src/com/chess/engine/player/ai/StandardBoardEvaluator.java:40-41 | the material sum is at least 100 per piece |
| Evaluator.BishopCount | src/com/chess/engine/player/ai/StandardBoardEvaluator.java:42-44 | the bishop count is at most the number of pieces |
| Evaluator.PieceValueLoop | src/com/chess/engine/player/ai/StandardBoardEvaluator.java:37-47 | the loop yields material plus 25 when exactly two bishops remain |
| Evaluator.TotalValueAppend | src/com/chess/engine/player/ai/StandardBoardEvaluator.java:37-47 | material is additive over a concatenation |
| Evaluator.MaterialIncludesKing | src/com/chess/engine/player/ai/StandardBoardEvaluator.java:37-47 | a side with a king scores at least the king's value plus 100 per other piece |
| Evaluator.AttackScore | src/com/chess/engine/player/ai/StandardBoardEvaluator.java:58-70 | between 0 and the number of moves; 0 without attacks; all moves when all are favourable |
| Evaluator.AttacksLoop | src/com/chess/engine/player/ai/StandardBoardEvaluator.java:58-70 | the loop counts favourable attacks |
| Evaluator.AttackedPieceIsOfAttack | src/com/chess/engine/player/ai/StandardBoardEvaluator.java:61-64 | an attack always has a moved and an attacked piece, so the comparison never dereferences null |
| Evaluator.MobilityRatio | src/com/chess/engine/player/ai/StandardBoardEvaluator.java:53-56 | 0 for no own moves; otherwise ten times own over opponent moves rounded down, saturating at `Integer.MAX_VALUE` |
| Evaluator.DepthBonusOf | src/com/chess/engine/player/ai/StandardBoardEvaluator.java:84-86 | the depth bonus is positive for every non-negative depth |
| Evaluator.DeeperMateScoresHigher | src/com/chess/engine/player/ai/StandardBoardEvaluator.java:80-86 | a mate found with more remaining depth earns a strictly larger exact bonus (Java's `int` bonus agrees with it up to depth 2147) |
| Evaluator.MateBonusRange | src/com/chess/engine/player/ai/StandardBoardEvaluator.java:80-86 | the mate bonus fits in an `int` exactly for depths up to 2147 |
| Evaluator.MateBonusAsInt | src/com/chess/engine/player/ai/StandardBoardEvaluator.java:80-86 | Java's wrapped `int` mate bonus equals the exact bonus up to depth 2147 and is negative at depth 2148 |
| Evaluator.CheckTerm | src/com/chess/engine/player/ai/StandardBoardEvaluator.java:72-74 | 45 exactly when the opponent is in check, else 0 |
| Evaluator.CheckMateTerm | src/com/chess/engine/player/ai/StandardBoardEvaluator.java:80-82 | fails exactly when the mate test throws; the exact term is positive exactly when the opponent is mated (Java's `int` term agrees up to depth 2147) |
| Evaluator.KingThreats | src/com/chess/engine/player/ai/StandardBoardEvaluator.java:76-78 | fails exactly when the mate test throws; the exact term is never less than the check term (Java's `int` term agrees up to depth 2147) |
| Evaluator.Castled | src/com/chess/engine/player/ai/StandardBoardEvaluator.java:88-90 | castling never scores, since `isCasteled` is always false |
| Evaluator.RisksExclusive | src/com/chess/engine/player/ai/StandardBoardEvaluator.java:92-98 | at most one risk term applies, and one applies exactly when the player has no legal moves |
| Evaluator.MateCountedTwice | src/com/chess/engine/player/ai/StandardBoardEvaluator.java:25-35 | a mating side's score includes the mate bonus twice |
| Evaluator.Difference | src/com/chess/engine/player/ai/StandardBoardEvaluator.java:19-23 | the evaluation is the 32-bit wrapped difference of the two scores, and fails when either does |
| Evaluator.WrapDifference | src/com/chess/engine/player/ai/StandardBoardEvaluator.java:19-23 | wrapping the terms first or the difference gives the same `int` |
| JavaInts.Wrap32 | src/com/chess/engine/player/ai/StandardBoardEvaluator.java:21-22 | Java `int` arithmetic: values in range are kept, others reduced modulo 2^32 into range |
| MiniMax.IsGameEndScenario | src/com/chess/engine/player/ai/MiniMax.java:58-61 | the game ends exactly when every move of the side to move executes and none escapes |
| MiniMax.MinOverIsMinimum | src/com/chess/engine/player/ai/MiniMax.java:67-77 | `min`'s loop value is at most every done child's value and equals one of them; `Integer.MAX_VALUE` when none is done |
| MiniMax.MaxOverIsMaximum | src/com/chess/engine/player/ai/MiniMax.java:84-94 | `max`'s loop value is at least every done child's value and equals one; `Integer.MIN_VALUE` when none is done |
| MiniMax.NotDoneIgnored | src/com/chess/engine/player/ai/MiniMax.java:68-76 | moves whose transition is not done do not affect the value |
| MiniMax.InnerNodeValue | src/com/chess/engine/player/ai/MiniMax.java:63-95 | a leaf or finished game is evaluated; an inner node takes a done child's value or the sentinel |
| MiniMax.Min | src/com/chess/engine/player/ai/MiniMax.java:63-78 | the recursive method computes the minimising value |
| MiniMax.Max | src/com/chess/engine/player/ai/MiniMax.java:80-95 | the recursive method computes the maximising value |
| MiniMax.RootPicksLastBest | src/com/chess/engine/player/ai/MiniMax.java:37-53 | no move is chosen exactly when no move is done; otherwise the choice is the last move with the best value for the side |
| MiniMax.RootLoopInvariant | src/com/chess/engine/player/ai/MiniMax.java:37-53 | the root loop keeps the best value seen and the move that reached it last |
| MiniMax.SelectBestMove | src/com/chess/engine/player/ai/MiniMax.java:27-53 | the root loop selects the last best done move for the side to move |
| MiniMax.Execute | src/com/chess/engine/player/ai/MiniMax.java:23-56 | the search always returns null |
| Uci.UciSquare | src/com/chess/pgn/UciParser.java:86-94 | every square has a two-character name, file a-h and rank 1-8 |
| Uci.SquareRoundTrip | src/com/chess/pgn/UciParser.java:86-94 | parsing a square's name gives back the square |
| Uci.CoordinateRoundTrip | src/com/chess/pgn/UciParser.java:86-94 | every well-formed name parses to a valid square whose name is the input |
| Uci.PromotionPiece | src/com/chess/pgn/UciParser.java:70-83 | q, r, b and n give a piece of that side on the destination that is neither pawn nor king; any other letter throws |
| Uci.ParseMoveMeaning | src/com/chess/pgn/UciParser.java:15-67 | the null move exactly for a missing or short string or an empty origin; any other move moves the origin's piece to the named destination |
| Uci.CastleStrings | src/com/chess/pgn/UciParser.java:33-40 | e1g1/e8g8 and e1c1/e8c8 give castles with the rook beside the destination, and fail when no rook stands there |
| Uci.ParseRoundTrip | src/com/chess/pgn/UciParser.java:52-66 | a non-castle four-letter move string gives the pawn's en passant capture when a pawn moves onto the en passant pawn's square, else an attack on an occupied square, else a quiet move |
| Uci.PromotionStrings | src/com/chess/pgn/UciParser.java:43-66 | a bad promotion letter fails; a pawn with a good letter gives a promotion of a pawn move; another piece with a good letter gives its capture or quiet move |
| OpeningBooks.CopyOf | src/com/chess/engine/player/ai/OpeningBook/OpeningBook.java:70 | `Arrays.copyOf` keeps the first fields and pads with null |
| OpeningBooks.Texts | src/com/chess/engine/player/ai/OpeningBook/OpeningBook.java:70 | `String.join` writes a null element as "null" |
| OpeningBooks.SplitFieldsSpaceFree | src/com/chess/engine/player/ai/OpeningBook/OpeningBook.java:69 | the fields of a split contain no space |
| OpeningBooks.KeyOfFields | src/com/chess/engine/player/ai/OpeningBook/OpeningBook.java:68-71 | the key of joined fields is the first four of them |
| OpeningBooks.KeyFields | src/com/chess/engine/player/ai/OpeningBook/OpeningBook.java:68-71 | the key is the first four fields, padded with "null" |
| OpeningBooks.EmptyRecordKey | src/com/chess/engine/player/ai/OpeningBook/OpeningBook.java:68-71 | an empty position gives the key " null null null" |
| OpeningBooks.KeyIdempotent | src/com/chess/engine/player/ai/OpeningBook/OpeningBook.java:68-71 | removing the move counters twice changes nothing |
| OpeningBooks.CountersIgnored | src/com/chess/engine/player/ai/OpeningBook/OpeningBook.java:68-71 | positions differing only after the fourth field have the same key |
| OpeningBooks.BookMovesOf | src/com/chess/engine/player/ai/OpeningBook/OpeningBook.java:23-28 | the moves parse exactly when every line does, one book move per line |
| OpeningBooks.LinesNonEmpty | src/com/chess/engine/player/ai/OpeningBook/OpeningBook.java:20-21 | the guard `lines.length > 0` always holds |
| OpeningBooks.ParseBlocks | src/com/chess/engine/player/ai/OpeningBook/OpeningBook.java:19-29 | one block per entry |
| OpeningBooks.BlocksOf | src/com/chess/engine/player/ai/OpeningBook/OpeningBook.java:18-29 | one block per "pos"-separated entry of the trimmed text |
| OpeningBooks.ParseBlockFields | src/com/chess/engine/player/ai/OpeningBook/OpeningBook.java:20-29 | a block's key is the counter-free first line and its moves are the other lines |
| OpeningBooks.ReadBlock | src/com/chess/engine/player/ai/OpeningBook/OpeningBook.java:20-28 | the stream over the lines computes the block |
| OpeningBooks.LoadSucceedsIff | src/com/chess/engine/player/ai/OpeningBook/OpeningBook.java:17-32 | loading succeeds exactly when every block's lines parse |
| OpeningBooks.LoadedKeys | src/com/chess/engine/player/ai/OpeningBook/OpeningBook.java:17-32 | the keys after loading are the old ones plus every block's key |
| OpeningBooks.LastBlockWins | src/com/chess/engine/player/ai/OpeningBook/OpeningBook.java:29 | a key maps to the moves of the last block with that key |
| OpeningBooks.LoadStep | src/com/chess/engine/player/ai/OpeningBook/OpeningBook.java:29 | one more block adds or replaces exactly its own key |
| OpeningBooks.BookHoldsLastBlock | src/com/chess/engine/player/ai/OpeningBook/OpeningBook.java:17-32 | a loaded book maps each entry's key to the moves of its last entry |
| OpeningBooks.OpeningBook.Empty | src/com/chess/engine/player/ai/OpeningBook/OpeningBook.java:11-12 | a new book holds no positions |
| OpeningBooks.OpeningBook.New | src/com/chess/engine/player/ai/OpeningBook/OpeningBook.java:10-14 | the constructor succeeds exactly when the text loads, and holds the loaded map |
| OpeningBooks.OpeningBook.LoadBook | src/com/chess/engine/player/ai/OpeningBook/OpeningBook.java:17-32 | succeeds exactly when the blocks load, leaving the map they produce; on failure leaves what the blocks before the failing one stored |
| OpeningBooks.OpeningBook.StoreEntries | src/com/chess/engine/player/ai/OpeningBook/OpeningBook.java:19-31 | the loop over the entries stores what `LoadBlocks` produces, or reports the parse failure |
| OpeningBooks.OpeningBook.GetBookMove | src/com/chess/engine/player/ai/OpeningBook/OpeningBook.java:38-62 | empty when the position is unknown or has no moves; otherwise the chosen book move's string |
| OpeningBooks.HasBookMoveIgnoresCounters | src/com/chess/engine/player/ai/OpeningBook/OpeningBook.java:34-36 | `hasBookMove` does not depend on the move counters |
| JavaStrings.IndexOf | src/com/chess/engine/player/ai/OpeningBook/OpeningBook.java:18 | the first occurrence of the separator, if any |
| JavaStrings.JoinPieces | src/com/chess/engine/player/ai/OpeningBook/OpeningBook.java:18 | joining the pieces with the separator gives back the text |
| JavaStrings.PiecesAreFree | src/com/chess/engine/player/ai/OpeningBook/OpeningBook.java:18 | no piece contains the separator |
| JavaStrings.DropTrailingEmpty | src/com/chess/engine/player/ai/OpeningBook/OpeningBook.java:18 | `split` drops trailing empty strings and nothing else |
| JavaStrings.PiecesOfJoin | src/com/chess/engine/player/ai/OpeningBook/OpeningBook.java:69-70 | cutting a join of separator-free fields gives the fields back |
| JavaStrings.SplitOfJoin | src/com/chess/engine/player/ai/OpeningBook/OpeningBook.java:69-70 | splitting a join gives the fields without trailing empties |
| JavaStrings.Trim | src/com/chess/engine/player/ai/OpeningBook/OpeningBook.java:18 | a trimmed string neither starts nor ends with a control character or space |
| JavaStrings.TrimIdempotent | src/com/chess/engine/player/ai/OpeningBook/OpeningBook.java:20 | trimming twice is trimming once |
| JavaStrings.TrimIsSlice | src/com/chess/engine/player/ai/OpeningBook/OpeningBook.java:22 | the result is a slice of the input with only removed characters around it |
| JavaStrings.ParseIntRoundTrip | src/com/chess/engine/player/ai/OpeningBook/OpeningBook.java:26 | `parseInt` reads back every non-negative `int` written in decimal |
| JavaStrings.ParseNegativeRoundTrip | src/com/chess/engine/player/ai/OpeningBook/OpeningBook.java:26 | `parseInt` reads back every negative `int` written with a minus sign |

## Left out

- `Table.java`, the GUI, `FenUtilities` and `createStaticBoard` are not part of this model. Opening positions are built through `Boards.Builder`.
- `toString` of `Board` and of the moves is not modelled; only the tile text (`Tiles.TileText`) is.
- `Move.hashCode` and the cached tile maps' hashing are not modelled. `Piece.hashCode` is.
- Printing and timing are left out: `System.out.println` and `System.currentTimeMillis` in `MiniMax.execute` and in `UciParser.parseMove` have no effect on any result.
- `OpeningBooks.OpeningBook.GetBookMove`: does not model the random draw weighted by `weightedPlayCount`. The index the draw selects is a parameter (`chosen`), so the contract does not state which move is drawn.
- `OpeningBooks.KeyIdempotent`: proved only when the fourth field of the position is not empty. With an empty fourth field, `split` drops it as trailing and the key gains a "null" field, so the second removal is not the identity.
- `Evaluator.MobilityRatio`: models the `float` division as exact division rounded down. This agrees with the source for move counts of realistic size. When the opponent has no legal moves, the `float` division gives infinity and the cast gives `Integer.MAX_VALUE`; the model returns that value too.
- The piece values (100, 300, 330, 500, 900, 10000) are taken as the `PieceType` values; `getPieceValue` is not part of this model.
- The queen's move generator is not part of this model. It is modelled as the union of the rook's and the bishop's rays, which is what the queen's offsets describe.
- `BoardUtils` tables, `Alliance`, `BlackPlayer` and `PieceUtils` are not part of this model. They are given by their meaning: row and column arithmetic, direction ±1, the black back rank at squares 0-7, and moved pieces built with the first-move flag cleared, including moved knights and rooks, whose public two-argument constructors would set it.
- `Execution.Execute`: executes a move on the board it is given. In the source each move carries its own board, and the model assumes it is the board the move was generated on.
- `King.isKingSideCastleCapable` and `isQueenSideCastleCapable` are not part of this model, so `Player.isKingSideCastleCapable` and `isQueenSideCastleCapable` are not modelled.
- Castling compares the rook by value. The source's `==` on pieces compares identity, and two equal rooks on one square cannot be told apart in the model.
- `MiniMax.SelectBestMove`: requires a search depth of at least 1. With depth 0, the source calls `min`/`max` with depth -1, which never reaches the depth test and only stops when the game ends or the stack overflows.
- `MiniMax.Min` and `MiniMax.Max`: the board, move generation and evaluator are parameters of the search (`Game`), so exceptions thrown inside them are not modelled there. They are modelled as `None` in `Players` and `Evaluator`.
- `Evaluator.CheckMateTerm`, `Evaluator.KingThreats` and `Evaluator.DeeperMateScoresHigher`: state the exact mate bonus, not Java's `int` product. The two agree up to depth 2147 and the `int` product turns negative at depth 2148 (`Evaluator.MateBonusAsInt`). The evaluation itself is unaffected, because `Evaluator.Difference` wraps the exact total, which gives the same `int` as summing wrapped terms.
- `Uci.ParseMove`: `UciParser.parseMove` calls `Board.getPieceAt`, which `Board` does not define. It is read as `getTile(c).getPiece()`, so an origin or destination off the board throws (`None`).
- `JavaStrings.ParseInt`: accepts ASCII digits only, where `Integer.parseInt` also accepts other Unicode digits.
- `JavaStrings.Split`: handles only the literal separators the source uses ("pos", "\n", " "); general regular expressions are not modelled.
