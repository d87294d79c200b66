/** The position: a 64-tile board built from a square-to-piece map, the per-side
    piece lists derived from it, the side to move and the en-passant pawn. */
module Boards {
  import opened Wrappers
  import opened Pieces
  import opened BoardUtils
  import opened Tiles
  import opened Moves

  datatype Board = Board(
    tiles: seq<Tile>,
    whitePieces: seq<Piece>,
    blackPieces: seq<Piece>,
    enPassantPawn: Option<Piece>,
    nextMoveMaker: Alliance,
    transitionMove: Option<Move>)
  {
    /** The pieces of one side (`getWhitePieces` / `getBlackPieces`). */
    function PiecesOf(a: Alliance): seq<Piece> {
      if a == White then whitePieces else blackPieces
    }

    /** `getAllPieces`: White's pieces followed by Black's. */
    function AllPieces(): seq<Piece> {
      whitePieces + blackPieces
    }
  }

  /** Every key of a builder's map is the position of the piece stored under it. */
  ghost predicate KeyedByPosition(config: map<int, Piece>) {
    forall k :: k in config ==> config[k].position == k
  }

  function Lookup(config: map<int, Piece>, k: int): Option<Piece> {
    if k in config then Some(config[k]) else None
  }

  /** Tiles with their own coordinates, each piece standing on the tile of its position. */
  ghost predicate WellFormedTiles(tiles: seq<Tile>) {
    |tiles| == NumTiles &&
    forall i :: 0 <= i < |tiles| ==>
      tiles[i].coordinate == i && (tiles[i].OccupiedTile? ==> tiles[i].pieceOnTile.position == i)
  }

  /** Piece on a square of well-formed tiles, null when empty. */
  function PieceAt(b: Board, c: int): Option<Piece>
    requires |b.tiles| == NumTiles && IsValidTileCoordinate(c)
  {
    b.tiles[c].GetPiece()
  }

  predicate IsOccupied(b: Board, c: int)
    requires |b.tiles| == NumTiles && IsValidTileCoordinate(c)
  {
    b.tiles[c].IsTileOccupied()
  }

  // ---------------------------------------------------------------- Builder

  /** `setPiece` applied to each piece of `ps` in order. */
  function PlaceAll(config: map<int, Piece>, ps: seq<Piece>): (r: map<int, Piece>)
    ensures KeyedByPosition(config) ==> KeyedByPosition(r)
  {
    if ps == [] then config
    else
      var last := ps[|ps| - 1];
      PlaceAll(config, ps[..|ps| - 1])[last.position := last]
  }

  /** The last piece of `ps` standing on square `k`. */
  function LastAt(ps: seq<Piece>, k: int): (r: Option<Piece>)
    ensures r.Some? ==> r.value in ps && r.value.position == k
    ensures r.None? <==> forall p :: p in ps ==> p.position != k
  {
    if ps == [] then None
    else if ps[|ps| - 1].position == k then Some(ps[|ps| - 1])
    else
      var r := LastAt(ps[..|ps| - 1], k);
      assert forall p :: p in ps[..|ps| - 1] ==> p in ps;
      assert forall p :: p in ps ==> p in ps[..|ps| - 1] || p == ps[|ps| - 1];
      r
  }

  /** After placing a sequence of pieces, a square holds the last of them placed
      there, or whatever it held before: a later piece replaces an earlier one. */
  lemma {:induction false} PlaceAllLookup(config: map<int, Piece>, ps: seq<Piece>, k: int)
    ensures Lookup(PlaceAll(config, ps), k) == if LastAt(ps, k).Some? then LastAt(ps, k) else Lookup(config, k)
  {
    if ps != [] {
      PlaceAllLookup(config, ps[..|ps| - 1], k);
    }
  }

  /** The mutable builder of a position. */
  class Builder {
    var boardConfig: map<int, Piece>
    var nextMoveMaker: Option<Alliance>
    var enPassantPawn: Option<Piece>
    var moveTransition: Option<Move>

    ghost predicate Valid()
      reads this
    {
      KeyedByPosition(boardConfig)
    }

    constructor ()
      ensures Valid()
      ensures boardConfig == map[] && nextMoveMaker == None && enPassantPawn == None && moveTransition == None
    {
      boardConfig := map[];
      nextMoveMaker := None;
      enPassantPawn := None;
      moveTransition := None;
    }

    /** Stores the piece under its own position, replacing what was there. */
    method SetPiece(piece: Piece)
      requires Valid()
      modifies this
      ensures Valid()
      ensures boardConfig == old(boardConfig)[piece.position := piece]
      ensures nextMoveMaker == old(nextMoveMaker) && enPassantPawn == old(enPassantPawn)
      ensures moveTransition == old(moveTransition)
    {
      boardConfig := boardConfig[piece.position := piece];
    }

    method SetMoveMaker(a: Alliance)
      modifies this
      ensures nextMoveMaker == Some(a)
      ensures boardConfig == old(boardConfig) && enPassantPawn == old(enPassantPawn)
      ensures moveTransition == old(moveTransition)
    {
      nextMoveMaker := Some(a);
    }

    method SetEnPassantPawn(pawn: Piece)
      modifies this
      ensures enPassantPawn == Some(pawn)
      ensures boardConfig == old(boardConfig) && nextMoveMaker == old(nextMoveMaker)
      ensures moveTransition == old(moveTransition)
    {
      enPassantPawn := Some(pawn);
    }

    /** Records the move that produced the position; placement is not affected. */
    method SetMoveTransition(m: Move)
      modifies this
      ensures moveTransition == Some(m)
      ensures boardConfig == old(boardConfig) && nextMoveMaker == old(nextMoveMaker)
      ensures enPassantPawn == old(enPassantPawn)
    {
      moveTransition := Some(m);
    }

    /** `build`: the position of the builder's contents, or failure. */
    method Build() returns (r: Option<Board>)
      requires Valid()
      ensures r == BuildBoard(boardConfig, nextMoveMaker, enPassantPawn, moveTransition)
    {
      var tiles := CreateGameBoard(boardConfig);
      var white := CalculateActivePieces(tiles, White);
      var black := CalculateActivePieces(tiles, Black);
      var whiteKing := FindKing(white);
      var blackKing := FindKing(black);
      if whiteKing.None? || blackKing.None? || nextMoveMaker.None? {
        return None;
      }
      return Some(Board(tiles, white, black, enPassantPawn, nextMoveMaker.value, moveTransition));
    }
  }

  // ---------------------------------------------------------------- construction

  /** Tile i of the position built from `config`. */
  function TileFor(config: map<int, Piece>, i: int): (t: Tile)
    requires IsValidTileCoordinate(i)
    ensures Some(t) == CreateTile(i, Lookup(config, i))
  {
    if i in config then OccupiedTile(i, config[i]) else EmptyTile(i)
  }

  /** `createGameBoard`: tile i holds the builder's piece at i, or is empty. */
  function GameBoard(config: map<int, Piece>): (tiles: seq<Tile>)
    ensures |tiles| == NumTiles
    ensures forall i :: 0 <= i < NumTiles ==> tiles[i] == TileFor(config, i)
    ensures KeyedByPosition(config) ==> WellFormedTiles(tiles)
  {
    seq(NumTiles, i requires 0 <= i < NumTiles => TileFor(config, i))
  }

  method CreateGameBoard(config: map<int, Piece>) returns (tiles: seq<Tile>)
    ensures tiles == GameBoard(config)
  {
    var a := new Tile[NumTiles];
    var i := 0;
    while i < NumTiles
      invariant 0 <= i <= NumTiles
      invariant forall j :: 0 <= j < i ==> a[j] == TileFor(config, j)
    {
      a[i] := CreateTile(i, Lookup(config, i)).value;
      i := i + 1;
    }
    tiles := a[..];
  }

  /** `calculateActivePieces`: the pieces of one alliance, in tile order. */
  function ActivePieces(tiles: seq<Tile>, a: Alliance): (ps: seq<Piece>)
    ensures forall p :: p in ps ==> p.alliance == a
    ensures |ps| <= |tiles|
  {
    if tiles == [] then []
    else
      var t := tiles[|tiles| - 1];
      ActivePieces(tiles[..|tiles| - 1], a) +
        (if t.IsTileOccupied() && t.pieceOnTile.alliance == a then [t.pieceOnTile] else [])
  }

  method CalculateActivePieces(tiles: seq<Tile>, a: Alliance) returns (ps: seq<Piece>)
    ensures ps == ActivePieces(tiles, a)
  {
    ps := [];
    var i := 0;
    while i < |tiles|
      invariant 0 <= i <= |tiles|
      invariant ps == ActivePieces(tiles[..i], a)
    {
      assert tiles[..i + 1][..i] == tiles[..i];
      var t := tiles[i];
      if t.IsTileOccupied() {
        var piece := t.GetPiece().value;
        if piece.alliance == a {
          ps := ps + [piece];
        }
      }
      i := i + 1;
    }
    assert tiles[..i] == tiles;
  }

  /** Tiles whose pieces stand on their own index. */
  ghost predicate PositionsMatch(tiles: seq<Tile>) {
    forall j :: 0 <= j < |tiles| && tiles[j].OccupiedTile? ==> tiles[j].pieceOnTile.position == j
  }

  /** The piece stands on the tile of its position. */
  ghost predicate OnTiles(tiles: seq<Tile>, p: Piece) {
    0 <= p.position < |tiles| && tiles[p.position].OccupiedTile? && tiles[p.position].pieceOnTile == p
  }

  /** A side's list holds exactly the pieces of that side on the tiles, in strictly
      ascending square order. */
  lemma {:induction false} ActivePiecesExactly(tiles: seq<Tile>, a: Alliance)
    requires PositionsMatch(tiles)
    ensures forall p :: p in ActivePieces(tiles, a) <==> OnTiles(tiles, p) && p.alliance == a
    ensures forall i, j :: 0 <= i < j < |ActivePieces(tiles, a)| ==>
      ActivePieces(tiles, a)[i].position < ActivePieces(tiles, a)[j].position
  {
    if tiles != [] {
      var n := |tiles| - 1;
      var init := tiles[..n];
      assert PositionsMatch(init);
      ActivePiecesExactly(init, a);
      var t := tiles[n];
      var ps := ActivePieces(tiles, a);
      assert ps == ActivePieces(init, a) + (if t.IsTileOccupied() && t.pieceOnTile.alliance == a then [t.pieceOnTile] else []);
      forall p
        ensures p in ps <==> OnTiles(tiles, p) && p.alliance == a
      {
        if 0 <= p.position < n {
          assert tiles[p.position] == init[p.position];
        }
      }
    }
  }

  /** The piece on a square is the last (indeed the only) piece of its side's list there. */
  lemma ActivePiecesAt(tiles: seq<Tile>, a: Alliance, k: int)
    requires PositionsMatch(tiles)
    ensures LastAt(ActivePieces(tiles, a), k) ==
      if 0 <= k < |tiles| && tiles[k].OccupiedTile? && tiles[k].pieceOnTile.alliance == a
      then Some(tiles[k].pieceOnTile) else None
  {
    ActivePiecesExactly(tiles, a);
    var ps := ActivePieces(tiles, a);
    if 0 <= k < |tiles| && tiles[k].OccupiedTile? && tiles[k].pieceOnTile.alliance == a {
      assert tiles[k].pieceOnTile in ps;
    }
  }

  /** `establishKing`: the first king of a side's pieces. */
  function EstablishKing(ps: seq<Piece>): (r: Option<Piece>)
    ensures r.Some? ==> r.value in ps && r.value.kind.IsKing()
    ensures r.None? <==> forall p :: p in ps ==> !p.kind.IsKing()
  {
    if ps == [] then None
    else if ps[0].kind.IsKing() then Some(ps[0])
    else
      var r := EstablishKing(ps[1..]);
      assert forall p :: p in ps ==> p == ps[0] || p in ps[1..];
      r
  }

  method FindKing(ps: seq<Piece>) returns (r: Option<Piece>)
    ensures r == EstablishKing(ps)
  {
    var i := 0;
    while i < |ps|
      invariant 0 <= i <= |ps|
      invariant EstablishKing(ps) == EstablishKing(ps[i..])
    {
      if ps[i].kind.IsKing() {
        return Some(ps[i]);
      }
      assert ps[i..][1..] == ps[i + 1..];
      i := i + 1;
    }
    return None;
  }

  /** A constructed position: well-formed tiles, piece lists derived from them and a
      king on each side (otherwise `Player`'s constructor throws). */
  ghost predicate Valid(b: Board) {
    WellFormedTiles(b.tiles) &&
    b.whitePieces == ActivePieces(b.tiles, White) &&
    b.blackPieces == ActivePieces(b.tiles, Black) &&
    EstablishKing(b.whitePieces).Some? && EstablishKing(b.blackPieces).Some?
  }

  /** `Builder.build` and the `Board` constructor: the position is built unless a
      side has no king or no side to move was set. */
  function BuildBoard(config: map<int, Piece>, mover: Option<Alliance>, enPassant: Option<Piece>,
                      transition: Option<Move>): (r: Option<Board>)
    requires KeyedByPosition(config)
    ensures r.Some? ==> Valid(r.value)
    ensures r.Some? ==> r.value.tiles == GameBoard(config) && r.value.enPassantPawn == enPassant &&
                        Some(r.value.nextMoveMaker) == mover && r.value.transitionMove == transition
  {
    var tiles := GameBoard(config);
    var white := ActivePieces(tiles, White);
    var black := ActivePieces(tiles, Black);
    if EstablishKing(white).None? || EstablishKing(black).None? || mover.None? then None
    else Some(Board(tiles, white, black, enPassant, mover.value, transition))
  }

  /** A king of the alliance stands on a board square of the builder's map. */
  ghost predicate HasKingOnBoard(config: map<int, Piece>, a: Alliance) {
    exists k :: k in config && IsValidTileCoordinate(k) && config[k].kind == King && config[k].alliance == a
  }

  lemma KingFoundIffOnBoard(config: map<int, Piece>, a: Alliance)
    requires KeyedByPosition(config)
    ensures EstablishKing(ActivePieces(GameBoard(config), a)).Some? <==> HasKingOnBoard(config, a)
  {
    var tiles := GameBoard(config);
    ActivePiecesExactly(tiles, a);
    if EstablishKing(ActivePieces(tiles, a)).Some? {
      var p := EstablishKing(ActivePieces(tiles, a)).value;
      assert OnTiles(tiles, p);
      assert tiles[p.position] == TileFor(config, p.position);
      assert p.position in config && config[p.position] == p;
    }
    if HasKingOnBoard(config, a) {
      var k :| k in config && IsValidTileCoordinate(k) && config[k].kind == King && config[k].alliance == a;
      assert tiles[k] == OccupiedTile(k, config[k]);
      assert OnTiles(tiles, config[k]);
      assert config[k] in ActivePieces(tiles, a);
    }
  }

  /** Building succeeds exactly when a side to move is set and each side has a king on the board. */
  lemma BuildSucceedsIffKings(config: map<int, Piece>, mover: Option<Alliance>, enPassant: Option<Piece>,
                              transition: Option<Move>)
    requires KeyedByPosition(config)
    ensures BuildBoard(config, mover, enPassant, transition).Some? <==>
      mover.Some? && HasKingOnBoard(config, White) && HasKingOnBoard(config, Black)
  {
    KingFoundIffOnBoard(config, White);
    KingFoundIffOnBoard(config, Black);
  }

  /** The two lists of a position are disjoint and together hold every piece on the board. */
  lemma PiecesPartitionBoard(b: Board)
    requires Valid(b)
    ensures forall p :: !(p in b.whitePieces && p in b.blackPieces)
    ensures forall i :: 0 <= i < NumTiles && b.tiles[i].OccupiedTile? ==>
      b.tiles[i].pieceOnTile in b.whitePieces + b.blackPieces
    ensures forall p :: p in b.whitePieces + b.blackPieces ==>
      IsValidTileCoordinate(p.position) && b.tiles[p.position] == OccupiedTile(p.position, p)
  {
    ActivePiecesExactly(b.tiles, White);
    ActivePiecesExactly(b.tiles, Black);
    forall i | 0 <= i < NumTiles && b.tiles[i].OccupiedTile?
      ensures b.tiles[i].pieceOnTile in b.whitePieces + b.blackPieces
    {
      var p := b.tiles[i].pieceOnTile;
      assert OnTiles(b.tiles, p);
    }
    forall p | p in b.whitePieces + b.blackPieces
      ensures IsValidTileCoordinate(p.position) && b.tiles[p.position] == OccupiedTile(p.position, p)
    {
      assert OnTiles(b.tiles, p);
    }
  }
}
