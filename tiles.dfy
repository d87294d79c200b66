/** A square of the board: empty, or occupied by one piece. */
module Tiles {
  import opened Wrappers
  import opened Pieces
  import opened BoardUtils

  datatype Tile = EmptyTile(coordinate: int) | OccupiedTile(coordinate: int, pieceOnTile: Piece) {
    predicate IsTileOccupied() {
      OccupiedTile?
    }

    /** `getPiece`: the piece of an occupied tile, null for an empty one. */
    function GetPiece(): (p: Option<Piece>)
      ensures p.Some? <==> IsTileOccupied()
      ensures OccupiedTile? ==> p == Some(pieceOnTile)
    {
      if OccupiedTile? then Some(pieceOnTile) else None
    }
  }

  /** The cache of empty tiles: exactly one per coordinate 0..63. */
  const EmptyTileCache: map<int, Tile> := map i | 0 <= i < NumTiles :: EmptyTile(i)

  /** `createAllPossibleEMptyTile`: the loop that fills the cache. */
  method CreateAllPossibleEmptyTiles() returns (cache: map<int, Tile>)
    ensures cache == EmptyTileCache
    ensures forall i :: i in cache <==> IsValidTileCoordinate(i)
    ensures forall i :: i in cache ==> cache[i] == EmptyTile(i)
  {
    cache := map[];
    var i := 0;
    while i < NumTiles
      invariant 0 <= i <= NumTiles
      invariant cache == map j | 0 <= j < i :: EmptyTile(j)
    {
      cache := cache[i := EmptyTile(i)];
      i := i + 1;
    }
  }

  /** `createTile`: an occupied tile for a piece, otherwise the cached empty tile,
      which is null (None) for a coordinate outside the board. */
  function CreateTile(coordinate: int, piece: Option<Piece>): (t: Option<Tile>)
    ensures piece.Some? ==> t == Some(OccupiedTile(coordinate, piece.value))
    ensures piece.None? ==> (t.Some? <==> IsValidTileCoordinate(coordinate))
    ensures t.Some? ==> t.value.coordinate == coordinate && t.value.GetPiece() == piece
  {
    if piece.Some? then Some(OccupiedTile(coordinate, piece.value))
    else if coordinate in EmptyTileCache then Some(EmptyTileCache[coordinate])
    else None
  }

  function ToUpper(c: char): char {
    if 'a' <= c <= 'z' then (c as int - 32) as char else c
  }

  /** Text form of a tile: "-" when empty, the piece letter in lower case for Black
      and in upper case for White. */
  function TileText(t: Tile): (s: string)
    ensures |s| == 1
    ensures t.EmptyTile? ==> s == "-"
    ensures t.OccupiedTile? && t.pieceOnTile.alliance == Black ==> s == [t.pieceOnTile.kind.Name()]
    ensures t.OccupiedTile? && t.pieceOnTile.alliance == White ==>
              'A' <= s[0] <= 'Z' && s[0] as int == t.pieceOnTile.kind.Name() as int - 32
  {
    match t
    case EmptyTile(_) => "-"
    case OccupiedTile(_, p) =>
      if p.alliance == Black then [p.kind.Name()] else [ToUpper(p.kind.Name())]
  }
}
