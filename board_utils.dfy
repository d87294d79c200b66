/** Square geometry of the 64-square board: square 0 is a8 (top left from White's
    side), square 63 is h1; squares are numbered row by row. */
module BoardUtils {
  const NumTiles: int := 64
  const NumTilesPerRow: int := 8

  predicate IsValidTileCoordinate(c: int) {
    0 <= c < NumTiles
  }

  /** File index 0..7 (a..h) of a square. */
  function Column(c: int): (r: int)
    requires IsValidTileCoordinate(c)
    ensures 0 <= r < 8
  {
    c % 8
  }

  /** Row index 0..7 counted from the top (row 0 is rank 8). */
  function Row(c: int): (r: int)
    requires IsValidTileCoordinate(c)
    ensures 0 <= r < 8
  {
    c / 8
  }

  predicate FirstColumn(c: int) requires IsValidTileCoordinate(c) { Column(c) == 0 }
  predicate SecondColumn(c: int) requires IsValidTileCoordinate(c) { Column(c) == 1 }
  predicate SeventhColumn(c: int) requires IsValidTileCoordinate(c) { Column(c) == 6 }
  predicate EighthColumn(c: int) requires IsValidTileCoordinate(c) { Column(c) == 7 }

  /** White pawns start on the second rank, squares 48..55. */
  predicate SecondRank(c: int) requires IsValidTileCoordinate(c) { 48 <= c < 56 }
  /** Black pawns start on the seventh rank, squares 8..15. */
  predicate SeventhRank(c: int) requires IsValidTileCoordinate(c) { 8 <= c < 16 }

  lemma SquareDecomposition(c: int)
    requires IsValidTileCoordinate(c)
    ensures c == 8 * Row(c) + Column(c)
  {
  }

  /** Moving `dr` rows and `dc` files from a square whose file stays on the board
      lands exactly that many rows and files away: no wrap-around. */
  lemma Shift(c: int, dr: int, dc: int)
    requires IsValidTileCoordinate(c) && 0 <= Column(c) + dc < 8
    requires IsValidTileCoordinate(c + 8 * dr + dc)
    ensures Row(c + 8 * dr + dc) == Row(c) + dr
    ensures Column(c + 8 * dr + dc) == Column(c) + dc
  {
    var d := c + 8 * dr + dc;
    assert d == 8 * (Row(c) + dr) + (Column(c) + dc);
  }
}
