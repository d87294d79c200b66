/** Rook and bishop move generation. Both pieces walk each direction of their
    offset table square by square until the board edge, a column exclusion (the
    step would wrap across the a/h files), a friendly piece (stop before it) or an
    enemy piece (capture it and stop). They differ only in their offset tables,
    their exclusions and the kind of capture they create. */
module Sliding {
  import opened Wrappers
  import opened Pieces
  import opened BoardUtils
  import opened Tiles
  import opened Moves
  import opened Boards

  /** Orthogonal is the rook's table, Diagonal the bishop's. */
  datatype Slider = Orthogonal | Diagonal

  function Offsets(s: Slider): (offsets: seq<int>)
    ensures |offsets| == 4
  {
    match s
    case Orthogonal => [-8, -1, 1, 8]
    case Diagonal => [-9, -7, 7, 9]
  }

  predicate IsFirstColumnExclusion(s: Slider, current: int, offset: int)
    requires IsValidTileCoordinate(current)
  {
    FirstColumn(current) &&
    match s
    case Orthogonal => offset == -1
    case Diagonal => offset == -9 || offset == 7
  }

  predicate IsEighthColumnExclusion(s: Slider, current: int, offset: int)
    requires IsValidTileCoordinate(current)
  {
    EighthColumn(current) &&
    match s
    case Orthogonal => offset == 1
    case Diagonal => offset == 9 || offset == -7
  }

  /** A rook captures with a `MajourAttackMove`, a bishop with a plain `AttackMove`. */
  function Capture(s: Slider, piece: Piece, destination: int, attacked: Piece): (m: Move)
    ensures m.MajourAttackMove? || m.AttackMove?
    ensures m.movedPiece == piece && m.destination == destination && m.attackedPiece == attacked
    ensures IsAttack(m) && !IsCastlingMove(m)
  {
    match s
    case Orthogonal => MajourAttackMove(piece, destination, attacked)
    case Diagonal => AttackMove(piece, destination, attacked)
  }

  /** The moves found walking from `current` (not included) in direction `offset`. */
  function Ray(s: Slider, b: Board, piece: Piece, offset: int, current: int): seq<Move>
    requires |b.tiles| == NumTiles && IsValidTileCoordinate(current)
    requires offset in Offsets(s)
    decreases if offset > 0 then NumTiles - current else current
  {
    if IsFirstColumnExclusion(s, current, offset) || IsEighthColumnExclusion(s, current, offset) then []
    else
      var next := current + offset;
      if !IsValidTileCoordinate(next) then []
      else if !IsOccupied(b, next) then [MajourMove(piece, next)] + Ray(s, b, piece, offset, next)
      else
        var occupant := PieceAt(b, next).value;
        if piece.alliance != occupant.alliance then [Capture(s, piece, next, occupant)] else []
  }

  /** The rays of the first `n` directions of the table, in table order. */
  function SliderMovesUpTo(s: Slider, b: Board, piece: Piece, n: nat): seq<Move>
    requires |b.tiles| == NumTiles && IsValidTileCoordinate(piece.position)
    requires n <= |Offsets(s)|
  {
    if n == 0 then []
    else SliderMovesUpTo(s, b, piece, n - 1) + Ray(s, b, piece, Offsets(s)[n - 1], piece.position)
  }

  function SliderMoves(s: Slider, b: Board, piece: Piece): seq<Move>
    requires |b.tiles| == NumTiles && IsValidTileCoordinate(piece.position)
  {
    SliderMovesUpTo(s, b, piece, |Offsets(s)|)
  }

  /** `Rook.calculateLegalMoves` (Orthogonal) and `Bishop.calculateLegalMoves` (Diagonal). */
  method CalculateLegalMoves(s: Slider, b: Board, piece: Piece) returns (legalMoves: seq<Move>)
    requires |b.tiles| == NumTiles && IsValidTileCoordinate(piece.position)
    ensures legalMoves == SliderMoves(s, b, piece)
  {
    legalMoves := [];
    var offsets := Offsets(s);
    for i := 0 to |offsets|
      invariant legalMoves == SliderMovesUpTo(s, b, piece, i)
    {
      var rayMoves := WalkRay(s, b, piece, offsets[i]);
      legalMoves := legalMoves + rayMoves;
    }
  }

  /** The inner loop of `calculateLegalMoves`: walking one direction from the piece's
      square. */
  method WalkRay(s: Slider, b: Board, piece: Piece, offset: int) returns (moves: seq<Move>)
    requires |b.tiles| == NumTiles && IsValidTileCoordinate(piece.position)
    requires offset in Offsets(s)
    ensures moves == Ray(s, b, piece, offset, piece.position)
  {
    moves := [];
    var candidate := piece.position;
    ghost var remaining := Ray(s, b, piece, offset, candidate);
    while IsValidTileCoordinate(candidate)
      invariant -9 <= candidate < NumTiles + 9
      invariant moves + remaining == Ray(s, b, piece, offset, piece.position)
      invariant IsValidTileCoordinate(candidate) ==> remaining == Ray(s, b, piece, offset, candidate)
      invariant !IsValidTileCoordinate(candidate) ==> remaining == []
      decreases if offset > 0 then NumTiles + 9 - candidate else candidate + 9
    {
      RayStep(s, b, piece, offset, candidate);
      if IsFirstColumnExclusion(s, candidate, offset) || IsEighthColumnExclusion(s, candidate, offset) {
        AppendEmpty(moves);
        break;
      }
      candidate := candidate + offset;
      if IsValidTileCoordinate(candidate) {
        var tile := b.tiles[candidate];
        if !tile.IsTileOccupied() {
          var m := MajourMove(piece, candidate);
          Regroup(moves, m, Ray(s, b, piece, offset, candidate));
          moves := moves + [m];
          remaining := Ray(s, b, piece, offset, candidate);
        } else {
          var occupant := tile.GetPiece().value;
          if piece.alliance != occupant.alliance {
            moves := moves + [Capture(s, piece, candidate, occupant)];
          } else {
            AppendEmpty(moves);
          }
          break;
        }
      }
    }
  }

  /** One step of a ray, in the terms the loop tests: the tile's own occupancy and piece. */
  lemma RayStep(s: Slider, b: Board, piece: Piece, offset: int, current: int)
    requires |b.tiles| == NumTiles && IsValidTileCoordinate(current)
    requires offset in Offsets(s)
    ensures var r := Ray(s, b, piece, offset, current);
      var next := current + offset;
      if IsFirstColumnExclusion(s, current, offset) || IsEighthColumnExclusion(s, current, offset) then r == []
      else if !IsValidTileCoordinate(next) then r == []
      else if !b.tiles[next].IsTileOccupied() then r == [MajourMove(piece, next)] + Ray(s, b, piece, offset, next)
      else if piece.alliance != b.tiles[next].GetPiece().value.alliance then
        r == [Capture(s, piece, next, b.tiles[next].GetPiece().value)]
      else r == []
  {
  }

  lemma AppendEmpty<T>(a: seq<T>)
    ensures a + [] == a
  {
  }

  lemma Regroup<T>(a: seq<T>, x: T, r: seq<T>)
    ensures a + ([x] + r) == (a + [x]) + r
  {
  }

  /** Row step of a direction: -1 up the board, 1 down, 0 along a row. */
  function RowStep(offset: int): (step: int)
    ensures -1 <= step <= 1
  {
    if offset < -1 then -1 else if offset > 1 then 1 else 0
  }

  /** File step of a direction. */
  function ColumnStep(offset: int): int {
    offset - 8 * RowStep(offset)
  }

  /** `k` unit steps of `step` (-1, 0 or 1), written without multiplication. */
  function Steps(k: int, step: int): int {
    if step == 1 then k else if step == -1 then -k else 0
  }

  /** A step that passed the exclusions moves exactly one row step and one file step. */
  lemma StepGeometry(s: Slider, current: int, offset: int)
    requires IsValidTileCoordinate(current) && offset in Offsets(s)
    requires !IsFirstColumnExclusion(s, current, offset) && !IsEighthColumnExclusion(s, current, offset)
    requires IsValidTileCoordinate(current + offset)
    ensures Row(current + offset) == Row(current) + RowStep(offset)
    ensures Column(current + offset) == Column(current) + ColumnStep(offset)
  {
    Shift(current, RowStep(offset), ColumnStep(offset));
  }

  /** No direction of either table stands still; rook directions keep the row or the file,
      bishop directions change both. */
  lemma DirectionsMove(s: Slider, offset: int)
    requires offset in Offsets(s)
    ensures -1 <= ColumnStep(offset) <= 1
    ensures RowStep(offset) != 0 || ColumnStep(offset) != 0
    ensures s.Orthogonal? ==> RowStep(offset) == 0 || ColumnStep(offset) == 0
    ensures s.Diagonal? ==> RowStep(offset) != 0 && ColumnStep(offset) != 0
  {
  }

  /** The i-th move of `r` lands, inside the board, i+1 row steps `rs` and i+1 file steps
      `cs` away from `current`. */
  ghost predicate Straight(r: seq<Move>, current: int, rs: int, cs: int)
    requires IsValidTileCoordinate(current)
  {
    forall i :: 0 <= i < |r| ==>
      IsValidTileCoordinate(Destination(r[i])) &&
      Row(Destination(r[i])) == Row(current) + Steps(i + 1, rs) &&
      Column(Destination(r[i])) == Column(current) + Steps(i + 1, cs)
  }

  /** The i-th move of a ray goes i+1 steps along its direction without wrapping. */
  lemma {:induction false} RayGeometry(s: Slider, b: Board, piece: Piece, offset: int, current: int)
    requires |b.tiles| == NumTiles && IsValidTileCoordinate(current)
    requires offset in Offsets(s)
    ensures Straight(Ray(s, b, piece, offset, current), current, RowStep(offset), ColumnStep(offset))
    decreases if offset > 0 then NumTiles - current else current
  {
    var r := Ray(s, b, piece, offset, current);
    var rs, cs := RowStep(offset), ColumnStep(offset);
    if IsFirstColumnExclusion(s, current, offset) || IsEighthColumnExclusion(s, current, offset) {
      assert r == [];
    } else {
      var next := current + offset;
      if !IsValidTileCoordinate(next) {
        assert r == [];
      } else {
        assert Row(next) == Row(current) + rs && Column(next) == Column(current) + cs by {
          StepGeometry(s, current, offset);
        }
        assert -1 <= cs <= 1 by {
          DirectionsMove(s, offset);
        }
        if !IsOccupied(b, next) {
          var rest := Ray(s, b, piece, offset, next);
          assert r == [MajourMove(piece, next)] + rest;
          RayGeometry(s, b, piece, offset, next);
          ExtendGeometry(r, rest, piece, current, next, rs, cs);
        } else {
          assert |r| <= 1 && (|r| == 1 ==> Destination(r[0]) == next);
        }
      }
    }
  }

  /** A quiet step onto `next` followed by a ray that goes straight on from `next` is a
      ray that goes straight on from `current`. */
  lemma ExtendGeometry(r: seq<Move>, rest: seq<Move>, piece: Piece, current: int, next: int, rs: int, cs: int)
    requires -1 <= rs <= 1 && -1 <= cs <= 1
    requires r == [MajourMove(piece, next)] + rest
    requires IsValidTileCoordinate(current) && IsValidTileCoordinate(next)
    requires Row(next) == Row(current) + rs && Column(next) == Column(current) + cs
    requires Straight(rest, next, rs, cs)
    ensures Straight(r, current, rs, cs)
  {
    forall i | 0 <= i < |r|
      ensures IsValidTileCoordinate(Destination(r[i]))
      ensures Row(Destination(r[i])) == Row(current) + Steps(i + 1, rs)
      ensures Column(Destination(r[i])) == Column(current) + Steps(i + 1, cs)
    {
      if i > 0 {
        assert r[i] == rest[i - 1];
      }
    }
  }

  /** A quiet move of `piece` onto an empty square. */
  ghost predicate QuietMove(b: Board, piece: Piece, m: Move)
    requires |b.tiles| == NumTiles
  {
    m.MajourMove? && m.movedPiece == piece && IsValidTileCoordinate(m.destination) &&
    !IsOccupied(b, m.destination)
  }

  /** The slider's capture of the enemy piece standing on the destination. */
  ghost predicate CaptureMove(s: Slider, b: Board, piece: Piece, m: Move)
    requires |b.tiles| == NumTiles
  {
    (m.MajourAttackMove? || m.AttackMove?) &&
    m == Capture(s, piece, m.destination, m.attackedPiece) &&
    IsValidTileCoordinate(m.destination) &&
    PieceAt(b, m.destination) == Some(m.attackedPiece) &&
    m.attackedPiece.alliance != piece.alliance
  }

  /** Every move of a ray but the last is a quiet move; the last is a quiet move or a capture. */
  lemma {:induction false} RayContents(s: Slider, b: Board, piece: Piece, offset: int, current: int)
    requires |b.tiles| == NumTiles && IsValidTileCoordinate(current)
    requires offset in Offsets(s)
    ensures var r := Ray(s, b, piece, offset, current);
      forall i :: 0 <= i < |r| - 1 ==> QuietMove(b, piece, r[i])
    ensures var r := Ray(s, b, piece, offset, current);
      |r| > 0 ==> QuietMove(b, piece, r[|r| - 1]) || CaptureMove(s, b, piece, r[|r| - 1])
    decreases if offset > 0 then NumTiles - current else current
  {
    var r := Ray(s, b, piece, offset, current);
    if !(IsFirstColumnExclusion(s, current, offset) || IsEighthColumnExclusion(s, current, offset)) {
      var next := current + offset;
      if IsValidTileCoordinate(next) && !IsOccupied(b, next) {
        var rest := Ray(s, b, piece, offset, next);
        RayContents(s, b, piece, offset, next);
        assert r == [MajourMove(piece, next)] + rest;
        assert forall i :: 1 <= i < |r| ==> r[i] == rest[i - 1];
      }
    }
  }

  /** A destination reachable by the slider: a different square on the same row or file
      (rook) or on the same diagonal (bishop). */
  ghost predicate OnLine(s: Slider, from: int, to: int)
    requires IsValidTileCoordinate(from) && IsValidTileCoordinate(to)
  {
    var dr := Row(to) - Row(from);
    var dc := Column(to) - Column(from);
    from != to &&
    match s
    case Orthogonal => dr == 0 || dc == 0
    case Diagonal => dr == dc || dr == -dc
  }

  /** A generated slider move: the piece itself moves along one of its lines onto an empty
      square, or onto an enemy piece which it captures. */
  ghost predicate SliderMoveOk(s: Slider, b: Board, piece: Piece, m: Move)
    requires |b.tiles| == NumTiles && IsValidTileCoordinate(piece.position)
  {
    (QuietMove(b, piece, m) || CaptureMove(s, b, piece, m)) &&
    OnLine(s, piece.position, m.destination)
  }

  /** The i-th move of a ray from the piece's square lies on one of the piece's lines. */
  lemma RayMoveOnLine(s: Slider, b: Board, piece: Piece, offset: int, i: int)
    requires |b.tiles| == NumTiles && IsValidTileCoordinate(piece.position)
    requires offset in Offsets(s)
    requires 0 <= i < |Ray(s, b, piece, offset, piece.position)|
    ensures var d := Destination(Ray(s, b, piece, offset, piece.position)[i]);
      IsValidTileCoordinate(d) && OnLine(s, piece.position, d)
    ensures i < 7
  {
    var r := Ray(s, b, piece, offset, piece.position);
    RayGeometry(s, b, piece, offset, piece.position);
    DirectionsMove(s, offset);
    var d := Destination(r[i]);
    var rs, cs := RowStep(offset), ColumnStep(offset);
    assert Row(d) == Row(piece.position) + Steps(i + 1, rs);
    assert Column(d) == Column(piece.position) + Steps(i + 1, cs);
  }

  lemma RayMovesOk(s: Slider, b: Board, piece: Piece, offset: int)
    requires |b.tiles| == NumTiles && IsValidTileCoordinate(piece.position)
    requires offset in Offsets(s)
    ensures forall m :: m in Ray(s, b, piece, offset, piece.position) ==> SliderMoveOk(s, b, piece, m)
    ensures |Ray(s, b, piece, offset, piece.position)| <= 7
  {
    var r := Ray(s, b, piece, offset, piece.position);
    RayContents(s, b, piece, offset, piece.position);
    forall m | m in r
      ensures SliderMoveOk(s, b, piece, m)
    {
      var i :| 0 <= i < |r| && r[i] == m;
      RayMoveOnLine(s, b, piece, offset, i);
      assert QuietMove(b, piece, m) || CaptureMove(s, b, piece, m);
    }
    if |r| > 0 {
      RayMoveOnLine(s, b, piece, offset, |r| - 1);
    }
  }

  /** Every generated move is a slider move of that piece, and each direction contributes
      at most seven moves. */
  lemma {:induction false} SliderMovesSound(s: Slider, b: Board, piece: Piece, n: nat)
    requires |b.tiles| == NumTiles && IsValidTileCoordinate(piece.position)
    requires n <= |Offsets(s)|
    ensures forall m :: m in SliderMovesUpTo(s, b, piece, n) ==> SliderMoveOk(s, b, piece, m)
    ensures |SliderMovesUpTo(s, b, piece, n)| <= 7 * n
  {
    if n > 0 {
      SliderMovesSound(s, b, piece, n - 1);
      RayMovesOk(s, b, piece, Offsets(s)[n - 1]);
    }
  }

  /** The path to a move is clear: every earlier move of its ray is a quiet move onto an
      empty square, one step nearer the origin. */
  lemma RayPathClear(s: Slider, b: Board, piece: Piece, offset: int, j: int)
    requires |b.tiles| == NumTiles && IsValidTileCoordinate(piece.position)
    requires offset in Offsets(s)
    requires 0 <= j < |Ray(s, b, piece, offset, piece.position)|
    ensures var r := Ray(s, b, piece, offset, piece.position);
      forall i :: 0 <= i < j ==>
        (QuietMove(b, piece, r[i]) &&
         Row(r[i].destination) == Row(piece.position) + Steps(i + 1, RowStep(offset)) &&
         Column(r[i].destination) == Column(piece.position) + Steps(i + 1, ColumnStep(offset)))
  {
    RayGeometry(s, b, piece, offset, piece.position);
    RayContents(s, b, piece, offset, piece.position);
  }
}
