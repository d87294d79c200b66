/** The standard position evaluator: each player's score is a sum of integer terms, and
    a position's value is White's score minus Black's. Java's `int` arithmetic wraps;
    every term is built from additions and multiplications of integers (the mobility
    ratio is an integer once cast), so wrapping once at the end gives the same value as
    wrapping after every operation. `None` is an exception from the checkmate test. */
module Evaluator {
  import opened Wrappers
  import opened JavaInts
  import opened Pieces
  import opened Moves
  import opened Boards
  import opened Players

  const CheckBonus: int := 45
  const CheckmateBonus: int := 10000
  const DepthBonus: int := 100
  const CastleBonus: int := 25
  const MobilityMultiplier: int := 5
  const AttackMultiplier: int := 1
  const TwoBishopsBonus: int := 25

  /** The sum of the values of the pieces. */
  function TotalValue(ps: seq<Piece>): (v: int)
    ensures v >= 100 * |ps|
  {
    if ps == [] then 0 else TotalValue(ps[..|ps| - 1]) + PieceValue(ps[|ps| - 1].kind)
  }

  /** The number of bishops among the pieces. */
  function BishopCount(ps: seq<Piece>): (n: nat)
    ensures n <= |ps|
  {
    if ps == [] then 0 else BishopCount(ps[..|ps| - 1]) + (if ps[|ps| - 1].kind == Bishop then 1 else 0)
  }

  /** `pieceValue`: material, plus a bonus for holding exactly two bishops. */
  function PieceValueScore(ps: seq<Piece>): int {
    TotalValue(ps) + (if BishopCount(ps) == 2 then TwoBishopsBonus else 0)
  }

  method PieceValueLoop(ps: seq<Piece>) returns (score: int)
    ensures score == PieceValueScore(ps)
  {
    var pieceValuationScore := 0;
    var numBishops := 0;
    for i := 0 to |ps|
      invariant pieceValuationScore == TotalValue(ps[..i])
      invariant numBishops == BishopCount(ps[..i])
    {
      assert ps[..i + 1][..i] == ps[..i];
      pieceValuationScore := pieceValuationScore + PieceValue(ps[i].kind);
      if ps[i].kind == Bishop {
        numBishops := numBishops + 1;
      }
    }
    assert ps[..|ps|] == ps;
    score := pieceValuationScore + (if numBishops == 2 then TwoBishopsBonus else 0);
  }

  lemma {:induction false} TotalValueAppend(ps: seq<Piece>, qs: seq<Piece>)
    ensures TotalValue(ps + qs) == TotalValue(ps) + TotalValue(qs)
  {
    if qs != [] {
      var init := qs[..|qs| - 1];
      assert (ps + qs)[..|ps + qs| - 1] == ps + init;
      assert (ps + qs)[|ps + qs| - 1] == qs[|qs| - 1];
      TotalValueAppend(ps, init);
    } else {
      assert ps + qs == ps;
    }
  }

  /** A side that still has its king is worth at least the king. */
  lemma {:induction false} MaterialIncludesKing(ps: seq<Piece>)
    requires EstablishKing(ps).Some?
    ensures PieceValueScore(ps) >= PieceValue(King) + 100 * (|ps| - 1)
  {
    var k := EstablishKing(ps).value;
    var i :| 0 <= i < |ps| && ps[i] == k;
    assert ps == ps[..i] + [ps[i]] + ps[i + 1..];
    TotalValueAppend(ps[..i] + [ps[i]], ps[i + 1..]);
    TotalValueAppend(ps[..i], [ps[i]]);
    assert TotalValue([ps[i]]) == PieceValue(King) by {
      assert [ps[i]][..0] == [];
    }
  }

  /** An attack whose captured piece is worth at least the capturing piece. */
  predicate Favourable(m: Move) {
    IsAttack(m) && MovedPieceOf(m).Some? && AttackedPieceOf(m).Some? &&
    PieceValue(MovedPieceOf(m).value.kind) <= PieceValue(AttackedPieceOf(m).value.kind)
  }

  /** `attacks`: the number of favourable attacks among the moves. */
  function AttackScore(moves: seq<Move>): (n: int)
    ensures 0 <= n <= |moves|
    ensures (forall m :: m in moves ==> !IsAttack(m)) ==> n == 0
    ensures (forall m :: m in moves ==> Favourable(m)) ==> n == |moves|
  {
    if moves == [] then 0
    else
      var init := moves[..|moves| - 1];
      assert forall m :: m in init ==> m in moves;
      AttackScore(init) + (if Favourable(moves[|moves| - 1]) then AttackMultiplier else 0)
  }

  method AttacksLoop(moves: seq<Move>) returns (score: int)
    ensures score == AttackScore(moves)
  {
    var attackScore := 0;
    for i := 0 to |moves|
      invariant attackScore == AttackScore(moves[..i])
    {
      assert moves[..i + 1][..i] == moves[..i];
      var move := moves[i];
      if IsAttack(move) {
        var movedPiece := MovedPieceOf(move);
        var attackedPiece := AttackedPieceOf(move);
        AttackedPieceIsOfAttack(move);
        if PieceValue(movedPiece.value.kind) <= PieceValue(attackedPiece.value.kind) {
          attackScore := attackScore + 1;
        }
      }
    }
    assert moves[..|moves|] == moves;
    score := attackScore * AttackMultiplier;
  }

  /** An attack has a moved piece and a captured piece. */
  lemma {:induction false} AttackedPieceIsOfAttack(m: Move)
    requires IsAttack(m)
    ensures MovedPieceOf(m).Some? && AttackedPieceOf(m).Some?
  {
    if m.PawnPromotion? {
      AttackedPieceIsOfAttack(m.decoratedMove);
    }
  }

  /** `mobilityRatio`: ten times the player's number of legal moves over the opponent's,
      truncated; 0 when the player has none. The float division by an opponent without
      moves gives infinity, which the cast turns into `Integer.MAX_VALUE`. */
  function MobilityRatio(own: nat, opponent: nat): (r: int)
    ensures own == 0 ==> r == 0
    ensures own > 0 && opponent > 0 && own * 10 / opponent <= MaxValue ==>
      r * opponent <= own * 10 < (r + 1) * opponent
    ensures 0 <= r <= MaxValue
  {
    if own == 0 then 0
    else if opponent == 0 then MaxValue
    else if own * 10 / opponent > MaxValue then MaxValue
    else own * 10 / opponent
  }

  /** `depthBonus`: 1 at depth 0, else a hundred times the depth. */
  function DepthBonusOf(depth: int): (r: int)
    ensures depth >= 0 ==> r >= 1
  {
    if depth == 0 then 1 else DepthBonus * depth
  }

  /** A mate found at a greater remaining depth earns a larger bonus. */
  lemma DeeperMateScoresHigher(d1: int, d2: int)
    requires 0 <= d1 < d2
    ensures CheckmateBonus * DepthBonusOf(d1) < CheckmateBonus * DepthBonusOf(d2)
  {
  }

  /** The mate bonus fits in a Java `int` up to depth 2147 and overflows from 2148. */
  lemma MateBonusRange(depth: int)
    requires depth >= 0
    ensures CheckmateBonus * DepthBonusOf(depth) <= MaxValue <==> depth <= 2147
  {
  }

  /** The Java `int` product `CHECK_MATE_BONUS * depthBonus(depth)` is the exact mate bonus
      up to depth 2147; at depth 2148 it wraps round to a negative value. */
  lemma MateBonusAsInt(depth: int)
    requires depth >= 0
    ensures depth <= 2147 ==> Wrap32(CheckmateBonus * DepthBonusOf(depth)) == CheckmateBonus * DepthBonusOf(depth)
    ensures depth == 2148 ==> Wrap32(CheckmateBonus * DepthBonusOf(depth)) < 0
  {
    MateBonusRange(depth);
    if depth == 2148 {
      assert CheckmateBonus * DepthBonusOf(depth) == 2148000000;
      assert Wrap32(2148000000) == 2148000000 - 0x1_0000_0000;
    }
  }

  /** `check`: the bonus for putting the opponent in check. */
  function CheckTerm(p: Player): (r: int)
    requires Valid(p.board)
    ensures r == CheckBonus <==> Opponent(p).isInCheck
    ensures r == 0 <==> !Opponent(p).isInCheck
  {
    if Opponent(p).isInCheck then CheckBonus else 0
  }

  /** `checkMate`: the depth-scaled bonus for mating the opponent. */
  function CheckMateTerm(p: Player, depth: int): (r: Option<int>)
    requires Valid(p.board)
    ensures r.None? <==> IsInCheckMate(Opponent(p)).None?
    ensures r.Some? && depth >= 0 ==> (r.value > 0 <==> IsInCheckMate(Opponent(p)) == Some(true))
  {
    match IsInCheckMate(Opponent(p))
    case None => None
    case Some(mate) => Some(if mate then CheckmateBonus * DepthBonusOf(depth) else 0)
  }

  /** `kingThreats`: the mate bonus when the opponent is mated, else the check bonus. */
  function KingThreats(p: Player, depth: int): (r: Option<int>)
    requires Valid(p.board)
    ensures r.None? <==> IsInCheckMate(Opponent(p)).None?
    ensures r.Some? && depth >= 0 ==> r.value >= CheckTerm(p)
  {
    match IsInCheckMate(Opponent(p))
    case None => None
    case Some(mate) => Some(if mate then CheckmateBonus * DepthBonusOf(depth) else CheckTerm(p))
  }

  /** `mobility`. */
  function Mobility(p: Player): int
    requires Valid(p.board)
  {
    MobilityMultiplier * MobilityRatio(|p.legalMoves|, |Opponent(p).legalMoves|)
  }

  /** `castled`: zero, since no player reports castling. */
  function Castled(p: Player): (r: int)
    ensures r == 0
  {
    if IsCastled(p) then CastleBonus else 0
  }

  /** `stalemateRisk`: half the mate bonus when the player has no move and is not in check. */
  function StalemateRisk(p: Player): int {
    if |p.legalMoves| == 0 && !p.isInCheck then CheckmateBonus / 2 else 0
  }

  /** `checkmateRisk`: the mate bonus when the player is in check and has no move. */
  function CheckmateRisk(p: Player): int {
    if p.isInCheck && |p.legalMoves| == 0 then CheckmateBonus else 0
  }

  /** At most one of the two risks applies, and only to a player without moves. */
  lemma RisksExclusive(p: Player)
    ensures StalemateRisk(p) == 0 || CheckmateRisk(p) == 0
    ensures StalemateRisk(p) + CheckmateRisk(p) > 0 <==> |p.legalMoves| == 0
  {
  }

  /** `scorePlayer`, exact; `None` when the opponent's mate test throws. */
  function ExactScore(p: Player, depth: int): Option<int>
    requires Valid(p.board)
  {
    match (KingThreats(p, depth), CheckMateTerm(p, depth))
    case (Some(threats), Some(mate)) =>
      Some(PieceValueScore(p.board.PiecesOf(p.alliance)) + AttackScore(p.legalMoves) + threats +
           Mobility(p) + CheckTerm(p) + mate + Castled(p) - StalemateRisk(p) - CheckmateRisk(p))
    case _ => None
  }

  /** Mating the opponent is counted twice, by `kingThreats` and by `checkMate`, and
      outweighs every risk term. */
  lemma MateCountedTwice(p: Player, depth: int)
    requires Valid(p.board) && depth >= 0 && IsInCheckMate(Opponent(p)) == Some(true)
    ensures ExactScore(p, depth).Some?
    ensures ExactScore(p, depth).value >=
      PieceValueScore(p.board.PiecesOf(p.alliance)) + 2 * CheckmateBonus * DepthBonusOf(depth) - CheckmateBonus
  {
    RisksExclusive(p);
  }

  /** The difference of two scores in Java's 32-bit arithmetic, each score already
      wrapped to an `int`; `None` when either score threw. */
  function Difference(white: Option<int>, black: Option<int>): (r: Option<Int32>)
    ensures r.Some? <==> white.Some? && black.Some?
    ensures r.Some? ==> r.value == Wrap32(white.value - black.value)
  {
    match (white, black)
    case (Some(w), Some(k)) =>
      WrapDifference(w, k);
      Some(Wrap32(Wrap32(w) - Wrap32(k)))
    case _ => None
  }

  /** `evaluate`: White's score minus Black's. */
  function Evaluate(b: Board, depth: int): Option<Int32>
    requires Valid(b)
  {
    Difference(ExactScore(PlayerOf(b, White), depth), ExactScore(PlayerOf(b, Black), depth))
  }

  /** `Wrap32(x)` is the only `int` congruent to `x` modulo 2^32. */
  lemma WrapUnique(x: int, r: int)
    requires MinValue <= r <= MaxValue && (r - x) % 0x1_0000_0000 == 0
    ensures r == Wrap32(x)
  {
    var w := Wrap32(x);
    var a := (r - x) / 0x1_0000_0000;
    var c := (w - x) / 0x1_0000_0000;
    assert r - x == a * 0x1_0000_0000;
    assert w - x == c * 0x1_0000_0000;
    assert r - w == (a - c) * 0x1_0000_0000;
  }

  lemma MultipleOfModulus(a: int)
    requires a % 0x1_0000_0000 == 0
    ensures a == (a / 0x1_0000_0000) * 0x1_0000_0000
  {
  }

  lemma ModulusMultiple(q: int)
    ensures (q * 0x1_0000_0000) % 0x1_0000_0000 == 0
  {
  }

  /** Wrapping each operand first does not change a wrapped difference. */
  lemma WrapDifference(x: int, y: int)
    ensures Wrap32(Wrap32(x) - Wrap32(y)) == Wrap32(x - y)
  {
    var wx, wy := Wrap32(x), Wrap32(y);
    var r := Wrap32(wx - wy);
    MultipleOfModulus(r - (wx - wy));
    MultipleOfModulus(wx - x);
    MultipleOfModulus(wy - y);
    var q := (r - (wx - wy)) / 0x1_0000_0000 + (wx - x) / 0x1_0000_0000 - (wy - y) / 0x1_0000_0000;
    assert r - (x - y) == q * 0x1_0000_0000;
    ModulusMultiple(q);
    WrapUnique(x - y, r);
  }
}
