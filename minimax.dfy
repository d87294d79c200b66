/** Fixed-depth minimax over an abstract game. A position of type `S` offers, in order,
    the transitions of its side to move's legal moves (`makeMove` of each); only those
    whose status is DONE are searched. White maximises, Black minimises, and values are
    Java `int`s with `Integer.MIN_VALUE` and `Integer.MAX_VALUE` as the starting bounds. */
module MiniMax {
  import opened Wrappers
  import opened JavaInts
  import opened Boards
  import opened Players

  /** The outcome of one legal move: the move, the position it leads to and whether its
      status is DONE. */
  datatype Transition<S, M> = Transition(move: M, board: S, isDone: bool)

  /** A game: the transitions of a position, the game-end test (checkmate or stalemate of
      the side to move), whether White is to move, and the evaluator. */
  datatype Game<!S, M> = Game(
    transitions: S -> seq<Transition<S, M>>,
    isGameEnd: S -> bool,
    whiteToMove: S -> bool,
    evaluate: (S, int) -> Int32)

  /** `isGameEndScenario` on a chess position: the side to move is checkmated or, when
      the first test answers false, stalemated; an exception in either test propagates.
      The game is over exactly when every legal move can be made and none leaves the
      king safe. */
  function IsGameEndScenario(b: Board): (r: Option<bool>)
    requires Valid(b)
    ensures r == Some(true) <==>
      var p := CurrentPlayer(b);
      forall i :: 0 <= i < |p.legalMoves| ==> Makes(p, p.legalMoves[i]) && !Escapes(p, p.legalMoves[i])
  {
    var p := CurrentPlayer(b);
    MateAndStalemateExclusive(p);
    match IsInCheckMate(p)
    case None => None
    case Some(true) => Some(true)
    case Some(false) => IsInStaleMate(p)
  }

  /** `min`: the evaluation at depth 0 or at the end of the game, else the smallest `max`
      value of the DONE children one level down. */
  function MinSpec<S, M>(g: Game<S, M>, s: S, depth: nat): Int32
    decreases depth, 0, 0
  {
    if depth == 0 || g.isGameEnd(s) then g.evaluate(s, depth)
    else MinOver(g, g.transitions(s), depth - 1)
  }

  /** `max`: the evaluation at depth 0 or at the end of the game, else the largest `min`
      value of the DONE children one level down. */
  function MaxSpec<S, M>(g: Game<S, M>, s: S, depth: nat): Int32
    decreases depth, 0, 0
  {
    if depth == 0 || g.isGameEnd(s) then g.evaluate(s, depth)
    else MaxOver(g, g.transitions(s), depth - 1)
  }

  /** The loop of `min` over the transitions, starting from `Integer.MAX_VALUE`. */
  function MinOver<S, M>(g: Game<S, M>, ts: seq<Transition<S, M>>, d: nat): Int32
    decreases d, 1, |ts|
  {
    if ts == [] then MaxValue
    else
      var lowest := MinOver(g, ts[..|ts| - 1], d);
      var t := ts[|ts| - 1];
      if t.isDone && MaxSpec(g, t.board, d) <= lowest then MaxSpec(g, t.board, d) else lowest
  }

  /** The loop of `max` over the transitions, starting from `Integer.MIN_VALUE`. */
  function MaxOver<S, M>(g: Game<S, M>, ts: seq<Transition<S, M>>, d: nat): Int32
    decreases d, 1, |ts|
  {
    if ts == [] then MinValue
    else
      var highest := MaxOver(g, ts[..|ts| - 1], d);
      var t := ts[|ts| - 1];
      if t.isDone && MinSpec(g, t.board, d) >= highest then MinSpec(g, t.board, d) else highest
  }

  /** `min`'s loop yields a lower bound of every DONE child's `max` value that is attained
      by one of them, or `Integer.MAX_VALUE` when no child is DONE. */
  lemma {:induction false} MinOverIsMinimum<S, M>(g: Game<S, M>, ts: seq<Transition<S, M>>, d: nat)
    ensures forall i :: 0 <= i < |ts| && ts[i].isDone ==> MinOver(g, ts, d) <= MaxSpec(g, ts[i].board, d)
    ensures (exists i :: 0 <= i < |ts| && ts[i].isDone) ==>
      exists i :: 0 <= i < |ts| && ts[i].isDone && MinOver(g, ts, d) == MaxSpec(g, ts[i].board, d)
    ensures (forall i :: 0 <= i < |ts| ==> !ts[i].isDone) ==> MinOver(g, ts, d) == MaxValue
  {
    if ts != [] {
      var init := ts[..|ts| - 1];
      MinOverIsMinimum(g, init, d);
      assert forall i :: 0 <= i < |init| ==> init[i] == ts[i];
      var n := |ts| - 1;
      if ts[n].isDone && MaxSpec(g, ts[n].board, d) <= MinOver(g, init, d) {
        assert MinOver(g, ts, d) == MaxSpec(g, ts[n].board, d);
      } else if exists i :: 0 <= i < |init| && init[i].isDone {
        var k :| 0 <= k < |init| && init[k].isDone && MinOver(g, init, d) == MaxSpec(g, init[k].board, d);
        assert ts[k].isDone && MinOver(g, ts, d) == MaxSpec(g, ts[k].board, d);
      }
    }
  }

  /** `max`'s loop yields an upper bound of every DONE child's `min` value that is attained
      by one of them, or `Integer.MIN_VALUE` when no child is DONE. */
  lemma {:induction false} MaxOverIsMaximum<S, M>(g: Game<S, M>, ts: seq<Transition<S, M>>, d: nat)
    ensures forall i :: 0 <= i < |ts| && ts[i].isDone ==> MaxOver(g, ts, d) >= MinSpec(g, ts[i].board, d)
    ensures (exists i :: 0 <= i < |ts| && ts[i].isDone) ==>
      exists i :: 0 <= i < |ts| && ts[i].isDone && MaxOver(g, ts, d) == MinSpec(g, ts[i].board, d)
    ensures (forall i :: 0 <= i < |ts| ==> !ts[i].isDone) ==> MaxOver(g, ts, d) == MinValue
  {
    if ts != [] {
      var init := ts[..|ts| - 1];
      MaxOverIsMaximum(g, init, d);
      assert forall i :: 0 <= i < |init| ==> init[i] == ts[i];
      var n := |ts| - 1;
      if ts[n].isDone && MinSpec(g, ts[n].board, d) >= MaxOver(g, init, d) {
        assert MaxOver(g, ts, d) == MinSpec(g, ts[n].board, d);
      } else if exists i :: 0 <= i < |init| && init[i].isDone {
        var k :| 0 <= k < |init| && init[k].isDone && MaxOver(g, init, d) == MinSpec(g, init[k].board, d);
        assert ts[k].isDone && MaxOver(g, ts, d) == MinSpec(g, ts[k].board, d);
      }
    }
  }

  /** The DONE transitions, in order. */
  function DoneOnly<S, M>(ts: seq<Transition<S, M>>): (r: seq<Transition<S, M>>)
    ensures |r| <= |ts| && forall i :: 0 <= i < |r| ==> r[i].isDone
  {
    if ts == [] then []
    else
      var last := ts[|ts| - 1];
      DoneOnly(ts[..|ts| - 1]) + (if last.isDone then [last] else [])
  }

  /** Transitions whose status is not DONE never change the result of either loop. */
  lemma {:induction false} NotDoneIgnored<S, M>(g: Game<S, M>, ts: seq<Transition<S, M>>, d: nat)
    ensures MinOver(g, ts, d) == MinOver(g, DoneOnly(ts), d)
    ensures MaxOver(g, ts, d) == MaxOver(g, DoneOnly(ts), d)
  {
    if ts != [] {
      var init := ts[..|ts| - 1];
      var last := ts[|ts| - 1];
      NotDoneIgnored(g, init, d);
      assert ts[..|ts| - 1] == init;
      if last.isDone {
        var r := DoneOnly(init) + [last];
        assert DoneOnly(ts) == r;
        assert r[..|r| - 1] == DoneOnly(init) && r[|r| - 1] == last;
        assert MinOver(g, r, d) == MinOver(g, ts, d);
        assert MaxOver(g, r, d) == MaxOver(g, ts, d);
      } else {
        assert DoneOnly(ts) == DoneOnly(init);
      }
    }
  }

  /** A position at depth 0 or at the end of the game is evaluated; any other position
      takes the value of one of its DONE children, or the starting bound when it has
      none. */
  lemma InnerNodeValue<S, M>(g: Game<S, M>, s: S, depth: nat)
    ensures depth == 0 || g.isGameEnd(s) ==>
      MinSpec(g, s, depth) == g.evaluate(s, depth) && MaxSpec(g, s, depth) == g.evaluate(s, depth)
    ensures depth > 0 && !g.isGameEnd(s) ==>
      var ts := g.transitions(s);
      (MinSpec(g, s, depth) == MaxValue ||
       exists i :: 0 <= i < |ts| && ts[i].isDone && MinSpec(g, s, depth) == MaxSpec(g, ts[i].board, depth - 1)) &&
      (MaxSpec(g, s, depth) == MinValue ||
       exists i :: 0 <= i < |ts| && ts[i].isDone && MaxSpec(g, s, depth) == MinSpec(g, ts[i].board, depth - 1))
  {
    if depth > 0 && !g.isGameEnd(s) {
      MinOverIsMinimum(g, g.transitions(s), depth - 1);
      MaxOverIsMaximum(g, g.transitions(s), depth - 1);
    }
  }

  method Min<S, M>(g: Game<S, M>, s: S, depth: nat) returns (v: Int32)
    ensures v == MinSpec(g, s, depth)
    decreases depth
  {
    if depth == 0 || g.isGameEnd(s) {
      return g.evaluate(s, depth);
    }
    var lowerSeenVal: Int32 := MaxValue;
    var ts := g.transitions(s);
    for i := 0 to |ts|
      invariant lowerSeenVal == MinOver(g, ts[..i], depth - 1)
    {
      assert ts[..i + 1][..i] == ts[..i];
      if ts[i].isDone {
        var currVal := Max(g, ts[i].board, depth - 1);
        if currVal <= lowerSeenVal {
          lowerSeenVal := currVal;
        }
      }
    }
    assert ts[..|ts|] == ts;
    return lowerSeenVal;
  }

  method Max<S, M>(g: Game<S, M>, s: S, depth: nat) returns (v: Int32)
    ensures v == MaxSpec(g, s, depth)
    decreases depth
  {
    if depth == 0 || g.isGameEnd(s) {
      return g.evaluate(s, depth);
    }
    var highestSeenVal: Int32 := MinValue;
    var ts := g.transitions(s);
    for i := 0 to |ts|
      invariant highestSeenVal == MaxOver(g, ts[..i], depth - 1)
    {
      assert ts[..i + 1][..i] == ts[..i];
      if ts[i].isDone {
        var currVal := Min(g, ts[i].board, depth - 1);
        if currVal >= highestSeenVal {
          highestSeenVal := currVal;
        }
      }
    }
    assert ts[..|ts|] == ts;
    return highestSeenVal;
  }

  /** The state of the root loop: the best values seen for White and for Black and the
      move that produced the latest best. */
  datatype RootState<M> = RootState(highestSeenVal: Int32, lowerSeenVal: Int32, bestMove: Option<M>)

  /** The value the root gives a child: `min` of it when White is to move, else `max`. */
  function ChildValue<S, M>(g: Game<S, M>, t: Transition<S, M>, white: bool, d: nat): Int32 {
    if white then MinSpec(g, t.board, d) else MaxSpec(g, t.board, d)
  }

  /** `v` is at least as good as `w` for the side to move. */
  predicate AtLeastAsGood(white: bool, v: int, w: int) {
    if white then v >= w else v <= w
  }

  /** The loop of `execute` over the transitions: a DONE child whose value is at least as
      good as the best so far becomes the best move. */
  function RootSearch<S, M>(g: Game<S, M>, ts: seq<Transition<S, M>>, white: bool, d: nat): RootState<M> {
    if ts == [] then RootState(MinValue, MaxValue, None)
    else
      var acc := RootSearch(g, ts[..|ts| - 1], white, d);
      var t := ts[|ts| - 1];
      if !t.isDone then acc
      else
        var v := ChildValue(g, t, white, d);
        if white && v >= acc.highestSeenVal then RootState(v, acc.lowerSeenVal, Some(t.move))
        else if !white && v <= acc.lowerSeenVal then RootState(acc.highestSeenVal, v, Some(t.move))
        else acc
  }

  /** The best value seen by the side to move. */
  function BestSeen<M>(st: RootState<M>, white: bool): Int32 {
    if white then st.highestSeenVal else st.lowerSeenVal
  }

  /** Child `i` is DONE, its value is at least as good as every DONE child's, and every
      later DONE child is strictly worse. */
  ghost predicate IsLastBest<S, M>(g: Game<S, M>, ts: seq<Transition<S, M>>, white: bool, d: nat, i: int) {
    0 <= i < |ts| && ts[i].isDone &&
    (forall j :: 0 <= j < |ts| && ts[j].isDone ==>
      AtLeastAsGood(white, ChildValue(g, ts[i], white, d), ChildValue(g, ts[j], white, d))) &&
    (forall j :: i < j < |ts| && ts[j].isDone ==>
      !AtLeastAsGood(white, ChildValue(g, ts[j], white, d), ChildValue(g, ts[i], white, d)))
  }

  /** What the root loop keeps: no move exactly when no child is DONE (with the starting
      bound as best value), otherwise the move of the last best child and its value. */
  ghost predicate RootInvariant<S, M>(g: Game<S, M>, ts: seq<Transition<S, M>>, white: bool, d: nat, st: RootState<M>) {
    (st.bestMove.None? <==> forall i :: 0 <= i < |ts| ==> !ts[i].isDone) &&
    (st.bestMove.None? ==> BestSeen(st, white) == (if white then MinValue else MaxValue)) &&
    (st.bestMove.Some? ==>
      exists i :: IsLastBest(g, ts, white, d, i) && st.bestMove.value == ts[i].move &&
        BestSeen(st, white) == ChildValue(g, ts[i], white, d))
  }

  /** A last DONE child at least as good as the best so far becomes the last best. */
  lemma TakeLast<S, M>(g: Game<S, M>, ts: seq<Transition<S, M>>, white: bool, d: nat, st: RootState<M>)
    requires ts != [] && ts[|ts| - 1].isDone
    requires RootInvariant(g, ts[..|ts| - 1], white, d, st)
    requires AtLeastAsGood(white, ChildValue(g, ts[|ts| - 1], white, d), BestSeen(st, white))
    ensures IsLastBest(g, ts, white, d, |ts| - 1)
  {
    var init := ts[..|ts| - 1];
    var n := |ts| - 1;
    var v := ChildValue(g, ts[n], white, d);
    forall j | 0 <= j < |ts| && ts[j].isDone
      ensures AtLeastAsGood(white, v, ChildValue(g, ts[j], white, d))
    {
      if j < n {
        assert init[j] == ts[j];
        var i :| IsLastBest(g, init, white, d, i) && BestSeen(st, white) == ChildValue(g, init[i], white, d);
      }
    }
  }

  /** A last child that is not DONE, or that is strictly worse, leaves the last best
      child of the others in place. */
  lemma KeepLastBest<S, M>(g: Game<S, M>, ts: seq<Transition<S, M>>, white: bool, d: nat, i: int)
    requires ts != [] && IsLastBest(g, ts[..|ts| - 1], white, d, i)
    requires ts[|ts| - 1].isDone ==>
      !AtLeastAsGood(white, ChildValue(g, ts[|ts| - 1], white, d), ChildValue(g, ts[i], white, d))
    ensures IsLastBest(g, ts, white, d, i)
  {
    var init := ts[..|ts| - 1];
    assert forall j :: 0 <= j < |init| ==> init[j] == ts[j];
  }

  /** One more child keeps the invariant of the root loop. */
  lemma RootStep<S, M>(g: Game<S, M>, ts: seq<Transition<S, M>>, white: bool, d: nat)
    requires ts != [] && RootInvariant(g, ts[..|ts| - 1], white, d, RootSearch(g, ts[..|ts| - 1], white, d))
    ensures RootInvariant(g, ts, white, d, RootSearch(g, ts, white, d))
  {
    var init := ts[..|ts| - 1];
    var n := |ts| - 1;
    var acc := RootSearch(g, init, white, d);
    var st := RootSearch(g, ts, white, d);
    if ts[n].isDone && AtLeastAsGood(white, ChildValue(g, ts[n], white, d), BestSeen(acc, white)) {
      TakeLast(g, ts, white, d, acc);
      assert st.bestMove == Some(ts[n].move) && BestSeen(st, white) == ChildValue(g, ts[n], white, d);
      InvariantAt(g, ts, white, d, st, n);
    } else {
      assert st == acc;
      if acc.bestMove.Some? {
        var i :| IsLastBest(g, init, white, d, i) && acc.bestMove.value == init[i].move &&
          BestSeen(acc, white) == ChildValue(g, init[i], white, d);
        KeepLastBest(g, ts, white, d, i);
        assert init[i] == ts[i];
        InvariantAt(g, ts, white, d, st, i);
      } else {
        NothingDoneYet(g, ts, white, d, acc);
      }
    }
  }

  /** A state holding the last best child's move and value satisfies the invariant. */
  lemma InvariantAt<S, M>(g: Game<S, M>, ts: seq<Transition<S, M>>, white: bool, d: nat, st: RootState<M>, i: int)
    requires IsLastBest(g, ts, white, d, i)
    requires st.bestMove == Some(ts[i].move) && BestSeen(st, white) == ChildValue(g, ts[i], white, d)
    ensures RootInvariant(g, ts, white, d, st)
  {
  }

  /** While no child was DONE the starting bound is the best value, which every child
      reaches, so the last child is not DONE either when it does not become the best. */
  lemma NothingDoneYet<S, M>(g: Game<S, M>, ts: seq<Transition<S, M>>, white: bool, d: nat, acc: RootState<M>)
    requires ts != [] && RootInvariant(g, ts[..|ts| - 1], white, d, acc) && acc.bestMove.None?
    requires ts[|ts| - 1].isDone ==>
      !AtLeastAsGood(white, ChildValue(g, ts[|ts| - 1], white, d), BestSeen(acc, white))
    ensures RootInvariant(g, ts, white, d, acc)
  {
    var init := ts[..|ts| - 1];
    assert forall j :: 0 <= j < |init| ==> init[j] == ts[j];
  }

  /** The root picks a move exactly when some child is DONE; the move picked belongs to a
      DONE child whose value is at least as good as every DONE child's, and every later
      DONE child is strictly worse, so among equal best values the last one wins. */
  lemma {:induction false} RootPicksLastBest<S, M>(g: Game<S, M>, ts: seq<Transition<S, M>>, white: bool, d: nat)
    ensures var st := RootSearch(g, ts, white, d);
      (st.bestMove.None? <==> forall i :: 0 <= i < |ts| ==> !ts[i].isDone) &&
      (st.bestMove.Some? ==>
        exists i :: IsLastBest(g, ts, white, d, i) && st.bestMove.value == ts[i].move &&
          BestSeen(st, white) == ChildValue(g, ts[i], white, d))
  {
    RootLoopInvariant(g, ts, white, d);
  }

  lemma {:induction false} RootLoopInvariant<S, M>(g: Game<S, M>, ts: seq<Transition<S, M>>, white: bool, d: nat)
    ensures RootInvariant(g, ts, white, d, RootSearch(g, ts, white, d))
  {
    if ts != [] {
      RootLoopInvariant(g, ts[..|ts| - 1], white, d);
      RootStep(g, ts, white, d);
    }
  }

  /** The root loop of `execute`. Children are searched one level below `searchDepth`,
      so `searchDepth` must be at least 1 for the search to end. */
  method SelectBestMove<S, M>(g: Game<S, M>, s: S, searchDepth: int) returns (bestMove: Option<M>)
    requires searchDepth >= 1
    ensures bestMove == RootSearch(g, g.transitions(s), g.whiteToMove(s), searchDepth - 1).bestMove
  {
    var depth := searchDepth;
    var white := g.whiteToMove(s);
    var ts := g.transitions(s);
    var highestSeenVal: Int32 := MinValue;
    var lowerSeenVal: Int32 := MaxValue;
    bestMove := None;
    for i := 0 to |ts|
      invariant RootState(highestSeenVal, lowerSeenVal, bestMove) == RootSearch(g, ts[..i], white, depth - 1)
    {
      assert ts[..i + 1][..i] == ts[..i];
      if ts[i].isDone {
        var currValue: Int32;
        if white {
          currValue := Min(g, ts[i].board, depth - 1);
        } else {
          currValue := Max(g, ts[i].board, depth - 1);
        }
        if white && currValue >= highestSeenVal {
          highestSeenVal := currValue;
          bestMove := Some(ts[i].move);
        } else if !white && currValue <= lowerSeenVal {
          lowerSeenVal := currValue;
          bestMove := Some(ts[i].move);
        }
      }
    }
    assert ts[..|ts|] == ts;
  }

  /** `execute`: the best move is searched for and then discarded; the result is always
      null. */
  method Execute<S, M>(g: Game<S, M>, s: S, searchDepth: int) returns (r: Option<M>)
    requires searchDepth >= 1
    ensures r.None?
  {
    var bestMove := SelectBestMove(g, s, searchDepth);
    r := None;
  }
}
