// How the bot of game.js picks its move (chooseBotMove): the difficulty
// table, the scoring of every legal move by the search, the stable
// descending ranking, and the index into the ranking chosen from two random
// numbers, which the model takes as parameters.

module Bot {
  import opened Board
  import opened Apply
  import opened Legality
  import opened Sorting
  import opened GameTree
  import opened Search

  /** One row of the difficulty table: search depth, how many of the best moves to pick among, chance of a blunder. */
  datatype Level = Level(depth: nat, topPool: nat, blunder: real)

  /** The ten levels, from Very Easy to Master. */
  const Levels: seq<Level> := [
    Level(0, 999, 0.72),
    Level(1, 10, 0.6),
    Level(1, 8, 0.5),
    Level(1, 5, 0.36),
    Level(1, 3, 0.24),
    Level(2, 8, 0.2),
    Level(2, 5, 0.12),
    Level(2, 2, 0.08),
    Level(3, 3, 0.03),
    Level(3, 1, 0.0)
  ]

  /** Stronger levels never search less deeply and never blunder more often. */
  lemma LevelsStrengthen()
    ensures |Levels| == 10
    ensures forall i, j | 0 <= i < j < |Levels| :: Levels[i].depth <= Levels[j].depth
    ensures forall i, j | 0 <= i < j < |Levels| :: Levels[i].blunder >= Levels[j].blunder
    ensures forall i | 0 <= i < |Levels| :: Levels[i].topPool >= 1
    ensures forall i | 0 <= i < |Levels| :: 0.0 <= Levels[i].blunder < 1.0
    ensures Levels[0].depth == 0 && Levels[9] == Level(3, 1, 0.0)
  {
  }

  function Max(a: int, b: int): int
  {
    if a < b then b else a
  }

  function Min(a: int, b: int): int
  {
    if a < b then a else b
  }

  /** The table row for a difficulty setting: settings 1 to 10 pick their own row, the others the nearest end. */
  function LevelIndex(difficulty: int): (i: int)
    ensures 0 <= i < |Levels|
    ensures 1 <= difficulty <= 10 ==> i == difficulty - 1
    ensures difficulty < 1 ==> i == 0
    ensures difficulty > 10 ==> i == 9
  {
    Max(0, Min(9, difficulty - 1))
  }

  function LevelFor(difficulty: int): Level
  {
    Levels[LevelIndex(difficulty)]
  }

  /** A number as Math.random returns it: at least 0 and below 1. */
  predicate IsDraw(r: real)
  {
    0.0 <= r < 1.0
  }

  /** Math.floor(draw * k): an index below k, every one of which some draw yields. */
  function Scale(draw: real, k: nat): (i: int)
    requires IsDraw(draw)
    ensures k > 0 ==> 0 <= i < k
    ensures k == 0 ==> i == 0
  {
    ScaleBelow(draw, k);
    (draw * k as real).Floor
  }

  lemma ScaleBelow(draw: real, k: nat)
    requires IsDraw(draw)
    ensures 0.0 <= draw * k as real
    ensures k > 0 ==> draw * k as real < k as real
  {
    if k > 0 {
      assert draw * k as real < 1.0 * k as real;
    }
  }

  /** The draw k / n picks index k out of n. */
  lemma ScaleHits(k: nat, n: nat)
    requires k < n
    ensures IsDraw(k as real / n as real) && Scale(k as real / n as real, n) == k
  {
    var q := k as real / n as real;
    var nr, kr := n as real, k as real;
    assert q * nr == kr;
    assert (1.0 - q) * nr == nr - q * nr;
    assert nr - kr > 0.0;
    DividendPositive(1.0 - q, nr);
  }

  lemma DividendPositive(x: real, y: real)
    requires y > 0.0 && x * y > 0.0
    ensures x > 0.0
  {
  }

  /** The first rank a blunder may pick: Math.floor(n * 0.45), taken exactly. */
  function BlunderStart(n: nat): (from: nat)
    ensures from <= n && (n > 0 ==> from < n)
    ensures 100 * from <= 45 * n < 100 * (from + 1)
  {
    n * 45 / 100
  }

  /**
   * The rank the bot plays out of n ranked moves. When the first draw falls
   * below the level's blunder chance and there are more than two moves, the
   * second draw picks among the ranks from BlunderStart(n) on; otherwise it
   * picks among the first topPool ranks.
   */
  function PickIndex(level: Level, n: nat, draw1: real, draw2: real): (idx: int)
    requires IsDraw(draw1) && IsDraw(draw2) && n > 0
    ensures 0 <= idx < n
    ensures draw1 < level.blunder && n > 2 ==> BlunderStart(n) <= idx
    ensures !(draw1 < level.blunder && n > 2) && level.topPool > 0 ==> idx < level.topPool
  {
    if draw1 < level.blunder && n > 2 then
      var from := BlunderStart(n);
      from + Scale(draw2, Max(1, n - from))
    else
      Scale(draw2, Min(level.topPool, n))
  }

  /** A move with its score. */
  datatype Scored = Scored(move: Move, score: real)

  function ScoreOf(s: Scored): real
  {
    s.score
  }

  /** The moves `legal` with their scores under `value`, in the same order. */
  function ScoreAll(legal: seq<Move>, value: Move -> real): seq<Scored>
  {
    if legal == [] then []
    else
      var last := legal[|legal| - 1];
      ScoreAll(legal[..|legal| - 1], value) + [Scored(last, value(last))]
  }

  /** The scoring is a map: entry i is move i of `legal` with its score. */
  lemma {:induction false} ScoreAllAt(legal: seq<Move>, value: Move -> real)
    ensures var scored := ScoreAll(legal, value);
            |scored| == |legal| && forall i | 0 <= i < |legal| :: scored[i] == Scored(legal[i], value(legal[i]))
  {
    if legal != [] {
      var init := legal[..|legal| - 1];
      ScoreAllAt(init, value);
      var scored := ScoreAll(legal, value);
      forall i | 0 <= i < |legal|
        ensures scored[i] == Scored(legal[i], value(legal[i]))
      {
        if i < |init| {
          assert legal[i] == init[i];
        }
      }
    }
  }

  /** Scoring one more move of `legal` appends that move with its score. */
  lemma ScoreAllSnoc(legal: seq<Move>, i: int, value: Move -> real)
    requires 0 <= i < |legal|
    ensures ScoreAll(legal[..i + 1], value) == ScoreAll(legal[..i], value) + [Scored(legal[i], value(legal[i]))]
  {
    assert legal[..i + 1][..i] == legal[..i];
  }

  /** The scored moves from the best score down, equal scores in the order of `legal`. */
  function Rank(legal: seq<Move>, value: Move -> real): (ranked: seq<Scored>)
    ensures multiset(ranked) == multiset(ScoreAll(legal, value))
  {
    SortDesc(ScoreAll(legal, value), ScoreOf)
  }

  /**
   * The ranking holds each move once with its score, best first: every
   * entry is a move of `legal` with its own score, every move has an entry,
   * and no entry scores more than one before it.
   */
  lemma RankMeaning(legal: seq<Move>, value: Move -> real)
    ensures var ranked := Rank(legal, value);
            |ranked| == |legal|
            && (forall s | s in ranked :: s.move in legal && s.score == value(s.move))
            && (forall m | m in legal :: Scored(m, value(m)) in ranked)
            && (forall i, j | 0 <= i < j < |ranked| :: ranked[i].score >= ranked[j].score)
  {
    var scored := ScoreAll(legal, value);
    var ranked := Rank(legal, value);
    ScoreAllAt(legal, value);
    assert |ranked| == |multiset(ranked)| == |multiset(scored)| == |legal|;
    RankEntries(legal, value);
    RankCovers(legal, value);
    SortDescSorted(scored, ScoreOf);
    SortedPairwise(ranked, ScoreOf);
  }

  lemma RankEntries(legal: seq<Move>, value: Move -> real)
    ensures forall s | s in Rank(legal, value) :: s.move in legal && s.score == value(s.move)
  {
    var scored := ScoreAll(legal, value);
    ScoreAllAt(legal, value);
    forall s | s in Rank(legal, value)
      ensures s.move in legal && s.score == value(s.move)
    {
      assert s in multiset(scored);
      var i :| 0 <= i < |scored| && scored[i] == s;
    }
  }

  lemma RankCovers(legal: seq<Move>, value: Move -> real)
    ensures forall m | m in legal :: Scored(m, value(m)) in Rank(legal, value)
  {
    var scored := ScoreAll(legal, value);
    ScoreAllAt(legal, value);
    forall m | m in legal
      ensures Scored(m, value(m)) in Rank(legal, value)
    {
      var i :| 0 <= i < |legal| && legal[i] == m;
      assert scored[i] in multiset(Rank(legal, value));
    }
  }

  /** The first entry of the ranking is a move whose score no move of `legal` beats. */
  lemma RankFirstIsBest(legal: seq<Move>, value: Move -> real)
    requires legal != []
    ensures var ranked := Rank(legal, value);
            |ranked| > 0 && ranked[0].move in legal
            && forall m | m in legal :: value(m) <= value(ranked[0].move)
  {
    var scored := ScoreAll(legal, value);
    ScoreAllAt(legal, value);
    SortHeadBest(scored, ScoreOf);
    SortHeadEarliest(scored, ScoreOf);
    var j :| 0 <= j < |scored| && SortDesc(scored, ScoreOf)[0] == scored[j]
             && forall i | 0 <= i < j :: ScoreOf(scored[i]) != ScoreOf(scored[j]);
    forall m | m in legal
      ensures value(m) <= value(legal[j])
    {
      var i :| 0 <= i < |legal| && legal[i] == m;
      assert ScoreOf(scored[i]) <= ScoreOf(scored[j]);
    }
  }

  /** Ties go to the order of `legal`: the first entry of the ranking is the earliest move with its score. */
  lemma RankFirstIsEarliest(legal: seq<Move>, value: Move -> real)
    requires legal != []
    ensures var ranked := Rank(legal, value);
            |ranked| > 0
            && exists j | 0 <= j < |legal| ::
                 && legal[j] == ranked[0].move
                 && forall i | 0 <= i < j :: value(legal[i]) != value(legal[j])
  {
    var scored := ScoreAll(legal, value);
    ScoreAllAt(legal, value);
    SortHeadEarliest(scored, ScoreOf);
    var j :| 0 <= j < |scored| && SortDesc(scored, ScoreOf)[0] == scored[j]
             && forall i | 0 <= i < j :: ScoreOf(scored[i]) != ScoreOf(scored[j]);
    assert legal[j] == scored[j].move;
  }

  /**
   * The score of move `m` at search depth `depth`: the value of the search,
   * one ply shallower, of the position the move leads to, from the full
   * window and for the side `side`.
   */
  function MoveValue(p: Position, m: Move, depth: int, side: Color): real
    requires MoveInBounds(m)
  {
    var v := SearchValue(ApplyMove(p, m), depth - 1, NegInf, PosInf, side);
    if v.Fin? then v.value else 0.0
  }

  /** The score of a move is exactly the plain minimax value of the position it leads to. */
  lemma MoveValueIsMinimax(p: Position, m: Move, depth: int, side: Color)
    requires MoveInBounds(m)
    ensures MinimaxValue(ApplyMove(p, m), depth - 1, side) == Fin(MoveValue(p, m, depth, side))
  {
    SearchIsMinimax(ApplyMove(p, m), depth - 1, side);
  }

  /** MoveValue as a score function; a move off the board, which is never generated, scores 0. */
  function Valuer(p: Position, depth: int, side: Color): Move -> real
  {
    m => if MoveInBounds(m) then MoveValue(p, m, depth, side) else 0.0
  }

  /**
   * The move the bot of side `side` plays in `p` at the given difficulty,
   * reading `draw1` and then `draw2` where the source calls Math.random. A
   * depth-0 level plays a uniformly drawn legal move; the others rank the
   * legal moves by score and play the rank PickIndex chooses.
   */
  function BotChoice(p: Position, side: Color, difficulty: int, draw1: real, draw2: real): Option<Move>
    requires IsDraw(draw1) && IsDraw(draw2)
  {
    var legal := LegalMoves(p, side);
    var level := LevelFor(difficulty);
    if legal == [] then None
    else if level.depth == 0 then Some(legal[Scale(draw1, |legal|)])
    else
      var ranked := Rank(legal, Valuer(p, level.depth, side));
      assert |ranked| == |legal| by { RankMeaning(legal, Valuer(p, level.depth, side)); }
      Some(ranked[PickIndex(level, |ranked|, draw1, draw2)].move)
  }

  /** The bot passes exactly when it has no legal move, and otherwise plays a legal move. */
  lemma BotChoiceLegal(p: Position, side: Color, difficulty: int, draw1: real, draw2: real)
    requires IsDraw(draw1) && IsDraw(draw2)
    ensures var choice := BotChoice(p, side, difficulty, draw1, draw2);
            && (choice.None? <==> LegalMoves(p, side) == [])
            && (choice.Some? ==> choice.value in LegalMoves(p, side) && IsLegal(p, side, choice.value))
  {
    var legal := LegalMoves(p, side);
    var level := LevelFor(difficulty);
    LegalMovesMeaning(p, side);
    if legal != [] && level.depth != 0 {
      RankMeaning(legal, Valuer(p, level.depth, side));
      var ranked := Rank(legal, Valuer(p, level.depth, side));
      assert ranked[PickIndex(level, |ranked|, draw1, draw2)] in ranked;
    }
  }

  /** At the lowest level every legal move is played for some draw. */
  lemma VeryEasyReachesAll(p: Position, side: Color, m: Move, draw2: real)
    requires IsDraw(draw2) && m in LegalMoves(p, side)
    ensures exists draw1 | IsDraw(draw1) :: BotChoice(p, side, 1, draw1, draw2) == Some(m)
  {
    var legal := LegalMoves(p, side);
    var k :| 0 <= k < |legal| && legal[k] == m;
    var draw1 := k as real / |legal| as real;
    ScaleHits(k, |legal|);
    assert BotChoice(p, side, 1, draw1, draw2) == Some(m);
  }

  /**
   * The Master level never blunders and picks among the single best rank:
   * it plays a legal move whose score no legal move beats.
   */
  lemma MasterPlaysBest(p: Position, side: Color, difficulty: int, draw1: real, draw2: real)
    requires IsDraw(draw1) && IsDraw(draw2) && difficulty >= 10
    ensures var choice := BotChoice(p, side, difficulty, draw1, draw2);
            choice.Some? ==>
              MoveInBounds(choice.value)
              && forall m | m in LegalMoves(p, side) :: MoveValue(p, m, 3, side) <= MoveValue(p, choice.value, 3, side)
  {
    var legal := LegalMoves(p, side);
    if legal != [] {
      assert LevelFor(difficulty) == Level(3, 1, 0.0);
      RankMeaning(legal, Valuer(p, 3, side));
      var ranked := Rank(legal, Valuer(p, 3, side));
      assert PickIndex(Level(3, 1, 0.0), |ranked|, draw1, draw2) == 0;
      RankFirstIsBest(legal, Valuer(p, 3, side));
    }
  }

  /** The Master level ignores its random draws: its choice is a function of the position alone. */
  lemma MasterIgnoresDraws(p: Position, side: Color, difficulty: int, draw1: real, draw2: real, other1: real, other2: real)
    requires IsDraw(draw1) && IsDraw(draw2) && IsDraw(other1) && IsDraw(other2) && difficulty >= 10
    ensures BotChoice(p, side, difficulty, draw1, draw2) == BotChoice(p, side, difficulty, other1, other2)
  {
    var legal := LegalMoves(p, side);
    if legal != [] {
      assert LevelFor(difficulty) == Level(3, 1, 0.0);
      RankMeaning(legal, Valuer(p, 3, side));
      var ranked := Rank(legal, Valuer(p, 3, side));
      assert PickIndex(Level(3, 1, 0.0), |ranked|, draw1, draw2) == 0;
      assert PickIndex(Level(3, 1, 0.0), |ranked|, other1, other2) == 0;
    }
  }

  /** Among the legal moves of best score the Master level plays the one generated first. */
  lemma MasterBreaksTies(p: Position, side: Color, difficulty: int, draw1: real, draw2: real)
    requires IsDraw(draw1) && IsDraw(draw2) && difficulty >= 10
    ensures var choice := BotChoice(p, side, difficulty, draw1, draw2);
            var legal := LegalMoves(p, side);
            choice.Some? ==>
              exists j | 0 <= j < |legal| ::
                && legal[j] == choice.value
                && forall i | 0 <= i < j :: MoveValue(p, legal[i], 3, side) < MoveValue(p, legal[j], 3, side)
  {
    var legal := LegalMoves(p, side);
    if legal != [] {
      var value := Valuer(p, 3, side);
      assert LevelFor(difficulty) == Level(3, 1, 0.0);
      RankMeaning(legal, value);
      var ranked := Rank(legal, value);
      assert PickIndex(Level(3, 1, 0.0), |ranked|, draw1, draw2) == 0;
      RankFirstIsBest(legal, value);
      RankFirstIsEarliest(legal, value);
    }
  }

  /**
   * chooseBotMove: generate the legal moves, pick at random at depth 0,
   * otherwise score every move by the search, rank the scores and play the
   * picked rank.
   */
  method ChooseBotMove(p: Position, side: Color, difficulty: int, draw1: real, draw2: real)
    returns (choice: Option<Move>)
    requires IsDraw(draw1) && IsDraw(draw2)
    ensures choice == BotChoice(p, side, difficulty, draw1, draw2)
  {
    var legal := GenerateLegalMoves(p, side);
    if |legal| == 0 {
      return None;
    }
    var level := LevelFor(difficulty);
    if level.depth == 0 {
      return Some(legal[Scale(draw1, |legal|)]);
    }
    var scored := ScoreEach(p, legal, level.depth, side);
    var ranked := SortDesc(scored, ScoreOf);
    RankMeaning(legal, Valuer(p, level.depth, side));
    var idx := PickIndex(level, |ranked|, draw1, draw2);
    return Some(ranked[idx].move);
  }

  /** The map over the legal moves: each scored by a full-window search one ply shallower. */
  method ScoreEach(p: Position, legal: seq<Move>, depth: int, side: Color) returns (scored: seq<Scored>)
    requires AllInBounds(legal)
    ensures scored == ScoreAll(legal, Valuer(p, depth, side))
  {
    scored := [];
    for i := 0 to |legal|
      invariant scored == ScoreAll(legal[..i], Valuer(p, depth, side))
    {
      var entry := ScoreMove(p, legal[i], depth, side);
      ScoreAllSnoc(legal, i, Valuer(p, depth, side));
      scored := scored + [entry];
    }
    assert legal[..|legal|] == legal;
  }

  /** One step of the map: the move with the search value of the position it leads to. */
  method ScoreMove(p: Position, m: Move, depth: int, side: Color) returns (entry: Scored)
    requires MoveInBounds(m)
    ensures entry == Scored(m, MoveValue(p, m, depth, side))
  {
    var value := MinimaxSearch(ApplyMove(p, m), depth - 1, NegInf, PosInf, side);
    SearchIsMinimax(ApplyMove(p, m), depth - 1, side);
    entry := Scored(m, value.value);
  }
}
