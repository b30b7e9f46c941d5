/** The game controller: the state of the running game and the operations the
    user interface calls on it. The cards are values in the grid field; every
    recolouring is a state setter run on one card of that grid. */
module Game {
  import opened Cards
  import opened Pyramid
  import opened Solver
  import opened Navigation
  import opened Moves
  import opened Reveal
  import opened Difficulty

  /** Number of hint buttons; the counter stops the hints after the third. */
  const HINTS := 3

  /** The text of the hint label: empty, or the product a hint showed. */
  datatype Hint = NoHint | ShowsProduct(value: int)

  /** The win/lose labels: blank, or the submitted product with the verdict. */
  datatype Outcome = Blank | Win(score: int) | Lose(score: int)

  /** A hint button: whether it shows the used sprite, and whether it can be
      clicked. */
  datatype HintButton = HintButton(spent: bool, interactable: bool)

  /** The card numbers drawn for a pyramid of `levels` levels: level i gets
      i+1 numbers from 1 to 9. */
  ghost predicate Drawn(values: seq<seq<int>>, levels: int) {
    && |values| == levels
    && (forall i :: 0 <= i < levels ==> |values[i]| == i + 1)
    && forall i, j :: 0 <= i < levels && 0 <= j <= i ==> MIN_NUM <= values[i][j] <= MAX_NUM
  }

  /** Level i as generation creates it: its numbers, its coordinates, Blue on
      the apex and Gray below. */
  function FreshLevel(values: seq<seq<int>>, i: int): seq<Card>
    requires 0 <= i < |values| && |values[i]| == i + 1
  {
    seq(i + 1, j requires 0 <= j <= i => Card(values[i][j], if i > 0 then Gray else Blue, i, j))
  }

  /** The pyramid as generation creates it. */
  function Fresh(values: seq<seq<int>>): Grid
    requires forall i :: 0 <= i < |values| ==> |values[i]| == i + 1
  {
    seq(|values|, i requires 0 <= i < |values| => FreshLevel(values, i))
  }

  /** A card after the reset: the apex Blue, every card below Gray. */
  function RestartCard(c: Card, i: int, j: int): Card {
    if i == 0 then (if j == 0 then c.WithState(Blue) else c) else c.WithState(Gray)
  }

  /** The pyramid after the reset of a game. */
  function Restart(g: Grid): (r: Grid)
    ensures |r| == |g| && forall i :: 0 <= i < |g| ==> |r[i]| == |g[i]|
  {
    seq(|g|, i requires 0 <= i < |g| =>
      seq(|g[i]|, j requires 0 <= j < |g[i]| => RestartCard(g[i][j], i, j)))
  }

  /** A generated pyramid is ready for play. */
  lemma FreshAtStart(values: seq<seq<int>>, levels: int)
    requires MIN_LEVELS <= levels <= MAX_LEVELS && Drawn(values, levels)
    ensures AtStart(Fresh(values))
    ensures forall i, j :: 0 <= i < levels && 0 <= j <= i ==> Fresh(values)[i][j].num == values[i][j]
  {
  }

  /** A reset pyramid keeps its cards and is ready for play again. */
  lemma RestartAtStart(g: Grid)
    requires Shaped(g) && MIN_LEVELS <= |g| <= MAX_LEVELS
    ensures SameCards(g, Restart(g)) && AtStart(Restart(g))
  {
    var r: Grid := Restart(g);
    assert SameCards(g, r);
    SameCardsShaped(g, r);
  }

  /** Whatever was played on a generated pyramid, the reset restores it as it
      was generated. */
  lemma RestartRestoresFresh(values: seq<seq<int>>, levels: int, g: Grid)
    requires MIN_LEVELS <= levels <= MAX_LEVELS && Drawn(values, levels)
    requires SameCards(Fresh(values), g)
    ensures Restart(g) == Fresh(values)
  {
    var f: Grid := Fresh(values);
    var r: Grid := Restart(g);
    forall i, j | 0 <= i < |f| && 0 <= j < |f[i]| ensures r[i][j] == f[i][j] {
      assert g[i][j] == f[i][j].WithState(g[i][j].state);
    }
    GridExt(r, f);
  }

  /** Showing the solution turns cards Green only, so a well-formed game stays
      well formed. */
  lemma RevealedWellFormed(n: Nav, ts: seq<Target>, target: int)
    requires WellFormed(n)
    ensures SameCards(n.cards, Revealed(n.cards, ts, target))
    ensures WellFormed(n.(cards := Revealed(n.cards, ts, target)))
  {
    var g := n.cards;
    var r := Revealed(g, ts, target);
    assert SameCards(g, r);
    RecolouredWellFormed(n, n.(cards := r));
  }

  /** Whether some card of the level is Red: the scan the submit button and
      the hint run over the bottom level, stopping at the first Red card. */
  method LevelHasRed(row: seq<Card>) returns (found: bool)
    ensures found <==> HasRed(row)
  {
    found := false;
    var i := 0;
    while i < |row| && !found
      invariant 0 <= i <= |row|
      invariant found <==> exists k :: 0 <= k < i && row[k].state == Red
    {
      found := found || row[i].state == Red;
      i := i + 1;
    }
  }

  /** The card lists of a new pyramid, built level by level and card by card:
      each card starts as a default card (number 0, Blue, at (0, 0)) and the
      setters give it its number, its coordinates and, below the apex, Gray. */
  method NewPyramid(levels: int, values: seq<seq<int>>) returns (lst: Grid)
    requires Drawn(values, levels)
    ensures lst == Fresh(values)
  {
    lst := [];
    var i := 0;
    while i < levels
      invariant 0 <= i <= levels
      invariant |lst| == i
      invariant forall a :: 0 <= a < i ==> lst[a] == FreshLevel(values, a)
    {
      var row: seq<Card> := [];
      var j := 0;
      while j <= i
        invariant 0 <= j <= i + 1
        invariant row == FreshLevel(values, i)[..j]
      {
        var card := Card(0, Blue, 0, 0);
        card := card.WithNum(values[i][j]);
        card := card.WithLevel(i);
        card := card.WithPos(j);
        if i > 0 {
          card := card.WithState(Gray);
        }
        row := row + [card];
        j := j + 1;
      }
      lst := lst + [row];
      i := i + 1;
    }
  }

  /** The cards part of the reset: the apex Blue, then every card of every
      lower level Gray, level by level. */
  method RestartLevels(g: Grid) returns (cards: Grid)
    requires g != [] && |g[0]| > 0
    ensures cards == Restart(g)
  {
    cards := SetState(g, 0, 0, Blue);
    var i := 1;
    while i < |cards|
      invariant 1 <= i <= |g|
      invariant |cards| == |g| && forall a :: 0 <= a < |g| ==> |cards[a]| == |g[a]|
      invariant forall a, b :: 0 <= a < |g| && 0 <= b < |g[a]| ==>
        cards[a][b] == if a < i then RestartCard(g[a][b], a, b) else g[a][b]
    {
      var j := 0;
      while j < |cards[i]|
        invariant 0 <= j <= |g[i]|
        invariant |cards| == |g| && forall a :: 0 <= a < |g| ==> |cards[a]| == |g[a]|
        invariant forall a, b :: 0 <= a < |g| && 0 <= b < |g[a]| ==>
          cards[a][b] == if a < i || (a == i && b < j) then RestartCard(g[a][b], a, b) else g[a][b]
      {
        cards := SetState(cards, i, j, Gray);
        j := j + 1;
      }
      i := i + 1;
    }
    GridExt(cards, Restart(g));
  }

  /** The recolouring of OpenBelow on card (level, pos): the cards after it on
      its level Gray, then the cards before it, then the two cards under it
      Blue when there is a level below. */
  method ChooseLevels(g: Grid, level: int, pos: int) returns (cards: Grid)
    requires Triangular(g) && InRange(g, level, pos)
    ensures cards == ChooseCards(g, level, pos)
  {
    cards := g;
    var i := pos + 1;
    while i < |cards[level]|
      invariant pos + 1 <= i <= |g[level]|
      invariant |cards| == |g| && forall a :: 0 <= a < |g| ==> |cards[a]| == |g[a]|
      invariant forall a, b :: 0 <= a < |g| && 0 <= b < |g[a]| ==>
        cards[a][b] == if a == level && pos < b < i then g[a][b].WithState(Gray) else g[a][b]
    {
      cards := SetState(cards, level, i, Gray);
      i := i + 1;
    }
    i := pos - 1;
    while i >= 0
      invariant -1 <= i < pos
      invariant |cards| == |g| && forall a :: 0 <= a < |g| ==> |cards[a]| == |g[a]|
      invariant forall a, b :: 0 <= a < |g| && 0 <= b < |g[a]| ==>
        cards[a][b] == if a == level && (pos < b || i < b < pos) then g[a][b].WithState(Gray) else g[a][b]
    {
      cards := SetState(cards, level, i, Gray);
      i := i - 1;
    }
    if level < |cards| - 1 {
      cards := SetState(cards, level + 1, pos, Blue);
      cards := SetState(cards, level + 1, pos + 1, Blue);
    }
    GridExt(cards, ChooseCards(g, level, pos));
  }

  /** Sets Green, level by level, the card at each position of path p. */
  method MarkPath(g: Grid, p: seq<int>) returns (cards: Grid)
    requires OnGrid(g, p, 0)
    ensures cards == PaintPath(g, p)
  {
    cards := g;
    var i := 0;
    while i < |p|
      invariant 0 <= i <= |p|
      invariant |cards| == |g| && forall a :: 0 <= a < |g| ==> |cards[a]| == |g[a]|
      invariant forall a, b :: 0 <= a < |g| && 0 <= b < |g[a]| ==>
        cards[a][b] == if a < i && p[a] == b then g[a][b].WithState(Green) else g[a][b]
    {
      cards := SetState(cards, i, p[i], Green);
      i := i + 1;
    }
    GridExt(cards, PaintPath(g, p));
  }

  /** Goes through the solver entries in order and marks the path of each one
      whose score is the target. */
  method MarkSolutions(g: Grid, ts: seq<Target>, target: int) returns (cards: Grid)
    requires forall e :: e in ts ==> OnGrid(g, e.path, 0)
    ensures cards == Revealed(g, ts, target)
  {
    cards := g;
    GridExt(g, Revealed(g, ts[..0], target));
    var k := 0;
    while k < |ts|
      invariant 0 <= k <= |ts|
      invariant cards == Revealed(g, ts[..k], target)
    {
      var tp := ts[k];
      RevealedSnoc(g, ts, k, target);
      if tp.score == target {
        assert ts[k] in ts;
        cards := MarkPath(cards, tp.path);
      }
      k := k + 1;
    }
    assert ts[..|ts|] == ts;
  }

  /** What the controller keeps true of its game, on the values of its
      fields: board n, solver entries ts, target, whether the answer is
      submitted, whether the solution has been shown on this board and
      whether the submit button is enabled. Before the first generation there
      is no game. Afterwards the game is well formed, ts are the solver
      entries of its pyramid and the target is one of their scores; until the
      solution is shown the game is in play (the product is that of the Red
      cards); until the answer is submitted the solution is not shown and the
      submit button is enabled exactly when a bottom card is picked. */
  ghost predicate Consistent(n: Nav, ts: seq<Target>, target: int, submitted: bool, revealed: bool,
                             submit: bool) {
    if n.cards == [] then
      ts == [] && n.history == [] && n.currentLevel == 0 && !submit && !revealed
    else
      && WellFormed(n)
      && ts == Solved(n.cards)
      && (exists t :: 0 <= t < |ts| && ts[t].score == target)
      && (!revealed ==> Playing(n))
      && (!submitted ==> !revealed && submit == SubmitEligible(n.cards, n.currentLevel))
  }

  /** A click keeps the game consistent, provided the submit button follows
      the clicks that run one of the two operations. */
  lemma ClickConsistent(n: Nav, ts: seq<Target>, target: int, submitted: bool, revealed: bool, submit: bool,
                        l: int, p: int, submit': bool)
    requires Consistent(n, ts, target, submitted, revealed, submit) && InRange(n.cards, l, p)
    requires !submitted ==> (submit' ==
      if n.cards[l][p].state == Blue || n.cards[l][p].state == Red
      then SubmitEligible(MouseDown(n, submitted, l, p).cards, MouseDown(n, submitted, l, p).currentLevel)
      else submit)
    ensures Consistent(MouseDown(n, submitted, l, p), ts, target, submitted, revealed, submit')
  {
    var r := MouseDown(n, submitted, l, p);
    MouseDownWellFormed(n, submitted, l, p);
    SolvedSameCards(n.cards, r.cards);
    if !submitted {
      MouseDownPlaying(n, l, p);
    } else if !revealed {
      MouseDownPlayingSubmitted(n, l, p);
    }
  }

  /** A pyramid as play starts, with its solver entries, a target among
      their scores and the submit button updated, is a consistent game,
      submitted or not. */
  lemma StartConsistent(g: Grid, ts: seq<Target>, target: int, submitted: bool, submit: bool, t: int)
    requires AtStart(g) && ts == Solved(g) && 0 <= t < |ts| && ts[t].score == target
    requires submit == SubmitEligible(g, 0)
    ensures Consistent(Nav(g, 1, 0, []), ts, target, submitted, false, submit)
  {
    StartIsPlaying(g);
  }

  /** A generated pyramid, with its solver entries and the target drawn at t,
      is a consistent game at its start whose submit button is disabled. */
  lemma FreshConsistent(values: seq<seq<int>>, levels: int, t: int, submitted: bool)
    requires MIN_LEVELS <= levels <= MAX_LEVELS && Drawn(values, levels)
    requires 0 <= t < Pow2(levels - 1)
    ensures AtStart(Fresh(values)) && |Solved(Fresh(values))| == Pow2(levels - 1)
    ensures Playing(Nav(Fresh(values), 1, 0, [])) && !SubmitEligible(Fresh(values), 0)
    ensures Consistent(Nav(Fresh(values), 1, 0, []), Solved(Fresh(values)), Solved(Fresh(values))[t].score,
                       submitted, false, false)
  {
    var g := Fresh(values);
    FreshAtStart(values, levels);
    SolvedCount(g);
    StartConsistent(g, Solved(g), Solved(g)[t].score, submitted, false, t);
    StartIsPlaying(g);
  }

  /** What a reset needs of a game: either no game, no solver entries and a
      disabled submit button, or a pyramid of cards with its solver entries. */
  ghost predicate Resettable(g: Grid, ts: seq<Target>, submit: bool) {
    if g == [] then ts == [] && !submit
    else Shaped(g) && MIN_LEVELS <= |g| <= MAX_LEVELS && ts == Solved(g)
  }

  /** A consistent game can be reset, whatever was played or shown. */
  lemma ConsistentResettable(n: Nav, ts: seq<Target>, target: int, submitted: bool, revealed: bool, submit: bool)
    requires Consistent(n, ts, target, submitted, revealed, submit)
    ensures Resettable(n.cards, ts, submit)
  {
  }

  /** The reset as `RestartCards` runs it, with or without a game: with a
      target drawn among the solver's scores and the submit button following
      a board that exists, the result is a consistent game at the start,
      neither submitted nor shown. */
  lemma RestartConsistent(g: Grid, ts: seq<Target>, submit: bool, target': int, submit': bool, t: int)
    requires Resettable(g, ts, submit)
    requires |ts| > 0 ==> 0 <= t < |ts| && target' == ts[t].score
    requires submit' == if g != [] then SubmitEligible(Restart(g), 0) else submit
    ensures Consistent(Nav(Restart(g), 1, 0, []), ts, target', false, false, submit')
  {
    if g != [] {
      SolvedCount(g);
      RestartAtStart(g);
      SolvedSameCards(g, Restart(g));
      StartConsistent(Restart(g), ts, target', false, submit', t);
    } else {
      assert Restart(g) == [];
    }
  }

  /** Withdrawing the answer of a game whose solution is not shown keeps it
      consistent once the submit button follows the board. */
  lemma Unsubmitted(n: Nav, ts: seq<Target>, target: int, submitted: bool, submit: bool)
    requires Consistent(n, ts, target, submitted, false, submit)
    requires n.cards != [] ==> submit == SubmitEligible(n.cards, n.currentLevel)
    ensures Consistent(n, ts, target, false, false, submit)
  {
  }

  /** Showing the solution of a submitted game keeps it consistent, now as
      a shown one. */
  lemma RevealConsistent(n: Nav, ts: seq<Target>, target: int, revealed: bool, submit: bool)
    requires Consistent(n, ts, target, true, revealed, submit) && n.cards != []
    ensures Consistent(n.(cards := Revealed(n.cards, ts, target)), ts, target, true, true, submit)
  {
    RevealedWellFormed(n, ts, target);
    SolvedSameCards(n.cards, Revealed(n.cards, ts, target));
  }

  class CardGame {
    var ansSubmitted: bool
    var hintVal: int
    var hintBttns: seq<HintButton>
    var hint: Hint
    var multState: int
    var targetScoreVl: int
    var levelHistory: seq<Pair>
    var targetScores: seq<Target>
    var gameObjLst: Grid
    var currentLevel: int
    var diffLevel: int
    var diffMenu: int
    var submitEnabled: bool
    var showSolutionEnabled: bool
    var outcome: Outcome
    /** Whether the solution has been shown on the current board. */
    ghost var revealed: bool

    /** The part of the state the card clicks work on. */
    ghost function Board(): Nav
      reads this`gameObjLst, this`multState, this`currentLevel, this`levelHistory
    {
      Nav(gameObjLst, multState, currentLevel, levelHistory)
    }

    /** The hint buttons before the counter are used up, the one at the
        counter can be clicked, the rest wait. */
    ghost predicate HintsValid()
      reads this`hintVal, this`hintBttns
    {
      && |hintBttns| == HINTS
      && 0 <= hintVal <= HINTS
      && forall k :: 0 <= k < HINTS ==> hintBttns[k] == HintButton(k < hintVal, k == hintVal)
    }

    ghost predicate GameValid()
      reads this`gameObjLst, this`targetScores, this`targetScoreVl, this`multState,
        this`currentLevel, this`levelHistory, this`submitEnabled, this`ansSubmitted, this`revealed
    {
      Consistent(Board(), targetScores, targetScoreVl, ansSubmitted, revealed, submitEnabled)
    }

    ghost predicate Valid()
      reads this`hintVal, this`hintBttns, this`diffLevel, this`showSolutionEnabled,
        this`gameObjLst, this`targetScores, this`targetScoreVl, this`multState,
        this`currentLevel, this`levelHistory, this`submitEnabled, this`ansSubmitted, this`revealed
    {
      && HintsValid()
      && MIN_DIFFICULTY <= diffLevel <= MAX_DIFFICULTY
      && showSolutionEnabled == ansSubmitted
      && GameValid()
    }

    /** The controller as the scene creates it: no game, difficulty 2, the
        first hint button enabled. */
    constructor()
      ensures Valid()
      ensures gameObjLst == [] && !ansSubmitted && hintVal == 0 && hint == NoHint
      ensures diffLevel == MIN_DIFFICULTY && outcome == Blank
    {
      ansSubmitted := false;
      hintVal := 0;
      hintBttns := [HintButton(false, true), HintButton(false, false), HintButton(false, false)];
      hint := NoHint;
      multState := 0;
      targetScoreVl := 0;
      levelHistory := [];
      targetScores := [];
      gameObjLst := [];
      currentLevel := 0;
      diffLevel := MIN_DIFFICULTY;
      diffMenu := 0;
      submitEnabled := false;
      showSolutionEnabled := false;
      outcome := Blank;
      revealed := false;
    }

    /** The solver, run from card `cardPos` of `level` with the score and
        path so far; from the apex it starts a new list. */
    method CalculateTargetScores(level: nat, currentScore: int, cardPos: int, pathStr: seq<int>)
      requires Triangular(gameObjLst) && level <= |gameObjLst|
      requires level < |gameObjLst| ==> 0 <= cardPos <= level
      modifies this`targetScores
      ensures targetScores ==
        (if level == 0 then [] else old(targetScores)) + Scores(gameObjLst, level, currentScore, cardPos, pathStr)
      decreases |gameObjLst| - level
    {
      var auxStr := pathStr + [cardPos];
      if level == 0 {
        targetScores := [];
      }
      if level >= |gameObjLst| {
        targetScores := targetScores + [Target(currentScore, pathStr)];
      } else if level == |gameObjLst| - 1 {
        CalculateTargetScores(level + 1, currentScore * gameObjLst[level][cardPos].num, 0, auxStr);
      } else {
        ghost var before := targetScores;
        var score := currentScore * gameObjLst[level][cardPos].num;
        CalculateTargetScores(level + 1, score, cardPos, auxStr);
        CalculateTargetScores(level + 1, score, cardPos + 1, auxStr);
        assert targetScores == before + (Scores(gameObjLst, level + 1, score, cardPos, auxStr)
          + Scores(gameObjLst, level + 1, score, cardPos + 1, auxStr));
      }
    }

    /** Picks the target among the solver's scores; `idx` stands for the
        random draw. Without scores the target stays. */
    method SetTargetScore(idx: int)
      requires |targetScores| > 0 ==> 0 <= idx < |targetScores|
      modifies this`targetScoreVl
      ensures |targetScores| > 0 ==> targetScoreVl == targetScores[idx].score
      ensures |targetScores| == 0 ==> targetScoreVl == old(targetScoreVl)
    {
      if |targetScores| > 0 {
        targetScoreVl := targetScores[idx].score;
      }
    }

    method UpdateMultiplication(fact: int, oper: Oper)
      requires fact != 0
      modifies this`multState
      ensures multState == UpdateMult(old(multState), fact, oper)
    {
      if oper == OpenBelow {
        multState := multState * fact;
      } else {
        multState := CDiv(multState, fact);
      }
    }

    method UpdateShowSolutionButton()
      modifies this`showSolutionEnabled
      ensures showSolutionEnabled == ansSubmitted
    {
      showSolutionEnabled := ansSubmitted;
    }

    /** With a game, the submit button is enabled exactly when the bottom
        level is the current one and holds a Red card. */
    method UpdateSubmitButton()
      modifies this`submitEnabled
      ensures gameObjLst != [] ==> submitEnabled == SubmitEligible(gameObjLst, currentLevel)
      ensures gameObjLst == [] ==> submitEnabled == old(submitEnabled)
    {
      var btnInt := false;
      if |gameObjLst| > 0 {
        if currentLevel == |gameObjLst| - 1 {
          btnInt := LevelHasRed(gameObjLst[|gameObjLst| - 1]);
        }
        submitEnabled := btnInt;
      }
    }

    /** The pyramid of `levels` levels with the drawn numbers `values`, at
        its start, with its solver entries, the target drawn at `targetIdx`
        and the submit button updated. */
    method BuildLevels(levels: int, values: seq<seq<int>>, targetIdx: int)
      requires MIN_LEVELS <= levels <= MAX_LEVELS && Drawn(values, levels)
      requires 0 <= targetIdx < Pow2(levels - 1)
      modifies this`multState, this`currentLevel, this`levelHistory, this`gameObjLst,
        this`targetScores, this`targetScoreVl, this`submitEnabled, this`revealed
      ensures GameValid() && Playing(Board()) && !revealed
      ensures gameObjLst == Fresh(values) && AtStart(gameObjLst)
      ensures multState == 1 && currentLevel == 0 && levelHistory == []
      ensures targetScores == Solved(gameObjLst) && |targetScores| == Pow2(levels - 1)
      ensures targetScoreVl == targetScores[targetIdx].score
      ensures submitEnabled == SubmitEligible(gameObjLst, currentLevel) && !submitEnabled
    {
      var cards := NewPyramid(levels, values);
      FreshConsistent(values, levels, targetIdx, ansSubmitted);
      multState := 1;
      currentLevel := 0;
      levelHistory := [];
      gameObjLst := cards;
      revealed := false;
      CalculateTargetScores(0, 1, 0, []);
      SetTargetScore(targetIdx);
      UpdateSubmitButton();
    }

    /** A new pyramid of `levels` levels with the drawn numbers `values`, its
        solver entries, the target drawn at `targetIdx`, the labels and the
        hints reset. The hint label keeps its text. */
    method GenerateLevels(levels: int, values: seq<seq<int>>, targetIdx: int)
      requires Valid()
      requires MIN_LEVELS <= levels <= MAX_LEVELS && Drawn(values, levels)
      requires 0 <= targetIdx < Pow2(levels - 1)
      modifies this`multState, this`currentLevel, this`levelHistory, this`gameObjLst,
        this`targetScores, this`targetScoreVl, this`submitEnabled, this`outcome,
        this`ansSubmitted, this`showSolutionEnabled, this`hintVal, this`hintBttns, this`revealed
      ensures Valid()
      ensures gameObjLst == Fresh(values) && AtStart(gameObjLst)
      ensures multState == 1 && currentLevel == 0 && levelHistory == []
      ensures targetScores == Solved(gameObjLst) && |targetScores| == Pow2(levels - 1)
      ensures targetScoreVl == targetScores[targetIdx].score
      ensures !ansSubmitted && !showSolutionEnabled && !submitEnabled && outcome == Blank
      ensures hintVal == 0
    {
      BuildLevels(levels, values, targetIdx);
      ResetGameElements(true, false, targetIdx);
      ResetHintSprites();
    }

    /** A new scenario at the chosen difficulty. */
    method SetRandomScenario(values: seq<seq<int>>, targetIdx: int)
      requires Valid()
      requires Drawn(values, diffLevel) && 0 <= targetIdx < Pow2(diffLevel - 1)
      modifies this`multState, this`currentLevel, this`levelHistory, this`gameObjLst,
        this`targetScores, this`targetScoreVl, this`submitEnabled, this`outcome,
        this`ansSubmitted, this`showSolutionEnabled, this`hintVal, this`hintBttns, this`revealed
      ensures Valid()
      ensures gameObjLst == Fresh(values) && AtStart(gameObjLst) && |gameObjLst| == old(diffLevel)
      ensures multState == 1 && currentLevel == 0 && levelHistory == []
      ensures targetScores == Solved(gameObjLst) && |targetScores| == Pow2(old(diffLevel) - 1)
      ensures targetScoreVl == targetScores[targetIdx].score
      ensures !ansSubmitted && hintVal == 0 && outcome == Blank
    {
      GenerateLevels(diffLevel, values, targetIdx);
    }

    /** The card part of a reset: the pyramid back to its start, the product
        and the levels reset, the submit button updated and a new target
        drawn at `targetIdx`. The game is then consistent as unsubmitted. */
    method RestartCards(targetIdx: int)
      requires Resettable(gameObjLst, targetScores, submitEnabled)
      requires |targetScores| > 0 ==> 0 <= targetIdx < |targetScores|
      modifies this`gameObjLst, this`multState, this`currentLevel, this`levelHistory,
        this`submitEnabled, this`targetScoreVl, this`revealed
      ensures Consistent(Board(), targetScores, targetScoreVl, false, false, submitEnabled) && !revealed
      ensures gameObjLst == Restart(old(gameObjLst)) && multState == 1
      ensures currentLevel == 0 && levelHistory == []
      ensures |targetScores| > 0 ==> targetScoreVl == targetScores[targetIdx].score
      ensures |targetScores| == 0 ==> targetScoreVl == old(targetScoreVl)
    {
      ghost var g := gameObjLst;
      ghost var submit := submitEnabled;
      if |gameObjLst| > 0 {
        gameObjLst := RestartLevels(gameObjLst);
      }
      multState := 1;
      currentLevel := 0;
      levelHistory := [];
      revealed := false;
      UpdateSubmitButton();
      SetTargetScore(targetIdx);
      RestartConsistent(g, targetScores, submit, targetScoreVl, submitEnabled, targetIdx);
    }

    /** Blanks the labels when `rLabels`; when `rCards`, puts the pyramid back
        to its start and draws a new target at `targetIdx`. The answer is
        always withdrawn. The hint counter is left as it is. */
    method ResetGameElements(rLabels: bool, rCards: bool, targetIdx: int)
      requires GameValid()
      requires !rCards ==> !revealed
      requires !rCards && gameObjLst != [] ==> submitEnabled == SubmitEligible(gameObjLst, currentLevel)
      requires rCards && |targetScores| > 0 ==> 0 <= targetIdx < |targetScores|
      modifies this`outcome, this`gameObjLst, this`multState, this`currentLevel, this`levelHistory,
        this`submitEnabled, this`targetScoreVl, this`ansSubmitted, this`showSolutionEnabled, this`revealed
      ensures GameValid() && !revealed
      ensures outcome == if rLabels then Blank else old(outcome)
      ensures rCards ==> gameObjLst == Restart(old(gameObjLst)) && multState == 1
      ensures rCards ==> currentLevel == 0 && levelHistory == []
      ensures rCards && |targetScores| > 0 ==> targetScoreVl == targetScores[targetIdx].score
      ensures rCards && |targetScores| == 0 ==> targetScoreVl == old(targetScoreVl)
      ensures !rCards ==> gameObjLst == old(gameObjLst) && multState == old(multState)
      ensures !rCards ==> currentLevel == old(currentLevel) && levelHistory == old(levelHistory)
      ensures !rCards ==> submitEnabled == old(submitEnabled) && targetScoreVl == old(targetScoreVl)
      ensures !ansSubmitted && !showSolutionEnabled
    {
      if rLabels {
        outcome := Blank;
      }
      if rCards {
        ConsistentResettable(Board(), targetScores, targetScoreVl, ansSubmitted, revealed, submitEnabled);
        RestartCards(targetIdx);
      } else {
        Unsubmitted(Board(), targetScores, targetScoreVl, ansSubmitted, submitEnabled);
      }
      WithdrawAnswer();
    }

    /** The answer withdrawn and the reveal button disabled with it. */
    method WithdrawAnswer()
      requires Consistent(Board(), targetScores, targetScoreVl, false, revealed, submitEnabled)
      modifies this`ansSubmitted, this`showSolutionEnabled
      ensures GameValid() && !ansSubmitted && !showSolutionEnabled
    {
      ansSubmitted := false;
      UpdateShowSolutionButton();
    }

    /** Restarts the current pyramid with a new target drawn at `targetIdx`;
        the hints already used stay used. */
    method ResetGame(targetIdx: int)
      requires Valid()
      requires |targetScores| > 0 ==> 0 <= targetIdx < |targetScores|
      modifies this`outcome, this`gameObjLst, this`multState, this`currentLevel, this`levelHistory,
        this`submitEnabled, this`targetScoreVl, this`ansSubmitted, this`showSolutionEnabled, this`revealed
      ensures Valid() && !revealed
      ensures targetScores == old(targetScores)
      ensures Board() == Nav(Restart(old(gameObjLst)), 1, 0, [])
      ensures |targetScores| > 0 ==> targetScoreVl == targetScores[targetIdx].score
      ensures !ansSubmitted && outcome == Blank
      ensures hintVal == old(hintVal) && hintBttns == old(hintBttns) && hint == old(hint)
    {
      ResetGameElements(true, true, targetIdx);
    }

    /** All hint buttons back to the unused sprite, only the first one
        clickable, and the counter at zero. */
    method ResetHintSprites()
      requires |hintBttns| == HINTS
      modifies this`hintVal, this`hintBttns
      ensures HintsValid() && hintVal == 0
    {
      hintBttns := hintBttns[0 := hintBttns[0].(interactable := true)];
      var i := 0;
      while i < |hintBttns|
        invariant 0 <= i <= HINTS && |hintBttns| == HINTS && hintBttns[0].interactable
        invariant forall k :: 0 <= k < i ==> hintBttns[k] == HintButton(false, k == 0)
      {
        hintBttns := hintBttns[i := hintBttns[i].(spent := false)];
        if i > 0 {
          hintBttns := hintBttns[i := hintBttns[i].(interactable := false)];
        }
        i := i + 1;
      }
      hintVal := 0;
    }

    /** Before the answer is submitted and while no bottom card is picked, a
        hint shows the running product, which is the product of the cards
        chosen so far, and uses up one hint button. */
    method GenerateHint()
      requires Valid() && gameObjLst != []
      requires !HasRed(gameObjLst[|gameObjLst| - 1]) && !ansSubmitted ==> hintVal < HINTS
      modifies this`hintVal, this`hintBttns, this`hint
      ensures Valid()
      ensures !HasRed(gameObjLst[|gameObjLst| - 1]) && !ansSubmitted ==>
        hintVal == old(hintVal) + 1 && hint == ShowsProduct(multState) && multState == RedProduct(gameObjLst)
      ensures HasRed(gameObjLst[|gameObjLst| - 1]) || ansSubmitted ==>
        hintVal == old(hintVal) && hintBttns == old(hintBttns) && hint == old(hint)
    {
      var lastLevl := LevelHasRed(gameObjLst[|gameObjLst| - 1]);
      if !lastLevl && !ansSubmitted {
        UseHint();
        hint := ShowsProduct(multState);
      }
    }

    /** The button at the counter used up, the counter moved on and the next
        button, if any, made clickable. */
    method UseHint()
      requires HintsValid() && hintVal < HINTS
      modifies this`hintVal, this`hintBttns
      ensures HintsValid() && hintVal == old(hintVal) + 1
    {
      hintBttns := hintBttns[hintVal := hintBttns[hintVal].(spent := true)];
      hintBttns := hintBttns[hintVal := hintBttns[hintVal].(interactable := false)];
      hintVal := hintVal + 1;
      if hintVal < HINTS {
        hintBttns := hintBttns[hintVal := hintBttns[hintVal].(interactable := true)];
      }
    }

    /** Compares the running product with the target and records the
        submission. A submission the button allowed is the product of a
        descent the solver listed. */
    method VerifySolution()
      requires Valid()
      modifies this`outcome, this`ansSubmitted, this`showSolutionEnabled
      ensures Valid() && ansSubmitted && showSolutionEnabled
      ensures outcome == if multState == targetScoreVl then Win(multState) else Lose(multState)
      ensures old(submitEnabled && !ansSubmitted) ==>
        exists t :: 0 <= t < |targetScores| && targetScores[t].score == multState
          && RedExactly(gameObjLst, targetScores[t].path)
    {
      if submitEnabled && !ansSubmitted {
        var t := SubmittedScoreListed(Board());
      }
      if multState == targetScoreVl {
        outcome := Win(multState);
      } else {
        outcome := Lose(multState);
      }
      ansSubmitted := true;
      UpdateShowSolutionButton();
    }

    /** After submission, turns Green every card on the path of an entry
        whose score is the target. */
    method ShowSolution()
      requires Valid()
      modifies this`gameObjLst, this`revealed
      ensures Valid()
      ensures targetScores != [] && ansSubmitted ==>
        gameObjLst == Revealed(old(gameObjLst), targetScores, targetScoreVl) && revealed
      ensures !(targetScores != [] && ansSubmitted) ==> revealed == old(revealed)
      ensures !(targetScores != [] && ansSubmitted) ==> gameObjLst == old(gameObjLst)
    {
      if |targetScores| > 0 && ansSubmitted {
        ghost var n := Board();
        SolvedSound(gameObjLst);
        gameObjLst := MarkSolutions(gameObjLst, targetScores, targetScoreVl);
        RevealConsistent(n, targetScores, targetScoreVl, revealed, submitEnabled);
        revealed := true;
      }
    }

    /** The difficulty drop-down: options 0, 1 and 2 choose 2, 4 and 6
        levels; the custom option keeps the counter's value. */
    method DropDownValueChanged(optn: int)
      requires Valid() && optn >= 0
      modifies this`diffLevel
      ensures Valid()
      ensures diffLevel == DropDownLevel(old(diffLevel), optn)
    {
      if optn <= 2 {
        diffLevel := ToShort(2 * (optn + 1));
      }
    }

    /** The difficulty counter: a step that keeps the 16-bit level within 2
        to 6 is taken and selects the custom option of the drop-down. */
    method IncreaseDecreaseDifficulty(oper: int)
      requires Valid()
      modifies this`diffLevel, this`diffMenu
      ensures Valid()
      ensures diffLevel == StepDifficulty(old(diffLevel), oper)
      ensures diffMenu == if MIN_DIFFICULTY <= ToShort(old(diffLevel) + oper) <= MAX_DIFFICULTY
        then CUSTOM_OPTION else old(diffMenu)
    {
      if !(ToShort(diffLevel + oper) < MIN_DIFFICULTY || ToShort(diffLevel + oper) > MAX_DIFFICULTY) {
        diffLevel := ToShort(diffLevel + ToShort(oper));
        diffMenu := CUSTOM_OPTION;
      }
    }

    /** One of the two operations on the cards. OpenBelow, on a card just
        turned Red: clear the hint, multiply its number in, grey the rest of
        its level, open the two cards under it and record them. OpenAbove, on
        a Red card and before submission: give back the bottom pick or step
        back a level. */
    method FlipCards(level: int, posCard: int, oper: Oper)
      requires InRange(gameObjLst, level, posCard)
      requires oper == OpenBelow ==> Shaped(gameObjLst)
      requires oper == OpenAbove ==> WellFormed(Board()) && gameObjLst[level][posCard].state == Red
      modifies this`gameObjLst, this`multState, this`currentLevel, this`levelHistory, this`hint, this`submitEnabled
      ensures oper == OpenBelow ==> Board() == FlipBelow(old(Board()), level, posCard)
      ensures oper == OpenBelow ==> hint == NoHint && submitEnabled == SubmitEligible(gameObjLst, currentLevel)
      ensures oper == OpenAbove ==> Board() == FlipAbove(old(Board()), ansSubmitted, level, posCard)
      ensures oper == OpenAbove ==>
        hint == if AboveBranch(old(Board()), ansSubmitted, level, posCard) == Ignore then old(hint) else NoHint
      ensures oper == OpenAbove && !ansSubmitted ==> submitEnabled == SubmitEligible(gameObjLst, currentLevel)
      ensures oper == OpenAbove && ansSubmitted ==> submitEnabled == old(submitEnabled)
    {
      if oper == OpenBelow {
        OpenBelowCards(level, posCard);
      } else if oper == OpenAbove && !ansSubmitted {
        OpenAboveCards(level, posCard);
      }
    }

    /** The OpenBelow half of FlipCards. */
    method OpenBelowCards(level: int, posCard: int)
      requires InRange(gameObjLst, level, posCard) && Shaped(gameObjLst)
      modifies this`gameObjLst, this`multState, this`currentLevel, this`levelHistory, this`hint, this`submitEnabled
      ensures Board() == FlipBelow(old(Board()), level, posCard)
      ensures hint == NoHint && submitEnabled == SubmitEligible(gameObjLst, currentLevel)
    {
      hint := NoHint;
      UpdateMultiplication(gameObjLst[level][posCard].num, OpenBelow);
      var cards := ChooseLevels(gameObjLst, level, posCard);
      var c := currentLevel;
      var h: seq<Pair> := levelHistory;
      if c == 0 {
        h := [(0, 0)];
      }
      if c + 1 < |cards| {
        c := c + 1;
        h := h + [(posCard, posCard + 1)];
      }
      gameObjLst := cards;
      currentLevel := c;
      levelHistory := h;
      UpdateSubmitButton();
    }

    /** The OpenAbove half of FlipCards, before submission. */
    method OpenAboveCards(level: int, posCard: int)
      requires InRange(gameObjLst, level, posCard)
      requires WellFormed(Board()) && gameObjLst[level][posCard].state == Red
      modifies this`gameObjLst, this`multState, this`currentLevel, this`levelHistory, this`hint, this`submitEnabled
      ensures Board() == FlipAbove(old(Board()), false, level, posCard)
      ensures hint == if AboveBranch(old(Board()), false, level, posCard) == Ignore then old(hint) else NoHint
      ensures submitEnabled == SubmitEligible(gameObjLst, currentLevel)
    {
      var cards: Grid := gameObjLst;
      var c := currentLevel;
      var h: seq<Pair> := levelHistory;
      ghost var br := AboveBranch(Board(), false, level, posCard);
      var checkCond := false;
      if c == |cards| - 1 {
        checkCond := checkCond || cards[c][posCard].state == Red;
        checkCond := checkCond || cards[c][posCard + 1].state == Red;
      }
      if c == |cards| - 1 && level == c {
        assert br == UndoPick;
        hint := NoHint;
        UpdateMultiplication(cards[level][posCard].num, OpenAbove);
        var idx1 := h[c].0;
        var idx2 := h[c].1;
        cards := SetState(cards, c, idx1, Blue);
        cards := SetState(cards, c, idx2, Blue);
      } else if level + 1 == c && !checkCond {
        assert br == StepUp;
        hint := NoHint;
        UpdateMultiplication(cards[level][posCard].num, OpenAbove);
        var idx1 := h[c].0;
        var idx2 := h[c].1;
        cards := SetState(cards, c, idx1, Gray);
        cards := SetState(cards, c, idx2, Gray);
        h := h[..c] + h[c + 1..];
        if c > 0 {
          c := c - 1;
        }
        idx1 := h[c].0;
        idx2 := h[c].1;
        cards := SetState(cards, c, idx1, Blue);
        cards := SetState(cards, c, idx2, Blue);
      } else {
        assert br == Ignore;
      }
      gameObjLst := cards;
      currentLevel := c;
      levelHistory := h;
      UpdateSubmitButton();
    }

    /** A click on card (level, pos): a Blue card turns Red and OpenBelow runs;
        a Red card runs OpenAbove; Gray and Green cards ignore the click. The
        click acts as the transition on boards says. */
    method OnMouseDown(level: int, pos: int)
      requires WellFormed(Board()) && InRange(gameObjLst, level, pos)
      modifies this`gameObjLst, this`multState, this`currentLevel, this`levelHistory, this`hint, this`submitEnabled
      ensures Board() == MouseDown(old(Board()), ansSubmitted, level, pos)
      ensures old(gameObjLst[level][pos].state) == Blue ==> hint == NoHint
      ensures old(gameObjLst[level][pos].state) == Red ==>
        hint == if AboveBranch(old(Board()), ansSubmitted, level, pos) == Ignore then old(hint) else NoHint
      ensures old(gameObjLst[level][pos].state) == Gray || old(gameObjLst[level][pos].state) == Green ==>
        Board() == old(Board()) && hint == old(hint) && submitEnabled == old(submitEnabled)
      ensures old(gameObjLst[level][pos].state) == Blue ==> submitEnabled == SubmitEligible(gameObjLst, currentLevel)
      ensures !ansSubmitted && old(gameObjLst[level][pos].state) == Red ==>
        submitEnabled == SubmitEligible(gameObjLst, currentLevel)
      ensures ansSubmitted && old(gameObjLst[level][pos].state) == Red ==> submitEnabled == old(submitEnabled)
    {
      ghost var n := Board();
      var card := gameObjLst[level][pos];
      if card.state == Blue {
        gameObjLst := SetState(gameObjLst, level, pos, Red);
        SetStateSameCards(n.cards, level, pos, Red);
        SameCardsShaped(n.cards, gameObjLst);
        FlipCards(card.level, card.pos, OpenBelow);
      } else if card.state == Red {
        FlipCards(card.level, card.pos, OpenAbove);
      }
    }

    /** A click keeps the game consistent. */
    method PlayClick(level: int, pos: int)
      requires GameValid() && InRange(gameObjLst, level, pos)
      modifies this`gameObjLst, this`multState, this`currentLevel, this`levelHistory, this`hint, this`submitEnabled
      ensures GameValid()
      ensures Board() == MouseDown(old(Board()), ansSubmitted, level, pos)
    {
      ghost var n := Board();
      ghost var submit := submitEnabled;
      OnMouseDown(level, pos);
      ClickConsistent(n, targetScores, targetScoreVl, ansSubmitted, revealed, submit, level, pos, submitEnabled);
    }

    /** A click keeps the controller valid. */
    method Click(level: int, pos: int)
      requires Valid() && InRange(gameObjLst, level, pos)
      modifies this`gameObjLst, this`multState, this`currentLevel, this`levelHistory, this`hint, this`submitEnabled
      ensures Valid()
      ensures Board() == MouseDown(old(Board()), ansSubmitted, level, pos)
    {
      PlayClick(level, pos);
    }
  }
}
