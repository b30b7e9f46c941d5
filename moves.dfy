/** What the clicks do to a game in play: choosing a card opens the next
    level, clicking a Red card undoes the last choice, the running product
    stays the product of the Red cards, and a choice followed by its undo
    gives the state back. */
module Moves {
  import opened Cards
  import opened Pyramid
  import opened Solver
  import opened Navigation

  /** A painted grid keeps the cards and has the layout it was painted with. */
  lemma PaintedLayout(g: Grid, g': Grid, c: int, h: seq<Pair>, pick: int)
    requires HistoryShaped(h, c) && Painted(g, g', c, h, pick)
    ensures SameCards(g, g') && LayoutWith(g', c, h, pick)
  {
  }

  /** A laid-out grid is well formed: its Blue cards are the open pair. */
  lemma LaidOutWellFormed(n: Nav, pick: int)
    requires Shaped(n.cards) && MIN_LEVELS <= |n.cards| <= MAX_LEVELS && 0 <= n.currentLevel < |n.cards|
    requires HistoryShaped(n.history, n.currentLevel)
    requires LayoutWith(n.cards, n.currentLevel, n.history, pick)
    ensures WellFormed(n)
  {
  }

  /** The layout of a game in play, with the bottom card picked (q >= 0) or not (q == -1). */
  lemma LayoutPick(n: Nav) returns (q: int)
    requires WellFormed(n) && Layout(n)
    ensures LayoutWith(n.cards, n.currentLevel, n.history, q)
    ensures q == -1 || (q >= 0 && n.currentLevel == |n.cards| - 1 && IsOpen(n.history, n.currentLevel, q))
    ensures q >= 0 ==> InRange(n.cards, n.currentLevel, q) && n.cards[n.currentLevel][q].state == Red
  {
    if LayoutWith(n.cards, n.currentLevel, n.history, -1) {
      q := -1;
    } else {
      q :| IsOpen(n.history, n.currentLevel, q) && LayoutWith(n.cards, n.currentLevel, n.history, q);
      assert 0 <= n.history[n.currentLevel].0 < n.currentLevel;
      assert n.cards[n.currentLevel][q].state == Expected(n.currentLevel, n.history, q, n.currentLevel, q);
    }
  }

  /** In a laid-out grid the Red cards are exactly the chosen ones, so the
      product of the Red cards is the product along the chosen positions. */
  lemma LayoutProduct(g: Grid, c: int, h: seq<Pair>, pick: int)
    requires Triangular(g) && 0 <= c < |g| && HistoryShaped(h, c) && LayoutWith(g, c, h, pick)
    requires pick >= 0 ==> IsOpen(h, c, pick)
    ensures OnGrid(g, Chosen(h, c, pick), 0) && RedExactly(g, Chosen(h, c, pick))
    ensures RedProduct(g) == PathProduct(g, Chosen(h, c, pick))
  {
    var p := Chosen(h, c, pick);
    assert forall k :: 0 <= k < c ==> p[k] == h[k + 1].0;
    if c > 0 {
      assert h[c].0 < c;
    }
    assert OnGrid(g, p, 0);
    RedProductAlongPath(g, p, 0);
  }

  /** The chosen positions after a choice at (c, p), and before the last one. */
  lemma ChosenPathExtend(h: seq<Pair>, c: int, p: int)
    requires HistoryShaped(h, c) && HistoryShaped(BaseHistory(h, c) + [(p, p + 1)], c + 1)
    ensures ChosenPath(BaseHistory(h, c) + [(p, p + 1)], c + 1) == ChosenPath(h, c) + [p]
  {
  }

  lemma ChosenPathShrink(h: seq<Pair>, c: int)
    requires HistoryShaped(h, c) && c > 0 && HistoryShaped(h[..c], c - 1)
    ensures ChosenPath(h, c) == ChosenPath(h[..c], c - 1) + [h[c].0]
  {
  }

  lemma ChosenWithPick(h: seq<Pair>, c: int, pick: int)
    requires HistoryShaped(h, c)
    ensures Chosen(h, c, -1) == ChosenPath(h, c)
    ensures pick >= 0 ==> Chosen(h, c, pick) == ChosenPath(h, c) + [pick]
  {
  }

  /** The history after a choice on the open pair of level c. */
  lemma SelectHistory(h: seq<Pair>, c: int, p: int)
    requires HistoryShaped(h, c) && IsOpen(h, c, p) && p <= c
    ensures HistoryShaped(BaseHistory(h, c) + [(p, p + 1)], c + 1)
  {
    var h' := BaseHistory(h, c) + [(p, p + 1)];
    if c > 0 {
      assert h'[c + 1] == (p, p + 1) && h'[c] == h[c];
      assert forall k :: 1 <= k <= c ==> h'[k] == h[k];
    }
  }

  /** The colours after a choice on the open pair of level c, above the bottom. */
  lemma SelectPainted(g: Grid, c: int, h: seq<Pair>, p: int)
    requires Shaped(g) && 0 <= c < |g| - 1 && HistoryShaped(h, c) && InRange(g, c, p) && IsOpen(h, c, p)
    requires LayoutWith(g, c, h, -1)
    requires HistoryShaped(BaseHistory(h, c) + [(p, p + 1)], c + 1)
    ensures Painted(g, ChooseCards(SetState(g, c, p, Red), c, p), c + 1, BaseHistory(h, c) + [(p, p + 1)], -1)
  {
    var h' := BaseHistory(h, c) + [(p, p + 1)];
    var g2 := ChooseCards(SetState(g, c, p, Red), c, p);
    forall i, j | 0 <= i < |g| && 0 <= j < |g[i]|
      ensures g2[i][j] == g[i][j].WithState(Expected(c + 1, h', -1, i, j))
    {
      assert g[i][j].state == Expected(c, h, -1, i, j);
      if i < c {
        assert h'[i + 1] == h[i + 1];
      }
    }
  }

  /** The state after a choice on the open pair of level c, above the bottom. */
  lemma SelectCore(n: Nav, p: int)
    requires WellFormed(n) && n.currentLevel < |n.cards| - 1 && InRange(n.cards, n.currentLevel, p)
    requires IsOpen(n.history, n.currentLevel, p)
    requires LayoutWith(n.cards, n.currentLevel, n.history, -1) && n.multState == RedProduct(n.cards)
    ensures var c := n.currentLevel;
      var r := Nav(ChooseCards(SetState(n.cards, c, p, Red), c, p), n.multState * n.cards[c][p].num,
                   c + 1, BaseHistory(n.history, c) + [(p, p + 1)]);
      && HistoryShaped(r.history, r.currentLevel)
      && SameCards(n.cards, r.cards)
      && LayoutWith(r.cards, r.currentLevel, r.history, -1)
      && Playing(r)
  {
    var g: Grid, c, h := n.cards, n.currentLevel, n.history;
    var h' := BaseHistory(h, c) + [(p, p + 1)];
    var g2 := ChooseCards(SetState(g, c, p, Red), c, p);
    var r := Nav(g2, n.multState * g[c][p].num, c + 1, h');
    SelectHistory(h, c, p);
    SelectPainted(g, c, h, p);
    PaintedLayout(g, g2, c + 1, h', -1);
    SameCardsShaped(g, g2);
    LaidOutWellFormed(r, -1);
    // the product of the Red cards gains the chosen card
    var path := ChosenPath(h, c);
    ChosenWithPick(h, c, -1);
    ChosenWithPick(h', c + 1, -1);
    ChosenPathExtend(h, c, p);
    LayoutProduct(g, c, h, -1);
    LayoutProduct(g2, c + 1, h', -1);
    ProductAlongSameCards(g, g2, path, 0);
    ProductAlongAppend(g2, path, p, 0);
    assert g2[c][p].num == g[c][p].num;
  }

  /** Choosing one of the two open cards above the bottom level: the card turns
      Red, the rest of its level Gray, the two cards under it open, the level
      advances and the history records the new pair; the product gains the
      card's number, and the game stays in play. */
  lemma SelectOpensNextLevel(n: Nav, l: int, p: int)
    requires Playing(n) && InRange(n.cards, l, p) && n.cards[l][p].state == Blue
    requires l < |n.cards| - 1
    ensures var r := MouseDown(n, false, l, p);
      && l == n.currentLevel
      && r.currentLevel == n.currentLevel + 1
      && r.history == BaseHistory(n.history, n.currentLevel) + [(p, p + 1)]
      && r.multState == n.multState * n.cards[l][p].num
      && HistoryShaped(r.history, r.currentLevel)
      && SameCards(n.cards, r.cards)
      && LayoutWith(r.cards, r.currentLevel, r.history, -1)
      && Playing(r)
  {
    var q := LayoutPick(n);
    assert n.cards[l][p].state == Expected(n.currentLevel, n.history, q, l, p);
    SelectCore(n, p);
  }

  /** The colours after the choice of an open card on the bottom level. */
  lemma PickPainted(g: Grid, c: int, h: seq<Pair>, p: int)
    requires Shaped(g) && c == |g| - 1 && HistoryShaped(h, c) && InRange(g, c, p) && IsOpen(h, c, p)
    requires LayoutWith(g, c, h, -1)
    ensures Painted(g, ChooseCards(SetState(g, c, p, Red), c, p), c, h, p)
  {
    var g2 := ChooseCards(SetState(g, c, p, Red), c, p);
    forall i, j | 0 <= i < |g| && 0 <= j < |g[i]|
      ensures g2[i][j] == g[i][j].WithState(Expected(c, h, p, i, j))
    {
      assert g[i][j].state == Expected(c, h, -1, i, j);
    }
  }

  /** The state after the choice of an open card on the bottom level. */
  lemma PickCore(n: Nav, p: int)
    requires WellFormed(n) && n.currentLevel == |n.cards| - 1 && InRange(n.cards, n.currentLevel, p)
    requires IsOpen(n.history, n.currentLevel, p)
    requires LayoutWith(n.cards, n.currentLevel, n.history, -1) && n.multState == RedProduct(n.cards)
    ensures var c := n.currentLevel;
      var r := Nav(ChooseCards(SetState(n.cards, c, p, Red), c, p), n.multState * n.cards[c][p].num, c, n.history);
      && SameCards(n.cards, r.cards)
      && LayoutWith(r.cards, c, n.history, p)
      && Playing(r)
  {
    var g: Grid, c, h := n.cards, n.currentLevel, n.history;
    var g2 := ChooseCards(SetState(g, c, p, Red), c, p);
    var r := Nav(g2, n.multState * g[c][p].num, c, h);
    PickPainted(g, c, h, p);
    PaintedLayout(g, g2, c, h, p);
    SameCardsShaped(g, g2);
    LaidOutWellFormed(r, p);
    assert Layout(r);
    var path := ChosenPath(h, c);
    ChosenWithPick(h, c, -1);
    ChosenWithPick(h, c, p);
    LayoutProduct(g, c, h, -1);
    LayoutProduct(g2, c, h, p);
    ProductAlongSameCards(g, g2, path, 0);
    ProductAlongAppend(g2, path, p, 0);
    assert g2[c][p].num == g[c][p].num;
  }

  /** Choosing one of the two open cards of the bottom level: the card turns
      Red and its neighbour Gray, level and history stay, the product gains the
      card's number, and the game stays in play with that card picked. */
  lemma SelectLastLevel(n: Nav, l: int, p: int)
    requires Playing(n) && InRange(n.cards, l, p) && n.cards[l][p].state == Blue
    requires l == |n.cards| - 1
    ensures var r := MouseDown(n, false, l, p);
      && l == n.currentLevel
      && r.currentLevel == n.currentLevel
      && r.history == n.history
      && r.multState == n.multState * n.cards[l][p].num
      && SameCards(n.cards, r.cards)
      && LayoutWith(r.cards, l, n.history, p)
      && Playing(r)
  {
    var q := LayoutPick(n);
    assert n.cards[l][p].state == Expected(n.currentLevel, n.history, q, l, p);
    PickCore(n, p);
  }

  /** The colours after the bottom pick is given back. */
  lemma UndoPainted(g: Grid, c: int, h: seq<Pair>, p: int)
    requires Shaped(g) && 0 < c == |g| - 1 && HistoryShaped(h, c) && IsOpen(h, c, p)
    requires LayoutWith(g, c, h, p)
    ensures Painted(g, PaintPair(g, c, h[c], Blue), c, h, -1)
  {
    var g2 := PaintPair(g, c, h[c], Blue);
    forall i, j | 0 <= i < |g| && 0 <= j < |g[i]|
      ensures g2[i][j] == g[i][j].WithState(Expected(c, h, -1, i, j))
    {
      assert g[i][j].state == Expected(c, h, p, i, j);
    }
  }

  /** The state after the bottom pick is given back. */
  lemma UndoCore(n: Nav, p: int)
    requires WellFormed(n) && n.currentLevel == |n.cards| - 1 && IsOpen(n.history, n.currentLevel, p)
    requires LayoutWith(n.cards, n.currentLevel, n.history, p) && n.multState == RedProduct(n.cards)
    ensures 0 <= p < |n.cards[n.currentLevel]| && n.history != []
    ensures var c := n.currentLevel;
      var r := Nav(PaintPair(n.cards, c, n.history[c], Blue), UpdateMult(n.multState, n.cards[c][p].num, OpenAbove), c, n.history);
      && r.multState * n.cards[c][p].num == n.multState
      && SameCards(n.cards, r.cards)
      && LayoutWith(r.cards, c, n.history, -1)
      && Playing(r)
  {
    var g: Grid, c, h := n.cards, n.currentLevel, n.history;
    assert h[c].0 < c;
    var v := g[c][p].num;
    var g2 := PaintPair(g, c, h[c], Blue);
    var r := Nav(g2, UpdateMult(n.multState, v, OpenAbove), c, h);
    UndoPainted(g, c, h, p);
    PaintedLayout(g, g2, c, h, -1);
    SameCardsShaped(g, g2);
    LaidOutWellFormed(r, -1);
    var path := ChosenPath(h, c);
    ChosenWithPick(h, c, -1);
    ChosenWithPick(h, c, p);
    LayoutProduct(g, c, h, p);
    LayoutProduct(g2, c, h, -1);
    ProductAlongSameCards(g, g2, path, 0);
    ProductAlongAppend(g, path, p, 0);
    ProductAlongPositive(g, path, 0);
    MultThenDivide(PathProduct(g, path), v);
  }

  /** Clicking the Red card of the bottom level gives it back: its pair opens
      again, level and history stay, the product loses the card's number, and
      the game stays in play. */
  lemma UndoLastLevel(n: Nav, l: int, p: int)
    requires Playing(n) && InRange(n.cards, l, p) && n.cards[l][p].state == Red
    requires l == n.currentLevel == |n.cards| - 1
    ensures var r := MouseDown(n, false, l, p);
      && r.currentLevel == n.currentLevel
      && r.history == n.history
      && r.multState * n.cards[l][p].num == n.multState
      && SameCards(n.cards, r.cards)
      && LayoutWith(r.cards, l, n.history, -1)
      && Playing(r)
  {
    var q := LayoutPick(n);
    assert n.cards[l][p].state == Expected(n.currentLevel, n.history, q, l, p);
    UndoCore(n, p);
  }

  /** Forgetting the last entry of the history. */
  lemma BackHistory(h: seq<Pair>, c: int)
    requires HistoryShaped(h, c) && c > 0
    ensures HistoryShaped(h[..c], c - 1) && h[..c] != [] && h[..c][c - 1] == h[c - 1]
  {
  }

  /** The colours after stepping back from level c to level c-1. */
  lemma BackPainted(g: Grid, c: int, h: seq<Pair>)
    requires Shaped(g) && 0 < c < |g| && HistoryShaped(h, c) && HistoryShaped(h[..c], c - 1) && h[..c] != []
    requires LayoutWith(g, c, h, -1)
    ensures InRange(g, c, h[c].0) && InRange(g, c, h[c].1)
    ensures InRange(g, c - 1, h[c - 1].0) && InRange(g, c - 1, h[c - 1].1)
    ensures Painted(g, PaintPair(PaintPair(g, c, h[c], Gray), c - 1, h[c - 1], Blue), c - 1, h[..c], -1)
  {
    assert h[c].0 < c;
    if c > 1 {
      assert h[c - 1].0 < c - 1;
    }
    var g1 := PaintPair(g, c, h[c], Gray);
    var g2 := PaintPair(g1, c - 1, h[c - 1], Blue);
    forall i, j | 0 <= i < |g| && 0 <= j < |g[i]|
      ensures g2[i][j] == g[i][j].WithState(Expected(c - 1, h[..c], -1, i, j))
    {
      assert g[i][j].state == Expected(c, h, -1, i, j);
      if i < c - 1 {
        assert h[..c][i + 1] == h[i + 1];
      }
    }
  }

  /** Stepping back divides the chosen card of level c-1 out of the product. */
  lemma BackProduct(g: Grid, c: int, h: seq<Pair>, g2: Grid)
    requires Shaped(g) && 0 < c < |g| && HistoryShaped(h, c) && HistoryShaped(h[..c], c - 1)
    requires LayoutWith(g, c, h, -1) && SameCards(g, g2) && LayoutWith(g2, c - 1, h[..c], -1)
    ensures InRange(g, c - 1, h[c].0)
    ensures UpdateMult(RedProduct(g), g[c - 1][h[c].0].num, OpenAbove) * g[c - 1][h[c].0].num == RedProduct(g)
    ensures UpdateMult(RedProduct(g), g[c - 1][h[c].0].num, OpenAbove) == RedProduct(g2)
  {
    var p := h[c].0;
    var h1 := h[..c];
    var v := g[c - 1][p].num;
    var path := ChosenPath(h1, c - 1);
    ChosenWithPick(h, c, -1);
    ChosenWithPick(h1, c - 1, -1);
    ChosenPathShrink(h, c);
    LayoutProduct(g, c, h, -1);
    LayoutProduct(g2, c - 1, h1, -1);
    ProductAlongSameCards(g, g2, path, 0);
    ProductAlongAppend(g, path, p, 0);
    ProductAlongPositive(g, path, 0);
    MultThenDivide(PathProduct(g, path), v);
  }

  /** The state after stepping back from level c to level c-1 by clicking the
      Red card p of level c-1. */
  lemma BackCore(n: Nav, p: int)
    requires WellFormed(n) && n.currentLevel > 0 && n.history != [] && p == n.history[n.currentLevel].0
    requires LayoutWith(n.cards, n.currentLevel, n.history, -1) && n.multState == RedProduct(n.cards)
    ensures var c := n.currentLevel;
      var h := n.history;
      && InRange(n.cards, c - 1, p)
      && InRange(n.cards, c, h[c].0) && InRange(n.cards, c, h[c].1)
      && InRange(n.cards, c - 1, h[c - 1].0) && InRange(n.cards, c - 1, h[c - 1].1)
      && var r := Nav(PaintPair(PaintPair(n.cards, c, h[c], Gray), c - 1, h[c - 1], Blue),
                      UpdateMult(n.multState, n.cards[c - 1][p].num, OpenAbove), c - 1, h[..c]);
      && HistoryShaped(r.history, r.currentLevel)
      && r.multState * n.cards[c - 1][p].num == n.multState
      && SameCards(n.cards, r.cards)
      && LayoutWith(r.cards, c - 1, h[..c], -1)
      && Playing(r)
  {
    var g: Grid, c, h := n.cards, n.currentLevel, n.history;
    BackHistory(h, c);
    var h1 := h[..c];
    BackPainted(g, c, h);
    var g2 := PaintPair(PaintPair(g, c, h[c], Gray), c - 1, h[c - 1], Blue);
    var r := Nav(g2, UpdateMult(n.multState, g[c - 1][p].num, OpenAbove), c - 1, h1);
    PaintedLayout(g, g2, c - 1, h1, -1);
    SameCardsShaped(g, g2);
    LaidOutWellFormed(r, -1);
    BackProduct(g, c, h, g2);
  }

  /** Clicking the Red card of the level above the current one, when no bottom
      card is picked, steps back: the current pair closes, the history forgets
      it, the level goes up by one, the pair there opens again, the product
      loses the card's number, and the game stays in play. */
  lemma StepBack(n: Nav, l: int, p: int)
    requires Playing(n) && InRange(n.cards, l, p) && n.cards[l][p].state == Red
    requires l + 1 == n.currentLevel && !CheckCond(n.cards, n.currentLevel, p)
    ensures var r := MouseDown(n, false, l, p);
      && r.currentLevel == n.currentLevel - 1
      && r.history == n.history[..n.currentLevel]
      && HistoryShaped(r.history, r.currentLevel)
      && r.multState * n.cards[l][p].num == n.multState
      && SameCards(n.cards, r.cards)
      && LayoutWith(r.cards, r.currentLevel, r.history, -1)
      && Playing(r)
  {
    var g: Grid, c, h := n.cards, n.currentLevel, n.history;
    var q := LayoutPick(n);
    assert g[l][p].state == Expected(c, h, q, l, p);
    assert p == h[c].0 && h[c].1 == p + 1;
    assert q == -1;
    BackCore(n, p);
  }

  /** Colours only: a grid with the cards of a well-formed one, whose Blue cards
      are the open pair of its own level and history, is well formed. */
  lemma RecolouredWellFormed(n: Nav, r: Nav)
    requires WellFormed(n) && SameCards(n.cards, r.cards)
    requires 0 <= r.currentLevel < |r.cards| && HistoryShaped(r.history, r.currentLevel)
    requires BlueWithin(r.cards, r.currentLevel, OpenPair(r.history, r.currentLevel))
    ensures WellFormed(r)
  {
    SameCardsShaped(n.cards, r.cards);
  }

  /** After choosing (c, p) the only Blue cards are the two under it. */
  lemma ChooseBlue(g: Grid, c: int, p: int, pr: Pair)
    requires Triangular(g) && InRange(g, c, p) && BlueWithin(g, c, pr)
    ensures var g2 := ChooseCards(SetState(g, c, p, Red), c, p);
      SameCards(g, g2) && BlueWithin(g2, c + 1, (p, p + 1))
  {
    var g': Grid := SetState(g, c, p, Red);
    var g2: Grid := ChooseCards(g', c, p);
    forall i, j | 0 <= i < |g2| && 0 <= j < |g2[i]| && g2[i][j].state == Blue
      ensures i == c + 1 && (j == p || j == p + 1)
    {
    }
    forall i, j | 0 <= i < |g| && 0 <= j < |g[i]|
      ensures g2[i][j] == g[i][j].WithState(g2[i][j].state)
    {
      assert g'[i][j] == if i == c && j == p then g[i][j].WithState(Red) else g[i][j];
    }
  }

  /** Opening a pair on the level that holds the Blue cards, or on a level with
      none, leaves Blue only on that pair; closing the pair leaves no Blue. */
  lemma PaintPairBlue(g: Grid, c: int, pr: Pair, s: State)
    requires InRange(g, c, pr.0) && InRange(g, c, pr.1)
    ensures SameCards(g, PaintPair(g, c, pr, s))
    ensures s == Blue && (BlueWithin(g, c, pr) || NoBlue(g)) ==> BlueWithin(PaintPair(g, c, pr, s), c, pr)
    ensures s != Blue && BlueWithin(g, c, pr) ==> NoBlue(PaintPair(g, c, pr, s))
  {
  }

  /** Choosing an open card keeps the game well formed, in any state. */
  lemma FlipBelowWellFormed(n: Nav, p: int)
    requires WellFormed(n) && InRange(n.cards, n.currentLevel, p) && IsOpen(n.history, n.currentLevel, p)
    ensures var r := FlipBelow(n.(cards := SetState(n.cards, n.currentLevel, p, Red)), n.currentLevel, p);
      WellFormed(r) && SameCards(n.cards, r.cards)
  {
    var g: Grid, c, h := n.cards, n.currentLevel, n.history;
    var r := FlipBelow(n.(cards := SetState(g, c, p, Red)), c, p);
    ChooseBlue(g, c, p, OpenPair(h, c));
    if c < |g| - 1 {
      SelectHistory(h, c, p);
      assert OpenPair(r.history, r.currentLevel) == (p, p + 1);
    } else {
      assert BaseHistory(h, c) == h;
    }
    RecolouredWellFormed(n, r);
  }

  /** Giving back the bottom pick keeps the game well formed. */
  lemma UndoWellFormed(n: Nav, m: int)
    requires WellFormed(n) && 0 < n.currentLevel == |n.cards| - 1
    ensures var c := n.currentLevel;
      && n.history != [] && InRange(n.cards, c, n.history[c].0) && InRange(n.cards, c, n.history[c].1)
      && var r := n.(cards := PaintPair(n.cards, c, n.history[c], Blue), multState := m);
      WellFormed(r) && SameCards(n.cards, r.cards)
  {
    var g: Grid, c, h := n.cards, n.currentLevel, n.history;
    assert h[c].0 < c;
    PaintPairBlue(g, c, h[c], Blue);
    RecolouredWellFormed(n, n.(cards := PaintPair(g, c, h[c], Blue), multState := m));
  }

  /** Stepping back recolours the cards: graying the open pair of level c and
      reopening the pair recorded for level c-1 keeps the cards and leaves
      Blue only within that pair. */
  lemma BackRecolour(g: Grid, c: int, h: seq<Pair>)
    requires Shaped(g) && 0 < c < |g| && HistoryShaped(h, c)
    requires BlueWithin(g, c, OpenPair(h, c))
    ensures InRange(g, c, h[c].0) && InRange(g, c, h[c].1)
    ensures InRange(g, c - 1, h[c - 1].0) && InRange(g, c - 1, h[c - 1].1)
    ensures var g2 := PaintPair(PaintPair(g, c, h[c], Gray), c - 1, h[c - 1], Blue);
      SameCards(g, g2) && BlueWithin(g2, c - 1, h[c - 1])
  {
    assert h[c].0 < c;
    if c > 1 {
      assert h[c - 1].0 < c - 1;
    }
    assert OpenPair(h, c) == h[c];
    var g1 := PaintPair(g, c, h[c], Gray);
    PaintPairBlue(g, c, h[c], Gray);
    var g2 := PaintPair(g1, c - 1, h[c - 1], Blue);
    PaintPairBlue(g1, c - 1, h[c - 1], Blue);
    SameCardsTrans(g, g1, g2);
  }

  /** Stepping back keeps the game well formed. */
  lemma BackWellFormed(n: Nav, m: int)
    requires WellFormed(n) && 0 < n.currentLevel
    ensures WellFormed(SteppedBack(n, m)) && SameCards(n.cards, SteppedBack(n, m).cards)
  {
    var g: Grid, c, h := n.cards, n.currentLevel, n.history;
    BackHistory(h, c);
    BackRecolour(g, c, h);
    var g2 := PaintPair(PaintPair(g, c, h[c], Gray), c - 1, h[c - 1], Blue);
    var r := SteppedBack(n, m);
    assert r == Nav(g2, m, c - 1, h[..c]);
    assert OpenPair(h[..c], c - 1) == h[c - 1];
    RecolouredWellFormed(n, r);
  }

  /** Giving back the bottom pick, as the Red click runs it, keeps the game well formed. */
  lemma FlipAboveUndoWellFormed(n: Nav, submitted: bool, l: int, p: int)
    requires WellFormed(n) && InRange(n.cards, l, p) && n.cards[l][p].state == Red
    requires AboveBranch(n, submitted, l, p) == UndoPick
    ensures WellFormed(FlipAbove(n, submitted, l, p)) && SameCards(n.cards, FlipAbove(n, submitted, l, p).cards)
  {
    var g: Grid, c, h := n.cards, n.currentLevel, n.history;
    var m := UpdateMult(n.multState, g[l][p].num, OpenAbove);
    UndoWellFormed(n, m);
    assert FlipAbove(n, submitted, l, p) == Nav(PaintPair(g, c, h[c], Blue), m, c, h);
  }

  /** Stepping back, as the Red click runs it, keeps the game well formed. */
  lemma FlipAboveBackWellFormed(n: Nav, submitted: bool, l: int, p: int)
    requires WellFormed(n) && InRange(n.cards, l, p) && n.cards[l][p].state == Red
    requires AboveBranch(n, submitted, l, p) == StepUp
    ensures WellFormed(FlipAbove(n, submitted, l, p)) && SameCards(n.cards, FlipAbove(n, submitted, l, p).cards)
  {
    assert l + 1 == n.currentLevel;
    var m := UpdateMult(n.multState, n.cards[l][p].num, OpenAbove);
    BackWellFormed(n, m);
    assert FlipAbove(n, submitted, l, p) == SteppedBack(n, m);
  }

  /** Clicking a Red card keeps the game well formed, in any state. */
  lemma FlipAboveWellFormed(n: Nav, submitted: bool, l: int, p: int)
    requires WellFormed(n) && InRange(n.cards, l, p) && n.cards[l][p].state == Red
    ensures var r := FlipAbove(n, submitted, l, p);
      WellFormed(r) && SameCards(n.cards, r.cards)
  {
    var br := AboveBranch(n, submitted, l, p);
    if br == UndoPick {
      FlipAboveUndoWellFormed(n, submitted, l, p);
    } else if br == StepUp {
      FlipAboveBackWellFormed(n, submitted, l, p);
    } else {
      assert FlipAbove(n, submitted, l, p) == n;
    }
  }

  /** Every click keeps the game well formed and keeps the cards, whether the
      answer is submitted or not. */
  lemma MouseDownWellFormed(n: Nav, submitted: bool, l: int, p: int)
    requires WellFormed(n) && InRange(n.cards, l, p)
    ensures WellFormed(MouseDown(n, submitted, l, p))
    ensures SameCards(n.cards, MouseDown(n, submitted, l, p).cards)
  {
    var card := n.cards[l][p];
    if card.state == Blue {
      FlipBelowWellFormed(n, p);
    } else if card.state == Red {
      FlipAboveWellFormed(n, submitted, l, p);
    }
  }

  /** Every click of a game in play, before submission, keeps it in play;
      clicks on Gray and Green cards change nothing. */
  lemma MouseDownPlaying(n: Nav, l: int, p: int)
    requires Playing(n) && InRange(n.cards, l, p)
    ensures Playing(MouseDown(n, false, l, p))
    ensures n.cards[l][p].state == Gray || n.cards[l][p].state == Green ==> MouseDown(n, false, l, p) == n
  {
    var g: Grid, c := n.cards, n.currentLevel;
    var card := g[l][p];
    if card.state == Blue {
      if l < |g| - 1 {
        SelectOpensNextLevel(n, l, p);
      } else {
        SelectLastLevel(n, l, p);
      }
    } else if card.state == Red {
      if c == |g| - 1 && l == c {
        UndoLastLevel(n, l, p);
      } else if l + 1 == c && !CheckCond(g, c, p) {
        StepBack(n, l, p);
      }
    }
  }

  /** After the answer is submitted, a Red click changes nothing and a Blue
      click opens the next level as before, so the chosen cards still
      multiply to the product. */
  lemma MouseDownPlayingSubmitted(n: Nav, l: int, p: int)
    requires Playing(n) && InRange(n.cards, l, p)
    ensures Playing(MouseDown(n, true, l, p))
    ensures n.cards[l][p].state == Red ==> MouseDown(n, true, l, p) == n
    ensures n.cards[l][p].state == Blue ==> MouseDown(n, true, l, p) == MouseDown(n, false, l, p)
  {
    MouseDownPlaying(n, l, p);
    if n.cards[l][p].state == Red {
      assert AboveBranch(n, true, l, p) == Ignore;
    }
  }

  /** The only Red clicks that change a game in play are the one on the card
      chosen on the level above the current one and the one on the bottom pick. */
  lemma RedClickTargets(n: Nav, l: int, p: int)
    requires Playing(n) && InRange(n.cards, l, p) && n.cards[l][p].state == Red
    requires MouseDown(n, false, l, p) != n
    ensures || (l + 1 == n.currentLevel && p == n.history[n.currentLevel].0)
            || (l == n.currentLevel == |n.cards| - 1 && LayoutWith(n.cards, l, n.history, p))
  {
    var q := LayoutPick(n);
    assert n.cards[l][p].state == Expected(n.currentLevel, n.history, q, l, p);
  }

  /** While a bottom card is picked, clicking the card above it does nothing:
      the pick has to be given back first. */
  lemma StepBackBlocked(n: Nav, p: int)
    requires Playing(n) && n.currentLevel == |n.cards| - 1 && HasRed(n.cards[n.currentLevel])
    requires InRange(n.cards, n.currentLevel - 1, p) && n.cards[n.currentLevel - 1][p].state == Red
    ensures MouseDown(n, false, n.currentLevel - 1, p) == n
  {
    var g: Grid, c, h := n.cards, n.currentLevel, n.history;
    var q := LayoutPick(n);
    var k :| 0 <= k < |g[c]| && g[c][k].state == Red;
    assert g[c][k].state == Expected(c, h, q, c, k);
    assert g[c - 1][p].state == Expected(c, h, q, c - 1, p);
    assert p == h[c].0 && q >= 0;
    assert CheckCond(g, c, p);
  }

  /** Grids with the same cards and the same colours are equal. */
  lemma SameColoursSameGrid(g: Grid, g': Grid)
    requires SameCards(g, g')
    requires forall i, j :: 0 <= i < |g| && 0 <= j < |g[i]| ==> g'[i][j].state == g[i][j].state
    ensures g' == g
  {
    forall i, j | 0 <= i < |g| && 0 <= j < |g[i]|
      ensures g[i][j] == g'[i][j]
    {
      assert g'[i][j] == g[i][j].WithState(g'[i][j].state);
    }
    GridExt(g, g');
  }

  /** Grids with the same cards laid out the same way are equal. */
  lemma SameLayoutSameGrid(g: Grid, g': Grid, c: int, h: seq<Pair>, pick: int)
    requires HistoryShaped(h, c) && SameCards(g, g')
    requires LayoutWith(g, c, h, pick) && LayoutWith(g', c, h, pick)
    ensures g' == g
  {
    SameColoursSameGrid(g, g');
  }

  /** Restarting the history at (0, 0) on the apex level keeps the layout. */
  lemma LayoutBaseHistory(g: Grid, c: int, h: seq<Pair>)
    requires HistoryShaped(h, c) && LayoutWith(g, c, h, -1)
    ensures HistoryShaped(BaseHistory(h, c), c) && LayoutWith(g, c, BaseHistory(h, c), -1)
  {
    if c == 0 {
      assert OpenPair(BaseHistory(h, c), c) == OpenPair(h, c);
    }
  }

  /** A game in play with a Blue card has no bottom pick. */
  lemma BlueMeansNoPick(n: Nav, l: int, p: int)
    requires Playing(n) && InRange(n.cards, l, p) && n.cards[l][p].state == Blue
    ensures LayoutWith(n.cards, n.currentLevel, n.history, -1) && l == n.currentLevel
  {
    var q := LayoutPick(n);
    assert n.cards[l][p].state == Expected(n.currentLevel, n.history, q, l, p);
  }

  /** The step back from the state r a choice above the bottom led to gives
      back the game before the choice, with its history restarted at (0, 0)
      if it was empty. */
  lemma StepBackRestores(n: Nav, r: Nav, l: int, p: int)
    requires Playing(n) && l == n.currentLevel < |n.cards| - 1 && InRange(n.cards, l, p)
    requires LayoutWith(n.cards, l, n.history, -1)
    requires r.currentLevel == l + 1 && r.history == BaseHistory(n.history, l) + [(p, p + 1)]
    requires r.multState == n.multState * n.cards[l][p].num
    requires HistoryShaped(r.history, r.currentLevel) && SameCards(n.cards, r.cards)
    requires LayoutWith(r.cards, r.currentLevel, r.history, -1) && Playing(r)
    ensures InRange(r.cards, l, p) && r.cards[l][p].state == Red
    ensures MouseDown(r, false, l, p) == n.(history := BaseHistory(n.history, l))
  {
    var g: Grid, c, h := n.cards, n.currentLevel, n.history;
    var h' := r.history;
    assert r.cards[c][p].state == Expected(c + 1, h', -1, c, p);
    assert c + 1 == |g| - 1 ==>
      r.cards[c + 1][p].state == Expected(c + 1, h', -1, c + 1, p) &&
      r.cards[c + 1][p + 1].state == Expected(c + 1, h', -1, c + 1, p + 1);
    assert !CheckCond(r.cards, c + 1, p);
    StepBack(r, l, p);
    var s := MouseDown(r, false, l, p);
    assert h'[..c + 1] == BaseHistory(h, c);
    SameCardsTrans(g, r.cards, s.cards);
    LayoutBaseHistory(g, c, h);
    SameLayoutSameGrid(g, s.cards, c, BaseHistory(h, c), -1);
    assert r.cards[l][p].num == g[l][p].num;
    assert s.multState * g[l][p].num == n.multState * g[l][p].num;
  }

  /** Above the bottom level: the second click steps back. */
  lemma SelectThenDeselectAbove(n: Nav, l: int, p: int)
    requires Playing(n) && InRange(n.cards, l, p) && n.cards[l][p].state == Blue && l < |n.cards| - 1
    ensures Playing(MouseDown(n, false, l, p)) && InRange(MouseDown(n, false, l, p).cards, l, p)
    ensures MouseDown(MouseDown(n, false, l, p), false, l, p) == n.(history := BaseHistory(n.history, n.currentLevel))
  {
    BlueMeansNoPick(n, l, p);
    SelectOpensNextLevel(n, l, p);
    StepBackRestores(n, MouseDown(n, false, l, p), l, p);
  }

  /** On the bottom level: the second click gives the pick back. */
  lemma SelectThenDeselectBottom(n: Nav, l: int, p: int)
    requires Playing(n) && InRange(n.cards, l, p) && n.cards[l][p].state == Blue && l == |n.cards| - 1
    ensures Playing(MouseDown(n, false, l, p)) && InRange(MouseDown(n, false, l, p).cards, l, p)
    ensures MouseDown(MouseDown(n, false, l, p), false, l, p) == n
  {
    var g: Grid, c, h := n.cards, n.currentLevel, n.history;
    var r := MouseDown(n, false, l, p);
    SelectLastLevel(n, l, p);
    assert r.cards[c][p].state == Expected(c, h, p, c, p);
    UndoLastLevel(r, l, p);
    var s := MouseDown(r, false, l, p);
    SameCardsTrans(g, r.cards, s.cards);
    BlueMeansNoPick(n, l, p);
    SameLayoutSameGrid(g, s.cards, c, h, -1);
    assert s.multState * g[l][p].num == n.multState * g[l][p].num;
  }

  /** Choosing an open card and clicking it again gives the game back: cards,
      product and level as they were, and the history as well, except that a
      history still empty at the apex is now [(0, 0)]. */
  lemma SelectThenDeselect(n: Nav, l: int, p: int)
    requires Playing(n) && InRange(n.cards, l, p) && n.cards[l][p].state == Blue
    ensures Playing(MouseDown(n, false, l, p)) && InRange(MouseDown(n, false, l, p).cards, l, p)
    ensures MouseDown(MouseDown(n, false, l, p), false, l, p) == n.(history := BaseHistory(n.history, n.currentLevel))
    ensures n.history != [] ==> MouseDown(MouseDown(n, false, l, p), false, l, p) == n
  {
    if l < |n.cards| - 1 {
      SelectThenDeselectAbove(n, l, p);
    } else {
      SelectThenDeselectBottom(n, l, p);
      assert n.currentLevel > 0;
    }
  }

  /** Giving back the bottom pick and choosing it again gives the game back. */
  lemma UndoThenSelect(n: Nav, l: int, p: int)
    requires Playing(n) && InRange(n.cards, l, p) && n.cards[l][p].state == Red
    requires l == n.currentLevel == |n.cards| - 1
    ensures Playing(MouseDown(n, false, l, p)) && InRange(MouseDown(n, false, l, p).cards, l, p)
    ensures MouseDown(MouseDown(n, false, l, p), false, l, p) == n
  {
    var g: Grid, c, h := n.cards, n.currentLevel, n.history;
    var q := LayoutPick(n);
    assert g[l][p].state == Expected(c, h, q, l, p);
    var r := MouseDown(n, false, l, p);
    UndoLastLevel(n, l, p);
    assert r.cards[c][p].state == Expected(c, h, -1, c, p);
    SelectLastLevel(r, l, p);
    var s := MouseDown(r, false, l, p);
    SameCardsTrans(g, r.cards, s.cards);
    SameLayoutSameGrid(g, s.cards, c, h, p);
  }

  /** Choosing again, from the state r a step back from level c led to, the
      card p that was stepped back from gives back the game before the step. */
  lemma ReselectRestores(n: Nav, r: Nav, l: int, p: int)
    requires Playing(n) && InRange(n.cards, l, p) && l + 1 == n.currentLevel
    requires LayoutWith(n.cards, n.currentLevel, n.history, -1) && n.history != []
    requires p == n.history[n.currentLevel].0
    requires r.currentLevel == l && r.history == n.history[..n.currentLevel]
    requires HistoryShaped(r.history, r.currentLevel)
    requires r.multState * n.cards[l][p].num == n.multState
    requires SameCards(n.cards, r.cards) && LayoutWith(r.cards, l, r.history, -1) && Playing(r)
    ensures InRange(r.cards, l, p) && r.cards[l][p].state == Blue
    ensures MouseDown(r, false, l, p) == n
  {
    var g: Grid, c, h := n.cards, n.currentLevel, n.history;
    var h1 := r.history;
    assert h[c].0 < c;
    assert r.cards[l][p].state == Expected(l, h1, -1, l, p);
    SelectOpensNextLevel(r, l, p);
    var s := MouseDown(r, false, l, p);
    assert BaseHistory(h1, l) + [(p, p + 1)] == h;
    SameCardsTrans(g, r.cards, s.cards);
    SameLayoutSameGrid(g, s.cards, c, h, -1);
    assert r.cards[l][p].num == g[l][p].num;
  }

  /** Stepping back and choosing the same card again gives the game back. */
  lemma BackThenSelect(n: Nav, l: int, p: int)
    requires Playing(n) && InRange(n.cards, l, p) && n.cards[l][p].state == Red
    requires l + 1 == n.currentLevel && !CheckCond(n.cards, n.currentLevel, p)
    ensures Playing(MouseDown(n, false, l, p)) && InRange(MouseDown(n, false, l, p).cards, l, p)
    ensures MouseDown(MouseDown(n, false, l, p), false, l, p) == n
  {
    var g: Grid, c, h := n.cards, n.currentLevel, n.history;
    var q := LayoutPick(n);
    assert g[l][p].state == Expected(c, h, q, l, p);
    assert q == -1 && p == h[c].0;
    StepBack(n, l, p);
    ReselectRestores(n, MouseDown(n, false, l, p), l, p);
  }

  /** Every Red click that changes a game in play is undone by clicking the
      same card again. */
  lemma DeselectThenSelect(n: Nav, l: int, p: int)
    requires Playing(n) && InRange(n.cards, l, p) && n.cards[l][p].state == Red
    ensures Playing(MouseDown(n, false, l, p)) && InRange(MouseDown(n, false, l, p).cards, l, p)
    ensures MouseDown(n, false, l, p) != n ==> MouseDown(MouseDown(n, false, l, p), false, l, p) == n
  {
    var g: Grid, c := n.cards, n.currentLevel;
    MouseDownPlaying(n, l, p);
    MouseDownWellFormed(n, false, l, p);
    if c == |g| - 1 && l == c {
      UndoThenSelect(n, l, p);
    } else if l + 1 == c && !CheckCond(g, c, p) {
      BackThenSelect(n, l, p);
    }
  }

  /** When the submit button's condition holds, the Red cards form a descent of
      the whole pyramid, and the running product is the score of the solver
      entry for that descent: the submitted answer is one of the target scores. */
  lemma SubmittedScoreListed(n: Nav) returns (t: nat)
    requires Playing(n) && SubmitEligible(n.cards, n.currentLevel)
    ensures t < |Solved(n.cards)| && IsPath(Solved(n.cards)[t].path, |n.cards|)
    ensures OnGrid(n.cards, Solved(n.cards)[t].path, 0) && RedExactly(n.cards, Solved(n.cards)[t].path)
    ensures Solved(n.cards)[t].score == n.multState
  {
    var g: Grid, c, h := n.cards, n.currentLevel, n.history;
    var q := LayoutPick(n);
    var k :| 0 <= k < |g[c]| && g[c][k].state == Red;
    assert g[c][k].state == Expected(c, h, q, c, k);
    var path := Chosen(h, c, q);
    ChosenWithPick(h, c, q);
    LayoutProduct(g, c, h, q);
    assert h[1].0 == 0;
    assert StepsFrom(path, 0) by {
      forall i | 1 <= i < |path|
        ensures path[i] == path[i - 1] || path[i] == path[i - 1] + 1
      {
        if i < c {
          assert path[i] == h[i + 1].0 && path[i - 1] == h[i].0;
        } else {
          assert path[i] == q && path[i - 1] == h[c].0;
        }
      }
    }
    assert IsPath(path, |g|);
    t := SolvedComplete(g, path);
    SolvedSound(g);
    assert Solved(g)[t] in Solved(g);
  }

  /** The state generation and reset produce: apex open, nothing chosen,
      product 1, empty history. It is in play. */
  lemma StartIsPlaying(g: Grid)
    requires AtStart(g)
    ensures Playing(Nav(g, 1, 0, []))
    ensures LayoutWith(g, 0, [], -1)
  {
    assert LayoutWith(g, 0, [], -1);
    LaidOutWellFormed(Nav(g, 1, 0, []), -1);
    LayoutProduct(g, 0, [], -1);
  }
}
