/** The triangular array of cards: its shape, state updates of single cards,
    the product of the cards along a descent path and the product of the Red
    cards. */
module Pyramid {
  import opened Cards

  /** Level i (0 is the apex) is the sequence of the i+1 cards of that level. */
  type Grid = seq<seq<Card>>

  /** Heights the game is built with. */
  const MIN_LEVELS := 2
  const MAX_LEVELS := 9

  /** Level i holds exactly i+1 cards. */
  ghost predicate Triangular(g: Grid) {
    forall i :: 0 <= i < |g| ==> |g[i]| == i + 1
  }

  /** (i, j) names a card of the grid. */
  predicate InRange(g: Grid, i: int, j: int) {
    0 <= i < |g| && 0 <= j < |g[i]|
  }

  /** The shape and the card data that generation establishes: a triangle of
      cards numbered 1 to 9 whose stored coordinates are their own. */
  ghost predicate Shaped(g: Grid) {
    && Triangular(g)
    && forall i, j :: 0 <= i < |g| && 0 <= j < |g[i]| ==>
         MIN_NUM <= g[i][j].num <= MAX_NUM && g[i][j].level == i && g[i][j].pos == j
  }

  /** Two grids hold the same cards, possibly in different colours. */
  ghost predicate SameCards(g: Grid, g': Grid) {
    && |g| == |g'|
    && (forall i :: 0 <= i < |g| ==> |g[i]| == |g'[i]|)
    && forall i, j :: 0 <= i < |g| && 0 <= j < |g[i]| ==>
         g'[i][j] == g[i][j].WithState(g'[i][j].state)
  }

  /** Two grids with the same shape and the same card at every place are equal. */
  lemma GridExt(g: Grid, g': Grid)
    requires |g| == |g'| && forall i :: 0 <= i < |g| ==> |g[i]| == |g'[i]|
    requires forall i, j :: 0 <= i < |g| && 0 <= j < |g[i]| ==> g[i][j] == g'[i][j]
    ensures g == g'
  {
    forall i | 0 <= i < |g| ensures g[i] == g'[i] {
      assert forall j :: 0 <= j < |g[i]| ==> g[i][j] == g'[i][j];
    }
  }

  /** The grid after one card's state setter has run. */
  function SetState(g: Grid, i: int, j: int, s: State): (r: Grid)
    requires InRange(g, i, j)
  {
    g[i := g[i][j := g[i][j].WithState(s)]]
  }

  /** A level after every card but the one at p has been set Gray. */
  function GrayOthers(row: seq<Card>, p: int): (r: seq<Card>) {
    seq(|row|, j requires 0 <= j < |row| => if j == p then row[j] else row[j].WithState(Gray))
  }

  /** A state update keeps the cards. */
  lemma SetStateSameCards(g: Grid, i: int, j: int, s: State)
    requires InRange(g, i, j)
    ensures SameCards(g, SetState(g, i, j, s))
  {
  }

  /** Recolouring twice is recolouring once. */
  lemma SameCardsTrans(g: Grid, g': Grid, g'': Grid)
    requires SameCards(g, g') && SameCards(g', g'')
    ensures SameCards(g, g'')
  {
    forall i, j | 0 <= i < |g| && 0 <= j < |g[i]|
      ensures g''[i][j] == g[i][j].WithState(g''[i][j].state)
    {
      assert g'[i][j] == g[i][j].WithState(g'[i][j].state);
    }
  }

  /** Recolouring keeps the shape and the card data. */
  lemma SameCardsShaped(g: Grid, g': Grid)
    requires Shaped(g) && SameCards(g, g')
    ensures Shaped(g')
  {
    forall i, j | 0 <= i < |g'| && 0 <= j < |g'[i]|
      ensures MIN_NUM <= g'[i][j].num <= MAX_NUM && g'[i][j].level == i && g'[i][j].pos == j
    {
      assert g'[i][j] == g[i][j].WithState(g'[i][j].state);
    }
  }

  /** Some card of the level is Red. */
  predicate HasRed(row: seq<Card>) {
    exists k :: 0 <= k < |row| && row[k].state == Red
  }

  /** p[k] names a card of level k, for every k >= from. */
  ghost predicate OnGrid(g: Grid, p: seq<int>, from: int) {
    && |p| <= |g|
    && forall k :: 0 <= from <= k < |p| ==> 0 <= p[k] < |g[k]|
  }

  /** The product of the numbers of the cards at (k, p[k]), for from <= k < |p|. */
  function ProductAlong(g: Grid, p: seq<int>, from: nat): int
    requires OnGrid(g, p, from)
    decreases |p| - from
  {
    if from >= |p| then 1 else g[from][p[from]].num * ProductAlong(g, p, from + 1)
  }

  /** The product of a whole path, from the apex down. */
  function PathProduct(g: Grid, p: seq<int>): int
    requires OnGrid(g, p, 0)
  {
    ProductAlong(g, p, 0)
  }

  /** Extending a path by one card multiplies its product by that card. */
  lemma {:induction false} ProductAlongAppend(g: Grid, p: seq<int>, x: int, from: nat)
    requires |p| < |g| && 0 <= x < |g[|p|]| && from <= |p|
    requires OnGrid(g, p, from)
    ensures OnGrid(g, p + [x], from)
    ensures ProductAlong(g, p + [x], from) == ProductAlong(g, p, from) * g[|p|][x].num
    decreases |p| - from
  {
    var q := p + [x];
    assert forall k :: from <= k < |p| ==> q[k] == p[k];
    if from < |p| {
      ProductAlongAppend(g, p, x, from + 1);
      assert ProductAlong(g, q, from) == g[from][p[from]].num * ProductAlong(g, q, from + 1);
    }
  }

  /** The product along a path depends on the card numbers only. */
  lemma {:induction false} ProductAlongSameCards(g: Grid, g': Grid, p: seq<int>, from: nat)
    requires SameCards(g, g') && OnGrid(g, p, from)
    ensures OnGrid(g', p, from)
    ensures ProductAlong(g', p, from) == ProductAlong(g, p, from)
    decreases |p| - from
  {
    if from < |p| {
      ProductAlongSameCards(g, g', p, from + 1);
      assert g'[from][p[from]].num == g[from][p[from]].num;
    }
  }

  /** Every factor along a path is at least 1, so is the product. */
  lemma {:induction false} ProductAlongPositive(g: Grid, p: seq<int>, from: nat)
    requires Shaped(g) && OnGrid(g, p, from)
    ensures ProductAlong(g, p, from) >= 1
    decreases |p| - from
  {
    if from < |p| {
      ProductAlongPositive(g, p, from + 1);
      assert g[from][p[from]].num >= 1;
    }
  }

  /** The factor a card contributes to the product of the Red cards. */
  function RedFactor(c: Card): int {
    if c.state == Red then c.num else 1
  }

  /** The product of the Red cards of a level, from position j on. */
  function RowRedProduct(row: seq<Card>, j: nat): int
    decreases |row| - j
  {
    if j >= |row| then 1 else RedFactor(row[j]) * RowRedProduct(row, j + 1)
  }

  /** The product of the Red cards of levels i and below. */
  function RedProductFrom(g: Grid, i: nat): int
    decreases |g| - i
  {
    if i >= |g| then 1 else RowRedProduct(g[i], 0) * RedProductFrom(g, i + 1)
  }

  /** The product of the numbers of all Red cards of the pyramid. */
  function RedProduct(g: Grid): int {
    RedProductFrom(g, 0)
  }

  /** A level whose Red card is exactly the one at r contributes that card's number;
      a level with no Red card contributes 1. */
  lemma {:induction false} RowRedProductExactly(row: seq<Card>, j: nat, r: int)
    requires forall k :: j <= k < |row| ==> (row[k].state == Red <==> k == r)
    ensures RowRedProduct(row, j) == if j <= r < |row| then row[r].num else 1
    decreases |row| - j
  {
    if j < |row| {
      RowRedProductExactly(row, j + 1, r);
    }
  }

  /** The Red cards of g lie exactly along p: one per level k < |p|, at p[k]. */
  ghost predicate RedExactly(g: Grid, p: seq<int>) {
    forall i, j :: 0 <= i < |g| && 0 <= j < |g[i]| ==>
      (g[i][j].state == Red <==> i < |p| && j == p[i])
  }

  /** When the Red cards form a path, their product is the product along that path. */
  lemma {:induction false} RedProductAlongPath(g: Grid, p: seq<int>, i: nat)
    requires OnGrid(g, p, 0) && RedExactly(g, p)
    ensures RedProductFrom(g, i) == ProductAlong(g, p, i)
    decreases |g| - i
  {
    if i < |g| {
      RedProductAlongPath(g, p, i + 1);
      if i < |p| {
        RowRedProductExactly(g[i], 0, p[i]);
      } else {
        RowRedProductExactly(g[i], 0, -1);
      }
    }
  }
}
