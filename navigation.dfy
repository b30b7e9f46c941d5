/** The selection and undo state machine of the pyramid as pure functions:
    what a click on a card does to the cards, the running product, the
    current level and the level history, and the invariants it keeps. */
module Navigation {
  import opened Cards
  import opened Pyramid

  /** An entry of the level history: the two positions a choice opened. */
  type Pair = (int, int)

  /** The two operations on the cards: choosing a card, or going back. */
  datatype Oper = OpenAbove | OpenBelow

  /** The state the card clicks work on. */
  datatype Nav = Nav(cards: Grid, multState: int, currentLevel: int, history: seq<Pair>)

  function Abs(a: int): nat {
    if a < 0 then -a else a
  }

  /** Integer division as C# does it: the quotient is truncated toward zero. */
  function CDiv(a: int, b: int): (q: int)
    requires b != 0
    ensures a >= 0 && b > 0 ==> q * b <= a < (q + 1) * b
    ensures a % b == 0 && a >= 0 && b > 0 ==> q * b == a
  {
    if (a >= 0) == (b > 0) then Abs(a) / Abs(b) else -(Abs(a) / Abs(b))
  }

  /** Truncation toward zero, magnitude: the quotient's magnitude is the
      floor quotient of the magnitudes, whatever the signs. */
  lemma CDivMagnitude(a: int, b: int)
    requires b != 0
    ensures Abs(CDiv(a, b)) == Abs(a) / Abs(b)
  {
    var k := Abs(a) / Abs(b);
    QuotientOfNats(Abs(a), Abs(b));
    assert Abs(k) == k && Abs(-k) == k;
  }

  /** Truncation toward zero, sign: the quotient is positive only for
      operands of the same sign and negative only for operands of opposite
      signs. */
  lemma CDivSign(a: int, b: int)
    requires b != 0
    ensures CDiv(a, b) > 0 ==> (a >= 0) == (b > 0)
    ensures CDiv(a, b) < 0 ==> (a >= 0) != (b > 0)
  {
    var k := Abs(a) / Abs(b);
    QuotientOfNats(Abs(a), Abs(b));
    assert CDiv(a, b) == (if (a >= 0) == (b > 0) then k else -k);
    SignedMagnitude(CDiv(a, b), k, (a >= 0) == (b > 0));
  }

  /** The floor quotient of two naturals is a natural. */
  lemma QuotientOfNats(x: nat, y: nat)
    requires y > 0
    ensures x / y >= 0
  {
  }

  /** A magnitude carrying a sign flag keeps the flag in its sign. */
  lemma SignedMagnitude(q: int, k: int, same: bool)
    requires k >= 0 && q == (if same then k else -k)
    ensures q > 0 ==> same
    ensures q < 0 ==> !same
  {
  }

  /** The running product after a card is chosen (multiplied in) or given back
      (divided out). */
  function UpdateMult(m: int, fact: int, oper: Oper): (r: int)
    requires fact != 0
    ensures oper == OpenBelow ==> r == m * fact
    ensures oper == OpenAbove && m >= 0 && fact > 0 ==> r * fact <= m < (r + 1) * fact
  {
    if oper == OpenBelow then m * fact else CDiv(m, fact)
  }

  /** Dividing out a factor that was multiplied in gives the product back. */
  lemma MultThenDivide(m: int, fact: int)
    requires m >= 0 && fact > 0
    ensures UpdateMult(UpdateMult(m, fact, OpenBelow), fact, OpenAbove) == m
  {
  }

  /** The level history: empty with level 0 before the first choice; afterwards
      one entry per level up to the current one, (0, 0) for the apex and
      (p, p+1) for level k, where p is the card chosen on level k-1, which lies
      under the card chosen before it. */
  ghost predicate HistoryShaped(h: seq<Pair>, c: int) {
    || (h == [] && c == 0)
    || (&& c >= 0 && |h| == c + 1 && h[0] == (0, 0)
        && forall k :: 1 <= k < |h| ==>
             && h[k].1 == h[k].0 + 1
             && 0 <= h[k].0 < k
             && (h[k].0 == h[k - 1].0 || h[k].0 == h[k - 1].0 + 1))
  }

  /** The two positions currently open on the current level. */
  function OpenPair(h: seq<Pair>, c: int): Pair
    requires HistoryShaped(h, c)
  {
    if h == [] then (0, 0) else h[c]
  }

  predicate IsOpen(h: seq<Pair>, c: int, j: int)
    requires HistoryShaped(h, c)
  {
    j == OpenPair(h, c).0 || j == OpenPair(h, c).1
  }

  /** The Blue cards of g all lie on level c, at one of the two positions of pr. */
  ghost predicate BlueWithin(g: Grid, c: int, pr: Pair) {
    forall i, j :: 0 <= i < |g| && 0 <= j < |g[i]| && g[i][j].state == Blue ==> i == c && (j == pr.0 || j == pr.1)
  }

  /** No card of g is Blue. */
  ghost predicate NoBlue(g: Grid) {
    forall i, j :: 0 <= i < |g| && 0 <= j < |g[i]| ==> g[i][j].state != Blue
  }

  /** What holds in every state the game reaches: the pyramid's shape, the level
      within it, the history's shape, and Blue cards only where the current
      level is open. */
  ghost predicate WellFormed(n: Nav) {
    && Shaped(n.cards)
    && MIN_LEVELS <= |n.cards| <= MAX_LEVELS
    && 0 <= n.currentLevel < |n.cards|
    && HistoryShaped(n.history, n.currentLevel)
    && BlueWithin(n.cards, n.currentLevel, OpenPair(n.history, n.currentLevel))
  }

  /** The positions of the cards chosen on the levels above the current one. */
  function ChosenPath(h: seq<Pair>, c: int): (p: seq<int>)
    requires HistoryShaped(h, c)
    ensures |p| == c
  {
    seq(c, k requires 0 <= k < c => h[k + 1].0)
  }

  /** The chosen positions, with the card chosen on the bottom level if any
      (pick >= 0). */
  function Chosen(h: seq<Pair>, c: int, pick: int): seq<int>
    requires HistoryShaped(h, c)
  {
    ChosenPath(h, c) + (if pick >= 0 then [pick] else [])
  }

  /** The colour of card (i, j) while the player is at level c with history h:
      above c, the chosen card Red and the rest Gray; on c, the open pair Blue
      or, once a bottom card is picked, that card Red; the rest Gray. */
  function Expected(c: int, h: seq<Pair>, pick: int, i: int, j: int): State
    requires HistoryShaped(h, c) && 0 <= i
  {
    if i < c then (if j == h[i + 1].0 then Red else Gray)
    else if i > c then Gray
    else if pick >= 0 then (if j == pick then Red else Gray)
    else if IsOpen(h, c, j) then Blue else Gray
  }

  ghost predicate LayoutWith(g: Grid, c: int, h: seq<Pair>, pick: int)
    requires HistoryShaped(h, c)
  {
    forall i, j :: 0 <= i < |g| && 0 <= j < |g[i]| ==> g[i][j].state == Expected(c, h, pick, i, j)
  }

  /** Every card has the colour its place in the play gives it. */
  ghost predicate Layout(n: Nav)
    requires WellFormed(n)
  {
    || LayoutWith(n.cards, n.currentLevel, n.history, -1)
    || (&& n.currentLevel == |n.cards| - 1
        && exists q :: IsOpen(n.history, n.currentLevel, q) && LayoutWith(n.cards, n.currentLevel, n.history, q))
  }

  /** A game in play: well formed, laid out, and the running product is the
      product of the Red cards. */
  ghost predicate Playing(n: Nav) {
    && WellFormed(n)
    && Layout(n)
    && n.multState == RedProduct(n.cards)
  }

  /** The history after a choice on level `c` at position `pos`: a choice from
      the apex restarts it at (0, 0). */
  function BaseHistory(h: seq<Pair>, c: int): seq<Pair> {
    if c == 0 then [(0, 0)] else h
  }

  /** The grid after the two cards of pair `pr` on `level` are set to `s`. */
  function PaintPair(g: Grid, level: int, pr: Pair, s: State): (r: Grid)
    requires InRange(g, level, pr.0) && InRange(g, level, pr.1)
    ensures |r| == |g| && forall i :: 0 <= i < |g| ==> |r[i]| == |g[i]|
    ensures forall i, j :: 0 <= i < |g| && 0 <= j < |g[i]| ==>
      r[i][j] == if i == level && (j == pr.0 || j == pr.1) then g[i][j].WithState(s) else g[i][j]
  {
    SetState(SetState(g, level, pr.0, s), level, pr.1, s)
  }

  /** The cards after choosing card (level, pos), already Red: the rest of its
      level turns Gray and, when there is a level below, the two cards under it
      turn Blue. */
  function ChooseCards(g: Grid, level: int, pos: int): (r: Grid)
    requires Triangular(g) && InRange(g, level, pos)
    ensures |r| == |g| && forall i :: 0 <= i < |g| ==> |r[i]| == |g[i]|
    ensures forall i, j :: 0 <= i < |g| && 0 <= j < |g[i]| ==>
      r[i][j] == if i == level then (if j == pos then g[i][j] else g[i][j].WithState(Gray))
                 else if i == level + 1 && (j == pos || j == pos + 1) then g[i][j].WithState(Blue)
                 else g[i][j]
  {
    var g1 := g[level := GrayOthers(g[level], pos)];
    if level < |g| - 1 then PaintPair(g1, level + 1, (pos, pos + 1), Blue) else g1
  }

  /** Operation OpenBelow on card (level, pos), already turned Red: multiply its
      number in, recolour the cards as ChooseCards says, and record the pair
      when there is a level below. */
  function FlipBelow(n: Nav, level: int, pos: int): Nav
    requires Shaped(n.cards) && InRange(n.cards, level, pos)
  {
    var g := n.cards;
    var m := UpdateMult(n.multState, g[level][pos].num, OpenBelow);
    var h1 := BaseHistory(n.history, n.currentLevel);
    if n.currentLevel + 1 < |g| then Nav(ChooseCards(g, level, pos), m, n.currentLevel + 1, h1 + [(pos, pos + 1)])
    else Nav(ChooseCards(g, level, pos), m, n.currentLevel, h1)
  }

  /** The guard that blocks stepping back: on the bottom level one of the two
      cards under the clicked position is Red. */
  predicate CheckCond(g: Grid, c: int, pos: int)
    requires 0 <= c < |g| && 0 <= pos < |g[c]|
    requires g[c][pos].state != Red ==> pos + 1 < |g[c]|
  {
    c == |g| - 1 && (g[c][pos].state == Red || g[c][pos + 1].state == Red)
  }

  /** What a click on a Red card does: give back the bottom pick, step back a
      level, or nothing. */
  datatype Back = UndoPick | StepUp | Ignore

  /** Before submission, a click on a Red card of the bottom level while it is
      the current one gives the card back; a click on a Red card of the level
      above the current one, when neither card under it on the bottom level is
      Red, steps back. Every other click is ignored. */
  function AboveBranch(n: Nav, submitted: bool, level: int, pos: int): Back
    requires WellFormed(n) && InRange(n.cards, level, pos) && n.cards[level][pos].state == Red
  {
    var g := n.cards;
    var c := n.currentLevel;
    if submitted then Ignore
    else if c == |g| - 1 && level == c then UndoPick
    else if level + 1 == c && !CheckCond(g, c, pos) then StepUp
    else Ignore
  }

  /** Operation OpenAbove on the Red card (level, pos): giving back the bottom
      pick reopens its pair; stepping back closes the current pair, forgets it,
      goes up a level and reopens the pair there. Both divide the card's number
      out of the product. */
  function FlipAbove(n: Nav, submitted: bool, level: int, pos: int): Nav
    requires WellFormed(n) && InRange(n.cards, level, pos) && n.cards[level][pos].state == Red
  {
    var g := n.cards;
    var c := n.currentLevel;
    var h := n.history;
    var m := UpdateMult(n.multState, g[level][pos].num, OpenAbove);
    match AboveBranch(n, submitted, level, pos)
    case UndoPick =>
      Nav(PaintPair(g, c, h[c], Blue), m, c, h)
    case StepUp => SteppedBack(n, m)
    case Ignore => n
  }

  /** The step back from the current level: its open pair turns Gray, the
      entry for it leaves the history, the level below becomes current and
      its recorded pair turns Blue again; the product becomes m. */
  function SteppedBack(n: Nav, m: int): Nav
    requires WellFormed(n) && n.currentLevel > 0
  {
    var g := n.cards;
    var c := n.currentLevel;
    var h := n.history;
    var g1 := PaintPair(g, c, h[c], Gray);
    var h1 := h[..c];
    var c1 := if c > 0 then c - 1 else c;
    Nav(PaintPair(g1, c1, h1[c1], Blue), m, c1, h1)
  }

  /** A mouse click on card (level, pos): a Blue card turns Red and is chosen,
      a Red card steps back, Gray and Green cards ignore the click. */
  function MouseDown(n: Nav, submitted: bool, level: int, pos: int): Nav
    requires WellFormed(n) && InRange(n.cards, level, pos)
  {
    var card := n.cards[level][pos];
    if card.state == Blue then FlipBelow(n.(cards := SetState(n.cards, level, pos, Red)), card.level, card.pos)
    else if card.state == Red then FlipAbove(n, submitted, card.level, card.pos)
    else n
  }

  /** The submit button's condition: the bottom level is the current one and
      one of its cards is Red. */
  predicate SubmitEligible(g: Grid, c: int) {
    |g| > 0 && c == |g| - 1 && HasRed(g[c])
  }

  /** A pyramid as play starts: the apex Blue, every other card Gray. */
  ghost predicate AtStart(g: Grid) {
    && Shaped(g)
    && MIN_LEVELS <= |g| <= MAX_LEVELS
    && forall i, j :: 0 <= i < |g| && 0 <= j < |g[i]| ==> g[i][j].state == (if i == 0 then Blue else Gray)
  }

  /** g' holds the cards of g, each coloured as `Expected` says for (c, h, pick). */
  ghost predicate Painted(g: Grid, g': Grid, c: int, h: seq<Pair>, pick: int)
    requires HistoryShaped(h, c)
  {
    && |g'| == |g|
    && (forall i :: 0 <= i < |g| ==> |g'[i]| == |g[i]|)
    && forall i, j :: 0 <= i < |g| && 0 <= j < |g[i]| ==> g'[i][j] == g[i][j].WithState(Expected(c, h, pick, i, j))
  }
}
