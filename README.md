# Card pyramid puzzle — a Dafny model

This project models the puzzle engine of a Unity card game. The cards form a
triangle: level 0 is the single top card and level `i` holds `i+1` cards, each
numbered 1 to 9. Play starts at the top card, the only Blue card. Choosing card
`(l, p)` turns it Red, greys the rest of its level and opens `(l+1, p)` and
`(l+1, p+1)` below it. The running product `multState` collects the chosen
numbers. A stack `levelHistory` remembers which pair each choice opened, so a
click on a Red card can step back. When a card of the bottom level is Red, the
answer can be submitted. It wins when the product equals a target score. The
target was drawn from the products of every top-to-bottom descent.

Modules, one per part of the engine:

- `Cards` (`cards.dfy`): the card record, its setters and the sprite index
  (`Card.cs`).
- `Pyramid` (`pyramid.dfy`): the triangular grid, products along a descent and
  the product of the Red cards.
- `Solver` (`solver.dfy`): the recursive enumeration of `CalculateTargetScores`
  as a pure function, with its count, soundness, completeness and
  distinctness.
- `Navigation` (`navigation.dfy`): the click transitions of `FlipCards` and
  `OnMouseDown` as functions on a board value, and the invariants of a game in
  play.
- `Moves` (`moves.dfy`): lemmas that each transition keeps those invariants,
  and the select/undo round trips.
- `Reveal` (`reveal.dfy`): what `ShowSolution` paints Green.
- `Difficulty` (`difficulty.dfy`): the 16-bit difficulty arithmetic.
- `Game` (`cardgame.dfy`): the `CardGame` controller as a class. Its fields are
  updated in place by methods whose loops are proved against the functions
  above.

Behaviour of the code that the model keeps:

- Play starts at the top card (level 0) and moves down one level per pick.
- Giving back the bottom pick divides the product by the card's number
  (`CardGame.cs:247`, `649-660`). Stepping back one level divides too.
- `ResetGame` keeps the hint counter. Only `GenerateLevels` resets it
  (`CardGame.cs:371`, `429-433`).
- `GenerateHint` indexes `hintBttns[hintVal]` unchecked (`CardGame.cs:392`),
  so `hintVal < 3` is a precondition of a hint that is granted.

## Model

| member | source | states |
|---|---|---|
| `Cards.Card.WithNum` | Assets/Scripts/Card.cs:92-103 | the `CardNum` setter stores the number; state, level and position are unchanged |
| `Cards.Card.WithState` | Assets/Scripts/Card.cs:108-119 | the `CardStt` setter stores the state; number, level and position are unchanged |
| `Cards.Card.WithLevel` | Assets/Scripts/Card.cs:124-134 | `CardLev` is a plain stored field |
| `Cards.Card.WithPos` | Assets/Scripts/Card.cs:139-149 | `CardPos` is a plain stored field |
| `Cards.SpriteIndex` | Assets/Scripts/Card.cs:158-181 | for numbers 1..9 the index `(num-1)*4 + k` lies in [0, 36) and gives back both the number and the colour |
| `Cards.SpriteIndexInjective` | Assets/Scripts/Card.cs:158-181 | distinct (number, colour) pairs pick distinct sprites |
| `Cards.DefaultSpriteListTooShort` | Assets/Scripts/Card.cs:42 | the highest sprite index, 35, is past the 27 slots the sprite list is declared with |
| `Cards.CardSprite` | Assets/Scripts/Card.cs:158-181 | with a list of at least 36 sprites, the card shows one of the first 36 |
| `Pyramid.ProductAlongAppend` | Assets/Scripts/CardGame.cs:140-145 | extending a descent by one card multiplies its product by that card's number |
| `Pyramid.RedProductAlongPath` | Assets/Scripts/CardGame.cs:77-78 | when the Red cards lie exactly along a descent, the product of the Red cards is the product along it |
| `Solver.Scores` | Assets/Scripts/CardGame.cs:121-147 | the solver's recursion: past the bottom it records the score and path, on the bottom level it multiplies by the card, above it it searches the left card below and then the right one |
| `Solver.ScoresCount` | Assets/Scripts/CardGame.cs:121-147 | the search from a card of level `l` leaves `2^(n-1-l)` entries |
| `Solver.ScoresContinue` | Assets/Scripts/CardGame.cs:121-147 | every entry from a card extends the path so far, starts at that card, steps down by 0 or 1, and its score is the score so far times the cards below |
| `Solver.SolvedCount` | Assets/Scripts/CardGame.cs:121-147 | an n-level pyramid yields exactly `2^(n-1)` entries |
| `Solver.SolvedSound` | Assets/Scripts/CardGame.cs:121-147 | each path has n positions, starts at 0, steps by 0 or 1, and its score is the product of the cards along it |
| `Solver.SolvedDistinct` | Assets/Scripts/CardGame.cs:121-147 | no path appears twice |
| `Solver.SolvedComplete` | Assets/Scripts/CardGame.cs:121-147 | every descent of the pyramid appears among the entries |
| `Solver.SolvedSameCards` | Assets/Scripts/CardGame.cs:134-145 | the entries depend on the card numbers only, so recolouring keeps them |
| `Difficulty.ToShort` | Assets/Scripts/CardGame.cs:413-416 | the C# cast to `short`: a value in [-2^15, 2^15) congruent to the input modulo 2^16 |
| `Difficulty.DropDownLevel` | Assets/Scripts/CardGame.cs:154-165 | options 0, 1, 2 give 2, 4, 6 levels and options above 2 keep the level, so a non-negative option keeps the level in [2, 6]; every option up to 2 takes the short cast of `2 * (optn + 1)`, so a small negative option gives a level of 0 or less |
| `Difficulty.StepDifficulty` | Assets/Scripts/CardGame.cs:410-424 | a step is taken exactly when the 16-bit sum lies in [2, 6], so the level stays in [2, 6] |
| `Difficulty.StepBackAndForth` | Assets/Scripts/CardGame.cs:410-424 | a step within range is undone by the opposite step |
| `Navigation.CDiv` | Assets/Scripts/CardGame.cs:658 | C# integer division: for a non-negative dividend and a positive divisor it is the floor quotient, exact when the divisor divides the dividend |
| `Navigation.CDivMagnitude` | Assets/Scripts/CardGame.cs:658 | C# integer division truncates toward zero: for every sign, the quotient's magnitude is the floor quotient of the magnitudes |
| `Navigation.CDivSign` | Assets/Scripts/CardGame.cs:658 | C# integer division truncates toward zero: a positive quotient needs operands of the same sign, a negative one operands of opposite signs |
| `Navigation.UpdateMult` | Assets/Scripts/CardGame.cs:649-660 | OpenBelow multiplies the product by the factor, OpenAbove divides it |
| `Navigation.MultThenDivide` | Assets/Scripts/CardGame.cs:649-660 | dividing out a factor that was multiplied in restores the product |
| `Navigation.PaintPair` | Assets/Scripts/CardGame.cs:254-255 | exactly the two cards of the pair change, to the given state |
| `Navigation.ChooseCards` | Assets/Scripts/CardGame.cs:187-205 | every other card of the chosen card's level turns Gray, the two cards under it turn Blue when a lower level exists, and nothing else changes |
| `Navigation.FlipBelow` | Assets/Scripts/CardGame.cs:176-223 | OpenBelow on a chosen card: its number multiplied in, the cards recoloured as `ChooseCards`, and above the bottom level the pair `(pos, pos+1)` pushed and the level moved down one; from the top the history restarts at `(0, 0)` |
| `Navigation.CheckCond` | Assets/Scripts/CardGame.cs:230-238 | the guard against stepping back: the bottom level is current and one of the two cards at the clicked position there is Red |
| `Navigation.AboveBranch` | Assets/Scripts/CardGame.cs:224-296 | which OpenAbove branch a Red click takes: none after submission, giving back the pick on the current bottom level, stepping back from the level above the current one when the guard is false, otherwise none |
| `Navigation.FlipAbove` | Assets/Scripts/CardGame.cs:224-296 | OpenAbove on a Red card: giving back the pick divides its number out and turns the open pair Blue again; stepping back is `SteppedBack`; otherwise the game is unchanged |
| `Navigation.SteppedBack` | Assets/Scripts/CardGame.cs:260-292 | the step back: the current pair Gray, its history entry removed, the level decremented (not below 0), the pair recorded for the new level Blue again, and the product divided |
| `Navigation.MouseDown` | Assets/Scripts/Card.cs:62-83 | a click: a Blue card turns Red and OpenBelow runs, a Red card runs OpenAbove, and Gray and Green cards change nothing |
| `Navigation.SubmitEligible` | Assets/Scripts/CardGame.cs:673-699 | the submit condition: the bottom level is the current one and holds a Red card |
| `Moves.SelectOpensNextLevel` | Assets/Scripts/CardGame.cs:176-219 | selecting an open card above the bottom multiplies its number in, pushes `(p, p+1)` (after `(0,0)` from the top), moves one level down and keeps the game in play |
| `Moves.SelectLastLevel` | Assets/Scripts/CardGame.cs:176-215 | selecting a bottom card multiplies its number in and leaves the level and history unchanged |
| `Moves.UndoLastLevel` | Assets/Scripts/CardGame.cs:241-259 | giving back the bottom pick divides its number out and reopens the pair in `history[currentLevel]`; level and history are unchanged |
| `Moves.StepBack` | Assets/Scripts/CardGame.cs:260-292 | stepping back greys the current pair, drops its history entry, moves up a level, reopens the pair above and divides out the card's number |
| `Moves.MouseDownWellFormed` | Assets/Scripts/CardGame.cs:173-298 | every click keeps the shape, the level in range, the history at `currentLevel+1` entries with `(0,0)` first and `(p, p+1)`, `p+1 <= k` after, and card numbers unchanged; so the history and card reads are in range |
| `Moves.MouseDownPlaying` | Assets/Scripts/Card.cs:62-83 | before submission every click keeps `multState` equal to the product of the Red cards; a click on a Gray or Green card changes nothing |
| `Moves.MouseDownPlayingSubmitted` | Assets/Scripts/CardGame.cs:224 | after submission a Red click changes nothing, a Blue click acts as before, and `multState` stays the product of the Red cards |
| `Moves.RedClickTargets` | Assets/Scripts/CardGame.cs:224-296 | the only Red clicks that change anything are on the card chosen just above the current level or on the bottom pick |
| `Moves.StepBackBlocked` | Assets/Scripts/CardGame.cs:230-238 | while a bottom card is Red, clicking the card above it changes nothing |
| `Moves.SelectThenDeselect` | Assets/Scripts/CardGame.cs:176-292 | selecting an open card and clicking it again restores cards, product, level and (once started) history |
| `Moves.UndoThenSelect` | Assets/Scripts/CardGame.cs:176-259 | giving back the bottom pick and choosing it again restores the game |
| `Moves.BackThenSelect` | Assets/Scripts/CardGame.cs:176-292 | stepping back and choosing the same card again restores the game |
| `Moves.DeselectThenSelect` | Assets/Scripts/Card.cs:62-83 | every Red click that changes the game is undone by clicking the same card again |
| `Moves.SubmittedScoreListed` | Assets/Scripts/CardGame.cs:673-699 | when submit is enabled the Red cards form a full descent and `multState` is the solver's score for it |
| `Moves.StartIsPlaying` | Assets/Scripts/CardGame.cs:323-355 | the start layout with product 1, level 0 and empty history is a game in play |
| `Reveal.Revealed` | Assets/Scripts/CardGame.cs:511-530 | the grid after the solution is shown: every card on the path of an entry with the target score Green, every other card as it was |
| `Reveal.MarkedIff` | Assets/Scripts/CardGame.cs:517-528 | a card is marked exactly when some entry with the target score passes through it |
| `Reveal.RevealedSnoc` | Assets/Scripts/CardGame.cs:517-528 | handling one more entry paints its path when its score is the target, and changes nothing otherwise |
| `Reveal.RevealShowsSolutions` | Assets/Scripts/CardGame.cs:511-530 | every descent with the target score turns Green, every changed card lies on one, and card numbers stay |
| `Reveal.RevealShowsOne` | Assets/Scripts/CardGame.cs:511-530 | with a target drawn from the entries, at least one full descent with that product is Green |
| `Game.Fresh` | Assets/Scripts/CardGame.cs:335-355 | the generated pyramid: level i holds the i+1 drawn numbers at coordinates (i, j), Blue at the top and Gray below |
| `Game.Restart` | Assets/Scripts/CardGame.cs:456-466 | the reset pyramid: the same cards, the top one Blue and every card below Gray |
| `Game.FreshAtStart` | Assets/Scripts/CardGame.cs:335-355 | a generated pyramid has i+1 cards on level i, numbers 1..9 as drawn, coordinates (i, j), the top card Blue and the rest Gray |
| `Game.RestartAtStart` | Assets/Scripts/CardGame.cs:450-467 | the reset keeps the cards' numbers and restores the start colours |
| `Game.RestartRestoresFresh` | Assets/Scripts/CardGame.cs:450-467 | whatever was played, the reset gives back the pyramid as generated |
| `Game.RevealedWellFormed` | Assets/Scripts/CardGame.cs:511-530 | showing the solution keeps the game well formed |
| `Game.ClickConsistent` | Assets/Scripts/Card.cs:62-83 | a click keeps the controller's invariant: the solver entries of the pyramid, the target among them, and `multState` the product of the Red cards until the solution is shown, also between submission and showing the solution |
| `Game.StartConsistent` | Assets/Scripts/CardGame.cs:323-368 | a generated pyramid with its entries and a target drawn from them is consistent |
| `Game.RestartConsistent` | Assets/Scripts/CardGame.cs:450-479 | the reset of a game, or of no game, with a new target drawn from the entries is consistent, unsubmitted and not shown |
| `Game.Unsubmitted` | Assets/Scripts/CardGame.cs:481-482 | withdrawing the answer of a game whose solution is not shown keeps it consistent |
| `Game.RevealConsistent` | Assets/Scripts/CardGame.cs:511-530 | showing the solution keeps a submitted game consistent, now as one whose solution is shown |
| `Game.LevelHasRed` | Assets/Scripts/CardGame.cs:689-693 | the scan returns true exactly when some card of the level is Red |
| `Game.NewPyramid` | Assets/Scripts/CardGame.cs:335-355 | the nested loops build exactly the generated pyramid |
| `Game.RestartLevels` | Assets/Scripts/CardGame.cs:456-466 | the loops give exactly the reset layout |
| `Game.ChooseLevels` | Assets/Scripts/CardGame.cs:187-205 | the two Gray loops and the Blue pair give exactly `ChooseCards` |
| `Game.MarkPath` | Assets/Scripts/CardGame.cs:522-526 | the loop sets Green exactly the cards along the path |
| `Game.MarkSolutions` | Assets/Scripts/CardGame.cs:517-528 | the loop over the entries gives exactly the revealed grid |
| `Game.CardGame.constructor` | Assets/Scripts/CardGame.cs:68-96 | no game yet, difficulty 2, no answer submitted, hint counter 0 |
| `Game.CardGame.CalculateTargetScores` | Assets/Scripts/CardGame.cs:121-147 | the shared list ends as the old list (emptied at level 0) followed by the solver's entries from that card |
| `Game.CardGame.SetTargetScore` | Assets/Scripts/CardGame.cs:627-638 | with entries, the target is the score of the drawn entry; without, it is unchanged |
| `Game.CardGame.UpdateMultiplication` | Assets/Scripts/CardGame.cs:649-660 | the product is updated as `UpdateMult` says |
| `Game.CardGame.UpdateShowSolutionButton` | Assets/Scripts/CardGame.cs:665-668 | show-solution is enabled exactly when the answer is submitted |
| `Game.CardGame.UpdateSubmitButton` | Assets/Scripts/CardGame.cs:673-699 | with a game, submit is enabled exactly when the bottom level is current and holds a Red card |
| `Game.CardGame.BuildLevels` | Assets/Scripts/CardGame.cs:323-365 | the generated pyramid, product 1, level 0, empty history, the solver's `2^(n-1)` entries and the drawn target |
| `Game.CardGame.GenerateLevels` | Assets/Scripts/CardGame.cs:306-373 | as `BuildLevels`, and the labels blanked, the answer withdrawn and the hint counter at 0 |
| `Game.CardGame.SetRandomScenario` | Assets/Scripts/CardGame.cs:618-622 | generates a pyramid with as many levels as the difficulty |
| `Game.CardGame.RestartCards` | Assets/Scripts/CardGame.cs:450-479 | the reset layout, product 1, level 0, empty history, and a new target from the entries |
| `Game.CardGame.ResetGameElements` | Assets/Scripts/CardGame.cs:440-487 | labels blanked when asked, cards and counters reset when asked, and the answer always withdrawn |
| `Game.CardGame.WithdrawAnswer` | Assets/Scripts/CardGame.cs:481-485 | the answer is withdrawn and show-solution disabled |
| `Game.CardGame.ResetGame` | Assets/Scripts/CardGame.cs:429-433 | the same pyramid back at its start with a new target; the hint counter and buttons are unchanged |
| `Game.CardGame.ResetHintSprites` | Assets/Scripts/CardGame.cs:492-506 | every hint button unused, only the first clickable, the counter at 0 |
| `Game.CardGame.GenerateHint` | Assets/Scripts/CardGame.cs:378-404 | with no Red bottom card and no answer submitted, the hint shows `multState` (the product of the chosen cards) and the counter rises by one; otherwise nothing changes |
| `Game.CardGame.UseHint` | Assets/Scripts/CardGame.cs:391-402 | the button at the counter is spent, the counter rises by one and the next button becomes clickable |
| `Game.CardGame.VerifySolution` | Assets/Scripts/CardGame.cs:555-579 | a win exactly when `multState` equals the target, the answer submitted, and an allowed submission is the score of a listed descent |
| `Game.CardGame.ShowSolution` | Assets/Scripts/CardGame.cs:511-530 | after submission with entries, the grid becomes the revealed grid and is marked as shown; otherwise nothing changes |
| `Game.CardGame.DropDownValueChanged` | Assets/Scripts/CardGame.cs:154-165 | the level becomes `DropDownLevel` of the option |
| `Game.CardGame.IncreaseDecreaseDifficulty` | Assets/Scripts/CardGame.cs:410-424 | the level becomes `StepDifficulty` of the step; a taken step selects the custom option |
| `Game.CardGame.FlipCards` | Assets/Scripts/CardGame.cs:173-298 | OpenBelow acts as `FlipBelow`; OpenAbove acts as `FlipAbove`, and changes nothing after submission; the submit button is re-evaluated |
| `Game.CardGame.OpenBelowCards` | Assets/Scripts/CardGame.cs:176-223 | the board becomes `FlipBelow` of the old board, the hint is cleared, submit re-evaluated |
| `Game.CardGame.OpenAboveCards` | Assets/Scripts/CardGame.cs:224-296 | the board becomes `FlipAbove` of the old board; the `checkCond` reads stay in range |
| `Game.CardGame.OnMouseDown` | Assets/Scripts/Card.cs:62-83 | a Blue card turns Red and OpenBelow runs; a Red card runs OpenAbove; Gray and Green cards change nothing. Submit is re-evaluated after every Blue click and after a Red click before submission; a Red click after submission leaves it as it was |
| `Game.CardGame.PlayClick` | Assets/Scripts/Card.cs:62-83 | a click keeps the game part of the controller consistent |
| `Game.CardGame.Click` | Assets/Scripts/Card.cs:62-83 | a click keeps the whole controller valid |

## Left out

- `SetCardPositions` (`CardGame.cs:588-613`): floating-point layout from collider bounds.
- Rendering and UI widgets: sprites, text fields, colours, audio, `ToggleSoundOnOff` and `soundOn`. The buttons are booleans, the hint buttons are (spent, interactable) pairs, the labels are small datatypes.
- `UnityEngine.Random`: the card numbers (`values`) and the target index (`targetIdx`) are parameters.
- Unity plumbing: `Instantiate`, `Destroy`, `Camera.main.GetComponent`, `Start`, `Input.GetMouseButtonDown`.
- Path strings: the solver's paths are sequences of positions instead of digit strings, so `int.Parse` of one character is not modelled. Positions stay at most 8 for at most 9 levels.
- Integer overflow of `multState`: not modelled. Nine cards multiply to at most 9^9 = 387420489, which fits in 32 bits.
- `Game.CardGame.FlipCards`: OpenAbove requires a well-formed board and a Red clicked card. The source has no such guard. Only `OnMouseDown` calls it, and only on a Red card.
- `Game.CardGame.OnMouseDown`: requires a well-formed board. Generation and every click keep that true.
- `Game.CardGame.GenerateHint`: requires `hintVal < 3` when a hint would be granted. The source indexes the three hint buttons without a check.
- `Game.CardGame.GenerateHint`: also requires a game. Before the first scenario `gameObjLst` has never been assigned (`CardGame.cs:90`), so the source calls `Count()` on a null list (`CardGame.cs:383`) and fails. The model's empty grid stands for that null list; the failure is not modelled.
- `Game.CardGame.DropDownValueChanged`: requires a non-negative option, the indices a drop-down delivers. `Difficulty.DropDownLevel` covers negative options, which would take the level out of [2, 6].
- `Game.CardGame.constructor`: the scene supplies the hint buttons and the drop-down (`CardGame.cs:42-48`). The model assumes three hint buttons with the first clickable, and drop-down option 0.

## Findings

| source | as written | input that shows it | evidently intended | confidence | as-written member | corrected member |
|---|---|---|---|---|---|---|
| Assets/Scripts/Card.cs:42 | `SpriteList` is declared with 27 slots | card number 9 in state Green reads index 35 | at least 36 slots, four per number 1..9 | low: the list is probably refilled in the scene editor; not executed | `Cards.DefaultSpriteListTooShort` | `Cards.CardSprite` |
