# Colour-mix game: a verified model of the round logic

The game is a p5.js sketch (`sketch.js`). A row of tiles holds `leftCount` red shades, one white mix tile and `rightCount` blue shades. The board ships with seven red and seven blue tiles. A reference colour is the rounded per-channel average of one random red tile and one random blue tile. The player moves a red selector with A/D and a blue selector with J/L, then locks with R. The mix of the two selected tiles is then frozen and compared exactly with the reference:

- If they are equal, the game shows "YOU WIN!" and stays locked.
- Otherwise it shows "No match — restarting..." and schedules a new round after a delay.

The space bar starts a new round at any time. Every frame, `draw` clamps both selectors back into their own sides.

The model has three modules:

- `Palette` (`palette.dfy`) covers three things:
  - The board: its counts, the mix index and the tile count.
  - `colorForIndex`.
  - The rounding arithmetic of the mix and of `colorsEqual`.

  Colours are integer RGB triples. The fractional `lerp` parameter is kept as an exact fraction. `Math.round` of a quotient is computed exactly as `floor(p/q + 1/2)`.
- `Game` (`game.dfy`) holds the sketch's module-level state in two forms:
  - the value `State`;
  - the class `GameState`, whose fields the handlers update in place. `refIndices` is a two-element array there.

  Pure functions say what each handler does to a state value:
  - `Regenerated` for `generateReference`;
  - `Evaluated` for `computeMixAndCheck`;
  - `AfterKeyPressed` and `AfterKeyTyped` for the two key handlers;
  - `Clamped` for the clamp in `draw`;
  - `AfterResetTimer` for the timer callback.

  Each method of `GameState` is proved to leave its fields equal to the matching function of the old fields. The lemmas prove what the game promises about those functions, starting with the invariant `Inv`, which every handler keeps. It says:
  - the selectors and reference indices are on their sides;
  - the reference colour is the mix of its two tiles;
  - a message is shown exactly while locked;
  - the mix is white while unlocked;
  - once locked, the frozen mix is the mix of the selected tiles, with its verdict.
- `DefaultRound` (`default_round.dfy`) specialises to the shipped 7/7 board:
  - on that board a lock wins exactly on the two reference tiles;
  - concrete rounds win or miss.

The random picks `floor(random(0, leftCount))` and `floor(random(0, rightCount))` are parameters (`redPick`, `bluePick`). The `setTimeout` that follows a no match is modelled as a counter, `pendingResets`, of timers scheduled but not yet fired. `GameState.ResetTimerFires` is one timer's callback running.

## Model

| member | source | states |
|---|---|---|
| Palette.Constrain | sketch.js:134-135 | p5 `constrain`: the result lies in [low, high]. It is the input when the input is in range, `low` below the range, and `high` above it. |
| Palette.RoundDivNearest | sketch.js:64 | The rounded quotient r is the integer with r - 1/2 <= p/q < r + 1/2 (halves round up, as in `Math.round`). |
| Palette.RoundBetween | sketch.js:64-65 | A rounded quotient pinned between q*lo and q*hi lies between lo and hi. |
| Palette.RoundExact | sketch.js:64-65 | A whole quotient rounds to itself. |
| Palette.RoundMonotonic | sketch.js:64-65 | Rounding is monotonic in the numerator. |
| Palette.Param | sketch.js:62-72 | The `lerp` parameter of a side lies in [0, 1]. It is 0 on a one-tile side and at the side's first tile, 1 at its last tile, and exactly k/(count-1) in between. |
| Palette.LerpRound | sketch.js:64-74 | `round(lerp(start, stop, t))` is the integer r with r - 1/2 <= start + (stop - start) * t < r + 1/2, halves rounded up. It lies between the two ends, and it is `start` at t = 0 and `stop` at t = 1. |
| Palette.LerpRoundMonotonic | sketch.js:62-74 | A larger parameter moves the rounded interpolation towards `stop`, whichever way the ends are ordered. |
| Palette.ColorForIndex | sketch.js:57-78 | Every tile colour is a valid RGB colour, and it is white exactly at the mix index. Red-side tiles are (255, g, g) with 0 <= g <= 150. Blue-side tiles are (v, v, 255) with 0 <= v <= 120. |
| Palette.RedSideEnds | sketch.js:60-66 | The red side starts at pure red and, with two or more tiles, ends at (255,150,150). |
| Palette.BlueSideEnds | sketch.js:69-76 | The blue side starts at (120,120,255) and, with two or more tiles, ends at pure blue. |
| Palette.RedShadesLighten | sketch.js:60-66 | Further right on the red side, green and blue never decrease. |
| Palette.BlueShadesDeepen | sketch.js:69-76 | Further right on the blue side, red and green never increase. |
| Palette.DefaultTileColors | sketch.js:57-78 | On the 7/7 board, red tile i is (255, 25i, 25i) and blue tile i is (20(14-i), 20(14-i), 255). |
| Palette.Average | sketch.js:230-232 | `round((a + b) / 2)`, as in both colour mixes (also sketch.js:44-46), is the midpoint of a and b, halves rounded up, and lies between them. |
| Palette.Mix | sketch.js:229-233 | The per-channel mix used for the reference (sketch.js:43-47) and the locked mix: mixing two valid colours gives a valid colour, and mixing a colour with itself gives the colour back. |
| Palette.MixCommutes | sketch.js:229-233 | The mix does not depend on which selector holds which tile. |
| Palette.PureRedMixes | sketch.js:43-47 | Pure red mixed with (0,0,255), (20,20,255) and (120,120,255) gives (128,0,128), (138,10,128) and (188,60,128). |
| Palette.ColorsEqual | sketch.js:248-250 | On integer channels, `colorsEqual` holds exactly when the two colours are equal. |
| Palette.DefaultMixInjective | sketch.js:229-236 | On the 7/7 board, two red/blue tile pairs with the same mix are the same pair. |
| Palette.DefaultBoardColors | sketch.js:57-78 | On the 7/7 board, tiles 0, 7, 8, 13 and 14 are (255,0,0), white, (120,120,255), (20,20,255) and (0,0,255). |
| Palette.DefaultBoardMixes | sketch.js:43-47 | On the 7/7 board, tile 0 mixed with tile 14, 13 or 8 gives (128,0,128), (138,10,128) or (188,60,128). |
| Game.LowerAscii | sketch.js:202 | Lower-casing keeps the key's length and maps every character on its own: A–Z become a–z, and every other character is kept. |
| Game.CommandKeyCaseInsensitive | sketch.js:201-202 | A command letter is recognised from its lower- or upper-case key, and from no other key. |
| Game.RegeneratedStartsRound | sketch.js:36-55 | A new round, from any state:<br>- keeps the invariant;<br>- places the reference indices on their sides, `ref1` skipping the mix tile;<br>- sets the reference colour to their mix;<br>- puts the selectors at the two ends with nothing marked as moved;<br>- unlocks, clears the message and whitens the mix;<br>- leaves pending timers alone. |
| Game.LockedIgnoresKeys | sketch.js:199 | While locked, a key press changes nothing. |
| Game.RedKeysMoveOnlyRed | sketch.js:204-210 | A or D in either case moves only the red selector, one step clamped to the red side, and marks red as last moved. |
| Game.BlueKeysMoveOnlyBlue | sketch.js:211-217 | J or L in either case moves only the blue selector, one step clamped to the blue side so that it skips the mix tile, and marks blue as last moved. |
| Game.OtherKeysIgnored | sketch.js:202-222 | Any key other than the five commands leaves the state unchanged. |
| Game.LockEvaluates | sketch.js:218-246 | R in either case, when unlocked:<br>- locks;<br>- freezes the mix of the two selected tiles;<br>- shows "YOU WIN!" exactly when that mix equals the reference colour, and "No match — restarting..." otherwise;<br>- schedules a reset only on a no match;<br>- changes nothing else. |
| Game.KeyPressedKeepsInv | sketch.js:198-246 | Every key press keeps the invariant. |
| Game.KeysKeepSelectorsOnTheirSides | sketch.js:198-223 | After any sequence of key presses, both selectors are still on their own sides and the invariant holds. |
| Game.ReferenceTilesWin | sketch.js:225-238 | Locking with the selectors on the two reference tiles always wins and schedules no reset. |
| Game.SelectorsReachTargets | sketch.js:204-217 | From the selectors' starting tiles, D pressed once per step to any red tile, then J pressed once per step to any blue tile, puts the selectors on those two tiles. Nothing else changes but the last-moved mark. |
| Game.ReferenceTilesReachable | sketch.js:36-55 | On every board, for every pair of random picks, the round that `generateReference` starts can be won: D and J presses bring the selectors onto the reference tiles, and R then shows "YOU WIN!" with no reset scheduled. |
| Game.VerdictDependsOnSelection | sketch.js:225-240 | The frozen mix and the message depend only on the selected indices and the reference colour. |
| Game.ClampIsNoop | sketch.js:133-135 | Under the invariant, the clamp in `draw` leaves the state unchanged. |
| Game.SpaceRestarts | sketch.js:253-257 | The space bar starts a fresh round from any state; any other typed key does nothing. |
| Game.ResetTimerRestarts | sketch.js:240-244 | A reset timer firing starts a fresh round and consumes one pending timer. |
| Game.RepeatedMoves | sketch.js:204-217 | n presses of one movement key move its selector n steps towards that end of its side, then stop there. Nothing else changes. |
| Game.GameState.constructor | sketch.js:17-34 | After the module-level initialisers and `setup`'s call of `generateReference`, the state is the new round built from the initial values, and it is valid. |
| Game.GameState.GenerateReference | sketch.js:36-55 | The fields become `Regenerated` of the old fields, and the state is valid. |
| Game.GameState.ComputeMixAndCheck | sketch.js:225-246 | The fields become `Evaluated` of the old fields. |
| Game.GameState.KeyPressed | sketch.js:198-223 | The fields become `AfterKeyPressed` of the old fields, and a valid state stays valid. |
| Game.GameState.KeyTyped | sketch.js:253-257 | The fields become `AfterKeyTyped` of the old fields, and the state stays valid. |
| Game.GameState.ResetTimerFires | sketch.js:242-244 | The fields become `AfterResetTimer` of the old fields, and the state stays valid. |
| Game.GameState.ClampSelectors | sketch.js:133-135 | The fields become `Clamped` of the old fields. A valid state stays valid with both selectors unmoved. |
| DefaultRound.DefaultWinIffReferenceTiles | sketch.js:225-238 | On the 7/7 board, a lock wins exactly when the selectors sit on the two reference tiles. |
| DefaultRound.DefaultRoundStart | sketch.js:36-55 | On the 7/7 board, a round whose picks are tiles 0 and 13 has reference colour (138,10,128), with the selectors on tiles 0 and 14. |
| DefaultRound.DefaultLockMix13 | sketch.js:218-233 | On the 7/7 board, locking on tiles 0 and 13 freezes the mix (138,10,128). |
| DefaultRound.DefaultLockMix8 | sketch.js:218-233 | On the 7/7 board, locking on tiles 0 and 8 freezes the mix (188,60,128). |
| DefaultRound.DefaultLockWins | sketch.js:218-238 | Against reference (138,10,128), locking on tiles 0 and 13 wins and schedules no reset. |
| DefaultRound.DefaultLockMisses | sketch.js:218-244 | Against reference (138,10,128), locking on tiles 0 and 8 is a no match with mix (188,60,128) and schedules one reset. |
| DefaultRound.DefaultRoundWins | sketch.js:211-238 | From the round start, one J puts blue on tile 13 and R then wins. |
| DefaultRound.DefaultRoundNoMatch | sketch.js:211-244 | From the round start, six Js put blue on tile 8 and R then is a no match that schedules a reset. |

## Left out

- Rendering is not modelled: `draw`'s drawing, the canvas sizes, `windowResized`, the highlight stroke and the message text placement. Of `draw`, only the selector clamp (sketch.js:134-135) changes state.
- Randomness is not modelled. The two `floor(random(...))` picks are parameters that the callers keep in range.
- Timer timing and event interleaving are not modelled. The 1400 ms `setTimeout` is a counter of pending callbacks. `ResetTimerFires` may run whenever one is pending, including after the player has already restarted with the space bar, as in the sketch.
- p5 colour objects are not modelled. `color(r, g, b)`, `red()`, `green()` and `blue()` are integer triples. The undefined initial `refColor` and `mixColor` are given white, since `setup` generates a reference before either is read.
- Palette.LerpRound: computes `lerp` with exact rationals instead of floating point. A float product landing just below a .5 boundary could round differently. On the shipped 7/7 board every value is a whole number.
- Palette.ColorsEqual: the `round` on each channel is the identity on integer channels and so is not modelled separately.
- Game.LowerAscii: folds only the ASCII letters A–Z. Unicode case folding beyond that is not modelled.
- Game.GameState.KeyPressed: requires only the fixed parts of the state (the board and the two-entry `refIndices`), and promises validity only when it held before the press.
- `sketch.js` plays no sounds and draws no large mix preview (sketch.js:98, 179), so neither is modelled. A win does not schedule a reset: only the no-match branch calls `setTimeout` (sketch.js:236-245). The model follows the code here.
- On the 7/7 board the row has 15 tiles, so the last blue tile is index 14. Tile 13 is (20,20,255), not pure blue, and tiles 0 and 13 mix to (138,10,128). The pure-red/pure-blue mix (128,0,128) comes from tiles 0 and 14. The `DefaultRound` scenarios therefore build the reference from tiles 0 and 13 with its actual colour (138,10,128). This follows the code: tiles = leftCount + 1 + rightCount (sketch.js:10).
