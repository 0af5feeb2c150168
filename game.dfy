/**
 * The round state machine of the colour-mixing game: the sketch's
 * module-level state, the reference generation, the key handlers, the lock
 * evaluation and the selector clamp run on every frame.
 *
 * The state is modelled twice, as the mutable fields of `GameState` and as the
 * value `State`. The pure functions `Regenerated`, `Evaluated`,
 * `AfterKeyPressed`, `AfterKeyTyped`, `Clamped` and `AfterResetTimer` give the
 * meaning of each handler on a state value; every method of `GameState` is
 * proved to change its fields exactly as the matching function says, and the
 * lemmas state what the game promises about those functions.
 */
module Game {
  import opened Palette

  /** `lastActive`: `null`, `'red'` or `'blue'`, the selector moved last. */
  datatype LastActive = Neither | Red | Blue

  const WinMessage: string := "YOU WIN!"
  const NoMatchMessage: string := "No match — restarting..."

  /**
   * A snapshot of the sketch's round state. `ref0` and `ref1` are the two
   * entries of `refIndices`; `pendingResets` counts the reset timers that
   * have been scheduled and have not fired yet.
   */
  datatype State = State(
    redIndex: int,
    blueIndex: int,
    lastActive: LastActive,
    locked: bool,
    mixColor: Rgb,
    refColor: Rgb,
    ref0: int,
    ref1: int,
    stateMessage: string,
    pendingResets: nat)

  /** `key.toLowerCase()` on the ASCII letters. */
  function LowerChar(c: char): char {
    if 'A' <= c <= 'Z' then (c as int + 32) as char else c
  }

  function LowerAscii(s: string): (r: string)
    ensures |r| == |s|
    ensures forall i :: 0 <= i < |s| ==> r[i] == LowerChar(s[i])
  {
    if s == [] then [] else [LowerChar(s[0])] + LowerAscii(s[1..])
  }

  /** A command letter is recognised in either case, and nothing else is recognised as it. */
  lemma CommandKeyCaseInsensitive(key: string, k: char)
    requires 'a' <= k <= 'z'
    ensures LowerAscii(key) == [k] <==> key == [k] || key == [(k as int - 32) as char]
  {
    if |key| == 1 {
      assert LowerAscii(key) == [LowerChar(key[0])];
    } else {
      assert |LowerAscii(key)| != 1;
    }
  }

  /** The colour of the two selected tiles mixed. */
  function SelectedMix(board: Board, s: State): Rgb
    requires board.Valid()
  {
    Mix(ColorForIndex(board, s.redIndex), ColorForIndex(board, s.blueIndex))
  }

  /** The message a lock shows for a mix against the reference. */
  function Verdict(mix: Rgb, ref: Rgb): string {
    if ColorsEqual(mix, ref) then WinMessage else NoMatchMessage
  }

  /**
   * What every handler keeps true: each selector on its own side, the
   * reference indices on their sides with the reference colour their mix, a
   * message exactly while locked, white as the mix while unlocked, and, once
   * locked, the frozen mix of the selected tiles with its verdict.
   */
  predicate Inv(board: Board, s: State) {
    && board.Valid()
    && board.IsRedTile(s.redIndex) && board.IsBlueTile(s.blueIndex)
    && board.IsRedTile(s.ref0) && board.IsBlueTile(s.ref1)
    && s.refColor == Mix(ColorForIndex(board, s.ref0), ColorForIndex(board, s.ref1))
    && (s.locked <==> s.stateMessage != "")
    && (!s.locked ==> s.mixColor == White)
    && (s.locked ==> s.mixColor == SelectedMix(board, s)
                     && s.stateMessage == Verdict(s.mixColor, s.refColor))
  }

  /**
   * The module-level initial values; `refColor` and `mixColor` start
   * undefined and are given white here, since `setup` generates a reference
   * before anything reads them.
   */
  function Initial(board: Board): State {
    State(0, board.Tiles() - 1, Neither, false, White, White, 0, 0, "", 0)
  }

  /**
   * `generateReference` with `floor(random(0, leftCount))` given as `redPick`
   * and `floor(random(0, rightCount))` as `bluePick`.
   */
  function Regenerated(board: Board, s: State, redPick: int, bluePick: int): State
    requires board.Valid()
  {
    var ref0 := redPick;
    var ref1 := board.leftCount + 1 + bluePick;
    s.(ref0 := ref0, ref1 := ref1,
       refColor := Mix(ColorForIndex(board, ref0), ColorForIndex(board, ref1)),
       locked := false, mixColor := White, stateMessage := "",
       redIndex := 0, blueIndex := board.Tiles() - 1, lastActive := Neither)
  }

  /** `computeMixAndCheck`: freeze the mix, show the verdict, schedule a reset only on no match. */
  function Evaluated(board: Board, s: State): State
    requires board.Valid()
  {
    var mix := SelectedMix(board, s);
    if ColorsEqual(mix, s.refColor) then
      s.(mixColor := mix, stateMessage := WinMessage)
    else
      s.(mixColor := mix, stateMessage := NoMatchMessage, pendingResets := s.pendingResets + 1)
  }

  /** `keyPressed`. */
  function AfterKeyPressed(board: Board, s: State, key: string): State
    requires board.Valid()
  {
    if s.locked then s
    else
      var k := LowerAscii(key);
      if k == "a" then s.(redIndex := Max(0, s.redIndex - 1), lastActive := Red)
      else if k == "d" then s.(redIndex := Min(board.leftCount - 1, s.redIndex + 1), lastActive := Red)
      else if k == "j" then s.(blueIndex := Max(board.MixIndex() + 1, s.blueIndex - 1), lastActive := Blue)
      else if k == "l" then s.(blueIndex := Min(board.Tiles() - 1, s.blueIndex + 1), lastActive := Blue)
      else if k == "r" then Evaluated(board, s.(locked := true))
      else s
  }

  /** `keyTyped`: the space bar starts a new round whatever the state. */
  function AfterKeyTyped(board: Board, s: State, key: string, redPick: int, bluePick: int): State
    requires board.Valid()
  {
    if key == " " then Regenerated(board, s, redPick, bluePick) else s
  }

  /** The callback of one scheduled reset timer (the `setTimeout` at a no match). */
  function AfterResetTimer(board: Board, s: State, redPick: int, bluePick: int): State
    requires board.Valid() && s.pendingResets > 0
  {
    Regenerated(board, s.(pendingResets := s.pendingResets - 1), redPick, bluePick)
  }

  /** The clamp `draw` applies to both selectors on every frame. */
  function Clamped(board: Board, s: State): State {
    s.(redIndex := Constrain(s.redIndex, 0, board.leftCount - 1),
       blueIndex := Constrain(s.blueIndex, board.MixIndex() + 1, board.Tiles() - 1))
  }

  /** A sequence of key presses, handled in order. */
  function AfterKeys(board: Board, s: State, keys: seq<string>): State
    requires board.Valid()
    decreases |keys|
  {
    if keys == [] then s else AfterKeys(board, AfterKeyPressed(board, s, keys[0]), keys[1..])
  }

  /**
   * A new round, from any state: reference indices on their sides, the
   * reference colour their mix, selectors at the two ends, nothing moved,
   * unlocked, no message, white mix; scheduled timers are untouched.
   */
  lemma RegeneratedStartsRound(board: Board, s: State, redPick: int, bluePick: int)
    requires board.Valid() && 0 <= redPick < board.leftCount && 0 <= bluePick < board.rightCount
    ensures var n := Regenerated(board, s, redPick, bluePick);
      && Inv(board, n)
      && n.ref0 == redPick && board.IsRedTile(n.ref0)
      && n.ref1 == board.leftCount + 1 + bluePick && board.IsBlueTile(n.ref1)
      && n.refColor == Mix(ColorForIndex(board, n.ref0), ColorForIndex(board, n.ref1))
      && n.redIndex == 0 && n.blueIndex == board.Tiles() - 1 && n.lastActive == Neither
      && !n.locked && n.stateMessage == "" && n.mixColor == White
      && n.pendingResets == s.pendingResets
  {
  }

  /** While locked, a key press changes nothing at all. */
  lemma LockedIgnoresKeys(board: Board, s: State, key: string)
    requires board.Valid() && s.locked
    ensures AfterKeyPressed(board, s, key) == s
  {
  }

  /**
   * 'a' and 'd' (either case) move only the red selector, one step clamped
   * to the red side, and mark red as last moved; nothing else changes.
   */
  lemma RedKeysMoveOnlyRed(board: Board, s: State, key: string)
    requires board.Valid() && board.IsRedTile(s.redIndex) && !s.locked && LowerAscii(key) in {"a", "d"}
    ensures var n := AfterKeyPressed(board, s, key);
      && n == s.(redIndex := n.redIndex, lastActive := Red)
      && n.redIndex == Constrain(s.redIndex + (if LowerAscii(key) == "a" then -1 else 1), 0, board.leftCount - 1)
  {
  }

  /**
   * 'j' and 'l' (either case) move only the blue selector, one step clamped
   * to the blue side, and mark blue as last moved; nothing else changes.
   */
  lemma BlueKeysMoveOnlyBlue(board: Board, s: State, key: string)
    requires board.Valid() && board.IsBlueTile(s.blueIndex) && !s.locked && LowerAscii(key) in {"j", "l"}
    ensures var n := AfterKeyPressed(board, s, key);
      && n == s.(blueIndex := n.blueIndex, lastActive := Blue)
      && n.blueIndex == Constrain(s.blueIndex + (if LowerAscii(key) == "j" then -1 else 1),
                                  board.MixIndex() + 1, board.Tiles() - 1)
  {
  }

  /** A key that is none of the five commands leaves the state as it was. */
  lemma OtherKeysIgnored(board: Board, s: State, key: string)
    requires board.Valid() && LowerAscii(key) !in {"a", "d", "j", "l", "r"}
    ensures AfterKeyPressed(board, s, key) == s
  {
  }

  /**
   * 'r' (either case) when unlocked locks, freezes the mix of the selected
   * tiles, and shows "YOU WIN!" exactly when that mix equals the reference
   * colour; only a no match schedules a reset. Selectors and reference stay.
   */
  lemma LockEvaluates(board: Board, s: State, key: string)
    requires board.Valid() && !s.locked && LowerAscii(key) == "r"
    ensures var n := AfterKeyPressed(board, s, key);
      && n.locked && n.stateMessage != ""
      && n.mixColor == Mix(ColorForIndex(board, s.redIndex), ColorForIndex(board, s.blueIndex))
      && (n.stateMessage == WinMessage <==> n.mixColor == s.refColor)
      && (n.stateMessage != WinMessage ==> n.stateMessage == NoMatchMessage)
      && n.pendingResets == s.pendingResets + (if n.stateMessage == WinMessage then 0 else 1)
      && n == s.(locked := true, mixColor := n.mixColor, stateMessage := n.stateMessage,
                 pendingResets := n.pendingResets)
  {
    var k := LowerAscii(key);
    assert k != "a" && k != "d" && k != "j" && k != "l";
    assert AfterKeyPressed(board, s, key) == Evaluated(board, s.(locked := true));
  }

  /** Every key press keeps the invariant, so no selector leaves its side. */
  lemma KeyPressedKeepsInv(board: Board, s: State, key: string)
    requires Inv(board, s)
    ensures Inv(board, AfterKeyPressed(board, s, key))
  {
    if !s.locked && LowerAscii(key) == "r" {
      LockEvaluates(board, s, key);
    }
  }

  /** However many keys are pressed, boundary presses included, both selectors stay on their sides. */
  lemma {:induction false} KeysKeepSelectorsOnTheirSides(board: Board, s: State, keys: seq<string>)
    requires Inv(board, s)
    ensures var n := AfterKeys(board, s, keys);
      Inv(board, n) && board.IsRedTile(n.redIndex) && board.IsBlueTile(n.blueIndex)
    decreases |keys|
  {
    if keys != [] {
      KeyPressedKeepsInv(board, s, keys[0]);
      KeysKeepSelectorsOnTheirSides(board, AfterKeyPressed(board, s, keys[0]), keys[1..]);
    }
  }

  /** Locking with the selectors on the two reference tiles always wins and schedules no reset. */
  lemma ReferenceTilesWin(board: Board, s: State)
    requires Inv(board, s) && !s.locked && s.redIndex == s.ref0 && s.blueIndex == s.ref1
    ensures var n := AfterKeyPressed(board, s, "r");
      n.locked && n.stateMessage == WinMessage && n.pendingResets == s.pendingResets
  {
    LockEvaluates(board, s, "r");
  }

  /**
   * The verdict depends only on the two selected indices and the reference
   * colour: two unlocked states that agree on those get the same frozen mix
   * and the same message.
   */
  lemma VerdictDependsOnSelection(board: Board, s1: State, s2: State)
    requires Inv(board, s1) && Inv(board, s2) && !s1.locked && !s2.locked
    requires s1.redIndex == s2.redIndex && s1.blueIndex == s2.blueIndex && s1.refColor == s2.refColor
    ensures AfterKeyPressed(board, s1, "r").mixColor == AfterKeyPressed(board, s2, "r").mixColor
    ensures AfterKeyPressed(board, s1, "r").stateMessage == AfterKeyPressed(board, s2, "r").stateMessage
  {
  }

  /** Under the invariant the clamp in `draw` moves neither selector. */
  lemma ClampIsNoop(board: Board, s: State)
    requires Inv(board, s)
    ensures Clamped(board, s) == s
  {
  }

  /** The space bar, from any state, starts a fresh round; other typed keys do nothing. */
  lemma SpaceRestarts(board: Board, s: State, key: string, redPick: int, bluePick: int)
    requires board.Valid() && 0 <= redPick < board.leftCount && 0 <= bluePick < board.rightCount
    ensures var n := AfterKeyTyped(board, s, key, redPick, bluePick);
      && (key == " " ==> Inv(board, n) && !n.locked && n.stateMessage == ""
                         && n.redIndex == 0 && n.blueIndex == board.Tiles() - 1)
      && (key != " " ==> n == s)
  {
  }

  /**
   * A reset timer firing consumes one pending timer and starts a fresh round,
   * even when the round it was scheduled for was already restarted by hand.
   */
  lemma ResetTimerRestarts(board: Board, s: State, redPick: int, bluePick: int)
    requires board.Valid() && s.pendingResets > 0
    requires 0 <= redPick < board.leftCount && 0 <= bluePick < board.rightCount
    ensures var n := AfterResetTimer(board, s, redPick, bluePick);
      && Inv(board, n) && !n.locked && n.stateMessage == ""
      && n.redIndex == 0 && n.blueIndex == board.Tiles() - 1
      && n.pendingResets == s.pendingResets - 1
  {
  }

  /** `n` presses of the same key. */
  function Repeat(key: string, n: nat): (keys: seq<string>)
    ensures |keys| == n
    ensures forall i :: 0 <= i < n ==> keys[i] == key
  {
    if n == 0 then [] else [key] + Repeat(key, n - 1)
  }

  /**
   * `n` separate presses of one movement key move its selector `n` steps
   * towards the end of its side and then stop there; the other selector,
   * the lock, the mix, the reference and the message are untouched.
   */
  lemma {:induction false} RepeatedMoves(board: Board, s: State, key: string, n: nat)
    requires board.Valid() && board.IsRedTile(s.redIndex) && board.IsBlueTile(s.blueIndex)
    requires !s.locked && LowerAscii(key) in {"a", "d", "j", "l"}
    ensures var m := AfterKeys(board, s, Repeat(key, n));
      var k := LowerAscii(key);
      && m.redIndex == (if k == "a" then Max(0, s.redIndex - n)
                        else if k == "d" then Min(board.leftCount - 1, s.redIndex + n)
                        else s.redIndex)
      && m.blueIndex == (if k == "j" then Max(board.MixIndex() + 1, s.blueIndex - n)
                         else if k == "l" then Min(board.Tiles() - 1, s.blueIndex + n)
                         else s.blueIndex)
      && m == s.(redIndex := m.redIndex, blueIndex := m.blueIndex,
                 lastActive := if n == 0 then s.lastActive else if k in {"a", "d"} then Red else Blue)
    decreases n
  {
    if n > 0 {
      var one := AfterKeyPressed(board, s, key);
      if LowerAscii(key) in {"a", "d"} {
        RedKeysMoveOnlyRed(board, s, key);
      } else {
        BlueKeysMoveOnlyBlue(board, s, key);
      }
      assert Repeat(key, n)[0] == key && Repeat(key, n)[1..] == Repeat(key, n - 1);
      RepeatedMoves(board, one, key, n - 1);
    }
  }

  /** Pressing the keys of `a` and then those of `b` is pressing the keys of `a + b`. */
  lemma {:induction false} AfterKeysAppend(board: Board, s: State, a: seq<string>, b: seq<string>)
    requires board.Valid()
    ensures AfterKeys(board, s, a + b) == AfterKeys(board, AfterKeys(board, s, a), b)
    decreases |a|
  {
    if a == [] {
      assert a + b == b;
    } else {
      assert (a + b)[0] == a[0] && (a + b)[1..] == a[1..] + b;
      AfterKeysAppend(board, AfterKeyPressed(board, s, a[0]), a[1..], b);
    }
  }

  /**
   * From the selectors' starting tiles, 'd' pressed `redTarget` times and 'j'
   * pressed once per step down to `blueTarget` put the selectors on those two
   * tiles; only the selectors and the last-moved mark change.
   */
  lemma SelectorsReachTargets(board: Board, start: State, redTarget: int, blueTarget: int)
    requires board.Valid() && board.IsRedTile(redTarget) && board.IsBlueTile(blueTarget)
    requires !start.locked && start.redIndex == 0 && start.blueIndex == board.Tiles() - 1
    ensures var moved := AfterKeys(board, start, Repeat("d", redTarget) + Repeat("j", board.Tiles() - 1 - blueTarget));
      moved == start.(redIndex := redTarget, blueIndex := blueTarget, lastActive := moved.lastActive)
  {
    var reds := Repeat("d", redTarget);
    var blues := Repeat("j", board.Tiles() - 1 - blueTarget);
    assert LowerAscii("d") == "d" && LowerAscii("j") == "j";
    RepeatedMoves(board, start, "d", redTarget);
    RepeatedMoves(board, AfterKeys(board, start, reds), "j", board.Tiles() - 1 - blueTarget);
    AfterKeysAppend(board, start, reds, blues);
  }

  /**
   * Every round can be won on every board: from the start of a round, 'd'
   * pressed once per step to the red reference tile and 'j' once per step to
   * the blue one put both selectors on the reference tiles, and 'r' then wins
   * without scheduling a reset.
   */
  lemma ReferenceTilesReachable(board: Board, s: State, redPick: int, bluePick: int)
    requires board.Valid() && 0 <= redPick < board.leftCount && 0 <= bluePick < board.rightCount
    ensures var start := Regenerated(board, s, redPick, bluePick);
      var moved := AfterKeys(board, start, Repeat("d", redPick) + Repeat("j", board.rightCount - 1 - bluePick));
      var n := AfterKeyPressed(board, moved, "r");
      && moved.redIndex == start.ref0 && moved.blueIndex == start.ref1
      && n.stateMessage == WinMessage && n.pendingResets == s.pendingResets
  {
    var start := Regenerated(board, s, redPick, bluePick);
    var keys := Repeat("d", redPick) + Repeat("j", board.rightCount - 1 - bluePick);
    RegeneratedStartsRound(board, s, redPick, bluePick);
    assert board.Tiles() - 1 - start.ref1 == board.rightCount - 1 - bluePick;
    SelectorsReachTargets(board, start, start.ref0, start.ref1);
    KeysKeepSelectorsOnTheirSides(board, start, keys);
    ReferenceTilesWin(board, AfterKeys(board, start, keys));
  }

  /**
   * The sketch's module-level state. `board` and the array `refIndices` are
   * fixed; the handlers update the other fields and the array's two entries.
   */
  class GameState {
    const board: Board
    const refIndices: array<int>
    var redIndex: int
    var blueIndex: int
    var lastActive: LastActive
    var locked: bool
    var mixColor: Rgb
    var refColor: Rgb
    var stateMessage: string
    var pendingResets: nat

    /** The fields as a `State` value. */
    ghost function Snapshot(): State
      reads this, refIndices
      requires refIndices.Length == 2
    {
      State(redIndex, blueIndex, lastActive, locked, mixColor, refColor,
            refIndices[0], refIndices[1], stateMessage, pendingResets)
    }

    ghost predicate Valid()
      reads this, refIndices
    {
      refIndices.Length == 2 && Inv(board, Snapshot())
    }

    /** The module-level initialisers followed by `setup`'s call of `generateReference`. */
    constructor (board: Board, redPick: int, bluePick: int)
      requires board.Valid() && 0 <= redPick < board.leftCount && 0 <= bluePick < board.rightCount
      ensures Valid() && this.board == board && fresh(refIndices)
      ensures Snapshot() == Regenerated(board, Initial(board), redPick, bluePick)
    {
      this.board := board;
      refIndices := new int[] [0, 0];
      redIndex := 0;
      blueIndex := board.Tiles() - 1;
      lastActive := Neither;
      locked := false;
      mixColor := White;
      refColor := White;
      stateMessage := "";
      pendingResets := 0;
      new;
      GenerateReference(redPick, bluePick);
    }

    method GenerateReference(redPick: int, bluePick: int)
      requires refIndices.Length == 2 && board.Valid()
      requires 0 <= redPick < board.leftCount && 0 <= bluePick < board.rightCount
      modifies this, refIndices
      ensures Valid()
      ensures Snapshot() == Regenerated(board, old(Snapshot()), redPick, bluePick)
    {
      refIndices[0] := redPick;
      refIndices[1] := board.leftCount + 1 + bluePick;
      var c1 := ColorForIndex(board, refIndices[0]);
      var c2 := ColorForIndex(board, refIndices[1]);
      refColor := Mix(c1, c2);
      locked := false;
      mixColor := White;
      stateMessage := "";
      redIndex := 0;
      blueIndex := board.Tiles() - 1;
      lastActive := Neither;
      RegeneratedStartsRound(board, old(Snapshot()), redPick, bluePick);
    }

    method ComputeMixAndCheck()
      requires refIndices.Length == 2 && board.Valid()
      modifies this
      ensures Snapshot() == Evaluated(board, old(Snapshot()))
    {
      var cR := ColorForIndex(board, redIndex);
      var cB := ColorForIndex(board, blueIndex);
      mixColor := Mix(cR, cB);
      if ColorsEqual(mixColor, refColor) {
        stateMessage := WinMessage;
      } else {
        stateMessage := NoMatchMessage;
        pendingResets := pendingResets + 1;
      }
    }

    method KeyPressed(key: string)
      requires refIndices.Length == 2 && board.Valid()
      modifies this
      ensures Snapshot() == AfterKeyPressed(board, old(Snapshot()), key)
      ensures old(Valid()) ==> Valid()
    {
      if !locked {
        var k := LowerAscii(key);
        if k == "a" {
          redIndex := Max(0, redIndex - 1);
          lastActive := Red;
        } else if k == "d" {
          redIndex := Min(board.leftCount - 1, redIndex + 1);
          lastActive := Red;
        } else if k == "j" {
          blueIndex := Max(board.MixIndex() + 1, blueIndex - 1);
          lastActive := Blue;
        } else if k == "l" {
          blueIndex := Min(board.Tiles() - 1, blueIndex + 1);
          lastActive := Blue;
        } else if k == "r" {
          locked := true;
          ComputeMixAndCheck();
        }
      }
      assert Snapshot() == AfterKeyPressed(board, old(Snapshot()), key);
      if old(Valid()) {
        KeyPressedKeepsInv(board, old(Snapshot()), key);
        assert Inv(board, Snapshot());
      }
    }

    method KeyTyped(key: string, redPick: int, bluePick: int)
      requires Valid() && 0 <= redPick < board.leftCount && 0 <= bluePick < board.rightCount
      modifies this, refIndices
      ensures Valid()
      ensures Snapshot() == AfterKeyTyped(board, old(Snapshot()), key, redPick, bluePick)
    {
      if key == " " {
        GenerateReference(redPick, bluePick);
      }
    }

    /** One scheduled reset timer fires and calls `generateReference`. */
    method ResetTimerFires(redPick: int, bluePick: int)
      requires Valid() && pendingResets > 0
      requires 0 <= redPick < board.leftCount && 0 <= bluePick < board.rightCount
      modifies this, refIndices
      ensures Valid()
      ensures Snapshot() == AfterResetTimer(board, old(Snapshot()), redPick, bluePick)
    {
      pendingResets := pendingResets - 1;
      GenerateReference(redPick, bluePick);
    }

    /** The clamp at the start of drawing the selectors; a no-op on a valid state. */
    method ClampSelectors()
      requires refIndices.Length == 2
      modifies this
      ensures Snapshot() == Clamped(board, old(Snapshot()))
      ensures old(Valid()) ==> Valid() && redIndex == old(redIndex) && blueIndex == old(blueIndex)
    {
      if Valid() {
        ClampIsNoop(board, Snapshot());
      }
      redIndex := Constrain(redIndex, 0, board.leftCount - 1);
      blueIndex := Constrain(blueIndex, board.MixIndex() + 1, board.Tiles() - 1);
    }
  }
}
