/**
 * The game on the board it ships with, seven red and seven blue tiles:
 * a lock wins exactly on the reference tiles, and concrete rounds.
 */
module DefaultRound {
  import opened Palette
  import opened Game

  /**
   * On the 7/7 board a lock wins exactly when the selectors sit on the two
   * tiles the reference was made from.
   */
  lemma DefaultWinIffReferenceTiles(s: State)
    requires Inv(DefaultBoard, s) && !s.locked
    ensures AfterKeyPressed(DefaultBoard, s, "r").stateMessage == WinMessage
        <==> s.redIndex == s.ref0 && s.blueIndex == s.ref1
  {
    assert LowerAscii("r") == "r";
    LockEvaluates(DefaultBoard, s, "r");
    if AfterKeyPressed(DefaultBoard, s, "r").stateMessage == WinMessage {
      DefaultMixInjective(s.redIndex, s.blueIndex, s.ref0, s.ref1);
    }
  }

  /**
   * A fresh round on the 7/7 board whose reference comes from tiles 0 and 13
   * has the reference colour (138,10,128).
   */
  lemma DefaultRoundStart(s: State)
    ensures var start := Regenerated(DefaultBoard, s, 0, 5);
      && start.ref0 == 0 && start.ref1 == 13 && start.refColor == Rgb(138, 10, 128)
      && start.redIndex == 0 && start.blueIndex == 14 && !start.locked
      && start.pendingResets == s.pendingResets
  {
    DefaultBoardMixes();
  }

  /** On the 7/7 board, locking tiles 0 and 13 freezes the mix (138,10,128). */
  lemma DefaultLockMix13(s: State)
    requires !s.locked && s.redIndex == 0 && s.blueIndex == 13
    ensures AfterKeyPressed(DefaultBoard, s, "r").mixColor == Rgb(138, 10, 128)
  {
    assert LowerAscii("r") == "r";
    LockEvaluates(DefaultBoard, s, "r");
    assert AfterKeyPressed(DefaultBoard, s, "r").mixColor
        == Mix(ColorForIndex(DefaultBoard, 0), ColorForIndex(DefaultBoard, 13));
    DefaultBoardMixes();
  }

  /** On the 7/7 board, locking tiles 0 and 8 freezes the mix (188,60,128). */
  lemma DefaultLockMix8(s: State)
    requires !s.locked && s.redIndex == 0 && s.blueIndex == 8
    ensures AfterKeyPressed(DefaultBoard, s, "r").mixColor == Rgb(188, 60, 128)
  {
    assert LowerAscii("r") == "r";
    LockEvaluates(DefaultBoard, s, "r");
    assert AfterKeyPressed(DefaultBoard, s, "r").mixColor
        == Mix(ColorForIndex(DefaultBoard, 0), ColorForIndex(DefaultBoard, 8));
    DefaultBoardMixes();
  }

  /**
   * On the 7/7 board, locking tiles 0 and 13 against the reference colour
   * (138,10,128) wins and schedules no reset.
   */
  lemma DefaultLockWins(s: State)
    requires !s.locked && s.redIndex == 0 && s.blueIndex == 13 && s.refColor == Rgb(138, 10, 128)
    ensures var n := AfterKeyPressed(DefaultBoard, s, "r");
      && n.stateMessage == WinMessage && n.mixColor == Rgb(138, 10, 128)
      && n.pendingResets == s.pendingResets
  {
    assert LowerAscii("r") == "r";
    DefaultLockMix13(s);
    LockEvaluates(DefaultBoard, s, "r");
  }

  /**
   * On the 7/7 board, locking tiles 0 and 8 against the same reference is a
   * no match, with the mix (188,60,128), and schedules a reset.
   */
  lemma DefaultLockMisses(s: State)
    requires !s.locked && s.redIndex == 0 && s.blueIndex == 8 && s.refColor == Rgb(138, 10, 128)
    ensures var n := AfterKeyPressed(DefaultBoard, s, "r");
      && n.stateMessage == NoMatchMessage && n.mixColor == Rgb(188, 60, 128)
      && n.pendingResets == s.pendingResets + 1
  {
    var n := AfterKeyPressed(DefaultBoard, s, "r");
    DefaultLockMix8(s);
    assert n.mixColor != s.refColor;
    assert LowerAscii("r") == "r";
    LockEvaluates(DefaultBoard, s, "r");
  }

  /**
   * In a fresh round with that reference, one 'j' moves blue to tile 13,
   * and 'r' then wins.
   */
  lemma DefaultRoundWins(start: State)
    requires !start.locked && start.redIndex == 0 && start.blueIndex == 14
    requires start.refColor == Rgb(138, 10, 128)
    ensures var moved := AfterKeys(DefaultBoard, start, Repeat("j", 1));
      var n := AfterKeyPressed(DefaultBoard, moved, "r");
      && moved.redIndex == 0 && moved.blueIndex == 13
      && n.stateMessage == WinMessage && n.pendingResets == start.pendingResets
  {
    assert LowerAscii("j") == "j";
    RepeatedMoves(DefaultBoard, start, "j", 1);
    DefaultLockWins(AfterKeys(DefaultBoard, start, Repeat("j", 1)));
  }

  /**
   * In the same round, six 'j's move blue to tile 8, and 'r' then is a no
   * match that schedules a reset.
   */
  lemma DefaultRoundNoMatch(start: State)
    requires !start.locked && start.redIndex == 0 && start.blueIndex == 14
    requires start.refColor == Rgb(138, 10, 128)
    ensures var moved := AfterKeys(DefaultBoard, start, Repeat("j", 6));
      var n := AfterKeyPressed(DefaultBoard, moved, "r");
      && moved.redIndex == 0 && moved.blueIndex == 8
      && n.stateMessage == NoMatchMessage && n.pendingResets == start.pendingResets + 1
  {
    assert LowerAscii("j") == "j";
    RepeatedMoves(DefaultBoard, start, "j", 6);
    DefaultLockMisses(AfterKeys(DefaultBoard, start, Repeat("j", 6)));
  }
}
