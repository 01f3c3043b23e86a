/** How the first pass of the award engine behaves with the source's
    deferred-update expressions taken literally, as opposed to the plain
    accumulating integer the rest of the model uses. In the source,
    awarding a rewarded achievement sets the profile's in-memory `total_xp`
    to the pending expression "stored value + reward"; a later save applies
    it. */
module AsWritten {
  import opened Wrappers
  import opened Models
  import opened AchievementUtils

  /** The in-memory `total_xp` attribute: a plain number, or a pending
      increment of the stored value. */
  datatype XpField = Number(n: int) | PendingIncrement(delta: int)

  /** The stored total after a save: a pending increment is added to the
      stored value, a plain number replaces it. */
  function Saved(stored: int, f: XpField): int
  {
    match f
    case Number(n) => n
    case PendingIncrement(d) => stored + d
  }

  /** The attribute after the awards of a first pass, in award order: each
      positive reward ASSIGNS a fresh pending increment of that reward alone,
      replacing whatever was pending before. */
  function AfterAwards(f: XpField, awarded: seq<Achievement>): XpField
    decreases |awarded|
  {
    if awarded == [] then f
    else
      var g := AfterAwards(f, awarded[..|awarded| - 1]);
      var a := awarded[|awarded| - 1];
      if a.xpReward > 0 then PendingIncrement(a.xpReward) else g
  }

  /** The outcome of the level check of a first pass as written: its
      operand is the attribute plus the XP gained so far. On a plain number
      that is an integer; on a pending increment it is again an expression,
      for which integer floor division is not defined, so the check raises
      a TypeError. */
  datatype LevelCheck = CurrentLevel(level: int) | TypeError

  function LevelCheckAsWritten(f: XpField, gainedSoFar: int): LevelCheck
  {
    match f
    case Number(n) => CurrentLevel((n + gainedSoFar) / 100 + 1)
    case PendingIncrement(_) => TypeError
  }

  /** Saving after a first pass that awarded several rewarded achievements
      keeps only the last reward: two rewards of 30 and 50 on a stored total
      of 0 leave 50, while the accumulating model gives 80. */
  lemma RewardsOverwritten()
    ensures var x := Achievement(1, "X", "", None, TasksCompleted, 1, 30);
      var y := Achievement(2, "Y", "", None, TasksCompleted, 1, 50);
      var first := Pass(FirstPass, [x, y], 1, 0, []);
      first.awarded == [x, y]
      && Saved(0, AfterAwards(Number(0), first.awarded)) == 50
      && Evaluate([x, y], 1, 0, []).xp == 80
  {
    var x := Achievement(1, "X", "", None, TasksCompleted, 1, 30);
    var y := Achievement(2, "Y", "", None, TasksCompleted, 1, 50);
    assert [x, y][..1] == [x] && [x][..0] == [];
    assert Pass(FirstPass, [x], 1, 0, []) == PassResult([1], 30, [x]);
    assert Pass(FirstPass, [x, y], 1, 0, []) == PassResult([1, 2], 80, [x, y]);
    assert Pass(SecondPass, [x], 1, 80, [1, 2]) == PassResult([1, 2], 0, []);
    assert Pass(SecondPass, [x, y], 1, 80, [1, 2]) == PassResult([1, 2], 0, []);
    assert AfterAwards(Number(0), [x]) == PendingIncrement(30);
  }

  /** A level check that follows a rewarded award in the same first pass
      raises a TypeError: a catalog with a rewarded TASKS_COMPLETED entry
      followed by a LEVEL_REACHED entry, for a user with one completed
      task. */
  lemma LevelCheckFailsAfterReward()
    ensures var x := Achievement(1, "X", "", None, TasksCompleted, 1, 50);
      var first := Pass(FirstPass, [x], 1, 0, []);
      first.awarded == [x]
      && LevelCheckAsWritten(AfterAwards(Number(0), first.awarded), first.gained) == TypeError
  {
    var x := Achievement(1, "X", "", None, TasksCompleted, 1, 50);
    assert [x][..0] == [];
    assert Pass(FirstPass, [x], 1, 0, []) == PassResult([1], 50, [x]);
  }

  /** Before any rewarded award the as-written check computes the level of
      the modelled XP, so the two agree until the first reward. */
  lemma LevelCheckAgreesWithoutReward(n: int, gainedSoFar: int)
    ensures LevelCheckAsWritten(Number(n), gainedSoFar) == CurrentLevel(Level(n + gainedSoFar))
  {
  }
}
