/** The achievement award engine (api/achievement_utils.py): the level
    formula, the criteria checks, the idempotent award of one achievement
    and the two-pass evaluation over the catalog. Pure functions give the
    meaning of a pass and of a whole evaluation; the methods follow the
    code step by step and are proved to compute that meaning. */
module AchievementUtils {
  import opened Wrappers
  import opened Models

  /** Level of a user with `xp` experience points: 100 XP per level,
      starting at level 1. With a positive divisor Dafny's `/` rounds
      down, as Python's `//` does, also for negative `xp`. */
  function Level(xp: int): (r: int)
    ensures (r - 1) * 100 <= xp < r * 100
  {
    xp / 100 + 1
  }

  /** The XP an award adds to the profile: the reward when it is positive. */
  function Bonus(a: Achievement): nat
  {
    if a.xpReward > 0 then a.xpReward else 0
  }

  /** Sum of the bonuses of a sequence of awarded achievements. */
  function RewardSum(s: seq<Achievement>): nat
  {
    if s == [] then 0 else RewardSum(s[..|s| - 1]) + Bonus(s[|s| - 1])
  }

  /** The criteria check of the first pass, given the completed-task count
      and the XP the level is computed from. There is no branch for
      XP_EARNED, so such an achievement never qualifies. */
  predicate Qualifies(a: Achievement, completedTasks: int, xp: int)
  {
    match a.criteriaType
    case TasksCompleted => completedTasks >= a.criteriaValue
    case LevelReached => Level(xp) >= a.criteriaValue
    case XpEarned => false
  }

  /** The two passes of an evaluation. */
  datatype PassKind = FirstPass | SecondPass

  /** What a pass checks: the first pass every criteria type, the second
      pass only level achievements. */
  predicate Eligible(kind: PassKind, a: Achievement, completedTasks: int, xp: int)
  {
    match kind
    case FirstPass => Qualifies(a, completedTasks, xp)
    case SecondPass => a.criteriaType == LevelReached && Level(xp) >= a.criteriaValue
  }

  /** The link rows after a pass, the XP the pass gained from rewards and
      the achievements it awarded, in award order. */
  datatype PassResult = PassResult(unlocked: seq<AchievementId>, gained: int, awarded: seq<Achievement>)

  /** One pass over `catalog` in catalog order, starting from the link rows
      `unlocked`. An achievement already linked is skipped; otherwise it is
      awarded when eligible at `xp` plus the reward XP gained earlier in
      the same pass. */
  function Pass(kind: PassKind, catalog: seq<Achievement>, completedTasks: int, xp: int,
                unlocked: seq<AchievementId>): PassResult
    decreases |catalog|
  {
    if catalog == [] then PassResult(unlocked, 0, [])
    else
      var r := Pass(kind, catalog[..|catalog| - 1], completedTasks, xp, unlocked);
      var a := catalog[|catalog| - 1];
      if a.id !in r.unlocked && Eligible(kind, a, completedTasks, xp + r.gained)
      then PassResult(r.unlocked + [a.id], r.gained + Bonus(a), r.awarded + [a])
      else r
  }

  /** The profile's XP and link rows after an evaluation, and the newly
      unlocked achievements in the order they were reported. */
  datatype Evaluation = Evaluation(xp: int, unlocked: seq<AchievementId>, newly: seq<Achievement>)

  /** A whole evaluation: the first pass, then, only when the first pass
      gained XP, a second pass over the level achievements that starts
      from the XP total the first pass left. */
  function Evaluate(catalog: seq<Achievement>, completedTasks: int, xp: int,
                    unlocked: seq<AchievementId>): Evaluation
  {
    var first := Pass(FirstPass, catalog, completedTasks, xp, unlocked);
    var second := SecondPassOf(catalog, completedTasks, xp, first);
    Evaluation(xp + first.gained + second.gained, second.unlocked, first.awarded + second.awarded)
  }

  /** The second pass after `first`: it runs only when the first pass gained
      XP, starting from the XP total the first pass left; otherwise it
      awards nothing. */
  function SecondPassOf(catalog: seq<Achievement>, completedTasks: int, xp: int, first: PassResult): PassResult
  {
    if first.gained > 0 then Pass(SecondPass, catalog, completedTasks, xp + first.gained, first.unlocked)
    else PassResult(first.unlocked, 0, [])
  }

  /** Get-or-create of the link row between `profile` and `a`. Only a newly
      created row returns the achievement and adds its positive reward;
      an existing row returns None and changes nothing. */
  method AwardAchievement(profile: UserProfile, a: Achievement) returns (r: Option<Achievement>)
    requires profile.Valid()
    modifies profile
    ensures profile.Valid()
    ensures old(a.id in profile.unlocked) ==>
      r == None && profile.unlocked == old(profile.unlocked) && profile.totalXp == old(profile.totalXp)
    ensures old(a.id !in profile.unlocked) ==>
      r == Some(a) && profile.unlocked == old(profile.unlocked) + [a.id]
      && profile.totalXp == old(profile.totalXp) + Bonus(a)
  {
    var created := a.id !in profile.unlocked;
    if created {
      profile.unlocked := profile.unlocked + [a.id];
      if a.xpReward > 0 {
        profile.totalXp := profile.totalXp + a.xpReward;
      }
      return Some(a);
    }
    return None;
  }

  /** Whether some achievement in `s` has id `id`, scanning in order and
      stopping at the first match. */
  method AnyWithId(s: seq<Achievement>, id: AchievementId) returns (found: bool)
    ensures found <==> id in Ids(s)
  {
    found := false;
    var i := 0;
    while i < |s| && !found
      invariant 0 <= i <= |s|
      invariant found <==> exists k :: 0 <= k < i && s[k].id == id
    {
      found := s[i].id == id;
      i := i + 1;
    }
  }

  /** Evaluates the whole catalog for `profile`, awarding what qualifies,
      and returns the newly unlocked achievements. `completedTasks` is
      the user's completed-task count, fixed for the evaluation. */
  method CheckAndAward(profile: UserProfile, catalog: seq<Achievement>, completedTasks: int)
    returns (newly: seq<Achievement>)
    requires profile.Valid()
    modifies profile
    ensures profile.Valid()
    ensures var e := Evaluate(catalog, completedTasks, old(profile.totalXp), old(profile.unlocked));
      profile.totalXp == e.xp && profile.unlocked == e.unlocked && newly == e.newly
  {
    var gained;
    newly, gained := FirstPassLoop(profile, catalog, completedTasks);
    if gained > 0 {
      newly := SecondPassLoop(profile, catalog, completedTasks, newly);
    } else {
      assert newly == newly + [];
    }
  }

  /** The first sweep: every entry not yet linked whose criterion holds is
      awarded. A level check sees the starting XP plus the rewards gained
      earlier in the sweep. */
  method FirstPassLoop(profile: UserProfile, catalog: seq<Achievement>, completedTasks: int)
    returns (newly: seq<Achievement>, gained: int)
    requires profile.Valid()
    modifies profile
    ensures profile.Valid()
    ensures var r := Pass(FirstPass, catalog, completedTasks, old(profile.totalXp), old(profile.unlocked));
      profile.unlocked == r.unlocked && gained == r.gained && newly == r.awarded
    ensures profile.totalXp == old(profile.totalXp) + gained
    ensures forall k :: 0 <= k < |newly| ==> newly[k].id in profile.unlocked
  {
    newly := [];
    gained := 0;
    var startXp := profile.totalXp;
    ghost var unlocked0 := profile.unlocked;
    for i := 0 to |catalog|
      invariant profile.Valid()
      invariant var r := Pass(FirstPass, catalog[..i], completedTasks, startXp, unlocked0);
        profile.unlocked == r.unlocked && gained == r.gained && newly == r.awarded
      invariant profile.totalXp == startXp + gained
      invariant forall k :: 0 <= k < |newly| ==> newly[k].id in profile.unlocked
    {
      var ach := catalog[i];
      assert catalog[..i + 1][..i] == catalog[..i];
      if ach.id !in profile.unlocked {
        var unlockedNow := false;
        if ach.criteriaType == TasksCompleted {
          if completedTasks >= ach.criteriaValue {
            unlockedNow := true;
          }
        } else if ach.criteriaType == LevelReached {
          var checkXp := startXp + gained;
          var currentLevel := Level(checkXp);
          if currentLevel >= ach.criteriaValue {
            unlockedNow := true;
          }
        }
        if unlockedNow {
          var awarded := AwardAchievement(profile, ach);
          if awarded.Some? {
            newly := newly + [awarded.value];
            if awarded.value.xpReward > 0 {
              gained := gained + awarded.value.xpReward;
            }
          }
        }
      }
    }
    assert catalog[..|catalog|] == catalog;
  }

  /** The second sweep, after the first gained XP: every LEVEL_REACHED entry
      not yet linked whose level the current total reaches is awarded, and
      appended to `newly0` unless an achievement with its id is already
      there. */
  method SecondPassLoop(profile: UserProfile, catalog: seq<Achievement>, completedTasks: int,
                        newly0: seq<Achievement>)
    returns (newly: seq<Achievement>)
    requires profile.Valid()
    requires forall k :: 0 <= k < |newly0| ==> newly0[k].id in profile.unlocked
    modifies profile
    ensures profile.Valid()
    ensures var r := Pass(SecondPass, catalog, completedTasks, old(profile.totalXp), old(profile.unlocked));
      profile.unlocked == r.unlocked && profile.totalXp == old(profile.totalXp) + r.gained
      && newly == newly0 + r.awarded
  {
    newly := newly0;
    var xp1 := profile.totalXp;
    ghost var unlocked1 := profile.unlocked;
    for j := 0 to |catalog|
      invariant profile.Valid()
      invariant var r := Pass(SecondPass, catalog[..j], completedTasks, xp1, unlocked1);
        profile.unlocked == r.unlocked && profile.totalXp == xp1 + r.gained
        && newly == newly0 + r.awarded
      invariant forall k :: 0 <= k < |newly| ==> newly[k].id in profile.unlocked
    {
      var ach := catalog[j];
      assert catalog[..j + 1][..j] == catalog[..j];
      if ach.criteriaType == LevelReached && ach.id !in profile.unlocked {
        var currentLevel := Level(profile.totalXp);
        if currentLevel >= ach.criteriaValue {
          var secondAward := AwardAchievement(profile, ach);
          if secondAward.Some? {
            var seen := AnyWithId(newly, secondAward.value.id);
            if !seen {
              newly := newly + [secondAward.value];
            }
            // A positive reward is already in totalXp: the source assigns
            // the same pending increment again and saves it once.
          }
        }
      }
    }
    assert catalog[..|catalog|] == catalog;
  }
}
