/** The persistent records of the application: tasks, the achievement
    catalog, user profiles and the user-achievement link rows
    (api/models.py). */
module Models {
  import opened Wrappers

  type UserId = nat
  type TaskId = nat
  type AchievementId = nat

  /** The three criteria types of the catalog's choices list. */
  datatype CriteriaType = TasksCompleted | LevelReached | XpEarned

  /** A catalog entry. `icon` is nullable; `criteriaValue` and `xpReward`
      are plain integers and may be negative. */
  datatype Achievement = Achievement(
    id: AchievementId,
    name: string,
    description: string,
    icon: Option<string>,
    criteriaType: CriteriaType,
    criteriaValue: int,
    xpReward: int)

  /** A task owned by one user. A null `xp_value` is `None`. */
  datatype Task = Task(
    id: TaskId,
    owner: UserId,
    title: string,
    description: Option<string>,
    completed: bool,
    xpValue: Option<int>)

  const DefaultTaskXp: int := 10

  /** A task as created with only its required fields given. */
  function NewTask(id: TaskId, owner: UserId, title: string): Task
  {
    Task(id, owner, title, None, false, Some(DefaultTaskXp))
  }

  /** An achievement as created with only its required fields given. */
  function NewAchievement(id: AchievementId, name: string, description: string, criteriaValue: int): Achievement
  {
    Achievement(id, name, description, None, TasksCompleted, criteriaValue, 0)
  }

  predicate NoDuplicates<T(==)>(s: seq<T>)
  {
    forall i, j :: 0 <= i < j < |s| ==> s[i] != s[j]
  }

  /** The ids of a sequence of achievements, in the same order. */
  function Ids(s: seq<Achievement>): (r: seq<AchievementId>)
    ensures |r| == |s|
    ensures forall k :: 0 <= k < |s| ==> r[k] == s[k].id
  {
    if s == [] then [] else Ids(s[..|s| - 1]) + [s[|s| - 1].id]
  }

  /** Primary keys of the catalog are distinct. */
  predicate DistinctIds(catalog: seq<Achievement>)
  {
    forall i, j :: 0 <= i < j < |catalog| ==> catalog[i].id != catalog[j].id
  }

  /** Achievement names are unique across the catalog. */
  predicate UniqueNames(catalog: seq<Achievement>)
  {
    forall i, j :: 0 <= i < j < |catalog| ==> catalog[i].name != catalog[j].name
  }

  /** A user's profile. `unlocked` stands for the UserAchievement rows that
      link this profile to achievements, in the order they were inserted. */
  class UserProfile {
    const user: UserId
    var totalXp: int
    var unlocked: seq<AchievementId>

    /** At most one link row per (profile, achievement) pair. */
    ghost predicate Valid()
      reads this
    {
      NoDuplicates(unlocked)
    }

    constructor (user: UserId)
      ensures Valid()
      ensures this.user == user && totalXp == 0 && unlocked == []
    {
      this.user := user;
      totalXp := 0;
      unlocked := [];
    }
  }
}
