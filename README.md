# Questify achievement engine in Dafny

This project models the progression core of the Questify task tracker.
Completing a task credits its experience points (XP) to the user's profile.
The level is derived from XP, 100 XP per level. A catalog of achievements is
then evaluated against the profile. An achievement unlocks when its
criterion is met. Some achievements carry an XP reward, which can in turn
raise the level.

Modules, following the source files:

- `Models` (`models.dfy`) holds the records of `api/models.py`. Tasks and
  catalog entries are datatypes, each with a constructor function giving
  the field defaults. They model the three criteria types, the default 10
  XP of a task, and an achievement's default type `TASKS_COMPLETED` with
  reward 0. `UserProfile` is a class whose `totalXp` and `unlocked` are
  updated in place. `unlocked` stands for the profile's `UserAchievement`
  link rows. Its `Valid()` invariant is unique (profile, achievement)
  pairs. Unique achievement names are stated as the predicate
  `Models.UniqueNames`, which no operation needs.
- `AchievementUtils` (`achievement_utils.dfy`) holds `award_achievement`
  and `check_and_award_achievements`. They are imperative methods over the
  profile object and follow the code's loops and branches. Pure functions
  give their meaning: `Pass` (one sweep of the catalog) and `Evaluate` (the
  first pass, then the conditional second pass). `CheckAndAward` is proved
  to compute `Evaluate`.
- `AchievementProperties` (`achievement_properties.dfy`) proves what the
  engine promises about `Pass` and `Evaluate`. It also holds concrete runs
  showing the limits of the two-pass design.
- `Views` (`views.dfy`) holds the three handlers of `api/views.py`: the
  owner filter `get_queryset`, the task `update` that fires the engine, and
  `update_profile`.
- `AsWritten` (`as_written.dfy`) takes the source's deferred `F()` updates
  of `total_xp` literally, for the two findings below.

XP is a plain integer to which each award adds its positive reward. This is
what the comments in `api/achievement_utils.py` intend. It simplifies two
source-level quirks, modelled separately in `AsWritten` (see Findings):
line 13 assigns `F('total_xp') + reward` instead of accumulating, and line
47 adds an integer to that expression.

The model follows the code where the intended design describes something
else:

- The code makes at most two passes, not a loop that runs until nothing
  changes. `TwoPassesDoNotConverge` shows a run after which a second
  evaluation unlocks more.
- The code has no `XP_EARNED` check (`XpEarnedNotEvaluated`).
- Within the first pass, a level check sees the rewards gained earlier in
  that same pass, not a snapshot taken at the start of the pass.

Clocks, the database and HTTP are not modelled. The catalog, the task table
and the request body are parameters. The completed-task count is computed
from the task table after the save and is fixed for one evaluation.

## Model

| member | source | states |
|---|---|---|
| `Models.UserProfile.constructor` | api/models.py:39-42 | a new profile has 0 XP and no unlocked achievements, and has no duplicate link rows |
| `AchievementUtils.Level` | api/achievement_utils.py:45-48 | the level is the 100-XP band holding the XP, counting from 1: `(level-1)*100 <= xp < level*100`, which is floor division as in Python `//` |
| `AchievementUtils.AwardAchievement` | api/achievement_utils.py:5-18 | get-or-create: a new link row returns the achievement and adds the reward if positive; an existing row returns None and changes neither rows nor XP; no duplicate rows either way |
| `AchievementUtils.AnyWithId` | api/achievement_utils.py:81 | the duplicate scan is true iff some reported achievement has the given id |
| `AchievementUtils.CheckAndAward` | api/achievement_utils.py:20-95 | the two loops leave the profile's XP and link rows, and return the list, exactly as `Evaluate` prescribes from the old XP and rows; no duplicate rows |
| `AchievementUtils.FirstPassLoop` | api/achievement_utils.py:26-62 | the first loop leaves the rows, the gained XP and the list exactly as the first `Pass` prescribes, with the XP raised by the gain |
| `AchievementUtils.SecondPassLoop` | api/achievement_utils.py:74-93 | the second loop leaves the rows and XP as the second `Pass` from the current total prescribes, and appends its awards to the list |
| `AchievementProperties.PassRows` | api/achievement_utils.py:57-62 | a pass appends one link row per award, in award order, and gains exactly the sum of the positive rewards |
| `AchievementProperties.PassAwardsFresh` | api/achievement_utils.py:32-35 | a pass never awards an achievement already linked, and never awards one twice |
| `AchievementProperties.PassInCatalogOrder` | api/achievement_utils.py:32-60 | a pass's awards are a subsequence of the catalog (catalog order) |
| `AchievementProperties.PassFromCatalog` | api/achievement_utils.py:30-32 | every award of a pass is an entry of the catalog |
| `AchievementProperties.PassAwardsEligible` | api/achievement_utils.py:37-50 | every award of a pass meets its pass's criterion at the XP the pass ends with |
| `AchievementProperties.PassAt` | api/achievement_utils.py:32-62 | with distinct ids, an entry not yet linked is awarded by a pass iff it is eligible at the start XP plus the XP gained from the entries before it |
| `AchievementProperties.SecondPassFacts` | api/achievement_utils.py:65-93 | the second pass, run or skipped, appends one row per award, gains their rewards, awards only entries not linked after the first pass, each once, in catalog order, and only LEVEL_REACHED entries reached at the final XP |
| `AchievementProperties.EvaluateRows` | api/achievement_utils.py:57-60 | rows only grow: old rows followed by the ids of the reported achievements, in report order |
| `AchievementProperties.EvaluateDistinct` | api/models.py:47-53 | reported ids are distinct, and duplicate-free rows stay duplicate-free after an evaluation |
| `AchievementProperties.EvaluateSkipsUnlocked` | api/achievement_utils.py:33-35 | every reported achievement is a catalog entry that was not linked before, in either pass |
| `AchievementProperties.EvaluateBound` | api/achievement_utils.py:81-82 | the report is never longer than the catalog |
| `AchievementProperties.EvaluateXp` | api/achievement_utils.py:61-62 | XP never decreases; it grows by exactly the positive rewards of the reported achievements |
| `AchievementProperties.EvaluateOrder` | api/achievement_utils.py:74-82 | the report is first-pass awards in catalog order, then second-pass awards in catalog order; second-pass awards are all LEVEL_REACHED, reached at the final XP |
| `AchievementProperties.SecondPassNeedsReward` | api/achievement_utils.py:65-72 | with no positive first-pass reward, there is no second pass: XP unchanged and the report is the first pass's |
| `AchievementProperties.EvaluateNeverXpEarned` | api/achievement_utils.py:37-57 | no XP_EARNED achievement is ever reported |
| `AchievementProperties.EvaluateMember` | api/achievement_utils.py:64-93 | an achievement is reported iff the first pass awards it or, after first-pass XP, the second pass does |
| `AchievementProperties.EvaluateTasksCompleted` | api/achievement_utils.py:38-41 | with distinct ids, a TASKS_COMPLETED entry not yet linked is reported iff the completed-task count is at least its threshold |
| `AchievementProperties.EvaluateLevelReached` | api/achievement_utils.py:43-50 | with distinct ids, a LEVEL_REACHED entry not yet linked is reported iff the first pass reaches its level at start XP plus earlier rewards, or (after first-pass XP) the second pass reaches it at the updated total |
| `AchievementProperties.TwoPassesDoNotConverge` | api/achievement_utils.py:69-93 | a concrete catalog where a second-pass reward lifts the level past an entry both passes rejected, so evaluating again unlocks it |
| `AchievementProperties.XpEarnedNotEvaluated` | api/models.py:18 | a concrete run where the XP reaches an XP_EARNED threshold and the entry still does not unlock |
| `AchievementProperties.DefaultAchievement` | api/models.py:28-34 | a default achievement adds no XP when awarded, and qualifies iff the completed-task count reaches its threshold |
| `Views.GetQueryset` | api/views.py:35-44 | exactly the requester's own tasks, and none for an anonymous requester |
| `Views.FindTask` | api/views.py:94 | the lookup finds a task with that id owned by the user, and finds nothing (404) iff there is no such task |
| `Views.Update` | api/views.py:92-132 | the task is saved. Only a not-completed to completed change credits `xp_value` (null counts as 0) and runs the engine on the saved tasks. Otherwise XP and rows are unchanged and the list is empty. The response carries both the task and the list |
| `Views.ProfileUpdateData` | api/views.py:156-160 | the update data is the request restricted to the theme and avatar keys, with their values |
| `Views.UpdateProfile` | api/views.py:153-168 | 400 with "No data provided for update." iff neither key is present; otherwise the profile's data, with no field changed |
| `Views.CompletedCountReplace` | api/achievement_utils.py:39 | replacing one task changes the user's completed count by the difference of the two versions' contributions |
| `Views.CompletionIncrementsCount` | api/views.py:99-113 | completing one of the user's tasks raises the completed count the engine sees by exactly one |
| `Views.PatchTrigger` | api/views.py:106 | an update keeps the task's id and owner, and fires the trigger iff it sets a not-completed task to completed |
| `Views.NewTaskCompletionCredit` | api/models.py:8-9 | a new task starts not completed with 10 XP, so completing it fires the trigger and credits 10 XP |
| `AsWritten.RewardsOverwritten` | api/achievement_utils.py:13 | read literally, two first-pass rewards of 30 and 50 save as +50, where the accumulating model gives +80 |
| `AsWritten.LevelCheckFailsAfterReward` | api/achievement_utils.py:47-48 | read literally, a level check after a rewarded first-pass award floor-divides an F() expression, which raises a TypeError |
| `AsWritten.LevelCheckAgreesWithoutReward` | api/achievement_utils.py:47-48 | before any rewarded award, the literal check computes the modelled level |

## Left out

- Database mechanics are not modelled: `F()` expressions, `save`,
  `refresh_from_db` and querysets. XP is a plain accumulating integer;
  `AsWritten` covers the literal reading of lines 13 and 47.
- `TaskViewSet.perform_update` (api/views.py:52-89) is not modelled. It is
  never reached because `update` calls `perform_save`. The completion rule
  is modelled once, in `Views.Update`.
- `Views.Update` does not model request validation (`is_valid` raising
  400) or the creation of a missing profile by `get_or_create`. The
  signal handlers in `api/signals.py` always create the profile.
- `Views.UpdateProfile` does not model the serializer's error branch
  (api/views.py:169). Unknown keys are ignored in a partial update, so that
  branch cannot be taken for these keys.
- Integer widths are not modelled. Dafny integers are unbounded, while the
  database columns are 32-bit. A task's `xp_value` may be negative, and
  `Views.Update` credits it as given.
- The `unlocked_at` timestamp of a link row is not modelled (it is a clock
  read).
- Routing, authentication, serialization, the admin registration and the
  command-line bootstrap are not modelled.
- Concurrency is not modelled: races between requests on `total_xp`, and
  transactions.
- `UserViewSet`, `AchievementViewSet` and `perform_create` are not modelled.
  They have no logic beyond storage calls.
- `AchievementProperties.PassAt`, `EvaluateTasksCompleted` and
  `EvaluateLevelReached` assume distinct catalog ids, as primary keys
  guarantee. Without that assumption, the other lemmas still hold.

## Findings

| source | as written | input that shows it | evidently intended | confidence | as-written member | corrected member |
|---|---|---|---|---|---|---|
| api/achievement_utils.py:13 | each rewarded first-pass award assigns `total_xp = F('total_xp') + reward`, replacing the previous pending increment, so the save keeps only the last reward | stored XP 0, one completed task, two TASKS_COMPLETED entries with rewards 30 and 50: saved total 50 | every reward accumulates: 80 | high, not executed | `AsWritten.RewardsOverwritten` | `AchievementProperties.EvaluateXp` |
| api/achievement_utils.py:47-48 | after a rewarded award, `total_xp` is an F() expression; adding the gained XP gives another expression, and `// 100` is not defined on it, so a later LEVEL_REACHED check raises TypeError | one completed task, catalog [TASKS_COMPLETED(1) reward 50, LEVEL_REACHED(2)] | the level of stored XP plus XP gained so far | medium, not executed | `AsWritten.LevelCheckFailsAfterReward` | `AchievementProperties.PassAt` |
