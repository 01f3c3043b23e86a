/** The request handlers around the engine (api/views.py): the owner filter
    on tasks, the task update that credits XP and runs the engine when a
    task becomes completed, and the profile update that accepts only the
    theme and avatar keys. */
module Views {
  import opened Wrappers
  import opened Models
  import opened AchievementUtils

  datatype ApiError = NotFound | BadRequest(message: string)

  /** The writable fields of a task update; `None` leaves a field as it is.
      The owner and id are read-only and the description is not among the
      serialized fields, so an update cannot change them. */
  datatype TaskPatch = TaskPatch(title: Option<string>, completed: Option<bool>, xpValue: Option<int>)

  /** The body of a task update response: the saved task and the
      achievements the update unlocked. */
  datatype TaskUpdateResponse = TaskUpdateResponse(task: Task, newlyUnlocked: seq<Achievement>)

  /** The profile fields a profile response carries. */
  datatype ProfileData = ProfileData(user: UserId, totalXp: int)

  const ThemeKey: string := "selected_theme_id"
  const AvatarKey: string := "selected_avatar_id"
  const NoDataMessage: string := "No data provided for update."

  /** The tasks a requester may see: those an authenticated user owns, in
      table order, and none for an anonymous requester. */
  function GetQueryset(tasks: seq<Task>, requester: Option<UserId>): (r: seq<Task>)
    ensures requester == None ==> r == []
    ensures forall t :: t in r <==> requester.Some? && t in tasks && t.owner == requester.value
    ensures |r| <= |tasks|
    decreases |tasks|
  {
    if requester.None? || tasks == [] then []
    else
      var rest := GetQueryset(tasks[..|tasks| - 1], requester);
      var t := tasks[|tasks| - 1];
      assert tasks == tasks[..|tasks| - 1] + [t];
      if t.owner == requester.value then rest + [t] else rest
  }

  /** The number of completed tasks owned by `user`. */
  function CompletedCount(tasks: seq<Task>, user: UserId): nat
    decreases |tasks|
  {
    if tasks == [] then 0
    else
      var t := tasks[|tasks| - 1];
      CompletedCount(tasks[..|tasks| - 1], user) + (if t.owner == user && t.completed then 1 else 0)
  }

  /** The position of the task with id `id` among those `user` may see,
      or None when there is none (a 404 response). */
  function FindTask(tasks: seq<Task>, user: UserId, id: TaskId): (r: Option<nat>)
    ensures r.Some? ==> r.value < |tasks| && tasks[r.value].id == id && tasks[r.value].owner == user
    ensures r.None? <==> forall k :: 0 <= k < |tasks| ==> !(tasks[k].id == id && tasks[k].owner == user)
    decreases |tasks|
  {
    if tasks == [] then None
    else if tasks[0].id == id && tasks[0].owner == user then Some(0)
    else match FindTask(tasks[1..], user, id)
      case None => None
      case Some(k) => Some(k + 1)
  }

  function ApplyPatch(t: Task, p: TaskPatch): Task
  {
    t.(title := if p.title.Some? then p.title.value else t.title,
       completed := if p.completed.Some? then p.completed.value else t.completed,
       xpValue := if p.xpValue.Some? then Some(p.xpValue.value) else t.xpValue)
  }

  /** The XP a completed task credits; a null XP value counts as 0. */
  function XpCredit(t: Task): int
  {
    match t.xpValue
    case Some(v) => v
    case None => 0
  }

  /** The trigger: a task goes from not completed to completed. */
  predicate Completes(before: Task, after: Task)
  {
    !before.completed && after.completed
  }

  /** Updates the task `taskId` of the profile's user with `patch`. When the
      task thereby becomes completed, its XP is credited and the engine runs
      on the saved tasks; the response holds the saved task and the newly
      unlocked achievements, which are empty when the trigger did not
      fire. Returns the task table after the save. */
  method Update(profile: UserProfile, tasks: seq<Task>, taskId: TaskId, patch: TaskPatch,
                catalog: seq<Achievement>)
    returns (saved: seq<Task>, response: Result<TaskUpdateResponse, ApiError>)
    requires profile.Valid()
    modifies profile
    ensures profile.Valid()
    ensures FindTask(tasks, profile.user, taskId).None? ==>
      response == Failure(NotFound) && saved == tasks
      && profile.totalXp == old(profile.totalXp) && profile.unlocked == old(profile.unlocked)
    ensures FindTask(tasks, profile.user, taskId).Some? ==>
      var i := FindTask(tasks, profile.user, taskId).value;
      var after := ApplyPatch(tasks[i], patch);
      saved == tasks[i := after] && response.Success? && response.value.task == after
      && (Completes(tasks[i], after) ==>
            var e := Evaluate(catalog, CompletedCount(saved, profile.user),
                              old(profile.totalXp) + XpCredit(after), old(profile.unlocked));
            profile.totalXp == e.xp && profile.unlocked == e.unlocked
            && response.value.newlyUnlocked == e.newly)
      && (!Completes(tasks[i], after) ==>
            profile.totalXp == old(profile.totalXp) && profile.unlocked == old(profile.unlocked)
            && response.value.newlyUnlocked == [])
  {
    var found := FindTask(tasks, profile.user, taskId);
    if found.None? {
      return tasks, Failure(NotFound);
    }
    var instance := tasks[found.value];
    var wasCompleted := instance.completed;
    var after := ApplyPatch(instance, patch);
    saved := tasks[found.value := after];
    var newlyUnlocked: seq<Achievement> := [];
    if after.completed && !wasCompleted {
      var taskXpValue := if after.xpValue.Some? then after.xpValue.value else 0;
      profile.totalXp := profile.totalXp + taskXpValue;
      newlyUnlocked := CheckAndAward(profile, catalog, CompletedCount(saved, profile.user));
    }
    response := Success(TaskUpdateResponse(after, newlyUnlocked));
  }

  /** The update data taken from a profile request: the theme and avatar
      keys when present, and nothing else. */
  method ProfileUpdateData<V>(request: map<string, V>) returns (data: map<string, V>)
    ensures data.Keys == request.Keys * {ThemeKey, AvatarKey}
    ensures forall k :: k in data ==> data[k] == request[k]
  {
    data := map[];
    if ThemeKey in request {
      data := data[ThemeKey := request[ThemeKey]];
    }
    if AvatarKey in request {
      data := data[AvatarKey := request[AvatarKey]];
    }
  }

  /** A profile update: a 400 error when the request has neither key;
      otherwise the profile's data. The profile serializer declares neither
      key, so saving the update data writes no field of the profile. */
  method UpdateProfile<V>(profile: UserProfile, request: map<string, V>)
    returns (response: Result<ProfileData, ApiError>)
    ensures response.Failure? <==> ThemeKey !in request && AvatarKey !in request
    ensures response.Failure? ==> response.error == BadRequest(NoDataMessage)
    ensures response.Success? ==> response.value == ProfileData(profile.user, profile.totalXp)
  {
    var data := ProfileUpdateData(request);
    if data == map[] {
      assert ThemeKey !in data.Keys && AvatarKey !in data.Keys;
      return Failure(BadRequest(NoDataMessage));
    }
    assert ThemeKey in data.Keys || AvatarKey in data.Keys;
    return Success(ProfileData(profile.user, profile.totalXp));
  }

  // ---------------------------------------------------------------------
  // Properties
  // ---------------------------------------------------------------------

  /** Replacing one task changes the completed count by what the old and the
      new version contribute. */
  lemma {:induction false} CompletedCountReplace(tasks: seq<Task>, i: nat, t: Task, user: UserId)
    requires i < |tasks|
    ensures CompletedCount(tasks[i := t], user)
            == CompletedCount(tasks, user)
               - (if tasks[i].owner == user && tasks[i].completed then 1 else 0)
               + (if t.owner == user && t.completed then 1 else 0)
    decreases |tasks|
  {
    var n := |tasks| - 1;
    var tasks' := tasks[i := t];
    assert tasks'[..n] == if i < n then tasks[..n][i := t] else tasks[..n];
    if i < n {
      CompletedCountReplace(tasks[..n], i, t, user);
    }
  }

  /** Completing one of the user's tasks raises the user's completed count
      by exactly one, so the engine sees the task just completed. */
  lemma CompletionIncrementsCount(tasks: seq<Task>, i: nat, after: Task, user: UserId)
    requires i < |tasks| && tasks[i].owner == user && after.owner == user
    requires Completes(tasks[i], after)
    ensures CompletedCount(tasks[i := after], user) == CompletedCount(tasks, user) + 1
  {
    CompletedCountReplace(tasks, i, after, user);
  }

  /** A patch keeps the task's identity and owner, so the saved task is
      still the user's, and it fires the trigger exactly when it sets a
      not-yet-completed task to completed. */
  lemma PatchTrigger(t: Task, p: TaskPatch)
    ensures ApplyPatch(t, p).id == t.id && ApplyPatch(t, p).owner == t.owner
    ensures Completes(t, ApplyPatch(t, p)) <==> !t.completed && p.completed == Some(true)
  {
  }

  /** Completing a freshly created task credits the default 10 XP. */
  lemma NewTaskCompletionCredit(id: TaskId, owner: UserId, title: string)
    ensures var t := NewTask(id, owner, title);
      Completes(t, ApplyPatch(t, TaskPatch(None, Some(true), None)))
      && XpCredit(ApplyPatch(t, TaskPatch(None, Some(true), None))) == DefaultTaskXp
  {
  }
}
