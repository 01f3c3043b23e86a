/** Properties of the award engine: what one pass does, what a whole
    evaluation reports and keeps, which achievements unlock, and the
    limits of the two-pass design. */
module AchievementProperties {
  import opened Wrappers
  import opened Models
  import opened AchievementUtils

  /** `xs` is `ys` with some elements deleted: the elements of `xs` occur
      in `ys` in the same order. */
  predicate IsSubsequence<T(==)>(xs: seq<T>, ys: seq<T>)
    decreases |ys|
  {
    if xs == [] then true
    else if ys == [] then false
    else if xs[|xs| - 1] == ys[|ys| - 1] then IsSubsequence(xs[..|xs| - 1], ys[..|ys| - 1])
    else IsSubsequence(xs, ys[..|ys| - 1])
  }

  // ---------------------------------------------------------------------
  // Sequence helpers
  // ---------------------------------------------------------------------

  lemma {:induction false} SubsequenceExtend<T>(xs: seq<T>, ys: seq<T>, y: T)
    requires IsSubsequence(xs, ys)
    ensures IsSubsequence(xs, ys + [y])
    decreases |ys|, 1
  {
    var ys' := ys + [y];
    assert ys'[..|ys'| - 1] == ys;
    if xs != [] && xs[|xs| - 1] == y {
      SubsequenceDropLast(xs, ys);
    }
  }

  lemma {:induction false} SubsequenceDropLast<T>(xs: seq<T>, ys: seq<T>)
    requires xs != [] && IsSubsequence(xs, ys)
    ensures IsSubsequence(xs[..|xs| - 1], ys)
    decreases |ys|, 0
  {
    var n := |ys| - 1;
    assert ys == ys[..n] + [ys[n]];
    if xs[|xs| - 1] == ys[n] {
      SubsequenceExtend(xs[..|xs| - 1], ys[..n], ys[n]);
    } else {
      SubsequenceDropLast(xs, ys[..n]);
      SubsequenceExtend(xs[..|xs| - 1], ys[..n], ys[n]);
    }
  }

  lemma {:induction false} SubsequenceAppendBoth<T>(xs: seq<T>, ys: seq<T>, y: T)
    requires IsSubsequence(xs, ys)
    ensures IsSubsequence(xs + [y], ys + [y])
  {
    assert (xs + [y])[..|xs|] == xs;
    assert (ys + [y])[..|ys|] == ys;
  }

  /** The set of elements of a sequence. */
  function Elements<T>(s: seq<T>): set<T>
  {
    set x | x in s
  }

  lemma {:induction false} DistinctElementsCount<T>(s: seq<T>)
    requires NoDuplicates(s)
    ensures |Elements(s)| == |s|
  {
    if s != [] {
      var n := |s| - 1;
      DistinctElementsCount(s[..n]);
      assert s == s[..n] + [s[n]];
      assert Elements(s) == Elements(s[..n]) + {s[n]};
      assert s[n] !in s[..n];
    }
  }

  lemma {:induction false} ElementsCountBound<T>(s: seq<T>)
    ensures |Elements(s)| <= |s|
  {
    if s != [] {
      var n := |s| - 1;
      ElementsCountBound(s[..n]);
      assert s == s[..n] + [s[n]];
      assert Elements(s) == Elements(s[..n]) + {s[n]};
    }
  }

  lemma NoDuplicatesAppend<T>(s: seq<T>, t: seq<T>)
    requires NoDuplicates(s) && NoDuplicates(t)
    requires forall k :: 0 <= k < |t| ==> t[k] !in s
    ensures NoDuplicates(s + t)
  {
    forall i, j | 0 <= i < j < |s + t|
      ensures (s + t)[i] != (s + t)[j]
    {
      if j >= |s| && i < |s| {
        assert (s + t)[j] == t[j - |s|];
        assert (s + t)[i] == s[i];
      }
    }
  }

  lemma SubsetCount<T>(a: set<T>, b: set<T>)
    requires a <= b
    ensures |a| <= |b|
  {
    assert b == a + (b - a);
  }

  lemma {:induction false} IdsAppend(s: seq<Achievement>, t: seq<Achievement>)
    ensures Ids(s + t) == Ids(s) + Ids(t)
  {
  }

  lemma {:induction false} RewardSumAppend(s: seq<Achievement>, t: seq<Achievement>)
    ensures RewardSum(s + t) == RewardSum(s) + RewardSum(t)
    decreases |t|
  {
    if t != [] {
      var n := |t| - 1;
      assert (s + t)[..|s + t| - 1] == s + t[..n];
      RewardSumAppend(s, t[..n]);
    } else {
      assert s + t == s;
    }
  }

  lemma LevelMonotone(x: int, y: int)
    requires x <= y
    ensures Level(x) <= Level(y)
  {
  }

  lemma EligibleMonotone(kind: PassKind, a: Achievement, completedTasks: int, x: int, y: int)
    requires x <= y && Eligible(kind, a, completedTasks, x)
    ensures Eligible(kind, a, completedTasks, y)
  {
    LevelMonotone(x, y);
  }

  // ---------------------------------------------------------------------
  // One pass
  // ---------------------------------------------------------------------

  /** A pass only appends link rows, one per awarded achievement, and the
      XP it gains is the sum of their positive rewards. */
  lemma {:induction false} PassRows(kind: PassKind, c: seq<Achievement>, completedTasks: int, xp: int,
                                    u: seq<AchievementId>)
    ensures var r := Pass(kind, c, completedTasks, xp, u);
      r.unlocked == u + Ids(r.awarded) && r.gained == RewardSum(r.awarded)
  {
    if c != [] {
      var n := |c| - 1;
      var r := Pass(kind, c[..n], completedTasks, xp, u);
      PassRows(kind, c[..n], completedTasks, xp, u);
      var a := c[n];
      if a.id !in r.unlocked && Eligible(kind, a, completedTasks, xp + r.gained) {
        assert (r.awarded + [a])[..|r.awarded|] == r.awarded;
        IdsAppend(r.awarded, [a]);
      }
    }
  }

  /** A pass never awards an achievement that is already linked, nor one
      twice: the awarded ids are distinct and none was linked before. */
  lemma {:induction false} PassAwardsFresh(kind: PassKind, c: seq<Achievement>, completedTasks: int, xp: int,
                                           u: seq<AchievementId>)
    ensures NoDuplicates(Ids(Pass(kind, c, completedTasks, xp, u).awarded))
    ensures forall k :: 0 <= k < |Pass(kind, c, completedTasks, xp, u).awarded| ==> Pass(kind, c, completedTasks, xp, u).awarded[k].id !in u
  {
    if c != [] {
      var n := |c| - 1;
      var r := Pass(kind, c[..n], completedTasks, xp, u);
      PassAwardsFresh(kind, c[..n], completedTasks, xp, u);
      PassRows(kind, c[..n], completedTasks, xp, u);
      var a := c[n];
      if a.id !in r.unlocked && Eligible(kind, a, completedTasks, xp + r.gained) {
        IdsAppend(r.awarded, [a]);
        assert a.id !in Ids(r.awarded);
      }
    }
  }

  /** The awards of a pass come in catalog order. */
  lemma {:induction false} PassInCatalogOrder(kind: PassKind, c: seq<Achievement>, completedTasks: int,
                                              xp: int, u: seq<AchievementId>)
    ensures IsSubsequence(Pass(kind, c, completedTasks, xp, u).awarded, c)
  {
    if c != [] {
      var n := |c| - 1;
      var r := Pass(kind, c[..n], completedTasks, xp, u);
      PassInCatalogOrder(kind, c[..n], completedTasks, xp, u);
      var a := c[n];
      assert c == c[..n] + [a];
      if a.id !in r.unlocked && Eligible(kind, a, completedTasks, xp + r.gained) {
        SubsequenceAppendBoth(r.awarded, c[..n], a);
      } else {
        SubsequenceExtend(r.awarded, c[..n], a);
      }
    }
  }

  /** Every award of a pass is a catalog entry. */
  lemma {:induction false} PassFromCatalog(kind: PassKind, c: seq<Achievement>, completedTasks: int,
                                           xp: int, u: seq<AchievementId>)
    ensures forall k :: 0 <= k < |Pass(kind, c, completedTasks, xp, u).awarded| ==> Pass(kind, c, completedTasks, xp, u).awarded[k] in c
  {
    if c != [] {
      var n := |c| - 1;
      var r := Pass(kind, c[..n], completedTasks, xp, u);
      PassFromCatalog(kind, c[..n], completedTasks, xp, u);
      var a := c[n];
      assert c == c[..n] + [a];
      forall k | 0 <= k < |r.awarded|
        ensures r.awarded[k] in c
      {
        assert r.awarded[k] in c[..n];
      }
    }
  }

  /** Every award of a pass is eligible at the XP the pass ends with. */
  lemma {:induction false} PassAwardsEligible(kind: PassKind, c: seq<Achievement>, completedTasks: int,
                                              xp: int, u: seq<AchievementId>)
    ensures forall k :: 0 <= k < |Pass(kind, c, completedTasks, xp, u).awarded| ==>
      Eligible(kind, Pass(kind, c, completedTasks, xp, u).awarded[k], completedTasks, xp + Pass(kind, c, completedTasks, xp, u).gained)
  {
    if c != [] {
      var n := |c| - 1;
      var r := Pass(kind, c[..n], completedTasks, xp, u);
      PassAwardsEligible(kind, c[..n], completedTasks, xp, u);
      PassRows(kind, c[..n], completedTasks, xp, u);
      var r' := Pass(kind, c, completedTasks, xp, u);
      forall k | 0 <= k < |r.awarded|
        ensures Eligible(kind, r.awarded[k], completedTasks, xp + r'.gained)
      {
        EligibleMonotone(kind, r.awarded[k], completedTasks, xp + r.gained, xp + r'.gained);
      }
      var a := c[n];
      if a.id !in r.unlocked && Eligible(kind, a, completedTasks, xp + r.gained) {
        EligibleMonotone(kind, a, completedTasks, xp + r.gained, xp + r'.gained);
      }
    }
  }

  /** An id neither linked beforehand nor carried by any catalog entry is
      still not linked after a pass. */
  lemma {:induction false} PassKeepsOut(kind: PassKind, c: seq<Achievement>, completedTasks: int, xp: int,
                                        u: seq<AchievementId>, id: AchievementId)
    requires id !in u
    requires forall j :: 0 <= j < |c| ==> c[j].id != id
    ensures id !in Pass(kind, c, completedTasks, xp, u).unlocked
  {
    if c != [] {
      var c' := c[..|c| - 1];
      assert forall j :: 0 <= j < |c'| ==> c'[j] == c[j];
      PassKeepsOut(kind, c', completedTasks, xp, u, id);
    }
  }

  /** With distinct catalog ids, an entry not linked beforehand is awarded
      by a pass exactly when it is eligible at the starting XP plus the XP
      gained from the entries before it in the catalog. */
  lemma {:induction false} PassAt(kind: PassKind, c: seq<Achievement>, completedTasks: int, xp: int,
                                  u: seq<AchievementId>, k: nat)
    requires DistinctIds(c) && k < |c| && c[k].id !in u
    ensures c[k] in Pass(kind, c, completedTasks, xp, u).awarded
            <==> Eligible(kind, c[k], completedTasks, xp + Pass(kind, c[..k], completedTasks, xp, u).gained)
  {
    var n := |c| - 1;
    var c' := c[..n];
    var r := Pass(kind, c', completedTasks, xp, u);
    var r' := Pass(kind, c, completedTasks, xp, u);
    var a := c[n];
    var fire := a.id !in r.unlocked && Eligible(kind, a, completedTasks, xp + r.gained);
    assert r' == if fire then PassResult(r.unlocked + [a.id], r.gained + Bonus(a), r.awarded + [a]) else r;
    if k == n {
      assert c[..k] == c';
      PassRows(kind, c', completedTasks, xp, u);
      PassFromCatalog(kind, c', completedTasks, xp, u);
      PassKeepsOut(kind, c', completedTasks, xp, u, a.id);
      assert a !in r.awarded;
    } else {
      assert c'[..k] == c[..k];
      assert c'[k] == c[k];
      assert DistinctIds(c');
      PassAt(kind, c', completedTasks, xp, u, k);
      assert c[k] != a;
      if fire {
        assert c[k] in r'.awarded <==> c[k] in r.awarded;
      }
    }
  }

  // ---------------------------------------------------------------------
  // A whole evaluation
  // ---------------------------------------------------------------------

  /** What the second pass contributes after `first`, whether or not it
      runs: rows appended for its awards, XP equal to their rewards, only
      entries not linked after the first pass, each at most once, in
      catalog order, and only level achievements reached at the XP it ends
      with. */
  lemma SecondPassFacts(catalog: seq<Achievement>, completedTasks: int, xp: int, first: PassResult)
    ensures SecondPassOf(catalog, completedTasks, xp, first).unlocked == first.unlocked + Ids(SecondPassOf(catalog, completedTasks, xp, first).awarded)
    ensures SecondPassOf(catalog, completedTasks, xp, first).gained == RewardSum(SecondPassOf(catalog, completedTasks, xp, first).awarded)
    ensures NoDuplicates(Ids(SecondPassOf(catalog, completedTasks, xp, first).awarded))
    ensures IsSubsequence(SecondPassOf(catalog, completedTasks, xp, first).awarded, catalog)
    ensures forall k :: 0 <= k < |SecondPassOf(catalog, completedTasks, xp, first).awarded| ==>
      SecondPassOf(catalog, completedTasks, xp, first).awarded[k].id !in first.unlocked && SecondPassOf(catalog, completedTasks, xp, first).awarded[k] in catalog
      && SecondPassOf(catalog, completedTasks, xp, first).awarded[k].criteriaType == LevelReached
      && Level(xp + first.gained + SecondPassOf(catalog, completedTasks, xp, first).gained) >= SecondPassOf(catalog, completedTasks, xp, first).awarded[k].criteriaValue
  {
    if first.gained > 0 {
      var xp1 := xp + first.gained;
      PassRows(SecondPass, catalog, completedTasks, xp1, first.unlocked);
      PassAwardsFresh(SecondPass, catalog, completedTasks, xp1, first.unlocked);
      PassInCatalogOrder(SecondPass, catalog, completedTasks, xp1, first.unlocked);
      PassFromCatalog(SecondPass, catalog, completedTasks, xp1, first.unlocked);
      PassAwardsEligible(SecondPass, catalog, completedTasks, xp1, first.unlocked);
    } else {
      assert first.unlocked + Ids([]) == first.unlocked;
    }
  }

  /** Link rows only grow: the old rows stay, followed by one row per newly
      unlocked achievement, in report order. */
  lemma EvaluateRows(catalog: seq<Achievement>, completedTasks: int, xp: int, u: seq<AchievementId>)
    ensures Evaluate(catalog, completedTasks, xp, u).unlocked == u + Ids(Evaluate(catalog, completedTasks, xp, u).newly)
  {
    var first := Pass(FirstPass, catalog, completedTasks, xp, u);
    PassRows(FirstPass, catalog, completedTasks, xp, u);
    SecondPassFacts(catalog, completedTasks, xp, first);
    IdsAppend(first.awarded, SecondPassOf(catalog, completedTasks, xp, first).awarded);
  }

  /** No achievement is reported twice, and rows free of duplicates stay
      free of duplicates: at most one link row per (profile, achievement). */
  lemma EvaluateDistinct(catalog: seq<Achievement>, completedTasks: int, xp: int, u: seq<AchievementId>)
    ensures NoDuplicates(Ids(Evaluate(catalog, completedTasks, xp, u).newly))
    ensures NoDuplicates(u) ==> NoDuplicates(Evaluate(catalog, completedTasks, xp, u).unlocked)
  {
    var first := Pass(FirstPass, catalog, completedTasks, xp, u);
    var second := SecondPassOf(catalog, completedTasks, xp, first);
    PassRows(FirstPass, catalog, completedTasks, xp, u);
    PassAwardsFresh(FirstPass, catalog, completedTasks, xp, u);
    SecondPassFacts(catalog, completedTasks, xp, first);
    var ids1 := Ids(first.awarded);
    var ids2 := Ids(second.awarded);
    IdsAppend(first.awarded, second.awarded);
    forall k | 0 <= k < |ids2|
      ensures ids2[k] !in ids1 && ids2[k] !in u
    {
      assert ids2[k] == second.awarded[k].id;
    }
    NoDuplicatesAppend(ids1, ids2);
    if NoDuplicates(u) {
      forall k | 0 <= k < |ids1|
        ensures ids1[k] !in u
      {
        assert ids1[k] == first.awarded[k].id;
      }
      NoDuplicatesAppend(u, ids1);
      NoDuplicatesAppend(u + ids1, ids2);
    }
  }

  /** Every reported achievement is a catalog entry that was not linked to
      the profile beforehand. */
  lemma EvaluateSkipsUnlocked(catalog: seq<Achievement>, completedTasks: int, xp: int, u: seq<AchievementId>)
    ensures forall k :: 0 <= k < |Evaluate(catalog, completedTasks, xp, u).newly| ==>
      Evaluate(catalog, completedTasks, xp, u).newly[k].id !in u && Evaluate(catalog, completedTasks, xp, u).newly[k] in catalog
  {
    var first := Pass(FirstPass, catalog, completedTasks, xp, u);
    var second := SecondPassOf(catalog, completedTasks, xp, first);
    PassRows(FirstPass, catalog, completedTasks, xp, u);
    PassAwardsFresh(FirstPass, catalog, completedTasks, xp, u);
    PassFromCatalog(FirstPass, catalog, completedTasks, xp, u);
    SecondPassFacts(catalog, completedTasks, xp, first);
    var newly := first.awarded + second.awarded;
    forall k | |first.awarded| <= k < |newly|
      ensures newly[k].id !in u && newly[k] in catalog
    {
      assert newly[k] == second.awarded[k - |first.awarded|];
    }
  }

  /** No more achievements are reported than the catalog holds. */
  lemma EvaluateBound(catalog: seq<Achievement>, completedTasks: int, xp: int, u: seq<AchievementId>)
    ensures |Evaluate(catalog, completedTasks, xp, u).newly| <= |catalog|
  {
    var e := Evaluate(catalog, completedTasks, xp, u);
    EvaluateDistinct(catalog, completedTasks, xp, u);
    EvaluateSkipsUnlocked(catalog, completedTasks, xp, u);
    var ids := Ids(e.newly);
    var all := Ids(catalog);
    DistinctElementsCount(ids);
    forall x | x in ids
      ensures x in all
    {
      var k :| 0 <= k < |ids| && ids[k] == x;
      var m :| 0 <= m < |catalog| && catalog[m] == e.newly[k];
      assert all[m] == x;
    }
    var idSet := Elements(ids);
    var allSet := Elements(all);
    assert idSet <= allSet;
    SubsetCount(idSet, allSet);
    ElementsCountBound(all);
  }

  /** XP never decreases: it grows by exactly the positive rewards of the
      newly unlocked achievements. */
  lemma EvaluateXp(catalog: seq<Achievement>, completedTasks: int, xp: int, u: seq<AchievementId>)
    ensures Evaluate(catalog, completedTasks, xp, u).xp == xp + RewardSum(Evaluate(catalog, completedTasks, xp, u).newly)
    ensures Evaluate(catalog, completedTasks, xp, u).xp >= xp
  {
    var first := Pass(FirstPass, catalog, completedTasks, xp, u);
    PassRows(FirstPass, catalog, completedTasks, xp, u);
    SecondPassFacts(catalog, completedTasks, xp, first);
    RewardSumAppend(first.awarded, SecondPassOf(catalog, completedTasks, xp, first).awarded);
  }

  /** The report is the first pass's awards in catalog order followed by
      the second pass's awards in catalog order; every second-pass award is
      a level achievement reached at the final XP. */
  lemma EvaluateOrder(catalog: seq<Achievement>, completedTasks: int, xp: int, u: seq<AchievementId>)
    ensures exists k :: (0 <= k <= |Evaluate(catalog, completedTasks, xp, u).newly|
      && IsSubsequence(Evaluate(catalog, completedTasks, xp, u).newly[..k], catalog) && IsSubsequence(Evaluate(catalog, completedTasks, xp, u).newly[k..], catalog)
      && forall j :: k <= j < |Evaluate(catalog, completedTasks, xp, u).newly| ==>
           Evaluate(catalog, completedTasks, xp, u).newly[j].criteriaType == LevelReached
           && Level(Evaluate(catalog, completedTasks, xp, u).xp) >= Evaluate(catalog, completedTasks, xp, u).newly[j].criteriaValue)
  {
    var e := Evaluate(catalog, completedTasks, xp, u);
    var first := Pass(FirstPass, catalog, completedTasks, xp, u);
    var second := SecondPassOf(catalog, completedTasks, xp, first);
    PassInCatalogOrder(FirstPass, catalog, completedTasks, xp, u);
    SecondPassFacts(catalog, completedTasks, xp, first);
    var k := |first.awarded|;
    assert e.newly[..k] == first.awarded;
    assert e.newly[k..] == second.awarded;
  }

  /** The second pass runs only after a first-pass reward: when no
      first-pass award carries a positive reward, XP is unchanged and
      everything reported came from the first pass. */
  lemma SecondPassNeedsReward(catalog: seq<Achievement>, completedTasks: int, xp: int, u: seq<AchievementId>)
    requires forall k :: 0 <= k < |Pass(FirstPass, catalog, completedTasks, xp, u).awarded| ==>
      Pass(FirstPass, catalog, completedTasks, xp, u).awarded[k].xpReward <= 0
    ensures Evaluate(catalog, completedTasks, xp, u).xp == xp
    ensures Evaluate(catalog, completedTasks, xp, u).newly == Pass(FirstPass, catalog, completedTasks, xp, u).awarded
    ensures Evaluate(catalog, completedTasks, xp, u).unlocked == Pass(FirstPass, catalog, completedTasks, xp, u).unlocked
  {
    var first := Pass(FirstPass, catalog, completedTasks, xp, u);
    PassRows(FirstPass, catalog, completedTasks, xp, u);
    RewardSumZero(first.awarded);
    assert first.awarded + [] == first.awarded;
  }

  lemma {:induction false} RewardSumZero(s: seq<Achievement>)
    requires forall k :: 0 <= k < |s| ==> s[k].xpReward <= 0
    ensures RewardSum(s) == 0
  {
    if s != [] {
      RewardSumZero(s[..|s| - 1]);
    }
  }

  /** XP_EARNED achievements never unlock, in either pass. */
  lemma EvaluateNeverXpEarned(catalog: seq<Achievement>, completedTasks: int, xp: int, u: seq<AchievementId>)
    ensures forall k :: 0 <= k < |Evaluate(catalog, completedTasks, xp, u).newly| ==> Evaluate(catalog, completedTasks, xp, u).newly[k].criteriaType != XpEarned
  {
    var first := Pass(FirstPass, catalog, completedTasks, xp, u);
    var second := SecondPassOf(catalog, completedTasks, xp, first);
    PassAwardsEligible(FirstPass, catalog, completedTasks, xp, u);
    SecondPassFacts(catalog, completedTasks, xp, first);
    var newly := first.awarded + second.awarded;
    forall k | 0 <= k < |newly|
      ensures newly[k].criteriaType != XpEarned
    {
      if k >= |first.awarded| {
        assert newly[k] == second.awarded[k - |first.awarded|];
      }
    }
  }

  /** With distinct catalog ids, a TASKS_COMPLETED entry not linked
      beforehand is reported exactly when the completed-task count reaches
      its threshold. */
  lemma EvaluateTasksCompleted(catalog: seq<Achievement>, completedTasks: int, xp: int,
                               u: seq<AchievementId>, k: nat)
    requires DistinctIds(catalog) && k < |catalog| && catalog[k].id !in u
    requires catalog[k].criteriaType == TasksCompleted
    ensures catalog[k] in Evaluate(catalog, completedTasks, xp, u).newly <==> completedTasks >= catalog[k].criteriaValue
  {
    var a := catalog[k];
    var first := Pass(FirstPass, catalog, completedTasks, xp, u);
    PassAt(FirstPass, catalog, completedTasks, xp, u, k);
    SecondPassFacts(catalog, completedTasks, xp, first);
    assert a !in SecondPassOf(catalog, completedTasks, xp, first).awarded;
  }

  /** With distinct catalog ids, a LEVEL_REACHED entry not linked
      beforehand is reported exactly when either the first pass finds the
      level reached at the starting XP plus what earlier first-pass awards
      gained, or the first pass gained XP and the second pass finds the
      level reached at the XP after the first pass and the second-pass
      awards before it. */
  lemma EvaluateLevelReached(catalog: seq<Achievement>, completedTasks: int, xp: int,
                             u: seq<AchievementId>, k: nat)
    requires DistinctIds(catalog) && k < |catalog| && catalog[k].id !in u
    requires catalog[k].criteriaType == LevelReached
    ensures var first := Pass(FirstPass, catalog, completedTasks, xp, u);
      var xp1 := xp + first.gained;
      catalog[k] in Evaluate(catalog, completedTasks, xp, u).newly
      <==> Level(xp + Pass(FirstPass, catalog[..k], completedTasks, xp, u).gained) >= catalog[k].criteriaValue
           || (first.gained > 0
               && Level(xp1 + Pass(SecondPass, catalog[..k], completedTasks, xp1, first.unlocked).gained)
                  >= catalog[k].criteriaValue)
  {
    var a := catalog[k];
    var first := Pass(FirstPass, catalog, completedTasks, xp, u);
    EvaluateMember(catalog, completedTasks, xp, u, a);
    PassAt(FirstPass, catalog, completedTasks, xp, u, k);
    if first.gained > 0 && a !in first.awarded {
      FirstPassLeavesUnlinked(catalog, completedTasks, xp, u, k);
      PassAt(SecondPass, catalog, completedTasks, xp + first.gained, first.unlocked, k);
    }
  }

  /** An achievement is reported exactly when the first pass awards it or,
      after first-pass XP, the second pass does. */
  lemma EvaluateMember(catalog: seq<Achievement>, completedTasks: int, xp: int,
                       u: seq<AchievementId>, a: Achievement)
    ensures var first := Pass(FirstPass, catalog, completedTasks, xp, u);
      a in Evaluate(catalog, completedTasks, xp, u).newly
      <==> a in first.awarded
           || (first.gained > 0
               && a in Pass(SecondPass, catalog, completedTasks, xp + first.gained, first.unlocked).awarded)
  {
    var first := Pass(FirstPass, catalog, completedTasks, xp, u);
    var second := SecondPassOf(catalog, completedTasks, xp, first);
    assert a in first.awarded + second.awarded <==> a in first.awarded || a in second.awarded;
  }

  /** With distinct catalog ids, an entry not linked beforehand that the
      first pass does not award is still not linked after it. */
  lemma FirstPassLeavesUnlinked(catalog: seq<Achievement>, completedTasks: int, xp: int,
                                u: seq<AchievementId>, k: nat)
    requires DistinctIds(catalog) && k < |catalog| && catalog[k].id !in u
    requires catalog[k] !in Pass(FirstPass, catalog, completedTasks, xp, u).awarded
    ensures catalog[k].id !in Pass(FirstPass, catalog, completedTasks, xp, u).unlocked
  {
    var a := catalog[k];
    var first := Pass(FirstPass, catalog, completedTasks, xp, u);
    PassRows(FirstPass, catalog, completedTasks, xp, u);
    PassFromCatalog(FirstPass, catalog, completedTasks, xp, u);
    forall j | 0 <= j < |first.awarded|
      ensures first.awarded[j].id != a.id
    {
      var m :| 0 <= m < |catalog| && catalog[m] == first.awarded[j];
    }
    assert a.id !in Ids(first.awarded);
  }

  // ---------------------------------------------------------------------
  // Concrete runs
  // ---------------------------------------------------------------------

  /** The two-pass design is not a fixed point: a second-pass reward can
      lift the level past an entry that both passes had already rejected,
      so evaluating again on the result unlocks it. */
  lemma TwoPassesDoNotConverge()
    ensures var a := Achievement(1, "A", "", None, LevelReached, 3, 0);
      var b := Achievement(2, "B", "", None, LevelReached, 2, 100);
      var c := Achievement(3, "C", "", None, TasksCompleted, 1, 100);
      var e := Evaluate([a, b, c], 1, 0, []);
      e.newly == [c, b] && e.xp == 200
      && Evaluate([a, b, c], 1, e.xp, e.unlocked).newly == [a]
  {
    var a := Achievement(1, "A", "", None, LevelReached, 3, 0);
    var b := Achievement(2, "B", "", None, LevelReached, 2, 100);
    var c := Achievement(3, "C", "", None, TasksCompleted, 1, 100);
    var cat := [a, b, c];
    assert cat[..2] == [a, b] && [a, b][..1] == [a] && [a][..0] == [];
    assert Pass(FirstPass, [a], 1, 0, []) == PassResult([], 0, []);
    assert Pass(FirstPass, [a, b], 1, 0, []) == PassResult([], 0, []);
    assert Pass(FirstPass, cat, 1, 0, []) == PassResult([3], 100, [c]);
    assert Pass(SecondPass, [a], 1, 100, [3]) == PassResult([3], 0, []);
    assert Pass(SecondPass, [a, b], 1, 100, [3]) == PassResult([3, 2], 100, [b]);
    assert Pass(SecondPass, cat, 1, 100, [3]) == PassResult([3, 2], 100, [b]);
    assert Pass(FirstPass, [a], 1, 200, [3, 2]) == PassResult([3, 2, 1], 0, [a]);
    assert Pass(FirstPass, [a, b], 1, 200, [3, 2]) == PassResult([3, 2, 1], 0, [a]);
    assert Pass(FirstPass, cat, 1, 200, [3, 2]) == PassResult([3, 2, 1], 0, [a]);
  }

  /** The design's XP_EARNED criterion is not evaluated: with 90 XP, one
      completed task and a catalog of a TASKS_COMPLETED entry worth 60 XP
      and an XP_EARNED entry for 150 XP, the total reaches 150 but only the
      first entry unlocks. */
  lemma XpEarnedNotEvaluated()
    ensures var c := Achievement(1, "C", "", None, TasksCompleted, 1, 60);
      var d := Achievement(2, "D", "", None, XpEarned, 150, 0);
      var e := Evaluate([c, d], 1, 90, []);
      e.newly == [c] && e.xp == 150
  {
    var c := Achievement(1, "C", "", None, TasksCompleted, 1, 60);
    var d := Achievement(2, "D", "", None, XpEarned, 150, 0);
    assert [c, d][..1] == [c] && [c][..0] == [];
    assert Pass(FirstPass, [c], 1, 90, []) == PassResult([1], 60, [c]);
    assert Pass(FirstPass, [c, d], 1, 90, []) == PassResult([1], 60, [c]);
    assert Pass(SecondPass, [c], 1, 150, [1]) == PassResult([1], 0, []);
    assert Pass(SecondPass, [c, d], 1, 150, [1]) == PassResult([1], 0, []);
  }

  /** An achievement created with only its required fields is a
      TASKS_COMPLETED achievement without reward: awarding it adds no XP,
      and it qualifies exactly when the completed-task count reaches its
      threshold. */
  lemma DefaultAchievement(id: AchievementId, name: string, description: string, criteriaValue: int,
                           completedTasks: int, xp: int)
    ensures var a := NewAchievement(id, name, description, criteriaValue);
      Bonus(a) == 0 && (Qualifies(a, completedTasks, xp) <==> completedTasks >= criteriaValue)
  {
  }
}
