/** The achievement badges: six fixed badges, each unlocked by a threshold on a metric of
    the store, recomputed from the current data on every render. */
module Achievements {
  import opened Records
  import opened Percent
  import opened Stats
  import Tracker
  import History

  /** A badge as the view builds it; `progress` is absent for the first badge. */
  datatype Achievement = Achievement(id: string, unlocked: bool, progress: Option<Ratio>)

  const CatalogueIds: seq<string> :=
    ["first-drop", "goal-reached", "week-streak", "hydration-master", "liter-champion", "consistency"]

  /** The badge view's own copy of `calculateStreak`, the same loop as the statistics view's. */
  method CalculateStreak(history: seq<DayData>, dailyGoal: int) returns (streak: nat)
    ensures streak == Streak(history, dailyGoal)
  {
    streak := 0;
    var sortedHistory := Reverse(history);
    var i := 0;
    assert history[..|history|] == history;
    while i < |sortedHistory|
      invariant 0 <= i <= |sortedHistory| && streak == i
      invariant Streak(history, dailyGoal) == streak + Streak(history[..|history| - i], dailyGoal)
    {
      var day := sortedHistory[i];
      assert day == history[..|history| - i][|history| - i - 1];
      assert history[..|history| - i][..|history| - i - 1] == history[..|history| - i - 1];
      if day.total >= dailyGoal {
        streak := streak + 1;
      } else {
        break;
      }
      i := i + 1;
    }
  }

  /** The `achievements` array for the given intake, goal and store. */
  function Catalogue(currentIntake: int, dailyGoal: int, history: seq<DayData>): (r: seq<Achievement>)
    requires dailyGoal != 0
    ensures |r| == |CatalogueIds|
    ensures forall i :: 0 <= i < |r| ==> r[i].id == CatalogueIds[i]
    ensures r[0].progress.None?
    ensures forall i :: 1 <= i < |r| ==>
      r[i].progress.Some? && r[i].progress.value.den > 0 && r[i].progress.value.num <= 100 * r[i].progress.value.den
  {
    var streak := Streak(history, dailyGoal);
    var totalDays := |history|;
    var successfulDays := SuccessfulDays(history, dailyGoal);
    var totalWater := TotalVolume(history);
    [ Achievement("first-drop", |history| > 0, None),
      Achievement("goal-reached", currentIntake >= dailyGoal, Some(CappedPercent(currentIntake, dailyGoal))),
      Achievement("week-streak", streak >= 7, Some(CappedPercent(streak, 7))),
      Achievement("hydration-master", successfulDays >= 30, Some(CappedPercent(successfulDays, 30))),
      Achievement("liter-champion", totalWater >= 100000, Some(CappedPercent(totalWater, 100000))),
      Achievement("consistency", totalDays >= 14, Some(CappedPercent(totalDays, 14))) ]
  }

  /** The badges the application shows for its current state; its goal is never 0. */
  function Badges(app: Tracker.App, today: string): (r: seq<Achievement>)
    reads app
    requires app.Valid()
    ensures |r| == |CatalogueIds|
    ensures r[1].unlocked <==> app.CurrentIntake(today) >= app.dailyGoal
    ensures forall i :: 1 <= i < |r| ==> r[i].progress.Some? && r[i].progress.value.num <= 100 * r[i].progress.value.den
  {
    Catalogue(app.CurrentIntake(today), app.dailyGoal, app.history)
  }

  /** The badge card shows a progress bar only for a locked badge that has a progress. */
  predicate ShowsProgress(a: Achievement): (shown: bool)
    ensures shown ==> !a.unlocked && a.progress.Some?
    ensures a.unlocked ==> !shown
  {
    !a.unlocked && a.progress.Some?
  }

  /** Each badge is unlocked exactly when its metric reaches its target. */
  lemma UnlockRules(currentIntake: int, dailyGoal: int, history: seq<DayData>)
    requires dailyGoal != 0
    ensures var r := Catalogue(currentIntake, dailyGoal, history);
      && (r[0].unlocked <==> history != [])
      && (r[1].unlocked <==> currentIntake >= dailyGoal)
      && (r[2].unlocked <==> Streak(history, dailyGoal) >= 7)
      && (r[3].unlocked <==> SuccessfulDays(history, dailyGoal) >= 30)
      && (r[4].unlocked <==> TotalVolume(history) >= 100000)
      && (r[5].unlocked <==> |history| >= 14)
  {
  }

  /** For every badge with a fixed target, and for the goal badge under a positive goal, the
      progress is full exactly when the badge is unlocked. */
  lemma ProgressFullIffUnlocked(currentIntake: int, dailyGoal: int, history: seq<DayData>, i: nat)
    requires dailyGoal != 0 && (i == 1 ==> dailyGoal > 0) && 1 <= i < |CatalogueIds|
    ensures var a := Catalogue(currentIntake, dailyGoal, history)[i];
      Full(a.progress.value) <==> a.unlocked
  {
  }

  /** A progress bar appears exactly on the locked badges after the first, and what it shows
      is strictly below 100 percent. */
  lemma ProgressShownOnlyWhenLocked(currentIntake: int, dailyGoal: int, history: seq<DayData>, i: nat)
    requires dailyGoal != 0 && (i == 1 ==> dailyGoal > 0) && i < |CatalogueIds|
    ensures var a := Catalogue(currentIntake, dailyGoal, history)[i];
      && (ShowsProgress(a) <==> i >= 1 && !a.unlocked)
      && (ShowsProgress(a) ==> a.progress.value.num < 100 * a.progress.value.den)
  {
  }

  /** Under a negative goal, which only an import can set, an intake below the goal leaves the
      goal badge locked while its progress is full: the card shows a bar printing 100. */
  lemma NegativeGoalLockedAtHundred(currentIntake: int, dailyGoal: int, history: seq<DayData>)
    requires dailyGoal < 0 && currentIntake < dailyGoal
    ensures var a := Catalogue(currentIntake, dailyGoal, history)[1];
      && !a.unlocked
      && ShowsProgress(a)
      && Full(a.progress.value)
      && Displayed(a.progress.value) == 100
  {
    GoalBadgeOf(currentIntake, dailyGoal, history);
    DisplayedBounds(CappedPercent(currentIntake, dailyGoal));
  }

  /** The week badge is unlocked exactly when the seven most recent records all meet the goal. */
  lemma WeekStreakUnlocked(currentIntake: int, dailyGoal: int, history: seq<DayData>)
    requires dailyGoal != 0
    ensures Catalogue(currentIntake, dailyGoal, history)[2].unlocked <==>
      |history| >= 7 && forall i :: |history| - 7 <= i < |history| ==> history[i].total >= dailyGoal
  {
    StreakAtLeast(history, dailyGoal, 7);
  }

  /** Thirty records that all meet the goal unlock the mastery badge with full progress. */
  lemma HydrationMasterOnThirtyDays(currentIntake: int, dailyGoal: int, history: seq<DayData>)
    requires dailyGoal != 0 && |history| >= 30
    requires forall i :: 0 <= i < |history| ==> history[i].total >= dailyGoal
    ensures Catalogue(currentIntake, dailyGoal, history)[3].unlocked
    ensures Full(Catalogue(currentIntake, dailyGoal, history)[3].progress.value)
  {
    SuccessfulDaysExtremes(history, dailyGoal);
  }

  /** Unlocks are not stored: deleting the only entry of a one-day store locks the first badge again. */
  lemma UnlockIsNotSticky(currentIntake: int, dailyGoal: int, e: WaterEntry, date: string)
    requires dailyGoal != 0
    ensures var before := [DayData(date, e.amount, [e])];
      var after := History.WithoutEntry(before, date, e.id);
      && Catalogue(currentIntake, dailyGoal, before)[0].unlocked
      && !Catalogue(currentIntake, dailyGoal, after)[0].unlocked
  {
  }

  /** Rounding can print "100%" on a badge that is still locked: 99950 ml of the 100000 ml
      target is 99.95 percent, which `Math.round` shows as 100. */
  lemma LockedBadgeCanPrintHundred(e: WaterEntry, date: string)
    requires e.amount == 99950
    ensures var a := Catalogue(0, 2000, [DayData(date, 99950, [e])])[4];
      && ShowsProgress(a)
      && Displayed(a.progress.value) == 100
  {
    var history := [DayData(date, 99950, [e])];
    assert TotalVolume(history) == TotalVolume([]) + 99950;
  }

  /** The goal badge depends on the intake and the goal only. */
  lemma GoalBadgeOf(currentIntake: int, dailyGoal: int, history: seq<DayData>)
    requires dailyGoal != 0
    ensures Catalogue(currentIntake, dailyGoal, history)[1]
      == Achievement("goal-reached", currentIntake >= dailyGoal, Some(CappedPercent(currentIntake, dailyGoal)))
  {
  }

  /** Logging 500, 750 and 1000 ml on a fresh day against a 2000 ml goal brings today's intake
      to 2250 and unlocks the goal badge with full progress. */
  lemma GoalReachedAfterThreeDrinks(history: seq<DayData>, today: string, e1: WaterEntry, e2: WaterEntry, e3: WaterEntry)
    requires forall j :: 0 <= j < |history| ==> history[j].date != today
    requires e1.amount == 500 && e2.amount == 750 && e3.amount == 1000
    ensures var h := Tracker.AddWaterTo(Tracker.AddWaterTo(Tracker.AddWaterTo(history, today, e1), today, e2), today, e3);
      var intake := Tracker.IntakeOn(h, today);
      && intake == 2250
      && Catalogue(intake, 2000, h)[1].unlocked
      && Full(Catalogue(intake, 2000, h)[1].progress.value)
      && Displayed(Tracker.ProgressPercentage(intake, 2000)) == 100
  {
    var h1 := Tracker.AddWaterTo(history, today, e1);
    var h2 := Tracker.AddWaterTo(h1, today, e2);
    var h3 := Tracker.AddWaterTo(h2, today, e3);
    Tracker.IntakeAfterAddWater(history, today, e1);
    Tracker.IntakeAfterAddWater(h1, today, e2);
    Tracker.IntakeAfterAddWater(h2, today, e3);
    assert Tracker.IntakeOn(h3, today) == 2250;
    GoalBadgeOf(2250, 2000, h3);
    DisplayedBounds(Tracker.ProgressPercentage(2250, 2000));
  }
}
