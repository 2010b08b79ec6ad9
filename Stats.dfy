/** The aggregates of the statistics view: window averages, the current streak,
    successful days and success rate, total volume and total entry count. */
module Stats {
  import opened Records
  import opened Percent

  /** The sum of the day totals, `history.reduce((sum, day) => sum + day.total, 0)`. When no
      total is negative, the sum is at least every single day's total. */
  function TotalVolume(history: seq<DayData>): (v: int)
    ensures (forall i :: 0 <= i < |history| ==> history[i].total >= 0) ==>
      v >= 0 && forall i :: 0 <= i < |history| ==> history[i].total <= v
  {
    if history == [] then 0
    else
      var init := history[..|history| - 1];
      assert forall i :: 0 <= i < |init| ==> init[i] == history[i];
      TotalVolume(init) + history[|history| - 1].total
  }

  /** The number of entries over all days, `history.reduce((sum, day) => sum + day.entries.length, 0)`:
      0 exactly when no record holds an entry, and at least the entry count of every record. */
  function TotalEntries(history: seq<DayData>): (n: nat)
    ensures n == 0 <==> forall i :: 0 <= i < |history| ==> |history[i].entries| == 0
    ensures forall i :: 0 <= i < |history| ==> |history[i].entries| <= n
  {
    if history == [] then 0
    else
      var init := history[..|history| - 1];
      assert forall i :: 0 <= i < |init| ==> init[i] == history[i];
      TotalEntries(init) + |history[|history| - 1].entries|
  }

  /** Total volume is additive over concatenated stores. */
  lemma {:induction false} TotalVolumeConcat(a: seq<DayData>, b: seq<DayData>)
    ensures TotalVolume(a + b) == TotalVolume(a) + TotalVolume(b)
  {
    if b == [] {
      assert a + b == a;
    } else {
      assert (a + b)[..|a + b| - 1] == a + b[..|b| - 1];
      TotalVolumeConcat(a, b[..|b| - 1]);
    }
  }

  /** A single record contributes exactly its number of entries. */
  lemma TotalEntriesOfOne(d: DayData)
    ensures TotalEntries([d]) == |d.entries|
  {
  }

  /** Total entry count is additive over concatenated stores. */
  lemma {:induction false} TotalEntriesConcat(a: seq<DayData>, b: seq<DayData>)
    ensures TotalEntries(a + b) == TotalEntries(a) + TotalEntries(b)
  {
    if b == [] {
      assert a + b == a;
    } else {
      assert (a + b)[..|a + b| - 1] == a + b[..|b| - 1];
      TotalEntriesConcat(a, b[..|b| - 1]);
    }
  }

  /** When every day agrees with its entries, the total volume is the sum of all entry amounts. */
  lemma {:induction false} TotalVolumeOfConsistentStore(history: seq<DayData>)
    requires AllConsistent(history)
    ensures TotalVolume(history) == AllEntriesSum(history)
  {
    if history != [] {
      TotalVolumeOfConsistentStore(history[..|history| - 1]);
      assert Consistent(history[|history| - 1]);
    }
  }

  function AllEntriesSum(history: seq<DayData>): int
  {
    if history == [] then 0
    else AllEntriesSum(history[..|history| - 1]) + EntrySum(history[|history| - 1].entries)
  }

  /** `history.slice(-n)`: the last `n` records, or all of them when there are fewer. */
  function LastDays(history: seq<DayData>, n: nat): (w: seq<DayData>)
    requires n > 0
    ensures |w| == if |history| < n then |history| else n
    ensures w == history[|history| - |w|..]
  {
    history[if |history| > n then |history| - n else 0..]
  }

  /** The rounded mean total of the last `n` records: the whole number nearest to the
      window's mean, halves upward; 0 when the store is empty. */
  function WindowAverage(history: seq<DayData>, n: nat): (a: int)
    requires n > 0
    ensures history == [] ==> a == 0
    ensures var w := LastDays(history, n);
      w != [] ==> 2 * |w| * a <= 2 * TotalVolume(w) + |w| < 2 * |w| * (a + 1)
  {
    var window := LastDays(history, n);
    if |window| > 0 then RoundDiv(TotalVolume(window), |window|) else 0
  }

  /** The 7-day average: 0 for an empty store, else within the last seven records' totals. */
  function WeeklyAverage(history: seq<DayData>): (a: int)
    ensures history == [] ==> a == 0
    ensures history != [] ==> MinTotal(LastDays(history, 7)) <= a <= MaxTotal(LastDays(history, 7))
  {
    WindowAverageBounds(history, 7);
    WindowAverage(history, 7)
  }

  /** The 30-day average: 0 for an empty store, else within the last thirty records' totals. */
  function MonthlyAverage(history: seq<DayData>): (a: int)
    ensures history == [] ==> a == 0
    ensures history != [] ==> MinTotal(LastDays(history, 30)) <= a <= MaxTotal(LastDays(history, 30))
  {
    WindowAverageBounds(history, 30);
    WindowAverage(history, 30)
  }

  function MinTotal(w: seq<DayData>): (m: int)
    requires w != []
    ensures forall i :: 0 <= i < |w| ==> m <= w[i].total
    ensures exists i :: 0 <= i < |w| && m == w[i].total
  {
    if |w| == 1 then w[0].total
    else
      var m := MinTotal(w[..|w| - 1]);
      var last := w[|w| - 1].total;
      assert forall i :: 0 <= i < |w| - 1 ==> w[..|w| - 1][i] == w[i];
      if m <= last then m else last
  }

  function MaxTotal(w: seq<DayData>): (m: int)
    requires w != []
    ensures forall i :: 0 <= i < |w| ==> w[i].total <= m
    ensures exists i :: 0 <= i < |w| && m == w[i].total
  {
    if |w| == 1 then w[0].total
    else
      var m := MaxTotal(w[..|w| - 1]);
      var last := w[|w| - 1].total;
      assert forall i :: 0 <= i < |w| - 1 ==> w[..|w| - 1][i] == w[i];
      if m >= last then m else last
  }

  /** The sum of the totals lies between `|w|` times the smallest and `|w|` times the largest total. */
  lemma {:induction false} TotalVolumeBetween(w: seq<DayData>, lo: int, hi: int)
    requires forall i :: 0 <= i < |w| ==> lo <= w[i].total <= hi
    ensures |w| * lo <= TotalVolume(w) <= |w| * hi
  {
    if w != [] {
      var init, last := w[..|w| - 1], w[|w| - 1].total;
      assert forall i :: 0 <= i < |init| ==> init[i] == w[i];
      TotalVolumeBetween(init, lo, hi);
      assert TotalVolume(w) == TotalVolume(init) + last;
      assert lo <= last <= hi;
      MulSucc(|init|, lo);
      MulSucc(|init|, hi);
    }
  }

  lemma MulSucc(n: nat, x: int)
    ensures (n + 1) * x == n * x + x
  {
  }

  /** An empty store averages to 0; otherwise the average lies within the window's totals. */
  lemma WindowAverageBounds(history: seq<DayData>, n: nat)
    requires n > 0
    ensures history == [] ==> WindowAverage(history, n) == 0
    ensures history != [] ==>
      MinTotal(LastDays(history, n)) <= WindowAverage(history, n) <= MaxTotal(LastDays(history, n))
  {
    var window := LastDays(history, n);
    if history != [] {
      var lo, hi := MinTotal(window), MaxTotal(window);
      TotalVolumeBetween(window, lo, hi);
      RoundDivBetween(TotalVolume(window), |window|, lo, hi);
    }
  }

  /** A window whose days all have the same total averages to exactly that total. */
  lemma WindowAverageOfEvenDays(history: seq<DayData>, n: nat, t: int)
    requires n > 0 && history != []
    requires forall i :: 0 <= i < |history| ==> history[i].total == t
    ensures WindowAverage(history, n) == t
  {
    var window := LastDays(history, n);
    assert forall i :: 0 <= i < |window| ==> window[i] == history[|history| - |window| + i];
    TotalVolumeBetween(window, t, t);
    RoundDivBetween(TotalVolume(window), |window|, t, t);
  }

  /** The current streak: how many records, counted back from the most recent one, meet the goal. */
  function Streak(history: seq<DayData>, dailyGoal: int): (k: nat)
    ensures k <= |history|
  {
    if history == [] || history[|history| - 1].total < dailyGoal then 0
    else Streak(history[..|history| - 1], dailyGoal) + 1
  }

  /** The last `k` records meet the goal, and the one before them (if any) does not. */
  predicate IsStreakOf(history: seq<DayData>, dailyGoal: int, k: nat)
  {
    && k <= |history|
    && (forall i :: |history| - k <= i < |history| ==> history[i].total >= dailyGoal)
    && (k == |history| || history[|history| - k - 1].total < dailyGoal)
  }

  /** `Streak` returns `k` exactly when `k` is the length of the run of goal-meeting records at the end. */
  lemma StreakCharacterization(history: seq<DayData>, dailyGoal: int, k: nat)
    ensures Streak(history, dailyGoal) == k <==> IsStreakOf(history, dailyGoal, k)
  {
    StreakIsStreakOf(history, dailyGoal);
    if IsStreakOf(history, dailyGoal, k) {
      IsStreakOfIsStreak(history, dailyGoal, k);
    }
  }

  lemma {:induction false} StreakIsStreakOf(history: seq<DayData>, dailyGoal: int)
    ensures IsStreakOf(history, dailyGoal, Streak(history, dailyGoal))
  {
    if history != [] && history[|history| - 1].total >= dailyGoal {
      var init := history[..|history| - 1];
      StreakIsStreakOf(init, dailyGoal);
      assert forall i :: 0 <= i < |init| ==> init[i] == history[i];
    }
  }

  lemma {:induction false} IsStreakOfIsStreak(history: seq<DayData>, dailyGoal: int, k: nat)
    requires IsStreakOf(history, dailyGoal, k)
    ensures Streak(history, dailyGoal) == k
  {
    if k > 0 {
      var init := history[..|history| - 1];
      assert history[|history| - 1].total >= dailyGoal;
      assert forall i :: 0 <= i < |init| ==> init[i] == history[i];
      IsStreakOfIsStreak(init, dailyGoal, k - 1);
    }
  }

  /** An empty store, or one whose most recent record misses the goal, has no streak. */
  lemma StreakZero(history: seq<DayData>, dailyGoal: int)
    ensures Streak(history, dailyGoal) == 0 <==>
      (history == [] || history[|history| - 1].total < dailyGoal)
  {
  }

  /** Seven goal-meeting records at the end preceded by one that misses it give a streak of 7. */
  lemma StreakOfSeven(history: seq<DayData>, dailyGoal: int)
    requires |history| >= 8
    requires forall i :: |history| - 7 <= i < |history| ==> history[i].total >= dailyGoal
    requires history[|history| - 8].total < dailyGoal
    ensures Streak(history, dailyGoal) == 7
  {
    StreakCharacterization(history, dailyGoal, 7);
  }

  /** The streak reaches `m` exactly when the last `m` records all meet the goal. */
  lemma {:induction false} StreakAtLeast(history: seq<DayData>, dailyGoal: int, m: nat)
    ensures Streak(history, dailyGoal) >= m <==>
      m <= |history| && forall i :: |history| - m <= i < |history| ==> history[i].total >= dailyGoal
  {
    StreakIsStreakOf(history, dailyGoal);
    if m <= |history| && forall i :: |history| - m <= i < |history| ==> history[i].total >= dailyGoal {
      LastMeetingStreak(history, dailyGoal, m);
    }
  }

  lemma {:induction false} LastMeetingStreak(history: seq<DayData>, dailyGoal: int, m: nat)
    requires m <= |history|
    requires forall i :: |history| - m <= i < |history| ==> history[i].total >= dailyGoal
    ensures Streak(history, dailyGoal) >= m
  {
    if m > 0 {
      var init := history[..|history| - 1];
      assert history[|history| - 1].total >= dailyGoal;
      assert forall i :: 0 <= i < |init| ==> init[i] == history[i];
      LastMeetingStreak(init, dailyGoal, m - 1);
    }
  }

  /** `calculateStreak`: walks a reversed copy of the store from the most recent record
      and stops at the first one that misses the goal. */
  method CalculateStreak(history: seq<DayData>, dailyGoal: int) returns (streak: nat)
    ensures streak == Streak(history, dailyGoal)
  {
    streak := 0;
    var sortedHistory := Reverse(history);
    var i := 0;
    assert history[..|history|] == history;
    while i < |sortedHistory|
      invariant 0 <= i <= |sortedHistory| && streak == i
      invariant Streak(history, dailyGoal) == streak + Streak(history[..|history| - i], dailyGoal)
    {
      var day := sortedHistory[i];
      assert day == history[..|history| - i][|history| - i - 1];
      assert history[..|history| - i][..|history| - i - 1] == history[..|history| - i - 1];
      if day.total >= dailyGoal {
        streak := streak + 1;
      } else {
        break;
      }
      i := i + 1;
    }
  }

  /** `history.filter(day => day.total >= dailyGoal).length`. */
  function SuccessfulDays(history: seq<DayData>, dailyGoal: int): (n: nat)
    ensures n <= |history|
  {
    if history == [] then 0
    else SuccessfulDays(history[..|history| - 1], dailyGoal)
         + (if history[|history| - 1].total >= dailyGoal then 1 else 0)
  }

  /** A single record is one successful day when it meets the goal and none otherwise. */
  lemma SuccessfulDaysOfOne(d: DayData, dailyGoal: int)
    ensures SuccessfulDays([d], dailyGoal) == if d.total >= dailyGoal then 1 else 0
  {
  }

  /** The count of successful days is additive over concatenated stores. */
  lemma {:induction false} SuccessfulDaysConcat(a: seq<DayData>, b: seq<DayData>, dailyGoal: int)
    ensures SuccessfulDays(a + b, dailyGoal) == SuccessfulDays(a, dailyGoal) + SuccessfulDays(b, dailyGoal)
  {
    if b == [] {
      assert a + b == a;
    } else {
      assert (a + b)[..|a + b| - 1] == a + b[..|b| - 1];
      SuccessfulDaysConcat(a, b[..|b| - 1], dailyGoal);
    }
  }

  /** Every record meets the goal exactly when every record is a successful day;
      no record meets it exactly when there are no successful days. */
  lemma {:induction false} SuccessfulDaysExtremes(history: seq<DayData>, dailyGoal: int)
    ensures SuccessfulDays(history, dailyGoal) == |history| <==>
      forall i :: 0 <= i < |history| ==> history[i].total >= dailyGoal
    ensures SuccessfulDays(history, dailyGoal) == 0 <==>
      forall i :: 0 <= i < |history| ==> history[i].total < dailyGoal
  {
    if history != [] {
      var init := history[..|history| - 1];
      SuccessfulDaysExtremes(init, dailyGoal);
      assert forall i :: 0 <= i < |init| ==> init[i] == history[i];
    }
  }

  /** The streak counts successful days only, so it never exceeds their number. */
  lemma {:induction false} StreakAtMostSuccessfulDays(history: seq<DayData>, dailyGoal: int)
    ensures Streak(history, dailyGoal) <= SuccessfulDays(history, dailyGoal)
  {
    if history != [] {
      StreakAtMostSuccessfulDays(history[..|history| - 1], dailyGoal);
    }
  }

  /** `Math.round(successfulDays / totalDays * 100)`, or 0 for an empty store: the whole
      percentage nearest to the share of successful days, halves upward. */
  function SuccessRate(history: seq<DayData>, dailyGoal: int): (rate: int)
    ensures 0 <= rate <= 100
    ensures history == [] ==> rate == 0
    ensures |history| > 0 ==>
      2 * |history| * rate <= 200 * SuccessfulDays(history, dailyGoal) + |history| < 2 * |history| * (rate + 1)
  {
    if |history| > 0 then
      var n := SuccessfulDays(history, dailyGoal);
      RoundDivBetween(100 * n, |history|, 0, 100);
      RoundDiv(100 * n, |history|)
    else 0
  }

  /** The success rate is 100 when every record meets the goal and 0 when none does. */
  lemma SuccessRateExtremes(history: seq<DayData>, dailyGoal: int)
    ensures (forall i :: 0 <= i < |history| ==> history[i].total >= dailyGoal) && history != [] ==>
      SuccessRate(history, dailyGoal) == 100
    ensures (forall i :: 0 <= i < |history| ==> history[i].total < dailyGoal) ==>
      SuccessRate(history, dailyGoal) == 0
  {
    SuccessfulDaysExtremes(history, dailyGoal);
    if history != [] {
      var n := SuccessfulDays(history, dailyGoal);
      if n == |history| {
        RoundDivBetween(100 * n, |history|, 100, 100);
      }
      if n == 0 {
        RoundDivBetween(0, |history|, 0, 0);
      }
    }
  }
}
