/** The tracker screen: the application state (the store and the daily goal), logging a
    drink, today's intake, what remains of the goal and the progress toward it. */
module Tracker {
  import opened Records
  import opened Percent

  /** `String(n)` for a non-negative whole number: its decimal digits, most significant first. */
  function DecimalString(n: nat): (s: string)
    ensures |s| > 0
    ensures forall i :: 0 <= i < |s| ==> '0' <= s[i] <= '9'
  {
    var digit := ['0' + ((n % 10) as char)];
    if n < 10 then digit else DecimalString(n / 10) + digit
  }

  /** The number a string of decimal digits denotes, most significant digit first. */
  function DigitsValue(s: string): nat
    requires forall i :: 0 <= i < |s| ==> '0' <= s[i] <= '9'
  {
    if s == [] then 0
    else DigitsValue(s[..|s| - 1]) * 10 + (s[|s| - 1] as int - '0' as int)
  }

  /** The digits of `n` denote `n`. */
  lemma {:induction false} DecimalStringValue(n: nat)
    ensures DigitsValue(DecimalString(n)) == n
  {
    var digit := ['0' + ((n % 10) as char)];
    if n >= 10 {
      var prefix := DecimalString(n / 10);
      DecimalStringValue(n / 10);
      assert (prefix + digit)[..|prefix + digit| - 1] == prefix;
    }
  }

  /** Distinct clock readings give distinct ids. */
  lemma DecimalStringInjective(a: nat, b: nat)
    ensures DecimalString(a) == DecimalString(b) ==> a == b
  {
    DecimalStringValue(a);
    DecimalStringValue(b);
  }

  /** The entry logged at clock reading `now`: its id is `now.toString()`, so the id denotes the
      reading and drinks logged at different readings have different ids. */
  function NewEntry(amount: int, now: nat): (e: WaterEntry)
    ensures e.amount == amount && e.timestamp == now
    ensures (forall i :: 0 <= i < |e.id| ==> '0' <= e.id[i] <= '9') && DigitsValue(e.id) == now
  {
    DecimalStringValue(now);
    WaterEntry(DecimalString(now), amount, now)
  }

  /** `history.find(day => day.date === date)`, as the index of the first record with that date. */
  function FindDay(history: seq<DayData>, date: string): (r: Option<nat>)
    ensures r.Some? ==> r.value < |history| && history[r.value].date == date
    ensures r.Some? ==> forall j :: 0 <= j < r.value ==> history[j].date != date
    ensures r.None? <==> forall j :: 0 <= j < |history| ==> history[j].date != date
  {
    if history == [] then None
    else if history[0].date == date then Some(0)
    else match FindDay(history[1..], date)
      case None => None
      case Some(k) => Some(k + 1)
  }

  /** Today's intake: the total of the first record dated `today`, or 0 when there is none
      (`todayData?.total || 0`; a total of 0 yields 0 either way). */
  function IntakeOn(history: seq<DayData>, today: string): (r: int)
    ensures (forall j :: 0 <= j < |history| ==> history[j].date != today) ==> r == 0
    ensures forall k ::
      (0 <= k < |history| && history[k].date == today && forall j :: 0 <= j < k ==> history[j].date != today)
      ==> r == history[k].total
  {
    match FindDay(history, today)
    case None => 0
    case Some(k) => history[k].total
  }

  /** A day record with `entry` logged into it: the amount added to the total, the entry appended.
      A record whose total agrees with its entries still does. */
  function Merge(day: DayData, entry: WaterEntry): (r: DayData)
    ensures r.date == day.date
    ensures EntrySum(r.entries) == EntrySum(day.entries) + entry.amount
    ensures Consistent(day) ==> Consistent(r)
  {
    EntrySumAppend(day.entries, entry);
    day.(total := day.total + entry.amount, entries := day.entries + [entry])
  }

  /** The store after logging `entry` on `today`: every record of that day takes the entry,
      or, when there is none, a new record for the day goes at the end. Either way the store
      grows by at most one record and afterwards holds a record for `today`. */
  function AddWaterTo(history: seq<DayData>, today: string, entry: WaterEntry): (r: seq<DayData>)
    ensures |history| <= |r| <= |history| + 1
    ensures exists i :: 0 <= i < |r| && r[i].date == today
  {
    if FindDay(history, today).Some? then
      var r := seq(|history|, i requires 0 <= i < |history| =>
        if history[i].date == today then Merge(history[i], entry) else history[i]);
      assert r[FindDay(history, today).value].date == today;
      r
    else
      var r := history + [DayData(today, entry.amount, [entry])];
      assert r[|history|].date == today;
      r
  }

  /** With a record for `today` present, the store keeps its length and every record of that
      day gains `entry.amount` and exactly one entry, appended at the end. */
  lemma AddWaterToExistingDay(history: seq<DayData>, today: string, entry: WaterEntry)
    requires exists j :: 0 <= j < |history| && history[j].date == today
    ensures |AddWaterTo(history, today, entry)| == |history|
    ensures forall i :: 0 <= i < |history| && history[i].date == today ==>
      var day := AddWaterTo(history, today, entry)[i];
      && day.date == today
      && day.total == history[i].total + entry.amount
      && day.entries == history[i].entries + [entry]
  {
  }

  /** Without a record for `today`, exactly one new record `{today, amount, [entry]}` is appended. */
  lemma AddWaterNewDay(history: seq<DayData>, today: string, entry: WaterEntry)
    requires forall j :: 0 <= j < |history| ==> history[j].date != today
    ensures AddWaterTo(history, today, entry) == history + [DayData(today, entry.amount, [entry])]
    ensures |AddWaterTo(history, today, entry)| == |history| + 1
  {
  }

  /** Records of other days keep their value and their position. */
  lemma AddWaterKeepsOtherDays(history: seq<DayData>, today: string, entry: WaterEntry)
    ensures |AddWaterTo(history, today, entry)| >= |history|
    ensures forall i :: 0 <= i < |history| && history[i].date != today ==>
      AddWaterTo(history, today, entry)[i] == history[i]
  {
  }

  /** Logging a drink preserves `total == sum of entry amounts` on every record. */
  lemma AddWaterKeepsConsistency(history: seq<DayData>, today: string, entry: WaterEntry)
    requires AllConsistent(history)
    ensures AllConsistent(AddWaterTo(history, today, entry))
  {
    var r := AddWaterTo(history, today, entry);
    forall i | 0 <= i < |r|
      ensures Consistent(r[i])
    {
      if i < |history| && history[i].date == today && FindDay(history, today).Some? {
        assert Consistent(history[i]);
        EntrySumAppend(history[i].entries, entry);
      } else if i == |history| {
        EntrySumAppend([], entry);
      } else {
        assert Consistent(history[i]);
      }
    }
  }

  /** After logging, today's intake is the earlier intake plus the logged amount. */
  lemma IntakeAfterAddWater(history: seq<DayData>, today: string, entry: WaterEntry)
    ensures IntakeOn(AddWaterTo(history, today, entry), today) == IntakeOn(history, today) + entry.amount
  {
    var r := AddWaterTo(history, today, entry);
    match FindDay(history, today)
    case None =>
      assert r[|history|].date == today;
      assert forall j :: 0 <= j < |history| ==> r[j].date != today;
    case Some(k) =>
      assert r[k].date == today && r[k].total == history[k].total + entry.amount;
      assert forall j :: 0 <= j < k ==> r[j].date != today;
  }

  /** `Math.max(0, dailyGoal - currentIntake)`: the volume still to drink today. */
  function Remaining(currentIntake: int, dailyGoal: int): (r: int)
    ensures r >= 0
    ensures r == 0 <==> currentIntake >= dailyGoal
    ensures r > 0 ==> currentIntake + r == dailyGoal
  {
    if dailyGoal - currentIntake > 0 then dailyGoal - currentIntake else 0
  }

  /** `Math.min(100, (currentIntake / dailyGoal) * 100)`: at most 100 percent, and for a
      positive goal full exactly when the intake reaches the goal. */
  function ProgressPercentage(currentIntake: int, dailyGoal: int): (p: Ratio)
    requires dailyGoal != 0
    ensures p.den > 0 && p.num <= 100 * p.den
    ensures dailyGoal > 0 ==> (Full(p) <==> currentIntake >= dailyGoal)
    ensures dailyGoal > 0 && currentIntake >= 0 ==> p.num >= 0
  {
    CappedPercent(currentIntake, dailyGoal)
  }

  /** For a positive goal the progress ring is full exactly when nothing remains to drink,
      and the progress never exceeds 100 percent. */
  lemma ProgressFullIffNothingRemains(currentIntake: int, dailyGoal: int)
    requires dailyGoal > 0
    ensures ProgressPercentage(currentIntake, dailyGoal).num <= 100 * ProgressPercentage(currentIntake, dailyGoal).den
    ensures Full(ProgressPercentage(currentIntake, dailyGoal)) <==> Remaining(currentIntake, dailyGoal) == 0
  {
  }

  /** The state the tracker screen owns: the daily goal and the store. */
  class App {
    var dailyGoal: int
    var history: seq<DayData>

    /** The goal is never 0: it starts at 2000, saving accepts only 1..10000 and
        importing rejects a falsy goal. */
    ghost predicate Valid()
      reads this
    {
      dailyGoal != 0
    }

    constructor ()
      ensures Valid() && dailyGoal == 2000 && history == []
    {
      dailyGoal := 2000;
      history := [];
    }

    /** Today's intake as the screen shows it, recomputed whenever the store changes. */
    function CurrentIntake(today: string): int
      reads this
    {
      IntakeOn(history, today)
    }

    /** The progress ring of the tracker screen; the goal it divides by is never 0. */
    function Progress(today: string): (p: Ratio)
      reads this
      requires Valid()
      ensures p.den > 0 && p.num <= 100 * p.den
      ensures dailyGoal > 0 ==> (Full(p) <==> Remaining(CurrentIntake(today), dailyGoal) == 0)
    {
      ProgressPercentage(CurrentIntake(today), dailyGoal)
    }

    /** `addWater`: log `amount` at clock reading `now` on the day keyed `today`.
        The amount is not checked. */
    method AddWater(amount: int, today: string, now: nat)
      requires Valid()
      modifies this
      ensures Valid()
      ensures history == AddWaterTo(old(history), today, NewEntry(amount, now))
      ensures dailyGoal == old(dailyGoal)
      ensures CurrentIntake(today) == old(CurrentIntake(today)) + amount
    {
      IntakeAfterAddWater(history, today, NewEntry(amount, now));
      history := AddWaterTo(history, today, NewEntry(amount, now));
    }

    /** The custom-amount button: `custom` is the prompt's answer (None when cancelled) and
        `parsed` is `parseInt(custom)` (None for NaN). Only a number is logged. */
    method AddCustomAmount(custom: Option<string>, parsed: Option<int>, today: string, now: nat)
      returns (added: bool)
      requires Valid()
      modifies this
      ensures Valid()
      ensures added <==> custom.Some? && custom.value != "" && parsed.Some?
      ensures history == if added then AddWaterTo(old(history), today, NewEntry(parsed.value, now))
                         else old(history)
      ensures dailyGoal == old(dailyGoal)
    {
      added := custom.Some? && custom.value != "" && parsed.Some?;
      if added {
        AddWater(parsed.value, today, now);
      }
    }
  }
}
