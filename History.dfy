/** The history screen: deleting a single entry and clearing the whole store. */
module History {
  import opened Records
  import Tracker

  /** `entries.filter(entry => entry.id !== entryId)`. */
  function WithoutId(entries: seq<WaterEntry>, entryId: string): (r: seq<WaterEntry>)
    ensures |r| <= |entries|
    ensures forall e :: e in r <==> e in entries && e.id != entryId
  {
    if entries == [] then []
    else
      var last := entries[|entries| - 1];
      WithoutId(entries[..|entries| - 1], entryId) + (if last.id != entryId then [last] else [])
  }

  /** Every entry with another id is kept as often as it occurs (two identical drinks both
      survive), and every entry with the id is dropped. */
  lemma WithoutIdCounts(entries: seq<WaterEntry>, entryId: string, e: WaterEntry)
    ensures multiset(WithoutId(entries, entryId))[e] == if e.id != entryId then multiset(entries)[e] else 0
  {
    if e.id == entryId {
      assert e !in WithoutId(entries, entryId);
    } else {
      WithoutIdKeepsCount(entries, entryId, e);
    }
  }

  lemma {:induction false} WithoutIdKeepsCount(entries: seq<WaterEntry>, entryId: string, e: WaterEntry)
    requires e.id != entryId
    ensures multiset(WithoutId(entries, entryId))[e] == multiset(entries)[e]
  {
    if entries != [] {
      var init, last := entries[..|entries| - 1], entries[|entries| - 1];
      var kept := if last.id != entryId then [last] else [];
      var rest := WithoutId(init, entryId);
      assert multiset(rest)[e] == multiset(init)[e] by {
        WithoutIdKeepsCount(init, entryId, e);
      }
      assert multiset(kept)[e] == multiset([last])[e];
      assert multiset(entries)[e] == multiset(init)[e] + multiset([last])[e] by {
        assert entries == init + [last];
        CountAppend(init, [last], e);
      }
      assert multiset(WithoutId(entries, entryId))[e] == multiset(rest)[e] + multiset(kept)[e] by {
        assert WithoutId(entries, entryId) == rest + kept;
        CountAppend(rest, kept, e);
      }
    }
  }

  /** Occurrences in a concatenation add up. */
  lemma CountAppend<T>(a: seq<T>, b: seq<T>, x: T)
    ensures multiset(a + b)[x] == multiset(a)[x] + multiset(b)[x]
  {
  }

  /** The filter works entry by entry and keeps the order: filtering a concatenation is
      concatenating the filtered parts. */
  lemma {:induction false} WithoutIdAppend(a: seq<WaterEntry>, b: seq<WaterEntry>, entryId: string)
    ensures WithoutId(a + b, entryId) == WithoutId(a, entryId) + WithoutId(b, entryId)
  {
    if b == [] {
      assert a + b == a;
    } else {
      assert (a + b)[..|a + b| - 1] == a + b[..|b| - 1];
      WithoutIdAppend(a, b[..|b| - 1], entryId);
    }
  }

  /** Filtering out an id that no entry carries changes nothing. */
  lemma {:induction false} WithoutAbsentId(entries: seq<WaterEntry>, entryId: string)
    requires forall j :: 0 <= j < |entries| ==> entries[j].id != entryId
    ensures WithoutId(entries, entryId) == entries
  {
    if entries != [] {
      WithoutAbsentId(entries[..|entries| - 1], entryId);
      assert entries[..|entries| - 1] + [entries[|entries| - 1]] == entries;
    }
  }

  /** A day with the entries carrying `entryId` removed and its total recomputed from the rest. */
  function PruneDay(day: DayData, entryId: string): (d: DayData)
    ensures d.date == day.date && Consistent(d)
    ensures forall j :: 0 <= j < |d.entries| ==> d.entries[j].id != entryId
    ensures d.entries == WithoutId(day.entries, entryId)
  {
    var newEntries := WithoutId(day.entries, entryId);
    assert forall j :: 0 <= j < |newEntries| ==> newEntries[j] in newEntries;
    day.(entries := newEntries, total := EntrySum(newEntries))
  }

  /** `history.map(...)`: every record dated `date` pruned, every other record as it was. */
  function PruneDate(history: seq<DayData>, date: string, entryId: string): (r: seq<DayData>)
    ensures |r| == |history|
    ensures forall i :: 0 <= i < |history| ==>
      r[i] == if history[i].date == date then PruneDay(history[i], entryId) else history[i]
  {
    if history == [] then []
    else
      var last := history[|history| - 1];
      PruneDate(history[..|history| - 1], date, entryId)
        + [if last.date == date then PruneDay(last, entryId) else last]
  }

  /** `.filter(day => day.entries.length > 0)`: the records that still hold an entry, in order. */
  function NonEmptyDays(history: seq<DayData>): (r: seq<DayData>)
    ensures |r| <= |history|
    ensures forall i :: 0 <= i < |r| ==> |r[i].entries| > 0
    ensures forall d :: d in r ==> d in history
  {
    if history == [] then []
    else
      var last := history[|history| - 1];
      NonEmptyDays(history[..|history| - 1]) + (if |last.entries| > 0 then [last] else [])
  }

  /** Every record with entries is kept as often as it occurs, every empty one is dropped. */
  lemma {:induction false} NonEmptyDaysCounts(history: seq<DayData>, d: DayData)
    ensures multiset(NonEmptyDays(history))[d] == if |d.entries| > 0 then multiset(history)[d] else 0
  {
    if history != [] {
      var init := history[..|history| - 1];
      NonEmptyDaysCounts(init, d);
      assert history == init + [history[|history| - 1]];
    }
  }

  /** The store `deleteEntry(date, entryId)` hands to `setHistory`: it is never longer, holds
      no empty record, and every record of another day in it comes from the old store. */
  function WithoutEntry(history: seq<DayData>, date: string, entryId: string): (r: seq<DayData>)
    ensures |r| <= |history|
    ensures forall i :: 0 <= i < |r| ==> |r[i].entries| > 0
    ensures forall d :: d in r && d.date != date ==> d in history
  {
    NonEmptyDays(PruneDate(history, date, entryId))
  }

  /** The records of days other than `date`, in order. */
  function OtherDays(history: seq<DayData>, date: string): seq<DayData>
  {
    if history == [] then []
    else
      var last := history[|history| - 1];
      OtherDays(history[..|history| - 1], date) + (if last.date != date then [last] else [])
  }

  /** After the deletion no record of `date` holds an entry with `entryId`, every record of
      `date` has a total equal to the sum of its remaining entries, and no record is empty. */
  lemma WithoutEntryOnDate(history: seq<DayData>, date: string, entryId: string)
    ensures forall i :: 0 <= i < |WithoutEntry(history, date, entryId)| ==>
      var day := WithoutEntry(history, date, entryId)[i];
      && |day.entries| > 0
      && (day.date == date ==> Consistent(day))
      && (day.date == date ==> forall j :: 0 <= j < |day.entries| ==> day.entries[j].id != entryId)
  {
    var pruned := PruneDate(history, date, entryId);
    var r := WithoutEntry(history, date, entryId);
    forall i | 0 <= i < |r| && r[i].date == date
      ensures Consistent(r[i]) && forall j :: 0 <= j < |r[i].entries| ==> r[i].entries[j].id != entryId
    {
      assert r[i] in r;
      var k :| 0 <= k < |pruned| && pruned[k] == r[i];
    }
  }

  /** Deleting one id keeps the rest of the day: a record of `date` holding an entry with
      another id survives pruned, with every entry of another id as often as before. */
  lemma WithoutEntryKeepsOtherEntries(history: seq<DayData>, date: string, entryId: string, k: nat, j: nat)
    requires k < |history| && history[k].date == date
    requires j < |history[k].entries| && history[k].entries[j].id != entryId
    ensures PruneDay(history[k], entryId) in WithoutEntry(history, date, entryId)
    ensures history[k].entries[j] in PruneDay(history[k], entryId).entries
    ensures forall e: WaterEntry :: e.id != entryId ==>
      multiset(PruneDay(history[k], entryId).entries)[e] == multiset(history[k].entries)[e]
  {
    var pruned := PruneDate(history, date, entryId);
    var d := PruneDay(history[k], entryId);
    assert history[k].entries[j] in history[k].entries;
    assert pruned[k] == d && d in pruned;
    NonEmptyDaysCounts(pruned, d);
    forall e: WaterEntry | e.id != entryId
      ensures multiset(d.entries)[e] == multiset(history[k].entries)[e]
    {
      WithoutIdCounts(history[k].entries, entryId, e);
    }
  }

  /** Records of other days stay as they were and in their order; only empty ones drop out. */
  lemma WithoutEntryKeepsOtherDays(history: seq<DayData>, date: string, entryId: string)
    ensures OtherDays(WithoutEntry(history, date, entryId), date) == NonEmptyDays(OtherDays(history, date))
  {
    var pruned := PruneDate(history, date, entryId);
    OtherDaysOfPruned(history, date, entryId);
    OtherDaysOfNonEmpty(pruned, date);
  }

  lemma {:induction false} OtherDaysOfPruned(history: seq<DayData>, date: string, entryId: string)
    ensures OtherDays(PruneDate(history, date, entryId), date) == OtherDays(history, date)
  {
    if history != [] {
      var pruned := PruneDate(history, date, entryId);
      var init := history[..|history| - 1];
      assert pruned[..|pruned| - 1] == PruneDate(init, date, entryId);
      OtherDaysOfPruned(init, date, entryId);
    }
  }

  lemma {:induction false} OtherDaysOfNonEmpty(history: seq<DayData>, date: string)
    ensures OtherDays(NonEmptyDays(history), date) == NonEmptyDays(OtherDays(history, date))
  {
    if history != [] {
      var init := history[..|history| - 1];
      var last := history[|history| - 1];
      OtherDaysOfNonEmpty(init, date);
      OtherDaysAppend(NonEmptyDays(init), if |last.entries| > 0 then [last] else [], date);
      NonEmptyDaysAppend(OtherDays(init, date), if last.date != date then [last] else []);
    }
  }

  lemma {:induction false} OtherDaysAppend(a: seq<DayData>, b: seq<DayData>, date: string)
    ensures OtherDays(a + b, date) == OtherDays(a, date) + OtherDays(b, date)
  {
    if b == [] {
      assert a + b == a;
    } else {
      assert (a + b)[..|a + b| - 1] == a + b[..|b| - 1];
      OtherDaysAppend(a, b[..|b| - 1], date);
    }
  }

  lemma {:induction false} NonEmptyDaysAppend(a: seq<DayData>, b: seq<DayData>)
    ensures NonEmptyDays(a + b) == NonEmptyDays(a) + NonEmptyDays(b)
  {
    if b == [] {
      assert a + b == a;
    } else {
      assert (a + b)[..|a + b| - 1] == a + b[..|b| - 1];
      NonEmptyDaysAppend(a, b[..|b| - 1]);
    }
  }

  /** Removing the last entries of a day removes the day: when every entry of every record of
      `date` carries `entryId`, no record of `date` is left. */
  lemma WithoutLastEntryDropsDay(history: seq<DayData>, date: string, entryId: string)
    requires forall i, j ::
      (0 <= i < |history| && history[i].date == date && 0 <= j < |history[i].entries|)
      ==> history[i].entries[j].id == entryId
    ensures forall i :: 0 <= i < |WithoutEntry(history, date, entryId)| ==>
      WithoutEntry(history, date, entryId)[i].date != date
  {
    var pruned := PruneDate(history, date, entryId);
    var r := WithoutEntry(history, date, entryId);
    forall i | 0 <= i < |r|
      ensures r[i].date != date
    {
      assert r[i] in r;
      var k :| 0 <= k < |pruned| && pruned[k] == r[i];
      WithoutEveryId(history[k].entries, entryId);
    }
  }

  /** Filtering out the id that every entry carries leaves nothing. */
  lemma WithoutEveryId(entries: seq<WaterEntry>, entryId: string)
    ensures (forall j :: 0 <= j < |entries| ==> entries[j].id == entryId) ==> WithoutId(entries, entryId) == []
  {
  }

  /** On a store with no empty record, deleting an id that no record of `date` holds, from
      records of `date` whose totals agree with their entries, changes nothing. */
  lemma WithoutAbsentEntry(history: seq<DayData>, date: string, entryId: string)
    requires forall i :: 0 <= i < |history| ==> |history[i].entries| > 0
    requires forall i :: 0 <= i < |history| && history[i].date == date ==> Consistent(history[i])
    requires forall i, j ::
      (0 <= i < |history| && history[i].date == date && 0 <= j < |history[i].entries|)
      ==> history[i].entries[j].id != entryId
    ensures WithoutEntry(history, date, entryId) == history
  {
    var pruned := PruneDate(history, date, entryId);
    forall i | 0 <= i < |history| && history[i].date == date
      ensures PruneDay(history[i], entryId) == history[i]
    {
      WithoutAbsentId(history[i].entries, entryId);
    }
    assert pruned == history;
    NonEmptyDaysOfNonEmpty(history);
  }

  lemma {:induction false} NonEmptyDaysOfNonEmpty(history: seq<DayData>)
    requires forall i :: 0 <= i < |history| ==> |history[i].entries| > 0
    ensures NonEmptyDays(history) == history
  {
    if history != [] {
      NonEmptyDaysOfNonEmpty(history[..|history| - 1]);
      assert history[..|history| - 1] + [history[|history| - 1]] == history;
    }
  }

  /** Deleting the same entry twice is the same as deleting it once. */
  lemma WithoutEntryIdempotent(history: seq<DayData>, date: string, entryId: string)
    ensures WithoutEntry(WithoutEntry(history, date, entryId), date, entryId) == WithoutEntry(history, date, entryId)
  {
    var r := WithoutEntry(history, date, entryId);
    WithoutEntryOnDate(history, date, entryId);
    WithoutAbsentEntry(r, date, entryId);
  }

  /** Deleting keeps every record's total in agreement with its entries. */
  lemma WithoutEntryKeepsConsistency(history: seq<DayData>, date: string, entryId: string)
    requires AllConsistent(history)
    ensures AllConsistent(WithoutEntry(history, date, entryId))
  {
    var pruned := PruneDate(history, date, entryId);
    var r := WithoutEntry(history, date, entryId);
    forall i | 0 <= i < |r|
      ensures Consistent(r[i])
    {
      assert r[i] in r;
      var k :| 0 <= k < |pruned| && pruned[k] == r[i];
      assert Consistent(history[k]);
    }
  }

  /** `deleteEntry`: replace the store with the one that lacks the entry; the goal is untouched. */
  method DeleteEntry(app: Tracker.App, date: string, entryId: string)
    requires app.Valid()
    modifies app
    ensures app.Valid()
    ensures app.history == WithoutEntry(old(app.history), date, entryId)
    ensures app.dailyGoal == old(app.dailyGoal)
  {
    app.history := WithoutEntry(app.history, date, entryId);
  }

  /** `clearAllHistory`: `confirmed` is the answer to the confirmation dialog. */
  method ClearAllHistory(app: Tracker.App, confirmed: bool)
    requires app.Valid()
    modifies app
    ensures app.Valid()
    ensures app.history == if confirmed then [] else old(app.history)
    ensures app.dailyGoal == old(app.dailyGoal)
  {
    if confirmed {
      app.history := [];
    }
  }
}
