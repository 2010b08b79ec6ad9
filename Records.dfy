/** The values the hydration tracker stores: intake entries grouped into day records. */
module Records {

  datatype Option<T> = None | Some(value: T)

  /** One logged drink. `id` is the decimal text of the clock reading taken when it was
      logged, `timestamp` that reading itself, `amount` the volume in millilitres. */
  datatype WaterEntry = WaterEntry(id: string, amount: int, timestamp: int)

  /** All drinks of one calendar day, keyed by the day's date string. */
  datatype DayData = DayData(date: string, total: int, entries: seq<WaterEntry>)

  /** The sum of the entries' amounts, folded from the left as `reduce((sum, e) => sum + e.amount, 0)`
      does. With no negative amount, the sum is at least every single amount. */
  function EntrySum(entries: seq<WaterEntry>): (s: int)
    ensures (forall j :: 0 <= j < |entries| ==> entries[j].amount >= 0) ==>
      s >= 0 && forall j :: 0 <= j < |entries| ==> entries[j].amount <= s
  {
    if entries == [] then 0
    else
      var init := entries[..|entries| - 1];
      assert forall j :: 0 <= j < |init| ==> init[j] == entries[j];
      EntrySum(init) + entries[|entries| - 1].amount
  }

  /** A day record whose stored total agrees with its entries. */
  predicate Consistent(day: DayData)
  {
    day.total == EntrySum(day.entries)
  }

  predicate AllConsistent(history: seq<DayData>)
  {
    forall i :: 0 <= i < |history| ==> Consistent(history[i])
  }

  /** Appending one entry adds exactly its amount to the sum. */
  lemma EntrySumAppend(entries: seq<WaterEntry>, e: WaterEntry)
    ensures EntrySum(entries + [e]) == EntrySum(entries) + e.amount
  {
  }

  /** A copy of `s` in reverse order, as `[...s].reverse()` builds it. */
  function Reverse<T>(s: seq<T>): (r: seq<T>)
    ensures |r| == |s|
    ensures forall i :: 0 <= i < |s| ==> r[i] == s[|s| - 1 - i]
  {
    if s == [] then [] else [s[|s| - 1]] + Reverse(s[..|s| - 1])
  }
}
