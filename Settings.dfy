/** The settings screen: saving the daily goal, importing and exporting a backup, and
    deleting all data. */
module Settings {
  import opened Records
  import Tracker

  /** The goal bound `newGoal > 0 && newGoal <= 10000` on `parseInt(tempGoal)`; `None` stands
      for NaN, which fails both comparisons. A goal within it is never 0. */
  predicate GoalInRange(parsed: Option<int>): (ok: bool)
    ensures ok ==> parsed.Some? && parsed.value != 0
    ensures parsed == Some(10000) ==> ok
  {
    parsed.Some? && 0 < parsed.value && parsed.value <= 10000
  }

  /** `saveGoal`: set the goal to the parsed value when it is in range, otherwise change nothing. */
  method SaveGoal(app: Tracker.App, parsed: Option<int>) returns (saved: bool)
    requires app.Valid()
    modifies app
    ensures app.Valid()
    ensures saved <==> GoalInRange(parsed)
    ensures app.dailyGoal == if saved then parsed.value else old(app.dailyGoal)
    ensures app.history == old(app.history)
  {
    saved := parsed.Some? && parsed.value > 0 && parsed.value <= 10000;
    if saved {
      app.dailyGoal := parsed.value;
    }
  }

  /** A parsed backup file: each field is absent (`None`) when the document lacks it. */
  datatype Backup = Backup(history: Option<seq<DayData>>, dailyGoal: Option<int>)

  /** `data.history && data.dailyGoal`: an array is always truthy, a number unless it is 0. */
  predicate Importable(data: Backup): (ok: bool)
    ensures ok ==> data.history.Some? && data.dailyGoal.Some? && data.dailyGoal.value != 0
    ensures data.history.Some? && data.dailyGoal.Some? && GoalInRange(data.dailyGoal) ==> ok
  {
    data.history.Some? && data.dailyGoal.Some? && data.dailyGoal.value != 0
  }

  /** `exportData`: the document holding both the store and the goal; import accepts it
      exactly when the goal is not 0. */
  function ExportData(history: seq<DayData>, dailyGoal: int): (b: Backup)
    ensures b.history == Some(history) && b.dailyGoal == Some(dailyGoal)
    ensures Importable(b) <==> dailyGoal != 0
  {
    Backup(Some(history), Some(dailyGoal))
  }

  /** `importData`: `data` is the parsed file, `None` when the file could not be parsed. Both
      fields are taken when both are present and truthy; otherwise nothing changes. */
  method ImportData(app: Tracker.App, data: Option<Backup>) returns (imported: bool)
    requires app.Valid()
    modifies app
    ensures app.Valid()
    ensures imported <==> data.Some? && Importable(data.value)
    ensures imported ==> app.history == data.value.history.value && app.dailyGoal == data.value.dailyGoal.value
    ensures !imported ==> app.history == old(app.history) && app.dailyGoal == old(app.dailyGoal)
  {
    imported := data.Some? && data.value.history.Some? && data.value.dailyGoal.Some? && data.value.dailyGoal.value != 0;
    if imported {
      app.history := data.value.history.value;
      app.dailyGoal := data.value.dailyGoal.value;
    }
  }

  /** Exporting the state of `source` and importing the document into `target` (another
      browser, or the same one later) makes `target` hold exactly the exported store and goal. */
  method ExportImportRoundTrip(source: Tracker.App, target: Tracker.App) returns (imported: bool)
    requires source.Valid() && target.Valid()
    modifies target
    ensures imported && target.Valid()
    ensures target.history == old(source.history) && target.dailyGoal == old(source.dailyGoal)
  {
    var document := ExportData(source.history, source.dailyGoal);
    imported := ImportData(target, Some(document));
  }

  /** Import checks only truthiness: a goal of 0 is refused, but 20000 and -5, which saving
      refuses, are taken. */
  lemma ImportSkipsGoalBound(history: seq<DayData>)
    ensures !Importable(Backup(Some(history), Some(0)))
    ensures Importable(Backup(Some(history), Some(20000))) && !GoalInRange(Some(20000))
    ensures Importable(Backup(Some(history), Some(-5))) && !GoalInRange(Some(-5))
    ensures !Importable(Backup(None, Some(2000))) && !Importable(Backup(Some(history), None))
  {
  }

  /** "Delete all data": with the dialog confirmed the store is emptied; the goal stays. */
  method DeleteAllData(app: Tracker.App, confirmed: bool)
    requires app.Valid()
    modifies app
    ensures app.Valid()
    ensures app.history == if confirmed then [] else old(app.history)
    ensures app.dailyGoal == old(app.dailyGoal)
  {
    if confirmed {
      app.history := [];
    }
  }
}
