/** The work-logs page (src/app/work-logs/page.tsx): its own copy of the form
    schema, the duration column, the project-name lookup, and the dialog state
    that opening, editing and submitting change. */
module WorkLogsPage {
  import opened Data
  import opened Clock
  import opened WorkLogForm
  import WorkLogDialog

  // ---------------------------------------------------------------------------
  // Schema

  /** The page's schema. Its end-time pattern reads `[0*5]` for the minutes'
      tens digit where the start-time pattern reads `[0-5]`. */
  function Validate(f: FormValues): (issues: seq<Issue>)
    ensures issues == [] <==>
      && f.projectId != "" && f.date.Some? && f.description != ""
      && MatchesTime(f.startTime, MinuteTens) && MatchesTime(f.endTime, TypoMinuteTens)
      && EndAfterStart(f)
    ensures Issue(EndTimeField, BadTimeFormat) in issues <==> !MatchesTime(f.endTime, TypoMinuteTens)
  {
    ValidateWith(f, TypoMinuteTens)
  }

  /** As written, a form the page accepts has an end time whose minutes are
      00-09 or 50-59: every other minute is refused. */
  lemma AcceptedEndMinutesAsWritten(f: FormValues)
    requires Validate(f) == []
    ensures ParseClock(f.endTime).Some?
    ensures var e := ParseClock(f.endTime).value; e % 60 < 10 || 50 <= e % 60
  {
    TypoPatternParsed(f.endTime);
  }

  /** "09:00" to "17:30" is refused by the page, with a format issue on the end
      time, and accepted by the dialog's schema; "09:00" to "17:05" passes both. */
  lemma HalfPastRefusedByPage()
    ensures var f := FormValues("p", Some(0), "09:00", "17:30", "d");
      Issue(EndTimeField, BadTimeFormat) in Validate(f) && WorkLogDialog.Validate(f) == []
    ensures var g := FormValues("p", Some(0), "09:00", "17:05", "d");
      Validate(g) == [] && WorkLogDialog.Validate(g) == []
  {
    assert ClockText(9, 0, true) == "09:00";
    assert ClockText(17, 30, true) == "17:30";
    assert ClockText(17, 5, true) == "17:05";
    ClockTextAccepted(9, 0, true);
    ClockTextAccepted(17, 30, true);
    ClockTextAccepted(17, 5, true);
    TypoPatternOnClockText(17, 30, true);
    TypoPatternOnClockText(17, 5, true);
  }

  // ---------------------------------------------------------------------------
  // Duration column

  /** `calculateDuration`: the time from start to end as "{h}h {m}m", "N/A" when
      the end is earlier, and "NaNh NaNm" when either time is an Invalid Date
      (NaN is not below zero, and `Math.floor(NaN)` prints as "NaN"). */
  function CalculateDuration(startTime: string, endTime: string): (r: string)
    ensures (ParseClock(startTime).None? || ParseClock(endTime).None?) ==> r == "NaNh NaNm"
    ensures ParseClock(startTime).Some? && ParseClock(endTime).Some? ==>
      var s, e := ParseClock(startTime).value, ParseClock(endTime).value;
      if e < s then r == "N/A" else ReadDuration(r) == Some(((e - s) / 60, (e - s) % 60))
  {
    match (ParseClock(startTime), ParseClock(endTime))
    case (Some(s), Some(e)) =>
      if e < s then "N/A"
      else
        DurationTextRoundTrip((e - s) / 60, (e - s) % 60);
        DurationText((e - s) / 60, (e - s) % 60)
    case _ => "NaNh NaNm"
  }

  /** For two parseable times the column reads "N/A" exactly when the end is
      earlier than the start. */
  lemma NotAvailableExactlyWhenEndEarlier(startTime: string, endTime: string)
    requires ParseClock(startTime).Some? && ParseClock(endTime).Some?
    ensures CalculateDuration(startTime, endTime) == "N/A"
        <==> ParseClock(endTime).value < ParseClock(startTime).value
  {
    var s, e := ParseClock(startTime).value, ParseClock(endTime).value;
    if s <= e {
      var r := DurationText((e - s) / 60, (e - s) % 60);
      assert r[|r| - 1] == 'm';
      assert "N/A"[2] == 'A';
    }
  }

  /** Otherwise the text holds hours and minutes that add up to the difference,
      with the minutes below sixty. */
  lemma DurationSplitsDifference(startTime: string, endTime: string)
    requires ParseClock(startTime).Some? && ParseClock(endTime).Some?
    requires ParseClock(startTime).value <= ParseClock(endTime).value
    ensures ReadDuration(CalculateDuration(startTime, endTime)).Some?
    ensures var (h, m) := ReadDuration(CalculateDuration(startTime, endTime)).value;
      h * 60 + m == ParseClock(endTime).value - ParseClock(startTime).value && m < 60
  {
    var d := ParseClock(endTime).value - ParseClock(startTime).value;
    DurationTextRoundTrip(d / 60, d % 60);
  }

  /** Equal times give "0h 0m", not "N/A": only a negative difference is "N/A". */
  lemma EqualTimesGiveZero(t: string)
    requires ParseClock(t).Some?
    ensures CalculateDuration(t, t) == "0h 0m"
  {
  }

  /** A time that does not parse gives "NaNh NaNm" whatever the other one is. */
  lemma UnparseableGivesNaN(startTime: string, endTime: string)
    requires ParseClock(startTime).None? || ParseClock(endTime).None?
    ensures CalculateDuration(startTime, endTime) == "NaNh NaNm"
  {
  }

  // ---------------------------------------------------------------------------
  // Project names

  /** `new Map(projects.map(p => [p.id, p.name]))`: a later project overrides an
      earlier one with the same id. */
  function NameMap(ps: seq<Project>): (m: map<string, string>)
    ensures forall i :: 0 <= i < |ps| ==> ps[i].id in m
    ensures |ps| > 0 ==> m[ps[|ps| - 1].id] == ps[|ps| - 1].name
  {
    if |ps| == 0 then map[]
    else NameMap(ps[..|ps| - 1])[ps[|ps| - 1].id := ps[|ps| - 1].name]
  }

  /** Every project's id is a key, every key is some project's id, and an id
      maps to the name of the last project that carries it. */
  lemma {:induction false} NameMapLookup(ps: seq<Project>, id: string)
    ensures id in NameMap(ps) <==> exists i :: 0 <= i < |ps| && ps[i].id == id
    ensures forall i ::
      (0 <= i < |ps| && ps[i].id == id && (forall j :: i < j < |ps| ==> ps[j].id != id)) ==>
        NameMap(ps)[id] == ps[i].name
  {
    if |ps| > 0 {
      var init := ps[..|ps| - 1];
      NameMapLookup(init, id);
      assert forall i :: 0 <= i < |init| ==> init[i] == ps[i];
      if id != ps[|ps| - 1].id && id in NameMap(ps) {
        var i :| 0 <= i < |init| && init[i].id == id;
        assert ps[i].id == id;
      }
    }
  }

  const ProjectNotFound := "Obra no encontrada"

  /** The project cell of a log row: `projectMap.get(id) ?? 'Obra no encontrada'`,
      where the map is empty while the projects are still loading. */
  function ProjectLabel(projects: Option<seq<Project>>, projectId: string): (cell: string)
    ensures projects.None? ==> cell == ProjectNotFound
    ensures (projects.Some? &&
      forall i :: 0 <= i < |projects.value| ==> projects.value[i].id != projectId) ==>
        cell == ProjectNotFound
    ensures forall i :: (projects.Some? && 0 <= i < |projects.value| &&
      projects.value[i].id == projectId &&
      (forall j :: i < j < |projects.value| ==> projects.value[j].id != projectId)) ==>
        cell == projects.value[i].name
  {
    if projects.None? then ProjectNotFound
    else
      NameMapLookup(projects.value, projectId);
      var m := NameMap(projects.value);
      if projectId in m then m[projectId] else ProjectNotFound
  }

  // ---------------------------------------------------------------------------
  // The work-log table and the page state

  /** `db.workLogs`: the stored logs by id. */
  class WorkLogTable {
    var rows: map<string, WorkLog>

    constructor(rows0: map<string, WorkLog>)
      ensures rows == rows0
    {
      rows := rows0;
    }

    /** `add`: rejected when the store fails or the key is already taken. */
    method Add(log: WorkLog, storeFails: bool) returns (ok: bool)
      modifies this
      ensures ok == (!storeFails && log.id !in old(rows))
      ensures rows == if ok then old(rows)[log.id := log] else old(rows)
    {
      ok := !storeFails && log.id !in rows;
      if ok {
        rows := rows[log.id := log];
      }
    }

    /** `update(id, data)`: the values replace the stored ones, the id stays; a
        missing key is not an error and changes nothing. */
    method Update(id: string, data: FormValues, storeFails: bool) returns (ok: bool)
      requires data.date.Some?
      modifies this
      ensures ok == !storeFails
      ensures rows == if ok && id in old(rows) then old(rows)[id := LogOf(id, data)] else old(rows)
    {
      ok := !storeFails;
      if ok && id in rows {
        rows := rows[id := LogOf(id, data)];
      }
    }
  }

  datatype Toast = Toast(title: string, destructive: bool)

  const UpdatedToast := Toast("Registro actualizado", false)
  const AddedToast := Toast("Registro añadido", false)
  const ErrorToast := Toast("Error", true)

  /** The page's state: whether the dialog is open, the log being edited, the
      form's values and the values `reset()` restores, and the toasts shown. */
  class Page {
    var open: bool
    var logToEdit: Option<WorkLog>
    var values: FormValues
    var defaults: FormValues
    var toasts: seq<Toast>

    /** On mount no log is being edited, so the effect resets the form. */
    constructor(today: int)
      ensures !open && logToEdit == None && toasts == []
      ensures values == Blank(today) && defaults == Blank(today)
    {
      open := false;
      logToEdit := None;
      values := Blank(today);
      defaults := Blank(today);
      toasts := [];
    }

    /** The effect on `logToEdit`: copy the log being edited into the form, or
        reset the form (and what `reset()` restores) to a blank one dated today. */
    method SyncForm(today: int)
      modifies this
      ensures logToEdit.Some? ==> values == ValuesOf(logToEdit.value) && defaults == old(defaults)
      ensures logToEdit.None? ==> values == Blank(today) && defaults == Blank(today)
      ensures open == old(open) && logToEdit == old(logToEdit) && toasts == old(toasts)
    {
      if logToEdit.Some? {
        values := ValuesOf(logToEdit.value);
      } else {
        values := Blank(today);
        defaults := Blank(today);
      }
    }

    /** `handleOpenDialog(log)`. */
    method OpenDialog(log: Option<WorkLog>)
      modifies this
      ensures open && logToEdit == log
      ensures values == old(values) && defaults == old(defaults) && toasts == old(toasts)
    {
      logToEdit := log;
      open := true;
    }

    /** The dialog's `onOpenChange`: closing also forgets the log being edited. */
    method OpenChange(isOpen: bool)
      modifies this
      ensures open == isOpen
      ensures logToEdit == if isOpen then old(logToEdit) else None
      ensures values == old(values) && defaults == old(defaults) && toasts == old(toasts)
    {
      open := isOpen;
      if !isOpen {
        logToEdit := None;
      }
    }

    /** `onSubmit(data)`, called with values the schema accepted (so with a
        date): update the log being edited, or add a new log under `freshId`. On success reset the form, close the dialog and forget the
        log; on a store failure show an error and leave the dialog as it was. */
    method OnSubmit(table: WorkLogTable, data: FormValues, freshId: string, storeFails: bool)
      returns (saved: bool)
      requires data.date.Some?
      modifies this, table
      ensures old(logToEdit).Some? ==> saved == !storeFails
      ensures old(logToEdit).Some? ==> var id := old(logToEdit).value.id;
        table.rows == if saved && id in old(table.rows)
                      then old(table.rows)[id := LogOf(id, data)] else old(table.rows)
      ensures old(logToEdit).None? ==> saved == (!storeFails && freshId !in old(table.rows))
      ensures old(logToEdit).None? ==>
        table.rows == if saved then old(table.rows)[freshId := LogOf(freshId, data)]
                      else old(table.rows)
      ensures saved ==> values == old(defaults) && !open && logToEdit == None
      ensures saved ==> toasts == old(toasts) + [if old(logToEdit).Some? then UpdatedToast else AddedToast]
      ensures !saved ==> values == old(values) && open == old(open) && logToEdit == old(logToEdit)
      ensures !saved ==> toasts == old(toasts) + [ErrorToast]
      ensures defaults == old(defaults)
    {
      var notice: Toast;
      if logToEdit.Some? {
        saved := table.Update(logToEdit.value.id, data, storeFails);
        notice := UpdatedToast;
      } else {
        saved := table.Add(LogOf(freshId, data), storeFails);
        notice := AddedToast;
      }
      if saved {
        toasts := toasts + [notice];
        values := defaults;
        open := false;
        logToEdit := None;
      } else {
        toasts := toasts + [ErrorToast];
      }
    }

    /** `handleSubmit(onSubmit)`: validate the form with the page's schema and
        submit it, with `OnSubmit`'s outcome, exactly when no issue is found. */
    method HandleSubmit(table: WorkLogTable, freshId: string, storeFails: bool)
      returns (issues: seq<Issue>, saved: bool)
      modifies this, table
      ensures issues == Validate(old(values))
      ensures issues != [] ==> !saved && table.rows == old(table.rows)
      ensures issues != [] ==>
        (values == old(values) && open == old(open) && logToEdit == old(logToEdit) &&
         toasts == old(toasts) && defaults == old(defaults))
      ensures saved ==> issues == [] && !open && logToEdit == None
      ensures issues == [] && old(logToEdit).Some? ==> saved == !storeFails
      ensures issues == [] && old(logToEdit).Some? ==> var id := old(logToEdit).value.id;
        table.rows == if saved && id in old(table.rows)
                      then old(table.rows)[id := LogOf(id, old(values))] else old(table.rows)
      ensures issues == [] && old(logToEdit).None? ==> saved == (!storeFails && freshId !in old(table.rows))
      ensures issues == [] && old(logToEdit).None? ==>
        table.rows == if saved then old(table.rows)[freshId := LogOf(freshId, old(values))]
                      else old(table.rows)
      ensures issues == [] && saved ==> values == old(defaults)
      ensures issues == [] && saved ==>
        toasts == old(toasts) + [if old(logToEdit).Some? then UpdatedToast else AddedToast]
      ensures issues == [] && !saved ==> values == old(values) && open == old(open) && logToEdit == old(logToEdit)
      ensures issues == [] && !saved ==> toasts == old(toasts) + [ErrorToast]
      ensures defaults == old(defaults)
    {
      issues := Validate(values);
      saved := false;
      if issues == [] {
        saved := OnSubmit(table, values, freshId, storeFails);
      }
    }
  }
}
