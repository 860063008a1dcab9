/** The work-log dialog (src/components/work-log-dialog.tsx): its schema, whose
    two time patterns both use the minute class `[0-5]`, and the effect that
    fills or clears the form when the dialog opens. */
module WorkLogDialog {
  import opened Data
  import opened Clock
  import opened WorkLogForm

  /** The dialog's schema: both time patterns use `[0-5]` for the minutes'
      tens digit. */
  function Validate(f: FormValues): (issues: seq<Issue>)
    ensures issues == [] <==>
      && f.projectId != "" && f.date.Some? && f.description != ""
      && MatchesTime(f.startTime, MinuteTens) && MatchesTime(f.endTime, MinuteTens)
      && EndAfterStart(f)
  {
    ValidateWith(f, MinuteTens)
  }

  /** A form the dialog accepts names a project and a description and holds two
      well-formed times of day, the end strictly after the start. */
  lemma AcceptedFormHoldsClockTimes(f: FormValues)
    requires Validate(f) == []
    ensures f.projectId != "" && f.date.Some? && f.description != ""
    ensures ParseClock(f.startTime).Some? && ParseClock(f.endTime).Some?
    ensures var s, e := ParseClock(f.startTime).value, ParseClock(f.endTime).value;
      && s < e
      && (|f.startTime| == 5 || s / 60 < 10) && (|f.endTime| == 5 || e / 60 < 10)
      && f.startTime == ClockText(s / 60, s % 60, |f.startTime| == 5)
      && f.endTime == ClockText(e / 60, e % 60, |f.endTime| == 5)
  {
    AcceptedTimeIsClockText(f.startTime);
    AcceptedTimeIsClockText(f.endTime);
  }

  /** Conversely, any two times of day, narrow or wide, with the end strictly
      later, pass the dialog's schema. */
  lemma ClockTimesAccepted(
    projectId: string, date: int, description: string,
    h1: nat, m1: nat, wide1: bool, h2: nat, m2: nat, wide2: bool)
    requires projectId != "" && description != ""
    requires h1 < 24 && m1 < 60 && (wide1 || h1 < 10)
    requires h2 < 24 && m2 < 60 && (wide2 || h2 < 10)
    requires h1 * 60 + m1 < h2 * 60 + m2
    ensures Validate(FormValues(projectId, Some(date), ClockText(h1, m1, wide1),
                                ClockText(h2, m2, wide2), description)) == []
  {
    ClockTextAccepted(h1, m1, wide1);
    ClockTextAccepted(h2, m2, wide2);
  }

  /** The dialog's form state. Before the dialog first opens no value is set. */
  class DialogForm {
    var values: Option<FormValues>

    constructor()
      ensures values == None
    {
      values := None;
    }

    /** The effect on `open` and `logToEdit`: when open, copy the log being
        edited into the form, or reset to a blank form dated today; when
        closed, leave the form alone. */
    method Sync(open: bool, logToEdit: Option<WorkLog>, today: int)
      modifies this
      ensures !open ==> values == old(values)
      ensures open && logToEdit.Some? ==> values == Some(ValuesOf(logToEdit.value))
      ensures open && logToEdit.None? ==> values == Some(Blank(today))
    {
      if open {
        if logToEdit.Some? {
          values := Some(ValuesOf(logToEdit.value));
        } else {
          values := Some(Blank(today));
        }
      }
    }
  }
}
