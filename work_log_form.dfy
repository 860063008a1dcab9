/** The work-log record and the form schema that the work-logs page
    (src/app/work-logs/page.tsx) and the work-log dialog
    (src/components/work-log-dialog.tsx) each declare. The two declarations
    differ only in the character class of the end time's minute tens, so the
    schema is defined once here with that class as a parameter. */
module WorkLogForm {
  import opened Data
  import opened Clock

  /** A stored work log; `date` is an opaque instant. */
  datatype WorkLog = WorkLog(
    id: string, projectId: string, date: int,
    startTime: string, endTime: string, description: string)

  /** The values the form holds and, once valid, submits. The date picker can
      leave `date` unset: clicking the selected day again clears it. */
  datatype FormValues = FormValues(
    projectId: string, date: Option<int>, startTime: string, endTime: string, description: string)

  datatype FormField = ProjectIdField | DateField | StartTimeField | EndTimeField | DescriptionField

  datatype IssueKind = Required | BadTimeFormat | EndNotAfterStart

  datatype Issue = Issue(field: FormField, kind: IssueKind)

  /** The values of an existing log, as `setValue` copies them into the form. */
  function ValuesOf(log: WorkLog): FormValues {
    FormValues(log.projectId, Some(log.date), log.startTime, log.endTime, log.description)
  }

  /** The empty form with today's date, as `reset({...})` sets it. */
  function Blank(today: int): FormValues {
    FormValues("", Some(today), "", "", "")
  }

  /** `{ id, ...data }`: a log built from submitted values, which the schema
      has given a date. */
  function LogOf(id: string, data: FormValues): WorkLog
    requires data.date.Some?
  {
    WorkLog(id, data.projectId, data.date.value, data.startTime, data.endTime, data.description)
  }

  /** The refinement: both times parse and the end is strictly later. An
      unparseable time is an Invalid Date, and `end > start` is then false. */
  predicate EndAfterStart(f: FormValues) {
    && ParseClock(f.startTime).Some?
    && ParseClock(f.endTime).Some?
    && ParseClock(f.startTime).value < ParseClock(f.endTime).value
  }

  function Check(ok: bool, issue: Issue): seq<Issue> {
    if ok then [] else [issue]
  }

  /** The issues of the five field checks, given their outcomes, in schema order. */
  function FieldIssues(project: bool, date: bool, start: bool, end: bool, description: bool)
    : (issues: seq<Issue>)
    ensures issues == [] <==> project && date && start && end && description
    ensures forall x :: x in issues ==> x.kind != EndNotAfterStart
    ensures Issue(ProjectIdField, Required) in issues <==> !project
    ensures Issue(DateField, Required) in issues <==> !date
    ensures Issue(StartTimeField, BadTimeFormat) in issues <==> !start
    ensures Issue(EndTimeField, BadTimeFormat) in issues <==> !end
    ensures Issue(DescriptionField, Required) in issues <==> !description
  {
    Check(project, Issue(ProjectIdField, Required))
    + Check(date, Issue(DateField, Required))
    + Check(start, Issue(StartTimeField, BadTimeFormat))
    + Check(end, Issue(EndTimeField, BadTimeFormat))
    + Check(description, Issue(DescriptionField, Required))
  }

  /** The issues of the field checks and of the refinement, given their
      outcomes, in schema order. A missing date aborts the object, so the
      refinement does not run and reports nothing. */
  function Issues(project: bool, date: bool, start: bool, end: bool, description: bool, order: bool)
    : (issues: seq<Issue>)
    ensures issues == [] <==> project && date && start && end && description && order
    ensures Issue(ProjectIdField, Required) in issues <==> !project
    ensures Issue(DateField, Required) in issues <==> !date
    ensures Issue(StartTimeField, BadTimeFormat) in issues <==> !start
    ensures Issue(EndTimeField, BadTimeFormat) in issues <==> !end
    ensures Issue(DescriptionField, Required) in issues <==> !description
    ensures Issue(EndTimeField, EndNotAfterStart) in issues <==> date && !order
  {
    var fields := FieldIssues(project, date, start, end, description);
    var refinement := if date then Check(order, Issue(EndTimeField, EndNotAfterStart)) else [];
    assert Issue(EndTimeField, EndNotAfterStart) !in fields;
    assert forall x :: x in fields + refinement <==> x in fields || x in refinement;
    fields + refinement
  }

  /** The issues the schema reports, in schema order. Failed string checks
      leave the object parsed, so the refinement still runs and reports
      against the end time; a missing date makes the object fail outright,
      and the refinement is skipped. */
  function ValidateWith(f: FormValues, endTens: set<char>): (issues: seq<Issue>)
    ensures issues == [] <==>
      && f.projectId != ""
      && f.date.Some?
      && MatchesTime(f.startTime, MinuteTens)
      && MatchesTime(f.endTime, endTens)
      && f.description != ""
      && EndAfterStart(f)
    ensures Issue(ProjectIdField, Required) in issues <==> f.projectId == ""
    ensures Issue(DateField, Required) in issues <==> f.date.None?
    ensures Issue(DescriptionField, Required) in issues <==> f.description == ""
    ensures Issue(StartTimeField, BadTimeFormat) in issues <==> !MatchesTime(f.startTime, MinuteTens)
    ensures Issue(EndTimeField, BadTimeFormat) in issues <==> !MatchesTime(f.endTime, endTens)
    ensures Issue(EndTimeField, EndNotAfterStart) in issues <==> f.date.Some? && !EndAfterStart(f)
  {
    Issues(f.projectId != "", f.date.Some?, MatchesTime(f.startTime, MinuteTens),
      MatchesTime(f.endTime, endTens), f.description != "", EndAfterStart(f))
  }
}
