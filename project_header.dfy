/** The figures of the project header (src/components/project-header.tsx):
    open tasks, photos and visits. */
module ProjectHeader {
  import opened Data

  /** `tasks.filter(t => !t.completed).length`. */
  function CountOpen(tasks: seq<Task>): (n: nat)
    ensures n <= |tasks|
    ensures n == 0 <==> forall i :: 0 <= i < |tasks| ==> tasks[i].completed
    ensures n == |tasks| <==> forall i :: 0 <= i < |tasks| ==> !tasks[i].completed
  {
    if |tasks| == 0 then 0
    else
      var rest := CountOpen(tasks[1..]);
      assert forall i :: 1 <= i < |tasks| ==> tasks[i] == tasks[1..][i - 1];
      (if tasks[0].completed then 0 else 1) + rest
  }

  /** `project.tasks ? … : 0`: a document without a task list has no open tasks. */
  function OpenTasks(tasks: Option<seq<Task>>): (n: nat)
    ensures tasks.None? ==> n == 0
    ensures tasks.Some? ==> n <= |tasks.value|
    ensures tasks.Some? ==> (n == 0 <==> forall i :: 0 <= i < |tasks.value| ==> tasks.value[i].completed)
  {
    match tasks
    case None => 0
    case Some(ts) => CountOpen(ts)
  }

  datatype Figures = Figures(openTasks: nat, photos: nat, visits: nat)

  /** The three figures the header shows. */
  function HeaderFigures(p: Project): (f: Figures)
    ensures f.openTasks == CountOpen(p.tasks) && f.openTasks <= |p.tasks|
    ensures f.photos == |p.photos| && f.visits == |p.visits|
  {
    Figures(OpenTasks(Some(p.tasks)), |p.photos|, |p.visits|)
  }
}
