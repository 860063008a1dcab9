/** The all-tasks page (src/app/tasks/page.tsx): every project's tasks in one
    list tagged with their project, the pending/completed filter, ticking a
    task, and the priority badge. */
module TasksPage {
  import opened Data
  import Db
  import ProjectHeader

  /** `{ ...task, projectName, projectId }`. */
  datatype TaggedTask = TaggedTask(task: Task, projectName: string, projectId: string)

  datatype FilterStatus = All | Pending | Completed

  datatype BadgeVariant = Destructive | Secondary | Outline

  // ---------------------------------------------------------------------------
  // allTasks

  /** One project's `tasks.map(...)`. */
  function TagEach(name: string, id: string, tasks: seq<Task>): (r: seq<TaggedTask>)
    ensures |r| == |tasks|
    ensures forall j :: 0 <= j < |tasks| ==> r[j] == TaggedTask(tasks[j], name, id)
  {
    if |tasks| == 0 then [] else [TaggedTask(tasks[0], name, id)] + TagEach(name, id, tasks[1..])
  }

  /** The number of tasks over all projects. */
  function TotalTasks(ps: seq<Project>): nat {
    if |ps| == 0 then 0 else |ps[0].tasks| + TotalTasks(ps[1..])
  }

  /** `projects.flatMap(...)`. */
  function Flatten(ps: seq<Project>): (r: seq<TaggedTask>)
    ensures |r| == TotalTasks(ps)
  {
    if |ps| == 0 then [] else TagEach(ps[0].name, ps[0].id, ps[0].tasks) + Flatten(ps[1..])
  }

  /** `allTasks`: empty while the projects are not loaded. */
  function AllTasks(projects: Option<seq<Project>>): (r: seq<TaggedTask>)
    ensures projects.None? ==> r == []
    ensures projects.Some? ==> |r| == TotalTasks(projects.value)
  {
    match projects
    case None => []
    case Some(ps) => Flatten(ps)
  }

  /** Project-then-task order: task `j` of project `i` sits after all tasks of
      the projects before `i`, tagged with project `i`'s name and id. */
  lemma {:induction false} AllTasksAt(ps: seq<Project>, i: nat, j: nat)
    requires i < |ps| && j < |ps[i].tasks|
    ensures TotalTasks(ps[..i]) + j < |AllTasks(Some(ps))|
    ensures AllTasks(Some(ps))[TotalTasks(ps[..i]) + j]
         == TaggedTask(ps[i].tasks[j], ps[i].name, ps[i].id)
  {
    if i == 0 {
      assert ps[..0] == [];
    } else {
      AllTasksAt(ps[1..], i - 1, j);
      assert ps[..i][1..] == ps[1..][..i - 1];
      assert ps[..i][0] == ps[0];
    }
  }

  /** Every entry is some task of some project, tagged with that project. */
  lemma {:induction false} AllTasksFrom(ps: seq<Project>, k: nat)
    requires k < |AllTasks(Some(ps))|
    ensures exists i, j :: (0 <= i < |ps| && 0 <= j < |ps[i].tasks| &&
      AllTasks(Some(ps))[k] == TaggedTask(ps[i].tasks[j], ps[i].name, ps[i].id))
  {
    var first := TagEach(ps[0].name, ps[0].id, ps[0].tasks);
    if k < |first| {
      assert AllTasks(Some(ps))[k] == TaggedTask(ps[0].tasks[k], ps[0].name, ps[0].id);
    } else {
      AllTasksFrom(ps[1..], k - |first|);
      var i, j :| 0 <= i < |ps[1..]| && 0 <= j < |ps[1..][i].tasks| &&
        AllTasks(Some(ps[1..]))[k - |first|] == TaggedTask(ps[1..][i].tasks[j], ps[1..][i].name, ps[1..][i].id);
      assert ps[1..][i] == ps[i + 1];
    }
  }

  // ---------------------------------------------------------------------------
  // filteredTasks

  /** `filter(task => task.completed == done)`, order kept. */
  function Keep(s: seq<TaggedTask>, done: bool): (r: seq<TaggedTask>)
    ensures |r| <= |s|
  {
    if |s| == 0 then []
    else if s[0].task.completed == done then [s[0]] + Keep(s[1..], done)
    else Keep(s[1..], done)
  }

  /** The filter keeps exactly the tasks with the wanted state. */
  lemma {:induction false} KeepMembers(s: seq<TaggedTask>, done: bool)
    ensures forall x :: x in Keep(s, done) <==> x in s && x.task.completed == done
  {
    if |s| > 0 {
      KeepMembers(s[1..], done);
      assert s == [s[0]] + s[1..];
    }
  }

  /** `filteredTasks`: 'pending' keeps exactly the open tasks, 'completed'
      exactly the completed ones, 'all' everything. */
  function FilteredTasks(all: seq<TaggedTask>, filter: FilterStatus): (r: seq<TaggedTask>)
    ensures filter == All ==> r == all
    ensures forall x :: x in r <==>
      x in all && (filter == Pending ==> !x.task.completed) && (filter == Completed ==> x.task.completed)
  {
    KeepMembers(all, false);
    KeepMembers(all, true);
    match filter
    case Pending => Keep(all, false)
    case Completed => Keep(all, true)
    case All => all
  }

  /** The pending and completed views split the list: together they hold every
      task exactly as often as the list does. */
  lemma FiltersPartition(all: seq<TaggedTask>)
    ensures multiset(FilteredTasks(all, Pending)) + multiset(FilteredTasks(all, Completed)) == multiset(all)
    ensures |FilteredTasks(all, Pending)| + |FilteredTasks(all, Completed)| == |all|
  {
    KeepPartition(all);
  }

  /** Filtering for open and for completed entries splits the list. */
  lemma {:induction false} KeepPartition(all: seq<TaggedTask>)
    ensures multiset(Keep(all, false)) + multiset(Keep(all, true)) == multiset(all)
    ensures |Keep(all, false)| + |Keep(all, true)| == |all|
  {
    if |all| > 0 {
      var rest := all[1..];
      KeepPartition(rest);
      assert all == [all[0]] + rest;
    }
  }

  /** The header's open-task count of a project is the length of the pending
      view of its tasks. */
  lemma {:induction false} OpenCountIsPendingView(name: string, id: string, tasks: seq<Task>)
    ensures ProjectHeader.CountOpen(tasks) == |Keep(TagEach(name, id, tasks), false)|
  {
    if |tasks| > 0 {
      OpenCountIsPendingView(name, id, tasks[1..]);
      assert TagEach(name, id, tasks)[1..] == TagEach(name, id, tasks[1..]);
    }
  }

  lemma OpenTasksMatchPendingFilter(p: Project)
    ensures ProjectHeader.OpenTasks(Some(p.tasks)) == |FilteredTasks(AllTasks(Some([p])), Pending)|
  {
    var tagged := TagEach(p.name, p.id, p.tasks);
    calc {
      AllTasks(Some([p]));
      Flatten([p]);
      { assert [p][1..] == []; }
      tagged + Flatten([]);
      { assert tagged + [] == tagged; }
      tagged;
    }
    OpenCountIsPendingView(p.name, p.id, p.tasks);
  }

  // ---------------------------------------------------------------------------
  // handleTaskCheck

  /** `tasks.map(task => task.id === taskId ? { ...task, completed: checked } : task)`. */
  function SetCompleted(tasks: seq<Task>, taskId: string, checked: bool): (r: seq<Task>)
    ensures |r| == |tasks|
    ensures forall i :: 0 <= i < |tasks| && tasks[i].id != taskId ==> r[i] == tasks[i]
    ensures forall i :: 0 <= i < |tasks| && tasks[i].id == taskId ==> r[i] == tasks[i].(completed := checked)
  {
    if |tasks| == 0 then []
    else
      [if tasks[0].id == taskId then tasks[0].(completed := checked) else tasks[0]]
      + SetCompleted(tasks[1..], taskId, checked)
  }

  /** Ticking the same box twice is ticking it once. */
  lemma SetCompletedIdempotent(tasks: seq<Task>, taskId: string, checked: bool)
    ensures SetCompleted(SetCompleted(tasks, taskId, checked), taskId, checked)
         == SetCompleted(tasks, taskId, checked)
  {
  }

  predicate UniqueIds(tasks: seq<Task>) {
    forall i, j :: 0 <= i < j < |tasks| ==> tasks[i].id != tasks[j].id
  }

  /** With unique ids, setting task `k` to `checked` changes the open count by
      exactly that task's change: ticking an open task closes one, unticking a
      completed one reopens one, anything else leaves the count. */
  lemma {:induction false} SetCompletedOpenCount(tasks: seq<Task>, k: nat, checked: bool)
    requires UniqueIds(tasks) && k < |tasks|
    ensures ProjectHeader.CountOpen(SetCompleted(tasks, tasks[k].id, checked))
         == ProjectHeader.CountOpen(tasks)
            - (if tasks[k].completed then 0 else 1) + (if checked then 0 else 1)
  {
    var id := tasks[k].id;
    SetCompletedFirst(tasks, id, checked);
    UniqueIdsTail(tasks, k);
    if k == 0 {
      SetCompletedAbsent(tasks[1..], id, checked);
    } else {
      SetCompletedOpenCount(tasks[1..], k - 1, checked);
    }
  }

  /** Ticking works on the head and then on the rest of the list, and the
      open count follows the head. */
  lemma SetCompletedFirst(tasks: seq<Task>, taskId: string, checked: bool)
    requires |tasks| > 0
    ensures var r := SetCompleted(tasks, taskId, checked);
      && r[1..] == SetCompleted(tasks[1..], taskId, checked)
      && r[0] == (if tasks[0].id == taskId then tasks[0].(completed := checked) else tasks[0])
      && ProjectHeader.CountOpen(r) == (if r[0].completed then 0 else 1) + ProjectHeader.CountOpen(r[1..])
      && ProjectHeader.CountOpen(tasks)
         == (if tasks[0].completed then 0 else 1) + ProjectHeader.CountOpen(tasks[1..])
  {
  }

  /** The rest of a list with unique ids has unique ids; the head's id is not
      among them, and the task at `k` moves to `k - 1`. */
  lemma UniqueIdsTail(tasks: seq<Task>, k: nat)
    requires UniqueIds(tasks) && k < |tasks|
    ensures UniqueIds(tasks[1..])
    ensures k == 0 ==> forall i :: 0 <= i < |tasks[1..]| ==> tasks[1..][i].id != tasks[0].id
    ensures k > 0 ==> tasks[1..][k - 1] == tasks[k] && tasks[0].id != tasks[k].id
  {
  }

  /** A list without the id is left as it is. */
  lemma SetCompletedAbsent(tasks: seq<Task>, taskId: string, checked: bool)
    requires forall i :: 0 <= i < |tasks| ==> tasks[i].id != taskId
    ensures SetCompleted(tasks, taskId, checked) == tasks
  {
  }

  /** `handleTaskCheck`: look the project up, and write back its whole task list
      with the matching task set to `checked`. A missing project changes
      nothing; a store failure is logged (`logged`), never thrown. */
  method HandleTaskCheck(
    db: Db.ProjectStore, taskId: string, projectId: string, checked: bool, storeFails: bool)
    returns (logged: bool)
    modifies db
    ensures projectId !in old(db.projects) ==> db.projects == old(db.projects) && !logged
    ensures projectId in old(db.projects) ==> logged == storeFails
    ensures projectId in old(db.projects) ==>
      var p := old(db.projects)[projectId];
      db.projects == if storeFails then old(db.projects)
                     else old(db.projects)[projectId := p.(tasks := SetCompleted(p.tasks, taskId, checked))]
  {
    var project := db.Get(projectId);
    if project.None? {
      return false;
    }
    var updated := SetCompleted(project.value.tasks, taskId, checked);
    var ok := db.Update(projectId, Db.SetTasks(updated), storeFails);
    logged := !ok;
  }

  // ---------------------------------------------------------------------------
  // priorityBadgeVariant

  function PriorityBadgeVariant(priority: Priority): (v: BadgeVariant)
    ensures v == Destructive <==> priority == Alta
    ensures v == Secondary <==> priority == Media
    ensures v == Outline <==> priority == Baja
  {
    match priority
    case Alta => Destructive
    case Media => Secondary
    case Baja => Outline
  }
}
