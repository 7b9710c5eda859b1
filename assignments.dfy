/**
  The current user's project assignments, and how a project and then a task within it are
  picked by name: the first assignment, in list order, whose name matches exactly and
  which is active.
 */
module Assignments {
  import opened Wrappers

  /** The id and name of a project or a task, as the service reports them. */
  datatype Ref = Ref(id: int, name: string)

  /**
    An assignment of the current user to a project or a task: what it refers to, whether
    it is active, and what it holds (a project assignment holds its task assignments).
   */
  datatype Assignment<+C> = Assignment(ref: Ref, isActive: bool, children: C)

  type TaskAssignment = Assignment<()>

  type ProjectAssignment = Assignment<seq<TaskAssignment>>

  /** `a` may be picked for `name`: its name is exactly `name` and it is active. */
  predicate Selects<C>(a: Assignment<C>, name: string) {
    a.ref.name == name && a.isActive
  }

  /** The first assignment of `xs` that `name` selects, if any. */
  function FindActive<C>(xs: seq<Assignment<C>>, name: string): (r: Option<Assignment<C>>)
    ensures r.Some? ==> Selects(r.value, name)
    ensures r.None? <==> forall i | 0 <= i < |xs| :: !Selects(xs[i], name)
  {
    if xs == [] then None
    else if Selects(xs[0], name) then Some(xs[0])
    else FindActive(xs[1..], name)
  }

  /** The names of the active assignments of `xs`, in list order. */
  function ActiveNames<C>(xs: seq<Assignment<C>>): (names: seq<string>)
    ensures |names| <= |xs|
    ensures names == [] <==> forall i | 0 <= i < |xs| :: !xs[i].isActive
  {
    if xs == [] then []
    else (if xs[0].isActive then [xs[0].ref.name] else []) + ActiveNames(xs[1..])
  }

  /** Lookup returns the earliest assignment that the name selects. */
  lemma {:induction false} FindActiveIsFirst<C>(xs: seq<Assignment<C>>, name: string, i: int)
    requires 0 <= i < |xs| && Selects(xs[i], name)
    requires forall j | 0 <= j < i :: !Selects(xs[j], name)
    ensures FindActive(xs, name) == Some(xs[i])
  {
    if i > 0 {
      FindActiveIsFirst(xs[1..], name, i - 1);
    }
  }

  /** Whatever lookup returns sits at a position of `xs` before which nothing is selected. */
  lemma {:induction false} FindActiveFound<C>(xs: seq<Assignment<C>>, name: string) returns (i: int)
    requires FindActive(xs, name).Some?
    ensures 0 <= i < |xs| && xs[i] == FindActive(xs, name).value
    ensures forall j | 0 <= j < i :: !Selects(xs[j], name)
  {
    if Selects(xs[0], name) {
      i := 0;
    } else {
      var k := FindActiveFound(xs[1..], name);
      i := k + 1;
    }
  }

  /** A name resolves exactly when it is among the active names offered as alternatives. */
  lemma {:induction false} ActiveNamesOffered<C>(xs: seq<Assignment<C>>, name: string)
    ensures name in ActiveNames(xs) <==> FindActive(xs, name).Some?
  {
    if xs != [] {
      ActiveNamesOffered(xs[1..], name);
    }
  }

  /** Listing active names keeps list order: the names of a concatenation are the concatenated names. */
  lemma {:induction false} ActiveNamesAppend<C>(xs: seq<Assignment<C>>, ys: seq<Assignment<C>>)
    ensures ActiveNames(xs + ys) == ActiveNames(xs) + ActiveNames(ys)
  {
    if xs != [] {
      assert (xs + ys)[1..] == xs[1..] + ys;
      ActiveNamesAppend(xs[1..], ys);
    } else {
      assert xs + ys == ys;
    }
  }

  /** The project and task that a run fills time against. */
  datatype Resolution = Resolution(project: ProjectAssignment, task: TaskAssignment)

  /** Why resolution failed, with the active alternatives reported to the user. */
  datatype NotFound = ProjectNotFound(available: seq<string>) | TaskNotFound(available: seq<string>)

  /**
    Resolves the project by name among the user's assignments, then the task by name among
    that project's task assignments; on a failure, reports the active names at that level.
   */
  function Resolve(assignments: seq<ProjectAssignment>, projectName: string, taskName: string)
    : (r: Result<Resolution, NotFound>)
    ensures r.Ok? ==> Selects(r.value.project, projectName) && Selects(r.value.task, taskName)
    ensures r.Ok? ==>
      && FindActive(assignments, projectName) == Some(r.value.project)
      && FindActive(r.value.project.children, taskName) == Some(r.value.task)
    ensures r.Err? && r.error.ProjectNotFound? <==> projectName !in ActiveNames(assignments)
    ensures r.Err? && r.error.ProjectNotFound? ==> r.error.available == ActiveNames(assignments)
    ensures r.Err? && r.error.TaskNotFound? ==>
      && FindActive(assignments, projectName).Some?
      && r.error.available == ActiveNames(FindActive(assignments, projectName).value.children)
      && taskName !in r.error.available
    ensures r.Err? && r.error.TaskNotFound? <==>
      && projectName in ActiveNames(assignments)
      && taskName !in ActiveNames(FindActive(assignments, projectName).value.children)
  {
    ActiveNamesOffered(assignments, projectName);
    match FindActive(assignments, projectName)
    case None => Err(ProjectNotFound(ActiveNames(assignments)))
    case Some(project) =>
      ActiveNamesOffered(project.children, taskName);
      match FindActive(project.children, taskName)
      case None => Err(TaskNotFound(ActiveNames(project.children)))
      case Some(task) => Ok(Resolution(project, task))
  }
}
