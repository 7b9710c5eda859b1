/**
  The program's entry point: resolve the project and the task by name among the current
  user's assignments, report the active alternatives if either is missing, and otherwise
  fill the requested weeks.
 */
module FillHarvest {
  import opened Wrappers
  import opened Assignments
  import opened Fill

  /** The five positional command-line arguments. */
  datatype Args = Args(weeklyHours: int, projectName: string, taskName: string, startWeek: int, endWeek: int)

  /** How a run ended: a name was not resolved (with the alternatives reported), or the weeks were filled. */
  datatype RunOutcome = NotResolved(reason: NotFound) | Filled(fill: FillOutcome)

  /**
    One run for the user `userId`, whose assignments are `assignments`, in calendar year
    `year` (the current year).
   */
  method Run(service: TimeEntryService, year: int, userId: int, assignments: seq<ProjectAssignment>, args: Args)
    returns (outcome: RunOutcome)
    modifies service
    ensures outcome.NotResolved? ==>
      && Resolve(assignments, args.projectName, args.taskName) == Err(outcome.reason)
      && service.requests == old(service.requests)
    ensures outcome.Filled? ==>
      && Resolve(assignments, args.projectName, args.taskName).Ok?
      && var r := Resolve(assignments, args.projectName, args.taskName).value;
      && |old(service.requests)| <= |service.requests|
      && service.requests[..|old(service.requests)|] == old(service.requests)
      && Reported(service.requests[|old(service.requests)|..],
           PlanWeeks(year, userId, r.project.ref.id, r.task.ref.id, args.startWeek, args.endWeek, args.weeklyHours),
           outcome.fill)
  {
    match Resolve(assignments, args.projectName, args.taskName)
    case Err(reason) =>
      outcome := NotResolved(reason);
    case Ok(r) =>
      var fill := FillWeeks(service, year, userId, r.project.ref.id, r.task.ref.id, args.startWeek, args.endWeek, args.weeklyHours);
      outcome := Filled(fill);
  }
}
