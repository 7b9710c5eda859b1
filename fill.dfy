/**
  Filling a range of ISO weeks with time entries: for every week, five entries dated Monday
  to Friday of that week, each carrying the weekly hours divided by five. Every entry is
  sent to the time-tracking service with one POST; the first failure stops the run.

  Hours are exact integer hundredths of an hour. A date is a day ordinal (see Calendar).
 */
module Fill {
  import opened Wrappers
  import opened Calendar

  /** The body of one `POST time_entries`. */
  datatype TimeEntry = TimeEntry(userId: int, projectId: int, taskId: int, spentDate: int, hours: int)

  /** `num / den` rounded to the nearest integer, ties to the even neighbour. */
  function RoundHalfEven(num: int, den: int): (r: int)
    requires den > 0
    ensures 2 * (num - r * den) <= den && 2 * (r * den - num) <= den
  {
    var q, rem := num / den, num % den;
    assert num == q * den + rem;
    if 2 * rem < den || (2 * rem == den && q % 2 == 0) then q
    else
      assert (q + 1) * den == q * den + den;
      q + 1
  }

  /** Hours booked on each weekday, in hundredths: a fifth of the weekly hours. */
  function DailyHours(weeklyHours: int): (h: int)
    ensures 5 * h == 100 * weeklyHours
  {
    weeklyHours * 20
  }

  /** Rounding the exact fifth of the weekly hours to two decimal places loses nothing. */
  lemma DailyHoursIsRounded(weeklyHours: int)
    ensures DailyHours(weeklyHours) == RoundHalfEven(100 * weeklyHours, 5)
  {
    assert 100 * weeklyHours == 5 * (20 * weeklyHours);
  }

  /** The five entries of the week that starts on `monday`. */
  function WeekEntries(userId: int, projectId: int, taskId: int, monday: int, hours: int): (entries: seq<TimeEntry>) {
    seq(5, i => TimeEntry(userId, projectId, taskId, monday + i, hours))
  }

  /**
    What filling weeks `start`..`end` of `year` is meant to send: the entries of each week in
    ascending order, up to the first week the year does not have (`stop`).
   */
  datatype Plan = Plan(entries: seq<TimeEntry>, stop: Option<int>)

  function PlanWeeks(year: int, userId: int, projectId: int, taskId: int, start: int, end: int, weeklyHours: int): (p: Plan)
    decreases end - start
  {
    if start > end then Plan([], None)
    else
      var before := PlanWeeks(year, userId, projectId, taskId, start, end - 1, weeklyHours);
      if before.stop.Some? then before
      else match FromIsoCalendar(year, end, 1)
        case Err(_) => Plan(before.entries, Some(end))
        case Ok(monday) => Plan(before.entries + WeekEntries(userId, projectId, taskId, monday, DailyHours(weeklyHours)), None)
  }

  /** One POST the service received, and whether it answered 201 Created. */
  datatype Request = Request(body: TimeEntry, created: bool)

  /** How a fill ended: every planned entry created, a week the year does not have, or a rejected POST. */
  datatype FillOutcome = Completed | NoSuchWeek(week: int) | PostFailed(body: TimeEntry)

  /**
    `sent` is what a fill that ended with `outcome` sent for `plan`: the planned entries in
    order, every one created except a rejected last one, and nothing after a rejection.
   */
  ghost predicate Reported(sent: seq<Request>, plan: Plan, outcome: FillOutcome) {
    && |sent| <= |plan.entries|
    && (forall k | 0 <= k < |sent| :: sent[k].body == plan.entries[k])
    && (forall k | 0 <= k < |sent| - 1 :: sent[k].created)
    && match outcome
       case Completed =>
         plan.stop.None? && |sent| == |plan.entries| && (sent != [] ==> sent[|sent| - 1].created)
       case NoSuchWeek(w) =>
         plan.stop == Some(w) && |sent| == |plan.entries| && (sent != [] ==> sent[|sent| - 1].created)
       case PostFailed(body) =>
         sent != [] && !sent[|sent| - 1].created && sent[|sent| - 1].body == body
  }

  /** The time-tracking service, as seen through the POSTs it receives. */
  class TimeEntryService {
    /** Every `POST time_entries` so far, in order. */
    ghost var requests: seq<Request>

    constructor ()
      ensures requests == []
    {
      requests := [];
    }

    /** Sends one entry; the service may create it (status 201) or not. */
    method Post(body: TimeEntry) returns (created: bool)
      modifies this
      ensures requests == old(requests) + [Request(body, created)]
    {
      created := *;
      requests := requests + [Request(body, created)];
    }
  }

  /** Fills ISO week `week` of `year`: five POSTs, Monday to Friday, stopping at a rejected one. */
  method FillWeek(service: TimeEntryService, year: int, userId: int, projectId: int, taskId: int, week: int, weeklyHours: int)
    returns (outcome: FillOutcome)
    modifies service
    ensures |old(service.requests)| <= |service.requests|
    ensures service.requests[..|old(service.requests)|] == old(service.requests)
    ensures Reported(service.requests[|old(service.requests)|..], PlanWeeks(year, userId, projectId, taskId, week, week, weeklyHours), outcome)
  {
    var hours := DailyHours(weeklyHours);
    var start := FromIsoCalendar(year, week, 1);
    OneWeekPlan(year, userId, projectId, taskId, week, weeklyHours);
    if start.Err? {
      assert service.requests[|old(service.requests)|..] == [];
      return NoSuchWeek(week);
    }
    outcome := PostWorkweek(service, userId, projectId, taskId, start.value, hours);
  }

  /** The loop of a week's fill: POSTs Monday to Friday of the week starting on `monday`, stopping at a rejected one. */
  method PostWorkweek(service: TimeEntryService, userId: int, projectId: int, taskId: int, monday: int, hours: int)
    returns (outcome: FillOutcome)
    modifies service
    ensures |old(service.requests)| <= |service.requests|
    ensures service.requests[..|old(service.requests)|] == old(service.requests)
    ensures Reported(service.requests[|old(service.requests)|..], Plan(WeekEntries(userId, projectId, taskId, monday, hours), None), outcome)
  {
    ghost var plan := Plan(WeekEntries(userId, projectId, taskId, monday, hours), None);
    ghost var sent: seq<Request> := [];
    var i := 0;
    while i < 5
      invariant 0 <= i <= 5 && |sent| == i
      invariant service.requests == old(service.requests) + sent
      invariant forall k | 0 <= k < i :: sent[k] == Request(plan.entries[k], true)
    {
      var body := TimeEntry(userId, projectId, taskId, monday + i, hours);
      var created := service.Post(body);
      sent := sent + [Request(body, created)];
      if !created {
        assert service.requests[|old(service.requests)|..] == sent;
        ReportFailure(sent, plan);
        return PostFailed(body);
      }
      i := i + 1;
    }
    assert service.requests[|old(service.requests)|..] == sent;
    ReportCompletion(sent, plan);
    return Completed;
  }

  /** One week's plan: that week's five entries, or a stop when the year lacks the week. */
  lemma OneWeekPlan(year: int, userId: int, projectId: int, taskId: int, week: int, weeklyHours: int)
    ensures var start := FromIsoCalendar(year, week, 1);
            PlanWeeks(year, userId, projectId, taskId, week, week, weeklyHours) ==
              if start.Err? then Plan([], Some(week))
              else Plan(WeekEntries(userId, projectId, taskId, start.value, DailyHours(weeklyHours)), None)
  {
    assert PlanWeeks(year, userId, projectId, taskId, week, week - 1, weeklyHours) == Plan([], None);
  }

  /** Planned entries sent in order, all created but the last, which was rejected. */
  lemma ReportFailure(sent: seq<Request>, plan: Plan)
    requires 0 < |sent| <= |plan.entries|
    requires forall k | 0 <= k < |sent| - 1 :: sent[k] == Request(plan.entries[k], true)
    requires sent[|sent| - 1].body == plan.entries[|sent| - 1] && !sent[|sent| - 1].created
    ensures Reported(sent, plan, PostFailed(sent[|sent| - 1].body))
  {
  }

  /** Every planned entry sent in order and created. */
  lemma ReportCompletion(sent: seq<Request>, plan: Plan)
    requires |sent| == |plan.entries| && plan.stop.None?
    requires forall k | 0 <= k < |sent| :: sent[k] == Request(plan.entries[k], true)
    ensures Reported(sent, plan, Completed)
  {
  }

  /** Fills weeks `start`..`end` of `year` in ascending order; the first failing week ends the run. */
  method FillWeeks(service: TimeEntryService, year: int, userId: int, projectId: int, taskId: int, start: int, end: int, weeklyHours: int)
    returns (outcome: FillOutcome)
    modifies service
    ensures |old(service.requests)| <= |service.requests|
    ensures service.requests[..|old(service.requests)|] == old(service.requests)
    ensures Reported(service.requests[|old(service.requests)|..], PlanWeeks(year, userId, projectId, taskId, start, end, weeklyHours), outcome)
  {
    ghost var n0 := |service.requests|;
    var w := start;
    while w <= end
      invariant start <= w <= if start <= end then end + 1 else start
      invariant n0 <= |service.requests| && service.requests[..n0] == old(service.requests)
      invariant Reported(service.requests[n0..], PlanWeeks(year, userId, projectId, taskId, start, w - 1, weeklyHours), Completed)
      decreases end - w
    {
      ghost var before := service.requests;
      outcome := FillWeek(service, year, userId, projectId, taskId, w, weeklyHours);
      assert service.requests[n0..] == before[n0..] + service.requests[|before|..];
      FillStep(before[n0..], service.requests[|before|..], year, userId, projectId, taskId, start, w, end, weeklyHours, outcome);
      if !outcome.Completed? {
        return;
      }
      w := w + 1;
    }
    assert PlanWeeks(year, userId, projectId, taskId, start, w - 1, weeklyHours)
        == PlanWeeks(year, userId, projectId, taskId, start, end, weeklyHours);
    outcome := Completed;
  }

  /**
    After weeks start..w-1 were filled completely, filling week w either completes weeks
    start..w, or ends the whole run start..end with the same outcome.
   */
  lemma FillStep(done: seq<Request>, sent: seq<Request>, year: int, userId: int, projectId: int, taskId: int,
                 start: int, w: int, end: int, weeklyHours: int, outcome: FillOutcome)
    requires start <= w <= end
    requires Reported(done, PlanWeeks(year, userId, projectId, taskId, start, w - 1, weeklyHours), Completed)
    requires Reported(sent, PlanWeeks(year, userId, projectId, taskId, w, w, weeklyHours), outcome)
    ensures outcome.Completed? ==> Reported(done + sent, PlanWeeks(year, userId, projectId, taskId, start, w, weeklyHours), Completed)
    ensures !outcome.Completed? ==> Reported(done + sent, PlanWeeks(year, userId, projectId, taskId, start, end, weeklyHours), outcome)
  {
    PlanAppendWeek(year, userId, projectId, taskId, start, w, weeklyHours);
    ReportedConcat(done, sent,
      PlanWeeks(year, userId, projectId, taskId, start, w - 1, weeklyHours),
      PlanWeeks(year, userId, projectId, taskId, w, w, weeklyHours), outcome);
    if !outcome.Completed? {
      PlanGrows(year, userId, projectId, taskId, start, w, end, weeklyHours);
      ReportedExtend(done + sent,
        PlanWeeks(year, userId, projectId, taskId, start, w, weeklyHours),
        PlanWeeks(year, userId, projectId, taskId, start, end, weeklyHours), outcome);
    }
  }

  /** Planning one more week appends that week's own plan. */
  lemma PlanAppendWeek(year: int, userId: int, projectId: int, taskId: int, start: int, w: int, weeklyHours: int)
    requires start <= w
    requires PlanWeeks(year, userId, projectId, taskId, start, w - 1, weeklyHours).stop.None?
    ensures PlanWeeks(year, userId, projectId, taskId, start, w, weeklyHours).entries
         == PlanWeeks(year, userId, projectId, taskId, start, w - 1, weeklyHours).entries
          + PlanWeeks(year, userId, projectId, taskId, w, w, weeklyHours).entries
    ensures PlanWeeks(year, userId, projectId, taskId, start, w, weeklyHours).stop
         == PlanWeeks(year, userId, projectId, taskId, w, w, weeklyHours).stop
  {
    assert PlanWeeks(year, userId, projectId, taskId, w, w - 1, weeklyHours) == Plan([], None);
  }

  /** Planning further weeks only appends entries, and changes nothing once a week was missing. */
  lemma {:induction false} PlanGrows(year: int, userId: int, projectId: int, taskId: int, start: int, e: int, e': int, weeklyHours: int)
    requires start - 1 <= e <= e'
    ensures var p := PlanWeeks(year, userId, projectId, taskId, start, e, weeklyHours);
            var q := PlanWeeks(year, userId, projectId, taskId, start, e', weeklyHours);
            && |p.entries| <= |q.entries| && q.entries[..|p.entries|] == p.entries
            && (p.stop.Some? ==> q == p)
    decreases e' - e
  {
    if e < e' {
      PlanGrows(year, userId, projectId, taskId, start, e, e' - 1, weeklyHours);
    }
  }

  /** A completed fill followed by the fill of one more week reports on the joined plan. */
  lemma ReportedConcat(before: seq<Request>, sent: seq<Request>, done: Plan, week: Plan, outcome: FillOutcome)
    requires Reported(before, done, Completed)
    requires Reported(sent, week, outcome)
    ensures Reported(before + sent, Plan(done.entries + week.entries, week.stop), outcome)
  {
    var all := before + sent;
    var plan := Plan(done.entries + week.entries, week.stop);
    forall k | 0 <= k < |all|
      ensures all[k].body == plan.entries[k]
      ensures k < |all| - 1 ==> all[k].created
    {
      if k >= |before| {
        assert all[k] == sent[k - |before|];
      }
    }
  }

  /** A fill that stopped early reports the same on any plan that only extends its own. */
  lemma ReportedExtend(sent: seq<Request>, p: Plan, q: Plan, outcome: FillOutcome)
    requires Reported(sent, p, outcome) && !outcome.Completed?
    requires |p.entries| <= |q.entries| && q.entries[..|p.entries|] == p.entries
    requires outcome.NoSuchWeek? ==> q == p
    ensures Reported(sent, q, outcome)
  {
    forall k | 0 <= k < |sent|
      ensures sent[k].body == q.entries[k]
    {
      assert q.entries[..|p.entries|][k] == q.entries[k];
    }
  }

  /**
    A single week: five entries dated Monday to Friday of ISO week `week`, with the ids given
    and a fifth of the weekly hours each; nothing at all when the year has no such week.
   */
  lemma WeekPlan(year: int, userId: int, projectId: int, taskId: int, week: int, weeklyHours: int)
    ensures var p := PlanWeeks(year, userId, projectId, taskId, week, week, weeklyHours);
            match FromIsoCalendar(year, week, 1)
            case Err(_) => p == Plan([], Some(week))
            case Ok(monday) =>
              && p.stop.None? && |p.entries| == 5
              && forall i | 0 <= i < 5 ::
                   && p.entries[i] == TimeEntry(userId, projectId, taskId, monday + i, DailyHours(weeklyHours))
                   && FromIsoCalendar(year, week, i + 1) == Ok(monday + i)
  {
    assert PlanWeeks(year, userId, projectId, taskId, week, week - 1, weeklyHours) == Plan([], None);
    if FromIsoCalendar(year, week, 1).Ok? {
      forall day | 1 <= day <= 5
        ensures FromIsoCalendar(year, week, day) == Ok(FromIsoCalendar(year, week, 1).value + day - 1)
      {
        WorkweekExists(year, week, day);
      }
    }
  }

  /**
    Weeks start..end of a year that has them all give five entries each, 5 * (end - start + 1)
    in all, and an empty range gives none.
   */
  lemma PlanCount(year: int, userId: int, projectId: int, taskId: int, start: int, end: int, weeklyHours: int)
    requires MinYear <= year <= MaxYear && 1 <= start && end <= WeeksInYear(year)
    ensures var p := PlanWeeks(year, userId, projectId, taskId, start, end, weeklyHours);
            p.stop.None? && |p.entries| == if start <= end then 5 * (end - start + 1) else 0
  {
    PlanStop(year, userId, projectId, taskId, start, end, weeklyHours);
    PlanLength(year, userId, projectId, taskId, start, end, weeklyHours);
  }

  /** The plan holds five entries per week planned, weeks start..end when none is missing. */
  lemma {:induction false} PlanLength(year: int, userId: int, projectId: int, taskId: int, start: int, end: int, weeklyHours: int)
    ensures var p := PlanWeeks(year, userId, projectId, taskId, start, end, weeklyHours);
            && |p.entries| == 5 * (if p.stop.Some? then p.stop.value - start else if start <= end then end - start + 1 else 0)
            && (p.stop.Some? ==> start <= p.stop.value <= end)
    decreases end - start
  {
    if start <= end {
      PlanLength(year, userId, projectId, taskId, start, end - 1, weeklyHours);
    }
  }

  /**
    Entry k of the plan is day k % 5 + 1 (Monday = 1) of ISO week start + k / 5, with the ids
    given and a fifth of the weekly hours.
   */
  lemma {:induction false} PlanEntry(year: int, userId: int, projectId: int, taskId: int, start: int, end: int, weeklyHours: int, k: int)
    requires 0 <= k < |PlanWeeks(year, userId, projectId, taskId, start, end, weeklyHours).entries|
    ensures var e := PlanWeeks(year, userId, projectId, taskId, start, end, weeklyHours).entries[k];
            && e == TimeEntry(userId, projectId, taskId, e.spentDate, DailyHours(weeklyHours))
            && FromIsoCalendar(year, start + k / 5, k % 5 + 1) == Ok(e.spentDate)
    decreases end - start
  {
    var before := PlanWeeks(year, userId, projectId, taskId, start, end - 1, weeklyHours);
    if k < |before.entries| {
      PlanEntry(year, userId, projectId, taskId, start, end - 1, weeklyHours, k);
    } else {
      PlanLength(year, userId, projectId, taskId, start, end - 1, weeklyHours);
      assert before.stop.None? && |before.entries| == 5 * (end - start);
      var monday := FromIsoCalendar(year, end, 1).value;
      var week := WeekEntries(userId, projectId, taskId, monday, DailyHours(weeklyHours));
      assert PlanWeeks(year, userId, projectId, taskId, start, end, weeklyHours).entries == before.entries + week;
      var i := k - 5 * (end - start);
      assert k / 5 == end - start && k % 5 == i;
      WorkweekExists(year, end, i + 1);
    }
  }

  /** The planned entries are in strictly ascending date order. */
  lemma PlanAscending(year: int, userId: int, projectId: int, taskId: int, start: int, end: int, weeklyHours: int, i: int, j: int)
    requires 0 <= i < j < |PlanWeeks(year, userId, projectId, taskId, start, end, weeklyHours).entries|
    ensures var es := PlanWeeks(year, userId, projectId, taskId, start, end, weeklyHours).entries;
            es[i].spentDate < es[j].spentDate
  {
    PlanEntry(year, userId, projectId, taskId, start, end, weeklyHours, i);
    PlanEntry(year, userId, projectId, taskId, start, end, weeklyHours, j);
  }

  /**
    Within a year the service accepts, the plan covers every week of start..end exactly when
    they all exist (1..WeeksInYear(year)); otherwise it stops at the first week that does not.
   */
  lemma {:induction false} PlanStop(year: int, userId: int, projectId: int, taskId: int, start: int, end: int, weeklyHours: int)
    requires MinYear <= year <= MaxYear
    ensures var p := PlanWeeks(year, userId, projectId, taskId, start, end, weeklyHours);
            var n := WeeksInYear(year);
            && (p.stop.None? <==> start > end || (1 <= start && end <= n))
            && (p.stop.Some? ==> p.stop.value == if start < 1 || start > n then start else n + 1)
    decreases end - start
  {
    if start <= end {
      PlanStop(year, userId, projectId, taskId, start, end - 1, weeklyHours);
      MondayExists(year, end);
    }
  }
}
