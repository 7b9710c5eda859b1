# fill_harvest, modelled in Dafny

`fill_harvest.py` fills a user's weekly timesheet in the Harvest time-tracking service. It
looks up the user's project assignments, picks the project and then the task by exact name
among the active ones, and for every ISO week from `start_week` to `end_week` of the current
year sends five time entries, Monday to Friday, each booking a fifth of `weekly_hours`.
If the project or the task is not found, it logs the active names it could have used and
stops without sending anything. A POST that the service does not answer with 201 raises and
ends the run.

The model has five modules:

- `Wrappers` (wrappers.dfy): `Option` and `Result`.
- `Calendar` (calendar.dfy): ISO 8601 week dates (ISO 8601:2004, section 4.1.4) on the
  proleptic Gregorian calendar, with days as ordinals (0001-01-01 is day 1). `FromIsoCalendar`
  is `datetime.date.fromisocalendar`, including the errors it raises.
- `Assignments` (assignments.dfy): project and task assignments and the name lookup. One
  generic `Assignment<C>` serves both levels, since the source applies the same rule to both.
- `Fill` (fill.dfy): the time-entry bodies, the hours, the service as a class with a ghost
  log of the POSTs it received, and `fill_week` / `fill_weeks` as loops. The spec function
  `PlanWeeks` says what a run sends. It lists the entries of each week in order, up to the
  first week the year does not have.
- `FillHarvest` (fill_harvest.dfy): `main` after argument parsing, as `Run`.

Hours are integer hundredths of an hour. `weekly_hours` is an integer, so a fifth of it has
at most one decimal digit. `round(weekly_hours / 5, 2)` is therefore exactly
`20 * weekly_hours` hundredths. Rounding never moves the value, whatever the rounding rule.

A POST may or may not be accepted. The model leaves that choice open (`created := *`). Every
request is logged together with the verdict.

## Model

| member | source | states |
|---|---|---|
| `Calendar.FromIsoCalendar` | fill_harvest.py:59 | A date is returned only for a year in 1..9999, and it lies between 0001-01-01 and 9999-12-31. When a date is returned is stated by `MondayExists`, `FromIsoCalendarSound` and `FromIsoCalendarComplete` |
| `Calendar.FromIsoCalendarSound` | fill_harvest.py:59 | The returned day is day `day` of ISO week `week` of `year`. It lies between week 1 of `year` and week 1 of the next year, and its ISO weekday is `day` |
| `Calendar.FromIsoCalendarComplete` | fill_harvest.py:59 | Completeness over the ISO week-date relation. Every day from 0001-01-01 to 9999-12-31 that is day `day` of week `week` of ISO year `year` is what `FromIsoCalendar(year, week, day)` returns |
| `Calendar.YearLength` | fill_harvest.py:59 | January 1st of the next year is 366 days later in a Gregorian leap year and 365 days later otherwise |
| `Calendar.Week1MondayRule` | fill_harvest.py:59 | Week 1 of a year starts on a Monday and holds January 4th, i.e. the year's first Thursday |
| `Calendar.IsoYearLength` | fill_harvest.py:59 | Week 1 of the next year starts exactly 7 × WeeksInYear(year) days after week 1 of `year`. So the 52/53-week rule that bounds valid week numbers agrees with the week-1 rule |
| `Calendar.MondayExists` | fill_harvest.py:59 | For years 1..9999, the Monday of week `week` exists exactly when 1 <= week <= WeeksInYear(year) |
| `Calendar.WorkweekExists` | fill_harvest.py:59-66 | Once a week's Monday exists, its Tuesday to Friday are the Monday plus 1..4 days. They are the days `fromisocalendar` gives for weekdays 2..5. None is past 9999-12-31, so `start_date + timedelta(days=i)` never overflows |
| `Fill.RoundHalfEven` | fill_harvest.py:67 | The result is an integer nearest to num / den, within half of `den` |
| `Fill.DailyHours` | fill_harvest.py:57 | Five days of the daily hours add up to exactly the weekly hours |
| `Fill.DailyHoursIsRounded` | fill_harvest.py:57-67 | The daily hours equal `weekly_hours / 5` rounded to two decimals, so the rounding loses nothing |
| `Fill.TimeEntryService.Post` | fill_harvest.py:26-32 | A POST appends its body and the service's verdict to the request log, and changes nothing else |
| `Fill.FillWeek` | fill_harvest.py:53-70 | The requests sent are those of the one-week plan, in order. All but a rejected last one are created. Nothing is sent after a rejection. A week the year lacks sends nothing. Earlier requests are kept |
| `Fill.PostWorkweek` | fill_harvest.py:61-70 | The five entries Monday to Friday are POSTed in order. All but a rejected last one are created, and nothing is sent after a rejection. Earlier requests are kept |
| `Fill.FillWeeks` | fill_harvest.py:45-50 | The requests sent are the planned entries of weeks start..end in ascending order. They stop at the first rejected POST or the first week the year lacks. Earlier requests are kept |
| `Fill.WeekPlan` | fill_harvest.py:53-70 | A week's plan is five entries dated Monday to Friday of that ISO week, each `fromisocalendar(year, week, i + 1)`. Each carries the given user, project and task ids and the daily hours. A week the year lacks gives no entry and stops |
| `Fill.PlanCount` | fill_harvest.py:49-50 | When the year has all of weeks start..end, the plan holds 5 × (end − start + 1) entries. It holds none when start > end |
| `Fill.PlanLength` | fill_harvest.py:49-50 | The plan holds five entries per week planned. A stop falls inside start..end |
| `Fill.PlanEntry` | fill_harvest.py:49-67 | Entry k is weekday k % 5 + 1 of ISO week start + k / 5, with the given ids and the daily hours |
| `Fill.PlanAscending` | fill_harvest.py:49-66 | The planned entries' dates strictly ascend |
| `Fill.PlanStop` | fill_harvest.py:49-59 | For years 1..9999, the plan covers all of start..end exactly when every week in it exists. Otherwise it stops at the first missing week: `start` itself, or WeeksInYear + 1 |
| `Assignments.FindActive` | fill_harvest.py:87-94 | A found assignment has exactly the name and is active. The result is None exactly when no assignment is both |
| `Assignments.FindActiveIsFirst` | fill_harvest.py:87-94 | The first assignment in list order that the name selects is the one returned |
| `Assignments.FindActiveFound` | fill_harvest.py:87-94 | Whatever is returned sits in the list with no selectable assignment before it |
| `Assignments.ActiveNames` | fill_harvest.py:96-100 | There are no more names than assignments. The list is empty exactly when no assignment is active |
| `Assignments.ActiveNamesOffered` | fill_harvest.py:95-102 | A name resolves exactly when it is among the active names reported as alternatives |
| `Assignments.ActiveNamesAppend` | fill_harvest.py:113-115 | Listing active names keeps list order, since it distributes over concatenation |
| `Assignments.Resolve` | fill_harvest.py:87-117 | The project is the first active assignment with exactly the requested name. The task is the first active one with exactly its name among that project's task assignments. The project is not found exactly when its name is not among the active project names, which are reported. The task is not found exactly when the project is found but the task's name is not among the project's active task names, which are reported |
| `FillHarvest.Run` | fill_harvest.py:85-126 | On a resolution failure nothing is sent and the reported alternatives are those of `Resolve`. Otherwise the run sends the plan for the resolved project's and task's ids, as `FillWeeks` states |

## Left out

- HTTP transport (`get`, `post`, `requests`, response JSON, the per-request log line) is left out. A POST is a log append with an unspecified created / not-created verdict.
- A failed POST raises an exception that ends the process. The model returns the outcome `PostFailed` instead.
- The `ValueError` that `fromisocalendar` raises for a week the year lacks is modelled as the outcome `NoSuchWeek`.
- Credentials, `headers()`, `os.environ` and `load_dotenv` are environment I/O.
- `get_user_id` and `get_project_assignments` are GETs. Their results, the user id and the assignment list, are inputs to `Run`. Only the `project_assignments` list of the response is modelled. Response paging is not modelled, and the source does not follow it either.
- Argument parsing (`argparse`, including its rejection of non-integer arguments) is left out. `Run` takes the parsed arguments.
- Logging is left out.
- `datetime.date.today()` is left out. The current year is a parameter of `Run`.
- `isoformat()` is left out. A `spent_date` is a day ordinal, not its "YYYY-MM-DD" text.
- Malformed responses are left out. Missing keys would raise `KeyError`; assignments here are typed records.
- Calendar.FromIsoCalendar: no contract says which error kind comes back for which input. Every kind stands for the same `ValueError`, which ends the run, and the model only distinguishes success from failure.
- Fill.DailyHours: the source computes `weekly_hours / 5` and `round` in binary floating point. The model uses exact hundredths. The two agree on the two-decimal value only while `weekly_hours` is small enough for a double to hold it exactly. Float behaviour beyond that is not modelled.
