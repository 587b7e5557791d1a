/**
 * The option checks and mode dispatch of `main`. `Decide` is what the
 * checks decide: reject the options (exit status 1, nothing downloaded),
 * or run the date modes in the fixed order range, single date, today, with
 * today switched on when no other mode was asked for. `RunMain` performs
 * the checks and the modes as `main` does and is proved equal to
 * `MainFlow`, which follows `main` step by step; `MainFlowDispatch` shows
 * that this is exactly running the modes `Decide` chose, in order
 * (`MainSpec`).
 */
module Cli {
  import opened Wrappers
  import opened Calendar
  import opened RangeWalk
  import opened Fetcher

  /** The options `main` reads once optparse is done; an option not given is None. */
  datatype Options = Options(
    start: Option<DateArg>,   // -b, begin of the range
    end: Option<DateArg>,     // -e, end of the range
    date: Option<DateArg>,    // -d, a single date
    today: bool,              // -t
    sections: string,         // -s, default "ABCDM"
    output: string)           // -o, the output folder

  /** One date mode to run. */
  datatype Job = RangeJob(start: DateArg, end: DateArg) | DateJob(date: DateArg) | TodayJob

  /** The position of a mode in `main`: range first, then single date, then today. */
  function Rank(j: Job): nat {
    match j
    case RangeJob(_, _) => 0
    case DateJob(_) => 1
    case TodayJob => 2
  }

  /** What the checks of `main` decide. */
  datatype Decision = Reject | Dispatch(todayForced: bool, jobs: seq<Job>)

  /**
   * The checks: a range needs both ends and at least one section is needed;
   * without a range, a date or -t, today is switched on. The modes run are
   * the range if -b was given, the date if -d was given, and today if -t was
   * given or switched on, in that order.
   */
  function Decide(o: Options): Decision {
    if o.start.Some? && o.end.None? then Reject
    else if o.start.None? && o.end.Some? then Reject
    else
      var forced := o.start.None? && o.date.None? && !o.today;
      if |o.sections| < 1 then Reject
      else
        var range := if o.start.Some? then [RangeJob(o.start.value, o.end.value)] else [];
        var single := if o.date.Some? then [DateJob(o.date.value)] else [];
        var now := if o.today || forced then [TodayJob] else [];
        Dispatch(forced, range + single + now)
  }

  /**
   * What the checks decide: options are rejected exactly when one end of the
   * range is missing or no section is given; otherwise today is switched on
   * exactly when no mode was chosen, and each mode runs exactly when it was
   * asked for (today also when switched on), at most once and in the order
   * range, date, today.
   */
  lemma DecideChecks(o: Options)
    ensures var r := Decide(o);
      (r.Reject? <==> (o.start.Some? != o.end.Some?) || |o.sections| < 1)
      && (r.Dispatch? ==> (r.todayForced <==> o.start.None? && o.date.None? && !o.today))
      && (r.Dispatch? ==> |r.jobs| >= 1)
      && (r.Dispatch? ==> forall i, j :: 0 <= i < j < |r.jobs| ==> Rank(r.jobs[i]) < Rank(r.jobs[j]))
      && (r.Dispatch? ==>
        ((exists i :: 0 <= i < |r.jobs| && r.jobs[i].RangeJob?) <==> o.start.Some?)
        && ((exists i :: 0 <= i < |r.jobs| && r.jobs[i].DateJob?) <==> o.date.Some?)
        && ((exists i :: 0 <= i < |r.jobs| && r.jobs[i].TodayJob?) <==> o.today || r.todayForced))
      && (r.Dispatch? ==> forall i :: 0 <= i < |r.jobs| ==>
        (r.jobs[i].RangeJob? ==> o.start == Some(r.jobs[i].start) && o.end == Some(r.jobs[i].end))
        && (r.jobs[i].DateJob? ==> o.date == Some(r.jobs[i].date)))
  {
    if Decide(o).Dispatch? {
      var forced := o.start.None? && o.date.None? && !o.today;
      var range := if o.start.Some? then [RangeJob(o.start.value, o.end.value)] else [];
      var single := if o.date.Some? then [DateJob(o.date.value)] else [];
      var now := if o.today || forced then [TodayJob] else [];
      var jobs := range + single + now;
      assert Decide(o).jobs == jobs;
      assert forall i :: 0 <= i < |jobs| ==>
        jobs[i] == if i < |range| then range[i]
                   else if i < |range| + |single| then single[i - |range|]
                   else now[i - |range| - |single|];
      assert o.start.Some? ==> jobs[0].RangeJob?;
      assert o.date.Some? ==> jobs[|range|].DateJob?;
      assert o.today || forced ==> jobs[|range| + |single|].TodayJob?;
    }
  }

  // ---------------------------------------------------------------------
  // Running the modes.

  /** The dates a mode visits when nothing goes wrong. */
  function JobDates(j: Job, clock: ValidDate): seq<ValidDate> {
    match j
    case RangeJob(s, e) => if s.Given? && e.Given? then RangeDates(s.date, e.date) else []
    case DateJob(a) => if a.Given? then [a.date] else []
    case TodayJob => [clock]
  }

  /** What running one mode does. */
  ghost function JobLog(fetch: Transport, output: string, sections: string, clock: ValidDate, j: Job): Log
    requires DatesEnd(fetch, sections, JobDates(j, clock))
  {
    match j
    case RangeJob(s, e) =>
      if s.Malformed? || e.Malformed? then Log([], Exit(1))
      else RangeSpec(fetch, output, sections, s.date, e.date)
    case DateJob(a) =>
      if a.Malformed? then Log([], Exit(1))
      else
        assert JobDates(j, clock)[0] == a.date;
        Log([DaySpec(fetch, output, sections, a.date)], Normal)
    case TodayJob =>
      assert JobDates(j, clock)[0] == clock;
      Log([DaySpec(fetch, output, sections, clock)], Normal)
  }

  /** Running one mode, as a function of the mode. */
  ghost function JobRun(fetch: Transport, output: string, sections: string, clock: ValidDate): Job --> Log {
    j requires DatesEnd(fetch, sections, JobDates(j, clock)) => JobLog(fetch, output, sections, clock, j)
  }

  /** Running a mode with `JobRun` is `JobLog`, defined when every date of the mode ends. */
  lemma JobRunIs(fetch: Transport, output: string, sections: string, clock: ValidDate, j: Job)
    requires DatesEnd(fetch, sections, JobDates(j, clock))
    ensures JobRun(fetch, output, sections, clock).requires(j)
    ensures JobRun(fetch, output, sections, clock)(j) == JobLog(fetch, output, sections, clock, j)
  {
  }

  /**
   * Every mode that a run with `run` reaches is one `run` is defined on: the
   * first mode, and each later one as long as the modes before it ended
   * normally. Modes after an exit or exception are never started.
   */
  ghost predicate Reaches(run: Job --> Log, jobs: seq<Job>)
    decreases |jobs|
  {
    jobs == [] || (run.requires(jobs[0]) && (run(jobs[0]).status == Normal ==> Reaches(run, jobs[1..])))
  }

  /** Running modes in order with `run`; an exit or exception in one ends the run. */
  ghost function RunJobs(run: Job --> Log, jobs: seq<Job>): Log
    requires Reaches(run, jobs)
    decreases |jobs|
  {
    if jobs == [] then Log([], Normal)
    else
      var first := run(jobs[0]);
      if first.status != Normal then first
      else Prepend(first.days, RunJobs(run, jobs[1..]))
  }

  /** The days already handled, followed by what the rest of the run does. */
  function Prepend(days: seq<DayRun>, rest: Log): Log {
    Log(days + rest.days, rest.status)
  }

  /**
   * Every date of every decided mode that `main` reaches ends, so `main`
   * terminates. A mode after one that exits or raises is never reached, so
   * nothing is asked of its dates.
   */
  ghost predicate MainEnds(fetch: Transport, o: Options, clock: ValidDate) {
    Decide(o).Dispatch? ==> JobsReachedEnd(fetch, o.output, o.sections, clock, Decide(o).jobs)
  }

  /**
   * Every date of the first mode ends and, if that mode ends normally, the
   * same holds for the remaining modes.
   */
  ghost predicate JobsReachedEnd(fetch: Transport, output: string, sections: string, clock: ValidDate, jobs: seq<Job>)
    decreases |jobs|
  {
    jobs == [] ||
      (DatesEnd(fetch, sections, JobDates(jobs[0], clock))
       && (JobLog(fetch, output, sections, clock, jobs[0]).status == Normal ==>
             JobsReachedEnd(fetch, output, sections, clock, jobs[1..])))
  }

  /** Modes whose reached dates all end are modes a run with `JobRun` reaches. */
  lemma {:induction false} JobsReachedRun(fetch: Transport, output: string, sections: string, clock: ValidDate, jobs: seq<Job>)
    requires JobsReachedEnd(fetch, output, sections, clock, jobs)
    ensures Reaches(JobRun(fetch, output, sections, clock), jobs)
    decreases |jobs|
  {
    if jobs != [] {
      JobRunIs(fetch, output, sections, clock, jobs[0]);
      if JobLog(fetch, output, sections, clock, jobs[0]).status == Normal {
        JobsReachedRun(fetch, output, sections, clock, jobs[1..]);
      }
    }
  }

  /** What `main` does, given the options, today's date and the network: the decided modes, run in order. */
  ghost function MainSpec(fetch: Transport, o: Options, clock: ValidDate): Log
    requires MainEnds(fetch, o, clock)
  {
    match Decide(o)
    case Reject => Log([], Exit(1))
    case Dispatch(_, jobs) =>
      JobsReachedRun(fetch, o.output, o.sections, clock, jobs);
      RunJobs(JobRun(fetch, o.output, o.sections, clock), jobs)
  }

  /** Whether `main` runs today's date: -t, or no mode chosen at all. */
  predicate TodaySelected(o: Options) {
    o.today || (o.start.None? && o.date.None?)
  }

  /**
   * The modes `main` reaches end on every date they visit: the range if
   * selected, the single date if selected and the range ended normally,
   * and today if selected and both earlier modes ended normally.
   */
  lemma MainEndsModes(fetch: Transport, o: Options, clock: ValidDate)
    requires MainEnds(fetch, o, clock)
    requires o.start.Some? == o.end.Some? && |o.sections| >= 1
    ensures o.start.Some? ==>
      DatesEnd(fetch, o.sections, JobDates(RangeJob(o.start.value, o.end.value), clock))
    ensures o.date.Some?
      && (o.start.Some? ==> JobLog(fetch, o.output, o.sections, clock, RangeJob(o.start.value, o.end.value)).status == Normal)
      ==> DatesEnd(fetch, o.sections, JobDates(DateJob(o.date.value), clock))
    ensures TodaySelected(o)
      && (o.start.Some? ==> JobLog(fetch, o.output, o.sections, clock, RangeJob(o.start.value, o.end.value)).status == Normal)
      && (o.date.Some? ==> JobLog(fetch, o.output, o.sections, clock, DateJob(o.date.value)).status == Normal)
      ==> DatesEnd(fetch, o.sections, JobDates(TodayJob, clock))
  {
    var range := if o.start.Some? then [RangeJob(o.start.value, o.end.value)] else [];
    var single := if o.date.Some? then [DateJob(o.date.value)] else [];
    var now := if TodaySelected(o) then [TodayJob] else [];
    var rest := Decide(o).jobs;
    assert rest == range + single + now;
    if o.start.Some? {
      var j := RangeJob(o.start.value, o.end.value);
      assert rest[0] == j;
      if JobLog(fetch, o.output, o.sections, clock, j).status != Normal {
        return;
      }
      rest := rest[1..];
    }
    assert rest == single + now && JobsReachedEnd(fetch, o.output, o.sections, clock, rest);
    if o.date.Some? {
      var j := DateJob(o.date.value);
      assert rest[0] == j;
      if JobLog(fetch, o.output, o.sections, clock, j).status != Normal {
        return;
      }
      rest := rest[1..];
    }
    assert rest == now && JobsReachedEnd(fetch, o.output, o.sections, clock, rest);
    if TodaySelected(o) {
      assert rest[0] == TodayJob;
    }
  }

  /**
   * `main` step by step: exit 1 on bad options; otherwise the range (if
   * -b), then the single date (if -d), then today (if selected), where a
   * mode that exits or raises ends the run.
   */
  ghost function MainFlow(fetch: Transport, o: Options, clock: ValidDate): Log
    requires MainEnds(fetch, o, clock)
  {
    if o.start.Some? != o.end.Some? || |o.sections| < 1 then Log([], Exit(1))
    else
      MainEndsModes(fetch, o, clock);
      var ranged := if o.start.Some? then JobLog(fetch, o.output, o.sections, clock, RangeJob(o.start.value, o.end.value))
                    else Log([], Normal);
      if ranged.status != Normal then ranged
      else
        var dated := if o.date.Some? then JobLog(fetch, o.output, o.sections, clock, DateJob(o.date.value))
                     else Log([], Normal);
        if dated.status != Normal then Log(ranged.days + dated.days, dated.status)
        else
          var now := if TodaySelected(o) then JobLog(fetch, o.output, o.sections, clock, TodayJob)
                     else Log([], Normal);
          Log(ranged.days + dated.days + now.days, now.status)
  }

  /**
   * `main` after option parsing: the sanity checks (exit 1 before any
   * download), then the range, the single date and today's date, each
   * only if selected, in that order.
   */
  method RunMain(fetch: Transport, o: Options, clock: ValidDate) returns (log: Log)
    requires MainEnds(fetch, o, clock)
    ensures log == MainFlow(fetch, o, clock)
  {
    if o.start.Some? && o.end.None? {
      return Log([], Exit(1));
    }
    if o.start.None? && o.end.Some? {
      return Log([], Exit(1));
    }
    var today := o.today;
    if o.start.None? && o.date.None? && !today {
      today := true;
    }
    if |o.sections| < 1 {
      return Log([], Exit(1));
    }
    MainEndsModes(fetch, o, clock);
    var ranged := Log([], Normal);
    if o.start.Some? {
      ranged := DownloadRange(fetch, o.start.value, o.end.value, o.sections, o.output);
      assert ranged == JobLog(fetch, o.output, o.sections, clock, RangeJob(o.start.value, o.end.value));
      if ranged.status != Normal {
        return ranged;
      }
    }
    var dated := Log([], Normal);
    if o.date.Some? {
      assert o.date.value.Given? ==> JobDates(DateJob(o.date.value), clock)[0] == o.date.value.date;
      dated := DownloadDate(fetch, o.date.value, o.sections, o.output);
      assert dated == JobLog(fetch, o.output, o.sections, clock, DateJob(o.date.value));
      if dated.status != Normal {
        return Log(ranged.days + dated.days, dated.status);
      }
    }
    var now := Log([], Normal);
    if today {
      assert JobDates(TodayJob, clock)[0] == clock;
      now := DownloadDate(fetch, Given(clock), o.sections, o.output);
    }
    return Log(ranged.days + dated.days + now.days, now.status);
  }

  /**
   * Running xs then ys is running xs and, if that ended normally, going on
   * with ys; a run reaching the modes of xs + ys reaches those of xs, and
   * those of ys when xs ended normally.
   */
  lemma {:induction false} RunJobsConcat(run: Job --> Log, xs: seq<Job>, ys: seq<Job>)
    requires Reaches(run, xs + ys)
    ensures Reaches(run, xs)
    ensures RunJobs(run, xs).status == Normal ==> Reaches(run, ys)
    ensures RunJobs(run, xs + ys)
      == if RunJobs(run, xs).status != Normal then RunJobs(run, xs)
         else Prepend(RunJobs(run, xs).days, RunJobs(run, ys))
    decreases |xs|
  {
    if xs == [] {
      assert xs + ys == ys;
      var r := RunJobs(run, ys);
      assert [] + r.days == r.days;
    } else {
      assert (xs + ys)[0] == xs[0];
      assert (xs + ys)[1..] == xs[1..] + ys;
      var first := run(xs[0]);
      if first.status == Normal {
        RunJobsConcat(run, xs[1..], ys);
        var mid := RunJobs(run, xs[1..]);
        if mid.status == Normal {
          var rest := RunJobs(run, ys);
          assert first.days + (mid.days + rest.days) == (first.days + mid.days) + rest.days;
        }
      }
    }
  }

  /**
   * `main` as written does what the dispatch decision says: it runs the
   * decided modes in the order range, date, today, and a mode that exits or
   * raises ends the run.
   */
  lemma MainFlowDispatch(fetch: Transport, o: Options, clock: ValidDate)
    requires MainEnds(fetch, o, clock)
    ensures MainFlow(fetch, o, clock) == MainSpec(fetch, o, clock)
  {
    if Decide(o).Dispatch? {
      var run := JobRun(fetch, o.output, o.sections, clock);
      var range := if o.start.Some? then [RangeJob(o.start.value, o.end.value)] else [];
      var single := if o.date.Some? then [DateJob(o.date.value)] else [];
      var now := if TodaySelected(o) then [TodayJob] else [];
      var jobs := Decide(o).jobs;
      assert jobs == (range + single) + now;
      MainEndsModes(fetch, o, clock);
      JobsReachedRun(fetch, o.output, o.sections, clock, jobs);
      RunJobsConcat(run, range + single, now);
      RunJobsConcat(run, range, single);
      ModeRun(run, range, fetch, o.output, o.sections, clock);
      if RunJobs(run, range).status == Normal {
        ModeRun(run, single, fetch, o.output, o.sections, clock);
        if RunJobs(run, single).status == Normal {
          ModeRun(run, now, fetch, o.output, o.sections, clock);
        }
      }
    }
  }

  /** A mode list of at most one mode runs like that mode, or like nothing. */
  lemma ModeRun(run: Job --> Log, js: seq<Job>, fetch: Transport, output: string, sections: string, clock: ValidDate)
    requires run == JobRun(fetch, output, sections, clock)
    requires |js| <= 1
    requires forall k :: 0 <= k < |js| ==> DatesEnd(fetch, sections, JobDates(js[k], clock))
    ensures Reaches(run, js)
    ensures RunJobs(run, js)
      == if js == [] then Log([], Normal) else JobLog(fetch, output, sections, clock, js[0])
  {
    if js != [] {
      var r := JobLog(fetch, output, sections, clock, js[0]);
      assert js[1..] == [];
      assert r.days + [] == r.days;
    }
  }

  // ---------------------------------------------------------------------
  // Consequences of the checks.

  /** With no date option at all, only today's date is downloaded. */
  lemma DefaultIsToday(o: Options)
    requires o.start.None? && o.end.None? && o.date.None? && !o.today && |o.sections| >= 1
    ensures Decide(o) == Dispatch(true, [TodayJob])
  {
  }

  /** All three modes can run in one invocation, range first and today last. */
  lemma AllModesTogether(o: Options, s: DateArg, e: DateArg, d: DateArg)
    requires o.start == Some(s) && o.end == Some(e) && o.date == Some(d) && o.today && |o.sections| >= 1
    ensures Decide(o) == Dispatch(false, [RangeJob(s, e), DateJob(d), TodayJob])
  {
  }

  /**
   * A malformed -d date ends the run with status 1 before today's date is
   * downloaded, whatever the network answers: today's pages are never
   * fetched, so nothing is asked of them.
   */
  lemma MalformedDateEndsRun(fetch: Transport, o: Options, clock: ValidDate)
    requires o.start.None? && o.end.None? && o.date == Some(Malformed) && |o.sections| >= 1
    ensures MainEnds(fetch, o, clock)
    ensures MainSpec(fetch, o, clock) == Log([], Exit(1))
  {
    var jobs := Decide(o).jobs;
    assert jobs[0] == DateJob(Malformed);
    assert JobsReachedEnd(fetch, o.output, o.sections, clock, jobs);
    JobsReachedRun(fetch, o.output, o.sections, clock, jobs);
    JobRunIs(fetch, o.output, o.sections, clock, DateJob(Malformed));
  }
}
