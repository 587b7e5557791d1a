/**
 * The section fetcher: `download_file` (one probe), the page enumerator of
 * `download_date` (for each section, probe pages 1, 2, 3, ... until one
 * reports size 0, then remove the section folder if no page succeeded) and
 * the date walk of `download_range`.
 *
 * The network is a transport function from URL to response. Every
 * operation here is proved equal to a specification function
 * (`SectionSpec`, `DaySpec`, `RangeSpec`), and the lemmas at the end state
 * what the specifications promise.
 */
module Fetcher {
  import opened Wrappers
  import opened Calendar
  import opened Names
  import opened RangeWalk

  /** The answer of the server to one GET request. */
  datatype Response =
    | HttpError                     // urlretrieve raised HTTPError (404 and the like)
    | Retrieved(contentLength: nat) // the body was saved; the Content-Length header

  /** The network, seen from this program: what each URL answers. */
  type Transport = string -> Response

  /**
   * `download_file`: the size it reports, 0 on an HTTP error and the
   * Content-Length header otherwise. A zero size ends the section.
   */
  function DownloadFile(r: Response): (size: nat)
    ensures size == 0 <==> r == HttpError || r == Retrieved(0)
    ensures size > 0 ==> r == Retrieved(size)
  {
    match r
    case HttpError => 0
    case Retrieved(n) => n
  }

  /** Whether `download_file` leaves a file behind: urlretrieve writes it unless it raised. */
  predicate WritesFile(r: Response) {
    r.Retrieved?
  }

  /** One attempt: the page, the URL fetched, the local file and the answer. */
  datatype Probe = Probe(page: nat, url: string, path: string, response: Response)

  /**
   * What enumerating one section of one date did: the probes in order, the
   * files written, the `success` flag, and whether the section folder
   * `SectionFolder(output, d, section)` (which `download_file` creates
   * before the first probe) was removed again.
   */
  datatype SectionRun = SectionRun(
    section: char,
    probes: seq<Probe>,
    written: seq<string>,
    success: bool,
    removed: bool)

  /** All sections of one date. */
  datatype DayRun = DayRun(date: ValidDate, sections: seq<SectionRun>)

  /** How a run ended: returned normally, `exit(code)`, or an uncaught exception. */
  datatype Status = Normal | Exit(code: int) | Uncaught(exception: string)

  /** The dates handled and how the run ended. */
  datatype Log = Log(days: seq<DayRun>, status: Status)

  /** A date option: a date string strptime accepts, or one it rejects with ValueError. */
  datatype DateArg = Given(date: ValidDate) | Malformed

  // ---------------------------------------------------------------------
  // Specification of one section.

  /** The size `download_file` reports for a page. */
  function PageSize(fetch: Transport, section: char, d: ValidDate, page: nat): nat {
    DownloadFile(fetch(Url(section, page, d)))
  }

  /** The probe of a page. */
  function ProbeOf(fetch: Transport, output: string, section: char, d: ValidDate, page: nat): Probe {
    Probe(page, Url(section, page, d), LocalPath(output, d, section, page), fetch(Url(section, page, d)))
  }

  /** n is the first page whose reported size is 0: the page the enumeration stops at. */
  ghost predicate IsStopPage(fetch: Transport, section: char, d: ValidDate, n: nat) {
    n >= 1 && PageSize(fetch, section, d, n) == 0
    && forall q :: 1 <= q < n ==> PageSize(fetch, section, d, q) > 0
  }

  /** Some page of the section reports size 0, so the enumeration terminates. */
  ghost predicate SectionEnds(fetch: Transport, section: char, d: ValidDate) {
    exists p: nat :: p >= 1 && PageSize(fetch, section, d, p) == 0
  }

  /** Every section of the date ends. */
  ghost predicate DateEnds(fetch: Transport, sections: string, d: ValidDate) {
    forall i {:trigger SectionEnds(fetch, sections[i], d)} :: 0 <= i < |sections| ==> SectionEnds(fetch, sections[i], d)
  }

  /** Below any page of size 0 there is a first one. */
  lemma {:induction false} StopPageExists(fetch: Transport, section: char, d: ValidDate, p: nat)
    requires p >= 1 && PageSize(fetch, section, d, p) == 0
    ensures exists n: nat :: n <= p && IsStopPage(fetch, section, d, n)
    decreases p
  {
    if forall q :: 1 <= q < p ==> PageSize(fetch, section, d, q) > 0 {
      assert IsStopPage(fetch, section, d, p);
    } else {
      var q :| 1 <= q < p && PageSize(fetch, section, d, q) == 0;
      StopPageExists(fetch, section, d, q);
    }
  }

  /** The first page of size 0 is unique. */
  lemma StopPageUnique(fetch: Transport, section: char, d: ValidDate, n: nat, m: nat)
    requires IsStopPage(fetch, section, d, n) && IsStopPage(fetch, section, d, m)
    ensures n == m
  {
  }

  /** The page the enumeration of a section stops at. */
  ghost function StopPage(fetch: Transport, section: char, d: ValidDate): (n: nat)
    requires SectionEnds(fetch, section, d)
    ensures IsStopPage(fetch, section, d, n)
  {
    var p: nat :| p >= 1 && PageSize(fetch, section, d, p) == 0;
    StopPageExists(fetch, section, d, p);
    var n: nat :| IsStopPage(fetch, section, d, n);
    n
  }

  /** The probes of pages 1 through n, in order. */
  function ProbesUpTo(fetch: Transport, output: string, section: char, d: ValidDate, n: nat): seq<Probe>
    decreases n
  {
    if n == 0 then [] else ProbesUpTo(fetch, output, section, d, n - 1) + [ProbeOf(fetch, output, section, d, n)]
  }

  /** The files the probes leave behind, in order. */
  function Written(probes: seq<Probe>): seq<string>
    decreases |probes|
  {
    if probes == [] then []
    else
      var last := probes[|probes| - 1];
      Written(probes[..|probes| - 1]) + (if WritesFile(last.response) then [last.path] else [])
  }

  /**
   * The files pages 1 through n leave behind, in page order. This is
   * `Written(ProbesUpTo(..., n))` (`WrittenUpToProbes`), stated by page
   * number so that the page loop's proof does not unfold the probes.
   */
  function WrittenUpTo(fetch: Transport, output: string, section: char, d: ValidDate, n: nat): seq<string>
    decreases n
  {
    if n == 0 then []
    else
      var file := if WritesFile(fetch(Url(section, n, d))) then [LocalPath(output, d, section, n)] else [];
      WrittenUpTo(fetch, output, section, d, n - 1) + file
  }

  lemma WrittenAppend(probes: seq<Probe>, p: Probe)
    ensures Written(probes + [p]) == Written(probes) + (if WritesFile(p.response) then [p.path] else [])
  {
    assert (probes + [p])[..|probes|] == probes;
  }

  /** What enumerating one section of one date does. */
  ghost function SectionSpec(fetch: Transport, output: string, section: char, d: ValidDate): SectionRun
    requires SectionEnds(fetch, section, d)
  {
    var n := StopPage(fetch, section, d);
    var probes := ProbesUpTo(fetch, output, section, d, n);
    SectionRun(section, probes, WrittenUpTo(fetch, output, section, d, n), n > 1, n == 1)
  }

  /** f applied to each element of xs, in order. */
  ghost function MapSeq<A, B>(f: A --> B, xs: seq<A>): (r: seq<B>)
    requires forall i :: 0 <= i < |xs| ==> f.requires(xs[i])
    ensures |r| == |xs|
    decreases |xs|
  {
    if xs == [] then [] else [f(xs[0])] + MapSeq(f, xs[1..])
  }

  lemma {:induction false} MapSeqAt<A, B>(f: A --> B, xs: seq<A>, i: nat)
    requires forall k :: 0 <= k < |xs| ==> f.requires(xs[k])
    requires i < |xs|
    ensures MapSeq(f, xs)[i] == f(xs[i])
    decreases |xs|
  {
    if i > 0 {
      MapSeqAt(f, xs[1..], i - 1);
    }
  }

  lemma {:induction false} MapSeqConcat<A, B>(f: A --> B, xs: seq<A>, ys: seq<A>)
    requires forall i :: 0 <= i < |xs + ys| ==> f.requires((xs + ys)[i])
    ensures forall i :: 0 <= i < |xs| ==> f.requires(xs[i])
    ensures forall i :: 0 <= i < |ys| ==> f.requires(ys[i])
    ensures MapSeq(f, xs + ys) == MapSeq(f, xs) + MapSeq(f, ys)
    decreases |xs|
  {
    assert forall i :: 0 <= i < |xs| ==> (xs + ys)[i] == xs[i];
    assert forall i :: 0 <= i < |ys| ==> (xs + ys)[|xs| + i] == ys[i];
    if xs == [] {
      assert xs + ys == ys;
    } else {
      assert (xs + ys)[1..] == xs[1..] + ys;
      MapSeqConcat(f, xs[1..], ys);
    }
  }

  /** The enumeration of a section letter on date d. */
  ghost function SectionOn(fetch: Transport, output: string, d: ValidDate): char --> SectionRun {
    section requires SectionEnds(fetch, section, d) => SectionSpec(fetch, output, section, d)
  }

  lemma SectionOnAt(fetch: Transport, output: string, sections: string, d: ValidDate)
    requires DateEnds(fetch, sections, d)
    ensures forall i :: 0 <= i < |sections| ==> SectionOn(fetch, output, d).requires(sections[i])
    ensures forall i :: 0 <= i < |sections| ==>
      SectionOn(fetch, output, d)(sections[i]) == SectionSpec(fetch, output, sections[i], d)
  {
  }

  /** What `download_date` does for one valid date: every section, in string order. */
  ghost function DaySpec(fetch: Transport, output: string, sections: string, d: ValidDate): DayRun
    requires DateEnds(fetch, sections, d)
  {
    DayRun(d, MapSeq(SectionOn(fetch, output, d), sections))
  }

  /** Every section ends on every one of the dates. */
  ghost predicate DatesEnd(fetch: Transport, sections: string, dates: seq<ValidDate>) {
    forall i {:trigger DateEnds(fetch, sections, dates[i])} :: 0 <= i < |dates| ==> DateEnds(fetch, sections, dates[i])
  }

  /** `download_date` of a date. */
  ghost function DayOf(fetch: Transport, output: string, sections: string): ValidDate --> DayRun {
    (d: ValidDate) requires DateEnds(fetch, sections, d) => DaySpec(fetch, output, sections, d)
  }

  lemma DayOfAt(fetch: Transport, output: string, sections: string, dates: seq<ValidDate>)
    requires DatesEnd(fetch, sections, dates)
    ensures forall i :: 0 <= i < |dates| ==> DayOf(fetch, output, sections).requires(dates[i])
    ensures forall i :: 0 <= i < |dates| ==>
      DayOf(fetch, output, sections)(dates[i]) == DaySpec(fetch, output, sections, dates[i])
  {
  }

  /** What `download_range` does for two valid dates: every date of the walk, in order. */
  ghost function RangeSpec(fetch: Transport, output: string, sections: string, s: ValidDate, e: ValidDate): Log
    requires DatesEnd(fetch, sections, RangeDates(s, e))
  {
    Log(MapSeq(DayOf(fetch, output, sections), RangeDates(s, e)),
        if RangeOverflows(s, e) then Uncaught("OverflowError") else Normal)
  }

  // ---------------------------------------------------------------------
  // The operations.

  /**
   * The inner loop of `download_date` for one section: probe pages from 1
   * upwards until `download_file` reports size 0; afterwards remove the
   * section folder if no page reported a nonzero size.
   */
  method DownloadSection(fetch: Transport, output: string, d: ValidDate, section: char) returns (run: SectionRun)
    requires SectionEnds(fetch, section, d)
    ensures run == SectionSpec(fetch, output, section, d)
  {
    var success := false;
    var pageValid := true;
    var page := 1;
    var probes: seq<Probe> := [];
    var written: seq<string> := [];
    ghost var stop := StopPage(fetch, section, d);
    while pageValid
      invariant 1 <= page <= stop + 1
      invariant pageValid ==> page <= stop
      invariant !pageValid ==> page == stop + 1
      invariant probes == ProbesUpTo(fetch, output, section, d, page - 1)
      invariant written == WrittenUpTo(fetch, output, section, d, page - 1)
      invariant success == if pageValid then page > 1 else stop > 1
      decreases stop + 1 - page
    {
      var url := Url(section, page, d);
      var path := LocalPath(output, d, section, page);
      var response := fetch(url);
      var size := DownloadFile(response);
      PageStep(fetch, output, section, d, page);
      probes := probes + [Probe(page, url, path, response)];
      if WritesFile(response) {
        written := written + [path];
      }
      if size == 0 {
        pageValid := false;
      } else {
        success := true;
      }
      page := page + 1;
    }
    var removed := false;
    if !success {
      removed := true;
    }
    run := SectionRun(section, probes, written, success, removed);
  }

  /** One turn of the page loop: page n is probed, and it is the last exactly when it is the stop page. */
  lemma PageStep(fetch: Transport, output: string, section: char, d: ValidDate, n: nat)
    requires SectionEnds(fetch, section, d) && 1 <= n <= StopPage(fetch, section, d)
    ensures ProbesUpTo(fetch, output, section, d, n) == ProbesUpTo(fetch, output, section, d, n - 1)
      + [Probe(n, Url(section, n, d), LocalPath(output, d, section, n), fetch(Url(section, n, d)))]
    ensures WrittenUpTo(fetch, output, section, d, n) == WrittenUpTo(fetch, output, section, d, n - 1)
      + (if WritesFile(fetch(Url(section, n, d))) then [LocalPath(output, d, section, n)] else [])
    ensures DownloadFile(fetch(Url(section, n, d))) == 0 <==> n == StopPage(fetch, section, d)
  {
    assert PageSize(fetch, section, d, n) == DownloadFile(fetch(Url(section, n, d)));
  }

  /**
   * `download_date`: a malformed date exits with status 1 before anything
   * is fetched; otherwise every section is enumerated, in string order.
   */
  method DownloadDate(fetch: Transport, date: DateArg, sections: string, output: string) returns (log: Log)
    requires date.Given? ==> DateEnds(fetch, sections, date.date)
    ensures date.Malformed? ==> log == Log([], Exit(1))
    ensures date.Given? ==> log == Log([DaySpec(fetch, output, sections, date.date)], Normal)
  {
    if date.Malformed? {
      return Log([], Exit(1));
    }
    var d := date.date;
    var runs: seq<SectionRun> := [];
    for i := 0 to |sections|
      invariant DateEnds(fetch, sections[..i], d)
      invariant runs == MapSeq(SectionOn(fetch, output, d), sections[..i])
    {
      SectionsStep(fetch, output, sections, d, i);
      var run := DownloadSection(fetch, output, d, sections[i]);
      runs := runs + [run];
    }
    assert sections[..|sections|] == sections;
    log := Log([DayRun(d, runs)], Normal);
  }

  /** One turn of the section loop: the runs of the first i + 1 sections extend those of the first i. */
  lemma SectionsStep(fetch: Transport, output: string, sections: string, d: ValidDate, i: nat)
    requires DateEnds(fetch, sections, d) && i < |sections|
    ensures SectionEnds(fetch, sections[i], d)
    ensures DateEnds(fetch, sections[..i], d) && DateEnds(fetch, sections[..i + 1], d)
    ensures MapSeq(SectionOn(fetch, output, d), sections[..i + 1])
      == MapSeq(SectionOn(fetch, output, d), sections[..i]) + [SectionSpec(fetch, output, sections[i], d)]
  {
    var now := sections[..i + 1];
    assert now == sections[..i] + [sections[i]];
    assert forall k :: 0 <= k < i ==> sections[..i][k] == sections[k];
    assert forall k :: 0 <= k <= i ==> now[k] == sections[k];
    SectionOnAt(fetch, output, now, d);
    MapSeqConcat(SectionOn(fetch, output, d), sections[..i], [sections[i]]);
  }

  /**
   * `download_range`: a malformed start or end exits with status 1;
   * otherwise every date from start through end is downloaded in turn.
   * Adding a day to date.max raises OverflowError, which ends the run.
   */
  method DownloadRange(fetch: Transport, start: DateArg, end: DateArg, sections: string, output: string)
    returns (log: Log)
    requires start.Given? && end.Given? ==> DatesEnd(fetch, sections, RangeDates(start.date, end.date))
    ensures start.Malformed? || end.Malformed? ==> log == Log([], Exit(1))
    ensures start.Given? && end.Given? ==> log == RangeSpec(fetch, output, sections, start.date, end.date)
  {
    if start.Malformed? || end.Malformed? {
      return Log([], Exit(1));
    }
    var cur := start.date;
    var last := end.date;
    var days: seq<DayRun> := [];
    ghost var visited: seq<ValidDate> := [];
    while LexLe(cur, last)
      invariant visited + RangeDates(cur, last) == RangeDates(start.date, last)
      invariant DatesEnd(fetch, sections, visited) && DatesEnd(fetch, sections, RangeDates(cur, last))
      invariant days == MapSeq(DayOf(fetch, output, sections), visited)
      decreases Ordinal(last) - Ordinal(cur)
    {
      RangeLoopStep(fetch, output, sections, start.date, last, cur, visited);
      var l := DownloadDate(fetch, Given(cur), sections, output);
      days := days + l.days;
      visited := visited + [cur];
      match AddDay(cur)
      case None =>
        return Log(days, Uncaught("OverflowError"));
      case Some(next) =>
        cur := next;
    }
    RangeLoopExit(fetch, output, sections, start.date, last, cur, visited);
    return Log(days, Normal);
  }

  /** One turn of the date loop: the current date is handled, then the walk overflows or moves on. */
  lemma RangeLoopStep(fetch: Transport, output: string, sections: string,
                      start: ValidDate, last: ValidDate, cur: ValidDate, visited: seq<ValidDate>)
    requires LexLe(cur, last)
    requires visited + RangeDates(cur, last) == RangeDates(start, last)
    requires DatesEnd(fetch, sections, visited) && DatesEnd(fetch, sections, RangeDates(cur, last))
    requires DatesEnd(fetch, sections, RangeDates(start, last))
    ensures DateEnds(fetch, sections, cur) && DatesEnd(fetch, sections, visited + [cur])
    ensures MapSeq(DayOf(fetch, output, sections), visited + [cur])
      == MapSeq(DayOf(fetch, output, sections), visited) + [DaySpec(fetch, output, sections, cur)]
    ensures AddDay(cur).None? ==>
      RangeSpec(fetch, output, sections, start, last)
      == Log(MapSeq(DayOf(fetch, output, sections), visited + [cur]), Uncaught("OverflowError"))
    ensures AddDay(cur).Some? ==>
      visited + [cur] + RangeDates(AddDay(cur).value, last) == RangeDates(start, last)
      && DatesEnd(fetch, sections, RangeDates(AddDay(cur).value, last))
      && 0 <= Ordinal(last) - Ordinal(AddDay(cur).value) + 1 <= Ordinal(last) - Ordinal(cur)
  {
    StepDates(fetch, sections, start, last, cur, visited);
    StepDays(fetch, output, sections, cur, visited);
    StepNext(fetch, sections, start, last, cur, visited);
    StepOverflow(fetch, output, sections, start, last, cur, visited);
  }

  lemma StepDates(fetch: Transport, sections: string,
                  start: ValidDate, last: ValidDate, cur: ValidDate, visited: seq<ValidDate>)
    requires LexLe(cur, last)
    requires DatesEnd(fetch, sections, visited) && DatesEnd(fetch, sections, RangeDates(cur, last))
    ensures DateEnds(fetch, sections, cur) && DatesEnd(fetch, sections, visited + [cur])
  {
    RangeDatesStep(cur, last);
    assert RangeDates(cur, last)[0] == cur;
    var now := visited + [cur];
    assert forall i :: 0 <= i < |visited| ==> now[i] == visited[i];
    assert now[|visited|] == cur;
  }

  lemma StepDays(fetch: Transport, output: string, sections: string, cur: ValidDate, visited: seq<ValidDate>)
    requires DatesEnd(fetch, sections, visited + [cur])
    ensures DateEnds(fetch, sections, cur) && DatesEnd(fetch, sections, visited)
    ensures MapSeq(DayOf(fetch, output, sections), visited + [cur])
      == MapSeq(DayOf(fetch, output, sections), visited) + [DaySpec(fetch, output, sections, cur)]
  {
    var now := visited + [cur];
    assert forall i :: 0 <= i < |visited| ==> now[i] == visited[i];
    assert now[|visited|] == cur;
    DayOfAt(fetch, output, sections, now);
    MapSeqConcat(DayOf(fetch, output, sections), visited, [cur]);
  }

  lemma StepNext(fetch: Transport, sections: string,
                 start: ValidDate, last: ValidDate, cur: ValidDate, visited: seq<ValidDate>)
    requires LexLe(cur, last)
    requires visited + RangeDates(cur, last) == RangeDates(start, last)
    requires DatesEnd(fetch, sections, RangeDates(cur, last))
    ensures AddDay(cur).Some? ==>
      visited + [cur] + RangeDates(AddDay(cur).value, last) == RangeDates(start, last)
      && DatesEnd(fetch, sections, RangeDates(AddDay(cur).value, last))
      && 0 <= Ordinal(last) - Ordinal(AddDay(cur).value) + 1 <= Ordinal(last) - Ordinal(cur)
  {
    RangeDatesStep(cur, last);
    LexLeIffOrdinalLe(cur, last);
    AddDayOrdinal(cur);
    var rest := RangeDates(cur, last);
    match AddDay(cur)
    case None =>
    case Some(next) =>
      assert visited + [cur] + RangeDates(next, last) == visited + rest;
      assert forall i :: 0 <= i < |RangeDates(next, last)| ==> RangeDates(next, last)[i] == rest[i + 1];
  }

  lemma StepOverflow(fetch: Transport, output: string, sections: string,
                     start: ValidDate, last: ValidDate, cur: ValidDate, visited: seq<ValidDate>)
    requires LexLe(cur, last)
    requires visited + RangeDates(cur, last) == RangeDates(start, last)
    requires DatesEnd(fetch, sections, RangeDates(start, last))
    ensures AddDay(cur).None? ==>
      visited + [cur] == RangeDates(start, last)
      && RangeSpec(fetch, output, sections, start, last)
         == Log(MapSeq(DayOf(fetch, output, sections), visited + [cur]), Uncaught("OverflowError"))
  {
    RangeDatesStep(cur, last);
    if AddDay(cur).None? {
      assert RangeDates(start, last) != [];
    }
  }

  /** When the date loop ends normally, every date of the walk was handled and nothing overflowed. */
  lemma RangeLoopExit(fetch: Transport, output: string, sections: string,
                      start: ValidDate, last: ValidDate, cur: ValidDate, visited: seq<ValidDate>)
    requires !LexLe(cur, last)
    requires visited + RangeDates(cur, last) == RangeDates(start, last)
    requires DatesEnd(fetch, sections, RangeDates(start, last))
    ensures DatesEnd(fetch, sections, visited)
    ensures RangeSpec(fetch, output, sections, start, last)
      == Log(MapSeq(DayOf(fetch, output, sections), visited), Normal)
  {
    assert visited == RangeDates(start, last);
    AtMostMax(cur);
  }

  // ---------------------------------------------------------------------
  // What the enumeration of one section promises.

  /** The probes of pages 1 through n: n of them, the i-th for page i + 1. */
  lemma {:induction false} ProbesUpToAt(fetch: Transport, output: string, section: char, d: ValidDate, n: nat)
    ensures |ProbesUpTo(fetch, output, section, d, n)| == n
    ensures forall i :: 0 <= i < n ==> ProbesUpTo(fetch, output, section, d, n)[i] == ProbeOf(fetch, output, section, d, i + 1)
    decreases n
  {
    if n > 0 {
      ProbesUpToAt(fetch, output, section, d, n - 1);
    }
  }

  /**
   * A section is enumerated from page 1 upwards, one page per probe: every
   * probe but the last reported a nonzero size and the last reported 0.
   */
  lemma SectionProbes(fetch: Transport, output: string, section: char, d: ValidDate)
    requires SectionEnds(fetch, section, d)
    ensures var run := SectionSpec(fetch, output, section, d);
      var n := |run.probes|;
      n >= 1
      && (forall i :: 0 <= i < n ==> run.probes[i] == ProbeOf(fetch, output, section, d, i + 1))
      && (forall i :: 0 <= i < n - 1 ==> DownloadFile(run.probes[i].response) > 0)
      && DownloadFile(run.probes[n - 1].response) == 0
  {
    var stop := StopPage(fetch, section, d);
    ProbesUpToAt(fetch, output, section, d, stop);
    var run := SectionSpec(fetch, output, section, d);
    forall i | 0 <= i < stop - 1
      ensures DownloadFile(run.probes[i].response) > 0
    {
      assert run.probes[i] == ProbeOf(fetch, output, section, d, i + 1);
      assert PageSize(fetch, section, d, i + 1) > 0;
    }
  }

  /**
   * If pages 1 through last report a nonzero size and page last + 1 reports
   * 0, exactly pages 1 through last + 1 are probed, in order, and nothing
   * beyond.
   */
  lemma StopsAfterLastPage(fetch: Transport, output: string, section: char, d: ValidDate, last: nat)
    requires forall q :: 1 <= q <= last ==> PageSize(fetch, section, d, q) > 0
    requires PageSize(fetch, section, d, last + 1) == 0
    ensures SectionEnds(fetch, section, d)
    ensures var run := SectionSpec(fetch, output, section, d);
      |run.probes| == last + 1
      && forall i :: 0 <= i <= last ==> run.probes[i].page == i + 1 && run.probes[i].url == Url(section, i + 1, d)
  {
    assert IsStopPage(fetch, section, d, last + 1);
    StopPageUnique(fetch, section, d, last + 1, StopPage(fetch, section, d));
    ProbesUpToAt(fetch, output, section, d, last + 1);
  }

  /**
   * `success` is set exactly when some probe reported a nonzero size, which
   * happens exactly when page 1 did; the section folder is removed exactly
   * when `success` stayed false.
   */
  lemma SuccessIffFirstPage(fetch: Transport, output: string, section: char, d: ValidDate)
    requires SectionEnds(fetch, section, d)
    ensures var run := SectionSpec(fetch, output, section, d);
      (run.success <==> exists i :: 0 <= i < |run.probes| && DownloadFile(run.probes[i].response) > 0)
      && (run.success <==> PageSize(fetch, section, d, 1) > 0)
      && (run.removed <==> !run.success)
  {
    SectionProbes(fetch, output, section, d);
    var run := SectionSpec(fetch, output, section, d);
    assert run.probes[0] == ProbeOf(fetch, output, section, d, 1);
    if run.success {
      assert DownloadFile(run.probes[0].response) > 0;
    }
  }

  /** The files left behind are the local paths of exactly those probes that wrote one. */
  lemma {:induction false} WrittenFiles(probes: seq<Probe>)
    ensures forall f :: f in Written(probes) <==>
      exists i :: 0 <= i < |probes| && WritesFile(probes[i].response) && probes[i].path == f
    ensures |Written(probes)| <= |probes|
    decreases |probes|
  {
    if probes != [] {
      var init := probes[..|probes| - 1];
      WrittenFiles(init);
      assert probes == init + [probes[|probes| - 1]];
      WrittenAppend(init, probes[|probes| - 1]);
      forall f | f in Written(probes)
        ensures exists i :: 0 <= i < |probes| && WritesFile(probes[i].response) && probes[i].path == f
      {
        if f in Written(init) {
          var i :| 0 <= i < |init| && WritesFile(init[i].response) && init[i].path == f;
          assert probes[i] == init[i];
        }
      }
      forall f | exists i :: 0 <= i < |probes| && WritesFile(probes[i].response) && probes[i].path == f
        ensures f in Written(probes)
      {
        var i :| 0 <= i < |probes| && WritesFile(probes[i].response) && probes[i].path == f;
        if i < |init| {
          assert init[i] == probes[i];
        }
      }
    }
  }

  /** The files of pages 1 through n are those the probes of pages 1 through n leave behind. */
  lemma {:induction false} WrittenUpToProbes(fetch: Transport, output: string, section: char, d: ValidDate, n: nat)
    ensures WrittenUpTo(fetch, output, section, d, n) == Written(ProbesUpTo(fetch, output, section, d, n))
    decreases n
  {
    if n > 0 {
      WrittenUpToProbes(fetch, output, section, d, n - 1);
      WrittenAppend(ProbesUpTo(fetch, output, section, d, n - 1), ProbeOf(fetch, output, section, d, n));
    }
  }

  /**
   * The files a section leaves behind are exactly the local paths of the
   * probes the server answered without an HTTP error, at most one per probe.
   */
  lemma SectionFiles(fetch: Transport, output: string, section: char, d: ValidDate)
    requires SectionEnds(fetch, section, d)
    ensures var run := SectionSpec(fetch, output, section, d);
      |run.written| <= |run.probes|
      && forall f :: f in run.written <==>
        exists i :: 0 <= i < |run.probes| && WritesFile(run.probes[i].response) && run.probes[i].path == f
  {
    var run := SectionSpec(fetch, output, section, d);
    WrittenUpToProbes(fetch, output, section, d, StopPage(fetch, section, d));
    WrittenFiles(run.probes);
  }

  /** When every probe wrote its file, the files are the probes' paths, in probe order. */
  lemma {:induction false} WrittenAll(probes: seq<Probe>)
    requires forall i :: 0 <= i < |probes| ==> WritesFile(probes[i].response)
    ensures |Written(probes)| == |probes|
    ensures forall i :: 0 <= i < |probes| ==> Written(probes)[i] == probes[i].path
    decreases |probes|
  {
    if probes != [] {
      var init := probes[..|probes| - 1];
      WrittenAll(init);
      assert probes == init + [probes[|probes| - 1]];
      WrittenAppend(init, probes[|probes| - 1]);
    }
  }

  /** When every probe but the last wrote its file, the files are the paths of all but the last. */
  lemma WrittenAllButLast(probes: seq<Probe>)
    requires |probes| >= 1 && !WritesFile(probes[|probes| - 1].response)
    requires forall i :: 0 <= i < |probes| - 1 ==> WritesFile(probes[i].response)
    ensures |Written(probes)| == |probes| - 1
    ensures forall i :: 0 <= i < |probes| - 1 ==> Written(probes)[i] == probes[i].path
  {
    var init := probes[..|probes| - 1];
    WrittenAll(init);
    assert probes == init + [probes[|probes| - 1]];
    WrittenAppend(init, probes[|probes| - 1]);
  }

  /**
   * A section whose pages 1 through last exist and whose page last + 1 is
   * answered with an HTTP error leaves exactly the files of pages 1 through
   * last, output/MM-DD-YY/section/001.pdf onwards; the folder is removed
   * exactly when last is 0.
   */
  lemma FullSectionFiles(fetch: Transport, output: string, section: char, d: ValidDate, last: nat)
    requires forall q :: 1 <= q <= last ==> PageSize(fetch, section, d, q) > 0
    requires fetch(Url(section, last + 1, d)) == HttpError
    ensures SectionEnds(fetch, section, d)
    ensures var run := SectionSpec(fetch, output, section, d);
      |run.written| == last
      && (forall i :: 0 <= i < last ==> run.written[i] == LocalPath(output, d, section, i + 1))
      && (run.removed <==> last == 0)
  {
    assert PageSize(fetch, section, d, last + 1) == 0;
    StopsAfterLastPage(fetch, output, section, d, last);
    StopPageUnique(fetch, section, d, last + 1, StopPage(fetch, section, d));
    var probes := ProbesUpTo(fetch, output, section, d, last + 1);
    ProbesUpToAt(fetch, output, section, d, last + 1);
    forall i | 0 <= i < last
      ensures WritesFile(probes[i].response)
    {
      assert probes[i] == ProbeOf(fetch, output, section, d, i + 1);
      assert PageSize(fetch, section, d, i + 1) > 0;
    }
    assert probes[last] == ProbeOf(fetch, output, section, d, last + 1);
    WrittenAllButLast(probes);
    WrittenUpToProbes(fetch, output, section, d, last + 1);
  }

  /** A section whose page 1 is answered with an HTTP error: one probe, no file, folder removed. */
  lemma EmptySectionCleanup(fetch: Transport, output: string, section: char, d: ValidDate)
    requires fetch(Url(section, 1, d)) == HttpError
    ensures SectionEnds(fetch, section, d)
    ensures var run := SectionSpec(fetch, output, section, d);
      |run.probes| == 1 && run.written == [] && !run.success && run.removed
  {
    FullSectionFiles(fetch, output, section, d, 0);
    StopsAfterLastPage(fetch, output, section, d, 0);
  }

  /** The probes of two transports that agree on a section's URLs are the same. */
  lemma {:induction false} ProbesUpToSame(f1: Transport, f2: Transport, output: string, section: char, d: ValidDate, n: nat)
    requires forall p: nat :: f1(Url(section, p, d)) == f2(Url(section, p, d))
    ensures ProbesUpTo(f1, output, section, d, n) == ProbesUpTo(f2, output, section, d, n)
    decreases n
  {
    if n > 0 {
      ProbesUpToSame(f1, f2, output, section, d, n - 1);
    }
  }

  /**
   * What happens to a section depends only on the answers to that section's
   * own URLs: the page counter and the `success` flag start afresh for each
   * section, so no other section can influence it.
   */
  lemma SectionIndependent(f1: Transport, f2: Transport, output: string, section: char, d: ValidDate)
    requires forall p: nat :: f1(Url(section, p, d)) == f2(Url(section, p, d))
    requires SectionEnds(f1, section, d)
    ensures SectionEnds(f2, section, d)
    ensures SectionSpec(f1, output, section, d) == SectionSpec(f2, output, section, d)
  {
    var n := StopPage(f1, section, d);
    assert forall p: nat :: PageSize(f1, section, d, p) == PageSize(f2, section, d, p);
    assert IsStopPage(f2, section, d, n);
    StopPageUnique(f2, section, d, n, StopPage(f2, section, d));
    ProbesUpToSame(f1, f2, output, section, d, n);
    WrittenUpToSame(f1, f2, output, section, d, n);
  }

  /** The files of two transports that agree on a section's URLs are the same. */
  lemma {:induction false} WrittenUpToSame(f1: Transport, f2: Transport, output: string, section: char, d: ValidDate, n: nat)
    requires forall p: nat :: f1(Url(section, p, d)) == f2(Url(section, p, d))
    ensures WrittenUpTo(f1, output, section, d, n) == WrittenUpTo(f2, output, section, d, n)
    decreases n
  {
    if n > 0 {
      WrittenUpToSame(f1, f2, output, section, d, n - 1);
      assert f1(Url(section, n, d)) == f2(Url(section, n, d));
    }
  }

  /**
   * The sections of a date are handled one after the other in string order:
   * downloading sections s + t gives the runs of s followed by those of t.
   */
  lemma DaySplit(fetch: Transport, output: string, s: string, t: string, d: ValidDate)
    requires DateEnds(fetch, s + t, d)
    ensures DateEnds(fetch, s, d) && DateEnds(fetch, t, d)
    ensures DaySpec(fetch, output, s + t, d).sections
      == DaySpec(fetch, output, s, d).sections + DaySpec(fetch, output, t, d).sections
  {
    assert forall i :: 0 <= i < |s| ==> (s + t)[i] == s[i];
    assert forall i :: 0 <= i < |t| ==> (s + t)[|s| + i] == t[i];
    SectionOnAt(fetch, output, s + t, d);
    MapSeqConcat(SectionOn(fetch, output, d), s, t);
  }

  /**
   * `download_range` handles end - start + 1 dates, the i-th being i days
   * after the start; when the start is after the end it handles nothing and
   * returns normally. It ends with OverflowError exactly when it reached
   * date.max.
   */
  lemma RangeVisits(fetch: Transport, output: string, sections: string, s: ValidDate, e: ValidDate)
    requires DatesEnd(fetch, sections, RangeDates(s, e))
    ensures var log := RangeSpec(fetch, output, sections, s, e);
      |log.days| == (if LexLe(s, e) then Ordinal(e) - Ordinal(s) + 1 else 0)
      && (forall i :: 0 <= i < |log.days| ==> Ordinal(log.days[i].date) == Ordinal(s) + i)
      && (!LexLe(s, e) ==> log == Log([], Normal))
      && (log.status != Normal <==> LexLe(s, e) && e == MaxDate)
  {
    RangeDatesShape(s, e);
    var dates := RangeDates(s, e);
    var log := RangeSpec(fetch, output, sections, s, e);
    forall i | 0 <= i < |dates|
      ensures log.days[i] == DaySpec(fetch, output, sections, dates[i])
    {
      MapSeqAt(DayOf(fetch, output, sections), dates, i);
    }
  }

  /** The day's i-th section run is the enumeration of the i-th section letter, and there is one per letter. */
  lemma DaySections(fetch: Transport, output: string, sections: string, d: ValidDate)
    requires DateEnds(fetch, sections, d)
    ensures |DaySpec(fetch, output, sections, d).sections| == |sections|
    ensures forall i :: 0 <= i < |sections| ==>
      DaySpec(fetch, output, sections, d).sections[i] == SectionSpec(fetch, output, sections[i], d)
  {
    forall i | 0 <= i < |sections|
      ensures DaySpec(fetch, output, sections, d).sections[i] == SectionSpec(fetch, output, sections[i], d)
    {
      MapSeqAt(SectionOn(fetch, output, d), sections, i);
    }
  }
}
