# WSJ_Scraper in Dafny

A model of `wsj_utility.py`, the command-line utility that downloads the
Wall Street Journal's print edition as per-page PDFs. For every requested
date and every section letter it probes the archive for pages 1, 2, 3, ...
and stops at the first page that reports no content. Each URL is
`http://online.wsj.com/public/resources/documents/print/WSJ_-` followed by
the section letter, the page zero-padded to three digits, `-`, the date as
`YYYYMMDD` and `.pdf`. Each page is saved as
`output/MM-DD-YY/section/NNN.pdf`, and the folder of a section with no
pages at all is removed again. Dates come from three modes that can be
combined: a range (`-b`/`-e`), a single date (`-d`) and today (`-t`, which
is also the default). They always run in that order.

Modules:

- `Calendar`: proleptic Gregorian dates as Python's `datetime` has them (years 1..9999). It defines `d + timedelta(days=1)`, which fails past 9999-12-31, and `toordinal`.
- `Format`: `"{:03}"`-style zero padding and the `strftime` fields `%Y%m%d` and `%m-%d-%y`.
- `Names`: the page URL, `os.path.join` (POSIX), and the local file path.
- `RangeWalk`: the dates `download_range` visits.
- `Fetcher`: `download_file`, the page enumerator of `download_date`, `download_date` and `download_range`. The network is a parameter `fetch: string -> Response` that says what each URL answers.
- `Cli`: the option checks and mode dispatch of `main`.

`download_file` is the pure function `DownloadFile` from the server's answer to the reported size. The file it writes is recorded by the page loop through `WritesFile`, and the folders it creates are not recorded (see "Left out"). Every other procedure of the source is an imperative method:

- `DownloadSection` is the `while page_valid` loop;
- `DownloadDate` is the loop over sections;
- `DownloadRange` is the `while cur_date <= last_date` loop;
- `RunMain` is `main` after option parsing.

Each method is proved equal to a specification function: `SectionSpec`, `DaySpec`, `RangeSpec` and `MainFlow`. `MainFlowDispatch` proves `MainFlow` equal to `MainSpec`, which runs the modes that `Decide` selects, in order. The lemmas state what those functions promise. A run yields a `Log`, which holds the per-date, per-section records and how the run ended:

- normally;
- `exit(1)`;
- an uncaught exception.

A section's record holds:

- every probe made, with its page, URL, local path and answer;
- the files left behind;
- the `success` flag;
- whether the folder was removed.

The page loop only ends when some page of the section answers with size 0. So `DownloadSection` requires `SectionEnds`, and `DownloadDate` and `DownloadRange` require it for every date they visit. `RunMain` requires it (`MainEnds`) only for the dates of the modes it reaches: the range, then the single date if the range ended normally, then today if both earlier modes ended normally. A mode after an `exit(1)` or an `OverflowError` is never started, so nothing is asked of its dates. When the server always answers with content, the source loops forever.

The model follows the code, including behaviours a reader might not expect:

- A range whose start is after its end visits no date and ends normally. It is not rejected as invalid input (`RangeVisits`).
- Of the exceptions `urlretrieve` can raise, only `HTTPError` is turned into 0; the others propagate. A page answered with `Content-Length: 0` also reports 0 and ends the section, but unlike an HTTP error it leaves an (empty) file behind (`DownloadFile`, `WritesFile`).

## Model

| member | source | states |
|---|---|---|
| Calendar.AddDayOrdinal | wsj_utility.py:178 | adding one day fails exactly at 9999-12-31; otherwise the result is the next date: its ordinal is one more and it compares greater |
| Calendar.LexLeIffOrdinalLe | wsj_utility.py:173 | the `cur_date <= last_date` comparison of dates agrees with comparing their day numbers, and equal day numbers mean equal dates |
| Format.DigitsShape | wsj_utility.py:60-62 | the decimal text of n is nonempty, all digits, denotes n, has no leading zero from 10 on, and has at most 2/3/4 digits below 100/1000/10000 |
| Format.PadShape | wsj_utility.py:60-62 | zero-padding to width w gives only digits and keeps the value; its length is w when the digits of n are fewer than w, and the number of digits of n otherwise (exactly w while n fits) |
| Format.PadInjective | wsj_utility.py:210 | two page numbers pad to the same text only if they are equal |
| Format.YmdInjective | wsj_utility.py:196 | the `%Y%m%d` date string is eight digits and determines the date |
| Format.FolderDateSameIff | wsj_utility.py:201 | the `%m-%d-%y` folder name is 8 characters; two dates share it exactly when month, day and year modulo 100 agree |
| Names.UrlLayout | wsj_utility.py:59-63 | the URL is the prefix, the section letter, the page as at least three digits (exactly three below 1000), `-`, the 8-digit date and `.pdf`, slice by slice |
| Names.UrlInjective | wsj_utility.py:209 | two probes fetch the same URL exactly when section, page and date are all equal |
| Names.UrlExample | wsj_utility.py:209 | section M, page 3 of 2016-12-30 gives `...WSJ_-M003-20161230.pdf` under the prefix |
| Names.JoinInjective | wsj_utility.py:207 | joining relative names onto the same folder gives equal paths only for equal names |
| Names.LocalPathLayout | wsj_utility.py:201-210 | for any output folder and a section letter other than `/`, a page is saved as `join(output, MM-DD-YY)/S/NNN.pdf`, directly inside its section folder; with an output folder not ending in `/` that is `output/MM-DD-YY/S/NNN.pdf` |
| Names.LocalPathInjective | wsj_utility.py:210 | different pages of one section never share a local file |
| Names.CenturyApartSameFile | wsj_utility.py:201 | dates a century apart with the same month and day save a page to the same local file although their URLs differ |
| Names.LocalPathExample | wsj_utility.py:210 | page 3 of section M of 2016-12-30 under `WSJ` is saved as `WSJ/12-30-16/M/003.pdf` |
| RangeWalk.RangeDatesShape | wsj_utility.py:173-178 | from start to end the walk visits end - start + 1 dates, the i-th being i days after the start; none when the start is after the end |
| RangeWalk.RangeDatesEnds | wsj_utility.py:173-178 | a nonempty walk begins at the start, ends at the end, each date is the day after the previous, and all lie between start and end |
| Fetcher.DownloadFile | wsj_utility.py:229-248 | the reported size is 0 exactly on an HTTP error or a zero Content-Length, and otherwise is the Content-Length |
| Fetcher.StopPageExists | wsj_utility.py:208-221 | if some page reports size 0 there is a first such page, where the enumeration stops |
| Fetcher.DownloadSection | wsj_utility.py:203-225 | enumerating one section yields exactly the section's specification: probes of pages 1 up to the first page of size 0, files written, success flag, folder removal |
| Fetcher.DownloadDate | wsj_utility.py:181-225 | a malformed date exits with status 1 before any probe; otherwise every section is enumerated in string order and the run goes on normally |
| Fetcher.DownloadRange | wsj_utility.py:152-178 | a malformed start or end exits with status 1; otherwise every date of the walk is downloaded in order, ending with OverflowError if the walk reaches 9999-12-31 |
| Fetcher.SectionProbes | wsj_utility.py:204-221 | probe i is for page i + 1 with that page's URL and path; every probe but the last reported a nonzero size and the last reported 0 |
| Fetcher.StopsAfterLastPage | wsj_utility.py:208-221 | if pages 1..last report content and page last + 1 does not, exactly pages 1..last + 1 are probed and nothing beyond |
| Fetcher.SuccessIffFirstPage | wsj_utility.py:217-225 | `success` holds exactly when some probe reported content, exactly when page 1 did; the folder is removed exactly when `success` is false |
| Fetcher.WrittenFiles | wsj_utility.py:243-246 | the files left behind are exactly the paths of the probes that the server answered without an HTTP error, never more than the probes |
| Fetcher.SectionFiles | wsj_utility.py:208-213 | the files a section leaves are exactly the local paths of its probes that were answered without an HTTP error, at most one per probe |
| Fetcher.FullSectionFiles | wsj_utility.py:208-225 | pages 1..last present and an HTTP error on page last + 1 leave exactly the files 001.pdf .. of pages 1..last in order; the folder is removed exactly when last is 0 |
| Fetcher.EmptySectionCleanup | wsj_utility.py:222-225 | an HTTP error on page 1 means one probe, no file, no success, and the section folder is removed |
| Fetcher.SectionIndependent | wsj_utility.py:203-207 | a section's outcome depends only on the answers to that section's own URLs, since page counter and flag restart per section |
| Fetcher.DaySections | wsj_utility.py:203-207 | a date has one section run per letter of the section string, the i-th being the enumeration of the i-th letter |
| Fetcher.DaySplit | wsj_utility.py:203 | sections are handled in string order: the runs for sections s + t are those of s followed by those of t |
| Fetcher.RangeVisits | wsj_utility.py:173-178 | a range handles end - start + 1 dates in increasing order, none (and no error) when start is after end, and fails exactly when it reaches 9999-12-31 |
| Cli.DecideChecks | wsj_utility.py:118-147 | options are rejected exactly when only one range end is given or no section is; otherwise today is forced exactly when no mode was chosen, and the modes run are range iff -b, date iff -d, today iff -t or forced, strictly in the order range, date, today |
| Cli.RunMain | wsj_utility.py:118-147 | `main` after parsing: bad options exit with status 1 before any download; otherwise it downloads the range (if -b), then the date (if -d), then today (if -t or no mode), and a mode that exits or raises ends the run |
| Cli.MainFlowDispatch | wsj_utility.py:128-147 | what `main` does step by step is exactly running the modes the checks select, in the order range, date, today |
| Cli.RunJobsConcat | wsj_utility.py:139-147 | running modes xs and then ys gives the result of xs when xs exits or raises, and otherwise the days of xs followed by the run of ys; the modes of ys are reached only when xs ended normally |
| Cli.MainEndsModes | wsj_utility.py:139-147 | of the selected modes, `main` reaches the range, the date only if the range ended normally, and today only if both earlier modes did, and every date of a reached mode ends |
| Cli.DefaultIsToday | wsj_utility.py:128-131 | with no date option, only today's date is downloaded |
| Cli.AllModesTogether | wsj_utility.py:139-147 | range, date and today can all run in one invocation, in that order |
| Cli.MalformedDateEndsRun | wsj_utility.py:143-147 | a malformed -d date ends the run with status 1 before today's date is downloaded, whatever the server answers, since today's pages are never fetched |

## Left out

- The HTTP request itself is replaced by the `fetch` parameter. Because `fetch` is a function, a URL asked for twice in one run gets the same answer both times, for example when the `-d` date or today also lies inside the `-b`/`-e` range; the real server may answer differently the second time. Exceptions other than `HTTPError` (network failures, a response without `Content-Length` at lines 243-248) abort the real program and are not modelled.
- File-system effects are not performed. The log records the files `urlretrieve` writes and whether `os.rmdir` (line 225) removes a section folder. The folders that `makedirs` creates (lines 239-240) are not recorded. In particular the daily `MM-DD-YY` folder is never logged, and it stays behind even when every section folder in it is removed. Folders or files left from earlier runs are not modelled.
- When page 1 of a section is answered with size 0 but without an HTTP error, its empty file stays in the section folder. `os.rmdir` (line 225) then raises `OSError`, and the whole run ends, skipping the remaining sections, dates and modes. The model instead logs the folder as removed and carries on normally.
- Option parsing (`optparse`), `print`, `--verbose` and `print_help` are left out. `Options` holds the parsed values.
- `strptime` and `strftime` of the `MM/DD/YYYY` argument are modelled as a `DateArg`, either a valid date or `Malformed`. Today's date is the parameter `clock`. `download_range` formats each date back to text and `download_date` parses it again; that round trip is taken to be the identity. For years below 1000 that round trip depends on the platform's `%Y`.
- Format.Ymd: always pads the year to four digits. For years below 1000 the `%Y%m%d` field of the URL (line 196) depends on the platform's `%Y`, which may give fewer digits. So the "eight digits" of `YmdInjective` holds for the source only from year 1000 on.
- `Names.Join` follows POSIX `os.path.join`. The Windows rules (the default output folder `C:\WSJ`, drive letters, `\` separators) are not modelled.
- `DownloadSection`, `DownloadDate` and `DownloadRange` require that every section of every visited date eventually answers a page with size 0, and `RunMain` requires it for every date of every mode it reaches. Without that the source never terminates, and the model does not describe that run.
- `size is 0` (line 217) is modelled as `size == 0`. They agree in CPython, where small integers are shared.
- `wsj_simple.py` is not part of this model.
