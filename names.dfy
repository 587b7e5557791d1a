/**
 * The two names built for every probe of a (section, page, date):
 * the URL fetched from the newspaper's print archive and the local file
 * the page is saved to, `output/MM-DD-YY/section/NNN.pdf`.
 *
 * Paths are joined as Python's `os.path.join` does on POSIX systems.
 */
module Names {
  import opened Calendar
  import opened Format

  /** The fixed start of every page URL. */
  const Prefix: string := "http://online.wsj.com/public/resources/documents/print/WSJ_-"

  /** `Prefix + "{0}{1:03}-{2}.pdf".format(section, page, date.strftime("%Y%m%d"))`. */
  function Url(section: char, page: nat, d: ValidDate): string {
    UrlAt(Prefix, section, page, d)
  }

  /** The same layout below an arbitrary prefix; the lemmas below hold for every prefix. */
  function UrlAt(prefix: string, section: char, page: nat, d: ValidDate): string {
    prefix + [section] + Pad(page, 3) + "-" + Ymd(d) + ".pdf"
  }

  const Sep: char := '/'

  /** `os.path.join(a, b)` (posixpath): an absolute b replaces a; otherwise one separator between them. */
  function Join(a: string, b: string): string {
    if |b| > 0 && b[0] == Sep then b
    else if a == [] || a[|a| - 1] == Sep then a + b
    else a + [Sep] + b
  }

  /** The folder of one date: `os.path.join(output, date.strftime("%m-%d-%y"))`. */
  function DailyFolder(output: string, d: ValidDate): string {
    Join(output, FolderDate(d))
  }

  /** The folder of one section of one date. */
  function SectionFolder(output: string, d: ValidDate, section: char): string {
    Join(DailyFolder(output, d), [section])
  }

  /** The file name of a page: `"{0:03}.pdf".format(page)`. */
  function PageFile(page: nat): string {
    Pad(page, 3) + ".pdf"
  }

  /** Where the page is saved. */
  function LocalPath(output: string, d: ValidDate, section: char, page: nat): string {
    Join(SectionFolder(output, d, section), PageFile(page))
  }

  // ---------------------------------------------------------------------
  // The URL.

  /**
   * The URL is the prefix, the section letter, the page zero-padded to at
   * least three digits (exactly three below page 1000), "-", the date as
   * eight digits YYYYMMDD, and ".pdf".
   */
  lemma UrlLayout(prefix: string, section: char, page: nat, d: ValidDate)
    ensures var u := UrlAt(prefix, section, page, d);
      |u| == |prefix| + 1 + |Pad(page, 3)| + 13
      && u[..|prefix|] == prefix
      && u[|prefix|] == section
      && u[|prefix| + 1..|u| - 13] == Pad(page, 3)
      && u[|u| - 13] == '-'
      && u[|u| - 12..|u| - 4] == Ymd(d)
      && u[|u| - 4..] == ".pdf"
    ensures |Pad(page, 3)| >= 3 && AllDigits(Pad(page, 3)) && Value(Pad(page, 3)) == page
    ensures page < 1000 ==> |Pad(page, 3)| == 3
    ensures |Ymd(d)| == 8 && AllDigits(Ymd(d))
  {
    PadShape(page, 3);
    YmdInjective(d, d);
    var head := prefix + [section] + Pad(page, 3);
    var tail := "-" + Ymd(d) + ".pdf";
    var u := UrlAt(prefix, section, page, d);
    Regroup(prefix, [section], Pad(page, 3), "-", Ymd(d), ".pdf");
    assert u[..|head|] == head && u[|head|..] == tail;
    assert head[..|prefix|] == prefix && head[|prefix|..] == [section] + Pad(page, 3);
    assert tail[1..9] == Ymd(d);
  }

  /**
   * Concatenation regrouped as head and tail of the URL; stated for opaque
   * arguments, the solver proves it at once, where the same step over the
   * URL's own terms is costly.
   */
  lemma Regroup(a: string, b: string, c: string, x: string, y: string, z: string)
    ensures a + b + c + x + y + z == (a + b + c) + (x + y + z)
  {
  }

  /** Distinct probes fetch distinct URLs: the URL determines section, page and date. */
  lemma UrlInjective(prefix: string, s1: char, p1: nat, d1: ValidDate, s2: char, p2: nat, d2: ValidDate)
    ensures UrlAt(prefix, s1, p1, d1) == UrlAt(prefix, s2, p2, d2) <==> s1 == s2 && p1 == p2 && d1 == d2
  {
    if UrlAt(prefix, s1, p1, d1) == UrlAt(prefix, s2, p2, d2) {
      YmdInjective(d1, d2);
      YmdInjective(d2, d1);
      var head1, tail1 := prefix + [s1] + Pad(p1, 3), "-" + Ymd(d1) + ".pdf";
      var head2, tail2 := prefix + [s2] + Pad(p2, 3), "-" + Ymd(d2) + ".pdf";
      Regroup(prefix, [s1], Pad(p1, 3), "-", Ymd(d1), ".pdf");
      Regroup(prefix, [s2], Pad(p2, 3), "-", Ymd(d2), ".pdf");
      SplitEqual(head1, tail1, head2, tail2);
      SplitEqual("-" + Ymd(d1), ".pdf", "-" + Ymd(d2), ".pdf");
      SplitEqual("-", Ymd(d1), "-", Ymd(d2));
      SplitEqual(prefix + [s1], Pad(p1, 3), prefix + [s2], Pad(p2, 3));
      SplitEqual(prefix, [s1], prefix, [s2]);
      assert [s1][0] == [s2][0];
      PadInjective(p1, p2, 3);
    }
  }

  /** Section M, page 3 of 2016-12-30. */
  lemma UrlExample(prefix: string)
    ensures UrlAt(prefix, 'M', 3, Date(2016, 12, 30)) == prefix + "M003-20161230.pdf"
  {
    ExamplePage();
    ExampleYmd();
    var tail := ['M'] + Pad(3, 3) + "-" + Ymd(Date(2016, 12, 30)) + ".pdf";
    assert tail == "M003-20161230.pdf";
    assert UrlAt(prefix, 'M', 3, Date(2016, 12, 30)) == prefix + tail;
  }

  lemma ExamplePage()
    ensures Pad(3, 3) == "003"
  {
    assert Digits(3) == "3";
  }

  lemma ExampleYmd()
    ensures Ymd(Date(2016, 12, 30)) == "20161230"
  {
    ExampleYear();
    ExampleMonthDay();
  }

  lemma ExampleFolder()
    ensures FolderDate(Date(2016, 12, 30)) == "12-30-16"
  {
    ExampleYear();
    ExampleMonthDay();
    assert Pad(12, 2) + "-" + Pad(30, 2) + "-" + Pad(2016 % 100, 2) == "12" + "-" + "30" + "-" + "16";
  }

  lemma ExampleYear()
    ensures Pad(2016, 4) == "2016" && Pad(16, 2) == "16"
  {
    assert Digits(20) == "20";
    assert Digits(201) == "201";
    assert Digits(16) == "16";
  }

  lemma ExampleMonthDay()
    ensures Pad(12, 2) == "12" && Pad(30, 2) == "30"
  {
    assert Digits(12) == "12" && Digits(30) == "30";
  }

  // ---------------------------------------------------------------------
  // The local path.

  /** Joining a relative name onto a folder is injective in the name. */
  lemma JoinInjective(a: string, x: string, y: string)
    requires |x| > 0 && x[0] != Sep && |y| > 0 && y[0] != Sep
    ensures Join(a, x) == Join(a, y) <==> x == y
  {
    if Join(a, x) == Join(a, y) {
      if a == [] || a[|a| - 1] == Sep {
        SplitEqual(a, x, a, y);
      } else {
        SplitEqual(a + [Sep], x, a + [Sep], y);
      }
    }
  }

  /**
   * With a section letter other than '/', the page is saved as
   * join(output, MM-DD-YY)/section/NNN.pdf, directly inside its section
   * folder; with an output folder that does not end in '/', that is
   * output/MM-DD-YY/section/NNN.pdf.
   */
  lemma LocalPathLayout(output: string, d: ValidDate, section: char, page: nat)
    requires section != Sep
    ensures LocalPath(output, d, section, page)
      == Join(output, FolderDate(d)) + "/" + [section] + "/" + PageFile(page)
    ensures LocalPath(output, d, section, page) == SectionFolder(output, d, section) + "/" + PageFile(page)
    ensures output != [] && output[|output| - 1] != Sep ==>
      LocalPath(output, d, section, page)
        == output + "/" + FolderDate(d) + "/" + [section] + "/" + Pad(page, 3) + ".pdf"
  {
    SectionFolderLayout(output, d, section);
    PadShape(page, 3);
    assert PageFile(page)[0] == Pad(page, 3)[0];
  }

  /** The section folder is the daily folder, '/', and the letter; the daily folder ends in a digit. */
  lemma SectionFolderLayout(output: string, d: ValidDate, section: char)
    requires section != Sep
    ensures SectionFolder(output, d, section) == DailyFolder(output, d) + "/" + [section]
    ensures output != [] && output[|output| - 1] != Sep ==> DailyFolder(output, d) == output + "/" + FolderDate(d)
  {
    PadShape(d.month, 2);
    PadShape(d.year % 100, 2);
    var f := FolderDate(d);
    var y := Pad(d.year % 100, 2);
    assert f[0] == Pad(d.month, 2)[0] && f[|f| - 1] == y[|y| - 1];
    var daily := DailyFolder(output, d);
    assert daily[|daily| - 1] == f[|f| - 1];
  }

  /** Different pages of one section never share a file. */
  lemma LocalPathInjective(output: string, d: ValidDate, section: char, p: nat, q: nat)
    ensures LocalPath(output, d, section, p) == LocalPath(output, d, section, q) <==> p == q
  {
    PadShape(p, 3);
    PadShape(q, 3);
    assert PageFile(p)[0] == Pad(p, 3)[0];
    assert PageFile(q)[0] == Pad(q, 3)[0];
    JoinInjective(SectionFolder(output, d, section), PageFile(p), PageFile(q));
    if PageFile(p) == PageFile(q) {
      SplitEqual(Pad(p, 3), ".pdf", Pad(q, 3), ".pdf");
      PadInjective(p, q, 3);
    }
  }

  /**
   * Because the folder keeps a two-digit year, a page of dates a century
   * apart (same month and day) is saved to the same local file, although
   * the two URLs differ.
   */
  lemma CenturyApartSameFile(output: string, a: ValidDate, b: ValidDate, section: char, page: nat)
    requires a.month == b.month && a.day == b.day && a.year + 100 == b.year
    ensures LocalPath(output, a, section, page) == LocalPath(output, b, section, page)
    ensures Url(section, page, a) != Url(section, page, b)
  {
    assert a.year % 100 == b.year % 100;
    FolderDateSameIff(a, b);
    assert DailyFolder(output, a) == DailyFolder(output, b);
    assert a != b;
    UrlInjective(Prefix, section, page, a, section, page, b);
  }

  /** Section M, page 3 of 2016-12-30 under output folder "WSJ". */
  lemma LocalPathExample()
    ensures LocalPath("WSJ", Date(2016, 12, 30), 'M', 3) == "WSJ/12-30-16/M/003.pdf"
  {
    ExamplePage();
    ExampleFolder();
    LocalPathLayout("WSJ", Date(2016, 12, 30), 'M', 3);
    ExamplePathText();
  }

  lemma ExamplePathText()
    ensures "WSJ" + "/" + "12-30-16" + "/" + "M" + "/" + "003" + ".pdf" == "WSJ/12-30-16/M/003.pdf"
  {
  }
}
