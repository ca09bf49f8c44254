/**
 * The report page of the client: two optional equality filters over the
 * student list (`'All'` means no constraint), the refusal of an empty
 * report, the "library still loading" condition, and the workbook handed
 * to the spreadsheet writer under a name built from the filter values.
 */
module Reports {
  import opened Wrappers
  import opened Seqs
  import opened Records

  const AllOption := "All"
  const EngagementOptions: seq<string> := ["All", "High", "Medium", "Low"]
  const SheetName := "Student Report"
  const NotReadyAlert := "Excel library is loading, please try again in a moment."
  const NoMatchAlert := "No students match the selected filters. Cannot generate an empty report."

  /** What `json_to_sheet` and `book_append_sheet` receive: one sheet, one row per student. */
  datatype Workbook = Workbook(sheetName: string, rows: seq<Record>)

  /** The three ways a click on "Download Report" ends. */
  datatype DownloadOutcome = NotReady | NoMatch | Download(book: Workbook, fileName: string)

  /** The alert shown, if any. */
  function AlertText(o: DownloadOutcome): (a: Option<string>)
    ensures a.None? <==> o.Download?
  {
    match o
    case NotReady => Some(NotReadyAlert)
    case NoMatch => Some(NoMatchAlert)
    case Download(_, _) => None
  }

  /** One filter: `'All'` admits every student, any other value only an exact match on `field`. */
  predicate Admits(s: Record, field: string, selected: string) {
    selected == AllOption || Field(s, field) == Some(Str(selected))
  }

  /** Both filters at once, the specification of the report's rows. */
  function ReportFilter(course: string, engagement: string): Record -> bool {
    s => Admits(s, "course", course) && Admits(s, "PredictedEngagement", engagement)
  }

  /** The students a report contains: those passing both filters, in their original order. */
  function ReportRows(students: seq<Record>, course: string, engagement: string): (r: seq<Record>)
    ensures |r| <= |students|
    ensures forall s :: s in r <==> s in students && Admits(s, "course", course) && Admits(s, "PredictedEngagement", engagement)
  {
    Keep(students, ReportFilter(course, engagement))
  }

  /** `Student_Report_${selectedCourse}_${selectedEngagement}.xlsx`. */
  function ReportFileName(course: string, engagement: string): (name: string)
    ensures |name| == |"Student_Report_"| + |course| + 1 + |engagement| + |".xlsx"|
    ensures name[..15] == "Student_Report_" && name[|name| - 5..] == ".xlsx"
    ensures name[15..15 + |course|] == course && name[15 + |course|] == '_'
    ensures name[16 + |course|..|name| - 5] == engagement
  {
    "Student_Report_" + course + "_" + engagement + ".xlsx"
  }

  /** The four engagement options end in four different characters. */
  lemma OptionsDifferInLastChar(e1: string, e2: string)
    requires e1 in EngagementOptions && e2 in EngagementOptions
    requires e1[|e1| - 1] == e2[|e2| - 1]
    ensures e1 == e2
  {
  }

  /**
   * Reports with different filters never overwrite each other: with the
   * engagement taken from the drop-down, the file name determines both
   * filter values.
   */
  lemma ReportFileNameInjective(c1: string, e1: string, c2: string, e2: string)
    requires e1 in EngagementOptions && e2 in EngagementOptions
    requires ReportFileName(c1, e1) == ReportFileName(c2, e2)
    ensures c1 == c2 && e1 == e2
  {
    var n1, n2 := ReportFileName(c1, e1), ReportFileName(c2, e2);
    // The character just before ".xlsx" is the last one of the engagement,
    // and the four options end in four different letters.
    assert e1[|e1| - 1] == n1[|n1| - 6] by {
      assert n1[16 + |c1|..|n1| - 5][|e1| - 1] == n1[|n1| - 6];
    }
    assert e2[|e2| - 1] == n2[|n2| - 6] by {
      assert n2[16 + |c2|..|n2| - 5][|e2| - 1] == n2[|n2| - 6];
    }
    OptionsDifferInLastChar(e1, e2);
    assert c1 == n1[15..15 + |c1|] && c2 == n2[15..15 + |c2|];
  }

  /** `'All'`/`'All'` reports every student, unchanged and in order. */
  lemma NoFilterKeepsEveryone(students: seq<Record>)
    ensures ReportRows(students, AllOption, AllOption) == students
  {
    KeepAll(students, ReportFilter(AllOption, AllOption));
  }

  /** A student is in the report exactly when it passes both active filters. */
  lemma ReportMembership(students: seq<Record>, course: string, engagement: string, s: Record)
    ensures s in ReportRows(students, course, engagement) <==>
      s in students
      && (course == AllOption || Field(s, "course") == Some(Str(course)))
      && (engagement == AllOption || Field(s, "PredictedEngagement") == Some(Str(engagement)))
  {
  }

  /** The report of a split list is the reports of its parts, joined: original order is kept. */
  lemma ReportKeepsOrder(a: seq<Record>, b: seq<Record>, course: string, engagement: string)
    ensures ReportRows(a + b, course, engagement) == ReportRows(a, course, engagement) + ReportRows(b, course, engagement)
  {
    KeepConcat(a, b, ReportFilter(course, engagement));
  }

  /** Filtering first by course and then by engagement, as the handler does, yields the report's rows. */
  lemma StepwiseFiltering(students: seq<Record>, course: string, engagement: string)
    ensures var byCourse := if course != AllOption then Keep(students, FieldIs("course", Str(course))) else students;
            var byBoth := if engagement != AllOption then Keep(byCourse, FieldIs("PredictedEngagement", Str(engagement))) else byCourse;
            byBoth == ReportRows(students, course, engagement)
  {
    var both := ReportFilter(course, engagement);
    var c := FieldIs("course", Str(course));
    var e := FieldIs("PredictedEngagement", Str(engagement));
    if course != AllOption && engagement != AllOption {
      KeepKeep(students, c, e, both);
    } else if course != AllOption {
      KeepSame(students, c, both);
    } else if engagement != AllOption {
      KeepSame(students, e, both);
    } else {
      KeepAll(students, both);
    }
  }

  /** The page's state: the fetched students and the two drop-down selections. */
  class ReportsPage {
    var students: seq<Record>
    var selectedCourse: string
    var selectedEngagement: string

    constructor ()
      ensures students == [] && selectedCourse == AllOption && selectedEngagement == AllOption
    {
      students := [];
      selectedCourse := AllOption;
      selectedEngagement := AllOption;
    }

    /** `setStudents(studentsData)` once the fetch resolves. */
    method Loaded(data: seq<Record>)
      modifies this
      ensures students == data
      ensures selectedCourse == old(selectedCourse) && selectedEngagement == old(selectedEngagement)
    {
      students := data;
    }

    method SelectCourse(course: string)
      modifies this
      ensures selectedCourse == course
      ensures students == old(students) && selectedEngagement == old(selectedEngagement)
    {
      selectedCourse := course;
    }

    method SelectEngagement(engagement: string)
      modifies this
      ensures selectedEngagement == engagement
      ensures students == old(students) && selectedCourse == old(selectedCourse)
    {
      selectedEngagement := engagement;
    }

    /**
     * `handleDownload`. `writerLoaded` is whether `window.XLSX` is present.
     * Without the writer nothing is filtered and the user is asked to retry;
     * an empty selection is refused; otherwise exactly the selected students
     * are written to one sheet under the filter-derived name.
     */
    method HandleDownload(writerLoaded: bool) returns (outcome: DownloadOutcome)
      ensures !writerLoaded <==> outcome == NotReady
      ensures writerLoaded && ReportRows(students, selectedCourse, selectedEngagement) == [] ==> outcome == NoMatch
      ensures writerLoaded && ReportRows(students, selectedCourse, selectedEngagement) != [] ==>
        outcome == Download(Workbook(SheetName, ReportRows(students, selectedCourse, selectedEngagement)),
                            ReportFileName(selectedCourse, selectedEngagement))
    {
      if writerLoaded {
        var course, engagement := selectedCourse, selectedEngagement;
        var filtered := students;
        if course != AllOption {
          filtered := Keep(filtered, FieldIs("course", Str(course)));
        }
        if engagement != AllOption {
          filtered := Keep(filtered, FieldIs("PredictedEngagement", Str(engagement)));
        }
        StepwiseFiltering(students, course, engagement);
        if |filtered| == 0 {
          return NoMatch;
        }
        var book := Workbook(SheetName, filtered);
        outcome := Download(book, ReportFileName(course, engagement));
      } else {
        outcome := NotReady;
      }
    }
  }

  /** The two-student example: course "A" selects the first student, course "C" selects nobody. */
  lemma ReportExample(a: Record, b: Record)
    requires Field(a, "course") == Some(Str("A")) && Field(b, "course") == Some(Str("B"))
    ensures ReportRows([a, b], "A", AllOption) == [a]
    ensures ReportRows([a, b], "C", AllOption) == []
  {
    assert [a, b][1..] == [b];
    assert ReportFilter("A", AllOption)(a) && !ReportFilter("A", AllOption)(b);
    assert !ReportFilter("C", AllOption)(a) && !ReportFilter("C", AllOption)(b);
  }
}
