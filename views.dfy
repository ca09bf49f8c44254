/**
 * The small total mappings of the client's table and chrome: the sort
 * arrow shown in a column header, the engagement badge colour, the
 * sidebar link targets, and the search box's submit guard.
 */
module Views {
  import opened Wrappers
  import opened Text
  import opened Sorting

  /** The three header glyphs: unsorted, ascending, descending. */
  datatype Indicator = Neutral | Up | Down

  /** `getSortIndicator(name)`. */
  function SortIndicator(cfg: Option<SortConfig>, name: string): (r: Indicator)
    ensures r == Neutral <==> cfg.None? || cfg.value.key != name
    ensures r == Up <==> cfg == Some(SortConfig(name, Ascending))
    ensures r == Down <==> cfg == Some(SortConfig(name, Descending))
  {
    if cfg.None? || cfg.value.key != name then Neutral
    else if cfg.value.direction.Ascending? then Up
    else Down
  }

  /** What is rendered for each indicator. */
  function Glyph(i: Indicator): string {
    match i
    case Neutral => "\U{2195}"
    case Up => "\U{1F53C}"
    case Down => "\U{1F53D}"
  }

  /** The three glyphs differ, so the header shows which of the three states its column is in. */
  lemma GlyphsDistinct(i: Indicator, j: Indicator)
    ensures Glyph(i) == Glyph(j) <==> i == j
  {
    if i != j {
      assert Glyph(i)[0] != Glyph(j)[0] || |Glyph(i)| != |Glyph(j)|;
    }
  }

  /** After a click on header `key`, that header shows an arrow and every other header the neutral glyph. */
  lemma IndicatorAfterRequest(prev: Option<SortConfig>, key: string, other: string)
    requires other != key
    ensures SortIndicator(Some(NextConfig(prev, key)), key) ==
            (if prev == Some(SortConfig(key, Ascending)) then Down else Up)
    ensures SortIndicator(Some(NextConfig(prev, key)), other) == Neutral
  {
  }

  /** The sortable columns of the student table, in display order. */
  const HeaderKeys: seq<string> := ["id", "course", "progress", "score", "timeSpent", "PredictedEngagement"]

  const HighBadge := "bg-emerald-100 text-emerald-800"
  const MediumBadge := "bg-amber-100 text-amber-800"
  const LowBadge := "bg-red-100 text-red-800"

  /** The badge class chosen from `student.PredictedEngagement`; any other string falls to the red style. */
  function BadgeStyle(engagement: string): (r: string)
    ensures r == HighBadge <==> engagement == "High"
    ensures r == MediumBadge <==> engagement == "Medium"
    ensures r == LowBadge <==> engagement != "High" && engagement != "Medium"
  {
    if engagement == "High" then HighBadge
    else if engagement == "Medium" then MediumBadge
    else LowBadge
  }

  /** The sidebar entries, in the order of the `icons` object. */
  const SidebarEntries: seq<string> := ["Dashboard", "Students", "Courses", "Reports", "Settings"]

  /** The paths the router declares. */
  const RoutePaths: seq<string> := ["/", "/students", "/courses", "/courses/:courseName", "/reports", "/settings", "/search"]

  /** The `NavLink` target of a sidebar entry. */
  function NavPath(name: string): (r: string)
    ensures r != [] && r[0] == '/'
    ensures name == "Dashboard" ==> r == "/"
    ensures name != "Dashboard" ==> |r| == |name| + 1 && r[1..] == Lower(name)
  {
    if name == "Dashboard" then "/" else "/" + Lower(name)
  }

  /** The link target of an entry whose lower-cased name is known character by character. */
  lemma NavPathLiteral(name: string, lowered: string)
    requires name != "Dashboard"
    requires |name| == |lowered| && forall i :: 0 <= i < |name| ==> LowerChar(name[i]) == lowered[i]
    ensures NavPath(name) == "/" + lowered
  {
    assert Lower(name) == lowered;
  }

  /** The sidebar entries' link targets, computed. */
  function SidebarPaths(): (r: seq<string>)
    ensures |r| == |SidebarEntries|
  {
    seq(|SidebarEntries|, i requires 0 <= i < |SidebarEntries| => NavPath(SidebarEntries[i]))
  }

  /** Every sidebar link leads to a declared route: Dashboard, Students, Courses, Reports, Settings. */
  lemma SidebarLinksAreRoutes()
    ensures SidebarPaths() == [RoutePaths[0], RoutePaths[1], RoutePaths[2], RoutePaths[4], RoutePaths[5]]
  {
    var r := SidebarPaths();
    assert r[0] == "/";
    assert r[1] == "/students" by { NavPathLiteral("Students", "students"); }
    assert r[2] == "/courses" by { NavPathLiteral("Courses", "courses"); }
    assert r[3] == "/reports" by { NavPathLiteral("Reports", "reports"); }
    assert r[4] == "/settings" by { NavPathLiteral("Settings", "settings"); }
  }

  /** The search box in the page header. */
  class Header {
    var searchTerm: string

    constructor ()
      ensures searchTerm == ""
    {
      searchTerm := "";
    }

    /** `onChange`: the box holds what was typed. */
    method Type(value: string)
      modifies this
      ensures searchTerm == value
    {
      searchTerm := value;
    }

    /**
     * `handleSearch`: a term that is not blank navigates to the search page
     * with the trimmed term as the query and clears the box; a blank term
     * does nothing. The returned query is the one placed in `?q=`.
     */
    method HandleSearch() returns (query: Option<string>)
      modifies this
      ensures Trim(old(searchTerm)) != [] ==> query == Some(Trim(old(searchTerm))) && searchTerm == ""
      ensures Trim(old(searchTerm)) == [] ==> query.None? && searchTerm == old(searchTerm)
    {
      var term := Trim(searchTerm);
      if term != [] {
        query := Some(term);
        searchTerm := "";
      } else {
        query := None;
      }
    }
  }

  /** A submitted query is never blank and never has white space at either end. */
  lemma SubmittedQueryIsTrimmed(term: string)
    requires Trim(term) != []
    ensures !IsJsSpace(Trim(term)[0]) && !IsJsSpace(Trim(term)[|Trim(term)| - 1])
    ensures Trim(Trim(term)) == Trim(term)
    ensures exists i :: 0 <= i < |term| && !IsJsSpace(term[i])
  {
    TrimIdempotent(term);
    TrimEmptyIff(term);
  }
}
