/**
 * The row-selection rules of the Flask back end: the engagement buckets
 * assigned to each prediction, the column renaming applied to every
 * response, the course-detail and search selections, the colour cycle of
 * the course list and the completion counts of the dashboard.
 * A DataFrame is a sequence of rows; a row is a `Record` keyed by column.
 */
module Backend {
  import opened Wrappers
  import opened Text
  import opened Seqs
  import opened Records

  datatype Engagement = High | Medium | Low

  /**
   * The thresholds of `categorize` as the IEEE-754 doubles the literals
   * denote: 0.75 is exact, while the literal 0.4 denotes the double just
   * above the real 0.4.
   */
  const HighThreshold: real := 0.75
  const MediumThreshold: real := 0.40000000000000002220446049250313080847263336181640625

  /** `categorize(prob)`: above 0.75 is High, above 0.4 is Medium, the rest is Low. */
  function Categorize(p: real): (e: Engagement)
    ensures e.High? <==> p > HighThreshold
    ensures e.Medium? <==> MediumThreshold < p <= HighThreshold
    ensures e.Low? <==> p <= MediumThreshold
  {
    if p > HighThreshold then High
    else if p > MediumThreshold then Medium
    else Low
  }

  /** A probability equal to the double the literal 0.4 denotes is not above it, so it is Low. */
  lemma CategorizeAtLowerThreshold()
    ensures Categorize(0.40000000000000002220446049250313080847263336181640625) == Low
    ensures Categorize(0.75) == Medium
  {
  }

  function Label(e: Engagement): string {
    match e
    case High => "High"
    case Medium => "Medium"
    case Low => "Low"
  }

  function Rank(e: Engagement): nat {
    match e
    case Low => 0
    case Medium => 1
    case High => 2
  }

  /** A higher probability never lands in a lower bucket. */
  lemma CategorizeMonotone(p: real, q: real)
    requires p <= q
    ensures Rank(Categorize(p)) <= Rank(Categorize(q))
  {
  }

  /** The three labels are distinct, so a label determines its bucket. */
  lemma LabelInjective(e1: Engagement, e2: Engagement)
    ensures Label(e1) == Label(e2) <==> e1 == e2
  {
  }

  /**
   * `predict_engagement(data)`: no rows give no labels; otherwise one label
   * per row, in row order. `probability` stands for the scaler and the
   * logistic model (`predict_proba(...)[:, 1]`).
   */
  function PredictEngagement(data: seq<Record>, probability: Record -> real): (labels: seq<string>)
    ensures data == [] ==> labels == []
    ensures |labels| == |data|
    ensures forall i :: 0 <= i < |data| ==> labels[i] == Label(Categorize(probability(data[i])))
  {
    if |data| == 0 then []
    else seq(|data|, i requires 0 <= i < |data| => Label(Categorize(probability(data[i]))))
  }

  /** Every predicted label is one of the three levels the report filter offers. */
  lemma PredictedLabelsAreLevels(data: seq<Record>, probability: Record -> real, i: int)
    requires 0 <= i < |data|
    ensures PredictEngagement(data, probability)[i] in ["High", "Medium", "Low"]
  {
  }

  const PredictedColumn := "PredictedEngagement"

  /** `df['PredictedEngagement'] = labels`: every row gains the column, nothing else changes. */
  function WithPredictions(df: seq<Record>, labels: seq<string>): (r: seq<Record>)
    requires |labels| == |df|
    ensures |r| == |df|
    ensures forall i :: 0 <= i < |df| ==> Field(r[i], PredictedColumn) == Some(Str(labels[i]))
    ensures forall i, k :: 0 <= i < |df| && k != PredictedColumn ==> Field(r[i], k) == Field(df[i], k)
    ensures AllRenamable(df) ==> AllRenamable(r)
  {
    var r := seq(|df|, i requires 0 <= i < |df| => df[i][PredictedColumn := Str(labels[i])]);
    assert forall i :: 0 <= i < |df| ==> r[i].Keys == df[i].Keys + {PredictedColumn};
    assert PredictedColumn !in TargetColumns;
    assert AllRenamable(df) ==> AllRenamable(r) by {
      if AllRenamable(df) {
        forall row | row in r ensures Renamable(row) {
          var i :| 0 <= i < |r| && r[i] == row;
          assert df[i] in df;
        }
      }
    }
    r
  }

  // --- Column renaming shared by the student-returning endpoints ---

  const SourceColumns: set<string> := {"UserID", "CourseName", "CompletionRate", "QuizScores", "TimeSpentOnCourse"}
  const TargetColumns: set<string> := {"id", "course", "progress", "score", "timeSpent"}

  /** The `rename(columns=...)` dictionary; other names are left as they are. */
  function RenameKey(k: string): (r: string)
    ensures k in SourceColumns ==> r in TargetColumns && OriginalKey(r) == k
    ensures k !in SourceColumns ==> r == k
  {
    if k == "UserID" then "id"
    else if k == "CourseName" then "course"
    else if k == "CompletionRate" then "progress"
    else if k == "QuizScores" then "score"
    else if k == "TimeSpentOnCourse" then "timeSpent"
    else k
  }

  /** The dictionary read backwards. */
  function OriginalKey(k: string): string {
    if k == "id" then "UserID"
    else if k == "course" then "CourseName"
    else if k == "progress" then "CompletionRate"
    else if k == "score" then "QuizScores"
    else if k == "timeSpent" then "TimeSpentOnCourse"
    else k
  }

  /** A row can be renamed without clashing: it has no column already named like a target. */
  predicate Renamable(row: Record) {
    row.Keys !! TargetColumns
  }

  predicate AllRenamable(df: seq<Record>) {
    forall row :: row in df ==> Renamable(row)
  }

  lemma OriginalOfRename(j: string)
    requires j !in TargetColumns
    ensures OriginalKey(RenameKey(j)) == j
    ensures RenameKey(j) in TargetColumns <==> j in SourceColumns
  {
  }

  lemma RenameOfOriginal(k: string)
    requires k !in SourceColumns
    ensures RenameKey(OriginalKey(k)) == k
    ensures OriginalKey(k) in SourceColumns <==> k in TargetColumns
  {
  }

  /** `row.rename(columns=...)`: each column under its new name. */
  function Rename(row: Record): (r: Record)
    requires Renamable(row)
    ensures r.Keys !! SourceColumns
    ensures forall j :: j in row ==> RenameKey(j) in r
  {
    map k | k in (set j | j in row.Keys :: RenameKey(j)) :: row[OriginalKey(k)]
  }

  /** The renamed row, column by column: the five old names are gone, every other name reads the column it came from. */
  lemma RenameAt(row: Record, k: string)
    requires Renamable(row)
    ensures Field(Rename(row), k) == if k in SourceColumns then None else Field(row, OriginalKey(k))
  {
    var keys := set j | j in row.Keys :: RenameKey(j);
    if k in SourceColumns {
      if k in keys {
        var j :| j in row.Keys && RenameKey(j) == k;
        OriginalOfRename(j);
      }
    } else {
      RenameOfOriginal(k);
      if OriginalKey(k) in row { assert RenameKey(OriginalKey(k)) in keys; }
      if k in keys {
        var j :| j in row.Keys && RenameKey(j) == k;
        OriginalOfRename(j);
      }
    }
  }

  /** The dictionary applied backwards, to a row that carries none of the old names. */
  function Unrename(row: Record): Record {
    map k | k in (set j | j in row.Keys && j !in SourceColumns :: OriginalKey(j)) :: row[RenameKey(k)]
  }

  lemma UnrenameAt(row: Record, k: string)
    requires row.Keys !! SourceColumns
    ensures Field(Unrename(row), k) == if k in TargetColumns then None else Field(row, RenameKey(k))
  {
    var keys := set j | j in row.Keys && j !in SourceColumns :: OriginalKey(j);
    if k in TargetColumns {
      if k in keys {
        var j :| j in row.Keys && j !in SourceColumns && OriginalKey(j) == k;
        RenameOfOriginal(j);
      }
    } else {
      OriginalOfRename(k);
      if RenameKey(k) in row { assert OriginalKey(RenameKey(k)) in keys; }
      if k in keys {
        var j :| j in row.Keys && j !in SourceColumns && OriginalKey(j) == k;
        RenameOfOriginal(j);
      }
    }
  }

  /** Renaming loses nothing: reading the dictionary backwards restores the row. */
  lemma RenameRoundTrip(row: Record)
    requires Renamable(row)
    ensures Unrename(Rename(row)) == row
  {
    var r := Rename(row);
    assert r.Keys !! SourceColumns by {
      forall k | k in SourceColumns ensures k !in r { RenameAt(row, k); }
    }
    forall k ensures Field(Unrename(r), k) == Field(row, k) {
      UnrenameAt(r, k);
      if k !in TargetColumns {
        RenameAt(row, RenameKey(k));
        OriginalOfRename(k);
      }
    }
    FieldsDetermineRecord(Unrename(r), row);
  }

  function RenameAll(df: seq<Record>): (r: seq<Record>)
    requires AllRenamable(df)
    ensures |r| == |df|
    ensures forall i :: 0 <= i < |df| ==> r[i] == Rename(df[i])
  {
    seq(|df|, i requires 0 <= i < |df| => Rename(df[i]))
  }

  lemma RenameAllConcat(a: seq<Record>, b: seq<Record>)
    requires AllRenamable(a) && AllRenamable(b)
    ensures AllRenamable(a + b)
    ensures RenameAll(a + b) == RenameAll(a) + RenameAll(b)
  {
    forall row | row in a + b ensures Renamable(row) {
      assert row in a || row in b;
    }
    var r, s := RenameAll(a + b), RenameAll(a) + RenameAll(b);
    forall i | 0 <= i < |a + b| ensures r[i] == s[i] {
      if i < |a| {
        assert (a + b)[i] == a[i];
      } else {
        assert (a + b)[i] == b[i - |a|];
      }
    }
  }

  /** Every row of a renamable frame that is kept stays renamable. */
  lemma KeepRenamable(df: seq<Record>, p: Record -> bool)
    requires AllRenamable(df)
    ensures AllRenamable(Keep(df, p))
  {
  }

  // --- GET /api/students ---

  /** `RenameAt`, for every row of a frame at once. */
  lemma RenameAllAt(df: seq<Record>, k: string)
    requires AllRenamable(df)
    ensures forall i :: 0 <= i < |df| ==>
      Field(RenameAll(df)[i], k) == if k in SourceColumns then None else Field(df[i], OriginalKey(k))
  {
    forall i | 0 <= i < |df|
      ensures Field(RenameAll(df)[i], k) == if k in SourceColumns then None else Field(df[i], OriginalKey(k))
    {
      assert df[i] in df;
      RenameAt(df[i], k);
    }
  }

  /** The student list: every row, renamed (the two-decimal rounding is not modelled). */
  function Students(df: seq<Record>): (r: seq<Record>)
    requires AllRenamable(df)
    ensures |r| == |df|
    ensures forall i :: 0 <= i < |df| ==> r[i] == Rename(df[i])
    ensures forall i :: 0 <= i < |df| ==> Unrename(r[i]) == df[i]
  {
    var r := RenameAll(df);
    assert forall i :: 0 <= i < |df| ==> Unrename(r[i]) == df[i] by {
      forall i | 0 <= i < |df| ensures Unrename(r[i]) == df[i] {
        RenameRoundTrip(df[i]);
      }
    }
    r
  }

  // --- GET /api/courses/<course_name> ---

  datatype Response = Rows(rows: seq<Record>) | Failure(status: nat, error: string)

  function InCourse(name: string): Record -> bool {
    FieldIs("CourseName", Str(name))
  }

  /** `get_course_details`: the renamed rows of that course, or 404 when there are none. */
  function CourseDetails(df: seq<Record>, name: string): (r: Response)
    requires AllRenamable(df)
    ensures r.Failure? <==> forall row :: row in df ==> Field(row, "CourseName") != Some(Str(name))
    ensures r.Failure? ==> r.status == 404 && r.error == "Course not found"
    ensures r.Rows? ==> r.rows == RenameAll(Keep(df, InCourse(name))) && r.rows != []
  {
    var selected := Keep(df, InCourse(name));
    if |selected| == 0 then Failure(404, "Course not found")
    else
      KeepRenamable(df, InCourse(name));
      Rows(RenameAll(selected))
  }

  /** Every returned row is of the requested course (under its new column name) and comes from the frame. */
  lemma CourseDetailsRows(df: seq<Record>, name: string, i: int)
    requires AllRenamable(df)
    requires 0 <= i < |Keep(df, InCourse(name))|
    ensures CourseDetails(df, name).Rows? && |CourseDetails(df, name).rows| == |Keep(df, InCourse(name))|
    ensures Field(CourseDetails(df, name).rows[i], "course") == Some(Str(name))
    ensures Unrename(CourseDetails(df, name).rows[i]) in df
  {
    var selected := Keep(df, InCourse(name));
    assert selected[i] in selected;
    RenameAt(selected[i], "course");
    RenameRoundTrip(selected[i]);
  }

  // --- GET /api/search?q= ---

  /** Characters `str.contains` would read as regular-expression syntax. */
  predicate IsRegexMeta(c: char) {
    c in ".^$*+?{}[]\\|()"
  }

  predicate NoRegexMeta(q: string) {
    forall i :: 0 <= i < |q| ==> !IsRegexMeta(q[i])
  }

  /** `df['UserID'].astype(str)` for an integer or a text id; any other value matches nothing. */
  function IdText(row: Record): (t: Option<string>)
    ensures forall n :: Field(row, "UserID") == Some(Int(n)) ==> t == Some(DecimalString(n))
    ensures forall v :: Field(row, "UserID") == Some(Str(v)) ==> t == Some(v)
    ensures t.None? <==> Field(row, "UserID").None? || Field(row, "UserID").value.Real?
  {
    match Field(row, "UserID")
    case Some(Int(n)) => Some(DecimalString(n))
    case Some(Str(s)) => Some(s)
    case _ => None
  }

  /** The two case-insensitive containment tests of the search mask. */
  predicate MatchesQuery(row: Record, query: string)
    ensures MatchesQuery(row, query) ==> IdText(row).Some? || Field(row, "CourseName").Some?
    ensures query == [] ==>
      (MatchesQuery(row, query) <==> IdText(row).Some? || (Field(row, "CourseName").Some? && Field(row, "CourseName").value.Str?))
  {
    || (IdText(row).Some? && Contains(Lower(IdText(row).value), Lower(query)))
    || (match Field(row, "CourseName") case Some(Str(c)) => Contains(Lower(c), Lower(query)) case _ => false)
  }

  function SearchHit(query: string): Record -> bool {
    row => MatchesQuery(row, query)
  }

  /**
   * `search()`: the parameter defaults to the empty string and is lower-cased;
   * an empty query returns nothing, otherwise the renamed rows whose id or
   * course name contains it.
   */
  function Search(df: seq<Record>, q: Option<string>): (r: seq<Record>)
    requires AllRenamable(df)
    requires q.Some? ==> NoRegexMeta(q.value)
    ensures q.None? || q.value == [] ==> r == []
    ensures q.Some? && q.value != [] ==> r == RenameAll(Keep(df, SearchHit(Lower(q.value))))
  {
    var query := Lower(if q.Some? then q.value else "");
    if query == [] then []
    else
      KeepRenamable(df, SearchHit(query));
      RenameAll(Keep(df, SearchHit(query)))
  }

  /** A row is found exactly when the query occurs, ignoring ASCII case, in its id or its course name. */
  lemma SearchHitIff(row: Record, query: string)
    ensures SearchHit(query)(row) <==>
      || (IdText(row).Some? && exists i :: OccursAt(Lower(IdText(row).value), Lower(query), i))
      || (Field(row, "CourseName").Some? && Field(row, "CourseName").value.Str? &&
          exists i :: OccursAt(Lower(Field(row, "CourseName").value.s), Lower(query), i))
  {
    if IdText(row).Some? { ContainsIff(Lower(IdText(row).value), Lower(query)); }
    if Field(row, "CourseName").Some? && Field(row, "CourseName").value.Str? {
      ContainsIff(Lower(Field(row, "CourseName").value.s), Lower(query));
    }
  }

  /** The search keeps frame order: results for a split frame are the results of its parts, joined. */
  lemma SearchKeepsOrder(a: seq<Record>, b: seq<Record>, q: string)
    requires AllRenamable(a + b) && NoRegexMeta(q)
    ensures AllRenamable(a) && AllRenamable(b)
    ensures Search(a + b, Some(q)) == Search(a, Some(q)) + Search(b, Some(q))
  {
    assert forall row :: row in a ==> row in a + b;
    assert forall row :: row in b ==> row in a + b;
    if q != [] {
      var hit := SearchHit(Lower(q));
      KeepConcat(a, b, hit);
      KeepRenamable(a, hit);
      KeepRenamable(b, hit);
      RenameAllConcat(Keep(a, hit), Keep(b, hit));
    }
  }

  // --- GET /api/courses: the colour column ---

  const Colors: seq<string> := ["border-sky-500", "border-emerald-500", "border-amber-500", "border-violet-500"]

  /** `[colors[i % len(colors)] for i in range(n)]`. */
  function ColorColumn(n: nat): (r: seq<string>)
    ensures |r| == n
    ensures forall i :: 0 <= i < n ==> r[i] == Colors[i % |Colors|]
  {
    seq(n, i requires 0 <= i < n => Colors[i % |Colors|])
  }

  /** Colours repeat with period four, and any four consecutive courses get four different colours. */
  lemma ColorsCycle(n: nat, i: nat, j: nat)
    requires i < j < n
    ensures j - i == 4 ==> ColorColumn(n)[i] == ColorColumn(n)[j]
    ensures j - i < 4 ==> ColorColumn(n)[i] != ColorColumn(n)[j]
  {
    var r := ColorColumn(n);
    if j - i == 4 {
      assert j % 4 == i % 4;
    }
    if j - i < 4 {
      assert i % 4 != j % 4;
      assert Colors[0] != Colors[1] && Colors[0] != Colors[2] && Colors[0] != Colors[3];
      assert Colors[1] != Colors[2] && Colors[1] != Colors[3] && Colors[2] != Colors[3];
    }
  }

  // --- GET /api/dashboard_stats: completion ---

  const CompletionLabels: seq<string> := ["Completed", "In Progress"]

  /** A dashboard chart: parallel lists of labels and values. */
  datatype Chart = Chart(labels: seq<string>, values: seq<nat>)

  /** `[completion_counts.get(1, 0), completion_counts.get(0, 0)]`. */
  function CompletionValues(df: seq<Record>): (v: seq<nat>)
    ensures |v| == 2
    ensures v[0] == Count(df, FieldIs("CourseCompletion", Int(1)))
    ensures v[1] == Count(df, FieldIs("CourseCompletion", Int(0)))
  {
    [Count(df, FieldIs("CourseCompletion", Int(1))), Count(df, FieldIs("CourseCompletion", Int(0)))]
  }

  /**
   * A class that never occurs counts 0; the two counts never exceed the number
   * of rows, and fill it exactly when every row is marked 0 or 1.
   */
  lemma CompletionValuesBounds(df: seq<Record>)
    ensures CompletionValues(df)[0] == 0 <==> forall row :: row in df ==> Field(row, "CourseCompletion") != Some(Int(1))
    ensures CompletionValues(df)[0] + CompletionValues(df)[1] <= |df|
    ensures CompletionValues(df)[0] + CompletionValues(df)[1] == |df| <==>
      forall row :: row in df ==> Field(row, "CourseCompletion") in {Some(Int(1)), Some(Int(0))}
  {
    CountDisjoint(df, FieldIs("CourseCompletion", Int(1)), FieldIs("CourseCompletion", Int(0)));
  }

  /** The `completion` chart: "Completed" beside the count of 1s, "In Progress" beside the count of 0s. */
  function CompletionChart(df: seq<Record>): (c: Chart)
    ensures |c.labels| == |c.values| == 2
    ensures c.labels[0] == "Completed" && c.values[0] == Count(df, FieldIs("CourseCompletion", Int(1)))
    ensures c.labels[1] == "In Progress" && c.values[1] == Count(df, FieldIs("CourseCompletion", Int(0)))
  {
    Chart(CompletionLabels, CompletionValues(df))
  }
}
