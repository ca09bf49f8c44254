/**
 * How the two halves fit: the columns the table sorts on are the columns
 * the back end serves, and the report's engagement filter selects exactly
 * the students whose predicted probability fell in that bucket.
 */
module Pipeline {
  import opened Wrappers
  import opened Records
  import opened Backend
  import opened Reports
  import Views

  /** Every table header names a renamed column or the prediction column. */
  lemma HeaderKeysAreServed()
    ensures forall k :: k in Views.HeaderKeys ==> k in TargetColumns || k == PredictedColumn
    ensures forall k :: k in SourceColumns ==> RenameKey(k) in Views.HeaderKeys
  {
  }

  /** The students list the report page receives: rows annotated with their label, then renamed. */
  function ServedStudents(df: seq<Record>, probability: Record -> real): (r: seq<Record>)
    requires AllRenamable(df)
    ensures |r| == |df|
    ensures forall i :: 0 <= i < |df| ==>
      Field(r[i], PredictedColumn) == Some(Str(Label(Categorize(probability(df[i])))))
    ensures forall i :: 0 <= i < |df| ==> Field(r[i], "course") == Field(df[i], "CourseName")
  {
    var annotated := WithPredictions(df, PredictEngagement(df, probability));
    RenameAllAt(annotated, PredictedColumn);
    RenameAllAt(annotated, "course");
    Students(annotated)
  }

  /** A served student passes the engagement filter for bucket `e` exactly when its probability lies in that bucket. */
  lemma EngagementFilterMatchesBucket(df: seq<Record>, probability: Record -> real, i: int, e: Engagement)
    requires AllRenamable(df) && 0 <= i < |df|
    ensures ReportFilter(AllOption, Label(e))(ServedStudents(df, probability)[i]) <==> Categorize(probability(df[i])) == e
  {
    var served := ServedStudents(df, probability);
    assert Field(served[i], PredictedColumn) == Some(Str(Label(Categorize(probability(df[i])))));
    assert ReportFilter(AllOption, Label(e))(served[i]) <==> Field(served[i], PredictedColumn) == Some(Str(Label(e)));
    LabelInjective(Categorize(probability(df[i])), e);
  }
}
