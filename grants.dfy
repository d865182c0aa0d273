/**
 * The chart data: `df_grants`, the filtered rows grouped by `(Year, ActivityType)` with the
 * Contribution column summed, and the per-activity-type slices drawn as line charts.
 */
module Grants {
  import opened Seqs
  import opened Participants
  import opened Grouping

  /** The grouping key `(Year, ActivityType)`. */
  datatype YearActivity = YearActivity(Year: int, ActivityType: string)

  function YearActivityOf(r: Participant): YearActivity {
    YearActivity(r.Year, r.ActivityType)
  }

  /** `df_grants` computed from `filtered_data`. */
  function GrantsDf(filteredData: seq<Participant>): seq<Group<YearActivity>> {
    GroupSum(filteredData, YearActivityOf)
  }

  /**
   * One row per distinct `(Year, ActivityType)` of the filtered rows, each with the sum of
   * Contribution over exactly the rows of that year and activity type.
   */
  lemma GrantsDfRows(filteredData: seq<Participant>)
    ensures DistinctKeys(GrantsDf(filteredData))
    ensures forall k :: HasKey(GrantsDf(filteredData), k) <==> Occurs(filteredData, YearActivityOf, k)
    ensures forall i :: 0 <= i < |GrantsDf(filteredData)| ==>
              GrantsDf(filteredData)[i].contribution ==
              SumFor(filteredData, YearActivityOf, GrantsDf(filteredData)[i].key)
    ensures GroupTotal(GrantsDf(filteredData)) == Total(filteredData)
  {
    GroupSumDistinct(filteredData, YearActivityOf);
    GroupSumKeys(filteredData, YearActivityOf);
    GroupSumRows(filteredData, YearActivityOf);
    GroupSumConserves(filteredData, YearActivityOf);
  }

  /** `df_grants[df_grants['ActivityType'] == activity_type]`. */
  function ActivitySlice(grants: seq<Group<YearActivity>>, activityType: string): seq<Group<YearActivity>>
  {
    if grants == [] then []
    else (if grants[0].key.ActivityType == activityType then [grants[0]] else []) + ActivitySlice(grants[1..], activityType)
  }

  /** A grants row is in the slice iff it is in `df_grants` and has that activity type. */
  lemma {:induction false} ActivitySliceMembers(grants: seq<Group<YearActivity>>, activityType: string)
    ensures forall g :: g in ActivitySlice(grants, activityType) <==> g in grants && g.key.ActivityType == activityType
  {
    if grants != [] {
      ActivitySliceMembers(grants[1..], activityType);
      assert grants == [grants[0]] + grants[1..];
    }
  }

  /** The slice keeps the order of `df_grants`. */
  lemma {:induction false} ActivitySliceSubsequence(grants: seq<Group<YearActivity>>, activityType: string)
    ensures IsSubsequence(ActivitySlice(grants, activityType), grants)
  {
    if grants != [] {
      var rest := ActivitySlice(grants[1..], activityType);
      ActivitySliceSubsequence(grants[1..], activityType);
      if grants[0].key.ActivityType == activityType {
        var w := ActivitySlice(grants, activityType);
        assert w == [grants[0]] + rest;
        assert w[0] == grants[0] && w[1..] == rest;
      } else {
        assert ActivitySlice(grants, activityType) == rest;
      }
    }
  }

  /** When the keys of `df_grants` are distinct, a slice has each year at most once. */
  lemma {:induction false} ActivitySliceYearsUnique(grants: seq<Group<YearActivity>>, activityType: string)
    requires DistinctKeys(grants)
    ensures forall i, j :: 0 <= i < j < |ActivitySlice(grants, activityType)| ==>
              ActivitySlice(grants, activityType)[i].key.Year != ActivitySlice(grants, activityType)[j].key.Year
  {
    if grants != [] {
      var tail := grants[1..];
      var rest := ActivitySlice(tail, activityType);
      ActivitySliceYearsUnique(tail, activityType);
      ActivitySliceMembers(tail, activityType);
      if grants[0].key.ActivityType == activityType {
        var w := ActivitySlice(grants, activityType);
        assert w == [grants[0]] + rest;
        forall j | 0 < j < |w| ensures w[0].key.Year != w[j].key.Year {
          assert w[j] in rest;
          var m :| 0 <= m < |tail| && tail[m] == w[j];
          assert grants[m + 1] == w[j];
          assert w[j].key.ActivityType == activityType;
        }
      }
    }
  }

  /**
   * The slice for an activity type has a row for year `y` iff some filtered row has that year and
   * activity type, and that row's Contribution is the sum over exactly those filtered rows.
   */
  lemma ActivitySliceOfFiltered(filteredData: seq<Participant>, activityType: string)
    ensures forall g :: g in ActivitySlice(GrantsDf(filteredData), activityType) ==>
              g.key.ActivityType == activityType &&
              Occurs(filteredData, YearActivityOf, g.key) &&
              g.contribution == SumFor(filteredData, YearActivityOf, g.key)
    ensures forall y :: Occurs(filteredData, YearActivityOf, YearActivity(y, activityType)) ==>
              exists g :: g in ActivitySlice(GrantsDf(filteredData), activityType) && g.key.Year == y
  {
    var grants := GrantsDf(filteredData);
    GrantsDfRows(filteredData);
    ActivitySliceMembers(grants, activityType);
    forall g | g in ActivitySlice(grants, activityType)
      ensures Occurs(filteredData, YearActivityOf, g.key) && g.contribution == SumFor(filteredData, YearActivityOf, g.key)
    {
      var i :| 0 <= i < |grants| && grants[i] == g;
      assert HasKey(grants, g.key);
    }
    forall y | Occurs(filteredData, YearActivityOf, YearActivity(y, activityType))
      ensures exists g :: g in ActivitySlice(grants, activityType) && g.key.Year == y
    {
      var i :| 0 <= i < |grants| && grants[i].key == YearActivity(y, activityType);
      assert grants[i] in ActivitySlice(grants, activityType);
    }
  }

  /** The loop over the selected activity types: the slice each chart is drawn from, in order. */
  method ChartSeries(grants: seq<Group<YearActivity>>, activityTypes: seq<string>)
    returns (series: seq<seq<Group<YearActivity>>>)
    ensures |series| == |activityTypes|
    ensures forall i :: 0 <= i < |series| ==> series[i] == ActivitySlice(grants, activityTypes[i])
  {
    series := [];
    for n := 0 to |activityTypes|
      invariant |series| == n
      invariant forall i :: 0 <= i < n ==> series[i] == ActivitySlice(grants, activityTypes[i])
    {
      var data := ActivitySlice(grants, activityTypes[n]);
      series := series + [data];
    }
  }
}
