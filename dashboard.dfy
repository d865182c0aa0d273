/**
 * One run of the dashboard script over tables already read into memory: the successive
 * reassignments that produce the contribution table, the coordinator listing, the grants
 * table and the per-activity-type chart slices.
 */
module Dashboard {
  import opened Seqs
  import opened Participants
  import opened Grouping
  import opened Contributions
  import opened Grants

  method Run(dfParticipants: seq<Participant>, selectedCountries: seq<string>, selectedYears: seq<int>,
             selectedActivityTypes: seq<string>)
    returns (sortedDfParticipants: seq<OrgTotal>, dfProjectCoordinators: seq<Participant>,
             dfGrants: seq<Group<YearActivity>>, chartData: seq<seq<Group<YearActivity>>>)
    // The contribution table: one row per key of the selected rows, descending, conserving the total.
    ensures sortedDfParticipants == SortedDf(FilteredDf(dfParticipants,
              Selection(selectedCountries, selectedYears, selectedActivityTypes)))
    ensures Descending(sortedDfParticipants)
    ensures UniqueKeys(sortedDfParticipants)
    ensures SumTotals(sortedDfParticipants) ==
            Total(FilteredDf(dfParticipants, Selection(selectedCountries, selectedYears, selectedActivityTypes)))
    // The coordinator listing: exactly the selected coordinator rows, in table order.
    ensures dfProjectCoordinators ==
            CoordinatorsDf(dfParticipants, Selection(selectedCountries, selectedYears, selectedActivityTypes))
    ensures forall x :: x in dfProjectCoordinators <==>
              x in dfParticipants && x.Role == Coordinator &&
              Selected(x, Selection(selectedCountries, selectedYears, selectedActivityTypes))
    ensures IsSubsequence(dfProjectCoordinators,
              FilteredDf(dfParticipants, Selection(selectedCountries, selectedYears, selectedActivityTypes)))
    // The chart data: grants grouped by (Year, ActivityType), one slice per selected activity type.
    ensures dfGrants == GrantsDf(FilteredDf(dfParticipants,
              Selection(selectedCountries, selectedYears, selectedActivityTypes)))
    ensures |chartData| == |selectedActivityTypes|
    ensures forall i :: 0 <= i < |chartData| ==> chartData[i] == ActivitySlice(dfGrants, selectedActivityTypes[i])
    ensures forall i :: 0 <= i < |chartData| ==>
              forall g :: g in chartData[i] <==> g in dfGrants && g.key.ActivityType == selectedActivityTypes[i]
  {
    var sel := Selection(selectedCountries, selectedYears, selectedActivityTypes);

    var filteredDf := Where(dfParticipants, CountryIn(selectedCountries));
    filteredDf := Where(filteredDf, YearIn(selectedYears));
    filteredDf := Where(filteredDf, ActivityTypeIn(selectedActivityTypes));

    var groupedDf := GroupedDf(filteredDf);
    sortedDfParticipants := SortDescending(groupedDf);
    SortedDfFacts(filteredDf);

    dfProjectCoordinators := Where(dfParticipants, RoleIs(Coordinator));
    dfProjectCoordinators := Where(dfProjectCoordinators, CountryIn(selectedCountries));
    dfProjectCoordinators := Where(dfProjectCoordinators, YearIn(selectedYears));
    dfProjectCoordinators := Where(dfProjectCoordinators, ActivityTypeIn(selectedActivityTypes));
    CoordinatorsMembers(dfParticipants, sel);
    CoordinatorsSubsequence(dfParticipants, sel);

    var filteredData := Where(dfParticipants, CountryIn(selectedCountries));
    filteredData := Where(filteredData, YearIn(selectedYears));
    filteredData := Where(filteredData, ActivityTypeIn(selectedActivityTypes));

    dfGrants := GrantsDf(filteredData);
    chartData := ChartSeries(dfGrants, selectedActivityTypes);
    forall i | 0 <= i < |chartData|
      ensures forall g :: g in chartData[i] <==> g in dfGrants && g.key.ActivityType == selectedActivityTypes[i]
    {
      ActivitySliceMembers(dfGrants, selectedActivityTypes[i]);
    }
  }
}
