/**
 * The partner-contribution table: the filtered rows grouped by organisation and activity type,
 * the summed column renamed to TotalContribution, then sorted by it in descending order.
 */
module Contributions {
  import opened Participants
  import opened Grouping

  /** The grouping key `(OrganizationID, ShortName, ActivityType, OrganizationURL)`. */
  datatype OrgKey = OrgKey(OrganizationID: string, ShortName: string, ActivityType: string, OrganizationURL: string)

  function OrgKeyOf(r: Participant): OrgKey {
    OrgKey(r.OrganizationID, r.ShortName, r.ActivityType, r.OrganizationURL)
  }

  /** One row of `grouped_df` after `reset_index()` and the rename to TotalContribution. */
  datatype OrgTotal = OrgTotal(
    OrganizationID: string,
    ShortName: string,
    ActivityType: string,
    OrganizationURL: string,
    TotalContribution: int)
  {
    function Key(): OrgKey {
      OrgKey(OrganizationID, ShortName, ActivityType, OrganizationURL)
    }
  }

  /** `reset_index()` plus `rename(columns={'Contribution': 'TotalContribution'})`. */
  function Renamed(g: seq<Group<OrgKey>>): (r: seq<OrgTotal>)
    ensures |r| == |g|
    ensures forall i :: 0 <= i < |g| ==> r[i].Key() == g[i].key && r[i].TotalContribution == g[i].contribution
  {
    if g == [] then []
    else
      var k := g[0].key;
      [OrgTotal(k.OrganizationID, k.ShortName, k.ActivityType, k.OrganizationURL, g[0].contribution)] + Renamed(g[1..])
  }

  /** `grouped_df` computed from `filtered_df`. */
  function GroupedDf(filtered: seq<Participant>): seq<OrgTotal> {
    Renamed(GroupSum(filtered, OrgKeyOf))
  }

  /** Sum of the TotalContribution column. */
  function SumTotals(s: seq<OrgTotal>): int {
    if s == [] then 0 else s[0].TotalContribution + SumTotals(s[1..])
  }

  /** No two rows of the table share a grouping key. */
  predicate UniqueKeys(s: seq<OrgTotal>) {
    forall i, j :: 0 <= i < j < |s| ==> s[i].Key() != s[j].Key()
  }

  /** After grouping, no two rows share a key. */
  lemma GroupedDfUniqueKeys(filtered: seq<Participant>)
    ensures UniqueKeys(GroupedDf(filtered))
  {
    GroupSumDistinct(filtered, OrgKeyOf);
  }

  /** A key has a row in `grouped_df` iff some filtered row has that key. */
  lemma GroupedDfKeys(filtered: seq<Participant>)
    ensures forall k :: (exists i :: 0 <= i < |GroupedDf(filtered)| && GroupedDf(filtered)[i].Key() == k) <==>
                        Occurs(filtered, OrgKeyOf, k)
  {
    var g := GroupSum(filtered, OrgKeyOf);
    var r := GroupedDf(filtered);
    GroupSumKeys(filtered, OrgKeyOf);
    forall k ensures (exists i :: 0 <= i < |r| && r[i].Key() == k) <==> HasKey(g, k) {
      if HasKey(g, k) {
        var i :| 0 <= i < |g| && g[i].key == k;
        assert r[i].Key() == k;
      }
    }
  }

  /** Each TotalContribution is the sum over exactly the filtered rows with that row's key. */
  lemma GroupedDfTotals(filtered: seq<Participant>)
    ensures forall i :: 0 <= i < |GroupedDf(filtered)| ==>
              GroupedDf(filtered)[i].TotalContribution == SumFor(filtered, OrgKeyOf, GroupedDf(filtered)[i].Key())
  {
    GroupSumRows(filtered, OrgKeyOf);
  }

  lemma {:induction false} RenamedTotal(g: seq<Group<OrgKey>>)
    ensures SumTotals(Renamed(g)) == GroupTotal(g)
  {
    if g != [] {
      RenamedTotal(g[1..]);
    }
  }

  /** Conservation: the TotalContribution column adds up to the filtered rows' total. */
  lemma GroupedDfConserves(filtered: seq<Participant>)
    ensures SumTotals(GroupedDf(filtered)) == Total(filtered)
  {
    RenamedTotal(GroupSum(filtered, OrgKeyOf));
    GroupSumConserves(filtered, OrgKeyOf);
  }

  /** Rows are in non-increasing order of TotalContribution. */
  predicate Descending(s: seq<OrgTotal>) {
    forall i, j :: 0 <= i < j < |s| ==> s[i].TotalContribution >= s[j].TotalContribution
  }

  /** A row at least as large as every row of a descending table may be put in front of it. */
  lemma DescendingCons(h: OrgTotal, t: seq<OrgTotal>)
    requires Descending(t)
    requires forall y :: y in t ==> h.TotalContribution >= y.TotalContribution
    ensures Descending([h] + t)
  {
  }

  /** The first row of a descending table has the largest total. */
  lemma DescendingHead(s: seq<OrgTotal>)
    requires Descending(s)
    ensures forall y :: y in s ==> y.TotalContribution <= s[0].TotalContribution
  {
  }

  /** Whatever follows the head after an insertion behind it is no larger than the head. */
  lemma BehindHead(s: seq<OrgTotal>, x: OrgTotal, rest: seq<OrgTotal>)
    requires Descending(s) && s != [] && x.TotalContribution < s[0].TotalContribution
    requires multiset(rest) == multiset(s[1..]) + multiset{x}
    ensures forall y :: y in rest ==> y.TotalContribution <= s[0].TotalContribution
  {
    DescendingHead(s);
    forall y | y in rest ensures y.TotalContribution <= s[0].TotalContribution {
      assert y in multiset(rest);
      if y != x {
        assert y in s[1..];
      }
    }
  }

  /** Places `x` into a descending table, before the first row with a smaller total. */
  function Insert(x: OrgTotal, s: seq<OrgTotal>): (r: seq<OrgTotal>)
    requires Descending(s)
    ensures Descending(r)
    ensures multiset(r) == multiset(s) + multiset{x}
  {
    if s == [] || x.TotalContribution >= s[0].TotalContribution then
      DescendingHead(s);
      DescendingCons(x, s);
      [x] + s
    else
      var rest := Insert(x, s[1..]);
      BehindHead(s, x, rest);
      DescendingCons(s[0], rest);
      assert s == [s[0]] + s[1..];
      [s[0]] + rest
  }

  /** `sort_values(by='TotalContribution', ascending=False)`; the order among ties is not specified. */
  function SortDescending(s: seq<OrgTotal>): (r: seq<OrgTotal>)
    ensures Descending(r)
    ensures forall i :: 0 <= i < |r| - 1 ==> r[i].TotalContribution >= r[i + 1].TotalContribution
    ensures multiset(r) == multiset(s)
  {
    if s == [] then []
    else
      assert s == [s[0]] + s[1..];
      Insert(s[0], SortDescending(s[1..]))
  }

  lemma {:induction false} InsertTotal(x: OrgTotal, s: seq<OrgTotal>)
    requires Descending(s)
    ensures SumTotals(Insert(x, s)) == x.TotalContribution + SumTotals(s)
  {
    if s != [] && x.TotalContribution < s[0].TotalContribution {
      InsertTotal(x, s[1..]);
      assert Insert(x, s)[1..] == Insert(x, s[1..]);
    }
  }

  /** Sorting keeps the column total. */
  lemma {:induction false} SortTotal(s: seq<OrgTotal>)
    ensures SumTotals(SortDescending(s)) == SumTotals(s)
  {
    if s != [] {
      SortTotal(s[1..]);
      InsertTotal(s[0], SortDescending(s[1..]));
    }
  }

  /** Keys that are unique before sorting stay unique: sorting only reorders rows. */
  lemma {:induction false} InsertUniqueKeys(x: OrgTotal, s: seq<OrgTotal>)
    requires Descending(s) && UniqueKeys(s)
    requires forall y :: y in s ==> y.Key() != x.Key()
    ensures UniqueKeys(Insert(x, s))
  {
    if s != [] && x.TotalContribution < s[0].TotalContribution {
      var tail := s[1..];
      assert UniqueKeys(tail) by {
        forall i, j | 0 <= i < j < |tail| ensures tail[i].Key() != tail[j].Key() {
          assert tail[i] == s[i + 1] && tail[j] == s[j + 1];
        }
      }
      InsertUniqueKeys(x, tail);
      var rest := Insert(x, tail);
      HeadKeyNotBehind(s, x, rest);
      UniqueKeysCons(s[0], rest);
    } else {
      UniqueKeysCons(x, s);
    }
  }

  /** The head's key differs from every key of an insertion into the tail. */
  lemma HeadKeyNotBehind(s: seq<OrgTotal>, x: OrgTotal, rest: seq<OrgTotal>)
    requires s != [] && UniqueKeys(s) && x.Key() != s[0].Key()
    requires multiset(rest) == multiset(s[1..]) + multiset{x}
    ensures forall y :: y in rest ==> y.Key() != s[0].Key()
  {
    forall y | y in rest ensures y.Key() != s[0].Key() {
      assert y in multiset(rest);
      if y != x {
        assert y in s[1..];
        var j :| 0 <= j < |s[1..]| && s[1..][j] == y;
        assert s[j + 1] == y;
      }
    }
  }

  lemma UniqueKeysCons(h: OrgTotal, t: seq<OrgTotal>)
    requires UniqueKeys(t)
    requires forall y :: y in t ==> y.Key() != h.Key()
    ensures UniqueKeys([h] + t)
  {
  }

  lemma {:induction false} SortUniqueKeys(s: seq<OrgTotal>)
    requires UniqueKeys(s)
    ensures UniqueKeys(SortDescending(s))
  {
    if s != [] {
      var t := SortDescending(s[1..]);
      SortUniqueKeys(s[1..]);
      forall y | y in t ensures y.Key() != s[0].Key() {
        assert y in multiset(t);
        var j :| 0 <= j < |s[1..]| && s[1..][j] == y;
        assert s[j + 1] == y;
      }
      InsertUniqueKeys(s[0], t);
    }
  }

  /** `sorted_df_participants` computed from `filtered_df`. */
  function SortedDf(filtered: seq<Participant>): seq<OrgTotal> {
    SortDescending(GroupedDf(filtered))
  }

  /**
   * The displayed table: a reordering of `grouped_df`, descending in TotalContribution, one row
   * per key, with the filtered rows' total.
   */
  lemma SortedDfFacts(filtered: seq<Participant>)
    ensures multiset(SortedDf(filtered)) == multiset(GroupedDf(filtered))
    ensures Descending(SortedDf(filtered))
    ensures UniqueKeys(SortedDf(filtered))
    ensures SumTotals(SortedDf(filtered)) == Total(filtered)
  {
    GroupedDfUniqueKeys(filtered);
    SortUniqueKeys(GroupedDf(filtered));
    GroupedDfConserves(filtered);
    SortTotal(GroupedDf(filtered));
  }

  /**
   * Two selected rows of one organisation, both Germany/2020/Research with contributions 100
   * and 50, give a single table row with TotalContribution 150.
   */
  lemma TwoRowsOneGroup(a: Participant, b: Participant)
    requires a.Country == b.Country == "Germany" && a.Year == b.Year == 2020
    requires a.ActivityType == b.ActivityType == "Research"
    requires OrgKeyOf(a) == OrgKeyOf(b)
    requires a.Contribution == 100 && b.Contribution == 50
    ensures SortedDf(FilteredDf([a, b], Selection(["Germany"], [2020], ["Research"]))) ==
            [OrgTotal(a.OrganizationID, a.ShortName, "Research", a.OrganizationURL, 150)]
  {
    var sel := Selection(["Germany"], [2020], ["Research"]);
    var rows := [a, b];
    assert rows[1..] == [b] && rows[1..][1..] == [];
    WhereKeepsPassing(rows, CountryIn(sel.countries));
    WhereKeepsPassing(rows, YearIn(sel.years));
    WhereKeepsPassing(rows, ActivityTypeIn(sel.activityTypes));
    assert FilteredDf(rows, sel) == rows;
    var k := OrgKeyOf(a);
    assert GroupSum([b], OrgKeyOf) == [Group(k, 50)];
    assert GroupSum(rows, OrgKeyOf) == [Group(k, 150)];
    var g := GroupedDf(rows);
    assert g == [OrgTotal(a.OrganizationID, a.ShortName, "Research", a.OrganizationURL, 150)];
    assert Insert(g[0], []) == g;
    assert SortDescending(g) == g by {
      assert g[1..] == [];
    }
  }

  /** With no negative contribution in the filtered rows, no TotalContribution is negative. */
  lemma GroupedDfNonNegative(filtered: seq<Participant>)
    requires forall r :: r in filtered ==> r.Contribution >= 0
    ensures forall t :: t in GroupedDf(filtered) ==> t.TotalContribution >= 0
  {
    GroupedDfTotals(filtered);
    forall t | t in GroupedDf(filtered) ensures t.TotalContribution >= 0 {
      SumForNonNegative(filtered, OrgKeyOf, t.Key());
    }
  }

  /** The same holds of the sorted table, which has the same rows. */
  lemma SortedDfNonNegative(filtered: seq<Participant>)
    requires forall r :: r in filtered ==> r.Contribution >= 0
    ensures forall t :: t in SortedDf(filtered) ==> t.TotalContribution >= 0
  {
    GroupedDfNonNegative(filtered);
    forall t | t in SortedDf(filtered) ensures t.TotalContribution >= 0 {
      assert t in multiset(SortedDf(filtered));
      assert t in multiset(GroupedDf(filtered));
    }
  }
}
