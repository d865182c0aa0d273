/**
 * The PARTICIPANTS table as a sequence of rows, the user's selection, and the chains of
 * boolean masks that the dashboard applies to the table.
 */
module Participants {
  import opened Seqs

  /** One row of the PARTICIPANTS table; `Contribution` is an exact integer amount. */
  datatype Participant = Participant(
    OrganizationID: string,
    ShortName: string,
    Country: string,
    Year: int,
    ActivityType: string,
    OrganizationURL: string,
    Role: string,
    Contribution: int,
    ProjectAcronym: string,
    Name: string)

  /** The three multi-selections: chosen countries, years and activity types. */
  datatype Selection = Selection(countries: seq<string>, years: seq<int>, activityTypes: seq<string>)

  /** The Role value of a project's lead organisation. */
  const Coordinator: string := "Coordinator"

  /** One boolean mask over the table: an `isin` membership test or a Role equality. */
  datatype Mask =
    | CountryIn(countries: seq<string>)
    | YearIn(years: seq<int>)
    | ActivityTypeIn(activityTypes: seq<string>)
    | RoleIs(role: string)

  predicate Passes(r: Participant, m: Mask) {
    match m
    case CountryIn(cs) => r.Country in cs
    case YearIn(ys) => r.Year in ys
    case ActivityTypeIn(ts) => r.ActivityType in ts
    case RoleIs(role) => r.Role == role
  }

  /** `df[mask]`: the rows that pass the mask, in table order. */
  function Where(rows: seq<Participant>, m: Mask): seq<Participant>
  {
    if rows == [] then []
    else (if Passes(rows[0], m) then [rows[0]] else []) + Where(rows[1..], m)
  }

  /** Mask filtering keeps every passing row as often as it occurs, and no other row. */
  lemma {:induction false} WhereCounts(rows: seq<Participant>, m: Mask)
    ensures forall x :: multiset(Where(rows, m))[x] == if Passes(x, m) then multiset(rows)[x] else 0
  {
    if rows != [] {
      WhereCounts(rows[1..], m);
      assert rows == [rows[0]] + rows[1..];
    }
  }

  lemma {:induction false} WhereMembers(rows: seq<Participant>, m: Mask)
    ensures forall x :: x in Where(rows, m) <==> x in rows && Passes(x, m)
  {
    WhereCounts(rows, m);
    forall x ensures x in Where(rows, m) <==> x in rows && Passes(x, m) {
      assert x in Where(rows, m) <==> multiset(Where(rows, m))[x] > 0;
      assert x in rows <==> multiset(rows)[x] > 0;
    }
  }

  /** Mask filtering only removes rows: the result is a subsequence of the table. */
  lemma {:induction false} WhereSubsequence(rows: seq<Participant>, m: Mask)
    ensures IsSubsequence(Where(rows, m), rows)
  {
    if rows != [] {
      var rest := Where(rows[1..], m);
      WhereSubsequence(rows[1..], m);
      if Passes(rows[0], m) {
        var w := Where(rows, m);
        assert w == [rows[0]] + rest;
        assert w[0] == rows[0] && w[1..] == rest;
      } else {
        assert Where(rows, m) == rest;
      }
    }
  }

  lemma {:induction false} WhereAppend(a: seq<Participant>, b: seq<Participant>, m: Mask)
    ensures Where(a + b, m) == Where(a, m) + Where(b, m)
  {
    if a == [] {
      assert a + b == b;
    } else {
      WhereAppend(a[1..], b, m);
      var head := if Passes(a[0], m) then [a[0]] else [];
      assert (a + b)[0] == a[0] && (a + b)[1..] == a[1..] + b;
      calc {
        Where(a + b, m);
        head + Where(a[1..] + b, m);
        head + (Where(a[1..], m) + Where(b, m));
        (head + Where(a[1..], m)) + Where(b, m);
        Where(a, m) + Where(b, m);
      }
    }
  }

  /** Two masks may be applied in either order. */
  lemma {:induction false} WhereCommutes(rows: seq<Participant>, m1: Mask, m2: Mask)
    ensures Where(Where(rows, m1), m2) == Where(Where(rows, m2), m1)
  {
    if rows != [] {
      var head := [rows[0]];
      assert rows == head + rows[1..];
      WhereAppend(head, rows[1..], m1);
      WhereAppend(head, rows[1..], m2);
      WhereAppend(Where(head, m1), Where(rows[1..], m1), m2);
      WhereAppend(Where(head, m2), Where(rows[1..], m2), m1);
      WhereCommutes(rows[1..], m1, m2);
    }
  }

  /** A row passes every mask of a list. */
  predicate AllPass(r: Participant, ms: seq<Mask>) {
    forall m :: m in ms ==> Passes(r, m)
  }

  /** The rows passing every mask of a list at once: the composed conjunctive predicate. */
  function WhereAll(rows: seq<Participant>, ms: seq<Mask>): seq<Participant>
  {
    if rows == [] then []
    else (if AllPass(rows[0], ms) then [rows[0]] else []) + WhereAll(rows[1..], ms)
  }

  /** The successive reassignments `df = df[mask]`, one mask after another. */
  function Chain(rows: seq<Participant>, ms: seq<Mask>): seq<Participant>
    decreases |ms|
  {
    if ms == [] then rows else Chain(Where(rows, ms[0]), ms[1..])
  }

  lemma {:induction false} WhereThenAll(rows: seq<Participant>, m: Mask, ms: seq<Mask>)
    ensures WhereAll(Where(rows, m), ms) == WhereAll(rows, [m] + ms)
  {
    if rows != [] {
      var head := [rows[0]];
      assert rows == head + rows[1..];
      WhereAppend(head, rows[1..], m);
      WhereThenAll(rows[1..], m, ms);
      assert AllPass(rows[0], [m] + ms) <==> Passes(rows[0], m) && AllPass(rows[0], ms) by {
        assert forall m' :: m' in [m] + ms <==> m' == m || m' in ms;
      }
      var h := Where(head, m);
      assert Where(rows, m) == h + Where(rows[1..], m);
      WhereAllAppend(h, Where(rows[1..], m), ms);
      assert WhereAll(h, ms) == if Passes(rows[0], m) && AllPass(rows[0], ms) then head else [];
    }
  }

  /** Applying masks one after another keeps exactly the rows passing all of them. */
  lemma {:induction false} ChainIsWhereAll(rows: seq<Participant>, ms: seq<Mask>)
    ensures Chain(rows, ms) == WhereAll(rows, ms)
    decreases |ms|
  {
    if ms == [] {
      WhereAllNone(rows);
    } else {
      ChainIsWhereAll(Where(rows, ms[0]), ms[1..]);
      WhereThenAll(rows, ms[0], ms[1..]);
      assert [ms[0]] + ms[1..] == ms;
    }
  }

  lemma {:induction false} WhereAllAppend(a: seq<Participant>, b: seq<Participant>, ms: seq<Mask>)
    ensures WhereAll(a + b, ms) == WhereAll(a, ms) + WhereAll(b, ms)
  {
    if a == [] {
      assert a + b == b;
    } else {
      WhereAllAppend(a[1..], b, ms);
      var head := if AllPass(a[0], ms) then [a[0]] else [];
      assert (a + b)[0] == a[0] && (a + b)[1..] == a[1..] + b;
      calc {
        WhereAll(a + b, ms);
        head + WhereAll(a[1..] + b, ms);
        head + (WhereAll(a[1..], ms) + WhereAll(b, ms));
        (head + WhereAll(a[1..], ms)) + WhereAll(b, ms);
        WhereAll(a, ms) + WhereAll(b, ms);
      }
    }
  }

  lemma {:induction false} WhereAllNone(rows: seq<Participant>)
    ensures WhereAll(rows, []) == rows
  {
    if rows != [] {
      WhereAllNone(rows[1..]);
    }
  }

  lemma {:induction false} WhereAllSameMasks(rows: seq<Participant>, ms: seq<Mask>, ns: seq<Mask>)
    requires forall m :: m in ms <==> m in ns
    ensures WhereAll(rows, ms) == WhereAll(rows, ns)
  {
    if rows != [] {
      WhereAllSameMasks(rows[1..], ms, ns);
      assert AllPass(rows[0], ms) <==> AllPass(rows[0], ns);
    }
  }

  /** The order in which masks are applied does not matter: only which masks there are. */
  lemma MaskOrderIrrelevant(rows: seq<Participant>, ms: seq<Mask>, ns: seq<Mask>)
    requires forall m :: m in ms <==> m in ns
    ensures Chain(rows, ms) == Chain(rows, ns)
  {
    ChainIsWhereAll(rows, ms);
    ChainIsWhereAll(rows, ns);
    WhereAllSameMasks(rows, ms, ns);
  }

  /** The three selection masks in the order the dashboard applies them. */
  function SelectionMasks(sel: Selection): seq<Mask> {
    [CountryIn(sel.countries), YearIn(sel.years), ActivityTypeIn(sel.activityTypes)]
  }

  /** A row matches the selection in all three dimensions. */
  predicate Selected(r: Participant, sel: Selection) {
    r.Country in sel.countries && r.Year in sel.years && r.ActivityType in sel.activityTypes
  }

  /** `filtered_df` (and `filtered_data`): country, then year, then activity-type mask. */
  function FilteredDf(rows: seq<Participant>, sel: Selection): seq<Participant> {
    Where(Where(Where(rows, CountryIn(sel.countries)), YearIn(sel.years)), ActivityTypeIn(sel.activityTypes))
  }

  lemma FilteredDfIsChain(rows: seq<Participant>, sel: Selection)
    ensures FilteredDf(rows, sel) == Chain(rows, SelectionMasks(sel))
  {
    var ms := SelectionMasks(sel);
    ChainSteps(rows, ms[0], ms[1], ms[2]);
    assert ms == [ms[0], ms[1], ms[2]];
  }

  /** Three reassignments in a row. */
  lemma ChainSteps(rows: seq<Participant>, m1: Mask, m2: Mask, m3: Mask)
    ensures Chain(rows, [m1, m2, m3]) == Where(Where(Where(rows, m1), m2), m3)
  {
    var ms := [m1, m2, m3];
    var r1 := Where(rows, m1);
    var r2 := Where(r1, m2);
    assert ms[1..] == [m2, m3] && [m2, m3][1..] == [m3] && [m3][1..] == [];
    calc {
      Chain(rows, ms);
      Chain(r1, [m2, m3]);
      Chain(r2, [m3]);
      Chain(Where(r2, m3), []);
    }
  }

  /** Four reassignments in a row. */
  lemma ChainSteps4(rows: seq<Participant>, m1: Mask, m2: Mask, m3: Mask, m4: Mask)
    ensures Chain(rows, [m1, m2, m3, m4]) == Where(Where(Where(Where(rows, m1), m2), m3), m4)
  {
    var ms := [m1, m2, m3, m4];
    assert ms[1..] == [m2, m3, m4];
    ChainSteps(Where(rows, m1), m2, m3, m4);
  }

  /** Each passing row is kept as often as it occurs in the table; no other row is kept. */
  lemma FilteredDfCounts(rows: seq<Participant>, sel: Selection)
    ensures forall x :: multiset(FilteredDf(rows, sel))[x] ==
                       if Selected(x, sel) then multiset(rows)[x] else 0
  {
    var r1 := Where(rows, CountryIn(sel.countries));
    var r2 := Where(r1, YearIn(sel.years));
    WhereCounts(rows, CountryIn(sel.countries));
    WhereCounts(r1, YearIn(sel.years));
    WhereCounts(r2, ActivityTypeIn(sel.activityTypes));
  }

  /** A row is in `filtered_df` iff it is in the table and matches all three selections. */
  lemma FilteredDfMembers(rows: seq<Participant>, sel: Selection)
    ensures forall x :: x in FilteredDf(rows, sel) <==> x in rows && Selected(x, sel)
  {
    var r1 := Where(rows, CountryIn(sel.countries));
    var r2 := Where(r1, YearIn(sel.years));
    WhereMembers(rows, CountryIn(sel.countries));
    WhereMembers(r1, YearIn(sel.years));
    WhereMembers(r2, ActivityTypeIn(sel.activityTypes));
  }

  /** A mask every row passes keeps the whole table. */
  lemma {:induction false} WhereKeepsPassing(rows: seq<Participant>, m: Mask)
    requires forall i :: 0 <= i < |rows| ==> Passes(rows[i], m)
    ensures Where(rows, m) == rows
  {
    if rows != [] {
      WhereKeepsPassing(rows[1..], m);
      assert rows == [rows[0]] + rows[1..];
    }
  }

  /** A mask no row can pass leaves nothing. */
  lemma {:induction false} WhereNone(rows: seq<Participant>, m: Mask)
    requires forall x :: !Passes(x, m)
    ensures Where(rows, m) == []
  {
    if rows != [] {
      WhereNone(rows[1..], m);
    }
  }

  /** An empty selection in any dimension leaves no rows. */
  lemma EmptySelectionEmptyResult(rows: seq<Participant>, sel: Selection)
    requires sel.countries == [] || sel.years == [] || sel.activityTypes == []
    ensures FilteredDf(rows, sel) == []
  {
    var r1 := Where(rows, CountryIn(sel.countries));
    var r2 := Where(r1, YearIn(sel.years));
    if sel.countries == [] {
      WhereNone(rows, CountryIn(sel.countries));
    } else if sel.years == [] {
      WhereNone(r1, YearIn(sel.years));
    } else {
      WhereNone(r2, ActivityTypeIn(sel.activityTypes));
    }
  }

  lemma FilteredDfSubsequence(rows: seq<Participant>, sel: Selection)
    ensures IsSubsequence(FilteredDf(rows, sel), rows)
  {
    var r1 := Where(rows, CountryIn(sel.countries));
    var r2 := Where(r1, YearIn(sel.years));
    WhereSubsequence(rows, CountryIn(sel.countries));
    WhereSubsequence(r1, YearIn(sel.years));
    WhereSubsequence(r2, ActivityTypeIn(sel.activityTypes));
    SubsequenceTransitive(FilteredDf(rows, sel), r2, r1);
    SubsequenceTransitive(FilteredDf(rows, sel), r1, rows);
  }

  /** The three masks applied in any order give `filtered_df`. */
  lemma FilterOrderIrrelevant(rows: seq<Participant>, sel: Selection, ms: seq<Mask>)
    requires forall m :: m in ms <==> m in SelectionMasks(sel)
    ensures Chain(rows, ms) == FilteredDf(rows, sel)
  {
    FilteredDfIsChain(rows, sel);
    MaskOrderIrrelevant(rows, ms, SelectionMasks(sel));
  }

  /** `df_project_coordinators`: the Role mask first, then the same three selection masks. */
  function CoordinatorsDf(rows: seq<Participant>, sel: Selection): seq<Participant> {
    Where(Where(Where(Where(rows, RoleIs(Coordinator)), CountryIn(sel.countries)), YearIn(sel.years)),
          ActivityTypeIn(sel.activityTypes))
  }

  /** The coordinator listing is the coordinator rows of `filtered_df`. */
  lemma CoordinatorsOfFiltered(rows: seq<Participant>, sel: Selection)
    ensures CoordinatorsDf(rows, sel) == Where(FilteredDf(rows, sel), RoleIs(Coordinator))
  {
    var role := RoleIs(Coordinator);
    var c, y, t := CountryIn(sel.countries), YearIn(sel.years), ActivityTypeIn(sel.activityTypes);
    var ms := [role, c, y, t];
    var ns := [c, y, t, role];
    MaskOrderIrrelevant(rows, ms, ns);
    ChainSteps4(rows, role, c, y, t);
    ChainSteps4(rows, c, y, t, role);
  }

  /**
   * A row is listed as a coordinator iff it is in the table, its Role is "Coordinator" and it
   * matches all three selections; a row with any other Role is excluded whatever it matches.
   */
  lemma CoordinatorsMembers(rows: seq<Participant>, sel: Selection)
    ensures forall x :: x in CoordinatorsDf(rows, sel) <==>
      x in rows && x.Role == Coordinator && Selected(x, sel)
  {
    CoordinatorsOfFiltered(rows, sel);
    FilteredDfMembers(rows, sel);
    WhereMembers(FilteredDf(rows, sel), RoleIs(Coordinator));
  }

  lemma CoordinatorsSubsequence(rows: seq<Participant>, sel: Selection)
    ensures IsSubsequence(CoordinatorsDf(rows, sel), FilteredDf(rows, sel))
  {
    CoordinatorsOfFiltered(rows, sel);
    WhereSubsequence(FilteredDf(rows, sel), RoleIs(Coordinator));
  }
}
