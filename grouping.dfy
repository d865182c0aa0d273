/**
 * `df.groupby(keys)['Contribution'].sum().reset_index()`: one output row per distinct key,
 * carrying the sum of Contribution over the rows with that key.
 * Output rows come in the order of each key's last occurrence; nothing proved depends on that order.
 */
module Grouping {
  import opened Participants

  /** One row of a grouped table: the key columns and the summed Contribution. */
  datatype Group<K> = Group(key: K, contribution: int)

  /** Sum of Contribution over the rows whose key is `k`. */
  function SumFor<K(==)>(rows: seq<Participant>, keyOf: Participant -> K, k: K): int
  {
    if rows == [] then 0
    else (if keyOf(rows[0]) == k then rows[0].Contribution else 0) + SumFor(rows[1..], keyOf, k)
  }

  /** Sum of Contribution over all rows. */
  function Total(rows: seq<Participant>): int
  {
    if rows == [] then 0 else rows[0].Contribution + Total(rows[1..])
  }

  /** Sum of the grouped contributions. */
  function GroupTotal<K>(g: seq<Group<K>>): int
  {
    if g == [] then 0 else g[0].contribution + GroupTotal(g[1..])
  }

  /** Some table row has key `k`. */
  predicate Occurs<K(==)>(rows: seq<Participant>, keyOf: Participant -> K, k: K) {
    exists i :: 0 <= i < |rows| && keyOf(rows[i]) == k
  }

  /** Some grouped row has key `k`. */
  predicate HasKey<K(==)>(g: seq<Group<K>>, k: K) {
    exists i :: 0 <= i < |g| && g[i].key == k
  }

  /** No two grouped rows share a key. */
  predicate DistinctKeys<K(==)>(g: seq<Group<K>>) {
    forall i, j :: 0 <= i < j < |g| ==> g[i].key != g[j].key
  }

  /** The position of the first grouped row with key `k`, or `|g|` when there is none. */
  function KeyIndex<K(==)>(g: seq<Group<K>>, k: K): (i: nat)
    ensures i <= |g|
    ensures i < |g| ==> g[i].key == k
    ensures forall j :: 0 <= j < i ==> g[j].key != k
  {
    if g == [] then 0 else if g[0].key == k then 0 else 1 + KeyIndex(g[1..], k)
  }

  /** The summed contribution recorded for key `k` (0 when the key is absent). */
  function ValueOf<K(==)>(g: seq<Group<K>>, k: K): int {
    var i := KeyIndex(g, k);
    if i < |g| then g[i].contribution else 0
  }

  /** Adds one row's contribution to its key's group, opening a new group for a new key. */
  function AddTo<K(==)>(g: seq<Group<K>>, k: K, v: int): seq<Group<K>> {
    var i := KeyIndex(g, k);
    if i < |g| then g[i := Group(k, g[i].contribution + v)] else [Group(k, v)] + g
  }

  /** The grouped table of `rows` under the key function `keyOf`. */
  function GroupSum<K(==)>(rows: seq<Participant>, keyOf: Participant -> K): seq<Group<K>>
  {
    if rows == [] then [] else AddTo(GroupSum(rows[1..], keyOf), keyOf(rows[0]), rows[0].Contribution)
  }

  lemma AddToKeys<K>(g: seq<Group<K>>, k: K, v: int)
    ensures forall k' :: HasKey(AddTo(g, k, v), k') <==> HasKey(g, k') || k' == k
  {
    var r := AddTo(g, k, v);
    var i := KeyIndex(g, k);
    forall k' ensures HasKey(r, k') <==> HasKey(g, k') || k' == k {
      if i < |g| {
        assert forall j :: 0 <= j < |g| ==> r[j].key == g[j].key;
      } else {
        assert r[0].key == k;
        assert forall j :: 0 <= j < |g| ==> r[j + 1] == g[j];
        if HasKey(r, k') {
          var j :| 0 <= j < |r| && r[j].key == k';
          if j > 0 { assert g[j - 1].key == k'; }
        }
      }
    }
  }

  /** Adding a row never makes two groups share a key. */
  lemma AddToDistinct<K>(g: seq<Group<K>>, k: K, v: int)
    requires DistinctKeys(g)
    ensures DistinctKeys(AddTo(g, k, v))
  {
  }

  /** Adding a row raises only its own key's sum, by its contribution. */
  lemma AddToValues<K>(g: seq<Group<K>>, k: K, v: int)
    ensures forall k' :: ValueOf(AddTo(g, k, v), k') == ValueOf(g, k') + (if k' == k then v else 0)
  {
  }

  lemma {:induction false} GroupTotalUpdate<K>(g: seq<Group<K>>, i: nat, x: Group<K>)
    requires i < |g|
    ensures GroupTotal(g[i := x]) == GroupTotal(g) - g[i].contribution + x.contribution
  {
    if i == 0 {
      assert g[i := x][1..] == g[1..];
    } else {
      assert g[i := x][1..] == g[1..][i - 1 := x];
      GroupTotalUpdate(g[1..], i - 1, x);
    }
  }

  lemma AddToTotal<K>(g: seq<Group<K>>, k: K, v: int)
    ensures GroupTotal(AddTo(g, k, v)) == GroupTotal(g) + v
  {
    var i := KeyIndex(g, k);
    if i < |g| {
      GroupTotalUpdate(g, i, Group(k, g[i].contribution + v));
    } else {
      assert ([Group(k, v)] + g)[1..] == g;
    }
  }

  /** The grouped keys are exactly the keys occurring in the table. */
  lemma {:induction false} GroupSumKeys<K>(rows: seq<Participant>, keyOf: Participant -> K)
    ensures forall k :: HasKey(GroupSum(rows, keyOf), k) <==> Occurs(rows, keyOf, k)
  {
    if rows != [] {
      GroupSumKeys(rows[1..], keyOf);
      AddToKeys(GroupSum(rows[1..], keyOf), keyOf(rows[0]), rows[0].Contribution);
      forall k ensures Occurs(rows, keyOf, k) <==> Occurs(rows[1..], keyOf, k) || keyOf(rows[0]) == k {
        if Occurs(rows, keyOf, k) {
          var i :| 0 <= i < |rows| && keyOf(rows[i]) == k;
          if i > 0 { assert keyOf(rows[1..][i - 1]) == k; }
        }
        if Occurs(rows[1..], keyOf, k) {
          var i :| 0 <= i < |rows[1..]| && keyOf(rows[1..][i]) == k;
          assert keyOf(rows[i + 1]) == k;
        }
        if keyOf(rows[0]) == k {
          assert keyOf(rows[0]) == k;
        }
      }
    }
  }

  /** No two grouped rows share a key. */
  lemma {:induction false} GroupSumDistinct<K>(rows: seq<Participant>, keyOf: Participant -> K)
    ensures DistinctKeys(GroupSum(rows, keyOf))
  {
    if rows != [] {
      GroupSumDistinct(rows[1..], keyOf);
      AddToDistinct(GroupSum(rows[1..], keyOf), keyOf(rows[0]), rows[0].Contribution);
    }
  }

  /** The value recorded for every key is the sum over exactly the rows with that key. */
  lemma {:induction false} GroupSumValues<K>(rows: seq<Participant>, keyOf: Participant -> K)
    ensures forall k :: ValueOf(GroupSum(rows, keyOf), k) == SumFor(rows, keyOf, k)
  {
    if rows != [] {
      GroupSumValues(rows[1..], keyOf);
      AddToValues(GroupSum(rows[1..], keyOf), keyOf(rows[0]), rows[0].Contribution);
    }
  }

  /** Each grouped row carries the sum of Contribution over exactly the rows with its key. */
  lemma GroupSumRows<K>(rows: seq<Participant>, keyOf: Participant -> K)
    ensures forall i :: 0 <= i < |GroupSum(rows, keyOf)| ==>
              GroupSum(rows, keyOf)[i].contribution == SumFor(rows, keyOf, GroupSum(rows, keyOf)[i].key)
  {
    var g := GroupSum(rows, keyOf);
    GroupSumDistinct(rows, keyOf);
    GroupSumValues(rows, keyOf);
    forall i | 0 <= i < |g| ensures g[i].contribution == SumFor(rows, keyOf, g[i].key) {
      var j := KeyIndex(g, g[i].key);
      assert j == i;
      assert ValueOf(g, g[i].key) == g[i].contribution;
    }
  }

  /** Conservation: the grouped contributions add up to the table's total. */
  lemma {:induction false} GroupSumConserves<K>(rows: seq<Participant>, keyOf: Participant -> K)
    ensures GroupTotal(GroupSum(rows, keyOf)) == Total(rows)
  {
    if rows != [] {
      GroupSumConserves(rows[1..], keyOf);
      AddToTotal(GroupSum(rows[1..], keyOf), keyOf(rows[0]), rows[0].Contribution);
    }
  }

  /** Every key that occurs in the table is carried by exactly one grouped row. */
  lemma GroupSumKeyOnce<K>(rows: seq<Participant>, keyOf: Participant -> K, k: K)
    requires Occurs(rows, keyOf, k)
    ensures exists i :: 0 <= i < |GroupSum(rows, keyOf)| && GroupSum(rows, keyOf)[i].key == k &&
              forall j :: 0 <= j < |GroupSum(rows, keyOf)| && j != i ==> GroupSum(rows, keyOf)[j].key != k
  {
    var g := GroupSum(rows, keyOf);
    GroupSumKeys(rows, keyOf);
    GroupSumDistinct(rows, keyOf);
    var i :| 0 <= i < |g| && g[i].key == k;
    assert forall j :: 0 <= j < |g| && j != i ==> g[j].key != k by {
      forall j | 0 <= j < |g| && j != i ensures g[j].key != k {
        if j < i { assert g[j].key != g[i].key; } else { assert g[i].key != g[j].key; }
      }
    }
  }

  /** With no negative contribution, no key's sum is negative. */
  lemma {:induction false} SumForNonNegative<K>(rows: seq<Participant>, keyOf: Participant -> K, k: K)
    requires forall r :: r in rows ==> r.Contribution >= 0
    ensures SumFor(rows, keyOf, k) >= 0
  {
    if rows != [] {
      assert rows[0] in rows;
      assert forall r :: r in rows[1..] ==> r in rows;
      SumForNonNegative(rows[1..], keyOf, k);
    }
  }

  /** With no negative contribution, every grouped sum is non-negative. */
  lemma GroupSumNonNegative<K>(rows: seq<Participant>, keyOf: Participant -> K)
    requires forall r :: r in rows ==> r.Contribution >= 0
    ensures forall g :: g in GroupSum(rows, keyOf) ==> g.contribution >= 0
  {
    GroupSumRows(rows, keyOf);
    forall g | g in GroupSum(rows, keyOf) ensures g.contribution >= 0 {
      SumForNonNegative(rows, keyOf, g.key);
    }
  }
}
