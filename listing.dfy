/**
  The listing queries of the get_all handlers: the optional `contains` name
  filter and `orderBy: { name: 'asc' }`, over a map from row id to name.
 */
module Listing {
  import opened Wrappers

  /** The `contains` operator: q occurs somewhere in s. */
  predicate Contains(s: string, q: string)
  {
    exists i :: 0 <= i <= |s| - |q| && OccursAt(s, q, i)
  }

  predicate OccursAt(s: string, q: string, i: int)
    requires 0 <= i <= |s| - |q|
  {
    s[i..i + |q|] == q
  }

  /**
    The filter built from the `name` query parameter: only a truthy
    (non-empty) value adds `{ contains: String(name) }`.
   */
  function NameFilter(name: Option<string>): (filter: Option<string>)
    ensures filter.Some? <==> name.Some? && name.value != ""
    ensures filter.Some? ==> filter.value == name.value
  {
    match name
    case Some(q) => if q != "" then Some(q) else None
    case None => None
  }

  predicate Matches(filter: Option<string>, name: string)
  {
    filter.None? || Contains(name, filter.value)
  }

  /** Skipping the filter for an empty query loses nothing: every name contains the empty string. */
  lemma EmptyQueryMatchesEverything(name: string)
    ensures Matches(NameFilter(Some("")), name) && Contains(name, "")
  {
    assert OccursAt(name, "", 0);
  }

  /** The rows the filter selects. */
  function Selected(names: map<int, string>, filter: Option<string>): (ids: set<int>)
    ensures forall id :: id in ids <==> id in names && Matches(filter, names[id])
  {
    set id | id in names && Matches(filter, names[id])
  }

  /** Ascending order on names: character by character, a prefix first. */
  predicate NameLeq(a: string, b: string)
  {
    |a| == 0 || (|b| > 0 && (a[0] < b[0] || (a[0] == b[0] && NameLeq(a[1..], b[1..]))))
  }

  lemma {:induction false} NameLeqTotal(a: string, b: string)
    ensures NameLeq(a, b) || NameLeq(b, a)
  {
    if |a| > 0 && |b| > 0 && a[0] == b[0] {
      NameLeqTotal(a[1..], b[1..]);
    }
  }

  lemma {:induction false} NameLeqTransitive(a: string, b: string, c: string)
    requires NameLeq(a, b) && NameLeq(b, c)
    ensures NameLeq(a, c)
  {
    if |a| > 0 && a[0] == b[0] && b[0] == c[0] {
      NameLeqTransitive(a[1..], b[1..], c[1..]);
    }
  }

  predicate AllNamed(order: seq<int>, names: map<int, string>)
  {
    forall i :: 0 <= i < |order| ==> order[i] in names
  }

  /** Every row comes no later than the rows after it. */
  predicate SortedByName(order: seq<int>, names: map<int, string>)
    requires AllNamed(order, names)
  {
    forall i, j :: 0 <= i < j < |order| ==> NameLeq(names[order[i]], names[order[j]])
  }

  /** Puts id before the first row whose name it does not exceed. */
  function InsertByName(order: seq<int>, id: int, names: map<int, string>): (r: seq<int>)
    requires id in names && AllNamed(order, names)
    ensures multiset(r) == multiset(order) + multiset{id}
    ensures AllNamed(r, names)
  {
    if order == [] then [id]
    else if NameLeq(names[id], names[order[0]]) then [id] + order
    else
      assert order == [order[0]] + order[1..];
      [order[0]] + InsertByName(order[1..], id, names)
  }

  lemma {:induction false} InsertKeepsSorted(order: seq<int>, id: int, names: map<int, string>)
    requires id in names && AllNamed(order, names) && SortedByName(order, names)
    ensures SortedByName(InsertByName(order, id, names), names)
  {
    var r := InsertByName(order, id, names);
    if order == [] {
    } else if NameLeq(names[id], names[order[0]]) {
      forall j | 1 <= j < |r|
        ensures NameLeq(names[r[0]], names[r[j]])
      {
        if j > 1 {
          NameLeqTransitive(names[id], names[order[0]], names[order[j - 1]]);
        }
      }
    } else {
      var rest := InsertByName(order[1..], id, names);
      InsertKeepsSorted(order[1..], id, names);
      NameLeqTotal(names[id], names[order[0]]);
      forall j | 0 <= j < |rest|
        ensures NameLeq(names[order[0]], names[rest[j]])
      {
        assert rest[j] in multiset(order[1..]) + multiset{id};
        if rest[j] != id {
          var k :| 0 <= k < |order[1..]| && order[1..][k] == rest[j];
          assert order[k + 1] == rest[j];
        }
      }
    }
  }

  /**
    The rows of `ids` ordered by name: each exactly once, ascending. Rows
    with equal names come in an order the query does not fix.
   */
  method SortByName(names: map<int, string>, ids: set<int>) returns (order: seq<int>)
    requires ids <= names.Keys
    ensures multiset(order) == multiset(ids)
    ensures AllNamed(order, names) && SortedByName(order, names)
  {
    order := [];
    var rest := ids;
    while rest != {}
      invariant rest <= ids
      invariant multiset(order) + multiset(rest) == multiset(ids)
      invariant AllNamed(order, names) && SortedByName(order, names)
      decreases |rest|
    {
      assert exists x :: x in rest by {
        if forall x :: x !in rest {
          assert false;
        }
      }
      var id :| id in rest;
      InsertKeepsSorted(order, id, names);
      order := InsertByName(order, id, names);
      assert multiset(rest) == multiset(rest - {id}) + multiset{id};
      rest := rest - {id};
    }
  }

  lemma RepeatCountsTwice(order: seq<int>, i: int, j: int)
    requires 0 <= i < j < |order|
    ensures order[i] == order[j] ==> multiset(order)[order[i]] >= 2
  {
    assert order == order[..j] + order[j..];
    assert order[..j][i] == order[i] && order[j..][0] == order[j];
    assert multiset(order) == multiset(order[..j]) + multiset(order[j..]);
  }

  /** A row is listed exactly when the filter selects it, and never twice. */
  lemma SortedListingIsTheSelection(names: map<int, string>, filter: Option<string>, order: seq<int>)
    requires multiset(order) == multiset(Selected(names, filter))
    ensures forall id :: id in order <==> id in names && Matches(filter, names[id])
    ensures forall i, j :: 0 <= i < j < |order| ==> order[i] != order[j]
    ensures |order| == |Selected(names, filter)|
  {
    var sel := Selected(names, filter);
    forall id
      ensures id in order <==> id in sel
    {
      assert id in order <==> id in multiset(order);
    }
    forall i, j | 0 <= i < j < |order|
      ensures order[i] != order[j]
    {
      RepeatCountsTwice(order, i, j);
    }
    assert |multiset(order)| == |order|;
  }
}
