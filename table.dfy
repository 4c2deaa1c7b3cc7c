/** What the entity services share about their tables: rows keyed by an auto-incremented id,
    listed newest first (`order: [['id', 'DESC']]`). */
module Table {
  /** Each element is larger than every later one. */
  predicate StrictlyDescending(s: seq<nat>)
  {
    forall i, j :: 0 <= i < j < |s| ==> s[i] > s[j]
  }

  /** A largest element of a non-empty set, found by taking elements out one at a time. */
  ghost function LargestOf(s: set<nat>): (m: nat)
    requires s != {}
    ensures m in s && forall x :: x in s ==> x <= m
    decreases s
  {
    var y :| y in s;
    if s == {y} then y
    else
      var m := LargestOf(s - {y});
      assert forall x :: x in s ==> x == y || x in s - {y};
      if y > m then y else m
  }

  /** The largest id of a non-empty table. */
  function MaxId(s: set<nat>): (m: nat)
    requires s != {}
    ensures m in s && forall x :: x in s ==> x <= m
  {
    assert LargestOf(s) in s;
    var m :| m in s && forall x :: x in s ==> x <= m;
    m
  }

  /** The ids of `s`, largest first. */
  function IdsDescending(s: set<nat>): (r: seq<nat>)
    ensures forall x :: x in r <==> x in s
    ensures |r| == |s|
    ensures StrictlyDescending(r)
    decreases s
  {
    if s == {} then []
    else
      var m := MaxId(s);
      var rest := IdsDescending(s - {m});
      assert forall i :: 0 <= i < |rest| ==> rest[i] < m by {
        forall i | 0 <= i < |rest| ensures rest[i] < m {
          assert rest[i] in s - {m};
        }
      }
      DescendingCons(m, rest);
      [m] + rest
  }

  lemma DescendingCons(m: nat, rest: seq<nat>)
    requires StrictlyDescending(rest)
    requires forall i :: 0 <= i < |rest| ==> rest[i] < m
    ensures StrictlyDescending([m] + rest)
  {
    var r := [m] + rest;
    forall i, j | 0 <= i < j < |r| ensures r[i] > r[j] {
      assert r[j] == rest[j - 1];
      if i > 0 {
        assert r[i] == rest[i - 1];
      }
    }
  }

  /** The rows of a table whose rows carry their own id (`key`), largest id first: what a
      query ordered by `id DESC` returns. */
  function RowsDescending<R>(table: map<nat, R>, key: R -> nat): (r: seq<R>)
    requires forall id :: id in table ==> key(table[id]) == id
    ensures |r| == |table|
    ensures forall k :: 0 <= k < |r| ==> key(r[k]) in table && table[key(r[k])] == r[k]
    ensures forall i, j :: 0 <= i < j < |r| ==> key(r[i]) > key(r[j])
    ensures forall id :: id in table ==> exists k :: 0 <= k < |r| && key(r[k]) == id
  {
    var ids := IdsDescending(table.Keys);
    var r := RowsAt(table, ids);
    RowsFollowIds(table, key, ids, r);
    r
  }

  /** The rows stored under `ids`, in the order of `ids`. */
  function RowsAt<R>(table: map<nat, R>, ids: seq<nat>): (r: seq<R>)
    requires forall x :: x in ids ==> x in table
    ensures |r| == |ids| && forall k :: 0 <= k < |ids| ==> r[k] == table[ids[k]]
  {
    if ids == [] then [] else [table[ids[0]]] + RowsAt(table, ids[1..])
  }

  lemma RowsFollowIds<R>(table: map<nat, R>, key: R -> nat, ids: seq<nat>, r: seq<R>)
    requires forall id :: id in table ==> key(table[id]) == id
    requires forall x :: x in ids <==> x in table
    requires StrictlyDescending(ids)
    requires |ids| == |table.Keys|
    requires |r| == |ids| && forall k :: 0 <= k < |ids| ==> r[k] == table[ids[k]]
    ensures |r| == |table|
    ensures forall k :: 0 <= k < |r| ==> key(r[k]) in table && table[key(r[k])] == r[k]
    ensures forall i, j :: 0 <= i < j < |r| ==> key(r[i]) > key(r[j])
    ensures forall id :: id in table ==> exists k :: 0 <= k < |r| && key(r[k]) == id
  {
    forall k | 0 <= k < |r| ensures key(r[k]) == ids[k] && ids[k] in table {
      assert ids[k] in ids;
    }
    assert |table.Keys| == |table|;
    forall id | id in table ensures exists k :: 0 <= k < |r| && key(r[k]) == id {
      var k :| 0 <= k < |ids| && ids[k] == id;
      assert key(r[k]) == id;
    }
  }
}
