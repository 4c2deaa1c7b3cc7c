/** The association-table logic shared by the user-role and role-permission services: a junction
    table is a sequence of `(owner, member)` rows, and `set` replaces an owner's members by a target
    list by applying only the delta `toAdd = target - current`, `toRemove = current - target`. */
module Reconcile {
  import opened Common

  /** One junction row: `(user_id, role_id)` or `(role_id, permission_id)`. */
  datatype Link = Link(owner: int, member: int)

  /** The delta `set` reports: `{ added, removed }`. */
  datatype Delta = Delta(added: seq<int>, removed: seq<int>)

  /** Where a storage statement of `set` fails, if anywhere: the bulk insert or the bulk delete. */
  datatype StorageFault = NoFault | FailOnInsert | FailOnDelete

  /** `true` when the storage statement the fault names actually runs in a `set` call with this delta. */
  predicate FaultStrikes(fault: StorageFault, delta: Delta)
  {
    (fault == FailOnInsert && |delta.added| > 0) || (fault == FailOnDelete && |delta.removed| > 0)
  }

  /** The composite primary key: at most one row per pair. */
  predicate UniqueRows(rows: seq<Link>)
  {
    NoDuplicates(rows)
  }

  /** The owner's member ids in table order (`current.map(r => r.member)`). */
  function MembersOf(rows: seq<Link>, owner: int): (ms: seq<int>)
    ensures forall m :: m in ms <==> Link(owner, m) in rows
  {
    if rows == [] then []
    else if rows[0].owner == owner then [rows[0].member] + MembersOf(rows[1..], owner)
    else MembersOf(rows[1..], owner)
  }

  /** The owners holding `member`, in table order. */
  function OwnersOf(rows: seq<Link>, member: int): (os: seq<int>)
    ensures forall o :: o in os <==> Link(o, member) in rows
  {
    if rows == [] then []
    else if rows[0].member == member then [rows[0].owner] + OwnersOf(rows[1..], member)
    else OwnersOf(rows[1..], member)
  }

  lemma {:induction false} MembersOfNoDuplicates(rows: seq<Link>, owner: int)
    requires UniqueRows(rows)
    ensures NoDuplicates(MembersOf(rows, owner))
  {
    if rows != [] {
      assert UniqueRows(rows[1..]) by {
        forall i, j | 0 <= i < j < |rows[1..]| ensures rows[1..][i] != rows[1..][j] {
          assert rows[1..][i] == rows[i + 1] && rows[1..][j] == rows[j + 1];
        }
      }
      MembersOfNoDuplicates(rows[1..], owner);
      var rest := MembersOf(rows[1..], owner);
      if rows[0].owner == owner {
        assert rows[0] !in rows[1..] by {
          forall k | 0 <= k < |rows[1..]| ensures rows[1..][k] != rows[0] {
            assert rows[1..][k] == rows[k + 1];
          }
        }
        assert rows[0].member !in rest;
        var ms := [rows[0].member] + rest;
        forall i, j | 0 <= i < j < |ms| ensures ms[i] != ms[j] {
          if i == 0 { assert ms[j] == rest[j - 1]; assert ms[j] in rest; }
          else { assert ms[i] == rest[i - 1] && ms[j] == rest[j - 1]; }
        }
      }
    }
  }

  /** `permissionIds.filter(id => !currentSet.has(id))` */
  function ToAdd(target: seq<int>, current: seq<int>): (toAdd: seq<int>)
    ensures forall m :: m in toAdd <==> m in target && m !in current
  {
    Filter(target, m => m !in current)
  }

  /** `[...currentSet].filter(id => !nextSet.has(id))` */
  function ToRemove(current: seq<int>, target: seq<int>): (toRemove: seq<int>)
    ensures forall m :: m in toRemove <==> m in current && m !in target
  {
    Filter(current, m => m !in target)
  }

  /** The delta that `set(owner, target)` computes against the rows it reads. */
  function DeltaFor(rows: seq<Link>, owner: int, target: seq<int>): Delta
  {
    var current := MembersOf(rows, owner);
    Delta(ToAdd(target, current), ToRemove(current, target))
  }

  /** The bulk insert of `toAdd` rows for `owner`. */
  function InsertLinks(rows: seq<Link>, owner: int, toAdd: seq<int>): (r: seq<Link>)
    ensures forall l :: l in r <==> l in rows || (l.owner == owner && l.member in toAdd)
  {
    var newRows := Map(toAdd, m => Link(owner, m));
    assert forall l :: l in newRows <==> l.owner == owner && l.member in toAdd by {
      forall l: Link | l.owner == owner && l.member in toAdd ensures l in newRows {
        var k :| 0 <= k < |toAdd| && toAdd[k] == l.member;
        assert newRows[k] == l;
      }
    }
    rows + newRows
  }

  /** The bulk delete `where owner = owner and member in toRemove`. */
  function DeleteLinks(rows: seq<Link>, owner: int, toRemove: seq<int>): (r: seq<Link>)
    ensures forall l :: l in r <==> l in rows && !(l.owner == owner && l.member in toRemove)
  {
    Filter(rows, (l: Link) => !(l.owner == owner && l.member in toRemove))
  }

  /** The rows after a `set(owner, target)` that ran to completion: insert, then delete. */
  function Reconciled(rows: seq<Link>, owner: int, target: seq<int>): seq<Link>
  {
    var d := DeltaFor(rows, owner, target);
    DeleteLinks(InsertLinks(rows, owner, d.added), owner, d.removed)
  }

  /** The found count `findAll({ where: { id: ids } }).length` equals `ids.length` exactly when
      every id exists and no id repeats. */
  lemma FoundCountMatches(ids: seq<int>, existing: set<int>)
    ensures |Elems(ids) * existing| == |ids| <==>
      NoDuplicates(ids) && forall id :: id in ids ==> id in existing
  {
    DistinctCount(ids);
    if forall id :: id in ids ==> id in existing {
      assert Elems(ids) * existing == Elems(ids);
    } else {
      var id :| id in ids && id !in existing;
      MissingShrinksFound(ids, existing, id);
    }
  }

  /** One id outside `existing` makes the found set smaller than the id set. */
  lemma MissingShrinksFound(ids: seq<int>, existing: set<int>, id: int)
    requires id in ids && id !in existing
    ensures |Elems(ids) * existing| < |Elems(ids)|
  {
    var found := Elems(ids) * existing;
    var missing := Elems(ids) - found;
    assert id in missing;
    assert Elems(ids) == found + missing && found * missing == {};
  }

  /** Nothing is both added and removed. */
  lemma DeltaDisjoint(rows: seq<Link>, owner: int, target: seq<int>)
    ensures var d := DeltaFor(rows, owner, target);
      forall m :: !(m in d.added && m in d.removed)
  {
  }

  lemma {:induction false} AppendNoDuplicates<T>(a: seq<T>, b: seq<T>)
    requires NoDuplicates(a) && NoDuplicates(b)
    requires forall x :: x in a ==> x !in b
    ensures NoDuplicates(a + b)
  {
    var c := a + b;
    forall i, j | 0 <= i < j < |c| ensures c[i] != c[j] {
      if j < |a| {
        assert c[i] == a[i] && c[j] == a[j];
      } else if i >= |a| {
        assert c[i] == b[i - |a|] && c[j] == b[j - |a|];
      } else {
        assert c[i] == a[i] && c[j] == b[j - |a|];
        assert c[i] in a;
      }
    }
  }

  /** Inserting the owner's `toAdd` rows keeps the key unique when the ids are distinct and not
      yet held. */
  lemma InsertKeepsUnique(rows: seq<Link>, owner: int, toAdd: seq<int>)
    requires UniqueRows(rows) && NoDuplicates(toAdd)
    requires forall m :: m in toAdd ==> Link(owner, m) !in rows
    ensures UniqueRows(InsertLinks(rows, owner, toAdd))
  {
    var newRows := Map(toAdd, m => Link(owner, m));
    assert NoDuplicates(newRows) by {
      forall i, j | 0 <= i < j < |newRows| ensures newRows[i] != newRows[j] {
        assert newRows[i].member == toAdd[i] && newRows[j].member == toAdd[j];
      }
    }
    assert forall l :: l in rows ==> l !in newRows;
    AppendNoDuplicates(rows, newRows);
    assert InsertLinks(rows, owner, toAdd) == rows + newRows;
  }

  /** After a completed `set(owner, target)` with distinct target ids: the owner holds exactly
      the target ids, every other owner's rows are untouched, and the key stays unique. */
  lemma ReconcileExact(rows: seq<Link>, owner: int, target: seq<int>)
    requires UniqueRows(rows) && NoDuplicates(target)
    ensures var after := Reconciled(rows, owner, target);
      && UniqueRows(after)
      && (forall m :: Link(owner, m) in after <==> m in target)
      && (forall l: Link :: l.owner != owner ==> (l in after <==> l in rows))
  {
    var d := DeltaFor(rows, owner, target);
    FilterKeepsNoDuplicates(target, m => m !in MembersOf(rows, owner));
    InsertKeepsUnique(rows, owner, d.added);
    FilterKeepsNoDuplicates(InsertLinks(rows, owner, d.added),
      (l: Link) => !(l.owner == owner && l.member in d.removed));
  }

  /** A second `set` with the same list finds nothing to add or remove and changes nothing. */
  lemma ReconcileIdempotent(rows: seq<Link>, owner: int, target: seq<int>)
    requires UniqueRows(rows) && NoDuplicates(target)
    ensures var after := Reconciled(rows, owner, target);
      && DeltaFor(after, owner, target) == Delta([], [])
      && Reconciled(after, owner, target) == after
  {
    var after := Reconciled(rows, owner, target);
    ReconcileExact(rows, owner, target);
    var current := MembersOf(after, owner);
    FilterEmpty(target, m => m !in current);
    assert forall m :: m in current ==> m in target;
    FilterEmpty(current, m => m !in target);
    assert InsertLinks(after, owner, []) == after;
    FilterIdentity(after, (l: Link) => !(l.owner == owner && l.member in []));
  }
}
