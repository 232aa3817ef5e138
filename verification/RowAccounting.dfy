/** Which rows belong to whom, and how each table operation changes that. */
module RowAccounting {
  import opened Wrappers
  import opened Reservations

  /** The rows of one owner, in table order; the owner `None` has the fixed reserves. */
  function RowsOf(rows: seq<Row>, owner: Option<nat>): seq<Row> {
    if rows == [] then []
    else if rows[0].path == owner then [rows[0]] + RowsOf(rows[1..], owner)
    else RowsOf(rows[1..], owner)
  }

  lemma {:induction false} RowsOfMembers(rows: seq<Row>, owner: Option<nat>, r: Row)
    ensures r in RowsOf(rows, owner) <==> r in rows && r.path == owner
  {
    if rows != [] {
      RowsOfMembers(rows[1..], owner, r);
      assert rows == [rows[0]] + rows[1..];
    }
  }

  /** Two rows of one owner stand in the table in the order in which they stand in the owner's own list. */
  lemma {:induction false} RowsOfKeepOrder(rows: seq<Row>, owner: Option<nat>, i: nat, j: nat) returns (a: nat, b: nat)
    requires i < j < |rows| && rows[i].path == rows[j].path == owner
    ensures a < b < |RowsOf(rows, owner)| && RowsOf(rows, owner)[a] == rows[i] && RowsOf(rows, owner)[b] == rows[j]
  {
    var rest := RowsOf(rows[1..], owner);
    if i > 0 {
      a, b := RowsOfKeepOrder(rows[1..], owner, i - 1, j - 1);
      if rows[0].path == owner {
        assert RowsOf(rows, owner) == [rows[0]] + rest;
        a, b := a + 1, b + 1;
      }
    } else {
      assert RowsOf(rows, owner) == [rows[0]] + rest;
      assert rows[j] == rows[1..][j - 1];
      RowsOfMembers(rows[1..], owner, rows[j]);
      var k :| 0 <= k < |rest| && rest[k] == rows[j];
      a, b := 0, k + 1;
    }
  }

  lemma RowsOfCons(r: Row, rest: seq<Row>, owner: Option<nat>)
    ensures RowsOf([r] + rest, owner) == if r.path == owner then [r] + RowsOf(rest, owner) else RowsOf(rest, owner)
  {
    assert ([r] + rest)[1..] == rest;
  }

  lemma {:induction false} RowsOfAppend(a: seq<Row>, b: seq<Row>, owner: Option<nat>)
    ensures RowsOf(a + b, owner) == RowsOf(a, owner) + RowsOf(b, owner)
  {
    if a == [] {
      assert a + b == b;
    } else {
      RowsOfAppend(a[1..], b, owner);
      RowsOfCons(a[0], a[1..], owner);
      RowsOfCons(a[0], a[1..] + b, owner);
      assert a == [a[0]] + a[1..] && a + b == [a[0]] + (a[1..] + b);
      assert [a[0]] + (RowsOf(a[1..], owner) + RowsOf(b, owner)) == ([a[0]] + RowsOf(a[1..], owner)) + RowsOf(b, owner);
    }
  }

  lemma {:induction false} RowsOfAll(rows: seq<Row>, owner: Option<nat>)
    requires forall r :: r in rows ==> r.path == owner
    ensures RowsOf(rows, owner) == rows
    ensures forall other :: other != owner ==> RowsOf(rows, other) == []
  {
    if rows != [] {
      assert rows == [rows[0]] + rows[1..];
      RowsOfAll(rows[1..], owner);
      assert rows[0].path == owner;
    }
  }

  lemma {:induction false} BookedRowsBelong(occupancies: seq<Occupancy>, b: Booking)
    ensures forall r :: r in RowsForAll(occupancies, b) ==> r.path == Some(b.path)
  {
    if occupancies != [] {
      BookedRowsBelong(occupancies[1..], b);
      RowsForResourcesAt(occupancies[0], occupancies[0].resources, b);
    }
  }

  /** Reserving adds the booked rows to one owner and leaves every other owner alone. */
  lemma ReservingAddsToOneOwner(rows: seq<Row>, occupancies: seq<Occupancy>, b: Booking, owner: Option<nat>)
    ensures RowsOf(rows + RowsForAll(occupancies, b), owner) ==
            RowsOf(rows, owner) + (if owner == Some(b.path) then RowsForAll(occupancies, b) else [])
  {
    BookedRowsBelong(occupancies, b);
    RowsOfAll(RowsForAll(occupancies, b), Some(b.path));
    RowsOfAppend(rows, RowsForAll(occupancies, b), owner);
  }

  /** Releasing empties one owner and leaves every other owner alone. */
  lemma {:induction false} ReleasingEmptiesOneOwner(rows: seq<Row>, path: nat, owner: Option<nat>)
    ensures RowsOf(Released(rows, path), owner) == if owner == Some(path) then [] else RowsOf(rows, owner)
  {
    if rows != [] {
      ReleasingEmptiesOneOwner(rows[1..], path, owner);
      if !Belongs(rows[0], path) {
        RowsOfCons(rows[0], Released(rows[1..], path), owner);
      }
    }
  }

  /** Moving the rows of one owner leaves every other owner alone. */
  lemma {:induction false} RestatusMovesOneOwner(rows: seq<Row>, path: nat, status: Status, reserves: bool, owner: Option<nat>)
    ensures RowsOf(Restatused(rows, path, status, reserves), owner) ==
            if owner == Some(path) then Restatused(RowsOf(rows, owner), path, status, reserves) else RowsOf(rows, owner)
  {
    if rows != [] {
      RestatusMovesOneOwner(rows[1..], path, status, reserves, owner);
      var head := Moved(rows[0], path, status, reserves);
      var tail := Restatused(rows[1..], path, status, reserves);
      RowsOfCons(head, tail, owner);
      assert head.path == rows[0].path;
      var own := RowsOf(rows[1..], owner);
      assert ([rows[0]] + own)[1..] == own;
    }
  }

  /** Rows moved to a new status are the rows that would be booked in that status. */
  lemma {:induction false} MovedRowsAreRebookedRows(occupancies: seq<Occupancy>, b: Booking, status: Status, reserves: bool)
    ensures Restatused(RowsForAll(occupancies, b), b.path, status, reserves) ==
            RowsForAll(occupancies, b.(status := status, reserves := reserves))
  {
    if occupancies != [] {
      var o := occupancies[0];
      MovedRowsAreRebookedRows(occupancies[1..], b, status, reserves);
      MovedLegIsRebookedLeg(o, o.resources, b, status, reserves);
      RestatusedAppend(RowsForResources(o, o.resources, b), RowsForAll(occupancies[1..], b), b.path, status, reserves);
    }
  }

  lemma {:induction false} MovedLegIsRebookedLeg(o: Occupancy, resources: seq<nat>, b: Booking, status: Status, reserves: bool)
    ensures Restatused(RowsForResources(o, resources, b), b.path, status, reserves) ==
            RowsForResources(o, resources, b.(status := status, reserves := reserves))
  {
    if resources != [] {
      MovedLegIsRebookedLeg(o, resources[1..], b, status, reserves);
    }
  }

  lemma RestatusedAppend(x: seq<Row>, y: seq<Row>, path: nat, status: Status, reserves: bool)
    ensures Restatused(x + y, path, status, reserves) ==
            Restatused(x, path, status, reserves) + Restatused(y, path, status, reserves)
  {
    RestatusedAt(x, path, status, reserves);
    RestatusedAt(y, path, status, reserves);
    RestatusedAt(x + y, path, status, reserves);
  }

  lemma {:induction false} ReleasedMembers(rows: seq<Row>, path: nat, r: Row)
    ensures r in Released(rows, path) <==> r in rows && !Belongs(r, path)
  {
    if rows != [] {
      ReleasedMembers(rows[1..], path, r);
      assert rows == [rows[0]] + rows[1..];
    }
  }

  /** Dropping rows cannot break the promise. */
  lemma {:induction false} ReleaseKeepsExclusive(rows: seq<Row>, path: nat)
    requires Exclusive(rows)
    ensures Exclusive(Released(rows, path))
  {
    if rows != [] {
      var rest := Released(rows[1..], path);
      ReleaseKeepsExclusive(rows[1..], path);
      forall k | 0 <= k < |rest|
        ensures !Conflict(rows[0], rest[k])
      {
        ReleasedMembers(rows[1..], path, rest[k]);
        var n :| 0 <= n < |rows[1..]| && rows[1..][n] == rest[k];
        assert !Conflict(rows[0], rows[n + 1]);
      }
    }
  }
}
