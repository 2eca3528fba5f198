/**
 Downgrade of revision 0027: several projections of one raw event cannot live under the old
 two-column identity, so a self-joining DELETE keeps the earliest of each group before the
 constraint returns.
 */
module ProjectionDedupe {
  import opened Counting

  datatype Event = Event(id: nat, organization: nat, key: string, projectedAt: int)

  predicate SameKey(a: Event, b: Event) {
    a.organization == b.organization && a.key == b.key
  }

  /** `(a.projected_at, a.id) < (b.projected_at, b.id)`, compared as rows. */
  predicate Before(a: Event, b: Event) {
    a.projectedAt < b.projectedAt || (a.projectedAt == b.projectedAt && a.id < b.id)
  }

  /** The row joins some earlier row of its group. */
  predicate Outdated(rows: seq<Event>, e: Event) {
    exists k | 0 <= k < |rows| :: SameKey(e, rows[k]) && Before(rows[k], e)
  }

  /** The rows of a table that the DELETE spares, judged against a snapshot. */
  function Spared(rows: seq<Event>, snapshot: seq<Event>): seq<Event> {
    if rows == [] then []
    else
      var n := |rows| - 1;
      var before := Spared(rows[..n], snapshot);
      if Outdated(snapshot, rows[n]) then before else before + [rows[n]]
  }

  function Deduplicated(rows: seq<Event>): seq<Event> {
    Spared(rows, rows)
  }

  predicate UniqueIds(rows: seq<Event>) {
    forall i, j | 0 <= i < j < |rows| :: rows[i].id != rows[j].id
  }

  /** `uq_domain_events_org_event`: UNIQUE (organization_id, event_key). */
  predicate UniqueKeys(rows: seq<Event>) {
    forall i, j | 0 <= i < j < |rows| :: !(rows[i].organization == rows[j].organization && rows[i].key == rows[j].key)
  }

  /** The least row of its group under (projected_at, id). */
  predicate Least(rows: seq<Event>, e: Event) {
    && e in rows
    && forall k | 0 <= k < |rows| && rows[k].organization == e.organization && rows[k].key == e.key ::
         || rows[k] == e || e.projectedAt < rows[k].projectedAt
         || (e.projectedAt == rows[k].projectedAt && e.id < rows[k].id)
  }

  lemma {:induction false} SparedExactlyWhen(rows: seq<Event>, snapshot: seq<Event>, e: Event)
    ensures e in Spared(rows, snapshot) <==> e in rows && !Outdated(snapshot, e)
  {
    if rows != [] {
      var n := |rows| - 1;
      assert rows == rows[..n] + [rows[n]];
      SparedExactlyWhen(rows[..n], snapshot, e);
    }
  }

  lemma NotOutdatedIsLeast(rows: seq<Event>, e: Event)
    requires UniqueIds(rows) && e in rows
    ensures Outdated(rows, e) <==> !Least(rows, e)
  {
    var i :| 0 <= i < |rows| && rows[i] == e;
    if !Outdated(rows, e) {
      forall k | 0 <= k < |rows| && SameKey(rows[k], e) ensures rows[k] == e || Before(e, rows[k]) {
        assert !(SameKey(e, rows[k]) && Before(rows[k], e));
        if k != i { assert rows[k].id != rows[i].id; }
      }
    }
  }

  /** The DELETE keeps exactly the least row of each group. */
  lemma KeepsExactlyTheLeast(rows: seq<Event>, e: Event)
    requires UniqueIds(rows)
    ensures e in Deduplicated(rows) <==> Least(rows, e)
  {
    SparedExactlyWhen(rows, rows, e);
    if e in rows {
      NotOutdatedIsLeast(rows, e);
    }
  }

  lemma {:induction false} SparedComesFrom(rows: seq<Event>, snapshot: seq<Event>)
    requires UniqueIds(rows)
    ensures UniqueIds(Spared(rows, snapshot))
  {
    if rows != [] {
      var n := |rows| - 1;
      SparedComesFrom(rows[..n], snapshot);
      var before := Spared(rows[..n], snapshot);
      forall i | 0 <= i < |before| ensures before[i].id != rows[n].id {
        SparedExactlyWhen(rows[..n], snapshot, before[i]);
        var k :| 0 <= k < n && rows[..n][k] == before[i];
        assert rows[k].id != rows[n].id;
      }
    }
  }

  /** So the two-column uniqueness holds and the constraint can be created. */
  lemma KeysBecomeUnique(rows: seq<Event>)
    requires UniqueIds(rows)
    ensures UniqueKeys(Deduplicated(rows))
  {
    var kept := Deduplicated(rows);
    SparedComesFrom(rows, rows);
    forall i, j | 0 <= i < j < |kept| ensures !SameKey(kept[i], kept[j]) {
      KeepsExactlyTheLeast(rows, kept[i]);
      KeepsExactlyTheLeast(rows, kept[j]);
      assert kept[i].id != kept[j].id;
    }
  }

  /** Some row of a group is least, by descent along earlier rows. */
  lemma {:induction false} GroupHasLeast(rows: seq<Event>, i: nat) returns (k: nat)
    requires i < |rows|
    ensures k < |rows| && SameKey(rows[k], rows[i]) && (k == i || Before(rows[k], rows[i])) && !Outdated(rows, rows[k])
  {
    k := LeastUpTo(rows, |rows|, i);
  }

  lemma {:induction false} LeastUpTo(rows: seq<Event>, n: nat, i: nat) returns (k: nat)
    requires i < |rows| && n <= |rows|
    ensures k < |rows| && SameKey(rows[k], rows[i]) && (k == i || Before(rows[k], rows[i]))
    ensures forall j | 0 <= j < n && SameKey(rows[j], rows[i]) :: !Before(rows[j], rows[k])
  {
    if n == 0 {
      k := i;
    } else {
      k := LeastUpTo(rows, n - 1, i);
      if SameKey(rows[n - 1], rows[i]) && Before(rows[n - 1], rows[k]) {
        k := n - 1;
      }
    }
  }

  function HasKey(e: Event): Event -> bool {
    (x: Event) => x.organization == e.organization && x.key == e.key
  }

  /** No key disappears: every group that had a row keeps exactly one. */
  lemma EachKeyKeepsOneRow(rows: seq<Event>, i: nat)
    requires UniqueIds(rows) && i < |rows|
    ensures Count(Deduplicated(rows), HasKey(rows[i])) == 1
  {
    var kept := Deduplicated(rows);
    var k := GroupHasLeast(rows, i);
    SparedExactlyWhen(rows, rows, rows[k]);
    var j :| 0 <= j < |kept| && kept[j] == rows[k];
    KeysBecomeUnique(rows);
    forall m | 0 <= m < |kept| && m != j ensures !HasKey(rows[i])(kept[m]) {
      assert if m < j then !SameKey(kept[m], kept[j]) else !SameKey(kept[j], kept[m]);
    }
    CountedOnce(kept, HasKey(rows[i]), j);
  }

  lemma {:induction false} NothingOutdated(rows: seq<Event>, snapshot: seq<Event>)
    requires forall e | e in rows :: !Outdated(snapshot, e)
    ensures Spared(rows, snapshot) == rows
  {
    if rows != [] {
      var n := |rows| - 1;
      assert rows == rows[..n] + [rows[n]];
      NothingOutdated(rows[..n], snapshot);
    }
  }

  /** A table whose keys are already unique loses nothing; so the DELETE is idempotent. */
  lemma UniqueTableIsUntouched(rows: seq<Event>)
    requires UniqueKeys(rows)
    ensures Deduplicated(rows) == rows
  {
    forall e | e in rows ensures !Outdated(rows, e) {
      var i :| 0 <= i < |rows| && rows[i] == e;
      forall k | 0 <= k < |rows| ensures !(SameKey(e, rows[k]) && Before(rows[k], e)) {
        if k != i {
          assert if k < i then !SameKey(rows[k], rows[i]) else !SameKey(rows[i], rows[k]);
        }
      }
    }
    NothingOutdated(rows, rows);
  }

  lemma DedupeIsIdempotent(rows: seq<Event>)
    requires UniqueIds(rows)
    ensures Deduplicated(Deduplicated(rows)) == Deduplicated(rows)
  {
    KeysBecomeUnique(rows);
    UniqueTableIsUntouched(Deduplicated(rows));
  }

  /**
   Which earlier row a deleted row joins does not matter, and neither does deleting one row
   at a time: as long as no spared row has gone, the remaining table condemns the same rows.
   */
  lemma SnapshotDoesNotMatter(rows: seq<Event>, left: seq<Event>, e: Event)
    requires UniqueIds(rows) && e in rows
    requires forall x | x in left :: x in rows
    requires forall x | x in Deduplicated(rows) :: x in left
    ensures Outdated(left, e) <==> Outdated(rows, e)
  {
    if Outdated(left, e) {
      var k :| 0 <= k < |left| && SameKey(e, left[k]) && Before(left[k], e);
      assert left[k] in left;
      var j :| 0 <= j < |rows| && rows[j] == left[k];
      assert SameKey(e, rows[j]) && Before(rows[j], e);
    }
    if Outdated(rows, e) {
      var i :| 0 <= i < |rows| && rows[i] == e;
      var k := GroupHasLeast(rows, i);
      SparedExactlyWhen(rows, rows, rows[k]);
      assert k != i && rows[k] in Deduplicated(rows);
      var j :| 0 <= j < |left| && left[j] == rows[k];
      assert SameKey(e, left[j]) && Before(left[j], e);
    }
  }

  /** The live table once the first `done` rows have been judged. */
  function Swept(start: seq<Event>, done: nat): seq<Event>
    requires done <= |start|
  {
    Spared(start[..done], start) + start[done..]
  }

  lemma SweptIsBetween(start: seq<Event>, done: nat)
    requires done <= |start|
    ensures forall x | x in Swept(start, done) :: x in start
    ensures forall x | x in Deduplicated(start) :: x in Swept(start, done)
  {
    assert start == start[..done] + start[done..];
    forall x | x in Swept(start, done) ensures x in start {
      SparedExactlyWhen(start[..done], start, x);
    }
    forall x | x in Deduplicated(start) ensures x in Swept(start, done) {
      SparedExactlyWhen(start[..done], start, x);
      SparedExactlyWhen(start, start, x);
    }
  }

  lemma SweepStep(start: seq<Event>, done: nat)
    requires UniqueIds(start) && done < |start|
    ensures var i, rows := |Spared(start[..done], start)|, Swept(start, done);
            && i < |rows| && rows[i] == start[done]
            && if Outdated(rows, rows[i])
               then Swept(start, done + 1) == rows[..i] + rows[i + 1..] && |Spared(start[..done + 1], start)| == i
               else Swept(start, done + 1) == rows && |Spared(start[..done + 1], start)| == i + 1
  {
    assert start[..done + 1][..done] == start[..done];
    assert start[done..] == [start[done]] + start[done + 1..];
    SweptIsBetween(start, done);
    SnapshotDoesNotMatter(start, Swept(start, done), start[done]);
    hide Outdated;
    var before := Spared(start[..done], start);
    if Outdated(start, start[done]) {
      assert Spared(start[..done + 1], start) == before;
    } else {
      assert Spared(start[..done + 1], start) == before + [start[done]];
      assert before + start[done..] == before + [start[done]] + start[done + 1..];
    }
  }

  class EventTable {
    var rows: seq<Event>

    constructor (rows: seq<Event>)
      ensures this.rows == rows
    {
      this.rows := rows;
    }

    /** Deletes row by row from the live table, judging each row by what is left. */
    method Deduplicate()
      requires UniqueIds(rows)
      modifies this
      ensures rows == Deduplicated(old(rows))
    {
      hide Outdated, UniqueIds, Spared, Swept, Deduplicated;
      ghost var start := rows;
      ghost var done: nat := 0;
      var i: nat := 0;
      SweepEnds(start);
      while i < |rows|
        invariant done <= |start| && i == |Spared(start[..done], start)|
        invariant rows == Swept(start, done)
        decreases |start| - done
      {
        SweepIsLonger(start, done);
        SweepStep(start, done);
        if Outdated(rows, rows[i]) {
          rows := rows[..i] + rows[i + 1..];
        } else {
          i := i + 1;
        }
        done := done + 1;
      }
      SweepIsLonger(start, done);
    }
  }

  lemma SweepIsLonger(start: seq<Event>, done: nat)
    requires done <= |start|
    ensures |Swept(start, done)| == |Spared(start[..done], start)| + |start| - done
  {
  }

  lemma SweepEnds(start: seq<Event>)
    ensures Swept(start, 0) == start && Spared(start[..0], start) == []
    ensures Swept(start, |start|) == Deduplicated(start)
  {
    assert start[..|start|] == start && start[|start|..] == [];
  }
}
