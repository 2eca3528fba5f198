/**
 Exclusion constraints over half-open intervals, and the capacity bound they imply.

 A table is seen as one optional booking for each row: `None` for a row outside the
 constraint's predicate. Instants are integers (PostgreSQL keeps microseconds).
 */
module Reservations {
  import opened Prelude

  datatype Booking = Booking(resource: nat, starts: int, ends: int)

  type Table = seq<Option<Booking>>

  /** `resource WITH =` and `tstzrange(starts, ends, '[)') WITH &&`; an empty range overlaps nothing. */
  predicate Conflicts(a: Booking, b: Booking) {
    && a.resource == b.resource
    && a.starts < a.ends && b.starts < b.ends
    && a.starts < b.ends && b.starts < a.ends
  }

  /** The write of row `i` is accepted: the range is well formed and conflicts with no other row. */
  predicate Admits(t: Table, i: nat, b: Option<Booking>) {
    b.None? ||
    (&& b.value.starts <= b.value.ends
     && forall j | 0 <= j < |t| && j != i && t[j].Some? :: !Conflicts(b.value, t[j].value))
  }

  ghost predicate Exclusive(t: Table) {
    && (forall i | 0 <= i < |t| && t[i].Some? :: t[i].value.starts <= t[i].value.ends)
    && (forall i, j | 0 <= i < |t| && 0 <= j < |t| && i != j && t[i].Some? && t[j].Some? ::
          !Conflicts(t[i].value, t[j].value))
  }

  /** The guard on one row is exact: it accepts the writes that keep the whole table exclusive. */
  lemma AdmittedExactlyWhenExclusive(t: Table, i: nat, b: Option<Booking>)
    requires Exclusive(t) && i <= |t|
    ensures var t' := if i < |t| then t[i := b] else t + [b];
            Admits(t, i, b) <==> Exclusive(t')
  {
    var t' := if i < |t| then t[i := b] else t + [b];
    assert t'[i] == b && forall j | 0 <= j < |t'| && j != i :: t'[j] == t[j];
    if Exclusive(t') && b.Some? {
      forall j | 0 <= j < |t| && j != i && t[j].Some? ensures !Conflicts(b.value, t[j].value) {
        assert !Conflicts(t'[i].value, t'[j].value);
      }
    }
  }

  // ------------------------------------------------------------------- capacity

  function Max(a: int, b: int): int {
    if a < b then b else a
  }

  function Min(a: int, b: int): int {
    if a < b then a else b
  }

  /** Time the row takes from the window [lo, hi) of a resource. */
  function Taken(b: Option<Booking>, resource: nat, lo: int, hi: int): nat {
    if b.Some? && b.value.resource == resource then Max(0, Min(b.value.ends, hi) - Max(b.value.starts, lo)) else 0
  }

  function Busy(t: Table, resource: nat, lo: int, hi: int): nat {
    if t == [] then 0 else Busy(t[..|t| - 1], resource, lo, hi) + Taken(t[|t| - 1], resource, lo, hi)
  }

  function Span(lo: int, hi: int): (s: set<int>)
    ensures forall x :: x in s <==> lo <= x < hi
    ensures |s| == Max(0, hi - lo)
    decreases hi - lo
  {
    if hi <= lo then {} else Span(lo, hi - 1) + {hi - 1}
  }

  function InstantsOf(b: Option<Booking>, resource: nat, lo: int, hi: int): set<int> {
    if b.Some? && b.value.resource == resource then Span(Max(b.value.starts, lo), Min(b.value.ends, hi)) else {}
  }

  function Instants(t: Table, resource: nat, lo: int, hi: int): set<int> {
    if t == [] then {} else Instants(t[..|t| - 1], resource, lo, hi) + InstantsOf(t[|t| - 1], resource, lo, hi)
  }

  lemma {:induction false} InstantHasRow(t: Table, resource: nat, lo: int, hi: int, x: int)
    requires x in Instants(t, resource, lo, hi)
    ensures lo <= x < hi
    ensures exists i | 0 <= i < |t| ::
              t[i].Some? && t[i].value.resource == resource && t[i].value.starts <= x < t[i].value.ends
  {
    var rest, b := t[..|t| - 1], t[|t| - 1];
    if x in Instants(rest, resource, lo, hi) {
      InstantHasRow(rest, resource, lo, hi, x);
      var i :| 0 <= i < |rest| && rest[i].Some? && rest[i].value.resource == resource
               && rest[i].value.starts <= x < rest[i].value.ends;
      assert t[i] == rest[i];
    } else {
      assert b.Some? && b.value.starts <= x < b.value.ends;
    }
  }

  /** Disjoint bookings never count an instant twice. */
  lemma {:induction false} BusyCountsInstants(t: Table, resource: nat, lo: int, hi: int)
    requires Exclusive(t)
    ensures |Instants(t, resource, lo, hi)| == Busy(t, resource, lo, hi)
  {
    if t != [] {
      var rest, b := t[..|t| - 1], t[|t| - 1];
      assert forall i | 0 <= i < |rest| :: rest[i] == t[i];
      BusyCountsInstants(rest, resource, lo, hi);
      var before, mine := Instants(rest, resource, lo, hi), InstantsOf(b, resource, lo, hi);
      forall x | x in before ensures x !in mine {
        InstantHasRow(rest, resource, lo, hi, x);
        var i :| 0 <= i < |rest| && rest[i].Some? && rest[i].value.resource == resource
                 && rest[i].value.starts <= x < rest[i].value.ends;
        assert b.Some? ==> !Conflicts(t[i].value, t[|t| - 1].value);
      }
      assert before * mine == {};
    }
  }

  /** The live time of a resource inside any window is at most the window's length. */
  lemma BusyFitsWindow(t: Table, resource: nat, lo: int, hi: int)
    requires Exclusive(t) && lo <= hi
    ensures Busy(t, resource, lo, hi) <= hi - lo
  {
    BusyCountsInstants(t, resource, lo, hi);
    forall x | x in Instants(t, resource, lo, hi) ensures x in Span(lo, hi) {
      InstantHasRow(t, resource, lo, hi, x);
    }
    var free := Span(lo, hi) - Instants(t, resource, lo, hi);
    assert Span(lo, hi) == Instants(t, resource, lo, hi) + free;
  }

  /** Rows of the resource that lie wholly inside the window and last exactly `length`. */
  function WholeVisits(t: Table, resource: nat, lo: int, hi: int, length: int): nat {
    if t == [] then 0
    else
      var b := t[|t| - 1];
      WholeVisits(t[..|t| - 1], resource, lo, hi, length)
      + if && b.Some? && b.value.resource == resource
           && lo <= b.value.starts && b.value.ends <= hi && b.value.ends - b.value.starts == length
        then 1 else 0
  }

  lemma {:induction false} VisitsAreBusy(t: Table, resource: nat, lo: int, hi: int, length: nat)
    ensures WholeVisits(t, resource, lo, hi, length) * length <= Busy(t, resource, lo, hi)
  {
    if t != [] {
      VisitsAreBusy(t[..|t| - 1], resource, lo, hi, length);
      var n := WholeVisits(t[..|t| - 1], resource, lo, hi, length);
      assert (n + 1) * length == n * length + length;
    }
  }

  /** At most floor(window / length) whole visits of a fixed length fit. */
  lemma CapacityBound(t: Table, resource: nat, lo: int, hi: int, length: int)
    requires Exclusive(t) && lo <= hi && length > 0
    ensures WholeVisits(t, resource, lo, hi, length) <= (hi - lo) / length
  {
    VisitsAreBusy(t, resource, lo, hi, length);
    BusyFitsWindow(t, resource, lo, hi);
    QuotientBound(WholeVisits(t, resource, lo, hi, length), length, hi - lo);
  }

  lemma QuotientBound(n: int, d: int, m: int)
    requires d > 0 && n * d <= m
    ensures n <= m / d
  {
    BelowNextMultiple(m, d);
    FactorOrder(n, m / d + 1, d);
  }

  lemma BelowNextMultiple(m: int, d: int)
    requires d > 0
    ensures m < (m / d + 1) * d
  {
    assert (m / d + 1) * d == (m / d) * d + d;
  }

  lemma FactorOrder(a: int, b: int, d: int)
    requires d > 0 && a * d < b * d
    ensures a < b
  {
    if b <= a {
      ProductOrder(b, a, d);
    }
  }

  lemma ProductOrder(a: int, b: int, d: int)
    requires d > 0 && a <= b
    ensures a * d <= b * d
  {
    assert b * d == a * d + (b - a) * d;
  }
}
