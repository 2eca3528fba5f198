/**
 The appointment and absence tables of revisions 0018 and 0019.

 Rows are numbered in creation order. An appointment names its predecessor once, at
 creation, among the rows that already exist, and never changes it; every other column
 may change later. Two arbiters guard each write: the calendar exclusion, and the
 partial unique index that allows one unrejected successor for each original.
 */
module Appointments {
  import opened Counting
  import opened Prelude
  import opened Reservations

  datatype Status = Pending | Confirmed | Rejected | NeedsReview | Cancelled | Rescheduled

  datatype Appointment = Appointment(
    calendar: Option<nat>, starts: int, ends: int, status: Status, eventId: Option<string>,
    rescheduledFrom: Option<nat>)

  datatype Refusal = InvertedRange | CalendarOverlap | ActiveReschedule | UnknownPredecessor | UnknownRow

  /** The predicate of `ex_appointments_calendar_overlap`. */
  predicate OccupiesCalendar(a: Appointment) {
    && a.calendar.Some?
    && (a.status in {Pending, Confirmed, NeedsReview} || (a.status == Rescheduled && a.eventId.Some?))
  }

  function SlotOf(a: Appointment): Option<Booking> {
    if OccupiesCalendar(a) then Some(Booking(a.calendar.value, a.starts, a.ends)) else None
  }

  function Slots(rows: seq<Appointment>): Table {
    seq(|rows|, i requires 0 <= i < |rows| => SlotOf(rows[i]))
  }

  /** Row `j` is an unrejected successor of `i`: an entry of `uq_appointments_active_reschedule`. */
  predicate Succeeds(rows: seq<Appointment>, i: nat, j: nat)
    requires j < |rows|
  {
    rows[j].rescheduledFrom == Some(i) && rows[j].status != Rejected
  }

  predicate SuccessorFree(rows: seq<Appointment>, i: nat, a: Appointment) {
    a.rescheduledFrom.Some? && a.status != Rejected ==>
      forall j | 0 <= j < |rows| && j != i :: !Succeeds(rows, a.rescheduledFrom.value, j)
  }

  /** A range the exclusion index cannot hold: PostgreSQL refuses it before any comparison. */
  predicate IsInverted(slot: Option<Booking>) {
    slot.Some? && slot.value.ends < slot.value.starts
  }

  /** Both arbiters on the write of row `i`. */
  function Arbitrate(rows: seq<Appointment>, i: nat, a: Appointment): Option<Refusal> {
    if IsInverted(SlotOf(a)) then Some(InvertedRange)
    else if !Admits(Slots(rows), i, SlotOf(a)) then Some(CalendarOverlap)
    else if !SuccessorFree(rows, i, a) then Some(ActiveReschedule)
    else None
  }

  function Insert(rows: seq<Appointment>, a: Appointment): Result<seq<Appointment>, Refusal> {
    if a.rescheduledFrom.Some? && a.rescheduledFrom.value >= |rows| then Err(UnknownPredecessor)
    else
      match Arbitrate(rows, |rows|, a)
      case Some(refusal) => Err(refusal)
      case None => Ok(rows + [a])
  }

  /** An UPDATE of any columns but the predecessor. */
  function Change(rows: seq<Appointment>, i: nat, a: Appointment): Result<seq<Appointment>, Refusal> {
    if i >= |rows| then Err(UnknownRow)
    else
      var row := a.(rescheduledFrom := rows[i].rescheduledFrom);
      match Arbitrate(rows, i, row)
      case Some(refusal) => Err(refusal)
      case None => Ok(rows[i := row])
  }

  datatype Write = Create(row: Appointment) | Amend(index: nat, row: Appointment)

  function Attempt(rows: seq<Appointment>, w: Write): Result<seq<Appointment>, Refusal> {
    match w
    case Create(a) => Insert(rows, a)
    case Amend(i, a) => Change(rows, i, a)
  }

  function Run(writes: seq<Write>): seq<Appointment> {
    if writes == [] then []
    else
      var rows := Run(writes[..|writes| - 1]);
      match Attempt(rows, writes[|writes| - 1])
      case Err(_) => rows
      case Ok(rows') => rows'
  }

  /** Writes take effect one after the other; a refused one changes nothing. */
  lemma RunWritesInTurn(writes: seq<Write>, a: Appointment, i: nat)
    ensures Run([]) == []
    ensures var created := Insert(Run(writes), a);
            Run(writes + [Create(a)]) == if created.Ok? then created.value else Run(writes)
    ensures var amended := Change(Run(writes), i, a);
            Run(writes + [Amend(i, a)]) == if amended.Ok? then amended.value else Run(writes)
  {
    assert (writes + [Create(a)])[..|writes|] == writes && (writes + [Amend(i, a)])[..|writes|] == writes;
    hide Insert, Change;
  }

  // ------------------------------------------------------------------ invariants

  ghost predicate UniqueSuccessors(rows: seq<Appointment>) {
    forall i: nat, j: nat, k: nat | j < |rows| && k < |rows| :: Succeeds(rows, i, j) && Succeeds(rows, i, k) ==> j == k
  }

  predicate PredecessorsAreEarlier(rows: seq<Appointment>) {
    forall j | 0 <= j < |rows| :: rows[j].rescheduledFrom.Some? ==> rows[j].rescheduledFrom.value < j
  }

  ghost predicate Sound(rows: seq<Appointment>) {
    Exclusive(Slots(rows)) && UniqueSuccessors(rows) && PredecessorsAreEarlier(rows)
  }

  lemma WriteKeepsSound(rows: seq<Appointment>, i: nat, a: Appointment)
    requires Sound(rows) && i <= |rows| && Arbitrate(rows, i, a).None?
    requires a.rescheduledFrom.Some? ==> a.rescheduledFrom.value < i
    ensures Sound(if i < |rows| then rows[i := a] else rows + [a])
  {
    var rows' := if i < |rows| then rows[i := a] else rows + [a];
    var slots := Slots(rows);
    AdmittedExactlyWhenExclusive(slots, i, SlotOf(a));
    assert Slots(rows') == if i < |rows| then slots[i := SlotOf(a)] else slots + [SlotOf(a)];
    assert rows'[i] == a && forall j | 0 <= j < |rows'| && j != i :: rows'[j] == rows[j];
    assert forall p: nat, j: nat | j < |rows'| && j != i :: Succeeds(rows', p, j) <==> Succeeds(rows, p, j);
    assert forall p: nat | Succeeds(rows', p, i) :: forall j: nat | j < |rows| && j != i :: !Succeeds(rows, p, j);
  }

  /** In every reachable state: disjoint live slots, one unrejected successor, earlier predecessors. */
  lemma {:induction false} RunIsSound(writes: seq<Write>)
    ensures Sound(Run(writes))
  {
    if writes != [] {
      var rows, w := Run(writes[..|writes| - 1]), writes[|writes| - 1];
      RunIsSound(writes[..|writes| - 1]);
      match w
      case Create(a) => if Insert(rows, a).Ok? { WriteKeepsSound(rows, |rows|, a); }
      case Amend(i, a) =>
        if Change(rows, i, a).Ok? {
          WriteKeepsSound(rows, i, a.(rescheduledFrom := rows[i].rescheduledFrom));
        }
    }
  }

  // ------------------------------------------------------------- on the columns

  /** Neither rejected nor cancelled, nor superseded and off the calendar. */
  predicate Stands(a: Appointment) {
    a.status != Rejected && a.status != Cancelled && (a.status == Rescheduled ==> a.eventId != None)
  }

  predicate HoldsAt(a: Appointment, x: int) {
    Stands(a) && a.starts <= x < a.ends
  }

  /** Two different visits of one calendar hold an instant in common. */
  ghost predicate Clash(a: Appointment, b: Appointment) {
    a.calendar != None && a.calendar == b.calendar && exists x :: HoldsAt(a, x) && HoldsAt(b, x)
  }

  lemma ClashIsConflict(a: Appointment, b: Appointment)
    ensures Clash(a, b) <==> SlotOf(a).Some? && SlotOf(b).Some? && Conflicts(SlotOf(a).value, SlotOf(b).value)
  {
    if SlotOf(a).Some? && SlotOf(b).Some? && Conflicts(SlotOf(a).value, SlotOf(b).value) {
      var x := Max(a.starts, b.starts);
      assert HoldsAt(a, x) && HoldsAt(b, x);
    }
  }

  /**
   No double booking, in any reachable state: two different appointments of one calendar, each
   Pending, Confirmed, under review, or Rescheduled with its event still there, share no instant.
   */
  lemma VisitsShareNoInstant(writes: seq<Write>, i: nat, j: nat, x: int)
    requires i < |Run(writes)| && j < |Run(writes)| && i != j
    requires var a, b := Run(writes)[i], Run(writes)[j];
             && a.calendar != None && a.calendar == b.calendar
             && a.starts <= x < a.ends && b.starts <= x < b.ends
             && (a.status in {Pending, Confirmed, NeedsReview} || (a.status == Rescheduled && a.eventId != None))
    ensures var b := Run(writes)[j];
            b.status in {Rejected, Cancelled} || (b.status == Rescheduled && b.eventId == None)
  {
    RunIsSound(writes);
    var rows := Run(writes);
    assert Slots(rows)[i] == SlotOf(rows[i]) && Slots(rows)[j] == SlotOf(rows[j]);
    ClashIsConflict(rows[i], rows[j]);
    assert HoldsAt(rows[i], x);
    assert !Clash(rows[i], rows[j]);
  }

  /** Another row is an unrejected attempt to replace the appointment that `a` means to replace. */
  predicate IsTaken(rows: seq<Appointment>, i: nat, a: Appointment) {
    && a.rescheduledFrom != None && a.status != Rejected
    && exists j | 0 <= j < |rows| && j != i ::
         rows[j].rescheduledFrom == a.rescheduledFrom && rows[j].status != Rejected
  }

  /** The range ends before it starts, on a row that occupies a calendar. */
  predicate EndsFirst(a: Appointment) {
    a.calendar != None && a.ends < a.starts && Stands(a)
  }

  ghost predicate IsDoubleBooked(rows: seq<Appointment>, i: nat, a: Appointment) {
    exists j | 0 <= j < |rows| && j != i :: Clash(a, rows[j])
  }

  lemma ArbitersOnColumns(rows: seq<Appointment>, i: nat, a: Appointment)
    requires i <= |rows|
    ensures Arbitrate(rows, i, a) ==
            if EndsFirst(a) then Some(InvertedRange)
            else if IsDoubleBooked(rows, i, a) then Some(CalendarOverlap)
            else if IsTaken(rows, i, a) then Some(ActiveReschedule)
            else None
  {
    if !IsInverted(SlotOf(a)) {
      AdmittedUnlessDoubleBooked(rows, i, a);
    }
    FreeUnlessTaken(rows, i, a);
    hide Admits, IsDoubleBooked, Slots, SuccessorFree, IsTaken;
  }

  lemma FreeUnlessTaken(rows: seq<Appointment>, i: nat, a: Appointment)
    ensures SuccessorFree(rows, i, a) <==> !IsTaken(rows, i, a)
  {
    if a.rescheduledFrom.Some? {
      assert forall j | 0 <= j < |rows| ::
          Succeeds(rows, a.rescheduledFrom.value, j)
          <==> rows[j].rescheduledFrom == a.rescheduledFrom && rows[j].status != Rejected;
    }
  }

  lemma AdmittedUnlessDoubleBooked(rows: seq<Appointment>, i: nat, a: Appointment)
    requires !IsInverted(SlotOf(a))
    ensures Admits(Slots(rows), i, SlotOf(a)) <==> !IsDoubleBooked(rows, i, a)
  {
    var slots := Slots(rows);
    forall j | 0 <= j < |rows|
      ensures Clash(a, rows[j]) <==>
              SlotOf(a).Some? && slots[j].Some? && Conflicts(SlotOf(a).value, slots[j].value)
    {
      ClashIsConflict(a, rows[j]);
    }
    hide Conflicts, Clash, Slots, SlotOf;
  }

  /**
   When an insert is refused, and why, for every table: an unknown predecessor, a range the
   index cannot hold, a visit of its calendar that holds one of its instants, or a predecessor
   that another unrejected attempt already replaces. Visits that only touch are admitted.
   */
  lemma InsertRefusedExactlyWhen(rows: seq<Appointment>, a: Appointment)
    ensures Insert(rows, a) ==
            if a.rescheduledFrom != None && a.rescheduledFrom.value >= |rows| then Err(UnknownPredecessor)
            else if EndsFirst(a) then Err(InvertedRange)
            else if IsDoubleBooked(rows, |rows|, a) then Err(CalendarOverlap)
            else if IsTaken(rows, |rows|, a) then Err(ActiveReschedule)
            else Ok(rows + [a])
  {
    ArbitersOnColumns(rows, |rows|, a);
    hide Arbitrate, EndsFirst, IsDoubleBooked, IsTaken;
  }

  /** The same of an update, against the other rows; it never changes the predecessor. */
  lemma ChangeRefusedExactlyWhen(rows: seq<Appointment>, i: nat, a: Appointment)
    requires i < |rows| && a.rescheduledFrom == rows[i].rescheduledFrom
    ensures Change(rows, i, a) ==
            if EndsFirst(a) then Err(InvertedRange)
            else if IsDoubleBooked(rows, i, a) then Err(CalendarOverlap)
            else if IsTaken(rows, i, a) then Err(ActiveReschedule)
            else Ok(rows[i := a])
    ensures forall p :: Change(rows, i, a.(rescheduledFrom := p)) == Change(rows, i, a)
  {
    ArbitersOnColumns(rows, i, a);
    assert a.(rescheduledFrom := rows[i].rescheduledFrom) == a;
    hide Arbitrate, EndsFirst, IsDoubleBooked, IsTaken;
  }

  /** A standing visit of the calendar that lies wholly in the window and lasts exactly `length`. */
  function IsWholeVisit(calendar: nat, lo: int, hi: int, length: int): Appointment -> bool {
    (a: Appointment) =>
      && Stands(a) && a.calendar == Some(calendar)
      && lo <= a.starts && a.ends <= hi && a.ends == a.starts + length
  }

  lemma {:induction false} CountedVisits(rows: seq<Appointment>, calendar: nat, lo: int, hi: int, length: int)
    ensures Count(rows, IsWholeVisit(calendar, lo, hi, length)) == WholeVisits(Slots(rows), calendar, lo, hi, length)
  {
    if rows != [] {
      var n := |rows| - 1;
      CountedVisits(rows[..n], calendar, lo, hi, length);
      assert Slots(rows)[..n] == Slots(rows[..n]) && Slots(rows)[n] == SlotOf(rows[n]);
    }
  }

  /** Capacity of a calendar in every reachable state: standing visits of one length that fit any window. */
  lemma CalendarCapacity(writes: seq<Write>, calendar: nat, lo: int, hi: int, length: int)
    requires lo <= hi && length > 0
    ensures Count(Run(writes), IsWholeVisit(calendar, lo, hi, length)) <= (hi - lo) / length
    ensures Busy(Slots(Run(writes)), calendar, lo, hi) <= hi - lo
  {
    RunIsSound(writes);
    CountedVisits(Run(writes), calendar, lo, hi, length);
    BusyFitsWindow(Slots(Run(writes)), calendar, lo, hi);
    CapacityBound(Slots(Run(writes)), calendar, lo, hi, length);
  }

  // ------------------------------------------------------------ reschedule chains

  ghost function Successor(rows: seq<Appointment>, i: nat): (r: Option<nat>)
    ensures r.None? ==> forall j: nat | j < |rows| :: !Succeeds(rows, i, j)
    ensures r.Some? ==> r.value < |rows| && Succeeds(rows, i, r.value)
  {
    if j: nat :| j < |rows| && Succeeds(rows, i, j) then Some(j) else None
  }

  /** Following unrejected successors from `i`; it ends because they were created later. */
  ghost function Chain(rows: seq<Appointment>, i: nat): seq<nat>
    requires PredecessorsAreEarlier(rows) && i < |rows|
    decreases |rows| - i
  {
    match Successor(rows, i)
    case None => [i]
    case Some(j) => [i] + Chain(rows, j)
  }

  /** The appointment in force for the visit that began as `i`. */
  ghost function Current(rows: seq<Appointment>, i: nat): nat
    requires PredecessorsAreEarlier(rows) && i < |rows|
  {
    Chain(rows, i)[|Chain(rows, i)| - 1]
  }

  /** Going back from `j` through unrejected rows reaches `i`: defined without successors. */
  predicate Descends(rows: seq<Appointment>, i: nat, j: nat)
    requires PredecessorsAreEarlier(rows) && j < |rows|
    decreases j
  {
    j == i ||
    (rows[j].status != Rejected && rows[j].rescheduledFrom.Some?
     && Descends(rows, i, rows[j].rescheduledFrom.value))
  }

  lemma {:induction false} ChainLinks(rows: seq<Appointment>, i: nat)
    requires PredecessorsAreEarlier(rows) && i < |rows|
    ensures var c := Chain(rows, i);
            && c != [] && c[0] == i && |c| <= |rows| - i
            && (forall n | 0 <= n < |c| :: i <= c[n] < |rows|)
            && (forall n | 0 < n < |c| :: Succeeds(rows, c[n - 1], c[n]))
            && Successor(rows, c[|c| - 1]).None?
    decreases |rows| - i
  {
    if Successor(rows, i).Some? {
      var j := Successor(rows, i).value;
      ChainLinks(rows, j);
      var c, tail := Chain(rows, i), Chain(rows, j);
      assert forall n | 0 < n < |c| :: c[n] == tail[n - 1];
      forall n | 0 < n < |c| ensures Succeeds(rows, c[n - 1], c[n]) {
        if n > 1 { assert Succeeds(rows, tail[n - 2], tail[n - 1]); }
      }
    }
  }

  lemma {:induction false} ChainAscends(rows: seq<Appointment>, i: nat)
    requires PredecessorsAreEarlier(rows) && i < |rows|
    ensures forall m, n | 0 <= m < n < |Chain(rows, i)| :: Chain(rows, i)[m] < Chain(rows, i)[n]
    decreases |rows| - i
  {
    if Successor(rows, i).Some? {
      var j := Successor(rows, i).value;
      ChainAscends(rows, j);
      ChainLinks(rows, j);
      var c, tail := Chain(rows, i), Chain(rows, j);
      assert forall n | 0 < n < |c| :: c[n] == tail[n - 1];
    }
  }

  /** The chain is finite and simple, each entry succeeds the one before, the last has no successor. */
  lemma ChainIsSimple(rows: seq<Appointment>, i: nat)
    requires PredecessorsAreEarlier(rows) && i < |rows|
    ensures var c := Chain(rows, i);
            && c != [] && c[0] == i && |c| <= |rows| - i
            && (forall n | 0 <= n < |c| :: i <= c[n] < |rows|)
            && (forall m, n | 0 <= m < n < |c| :: c[m] < c[n])
            && (forall n | 0 < n < |c| :: Succeeds(rows, c[n - 1], c[n]))
            && Successor(rows, c[|c| - 1]).None?
  {
    ChainLinks(rows, i);
    ChainAscends(rows, i);
  }

  lemma {:induction false} FirstStep(rows: seq<Appointment>, i: nat, j: nat)
    requires Sound(rows) && i < |rows| && j < |rows| && j != i && Descends(rows, i, j)
    ensures Successor(rows, i).Some? && Descends(rows, Successor(rows, i).value, j)
    decreases j
  {
    var p := rows[j].rescheduledFrom.value;
    if p == i {
      assert Succeeds(rows, i, j);
    } else {
      FirstStep(rows, i, p);
    }
  }

  lemma {:induction false} LongerWay(rows: seq<Appointment>, i: nat, k: nat, j: nat)
    requires PredecessorsAreEarlier(rows) && k < |rows| && j < |rows| && Succeeds(rows, i, k) && Descends(rows, k, j)
    ensures Descends(rows, i, j)
    decreases j
  {
    if j != k { LongerWay(rows, i, k, rows[j].rescheduledFrom.value); }
  }

  /** The chain holds exactly the descendants of its root, so they never branch. */
  lemma {:induction false} ChainIsAllDescendants(rows: seq<Appointment>, i: nat, j: nat)
    requires Sound(rows) && i < |rows| && j < |rows|
    ensures j in Chain(rows, i) <==> Descends(rows, i, j)
    decreases |rows| - i
  {
    if Successor(rows, i).Some? {
      var k := Successor(rows, i).value;
      ChainIsAllDescendants(rows, k, j);
      assert j in Chain(rows, i) <==> j == i || j in Chain(rows, k);
      if Descends(rows, i, j) && j != i { FirstStep(rows, i, j); }
      if Descends(rows, k, j) { LongerWay(rows, i, k, j); }
    } else if Descends(rows, i, j) && j != i {
      FirstStep(rows, i, j);
    }
  }

  /** The current appointment is the only descendant without a successor. */
  lemma CurrentIsUnique(rows: seq<Appointment>, i: nat, j: nat)
    requires Sound(rows) && i < |rows| && j < |rows|
    ensures Descends(rows, i, j) && Successor(rows, j).None? <==> j == Current(rows, i)
  {
    ChainIsSimple(rows, i);
    ChainIsAllDescendants(rows, i, j);
    var c := Chain(rows, i);
    forall n | 0 <= n < |c| - 1 ensures Successor(rows, c[n]).Some? {
      assert Succeeds(rows, c[n], c[n + 1]);
    }
  }

  /** A new unrejected attempt on any appointment but the current one is refused. */
  lemma OnlyCurrentIsRescheduled(rows: seq<Appointment>, i: nat, a: Appointment)
    requires Sound(rows) && i < |rows| && a.status != Rejected
    requires a.rescheduledFrom.Some? && a.rescheduledFrom.value in Chain(rows, i)
    requires a.rescheduledFrom.value != Current(rows, i)
    ensures Insert(rows, a).Err?
  {
    ChainIsSimple(rows, i);
    var c := Chain(rows, i);
    var n :| 0 <= n < |c| && c[n] == a.rescheduledFrom.value;
    assert Succeeds(rows, c[n], c[n + 1]);
  }

  lemma {:induction false} AppendedChain(rows: seq<Appointment>, a: Appointment, i: nat)
    requires Sound(rows) && Sound(rows + [a]) && i < |rows|
    ensures Chain(rows + [a], i) ==
            Chain(rows, i) + if a.status != Rejected
                && a.rescheduledFrom == Some(Current(rows, i)) then [|rows|] else []
    decreases |rows| - i
  {
    var rows' := rows + [a];
    assert forall p: nat, j: nat | j < |rows| :: Succeeds(rows', p, j) <==> Succeeds(rows, p, j);
    ChainIsSimple(rows, i);
    match Successor(rows, i) {
      case None =>
        if Succeeds(rows', i, |rows|) {
          assert Successor(rows', i) == Some(|rows|);
          assert Successor(rows', |rows|).None?;
        }
      case Some(j) =>
        assert Succeeds(rows', i, j) && Successor(rows', i) == Some(j);
        AppendedChain(rows, a, j);
        assert Current(rows, i) == Current(rows, j);
    }
  }

  /** An accepted insert extends exactly the chain whose current appointment it reschedules. */
  lemma RescheduleExtendsChain(rows: seq<Appointment>, a: Appointment, i: nat)
    requires Sound(rows) && i < |rows| && Insert(rows, a).Ok?
    ensures Sound(rows + [a]) && Insert(rows, a) == Ok(rows + [a])
    ensures Chain(rows + [a], i) ==
            if a.status != Rejected && a.rescheduledFrom == Some(Current(rows, i))
            then Chain(rows, i) + [|rows|] else Chain(rows, i)
  {
    WriteKeepsSound(rows, |rows|, a);
    AppendedChain(rows, a, i);
    assert Chain(rows, i) + [] == Chain(rows, i);
  }

  lemma RejectionFreesPredecessor(rows: seq<Appointment>, rows': seq<Appointment>, i: nat, k: nat)
    requires Sound(rows) && Sound(rows') && |rows'| == |rows| && k < |rows|
    requires rows'[k] == rows[k].(status := Rejected) && forall j | 0 <= j < |rows| && j != k :: rows'[j] == rows[j]
    ensures Successor(rows', i) == if Successor(rows, i) == Some(k) then None else Successor(rows, i)
  {
    assert forall p: nat, j: nat | j < |rows| && j != k :: Succeeds(rows', p, j) <==> Succeeds(rows, p, j);
    assert !Succeeds(rows', i, k);
    if Successor(rows, i).Some? && Successor(rows, i) != Some(k) {
      assert Succeeds(rows', i, Successor(rows, i).value);
    }
  }

  lemma {:induction false} TruncatedChain(rows: seq<Appointment>, rows': seq<Appointment>, i: nat, k: nat)
    requires Sound(rows) && Sound(rows') && |rows'| == |rows| && i < |rows| && k < |rows| && i != k
    requires rows'[k] == rows[k].(status := Rejected) && forall j | 0 <= j < |rows| && j != k :: rows'[j] == rows[j]
    requires k in Chain(rows, i)
    ensures exists n | 0 < n < |Chain(rows, i)| :: Chain(rows, i)[n] == k && Chain(rows', i) == Chain(rows, i)[..n]
    decreases |rows| - i
  {
    RejectionFreesPredecessor(rows, rows', i, k);
    hide Succeeds, UniqueSuccessors, Exclusive, PredecessorsAreEarlier;
    var c := Chain(rows, i);
    var s := Successor(rows, i).value;
    var tail := Chain(rows, s);
    assert c == [i] + tail;
    if s == k {
      ChainIsSimple(rows, s);
      assert c[1] == k && c[..1] == [i];
    } else {
      SuccessorIsLater(rows, i);
      TruncatedChain(rows, rows', s, k);
      var n :| 0 < n < |tail| && tail[n] == k && Chain(rows', s) == tail[..n];
      assert c[n + 1] == k && c[..n + 1] == [i] + tail[..n];
    }
  }

  lemma SuccessorIsLater(rows: seq<Appointment>, i: nat)
    requires PredecessorsAreEarlier(rows) && Successor(rows, i).Some?
    ensures i < Successor(rows, i).value < |rows|
  {
  }

  /** Rejecting an attempt cuts its chain just before it; what went before is in force again. */
  lemma RejectionCutsChain(rows: seq<Appointment>, i: nat, k: nat)
    requires Sound(rows) && i < |rows| && k in Chain(rows, i) && k != i
    ensures k < |rows|
    ensures var rejected := Change(rows, k, rows[k].(status := Rejected));
            && rejected.Ok? && Sound(rejected.value) && |rejected.value| == |rows|
            && exists n | 0 < n < |Chain(rows, i)| ::
                 Chain(rows, i)[n] == k && Chain(rejected.value, i) == Chain(rows, i)[..n]
  {
    ChainIsSimple(rows, i);
    var row := rows[k].(status := Rejected);
    assert SlotOf(row).None?;
    WriteKeepsSound(rows, k, row);
    TruncatedChain(rows, rows[k := row], i, k);
  }

  // -------------------------------------------------------------------- absences

  datatype Absence = Absence(advisor: nat, starts: int, ends: int, cancelled: bool)

  function AbsenceSlot(a: Absence): Option<Booking> {
    if a.cancelled then None else Some(Booking(a.advisor, a.starts, a.ends))
  }

  function AbsenceSlots(rows: seq<Absence>): Table {
    seq(|rows|, i requires 0 <= i < |rows| => AbsenceSlot(rows[i]))
  }

  /** INSERT at the end or UPDATE in place, under the period check and the exclusion. */
  function RecordAbsence(rows: seq<Absence>, i: nat, a: Absence): Option<seq<Absence>> {
    if i > |rows| || a.ends <= a.starts || !Admits(AbsenceSlots(rows), i, AbsenceSlot(a)) then None
    else Some(if i < |rows| then rows[i := a] else rows + [a])
  }

  function RunAbsences(writes: seq<(nat, Absence)>): seq<Absence> {
    if writes == [] then []
    else
      var rows, w := RunAbsences(writes[..|writes| - 1]), writes[|writes| - 1];
      match RecordAbsence(rows, w.0, w.1)
      case None => rows
      case Some(rows') => rows'
  }

  predicate AwayAt(a: Absence, x: int) {
    !a.cancelled && a.starts <= x < a.ends
  }

  /** The same of absences. */
  lemma AbsencesRecordInTurn(writes: seq<(nat, Absence)>, i: nat, a: Absence)
    ensures RunAbsences([]) == []
    ensures var recorded := RecordAbsence(RunAbsences(writes), i, a);
            RunAbsences(writes + [(i, a)]) == if recorded.Some? then recorded.value else RunAbsences(writes)
  {
    assert (writes + [(i, a)])[..|writes|] == writes;
  }

  /** Two live absences of one advisor have an instant in common. */
  ghost predicate Coincide(a: Absence, b: Absence) {
    a.advisor == b.advisor && exists x :: AwayAt(a, x) && AwayAt(b, x)
  }

  lemma CoincideIsConflict(a: Absence, b: Absence)
    ensures Coincide(a, b) <==>
            AbsenceSlot(a).Some? && AbsenceSlot(b).Some? && Conflicts(AbsenceSlot(a).value, AbsenceSlot(b).value)
  {
    if AbsenceSlot(a).Some? && AbsenceSlot(b).Some? && Conflicts(AbsenceSlot(a).value, AbsenceSlot(b).value) {
      var x := Max(a.starts, b.starts);
      assert AwayAt(a, x) && AwayAt(b, x);
    }
  }

  /** An absence is recorded exactly when it lasts and coincides with no other row. */
  lemma AbsenceRecordedExactlyWhen(rows: seq<Absence>, i: nat, a: Absence)
    requires i <= |rows|
    ensures var recorded := RecordAbsence(rows, i, a);
            && (recorded.Some? <==>
                  a.starts < a.ends && forall j | 0 <= j < |rows| && j != i :: !Coincide(a, rows[j]))
            && (recorded.Some? ==> recorded.value == rows[..i] + [a] + if i < |rows| then rows[i + 1..] else [])
  {
    var slots := AbsenceSlots(rows);
    forall j | 0 <= j < |rows|
      ensures Coincide(a, rows[j]) <==>
              AbsenceSlot(a).Some? && slots[j].Some? && Conflicts(AbsenceSlot(a).value, slots[j].value)
    {
      CoincideIsConflict(a, rows[j]);
    }
    hide Conflicts, Coincide, AbsenceSlots;
  }

  /** In every reachable state no two live absences of an advisor share an instant. */
  lemma AbsencesShareNoInstant(writes: seq<(nat, Absence)>, i: nat, j: nat)
    requires i < |RunAbsences(writes)| && j < |RunAbsences(writes)| && i != j
    ensures !Coincide(RunAbsences(writes)[i], RunAbsences(writes)[j])
  {
    var rows := RunAbsences(writes);
    AbsencesAreExclusive(writes);
    CoincideIsConflict(rows[i], rows[j]);
    assert AbsenceSlots(rows)[i] == AbsenceSlot(rows[i]) && AbsenceSlots(rows)[j] == AbsenceSlot(rows[j]);
    hide Coincide, Conflicts;
  }

  /** So they too fit every window. */
  lemma AbsencesFitWindow(writes: seq<(nat, Absence)>, advisor: nat, lo: int, hi: int)
    requires lo <= hi
    ensures Busy(AbsenceSlots(RunAbsences(writes)), advisor, lo, hi) <= hi - lo
  {
    AbsencesAreExclusive(writes);
    BusyFitsWindow(AbsenceSlots(RunAbsences(writes)), advisor, lo, hi);
  }

  lemma {:induction false} AbsencesAreExclusive(writes: seq<(nat, Absence)>)
    ensures Exclusive(AbsenceSlots(RunAbsences(writes)))
  {
    if writes != [] {
      var rows, w := RunAbsences(writes[..|writes| - 1]), writes[|writes| - 1];
      AbsencesAreExclusive(writes[..|writes| - 1]);
      if RecordAbsence(rows, w.0, w.1).Some? {
        AdmittedExactlyWhenExclusive(AbsenceSlots(rows), w.0, AbsenceSlot(w.1));
        var slots := AbsenceSlots(rows);
        assert AbsenceSlots(RunAbsences(writes)) ==
               if w.0 < |rows| then slots[w.0 := AbsenceSlot(w.1)] else slots + [AbsenceSlot(w.1)];
      }
    }
  }

  // -------------------------------------------------------------- the live table

  class AppointmentTable {
    var rows: seq<Appointment>

    constructor ()
      ensures rows == []
    {
      rows := [];
    }

    method InsertRow(a: Appointment) returns (refusal: Option<Refusal>)
      modifies this
      ensures refusal.None? <==> Insert(old(rows), a).Ok?
      ensures refusal.None? ==> rows == old(rows) + [a]
      ensures refusal.Some? ==> rows == old(rows) && Insert(old(rows), a) == Err(refusal.value)
    {
      if a.rescheduledFrom.Some? && a.rescheduledFrom.value >= |rows| {
        return Some(UnknownPredecessor);
      }
      refusal := CheckArbiters(|rows|, a);
      if refusal.None? {
        rows := rows + [a];
      }
    }

    method ChangeRow(i: nat, a: Appointment) returns (refusal: Option<Refusal>)
      modifies this
      ensures refusal.None? <==> Change(old(rows), i, a).Ok?
      ensures refusal.None? ==>
                && i < |old(rows)|
                && rows == old(rows)[i := a.(rescheduledFrom := old(rows)[i].rescheduledFrom)]
      ensures refusal.Some? ==> rows == old(rows) && Change(old(rows), i, a) == Err(refusal.value)
    {
      if i >= |rows| {
        return Some(UnknownRow);
      }
      var row := a.(rescheduledFrom := rows[i].rescheduledFrom);
      refusal := CheckArbiters(i, row);
      if refusal.None? {
        rows := rows[i := row];
      }
    }

    /** The index scans behind the two constraints, over the other rows. */
    method CheckArbiters(i: nat, a: Appointment) returns (refusal: Option<Refusal>)
      ensures refusal == Arbitrate(rows, i, a)
    {
      var slot := SlotOf(a);
      if IsInverted(slot) {
        return Some(InvertedRange);
      }
      var overlap, taken := false, false;
      for j := 0 to |rows|
        invariant overlap <==> slot.Some? && exists k | 0 <= k < j && k != i ::
                                 Slots(rows)[k].Some? && Conflicts(slot.value, Slots(rows)[k].value)
        invariant taken <==> a.rescheduledFrom.Some? && a.status != Rejected
                             && exists k | 0 <= k < j && k != i :: Succeeds(rows, a.rescheduledFrom.value, k)
      {
        if j != i {
          var other := SlotOf(rows[j]);
          assert Slots(rows)[j] == other;
          if slot.Some? && other.Some? && Conflicts(slot.value, other.value) {
            overlap := true;
          }
          if a.rescheduledFrom.Some? && a.status != Rejected && Succeeds(rows, a.rescheduledFrom.value, j) {
            taken := true;
          }
        }
      }
      return if overlap then Some(CalendarOverlap) else if taken then Some(ActiveReschedule) else None;
    }
  }
}
