/**
 The `mv_sponsored_delivery` aggregate: sponsored events grouped by campaign, listing,
 surface and service day, with additive counters and one distinct-session counter.

 Days are UTC days of a microsecond timestamp. NULL listings and surfaces group together,
 as GROUP BY does; events without a campaign are filtered out.
 */
module SponsoredDelivery {
  import Counting
  import opened Prelude

  datatype EventName =
    | ServedImpression | VisibleImpression | ListingOpened | GalleryOpened
    | SignificantExploration | OtherName

  datatype Event = Event(
    organization: nat, definition: string, campaign: Option<nat>, listing: Option<nat>,
    surface: Option<string>, occurredAt: int, name: EventName, valid: bool, session: Option<string>)

  datatype Cell = Cell(
    organization: nat, definition: string, campaign: nat, listing: Option<nat>,
    surface: Option<string>, day: int)

  datatype Column = Served | Visible | Opens | Gallery | Significant | Invalid

  /** One row of the view, without its key. */
  datatype Counts = Counts(
    served: nat, visible: nat, opens: nat, gallery: nat, significant: nat, invalid: nat, visibleSessions: nat)

  const MICROSECONDS_PER_DAY := 86400000000

  function Get(row: Counts, column: Column): nat {
    match column
    case Served => row.served
    case Visible => row.visible
    case Opens => row.opens
    case Gallery => row.gallery
    case Significant => row.significant
    case Invalid => row.invalid
  }

  /** The group an event falls into; `None` when the WHERE clause drops it. */
  function CellOf(e: Event): Option<Cell> {
    match e.campaign
    case None => None
    case Some(campaign) =>
      Some(Cell(e.organization, e.definition, campaign, e.listing, e.surface, e.occurredAt / MICROSECONDS_PER_DAY))
  }

  /** The FILTER clause of an additive column. */
  predicate Counted(column: Column, e: Event) {
    match column
    case Served => e.name == ServedImpression && e.valid
    case Visible => e.name == VisibleImpression && e.valid
    case Opens => e.name == ListingOpened && e.valid
    case Gallery => e.name == GalleryOpened && e.valid
    case Significant => e.name == SignificantExploration && e.valid
    case Invalid => !e.valid
  }

  function One(b: bool): nat {
    if b then 1 else 0
  }

  /** An event of the cell that the column counts. */
  function CountedIn(column: Column, cell: Cell): Event -> bool {
    (e: Event) => CellOf(e) == Some(cell) && Counted(column, e)
  }

  function Count(column: Column, events: seq<Event>, cell: Cell): nat {
    Counting.Count(events, CountedIn(column, cell))
  }

  /** count(DISTINCT session_reference): NULL sessions do not count. */
  function Sessions(events: seq<Event>, cell: Cell): set<string> {
    set e | e in events && CellOf(e) == Some(cell) && Counted(Visible, e) && e.session.Some? :: e.session.value
  }

  function Cells(events: seq<Event>): set<Cell> {
    set e | e in events && CellOf(e).Some? :: CellOf(e).value
  }

  function Measures(events: seq<Event>, cell: Cell): Counts {
    Counts(Count(Served, events, cell), Count(Visible, events, cell), Count(Opens, events, cell),
           Count(Gallery, events, cell), Count(Significant, events, cell), Count(Invalid, events, cell),
           |Sessions(events, cell)|)
  }

  /** One row for each cell that has an event. */
  function View(events: seq<Event>): map<Cell, Counts> {
    map cell | cell in Cells(events) :: Measures(events, cell)
  }

  // ---------------------------------------------------------------- one more event

  lemma OneMoreEvent(events: seq<Event>, e: Event, cell: Cell)
    ensures forall column :: Count(column, events + [e], cell)
              == Count(column, events, cell) + One(CellOf(e) == Some(cell) && Counted(column, e))
    ensures Sessions(events + [e], cell) == Sessions(events, cell) +
              if CellOf(e) == Some(cell) && Counted(Visible, e) && e.session.Some? then {e.session.value} else {}
    ensures Cells(events + [e]) == Cells(events) + if CellOf(e).Some? then {CellOf(e).value} else {}
  {
    assert (events + [e])[..|events|] == events;
  }

  /** What a row becomes when an event of its cell arrives. */
  function Bumped(row: Counts, e: Event, newSession: bool): Counts {
    Counts(row.served + One(Counted(Served, e)), row.visible + One(Counted(Visible, e)),
           row.opens + One(Counted(Opens, e)), row.gallery + One(Counted(Gallery, e)),
           row.significant + One(Counted(Significant, e)), row.invalid + One(Counted(Invalid, e)),
           row.visibleSessions + One(newSession))
  }

  const ZERO := Counts(0, 0, 0, 0, 0, 0, 0)

  predicate NewSession(events: seq<Event>, e: Event, cell: Cell) {
    Counted(Visible, e) && e.session.Some? && e.session.value !in Sessions(events, cell)
  }

  lemma {:induction false} EmptyCell(events: seq<Event>, cell: Cell, column: Column)
    requires cell !in Cells(events)
    ensures Count(column, events, cell) == 0 && Sessions(events, cell) == {}
  {
    if events != [] {
      var rest, e := events[..|events| - 1], events[|events| - 1];
      assert events == rest + [e];
      OneMoreEvent(rest, e, cell);
      EmptyCell(rest, cell, column);
    }
  }

  lemma EmptyCellMeasuresZero(events: seq<Event>, cell: Cell)
    requires cell !in Cells(events)
    ensures Measures(events, cell) == ZERO
  {
    forall column ensures Count(column, events, cell) == 0 && Sessions(events, cell) == {} {
      EmptyCell(events, cell, column);
    }
  }

  lemma SessionsGrow(events: seq<Event>, e: Event, cell: Cell)
    requires CellOf(e) == Some(cell)
    ensures |Sessions(events + [e], cell)| == |Sessions(events, cell)| + One(NewSession(events, e, cell))
  {
    hide Counted, CellOf, Count, Cells;
    OneMoreEvent(events, e, cell);
    var before := Sessions(events, cell);
    if Counted(Visible, e) && e.session.Some? {
      if e.session.value in before { assert before + {e.session.value} == before; }
    } else {
      assert before + {} == before;
    }
  }

  lemma OwnCellIsBumped(events: seq<Event>, e: Event, cell: Cell)
    requires CellOf(e) == Some(cell)
    ensures Measures(events + [e], cell) == Bumped(Measures(events, cell), e, NewSession(events, e, cell))
  {
    hide Counted, CellOf, Sessions, Count, Cells, NewSession;
    OneMoreEvent(events, e, cell);
    SessionsGrow(events, e, cell);
  }

  lemma OtherCellsStay(events: seq<Event>, e: Event, cell: Cell)
    requires CellOf(e) != Some(cell)
    ensures Measures(events + [e], cell) == Measures(events, cell)
    ensures cell in Cells(events + [e]) <==> cell in Cells(events)
  {
    OneMoreEvent(events, e, cell);
  }

  /**
   Recomputing after one more event changes exactly the event's own row, which starts from
   zero when it is new: each counter by its filter, the distinct sessions by one if and
   only if the session is new there.
   */
  lemma OneEventChangesOneCell(events: seq<Event>, e: Event)
    ensures CellOf(e).None? ==> View(events + [e]) == View(events)
    ensures CellOf(e).Some? ==>
              var cell := CellOf(e).value;
              var row := if cell in View(events) then View(events)[cell] else ZERO;
              View(events + [e]) == View(events)[cell := Bumped(row, e, NewSession(events, e, cell))]
  {
    hide Measures, Bumped, NewSession, CellOf;
    var before, after := View(events), View(events + [e]);
    forall cell | CellOf(e) != Some(cell)
      ensures cell in after <==> cell in before
      ensures cell in before ==> after[cell] == before[cell]
    {
      OtherCellsStay(events, e, cell);
    }
    if CellOf(e).Some? {
      var cell := CellOf(e).value;
      OneMoreEvent(events, e, cell);
      OwnCellIsBumped(events, e, cell);
      if cell !in before { EmptyCellMeasuresZero(events, cell); }
      var row := if cell in before then before[cell] else ZERO;
      assert after == before[cell := Bumped(row, e, NewSession(events, e, cell))];
    } else {
      assert after == before;
    }
  }

  // ----------------------------------------------------------------- on the columns

  /** The event belongs to the row: same Organization, definition, campaign, listing, surface and UTC day. */
  predicate BelongsTo(e: Event, cell: Cell) {
    && e.campaign == Some(cell.campaign) && e.organization == cell.organization && e.definition == cell.definition
    && e.listing == cell.listing && e.surface == cell.surface
    && cell.day * MICROSECONDS_PER_DAY <= e.occurredAt < (cell.day + 1) * MICROSECONDS_PER_DAY
  }

  function ValidIn(cell: Cell, name: EventName): Event -> bool {
    (e: Event) => BelongsTo(e, cell) && e.valid && e.name == name
  }

  function InvalidIn(cell: Cell): Event -> bool {
    (e: Event) => BelongsTo(e, cell) && !e.valid
  }

  lemma BelongsToItsCell(e: Event, cell: Cell)
    ensures BelongsTo(e, cell) <==> CellOf(e) == Some(cell)
  {
    if BelongsTo(e, cell) { assert e.occurredAt / MICROSECONDS_PER_DAY == cell.day; }
  }

  lemma CountedByName(events: seq<Event>, cell: Cell, column: Column, name: EventName)
    requires column != Invalid
    requires forall e :: Counted(column, e) <==> e.valid && e.name == name
    ensures Count(column, events, cell) == Counting.Count(events, ValidIn(cell, name))
  {
    forall e ensures CountedIn(column, cell)(e) <==> ValidIn(cell, name)(e) { BelongsToItsCell(e, cell); }
    Counting.SameCount(events, CountedIn(column, cell), ValidIn(cell, name));
  }

  /**
   What a row says of the events, on their fields: there is a row exactly when some event
   belongs to it; each named column counts the valid events of its name, the invalid column
   all the invalid ones, and the sessions are those of its valid visible impressions.
   */
  lemma RowCountsItsEvents(events: seq<Event>, cell: Cell)
    ensures cell in View(events) <==> exists e :: e in events && BelongsTo(e, cell)
    ensures cell in View(events) ==>
              var row := View(events)[cell];
              && row.served == Counting.Count(events, ValidIn(cell, ServedImpression))
              && row.visible == Counting.Count(events, ValidIn(cell, VisibleImpression))
              && row.opens == Counting.Count(events, ValidIn(cell, ListingOpened))
              && row.gallery == Counting.Count(events, ValidIn(cell, GalleryOpened))
              && row.significant == Counting.Count(events, ValidIn(cell, SignificantExploration))
              && row.invalid == Counting.Count(events, InvalidIn(cell))
              && row.visibleSessions == |set e | e in events && ValidIn(cell, VisibleImpression)(e) && e.session.Some?
                                              :: e.session.value|
  {
    forall e ensures BelongsTo(e, cell) <==> CellOf(e) == Some(cell) { BelongsToItsCell(e, cell); }
    CountedByName(events, cell, Served, ServedImpression);
    CountedByName(events, cell, Visible, VisibleImpression);
    CountedByName(events, cell, Opens, ListingOpened);
    CountedByName(events, cell, Gallery, GalleryOpened);
    CountedByName(events, cell, Significant, SignificantExploration);
    Counting.SameCount(events, CountedIn(Invalid, cell), InvalidIn(cell));
    SessionsByName(events, cell);
    hide Count, CellOf, BelongsTo, Counted, Sessions;
  }

  lemma SessionsByName(events: seq<Event>, cell: Cell)
    ensures Sessions(events, cell) ==
            set e | e in events && ValidIn(cell, VisibleImpression)(e) && e.session.Some? :: e.session.value
  {
    forall e ensures BelongsTo(e, cell) <==> CellOf(e) == Some(cell) { BelongsToItsCell(e, cell); }
    hide BelongsTo, CellOf;
  }

  // ------------------------------------------------------------------ conservation

  /** The events a column counts, over the whole filtered table. */
  function Total(column: Column, events: seq<Event>): nat {
    if events == [] then 0
    else
      var e := events[|events| - 1];
      Total(column, events[..|events| - 1]) + One(CellOf(e).Some? && Counted(column, e))
  }

  ghost function SumOver(column: Column, view: map<Cell, Counts>, cells: set<Cell>): nat
    requires forall c | c in cells :: c in view
  {
    if cells == {} then 0
    else
      var c :| c in cells;
      Get(view[c], column) + SumOver(column, view, cells - {c})
  }

  lemma {:induction false} SumTakesAny(column: Column, view: map<Cell, Counts>, cells: set<Cell>, c: Cell)
    requires forall d | d in cells :: d in view
    requires c in cells
    ensures SumOver(column, view, cells) == Get(view[c], column) + SumOver(column, view, cells - {c})
    decreases |cells|
  {
    var d :| d in cells && SumOver(column, view, cells) == Get(view[d], column) + SumOver(column, view, cells - {d});
    if d != c {
      SumTakesAny(column, view, cells - {d}, c);
      SumTakesAny(column, view, cells - {c}, d);
      assert cells - {d} - {c} == cells - {c} - {d};
    }
  }

  lemma {:induction false} SumIgnoresOthers(column: Column, v: map<Cell, Counts>, w: map<Cell, Counts>,
        cells: set<Cell>)
    requires forall d | d in cells :: d in v && d in w && v[d] == w[d]
    ensures SumOver(column, v, cells) == SumOver(column, w, cells)
    decreases |cells|
  {
    if cells != {} {
      var d :| d in cells && SumOver(column, v, cells) == Get(v[d], column) + SumOver(column, v, cells - {d});
      SumTakesAny(column, w, cells, d);
      SumIgnoresOthers(column, v, w, cells - {d});
    }
  }

  lemma BumpCounts(row: Counts, e: Event, newSession: bool, column: Column)
    ensures Get(Bumped(row, e, newSession), column) == Get(row, column) + One(Counted(column, e))
    ensures Get(ZERO, column) == 0
  {
  }

  /** Summing an additive column over every row gives back the filtered event count. */
  lemma {:induction false} ViewConservesEvents(column: Column, events: seq<Event>)
    ensures SumOver(column, View(events), View(events).Keys) == Total(column, events)
  {
    hide View, Bumped, Get, Counted, CellOf, NewSession;
    if events == [] {
      EmptyView();
    } else {
      var rest, e := events[..|events| - 1], events[|events| - 1];
      assert events == rest + [e];
      ViewConservesEvents(column, rest);
      OneEventChangesOneCell(rest, e);
      if CellOf(e).Some? {
        var cell := CellOf(e).value;
        var row := if cell in View(rest) then View(rest)[cell] else ZERO;
        var bumped := Bumped(row, e, NewSession(rest, e, cell));
        UpdatedSum(column, View(rest), cell, bumped);
        BumpCounts(row, e, NewSession(rest, e, cell), column);
      }
    }
  }

  lemma EmptyView()
    ensures View([]) == map[]
  {
  }

  lemma UpdatedSum(column: Column, v: map<Cell, Counts>, cell: Cell, row: Counts)
    ensures SumOver(column, v[cell := row], v[cell := row].Keys)
         == SumOver(column, v, v.Keys) - (if cell in v then Get(v[cell], column) else 0) + Get(row, column)
  {
    var w := v[cell := row];
    SumTakesAny(column, w, w.Keys, cell);
    if cell in v {
      SumTakesAny(column, v, v.Keys, cell);
    } else {
      assert v.Keys - {cell} == v.Keys;
    }
    assert w.Keys - {cell} == v.Keys - {cell};
    SumIgnoresOthers(column, v, w, v.Keys - {cell});
  }

  /** A row's distinct sessions never exceed its visible impressions. */
  lemma {:induction false} SessionsAreImpressions(events: seq<Event>, cell: Cell)
    ensures |Sessions(events, cell)| <= Count(Visible, events, cell)
  {
    if events != [] {
      var rest, e := events[..|events| - 1], events[|events| - 1];
      assert events == rest + [e];
      SessionsAreImpressions(rest, cell);
      OneMoreEvent(rest, e, cell);
      if CellOf(e) == Some(cell) && Counted(Visible, e) && e.session.Some? && e.session.value in Sessions(rest, cell) {
        assert Sessions(rest, cell) + {e.session.value} == Sessions(rest, cell);
      }
    }
  }

  // ------------------------------------------------------------------- permutation

  /** The view does not depend on the order in which events were stored. */
  lemma ViewIgnoresOrder(a: seq<Event>, b: seq<Event>)
    requires multiset(a) == multiset(b)
    ensures View(a) == View(b)
  {
    assert forall e :: e in a <==> e in multiset(a);
    assert forall e :: e in b <==> e in multiset(b);
    assert Cells(a) == Cells(b);
    forall cell | cell in Cells(a) ensures Measures(a, cell) == Measures(b, cell) {
      forall column ensures Count(column, a, cell)
          == Count(column, b, cell) { Counting.CountIgnoresOrder(a, b, CountedIn(column, cell)); }
      assert Sessions(a, cell) == Sessions(b, cell);
    }
  }
}
