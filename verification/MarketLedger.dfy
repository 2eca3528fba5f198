/**
 The versioned source ledger of revision 0028: two source tables whose every write
 runs a BEFORE trigger (force the next version, append a revision) and an AFTER
 trigger (append a contribution), all inside the writer's transaction.

 `Execute` is one statement; `None` means PostgreSQL aborts it. The class
 `MarketStore` runs the same statements on mutable tables, trigger by trigger.
 */
module MarketLedger {
  import opened Prelude
  import opened EventKeys

  datatype Json =
    | Null
    | Text(text: string)
    | Number(unscaled: int, scale: nat)
    | Object(fields: map<string, string>)

  datatype Key = Key(source: SourceType, id: Uuid)

  /** `to_jsonb(row)` keeps every column, so a payload is a row. */
  datatype Row = Row(organization: Uuid, columns: map<string, Json>, updatedAt: int, version: int)

  datatype Revision = Revision(
    organization: Uuid, key: Key, version: int, oldValues: Row, newValues: Row,
    databaseRole: string, changedAt: int)

  datatype ContributionState = Pending | Projected | Failed

  datatype Contribution = Contribution(
    organization: Uuid, key: Key, version: int, eventKey: string, payload: Row,
    state: ContributionState, attempts: nat, createdAt: int)

  datatype Ledger = Ledger(
    rows: map<Key, Row>, revisions: seq<Revision>, contributions: seq<Contribution>)

  const EMPTY := Ledger(map[], [], [])

  datatype Statement =
    | Insert(key: Key, row: Row, now: int)
    | Update(key: Key, row: Row, role: string, now: int)
    | Delete(key: Key)

  // ---------------------------------------------------------------- constraints

  function Column(row: Row, name: string): Json {
    if name in row.columns then row.columns[name] else Null
  }

  predicate MoneyPaired(row: Row, amount: string, currency: string) {
    Column(row, amount).Null? <==> Column(row, currency).Null?
  }

  /** A CHECK over an enumeration passes on NULL. */
  predicate OneOf(row: Row, name: string, values: set<string>) {
    match Column(row, name)
    case Text(text) => text in values
    case _ => true
  }

  /** A lower bound passes on NULL: `>= 0`, `> 0` as an unscaled value of at least 1, or a bound on an integer. */
  predicate AtLeast(row: Row, name: string, low: int) {
    match Column(row, name)
    case Number(unscaled, _) => unscaled >= low
    case _ => true
  }

  predicate SaleValues(row: Row) {
    && OneOf(row, "state", {"Preparation", "Completed", "Cancelled"})
    && OneOf(row, "outcome", {"InProgress", "Won", "Lost", "Cancelled"})
    && OneOf(row, "property_condition", {"New", "Excellent", "Good", "NeedsImprovement"})
    && AtLeast(row, "land_area_sqm", 1) && AtLeast(row, "construction_area_sqm", 1)
    && AtLeast(row, "published_price", 0) && AtLeast(row, "appraisal_value", 0) && AtLeast(row, "paid_price", 0)
  }

  predicate ProfileValues(row: Row) {
    && AtLeast(row, "birth_year", 1900)
    && (Column(row, "birth_year").Number? ==> Column(row, "birth_year").unscaled <= 2100)
    && AtLeast(row, "monthly_income", 0) && AtLeast(row, "adults", 1) && AtLeast(row, "children", 0)
    && AtLeast(row, "financial_dependants", 0) && AtLeast(row, "co_buyers", 0)
    && AtLeast(row, "home_purchase_number", 1)
    && OneOf(row, "payment_path", {"Cash", "Credit", "Combined"})
    && OneOf(row, "preapproval_state", {"NotStarted", "InProgress", "Preapproved", "Denied", "NotApplicable"})
  }

  /** The CHECK constraints of the two source tables. */
  predicate RowChecks(source: SourceType, row: Row) {
    match source
    case PurchaseProfile => ProfileValues(row)
    case MarketSaleRecord =>
      && SaleValues(row)
      && MoneyPaired(row, "published_price", "published_currency")
      && MoneyPaired(row, "appraisal_value", "appraisal_currency")
      && MoneyPaired(row, "paid_price", "paid_currency")
      && (Column(row, "state") == Text("Completed") ==>
            && !Column(row, "property_uuid").Null?
            && !Column(row, "property_type").Null?
            && !Column(row, "municipality").Null?
            && !Column(row, "completion_date").Null?
            && !Column(row, "paid_price").Null?
            && !Column(row, "paid_currency").Null?
            && !Column(row, "completed_by").Null?
            && !Column(row, "completed_at").Null?)
  }

  /** Equal and not NULL: what a unique key compares. */
  predicate Clashes(a: Row, b: Row, name: string) {
    !Column(a, name).Null? && Column(a, name) == Column(b, name)
  }

  /** UNIQUE (organization_id, opportunity_id) and (organization_id, journey_id), on either table. */
  predicate BusinessKeysFree(rows: map<Key, Row>, k: Key, row: Row) {
    forall j | j in rows && j != k && j.source == k.source && rows[j].organization == row.organization ::
      !Clashes(rows[j], row, "opportunity_id") && !Clashes(rows[j], row, "journey_id")
  }

  /** What the source table itself accepts, before its AFTER trigger runs. */
  predicate Admissible(rows: map<Key, Row>, k: Key, row: Row) {
    RowChecks(k.source, row) && BusinessKeysFree(rows, k, row)
  }

  /** Every row meets its CHECKs, and no two rows of a table share a business key of their Organization. */
  ghost predicate ConstraintsHold(rows: map<Key, Row>) {
    && (forall k | k in rows :: RowChecks(k.source, rows[k]) && FitsInteger(rows[k].version))
    && (forall j, k | j in rows && k in rows && j != k :: Independent(j, rows[j], k, rows[k]))
  }

  /** Two rows of one table and Organization that name an opportunity or a journey name different ones. */
  predicate Independent(j: Key, a: Row, k: Key, b: Row) {
    j.source == k.source && a.organization == b.organization ==>
      forall n | n in {"opportunity_id", "journey_id"} :: Column(a, n) == Column(b, n) ==> Column(a, n) == Null
  }

  lemma IndependentUnlessClashing(j: Key, a: Row, k: Key, b: Row)
    ensures Independent(j, a, k, b) <==> Independent(k, b, j, a)
    ensures Independent(j, a, k, b) <==>
            (j.source == k.source && a.organization == b.organization ==>
               !Clashes(a, b, "opportunity_id") && !Clashes(a, b, "journey_id"))
  {
  }

  /** The table admits a row exactly when its constraints hold with that row stored. */
  lemma AdmittedExactlyWhen(rows: map<Key, Row>, k: Key, row: Row)
    requires ConstraintsHold(rows)
    ensures Admissible(rows, k, row) && FitsInteger(row.version) <==> ConstraintsHold(rows[k := row])
  {
    hide RowChecks, Clashes, Independent, FitsInteger;
    var rows' := rows[k := row];
    assert rows'[k] == row && forall j | j in rows && j != k :: rows'[j] == rows[j];
    forall j | j in rows && j != k
      ensures Independent(j, rows[j], k, row) <==> Independent(k, row, j, rows[j])
      ensures Independent(j, rows[j], k, row) <==>
              (j.source == k.source && rows[j].organization == row.organization ==>
                 !Clashes(rows[j], row, "opportunity_id") && !Clashes(rows[j], row, "journey_id"))
    {
      IndependentUnlessClashing(j, rows[j], k, row);
    }
    if ConstraintsHold(rows') {
      forall j | j in rows && j != k ensures Independent(j, rows[j], k, row) {
        assert Independent(j, rows'[j], k, rows'[k]);
      }
    }
  }

  /** The least values of the numeric columns, as unscaled integers. */
  function Least(source: SourceType): map<string, int> {
    match source
    case MarketSaleRecord =>
      map["land_area_sqm" := 1, "construction_area_sqm" := 1, "published_price" := 0, "appraisal_value" := 0,
          "paid_price" := 0]
    case PurchaseProfile =>
      map["birth_year" := 1900, "monthly_income" := 0, "adults" := 1, "children" := 0, "financial_dependants" := 0,
          "co_buyers" := 0, "home_purchase_number" := 1]
  }

  /** The values of the enumerated columns. */
  function Choices(source: SourceType): map<string, set<string>> {
    match source
    case MarketSaleRecord =>
      map["state" := {"Preparation", "Completed", "Cancelled"}, "outcome" := {"InProgress", "Won", "Lost", "Cancelled"},
          "property_condition" := {"New", "Excellent", "Good", "NeedsImprovement"}]
    case PurchaseProfile =>
      map["payment_path" := {"Cash", "Credit", "Combined"},
          "preapproval_state" := {"NotStarted", "InProgress", "Preapproved", "Denied", "NotApplicable"}]
  }

  /** No number is below its least value and no text outside its choices; NULL passes. */
  predicate InRange(source: SourceType, row: Row) {
    HighEnough(source, row) && WellChosen(source, row)
  }

  predicate HighEnough(source: SourceType, row: Row) {
    forall n | n in Least(source) && Column(row, n).Number? :: Least(source)[n] <= Column(row, n).unscaled
  }

  predicate WellChosen(source: SourceType, row: Row) {
    forall n | n in Choices(source) && Column(row, n).Text? :: Column(row, n).text in Choices(source)[n]
  }

  /** The CHECKs, column by column. */
  lemma ChecksOnColumns(source: SourceType, row: Row)
    ensures RowChecks(source, row) <==>
            && InRange(source, row)
            && (source == PurchaseProfile && Column(row, "birth_year").Number? ==>
                  Column(row, "birth_year").unscaled <= 2100)
            && (source == MarketSaleRecord ==>
                  && (Column(row, "published_price") == Null <==> Column(row, "published_currency") == Null)
                  && (Column(row, "appraisal_value") == Null <==> Column(row, "appraisal_currency") == Null)
                  && (Column(row, "paid_price") == Null <==> Column(row, "paid_currency") == Null)
                  && (Column(row, "state") == Text("Completed") ==>
                        forall n | n in {"property_uuid", "property_type", "municipality", "completion_date",
                                         "paid_price", "paid_currency", "completed_by", "completed_at"} ::
                          Column(row, n) != Null))
  {
    hide AtLeast, OneOf, HighEnough, WellChosen, Column, Least, Choices;
    SaleLeast(row);
    SaleChoices(row);
    ProfileLeast(row);
    ProfileChoices(row);
  }

  lemma SaleLeast(row: Row)
    ensures HighEnough(MarketSaleRecord, row) <==>
            && AtLeast(row, "land_area_sqm", 1) && AtLeast(row, "construction_area_sqm", 1)
            && AtLeast(row, "published_price", 0) && AtLeast(row, "appraisal_value", 0) && AtLeast(row, "paid_price", 0)
  {
    var least := Least(MarketSaleRecord);
    assert least.Keys == {"land_area_sqm", "construction_area_sqm", "published_price", "appraisal_value", "paid_price"};
  }

  lemma SaleChoices(row: Row)
    ensures WellChosen(MarketSaleRecord, row) <==>
            && OneOf(row, "state", {"Preparation", "Completed", "Cancelled"})
            && OneOf(row, "outcome", {"InProgress", "Won", "Lost", "Cancelled"})
            && OneOf(row, "property_condition", {"New", "Excellent", "Good", "NeedsImprovement"})
  {
    assert Choices(MarketSaleRecord).Keys == {"state", "outcome", "property_condition"};
  }

  lemma ProfileLeast(row: Row)
    ensures HighEnough(PurchaseProfile, row) <==>
            && AtLeast(row, "birth_year", 1900) && AtLeast(row, "monthly_income", 0) && AtLeast(row, "adults", 1)
            && AtLeast(row, "children", 0) && AtLeast(row, "financial_dependants", 0) && AtLeast(row, "co_buyers", 0)
            && AtLeast(row, "home_purchase_number", 1)
  {
    assert Least(PurchaseProfile).Keys == {"birth_year", "monthly_income", "adults", "children",
        "financial_dependants", "co_buyers", "home_purchase_number"};
  }

  lemma ProfileChoices(row: Row)
    ensures WellChosen(PurchaseProfile, row) <==>
            && OneOf(row, "payment_path", {"Cash", "Credit", "Combined"})
            && OneOf(row, "preapproval_state", {"NotStarted", "InProgress", "Preapproved", "Denied", "NotApplicable"})
  {
    assert Choices(PurchaseProfile).Keys == {"payment_path", "preapproval_state"};
  }

  predicate RevisionTaken(revisions: seq<Revision>, k: Key, version: int) {
    exists r | r in revisions :: r.key == k && r.version == version
  }

  predicate ContributionTaken(contributions: seq<Contribution>, k: Key, version: int) {
    exists c | c in contributions :: c.key == k && c.version == version
  }

  predicate EventKeyTaken(contributions: seq<Contribution>, eventKey: string) {
    exists c | c in contributions :: c.eventKey == eventKey
  }

  // ------------------------------------------------------------------- triggers

  /** What `capture_market_source_revision` makes of NEW. */
  function Stamped(prior: Row, row: Row, now: int): Row {
    row.(version := prior.version + 1, updatedAt := now)
  }

  function RevisionOf(k: Key, prior: Row, stamped: Row, role: string, now: int): Revision {
    Revision(prior.organization, k, stamped.version, prior, stamped, role, now)
  }

  function ContributionOf(k: Key, row: Row, now: int): Contribution {
    Contribution(row.organization, k, row.version, EventKey(k.source, k.id, row.version), row,
                 Pending, 0, now)
  }

  /** The AFTER trigger: the three-column conflict is ignored, an event-key conflict aborts. */
  function Enqueue(l: Ledger, k: Key, row: Row, now: int): Option<Ledger> {
    var c := ContributionOf(k, row, now);
    if ContributionTaken(l.contributions, k, row.version) then Some(l)
    else if EventKeyTaken(l.contributions, c.eventKey) then None
    else Some(l.(contributions := l.contributions + [c]))
  }

  function Execute(l: Ledger, s: Statement): Option<Ledger> {
    match s
    case Insert(k, row, now) =>
      if k in l.rows || !Admissible(l.rows, k, row) || !FitsInteger(row.version) then None
      else Enqueue(l.(rows := l.rows[k := row]), k, row, now)
    case Update(k, row, role, now) =>
      if k !in l.rows then Some(l)
      else
        var prior := l.rows[k];
        var stamped := Stamped(prior, row, now);
        if || !FitsInteger(stamped.version)
           || RevisionTaken(l.revisions, k, stamped.version)
           || !Admissible(l.rows, k, stamped)
        then None
        else Enqueue(
          l.(rows := l.rows[k := stamped],
             revisions := l.revisions + [RevisionOf(k, prior, stamped, role, now)]),
          k, stamped, now)
    case Delete(k) => Some(l.(rows := l.rows - {k}))
  }

  /** An aborted statement leaves the database as it was. */
  function Step(l: Ledger, s: Statement): Ledger {
    match Execute(l, s)
    case None => l
    case Some(l') => l'
  }

  function Run(l: Ledger, statements: seq<Statement>): Ledger {
    if statements == [] then l
    else Step(Run(l, statements[..|statements| - 1]), statements[|statements| - 1])
  }

  // -------------------------------------------------------------------- history

  function RevisionsOf(revisions: seq<Revision>, k: Key): seq<Revision> {
    if revisions == [] then []
    else
      var rest, r := RevisionsOf(revisions[..|revisions| - 1], k), revisions[|revisions| - 1];
      if r.key == k then rest + [r] else rest
  }

  lemma {:induction false} InRevisionsOf(revisions: seq<Revision>, r: Revision, k: Key)
    ensures r in RevisionsOf(revisions, k) <==> r in revisions && r.key == k
  {
    if revisions != [] {
      InRevisionsOf(revisions[..|revisions| - 1], r, k);
    }
  }

  function ContributionsOf(contributions: seq<Contribution>, k: Key): seq<Contribution> {
    if contributions == [] then []
    else
      var rest, c := ContributionsOf(contributions[..|contributions| - 1], k), contributions[|contributions| - 1];
      if c.key == k then rest + [c] else rest
  }

  lemma {:induction false} InContributionsOf(contributions: seq<Contribution>, c: Contribution, k: Key)
    ensures c in ContributionsOf(contributions, k) <==> c in contributions && c.key == k
  {
    if contributions != [] {
      InContributionsOf(contributions[..|contributions| - 1], c, k);
    }
  }

  lemma RevisionsOfAppend(revisions: seq<Revision>, r: Revision, k: Key)
    ensures RevisionsOf(revisions + [r], k)
         == if r.key == k then RevisionsOf(revisions, k) + [r] else RevisionsOf(revisions, k)
  {
    assert (revisions + [r])[..|revisions|] == revisions;
  }

  lemma ContributionsOfAppend(contributions: seq<Contribution>, c: Contribution, k: Key)
    ensures ContributionsOf(contributions + [c], k)
         == if c.key == k then ContributionsOf(contributions, k) + [c] else ContributionsOf(contributions, k)
  {
    assert (contributions + [c])[..|contributions|] == contributions;
  }

  /** A contribution of the version, carrying its own payload. */
  predicate ContributionAt(c: Contribution, version: int) {
    && c.version == version
    && c.payload.version == version
    && c.organization == c.payload.organization
  }

  /** Revision `r` leads from contribution `before` to contribution `after`. */
  predicate Links(r: Revision, before: Contribution, after: Contribution) {
    && r.version == after.version
    && r.organization == before.organization
    && r.oldValues == before.payload
    && r.newValues == after.payload
  }

  predicate LinkAt(rs: seq<Revision>, cs: seq<Contribution>, i: int)
    requires |cs| == |rs| + 1 && 0 <= i < |rs|
  {
    Links(rs[i], cs[i], cs[i + 1])
  }

  predicate LinkedHistory(rs: seq<Revision>, cs: seq<Contribution>) {
    if cs == [] then rs == []
    else
      && |cs| == |rs| + 1
      && (forall i | 0 <= i < |cs| :: ContributionAt(cs[i], cs[0].version + i))
      && (forall i {:trigger LinkAt(rs, cs, i)} | 0 <= i < |rs| :: LinkAt(rs, cs, i))
  }

  ghost predicate Linked(l: Ledger, k: Key) {
    var rs, cs := RevisionsOf(l.revisions, k), ContributionsOf(l.contributions, k);
    && LinkedHistory(rs, cs)
    && (k in l.rows ==> cs != [] && l.rows[k] == cs[|cs| - 1].payload)
  }

  /** Every source's history is complete, linked, and ends at its current row. */
  ghost predicate Consistent(l: Ledger) {
    && Keyed(l.contributions)
    && forall k :: Linked(l, k)
  }

  predicate Keyed(contributions: seq<Contribution>) {
    forall c | c in contributions :: HasOwnKey(c)
  }

  predicate HasOwnKey(c: Contribution) {
    c.eventKey == EventKey(c.key.source, c.key.id, c.version)
  }

  /** An INSERT that succeeds names a source that never contributed before. */
  predicate NamesNewSource(l: Ledger, s: Statement) {
    s.Insert? && Execute(l, s).Some? ==> ContributionsOf(l.contributions, s.key) == []
  }

  predicate NeverReusesIds(l: Ledger, statements: seq<Statement>) {
    statements == [] ||
    (var n := |statements| - 1;
     NeverReusesIds(l, statements[..n]) && NamesNewSource(Run(l, statements[..n]), statements[n]))
  }

  // ------------------------------------------------------------------ invariant

  lemma LinkedVersionsAreKnown(l: Ledger, k: Key, version: int)
    requires Linked(l, k)
    ensures ContributionTaken(l.contributions, k, version) <==>
            (var cs := ContributionsOf(l.contributions, k);
             cs != [] && cs[0].version <= version < cs[0].version + |cs|)
  {
    var cs := ContributionsOf(l.contributions, k);
    if ContributionTaken(l.contributions, k, version) {
      var c :| c in l.contributions && c.key == k && c.version == version;
      InContributionsOf(l.contributions, c, k);
      var i :| 0 <= i < |cs| && cs[i] == c;
      assert ContributionAt(cs[i], cs[0].version + i);
    }
    if cs != [] && cs[0].version <= version < cs[0].version + |cs| {
      var i := version - cs[0].version;
      assert ContributionAt(cs[i], cs[0].version + i);
      InContributionsOf(l.contributions, cs[i], k);
    }
  }

  lemma ContributionOfVersion(l: Ledger, k: Key, version: int)
    requires Linked(l, k) && ContributionTaken(l.contributions, k, version)
    ensures var cs := ContributionsOf(l.contributions, k);
            && cs != [] && cs[0].version <= version < cs[0].version + |cs|
            && cs[version - cs[0].version] in l.contributions
            && cs[version - cs[0].version].version == version
            && forall c | c in l.contributions && c.key == k && c.version == version ::
                 c == cs[version - cs[0].version]
  {
    var cs := ContributionsOf(l.contributions, k);
    LinkedVersionsAreKnown(l, k, version);
    var i := version - cs[0].version;
    assert ContributionAt(cs[i], cs[0].version + i);
    InContributionsOf(l.contributions, cs[i], k);
    forall c | c in l.contributions && c.key == k && c.version == version ensures c == cs[i] {
      InContributionsOf(l.contributions, c, k);
      var j :| 0 <= j < |cs| && cs[j] == c;
      assert ContributionAt(cs[j], cs[0].version + j);
    }
  }

  /** The event-key uniqueness never decides anything the three-column key did not. */
  lemma EventKeyNeverConflicts(contributions: seq<Contribution>, k: Key, version: int)
    requires Keyed(contributions) && !ContributionTaken(contributions, k, version)
    ensures !EventKeyTaken(contributions, EventKey(k.source, k.id, version))
  {
    forall c | c in contributions ensures c.eventKey != EventKey(k.source, k.id, version) {
      assert HasOwnKey(c);
      if c.eventKey == EventKey(k.source, k.id, version) {
        EventKeyIsInjective(c.key.source, c.key.id, c.version, k.source, k.id, version);
      }
    }
  }

  lemma NextRevisionIsFree(l: Ledger, k: Key)
    requires Linked(l, k) && k in l.rows
    ensures !RevisionTaken(l.revisions, k, l.rows[k].version + 1)
    ensures !ContributionTaken(l.contributions, k, l.rows[k].version + 1)
  {
    var rs, cs := RevisionsOf(l.revisions, k), ContributionsOf(l.contributions, k);
    assert ContributionAt(cs[|cs| - 1], cs[0].version + (|cs| - 1));
    LinkedVersionsAreKnown(l, k, l.rows[k].version + 1);
    forall r | r in l.revisions && r.key == k ensures r.version != l.rows[k].version + 1 {
      InRevisionsOf(l.revisions, r, k);
      var i :| 0 <= i < |rs| && rs[i] == r;
      assert LinkAt(rs, cs, i);
      assert ContributionAt(cs[i + 1], cs[0].version + (i + 1));
    }
  }

  /**
   Which statements a consistent ledger accepts: exactly those whose id is free, where they
   insert, and that leave the source tables with their constraints. The unique keys of revisions
   and contributions refuse none of them.
   */
  lemma AcceptedExactlyWhen(l: Ledger, s: Statement)
    requires Consistent(l) && ConstraintsHold(l.rows)
    ensures Execute(l, s).Some? <==>
            match s
            case Insert(k, row, _) => k !in l.rows && ConstraintsHold(l.rows[k := row])
            case Update(k, row, _, now) =>
              k in l.rows ==>
                ConstraintsHold(l.rows[k := row.(version := l.rows[k].version + 1, updatedAt := now)])
            case Delete(_) => true
  {
    hide *;
    UniqueKeysRefuseNothing(l, s);
    match s
    case Insert(k, row, _) => AdmittedExactlyWhen(l.rows, k, row);
    case Update(k, row, _, now) =>
      if k in l.rows {
        AdmittedExactlyWhen(l.rows, k, row.(version := l.rows[k].version + 1, updatedAt := now));
      }
    case Delete(_) =>
  }

  /** Where two sources would share an event key, the statement is refused as a whole. */
  lemma EventKeyClashAborts(l: Ledger, k: Key, row: Row, now: int)
    requires !ContributionTaken(l.contributions, k, row.version)
    requires exists c :: c in l.contributions && c.eventKey == EventKey(k.source, k.id, row.version)
    ensures Execute(l, Insert(k, row, now)).None?
    ensures k in l.rows && l.rows[k].version + 1 == row.version ==>
              forall role :: Execute(l, Update(k, row, role, now)).None?
  {
    hide EventKey, Admissible;
  }

  lemma UniqueKeysRefuseNothing(l: Ledger, s: Statement)
    requires Consistent(l)
    ensures Execute(l, s).Some? <==>
            match s
            case Insert(k, row, _) => k !in l.rows && Admissible(l.rows, k, row) && FitsInteger(row.version)
            case Update(k, row, _, now) =>
              k in l.rows ==>
                var next := l.rows[k].version + 1;
                FitsInteger(next) && Admissible(l.rows, k, row.(version := next, updatedAt := now))
            case Delete(_) => true
  {
    assert s.key in l.rows ==> Linked(l, s.key);
    match s
    case Insert(k, row, _) =>
      if !ContributionTaken(l.contributions, k, row.version) {
        EventKeyNeverConflicts(l.contributions, k, row.version);
      }
    case Update(k, row, _, now) =>
      if k in l.rows {
        NextRevisionIsFree(l, k);
        EventKeyNeverConflicts(l.contributions, k, l.rows[k].version + 1);
      }
    case Delete(_) =>
  }

  lemma InsertAppends(l: Ledger, s: Statement)
    requires s.Insert? && Execute(l, s).Some? && !ContributionTaken(l.contributions, s.key, s.row.version)
    ensures Step(l, s) == Ledger(l.rows[s.key := s.row], l.revisions,
                                 l.contributions + [ContributionOf(s.key, s.row, s.now)])
  {
  }

  lemma InsertStartsHistory(l: Ledger, s: Statement)
    requires s.Insert? && Execute(l, s).Some? && Linked(l, s.key)
    requires ContributionsOf(l.contributions, s.key) == []
    ensures Linked(Step(l, s), s.key)
  {
    hide EventKey, Admissible;
    LinkedVersionsAreKnown(l, s.key, s.row.version);
    InsertAppends(l, s);
    var c := ContributionOf(s.key, s.row, s.now);
    ContributionsOfAppend(l.contributions, c, s.key);
    assert [] + [c] == [c] && ContributionAt(c, c.version + 0);
  }

  lemma InsertKeepsHistory(l: Ledger, s: Statement)
    requires Consistent(l) && s.Insert? && NamesNewSource(l, s)
    ensures Consistent(Step(l, s))
  {
    hide Admissible, EventKey;
    if Execute(l, s).Some? {
      assert Linked(l, s.key);
      InsertStartsHistory(l, s);
      LinkedVersionsAreKnown(l, s.key, s.row.version);
      InsertAppends(l, s);
      forall k ensures Linked(Step(l, s), k) {
        assert Linked(l, k);
        ContributionsOfAppend(l.contributions, ContributionOf(s.key, s.row, s.now), k);
      }
    }
  }

  lemma UpdateKeepsOneHistory(l: Ledger, s: Statement, k: Key)
    requires s.Update? && s.key in l.rows && Execute(l, s).Some?
    requires Linked(l, s.key) && Linked(l, k)
    ensures Linked(Step(l, s), k)
  {
    hide EventKey, Admissible, LinkedHistory, Step, Execute, RevisionsOf, ContributionsOf;
    var stamped := Stamped(l.rows[s.key], s.row, s.now);
    var r := RevisionOf(s.key, l.rows[s.key], stamped, s.role, s.now);
    var c := ContributionOf(s.key, stamped, s.now);
    assert r.key == s.key && c.key == s.key && c.payload == stamped;
    UpdateAppends(l, s);
    UpdateLinks(l, s);
    hide RevisionOf, ContributionOf, Stamped, ContributionAt, Links;
    RevisionsOfAppend(l.revisions, r, k);
    ContributionsOfAppend(l.contributions, c, k);
    if k == s.key {
      ExtendHistory(RevisionsOf(l.revisions, k), ContributionsOf(l.contributions, k), r, c);
    }
  }

  /** The new revision leads from the newest contribution to the new one. */
  lemma UpdateLinks(l: Ledger, s: Statement)
    requires s.Update? && s.key in l.rows && Linked(l, s.key)
    ensures var stamped := Stamped(l.rows[s.key], s.row, s.now);
            var cs := ContributionsOf(l.contributions, s.key);
            var c := ContributionOf(s.key, stamped, s.now);
            && cs != [] && ContributionAt(c, cs[|cs| - 1].version + 1)
            && Links(RevisionOf(s.key, l.rows[s.key], stamped, s.role, s.now), cs[|cs| - 1], c)
  {
    hide EventKey, RevisionsOf, ContributionsOf;
    var cs := ContributionsOf(l.contributions, s.key);
    assert ContributionAt(cs[|cs| - 1], cs[0].version + (|cs| - 1));
  }

  lemma UpdateAppends(l: Ledger, s: Statement)
    requires s.Update? && s.key in l.rows && Execute(l, s).Some? && Linked(l, s.key)
    ensures var stamped := Stamped(l.rows[s.key], s.row, s.now);
            Step(l, s) == Ledger(l.rows[s.key := stamped],
                                 l.revisions + [RevisionOf(s.key, l.rows[s.key], stamped, s.role, s.now)],
                                 l.contributions + [ContributionOf(s.key, stamped, s.now)])
  {
    hide EventKey, Admissible, LinkedHistory, RevisionsOf, ContributionsOf;
    NextRevisionIsFree(l, s.key);
  }

  lemma UpdateKeepsHistory(l: Ledger, s: Statement)
    requires Consistent(l) && s.Update?
    ensures Consistent(Step(l, s))
  {
    hide LinkedHistory, Admissible, EventKey;
    if s.key in l.rows && Execute(l, s).Some? {
      forall k ensures Linked(Step(l, s), k) {
        assert Linked(l, s.key) && Linked(l, k);
        UpdateKeepsOneHistory(l, s, k);
      }
    }
  }

  lemma ExtendHistory(rs: seq<Revision>, cs: seq<Contribution>, r: Revision, c: Contribution)
    requires LinkedHistory(rs, cs) && cs != []
    requires ContributionAt(c, cs[|cs| - 1].version + 1)
    requires Links(r, cs[|cs| - 1], c)
    ensures LinkedHistory(rs + [r], cs + [c])
  {
    assert ContributionAt(cs[|cs| - 1], cs[0].version + (|cs| - 1));
    var rs', cs' := rs + [r], cs + [c];
    forall i | 0 <= i < |cs'| ensures ContributionAt(cs'[i], cs'[0].version + i) {
      if i < |cs| { assert ContributionAt(cs[i], cs[0].version + i); }
    }
    forall i | 0 <= i < |rs'| ensures LinkAt(rs', cs', i) {
      if i < |rs| { assert LinkAt(rs, cs, i); }
    }
  }

  lemma StepKeepsHistory(l: Ledger, s: Statement)
    requires Consistent(l) && NamesNewSource(l, s)
    ensures Consistent(Step(l, s))
  {
    match s
    case Insert(_, _, _) => InsertKeepsHistory(l, s);
    case Update(_, _, _, _) => UpdateKeepsHistory(l, s);
    case Delete(_) =>
      forall k ensures Linked(Step(l, s), k) { assert Linked(l, k); }
  }

  /** Over every run that never reuses a deleted id, every source keeps its whole history. */
  lemma {:induction false} RunKeepsHistory(statements: seq<Statement>)
    requires NeverReusesIds(EMPTY, statements)
    ensures Consistent(Run(EMPTY, statements))
  {
    if statements == [] {
      forall k ensures Linked(EMPTY, k) {}
    } else {
      RunKeepsHistory(statements[..|statements| - 1]);
      StepKeepsHistory(Run(EMPTY, statements[..|statements| - 1]), statements[|statements| - 1]);
    }
  }

  /** The rows after a statement: as they were, with one admissible row stored, or with one removed. */
  lemma RowsAfterStep(l: Ledger, s: Statement)
    ensures var rows := Step(l, s).rows;
            || rows == l.rows
            || (s.Delete? && rows == l.rows - {s.key})
            || (!s.Delete? && s.key in rows && rows == l.rows[s.key := rows[s.key]]
                && Admissible(l.rows, s.key, rows[s.key]) && FitsInteger(rows[s.key].version))
  {
    hide EventKey, Admissible, FitsInteger, ContributionTaken, EventKeyTaken, RevisionTaken;
  }

  lemma StepKeepsConstraints(l: Ledger, s: Statement)
    requires ConstraintsHold(l.rows)
    ensures ConstraintsHold(Step(l, s).rows)
  {
    RowsAfterStep(l, s);
    hide RowChecks, Independent, Step, Admissible;
    var rows := Step(l, s).rows;
    if rows != l.rows && !s.Delete? {
      AdmittedExactlyWhen(l.rows, s.key, rows[s.key]);
      hide ConstraintsHold;
    }
  }

  /**
   After any run, ids reused or not: two sales, or two profiles, of one Organization never share
   an opportunity or a journey, every value is in range, and a completed sale has its property,
   date, price and author.
   */
  lemma {:induction false} TablesKeepTheirConstraints(statements: seq<Statement>, j: Key, k: Key)
    requires j in Run(EMPTY, statements).rows && k in Run(EMPTY, statements).rows
    ensures var rows := Run(EMPTY, statements).rows;
            && (j != k && j.source == k.source && rows[j].organization == rows[k].organization ==>
                  forall n | n in {"opportunity_id", "journey_id"} ::
                    Column(rows[j], n) == Column(rows[k], n) ==> Column(rows[k], n) == Null)
            && InRange(k.source, rows[k])
            && (k.source == MarketSaleRecord && Column(rows[k], "state") == Text("Completed") ==>
                  forall n | n in {"property_uuid", "property_type", "municipality", "completion_date", "paid_price",
                                   "paid_currency", "completed_by", "completed_at"} :: Column(rows[k], n) != Null)
  {
    hide Step, RowChecks, InRange;
    RunKeepsConstraints(statements);
    ChecksOnColumns(k.source, Run(EMPTY, statements).rows[k]);
    if j != k { assert Independent(j, Run(EMPTY, statements).rows[j], k, Run(EMPTY, statements).rows[k]); }
  }

  lemma {:induction false} RunKeepsConstraints(statements: seq<Statement>)
    ensures ConstraintsHold(Run(EMPTY, statements).rows)
  {
    hide Step, RowChecks;
    if statements != [] {
      RunKeepsConstraints(statements[..|statements| - 1]);
      StepKeepsConstraints(Run(EMPTY, statements[..|statements| - 1]), statements[|statements| - 1]);
    }
  }

  // ------------------------------------------------- what the statements wrote

  /** INSERT stores the row as sent, under its own key, and hands it on at version and instant sent. */
  lemma InsertStoresWhatWasSent(l: Ledger, k: Key, row: Row, now: int)
    requires Consistent(l) && Execute(l, Insert(k, row, now)).Some? && ContributionsOf(l.contributions, k) == []
    ensures var l' := Execute(l, Insert(k, row, now)).value;
            && k !in l.rows && l'.rows.Keys == l.rows.Keys + {k} && l'.rows[k] == row
            && (forall j | j in l.rows :: l'.rows[j] == l.rows[j])
            && l'.revisions == l.revisions
            && |l'.contributions| == |l.contributions| + 1 && l'.contributions[..|l.contributions|] == l.contributions
            && NewContribution(l'.contributions[|l.contributions|], k, row, now)
  {
    hide EventKey, Admissible;
    assert Linked(l, k);
    LinkedVersionsAreKnown(l, k, row.version);
    InsertAppends(l, Insert(k, row, now));
  }

  /** A fresh request to project the stored row: never attempted, dated when it was written. */
  predicate NewContribution(c: Contribution, k: Key, stored: Row, now: int) {
    && c.key == k && c.organization == stored.organization && c.version == stored.version && c.payload == stored
    && c.state == Pending && c.attempts == 0 && c.createdAt == now
  }

  /**
   UPDATE of a stored key: the new row has what the writer sent, but for the version, which is
   one more than the old row's, and the timestamp. Every other key keeps its row. The revision
   names the writer's role and instant and holds the row before and after.
   */
  lemma UpdateStoresWhatWasSent(l: Ledger, k: Key, row: Row, role: string, now: int)
    requires Consistent(l) && k in l.rows && Execute(l, Update(k, row, role, now)).Some?
    ensures var l' := Execute(l, Update(k, row, role, now)).value;
            && l'.rows.Keys == l.rows.Keys
            && l'.rows[k].organization == row.organization && l'.rows[k].columns == row.columns
            && l'.rows[k].version == l.rows[k].version + 1 && l'.rows[k].updatedAt == now
            && (forall j | j in l.rows && j != k :: l'.rows[j] == l.rows[j])
            && |l'.revisions| == |l.revisions| + 1 && l'.revisions[..|l.revisions|] == l.revisions
            && NewRevision(l'.revisions[|l.revisions|], k, l.rows[k], l'.rows[k], role, now)
            && |l'.contributions| == |l.contributions| + 1 && l'.contributions[..|l.contributions|] == l.contributions
            && NewContribution(l'.contributions[|l.contributions|], k, l'.rows[k], now)
  {
    hide EventKey, Admissible, Execute;
    assert Linked(l, k);
    UpdateAppends(l, Update(k, row, role, now));
  }

  predicate NewRevision(r: Revision, k: Key, before: Row, after: Row, role: string, now: int) {
    && r.key == k && r.organization == before.organization && r.version == after.version
    && r.oldValues == before && r.newValues == after && r.databaseRole == role && r.changedAt == now
  }

  /** The statement was accepted and stored a row under `k`. */
  predicate Stores(l: Ledger, s: Statement, k: Key) {
    && s.key == k && !s.Delete? && Execute(l, s).Some?
    && (s.Update? ==> k in l.rows)
  }

  /** The statements of a run that stored a row under `k`, in order. */
  function WritesOf(statements: seq<Statement>, k: Key): (ws: seq<Statement>)
    ensures forall w | w in ws :: !w.Delete?
  {
    if statements == [] then []
    else
      var n := |statements| - 1;
      var earlier := statements[..n];
      WritesOf(earlier, k) + if Stores(Run(EMPTY, earlier), statements[n], k) then [statements[n]] else []
  }

  /** The row that write `i` of a source leaves: as sent, but for the version and timestamp of an UPDATE. */
  predicate RowOfWrite(row: Row, ws: seq<Statement>, i: nat)
    requires i < |ws| && forall w | w in ws :: !w.Delete?
  {
    && row.organization == ws[i].row.organization && row.columns == ws[i].row.columns
    && row.version == ws[0].row.version + i
    && row.updatedAt == if i == 0 then ws[0].row.updatedAt else ws[i].now
  }

  predicate ContributionOfWrite(c: Contribution, ws: seq<Statement>, i: nat)
    requires i < |ws| && forall w | w in ws :: !w.Delete?
  {
    && RowOfWrite(c.payload, ws, i) && c.organization == ws[i].row.organization
    && c.state == Pending && c.attempts == 0 && c.createdAt == ws[i].now
  }

  /** The revision leads from write `i` to the next, and names the next one's role and instant. */
  predicate RevisionOfWrite(r: Revision, ws: seq<Statement>, i: nat)
    requires i + 1 < |ws| && forall w | w in ws :: !w.Delete?
  {
    && RowOfWrite(r.oldValues, ws, i) && RowOfWrite(r.newValues, ws, i + 1)
    && ws[i + 1].Update? && r.databaseRole == ws[i + 1].role && r.changedAt == ws[i + 1].now
  }

  /** The contributions and revisions of a source tell its writes one by one. */
  predicate Tells(rs: seq<Revision>, cs: seq<Contribution>, ws: seq<Statement>)
    requires forall w | w in ws :: !w.Delete?
  {
    && |cs| == |ws| && |rs| == (if ws == [] then 0 else |ws| - 1)
    && (forall i | 0 <= i < |cs| :: ContributionOfWrite(cs[i], ws, i))
    && (forall i | 0 <= i < |rs| :: RevisionOfWrite(rs[i], ws, i))
  }

  lemma WrittenElsewhere(l: Ledger, s: Statement, k: Key)
    requires Consistent(l) && NamesNewSource(l, s) && !Stores(l, s, k)
    ensures RevisionsOf(Step(l, s).revisions, k) == RevisionsOf(l.revisions, k)
    ensures ContributionsOf(Step(l, s).contributions, k) == ContributionsOf(l.contributions, k)
  {
    hide EventKey, Admissible, Execute;
    if Stores(l, s, s.key) {
      var l' := Step(l, s);
      if s.Insert? {
        InsertStoresWhatWasSent(l, s.key, s.row, s.now);
      } else {
        UpdateStoresWhatWasSent(l, s.key, s.row, s.role, s.now);
        RevisionsOfAppend(l.revisions, l'.revisions[|l.revisions|], k);
        assert l'.revisions == l.revisions + [l'.revisions[|l.revisions|]];
      }
      ContributionsOfAppend(l.contributions, l'.contributions[|l.contributions|], k);
      assert l'.contributions == l.contributions + [l'.contributions[|l.contributions|]];
    } else {
      NothingStored(l, s);
    }
  }

  lemma NothingStored(l: Ledger, s: Statement)
    requires !Stores(l, s, s.key)
    ensures Step(l, s).revisions == l.revisions && Step(l, s).contributions == l.contributions
  {
    hide EventKey, Admissible;
  }

  /** The first write of a source starts its history. */
  lemma FirstWriteIsTold(l: Ledger, s: Statement, k: Key)
    requires Consistent(l) && NamesNewSource(l, s) && Stores(l, s, k) && ContributionsOf(l.contributions, k) == []
    ensures Tells(RevisionsOf(Step(l, s).revisions, k), ContributionsOf(Step(l, s).contributions, k), [s])
  {
    hide EventKey, Admissible, Execute;
    assert Linked(l, k);
    InsertStoresWhatWasSent(l, k, s.row, s.now);
    var l' := Step(l, s);
    var c := l'.contributions[|l.contributions|];
    assert l'.contributions == l.contributions + [c];
    ContributionsOfAppend(l.contributions, c, k);
  }

  /** A later write extends it by one revision and one contribution. */
  lemma NextWriteIsTold(l: Ledger, s: Statement, k: Key, ws: seq<Statement>)
    requires Consistent(l) && NamesNewSource(l, s) && Stores(l, s, k) && ContributionsOf(l.contributions, k) != []
    requires forall w | w in ws :: !w.Delete?
    requires Tells(RevisionsOf(l.revisions, k), ContributionsOf(l.contributions, k), ws)
    ensures Tells(RevisionsOf(Step(l, s).revisions, k), ContributionsOf(Step(l, s).contributions, k), ws + [s])
  {
    hide EventKey, Admissible, Execute, Tells, LinkedHistory, RevisionsOf, ContributionsOf;
    assert Linked(l, k);
    UpdateStoresWhatWasSent(l, k, s.row, s.role, s.now);
    var l' := Step(l, s);
    hide Step, Stores, Linked, Consistent, NamesNewSource;
    var r, c := l'.revisions[|l.revisions|], l'.contributions[|l.contributions|];
    assert l'.revisions == l.revisions + [r] && l'.contributions == l.contributions + [c];
    assert r.key == k && c.key == k;
    hide NewRevision, NewContribution;
    RevisionsOfAppend(l.revisions, r, k);
    ContributionsOfAppend(l.contributions, c, k);
    TellsOneMore(RevisionsOf(l.revisions, k), ContributionsOf(l.contributions, k), ws, r, c, s, k, l'.rows[k]);
  }

  lemma TellsOneMore(rs: seq<Revision>, cs: seq<Contribution>, ws: seq<Statement>, r: Revision, c: Contribution,
        s: Statement, k: Key, after: Row)
    requires cs != [] && s.Update? && forall w | w in ws :: !w.Delete?
    requires Tells(rs, cs, ws)
    requires var before := cs[|cs| - 1].payload;
             && NewRevision(r, k, before, after, s.role, s.now) && NewContribution(c, k, after, s.now)
             && after.organization == s.row.organization && after.columns == s.row.columns
             && after.version == before.version + 1 && after.updatedAt == s.now
    ensures Tells(rs + [r], cs + [c], ws + [s])
  {
    var ws' := ws + [s];
    assert forall i | 0 <= i < |ws| :: ws'[i] == ws[i];
    assert ContributionOfWrite(cs[|cs| - 1], ws, |ws| - 1);
    forall i | 0 <= i < |ws'| ensures ContributionOfWrite((cs + [c])[i], ws', i) {
      if i < |ws| { assert ContributionOfWrite(cs[i], ws, i); }
    }
    forall i | 0 <= i <= |rs| ensures RevisionOfWrite((rs + [r])[i], ws', i) {
      if i < |rs| { assert RevisionOfWrite(rs[i], ws, i); }
    }
  }

  /**
   Over every run without reused ids, what each source keeps is what was written: one
   contribution for each write, with the columns and Organization sent, in order; one revision
   for each write after the first, with its role and instant; and the current row, if any, is
   the last write's.
   */
  lemma {:induction false} HistoryTellsItsWrites(statements: seq<Statement>, k: Key)
    requires NeverReusesIds(EMPTY, statements)
    ensures var l, ws := Run(EMPTY, statements), WritesOf(statements, k);
            && Tells(RevisionsOf(l.revisions, k), ContributionsOf(l.contributions, k), ws)
            && (k in l.rows ==> ws != [] && RowOfWrite(l.rows[k], ws, |ws| - 1))
  {
    hide Step, Execute, Tells, Stores, Consistent, NamesNewSource, RowOfWrite, ContributionsOf, RevisionsOf;
    RunKeepsHistory(statements);
    if statements == [] {
      NothingIsTold(k);
    } else {
      var n := |statements| - 1;
      RunKeepsHistory(statements[..n]);
      HistoryTellsItsWrites(statements[..n], k);
      WriteIsTold(Run(EMPTY, statements[..n]), statements[n], k, WritesOf(statements[..n], k));
    }
    CurrentRowIsTold(Run(EMPTY, statements), k, WritesOf(statements, k));
  }

  lemma NothingIsTold(k: Key)
    ensures Tells(RevisionsOf([], k), ContributionsOf([], k), [])
  {
  }

  lemma WriteIsTold(l: Ledger, s: Statement, k: Key, ws: seq<Statement>)
    requires Consistent(l) && NamesNewSource(l, s) && forall w | w in ws :: !w.Delete?
    requires Tells(RevisionsOf(l.revisions, k), ContributionsOf(l.contributions, k), ws)
    ensures Stores(l, s, k) ==> !s.Delete?
    ensures Tells(RevisionsOf(Step(l, s).revisions, k), ContributionsOf(Step(l, s).contributions, k),
                  ws + if Stores(l, s, k) then [s] else [])
  {
    hide Step, Execute, Tells, Consistent, NamesNewSource, ContributionsOf, RevisionsOf;
    if !Stores(l, s, k) {
      WrittenElsewhere(l, s, k);
      assert ws + [] == ws;
    } else if ContributionsOf(l.contributions, k) == [] {
      EmptyTells(RevisionsOf(l.revisions, k), ws);
      FirstWriteIsTold(l, s, k);
      assert [] + [s] == [s];
    } else {
      NextWriteIsTold(l, s, k, ws);
    }
  }

  lemma EmptyTells(rs: seq<Revision>, ws: seq<Statement>)
    requires (forall w | w in ws :: !w.Delete?) && Tells(rs, [], ws)
    ensures ws == []
  {
  }

  lemma CurrentRowIsTold(l: Ledger, k: Key, ws: seq<Statement>)
    requires Consistent(l) && (forall w | w in ws :: !w.Delete?)
    requires Tells(RevisionsOf(l.revisions, k), ContributionsOf(l.contributions, k), ws)
    ensures k in l.rows ==> ws != [] && RowOfWrite(l.rows[k], ws, |ws| - 1)
  {
    assert Linked(l, k);
    if k in l.rows { assert ContributionOfWrite(ContributionsOf(l.contributions, k)[|ws| - 1], ws, |ws| - 1); }
  }

  // ----------------------------------------------------- what the history means

  function CountRevisions(revisions: seq<Revision>, k: Key, version: int): nat {
    if revisions == [] then 0
    else
      var r := revisions[|revisions| - 1];
      CountRevisions(revisions[..|revisions| - 1], k, version)
      + if r.key == k && r.version == version then 1 else 0
  }

  function CountContributions(contributions: seq<Contribution>, k: Key, version: int): nat {
    if contributions == [] then 0
    else
      var c := contributions[|contributions| - 1];
      CountContributions(contributions[..|contributions| - 1], k, version)
      + if c.key == k && c.version == version then 1 else 0
  }

  lemma {:induction false} CountRevisionsOfOne(revisions: seq<Revision>, k: Key, version: int)
    ensures CountRevisions(revisions, k, version) == CountRevisions(RevisionsOf(revisions, k), k, version)
  {
    if revisions != [] {
      var rest, r := revisions[..|revisions| - 1], revisions[|revisions| - 1];
      CountRevisionsOfOne(rest, k, version);
      var rs := RevisionsOf(rest, k);
      assert (rs + [r])[..|rs|] == rs;
    }
  }

  lemma {:induction false} CountContributionsOfOne(contributions: seq<Contribution>, k: Key, version: int)
    ensures CountContributions(contributions, k, version)
         == CountContributions(ContributionsOf(contributions, k), k, version)
  {
    if contributions != [] {
      var rest, c := contributions[..|contributions| - 1], contributions[|contributions| - 1];
      CountContributionsOfOne(rest, k, version);
      var cs := ContributionsOf(rest, k);
      assert (cs + [c])[..|cs|] == cs;
    }
  }

  lemma {:induction false} CountDenseRevisions(rs: seq<Revision>, k: Key, first: int, version: int)
    requires forall i | 0 <= i < |rs| :: rs[i].key == k && rs[i].version == first + i
    ensures CountRevisions(rs, k, version) == if first <= version < first + |rs| then 1 else 0
  {
    if rs != [] {
      CountDenseRevisions(rs[..|rs| - 1], k, first, version);
    }
  }

  lemma {:induction false} CountDenseContributions(cs: seq<Contribution>, k: Key, first: int, version: int)
    requires forall i | 0 <= i < |cs| :: cs[i].key == k && cs[i].version == first + i
    ensures CountContributions(cs, k, version) == if first <= version < first + |cs| then 1 else 0
  {
    if cs != [] {
      CountDenseContributions(cs[..|cs| - 1], k, first, version);
    }
  }

  /**
   A row at version n whose source began at v0 has exactly one contribution for each of
   v0..n and exactly one revision for each of v0+1..n, and none for any other version.
   */
  lemma ExactlyOnePerVersion(l: Ledger, k: Key, version: int)
    requires Consistent(l) && k in l.rows
    ensures ContributionsOf(l.contributions, k) != []
    ensures var first := ContributionsOf(l.contributions, k)[0].version;
            && CountContributions(l.contributions, k, version)
               == (if first <= version <= l.rows[k].version then 1 else 0)
            && CountRevisions(l.revisions, k, version)
               == (if first < version <= l.rows[k].version then 1 else 0)
  {
    hide EventKey;
    assert Linked(l, k);
    var rs, cs := RevisionsOf(l.revisions, k), ContributionsOf(l.contributions, k);
    assert ContributionAt(cs[|cs| - 1], cs[0].version + (|cs| - 1));
    forall i | 0 <= i < |rs| ensures rs[i].key == k && rs[i].version == cs[0].version + 1 + i {
      InRevisionsOf(l.revisions, rs[i], k);
      assert LinkAt(rs, cs, i);
      assert ContributionAt(cs[i + 1], cs[0].version + (i + 1));
    }
    forall i | 0 <= i < |cs| ensures cs[i].key == k && cs[i].version == cs[0].version + i {
      InContributionsOf(l.contributions, cs[i], k);
      assert ContributionAt(cs[i], cs[0].version + i);
    }
    CountRevisionsOfOne(l.revisions, k, version);
    CountContributionsOfOne(l.contributions, k, version);
    CountDenseRevisions(rs, k, cs[0].version + 1, version);
    CountDenseContributions(cs, k, cs[0].version, version);
  }

  /** Applies revisions in order; fails when one does not start at the current values. */
  function Replay(start: Row, revisions: seq<Revision>): Option<Row> {
    if revisions == [] then Some(start)
    else
      match Replay(start, revisions[..|revisions| - 1])
      case None => None
      case Some(row) =>
        var r := revisions[|revisions| - 1];
        if r.oldValues == row && r.newValues.version == row.version + 1 then Some(r.newValues) else None
  }

  lemma {:induction false} ReplayHistory(rs: seq<Revision>, cs: seq<Contribution>, n: nat)
    requires LinkedHistory(rs, cs) && n <= |rs| && cs != []
    ensures Replay(cs[0].payload, rs[..n]) == Some(cs[n].payload)
  {
    if n > 0 {
      ReplayHistory(rs, cs, n - 1);
      assert rs[..n][..n - 1] == rs[..n - 1];
      assert LinkAt(rs, cs, n - 1);
      assert ContributionAt(cs[n - 1], cs[0].version + (n - 1));
      assert ContributionAt(cs[n], cs[0].version + n);
    } else {
      assert rs[..0] == [];
    }
  }

  /** The revisions alone rebuild the current row from the first contribution. */
  lemma ReplayRebuildsCurrentRow(l: Ledger, k: Key)
    requires Consistent(l) && k in l.rows
    ensures ContributionsOf(l.contributions, k) != []
    ensures Replay(ContributionsOf(l.contributions, k)[0].payload, RevisionsOf(l.revisions, k)) == Some(l.rows[k])
  {
    assert Linked(l, k);
    var rs, cs := RevisionsOf(l.revisions, k), ContributionsOf(l.contributions, k);
    ReplayHistory(rs, cs, |rs|);
    assert rs[..|rs|] == rs;
  }

  /** The version a writer supplies on UPDATE is irrelevant: the BEFORE trigger owns it. */
  lemma {:induction false} SuppliedVersionIsIgnored(l: Ledger, k: Key, row: Row, role: string, now: int, supplied: int,
        at: int)
    ensures Execute(l, Update(k, row.(version := supplied, updatedAt := at), role, now))
         == Execute(l, Update(k, row, role, now))
  {
    if k in l.rows {
      var other := row.(version := supplied, updatedAt := at);
      assert Stamped(l.rows[k], other, now) == Stamped(l.rows[k], row, now);
    }
  }

  // ------------------------------------------------------------- reused row ids

  /** The current row was handed to the projection exactly as it stands. */
  ghost predicate Contributed(l: Ledger, k: Key)
    requires k in l.rows
  {
    exists c :: c in l.contributions && c.key == k && c.version == l.rows[k].version && c.payload == l.rows[k]
  }

  lemma StepKeepsKeyed(l: Ledger, s: Statement)
    requires Keyed(l.contributions)
    ensures Keyed(Step(l, s).contributions)
  {
    hide EventKey, Admissible;
    var l' := Step(l, s);
    forall c | c in l'.contributions ensures HasOwnKey(c) {
      if c in l.contributions { assert HasOwnKey(c); }
    }
  }

  lemma {:induction false} RunIsKeyed(statements: seq<Statement>)
    ensures Keyed(Run(EMPTY, statements).contributions)
  {
    if statements != [] {
      RunIsKeyed(statements[..|statements| - 1]);
      StepKeepsKeyed(Run(EMPTY, statements[..|statements| - 1]), statements[|statements| - 1]);
      hide Step, Keyed;
    }
  }

  /**
   After any run, ids reused or not: an INSERT is contributed if and only if its version was
   never contributed for that id, or was contributed with the very same row. Otherwise the
   conflict clause drops its contribution in silence.
   */
  lemma ReusedIdIsContributedExactlyWhen(statements: seq<Statement>, k: Key, row: Row, now: int)
    requires var l := Run(EMPTY, statements); k !in l.rows && Execute(l, Insert(k, row, now)).Some?
    ensures var l := Run(EMPTY, statements);
            var l' := Step(l, Insert(k, row, now));
            k in l'.rows &&
            (Contributed(l', k) <==>
               || !ContributionTaken(l.contributions, k, row.version)
               || exists c :: c in l.contributions && c.key == k && c.version == row.version && c.payload == row)
  {
    hide EventKey, Admissible, Run;
    var l := Run(EMPTY, statements);
    if !ContributionTaken(l.contributions, k, row.version) {
      InsertAppends(l, Insert(k, row, now));
      assert ContributionOf(k, row, now) in Step(l, Insert(k, row, now)).contributions;
    }
  }

  lemma {:induction false} RevisionVersions(l: Ledger, k: Key, version: int)
    requires Linked(l, k)
    ensures var cs := ContributionsOf(l.contributions, k);
            RevisionTaken(l.revisions, k, version) <==> cs != [] && cs[0].version < version <= cs[|cs| - 1].version
  {
    var rs, cs := RevisionsOf(l.revisions, k), ContributionsOf(l.contributions, k);
    if cs != [] { assert ContributionAt(cs[|cs| - 1], cs[0].version + (|cs| - 1)); }
    if r :| r in l.revisions && r.key == k && r.version == version {
      InRevisionsOf(l.revisions, r, k);
      var i :| 0 <= i < |rs| && rs[i] == r;
      assert LinkAt(rs, cs, i);
      assert ContributionAt(cs[i + 1], cs[0].version + (i + 1));
    }
    if cs != [] && cs[0].version < version <= cs[|cs| - 1].version {
      var i := version - cs[0].version - 1;
      assert LinkAt(rs, cs, i);
      assert ContributionAt(cs[i + 1], cs[0].version + (i + 1));
      InRevisionsOf(l.revisions, rs[i], k);
    }
  }

  /**
   The harsher failure: an id reused inside its old history is frozen. An UPDATE of the new
   row is refused, by the revision key, if and only if the reinserted version lies in the old
   history before its last version.
   */
  lemma ReusedIdIsFrozenExactlyWhen(l: Ledger, k: Key, row: Row, now: int, next: Row, role: string, later: int)
    requires Keyed(l.contributions) && Linked(l, k) && k !in l.rows
    requires Execute(l, Insert(k, row, now)).Some?
    requires var l' := Step(l, Insert(k, row, now));
             FitsInteger(row.version + 1) && Admissible(l'.rows, k, Stamped(row, next, later))
    ensures var l' := Step(l, Insert(k, row, now));
            var cs := ContributionsOf(l.contributions, k);
            Execute(l', Update(k, next, role, later)).None? <==>
              cs != [] && cs[0].version <= row.version < cs[|cs| - 1].version
  {
    hide EventKey, Admissible, LinkedHistory, Keyed;
    var l' := Step(l, Insert(k, row, now));
    assert l'.rows[k] == row && l'.revisions == l.revisions;
    RevisionVersions(l, k, row.version + 1);
    StepKeepsKeyed(l, Insert(k, row, now));
    if !ContributionTaken(l'.contributions, k, row.version + 1) {
      EventKeyNeverConflicts(l'.contributions, k, row.version + 1);
    }
    hide Linked, RevisionTaken, ContributionTaken, EventKeyTaken, ContributionsOf;
  }

  /** Such a row refuses every later UPDATE, so it stays as it was inserted until it is deleted. */
  lemma {:induction false} FrozenRowStays(l: Ledger, k: Key, updates: seq<Statement>)
    requires k in l.rows && RevisionTaken(l.revisions, k, l.rows[k].version + 1)
    requires forall i | 0 <= i < |updates| :: updates[i].Update? && updates[i].key == k
    ensures Run(l, updates) == l
  {
    hide Admissible, RevisionTaken;
    if updates != [] {
      FrozenRowStays(l, k, updates[..|updates| - 1]);
    }
  }

  function Paid(organization: Uuid, path: string): Row {
    Row(organization, map["payment_path" := Text(path)], 0, 1)
  }

  lemma PaidIsAdmissible(id: Uuid, organization: Uuid, path: string)
    requires path in {"Cash", "Credit"}
    ensures Admissible(map[], Key(PurchaseProfile, id), Paid(organization, path))
  {
  }

  /** A concrete run in which a reused id leaves its new row without a contribution. */
  lemma ReusedIdCanLoseItsContribution(id: Uuid, organization: Uuid)
    ensures var k, first, second := Key(PurchaseProfile, id), Paid(organization, "Cash"), Paid(organization, "Credit");
            var l := Run(EMPTY, [Insert(k, first, 1), Delete(k), Insert(k, second, 2)]);
            k in l.rows && l.rows[k] == second && !Contributed(l, k)
  {
    var k, first, second := Key(PurchaseProfile, id), Paid(organization, "Cash"), Paid(organization, "Credit");
    PaidIsAdmissible(id, organization, "Cash");
    PaidIsAdmissible(id, organization, "Credit");
    assert Text("Cash") != Text("Credit") && first.columns["payment_path"] != second.columns["payment_path"];
    assert first.version == second.version == 1;
    hide Admissible, Paid, EventKey;
    ReinsertedRowIsUncontributed(k, first, second);
  }

  lemma ReinsertedRowIsUncontributed(k: Key, first: Row, second: Row)
    requires Admissible(map[], k, first) && Admissible(map[], k, second)
    requires first.version == second.version == 1 && first != second
    ensures var l := Run(EMPTY, [Insert(k, first, 1), Delete(k), Insert(k, second, 2)]);
            k in l.rows && l.rows[k] == second && !Contributed(l, k)
  {
    hide Admissible, EventKey;
    var ss := [Insert(k, first, 1), Delete(k), Insert(k, second, 2)];
    assert ss[..2] == [Insert(k, first, 1), Delete(k)] && ss[..2][..1] == [Insert(k, first, 1)];
    assert ss[..2][..1][..0] == [];
    assert Run(EMPTY, []) == EMPTY;
    var c := ContributionOf(k, first, 1);
    assert Run(EMPTY, ss[..2][..1]) == EMPTY.(rows := map[k := first], contributions := [c]);
    var l2 := Run(EMPTY, ss[..2]);
    assert l2.contributions == [c] && l2.rows == map[];
    assert c in l2.contributions && ContributionTaken(l2.contributions, k, 1);
  }

  // ------------------------------------------------------------ the live tables

  class MarketStore {
    var rows: map<Key, Row>
    var revisions: seq<Revision>
    var contributions: seq<Contribution>

    function Contents(): Ledger
      reads this
    {
      Ledger(rows, revisions, contributions)
    }

    constructor ()
      ensures Contents() == EMPTY
    {
      rows, revisions, contributions := map[], [], [];
    }

    /** BEFORE UPDATE: forces the version and appends the revision. */
    method CaptureMarketSourceRevision(k: Key, prior: Row, row: Row, role: string, now: int)
      returns (stamped: Row, ok: bool)
      modifies this`revisions
      ensures stamped == Stamped(prior, row, now)
      ensures ok <==> FitsInteger(stamped.version) && !RevisionTaken(old(revisions), k, stamped.version)
      ensures revisions == old(revisions) + if ok then [RevisionOf(k, prior, stamped, role, now)] else []
    {
      stamped := row.(version := prior.version + 1);
      stamped := stamped.(updatedAt := now);
      ok := FitsInteger(stamped.version) && !RevisionTaken(revisions, k, stamped.version);
      if ok {
        revisions := revisions + [Revision(prior.organization, k, stamped.version, prior, stamped, role, now)];
      }
    }

    /** AFTER INSERT OR UPDATE: appends the contribution unless its version is taken. */
    method EnqueueMarketContribution(k: Key, row: Row, now: int) returns (ok: bool)
      modifies this`contributions
      ensures ok <==> Enqueue(old(Contents()), k, row, now).Some?
      ensures ok ==> Contents() == Enqueue(old(Contents()), k, row, now).value
      ensures !ok ==> contributions == old(contributions)
    {
      var eventKey := SourceName(k.source) + ":" + k.id + ":" + Decimal(row.version);
      if ContributionTaken(contributions, k, row.version) {
        return true;
      }
      if EventKeyTaken(contributions, eventKey) {
        return false;
      }
      contributions := contributions
        + [Contribution(row.organization, k, row.version, eventKey, row, Pending, 0, now)];
      return true;
    }

    /** INSERT; on an abort the transaction restores what the statement wrote. */
    method InsertRow(k: Key, row: Row, now: int) returns (ok: bool)
      modifies this
      ensures ok <==> Execute(old(Contents()), Insert(k, row, now)).Some?
      ensures Contents() == Step(old(Contents()), Insert(k, row, now))
    {
      if k in rows || !Admissible(rows, k, row) || !FitsInteger(row.version) {
        return false;
      }
      var before := rows;
      rows := rows[k := row];
      ok := EnqueueMarketContribution(k, row, now);
      if !ok {
        rows := before;
      }
    }

    method UpdateRow(k: Key, row: Row, role: string, now: int) returns (ok: bool)
      modifies this
      ensures ok <==> Execute(old(Contents()), Update(k, row, role, now)).Some?
      ensures Contents() == Step(old(Contents()), Update(k, row, role, now))
    {
      if k !in rows {
        return true;
      }
      var rowsBefore, revisionsBefore := rows, revisions;
      var stamped;
      stamped, ok := CaptureMarketSourceRevision(k, rows[k], row, role, now);
      if ok && Admissible(rows, k, stamped) {
        rows := rows[k := stamped];
        ok := EnqueueMarketContribution(k, stamped, now);
      } else {
        ok := false;
      }
      if !ok {
        rows, revisions := rowsBefore, revisionsBefore;
      }
    }

    method DeleteRow(k: Key)
      modifies this`rows
      ensures Contents() == Step(old(Contents()), Delete(k))
    {
      rows := rows - {k};
    }
  }
}
