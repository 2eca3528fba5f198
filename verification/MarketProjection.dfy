/**
 The projector that drains sale contributions into the shared market records.

 Claims come in any order: contributions of one transaction share their timestamp and
 are then ordered by a random id, other workers' rows are skipped, and failed rows
 come back. Only the version guard keeps the shared record from going backwards.
 Converting a payload field (`uuid.UUID`, `Decimal(str(..))`, `date.fromisoformat`) is an
 uninterpreted function that may raise.
 */
module MarketProjection {
  import opened Prelude
  import opened EventKeys
  import opened MarketLedger

  type Converter = (string, Json) -> Option<Json>

  /** What the projector meets: conversions that may raise, and how a profile's projection ends. */
  datatype Outside = Outside(convert: Converter, profile: Contribution -> bool)

  datatype SharedKey = SharedKey(organization: Uuid, id: Uuid)

  datatype SharedRecord = SharedRecord(version: int, facts: map<string, Json>)

  datatype ReplacedVersion = ReplacedVersion(id: Uuid, record: SharedRecord)

  datatype Shared = Shared(records: map<SharedKey, SharedRecord>, replaced: seq<ReplacedVersion>)

  datatype World = World(ledger: Ledger, shared: Shared)

  /** Columns copied as they are. */
  function Plain(): seq<string> {
    ["state", "outcome", "property_type", "municipality", "colonia", "bedrooms", "parking_spaces",
     "construction_year", "property_condition", "published_currency", "appraisal_currency",
     "paid_currency", "field_states"]
  }

  /** Columns converted one by one, in this order; the first failure raises. */
  function Converted(): seq<string> {
    ["property_uuid", "land_area_sqm", "construction_area_sqm", "bathrooms", "published_price",
     "appraisal_value", "paid_price", "publication_date", "completion_date"]
  }

  /** The columns of a shared record that a sale fills. */
  function Columns(): set<string> {
    {"state", "outcome", "property_uuid", "property_type", "property_condition", "municipality", "colonia",
     "bedrooms", "bathrooms", "parking_spaces", "land_area_sqm", "construction_area_sqm", "construction_year",
     "published_price", "published_currency", "appraisal_value", "appraisal_currency", "paid_price",
     "paid_currency", "publication_date", "completion_date", "field_states"}
  }

  /** Each of them is copied or converted, and none is both. */
  lemma ColumnsAreListed(n: string)
    ensures n in Columns() <==> n in Plain() || n in Converted()
    ensures n in Plain() ==> n !in Converted()
  {
  }

  // ------------------------------------------------------------- one projection

  function Copied(facts: map<string, Json>, row: Row): map<string, Json> {
    facts + map n | n in Plain() :: Column(row, n)
  }

  datatype Written = Written(facts: map<string, Json>, ok: bool)

  /** Column by column; whatever was assigned before a failure stays assigned. */
  function WriteColumns(facts: map<string, Json>, row: Row, names: seq<string>, outside: Outside): Written {
    if names == [] then Written(facts, true)
    else
      var w := WriteColumns(facts, row, names[..|names| - 1], outside);
      var n := names[|names| - 1];
      if !w.ok then w
      else
        match outside.convert(n, Column(row, n))
        case None => w.(ok := false)
        case Some(value) => w.(facts := w.facts[n := value])
  }

  function TargetOf(c: Contribution): SharedKey {
    SharedKey(c.organization, c.key.id)
  }

  /** The guard: an equal or newer version is already projected. */
  predicate Stale(s: Shared, c: Contribution) {
    TargetOf(c) in s.records && s.records[TargetOf(c)].version >= c.version
  }

  function ProjectSale(s: Shared, c: Contribution, outside: Outside): (Shared, bool) {
    var k := TargetOf(c);
    if Stale(s, c) then (s, true)
    else
      var w := WriteColumns(Copied(if k in s.records then s.records[k].facts else map[], c.payload),
                            c.payload, Converted(), outside);
      (Shared(s.records[k := SharedRecord(c.version, w.facts)],
              s.replaced + if k in s.records then [ReplacedVersion(k.id, s.records[k])] else []),
       w.ok)
  }

  /** A profile's projection writes the buyer profiles only, which are not modelled. */
  function Project(s: Shared, c: Contribution, outside: Outside): (Shared, bool) {
    if c.key.source.MarketSaleRecord? then ProjectSale(s, c, outside) else (s, outside.profile(c))
  }

  /** One claimed contribution: the exception is caught, its partial writes are kept. */
  function Attempt(w: World, i: nat, outside: Outside): World {
    if i >= |w.ledger.contributions| || w.ledger.contributions[i].state.Projected? then w
    else
      var c := w.ledger.contributions[i];
      var (shared, ok) := Project(w.shared, c, outside);
      var c' := c.(attempts := c.attempts + 1, state := if ok then Projected else Failed);
      World(w.ledger.(contributions := w.ledger.contributions[i := c']), shared)
  }

  datatype Event = Write(statement: Statement) | Claim(index: nat)

  function Happen(w: World, e: Event, outside: Outside): World {
    match e
    case Write(s) => w.(ledger := Step(w.ledger, s))
    case Claim(i) => Attempt(w, i, outside)
  }

  function Live(events: seq<Event>, outside: Outside): World {
    if events == [] then World(EMPTY, Shared(map[], []))
    else Happen(Live(events[..|events| - 1], outside), events[|events| - 1], outside)
  }

  predicate ReusesNoId(events: seq<Event>, outside: Outside) {
    events == [] ||
    (var rest, e := events[..|events| - 1], events[|events| - 1];
     && ReusesNoId(rest, outside)
     && (e.Write? ==> NamesNewSource(Live(rest, outside).ledger, e.statement)))
  }

  // ------------------------------------------------------------------ invariant

  predicate Converts(row: Row, outside: Outside) {
    forall n | n in Converted() :: outside.convert(n, Column(row, n)).Some?
  }

  /** The record a payload is meant to become. */
  function Image(row: Row, outside: Outside): map<string, Json> {
    map n | n in Columns() ::
      if n in Converted() then
        (match outside.convert(n, Column(row, n)) case None => Null case Some(value) => value)
      else Column(row, n)
  }

  predicate IsSale(c: Contribution, k: SharedKey, version: int) {
    c.key == Key(MarketSaleRecord, k.id) && c.organization == k.organization && c.version == version
  }

  ghost predicate RecordHasSource(w: World, k: SharedKey, outside: Outside)
    requires k in w.shared.records
  {
    var r := w.shared.records[k];
    && r.facts.Keys <= Columns()
    && exists c :: c in w.ledger.contributions && IsSale(c, k, r.version)
                   && (Converts(c.payload, outside) ==> r.facts == Image(c.payload, outside))
  }

  predicate Reflected(w: World, c: Contribution) {
    c.state.Projected? && c.key.source.MarketSaleRecord? ==> Stale(w.shared, c)
  }

  ghost predicate ReplacedIsOlder(w: World, a: ReplacedVersion) {
    exists c :: c in w.ledger.contributions && IsSale(c, TargetOf(c), a.record.version) && c.key.id == a.id
                && TargetOf(c) in w.shared.records
                && w.shared.records[TargetOf(c)].version > a.record.version
  }

  /** The unique key of the replaced versions. */
  predicate DistinctVersions(replaced: seq<ReplacedVersion>) {
    forall i, j | 0 <= i < j < |replaced| ::
      !(replaced[i].id == replaced[j].id && replaced[i].record.version == replaced[j].record.version)
  }

  ghost predicate Faithful(w: World, outside: Outside) {
    && Consistent(w.ledger)
    && (forall k | k in w.shared.records :: RecordHasSource(w, k, outside))
    && (forall c | c in w.ledger.contributions :: Reflected(w, c))
    && (forall a | a in w.shared.replaced :: ReplacedIsOlder(w, a))
    && DistinctVersions(w.shared.replaced)
  }

  // --------------------------------------------------------- writing one record

  lemma {:induction false} WriteColumnsConverts(facts: map<string, Json>, row: Row, names: seq<string>,
        outside: Outside)
    ensures var w := WriteColumns(facts, row, names, outside);
            && (w.ok <==> forall n | n in names :: outside.convert(n, Column(row, n)).Some?)
            && (forall n | n in facts :: n in w.facts)
            && (forall n | n in w.facts :: n in facts || n in names)
            && (forall n | n in facts && n !in names :: w.facts[n] == facts[n])
            && (w.ok ==> forall n | n in names ::
                  n in w.facts && Some(w.facts[n]) == outside.convert(n, Column(row, n)))
  {
    if names != [] {
      var rest, n := names[..|names| - 1], names[|names| - 1];
      WriteColumnsConverts(facts, row, rest, outside);
      assert names == rest + [n];
    }
  }

  lemma AllColumnsAreListed()
    ensures forall n :: n in Columns() <==> n in Plain() || n in Converted()
    ensures forall n | n in Plain() :: n !in Converted()
  {
    hide Columns, Plain, Converted;
    forall n
      ensures n in Columns() <==> n in Plain() || n in Converted()
      ensures n in Plain() ==> n !in Converted()
    {
      ColumnsAreListed(n);
    }
  }

  lemma WrittenIsImage(facts: map<string, Json>, row: Row, outside: Outside)
    requires facts.Keys <= Columns()
    ensures var w := WriteColumns(Copied(facts, row), row, Converted(), outside);
            && w.facts.Keys <= Columns() && (w.ok <==> Converts(row, outside))
            && (w.ok ==> w.facts == Image(row, outside))
  {
    hide Columns, Plain, Converted, WriteColumns;
    AllColumnsAreListed();
    WriteColumnsConverts(Copied(facts, row), row, Converted(), outside);
    var w := WriteColumns(Copied(facts, row), row, Converted(), outside);
    if w.ok {
      assert w.facts == Image(row, outside);
    }
  }

  /** A fresh projection raises exactly when some column fails, and is otherwise the image. */
  lemma ProjectionWritesImage(s: Shared, c: Contribution, outside: Outside)
    requires !Stale(s, c)
    requires TargetOf(c) in s.records ==> s.records[TargetOf(c)].facts.Keys <= Columns()
    ensures var (s', ok) := ProjectSale(s, c, outside);
            && TargetOf(c) in s'.records
            && var r := s'.records[TargetOf(c)];
            && r.version == c.version
            && r.facts.Keys <= Columns()
            && (ok <==> Converts(c.payload, outside))
            && (ok ==> r.facts == Image(c.payload, outside))
  {
    hide Columns, Plain, Converted, Copied, WriteColumns, Converts, Image;
    var k := TargetOf(c);
    WrittenIsImage(if k in s.records then s.records[k].facts else map[], c.payload, outside);
  }

  // ------------------------------------------------------- marking contributions

  /** The same contribution up to the projector's own bookkeeping. */
  predicate SameFact(c: Contribution, c': Contribution) {
    c' == c.(state := c'.state, attempts := c'.attempts)
  }

  lemma {:induction false} MarkedContributionsOf(cs: seq<Contribution>, i: nat, c': Contribution, k: Key)
    requires i < |cs| && SameFact(cs[i], c')
    ensures var before, after := ContributionsOf(cs, k), ContributionsOf(cs[i := c'], k);
            |after| == |before| && forall j | 0 <= j < |before| :: SameFact(before[j], after[j])
  {
    var n := |cs| - 1;
    if i < n {
      MarkedContributionsOf(cs[..n], i, c', k);
      assert cs[i := c'][..n] == cs[..n][i := c'];
    } else {
      assert cs[i := c'][..n] == cs[..n];
    }
  }

  lemma MarkingKeepsHistory(l: Ledger, i: nat, c': Contribution)
    requires Consistent(l) && i < |l.contributions| && SameFact(l.contributions[i], c')
    ensures Consistent(l.(contributions := l.contributions[i := c']))
  {
    hide EventKey;
    var l' := l.(contributions := l.contributions[i := c']);
    forall c | c in l'.contributions ensures HasOwnKey(c) {
      if c == c' { assert HasOwnKey(l.contributions[i]); } else { assert c in l.contributions; }
    }
    forall k ensures Linked(l', k) {
      assert Linked(l, k);
      MarkedContributionsOf(l.contributions, i, c', k);
      MarkingKeepsLinks(RevisionsOf(l.revisions, k), ContributionsOf(l.contributions, k),
          ContributionsOf(l'.contributions, k));
    }
  }

  lemma MarkingKeepsLinks(rs: seq<Revision>, cs: seq<Contribution>, cs': seq<Contribution>)
    requires LinkedHistory(rs, cs) && |cs'| == |cs|
    requires forall j | 0 <= j < |cs| :: SameFact(cs[j], cs'[j])
    ensures LinkedHistory(rs, cs')
  {
    forall j | 0 <= j < |cs'| ensures ContributionAt(cs'[j], cs'[0].version + j) {
      assert ContributionAt(cs[j], cs[0].version + j);
    }
    if cs != [] {
      forall j | 0 <= j < |rs| ensures LinkAt(rs, cs', j) {
        assert LinkAt(rs, cs, j);
      }
    }
  }

  lemma MarkedCounterpart(cs: seq<Contribution>, i: nat, c': Contribution, c: Contribution)
    requires i < |cs| && SameFact(cs[i], c') && c in cs
    ensures exists d :: d in cs[i := c'] && SameFact(c, d)
  {
    var j :| 0 <= j < |cs| && cs[j] == c;
    assert cs[i := c'][j] in cs[i := c'] && SameFact(c, cs[i := c'][j]);
  }

  // --------------------------------------------------------- claims keep the truth

  predicate Claimable(w: World, i: nat) {
    i < |w.ledger.contributions| && !w.ledger.contributions[i].state.Projected?
  }

  predicate SaleClaimable(w: World, i: nat) {
    Claimable(w, i) && w.ledger.contributions[i].key.source.MarketSaleRecord?
  }

  lemma ClaimMarks(w: World, i: nat, outside: Outside)
    requires SaleClaimable(w, i)
    ensures var cs := w.ledger.contributions;
            var (shared, ok) := ProjectSale(w.shared, cs[i], outside);
            var c' := cs[i].(attempts := cs[i].attempts + 1, state := if ok then Projected else Failed);
            && Attempt(w, i, outside) == World(w.ledger.(contributions := cs[i := c']), shared)
            && SameFact(cs[i], c')
  {
  }

  lemma ClaimKeepsRecord(w: World, i: nat, outside: Outside, k: SharedKey)
    requires SaleClaimable(w, i) && k in Attempt(w, i, outside).shared.records
    requires forall j | j in w.shared.records :: RecordHasSource(w, j, outside)
    ensures RecordHasSource(Attempt(w, i, outside), k, outside)
  {
    hide Columns, Image, Converts;
    var w' := Attempt(w, i, outside);
    var cs := w.ledger.contributions;
    ClaimMarks(w, i, outside);
    assert TargetOf(cs[i]) in w.shared.records ==> RecordHasSource(w, TargetOf(cs[i]), outside);
    if k == TargetOf(cs[i]) && !Stale(w.shared, cs[i]) {
      ProjectionWritesImage(w.shared, cs[i], outside);
      assert w'.ledger.contributions[i] in w'.ledger.contributions;
      assert IsSale(w'.ledger.contributions[i], k, cs[i].version);
    } else {
      assert RecordHasSource(w, k, outside) && w'.shared.records[k] == w.shared.records[k];
      var c :| c in cs && IsSale(c, k, w.shared.records[k].version)
               && (Converts(c.payload, outside) ==> w.shared.records[k].facts == Image(c.payload, outside));
      MarkedCounterpart(cs, i, w'.ledger.contributions[i], c);
    }
  }

  /** Shared records are only ever replaced by newer ones, whatever is claimed. */
  lemma {:induction false} SharedVersionsNeverGoBack(w: World, e: Event, outside: Outside, k: SharedKey)
    requires k in w.shared.records
    ensures k in Happen(w, e, outside).shared.records
    ensures Happen(w, e, outside).shared.records[k].version >= w.shared.records[k].version
    ensures Happen(w, e, outside).shared.records[k] != w.shared.records[k] ==>
              Happen(w, e, outside).shared.records[k].version > w.shared.records[k].version
  {
  }

  lemma ClaimKeepsReflected(w: World, i: nat, outside: Outside)
    requires SaleClaimable(w, i) && forall c | c in w.ledger.contributions :: Reflected(w, c)
    requires TargetOf(w.ledger.contributions[i]) in w.shared.records ==>
               w.shared.records[TargetOf(w.ledger.contributions[i])].facts.Keys <= Columns()
    ensures forall c | c in Attempt(w, i, outside).ledger.contributions :: Reflected(Attempt(w, i, outside), c)
  {
    hide Columns, Image, Converts;
    var w' := Attempt(w, i, outside);
    var cs := w.ledger.contributions;
    ClaimMarks(w, i, outside);
    if !Stale(w.shared, cs[i]) { ProjectionWritesImage(w.shared, cs[i], outside); }
    forall j | 0 <= j < |cs| ensures Reflected(w', w'.ledger.contributions[j]) {
      assert Reflected(w, cs[j]);
    }
  }

  /** A claim keeps a contribution, up to bookkeeping, as witness that a replaced version is older. */
  lemma StaysOlder(w: World, w': World, a: ReplacedVersion, c: Contribution, d: Contribution)
    requires SameFact(c, d) && d in w'.ledger.contributions
    requires IsSale(c, TargetOf(c), a.record.version) && c.key.id == a.id
    requires TargetOf(c) in w'.shared.records && w'.shared.records[TargetOf(c)].version > a.record.version
    ensures ReplacedIsOlder(w', a)
  {
    assert TargetOf(d) == TargetOf(c) && IsSale(d, TargetOf(d), a.record.version);
  }

  lemma OldReplacedStaysOlder(w: World, i: nat, outside: Outside, a: ReplacedVersion)
    requires SaleClaimable(w, i) && ReplacedIsOlder(w, a)
    ensures ReplacedIsOlder(Attempt(w, i, outside), a)
  {
    hide ProjectSale;
    var w' := Attempt(w, i, outside);
    var cs := w.ledger.contributions;
    ClaimMarks(w, i, outside);
    var c :| c in cs && IsSale(c, TargetOf(c), a.record.version) && c.key.id == a.id
             && TargetOf(c) in w.shared.records && w.shared.records[TargetOf(c)].version > a.record.version;
    SharedVersionsNeverGoBack(w, Claim(i), outside, TargetOf(c));
    MarkedCounterpart(cs, i, w'.ledger.contributions[i], c);
    var d :| d in w'.ledger.contributions && SameFact(c, d);
    hide Attempt;
    StaysOlder(w, w', a, c, d);
  }

  lemma NewReplacedIsOlder(w: World, i: nat, outside: Outside)
    requires SaleClaimable(w, i) && !Stale(w.shared, w.ledger.contributions[i])
    requires var k := TargetOf(w.ledger.contributions[i]); k in w.shared.records && RecordHasSource(w, k, outside)
    ensures var k := TargetOf(w.ledger.contributions[i]);
            ReplacedIsOlder(Attempt(w, i, outside), ReplacedVersion(k.id, w.shared.records[k]))
  {
    hide Columns, Image, Converts, WriteColumns;
    var w' := Attempt(w, i, outside);
    var cs := w.ledger.contributions;
    var k := TargetOf(cs[i]);
    ClaimMarks(w, i, outside);
    assert k in w'.shared.records && w'.shared.records[k].version == cs[i].version;
    var c :| c in cs && IsSale(c, k, w.shared.records[k].version);
    MarkedCounterpart(cs, i, w'.ledger.contributions[i], c);
    var d :| d in w'.ledger.contributions && SameFact(c, d);
    hide Attempt, ProjectSale, RecordHasSource;
    assert TargetOf(c) == k;
    StaysOlder(w, w', ReplacedVersion(k.id, w.shared.records[k]), c, d);
  }

  lemma ReplacedByClaim(w: World, i: nat, outside: Outside, a: ReplacedVersion)
    requires SaleClaimable(w, i) && a in Attempt(w, i, outside).shared.replaced && a !in w.shared.replaced
    ensures var k := TargetOf(w.ledger.contributions[i]);
            !Stale(w.shared, w.ledger.contributions[i]) && k in w.shared.records
                && a == ReplacedVersion(k.id, w.shared.records[k])
  {
    hide WriteColumns;
  }

  lemma ClaimKeepsReplaced(w: World, i: nat, outside: Outside, a: ReplacedVersion)
    requires SaleClaimable(w, i) && a in Attempt(w, i, outside).shared.replaced
    requires forall j | j in w.shared.records :: RecordHasSource(w, j, outside)
    requires forall b | b in w.shared.replaced :: ReplacedIsOlder(w, b)
    ensures ReplacedIsOlder(Attempt(w, i, outside), a)
  {
    hide Attempt, ReplacedIsOlder, RecordHasSource;
    if a in w.shared.replaced {
      OldReplacedStaysOlder(w, i, outside, a);
    } else {
      ReplacedByClaim(w, i, outside, a);
      NewReplacedIsOlder(w, i, outside);
    }
  }

  /** The unique key of replaced versions never refuses a projection. */
  lemma ClaimKeepsDistinct(w: World, i: nat, outside: Outside)
    requires SaleClaimable(w, i) && Faithful(w, outside)
    ensures DistinctVersions(Attempt(w, i, outside).shared.replaced)
  {
    hide Columns, Image, Converts, EventKey;
    var cs := w.ledger.contributions;
    var k := TargetOf(cs[i]);
    ClaimMarks(w, i, outside);
    if k in w.shared.records && !Stale(w.shared, cs[i]) {
      var r := w.shared.records[k];
      assert RecordHasSource(w, k, outside);
      var c :| c in cs && IsSale(c, k, r.version);
      forall a | a in w.shared.replaced ensures !(a.id == k.id && a.record.version == r.version) {
        assert ReplacedIsOlder(w, a);
        var d :| d in cs && IsSale(d, TargetOf(d), a.record.version) && d.key.id == a.id
                 && TargetOf(d) in w.shared.records && w.shared.records[TargetOf(d)].version > a.record.version;
        if a.id == k.id && a.record.version == r.version {
          assert Linked(w.ledger, c.key);
          ContributionOfVersion(w.ledger, c.key, c.version);
        }
      }
    }
  }

  /** A profile's claim changes its own bookkeeping only. */
  lemma ProfileClaimKeepsFaithful(w: World, i: nat, outside: Outside)
    requires Faithful(w, outside) && Claimable(w, i) && !SaleClaimable(w, i)
    ensures Faithful(Attempt(w, i, outside), outside)
  {
    hide Columns, Image, Converts, EventKey, Linked, DistinctVersions, WriteColumns, LinkedHistory;
    var w', cs := Attempt(w, i, outside), w.ledger.contributions;
    var c' := w'.ledger.contributions[i];
    assert SameFact(cs[i], c') && w'.shared == w.shared && w'.ledger == w.ledger.(contributions := cs[i := c']);
    MarkingKeepsHistory(w.ledger, i, c');
    hide Attempt, Consistent;
    forall j | j in w'.shared.records ensures RecordHasSource(w', j, outside) {
      assert RecordHasSource(w, j, outside);
      var c :| c in cs && IsSale(c, j, w.shared.records[j].version)
               && (Converts(c.payload, outside) ==> w.shared.records[j].facts == Image(c.payload, outside));
      MarkedCounterpart(cs, i, c', c);
    }
    forall j | 0 <= j < |cs| ensures Reflected(w', w'.ledger.contributions[j]) {
      assert Reflected(w, cs[j]);
    }
    forall a | a in w'.shared.replaced ensures ReplacedIsOlder(w', a) {
      assert ReplacedIsOlder(w, a);
      var c :| c in cs && IsSale(c, TargetOf(c), a.record.version) && c.key.id == a.id
               && TargetOf(c) in w.shared.records && w.shared.records[TargetOf(c)].version > a.record.version;
      MarkedCounterpart(cs, i, c', c);
      var d :| d in w'.ledger.contributions && SameFact(c, d);
      StaysOlder(w, w', a, c, d);
    }
  }

  lemma ClaimKeepsFaithful(w: World, i: nat, outside: Outside)
    requires Faithful(w, outside)
    ensures Faithful(Attempt(w, i, outside), outside)
  {
    hide Columns, Image, Converts, EventKey, Linked, DistinctVersions, Reflected, ReplacedIsOlder, WriteColumns;
    if Claimable(w, i) && !SaleClaimable(w, i) {
      ProfileClaimKeepsFaithful(w, i, outside);
    } else if Claimable(w, i) {
      var w' := Attempt(w, i, outside);
      ClaimMarks(w, i, outside);
      MarkingKeepsHistory(w.ledger, i, w'.ledger.contributions[i]);
      var k := TargetOf(w.ledger.contributions[i]);
      assert k in w.shared.records ==> RecordHasSource(w, k, outside);
      ClaimKeepsReflected(w, i, outside);
      ClaimKeepsDistinct(w, i, outside);
      forall j | j in w'.shared.records ensures RecordHasSource(w', j, outside) {
        ClaimKeepsRecord(w, i, outside, j);
      }
      forall a | a in w'.shared.replaced ensures ReplacedIsOlder(w', a) {
        ClaimKeepsReplaced(w, i, outside, a);
      }
    }
  }

  lemma StatementOnlyAppendsPending(l: Ledger, s: Statement)
    ensures var cs, cs' := l.contributions, Step(l, s).contributions;
            cs' == cs || (|cs'| == |cs| + 1 && cs' == cs + [cs'[|cs|]] && cs'[|cs|].state == Pending)
  {
    hide Admissible, EventKey;
  }

  lemma WriteKeepsFaithful(w: World, s: Statement, outside: Outside)
    requires Faithful(w, outside) && NamesNewSource(w.ledger, s)
    ensures Faithful(w.(ledger := Step(w.ledger, s)), outside)
  {
    hide Columns, Image, Converts, EventKey, Admissible, Linked, Execute;
    var w' := w.(ledger := Step(w.ledger, s));
    StepKeepsHistory(w.ledger, s);
    StatementOnlyAppendsPending(w.ledger, s);
    assert forall c | c in w.ledger.contributions :: c in w'.ledger.contributions;
    forall k | k in w'.shared.records ensures RecordHasSource(w', k, outside) {
      assert RecordHasSource(w, k, outside);
    }
    forall c | c in w'.ledger.contributions ensures Reflected(w', c) {
      assert c in w.ledger.contributions ==> Reflected(w, c);
    }
    forall a | a in w'.shared.replaced ensures ReplacedIsOlder(w', a) {
      assert ReplacedIsOlder(w, a);
    }
  }

  /** Every interleaving of writers and claims keeps the shared records faithful. */
  lemma {:induction false} LiveIsFaithful(events: seq<Event>, outside: Outside)
    requires ReusesNoId(events, outside)
    ensures Faithful(Live(events, outside), outside)
  {
    hide Faithful, Execute;
    if events == [] {
      NothingIsFaithful(outside);
    } else {
      var rest, e := events[..|events| - 1], events[|events| - 1];
      LiveIsFaithful(rest, outside);
      match e
      case Write(s) => WriteKeepsFaithful(Live(rest, outside), s, outside);
      case Claim(i) => ClaimKeepsFaithful(Live(rest, outside), i, outside);
    }
  }

  lemma NothingIsFaithful(outside: Outside)
    ensures Faithful(World(EMPTY, Shared(map[], [])), outside)
  {
    forall k ensures Linked(EMPTY, k) {}
  }

  // ------------------------------------------------------------------ the archive

  /** A record that an event changes is archived by that event; an event that changes none archives nothing. */
  lemma ReplacementIsArchived(w: World, e: Event, outside: Outside)
    ensures var s, s' := w.shared, Happen(w, e, outside).shared;
            && (forall k | k in s.records && !(k in s'.records && s'.records[k] == s.records[k]) ::
                  s'.replaced == s.replaced + [ReplacedVersion(k.id, s.records[k])])
            && ((forall k | k in s.records :: k in s'.records && s'.records[k] == s.records[k]) ==>
                  s'.replaced == s.replaced)
  {
    hide WriteColumns, Copied, Columns;
    assert w.shared.replaced + [] == w.shared.replaced;
  }

  /** After the first `n` events, the shared record of `k` was `r`. */
  ghost predicate HeldAt(events: seq<Event>, outside: Outside, k: SharedKey, n: nat, r: SharedRecord) {
    n <= |events| && k in Live(events[..n], outside).shared.records && Live(events[..n], outside).shared.records[k] == r
  }

  /** Some key once held the record and no longer does. */
  ghost predicate Former(events: seq<Event>, outside: Outside, a: ReplacedVersion) {
    exists k: SharedKey, n: nat :: k.id == a.id && HeldAt(events, outside, k, n, a.record)
                        && !HeldAt(events, outside, k, |events|, a.record)
  }

  lemma HeldBefore(events: seq<Event>, outside: Outside, k: SharedKey, n: nat, r: SharedRecord)
    requires events != [] && n < |events|
    ensures HeldAt(events, outside, k, n, r) <==> HeldAt(events[..|events| - 1], outside, k, n, r)
  {
    assert events[..|events| - 1][..n] == events[..n];
  }

  lemma HeldNow(events: seq<Event>, outside: Outside, k: SharedKey, r: SharedRecord)
    ensures HeldAt(events, outside, k, |events|, r) <==>
            k in Live(events, outside).shared.records && Live(events, outside).shared.records[k] == r
  {
    assert events[..|events|] == events;
  }

  /** From any moment on, a key's record is the same or strictly newer. */
  lemma {:induction false} HeldStaysOrRises(events: seq<Event>, outside: Outside, k: SharedKey, n: nat, r: SharedRecord)
    requires HeldAt(events, outside, k, n, r)
    ensures var records := Live(events, outside).shared.records;
            k in records && (records[k] == r || records[k].version > r.version)
  {
    hide Happen;
    if n == |events| {
      HeldNow(events, outside, k, r);
    } else {
      var m := |events| - 1;
      HeldBefore(events, outside, k, n, r);
      HeldStaysOrRises(events[..m], outside, k, n, r);
      SharedVersionsNeverGoBack(Live(events[..m], outside), events[m], outside, k);
    }
  }

  lemma {:induction false} ArchivedWasHeld(events: seq<Event>, outside: Outside, a: ReplacedVersion)
    requires a in Live(events, outside).shared.replaced
    ensures Former(events, outside, a)
  {
    hide Happen;
    var m := |events| - 1;
    var rest, w := events[..m], Live(events[..m], outside);
    ReplacementIsArchived(w, events[m], outside);
    if a in w.shared.replaced {
      ArchivedWasHeld(rest, outside, a);
      var k: SharedKey, n: nat :| k.id == a.id && HeldAt(rest, outside, k, n, a.record)
                                  && !HeldAt(rest, outside, k, m, a.record);
      FormerStaysFormer(events, outside, k, n, a.record);
    } else {
      var k :| k in w.shared.records
               && !(k in Live(events, outside).shared.records
                    && Live(events, outside).shared.records[k] == w.shared.records[k]);
      HeldNow(rest, outside, k, a.record);
      HeldBefore(events, outside, k, m, a.record);
      HeldNow(events, outside, k, a.record);
    }
  }

  lemma FormerStaysFormer(events: seq<Event>, outside: Outside, k: SharedKey, n: nat, r: SharedRecord)
    requires events != []
    requires var rest := events[..|events| - 1];
             HeldAt(rest, outside, k, n, r) && !HeldAt(rest, outside, k, |rest|, r)
    ensures HeldAt(events, outside, k, n, r) && !HeldAt(events, outside, k, |events|, r)
  {
    hide Happen;
    var m := |events| - 1;
    HeldBefore(events, outside, k, n, r);
    HeldStaysOrRises(events[..m], outside, k, n, r);
    HeldNow(events[..m], outside, k, r);
    HeldNow(events, outside, k, r);
    SharedVersionsNeverGoBack(Live(events[..m], outside), events[m], outside, k);
  }

  lemma {:induction false} FormerIsArchived(events: seq<Event>, outside: Outside, k: SharedKey, n: nat, r: SharedRecord)
    requires HeldAt(events, outside, k, n, r) && !HeldAt(events, outside, k, |events|, r)
    ensures ReplacedVersion(k.id, r) in Live(events, outside).shared.replaced
  {
    hide Happen;
    var m := |events| - 1;
    HeldBefore(events, outside, k, n, r);
    HeldNow(events[..m], outside, k, r);
    HeldNow(events, outside, k, r);
    ReplacementIsArchived(Live(events[..m], outside), events[m], outside);
    if !HeldAt(events[..m], outside, k, m, r) {
      FormerIsArchived(events[..m], outside, k, n, r);
      ArchiveGrows(Live(events[..m], outside), events[m], outside);
    }
  }

  lemma ArchiveGrows(w: World, e: Event, outside: Outside)
    ensures w.shared.replaced <= Happen(w, e, outside).shared.replaced
  {
    ReplacementIsArchived(w, e, outside);
    hide Happen;
  }

  lemma DistinctIsOnce(replaced: seq<ReplacedVersion>, a: ReplacedVersion)
    requires DistinctVersions(replaced)
    ensures multiset(replaced)[a] == if a in replaced then 1 else 0
  {
    if a in replaced {
      var i :| 0 <= i < |replaced| && replaced[i] == a;
      assert replaced == replaced[..i] + [a] + replaced[i + 1..];
      assert a !in replaced[..i] && a !in replaced[i + 1..];
      assert multiset(replaced) == multiset(replaced[..i]) + multiset{a} + multiset(replaced[i + 1..]);
    }
  }

  /**
   No version of a shared record is lost, over every interleaving of writers and claims: the
   archive holds each record that some key once held and no longer does, exactly once, and
   nothing else.
   */
  lemma ArchiveHoldsFormerRecordsOnce(events: seq<Event>, outside: Outside, a: ReplacedVersion)
    requires ReusesNoId(events, outside)
    ensures multiset(Live(events, outside).shared.replaced)[a] == if Former(events, outside, a) then 1 else 0
  {
    LiveIsFaithful(events, outside);
    DistinctIsOnce(Live(events, outside).shared.replaced, a);
    hide Live;
    if a in Live(events, outside).shared.replaced {
      ArchivedWasHeld(events, outside, a);
    }
    if Former(events, outside, a) {
      var k: SharedKey, n: nat :| k.id == a.id && HeldAt(events, outside, k, n, a.record)
                       && !HeldAt(events, outside, k, |events|, a.record);
      FormerIsArchived(events, outside, k, n, a.record);
    }
  }

  /** How often contribution `j` was claimed while it was open. */
  function OpenClaims(events: seq<Event>, outside: Outside, j: nat): nat {
    if events == [] then 0
    else
      var n := |events| - 1;
      OpenClaims(events[..n], outside, j)
      + if events[n] == Claim(j) && Claimable(Live(events[..n], outside), j) then 1 else 0
  }

  lemma EventCountsAttempt(w: World, e: Event, outside: Outside, j: nat)
    ensures var cs, cs' := w.ledger.contributions, Happen(w, e, outside).ledger.contributions;
            && |cs| <= |cs'|
            && (j < |cs| ==> cs'[j].attempts == cs[j].attempts + if e == Claim(j) && Claimable(w, j) then 1 else 0)
            && (|cs| <= j < |cs'| ==> cs'[j].attempts == 0 && cs'[j].state.Pending?)
            && (j < |cs| && !(e == Claim(j) && Claimable(w, j)) ==> cs'[j].state == cs[j].state)
            && (j < |cs| && e == Claim(j) && Claimable(w, j) ==> cs'[j].state != Pending)
  {
    hide Admissible, EventKey, Project;
  }

  /** Over every interleaving: a contribution counts the claims of it while open, and is Pending until the first. */
  lemma {:induction false} AttemptsCountClaims(events: seq<Event>, outside: Outside, j: nat)
    ensures var cs := Live(events, outside).ledger.contributions;
            if j < |cs| then
              && cs[j].attempts == OpenClaims(events, outside, j)
              && (cs[j].state.Pending? <==> OpenClaims(events, outside, j) == 0)
            else OpenClaims(events, outside, j) == 0
  {
    hide Happen;
    if events != [] {
      var n := |events| - 1;
      AttemptsCountClaims(events[..n], outside, j);
      EventCountsAttempt(Live(events[..n], outside), events[n], outside, j);
    }
  }

  // --------------------------------------------------------------- consequences

  /**
   Once the newest contribution of a sale is marked projected, the shared record is the
   image of the current row, in whatever order the contributions were claimed.
   */
  lemma ProjectedSaleIsCurrent(events: seq<Event>, outside: Outside, k: Key)
    requires ReusesNoId(events, outside) && k.source.MarketSaleRecord?
    requires var l := Live(events, outside).ledger;
             && k in l.rows && Converts(l.rows[k], outside)
             && exists c :: c in l.contributions && c.key == k && c.version == l.rows[k].version
                            && c.state.Projected?
    ensures var w := Live(events, outside);
            var row := w.ledger.rows[k];
            && SharedKey(row.organization, k.id) in w.shared.records
            && w.shared.records[SharedKey(row.organization, k.id)]
               == SharedRecord(row.version, Image(row, outside))
  {
    LiveIsFaithful(events, outside);
    FaithfulSaleIsCurrent(Live(events, outside), k, outside);
    hide Image, Converts, Faithful, Live;
  }

  /** In a faithful world the record of a sale whose newest contribution is projected has its version. */
  lemma FaithfulSaleIsCurrent(w: World, k: Key, outside: Outside)
    requires Faithful(w, outside) && k.source.MarketSaleRecord? && k in w.ledger.rows
    requires exists c :: c in w.ledger.contributions && c.key == k && c.version == w.ledger.rows[k].version
                         && c.state.Projected?
    ensures var row := w.ledger.rows[k];
            && SharedKey(row.organization, k.id) in w.shared.records
            && var r := w.shared.records[SharedKey(row.organization, k.id)];
            && r.version == row.version && r.facts.Keys <= Columns()
            && (Converts(row, outside) ==> r.facts == Image(row, outside))
  {
    hide Columns, Image, Converts, EventKey, WriteColumns;
    var l, row := w.ledger, w.ledger.rows[k];
    var sk := SharedKey(row.organization, k.id);
    assert Linked(l, k);
    CurrentContribution(l, k);
    var c :| c in l.contributions && c.key == k && c.version == row.version && c.state.Projected?;
    assert Reflected(w, c);
    assert RecordHasSource(w, sk, outside);
    var d :| d in l.contributions && IsSale(d, sk, w.shared.records[sk].version)
             && (Converts(d.payload, outside) ==> w.shared.records[sk].facts == Image(d.payload, outside));
    LinkedVersionsAreKnown(l, k, d.version);
    ContributionOfVersion(l, k, row.version);
  }

  lemma CurrentContribution(l: Ledger, k: Key)
    requires Linked(l, k) && k in l.rows
    ensures var cs := ContributionsOf(l.contributions, k);
            && cs != [] && l.rows[k].version == cs[0].version + |cs| - 1
            && (forall c | c in l.contributions && c.key == k && c.version == l.rows[k].version ::
                  c.payload == l.rows[k] && c.organization == l.rows[k].organization)
  {
    var cs := ContributionsOf(l.contributions, k);
    assert ContributionAt(cs[|cs| - 1], cs[0].version + (|cs| - 1));
    LinkedVersionsAreKnown(l, k, l.rows[k].version);
    ContributionOfVersion(l, k, l.rows[k].version);
  }

  /** Every column of the record holds what the payload says. */
  predicate Delivered(r: SharedRecord, row: Row, outside: Outside) {
    forall n | n in Columns() ::
      n in r.facts && (if n in Converted() then Some(r.facts[n]) == outside.convert(n, Column(row, n))
                       else r.facts[n] == Column(row, n))
  }

  /**
   A payload that cannot be converted is marked Failed, but its version is already
   stored, so its retry is taken for a duplicate and marked Projected. After the retry
   the payload was really delivered if and only if every column converts.
   */
  lemma RetryHidesConversionFailure(w: World, i: nat, outside: Outside)
    requires Faithful(w, outside) && SaleClaimable(w, i) && !Stale(w.shared, w.ledger.contributions[i])
    ensures var c := w.ledger.contributions[i];
            var once := Attempt(w, i, outside);
            var twice := Attempt(once, i, outside);
            && (once.ledger.contributions[i].state == Failed <==> !Converts(c.payload, outside))
            && twice.ledger.contributions[i].state == Projected
            && TargetOf(c) in twice.shared.records
            && twice.shared.records[TargetOf(c)].version == c.version
            && (Delivered(twice.shared.records[TargetOf(c)], c.payload, outside) <==> Converts(c.payload, outside))
  {
    var c, once := w.ledger.contributions[i], Attempt(w, i, outside);
    FirstClaim(w, i, outside);
    StaleClaim(once, i, outside);
    DeliveredExactlyWhen(once.shared.records[TargetOf(c)], c.payload, outside);
    hide Attempt, Faithful, Stale, Image, Converts, Delivered;
  }

  lemma FirstClaim(w: World, i: nat, outside: Outside)
    requires Faithful(w, outside) && SaleClaimable(w, i) && !Stale(w.shared, w.ledger.contributions[i])
    ensures var c, once := w.ledger.contributions[i], Attempt(w, i, outside);
            && i < |once.ledger.contributions| && SameFact(c, once.ledger.contributions[i])
            && once.ledger.contributions[i].state == (if Converts(c.payload, outside) then Projected else Failed)
            && Stale(once.shared, once.ledger.contributions[i])
            && TargetOf(c) in once.shared.records
            && once.shared.records[TargetOf(c)].version == c.version
            && once.shared.records[TargetOf(c)].facts.Keys <= Columns()
            && (Converts(c.payload, outside) ==> once.shared.records[TargetOf(c)].facts == Image(c.payload, outside))
  {
    var c := w.ledger.contributions[i];
    assert TargetOf(c) in w.shared.records ==> RecordHasSource(w, TargetOf(c), outside);
    hide Columns, Image, Converts, ProjectSale, Faithful, RecordHasSource;
    ProjectionWritesImage(w.shared, c, outside);
    ClaimMarks(w, i, outside);
    hide Attempt;
  }

  /** A stale claim changes nothing but the bookkeeping, which ends Projected. */
  lemma StaleClaim(w: World, i: nat, outside: Outside)
    requires i < |w.ledger.contributions| && w.ledger.contributions[i].key.source.MarketSaleRecord?
    requires Stale(w.shared, w.ledger.contributions[i])
    ensures var again := Attempt(w, i, outside);
            again.shared == w.shared && i < |again.ledger.contributions|
                && again.ledger.contributions[i].state == Projected
  {
    hide WriteColumns;
  }

  lemma DeliveredExactlyWhen(r: SharedRecord, row: Row, outside: Outside)
    requires r.facts.Keys <= Columns()
    requires Converts(row, outside) ==> r.facts == Image(row, outside)
    ensures Delivered(r, row, outside) <==> Converts(row, outside)
  {
    hide Plain, Converted;
    if !Converts(row, outside) {
      var n :| n in Converted() && outside.convert(n, Column(row, n)).None?;
      ColumnsAreListed(n);
    }
  }

  /** A sale whose publication date is the PostgreSQL date 'infinity', which `to_jsonb` writes as text. */
  function EndlessSale(organization: Uuid): Row {
    Row(organization, map["state" := Text("Preparation"), "outcome" := Text("InProgress"),
                          "publication_date" := Text("infinity")], 0, 1)
  }

  /** Written once and claimed twice with a converter that refuses that date: Projected, never delivered. */
  lemma EndlessSaleIsNeverDelivered(id: Uuid, organization: Uuid, outside: Outside)
    requires outside.convert("publication_date", Text("infinity")) == None
    ensures var k, row := Key(MarketSaleRecord, id), EndlessSale(organization);
            var w := Live([Write(Insert(k, row, 1)), Claim(0), Claim(0)], outside);
            && |w.ledger.contributions| == 1 && w.ledger.contributions[0].payload == row
            && w.ledger.contributions[0].state == Projected
            && SharedKey(organization, id) in w.shared.records
            && w.shared.records[SharedKey(organization, id)].version == 1
            && !Delivered(w.shared.records[SharedKey(organization, id)], row, outside)
  {
    var k, row := Key(MarketSaleRecord, id), EndlessSale(organization);
    EndlessSaleIsWritten(k, row, organization, outside);
    var w := Live([Write(Insert(k, row, 1))], outside);
    TwoClaims(Write(Insert(k, row, 1)), outside);
    EndlessSaleFails(organization, outside);
    hide EndlessSale, Live, Faithful, Converts, Delivered;
    FirstClaim(w, 0, outside);
    RetryHidesConversionFailure(w, 0, outside);
    var once := Attempt(w, 0, outside);
    assert once.ledger.contributions[0].payload == row;
  }

  lemma EndlessSaleFails(organization: Uuid, outside: Outside)
    requires outside.convert("publication_date", Text("infinity")) == None
    ensures !Converts(EndlessSale(organization), outside)
  {
    assert Converted()[7] == "publication_date";
    assert Column(EndlessSale(organization), "publication_date") == Text("infinity");
  }

  lemma EndlessSaleIsAdmissible(k: Key, organization: Uuid)
    requires k.source.MarketSaleRecord?
    ensures Admissible(map[], k, EndlessSale(organization)) && EndlessSale(organization).version == 1
  {
    var row := EndlessSale(organization);
    assert Column(row, "state") == Text("Preparation") && Text("Preparation") != Text("Completed");
    assert Column(row, "outcome") == Text("InProgress");
  }

  lemma EndlessSaleIsWritten(k: Key, row: Row, organization: Uuid, outside: Outside)
    requires k.source.MarketSaleRecord? && row == EndlessSale(organization)
    ensures var w := Live([Write(Insert(k, row, 1))], outside);
            && w.ledger.contributions == [ContributionOf(k, row, 1)]
            && w.shared == Shared(map[], []) && Faithful(w, outside)
  {
    EndlessSaleIsAdmissible(k, organization);
    hide EventKey, Admissible, Faithful, EndlessSale;
    var events := [Write(Insert(k, row, 1))];
    assert events[..0] == [];
    assert !ContributionTaken([], k, 1) && ReusesNoId([], outside);
    LiveIsFaithful(events, outside);
  }

  lemma TwoClaims(first: Event, outside: Outside)
    ensures Live([first, Claim(0), Claim(0)], outside)
        == Attempt(Attempt(Live([first], outside), 0, outside), 0, outside)
  {
    hide Attempt;
    var events := [first, Claim(0), Claim(0)];
    assert events[..2] == [first, Claim(0)] && [first, Claim(0)][..1] == [first];
    assert Live([first, Claim(0)], outside) == Happen(Live([first], outside), Claim(0), outside);
    assert Live(events, outside) == Happen(Live([first, Claim(0)], outside), Claim(0), outside);
  }

  // --------------------------------------------------------------- the live worker

  /** A batch of claims, one after the other. */
  function Drained(w: World, picks: seq<nat>, outside: Outside): World {
    if picks == [] then w
    else Attempt(Drained(w, picks[..|picks| - 1], outside), picks[|picks| - 1], outside)
  }

  /** The contributions of the batch that are Projected. */
  function Projecteds(l: Ledger, picks: seq<nat>): set<nat> {
    set p | p in picks && p < |l.contributions| && l.contributions[p].state.Projected?
  }

  predicate Distinct(picks: seq<nat>) {
    forall i, j | 0 <= i < j < |picks| :: picks[i] != picks[j]
  }

  lemma NoneProjected(l: Ledger)
    ensures Projecteds(l, []) == {}
  {
  }

  lemma OneMoreProjected(before: Ledger, after: Ledger, picks: seq<nat>, i: nat)
    requires Distinct(picks) && i < |picks| && |after.contributions| == |before.contributions|
    requires picks[i] < |after.contributions|
    requires forall q | 0 <= q < |after.contributions| && q != picks[i] ::
               after.contributions[q] == before.contributions[q]
    ensures |Projecteds(after, picks[..i + 1])|
         == |Projecteds(before, picks[..i])| + if after.contributions[picks[i]].state.Projected? then 1 else 0
  {
    assert picks[..i + 1] == picks[..i] + [picks[i]] && picks[i] !in picks[..i];
    assert Projecteds(after, picks[..i]) == Projecteds(before, picks[..i]);
    assert Projecteds(after, picks[..i + 1])
        == Projecteds(before, picks[..i]) + if after.contributions[picks[i]].state.Projected? then {picks[i]} else {};
  }

  // ---------------------------------------------------------- what draining achieves

  predicate IsSaleAt(w: World, j: nat) {
    j < |w.ledger.contributions| && w.ledger.contributions[j].key.source.MarketSaleRecord?
  }

  /** The contribution has been tried: its version is stored, whatever its outcome. */
  predicate Tried(w: World, j: nat) {
    && IsSaleAt(w, j) && Stale(w.shared, w.ledger.contributions[j])
    && !w.ledger.contributions[j].state.Pending?
  }

  /** What one claim leaves of any contribution. */
  lemma ClaimKeepsContribution(w: World, i: nat, outside: Outside, j: nat)
    requires j < |w.ledger.contributions|
    ensures var w' := Attempt(w, i, outside); var c, c' := w.ledger.contributions[j], w'.ledger.contributions[j];
            && |w'.ledger.contributions| == |w.ledger.contributions| && SameFact(c, c')
            && w'.ledger.rows == w.ledger.rows
            && (c.state.Projected? || i != j ==> c' == c) && (!c.state.Pending? ==> !c'.state.Pending?)
            && (Stale(w.shared, c) ==> Stale(w'.shared, c'))
  {
    hide ProjectSale;
    var c := w.ledger.contributions[j];
    if Stale(w.shared, c) {
      SharedVersionsNeverGoBack(w, Claim(i), outside, TargetOf(c));
    }
  }

  /** A claim of an open sale stores its version; of one already tried, it ends Projected. */
  lemma ClaimTries(w: World, j: nat, outside: Outside)
    requires Faithful(w, outside) && IsSaleAt(w, j) && (w.ledger.contributions[j].state.Projected? ==> Tried(w, j))
    ensures Tried(Attempt(w, j, outside), j)
    ensures Tried(w, j) ==> Attempt(w, j, outside).ledger.contributions[j].state.Projected?
  {
    ClaimKeepsContribution(w, j, outside, j);
    if Stale(w.shared, w.ledger.contributions[j]) {
      StaleClaim(w, j, outside);
    } else {
      FirstClaim(w, j, outside);
    }
    hide Attempt, Faithful, Stale, Converts, Image, Columns;
  }

  lemma FaithfulTried(w: World, j: nat, outside: Outside)
    requires Faithful(w, outside) && IsSaleAt(w, j) && w.ledger.contributions[j].state.Projected?
    ensures Tried(w, j)
  {
    assert Reflected(w, w.ledger.contributions[j]);
  }

  lemma {:induction false} DrainKeepsFaithful(w: World, picks: seq<nat>, outside: Outside)
    requires Faithful(w, outside)
    ensures Faithful(Drained(w, picks, outside), outside)
  {
    hide Faithful, Attempt;
    if picks != [] {
      DrainKeepsFaithful(w, picks[..|picks| - 1], outside);
      ClaimKeepsFaithful(Drained(w, picks[..|picks| - 1], outside), picks[|picks| - 1], outside);
    }
  }

  lemma {:induction false} DrainKeepsContribution(w: World, picks: seq<nat>, outside: Outside, j: nat)
    requires j < |w.ledger.contributions|
    ensures var w' := Drained(w, picks, outside);
            && |w'.ledger.contributions| == |w.ledger.contributions|
            && SameFact(w.ledger.contributions[j], w'.ledger.contributions[j])
            && w'.ledger.rows == w.ledger.rows && (Tried(w, j) ==> Tried(w', j))
            && (w.ledger.contributions[j].state.Projected? ==> w'.ledger.contributions[j].state.Projected?)
  {
    hide Attempt, Stale;
    if picks != [] {
      var rest := picks[..|picks| - 1];
      DrainKeepsContribution(w, rest, outside, j);
      ClaimKeepsContribution(Drained(w, rest, outside), picks[|picks| - 1], outside, j);
    }
  }

  /** Every sale of a batch has been tried after it; one tried before is Projected. */
  lemma {:induction false} DrainTries(w: World, picks: seq<nat>, outside: Outside, j: nat)
    requires Faithful(w, outside) && IsSaleAt(w, j) && j in picks
    ensures Tried(Drained(w, picks, outside), j)
    ensures Tried(w, j) ==> Drained(w, picks, outside).ledger.contributions[j].state.Projected?
  {
    var n := |picks| - 1;
    var rest := picks[..n];
    var w1 := Drained(w, rest, outside);
    DrainKeepsFaithful(w, rest, outside);
    DrainKeepsContribution(w, rest, outside, j);
    hide Faithful, Attempt, Tried;
    ClaimKeepsContribution(w1, picks[n], outside, j);
    if picks[n] == j {
      assert IsSaleAt(w1, j);
      if w1.ledger.contributions[j].state.Projected? { FaithfulTried(w1, j, outside); }
      ClaimTries(w1, j, outside);
    } else {
      assert picks == rest + [picks[n]];
      DrainTries(w, rest, outside, j);
      TriedStays(w1, picks[n], outside, j);
    }
  }

  lemma TriedStays(w: World, i: nat, outside: Outside, j: nat)
    requires Tried(w, j)
    ensures Tried(Attempt(w, i, outside), j)
  {
    hide Attempt, Stale;
    ClaimKeepsContribution(w, i, outside, j);
  }

  /** The batch names every sale contribution that is not Projected. */
  ghost predicate CoversSales(w: World, picks: seq<nat>) {
    forall j: nat | IsSaleAt(w, j) && !w.ledger.contributions[j].state.Projected? :: j in picks
  }

  /** One drain of the open sales leaves each Projected or Failed. */
  lemma DrainSettles(w: World, picks: seq<nat>, outside: Outside, j: nat)
    requires Faithful(w, outside) && CoversSales(w, picks) && IsSaleAt(w, j)
    ensures IsSaleAt(Drained(w, picks, outside), j)
        && !Drained(w, picks, outside).ledger.contributions[j].state.Pending?
    ensures Tried(Drained(w, picks, outside), j)
  {
    hide Faithful, Stale;
    DrainKeepsContribution(w, picks, outside, j);
    if w.ledger.contributions[j].state.Projected? {
      FaithfulTried(w, j, outside);
    } else {
      DrainTries(w, picks, outside, j);
    }
  }

  /** A second drain leaves each Projected: every record then has its sale's version, converted or not. */
  lemma TwoDrainsProjectAll(w: World, first: seq<nat>, second: seq<nat>, outside: Outside)
    requires Faithful(w, outside) && CoversSales(w, first) && CoversSales(Drained(w, first, outside), second)
    ensures var end := Drained(Drained(w, first, outside), second, outside);
            && Faithful(end, outside) && end.ledger.rows == w.ledger.rows
            && (forall j: nat | IsSaleAt(end, j) :: end.ledger.contributions[j].state.Projected?)
  {
    hide Faithful, Tried, CoversSales;
    var once := Drained(w, first, outside);
    var end := Drained(once, second, outside);
    DrainKeepsFaithful(w, first, outside);
    DrainKeepsFaithful(once, second, outside);
    DrainKeepsRows(w, first, outside);
    DrainKeepsRows(once, second, outside);
    forall j: nat | IsSaleAt(end, j) ensures end.ledger.contributions[j].state.Projected? {
      DrainKeepsContribution(w, first, outside, j);
      DrainKeepsContribution(once, second, outside, j);
      DrainSettles(w, first, outside, j);
      SecondDrainProjects(once, second, outside, j);
    }
  }

  lemma {:induction false} DrainKeepsRows(w: World, picks: seq<nat>, outside: Outside)
    ensures Drained(w, picks, outside).ledger.rows == w.ledger.rows
    ensures |Drained(w, picks, outside).ledger.contributions| == |w.ledger.contributions|
  {
    hide Project;
    if picks != [] {
      DrainKeepsRows(w, picks[..|picks| - 1], outside);
    }
  }

  lemma SecondDrainProjects(w: World, picks: seq<nat>, outside: Outside, j: nat)
    requires Faithful(w, outside) && CoversSales(w, picks) && Tried(w, j)
    ensures var w' := Drained(w, picks, outside); IsSaleAt(w', j) && w'.ledger.contributions[j].state.Projected?
  {
    hide Faithful, Stale;
    DrainKeepsContribution(w, picks, outside, j);
    if !w.ledger.contributions[j].state.Projected? {
      DrainTries(w, picks, outside, j);
    }
  }

  /**
   What draining achieves: after two drains of the open sales, with no writes in between, every
   sale's shared record has the current version, and holds the current row if and only if the
   row converts.
   */
  lemma TwoDrainsDeliverExactlyWhen(w: World, first: seq<nat>, second: seq<nat>, outside: Outside, k: Key)
    requires Faithful(w, outside) && CoversSales(w, first) && CoversSales(Drained(w, first, outside), second)
    requires k.source.MarketSaleRecord? && k in w.ledger.rows
    ensures var end, row := Drained(Drained(w, first, outside), second, outside), w.ledger.rows[k];
            && SharedKey(row.organization, k.id) in end.shared.records
            && var r := end.shared.records[SharedKey(row.organization, k.id)];
            r.version == row.version && (Delivered(r, row, outside) <==> Converts(row, outside))
  {
    var end := Drained(Drained(w, first, outside), second, outside);
    TwoDrainsProjectAll(w, first, second, outside);
    NewestContribution(end, k, outside);
    FaithfulSaleIsCurrent(end, k, outside);
    var row := w.ledger.rows[k];
    DeliveredExactlyWhen(end.shared.records[SharedKey(row.organization, k.id)], row, outside);
    hide Faithful, Delivered, Converts, Image, Columns, Drained, CoversSales;
  }

  lemma NewestContribution(w: World, k: Key, outside: Outside)
    requires Faithful(w, outside) && k.source.MarketSaleRecord? && k in w.ledger.rows
    requires forall j: nat | IsSaleAt(w, j) :: w.ledger.contributions[j].state.Projected?
    ensures exists c :: c in w.ledger.contributions && c.key == k && c.version == w.ledger.rows[k].version
                        && c.state.Projected?
  {
    hide RecordHasSource, Reflected, ReplacedIsOlder, DistinctVersions, EventKey;
    var l := w.ledger;
    assert Linked(l, k);
    CurrentContribution(l, k);
    LinkedVersionsAreKnown(l, k, l.rows[k].version);
    ContributionOfVersion(l, k, l.rows[k].version);
    var cs := ContributionsOf(l.contributions, k);
    var c := cs[l.rows[k].version - cs[0].version];
    InContributionsOf(l.contributions, c, k);
    var j :| 0 <= j < |l.contributions| && l.contributions[j] == c;
    assert IsSaleAt(w, j);
  }

  class MarketProjector {
    var ledger: Ledger
    var shared: Shared

    function Contents(): World
      reads this
    {
      World(ledger, shared)
    }

    constructor (ledger: Ledger)
      ensures Contents() == World(ledger, Shared(map[], []))
    {
      this.ledger := ledger;
      this.shared := Shared(map[], []);
    }

    /** Archives the current record, stores the version first, then the columns in turn. */
    method ProjectOne(c: Contribution, outside: Outside) returns (ok: bool)
      modifies this`shared
      ensures (shared, ok) == ProjectSale(old(shared), c, outside)
    {
      hide Plain, Converted;
      var k := SharedKey(c.organization, c.key.id);
      if k in shared.records && shared.records[k].version >= c.version {
        return true;
      }
      var facts := map[];
      var replaced := shared.replaced;
      assert replaced + [] == replaced;
      if k in shared.records {
        replaced := replaced + [ReplacedVersion(k.id, shared.records[k])];
        facts := shared.records[k].facts;
      }
      ghost var copied := Copied(facts, c.payload);
      facts := facts + map n | n in Plain() :: Column(c.payload, n);
      assert facts == copied;
      var names := Converted();
      ok := true;
      var i := 0;
      while i < |names| && ok
        invariant 0 <= i <= |names|
        invariant ok ==> WriteColumns(copied, c.payload, names[..i], outside) == Written(facts, true)
        invariant !ok ==> WriteColumns(copied, c.payload, names, outside) == Written(facts, false)
        decreases |names| - i, ok
        modifies {}
      {
        assert names[..i + 1][..i] == names[..i];
        match outside.convert(names[i], Column(c.payload, names[i])) {
          case None =>
            ok := false;
            FailureIsFinal(copied, c.payload, names, i + 1, outside);
          case Some(value) =>
            facts := facts[names[i] := value];
        }
        i := i + 1;
      }
      assert names[..|names|] == names;
      shared := Shared(shared.records[k := SharedRecord(c.version, facts)], replaced);
    }

    /** One claimed contribution, with its outcome written back. */
    method ClaimOne(p: nat, outside: Outside) returns (ok: bool)
      requires Claimable(Contents(), p)
      modifies this
      ensures Contents() == Attempt(old(Contents()), p, outside)
      ensures |ledger.contributions| == |old(ledger).contributions|
      ensures ledger.contributions[p].state == if ok then Projected else Failed
      ensures forall q | 0 <= q < |ledger.contributions| && q != p ::
                ledger.contributions[q] == old(ledger).contributions[q]
    {
      hide ProjectSale;
      var c := ledger.contributions[p];
      if c.key.source.MarketSaleRecord? {
        ok := ProjectOne(c, outside);
      } else {
        ok := outside.profile(c);
      }
      if ok {
        c := c.(attempts := c.attempts + 1, state := Projected);
      } else {
        c := c.(attempts := c.attempts + 1, state := Failed);
      }
      ledger := ledger.(contributions := ledger.contributions[p := c]);
    }

    /** Drains one batch; an exception of one contribution does not stop the others. */
    method Drain(picks: seq<nat>, outside: Outside) returns (projected: nat, failed: nat)
      requires Distinct(picks) && forall p | p in picks :: Claimable(Contents(), p)
      modifies this
      ensures Contents() == Drained(old(Contents()), picks, outside)
      ensures |ledger.contributions| == |old(ledger).contributions| && projected + failed == |picks|
      ensures projected == |Projecteds(ledger, picks)|
      ensures forall p | p in picks :: p < |ledger.contributions| && !ledger.contributions[p].state.Pending?
    {
      hide Attempt, Projecteds;
      projected, failed := 0, 0;
      assert Projecteds(ledger, picks[..0]) == {} by { NoneProjected(ledger); }
      for i := 0 to |picks|
        invariant Contents() == Drained(old(Contents()), picks[..i], outside)
        invariant projected + failed == i
        invariant forall j | i <= j < |picks| :: Claimable(Contents(), picks[j])
        invariant |ledger.contributions| == |old(ledger).contributions|
        invariant projected == |Projecteds(ledger, picks[..i])|
        invariant forall p | p in picks[..i] :: p < |ledger.contributions| && !ledger.contributions[p].state.Pending?
      {
        assert picks[..i + 1][..i] == picks[..i];
        ghost var before := ledger;
        var ok := ClaimOne(picks[i], outside);
        OneMoreProjected(before, ledger, picks, i);
        if ok {
          projected := projected + 1;
        } else {
          failed := failed + 1;
        }
      }
      assert picks[..|picks|] == picks;
    }
  }

  lemma {:induction false} FailureIsFinal(facts: map<string, Json>, row: Row, names: seq<string>, n: nat,
        outside: Outside)
    requires n <= |names| && !WriteColumns(facts, row, names[..n], outside).ok
    ensures WriteColumns(facts, row, names, outside) == WriteColumns(facts, row, names[..n], outside)
  {
    if n < |names| {
      assert names[..|names| - 1][..n] == names[..n];
      FailureIsFinal(facts, row, names[..|names| - 1], n, outside);
    } else {
      assert names[..n] == names;
    }
  }
}
