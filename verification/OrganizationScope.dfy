/**
 The backfill of revision 0026: every operational row receives an Organization, read
 across a reference it already had or set to the bootstrap Organization, and composite
 keys then require a row and its parent to agree.

 A table is a set of rows with an optional Organization and the non-NULL references.
 */
module OrganizationScope {
  import opened Prelude

  datatype Table =
    | Properties | PropertyDocumentVersions | Leads | LeadEngagementCycles | LeadFollowups
    | Conversations | InboxMessages | InboxGroups | OutboxMessages | ConsentRecords
    | SuppressionRecords | OutboundDecisions | AvailabilitySnapshots | Appointments
    | AppointmentReminders | SavedCollections | SavedCollectionItems | WebsiteConversations
    | WebsiteMessages | SponsorshipPriceCatalogs | SponsorshipPriceItems | SponsorshipCampaigns
    | SponsorshipDeliveryDays | CatalogListings | AuditEvents | DeliveryStatuses | AdminMessages
    | ChannelCursors | AgentSessions

  datatype Column =
    | PropertyUuid | LeadId | CycleId | ConversationId | AppointmentId | CollectionId | ListingId
    | CatalogId | CampaignId | OutboxId

  datatype Ref = Ref(table: Table, id: nat)

  datatype Row = Row(organization: Option<nat>, refs: map<Column, nat>)

  type Database = map<Ref, Row>

  /** A reference from a child column to a parent table: a backfill entry and a composite key alike. */
  datatype Link = Link(child: Table, parent: Table, column: Column)

  /** What a scoping migration lists: joined tables, tables set directly, and keys over other references. */
  datatype Plan = Plan(backfill: seq<Link>, direct: seq<Table>, cross: seq<Link>)

  function RevisionBackfill(): seq<Link> {
    [
      Link(PropertyDocumentVersions, Properties, PropertyUuid),
      Link(LeadEngagementCycles, Leads, LeadId),
      Link(LeadFollowups, LeadEngagementCycles, CycleId),
      Link(InboxMessages, Conversations, ConversationId),
      Link(InboxGroups, Conversations, ConversationId),
      Link(OutboxMessages, Conversations, ConversationId),
      Link(ConsentRecords, Leads, LeadId),
      Link(SuppressionRecords, Leads, LeadId),
      Link(OutboundDecisions, Conversations, ConversationId),
      Link(AvailabilitySnapshots, Conversations, ConversationId),
      Link(AppointmentReminders, Appointments, AppointmentId),
      Link(SavedCollectionItems, SavedCollections, CollectionId),
      Link(WebsiteMessages, WebsiteConversations, ConversationId),
      Link(SponsorshipPriceItems, SponsorshipPriceCatalogs, CatalogId),
      Link(SponsorshipDeliveryDays, SponsorshipCampaigns, CampaignId)]
  }

  function RevisionDirect(): seq<Table> {
    [AuditEvents, DeliveryStatuses, AdminMessages, ChannelCursors, AgentSessions]
  }

  /** Composite keys over references the backfill did not read. */
  function RevisionCrossKeys(): seq<Link> {
    [
      Link(LeadFollowups, Conversations, ConversationId),
      Link(DeliveryStatuses, OutboxMessages, OutboxId),
      Link(AvailabilitySnapshots, Properties, PropertyUuid),
      Link(AgentSessions, LeadEngagementCycles, CycleId),
      Link(SavedCollectionItems, CatalogListings, ListingId)]
  }

  function Revision0026(): Plan {
    Plan(RevisionBackfill(), RevisionDirect(), RevisionCrossKeys())
  }

  /** `COMPOSITE_FKS`: one key for each backfill entry, and the cross keys. */
  function CompositeKeys(plan: Plan): seq<Link> {
    plan.backfill + plan.cross
  }

  // ------------------------------------------------------------------- the updates

  predicate Follows(db: Database, r: Ref, l: Link) {
    r in db && r.table == l.child && l.column in db[r].refs && Ref(l.parent, db[r].refs[l.column]) in db
  }

  function ParentOf(db: Database, r: Ref, l: Link): Ref
    requires Follows(db, r, l)
  {
    Ref(l.parent, db[r].refs[l.column])
  }

  /** UPDATE child SET organization_id = parent.organization_id FROM parent. */
  function Inherit(db: Database, l: Link): Database {
    map r | r in db ::
      if Follows(db, r, l) then db[r].(organization := db[ParentOf(db, r, l)].organization) else db[r]
  }

  function InheritAll(db: Database, links: seq<Link>): Database {
    if links == [] then db else Inherit(InheritAll(db, links[..|links| - 1]), links[|links| - 1])
  }

  function AssignTo(db: Database, tables: seq<Table>, organization: nat): Database {
    map r | r in db :: if r.table in tables then db[r].(organization := Some(organization)) else db[r]
  }

  function Upgraded(db: Database, plan: Plan, bootstrap: nat): Database {
    AssignTo(InheritAll(db, plan.backfill), plan.direct, bootstrap)
  }

  // ---------------------------------------------------------------- the walk to a root

  /** A scoped parent precedes its children: nothing rewrites a parent once it was read. */
  predicate ParentsFirst(links: seq<Link>) {
    && (forall i, j | 0 <= i < j < |links| :: links[i].child != links[j].child)
    && (forall i, j | 0 <= i <= j < |links| :: links[i].parent != links[j].child)
  }

  function EntryOf(links: seq<Link>, table: Table): (r: Option<nat>)
    ensures r.Some? ==> r.value < |links| && links[r.value].child == table
    ensures r.None? ==> forall i | 0 <= i < |links| :: links[i].child != table
  {
    if links == [] then None
    else if links[|links| - 1].child == table then Some(|links| - 1)
    else EntryOf(links[..|links| - 1], table)
  }

  /** Follows the references upward in the original rows until a table that had its Organization. */
  function RootOf(db: Database, links: seq<Link>, r: Ref): Ref
    decreases |links|
  {
    match EntryOf(links, r.table)
    case None => r
    case Some(i) => if Follows(db, r, links[i]) then RootOf(db, links[..i], ParentOf(db, r, links[i])) else r
  }

  lemma {:induction false} InheritAllKeepsRows(db: Database, links: seq<Link>)
    ensures InheritAll(db, links).Keys == db.Keys
    ensures forall r | r in db :: InheritAll(db, links)[r].refs == db[r].refs
    ensures forall r | r in db && EntryOf(links, r.table).None? :: InheritAll(db, links)[r] == db[r]
  {
    if links != [] {
      InheritAllKeepsRows(db, links[..|links| - 1]);
    }
  }

  lemma {:induction false} PrefixDecides(db: Database, links: seq<Link>, n: nat, r: Ref)
    requires n <= |links| && r in db && forall j | n <= j < |links| :: links[j].child != r.table
    ensures r in InheritAll(db, links) && r in InheritAll(db, links[..n])
    ensures InheritAll(db, links)[r] == InheritAll(db, links[..n])[r]
  {
    InheritAllKeepsRows(db, links);
    InheritAllKeepsRows(db, links[..n]);
    if n == |links| {
      assert links[..n] == links;
    } else {
      var rest := links[..|links| - 1];
      assert rest[..n] == links[..n];
      InheritAllKeepsRows(db, rest);
      PrefixDecides(db, rest, n, r);
    }
  }

  lemma EntryDecides(db: Database, links: seq<Link>, i: nat, r: Ref)
    requires ParentsFirst(links) && r in db && i < |links| && links[i].child == r.table
    ensures r in InheritAll(db, links) && InheritAll(db, links[..i]).Keys == db.Keys
    ensures InheritAll(db, links)[r].organization ==
            if Follows(db, r, links[i]) then InheritAll(db, links[..i])[ParentOf(db, r, links[i])].organization
            else db[r].organization
  {
    var before := links[..i];
    assert links[..i + 1][..i] == before && links[..i + 1][i] == links[i];
    assert forall j | i + 1 <= j < |links| :: links[j].child != r.table;
    assert forall j | 0 <= j < i :: before[j].child != r.table;
    hide ParentsFirst, Inherit, InheritAll;
    PrefixDecides(db, links, i + 1, r);
    UntouchedSoFar(db, before, r);
    InheritAllKeepsRows(db, before);
    LastLinkDecides(db, links[..i + 1], r);
  }

  lemma UntouchedSoFar(db: Database, links: seq<Link>, r: Ref)
    requires r in db && forall j | 0 <= j < |links| :: links[j].child != r.table
    ensures r in InheritAll(db, links) && InheritAll(db, links)[r] == db[r]
  {
    PrefixDecides(db, links, 0, r);
    assert links[..0] == [];
  }

  lemma LastLinkDecides(db: Database, links: seq<Link>, r: Ref)
    requires links != [] && r in db
    requires var before := InheritAll(db, links[..|links| - 1]);
             before.Keys == db.Keys && before[r] == db[r]
    ensures var l, before := links[|links| - 1], InheritAll(db, links[..|links| - 1]);
            && r in InheritAll(db, links)
            && InheritAll(db, links)[r].organization ==
               if Follows(db, r, l) then before[ParentOf(db, r, l)].organization else db[r].organization
  {
    var l, before := links[|links| - 1], InheritAll(db, links[..|links| - 1]);
    assert InheritAll(db, links) == Inherit(before, l);
    assert Follows(before, r, l) == Follows(db, r, l);
    hide InheritAll;
  }

  /** The loop gives every row the Organization of its root in the original data. */
  lemma {:induction false} BackfillReadsRoot(db: Database, links: seq<Link>, r: Ref)
    requires ParentsFirst(links) && r in db
    ensures RootOf(db, links, r) in db && r in InheritAll(db, links)
    ensures InheritAll(db, links)[r].organization == db[RootOf(db, links, r)].organization
    decreases |links|
  {
    hide InheritAll;
    InheritAllKeepsRows(db, links);
    if EntryOf(links, r.table).Some? {
      var i := EntryOf(links, r.table).value;
      EntryDecides(db, links, i, r);
      if Follows(db, r, links[i]) {
        BackfillReadsRoot(db, links[..i], ParentOf(db, r, links[i]));
      }
    }
  }

  /** Every child agrees with the parent it inherited from, in the final tables. */
  lemma {:induction false} BackfilledChildrenAgree(db: Database, links: seq<Link>, i: nat, r: Ref)
    requires ParentsFirst(links) && i < |links| && Follows(db, r, links[i])
    ensures r in InheritAll(db, links) && ParentOf(db, r, links[i]) in InheritAll(db, links)
    ensures InheritAll(db, links)[r].organization == InheritAll(db, links)[ParentOf(db, r, links[i])].organization
  {
    var p := ParentOf(db, r, links[i]);
    InheritAllKeepsRows(db, links);
    InheritAllKeepsRows(db, links[..i]);
    assert links[..i + 1][..i] == links[..i];
    PrefixDecides(db, links, i + 1, r);
    PrefixDecides(db, links, i, p);
  }

  /**
   The Organization each row ends with, on the columns: the bootstrap Organization in a table set
   directly; the one its parent ends with, in a joined table; and otherwise the one it had.
   References and rows stay.
   */
  lemma RowsEndWithTheirParents(db: Database, plan: Plan, bootstrap: nat, r: Ref)
    requires Sensible(plan) && r in db
    ensures var db' := Upgraded(db, plan, bootstrap);
            && db'.Keys == db.Keys && db'[r].refs == db[r].refs
            && (r.table in plan.direct ==> db'[r].organization == Some(bootstrap))
            && (forall l | l in plan.backfill && l.child == r.table && l.column in db[r].refs ::
                  var parent := Ref(l.parent, db[r].refs[l.column]);
                  if parent in db then db'[r].organization == db'[parent].organization
                  else db'[r].organization == db[r].organization)
            && (r.table !in plan.direct && (forall l | l in plan.backfill :: l.child != r.table) ==> db'[r] == db[r])
  {
    var links, db' := plan.backfill, Upgraded(db, plan, bootstrap);
    InheritAllKeepsRows(db, links);
    forall l | l in links && l.child == r.table && l.column in db[r].refs
      ensures var parent := Ref(l.parent, db[r].refs[l.column]);
              if parent in db then db'[r].organization == db'[parent].organization
              else db'[r].organization == db[r].organization
    {
      var i :| 0 <= i < |links| && links[i] == l;
      EntryDecides(db, links, i, r);
      if Follows(db, r, l) { BackfilledChildrenAgree(db, links, i, r); }
    }
    hide InheritAll, ParentsFirst;
  }

  /** Parents first, and no joined table or its parent is set directly. */
  predicate Sensible(plan: Plan) {
    && ParentsFirst(plan.backfill)
    && forall l | l in plan.backfill :: l.child !in plan.direct && l.parent !in plan.direct
  }

  function Position(t: Table): int {
    match t
    case PropertyDocumentVersions => 0
    case LeadEngagementCycles => 1
    case LeadFollowups => 2
    case InboxMessages => 3
    case InboxGroups => 4
    case OutboxMessages => 5
    case ConsentRecords => 6
    case SuppressionRecords => 7
    case OutboundDecisions => 8
    case AvailabilitySnapshots => 9
    case AppointmentReminders => 10
    case SavedCollectionItems => 11
    case WebsiteMessages => 12
    case SponsorshipPriceItems => 13
    case SponsorshipDeliveryDays => 14
    case _ => -1
  }

  lemma RevisionPositions(i: nat)
    requires i < |RevisionBackfill()|
    ensures var l := RevisionBackfill()[i];
            && Position(l.child) == i && Position(l.parent) < i
            && l.child !in RevisionDirect() && l.parent !in RevisionDirect()
  {
  }

  lemma PositionIsInjective(a: Table, b: Table)
    requires Position(a) == Position(b) >= 0
    ensures a == b
  {
  }

  /** A table's entry in the first `n` rows of the list is its position, if it is there. */
  lemma EntryIsPosition(n: nat, table: Table)
    requires n <= |RevisionBackfill()|
    ensures EntryOf(RevisionBackfill()[..n], table) == if 0 <= Position(table) < n then Some(Position(table)) else None
  {
    var links, j := RevisionBackfill(), Position(table);
    var r := EntryOf(links[..n], table);
    if r.Some? { RevisionPositions(r.value); }
    if 0 <= j < n {
      RevisionPositions(j);
      hide RevisionBackfill;
      PositionIsInjective(links[j].child, table);
      assert links[..n][j].child == table;
    }
    hide RevisionBackfill, Position, EntryOf;
  }

  /** The lists of revision 0026 are ordered as the theorems ask. */
  lemma RevisionIsSensible()
    ensures Sensible(Revision0026())
  {
    hide RevisionDirect, Position;
    var links := RevisionBackfill();
    forall i | 0 <= i < |links|
      ensures Position(links[i].child) == i && Position(links[i].parent) < i
      ensures links[i].child !in RevisionDirect() && links[i].parent !in RevisionDirect()
    {
      RevisionPositions(i);
    }
    hide RevisionBackfill;
    assert ParentsFirst(links);
  }

  /** With the follow-ups moved before the cycles they read, a follow-up stays unscoped. */
  lemma OrderMatters()
    ensures var links, db := [FOLLOWUP_LINK, CYCLE_LINK], Unscoped();
            && !ParentsFirst(links)
            && CYCLE in InheritAll(db, links) && InheritAll(db, links)[CYCLE].organization == Some(9)
            && FOLLOWUP in InheritAll(db, links) && InheritAll(db, links)[FOLLOWUP].organization == None
  {
    var links, db := [FOLLOWUP_LINK, CYCLE_LINK], Unscoped();
    assert links[0].parent == links[1].child;
    FollowupsFirst();
    InheritTwo(db, FOLLOWUP_LINK, CYCLE_LINK);
    hide Inherit, InheritAll, Unscoped;
  }

  lemma InheritTwo(db: Database, first: Link, second: Link)
    ensures InheritAll(db, [first, second]) == Inherit(Inherit(db, first), second)
  {
    hide Inherit;
    assert [first, second][..1] == [first] && [first][..0] == [];
    assert InheritAll(db, []) == db;
    assert InheritAll(db, [first]) == Inherit(db, first);
  }

  const FOLLOWUP_LINK := Link(LeadFollowups, LeadEngagementCycles, CycleId)
  const CYCLE_LINK := Link(LeadEngagementCycles, Leads, LeadId)
  const CYCLE := Ref(LeadEngagementCycles, 2)
  const FOLLOWUP := Ref(LeadFollowups, 3)

  /** A lead of Organization 9 with a cycle and a follow-up, not yet scoped. */
  function Unscoped(): Database {
    map[Ref(Leads, 1) := Row(Some(9), map[]), CYCLE := Row(None, map[LeadId := 1]),
        FOLLOWUP := Row(None, map[CycleId := 2])]
  }

  lemma FollowupsFirst()
    ensures var db1 := Inherit(Unscoped(), FOLLOWUP_LINK);
            var db2 := Inherit(db1, CYCLE_LINK);
            && CYCLE in db2 && db2[CYCLE].organization == Some(9)
            && FOLLOWUP in db2 && db2[FOLLOWUP].organization == None
  {
    var db := Unscoped();
    assert Follows(db, FOLLOWUP, FOLLOWUP_LINK) && ParentOf(db, FOLLOWUP, FOLLOWUP_LINK) == CYCLE;
    var db1 := Inherit(db, FOLLOWUP_LINK);
    assert db1[FOLLOWUP].organization == None && db1[CYCLE] == db[CYCLE] && db1[Ref(Leads, 1)] == db[Ref(Leads, 1)];
    hide Unscoped;
    assert Follows(db1, CYCLE, CYCLE_LINK) && !Follows(db1, FOLLOWUP, CYCLE_LINK);
  }

  // --------------------------------------------------------------- composite keys

  /** A composite key over (organization_id, column); a NULL in either column passes. */
  predicate KeyHolds(db: Database, l: Link, r: Ref) {
    r in db && r.table == l.child && l.column in db[r].refs && db[r].organization.Some? ==>
      Follows(db, r, l) && db[ParentOf(db, r, l)].organization == db[r].organization
  }

  ghost predicate KeysHold(db: Database, keys: seq<Link>) {
    forall l, r | l in keys && r in db :: KeyHolds(db, l, r)
  }

  /** What revision 0026 finds: single-column keys hold, backfilled references are NOT NULL, roots are scoped. */
  ghost predicate Intact(db: Database, plan: Plan) {
    && (forall l, r | l in CompositeKeys(plan) && r in db && r.table == l.child
        && l.column in db[r].refs :: Follows(db, r, l))
    && (forall l, r | l in plan.backfill && r in db && r.table == l.child :: Follows(db, r, l))
    && (forall r | r in db && EntryOf(plan.backfill, r.table).None?
        && r.table !in plan.direct :: db[r].organization.Some?)
  }

  /** The Organization a row ends up with, told from the original data alone. */
  function HomeOf(db: Database, plan: Plan, bootstrap: nat, r: Ref): Option<nat> {
    if r.table in plan.direct then Some(bootstrap)
    else if RootOf(db, plan.backfill, r) in db then db[RootOf(db, plan.backfill, r)].organization
    else None
  }

  lemma UpgradedRowsAreHome(db: Database, plan: Plan, bootstrap: nat, r: Ref)
    requires Sensible(plan)
    requires r in db
    ensures r in Upgraded(db, plan, bootstrap) && Upgraded(db, plan, bootstrap)[r].refs == db[r].refs
    ensures Upgraded(db, plan, bootstrap)[r].organization == HomeOf(db, plan, bootstrap, r)
    ensures Upgraded(db, plan, bootstrap).Keys == db.Keys
  {
    InheritAllKeepsRows(db, plan.backfill);
    BackfillReadsRoot(db, plan.backfill, r);
  }

  lemma {:induction false} RootsAreScoped(db: Database, direct: seq<Table>, links: seq<Link>, r: Ref)
    requires r in db && ParentsFirst(links)
    requires forall l | l in links :: l.parent !in direct && l.child !in direct
    requires forall l, q | l in links && q in db && q.table == l.child :: Follows(db, q, l)
    ensures RootOf(db, links, r) in db && EntryOf(links, RootOf(db, links, r).table).None?
    ensures r.table !in direct ==> RootOf(db, links, r).table !in direct
    decreases |links|
  {
    if EntryOf(links, r.table).Some? {
      var i := EntryOf(links, r.table).value;
      assert links[i] in links;
      var p := ParentOf(db, r, links[i]);
      RootsAreScoped(db, direct, links[..i], p);
      RootIsNoLaterChild(db, links, i, p);
    }
  }

  lemma {:induction false} RootIsNoLaterChild(db: Database, links: seq<Link>, i: nat, p: Ref)
    requires ParentsFirst(links) && i <= |links| && p in db
    requires forall j | i <= j < |links| :: links[j].child != p.table
    requires EntryOf(links[..i], RootOf(db, links[..i], p).table).None?
    ensures EntryOf(links, RootOf(db, links[..i], p).table).None?
    decreases i
  {
    var root := RootOf(db, links[..i], p);
    forall j | i <= j < |links| ensures links[j].child != root.table {
      if root != p {
        RootTableIsParent(db, links[..i], p);
        var m :| 0 <= m < i && links[..i][m].parent == root.table;
        assert links[m].parent == root.table;
      }
    }
    assert forall j | 0 <= j < i :: links[j] == links[..i][j];
  }

  lemma {:induction false} RootTableIsParent(db: Database, links: seq<Link>, r: Ref)
    requires RootOf(db, links, r) != r
    ensures exists m | 0 <= m < |links| :: links[m].parent == RootOf(db, links, r).table
    decreases |links|
  {
    var i := EntryOf(links, r.table).value;
    var p := ParentOf(db, r, links[i]);
    if RootOf(db, links[..i], p) != p {
      RootTableIsParent(db, links[..i], p);
      var m :| 0 <= m < i && links[..i][m].parent == RootOf(db, links[..i], p).table;
      assert links[m].parent == RootOf(db, links, r).table;
    } else {
      assert links[i].parent == RootOf(db, links, r).table;
    }
  }

  /** No NOT NULL alteration of the migration can fail: every row gets an Organization. */
  lemma EveryRowIsScoped(db: Database, plan: Plan, bootstrap: nat, r: Ref)
    requires Sensible(plan)
    requires Intact(db, plan) && r in db
    ensures r in Upgraded(db, plan, bootstrap) && Upgraded(db, plan, bootstrap)[r].organization.Some?
  {
    RootsAreScoped(db, plan.direct, plan.backfill, r);
    UpgradedRowsAreHome(db, plan, bootstrap, r);
  }

  /** Whether two original rows a composite key joins belong together. */
  ghost predicate SameHome(db: Database, plan: Plan, bootstrap: nat, l: Link, r: Ref) {
    Follows(db, r, l) ==> HomeOf(db, plan, bootstrap, r) == HomeOf(db, plan, bootstrap, ParentOf(db, r, l))
  }

  lemma KeyHoldsExactlyAtHome(db: Database, plan: Plan, bootstrap: nat, l: Link, r: Ref)
    requires Sensible(plan)
    requires Intact(db, plan) && l in CompositeKeys(plan) && r in db
    ensures KeyHolds(Upgraded(db, plan, bootstrap), l, r) <==> SameHome(db, plan, bootstrap, l, r)
  {
    UpgradedRowsAreHome(db, plan, bootstrap, r);
    if r.table == l.child && l.column in db[r].refs {
      var p := ParentOf(db, r, l);
      UpgradedRowsAreHome(db, plan, bootstrap, p);
      EveryRowIsScoped(db, plan, bootstrap, r);
    }
  }

  lemma BackfillKeysHold(db: Database, plan: Plan, bootstrap: nat, l: Link, r: Ref)
    requires Sensible(plan)
    requires Intact(db, plan) && l in plan.backfill && r in db
    ensures KeyHolds(Upgraded(db, plan, bootstrap), l, r)
  {
    var i :| 0 <= i < |plan.backfill| && plan.backfill[i] == l;
    UpgradedRowsAreHome(db, plan, bootstrap, r);
    if Follows(db, r, l) {
      BackfilledChildrenAgree(db, plan.backfill, i, r);
      UpgradedRowsAreHome(db, plan, bootstrap, ParentOf(db, r, l));
    }
  }

  /**
   All composite keys of the revision validate if and only if the references the backfill
   did not read join rows with the same home. The backfilled references always do.
   */
  lemma UpgradeValidatesExactlyWhen(db: Database, plan: Plan, bootstrap: nat)
    requires Sensible(plan)
    requires Intact(db, plan)
    ensures KeysHold(Upgraded(db, plan, bootstrap), CompositeKeys(plan)) <==>
            forall l, r | l in plan.cross && r in db :: SameHome(db, plan, bootstrap, l, r)
  {
    hide Upgraded, HomeOf, Intact;
    var db' := Upgraded(db, plan, bootstrap);
    if exists r :: r in db {
      var r :| r in db;
      UpgradedRowsAreHome(db, plan, bootstrap, r);
    }
    forall l, r | l in CompositeKeys(plan) && r in db
      ensures l in plan.cross ==> (KeyHolds(db', l, r) <==> SameHome(db, plan, bootstrap, l, r))
      ensures l in plan.backfill ==> KeyHolds(db', l, r)
    {
      KeyHoldsExactlyAtHome(db, plan, bootstrap, l, r);
      if l in plan.backfill { BackfillKeysHold(db, plan, bootstrap, l, r); }
    }
    UpgradeKeepsRows(db, plan, bootstrap);
  }

  lemma UpgradeKeepsRows(db: Database, plan: Plan, bootstrap: nat)
    ensures Upgraded(db, plan, bootstrap).Keys == db.Keys
  {
    InheritAllKeepsRows(db, plan.backfill);
  }

  /**
   The revision files a delivery status under the bootstrap Organization unconditionally,
   so its key validates if and only if the status's message came from a bootstrap root.
   */
  lemma DeliveryStatusKeyHoldsExactlyWhen(db: Database, bootstrap: nat, delivery: Ref)
    requires Intact(db, Revision0026()) && delivery in db && delivery.table == DeliveryStatuses
    ensures var l := Link(DeliveryStatuses, OutboxMessages, OutboxId);
            l in CompositeKeys(Revision0026()) &&
            (KeyHolds(Upgraded(db, Revision0026(), bootstrap), l, delivery) <==>
              (OutboxId in db[delivery].refs ==>
                 var message := Ref(OutboxMessages, db[delivery].refs[OutboxId]);
                 && message in db && ConversationId in db[message].refs
                 && var conversation := Ref(Conversations, db[message].refs[ConversationId]);
                 && conversation in db && db[conversation].organization == Some(bootstrap)))
  {
    hide RevisionBackfill, Upgraded, RootOf, KeyHolds;
    RevisionIsSensible();
    var plan, l := Revision0026(), Link(DeliveryStatuses, OutboxMessages, OutboxId);
    assert l in plan.cross by { assert l == RevisionCrossKeys()[1]; }
    assert DeliveryStatuses in plan.direct by { assert DeliveryStatuses == RevisionDirect()[1]; }
    hide RevisionDirect, RevisionCrossKeys;
    KeyHoldsExactlyAtHome(db, plan, bootstrap, l, delivery);
    if OutboxId in db[delivery].refs {
      MessageHome(db, bootstrap, ParentOf(db, delivery, l));
    }
  }

  lemma MessageEntry()
    ensures EntryOf(RevisionBackfill(), OutboxMessages) == Some(5)
    ensures RevisionBackfill()[5] == Link(OutboxMessages, Conversations, ConversationId)
    ensures EntryOf(RevisionBackfill()[..5], Conversations) == None
  {
    var links := RevisionBackfill();
    assert |links| == 15 && links[5] == Link(OutboxMessages, Conversations, ConversationId);
    hide RevisionBackfill, EntryOf;
    EntryIsPosition(15, OutboxMessages);
    EntryIsPosition(5, Conversations);
    assert links[..15] == links;
  }

  lemma MessageHome(db: Database, bootstrap: nat, message: Ref)
    requires Intact(db, Revision0026()) && message in db && message.table == OutboxMessages
    ensures Follows(db, message, Link(OutboxMessages, Conversations, ConversationId))
    ensures HomeOf(db, Revision0026(), bootstrap, message)
         == db[ParentOf(db, message, Link(OutboxMessages, Conversations, ConversationId))].organization
  {
    hide RevisionBackfill, RevisionCrossKeys;
    MessageEntry();
    var l := Link(OutboxMessages, Conversations, ConversationId);
    assert l in Revision0026().backfill;
    assert OutboxMessages !in RevisionDirect();
    hide RevisionDirect;
    assert RootOf(db, RevisionBackfill(), message) == RootOf(db, RevisionBackfill()[..5], ParentOf(db, message, l));
  }

  /** A conversation of Organization 2, its message and that message's delivery status, before the revision. */
  function TwoOrganizations(): Database {
    map[Ref(Conversations, 4) := Row(Some(2), map[]),
        Ref(OutboxMessages, 5) := Row(None, map[ConversationId := 4]),
        Ref(DeliveryStatuses, 6) := Row(None, map[OutboxId := 5])]
  }

  lemma BackfillLinkAt(l: Link)
    requires l in RevisionBackfill()
    ensures 0 <= Position(l.child) < 15 && l == RevisionBackfill()[Position(l.child)] && |RevisionBackfill()| == 15
  {
    var j :| 0 <= j < |RevisionBackfill()| && RevisionBackfill()[j] == l;
    RevisionPositions(j);
    hide Position, RevisionDirect;
  }

  /** The only keys from messages and delivery statuses, and none from conversations. */
  lemma OutboxLinks(l: Link)
    requires l in RevisionBackfill() || l in RevisionCrossKeys()
    ensures l.child == OutboxMessages ==> l == Link(OutboxMessages, Conversations, ConversationId)
    ensures l.child == DeliveryStatuses ==> l == Link(DeliveryStatuses, OutboxMessages, OutboxId)
    ensures l.child != Conversations
  {
    if l in RevisionBackfill() {
      BackfillLinkFromOutbox(l);
    } else {
      CrossLinkFromOutbox(l);
    }
    hide RevisionBackfill, RevisionCrossKeys, RevisionDirect;
  }

  lemma BackfillLinkFromOutbox(l: Link)
    requires l in RevisionBackfill()
    ensures l.child == OutboxMessages ==> l == Link(OutboxMessages, Conversations, ConversationId)
    ensures l.child != DeliveryStatuses && l.child != Conversations
  {
    hide RevisionBackfill, Position, EntryOf;
    BackfillLinkAt(l);
    MessageEntry();
    OutboxPositions();
  }

  lemma OutboxPositions()
    ensures Position(OutboxMessages) == 5 && Position(DeliveryStatuses) == Position(Conversations) == -1
  {
  }

  lemma CrossLinkFromOutbox(l: Link)
    requires l in RevisionCrossKeys()
    ensures l.child != OutboxMessages && l.child != Conversations
    ensures l.child == DeliveryStatuses ==> l == Link(DeliveryStatuses, OutboxMessages, OutboxId)
  {
  }

  lemma TwoOrganizationsFollow(l: Link, r: Ref)
    requires l in CompositeKeys(Revision0026()) && r in TwoOrganizations() && r.table == l.child
    ensures Follows(TwoOrganizations(), r, l)
  {
    OutboxLinks(l);
    hide CompositeKeys;
  }

  lemma TwoOrganizationsRoots(r: Ref)
    requires r in TwoOrganizations() && EntryOf(RevisionBackfill(), r.table).None? && r.table !in RevisionDirect()
    ensures TwoOrganizations()[r].organization.Some?
  {
    MessageEntry();
    hide RevisionBackfill, EntryOf;
    assert DeliveryStatuses in RevisionDirect() by { assert RevisionDirect()[1] == DeliveryStatuses; }
    hide RevisionDirect;
  }

  lemma TwoOrganizationsAreIntact()
    ensures Intact(TwoOrganizations(), Revision0026())
  {
    var db, plan := TwoOrganizations(), Revision0026();
    forall l, r | l in CompositeKeys(plan) && r in db && r.table == l.child ensures Follows(db, r, l) {
      TwoOrganizationsFollow(l, r);
    }
    forall r | r in db && EntryOf(plan.backfill, r.table).None? && r.table !in plan.direct
        ensures db[r].organization.Some? {
      TwoOrganizationsRoots(r);
    }
    assert forall l | l in plan.backfill :: l in CompositeKeys(plan);
    hide TwoOrganizations, RevisionBackfill, RevisionDirect, RevisionCrossKeys, Follows, EntryOf;
  }

  /** Two Organizations before the revision: the migration then fails at the delivery statuses' key. */
  lemma SecondOrganizationFailsTheKey()
    ensures var db, plan := TwoOrganizations(), Revision0026();
            && Intact(db, plan)
            && !KeyHolds(Upgraded(db, plan, 1), Link(DeliveryStatuses, OutboxMessages, OutboxId),
                Ref(DeliveryStatuses, 6))
            && !KeysHold(Upgraded(db, plan, 1), CompositeKeys(plan))
            && forall l, r | l in CompositeKeys(plan) && l != Link(DeliveryStatuses, OutboxMessages, OutboxId) ::
                 KeyHolds(Upgraded(db, plan, 1), l, r)
  {
    TwoOrganizationsAreIntact();
    DeliveryStatusKeyHoldsExactlyWhen(TwoOrganizations(), 1, Ref(DeliveryStatuses, 6));
    UpgradeKeepsRows(TwoOrganizations(), Revision0026(), 1);
    SecondOrganizationsConversation();
    forall l, r | l in CompositeKeys(Revision0026()) && l != Link(DeliveryStatuses, OutboxMessages, OutboxId)
      ensures KeyHolds(Upgraded(TwoOrganizations(), Revision0026(), 1), l, r)
    {
      OtherKeysHold(l, r);
    }
    assert Link(DeliveryStatuses, OutboxMessages, OutboxId) in CompositeKeys(Revision0026());
    hide Upgraded, Intact, CompositeKeys, Revision0026, KeyHolds, TwoOrganizations;
  }

  lemma TwoOrganizationsTables(r: Ref)
    requires r in TwoOrganizations()
    ensures r.table in {Conversations, OutboxMessages, DeliveryStatuses}
  {
  }

  lemma OutboxLinkIsBackfilled()
    ensures Link(OutboxMessages, Conversations, ConversationId) in Revision0026().backfill
  {
    assert RevisionBackfill()[5] == Link(OutboxMessages, Conversations, ConversationId);
  }

  lemma OtherKeysHold(l: Link, r: Ref)
    requires l in CompositeKeys(Revision0026()) && l != Link(DeliveryStatuses, OutboxMessages, OutboxId)
    ensures KeyHolds(Upgraded(TwoOrganizations(), Revision0026(), 1), l, r)
  {
    hide RevisionBackfill, RevisionDirect, RevisionCrossKeys, TwoOrganizations, Upgraded, Intact, Sensible;
    var db, plan := TwoOrganizations(), Revision0026();
    UpgradeKeepsRows(db, plan, 1);
    if r in db && r.table == l.child {
      TwoOrganizationsTables(r);
      OutboxLinks(l);
      OutboxLinkIsBackfilled();
      TwoOrganizationsAreIntact();
      RevisionIsSensible();
      hide KeyHolds, CompositeKeys;
      BackfillKeysHold(db, plan, 1, l, r);
    }
  }

  lemma SecondOrganizationsConversation()
    ensures var db := TwoOrganizations();
            var status, message, conversation := Ref(DeliveryStatuses, 6), Ref(OutboxMessages, 5),
                Ref(Conversations, 4);
            && status in db && OutboxId in db[status].refs && db[status].refs[OutboxId] == 5
            && message in db && ConversationId in db[message].refs && db[message].refs[ConversationId] == 4
            && conversation in db && db[conversation].organization == Some(2)
  {
  }

  /**
   What revision 0015's keys say of follow-ups and conversations: a follow-up's conversation has
   its cycle, a conversation's cycle has its lead, and a conversation shares its lead's
   Organization. A conversation's lead is NOT NULL.
   */
  ghost predicate MeetsRevision0015(db: Database) {
    && (forall f | f in db && f.table == LeadFollowups && CycleId in db[f].refs && ConversationId in db[f].refs ::
          var v := Ref(Conversations, db[f].refs[ConversationId]);
          v in db && CycleId in db[v].refs && db[v].refs[CycleId] == db[f].refs[CycleId])
    && (forall v | v in db && v.table == Conversations && CycleId in db[v].refs ::
          var c := Ref(LeadEngagementCycles, db[v].refs[CycleId]);
          LeadId in db[v].refs && c in db && LeadId in db[c].refs && db[c].refs[LeadId] == db[v].refs[LeadId])
    && (forall v | v in db && v.table == Conversations && LeadId in db[v].refs && db[v].organization.Some? ::
          var lead := Ref(Leads, db[v].refs[LeadId]);
          lead in db && db[lead].organization == db[v].organization)
  }

  lemma FollowupEntry()
    ensures var links := RevisionBackfill();
            && EntryOf(links, LeadFollowups) == Some(2)
                && links[2] == Link(LeadFollowups, LeadEngagementCycles, CycleId)
            && EntryOf(links[..2], LeadEngagementCycles) == Some(1)
                && links[..2][1] == Link(LeadEngagementCycles, Leads, LeadId)
            && EntryOf(links[..2][..1], Leads) == None
            && EntryOf(links, Conversations) == None
            && Conversations !in RevisionDirect() && LeadFollowups !in RevisionDirect()
  {
    var links := RevisionBackfill();
    assert |links| == 15 && links[2] == Link(LeadFollowups, LeadEngagementCycles, CycleId);
    assert links[1] == Link(LeadEngagementCycles, Leads, LeadId);
    RevisionPositions(2);
    hide RevisionBackfill, EntryOf;
    EntryIsPosition(15, LeadFollowups);
    EntryIsPosition(15, Conversations);
    EntryIsPosition(2, LeadEngagementCycles);
    EntryIsPosition(1, Leads);
    assert links[..15] == links && links[..2][..1] == links[..1];
  }

  lemma FollowupHome(db: Database, bootstrap: nat, f: Ref)
    requires Intact(db, Revision0026()) && f in db && f.table == LeadFollowups
    ensures CycleId in db[f].refs
    ensures var c := Ref(LeadEngagementCycles, db[f].refs[CycleId]);
            && c in db && LeadId in db[c].refs && Ref(Leads, db[c].refs[LeadId]) in db
            && HomeOf(db, Revision0026(), bootstrap, f) == db[Ref(Leads, db[c].refs[LeadId])].organization
  {
    FollowupEntry();
    var links := RevisionBackfill();
    assert links[1] == links[..2][1];
    assert links[2] in Revision0026().backfill && links[1] in Revision0026().backfill;
    hide RevisionBackfill, RevisionCrossKeys, RevisionDirect;
    assert Follows(db, f, links[2]);
    var c := ParentOf(db, f, links[2]);
    assert Follows(db, c, links[1]);
    var lead := ParentOf(db, c, links[1]);
    assert RootOf(db, links[..2][..1], lead) == lead;
    assert RootOf(db, links[..2], c) == lead;
    assert RootOf(db, links, f) == lead;
  }

  lemma CycleEntry()
    ensures var links := RevisionBackfill();
            && |links| == 15 && links[1] == Link(LeadEngagementCycles, Leads, LeadId)
            && EntryOf(links, LeadEngagementCycles) == Some(1) && EntryOf(links[..1], Leads) == None
            && LeadEngagementCycles !in RevisionDirect()
  {
    var links := RevisionBackfill();
    assert |links| == 15 && links[1] == Link(LeadEngagementCycles, Leads, LeadId);
    RevisionPositions(1);
    hide RevisionBackfill, RevisionDirect, EntryOf;
    EntryIsPosition(15, LeadEngagementCycles);
    EntryIsPosition(1, Leads);
    assert links[..15] == links;
  }

  lemma CycleHome(db: Database, bootstrap: nat, c: Ref)
    requires Intact(db, Revision0026()) && c in db && c.table == LeadEngagementCycles
    ensures LeadId in db[c].refs && Ref(Leads, db[c].refs[LeadId]) in db
    ensures HomeOf(db, Revision0026(), bootstrap, c) == db[Ref(Leads, db[c].refs[LeadId])].organization
  {
    var links := RevisionBackfill();
    CycleEntry();
    assert links[1] in Revision0026().backfill;
    hide RevisionBackfill, RevisionCrossKeys, RevisionDirect;
    assert Follows(db, c, links[1]);
    var lead := ParentOf(db, c, links[1]);
    assert RootOf(db, links[..1], lead) == lead;
    assert RootOf(db, links, c) == lead;
  }

  /**
   Agent sessions are filed under the bootstrap Organization too: a session's key validates if
   and only if its cycle's lead was the bootstrap Organization's.
   */
  lemma AgentSessionKeyHoldsExactlyWhen(db: Database, bootstrap: nat, session: Ref)
    requires Intact(db, Revision0026()) && session in db && session.table == AgentSessions
    ensures var l := Link(AgentSessions, LeadEngagementCycles, CycleId);
            l in CompositeKeys(Revision0026()) &&
            (KeyHolds(Upgraded(db, Revision0026(), bootstrap), l, session) <==>
              (CycleId in db[session].refs ==>
                 var cycle := Ref(LeadEngagementCycles, db[session].refs[CycleId]);
                 && cycle in db && LeadId in db[cycle].refs
                 && var lead := Ref(Leads, db[cycle].refs[LeadId]);
                 && lead in db && db[lead].organization == Some(bootstrap)))
  {
    var plan, l := Revision0026(), Link(AgentSessions, LeadEngagementCycles, CycleId);
    assert l in plan.cross by { assert l == RevisionCrossKeys()[3]; }
    assert AgentSessions in plan.direct by { assert AgentSessions == RevisionDirect()[4]; }
    hide RevisionBackfill, RevisionDirect, RevisionCrossKeys, Upgraded, RootOf, KeyHolds;
    RevisionIsSensible();
    KeyHoldsExactlyAtHome(db, plan, bootstrap, l, session);
    if CycleId in db[session].refs {
      CycleHome(db, bootstrap, ParentOf(db, session, l));
    }
  }

  /** One of the five cross references can never fail: a follow-up and its conversation share their lead. */
  lemma FollowupConversationSharesHome(db: Database, bootstrap: nat, f: Ref)
    requires Intact(db, Revision0026()) && MeetsRevision0015(db) && f in db && f.table == LeadFollowups
    ensures SameHome(db, Revision0026(), bootstrap, Link(LeadFollowups, Conversations, ConversationId), f)
  {
    var l := Link(LeadFollowups, Conversations, ConversationId);
    if Follows(db, f, l) {
      FollowupHome(db, bootstrap, f);
      FollowupEntry();
      var v := ParentOf(db, f, l);
      hide RevisionBackfill, RevisionCrossKeys, RevisionDirect;
      assert db[v].organization.Some?;
      assert HomeOf(db, Revision0026(), bootstrap, v) == db[v].organization;
    }
  }

  // ------------------------------------------------- one Organization, many tables

  /** Two rows joined by one composite key, in either direction. */
  predicate Joined(db: Database, keys: seq<Link>, a: Ref, b: Ref) {
    || (exists l | l in keys :: Follows(db, a, l) && ParentOf(db, a, l) == b)
    || (exists l | l in keys :: Follows(db, b, l) && ParentOf(db, b, l) == a)
  }

  predicate Path(db: Database, keys: seq<Link>, path: seq<Ref>) {
    && path != []
    && (forall i | 0 <= i < |path| :: path[i] in db)
    && (forall i {:trigger path[i]} | 0 < i < |path| :: Joined(db, keys, path[i - 1], path[i]))
  }

  /** All rows connected by any chain of composite references share one Organization. */
  lemma {:induction false} ConnectedRowsShareOrganization(db: Database, keys: seq<Link>, path: seq<Ref>)
    requires KeysHold(db, keys) && Path(db, keys, path)
    requires forall r | r in db :: db[r].organization.Some?
    ensures db[path[0]].organization == db[path[|path| - 1]].organization
  {
    if |path| > 1 {
      var n := |path| - 1;
      var rest := path[..n];
      assert forall i | 0 <= i < n :: rest[i] == path[i];
      ConnectedRowsShareOrganization(db, keys, rest);
      var a, b := path[n - 1], path[n];
      assert Joined(db, keys, a, b);
      if l :| l in keys && Follows(db, a, l) && ParentOf(db, a, l) == b {
        assert KeyHolds(db, l, a);
      } else {
        var l :| l in keys && Follows(db, b, l) && ParentOf(db, b, l) == a;
        assert KeyHolds(db, l, b);
      }
    }
  }

  /** Exporting or deleting one Organization leaves every composite key valid. */
  lemma {:induction false} OrganizationsSeparate(db: Database, keys: seq<Link>, organization: nat)
    requires KeysHold(db, keys)
    ensures KeysHold(map r | r in db && db[r].organization == Some(organization) :: db[r], keys)
    ensures KeysHold(map r | r in db && db[r].organization != Some(organization) :: db[r], keys)
  {
    var only := map r | r in db && db[r].organization == Some(organization) :: db[r];
    var without := map r | r in db && db[r].organization != Some(organization) :: db[r];
    forall l, r | l in keys && r in only ensures KeyHolds(only, l, r) {
      assert KeyHolds(db, l, r);
    }
    forall l, r | l in keys && r in without ensures KeyHolds(without, l, r) {
      assert KeyHolds(db, l, r);
    }
  }

  // ------------------------------------------------------------ the live migration

  class ScopedDatabase {
    var rows: Database

    constructor (rows: Database)
      ensures this.rows == rows
    {
      this.rows := rows;
    }

    /** UPDATE child SET organization_id = parent.organization_id FROM parent, joined on the column. */
    method UpdateFromParent(l: Link)
      modifies this
      ensures rows == Inherit(old(rows), l)
    {
      var current := rows;
      rows := map r | r in current ::
        if Follows(current, r, l) then current[r].(organization := current[ParentOf(current, r, l)].organization)
        else current[r];
    }

    /** UPDATE table SET organization_id = the bootstrap Organization. */
    method UpdateDirectly(table: Table, bootstrap: nat)
      modifies this
      ensures rows == AssignTo(old(rows), [table], bootstrap)
    {
      var current := rows;
      rows := map r | r in current ::
        if r.table == table then current[r].(organization := Some(bootstrap)) else current[r];
    }

    /** The loops over the joined and the directly set tables. */
    method Upgrade(plan: Plan, bootstrap: nat)
      modifies this
      ensures rows == Upgraded(old(rows), plan, bootstrap)
    {
      hide Inherit, AssignTo;
      var links, tables := plan.backfill, plan.direct;
      for i := 0 to |links|
        invariant rows == InheritAll(old(rows), links[..i])
      {
        UpdateFromParent(links[i]);
        assert links[..i + 1][..i] == links[..i];
      }
      assert links[..|links|] == links;
      ghost var inherited := rows;
      AssignToNone(inherited, bootstrap);
      for i := 0 to |tables|
        invariant rows == AssignTo(inherited, tables[..i], bootstrap)
      {
        UpdateDirectly(tables[i], bootstrap);
        AssignToMore(inherited, tables[..i], tables[i], bootstrap);
        assert tables[..i + 1] == tables[..i] + [tables[i]];
      }
      assert tables[..|tables|] == tables;
    }
  }

  lemma AssignToNone(db: Database, organization: nat)
    ensures AssignTo(db, [], organization) == db
  {
  }

  lemma AssignToMore(db: Database, tables: seq<Table>, table: Table, organization: nat)
    ensures AssignTo(AssignTo(db, tables, organization), [table], organization)
        == AssignTo(db, tables + [table], organization)
  {
  }
}
