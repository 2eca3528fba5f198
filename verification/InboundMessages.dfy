/**
 Accepting webhook bodies: each call opens one session, accepts the messages of the body in
 order and commits after each accepted one. A duplicate resolves to the stored row; a
 refusal is counted and skipped; any other exception fails the whole call, and the provider
 sends the body again. A WhatsApp body also carries delivery callbacks, each of which commits
 the same session.

 What the domain services do after a row is flushed is not modelled: each message comes
 with the `Fate` its first processing would meet. Routing is a lookup in the bindings in
 force during the call.
 */
module InboundMessages {
  import opened Counting
  import opened Prelude

  datatype Channel = WhatsApp | Messenger | Instagram

  datatype Message = Message(channel: Channel, account: string, providerId: string, body: string)

  datatype Key = Key(organization: nat, channel: Channel, providerId: string)

  datatype Row = Row(key: Key, body: string)

  type Routes = map<(Channel, string), nat>

  datatype Fate =
    | Commits
    | RefusedLate            // a CommercialError after the row was flushed
    | Races(winner: string)  // another delivery of the key committed first: IntegrityError
    | Crashes                // any other exception

  datatype Report =
    | Filed     // a new delivery status
    | Repeated  // a status already filed: IntegrityError
    | Broken    // any other exception

  datatype Item = Inbound(message: Message, fate: Fate) | Callback(account: string, report: Report)

  datatype Outcome = Accepted | Duplicate | LostRace | Unroutable | Leftover | Reported

  /** `stored` is committed; `pending` is flushed in the open transaction. */
  datatype Session = Session(stored: seq<Row>, pending: seq<Row>, log: seq<Outcome>, crashed: bool)

  function Resolve(routes: Routes, m: Message): Option<Key> {
    if (m.channel, m.account) in routes then Some(Key(routes[(m.channel, m.account)], m.channel, m.providerId))
        else None
  }

  predicate Holds(rows: seq<Row>, key: Key) {
    exists i | 0 <= i < |rows| :: rows[i].key == key
  }

  /** `InboxService.accept` and the handling of its outcome. */
  function Accept(routes: Routes, s: Session, m: Message, fate: Fate): Session {
    match Resolve(routes, m)
    case None => s.(log := s.log + [Unroutable])
    case Some(key) =>
      if Holds(s.stored, key) || Holds(s.pending, key) then s.(log := s.log + [Duplicate])
      else
        match fate
        case Commits => Session(s.stored + s.pending + [Row(key, m.body)], [], s.log + [Accepted], false)
        case RefusedLate => Session(s.stored, s.pending + [Row(key, m.body)], s.log + [Leftover], false)
        case Races(winner) => Session(s.stored + [Row(key, winner)], [], s.log + [LostRace], false)
        case Crashes => Session(s.stored, [], s.log, true)
  }

  /** `OutboxService.record_delivery_status` and the handling of its outcome. */
  function Record(routes: Routes, s: Session, account: string, report: Report): Session {
    if (WhatsApp, account) !in routes then s.(log := s.log + [Unroutable])
    else
      match report
      case Filed => Session(s.stored + s.pending, [], s.log + [Reported], false)
      case Repeated => Session(s.stored, [], s.log + [Reported], false)
      case Broken => Session(s.stored, [], s.log, true)
  }

  function Process(routes: Routes, s: Session, item: Item): Session {
    match item
    case Inbound(m, fate) => Accept(routes, s, m, fate)
    case Callback(account, report) => Record(routes, s, account, report)
  }

  function Run(routes: Routes, s: Session, items: seq<Item>): Session {
    if items == [] then s
    else
      var n := |items| - 1;
      var t := Run(routes, s, items[..n]);
      if t.crashed then t else Process(routes, t, items[n])
  }

  /** A call starts with an empty transaction. */
  function Open(stored: seq<Row>): Session {
    Session(stored, [], [], false)
  }

  // --------------------------------------------------------------------- the counters

  function Is(o: Outcome): Outcome -> bool {
    (x: Outcome) => x == o
  }

  function AcceptedCount(log: seq<Outcome>): nat {
    Count(log, Is(Accepted))
  }

  function DuplicateCount(log: seq<Outcome>): nat {
    Count(log, Is(Duplicate)) + Count(log, Is(LostRace))
  }

  function UnroutableCount(log: seq<Outcome>): nat {
    Count(log, Is(Unroutable)) + Count(log, Is(Leftover))
  }

  function RoutedCallback(routes: Routes): Item -> bool {
    (i: Item) => i.Callback? && (WhatsApp, i.account) in routes
  }

  lemma OutcomeCounts(log: seq<Outcome>, o: Outcome)
    ensures AcceptedCount(log + [o]) == AcceptedCount(log) + if o == Accepted then 1 else 0
    ensures DuplicateCount(log + [o]) == DuplicateCount(log) + if o == Duplicate || o == LostRace then 1 else 0
    ensures UnroutableCount(log + [o]) == UnroutableCount(log) + if o == Unroutable || o == Leftover then 1 else 0
  {
    assert (log + [o])[..|log|] == log;
  }

  lemma ItemIsLogged(routes: Routes, s: Session, item: Item) returns (o: Outcome)
    requires !Process(routes, s, item).crashed
    ensures Process(routes, s, item).log == s.log + [o]
    ensures o == Reported <==> RoutedCallback(routes)(item)
  {
    o := Process(routes, s, item).log[|s.log|];
  }

  /**
   In a completed call, accepted + duplicates + unroutable is the number of messages and
   refused callbacks: the size of the body when it carries messages only.
   */
  lemma {:induction false} CountersAddUp(routes: Routes, stored: seq<Row>, items: seq<Item>)
    requires !Run(routes, Open(stored), items).crashed
    ensures var log := Run(routes, Open(stored), items).log;
            AcceptedCount(log) + DuplicateCount(log) + UnroutableCount(log)
                == |items| - Count(items, RoutedCallback(routes))
  {
    if items != [] {
      var n := |items| - 1;
      CountersAddUp(routes, stored, items[..n]);
      var s := Run(routes, Open(stored), items[..n]);
      var o := ItemIsLogged(routes, s, items[n]);
      OutcomeCounts(s.log, o);
    }
  }

  lemma MessagesHaveNoCallback(routes: Routes, items: seq<Item>)
    requires forall i | 0 <= i < |items| :: items[i].Inbound?
    ensures Count(items, RoutedCallback(routes)) == 0
  {
    CountedIffPresent(items, RoutedCallback(routes));
  }

  // ------------------------------------------------------------------- one row per key

  /** `uq_inbox_org_channel_provider_message`. */
  predicate UniqueKeys(rows: seq<Row>) {
    forall i, j | 0 <= i < j < |rows| :: rows[i].key != rows[j].key
  }

  lemma AppendKeepsUnique(rows: seq<Row>, row: Row)
    requires UniqueKeys(rows) && !Holds(rows, row.key)
    ensures UniqueKeys(rows + [row])
  {
  }

  lemma HoldsInConcat(a: seq<Row>, b: seq<Row>, key: Key)
    ensures Holds(a + b, key) <==> Holds(a, key) || Holds(b, key)
  {
    if i :| 0 <= i < |a| && a[i].key == key { assert (a + b)[i].key == key; }
    if i :| 0 <= i < |b| && b[i].key == key { assert (a + b)[|a| + i].key == key; }
  }

  lemma HoldsOwnKey(row: Row, key: Key)
    ensures Holds([row], key) <==> row.key == key
  {
    assert [row][0] == row;
  }

  lemma UniquePrefix(a: seq<Row>, b: seq<Row>)
    requires UniqueKeys(a + b)
    ensures UniqueKeys(a)
  {
    assert forall i | 0 <= i < |a| :: (a + b)[i] == a[i];
  }

  lemma AcceptKeepsUnique(routes: Routes, s: Session, m: Message, fate: Fate)
    requires UniqueKeys(s.stored + s.pending)
    ensures var t := Accept(routes, s, m, fate); UniqueKeys(t.stored + t.pending)
  {
    var t := Accept(routes, s, m, fate);
    var key := Resolve(routes, m);
    if key.Some? && !Holds(s.stored, key.value) && !Holds(s.pending, key.value) {
      HoldsInConcat(s.stored, s.pending, key.value);
      UniquePrefix(s.stored, s.pending);
      hide Holds, UniqueKeys;
      assert s.stored + [] == s.stored;
      match fate
      case Commits =>
        AppendKeepsUnique(s.stored + s.pending, Row(key.value, m.body));
        assert t.stored + t.pending == s.stored + s.pending + [Row(key.value, m.body)];
      case RefusedLate =>
        AppendKeepsUnique(s.stored + s.pending, Row(key.value, m.body));
        assert t.stored + t.pending == s.stored + s.pending + [Row(key.value, m.body)];
      case Races(winner) =>
        AppendKeepsUnique(s.stored, Row(key.value, winner));
        assert t.stored + t.pending == s.stored + [Row(key.value, winner)];
      case Crashes =>
    }
  }

  lemma ProcessKeepsUnique(routes: Routes, s: Session, item: Item)
    requires UniqueKeys(s.stored + s.pending)
    ensures var t := Process(routes, s, item); UniqueKeys(t.stored + t.pending)
  {
    match item
    case Inbound(m, fate) => AcceptKeepsUnique(routes, s, m, fate);
    case Callback(account, report) =>
      UniquePrefix(s.stored, s.pending);
      hide UniqueKeys;
      assert s.stored + [] == s.stored && s.stored + s.pending + [] == s.stored + s.pending;
  }

  /** Whatever each message meets, there is never a second row for a key. */
  lemma {:induction false} RunKeepsUnique(routes: Routes, s: Session, items: seq<Item>)
    requires UniqueKeys(s.stored + s.pending)
    ensures var t := Run(routes, s, items); UniqueKeys(t.stored + t.pending) && UniqueKeys(t.stored)
  {
    hide UniqueKeys, Process;
    var t := Run(routes, s, items);
    if items != [] {
      var n := |items| - 1;
      RunKeepsUnique(routes, s, items[..n]);
      ProcessKeepsUnique(routes, Run(routes, s, items[..n]), items[n]);
    }
    UniquePrefix(t.stored, t.pending);
  }

  lemma ProcessAppends(routes: Routes, s: Session, item: Item)
    ensures s.stored <= Process(routes, s, item).stored
  {
    hide Holds;
  }

  /** Stored rows are never changed or removed: the first delivery's content stays. */
  lemma {:induction false} RunAppends(routes: Routes, s: Session, items: seq<Item>)
    ensures s.stored <= Run(routes, s, items).stored
  {
    hide Process;
    if items != [] {
      var n := |items| - 1;
      RunAppends(routes, s, items[..n]);
      ProcessAppends(routes, Run(routes, s, items[..n]), items[n]);
    }
  }

  /** Some Organization has bound the account on the message's channel. */
  predicate IsBound(routes: Routes, m: Message) {
    (m.channel, m.account) in routes
  }

  /** The same provider id on another channel, or of another Organization, is another key. */
  function KeyIn(routes: Routes, m: Message): Key
    requires IsBound(routes, m)
  {
    Key(routes[(m.channel, m.account)], m.channel, m.providerId)
  }

  /** The row holds what the message said, or what the delivery that beat it said. */
  predicate SaidBy(routes: Routes, item: Item, row: Row) {
    && item.Inbound? && IsBound(routes, item.message) && row.key == KeyIn(routes, item.message)
    && if item.fate.Races? then row.body == item.fate.winner else row.body == item.message.body
  }

  lemma ProcessedRow(routes: Routes, s: Session, item: Item, row: Row)
    requires var t := Process(routes, s, item); row in t.stored + t.pending && row !in s.stored + s.pending
    ensures SaidBy(routes, item, row)
  {
    hide Holds;
  }

  /** Every row of a call was there before or holds the content of a message routed to its key. */
  lemma {:induction false} StoredRowsWereDelivered(routes: Routes, s: Session, items: seq<Item>, row: Row)
    requires var t := Run(routes, s, items); row in t.stored + t.pending && row !in s.stored + s.pending
    ensures exists i | 0 <= i < |items| :: SaidBy(routes, items[i], row)
  {
    hide Process, SaidBy;
    if items != [] {
      var n := |items| - 1;
      var before := Run(routes, s, items[..n]);
      if row in before.stored + before.pending {
        StoredRowsWereDelivered(routes, s, items[..n], row);
        var i :| 0 <= i < n && SaidBy(routes, items[..n][i], row);
        assert items[..n][i] == items[i];
      } else {
        ProcessedRow(routes, before, items[n], row);
      }
    }
  }

  // ------------------------------------------------- which keys a call stores, exactly

  /** A call, told from its inputs only. */
  datatype Call = Call(routes: Routes, stored: seq<Row>, items: seq<Item>)

  function After(c: Call, n: nat): Session
    requires n <= |c.items|
  {
    Run(c.routes, Open(c.stored), c.items[..n])
  }

  function Final(c: Call): Session {
    After(c, |c.items|)
  }

  datatype Event = Commit | Wait | Rollback | Crash

  /** What an item that reaches the database does to the open transaction. */
  function EventOf(item: Item): Event {
    match item
    case Inbound(_, Commits) => Commit
    case Inbound(_, RefusedLate) => Wait
    case Inbound(_, Races(_)) => Rollback
    case Inbound(_, Crashes) => Crash
    case Callback(_, Filed) => Commit
    case Callback(_, Repeated) => Rollback
    case Callback(_, Broken) => Crash
  }

  predicate IsRouted(routes: Routes, item: Item) {
    match item
    case Inbound(m, _) => Resolve(routes, m).Some?
    case Callback(account, _) => (WhatsApp, account) in routes
  }

  /** The key under which an item would store a row. */
  function KeyOf(routes: Routes, item: Item): Option<Key> {
    match item
    case Inbound(m, _) => Resolve(routes, m)
    case Callback(_, _) => None
  }

  datatype Standing = Kept | Waiting | Lost

  /** What becomes of the row an item flushed, as far as the item itself decides. */
  function Flushed(item: Item): Standing {
    match item
    case Inbound(_, Commits) => Kept
    case Inbound(_, RefusedLate) => Waiting
    case Inbound(_, Races(_)) => Kept
    case Inbound(_, Crashes) => Lost
    case Callback(_, _) => Lost
  }

  /** What an event of the same session does to a row that still waits. */
  function Settled(s: Standing, event: Event): Standing {
    if s != Waiting || event == Wait then s else if event == Commit then Kept else Lost
  }

  /** No earlier item that reached the database failed the call. */
  predicate Running(c: Call, n: nat)
    requires n <= |c.items|
    decreases n, 0
  {
    forall j | 0 <= j < n :: !(Acts(c, j) && EventOf(c.items[j]) == Crash)
  }

  /** What has become, before item `n`, of the row item `i` flushed. */
  function Becomes(c: Call, i: nat, n: nat): Standing
    requires i < n <= |c.items|
    decreases n, 1
  {
    if n == i + 1 then Flushed(c.items[i])
    else
      var s := Becomes(c, i, n - 1);
      if Acts(c, n - 1) then Settled(s, EventOf(c.items[n - 1])) else s
  }

  /** Before item `n`, some row of the key has that standing. */
  predicate Has(c: Call, n: nat, key: Key, standing: Standing)
    requires n <= |c.items|
    decreases n, 2
  {
    exists i | 0 <= i < n :: Acts(c, i) && KeyOf(c.routes, c.items[i]) == Some(key) && Becomes(c, i, n) == standing
  }

  /** Item `i` reaches the database: routed, in a call still running, and new for its key. */
  predicate Acts(c: Call, i: nat)
    requires i < |c.items|
    decreases i, 3
  {
    && IsRouted(c.routes, c.items[i]) && Running(c, i)
    && var key := KeyOf(c.routes, c.items[i]);
       key.Some? ==> !Holds(c.stored, key.value) && !Has(c, i, key.value, Kept) && !Has(c, i, key.value, Waiting)
  }

  /** How one more item changes the rows of a key. */
  predicate Moves(c: Call, n: nat, key: Key)
    requires n < |c.items|
  {
    var own := KeyOf(c.routes, c.items[n]) == Some(key);
    if !Acts(c, n) then
      (Has(c, n + 1, key, Kept) <==> Has(c, n, key, Kept)) && (Has(c, n + 1, key, Waiting) <==> Has(c, n, key, Waiting))
    else
      match EventOf(c.items[n])
      case Commit => (Has(c, n + 1, key, Kept) <==> Has(c, n, key, Kept) || Has(c, n, key, Waiting) || own)
          && !Has(c, n + 1, key, Waiting)
      case Wait => (Has(c, n + 1, key, Kept) <==> Has(c, n, key, Kept))
          && (Has(c, n + 1, key, Waiting) <==> Has(c, n, key, Waiting) || own)
      case Rollback => (Has(c, n + 1, key, Kept) <==> Has(c, n, key, Kept) || own) && !Has(c, n + 1, key, Waiting)
      case Crash => (Has(c, n + 1, key, Kept) <==> Has(c, n, key, Kept)) && !Has(c, n + 1, key, Waiting)
  }

  lemma HasAfter(c: Call, n: nat, key: Key, standing: Standing)
    requires n < |c.items|
    ensures Has(c, n + 1, key, standing) <==>
              || (exists i | 0 <= i < n ::
                    Acts(c, i) && KeyOf(c.routes, c.items[i]) == Some(key) && Becomes(c, i, n + 1) == standing)
              || (Acts(c, n) && KeyOf(c.routes, c.items[n]) == Some(key) && Flushed(c.items[n]) == standing)
  {
    hide Acts, Flushed, KeyOf;
    assert Becomes(c, n, n + 1) == Flushed(c.items[n]);
  }

  lemma KeyMoves(c: Call, n: nat, key: Key)
    requires n < |c.items|
    ensures Moves(c, n, key)
  {
    HasAfter(c, n, key, Kept);
    HasAfter(c, n, key, Waiting);
    assert forall i | 0 <= i < n :: Becomes(c, i, n + 1) ==
             if Acts(c, n) then Settled(Becomes(c, i, n), EventOf(c.items[n])) else Becomes(c, i, n);
    hide Acts;
  }

  /** The same, told from the session an item meets. */
  predicate Writes(routes: Routes, s: Session, item: Item) {
    && IsRouted(routes, item)
    && var key := KeyOf(routes, item);
       key.Some? ==> !Holds(s.stored, key.value) && !Holds(s.pending, key.value)
  }

  lemma SessionMoves(routes: Routes, s: Session, item: Item, key: Key)
    requires !s.crashed
    ensures var t, own := Process(routes, s, item), KeyOf(routes, item) == Some(key);
            if !Writes(routes, s, item) then t.stored == s.stored && t.pending == s.pending && !t.crashed
            else
              && (t.crashed <==> EventOf(item) == Crash)
              && match EventOf(item)
                 case Commit => (Holds(t.stored, key) <==> Holds(s.stored, key) || Holds(s.pending, key) || own)
                     && t.pending == []
                 case Wait => t.stored == s.stored && (Holds(t.pending, key) <==> Holds(s.pending, key) || own)
                 case Rollback => (Holds(t.stored, key) <==> Holds(s.stored, key) || own) && t.pending == []
                 case Crash => t.stored == s.stored && t.pending == []
  {
    HoldsInConcat(s.stored, s.pending, key);
    if item.Inbound? && Writes(routes, s, item) {
      var row := match item.fate
        case Races(winner) => Row(KeyOf(routes, item).value, winner)
        case _ => Row(KeyOf(routes, item).value, item.message.body);
      HoldsOwnKey(row, key);
      HoldsInConcat(s.stored + s.pending, [row], key);
      HoldsInConcat(s.stored, [row], key);
      HoldsInConcat(s.pending, [row], key);
    }
    hide Holds;
  }

  /** The session after `n` items, told from the call's inputs. */
  predicate Tracks(c: Call, n: nat, key: Key)
    requires n <= |c.items|
  {
    var t := After(c, n);
    && (t.crashed <==> !Running(c, n))
    && (Holds(t.stored, key) <==> Holds(c.stored, key) || Has(c, n, key, Kept))
    && (Holds(t.pending, key) <==> Has(c, n, key, Waiting))
  }

  lemma ActsIsWrites(c: Call, n: nat)
    requires n < |c.items|
    requires KeyOf(c.routes, c.items[n]).Some? ==> Tracks(c, n, KeyOf(c.routes, c.items[n]).value)
    requires After(c, n).crashed <==> !Running(c, n)
    ensures Acts(c, n) <==> !After(c, n).crashed && Writes(c.routes, After(c, n), c.items[n])
  {
    hide Holds, Has, Running, IsRouted, KeyOf, After;
  }

  lemma RunningAfter(c: Call, n: nat)
    requires n < |c.items|
    ensures Running(c, n + 1) <==> Running(c, n) && !(Acts(c, n) && EventOf(c.items[n]) == Crash)
  {
    hide Acts, EventOf;
  }

  lemma AfterOneMore(c: Call, n: nat)
    requires n < |c.items|
    ensures After(c, n + 1) == if After(c, n).crashed then After(c, n) else Process(c.routes, After(c, n), c.items[n])
  {
    assert c.items[..n + 1][..n] == c.items[..n];
  }

  lemma NothingBefore(c: Call, key: Key)
    ensures Tracks(c, 0, key)
  {
  }

  /** The inputs decide the session, key by key. */
  lemma {:induction false} CallTracks(c: Call, n: nat, key: Key)
    requires n <= |c.items|
    ensures Tracks(c, n, key)
  {
    if n == 0 {
      NothingBefore(c, key);
    } else {
      CallTracks(c, n - 1, key);
      var own := KeyOf(c.routes, c.items[n - 1]);
      if own.Some? { CallTracks(c, n - 1, own.value); }
      ActsIsWrites(c, n - 1);
      RunningAfter(c, n - 1);
      AfterOneMore(c, n - 1);
      KeyMoves(c, n - 1, key);
      if !After(c, n - 1).crashed { SessionMoves(c.routes, After(c, n - 1), c.items[n - 1], key); }
      hide Acts, Running, Has, After, Process, Writes, KeyOf, EventOf;
      assert !Holds([], key);
      assert Tracks(c, n, key);
    }
  }

  /** A later item commits the session before anything rolls it back. */
  predicate CommitFollows(c: Call, i: nat, n: nat)
    requires i < n <= |c.items|
  {
    exists j | i < j < n :: CommitsAt(c, j) && forall k | i < k < j :: !UndoesAt(c, k)
  }

  predicate CommitsAt(c: Call, j: nat)
    requires j < |c.items|
  {
    Acts(c, j) && EventOf(c.items[j]) == Commit
  }

  predicate UndoesAt(c: Call, k: nat)
    requires k < |c.items|
  {
    Acts(c, k) && (EventOf(c.items[k]) == Rollback || EventOf(c.items[k]) == Crash)
  }

  lemma {:induction false} LeftoverIsKeptExactlyWhen(c: Call, i: nat, n: nat)
    requires i < n <= |c.items| && Flushed(c.items[i]) == Waiting
    ensures Becomes(c, i, n) == Kept <==> CommitFollows(c, i, n)
    ensures Becomes(c, i, n) == Waiting <==> forall k | i < k < n :: !CommitsAt(c, k) && !UndoesAt(c, k)
    decreases n
  {
    if n > i + 1 {
      LeftoverIsKeptExactlyWhen(c, i, n - 1);
      hide Acts, Flushed;
      if Becomes(c, i, n - 1) == Waiting && CommitsAt(c, n - 1) {
        assert CommitFollows(c, i, n);
      }
      if j :| i < j < n && CommitsAt(c, j) && forall k | i < k < j :: !UndoesAt(c, k) {
        if j < n - 1 { assert CommitFollows(c, i, n - 1); }
      }
      if j :| i < j < n - 1 && CommitsAt(c, j) && forall k | i < k < j :: !UndoesAt(c, k) {
        assert CommitFollows(c, i, n);
      }
    }
  }

  /** Item `i` leaves a stored row under the key. */
  predicate Stores(c: Call, i: nat, key: Key)
    requires i < |c.items|
  {
    && Acts(c, i) && c.items[i].Inbound? && KeyOf(c.routes, c.items[i]) == Some(key)
    && match c.items[i].fate
       case Commits => true
       case Races(_) => true
       case RefusedLate => CommitFollows(c, i, |c.items|)
       case Crashes => false
  }

  lemma {:induction false} KeptStays(c: Call, i: nat, n: nat)
    requires i < n <= |c.items|
    ensures Flushed(c.items[i]) != Waiting ==> Becomes(c, i, n) == Flushed(c.items[i])
    decreases n
  {
    if n > i + 1 {
      KeptStays(c, i, n - 1);
      hide Acts;
    }
  }

  lemma StoresIsKept(c: Call, i: nat, key: Key)
    requires i < |c.items|
    ensures Stores(c, i, key) <==>
              Acts(c, i) && KeyOf(c.routes, c.items[i]) == Some(key) && Becomes(c, i, |c.items|) == Kept
  {
    KeptStays(c, i, |c.items|);
    if Flushed(c.items[i]) == Waiting { LeftoverIsKeptExactlyWhen(c, i, |c.items|); }
    hide Acts, CommitFollows, Becomes;
  }

  /**
   The keys of the table after a call, for every call: a key is stored if and only if it was
   stored before, or a message that is new for it commits, loses the race to another delivery,
   or is refused after its flush and a later commit of the session, by a message or by a
   delivery status, comes before any rollback.
   */
  lemma KeyIsStoredExactlyWhen(c: Call, key: Key)
    ensures Holds(Final(c).stored, key) <==> Holds(c.stored, key) || exists i | 0 <= i < |c.items| :: Stores(c, i, key)
  {
    hide Holds, After, Acts, Becomes, Stores, KeyOf;
    CallTracks(c, |c.items|, key);
    forall i | 0 <= i < |c.items|
      ensures Stores(c, i, key) <==>
                Acts(c, i) && KeyOf(c.routes, c.items[i]) == Some(key) && Becomes(c, i, |c.items|) == Kept
    {
      StoresIsKept(c, i, key);
    }
  }

  /** The call completes exactly when no item that reached the database failed it. */
  lemma CompletesExactlyWhen(c: Call)
    ensures Final(c).crashed <==> !Running(c, |c.items|)
  {
    CallTracks(c, |c.items|, Key(0, WhatsApp, ""));
  }

  // ------------------------------------------------------- what each item is answered

  /** Told from the call's inputs: what the item is counted as. */
  predicate IsAnswer(c: Call, i: nat, o: Outcome)
    requires i < |c.items|
  {
    match c.items[i]
    case Inbound(m, fate) =>
      if !IsBound(c.routes, m) then o == Unroutable
      else if !Acts(c, i) then o == Duplicate
      else
        && fate != Crashes
        && o == if fate == Commits then Accepted else if fate == RefusedLate then Leftover else LostRace
    case Callback(account, _) => o == if (WhatsApp, account) in c.routes then Reported else Unroutable
  }

  lemma SessionAnswers(c: Call, n: nat)
    requires n < |c.items| && !After(c, n + 1).crashed
    ensures !After(c, n).crashed && |After(c, n + 1).log| == |After(c, n).log| + 1
    ensures After(c, n + 1).log[..|After(c, n).log|] == After(c, n).log
    ensures IsAnswer(c, n, After(c, n + 1).log[|After(c, n).log|])
  {
    AfterOneMore(c, n);
    var own := KeyOf(c.routes, c.items[n]);
    if own.Some? { CallTracks(c, n, own.value); }
    CallTracks(c, n, Key(0, WhatsApp, ""));
    ActsIsWrites(c, n);
    hide Acts, Holds, After, Tracks;
  }

  /** In a completed call, every item is answered once, in order, by what the inputs say. */
  lemma {:induction false} ItemsAreAnswered(c: Call, n: nat)
    requires n <= |c.items| && !After(c, n).crashed
    ensures |After(c, n).log| == n && forall i | 0 <= i < n :: IsAnswer(c, i, After(c, n).log[i])
  {
    if n > 0 {
      SessionAnswers(c, n - 1);
      ItemsAreAnswered(c, n - 1);
      hide After, IsAnswer;
      forall i | 0 <= i < n ensures IsAnswer(c, i, After(c, n).log[i]) {
        assert i < n - 1 ==> After(c, n).log[..n - 1][i] == After(c, n - 1).log[i];
      }
    }
  }

  /**
   On the messages' own fields: in a completed call of messages none of which a service refuses
   late, each one whose account some Organization bound on its channel ends stored for that
   Organization, channel and provider id, and each other one is counted unroutable.
   */
  lemma BoundMessagesAreStored(c: Call, i: nat)
    requires !Final(c).crashed && i < |c.items| && c.items[i].Inbound?
    requires forall j | 0 <= j < |c.items| :: c.items[j].Inbound? && c.items[j].fate != RefusedLate
    ensures |Final(c).log| == |c.items|
    ensures var m := c.items[i].message;
            if (m.channel, m.account) in c.routes
            then Holds(Final(c).stored, Key(c.routes[(m.channel, m.account)], m.channel, m.providerId))
                 && Final(c).log[i] in {Accepted, Duplicate, LostRace}
            else Final(c).log[i] == Unroutable
  {
    var m := c.items[i].message;
    ItemsAreAnswered(c, |c.items|);
    CompletesExactlyWhen(c);
    if IsBound(c.routes, m) {
      var key := KeyIn(c.routes, m);
      KeyIsStoredExactlyWhen(c, key);
      hide Holds, Acts, After, Running;
      assert KeyOf(c.routes, c.items[i]) == Some(key);
      AnswersBrings(c, key);
    }
  }

  // ------------------------------------------------------- redelivery and reordering

  /** One webhook call, with the bindings in force and what its items meet. */
  datatype Delivery = Delivery(routes: Routes, items: seq<Item>)

  function Delivered(stored: seq<Row>, history: seq<Delivery>): seq<Row> {
    if history == [] then stored
    else
      var n := |history| - 1;
      Run(history[n].routes, Open(Delivered(stored, history[..n])), history[n].items).stored
  }

  function CallOf(stored: seq<Row>, history: seq<Delivery>, h: nat): Call
    requires h < |history|
  {
    Call(history[h].routes, Delivered(stored, history[..h]), history[h].items)
  }

  predicate Brings(c: Call, key: Key) {
    exists i | 0 <= i < |c.items| :: Stores(c, i, key)
  }

  predicate Offers(c: Call, key: Key) {
    exists i | 0 <= i < |c.items| :: KeyOf(c.routes, c.items[i]) == Some(key)
  }

  /** The call completes, routes the key, and no service refuses a message of that key after its flush. */
  predicate Answers(c: Call, key: Key) {
    && Running(c, |c.items|) && Offers(c, key)
    && forall i | 0 <= i < |c.items| && KeyOf(c.routes, c.items[i]) == Some(key) :: EventOf(c.items[i]) != Wait
  }

  /** The table after any history of calls, exactly; with one row for each key, and nothing overwritten. */
  lemma {:induction false} HistoryStoresExactlyWhen(stored: seq<Row>, history: seq<Delivery>, key: Key)
    requires UniqueKeys(stored)
    ensures UniqueKeys(Delivered(stored, history)) && stored <= Delivered(stored, history)
    ensures Holds(Delivered(stored, history), key) <==>
              Holds(stored, key) || exists h | 0 <= h < |history| :: Brings(CallOf(stored, history, h), key)
  {
    if history == [] {
    } else {
      var n := |history| - 1;
      var earlier := history[..n];
      HistoryStoresExactlyWhen(stored, earlier, key);
      var before, c := Delivered(stored, earlier), CallOf(stored, history, n);
      assert before + [] == before && c.items[..|c.items|] == c.items;
      RunKeepsUnique(c.routes, Open(before), c.items);
      RunAppends(c.routes, Open(before), c.items);
      KeyIsStoredExactlyWhen(c, key);
      assert Brings(c, key) <==> exists i | 0 <= i < |c.items| :: Stores(c, i, key);
      assert Delivered(stored, history) == Final(c).stored;
      hide Holds, Brings, Run, UniqueKeys, Stores, Delivered, After, CallOf;
      EarlierCalls(stored, history);
      if h :| 0 <= h < n && Brings(CallOf(stored, earlier, h), key) { assert Brings(CallOf(stored, history, h), key); }
      if h :| 0 <= h < |history| && Brings(CallOf(stored, history, h), key) {
        if h < n { assert Brings(CallOf(stored, earlier, h), key); }
      }
    }
  }

  lemma EarlierCalls(stored: seq<Row>, history: seq<Delivery>)
    requires history != []
    ensures forall h | 0 <= h < |history| - 1 ::
        CallOf(stored, history[..|history| - 1], h) == CallOf(stored, history, h)
  {
    forall h | 0 <= h < |history| - 1 ensures CallOf(stored, history[..|history| - 1], h)
        == CallOf(stored, history, h) {
      assert history[..|history| - 1][..h] == history[..h];
    }
  }

  lemma AnswersBrings(c: Call, key: Key)
    requires Answers(c, key)
    ensures Holds(c.stored, key) || Brings(c, key)
  {
    var i :| 0 <= i < |c.items| && KeyOf(c.routes, c.items[i]) == Some(key);
    if Acts(c, i) {
      assert Stores(c, i, key);
    } else if !Holds(c.stored, key) {
      assert IsRouted(c.routes, c.items[i]) && Running(c, i);
      assert Has(c, i, key, Kept) || Has(c, i, key, Waiting);
      var j :| 0 <= j < i && Acts(c, j) && KeyOf(c.routes, c.items[j]) == Some(key) && Becomes(c, j, i) != Lost;
      KeptStays(c, j, i);
      assert Stores(c, j, key);
    }
  }

  /**
   At-least-once delivery becomes exactly-once storage: under any order, repetition, crash,
   race and refusal, an answered key is stored, nothing else than what was offered is, one row
   each, and rows never change.
   */
  lemma StoredExactlyOnce(stored: seq<Row>, history: seq<Delivery>, key: Key)
    requires UniqueKeys(stored)
    ensures UniqueKeys(Delivered(stored, history)) && stored <= Delivered(stored, history)
    ensures (exists h | 0 <= h < |history| :: Answers(CallOf(stored, history, h), key))
        ==> Holds(Delivered(stored, history), key)
    ensures Holds(Delivered(stored, history), key) ==>
              Holds(stored, key) || exists h | 0 <= h < |history| :: Offers(CallOf(stored, history, h), key)
  {
    HistoryStoresExactlyWhen(stored, history, key);
    if h :| 0 <= h < |history| && Answers(CallOf(stored, history, h), key) {
      HeldAfterCall(stored, history, h, key);
    }
    if h :| 0 <= h < |history| && Brings(CallOf(stored, history, h), key) {
      BringsOffers(CallOf(stored, history, h), key);
    }
  }

  lemma BringsOffers(c: Call, key: Key)
    requires Brings(c, key)
    ensures Offers(c, key)
  {
    var i :| 0 <= i < |c.items| && Stores(c, i, key);
    assert KeyOf(c.routes, c.items[i]) == Some(key);
  }

  lemma HeldAfterCall(stored: seq<Row>, history: seq<Delivery>, h: nat, key: Key)
    requires UniqueKeys(stored) && h < |history| && Answers(CallOf(stored, history, h), key)
    ensures Holds(Delivered(stored, history), key)
  {
    hide Answers, Brings, UniqueKeys, Holds;
    AnswersBrings(CallOf(stored, history, h), key);
    HistoryStoresExactlyWhen(stored, history, key);
    HistoryStoresExactlyWhen(stored, history[..h], key);
    if k :| 0 <= k < h && Brings(CallOf(stored, history[..h], k), key) {
      assert history[..h][..k] == history[..k];
      assert Brings(CallOf(stored, history, k), key);
    }
  }

  /**
   Reordering: two histories that offer the same keys, each of them answered by some call, end
   with the same keys, however their calls are ordered, repeated or cut.
   */
  lemma OrderDoesNotMatter(stored: seq<Row>, one: seq<Delivery>, two: seq<Delivery>, key: Key)
    requires UniqueKeys(stored)
    requires (exists h | 0 <= h < |one| :: Offers(CallOf(stored, one, h), key)) <==>
             (exists h | 0 <= h < |two| :: Offers(CallOf(stored, two, h), key))
    requires (exists h | 0 <= h < |one| :: Offers(CallOf(stored, one, h), key)) ==>
             (exists h | 0 <= h < |one| :: Answers(CallOf(stored, one, h), key))
    requires (exists h | 0 <= h < |two| :: Offers(CallOf(stored, two, h), key)) ==>
             (exists h | 0 <= h < |two| :: Answers(CallOf(stored, two, h), key))
    ensures Holds(Delivered(stored, one), key) <==> Holds(Delivered(stored, two), key)
  {
    hide Answers, Offers, UniqueKeys, CallOf, Delivered;
    StoredExactlyOnce(stored, one, key);
    StoredExactlyOnce(stored, two, key);
    if Holds(stored, key) {
      PrefixHolds(stored, Delivered(stored, one), key);
      PrefixHolds(stored, Delivered(stored, two), key);
    }
    hide Holds;
  }

  lemma PrefixHolds(a: seq<Row>, b: seq<Row>, key: Key)
    requires a <= b && Holds(a, key)
    ensures Holds(b, key)
  {
    var i :| 0 <= i < |a| && a[i].key == key;
    assert b[i] == a[i];
  }

  /** Late refusals at their shortest: persisted by a message, by a delivery status, and by nothing. */
  lemma LateRefusals(routes: Routes, a: Message, b: Message, account: string)
    requires Resolve(routes, a).Some? && Resolve(routes, b).Some? && Resolve(routes, a) != Resolve(routes, b)
    requires (WhatsApp, account) in routes
    ensures var late := Inbound(a, RefusedLate); var key := Resolve(routes, a).value;
            && Holds(Run(routes, Open([]), [late, Inbound(b, Commits)]).stored, key)
            && Holds(Run(routes, Open([]), [late, Callback(account, Filed)]).stored, key)
            && Run(routes, Open([]), [late, Callback(account, Repeated)]).stored == []
            && Run(routes, Open([]), [late, Inbound(a, Commits)])
                == Session([], [Row(key, a.body)], [Leftover, Duplicate], false)
  {
    var late, key := Inbound(a, RefusedLate), Resolve(routes, a).value;
    var s := Session([], [Row(key, a.body)], [Leftover], false);
    assert [late][..0] == [] && Run(routes, Open([]), [late]) == s by { assert Run(routes, Open([]), []) == Open([]); }
    assert Holds(s.pending, key) by { assert s.pending[0].key == key; }
    assert !Holds(s.pending, Resolve(routes, b).value);
    forall next ensures Run(routes, Open([]), [late, next]) == Process(routes, s, next) {
      assert [late, next][..1] == [late];
    }
    var t := Process(routes, s, Inbound(b, Commits));
    assert t.stored[0].key == key;
    assert s.stored + s.pending == s.pending;
  }

  // ------------------------------------------------------------------ the live session

  class Inbox {
    var stored: seq<Row>
    var pending: seq<Row>

    constructor ()
      ensures stored == [] && pending == []
    {
      stored, pending := [], [];
    }

    /** `InboxService.accept`; `None` is an exception other than CommercialError. */
    method AcceptMessage(routes: Routes, m: Message, fate: Fate, ghost log: seq<Outcome>)
          returns (outcome: Option<Outcome>)
      modifies this
      ensures var t := Accept(routes, Session(old(stored), old(pending), log, false), m, fate);
              && stored == t.stored && pending == t.pending
              && match outcome case Some(o) => !t.crashed && t.log == log + [o] case None => t.crashed && t.log == log
    {
      var key := Resolve(routes, m);
      if key.None? {
        return Some(Unroutable);
      }
      if Holds(stored, key.value) || Holds(pending, key.value) {
        return Some(Duplicate);
      }
      match fate {
        case Commits =>
          pending := pending + [Row(key.value, m.body)];
          stored, pending := stored + pending, [];
          assert stored == old(stored) + old(pending) + [Row(key.value, m.body)];
          return Some(Accepted);
        case RefusedLate =>
          pending := pending + [Row(key.value, m.body)];
          return Some(Leftover);
        case Races(winner) =>
          stored := stored + [Row(key.value, winner)];
          pending := [];
          return Some(LostRace);
        case Crashes =>
          pending := [];
          return None;
      }
    }

    /** `OutboxService.record_delivery_status`. */
    method RecordDeliveryStatus(routes: Routes, account: string, report: Report, ghost log: seq<Outcome>)
          returns (outcome: Option<Outcome>)
      modifies this
      ensures var t := Record(routes, Session(old(stored), old(pending), log, false), account, report);
              && stored == t.stored && pending == t.pending
              && match outcome case Some(o) => !t.crashed && t.log == log + [o] case None => t.crashed && t.log == log
    {
      if (WhatsApp, account) !in routes {
        return Some(Unroutable);
      }
      match report {
        case Filed =>
          stored, pending := stored + pending, [];
          return Some(Reported);
        case Repeated =>
          pending := [];
          return Some(Reported);
        case Broken =>
          pending := [];
          return None;
      }
    }

    method ProcessItem(routes: Routes, item: Item, ghost log: seq<Outcome>) returns (outcome: Option<Outcome>)
      modifies this
      ensures var t := Process(routes, Session(old(stored), old(pending), log, false), item);
              && stored == t.stored && pending == t.pending
              && match outcome case Some(o) => !t.crashed && t.log == log + [o] case None => t.crashed && t.log == log
    {
      hide Accept, Record;
      match item
      case Inbound(m, fate) => outcome := AcceptMessage(routes, m, fate, log);
      case Callback(account, report) => outcome := RecordDeliveryStatus(routes, account, report, log);
    }

    /**
     The loops of a webhook body over one session: the messages, then (for WhatsApp) the
     delivery statuses. The three counters, or `completed` false when the call fails.
     */
    method ReceiveWebhook(routes: Routes, items: seq<Item>)
      returns (accepted: nat, duplicates: nat, unroutable: nat, completed: bool)
      requires pending == []
      modifies this
      ensures var t := Run(routes, Open(old(stored)), items);
              && stored == t.stored && pending == [] && completed == !t.crashed
              && (completed ==> accepted == AcceptedCount(t.log) && duplicates == DuplicateCount(t.log)
                                && unroutable == UnroutableCount(t.log))
    {
      accepted, duplicates, unroutable, completed := 0, 0, 0, true;
      ghost var log: seq<Outcome> := [];
      ghost var start := stored;
      hide Process, AcceptedCount, DuplicateCount, UnroutableCount;
      NothingCounted();
      for i := 0 to |items|
        invariant completed
        invariant Run(routes, Open(start), items[..i]) == Session(stored, pending, log, false)
        invariant accepted == AcceptedCount(log) && duplicates == DuplicateCount(log)
            && unroutable == UnroutableCount(log)
      {
        assert items[..i + 1][..i] == items[..i];
        var outcome := ProcessItem(routes, items[i], log);
        if outcome.None? {
          completed := false;
          CrashEndsRun(routes, Open(start), items, i + 1);
          return;
        }
        OutcomeCounts(log, outcome.value);
        log := log + [outcome.value];
        match outcome.value
        case Accepted => accepted := accepted + 1;
        case Duplicate => duplicates := duplicates + 1;
        case LostRace => duplicates := duplicates + 1;
        case Unroutable => unroutable := unroutable + 1;
        case Leftover => unroutable := unroutable + 1;
        case Reported =>
      }
      assert items[..|items|] == items;
      // Leaving the session closes it: what was not committed is rolled back.
      pending := [];
    }

    /** `_accept_customer_messages`: a body of messages only. */
    method AcceptCustomerMessages(routes: Routes, items: seq<Item>)
      returns (accepted: nat, duplicates: nat, unroutable: nat, completed: bool)
      requires pending == [] && forall i | 0 <= i < |items| :: items[i].Inbound?
      modifies this
      ensures var t := Run(routes, Open(old(stored)), items);
              && stored == t.stored && pending == [] && completed == !t.crashed
              && (completed ==> accepted == AcceptedCount(t.log) && duplicates == DuplicateCount(t.log)
                                && unroutable == UnroutableCount(t.log)
                                    && accepted + duplicates + unroutable == |items|)
    {
      accepted, duplicates, unroutable, completed := ReceiveWebhook(routes, items);
      if completed {
        CountersAddUp(routes, old(stored), items);
        MessagesHaveNoCallback(routes, items);
      }
    }
  }

  lemma NothingCounted()
    ensures AcceptedCount([]) == DuplicateCount([]) == UnroutableCount([]) == 0
  {
  }

  lemma {:induction false} CrashEndsRun(routes: Routes, s: Session, items: seq<Item>, n: nat)
    requires n <= |items| && Run(routes, s, items[..n]).crashed
    ensures Run(routes, s, items) == Run(routes, s, items[..n])
    decreases |items| - n
  {
    if n < |items| {
      assert items[..n + 1][..n] == items[..n];
      CrashEndsRun(routes, s, items, n + 1);
    } else {
      assert items[..n] == items;
    }
  }
}
