/**
 The cached `opportunities.responsible_advisor_id` against the assignment history.

 Two deferred constraint triggers queue an opportunity id for every write and check the
 queued ids at COMMIT only. A partial unique index allows one open assignment for each
 opportunity at any moment, and the foreign key of an assignment is checked at once.
 A statement that PostgreSQL refuses aborts its transaction.
 */
module AssignmentIntegrity {
  import opened Prelude

  type Id = nat

  datatype Assignment = Assignment(opportunity: Id, advisor: Id, open: bool)

  /** `cached` holds one entry for each opportunity row: its responsible advisor, or NULL. */
  datatype Tables = Tables(cached: map<Id, Option<Id>>, assignments: map<Id, Assignment>)

  datatype Statement =
    | InsertOpportunity(id: Id, advisor: Option<Id>)
    | SetAdvisor(id: Id, advisor: Option<Id>)
    | DeleteOpportunity(id: Id)
    | InsertAssignment(id: Id, row: Assignment)
    | UpdateAssignment(id: Id, row: Assignment)
    | DeleteAssignment(id: Id)

  /** An open transaction: the working tables and the queued trigger events, in order. */
  datatype Transaction = Transaction(tables: Tables, queued: seq<Id>)

  // ------------------------------------------------------------------ statements

  predicate IsOpenFor(a: Assignment, o: Id) {
    a.open && a.opportunity == o
  }

  /** No other row may be open for the same opportunity (`uq_assignment_open`). */
  predicate FitsUniqueOpen(assignments: map<Id, Assignment>, id: Id, row: Assignment) {
    row.open ==> forall a | a in assignments && a != id :: !IsOpenFor(assignments[a], row.opportunity)
  }

  function Execute(x: Transaction, s: Statement): Option<Transaction> {
    var t := x.tables;
    match s
    case InsertOpportunity(o, advisor) =>
      if o in t.cached then None
      else Some(Transaction(t.(cached := t.cached[o := advisor]), x.queued + [o]))
    case SetAdvisor(o, advisor) =>
      if o !in t.cached then Some(x)
      else Some(Transaction(t.(cached := t.cached[o := advisor]), x.queued + [o]))
    case DeleteOpportunity(o) =>
      if o !in t.cached then Some(x)
      else
        var kept := map a | a in t.assignments && t.assignments[a].opportunity != o :: t.assignments[a];
        Some(Transaction(Tables(t.cached - {o}, kept), x.queued + if kept == t.assignments then [] else [o]))
    case InsertAssignment(a, row) =>
      if a in t.assignments || row.opportunity !in t.cached || !FitsUniqueOpen(t.assignments, a, row) then None
      else Some(Transaction(t.(assignments := t.assignments[a := row]), x.queued + [row.opportunity]))
    case UpdateAssignment(a, row) =>
      if a !in t.assignments then Some(x)
      else if row.opportunity !in t.cached || !FitsUniqueOpen(t.assignments, a, row) then None
      else Some(Transaction(t.(assignments := t.assignments[a := row]), x.queued + [row.opportunity]))
    case DeleteAssignment(a) =>
      if a !in t.assignments then Some(x)
      else Some(Transaction(t.(assignments := t.assignments - {a}), x.queued + [t.assignments[a].opportunity]))
  }

  function ExecuteAll(x: Transaction, script: seq<Statement>): Option<Transaction> {
    if script == [] then Some(x)
    else
      match ExecuteAll(x, script[..|script| - 1])
      case None => None
      case Some(x') => Execute(x', script[|script| - 1])
  }

  // ------------------------------------------------------ what a statement changes

  function At<T>(rows: map<Id, T>, id: Id): Option<T> {
    if id in rows then Some(rows[id]) else None
  }

  /** The unique key over open assignments and the foreign key, over whole tables. */
  ghost predicate KeysHold(t: Tables) {
    UniqueOpen(t) && Referential(t)
  }

  /**
   A statement is accepted if and only if its id is free, where it inserts, and the unique and
   foreign keys hold of the tables it asks for.
   */
  lemma AcceptedExactlyWhen(x: Transaction, s: Statement)
    requires KeysHold(x.tables)
    ensures var t := x.tables;
            Execute(x, s).Some? <==>
            match s
            case InsertOpportunity(o, _) => o !in t.cached
            case InsertAssignment(a, row) =>
              a !in t.assignments && KeysHold(t.(assignments := t.assignments[a := row]))
            case UpdateAssignment(a, row) =>
              a in t.assignments ==> KeysHold(t.(assignments := t.assignments[a := row]))
            case _ => true
  {
    if s.InsertAssignment? || s.UpdateAssignment? {
      var a, row, rows := s.id, s.row, x.tables.assignments;
      var rows' := rows[a := row];
      assert rows'[a] == row && forall b | b in rows' && b != a :: b in rows && rows'[b] == rows[b];
      if KeysHold(x.tables.(assignments := rows')) {
        forall b | b in rows && b != a && row.open ensures !IsOpenFor(rows[b], row.opportunity) {
          assert rows'[b] == rows[b];
        }
      }
    }
  }

  /** What an accepted statement leaves of any cached advisor: only the named one changes. */
  lemma CacheAfterStatement(x: Transaction, s: Statement, o: Id)
    requires Execute(x, s).Some?
    ensures var t, t' := x.tables, Execute(x, s).value.tables;
            At(t'.cached, o) ==
            if s.id != o then At(t.cached, o)
            else
              match s
              case InsertOpportunity(_, advisor) => Some(advisor)
              case SetAdvisor(_, advisor) => if o in t.cached then Some(advisor) else None
              case DeleteOpportunity(_) => None
              case _ => At(t.cached, o)
  {
  }

  /** What it leaves of any assignment: only the named one changes, or those of a deleted opportunity go. */
  lemma AssignmentAfterStatement(x: Transaction, s: Statement, a: Id)
    requires Execute(x, s).Some? && Referential(x.tables)
    ensures var t, t' := x.tables, Execute(x, s).value.tables;
            At(t'.assignments, a) ==
            match s
            case InsertAssignment(b, row) => if a == b then Some(row) else At(t.assignments, a)
            case UpdateAssignment(b, row) => if a == b && a in t.assignments then Some(row) else At(t.assignments, a)
            case DeleteAssignment(b) => if a == b then None else At(t.assignments, a)
            case DeleteOpportunity(o) =>
              if a in t.assignments && t.assignments[a].opportunity == o then None else At(t.assignments, a)
            case _ => At(t.assignments, a)
  {
  }

  // --------------------------------------------------------------- the deferred check

  /** `check_opportunity_assignment_consistency`: an unknown opportunity passes. */
  predicate Agrees(t: Tables, o: Id) {
    o in t.cached ==>
      match t.cached[o]
      case None => forall a | a in t.assignments :: !IsOpenFor(t.assignments[a], o)
      case Some(advisor) =>
        exists a | a in t.assignments :: IsOpenFor(t.assignments[a], o) && t.assignments[a].advisor == advisor
  }

  predicate QueueAgrees(x: Transaction) {
    forall o | o in x.queued :: Agrees(x.tables, o)
  }

  ghost predicate UniqueOpen(t: Tables) {
    forall a, b | a in t.assignments && b in t.assignments && t.assignments[a].open && t.assignments[b].open ::
      t.assignments[a].opportunity == t.assignments[b].opportunity ==> a == b
  }

  ghost predicate Referential(t: Tables) {
    forall a | a in t.assignments :: t.assignments[a].opportunity in t.cached
  }

  /** What the two representations must say together, over the whole database. */
  ghost predicate Consistent(t: Tables) {
    forall o | o in t.cached :: Agrees(t, o)
  }

  /** The advisor of the open assignment: the value the cache stands for. */
  ghost function OpenAdvisor(t: Tables, o: Id): Option<Id> {
    if a :| a in t.assignments && IsOpenFor(t.assignments[a], o) then Some(t.assignments[a].advisor) else None
  }

  /** With one open row at most, the trigger's comparison is equality with that row's advisor. */
  lemma {:induction false} AgreesIsEquality(t: Tables, o: Id)
    requires UniqueOpen(t) && o in t.cached
    ensures Agrees(t, o) <==> t.cached[o] == OpenAdvisor(t, o)
  {
  }

  // ------------------------------------------------- touched and moved opportunities

  /** Opportunities that an UPDATE of a history row takes the row away from. */
  function MovedFrom(x: Transaction, s: Statement): set<Id> {
    if s.UpdateAssignment? && s.id in x.tables.assignments
       && x.tables.assignments[s.id].opportunity != s.row.opportunity
    then {x.tables.assignments[s.id].opportunity}
    else {}
  }

  function AllMovedFrom(x: Transaction, script: seq<Statement>): set<Id>
    requires ExecuteAll(x, script).Some?
  {
    if script == [] then {}
    else
      var rest := script[..|script| - 1];
      AllMovedFrom(x, rest) + MovedFrom(ExecuteAll(x, rest).value, script[|script| - 1])
  }

  lemma StatementTouches(x: Transaction, s: Statement, o: Id)
    requires Execute(x, s).Some?
    requires o !in Execute(x, s).value.queued && o !in MovedFrom(x, s)
    requires Agrees(x.tables, o)
    ensures Agrees(Execute(x, s).value.tables, o)
  {
    var t, t' := x.tables, Execute(x, s).value.tables;
    if o in t'.cached {
      assert s.id != o || !s.InsertOpportunity?;
      assert o in t.cached && t'.cached[o] == t.cached[o];
      forall a ensures (a in t'.assignments && IsOpenFor(t'.assignments[a], o))
                       <==> (a in t.assignments && IsOpenFor(t.assignments[a], o)) {
      }
      forall a | a in t.assignments && IsOpenFor(t.assignments[a], o)
        ensures a in t'.assignments && t'.assignments[a] == t.assignments[a] {
      }
    }
  }

  lemma {:induction false} ScriptTouches(t: Tables, script: seq<Statement>, o: Id)
    requires Consistent(t) && ExecuteAll(Transaction(t, []), script).Some?
    requires var x := ExecuteAll(Transaction(t, []), script).value;
             o !in x.queued && o !in AllMovedFrom(Transaction(t, []), script)
    ensures Agrees(ExecuteAll(Transaction(t, []), script).value.tables, o)
  {
    if script != [] {
      var rest, s := script[..|script| - 1], script[|script| - 1];
      var x := ExecuteAll(Transaction(t, []), rest).value;
      assert forall q | q in x.queued :: q in Execute(x, s).value.queued;
      ScriptTouches(t, rest, o);
      StatementTouches(x, s, o);
    }
  }

  /** Only an opportunity that lost a history row to an UPDATE, which nothing queues, can diverge unseen. */
  lemma OnlyMovedFromEscapes(t: Tables, script: seq<Statement>)
    requires Consistent(t) && ExecuteAll(Transaction(t, []), script).Some?
    ensures var x := ExecuteAll(Transaction(t, []), script).value;
            Consistent(x.tables) <==>
              QueueAgrees(x) && forall o | o in AllMovedFrom(Transaction(t, []), script) :: Agrees(x.tables, o)
  {
    var x := ExecuteAll(Transaction(t, []), script).value;
    if QueueAgrees(x) && forall o | o in AllMovedFrom(Transaction(t, []), script) :: Agrees(x.tables, o) {
      forall o | o in x.tables.cached ensures Agrees(x.tables, o) {
        if o !in x.queued && o !in AllMovedFrom(Transaction(t, []), script) {
          ScriptTouches(t, script, o);
        }
      }
    }
  }

  /** Checking only the queued ids equals checking everything when no row changes opportunity. */
  lemma QueuedCheckEqualsFullCheck(t: Tables, script: seq<Statement>)
    requires Consistent(t) && ExecuteAll(Transaction(t, []), script).Some?
    requires AllMovedFrom(Transaction(t, []), script) == {}
    ensures var x := ExecuteAll(Transaction(t, []), script).value;
            QueueAgrees(x) <==> Consistent(x.tables)
  {
    OnlyMovedFromEscapes(t, script);
  }

  /** The verdict depends on where a transaction ends, not on the order of its writes. */
  lemma VerdictIgnoresOrder(t: Tables, first: seq<Statement>, second: seq<Statement>)
    requires Consistent(t)
    requires ExecuteAll(Transaction(t, []), first).Some? && ExecuteAll(Transaction(t, []), second).Some?
    requires AllMovedFrom(Transaction(t, []), first) == AllMovedFrom(Transaction(t, []), second) == {}
    requires ExecuteAll(Transaction(t, []), first).value.tables == ExecuteAll(Transaction(t, []), second).value.tables
    ensures QueueAgrees(ExecuteAll(Transaction(t, []), first).value)
       <==> QueueAgrees(ExecuteAll(Transaction(t, []), second).value)
  {
    OnlyMovedFromEscapes(t, first);
    OnlyMovedFromEscapes(t, second);
  }

  lemma StatementKeepsKeys(x: Transaction, s: Statement)
    requires Execute(x, s).Some? && UniqueOpen(x.tables) && Referential(x.tables)
    ensures UniqueOpen(Execute(x, s).value.tables) && Referential(Execute(x, s).value.tables)
  {
  }

  lemma {:induction false} ScriptKeepsKeys(x: Transaction, script: seq<Statement>)
    requires ExecuteAll(x, script).Some? && UniqueOpen(x.tables) && Referential(x.tables)
    ensures UniqueOpen(ExecuteAll(x, script).value.tables) && Referential(ExecuteAll(x, script).value.tables)
  {
    if script != [] {
      ScriptKeepsKeys(x, script[..|script| - 1]);
      StatementKeepsKeys(ExecuteAll(x, script[..|script| - 1]).value, script[|script| - 1]);
    }
  }

  // -------------------------------------------------- which moves escape the check

  /** Opportunities that an UPDATE takes an open row away from. */
  function OpenMovedFrom(x: Transaction, s: Statement): set<Id> {
    if s.UpdateAssignment? && s.id in x.tables.assignments && x.tables.assignments[s.id].open
       && x.tables.assignments[s.id].opportunity != s.row.opportunity
    then {x.tables.assignments[s.id].opportunity}
    else {}
  }

  function AllOpenMovedFrom(x: Transaction, script: seq<Statement>): set<Id>
    requires ExecuteAll(x, script).Some?
  {
    if script == [] then {}
    else
      var rest := script[..|script| - 1];
      AllOpenMovedFrom(x, rest) + OpenMovedFrom(ExecuteAll(x, rest).value, script[|script| - 1])
  }

  ghost predicate HasOpen(t: Tables, o: Id) {
    exists a | a in t.assignments :: IsOpenFor(t.assignments[a], o)
  }

  ghost predicate SameOpen(t: Tables, u: Tables, o: Id) {
    forall a :: (a in t.assignments && IsOpenFor(t.assignments[a], o))
        <==> (a in u.assignments && IsOpenFor(u.assignments[a], o))
  }

  ghost predicate SameOpenRows(t: Tables, u: Tables, o: Id) {
    && SameOpen(t, u, o)
    && forall a | a in t.assignments && IsOpenFor(t.assignments[a], o) :: u.assignments[a] == t.assignments[a]
  }

  /** What a transaction leaves of an opportunity it never queued. */
  ghost predicate Unqueued(t: Tables, u: Tables, o: Id, moved: bool) {
    && (o in u.cached ==> o in t.cached && u.cached[o] == t.cached[o])
    && if moved then HasOpen(t, o) && !HasOpen(u, o) else SameOpenRows(t, u, o)
  }

  lemma CacheUnqueued(x: Transaction, s: Statement, o: Id)
    requires Execute(x, s).Some? && o !in Execute(x, s).value.queued
    ensures var u := Execute(x, s).value.tables;
            o in u.cached ==> o in x.tables.cached && u.cached[o] == x.tables.cached[o]
  {
  }

  /** A statement that does not queue `o` leaves its open rows, but for one it moves away. */
  lemma OpenRowsUnqueued(x: Transaction, s: Statement, o: Id)
    requires Execute(x, s).Some? && o !in Execute(x, s).value.queued
    requires UniqueOpen(x.tables)
    ensures var u := Execute(x, s).value.tables;
            if o in OpenMovedFrom(x, s) then HasOpen(x.tables, o) && !HasOpen(u, o) else SameOpenRows(x.tables, u, o)
  {
    var t, u := x.tables, Execute(x, s).value.tables;
    if o in OpenMovedFrom(x, s) {
      assert IsOpenFor(t.assignments[s.id], o);
    }
  }

  lemma {:induction false} ScriptUnqueued(t: Tables, script: seq<Statement>, o: Id)
    requires UniqueOpen(t) && Referential(t) && ExecuteAll(Transaction(t, []), script).Some?
    requires o !in ExecuteAll(Transaction(t, []), script).value.queued
    ensures Unqueued(t, ExecuteAll(Transaction(t, []), script).value.tables, o,
        o in AllOpenMovedFrom(Transaction(t, []), script))
  {
    if script != [] {
      var rest, s := script[..|script| - 1], script[|script| - 1];
      var x := ExecuteAll(Transaction(t, []), rest).value;
      QueueGrows(x, s);
      ScriptUnqueued(t, rest, o);
      ScriptKeepsKeys(Transaction(t, []), rest);
      CacheUnqueued(x, s, o);
      OpenRowsUnqueued(x, s, o);
      hide Execute, UniqueOpen, Referential, IsOpenFor, OpenMovedFrom;
    }
  }

  lemma QueueGrows(x: Transaction, s: Statement)
    requires Execute(x, s).Some?
    ensures forall q | q in x.queued :: q in Execute(x, s).value.queued
  {
  }

  lemma UnqueuedAgreesExactlyWhen(t: Tables, u: Tables, o: Id, moved: bool)
    requires Unqueued(t, u, o, moved) && o in u.cached && Agrees(t, o)
    ensures Agrees(u, o) <==> !moved
  {
    if moved {
      var a :| a in t.assignments && IsOpenFor(t.assignments[a], o);
      assert t.cached[o].Some?;
    } else {
      assert forall a | a in u.assignments && IsOpenFor(u.assignments[a], o) :: u.assignments[a] == t.assignments[a];
    }
  }

  /**
   The exact strength of the incremental check, for every script from a consistent state: the
   final state is consistent everywhere if and only if the queued ids agree and every
   opportunity that an UPDATE took an open row from, and that still exists, was queued by some
   other write.
   */
  lemma CommitCheckIsExact(t: Tables, script: seq<Statement>)
    requires Consistent(t) && UniqueOpen(t) && Referential(t) && ExecuteAll(Transaction(t, []), script).Some?
    ensures var x := ExecuteAll(Transaction(t, []), script).value;
            Consistent(x.tables) <==>
              QueueAgrees(x)
              && forall o | o in AllOpenMovedFrom(Transaction(t, []), script) && o in x.tables.cached :: o in x.queued
  {
    var x := ExecuteAll(Transaction(t, []), script).value;
    forall o | o in x.tables.cached && o !in x.queued
      ensures Agrees(x.tables, o) <==> o !in AllOpenMovedFrom(Transaction(t, []), script)
    {
      ScriptUnqueued(t, script, o);
      UnqueuedAgreesExactlyWhen(t, x.tables, o, o in AllOpenMovedFrom(Transaction(t, []), script));
    }
    hide ExecuteAll, AllOpenMovedFrom, UniqueOpen, Referential;
    forall o | o !in x.tables.cached ensures Agrees(x.tables, o) {}
  }

  /** Moving the open row of one opportunity to another escapes the check. */
  lemma MovedAssignmentEscapesCheck()
    ensures var t := Tables(map[1 := Some(7), 2 := None], map[5 := Assignment(1, 7, true)]);
            var script := [UpdateAssignment(5, Assignment(2, 7, true)), SetAdvisor(2, Some(7))];
            && Consistent(t) && UniqueOpen(t) && Referential(t)
            && var x := ExecuteAll(Transaction(t, []), script);
            && x.Some? && QueueAgrees(x.value)
            && !Consistent(x.value.tables) && !Agrees(x.value.tables, 1)
  {
    var t := Tables(map[1 := Some(7), 2 := None], map[5 := Assignment(1, 7, true)]);
    var s1, s2 := UpdateAssignment(5, Assignment(2, 7, true)), SetAdvisor(2, Some(7));
    assert [s1, s2][..1] == [s1] && [s1][..0] == [];
    assert IsOpenFor(t.assignments[5], 1);
    var x1 := Transaction(Tables(t.cached, map[5 := Assignment(2, 7, true)]), [2]);
    assert ExecuteAll(Transaction(t, []), []) == Some(Transaction(t, []));
    assert t.assignments[5 := Assignment(2, 7, true)] == map[5 := Assignment(2, 7, true)] && [] + [2] == [2];
    assert Execute(Transaction(t, []), s1) == Some(x1);
    assert ExecuteAll(Transaction(t, []), [s1]) == Some(x1);
    var x2 := Execute(x1, s2).value;
    assert ExecuteAll(Transaction(t, []), [s1, s2]) == Some(x2);
    assert x2.tables.cached == map[1 := Some(7), 2 := Some(7)] && x2.queued == [2, 2];
    assert IsOpenFor(x2.tables.assignments[5], 2);
    assert 1 in x2.tables.cached;
  }

  // ---------------------------------------------------------- whole transaction runs

  /** COMMIT publishes the working tables if the queued ids agree; anything else rolls back. */
  function Committed(t: Tables, script: seq<Statement>): Tables {
    match ExecuteAll(Transaction(t, []), script)
    case None => t
    case Some(x) => if QueueAgrees(x) then x.tables else t
  }

  function History(scripts: seq<seq<Statement>>): Tables {
    if scripts == [] then Tables(map[], map[])
    else Committed(History(scripts[..|scripts| - 1]), scripts[|scripts| - 1])
  }

  /** Scripts take effect one after the other, each on what the one before committed. */
  lemma HistoryCommitsInTurn(scripts: seq<seq<Statement>>, script: seq<Statement>)
    ensures History([]) == Tables(map[], map[])
    ensures History(scripts + [script]) == Committed(History(scripts), script)
  {
    assert (scripts + [script])[..|scripts|] == scripts;
  }

  /** Each opportunity that loses an open row to an UPDATE is gone or queued at the end. */
  predicate QueuesMoves(t: Tables, script: seq<Statement>) {
    match ExecuteAll(Transaction(t, []), script)
    case None => true
    case Some(x) =>
      forall o | o in AllOpenMovedFrom(Transaction(t, []), script) && o in x.tables.cached :: o in x.queued
  }

  predicate AlwaysQueuesMoves(scripts: seq<seq<Statement>>) {
    forall i | 0 <= i < |scripts| :: QueuesMoves(History(scripts[..i]), scripts[i])
  }

  /** In every reachable committed state the cache is the open assignment's advisor. */
  lemma {:induction false} CommittedCacheIsOpenAdvisor(scripts: seq<seq<Statement>>, o: Id)
    requires AlwaysQueuesMoves(scripts) && o in History(scripts).cached
    ensures History(scripts).cached[o] == OpenAdvisor(History(scripts), o)
  {
    HistoryIsConsistent(scripts);
    AgreesIsEquality(History(scripts), o);
  }

  lemma {:induction false} HistoryIsConsistent(scripts: seq<seq<Statement>>)
    requires AlwaysQueuesMoves(scripts)
    ensures Consistent(History(scripts)) && UniqueOpen(History(scripts)) && Referential(History(scripts))
  {
    if scripts != [] {
      var rest, script := scripts[..|scripts| - 1], scripts[|scripts| - 1];
      forall i | 0 <= i < |rest| ensures QueuesMoves(History(rest[..i]), rest[i]) {
        assert rest[..i] == scripts[..i];
      }
      HistoryIsConsistent(rest);
      var t := History(rest);
      assert QueuesMoves(History(scripts[..|scripts| - 1]), script);
      if ExecuteAll(Transaction(t, []), script).Some? {
        CommitCheckIsExact(t, script);
        ScriptKeepsKeys(Transaction(t, []), script);
      }
    }
  }

  /** The statements of a manual reassignment of `o` from row `current` to a new row. */
  function Close(t: Tables, current: Id): Statement
    requires current in t.assignments
  {
    UpdateAssignment(current, t.assignments[current].(open := false))
  }

  function Attach(o: Id, added: Id, advisor: Id): Statement {
    InsertAssignment(added, Assignment(o, advisor, true))
  }

  function Cache(o: Id, advisor: Id): Statement {
    SetAdvisor(o, Some(advisor))
  }

  function Reassignment(t: Tables, o: Id, current: Id, added: Id, advisor: Id, cacheFirst: bool): seq<Statement>
    requires current in t.assignments
  {
    if cacheFirst then [Cache(o, advisor), Close(t, current), Attach(o, added, advisor)]
    else [Close(t, current), Attach(o, added, advisor), Cache(o, advisor)]
  }

  function Reassigned(t: Tables, o: Id, current: Id, added: Id, advisor: Id): Tables
    requires current in t.assignments
  {
    Tables(t.cached[o := Some(advisor)],
           t.assignments[current := t.assignments[current].(open := false)][added := Assignment(o, advisor, true)])
  }

  ghost predicate Reassignable(t: Tables, o: Id, current: Id, added: Id) {
    && Consistent(t) && UniqueOpen(t) && Referential(t) && o in t.cached
    && current in t.assignments && IsOpenFor(t.assignments[current], o) && added !in t.assignments
  }

  lemma ReassignmentRuns(t: Tables, o: Id, current: Id, added: Id, advisor: Id, cacheFirst: bool)
    requires Reassignable(t, o, current, added)
    ensures ExecuteAll(Transaction(t, []), Reassignment(t, o, current, added, advisor, cacheFirst))
         == Some(Transaction(Reassigned(t, o, current, added, advisor), [o, o, o]))
  {
    hide Agrees;
    var close, attach, cache := Close(t, current), Attach(o, added, advisor), Cache(o, advisor);
    var script := Reassignment(t, o, current, added, advisor, cacheFirst);
    ThreeStatements(Transaction(t, []), script[0], script[1], script[2]);
    var closed := t.assignments[current := t.assignments[current].(open := false)];
    assert FitsUniqueOpen(closed, added, Assignment(o, advisor, true));
    assert [] + [o] + [o] + [o] == [o, o, o];
  }

  lemma ReassignedAgrees(t: Tables, o: Id, current: Id, added: Id, advisor: Id)
    requires Reassignable(t, o, current, added)
    ensures Consistent(Reassigned(t, o, current, added, advisor))
    ensures UniqueOpen(Reassigned(t, o, current, added, advisor))
  {
    var t' := Reassigned(t, o, current, added, advisor);
    assert IsOpenFor(t'.assignments[added], o);
    forall p | p in t'.cached && p != o ensures Agrees(t', p) {
      assert Agrees(t, p);
      forall a | a in t.assignments && IsOpenFor(t.assignments[a], p)
        ensures a in t'.assignments && t'.assignments[a] == t.assignments[a] {}
    }
  }

  /**
   A manual reassignment, with the cache written first or last, always commits and names
   the new advisor; opening the new row before closing the old one is refused at once.
   */
  lemma ReassignmentCommits(t: Tables, o: Id, current: Id, added: Id, advisor: Id, cacheFirst: bool)
    requires Reassignable(t, o, current, added)
    ensures var t' := Committed(t, Reassignment(t, o, current, added, advisor, cacheFirst));
            && Consistent(t') && UniqueOpen(t')
            && t'.cached == t.cached[o := Some(advisor)]
            && OpenAdvisor(t', o) == Some(advisor)
    ensures ExecuteAll(Transaction(t, []), [Attach(o, added, advisor), Close(t, current), Cache(o, advisor)]).None?
  {
    var t' := Reassigned(t, o, current, added, advisor);
    ReassignmentRuns(t, o, current, added, advisor, cacheFirst);
    ReassignedAgrees(t, o, current, added, advisor);
    assert QueueAgrees(Transaction(t', [o, o, o]));
    AgreesIsEquality(t', o);
    ThreeStatements(Transaction(t, []), Attach(o, added, advisor), Close(t, current), Cache(o, advisor));
  }

  /** The cache emptied, and row `current` closed. */
  function Released(t: Tables, o: Id, current: Id): Tables
    requires current in t.assignments
  {
    Tables(t.cached[o := None], t.assignments[current := t.assignments[current].(open := false)])
  }

  lemma ReleasedAgrees(t: Tables, o: Id, current: Id)
    requires Consistent(t) && KeysHold(t) && o in t.cached
    requires current in t.assignments && IsOpenFor(t.assignments[current], o)
    ensures Consistent(Released(t, o, current)) && UniqueOpen(Released(t, o, current))
    ensures forall a | a in t.assignments :: !IsOpenFor(Released(t, o, current).assignments[a], o)
  {
    var t' := Released(t, o, current);
    forall p | p in t'.cached && p != o ensures Agrees(t', p) {
      assert Agrees(t, p);
      forall a | a in t.assignments && IsOpenFor(t.assignments[a], p)
        ensures a in t'.assignments && t'.assignments[a] == t.assignments[a] {}
    }
  }

  /**
   Releasing an opportunity, by closing its open row and emptying the cache in either order,
   always commits: it ends with no cached advisor and no open row, and nothing else changes.
   */
  lemma ReleaseCommits(t: Tables, o: Id, current: Id, cacheFirst: bool)
    requires Consistent(t) && KeysHold(t) && o in t.cached
    requires current in t.assignments && IsOpenFor(t.assignments[current], o)
    ensures var close, clear := UpdateAssignment(current, t.assignments[current].(open := false)), SetAdvisor(o, None);
            var t' := Committed(t, if cacheFirst then [clear, close] else [close, clear]);
            && Consistent(t') && t'.cached == t.cached[o := None]
            && t'.assignments == t.assignments[current := t.assignments[current].(open := false)]
            && (forall a | a in t'.assignments :: !IsOpenFor(t'.assignments[a], o))
            && OpenAdvisor(t', o) == None
  {
    var close, clear := Close(t, current), SetAdvisor(o, None);
    var x, t' := Transaction(t, []), Released(t, o, current);
    ReleasedAgrees(t, o, current);
    hide Consistent, Agrees;
    TwoStatements(x, close, clear);
    TwoStatements(x, clear, close);
    assert [] + [o] + [o] == [o, o];
    var script := if cacheFirst then [clear, close] else [close, clear];
    assert ExecuteAll(x, script) == Some(Transaction(t', [o, o]));
    assert QueueAgrees(Transaction(t', [o, o])) by { ConsistentAgrees(t', o); }
  }

  lemma ConsistentAgrees(t: Tables, o: Id)
    requires Consistent(t) && o in t.cached
    ensures Agrees(t, o)
  {
  }

  lemma AssignedAgrees(t: Tables, o: Id, added: Id, advisor: Id)
    requires Consistent(t) && KeysHold(t) && o in t.cached && t.cached[o] == None && added !in t.assignments
    ensures var t' := Tables(t.cached[o := Some(advisor)], t.assignments[added := Assignment(o, advisor, true)]);
            Consistent(t') && UniqueOpen(t') && OpenAdvisor(t', o) == Some(advisor)
  {
    var t' := Tables(t.cached[o := Some(advisor)], t.assignments[added := Assignment(o, advisor, true)]);
    assert Agrees(t, o);
    assert IsOpenFor(t'.assignments[added], o);
    forall p | p in t'.cached && p != o ensures Agrees(t', p) {
      assert Agrees(t, p);
      forall a | a in t.assignments && IsOpenFor(t.assignments[a], p)
        ensures a in t'.assignments && t'.assignments[a] == t.assignments[a] {}
    }
  }

  /**
   The first assignment of an opportunity without an advisor, with the cache written first or
   last, always commits: one new open row, named by the cache, and nothing else changes.
   */
  lemma FirstAssignmentCommits(t: Tables, o: Id, added: Id, advisor: Id, cacheFirst: bool)
    requires Consistent(t) && KeysHold(t) && o in t.cached && t.cached[o] == None && added !in t.assignments
    ensures var attach, cache := InsertAssignment(added, Assignment(o, advisor, true)), SetAdvisor(o, Some(advisor));
            var t' := Committed(t, if cacheFirst then [cache, attach] else [attach, cache]);
            && Consistent(t') && t'.cached == t.cached[o := Some(advisor)]
            && t'.assignments == t.assignments[added := Assignment(o, advisor, true)]
            && OpenAdvisor(t', o) == Some(advisor)
  {
    var attach, cache := Attach(o, added, advisor), Cache(o, advisor);
    var x := Transaction(t, []);
    var t' := Tables(t.cached[o := Some(advisor)], t.assignments[added := Assignment(o, advisor, true)]);
    AssignedAgrees(t, o, added, advisor);
    ConsistentAgrees(t, o);
    TwoStatements(x, attach, cache);
    TwoStatements(x, cache, attach);
    assert [] + [o] + [o] == [o, o];
    var script := if cacheFirst then [cache, attach] else [attach, cache];
    assert FitsUniqueOpen(t.assignments, added, Assignment(o, advisor, true));
    assert ExecuteAll(x, script) == Some(Transaction(t', [o, o]));
    hide Consistent, Agrees;
    assert QueueAgrees(Transaction(t', [o, o])) by { ConsistentAgrees(t', o); }
  }

  lemma TwoStatements(x: Transaction, a: Statement, b: Statement)
    ensures ExecuteAll(x, [a, b]) == if Execute(x, a).None? then None else Execute(Execute(x, a).value, b)
  {
    assert [a, b][..1] == [a] && [a][..0] == [];
    assert ExecuteAll(x, []) == Some(x);
    assert ExecuteAll(x, [a]) == Execute(x, a);
  }

  lemma ThreeStatements(x: Transaction, a: Statement, b: Statement, c: Statement)
    ensures ExecuteAll(x, [a, b, c]) ==
            (match Execute(x, a)
             case None => None
             case Some(y) => match Execute(y, b) case None => None case Some(z) => Execute(z, c))
  {
    assert [a, b, c][..2] == [a, b] && [a, b][..1] == [a] && [a][..0] == [];
    assert ExecuteAll(x, []) == Some(x);
    assert ExecuteAll(x, [a]) == Execute(x, a);
    assert ExecuteAll(x, [a, b]) == if Execute(x, a).None? then None else Execute(Execute(x, a).value, b);
  }

  // -------------------------------------------------------------- the live database

  class AssignmentStore {
    var committed: Tables
    var tables: Tables
    var queued: seq<Id>

    function Working(): Transaction
      reads this
    {
      Transaction(tables, queued)
    }

    constructor ()
      ensures committed == tables == Tables(map[], map[]) && queued == []
    {
      committed, tables, queued := Tables(map[], map[]), Tables(map[], map[]), [];
    }

    /** Runs one statement in place; `false` means PostgreSQL refused it and changed nothing. */
    method Apply(s: Statement) returns (ok: bool)
      modifies this`tables, this`queued
      ensures ok <==> Execute(old(Working()), s).Some?
      ensures Working() == if ok then Execute(old(Working()), s).value else old(Working())
    {
      ok := true;
      match s {
        case InsertOpportunity(o, advisor) =>
          if o in tables.cached { return false; }
          tables := tables.(cached := tables.cached[o := advisor]);
          queued := queued + [o];
        case SetAdvisor(o, advisor) =>
          if o in tables.cached {
            tables := tables.(cached := tables.cached[o := advisor]);
            queued := queued + [o];
          }
        case DeleteOpportunity(o) =>
          if o in tables.cached {
            var kept :=
              map a | a in tables.assignments && tables.assignments[a].opportunity != o :: tables.assignments[a];
            if kept != tables.assignments {
              queued := queued + [o];
            } else {
              assert queued + [] == queued;
            }
            tables := Tables(tables.cached - {o}, kept);
          }
        case InsertAssignment(a, row) =>
          if a in tables.assignments || row.opportunity !in tables.cached
              || !FitsUniqueOpen(tables.assignments, a, row) {
            return false;
          }
          tables := tables.(assignments := tables.assignments[a := row]);
          queued := queued + [row.opportunity];
        case UpdateAssignment(a, row) =>
          if a in tables.assignments {
            if row.opportunity !in tables.cached || !FitsUniqueOpen(tables.assignments, a, row) {
              return false;
            }
            tables := tables.(assignments := tables.assignments[a := row]);
            queued := queued + [row.opportunity];
          }
        case DeleteAssignment(a) =>
          if a in tables.assignments {
            queued := queued + [tables.assignments[a].opportunity];
            tables := tables.(assignments := tables.assignments - {a});
          }
      }
    }

    /** COMMIT: fires the queued events one by one and rolls back at the first divergence. */
    method Commit() returns (ok: bool)
      modifies this
      ensures ok <==> QueueAgrees(old(Working()))
      ensures committed == if ok then old(tables) else old(committed)
      ensures tables == committed && queued == []
    {
      ok := true;
      var i := 0;
      while i < |queued| && ok
        invariant 0 <= i <= |queued|
        invariant ok <==> forall j | 0 <= j < i :: Agrees(tables, queued[j])
        decreases |queued| - i, ok
        modifies {}
      {
        ok := Agrees(tables, queued[i]);
        i := i + 1;
      }
      if ok {
        committed := tables;
      }
      tables, queued := committed, [];
    }

    method Rollback()
      modifies this`tables, this`queued
      ensures tables == committed && queued == []
    {
      tables, queued := committed, [];
    }

    /** A whole transaction from a fresh session. */
    method Transact(script: seq<Statement>)
      requires tables == committed && queued == []
      modifies this
      ensures committed == Committed(old(committed), script)
      ensures tables == committed && queued == []
    {
      ghost var start := Working();
      for i := 0 to |script|
        invariant committed == old(committed)
        invariant ExecuteAll(start, script[..i]) == Some(Working())
      {
        assert script[..i + 1][..i] == script[..i];
        var ok := Apply(script[i]);
        if !ok {
          AbortIsFinal(start, script, i + 1);
          Rollback();
          return;
        }
      }
      assert script[..|script|] == script;
      var done := Commit();
    }
  }

  lemma {:induction false} AbortIsFinal(x: Transaction, script: seq<Statement>, n: nat)
    requires n <= |script| && ExecuteAll(x, script[..n]).None?
    ensures ExecuteAll(x, script).None?
  {
    if n < |script| {
      assert script[..|script| - 1][..n] == script[..n];
      AbortIsFinal(x, script[..|script| - 1], n);
    } else {
      assert script[..n] == script;
    }
  }
}
