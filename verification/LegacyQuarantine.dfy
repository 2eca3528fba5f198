/**
 Revision 0011: preserve legacy opt-outs and quarantine outbound rows that never passed
 the eligibility gate. Four passes over the tables, each reading what it found at its start.
 */
module LegacyQuarantine {
  import opened Counting
  import opened Prelude

  datatype Lead = Lead(id: nat, optedOut: bool)

  datatype Suppression = Suppression(lead: nat, channel: string, scope: string, reason: string, revoked: bool)

  datatype Consent = Consent(lead: nat, channel: string, category: string, state: string, source: string)

  datatype Decision = Decision(outbox: Option<nat>, outcome: string)

  datatype Status = Pending | Sending | Sent | Failed | DeliveryUnknown | OtherStatus

  datatype Message = Message(id: nat, status: Status, nextAttempt: Option<int>, lastError: string)

  datatype Audit = Audit(subject: nat, action: string, previousStatus: Status)

  datatype Tables = Tables(
    leads: seq<Lead>, suppressions: seq<Suppression>, consents: seq<Consent>,
    decisions: seq<Decision>, outbox: seq<Message>, audits: seq<Audit>)

  // --------------------------------------------------------------------- the passes

  predicate Suppresses(s: Suppression, lead: nat) {
    s.lead == lead && s.channel == "WhatsApp" && !s.revoked
  }

  predicate Records(c: Consent, lead: nat) {
    && c.lead == lead && c.channel == "WhatsApp" && c.category == "Marketing"
    && c.state == "Revoked" && c.source == "LegacyFollowUpOptOut"
  }

  predicate Gated(decisions: seq<Decision>, message: nat) {
    exists d | d in decisions :: d.outbox == Some(message) && d.outcome == "Queued"
  }

  /** A deliverable row without positive evidence that it passed the gate. */
  predicate Unsafe(decisions: seq<Decision>, m: Message) {
    (m.status == Pending || m.status == Sending) && !Gated(decisions, m.id)
  }

  function LegacySuppression(lead: nat): Suppression {
    Suppression(lead, "WhatsApp", "BusinessInitiated", "LegacyFollowUpOptOut", false)
  }

  function LegacyConsent(lead: nat): Consent {
    Consent(lead, "WhatsApp", "Marketing", "Revoked", "LegacyFollowUpOptOut")
  }

  function QuarantineAudit(m: Message): Audit {
    Audit(m.id, "QuarantineLegacyOutbound", m.status)
  }

  const MAY_BE_DELIVERED := "Quarantined during Stage 1 cutover: delivery may already have occurred."
  const NO_EVIDENCE := "Quarantined during Stage 1 cutover: no eligibility evidence."

  function Retired(m: Message): Message {
    if m.status == Sending then
      Message(m.id, DeliveryUnknown, None, MAY_BE_DELIVERED)
    else
      Message(m.id, Failed, None, NO_EVIDENCE)
  }

  function NewSuppressions(leads: seq<Lead>, found: seq<Suppression>): seq<Suppression> {
    if leads == [] then []
    else
      var l := leads[|leads| - 1];
      NewSuppressions(leads[..|leads| - 1], found)
      + if l.optedOut && !exists s | s in found :: Suppresses(s, l.id) then [LegacySuppression(l.id)] else []
  }

  function NewConsents(leads: seq<Lead>, found: seq<Consent>): seq<Consent> {
    if leads == [] then []
    else
      var l := leads[|leads| - 1];
      NewConsents(leads[..|leads| - 1], found)
      + if l.optedOut && !exists c | c in found :: Records(c, l.id) then [LegacyConsent(l.id)] else []
  }

  function NewAudits(outbox: seq<Message>, decisions: seq<Decision>): seq<Audit> {
    if outbox == [] then []
    else
      var m := outbox[|outbox| - 1];
      NewAudits(outbox[..|outbox| - 1], decisions) + if Unsafe(decisions, m) then [QuarantineAudit(m)] else []
  }

  function Sweep(outbox: seq<Message>, decisions: seq<Decision>): seq<Message> {
    seq(|outbox|, i requires 0 <= i < |outbox| => if Unsafe(decisions, outbox[i]) then Retired(outbox[i])
        else outbox[i])
  }

  function Quarantined(t: Tables): Tables {
    Tables(
      t.leads,
      t.suppressions + NewSuppressions(t.leads, t.suppressions),
      t.consents + NewConsents(t.leads, t.consents),
      t.decisions,
      Sweep(t.outbox, t.decisions),
      t.audits + NewAudits(t.outbox, t.decisions))
  }

  // ---------------------------------------------------------------------- outbound

  predicate UniqueMessages(outbox: seq<Message>) {
    forall i, j | 0 <= i < j < |outbox| :: outbox[i].id != outbox[j].id
  }

  /**
   Row by row, on the columns: a Pending or Sending row without a Queued decision about it ends
   Failed or DeliveryUnknown with no further attempt; every other row stays as it was. So no
   deliverable row is left without evidence.
   */
  lemma NothingUnsafeIsLeft(t: Tables, i: nat)
    requires i < |t.outbox|
    ensures |Quarantined(t).outbox| == |t.outbox|
    ensures var m, m' := t.outbox[i], Quarantined(t).outbox[i];
            if m.status in {Pending, Sending}
               && forall d | d in t.decisions :: d.outbox == Some(m.id) ==> d.outcome != "Queued"
            then m'.id == m.id && m'.nextAttempt == None
                 && if m.status == Sending
                    then m'.status == DeliveryUnknown && m'.lastError == MAY_BE_DELIVERED
                    else m'.status == Failed && m'.lastError == NO_EVIDENCE
            else m' == m
    ensures Quarantined(t).decisions == t.decisions
  {
    hide NewSuppressions, NewConsents, NewAudits;
    assert Quarantined(t).outbox[i] == if Unsafe(t.decisions, t.outbox[i]) then Retired(t.outbox[i]) else t.outbox[i];
  }

  function About(message: nat): Audit -> bool {
    (a: Audit) => a.subject == message
  }

  function CountAudits(audits: seq<Audit>, message: nat): nat {
    Count(audits, About(message))
  }

  lemma {:induction false} AuditsNameMessages(outbox: seq<Message>, decisions: seq<Decision>, a: Audit)
    requires a in NewAudits(outbox, decisions)
    ensures exists i | 0 <= i < |outbox| :: Unsafe(decisions, outbox[i]) && a == QuarantineAudit(outbox[i])
  {
    var n := |outbox| - 1;
    if a in NewAudits(outbox[..n], decisions) {
      AuditsNameMessages(outbox[..n], decisions, a);
      var i :| 0 <= i < n && Unsafe(decisions, outbox[..n][i]) && a == QuarantineAudit(outbox[..n][i]);
      assert outbox[i] == outbox[..n][i];
    }
  }

  lemma NoAuditNoCount(audits: seq<Audit>, message: nat)
    requires forall a | a in audits :: a.subject != message
    ensures CountAudits(audits, message) == 0
  {
    CountedIffPresent(audits, About(message));
  }

  lemma AuditsOfLast(outbox: seq<Message>, decisions: seq<Decision>, message: nat)
    requires outbox != []
    ensures var last, rest := outbox[|outbox| - 1], NewAudits(outbox[..|outbox| - 1], decisions);
            && CountAudits(NewAudits(outbox, decisions), message) == CountAudits(rest, message)
                 + (if Unsafe(decisions, last) && last.id == message then 1 else 0)
            && forall a :: a in NewAudits(outbox, decisions) <==>
                 a in rest || (Unsafe(decisions, last) && a == QuarantineAudit(last))
  {
    var last, rest := outbox[|outbox| - 1], NewAudits(outbox[..|outbox| - 1], decisions);
    assert rest + [] == rest && (rest + [QuarantineAudit(last)])[..|rest|] == rest;
    hide Unsafe;
  }

  lemma LastIsNotEarlier(outbox: seq<Message>, decisions: seq<Decision>)
    requires UniqueMessages(outbox) && outbox != []
    ensures var n := |outbox| - 1;
            && (forall a | a in NewAudits(outbox[..n], decisions) :: a.subject != outbox[n].id)
            && CountAudits(NewAudits(outbox[..n], decisions), outbox[n].id) == 0
  {
    var n := |outbox| - 1;
    var rest := NewAudits(outbox[..n], decisions);
    forall a | a in rest ensures a.subject != outbox[n].id {
      AuditsNameMessages(outbox[..n], decisions, a);
    }
    NoAuditNoCount(rest, outbox[n].id);
  }

  /** On the columns: the new audits about a row, in whatever state the table is. */
  lemma AuditsTellWhatChanged(t: Tables, i: nat)
    requires UniqueMessages(t.outbox) && i < |t.outbox|
    ensures var m, m' := t.outbox[i], Quarantined(t).outbox[i];
            var added := Quarantined(t).audits[|t.audits|..];
            && t.audits <= Quarantined(t).audits
            && Count(added, About(m.id)) == (if m' == m then 0 else 1)
            && (m' != m ==> Audit(m.id, "QuarantineLegacyOutbound", m.status) in added)
  {
    OneAuditPerChangedRow(t.outbox, t.decisions, i);
    var added := NewAudits(t.outbox, t.decisions);
    assert Quarantined(t).audits == t.audits + added && Quarantined(t).audits[|t.audits|..] == added;
    hide NewAudits, NewSuppressions, NewConsents, Gated;
    assert Quarantined(t).outbox[i] == if Unsafe(t.decisions, t.outbox[i]) then Retired(t.outbox[i]) else t.outbox[i];
  }

  /** Exactly one new audit event for each changed row, with its prior status; none for others. */
  lemma {:induction false} OneAuditPerChangedRow(outbox: seq<Message>, decisions: seq<Decision>, i: nat)
    requires UniqueMessages(outbox) && i < |outbox|
    ensures CountAudits(NewAudits(outbox, decisions), outbox[i].id) == if Unsafe(decisions, outbox[i]) then 1 else 0
    ensures Unsafe(decisions, outbox[i]) ==> QuarantineAudit(outbox[i]) in NewAudits(outbox, decisions)
    ensures forall a | a in NewAudits(outbox, decisions) && a.subject == outbox[i].id ::
              a.previousStatus == outbox[i].status
  {
    var n := |outbox| - 1;
    AuditsOfLast(outbox, decisions, outbox[i].id);
    if i < n {
      assert outbox[..n][i] == outbox[i] && outbox[i].id != outbox[n].id && UniqueMessages(outbox[..n]);
      hide NewAudits, CountAudits, Unsafe, UniqueMessages;
      OneAuditPerChangedRow(outbox[..n], decisions, i);
    } else {
      LastIsNotEarlier(outbox, decisions);
      hide NewAudits, CountAudits, Unsafe, UniqueMessages;
    }
  }

  // --------------------------------------------------------------------- opt-outs

  function ActiveFor(lead: nat): Suppression -> bool {
    (s: Suppression) => Suppresses(s, lead)
  }

  function CountActive(suppressions: seq<Suppression>, lead: nat): nat {
    Count(suppressions, ActiveFor(lead))
  }

  predicate UniqueLeads(leads: seq<Lead>) {
    forall i, j | 0 <= i < j < |leads| :: leads[i].id != leads[j].id
  }

  /** `uq_suppression_active`, for the channel the migration writes. */
  ghost predicate OneActiveAtMost(suppressions: seq<Suppression>) {
    forall lead :: CountActive(suppressions, lead) <= 1
  }

  lemma ActiveIffSuppressed(suppressions: seq<Suppression>, lead: nat)
    ensures CountActive(suppressions, lead) > 0 <==> Suppressed(suppressions, lead)
  {
    CountedIffPresent(suppressions, ActiveFor(lead));
    if i :| 0 <= i < |suppressions| && ActiveFor(lead)(suppressions[i]) { assert suppressions[i] in suppressions; }
    if s :| s in suppressions && Suppresses(s, lead) {
      var i :| 0 <= i < |suppressions| && suppressions[i] == s;
      assert ActiveFor(lead)(suppressions[i]);
    }
  }

  predicate OptedOut(leads: seq<Lead>, lead: nat) {
    exists l | l in leads :: l.id == lead && l.optedOut
  }

  predicate Suppressed(found: seq<Suppression>, lead: nat) {
    exists s | s in found :: Suppresses(s, lead)
  }

  lemma AddedForLast(leads: seq<Lead>, found: seq<Suppression>, lead: nat)
    requires leads != []
    ensures var last := leads[|leads| - 1];
            CountActive(NewSuppressions(leads, found), lead) ==
            CountActive(NewSuppressions(leads[..|leads| - 1], found), lead)
            + if last.id == lead && last.optedOut && !Suppressed(found, lead) then 1 else 0
  {
    var last, rest := leads[|leads| - 1], NewSuppressions(leads[..|leads| - 1], found);
    assert rest + [] == rest && [LegacySuppression(last.id)][..0] == [];
    CountOfConcat(rest, [LegacySuppression(last.id)], ActiveFor(lead));
    assert Suppresses(LegacySuppression(last.id), lead) <==> last.id == lead;
  }

  lemma OptedOutLast(leads: seq<Lead>, lead: nat)
    requires UniqueLeads(leads) && leads != []
    ensures var last := leads[|leads| - 1];
            if last.id == lead then !OptedOut(leads[..|leads| - 1], lead) && (OptedOut(leads, lead) <==> last.optedOut)
            else OptedOut(leads, lead) <==> OptedOut(leads[..|leads| - 1], lead)
  {
    assert leads == leads[..|leads| - 1] + [leads[|leads| - 1]];
    forall l | l in leads[..|leads| - 1] ensures l.id != leads[|leads| - 1].id {
      var i :| 0 <= i < |leads| - 1 && leads[..|leads| - 1][i] == l;
      assert leads[i] == l;
    }
  }

  lemma {:induction false} AddedOnce(leads: seq<Lead>, found: seq<Suppression>, lead: nat)
    requires UniqueLeads(leads)
    ensures CountActive(NewSuppressions(leads, found), lead) ==
            if OptedOut(leads, lead) && !Suppressed(found, lead) then 1 else 0
  {
    if leads != [] {
      AddedForLast(leads, found, lead);
      OptedOutLast(leads, lead);
      assert UniqueLeads(leads[..|leads| - 1]);
      hide CountActive, NewSuppressions, OptedOut, Suppressed, UniqueLeads;
      AddedOnce(leads[..|leads| - 1], found, lead);
    }
  }

  /** Every opted-out lead ends with exactly one active suppression; the others keep what they had. */
  lemma OptOutsAreSuppressedOnce(t: Tables, lead: nat)
    requires UniqueLeads(t.leads) && OneActiveAtMost(t.suppressions)
    ensures CountActive(Quarantined(t).suppressions, lead) ==
            if exists l | l in t.leads :: l.id == lead && l.optedOut then 1 else CountActive(t.suppressions, lead)
    ensures OneActiveAtMost(Quarantined(t).suppressions)
  {
    forall k ensures CountActive(Quarantined(t).suppressions, k)
                  == CountActive(t.suppressions, k) + CountActive(NewSuppressions(t.leads, t.suppressions), k)
                  && CountActive(Quarantined(t).suppressions, k) <= 1 {
      CountOfConcat(t.suppressions, NewSuppressions(t.leads, t.suppressions), ActiveFor(k));
      AddedOnce(t.leads, t.suppressions, k);
      ActiveIffSuppressed(t.suppressions, k);
    }
    AddedOnce(t.leads, t.suppressions, lead);
    ActiveIffSuppressed(t.suppressions, lead);
  }

  /** Row `i` is the one unrevoked WhatsApp suppression of the lead. */
  predicate IsOnlyActive(suppressions: seq<Suppression>, lead: nat, i: nat) {
    forall j | 0 <= j < |suppressions| ::
      suppressions[j].lead == lead && suppressions[j].channel == "WhatsApp" && !suppressions[j].revoked <==> i == j
  }

  /** On the columns: after the migration one active suppression, and no more, tells each opt-out. */
  lemma OptOutIsTold(t: Tables, l: Lead)
    requires UniqueLeads(t.leads) && OneActiveAtMost(t.suppressions) && l in t.leads && l.optedOut
    ensures var after := Quarantined(t).suppressions;
            exists i | 0 <= i < |after| :: IsOnlyActive(after, l.id, i)
    ensures exists c :: c in Quarantined(t).consents && c.lead == l.id && c.channel == "WhatsApp"
                        && c.category == "Marketing" && c.state == "Revoked" && c.source == "LegacyFollowUpOptOut"
  {
    var after := Quarantined(t).suppressions;
    OptOutsAreSuppressedOnce(t, l.id);
    CountedIffPresent(after, ActiveFor(l.id));
    var i :| 0 <= i < |after| && ActiveFor(l.id)(after[i]);
    forall j | 0 <= j < |after|
      ensures after[j].lead == l.id && after[j].channel == "WhatsApp" && !after[j].revoked <==> i == j
    {
      if Suppresses(after[j], l.id) { CountedOnceIsUnique(after, ActiveFor(l.id), i, j); }
    }
    assert IsOnlyActive(after, l.id, i);
    NewRowsCover(t.leads, t.suppressions, t.consents, l);
    assert LegacyConsent(l.id) in NewConsents(t.leads, t.consents) ==> LegacyConsent(l.id) in Quarantined(t).consents;
  }

  lemma {:induction false} AddedForOptOuts(leads: seq<Lead>, found: seq<Suppression>, consents: seq<Consent>)
    ensures forall s | s in NewSuppressions(leads, found) ::
              exists l :: l in leads && l.optedOut && s == LegacySuppression(l.id)
    ensures forall c | c in NewConsents(leads, consents) ::
              exists l :: l in leads && l.optedOut && c == LegacyConsent(l.id)
  {
    if leads != [] {
      var n := |leads| - 1;
      AddedForOptOuts(leads[..n], found, consents);
      assert leads == leads[..n] + [leads[n]];
    }
  }

  /** Nothing is recorded about a lead that did not opt out, and no earlier record is changed or lost. */
  lemma OnlyOptOutsAreRecorded(t: Tables)
    ensures var u := Quarantined(t);
            && u.leads == t.leads && t.suppressions <= u.suppressions && t.consents <= u.consents
            && (forall s | s in u.suppressions[|t.suppressions|..] ::
                  s.scope == "BusinessInitiated" && s.reason == "LegacyFollowUpOptOut" && OptedOut(t.leads, s.lead))
            && (forall c | c in u.consents[|t.consents|..] ::
                  c.source == "LegacyFollowUpOptOut" && OptedOut(t.leads, c.lead))
  {
    AddedForOptOuts(t.leads, t.suppressions, t.consents);
    var u := Quarantined(t);
    assert u.suppressions[|t.suppressions|..] == NewSuppressions(t.leads, t.suppressions);
    assert u.consents[|t.consents|..] == NewConsents(t.leads, t.consents);
    hide NewSuppressions, NewConsents, NewAudits, Sweep;
  }

  // -------------------------------------------------------------------- idempotence

  lemma {:induction false} SuppressedAlready(leads: seq<Lead>, found: seq<Suppression>)
    requires forall l | l in leads && l.optedOut :: exists s | s in found :: Suppresses(s, l.id)
    ensures NewSuppressions(leads, found) == []
  {
    if leads != [] {
      SuppressedAlready(leads[..|leads| - 1], found);
    }
  }

  lemma {:induction false} ConsentedAlready(leads: seq<Lead>, found: seq<Consent>)
    requires forall l | l in leads && l.optedOut :: exists c | c in found :: Records(c, l.id)
    ensures NewConsents(leads, found) == []
  {
    if leads != [] {
      ConsentedAlready(leads[..|leads| - 1], found);
    }
  }

  lemma {:induction false} NewRowsCover(leads: seq<Lead>, suppressions: seq<Suppression>, consents: seq<Consent>,
        l: Lead)
    requires l in leads && l.optedOut
    ensures (exists s | s in suppressions :: Suppresses(s, l.id))
         || LegacySuppression(l.id) in NewSuppressions(leads, suppressions)
    ensures (exists c | c in consents :: Records(c, l.id)) || LegacyConsent(l.id) in NewConsents(leads, consents)
  {
    var n := |leads| - 1;
    if leads[n] != l {
      assert leads == leads[..n] + [leads[n]];
      NewRowsCover(leads[..n], suppressions, consents, l);
    }
  }

  lemma {:induction false} NothingToAudit(outbox: seq<Message>, decisions: seq<Decision>)
    requires forall m | m in outbox :: !Unsafe(decisions, m)
    ensures NewAudits(outbox, decisions) == []
  {
    if outbox != [] {
      NothingToAudit(outbox[..|outbox| - 1], decisions);
    }
  }

  /** Running the migration again changes nothing. */
  lemma QuarantineIsIdempotent(t: Tables)
    ensures Quarantined(Quarantined(t)) == Quarantined(t)
  {
    var u := Quarantined(t);
    forall l | l in t.leads && l.optedOut
      ensures exists s | s in u.suppressions :: Suppresses(s, l.id)
      ensures exists c | c in u.consents :: Records(c, l.id)
    {
      NewRowsCover(t.leads, t.suppressions, t.consents, l);
      assert Suppresses(LegacySuppression(l.id), l.id) && Records(LegacyConsent(l.id), l.id);
      if s :| s in t.suppressions && Suppresses(s, l.id) { assert s in u.suppressions; }
      if c :| c in t.consents && Records(c, l.id) { assert c in u.consents; }
    }
    SuppressedAlready(u.leads, u.suppressions);
    ConsentedAlready(u.leads, u.consents);
    NothingToAudit(u.outbox, u.decisions);
    assert Sweep(u.outbox, u.decisions) == u.outbox;
  }

  // ----------------------------------------------------------------- the live tables

  class OutboundStore {
    var tables: Tables

    constructor (tables: Tables)
      ensures this.tables == tables
    {
      this.tables := tables;
    }

    method SuppressOptOuts()
      modifies this
      ensures tables == old(tables).(suppressions := old(tables).suppressions
          + NewSuppressions(old(tables).leads, old(tables).suppressions))
    {
      var leads, found := tables.leads, tables.suppressions;
      var added := [];
      for i := 0 to |leads|
        invariant added == NewSuppressions(leads[..i], found)
      {
        assert leads[..i + 1][..i] == leads[..i] && added + [] == added;
        if leads[i].optedOut && !exists s | s in found :: Suppresses(s, leads[i].id) {
          added := added + [LegacySuppression(leads[i].id)];
        }
      }
      assert leads[..|leads|] == leads;
      tables := tables.(suppressions := found + added);
    }

    method RevokeConsents()
      modifies this
      ensures tables == old(tables).(consents := old(tables).consents
          + NewConsents(old(tables).leads, old(tables).consents))
    {
      var leads, found := tables.leads, tables.consents;
      var added := [];
      for i := 0 to |leads|
        invariant added == NewConsents(leads[..i], found)
      {
        assert leads[..i + 1][..i] == leads[..i] && added + [] == added;
        if leads[i].optedOut && !exists c | c in found :: Records(c, leads[i].id) {
          added := added + [LegacyConsent(leads[i].id)];
        }
      }
      assert leads[..|leads|] == leads;
      tables := tables.(consents := found + added);
    }

    method AuditUnsafe()
      modifies this
      ensures tables == old(tables).(audits := old(tables).audits
          + NewAudits(old(tables).outbox, old(tables).decisions))
    {
      var outbox, decisions := tables.outbox, tables.decisions;
      var added := [];
      for i := 0 to |outbox|
        invariant added == NewAudits(outbox[..i], decisions)
      {
        assert outbox[..i + 1][..i] == outbox[..i] && added + [] == added;
        if Unsafe(decisions, outbox[i]) {
          added := added + [QuarantineAudit(outbox[i])];
        }
      }
      assert outbox[..|outbox|] == outbox;
      tables := tables.(audits := tables.audits + added);
    }

    method RetireUnsafe()
      modifies this
      ensures tables == old(tables).(outbox := Sweep(old(tables).outbox, old(tables).decisions))
    {
      var outbox, decisions := tables.outbox, tables.decisions;
      var swept := outbox;
      for i := 0 to |outbox|
        invariant |swept| == |outbox|
        invariant forall j | 0 <= j < i :: swept[j] == Sweep(outbox, decisions)[j]
        invariant forall j | i <= j < |outbox| :: swept[j] == outbox[j]
      {
        if Unsafe(decisions, outbox[i]) {
          swept := swept[i := Retired(outbox[i])];
        }
      }
      assert swept == Sweep(outbox, decisions);
      tables := tables.(outbox := swept);
    }

    /** `upgrade()`: the audit pass runs before the statuses it records are changed. */
    method Upgrade()
      modifies this
      ensures tables == Quarantined(old(tables))
    {
      SuppressOptOuts();
      RevokeConsents();
      AuditUnsafe();
      RetireUnsafe();
    }
  }
}
