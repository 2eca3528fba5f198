/**
 Revisions 0012 and 0013: a Contact and a channel identity for every legacy lead, then a
 New opportunity for every contact that already wrote in, with the earliest conversation
 and its earliest message as origin.

 Row ids come from `gen_random_uuid()`. A pass takes the ids it will draw as `drawn`, one
 for each row it may write; freshness is a hypothesis of the lemmas that need it.
 */
module LegacyBackfill {
  import opened Counting
  import opened Prelude

  datatype Lead = Lead(id: nat, handle: string, name: Option<string>, createdAt: int)

  datatype Contact = Contact(id: nat, organization: nat, name: Option<string>, createdAt: int)

  datatype Identity = Identity(organization: nat, contact: nat, handle: string, lead: nat, firstSeen: int)

  datatype Conversation = Conversation(id: nat, lead: nat, createdAt: int)

  datatype Message = Message(id: nat, conversation: nat, sentAt: int, persistedAt: int)

  datatype Stage = New | LaterStage

  datatype Opportunity = Opportunity(id: nat, organization: nat, contact: nat, stage: Stage, startedAt: int)

  datatype Origin = Origin(opportunity: nat, conversation: nat, inbox: Option<nat>)

  datatype Transition = Transition(opportunity: nat, to: Stage, at: int)

  datatype Tables = Tables(
    leads: seq<Lead>, contacts: seq<Contact>, identities: seq<Identity>,
    conversations: seq<Conversation>, messages: seq<Message>,
    opportunities: seq<Opportunity>, origins: seq<Origin>, transitions: seq<Transition>)

  // ------------------------------------------------------- revision 0012: contacts

  /** A row of the temporary table `_contact_backfill`. */
  datatype Mapping = Mapping(lead: Lead, contact: nat)

  predicate Identified(identities: seq<Identity>, lead: nat) {
    exists i | 0 <= i < |identities| :: identities[i].lead == lead
  }

  function Mapped(leads: seq<Lead>, drawn: seq<nat>, identities: seq<Identity>): seq<Mapping>
    requires |leads| <= |drawn|
  {
    if leads == [] then []
    else
      var n := |leads| - 1;
      var before := Mapped(leads[..n], drawn, identities);
      if Identified(identities, leads[n].id) then before else before + [Mapping(leads[n], drawn[n])]
  }

  function ContactFor(m: Mapping, root: nat): Contact {
    Contact(m.contact, root, m.lead.name, m.lead.createdAt)
  }

  function IdentityFor(m: Mapping, root: nat): Identity {
    Identity(root, m.contact, m.lead.handle, m.lead.id, m.lead.createdAt)
  }

  function ContactsFor(mapping: seq<Mapping>, root: nat): seq<Contact> {
    seq(|mapping|, i requires 0 <= i < |mapping| => ContactFor(mapping[i], root))
  }

  function IdentitiesFor(mapping: seq<Mapping>, root: nat): seq<Identity> {
    seq(|mapping|, i requires 0 <= i < |mapping| => IdentityFor(mapping[i], root))
  }

  /** The contact pass: `root` is the id of the initial organization. */
  function WithContacts(t: Tables, root: nat, drawn: seq<nat>): Tables
    requires |t.leads| <= |drawn|
  {
    var mapping := Mapped(t.leads, drawn, t.identities);
    t.(contacts := t.contacts + ContactsFor(mapping, root), identities := t.identities + IdentitiesFor(mapping, root))
  }

  function OfLead(lead: nat): Identity -> bool {
    (i: Identity) => i.lead == lead
  }

  function OfContact(contact: nat): Identity -> bool {
    (i: Identity) => i.contact == contact
  }

  predicate UniqueLeads(leads: seq<Lead>) {
    forall i, j | 0 <= i < j < |leads| :: leads[i].id != leads[j].id
  }

  predicate UniqueContacts(contacts: seq<Contact>) {
    forall i, j | 0 <= i < j < |contacts| :: contacts[i].id != contacts[j].id
  }

  /** New ids: pairwise distinct and not in use as contact ids. */
  predicate FreshContacts(t: Tables, drawn: seq<nat>) {
    && (forall i, j | 0 <= i < j < |drawn| :: drawn[i] != drawn[j])
    && (forall i, k | 0 <= i < |drawn| && 0 <= k < |t.contacts| :: drawn[i] != t.contacts[k].id)
    && (forall i, k | 0 <= i < |drawn| && 0 <= k < |t.identities| :: drawn[i] != t.identities[k].contact)
  }

  /** Leads and contacts correspond one to one through the identity table. */
  ghost predicate Paired(t: Tables) {
    && (forall l | 0 <= l < |t.leads| :: Count(t.identities, OfLead(t.leads[l].id)) == 1)
    && (forall c | 0 <= c < |t.contacts| :: Count(t.identities, OfContact(t.contacts[c].id)) == 1)
  }

  /** What holds of contacts and identities before the pass (both tables may be empty). */
  ghost predicate PartlyPaired(t: Tables) {
    && UniqueLeads(t.leads) && UniqueContacts(t.contacts)
    && (forall lead :: Count(t.identities, OfLead(lead)) <= 1)
    && (forall c | 0 <= c < |t.contacts| :: Count(t.identities, OfContact(t.contacts[c].id)) == 1)
  }

  lemma {:induction false} MappingComesFromLeads(leads: seq<Lead>, drawn: seq<nat>, identities: seq<Identity>,
        k: nat) returns (i: nat)
    requires |leads| <= |drawn|
    requires k < |Mapped(leads, drawn, identities)|
    ensures i < |leads| && Mapped(leads, drawn, identities)[k] == Mapping(leads[i], drawn[i])
    ensures !Identified(identities, leads[i].id)
  {
    var n := |leads| - 1;
    var before := Mapped(leads[..n], drawn, identities);
    if k < |before| {
      i := MappingComesFromLeads(leads[..n], drawn, identities, k);
    } else {
      i := n;
    }
  }

  lemma {:induction false} UnidentifiedLeadsAreMapped(leads: seq<Lead>, drawn: seq<nat>, identities: seq<Identity>,
        i: nat) returns (k: nat)
    requires |leads| <= |drawn| && i < |leads|
    requires !Identified(identities, leads[i].id)
    ensures k < |Mapped(leads, drawn, identities)| && Mapped(leads, drawn, identities)[k] == Mapping(leads[i], drawn[i])
  {
    var n := |leads| - 1;
    if i < n {
      k := UnidentifiedLeadsAreMapped(leads[..n], drawn, identities, i);
    } else {
      k := |Mapped(leads[..n], drawn, identities)|;
    }
  }

  predicate Separate(a: Mapping, b: Mapping) {
    a.lead.id != b.lead.id && a.contact != b.contact
  }

  predicate OneToOne(mapping: seq<Mapping>) {
    forall a, b | 0 <= a < b < |mapping| :: Separate(mapping[a], mapping[b])
  }

  lemma {:induction false} MappingIsOneToOne(leads: seq<Lead>, drawn: seq<nat>, identities: seq<Identity>)
    requires |leads| <= |drawn| && UniqueLeads(leads)
    requires forall i, j | 0 <= i < j < |drawn| :: drawn[i] != drawn[j]
    ensures OneToOne(Mapped(leads, drawn, identities))
  {
    if leads != [] {
      var n := |leads| - 1;
      var before := Mapped(leads[..n], drawn, identities);
      MappingIsOneToOne(leads[..n], drawn, identities);
      forall a | 0 <= a < |before| ensures Separate(before[a], Mapping(leads[n], drawn[n])) {
        var i := MappingComesFromLeads(leads[..n], drawn, identities, a);
        assert leads[..n][i] == leads[i];
      }
    }
  }

  /** After the pass each lead has exactly one identity, whatever identities were there before. */
  lemma LeadIsIdentifiedOnce(t: Tables, root: nat, drawn: seq<nat>, l: nat)
    requires PartlyPaired(t) && |t.leads| <= |drawn| && FreshContacts(t, drawn) && l < |t.leads|
    ensures Count(WithContacts(t, root, drawn).identities, OfLead(t.leads[l].id)) == 1
  {
    var mapping := Mapped(t.leads, drawn, t.identities);
    var added := IdentitiesFor(mapping, root);
    var lead := t.leads[l].id;
    CountOfConcat(t.identities, added, OfLead(lead));
    CountedIffPresent(t.identities, OfLead(lead));
    if Identified(t.identities, lead) {
      forall k | 0 <= k < |added| ensures !OfLead(lead)(added[k]) {
        var i := MappingComesFromLeads(t.leads, drawn, t.identities, k);
      }
      CountedIffPresent(added, OfLead(lead));
      var i :| 0 <= i < |t.identities| && t.identities[i].lead == lead;
      assert OfLead(lead)(t.identities[i]);
    } else {
      MappingIsOneToOne(t.leads, drawn, t.identities);
      var k := UnidentifiedLeadsAreMapped(t.leads, drawn, t.identities, l);
      forall j | 0 <= j < |added| && j != k ensures !OfLead(lead)(added[j]) {
        assert if j < k then Separate(mapping[j], mapping[k]) else Separate(mapping[k], mapping[j]);
      }
      CountedOnce(added, OfLead(lead), k);
      assert forall i | 0 <= i < |t.identities| :: !OfLead(lead)(t.identities[i]);
    }
  }

  /** After the pass each contact, old or new, has exactly one identity. */
  lemma ContactIsIdentifiedOnce(t: Tables, root: nat, drawn: seq<nat>, c: nat)
    requires PartlyPaired(t) && |t.leads| <= |drawn| && FreshContacts(t, drawn)
    requires c < |WithContacts(t, root, drawn).contacts|
    ensures Count(WithContacts(t, root, drawn).identities, OfContact(WithContacts(t, root, drawn).contacts[c].id)) == 1
  {
    var mapping := Mapped(t.leads, drawn, t.identities);
    var added := IdentitiesFor(mapping, root);
    var contact := WithContacts(t, root, drawn).contacts[c].id;
    CountOfConcat(t.identities, added, OfContact(contact));
    if c < |t.contacts| {
      assert contact == t.contacts[c].id;
      forall k | 0 <= k < |added| ensures !OfContact(contact)(added[k]) {
        var i := MappingComesFromLeads(t.leads, drawn, t.identities, k);
      }
      CountedIffPresent(added, OfContact(contact));
    } else {
      var k := c - |t.contacts|;
      assert contact == mapping[k].contact;
      MappingIsOneToOne(t.leads, drawn, t.identities);
      var i := MappingComesFromLeads(t.leads, drawn, t.identities, k);
      forall j | 0 <= j < |added| && j != k ensures !OfContact(contact)(added[j]) {
        assert if j < k then Separate(mapping[j], mapping[k]) else Separate(mapping[k], mapping[j]);
      }
      assert OfContact(contact)(added[k]);
      CountedOnce(added, OfContact(contact), k);
      forall j | 0 <= j < |t.identities| ensures !OfContact(contact)(t.identities[j]) {
        assert drawn[i] != t.identities[j].contact;
      }
      CountedIffPresent(t.identities, OfContact(contact));
    }
  }

  /** Revision 0012 pairs every lead with exactly one contact, and every contact with exactly one lead. */
  lemma ContactsPairLeads(t: Tables, root: nat, drawn: seq<nat>)
    requires PartlyPaired(t) && |t.leads| <= |drawn| && FreshContacts(t, drawn)
    ensures Paired(WithContacts(t, root, drawn))
    ensures UniqueContacts(WithContacts(t, root, drawn).contacts)
  {
    var after := WithContacts(t, root, drawn);
    forall l | 0 <= l < |t.leads| ensures Count(after.identities, OfLead(t.leads[l].id)) == 1 {
      LeadIsIdentifiedOnce(t, root, drawn, l);
    }
    forall c | 0 <= c < |after.contacts| ensures Count(after.identities, OfContact(after.contacts[c].id)) == 1 {
      ContactIsIdentifiedOnce(t, root, drawn, c);
    }
    ContactsStayUnique(t, root, drawn);
  }

  lemma ContactsStayUnique(t: Tables, root: nat, drawn: seq<nat>)
    requires UniqueLeads(t.leads) && UniqueContacts(t.contacts) && |t.leads| <= |drawn| && FreshContacts(t, drawn)
    ensures UniqueContacts(WithContacts(t, root, drawn).contacts)
  {
    var after := WithContacts(t, root, drawn).contacts;
    var mapping := Mapped(t.leads, drawn, t.identities);
    MappingIsOneToOne(t.leads, drawn, t.identities);
    forall a, b | 0 <= a < b < |after| ensures after[a].id != after[b].id {
      if b >= |t.contacts| {
        var i := MappingComesFromLeads(t.leads, drawn, t.identities, b - |t.contacts|);
        if a >= |t.contacts| {
          assert Separate(mapping[a - |t.contacts|], mapping[b - |t.contacts|]);
        }
      }
    }
  }

  lemma {:induction false} NoneLeftToMap(leads: seq<Lead>, drawn: seq<nat>, identities: seq<Identity>)
    requires |leads| <= |drawn|
    requires forall l | 0 <= l < |leads| :: Identified(identities, leads[l].id)
    ensures Mapped(leads, drawn, identities) == []
  {
    if leads != [] {
      NoneLeftToMap(leads[..|leads| - 1], drawn, identities);
    }
  }

  /** Repeating the contact pass adds nothing, whatever ids it would draw. */
  lemma ContactsAreIdempotent(t: Tables, root: nat, drawn: seq<nat>, again: seq<nat>)
    requires |t.leads| <= |drawn| && |t.leads| <= |again|
    ensures WithContacts(WithContacts(t, root, drawn), root, again) == WithContacts(t, root, drawn)
  {
    var u := WithContacts(t, root, drawn);
    var mapping := Mapped(t.leads, drawn, t.identities);
    forall l | 0 <= l < |t.leads| ensures Identified(u.identities, t.leads[l].id) {
      if Identified(t.identities, t.leads[l].id) {
        var i :| 0 <= i < |t.identities| && t.identities[i].lead == t.leads[l].id;
        assert u.identities[i].lead == t.leads[l].id;
      } else {
        var k := UnidentifiedLeadsAreMapped(t.leads, drawn, t.identities, l);
        assert u.identities[|t.identities| + k].lead == t.leads[l].id;
      }
    }
    NoneLeftToMap(u.leads, again, u.identities);
    assert u.contacts + [] == u.contacts && u.identities + [] == u.identities;
  }

  // ---------------------------------------------------- revision 0013: opportunities

  /** `ORDER BY conv.created_at, conv.id`. */
  predicate Starts(a: Conversation, b: Conversation) {
    a.createdAt < b.createdAt || (a.createdAt == b.createdAt && a.id < b.id)
  }

  /** `ORDER BY m.sent_at, m.persisted_at, m.id`. */
  predicate Arrives(a: Message, b: Message) {
    || a.sentAt < b.sentAt
    || (a.sentAt == b.sentAt && a.persistedAt < b.persistedAt)
    || (a.sentAt == b.sentAt && a.persistedAt == b.persistedAt && a.id < b.id)
  }

  function FirstThread(conversations: seq<Conversation>, lead: nat): Option<Conversation>
    decreases |conversations|
  {
    if conversations == [] then None
    else
      var n := |conversations| - 1;
      var best := FirstThread(conversations[..n], lead);
      if conversations[n].lead == lead && (best.None? || Starts(conversations[n], best.value))
      then Some(conversations[n]) else best
  }

  function FirstMessage(messages: seq<Message>, conversation: nat): Option<Message>
    decreases |messages|
  {
    if messages == [] then None
    else
      var n := |messages| - 1;
      var best := FirstMessage(messages[..n], conversation);
      if messages[n].conversation == conversation && (best.None? || Arrives(messages[n], best.value))
      then Some(messages[n]) else best
  }

  /** A row of the temporary table `_opportunity_backfill`, without the id it draws. */
  datatype Opening = Opening(contact: Contact, conversation: nat, inbox: Option<nat>, startedAt: int)

  function Opened(contact: Contact, thread: Conversation, messages: seq<Message>): Opening {
    var first := FirstMessage(messages, thread.id);
    Opening(contact, thread.id, if first.Some? then Some(first.value.id) else None, thread.createdAt)
  }

  predicate Pursued(opportunities: seq<Opportunity>, contact: nat) {
    exists o | 0 <= o < |opportunities| :: opportunities[o].contact == contact
  }

  /** The rows that one contact joins: one for each of its identities with a conversation. */
  function ThreadsOf(contact: Contact, identities: seq<Identity>, conversations: seq<Conversation>,
        messages: seq<Message>): seq<Opening> {
    if identities == [] then []
    else
      var n := |identities| - 1;
      var before := ThreadsOf(contact, identities[..n], conversations, messages);
      var thread := FirstThread(conversations, identities[n].lead);
      if identities[n].contact == contact.id && thread.Some?
      then before + [Opened(contact, thread.value, messages)] else before
  }

  function Openings(contacts: seq<Contact>, t: Tables): seq<Opening> {
    if contacts == [] then []
    else
      var n := |contacts| - 1;
      var before := Openings(contacts[..n], t);
      if Pursued(t.opportunities, contacts[n].id) then before
      else before + ThreadsOf(contacts[n], t.identities, t.conversations, t.messages)
  }

  function OpportunityFor(o: Opening, id: nat): Opportunity {
    Opportunity(id, o.contact.organization, o.contact.id, New, o.startedAt)
  }

  function OpportunitiesFor(openings: seq<Opening>, drawn: seq<nat>): seq<Opportunity>
    requires |openings| <= |drawn|
  {
    seq(|openings|, i requires 0 <= i < |openings| => OpportunityFor(openings[i], drawn[i]))
  }

  function OriginsFor(openings: seq<Opening>, drawn: seq<nat>): seq<Origin>
    requires |openings| <= |drawn|
  {
    seq(|openings|, i requires 0 <= i < |openings| => Origin(drawn[i], openings[i].conversation, openings[i].inbox))
  }

  function TransitionsFor(openings: seq<Opening>, drawn: seq<nat>): seq<Transition>
    requires |openings| <= |drawn|
  {
    seq(|openings|, i requires 0 <= i < |openings| => Transition(drawn[i], New, openings[i].startedAt))
  }

  function WithOpportunities(t: Tables, drawn: seq<nat>): Tables
    requires |Openings(t.contacts, t)| <= |drawn|
  {
    var openings := Openings(t.contacts, t);
    t.(opportunities := t.opportunities + OpportunitiesFor(openings, drawn),
       origins := t.origins + OriginsFor(openings, drawn),
       transitions := t.transitions + TransitionsFor(openings, drawn))
  }

  // ---------------------------------------------------------- the origin is earliest

  predicate UniqueThreads(conversations: seq<Conversation>) {
    forall i, j | 0 <= i < j < |conversations| :: conversations[i].id != conversations[j].id
  }

  predicate UniqueMessages(messages: seq<Message>) {
    forall i, j | 0 <= i < j < |messages| :: messages[i].id != messages[j].id
  }

  /** `c` is a conversation of the lead, before every other one. */
  predicate EarliestThread(conversations: seq<Conversation>, lead: nat, c: Conversation) {
    && c in conversations && c.lead == lead
    && forall d | d in conversations && d.lead == lead && d != c ::
         c.createdAt < d.createdAt || (c.createdAt == d.createdAt && c.id < d.id)
  }

  predicate EarliestMessage(messages: seq<Message>, conversation: nat, m: Message) {
    && m in messages && m.conversation == conversation
    && forall n | n in messages && n.conversation == conversation && n != m ::
         || m.sentAt < n.sentAt
         || (m.sentAt == n.sentAt && m.persistedAt < n.persistedAt)
         || (m.sentAt == n.sentAt && m.persistedAt == n.persistedAt && m.id < n.id)
  }

  lemma {:induction false} FirstThreadIsEarliest(conversations: seq<Conversation>, lead: nat)
    requires UniqueThreads(conversations)
    ensures match FirstThread(conversations, lead)
            case Some(c) => EarliestThread(conversations, lead, c)
            case None => forall d | d in conversations :: d.lead != lead
  {
    if conversations != [] {
      var n := |conversations| - 1;
      var before := conversations[..n];
      assert conversations == before + [conversations[n]];
      FirstThreadIsEarliest(before, lead);
      assert forall d | d in before :: d.id != conversations[n].id;
    }
  }

  lemma {:induction false} FirstMessageIsEarliest(messages: seq<Message>, conversation: nat)
    requires UniqueMessages(messages)
    ensures match FirstMessage(messages, conversation)
            case Some(m) => EarliestMessage(messages, conversation, m)
            case None => forall n | n in messages :: n.conversation != conversation
  {
    if messages != [] {
      var n := |messages| - 1;
      var before := messages[..n];
      assert messages == before + [messages[n]];
      FirstMessageIsEarliest(before, conversation);
      assert forall d | d in before :: d.id != messages[n].id;
    }
  }

  /** The lead's earliest conversation, when it began, and its earliest message, if any. */
  ghost predicate EarliestHistory(t: Tables, lead: nat, conversation: nat, inbox: Option<nat>, startedAt: int) {
    exists c | 0 <= c < |t.conversations| ::
      && EarliestThread(t.conversations, lead, t.conversations[c])
      && conversation == t.conversations[c].id && startedAt == t.conversations[c].createdAt
      && match inbox
         case Some(id) => exists m | 0 <= m < |t.messages| ::
             EarliestMessage(t.messages, conversation, t.messages[m]) && t.messages[m].id == id
         case None => forall m | m in t.messages :: m.conversation != conversation
  }

  /** An origin names the earliest history of one of the contact's leads. */
  ghost predicate TrueOrigin(t: Tables, o: Opening) {
    exists i | 0 <= i < |t.identities| ::
      && t.identities[i].contact == o.contact.id
      && EarliestHistory(t, t.identities[i].lead, o.conversation, o.inbox, o.startedAt)
  }

  lemma OpenedHasTrueOrigin(t: Tables, contact: Contact, i: nat, thread: Conversation)
    requires UniqueThreads(t.conversations) && UniqueMessages(t.messages)
    requires i < |t.identities| && t.identities[i].contact == contact.id
    requires FirstThread(t.conversations, t.identities[i].lead) == Some(thread)
    ensures TrueOrigin(t, Opened(contact, thread, t.messages))
  {
    FirstThreadIsEarliest(t.conversations, t.identities[i].lead);
    FirstMessageIsEarliest(t.messages, thread.id);
    var c :| 0 <= c < |t.conversations| && t.conversations[c] == thread;
    var o := Opened(contact, thread, t.messages);
    if o.inbox.Some? {
      var first := FirstMessage(t.messages, thread.id).value;
      var m :| 0 <= m < |t.messages| && t.messages[m] == first;
      assert EarliestMessage(t.messages, o.conversation, t.messages[m]) && t.messages[m].id == o.inbox.value;
    }
    assert EarliestThread(t.conversations, t.identities[i].lead, t.conversations[c]);
    assert EarliestHistory(t, t.identities[i].lead, o.conversation, o.inbox, o.startedAt);
  }

  lemma {:induction false} ThreadsHaveTrueOrigins(t: Tables, contact: Contact, n: nat, k: nat)
    requires UniqueThreads(t.conversations) && UniqueMessages(t.messages)
    requires n <= |t.identities|
    requires k < |ThreadsOf(contact, t.identities[..n], t.conversations, t.messages)|
    ensures var o := ThreadsOf(contact, t.identities[..n], t.conversations, t.messages)[k];
            o.contact == contact && TrueOrigin(t, o)
  {
    hide TrueOrigin;
    if n > 0 {
      assert t.identities[..n][..n - 1] == t.identities[..n - 1];
      var before := ThreadsOf(contact, t.identities[..n - 1], t.conversations, t.messages);
      if k < |before| {
        ThreadsHaveTrueOrigins(t, contact, n - 1, k);
      } else {
        OpenedHasTrueOrigin(t, contact, n - 1, FirstThread(t.conversations, t.identities[n - 1].lead).value);
      }
    }
  }

  /** Every opportunity that revision 0013 opens has the earliest history as its origin. */
  lemma {:induction false} OpeningsHaveTrueOrigins(t: Tables, n: nat, k: nat)
    requires UniqueThreads(t.conversations) && UniqueMessages(t.messages)
    requires n <= |t.contacts| && k < |Openings(t.contacts[..n], t)|
    ensures var o := Openings(t.contacts[..n], t)[k];
            o.contact in t.contacts && !Pursued(t.opportunities, o.contact.id) && TrueOrigin(t, o)
  {
    hide TrueOrigin;
    hide Pursued;
    if n > 0 {
      assert t.contacts[..n][..n - 1] == t.contacts[..n - 1];
      var before := Openings(t.contacts[..n - 1], t);
      if k < |before| {
        OpeningsHaveTrueOrigins(t, n - 1, k);
      } else {
        assert t.identities[..|t.identities|] == t.identities;
        ThreadsHaveTrueOrigins(t, t.contacts[n - 1], |t.identities|, k - |before|);
      }
    }
  }

  function OriginOf(opportunity: nat): Origin -> bool {
    (o: Origin) => o.opportunity == opportunity
  }

  function TransitionOf(opportunity: nat): Transition -> bool {
    (x: Transition) => x.opportunity == opportunity
  }

  /** New ids: pairwise distinct and not yet named by an origin or a transition. */
  predicate FreshOpportunities(t: Tables, drawn: seq<nat>) {
    && (forall i, j | 0 <= i < j < |drawn| :: drawn[i] != drawn[j])
    && (forall i, k | 0 <= i < |drawn| && 0 <= k < |t.origins| :: drawn[i] != t.origins[k].opportunity)
    && (forall i, k | 0 <= i < |drawn| && 0 <= k < |t.transitions| :: drawn[i] != t.transitions[k].opportunity)
  }

  lemma OneOriginEach(t: Tables, drawn: seq<nat>, k: nat)
    requires |Openings(t.contacts, t)| <= |drawn| && FreshOpportunities(t, drawn) && k < |Openings(t.contacts, t)|
    ensures Count(WithOpportunities(t, drawn).origins, OriginOf(drawn[k])) == 1
    ensures Count(WithOpportunities(t, drawn).transitions, TransitionOf(drawn[k])) == 1
  {
    hide Openings;
    var u := WithOpportunities(t, drawn);
    forall i | 0 <= i < |u.origins| && i != |t.origins| + k ensures !OriginOf(drawn[k])(u.origins[i]) {
      if i < |t.origins| { assert u.origins[i] == t.origins[i]; }
    }
    CountedOnce(u.origins, OriginOf(drawn[k]), |t.origins| + k);
    forall i | 0 <= i < |u.transitions| && i != |t.transitions| + k ensures !TransitionOf(drawn[k])(u.transitions[i]) {
      if i < |t.transitions| { assert u.transitions[i] == t.transitions[i]; }
    }
    CountedOnce(u.transitions, TransitionOf(drawn[k]), |t.transitions| + k);
  }

  /**
   Each opportunity of revision 0013 starts New with one opening transition at its start and
   one origin, which is its contact's earliest history.
   */
  lemma OpportunityOpensFromHistory(t: Tables, drawn: seq<nat>, k: nat)
    requires UniqueThreads(t.conversations) && UniqueMessages(t.messages)
    requires |Openings(t.contacts, t)| <= |drawn| && FreshOpportunities(t, drawn) && k < |Openings(t.contacts, t)|
    ensures var u := WithOpportunities(t, drawn);
            var o, origin, x := u.opportunities[|t.opportunities| + k], u.origins[|t.origins| + k],
                u.transitions[|t.transitions| + k];
            && o.id == origin.opportunity == x.opportunity && o.stage == x.to == New && o.startedAt == x.at
            && Count(u.origins, OriginOf(o.id)) == 1 && Count(u.transitions, TransitionOf(o.id)) == 1
            && exists c | 0 <= c < |t.contacts| ::
                 && t.contacts[c].id == o.contact && t.contacts[c].organization == o.organization
                 && TrueOrigin(t, Opening(t.contacts[c], origin.conversation, origin.inbox, o.startedAt))
  {
    hide TrueOrigin, FreshOpportunities, Count;
    assert t.contacts[..|t.contacts|] == t.contacts;
    OpeningsHaveTrueOrigins(t, |t.contacts|, k);
    OneOriginEach(t, drawn, k);
    hide Openings;
    var opening := Openings(t.contacts, t)[k];
    var c :| 0 <= c < |t.contacts| && t.contacts[c] == opening.contact;
    assert opening == Opening(t.contacts[c], opening.conversation, opening.inbox, opening.startedAt);
  }

  // ------------------------------------------------------- how many are opened

  function ForContact(contact: nat): Opening -> bool {
    (o: Opening) => o.contact.id == contact
  }

  function Pursues(contact: nat): Opportunity -> bool {
    (o: Opportunity) => o.contact == contact
  }

  /** An identity of the contact whose lead has written in. */
  function Wrote(contact: nat, conversations: seq<Conversation>): Identity -> bool {
    (i: Identity) => i.contact == contact && FirstThread(conversations, i.lead).Some?
  }

  lemma {:induction false} ThreadsAreCounted(contact: Contact, identities: seq<Identity>,
        conversations: seq<Conversation>,
                                             messages: seq<Message>, other: nat)
    ensures Count(ThreadsOf(contact, identities, conversations, messages), ForContact(other)) ==
            if other == contact.id then Count(identities, Wrote(other, conversations)) else 0
  {
    if identities != [] {
      var n := |identities| - 1;
      var before := ThreadsOf(contact, identities[..n], conversations, messages);
      ThreadsAreCounted(contact, identities[..n], conversations, messages, other);
      var thread := FirstThread(conversations, identities[n].lead);
      if identities[n].contact == contact.id && thread.Some? {
        assert (before + [Opened(contact, thread.value, messages)])[..|before|] == before;
      }
    }
  }

  /** One opening for each identity with a conversation, and none for a contact already pursued. */
  lemma {:induction false} OpeningsAreCounted(contacts: seq<Contact>, t: Tables, contact: nat)
    requires UniqueContacts(contacts)
    ensures Count(Openings(contacts, t), ForContact(contact)) ==
            if (exists c | 0 <= c < |contacts| :: contacts[c].id == contact) && !Pursued(t.opportunities, contact)
            then Count(t.identities, Wrote(contact, t.conversations)) else 0
  {
    if contacts != [] {
      var n := |contacts| - 1;
      var before := Openings(contacts[..n], t);
      OpeningsAreCounted(contacts[..n], t, contact);
      if c :| 0 <= c < n && contacts[..n][c].id == contact { assert contacts[c].id == contact; }
      if c :| 0 <= c < |contacts| && contacts[c].id == contact {
        if c < n { assert contacts[..n][c].id == contact; }
      }
      if !Pursued(t.opportunities, contacts[n].id) {
        var threads := ThreadsOf(contacts[n], t.identities, t.conversations, t.messages);
        CountOfConcat(before, threads, ForContact(contact));
        ThreadsAreCounted(contacts[n], t.identities, t.conversations, t.messages, contact);
      }
    }
  }

  lemma {:induction false} OpportunitiesFollowOpenings(openings: seq<Opening>, drawn: seq<nat>, contact: nat)
    requires |openings| <= |drawn|
    ensures Count(OpportunitiesFor(openings, drawn), Pursues(contact)) == Count(openings, ForContact(contact))
  {
    if openings != [] {
      var n := |openings| - 1;
      OpportunitiesFollowOpenings(openings[..n], drawn, contact);
      assert OpportunitiesFor(openings, drawn)[..n] == OpportunitiesFor(openings[..n], drawn);
    }
  }

  /** The number of opportunities revision 0013 leaves a contact with. */
  lemma OpportunitiesPerContact(t: Tables, drawn: seq<nat>, c: nat)
    requires UniqueContacts(t.contacts) && c < |t.contacts| && |Openings(t.contacts, t)| <= |drawn|
    ensures var contact := t.contacts[c].id;
            Count(WithOpportunities(t, drawn).opportunities, Pursues(contact)) ==
            if Pursued(t.opportunities, contact) then Count(t.opportunities, Pursues(contact))
            else Count(t.identities, Wrote(contact, t.conversations))
  {
    var contact := t.contacts[c].id;
    var openings := Openings(t.contacts, t);
    CountOfConcat(t.opportunities, OpportunitiesFor(openings, drawn), Pursues(contact));
    OpportunitiesFollowOpenings(openings, drawn, contact);
    OpeningsAreCounted(t.contacts, t, contact);
    CountedIffPresent(t.opportunities, Pursues(contact));
    if Pursued(t.opportunities, contact) {
    } else {
      assert forall o | 0 <= o < |t.opportunities| :: !Pursues(contact)(t.opportunities[o]);
    }
  }

  /**
   "One New Demand Opportunity per legacy Contact that already wrote in" holds exactly when no
   contact has two identities that wrote in. The query joins identities, so a contact with
   two of them gets two opportunities. The schema admits such contacts; the program itself
   creates every identity with a contact of its own.
   */
  lemma OneOpportunityExactlyWhen(t: Tables, drawn: seq<nat>)
    requires UniqueContacts(t.contacts) && t.opportunities == [] && |Openings(t.contacts, t)| <= |drawn|
    ensures (forall c | 0 <= c < |t.contacts| ::
        Count(WithOpportunities(t, drawn).opportunities, Pursues(t.contacts[c].id)) <= 1)
       <==> (forall c | 0 <= c < |t.contacts| :: Count(t.identities, Wrote(t.contacts[c].id, t.conversations)) <= 1)
  {
    forall c | 0 <= c < |t.contacts|
      ensures Count(WithOpportunities(t, drawn).opportunities, Pursues(t.contacts[c].id))
           == Count(t.identities, Wrote(t.contacts[c].id, t.conversations))
    {
      OpportunitiesPerContact(t, drawn, c);
    }
  }

  /** Two leads of one person, both of whom wrote in: a database the schema admits. */
  function TwoIdentities(): Tables {
    Tables([Lead(1, "a", None, 0), Lead(2, "b", None, 0)], [Contact(5, 0, None, 0)],
           [Identity(0, 5, "a", 1, 0), Identity(0, 5, "b", 2, 0)],
           [Conversation(8, 1, 3), Conversation(9, 2, 4)], [], [], [], [])
  }

  lemma TwoIdentitiesGetTwoOpportunities()
    ensures var t := TwoIdentities();
            && |Openings(t.contacts, t)| == 2
            && Count(WithOpportunities(t, [20, 21]).opportunities, Pursues(5)) == 2
  {
    var t := TwoIdentities();
    var first, second := t.identities[0], t.identities[1];
    assert t.conversations[..1] == [Conversation(8, 1, 3)] && t.conversations[..1][..0] == [];
    assert FirstThread(t.conversations[..1], 1) == Some(Conversation(8, 1, 3));
    assert FirstThread(t.conversations[..1], 2) == None;
    assert FirstThread(t.conversations, 1).Some? && FirstThread(t.conversations, 2).Some?;
    var wrote := Wrote(5, t.conversations);
    assert wrote(first) && wrote(second);
    assert t.identities[..1] == [first] && t.identities[..1][..0] == [];
    assert Count(t.identities[..1], wrote) == 1;
    assert Count(t.identities, wrote) == 2;
    assert t.contacts[..0] == [];
    var threads := ThreadsOf(t.contacts[0], t.identities, t.conversations, t.messages);
    assert |ThreadsOf(t.contacts[0], t.identities[..1], t.conversations, t.messages)| == 1;
    assert |threads| == 2 && Openings(t.contacts, t) == [] + threads;
    OpportunitiesPerContact(t, [20, 21], 0);
  }

  // ------------------------------------------------------------------- both together

  /** After revision 0012 a contact's identities that wrote in are its one lead's, if any. */
  lemma WroteThroughOneLead(t: Tables, i: nat)
    requires i < |t.identities| && Count(t.identities, OfContact(t.identities[i].contact)) == 1
    ensures Count(t.identities, Wrote(t.identities[i].contact, t.conversations)) ==
            if FirstThread(t.conversations, t.identities[i].lead).Some? then 1 else 0
  {
    var contact := t.identities[i].contact;
    forall j | 0 <= j < |t.identities| && j != i ensures t.identities[j].contact != contact {
      if t.identities[j].contact == contact {
        CountedOnceIsUnique(t.identities, OfContact(contact), i, j);
        assert false;
      }
    }
    var wrote := Wrote(contact, t.conversations);
    if FirstThread(t.conversations, t.identities[i].lead).Some? {
      CountedOnce(t.identities, wrote, i);
    } else {
      CountedIffPresent(t.identities, wrote);
    }
  }

  lemma EmptyIsPartlyPaired(t: Tables)
    requires UniqueLeads(t.leads) && t.contacts == [] && t.identities == []
    ensures PartlyPaired(t)
  {
  }

  /**
   What 0012 carries over: a lead without an identity gets a contact of the initial organization
   with its name and the instant it was created, and an identity of that contact with its handle.
   Rows that were there stay.
   */
  lemma LeadsAreCarriedOver(t: Tables, root: nat, drawn: seq<nat>, l: nat) returns (k: nat)
    requires |t.leads| <= |drawn| && l < |t.leads|
    requires forall i | 0 <= i < |t.identities| :: t.identities[i].lead != t.leads[l].id
    ensures var lead, u := t.leads[l], WithContacts(t, root, drawn);
            && t.contacts <= u.contacts && t.identities <= u.identities
            && |t.contacts| + k < |u.contacts| && |t.identities| + k < |u.identities|
            && var contact := u.contacts[|t.contacts| + k];
            && contact == Contact(drawn[l], root, lead.name, lead.createdAt)
            && u.identities[|t.identities| + k] == Identity(root, drawn[l], lead.handle, lead.id, lead.createdAt)
  {
    k := UnidentifiedLeadsAreMapped(t.leads, drawn, t.identities, l);
  }

  lemma LegacyLeadsAreCounted(t: Tables, root: nat, drawn: seq<nat>, ids: seq<nat>, l: nat) returns (i: nat)
    requires UniqueLeads(t.leads) && t.contacts == [] && t.identities == [] && t.opportunities == []
    requires |t.leads| <= |drawn| && FreshContacts(t, drawn) && l < |t.leads|
    requires var u := WithContacts(t, root, drawn); |Openings(u.contacts, u)| <= |ids|
    ensures var u := WithContacts(t, root, drawn);
            && Paired(u) && i < |u.identities| && u.identities[i].lead == t.leads[l].id
            && Count(u.identities, OfContact(u.identities[i].contact)) == 1
            && Count(WithOpportunities(u, ids).opportunities, Pursues(u.identities[i].contact))
               == if exists c | c in t.conversations :: c.lead == t.leads[l].id then 1 else 0
  {
    hide FirstThread, Openings, Paired, PartlyPaired, Mapped, UniqueContacts, FreshContacts, ContactsFor,
        IdentitiesFor, Count, WithOpportunities;
    var u := WithContacts(t, root, drawn);
    EmptyIsPartlyPaired(t);
    ContactsPairLeads(t, root, drawn);
    i := LeadsAreCarriedOver(t, root, drawn, l);
    ContactIsIdentifiedOnce(t, root, drawn, i);
    WroteThroughOneLead(u, i);
    OpportunitiesPerContact(u, ids, i);
    ThreadIffConversation(t.conversations, t.leads[l].id);
  }

  /** The `k`-th opportunity that the second pass opens, with its origin and its opening transition. */
  ghost predicate OpensAs(t: Tables, u: Tables, k: nat, contact: nat, lead: nat)
    requires |t.opportunities| + k < |u.opportunities| && |t.origins| + k < |u.origins|
        && |t.transitions| + k < |u.transitions|
  {
    var o, origin, x := u.opportunities[|t.opportunities| + k], u.origins[|t.origins| + k],
        u.transitions[|t.transitions| + k];
    && o.contact == contact && o.stage == x.to == New && o.id == origin.opportunity == x.opportunity
        && o.startedAt == x.at
    && EarliestHistory(t, lead, origin.conversation, origin.inbox, o.startedAt)
  }

  /** A contact with one identity: an opportunity the pass opens for it has that identity's lead's history. */
  lemma OpensFromItsLead(t: Tables, ids: seq<nat>, k: nat, i: nat)
    requires UniqueThreads(t.conversations) && UniqueMessages(t.messages)
    requires |Openings(t.contacts, t)| <= |ids| && FreshOpportunities(t, ids) && k < |Openings(t.contacts, t)|
    requires i < |t.identities| && Count(t.identities, OfContact(t.identities[i].contact)) == 1
    requires WithOpportunities(t, ids).opportunities[|t.opportunities| + k].contact == t.identities[i].contact
    ensures OpensAs(t, WithOpportunities(t, ids), k, t.identities[i].contact, t.identities[i].lead)
  {
    OpportunityOpensFromHistory(t, ids, k);
    hide Openings, WithOpportunities, EarliestHistory, FreshOpportunities, UniqueThreads, UniqueMessages, Count;
    var u := WithOpportunities(t, ids);
    var o, origin := u.opportunities[|t.opportunities| + k], u.origins[|t.origins| + k];
    var c :| 0 <= c < |t.contacts| && t.contacts[c].id == o.contact
             && TrueOrigin(t, Opening(t.contacts[c], origin.conversation, origin.inbox, o.startedAt));
    var j :| 0 <= j < |t.identities| && t.identities[j].contact == o.contact
             && EarliestHistory(t, t.identities[j].lead, origin.conversation, origin.inbox, o.startedAt);
    CountedOnceIsUnique(t.identities, OfContact(o.contact), i, j);
  }

  /**
   From a database with legacy leads and empty contact and opportunity tables, the two
   revisions give each lead one identity; its contact gets exactly one opportunity when the
   lead has a conversation and none otherwise; and that opportunity is New, with the lead's
   earliest conversation and its earliest message as origin.
   */
  lemma LegacyHistoryIsPursuedOnce(t: Tables, root: nat, drawn: seq<nat>, ids: seq<nat>, l: nat)
        returns (i: nat, k: nat)
    requires UniqueLeads(t.leads) && t.contacts == [] && t.identities == [] && t.opportunities == []
    requires UniqueThreads(t.conversations) && UniqueMessages(t.messages)
    requires |t.leads| <= |drawn| && FreshContacts(t, drawn) && l < |t.leads|
    requires var u := WithContacts(t, root, drawn); |Openings(u.contacts, u)| <= |ids| && FreshOpportunities(u, ids)
    ensures var u := WithContacts(t, root, drawn);
            var wrote := exists c | c in t.conversations :: c.lead == t.leads[l].id;
            && Paired(u) && i < |u.identities| && u.identities[i].lead == t.leads[l].id
            && Count(WithOpportunities(u, ids).opportunities, Pursues(u.identities[i].contact))
                == (if wrote then 1 else 0)
            && (wrote ==>
                  && k < |Openings(u.contacts, u)|
                  && OpensAs(u, WithOpportunities(u, ids), k, u.identities[i].contact, t.leads[l].id))
  {
    hide Openings, Paired, Mapped, FreshContacts, FreshOpportunities, Count, EarliestHistory, UniqueLeads, OpensAs;
    i := LegacyLeadsAreCounted(t, root, drawn, ids, l);
    k := 0;
    var u := WithContacts(t, root, drawn);
    var opportunities := WithOpportunities(u, ids).opportunities;
    var contact := u.identities[i].contact;
    CountedIffPresent(opportunities, Pursues(contact));
    if n :| 0 <= n < |opportunities| && Pursues(contact)(opportunities[n]) {
      k := n;
      OpensFromItsLead(u, ids, k, i);
    }
  }

  lemma {:induction false} ThreadIffConversation(conversations: seq<Conversation>, lead: nat)
    ensures FirstThread(conversations, lead).Some? <==> exists c | c in conversations :: c.lead == lead
  {
    if conversations != [] {
      var n := |conversations| - 1;
      assert conversations == conversations[..n] + [conversations[n]];
      ThreadIffConversation(conversations[..n], lead);
    }
  }

  lemma {:induction false} NothingToOpen(contacts: seq<Contact>, t: Tables)
    requires forall c | 0 <= c < |contacts| ::
               Pursued(t.opportunities, contacts[c].id)
                   || Count(t.identities, Wrote(contacts[c].id, t.conversations)) == 0
    ensures Openings(contacts, t) == []
  {
    if contacts != [] {
      var n := |contacts| - 1;
      forall c | 0 <= c < n ensures contacts[..n][c] == contacts[c] {}
      NothingToOpen(contacts[..n], t);
      if !Pursued(t.opportunities, contacts[n].id) {
        NoThreads(contacts[n], t.identities, t.conversations, t.messages);
      }
    }
  }

  lemma {:induction false} NoThreads(contact: Contact, identities: seq<Identity>, conversations: seq<Conversation>,
        messages: seq<Message>)
    requires Count(identities, Wrote(contact.id, conversations)) == 0
    ensures ThreadsOf(contact, identities, conversations, messages) == []
  {
    if identities != [] {
      NoThreads(contact, identities[..|identities| - 1], conversations, messages);
    }
  }

  /** Repeating the opportunity pass adds nothing, even where a contact has several identities. */
  lemma OpportunitiesAreIdempotent(t: Tables, drawn: seq<nat>, again: seq<nat>)
    requires UniqueContacts(t.contacts) && |Openings(t.contacts, t)| <= |drawn|
    ensures var u := WithOpportunities(t, drawn);
            Openings(u.contacts, u) == [] && WithOpportunities(u, again) == u
  {
    var u := WithOpportunities(t, drawn);
    forall c | 0 <= c < |u.contacts|
      ensures Pursued(u.opportunities, u.contacts[c].id)
          || Count(u.identities, Wrote(u.contacts[c].id, u.conversations)) == 0
    {
      OpportunitiesPerContact(t, drawn, c);
      CountedIffPresent(u.opportunities, Pursues(u.contacts[c].id));
      CountedIffPresent(t.opportunities, Pursues(u.contacts[c].id));
      if o :| 0 <= o < |u.opportunities| && Pursues(u.contacts[c].id)(u.opportunities[o]) {
        assert u.opportunities[o].contact == u.contacts[c].id;
      }
      if Pursued(t.opportunities, u.contacts[c].id) {
        var o :| 0 <= o < |t.opportunities| && t.opportunities[o].contact == u.contacts[c].id;
        assert u.opportunities[o].contact == u.contacts[c].id;
      }
    }
    NothingToOpen(u.contacts, u);
    assert u.opportunities + [] == u.opportunities && u.origins + [] == u.origins
        && u.transitions + [] == u.transitions;
  }

  // ----------------------------------------------------------------- the live tables

  class LegacyStore {
    var tables: Tables

    constructor (tables: Tables)
      ensures this.tables == tables
    {
      this.tables := tables;
    }

    /** The end of revision 0012: the temporary table, then the two inserts that read it. */
    method BackfillContacts(root: nat, drawn: seq<nat>)
      requires |tables.leads| <= |drawn|
      modifies this
      ensures tables == WithContacts(old(tables), root, drawn)
    {
      var leads, identities := tables.leads, tables.identities;
      var mapping: seq<Mapping> := [];
      for l := 0 to |leads|
        modifies {}
        invariant mapping == Mapped(leads[..l], drawn, identities)
      {
        assert leads[..l + 1][..l] == leads[..l];
        if !Identified(identities, leads[l].id) {
          mapping := mapping + [Mapping(leads[l], drawn[l])];
        }
      }
      assert leads[..|leads|] == leads;
      tables := tables.(contacts := tables.contacts + ContactsFor(mapping, root));
      tables := tables.(identities := tables.identities + IdentitiesFor(mapping, root));
    }

    /** The join of one contact with its identities and their first conversations. */
    method JoinThreads(contact: Contact) returns (threads: seq<Opening>)
      ensures threads == ThreadsOf(contact, tables.identities, tables.conversations, tables.messages)
    {
      var identities := tables.identities;
      threads := [];
      for i := 0 to |identities|
        invariant threads == ThreadsOf(contact, identities[..i], tables.conversations, tables.messages)
      {
        assert identities[..i + 1][..i] == identities[..i];
        if identities[i].contact == contact.id {
          var thread := FirstThread(tables.conversations, identities[i].lead);
          if thread.Some? {
            threads := threads + [Opened(contact, thread.value, tables.messages)];
          }
        }
      }
      assert identities[..|identities|] == identities;
    }

    method JoinContacts() returns (openings: seq<Opening>)
      ensures openings == Openings(tables.contacts, tables)
    {
      var contacts := tables.contacts;
      openings := [];
      for c := 0 to |contacts|
        invariant openings == Openings(contacts[..c], tables)
      {
        assert contacts[..c + 1][..c] == contacts[..c];
        if !Pursued(tables.opportunities, contacts[c].id) {
          var threads := JoinThreads(contacts[c]);
          openings := openings + threads;
        }
      }
      assert contacts[..|contacts|] == contacts;
    }

    /** `_backfill_legacy_opportunities`: the temporary table, then three inserts that read it. */
    method BackfillOpportunities(drawn: seq<nat>)
      requires |Openings(tables.contacts, tables)| <= |drawn|
      modifies this
      ensures tables == WithOpportunities(old(tables), drawn)
    {
      var openings := JoinContacts();
      tables := tables.(opportunities := tables.opportunities + OpportunitiesFor(openings, drawn));
      tables := tables.(origins := tables.origins + OriginsFor(openings, drawn));
      tables := tables.(transitions := tables.transitions + TransitionsFor(openings, drawn));
    }
  }
}
