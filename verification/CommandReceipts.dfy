/**
 The idempotent command protocol of the operator's POST handlers: claim a receipt, run
 the effect, commit; a refusal anywhere discards the receipt and the effect together.

 The domain effect is any function of the business state and the request. It reports
 whether it succeeded and may leave partial writes behind when it does not. Requests
 are serialised by the receipt lock, and the payload digest is an arbitrary function.
 */
module CommandReceipts {
  import opened Prelude
  import opened Texts

  datatype Request = Request(
    organization: nat, key: string, operation: string, subjectType: string, subjectId: string,
    payload: map<string, string>)

  /** A receipt's unique key: the Organization and its command key. */
  datatype ReceiptKey = ReceiptKey(organization: nat, key: string)

  datatype Receipt = Receipt(operation: string, subjectType: string, subjectId: string, payloadHash: string)

  datatype Effect<+S> = Effect(state: S, ok: bool)

  datatype Database<+S> = Database(receipts: map<ReceiptKey, Receipt>, state: S)

  datatype Answer = Applied | Replayed | Conflict | Refused

  type Domain<!S> = (S, Request) -> Effect<S>

  type Digest = map<string, string> -> string

  function KeyOf(r: Request): ReceiptKey {
    ReceiptKey(r.organization, r.key)
  }

  function ReceiptOf(r: Request, digest: Digest): Receipt {
    Receipt(r.operation, r.subjectType, r.subjectId, digest(r.payload))
  }

  // ------------------------------------------------------------- one request

  function Answered<S>(db: Database<S>, r: Request, domain: Domain<S>, digest: Digest): Answer {
    if KeyOf(r) in db.receipts then
      if db.receipts[KeyOf(r)] == ReceiptOf(r, digest) then Replayed else Conflict
    else if domain(db.state, r).ok then Applied
    else Refused
  }

  function Handle<S>(db: Database<S>, r: Request, domain: Domain<S>, digest: Digest): Database<S> {
    if Answered(db, r, domain, digest).Applied? then
      Database(db.receipts[KeyOf(r) := ReceiptOf(r, digest)], domain(db.state, r).state)
    else db
  }

  function Run<S>(db: Database<S>, rs: seq<Request>, domain: Domain<S>, digest: Digest): Database<S>
    decreases rs
  {
    if rs == [] then db else Run(Handle(db, rs[0], domain, digest), rs[1..], domain, digest)
  }

  /** The requests that took effect, in order. */
  function Winners<S>(db: Database<S>, rs: seq<Request>, domain: Domain<S>, digest: Digest): seq<Request>
    decreases rs
  {
    if rs == [] then []
    else
      var later := Winners(Handle(db, rs[0], domain, digest), rs[1..], domain, digest);
      if Answered(db, rs[0], domain, digest).Applied? then [rs[0]] + later else later
  }

  // ------------------------------------------------- the protocol it implements

  /** The ideal: no receipts, no answers; a key that already succeeded is skipped. */
  function Once<S>(done: set<ReceiptKey>, state: S, rs: seq<Request>, domain: Domain<S>): (set<ReceiptKey>, S)
    decreases rs
  {
    if rs == [] then (done, state)
    else if KeyOf(rs[0]) in done || !domain(state, rs[0]).ok then Once(done, state, rs[1..], domain)
    else Once(done + {KeyOf(rs[0])}, domain(state, rs[0]).state, rs[1..], domain)
  }

  /** Applies every request unconditionally; `None` when one of them would be refused. */
  function ApplyAll<S>(state: S, rs: seq<Request>, domain: Domain<S>): Option<S>
    decreases rs
  {
    if rs == [] then Some(state)
    else if domain(state, rs[0]).ok then ApplyAll(domain(state, rs[0]).state, rs[1..], domain)
    else None
  }

  predicate DistinctKeys(rs: seq<Request>) {
    forall i, j | 0 <= i < j < |rs| :: KeyOf(rs[i]) != KeyOf(rs[j])
  }

  /** The whole protocol refines "apply each key once". */
  lemma {:induction false} RunRefinesOnce<S>(db: Database<S>, rs: seq<Request>, domain: Domain<S>, digest: Digest)
    ensures var db' := Run(db, rs, domain, digest);
            (db'.receipts.Keys, db'.state) == Once(db.receipts.Keys, db.state, rs, domain)
    decreases rs
  {
    if rs != [] {
      RunRefinesOnce(Handle(db, rs[0], domain, digest), rs[1..], domain, digest);
      if Answered(db, rs[0], domain, digest).Applied? {
        assert Handle(db, rs[0], domain, digest).receipts.Keys == db.receipts.Keys + {KeyOf(rs[0])};
      }
    }
  }

  /** The business state is the winners' effects in order; each of them succeeds. */
  lemma {:induction false} StateIsWinnersApplied<S>(db: Database<S>, rs: seq<Request>, domain: Domain<S>,
        digest: Digest)
    ensures ApplyAll(db.state, Winners(db, rs, domain, digest), domain) == Some(Run(db, rs, domain, digest).state)
    decreases rs
  {
    if rs != [] {
      StateIsWinnersApplied(Handle(db, rs[0], domain, digest), rs[1..], domain, digest);
      var later := Winners(Handle(db, rs[0], domain, digest), rs[1..], domain, digest);
      assert ([rs[0]] + later)[1..] == later;
    }
  }

  /** How one request changes the receipts. */
  lemma HandledReceipts<S>(db: Database<S>, r: Request, domain: Domain<S>, digest: Digest)
    ensures var db1 := Handle(db, r, domain, digest);
            if Answered(db, r, domain, digest).Applied?
            then KeyOf(r) !in db.receipts && db1.receipts == db.receipts[KeyOf(r) := ReceiptOf(r, digest)]
            else db1.receipts == db.receipts
  {
  }

  lemma {:induction false} WinnersHaveReceipts<S>(db: Database<S>, rs: seq<Request>, domain: Domain<S>, digest: Digest)
    ensures var ws := Winners(db, rs, domain, digest);
            var receipts := Run(db, rs, domain, digest).receipts;
            && DistinctKeys(ws)
            && (forall i | 0 <= i < |ws| :: KeyOf(ws[i]) !in db.receipts && KeyOf(ws[i]) in receipts
                                            && receipts[KeyOf(ws[i])] == ReceiptOf(ws[i], digest))
            && (forall k | k in db.receipts :: k in receipts && receipts[k] == db.receipts[k])
    decreases rs
  {
    if rs != [] {
      var db1 := Handle(db, rs[0], domain, digest);
      var later, ws := Winners(db1, rs[1..], domain, digest), Winners(db, rs, domain, digest);
      assert Run(db, rs, domain, digest) == Run(db1, rs[1..], domain, digest);
      assert ws == if Answered(db, rs[0], domain, digest).Applied? then [rs[0]] + later else later;
      HandledReceipts(db, rs[0], domain, digest);
      WinnersHaveReceipts(db1, rs[1..], domain, digest);
      hide Handle, Answered, Run, Winners, ReceiptOf, KeyOf;
      if Answered(db, rs[0], domain, digest).Applied? {
        assert ws[0] == rs[0] && KeyOf(ws[0]) in db1.receipts && forall i | 0 < i < |ws| :: ws[i] == later[i - 1];
      }
    }
  }

  lemma {:induction false} ReceiptsHaveWinners<S>(db: Database<S>, rs: seq<Request>, domain: Domain<S>, digest: Digest,
        k: ReceiptKey)
    requires k in Run(db, rs, domain, digest).receipts && k !in db.receipts
    ensures exists i | 0 <= i < |Winners(db, rs, domain, digest)| :: KeyOf(Winners(db, rs, domain, digest)[i]) == k
    decreases rs
  {
    var db1 := Handle(db, rs[0], domain, digest);
    var later, ws := Winners(db1, rs[1..], domain, digest), Winners(db, rs, domain, digest);
    assert ws == if Answered(db, rs[0], domain, digest).Applied? then [rs[0]] + later else later;
    HandledReceipts(db, rs[0], domain, digest);
    hide Handle, Answered, ReceiptOf, KeyOf;
    if k == KeyOf(rs[0]) && k in db1.receipts {
      assert ws[0] == rs[0];
    } else {
      ReceiptsHaveWinners(db1, rs[1..], domain, digest, k);
      var i :| 0 <= i < |later| && KeyOf(later[i]) == k;
      assert ws[|ws| - |later| + i] == later[i];
    }
  }

  /** Receipts exist for exactly the winners' keys, one each, and name the winner's facts. */
  lemma ReceiptsNameWinners<S>(db: Database<S>, rs: seq<Request>, domain: Domain<S>, digest: Digest)
    ensures var ws := Winners(db, rs, domain, digest);
            var receipts := Run(db, rs, domain, digest).receipts;
            && (forall i, j | 0 <= i < j < |ws| :: !SharesKey(ws[i], ws[j]))
            && (forall i | 0 <= i < |ws| ::
                  var k, w := ReceiptKey(ws[i].organization, ws[i].key), ws[i];
                  && k !in db.receipts && k in receipts
                  && receipts[k] == Receipt(w.operation, w.subjectType, w.subjectId, digest(w.payload)))
            && (forall k | k in receipts :: k in db.receipts
                  || exists i | 0 <= i < |ws| :: ws[i].organization == k.organization && ws[i].key == k.key)
            && (forall k | k in db.receipts :: k in receipts && receipts[k] == db.receipts[k])
  {
    hide Run, Winners;
    WinnersHaveReceipts(db, rs, domain, digest);
    var ws := Winners(db, rs, domain, digest);
    forall k | k in Run(db, rs, domain, digest).receipts && k !in db.receipts
      ensures exists i | 0 <= i < |ws| :: KeyOf(ws[i]) == k
    {
      ReceiptsHaveWinners(db, rs, domain, digest, k);
    }
  }

  lemma {:induction false} RunOfConcat<S>(db: Database<S>, xs: seq<Request>, ys: seq<Request>, domain: Domain<S>,
        digest: Digest)
    ensures Run(db, xs + ys, domain, digest) == Run(Run(db, xs, domain, digest), ys, domain, digest)
    decreases xs
  {
    if xs == [] {
      assert xs + ys == ys;
    } else {
      assert (xs + ys)[1..] == xs[1..] + ys;
      RunOfConcat(Handle(db, xs[0], domain, digest), xs[1..], ys, domain, digest);
    }
  }

  /** A request that was refused, replayed or in conflict might as well not have been sent. */
  lemma UnappliedRequestsAreInvisible<S>(db: Database<S>, xs: seq<Request>, r: Request, ys: seq<Request>,
        domain: Domain<S>, digest: Digest)
    requires !Answered(Run(db, xs, domain, digest), r, domain, digest).Applied?
    ensures Run(db, xs + [r] + ys, domain, digest) == Run(db, xs + ys, domain, digest)
  {
    RunOfConcat(db, xs + [r], ys, domain, digest);
    RunOfConcat(db, xs, [r], domain, digest);
    RunOfConcat(db, xs, ys, domain, digest);
    assert Run(Run(db, xs, domain, digest), [r], domain, digest) == Run(db, xs, domain, digest);
  }

  /** Sending only the winners gives the same database, receipts included. */
  lemma {:induction false} WinnersAloneSuffice<S>(db: Database<S>, rs: seq<Request>, domain: Domain<S>, digest: Digest)
    ensures Run(db, Winners(db, rs, domain, digest), domain, digest) == Run(db, rs, domain, digest)
    ensures Winners(db, Winners(db, rs, domain, digest), domain, digest) == Winners(db, rs, domain, digest)
    decreases rs
  {
    if rs != [] {
      var db1 := Handle(db, rs[0], domain, digest);
      var later := Winners(db1, rs[1..], domain, digest);
      WinnersAloneSuffice(db1, rs[1..], domain, digest);
      assert ([rs[0]] + later)[1..] == later;
    }
  }

  /** Whatever happened since, repeating a winner replays it and changes nothing. */
  lemma WinnerReplaysForever<S>(db: Database<S>, rs: seq<Request>, i: nat, domain: Domain<S>, digest: Digest)
    requires i < |Winners(db, rs, domain, digest)|
    ensures var w := Winners(db, rs, domain, digest)[i];
            var db' := Run(db, rs, domain, digest);
            Answered(db', w, domain, digest) == Replayed && Handle(db', w, domain, digest) == db'
  {
    ReceiptsNameWinners(db, rs, domain, digest);
  }

  /** A winner's key cannot authorise a different command, whatever the domain would say. */
  lemma KeyIsBoundToItsCommand<S>(db: Database<S>, rs: seq<Request>, i: nat, other: Request, domain: Domain<S>,
        digest: Digest)
    requires i < |Winners(db, rs, domain, digest)|
    requires var w := Winners(db, rs, domain, digest)[i];
             SharesKey(w, other) && !SharesFacts(w, other, digest)
    ensures var db' := Run(db, rs, domain, digest);
            Answered(db', other, domain, digest) == Conflict && Handle(db', other, domain, digest) == db'
  {
    ReceiptsNameWinners(db, rs, domain, digest);
  }

  /**
   The first success decides: a new key's request takes effect at its place if and only if
   no earlier request with that key did and the effect succeeds on the state of the moment.
   */
  lemma AppliedExactlyWhen<S>(db: Database<S>, xs: seq<Request>, r: Request, domain: Domain<S>, digest: Digest)
    requires KeyOf(r) !in db.receipts
    ensures var ws := Winners(db, xs, domain, digest);
            Answered(Run(db, xs, domain, digest), r, domain, digest).Applied? <==>
              && (forall i | 0 <= i < |ws| :: KeyOf(ws[i]) != KeyOf(r))
              && ApplyAll(db.state, ws, domain).Some?
              && domain(ApplyAll(db.state, ws, domain).value, r).ok
  {
    ReceiptsNameWinners(db, xs, domain, digest);
    StateIsWinnersApplied(db, xs, domain, digest);
  }

  // ------------------------------------------------------- answers, on the requests

  /** The same Organization and command key. */
  predicate SharesKey(w: Request, r: Request) {
    w.organization == r.organization && w.key == r.key
  }

  /** The same operation on the same subject, with a payload of the same digest. */
  predicate SharesFacts(w: Request, r: Request, digest: Digest) {
    && w.operation == r.operation && w.subjectType == r.subjectType && w.subjectId == r.subjectId
    && digest(w.payload) == digest(r.payload)
  }

  /**
   What a receipt binds, after any run: a request is taken for a replay if and only if some
   winner of its Organization and key asked for the same operation on the same subject with the
   same payload; it conflicts if and only if some winner of its Organization and key asked for
   another.
   */
  lemma AnswersCompareFacts<S>(initial: S, rs: seq<Request>, r: Request, domain: Domain<S>, digest: Digest)
    ensures var db := Database(map[], initial);
            var ws, answer := Winners(db, rs, domain, digest), Answered(Run(db, rs, domain, digest), r, domain, digest);
            && (answer == Replayed <==>
                  exists i | 0 <= i < |ws| :: SharesKey(ws[i], r) && SharesFacts(ws[i], r, digest))
            && (answer == Conflict <==>
                  exists i | 0 <= i < |ws| :: SharesKey(ws[i], r) && !SharesFacts(ws[i], r, digest))
            && (answer in {Applied, Refused} <==> forall i | 0 <= i < |ws| :: !SharesKey(ws[i], r))
  {
    var db := Database(map[], initial);
    WinnersHaveReceipts(db, rs, domain, digest);
    hide Run, Winners, DistinctKeys;
    var ws, db' := Winners(db, rs, domain, digest), Run(db, rs, domain, digest);
    forall i | 0 <= i < |ws| && SharesKey(ws[i], r)
      ensures KeyOf(r) in db'.receipts
      ensures db'.receipts[KeyOf(r)] == ReceiptOf(r, digest) <==> SharesFacts(ws[i], r, digest)
    {
      assert KeyOf(ws[i]) == KeyOf(r);
    }
    if KeyOf(r) in db'.receipts {
      ReceiptsHaveWinners(db, rs, domain, digest, KeyOf(r));
      var i :| 0 <= i < |ws| && KeyOf(ws[i]) == KeyOf(r);
      assert SharesKey(ws[i], r);
    }
    hide KeyOf, ReceiptOf, SharesFacts, SharesKey;
  }

  // ------------------------------------------------------------------ Organizations

  /** An effect reads and changes its own Organization's part of the state only. */
  ghost predicate KeepsApart<S(!new), V>(domain: Domain<S>, part: (S, nat) -> V) {
    && (forall s: S, r: Request, o: nat :: o != r.organization ==> part(domain(s, r).state, o) == part(s, o))
    && (forall s: S, t: S, r: Request :: part(s, r.organization) == part(t, r.organization) ==>
          && domain(s, r).ok == domain(t, r).ok
          && part(domain(s, r).state, r.organization) == part(domain(t, r).state, r.organization))
  }

  /** Two databases look the same to one Organization. */
  ghost predicate Alike<S, V>(a: Database<S>, b: Database<S>, part: (S, nat) -> V, o: nat) {
    && part(a.state, o) == part(b.state, o)
    && forall k: ReceiptKey | k.organization == o ::
         (k in a.receipts <==> k in b.receipts) && (k in a.receipts ==> a.receipts[k] == b.receipts[k])
  }

  function RequestsOf(rs: seq<Request>, o: nat): seq<Request> {
    if rs == [] then []
    else (if rs[0].organization == o then [rs[0]] else []) + RequestsOf(rs[1..], o)
  }

  lemma OthersGoUnseen<S(!new), V>(db: Database<S>, r: Request, domain: Domain<S>, digest: Digest,
        part: (S, nat) -> V, o: nat)
    requires KeepsApart(domain, part) && r.organization != o
    ensures Alike(Handle(db, r, domain, digest), db, part, o)
  {
  }

  lemma AlikeAnswersAlike<S(!new), V>(a: Database<S>, b: Database<S>, r: Request, domain: Domain<S>, digest: Digest,
        part: (S, nat) -> V)
    requires KeepsApart(domain, part) && Alike(a, b, part, r.organization)
    ensures Answered(a, r, domain, digest) == Answered(b, r, domain, digest)
    ensures Alike(Handle(a, r, domain, digest), Handle(b, r, domain, digest), part, r.organization)
  {
    assert KeyOf(r).organization == r.organization;
  }

  lemma {:induction false} RunsLookAlike<S(!new), V>(a: Database<S>, b: Database<S>, rs: seq<Request>,
        domain: Domain<S>, digest: Digest, part: (S, nat) -> V, o: nat)
    requires KeepsApart(domain, part) && Alike(a, b, part, o)
    ensures Alike(Run(a, rs, domain, digest), Run(b, RequestsOf(rs, o), domain, digest), part, o)
    decreases rs
  {
    if rs != [] {
      var mine := RequestsOf(rs[1..], o);
      if rs[0].organization == o {
        AlikeAnswersAlike(a, b, rs[0], domain, digest, part);
        RunsLookAlike(Handle(a, rs[0], domain, digest), Handle(b, rs[0], domain, digest), rs[1..], domain, digest,
            part, o);
        assert ([rs[0]] + mine)[1..] == mine;
      } else {
        OthersGoUnseen(a, rs[0], domain, digest, part, o);
        RunsLookAlike(Handle(a, rs[0], domain, digest), b, rs[1..], domain, digest, part, o);
        assert [] + mine == mine;
      }
    }
  }

  /**
   Where effects keep Organizations apart, so does the protocol: whatever the others send, and
   whatever keys they choose, an Organization's requests are answered, and leave its part of the
   state, as if it were alone.
   */
  lemma OrganizationsDoNotInterfere<S(!new), V>(db: Database<S>, rs: seq<Request>, r: Request, domain: Domain<S>,
        digest: Digest, part: (S, nat) -> V)
    requires KeepsApart(domain, part)
    ensures var all := Run(db, rs, domain, digest);
            var alone := Run(db, RequestsOf(rs, r.organization), domain, digest);
            && Answered(all, r, domain, digest) == Answered(alone, r, domain, digest)
            && part(all.state, r.organization) == part(alone.state, r.organization)
  {
    RunsLookAlike(db, db, rs, domain, digest, part, r.organization);
    AlikeAnswersAlike(Run(db, rs, domain, digest), Run(db, RequestsOf(rs, r.organization), domain, digest), r, domain,
        digest, part);
  }

  // --------------------------------------------------------------- command keys

  /** `command_key`: a submission without a nonce is refused. */
  function CommandKey(form: map<string, string>, prefix: string): Option<string> {
    var nonce := Strip(if "clave" in form then form["clave"] else "");
    if nonce == "" then None else Some(prefix + ":" + nonce)
  }

  function CommandPayload(form: map<string, string>): map<string, string> {
    form - {"clave"}
  }

  /** A submission is refused exactly when its nonce is missing or blank. */
  lemma KeylessExactlyWhen(form: map<string, string>, prefix: string)
    ensures CommandKey(form, prefix).None? <==> "clave" in form ==> forall c | c in form["clave"] :: IsSpace(c)
  {
    assert Strip("") == "";
    if "clave" in form {
      StripRemovesSpaceOnly(form["clave"]);
    }
  }

  /**
   Two accepted submissions share a key if and only if their handlers have the same prefix and
   their nonces differ at most in the white space around them.
   */
  lemma CommandKeysAgreeExactlyWhen(f1: map<string, string>, p1: string, f2: map<string, string>, p2: string)
    requires ':' !in p1 && ':' !in p2
    requires CommandKey(f1, p1).Some? && CommandKey(f2, p2).Some?
    ensures "clave" in f1 && "clave" in f2
    ensures CommandKey(f1, p1) == CommandKey(f2, p2) <==> p1 == p2 && Strip(f1["clave"]) == Strip(f2["clave"])
  {
    var k, l := CommandKey(f1, p1).value, CommandKey(f2, p2).value;
    assert Strip("") == "";
    IndexOfFirst(p1, ':', Strip(f1["clave"]));
    IndexOfFirst(p2, ':', Strip(f2["clave"]));
    assert k[..|p1|] == p1 && l[..|p2|] == p2;
    assert k[|p1| + 1..] == Strip(f1["clave"]) && l[|p2| + 1..] == Strip(f2["clave"]);
  }

  /** The payload binds every submitted field but the nonce, and nothing else. */
  lemma PayloadIgnoresOnlyNonce(f: map<string, string>, g: map<string, string>)
    ensures CommandPayload(f) == CommandPayload(g) <==>
            (forall n | n != "clave" :: (n in f <==> n in g) && (n in f ==> f[n] == g[n]))
  {
    if CommandPayload(f) == CommandPayload(g) {
      forall n | n != "clave" ensures (n in f <==> n in g) && (n in f ==> f[n] == g[n]) {
        assert n in f <==> n in CommandPayload(f);
        assert n in g <==> n in CommandPayload(g);
        if n in f {
          assert f[n] == CommandPayload(f)[n];
        }
      }
    }
  }

  // --------------------------------------------------------------- live sessions

  /** The committed tables and the session's own view of them. */
  class CommandStore<S> {
    var receipts: map<ReceiptKey, Receipt>
    var state: S
    var sessionReceipts: map<ReceiptKey, Receipt>
    var sessionState: S

    function Contents(): Database<S>
      reads this
    {
      Database(receipts, state)
    }

    function Session(): Database<S>
      reads this
    {
      Database(sessionReceipts, sessionState)
    }

    constructor (initial: S)
      ensures Contents() == Session() == Database(map[], initial)
    {
      receipts, state := map[], initial;
      sessionReceipts, sessionState := map[], initial;
    }

    /** `CommercialCommands.claim`: `None` is the raised conflict, `Some(true)` a replay. */
    method Claim(r: Request, digest: Digest) returns (replayed: Option<bool>)
      modifies this`sessionReceipts
      ensures replayed == if KeyOf(r) !in old(sessionReceipts) then Some(false)
                          else if old(sessionReceipts)[KeyOf(r)] == ReceiptOf(r, digest) then Some(true)
                          else None
      ensures sessionReceipts ==
              if replayed != Some(false) then old(sessionReceipts)
              else old(sessionReceipts)[ReceiptKey(r.organization, r.key) :=
                     Receipt(r.operation, r.subjectType, r.subjectId, digest(r.payload))]
    {
      var payloadHash := digest(r.payload);
      if KeyOf(r) in sessionReceipts {
        var receipt := sessionReceipts[KeyOf(r)];
        if receipt.operation != r.operation || receipt.subjectType != r.subjectType
           || receipt.subjectId != r.subjectId || receipt.payloadHash != payloadHash {
          return None;
        }
        return Some(true);
      }
      sessionReceipts := sessionReceipts[KeyOf(r) := Receipt(r.operation, r.subjectType, r.subjectId, payloadHash)];
      return Some(false);
    }

    method Commit()
      modifies this`receipts, this`state
      ensures Contents() == Session()
    {
      receipts, state := sessionReceipts, sessionState;
    }

    /** Leaving the session without a commit, by return or by exception. */
    method Rollback()
      modifies this`sessionReceipts, this`sessionState
      ensures Session() == Contents()
    {
      sessionReceipts, sessionState := receipts, state;
    }

    /** One POST handler, from opening the session to answering. */
    method Post(r: Request, domain: Domain<S>, digest: Digest) returns (answer: Answer)
      modifies this
      ensures answer == Answered(old(Contents()), r, domain, digest)
      ensures Contents() == Handle(old(Contents()), r, domain, digest)
    {
      Rollback();
      var replayed := Claim(r, digest);
      match replayed {
        case None =>
          Rollback();
          answer := Conflict;
        case Some(true) =>
          Commit();
          answer := Replayed;
        case Some(false) =>
          var effect := domain(sessionState, r);
          sessionState := effect.state;
          if effect.ok {
            Commit();
            answer := Applied;
          } else {
            Rollback();
            answer := Refused;
          }
      }
    }
  }
}
