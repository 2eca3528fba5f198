/**
 HTTP Basic credentials (section 2 of RFC 7617) for support engineers. The support login
 contains colons, so the first colon of the user-pass text is not where it ends; the handler
 rebuilds the login from both halves before it looks for the engineer's own account.

 It starts from the decoded user-pass text. `str.lower()` is a parameter: Unicode's case tables
 are not modelled, only what `Lowers` says of them.
 */
module SupportLogin {
  import opened Prelude
  import opened Texts

  datatype Credentials = Credentials(username: string, password: string)

  const BARE_PREFIX := "soporte"
  const PREFIX := BARE_PREFIX + ":"

  /** RFC 7617: everything before the first colon is the user id, the rest the password. */
  function Decode(text: string): Option<Credentials> {
    var i := IndexOf(text, ':');
    if i == |text| then None else Some(Credentials(text[..i], text[i + 1..]))
  }

  function Encode(c: Credentials): string {
    c.username + ":" + c.password
  }

  /** The qualified login, when the user id is the bare prefix and the rest still holds a colon. */
  function Qualified(c: Credentials): Credentials {
    if c.username == BARE_PREFIX && ':' in c.password then
      var i := LastIndexOf(c.password, ':');
      Credentials(PREFIX + c.password[..i], c.password[i + 1..])
    else c
  }

  /** The account whose password applies: a support login ends with the engineer's own name. */
  function AccountName(login: string): string {
    if PREFIX <= login then LastComponent(login) else login
  }

  function LastComponent(s: string): string {
    if ':' in s then s[LastIndexOf(s, ':') + 1..] else s
  }

  function Supplied(text: string): Option<Credentials> {
    var c := Decode(text);
    if c.None? then None else Some(Qualified(c.value))
  }

  /** The login a request authenticates as, or `None` for a 401. */
  function Authenticated(accounts: map<string, string>, text: string): Option<string> {
    var c := Supplied(text);
    if c.None? then None
    else
      var account := AccountName(c.value.username);
      if account in accounts && accounts[account] == c.value.password then Some(c.value.username) else None
  }

  // -------------------------------------------------------------------- round trips

  lemma PrefixFacts()
    ensures ':' !in BARE_PREFIX && PREFIX == BARE_PREFIX + [':'] && ':' in PREFIX
  {
    assert PREFIX[|BARE_PREFIX|] == ':';
  }

  lemma DecodeAtFirstColon(left: string, right: string)
    requires ':' !in left
    ensures Decode(left + [':'] + right) == Some(Credentials(left, right))
  {
    IndexOfFirst(left, ':', right);
    var text := left + [':'] + right;
    assert text[..|left|] == left && text[|left| + 1..] == right;
  }

  lemma SplitAtLastColon(left: string, right: string)
    requires ':' !in right
    ensures ':' in left + [':'] + right
    ensures var s := left + [':'] + right; var i := LastIndexOf(s, ':'); s[..i] == left && s[i + 1..] == right
  {
    var s := left + [':'] + right;
    assert s[|left|] == ':';
    LastIndexOfLast(left, ':', right);
  }

  /** Any support login and any password without a colon come back exactly. */
  lemma SupportLoginsRoundTrip(tail: string, password: string)
    requires ':' !in password
    ensures Supplied(Encode(Credentials(PREFIX + tail, password))) == Some(Credentials(PREFIX + tail, password))
  {
    PrefixFacts();
    var rest := tail + [':'] + password;
    assert Encode(Credentials(PREFIX + tail, password)) == BARE_PREFIX + [':'] + rest;
    DecodeAtFirstColon(BARE_PREFIX, rest);
    SplitAtLastColon(tail, password);
    hide BARE_PREFIX, PREFIX;
  }

  /** A login without a colon comes back with any password, except the bare prefix with a colon in it. */
  lemma PlainLoginsRoundTrip(login: string, password: string)
    requires ':' !in login && (login != BARE_PREFIX || ':' !in password)
    ensures Supplied(Encode(Credentials(login, password))) == Some(Credentials(login, password))
  {
    hide BARE_PREFIX;
    assert Encode(Credentials(login, password)) == login + [':'] + password;
    DecodeAtFirstColon(login, password);
  }

  /** The inputs for which what the client meant is what the handler sees. */
  predicate Recoverable(c: Credentials) {
    || (PREFIX <= c.username && ':' !in c.password)
    || (':' !in c.username && (c.username != BARE_PREFIX || ':' !in c.password))
  }

  lemma SuppliedNames(text: string)
    requires Supplied(text).Some?
    ensures var c := Supplied(text).value;
            (':' !in c.username && (c.username != BARE_PREFIX || ':' !in c.password))
                || (PREFIX <= c.username && ':' !in c.password)
  {
    PrefixFacts();
    var raw := Decode(text).value;
    hide BARE_PREFIX;
    if raw.username == BARE_PREFIX && ':' in raw.password {
      var i := LastIndexOf(raw.password, ':');
      assert PREFIX <= PREFIX + raw.password[..i];
    }
  }

  /** Decoding undoes encoding exactly for the recoverable logins. */
  lemma RecoveredExactlyWhen(c: Credentials)
    ensures Supplied(Encode(c)) == Some(c) <==> Recoverable(c)
  {
    hide Decode, Qualified;
    if Recoverable(c) {
      if PREFIX <= c.username && ':' !in c.password {
        assert PREFIX + c.username[|PREFIX|..] == c.username;
        SupportLoginsRoundTrip(c.username[|PREFIX|..], c.password);
      } else {
        PlainLoginsRoundTrip(c.username, c.password);
      }
    } else if Supplied(Encode(c)) == Some(c) {
      SuppliedNames(Encode(c));
      assert false;
    }
  }

  // ------------------------------------------------------------------ granting access

  type Lowering = string -> string

  /** Every character is its own lower case. */
  predicate IsLower(lower: Lowering, s: string) {
    forall i | 0 <= i < |s| :: lower([s[i]]) == [s[i]]
  }

  /**
   What the results need of `str.lower()`: lowering again changes nothing; a text is left alone
   exactly when each of its characters is; colons are neither made nor lost; the ends of a
   trimmed text do not become whitespace; no text vanishes; and the prefix is lower-case.
   */
  ghost predicate Lowers(lower: Lowering) {
    && (forall s: string {:trigger lower(lower(s))} :: lower(lower(s)) == lower(s))
    && (forall s: string {:trigger IsLower(lower, s)} :: lower(s) == s <==> IsLower(lower, s))
    && (forall s: string {:trigger lower(s)} :: ':' in lower(s) <==> ':' in s)
    && (forall s: string {:trigger lower(s)} :: Trimmed(s) ==> Trimmed(lower(s)))
    && (forall s: string {:trigger lower(s)} :: lower(s) == "" ==> s == "")
    && IsLower(lower, PREFIX)
  }

  lemma LowerFacts(lower: Lowering, s: string)
    requires Lowers(lower)
    ensures lower(lower(s)) == lower(s) && (':' in lower(s) <==> ':' in s) && (Trimmed(s) ==> Trimmed(lower(s)))
    ensures (lower(s) == s <==> IsLower(lower, s)) && (lower(s) == "" <==> s == "")
  {
    assert IsLower(lower, "");
    hide IsLower, Trimmed;
  }

  function AsciiLowerChar(c: char): char {
    if 'A' <= c <= 'Z' then c - 'A' + 'a' else c
  }

  function AsciiLower(s: string): string {
    seq(|s|, i requires 0 <= i < |s| => AsciiLowerChar(s[i]))
  }

  /** The demands are met, for one by lowering ASCII letters only. */
  lemma AsciiLowers()
    ensures Lowers(AsciiLower)
  {
    forall s: string
      ensures AsciiLower(AsciiLower(s)) == AsciiLower(s) && (Trimmed(s) ==> Trimmed(AsciiLower(s)))
      ensures AsciiLower(s) == s <==> IsLower(AsciiLower, s)
      ensures ':' in AsciiLower(s) <==> ':' in s
    {
      AsciiLowersOne(s);
    }
    AsciiLowersPrefix();
    hide Trimmed, IsLower, AsciiLower;
  }

  lemma AsciiLowersOne(s: string)
    ensures AsciiLower(AsciiLower(s)) == AsciiLower(s) && (Trimmed(s) ==> Trimmed(AsciiLower(s)))
    ensures AsciiLower(s) == s <==> IsLower(AsciiLower, s)
    ensures ':' in AsciiLower(s) <==> ':' in s
  {
    var t := AsciiLower(s);
    if i :| 0 <= i < |s| && s[i] == ':' { assert t[i] == ':'; }
    if i :| 0 <= i < |s| && t[i] == ':' { assert s[i] == ':'; }
    forall i | 0 <= i < |s| ensures AsciiLower([s[i]]) == [s[i]] <==> t[i] == s[i] {
      assert AsciiLower([s[i]])[0] == t[i];
    }
  }

  lemma AsciiLowersPrefix()
    ensures IsLower(AsciiLower, PREFIX)
  {
    forall i | 0 <= i < |PREFIX| ensures AsciiLower([PREFIX[i]]) == [PREFIX[i]] {
      assert AsciiLower([PREFIX[i]])[0] == PREFIX[i];
    }
  }

  /** Text that `strip().lower()` leaves alone. */
  predicate Normal(lower: Lowering, s: string) {
    Strip(s) == s && lower(s) == s
  }

  function Normalized(lower: Lowering, s: string): string {
    lower(Strip(s))
  }

  lemma NormalizedIsNormal(lower: Lowering, s: string)
    requires Lowers(lower)
    ensures Normal(lower, Normalized(lower, s)) && (Normal(lower, s) ==> Normalized(lower, s) == s)
    ensures Trimmed(Normalized(lower, s)) && (':' in Normalized(lower, s) <==> ':' in s)
  {
    StripTrims(s);
    LowerFacts(lower, Strip(s));
    StripTrims(lower(Strip(s)));
    hide Lowers, Strip, Trimmed;
  }

  function QualifiedPrefix(slug: string): string {
    PREFIX + slug + ":"
  }

  /** `support_login_for`; `Err` where the source refuses a missing part. */
  function SupportLoginFor(lower: Lowering, engineer: string, slug: string): Result<string, string> {
    var bare, organization := Normalized(lower, engineer), Normalized(lower, slug);
    if bare == "" then Err("engineer")
    else if organization == "" then Err("organization")
    else if QualifiedPrefix(organization) <= bare then Ok(bare)
    else Ok(QualifiedPrefix(organization) + bare)
  }

  lemma ConcatIsLower(lower: Lowering, a: string, b: string)
    requires IsLower(lower, a) && IsLower(lower, b)
    ensures IsLower(lower, a + b)
  {
  }

  lemma PrefixEnds()
    ensures PREFIX != "" && !IsSpace(PREFIX[0]) && PREFIX[|PREFIX| - 1] == ':'
  {
  }

  lemma ColonIsLower(lower: Lowering)
    requires Lowers(lower)
    ensures IsLower(lower, ":")
  {
    PrefixEnds();
    assert ":" == [PREFIX[|PREFIX| - 1]];
    hide PREFIX, BARE_PREFIX;
  }

  lemma QualifiedIsNormal(lower: Lowering, slug: string, bare: string)
    requires Lowers(lower) && Normal(lower, slug) && Normal(lower, bare) && Trimmed(bare) && bare != ""
    ensures Normal(lower, QualifiedPrefix(slug) + bare)
  {
    var q := QualifiedPrefix(slug) + bare;
    ColonIsLower(lower);
    LowerFacts(lower, slug);
    LowerFacts(lower, bare);
    LowerFacts(lower, q);
    PrefixEnds();
    assert IsLower(lower, PREFIX);
    hide IsLower, Lowers, PREFIX, BARE_PREFIX, Strip, IsSpace;
    ConcatIsLower(lower, PREFIX, slug);
    ConcatIsLower(lower, PREFIX + slug, ":");
    ConcatIsLower(lower, QualifiedPrefix(slug), bare);
    assert q[0] == PREFIX[0] && q[|q| - 1] == bare[|bare| - 1];
    StripTrims(q);
  }

  /** Granting again from the login a grant produced gives that login, not a doubled prefix. */
  lemma SupportLoginIsIdempotent(lower: Lowering, engineer: string, slug: string)
    requires Lowers(lower) && SupportLoginFor(lower, engineer, slug).Ok?
    ensures SupportLoginFor(lower, SupportLoginFor(lower, engineer, slug).value, slug)
        == SupportLoginFor(lower, engineer, slug)
  {
    var bare, organization := Normalized(lower, engineer), Normalized(lower, slug);
    var login := SupportLoginFor(lower, engineer, slug).value;
    NormalizedIsNormal(lower, engineer);
    NormalizedIsNormal(lower, slug);
    if !(QualifiedPrefix(organization) <= bare) {
      QualifiedIsNormal(lower, organization, bare);
      assert QualifiedPrefix(organization) <= login;
    }
    assert login != "";
    hide Lowers, Strip;
    assert Normal(lower, login) && Normalized(lower, login) == login;
  }

  /** The account a support login names, in every case: the last component of the lower-cased name. */
  lemma SupportLoginNames(lower: Lowering, engineer: string, slug: string)
    requires SupportLoginFor(lower, engineer, slug).Ok?
    ensures PREFIX <= SupportLoginFor(lower, engineer, slug).value
    ensures AccountName(SupportLoginFor(lower, engineer, slug).value) == LastComponent(Normalized(lower, engineer))
  {
    var bare, organization := Normalized(lower, engineer), Normalized(lower, slug);
    var login := SupportLoginFor(lower, engineer, slug).value;
    hide Normalized;
    PrefixFacts();
    PrefixLeads(login, organization);
    if login != bare {
      assert login == PREFIX + organization + [':'] + bare;
      LastComponentOfTail(PREFIX + organization, bare);
    }
  }

  lemma LastComponentOfTail(left: string, bare: string)
    ensures LastComponent(left + [':'] + bare) == LastComponent(bare)
  {
    if ':' in bare {
      var i := LastIndexOf(bare, ':');
      var head, tail := bare[..i], bare[i + 1..];
      assert bare == head + [':'] + tail;
      Reassociate(left, head, tail);
      SplitAtLastColon(left + [':'] + head, tail);
    } else {
      SplitAtLastColon(left, bare);
    }
  }

  /** A grant is refused exactly when the engineer's name is blank, or else the Organization's. */
  lemma GrantRefusedExactlyWhen(lower: Lowering, engineer: string, slug: string)
    requires Lowers(lower)
    ensures var grant := SupportLoginFor(lower, engineer, slug);
            if forall c | c in engineer :: IsSpace(c) then grant == Err("engineer")
            else if forall c | c in slug :: IsSpace(c) then grant == Err("organization")
            else grant.Ok?
  {
    StripRemovesSpaceOnly(engineer);
    StripRemovesSpaceOnly(slug);
    LowerFacts(lower, Strip(engineer));
    LowerFacts(lower, Strip(slug));
    hide Lowers, Strip, IsSpace;
  }

  lemma SupportLoginText(organization: string, name: string)
    ensures "soporte:" + name == BARE_PREFIX + [':'] + name
    ensures "soporte:" + organization + ":" + name == (BARE_PREFIX + [':'] + organization) + [':'] + name
    ensures PREFIX <= "soporte:" + name && PREFIX <= "soporte:" + organization + ":" + name
  {
  }

  /** What a login names, on its text: a support login the part after its last colon, any other login itself. */
  lemma LoginNames(login: string, organization: string, name: string)
    requires ':' !in name
    ensures AccountName("soporte:" + organization + ":" + name) == name && AccountName("soporte:" + name) == name
    ensures !("soporte:" <= login) ==> AccountName(login) == login
  {
    assert PREFIX == "soporte:";
    SupportLoginText(organization, name);
    hide PREFIX, BARE_PREFIX;
    SplitAtLastColon(BARE_PREFIX + [':'] + organization, name);
    SplitAtLastColon(BARE_PREFIX, name);
  }

  /** The text of the login granted to a colon-free name. */
  lemma GrantedLoginIs(lower: Lowering, engineer: string, slug: string)
    requires Lowers(lower) && SupportLoginFor(lower, engineer, slug).Ok? && ':' !in engineer
    ensures SupportLoginFor(lower, engineer, slug).value
         == "soporte:" + Normalized(lower, slug) + ":" + Normalized(lower, engineer)
    ensures ':' !in Normalized(lower, engineer)
  {
    NormalizedIsNormal(lower, engineer);
    var organization := Normalized(lower, slug);
    assert QualifiedPrefix(organization)[|BARE_PREFIX|] == ':' && PREFIX == "soporte:";
    hide Lowers, Normalized;
  }

  /** Two grants to colon-free names give one login if and only if both parts are the same once normalized. */
  lemma GrantedLoginsAgreeExactlyWhen(lower: Lowering, e1: string, s1: string, e2: string, s2: string)
    requires Lowers(lower) && ':' !in e1 && ':' !in e2
    requires SupportLoginFor(lower, e1, s1).Ok? && SupportLoginFor(lower, e2, s2).Ok?
    ensures SupportLoginFor(lower, e1, s1) == SupportLoginFor(lower, e2, s2) <==>
            Normalized(lower, e1) == Normalized(lower, e2) && Normalized(lower, s1) == Normalized(lower, s2)
  {
    GrantedLoginIs(lower, e1, s1);
    GrantedLoginIs(lower, e2, s2);
    hide Lowers, Normalized, SupportLoginFor;
    var left1, left2 := "soporte:" + Normalized(lower, s1), "soporte:" + Normalized(lower, s2);
    SplitAtLastColon(left1, Normalized(lower, e1));
    SplitAtLastColon(left2, Normalized(lower, e2));
    if left1 == left2 {
      assert left1[8..] == Normalized(lower, s1) && left2[8..] == Normalized(lower, s2);
    }
  }

  /**
   A granted login leads back to the engineer's configured account exactly when that name is
   already stripped and lower-case and has no colon. The accounts are looked up as configured;
   only the grant normalizes.
   */
  lemma LoginNamesItsEngineerExactlyWhen(lower: Lowering, engineer: string, slug: string)
    requires Lowers(lower) && SupportLoginFor(lower, engineer, slug).Ok?
    ensures AccountName(SupportLoginFor(lower, engineer, slug).value) == engineer
       <==> Normal(lower, engineer) && ':' !in engineer
  {
    SupportLoginNames(lower, engineer, slug);
    NormalizedIsNormal(lower, engineer);
    hide SupportLoginFor, AccountName, Normalized, Normal, Lowers;
    assert ':' !in LastComponent(Normalized(lower, engineer));
  }

  lemma PrefixLeads(login: string, organization: string)
    requires QualifiedPrefix(organization) <= login
    ensures PREFIX <= login
  {
    assert PREFIX <= QualifiedPrefix(organization);
  }

  /** A request with recoverable credentials enters exactly with the password of the account its login names. */
  lemma AuthenticatesExactlyWhen(accounts: map<string, string>, c: Credentials)
    requires Recoverable(c)
    ensures Authenticated(accounts, Encode(c)) == Some(c.username) <==>
            AccountName(c.username) in accounts && accounts[AccountName(c.username)] == c.password
    ensures Authenticated(accounts, Encode(c)) in {None, Some(c.username)}
  {
    hide Supplied, Recoverable, AccountName;
    RecoveredExactlyWhen(c);
  }

  /**
   Entering with a granted login and the password configured for the engineer, for every
   configured account: exactly when that password has no colon and is also the password of the
   account the login names.
   */
  lemma GrantedLoginAuthenticatesExactlyWhen(
      lower: Lowering, accounts: map<string, string>, engineer: string, slug: string)
    requires engineer in accounts && SupportLoginFor(lower, engineer, slug).Ok?
    ensures var login, name := SupportLoginFor(lower, engineer, slug).value, LastComponent(Normalized(lower, engineer));
            Authenticated(accounts, Encode(Credentials(login, accounts[engineer]))) == Some(login) <==>
              ':' !in accounts[engineer] && name in accounts && accounts[name] == accounts[engineer]
  {
    SupportLoginNames(lower, engineer, slug);
    var c := Credentials(SupportLoginFor(lower, engineer, slug).value, accounts[engineer]);
    assert ':' in c.username by { PrefixFacts(); assert c.username[|BARE_PREFIX|] == ':'; }
    hide SupportLoginFor, Normalized, LastComponent, BARE_PREFIX, PREFIX;
    if ':' !in c.password {
      AuthenticatesExactlyWhen(accounts, c);
    } else {
      NotAuthenticatedAs(accounts, c);
    }
  }

  /** Where the engineer's is the only account: exactly when the name is normal and neither part has a colon. */
  lemma LoneEngineerEntersExactlyWhen(lower: Lowering, engineer: string, slug: string, password: string)
    requires Lowers(lower) && SupportLoginFor(lower, engineer, slug).Ok?
    ensures var login := SupportLoginFor(lower, engineer, slug).value;
            Authenticated(map[engineer := password], Encode(Credentials(login, password))) == Some(login) <==>
              Normal(lower, engineer) && ':' !in engineer && ':' !in password
  {
    SupportLoginNames(lower, engineer, slug);
    LoginNamesItsEngineerExactlyWhen(lower, engineer, slug);
    hide SupportLoginFor, Normalized, Normal, Lowers, AccountName, LastComponent, Authenticated, Encode;
    GrantedLoginAuthenticatesExactlyWhen(lower, map[engineer := password], engineer, slug);
  }

  /** Nothing is lost: what the handler sees encodes to what was sent. */
  lemma SuppliedReencodes(text: string)
    requires Supplied(text).Some?
    ensures Encode(Supplied(text).value) == text
  {
    DecodedReencodes(text);
    QualifiedReencodes(Decode(text).value);
  }

  lemma QualifiedReencodes(c: Credentials)
    ensures Encode(Qualified(c)) == Encode(c)
  {
    PrefixFacts();
    hide BARE_PREFIX, PREFIX;
    if c.username == BARE_PREFIX && ':' in c.password {
      var i := LastIndexOf(c.password, ':');
      var head, tail := c.password[..i], c.password[i + 1..];
      SplitAtColon(c.password, i);
      Reassociate(BARE_PREFIX, head, tail);
      EncodeIsConcat(Qualified(c));
      EncodeIsConcat(c);
      hide Encode;
    }
  }

  lemma EncodeIsConcat(c: Credentials)
    ensures Encode(c) == c.username + [':'] + c.password
  {
  }

  lemma SplitAtColon(s: string, i: nat)
    requires i < |s| && s[i] == ':'
    ensures s == s[..i] + [':'] + s[i + 1..]
  {
  }

  lemma DecodedReencodes(text: string)
    requires Decode(text).Some?
    ensures Encode(Decode(text).value) == text
  {
    var i := IndexOf(text, ':');
    SplitAtColon(text, i);
    EncodeIsConcat(Decode(text).value);
  }

  lemma Reassociate(a: string, b: string, c: string)
    ensures a + [':'] + b + [':'] + c == a + [':'] + (b + [':'] + c)
  {
  }

  lemma NotAuthenticatedAs(accounts: map<string, string>, c: Credentials)
    requires ':' in c.username && ':' in c.password
    ensures Authenticated(accounts, Encode(c)) != Some(c.username)
  {
    var d := Supplied(Encode(c));
    if d.Some? {
      SuppliedNames(Encode(c));
      SuppliedReencodes(Encode(c));
      SamePassword(d.value, c);
    }
  }

  lemma SamePassword(d: Credentials, c: Credentials)
    requires Encode(d) == Encode(c)
    ensures d.username == c.username ==> d.password == c.password
  {
    if d.username == c.username {
      var n := |c.username| + 1;
      assert Encode(d)[n..] == d.password && Encode(c)[n..] == c.password;
    }
  }

  const GRANTED := "soporte:acme:gerardo"
  const TYPED := "soporte:acme:Gerardo"

  /**
   An account configured as "Gerardo": the granted login names "gerardo", so it does not enter;
   typed with the capital it authenticates, as a login that was never granted.
   */
  lemma MixedCaseEngineer(lower: Lowering, p: string)
    requires lower("Gerardo") == "gerardo" && lower("acme") == "acme" && ':' !in p
    ensures var accounts := map["Gerardo" := p];
            && SupportLoginFor(lower, "Gerardo", "acme") == Ok(GRANTED) && GRANTED != TYPED
            && Authenticated(accounts, Encode(Credentials(GRANTED, p))) == None
            && Authenticated(accounts, Encode(Credentials(TYPED, p))) == Some(TYPED)
  {
    GerardosGrant(lower);
    GrantedAccount();
    TypedAccount();
    assert "gerardo"[0] != "Gerardo"[0];
    hide *;
    OnlyAccount("Gerardo", GRANTED, p);
    OnlyAccount("Gerardo", TYPED, p);
  }

  lemma OnlyAccount(account: string, login: string, p: string)
    requires PREFIX <= login && ':' !in p
    ensures Authenticated(map[account := p], Encode(Credentials(login, p)))
         == if AccountName(login) == account then Some(login) else None
  {
    hide AccountName, Authenticated, Encode, PREFIX;
    AuthenticatesExactlyWhen(map[account := p], Credentials(login, p));
  }

  lemma GerardosGrant(lower: Lowering)
    requires lower("Gerardo") == "gerardo" && lower("acme") == "acme"
    ensures SupportLoginFor(lower, "Gerardo", "acme") == Ok(GRANTED)
  {
    assert Trimmed("Gerardo") && Trimmed("acme");
    StripTrims("Gerardo");
    StripTrims("acme");
    assert QualifiedPrefix("acme") == "soporte:acme:";
    assert QualifiedPrefix("acme")[0] != "gerardo"[0];
    assert "soporte:acme:" + "gerardo" == GRANTED;
    hide QualifiedPrefix, Strip, Trimmed;
  }

  lemma GrantedAccount()
    ensures PREFIX <= GRANTED && AccountName(GRANTED) == "gerardo"
  {
    assert PREFIX <= GRANTED && "soporte:acme" + [':'] + "gerardo" == GRANTED;
    SplitAtLastColon("soporte:acme", "gerardo");
    hide PREFIX, GRANTED;
  }

  lemma TypedAccount()
    ensures PREFIX <= TYPED && AccountName(TYPED) == "Gerardo"
  {
    assert PREFIX <= TYPED && "soporte:acme" + [':'] + "Gerardo" == TYPED;
    SplitAtLastColon("soporte:acme", "Gerardo");
    hide PREFIX, TYPED;
  }

  /** An account "a:bob" enters with its granted login exactly when an account "bob" has its password. */
  lemma ColonInEngineerName(lower: Lowering, accounts: map<string, string>, slug: string)
    requires lower("a:bob") == "a:bob"
    requires "a:bob" in accounts && ':' !in accounts["a:bob"] && SupportLoginFor(lower, "a:bob", slug).Ok?
    ensures var login := SupportLoginFor(lower, "a:bob", slug).value;
            Authenticated(accounts, Encode(Credentials(login, accounts["a:bob"]))) == Some(login) <==>
              "bob" in accounts && accounts["bob"] == accounts["a:bob"]
  {
    assert Trimmed("a:bob");
    StripTrims("a:bob");
    assert "a:bob" == "a" + [':'] + "bob";
    SplitAtLastColon("a", "bob");
    hide Strip, SupportLoginFor, Authenticated, Encode;
    GrantedLoginAuthenticatesExactlyWhen(lower, accounts, "a:bob", slug);
  }
}
