/**
 The constraint loops of revision 0015: parent uniques first, then composite foreign
 keys, and the reverse on the way down.

 A schema is its constraints in creation order. A foreign key records the unique
 constraint PostgreSQL resolved it to, the oldest one over the same columns, and that
 constraint cannot be dropped while the key relies on it.
 */
module ConstraintSchema {
  import opened Prelude

  datatype Constraint =
    | Unique(table: string, name: string, columns: seq<string>)
    | ForeignKey(table: string, name: string, columns: seq<string>,
                 referred: string, referredColumns: seq<string>, target: string)

  type Schema = seq<Constraint>

  datatype UniqueSpec = UniqueSpec(table: string, name: string, columns: seq<string>)

  datatype KeySpec = KeySpec(
    table: string, name: string, referred: string, columns: seq<string>, referredColumns: seq<string>)

  // ------------------------------------------------------------------ statements

  /** A constraint of the table, or the index of any unique, already has the name. */
  predicate NameTaken(s: Schema, table: string, name: string) {
    exists c | c in s :: c.name == name && (c.table == table || c.Unique?)
  }

  predicate Matches(c: Constraint, table: string, columns: seq<string>) {
    c.Unique? && c.table == table && multiset(c.columns) == multiset(columns)
  }

  /** The oldest unique constraint over the referred columns. */
  function ResolveTarget(s: Schema, table: string, columns: seq<string>): (r: Option<Constraint>)
    ensures r.None? <==> forall c | c in s :: !Matches(c, table, columns)
    ensures r.Some? ==> r.value in s && Matches(r.value, table, columns)
  {
    if s == [] then None
    else if Matches(s[0], table, columns) then Some(s[0])
    else
      assert s == [s[0]] + s[1..];
      ResolveTarget(s[1..], table, columns)
  }

  predicate ReliesOn(c: Constraint, u: Constraint) {
    c.ForeignKey? && u.Unique? && c.referred == u.table && c.target == u.name
  }

  function CreateUnique(s: Schema, u: UniqueSpec): Option<Schema> {
    if NameTaken(s, u.table, u.name) then None else Some(s + [Unique(u.table, u.name, u.columns)])
  }

  function CreateKey(s: Schema, k: KeySpec): Option<Schema> {
    match ResolveTarget(s, k.referred, k.referredColumns)
    case None => None
    case Some(u) =>
      if exists c | c in s :: c.table == k.table && c.name == k.name then None
      else Some(s + [ForeignKey(k.table, k.name, k.columns, k.referred, k.referredColumns, u.name)])
  }

  function Without(s: Schema, c: Constraint): Schema {
    if s == [] then []
    else if s[|s| - 1] == c then s[..|s| - 1]
    else Without(s[..|s| - 1], c) + [s[|s| - 1]]
  }

  /** DROP CONSTRAINT fails on an absent name and on a unique some key relies on. */
  function Drop(s: Schema, table: string, name: string): Option<Schema> {
    match Named(s, table, name)
    case None => None
    case Some(c) => if exists k | k in s :: ReliesOn(k, c) then None else Some(Without(s, c))
  }

  function Named(s: Schema, table: string, name: string): (r: Option<Constraint>)
    ensures r.Some? ==> r.value in s && r.value.table == table && r.value.name == name
    ensures r.None? ==> forall c | c in s :: !(c.table == table && c.name == name)
  {
    if s == [] then None
    else if s[|s| - 1].table == table && s[|s| - 1].name == name then Some(s[|s| - 1])
    else
      assert s == s[..|s| - 1] + [s[|s| - 1]];
      Named(s[..|s| - 1], table, name)
  }

  // ----------------------------------------------------------------- the migration

  function CreateUniques(s: Schema, us: seq<UniqueSpec>): Option<Schema>
    decreases |us|
  {
    if us == [] then Some(s)
    else
      match CreateUnique(s, us[0])
      case None => None
      case Some(s') => CreateUniques(s', us[1..])
  }

  function CreateKeys(s: Schema, ks: seq<KeySpec>): Option<Schema>
    decreases |ks|
  {
    if ks == [] then Some(s)
    else
      match CreateKey(s, ks[0])
      case None => None
      case Some(s') => CreateKeys(s', ks[1..])
  }

  function Upgrade(s: Schema, us: seq<UniqueSpec>, ks: seq<KeySpec>): Option<Schema> {
    match CreateUniques(s, us)
    case None => None
    case Some(s') => CreateKeys(s', ks)
  }

  /** `reversed(...)`: the last one created goes first. */
  function DropKeys(s: Schema, ks: seq<KeySpec>): Option<Schema>
    decreases |ks|
  {
    if ks == [] then Some(s)
    else
      match Drop(s, ks[|ks| - 1].table, ks[|ks| - 1].name)
      case None => None
      case Some(s') => DropKeys(s', ks[..|ks| - 1])
  }

  function DropUniques(s: Schema, us: seq<UniqueSpec>): Option<Schema>
    decreases |us|
  {
    if us == [] then Some(s)
    else
      match Drop(s, us[|us| - 1].table, us[|us| - 1].name)
      case None => None
      case Some(s') => DropUniques(s', us[..|us| - 1])
  }

  function Downgrade(s: Schema, us: seq<UniqueSpec>, ks: seq<KeySpec>): Option<Schema> {
    match DropKeys(s, ks)
    case None => None
    case Some(s') => DropUniques(s', us)
  }

  // ------------------------------------------------------------------- invariants

  /** Every foreign key has the unique constraint it relies on. */
  ghost predicate WellFounded(s: Schema) {
    forall k | k in s && k.ForeignKey? :: exists u :: u in s && ReliesOn(k, u)
  }

  lemma CreationKeepsWellFounded(s: Schema, u: UniqueSpec, k: KeySpec)
    requires WellFounded(s)
    ensures CreateUnique(s, u).Some? ==> WellFounded(CreateUnique(s, u).value)
    ensures CreateKey(s, k).Some? ==> WellFounded(CreateKey(s, k).value)
  {
    if CreateUnique(s, u).Some? {
      var s' := CreateUnique(s, u).value;
      forall c | c in s' && c.ForeignKey? ensures exists v :: v in s' && ReliesOn(c, v) {
        var v :| v in s && ReliesOn(c, v);
        assert v in s';
      }
    }
    if CreateKey(s, k).Some? {
      var s' := CreateKey(s, k).value;
      var t := ResolveTarget(s, k.referred, k.referredColumns).value;
      forall c | c in s' && c.ForeignKey? ensures exists v :: v in s' && ReliesOn(c, v) {
        if c in s {
          var v :| v in s && ReliesOn(c, v);
          assert v in s';
        } else {
          assert t in s' && ReliesOn(c, t);
        }
      }
    }
  }

  lemma {:induction false} WithoutKeepsOthers(s: Schema, c: Constraint, d: Constraint)
    ensures d in Without(s, c) ==> d in s
    ensures d in s && d != c ==> d in Without(s, c)
  {
    if s != [] && s[|s| - 1] != c {
      WithoutKeepsOthers(s[..|s| - 1], c, d);
    }
  }

  /** A drop that succeeds never leaves a key without its unique. */
  lemma DropKeepsWellFounded(s: Schema, table: string, name: string)
    requires WellFounded(s) && Drop(s, table, name).Some?
    ensures WellFounded(Drop(s, table, name).value)
  {
    var c := Named(s, table, name).value;
    var s' := Without(s, c);
    forall k | k in s' && k.ForeignKey? ensures exists u :: u in s' && ReliesOn(k, u) {
      WithoutKeepsOthers(s, c, k);
      var u :| u in s && ReliesOn(k, u);
      WithoutKeepsOthers(s, c, u);
    }
  }

  lemma DropLast(s: Schema, c: Constraint)
    requires c.Unique? ==> forall k | k in s :: !ReliesOn(k, c)
    ensures Drop(s + [c], c.table, c.name) == Some(s)
  {
    assert (s + [c])[..|s|] == s;
    assert !ReliesOn(c, c);
  }

  // ------------------------------------------------------------------- round trip

  lemma {:induction false} UniquesAppend(s: Schema, us: seq<UniqueSpec>)
    requires CreateUniques(s, us).Some?
    ensures var s' := CreateUniques(s, us).value;
            && |s'| == |s| + |us| && s'[..|s|] == s
            && (forall i | 0 <= i < |us| :: s'[|s| + i] == Unique(us[i].table, us[i].name, us[i].columns))
            && (forall i | 0 <= i < |us| :: !NameTaken(s, us[i].table, us[i].name))
    decreases |us|
  {
    if us != [] {
      var s1 := CreateUnique(s, us[0]).value;
      UniquesAppend(s1, us[1..]);
      var s' := CreateUniques(s, us).value;
      assert s1[..|s|] == s && s'[..|s|] == s'[..|s1|][..|s|];
      forall i | 0 <= i < |us| ensures s'[|s| + i] == Unique(us[i].table, us[i].name, us[i].columns) {
        if i > 0 {
          assert us[1..][i - 1] == us[i] && s'[|s1| + (i - 1)] == s'[|s| + i];
        } else {
          assert s'[|s|] == s'[..|s1|][|s|];
        }
      }
      forall i | 0 <= i < |us| ensures !NameTaken(s, us[i].table, us[i].name) {
        if i > 0 {
          assert us[1..][i - 1] == us[i];
          assert forall c | c in s :: c in s1;
        }
      }
    }
  }

  lemma {:induction false} KeysUndo(s: Schema, ks: seq<KeySpec>)
    requires CreateKeys(s, ks).Some?
    ensures DropKeys(CreateKeys(s, ks).value, ks) == Some(s)
    decreases |ks|
  {
    if ks != [] {
      var n := |ks| - 1;
      KeysSplit(s, ks, n);
      assert ks[n..] == [ks[n]];
      var s1 := CreateKeys(s, ks[..n]).value;
      assert CreateKeys(s1, [ks[n]]) == CreateKey(s1, ks[n]) by { assert [ks[n]][1..] == []; }
      var s2 := CreateKey(s1, ks[n]).value;
      DropLast(s1, s2[|s1|]);
      KeysUndo(s, ks[..n]);
    }
  }

  lemma {:induction false} KeysSplit(s: Schema, ks: seq<KeySpec>, n: nat)
    requires n <= |ks| && CreateKeys(s, ks).Some?
    ensures CreateKeys(s, ks[..n]).Some?
    ensures CreateKeys(s, ks) == CreateKeys(CreateKeys(s, ks[..n]).value, ks[n..])
    decreases n
  {
    if n == 0 {
      assert ks[..0] == [] && ks[0..] == ks;
    } else {
      KeysSplit(CreateKey(s, ks[0]).value, ks[1..], n - 1);
      assert ks[..n][1..] == ks[1..][..n - 1] && ks[1..][n - 1..] == ks[n..];
    }
  }

  lemma {:induction false} UniquesSplit(s: Schema, us: seq<UniqueSpec>, n: nat)
    requires n <= |us| && CreateUniques(s, us).Some?
    ensures CreateUniques(s, us[..n]).Some?
    ensures CreateUniques(s, us) == CreateUniques(CreateUniques(s, us[..n]).value, us[n..])
    decreases n
  {
    if n == 0 {
      assert us[..0] == [] && us[0..] == us;
    } else {
      UniquesSplit(CreateUnique(s, us[0]).value, us[1..], n - 1);
      assert us[..n][1..] == us[1..][..n - 1] && us[1..][n - 1..] == us[n..];
    }
  }

  lemma {:induction false} UniquesUndo(s: Schema, us: seq<UniqueSpec>)
    requires WellFounded(s) && CreateUniques(s, us).Some?
    ensures DropUniques(CreateUniques(s, us).value, us) == Some(s)
    decreases |us|
  {
    if us != [] {
      var n := |us| - 1;
      UniquesSplit(s, us, n);
      assert us[n..] == [us[n]];
      var s1 := CreateUniques(s, us[..n]).value;
      assert CreateUniques(s1, [us[n]]) == CreateUnique(s1, us[n]) by { assert [us[n]][1..] == []; }
      UniquesKeepWellFounded(s, us[..n]);
      NewUniqueIsUnreferenced(s1, us[n]);
      DropLast(s1, Unique(us[n].table, us[n].name, us[n].columns));
      UniquesUndo(s, us[..n]);
    }
  }

  lemma {:induction false} UniquesKeepWellFounded(s: Schema, us: seq<UniqueSpec>)
    requires WellFounded(s) && CreateUniques(s, us).Some?
    ensures WellFounded(CreateUniques(s, us).value)
    decreases |us|
  {
    if us != [] {
      CreationKeepsWellFounded(s, us[0], KeySpec("", "", "", [], []));
      UniquesKeepWellFounded(CreateUnique(s, us[0]).value, us[1..]);
    }
  }

  lemma NewUniqueIsUnreferenced(s: Schema, u: UniqueSpec)
    requires WellFounded(s) && CreateUnique(s, u).Some?
    ensures forall k | k in s :: !ReliesOn(k, Unique(u.table, u.name, u.columns))
  {
    forall k | k in s ensures !ReliesOn(k, Unique(u.table, u.name, u.columns)) {
      if k.ForeignKey? {
        var v :| v in s && ReliesOn(k, v);
        assert v.name != u.name;
      }
    }
  }

  /** Downgrade after upgrade restores the schema exactly, order included, and no step fails. */
  lemma DowngradeUndoesUpgrade(s: Schema, us: seq<UniqueSpec>, ks: seq<KeySpec>)
    requires WellFounded(s) && Upgrade(s, us, ks).Some?
    ensures Downgrade(Upgrade(s, us, ks).value, us, ks) == Some(s)
  {
    KeysUndo(CreateUniques(s, us).value, ks);
    UniquesUndo(s, us);
  }

  // -------------------------------------------------------- when the upgrade works

  predicate NoneTaken(s: Schema, us: seq<UniqueSpec>) {
    forall u, c | u in us && c in s :: c.name == u.name ==> c.table != u.table && c.ForeignKey?
  }

  predicate DistinctNames(us: seq<UniqueSpec>) {
    forall i, j | 0 <= i < j < |us| :: us[i].name != us[j].name
  }

  predicate FreshUniques(s: Schema, us: seq<UniqueSpec>) {
    NoneTaken(s, us) && DistinctNames(us)
  }

  predicate FreshKeys(s: Schema, us: seq<UniqueSpec>, ks: seq<KeySpec>) {
    && (forall k, c | k in ks && c in s :: !(c.table == k.table && c.name == k.name))
    && (forall k, u | k in ks && u in us :: !(u.table == k.table && u.name == k.name))
    && (forall i, j | 0 <= i < j < |ks| :: !(ks[i].table == ks[j].table && ks[i].name == ks[j].name))
  }

  /** Every key's referred columns are unique already or become so in the first loop. */
  predicate Covered(s: Schema, us: seq<UniqueSpec>, ks: seq<KeySpec>) {
    forall k | k in ks ::
      || (exists c | c in s ::
            c.Unique? && c.table == k.referred && multiset(c.columns) == multiset(k.referredColumns))
      || (exists u | u in us :: u.table == k.referred && multiset(u.columns) == multiset(k.referredColumns))
  }

  lemma NamesAfterCreate(s: Schema, u: UniqueSpec, table: string, name: string)
    requires CreateUnique(s, u).Some?
    ensures NameTaken(CreateUnique(s, u).value, table, name) <==> NameTaken(s, table, name) || name == u.name
  {
    var s1 := CreateUnique(s, u).value;
    assert Unique(u.table, u.name, u.columns) in s1;
    assert forall c :: c in s1 <==> c in s || c == Unique(u.table, u.name, u.columns);
  }

  lemma DistinctNamesHead(us: seq<UniqueSpec>)
    requires us != []
    ensures DistinctNames(us) <==> DistinctNames(us[1..]) && forall u | u in us[1..] :: u.name != us[0].name
  {
    var tail := us[1..];
    assert forall j | 0 <= j < |tail| :: tail[j] == us[j + 1] && tail[j] in tail;
    if DistinctNames(tail) && forall u | u in tail :: u.name != us[0].name {
      forall i, j | 0 <= i < j < |us| ensures us[i].name != us[j].name {
        assert us[j] == tail[j - 1];
        if i > 0 { assert us[i] == tail[i - 1]; }
      }
    }
    if DistinctNames(us) {
      forall u | u in tail ensures u.name != us[0].name {
        var j :| 0 <= j < |tail| && tail[j] == u;
        assert us[j + 1] == u;
      }
    }
  }

  lemma FreshUniquesHead(s: Schema, us: seq<UniqueSpec>)
    requires us != [] && CreateUnique(s, us[0]).Some?
    ensures FreshUniques(CreateUnique(s, us[0]).value, us[1..]) <==> FreshUniques(s, us)
  {
    var s1, tail := CreateUnique(s, us[0]).value, us[1..];
    assert us == [us[0]] + tail && !NameTaken(s, us[0].table, us[0].name);
    forall u | u in tail ensures NameTaken(s1, u.table, u.name)
        <==> NameTaken(s, u.table, u.name) || u.name == us[0].name {
      NamesAfterCreate(s, us[0], u.table, u.name);
    }
    DistinctNamesHead(us);
    hide CreateUnique, NameTaken, DistinctNames;
  }

  lemma {:induction false} UniquesSucceedExactlyWhen(s: Schema, us: seq<UniqueSpec>)
    ensures CreateUniques(s, us).Some? <==> FreshUniques(s, us)
    decreases |us|
  {
    if us != [] {
      if CreateUnique(s, us[0]).Some? {
        UniquesSucceedExactlyWhen(CreateUnique(s, us[0]).value, us[1..]);
        FreshUniquesHead(s, us);
      } else {
        assert us[0] in us && !FreshUniques(s, us);
      }
    }
  }

  lemma {:induction false} KeysSucceedExactlyWhen(s: Schema, ks: seq<KeySpec>)
    ensures CreateKeys(s, ks).Some? <==> FreshKeys(s, [], ks) && Covered(s, [], ks)
    decreases |ks|
  {
    if ks != [] {
      assert ks == [ks[0]] + ks[1..];
      if CreateKey(s, ks[0]).Some? {
        var s1 := CreateKey(s, ks[0]).value;
        KeysSucceedExactlyWhen(s1, ks[1..]);
        CoveredHead(s, ks);
        FreshHead(s, s1, s1[|s|], ks);
        hide FreshKeys, Covered;
      } else {
        HeadFails(s, ks);
      }
    }
  }

  lemma HeadFails(s: Schema, ks: seq<KeySpec>)
    requires ks != [] && CreateKey(s, ks[0]).None?
    ensures !(FreshKeys(s, [], ks) && Covered(s, [], ks))
  {
    assert ks[0] in ks;
    if ResolveTarget(s, ks[0].referred, ks[0].referredColumns).Some? {
      var c :| c in s && c.table == ks[0].table && c.name == ks[0].name;
    }
  }

  lemma CoveredHead(s: Schema, ks: seq<KeySpec>)
    requires ks != [] && CreateKey(s, ks[0]).Some?
    ensures Covered(CreateKey(s, ks[0]).value, [], ks[1..]) <==> Covered(s, [], ks)
    ensures var s1 := CreateKey(s, ks[0]).value; forall c :: c in s1 <==> c in s || c == s1[|s|]
  {
    var s1 := CreateKey(s, ks[0]).value;
    var added, target := s1[|s|], ResolveTarget(s, ks[0].referred, ks[0].referredColumns).value;
    assert ks == [ks[0]] + ks[1..];
    assert added.ForeignKey? && s1 == s + [added];
    assert target in s && Matches(target, ks[0].referred, ks[0].referredColumns);
    assert forall c :: c in s1 <==> c in s || c == added;
    hide ResolveTarget;
    forall k | k in ks
      ensures (exists c | c in s1 :: Matches(c, k.referred, k.referredColumns))
         <==> (exists c | c in s :: Matches(c, k.referred, k.referredColumns))
    {
      if c :| c in s1 && Matches(c, k.referred, k.referredColumns) { assert c in s; }
      if c :| c in s && Matches(c, k.referred, k.referredColumns) { assert c in s1; }
    }
    hide Matches;
  }

  lemma FreshHead(s: Schema, s1: Schema, added: Constraint, ks: seq<KeySpec>)
    requires ks != [] && added.table == ks[0].table && added.name == ks[0].name
    requires forall c :: c in s1 <==> c in s || c == added
    requires forall c | c in s :: !(c.table == ks[0].table && c.name == ks[0].name)
    ensures FreshKeys(s1, [], ks[1..]) <==> FreshKeys(s, [], ks)
  {
    assert ks == [ks[0]] + ks[1..];
    assert forall j | 0 <= j < |ks| - 1 :: ks[1..][j] == ks[j + 1];
    if FreshKeys(s1, [], ks[1..]) {
      forall i, j | 0 <= i < j < |ks| ensures !(ks[i].table == ks[j].table && ks[i].name == ks[j].name) {
        assert ks[j] == ks[1..][j - 1] && ks[j] in ks[1..];
        if i > 0 { assert ks[i] == ks[1..][i - 1]; }
      }
    }
    if FreshKeys(s, [], ks) {
      forall k, c | k in ks[1..] && c in s1 ensures !(c.table == k.table && c.name == k.name) {
        var j :| 0 <= j < |ks| - 1 && ks[1..][j] == k;
        assert ks[j + 1] == k;
      }
    }
  }

  function UniqueOf(u: UniqueSpec): Constraint {
    Unique(u.table, u.name, u.columns)
  }

  lemma UniquesMembers(s: Schema, us: seq<UniqueSpec>)
    requires CreateUniques(s, us).Some?
    ensures forall c :: c in CreateUniques(s, us).value <==> c in s || exists u | u in us :: c == UniqueOf(u)
  {
    UniquesAppend(s, us);
    var s' := CreateUniques(s, us).value;
    hide CreateUniques, NameTaken;
    forall c ensures c in s' <==> c in s || exists u | u in us :: c == UniqueOf(u) {
      if c in s' {
        var n :| 0 <= n < |s'| && s'[n] == c;
        if n < |s| { assert s'[..|s|][n] == c; } else { assert us[n - |s|] in us && s'[|s| + (n - |s|)] == c; }
      }
      if c in s {
        var n :| 0 <= n < |s| && s[n] == c;
        assert s'[..|s|][n] == c;
      }
      if u :| u in us && c == UniqueOf(u) {
        var n :| 0 <= n < |us| && us[n] == u;
        assert s'[|s| + n] == c;
      }
    }
  }

  lemma UniquesServeKeys(s: Schema, s': Schema, us: seq<UniqueSpec>, ks: seq<KeySpec>)
    requires forall c :: c in s' <==> c in s || exists u | u in us :: c == UniqueOf(u)
    ensures Covered(s', [], ks) <==> Covered(s, us, ks)
  {
    assert forall u | u in us :: UniqueOf(u) in s';
  }

  lemma UniquesKeepKeysFresh(s: Schema, s': Schema, us: seq<UniqueSpec>, ks: seq<KeySpec>)
    requires forall c :: c in s' <==> c in s || exists u | u in us :: c == UniqueOf(u)
    ensures FreshKeys(s', [], ks) <==> FreshKeys(s, us, ks)
  {
    assert forall u | u in us :: UniqueOf(u) in s';
  }

  /** The upgrade succeeds if and only if its names are new and every key's target is covered. */
  lemma UpgradeSucceedsExactlyWhen(s: Schema, us: seq<UniqueSpec>, ks: seq<KeySpec>)
    ensures Upgrade(s, us, ks).Some? <==> FreshUniques(s, us) && FreshKeys(s, us, ks) && Covered(s, us, ks)
  {
    hide CreateUniques, CreateKeys, FreshUniques, FreshKeys, Covered;
    UniquesSucceedExactlyWhen(s, us);
    if CreateUniques(s, us).Some? {
      var s' := CreateUniques(s, us).value;
      UniquesMembers(s, us);
      KeysSucceedExactlyWhen(s', ks);
      UniquesServeKeys(s, s', us, ks);
      UniquesKeepKeysFresh(s, s', us, ks);
    }
  }

  // -------------------------------------------------------- what the upgrade leaves

  /** The oldest unique of the table over those columns, in any order. */
  predicate IsOldestUnique(s: Schema, n: nat, table: string, columns: seq<string>) {
    && n < |s| && s[n].Unique? && s[n].table == table && multiset(s[n].columns) == multiset(columns)
    && forall i | 0 <= i < n && s[i].Unique? && s[i].table == table :: multiset(s[i].columns) != multiset(columns)
  }

  lemma {:induction false} TargetIsOldest(s: Schema, table: string, columns: seq<string>) returns (n: nat)
    requires ResolveTarget(s, table, columns).Some?
    ensures IsOldestUnique(s, n, table, columns) && ResolveTarget(s, table, columns) == Some(s[n])
    decreases |s|
  {
    if Matches(s[0], table, columns) {
      n := 0;
    } else {
      var m := TargetIsOldest(s[1..], table, columns);
      n := m + 1;
      forall i | 0 <= i < n && s[i].Unique? && s[i].table == table ensures multiset(s[i].columns) != multiset(columns) {
        if i > 0 { assert s[1..][i - 1] == s[i]; }
      }
    }
  }

  /** The key as asked for, relying on the oldest unique that serves it. */
  ghost predicate IsKeyOf(s: Schema, c: Constraint, k: KeySpec) {
    && c.ForeignKey? && c.table == k.table && c.name == k.name && c.columns == k.columns
    && c.referred == k.referred && c.referredColumns == k.referredColumns
    && exists n: nat :: IsOldestUnique(s, n, k.referred, k.referredColumns) && c.target == s[n].name
  }

  lemma NewKeyIsAsAsked(s: Schema, k: KeySpec)
    requires CreateKey(s, k).Some?
    ensures var s1 := CreateKey(s, k).value; |s1| == |s| + 1 && s1[..|s|] == s && IsKeyOf(s, s1[|s|], k)
  {
    var n := TargetIsOldest(s, k.referred, k.referredColumns);
  }

  lemma KeyStaysAsAsked(s: Schema, s': Schema, c: Constraint, k: KeySpec)
    requires s <= s' && IsKeyOf(s, c, k)
    ensures IsKeyOf(s', c, k)
  {
    var n: nat :| IsOldestUnique(s, n, k.referred, k.referredColumns) && c.target == s[n].name;
    assert forall i | 0 <= i < |s| :: s'[i] == s[i];
    assert IsOldestUnique(s', n, k.referred, k.referredColumns);
  }

  /** `s'` is `s` followed by the keys as asked for. */
  ghost predicate HasKeysAppended(s: Schema, s': Schema, ks: seq<KeySpec>) {
    && |s'| == |s| + |ks| && s <= s'
    && forall i | 0 <= i < |ks| :: IsKeyOf(s', s'[|s| + i], ks[i])
  }

  lemma OneMoreKeyAppended(s: Schema, s1: Schema, s': Schema, ks: seq<KeySpec>)
    requires ks != [] && |s1| == |s| + 1 && s <= s1 && IsKeyOf(s, s1[|s|], ks[0])
    requires HasKeysAppended(s1, s', ks[1..])
    ensures HasKeysAppended(s, s', ks)
  {
    hide IsKeyOf;
    assert s'[..|s1|] == s1 && s'[|s|] == s1[|s|];
    KeyStaysAsAsked(s, s', s1[|s|], ks[0]);
    forall i | 0 <= i < |ks| ensures IsKeyOf(s', s'[|s| + i], ks[i]) {
      if i > 0 {
        assert IsKeyOf(s', s'[|s1| + (i - 1)], ks[1..][i - 1]);
      }
    }
  }

  lemma {:induction false} KeysAppend(s: Schema, ks: seq<KeySpec>)
    requires CreateKeys(s, ks).Some?
    ensures HasKeysAppended(s, CreateKeys(s, ks).value, ks)
    decreases |ks|
  {
    if ks != [] {
      var s1 := CreateKey(s, ks[0]).value;
      NewKeyIsAsAsked(s, ks[0]);
      KeysAppend(s1, ks[1..]);
      hide CreateKey, HasKeysAppended, IsKeyOf;
      OneMoreKeyAppended(s, s1, CreateKeys(s, ks).value, ks);
    }
  }

  /**
   What a successful upgrade leaves: the old constraints, then each unique as listed, then each
   key as listed, every one of them relying on the oldest unique over the columns it refers to.
   */
  lemma UpgradeAppendsItsLists(s: Schema, us: seq<UniqueSpec>, ks: seq<KeySpec>)
    requires Upgrade(s, us, ks).Some?
    ensures var t := Upgrade(s, us, ks).value;
            && |t| == |s| + |us| + |ks| && s <= t
            && (forall i | 0 <= i < |us| :: t[|s| + i] == Unique(us[i].table, us[i].name, us[i].columns))
            && (forall i | 0 <= i < |ks| :: IsKeyOf(t, t[|s| + |us| + i], ks[i]))
  {
    hide CreateUniques, CreateKeys, IsKeyOf, NameTaken;
    var s', t := CreateUniques(s, us).value, Upgrade(s, us, ks).value;
    UniquesAppend(s, us);
    KeysAppend(s', ks);
    assert HasKeysAppended(s', t, ks);
    forall i | 0 <= i < |us| ensures t[|s| + i] == Unique(us[i].table, us[i].name, us[i].columns) {
      assert t[|s| + i] == s'[|s| + i];
    }
  }

  lemma {:induction false} WithoutRemovesOne(s: Schema, c: Constraint) returns (n: nat)
    requires c in s
    ensures n < |s| && s[n] == c && Without(s, c) == s[..n] + s[n + 1..]
  {
    var m := |s| - 1;
    if s[m] == c {
      n := m;
      assert s[..m] + s[m + 1..] == s[..m];
    } else {
      assert s == s[..m] + [s[m]];
      n := WithoutRemovesOne(s[..m], c);
      assert s[..m][..n] == s[..n] && s[n + 1..] == s[..m][n + 1..] + [s[m]];
    }
  }

  /** Dropping a constraint that its name identifies removes just that one, or fails for a key that relies on it. */
  lemma DroppedExactlyWhen(s: Schema, n: nat)
    requires n < |s| && forall i | 0 <= i < |s| && i != n :: !(s[i].table == s[n].table && s[i].name == s[n].name)
    ensures Drop(s, s[n].table, s[n].name) ==
            if s[n].Unique? && exists k | k in s :: k.ForeignKey? && k.referred == s[n].table && k.target == s[n].name
            then None else Some(s[..n] + s[n + 1..])
  {
    assert Named(s, s[n].table, s[n].name) == Some(s[n]);
    var m := WithoutRemovesOne(s, s[n]);
    assert m == n;
    assert (exists k | k in s :: ReliesOn(k, s[n])) <==>
           (s[n].Unique? && exists k | k in s :: k.ForeignKey? && k.referred == s[n].table && k.target == s[n].name);
  }

  // ------------------------------------------------------ why the drops are reversed

  lemma {:induction false} KeysMembers(s: Schema, ks: seq<KeySpec>, c: Constraint)
    requires CreateKeys(s, ks).Some? && c in CreateKeys(s, ks).value
    ensures c in s || (c.ForeignKey? && exists k | k in ks :: c.table == k.table && c.name == k.name)
    decreases |ks|
  {
    if ks != [] {
      KeysMembers(CreateKey(s, ks[0]).value, ks[1..], c);
      assert ks == [ks[0]] + ks[1..];
    }
  }

  lemma {:induction false} KeysKeep(s: Schema, ks: seq<KeySpec>, c: Constraint)
    requires CreateKeys(s, ks).Some? && c in s
    ensures c in CreateKeys(s, ks).value
    decreases |ks|
  {
    if ks != [] {
      KeysKeep(CreateKey(s, ks[0]).value, ks[1..], c);
    }
  }

  /** The constraint is there and no other one of its table has its name. */
  predicate Identified(s: Schema, c: Constraint) {
    c in s && forall d | d in s && d.table == c.table && d.name == c.name :: d == c
  }

  lemma UpgradeIdentifiesUniques(s: Schema, us: seq<UniqueSpec>, ks: seq<KeySpec>, i: nat)
    requires Upgrade(s, us, ks).Some? && i < |us|
    ensures Identified(Upgrade(s, us, ks).value, UniqueOf(us[i]))
  {
    var s', c := CreateUniques(s, us).value, UniqueOf(us[i]);
    var t := Upgrade(s, us, ks).value;
    UpgradeSucceedsExactlyWhen(s, us, ks);
    UniquesMembers(s, us);
    assert us[i] in us && c in s';
    KeysKeep(s', ks, c);
    hide CreateUniques, CreateKeys, Upgrade, Covered;
    forall d | d in t && d.table == c.table && d.name == c.name ensures d == c {
      KeysMembers(s', ks, d);
      assert us[i] in us && d in s';
      if d !in s {
        var j :| 0 <= j < |us| && d == UniqueOf(us[j]);
        assert if j < i then us[j].name != us[i].name else j > i ==> us[i].name != us[j].name;
      }
    }
  }

  lemma {:induction false} UniquesDropExactlyWhen(t: Schema, us: seq<UniqueSpec>)
    requires forall i | 0 <= i < |us| :: Identified(t, UniqueOf(us[i]))
    requires forall i, j | 0 <= i < j < |us| :: us[i].name != us[j].name
    ensures DropUniques(t, us).Some? <==> forall k, u | k in t && u in us :: !ReliesOn(k, UniqueOf(u))
    decreases |us|
  {
    if us != [] {
      var n := |us| - 1;
      var c := UniqueOf(us[n]);
      assert us == us[..n] + [us[n]];
      assert Identified(t, UniqueOf(us[n])) && Named(t, c.table, c.name) == Some(c);
      if Drop(t, c.table, c.name).Some? {
        var t1 := Without(t, c);
        forall d ensures (d in t1 ==> d in t) && (d in t && d != c ==> d in t1) { WithoutKeepsOthers(t, c, d); }
        forall i | 0 <= i < n ensures Identified(t1, UniqueOf(us[..n][i])) {
          assert us[..n][i] == us[i] && Identified(t, UniqueOf(us[i]));
        }
        UniquesDropExactlyWhen(t1, us[..n]);
        assert forall k | k in t :: !ReliesOn(k, c);
        assert forall k | k in t && k.ForeignKey? :: k in t1;
      } else {
        assert exists k | k in t :: ReliesOn(k, c);
        assert us[n] in us;
      }
    }
  }

  /**
   Why `downgrade()` drops the keys first: with the keys in place, the loop over the parent
   uniques succeeds if and only if no key of the schema relies on any of them.
   */
  lemma KeysMustGoFirst(s: Schema, us: seq<UniqueSpec>, ks: seq<KeySpec>)
    requires Upgrade(s, us, ks).Some?
    ensures var t := Upgrade(s, us, ks).value;
            DropUniques(t, us).Some? <==> forall k, u | k in t && u in us :: !ReliesOn(k, UniqueOf(u))
  {
    var t := Upgrade(s, us, ks).value;
    forall i | 0 <= i < |us| ensures Identified(t, UniqueOf(us[i])) {
      UpgradeIdentifiesUniques(s, us, ks, i);
    }
    UpgradeSucceedsExactlyWhen(s, us, ks);
    hide Upgrade, Identified, FreshKeys, Covered;
    UniquesDropExactlyWhen(t, us);
  }

  // ------------------------------------------------------- the lists of revision 0015

  const ORG_ID := ["organization_id", "id"]

  function ParentUniques(): seq<UniqueSpec> {
    [UniqueSpec("properties", "uq_properties_org_id", ORG_ID),
     UniqueSpec("leads", "uq_leads_org_id", ORG_ID),
     UniqueSpec("conversations", "uq_conversations_org_id", ORG_ID),
     UniqueSpec("conversations", "uq_conversations_org_id_lead", ["organization_id", "id", "lead_id"]),
     UniqueSpec("conversations", "uq_conversations_lead_id", ["lead_id", "id"]),
     UniqueSpec("conversations", "uq_conversations_cycle_id", ["cycle_id", "id"]),
     UniqueSpec("contacts", "uq_contacts_org_id", ORG_ID),
     UniqueSpec("organization_members", "uq_members_org_id", ORG_ID),
     UniqueSpec("property_needs", "uq_needs_org_id", ORG_ID),
     UniqueSpec("opportunities", "uq_opportunities_org_id", ORG_ID),
     UniqueSpec("inbox_messages", "uq_inbox_conversation_id", ["conversation_id", "id"]),
     UniqueSpec("lead_engagement_cycles", "uq_cycles_lead_id", ["lead_id", "id"]),
     UniqueSpec("next_actions", "uq_next_actions_org_opportunity_id", ["organization_id", "opportunity_id", "id"])]
  }

  /** The referred side of each composite key, in the order of the list. */
  function ReferredSides(): seq<(string, seq<string>)> {
    [("leads", ORG_ID), ("properties", ORG_ID), ("lead_engagement_cycles", ["lead_id", "id"]),
     ("conversations", ORG_ID), ("leads", ORG_ID), ("properties", ORG_ID),
     ("conversations", ["organization_id", "id", "lead_id"]), ("contacts", ORG_ID), ("leads", ORG_ID),
     ("contacts", ORG_ID), ("property_needs", ORG_ID), ("contacts", ORG_ID), ("property_needs", ORG_ID),
     ("organization_members", ORG_ID), ("organization_members", ORG_ID), ("opportunities", ORG_ID),
     ("properties", ORG_ID), ("conversations", ORG_ID), ("inbox_messages", ["conversation_id", "id"]),
     ("opportunities", ORG_ID), ("opportunities", ORG_ID), ("organization_members", ORG_ID),
     ("opportunities", ORG_ID), ("opportunities", ORG_ID), ("organization_members", ORG_ID),
     ("next_actions", ["organization_id", "opportunity_id", "id"]), ("opportunities", ORG_ID),
     ("conversations", ["lead_id", "id"]), ("conversations", ["cycle_id", "id"])]
  }

  /** The parent unique that serves each key. */
  function Serving(): seq<nat> {
    [1, 0, 11, 2, 1, 0, 3, 6, 1, 6, 8, 6, 8, 7, 7, 9, 0, 2, 10, 9, 9, 7, 9, 9, 7, 12, 9, 4, 5]
  }

  lemma ServingIsRight(i: nat)
    requires i < |ReferredSides()|
    ensures i < |Serving()| && Serving()[i] < |ParentUniques()|
    ensures ParentUniques()[Serving()[i]].table == ReferredSides()[i].0
    ensures ParentUniques()[Serving()[i]].columns == ReferredSides()[i].1
  {
  }

  /** Revision 0015's own uniques cover all of its 29 keys, on any schema. */
  lemma RevisionIsCovered(s: Schema, ks: seq<KeySpec>)
    requires |ks| == |ReferredSides()|
    requires forall i | 0 <= i < |ks| :: (ks[i].referred, ks[i].referredColumns) == ReferredSides()[i]
    ensures Covered(s, ParentUniques(), ks)
  {
    var us := ParentUniques();
    forall k | k in ks
      ensures exists u | u in us :: u.table == k.referred && multiset(u.columns) == multiset(k.referredColumns)
    {
      var i :| 0 <= i < |ks| && ks[i] == k;
      ServingIsRight(i);
      hide ParentUniques, ReferredSides, Serving;
      assert us[Serving()[i]] in us;
    }
  }

  // -------------------------------------------------------------- the live catalogue

  class Catalogue {
    var constraints: Schema

    constructor (constraints: Schema)
      ensures this.constraints == constraints
    {
      this.constraints := constraints;
    }

    /** The two loops of `upgrade()`; a failing statement rolls the migration back. */
    method RunUpgrade(us: seq<UniqueSpec>, ks: seq<KeySpec>) returns (ok: bool)
      modifies this
      ensures ok <==> Upgrade(old(constraints), us, ks).Some?
      ensures constraints == if ok then Upgrade(old(constraints), us, ks).value else old(constraints)
    {
      var before := constraints;
      for i := 0 to |us|
        invariant CreateUniques(before, us) == CreateUniques(constraints, us[i..])
      {
        var next := CreateUnique(constraints, us[i]);
        assert us[i..][1..] == us[i + 1..];
        if next.None? {
          constraints := before;
          return false;
        }
        constraints := next.value;
      }
      ghost var middle := constraints;
      assert us[|us|..] == [];
      for i := 0 to |ks|
        invariant CreateKeys(middle, ks) == CreateKeys(constraints, ks[i..])
      {
        var next := CreateKey(constraints, ks[i]);
        assert ks[i..][1..] == ks[i + 1..];
        if next.None? {
          constraints := before;
          return false;
        }
        constraints := next.value;
      }
      assert ks[|ks|..] == [];
      return true;
    }

    /** The two reversed loops of `downgrade()`. */
    method RunDowngrade(us: seq<UniqueSpec>, ks: seq<KeySpec>) returns (ok: bool)
      modifies this
      ensures ok <==> Downgrade(old(constraints), us, ks).Some?
      ensures constraints == if ok then Downgrade(old(constraints), us, ks).value else old(constraints)
    {
      hide Drop;
      var before := constraints;
      assert ks[..|ks|] == ks && us[..|us|] == us;
      var i := |ks|;
      while i > 0
        invariant 0 <= i <= |ks|
        invariant DropKeys(before, ks) == DropKeys(constraints, ks[..i])
      {
        i := i - 1;
        assert ks[..i + 1][..i] == ks[..i];
        var next := Drop(constraints, ks[i].table, ks[i].name);
        if next.None? {
          constraints := before;
          return false;
        }
        constraints := next.value;
      }
      ghost var middle := constraints;
      i := |us|;
      while i > 0
        invariant 0 <= i <= |us|
        invariant DropUniques(middle, us) == DropUniques(constraints, us[..i])
      {
        i := i - 1;
        assert us[..i + 1][..i] == us[..i];
        var next := Drop(constraints, us[i].table, us[i].name);
        if next.None? {
          constraints := before;
          return false;
        }
        constraints := next.value;
      }
      return true;
    }
  }
}
