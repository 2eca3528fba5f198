/**
 The verified, resumable copy of PostgreSQL-authorized media into the object store.

 Object stores are maps. Each row meets some weather: reads may raise, and a put may
 raise, with or without effect, or store something else. SHA-256 is any function.
 */
module MediaMigration {
  import opened Prelude

  type Bytes = seq<bv8>

  type Hash = Bytes -> string

  type Objects = map<string, Bytes>

  datatype Media = Media(key: string, checksum: string)

  /** A read answers, raises `MediaStorageError`, or raises something else. */
  datatype Reading = Answers | Refuses | Breaks

  datatype Weather = Weather(
    destinationRead: Reading, sourceReadFails: bool, putRaises: bool, stored: Option<Bytes>,
    verificationReadFails: bool)

  /** Storage that does what it is asked. */
  const CALM := Weather(Answers, false, false, None, false)

  datatype Outcome = AlreadyVerified | Copied(size: nat) | Raised

  datatype Report = Report(authoritative: nat, copied: nat, verified: nat, copiedBytes: nat)

  predicate Good(objects: Objects, m: Media, hash: Hash) {
    m.key in objects && hash(objects[m.key]) == m.checksum
  }

  /** What `put` leaves under the key, whether or not it then raises. */
  function AfterPut(destination: Objects, key: string, content: Bytes, w: Weather): Objects {
    match w.stored
    case Some(other) => destination[key := other]
    case None => if w.putRaises then destination else destination[key := content]
  }

  function MigrateOne(m: Media, source: Objects, destination: Objects, w: Weather, hash: Hash): (Objects, Outcome) {
    if w.destinationRead == Breaks then (destination, Raised)
    else if w.destinationRead == Answers && Good(destination, m, hash) then (destination, AlreadyVerified)
    else if w.sourceReadFails || !Good(source, m, hash) then (destination, Raised)
    else
      var after := AfterPut(destination, m.key, source[m.key], w);
      if w.putRaises || w.verificationReadFails || !Good(after, m, hash) then (after, Raised)
      else (after, Copied(|source[m.key]|))
  }

  datatype Progress = Progress(destination: Objects, copied: nat, verified: nat, copiedBytes: nat,
      raisedAt: Option<nat>)

  /** One turn of the loop, for row `n`; after an exception nothing more happens. */
  function Advance(p: Progress, m: Media, n: nat, source: Objects, w: Weather, hash: Hash): Progress {
    if p.raisedAt.Some? then p
    else
      match MigrateOne(m, source, p.destination, w, hash)
      case (d, AlreadyVerified) => p.(destination := d, verified := p.verified + 1)
      case (d, Copied(size)) => p.(destination := d, copied := p.copied + 1, copiedBytes := p.copiedBytes + size)
      case (d, Raised) => p.(destination := d, raisedAt := Some(n))
  }

  /** The loop, one row after the other, stopping at the first exception. */
  function Migrate(rows: seq<Media>, source: Objects, destination: Objects, ws: seq<Weather>, hash: Hash): Progress
    requires |ws| == |rows|
  {
    if rows == [] then Progress(destination, 0, 0, 0, None)
    else
      var n := |rows| - 1;
      Advance(Migrate(rows[..n], source, destination, ws[..n], hash), rows[n], n, source, ws[n], hash)
  }

  predicate UniqueKeys(rows: seq<Media>) {
    forall i, j | 0 <= i < j < |rows| :: rows[i].key != rows[j].key
  }

  // ------------------------------------------------------------------ what it did

  /** Told from the destination as it was before the run. */
  predicate NeedsCopy(m: Media, before: Objects, w: Weather, hash: Hash) {
    w.destinationRead != Answers || !Good(before, m, hash)
  }

  function CountCopies(rows: seq<Media>, before: Objects, ws: seq<Weather>, hash: Hash): nat
    requires |ws| == |rows|
  {
    if rows == [] then 0
    else
      var n := |rows| - 1;
      CountCopies(rows[..n], before, ws[..n], hash) + if NeedsCopy(rows[n], before, ws[n], hash) then 1 else 0
  }

  function SumCopies(rows: seq<Media>, source: Objects, before: Objects, ws: seq<Weather>, hash: Hash): nat
    requires |ws| == |rows|
  {
    if rows == [] then 0
    else
      var n := |rows| - 1;
      SumCopies(rows[..n], source, before, ws[..n], hash)
      + if NeedsCopy(rows[n], before, ws[n], hash) && rows[n].key in source then |source[rows[n].key]| else 0
  }

  /** Where the loop stopped: the row that raised, or the end. */
  function StopOf(p: Progress, rows: seq<Media>): nat {
    if p.raisedAt.Some? then p.raisedAt.value else |rows|
  }

  /** Row `i` was reached, if only to raise. */
  predicate Reached(p: Progress, rows: seq<Media>, i: nat) {
    i <= StopOf(p, rows) && i < |rows|
  }

  lemma {:induction false} StopIsInRange(rows: seq<Media>, source: Objects, before: Objects, ws: seq<Weather>,
        hash: Hash)
    requires |ws| == |rows|
    ensures var p := Migrate(rows, source, before, ws, hash);
            p.raisedAt.Some? ==> p.raisedAt.value < |rows|
  {
    if rows != [] {
      StopIsInRange(rows[..|rows| - 1], source, before, ws[..|rows| - 1], hash);
    }
  }

  /** A key no reached row names keeps its object, or its absence. */
  lemma {:induction false} OtherKeysAreUntouched(rows: seq<Media>, source: Objects, before: Objects, ws: seq<Weather>,
        hash: Hash, k: string)
    requires |ws| == |rows|
    requires forall i: nat | Reached(Migrate(rows, source, before, ws, hash), rows, i) :: rows[i].key != k
    ensures var after := Migrate(rows, source, before, ws, hash).destination;
            (k in after <==> k in before) && (k in before ==> after[k] == before[k])
  {
    if rows != [] {
      var n := |rows| - 1;
      var p, q := Migrate(rows, source, before, ws, hash), Migrate(rows[..n], source, before, ws[..n], hash);
      StopIsInRange(rows[..n], source, before, ws[..n], hash);
      StopMoves(q, rows[n], n, source, ws[n], hash);
      hide Advance, Good;
      forall i: nat | Reached(q, rows[..n], i) ensures rows[..n][i].key != k {
        assert Reached(p, rows, i) && rows[..n][i] == rows[i];
      }
      OtherKeysAreUntouched(rows[..n], source, before, ws[..n], hash, k);
      if q.raisedAt.None? {
        assert Reached(p, rows, n);
        OneRowElsewhere(rows[n], n, source, q, ws[n], hash, k);
      }
    }
  }

  lemma StopMoves(p: Progress, m: Media, n: nat, source: Objects, w: Weather, hash: Hash)
    ensures var q := Advance(p, m, n, source, w, hash);
            if p.raisedAt.Some? then q == p else q.raisedAt in {None, Some(n)}
  {
  }

  lemma OneRowElsewhere(m: Media, n: nat, source: Objects, p: Progress, w: Weather, hash: Hash, k: string)
    requires k != m.key
    ensures var after := Advance(p, m, n, source, w, hash).destination;
            (k in after <==> k in p.destination) && (k in p.destination ==> after[k] == p.destination[k])
  {
  }

  /** A turn that does not raise makes its own row good, and no turn spoils another key's row. */
  lemma OneRow(p: Progress, m: Media, n: nat, source: Objects, w: Weather, hash: Hash, other: Media)
    ensures var q := Advance(p, m, n, source, w, hash);
            && (q.raisedAt.None? ==> p.raisedAt.None? && Good(q.destination, m, hash))
            && (other.key != m.key ==> (Good(q.destination, other, hash) <==> Good(p.destination, other, hash)))
  {
  }

  /** Rows before the stop are good in the destination, even if a later one raised. */
  lemma {:induction false} EarlierRowsAreGood(
      rows: seq<Media>, source: Objects, before: Objects, ws: seq<Weather>, hash: Hash, i: nat)
    requires |ws| == |rows| && UniqueKeys(rows)
    requires i < StopOf(Migrate(rows, source, before, ws, hash), rows) && i < |rows|
    ensures var after := Migrate(rows, source, before, ws, hash).destination;
            rows[i].key in after && hash(after[rows[i].key]) == rows[i].checksum
    ensures Good(Migrate(rows, source, before, ws, hash).destination, rows[i], hash)
  {
    var n := |rows| - 1;
    var q := Migrate(rows[..n], source, before, ws[..n], hash);
    StopMoves(q, rows[n], n, source, ws[n], hash);
    OneRow(q, rows[n], n, source, ws[n], hash, rows[i]);
    PrefixIsUnique(rows);
    StopIsInRange(rows[..n], source, before, ws[..n], hash);
    assert i < n ==> rows[i].key != rows[n].key;
    hide Advance, Good, UniqueKeys;
    if q.raisedAt.Some? || i < n {
      assert rows[..n][i] == rows[i];
      EarlierRowsAreGood(rows[..n], source, before, ws[..n], hash, i);
    }
  }

  lemma ReportedRow(p: Progress, m: Media, n: nat, source: Objects, before: Objects, w: Weather, hash: Hash)
    requires Advance(p, m, n, source, w, hash).raisedAt.None?
    requires Good(p.destination, m, hash) <==> Good(before, m, hash)
    ensures var q := Advance(p, m, n, source, w, hash);
            && p.raisedAt.None?
            && if NeedsCopy(m, before, w, hash)
               then q.copied == p.copied + 1 && q.verified == p.verified && m.key in source
                    && q.copiedBytes == p.copiedBytes + |source[m.key]|
               else q.copied == p.copied && q.verified == p.verified + 1 && q.copiedBytes == p.copiedBytes
  {
  }

  lemma {:induction false} CountersAreExact(rows: seq<Media>, source: Objects, before: Objects, ws: seq<Weather>,
        hash: Hash)
    requires |ws| == |rows| && UniqueKeys(rows)
    requires Migrate(rows, source, before, ws, hash).raisedAt.None?
    ensures var p := Migrate(rows, source, before, ws, hash);
            && p.copied + p.verified == |rows|
            && p.copied == CountCopies(rows, before, ws, hash)
            && p.copiedBytes == SumCopies(rows, source, before, ws, hash)
  {
    if rows != [] {
      var n := |rows| - 1;
      LastRowIsUntouched(rows, source, before, ws, hash);
      ReportedRow(Migrate(rows[..n], source, before, ws[..n], hash), rows[n], n, source, before, ws[n], hash);
      PrefixIsUnique(rows);
      hide Advance, Good, NeedsCopy, UniqueKeys;
      CountersAreExact(rows[..n], source, before, ws[..n], hash);
    }
  }

  lemma PrefixIsUnique(rows: seq<Media>)
    requires UniqueKeys(rows) && rows != []
    ensures UniqueKeys(rows[..|rows| - 1])
  {
  }

  /** If it returns: every row is good, the counters are exact, and nothing else changed. */
  lemma ReturnedReportIsExact(rows: seq<Media>, source: Objects, before: Objects, ws: seq<Weather>, hash: Hash)
    requires |ws| == |rows| && UniqueKeys(rows)
    requires Migrate(rows, source, before, ws, hash).raisedAt.None?
    ensures var p := Migrate(rows, source, before, ws, hash);
            && (forall m | m in rows :: m.key in p.destination && hash(p.destination[m.key]) == m.checksum)
            && (forall k | k !in (set m | m in rows :: m.key) ::
                  (k in p.destination <==> k in before) && (k in before ==> p.destination[k] == before[k]))
            && p.copied + p.verified == |rows|
            && p.copied == CountCopies(rows, before, ws, hash)
            && p.copiedBytes == SumCopies(rows, source, before, ws, hash)
  {
    var p := Migrate(rows, source, before, ws, hash);
    CountersAreExact(rows, source, before, ws, hash);
    hide Migrate, Good, CountCopies, SumCopies;
    forall m | m in rows ensures m.key in p.destination && hash(p.destination[m.key]) == m.checksum {
      var i :| 0 <= i < |rows| && rows[i] == m;
      EarlierRowsAreGood(rows, source, before, ws, hash, i);
    }
    forall k | k !in (set m | m in rows :: m.key)
      ensures (k in p.destination <==> k in before) && (k in before ==> p.destination[k] == before[k])
    {
      forall i: nat | Reached(p, rows, i) ensures rows[i].key != k {
        assert rows[i] in rows;
      }
      OtherKeysAreUntouched(rows, source, before, ws, hash, k);
    }
  }

  lemma LastRowIsUntouched(rows: seq<Media>, source: Objects, before: Objects, ws: seq<Weather>, hash: Hash)
    requires |ws| == |rows| && UniqueKeys(rows) && rows != []
    ensures var n := |rows| - 1;
            Good(Migrate(rows[..n], source, before, ws[..n], hash).destination, rows[n], hash)
            <==> Good(before, rows[n], hash)
  {
    var n := |rows| - 1;
    assert forall i | 0 <= i < n :: rows[..n][i].key != rows[n].key;
    OtherKeysAreUntouched(rows[..n], source, before, ws[..n], hash, rows[n].key);
  }

  /** The row gets through: its destination answers and is right, or the copy of a right source goes well. */
  predicate GetsThrough(m: Media, source: Objects, before: Objects, w: Weather, hash: Hash) {
    && w.destinationRead != Breaks
    && (|| (w.destinationRead == Answers && m.key in before && hash(before[m.key]) == m.checksum)
        || (&& !w.sourceReadFails && m.key in source && hash(source[m.key]) == m.checksum
            && !w.putRaises && !w.verificationReadFails
            && (w.stored.Some? ==> hash(w.stored.value) == m.checksum)))
  }

  lemma RowGetsThrough(p: Progress, m: Media, n: nat, source: Objects, before: Objects, w: Weather, hash: Hash)
    requires Good(p.destination, m, hash) <==> Good(before, m, hash)
    ensures Advance(p, m, n, source, w, hash).raisedAt.None? <==>
            p.raisedAt.None? && GetsThrough(m, source, before, w, hash)
  {
  }

  /**
   Whatever the stores do: the migration returns if and only if every row gets through. A
   destination that refuses to be read is copied to again; one that breaks ends the loop.
   */
  lemma {:induction false} ReturnsExactlyWhen(rows: seq<Media>, source: Objects, before: Objects, ws: seq<Weather>,
        hash: Hash)
    requires |ws| == |rows| && UniqueKeys(rows)
    ensures Migrate(rows, source, before, ws, hash).raisedAt.None? <==>
            forall i | 0 <= i < |rows| :: GetsThrough(rows[i], source, before, ws[i], hash)
  {
    if rows != [] {
      var n := |rows| - 1;
      LastRowIsUntouched(rows, source, before, ws, hash);
      RowGetsThrough(Migrate(rows[..n], source, before, ws[..n], hash), rows[n], n, source, before, ws[n], hash);
      PrefixIsUnique(rows);
      hide Advance, Good, UniqueKeys, GetsThrough;
      ReturnsExactlyWhen(rows[..n], source, before, ws[..n], hash);
      forall i | 0 <= i < n ensures rows[..n][i] == rows[i] && ws[..n][i] == ws[i] {}
    }
  }

  /** Otherwise it stops at the first row that does not. */
  lemma {:induction false} StopsAtFirstFailure(rows: seq<Media>, source: Objects, before: Objects, ws: seq<Weather>,
        hash: Hash)
    requires |ws| == |rows| && UniqueKeys(rows)
    requires Migrate(rows, source, before, ws, hash).raisedAt.Some?
    ensures var i := Migrate(rows, source, before, ws, hash).raisedAt.value;
            && i < |rows| && !GetsThrough(rows[i], source, before, ws[i], hash)
            && forall j | 0 <= j < i :: GetsThrough(rows[j], source, before, ws[j], hash)
  {
    var n := |rows| - 1;
    var q := Migrate(rows[..n], source, before, ws[..n], hash);
    LastRowIsUntouched(rows, source, before, ws, hash);
    RowGetsThrough(q, rows[n], n, source, before, ws[n], hash);
    StopMoves(q, rows[n], n, source, ws[n], hash);
    PrefixIsUnique(rows);
    hide Advance, Good, UniqueKeys, GetsThrough;
    if q.raisedAt.Some? {
      StopsAtFirstFailure(rows[..n], source, before, ws[..n], hash);
    } else {
      ReturnsExactlyWhen(rows[..n], source, before, ws[..n], hash);
      forall j | 0 <= j < n ensures GetsThrough(rows[j], source, before, ws[j], hash) {
        assert rows[..n][j] == rows[j] && ws[..n][j] == ws[j];
      }
    }
  }

  function At(objects: Objects, key: string): Option<Bytes> {
    if key in objects then Some(objects[key]) else None
  }

  lemma RaisedRowHolds(p: Progress, m: Media, n: nat, source: Objects, w: Weather, hash: Hash)
    requires p.raisedAt.None? && Advance(p, m, n, source, w, hash).raisedAt.Some?
    ensures At(Advance(p, m, n, source, w, hash).destination, m.key) ==
            if w.destinationRead == Breaks || w.sourceReadFails || m.key !in source || hash(source[m.key]) != m.checksum
            then At(p.destination, m.key)
            else if w.stored.Some? then w.stored
            else if w.putRaises then At(p.destination, m.key)
            else Some(source[m.key])
  {
  }

  /**
   What the row it stopped at leaves in the destination: what was there, if no put was tried, or
   if the put raised without effect; and otherwise what the put left.
   */
  lemma {:induction false} StoppedRowHolds(rows: seq<Media>, source: Objects, before: Objects, ws: seq<Weather>,
        hash: Hash)
    requires |ws| == |rows| && UniqueKeys(rows)
    requires Migrate(rows, source, before, ws, hash).raisedAt.Some?
    ensures var p := Migrate(rows, source, before, ws, hash);
            var i := p.raisedAt.value;
            && i < |rows|
            && var m, w := rows[i], ws[i];
            At(p.destination, m.key) ==
            if w.destinationRead == Breaks || w.sourceReadFails || m.key !in source || hash(source[m.key]) != m.checksum
            then At(before, m.key)
            else if w.stored.Some? then w.stored
            else if w.putRaises then At(before, m.key)
            else Some(source[m.key])
  {
    var n := |rows| - 1;
    var q := Migrate(rows[..n], source, before, ws[..n], hash);
    StopMoves(q, rows[n], n, source, ws[n], hash);
    PrefixIsUnique(rows);
    if q.raisedAt.Some? {
      hide Advance, UniqueKeys;
      StoppedRowHolds(rows[..n], source, before, ws[..n], hash);
    } else {
      assert forall i | 0 <= i < n :: rows[..n][i].key != rows[n].key;
      hide Advance, UniqueKeys;
      OtherKeysAreUntouched(rows[..n], source, before, ws[..n], hash, rows[n].key);
      RaisedRowHolds(q, rows[n], n, source, ws[n], hash);
    }
  }

  lemma {:induction false} NothingToCopy(rows: seq<Media>, source: Objects, objects: Objects, ws: seq<Weather>,
        hash: Hash)
    requires |ws| == |rows| && forall w | w in ws :: w.destinationRead == Answers
    requires forall m | m in rows :: Good(objects, m, hash)
    ensures Migrate(rows, source, objects, ws, hash) == Progress(objects, 0, |rows|, 0, None)
  {
    if rows != [] {
      NothingToCopy(rows[..|rows| - 1], source, objects, ws[..|rows| - 1], hash);
    }
  }

  /** A rerun after success copies nothing, whatever became of the source. */
  lemma RerunCopiesNothing(rows: seq<Media>, source: Objects, before: Objects, ws: seq<Weather>, source2: Objects,
        ws2: seq<Weather>, hash: Hash)
    requires |ws| == |rows| && |ws2| == |rows| && UniqueKeys(rows)
    requires Migrate(rows, source, before, ws, hash).raisedAt.None?
    requires forall w | w in ws2 :: w.destinationRead == Answers
    ensures var after := Migrate(rows, source, before, ws, hash).destination;
            Migrate(rows, source2, after, ws2, hash) == Progress(after, 0, |rows|, 0, None)
  {
    forall m | m in rows ensures Good(Migrate(rows, source, before, ws, hash).destination, m, hash) {
      var i :| 0 <= i < |rows| && rows[i] == m;
      EarlierRowsAreGood(rows, source, before, ws, hash, i);
    }
    NothingToCopy(rows, source2, Migrate(rows, source, before, ws, hash).destination, ws2, hash);
  }

  /** After an exception at row i, a calm rerun finds the first i rows done and resumes there. */
  lemma RerunResumes(rows: seq<Media>, source: Objects, before: Objects, ws: seq<Weather>, hash: Hash)
    requires |ws| == |rows| && UniqueKeys(rows)
    requires Migrate(rows, source, before, ws, hash).raisedAt.Some?
    ensures var p := Migrate(rows, source, before, ws, hash);
            var i := p.raisedAt.value;
            && i < |rows|
            && Migrate(rows[..i], source, p.destination, seq(i, _ => CALM), hash)
                == Progress(p.destination, 0, i, 0, None)
  {
    var p := Migrate(rows, source, before, ws, hash);
    StopIsInRange(rows, source, before, ws, hash);
    var i := p.raisedAt.value;
    forall m | m in rows[..i] ensures Good(p.destination, m, hash) {
      var j :| 0 <= j < i && rows[..i][j] == m;
      EarlierRowsAreGood(rows, source, before, ws, hash, j);
    }
    NothingToCopy(rows[..i], source, p.destination, seq(i, _ => CALM), hash);
  }

  // ------------------------------------------------------------------ the live loop

  class ObjectStore {
    var objects: Objects

    constructor (objects: Objects)
      ensures this.objects == objects
    {
      this.objects := objects;
    }

    method Read(key: string, fails: bool) returns (content: Option<Bytes>)
      ensures content == if fails || key !in objects then None else Some(objects[key])
    {
      if fails || key !in objects {
        return None;
      }
      return Some(objects[key]);
    }

    method Put(key: string, content: Bytes, w: Weather) returns (ok: bool)
      modifies this
      ensures ok <==> !w.putRaises
      ensures objects == AfterPut(old(objects), key, content, w)
    {
      match w.stored {
        case Some(other) => objects := objects[key := other];
        case None => if !w.putRaises { objects := objects[key := content]; }
      }
      ok := !w.putRaises;
    }
  }

  /** The body of the loop; every exception surfaces as `Raised`. */
  method MigrateRow(m: Media, source: ObjectStore, destination: ObjectStore, w: Weather, hash: Hash)
    returns (outcome: Outcome)
    requires source != destination
    modifies destination
    ensures (destination.objects, outcome) == MigrateOne(m, source.objects, old(destination.objects), w, hash)
  {
    if w.destinationRead == Breaks {
      return Raised;
    }
    var existing := destination.Read(m.key, w.destinationRead == Refuses);
    if existing.Some? && hash(existing.value) == m.checksum {
      return AlreadyVerified;
    }
    var content := source.Read(m.key, w.sourceReadFails);
    if content.None? || hash(content.value) != m.checksum {
      return Raised;
    }
    var stored := destination.Put(m.key, content.value, w);
    if !stored {
      return Raised;
    }
    var persisted := destination.Read(m.key, w.verificationReadFails);
    if persisted.None? || hash(persisted.value) != m.checksum {
      return Raised;
    }
    return Copied(|content.value|);
  }

  /** `migrate_authoritative_media`; `None` is the raised error. */
  method MigrateAuthoritativeMedia(
    rows: seq<Media>, source: ObjectStore, destination: ObjectStore, ws: seq<Weather>, hash: Hash)
    returns (report: Option<Report>)
    requires |ws| == |rows| && source != destination
    modifies destination
    ensures var p := Migrate(rows, source.objects, old(destination.objects), ws, hash);
            && destination.objects == p.destination
            && report == if p.raisedAt.Some? then None else Some(Report(|rows|, p.copied, p.verified, p.copiedBytes))
  {
    hide MigrateOne;
    var copied: nat, verified: nat, copiedBytes: nat := 0, 0, 0;
    ghost var before := destination.objects;
    for i := 0 to |rows|
      invariant Migrate(rows[..i], source.objects, before, ws[..i], hash)
             == Progress(destination.objects, copied, verified, copiedBytes, None)
    {
      assert rows[..i + 1][..i] == rows[..i] && ws[..i + 1][..i] == ws[..i];
      var outcome := MigrateRow(rows[i], source, destination, ws[i], hash);
      match outcome {
        case AlreadyVerified => verified := verified + 1;
        case Copied(size) =>
          copied := copied + 1;
          copiedBytes := copiedBytes + size;
        case Raised =>
          StopIsFinal(rows, source.objects, before, ws, hash, i + 1);
          return None;
      }
    }
    assert rows[..|rows|] == rows && ws[..|rows|] == ws;
    return Some(Report(|rows|, copied, verified, copiedBytes));
  }

  lemma {:induction false} StopIsFinal(rows: seq<Media>, source: Objects, before: Objects, ws: seq<Weather>,
        hash: Hash, n: nat)
    requires |ws| == |rows| && n <= |rows| && Migrate(rows[..n], source, before, ws[..n], hash).raisedAt.Some?
    ensures Migrate(rows, source, before, ws, hash) == Migrate(rows[..n], source, before, ws[..n], hash)
  {
    if n < |rows| {
      var k := |rows| - 1;
      assert rows[..k][..n] == rows[..n] && ws[..k][..n] == ws[..n];
      hide Advance, Good;
      StopIsFinal(rows[..k], source, before, ws[..k], hash, n);
      StopMoves(Migrate(rows[..k], source, before, ws[..k], hash), rows[k], k, source, ws[k], hash);
    } else {
      assert rows[..n] == rows && ws[..n] == ws;
    }
  }
}
