/**
 Certificate usage results and the session that stores them.

 The session runs without autoflush: a query sees only rows that were flushed,
 while rows just added (`pending`) and edits of stored rows (`dirty`) wait for
 the next flush.  The table's unique constraint treats a missing address as
 different from every other one, as SQL does, so it alone does not keep
 endpoints without an address unique.
 */
module UsageResults {
  import opened Options

  datatype ProbeStatus = Confirmed | Different | Unreachable | DnsFailed | TlsFailed | Timeout

  datatype Source = Inventory | CertificateSans | Manual | NetworkSighting

  function Precedence(s: Source): nat {
    match s
    case Inventory => 0
    case CertificateSans => 1
    case Manual => 2
    case NetworkSighting => 3
  }

  predicate Reachable(s: ProbeStatus) {
    s.Confirmed? || s.Different?
  }

  datatype Key = Key(certificate: nat, hostname: string, ip: Option<string>, port: int)

  /** Everything a probe reports beside its status and address. */
  datatype Evidence = Evidence(
    presented: Option<string>,
    subject: Option<string>,
    error: Option<string>,
    link: Option<nat>)

  /** One probe result on its way into the table. */
  datatype Touch = Touch(key: Key, at: int, source: Source, status: ProbeStatus, evidence: Evidence, scan: nat)

  datatype Row = Row(
    key: Key,
    source: Source,
    status: ProbeStatus,
    evidence: Evidence,
    firstSeen: int,
    lastSeen: Option<int>,
    lastChecked: int,
    scan: nat)

  function NewRow(t: Touch): Row {
    Row(t.key, t.source, t.status, t.evidence, t.at, if Reachable(t.status) then Some(t.at) else None, t.at, t.scan)
  }

  function Update(r: Row, t: Touch): Row {
    r.(source := if Precedence(t.source) > Precedence(r.source) then t.source else r.source,
       status := t.status, evidence := t.evidence, lastChecked := t.at, scan := t.scan,
       lastSeen := if Reachable(t.status) then Some(t.at) else r.lastSeen)
  }

  // ── The session ──────────────────────────────────────────────────────────

  datatype Db = Db(committed: seq<Row>, flushed: seq<Row>, pending: seq<Row>, dirty: map<nat, Row>)

  predicate Clean(db: Db) {
    db.pending == [] && db.dirty == map[]
  }

  /** The first flushed row with the key, as `filter(...).first()` finds it. */
  function Find(rows: seq<Row>, key: Key): (i: Option<nat>)
    ensures i.Some? ==> i.value < |rows| && rows[i.value].key == key
    ensures i.None? ==> forall j | 0 <= j < |rows| :: rows[j].key != key
  {
    FindFrom(rows, key, 0)
  }

  function FindFrom(rows: seq<Row>, key: Key, from: nat): (i: Option<nat>)
    requires from <= |rows|
    ensures i.Some? ==> from <= i.value < |rows| && rows[i.value].key == key
    ensures i.None? ==> forall j | from <= j < |rows| :: rows[j].key != key
    decreases |rows| - from
  {
    if from == |rows| then None
    else if rows[from].key == key then Some(from)
    else FindFrom(rows, key, from + 1)
  }

  /** Everything the upsert does before its flush. */
  function Touched(db: Db, t: Touch): Db {
    var i := Find(db.flushed, t.key);
    if i.None? then db.(pending := db.pending + [NewRow(t)])
    else
      var current := if i.value in db.dirty then db.dirty[i.value] else db.flushed[i.value];
      db.(dirty := db.dirty[i.value := Update(current, t)])
  }

  function Written(db: Db): seq<Row> {
    seq(|db.flushed|, i requires 0 <= i < |db.flushed| => if i in db.dirty then db.dirty[i] else db.flushed[i])
      + db.pending
  }

  ghost predicate ViolatesConstraint(rows: seq<Row>) {
    exists i, j | 0 <= i < j < |rows| :: rows[i].key == rows[j].key && rows[i].key.ip.Some?
  }

  /** None when the database rejects the write. */
  ghost function Flush(db: Db): Option<Db> {
    if ViolatesConstraint(Written(db)) then None
    else Some(db.(flushed := Written(db), pending := [], dirty := map[]))
  }

  function Rollback(db: Db): Db {
    Db(db.committed, db.committed, [], map[])
  }

  // ── What the table means ─────────────────────────────────────────────────

  function TouchesOf(ts: seq<Touch>, key: Key): (r: seq<Touch>)
    ensures forall t | t in r :: t.key == key && t in ts
  {
    if ts == [] then []
    else
      var init := TouchesOf(ts[..|ts| - 1], key);
      if ts[|ts| - 1].key == key then init + [ts[|ts| - 1]] else init
  }

  function Fold(ts: seq<Touch>): Row
    requires ts != []
  {
    if |ts| == 1 then NewRow(ts[0]) else Update(Fold(ts[..|ts| - 1]), ts[|ts| - 1])
  }

  /** The upsert as one step on the rows. */
  function Upsert(rows: seq<Row>, t: Touch): seq<Row> {
    var i := Find(rows, t.key);
    if i.None? then rows + [NewRow(t)] else rows[i.value := Update(rows[i.value], t)]
  }

  /** The table a history of touches builds. */
  function Table(ts: seq<Touch>): seq<Row> {
    if ts == [] then [] else Upsert(Table(ts[..|ts| - 1]), ts[|ts| - 1])
  }

  /** At most one row per endpoint, and each row the fold of the touches of its endpoint. */
  ghost predicate Represents(rows: seq<Row>, ts: seq<Touch>) {
    && UniqueKeys(rows)
    && (forall t | t in ts :: HasRow(rows, t.key))
    && (forall i | 0 <= i < |rows| :: IsFold(rows[i], ts))
  }

  ghost predicate UniqueKeys(rows: seq<Row>) {
    forall i, j | 0 <= i < j < |rows| :: rows[i].key != rows[j].key
  }

  ghost predicate HasRow(rows: seq<Row>, key: Key) {
    exists i :: 0 <= i < |rows| && rows[i].key == key
  }

  ghost predicate IsFold(row: Row, ts: seq<Touch>) {
    TouchesOf(ts, row.key) != [] && row == Fold(TouchesOf(ts, row.key))
  }

  /** The time of the last touch that reached the endpoint. */
  function LastReached(ts: seq<Touch>): Option<int> {
    if ts == [] then None
    else if Reachable(ts[|ts| - 1].status) then Some(ts[|ts| - 1].at)
    else LastReached(ts[..|ts| - 1])
  }

  /** What the fold of one endpoint's touches says, without the fold: the first
      time, the last result, the last time reached, and the first source of the
      highest precedence that ever named it. */
  lemma {:induction false} FoldMeaning(ts: seq<Touch>)
    requires ts != []
    ensures
      var r, last := Fold(ts), ts[|ts| - 1];
      && r.key == ts[0].key
      && r.firstSeen == ts[0].at
      && r.lastChecked == last.at
      && r.status == last.status
      && r.evidence == last.evidence
      && r.scan == last.scan
      && r.lastSeen == LastReached(ts)
      && (forall t | t in ts :: Precedence(t.source) <= Precedence(r.source))
      && (exists i :: 0 <= i < |ts| && ts[i].source == r.source &&
                      forall j | 0 <= j < i :: Precedence(ts[j].source) < Precedence(r.source))
  {
    var init, last := ts[..|ts| - 1], ts[|ts| - 1];
    if |ts| == 1 {
      assert LastReached(init) == None;
      assert ts[0].source == Fold(ts).source;
    } else {
      FoldMeaning(init);
      var r0, r := Fold(init), Fold(ts);
      forall t | t in ts ensures t in init || t == last {}
      var i :| 0 <= i < |init| && init[i].source == r0.source &&
               forall j | 0 <= j < i :: Precedence(init[j].source) < Precedence(r0.source);
      if Precedence(last.source) > Precedence(r0.source) {
        forall j | 0 <= j < |ts| - 1 ensures Precedence(ts[j].source) < Precedence(r.source) {
          assert ts[j] in init;
        }
        assert ts[|ts| - 1].source == r.source;
      } else {
        assert ts[i].source == r.source && forall j | 0 <= j < i :: ts[j] == init[j];
      }
    }
  }

  // ── One upsert ───────────────────────────────────────────────────────────

  lemma TouchesStep(ts: seq<Touch>, t: Touch, key: Key)
    ensures TouchesOf(ts + [t], key) == TouchesOf(ts, key) + (if t.key == key then [t] else [])
  {}

  lemma InsertRepresents(rows: seq<Row>, ts: seq<Touch>, t: Touch)
    requires Represents(rows, ts) && forall j | 0 <= j < |rows| :: rows[j].key != t.key
    ensures Represents(rows + [NewRow(t)], ts + [t])
  {
    var rows', ts' := rows + [NewRow(t)], ts + [t];
    NoTouches(rows, ts, t.key);
    forall j | 0 <= j < |rows'|
      ensures IsFold(rows'[j], ts')
    {
      TouchesStep(ts, t, rows'[j].key);
      if j < |rows| { assert rows'[j] == rows[j]; } else { assert TouchesOf(ts', t.key) == [t]; }
    }
    forall u | u in ts' ensures HasRow(rows', u.key) {
      if u in ts {
        var j :| 0 <= j < |rows| && rows[j].key == u.key;
        assert rows'[j].key == u.key;
      } else {
        assert rows'[|rows|].key == u.key;
      }
    }
  }

  lemma UpdateRepresents(rows: seq<Row>, ts: seq<Touch>, i: nat, t: Touch)
    requires Represents(rows, ts) && i < |rows| && rows[i].key == t.key
    ensures Represents(rows[i := Update(rows[i], t)], ts + [t])
  {
    var rows', ts' := rows[i := Update(rows[i], t)], ts + [t];
    assert forall j | 0 <= j < |rows| :: rows'[j].key == rows[j].key;
    forall j | 0 <= j < |rows'|
      ensures IsFold(rows'[j], ts')
    {
      TouchesStep(ts, t, rows'[j].key);
      if j == i { FoldStep(TouchesOf(ts, t.key), t); } else { assert rows'[j] == rows[j]; }
    }
    forall u | u in ts' ensures HasRow(rows', u.key) {
      if u in ts {
        var j :| 0 <= j < |rows| && rows[j].key == u.key;
        assert rows'[j].key == u.key;
      } else {
        assert rows'[i].key == u.key;
      }
    }
  }

  /** Every history: one row per endpoint ever touched, and that row the fold of its touches. */
  lemma {:induction false} TableRepresents(ts: seq<Touch>)
    ensures Represents(Table(ts), ts)
  {
    if ts != [] {
      var init, t := ts[..|ts| - 1], ts[|ts| - 1];
      TableRepresents(init);
      assert init + [t] == ts;
      var i := Find(Table(init), t.key);
      if i.None? { InsertRepresents(Table(init), init, t); } else { UpdateRepresents(Table(init), init, i.value, t); }
    }
  }

  lemma {:induction false} LastTouchOf(ts: seq<Touch>, i: nat)
    requires i < |ts|
    ensures ts[i] in TouchesOf(ts, ts[i].key)
    ensures (forall k | i < k < |ts| :: ts[k].key != ts[i].key) ==>
              var own := TouchesOf(ts, ts[i].key);
              own != [] && own[|own| - 1] == ts[i]
  {
    if i < |ts| - 1 { LastTouchOf(ts[..|ts| - 1], i); }
  }

  /** The row a touch leaves: under its key, of no lower precedence, and with what
      it brought unless a later touch was for the same endpoint. */
  lemma {:induction false} TouchStored(ts: seq<Touch>, i: nat) returns (j: nat)
    requires i < |ts|
    ensures
      var rows, t := Table(ts), ts[i];
      && j < |rows| && rows[j].key == t.key
      && Precedence(t.source) <= Precedence(rows[j].source)
      && ((forall k | i < k < |ts| :: ts[k].key != t.key) ==>
            && rows[j].status == t.status && rows[j].evidence == t.evidence
            && rows[j].lastChecked == t.at && rows[j].scan == t.scan
            && (Reachable(t.status) ==> rows[j].lastSeen == Some(t.at)))
  {
    j := RowFor(ts, i);
    LastTouchOf(ts, i);
    FoldMeaning(TouchesOf(ts, ts[i].key));
  }

  lemma {:induction false} RowFor(ts: seq<Touch>, i: nat) returns (j: nat)
    requires i < |ts|
    ensures TouchesOf(ts, ts[i].key) != []
    ensures j < |Table(ts)| && Table(ts)[j].key == ts[i].key && Table(ts)[j] == Fold(TouchesOf(ts, ts[i].key))
  {
    var rows := Table(ts);
    assert Represents(rows, ts) by { TableRepresents(ts); }
    assert ts[i] in ts && HasRow(rows, ts[i].key);
    j :| 0 <= j < |rows| && rows[j].key == ts[i].key;
    assert IsFold(rows[j], ts);
  }

  lemma WritesUpsert(db: Db, t: Touch)
    requires Clean(db)
    ensures Written(Touched(db, t)) == Upsert(db.flushed, t)
  {}

  lemma TableStep(ts: seq<Touch>, t: Touch)
    ensures Table(ts + [t]) == Upsert(Table(ts), t)
    ensures UniqueKeys(Table(ts + [t]))
  {
    assert (ts + [t])[..|ts|] == ts;
    TableRepresents(ts + [t]);
  }

  /** Record, then flush: the write is never rejected, and the table is then
      that of one touch more. */
  lemma RecordExtends(db: Db, ts: seq<Touch>, t: Touch)
    requires Clean(db) && db.flushed == Table(ts)
    ensures Flush(Touched(db, t)) == Some(db.(flushed := Table(ts + [t])))
  {
    WritesUpsert(db, t);
    TableStep(ts, t);
  }

  lemma FoldStep(ts: seq<Touch>, t: Touch)
    requires ts != []
    ensures Fold(ts + [t]) == Update(Fold(ts), t)
  {}

  lemma {:induction false} NoTouches(rows: seq<Row>, ts: seq<Touch>, key: Key)
    requires Represents(rows, ts) && !HasRow(rows, key)
    ensures TouchesOf(ts, key) == []
  {
    if TouchesOf(ts, key) != [] { TouchedKey(ts, key); }
  }

  lemma {:induction false} TouchedKey(ts: seq<Touch>, key: Key)
    requires TouchesOf(ts, key) != []
    ensures exists t :: t in ts && t.key == key
  {
    var t := TouchesOf(ts, key)[0];
    assert t in TouchesOf(ts, key);
  }

  /** Without the flush a second touch of a new endpoint does not see the first:
      the two inserts are rejected together, or, for an endpoint without an
      address, both stored. */
  lemma FlushIsNeeded(db: Db, t1: Touch, t2: Touch)
    requires Clean(db) && Find(db.flushed, t1.key).None? && t1.key == t2.key
    ensures
      var twice := Touched(Touched(db, t1), t2);
      && (t1.key.ip.Some? ==> Flush(twice).None?)
      && (Flush(twice).Some? ==> !UniqueKeys(Flush(twice).value.flushed))
  {
    var twice := Touched(Touched(db, t1), t2);
    var n := |db.flushed|;
    assert twice.pending == [NewRow(t1), NewRow(t2)];
    assert Written(twice)[n] == NewRow(t1) && Written(twice)[n + 1] == NewRow(t2);
  }

  // ── Runs of scans ────────────────────────────────────────────────────────

  /** A scan commits all its touches, or fails after some of them and is rolled back. */
  datatype Scan = Completed(touches: seq<Touch>) | Aborted(touches: seq<Touch>)

  function CommittedTouches(scans: seq<Scan>): seq<Touch> {
    if scans == [] then []
    else
      var last := scans[|scans| - 1];
      CommittedTouches(scans[..|scans| - 1]) + Kept(last)
  }

  ghost function RecordAll(db: Db, ts: seq<Touch>): Option<Db> {
    if ts == [] then Some(db)
    else
      var r := RecordAll(db, ts[..|ts| - 1]);
      if r.None? then None else Flush(Touched(r.value, ts[|ts| - 1]))
  }

  /** A rejected write is an exception like any other: the scan is rolled back. */
  ghost function RunScan(db: Db, s: Scan): Db {
    var r := RecordAll(db, s.touches);
    if s.Completed? && r.Some? then r.value.(committed := r.value.flushed) else Rollback(db)
  }

  ghost function RunScans(db: Db, scans: seq<Scan>): Db {
    if scans == [] then db else RunScan(RunScans(db, scans[..|scans| - 1]), scans[|scans| - 1])
  }

  lemma {:induction false} RecordAllExtends(db: Db, before: seq<Touch>, ts: seq<Touch>)
    requires Clean(db) && db.flushed == Table(before)
    ensures RecordAll(db, ts) == Some(db.(flushed := Table(before + ts)))
  {
    if ts == [] {
      assert before + ts == before;
    } else {
      var init, t := ts[..|ts| - 1], ts[|ts| - 1];
      assert before + init + [t] == before + ts;
      RecordAllExtends(db, before, init);
      RecordExtends(RecordAll(db, init).value, before + init, t);
    }
  }

  /** Between scans: nothing waits in the session, and the stored rows are the table of `ts`. */
  ghost predicate Settled(db: Db, ts: seq<Touch>) {
    Clean(db) && db.flushed == db.committed == Table(ts)
  }

  function Kept(s: Scan): seq<Touch> {
    if s.Completed? then s.touches else []
  }

  lemma ScanSettles(db: Db, ts: seq<Touch>, s: Scan)
    requires Settled(db, ts)
    ensures Settled(RunScan(db, s), ts + Kept(s))
  {
    RecordAllExtends(db, ts, s.touches);
    assert ts + [] == ts;
  }

  lemma {:induction false} RunSettles(db: Db, before: seq<Touch>, scans: seq<Scan>)
    requires Settled(db, before)
    ensures Settled(RunScans(db, scans), before + CommittedTouches(scans))
  {
    if scans == [] {
      assert before + [] == before;
    } else {
      var init, last := scans[..|scans| - 1], scans[|scans| - 1];
      var done := before + CommittedTouches(init);
      assert done + Kept(last) == before + CommittedTouches(scans);
      RunSettles(db, before, init);
      ScanSettles(RunScans(db, init), done, last);
    }
  }

  /** After any run of scans the stored rows are exactly the folds of the
      touches of the scans that committed; a failed scan leaves no trace. */
  lemma RunRepresents(db: Db, before: seq<Touch>, scans: seq<Scan>)
    requires Settled(db, before)
    ensures Settled(RunScans(db, scans), before + CommittedTouches(scans))
    ensures Represents(RunScans(db, scans).committed, before + CommittedTouches(scans))
  {
    RunSettles(db, before, scans);
    TableRepresents(before + CommittedTouches(scans));
  }

  // ── The imperative session ───────────────────────────────────────────────

  class Session {
    var committed: seq<Row>
    var flushed: seq<Row>
    var pending: seq<Row>
    var dirty: map<nat, Row>

    ghost function State(): Db
      reads this
    {
      Db(committed, flushed, pending, dirty)
    }

    /** Looks a row up among the flushed ones, edits or adds, then flushes.
        By RecordExtends the flush cannot be rejected, so no outcome is reported. */
    method RecordResult(t: Touch, ghost ts: seq<Touch>)
      requires Clean(State()) && flushed == Table(ts)
      modifies this
      ensures State() == old(State()).(flushed := Table(ts + [t]))
    {
      RecordExtends(State(), ts, t);
      var i := Find(flushed, t.key);
      if i.None? {
        pending := pending + [NewRow(t)];
      } else {
        dirty := dirty[i.value := Update(flushed[i.value], t)];
      }
      flushed := Written(Db(committed, flushed, pending, dirty));
      pending, dirty := [], map[];
    }

    method Commit()
      requires Clean(State())
      modifies this
      ensures State() == old(State()).(committed := old(flushed))
    {
      committed := flushed;
    }

    method RollBack()
      modifies this
      ensures State() == Rollback(old(State()))
    {
      flushed, pending, dirty := committed, [], map[];
    }

    /** The scan's transaction: records every touch and commits, or, when
        something raises after `failAfter` touches, rolls back; after all of them
        it is the commit that raises. */
    method StoreScan(touches: seq<Touch>, failAfter: Option<nat>, ghost before: seq<Touch>) returns (ok: bool)
      requires Settled(State(), before)
      modifies this
      ensures ok <==> !(failAfter.Some? && failAfter.value <= |touches|)
      ensures ok ==> Settled(State(), before + touches)
      ensures !ok ==> committed == old(committed) && Settled(State(), before)
    {
      ok := !(failAfter.Some? && failAfter.value <= |touches|);
      RecordPrefix(touches, if ok then |touches| else failAfter.value, before);
      if ok {
        assert before + touches[..|touches|] == before + touches;
        Commit();
      } else {
        RollBack();
      }
    }

    method RecordPrefix(touches: seq<Touch>, n: nat, ghost before: seq<Touch>)
      requires n <= |touches|
      requires Clean(State()) && flushed == Table(before)
      modifies this
      ensures State() == old(State()).(flushed := Table(before + touches[..n]))
    {
      ghost var stored := before;
      for i := 0 to n
        invariant Clean(State()) && flushed == Table(stored) && committed == old(committed)
        invariant stored == before + touches[..i]
      {
        RecordResult(touches[i], stored);
        stored := Extend(before, touches, i);
      }
    }
  }

  ghost function Extend(before: seq<Touch>, touches: seq<Touch>, i: nat): (r: seq<Touch>)
    requires i < |touches|
    ensures r == before + touches[..i] + [touches[i]] == before + touches[..i + 1]
  {
    before + touches[..i + 1]
  }
}
