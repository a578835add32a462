/**
 The history of certificates seen at network endpoints.  A scan updates the
 latest row of an endpoint when the same certificate is still served there and
 appends a row when it changed.  Rows added during a run are flushed only when
 a certificate new to the inventory is, or at its end; until then queries inside
 the run do not see them.
 */
module Sightings {
  import opened Options

  datatype Endpoint = Endpoint(host: string, port: int)

  datatype Sighting = Sighting(endpoint: Endpoint, cert: nat, firstSeen: int, lastSeen: int)

  /** A certificate presented at an endpoint; `added` when it entered the
      inventory with this observation. */
  datatype Observation = Observation(endpoint: Endpoint, cert: nat, at: int, added: bool)

  // ── The history of one endpoint ──────────────────────────────────────────

  datatype Period = Period(cert: nat, first: int, last: int)

  /** How many observations at the front show the same certificate as the first. */
  function SameCert(obs: seq<Observation>, cert: nat): (n: nat)
    ensures n <= |obs|
    ensures forall i | 0 <= i < n :: obs[i].cert == cert
    ensures n < |obs| ==> obs[n].cert != cert
  {
    if obs == [] || obs[0].cert != cert then 0 else 1 + SameCert(obs[1..], cert)
  }

  /** Run-length compression: each maximal run of one certificate becomes one
      period, from its first to its last observation. */
  function Compress(obs: seq<Observation>): seq<Period>
    decreases |obs|
  {
    if obs == [] then []
    else
      var n := SameCert(obs, obs[0].cert);
      [Period(obs[0].cert, obs[0].at, obs[n - 1].at)] + Compress(obs[n..])
  }

  /** What recording one more observation does to an endpoint's periods. */
  function Extend(ps: seq<Period>, o: Observation): seq<Period> {
    if ps != [] && ps[|ps| - 1].cert == o.cert
    then ps[|ps| - 1 := ps[|ps| - 1].(last := o.at)]
    else ps + [Period(o.cert, o.at, o.at)]
  }

  lemma {:induction false} SameCertAppend(obs: seq<Observation>, o: Observation, cert: nat)
    ensures SameCert(obs + [o], cert) ==
            if SameCert(obs, cert) == |obs| && o.cert == cert then |obs| + 1 else SameCert(obs, cert)
  {
    if obs == [] {
      assert (obs + [o])[1..] == [];
    } else {
      assert (obs + [o])[1..] == obs[1..] + [o];
      SameCertAppend(obs[1..], o, cert);
    }
  }

  lemma {:induction false} CompressOne(o: Observation)
    ensures Compress([o]) == [Period(o.cert, o.at, o.at)]
  {}

  lemma {:induction false} ExtendBehind(p: Period, ps: seq<Period>, o: Observation)
    requires ps != []
    ensures Extend([p] + ps, o) == [p] + Extend(ps, o)
  {}

  lemma {:induction false} CompressCut(obs: seq<Observation>, n: nat)
    requires obs != [] && n == SameCert(obs, obs[0].cert)
    ensures 1 <= n && Compress(obs) == [Period(obs[0].cert, obs[0].at, obs[n - 1].at)] + Compress(obs[n..])
  {}

  /** All observations so far show one certificate. */
  lemma {:induction false} CompressAppendToRun(obs: seq<Observation>, o: Observation)
    requires obs != [] && SameCert(obs, obs[0].cert) == |obs|
    ensures Compress(obs + [o]) == Extend(Compress(obs), o)
  {}

  /** A change lies behind the first run, and appending there is known to extend. */
  lemma {:induction false} CompressAppendBehindRun(obs: seq<Observation>, o: Observation, n: nat)
    requires obs != [] && n == SameCert(obs, obs[0].cert) < |obs|
    requires Compress(obs[n..] + [o]) == Extend(Compress(obs[n..]), o)
    ensures Compress(obs + [o]) == Extend(Compress(obs), o)
  {
    var first, rest := Period(obs[0].cert, obs[0].at, obs[n - 1].at), obs[n..];
    CompressCut(obs, n);
    CutBeforeAppended(obs, o, n);
    assert Compress(rest) != [] by { CompressCut(rest, SameCert(rest, rest[0].cert)); }
    ExtendBehind(first, Compress(rest), o);
  }

  lemma {:induction false} CutBeforeAppended(obs: seq<Observation>, o: Observation, n: nat)
    requires obs != [] && n == SameCert(obs, obs[0].cert) < |obs|
    ensures 1 <= n
    ensures Compress(obs + [o]) == [Period(obs[0].cert, obs[0].at, obs[n - 1].at)] + Compress(obs[n..] + [o])
  {
    var all := obs + [o];
    SameCertAppend(obs, o, obs[0].cert);
    assert all[0] == obs[0] && all[n - 1] == obs[n - 1];
    assert all[n..] == obs[n..] + [o];
    CompressCut(all, n);
  }

  /** Recording observations one by one builds the run-length compression. */
  lemma {:induction false} CompressAppend(obs: seq<Observation>, o: Observation)
    ensures Compress(obs + [o]) == Extend(Compress(obs), o)
    decreases |obs|
  {
    if obs == [] {
      assert obs + [o] == [o];
      CompressOne(o);
    } else {
      var n := SameCert(obs, obs[0].cert);
      if n == |obs| {
        CompressAppendToRun(obs, o);
      } else {
        CompressAppend(obs[n..], o);
        CompressAppendBehindRun(obs, o, n);
      }
    }
  }

  ghost predicate Ordered(obs: seq<Observation>) {
    forall i, j | 0 <= i < j < |obs| :: obs[i].at <= obs[j].at
  }

  /** Neighbouring periods show different certificates, and with a clock that
      never goes back they are ordered and overlap at most in their end points. */
  lemma {:induction false} PeriodsOrdered(obs: seq<Observation>)
    requires Ordered(obs)
    ensures
      var ps := Compress(obs);
      && (forall i | 0 <= i < |ps| :: ps[i].first <= ps[i].last)
      && (forall i | 0 <= i < |ps| - 1 :: ps[i].cert != ps[i + 1].cert && ps[i].last <= ps[i + 1].first)
    decreases |obs|
  {
    if obs != [] {
      var n := SameCert(obs, obs[0].cert);
      var rest := obs[n..];
      PeriodsOrdered(rest);
      var ps := Compress(obs);
      assert ps[1..] == Compress(rest);
      forall i | 0 <= i < |ps| - 1 ensures ps[i].cert != ps[i + 1].cert && ps[i].last <= ps[i + 1].first {
        if i > 0 { assert ps[i] == Compress(rest)[i - 1] && ps[i + 1] == Compress(rest)[i]; }
      }
      forall i | 0 <= i < |ps| ensures ps[i].first <= ps[i].last {
        if i > 0 { assert ps[i] == Compress(rest)[i - 1]; }
      }
    }
  }

  // ── The table ────────────────────────────────────────────────────────────

  /** The rows of one endpoint, in the order of their ids. */
  function RowsOf(rows: seq<Sighting>, e: Endpoint): seq<Period> {
    if rows == [] then []
    else
      var last := rows[|rows| - 1];
      RowsOf(rows[..|rows| - 1], e) +
      (if last.endpoint == e then [Period(last.cert, last.firstSeen, last.lastSeen)] else [])
  }

  function ObservedAt(log: seq<Observation>, e: Endpoint): seq<Observation> {
    if log == [] then []
    else ObservedAt(log[..|log| - 1], e) + (if log[|log| - 1].endpoint == e then [log[|log| - 1]] else [])
  }

  /** The row of the endpoint with the greatest id. */
  function Latest(rows: seq<Sighting>, e: Endpoint): Option<nat> {
    LatestBelow(rows, e, |rows|)
  }

  function LatestBelow(rows: seq<Sighting>, e: Endpoint, n: nat): (i: Option<nat>)
    requires n <= |rows|
    ensures i.Some? ==> i.value < n && rows[i.value].endpoint == e
    ensures i.Some? ==> forall j | i.value < j < n :: rows[j].endpoint != e
    ensures i.None? ==> forall j | 0 <= j < n :: rows[j].endpoint != e
  {
    if n == 0 then None
    else if rows[n - 1].endpoint == e then Some(n - 1)
    else LatestBelow(rows, e, n - 1)
  }

  /** One sighting inside a run: `rows` are flushed, `pending` are not. */
  datatype Table = Table(rows: seq<Sighting>, pending: seq<Sighting>)

  function Record(t: Table, o: Observation): Table {
    Upsert(if o.added then Flushed(t) else t, o)
  }

  function Flushed(t: Table): Table {
    Table(t.rows + t.pending, [])
  }

  function Upsert(t: Table, o: Observation): Table {
    var i := Latest(t.rows, o.endpoint);
    if i.Some? && t.rows[i.value].cert == o.cert
    then t.(rows := t.rows[i.value := t.rows[i.value].(lastSeen := o.at)])
    else t.(pending := t.pending + [Sighting(o.endpoint, o.cert, o.at, o.at)])
  }

  function RecordAll(t: Table, obs: seq<Observation>): Table {
    if obs == [] then t else Record(RecordAll(t, obs[..|obs| - 1]), obs[|obs| - 1])
  }

  /** A whole run: everything recorded, then committed. */
  function RunScan(rows: seq<Sighting>, obs: seq<Observation>): seq<Sighting> {
    var t := RecordAll(Table(rows, []), obs);
    t.rows + t.pending
  }

  function Logged(runs: seq<seq<Observation>>): seq<Observation> {
    if runs == [] then [] else Logged(runs[..|runs| - 1]) + runs[|runs| - 1]
  }

  function RunScans(rows: seq<Sighting>, runs: seq<seq<Observation>>): seq<Sighting> {
    if runs == [] then rows else RunScan(RunScans(rows, runs[..|runs| - 1]), runs[|runs| - 1])
  }

  ghost predicate DistinctEndpoints(obs: seq<Observation>) {
    forall i, j | 0 <= i < j < |obs| :: obs[i].endpoint != obs[j].endpoint
  }

  // ── Rows and observations by endpoint ────────────────────────────────────

  lemma {:induction false} RowsOfConcat(a: seq<Sighting>, b: seq<Sighting>, e: Endpoint)
    ensures RowsOf(a + b, e) == RowsOf(a, e) + RowsOf(b, e)
  {
    if b == [] {
      assert a + b == a;
    } else {
      assert (a + b)[..|a + b| - 1] == a + b[..|b| - 1];
      RowsOfConcat(a, b[..|b| - 1], e);
    }
  }

  /** Updating the latest row of an endpoint changes its last period and no other endpoint. */
  lemma {:induction false} UpdateLatest(rows: seq<Sighting>, i: nat, at: int, e: Endpoint)
    requires i < |rows| && forall j | i < j < |rows| :: rows[j].endpoint != rows[i].endpoint
    ensures
      var ps, ps' := RowsOf(rows, e), RowsOf(rows[i := rows[i].(lastSeen := at)], e);
      if rows[i].endpoint == e
      then ps != [] && ps[|ps| - 1].cert == rows[i].cert && ps' == ps[|ps| - 1 := ps[|ps| - 1].(last := at)]
      else ps' == ps
  {
    var rows' := rows[i := rows[i].(lastSeen := at)];
    var n := |rows| - 1;
    if i < n {
      UpdateLatest(rows[..n], i, at, e);
      assert rows'[..n] == rows[..n][i := rows[i].(lastSeen := at)];
    } else {
      assert rows'[..n] == rows[..n];
    }
  }

  lemma {:induction false} NoRows(rows: seq<Sighting>, e: Endpoint)
    requires forall j | 0 <= j < |rows| :: rows[j].endpoint != e
    ensures RowsOf(rows, e) == []
  {
    if rows != [] { NoRows(rows[..|rows| - 1], e); }
  }

  lemma {:induction false} LastOfLatest(rows: seq<Sighting>, i: nat)
    requires i < |rows| && forall j | i < j < |rows| :: rows[j].endpoint != rows[i].endpoint
    ensures
      var ps := RowsOf(rows, rows[i].endpoint);
      ps != [] && ps[|ps| - 1].cert == rows[i].cert
  {
    if i < |rows| - 1 { LastOfLatest(rows[..|rows| - 1], i); }
  }

  // ── One endpoint's share of the table ────────────────────────────────────

  /** The flushed and the pending rows of one endpoint. */
  datatype Lane = Lane(rows: seq<Period>, pending: seq<Period>)

  function Whole(l: Lane): seq<Period> {
    l.rows + l.pending
  }

  function LaneOf(t: Table, e: Endpoint): Lane {
    Lane(RowsOf(t.rows, e), RowsOf(t.pending, e))
  }

  function LaneUpsert(l: Lane, o: Observation): Lane {
    var n := |l.rows| - 1;
    if l.rows != [] && l.rows[n].cert == o.cert then l.(rows := l.rows[n := l.rows[n].(last := o.at)])
    else l.(pending := l.pending + [Period(o.cert, o.at, o.at)])
  }

  function LaneRecord(l: Lane, o: Observation, e: Endpoint): Lane {
    var l1 := if o.added then Lane(Whole(l), []) else l;
    if o.endpoint == e then LaneUpsert(l1, o) else l1
  }

  function LaneAll(l: Lane, obs: seq<Observation>, e: Endpoint): Lane {
    if obs == [] then l else LaneRecord(LaneAll(l, obs[..|obs| - 1], e), obs[|obs| - 1], e)
  }

  lemma {:induction false} UpsertOnLane(t: Table, o: Observation, e: Endpoint)
    ensures LaneOf(Upsert(t, o), e) == if o.endpoint == e then LaneUpsert(LaneOf(t, e), o) else LaneOf(t, e)
  {
    var i := Latest(t.rows, o.endpoint);
    if i.Some? { LastOfLatest(t.rows, i.value); } else { NoRows(t.rows, o.endpoint); }
    if i.Some? && t.rows[i.value].cert == o.cert {
      UpdateLatest(t.rows, i.value, o.at, e);
    } else {
      AddOnLane(t.pending, Sighting(o.endpoint, o.cert, o.at, o.at), e);
    }
  }

  lemma {:induction false} AddOnLane(rows: seq<Sighting>, added: Sighting, e: Endpoint)
    ensures RowsOf(rows + [added], e) ==
            RowsOf(rows, e) +
            if added.endpoint == e then [Period(added.cert, added.firstSeen, added.lastSeen)] else []
  {
    assert (rows + [added])[..|rows|] == rows;
  }

  /** Recording acts on each endpoint's share by itself. */
  lemma {:induction false} RecordOnLane(t: Table, o: Observation, e: Endpoint)
    ensures LaneOf(Record(t, o), e) == LaneRecord(LaneOf(t, e), o, e)
  {
    RowsOfConcat(t.rows, t.pending, e);
    UpsertOnLane(if o.added then Flushed(t) else t, o, e);
  }

  /** Recording an observation of an endpoint without pending rows extends its
      periods, and leaves every other endpoint alone. */
  lemma {:induction false} RecordExtends(t: Table, o: Observation, e: Endpoint)
    requires o.added || LaneOf(t, o.endpoint).pending == []
    ensures Whole(LaneOf(Record(t, o), e)) ==
            if e == o.endpoint then Extend(Whole(LaneOf(t, e)), o) else Whole(LaneOf(t, e))
  {
    var l := LaneOf(t, e);
    assert LaneOf(Record(t, o), e) == LaneRecord(l, o, e) by { RecordOnLane(t, o, e); }
    FlushKeepsWhole(l);
    if e == o.endpoint { UpsertExtends(if o.added then Lane(Whole(l), []) else l, o); }
  }

  lemma {:induction false} UpsertExtends(l: Lane, o: Observation)
    requires l.pending == []
    ensures Whole(LaneUpsert(l, o)) == Extend(Whole(l), o)
  {
    assert Whole(l) == l.rows;
  }

  lemma {:induction false} RecordAllOnLane(t: Table, obs: seq<Observation>, e: Endpoint)
    ensures LaneOf(RecordAll(t, obs), e) == LaneAll(LaneOf(t, e), obs, e)
  {
    if obs != [] {
      RecordAllOnLane(t, obs[..|obs| - 1], e);
      RecordOnLane(RecordAll(t, obs[..|obs| - 1]), obs[|obs| - 1], e);
    }
  }

  lemma {:induction false} RunOnLane(rows: seq<Sighting>, obs: seq<Observation>, e: Endpoint)
    ensures RowsOf(RunScan(rows, obs), e) == Whole(LaneAll(Lane(RowsOf(rows, e), []), obs, e))
  {
    var t := RecordAll(Table(rows, []), obs);
    RecordAllOnLane(Table(rows, []), obs, e);
    RowsOfConcat(t.rows, t.pending, e);
  }

  // ── When a run is compressed ─────────────────────────────────────────────

  /** What an endpoint shows within a piece of a run: pieces begin where the
      session is flushed, at the start of the run and at each certificate new to
      the inventory.  `base` was seen there last before the piece, `certs` in it. */
  datatype View = View(base: Option<nat>, certs: seq<nat>)

  function LastIn(v: View): Option<nat> {
    if v.certs == [] then v.base else Some(v.certs[|v.certs| - 1])
  }

  function ViewStep(v: View, o: Observation, e: Endpoint): View {
    var v1 := if o.added then View(LastIn(v), []) else v;
    if o.endpoint == e then v1.(certs := v1.certs + [o.cert]) else v1
  }

  /** The piece that ends a run of observations, for an endpoint that showed `before` last. */
  function ViewOf(before: Option<nat>, obs: seq<Observation>, e: Endpoint): View {
    if obs == [] then View(before, []) else ViewStep(ViewOf(before, obs[..|obs| - 1], e), obs[|obs| - 1], e)
  }

  /** First the certificate from before the piece, any number of times; from
      then on others, each different from the one before it. */
  ghost predicate Settles(v: View) {
    exists k: nat :: SettlesAt(v, k)
  }

  ghost predicate SettlesAt(v: View, k: nat) {
    && k <= |v.certs|
    && (forall i | 0 <= i < k :: Some(v.certs[i]) == v.base)
    && (forall i | k <= i < |v.certs| :: Some(v.certs[i]) != v.base)
    && (forall i | k <= i < |v.certs| - 1 :: v.certs[i] != v.certs[i + 1])
  }

  /** Every piece of the run does. */
  ghost predicate Steady(before: Option<nat>, obs: seq<Observation>, e: Endpoint) {
    && Settles(ViewOf(before, obs, e))
    && (obs != [] ==> Steady(before, obs[..|obs| - 1], e))
  }

  ghost predicate AllBase(v: View) {
    forall c | c in v.certs :: Some(c) == v.base
  }

  /** One certificate more in a piece. */
  lemma {:induction false} SettlesStep(v: View, c: nat)
    ensures Settles(v.(certs := v.certs + [c])) <==>
              Settles(v) && (AllBase(v) || (Some(c) != v.base && Some(c) != LastIn(v)))
  {
    var n, v' := |v.certs|, v.(certs := v.certs + [c]);
    if Settles(v') {
      var k: nat :| SettlesAt(v', k);
      SettlesDown(v, c, k);
    }
    if Settles(v) {
      var k: nat :| SettlesAt(v, k);
      if AllBase(v) {
        assert forall i | 0 <= i < n :: v.certs[i] in v.certs;
        assert SettlesAt(v', if Some(c) == v.base then n + 1 else n);
      } else if Some(c) != v.base && Some(c) != LastIn(v) {
        assert SettlesAt(v', k);
      }
    }
  }

  lemma {:induction false} SettlesDown(v: View, c: nat, k: nat)
    requires SettlesAt(v.(certs := v.certs + [c]), k)
    ensures Settles(v)
    ensures AllBase(v) || (Some(c) != v.base && Some(c) != LastIn(v))
  {
    var n, certs' := |v.certs|, v.certs + [c];
    assert forall i | 0 <= i < n :: certs'[i] == v.certs[i];
    assert certs'[n] == c;
    if k <= n {
      assert SettlesAt(v, k);
      if k < n { assert certs'[n - 1] != certs'[n]; }
    } else {
      assert SettlesAt(v, n);
    }
  }

  function LastCert(ps: seq<Period>): Option<nat> {
    if ps == [] then None else Some(ps[|ps| - 1].cert)
  }

  /** While a run is steady, the endpoint's rows tell its view. */
  ghost predicate Tracks(l: Lane, v: View) {
    && LastCert(l.rows) == v.base
    && LastCert(Whole(l)) == LastIn(v)
    && (l.pending == [] <==> AllBase(v))
  }

  lemma {:induction false} TracksFlush(l: Lane, v: View)
    requires Tracks(l, v)
    ensures Tracks(Lane(Whole(l), []), View(LastIn(v), []))
  {
    assert Whole(l) + [] == Whole(l);
  }

  /** An upsert that the view allows extends the periods, and is tracked. */
  lemma {:induction false} UpsertTracks(l: Lane, v: View, o: Observation)
    requires Tracks(l, v) && Settles(v.(certs := v.certs + [o.cert]))
    ensures Whole(LaneUpsert(l, o)) == Extend(Whole(l), o)
    ensures Tracks(LaneUpsert(l, o), v.(certs := v.certs + [o.cert]))
  {
    SettlesStep(v, o.cert);
    assert o.cert in v.certs + [o.cert];
    assert forall c | c in v.certs + [o.cert] :: c in v.certs || c == o.cert;
    assert forall c | c in v.certs :: c in v.certs + [o.cert];
  }

  lemma {:induction false} FlushKeepsWhole(l: Lane)
    ensures Whole(Lane(Whole(l), [])) == Whole(l)
  {}

  lemma {:induction false} CompressLast(obs: seq<Observation>)
    requires obs != []
    ensures LastCert(Compress(obs)) == Some(obs[|obs| - 1].cert)
  {
    var init, o := obs[..|obs| - 1], obs[|obs| - 1];
    assert obs == init + [o];
    CompressAppend(init, o);
  }

  function LastSeen(seen: seq<Observation>): Option<nat> {
    if seen == [] then None else Some(seen[|seen| - 1].cert)
  }

  lemma {:induction false} ObservedConcat(a: seq<Observation>, b: seq<Observation>, e: Endpoint)
    ensures ObservedAt(a + b, e) == ObservedAt(a, e) + ObservedAt(b, e)
  {
    if b == [] {
      assert a + b == a;
    } else {
      assert (a + b)[..|a + b| - 1] == a + b[..|b| - 1];
      ObservedConcat(a, b[..|b| - 1], e);
    }
  }

  /** A steady run is compressed, by whatever clock. */
  lemma {:induction false} SteadyCompresses(seen: seq<Observation>, obs: seq<Observation>, e: Endpoint)
    requires Steady(LastSeen(seen), obs, e)
    ensures
      var l := LaneAll(Lane(Compress(seen), []), obs, e);
      Whole(l) == Compress(seen + ObservedAt(obs, e)) && Tracks(l, ViewOf(LastSeen(seen), obs, e))
  {
    if obs == [] {
      assert seen + [] == seen;
      if seen != [] { CompressLast(seen); }
    } else {
      var init, o := obs[..|obs| - 1], obs[|obs| - 1];
      SteadyCompresses(seen, init, e);
      SteadyStep(LaneAll(Lane(Compress(seen), []), init, e), ViewOf(LastSeen(seen), init, e),
                 seen + ObservedAt(init, e), o, e);
      Assoc(seen, ObservedAt(init, e), if o.endpoint == e then [o] else []);
    }
  }

  lemma Assoc(a: seq<Observation>, b: seq<Observation>, c: seq<Observation>)
    ensures a + (b + c) == a + b + c
  {}

  lemma {:induction false} SteadyStep(l: Lane, v: View, seen: seq<Observation>, o: Observation, e: Endpoint)
    requires Tracks(l, v) && Whole(l) == Compress(seen) && Settles(ViewStep(v, o, e))
    ensures Whole(LaneRecord(l, o, e)) == Compress(seen + if o.endpoint == e then [o] else [])
    ensures Tracks(LaneRecord(l, o, e), ViewStep(v, o, e))
  {
    TracksFlush(l, v);
    FlushKeepsWhole(l);
    if o.endpoint == e {
      var l1, v1 := if o.added then Lane(Whole(l), []) else l, if o.added then View(LastIn(v), []) else v;
      UpsertTracks(l1, v1, o);
      CompressAppend(seen, o);
    } else {
      assert seen + [] == seen;
    }
  }

  // ── When it is not ───────────────────────────────────────────────────────

  /** Two neighbouring rows that show one certificate, or overlap. */
  ghost predicate Broken(ps: seq<Period>) {
    exists i :: 0 <= i < |ps| - 1 && (ps[i].cert == ps[i + 1].cert || ps[i + 1].first <= ps[i].last)
  }

  ghost predicate Before(ps: seq<Period>, at: int) {
    forall p | p in ps :: p.first < at && p.last < at
  }

  ghost predicate Strict(obs: seq<Observation>) {
    forall i, j | 0 <= i < j < |obs| :: obs[i].at < obs[j].at
  }

  lemma {:induction false} CompressNotBroken(obs: seq<Observation>)
    requires Strict(obs)
    ensures !Broken(Compress(obs))
    decreases |obs|
  {
    if obs != [] {
      var n := SameCert(obs, obs[0].cert);
      CompressCut(obs, n);
      if n < |obs| {
        CompressNotBroken(obs[n..]);
        CompressCut(obs[n..], SameCert(obs[n..], obs[n].cert));
        NotBrokenBehind(Period(obs[0].cert, obs[0].at, obs[n - 1].at), Compress(obs[n..]));
      }
    }
  }

  lemma {:induction false} NotBrokenBehind(p: Period, ps: seq<Period>)
    requires ps != [] && !Broken(ps) && p.cert != ps[0].cert && p.last < ps[0].first
    ensures !Broken([p] + ps)
  {
    var all := [p] + ps;
    forall i | 0 <= i < |all| - 1 ensures all[i].cert != all[i + 1].cert && all[i].last < all[i + 1].first {
      if i > 0 { assert all[i] == ps[i - 1] && all[i + 1] == ps[i]; }
    }
  }

  /** Whatever is recorded later, a broken endpoint stays broken. */
  lemma {:induction false} UpsertKeepsBroken(l: Lane, o: Observation)
    requires Broken(Whole(l)) && Before(Whole(l), o.at)
    ensures Broken(Whole(LaneUpsert(l, o)))
  {
    var ps, ps' := Whole(l), Whole(LaneUpsert(l, o));
    var i :| 0 <= i < |ps| - 1 && (ps[i].cert == ps[i + 1].cert || ps[i + 1].first <= ps[i].last);
    assert ps[i + 1] in ps;
    UpsertAt(l, o, i);
    UpsertAt(l, o, i + 1);
    assert ps'[i].cert == ps'[i + 1].cert || ps'[i + 1].first <= ps'[i].last;
  }

  lemma {:induction false} UpsertAt(l: Lane, o: Observation, i: nat)
    requires i < |Whole(l)|
    ensures
      var ps, ps' := Whole(l), Whole(LaneUpsert(l, o));
      && |ps| <= |ps'|
      && (ps'[i] == ps[i] || ps'[i] == ps[i].(last := o.at))
  {}

  /** An upsert that the view does not allow breaks the endpoint. */
  lemma {:induction false} UpsertBreaks(l: Lane, v: View, o: Observation)
    requires Tracks(l, v) && Settles(v) && !Settles(v.(certs := v.certs + [o.cert])) && Before(Whole(l), o.at)
    ensures Broken(Whole(LaneUpsert(l, o)))
  {
    SettlesStep(v, o.cert);
    var n, ps' := |l.rows|, Whole(LaneUpsert(l, o));
    if l.rows != [] && l.rows[n - 1].cert == o.cert {
      assert ps'[n - 1].last == o.at && ps'[n] == l.pending[0];
      assert Whole(l)[n] in Whole(l);
    } else {
      var m := |Whole(l)|;
      assert ps'[m - 1].cert == ps'[m].cert;
    }
  }

  lemma {:induction false} LaneBefore(l: Lane, obs: seq<Observation>, e: Endpoint, at: int)
    requires Before(Whole(l), at) && forall o | o in obs :: o.at < at
    ensures Before(Whole(LaneAll(l, obs, e)), at)
  {
    if obs != [] {
      var init, o := obs[..|obs| - 1], obs[|obs| - 1];
      assert o in obs;
      LaneBefore(l, init, e, at);
      RecordBefore(LaneAll(l, init, e), o, e, at);
    }
  }

  lemma {:induction false} RecordBefore(l: Lane, o: Observation, e: Endpoint, at: int)
    requires Before(Whole(l), at) && o.at < at
    ensures Before(Whole(LaneRecord(l, o, e)), at)
  {
    FlushKeepsWhole(l);
    if o.endpoint == e { UpsertBefore(if o.added then Lane(Whole(l), []) else l, o, at); }
  }

  lemma {:induction false} UpsertBefore(l: Lane, o: Observation, at: int)
    requires Before(Whole(l), at) && o.at < at
    ensures Before(Whole(LaneUpsert(l, o)), at)
  {
    var ps, ps' := Whole(l), Whole(LaneUpsert(l, o));
    forall i | 0 <= i < |ps'| ensures ps'[i].first < at && ps'[i].last < at {
      if i < |ps| {
        assert ps[i] in ps;
        UpsertAt(l, o, i);
      }
    }
  }

  lemma {:induction false} BrokenStays(l: Lane, obs: seq<Observation>, e: Endpoint)
    requires Broken(Whole(l)) && Strict(obs) && forall o | o in obs :: Before(Whole(l), o.at)
    ensures Broken(Whole(LaneAll(l, obs, e)))
  {
    if obs != [] {
      var init, o := obs[..|obs| - 1], obs[|obs| - 1];
      assert o in obs && forall x | x in init :: x in obs;
      BrokenStays(l, init, e);
      InitBefore(l, obs, e);
      RecordKeepsBroken(LaneAll(l, init, e), o, e);
    }
  }

  lemma {:induction false} RecordKeepsBroken(l: Lane, o: Observation, e: Endpoint)
    requires Broken(Whole(l)) && Before(Whole(l), o.at)
    ensures Broken(Whole(LaneRecord(l, o, e)))
  {
    FlushKeepsWhole(l);
    if o.endpoint == e { UpsertKeepsBroken(if o.added then Lane(Whole(l), []) else l, o); }
  }

  lemma {:induction false} InitBefore(l: Lane, obs: seq<Observation>, e: Endpoint)
    requires obs != [] && Strict(obs) && Before(Whole(l), obs[|obs| - 1].at)
    ensures Before(Whole(LaneAll(l, obs[..|obs| - 1], e)), obs[|obs| - 1].at)
  {
    LaneBefore(l, obs[..|obs| - 1], e, obs[|obs| - 1].at);
  }

  /** A run that is not steady leaves the endpoint broken. */
  lemma {:induction false} UnsteadyBreaks(seen: seq<Observation>, obs: seq<Observation>, e: Endpoint)
    requires Strict(obs) && !Steady(LastSeen(seen), obs, e)
    requires forall o | o in obs :: Before(Compress(seen), o.at)
    ensures Broken(Whole(LaneAll(Lane(Compress(seen), []), obs, e)))
  {
    var l0 := Lane(Compress(seen), []);
    assert Whole(l0) == Compress(seen);
    if obs == [] {
      assert SettlesAt(View(LastSeen(seen), []), 0);
    } else {
      var init, o := obs[..|obs| - 1], obs[|obs| - 1];
      assert o in obs && forall x | x in init :: x in obs;
      InitBefore(l0, obs, e);
      var l := LaneAll(l0, init, e);
      if Steady(LastSeen(seen), init, e) {
        SteadyCompresses(seen, init, e);
        StepBreaks(l, ViewOf(LastSeen(seen), init, e), o, e);
      } else {
        UnsteadyBreaks(seen, init, e);
        RecordKeepsBroken(l, o, e);
      }
    }
  }

  lemma {:induction false} StepBreaks(l: Lane, v: View, o: Observation, e: Endpoint)
    requires Tracks(l, v) && Settles(v) && !Settles(ViewStep(v, o, e)) && Before(Whole(l), o.at)
    ensures Broken(Whole(LaneRecord(l, o, e)))
  {
    TracksFlush(l, v);
    FlushKeepsWhole(l);
    assert SettlesAt(View(LastIn(v), []), 0);
    UpsertBreaks(if o.added then Lane(Whole(l), []) else l, if o.added then View(LastIn(v), []) else v, o);
  }

  lemma {:induction false} CompressBefore(seen: seq<Observation>, at: int)
    requires forall o | o in seen :: o.at < at
    ensures Before(Compress(seen), at)
  {
    if seen != [] {
      var init, o := seen[..|seen| - 1], seen[|seen| - 1];
      assert seen == init + [o] && o in seen;
      CompressBefore(init, at);
      CompressAppend(init, o);
      ExtendBefore(Compress(init), o, at);
    }
  }

  lemma {:induction false} ExtendBefore(ps: seq<Period>, o: Observation, at: int)
    requires Before(ps, at) && o.at < at
    ensures Before(Extend(ps, o), at)
  {
    var ps' := Extend(ps, o);
    forall i | 0 <= i < |ps'| ensures ps'[i].first < at && ps'[i].last < at {
      if i < |ps| { assert ps[i] in ps; }
    }
  }

  /** One run on a table that compresses what was seen so far at an endpoint:
      it still does afterwards exactly when the run is steady there, judged by the
      endpoint's latest row. */
  lemma {:induction false} RunCompressesIff(rows: seq<Sighting>, seen: seq<Observation>, obs: seq<Observation>,
                                            e: Endpoint)
    requires RowsOf(rows, e) == Compress(seen) && Strict(seen + obs)
    ensures RowsOf(RunScan(rows, obs), e) == Compress(seen + ObservedAt(obs, e))
            <==> Steady(LastCert(RowsOf(rows, e)), obs, e)
  {
    SplitStrict(seen, obs);
    if seen != [] { CompressLast(seen); }
    RunOnLane(rows, obs, e);
    if Steady(LastSeen(seen), obs, e) {
      SteadyCompresses(seen, obs, e);
    } else {
      forall o | o in obs ensures Before(Compress(seen), o.at) { CompressBefore(seen, o.at); }
      UnsteadyBreaks(seen, obs, e);
      StrictlySeen(seen, obs, e);
      CompressNotBroken(seen + ObservedAt(obs, e));
    }
  }

  lemma {:induction false} StrictlySeen(seen: seq<Observation>, obs: seq<Observation>, e: Endpoint)
    requires Strict(seen + obs)
    ensures Strict(seen + ObservedAt(obs, e))
  {
    SplitStrict(seen, obs);
    ObservedStrict(obs, e);
    var all, at := seen + ObservedAt(obs, e), ObservedAt(obs, e);
    forall i, j | 0 <= i < j < |all| ensures all[i].at < all[j].at {
      if i < |seen| <= j { assert seen[i] in seen && at[j - |seen|] in at; }
    }
  }

  // ── Histories ────────────────────────────────────────────────────────────

  /** Every run of the history is steady at the endpoint, each judged by what was seen there before it. */
  ghost predicate SteadyRuns(runs: seq<seq<Observation>>, e: Endpoint) {
    runs != [] ==>
      var init := runs[..|runs| - 1];
      SteadyRuns(init, e) && Steady(LastSeen(ObservedAt(Logged(init), e)), runs[|runs| - 1], e)
  }

  /** A history of steady runs is compressed, by whatever clock. */
  lemma {:induction false} SteadyHistory(runs: seq<seq<Observation>>, e: Endpoint)
    requires SteadyRuns(runs, e)
    ensures RowsOf(RunScans([], runs), e) == Compress(ObservedAt(Logged(runs), e))
  {
    if runs != [] {
      var init, last := runs[..|runs| - 1], runs[|runs| - 1];
      SteadyHistory(init, e);
      SteadyCompresses(ObservedAt(Logged(init), e), last, e);
      RunOnLane(RunScans([], init), last, e);
      ObservedConcat(Logged(init), last, e);
    }
  }

  lemma {:induction false} HistoryBefore(runs: seq<seq<Observation>>, e: Endpoint, at: int)
    requires forall o | o in Logged(runs) :: o.at < at
    ensures Before(RowsOf(RunScans([], runs), e), at)
  {
    if runs != [] {
      var init, last := runs[..|runs| - 1], runs[|runs| - 1];
      assert forall o | o in Logged(init) || o in last :: o in Logged(runs);
      HistoryBefore(init, e, at);
      var l := Lane(RowsOf(RunScans([], init), e), []);
      assert Whole(l) == l.rows;
      LaneBefore(l, last, e, at);
      RunOnLane(RunScans([], init), last, e);
    }
  }

  lemma {:induction false} SplitStrict(a: seq<Observation>, b: seq<Observation>)
    requires Strict(a + b)
    ensures Strict(a) && Strict(b)
    ensures forall x, y | x in a && y in b :: x.at < y.at
  {
    var all := a + b;
    assert forall i | 0 <= i < |a| :: all[i] == a[i];
    assert forall j | 0 <= j < |b| :: all[|a| + j] == b[j];
    forall x, y | x in a && y in b ensures x.at < y.at {
      var i :| 0 <= i < |a| && a[i] == x;
      var j :| 0 <= j < |b| && b[j] == y;
      assert all[i].at < all[|a| + j].at;
    }
  }

  lemma {:induction false} UnsteadyHistory(runs: seq<seq<Observation>>, e: Endpoint)
    requires Strict(Logged(runs)) && !SteadyRuns(runs, e)
    ensures Broken(RowsOf(RunScans([], runs), e))
  {
    var init, last := runs[..|runs| - 1], runs[|runs| - 1];
    SplitStrict(Logged(init), last);
    forall o | o in last ensures Before(RowsOf(RunScans([], init), e), o.at) { HistoryBefore(init, e, o.at); }
    RunOnLane(RunScans([], init), last, e);
    var l := Lane(RowsOf(RunScans([], init), e), []);
    assert Whole(l) == l.rows;
    if SteadyRuns(init, e) {
      SteadyHistory(init, e);
      UnsteadyBreaks(ObservedAt(Logged(init), e), last, e);
    } else {
      UnsteadyHistory(init, e);
      BrokenStays(l, last, e);
    }
  }

  /** Exactly when an endpoint's rows are the run-length compression of what was
      observed there, for every history with a strictly increasing clock: when
      each piece of each run shows first the certificate from before it, and then
      others that change every time.  Whatever is stored and observed later, a run
      that does not is never made good. */
  lemma {:induction false} HistoryCompressesIff(runs: seq<seq<Observation>>, e: Endpoint)
    requires Strict(Logged(runs))
    ensures RowsOf(RunScans([], runs), e) == Compress(ObservedAt(Logged(runs), e)) <==> SteadyRuns(runs, e)
    ensures Broken(RowsOf(RunScans([], runs), e)) <==> !SteadyRuns(runs, e)
  {
    ObservedStrict(Logged(runs), e);
    CompressNotBroken(ObservedAt(Logged(runs), e));
    if SteadyRuns(runs, e) { SteadyHistory(runs, e); } else { UnsteadyHistory(runs, e); }
  }

  lemma {:induction false} ObservedStrict(log: seq<Observation>, e: Endpoint)
    requires Strict(log)
    ensures Strict(ObservedAt(log, e))
    ensures forall o | o in ObservedAt(log, e) :: o in log
  {
    if log != [] {
      var n := |log| - 1;
      ObservedStrict(log[..n], e);
      var before := ObservedAt(log[..n], e);
      forall i | 0 <= i < |before| ensures before[i].at < log[n].at {
        assert before[i] in log[..n];
        var j :| 0 <= j < n && log[j] == before[i];
      }
    }
  }

  /** A run that meets no endpoint twice is steady everywhere. */
  lemma {:induction false} DistinctIsSteady(before: Option<nat>, obs: seq<Observation>, e: Endpoint)
    requires DistinctEndpoints(obs)
    ensures Steady(before, obs, e)
    ensures |ViewOf(before, obs, e).certs| <= 1
    ensures (forall o | o in obs :: o.endpoint != e) ==> ViewOf(before, obs, e).certs == []
  {
    if obs != [] {
      var init, o := obs[..|obs| - 1], obs[|obs| - 1];
      DistinctIsSteady(before, init, e);
      assert o in obs && forall x | x in init :: x in obs;
      if o.endpoint == e {
        forall x | x in init ensures x.endpoint != e { var i :| 0 <= i < |init| && init[i] == x; assert obs[i] == x; }
      }
    }
    ShortSettles(ViewOf(before, obs, e));
  }

  lemma ShortSettles(v: View)
    requires |v.certs| <= 1
    ensures Settles(v)
  {
    assert SettlesAt(v, if |v.certs| == 1 && Some(v.certs[0]) == v.base then 1 else 0);
  }

  /** For every endpoint and every run of scans with distinct endpoints each, the
      endpoint's rows are exactly the run-length compression of what was observed there. */
  lemma {:induction false} HistoryIsCompression(runs: seq<seq<Observation>>, e: Endpoint)
    requires forall r | r in runs :: DistinctEndpoints(r)
    ensures SteadyRuns(runs, e)
    ensures RowsOf(RunScans([], runs), e) == Compress(ObservedAt(Logged(runs), e))
  {
    if runs != [] {
      var init, last := runs[..|runs| - 1], runs[|runs| - 1];
      assert last in runs && forall r | r in init :: r in runs;
      HistoryIsCompression(init, e);
      DistinctIsSteady(LastSeen(ObservedAt(Logged(init), e)), last, e);
    }
    SteadyHistory(runs, e);
  }

  lemma {:induction false} ObservedAtOrdered(log: seq<Observation>, e: Endpoint)
    requires Ordered(log)
    ensures Ordered(ObservedAt(log, e))
    ensures forall o | o in ObservedAt(log, e) :: o in log
  {
    if log != [] {
      var n := |log| - 1;
      ObservedAtOrdered(log[..n], e);
      forall o | o in log[..n] ensures o.at <= log[n].at {
        var i :| 0 <= i < n && log[i] == o;
      }
      var before := ObservedAt(log[..n], e);
      forall i | 0 <= i < |before| ensures before[i].at <= log[n].at { assert before[i] in before; }
    }
  }

  /** Hence the stored periods of an endpoint are ordered and show a change each. */
  lemma {:induction false} HistoryOrdered(runs: seq<seq<Observation>>, e: Endpoint)
    requires SteadyRuns(runs, e) && Ordered(Logged(runs))
    ensures
      var ps := RowsOf(RunScans([], runs), e);
      && (forall i | 0 <= i < |ps| :: ps[i].first <= ps[i].last)
      && (forall i | 0 <= i < |ps| - 1 :: ps[i].cert != ps[i + 1].cert && ps[i].last <= ps[i + 1].first)
  {
    SteadyHistory(runs, e);
    ObservedAtOrdered(Logged(runs), e);
    PeriodsOrdered(ObservedAt(Logged(runs), e));
  }

  /** A run that is not steady: the same new certificate met twice at one
      endpoint in one run is stored as two rows. */
  lemma {:induction false} SameEndpointTwice(o1: Observation, o2: Observation)
    requires o1.endpoint == o2.endpoint && o1.cert == o2.cert && !o2.added
    ensures |RowsOf(RunScan([], [o1, o2]), o1.endpoint)| == 2
    ensures |Compress(ObservedAt([o1, o2], o1.endpoint))| == 1
  {
    var e, p1, p2 := o1.endpoint, Period(o1.cert, o1.at, o1.at), Period(o2.cert, o2.at, o2.at);
    assert [o1, o2][..1] == [o1] && [o1][..0] == [];
    assert LaneAll(Lane([], []), [o1], e) == Lane([], [p1]);
    assert LaneAll(Lane([], []), [o1, o2], e) == Lane([], [p1, p2]);
    RunOnLane([], [o1, o2], e);
    assert ObservedAt([o1], e) == [o1] && ObservedAt([o1, o2], e) == [o1] + [o2];
    CompressOne(o1);
    CompressAppend([o1], o2);
  }

  // ── The imperative recorder ──────────────────────────────────────────────

  class History {
    var rows: seq<Sighting>
    var pending: seq<Sighting>

    ghost function State(): Table
      reads this
    {
      Table(rows, pending)
    }

    method RecordSighting(o: Observation)
      modifies this
      ensures State() == Record(old(State()), o)
    {
      if o.added { rows, pending := rows + pending, []; }
      var i := Latest(rows, o.endpoint);
      if i.Some? && rows[i.value].cert == o.cert {
        rows := rows[i.value := rows[i.value].(lastSeen := o.at)];
      } else {
        pending := pending + [Sighting(o.endpoint, o.cert, o.at, o.at)];
      }
    }

    method RunNetworkScan(obs: seq<Observation>)
      requires pending == []
      modifies this
      ensures rows == RunScan(old(rows), obs) && pending == []
    {
      for i := 0 to |obs|
        invariant State() == RecordAll(Table(old(rows), []), obs[..i])
      {
        RecordSighting(obs[i]);
        assert obs[..i + 1][..i] == obs[..i];
      }
      assert obs[..|obs|] == obs;
      rows, pending := rows + pending, [];
    }
  }
}
