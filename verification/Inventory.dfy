/**
 The certificate inventory shared by the scanners, and the list of
 fingerprints that discovery ignores.  A deleted certificate that the platform
 did not issue is put on that list, so that no scanner brings it back.
 */
module Inventory {
  import opened Options

  type Fingerprint = string

  datatype CertRow = CertRow(id: nat, fingerprint: Option<Fingerprint>, managed: bool, deletable: bool)

  datatype Store = Store(rows: seq<CertRow>, ignored: set<Fingerprint>)

  predicate Holds(rows: seq<CertRow>, fp: Fingerprint) {
    exists r | r in rows :: r.fingerprint == Some(fp)
  }

  /** No two rows carry one fingerprint. */
  ghost predicate Unique(rows: seq<CertRow>) {
    forall i, j | 0 <= i < j < |rows| && rows[i].fingerprint.Some? :: rows[i].fingerprint != rows[j].fingerprint
  }

  // ── What the scanners meet ───────────────────────────────────────────────

  /** A file or PFX bundle: the fingerprint of the certificate in it, unless it
      cannot be read, and whether importing it works (key matches, path allowed). */
  datatype Found = Found(fingerprint: Option<Fingerprint>, importable: bool)

  /** A CT log entry that is not known yet: whether the cheap match by serial and
      issuer hits an existing row, and otherwise the certificate fetched, if any. */
  datatype Entry = Entry(matchesKnown: bool, fetched: Option<Fingerprint>)

  function NewRow(rows: seq<CertRow>, fp: Fingerprint, id: nat): seq<CertRow> {
    rows + [CertRow(id, Some(fp), false, true)]
  }

  /** Explicit import: rejected when a row carries the fingerprint. */
  function Import(s: Store, fp: Fingerprint, id: nat): Store {
    if Holds(s.rows, fp) then s else s.(rows := NewRow(s.rows, fp, id))
  }

  function FirstId(rows: seq<CertRow>, id: nat): (i: Option<nat>)
    ensures i.Some? ==> i.value < |rows| && rows[i.value].id == id
    ensures i.None? ==> forall k | 0 <= k < |rows| :: rows[k].id != id
  {
    if rows == [] then None
    else
      var i := FirstId(rows[..|rows| - 1], id);
      if i.Some? then i else if rows[|rows| - 1].id == id then Some(|rows| - 1) else None
  }

  /** Deleting: managed rows only in a deletable status; an unmanaged row's
      fingerprint goes on the ignore list. */
  function Delete(s: Store, id: nat): Store {
    var i := FirstId(s.rows, id);
    if i.None? || (s.rows[i.value].managed && !s.rows[i.value].deletable) then s
    else
      var r := s.rows[i.value];
      Store(s.rows[..i.value] + s.rows[i.value + 1..],
            if !r.managed && r.fingerprint.Some? then s.ignored + {r.fingerprint.value} else s.ignored)
  }

  ghost predicate UniqueIds(rows: seq<CertRow>) {
    forall i, j | 0 <= i < j < |rows| :: rows[i].id != rows[j].id
  }

  /** Deleting takes the one row with the id, unless it is managed and not
      deletable, and nothing else: every other row keeps its place in the order.
      What it adds to the ignore list is the fingerprint of an unmanaged row. */
  lemma DeleteOutcome(s: Store, id: nat, i: nat)
    requires UniqueIds(s.rows) && i < |s.rows| && s.rows[i].id == id
    ensures
      var s', r := Delete(s, id), s.rows[i];
      if r.managed && !r.deletable then s' == s
      else
        && |s'.rows| == |s.rows| - 1
        && (forall k | 0 <= k < i :: s'.rows[k] == s.rows[k])
        && (forall k | i < k < |s.rows| :: s'.rows[k - 1] == s.rows[k])
        && (forall fp :: fp in s'.ignored <==> fp in s.ignored || (!r.managed && r.fingerprint == Some(fp)))
  {}

  /** An id that no row has changes nothing. */
  lemma DeleteUnknown(s: Store, id: nat)
    requires forall r | r in s.rows :: r.id != id
    ensures Delete(s, id) == s
  {
    assert forall k | 0 <= k < |s.rows| :: s.rows[k] in s.rows;
  }

  /** Every row with another id stays, whatever is deleted. */
  lemma OthersStay(s: Store, id: nat, r: CertRow)
    requires r in s.rows && r.id != id
    ensures r in Delete(s, id).rows
  {
    var i := FirstId(s.rows, id);
    if i.Some? {
      var k :| 0 <= k < |s.rows| && s.rows[k] == r;
      var rest := s.rows[..i.value] + s.rows[i.value + 1..];
      assert r == if k < i.value then rest[k] else rest[k - 1];
    }
  }

  // ── Exactly what a scan adds ─────────────────────────────────────────────

  /** `wanted` are the fingerprints a scan could bring in: the scan adds one
      unmanaged row for each that is neither held nor ignored, and nothing else. */
  ghost predicate Adds(rows: seq<CertRow>, rows': seq<CertRow>, ignored: set<Fingerprint>, wanted: set<Fingerprint>) {
    && rows <= rows'
    && (Unique(rows) ==> Unique(rows'))
    && (forall fp :: Holds(rows', fp) <==> Holds(rows, fp) || (fp in wanted && fp !in ignored))
    && (forall r | r in rows'[|rows|..] :: !r.managed && r.fingerprint.Some?)
  }

  lemma AddsNothing(rows: seq<CertRow>, ignored: set<Fingerprint>)
    ensures Adds(rows, rows, ignored, {})
  {}

  /** One item more: a new row for it when it is neither held nor ignored. */
  lemma AddsOne(rows: seq<CertRow>, cur: seq<CertRow>, ignored: set<Fingerprint>, wanted: set<Fingerprint>,
                fp: Fingerprint, id: nat)
    requires Adds(rows, cur, ignored, wanted)
    ensures Adds(rows, if Holds(cur, fp) || fp in ignored then cur else NewRow(cur, fp, id), ignored, wanted + {fp})
  {}

  /** An explicit import adds like a scan that meets one certificate, except that
      it does not look at the ignore list. */
  lemma ImportAdds(s: Store, fp: Fingerprint, id: nat)
    ensures Import(s, fp, id).ignored == s.ignored
    ensures Adds(s.rows, Import(s, fp, id).rows, {}, {fp})
    ensures !Holds(s.rows, fp) ==> |Import(s, fp, id).rows| == |s.rows| + 1 && Import(s, fp, id).rows[|s.rows|].id == id
  {
    AddsNothing(s.rows, {});
    AddsOne(s.rows, s.rows, {}, {}, fp, id);
    assert {} + {fp} == {fp};
  }

  // ── The scanners ─────────────────────────────────────────────────────────

  function Importable(files: seq<Found>): set<Fingerprint> {
    set f | f in files && f.fingerprint.Some? && f.importable :: f.fingerprint.value
  }

  function Seen(certs: seq<Fingerprint>): set<Fingerprint> {
    set fp | fp in certs
  }

  function Fetched(entries: seq<Entry>): set<Fingerprint> {
    set e | e in entries && !e.matchesKnown && e.fetched.Some? :: e.fetched.value
  }

  class Database {
    var rows: seq<CertRow>
    var ignored: set<Fingerprint>
    var nextId: nat

    ghost function State(): Store
      reads this
    {
      Store(rows, ignored)
    }

    /** Filesystem discovery, certificate files and PFX bundles alike: the set of
        fingerprints seen is fixed at the start and grows with each import. */
    method ScanFiles(files: seq<Found>)
      modifies this
      ensures ignored == old(ignored)
      ensures Adds(old(rows), rows, ignored, Importable(files))
    {
      var seen := ignored + set r | r in rows && r.fingerprint.Some? :: r.fingerprint.value;
      AddsNothing(rows, ignored);
      assert Importable(files[..0]) == {};
      for i := 0 to |files|
        invariant ignored == old(ignored)
        invariant forall fp :: fp in seen <==> fp in ignored || Holds(rows, fp)
        invariant Adds(old(rows), rows, ignored, Importable(files[..i]))
      {
        var f := files[i];
        assert Importable(files[..i + 1]) ==
               Importable(files[..i]) + (if f.fingerprint.Some? && f.importable then {f.fingerprint.value} else {}) by {
          assert files[..i + 1] == files[..i] + [f];
        }
        if f.fingerprint.Some? {
          var fp := f.fingerprint.value;
          AddsOne(old(rows), rows, ignored, Importable(files[..i]), fp, nextId);
          if fp !in seen && f.importable {
            HoldsNew(rows, fp, nextId);
            rows := NewRow(rows, fp, nextId);
            nextId := nextId + 1;
            seen := seen + {fp};
          }
        }
      }
      assert files[..|files|] == files;
    }

    /** The network scan: a handshake either shows a known certificate, or an
        ignored one, or one to add. */
    method ScanNetwork(certs: seq<Fingerprint>)
      modifies this
      ensures ignored == old(ignored)
      ensures Adds(old(rows), rows, ignored, Seen(certs))
    {
      AddsNothing(rows, ignored);
      assert Seen(certs[..0]) == {};
      for i := 0 to |certs|
        invariant ignored == old(ignored)
        invariant Adds(old(rows), rows, ignored, Seen(certs[..i]))
      {
        assert Seen(certs[..i + 1]) == Seen(certs[..i]) + {certs[i]} by {
          assert certs[..i + 1] == certs[..i] + [certs[i]];
        }
        AddsOne(old(rows), rows, ignored, Seen(certs[..i]), certs[i], nextId);
        var isNew := !Holds(rows, certs[i]);
        if isNew && certs[i] !in ignored {
          rows := NewRow(rows, certs[i], nextId);
          nextId := nextId + 1;
        }
      }
      assert certs[..|certs|] == certs;
    }

    /** The CT monitor: entries that match a known certificate add nothing. */
    method ScanCtLog(entries: seq<Entry>)
      modifies this
      ensures ignored == old(ignored)
      ensures Adds(old(rows), rows, ignored, Fetched(entries))
    {
      AddsNothing(rows, ignored);
      assert Fetched(entries[..0]) == {};
      for i := 0 to |entries|
        invariant ignored == old(ignored)
        invariant Adds(old(rows), rows, ignored, Fetched(entries[..i]))
      {
        var e := entries[i];
        assert Fetched(entries[..i + 1]) ==
               Fetched(entries[..i]) + (if !e.matchesKnown && e.fetched.Some? then {e.fetched.value} else {}) by {
          assert entries[..i + 1] == entries[..i] + [e];
        }
        if !e.matchesKnown && e.fetched.Some? {
          var fp := e.fetched.value;
          AddsOne(old(rows), rows, ignored, Fetched(entries[..i]), fp, nextId);
          if fp !in ignored && !Holds(rows, fp) {
            rows := NewRow(rows, fp, nextId);
            nextId := nextId + 1;
          }
        }
      }
      assert entries[..|entries|] == entries;
    }

    method DeleteCertificate(id: nat)
      modifies this
      ensures State() == Delete(old(State()), id)
    {
      var i := FirstId(rows, id);
      if i.None? { return; }
      var r := rows[i.value];
      if r.managed && !r.deletable { return; }
      if !r.managed && r.fingerprint.Some? { ignored := ignored + {r.fingerprint.value}; }
      rows := rows[..i.value] + rows[i.value + 1..];
    }
  }

  lemma HoldsNew(rows: seq<CertRow>, fp: Fingerprint, id: nat)
    ensures forall g :: Holds(NewRow(rows, fp, id), g) <==> Holds(rows, g) || g == fp
  {}

  // ── Histories ────────────────────────────────────────────────────────────

  /** What can happen to the inventory: a scan of any kind that brings in
      `wanted` (an aborted one brings in nothing), an explicit import, a deletion,
      or taking a fingerprint off the ignore list. */
  datatype Event =
    | Scanned(wanted: set<Fingerprint>)
    | Imported(fingerprint: Fingerprint, id: nat)
    | Deleted(id: nat)
    | Unignored(fingerprint: Fingerprint)

  ghost predicate Happens(s: Store, e: Event, s': Store) {
    match e
    case Scanned(wanted) => s'.ignored == s.ignored && Adds(s.rows, s'.rows, s.ignored, wanted)
    case Imported(fp, id) => s' == Import(s, fp, id)
    case Deleted(id) => s' == Delete(s, id)
    case Unignored(fp) => s' == s.(ignored := s.ignored - {fp})
  }

  ghost predicate History(states: seq<Store>, events: seq<Event>) {
    |states| == |events| + 1 && forall i | 0 <= i < |events| :: Happens(states[i], events[i], states[i + 1])
  }

  /** `fp` is neither imported explicitly nor taken off the ignore list. */
  predicate LeavesAlone(e: Event, fp: Fingerprint) {
    match e
    case Imported(g, _) => g != fp
    case Unignored(g) => g != fp
    case _ => true
  }

  predicate Banned(s: Store, fp: Fingerprint) {
    fp in s.ignored && !Holds(s.rows, fp)
  }

  lemma EventKeepsBan(s: Store, e: Event, s': Store, fp: Fingerprint)
    requires Happens(s, e, s') && LeavesAlone(e, fp) && Banned(s, fp)
    ensures Banned(s', fp)
  {}

  lemma EventKeepsUnique(s: Store, e: Event, s': Store)
    requires Happens(s, e, s') && Unique(s.rows)
    ensures Unique(s'.rows)
  {}

  /** Deleting the only row with a fingerprint, when the platform did not issue
      it, bans the fingerprint. */
  lemma DeleteBans(s: Store, id: nat)
    requires Unique(s.rows) && FirstId(s.rows, id).Some?
    requires var r := s.rows[FirstId(s.rows, id).value]; !r.managed && r.fingerprint.Some?
    ensures Banned(Delete(s, id), s.rows[FirstId(s.rows, id).value].fingerprint.value)
  {}

  /** Scans and imports never make two rows of one fingerprint. */
  lemma {:induction false} HistoryKeepsUnique(states: seq<Store>, events: seq<Event>, n: nat)
    requires History(states, events) && Unique(states[0].rows) && n <= |events|
    ensures Unique(states[n].rows)
  {
    if n > 0 {
      HistoryKeepsUnique(states, events, n - 1);
      EventKeepsUnique(states[n - 1], events[n - 1], states[n]);
    }
  }

  /** Once an unmanaged certificate is deleted, no history of scans of any kind,
      deletions and imports of other certificates brings its fingerprint back. */
  lemma {:induction false} DeletedStaysGone(states: seq<Store>, events: seq<Event>, d: nat, n: nat)
    requires History(states, events) && Unique(states[0].rows) && d < n <= |events|
    requires events[d].Deleted? && FirstId(states[d].rows, events[d].id).Some?
    requires var r := states[d].rows[FirstId(states[d].rows, events[d].id).value]; !r.managed && r.fingerprint.Some?
    requires
      var fp := states[d].rows[FirstId(states[d].rows, events[d].id).value].fingerprint.value;
      forall k | d < k < n :: LeavesAlone(events[k], fp)
    ensures
      var fp := states[d].rows[FirstId(states[d].rows, events[d].id).value].fingerprint.value;
      !Holds(states[n].rows, fp) && fp in states[n].ignored
  {
    var fp := states[d].rows[FirstId(states[d].rows, events[d].id).value].fingerprint.value;
    if n == d + 1 {
      HistoryKeepsUnique(states, events, d);
      assert Happens(states[d], events[d], states[d + 1]);
      DeleteBans(states[d], events[d].id);
    } else {
      DeletedStaysGone(states, events, d, n - 1);
      assert Happens(states[n - 1], events[n - 1], states[n]);
      EventKeepsBan(states[n - 1], events[n - 1], states[n], fp);
    }
  }
}
