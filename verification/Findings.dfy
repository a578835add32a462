/**
 Certificate Transparency findings: the detections a new log entry triggers,
 their risk score, and the findings that collect them.  A finding added during
 a run is flushed only when a certificate new to the inventory is, or at the
 end; until then queries inside the run do not see it.
 */
module Findings {
  import opened Options
  import opened Text

  // ── Detections ───────────────────────────────────────────────────────────

  datatype Code = NewCertificate | UnknownCa | SensitiveHostname | StagingHostname

  function Weight(c: Code): nat {
    match c
    case NewCertificate => 10
    case UnknownCa => 25
    case SensitiveHostname => 20
    case StagingHostname => 15
  }

  datatype Detection = Detection(code: Code, about: string)

  predicate Contains(text: string, part: string) {
    exists i | 0 <= i <= |text| :: StartsWith(text[i..], part)
  }

  /** What is known of the certificate of a log entry, and the configured lists. */
  datatype Subject = Subject(
    issuer: Option<string>,
    name: string,
    isNew: bool,
    expectedIssuers: seq<string>,
    sensitive: seq<string>,
    staging: seq<string>)

  predicate Matches(keyword: string, name: string) {
    var k := Lower(Strip(keyword));
    k != "" && Contains(Lower(name), k)
  }

  predicate AnyMatches(keywords: seq<string>, name: string) {
    exists k | k in keywords :: Matches(k, name)
  }

  function IssuerText(s: Subject): string {
    Lower(if s.issuer.Some? then s.issuer.value else "")
  }

  /** Blank entries of the expected-issuer list do not count. */
  predicate Triggers(s: Subject, c: Code) {
    match c
    case NewCertificate => s.isNew
    case UnknownCa =>
      && (exists e | e in s.expectedIssuers :: Strip(e) != "")
      && (forall e | e in s.expectedIssuers && Strip(e) != "" :: !Contains(IssuerText(s), Lower(Strip(e))))
    case SensitiveHostname => AnyMatches(s.sensitive, s.name)
    case StagingHostname => AnyMatches(s.staging, s.name)
  }

  // What triggers a code, in terms of the names alone

  /** Some stretch of the text is the part, whatever the case of either. */
  ghost predicate Mentions(text: string, part: string) {
    exists i, j :: 0 <= i <= j <= |text| && Lower(text[i..j]) == Lower(part)
  }

  lemma MentionsIff(text: string, part: string)
    ensures Contains(Lower(text), Lower(part)) <==> Mentions(text, part)
  {
    var t, p := Lower(text), Lower(part);
    if Contains(t, p) {
      var i :| 0 <= i <= |t| && StartsWith(t[i..], p);
      LowerSlice(text, i, i + |p|);
      assert t[i..][..|p|] == t[i..i + |p|];
    }
    if Mentions(text, part) {
      var i, j :| 0 <= i <= j <= |text| && Lower(text[i..j]) == p;
      LowerSlice(text, i, j);
      assert |p| == j - i && t[i..][..|p|] == t[i..j];
    }
  }

  lemma LowerSlice(text: string, i: nat, j: nat)
    requires i <= j <= |text|
    ensures Lower(text[i..j]) == Lower(text)[i..j]
  {}

  ghost predicate MentionsAny(text: string, list: seq<string>) {
    exists k :: k in list && Strip(k) != "" && Mentions(text, Strip(k))
  }

  lemma AnyMatchesIff(keywords: seq<string>, name: string)
    ensures AnyMatches(keywords, name) <==> MentionsAny(name, keywords)
  {
    forall k ensures Matches(k, name) <==> Strip(k) != "" && Mentions(name, Strip(k)) {
      MentionsIff(name, Strip(k));
    }
  }

  /** Each code by what it stands for: a certificate met for the first time; an
      issuer that mentions none of the expected ones, if any is given; a name that
      mentions a sensitive, or a staging, keyword. */
  lemma TriggersIff(s: Subject)
    ensures Triggers(s, NewCertificate) <==> s.isNew
    ensures Triggers(s, UnknownCa) <==>
              && (exists e :: e in s.expectedIssuers && Strip(e) != "")
              && !MentionsAny(if s.issuer.Some? then s.issuer.value else "", s.expectedIssuers)
    ensures Triggers(s, SensitiveHostname) <==> MentionsAny(s.name, s.sensitive)
    ensures Triggers(s, StagingHostname) <==> MentionsAny(s.name, s.staging)
  {
    var issuer := if s.issuer.Some? then s.issuer.value else "";
    AnyMatchesIff(s.sensitive, s.name);
    AnyMatchesIff(s.staging, s.name);
    forall e ensures Contains(IssuerText(s), Lower(Strip(e))) <==> Mentions(issuer, Strip(e)) {
      MentionsIff(issuer, Strip(e));
    }
  }

  predicate Has(ds: seq<Detection>, c: Code) {
    exists d | d in ds :: d.code == c
  }

  ghost predicate DistinctCodes(ds: seq<Detection>) {
    forall i, j | 0 <= i < j < |ds| :: ds[i].code != ds[j].code
  }

  /** The first keyword that matches, if any. */
  method FirstMatch(keywords: seq<string>, name: string) returns (k: Option<string>)
    ensures k.Some? <==> AnyMatches(keywords, name)
    ensures k.Some? ==> k.value in keywords && Matches(k.value, name)
  {
    for i := 0 to |keywords|
      invariant forall j | 0 <= j < i :: !Matches(keywords[j], name)
    {
      if Matches(keywords[i], name) { return Some(keywords[i]); }
    }
    return None;
  }

  /** The list of expected issuers, without blanks, knows the issuer. */
  method IssuerUnexpected(s: Subject) returns (unexpected: bool)
    ensures unexpected <==> Triggers(s, UnknownCa)
  {
    var any := false;
    for i := 0 to |s.expectedIssuers|
      invariant any <==> exists j | 0 <= j < i :: Strip(s.expectedIssuers[j]) != ""
      invariant forall j | 0 <= j < i ::
                  Strip(s.expectedIssuers[j]) != "" ==> !Contains(IssuerText(s), Lower(Strip(s.expectedIssuers[j])))
    {
      var e := Strip(s.expectedIssuers[i]);
      if e != "" {
        if Contains(IssuerText(s), Lower(e)) {
          assert s.expectedIssuers[i] in s.expectedIssuers;
          return false;
        }
        any := true;
      }
    }
    return any;
  }

  method AddIf(ds: seq<Detection>, triggered: bool, d: Detection) returns (r: seq<Detection>)
    requires DistinctCodes(ds) && !Has(ds, d.code)
    ensures DistinctCodes(r)
    ensures forall c: Code :: Has(r, c) <==> Has(ds, c) || (triggered && c == d.code)
  {
    r := if triggered then ds + [d] else ds;
    HasAppend(ds, d);
    forall i | 0 <= i < |ds| ensures ds[i].code != d.code { assert ds[i] in ds; }
  }

  lemma {:induction false} HasAppend(ds: seq<Detection>, d: Detection)
    ensures forall c: Code :: Has(ds + [d], c) <==> Has(ds, c) || c == d.code
  {}

  /** Each code is reported exactly when it is triggered, and once. */
  method RunDetections(s: Subject) returns (ds: seq<Detection>)
    ensures forall c: Code :: Has(ds, c) <==> Triggers(s, c)
    ensures DistinctCodes(ds)
  {
    ds := AddIf([], s.isNew, Detection(NewCertificate, ""));
    var unexpected := IssuerUnexpected(s);
    ds := AddIf(ds, unexpected, Detection(UnknownCa, IssuerText(s)));
    var sensitive := FirstMatch(s.sensitive, s.name);
    ds := AddIf(ds, sensitive.Some?, Detection(SensitiveHostname, Keyword(sensitive)));
    var staging := FirstMatch(s.staging, s.name);
    ds := AddIf(ds, staging.Some?, Detection(StagingHostname, Keyword(staging)));
  }

  function Keyword(k: Option<string>): string {
    if k.Some? then Strip(k.value) else ""
  }

  // ── Risk ─────────────────────────────────────────────────────────────────

  function TotalWeight(ds: seq<Detection>): nat {
    if ds == [] then 0 else TotalWeight(ds[..|ds| - 1]) + Weight(ds[|ds| - 1].code)
  }

  function RiskScore(ds: seq<Detection>): nat {
    if TotalWeight(ds) > 100 then 100 else TotalWeight(ds)
  }

  function Share(ds: seq<Detection>, c: Code): nat {
    if Has(ds, c) then Weight(c) else 0
  }

  lemma {:induction false} ShareStep(ds: seq<Detection>, d: Detection, c: Code)
    requires !Has(ds, d.code)
    ensures Share(ds + [d], c) == Share(ds, c) + if c == d.code then Weight(c) else 0
  {}

  /** The score of detections with distinct codes is the sum of the weights of
      the codes they hold; the cap of 100 never cuts it. */
  lemma {:induction false} ScoreIsSum(ds: seq<Detection>)
    requires DistinctCodes(ds)
    ensures TotalWeight(ds) ==
            Share(ds, NewCertificate) + Share(ds, UnknownCa) + Share(ds, SensitiveHostname) + Share(ds, StagingHostname)
    ensures TotalWeight(ds) ==
            (if Has(ds, NewCertificate) then 10 else 0) + (if Has(ds, UnknownCa) then 25 else 0) +
            (if Has(ds, SensitiveHostname) then 20 else 0) + (if Has(ds, StagingHostname) then 15 else 0)
    ensures RiskScore(ds) == TotalWeight(ds) <= 70
  {
    if ds != [] {
      var init, last := ds[..|ds| - 1], ds[|ds| - 1];
      ScoreIsSum(init);
      assert !Has(init, last.code);
      ShareStep(init, last, NewCertificate);
      ShareStep(init, last, UnknownCa);
      ShareStep(init, last, SensitiveHostname);
      ShareStep(init, last, StagingHostname);
      assert init + [last] == ds;
    }
  }

  // ── Findings ─────────────────────────────────────────────────────────────

  datatype Status = Open | Acknowledged | Investigating | FalsePositive | Resolved

  predicate Active(s: Status) {
    s.Open? || s.Acknowledged? || s.Investigating?
  }

  datatype Finding = Finding(
    cert: nat,
    status: Status,
    detections: seq<Detection>,
    score: nat,
    firstSeen: int,
    lastSeen: int)

  datatype Table = Table(rows: seq<Finding>, pending: seq<Finding>)

  /** The active finding of a certificate with the greatest id. */
  function ActiveFinding(rows: seq<Finding>, cert: nat, n: nat): (i: Option<nat>)
    requires n <= |rows|
    ensures i.Some? ==> i.value < n && rows[i.value].cert == cert && Active(rows[i.value].status)
    ensures i.None? ==> forall j | 0 <= j < n :: !(rows[j].cert == cert && Active(rows[j].status))
  {
    if n == 0 then None
    else if rows[n - 1].cert == cert && Active(rows[n - 1].status) then Some(n - 1)
    else ActiveFinding(rows, cert, n - 1)
  }

  /** A new log entry: its certificate and what it triggered; `added` when the
      certificate entered the inventory with this entry. */
  datatype Entry = Entry(cert: nat, detections: seq<Detection>, at: int, added: bool)

  /** Everything that will be in the table once it is flushed. */
  function All(t: Table): seq<Finding> {
    t.rows + t.pending
  }

  function Flushed(t: Table): Table {
    Table(All(t), [])
  }

  function Record(t: Table, e: Entry): Table {
    Upsert(if e.added then Flushed(t) else t, e)
  }

  function Refreshed(f: Finding, e: Entry): Finding {
    f.(detections := e.detections, score := RiskScore(e.detections), lastSeen := e.at)
  }

  function Opened(e: Entry): Finding {
    Finding(e.cert, Open, e.detections, RiskScore(e.detections), e.at, e.at)
  }

  function Upsert(t: Table, e: Entry): Table {
    if e.detections == [] then t
    else
      var i := ActiveFinding(t.rows, e.cert, |t.rows|);
      if i.Some? then t.(rows := t.rows[i.value := Refreshed(t.rows[i.value], e)])
      else t.(pending := t.pending + [Opened(e)])
  }

  function RecordAll(t: Table, es: seq<Entry>): Table {
    if es == [] then t else Record(RecordAll(t, es[..|es| - 1]), es[|es| - 1])
  }

  /** One CT run: all its new entries, then the commit. */
  function RunMonitor(rows: seq<Finding>, es: seq<Entry>): seq<Finding> {
    All(RecordAll(Table(rows, []), es))
  }

  /** An analyst sets the status of a finding; the endpoint accepts any status. */
  function SetStatus(rows: seq<Finding>, i: nat, s: Status): seq<Finding>
    requires i < |rows|
  {
    rows[i := rows[i].(status := s)]
  }

  ghost predicate OneActive(rows: seq<Finding>) {
    forall i, j | 0 <= i < j < |rows| && rows[i].cert == rows[j].cert ::
      !(Active(rows[i].status) && Active(rows[j].status))
  }

  ghost predicate DistinctCerts(es: seq<Entry>) {
    forall i, j | 0 <= i < j < |es| :: es[i].cert != es[j].cert
  }

  /** What a run never does: it changes no status and leaves closed findings as they are. */
  ghost predicate Respects(rows: seq<Finding>, rows': seq<Finding>) {
    && |rows| <= |rows'|
    && forall i | 0 <= i < |rows| ::
         && rows'[i].cert == rows[i].cert && rows'[i].status == rows[i].status
         && rows'[i].firstSeen == rows[i].firstSeen
         && (rows[i].status.FalsePositive? || rows[i].status.Resolved? ==> rows'[i] == rows[i])
  }

  /** Closed means marked a false positive or resolved; every other status is active. */
  lemma ActiveIff(s: Status)
    ensures Active(s) <==> !s.FalsePositive? && !s.Resolved?
  {}

  predicate HasActive(rows: seq<Finding>, cert: nat) {
    exists j | 0 <= j < |rows| :: rows[j].cert == cert && Active(rows[j].status)
  }

  /** An entry that triggered nothing changes nothing; any other refreshes an
      active finding of its certificate, or opens one when no flushed finding of
      its certificate is active. */
  ghost predicate OneStep(flushed: seq<Finding>, all: seq<Finding>, all': seq<Finding>, e: Entry) {
    if e.detections == [] then all' == all else
    || (exists i ::
          && 0 <= i < |all| && all[i].cert == e.cert && !all[i].status.FalsePositive? && !all[i].status.Resolved?
          && all' == all[i := Finding(e.cert, all[i].status, e.detections, RiskScore(e.detections),
                                      all[i].firstSeen, e.at)])
    || (&& all' == all + [Finding(e.cert, Open, e.detections, RiskScore(e.detections), e.at, e.at)]
        && forall j | 0 <= j < |flushed| && flushed[j].cert == e.cert ::
             flushed[j].status.FalsePositive? || flushed[j].status.Resolved?)
  }

  lemma {:induction false} RecordStep(t: Table, e: Entry)
    ensures OneStep(t.rows, All(t), All(Record(t, e)), e)
    ensures |t.rows| <= |Record(t, e).rows|
  {
    var t1 := if e.added then Flushed(t) else t;
    assert All(t1) == All(t);
    var i := ActiveFinding(t1.rows, e.cert, |t1.rows|);
    if e.detections != [] {
      if i.Some? {
        assert All(t)[i.value] == t1.rows[i.value];
        assert All(Record(t, e)) == All(t)[i.value := Refreshed(All(t)[i.value], e)];
      } else {
        assert All(Record(t, e)) == All(t) + [Opened(e)];
        assert forall j | 0 <= j < |t.rows| :: t1.rows[j] == t.rows[j];
      }
    }
  }

  ghost predicate Visited(es: seq<Entry>, cert: nat) {
    exists k :: 0 <= k < |es| && es[k].cert == cert
  }

  /** A finding the run opened: for one of its entries, whose certificate had no active finding. */
  ghost predicate OpenedByRun(rows: seq<Finding>, es: seq<Entry>, f: Finding) {
    f.status.Open? && Visited(es, f.cert) && !HasActive(rows, f.cert)
  }

  ghost predicate OpenedFrom(rows: seq<Finding>, all: seq<Finding>, es: seq<Entry>) {
    forall i | |rows| <= i < |all| :: OpenedByRun(rows, es, all[i])
  }

  /** In every run, flushed whenever: no status changes, closed findings stay as
      they are, and what is new was opened for a certificate without an active finding. */
  lemma {:induction false} RunRespects(rows: seq<Finding>, es: seq<Entry>)
    ensures Respects(rows, RunMonitor(rows, es))
    ensures OpenedFrom(rows, RunMonitor(rows, es), es)
    ensures |rows| <= |RecordAll(Table(rows, []), es).rows|
  {
    if es == [] {
      assert RunMonitor(rows, es) == rows;
    } else {
      var init, e := es[..|es| - 1], es[|es| - 1];
      var t := RecordAll(Table(rows, []), init);
      RunRespects(rows, init);
      RecordStep(t, e);
      StepRespects(rows, t.rows, All(t), RunMonitor(rows, es), es);
    }
  }

  lemma {:induction false} StepRespects(rows: seq<Finding>, flushed: seq<Finding>, all: seq<Finding>,
                                        all': seq<Finding>, es: seq<Entry>)
    requires es != [] && OneStep(flushed, all, all', es[|es| - 1]) && |rows| <= |flushed| && flushed <= all
    requires Respects(rows, all) && OpenedFrom(rows, all, es[..|es| - 1])
    ensures Respects(rows, all') && OpenedFrom(rows, all', es)
  {
    var init, e := es[..|es| - 1], es[|es| - 1];
    if HasActive(rows, e.cert) {
      var j :| 0 <= j < |rows| && rows[j].cert == e.cert && Active(rows[j].status);
      assert flushed[j] == all[j];
    }
    assert Visited(es, e.cert) by { assert es[|es| - 1].cert == e.cert; }
    forall i | |rows| <= i < |all'| ensures OpenedByRun(rows, es, all'[i]) {
      if i < |all| { VisitedMore(rows, init, es, all[i]); }
    }
  }

  lemma VisitedMore(rows: seq<Finding>, init: seq<Entry>, es: seq<Entry>, f: Finding)
    requires init <= es && OpenedByRun(rows, init, f)
    ensures OpenedByRun(rows, es, f)
  {}

  // ── Exactly when a run keeps one active finding ──────────────────────────

  /** The first entry of the certificate that triggered something. */
  ghost predicate FirstReport(es: seq<Entry>, i: nat, cert: nat) {
    && i < |es| && es[i].cert == cert && es[i].detections != []
    && forall k | 0 <= k < i && es[k].cert == cert :: es[k].detections == []
  }

  ghost predicate NoneAdded(es: seq<Entry>, from: nat, to: nat) {
    forall k | from <= k < to && k < |es| :: !es[k].added
  }

  /** Entry i opens a finding, and entry j, which does not see it yet, another. */
  ghost predicate Clash(rows: seq<Finding>, es: seq<Entry>, i: nat, j: nat) {
    && i < j < |es| && FirstReport(es, i, es[j].cert) && es[j].detections != []
    && !HasActive(rows, es[j].cert) && NoneAdded(es, i + 1, j + 1)
  }

  ghost predicate Clean(rows: seq<Finding>, es: seq<Entry>) {
    forall i: nat, j: nat :: !Clash(rows, es, i, j)
  }

  /** A certificate within a run: without an active finding, with one that waits
      to be flushed since an entry, or with one that queries see. */
  datatype Phase = Closed | Waiting(since: nat) | Known

  function PhaseOf(rows: seq<Finding>, es: seq<Entry>, cert: nat): Phase {
    if es == [] then if HasActive(rows, cert) then Known else Closed
    else
      var e := es[|es| - 1];
      var before := PhaseOf(rows, es[..|es| - 1], cert);
      var p := if e.added && before.Waiting? then Known else before;
      if p.Closed? && e.cert == cert && e.detections != [] then Waiting(|es| - 1) else p
  }

  /** What a phase says about the entries. */
  ghost predicate PhaseMeans(rows: seq<Finding>, es: seq<Entry>, cert: nat, p: Phase) {
    match p
    case Closed => !HasActive(rows, cert) && forall k | 0 <= k < |es| && es[k].cert == cert :: es[k].detections == []
    case Waiting(i) => !HasActive(rows, cert) && FirstReport(es, i, cert) && NoneAdded(es, i + 1, |es|)
    case Known => HasActive(rows, cert) || exists i: nat :: FirstReport(es, i, cert) && !NoneAdded(es, i + 1, |es|)
  }

  lemma {:induction false} PhaseIsRight(rows: seq<Finding>, es: seq<Entry>, cert: nat)
    ensures PhaseMeans(rows, es, cert, PhaseOf(rows, es, cert))
  {
    if es != [] {
      PhaseIsRight(rows, es[..|es| - 1], cert);
      PhaseStep(rows, es[..|es| - 1], es, cert);
    }
  }

  lemma {:induction false} PhaseStep(rows: seq<Finding>, init: seq<Entry>, es: seq<Entry>, cert: nat)
    requires es != [] && init == es[..|es| - 1] && PhaseMeans(rows, init, cert, PhaseOf(rows, init, cert))
    ensures PhaseMeans(rows, es, cert, PhaseOf(rows, es, cert))
  {
    var n, before := |init|, PhaseOf(rows, init, cert);
    assert forall k | 0 <= k < n :: es[k] == init[k];
    match before
    case Closed =>
    case Waiting(i) =>
      assert FirstReport(es, i, cert);
      if es[n].added { assert !NoneAdded(es, i + 1, |es|); }
    case Known =>
      if !HasActive(rows, cert) {
        var i: nat :| FirstReport(init, i, cert) && !NoneAdded(init, i + 1, |init|);
        var k :| i + 1 <= k < |init| && init[k].added;
        assert FirstReport(es, i, cert) && es[k].added;
      }
  }

  lemma {:induction false} HasActiveConcat(a: seq<Finding>, b: seq<Finding>, cert: nat)
    ensures HasActive(a + b, cert) <==> HasActive(a, cert) || HasActive(b, cert)
  {
    var all := a + b;
    if HasActive(a, cert) {
      var j :| 0 <= j < |a| && a[j].cert == cert && Active(a[j].status);
      assert all[j] == a[j];
    }
    if HasActive(b, cert) {
      var j :| 0 <= j < |b| && b[j].cert == cert && Active(b[j].status);
      assert all[|a| + j] == b[j];
    }
  }

  lemma {:induction false} RefreshKeepsActive(rows: seq<Finding>, i: nat, e: Entry, cert: nat)
    requires i < |rows|
    ensures HasActive(rows[i := Refreshed(rows[i], e)], cert) <==> HasActive(rows, cert)
  {
    var rows' := rows[i := Refreshed(rows[i], e)];
    assert forall j | 0 <= j < |rows| :: rows'[j].cert == rows[j].cert && rows'[j].status == rows[j].status;
    if HasActive(rows, cert) {
      var j :| 0 <= j < |rows| && rows[j].cert == cert && Active(rows[j].status);
      assert rows'[j].cert == cert && Active(rows'[j].status);
    }
  }

  /** The phase of a certificate is where its active finding is. */
  ghost predicate InPhase(t: Table, cert: nat, p: Phase) {
    (HasActive(t.rows, cert) <==> p.Known?) && (HasActive(t.pending, cert) <==> p.Waiting?)
  }

  lemma {:induction false} RunInPhase(rows: seq<Finding>, es: seq<Entry>, cert: nat)
    ensures InPhase(RecordAll(Table(rows, []), es), cert, PhaseOf(rows, es, cert))
  {
    if es != [] {
      var init, e := es[..|es| - 1], es[|es| - 1];
      var t, p := RecordAll(Table(rows, []), init), PhaseOf(rows, init, cert);
      RunInPhase(rows, init, cert);
      HasActiveConcat(t.rows, t.pending, cert);
      UpsertInPhase(if e.added then Flushed(t) else t, e, cert, if e.added && p.Waiting? then Known else p, |es| - 1);
    }
  }

  lemma {:induction false} UpsertInPhase(t: Table, e: Entry, cert: nat, p: Phase, n: nat)
    requires InPhase(t, cert, p)
    ensures InPhase(Upsert(t, e), cert, if p.Closed? && e.cert == cert && e.detections != [] then Waiting(n) else p)
  {
    var i := ActiveFinding(t.rows, e.cert, |t.rows|);
    if e.detections != [] {
      if i.Some? {
        RefreshKeepsActive(t.rows, i.value, e, cert);
      } else {
        HasActiveConcat(t.pending, [Opened(e)], cert);
        assert HasActive([Opened(e)], cert) <==> cert == e.cert by {
          assert [Opened(e)][0] == Opened(e);
        }
      }
    }
  }

  lemma {:induction false} OneActiveAppend(all: seq<Finding>, f: Finding)
    requires Active(f.status)
    ensures OneActive(all + [f]) <==> OneActive(all) && !HasActive(all, f.cert)
  {
    var all' := all + [f];
    assert forall i | 0 <= i < |all| :: all'[i] == all[i];
    assert all'[|all|] == f;
    if OneActive(all') {
      forall i, j | 0 <= i < j < |all| && all[i].cert == all[j].cert
        ensures !(Active(all[i].status) && Active(all[j].status))
      {
        assert all'[i] == all[i] && all'[j] == all[j];
      }
      forall j | 0 <= j < |all| ensures !(all[j].cert == f.cert && Active(all[j].status)) {
        assert all'[j] == all[j];
      }
    }
  }

  lemma {:induction false} OneActiveRefresh(all: seq<Finding>, i: nat, e: Entry)
    requires i < |all|
    ensures OneActive(all[i := Refreshed(all[i], e)]) <==> OneActive(all)
  {
    var all' := all[i := Refreshed(all[i], e)];
    assert forall j | 0 <= j < |all| :: all'[j].cert == all[j].cert && all'[j].status == all[j].status;
  }

  /** One entry breaks the invariant exactly when a finding of its certificate waits to be flushed. */
  lemma {:induction false} RecordKeepsIff(t: Table, e: Entry, p: Phase)
    requires InPhase(t, e.cert, p)
    ensures OneActive(All(Record(t, e))) <==> OneActive(All(t)) && !(e.detections != [] && !e.added && p.Waiting?)
  {
    var t1 := if e.added then Flushed(t) else t;
    assert All(t1) == All(t);
    HasActiveConcat(t.rows, t.pending, e.cert);
    UpsertAll(t1, e);
    if e.detections != [] {
      var i := ActiveFinding(t1.rows, e.cert, |t1.rows|);
      if i.Some? {
        OneActiveRefresh(All(t1), i.value, e);
        assert HasActive(t1.rows, e.cert);
      } else {
        OneActiveAppend(All(t1), Opened(e));
        assert !HasActive(t1.rows, e.cert);
      }
    }
  }

  lemma {:induction false} UpsertAll(t: Table, e: Entry)
    ensures
      var i := ActiveFinding(t.rows, e.cert, |t.rows|);
      All(Upsert(t, e)) == if e.detections == [] then All(t)
                           else if i.Some? then All(t)[i.value := Refreshed(All(t)[i.value], e)]
                           else All(t) + [Opened(e)]
  {}

  lemma {:induction false} CleanStep(rows: seq<Finding>, es: seq<Entry>)
    requires es != []
    ensures
      var init, e := es[..|es| - 1], es[|es| - 1];
      Clean(rows, es) <==>
      Clean(rows, init) && !(e.detections != [] && !e.added && PhaseOf(rows, init, e.cert).Waiting?)
  {
    var init, n := es[..|es| - 1], |es| - 1;
    assert forall k | 0 <= k < n :: es[k] == init[k];
    forall i: nat, j: nat | j < n ensures Clash(rows, es, i, j) <==> Clash(rows, init, i, j) {
      if i < j { ClashPrefix(rows, init, es, i, j); }
    }
    PhaseIsRight(rows, init, es[n].cert);
    LastClash(rows, init, es);
  }

  lemma {:induction false} ClashPrefix(rows: seq<Finding>, init: seq<Entry>, es: seq<Entry>, i: nat, j: nat)
    requires init <= es && i < j < |init|
    ensures Clash(rows, es, i, j) <==> Clash(rows, init, i, j)
  {
    assert forall k | 0 <= k < |init| :: es[k] == init[k];
  }

  lemma {:induction false} LastClash(rows: seq<Finding>, init: seq<Entry>, es: seq<Entry>)
    requires es != [] && init == es[..|es| - 1]
    requires PhaseMeans(rows, init, es[|init|].cert, PhaseOf(rows, init, es[|init|].cert))
    ensures
      var e := es[|init|];
      (exists i: nat :: Clash(rows, es, i, |init|)) <==>
      e.detections != [] && !e.added && PhaseOf(rows, init, e.cert).Waiting?
  {
    var n, e := |init|, es[|init|];
    var p := PhaseOf(rows, init, e.cert);
    assert forall k | 0 <= k < n :: es[k] == init[k];
    if p.Waiting? && e.detections != [] && !e.added {
      assert Clash(rows, es, p.since, n);
    }
    if i: nat :| Clash(rows, es, i, n) {
      assert FirstReport(init, i, e.cert);
      assert NoneAdded(init, i + 1, |init|);
      assert !es[n].added;
      FirstUnique(rows, init, e.cert, i, p);
    }
  }

  lemma {:induction false} FirstUnique(rows: seq<Finding>, es: seq<Entry>, cert: nat, i: nat, p: Phase)
    requires PhaseMeans(rows, es, cert, p) && FirstReport(es, i, cert) && NoneAdded(es, i + 1, |es|)
    requires !HasActive(rows, cert)
    ensures p.Waiting?
  {
    forall k: nat | FirstReport(es, k, cert) ensures k == i {}
  }

  /** For every table and every run: at most one active finding per certificate
      afterwards exactly when that held before and no two entries clash. */
  lemma {:induction false} RunKeepsOneActiveIff(rows: seq<Finding>, es: seq<Entry>)
    ensures OneActive(RunMonitor(rows, es)) <==> OneActive(rows) && Clean(rows, es)
  {
    if es == [] {
      assert RunMonitor(rows, es) == rows;
    } else {
      var init, e := es[..|es| - 1], es[|es| - 1];
      RunKeepsOneActiveIff(rows, init);
      RunInPhase(rows, init, e.cert);
      RecordKeepsIff(RecordAll(Table(rows, []), init), e, PhaseOf(rows, init, e.cert));
      CleanStep(rows, es);
    }
  }

  /** So a run with at most one new entry per certificate keeps it. */
  lemma {:induction false} RunKeepsOneActive(rows: seq<Finding>, es: seq<Entry>)
    requires OneActive(rows) && DistinctCerts(es)
    ensures OneActive(RunMonitor(rows, es))
    ensures Respects(rows, RunMonitor(rows, es))
  {
    RunRespects(rows, es);
    RunKeepsOneActiveIff(rows, es);
  }

  /** Every recorded score is the uncapped sum of the weights of distinct detections. */
  ghost predicate HonestScore(f: Finding) {
    DistinctCodes(f.detections) && f.score == TotalWeight(f.detections) <= 70
  }

  lemma {:induction false} RunKeepsScores(rows: seq<Finding>, es: seq<Entry>)
    requires forall f | f in rows :: HonestScore(f)
    requires forall e | e in es :: DistinctCodes(e.detections)
    ensures forall f | f in RunMonitor(rows, es) :: HonestScore(f)
  {
    if es == [] {
      assert RunMonitor(rows, es) == rows;
    } else {
      var init, e := es[..|es| - 1], es[|es| - 1];
      RunKeepsScores(rows, init);
      RecordStep(RecordAll(Table(rows, []), init), e);
      assert e in es;
      ScoreIsSum(e.detections);
    }
  }

  /** And two entries in a row for a certificate without an active finding break it. */
  lemma {:induction false} TwoEntriesTwoFindings(rows: seq<Finding>, e1: Entry, e2: Entry)
    requires e1.cert == e2.cert && e1.detections != [] && e2.detections != [] && !e2.added
    requires !HasActive(rows, e1.cert)
    ensures !OneActive(RunMonitor(rows, [e1, e2]))
  {
    RunKeepsOneActiveIff(rows, [e1, e2]);
    assert Clash(rows, [e1, e2], 0, 1);
  }

  /** An analyst's change keeps the invariant exactly when it does not make
      active a finding whose certificate already has another active one.  So
      moving findings forward always does; reopening one may not. */
  lemma {:induction false} SetStatusKeepsIff(rows: seq<Finding>, i: nat, s: Status)
    requires OneActive(rows) && i < |rows|
    ensures OneActive(SetStatus(rows, i, s)) <==> !(Active(s) && ActiveBeside(rows, i))
  {
    var rows' := SetStatus(rows, i, s);
    if Active(s) && ActiveBeside(rows, i) {
      var j :| 0 <= j < |rows| && j != i && rows[j].cert == rows[i].cert && Active(rows[j].status);
      assert rows'[j] == rows[j] && rows'[i].cert == rows'[j].cert;
    }
  }

  /** Another finding of the same certificate is active. */
  predicate ActiveBeside(rows: seq<Finding>, i: nat)
    requires i < |rows|
  {
    exists j | 0 <= j < |rows| :: j != i && rows[j].cert == rows[i].cert && Active(rows[j].status)
  }

  // ── Histories of runs and analysts ───────────────────────────────────────

  datatype Event = Monitored(entries: seq<Entry>) | StatusSet(index: nat, status: Status)

  function Apply(rows: seq<Finding>, ev: Event): seq<Finding> {
    match ev
    case Monitored(es) => RunMonitor(rows, es)
    case StatusSet(i, s) => if i < |rows| then SetStatus(rows, i, s) else rows
  }

  function ApplyAll(rows: seq<Finding>, evs: seq<Event>): seq<Finding> {
    if evs == [] then rows else Apply(ApplyAll(rows, evs[..|evs| - 1]), evs[|evs| - 1])
  }

  /** No clash within a run, no finding activated beside another. */
  ghost predicate Proper(rows: seq<Finding>, ev: Event) {
    match ev
    case Monitored(es) => Clean(rows, es)
    case StatusSet(i, s) => i < |rows| ==> !(Active(s) && ActiveBeside(rows, i))
  }

  lemma {:induction false} EventKeepsIff(rows: seq<Finding>, ev: Event)
    requires OneActive(rows)
    ensures OneActive(Apply(rows, ev)) <==> Proper(rows, ev)
  {
    match ev
    case Monitored(es) => RunKeepsOneActiveIff(rows, es);
    case StatusSet(i, s) => if i < |rows| { SetStatusKeepsIff(rows, i, s); }
  }

  /** Throughout a history a certificate has at most one active finding exactly
      when it began so and every event of the history is proper. */
  lemma {:induction false} HistoryKeepsOneActive(rows: seq<Finding>, evs: seq<Event>)
    ensures (forall k | 0 <= k <= |evs| :: OneActive(ApplyAll(rows, evs[..k]))) <==>
            OneActive(rows) && forall k | 0 <= k < |evs| :: Proper(ApplyAll(rows, evs[..k]), evs[k])
  {
    assert evs[..0] == [];
    forall k | 0 <= k < |evs|
      ensures ApplyAll(rows, evs[..k + 1]) == Apply(ApplyAll(rows, evs[..k]), evs[k])
      ensures OneActive(ApplyAll(rows, evs[..k])) ==>
                (OneActive(ApplyAll(rows, evs[..k + 1])) <==> Proper(ApplyAll(rows, evs[..k]), evs[k]))
    {
      assert evs[..k + 1][..k] == evs[..k];
      if OneActive(ApplyAll(rows, evs[..k])) { EventKeepsIff(ApplyAll(rows, evs[..k]), evs[k]); }
    }
    if OneActive(rows) && forall k | 0 <= k < |evs| :: Proper(ApplyAll(rows, evs[..k]), evs[k]) {
      forall k | 0 <= k <= |evs| ensures OneActive(ApplyAll(rows, evs[..k])) { ProperPrefix(rows, evs, k); }
    }
    if forall k | 0 <= k <= |evs| :: OneActive(ApplyAll(rows, evs[..k])) {
      assert OneActive(ApplyAll(rows, evs[..0]));
      forall k | 0 <= k < |evs| ensures Proper(ApplyAll(rows, evs[..k]), evs[k]) {
        assert OneActive(ApplyAll(rows, evs[..k])) && OneActive(ApplyAll(rows, evs[..k + 1]));
      }
    }
  }

  lemma {:induction false} ProperPrefix(rows: seq<Finding>, evs: seq<Event>, n: nat)
    requires OneActive(rows) && n <= |evs|
    requires forall k | 0 <= k < |evs| :: Proper(ApplyAll(rows, evs[..k]), evs[k])
    ensures OneActive(ApplyAll(rows, evs[..n]))
  {
    if n > 0 {
      ProperPrefix(rows, evs, n - 1);
      assert evs[..n][..n - 1] == evs[..n - 1];
      EventKeepsIff(ApplyAll(rows, evs[..n - 1]), evs[n - 1]);
    }
  }

  /** Runs with one new entry per certificate, and analysts who only move findings forward, are proper. */
  lemma {:induction false} ForwardIsProper(rows: seq<Finding>, ev: Event)
    requires OneActive(rows)
    requires ev.Monitored? ==> DistinctCerts(ev.entries)
    requires ev.StatusSet? && ev.index < |rows| && Active(ev.status) ==> Active(rows[ev.index].status)
    ensures Proper(rows, ev)
  {}

  // ── The imperative monitor ───────────────────────────────────────────────

  /** A new log entry as the run meets it. */
  datatype Found = Found(cert: nat, subject: Subject, at: int)

  /** The entry carries what its subject triggers; a certificate new to the
      inventory is new to the detections too. */
  ghost predicate Reports(e: Entry, f: Found) {
    && e.cert == f.cert && e.at == f.at && e.added == f.subject.isNew
    && DistinctCodes(e.detections)
    && forall c: Code :: Has(e.detections, c) <==> Triggers(f.subject, c)
  }

  class Monitor {
    var rows: seq<Finding>
    var pending: seq<Finding>

    /** One new entry: its detections, and the finding that collects them. */
    method RecordEntry(f: Found) returns (ghost e: Entry)
      modifies this
      ensures Reports(e, f)
      ensures Table(rows, pending) == Record(old(Table(rows, pending)), e)
    {
      if f.subject.isNew { rows, pending := rows + pending, []; }
      var detections := RunDetections(f.subject);
      e := Entry(f.cert, detections, f.at, f.subject.isNew);
      if detections == [] { return; }
      var score := RiskScore(detections);
      var i := ActiveFinding(rows, f.cert, |rows|);
      if i.Some? {
        rows := rows[i.value := rows[i.value].(detections := detections, score := score, lastSeen := f.at)];
      } else {
        pending := pending + [Finding(f.cert, Open, detections, score, f.at, f.at)];
      }
    }

    /** A run over new log entries; every score it leaves is honest if all were before. */
    method RunCtMonitor(found: seq<Found>) returns (ghost es: seq<Entry>)
      requires pending == []
      modifies this
      ensures |es| == |found| && forall k | 0 <= k < |es| :: Reports(es[k], found[k])
      ensures rows == RunMonitor(old(rows), es) && pending == []
      ensures (forall f | f in old(rows) :: HonestScore(f)) ==> forall f | f in rows :: HonestScore(f)
    {
      es := [];
      for i := 0 to |found|
        invariant |es| == i && forall k | 0 <= k < i :: Reports(es[k], found[k])
        invariant Table(rows, pending) == RecordAll(Table(old(rows), []), es)
      {
        ghost var e := RecordEntry(found[i]);
        assert (es + [e])[..i] == es;
        es := es + [e];
      }
      rows, pending := rows + pending, [];
      if forall f | f in old(rows) :: HonestScore(f) { RunKeepsScores(old(rows), es); }
    }
  }
}
