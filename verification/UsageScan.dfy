/**
 A usage-discovery scan: collecting candidate endpoints from the sources,
 probing each with port fallback, and recording and counting the results.
 */
module UsageScan {
  import opened Options
  import opened Text
  import opened UsageResults
  import BackupRestore

  // ── Probing one endpoint ─────────────────────────────────────────────────

  /** What the network did when one (hostname, port) was probed. */
  datatype NetResult =
    | DnsTimedOut
    | DnsError
    | ConnectTimedOut(ip: string)
    | ConnectError(ip: string)
    | TlsTimedOut(ip: string)
    | TlsError(ip: string)
    | NoCertificate(ip: string)
    | BadCertificate(ip: string)
    | Presented(ip: string, fingerprint: string, subject: string)

  datatype Probe = Probe(
    status: ProbeStatus,
    ip: Option<string>,
    presented: Option<string>,
    subject: Option<string>,
    error: Option<string>)

  function NormalizeFingerprint(value: Option<string>): string {
    Without(Without(Upper(if value.Some? then value.value else ""), ':'), ' ')
  }

  function ProbeHostname(net: NetResult, expected: string): Probe {
    match net
    case DnsTimedOut => Probe(Timeout, None, None, None, Some("dns_timeout"))
    case DnsError => Probe(DnsFailed, None, None, None, Some("dns_failed"))
    case ConnectTimedOut(ip) => Probe(Timeout, Some(ip), None, None, Some("connect_timeout"))
    case ConnectError(ip) => Probe(Unreachable, Some(ip), None, None, Some("connect_failed"))
    case TlsTimedOut(ip) => Probe(Timeout, Some(ip), None, None, Some("tls_timeout"))
    case TlsError(ip) => Probe(TlsFailed, Some(ip), None, None, Some("tls_failed"))
    case NoCertificate(ip) => Probe(TlsFailed, Some(ip), None, None, Some("no_certificate"))
    case BadCertificate(ip) => Probe(TlsFailed, Some(ip), None, None, Some("parse_failed"))
    case Presented(ip, fp, subject) =>
      var matched := NormalizeFingerprint(Some(fp)) == NormalizeFingerprint(Some(expected));
      Probe(if matched then Confirmed else Different, Some(ip), Some(fp), Some(subject), None)
  }

  // What a probe says

  /** The status of a probe tells what the network did, and the other way round:
      an address exactly when the name was resolved, a fingerprint exactly when a
      certificate was presented, an error exactly when none was. */
  lemma StatusIff(net: NetResult, expected: string)
    ensures
      var p := ProbeHostname(net, expected);
      && (p.status.DnsFailed? <==> net.DnsError?)
      && (p.status.Timeout? <==> net.DnsTimedOut? || net.ConnectTimedOut? || net.TlsTimedOut?)
      && (p.status.Unreachable? <==> net.ConnectError?)
      && (p.status.TlsFailed? <==> net.TlsError? || net.NoCertificate? || net.BadCertificate?)
      && (p.status.Confirmed? || p.status.Different? <==> net.Presented?)
      && p.ip == (if net.DnsTimedOut? || net.DnsError? then None else Some(net.ip))
      && p.presented == (if net.Presented? then Some(net.fingerprint) else None)
      && p.subject == (if net.Presented? then Some(net.subject) else None)
      && (p.error.None? <==> net.Presented?)
  {}

  /** Different failures have different codes. */
  lemma ErrorsDiffer(net: NetResult, other: NetResult, expected: string)
    requires ProbeHostname(net, expected).error == ProbeHostname(other, expected).error
    requires !net.Presented?
    ensures
      match net
      case DnsTimedOut => other.DnsTimedOut?
      case DnsError => other.DnsError?
      case ConnectTimedOut(_) => other.ConnectTimedOut?
      case ConnectError(_) => other.ConnectError?
      case TlsTimedOut(_) => other.TlsTimedOut?
      case TlsError(_) => other.TlsError?
      case NoCertificate(_) => other.NoCertificate?
      case BadCertificate(_) => other.BadCertificate?
      case Presented(_, _, _) => other.Presented?
  {
    var a, b := ProbeHostname(net, expected).error, ProbeHostname(other, expected).error;
    assert b.Some? && |a.value| == |b.value| && a.value[0] == b.value[0] && a.value[4] == b.value[4];
  }

  lemma {:induction false} NormalDigest(d: seq<BackupRestore.Octet>)
    ensures NormalizeFingerprint(Some(BackupRestore.Fingerprint(d))) == Upper(BackupRestore.Hex(d))
    ensures NormalizeFingerprint(Some(BackupRestore.Hex(d))) == Upper(BackupRestore.Hex(d))
  {
    var h := BackupRestore.Hex(d);
    var u := Upper(h);
    UpperTwice(BackupRestore.Colons(h));
    BackupRestore.ColonsVanish(h);
    BackupRestore.UpperHexHasNoColon(h);
    forall i | 0 <= i < |u| ensures u[i] != ' ' { assert h[i] in h; }
    BackupRestore.WithoutAbsent(u, ':');
    BackupRestore.WithoutAbsent(u, ' ');
  }

  lemma UpperTwice(s: string)
    ensures Upper(Upper(s)) == Upper(s)
  {}

  /** A presented certificate is confirmed exactly when its digest is the expected
      one, whichever of the two usual spellings the expected one has. */
  lemma DigestDecides(ip: string, subject: string, d: seq<BackupRestore.Octet>, e: seq<BackupRestore.Octet>)
    ensures
      var net := Presented(ip, BackupRestore.Fingerprint(d), subject);
      && (ProbeHostname(net, BackupRestore.Fingerprint(e)).status == if d == e then Confirmed else Different)
      && (ProbeHostname(net, BackupRestore.Hex(e)).status == if d == e then Confirmed else Different)
  {
    NormalDigest(d);
    NormalDigest(e);
    UpperHexInjective(d, e);
  }

  lemma UpperHexInjective(d: seq<BackupRestore.Octet>, e: seq<BackupRestore.Octet>)
    ensures Upper(BackupRestore.Hex(d)) == Upper(BackupRestore.Hex(e)) <==> d == e
  {
    var h, g := BackupRestore.Hex(d), BackupRestore.Hex(e);
    if Upper(h) == Upper(g) {
      HexFromUpper(h);
      HexFromUpper(g);
      BackupRestore.HexInjective(d, e);
    }
  }

  lemma HexFromUpper(h: string)
    requires forall c | c in h :: BackupRestore.IsHex(c)
    ensures Lower(Upper(h)) == h
  {
    forall i | 0 <= i < |h| ensures Lower(Upper(h))[i] == h[i] { assert h[i] in h; }
  }

  const PROBE_ERROR: Probe := Probe(Unreachable, None, None, None, Some("probe_error"))

  // ── Port fallback ────────────────────────────────────────────────────────

  predicate ConnectivityFailure(s: ProbeStatus) {
    s.DnsFailed? || s.Unreachable? || s.Timeout?
  }

  predicate Answers(probe: int -> Probe, port: int) {
    !ConnectivityFailure(probe(port).status)
  }

  /** An endpoint answers exactly when a connection was made and its handshake came to an end. */
  lemma AnswersIff(net: NetResult, expected: string)
    ensures !ConnectivityFailure(ProbeHostname(net, expected).status) <==>
              net.TlsError? || net.NoCertificate? || net.BadCertificate? || net.Presented?
    ensures Reachable(ProbeHostname(net, expected).status) <==> net.Presented?
  {}

  /** The exhaustive reference: probe every port, take the first that answers,
      else report the first port. */
  function FirstAnswering(ports: seq<int>, probe: int -> Probe): (k: nat)
    requires ports != []
    ensures k < |ports|
    ensures forall j | 0 <= j < k :: !Answers(probe, ports[j])
    ensures (exists j :: 0 <= j < |ports| && Answers(probe, ports[j])) ==> Answers(probe, ports[k])
    ensures (forall j | 0 <= j < |ports| :: !Answers(probe, ports[j])) ==> k == 0
  {
    if Answers(probe, ports[0]) || |ports| == 1 then 0
    else
      var k := FirstAnswering(ports[1..], probe);
      if Answers(probe, ports[1..][k]) then
        assert forall j | 1 <= j < k + 1 :: ports[j] == ports[1..][j - 1];
        k + 1
      else
        assert forall j | 1 <= j < |ports| :: ports[j] == ports[1..][j - 1];
        0
  }

  /** The port the loop settles on: the reference's, unless DNS failed at the first. */
  function Chosen(ports: seq<int>, probe: int -> Probe): (k: nat)
    requires ports != []
    ensures k < |ports|
  {
    if probe(ports[0]).status.DnsFailed? then 0 else FirstAnswering(ports, probe)
  }

  /** The short-circuiting loop agrees with the reference exactly when the first
      port's failure is not a DNS failure that a later port would have overcome,
      and it probes nothing after the port it settles on. */
  method ProbeWithPortFallback(ports: seq<int>, probe: int -> Probe)
    returns (r: Result<(int, Probe), string>, tried: seq<int>)
    ensures r.Err? <==> ports == []
    ensures tried <= ports
    ensures r.Ok? ==> r.value == (ports[Chosen(ports, probe)], probe(ports[Chosen(ports, probe)]))
    ensures r.Ok? ==> r.value.0 in tried
    ensures r.Ok? && Answers(probe, r.value.0) ==> r.value.0 == tried[|tried| - 1]
    ensures r.Ok? ==>
              (r.value == (ports[FirstAnswering(ports, probe)], probe(ports[FirstAnswering(ports, probe)]))
               <==> !(probe(ports[0]).status.DnsFailed?
                      && FirstAnswering(ports, probe) > 0
                      && ports[FirstAnswering(ports, probe)] != ports[0]))
    ensures r.Ok? && !probe(ports[0]).status.DnsFailed? ==>
              tried == if Answers(probe, ports[FirstAnswering(ports, probe)])
                       then ports[..FirstAnswering(ports, probe) + 1] else ports
  {
    if ports == [] { return Err("ports must be non-empty"), []; }
    var first := probe(ports[0]);
    tried := [ports[0]];
    if !ConnectivityFailure(first.status) || first.status.DnsFailed? {
      return Ok((ports[0], first)), tried;
    }
    for i := 1 to |ports|
      invariant tried == ports[..i]
      invariant forall j | 0 <= j < i :: !Answers(probe, ports[j])
    {
      var result := probe(ports[i]);
      tried := tried + [ports[i]];
      assert tried == ports[..i + 1];
      if !ConnectivityFailure(result.status) {
        assert FirstAnswering(ports, probe) == i;
        return Ok((ports[i], result)), tried;
      }
    }
    assert tried == ports;
    return Ok((ports[0], first)), tried;
  }

  /** When a DNS failure does not depend on the port, the agreement is unconditional. */
  lemma FallbackMatchesReference(ports: seq<int>, probe: int -> Probe)
    requires ports != []
    requires probe(ports[0]).status.DnsFailed? ==> forall p | p in ports :: probe(p).status.DnsFailed?
    ensures !(probe(ports[0]).status.DnsFailed? && FirstAnswering(ports, probe) > 0)
  {}

  // ── Candidates ───────────────────────────────────────────────────────────

  /** What each enabled source proposes; a disabled source proposes nothing. */
  datatype Proposals = Proposals(
    inventory: seq<string>,
    sans: seq<string>,
    manual: seq<(string, Option<int>)>,
    sightings: seq<(string, int)>)

  predicate NamesHost(p: Proposals, s: Source, h: string) {
    match s
    case Inventory => h in p.inventory
    case CertificateSans => h in p.sans
    case Manual => (h, None) in p.manual
    case NetworkSighting => false
  }

  predicate NamesTarget(p: Proposals, s: Source, t: (string, int)) {
    match s
    case Inventory => false
    case CertificateSans => false
    case Manual => (t.0, Some(t.1)) in p.manual
    case NetworkSighting => t in p.sightings
  }

  datatype Candidates = Candidates(hosts: map<string, Source>, targets: map<(string, int), Source>)

  /** `h` is a candidate exactly when some source named it, and then under the
      highest-precedence source that did. */
  ghost predicate HostMerged(p: Proposals, c: Candidates, h: string) {
    if h in c.hosts then
      && NamesHost(p, c.hosts[h], h)
      && forall s: Source | NamesHost(p, s, h) :: Precedence(s) <= Precedence(c.hosts[h])
    else forall s: Source :: !NamesHost(p, s, h)
  }

  ghost predicate TargetMerged(p: Proposals, c: Candidates, t: (string, int)) {
    if t in c.targets then
      && NamesTarget(p, c.targets[t], t)
      && forall s: Source | NamesTarget(p, s, t) :: Precedence(s) <= Precedence(c.targets[t])
    else forall s: Source :: !NamesTarget(p, s, t)
  }

  /** `for k in keys: m[k] = source` */
  method PutAll<K>(m: map<K, Source>, keys: seq<K>, source: Source) returns (r: map<K, Source>)
    ensures forall k :: k in r <==> k in m || k in keys
    ensures forall k | k in r :: r[k] == if k in keys then source else m[k]
  {
    r := m;
    for i := 0 to |keys|
      invariant forall k :: k in r <==> k in m || k in keys[..i]
      invariant forall k | k in r :: r[k] == if k in keys[..i] then source else m[k]
    {
      r := r[keys[i] := source];
    }
  }

  /** The manual lines without and with a port of their own. */
  method SplitManual(manual: seq<(string, Option<int>)>) returns (hosts: seq<string>, targets: seq<(string, int)>)
    ensures forall h :: h in hosts <==> (h, None) in manual
    ensures forall t :: t in targets <==> (t.0, Some(t.1)) in manual
  {
    hosts, targets := [], [];
    for i := 0 to |manual|
      invariant forall h :: h in hosts <==> (h, None) in manual[..i]
      invariant forall t :: t in targets <==> (t.0, Some(t.1)) in manual[..i]
    {
      var (h, port) := manual[i];
      if port.Some? { targets := targets + [(h, port.value)]; } else { hosts := hosts + [h]; }
    }
  }

  method MergeCandidates(p: Proposals) returns (c: Candidates)
    ensures forall h :: HostMerged(p, c, h)
    ensures forall t :: TargetMerged(p, c, t)
  {
    var hosts := PutAll(map[], p.inventory, Inventory);
    hosts := PutAll(hosts, p.sans, CertificateSans);
    var manualHosts, manualTargets := SplitManual(p.manual);
    hosts := PutAll(hosts, manualHosts, Manual);
    var targets := PutAll(map[], manualTargets, Manual);
    targets := PutAll(targets, p.sightings, NetworkSighting);
    c := Candidates(hosts, targets);
    forall h ensures HostMerged(p, c, h) {
      forall s: Source | NamesHost(p, s, h) ensures h in hosts && Precedence(s) <= Precedence(hosts[h]) {
        match s
        case Inventory =>
        case CertificateSans =>
        case Manual =>
      }
    }
    forall t ensures TargetMerged(p, c, t) {
      forall s: Source | NamesTarget(p, s, t) ensures t in targets && Precedence(s) <= Precedence(targets[t]) {
        match s
        case Manual => assert (t.0, Some(t.1)) in p.manual;
        case NetworkSighting =>
      }
    }
  }

  // ── Links to known certificates ──────────────────────────────────────────

  datatype CertRow = CertRow(id: nat, fingerprint: Option<string>)

  function FirstWithFingerprint(certs: seq<CertRow>, fp: string): (id: Option<nat>)
    ensures id.Some? ==> exists c :: c in certs && c.id == id.value && c.fingerprint == Some(fp)
    ensures id.None? ==> forall c | c in certs :: c.fingerprint != Some(fp)
  {
    if certs == [] then None
    else if certs[0].fingerprint == Some(fp) then Some(certs[0].id)
    else FirstWithFingerprint(certs[1..], fp)
  }

  function LinkFor(certs: seq<CertRow>, p: Probe): Option<nat> {
    if p.status.Different? && p.presented.Some? && p.presented.value != ""
    then FirstWithFingerprint(certs, p.presented.value) else None
  }

  function Expected(cert: CertRow): string {
    if cert.fingerprint.Some? then cert.fingerprint.value else ""
  }

  ghost predicate UniqueIds(certs: seq<CertRow>) {
    forall c, d | c in certs && d in certs && c.id == d.id :: c == d
  }

  /** A result that shows a different certificate is never linked to the scanned one. */
  lemma NeverLinksToItself(certs: seq<CertRow>, cert: CertRow, net: NetResult)
    requires UniqueIds(certs) && cert in certs
    ensures LinkFor(certs, ProbeHostname(net, Expected(cert))) != Some(cert.id)
  {}

  /** It is linked to a certificate with the fingerprint presented whenever there
      is one; nothing else is linked. */
  lemma LinkIff(certs: seq<CertRow>, net: NetResult, expected: string)
    ensures
      var p := ProbeHostname(net, expected);
      LinkFor(certs, p).Some? <==>
        && p.status.Different? && net.Presented? && net.fingerprint != ""
        && exists c :: c in certs && c.fingerprint == Some(net.fingerprint)
    ensures
      var link := LinkFor(certs, ProbeHostname(net, expected));
      link.Some? ==> exists c :: c in certs && c.id == link.value && c.fingerprint == Some(net.fingerprint)
  {}

  // ── The scan ─────────────────────────────────────────────────────────────

  /** The world a scan runs in: the network, and which worker futures raised. */
  datatype World = World(net: (string, int) -> NetResult, raises: (string, Option<int>) -> bool)

  /** The result of one candidate: a hostname, asked at a port of its own or at
      whichever port the fallback chose. */
  datatype Finished = Finished(hostname: string, asked: Option<int>, port: int, source: Source, probe: Probe)

  datatype ScanStatus = ScanCompleted | ScanFailed

  datatype ScanRow = ScanRow(
    status: ScanStatus,
    candidates: nat,
    scanned: nat,
    confirmed: nat,
    different: nat,
    unreachable: nat,
    errors: nat)

  function TouchOf(cert: CertRow, certs: seq<CertRow>, f: Finished, at: int, scan: nat): Touch {
    Touch(Key(cert.id, f.hostname, f.probe.ip, f.port), at, f.source, f.probe.status,
          Evidence(f.probe.presented, f.probe.subject, f.probe.error, LinkFor(certs, f.probe)), scan)
  }

  function Prober(cert: CertRow, w: World, hostname: string): int -> Probe {
    port => ProbeHostname(w.net(hostname, port), Expected(cert))
  }

  /** What comes back for a hostname without a port of its own. */
  function HostResult(cert: CertRow, ports: seq<int>, w: World, h: string, source: Source): Finished
    requires ports != []
  {
    if w.raises(h, None) then Finished(h, None, ports[0], source, PROBE_ERROR)
    else
      var port := ports[Chosen(ports, Prober(cert, w, h))];
      Finished(h, None, port, source, Prober(cert, w, h)(port))
  }

  /** And for a hostname with one. */
  function TargetResult(cert: CertRow, w: World, t: (string, int), source: Source): Finished {
    Finished(t.0, Some(t.1), t.1, source,
             if w.raises(t.0, Some(t.1)) then PROBE_ERROR else Prober(cert, w, t.0)(t.1))
  }

  /** A worker that raised counts as unreachable, without an address, under the
      candidate's own source: at the first port, or at the port of its own. */
  lemma WorkerRaised(cert: CertRow, ports: seq<int>, w: World, h: string, port: int, source: Source)
    requires ports != []
    ensures w.raises(h, None) ==>
              var f := HostResult(cert, ports, w, h, source);
              && f.hostname == h && f.port == ports[0] && f.source == source
              && f.probe.status.Unreachable? && f.probe.ip == None && f.probe.presented == None && f.probe.error.Some?
    ensures w.raises(h, Some(port)) ==>
              var f := TargetResult(cert, w, (h, port), source);
              && f.hostname == h && f.port == port && f.source == source
              && f.probe.status.Unreachable? && f.probe.ip == None && f.probe.presented == None && f.probe.error.Some?
  {}

  /** A worker that did not: the probe of the network at that port, under the candidate's own source. */
  lemma WorkerAnswered(cert: CertRow, ports: seq<int>, w: World, h: string, port: int, source: Source)
    requires ports != []
    ensures !w.raises(h, None) ==>
              var f := HostResult(cert, ports, w, h, source);
              && f.hostname == h && f.source == source && f.port in ports
              && f.probe == ProbeHostname(w.net(h, f.port), Expected(cert))
    ensures !w.raises(h, Some(port)) ==>
              var f := TargetResult(cert, w, (h, port), source);
              && f.hostname == h && f.source == source && f.port == port
              && f.probe == ProbeHostname(w.net(h, port), Expected(cert))
  {}

  ghost predicate HostDone(cert: CertRow, hosts: map<string, Source>, ports: seq<int>, w: World, f: Finished) {
    && ports != [] && f.asked.None? && f.hostname in hosts
    && f == HostResult(cert, ports, w, f.hostname, hosts[f.hostname])
  }

  ghost predicate TargetDone(cert: CertRow, targets: map<(string, int), Source>, w: World, f: Finished) {
    f.asked.Some? && (f.hostname, f.asked.value) in targets &&
    f == TargetResult(cert, w, (f.hostname, f.asked.value), targets[(f.hostname, f.asked.value)])
  }

  ghost predicate NoneTwice(done: seq<Finished>) {
    forall i, j | 0 <= i < j < |done| :: done[i].hostname != done[j].hostname || done[i].asked != done[j].asked
  }

  /** One result for each candidate and no other: what its probe gave. */
  ghost predicate OneEach(cert: CertRow, c: Candidates, ports: seq<int>, w: World, done: seq<Finished>) {
    && NoneTwice(done)
    && (forall f | f in done :: HostDone(cert, c.hosts, ports, w, f) || TargetDone(cert, c.targets, w, f))
    && (forall h | h in c.hosts :: ports != [] && HostResult(cert, ports, w, h, c.hosts[h]) in done)
    && (forall t | t in c.targets :: TargetResult(cert, w, t, c.targets[t]) in done)
  }

  method AwaitHosts(cert: CertRow, hosts: map<string, Source>, ports: seq<int>, w: World)
    returns (done: seq<Finished>)
    requires ports != [] || hosts == map[]
    ensures |done| == |hosts| && NoneTwice(done)
    ensures forall f | f in done :: HostDone(cert, hosts, ports, w, f)
    ensures forall h | h in hosts :: ports != [] && HostResult(cert, ports, w, h, hosts[h]) in done
  {
    done := [];
    var todo := hosts.Keys;
    while todo != {}
      invariant todo <= hosts.Keys
      invariant |done| + |todo| == |hosts| && NoneTwice(done)
      invariant forall f | f in done :: HostDone(cert, hosts, ports, w, f) && f.hostname !in todo
      invariant forall h | h in hosts.Keys - todo :: ports != [] && HostResult(cert, ports, w, h, hosts[h]) in done
      decreases todo
    {
      var h :| h in todo;
      var f;
      if w.raises(h, None) {
        f := Finished(h, None, ports[0], hosts[h], PROBE_ERROR);
      } else {
        var r, _ := ProbeWithPortFallback(ports, Prober(cert, w, h));
        f := Finished(h, None, r.value.0, hosts[h], r.value.1);
      }
      AddDone(done, f);
      done := done + [f];
      todo := todo - {h};
    }
  }

  method AwaitTargets(cert: CertRow, targets: map<(string, int), Source>, w: World) returns (done: seq<Finished>)
    ensures |done| == |targets| && NoneTwice(done)
    ensures forall f | f in done :: TargetDone(cert, targets, w, f)
    ensures forall t | t in targets :: TargetResult(cert, w, t, targets[t]) in done
  {
    done := [];
    var todo := targets.Keys;
    while todo != {}
      invariant todo <= targets.Keys
      invariant |done| + |todo| == |targets| && NoneTwice(done)
      invariant forall f | f in done :: TargetDone(cert, targets, w, f) && (f.hostname, f.asked.value) !in todo
      invariant forall t | t in targets.Keys - todo :: TargetResult(cert, w, t, targets[t]) in done
      decreases todo
    {
      var t :| t in todo;
      var probe := if w.raises(t.0, Some(t.1)) then PROBE_ERROR else ProbeHostname(w.net(t.0, t.1), Expected(cert));
      var f := Finished(t.0, Some(t.1), t.1, targets[t], probe);
      AddDone(done, f);
      done := done + [f];
      todo := todo - {t};
    }
  }

  lemma AddDone(done: seq<Finished>, f: Finished)
    ensures forall g :: g in done + [f] <==> g in done || g == f
    ensures NoneTwice(done) && (forall g | g in done :: g.hostname != f.hostname || g.asked != f.asked) ==>
              NoneTwice(done + [f])
  {}

  /** Each candidate's future is awaited once: exactly one result per candidate,
      under the candidate's own source, and it is what that candidate's probe gave. */
  method AwaitAll(cert: CertRow, c: Candidates, ports: seq<int>, w: World) returns (done: seq<Finished>)
    requires ports != [] || c.hosts == map[]
    ensures |done| == |c.hosts| + |c.targets|
    ensures OneEach(cert, c, ports, w, done)
  {
    var first := AwaitHosts(cert, c.hosts, ports, w);
    var second := AwaitTargets(cert, c.targets, w);
    done := first + second;
    assert forall f | f in done :: f in first || f in second;
    forall i, j | 0 <= i < j < |done| ensures done[i].hostname != done[j].hostname || done[i].asked != done[j].asked {
      if i < |first| <= j { assert first[i] in first && second[j - |first|] in second; }
    }
  }

  function Count(done: seq<Finished>, s: ProbeStatus): nat {
    if done == [] then 0
    else Count(done[..|done| - 1], s) + (if done[|done| - 1].probe.status == s then 1 else 0)
  }

  /** The counters after a list of results. */
  function Tally(done: seq<Finished>): map<ProbeStatus, nat> {
    map[Confirmed := Count(done, Confirmed), Different := Count(done, Different),
        Unreachable := Count(done, Unreachable), DnsFailed := Count(done, DnsFailed),
        TlsFailed := Count(done, TlsFailed), Timeout := Count(done, Timeout)]
  }

  lemma TallyStep(done: seq<Finished>, f: Finished)
    ensures f.probe.status in Tally(done)
    ensures Tally(done + [f]) == Tally(done)[f.probe.status := Tally(done)[f.probe.status] + 1]
  {
    assert (done + [f])[..|done|] == done;
    var s := f.probe.status;
    assert s.Confirmed? || s.Different? || s.Unreachable? || s.DnsFailed? || s.TlsFailed? || s.Timeout?;
  }

  lemma {:induction false} TallySum(done: seq<Finished>)
    ensures Count(done, Confirmed) + Count(done, Different) + Count(done, Unreachable) +
            Count(done, DnsFailed) + Count(done, TlsFailed) + Count(done, Timeout) == |done|
  {
    if done != [] { TallySum(done[..|done| - 1]); }
  }

  method CountAll(done: seq<Finished>) returns (counts: map<ProbeStatus, nat>)
    ensures counts == Tally(done)
  {
    counts := Tally([]);
    for i := 0 to |done|
      invariant counts == Tally(done[..i])
    {
      TallyStep(done[..i], done[i]);
      assert done[..i] + [done[i]] == done[..i + 1];
      counts := counts[done[i].probe.status := counts[done[i].probe.status] + 1];
    }
    assert done[..|done|] == done;
  }

  /** Records every result and commits, or -- when something raises after
      `failAfter` results, the commit itself after all of them -- rolls everything
      back.  Without candidates there is nothing to raise.  The counters of a completed
      scan add up; `scannedBefore` is what a reused scan row already counted. */
  method RecordScan(session: Session, cert: CertRow, certs: seq<CertRow>, done: seq<Finished>,
                    times: nat -> int, scan: nat, scannedBefore: nat, failAfter: Option<nat>,
                    ghost before: seq<Touch>)
    returns (row: ScanRow, touches: seq<Touch>)
    requires Settled(session.State(), before)
    modifies session
    ensures |touches| == |done|
    ensures forall i | 0 <= i < |done| :: touches[i] == TouchOf(cert, certs, done[i], times(i), scan)
    ensures row.status.ScanFailed? <==> done != [] && failAfter.Some? && failAfter.value <= |done|
    ensures row.status.ScanFailed? ==>
              session.committed == old(session.committed) && Settled(session.State(), before)
    ensures row.status.ScanCompleted? ==>
              && Settled(session.State(), before + touches)
              && row.scanned == scannedBefore + row.candidates
              && row.candidates == row.confirmed + row.different + row.unreachable + row.errors
              && row.confirmed == Count(done, Confirmed)
              && row.different == Count(done, Different)
              && row.unreachable == Count(done, Unreachable)
    ensures row.candidates == |done|
  {
    touches := seq(|done|, i requires 0 <= i < |done| => TouchOf(cert, certs, done[i], times(i), scan));
    var ok := session.StoreScan(touches, if done == [] then None else failAfter, before);
    row := Summarize(done, ok, scannedBefore);
  }

  method Summarize(done: seq<Finished>, ok: bool, scannedBefore: nat) returns (row: ScanRow)
    ensures row.status == if ok then ScanCompleted else ScanFailed
    ensures row.scanned == scannedBefore + row.candidates
    ensures row.candidates == |done| == row.confirmed + row.different + row.unreachable + row.errors
    ensures row.confirmed == Count(done, Confirmed)
    ensures row.different == Count(done, Different)
    ensures row.unreachable == Count(done, Unreachable)
  {
    var counts := CountAll(done);
    TallySum(done);
    row := ScanRow(if ok then ScanCompleted else ScanFailed, |done|, scannedBefore + |done|,
                   counts[Confirmed], counts[Different], counts[Unreachable],
                   counts[DnsFailed] + counts[TlsFailed] + counts[Timeout]);
  }

  /** The caller's ports, or the configured ones when the caller gives none. */
  function Resolved(ports: Option<seq<int>>, configured: seq<int>): seq<int> {
    if ports.Some? then ports.value else configured
  }

  /** Hostnames are to be tried, and there is no port to try them at: the first
      result that is awaited breaks the scan. */
  predicate Portless(c: Candidates, ports: seq<int>) {
    ports == [] && c.hosts != map[]
  }

  /** A whole scan.  An explicitly empty port list is rejected before anything
      happens; an empty configured one makes the scan fail when some hostname has no
      port of its own.  Otherwise every candidate is probed once, and what its probe
      gave is recorded once, in the order of `done`. */
  method StartScan(session: Session, cert: CertRow, certs: seq<CertRow>, p: Proposals,
                   ports: Option<seq<int>>, configured: seq<int>, w: World, times: nat -> int, scan: nat,
                   scannedBefore: nat, failAfter: Option<nat>, ghost before: seq<Touch>)
    returns (r: Result<ScanRow, string>, c: Candidates, done: seq<Finished>, touches: seq<Touch>)
    requires Settled(session.State(), before) && UniqueIds(certs) && cert in certs
    modifies session
    ensures r.Err? <==> ports == Some([])
    ensures r.Err? || r.value.status.ScanFailed? ==>
              session.committed == old(session.committed) && Settled(session.State(), before)
    ensures r.Ok? ==>
              && (forall h :: HostMerged(p, c, h))
              && (forall t :: TargetMerged(p, c, t))
              && r.value.candidates == |c.hosts| + |c.targets|
              && (Portless(c, Resolved(ports, configured)) ==> r.value.status.ScanFailed? && touches == [])
              && (r.value.status.ScanFailed? <==>
                    || (|c.hosts| > 0 && (if ports.Some? then ports.value else configured) == [])
                    || (|c.hosts| + |c.targets| > 0 && failAfter.Some? && failAfter.value <= |c.hosts| + |c.targets|))
    ensures r.Ok? && !Portless(c, Resolved(ports, configured)) ==>
              && OneEach(cert, c, Resolved(ports, configured), w, done)
              && r.value.candidates == |done| == |touches|
              && (forall i | 0 <= i < |done| :: touches[i] == TouchOf(cert, certs, done[i], times(i), scan))
              && (forall t | t in touches :: t.evidence.link != Some(cert.id))
    ensures r.Ok? && r.value.status.ScanCompleted? ==>
              && Settled(session.State(), before + touches)
              && r.value.scanned == scannedBefore + r.value.candidates
              && r.value.candidates ==
                 r.value.confirmed + r.value.different + r.value.unreachable + r.value.errors
  {
    c, done, touches := Candidates(map[], map[]), [], [];
    if ports == Some([]) { return Err("At least one port is required"), c, done, touches; }
    var resolved := Resolved(ports, configured);
    c := MergeCandidates(p);
    if Portless(c, resolved) {
      session.RollBack();
      return Ok(ScanRow(ScanFailed, |c.hosts| + |c.targets|, scannedBefore, 0, 0, 0, 0)), c, done, touches;
    }
    done := AwaitAll(cert, c, resolved, w);
    var row;
    row, touches := RecordScan(session, cert, certs, done, times, scan, scannedBefore, failAfter, before);
    forall t | t in touches ensures t.evidence.link != Some(cert.id) {
      var i :| 0 <= i < |touches| && touches[i] == t;
      assert done[i] in done;
      NoSelfLink(cert, certs, c, resolved, w, done[i]);
    }
    r := Ok(row);
  }

  /** What a completed scan leaves in the table for one of its results: a row
      under the scanned certificate and the endpoint probed, and, unless a later
      result of the scan was for the very same endpoint, with this result in it. */
  lemma ResultStored(cert: CertRow, certs: seq<CertRow>, done: seq<Finished>, times: nat -> int, scan: nat,
                     before: seq<Touch>, touches: seq<Touch>, i: nat)
    requires |touches| == |done| && i < |done|
    requires forall k | 0 <= k < |done| :: touches[k] == TouchOf(cert, certs, done[k], times(k), scan)
    ensures
      var f, rows := done[i], Table(before + touches);
      exists j ::
        && 0 <= j < |rows|
        && rows[j].key == Key(cert.id, f.hostname, f.probe.ip, f.port)
        && Precedence(f.source) <= Precedence(rows[j].source)
        && ((forall k | i < k < |done| ::
               done[k].hostname != f.hostname || done[k].port != f.port || done[k].probe.ip != f.probe.ip) ==>
              && rows[j].status == f.probe.status && rows[j].lastChecked == times(i) && rows[j].scan == scan
              && (f.probe.presented.Some? && Reachable(f.probe.status) ==> rows[j].lastSeen == Some(times(i)))
              && rows[j].evidence.presented == f.probe.presented && rows[j].evidence.subject == f.probe.subject
              && rows[j].evidence.error == f.probe.error && rows[j].evidence.link == LinkFor(certs, f.probe))
  {
    var ts, n := before + touches, |before|;
    assert ts[n + i] == touches[i];
    var j := TouchStored(ts, n + i);
    if forall k | i < k < |done| ::
        done[k].hostname != done[i].hostname || done[k].port != done[i].port || done[k].probe.ip != done[i].probe.ip {
      forall k | n + i < k < |ts| ensures ts[k].key != ts[n + i].key {
        assert ts[k] == touches[k - n];
        assert done[k - n].hostname != done[i].hostname || done[k - n].port != done[i].port ||
               done[k - n].probe.ip != done[i].probe.ip;
      }
    }
  }

  lemma NoSelfLink(cert: CertRow, certs: seq<CertRow>, c: Candidates, ports: seq<int>, w: World, f: Finished)
    requires UniqueIds(certs) && cert in certs
    requires HostDone(cert, c.hosts, ports, w, f) || TargetDone(cert, c.targets, w, f)
    ensures LinkFor(certs, f.probe) != Some(cert.id)
  {
    NeverLinksToItself(certs, cert, w.net(f.hostname, f.port));
  }
}
