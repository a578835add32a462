/**
 The renewal lifecycle of certificates.  A renewal is two commits: the start
 marks the certificate and records a running execution, the finish clears both.
 In between the worker may crash, an administrator may cancel, and any later
 read may find the renewal stale.  Times are in seconds.
 */
module Renewal {
  import opened Options

  datatype CertStatus = Active | Issuing | Renewing | Expiring | Expired | Revoked | Broken | Discovered | Archived

  datatype RenewalStatus = Idle | InProgress | Done | Unsuccessful | Skipped | Disabled

  datatype Cert = Cert(
    managed: bool,
    named: bool,
    status: CertStatus,
    renewal: RenewalStatus,
    autoRenew: bool,
    validUntil: Option<int>,
    updatedAt: int)

  /** A purged execution is no longer stored; its place keeps the others' apart. */
  datatype ExecStatus = Running | Succeeded | Failed | Purged

  /** A renew execution; it loses its certificate when that is deleted. */
  datatype Exec = Exec(cert: Option<nat>, started: int, status: ExecStatus)

  datatype State = State(certs: map<nat, Cert>, execs: seq<Exec>)

  const STALE_SECONDS: int := 60 * 60

  // ── Single steps ─────────────────────────────────────────────────────────

  predicate IsRunning(execs: seq<Exec>, i: nat, id: nat) {
    i < |execs| && execs[i].cert == Some(id) && execs[i].status.Running?
  }

  /** Started later, or at the same time and recorded later. */
  predicate Later(execs: seq<Exec>, j: nat, i: nat)
    requires i < |execs| && j < |execs|
  {
    execs[i].started < execs[j].started || (execs[i].started == execs[j].started && i < j)
  }

  /** The running renew execution of a certificate that started last. */
  function LatestRunning(execs: seq<Exec>, id: nat): (r: Option<nat>)
    ensures r.Some? ==> IsRunning(execs, r.value, id)
    ensures r.Some? ==> forall j: nat | IsRunning(execs, j, id) :: !Later(execs, j, r.value)
    ensures r.None? ==> forall j: nat :: !IsRunning(execs, j, id)
  {
    if execs == [] then None
    else
      var n := |execs| - 1;
      var r := LatestRunning(execs[..n], id);
      assert forall j: nat | j < n :: IsRunning(execs[..n], j, id) <==> IsRunning(execs, j, id);
      if IsRunning(execs, n, id) && (r.None? || execs[r.value].started <= execs[n].started) then Some(n) else r
  }

  datatype Guard = NotFound | NotRenewable | Conflict | Accepted

  function RenewGuard(s: State, id: nat): Guard {
    if id !in s.certs then NotFound
    else if !s.certs[id].managed || !s.certs[id].named then NotRenewable
    else if s.certs[id].renewal.InProgress? then Conflict
    else Accepted
  }

  function Start(s: State, id: nat, now: int): State {
    if !RenewGuard(s, id).Accepted? then s
    else State(s.certs[id := s.certs[id].(renewal := InProgress, status := Renewing, updatedAt := now)],
               s.execs + [Exec(Some(id), now, Running)])
  }

  datatype ProviderResult = Renewed(validUntil: int) | NotDue | Refused

  /** The status a certificate falls back to when a renewal did not succeed. */
  function Fallback(c: Cert, now: int): CertStatus {
    if c.validUntil.Some? && c.validUntil.value > now then Active else Expiring
  }

  /** The worker of execution i reports back.  On a purged one its commit is rejected. */
  function Finish(s: State, id: nat, i: nat, result: ProviderResult, now: int): State {
    if id !in s.certs || i >= |s.execs| || s.execs[i].status.Purged? then s
    else
      var c := s.certs[id];
      match result
      case Renewed(until) =>
        State(s.certs[id := c.(validUntil := Some(until), renewal := Done, status := Active, updatedAt := now)],
              s.execs[i := s.execs[i].(status := Succeeded)])
      case NotDue =>
        State(s.certs[id := c.(renewal := Skipped, status := Active, updatedAt := now)],
              s.execs[i := s.execs[i].(status := Succeeded)])
      case Refused =>
        State(s.certs[id := c.(renewal := Unsuccessful, status := Fallback(c, now), updatedAt := now)],
              s.execs[i := s.execs[i].(status := Failed)])
  }

  /** What cancelling and stale detection both do. */
  function GiveUp(s: State, id: nat, now: int): State
    requires id in s.certs
  {
    var c := s.certs[id];
    var e := LatestRunning(s.execs, id);
    State(s.certs[id := c.(renewal := Unsuccessful, status := Fallback(c, now), updatedAt := now)],
          if e.Some? then s.execs[e.value := s.execs[e.value].(status := Failed)] else s.execs)
  }

  function Cancel(s: State, id: nat, now: int): State {
    if id !in s.certs || !s.certs[id].renewal.InProgress? then s else GiveUp(s, id, now)
  }

  function StartedAt(s: State, id: nat): int
    requires id in s.certs
  {
    var e := LatestRunning(s.execs, id);
    if e.Some? then s.execs[e.value].started else s.certs[id].updatedAt
  }

  function StaleCheck(s: State, id: nat, now: int): State {
    if id !in s.certs || !s.certs[id].renewal.InProgress? || now - StartedAt(s, id) < STALE_SECONDS then s
    else GiveUp(s, id, now)
  }

  /** Retention: executions from before the cutoff are deleted, whatever their status. */
  function Purge(s: State, cutoff: int): State {
    s.(execs := seq(|s.execs|, i requires 0 <= i < |s.execs| =>
                  if s.execs[i].started < cutoff then Exec(None, s.execs[i].started, Purged) else s.execs[i]))
  }

  // ── The state machine ────────────────────────────────────────────────────

  datatype Step =
    | IssueStep(id: nat, cert: Cert)
    | IssueDone(id: nat, validUntil: Option<int>)
    | ImportStep(id: nat, cert: Cert)
    | StartStep(id: nat, now: int)
    | FinishStep(id: nat, exec: nat, result: ProviderResult, now: int)
    | CancelStep(id: nat, now: int)
    | StaleStep(id: nat, now: int)
    | RevokeStep(id: nat, success: bool)
    | RescanStep(id: nat, status: CertStatus)
    | SetAutoRenew(id: nat, autoRenew: bool)
    | DeleteStep(id: nat)
    | PurgeStep(cutoff: int)

  function Apply(s: State, step: Step): State {
    match step
    case IssueStep(id, c) =>
      if id in s.certs then s
      else s.(certs := s.certs[id := c.(managed := true, status := Issuing, renewal := Idle, validUntil := None)])
    case IssueDone(id, until) =>
      if id !in s.certs then s
      else if until.Some?
      then s.(certs := s.certs[id := s.certs[id].(status := Active, renewal := Idle, validUntil := until)])
      else s.(certs := s.certs[id := s.certs[id].(status := Broken, renewal := Unsuccessful)])
    case ImportStep(id, c) =>
      if id in s.certs then s
      else s.(certs := s.certs[id := c.(managed := false, status := Active, renewal := Idle)])
    case StartStep(id, now) => Start(s, id, now)
    case FinishStep(id, i, result, now) => Finish(s, id, i, result, now)
    case CancelStep(id, now) => Cancel(s, id, now)
    case StaleStep(id, now) => StaleCheck(s, id, now)
    case RevokeStep(id, success) =>
      if id !in s.certs || !success then s
      else s.(certs := s.certs[id := s.certs[id].(status := Revoked, renewal := Disabled, autoRenew := false)])
    case RescanStep(id, status) =>
      if id !in s.certs || s.certs[id].managed || status !in {Discovered, Expired, Expiring, Active} then s
      else s.(certs := s.certs[id := s.certs[id].(status := status)])
    case SetAutoRenew(id, b) =>
      if id !in s.certs then s else s.(certs := s.certs[id := s.certs[id].(autoRenew := b)])
    case DeleteStep(id) =>
      if id !in s.certs || (s.certs[id].managed && s.certs[id].status !in {Broken, Revoked, Archived}) then s
      else State(s.certs - {id},
                 seq(|s.execs|, i requires 0 <= i < |s.execs| =>
                   if s.execs[i].cert == Some(id) then s.execs[i].(cert := None) else s.execs[i]))
    case PurgeStep(cutoff) => Purge(s, cutoff)
  }

  function Run(s: State, steps: seq<Step>): State {
    if steps == [] then s else Apply(Run(s, steps[..|steps| - 1]), steps[|steps| - 1])
  }

  // ── What the steps come to ───────────────────────────────────────────────

  predicate Due(c: Cert, now: int, threshold: int) {
    && c.autoRenew
    && (c.status.Active? || c.status.Expiring?)
    && c.validUntil.Some?
    && c.validUntil.value <= now + threshold
  }

  /** Everything but the certificate's own progress stays as it was. */
  predicate SameOtherwise(c: Cert, c': Cert) {
    c'.managed == c.managed && c'.named == c.named && c'.autoRenew == c.autoRenew
  }

  ghost predicate OthersKept(s: State, s': State, id: nat) {
    s'.certs.Keys == s.certs.Keys && forall k | k in s.certs && k != id :: s'.certs[k] == s.certs[k]
  }

  /** A renewal starts exactly for a managed, named certificate that is not being
      renewed, and records one execution, running from now on. */
  lemma StartOutcome(s: State, id: nat, now: int)
    ensures
      var s' := Start(s, id, now);
      if id in s.certs && s.certs[id].managed && s.certs[id].named && !s.certs[id].renewal.InProgress? then
        && OthersKept(s, s', id) && SameOtherwise(s.certs[id], s'.certs[id])
        && s'.certs[id].renewal.InProgress? && s'.certs[id].status.Renewing?
        && s'.certs[id].validUntil == s.certs[id].validUntil && s'.certs[id].updatedAt == now
        && |s'.execs| == |s.execs| + 1 && s'.execs[..|s.execs|] == s.execs
        && IsRunning(s'.execs, |s.execs|, id) && s'.execs[|s.execs|].started == now
      else s' == s
  {
    assert RenewGuard(s, id).Accepted? ==> Start(s, id, now).execs[..|s.execs|] == s.execs;
  }

  /** A whole renewal, by what the provider says.  Renewed: the new expiry is
      stored, and the certificate is due again exactly when that falls within the
      threshold.  Not due, or refused: the old expiry stays; a refused certificate is
      active exactly while it is still valid.  The next renewal is accepted each time. */
  lemma RenewalOutcome(s: State, id: nat, result: ProviderResult, now: int, later: int, threshold: int)
    requires RenewGuard(s, id).Accepted?
    ensures
      var i := |s.execs|;
      var s' := Finish(Start(s, id, now), id, i, result, later);
      && OthersKept(s, s', id) && SameOtherwise(s.certs[id], s'.certs[id])
      && |s'.execs| == i + 1 && s'.execs[..i] == s.execs && s'.execs[i].cert == Some(id)
      && RenewGuard(s', id).Accepted? && s'.certs[id].updatedAt == later
      && (result.Renewed? ==>
            && s'.certs[id].validUntil == Some(result.validUntil) && s'.execs[i].status.Succeeded?
            && s'.certs[id].status.Active? && s'.certs[id].renewal.Done?
            && (Due(s'.certs[id], later, threshold) <==>
                  s.certs[id].autoRenew && result.validUntil <= later + threshold))
      && (!result.Renewed? ==> s'.certs[id].validUntil == s.certs[id].validUntil)
      && (result.NotDue? ==>
            s'.execs[i].status.Succeeded? && s'.certs[id].status.Active? && s'.certs[id].renewal.Skipped?)
      && (result.Refused? ==>
            && s'.execs[i].status.Failed? && s'.certs[id].renewal.Unsuccessful?
            && (s'.certs[id].status.Active? <==> s.certs[id].validUntil.Some? && s.certs[id].validUntil.value > later)
            && (!s'.certs[id].status.Active? ==> s'.certs[id].status.Expiring?))
  {
    var i := |s.execs|;
    var started := Start(s, id, now);
    assert started.execs[..i] == s.execs;
    assert Finish(started, id, i, result, later).execs[..i] == s.execs;
  }

  /** What cancelling a renewal in progress, or finding it stale, leaves. */
  lemma GiveUpOutcome(s: State, id: nat, now: int)
    requires id in s.certs && s.certs[id].renewal.InProgress?
    ensures
      var s', e := GiveUp(s, id, now), LatestRunning(s.execs, id);
      && OthersKept(s, s', id) && SameOtherwise(s.certs[id], s'.certs[id])
      && s'.certs[id].renewal.Unsuccessful? && s'.certs[id].validUntil == s.certs[id].validUntil
      && (s'.certs[id].status.Active? <==> s.certs[id].validUntil.Some? && s.certs[id].validUntil.value > now)
      && (!s'.certs[id].status.Active? ==> s'.certs[id].status.Expiring?)
      && |s'.execs| == |s.execs|
      && forall i | 0 <= i < |s.execs| ::
           s'.execs[i] == if e == Some(i) then s.execs[i].(status := Failed) else s.execs[i]
    ensures Cancel(s, id, now) == GiveUp(s, id, now)
  {}

  /** A certificate from its request to the end of its issuance. */
  lemma IssueOutcome(s: State, id: nat, c: Cert, until: Option<int>, now: int, threshold: int)
    requires id !in s.certs
    ensures
      var asked := Apply(s, IssueStep(id, c));
      var done := Apply(asked, IssueDone(id, until));
      && asked.certs.Keys == s.certs.Keys + {id} && done.certs.Keys == asked.certs.Keys
      && (forall k | k in s.certs :: done.certs[k] == s.certs[k]) && done.execs == s.execs
      && asked.certs[id].managed && asked.certs[id].status.Issuing? && !Due(asked.certs[id], now, threshold)
      && done.certs[id].managed && done.certs[id].autoRenew == c.autoRenew
      && (until.Some? ==>
            && done.certs[id].status.Active? && done.certs[id].validUntil == until
            && (Due(done.certs[id], now, threshold) <==> c.autoRenew && until.value <= now + threshold))
      && (until.None? ==> !Due(done.certs[id], now, threshold) && id !in Apply(done, DeleteStep(id)).certs)
  {}

  /** A revoked certificate is never due, and can be deleted; a revocation that fails changes nothing. */
  lemma RevokeOutcome(s: State, id: nat, now: int, threshold: int)
    requires id in s.certs
    ensures
      var s' := Apply(s, RevokeStep(id, true));
      && OthersKept(s, s', id) && s'.execs == s.execs
      && s'.certs[id].status.Revoked? && !s'.certs[id].autoRenew && !s'.certs[id].renewal.InProgress?
      && s'.certs[id].validUntil == s.certs[id].validUntil && s'.certs[id].managed == s.certs[id].managed
      && !Due(s'.certs[id], now, threshold) && id !in Apply(s', DeleteStep(id)).certs
    ensures Apply(s, RevokeStep(id, false)) == s
  {}

  /** Deleting takes one certificate, exactly when the platform does not manage it
      or it has failed, been revoked or archived; its executions stay, without it. */
  lemma DeleteOutcome(s: State, id: nat)
    requires id in s.certs
    ensures
      var s', c := Apply(s, DeleteStep(id)), s.certs[id];
      if !c.managed || c.status.Broken? || c.status.Revoked? || c.status.Archived? then
        && s'.certs.Keys == s.certs.Keys - {id} && (forall k | k in s'.certs :: s'.certs[k] == s.certs[k])
        && |s'.execs| == |s.execs|
        && forall i | 0 <= i < |s.execs| ::
             && s'.execs[i].status == s.execs[i].status && s'.execs[i].started == s.execs[i].started
             && s'.execs[i].cert == if s.execs[i].cert == Some(id) then None else s.execs[i].cert
      else s' == s
  {}

  /** Importing brings in a certificate the platform does not manage, so never one
      that is renewed; scanning again changes the status of such ones only. */
  lemma ImportOutcome(s: State, id: nat, c: Cert, status: CertStatus)
    ensures id !in s.certs ==>
              var s' := Apply(s, ImportStep(id, c));
              && s'.certs.Keys == s.certs.Keys + {id} && !RenewGuard(s', id).Accepted? && s'.execs == s.execs
              && forall k | k in s.certs :: s'.certs[k] == s.certs[k]
    ensures id in s.certs && s.certs[id].managed ==> Apply(s, RescanStep(id, status)) == s
    ensures id in s.certs && !s.certs[id].managed && status in {Discovered, Expired, Expiring, Active} ==>
              var s' := Apply(s, RescanStep(id, status));
              OthersKept(s, s', id) && s'.execs == s.execs && s'.certs[id] == s.certs[id].(status := status)
  {}

  /** Switching auto-renewal off takes a certificate out of every sweep, and
      switching it on leaves its being due to status and expiry alone. */
  lemma AutoRenewOutcome(s: State, id: nat, now: int, threshold: int)
    requires id in s.certs
    ensures
      var off := Apply(s, SetAutoRenew(id, false));
      OthersKept(s, off, id) && off.execs == s.execs && !Due(off.certs[id], now, threshold)
    ensures
      var on, c := Apply(s, SetAutoRenew(id, true)), s.certs[id];
      && OthersKept(s, on, id) && on.execs == s.execs && on.certs[id].(autoRenew := c.autoRenew) == c
      && (Due(on.certs[id], now, threshold) <==>
            (c.status.Active? || c.status.Expiring?) && c.validUntil.Some? && c.validUntil.value <= now + threshold)
  {}

  // ── Status and renewal status agree ──────────────────────────────────────

  predicate Consistent(c: Cert) {
    (c.renewal.InProgress? <==> c.status.Renewing?) && (c.renewal.InProgress? ==> c.managed)
  }

  ghost predicate Agree(s: State) {
    forall id | id in s.certs :: Consistent(s.certs[id])
  }

  lemma StepAgrees(s: State, step: Step)
    requires Agree(s)
    ensures Agree(Apply(s, step))
  {
    var s' := Apply(s, step);
    forall id | id in s'.certs ensures Consistent(s'.certs[id]) {
      assert id in s.certs ==> Consistent(s.certs[id]);
    }
  }

  /** In every run, in progress means renewing, and only managed certificates get there. */
  lemma {:induction false} RunAgrees(s: State, steps: seq<Step>)
    requires Agree(s)
    ensures Agree(Run(s, steps))
  {
    if steps != [] {
      var init := steps[..|steps| - 1];
      RunAgrees(s, init);
      StepAgrees(Run(s, init), steps[|steps| - 1]);
    }
  }

  // ── One running execution per renewal in progress ────────────────────────

  /** A certificate has exactly one running renew execution while its renewal is
      in progress, and none otherwise. */
  ghost predicate OneWorker(s: State) {
    && (forall i, id | IsRunning(s.execs, i, id) :: id in s.certs && s.certs[id].renewal.InProgress?)
    && (forall i, j, id | IsRunning(s.execs, i, id) && IsRunning(s.execs, j, id) :: i == j)
    && (forall id | id in s.certs && s.certs[id].renewal.InProgress? :: exists i :: IsRunning(s.execs, i, id))
  }

  predicate BusyRenewing(s: State, id: nat) {
    id in s.certs && s.certs[id].renewal.InProgress?
  }

  /** A worker reports only while its execution is running, so a cancelled or
      stale worker never does; a certificate is not revoked, and no issuance of it
      ends, in the middle of a renewal; no running execution is purged. */
  ghost predicate Disciplined(s: State, step: Step) {
    match step
    case PurgeStep(cutoff) => !PurgesRunning(s, cutoff)
    case FinishStep(id, i, _, _) => IsRunning(s.execs, i, id)
    case RevokeStep(id, success) => success ==> !BusyRenewing(s, id)
    case IssueDone(id, _) => !BusyRenewing(s, id)
    case _ => true
  }

  ghost predicate PurgesRunning(s: State, cutoff: int) {
    exists i: nat, id: nat :: IsRunning(s.execs, i, id) && s.execs[i].started < cutoff
  }

  /** A certificate's own running execution stops, whatever the certificate becomes. */
  lemma StopsRunning(s: State, id: nat, i: nat, e: ExecStatus, c: Cert)
    requires OneWorker(s) && IsRunning(s.execs, i, id) && !e.Running? && !c.renewal.InProgress?
    ensures OneWorker(State(s.certs[id := c], s.execs[i := s.execs[i].(status := e)]))
  {
    var s' := State(s.certs[id := c], s.execs[i := s.execs[i].(status := e)]);
    assert forall j, k :: IsRunning(s'.execs, j, k) <==> IsRunning(s.execs, j, k) && j != i;
    forall k | k in s'.certs && s'.certs[k].renewal.InProgress? ensures exists j :: IsRunning(s'.execs, j, k) {
      var j :| IsRunning(s.execs, j, k);
      assert IsRunning(s'.execs, j, k);
    }
  }

  /** Editing a certificate without touching executions. */
  lemma EditKeeps(s: State, id: nat, c: Cert)
    requires OneWorker(s)
    requires c.renewal.InProgress? <==> BusyRenewing(s, id)
    ensures OneWorker(s.(certs := s.certs[id := c]))
  {}

  lemma GiveUpKeeps(s: State, id: nat, now: int)
    requires OneWorker(s) && BusyRenewing(s, id)
    ensures OneWorker(GiveUp(s, id, now))
  {
    var e := LatestRunning(s.execs, id);
    var c := s.certs[id];
    StopsRunning(s, id, e.value, Failed, c.(renewal := Unsuccessful, status := Fallback(c, now), updatedAt := now));
  }

  lemma StartKeeps(s: State, id: nat, now: int)
    requires OneWorker(s)
    ensures OneWorker(Start(s, id, now))
  {
    var s' := Start(s, id, now);
    if RenewGuard(s, id).Accepted? {
      var n := |s.execs|;
      assert forall j, k :: IsRunning(s'.execs, j, k) <==> IsRunning(s.execs, j, k) || (j == n && k == id);
      forall k | k in s'.certs && s'.certs[k].renewal.InProgress? ensures exists j :: IsRunning(s'.execs, j, k) {
        if k == id { assert IsRunning(s'.execs, n, k); } else {
          var j :| IsRunning(s.execs, j, k);
          assert IsRunning(s'.execs, j, k);
        }
      }
    }
  }

  lemma DeleteKeeps(s: State, id: nat)
    requires OneWorker(s) && Agree(s)
    ensures OneWorker(Apply(s, DeleteStep(id)))
  {
    var s' := Apply(s, DeleteStep(id));
    if s' != s {
      assert forall j, k :: IsRunning(s'.execs, j, k) <==> IsRunning(s.execs, j, k) && k != id;
      forall k | k in s'.certs && s'.certs[k].renewal.InProgress? ensures exists j :: IsRunning(s'.execs, j, k) {
        var j :| IsRunning(s.execs, j, k);
        assert IsRunning(s'.execs, j, k);
      }
    }
  }

  /** The purge keeps it exactly when no running execution is that old. */
  lemma PurgeKeepsIff(s: State, cutoff: int)
    requires OneWorker(s)
    ensures OneWorker(Purge(s, cutoff)) <==> !PurgesRunning(s, cutoff)
  {
    var s' := Purge(s, cutoff);
    assert forall j: nat, k: nat ::
        IsRunning(s'.execs, j, k) <==> IsRunning(s.execs, j, k) && s.execs[j].started >= cutoff;
    if PurgesRunning(s, cutoff) {
      var i: nat, id: nat :| IsRunning(s.execs, i, id) && s.execs[i].started < cutoff;
      assert s'.certs[id].renewal.InProgress? && forall j :: !IsRunning(s'.execs, j, id);
    } else {
      forall k | k in s'.certs && s'.certs[k].renewal.InProgress? ensures exists j :: IsRunning(s'.execs, j, k) {
        var j :| IsRunning(s.execs, j, k);
        assert IsRunning(s'.execs, j, k);
      }
    }
  }

  lemma StepKeepsOneWorker(s: State, step: Step)
    requires Agree(s) && OneWorker(s) && Disciplined(s, step)
    ensures OneWorker(Apply(s, step))
  {
    match step
    case IssueStep(id, c) =>
      if id !in s.certs {
        EditKeeps(s, id, c.(managed := true, status := Issuing, renewal := Idle, validUntil := None));
      }
    case IssueDone(id, until) =>
      if id in s.certs {
        EditKeeps(s, id, s.certs[id].(status := Active, renewal := Idle, validUntil := until));
        EditKeeps(s, id, s.certs[id].(status := Broken, renewal := Unsuccessful));
      }
    case ImportStep(id, c) =>
      if id !in s.certs { EditKeeps(s, id, c.(managed := false, status := Active, renewal := Idle)); }
    case StartStep(id, now) => StartKeeps(s, id, now);
    case FinishStep(id, i, result, now) =>
      var s' := Finish(s, id, i, result, now);
      StopsRunning(s, id, i, s'.execs[i].status, s'.certs[id]);
    case CancelStep(id, now) => if BusyRenewing(s, id) { GiveUpKeeps(s, id, now); }
    case StaleStep(id, now) => if BusyRenewing(s, id) { GiveUpKeeps(s, id, now); }
    case RevokeStep(id, success) =>
      if id in s.certs && success {
        EditKeeps(s, id, s.certs[id].(status := Revoked, renewal := Disabled, autoRenew := false));
      }
    case RescanStep(id, status) =>
      if id in s.certs { EditKeeps(s, id, s.certs[id].(status := status)); }
    case SetAutoRenew(id, b) =>
      if id in s.certs { EditKeeps(s, id, s.certs[id].(autoRenew := b)); }
    case DeleteStep(id) => DeleteKeeps(s, id);
    case PurgeStep(cutoff) => PurgeKeepsIff(s, cutoff);
  }

  ghost predicate DisciplinedRun(s: State, steps: seq<Step>) {
    forall i | 0 <= i < |steps| :: Disciplined(Run(s, steps[..i]), steps[i])
  }

  /** In every disciplined run: exactly one running execution per renewal in progress, none otherwise. */
  lemma {:induction false} RunKeepsOneWorker(s: State, steps: seq<Step>)
    requires Agree(s) && OneWorker(s) && DisciplinedRun(s, steps)
    ensures OneWorker(Run(s, steps))
  {
    if steps != [] {
      var init := steps[..|steps| - 1];
      forall i | 0 <= i < |init| ensures init[..i] == steps[..i] && init[i] == steps[i] {}
      RunKeepsOneWorker(s, init);
      RunAgrees(s, init);
      StepKeepsOneWorker(Run(s, init), steps[|steps| - 1]);
    }
  }

  /** The discipline is needed: revoking a certificate, or completing an issuance
      of it, strands a running execution exactly when a renewal is in progress. */
  lemma InterruptStrandsIff(s: State, id: nat, until: Option<int>)
    requires Agree(s) && OneWorker(s)
    ensures OneWorker(Apply(s, RevokeStep(id, true))) <==> !BusyRenewing(s, id)
    ensures OneWorker(Apply(s, IssueDone(id, until))) <==> !BusyRenewing(s, id)
  {
    if BusyRenewing(s, id) {
      var i :| IsRunning(s.execs, i, id);
      assert IsRunning(Apply(s, RevokeStep(id, true)).execs, i, id);
      assert IsRunning(Apply(s, IssueDone(id, until)).execs, i, id);
    } else {
      StepKeepsOneWorker(s, RevokeStep(id, true));
      StepKeepsOneWorker(s, IssueDone(id, until));
    }
  }

  // Stranded executions

  /** A worker reports only on a running execution of its own certificate, and
      executions start no earlier than the one in question. */
  predicate Honest(s: State, step: Step, i: nat)
    requires i < |s.execs|
  {
    match step
    case FinishStep(id, j, _, _) => IsRunning(s.execs, j, id)
    case StartStep(_, now) => s.execs[i].started <= now
    case _ => true
  }

  /** What ends execution i: its own worker, and being purged. */
  predicate Ends(s: State, step: Step, i: nat)
    requires i < |s.execs|
  {
    match step
    case FinishStep(id, j, _, _) => j == i && id in s.certs
    case PurgeStep(cutoff) => s.execs[i].started < cutoff
    case _ => false
  }

  /** Execution i runs, and nothing but its own worker or age can end it: its
      certificate is gone or not being renewed, or being renewed by a later one. */
  ghost predicate Stranded(s: State, id: nat, i: nat) {
    && i < |s.execs| && s.execs[i].status.Running?
    && (s.execs[i].cert == None || s.execs[i].cert == Some(id))
    && (s.execs[i].cert == Some(id) && BusyRenewing(s, id) ==> exists j: nat :: Overtakes(s, id, i, j))
  }

  ghost predicate Overtakes(s: State, id: nat, i: nat, j: nat) {
    i < |s.execs| && IsRunning(s.execs, j, id) && Later(s.execs, j, i)
  }

  /** Revoking a certificate, or completing an issuance of it, during a renewal. */
  lemma InterruptStrands(s: State, id: nat, i: nat, until: Option<int>)
    requires BusyRenewing(s, id) && IsRunning(s.execs, i, id)
    ensures Stranded(Apply(s, RevokeStep(id, true)), id, i)
    ensures Stranded(Apply(s, IssueDone(id, until)), id, i)
  {}

  /** Ending another execution of the certificate ends its renewal too; ending
      one of another certificate leaves what overtakes i. */
  lemma StopKeepsStranded(s: State, id: nat, i: nat, k: nat, j: nat, e: ExecStatus, c: Cert)
    requires Stranded(s, id, i) && IsRunning(s.execs, j, k) && j != i && !c.renewal.InProgress?
    ensures Stranded(State(s.certs[k := c], s.execs[j := s.execs[j].(status := e)]), id, i)
  {
    var s' := State(s.certs[k := c], s.execs[j := s.execs[j].(status := e)]);
    if s.execs[i].cert == Some(id) && BusyRenewing(s', id) {
      var o: nat :| Overtakes(s, id, i, o);
      assert Overtakes(s', id, i, o);
    }
  }

  /** Editing certificates without starting a renewal. */
  lemma EditKeepsStranded(s: State, id: nat, i: nat, certs: map<nat, Cert>)
    requires Stranded(s, id, i) && (BusyRenewing(s.(certs := certs), id) ==> BusyRenewing(s, id))
    ensures Stranded(s.(certs := certs), id, i)
  {
    var s' := s.(certs := certs);
    if s.execs[i].cert == Some(id) && BusyRenewing(s', id) {
      var o: nat :| Overtakes(s, id, i, o);
      assert Overtakes(s', id, i, o);
    }
  }

  lemma GiveUpKeepsStranded(s: State, id: nat, i: nat, k: nat, now: int)
    requires Stranded(s, id, i) && BusyRenewing(s, k)
    ensures Stranded(GiveUp(s, k, now), id, i)
  {
    var c, e := s.certs[k], LatestRunning(s.execs, k);
    var c' := c.(renewal := Unsuccessful, status := Fallback(c, now), updatedAt := now);
    if e.None? {
      EditKeepsStranded(s, id, i, s.certs[k := c']);
    } else {
      if s.execs[i].cert == Some(id) && k == id {
        var o: nat :| Overtakes(s, id, i, o);
        assert !Later(s.execs, o, e.value);
      }
      StopKeepsStranded(s, id, i, k, e.value, Failed, c');
    }
  }

  lemma StartKeepsStranded(s: State, id: nat, i: nat, k: nat, now: int)
    requires Stranded(s, id, i) && s.execs[i].started <= now
    ensures Stranded(Start(s, k, now), id, i)
  {
    var s' := Start(s, k, now);
    if s' != s {
      if s.execs[i].cert == Some(id) && BusyRenewing(s', id) {
        if k == id {
          assert Overtakes(s', id, i, |s.execs|);
        } else {
          var o: nat :| Overtakes(s, id, i, o);
          assert Overtakes(s', id, i, o);
        }
      }
    }
  }

  lemma DeleteKeepsStranded(s: State, id: nat, i: nat, k: nat)
    requires Stranded(s, id, i)
    ensures Stranded(Apply(s, DeleteStep(k)), id, i)
  {
    var s' := Apply(s, DeleteStep(k));
    if s' != s && s'.execs[i].cert == Some(id) && BusyRenewing(s', id) {
      var o: nat :| Overtakes(s, id, i, o);
      assert Overtakes(s', id, i, o);
    }
  }

  lemma PurgeKeepsStranded(s: State, id: nat, i: nat, cutoff: int)
    requires Stranded(s, id, i) && cutoff <= s.execs[i].started
    ensures Stranded(Purge(s, cutoff), id, i)
  {
    var s' := Purge(s, cutoff);
    if s.execs[i].cert == Some(id) && BusyRenewing(s', id) {
      var o: nat :| Overtakes(s, id, i, o);
      assert Overtakes(s', id, i, o);
    }
  }

  /** Of all the steps, exactly those two end a stranded execution. */
  lemma StepEndsIff(s: State, step: Step, id: nat, i: nat)
    requires Stranded(s, id, i) && Honest(s, step, i)
    ensures i < |Apply(s, step).execs|
    ensures Apply(s, step).execs[i].status.Running? <==> !Ends(s, step, i)
  {
    if !Ends(s, step, i) { StepKeepsStranded(s, step, id, i); }
  }

  lemma StepKeepsStranded(s: State, step: Step, id: nat, i: nat)
    requires Stranded(s, id, i) && Honest(s, step, i) && !Ends(s, step, i)
    ensures Stranded(Apply(s, step), id, i)
  {
    match step
    case StartStep(k, now) => StartKeepsStranded(s, id, i, k, now);
    case FinishStep(k, j, result, now) =>
      if k in s.certs {
        var s' := Finish(s, k, j, result, now);
        StopKeepsStranded(s, id, i, k, j, s'.execs[j].status, s'.certs[k]);
      }
    case CancelStep(k, now) => if BusyRenewing(s, k) { GiveUpKeepsStranded(s, id, i, k, now); }
    case StaleStep(k, now) => if BusyRenewing(s, k) { GiveUpKeepsStranded(s, id, i, k, now); }
    case DeleteStep(k) => DeleteKeepsStranded(s, id, i, k);
    case PurgeStep(cutoff) => PurgeKeepsStranded(s, id, i, cutoff);
    case _ => EditKeepsStranded(s, id, i, Apply(s, step).certs);
  }

  ghost predicate HonestRun(s: State, steps: seq<Step>, i: nat) {
    forall k | 0 <= k < |steps| :: i < |Run(s, steps[..k]).execs| && Honest(Run(s, steps[..k]), steps[k], i)
  }

  /** Until its own worker reports or it is purged, a stranded execution keeps running:
      cancelling, staleness, another renewal, even deleting the certificate do not end it. */
  lemma {:induction false} StrandedKeepsRunning(s: State, steps: seq<Step>, id: nat, i: nat)
    requires Stranded(s, id, i) && HonestRun(s, steps, i)
    requires forall k | 0 <= k < |steps| :: !Ends(Run(s, steps[..k]), steps[k], i)
    ensures Stranded(Run(s, steps), id, i)
  {
    if steps != [] {
      var init, n := steps[..|steps| - 1], |steps| - 1;
      forall k | 0 <= k < |init| ensures init[..k] == steps[..k] && init[k] == steps[k] {}
      StrandedKeepsRunning(s, init, id, i);
      StepKeepsStranded(Run(s, init), steps[n], id, i);
    }
  }

  /** And when its worker does report, the execution ends, one worker per renewal
      holds again, and the certificate is no longer revoked. */
  lemma RevokedComesBack(s: State, id: nat, i: nat, result: ProviderResult, now: int)
    requires Agree(s) && OneWorker(s) && BusyRenewing(s, id) && IsRunning(s.execs, i, id)
    ensures
      var revoked := Apply(s, RevokeStep(id, true));
      var finish := FinishStep(id, i, result, now);
      var s' := Apply(revoked, finish);
      && revoked.certs[id].status.Revoked? && Disciplined(revoked, finish)
      && OneWorker(s') && !s'.execs[i].status.Running?
      && (s'.certs[id].status.Active? || s'.certs[id].status.Expiring?)
      && (!result.Refused? ==> s'.certs[id].status.Active?)
  {
    var revoked := Apply(s, RevokeStep(id, true));
    var s', direct := Finish(revoked, id, i, result, now), Finish(s, id, i, result, now);
    StopsRunning(s, id, i, direct.execs[i].status, s'.certs[id]);
    assert s' == State(s.certs[id := s'.certs[id]], s.execs[i := s.execs[i].(status := direct.execs[i].status)]);
  }

  // ── Unlocking ────────────────────────────────────────────────────────────

  /** The renewal in progress of a certificate is given up by a stale check
      exactly when its execution started an hour ago or more.  Then the
      certificate is unlocked: no execution of it runs, the renew guard accepts it
      if it has a name, and it is due again exactly when auto-renewal is on and it
      expires within the threshold. */
  lemma StaleUnlocks(s: State, id: nat, i: nat, now: int, threshold: int)
    requires Agree(s) && OneWorker(s) && IsRunning(s.execs, i, id)
    ensures
      var s' := StaleCheck(s, id, now);
      && (now - s.execs[i].started < 3600 ==> s' == s)
      && (now - s.execs[i].started >= 3600 ==>
            && id in s'.certs && s'.certs[id].renewal.Unsuccessful?
            && (forall j: nat :: !IsRunning(s'.execs, j, id))
            && s'.execs == s.execs[i := s.execs[i].(status := Failed)]
            && (RenewGuard(s', id).Accepted? <==> s.certs[id].named)
            && (Due(s'.certs[id], now, threshold) <==>
                  s.certs[id].autoRenew && s.certs[id].validUntil.Some? &&
                  s.certs[id].validUntil.value <= now + threshold))
  {
    var e := LatestRunning(s.execs, id);
    assert e == Some(i);
    assert BusyRenewing(s, id);
    GiveUpKeeps(s, id, now);
  }

  /** A renewal whose execution was purged is unlocked too, an hour after the row was last written. */
  lemma OrphanUnlocks(s: State, id: nat, now: int)
    requires BusyRenewing(s, id) && forall j: nat :: !IsRunning(s.execs, j, id)
    ensures
      var s' := StaleCheck(s, id, now);
      && (now - s.certs[id].updatedAt < 3600 ==> s' == s)
      && (now - s.certs[id].updatedAt >= 3600 ==>
            && s'.execs == s.execs && id in s'.certs && s'.certs[id].renewal.Unsuccessful?
            && (RenewGuard(s', id).Accepted? <==> s.certs[id].managed && s.certs[id].named))
  {}

  // ── The rows ─────────────────────────────────────────────────────────────

  const DAY: int := 24 * 60 * 60

  /** How many stored executions are from before the cutoff. */
  function Old(execs: seq<Exec>, cutoff: int): nat {
    if execs == [] then 0
    else
      var e := execs[|execs| - 1];
      Old(execs[..|execs| - 1], cutoff) + if e.started < cutoff && !e.status.Purged? then 1 else 0
  }

  /** What one renewal call comes to, as the sweep sees it. */
  datatype CallResult = CallSucceeded | CallFailed | CallRaised(guard: Guard)

  /** The call gets to the provider, and the provider answers. */
  predicate Attempted(c: Cert, answer: Option<ProviderResult>) {
    c.managed && c.named && answer.Some?
  }

  predicate Succeeds(c: Cert, answer: Option<ProviderResult>) {
    Attempted(c, answer) && !answer.value.Refused?
  }

  /** What a renewal that is accepted makes of the certificate; one that cannot be
      renewed stays as it is, and one whose call raises is left in progress. */
  predicate Answered(c: Cert, answer: Option<ProviderResult>, c': Cert) {
    if !c.managed || !c.named then c' == c
    else
      match answer
      case None => c'.renewal.InProgress? && c'.validUntil == c.validUntil
      case Some(Renewed(until)) => c'.renewal.Done? && c'.status.Active? && c'.validUntil == Some(until)
      case Some(NotDue) => c'.renewal.Skipped? && c'.status.Active? && c'.validUntil == c.validUntil
      case Some(Refused) => c'.renewal.Unsuccessful? && c'.validUntil == c.validUntil
  }

  /** How many of the first n calls get an answer, and a good one. */
  function Answers(began: map<nat, Cert>, due: seq<nat>, n: nat, provider: Provider): nat
    requires n <= |due|
  {
    if n == 0 then 0
    else
      var id := due[n - 1];
      Answers(began, due, n - 1, provider) + if id in began && Attempted(began[id], provider(id)) then 1 else 0
  }

  function Successes(began: map<nat, Cert>, due: seq<nat>, n: nat, provider: Provider): nat
    requires n <= |due|
  {
    if n == 0 then 0
    else
      var id := due[n - 1];
      Successes(began, due, n - 1, provider) + if id in began && Succeeds(began[id], provider(id)) then 1 else 0
  }

  /** What the provider does once the first commit is made; None when the call raises. */
  type Provider = nat -> Option<ProviderResult>

  class Registry {
    var certs: map<nat, Cert>
    var execs: seq<Exec>

    ghost function Rows(): State
      reads this
    {
      State(certs, execs)
    }

    method RenewCertificate(id: nat, provider: Provider, now: int, later: int) returns (r: CallResult)
      modifies this
      ensures
        var started := Start(old(Rows()), id, now);
        if !RenewGuard(old(Rows()), id).Accepted?
        then Rows() == old(Rows()) && r == CallRaised(RenewGuard(old(Rows()), id))
        else match provider(id)
             case None => Rows() == started && r == CallRaised(Accepted)
             case Some(result) =>
               Rows() == Finish(started, id, |old(execs)|, result, later) &&
               r == if result.Refused? then CallFailed else CallSucceeded
    {
      if id !in certs { return CallRaised(NotFound); }
      if !certs[id].managed || !certs[id].named { return CallRaised(NotRenewable); }
      if certs[id].renewal.InProgress? { return CallRaised(Conflict); }
      certs := certs[id := certs[id].(renewal := InProgress, status := Renewing, updatedAt := now)];
      var i := |execs|;
      execs := execs + [Exec(Some(id), now, Running)];
      var result := provider(id);
      if result.None? { return CallRaised(Accepted); }
      var c := certs[id];
      match result.value {
        case Renewed(until) =>
          certs := certs[id := c.(validUntil := Some(until), renewal := Done, status := Active, updatedAt := later)];
          execs := execs[i := execs[i].(status := Succeeded)];
          r := CallSucceeded;
        case NotDue =>
          certs := certs[id := c.(renewal := Skipped, status := Active, updatedAt := later)];
          execs := execs[i := execs[i].(status := Succeeded)];
          r := CallSucceeded;
        case Refused =>
          certs := certs[id := c.(renewal := Unsuccessful, status := Fallback(c, later), updatedAt := later)];
          execs := execs[i := execs[i].(status := Failed)];
          r := CallFailed;
      }
    }

    method CancelRenewal(id: nat, now: int) returns (ok: bool)
      modifies this
      ensures ok <==> old(BusyRenewing(Rows(), id))
      ensures Rows() == Cancel(old(Rows()), id, now)
    {
      ok := id in certs && certs[id].renewal.InProgress?;
      if ok { Abandon(id, now); }
    }

    method MarkStaleRenewalFailed(id: nat, now: int)
      modifies this
      ensures Rows() == StaleCheck(old(Rows()), id, now)
    {
      if id !in certs || !certs[id].renewal.InProgress? { return; }
      var e := LatestRunning(execs, id);
      var started := if e.Some? then execs[e.value].started else certs[id].updatedAt;
      if now - started < STALE_SECONDS { return; }
      Abandon(id, now);
    }

    /** Retention of executions: none is purged when the number of days is 0, or in a dry run. */
    method ApplyRetention(days: int, now: int, dryRun: bool) returns (count: nat)
      modifies this
      ensures Rows() == if days > 0 && !dryRun then Purge(old(Rows()), now - days * 86400) else old(Rows())
      ensures count == if days > 0 then Old(old(execs), now - days * 86400) else 0
    {
      count := 0;
      if days > 0 {
        var cutoff := now - days * DAY;
        count := Old(execs, cutoff);
        if !dryRun {
          var rows := execs;
          execs := seq(|rows|, i requires 0 <= i < |rows| =>
                     if rows[i].started < cutoff then Exec(None, rows[i].started, Purged) else rows[i]);
        }
      }
    }

    method Abandon(id: nat, now: int)
      requires id in certs
      modifies this
      ensures Rows() == GiveUp(old(Rows()), id, now)
    {
      var e := LatestRunning(execs, id);
      if e.Some? { execs := execs[e.value := execs[e.value].(status := Failed)]; }
      var c := certs[id];
      certs := certs[id := c.(renewal := Unsuccessful, status := Fallback(c, now), updatedAt := now)];
    }

    /** One call of the sweep. */
    method RenewOne(id: nat, provider: Provider, now: int, later: int) returns (r: CallResult)
      requires Agree(Rows())
      modifies this
      ensures Agree(Rows()) && (old(OneWorker(Rows())) ==> OneWorker(Rows()))
      ensures certs.Keys == old(certs.Keys) && forall k | k in certs && k != id :: certs[k] == old(certs[k])
      ensures r == CallRaised(Conflict) ==> old(BusyRenewing(Rows(), id))
      ensures old(id in certs && !certs[id].renewal.InProgress?) ==>
                && (r.CallSucceeded? <==> Succeeds(old(certs[id]), provider(id)))
                && (r.CallSucceeded? || r.CallFailed? <==> Attempted(old(certs[id]), provider(id)))
                && Answered(old(certs[id]), provider(id), certs[id])
    {
      ghost var before := Rows();
      r := RenewCertificate(id, provider, now, later);
      SweepStep(before, id, provider, now, later, Rows());
    }

    /** The next call of the sweep. */
    method RenewNext(due: seq<nat>, k: nat, provider: Provider, now: int, later: int, ghost one: bool,
                     ghost began: map<nat, Cert>)
      returns (r: CallResult)
      requires Sweeping(one, began, Rows(), due, k, provider) && Idlers(began, due) && k < |due|
      modifies this
      ensures Sweeping(one, began, Rows(), due, k + 1, provider)
      ensures Tells(began, due[k], provider, r)
    {
      ghost var before := certs;
      assert before[due[k]] == began[due[k]];
      r := RenewOne(due[k], provider, now, later);
      SweptNext(began, before, certs, due, k, provider);
    }

    /** The scheduled sweep over the certificates that were due when it began.
        It never meets a renewal in progress, calls the provider once for each of
        them that can be renewed, stores the answer, and counts it. */
    method RenewDue(due: seq<nat>, now: int, threshold: int, provider: Provider, times: nat -> int)
      returns (attempted: nat, succeeded: nat, failed: nat, conflicts: nat)
      requires Agree(Rows()) && DueNow(certs, due, now, threshold)
      modifies this
      ensures Sweeping(old(OneWorker(Rows())), old(certs), Rows(), due, |due|, provider)
      ensures conflicts == 0
      ensures succeeded + failed == |due| && succeeded <= attempted <= |due|
      ensures succeeded == Successes(old(certs), due, |due|, provider)
      ensures attempted == Answers(old(certs), due, |due|, provider)
    {
      SweepBegins(Rows(), due, now, threshold, provider);
      attempted, succeeded, failed, conflicts := RenewAll(due, provider, times, OneWorker(Rows()), certs);
    }

    method RenewAll(due: seq<nat>, provider: Provider, times: nat -> int, ghost one: bool,
                    ghost began: map<nat, Cert>)
      returns (attempted: nat, succeeded: nat, failed: nat, conflicts: nat)
      requires Idlers(began, due) && Sweeping(one, began, Rows(), due, 0, provider)
      modifies this
      ensures Sweeping(one, began, Rows(), due, |due|, provider)
      ensures conflicts == 0
      ensures succeeded + failed == |due| && succeeded <= attempted <= |due|
      ensures succeeded == Successes(began, due, |due|, provider)
      ensures attempted == Answers(began, due, |due|, provider)
    {
      attempted, succeeded, failed, conflicts := 0, 0, 0, 0;
      for k := 0 to |due|
        invariant Sweeping(one, began, Rows(), due, k, provider)
        invariant conflicts == 0 && Counted(began, due, k, provider, attempted, succeeded, failed)
      {
        var r := RenewNext(due, k, provider, times(2 * k), times(2 * k + 1), one, began);
        CountedNext(began, due, k, provider, attempted, succeeded, failed, r);
        if !r.CallRaised? { attempted := attempted + 1; }
        if r.CallSucceeded? { succeeded := succeeded + 1; } else { failed := failed + 1; }
        conflicts := conflicts + if r == CallRaised(Conflict) then 1 else 0;
      }
      CountsBound(began, due, |due|, provider);
    }
  }

  /** The counters after k calls. */
  ghost predicate Counted(began: map<nat, Cert>, due: seq<nat>, k: nat, provider: Provider,
                          attempted: nat, succeeded: nat, failed: nat)
    requires k <= |due|
  {
    && attempted == Answers(began, due, k, provider) && succeeded == Successes(began, due, k, provider)
    && failed == k - succeeded
  }

  /** What a call says of the certificate it was for. */
  ghost predicate Tells(began: map<nat, Cert>, id: nat, provider: Provider, r: CallResult) {
    && id in began
    && (r.CallSucceeded? <==> Succeeds(began[id], provider(id)))
    && (r.CallSucceeded? || r.CallFailed? <==> Attempted(began[id], provider(id)))
    && r != CallRaised(Conflict)
  }

  lemma CountedNext(began: map<nat, Cert>, due: seq<nat>, k: nat, provider: Provider,
                    attempted: nat, succeeded: nat, failed: nat, r: CallResult)
    requires k < |due| && Counted(began, due, k, provider, attempted, succeeded, failed)
    requires Tells(began, due[k], provider, r)
    ensures Counted(began, due, k + 1, provider, if r.CallRaised? then attempted else attempted + 1,
                    if r.CallSucceeded? then succeeded + 1 else succeeded,
                    if r.CallSucceeded? then failed else failed + 1)
  {}

  lemma {:induction false} CountsBound(began: map<nat, Cert>, due: seq<nat>, n: nat, provider: Provider)
    requires n <= |due|
    ensures Successes(began, due, n, provider) <= Answers(began, due, n, provider) <= n
  {
    if n > 0 { CountsBound(began, due, n - 1, provider); }
  }

  /** A sweep under way: both invariants are kept, the first k of the due
      certificates have their answers, the others are untouched. */
  ghost predicate Sweeping(one: bool, began: map<nat, Cert>, s: State, due: seq<nat>, k: nat, provider: Provider) {
    Agree(s) && (one ==> OneWorker(s)) && Swept(began, s.certs, due, k, provider)
  }

  /** The list of due certificates: all of them, none twice. */
  ghost predicate DueNow(certs: map<nat, Cert>, due: seq<nat>, now: int, threshold: int) {
    && (forall i, j | 0 <= i < j < |due| :: due[i] != due[j])
    && (forall id :: id in due <==> id in certs && Due(certs[id], now, threshold))
  }

  /** They are stored, different, and not being renewed. */
  ghost predicate Idlers(certs: map<nat, Cert>, due: seq<nat>) {
    && (forall i, j | 0 <= i < j < |due| :: due[i] != due[j])
    && (forall k | 0 <= k < |due| :: due[k] in certs && !certs[due[k]].renewal.InProgress?)
  }

  lemma SweepBegins(s: State, due: seq<nat>, now: int, threshold: int, provider: Provider)
    requires Agree(s) && DueNow(s.certs, due, now, threshold)
    ensures Idlers(s.certs, due) && Sweeping(OneWorker(s), s.certs, s, due, 0, provider)
  {
    forall k | 0 <= k < |due| ensures due[k] in s.certs && !s.certs[due[k]].renewal.InProgress? {
      assert due[k] in due;
      assert Consistent(s.certs[due[k]]);
    }
  }

  /** The first k of the due certificates have their answers, the others are untouched. */
  ghost predicate Swept(began: map<nat, Cert>, certs: map<nat, Cert>, due: seq<nat>, k: nat, provider: Provider) {
    && certs.Keys == began.Keys && k <= |due|
    && (forall j | 0 <= j < k :: due[j] in began && Answered(began[due[j]], provider(due[j]), certs[due[j]]))
    && (forall j | k <= j < |due| && due[j] in began :: certs[due[j]] == began[due[j]])
    && (forall id | id in began && id !in due :: certs[id] == began[id])
  }

  lemma SweptNext(began: map<nat, Cert>, before: map<nat, Cert>, certs: map<nat, Cert>, due: seq<nat>, k: nat,
                  provider: Provider)
    requires Swept(began, before, due, k, provider) && k < |due| && due[k] in began
    requires forall i, j | 0 <= i < j < |due| :: due[i] != due[j]
    requires certs.Keys == before.Keys && forall id | id in certs && id != due[k] :: certs[id] == before[id]
    requires Answered(began[due[k]], provider(due[k]), certs[due[k]])
    ensures Swept(began, certs, due, k + 1, provider)
  {}

  /** One call of the sweep keeps both invariants and touches one certificate. */
  lemma SweepStep(s: State, id: nat, provider: Provider, now: int, later: int, s': State)
    requires Agree(s)
    requires
      var started := Start(s, id, now);
      if !RenewGuard(s, id).Accepted? then s' == s
      else match provider(id)
           case None => s' == started
           case Some(result) => s' == Finish(started, id, |s.execs|, result, later)
    ensures Agree(s') && (OneWorker(s) ==> OneWorker(s'))
    ensures s'.certs.Keys == s.certs.Keys && forall k | k in s.certs && k != id :: s'.certs[k] == s.certs[k]
  {
    var started := Start(s, id, now);
    StepAgrees(s, StartStep(id, now));
    if OneWorker(s) { StartKeeps(s, id, now); }
    if RenewGuard(s, id).Accepted? && provider(id).Some? {
      var step := FinishStep(id, |s.execs|, provider(id).value, later);
      assert s' == Apply(started, step);
      StepAgrees(started, step);
      assert Disciplined(started, step);
      if OneWorker(s) { StepKeepsOneWorker(started, step); }
    }
  }
}
