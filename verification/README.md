# CertMgr: a verified model

CertMgr issues, renews, deploys, discovers and watches certificates. This
project models the parts of it that are hard to get right: state machines over
database rows and remote files, and a few algorithms whose correctness is not
visible in any single function. It proves what they keep over every run, and
says exactly where a promise fails.

`dafny verify dfyconfig.toml` checks everything (Dafny 4.11).

| file | what it models |
|---|---|
| `Deployment.dfy` | backup, install, reload, verify and rollback on a remote host, with the default scripts |
| `UsageResults.dfy` | the session without autoflush and the upsert of usage results |
| `UsageScan.dfy` | probing with port fallback, merging candidates, a whole usage scan |
| `WildcardCoverage.dfy` | which hostnames a wildcard certificate covers |
| `Renewal.dfy` | the two-commit renewal, cancellation, staleness, the scheduled sweep |
| `Inventory.dfy` | the inventory shared by the scanners, and the ignore list |
| `Sightings.dfy` | the history of certificates seen at network endpoints |
| `Findings.dfy` | CT detections, risk scores, and the findings workflow |
| `PemChain.dfy` | scanning and re-serialising PEM chains |
| `IssueRequest.dfy` | persisting an issuance request and rebuilding it |
| `BackupRestore.dfy` | backup archives and restoration, fingerprint directories |
| `Lockout.dfy` | login lockout |
| `RefreshTokens.dfy` | issue, refresh, revoke, password change |
| `SingleFlight.dfy` | the browser's shared token refresh |
| `Text.dfy`, `Options.dfy` | string operations; `Option` and `Result` |

Each part has the same shape. A functional specification says what one step
does. A class with the source's fields carries methods that take the same
branches and are proved equal to that specification. Lemmas then prove the
promises about the specification, over every run where the promise is about runs.

Time is an integer clock. Providers, probes, remote exit codes, decoded
certificates, and the moments at which things raise are parameters, so every
statement holds for all of them. Rows added to a session are kept apart from
flushed ones, because the session is created without autoflush and queries see
flushed rows only.

## Where the code and its promises part

- The header of the default deploy script promises the certificate material, but its
  chain line is guarded by a variable that is never set: the forward part of a
  deployment never touches the chain target (`Deployment.DeployTouchesOnly`).
- A rollback restores the previous files exactly when no other backup of the
  target outranks the live file in modification time (`RollbackRestoresIff`).
  Every run of deployments keeps that (`RollbackRestores`), with two exceptions. A
  backup copy that breaks off and leaves a truncated file makes the next rollback
  restore the truncated content (`TornBackupBreaksRollback`). And two domains can
  share a remote path, in exactly one way: the chain of `d` is the certificate of
  `d.chain` (`SharedPathIff`); for them there is a run after which a rollback
  restores the wrong version (`ApartIsNeeded`).
- A deployment is marked rolled back also when the host could not be reached, or
  a command raised before all targets were visited (`Deployment.RollBack`).
- An error of the file transfer that stages the material is not caught: the
  deployment's row stays running (`Deployment.DeployCertificate`).
- An explicitly empty port list is rejected, but an empty configured one is not:
  the scan starts, and fails when some hostname has no port of its own
  (`UsageScan.StartScan`).
- The port fallback equals the exhaustive one except when the first port fails
  in DNS and a later port would have answered (`UsageScan.ProbeWithPortFallback`).
- Revoking a certificate, or finishing an issuance of it, in the middle of a
  renewal leaves a running execution behind (`Renewal.InterruptStrandsIff`). It
  runs on until its own worker reports or retention deletes it: no cancellation,
  staleness, later renewal or deletion of the certificate ends it
  (`StrandedKeepsRunning`, `StepEndsIff`). If the worker does report, a revoked
  certificate is active or expiring again (`RevokedComesBack`).
- Retention deletes executions by age alone, running ones included. A renewal in
  progress then has no execution any more (`Renewal.PurgeKeepsIff`); it is still
  unlocked, an hour after its certificate's row was last written (`OrphanUnlocks`).
- Two new log entries of one certificate in one run can open two findings. It
  happens exactly when the certificate had no active finding, both entries triggered
  something, and no certificate new to the inventory came in between
  (`Findings.RunKeepsOneActiveIff`). Setting a finding's status accepts any status;
  reopening one can have the same effect (`SetStatusKeepsIff`).
- An endpoint met several times in one run can get rows that are not the
  compression of what was seen. It comes out right exactly when each piece of the
  run, cut where a certificate new to the inventory is added, shows first the
  certificate from before it and then others that change every time
  (`Sightings.HistoryCompressesIff`).
- A request rebuilt from its row differs from the original exactly when a name
  was written with a trailing dot, staging was left to a default of true, the
  payload carried extras, or hooks came from identifiers under a method that
  does not look for hooks by itself or have a timeout of zero
  (`IssueRequest.RoundTripIff`).
- An administrator's password reset does not revoke refresh tokens
  (`RefreshTokens.PasswordResetKeepsTokens`).
- A key without its certificate is backed up into an archive that can never be
  restored (`BackupRestore.BackupRestorableIff`).
- A 401 on the refresh call itself makes the refresh wait for itself for ever
  (`SingleFlight.RefusedRefreshSelfWaits`, `SelfWaitForever`).

## Model

| member | source | states |
|---|---|---|
| Deployment.GlobSelectsOwnBackups | backend/app/services/deployment_service.py:304 | the rollback pattern of a target matches the backups of that target and of no other target of the domain |
| Deployment.BackupNameInjective | backend/app/services/deployment_service.py:63 | backups of different targets or different seconds have different names |
| Deployment.SharedPathIff | backend/app/services/deployment_service.py:164-166 | the only two targets that can share a remote path are the chain of a domain d and the certificate of d.chain |
| Deployment.DeployKeepsInv | backend/app/services/deployment_service.py:188-288 | every deployment, however it ends, keeps: backups are never newer than the live file and equal times mean equal files, unless its own backup copy left a truncated file; the domains share no path |
| Deployment.RunKeepsInv | backend/app/services/deployment_service.py:134-315 | the invariant holds after every run of deployments to a host, for every mix of success, half-finished install and rollback |
| Deployment.BackupComplete | backend/app/services/deployment_service.py:58-67 | a backup script that ended well has copied every existing target, content and time, and changed no live file |
| Deployment.RollbackRestoresIff | backend/app/services/deployment_service.py:300-311 | from any host state: a rollback that gets to a target and copies restores the file from before the deployment there, whichever of several newest backups is listed first and whatever happens to the other targets, exactly when every other backup of the target is older than the live file or equal to it |
| Deployment.RollbackRestores | backend/app/services/deployment_service.py:208-311 | after any valid run, a rollback restores every target that existed and that it gets to, also after a half-finished install |
| Deployment.DeployTouchesOnly | backend/app/services/deployment_service.py:50-67 | a deployment changes no file but its domain's targets and no backup but its domain's; its forward part never changes the chain target |
| Deployment.SuccessInstalls | backend/app/services/deployment_service.py:50-67 | a deployment reported successful has certificate and key in place and their predecessors among the backups |
| Deployment.StatusIff | backend/app/services/deployment_service.py:149-289 | success exactly when material, connection, staging, backup, both install lines, ownership, reload and TLS verification all went well; running exactly when an error escaped; rolled back, of the rest, exactly when rollback is on and either cannot connect or has a backup; a backup is noted exactly when the script copied what was there and was heard of |
| Deployment.RollsBackIff | backend/app/services/deployment_service.py:286-309 | the rollback restores a target exactly when the backup went well, something after it did not, rollback is on and connects, no command raised before that target, and its copy succeeded |
| Deployment.HalfInstalled | backend/app/services/deployment_service.py:50-56 | when the certificate's install line fails the key is untouched; when the key's fails the certificate is already the new one |
| Deployment.BackupGuards | backend/app/services/deployment_service.py:208-233 | no live file changes unless the backup went well; a target the rollback does not get to stays as the attempt left it |
| Deployment.KeysApart | backend/app/services/deployment_service.py:164-166 | of the targets only the key is below the private directory |
| Deployment.TornBackupBreaksRollback | backend/app/services/deployment_service.py:58-67 | after any deployment whose backup of a target was torn, whichever target, the next rollback of the domain puts the truncated content in place of what was there, always |
| Deployment.ApartIsNeeded | backend/app/services/deployment_service.py:164-166 | for every domain d a valid run over d and d.chain, whose paths collide, after which a full rollback of d replaces the chain that was there by another content |
| Deployment.RemoteHost.RunBackup | backend/app/services/deployment_service.py:58-67 | the backup loop, stopping at its first failing copy, does what the specification of the script says |
| Deployment.RemoteHost.RunInstall | backend/app/services/deployment_service.py:50-56 | the install lines do what the specification of the script says, stopping at the first failure |
| Deployment.RemoteHost.NewestBackup | backend/app/services/deployment_service.py:304 | the listing yields a backup of the target with the greatest modification time, or nothing when there is none |
| Deployment.RemoteHost.RestoreTargets | backend/app/services/deployment_service.py:300-309 | each target visited is replaced by a newest backup of its own, whatever happened to the targets before it; a command that raises ends the visits |
| Deployment.DeployCertificate | backend/app/services/deployment_service.py:134-288 | host, status and backup path after a deployment are those of the specified protocol on every path through it, the error that is not caught included; StatusIff says which status that is |
| Deployment.RollBack | backend/app/services/deployment_service.py:291-315 | status and host after a rollback: the visited targets restored when connected with a backup, unchanged but marked rolled back when not connected, untouched when no backup was taken |
| UsageResults.Find | backend/app/services/certificate_usage_service.py:356-361 | the lookup finds a flushed row with the key if there is one |
| UsageResults.FoldMeaning | backend/app/services/certificate_usage_service.py:363-397 | a row: first seen at the first touch, last checked and status from the last, last seen at the last touch that reached the endpoint or never, source the first of the highest precedence ever |
| UsageResults.TableRepresents | backend/app/services/certificate_usage_service.py:352-408 | every history of touches: at most one row per endpoint, one for each endpoint touched, each the fold of the touches of its endpoint |
| UsageResults.RecordExtends | backend/app/services/certificate_usage_service.py:352-408 | recording and flushing is never rejected by the unique constraint and yields the table of one touch more |
| UsageResults.FlushIsNeeded | backend/app/services/certificate_usage_service.py:398-407 | without the flush two touches of a new endpoint are rejected together, or stored twice when the endpoint has no address |
| UsageResults.RunSettles | backend/app/services/certificate_usage_service.py:515-588 | any run of completed and failed scans leaves the table of the touches that were committed and a clean session |
| UsageResults.RunRepresents | backend/app/services/certificate_usage_service.py:515-588 | after any run of scans the stored rows are exactly the folds of committed touches; a failed scan leaves no trace |
| UsageResults.TouchStored | backend/app/services/certificate_usage_service.py:352-408 | every touch leaves a row under its key, of no lower precedence, with what it brought unless a later touch was for the same endpoint |
| UsageResults.Session.RecordResult | backend/app/services/certificate_usage_service.py:352-408 | the session after one upsert holds the table of one touch more, with nothing pending |
| UsageResults.Session.StoreScan | backend/app/services/certificate_usage_service.py:544-588 | a scan stores all its touches, or on an exception, that of the final commit included, none of them |
| UsageScan.FirstAnswering | backend/app/services/certificate_usage_service.py:301-317 | the reference: the first port that answers, else the first port |
| UsageScan.ProbeWithPortFallback | backend/app/services/certificate_usage_service.py:301-334 | which port the loop settles on, with its result; that is what the reference returns exactly when the first port's failure is not a DNS failure that another port would have overcome; it tries ports in order and none after the one it settles on; no ports is an error |
| UsageScan.FallbackMatchesReference | backend/app/services/certificate_usage_service.py:311-313 | when a DNS failure does not depend on the port, the exception cannot occur |
| UsageScan.StatusIff | backend/app/services/certificate_usage_service.py:226-291 | each status exactly for its network outcomes; an address exactly when the name was resolved, a fingerprint and subject exactly when a certificate was presented, an error exactly when none was |
| UsageScan.ErrorsDiffer | backend/app/services/certificate_usage_service.py:242-277 | different failures have different error codes |
| UsageScan.DigestDecides | backend/app/services/certificate_usage_service.py:279-283 | a presented certificate is confirmed exactly when its digest is the expected one, with or without colons and in either case |
| UsageScan.AnswersIff | backend/app/services/certificate_usage_service.py:294-298 | an endpoint answers exactly when a connection was made and its handshake came to an end; it was reached exactly when a certificate was presented |
| UsageScan.PutAll | backend/app/services/certificate_usage_service.py:482-496 | one source's loop overwrites the source of the candidates it names and keeps the others |
| UsageScan.MergeCandidates | backend/app/services/certificate_usage_service.py:480-496 | the candidates are exactly what some source named, each under the highest-precedence source that named it |
| UsageScan.NeverLinksToItself | backend/app/services/certificate_usage_service.py:279-283 | a result showing a different certificate is never linked to the scanned one |
| UsageScan.LinkIff | backend/app/services/certificate_usage_service.py:387-395 | a result is linked exactly when it shows a different certificate whose fingerprint some row has, and then to such a row |
| UsageScan.AwaitAll | backend/app/services/certificate_usage_service.py:533-559 | one result for each candidate and no other, none twice: at its own port or the one the fallback chose, what its probe gave, or the probe error when its worker raised |
| UsageScan.WorkerRaised | backend/app/services/certificate_usage_service.py:544-558 | a worker that raised counts as unreachable, without an address, at the first port or the candidate's own |
| UsageScan.WorkerAnswered | backend/app/services/certificate_usage_service.py:533-546 | any other gives the probe of the network at the port it is recorded for |
| UsageScan.TallySum | backend/app/services/certificate_usage_service.py:517-529 | the counts of the six statuses add up to the number of results |
| UsageScan.Summarize | backend/app/services/certificate_usage_service.py:561-568 | scanned, candidates and the four stored counters of a scan add up |
| UsageScan.RecordScan | backend/app/services/certificate_usage_service.py:526-588 | a completed scan has recorded every result and its counters add up; a failed one, also by its commit, left all rows as they were |
| UsageScan.StartScan | backend/app/services/certificate_usage_service.py:433-606 | an explicitly empty port list is rejected before anything happens; the scan fails exactly when an empty configured one is needed or something raises; otherwise every merged candidate is probed once and its result recorded once, with hostname, port, status and source, no row links to the scanned certificate, counters add up |
| UsageScan.ResultStored | backend/app/services/certificate_usage_service.py:526-574 | after a completed scan the table has, for each result, a row under the scanned certificate and the endpoint probed, with status, times, evidence and link of that result unless a later one was for the same endpoint |
| WildcardCoverage.JoinLabels | backend/app/services/certificate_usage_service.py:108-123 | splitting a name at its dots loses nothing |
| WildcardCoverage.LabelsPrepend | backend/app/services/certificate_usage_service.py:108-123 | a label in front of a name is the first of its labels, the name's labels follow |
| WildcardCoverage.CoveredIff | backend/app/services/certificate_usage_service.py:108-123 | the suffix test is the definition of section 6.4.3 of RFC 6125: one complete non-empty label in front of the suffix's labels |
| WildcardCoverage.CoveringSuffixUnique | backend/app/services/certificate_usage_service.py:108-123 | a host is covered by at most one suffix, up to case and trailing dots |
| WildcardCoverage.SpellingIgnored | backend/app/services/certificate_usage_service.py:118-119 | the case of the suffix, and dots at the end of either, do not matter |
| WildcardCoverage.CandidatesFromInventory | backend/app/services/certificate_usage_service.py:148-174 | the candidates are exactly the known names, normalised, that the label definition covers; wildcard names of certificates are left out |
| Renewal.LatestRunning | backend/app/services/certificate_service.py:636-642 | the lookup finds a running renew execution that no other running one of the certificate started later than, if any runs |
| Renewal.StartOutcome | backend/app/services/certificate_service.py:699-720 | a renewal starts exactly for a managed, named certificate that is not being renewed; status, expiry and the one execution recorded |
| Renewal.RenewalOutcome | backend/app/services/certificate_service.py:697-763 | by the provider's answer: renewed stores the new expiry and the certificate is due again exactly when that is within the threshold; not due and refused keep the old expiry, and a refused one is active exactly while still valid; other certificates and executions stay |
| Renewal.GiveUpOutcome | backend/app/services/certificate_service.py:650-694 | a renewal given up leaves the expiry, marks the latest running execution failed and no other, and the certificate active exactly while still valid |
| Renewal.IssueOutcome | backend/app/services/certificate_service.py:352-541 | from request to the end of an issuance: never due before, due exactly by expiry and auto-renewal after a success, deletable after a failure |
| Renewal.RevokeOutcome | backend/app/services/certificate_service.py:795-798 | a revoked certificate is never due and can be deleted; a failed revocation changes nothing |
| Renewal.DeleteOutcome | backend/app/services/certificate_service.py:845-880 | deleting takes that certificate alone, exactly when unmanaged, failed, revoked or archived; its executions stay without it |
| Renewal.ImportOutcome | backend/app/services/certificate_service.py:885-933 | an imported certificate is never accepted for renewal; a rescan changes the status of unmanaged ones only |
| Renewal.AutoRenewOutcome | backend/app/services/certificate_service.py:191-198 | switching auto-renewal off takes a certificate out of every sweep; on leaves it to status and expiry |
| Renewal.RunAgrees | backend/app/services/certificate_service.py:604-817 | in every run, renewal in progress means status renewing and the other way round, and only managed certificates get there |
| Renewal.StepKeepsOneWorker | backend/app/services/certificate_service.py:622-763 | every step, of workers that report only while their execution runs and of a retention that reaches no running execution, keeps: one running execution per renewal in progress, none otherwise |
| Renewal.RunKeepsOneWorker | backend/app/services/certificate_service.py:622-763 | the same over every run, with crashes anywhere |
| Renewal.InterruptStrandsIff | backend/app/services/certificate_service.py:795-798 | revoking, or completing an issuance, breaks that exactly when a renewal is in progress |
| Renewal.InterruptStrands | backend/app/services/certificate_service.py:795-798 | after such an interruption the running execution is one that only its own worker can end |
| Renewal.StrandedKeepsRunning | backend/app/services/certificate_service.py:622-763 | in every run in which neither that worker reports nor retention reaches it, the execution keeps running, whatever is cancelled, found stale, renewed, issued or deleted |
| Renewal.StepEndsIff | backend/app/services/certificate_service.py:622-763 | of all steps, exactly the report of its own worker and a purge with a later cutoff end a stranded execution |
| Renewal.PurgeKeepsIff | backend/app/services/retention_service.py:46-50 | deleting old executions keeps one running execution per renewal exactly when no running one is that old |
| Renewal.Registry.ApplyRetention | backend/app/services/retention_service.py:53-88 | executions from before the cutoff are deleted whatever their status, and counted; nothing is for 0 days or in a dry run |
| Renewal.RevokedComesBack | backend/app/services/certificate_service.py:731-761 | when the worker of a renewal reports after a revocation, its execution ends, one worker per renewal holds again, and the certificate is active or expiring instead of revoked |
| Renewal.StaleUnlocks | backend/app/services/certificate_service.py:622-661 | a stale check does nothing before 60 minutes; from then on it unlocks: no execution runs, the renew guard accepts, and the certificate is due exactly when auto-renewal is on and it expires within the threshold |
| Renewal.OrphanUnlocks | backend/app/services/certificate_service.py:643-661 | a renewal in progress without a running execution is unlocked by a stale check exactly from an hour after its row was last written |
| Renewal.Registry.RenewCertificate | backend/app/services/certificate_service.py:697-763 | guard, first commit, provider, second commit: the rows after each way it can end are those of the specified steps, whose outcomes RenewalOutcome states |
| Renewal.Registry.CancelRenewal | backend/app/services/certificate_service.py:666-694 | cancelling succeeds exactly when a renewal is in progress, and then gives it up |
| Renewal.Registry.MarkStaleRenewalFailed | backend/app/services/certificate_service.py:622-661 | the lazy check leaves exactly the rows the specification gives |
| Renewal.Registry.RenewDue | backend/app/tasks/certificates.py:33-47 | the sweep never meets a renewal in progress, calls the provider for each due certificate that can be renewed and stores its answer, counts answers and successes exactly, succeeded and failed add up to the number due, other certificates are untouched, both invariants are kept |
| Renewal.SweepStep | backend/app/tasks/certificates.py:35-45 | one call of the sweep keeps both invariants and touches one certificate |
| Inventory.AddsOne | backend/app/services/discovery_service.py:324-360 | one more certificate met adds one unmanaged row when it is neither held nor ignored, else nothing |
| Inventory.Database.ScanFiles | backend/app/services/discovery_service.py:154-170 | a filesystem scan adds exactly one row for each importable fingerprint, in a file or PFX bundle, that is neither held nor ignored |
| Inventory.Database.ScanNetwork | backend/app/services/discovery_service.py:317-364 | the same for the certificates of a network scan |
| Inventory.Database.ScanCtLog | backend/app/services/discovery_service.py:531-596 | the same for the certificates fetched for log entries that match no known one |
| Inventory.Database.DeleteCertificate | backend/app/services/certificate_service.py:826-880 | the store after a deletion is the specified one, of which DeleteOutcome says what goes and what stays |
| Inventory.DeleteOutcome | backend/app/services/certificate_service.py:845-880 | exactly the row with the id goes, unless managed and not deletable; every other row keeps its place; the ignore list gains the fingerprint of an unmanaged row and nothing else |
| Inventory.OthersStay | backend/app/services/certificate_service.py:875 | every row with another id stays, whatever is deleted |
| Inventory.DeleteUnknown | backend/app/services/certificate_service.py:845 | an id no row has changes nothing |
| Inventory.ImportAdds | backend/app/services/certificate_service.py:927-933 | an explicit import adds one unmanaged row exactly when none has the fingerprint, ignored or not |
| Inventory.DeleteBans | backend/app/services/certificate_service.py:858-872 | deleting an unmanaged certificate leaves its fingerprint ignored and held by no row |
| Inventory.EventKeepsBan | backend/app/services/discovery_service.py:157-163 | no scan, no deletion and no import of another certificate lifts a ban |
| Inventory.HistoryKeepsUnique | backend/app/services/certificate_service.py:927-933 | in every history of scans, imports and deletions no two rows carry one fingerprint |
| Inventory.DeletedStaysGone | backend/app/services/certificate_service.py:833-839 | once deleted, an unmanaged certificate stays out of the inventory in every history without an explicit import or un-ignore of it |
| Sightings.CompressAppend | backend/app/services/discovery_service.py:366-387 | extending the last period or adding one, observation by observation, builds the run-length compression |
| Sightings.PeriodsOrdered | backend/app/services/discovery_service.py:366-387 | periods of the compression change certificate and do not overlap beyond end points |
| Sightings.RecordExtends | backend/app/services/discovery_service.py:317-387 | one sighting of an endpoint without pending rows extends its periods and leaves other endpoints alone |
| Sightings.RecordOnLane | backend/app/services/discovery_service.py:359-387 | recording acts on each endpoint by itself: a new certificate flushes, the same certificate as in the latest flushed row updates it, another adds a row |
| Sightings.RunCompressesIff | backend/app/services/discovery_service.py:260-286 | one run on a table that compresses what was seen at an endpoint leaves it so exactly when every piece of the run shows there first the certificate of the latest row and then others that change every time |
| Sightings.HistoryCompressesIff | backend/app/services/discovery_service.py:245-296 | for every history with a strictly increasing clock: an endpoint's rows are the run-length compression of what was observed there exactly when every run is such a run, and otherwise two neighbouring rows show one certificate or overlap; what is recorded later never repairs that |
| Sightings.SteadyHistory | backend/app/services/discovery_service.py:245-296 | that half of it which needs no clock: such runs are compressed |
| Sightings.HistoryIsCompression | backend/app/services/discovery_service.py:245-296 | runs that meet no endpoint twice are such runs, so an endpoint's rows in id order are the compression of what was observed there |
| Sightings.HistoryOrdered | backend/app/services/discovery_service.py:366-387 | for every history of such runs, with a clock that never goes back: the stored periods are ordered and show a change each |
| Sightings.SameEndpointTwice | backend/app/services/discovery_service.py:366-385 | the same endpoint twice in one run stores two rows for one period |
| Sightings.History.RecordSighting | backend/app/services/discovery_service.py:359-387 | the session after one sighting: flushed if its certificate was new, then the latest row updated or a row added |
| Sightings.History.RunNetworkScan | backend/app/services/discovery_service.py:260-286 | a committed scan stores what recording its observations one by one gives |
| Findings.RunDetections | backend/app/services/ct_monitor.py:108-154 | each code is reported exactly when it is triggered, and at most once |
| Findings.TriggersIff | backend/app/services/ct_monitor.py:121-152 | each code by what it stands for: first sight; an issuer that mentions, in any case, none of the non-blank expected ones if there is one; a name that mentions a non-blank sensitive, or staging, keyword |
| Findings.FirstMatch | backend/app/services/ct_monitor.py:136-152 | a keyword list matches exactly when one of its non-blank entries occurs in the name, and the result is such an entry |
| Findings.IssuerUnexpected | backend/app/services/ct_monitor.py:127-130 | an issuer is unexpected exactly when the list has a non-blank entry and none of them occurs in it |
| Findings.ScoreIsSum | backend/app/services/ct_monitor.py:121-158 | the score is 10 for a new certificate, 25 for an unknown authority, 20 for a sensitive and 15 for a staging name, added up over the codes present, at most 70: the cap never cuts it |
| Findings.RecordStep | backend/app/services/discovery_service.py:592-651 | an entry that triggered nothing changes nothing; any other replaces detections, score and last sight of one finding of its certificate that is not closed, and nothing else, or opens one when all flushed findings of the certificate are closed |
| Findings.RunRespects | backend/app/services/discovery_service.py:618-651 | no run changes any status or first sight or edits a finding marked false positive or resolved, and it opens findings only for certificates without an active one |
| Findings.ActiveIff | backend/app/services/discovery_service.py:623-630 | every status but false positive and resolved is active |
| Findings.PhaseIsRight | backend/app/services/discovery_service.py:592-651 | whether a certificate has no active finding, one that waits to be flushed, or one that queries see, in terms of the entries of the run |
| Findings.RunKeepsOneActiveIff | backend/app/services/discovery_service.py:592-651 | for every table and run: at most one active finding per certificate afterwards exactly when that held before and no two entries clash, the second triggering something for a certificate without an active finding before the first one's finding is flushed |
| Findings.RunKeepsOneActive | backend/app/services/discovery_service.py:618-651 | a run with at most one new entry per certificate keeps at most one active finding per certificate |
| Findings.RunKeepsScores | backend/app/services/discovery_service.py:615-651 | recording entries with distinct detections leaves every score the uncapped sum of its detections |
| Findings.TwoEntriesTwoFindings | backend/app/services/discovery_service.py:623-651 | two entries in a row of a certificate without an active finding open two findings |
| Findings.SetStatusKeepsIff | backend/app/api/v1/findings.py:103-107 | a status change keeps one active finding per certificate exactly when it does not activate one beside another |
| Findings.HistoryKeepsOneActive | backend/app/services/discovery_service.py:618-651 | throughout every history of runs and status changes a certificate has at most one active finding exactly when it began so and every run and every change meets its own exact condition |
| Findings.ForwardIsProper | backend/app/services/discovery_service.py:618-651 | runs with one new entry per certificate, and moves of analysts that only go forward, meet those conditions |
| Findings.Monitor.RecordEntry | backend/app/services/discovery_service.py:591-651 | the session after one entry, with the detections its subject triggers and the flush a new certificate causes |
| Findings.Monitor.RunCtMonitor | backend/app/services/discovery_service.py:453-490 | a committed run stores what recording its entries one by one gives, each with the detections its subject triggers; every score is then the uncapped sum of distinct weights if all were before |
| PemChain.IsAtIff | backend/app/services/x509_utils.py:214-217 | a marker stands at a position exactly when the slice of its length there equals it |
| PemChain.FindsFirst | backend/app/services/x509_utils.py:236-239 | the search returns the first occurrence |
| PemChain.ScanLoop | backend/app/services/x509_utils.py:232-245 | the moving-index loop ends and returns the extents the recursive scan gives |
| PemChain.DecodeLoop | backend/app/services/x509_utils.py:209-222 | the loop that decodes each block where it finds it decodes the extents the recursive scan gives, in order, and stops at the first that does not decode |
| PemChain.ParseChain | backend/app/services/x509_utils.py:232-245 | the parse decodes exactly the scanned blocks, in order, or fails with the first that does not decode |
| PemChain.BundleExtras | backend/app/services/x509_utils.py:208-222 | the bundle writer's own loop, which decodes while it scans, gives exactly the certificates a parse of the chain gives, or fails when that fails |
| PemChain.EndOnlyAtEnd | backend/app/services/x509_utils.py:239 | inside a block whose body has no hyphen and does not begin with an E, the END marker stands only at its end |
| PemChain.ScanInvertsWrite | backend/app/services/x509_utils.py:232-245 | scanning blocks between fillers in which no BEGIN marker starts returns exactly those blocks, in order |
| PemChain.ParseInvertsPrint | backend/app/services/x509_utils.py:232-245 | parsing printed certificates gives back exactly those certificates, in order |
| PemChain.SerializedForm | backend/app/services/certificate_service.py:922-925 | what an import writes is such a text: each line break is quiet filler |
| PemChain.ReserializeIdempotent | backend/app/services/certificate_service.py:922-925 | writing back what was parsed and parsing it again changes nothing |
| IssueRequest.UndottedSurvives | backend/app/services/certificate_service.py:353-355 | a name without a trailing dot, stored and validated again, is the name validated at first |
| IssueRequest.DottedChanges | backend/app/services/certificate_service.py:353-355 | a name written with a trailing dot comes back without |
| IssueRequest.DomainsIff | backend/app/services/certificate_service.py:479-493 | first name and set of names survive exactly when no name was written with a trailing dot |
| IssueRequest.HookPrecedence | backend/app/services/certificate_service.py:279-323 | hooks are refused exactly when an identifier names no active hook; the payload's variables beat the cleanup hook's, which beat the authentication hook's, and the latter's SSH credential comes first |
| IssueRequest.RebuiltHooks | backend/app/services/certificate_service.py:279-323 | the rebuilt payload leads to the same scripts and the merged environment when the method looks for hooks by itself, and to no hooks otherwise |
| IssueRequest.FieldsIff | backend/app/services/certificate_service.py:494-503 | everything but the domains survives exactly under the conditions on staging, extras and hooks |
| IssueRequest.RebuildIs | backend/app/services/certificate_service.py:473-503 | what the worker builds, or the error it meets, in terms of the domains alone; what building means is said by the rows below |
| IssueRequest.BuildIff | backend/app/services/certificate_service.py:226-265 | a request is built exactly when every name is valid, none repeats, there is one, e-mail and key type are valid and no identifier fails to name an active hook; its names are the payload's, stripped and in lower case |
| IssueRequest.PlainFields | backend/app/services/certificate_service.py:245-264 | e-mail, key type, environment and staging are the payload's or the default; method, dry run, webroot, port and extras the payload's |
| IssueRequest.ScriptFields | backend/app/services/certificate_service.py:283-298 | authentication and cleanup script are each the named hook's, else the path given, and none at all when hooks are not looked for or both are empty |
| IssueRequest.HookFields | backend/app/services/certificate_service.py:308-323 | user, directory and timeout are the authentication hook's whenever there is one, else the cleanup hook's, else the defaults; SSH key and host together are the authentication hook's whenever it has a key |
| IssueRequest.PersistsRequest | backend/app/services/certificate_service.py:343-381 | the row holds, column by column, what the request was built with, except extras and an unsaid staging |
| IssueRequest.ValidateDomainList | backend/app/core/domain_utils.py:46-57 | the loop over the names stops at the first that is invalid or repeats an earlier one, and gives that error |
| IssueRequest.RoundTripIff | backend/app/services/certificate_service.py:335-503 | for every payload that can be issued: the request rebuilt from the persisted row is the one built from the payload exactly when the payload meets conditions a caller can check |
| IssueRequest.PlainBuilds | backend/app/services/certificate_service.py:335-381 | the plainest payload, one accepted name, can be issued and persisted, so the statement above is about something |
| IssueRequest.PlainSurvivesIff | backend/app/services/certificate_service.py:353-355 | such a payload survives exactly when its name has no dot at its end, so both outcomes occur |
| BackupRestore.DirNameIsHex | backend/app/services/storage.py:42-45 | the directory of a canonical fingerprint is the digest in lower-case hexadecimal |
| BackupRestore.DirectoriesInjective | backend/app/services/x509_utils.py:71-72 | different digests have different fingerprints and different directories |
| BackupRestore.DirectoriesDisjoint | backend/app/services/storage.py:42-60 | no path below one certificate's directory is a path below another's |
| BackupRestore.EntryRecognised | backend/app/services/backup_service.py:85-89 | every entry a backup writes is recognised by the reader as the member it is |
| BackupRestore.OnlyNamedFiles | backend/app/services/backup_service.py:41-48 | an entry read as a member is a regular file with that member's name, in whichever directory |
| BackupRestore.InAnyDirectory | backend/app/services/backup_service.py:41-48 | and every such entry is read; one that is not a regular file never |
| BackupRestore.ArchiveNames | backend/app/services/backup_service.py:27-28 | the names of the five members |
| BackupRestore.ReadIsRight | backend/app/services/backup_service.py:40-55 | from any archive, whoever made it: a member is read exactly when an entry stands for it, with the content of the last such entry, and nothing else is read |
| BackupRestore.ReadInvertsArchive | backend/app/services/backup_service.py:40-89 | reading a backup gives exactly the material that was backed up |
| BackupRestore.ReadArchive | backend/app/services/backup_service.py:30-55 | the loop reads what it should and fails exactly when no entry is a certificate |
| BackupRestore.BackupRestorableIff | backend/app/services/backup_service.py:66-89 | a backup can be restored into a row exactly when the certificate file was on disk, decodes, and carries the row's fingerprint or the row has none |
| BackupRestore.PutAllWrites | backend/app/services/backup_service.py:261-274 | every archived member is at its own path after a restoration: no write undoes another |
| BackupRestore.RestoredWhereKept | backend/app/services/storage.py:47-60 | each member is restored to the path the store itself uses for it |
| BackupRestore.RestoredRow | backend/app/services/backup_service.py:275-283 | the restored row has the certificate's fingerprint and metadata, its names unless it has none, and accepts only that certificate again |
| BackupRestore.RestoreIdempotent | backend/app/services/backup_service.py:259-283 | restoring an archive twice is restoring it once |
| BackupRestore.OthersUntouched | backend/app/services/backup_service.py:261-274 | a restoration changes no file in another certificate's directory |
| BackupRestore.RestoreInvertsBackup | backend/app/services/backup_service.py:58-274 | material backed up is the row's material again, byte for byte, whatever happened to files and paths in between; other columns stay |
| BackupRestore.BackupInvertsRestore | backend/app/services/backup_service.py:58-274 | backing up a restored row gives the very same archive |
| BackupRestore.Vault.BackUp | backend/app/services/backup_service.py:58-89 | there is an archive exactly when there is material, and it holds all of it in order |
| BackupRestore.Vault.Locate | backend/app/services/backup_service.py:220-236 | the row asked for unless it carries another fingerprint; else a row with the fingerprint if there is one |
| BackupRestore.Vault.Restore | backend/app/services/backup_service.py:179-281 | when a restoration succeeds, and files and rows afterwards; errors and dry runs change nothing |
| Lockout.UserRow.Authenticate | backend/app/services/auth_service.py:37-64 | reply and row after an attempt, on every branch |
| Lockout.ReplyIff | backend/app/services/auth_service.py:44-64 | which reply an attempt gets: disabled exactly for a disabled account, locked exactly while a lock has not run out, else by the password |
| Lockout.DisabledStays | backend/app/services/auth_service.py:44-45 | attempts on a disabled account leave no trace |
| Lockout.LocksAtLimit | backend/app/services/auth_service.py:50-57 | the failure that reaches the limit locks until exactly the lockout later; an earlier one only counts |
| Lockout.FreshAfterSuccess | backend/app/services/auth_service.py:59-61 | after a success it takes a full number of failures again to lock |
| Lockout.CounterStaysBelow | backend/app/services/auth_service.py:50-55 | the failure counter stays below its limit through every run |
| Lockout.StepWithinBudget | backend/app/services/auth_service.py:44-57 | each failed check uses up one unit of what can still fail in the window; an attempt the lock refuses, with whichever password, uses none |
| Lockout.LockoutBound | backend/app/services/auth_service.py:44-57 | a window of length T in which no attempt gets in, right passwords refused by the lock included, has at most max * (floor(T / lockout) + 1) failed password checks |
| Lockout.LockoutBoundAttained | backend/app/services/auth_service.py:44-57 | a schedule of attempts meets the bound exactly, so no smaller one holds |
| RefreshTokens.UnrevokedIff | backend/app/services/auth_service.py:98-124 | a stored token is unrevoked exactly when the log issued it and has not ended it since |
| RefreshTokens.ActiveUserIff | backend/app/api/v1/users.py:114-115 | the stored flag is what the log of activations says |
| RefreshTokens.RefreshIff | backend/app/services/auth_service.py:98-116 | in every run a refresh succeeds exactly for a signed, unexpired refresh token that was issued, is not revoked nor overtaken by a password change, and whose user is active |
| RefreshTokens.DenialIff | backend/app/services/auth_service.py:98-109 | each refusal exactly for its reason, in every run |
| RefreshTokens.PasswordChangeEndsTokens | backend/app/services/auth_service.py:194-196 | after a password change no earlier token of the user refreshes |
| RefreshTokens.PasswordResetKeepsTokens | backend/app/api/v1/users.py:116-121 | an administrator's reset changes the outcome of no refresh |
| RefreshTokens.TokenStore.IssueTokens | backend/app/services/auth_service.py:75-95 | issuing stores one unrevoked row for the token and changes no other |
| RefreshTokens.TokenStore.RevokeRefreshToken | backend/app/services/auth_service.py:119-124 | logging out revokes that token's row if there is one, and no other |
| RefreshTokens.TokenStore.RefreshAccessToken | backend/app/services/auth_service.py:98-116 | the decision on the stored rows, with the error of each refusal |
| RefreshTokens.TokenStore.ChangePassword | backend/app/services/auth_service.py:182-196 | an accepted change revokes every token of the user; a refused one changes nothing |
| SingleFlight.AtMostOneRefresh | frontend/src/lib/api.ts:98-102 | under every interleaving at most one refresh is in flight, and it is the one held in `refreshing` |
| SingleFlight.AtMostOneFromStart | frontend/src/lib/api.ts:71-102 | the same for every run from a freshly loaded page |
| SingleFlight.PendingStaysHeld | frontend/src/lib/api.ts:98-102 | no step takes a pending refresh out of `refreshing`: a late waiter never clears a newer one |
| SingleFlight.StartsOnlyWhenIdle | frontend/src/lib/api.ts:98-101 | a 401 starts a call only when none is in flight and otherwise joins the one that is |
| SingleFlight.TokensAfter | frontend/src/lib/api.ts:73-97 | an answered refresh stores the new access token and the refresh token its call sent, a refused one clears both; a 401 without a stored refresh token clears and starts nothing |
| SingleFlight.TokensAtResume | frontend/src/lib/api.ts:101-120 | a handler behind a refused refresh clears the store, behind an answered one leaves it, and frees `refreshing` only if it still holds what it awaited |
| SingleFlight.RefusedRefreshSelfWaits | frontend/src/lib/api.ts:73-101 | a 401 on the refresh call itself makes the refresh wait for itself exactly when a refresh token is stored |
| SingleFlight.SelfWaitForever | frontend/src/lib/api.ts:73-101 | from then on that refresh stays pending for ever and none of its waiters resumes |
| SingleFlight.Api.OnUnauthorized | frontend/src/lib/api.ts:91-101 | a handler up to its await does one step of the state machine and keeps the invariant |
| SingleFlight.Api.ContinueAfterRefresh | frontend/src/lib/api.ts:101-120 | a handler behind its await does one step of the state machine and keeps the invariant |

## Left out

- Deployment: custom templates, Jinja rendering, remote paths other than the
  defaults, the pre- and post-deploy scripts, logs, and staging files in `/tmp`.
- Deployment: domains with pattern characters (`*.example.com`), whose backup
  names the shell would expand.
- Deployment: modification times on one host are taken to be strictly increasing
  for writes that happen there; a clock set back is outside the model.
- Deployment: files that did not exist before a deployment; a rollback leaves
  them in place.
- Deployment: a script that goes on running on the host after its command has
  timed out.
- Usage discovery: name resolution, sockets, TLS and certificate decoding are
  one arbitrary result per hostname and port; parsing of manually entered
  hostnames; choosing eligible certificates; the order in which workers finish.
- Usage discovery: audit and job records of a scan.
- Renewal: commits are atomic, and a worker reports only while its execution is
  running; workers that finish after a cancellation are outside the model.
- Renewal: what a renewal stores besides status, times and validity; a certificate
  of which neither a running execution nor an update time is known.
- Inventory: restoring from a backup and issuing certificates also add rows and
  do not look at fingerprints; they are not among the events of a history.
- Inventory: scans that run at the same time in different sessions.
- Sightings: rows disappear with their certificate; histories here have no deletions.
- Findings: severity names, assignment, the observations of known log entries,
  and the classification of a domain match.
- PemChain: a text is one character per byte; decoding and printing of a single
  certificate are assumed to be inverse to each other.
- IssueRequest: validation of a single name is a parameter; of its patterns only
  this is used, that an accepted name has no characters but letters, digits, hyphens, dots and asterisks.
- IssueRequest: the list of provider names, tags, owner and notes of the row, and
  Unicode names; a missing field and an explicit null are the same.
- BackupRestore: creating a row for an archive whose certificate is unknown (the
  import path), database dumps, checksums, the compressed file format, links and
  directories in place of material.
- Lockout: unknown usernames, which change no row; second factors.
- RefreshTokens: signatures and hashes are perfect; API tokens.
- SingleFlight: the retried request and the redirect to the login page.
- User interface, schemas, migrations, reports, settings, compliance and health
  scores: plumbing, or only easy claims.
