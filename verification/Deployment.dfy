/**
 The deployment engine: back up, install, reload, verify and roll back the
 certificate material of one domain on a remote host.

 A host is the set of live files it holds, the backups kept below
 /var/backups/certmgr, and a clock that bounds every modification time on it.
 `cp -a` keeps the modification time of what it copies; `install` (and a copy
 that breaks off halfway) gives the file a fresh one.  Rollback takes, for each
 target, a backup with the greatest modification time, as `ls -t | head -1`
 does; among equal times any of them may come first.
 */
module Deployment {
  import opened Options

  type Content = string

  datatype File = File(content: Content, mtime: int)

  /** A backup file: the domain whose backup directory holds it, and its name. */
  datatype BackupKey = BackupKey(domain: string, name: string)

  datatype HostState = HostState(
    files: map<string, File>,
    backups: map<BackupKey, File>,
    clock: int)

  /** The three remote targets of a deployment, in the order the scripts visit them. */
  datatype Slot = CertSlot | KeySlot | ChainSlot

  const SLOTS: seq<Slot> := [CertSlot, KeySlot, ChainSlot]

  /** What the default deploy script installs.  Its chain line is guarded by a
      template variable that is never set, so no chain is ever installed. */
  const INSTALLED: seq<Slot> := [CertSlot, KeySlot]

  // ── Paths ────────────────────────────────────────────────────────────────

  function Base(slot: Slot, domain: string): string {
    match slot
    case CertSlot => domain + ".crt"
    case KeySlot => domain + ".key"
    case ChainSlot => domain + ".chain.crt"
  }

  function TargetPath(slot: Slot, domain: string): string {
    (if slot.KeySlot? then "/etc/ssl/private/" else "/etc/ssl/certs/") + Base(slot, domain)
  }

  function BackupName(slot: Slot, domain: string, ts: string): string {
    Base(slot, domain) + "." + ts + ".bak"
  }

  /** The shell pattern `<base>.*.bak`, for a base without pattern characters. */
  predicate GlobMatches(slot: Slot, domain: string, name: string) {
    var prefix := Base(slot, domain) + ".";
    && |prefix| + 4 <= |name|
    && name[..|prefix|] == prefix
    && name[|name| - 4..] == ".bak"
  }

  /** The rollback pattern of one target selects its own backups and no other target's. */
  lemma GlobSelectsOwnBackups(s1: Slot, s2: Slot, domain: string, ts: string)
    ensures GlobMatches(s1, domain, BackupName(s2, domain, ts)) <==> s1 == s2
  {
    var name := BackupName(s2, domain, ts);
    var prefix := Base(s1, domain) + ".";
    if s1 == s2 {
      assert name == prefix + ts + ".bak";
    } else {
      var n := |domain|;
      assert name[n + 1] != prefix[n + 1] || name[n + 2] != prefix[n + 2];
      assert |prefix| <= |name| ==>
          name[..|prefix|][n + 1] == name[n + 1] && name[..|prefix|][n + 2] == name[n + 2];
    }
  }

  lemma BackupNameInjective(s1: Slot, s2: Slot, domain: string, t1: string, t2: string)
    ensures BackupName(s1, domain, t1) == BackupName(s2, domain, t2) ==> s1 == s2 && t1 == t2
  {
    GlobSelectsOwnBackups(s1, s2, domain, t2);
    GlobSelectsOwnBackups(s1, s1, domain, t1);
    var n1, n2 := BackupName(s1, domain, t1), BackupName(s2, domain, t2);
    assert n1[|Base(s1, domain)| + 1..|n1| - 4] == t1;
    assert n2[|Base(s2, domain)| + 1..|n2| - 4] == t2;
  }

  /** No domain of the set is another one with ".chain" appended. */
  ghost predicate Apart(domains: set<string>) {
    forall d | d in domains :: d + ".chain" !in domains
  }

  lemma CertIsChainIff(d1: string, d2: string)
    ensures Base(CertSlot, d1) == Base(ChainSlot, d2) <==> d1 == d2 + ".chain"
  {
    var b1, b2 := Base(CertSlot, d1), Base(ChainSlot, d2);
    assert b2 == (d2 + ".chain") + ".crt";
    assert b1[..|b1| - 4] == d1 && b2[..|b2| - 4] == d2 + ".chain";
  }

  lemma BaseInjective(slot: Slot, d1: string, d2: string)
    ensures Base(slot, d1) == Base(slot, d2) ==> d1 == d2
  {
    assert Base(slot, d1)[..|d1|] == d1 && Base(slot, d2)[..|d2|] == d2;
  }

  lemma SamePathSameBase(s1: Slot, d1: string, s2: Slot, d2: string)
    ensures TargetPath(s1, d1) == TargetPath(s2, d2) <==>
              s1.KeySlot? == s2.KeySlot? && Base(s1, d1) == Base(s2, d2)
  {
    var p1, p2 := TargetPath(s1, d1), TargetPath(s2, d2);
    if s1.KeySlot? != s2.KeySlot? {
      assert p1[9] != p2[9];
    } else {
      var k := if s1.KeySlot? then 17 else 15;
      assert p1[k..] == Base(s1, d1) && p2[k..] == Base(s2, d2);
    }
  }

  /** The one way two targets can share a path: the chain of d is the certificate of d.chain. */
  lemma SharedPathIff(s1: Slot, d1: string, s2: Slot, d2: string)
    ensures TargetPath(s1, d1) == TargetPath(s2, d2) <==>
              || (s1 == s2 && d1 == d2)
              || (s1.CertSlot? && s2.ChainSlot? && d1 == d2 + ".chain")
              || (s1.ChainSlot? && s2.CertSlot? && d2 == d1 + ".chain")
  {
    SamePathSameBase(s1, d1, s2, d2);
    if s1 == s2 {
      BaseInjective(s1, d1, d2);
    } else {
      CertIsChainIff(d1, d2);
      CertIsChainIff(d2, d1);
    }
  }

  lemma DistinctPaths(s1: Slot, d1: string, s2: Slot, d2: string, domains: set<string>)
    requires Apart(domains) && d1 in domains && d2 in domains
    requires s1 != s2 || d1 != d2
    ensures TargetPath(s1, d1) != TargetPath(s2, d2)
  {
    SharedPathIff(s1, d1, s2, d2);
  }

  // ── Primitive file operations ────────────────────────────────────────────

  /** What a write that failed leaves at its destination. */
  datatype Leftover = Untouched | Removed | Partial(content: Content)

  /** A write time requested at `at`; write times never repeat and never go back. */
  function Fresh(clock: int, at: int): (t: int)
    ensures clock < t && at <= t
  {
    if clock < at then at else clock + 1
  }

  function Install(h: HostState, path: string, content: Content, at: int): HostState {
    var t := Fresh(h.clock, at);
    h.(files := h.files[path := File(content, t)], clock := t)
  }

  function FailedWrite(h: HostState, path: string, left: Leftover, at: int): HostState {
    match left
    case Untouched => h
    case Removed => h.(files := h.files - {path})
    case Partial(c) => Install(h, path, c, at)
  }

  function CopyToBackup(h: HostState, path: string, key: BackupKey): HostState
    requires path in h.files
  {
    h.(backups := h.backups[key := h.files[path]])
  }

  function FailedCopy(h: HostState, key: BackupKey, left: Leftover, at: int): HostState {
    match left
    case Untouched => h
    case Removed => h.(backups := h.backups - {key})
    case Partial(c) =>
      var t := Fresh(h.clock, at);
      h.(backups := h.backups[key := File(c, t)], clock := t)
  }

  function CopyFromBackup(h: HostState, key: BackupKey, path: string): HostState
    requires key in h.backups
  {
    h.(files := h.files[path := h.backups[key]])
  }

  // ── The scripts ──────────────────────────────────────────────────────────

  datatype Fault = Fault(slot: Slot, left: Leftover)

  /** How staging the files on the host ends.  A missing key, or a command that
      raises, is handled; an error of the file transfer itself is not, and leaves
      the whole call. */
  datatype Staging = Staged | Refused | Escapes

  /** One deployment: the material, and everything the environment decides. */
  datatype Request = Request(
    domain: string,
    material: map<Slot, Content>,
    materialPresent: bool,
    connects: bool,
    staging: Staging,
    stamp: string,
    backupFault: Option<Fault>,
    backupReported: bool,     // false when the script ends but its command raises
    installFault: Option<Fault>,
    chownOk: bool,
    reloadOk: bool,
    verifyOk: bool,
    rollbackEnabled: bool,
    rollbackConnects: bool,
    visited: nat,             // the targets a rollback gets to before a command raises
    restoreFaults: map<Slot, Leftover>,
    at: int)

  datatype ScriptRun = ScriptRun(host: HostState, ok: bool)

  function ContentFor(q: Request, slot: Slot): Content {
    if slot in q.material then q.material[slot] else ""
  }

  /** The backup loop: `set -e`, copy each target that exists. */
  function BackupOver(h: HostState, q: Request, slots: seq<Slot>): ScriptRun {
    if slots == [] then ScriptRun(h, true)
    else
      var r := BackupOver(h, q, slots[..|slots| - 1]);
      if r.ok then BackupOne(r.host, q, slots[|slots| - 1]) else r
  }

  function BackupOne(h: HostState, q: Request, slot: Slot): ScriptRun {
    var path := TargetPath(slot, q.domain);
    var key := BackupKey(q.domain, BackupName(slot, q.domain, q.stamp));
    if path !in h.files then ScriptRun(h, true)
    else if q.backupFault.Some? && q.backupFault.value.slot == slot then
      ScriptRun(FailedCopy(h, key, q.backupFault.value.left, q.at), false)
    else ScriptRun(CopyToBackup(h, path, key), true)
  }

  /** The install lines of the deploy script, also under `set -e`. */
  function InstallOver(h: HostState, q: Request, slots: seq<Slot>): ScriptRun {
    if slots == [] then ScriptRun(h, true)
    else
      var r := InstallOver(h, q, slots[..|slots| - 1]);
      if r.ok then InstallOne(r.host, q, slots[|slots| - 1]) else r
  }

  function InstallOne(h: HostState, q: Request, slot: Slot): ScriptRun {
    var path := TargetPath(slot, q.domain);
    if q.installFault.Some? && q.installFault.value.slot == slot then
      ScriptRun(FailedWrite(h, path, q.installFault.value.left, q.at), false)
    else ScriptRun(Install(h, path, ContentFor(q, slot), q.at), true)
  }

  predicate IsBackup(h: HostState, slot: Slot, domain: string, name: string) {
    BackupKey(domain, name) in h.backups && GlobMatches(slot, domain, name)
  }

  /** `pick` is what `ls -t ... | head -1` may print. */
  ghost predicate Latest(h: HostState, slot: Slot, domain: string, pick: Option<string>) {
    match pick
    case None => forall n :: !IsBackup(h, slot, domain, n)
    case Some(n) =>
      && IsBackup(h, slot, domain, n)
      && forall m | IsBackup(h, slot, domain, m) ::
           h.backups[BackupKey(domain, m)].mtime <= h.backups[BackupKey(domain, n)].mtime
  }

  type Picks = map<Slot, Option<string>>

  ghost predicate ValidPicks(h: HostState, domain: string, picks: Picks) {
    forall s: Slot :: s in picks && Latest(h, s, domain, picks[s])
  }

  /** The rollback loop: a copy that fails does not keep it from the next target. */
  function RestoreOver(h: HostState, q: Request, picks: Picks, slots: seq<Slot>): HostState {
    if slots == [] then h
    else RestoreOne(RestoreOver(h, q, picks, slots[..|slots| - 1]), q, picks, slots[|slots| - 1])
  }

  function RestoreOne(h: HostState, q: Request, picks: Picks, slot: Slot): HostState {
    var path := TargetPath(slot, q.domain);
    if slot !in picks || picks[slot].None? || BackupKey(q.domain, picks[slot].value) !in h.backups then h
    else if slot in q.restoreFaults then FailedWrite(h, path, q.restoreFaults[slot], q.at)
    else CopyFromBackup(h, BackupKey(q.domain, picks[slot].value), path)
  }

  // ── The whole deployment ─────────────────────────────────────────────────

  datatype Status = Pending | Running | Success | Failed | RolledBack

  datatype Outcome = Outcome(host: HostState, status: Status, backupTaken: bool)

  /** The targets a rollback gets to. */
  function Visited(q: Request): seq<Slot> {
    if q.visited < |SLOTS| then SLOTS[..q.visited] else SLOTS
  }

  /** Host state when the deployment succeeds, enters its exception path, or is
      left by an error that path does not catch. */
  function Attempt(h: HostState, q: Request): Outcome {
    if !q.materialPresent || !q.connects || q.staging.Refused? then Outcome(h, Failed, false)
    else if q.staging.Escapes? then Outcome(h, Running, false)
    else
      var b := BackupOver(h, q, SLOTS);
      if !b.ok || !q.backupReported then Outcome(b.host, Failed, false)
      else
        var i := InstallOver(b.host, q, INSTALLED);
        Outcome(i.host,
                if i.ok && q.chownOk && q.reloadOk && q.verifyOk then Success else Failed,
                true)
  }

  function Deploy(h: HostState, q: Request, picks: Picks): Outcome {
    var a := Attempt(h, q);
    if !a.status.Failed? || !q.materialPresent || !q.rollbackEnabled then a
    else if !q.rollbackConnects then a.(status := RolledBack)
    else if !a.backupTaken then a
    else Outcome(RestoreOver(a.host, q, picks, Visited(q)), RolledBack, true)
  }

  // ── The invariant ────────────────────────────────────────────────────────

  /** For one target: backups never newer than the live file, and one content per time. */
  ghost predicate Dominated(h: HostState, slot: Slot, domain: string) {
    var path := TargetPath(slot, domain);
    path in h.files ==>
      forall n | IsBackup(h, slot, domain, n) ::
        var b := h.backups[BackupKey(domain, n)];
        b.mtime < h.files[path].mtime || b == h.files[path]
  }

  ghost predicate OneFilePerTime(h: HostState, slot: Slot, domain: string) {
    forall m, n | IsBackup(h, slot, domain, m) && IsBackup(h, slot, domain, n) ::
      var b, c := h.backups[BackupKey(domain, m)], h.backups[BackupKey(domain, n)];
      b.mtime == c.mtime ==> b == c
  }

  ghost predicate ClockBounds(h: HostState) {
    && (forall p | p in h.files :: h.files[p].mtime <= h.clock)
    && (forall k | k in h.backups :: h.backups[k].mtime <= h.clock)
  }

  ghost predicate Inv(h: HostState, domains: set<string>) {
    && ClockBounds(h)
    && forall s: Slot, d | d in domains :: Dominated(h, s, d) && OneFilePerTime(h, s, d)
  }

  /** A failing backup copy that leaves a truncated file behind. */
  predicate TornBackup(q: Request) {
    q.backupFault.Some? && q.backupFault.value.left.Partial?
  }

  lemma InstallKeepsInv(h: HostState, path: string, content: Content, at: int, domains: set<string>)
    requires Inv(h, domains)
    ensures Inv(Install(h, path, content, at), domains)
  {
    var h' := Install(h, path, content, at);
    forall s: Slot, d | d in domains ensures Dominated(h', s, d) && OneFilePerTime(h', s, d) {
      assert Dominated(h, s, d) && OneFilePerTime(h, s, d);
      assert forall n :: IsBackup(h', s, d, n) <==> IsBackup(h, s, d, n);
    }
  }

  lemma FailedWriteKeepsInv(h: HostState, path: string, left: Leftover, at: int, domains: set<string>)
    requires Inv(h, domains)
    ensures Inv(FailedWrite(h, path, left, at), domains)
  {
    var h' := FailedWrite(h, path, left, at);
    if left.Partial? {
      InstallKeepsInv(h, path, left.content, at, domains);
    } else {
      forall s: Slot, d | d in domains ensures Dominated(h', s, d) && OneFilePerTime(h', s, d) {
        assert Dominated(h, s, d) && OneFilePerTime(h, s, d);
        assert forall n :: IsBackup(h', s, d, n) <==> IsBackup(h, s, d, n);
      }
    }
  }

  lemma BackupOneKeepsInv(h: HostState, q: Request, slot: Slot, domains: set<string>)
    requires Inv(h, domains) && q.domain in domains && !TornBackup(q)
    ensures Inv(BackupOne(h, q, slot).host, domains)
  {
    var h' := BackupOne(h, q, slot).host;
    var key := BackupKey(q.domain, BackupName(slot, q.domain, q.stamp));
    forall s: Slot, d | d in domains ensures Dominated(h', s, d) && OneFilePerTime(h', s, d) {
      assert Dominated(h, s, d) && OneFilePerTime(h, s, d);
      GlobSelectsOwnBackups(s, slot, q.domain, q.stamp);
      forall n | IsBackup(h', s, d, n) && BackupKey(d, n) != key ensures IsBackup(h, s, d, n) {}
    }
  }

  lemma {:induction false} BackupKeepsInv(h: HostState, q: Request, slots: seq<Slot>, domains: set<string>)
    requires Inv(h, domains) && q.domain in domains && !TornBackup(q)
    ensures Inv(BackupOver(h, q, slots).host, domains)
  {
    if slots != [] {
      BackupKeepsInv(h, q, slots[..|slots| - 1], domains);
      var r := BackupOver(h, q, slots[..|slots| - 1]);
      if r.ok { BackupOneKeepsInv(r.host, q, slots[|slots| - 1], domains); }
    }
  }

  lemma {:induction false} InstallOverKeepsInv(h: HostState, q: Request, slots: seq<Slot>, domains: set<string>)
    requires Inv(h, domains)
    ensures Inv(InstallOver(h, q, slots).host, domains)
  {
    if slots != [] {
      InstallOverKeepsInv(h, q, slots[..|slots| - 1], domains);
      var r := InstallOver(h, q, slots[..|slots| - 1]);
      var slot := slots[|slots| - 1];
      var path := TargetPath(slot, q.domain);
      if r.ok {
        InstallKeepsInv(r.host, path, ContentFor(q, slot), q.at, domains);
        if q.installFault.Some? {
          FailedWriteKeepsInv(r.host, path, q.installFault.value.left, q.at, domains);
        }
      }
    }
  }

  lemma RestoreOneKeepsInv(h: HostState, q: Request, picks: Picks, slot: Slot, domains: set<string>)
    requires Inv(h, domains) && q.domain in domains && Apart(domains)
    requires ValidPicks(h, q.domain, picks)
    ensures Inv(RestoreOne(h, q, picks, slot), domains)
    ensures ValidPicks(RestoreOne(h, q, picks, slot), q.domain, picks)
    ensures RestoreOne(h, q, picks, slot).backups == h.backups
  {
    var h' := RestoreOne(h, q, picks, slot);
    var path := TargetPath(slot, q.domain);
    assert forall s: Slot, d, n :: IsBackup(h', s, d, n) <==> IsBackup(h, s, d, n);
    forall s: Slot ensures s in picks && Latest(h', s, q.domain, picks[s]) {
      assert s in picks && Latest(h, s, q.domain, picks[s]);
    }
    if slot in q.restoreFaults {
      FailedWriteKeepsInv(h, path, q.restoreFaults[slot], q.at, domains);
    } else {
      assert Latest(h, slot, q.domain, picks[slot]);
      forall s: Slot, d | d in domains ensures Dominated(h', s, d) && OneFilePerTime(h', s, d) {
        assert Dominated(h, s, d) && OneFilePerTime(h, s, d);
        if s != slot || d != q.domain { DistinctPaths(s, d, slot, q.domain, domains); }
      }
    }
  }

  lemma {:induction false} RestoreKeepsInv(h: HostState, q: Request, picks: Picks, slots: seq<Slot>,
                                           domains: set<string>)
    requires Inv(h, domains) && q.domain in domains && Apart(domains)
    requires ValidPicks(h, q.domain, picks)
    ensures Inv(RestoreOver(h, q, picks, slots), domains)
    ensures ValidPicks(RestoreOver(h, q, picks, slots), q.domain, picks)
  {
    if slots != [] {
      RestoreKeepsInv(h, q, picks, slots[..|slots| - 1], domains);
      RestoreOneKeepsInv(RestoreOver(h, q, picks, slots[..|slots| - 1]), q, picks, slots[|slots| - 1], domains);
    }
  }

  /** Every deployment, however it ends, keeps the invariant -- unless its own backup was torn. */
  lemma DeployKeepsInv(h: HostState, q: Request, picks: Picks, domains: set<string>)
    requires Inv(h, domains) && q.domain in domains && Apart(domains) && !TornBackup(q)
    requires ValidPicks(Attempt(h, q).host, q.domain, picks)
    ensures Inv(Attempt(h, q).host, domains)
    ensures Inv(Deploy(h, q, picks).host, domains)
  {
    BackupKeepsInv(h, q, SLOTS, domains);
    InstallOverKeepsInv(BackupOver(h, q, SLOTS).host, q, INSTALLED, domains);
    RestoreKeepsInv(Attempt(h, q).host, q, picks, Visited(q), domains);
  }

  // ── Runs ─────────────────────────────────────────────────────────────────

  datatype Step = Step(request: Request, picks: Picks)

  function Run(h: HostState, steps: seq<Step>): HostState {
    if steps == [] then h
    else
      var before := Run(h, steps[..|steps| - 1]);
      var last := steps[|steps| - 1];
      Deploy(before, last.request, last.picks).host
  }

  ghost predicate ValidRun(h: HostState, steps: seq<Step>, domains: set<string>) {
    forall i | 0 <= i < |steps| ::
      var q := steps[i].request;
      && q.domain in domains
      && !TornBackup(q)
      && ValidPicks(Attempt(Run(h, steps[..i]), q).host, q.domain, steps[i].picks)
  }

  lemma {:induction false} RunKeepsInv(h: HostState, steps: seq<Step>, domains: set<string>)
    requires Inv(h, domains) && Apart(domains) && ValidRun(h, steps, domains)
    ensures Inv(Run(h, steps), domains)
  {
    if steps != [] {
      var init := steps[..|steps| - 1];
      forall i | 0 <= i < |init| ensures init[..i] == steps[..i] && init[i] == steps[i] {}
      RunKeepsInv(h, init, domains);
      var last := steps[|steps| - 1];
      DeployKeepsInv(Run(h, init), last.request, last.picks, domains);
    }
  }

  // ── What a rollback restores ─────────────────────────────────────────────

  /** The backup script completed: a copy of every live target, nothing live touched. */
  lemma {:induction false} BackupComplete(h: HostState, q: Request, slots: seq<Slot>)
    requires BackupOver(h, q, slots).ok
    ensures BackupOver(h, q, slots).host.files == h.files
    ensures forall s | s in slots && TargetPath(s, q.domain) in h.files ::
              var key := BackupKey(q.domain, BackupName(s, q.domain, q.stamp));
              key in BackupOver(h, q, slots).host.backups &&
              BackupOver(h, q, slots).host.backups[key] == h.files[TargetPath(s, q.domain)]
  {
    if slots != [] {
      var init, last := slots[..|slots| - 1], slots[|slots| - 1];
      BackupComplete(h, q, init);
      forall s | s in slots ensures s in init || s == last {}
      forall s: Slot | s != last
        ensures BackupName(s, q.domain, q.stamp) != BackupName(last, q.domain, q.stamp)
      {
        BackupNameInjective(s, last, q.domain, q.stamp, q.stamp);
      }
    }
  }

  ghost predicate SamePath(h: HostState, h': HostState, p: string) {
    (p in h.files <==> p in h'.files) && (p in h.files ==> h.files[p] == h'.files[p])
  }

  lemma {:induction false} InstallTouchesOnly(h: HostState, q: Request, slots: seq<Slot>, p: string)
    requires forall s | s in slots :: p != TargetPath(s, q.domain)
    ensures SamePath(h, InstallOver(h, q, slots).host, p)
    ensures InstallOver(h, q, slots).host.backups == h.backups
  {
    if slots != [] {
      InstallTouchesOnly(h, q, slots[..|slots| - 1], p);
      assert slots[|slots| - 1] in slots;
      InstallOneTouches(InstallOver(h, q, slots[..|slots| - 1]).host, q, slots[|slots| - 1], p);
    }
  }

  lemma InstallOneTouches(h: HostState, q: Request, slot: Slot, p: string)
    requires p != TargetPath(slot, q.domain)
    ensures SamePath(h, InstallOne(h, q, slot).host, p)
    ensures InstallOne(h, q, slot).host.backups == h.backups
  {}

  lemma {:induction false} RestoreTouchesOnly(h: HostState, q: Request, picks: Picks, slots: seq<Slot>, p: string)
    requires forall s | s in slots :: p != TargetPath(s, q.domain)
    ensures SamePath(h, RestoreOver(h, q, picks, slots), p)
    ensures RestoreOver(h, q, picks, slots).backups == h.backups
  {
    if slots != [] {
      RestoreTouchesOnly(h, q, picks, slots[..|slots| - 1], p);
      assert slots[|slots| - 1] in slots;
    }
  }

  lemma {:induction false} BackupTouchesOnly(h: HostState, q: Request, slots: seq<Slot>)
    ensures BackupOver(h, q, slots).host.files == h.files
    ensures forall k: BackupKey | k.domain != q.domain ::
              (k in BackupOver(h, q, slots).host.backups <==> k in h.backups) &&
              (k in h.backups ==> BackupOver(h, q, slots).host.backups[k] == h.backups[k])
  {
    if slots != [] { BackupTouchesOnly(h, q, slots[..|slots| - 1]); }
  }

  lemma {:induction false} RestoreEffect(h: HostState, q: Request, picks: Picks, slots: seq<Slot>)
    requires forall i, j | 0 <= i < j < |slots| :: slots[i] != slots[j]
    ensures RestoreOver(h, q, picks, slots).backups == h.backups
    ensures forall s |
              && s in slots && s !in q.restoreFaults && s in picks && picks[s].Some?
              && BackupKey(q.domain, picks[s].value) in h.backups ::
              var p := TargetPath(s, q.domain);
              p in RestoreOver(h, q, picks, slots).files &&
              RestoreOver(h, q, picks, slots).files[p] == h.backups[BackupKey(q.domain, picks[s].value)]
  {
    if slots != [] {
      var init, last := slots[..|slots| - 1], slots[|slots| - 1];
      RestoreEffect(h, q, picks, init);
      forall s | s in slots ensures s in init || s == last {}
      forall s: Slot | s != last ensures TargetPath(s, q.domain) != TargetPath(last, q.domain) {
        SharedPathIff(s, q.domain, last, q.domain);
      }
    }
  }

  /** The rollback got to the target, and its copy succeeded, whatever happened to the others. */
  predicate RollsBack(h: HostState, q: Request, slot: Slot) {
    var a := Attempt(h, q);
    && a.backupTaken && a.status.Failed? && q.rollbackEnabled
    && q.rollbackConnects && slot in Visited(q) && slot !in q.restoreFaults
  }

  /** A deployment whose rollback ran: it connected, no command raised, and every copy succeeded. */
  predicate RollsBackFully(h: HostState, q: Request) {
    var a := Attempt(h, q);
    && a.backupTaken && a.status.Failed? && q.rollbackEnabled
    && q.rollbackConnects && q.visited >= |SLOTS| && q.restoreFaults == map[]
  }

  ghost predicate Restored(h: HostState, h': HostState, slot: Slot, domain: string) {
    var p := TargetPath(slot, domain);
    p in h.files ==> p in h'.files && h'.files[p] == h.files[p]
  }

  /** The rollback point: the backups of a finished backup script, live files since overwritten. */
  lemma BackupsAtRollback(h: HostState, q: Request, slot: Slot)
    requires Attempt(h, q).backupTaken
    requires TargetPath(slot, q.domain) in h.files
    ensures
      var b, a := BackupOver(h, q, SLOTS), Attempt(h, q).host;
      var key := BackupKey(q.domain, BackupName(slot, q.domain, q.stamp));
      && a.backups == b.host.backups
      && IsBackup(a, slot, q.domain, key.name)
      && a.backups[key] == h.files[TargetPath(slot, q.domain)]
  {
    BackupComplete(h, q, SLOTS);
    InstallTouchesOnly(BackupOver(h, q, SLOTS).host, q, INSTALLED, "");
    GlobSelectsOwnBackups(slot, slot, q.domain, q.stamp);
    assert slot in SLOTS;
  }

  /** Every backup of the target that is not this deployment's own is older than
      the live file, or equal to it. */
  ghost predicate Unrivalled(h: HostState, q: Request, slot: Slot) {
    var path := TargetPath(slot, q.domain);
    path in h.files ==>
      forall n | IsBackup(h, slot, q.domain, n) && n != BackupName(slot, q.domain, q.stamp) ::
        var b := h.backups[BackupKey(q.domain, n)];
        b.mtime < h.files[path].mtime || b == h.files[path]
  }

  /** The backup script adds nothing to a target's backups but this deployment's own. */
  lemma {:induction false} BackupAddsOwn(h: HostState, q: Request, slots: seq<Slot>, slot: Slot, n: string)
    requires GlobMatches(slot, q.domain, n) && n != BackupName(slot, q.domain, q.stamp)
    ensures
      var b, k := BackupOver(h, q, slots).host, BackupKey(q.domain, n);
      (k in b.backups <==> k in h.backups) && (k in h.backups ==> b.backups[k] == h.backups[k])
  {
    if slots != [] {
      var init, last := slots[..|slots| - 1], slots[|slots| - 1];
      BackupAddsOwn(h, q, init, slot, n);
      GlobSelectsOwnBackups(slot, last, q.domain, q.stamp);
      BackupOneAdds(BackupOver(h, q, init).host, q, last, n);
    }
  }

  lemma BackupOneAdds(h: HostState, q: Request, last: Slot, n: string)
    requires n != BackupName(last, q.domain, q.stamp)
    ensures
      var b, k := BackupOne(h, q, last).host, BackupKey(q.domain, n);
      (k in b.backups <==> k in h.backups) && (k in h.backups ==> b.backups[k] == h.backups[k])
  {}

  lemma UnrivalledIff(h: HostState, q: Request, slot: Slot)
    requires Attempt(h, q).backupTaken && TargetPath(slot, q.domain) in h.files
    ensures Unrivalled(h, q, slot) <==> Dominated(BackupOver(h, q, SLOTS).host, slot, q.domain)
  {
    var b, own := BackupOver(h, q, SLOTS).host, BackupName(slot, q.domain, q.stamp);
    BackupComplete(h, q, SLOTS);
    BackupsAtRollback(h, q, slot);
    forall n | GlobMatches(slot, q.domain, n) && n != own
      ensures IsBackup(b, slot, q.domain, n) <==> IsBackup(h, slot, q.domain, n)
      ensures IsBackup(h, slot, q.domain, n) ==>
                b.backups[BackupKey(q.domain, n)] == h.backups[BackupKey(q.domain, n)]
    {
      BackupAddsOwn(h, q, SLOTS, slot, n);
    }
  }

  /** One target, any host state: whichever newest backup is listed first, the
      rollback brings back the pre-deployment file exactly when no other backup of
      that target outranks the live file. */
  lemma RollbackRestoresIff(h: HostState, q: Request, slot: Slot)
    requires RollsBack(h, q, slot)
    requires TargetPath(slot, q.domain) in h.files
    ensures (forall picks: Picks | ValidPicks(Attempt(h, q).host, q.domain, picks) ::
               Restored(h, Deploy(h, q, picks).host, slot, q.domain))
            <==> Unrivalled(h, q, slot)
  {
    UnrivalledIff(h, q, slot);
    RestoresIffDominated(h, q, slot);
  }

  /** What a rollback puts at a target it gets to: the backup picked for it. */
  lemma RollbackPuts(h: HostState, q: Request, slot: Slot, picks: Picks)
    requires RollsBack(h, q, slot) && TargetPath(slot, q.domain) in h.files
    requires ValidPicks(Attempt(h, q).host, q.domain, picks)
    ensures
      var a, h', path := Attempt(h, q).host, Deploy(h, q, picks).host, TargetPath(slot, q.domain);
      && picks[slot].Some? && IsBackup(a, slot, q.domain, picks[slot].value)
      && path in h'.files && h'.files[path] == a.backups[BackupKey(q.domain, picks[slot].value)]
  {
    BackupsAtRollback(h, q, slot);
    assert Latest(Attempt(h, q).host, slot, q.domain, picks[slot]);
    RestoreEffect(Attempt(h, q).host, q, picks, Visited(q));
  }

  lemma RestoresIffDominated(h: HostState, q: Request, slot: Slot)
    requires RollsBack(h, q, slot)
    requires TargetPath(slot, q.domain) in h.files
    ensures (forall picks: Picks | ValidPicks(Attempt(h, q).host, q.domain, picks) ::
               Restored(h, Deploy(h, q, picks).host, slot, q.domain))
            <==> Dominated(BackupOver(h, q, SLOTS).host, slot, q.domain)
  {
    var b, a := BackupOver(h, q, SLOTS).host, Attempt(h, q).host;
    var path := TargetPath(slot, q.domain);
    BackupComplete(h, q, SLOTS);
    BackupsAtRollback(h, q, slot);
    assert forall n :: IsBackup(a, slot, q.domain, n) <==> IsBackup(b, slot, q.domain, n);
    if !Dominated(b, slot, q.domain) {
      var n :| IsBackup(b, slot, q.domain, n) &&
               b.backups[BackupKey(q.domain, n)].mtime >= h.files[path].mtime &&
               b.backups[BackupKey(q.domain, n)] != h.files[path];
      var best := BestAbove(a, slot, q.domain, n, h.files[path]);
      var picks := SomePicks(a, q.domain, slot, best);
      RollbackPuts(h, q, slot, picks);
      assert !Restored(h, Deploy(h, q, picks).host, slot, q.domain);
    } else {
      forall picks: Picks | ValidPicks(a, q.domain, picks)
        ensures Restored(h, Deploy(h, q, picks).host, slot, q.domain)
      {
        RollbackPuts(h, q, slot, picks);
        assert Latest(a, slot, q.domain, picks[slot]);
      }
    }
  }

  /** A newest backup, and one that differs from `f` if some backup at least as new does. */
  lemma BestAbove(h: HostState, slot: Slot, domain: string, n: string, f: File) returns (best: string)
    requires IsBackup(h, slot, domain, n)
    requires h.backups[BackupKey(domain, n)].mtime >= f.mtime && h.backups[BackupKey(domain, n)] != f
    ensures Latest(h, slot, domain, Some(best)) && h.backups[BackupKey(domain, best)] != f
  {
    best := n;
    var rest := set k | k in h.backups && k.domain == domain && GlobMatches(slot, domain, k.name);
    var all := rest;
    while rest != {}
      invariant IsBackup(h, slot, domain, best)
      invariant h.backups[BackupKey(domain, best)].mtime >= f.mtime && h.backups[BackupKey(domain, best)] != f
      invariant rest <= all
      invariant forall k | k in all - rest :: h.backups[k].mtime <= h.backups[BackupKey(domain, best)].mtime
      decreases rest
    {
      var k :| k in rest;
      if h.backups[BackupKey(domain, best)].mtime < h.backups[k].mtime { best := k.name; }
      rest := rest - {k};
    }
    forall m | IsBackup(h, slot, domain, m)
      ensures h.backups[BackupKey(domain, m)].mtime <= h.backups[BackupKey(domain, best)].mtime
    {
      assert BackupKey(domain, m) in all - rest;
    }
  }

  lemma SomeLatest(h: HostState, slot: Slot, domain: string) returns (pick: Option<string>)
    ensures Latest(h, slot, domain, pick)
  {
    if n :| IsBackup(h, slot, domain, n) {
      var b := h.backups[BackupKey(domain, n)];
      var best := BestAbove(h, slot, domain, n, File(b.content, b.mtime - 1));
      pick := Some(best);
    } else {
      pick := None;
    }
  }

  lemma SomePicks(h: HostState, domain: string, slot: Slot, best: string) returns (picks: Picks)
    requires Latest(h, slot, domain, Some(best))
    ensures ValidPicks(h, domain, picks) && picks[slot] == Some(best)
  {
    var c := SomeLatest(h, CertSlot, domain);
    var k := SomeLatest(h, KeySlot, domain);
    var ch := SomeLatest(h, ChainSlot, domain);
    picks := map[CertSlot := c, KeySlot := k, ChainSlot := ch][slot := Some(best)];
    forall s: Slot ensures s in picks && Latest(h, s, domain, picks[s]) {
      assert s.CertSlot? || s.KeySlot? || s.ChainSlot?;
    }
  }

  /** After any valid run, a rollback brings back every target that existed and
      that it gets to, content and modification time, even after a half-finished
      install, and even when the copy of another target fails. */
  lemma RollbackRestores(h: HostState, steps: seq<Step>, q: Request, picks: Picks, domains: set<string>)
    requires Inv(h, domains) && Apart(domains) && ValidRun(h, steps, domains)
    requires q.domain in domains && !TornBackup(q)
    requires ValidPicks(Attempt(Run(h, steps), q).host, q.domain, picks)
    ensures forall s: Slot | RollsBack(Run(h, steps), q, s) ::
              Deploy(Run(h, steps), q, picks).status.RolledBack? &&
              Restored(Run(h, steps), Deploy(Run(h, steps), q, picks).host, s, q.domain)
  {
    var g := Run(h, steps);
    RunKeepsInv(h, steps, domains);
    BackupKeepsInv(g, q, SLOTS, domains);
    forall s: Slot | RollsBack(g, q, s) ensures Restored(g, Deploy(g, q, picks).host, s, q.domain) {
      assert Dominated(BackupOver(g, q, SLOTS).host, s, q.domain);
      if TargetPath(s, q.domain) in g.files { RestoresIffDominated(g, q, s); }
    }
  }

  /** A deployment touches the targets of its own domain and backups of its own
      domain; its forward part never touches the chain target at all. */
  lemma DeployTouchesOnly(h: HostState, q: Request, picks: Picks, p: string)
    requires forall s: Slot :: p != TargetPath(s, q.domain)
    ensures SamePath(h, Deploy(h, q, picks).host, p)
    ensures SamePath(h, Attempt(h, q).host, TargetPath(ChainSlot, q.domain))
    ensures forall k: BackupKey | k.domain != q.domain ::
              (k in Deploy(h, q, picks).host.backups <==> k in h.backups) &&
              (k in h.backups ==> Deploy(h, q, picks).host.backups[k] == h.backups[k])
  {
    BackupTouchesOnly(h, q, SLOTS);
    var b := BackupOver(h, q, SLOTS).host;
    InstallTouchesOnly(b, q, INSTALLED, p);
    forall s | s in INSTALLED ensures TargetPath(ChainSlot, q.domain) != TargetPath(s, q.domain) {
      SharedPathIff(ChainSlot, q.domain, s, q.domain);
    }
    InstallTouchesOnly(b, q, INSTALLED, TargetPath(ChainSlot, q.domain));
    RestoreTouchesOnly(Attempt(h, q).host, q, picks, Visited(q), p);
  }

  /** A deployment reported successful has installed certificate and key, and kept their predecessors. */
  lemma SuccessInstalls(h: HostState, q: Request, picks: Picks)
    requires Deploy(h, q, picks).status.Success?
    ensures forall s | s in INSTALLED ::
              var p := TargetPath(s, q.domain);
              p in Deploy(h, q, picks).host.files &&
              Deploy(h, q, picks).host.files[p].content == if s in q.material then q.material[s] else ""
    ensures forall s: Slot | TargetPath(s, q.domain) in h.files ::
              var key := BackupKey(q.domain, BackupName(s, q.domain, q.stamp));
              key in Deploy(h, q, picks).host.backups &&
              Deploy(h, q, picks).host.backups[key] == h.files[TargetPath(s, q.domain)]
  {
    var b := BackupOver(h, q, SLOTS).host;
    SharedPathIff(CertSlot, q.domain, KeySlot, q.domain);
    assert INSTALLED[..2] == INSTALLED && INSTALLED[..1] == [CertSlot] && [CertSlot][..0] == [];
    assert InstallOver(b, q, INSTALLED) == InstallOne(InstallOver(b, q, [CertSlot]).host, q, KeySlot);
    assert InstallOver(b, q, [CertSlot]) == InstallOne(b, q, CertSlot);
    forall s: Slot | TargetPath(s, q.domain) in h.files
      ensures var key := BackupKey(q.domain, BackupName(s, q.domain, q.stamp));
              key in Deploy(h, q, picks).host.backups &&
              Deploy(h, q, picks).host.backups[key] == h.files[TargetPath(s, q.domain)]
    {
      BackupsAtRollback(h, q, s);
    }
  }

  // ── How a deployment ends ────────────────────────────────────────────────

  /** The backup script is reached, copies whatever is there, and is heard of. */
  predicate BackupGoesWell(h: HostState, q: Request) {
    && q.materialPresent && q.connects && q.staging.Staged? && q.backupReported
    && !(q.backupFault.Some? && TargetPath(q.backupFault.value.slot, q.domain) in h.files)
  }

  lemma {:induction false} BackupOkIff(h: HostState, q: Request, slots: seq<Slot>)
    ensures BackupOver(h, q, slots).ok <==>
              !(q.backupFault.Some? && q.backupFault.value.slot in slots &&
                TargetPath(q.backupFault.value.slot, q.domain) in h.files)
  {
    if slots != [] {
      var init, last := slots[..|slots| - 1], slots[|slots| - 1];
      BackupOkIff(h, q, init);
      BackupTouchesOnly(h, q, init);
      assert forall s | s in slots :: s in init || s == last;
    }
  }

  lemma InstallOkIff(h: HostState, q: Request)
    ensures InstallOver(h, q, INSTALLED).ok <==> !(q.installFault.Some? && !q.installFault.value.slot.ChainSlot?)
  {
    assert INSTALLED[..1] == [CertSlot] && [CertSlot][..0] == [];
    assert InstallOver(h, q, [CertSlot]) == InstallOne(h, q, CertSlot);
  }

  /** Every part of it went well: backup, both install lines, ownership, reload, TLS verification. */
  predicate AllGoesWell(h: HostState, q: Request) {
    && BackupGoesWell(h, q)
    && (q.installFault.Some? ==> q.installFault.value.slot.ChainSlot?)
    && q.chownOk && q.reloadOk && q.verifyOk
  }

  /** Which status a deployment ends with, in terms of the host before it and of
      what happened: success exactly when everything went well; running exactly when
      an error escaped; of the others, rolled back exactly when rollback is on and
      either cannot connect or has a backup to go by. */
  lemma StatusIff(h: HostState, q: Request, picks: Picks)
    ensures
      var o := Deploy(h, q, picks);
      && (o.backupTaken <==> BackupGoesWell(h, q))
      && (o.status.Success? <==> AllGoesWell(h, q))
      && (o.status.Running? <==> q.materialPresent && q.connects && q.staging.Escapes?)
      && (o.status.RolledBack? <==>
            && !o.status.Success? && !o.status.Running?
            && q.materialPresent && q.rollbackEnabled && (!q.rollbackConnects || BackupGoesWell(h, q)))
      && !o.status.Pending?
  {
    BackupOkIff(h, q, SLOTS);
    InstallOkIff(BackupOver(h, q, SLOTS).host, q);
    if q.backupFault.Some? { EverySlot(q.backupFault.value.slot); }
  }

  lemma EverySlot(s: Slot)
    ensures s in SLOTS
  {
    match s
    case CertSlot => assert SLOTS[0] == s;
    case KeySlot => assert SLOTS[1] == s;
    case ChainSlot => assert SLOTS[2] == s;
  }

  /** A rollback happens to a target, and then restores it, exactly in these circumstances. */
  lemma RollsBackIff(h: HostState, q: Request, slot: Slot)
    ensures RollsBack(h, q, slot) <==>
              && BackupGoesWell(h, q) && !AllGoesWell(h, q)
              && q.rollbackEnabled && q.rollbackConnects && slot !in q.restoreFaults
              && q.visited > match slot case CertSlot => 0 case KeySlot => 1 case ChainSlot => 2
  {
    StatusIff(h, q, map[]);
    assert SLOTS[0] == CertSlot && SLOTS[1] == KeySlot && SLOTS[2] == ChainSlot;
    if q.visited < |SLOTS| {
      assert forall k | 0 <= k < q.visited :: SLOTS[..q.visited][k] == SLOTS[k];
    }
  }

  /** The certificate is installed before the key: when its line fails the key is
      not touched, and when the key's fails the certificate is already the new one. */
  lemma HalfInstalled(h: HostState, q: Request)
    requires BackupGoesWell(h, q) && q.installFault.Some?
    ensures
      var a, cert, key := Attempt(h, q).host, TargetPath(CertSlot, q.domain), TargetPath(KeySlot, q.domain);
      && (q.installFault.value.slot.CertSlot? ==> SamePath(h, a, key))
      && (q.installFault.value.slot.KeySlot? ==>
            cert in a.files && a.files[cert].content == if CertSlot in q.material then q.material[CertSlot] else "")
  {
    BackupOkIff(h, q, SLOTS);
    if q.backupFault.Some? { EverySlot(q.backupFault.value.slot); }
    assert BackupOver(h, q, SLOTS).host.files == h.files by { BackupTouchesOnly(h, q, SLOTS); }
    InstallHalf(BackupOver(h, q, SLOTS).host, q);
  }

  lemma InstallHalf(b: HostState, q: Request)
    requires q.installFault.Some?
    ensures
      var a := InstallOver(b, q, INSTALLED).host;
      var cert, key := TargetPath(CertSlot, q.domain), TargetPath(KeySlot, q.domain);
      && (q.installFault.value.slot.CertSlot? ==> SamePath(b, a, key))
      && (q.installFault.value.slot.KeySlot? ==>
            cert in a.files && a.files[cert].content == if CertSlot in q.material then q.material[CertSlot] else "")
  {
    SharedPathIff(CertSlot, q.domain, KeySlot, q.domain);
    assert INSTALLED[..1] == [CertSlot] && [CertSlot][..0] == [];
    assert InstallOver(b, q, [CertSlot]) == InstallOne(b, q, CertSlot);
  }

  /** No live file changes unless the backup went well, and a target the rollback
      does not get to stays as the attempt left it. */
  lemma BackupGuards(h: HostState, q: Request, picks: Picks, slot: Slot)
    ensures !BackupGoesWell(h, q) ==> Deploy(h, q, picks).host.files == h.files
    ensures slot !in Visited(q) ==>
              SamePath(Attempt(h, q).host, Deploy(h, q, picks).host, TargetPath(slot, q.domain))
  {
    StatusIff(h, q, picks);
    BackupTouchesOnly(h, q, SLOTS);
    if slot !in Visited(q) {
      forall s | s in Visited(q) ensures TargetPath(slot, q.domain) != TargetPath(s, q.domain) {
        SharedPathIff(slot, q.domain, s, q.domain);
      }
      RestoreTouchesOnly(Attempt(h, q).host, q, picks, Visited(q), TargetPath(slot, q.domain));
    }
  }

  /** Of the targets only the key is kept in the private directory. */
  lemma KeysApart(slot: Slot, domain: string)
    ensures slot.KeySlot? <==> "/etc/ssl/private/" <= TargetPath(slot, domain)
    ensures !slot.KeySlot? <==> "/etc/ssl/certs/" <= TargetPath(slot, domain)
  {
    assert TargetPath(slot, domain)[9] == if slot.KeySlot? then 'p' else 'c';
  }

  // ── Where the invariant is lost ──────────────────────────────────────────

  /** The files a script run may leave behind in the backups: all at most `bound` old, but for `bad`. */
  ghost predicate BoundedBut(h: HostState, bad: BackupKey, bound: int) {
    && (forall p | p in h.files :: h.files[p].mtime <= bound)
    && (forall k | k in h.backups && k != bad :: h.backups[k].mtime <= bound)
  }

  lemma {:induction false} BackupStaysBounded(h: HostState, q: Request, slots: seq<Slot>, bad: BackupKey, bound: int)
    requires BackupOver(h, q, slots).ok && BoundedBut(h, bad, bound)
    requires forall s: Slot :: bad != BackupKey(q.domain, BackupName(s, q.domain, q.stamp))
    ensures
      var b := BackupOver(h, q, slots).host;
      && BoundedBut(b, bad, bound) && b.files == h.files
      && (bad in b.backups <==> bad in h.backups) && (bad in h.backups ==> b.backups[bad] == h.backups[bad])
  {
    if slots != [] { BackupStaysBounded(h, q, slots[..|slots| - 1], bad, bound); }
  }

  /** Copies up to the target whose copy breaks off. */
  lemma {:induction false} TornAfter(h: HostState, q: Request, slots: seq<Slot>)
    requires ClockBounds(h) && TornBackup(q) && TargetPath(q.backupFault.value.slot, q.domain) in h.files
    ensures
      var r, slot := BackupOver(h, q, slots), q.backupFault.value.slot;
      var bad := BackupKey(q.domain, BackupName(slot, q.domain, q.stamp));
      && r.host.files == h.files
      && (r.ok <==> slot !in slots)
      && BoundedBut(r.host, bad, h.clock)
      && (r.ok ==> r.host.clock == h.clock)
      && (!r.ok ==> bad in r.host.backups && r.host.backups[bad].content == q.backupFault.value.left.content &&
                    r.host.backups[bad].mtime > h.clock)
  {
    if slots != [] {
      TornAfter(h, q, slots[..|slots| - 1]);
      var last := slots[|slots| - 1];
      assert forall s | s in slots :: s in slots[..|slots| - 1] || s == last;
    }
  }

  lemma TornDeployment(h: HostState, torn: Request, picks: Picks)
    requires ClockBounds(h) && TornBackup(torn)
    requires torn.materialPresent && torn.connects && torn.staging.Staged?
    requires TargetPath(torn.backupFault.value.slot, torn.domain) in h.files
    ensures
      var h1, slot := Deploy(h, torn, picks).host, torn.backupFault.value.slot;
      var bad := BackupKey(torn.domain, BackupName(slot, torn.domain, torn.stamp));
      && h1.files == h.files && BoundedBut(h1, bad, h.clock)
      && bad in h1.backups && h1.backups[bad].mtime > h.clock
      && h1.backups[bad].content == torn.backupFault.value.left.content
  {
    TornAfter(h, torn, SLOTS);
    assert torn.backupFault.value.slot in SLOTS;
  }

  /** A torn backup is what the invariant cannot survive.  When the copy of any
      target breaks off and leaves a truncated file, the next deployment (in a
      later second) that rolls back puts the truncated content in place of
      whatever was there, always. */
  lemma TornBackupBreaksRollback(h: HostState, torn: Request, picks: Picks, q: Request, picks': Picks)
    requires ClockBounds(h) && TornBackup(torn)
    requires TargetPath(torn.backupFault.value.slot, q.domain) in h.files
    requires torn.domain == q.domain && torn.stamp != q.stamp
    requires torn.materialPresent && torn.connects && torn.staging.Staged?
    requires RollsBack(Deploy(h, torn, picks).host, q, torn.backupFault.value.slot)
    requires ValidPicks(Attempt(Deploy(h, torn, picks).host, q).host, q.domain, picks')
    ensures
      var h1, path := Deploy(h, torn, picks).host, TargetPath(torn.backupFault.value.slot, q.domain);
      && h1.files == h.files
      && path in Deploy(h1, q, picks').host.files
      && Deploy(h1, q, picks').host.files[path].content == torn.backupFault.value.left.content
  {
    var h1, slot := Deploy(h, torn, picks).host, torn.backupFault.value.slot;
    var name := BackupName(slot, q.domain, torn.stamp);
    var bad := BackupKey(q.domain, name);
    TornDeployment(h, torn, picks);
    forall s: Slot ensures bad != BackupKey(q.domain, BackupName(s, q.domain, q.stamp)) {
      BackupNameInjective(slot, s, q.domain, torn.stamp, q.stamp);
    }
    BackupStaysBounded(h1, q, SLOTS, bad, h.clock);
    BackupsAtRollback(h1, q, slot);
    GlobSelectsOwnBackups(slot, slot, q.domain, torn.stamp);
    RollbackPuts(h1, q, slot, picks');
    var a := Attempt(h1, q).host;
    assert IsBackup(a, slot, q.domain, name);
    assert Latest(a, slot, q.domain, picks'[slot]);
  }

  // Domains that share a path

  /** A deployment whose first install line fails and leaves the target alone. */
  predicate FailsAtOnce(q: Request) {
    && q.materialPresent && q.connects && q.staging.Staged? && q.backupFault.None? && q.backupReported
    && q.installFault == Some(Fault(CertSlot, Untouched)) && q.rollbackEnabled && q.rollbackConnects
    && q.visited >= |SLOTS|
  }

  function FailingRequest(domain: string, stamp: string, restoreFaults: map<Slot, Leftover>): Request {
    Request(domain, map[], true, true, Staged, stamp, None, true, Some(Fault(CertSlot, Untouched)), true, true, true,
            true, true, |SLOTS|, restoreFaults, 0)
  }

  lemma {:induction false} BackupsSucceed(h: HostState, q: Request, slots: seq<Slot>)
    requires q.backupFault.None?
    ensures BackupOver(h, q, slots).ok
  {
    if slots != [] { BackupsSucceed(h, q, slots[..|slots| - 1]); }
  }

  lemma FailsAtOnceAttempt(h: HostState, q: Request)
    requires FailsAtOnce(q)
    ensures Attempt(h, q) == Outcome(BackupOver(h, q, SLOTS).host, Failed, true)
    ensures Attempt(h, q).host.files == h.files
  {
    var b := BackupOver(h, q, SLOTS).host;
    BackupsSucceed(h, q, SLOTS);
    BackupTouchesOnly(h, q, SLOTS);
    assert INSTALLED[..1] == [CertSlot] && [CertSlot][..0] == [];
    assert InstallOver(b, q, [CertSlot]) == ScriptRun(b, false);
  }

  /** A target that is not there gets no backup. */
  lemma {:induction false} NoBackupWithoutFile(h: HostState, q: Request, slots: seq<Slot>, slot: Slot)
    requires TargetPath(slot, q.domain) !in h.files && q.backupFault.None?
    requires BackupKey(q.domain, BackupName(slot, q.domain, q.stamp)) !in h.backups
    ensures BackupKey(q.domain, BackupName(slot, q.domain, q.stamp)) !in BackupOver(h, q, slots).host.backups
  {
    if slots != [] {
      var init, last := slots[..|slots| - 1], slots[|slots| - 1];
      NoBackupWithoutFile(h, q, init, slot);
      BackupTouchesOnly(h, q, init);
      BackupNameInjective(slot, last, q.domain, q.stamp, q.stamp);
    }
  }

  /** `name` is the one backup of the target, and `f` is in it. */
  ghost predicate OnlyBackup(h: HostState, slot: Slot, domain: string, name: string, f: File) {
    && IsBackup(h, slot, domain, name) && h.backups[BackupKey(domain, name)] == f
    && forall n | IsBackup(h, slot, domain, n) :: n == name
  }

  ghost predicate NoBackup(h: HostState, slot: Slot, domain: string) {
    forall n :: !IsBackup(h, slot, domain, n)
  }

  /** A deployment leaves the backups of other domains as they are. */
  lemma OtherDomainKept(h: HostState, q: Request, picks: Picks, slot: Slot, domain: string, name: string, f: File)
    requires domain != q.domain
    ensures OnlyBackup(Deploy(h, q, picks).host, slot, domain, name, f) <==> OnlyBackup(h, slot, domain, name, f)
    ensures NoBackup(Deploy(h, q, picks).host, slot, domain) <==> NoBackup(h, slot, domain)
  {
    var h' := Deploy(h, q, picks).host;
    DeployTouchesOnly(h, q, picks, "");
    forall n
      ensures IsBackup(h', slot, domain, n) <==> IsBackup(h, slot, domain, n)
      ensures IsBackup(h, slot, domain, n) ==> h'.backups[BackupKey(domain, n)] == h.backups[BackupKey(domain, n)]
    {
      assert BackupKey(domain, n).domain != q.domain;
    }
  }

  /** What a failing deployment adds to a target's backups: its own, if the target is there. */
  lemma FailsAtOnceBackups(h: HostState, q: Request, slot: Slot, n: string)
    requires FailsAtOnce(q) && n != BackupName(slot, q.domain, q.stamp)
    ensures
      var a := Attempt(h, q).host;
      && (IsBackup(a, slot, q.domain, n) <==> IsBackup(h, slot, q.domain, n))
      && (IsBackup(h, slot, q.domain, n) ==> a.backups[BackupKey(q.domain, n)] == h.backups[BackupKey(q.domain, n)])
  {
    FailsAtOnceAttempt(h, q);
    if GlobMatches(slot, q.domain, n) { BackupAddsOwn(h, q, SLOTS, slot, n); }
  }

  lemma RestoreKeepsBackups(h: HostState, q: Request, picks: Picks, slots: seq<Slot>)
    ensures RestoreOver(h, q, picks, slots).backups == h.backups
  {
    RestoreTouchesOnly(h, q, picks, slots, "");
  }

  /** The last target of the loop, with a backup to restore and a copy that removes it. */
  lemma LastRemoved(h: HostState, q: Request, picks: Picks)
    requires q.restoreFaults == map[ChainSlot := Removed]
    requires ChainSlot in picks && picks[ChainSlot].Some? && BackupKey(q.domain, picks[ChainSlot].value) in h.backups
    ensures TargetPath(ChainSlot, q.domain) !in RestoreOver(h, q, picks, SLOTS).files
  {
    RestoreKeepsBackups(h, q, picks, SLOTS[..2]);
  }

  /** First: the chain of d is backed up, the install fails, and the rollback
      removes the chain and cannot write it again. */
  lemma ChainRemoved(h: HostState, q: Request, picks: Picks)
    requires FailsAtOnce(q) && q.restoreFaults == map[ChainSlot := Removed]
    requires TargetPath(ChainSlot, q.domain) in h.files && NoBackup(h, ChainSlot, q.domain)
    requires ValidPicks(Attempt(h, q).host, q.domain, picks)
    ensures
      var h', path := Deploy(h, q, picks).host, TargetPath(ChainSlot, q.domain);
      && path !in h'.files
      && OnlyBackup(h', ChainSlot, q.domain, BackupName(ChainSlot, q.domain, q.stamp), h.files[path])
  {
    var a := Attempt(h, q).host;
    FailsAtOnceAttempt(h, q);
    BackupsAtRollback(h, q, ChainSlot);
    forall n | IsBackup(a, ChainSlot, q.domain, n) ensures n == BackupName(ChainSlot, q.domain, q.stamp) {
      if n != BackupName(ChainSlot, q.domain, q.stamp) { FailsAtOnceBackups(h, q, ChainSlot, n); }
    }
    assert Latest(a, ChainSlot, q.domain, picks[ChainSlot]);
    LastRemoved(a, q, picks);
    RestoreKeepsBackups(a, q, picks, SLOTS);
    var h' := Deploy(h, q, picks).host;
    assert h'.backups == a.backups;
    assert forall n :: IsBackup(h', ChainSlot, q.domain, n) <==> IsBackup(a, ChainSlot, q.domain, n);
  }

  /** Then: d.chain, whose certificate is not there, fails and rolls back to an older backup. */
  lemma OlderRestored(h: HostState, q: Request, picks: Picks, name: string, f: File)
    requires FailsAtOnce(q) && q.restoreFaults == map[] && TargetPath(CertSlot, q.domain) !in h.files
    requires OnlyBackup(h, CertSlot, q.domain, name, f) && name != BackupName(CertSlot, q.domain, q.stamp)
    requires ValidPicks(Attempt(h, q).host, q.domain, picks)
    ensures
      var h', path := Deploy(h, q, picks).host, TargetPath(CertSlot, q.domain);
      path in h'.files && h'.files[path] == f
  {
    var a, own := Attempt(h, q).host, BackupName(CertSlot, q.domain, q.stamp);
    FailsAtOnceAttempt(h, q);
    GlobSelectsOwnBackups(CertSlot, CertSlot, q.domain, q.stamp);
    assert !IsBackup(h, CertSlot, q.domain, own);
    NoBackupWithoutFile(h, q, SLOTS, CertSlot);
    FailsAtOnceBackups(h, q, CertSlot, name);
    assert Latest(a, CertSlot, q.domain, picks[CertSlot]);
    assert picks[CertSlot].Some?;
    FailsAtOnceBackups(h, q, CertSlot, picks[CertSlot].value);
    assert CertSlot in SLOTS;
    RestoreEffect(a, q, picks, SLOTS);
  }

  /** Last: d fails again, and its rollback prefers the newer backup it still has. */
  lemma NewerRestored(h: HostState, q: Request, picks: Picks, name: string, f: File)
    requires FailsAtOnce(q) && q.restoreFaults == map[] && TargetPath(ChainSlot, q.domain) in h.files
    requires OnlyBackup(h, ChainSlot, q.domain, name, f) && name != BackupName(ChainSlot, q.domain, q.stamp)
    requires h.files[TargetPath(ChainSlot, q.domain)].mtime < f.mtime
    requires ValidPicks(Attempt(h, q).host, q.domain, picks)
    ensures RollsBackFully(h, q)
    ensures
      var h', path := Deploy(h, q, picks).host, TargetPath(ChainSlot, q.domain);
      path in h'.files && h'.files[path] == f
  {
    var a, own := Attempt(h, q).host, BackupName(ChainSlot, q.domain, q.stamp);
    FailsAtOnceAttempt(h, q);
    assert ChainSlot in SLOTS;
    RollbackPuts(h, q, ChainSlot, picks);
    BackupsAtRollback(h, q, ChainSlot);
    FailsAtOnceBackups(h, q, ChainSlot, name);
    assert Latest(a, ChainSlot, q.domain, picks[ChainSlot]);
    var n := picks[ChainSlot].value;
    if n != own { FailsAtOnceBackups(h, q, ChainSlot, n); }
  }

  /** A host on which the chain of d, also the certificate of d.chain, is newer
      than the one backup d.chain has of it. */
  function SharedHost(d: string, older: Content, newer: Content): HostState {
    HostState(map[TargetPath(ChainSlot, d) := File(newer, 5)],
              map[BackupKey(d + ".chain", BackupName(CertSlot, d + ".chain", "0")) := File(older, 1)],
              5)
  }

  lemma SharedHostInv(d: string, older: Content, newer: Content)
    ensures
      var h := SharedHost(d, older, newer);
      && Inv(h, {d, d + ".chain"})
      && NoBackup(h, ChainSlot, d)
      && OnlyBackup(h, CertSlot, d + ".chain", BackupName(CertSlot, d + ".chain", "0"), File(older, 1))
  {
    var h, dc := SharedHost(d, older, newer), d + ".chain";
    assert |dc| != |d|;
    forall s: Slot, e | e in {d, dc} ensures Dominated(h, s, e) && OneFilePerTime(h, s, e) {
      GlobSelectsOwnBackups(s, CertSlot, dc, "0");
    }
    GlobSelectsOwnBackups(CertSlot, CertSlot, dc, "0");
  }

  /** Domains that share a path are what the invariant cannot survive either: for
      every d, a valid run over d and d.chain after which a full rollback of d
      replaces the chain that was there by a newer one that had been removed. */
  lemma ApartIsNeeded(d: string, older: Content, newer: Content)
    returns (h: HostState, steps: seq<Step>, q: Request, picks: Picks)
    ensures Inv(h, {d, d + ".chain"}) && ValidRun(h, steps, {d, d + ".chain"})
    ensures q.domain == d && !TornBackup(q) && RollsBackFully(Run(h, steps), q)
    ensures ValidPicks(Attempt(Run(h, steps), q).host, d, picks)
    ensures
      var g, path := Run(h, steps), TargetPath(ChainSlot, d);
      && path in g.files && g.files[path].content == older
      && path in Deploy(g, q, picks).host.files && Deploy(g, q, picks).host.files[path].content == newer
  {
    var dc := d + ".chain";
    h := SharedHost(d, older, newer);
    SharedHostInv(d, older, newer);
    SharedPathIff(CertSlot, dc, ChainSlot, d);
    assert |dc| != |d|;
    var q1 := FailingRequest(d, "1", map[ChainSlot := Removed]);
    var p1 := AnyPicks(Attempt(h, q1).host, d);
    var h1 := Deploy(h, q1, p1).host;
    var name0, name1 := BackupName(CertSlot, dc, "0"), BackupName(ChainSlot, d, "1");
    ChainRemoved(h, q1, p1);
    OtherDomainKept(h, q1, p1, CertSlot, dc, name0, File(older, 1));
    var q2 := FailingRequest(dc, "2", map[]);
    var p2 := AnyPicks(Attempt(h1, q2).host, dc);
    var h2 := Deploy(h1, q2, p2).host;
    BackupNameInjective(CertSlot, CertSlot, dc, "0", "2");
    OlderRestored(h1, q2, p2, name0, File(older, 1));
    OtherDomainKept(h1, q2, p2, ChainSlot, d, name1, File(newer, 5));
    q := FailingRequest(d, "3", map[]);
    picks := AnyPicks(Attempt(h2, q).host, d);
    BackupNameInjective(ChainSlot, ChainSlot, d, "1", "3");
    NewerRestored(h2, q, picks, name1, File(newer, 5));
    steps := [Step(q1, p1), Step(q2, p2)];
    TwoSteps(h, Step(q1, p1), Step(q2, p2), {d, dc});
  }

  lemma TwoSteps(h: HostState, s1: Step, s2: Step, domains: set<string>)
    requires s1.request.domain in domains && s2.request.domain in domains
    requires !TornBackup(s1.request) && !TornBackup(s2.request)
    requires ValidPicks(Attempt(h, s1.request).host, s1.request.domain, s1.picks)
    requires
      var h1 := Deploy(h, s1.request, s1.picks).host;
      ValidPicks(Attempt(h1, s2.request).host, s2.request.domain, s2.picks)
    ensures ValidRun(h, [s1, s2], domains)
    ensures Run(h, [s1, s2]) == Deploy(Deploy(h, s1.request, s1.picks).host, s2.request, s2.picks).host
  {
    assert [s1, s2][..1] == [s1] && [s1][..0] == [] && [s1, s2][..0] == [];
    assert Run(h, []) == h && Run(h, [s1]) == Deploy(h, s1.request, s1.picks).host;
  }

  // ── The imperative engine ────────────────────────────────────────────────

  lemma AnyPicks(h: HostState, domain: string) returns (picks: Picks)
    ensures ValidPicks(h, domain, picks)
  {
    var c := SomeLatest(h, CertSlot, domain);
    var k := SomeLatest(h, KeySlot, domain);
    var ch := SomeLatest(h, ChainSlot, domain);
    picks := map[CertSlot := c, KeySlot := k, ChainSlot := ch];
    forall s: Slot ensures s in picks && Latest(h, s, domain, picks[s]) {
      assert s.CertSlot? || s.KeySlot? || s.ChainSlot?;
    }
  }

  class RemoteHost {
    var files: map<string, File>
    var backups: map<BackupKey, File>
    var clock: int

    ghost function State(): HostState
      reads this
    {
      HostState(files, backups, clock)
    }

    method RunBackup(q: Request) returns (ok: bool)
      modifies this
      ensures ScriptRun(State(), ok) == BackupOver(old(State()), q, SLOTS)
    {
      ok := true;
      for i := 0 to |SLOTS|
        invariant ScriptRun(State(), ok) == BackupOver(old(State()), q, SLOTS[..i])
      {
        assert SLOTS[..i + 1][..i] == SLOTS[..i];
        var path := TargetPath(SLOTS[i], q.domain);
        var key := BackupKey(q.domain, BackupName(SLOTS[i], q.domain, q.stamp));
        if ok && path in files {
          if q.backupFault.Some? && q.backupFault.value.slot == SLOTS[i] {
            ok := false;
            match q.backupFault.value.left {
              case Untouched =>
              case Removed => backups := backups - {key};
              case Partial(c) =>
                clock := Fresh(clock, q.at);
                backups := backups[key := File(c, clock)];
            }
          } else {
            backups := backups[key := files[path]];
          }
        }
      }
      assert SLOTS[..|SLOTS|] == SLOTS;
    }

    method WriteFailed(path: string, left: Leftover, at: int)
      modifies this
      ensures State() == FailedWrite(old(State()), path, left, at)
    {
      match left {
        case Untouched =>
        case Removed => files := files - {path};
        case Partial(c) =>
          clock := Fresh(clock, at);
          files := files[path := File(c, clock)];
      }
    }

    method RunInstall(q: Request) returns (ok: bool)
      modifies this
      ensures ScriptRun(State(), ok) == InstallOver(old(State()), q, INSTALLED)
    {
      ok := true;
      for i := 0 to |INSTALLED|
        invariant ScriptRun(State(), ok) == InstallOver(old(State()), q, INSTALLED[..i])
      {
        assert INSTALLED[..i + 1][..i] == INSTALLED[..i];
        var path := TargetPath(INSTALLED[i], q.domain);
        if ok {
          if q.installFault.Some? && q.installFault.value.slot == INSTALLED[i] {
            ok := false;
            WriteFailed(path, q.installFault.value.left, q.at);
          } else {
            clock := Fresh(clock, q.at);
            files := files[path := File(ContentFor(q, INSTALLED[i]), clock)];
          }
        }
      }
      assert INSTALLED[..|INSTALLED|] == INSTALLED;
    }

    /** `ls -t <dir>/<base>.*.bak | head -1` */
    method NewestBackup(slot: Slot, domain: string) returns (pick: Option<string>)
      ensures Latest(State(), slot, domain, pick)
    {
      var listing := set k | k in backups && k.domain == domain && GlobMatches(slot, domain, k.name);
      var rest := listing;
      pick := None;
      while rest != {}
        invariant rest <= listing
        invariant pick.None? <==> rest == listing
        invariant pick.Some? ==> BackupKey(domain, pick.value) in listing
        invariant forall k | k in listing - rest ::
                    pick.Some? && backups[k].mtime <= backups[BackupKey(domain, pick.value)].mtime
        decreases rest
      {
        var k :| k in rest;
        if pick.None? || backups[BackupKey(domain, pick.value)].mtime < backups[k].mtime {
          pick := Some(k.name);
        }
        rest := rest - {k};
        assert k in listing - rest;
      }
      forall m | IsBackup(State(), slot, domain, m) ensures BackupKey(domain, m) in listing - rest {
        var k := BackupKey(domain, m);
        assert k in backups && k.domain == domain && k.name == m;
        assert k in listing;
      }
    }

    method RestoreTargets(q: Request) returns (ghost picks: Picks)
      modifies this
      ensures ValidPicks(old(State()), q.domain, picks)
      ensures State() == RestoreOver(old(State()), q, picks, Visited(q))
    {
      picks := AnyPicks(State(), q.domain);
      var slots := Visited(q);
      for i := 0 to |slots|
        invariant ValidPicks(old(State()), q.domain, picks)
        invariant backups == old(backups)
        invariant State() == RestoreOver(old(State()), q, picks, slots[..i])
      {
        assert slots[..i + 1][..i] == slots[..i];
        var slot := slots[i];
        var pick := NewestBackup(slot, q.domain);
        ghost var chosen := picks[slot := pick];
        assert Latest(old(State()), slot, q.domain, pick) by {
          assert forall n :: IsBackup(State(), slot, q.domain, n) <==> IsBackup(old(State()), slot, q.domain, n);
        }
        PicksLocal(old(State()), q, picks, chosen, slots[..i]);
        picks := chosen;
        if pick.Some? {
          var path := TargetPath(slot, q.domain);
          if slot in q.restoreFaults {
            WriteFailed(path, q.restoreFaults[slot], q.at);
          } else {
            files := files[path := backups[BackupKey(q.domain, pick.value)]];
          }
        }
      }
      assert slots[..|slots|] == slots;
    }
  }

  lemma {:induction false} PicksLocal(h: HostState, q: Request, p1: Picks, p2: Picks, slots: seq<Slot>)
    requires forall s | s in slots :: s in p1 && s in p2 && p1[s] == p2[s]
    ensures RestoreOver(h, q, p1, slots) == RestoreOver(h, q, p2, slots)
  {
    if slots != [] {
      PicksLocal(h, q, p1, p2, slots[..|slots| - 1]);
      assert slots[|slots| - 1] in slots;
    }
  }

  class DeploymentRow {
    var status: Status
    var backupTaken: bool
  }

  method DeployCertificate(host: RemoteHost, row: DeploymentRow, q: Request) returns (ghost picks: Picks)
    modifies host, row
    ensures ValidPicks(Attempt(old(host.State()), q).host, q.domain, picks)
    ensures Outcome(host.State(), row.status, row.backupTaken) == Deploy(old(host.State()), q, picks)
  {
    row.status, row.backupTaken := Failed, false;
    if q.materialPresent && q.connects && !q.staging.Refused? {
      row.status := Running;
      if q.staging.Escapes? {
        picks := AnyPicks(host.State(), q.domain);
        return;
      }
      var ok := host.RunBackup(q);
      ok := ok && q.backupReported;
      if ok {
        row.backupTaken := true;
        ok := host.RunInstall(q);
      }
      row.status := if ok && q.chownOk && q.reloadOk && q.verifyOk then Success else Failed;
    }
    picks := AnyPicks(host.State(), q.domain);
    if row.status.Failed? && q.materialPresent && q.rollbackEnabled {
      picks := RollBack(host, row, q);
    }
  }

  /** Also marks the row rolled back when the host cannot be reached, or a
      command raises; leaves it failed when no backup was taken. */
  method RollBack(host: RemoteHost, row: DeploymentRow, q: Request) returns (ghost picks: Picks)
    modifies host, row
    ensures ValidPicks(old(host.State()), q.domain, picks)
    ensures row.backupTaken == old(row.backupTaken)
    ensures row.status ==
            if q.rollbackConnects && !row.backupTaken then old(row.status) else RolledBack
    ensures host.State() ==
            if q.rollbackConnects && row.backupTaken
            then RestoreOver(old(host.State()), q, picks, Visited(q))
            else old(host.State())
  {
    picks := AnyPicks(host.State(), q.domain);
    if !q.rollbackConnects {
      row.status := RolledBack;
    } else if row.backupTaken {
      picks := host.RestoreTargets(q);
      row.status := RolledBack;
    }
  }
}
