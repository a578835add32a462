/**
 Issuance requests: built from the caller's payload when a certificate is
 issued at once, and rebuilt from the persisted certificate row when a queued
 worker issues it later.  The two must agree.
 */
module IssueRequest {
  import opened Options
  import opened Text

  datatype Method = Http01 | Dns01 | ManualHttp | ManualDns | Standalone | Webroot | Custom

  /** Methods that always look for hooks. */
  predicate Hooked(m: Method) {
    m.Custom? || m.ManualDns? || m.ManualHttp?
  }

  type Env = map<string, string>

  datatype Hook = Hook(
    active: bool,
    scriptPath: string,
    env: Env,
    user: Option<string>,
    cwd: Option<string>,
    timeout: int,
    sshKey: Option<string>,
    sshHost: Option<string>)

  /** The caller's payload; a missing field is None. */
  datatype Payload = Payload(
    domains: seq<string>,
    validation: Method,
    email: Option<string>,
    keyType: Option<string>,
    environment: Option<string>,
    staging: Option<bool>,
    dryRun: bool,
    webroot: Option<string>,
    port: Option<int>,
    authHook: Option<string>,
    cleanupHook: Option<string>,
    hookEnv: Env,
    authHookId: Option<nat>,
    cleanupHookId: Option<nat>,
    extra: Env)

  /** Settings, the hook table, and the validators of names, addresses and key types. */
  datatype Config = Config(
    defaultEmail: string,
    defaultEnvironment: string,
    defaultStaging: bool,
    hooks: map<nat, Hook>,
    validDomain: string -> bool,
    validEmail: string -> bool,
    validKeyType: string -> bool)

  const DEFAULT_KEY_TYPE: string := "rsa2048"
  const DEFAULT_TIMEOUT: int := 300

  datatype Request = Request(
    domains: seq<string>,
    email: string,
    keyType: string,
    validation: Method,
    environment: string,
    staging: bool,
    dryRun: bool,
    webroot: Option<string>,
    port: Option<int>,
    authHook: Option<string>,
    cleanupHook: Option<string>,
    hookEnv: Env,
    hookUser: Option<string>,
    hookCwd: Option<string>,
    hookTimeout: int,
    sshKey: Option<string>,
    sshHost: Option<string>,
    extra: Env)

  datatype Error = BadDomain | DuplicateDomain | NoDomain | BadEmail | BadKeyType | HookNotFound

  predicate Truthy(s: Option<string>) {
    s.Some? && s.value != ""
  }

  // ── Hooks ────────────────────────────────────────────────────────────────

  datatype Hooks = Hooks(
    auth: Option<string>,
    cleanup: Option<string>,
    env: Env,
    user: Option<string>,
    cwd: Option<string>,
    timeout: int,
    sshKey: Option<string>,
    sshHost: Option<string>)

  const NO_HOOKS: Hooks := Hooks(None, None, map[], None, None, DEFAULT_TIMEOUT, None, None)

  /** The active hook row an id names; ids are positive, so 0 means none. */
  function Lookup(c: Config, id: Option<nat>): Result<Option<Hook>, Error> {
    if id.None? || id.value == 0 then Ok(None)
    else if id.value in c.hooks && c.hooks[id.value].active then Ok(Some(c.hooks[id.value]))
    else Err(HookNotFound)
  }

  function EnvOf(h: Option<Hook>): Env {
    if h.Some? then h.value.env else map[]
  }

  function ResolveHooks(c: Config, p: Payload): Result<Option<Hooks>, Error> {
    var a, k := Lookup(c, p.authHookId), Lookup(c, p.cleanupHookId);
    if a.Err? then Err(a.error)
    else if k.Err? then Err(k.error)
    else
      var auth := if a.value.Some? then Some(a.value.value.scriptPath) else p.authHook;
      var cleanup := if k.value.Some? then Some(k.value.value.scriptPath) else p.cleanupHook;
      if !Truthy(auth) && !Truthy(cleanup) then Ok(None)
      else
        var row := if a.value.Some? then a.value else k.value;
        var ssh := if a.value.Some? && Truthy(a.value.value.sshKey) then a.value else k.value;
        Ok(Some(Hooks(
                  auth, cleanup,
                  EnvOf(a.value) + EnvOf(k.value) + p.hookEnv,
                  if row.Some? then row.value.user else None,
                  if row.Some? then row.value.cwd else None,
                  if row.Some? then row.value.timeout else DEFAULT_TIMEOUT,
                  if ssh.Some? then ssh.value.sshKey else None,
                  if ssh.Some? then ssh.value.sshHost else None)))
  }

  predicate HasId(id: Option<nat>) {
    id.Some? && id.value != 0
  }

  /** The hooks a payload comes to; None when there are none or none are looked for. */
  function HooksFor(c: Config, p: Payload): Result<Option<Hooks>, Error> {
    if Hooked(p.validation) || HasId(p.authHookId) || HasId(p.cleanupHookId) then ResolveHooks(c, p) else Ok(None)
  }

  predicate NamesActive(c: Config, id: Option<nat>) {
    HasId(id) && id.value in c.hooks && c.hooks[id.value].active
  }

  /** Hooks are refused exactly when an identifier is given that names no active
      hook.  Otherwise a variable of the environment has the payload's value if
      that sets it, else the cleanup hook's, else the authentication hook's, and
      the SSH credential is the authentication hook's whenever that has one. */
  lemma HookPrecedence(c: Config, p: Payload)
    ensures ResolveHooks(c, p).Err? <==>
              || (HasId(p.authHookId) && !NamesActive(c, p.authHookId))
              || (HasId(p.cleanupHookId) && !NamesActive(c, p.cleanupHookId))
    ensures
      var r := ResolveHooks(c, p);
      r.Ok? && r.value.Some? ==>
        var auth, cleanup := NamesActive(c, p.authHookId), NamesActive(c, p.cleanupHookId);
        var env := r.value.value.env;
        && (forall k | k in p.hookEnv :: k in env && env[k] == p.hookEnv[k])
        && (forall k | k !in p.hookEnv && cleanup && k in c.hooks[p.cleanupHookId.value].env ::
              k in env && env[k] == c.hooks[p.cleanupHookId.value].env[k])
        && (forall k | k !in p.hookEnv && !(cleanup && k in c.hooks[p.cleanupHookId.value].env) ::
              (k in env <==> auth && k in c.hooks[p.authHookId.value].env) &&
              (k in env ==> env[k] == c.hooks[p.authHookId.value].env[k]))
        && (auth && Truthy(c.hooks[p.authHookId.value].sshKey) ==>
              r.value.value.sshKey == c.hooks[p.authHookId.value].sshKey)
        && (Truthy(r.value.value.auth) || Truthy(r.value.value.cleanup))
  {}

  // ── Building a request ───────────────────────────────────────────────────

  function Normalize(d: string): string {
    Lower(Strip(d))
  }

  function NormalizeAll(ds: seq<string>): (r: seq<string>)
    ensures |r| == |ds| && forall i | 0 <= i < |ds| :: r[i] == Normalize(ds[i])
  {
    seq(|ds|, i requires 0 <= i < |ds| => Normalize(ds[i]))
  }

  predicate NoDuplicates(ds: seq<string>) {
    forall i, j | 0 <= i < j < |ds| :: ds[i] != ds[j]
  }

  function ValidateDomains(c: Config, ds: seq<string>): Result<seq<string>, Error> {
    var r := NormalizeAll(ds);
    var trouble := Trouble(c, r, |r|);
    if trouble.Some? then Err(trouble.value)
    else if r == [] then Err(NoDomain)
    else Ok(r)
  }

  /** What is wrong with the first of n names with which something is. */
  function Trouble(c: Config, names: seq<string>, n: nat): Option<Error>
    requires n <= |names|
  {
    if n == 0 then None
    else
      var before := Trouble(c, names, n - 1);
      if before.Some? then before
      else if names[n - 1] == "" || !c.validDomain(names[n - 1]) then Some(BadDomain)
      else if names[n - 1] in names[..n - 1] then Some(DuplicateDomain)
      else None
  }

  lemma {:induction false} TroubleIff(c: Config, names: seq<string>, n: nat)
    requires n <= |names|
    ensures Trouble(c, names, n).None? <==>
              && (forall i | 0 <= i < n :: names[i] != "" && c.validDomain(names[i]))
              && (forall i, j | 0 <= i < j < n :: names[i] != names[j])
  {
    if n > 0 {
      TroubleIff(c, names, n - 1);
      assert forall i | 0 <= i < n - 1 :: names[..n - 1][i] == names[i];
      if names[n - 1] in names[..n - 1] {
        var i :| 0 <= i < n - 1 && names[..n - 1][i] == names[n - 1];
        assert names[i] == names[n - 1];
      }
    }
  }

  /** The loop over the names, with the set of those seen. */
  method ValidateDomainList(c: Config, ds: seq<string>) returns (r: Result<seq<string>, Error>)
    ensures r == ValidateDomains(c, ds)
  {
    ghost var all := NormalizeAll(ds);
    var names, seen := [], {};
    for i := 0 to |ds|
      invariant names == all[..i] && Trouble(c, all, i).None?
      invariant forall d :: d in seen <==> d in names
    {
      var norm := Lower(Strip(ds[i]));
      assert norm == all[i];
      if norm == "" || !c.validDomain(norm) || norm in seen {
        StaysTrouble(c, all, i + 1, |all|);
        return Err(if norm == "" || !c.validDomain(norm) then BadDomain else DuplicateDomain);
      }
      seen := seen + {norm};
      names := names + [norm];
    }
    assert names == all;
    if names == [] { return Err(NoDomain); }
    return Ok(names);
  }

  lemma {:induction false} StaysTrouble(c: Config, names: seq<string>, i: nat, n: nat)
    requires i <= n <= |names| && Trouble(c, names, i).Some?
    ensures Trouble(c, names, n) == Trouble(c, names, i)
  {
    if i < n { StaysTrouble(c, names, i, n - 1); }
  }

  function Build(c: Config, p: Payload): Result<Request, Error> {
    var domains := ValidateDomains(c, p.domains);
    var email := if Truthy(p.email) then p.email.value else c.defaultEmail;
    var hooks := HooksFor(c, p);
    var keyType := if p.keyType.Some? then p.keyType.value else DEFAULT_KEY_TYPE;
    if domains.Err? then Err(domains.error)
    else if !c.validEmail(email) then Err(BadEmail)
    else if hooks.Err? then Err(hooks.error)
    else if !c.validKeyType(keyType) then Err(BadKeyType)
    else Ok(Assemble(c, p, domains.value, if hooks.value.Some? then hooks.value.value else NO_HOOKS))
  }

  function Assemble(c: Config, p: Payload, domains: seq<string>, h: Hooks): Request {
    Request(
      domains,
      if Truthy(p.email) then p.email.value else c.defaultEmail,
      if p.keyType.Some? then p.keyType.value else DEFAULT_KEY_TYPE,
      p.validation,
      if p.environment.Some? then p.environment.value else c.defaultEnvironment,
      if p.staging.Some? then p.staging.value else c.defaultStaging,
      p.dryRun, p.webroot, p.port,
      h.auth, h.cleanup, h.env, h.user, h.cwd, h.timeout, h.sshKey, h.sshHost, p.extra)
  }

  // ── The persisted row ────────────────────────────────────────────────────

  datatype Row = Row(
    domain: string,
    sans: set<string>,
    validation: Method,
    keyType: string,
    environment: string,
    staging: bool,
    dryRun: bool,
    email: Option<string>,
    webroot: Option<string>,
    port: Option<int>,
    authPath: Option<string>,
    cleanupPath: Option<string>,
    hookEnv: Option<Env>,
    hookUser: Option<string>,
    hookCwd: Option<string>,
    hookTimeout: Option<int>,
    sshKey: Option<string>,
    sshHost: Option<string>)

  /** Lower case and without trailing dots -- but not stripped of spaces. */
  function Stored(d: string): string {
    RStripDots(Lower(d))
  }

  function Persist(c: Config, p: Payload, hooks: Option<Hooks>): Row
    requires p.domains != []
  {
    var h := if hooks.Some? then hooks.value else NO_HOOKS;
    Row(Stored(p.domains[0]), set d | d in p.domains :: Stored(d), p.validation,
        if p.keyType.Some? then p.keyType.value else DEFAULT_KEY_TYPE,
        if p.environment.Some? then p.environment.value else c.defaultEnvironment,
        p.staging.Some? && p.staging.value,
        p.dryRun, p.email, p.webroot, p.port, h.auth, h.cleanup,
        if h.env == map[] then None else Some(h.env),
        h.user, h.cwd, if hooks.Some? then Some(h.timeout) else None, h.sshKey, h.sshHost)
  }

  /** `sans` lists the row's names without repetition, in whatever order. */
  ghost predicate Lists(sans: seq<string>, names: set<string>) {
    NoDuplicates(sans) && forall d :: d in sans <==> d in names
  }

  function Others(sans: seq<string>, domain: string): (r: seq<string>)
    ensures forall d :: d in r <==> d in sans && d != domain
    ensures NoDuplicates(sans) ==> NoDuplicates(r)
  {
    if sans == [] then []
    else
      var r := Others(sans[1..], domain);
      assert forall d :: d in sans <==> d == sans[0] || d in sans[1..];
      assert NoDuplicates(sans) ==> NoDuplicates(sans[1..]) && sans[0] !in sans[1..];
      if sans[0] == domain then r else [sans[0]] + r
  }

  function RebuiltPayload(row: Row, sans: seq<string>): Payload {
    Payload([row.domain] + Others(sans, row.domain), row.validation, row.email, Some(row.keyType),
            Some(row.environment), Some(row.staging), row.dryRun, row.webroot, row.port, row.authPath, row.cleanupPath,
            if row.hookEnv.Some? then row.hookEnv.value else map[], None, None, map[])
  }

  /** The worker's request: built from the row, then the hook settings that only
      the row still knows are put back. */
  function Rebuild(c: Config, row: Row, sans: seq<string>): Result<Request, Error> {
    var r := Build(c, RebuiltPayload(row, sans));
    if r.Err? || !(Truthy(row.authPath) || Truthy(row.cleanupPath)) then r else Ok(Restore(r.value, row))
  }

  function Restore(r: Request, row: Row): Request {
    r.(hookUser := row.hookUser,
       hookCwd := row.hookCwd,
       hookTimeout := if row.hookTimeout.Some? && row.hookTimeout.value != 0 then row.hookTimeout.value
                      else r.hookTimeout,
       sshKey := row.sshKey,
       sshHost := row.sshHost)
  }

  // ── What is built and stored ─────────────────────────────────────────────

  /** Scripts given by path count for three methods only; named hooks for all. */
  predicate LooksForHooks(p: Payload) {
    p.validation in {Custom, ManualDns, ManualHttp} || HasId(p.authHookId) || HasId(p.cleanupHookId)
  }

  /** A request is built exactly when every name is valid, none repeats, there is
      one, e-mail and key type are valid, and no identifier fails to name an active hook. */
  lemma BuildIff(c: Config, p: Payload)
    ensures Build(c, p).Ok? <==>
              && ValidateDomains(c, p.domains).Ok?
              && c.validEmail(if p.email.Some? && p.email.value != "" then p.email.value else c.defaultEmail)
              && (HasId(p.authHookId) ==> NamesActive(c, p.authHookId))
              && (HasId(p.cleanupHookId) ==> NamesActive(c, p.cleanupHookId))
              && c.validKeyType(if p.keyType.Some? then p.keyType.value else "rsa2048")
    ensures Build(c, p).Ok? ==>
              var names := Build(c, p).value.domains;
              |names| == |p.domains| && forall i | 0 <= i < |names| :: names[i] == Lower(Strip(p.domains[i]))
  {
    HookPrecedence(c, p);
  }

  /** The plain fields: the payload's, or the default where it has none. */
  lemma PlainFields(c: Config, p: Payload)
    requires Build(c, p).Ok?
    ensures
      var r := Build(c, p).value;
      && r.email == (if p.email.Some? && p.email.value != "" then p.email.value else c.defaultEmail)
      && r.keyType == (if p.keyType.Some? then p.keyType.value else "rsa2048")
      && r.environment == (if p.environment.Some? then p.environment.value else c.defaultEnvironment)
      && r.staging == (if p.staging.Some? then p.staging.value else c.defaultStaging)
      && r.validation == p.validation && r.dryRun == p.dryRun && r.webroot == p.webroot && r.port == p.port
      && r.extra == p.extra
  {}

  /** The script a payload asks for: the named hook's, else the one given by path. */
  function Script(c: Config, id: Option<nat>, path: Option<string>): Option<string> {
    if NamesActive(c, id) then Some(c.hooks[id.value].scriptPath) else path
  }

  /** The scripts: each the named hook's, else the one given by path, as long as
      hooks are looked for and one of the two is not empty; none at all otherwise. */
  lemma ScriptFields(c: Config, p: Payload)
    requires Build(c, p).Ok?
    ensures
      var r := Build(c, p).value;
      var auth, cleanup := Script(c, p.authHookId, p.authHook), Script(c, p.cleanupHookId, p.cleanupHook);
      if LooksForHooks(p) && (Truthy(auth) || Truthy(cleanup))
      then r.authHook == auth && r.cleanupHook == cleanup
      else r.authHook == None && r.cleanupHook == None && r.hookEnv == map[]
  {
    HookPrecedence(c, p);
  }

  /** User, directory and timeout are those of the authentication hook whenever
      there is one, else of the cleanup hook; the SSH credential, key and host
      together, is the authentication hook's whenever that has a key. */
  lemma HookFields(c: Config, p: Payload)
    requires Build(c, p).Ok?
    requires Truthy(Build(c, p).value.authHook) || Truthy(Build(c, p).value.cleanupHook)
    ensures
      var r := Build(c, p).value;
      var auth, cleanup := NamesActive(c, p.authHookId), NamesActive(c, p.cleanupHookId);
      && (auth ==>
            var h := c.hooks[p.authHookId.value];
            r.hookUser == h.user && r.hookCwd == h.cwd && r.hookTimeout == h.timeout)
      && (!auth && cleanup ==>
            var h := c.hooks[p.cleanupHookId.value];
            r.hookUser == h.user && r.hookCwd == h.cwd && r.hookTimeout == h.timeout)
      && (!auth && !cleanup ==> r.hookUser == None && r.hookCwd == None && r.hookTimeout == 300)
      && (auth && Truthy(c.hooks[p.authHookId.value].sshKey) ==>
            var h := c.hooks[p.authHookId.value];
            r.sshKey == h.sshKey && r.sshHost == h.sshHost)
      && (!(auth && Truthy(c.hooks[p.authHookId.value].sshKey)) && cleanup ==>
            var h := c.hooks[p.cleanupHookId.value];
            r.sshKey == h.sshKey && r.sshHost == h.sshHost)
      && (!(auth && Truthy(c.hooks[p.authHookId.value].sshKey)) && !cleanup ==> r.sshKey == None && r.sshHost == None)
  {
    HookPrecedence(c, p);
  }

  /** The row holds what the request was built with, column by column; it leaves
      out the extras, and takes staging for off when the payload does not say. */
  lemma PersistsRequest(c: Config, p: Payload, hooks: Option<Hooks>)
    requires Build(c, p).Ok? && HooksFor(c, p) == Ok(hooks) && p.domains != []
    ensures
      var r, row := Build(c, p).value, Persist(c, p, hooks);
      && row.keyType == r.keyType && row.environment == r.environment && row.validation == r.validation
      && row.dryRun == r.dryRun && row.webroot == r.webroot && row.port == r.port
      && row.staging == (p.staging == Some(true))
      && (if row.email.Some? && row.email.value != "" then row.email.value else c.defaultEmail) == r.email
      && row.authPath == r.authHook && row.cleanupPath == r.cleanupHook
      && (if row.hookEnv.Some? then row.hookEnv.value else map[]) == r.hookEnv
      && row.hookUser == r.hookUser && row.hookCwd == r.hookCwd
      && (if row.hookTimeout.Some? then row.hookTimeout.value else 300) == r.hookTimeout
      && row.sshKey == r.sshKey && row.sshHost == r.sshHost
      && row.domain in row.sans && row.domain == RStripDots(Lower(p.domains[0]))
  {
    assert p.domains[0] in p.domains;
  }

  // ── When the two agree ───────────────────────────────────────────────────

  /** The same first name and the same set of names. */
  ghost predicate SameNames(ds: seq<string>, ds': seq<string>) {
    && ds != [] && ds' != [] && ds[0] == ds'[0]
    && forall d :: d in ds <==> d in ds'
  }

  /** Equal but for the order of the domains behind the first. */
  ghost predicate Same(r: Request, r': Request) {
    && SameNames(r.domains, r'.domains)
    && r.(domains := []) == r'.(domains := [])
  }

  /** What a caller can check beforehand: no domain is written with a trailing
      dot, staging is given (or off by default), there are no extras, and hooks
      -- if the payload comes to any -- belong to a method that looks for them
      again and have a timeout other than zero. */
  ghost predicate Survives(c: Config, p: Payload, hooks: Option<Hooks>) {
    && Undotted(p.domains)
    && (p.staging.Some? || !c.defaultStaging)
    && p.extra == map[]
    && (hooks.Some? ==> p.validation in {Custom, ManualDns, ManualHttp} && hooks.value.timeout != 0)
  }

  predicate NameChar(ch: char) {
    'a' <= ch <= 'z' || '0' <= ch <= '9' || ch == '-' || ch == '.' || ch == '*'
  }

  /** Valid names consist of name characters. */
  ghost predicate NamesOnly(c: Config) {
    forall d | c.validDomain(d) :: forall i | 0 <= i < |d| :: NameChar(d[i])
  }

  // Stripping and case

  lemma {:induction false} LStripCut(s: string)
    ensures LStrip(s) == s[|s| - |LStrip(s)|..]
    ensures forall i | 0 <= i < |s| - |LStrip(s)| :: IsSpace(s[i])
  {
    if s != "" && IsSpace(s[0]) {
      LStripCut(s[1..]);
      var k := |s[1..]| - |LStrip(s[1..])|;
      assert s[1..][k..] == s[k + 1..];
      forall i | 0 <= i < k + 1 ensures IsSpace(s[i]) {
        if i > 0 { assert s[i] == s[1..][i - 1]; }
      }
    }
  }

  lemma SpaceLower(ch: char)
    ensures IsSpace(LowerChar(ch)) <==> IsSpace(ch)
    ensures LowerChar(LowerChar(ch)) == LowerChar(ch)
    ensures LowerChar(ch) == '.' <==> ch == '.'
  {}

  lemma {:induction false} LStripLower(s: string)
    ensures LStrip(Lower(s)) == Lower(LStrip(s))
  {
    if s != "" {
      SpaceLower(s[0]);
      assert Lower(s)[1..] == Lower(s[1..]);
      if IsSpace(s[0]) { LStripLower(s[1..]); }
    }
  }

  lemma {:induction false} RStripLower(s: string)
    ensures RStrip(Lower(s)) == Lower(RStrip(s))
  {
    if s != "" {
      var n := |s| - 1;
      SpaceLower(s[n]);
      assert Lower(s)[..n] == Lower(s[..n]);
      if IsSpace(s[n]) { RStripLower(s[..n]); }
    }
  }

  lemma StripLower(s: string)
    ensures Strip(Lower(s)) == Normalize(s)
    ensures Normalize(Lower(s)) == Normalize(s)
  {
    LStripLower(s);
    RStripLower(LStrip(s));
    LowerLower(Strip(s));
  }

  lemma LowerLower(s: string)
    ensures Lower(Lower(s)) == Lower(s)
  {}

  lemma EndsWithDotIff(s: string)
    ensures EndsWith(s, ".") <==> s != "" && s[|s| - 1] == '.'
  {}

  /** A name written without a trailing dot survives being stored and normalised again. */
  lemma UndottedSurvives(d: string)
    requires !EndsWith(d, ".")
    ensures Normalize(Stored(d)) == Normalize(d)
  {
    EndsWithDotIff(d);
    if d != "" { SpaceLower(d[|d| - 1]); }
    assert RStripDots(Lower(d)) == Lower(d);
    StripLower(d);
  }

  /** Stripping what is left of `x` after its trailing dots brings no dot to the end,
      when there are no spaces inside `x`. */
  lemma NoDotAtEnd(x: string, r: string)
    requires r <= x && (r == "" || r[|r| - 1] != '.')
    requires forall i | |x| - |LStrip(x)| <= i < |x| :: !IsSpace(x[i])
    ensures Strip(r) == "" || Strip(r)[|Strip(r)| - 1] != '.'
  {
    LStripCut(x);
    LStripCut(r);
    RStripCut(LStrip(r));
    var z := Strip(r);
    if z != "" {
      var p := |r| - |LStrip(r)| + |z| - 1;
      assert z[|z| - 1] == r[p] == x[p];
      if p < |r| - 1 { assert IsSpace(LStrip(r)[|z|]); }
    }
  }

  lemma RStripCut(s: string)
    ensures RStrip(s) == s[..|RStrip(s)|]
    ensures forall i | |RStrip(s)| <= i < |s| :: IsSpace(s[i])
  {}

  /** A name that ends with a dot keeps it when normalised: only spaces in front go. */
  lemma DottedNormal(d: string)
    requires EndsWith(d, ".")
    ensures Normalize(d) == LStrip(Lower(d)) && EndsWith(Normalize(d), ".")
  {
    var x := Lower(d);
    var n := |x| - 1;
    EndsWithDotIff(d);
    assert x[n] == LowerChar(d[n]) == '.';
    StripLower(d);
    LStripCut(x);
    var y := LStrip(x);
    assert y != "" && y[|y| - 1] == x[n];
    assert RStrip(y) == y;
    EndsWithDotIff(y);
  }

  /** A name written with one does not: it comes back without. */
  lemma DottedChanges(d: string)
    requires EndsWith(d, ".")
    requires forall i | 0 <= i < |Normalize(d)| :: NameChar(Normalize(d)[i])
    ensures EndsWith(Normalize(d), ".") && !EndsWith(Normalize(Stored(d)), ".")
  {
    var x := Lower(d);
    DottedNormal(d);
    LStripCut(x);
    var k := |x| - |LStrip(x)|;
    forall i | k <= i < |x| ensures !IsSpace(x[i]) { assert x[i] == Normalize(d)[i - k]; }
    NoDotAtEnd(x, Stored(d));
    LowerOfStored(d);
    EndsWithDotIff(Strip(Stored(d)));
  }

  lemma LowerOfStored(d: string)
    ensures Normalize(Stored(d)) == Strip(Stored(d))
  {
    var r := Stored(d);
    LowerLower(d);
    assert forall i | 0 <= i < |r| :: r[i] == Lower(d)[i];
    assert Lower(r) == r by {
      forall i | 0 <= i < |r| ensures Lower(r)[i] == r[i] { SpaceLower(d[i]); }
    }
    StripLower(r);
  }

  // Domains

  lemma FirstAmong(ds: seq<string>, sans: seq<string>)
    requires ds != [] && Lists(sans, set d | d in ds :: Stored(d))
    ensures
      var rebuilt := [Stored(ds[0])] + Others(sans, Stored(ds[0]));
      NoDuplicates(rebuilt) && forall s :: s in rebuilt <==> exists d | d in ds :: Stored(d) == s
  {
    var first := Stored(ds[0]);
    var rebuilt := [first] + Others(sans, first);
    assert ds[0] in ds;
    forall s ensures s in rebuilt <==> exists d | d in ds :: Stored(d) == s {
      assert s in rebuilt <==> s == first || s in sans;
    }
    PrependFresh(first, Others(sans, first));
  }

  lemma PrependFresh(x: string, xs: seq<string>)
    requires x !in xs && NoDuplicates(xs)
    ensures NoDuplicates([x] + xs)
  {}

  /** Names that all validate, once normalised. */
  ghost predicate AllValid(c: Config, ds: seq<string>) {
    forall d | d in NormalizeAll(ds) :: d != "" && c.validDomain(d)
  }

  ghost predicate Undotted(ds: seq<string>) {
    forall d | d in ds :: !EndsWith(d, ".")
  }

  lemma ValidateIff(c: Config, ds: seq<string>)
    ensures ValidateDomains(c, ds).Ok? <==> AllValid(c, ds) && NoDuplicates(NormalizeAll(ds)) && ds != []
    ensures ValidateDomains(c, ds).Ok? ==> ValidateDomains(c, ds).value == NormalizeAll(ds)
  {
    var r := NormalizeAll(ds);
    TroubleIff(c, r, |r|);
    assert forall i | 0 <= i < |r| :: r[i] in r;
  }

  lemma DomainsKept(c: Config, ds: seq<string>, rebuilt: seq<string>)
    requires Undotted(ds) && AllValid(c, ds) && NoDuplicates(NormalizeAll(ds)) && NoDuplicates(rebuilt)
    requires ds != [] && rebuilt != [] && rebuilt[0] == Stored(ds[0])
    requires forall s :: s in rebuilt <==> exists d | d in ds :: Stored(d) == s
    ensures ValidateDomains(c, rebuilt).Ok? && SameNames(NormalizeAll(ds), NormalizeAll(rebuilt))
  {
    NoneLost(ds, rebuilt);
    StillDistinct(ds, rebuilt);
    assert ds[0] in ds;
    UndottedSurvives(ds[0]);
    ValidateIff(c, rebuilt);
  }

  /** Rebuilding gives the same domains exactly when none was written with a dot at its end. */
  lemma DomainsIff(c: Config, ds: seq<string>, sans: seq<string>)
    requires NamesOnly(c) && ds != [] && ValidateDomains(c, ds).Ok?
    requires Lists(sans, set d | d in ds :: Stored(d))
    ensures
      var before, after := ValidateDomains(c, ds), ValidateDomains(c, [Stored(ds[0])] + Others(sans, Stored(ds[0])));
      (after.Ok? && SameNames(before.value, after.value)) <==> Undotted(ds)
  {
    var rebuilt := [Stored(ds[0])] + Others(sans, Stored(ds[0]));
    FirstAmong(ds, sans);
    ValidateIff(c, ds);
    ValidateIff(c, rebuilt);
    if Undotted(ds) {
      DomainsKept(c, ds, rebuilt);
    } else {
      var d :| d in ds && EndsWith(d, ".");
      DottedMissing(c, ds, rebuilt, d);
    }
  }

  /** Where the i-th rebuilt name comes from. */
  ghost predicate ComesFrom(ds: seq<string>, rebuilt: seq<string>, i: nat, k: nat)
    requires i < |rebuilt|
  {
    k < |ds| && Stored(ds[k]) == rebuilt[i] && Normalize(rebuilt[i]) == Normalize(ds[k])
  }

  lemma SomeOrigin(ds: seq<string>, rebuilt: seq<string>, i: nat) returns (k: nat)
    requires i < |rebuilt|
    requires forall s :: s in rebuilt <==> exists d | d in ds :: Stored(d) == s
    requires forall d | d in ds :: !EndsWith(d, ".")
    ensures ComesFrom(ds, rebuilt, i, k)
  {
    assert rebuilt[i] in rebuilt;
    var d :| d in ds && Stored(d) == rebuilt[i];
    k :| 0 <= k < |ds| && ds[k] == d;
    UndottedSurvives(d);
  }

  lemma NoneLost(ds: seq<string>, rebuilt: seq<string>)
    requires forall s :: s in rebuilt <==> exists d | d in ds :: Stored(d) == s
    requires forall d | d in ds :: !EndsWith(d, ".")
    ensures forall d :: d in NormalizeAll(ds) <==> d in NormalizeAll(rebuilt)
  {
    var before, after := NormalizeAll(ds), NormalizeAll(rebuilt);
    forall k | 0 <= k < |before| ensures before[k] in after {
      assert ds[k] in ds;
      UndottedSurvives(ds[k]);
      assert Stored(ds[k]) in rebuilt;
      var i :| 0 <= i < |rebuilt| && rebuilt[i] == Stored(ds[k]);
      assert after[i] == before[k];
    }
    forall i | 0 <= i < |after| ensures after[i] in before {
      var k := SomeOrigin(ds, rebuilt, i);
      assert before[k] == after[i];
    }
  }

  lemma StillDistinct(ds: seq<string>, rebuilt: seq<string>)
    requires NoDuplicates(rebuilt) && NoDuplicates(NormalizeAll(ds))
    requires forall s :: s in rebuilt <==> exists d | d in ds :: Stored(d) == s
    requires forall d | d in ds :: !EndsWith(d, ".")
    ensures NoDuplicates(NormalizeAll(rebuilt))
  {
    var before, after := NormalizeAll(ds), NormalizeAll(rebuilt);
    forall i, j | 0 <= i < j < |after| ensures after[i] != after[j] {
      var k := SomeOrigin(ds, rebuilt, i);
      var l := SomeOrigin(ds, rebuilt, j);
      assert k != l;
      assert before[k] != before[l];
    }
  }

  lemma DottedMissing(c: Config, ds: seq<string>, rebuilt: seq<string>, d: string)
    requires NamesOnly(c) && d in ds && EndsWith(d, ".")
    requires NoDuplicates(NormalizeAll(ds)) && forall x | x in NormalizeAll(ds) :: c.validDomain(x)
    requires forall s :: s in rebuilt ==> exists e | e in ds :: Stored(e) == s
    ensures Normalize(d) in NormalizeAll(ds) && Normalize(d) !in NormalizeAll(rebuilt)
  {
    var before, after := NormalizeAll(ds), NormalizeAll(rebuilt);
    var k :| 0 <= k < |ds| && ds[k] == d;
    assert before[k] in before;
    DottedChanges(d);
    forall i | 0 <= i < |after| ensures after[i] != Normalize(d) {
      assert rebuilt[i] in rebuilt;
      var e :| e in ds && Stored(e) == rebuilt[i];
      var l :| 0 <= l < |ds| && ds[l] == e;
      assert before[l] in before;
      if EndsWith(e, ".") { DottedChanges(e); } else {
        UndottedSurvives(e);
        assert l != k;
        assert before[l] != before[k];
      }
    }
  }

  // Hooks

  /** The hooks of the rebuilt payload: the resolved ones again, with default
      settings, exactly when the method looks for hooks by itself. */
  lemma RebuiltHooks(c: Config, p: Payload, hooks: Option<Hooks>, sans: seq<string>)
    requires p.domains != [] && HooksFor(c, p) == Ok(hooks)
    ensures
      var again := HooksFor(c, RebuiltPayload(Persist(c, p, hooks), sans));
      && (hooks.Some? ==> Truthy(hooks.value.auth) || Truthy(hooks.value.cleanup))
      && again == Ok(if hooks.Some? && Hooked(p.validation) then Some(HooksAgain(p, hooks)) else None)
  {
    if hooks.Some? { assert map[] + map[] + hooks.value.env == hooks.value.env; }
  }

  /** The hooks the rebuilt payload leads to, before the row's settings are put back. */
  function HooksAgain(p: Payload, hooks: Option<Hooks>): Hooks {
    if hooks.Some? && Hooked(p.validation)
    then Hooks(hooks.value.auth, hooks.value.cleanup, hooks.value.env, None, None, DEFAULT_TIMEOUT, None, None)
    else NO_HOOKS
  }

  /** Everything but the domains agrees exactly under the other conditions. */
  lemma FieldsIff(c: Config, p: Payload, hooks: Option<Hooks>, sans: seq<string>)
    requires p.domains != []
    requires hooks.Some? ==> Truthy(hooks.value.auth) || Truthy(hooks.value.cleanup)
    ensures
      var row := Persist(c, p, hooks);
      var r := Assemble(c, p, [], if hooks.Some? then hooks.value else NO_HOOKS);
      r == Rebuilt(c, RebuiltPayload(row, sans), [], hooks, row) <==>
      && (p.staging.Some? || !c.defaultStaging)
      && p.extra == map[]
      && (hooks.Some? ==> p.validation in {Custom, ManualDns, ManualHttp} && hooks.value.timeout != 0)
  {}

  // The round trip

  /** What the worker builds, in terms of the domains it can still validate. */
  lemma RebuildIs(c: Config, p: Payload, hooks: Option<Hooks>, sans: seq<string>)
    requires Build(c, p).Ok? && HooksFor(c, p) == Ok(hooks)
    ensures
      var row := Persist(c, p, hooks);
      var p' := RebuiltPayload(row, sans);
      var after := ValidateDomains(c, p'.domains);
      Rebuild(c, row, sans) ==
      if after.Err? then Err(after.error) else Ok(Rebuilt(c, p', after.value, hooks, row))
  {
    RebuiltHooks(c, p, hooks, sans);
    var p' := RebuiltPayload(Persist(c, p, hooks), sans);
    assert HooksAgain(p', hooks) == HooksAgain(p, hooks);
    BuildIs(c, p', if hooks.Some? && Hooked(p.validation) then Some(HooksAgain(p, hooks)) else None);
  }

  /** The worker's request, once the domains are known. */
  function Rebuilt(c: Config, p': Payload, domains: seq<string>, hooks: Option<Hooks>, row: Row): Request {
    var r := Assemble(c, p', domains, HooksAgain(p', hooks));
    if hooks.Some? then Restore(r, row) else r
  }

  lemma BuildIs(c: Config, p: Payload, hooks: Option<Hooks>)
    requires HooksFor(c, p) == Ok(hooks)
    requires c.validEmail(if Truthy(p.email) then p.email.value else c.defaultEmail)
    requires c.validKeyType(if p.keyType.Some? then p.keyType.value else DEFAULT_KEY_TYPE)
    ensures
      var domains := ValidateDomains(c, p.domains);
      Build(c, p) == if domains.Err? then Err(domains.error)
                     else Ok(Assemble(c, p, domains.value, if hooks.Some? then hooks.value else NO_HOOKS))
  {}

  /** Agreement splits into that of the domains and that of everything else. */
  lemma SameIff(c: Config, p: Payload, p': Payload, ds: seq<string>, ds': seq<string>, hooks: Option<Hooks>, row: Row)
    ensures
      var h := if hooks.Some? then hooks.value else NO_HOOKS;
      Same(Assemble(c, p, ds, h), Rebuilt(c, p', ds', hooks, row)) <==>
      && SameNames(ds, ds')
      && Assemble(c, p, [], h) == Rebuilt(c, p', [], hooks, row)
  {}

  /** For every payload that can be issued: the request rebuilt from the row is
      the one built from the payload exactly when the payload survives. */
  lemma RoundTripIff(c: Config, p: Payload, hooks: Option<Hooks>, sans: seq<string>)
    requires NamesOnly(c) && Build(c, p).Ok? && HooksFor(c, p) == Ok(hooks)
    requires Lists(sans, Persist(c, p, hooks).sans)
    ensures
      var again := Rebuild(c, Persist(c, p, hooks), sans);
      (again.Ok? && Same(Build(c, p).value, again.value)) <==> Survives(c, p, hooks)
  {
    var row := Persist(c, p, hooks);
    var p' := RebuiltPayload(row, sans);
    var before, after := ValidateDomains(c, p.domains), ValidateDomains(c, p'.domains);
    DomainsIff(c, p.domains, sans);
    RebuildIs(c, p, hooks, sans);
    BuildIs(c, p, hooks);
    if after.Ok? {
      SameIff(c, p, p', before.value, after.value, hooks, row);
      RebuiltHooks(c, p, hooks, sans);
      FieldsIff(c, p, hooks, sans);
    }
  }

  // Both outcomes occur

  function PlainConfig(name: string): Config {
    Config("e", "production", false, map[], d => d == name, _ => true, _ => true)
  }

  function PlainPayload(name: string): Payload {
    Payload([name], Http01, None, None, None, Some(false), false, None, None, None, None, map[], None, None, map[])
  }

  /** A payload of one name, for a configuration that accepts that name, can be issued. */
  lemma PlainBuilds(name: string)
    requires name != "" && Normalize(name) == name
    ensures
      var c, p := PlainConfig(name), PlainPayload(name);
      Build(c, p).Ok? && HooksFor(c, p) == Ok(None) && Lists([Stored(name)], Persist(c, p, None).sans)
  {
    var c, p := PlainConfig(name), PlainPayload(name);
    assert name in p.domains;
    assert NormalizeAll(p.domains) == [name];
    ValidateIff(c, p.domains);
  }

  /** It survives exactly when the name has no dot at its end; names of both kinds there are. */
  lemma PlainSurvivesIff(name: string)
    requires name != "" && forall i | 0 <= i < |name| :: NameChar(name[i])
    ensures NamesOnly(PlainConfig(name))
    ensures Survives(PlainConfig(name), PlainPayload(name), None) <==> name[|name| - 1] != '.'
  {
    EndsWithDotIff(name);
    assert name in PlainPayload(name).domains;
  }

  lemma PlainNames(name: string)
    requires name == "a" || name == "a."
    ensures Normalize(name) == name && forall i | 0 <= i < |name| :: NameChar(name[i])
  {
    assert LStrip(name) == name && RStrip(name) == name;
    assert Lower(name) == name;
  }
}
