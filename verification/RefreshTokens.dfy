/**
 The life of refresh tokens: issue, refresh, revoke, password change,
 deactivation.  What a refresh decides from the stored rows is compared with
 what the log of past events says about the token.
 */
module RefreshTokens {
  import opened Options

  datatype Kind = Access | Refresh

  /** The claims of a signed token.  Signing keeps them from being forged, and
      the random id makes every issued token a different one. */
  datatype Token = Token(id: string, user: nat, kind: Kind, expires: int)

  datatype Row = Row(user: nat, expires: int, revokedAt: Option<int>)

  datatype State = State(rows: map<Token, Row>, active: map<nat, bool>)

  datatype Denial = Invalid | WrongType | Expired | TokenRevoked | AccountDisabled

  /** What a client presents: a text that does not verify, or a signed token. */
  datatype Presented = Forged | Signed(token: Token)

  /** The user the new access token is for. */
  function RefreshFor(s: State, p: Presented, now: int): Result<nat, Denial> {
    if p.Forged? then Err(Invalid)
    else
      var t := p.token;
      if t.expires <= now then Err(Expired)
      else if !t.kind.Refresh? then Err(WrongType)
      else if t !in s.rows || s.rows[t].revokedAt.Some? then Err(TokenRevoked)
      else if s.rows[t].expires < now then Err(Expired)
      else if t.user !in s.active || !s.active[t.user] then Err(AccountDisabled)
      else Ok(t.user)
  }

  // ── Events ───────────────────────────────────────────────────────────────

  datatype Event =
    | UserCreated(user: nat)
    | ActiveSet(user: nat, active: bool)
    | Issued(token: Token, delay: nat)      // the row's expiry is computed `delay` after the token's
    | Revoked(token: Token, at: int)
    | PasswordChanged(user: nat, at: int)   // by the user
    | PasswordReset(user: nat)              // by an administrator

  function RevokeAll(rows: map<Token, Row>, user: nat, at: int): map<Token, Row> {
    map t | t in rows :: if rows[t].user == user then rows[t].(revokedAt := Some(at)) else rows[t]
  }

  function Apply(s: State, e: Event): State {
    match e
    case UserCreated(u) => if u in s.active then s else s.(active := s.active[u := true])
    case ActiveSet(u, b) => if u in s.active then s.(active := s.active[u := b]) else s
    case Issued(t, delay) => s.(rows := s.rows[t := Row(t.user, t.expires + delay, None)])
    case Revoked(t, at) => if t in s.rows then s.(rows := s.rows[t := s.rows[t].(revokedAt := Some(at))]) else s
    case PasswordChanged(u, at) => s.(rows := RevokeAll(s.rows, u, at))
    case PasswordReset(u) => s
  }

  function Replay(log: seq<Event>): State {
    if log == [] then State(map[], map[]) else Apply(Replay(log[..|log| - 1]), log[|log| - 1])
  }

  // ── What the log says ────────────────────────────────────────────────────

  predicate Issues(e: Event, t: Token) {
    e.Issued? && e.token == t
  }

  /** Logging the token out, or its user changing the password. */
  predicate Ends(e: Event, t: Token) {
    (e.Revoked? && e.token == t) || (e.PasswordChanged? && e.user == t.user)
  }

  /** Issued at some point, and not ended since. */
  ghost predicate Live(log: seq<Event>, t: Token) {
    exists i :: 0 <= i < |log| && Issues(log[i], t) && forall j | i < j < |log| :: !Ends(log[j], t)
  }

  /** Created, and not currently deactivated. */
  ghost predicate ActiveUser(log: seq<Event>, u: nat) {
    exists i :: 0 <= i < |log| && log[i] == UserCreated(u) && EnabledSince(log, u, i)
  }

  /** The last activation change after position i, if any, switched the user on. */
  ghost predicate EnabledSince(log: seq<Event>, u: nat, i: nat) {
    forall j | i < j < |log| && log[j] == ActiveSet(u, false) ::
      exists k :: j < k < |log| && log[k] == ActiveSet(u, true)
  }

  /** Every row carries its token's user, and does not expire before its token. */
  ghost predicate RowsMatch(s: State) {
    forall t | t in s.rows :: s.rows[t].user == t.user && t.expires <= s.rows[t].expires
  }

  lemma {:induction false} ReplayRowsMatch(log: seq<Event>)
    ensures RowsMatch(Replay(log))
  {
    if log != [] { ReplayRowsMatch(log[..|log| - 1]); }
  }

  lemma LiveStep(log: seq<Event>, t: Token)
    requires log != []
    ensures
      var init, e := log[..|log| - 1], log[|log| - 1];
      Live(log, t) <==> Issues(e, t) || (Live(init, t) && !Ends(e, t))
  {}

  /** The stored row is unrevoked exactly when the log says the token is live. */
  lemma {:induction false} UnrevokedIff(log: seq<Event>, t: Token)
    ensures t in Replay(log).rows && Replay(log).rows[t].revokedAt.None? <==> Live(log, t)
  {
    if log != [] {
      UnrevokedIff(log[..|log| - 1], t);
      ReplayRowsMatch(log[..|log| - 1]);
      LiveStep(log, t);
    }
  }

  lemma EnabledStep(log: seq<Event>, u: nat, i: nat)
    requires log != [] && i < |log| - 1
    ensures
      var init, e := log[..|log| - 1], log[|log| - 1];
      EnabledSince(log, u, i) <==> e == ActiveSet(u, true) || (e != ActiveSet(u, false) && EnabledSince(init, u, i))
  {}

  /** Users are created once. */
  ghost predicate FreshUsers(log: seq<Event>) {
    forall i, j | 0 <= i < j < |log| && log[i].UserCreated? && log[j].UserCreated? :: log[i].user != log[j].user
  }

  /** The stored flag is what the log says, for the user created at position i. */
  lemma {:induction false} ActiveIff(log: seq<Event>, u: nat, i: nat)
    requires FreshUsers(log) && i < |log| && log[i] == UserCreated(u)
    ensures u in Replay(log).active && (Replay(log).active[u] <==> EnabledSince(log, u, i))
  {
    var init, n := log[..|log| - 1], |log| - 1;
    if i == n {
      NotCreated(init, u);
    } else {
      assert init[i] == UserCreated(u);
      ActiveIff(init, u, i);
      EnabledStep(log, u, i);
    }
  }

  lemma {:induction false} NotCreated(log: seq<Event>, u: nat)
    requires forall j | 0 <= j < |log| :: log[j] != UserCreated(u)
    ensures u !in Replay(log).active
  {
    if log != [] { NotCreated(log[..|log| - 1], u); }
  }

  lemma ActiveUserIff(log: seq<Event>, u: nat)
    requires FreshUsers(log)
    ensures u in Replay(log).active && Replay(log).active[u] <==> ActiveUser(log, u)
  {
    if i :| 0 <= i < |log| && log[i] == UserCreated(u) {
      ActiveIff(log, u, i);
    } else {
      NotCreated(log, u);
    }
  }

  /** In every run: a refresh succeeds exactly for a signed refresh token that has
      not expired, was issued and neither revoked nor overtaken by a password
      change since, and whose user is active now. */
  lemma RefreshIff(log: seq<Event>, p: Presented, now: int)
    requires FreshUsers(log)
    ensures RefreshFor(Replay(log), p, now).Ok? <==>
              && p.Signed?
              && p.token.kind.Refresh?
              && now < p.token.expires
              && Live(log, p.token)
              && ActiveUser(log, p.token.user)
    ensures RefreshFor(Replay(log), p, now).Ok? ==> RefreshFor(Replay(log), p, now).value == p.token.user
  {
    if p.Signed? {
      UnrevokedIff(log, p.token);
      ActiveUserIff(log, p.token.user);
      ReplayRowsMatch(log);
    }
  }

  /** And every refusal has its own reason, in the order the tests are made. */
  lemma DenialIff(log: seq<Event>, p: Presented, now: int)
    requires FreshUsers(log)
    ensures
      var r := RefreshFor(Replay(log), p, now);
      && (r == Err(Invalid) <==> p.Forged?)
      && (r == Err(Expired) <==> p.Signed? && p.token.expires <= now)
      && (r == Err(WrongType) <==> p.Signed? && now < p.token.expires && p.token.kind.Access?)
      && (r == Err(TokenRevoked) <==>
            p.Signed? && now < p.token.expires && p.token.kind.Refresh? && !Live(log, p.token))
      && (r == Err(AccountDisabled) <==>
            && p.Signed? && now < p.token.expires && p.token.kind.Refresh? && Live(log, p.token)
            && !ActiveUser(log, p.token.user))
  {
    if p.Signed? {
      UnrevokedIff(log, p.token);
      ActiveUserIff(log, p.token.user);
      ReplayRowsMatch(log);
    }
  }

  /** A password change ends every token its user had been issued. */
  lemma PasswordChangeEndsTokens(log: seq<Event>, u: nat, at: int, p: Presented, now: int)
    requires p.Signed? && p.token.user == u
    ensures RefreshFor(Replay(log + [PasswordChanged(u, at)]), p, now).Err?
  {
    var all := log + [PasswordChanged(u, at)];
    assert all[..|log|] == log;
    ReplayRowsMatch(log);
  }

  /** An administrator's reset is not such a change: whatever could be refreshed
      before it can be refreshed after it. */
  lemma PasswordResetKeepsTokens(log: seq<Event>, u: nat, p: Presented, now: int)
    ensures RefreshFor(Replay(log + [PasswordReset(u)]), p, now) == RefreshFor(Replay(log), p, now)
  {}

  // ── The rows ─────────────────────────────────────────────────────────────

  class TokenStore {
    var rows: map<Token, Row>
    var active: map<nat, bool>

    ghost function Rows(): State
      reads this
    {
      State(rows, active)
    }

    method IssueTokens(t: Token, delay: nat)
      modifies this
      ensures Rows() == Apply(old(Rows()), Issued(t, delay))
    {
      rows := rows[t := Row(t.user, t.expires + delay, None)];
    }

    method RefreshAccessToken(p: Presented, now: int) returns (r: Result<nat, Denial>)
      ensures r == RefreshFor(Rows(), p, now)
    {
      if p.Forged? { return Err(Invalid); }
      var t := p.token;
      if t.expires <= now { return Err(Expired); }
      if t.kind.Access? { return Err(WrongType); }
      if t !in rows || rows[t].revokedAt.Some? { return Err(TokenRevoked); }
      if rows[t].expires < now { return Err(Expired); }
      if t.user !in active || !active[t.user] { return Err(AccountDisabled); }
      return Ok(t.user);
    }

    method RevokeRefreshToken(t: Token, now: int)
      modifies this
      ensures Rows() == Apply(old(Rows()), Revoked(t, now))
    {
      if t in rows { rows := rows[t := rows[t].(revokedAt := Some(now))]; }
    }

    /** `accepted` is false when the old password is wrong, or the new one breaks the policy. */
    method ChangePassword(u: nat, accepted: bool, now: int)
      modifies this
      ensures Rows() == if accepted then Apply(old(Rows()), PasswordChanged(u, now)) else old(Rows())
    {
      if accepted {
        rows := map t | t in rows :: if rows[t].user == u then rows[t].(revokedAt := Some(now)) else rows[t];
      }
    }
  }
}
