/**
 The browser client's token refresh.  Every response handler that meets a 401
 joins the refresh held in `refreshing`, or starts one.  Between any two awaits
 other handlers may run, so the client is a state machine whose steps are the
 stretches of code between awaits, in any order the event loop picks.
 */
module SingleFlight {
  import opened Options

  type PromiseId = nat
  type HandlerId = nat

  /** Pending: its HTTP call, with the refresh token it sent, is under way, or that call itself got a 401 and its
      own response handler now has to finish first. */
  datatype Promise =
    | Calling(sent: string)
    | Intercepted(handler: HandlerId)
    | Settled(token: Option<string>)

  /** A response handler that awaits a refresh, or is through with it. */
  datatype Handler = Awaiting(current: PromiseId) | Through

  datatype Client = Client(
    refreshing: Option<PromiseId>,
    promises: map<PromiseId, Promise>,
    handlers: map<HandlerId, Handler>,
    access: Option<string>,
    refresh: Option<string>)

  predicate Pending(c: Client, p: PromiseId) {
    p in c.promises && !c.promises[p].Settled?
  }

  // ── Steps ────────────────────────────────────────────────────────────────

  datatype Step =
    | On401(handler: HandlerId, next: PromiseId, of: Option<PromiseId>)
    | Reply(promise: PromiseId, token: Option<string>)
    | Unblock(promise: PromiseId)
    | Resume(handler: HandlerId)
    | LogIn(access: string, refresh: string)
    | LogOut

  /** A 401 arrives at a handler that has not retried yet.  `of` names the
      refresh whose own HTTP call got the 401, if it was one of those. */
  function Take401(c: Client, h: HandlerId, next: PromiseId, of: Option<PromiseId>): Client {
    if c.refresh.None? then
      c.(access := None, handlers := c.handlers[h := Through])
    else
      var current := if c.refreshing.Some? then c.refreshing.value else next;
      var promises := if c.refreshing.Some? then c.promises else c.promises[next := Calling(c.refresh.value)];
      c.(refreshing := Some(current),
         promises := if of.Some? && of.value in promises then promises[of.value := Intercepted(h)] else promises,
         handlers := c.handlers[h := Awaiting(current)])
  }

  /** The refresh call answers: the token store is set, with the refresh token
      that was sent, or cleared. */
  function Settle(c: Client, p: PromiseId, token: Option<string>): Client {
    c.(promises := c.promises[p := Settled(token)],
       access := token,
       refresh := if token.Some? && p in c.promises && c.promises[p].Calling? then Some(c.promises[p].sent) else None)
  }

  /** A handler continues behind its await. */
  function Continue(c: Client, h: HandlerId): Client
    requires h in c.handlers && c.handlers[h].Awaiting?
  {
    var current := c.handlers[h].current;
    var failed := current in c.promises && c.promises[current] == Settled(None);
    c.(refreshing := if c.refreshing == Some(current) then None else c.refreshing,
       handlers := c.handlers[h := Through],
       access := if failed then None else c.access,
       refresh := if failed then None else c.refresh)
  }

  ghost predicate Enabled(c: Client, s: Step) {
    match s
    case On401(h, next, of) =>
      && h !in c.handlers && next !in c.promises
      && (of.Some? ==> of.value in c.promises && c.promises[of.value].Calling?)
    case Reply(p, _) => p in c.promises && c.promises[p].Calling?
    case Unblock(p) =>
      p in c.promises && c.promises[p].Intercepted? &&
      c.promises[p].handler in c.handlers && c.handlers[c.promises[p].handler].Through?
    case Resume(h) =>
      h in c.handlers && c.handlers[h].Awaiting? &&
      c.handlers[h].current in c.promises && c.promises[c.handlers[h].current].Settled?
    case LogIn(_, _) => true
    case LogOut => true
  }

  function Apply(c: Client, s: Step): Client
    requires s.Resume? ==> s.handler in c.handlers && c.handlers[s.handler].Awaiting?
  {
    match s
    case On401(h, next, of) => Take401(c, h, next, of)
    case Reply(p, token) => Settle(c, p, token)
    case Unblock(p) => Settle(c, p, None)
    case Resume(h) => Continue(c, h)
    case LogIn(a, r) => c.(access := Some(a), refresh := Some(r))
    case LogOut => c.(access := None, refresh := None)
  }

  const IDLE: Client := Client(None, map[], map[], None, None)

  ghost predicate Trace(cs: seq<Client>, steps: seq<Step>) {
    && |cs| == |steps| + 1
    && forall i | 0 <= i < |steps| :: Enabled(cs[i], steps[i]) && cs[i + 1] == Apply(cs[i], steps[i])
  }

  // ── Single flight ────────────────────────────────────────────────────────

  /** Every pending refresh is the one held in `refreshing`; what is held, and
      what is awaited, exists. */
  ghost predicate Inv(c: Client) {
    && (forall p: PromiseId | Pending(c, p) :: c.refreshing == Some(p))
    && (c.refreshing.Some? ==> c.refreshing.value in c.promises)
    && (forall h | h in c.handlers && c.handlers[h].Awaiting? :: c.handlers[h].current in c.promises)
  }

  lemma {:induction false} StepKeepsInv(c: Client, s: Step)
    requires Inv(c) && Enabled(c, s)
    ensures Inv(Apply(c, s))
  {}

  /** Under every interleaving at most one refresh is in flight. */
  lemma {:induction false} AtMostOneRefresh(cs: seq<Client>, steps: seq<Step>, n: nat)
    requires Trace(cs, steps) && Inv(cs[0]) && n <= |steps|
    ensures Inv(cs[n])
    ensures forall p: PromiseId, q: PromiseId | Pending(cs[n], p) && Pending(cs[n], q) :: p == q
  {
    if n > 0 {
      AtMostOneRefresh(cs, steps, n - 1);
      StepKeepsInv(cs[n - 1], steps[n - 1]);
    }
  }

  /** And so it is from the moment the page is loaded. */
  lemma {:induction false} AtMostOneFromStart(cs: seq<Client>, steps: seq<Step>, n: nat)
    requires Trace(cs, steps) && cs[0] == IDLE && n <= |steps|
    ensures forall p: PromiseId, q: PromiseId | Pending(cs[n], p) && Pending(cs[n], q) :: p == q
    ensures forall p: PromiseId | Pending(cs[n], p) :: cs[n].refreshing == Some(p)
  {
    AtMostOneRefresh(cs, steps, n);
  }

  /** A late waiter never clears a newer refresh, and no step ever takes a
      pending refresh out of `refreshing`. */
  lemma {:induction false} PendingStaysHeld(c: Client, s: Step, p: PromiseId)
    requires Inv(c) && Enabled(c, s) && Pending(c, p)
    ensures Apply(c, s).refreshing == Some(p)
    ensures s.Resume? ==> c.handlers[s.handler].current != p
  {}

  /** A 401 starts a call only when none is in flight; otherwise its handler
      joins the one that is held. */
  lemma {:induction false} StartsOnlyWhenIdle(c: Client, h: HandlerId, next: PromiseId, of: Option<PromiseId>)
    requires Inv(c) && Enabled(c, On401(h, next, of)) && c.refresh.Some?
    ensures
      var c' := Apply(c, On401(h, next, of));
      && (next in c'.promises <==> c.refreshing.None?)
      && c'.handlers[h] == Awaiting(c'.refreshing.value)
      && (next in c'.promises ==> forall p: PromiseId :: !Pending(c, p))
  {}

  // What the token store holds

  /** A refresh that was answered leaves the new access token and the refresh
      token its call had sent, which was the one stored when it began; a refused one
      leaves neither.  Without a stored refresh token a 401 starts nothing and
      clears the store. */
  lemma {:induction false} TokensAfter(c: Client, p: PromiseId, token: Option<string>, h: HandlerId, next: PromiseId)
    requires Inv(c)
    ensures Enabled(c, Reply(p, token)) ==>
              var c' := Apply(c, Reply(p, token));
              && c'.promises[p] == Settled(token) && c'.refreshing == c.refreshing && c'.handlers == c.handlers
              && c'.access == token
              && c'.refresh == if token.Some? then Some(c.promises[p].sent) else None
    ensures Enabled(c, On401(h, next, None)) ==>
              var c' := Apply(c, On401(h, next, None));
              && (c.refresh.None? ==>
                    c'.access == None && c'.refresh == None && c'.promises == c.promises && c'.handlers[h] == Through)
              && (c.refresh.Some? ==> c'.access == c.access && c'.refresh == c.refresh)
              && (c.refresh.Some? && c.refreshing.None? ==>
                    c'.promises == c.promises[next := Calling(c.refresh.value)])
    ensures
      var c' := Apply(c, LogOut);
      && c'.access == None && c'.refresh == None && c'.refreshing == c.refreshing && c'.promises == c.promises
      && (Enabled(c', On401(h, next, None)) ==> Apply(c', On401(h, next, None)).promises == c.promises)
  {}

  /** A handler that resumes behind a refused refresh clears the store; behind an
      answered one it leaves it.  Either way it frees `refreshing` if it still holds
      what the handler awaited. */
  lemma {:induction false} TokensAtResume(c: Client, h: HandlerId)
    requires Inv(c) && Enabled(c, Resume(h))
    ensures
      var c', current := Apply(c, Resume(h)), c.handlers[h].current;
      && c'.handlers == c.handlers[h := Through] && c'.promises == c.promises
      && c'.refreshing == (if c.refreshing == Some(current) then None else c.refreshing)
      && (c.promises[current].token.None? ==> c'.access == None && c'.refresh == None)
      && (c.promises[current].token.Some? ==> c'.access == c.access && c'.refresh == c.refresh)
  {}

  // ── A 401 on the refresh call itself ─────────────────────────────────────

  /** The refresh p waits for a handler that waits for p. */
  ghost predicate SelfWait(c: Client, p: PromiseId, h: HandlerId) {
    p in c.promises && c.promises[p] == Intercepted(h) && h in c.handlers && c.handlers[h] == Awaiting(p)
  }

  /** A 401 on the call of the refresh in flight produces exactly that, as long as a refresh token is stored. */
  lemma {:induction false} RefusedRefreshSelfWaits(c: Client, h: HandlerId, next: PromiseId, p: PromiseId)
    requires Inv(c) && Enabled(c, On401(h, next, Some(p)))
    ensures SelfWait(Apply(c, On401(h, next, Some(p))), p, h) <==> c.refresh.Some?
  {}

  lemma {:induction false} SelfWaitStep(c: Client, s: Step, p: PromiseId, h: HandlerId)
    requires Inv(c) && Enabled(c, s) && SelfWait(c, p, h)
    ensures SelfWait(Apply(c, s), p, h)
  {}

  /** From then on it stays pending for ever, held in `refreshing`, and no
      handler that awaits it ever resumes. */
  lemma {:induction false} SelfWaitForever(cs: seq<Client>, steps: seq<Step>, m: nat, n: nat,
                                           p: PromiseId, h: HandlerId)
    requires Trace(cs, steps) && Inv(cs[0]) && m <= n <= |steps| && SelfWait(cs[m], p, h)
    ensures SelfWait(cs[n], p, h) && cs[n].refreshing == Some(p)
    ensures n < |steps| && steps[n].Resume? ==> cs[n].handlers[steps[n].handler] != Awaiting(p)
  {
    AtMostOneRefresh(cs, steps, n);
    if m < n {
      SelfWaitForever(cs, steps, m, n - 1, p, h);
      AtMostOneRefresh(cs, steps, n - 1);
      SelfWaitStep(cs[n - 1], steps[n - 1], p, h);
    }
    assert Pending(cs[n], p);
    if n < |steps| { assert Enabled(cs[n], steps[n]); }
  }

  // ── The module variables ─────────────────────────────────────────────────

  class Api {
    var refreshing: Option<PromiseId>
    var promises: map<PromiseId, Promise>
    var handlers: map<HandlerId, Handler>
    var access: Option<string>
    var refresh: Option<string>

    ghost function State(): Client
      reads this
    {
      Client(refreshing, promises, handlers, access, refresh)
    }

    /** The handler up to its await. */
    method OnUnauthorized(h: HandlerId, next: PromiseId)
      requires Inv(State()) && Enabled(State(), On401(h, next, None))
      modifies this
      ensures State() == Take401(old(State()), h, next, None) && Inv(State())
    {
      StepKeepsInv(State(), On401(h, next, None));
      if refresh.None? {
        access := None;
        handlers := handlers[h := Through];
        return;
      }
      if refreshing.None? {
        promises := promises[next := Calling(refresh.value)];
        refreshing := Some(next);
      }
      handlers := handlers[h := Awaiting(refreshing.value)];
    }

    /** The handler behind its await. */
    method ContinueAfterRefresh(h: HandlerId) returns (token: Option<string>)
      requires Inv(State()) && Enabled(State(), Resume(h))
      modifies this
      ensures State() == Continue(old(State()), h) && Inv(State())
      ensures Some(token) == match old(promises[handlers[h].current]) case Settled(t) => Some(t) case _ => None
    {
      StepKeepsInv(State(), Resume(h));
      var current := handlers[h].current;
      token := promises[current].token;
      if refreshing == Some(current) { refreshing := None; }
      handlers := handlers[h := Through];
      if token.None? { access, refresh := None, None; }
    }
  }
}
