/** What the token protocol guarantees over whole runs, for any number of threads. */
module TokenTheorems {
  import opened Basics
  import opened TokenProtocol
  import opened TokenInvariants

  // ----------------------------------------------------------------- mutual exclusion

  /** Only the thread that holds the lock writes a token field. */
  lemma SingleWriter(cfg: Config, s: State, a: Action)
    requires Inv(cfg, s) && Enabled(s, a)
    ensures var s' := Step(cfg, s, a);
            s'.token != s.token || s'.expires != s.expires || s'.refresh != s.refresh ==>
              a.Advance? && s.lock == Some(a.t)
  {
    if Actor(a).Some? {
      assert InCritical(PcOf(s, Actor(a).value)) <==> s.lock == Actor(a);
    }
  }

  /** At most one request is open at any moment, and the lock holder is waiting for it. */
  lemma SingleFlight(cfg: Config, states: seq<State>, actions: seq<Action>, k: nat)
    requires IsRun(cfg, states, actions) && k < |states|
    ensures forall i, j | 0 <= i < j < |states[k].log| ::
              !(states[k].log[i].outcome.Pending? && states[k].log[j].outcome.Pending?)
    ensures forall i | 0 <= i < |states[k].log| && states[k].log[i].outcome.Pending? ::
              i == |states[k].log| - 1 && states[k].lock == Some(states[k].log[i].caller)
  {
    RunInv(cfg, states, actions, k);
    var s := states[k];
    forall i | 0 <= i < |s.log| && s.log[i].outcome.Pending?
      ensures i == |s.log| - 1 && s.lock == Some(s.log[i].caller)
    {
      assert Agrees(s, s.lock.value);
    }
  }

  /** Only a login that fails, or an exception nobody catches, fails a call: a refused refresh is followed by a login. */
  predicate FailsForGood(s: State, t: Tid) {
    match PcOf(s, t)
    case UnlockRaise(r) => Final(s, r)
    case Raised(RequestFailed(r)) => Final(s, r)
    case _ => true
  }

  predicate Final(s: State, r: nat) {
    r < |s.log| && ((s.log[r].grant.Login? && s.log[r].outcome.Refused?) || s.log[r].outcome.Crashed?)
  }

  lemma FinalStays(cfg: Config, s: State, a: Action, r: nat)
    requires Inv(cfg, s) && Enabled(s, a) && Final(s, r)
    ensures Final(Step(cfg, s, a), r)
  {
    if Actor(a).Some? { assert Agrees(s, Actor(a).value); }
  }

  lemma OwnStepFails(cfg: Config, s: State, a: Action, t: Tid)
    requires Inv(cfg, s) && Enabled(s, a) && Actor(a) == Some(t) && FailsForGood(s, t)
    ensures FailsForGood(Step(cfg, s, a), t)
  {
    assert Agrees(s, t);
  }

  lemma StepFails(cfg: Config, s: State, a: Action, t: Tid)
    requires Inv(cfg, s) && Enabled(s, a) && FailsForGood(s, t)
    ensures FailsForGood(Step(cfg, s, a), t)
  {
    if Actor(a) == Some(t) {
      OwnStepFails(cfg, s, a, t);
    } else {
      OthersStay(cfg, s, a, t);
      match PcOf(s, t) {
        case UnlockRaise(r) => FinalStays(cfg, s, a, r);
        case Raised(RequestFailed(r)) => FinalStays(cfg, s, a, r);
        case _ =>
      }
    }
  }

  lemma {:induction false} RefusedRefreshNeverFails(cfg: Config, states: seq<State>, actions: seq<Action>, k: nat, t: Tid)
    requires IsRun(cfg, states, actions) && k < |states|
    ensures FailsForGood(states[k], t)
  {
    if k > 0 {
      RefusedRefreshNeverFails(cfg, states, actions, k - 1, t);
      RunInv(cfg, states, actions, k - 1);
      assert Follows(cfg, states, actions, k - 1);
      StepFails(cfg, states[k - 1], actions[k - 1], t);
    }
  }

  /** Java has no assertion to fail: it formats what it reads. */
  lemma {:induction false} JavaNeverAsserts(cfg: Config, states: seq<State>, actions: seq<Action>, k: nat, t: Tid)
    requires IsRun(cfg, states, actions) && k < |states| && cfg.client == JavaRefreshable
    ensures !PcOf(states[k], t).AssertToken? && PcOf(states[k], t) != Raised(AssertionFailed)
  {
    if k > 0 {
      JavaNeverAsserts(cfg, states, actions, k - 1, t);
      assert Follows(cfg, states, actions, k - 1);
      if Actor(actions[k - 1]) != Some(t) { OthersStay(cfg, states[k - 1], actions[k - 1], t); }
    }
  }

  /** A thread inside a call is never stuck: it waits for the lock, for an answer, or can step. */
  lemma Progress(cfg: Config, s: State, t: Tid)
    requires Inv(cfg, s) && !AtRest(PcOf(s, t)) && !PcOf(s, t).AwaitReply?
    requires !((PcOf(s, t).AwaitLock? || PcOf(s, t).InvAwaitLock?) && s.lock.Some?)
    ensures Enabled(s, Advance(t))
  {
    assert Agrees(s, t);
    if InCritical(PcOf(s, t)) { ActorHolds(s, t); }
  }

  // ------------------------------------------------------------------- growing history

  /** History is only ever added to, and answered requests stay as they were answered. */
  ghost predicate Extends(s: State, s': State) {
    && |s.log| <= |s'.log| && s.written <= s'.written && s.now <= s'.now
    && (forall r | 0 <= r < |s.log| ::
          s'.log[r].caller == s.log[r].caller && s'.log[r].grant == s.log[r].grant
          && (!s.log[r].outcome.Pending? ==> s'.log[r] == s.log[r]))
    && (forall t | t in s.floors :: t in s'.floors && s.floors[t] <= s'.floors[t])
  }

  lemma StepExtends(cfg: Config, s: State, a: Action)
    requires Inv(cfg, s) && Enabled(s, a)
    ensures Extends(s, Step(cfg, s, a))
  {
    if Actor(a).Some? { assert Agrees(s, Actor(a).value); }
  }

  lemma ExtendsTransitive(s: State, s': State, s'': State)
    requires Extends(s, s') && Extends(s', s'')
    ensures Extends(s, s'')
  {
  }

  lemma NextExtends(cfg: Config, states: seq<State>, actions: seq<Action>, i: nat)
    requires IsRun(cfg, states, actions) && i < |actions|
    ensures Extends(states[i], states[i + 1])
  {
    RunInv(cfg, states, actions, i);
    assert Follows(cfg, states, actions, i);
    StepExtends(cfg, states[i], actions[i]);
  }

  lemma {:induction false} RunExtends(cfg: Config, states: seq<State>, actions: seq<Action>, i: nat, k: nat)
    requires IsRun(cfg, states, actions) && i <= k < |states|
    ensures Extends(states[i], states[k])
  {
    if i < k {
      RunExtends(cfg, states, actions, i, k - 1);
      NextExtends(cfg, states, actions, k - 1);
      ExtendsTransitive(states[i], states[k - 1], states[k]);
    }
  }

  // ---------------------------------------------------------------- freshness after 401

  /** The step by which an `invalidate` clears the token. */
  predicate Clearing(s: State, a: Action) { a.Advance? && PcOf(s, a.t).InvToken? }

  /** Step `j` of a run is that step, for thread `t`. */
  predicate Clears(states: seq<State>, actions: seq<Action>, j: int, t: Tid) {
    0 <= j < |actions| && j < |states| && actions[j] == Advance(t) && Clearing(states[j], actions[j])
  }

  /**
   * After a thread's `invalidate` has cleared the cache, every token cached, and every token that
   * thread is given, comes from a request begun after the clearing.
   */
  lemma FreshAfterInvalidate(cfg: Config, states: seq<State>, actions: seq<Action>, t: Tid, j: nat, k: nat)
    requires IsRun(cfg, states, actions) && Clears(states, actions, j, t) && j < k < |states|
    ensures states[k].token.Some? ==> states[k].token.value.req >= |states[j].log|
    ensures PcOf(states[k], t).Returned? && PcOf(states[k], t).result.Some? ==>
              PcOf(states[k], t).result.value.req >= |states[j].log|
  {
    RunExtends(cfg, states, actions, j + 1, k);
    ClearedState(cfg, states, actions, j, t);
    RunEarned(cfg, states, actions, t, k);
  }

  /** The identity provider never hands out the same access token for two requests. */
  ghost predicate NeverReissues(log: seq<Request>) {
    forall i, j | 0 <= i < j < |log| && log[i].outcome.Granted? && log[j].outcome.Granted? ::
      log[i].outcome.bundle.access != log[j].outcome.bundle.access
  }

  /** The 401 retry: the token sent after `invalidate` is not the one that was rejected. */
  lemma RetryNeverRepresents(cfg: Config, states: seq<State>, actions: seq<Action>, t: Tid, i: nat, j: nat, k: nat)
    requires IsRun(cfg, states, actions) && i <= j && Clears(states, actions, j, t) && j < k < |states|
    requires PcOf(states[i], t).Returned? && PcOf(states[i], t).result.Some?
    requires PcOf(states[k], t).Returned? && PcOf(states[k], t).result.Some?
    requires NeverReissues(states[k].log)
    ensures PcOf(states[k], t).result.value.value != PcOf(states[i], t).result.value.value
  {
    FreshAfterInvalidate(cfg, states, actions, t, j, k);
    RunEarned(cfg, states, actions, t, i);
    RunEarned(cfg, states, actions, t, k);
    RunExtends(cfg, states, actions, i, j);
    RunExtends(cfg, states, actions, i, k);
  }

  lemma RunEarned(cfg: Config, states: seq<State>, actions: seq<Action>, t: Tid, k: nat)
    requires IsRun(cfg, states, actions) && k < |states|
    ensures Earned(states[k], t)
    ensures t in states[k].floors && states[k].token.Some? ==> states[k].floors[t] <= states[k].token.value.req
  {
    RunInv(cfg, states, actions, k);
  }

  // -------------------------------------------------------------- when no token is read

  /** A step that writes the token field appends one value; only `invalidate` writes none. */
  lemma StepWrites(cfg: Config, s: State, a: Action)
    requires Inv(cfg, s) && Enabled(s, a)
    ensures var s' := Step(cfg, s, a);
            s'.written == s.written
            || (s'.written == s.written + [s'.token]
                && (s'.token == None ==> a.Advance? && PcOf(s, a.t).InvToken?))
  {
  }

  /** The step that made the `m`-th write of the token field. */
  lemma {:induction false} WriterOf(cfg: Config, states: seq<State>, actions: seq<Action>, k: nat, m: nat) returns (j: nat)
    requires IsRun(cfg, states, actions) && k < |states| && 0 < m < |states[k].written|
    ensures j < k && |states[j].written| == m
    ensures states[k].written[m] == None ==> exists u :: Clears(states, actions, j, u)
  {
    assert k > 0;
    NextExtends(cfg, states, actions, k - 1);
    if m < |states[k - 1].written| {
      j := WriterOf(cfg, states, actions, k - 1, m);
    } else {
      j := k - 1;
      RunInv(cfg, states, actions, j);
      assert Follows(cfg, states, actions, j);
      StepWrites(cfg, states[j], actions[j]);
      if states[k].written[m] == None {
        assert Clears(states, actions, j, actions[j].t);
      }
    }
  }

  lemma RunSighted(cfg: Config, states: seq<State>, actions: seq<Action>, t: Tid, k: nat)
    requires IsRun(cfg, states, actions) && k < |states|
    ensures SightedBy(states[k], t)
    ensures |states[k].written| > 0 && states[k].written[|states[k].written| - 1] == states[k].token
  {
    RunInv(cfg, states, actions, k);
  }

  lemma ClearedState(cfg: Config, states: seq<State>, actions: seq<Action>, j: nat, t: Tid)
    requires IsRun(cfg, states, actions) && Clears(states, actions, j, t)
    ensures states[j + 1].written == states[j].written + [None]
    ensures t in states[j + 1].floors && states[j + 1].floors[t] == |states[j].log|
  {
    assert Follows(cfg, states, actions, j);
  }

  /**
   * Exactly when a thread that passed its check reads no token: the last write of the field since
   * it last saw a token there was an `invalidate`. Python then raises AssertionError (or formats
   * None, when the clearing lands between its two reads); Java formats null.
   */
  lemma NoTokenIffInvalidated(cfg: Config, states: seq<State>, actions: seq<Action>, t: Tid, k: nat)
    requires IsRun(cfg, states, actions) && k < |states|
    requires PcOf(states[k], t).AssertToken? || PcOf(states[k], t).ReadResult?
    ensures states[k].token == None <==>
            exists j, u :: j < k && Clears(states, actions, j, u)
              && PcOf(states[k], t).seen <= |states[j].written| == |states[k].written| - 1
  {
    var s := states[k];
    var seen := PcOf(s, t).seen;
    RunSighted(cfg, states, actions, t, k);
    if s.token == None {
      var j := WriterOf(cfg, states, actions, k, |s.written| - 1);
      var u :| Clears(states, actions, j, u);
      assert j < k && Clears(states, actions, j, u) && seen <= |states[j].written| == |s.written| - 1;
    }
    forall j, u | j < k && Clears(states, actions, j, u) && seen <= |states[j].written| == |s.written| - 1
      ensures s.token == None
    {
      ClearedState(cfg, states, actions, j, u);
      RunExtends(cfg, states, actions, j + 1, k);
    }
  }

  // -------------------------------------------------------------- what an answer brings

  /** A payload is granted when it has an access token (Python wants it non-empty); 300 seconds is the default. */
  lemma PayloadIs(client: Client, answer: Answer, now: int)
    ensures var outcome := Parse(client, answer, now);
            && (outcome.Granted? <==> answer.Payload? && answer.access.Some? && (client.JavaRefreshable? || answer.access.value != ""))
            && (outcome.Crashed? <==> answer.Garbled? && !client.JavaRefreshable?)
            && !outcome.Pending?
            && (outcome.Granted? ==>
                  outcome.at == now && outcome.bundle.access == answer.access.value && outcome.bundle.refresh == answer.refresh
                  && outcome.bundle.lifetime == if answer.expiresIn.Some? then answer.expiresIn.value else 300)
  {
  }

  /** Step `j` of a run answers request `r` of its caller with what the request was granted. */
  predicate AnswersWith(actions: seq<Action>, j: int, r: Request) {
    0 <= j < |actions| && actions[j].Reply? && actions[j].t == r.caller && actions[j].answer.Payload? && r.outcome.Granted?
    && actions[j].answer.access == Some(r.outcome.bundle.access) && actions[j].answer.refresh == r.outcome.bundle.refresh
    && r.outcome.bundle.lifetime == if actions[j].answer.expiresIn.Some? then actions[j].answer.expiresIn.value else 300
  }

  lemma StepGrantsAnswer(cfg: Config, s: State, a: Action, r: nat)
    requires Inv(cfg, s) && Enabled(s, a) && r < |Step(cfg, s, a).log| && Step(cfg, s, a).log[r].outcome.Granted?
    ensures var s' := Step(cfg, s, a);
            (r < |s.log| && s'.log[r] == s.log[r])
            || (a.Reply? && s'.log[r].caller == a.t && s'.log[r].outcome == Parse(cfg.client, a.answer, s.now))
  {
    if Actor(a).Some? { assert Agrees(s, Actor(a).value); }
  }

  /** Every token granted, access or refresh, is one that an answer of the identity provider carried. */
  lemma {:induction false} GrantedByAnswer(cfg: Config, states: seq<State>, actions: seq<Action>, k: nat, r: nat) returns (j: nat)
    requires IsRun(cfg, states, actions) && k < |states| && r < |states[k].log| && states[k].log[r].outcome.Granted?
    ensures j < k && AnswersWith(actions, j, states[k].log[r])
  {
    assert k > 0;
    RunInv(cfg, states, actions, k - 1);
    assert Follows(cfg, states, actions, k - 1);
    StepGrantsAnswer(cfg, states[k - 1], actions[k - 1], r);
    if r < |states[k - 1].log| && states[k].log[r] == states[k - 1].log[r] {
      j := GrantedByAnswer(cfg, states, actions, k - 1, r);
    } else {
      j := k - 1;
      PayloadIs(cfg.client, actions[j].answer, states[j].now);
    }
  }

  // ---------------------------------------------------------- refresh-token discipline

  /** The refresh token request `r` brought, if it brought one. */
  function Brings(client: Client, r: Request): Option<string> {
    if r.outcome.Granted? then Rotated(client, r.outcome.bundle) else None
  }

  /** A new refresh token is taken from any granted answer that has one; Python ignores an empty one. */
  lemma BringsIs(client: Client, r: Request, token: string)
    ensures Brings(client, r) == Some(token) <==>
            !client.ClientCredentials? && r.outcome.Granted? && r.outcome.bundle.refresh == Some(token)
            && (client.JavaRefreshable? || token != "")
  {
  }

  /** Every refresh sends a token that an earlier answer carried as its refresh token. */
  lemma RefreshWasIssued(cfg: Config, states: seq<State>, actions: seq<Action>, k: nat, i: nat, token: string) returns (j: nat)
    requires IsRun(cfg, states, actions) && k < |states| && i < |states[k].log| && states[k].log[i].grant == Refresh(token)
    ensures j < k && actions[j].Reply? && actions[j].answer.Payload? && actions[j].answer.refresh == Some(token)
  {
    RefreshDiscipline(cfg, states, actions, k, i, token);
    var r :| 0 <= r < i && Brings(cfg.client, states[k].log[r]) == Some(token);
    BringsIs(cfg.client, states[k].log[r], token);
    j := GrantedByAnswer(cfg, states, actions, k, r);
  }

  /** Afterwards no earlier refresh token is current: a new one was issued, or it was refused. */
  predicate Supersedes(client: Client, r: Request) {
    Brings(client, r).Some? || (r.grant.Refresh? && r.outcome.Refused?)
  }

  ghost predicate NoneSupersedes(client: Client, log: seq<Request>, from: nat) {
    forall k | from <= k < |log| :: !Supersedes(client, log[k])
  }

  /** The newest refresh token is one some request brought and no later request superseded. */
  lemma {:induction false} NewestIs(client: Client, log: seq<Request>, token: string)
    ensures Newest(client, log) == Some(token) <==>
            exists j | 0 <= j < |log| :: Brings(client, log[j]) == Some(token) && NoneSupersedes(client, log, j + 1)
  {
    if log != [] {
      var n := |log| - 1;
      var before := log[..n];
      NewestIs(client, before, token);
      assert NoneSupersedes(client, log, n + 1);
      assert forall j | 0 <= j < n :: before[j] == log[j];
    }
  }

  lemma {:induction false} DisciplinedAt(client: Client, log: seq<Request>, i: nat)
    requires Disciplined(client, log) && i < |log|
    ensures log[i].grant == GrantFor(Newest(client, log[..i]))
  {
    if i < |log| - 1 {
      var before := log[..|log| - 1];
      DisciplinedAt(client, before, i);
      assert before[..i] == log[..i];
    }
  }

  /**
   * Every refresh sends a token that was issued before it and not superseded since, and every
   * interactive login happens when there is no such token.
   */
  lemma RefreshDiscipline(cfg: Config, states: seq<State>, actions: seq<Action>, k: nat, i: nat, token: string)
    requires IsRun(cfg, states, actions) && k < |states| && i < |states[k].log|
    ensures var log := states[k].log;
            log[i].grant == Refresh(token) <==>
            exists j | 0 <= j < i ::
              Brings(cfg.client, log[j]) == Some(token) && NoneSupersedes(cfg.client, log[..i], j + 1)
  {
    RunDisciplined(cfg, states, actions, k);
    var log := states[k].log;
    DisciplinedAt(cfg.client, log, i);
    NewestIs(cfg.client, log[..i], token);
    assert forall j | 0 <= j < i :: log[..i][j] == log[j];
  }

  lemma RunDisciplined(cfg: Config, states: seq<State>, actions: seq<Action>, k: nat)
    requires IsRun(cfg, states, actions) && k < |states|
    ensures Disciplined(cfg.client, states[k].log)
  {
    RunInv(cfg, states, actions, k);
  }

  lemma {:induction false} LoginAccounting(client: Client, log: seq<Request>)
    requires Disciplined(client, log)
    ensures RenewableLogins(client, log) == RefusedRefreshes(log) + if Newest(client, log).Some? then 1 else 0
  {
    if log != [] {
      LoginAccounting(client, log[..|log| - 1]);
    }
  }

  lemma {:induction false} AllRenewable(client: Client, log: seq<Request>)
    requires forall r | r in log && r.grant.Login? && r.outcome.Granted? :: Rotated(client, r.outcome.bundle).Some?
    ensures Logins(log) == RenewableLogins(client, log)
  {
    if log != [] {
      forall r | r in log[..|log| - 1] ensures r in log {}
      AllRenewable(client, log[..|log| - 1]);
      assert log[|log| - 1] in log;
    }
  }

  /**
   * The logins that brought a refresh token number one per refused refresh, plus one while a
   * refresh token is held; so if every login brings one, logins are at most one more than
   * refused refreshes, however often threads invalidate.
   */
  lemma LoginBudget(cfg: Config, states: seq<State>, actions: seq<Action>, k: nat)
    requires IsRun(cfg, states, actions) && k < |states|
    ensures var log := states[k].log;
            RenewableLogins(cfg.client, log) == RefusedRefreshes(log) + if Newest(cfg.client, log).Some? then 1 else 0
    ensures var log := states[k].log;
            (forall r | r in log && r.grant.Login? && r.outcome.Granted? :: Rotated(cfg.client, r.outcome.bundle).Some?)
            ==> Logins(log) <= 1 + RefusedRefreshes(log)
  {
    RunDisciplined(cfg, states, actions, k);
    var log := states[k].log;
    LoginAccounting(cfg.client, log);
    if forall r | r in log && r.grant.Login? && r.outcome.Granted? :: Rotated(cfg.client, r.outcome.bundle).Some? {
      AllRenewable(cfg.client, log);
    }
  }
}
