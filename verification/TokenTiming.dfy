/** How often the token endpoint is asked, and what callers get while nobody invalidates. */
module TokenTiming {
  import opened Basics
  import opened TokenProtocol
  import opened TokenInvariants
  import opened Spacing

  /** No token is granted for less than `life` seconds. */
  predicate Generous(cfg: Config, life: int, a: Action) {
    a.Reply? ==>
      var outcome := Parse(cfg.client, a.answer, 0);
      outcome.Granted? ==> outcome.bundle.lifetime >= life
  }

  /** Nor does anyone call `invalidate`. */
  predicate Quiet(cfg: Config, life: int, a: Action) { Generous(cfg, life, a) && !a.CallInvalidate? }

  predicate Invalidating(pc: Pc) { pc.InvAwaitLock? || pc.InvToken? || pc.InvExpiry? || pc.InvUnlock? }

  /** Once a thread has seen a token there is one to read. */
  predicate Served(s: State, t: Tid) {
    && !Invalidating(PcOf(s, t))
    && (Seen(PcOf(s, t)).Some? ==> s.token.Some?)
    && (PcOf(s, t).Returned? ==> PcOf(s, t).result.Some?)
    && (PcOf(s, t).Raised? ==> PcOf(s, t).failure.RequestFailed?)
    && (PcOf(s, t).ReadExpiry? ==> PcOf(s, t).clock <= s.now)
  }

  /** The holder has found no usable token and is about to ask, or asking, for one. */
  predicate Asking(pc: Pc) {
    pc.ReadRefresh? || pc.SendRefresh? || pc.SendLogin? || pc.AwaitReply? || pc.DropRefresh?
  }

  function Last(times: seq<int>): int { if times == [] then 0 else times[|times| - 1] }

  /** The cache is good until the margin of its last grant; requests keep that distance. */
  predicate Punctual(cfg: Config, life: int, s: State) { PunctualFor(cfg, life, s, GrantTimes(s.log)) }

  /** The same for a list of grant times. */
  predicate PunctualFor(cfg: Config, life: int, s: State, times: seq<int>) {
    var granted, pc := times != [], Holder(s);
    && Spaced(times, life - cfg.margin)
    && (granted ==> Last(times) <= s.now)
    && (Asking(pc) && granted ==> Last(times) + life - cfg.margin <= s.now)
    && (Applying(pc) ==> granted && |s.log| > 0 && var last := s.log[|s.log| - 1].outcome; last.Granted? && last.bundle.lifetime >= life)
    && (pc.WriteExpiry? ==> Last(times) <= pc.clock)
    && (granted && !pc.WriteToken? ==> s.token.Some?)
    && (granted && !pc.WriteToken? && !pc.ReadGrantClock? && !pc.WriteExpiry? ==> Last(times) + life <= s.expires)
  }

  ghost predicate QuietInv(cfg: Config, life: int, s: State) {
    && (forall t :: Served(s, t))
    && Punctual(cfg, life, s)
  }

  lemma OwnStepServed(cfg: Config, s: State, a: Action, t: Tid)
    requires Enabled(s, a) && Served(s, t) && !a.CallInvalidate? && Actor(a) == Some(t)
    requires PcOf(s, t).WriteExpiry? || PcOf(s, t).WriteRefresh? ==> s.token.Some?
    ensures Served(Step(cfg, s, a), t)
  {
  }

  lemma TokenKept(cfg: Config, s: State, a: Action)
    requires Enabled(s, a) && (Actor(a).Some? ==> !Invalidating(PcOf(s, Actor(a).value)))
    ensures var s' := Step(cfg, s, a); (s.token.Some? ==> s'.token.Some?) && s.now <= s'.now
  {
  }

  /** Only `invalidate` clears the token, so nobody else takes away what a thread has seen. */
  lemma OthersStepServed(cfg: Config, s: State, a: Action, t: Tid)
    requires Enabled(s, a) && Served(s, t) && Actor(a) != Some(t)
    requires Actor(a).Some? ==> !Invalidating(PcOf(s, Actor(a).value))
    ensures Served(Step(cfg, s, a), t)
  {
    OthersStay(cfg, s, a, t);
    TokenKept(cfg, s, a);
  }

  lemma StepServed(cfg: Config, s: State, a: Action)
    requires Inv(cfg, s) && (forall t :: Served(s, t)) && Enabled(s, a) && !a.CallInvalidate?
    ensures forall t :: Served(Step(cfg, s, a), t)
  {
    if Actor(a).Some? {
      var u := Actor(a).value;
      assert Served(s, u);
      if InCritical(PcOf(s, u)) { ActorHolds(s, u); }
    }
    forall t ensures Served(Step(cfg, s, a), t) {
      assert Served(s, t);
      if Actor(a) == Some(t) { OwnStepServed(cfg, s, a, t); } else { OthersStepServed(cfg, s, a, t); }
    }
  }

  lemma GrantTimesAppend(log: seq<Request>, r: Request)
    requires r.outcome.Pending?
    ensures GrantTimes(log + [r]) == GrantTimes(log)
  {
    assert (log + [r])[..|log|] == log;
  }

  lemma GrantTimesAnswer(log: seq<Request>, outcome: Outcome)
    requires |log| > 0 && log[|log| - 1].outcome.Pending?
    ensures var n := |log| - 1;
            GrantTimes(log[n := log[n].(outcome := outcome)])
            == GrantTimes(log) + if outcome.Granted? then [outcome.at] else []
  {
    var n := |log| - 1;
    assert log[n := log[n].(outcome := outcome)][..n] == log[..n];
  }

  lemma SpacedAppend(times: seq<int>, gap: int, at: int)
    requires Spaced(times, gap) && (times != [] ==> Last(times) + gap <= at)
    ensures Spaced(times + [at], gap)
  {
    assert (times + [at])[..|times|] == times;
  }

  lemma GrantPunctual(cfg: Config, life: int, s: State, t: Tid, answer: Answer, times: seq<int>)
    requires Enabled(s, Reply(t, answer)) && Quiet(cfg, life, Reply(t, answer))
    requires s.lock == Some(t) && Agrees(s, t) && PunctualFor(cfg, life, s, times)
    requires Parse(cfg.client, answer, s.now).Granted?
    ensures PunctualFor(cfg, life, Step(cfg, s, Reply(t, answer)), times + [s.now])
  {
    SpacedAppend(times, life - cfg.margin, s.now);
  }

  lemma RefusalPunctual(cfg: Config, life: int, s: State, t: Tid, answer: Answer, times: seq<int>)
    requires Enabled(s, Reply(t, answer))
    requires s.lock == Some(t) && Agrees(s, t) && PunctualFor(cfg, life, s, times)
    requires !Parse(cfg.client, answer, s.now).Granted?
    ensures PunctualFor(cfg, life, Step(cfg, s, Reply(t, answer)), times)
  {
  }

  lemma ReplyPunctual(cfg: Config, life: int, s: State, t: Tid, answer: Answer)
    requires Enabled(s, Reply(t, answer)) && Quiet(cfg, life, Reply(t, answer))
    requires s.lock == Some(t) && Agrees(s, t) && Punctual(cfg, life, s)
    ensures Punctual(cfg, life, Step(cfg, s, Reply(t, answer)))
  {
    var outcome := Parse(cfg.client, answer, s.now);
    GrantTimesAnswer(s.log, outcome);
    if outcome.Granted? {
      GrantPunctual(cfg, life, s, t, answer, GrantTimes(s.log));
    } else {
      RefusalPunctual(cfg, life, s, t, answer, GrantTimes(s.log));
    }
  }

  /** A step that only moves program counters keeps the promise. */
  lemma SameCache(cfg: Config, life: int, s: State, s': State)
    requires Punctual(cfg, life, s) && s'.log == s.log && s'.token == s.token && s'.expires == s.expires && s.now <= s'.now
    requires Holder(s') == Holder(s) || (Holder(s').ReadToken? && s.lock == None) || (Holder(s').Idle? && !Applying(Holder(s)))
    ensures Punctual(cfg, life, s')
  {
  }

  lemma SendPunctualFor(cfg: Config, life: int, s: State, t: Tid, times: seq<int>)
    requires Enabled(s, Advance(t)) && s.lock == Some(t) && PunctualFor(cfg, life, s, times)
    requires PcOf(s, t).SendRefresh? || PcOf(s, t).SendLogin?
    ensures PunctualFor(cfg, life, Run(cfg, s, t), times)
  {
  }

  lemma SendPunctual(cfg: Config, life: int, s: State, t: Tid)
    requires Enabled(s, Advance(t)) && s.lock == Some(t) && Punctual(cfg, life, s)
    requires PcOf(s, t).SendRefresh? || PcOf(s, t).SendLogin?
    ensures Punctual(cfg, life, Run(cfg, s, t))
  {
    GrantTimesAppend(s.log, Run(cfg, s, t).log[|s.log|]);
    SendPunctualFor(cfg, life, s, t, GrantTimes(s.log));
  }

  /** The steps that write the new token and its expiry. */
  lemma ApplyPunctual(cfg: Config, life: int, s: State, t: Tid, times: seq<int>)
    requires Enabled(s, Advance(t)) && s.lock == Some(t) && Agrees(s, t) && PunctualFor(cfg, life, s, times)
    requires Applying(PcOf(s, t))
    ensures PunctualFor(cfg, life, Run(cfg, s, t), times)
  {
  }

  /** The checks under the lock, and letting go of it. */
  lemma CheckPunctual(cfg: Config, life: int, s: State, t: Tid, times: seq<int>)
    requires Enabled(s, Advance(t)) && s.lock == Some(t) && Served(s, t) && PunctualFor(cfg, life, s, times)
    requires InCritical(PcOf(s, t)) && !Applying(PcOf(s, t))
    requires !PcOf(s, t).SendRefresh? && !PcOf(s, t).SendLogin?
    ensures PunctualFor(cfg, life, Run(cfg, s, t), times)
  {
  }

  lemma HolderPunctual(cfg: Config, life: int, s: State, t: Tid)
    requires Enabled(s, Advance(t)) && s.lock == Some(t) && Agrees(s, t) && Served(s, t)
    requires InCritical(PcOf(s, t)) && Punctual(cfg, life, s)
    requires !PcOf(s, t).SendRefresh? && !PcOf(s, t).SendLogin?
    ensures Punctual(cfg, life, Run(cfg, s, t))
  {
    if Applying(PcOf(s, t)) {
      ApplyPunctual(cfg, life, s, t, GrantTimes(s.log));
    } else {
      CheckPunctual(cfg, life, s, t, GrantTimes(s.log));
    }
    assert Run(cfg, s, t).log == s.log;
  }

  lemma StepPunctual(cfg: Config, life: int, s: State, a: Action, t: Tid)
    requires Enabled(s, a) && Quiet(cfg, life, a) && Actor(a) == Some(t)
    requires Agrees(s, t) && Served(s, t) && (InCritical(PcOf(s, t)) <==> s.lock == Some(t))
    requires Punctual(cfg, life, s)
    ensures Punctual(cfg, life, Step(cfg, s, a))
  {
    if !InCritical(PcOf(s, t)) {
      OutsiderPunctual(cfg, life, s, a);
    } else if a.Reply? {
      ReplyPunctual(cfg, life, s, t, a.answer);
    } else if PcOf(s, t).SendRefresh? || PcOf(s, t).SendLogin? {
      SendPunctual(cfg, life, s, t);
    } else {
      HolderPunctual(cfg, life, s, t);
    }
  }

  lemma OutsiderPunctual(cfg: Config, life: int, s: State, a: Action)
    requires Enabled(s, a) && Actor(a).Some? && s.lock != Actor(a) && Punctual(cfg, life, s)
    requires !InCritical(PcOf(s, Actor(a).value)) && !a.CallInvalidate?
    requires !Invalidating(PcOf(s, Actor(a).value))
    ensures Punctual(cfg, life, Step(cfg, s, a))
  {
    SameCache(cfg, life, s, Step(cfg, s, a));
  }

  lemma TickPunctual(cfg: Config, life: int, s: State, a: Action, times: seq<int>)
    requires a.Tick? && PunctualFor(cfg, life, s, times)
    ensures PunctualFor(cfg, life, Step(cfg, s, a), times)
  {
  }

  lemma NextPunctual(cfg: Config, life: int, s: State, a: Action)
    requires Inv(cfg, s) && QuietInv(cfg, life, s) && Enabled(s, a) && Quiet(cfg, life, a)
    ensures Punctual(cfg, life, Step(cfg, s, a))
  {
    if Actor(a).Some? {
      var t := Actor(a).value;
      assert Agrees(s, t) && Served(s, t);
      assert InCritical(PcOf(s, t)) <==> s.lock == Some(t);
      StepPunctual(cfg, life, s, a, t);
    } else {
      TickPunctual(cfg, life, s, a, GrantTimes(s.log));
    }
  }

  lemma ColdQuiet(cfg: Config, life: int, now: int)
    ensures QuietInv(cfg, life, Cold(now))
  {
  }

  lemma NextQuiet(cfg: Config, life: int, states: seq<State>, actions: seq<Action>, k: nat)
    requires IsRun(cfg, states, actions) && k < |actions|
    requires Quiet(cfg, life, actions[k]) && QuietInv(cfg, life, states[k])
    ensures QuietInv(cfg, life, states[k + 1])
  {
    RunInv(cfg, states, actions, k);
    assert Follows(cfg, states, actions, k);
    StepServed(cfg, states[k], actions[k]);
    NextPunctual(cfg, life, states[k], actions[k]);
  }

  lemma {:induction false} RunQuiet(cfg: Config, life: int, states: seq<State>, actions: seq<Action>, k: nat)
    requires IsRun(cfg, states, actions) && k < |states|
    requires forall i | 0 <= i < k :: Quiet(cfg, life, actions[i])
    ensures QuietInv(cfg, life, states[k])
  {
    if k == 0 {
      ColdQuiet(cfg, life, states[0].now);
    } else {
      RunQuiet(cfg, life, states, actions, k - 1);
      NextQuiet(cfg, life, states, actions, k - 1);
    }
  }

  /** A step records at most one grant, at the current time, after the earlier ones. */
  lemma StepGrants(cfg: Config, s: State, a: Action)
    requires Inv(cfg, s) && Enabled(s, a)
    ensures var s' := Step(cfg, s, a);
            GrantTimes(s'.log) == GrantTimes(s.log) || GrantTimes(s'.log) == GrantTimes(s.log) + [s.now]
  {
    if Actor(a).Some? { assert Agrees(s, Actor(a).value); }
    if a.Reply? {
      GrantTimesAnswer(s.log, Parse(cfg.client, a.answer, s.now));
    } else if a.Advance? && (PcOf(s, a.t).SendRefresh? || PcOf(s, a.t).SendLogin?) {
      GrantTimesAppend(s.log, Step(cfg, s, a).log[|s.log|]);
    }
  }

  lemma NextGrants(cfg: Config, states: seq<State>, actions: seq<Action>, i: nat)
    requires IsRun(cfg, states, actions) && i < |actions|
    ensures states[i].now <= states[i + 1].now
    ensures GrantTimes(states[i + 1].log) == GrantTimes(states[i].log)
         || GrantTimes(states[i + 1].log) == GrantTimes(states[i].log) + [states[i].now]
  {
    RunInv(cfg, states, actions, i);
    assert Follows(cfg, states, actions, i);
    StepGrants(cfg, states[i], actions[i]);
  }

  lemma {:induction false} GrantsAfterStart(cfg: Config, states: seq<State>, actions: seq<Action>, k: nat)
    requires IsRun(cfg, states, actions) && k < |states|
    ensures states[0].now <= states[k].now
    ensures GrantTimes(states[k].log) != [] ==> states[0].now <= GrantTimes(states[k].log)[0]
  {
    if k == 0 {
      var now :| states[0] == Cold(now);
    } else {
      GrantsAfterStart(cfg, states, actions, k - 1);
      NextGrants(cfg, states, actions, k - 1);
    }
  }

  /**
   * While nobody invalidates and every token lasts at least `life` seconds, successful token
   * requests are at least `life - margin` seconds apart, whatever the threads do.
   */
  lemma RequestBudget(cfg: Config, life: int, states: seq<State>, actions: seq<Action>, k: nat)
    requires IsRun(cfg, states, actions) && k < |states|
    requires forall i | 0 <= i < k :: Quiet(cfg, life, actions[i])
    ensures |GrantTimes(states[k].log)| > 0 ==>
              (|GrantTimes(states[k].log)| - 1) * (life - cfg.margin) <= states[k].now - states[0].now
  {
    RunQuiet(cfg, life, states, actions, k);
    var times := GrantTimes(states[k].log);
    if |times| > 0 {
      SpacedSpan(times, life - cfg.margin);
      GrantsAfterStart(cfg, states, actions, k);
    }
  }

  /** Two successful requests show up as two grant times. */
  lemma {:induction false} TwoGrants(log: seq<Request>, i: nat, j: nat)
    requires i <= j < |log| && log[i].outcome.Granted? && log[j].outcome.Granted?
    ensures |GrantTimes(log)| >= if i < j then 2 else 1
  {
    var n := |log| - 1;
    var before := log[..n];
    if j < n {
      TwoGrants(before, i, j);
    } else if i < j {
      TwoGrants(before, i, i);
    }
  }

  lemma FewerThanTwo(n: nat, gap: int, span: int)
    requires n > 0 ==> (n - 1) * gap <= span
    requires 0 <= span < gap
    ensures n <= 1
  {
    assert n > 1 ==> (n - 1) * gap >= gap;
  }

  lemma AtMostOneGrant(cfg: Config, life: int, states: seq<State>, actions: seq<Action>, k: nat)
    requires IsRun(cfg, states, actions) && k < |states|
    requires forall i | 0 <= i < k :: Quiet(cfg, life, actions[i])
    requires states[k].now - states[0].now < life - cfg.margin
    ensures forall i, j | 0 <= i < j < |states[k].log| ::
              !(states[k].log[i].outcome.Granted? && states[k].log[j].outcome.Granted?)
  {
    var log := states[k].log;
    RequestBudget(cfg, life, states, actions, k);
    GrantsAfterStart(cfg, states, actions, k);
    FewerThanTwo(|GrantTimes(log)|, life - cfg.margin, states[k].now - states[0].now);
    forall i, j | 0 <= i < j < |log| ensures !(log[i].outcome.Granted? && log[j].outcome.Granted?) {
      if log[i].outcome.Granted? && log[j].outcome.Granted? { TwoGrants(log, i, j); }
    }
  }

  /** What a finished caller may have got: a granted token, or the failure of its own request. */
  predicate Settled(s: State, t: Tid) {
    match PcOf(s, t)
    case Returned(result, _) =>
      result.Some? && result.value.req < |s.log|
      && var outcome := s.log[result.value.req].outcome;
         outcome.Granted? && outcome.bundle.access == result.value.value
    case Raised(failure) => failure.RequestFailed? && FailedBy(s, failure.req, t)
    case _ => true
  }

  /**
   * Single flight from a cold cache: while nobody invalidates and less time has passed than a
   * token stays usable, at most one request has succeeded; every caller that is done got that
   * request's token, or the failure of a request it made itself.
   */
  lemma OneTokenForAll(cfg: Config, life: int, states: seq<State>, actions: seq<Action>, k: nat)
    requires IsRun(cfg, states, actions) && k < |states|
    requires forall i | 0 <= i < k :: Quiet(cfg, life, actions[i])
    requires states[k].now - states[0].now < life - cfg.margin
    ensures forall i, j | 0 <= i < j < |states[k].log| ::
              !(states[k].log[i].outcome.Granted? && states[k].log[j].outcome.Granted?)
    ensures forall t :: Settled(states[k], t)
  {
    AtMostOneGrant(cfg, life, states, actions, k);
    QuietSettles(cfg, life, states, actions, k);
  }

  lemma QuietSettles(cfg: Config, life: int, states: seq<State>, actions: seq<Action>, k: nat)
    requires IsRun(cfg, states, actions) && k < |states|
    requires forall i | 0 <= i < k :: Quiet(cfg, life, actions[i])
    ensures forall t :: Settled(states[k], t)
  {
    var s := states[k];
    RunQuiet(cfg, life, states, actions, k);
    RunInv(cfg, states, actions, k);
    forall t ensures Settled(s, t) {
      assert Served(s, t) && Agrees(s, t) && Earned(s, t);
    }
  }

  /** Without `invalidate` no caller ever misses the token it checked. */
  lemma QuietRunsServe(cfg: Config, life: int, states: seq<State>, actions: seq<Action>, k: nat, t: Tid)
    requires IsRun(cfg, states, actions) && k < |states|
    requires forall i | 0 <= i < k :: Quiet(cfg, life, actions[i])
    ensures PcOf(states[k], t).AssertToken? || PcOf(states[k], t).ReadResult? ==> states[k].token.Some?
    ensures !(PcOf(states[k], t) == Raised(AssertionFailed))
  {
    RunQuiet(cfg, life, states, actions, k);
    assert Served(states[k], t);
  }

  // ------------------------------------------------------------- the interleaving that fails

  ghost predicate Reachable(cfg: Config, s: State) {
    exists states, actions :: IsRun(cfg, states, actions) && states[|actions|] == s
  }

  lemma ReachStep(cfg: Config, s: State, a: Action)
    requires Reachable(cfg, s) && Enabled(s, a)
    ensures Reachable(cfg, Step(cfg, s, a))
  {
    var states, actions :| IsRun(cfg, states, actions) && states[|actions|] == s;
    var states', actions' := states + [Step(cfg, s, a)], actions + [a];
    assert states'[0] == states[0];
    forall i | 0 <= i < |actions'| ensures Follows(cfg, states', actions', i) {
      if i < |actions| { assert Follows(cfg, states, actions, i); }
    }
    assert IsRun(cfg, states', actions') && states'[|actions'|] == Step(cfg, s, a);
  }

  const CREDENTIALS := Config(ClientCredentials, 60)

  /** Thread 0 fetches a token and lets go of the lock; thread 1 invalidates; thread 0 reads. */
  function LateSteps(): seq<Action> {
    [CallHeader(0), Advance(0), Advance(0), Advance(0), Advance(0),
     Reply(0, Payload(Some("tok"), Some(3600), None)), Advance(0), Advance(0), Advance(0), Advance(0),
     CallInvalidate(1), Advance(1), Advance(1), Advance(0)]
  }

  /** The state after the first `i` of those steps. */
  function Late(i: nat): State
    requires i <= 14
  {
    var token := Some(Access("tok", 0));
    var caller :=
      [Idle, ReadToken(false), AwaitLock, ReadToken(true), SendLogin, AwaitReply(0), WriteToken(0), ReadGrantClock(0),
       WriteExpiry(0, 0), Unlock(2), AssertToken(2), AssertToken(2), AssertToken(2), AssertToken(2),
       Raised(AssertionFailed)][i];
    var pcs := if i == 0 then map[] else map[0 := caller];
    State(
      if 3 <= i < 10 then Some(0) else if i < 12 then None else Some(1),
      if 6 < i < 13 then token else None,
      if i <= 8 then 0 else 3600,
      None, 0,
      if i <= 10 then pcs else pcs[1 := [InvAwaitLock, InvToken, InvExpiry, InvExpiry][i - 11]],
      if i < 5 then [] else [Request(0, Login, if i == 5 then Pending else Granted(Bundle("tok", 3600, None), 0))],
      if i <= 6 then [None] else if i < 13 then [None, token] else [None, token, None],
      if i < 13 then map[] else map[1 := 1])
  }

  predicate LateFollows(i: nat)
    requires i < 14
  {
    Enabled(Late(i), LateSteps()[i]) && Step(CREDENTIALS, Late(i), LateSteps()[i]) == Late(i + 1)
  }

  lemma AskSteps(i: nat)
    requires i < 5
    ensures LateFollows(i)
  {
    assert Late(i).pcs[0 := PcOf(Late(i + 1), 0)] == Late(i + 1).pcs;
  }

  lemma StoreSteps(i: nat)
    requires 5 <= i < 10
    ensures LateFollows(i)
  {
    assert Late(i).pcs[0 := PcOf(Late(i + 1), 0)] == Late(i + 1).pcs;
  }

  lemma LockSteps(i: nat)
    requires 10 <= i < 12
    ensures LateFollows(i)
  {
    assert Late(10).pcs[1 := InvAwaitLock] == Late(11).pcs;
    assert Late(11).pcs[1 := InvToken] == Late(12).pcs;
  }

  lemma ClearStep()
    ensures LateFollows(12)
  {
    assert Late(12).pcs[1 := InvExpiry] == Late(13).pcs;
  }

  lemma FailStep()
    ensures LateFollows(13)
  {
    assert Late(13).pcs[0 := Raised(AssertionFailed)] == Late(14).pcs;
  }

  lemma AllSteps(i: nat)
    requires i < 14
    ensures LateFollows(i)
  {
    if i < 5 { AskSteps(i); }
    else if i < 10 { StoreSteps(i); }
    else if i < 12 { LockSteps(i); }
    else if i == 12 { ClearStep(); }
    else { FailStep(); }
  }

  /**
   * Another thread invalidates between the caller's check and its last reads of the field: the
   * caller's assertion fails although its own request succeeded.
   */
  lemma {:induction false} LateInvalidateFailsCaller(i: nat)
    requires i <= 14
    ensures Reachable(CREDENTIALS, Late(i))
    ensures i == 14 ==> PcOf(Late(i), 0) == Raised(AssertionFailed) && Late(i).log[0].caller == 0
                        && Late(i).log[0].outcome.Granted?
  {
    if i == 0 {
      assert Late(0) == Cold(0);
      var states, actions: seq<Action> := [Cold(0)], [];
      assert IsRun(CREDENTIALS, states, actions) && states[|actions|] == Cold(0);
    } else {
      LateInvalidateFailsCaller(i - 1);
      AllSteps(i - 1);
      ReachStep(CREDENTIALS, Late(i - 1), LateSteps()[i - 1]);
    }
  }
}
