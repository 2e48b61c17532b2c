/** What every step of the token protocol keeps. */
module TokenInvariants {
  import opened Basics
  import opened TokenProtocol

  predicate InCritical(pc: Pc) {
    match pc
    case ReadToken(locked) => locked
    case ReadClock(locked, _) => locked
    case ReadExpiry(locked, _, _) => locked
    case ReadRefresh | SendRefresh | SendLogin | AwaitReply(_) | DropRefresh => true
    case WriteToken(_) | ReadGrantClock(_) | WriteExpiry(_, _) | WriteRefresh(_) => true
    case Unlock(_) | UnlockRaise(_) | InvToken | InvExpiry | InvUnlock => true
    case _ => false
  }

  /** Between the answer of a successful request and the last field it fills in. */
  predicate Applying(pc: Pc) { pc.WriteToken? || pc.ReadGrantClock? || pc.WriteExpiry? || pc.WriteRefresh? }

  function Holder(s: State): Pc { if s.lock.Some? then PcOf(s, s.lock.value) else Idle }

  ghost predicate Locked(s: State) {
    forall t :: InCritical(PcOf(s, t)) <==> s.lock == Some(t)
  }

  /** Request `r` was made by thread `t` and did not bring a token. */
  predicate FailedBy(s: State, r: nat, t: Tid) {
    r < |s.log| && (s.log[r].outcome.Refused? || s.log[r].outcome.Crashed?) && s.log[r].caller == t
  }

  /** What the log says of the request a thread is busy with. */
  predicate Agrees(s: State, t: Tid) {
    var n := |s.log| - 1;
    match PcOf(s, t)
    case AwaitReply(r) => n >= 0 && r == n && s.log[n].outcome.Pending? && s.log[n].caller == t
    case WriteToken(r) => n >= 0 && r == n && s.log[n].outcome.Granted?
    case ReadGrantClock(r) => n >= 0 && r == n && s.log[n].outcome.Granted?
    case WriteExpiry(r, _) => n >= 0 && r == n && s.log[n].outcome.Granted?
    case WriteRefresh(r) => n >= 0 && r == n && s.log[n].outcome.Granted?
    case DropRefresh => n >= 0 && s.log[n].outcome.Refused? && s.log[n].grant.Refresh?
    case UnlockRaise(r) => FailedBy(s, r, t)
    case Raised(RequestFailed(r)) => FailedBy(s, r, t)
    case _ => true
  }

  /** The log agrees with what the threads are doing; an open request is the lock holder's. */
  ghost predicate InFlight(s: State) {
    && (forall t :: Agrees(s, t))
    && (forall i | 0 <= i < |s.log| && s.log[i].outcome.Pending? :: Holder(s) == AwaitReply(i))
  }

  /** Cached tokens come from the successful request they are tagged with. */
  ghost predicate Provenance(s: State) {
    && |s.written| > 0 && s.written[|s.written| - 1] == s.token
    && forall k | 0 <= k < |s.written| && s.written[k].Some? ::
         var a := s.written[k].value;
         a.req < |s.log| && s.log[a.req].outcome.Granted? && s.log[a.req].outcome.bundle.access == a.value
  }

  function Seen(pc: Pc): Option<nat> {
    match pc
    case ReadClock(_, seen) => Some(seen)
    case ReadExpiry(_, seen, _) => Some(seen)
    case Unlock(seen) => Some(seen)
    case AssertToken(seen) => Some(seen)
    case ReadResult(seen) => Some(seen)
    case Returned(_, seen) => Some(seen)
    case _ => None
  }

  predicate SightedBy(s: State, t: Tid) {
    var seen := Seen(PcOf(s, t));
    seen.Some? ==> 0 < seen.value <= |s.written| && s.written[seen.value - 1].Some?
  }

  /** A thread past a check did see a token. */
  ghost predicate Sighted(s: State) {
    && (forall t :: SightedBy(s, t))
    && Applied(s)
  }

  /** The token field is the first one a new bundle fills in. */
  predicate Applied(s: State) {
    Holder(s).ReadGrantClock? || Holder(s).WriteExpiry? || Holder(s).WriteRefresh? ==>
      s.token.Some? && s.token.value.req == |s.log| - 1
  }

  /** What a thread got from its last call: a token some request really brought, and no old one. */
  predicate Earned(s: State, t: Tid) {
    match PcOf(s, t)
    case Returned(Some(a), _) =>
      && a.req < |s.log| && s.log[a.req].outcome.Granted? && s.log[a.req].outcome.bundle.access == a.value
      && (t in s.floors ==> s.floors[t] <= a.req)
    case _ => true
  }

  /** Nothing older than a thread's own last `invalidate` is cached or was handed to it since. */
  ghost predicate Fresh(s: State) {
    && (forall t :: Earned(s, t))
    && (forall t | t in s.floors :: s.floors[t] <= |s.log|)
    && (forall t | t in s.floors && s.token.Some? :: s.floors[t] <= s.token.value.req)
    && (forall t | t in s.floors && (Holder(s).AwaitReply? || Holder(s).WriteToken?) :: s.floors[t] <= Holder(s).req)
  }

  /** The requests whose effect on the refresh token is already stored. */
  function Absorbed(s: State): seq<Request> {
    if |s.log| > 0 && (Applying(Holder(s)) || Holder(s).DropRefresh?) then s.log[..|s.log| - 1] else s.log
  }

  /** The refresh-token field against the history, and the requests against both. */
  ghost predicate Rotates(cfg: Config, s: State) { Disciplined(cfg.client, s.log) && Stored(cfg, s) }

  predicate Stored(cfg: Config, s: State) {
    && s.refresh == Newest(cfg.client, Absorbed(s))
    && (Holder(s).SendRefresh? ==> s.refresh.Some?)
    && (Holder(s).SendLogin? ==> s.refresh == None)
    && (cfg.client.ClientCredentials? ==> !Holder(s).WriteRefresh?)
  }

  ghost predicate Inv(cfg: Config, s: State) {
    && Locked(s) && InFlight(s) && Provenance(s) && Sighted(s) && Fresh(s)
    && Rotates(cfg, s)
  }

  lemma InitInv(cfg: Config, now: int)
    ensures Inv(cfg, Cold(now))
  {
  }

  /** The thread an action belongs to. */
  function Actor(a: Action): Option<Tid> {
    match a
    case Tick(_) => None
    case CallHeader(t) => Some(t)
    case CallInvalidate(t) => Some(t)
    case Advance(t) => Some(t)
    case Reply(t, _) => Some(t)
  }

  /** A step moves no program counter but its own thread's. */
  lemma OthersStay(cfg: Config, s: State, a: Action, t: Tid)
    requires Enabled(s, a) && Actor(a) != Some(t)
    ensures PcOf(Step(cfg, s, a), t) == PcOf(s, t)
  {
  }

  /** The holder leaves the critical section exactly by unlocking. */
  lemma HolderStepLocked(cfg: Config, s: State, a: Action, t: Tid)
    requires Enabled(s, a) && Actor(a) == Some(t) && InCritical(PcOf(s, t)) && s.lock == Some(t)
    ensures var s' := Step(cfg, s, a); InCritical(PcOf(s', t)) <==> s'.lock == Some(t)
  {
  }

  /** Any other thread enters it exactly by locking. */
  lemma OutsiderStepLocked(cfg: Config, s: State, a: Action, t: Tid)
    requires Enabled(s, a) && Actor(a) == Some(t) && !InCritical(PcOf(s, t)) && s.lock != Some(t)
    ensures var s' := Step(cfg, s, a); InCritical(PcOf(s', t)) <==> s'.lock == Some(t)
  {
  }

  /** Nor does it take the lock for another thread, or from one. */
  lemma OthersStepLocked(cfg: Config, s: State, a: Action, t: Tid)
    requires Enabled(s, a) && Actor(a) != Some(t)
    requires Actor(a).Some? ==> (InCritical(PcOf(s, Actor(a).value)) <==> s.lock == Actor(a))
    ensures Step(cfg, s, a).lock == Some(t) <==> s.lock == Some(t)
  {
  }

  lemma StepLocked(cfg: Config, s: State, a: Action)
    requires Locked(s) && Enabled(s, a)
    ensures Locked(Step(cfg, s, a))
  {
    var s' := Step(cfg, s, a);
    forall t ensures InCritical(PcOf(s', t)) <==> s'.lock == Some(t) {
      assert InCritical(PcOf(s, t)) <==> s.lock == Some(t);
      if Actor(a) == Some(t) {
        if InCritical(PcOf(s, t)) { HolderStepLocked(cfg, s, a, t); } else { OutsiderStepLocked(cfg, s, a, t); }
      } else {
        if Actor(a).Some? { assert InCritical(PcOf(s, Actor(a).value)) <==> s.lock == Actor(a); }
        OthersStay(cfg, s, a, t);
        OthersStepLocked(cfg, s, a, t);
      }
    }
  }

  /** A thread in the critical region is the lock holder, so no other thread is there. */
  lemma ActorHolds(s: State, t: Tid)
    requires Locked(s) && InCritical(PcOf(s, t))
    ensures s.lock == Some(t) && Holder(s) == PcOf(s, t)
    ensures forall u | u != t :: !InCritical(PcOf(s, u))
  {
    assert InCritical(PcOf(s, t)) <==> s.lock == Some(t);
  }

  lemma OwnStepAgrees(cfg: Config, s: State, a: Action, t: Tid)
    requires Agrees(s, t) && Enabled(s, a) && Actor(a) == Some(t)
    ensures Agrees(Step(cfg, s, a), t)
  {
  }

  lemma OthersStepAgrees(cfg: Config, s: State, a: Action, t: Tid)
    requires Agrees(s, t) && Enabled(s, a) && Actor(a).Some? && Actor(a) != Some(t)
    requires var u := Actor(a).value; Agrees(s, u) && !(InCritical(PcOf(s, t)) && InCritical(PcOf(s, u)))
    ensures Agrees(Step(cfg, s, a), t)
  {
    assert PcOf(Step(cfg, s, a), t) == PcOf(s, t);
  }

  lemma StepAgrees(cfg: Config, s: State, a: Action, t: Tid)
    requires Locked(s) && InFlight(s) && Enabled(s, a)
    ensures Agrees(Step(cfg, s, a), t)
  {
    assert Agrees(s, t);
    if Actor(a) == Some(t) {
      OwnStepAgrees(cfg, s, a, t);
    } else if Actor(a).Some? {
      var u := Actor(a).value;
      assert Agrees(s, u);
      assert InCritical(PcOf(s, t)) <==> s.lock == Some(t);
      assert InCritical(PcOf(s, u)) <==> s.lock == Some(u);
      OthersStepAgrees(cfg, s, a, t);
    }
  }

  lemma StepInFlight(cfg: Config, s: State, a: Action)
    requires Locked(s) && InFlight(s) && Enabled(s, a)
    ensures InFlight(Step(cfg, s, a))
  {
    var s' := Step(cfg, s, a);
    forall t ensures Agrees(s', t) { StepAgrees(cfg, s, a, t); }
    StepLocked(cfg, s, a);
    if Actor(a).Some? {
      var u := Actor(a).value;
      assert Agrees(s, u);
      assert InCritical(PcOf(s, u)) <==> s.lock == Some(u);
      assert InCritical(PcOf(s', u)) <==> s'.lock == Some(u);
    }
  }

  lemma StepProvenance(cfg: Config, s: State, a: Action)
    requires Locked(s) && InFlight(s) && Provenance(s) && Enabled(s, a)
    ensures Provenance(Step(cfg, s, a))
  {
    if Actor(a).Some? { assert Agrees(s, Actor(a).value); }
  }

  lemma WrittenGrows(cfg: Config, s: State, a: Action)
    requires Enabled(s, a)
    ensures s.written <= Step(cfg, s, a).written
  {
  }

  /** What a thread's own step makes it remember is what it saw, or has just written. */
  lemma OwnStepSees(cfg: Config, s: State, a: Action, t: Tid)
    requires Enabled(s, a) && Actor(a) == Some(t) && !PcOf(s, t).WriteExpiry? && !PcOf(s, t).WriteRefresh?
    ensures var seen := Seen(PcOf(Step(cfg, s, a), t));
            seen == None || seen == Seen(PcOf(s, t)) || (seen == Some(|s.written|) && s.token.Some?)
  {
  }

  lemma OwnStepSighted(cfg: Config, s: State, a: Action, t: Tid)
    requires Provenance(s) && SightedBy(s, t) && Enabled(s, a) && Actor(a) == Some(t)
    requires PcOf(s, t).WriteExpiry? || PcOf(s, t).WriteRefresh? ==> s.token.Some?
    ensures SightedBy(Step(cfg, s, a), t)
  {
    WrittenGrows(cfg, s, a);
    if !PcOf(s, t).WriteExpiry? && !PcOf(s, t).WriteRefresh? { OwnStepSees(cfg, s, a, t); }
  }

  lemma StepSightedBy(cfg: Config, s: State, a: Action, t: Tid)
    requires Provenance(s) && SightedBy(s, t) && Enabled(s, a)
    requires Actor(a) == Some(t) && (PcOf(s, t).WriteExpiry? || PcOf(s, t).WriteRefresh?) ==> s.token.Some?
    ensures SightedBy(Step(cfg, s, a), t)
  {
    if Actor(a) == Some(t) {
      OwnStepSighted(cfg, s, a, t);
    } else {
      OthersStay(cfg, s, a, t);
      WrittenGrows(cfg, s, a);
    }
  }

  lemma StepSighted(cfg: Config, s: State, a: Action)
    requires Locked(s) && InFlight(s) && Provenance(s) && Sighted(s) && Enabled(s, a)
    ensures Sighted(Step(cfg, s, a))
  {
    var s' := Step(cfg, s, a);
    forall t ensures SightedBy(s', t) {
      assert SightedBy(s, t);
      if InCritical(PcOf(s, t)) { ActorHolds(s, t); }
      StepSightedBy(cfg, s, a, t);
    }
    StepApplied(cfg, s, a);
  }

  lemma StepApplied(cfg: Config, s: State, a: Action)
    requires Locked(s) && InFlight(s) && Enabled(s, a)
    requires Applied(s)
    ensures Applied(Step(cfg, s, a))
  {
    if Actor(a).Some? {
      var u := Actor(a).value;
      assert Agrees(s, u);
      if InCritical(PcOf(s, u)) { ActorHolds(s, u); }
      assert InCritical(PcOf(s, u)) <==> s.lock == Some(u);
    }
  }

  lemma OwnStepEarned(cfg: Config, s: State, a: Action, t: Tid)
    requires Provenance(s) && Earned(s, t) && Enabled(s, a) && Actor(a) == Some(t)
    requires t in s.floors && s.token.Some? ==> s.floors[t] <= s.token.value.req
    ensures Earned(Step(cfg, s, a), t)
  {
    if s.token.Some? { assert s.written[|s.written| - 1] == s.token; }
  }

  lemma StepEarned(cfg: Config, s: State, a: Action, t: Tid)
    requires Provenance(s) && Earned(s, t) && Enabled(s, a)
    requires t in s.floors && s.token.Some? ==> s.floors[t] <= s.token.value.req
    requires a.Reply? ==> Agrees(s, a.t)
    ensures Earned(Step(cfg, s, a), t)
  {
    if Actor(a) == Some(t) {
      OwnStepEarned(cfg, s, a, t);
    } else {
      OthersStay(cfg, s, a, t);
    }
  }

  lemma StepFloors(cfg: Config, s: State, a: Action)
    requires Locked(s) && Enabled(s, a) && Fresh(s)
    requires Actor(a).Some? ==> Agrees(s, Actor(a).value) && (InCritical(PcOf(s, Actor(a).value)) <==> s.lock == Actor(a))
    ensures var s' := Step(cfg, s, a);
            && (forall t | t in s'.floors :: s'.floors[t] <= |s'.log|)
            && (forall t | t in s'.floors && s'.token.Some? :: s'.floors[t] <= s'.token.value.req)
            && (forall t | t in s'.floors && (Holder(s').AwaitReply? || Holder(s').WriteToken?) :: s'.floors[t] <= Holder(s').req)
  {
  }

  lemma StepFresh(cfg: Config, s: State, a: Action)
    requires Locked(s) && InFlight(s) && Provenance(s) && Fresh(s) && Enabled(s, a)
    ensures Fresh(Step(cfg, s, a))
  {
    if Actor(a).Some? {
      var u := Actor(a).value;
      assert Agrees(s, u);
      assert InCritical(PcOf(s, u)) <==> s.lock == Some(u);
    }
    StepFloors(cfg, s, a);
    forall t ensures Earned(Step(cfg, s, a), t) {
      assert Earned(s, t);
      StepEarned(cfg, s, a, t);
    }
  }

  lemma NewestAppend(client: Client, log: seq<Request>, r: Request)
    requires Disciplined(client, log) && r.outcome.Pending?
    ensures Newest(client, log + [r]) == Newest(client, log)
    ensures Disciplined(client, log + [r]) <==> r.grant == GrantFor(Newest(client, log))
  {
    assert (log + [r])[..|log|] == log;
  }

  /** Answering the open request leaves everything before it alone. */
  lemma DisciplinedAnswer(client: Client, log: seq<Request>, outcome: Outcome)
    requires |log| > 0 && Disciplined(client, log) && log[|log| - 1].outcome.Pending?
    ensures var n := |log| - 1;
            var log' := log[n := log[n].(outcome := outcome)];
            Disciplined(client, log') && log'[..n] == log[..n] && Newest(client, log) == Newest(client, log[..n])
  {
    var n := |log| - 1;
    var log' := log[n := log[n].(outcome := outcome)];
    assert log'[..n] == log[..n];
  }

  lemma ReplyRotates(cfg: Config, s: State, t: Tid, answer: Answer)
    requires s.lock == Some(t) && Agrees(s, t) && Rotates(cfg, s) && Enabled(s, Reply(t, answer))
    ensures Rotates(cfg, Step(cfg, s, Reply(t, answer)))
  {
    DisciplinedAnswer(cfg.client, s.log, Parse(cfg.client, answer, s.now));
  }

  lemma SendAppends(cfg: Config, s: State, t: Tid)
    requires s.lock == Some(t) && Enabled(s, Advance(t))
    requires PcOf(s, t).SendRefresh? || (PcOf(s, t).SendLogin? && s.refresh == None)
    ensures var s' := Step(cfg, s, Advance(t));
            && s'.log == s.log + [Request(t, GrantFor(s.refresh), Pending)]
            && s'.refresh == s.refresh && Holder(s') == AwaitReply(|s.log|)
  {
  }

  lemma SendRotates(cfg: Config, s: State, t: Tid)
    requires s.lock == Some(t) && Rotates(cfg, s) && Enabled(s, Advance(t))
    requires PcOf(s, t).SendRefresh? || PcOf(s, t).SendLogin?
    ensures Rotates(cfg, Step(cfg, s, Advance(t)))
  {
    assert Absorbed(s) == s.log;
    SendAppends(cfg, s, t);
    NewestAppend(cfg.client, s.log, Request(t, GrantFor(s.refresh), Pending));
  }

  lemma QuietStored(cfg: Config, s: State, s': State)
    requires Stored(cfg, s) && s'.refresh == s.refresh && s'.log == s.log
    requires Absorbed(s') == Absorbed(s)
    requires Holder(s').SendRefresh? ==> s.refresh.Some?
    requires Holder(s').SendLogin? ==> s.refresh == None
    requires cfg.client.ClientCredentials? ==> !Holder(s').WriteRefresh?
    ensures Stored(cfg, s')
  {
  }

  /** Storing the rotated token, or dropping the refused one, absorbs the last request. */
  lemma AbsorbStored(cfg: Config, s: State, t: Tid)
    requires s.lock == Some(t) && Agrees(s, t) && Stored(cfg, s) && Enabled(s, Advance(t))
    requires PcOf(s, t).WriteRefresh? || PcOf(s, t).DropRefresh?
    ensures Stored(cfg, Run(cfg, s, t))
  {
    assert Absorbed(Run(cfg, s, t)) == s.log;
  }

  lemma CredentialsNewest(log: seq<Request>)
    ensures Newest(ClientCredentials, log) == None
  {
  }

  lemma HolderStored(cfg: Config, s: State, t: Tid)
    requires s.lock == Some(t) && Agrees(s, t) && Stored(cfg, s) && Enabled(s, Advance(t))
    requires InCritical(PcOf(s, t)) && !PcOf(s, t).SendRefresh? && !PcOf(s, t).SendLogin?
    ensures Stored(cfg, Run(cfg, s, t)) && Run(cfg, s, t).log == s.log
  {
    var s' := Run(cfg, s, t);
    if PcOf(s, t).WriteRefresh? || PcOf(s, t).DropRefresh? {
      AbsorbStored(cfg, s, t);
    } else {
      if cfg.client.ClientCredentials? {
        CredentialsNewest(s.log);
        CredentialsNewest(Absorbed(s));
        CredentialsNewest(Absorbed(s'));
      }
      if cfg.client.ClientCredentials? && PcOf(s, t).WriteExpiry? {
      } else {
        QuietStored(cfg, s, s');
      }
    }
  }

  /** A thread outside the critical section moves neither log nor refresh token; it may enter. */
  lemma OutsiderFrame(cfg: Config, s: State, a: Action)
    requires Enabled(s, a)
    requires Actor(a).Some? ==> !InCritical(PcOf(s, Actor(a).value)) && s.lock != Actor(a)
    ensures var s' := Step(cfg, s, a);
            && s'.log == s.log && s'.refresh == s.refresh
            && (Holder(s') == Holder(s) || (s.lock == None && (Holder(s').ReadToken? || Holder(s').InvToken?)))
  {
  }

  lemma OutsiderRotates(cfg: Config, s: State, a: Action)
    requires Rotates(cfg, s) && Enabled(s, a)
    requires Actor(a).Some? ==> !InCritical(PcOf(s, Actor(a).value)) && s.lock != Actor(a)
    ensures Rotates(cfg, Step(cfg, s, a))
  {
    OutsiderFrame(cfg, s, a);
    QuietStored(cfg, s, Step(cfg, s, a));
  }

  lemma StepRotates(cfg: Config, s: State, a: Action)
    requires Locked(s) && InFlight(s) && Rotates(cfg, s) && Enabled(s, a)
    ensures Rotates(cfg, Step(cfg, s, a))
  {
    if Actor(a).Some? && InCritical(PcOf(s, Actor(a).value)) {
      var t := Actor(a).value;
      ActorHolds(s, t);
      assert Agrees(s, t);
      match a
      case Reply(_, answer) => ReplyRotates(cfg, s, t, answer);
      case _ =>
        if PcOf(s, t).SendRefresh? || PcOf(s, t).SendLogin? {
          SendRotates(cfg, s, t);
        } else {
          HolderStored(cfg, s, t);
        }
    } else {
      if Actor(a).Some? { assert InCritical(PcOf(s, Actor(a).value)) <==> s.lock == Actor(a); }
      OutsiderRotates(cfg, s, a);
    }
  }

  lemma StepInv(cfg: Config, s: State, a: Action)
    requires Inv(cfg, s) && Enabled(s, a)
    ensures Inv(cfg, Step(cfg, s, a))
  {
    StepLocked(cfg, s, a);
    StepInFlight(cfg, s, a);
    StepProvenance(cfg, s, a);
    StepSighted(cfg, s, a);
    StepFresh(cfg, s, a);
    StepRotates(cfg, s, a);
  }

  /** Every state of every run satisfies the invariant. */
  lemma {:induction false} RunInv(cfg: Config, states: seq<State>, actions: seq<Action>, i: nat)
    requires IsRun(cfg, states, actions) && i < |states|
    ensures Inv(cfg, states[i])
  {
    if i == 0 {
      var now :| states[0] == Cold(now);
      InitInv(cfg, now);
    } else {
      RunInv(cfg, states, actions, i - 1);
      assert Follows(cfg, states, actions, i - 1);
      StepInv(cfg, states[i - 1], actions[i - 1]);
    }
  }
}
