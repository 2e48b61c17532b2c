/**
 * The shared token cache of the OAuth2 flows as a transition system.
 *
 * Any number of threads call `auth_header` and `invalidate` in any order; a step is one read or
 * write of a shared field, one clock read, one lock operation, or the beginning or end of one
 * request to the identity provider. Fields `log`, `written` and `floors` of a state are history:
 * no step branches on them.
 */
module TokenProtocol {
  import opened Basics

  type Tid = int

  /** The three classes that run the protocol. */
  datatype Client = ClientCredentials | Refreshable | JavaRefreshable

  datatype Config = Config(client: Client, margin: int)

  /** What comes back from the token endpoint (or from the whole interactive login). */
  datatype Answer =
    | Unreachable // connection error or a status other than 200: an AuthError
    | Garbled     // the body is not what the parser expects
    | Payload(access: Option<string>, expiresIn: Option<int>, refresh: Option<string>)

  datatype Bundle = Bundle(access: string, lifetime: int, refresh: Option<string>)

  /** `Refused` is an AuthError; `Crashed` is any other exception, which nobody catches. */
  datatype Outcome = Pending | Refused | Crashed | Granted(bundle: Bundle, at: int)

  datatype Grant = Login | Refresh(sent: string)

  datatype Request = Request(caller: Tid, grant: Grant, outcome: Outcome)

  /** A cached access token, tagged with the request it came from. */
  datatype Access = Access(value: string, req: nat)

  datatype Failure = AssertionFailed | RequestFailed(req: nat)

  /**
   * Program counters. `locked` tells the check before the lock from the one under it. `seen` is
   * the number of writes of the token field when this thread last saw (or made) it non-null.
   */
  datatype Pc =
    | Idle
    | ReadToken(locked: bool)
    | ReadClock(locked: bool, seen: nat)
    | ReadExpiry(locked: bool, seen: nat, clock: int)
    | AwaitLock
    | ReadRefresh
    | SendRefresh
    | SendLogin
    | AwaitReply(req: nat)
    | DropRefresh
    | WriteToken(req: nat)
    | ReadGrantClock(req: nat)
    | WriteExpiry(req: nat, clock: int)
    | WriteRefresh(req: nat)
    | Unlock(seen: nat)
    | UnlockRaise(req: nat)
    | AssertToken(seen: nat)
    | ReadResult(seen: nat)
    | Returned(result: Option<Access>, seen: nat)
    | Raised(failure: Failure)
    | InvAwaitLock
    | InvToken
    | InvExpiry
    | InvUnlock

  datatype State = State(
    lock: Option<Tid>,
    token: Option<Access>,
    expires: int,
    refresh: Option<string>,
    now: int,
    pcs: map<Tid, Pc>,
    log: seq<Request>,
    written: seq<Option<Access>>,
    floors: map<Tid, nat>)

  datatype Action =
    | Tick(elapsed: nat)
    | CallHeader(t: Tid)
    | CallInvalidate(t: Tid)
    | Advance(t: Tid)
    | Reply(t: Tid, answer: Answer)

  function PcOf(s: State, t: Tid): Pc { if t in s.pcs then s.pcs[t] else Idle }

  predicate AtRest(pc: Pc) { pc.Idle? || pc.Returned? || pc.Raised? }

  predicate Enabled(s: State, a: Action) {
    match a
    case Tick(_) => true
    case CallHeader(t) => AtRest(PcOf(s, t))
    case CallInvalidate(t) => AtRest(PcOf(s, t))
    case Reply(t, _) => PcOf(s, t).AwaitReply? && PcOf(s, t).req < |s.log|
    case Advance(t) =>
      var pc := PcOf(s, t);
      && !AtRest(pc) && !pc.AwaitReply?
      && (pc.AwaitLock? || pc.InvAwaitLock? ==> s.lock == None)
      && (pc.WriteToken? || pc.WriteExpiry? || pc.WriteRefresh? ==>
            pc.req < |s.log| && s.log[pc.req].outcome.Granted?)
      && (pc.SendRefresh? ==> s.refresh.Some?)
  }

  /** Reading a token response; an omitted `expires_in` means 300 seconds. */
  function Parse(client: Client, answer: Answer, now: int): Outcome {
    match answer
    case Unreachable => Refused
    case Garbled => if client.JavaRefreshable? then Refused else Crashed
    case Payload(access, expiresIn, refresh) =>
      if access == None || (!client.JavaRefreshable? && access.value == "") then Refused
      else Granted(Bundle(access.value, if expiresIn.Some? then expiresIn.value else 300, refresh), now)
  }

  /** The refresh token a bundle replaces the old one with, if any. */
  function Rotated(client: Client, bundle: Bundle): Option<string> {
    match client
    case ClientCredentials => None
    case Refreshable => if bundle.refresh == Some("") then None else bundle.refresh
    case JavaRefreshable => bundle.refresh
  }

  function Goto(s: State, t: Tid, pc: Pc): State { s.(pcs := s.pcs[t := pc]) }

  /** `_valid()` came out false: take the lock, or, holding it, get a token. */
  function Stale(client: Client, locked: bool): Pc {
    if !locked then AwaitLock
    else if client.ClientCredentials? then SendLogin
    else ReadRefresh
  }

  function Begin(s: State, t: Tid, grant: Grant): State {
    Goto(s, t, AwaitReply(|s.log|)).(log := s.log + [Request(t, grant, Pending)])
  }

  /** The answer of a request; only a refused refresh falls back to a login. */
  function Settle(cfg: Config, s: State, t: Tid, answer: Answer): State
    requires PcOf(s, t).AwaitReply? && PcOf(s, t).req < |s.log|
  {
    var r := PcOf(s, t).req;
    var outcome := Parse(cfg.client, answer, s.now);
    var settled := s.(log := s.log[r := s.log[r].(outcome := outcome)]);
    Goto(settled, t,
      if outcome.Granted? then WriteToken(r)
      else if outcome.Refused? && s.log[r].grant.Refresh? then DropRefresh
      else UnlockRaise(r))
  }

  /** One step of a thread that is inside `auth_header` or `invalidate`. */
  function Run(cfg: Config, s: State, t: Tid): State
    requires Enabled(s, Advance(t))
  {
    match PcOf(s, t)
    case ReadToken(locked) =>
      Goto(s, t, if s.token == None then Stale(cfg.client, locked) else ReadClock(locked, |s.written|))
    case ReadClock(locked, seen) => Goto(s, t, ReadExpiry(locked, seen, s.now))
    case ReadExpiry(locked, seen, clock) =>
      Goto(s, t,
        if clock < s.expires - cfg.margin then
          if locked then Unlock(seen) else AfterCheck(cfg.client, seen)
        else Stale(cfg.client, locked))
    case AwaitLock => Goto(s, t, ReadToken(true)).(lock := Some(t))
    case ReadRefresh => Goto(s, t, if s.refresh == None then SendLogin else SendRefresh)
    case SendRefresh => Begin(s, t, Refresh(s.refresh.value))
    case SendLogin => Begin(s, t, Login)
    case DropRefresh => Goto(s, t, SendLogin).(refresh := None)
    case WriteToken(r) =>
      var token := Some(Access(s.log[r].outcome.bundle.access, r));
      Goto(s, t, ReadGrantClock(r)).(token := token, written := s.written + [token])
    case ReadGrantClock(r) => Goto(s, t, WriteExpiry(r, s.now))
    case WriteExpiry(r, clock) =>
      Goto(s, t, if cfg.client.ClientCredentials? then Unlock(|s.written|) else WriteRefresh(r))
      .(expires := clock + s.log[r].outcome.bundle.lifetime)
    case WriteRefresh(r) =>
      var rotated := Rotated(cfg.client, s.log[r].outcome.bundle);
      Goto(s, t, Unlock(|s.written|)).(refresh := if rotated.Some? then rotated else s.refresh)
    case Unlock(seen) => Goto(s, t, AfterCheck(cfg.client, seen)).(lock := None)
    case UnlockRaise(r) => Goto(s, t, Raised(RequestFailed(r))).(lock := None)
    case AssertToken(seen) => Goto(s, t, if s.token == None then Raised(AssertionFailed) else ReadResult(seen))
    case ReadResult(seen) => Goto(s, t, Returned(s.token, seen))
    case InvAwaitLock => Goto(s, t, InvToken).(lock := Some(t))
    case InvToken =>
      Goto(s, t, InvExpiry).(token := None, written := s.written + [None], floors := s.floors[t := |s.log|])
    case InvExpiry => Goto(s, t, InvUnlock).(expires := 0)
    case InvUnlock => Goto(s, t, Idle).(lock := None)
    case _ => s
  }

  /** Python asserts the token before formatting it; Java formats whatever it reads. */
  function AfterCheck(client: Client, seen: nat): Pc {
    if client.JavaRefreshable? then ReadResult(seen) else AssertToken(seen)
  }

  function Step(cfg: Config, s: State, a: Action): State
    requires Enabled(s, a)
  {
    match a
    case Tick(elapsed) => s.(now := s.now + elapsed)
    case CallHeader(t) => Goto(s, t, ReadToken(false))
    case CallInvalidate(t) => Goto(s, t, InvAwaitLock)
    case Reply(t, answer) => Settle(cfg, s, t, answer)
    case Advance(t) => Run(cfg, s, t)
  }

  /** A cold cache that no thread has touched. */
  function Cold(now: int): State { State(None, None, 0, None, now, map[], [], [None], map[]) }

  /** `states` is what `actions` make of a cold cache. */
  ghost predicate IsRun(cfg: Config, states: seq<State>, actions: seq<Action>) {
    && |states| == |actions| + 1
    && (exists now :: states[0] == Cold(now))
    && forall i | 0 <= i < |actions| :: Follows(cfg, states, actions, i)
  }

  predicate Follows(cfg: Config, states: seq<State>, actions: seq<Action>, i: nat)
    requires |states| == |actions| + 1 && i < |actions|
  {
    Enabled(states[i], actions[i]) && states[i + 1] == Step(cfg, states[i], actions[i])
  }

  // ------------------------------------------------------------- what the history says

  /** The refresh token issued last, unless a refresh has been refused since. */
  function Newest(client: Client, log: seq<Request>): Option<string> {
    if log == [] then None else
      var before := Newest(client, log[..|log| - 1]);
      var last := log[|log| - 1];
      match last.outcome
      case Granted(bundle, _) => if Rotated(client, bundle).Some? then Rotated(client, bundle) else before
      case Refused => if last.grant.Refresh? then None else before
      case _ => before
  }

  function GrantFor(newest: Option<string>): Grant {
    if newest.Some? then Refresh(newest.value) else Login
  }

  /** Every request is the refresh of the newest refresh token, and a login when there is none. */
  predicate Disciplined(client: Client, log: seq<Request>) {
    if log == [] then true else
      var before := log[..|log| - 1];
      Disciplined(client, before) && log[|log| - 1].grant == GrantFor(Newest(client, before))
  }

  /** Interactive logins that brought a refresh token. */
  function RenewableLogins(client: Client, log: seq<Request>): nat {
    if log == [] then 0 else
      var last := log[|log| - 1];
      RenewableLogins(client, log[..|log| - 1])
      + if last.grant.Login? && last.outcome.Granted? && Rotated(client, last.outcome.bundle).Some? then 1 else 0
  }

  function Logins(log: seq<Request>): nat {
    if log == [] then 0 else
      var last := log[|log| - 1];
      Logins(log[..|log| - 1]) + if last.grant.Login? && last.outcome.Granted? then 1 else 0
  }

  function RefusedRefreshes(log: seq<Request>): nat {
    if log == [] then 0 else
      var last := log[|log| - 1];
      RefusedRefreshes(log[..|log| - 1]) + if last.grant.Refresh? && last.outcome.Refused? then 1 else 0
  }

  /** When the successful requests were answered. */
  function GrantTimes(log: seq<Request>): seq<int> {
    if log == [] then [] else
      var last := log[|log| - 1];
      GrantTimes(log[..|log| - 1]) + if last.outcome.Granted? then [last.outcome.at] else []
  }
}
