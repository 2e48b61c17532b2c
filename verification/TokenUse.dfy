/**
 * What a caller of `auth_header` is given: a token found good for more than the margin during the
 * call, or one that was granted during it.
 */
module TokenUse {
  import opened Basics
  import opened TokenProtocol
  import opened TokenInvariants
  import opened TokenTheorems
  import opened TokenTiming

  /** Request `r` is answered with a token by state `k`, and was not yet at state `i`. */
  predicate GrantedBetween(states: seq<State>, i: nat, k: nat, r: int)
    requires i < |states| && k < |states|
  {
    0 <= r < |states[k].log| && states[k].log[r].outcome.Granted?
    && (r >= |states[i].log| || states[i].log[r].outcome.Pending?)
  }

  /** After state `i`, at some moment `m`, more than the margin is left to the expiry stored at `n`. */
  predicate InUse(cfg: Config, states: seq<State>, i: nat, m: int, n: int) {
    i < m <= n < |states| && states[m].now + cfg.margin < states[n].expires
  }

  /** A call of thread `t` begins with step `i` and has not been followed by another one before `k`. */
  predicate InCall(actions: seq<Action>, i: nat, k: nat, t: Tid) {
    i < k <= |actions| && actions[i] == CallHeader(t)
    && forall j | i < j < k :: actions[j] != CallHeader(t) && actions[j] != CallInvalidate(t)
  }

  /** Any token cached is from request `b` or a later one. */
  predicate AtLeast(s: State, b: int) { s.token.Some? ==> b <= s.token.value.req }

  /** The thread has had a request of its own granted since state `i`; what is cached is no older. */
  ghost predicate Asked(states: seq<State>, i: nat, k: nat, t: Tid)
    requires i < |states| && k < |states|
  {
    exists q :: OwnGrant(states, i, k, t, q) && AtLeast(states[k], q)
  }

  predicate OwnGrant(states: seq<State>, i: nat, k: nat, t: Tid, q: int)
    requires i < |states| && k < |states|
  {
    |states[i].log| <= q < |states[k].log| && states[k].log[q].caller == t && states[k].log[q].outcome.Granted?
  }

  ghost predicate Checked(cfg: Config, states: seq<State>, i: nat, k: nat) {
    exists m, n :: InUse(cfg, states, i, m, n) && n <= k
  }

  /** What is known of the token read at state `x`, or about to be read at state `k`. */
  ghost predicate ReadAt(cfg: Config, states: seq<State>, i: nat, k: nat, token: Access) {
    exists m, n, x :: InUse(cfg, states, i, m, n) && n <= x <= k && k < |states| && states[x].token == Some(token)
  }

  ghost predicate ReadsClock(states: seq<State>, i: nat, k: nat, clock: int) {
    exists m | i < m <= k && m < |states| :: states[m].now == clock
  }

  /** Where the thread is in the call that began with step `i`. */
  ghost predicate Progressed(cfg: Config, states: seq<State>, i: nat, k: nat, t: Tid)
    requires i < k < |states|
  {
    match PcOf(states[k], t)
    case ReadExpiry(_, _, clock) => ReadsClock(states, i, k, clock)
    case AwaitReply(r) => |states[i].log| <= r
    case WriteToken(r) => OwnGrant(states, i, k, t, r)
    case ReadGrantClock(r) => OwnGrant(states, i, k, t, r) && AtLeast(states[k], r)
    case WriteExpiry(r, _) => OwnGrant(states, i, k, t, r) && AtLeast(states[k], r)
    case WriteRefresh(r) => OwnGrant(states, i, k, t, r) && AtLeast(states[k], r)
    case Unlock(_) => Checked(cfg, states, i, k) || Asked(states, i, k, t)
    case AssertToken(_) => Checked(cfg, states, i, k) || Asked(states, i, k, t)
    case ReadResult(_) => Checked(cfg, states, i, k) || Asked(states, i, k, t)
    case Returned(Some(token), _) => ReadAt(cfg, states, i, k, token) || OwnOrLater(states, i, k, t, token)
    case Returned(None, _) => true
    case Idle => false
    case InvAwaitLock => false
    case InvToken => false
    case InvExpiry => false
    case InvUnlock => false
    case _ => true
  }

  /** The token is from a request that the thread had granted since state `i`, or from a later one. */
  ghost predicate OwnOrLater(states: seq<State>, i: nat, k: nat, t: Tid, token: Access)
    requires i < |states| && k < |states|
  {
    exists q :: OwnGrant(states, i, k, t, q) && q <= token.req
  }

  // ------------------------------------------------------------------------- growing facts

  lemma AtLeastStays(cfg: Config, s: State, a: Action, b: int)
    requires Inv(cfg, s) && Enabled(s, a) && AtLeast(s, b) && b < |s.log|
    ensures AtLeast(Step(cfg, s, a), b)
  {
    if Actor(a).Some? { assert Agrees(s, Actor(a).value); }
  }

  lemma OwnGrantStays(cfg: Config, states: seq<State>, actions: seq<Action>, i: nat, k: nat, t: Tid, q: int)
    requires IsRun(cfg, states, actions) && i < |states| && k < |actions| && OwnGrant(states, i, k, t, q)
    ensures OwnGrant(states, i, k + 1, t, q)
    ensures AtLeast(states[k], q) ==> AtLeast(states[k + 1], q)
  {
    NextExtends(cfg, states, actions, k);
    RunInv(cfg, states, actions, k);
    assert Follows(cfg, states, actions, k);
    if AtLeast(states[k], q) { AtLeastStays(cfg, states[k], actions[k], q); }
  }

  lemma AskedStays(cfg: Config, states: seq<State>, actions: seq<Action>, i: nat, k: nat, t: Tid)
    requires IsRun(cfg, states, actions) && i < |states| && k < |actions| && Asked(states, i, k, t)
    ensures Asked(states, i, k + 1, t)
  {
    var q :| OwnGrant(states, i, k, t, q) && AtLeast(states[k], q);
    OwnGrantStays(cfg, states, actions, i, k, t, q);
  }

  lemma CheckedStays(cfg: Config, states: seq<State>, i: nat, k: nat)
    requires Checked(cfg, states, i, k)
    ensures Checked(cfg, states, i, k + 1)
  {
    var m, n :| InUse(cfg, states, i, m, n) && n <= k;
  }

  // ------------------------------------------------------------------------ inside the call

  lemma OthersProgress(cfg: Config, states: seq<State>, actions: seq<Action>, i: nat, k: nat, t: Tid)
    requires IsRun(cfg, states, actions) && i < k < |actions| && Progressed(cfg, states, i, k, t)
    requires Actor(actions[k]) != Some(t)
    ensures Progressed(cfg, states, i, k + 1, t)
  {
    assert Follows(cfg, states, actions, k);
    OthersStay(cfg, states[k], actions[k], t);
    match PcOf(states[k], t)
    case ReadExpiry(_, _, clock) =>
      var m :| i < m <= k && m < |states| && states[m].now == clock;
    case WriteToken(r) => OwnGrantStays(cfg, states, actions, i, k, t, r);
    case ReadGrantClock(r) => OwnGrantStays(cfg, states, actions, i, k, t, r);
    case WriteExpiry(r, _) => OwnGrantStays(cfg, states, actions, i, k, t, r);
    case WriteRefresh(r) => OwnGrantStays(cfg, states, actions, i, k, t, r);
    case Unlock(_) => EitherStays(cfg, states, actions, i, k, t);
    case AssertToken(_) => EitherStays(cfg, states, actions, i, k, t);
    case ReadResult(_) => EitherStays(cfg, states, actions, i, k, t);
    case Returned(Some(token), _) => ReturnStays(cfg, states, actions, i, k, t, token);
    case _ =>
  }

  lemma EitherStays(cfg: Config, states: seq<State>, actions: seq<Action>, i: nat, k: nat, t: Tid)
    requires IsRun(cfg, states, actions) && i < |states| && k < |actions|
    requires Checked(cfg, states, i, k) || Asked(states, i, k, t)
    ensures Checked(cfg, states, i, k + 1) || Asked(states, i, k + 1, t)
  {
    if Checked(cfg, states, i, k) {
      CheckedStays(cfg, states, i, k);
    } else {
      AskedStays(cfg, states, actions, i, k, t);
    }
  }

  lemma ReturnStays(cfg: Config, states: seq<State>, actions: seq<Action>, i: nat, k: nat, t: Tid, token: Access)
    requires IsRun(cfg, states, actions) && i < |states| && k < |actions|
    requires ReadAt(cfg, states, i, k, token) || OwnOrLater(states, i, k, t, token)
    ensures ReadAt(cfg, states, i, k + 1, token) || OwnOrLater(states, i, k + 1, t, token)
  {
    if ReadAt(cfg, states, i, k, token) {
      var m, n, x :| InUse(cfg, states, i, m, n) && n <= x <= k && states[x].token == Some(token);
    } else {
      var q :| OwnGrant(states, i, k, t, q) && q <= token.req;
      OwnGrantStays(cfg, states, actions, i, k, t, q);
    }
  }

  /** The check: it passes only when more than the margin is left. */
  lemma CheckProgress(cfg: Config, states: seq<State>, actions: seq<Action>, i: nat, k: nat, t: Tid)
    requires IsRun(cfg, states, actions) && i < k < |actions| && Progressed(cfg, states, i, k, t)
    requires actions[k] == Advance(t) && (PcOf(states[k], t).ReadClock? || PcOf(states[k], t).ReadExpiry?)
    ensures Progressed(cfg, states, i, k + 1, t)
  {
    assert Follows(cfg, states, actions, k);
    if PcOf(states[k], t).ReadExpiry? {
      var clock := PcOf(states[k], t).clock;
      var m :| i < m <= k && m < |states| && states[m].now == clock;
      if clock + cfg.margin < states[k].expires {
        assert InUse(cfg, states, i, m, k);
      }
    } else {
      assert states[k + 1].now == states[k].now;
      assert ReadsClock(states, i, k + 1, states[k].now);
    }
  }

  lemma AskProgress(cfg: Config, states: seq<State>, actions: seq<Action>, i: nat, k: nat, t: Tid)
    requires IsRun(cfg, states, actions) && i < k < |actions| && Progressed(cfg, states, i, k, t)
    requires Actor(actions[k]) == Some(t) && Follows(cfg, states, actions, k) && Agrees(states[k], t)
    requires var pc := PcOf(states[k], t); pc.SendRefresh? || pc.SendLogin? || pc.AwaitReply?
    requires |states[i].log| <= |states[k].log| && !actions[k].CallHeader? && !actions[k].CallInvalidate?
    ensures Progressed(cfg, states, i, k + 1, t)
  {
  }

  lemma StoreProgress(cfg: Config, states: seq<State>, actions: seq<Action>, i: nat, k: nat, t: Tid, r: nat)
    requires IsRun(cfg, states, actions) && i < k < |actions| && Progressed(cfg, states, i, k, t)
    requires actions[k] == Advance(t) && Follows(cfg, states, actions, k)
    requires var pc := PcOf(states[k], t); Applying(pc) && pc.req == r
    requires OwnGrant(states, i, k + 1, t, r) && (AtLeast(states[k], r) ==> AtLeast(states[k + 1], r))
    ensures Progressed(cfg, states, i, k + 1, t)
  {
  }

  /** A request of the thread's own, from its start to its token in the cache. */
  lemma RequestProgress(cfg: Config, states: seq<State>, actions: seq<Action>, i: nat, k: nat, t: Tid)
    requires IsRun(cfg, states, actions) && i < k < |actions| && Progressed(cfg, states, i, k, t)
    requires Actor(actions[k]) == Some(t) && !AtRest(PcOf(states[k], t))
    requires var pc := PcOf(states[k], t); pc.SendRefresh? || pc.SendLogin? || pc.AwaitReply? || Applying(pc)
    ensures Progressed(cfg, states, i, k + 1, t)
  {
    assert Follows(cfg, states, actions, k);
    RunInv(cfg, states, actions, k);
    RunExtends(cfg, states, actions, i, k);
    assert Agrees(states[k], t);
    if Applying(PcOf(states[k], t)) {
      var r := PcOf(states[k], t).req;
      OwnGrantStays(cfg, states, actions, i, k, t, r);
      StoreProgress(cfg, states, actions, i, k, t, r);
    } else {
      AskProgress(cfg, states, actions, i, k, t);
    }
  }

  /** Letting go of the lock, and reading the token that is there. */
  lemma ResultProgress(cfg: Config, states: seq<State>, actions: seq<Action>, i: nat, k: nat, t: Tid)
    requires IsRun(cfg, states, actions) && i < k < |actions| && Progressed(cfg, states, i, k, t)
    requires actions[k] == Advance(t)
    requires var pc := PcOf(states[k], t); pc.Unlock? || pc.AssertToken? || pc.ReadResult?
    ensures Progressed(cfg, states, i, k + 1, t)
  {
    assert Follows(cfg, states, actions, k);
    EitherStays(cfg, states, actions, i, k, t);
    if PcOf(states[k], t).ReadResult? && states[k].token.Some? {
      var token := states[k].token.value;
      if Checked(cfg, states, i, k) {
        var m, n :| InUse(cfg, states, i, m, n) && n <= k;
        assert ReadAt(cfg, states, i, k + 1, token);
      } else {
        var q :| OwnGrant(states, i, k, t, q) && AtLeast(states[k], q);
        OwnGrantStays(cfg, states, actions, i, k, t, q);
      }
    }
  }

  lemma NextProgress(cfg: Config, states: seq<State>, actions: seq<Action>, i: nat, k: nat, t: Tid)
    requires IsRun(cfg, states, actions) && i < k < |actions| && Progressed(cfg, states, i, k, t)
    requires actions[k] != CallHeader(t) && actions[k] != CallInvalidate(t)
    ensures Progressed(cfg, states, i, k + 1, t)
  {
    assert Follows(cfg, states, actions, k);
    var pc := PcOf(states[k], t);
    if Actor(actions[k]) != Some(t) {
      OthersProgress(cfg, states, actions, i, k, t);
    } else if pc.ReadClock? || pc.ReadExpiry? {
      CheckProgress(cfg, states, actions, i, k, t);
    } else if pc.SendRefresh? || pc.SendLogin? || pc.AwaitReply? || Applying(pc) {
      RequestProgress(cfg, states, actions, i, k, t);
    } else if pc.Unlock? || pc.AssertToken? || pc.ReadResult? {
      ResultProgress(cfg, states, actions, i, k, t);
    }
  }

  lemma {:induction false} CallProgress(cfg: Config, states: seq<State>, actions: seq<Action>, i: nat, k: nat, t: Tid)
    requires IsRun(cfg, states, actions) && k < |states| && InCall(actions, i, k, t)
    ensures Progressed(cfg, states, i, k, t)
  {
    if k == i + 1 {
      assert Follows(cfg, states, actions, i);
    } else {
      CallProgress(cfg, states, actions, i, k - 1, t);
      NextProgress(cfg, states, actions, i, k - 1, t);
    }
  }

  /**
   * A call that returns without a request of its own has seen a token with more than the margin left:
   * at a moment of the call the clock plus the margin was before the expiry stored then.
   */
  lemma ReturnedIsUsable(cfg: Config, states: seq<State>, actions: seq<Action>, i: nat, k: nat, t: Tid)
    requires IsRun(cfg, states, actions) && k < |states| && InCall(actions, i, k, t)
    requires PcOf(states[k], t).Returned? && PcOf(states[k], t).result.Some?
    requires forall q | |states[i].log| <= q < |states[k].log| :: states[k].log[q].caller != t
    ensures exists m, n | i < m <= n <= k :: states[m].now + cfg.margin < states[n].expires
  {
    CallProgress(cfg, states, actions, i, k, t);
    var token := PcOf(states[k], t).result.value;
    assert !OwnOrLater(states, i, k, t, token);
    var m, n, x :| InUse(cfg, states, i, m, n) && n <= x <= k && states[x].token == Some(token);
  }

  // -------------------------------------------------------------- whose expiry is it

  predicate BeforeExpiry(pc: Pc) { pc.WriteToken? || pc.ReadGrantClock? || pc.WriteExpiry? }

  /**
   * Whoever is fetching a token, or has just got one, found none that is good for more than the
   * margin; and an empty cache has no expiry that could pass for one.
   */
  predicate Overdue(cfg: Config, s: State) {
    var pc := Holder(s);
    && 0 <= s.now + cfg.margin
    && (Asking(pc) || BeforeExpiry(pc) ==> s.expires <= s.now + cfg.margin)
    && (s.token == None && !pc.InvExpiry? ==> s.expires <= s.now + cfg.margin)
    && (pc.ReadExpiry? ==> pc.clock <= s.now)
  }

  lemma OutsiderOverdue(cfg: Config, s: State, a: Action)
    requires Enabled(s, a) && Overdue(cfg, s)
    requires Actor(a).Some? ==> !InCritical(PcOf(s, Actor(a).value)) && s.lock != Actor(a)
    ensures Overdue(cfg, Step(cfg, s, a))
  {
    OutsiderFrame(cfg, s, a);
    if Actor(a).Some? { OutsiderKeepsCache(cfg, s, a); }
  }

  lemma OutsiderKeepsCache(cfg: Config, s: State, a: Action)
    requires Enabled(s, a) && Actor(a).Some?
    requires !InCritical(PcOf(s, Actor(a).value)) && s.lock != Actor(a)
    ensures var s' := Step(cfg, s, a); s'.token == s.token && s'.expires == s.expires && s'.now == s.now
  {
  }

  lemma HolderOverdue(cfg: Config, s: State, a: Action, t: Tid)
    requires Enabled(s, a) && Actor(a) == Some(t) && s.lock == Some(t) && InCritical(PcOf(s, t)) && Overdue(cfg, s)
    requires Agrees(s, t) && Applied(s)
    ensures Overdue(cfg, Step(cfg, s, a))
  {
  }

  lemma StepOverdue(cfg: Config, s: State, a: Action)
    requires Inv(cfg, s) && Enabled(s, a) && Overdue(cfg, s)
    ensures Overdue(cfg, Step(cfg, s, a))
  {
    if Actor(a).Some? && InCritical(PcOf(s, Actor(a).value)) {
      var t := Actor(a).value;
      ActorHolds(s, t);
      assert Agrees(s, t);
      HolderOverdue(cfg, s, a, t);
    } else {
      if Actor(a).Some? { assert InCritical(PcOf(s, Actor(a).value)) <==> s.lock == Actor(a); }
      OutsiderOverdue(cfg, s, a);
    }
  }

  lemma {:induction false} RunOverdue(cfg: Config, states: seq<State>, actions: seq<Action>, k: nat)
    requires IsRun(cfg, states, actions) && k < |states| && 0 <= states[0].now + cfg.margin
    ensures Overdue(cfg, states[k])
  {
    if k > 0 {
      RunOverdue(cfg, states, actions, k - 1);
      RunInv(cfg, states, actions, k - 1);
      assert Follows(cfg, states, actions, k - 1);
      StepOverdue(cfg, states[k - 1], actions[k - 1]);
    }
  }

  /** The lifetime of request `r`'s token, counted from state `w`, by which it had been granted. */
  predicate Counts(states: seq<State>, w: int, r: int, expires: int) {
    0 <= w < |states| && 0 <= r < |states[w].log| && states[w].log[r].outcome.Granted?
    && expires == states[w].now + states[w].log[r].outcome.bundle.lifetime
  }

  /** No request granted by state `i` is later than `r`. */
  predicate NewestAt(s: State, r: int) { forall q | 0 <= q < |s.log| && s.log[q].outcome.Granted? :: q <= r }

  /** The clock for the expiry being written was read after the request was granted. */
  ghost predicate ClockRead(states: seq<State>, k: nat)
    requires k < |states|
  {
    var pc := Holder(states[k]);
    pc.WriteExpiry? ==> CountedBy(states, k, pc.req, pc.clock + LifetimeOf(states[k], pc.req))
  }

  ghost predicate CountedBy(states: seq<State>, k: nat, r: int, expires: int) {
    exists w :: w <= k && Counts(states, w, r, expires)
  }

  function LifetimeOf(s: State, r: int): int {
    if 0 <= r < |s.log| && s.log[r].outcome.Granted? then s.log[r].outcome.bundle.lifetime else 0
  }

  /**
   * As seen from state `i`, the expiry stored at `k` is overdue, or is that of the newest request
   * granted by `i` or of a later one, and no older token is cached.
   */
  ghost predicate Owned(cfg: Config, states: seq<State>, i: nat, k: nat)
    requires i < |states| && k < |states|
  {
    states[k].expires <= states[i].now + cfg.margin
    || exists w, r | w <= k :: Counts(states, w, r, states[k].expires) && NewestAt(states[i], r) && AtLeast(states[k], r)
                               && r < |states[k].log|
  }

  lemma ClockReadNext(cfg: Config, states: seq<State>, actions: seq<Action>, k: nat)
    requires IsRun(cfg, states, actions) && k < |actions| && ClockRead(states, k)
    ensures ClockRead(states, k + 1)
  {
    assert Follows(cfg, states, actions, k);
    RunInv(cfg, states, actions, k);
    var s, s', a := states[k], states[k + 1], actions[k];
    if Holder(s').WriteExpiry? {
      HolderWrites(cfg, s, a);
      NextExtends(cfg, states, actions, k);
      var r := Holder(s').req;
      assert LifetimeOf(s', r) == LifetimeOf(s, r);
      if Holder(s) == Holder(s') {
        var w :| w <= k && Counts(states, w, r, Holder(s).clock + LifetimeOf(s, r));
      } else {
        assert Counts(states, k, r, Holder(s').clock + LifetimeOf(s', r));
      }
    }
  }

  /** A holder about to write the expiry was so before, or has just read the clock. */
  lemma HolderWrites(cfg: Config, s: State, a: Action)
    requires Inv(cfg, s) && Enabled(s, a) && Holder(Step(cfg, s, a)).WriteExpiry?
    ensures var pc, pc' := Holder(s), Holder(Step(cfg, s, a));
            && pc'.req < |s.log| && s.log[pc'.req].outcome.Granted?
            && (pc == pc' || (pc == ReadGrantClock(pc'.req) && pc'.clock == s.now))
  {
    if Actor(a).Some? {
      var t := Actor(a).value;
      assert InCritical(PcOf(s, t)) <==> s.lock == Some(t);
    }
    if s.lock.Some? { assert Agrees(s, s.lock.value); }
  }

  lemma {:induction false} RunClockRead(cfg: Config, states: seq<State>, actions: seq<Action>, k: nat)
    requires IsRun(cfg, states, actions) && k < |states|
    ensures ClockRead(states, k)
  {
    if k > 0 {
      RunClockRead(cfg, states, actions, k - 1);
      ClockReadNext(cfg, states, actions, k - 1);
    }
  }

  /** The expiry changes only when the holder writes one, or clears it. */
  lemma ExpiryWrites(cfg: Config, s: State, a: Action)
    requires Inv(cfg, s) && Enabled(s, a)
    ensures var s' := Step(cfg, s, a);
            s'.expires == s.expires || s'.expires == 0
            || (Holder(s).WriteExpiry? && Holder(s).req == |s.log| - 1 && s.log[|s.log| - 1].outcome.Granted?
                && s'.expires == Holder(s).clock + s.log[|s.log| - 1].outcome.bundle.lifetime
                && s'.token == s.token && s'.log == s.log
                && s.token.Some? && s.token.value.req == |s.log| - 1)
  {
    if Actor(a).Some? {
      var t := Actor(a).value;
      assert InCritical(PcOf(s, t)) <==> s.lock == Some(t);
      assert Agrees(s, t);
    }
  }

  lemma OwnedStays(cfg: Config, states: seq<State>, actions: seq<Action>, i: nat, k: nat)
    requires IsRun(cfg, states, actions) && i <= k < |actions| && Owned(cfg, states, i, k)
    requires states[k + 1].expires == states[k].expires
    ensures Owned(cfg, states, i, k + 1)
  {
    assert Follows(cfg, states, actions, k);
    var s, s' := states[k], states[k + 1];
    if s.expires > states[i].now + cfg.margin {
      RunInv(cfg, states, actions, k);
      NextExtends(cfg, states, actions, k);
      var w, r :| w <= k && Counts(states, w, r, s.expires) && NewestAt(states[i], r) && AtLeast(s, r) && r < |s.log|;
      AtLeastStays(cfg, s, actions[k], r);
      assert Counts(states, w, r, s'.expires) && AtLeast(s', r) && r < |s'.log|;
    }
  }

  lemma OwnedWritten(cfg: Config, states: seq<State>, actions: seq<Action>, i: nat, k: nat)
    requires IsRun(cfg, states, actions) && i <= k < |actions| && Holder(states[k]).WriteExpiry?
    requires var s, s', r := states[k], states[k + 1], |states[k].log| - 1;
             Holder(s).req == r && s.log[r].outcome.Granted? && s'.log == s.log && s'.token == s.token
             && s'.expires == Holder(s).clock + s.log[r].outcome.bundle.lifetime && s.token.Some? && s.token.value.req == r
    ensures Owned(cfg, states, i, k + 1)
  {
    var r := |states[k].log| - 1;
    RunExtends(cfg, states, actions, i, k);
    RunClockRead(cfg, states, actions, k);
    var w :| w <= k && Counts(states, w, r, Holder(states[k]).clock + LifetimeOf(states[k], r));
    assert NewestAt(states[i], r);
    assert Counts(states, w, r, states[k + 1].expires) && AtLeast(states[k + 1], r);
  }

  lemma OwnedNext(cfg: Config, states: seq<State>, actions: seq<Action>, i: nat, k: nat)
    requires IsRun(cfg, states, actions) && i <= k < |actions| && 0 <= states[0].now + cfg.margin
    requires Owned(cfg, states, i, k)
    ensures Owned(cfg, states, i, k + 1)
  {
    assert Follows(cfg, states, actions, k);
    RunInv(cfg, states, actions, k);
    RunOverdue(cfg, states, actions, i);
    ExpiryWrites(cfg, states[k], actions[k]);
    if states[k + 1].expires == states[k].expires {
      OwnedStays(cfg, states, actions, i, k);
    } else if states[k + 1].expires != 0 {
      OwnedWritten(cfg, states, actions, i, k);
    }
  }

  /** At any moment the expiry stored is overdue, or that of the newest request granted. */
  lemma {:induction false} OwnedNow(cfg: Config, states: seq<State>, actions: seq<Action>, k: nat)
    requires IsRun(cfg, states, actions) && k < |states| && 0 <= states[0].now + cfg.margin
    ensures Owned(cfg, states, k, k)
  {
    RunOverdue(cfg, states, actions, k);
    if k > 0 {
      OwnedNow(cfg, states, actions, k - 1);
      OwnedNext(cfg, states, actions, k - 1, k - 1);
      assert Follows(cfg, states, actions, k - 1);
      RunInv(cfg, states, actions, k - 1);
      RunOverdue(cfg, states, actions, k - 1);
      NewestNext(cfg, states[k - 1], actions[k - 1]);
      NextExtends(cfg, states, actions, k - 1);
      if states[k].expires > states[k].now + cfg.margin {
        var w, r :| w <= k && Counts(states, w, r, states[k].expires) && NewestAt(states[k - 1], r) && AtLeast(states[k], r)
                    && r < |states[k].log|;
        assert NewestAt(states[k], r);
      }
    }
  }

  /** A step that adds a granted request leaves its holder before the expiry. */
  lemma NewestNext(cfg: Config, s: State, a: Action)
    requires Inv(cfg, s) && Enabled(s, a)
    ensures var s' := Step(cfg, s, a);
            (forall r | NewestAt(s, r) :: NewestAt(s', r)) || Holder(s').WriteToken?
  {
    if Actor(a).Some? {
      var t := Actor(a).value;
      assert InCritical(PcOf(s, t)) <==> s.lock == Some(t);
      assert Agrees(s, t);
    }
  }

  lemma {:induction false} OwnedLater(cfg: Config, states: seq<State>, actions: seq<Action>, i: nat, k: nat)
    requires IsRun(cfg, states, actions) && i <= k < |states| && 0 <= states[0].now + cfg.margin
    ensures Owned(cfg, states, i, k)
  {
    if i == k {
      OwnedNow(cfg, states, actions, k);
    } else {
      OwnedLater(cfg, states, actions, i, k - 1);
      OwnedNext(cfg, states, actions, i, k - 1);
    }
  }

  lemma {:induction false} AtLeastLater(cfg: Config, states: seq<State>, actions: seq<Action>, n: nat, x: nat, b: int)
    requires IsRun(cfg, states, actions) && n <= x < |states| && AtLeast(states[n], b) && b < |states[n].log|
    ensures AtLeast(states[x], b)
  {
    if n < x {
      AtLeastLater(cfg, states, actions, n, x - 1, b);
      RunInv(cfg, states, actions, x - 1);
      RunExtends(cfg, states, actions, n, x - 1);
      assert Follows(cfg, states, actions, x - 1);
      AtLeastStays(cfg, states[x - 1], actions[x - 1], b);
    }
  }

  /** More than the margin is left of the token of request `r`, counted from a state after its grant. */
  ghost predicate OwnTimeLeft(cfg: Config, states: seq<State>, i: nat, k: nat, r: int) {
    exists m, w, expires | i < m <= k && m < |states| ::
      Counts(states, w, r, expires) && states[m].now + cfg.margin < expires
  }

  /**
   * In every run, whatever is invalidated or renewed meanwhile: the token that a call returns was
   * granted during the call, or at some moment of the call had more than the margin of its own
   * lifetime left, counted from a moment at which it had been granted. (A clock that starts at least
   * the margin below zero could pass for an expiry that was never stored.)
   */
  lemma ReturnedIsFresh(cfg: Config, states: seq<State>, actions: seq<Action>, i: nat, k: nat, t: Tid)
    requires IsRun(cfg, states, actions) && k < |states| && InCall(actions, i, k, t)
    requires PcOf(states[k], t).Returned? && PcOf(states[k], t).result.Some?
    requires 0 <= states[0].now + cfg.margin
    ensures var r := PcOf(states[k], t).result.value.req;
            GrantedBetween(states, i, k, r) || OwnTimeLeft(cfg, states, i, k, r)
  {
    var token := PcOf(states[k], t).result.value;
    CallProgress(cfg, states, actions, i, k, t);
    RunEarned(cfg, states, actions, t, k);
    RunExtends(cfg, states, actions, i, k);
    if ReadAt(cfg, states, i, k, token) && !GrantedBetween(states, i, k, token.req) {
      var m, n, x :| InUse(cfg, states, i, m, n) && n <= x <= k && states[x].token == Some(token);
      OwnedLater(cfg, states, actions, i, n);
      RunExtends(cfg, states, actions, i, m);
      var w, r :| w <= n && Counts(states, w, r, states[n].expires) && NewestAt(states[i], r) && AtLeast(states[n], r)
                  && r < |states[n].log|;
      AtLeastLater(cfg, states, actions, n, x, r);
      assert token.req == r;
      assert Counts(states, w, r, states[n].expires);
    }
  }

  // ----------------------------------------------------------------- calls that begin late

  /** Since state `i` a request was granted, or no expiry beyond the margin of that state is stored. */
  ghost predicate RenewedOrLate(cfg: Config, states: seq<State>, i: nat, k: nat)
    requires i < |states| && k < |states|
  {
    (exists r :: GrantedBetween(states, i, k, r))
    || (states[k].expires <= states[i].now + cfg.margin && !BeforeExpiry(Holder(states[k])))
  }

  lemma GrantStays(cfg: Config, states: seq<State>, actions: seq<Action>, i: nat, k: nat, r: int)
    requires IsRun(cfg, states, actions) && i < |states| && k < |actions| && GrantedBetween(states, i, k, r)
    ensures GrantedBetween(states, i, k + 1, r)
  {
    NextExtends(cfg, states, actions, k);
  }

  lemma LateNext(cfg: Config, states: seq<State>, actions: seq<Action>, i: nat, k: nat)
    requires IsRun(cfg, states, actions) && i <= k < |actions| && 0 <= states[0].now + cfg.margin
    requires RenewedOrLate(cfg, states, i, k)
    ensures RenewedOrLate(cfg, states, i, k + 1)
  {
    if r :| GrantedBetween(states, i, k, r) {
      GrantStays(cfg, states, actions, i, k, r);
    } else {
      var s, a := states[k], actions[k];
      assert Follows(cfg, states, actions, k);
      RunInv(cfg, states, actions, k);
      RunOverdue(cfg, states, actions, i);
      RunExtends(cfg, states, actions, i, k);
      ExpiryWrites(cfg, s, a);
      StoreBegins(cfg, s, a);
      if BeforeExpiry(Holder(states[k + 1])) {
        assert GrantedBetween(states, i, k + 1, |s.log| - 1);
      }
    }
  }

  /** A holder gets a token to store only by the answer to its request. */
  lemma StoreBegins(cfg: Config, s: State, a: Action)
    requires Inv(cfg, s) && Enabled(s, a) && !BeforeExpiry(Holder(s))
    ensures var s' := Step(cfg, s, a);
            BeforeExpiry(Holder(s')) ==>
              |s'.log| == |s.log| > 0 && s.log[|s.log| - 1].outcome.Pending? && s'.log[|s.log| - 1].outcome.Granted?
  {
    if Actor(a).Some? {
      var t := Actor(a).value;
      assert InCritical(PcOf(s, t)) <==> s.lock == Some(t);
      assert Agrees(s, t);
    }
  }

  lemma {:induction false} LateStays(cfg: Config, states: seq<State>, actions: seq<Action>, i: nat, k: nat)
    requires IsRun(cfg, states, actions) && i <= k < |states| && 0 <= states[0].now + cfg.margin
    requires states[i].expires <= states[i].now + cfg.margin && !BeforeExpiry(Holder(states[i]))
    ensures RenewedOrLate(cfg, states, i, k)
  {
    if i < k {
      LateStays(cfg, states, actions, i, k - 1);
      LateNext(cfg, states, actions, i, k - 1);
    }
  }

  lemma {:induction false} GrantLater(cfg: Config, states: seq<State>, actions: seq<Action>, i: nat, n: nat, k: nat, r: int)
    requires IsRun(cfg, states, actions) && i < |states| && n <= k < |states| && GrantedBetween(states, i, n, r)
    ensures GrantedBetween(states, i, k, r)
  {
    RunExtends(cfg, states, actions, n, k);
  }

  /**
   * A call that begins when no more than the margin is left, and nobody is storing a token already
   * granted, returns one only after a request, its own or another thread's, was granted in between.
   */
  lemma LateCallRenews(cfg: Config, states: seq<State>, actions: seq<Action>, i: nat, k: nat, t: Tid)
    requires IsRun(cfg, states, actions) && k < |states| && InCall(actions, i, k, t)
    requires PcOf(states[k], t).Returned? && PcOf(states[k], t).result.Some?
    requires 0 <= states[0].now + cfg.margin
    requires states[i].expires <= states[i].now + cfg.margin && !BeforeExpiry(Holder(states[i]))
    ensures exists r :: GrantedBetween(states, i, k, r)
  {
    var token := PcOf(states[k], t).result.value;
    CallProgress(cfg, states, actions, i, k, t);
    if ReadAt(cfg, states, i, k, token) {
      var m, n, x :| InUse(cfg, states, i, m, n) && n <= x <= k && states[x].token == Some(token);
      LateStays(cfg, states, actions, i, n);
      RunExtends(cfg, states, actions, i, m);
      var r :| GrantedBetween(states, i, n, r);
      GrantLater(cfg, states, actions, i, n, k, r);
    } else {
      var q :| OwnGrant(states, i, k, t, q) && q <= token.req;
      assert GrantedBetween(states, i, k, q);
    }
  }

  // ------------------------------------------------------------- a clock far below zero

  /**
   * Thread 0 asks at -5000, is granted 3600 seconds and stores the token; 4000 seconds later, before
   * its expiry is stored, thread 1 calls.
   */
  function SlowSteps(): seq<Action> {
    [CallHeader(0), Advance(0), Advance(0), Advance(0), Advance(0),
     Reply(0, Payload(Some("tok"), Some(3600), None)), Advance(0), Tick(4000),
     CallHeader(1), Advance(1), Advance(1), Advance(1), Advance(1), Advance(1)]
  }

  /** The state after the first `i` of those steps. */
  function Slow(i: nat): State
    requires i <= 14
  {
    var token := Some(Access("tok", 0));
    var storer :=
      [Idle, ReadToken(false), AwaitLock, ReadToken(true), SendLogin, AwaitReply(0), WriteToken(0)][if i < 6 then i else 6];
    var caller :=
      [ReadToken(false), ReadClock(false, 2), ReadExpiry(false, 2, -1000), AssertToken(2), ReadResult(2), Returned(token, 2)]
      [if i < 9 then 0 else i - 9];
    var pcs := if i == 0 then map[] else map[0 := if i < 7 then storer else ReadGrantClock(0)];
    State(
      if i < 3 then None else Some(0),
      if i < 7 then None else token,
      0, None,
      if i < 8 then -5000 else -1000,
      if i < 9 then pcs else pcs[1 := caller],
      if i < 5 then [] else [Request(0, Login, if i == 5 then Pending else Granted(Bundle("tok", 3600, None), -5000))],
      if i < 7 then [None] else [None, token],
      map[])
  }

  predicate SlowFollows(i: nat)
    requires i < 14
  {
    Enabled(Slow(i), SlowSteps()[i]) && Step(CREDENTIALS, Slow(i), SlowSteps()[i]) == Slow(i + 1)
  }

  lemma SlowAsks(i: nat)
    requires i < 4
    ensures SlowFollows(i)
  {
    assert Slow(i).pcs[0 := PcOf(Slow(i + 1), 0)] == Slow(i + 1).pcs;
  }

  lemma SlowStores(i: nat)
    requires 4 <= i < 8
    ensures SlowFollows(i)
  {
    if i < 7 { assert Slow(i).pcs[0 := PcOf(Slow(i + 1), 0)] == Slow(i + 1).pcs; }
  }

  lemma SlowCalls(i: nat)
    requires 8 <= i < 11
    ensures SlowFollows(i)
  {
    assert Slow(i).pcs[1 := PcOf(Slow(i + 1), 1)] == Slow(i + 1).pcs;
  }

  lemma SlowReturns(i: nat)
    requires 11 <= i < 14
    ensures SlowFollows(i)
  {
    assert Slow(i).pcs[1 := PcOf(Slow(i + 1), 1)] == Slow(i + 1).pcs;
  }

  /**
   * With a clock far below zero, as Java's may be, the zero that stands for no expiry lies in the
   * future: the call is returned a token that lapsed 400 seconds before it began.
   */
  lemma {:induction false} NegativeClockServesLapsed(i: nat)
    requires i <= 14
    ensures Reachable(CREDENTIALS, Slow(i))
    ensures i == 14 ==> PcOf(Slow(i), 1) == Returned(Some(Access("tok", 0)), 2) && Slow(8).now == -5000 + 3600 + 400
                        && Slow(i).log == [Request(0, Login, Granted(Bundle("tok", 3600, None), -5000))]
  {
    if i == 0 {
      assert Slow(0) == Cold(-5000);
      var states, actions: seq<Action> := [Cold(-5000)], [];
      assert IsRun(CREDENTIALS, states, actions) && states[|actions|] == Cold(-5000);
    } else {
      NegativeClockServesLapsed(i - 1);
      if i <= 4 { SlowAsks(i - 1); }
      else if i <= 8 { SlowStores(i - 1); }
      else if i <= 11 { SlowCalls(i - 1); }
      else { SlowReturns(i - 1); }
      ReachStep(CREDENTIALS, Slow(i - 1), SlowSteps()[i - 1]);
    }
  }
}
