/** How often the token endpoint is asked when threads invalidate: each invalidation costs one request. */
module TokenBudget {
  import opened Basics
  import opened TokenProtocol
  import opened TokenInvariants
  import opened TokenTheorems
  import opened TokenTiming

  /** Clearing steps among the first `k`. */
  function Clearings(states: seq<State>, actions: seq<Action>, k: nat): nat
    requires k <= |actions| && k <= |states|
  {
    if k == 0 then 0 else Clearings(states, actions, k - 1) + if Clearing(states[k - 1], actions[k - 1]) then 1 else 0
  }

  function Times(n: int, x: int): int { n * x }

  lemma TimesNext(n: int, x: int)
    ensures Times(n + 1, x) == Times(n, x) + x && Times(n - 1, x) == Times(n, x) - x
  {
  }

  /** What is known of the last grant, the time passed and what has been spent of it. */
  datatype Ledger = Ledger(start: int, last: int, granted: bool, spent: int)

  predicate HolderChecks(pc: Pc) { pc.ReadClock? || pc.ReadExpiry? }

  /**
   * `spent` is the gap for each grant less the gap for each clearing. A cache without a token has
   * spent no more than the time passed; with a token, one gap more may be spent, but then the token
   * is good until a gap after its grant.
   */
  predicate Solvent(cfg: Config, life: int, s: State, b: Ledger) {
    var gap, pc := life - cfg.margin, Holder(s);
    && b.start <= b.last <= s.now
    && (Asking(pc) ==> b.spent <= s.now - b.start)
    && (Applying(pc) ==>
          && b.granted && b.spent - gap <= b.last - b.start
          && |s.log| > 0 && var last := s.log[|s.log| - 1].outcome; last.Granted? && last.bundle.lifetime >= life)
    && (pc.WriteExpiry? ==> b.last <= pc.clock)
    && (!Applying(pc) && s.token == None ==> b.spent <= s.now - b.start)
    && (!Applying(pc) && s.token.Some? ==> b.granted && b.spent - gap <= b.last - b.start && b.last + life <= s.expires)
    && (pc.WriteRefresh? ==> b.last + life <= s.expires)
    && (Applying(pc) && !pc.WriteToken? ==> s.token.Some?)
    && (HolderChecks(pc) ==> s.token.Some?)
    && (pc.ReadExpiry? ==> pc.clock <= s.now)
    && (pc.InvExpiry? ==> s.token == None)
  }

  function Granting(cfg: Config, s: State, a: Action): int {
    if a.Reply? && Parse(cfg.client, a.answer, s.now).Granted? then 1 else 0
  }

  /** The ledger after a step. */
  function Booked(cfg: Config, life: int, s: State, a: Action, b: Ledger): Ledger {
    var gap := life - cfg.margin;
    if Clearing(s, a) then b.(spent := b.spent - gap)
    else if Granting(cfg, s, a) == 1 then b.(last := s.now, granted := true, spent := b.spent + gap)
    else b
  }

  lemma TickSolvent(cfg: Config, life: int, s: State, a: Action, b: Ledger)
    requires a.Tick? && Solvent(cfg, life, s, b)
    ensures Solvent(cfg, life, Step(cfg, s, a), b)
  {
  }

  /** A thread outside the critical section may enter it, to check or to clear. */
  lemma OutsiderSolvent(cfg: Config, life: int, s: State, a: Action, b: Ledger)
    requires Enabled(s, a) && Actor(a).Some? && Solvent(cfg, life, s, b)
    requires !InCritical(PcOf(s, Actor(a).value)) && s.lock != Actor(a)
    ensures Solvent(cfg, life, Step(cfg, s, a), b)
  {
    OutsiderFrame(cfg, s, a);
    OutsiderKeeps(cfg, s, a);
  }

  lemma OutsiderKeeps(cfg: Config, s: State, a: Action)
    requires Enabled(s, a) && Actor(a).Some?
    requires !InCritical(PcOf(s, Actor(a).value)) && s.lock != Actor(a)
    ensures var s' := Step(cfg, s, a); s'.token == s.token && s'.expires == s.expires && s'.now == s.now
    ensures s.lock == None ==> !InCritical(Holder(s))
  {
  }

  lemma GrantSolvent(cfg: Config, life: int, s: State, t: Tid, answer: Answer, b: Ledger)
    requires Enabled(s, Reply(t, answer)) && Generous(cfg, life, Reply(t, answer)) && s.lock == Some(t) && Agrees(s, t)
    requires Solvent(cfg, life, s, b)
    ensures Solvent(cfg, life, Step(cfg, s, Reply(t, answer)), Booked(cfg, life, s, Reply(t, answer), b))
  {
  }

  lemma ApplySolvent(cfg: Config, life: int, s: State, t: Tid, b: Ledger)
    requires Enabled(s, Advance(t)) && s.lock == Some(t) && Agrees(s, t) && Applying(PcOf(s, t)) && Solvent(cfg, life, s, b)
    ensures Solvent(cfg, life, Run(cfg, s, t), b)
  {
  }

  lemma ClearSolvent(cfg: Config, life: int, s: State, t: Tid, b: Ledger)
    requires Enabled(s, Advance(t)) && s.lock == Some(t) && life >= cfg.margin && Solvent(cfg, life, s, b)
    requires PcOf(s, t).InvToken? || PcOf(s, t).InvExpiry? || PcOf(s, t).InvUnlock?
    ensures Solvent(cfg, life, Run(cfg, s, t), Booked(cfg, life, s, Advance(t), b))
  {
  }

  lemma CheckSolvent(cfg: Config, life: int, s: State, t: Tid, b: Ledger)
    requires Enabled(s, Advance(t)) && s.lock == Some(t) && InCritical(PcOf(s, t)) && Solvent(cfg, life, s, b)
    requires !Applying(PcOf(s, t)) && !PcOf(s, t).InvToken? && !PcOf(s, t).InvExpiry? && !PcOf(s, t).InvUnlock?
    ensures Solvent(cfg, life, Run(cfg, s, t), b)
  {
  }

  lemma StepSolvent(cfg: Config, life: int, s: State, a: Action, b: Ledger)
    requires Inv(cfg, s) && Enabled(s, a) && Generous(cfg, life, a) && life >= cfg.margin && Solvent(cfg, life, s, b)
    ensures Solvent(cfg, life, Step(cfg, s, a), Booked(cfg, life, s, a, b))
  {
    if Actor(a) == None {
      TickSolvent(cfg, life, s, a, b);
    } else {
      var t := Actor(a).value;
      var pc := PcOf(s, t);
      assert Agrees(s, t);
      assert InCritical(pc) <==> s.lock == Some(t);
      if !InCritical(pc) {
        OutsiderSolvent(cfg, life, s, a, b);
      } else if a.Reply? {
        GrantSolvent(cfg, life, s, t, a.answer, b);
      } else if Applying(pc) {
        ApplySolvent(cfg, life, s, t, b);
      } else if pc.InvToken? || pc.InvExpiry? || pc.InvUnlock? {
        ClearSolvent(cfg, life, s, t, b);
      } else {
        CheckSolvent(cfg, life, s, t, b);
      }
    }
  }

  /** The ledger of a run's first `k` steps. */
  function LedgerAt(cfg: Config, life: int, states: seq<State>, actions: seq<Action>, k: nat): Ledger
    requires k <= |actions| && k < |states|
  {
    if k == 0 then Ledger(states[0].now, states[0].now, false, 0)
    else Booked(cfg, life, states[k - 1], actions[k - 1], LedgerAt(cfg, life, states, actions, k - 1))
  }

  lemma ColdSolvent(cfg: Config, life: int, now: int)
    ensures Solvent(cfg, life, Cold(now), Ledger(now, now, false, 0))
  {
  }

  lemma NextSolvent(cfg: Config, life: int, states: seq<State>, actions: seq<Action>, k: nat, b: Ledger)
    requires IsRun(cfg, states, actions) && k < |actions| && life >= cfg.margin
    requires Generous(cfg, life, actions[k]) && Solvent(cfg, life, states[k], b)
    ensures Solvent(cfg, life, states[k + 1], Booked(cfg, life, states[k], actions[k], b))
  {
    RunInv(cfg, states, actions, k);
    assert Follows(cfg, states, actions, k);
    StepSolvent(cfg, life, states[k], actions[k], b);
  }

  lemma {:induction false} RunSolvent(cfg: Config, life: int, states: seq<State>, actions: seq<Action>, k: nat)
    requires IsRun(cfg, states, actions) && k < |states| && life >= cfg.margin
    requires forall i | 0 <= i < k :: Generous(cfg, life, actions[i])
    ensures Solvent(cfg, life, states[k], LedgerAt(cfg, life, states, actions, k))
  {
    if k == 0 {
      ColdSolvent(cfg, life, states[0].now);
    } else {
      RunSolvent(cfg, life, states, actions, k - 1);
      NextSolvent(cfg, life, states, actions, k - 1, LedgerAt(cfg, life, states, actions, k - 1));
    }
  }

  lemma {:induction false} StartIs(cfg: Config, life: int, states: seq<State>, actions: seq<Action>, k: nat)
    requires k <= |actions| && k < |states|
    ensures LedgerAt(cfg, life, states, actions, k).start == states[0].now
  {
    if k > 0 { StartIs(cfg, life, states, actions, k - 1); }
  }

  /** The grant times of a log grow by one exactly when a request is granted. */
  lemma StepCounts(cfg: Config, s: State, a: Action)
    requires Inv(cfg, s) && Enabled(s, a)
    ensures |GrantTimes(Step(cfg, s, a).log)| ==
            |GrantTimes(s.log)| + Granting(cfg, s, a)
  {
    if Actor(a).Some? { assert Agrees(s, Actor(a).value); }
    if a.Reply? {
      GrantTimesAnswer(s.log, Parse(cfg.client, a.answer, s.now));
    } else if a.Advance? && (PcOf(s, a.t).SendRefresh? || PcOf(s, a.t).SendLogin?) {
      GrantTimesAppend(s.log, Step(cfg, s, a).log[|s.log|]);
    }
  }

  lemma BookedSpends(cfg: Config, life: int, s: State, a: Action, b: Ledger, n: int)
    requires b.spent == Times(n, life - cfg.margin)
    ensures Booked(cfg, life, s, a, b).spent
            == Times(n + Granting(cfg, s, a) - if Clearing(s, a) then 1 else 0, life - cfg.margin)
  {
    TimesNext(n, life - cfg.margin);
  }

  /** Successful requests less clearings, so far. */
  function Balance(states: seq<State>, actions: seq<Action>, k: nat): int
    requires k <= |actions| && k < |states|
  {
    |GrantTimes(states[k].log)| - Clearings(states, actions, k)
  }

  lemma BalanceNext(cfg: Config, states: seq<State>, actions: seq<Action>, k: nat)
    requires IsRun(cfg, states, actions) && k < |actions|
    ensures Balance(states, actions, k + 1) == Balance(states, actions, k)
            + Granting(cfg, states[k], actions[k]) - if Clearing(states[k], actions[k]) then 1 else 0
  {
    RunInv(cfg, states, actions, k);
    assert Follows(cfg, states, actions, k);
    StepCounts(cfg, states[k], actions[k]);
  }

  /** What is spent is the gap for each grant less the gap for each clearing. */
  lemma {:induction false} SpentIs(cfg: Config, life: int, states: seq<State>, actions: seq<Action>, k: nat)
    requires IsRun(cfg, states, actions) && k < |states|
    ensures LedgerAt(cfg, life, states, actions, k).spent == Times(Balance(states, actions, k), life - cfg.margin)
  {
    if k > 0 {
      SpentIs(cfg, life, states, actions, k - 1);
      BalanceNext(cfg, states, actions, k - 1);
      BookedSpends(cfg, life, states[k - 1], actions[k - 1], LedgerAt(cfg, life, states, actions, k - 1),
                   Balance(states, actions, k - 1));
    }
  }

  /**
   * Over every run in which tokens last at least `life` seconds: successful requests beyond the
   * first, and beyond one for each invalidation, are paid for by `life - margin` seconds each,
   * however the threads interleave.
   */
  lemma RenewalBudget(cfg: Config, life: int, states: seq<State>, actions: seq<Action>, k: nat)
    requires IsRun(cfg, states, actions) && k < |states| && life >= cfg.margin
    requires forall i | 0 <= i < k :: Generous(cfg, life, actions[i])
    ensures (|GrantTimes(states[k].log)| - 1 - Clearings(states, actions, k)) * (life - cfg.margin)
            <= states[k].now - states[0].now
  {
    RunSolvent(cfg, life, states, actions, k);
    StartIs(cfg, life, states, actions, k);
    SpentIs(cfg, life, states, actions, k);
    TimesNext(Balance(states, actions, k), life - cfg.margin);
  }
}
