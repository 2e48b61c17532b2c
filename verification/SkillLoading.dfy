/** When `load_all` succeeds: in one state, over whole runs, and a run after which it does not. */
module SkillLoading {
  import opened Basics
  import opened Text
  import opened Frontmatter
  import opened FrontmatterProofs
  import opened Skills
  import opened SkillProtocol
  import opened SkillTheorems

  predicate Live(key: string) { EndsWith(key, "/" + SKILL_FILE) }

  /**
   * `load_all` succeeds exactly when every live pointer has one at its top level too: the names
   * `list` reports are first segments, so a pointer under a name with a slash needs another
   * pointer under the part before the slash.
   */
  lemma LoadAllExact(hash: Hash, approved: map<string, string>)
    requires forall key | key in approved :: key == "" || key[0] != '/'
    ensures (forall key | key in approved && Live(key) :: Load(hash, approved, FirstSegment(key)).Some?) <==>
            (forall key | key in approved && Live(key) :: FirstSegment(key) + "/" + SKILL_FILE in approved)
  {
    forall key | key in approved && Live(key)
      ensures PointerKey(FirstSegment(key)) == FirstSegment(key) + "/" + SKILL_FILE
    {
      var n := FirstSegment(key);
      assert key[|key| - |SKILL_FILE| - 1] == '/';
      assert n != "";
      assert n[0] == key[0];
    }
  }

  /** While every live pointer belongs to a slash-free name, `load_all` never fails. */
  lemma LoadAllPlain(hash: Hash, approved: map<string, string>)
    requires forall key | key in approved :: key == "" || key[0] != '/'
    requires forall key | key in approved && Live(key) :: exists n :: '/' !in n && key == n + "/" + SKILL_FILE
    ensures forall key | key in approved && Live(key) ::
              Load(hash, approved, FirstSegment(key)).Some? && PointerKey(FirstSegment(key)) == key
  {
    LoadAllExact(hash, approved);
    forall key | key in approved && Live(key)
      ensures Load(hash, approved, FirstSegment(key)).Some? && PointerKey(FirstSegment(key)) == key
    {
      var n :| '/' !in n && key == n + "/" + SKILL_FILE;
      assert n != "" by { assert key[0] != '/'; }
      PlainPointer(n);
    }
  }

  lemma PlainPointer(n: string)
    requires n != "" && '/' !in n
    ensures PointerKey(n) == n + "/" + SKILL_FILE && FirstSegment(n + "/" + SKILL_FILE) == n
  {
    KeyPlain(n, SKILL_FILE);
    IndexOfAfter(n, '/', SKILL_FILE);
    var key := n + ['/'] + SKILL_FILE;
    assert key[..|n|] == n;
  }

  // ------------------------------------------------------------------------------ whole runs

  /** An approval that starts here reads a skill whose name has no slash. */
  predicate ReadsPlainName(cfg: Config, s: State, a: Action) {
    a.StartApproval? && CanRead(s, a.proposed) ==> '/' !in Read(cfg, s, a.proposed).name
  }

  predicate PlainTask(s: State, t: Tid) {
    var task := TaskOf(s, t);
    task.Approving? || task.Pointing? ==> '/' !in task.skill.name
  }

  ghost predicate RecordOrPlain(key: string) {
    || (exists n, v :: HexVersion(v) && key == RecordKey(n, v))
    || exists n :: '/' !in n && key == PointerKey(n)
  }

  ghost predicate PlainLibrary(s: State) {
    (forall t :: PlainTask(s, t)) && forall key | key in s.approved :: RecordOrPlain(key)
  }

  lemma StepPlain(cfg: Config, s: State, a: Action)
    requires ValidConfig(cfg) && Inv(cfg, s) && Enabled(cfg, s, a) && ReadsPlainName(cfg, s, a) && PlainLibrary(s)
    ensures PlainLibrary(Step(cfg, s, a))
  {
    var s' := Step(cfg, s, a);
    if a.WriteRecord? || a.WritePointer? {
      assert TaskOk(cfg, s, a.t) && PlainTask(s, a.t);
    }
    forall t ensures PlainTask(s', t) { assert PlainTask(s, t); }
  }

  lemma {:induction false} RunPlain(cfg: Config, states: seq<State>, actions: seq<Action>, k: nat)
    requires IsRun(cfg, states, actions) && k < |states|
    requires forall i | 0 <= i < k :: ReadsPlainName(cfg, states[i], actions[i])
    ensures PlainLibrary(states[k])
  {
    if k > 0 {
      RunPlain(cfg, states, actions, k - 1);
      RunInv(cfg, states, actions, k - 1);
      assert Follows(cfg, states, actions, k - 1);
      StepPlain(cfg, states[k - 1], actions[k - 1]);
    }
  }

  /** The nameless pointer is not listed. */
  lemma PlainPointerLive(n: string)
    requires Live(PointerKey(n))
    ensures n != ""
  {
    assert LStrip("/" + SKILL_FILE, '/') == SKILL_FILE by { assert ("/" + SKILL_FILE)[1..] == SKILL_FILE; }
    assert "" + "/" + SKILL_FILE == "/" + SKILL_FILE;
  }

  lemma RecordNotLive(n: string, v: string)
    requires HexVersion(v)
    ensures !Live(RecordKey(n, v))
  {
    HexFile(v);
    KeyIs(n, v + MD);
    var key := RecordKey(n, v);
    assert key == Dir(n) + (v + MD);
    var tail := "/" + SKILL_FILE;
    assert key[|key| - 4] == v[11] && v[11] in v && tail[5] == 'L';
    assert key[|key| - |tail|..][5] == v[11];
  }

  lemma PlainLive(cfg: Config, states: seq<State>, actions: seq<Action>, k: nat)
    requires IsRun(cfg, states, actions) && k < |states|
    requires forall i | 0 <= i < k :: ReadsPlainName(cfg, states[i], actions[i])
    ensures forall key | key in states[k].approved && Live(key) :: exists n :: '/' !in n && key == n + "/" + SKILL_FILE
  {
    RunPlain(cfg, states, actions, k);
    forall key | key in states[k].approved && Live(key) ensures exists n :: '/' !in n && key == n + "/" + SKILL_FILE {
      assert RecordOrPlain(key);
      forall n, v | HexVersion(v) && key == RecordKey(n, v) ensures false { RecordNotLive(n, v); }
      var n :| '/' !in n && key == PointerKey(n);
      PlainPointerLive(n);
      KeyPlain(n, SKILL_FILE);
    }
  }

  /**
   * With nothing in between the listing and the loads: at every moment of a run in which the skills
   * approved have slash-free names, every name that `list` would report loads, from its own pointer.
   */
  lemma LoadAllNeverFails(cfg: Config, states: seq<State>, actions: seq<Action>, k: nat)
    requires IsRun(cfg, states, actions) && k < |states|
    requires forall i | 0 <= i < k :: ReadsPlainName(cfg, states[i], actions[i])
    ensures forall key | key in states[k].approved && Live(key) ::
              Load(cfg.hash, states[k].approved, FirstSegment(key)).Some? && PointerKey(FirstSegment(key)) == key
  {
    KeysNormal(cfg, states, actions, k);
    PlainLive(cfg, states, actions, k);
    LoadAllPlain(cfg.hash, states[k].approved);
  }

  // ------------------------------------------------------- a listing, and its loads later on

  predicate Revokes(a: Action, name: string) { a.Revoke? && PointerKey(a.name) == PointerKey(name) }

  /** Step `m` is the last to move the pointer of `name` before state `k`. */
  ghost predicate LastMove(states: seq<State>, actions: seq<Action>, m: int, k: nat, name: string)
    requires k <= |actions| && k <= |states|
  {
    && 0 <= m < k && MovesPointer(states, actions, m, name)
    && forall j | m < j < k :: !MovesPointer(states, actions, j, name)
  }

  /** Between states `i` and `k` the name was revoked, and not approved again after that. */
  ghost predicate RevokedBetween(states: seq<State>, actions: seq<Action>, i: nat, k: nat, name: string)
    requires k <= |actions| && k <= |states|
  {
    exists m | i <= m < k :: Revokes(actions[m], name) && LastMove(states, actions, m, k, name)
  }

  lemma StepLive(cfg: Config, states: seq<State>, actions: seq<Action>, k: nat, name: string)
    requires IsRun(cfg, states, actions) && k < |actions| && MovesPointer(states, actions, k, name)
    ensures PointerKey(name) in states[k + 1].approved <==> !Revokes(actions[k], name)
  {
    assert Follows(cfg, states, actions, k);
  }

  lemma RevokedNext(states: seq<State>, actions: seq<Action>, i: nat, k: nat, name: string)
    requires i <= k < |actions| && k < |states| - 1
    ensures RevokedBetween(states, actions, i, k + 1, name) <==>
            if MovesPointer(states, actions, k, name) then Revokes(actions[k], name) else RevokedBetween(states, actions, i, k, name)
  {
    var next := k + 1;
    if MovesPointer(states, actions, k, name) {
      assert LastMove(states, actions, k, next, name);
      assert forall m | i <= m < k :: !LastMove(states, actions, m, next, name);
    } else {
      assert forall m | i <= m < k :: LastMove(states, actions, m, next, name) <==> LastMove(states, actions, m, k, name);
    }
  }

  lemma {:induction false} LiveIff(cfg: Config, states: seq<State>, actions: seq<Action>, i: nat, k: nat, name: string)
    requires IsRun(cfg, states, actions) && i <= k < |states| && PointerKey(name) in states[i].approved
    ensures PointerKey(name) !in states[k].approved <==> RevokedBetween(states, actions, i, k, name)
  {
    if i < k {
      LiveIff(cfg, states, actions, i, k - 1, name);
      RevokedNext(states, actions, i, k - 1, name);
      if MovesPointer(states, actions, k - 1, name) {
        StepLive(cfg, states, actions, k - 1, name);
      } else {
        StepPointer(cfg, states, actions, k - 1, name);
      }
    }
  }

  lemma LoadsIfLive(hash: Hash, approved: map<string, string>, name: string)
    ensures Load(hash, approved, name) == None <==> PointerKey(name) !in approved
  {
  }

  /**
   * A name that was live at some moment fails to load at a later one exactly when it was revoked in
   * between and not approved again.
   */
  lemma LoadMissesIff(cfg: Config, states: seq<State>, actions: seq<Action>, i: nat, k: nat, name: string)
    requires IsRun(cfg, states, actions) && i <= k < |states| && PointerKey(name) in states[i].approved
    ensures Load(cfg.hash, states[k].approved, name) == None <==> RevokedBetween(states, actions, i, k, name)
  {
    LiveIff(cfg, states, actions, i, k, name);
    LoadsIfLive(cfg.hash, states[k].approved, name);
  }

  /** The last step to move the pointer of `name` before state `k`, if any did, is an approval. */
  ghost predicate ApprovedLast(states: seq<State>, actions: seq<Action>, k: nat, name: string)
    requires k <= |actions| && k <= |states|
  {
    exists m | 0 <= m < k :: actions[m].WritePointer? && LastMove(states, actions, m, k, name)
  }

  lemma ApprovedNext(states: seq<State>, actions: seq<Action>, k: nat, name: string)
    requires k < |actions| && k < |states| - 1
    ensures ApprovedLast(states, actions, k + 1, name) <==>
            if MovesPointer(states, actions, k, name) then actions[k].WritePointer? else ApprovedLast(states, actions, k, name)
  {
    var next := k + 1;
    if MovesPointer(states, actions, k, name) {
      assert LastMove(states, actions, k, next, name);
      assert forall m | 0 <= m < k :: !LastMove(states, actions, m, next, name);
    } else {
      assert forall m | 0 <= m < k :: LastMove(states, actions, m, next, name) <==> LastMove(states, actions, m, k, name);
    }
  }

  lemma {:induction false} LiveIffApproved(cfg: Config, states: seq<State>, actions: seq<Action>, k: nat, name: string)
    requires IsRun(cfg, states, actions) && k < |states|
    ensures PointerKey(name) in states[k].approved <==> ApprovedLast(states, actions, k, name)
  {
    if k > 0 {
      LiveIffApproved(cfg, states, actions, k - 1, name);
      ApprovedNext(states, actions, k - 1, name);
      if MovesPointer(states, actions, k - 1, name) {
        StepLive(cfg, states, actions, k - 1, name);
      } else {
        StepPointer(cfg, states, actions, k - 1, name);
      }
    }
  }

  /** One `load_all`: the listing at state `i`, the load of each name at its own state from then on. */
  predicate Timed(states: seq<State>, i: nat, names: seq<string>, at: seq<nat>) {
    |at| == |names| && forall j | 0 <= j < |at| :: i <= at[j] < |states|
  }

  predicate AllLoad(hash: Hash, states: seq<State>, names: seq<string>, at: seq<nat>)
    requires |at| == |names| && forall j | 0 <= j < |at| :: at[j] < |states|
  {
    forall j | 0 <= j < |names| :: Load(hash, states[at[j]].approved, names[j]).Some?
  }

  /**
   * Over any run, whatever the names, `load_all` succeeds exactly when each name listed was last
   * moved by an approval before it is loaded.
   */
  lemma LoadAllIff(cfg: Config, states: seq<State>, actions: seq<Action>, i: nat, names: seq<string>, at: seq<nat>)
    requires IsRun(cfg, states, actions) && Timed(states, i, names, at)
    ensures AllLoad(cfg.hash, states, names, at) <==>
            forall j | 0 <= j < |names| :: ApprovedLast(states, actions, at[j], names[j])
  {
    forall j | 0 <= j < |names|
      ensures Load(cfg.hash, states[at[j]].approved, names[j]).Some? <==> ApprovedLast(states, actions, at[j], names[j])
    {
      LiveIffApproved(cfg, states, actions, at[j], names[j]);
      LoadsIfLive(cfg.hash, states[at[j]].approved, names[j]);
    }
  }

  /**
   * Over any run in which the skills approved before the listing have slash-free names, and whatever
   * interleaves with it, `load_all` fails exactly when a listed name is revoked after the listing
   * and not approved again before it is loaded.
   */
  lemma LoadAllFailsIff(cfg: Config, states: seq<State>, actions: seq<Action>, i: nat, names: seq<string>, at: seq<nat>)
    requires IsRun(cfg, states, actions) && i < |states| && NameList(states[i].approved, names) && Timed(states, i, names, at)
    requires forall k | 0 <= k < i :: ReadsPlainName(cfg, states[k], actions[k])
    ensures AllLoad(cfg.hash, states, names, at) <==>
            forall j | 0 <= j < |names| :: !RevokedBetween(states, actions, i, at[j], names[j])
  {
    LoadAllNeverFails(cfg, states, actions, i);
    forall j | 0 <= j < |names|
      ensures Load(cfg.hash, states[at[j]].approved, names[j]) == None <==> RevokedBetween(states, actions, i, at[j], names[j])
    {
      assert names[j] in names;
      var key :| key in states[i].approved && Live(key) && FirstSegment(key) == names[j];
      LoadMissesIff(cfg, states, actions, i, at[j], names[j]);
    }
  }

  /** A proposal whose fields read back, under a name without a slash. */
  ghost predicate PlainProposal(a: Action) {
    a.Propose? ==>
      '/' !in a.name && !(FENCE <= a.body) && PlainFields(Fields(a.name, a.description, Some(a.proposer)))
  }

  predicate NamedPlainly(document: string) {
    var meta := Parse(document).0;
    "name" in meta && '/' !in meta["name"]
  }

  lemma PlainProposalNamed(a: Action)
    requires a.Propose? && PlainProposal(a)
    ensures NamedPlainly(Format(a.name, a.description, a.body, Some(a.proposer)))
  {
    FormatFields(a.name, a.description, a.body, Some(a.proposer));
    DictLookup(a.name, a.description, Some(a.proposer));
  }

  /** Every queued document has a property. */
  ghost predicate AllQueued(s: State, ok: string -> bool) {
    forall table | table in s.queues :: forall key | key in s.queues[table] :: ok(s.queues[table][key])
  }

  predicate ProposesSuch(a: Action, ok: string -> bool) {
    a.Propose? ==> ok(Format(a.name, a.description, a.body, Some(a.proposer)))
  }

  lemma StepQueued(cfg: Config, s: State, a: Action, ok: string -> bool)
    requires Enabled(cfg, s, a) && AllQueued(s, ok) && ProposesSuch(a, ok)
    ensures AllQueued(Step(cfg, s, a), ok)
  {
  }

  lemma {:induction false} RunQueued(cfg: Config, states: seq<State>, actions: seq<Action>, k: nat, ok: string -> bool)
    requires IsRun(cfg, states, actions) && k < |states|
    requires forall i | 0 <= i < k :: ProposesSuch(actions[i], ok)
    ensures AllQueued(states[k], ok)
  {
    if k > 0 {
      RunQueued(cfg, states, actions, k - 1, ok);
      assert Follows(cfg, states, actions, k - 1);
      StepQueued(cfg, states[k - 1], actions[k - 1], ok);
    }
  }

  lemma QueuedReads(cfg: Config, s: State, a: Action)
    requires AllQueued(s, NamedPlainly)
    ensures ReadsPlainName(cfg, s, a)
  {
    if a.StartApproval? && CanRead(s, a.proposed) {
      var table := PathSafe(a.proposed.proposer);
      assert table in s.queues;
      assert NamedPlainly(s.queues[table][ProposalKey(a.proposed)]);
    }
  }

  lemma PlainReads(cfg: Config, states: seq<State>, actions: seq<Action>, k: nat)
    requires IsRun(cfg, states, actions) && k < |states|
    requires forall i | 0 <= i < k :: PlainProposal(actions[i])
    ensures forall i | 0 <= i < k :: ReadsPlainName(cfg, states[i], actions[i])
  {
    forall i | 0 <= i < k ensures ProposesSuch(actions[i], NamedPlainly) {
      assert PlainProposal(actions[i]);
      if actions[i].Propose? { PlainProposalNamed(actions[i]); }
    }
    forall i | 0 <= i < k ensures ReadsPlainName(cfg, states[i], actions[i]) {
      RunQueued(cfg, states, actions, i, NamedPlainly);
      QueuedReads(cfg, states[i], actions[i]);
    }
  }

  /** In particular when every proposal before the listing is plain and has a slash-free name. */
  lemma PlainProposalsLoad(cfg: Config, states: seq<State>, actions: seq<Action>, i: nat, names: seq<string>, at: seq<nat>)
    requires IsRun(cfg, states, actions) && i < |states| && NameList(states[i].approved, names) && Timed(states, i, names, at)
    requires forall k | 0 <= k < i :: PlainProposal(actions[k])
    ensures AllLoad(cfg.hash, states, names, at) <==>
            forall j | 0 <= j < |names| :: !RevokedBetween(states, actions, i, at[j], names[j])
  {
    PlainReads(cfg, states, actions, i);
    LoadAllFailsIff(cfg, states, actions, i, names, at);
  }

  // ------------------------------------------------------------------- a run that ends badly

  ghost predicate Reachable(cfg: Config, s: State) {
    exists states, actions :: IsRun(cfg, states, actions) && states[|actions|] == s
  }

  lemma RunExtends(cfg: Config, states: seq<State>, actions: seq<Action>, a: Action, s': State)
    requires IsRun(cfg, states, actions) && Enabled(cfg, states[|actions|], a) && s' == Step(cfg, states[|actions|], a)
    ensures IsRun(cfg, states + [s'], actions + [a])
  {
    var states', actions' := states + [s'], actions + [a];
    assert states'[0] == states[0];
    forall i | 0 <= i < |actions'| ensures Follows(cfg, states', actions', i) {
      if i < |actions| { assert Follows(cfg, states, actions, i); }
    }
  }

  lemma ReachStep(cfg: Config, s: State, a: Action)
    requires Reachable(cfg, s) && Enabled(cfg, s, a)
    ensures Reachable(cfg, Step(cfg, s, a))
  {
    var states, actions :| IsRun(cfg, states, actions) && states[|actions|] == s;
    var s' := Step(cfg, s, a);
    RunExtends(cfg, states, actions, a, s');
    assert (states + [s'])[|actions + [a]|] == s';
  }

  /** The library after a plain proposal has been filed and approved with nothing in between. */
  lemma ProposeAndApprove(cfg: Config, name: string, body: string, proposer: string) returns (s: State)
    requires ValidConfig(cfg) && Format(name, None, body, Some(proposer)) in cfg.corpus
    requires !(FENCE <= body) && Plain(name) && Plain(proposer)
    ensures var document := Format(name, None, body, Some(proposer));
            Reachable(cfg, s)
            && s.approved == map[][RecordKey(name, cfg.hash(document)) := document][PointerKey(name) := document]
  {
    var document := Format(name, None, body, Some(proposer));
    var propose := Propose(proposer, name, body, None);
    var p := ProposedSkill(proposer, name, cfg.hash(document));
    var states, actions: seq<Action> := [Empty()], [];
    assert IsRun(cfg, states, actions) && states[|actions|] == Empty();
    var filed := Step(cfg, Empty(), propose);
    ReachStep(cfg, Empty(), propose);
    HexFile(cfg.hash(document));
    assert CanRead(filed, p);
    ReadPlain(cfg.hash, name, None, body, proposer, Some(proposer));
    ApprovalAlone(cfg, filed, 0, p);
    var read := Step(cfg, filed, StartApproval(0, p));
    ReachStep(cfg, filed, StartApproval(0, p));
    var recorded := Step(cfg, read, WriteRecord(0));
    ReachStep(cfg, read, WriteRecord(0));
    s := Step(cfg, recorded, WritePointer(0));
    ReachStep(cfg, recorded, WritePointer(0));
  }

  /** Between states `i` and `i + 1` the only name listed is revoked, and then it does not load. */
  ghost predicate LoadsTooLate(cfg: Config, states: seq<State>, actions: seq<Action>, i: nat, name: string) {
    && IsRun(cfg, states, actions) && i + 1 < |states| && actions[i] == Revoke(name)
    && NameList(states[i].approved, [name]) && Timed(states, i, [name], [i + 1])
    && !AllLoad(cfg.hash, states, [name], [i + 1])
  }

  /**
   * Propose and approve a skill; list it; revoke it; load it. Its name has no slash, and still the
   * load that follows from the listing fails.
   */
  lemma RevokedWhileLoading(cfg: Config, name: string, body: string, proposer: string)
    returns (states: seq<State>, actions: seq<Action>, i: nat)
    requires name != "" && '/' !in name && Plain(name) && Plain(proposer) && !(FENCE <= body)
    requires ValidConfig(cfg) && Format(name, None, body, Some(proposer)) in cfg.corpus
    ensures LoadsTooLate(cfg, states, actions, i, name)
  {
    var document := Format(name, None, body, Some(proposer));
    var s := ProposeAndApprove(cfg, name, body, proposer);
    OneListed(s.approved, name, cfg.hash(document), document);
    states, actions, i := RunThenRevoke(cfg, s, name);
    MissedLoad(cfg.hash, states, name, i + 1);
  }

  lemma MissedLoad(hash: Hash, states: seq<State>, name: string, k: nat)
    requires k < |states| && Load(hash, states[k].approved, name) == None
    ensures !AllLoad(hash, states, [name], [k])
  {
    assert [name][0] == name && [k][0] == k;
  }

  /** Such a run exists. */
  lemma LoadingCanBeTooLate() returns (cfg: Config, states: seq<State>, actions: seq<Action>, i: nat)
    ensures LoadsTooLate(cfg, states, actions, i, "a")
  {
    cfg := Config(d => "0123456789ab", {Format("a", None, "steps", Some("p"))});
    PlainStrings();
    states, actions, i := RevokedWhileLoading(cfg, "a", "steps", "p");
  }

  lemma RunThenRevoke(cfg: Config, s: State, name: string) returns (states: seq<State>, actions: seq<Action>, i: nat)
    requires Reachable(cfg, s)
    ensures IsRun(cfg, states, actions) && i + 1 < |states| && actions[i] == Revoke(name)
    ensures states[i] == s && Load(cfg.hash, states[i + 1].approved, name) == None
  {
    var before, done :| IsRun(cfg, before, done) && before[|done|] == s;
    i := |done|;
    var after := Step(cfg, s, Revoke(name));
    RunExtends(cfg, before, done, Revoke(name), after);
    states, actions := before + [after], done + [Revoke(name)];
  }

  lemma OneListed(approved: map<string, string>, name: string, v: string, document: string)
    requires name != "" && '/' !in name && HexVersion(v)
    requires approved == map[][RecordKey(name, v) := document][PointerKey(name) := document]
    ensures NameList(approved, [name])
  {
    PlainPointer(name);
    RecordNotLive(name, v);
    var key, tail := PointerKey(name), "/" + SKILL_FILE;
    assert key[|name|..] == tail;
    assert key in approved && EndsWith(key, tail) && FirstSegment(key) == name;
  }

  /** `list` reports a name that `load` does not find. */
  predicate LoadAllFails(hash: Hash, approved: map<string, string>, key: string, name: string) {
    key in approved && Live(key) && FirstSegment(key) == name && Load(hash, approved, name) == None
  }

  /** Proposing and approving a/b is enough: it is live, is listed as a, and a does not load. */
  lemma SlashedNameFailsLoadAll(cfg: Config, a: string, b: string, body: string, proposer: string) returns (s: State)
    requires a != "" && '/' !in a && b != "" && Plain(a + "/" + b) && Plain(proposer) && !(FENCE <= body)
    requires ValidConfig(cfg) && Format(a + "/" + b, None, body, Some(proposer)) in cfg.corpus
    ensures Reachable(cfg, s) && LoadAllFails(cfg.hash, s.approved, PointerKey(a + "/" + b), a)
  {
    var name := a + "/" + b;
    s := ProposeAndApprove(cfg, name, body, proposer);
    RecordIsNoPointer(name, cfg.hash(Format(name, None, body, Some(proposer))), a);
    SlashedPointer(a, b);
  }

  lemma SlashedPointer(a: string, b: string)
    requires a != "" && '/' !in a && b != ""
    ensures var key := PointerKey(a + "/" + b); Live(key) && FirstSegment(key) == a && key != PointerKey(a)
  {
    var name := a + "/" + b;
    KeyPlain(a, SKILL_FILE);
    KeyPlain(name, SKILL_FILE);
    var key, tail := PointerKey(name), "/" + SKILL_FILE;
    assert key == name + tail;
    assert key[|name|..] == tail;
    assert key == a + ['/'] + (b + tail);
    IndexOfAfter(a, '/', b + tail);
    assert key[..|a|] == a;
    assert |key| > |PointerKey(a)|;
  }

  lemma PlainStrings()
    ensures "a" + "/" + "b" == "a/b" && Plain("a") && Plain("a/b") && Plain("p") && !(FENCE <= "steps")
  {
    assert FENCE[0] != "steps"[0];
  }

  /** Such a run exists. */
  lemma LoadAllCanFail() returns (cfg: Config, s: State)
    ensures ValidConfig(cfg) && Reachable(cfg, s) && LoadAllFails(cfg.hash, s.approved, PointerKey("a/b"), "a")
  {
    cfg := Config(d => "0123456789ab", {Format("a/b", None, "steps", Some("p"))});
    PlainStrings();
    s := SlashedNameFailsLoadAll(cfg, "a", "b", "steps", "p");
  }
}
