/** What the governed library guarantees over whole runs, however approvals interleave. */
module SkillTheorems {
  import opened Basics
  import opened Dicts
  import opened Frontmatter
  import opened FrontmatterProofs
  import opened Paths
  import opened Skills
  import opened SkillProtocol

  predicate Follows(cfg: Config, states: seq<State>, actions: seq<Action>, i: nat)
    requires |states| == |actions| + 1 && i < |actions|
  {
    Enabled(cfg, states[i], actions[i]) && states[i + 1] == Step(cfg, states[i], actions[i])
  }

  ghost predicate IsRun(cfg: Config, states: seq<State>, actions: seq<Action>) {
    && ValidConfig(cfg) && |states| == |actions| + 1 && states[0] == Empty()
    && forall i | 0 <= i < |actions| :: Follows(cfg, states, actions, i)
  }

  lemma {:induction false} RunInv(cfg: Config, states: seq<State>, actions: seq<Action>, k: nat)
    requires IsRun(cfg, states, actions) && k < |states|
    ensures Inv(cfg, states[k])
  {
    if k > 0 {
      RunInv(cfg, states, actions, k - 1);
      assert Follows(cfg, states, actions, k - 1);
      StepInv(cfg, states[k - 1], actions[k - 1]);
    }
  }

  // ------------------------------------------------------------------- the invariant, read out

  /**
   * In every reachable state, also between the two writes of an approval: a document filed under
   * a version has that version, in every queue and in the library, and a live pointer holds the
   * document of a version record of the same name.
   */
  lemma LibrarySound(cfg: Config, states: seq<State>, actions: seq<Action>, k: nat, name: string, v: string)
    requires IsRun(cfg, states, actions) && k < |states| && HexVersion(v)
    ensures forall table | table in states[k].queues && RecordKey(name, v) in states[k].queues[table] ::
              cfg.hash(states[k].queues[table][RecordKey(name, v)]) == v
    ensures RecordKey(name, v) in states[k].approved ==> cfg.hash(states[k].approved[RecordKey(name, v)]) == v
    ensures PointerKey(name) in states[k].approved ==>
              Backed(cfg, states[k].approved, name, states[k].approved[PointerKey(name)])
  {
    RunInv(cfg, states, actions, k);
    var s := states[k];
    forall table | table in s.queues && RecordKey(name, v) in s.queues[table]
      ensures cfg.hash(s.queues[table][RecordKey(name, v)]) == v
    {
      var document := s.queues[table][RecordKey(name, v)];
      assert Record(cfg, RecordKey(name, v), document);
      var n :| RecordKey(name, v) == RecordKey(n, cfg.hash(document));
      HexFile(v);
      HexFile(cfg.hash(document));
      RecordKeys(name, v, n, cfg.hash(document));
    }
    if RecordKey(name, v) in s.approved { FiledVersion(cfg, s.approved, name, v); }
    if PointerKey(name) in s.approved { PointerBacked(cfg, s.approved, name); }
  }

  lemma PointerBacked(cfg: Config, approved: map<string, string>, name: string)
    requires ValidConfig(cfg) && ApprovedOk(cfg, approved) && PointerKey(name) in approved
    ensures Backed(cfg, approved, name, approved[PointerKey(name)])
  {
    var key := PointerKey(name);
    var document := approved[key];
    HexFile(cfg.hash(document));
    if Record(cfg, key, document) {
      var n :| key == RecordKey(n, cfg.hash(document));
      RecordIsNoPointer(n, cfg.hash(document), name);
    } else {
      var n :| key == PointerKey(n) && Backed(cfg, approved, n, document);
      SamePointerSameRecords(name, n, cfg.hash(document));
    }
  }

  /** A version record, once written, is there for good and unchanged. */
  lemma {:induction false} RecordsForever(cfg: Config, states: seq<State>, actions: seq<Action>, i: nat, k: nat)
    requires IsRun(cfg, states, actions) && i <= k < |states|
    ensures RecordsKept(cfg, states[i].approved, states[k].approved)
  {
    if i < k {
      RecordsForever(cfg, states, actions, i, k - 1);
      RunInv(cfg, states, actions, k - 1);
      assert Follows(cfg, states, actions, k - 1);
      StepKeepsRecords(cfg, states[k - 1], actions[k - 1]);
    }
  }

  // -------------------------------------------------------------- propose, approve, load

  /** Step `i` puts or removes the live pointer of `name`. */
  predicate MovesPointer(states: seq<State>, actions: seq<Action>, i: nat, name: string)
    requires i < |actions| && i < |states|
  {
    match actions[i]
    case WritePointer(t) =>
      TaskOf(states[i], t).Pointing? && PointerKey(TaskOf(states[i], t).skill.name) == PointerKey(name)
    case Revoke(n) => PointerKey(n) == PointerKey(name)
    case _ => false
  }

  lemma StepPointer(cfg: Config, states: seq<State>, actions: seq<Action>, i: nat, name: string)
    requires IsRun(cfg, states, actions) && i < |actions| && !MovesPointer(states, actions, i, name)
    ensures PointerKey(name) in states[i + 1].approved <==> PointerKey(name) in states[i].approved
    ensures PointerKey(name) in states[i].approved ==>
              states[i + 1].approved[PointerKey(name)] == states[i].approved[PointerKey(name)]
  {
    assert Follows(cfg, states, actions, i);
    if actions[i].WriteRecord? {
      RunInv(cfg, states, actions, i);
      var t := actions[i].t;
      assert TaskOk(cfg, states[i], t);
      RecordIsNoPointer(TaskOf(states[i], t).skill.name, TaskOf(states[i], t).version, name);
    }
  }

  /** What a pointer write made live stays live until the next approval or revocation of that name. */
  lemma {:induction false} PointerStays(cfg: Config, states: seq<State>, actions: seq<Action>, j: nat, k: nat, t: Tid)
    requires IsRun(cfg, states, actions) && j < k < |states| && actions[j] == WritePointer(t)
    requires TaskOf(states[j], t).Pointing?
    requires var name := TaskOf(states[j], t).skill.name;
             forall i | j < i < k :: !MovesPointer(states, actions, i, name)
    ensures var skill := TaskOf(states[j], t).skill;
            PointerKey(skill.name) in states[k].approved && states[k].approved[PointerKey(skill.name)] == skill.body
  {
    if k == j + 1 {
      assert Follows(cfg, states, actions, j);
    } else {
      PointerStays(cfg, states, actions, j, k - 1, t);
      StepPointer(cfg, states, actions, k - 1, TaskOf(states[j], t).skill.name);
    }
  }

  /** A proposal's document is in its proposer's queue, under its version. */
  predicate Filed(cfg: Config, s: State, a: Action)
    requires a.Propose?
  {
    var document := Format(a.name, a.description, a.body, Some(a.proposer));
    var key := RecordKey(a.name, cfg.hash(document));
    key in Queue(s, a.proposer) && Queue(s, a.proposer)[key] == document
  }

  lemma SameKeySameDocument(cfg: Config, n: string, d: string, n': string, d': string)
    requires ValidConfig(cfg) && d in cfg.corpus && d' in cfg.corpus
    requires RecordKey(n, cfg.hash(d)) == RecordKey(n', cfg.hash(d'))
    ensures d == d'
  {
    HexFile(cfg.hash(d));
    HexFile(cfg.hash(d'));
    RecordKeys(n, cfg.hash(d), n', cfg.hash(d'));
  }

  lemma StepKeepsFiled(cfg: Config, s: State, a: Action, b: Action)
    requires ValidConfig(cfg) && a.Propose? && Enabled(cfg, s, a) && Enabled(cfg, s, b) && Filed(cfg, s, a)
    ensures Filed(cfg, Step(cfg, s, b), a)
  {
    if b.Propose? {
      var d := Format(a.name, a.description, a.body, Some(a.proposer));
      var e := Format(b.name, b.description, b.body, Some(b.proposer));
      if RecordKey(a.name, cfg.hash(d)) == RecordKey(b.name, cfg.hash(e)) {
        SameKeySameDocument(cfg, a.name, d, b.name, e);
      }
    }
  }

  /** A filed proposal is never replaced by another document. */
  lemma {:induction false} ProposalStays(cfg: Config, states: seq<State>, actions: seq<Action>, i: nat, k: nat)
    requires IsRun(cfg, states, actions) && i < k < |states| && actions[i].Propose?
    ensures Filed(cfg, states[k], actions[i])
  {
    assert Follows(cfg, states, actions, i);
    assert Follows(cfg, states, actions, k - 1);
    if i < k - 1 {
      ProposalStays(cfg, states, actions, i, k - 1);
      StepKeepsFiled(cfg, states[k - 1], actions[i], actions[k - 1]);
    }
  }

  /** From its start to its pointer write an approval carries the skill it read. */
  lemma {:induction false} ApprovalCarries(cfg: Config, states: seq<State>, actions: seq<Action>, i: nat, k: nat, t: Tid)
    requires IsRun(cfg, states, actions) && i < k < |states|
    requires actions[i].StartApproval? && actions[i].t == t && CanRead(states[i], actions[i].proposed)
    requires forall m | i < m < k :: actions[m] != WritePointer(t)
    ensures Carries(TaskOf(states[k], t), actions[i].proposed.version, Read(cfg, states[i], actions[i].proposed))
  {
    assert Follows(cfg, states, actions, k - 1);
    if i < k - 1 {
      ApprovalCarries(cfg, states, actions, i, k - 1, t);
      StepCarries(cfg, states[k - 1], actions[k - 1], t);
    }
  }

  /** An approval under way, of this skill and version. */
  predicate Carries(task: Task, version: string, skill: Skill) {
    (task.Approving? || task.Pointing?) && task.skill == skill && task.version == version
  }

  lemma StepCarries(cfg: Config, s: State, a: Action, t: Tid)
    requires Enabled(cfg, s, a) && a != WritePointer(t)
    requires TaskOf(s, t).Approving? || TaskOf(s, t).Pointing?
    ensures var task := TaskOf(s, t); Carries(TaskOf(Step(cfg, s, a), t), task.version, task.skill)
  {
  }

  function Stated(field: Option<string>): Option<string> { if Given(field) then field else None }

  lemma ReadPlain(hash: Hash, name: string, description: Option<string>, body: string, proposer: string, fallback: Option<string>)
    requires !(FENCE <= body) && PlainFields(Fields(name, description, Some(proposer)))
    ensures var document := Format(name, description, body, Some(proposer));
            forall other :: ReadSkill(hash, document, other, fallback) ==
              Skill(name, document, hash(document), Stated(description), if proposer == "" then fallback else Some(proposer))
  {
    var fields := Fields(name, description, Some(proposer));
    FormatFields(name, description, body, Some(proposer));
    assert fields[0] == ("name", name);
    DictLookup(name, description, Some(proposer));
  }

  /**
   * What a rejection of a plain proposal files reads back as the proposal's own name, description
   * and proposer, and ends with the proposal.
   */
  lemma RejectedReads(hash: Hash, name: string, description: Option<string>, body: string, proposer: string,
                      fallback: Option<string>, other: string, reviewer: string, reason: string)
    requires !(FENCE <= body) && PlainFields(Fields(name, description, Some(proposer))) && proposer != ""
    requires OnlyLineFeeds(reviewer) && OnlyLineFeeds(reason)
    requires OnlyLineFeeds(Format(name, description, body, Some(proposer)))
    ensures var document := Format(name, description, body, Some(proposer));
            var note := RejectionNote(ReadSkill(hash, document, other, fallback), reviewer, reason);
            Parse(note).0 == Parse(document).0
            && (document != "" ==>
                  Parse(note).1 == "REJECTED by " + reviewer + "\n\nReason: " + reason + "\n\n---\n\n" + Chomp(document))
  {
    var document := Format(name, description, body, Some(proposer));
    ReadPlain(hash, name, description, body, proposer, fallback);
    FormatFields(name, description, body, Some(proposer));
    assert Fields(name, Stated(description), Some(proposer)) == Fields(name, description, Some(proposer));
    RejectionRoundTrip(name, Stated(description), Some(proposer), reviewer, reason, document);
  }

  lemma DictLookup(name: string, description: Option<string>, proposer: Option<string>)
    ensures var meta := AsMap(Fields(name, description, proposer));
            "name" in meta && meta["name"] == name
            && GetOr(meta, "description", None) == Stated(description)
            && forall fallback :: GetOr(meta, "proposed-by", fallback) == if Given(proposer) then proposer else fallback
  {
    var one := [("name", name)];
    var two := one + if Given(description) then [("description", description.value)] else [];
    var three := Fields(name, description, proposer);
    assert one[..0] == [];
    assert AsMap(one) == map["name" := name];
    if Given(description) { assert two[..1] == one; } else { assert two == one; }
    if Given(proposer) { assert three[..|three| - 1] == two; } else { assert three == two; }
  }

  /**
   * Propose, approve, load. A plain proposal at step `p`, whose approval by `t` starts at step
   * `q` and makes its pointer write at step `j`, is what `load` returns at every later state `k`
   * until the name is approved again or revoked: the reviewed document, with the proposer's own
   * name, description and version.
   */
  lemma ApprovedIsLoaded(cfg: Config, states: seq<State>, actions: seq<Action>, p: nat, q: nat, j: nat, k: nat, t: Tid)
    requires IsRun(cfg, states, actions) && p < q < j < k < |states|
    requires actions[p].Propose?
    requires var a := actions[p];
             !(FENCE <= a.body) && PlainFields(Fields(a.name, a.description, Some(a.proposer)))
             && var document := Format(a.name, a.description, a.body, Some(a.proposer));
                actions[q] == StartApproval(t, ProposedSkill(a.proposer, a.name, cfg.hash(document)))
    requires actions[j] == WritePointer(t) && forall m | q < m < j :: actions[m] != WritePointer(t)
    requires forall m | j < m < k :: !MovesPointer(states, actions, m, actions[p].name)
    ensures var a := actions[p];
            var document := Format(a.name, a.description, a.body, Some(a.proposer));
            Load(cfg.hash, states[k].approved, a.name) ==
              Some(Skill(a.name, document, cfg.hash(document), Stated(a.description), Stated(Some(a.proposer))))
  {
    var a := actions[p];
    var document := Format(a.name, a.description, a.body, Some(a.proposer));
    ProposalStays(cfg, states, actions, p, q);
    assert Follows(cfg, states, actions, q);
    ApprovalCarries(cfg, states, actions, q, j, t);
    assert Follows(cfg, states, actions, j);
    ReadPlain(cfg.hash, a.name, a.description, a.body, a.proposer, Some(a.proposer));
    PointerStays(cfg, states, actions, j, k, t);
    ReadPlain(cfg.hash, a.name, a.description, a.body, a.proposer, None);
  }

  /**
   * Under a slash-free, non-empty name the proposal is in its proposer's listing from then on: in
   * the whole one, and, of those of one slash-free name, in that of its own name only.
   */
  lemma ProposedIsListed(cfg: Config, states: seq<State>, actions: seq<Action>, i: nat, k: nat, asked: Option<string>)
    requires IsRun(cfg, states, actions) && i < k < |states| && actions[i].Propose?
    requires actions[i].name != "" && '/' !in actions[i].name
    requires Given(asked) ==> '/' !in asked.value
    ensures var a := actions[i];
            var v := cfg.hash(Format(a.name, a.description, a.body, Some(a.proposer)));
            IsPending(Queue(states[k], a.proposer), a.proposer, asked, ProposedSkill(a.proposer, a.name, v))
            <==> !Given(asked) || asked.value == a.name
  {
    var a := actions[i];
    var v := cfg.hash(Format(a.name, a.description, a.body, Some(a.proposer)));
    ProposalStays(cfg, states, actions, i, k);
    HexFile(v);
    KeyPlain(a.name, v + MD);
    Regroup(a.name, "/", v, MD);
    if Given(asked) {
      ConsPrefix(asked.value, "", a.name, v + MD);
      assert asked.value + "/" + "" == asked.value + "/";
    }
  }

  /** Keys of the library are normalised, as `SkillLoading.LoadAllExact` wants them. */
  lemma KeysNormal(cfg: Config, states: seq<State>, actions: seq<Action>, k: nat)
    requires IsRun(cfg, states, actions) && k < |states|
    ensures forall key | key in states[k].approved :: key == "" || key[0] != '/'
  {
    RunInv(cfg, states, actions, k);
    forall key | key in states[k].approved ensures key == "" || key[0] != '/' {
      var document := states[k].approved[key];
      if Record(cfg, key, document) {
        var n :| key == RecordKey(n, cfg.hash(document));
      } else {
        var n :| key == PointerKey(n);
      }
    }
  }

  // ------------------------------------------------------------------------- attribution

  /**
   * A document found in the queue of `p` is shown as filed by `p` exactly when the last line of its
   * header that states a proposer, if there is one, states `p`.
   */
  lemma AttributionIff(hash: Hash, document: string, name: string, p: string)
    ensures ReadSkill(hash, document, name, Some(p)).proposer == Some(p) <==>
            forall i | LastSays(Header(document), "proposed-by", i) :: Entry(Header(document)[i]).value.1 == p
  {
    HeaderEntries(document);
    EntriesAre(Header(document), "proposed-by");
  }

  /** What `propose` filed is, when it wrote the header itself, exactly for a proposer it can write. */
  lemma FiledAttribution(hash: Hash, name: string, description: Option<string>, body: string, p: string, other: string)
    requires !(FENCE <= body) && OneLineFields(Fields(name, description, Some(p)))
    ensures ReadSkill(hash, Format(name, description, body, Some(p)), other, Some(p)).proposer == Some(p) <==>
            p == "" || Plain(p)
  {
    var fields := Fields(name, description, Some(p));
    FormatReadBack(name, description, body, Some(p));
    if p != "" {
      var n := |fields| - 1;
      assert fields[n] == ("proposed-by", p) && fields[n] in fields;
    } else {
      NoneReadBack(fields, "proposed-by");
    }
  }

  lemma {:induction false} NoneReadBack(fields: seq<(string, string)>, key: string)
    requires forall f | f in fields :: f.0 != key
    ensures key !in ReadBack(fields)
  {
    if fields != [] {
      assert fields[|fields| - 1] in fields;
      NoneReadBack(fields[..|fields| - 1], key);
    }
  }

  /** But a body with a header of its own is filed as it is, and is shown as whosever it says. */
  lemma BorrowedAttribution(hash: Hash, name: string, p: string, stated: string, other: string)
    requires Plain(stated)
    ensures var body := Document([("proposed-by", stated)], "steps");
            ReadSkill(hash, Format(name, None, body, Some(p)), other, Some(p)).proposer == Some(stated)
  {
    var fields := [("proposed-by", stated)];
    assert PlainKey("proposed-by") && OneLine("proposed-by");
    DocumentFenced(fields, "steps");
    DocumentRoundTrip(fields, "steps");
    assert fields[..0] == [];
    assert AsMap(fields) == map["proposed-by" := stated];
    assert OnlyLineFeeds("steps");
  }

  // --------------------------------------------------------------- the precondition that matters

  /**
   * The two writes of an approval leave the pointer with a record of its own version exactly when
   * the record was filed under that version, or stood there already. By `ProposalVersion` that is
   * so whenever the version picked has no slash in it.
   */
  lemma ApprovalBacksPointer(cfg: Config, approved: map<string, string>, name: string, document: string, version: string)
    requires ValidConfig(cfg)
    ensures var after := approved[RecordKey(name, version) := document][PointerKey(name) := document];
            Backed(cfg, after, name, document) <==>
            RecordKey(name, version) == RecordKey(name, cfg.hash(document)) || Backed(cfg, approved, name, document)
  {
    RecordIsNoPointer(name, cfg.hash(document), name);
  }

  /** The keys of a skill: its version records, and the pointer that makes it live. */
  lemma KeysAre(name: string, v: string)
    requires name != "" && name[0] != '/'
    ensures RecordKey(name, v) == name + "/" + (v + ".md") && PointerKey(name) == name + "/SKILL.md"
  {
    KeyPlain(name, v + ".md");
    KeyPlain(name, "SKILL.md");
    assert name + "/" + "SKILL.md" == name + "/SKILL.md";
  }

  lemma KeyPlain(name: string, file: string)
    requires name != "" && name[0] != '/'
    ensures Key(name, file) == name + "/" + file
  {
  }

  /** A version record of a/b is also found under a, as version b/v; its own copy under a/b is another key. */
  lemma SlashedKeys(a: string, b: string, v: string)
    requires a != "" && a[0] != '/' && HexVersion(v)
    ensures RecordKey(a, b + "/" + v) == RecordKey(a + "/" + b, v)
    ensures RecordKey(a + "/" + b, v) != RecordKey(a + "/" + b, b + "/" + v)
    ensures RecordKey(a + "/" + b, v) != PointerKey(a + "/" + b)
  {
    var name := a + "/" + b;
    KeyPlain(a, b + "/" + v + MD);
    KeyPlain(name, v + MD);
    KeyPlain(name, b + "/" + v + MD);
    RecordIsNoPointer(name, v, name);
    assert a + "/" + (b + "/" + v + MD) == name + "/" + (v + MD);
    assert |name + "/" + (v + MD)| < |name + "/" + (b + "/" + v + MD)|;
  }

  /**
   * Approving the proposal of a/b under that other reading makes a/b live without a record of its
   * version: the name comes from the document, the version from the call.
   */
  lemma SlashedApproval(hash: Hash, a: string, b: string, body: string, proposer: string)
    requires a != "" && a[0] != '/' && Plain(a + "/" + b) && Plain(proposer) && !(FENCE <= body)
    requires HexVersion(hash(Format(a + "/" + b, None, body, Some(proposer))))
    ensures var name := a + "/" + b;
            var document := Format(name, None, body, Some(proposer));
            var v := hash(document);
            var read := ReadSkill(hash, document, a, Some(proposer));
            && RecordKey(a, b + "/" + v) == RecordKey(name, v) && read.name == name && read.version == v
            && RecordKey(name, v) !in map[][RecordKey(name, b + "/" + v) := document][PointerKey(name) := document]
  {
    var name := a + "/" + b;
    SlashedKeys(a, b, hash(Format(name, None, body, Some(proposer))));
    ReadPlain(hash, name, None, body, proposer, Some(proposer));
  }

  /** One such proposal. */
  lemma SlashedApprovalHappens()
    ensures var hash: Hash := (d: string) => "0123456789ab";
            var document := Format("a/b", None, "steps", Some("p"));
            "a" + "/" + "b" == "a/b" && Plain("a/b") && Plain("p") && !(FENCE <= "steps") && HexVersion(hash(document))
  {
    assert FENCE[0] != "steps"[0];
  }
}
