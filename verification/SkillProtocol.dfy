/**
 * Proposers and reviewers at work on one skill library. An approval is three steps (read the
 * proposal, write the version record, write the pointer), and the steps of any number of
 * approvals, rejections, revocations and proposals interleave.
 */
module SkillProtocol {
  import opened Basics
  import opened Text
  import opened Objects
  import opened Frontmatter
  import opened Skills

  type Tid = int

  /** `corpus` holds the documents ever proposed; versions tell those apart. */
  datatype Config = Config(hash: Hash, corpus: set<string>)

  ghost predicate ValidConfig(cfg: Config) {
    && (forall d :: HexVersion(cfg.hash(d)))
    && (forall d, d' | d in cfg.corpus && d' in cfg.corpus && cfg.hash(d) == cfg.hash(d') :: d == d')
  }

  /** What a reviewer is in the middle of. */
  datatype Task =
    | Free
    | Approving(version: string, skill: Skill)
    | Pointing(version: string, skill: Skill)
    | Rejecting(version: string, skill: Skill, reason: string)

  datatype State = State(
    queues: map<string, map<string, string>>,
    approved: map<string, string>,
    rejected: map<string, string>,
    tasks: map<Tid, Task>)

  datatype Action =
    | Propose(proposer: string, name: string, body: string, description: Option<string>)
    | StartApproval(t: Tid, proposed: ProposedSkill)
    | WriteRecord(t: Tid)
    | WritePointer(t: Tid)
    | StartRejection(t: Tid, proposed: ProposedSkill, reason: string)
    | WriteRejection(t: Tid, reviewer: string)
    | Revoke(name: string)

  function TaskOf(s: State, t: Tid): Task { if t in s.tasks then s.tasks[t] else Free }

  function Queue(s: State, proposer: string): map<string, string> { QueueIn(s.queues, proposer) }

  function ProposalKey(p: ProposedSkill): string { RecordKey(p.name, p.version) }

  /** A reviewer picks a pending version, whose version therefore has no slash in it. */
  predicate CanRead(s: State, p: ProposedSkill) {
    '/' !in p.version && ProposalKey(p) in Queue(s, p.proposer)
  }

  predicate Enabled(cfg: Config, s: State, a: Action) {
    match a
    case Propose(proposer, name, body, description) =>
      Format(name, description, body, Some(proposer)) in cfg.corpus
    case StartApproval(t, p) => TaskOf(s, t).Free? && CanRead(s, p)
    case WriteRecord(t) => TaskOf(s, t).Approving?
    case WritePointer(t) => TaskOf(s, t).Pointing?
    case StartRejection(t, p, _) => TaskOf(s, t).Free? && CanRead(s, p)
    case WriteRejection(t, _) => TaskOf(s, t).Rejecting?
    case Revoke(_) => true
  }

  function Read(cfg: Config, s: State, p: ProposedSkill): Skill
    requires CanRead(s, p)
  {
    ReadSkill(cfg.hash, Queue(s, p.proposer)[ProposalKey(p)], p.name, Some(p.proposer))
  }

  function Step(cfg: Config, s: State, a: Action): State
    requires Enabled(cfg, s, a)
  {
    match a
    case Propose(proposer, name, body, description) =>
      var document := Format(name, description, body, Some(proposer));
      s.(queues := s.queues[PathSafe(proposer) := Queue(s, proposer)[RecordKey(name, cfg.hash(document)) := document]])
    case StartApproval(t, p) => s.(tasks := s.tasks[t := Approving(p.version, Read(cfg, s, p))])
    case WriteRecord(t) =>
      var task := TaskOf(s, t);
      s.(approved := s.approved[RecordKey(task.skill.name, task.version) := task.skill.body],
         tasks := s.tasks[t := Pointing(task.version, task.skill)])
    case WritePointer(t) =>
      var task := TaskOf(s, t);
      s.(approved := s.approved[PointerKey(task.skill.name) := task.skill.body], tasks := s.tasks[t := Free])
    case StartRejection(t, p, reason) => s.(tasks := s.tasks[t := Rejecting(p.version, Read(cfg, s, p), reason)])
    case WriteRejection(t, reviewer) =>
      var task := TaskOf(s, t);
      var note := RejectionNote(task.skill, reviewer, task.reason);
      s.(rejected := s.rejected[RecordKey(task.skill.name, task.version) := note], tasks := s.tasks[t := Free])
    case Revoke(name) => s.(approved := s.approved - {PointerKey(name)})
  }

  function Empty(): State { State(map[], map[], map[], map[]) }

  // ------------------------------------------------------------------------------ keys

  /** The part of a key before the file name. */
  function Dir(name: string): string { Name(name + "/") }

  lemma {:induction false} LStripAppend(a: string, b: string)
    requires b != "" && b[0] != '/'
    ensures LStrip(a + b, '/') == LStrip(a, '/') + b
  {
    if a != "" && a[0] == '/' {
      LStripAppend(a[1..], b);
      assert (a + b)[1..] == a[1..] + b;
    } else if a == "" {
      assert a + b == b;
    }
  }

  lemma DirShape(name: string)
    ensures Dir(name) == "" || Dir(name)[|Dir(name)| - 1] == '/'
  {
    var k := LStripSuffix(name + "/", '/');
  }

  lemma KeyIs(name: string, file: string)
    requires file != "" && '/' !in file
    ensures Key(name, file) == Dir(name) + file
  {
    LStripAppend(name + "/", file);
  }

  /** A directory without its closing slash, with an opening one. */
  function Stem(d: string): string { if d == "" then "" else "/" + d[..|d| - 1] }

  lemma StemIs(d: string, f: string)
    requires d == "" || d[|d| - 1] == '/'
    ensures "/" + (d + f) == Stem(d) + ['/'] + f
  {
    if d != "" { assert d == d[..|d| - 1] + ['/']; }
  }

  /** A key determines its file name and what stands before it. */
  lemma KeyUnique(n: string, f: string, n': string, f': string)
    requires f != "" && '/' !in f && f' != "" && '/' !in f'
    requires Key(n, f) == Key(n', f')
    ensures f == f' && Dir(n) == Dir(n')
  {
    KeyIs(n, f);
    KeyIs(n', f');
    DirShape(n);
    DirShape(n');
    StemIs(Dir(n), f);
    StemIs(Dir(n'), f');
    CutLastUnique(Stem(Dir(n)), f, Stem(Dir(n')), f', '/');
    assert (Dir(n) + f)[..|Dir(n)|] == Dir(n) && (Dir(n') + f')[..|Dir(n')|] == Dir(n');
  }

  lemma VersionFile(v: string)
    requires '/' !in v
    ensures '/' !in v + MD && v + MD != "" && (v + MD == SKILL_FILE ==> v == "SKILL")
  {
    if v + MD == SKILL_FILE { assert (v + MD)[..5] == v; assert SKILL_FILE[..5] == "SKILL"; }
  }

  lemma HexFile(v: string)
    requires HexVersion(v)
    ensures '/' !in v && v + MD != SKILL_FILE
  {
    assert |v + MD| == 15 && |SKILL_FILE| == 8;
  }

  /** Records of one version under one key have one version; records and pointers never meet. */
  lemma RecordKeys(n: string, v: string, n': string, v': string)
    requires '/' !in v && '/' !in v' && RecordKey(n, v) == RecordKey(n', v')
    ensures v == v'
  {
    VersionFile(v);
    VersionFile(v');
    KeyUnique(n, v + MD, n', v' + MD);
    assert (v + MD)[..|v|] == v && (v' + MD)[..|v'|] == v';
  }

  lemma RecordIsNoPointer(n: string, v: string, n': string)
    requires HexVersion(v)
    ensures RecordKey(n, v) != PointerKey(n')
  {
    HexFile(v);
    VersionFile(v);
    if RecordKey(n, v) == PointerKey(n') { KeyUnique(n, v + MD, n', SKILL_FILE); }
  }

  lemma SamePointerSameRecords(n: string, n': string, v: string)
    requires PointerKey(n) == PointerKey(n') && '/' !in v
    ensures RecordKey(n, v) == RecordKey(n', v)
  {
    KeyUnique(n, SKILL_FILE, n', SKILL_FILE);
    VersionFile(v);
    KeyIs(n, v + MD);
    KeyIs(n', v + MD);
  }

  // ------------------------------------------------------------------------- invariant

  /** The document is filed under a key that ends in its own version. */
  ghost predicate Record(cfg: Config, key: string, document: string) {
    document in cfg.corpus && exists name :: key == RecordKey(name, cfg.hash(document))
  }

  /** A live pointer holds a document whose version record stands next to it. */
  ghost predicate Pointer(cfg: Config, approved: map<string, string>, key: string, document: string) {
    document in cfg.corpus
    && exists name :: key == PointerKey(name) && Backed(cfg, approved, name, document)
  }

  predicate Backed(cfg: Config, approved: map<string, string>, name: string, document: string) {
    var record := RecordKey(name, cfg.hash(document));
    record in approved && approved[record] == document
  }

  ghost predicate QueuesOk(cfg: Config, s: State) {
    forall table | table in s.queues ::
      forall key | key in s.queues[table] :: Record(cfg, key, s.queues[table][key])
  }

  ghost predicate ApprovedOk(cfg: Config, approved: map<string, string>) {
    forall key | key in approved ::
      Record(cfg, key, approved[key]) || Pointer(cfg, approved, key, approved[key])
  }

  predicate TaskOk(cfg: Config, s: State, t: Tid) {
    match TaskOf(s, t)
    case Free => true
    case Approving(version, skill) => skill.body in cfg.corpus && cfg.hash(skill.body) == version
    case Pointing(version, skill) =>
      skill.body in cfg.corpus && cfg.hash(skill.body) == version && Backed(cfg, s.approved, skill.name, skill.body)
    case Rejecting(version, skill, _) => skill.body in cfg.corpus && cfg.hash(skill.body) == version
  }

  ghost predicate Inv(cfg: Config, s: State) {
    QueuesOk(cfg, s) && ApprovedOk(cfg, s.approved) && forall t :: TaskOk(cfg, s, t)
  }

  /** A proposal named by a slash-free version holds a document of that version, and only then. */
  lemma ProposalVersion(cfg: Config, s: State, p: ProposedSkill)
    requires ValidConfig(cfg) && QueuesOk(cfg, s) && ProposalKey(p) in Queue(s, p.proposer)
    ensures var document := Queue(s, p.proposer)[ProposalKey(p)];
            document in cfg.corpus && (cfg.hash(document) == p.version <==> '/' !in p.version)
  {
    var document := Queue(s, p.proposer)[ProposalKey(p)];
    assert Record(cfg, ProposalKey(p), document);
    var name :| ProposalKey(p) == RecordKey(name, cfg.hash(document));
    HexFile(cfg.hash(document));
    if '/' !in p.version { RecordKeys(p.name, p.version, name, cfg.hash(document)); }
  }

  /** Every version record stays, as it was. */
  ghost predicate RecordsKept(cfg: Config, before: map<string, string>, after: map<string, string>) {
    forall name, v | HexVersion(v) && RecordKey(name, v) in before ::
      RecordKey(name, v) in after && after[RecordKey(name, v)] == before[RecordKey(name, v)]
  }

  /** Whatever is filed under a version has that version. */
  lemma FiledVersion(cfg: Config, approved: map<string, string>, name: string, v: string)
    requires ValidConfig(cfg) && ApprovedOk(cfg, approved) && HexVersion(v) && RecordKey(name, v) in approved
    ensures var document := approved[RecordKey(name, v)]; document in cfg.corpus && cfg.hash(document) == v
  {
    var key := RecordKey(name, v);
    var document := approved[key];
    HexFile(v);
    if Record(cfg, key, document) {
      var n :| key == RecordKey(n, cfg.hash(document));
      HexFile(cfg.hash(document));
      RecordKeys(name, v, n, cfg.hash(document));
    } else {
      var n :| key == PointerKey(n);
      RecordIsNoPointer(name, v, n);
    }
  }

  lemma KeptBacks(cfg: Config, before: map<string, string>, after: map<string, string>, name: string, document: string)
    requires ValidConfig(cfg) && RecordsKept(cfg, before, after) && Backed(cfg, before, name, document)
    ensures Backed(cfg, after, name, document)
  {
  }

  // ----------------------------------------------------------------------------- steps

  lemma PutRecordKeeps(cfg: Config, approved: map<string, string>, name: string, document: string)
    requires ValidConfig(cfg) && ApprovedOk(cfg, approved) && document in cfg.corpus
    ensures var after := approved[RecordKey(name, cfg.hash(document)) := document];
            RecordsKept(cfg, approved, after) && Backed(cfg, after, name, document)
  {
    var v := cfg.hash(document);
    if RecordKey(name, v) in approved { FiledVersion(cfg, approved, name, v); }
  }

  lemma PointerStepKeeps(cfg: Config, approved: map<string, string>, name: string, document: string)
    requires ValidConfig(cfg)
    ensures RecordsKept(cfg, approved, approved[PointerKey(name) := document])
    ensures RecordsKept(cfg, approved, approved - {PointerKey(name)})
  {
    forall n, v | HexVersion(v) ensures RecordKey(n, v) != PointerKey(name) { RecordIsNoPointer(n, v, name); }
  }

  /** Pointers keep their records when no record changes. */
  lemma OthersStayOk(cfg: Config, before: map<string, string>, after: map<string, string>, key: string)
    requires ValidConfig(cfg) && RecordsKept(cfg, before, after) && key in before
    requires Record(cfg, key, before[key]) || Pointer(cfg, before, key, before[key])
    ensures Record(cfg, key, before[key]) || Pointer(cfg, after, key, before[key])
  {
    if !Record(cfg, key, before[key]) {
      var name :| key == PointerKey(name) && Backed(cfg, before, name, before[key]);
      KeptBacks(cfg, before, after, name, before[key]);
    }
  }

  lemma PutRecordOk(cfg: Config, approved: map<string, string>, name: string, document: string)
    requires ValidConfig(cfg) && ApprovedOk(cfg, approved) && document in cfg.corpus
    ensures ApprovedOk(cfg, approved[RecordKey(name, cfg.hash(document)) := document])
  {
    var added := RecordKey(name, cfg.hash(document));
    var after := approved[added := document];
    PutRecordKeeps(cfg, approved, name, document);
    forall key | key in after ensures Record(cfg, key, after[key]) || Pointer(cfg, after, key, after[key]) {
      if key != added { OthersStayOk(cfg, approved, after, key); }
    }
  }

  lemma PutPointerOk(cfg: Config, approved: map<string, string>, name: string, document: string)
    requires ValidConfig(cfg) && ApprovedOk(cfg, approved) && document in cfg.corpus
    requires Backed(cfg, approved, name, document)
    ensures ApprovedOk(cfg, approved[PointerKey(name) := document])
  {
    var added := PointerKey(name);
    var after := approved[added := document];
    PointerStepKeeps(cfg, approved, name, document);
    KeptBacks(cfg, approved, after, name, document);
    forall key | key in after ensures Record(cfg, key, after[key]) || Pointer(cfg, after, key, after[key]) {
      if key != added { OthersStayOk(cfg, approved, after, key); }
    }
  }

  lemma RevokeOk(cfg: Config, approved: map<string, string>, name: string)
    requires ValidConfig(cfg) && ApprovedOk(cfg, approved)
    ensures ApprovedOk(cfg, approved - {PointerKey(name)})
  {
    var after := approved - {PointerKey(name)};
    PointerStepKeeps(cfg, approved, name, "");
    forall key | key in after ensures Record(cfg, key, after[key]) || Pointer(cfg, after, key, after[key]) {
      OthersStayOk(cfg, approved, after, key);
    }
  }

  /** No step alters or removes a version record. */
  lemma StepKeepsRecords(cfg: Config, s: State, a: Action)
    requires ValidConfig(cfg) && Inv(cfg, s) && Enabled(cfg, s, a)
    ensures RecordsKept(cfg, s.approved, Step(cfg, s, a).approved)
  {
    match a
    case WriteRecord(t) =>
      assert TaskOk(cfg, s, t);
      PutRecordKeeps(cfg, s.approved, TaskOf(s, t).skill.name, TaskOf(s, t).skill.body);
    case WritePointer(t) => PointerStepKeeps(cfg, s.approved, TaskOf(s, t).skill.name, TaskOf(s, t).skill.body);
    case Revoke(name) => PointerStepKeeps(cfg, s.approved, name, "");
    case _ =>
  }

  lemma StepApproved(cfg: Config, s: State, a: Action)
    requires ValidConfig(cfg) && Inv(cfg, s) && Enabled(cfg, s, a)
    ensures ApprovedOk(cfg, Step(cfg, s, a).approved)
  {
    match a
    case WriteRecord(t) =>
      assert TaskOk(cfg, s, t);
      PutRecordOk(cfg, s.approved, TaskOf(s, t).skill.name, TaskOf(s, t).skill.body);
    case WritePointer(t) =>
      assert TaskOk(cfg, s, t);
      PutPointerOk(cfg, s.approved, TaskOf(s, t).skill.name, TaskOf(s, t).skill.body);
    case Revoke(name) => RevokeOk(cfg, s.approved, name);
    case _ =>
  }

  lemma StepQueues(cfg: Config, s: State, a: Action)
    requires ValidConfig(cfg) && QueuesOk(cfg, s) && Enabled(cfg, s, a)
    ensures QueuesOk(cfg, Step(cfg, s, a))
  {
    if a.Propose? {
      var document := Format(a.name, a.description, a.body, Some(a.proposer));
      var key := RecordKey(a.name, cfg.hash(document));
      assert Record(cfg, key, document);
    }
  }

  lemma StepTasks(cfg: Config, s: State, a: Action, t: Tid)
    requires ValidConfig(cfg) && Inv(cfg, s) && Enabled(cfg, s, a)
    ensures TaskOk(cfg, Step(cfg, s, a), t)
  {
    assert TaskOk(cfg, s, t);
    StepKeepsRecords(cfg, s, a);
    match a
    case StartApproval(_, p) => ProposalVersion(cfg, s, p);
    case StartRejection(_, p, _) => ProposalVersion(cfg, s, p);
    case WriteRecord(u) =>
      assert TaskOk(cfg, s, u);
      PutRecordKeeps(cfg, s.approved, TaskOf(s, u).skill.name, TaskOf(s, u).skill.body);
    case _ =>
  }

  lemma StepInv(cfg: Config, s: State, a: Action)
    requires ValidConfig(cfg) && Inv(cfg, s) && Enabled(cfg, s, a)
    ensures Inv(cfg, Step(cfg, s, a))
  {
    StepQueues(cfg, s, a);
    StepApproved(cfg, s, a);
    forall t ensures TaskOk(cfg, Step(cfg, s, a), t) { StepTasks(cfg, s, a, t); }
  }

  // ------------------------------------------------------------------------- one at a time

  /** Any free reviewer can start on any proposal there is; a skill can be revoked at any time. */
  lemma AnyoneCanStart(cfg: Config, s: State, t: Tid, p: ProposedSkill, reason: string, name: string)
    requires t !in s.tasks && '/' !in p.version && RecordKey(p.name, p.version) in Queue(s, p.proposer)
    ensures Enabled(cfg, s, StartApproval(t, p)) && Enabled(cfg, s, StartRejection(t, p, reason)) && Enabled(cfg, s, Revoke(name))
  {
  }

  /** The two steps of a rejection with nothing in between are the store's own `reject`. */
  lemma RejectionAlone(cfg: Config, s: State, t: Tid, p: ProposedSkill, reason: string, reviewer: string)
    requires Enabled(cfg, s, StartRejection(t, p, reason))
    ensures var read := Step(cfg, s, StartRejection(t, p, reason));
            Enabled(cfg, read, WriteRejection(t, reviewer)) && var done := Step(cfg, read, WriteRejection(t, reviewer));
            var skill := Read(cfg, s, p);
            && done.rejected == s.rejected[RecordKey(skill.name, p.version) := RejectionNote(skill, reviewer, reason)]
            && done.queues == s.queues && done.approved == s.approved && TaskOf(done, t).Free?
            && forall u :: u != t ==> TaskOf(done, u) == TaskOf(s, u)
  {
  }

  /** The three steps of an approval with nothing in between are the store's own `approve`. */
  lemma ApprovalAlone(cfg: Config, s: State, t: Tid, p: ProposedSkill)
    requires Enabled(cfg, s, StartApproval(t, p))
    ensures var read := Step(cfg, s, StartApproval(t, p));
            Enabled(cfg, read, WriteRecord(t)) && var filed := Step(cfg, read, WriteRecord(t));
            Enabled(cfg, filed, WritePointer(t)) && var done := Step(cfg, filed, WritePointer(t));
            var skill := Read(cfg, s, p);
            && done.approved == s.approved[RecordKey(skill.name, p.version) := skill.body][PointerKey(skill.name) := skill.body]
            && done.queues == s.queues && done.rejected == s.rejected && forall u :: u != t ==> TaskOf(done, u) == TaskOf(s, u)
  {
    var read := Step(cfg, s, StartApproval(t, p));
    var filed := Step(cfg, read, WriteRecord(t));
    assert TaskOf(filed, t) == Pointing(p.version, Read(cfg, s, p));
  }
}
