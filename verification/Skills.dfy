/** Governed skills: proposals, the approved library and the rejections, as content-addressed objects. */
module Skills {
  import opened Basics
  import opened Text
  import opened Ordering
  import opened Objects
  import opened Frontmatter

  const SKILL_FILE := "SKILL.md"
  const MD := ".md"

  datatype Skill = Skill(name: string, body: string, version: string, description: Option<string>, proposer: Option<string>)

  datatype ProposedSkill = ProposedSkill(proposer: string, name: string, version: string)

  /** `version_of`: twelve hexadecimal digits of the document's hash. */
  type Hash = string -> string

  predicate HexVersion(v: string) { |v| == 12 && forall c | c in v :: '0' <= c <= '9' || 'a' <= c <= 'f' }

  predicate PathSafeChar(c: char) {
    'A' <= c <= 'Z' || 'a' <= c <= 'z' || '0' <= c <= '9' || c == '.' || c == '_' || c == '~' || c == '@' || c == '-'
  }

  /** A principal id reduced to a table name; different principals may share one. */
  function PathSafe(principal: string): (r: string)
    ensures r != "" && forall c | c in r :: PathSafeChar(c)
    ensures principal != "" ==> |r| == |principal|
    ensures r == principal <==> principal != "" && forall c | c in principal :: PathSafeChar(c)
    ensures forall i | 0 <= i < |principal| && i < |r| :: r[i] == principal[i] || (r[i] == '_' && !PathSafeChar(principal[i]))
    ensures principal == "" ==> r == "unknown"
  {
    if principal == "" then "unknown"
    else
      var r := seq(|principal|, i requires 0 <= i < |principal| => if PathSafeChar(principal[i]) then principal[i] else '_');
      assert forall i | 0 <= i < |principal| :: PathSafeChar(principal[i]) <==> r[i] == principal[i];
      r
  }

  /** The key of a file kept under a skill's name. */
  function Key(name: string, file: string): string { Name(name + "/" + file) }

  function RecordKey(name: string, version: string): string { Key(name, version + MD) }

  function PointerKey(name: string): string { Key(name, SKILL_FILE) }

  function GetOr(meta: map<string, string>, key: string, default: Option<string>): Option<string> {
    if key in meta then Some(meta[key]) else default
  }

  /** A skill read back from its document. */
  function ReadSkill(hash: Hash, document: string, name: string, proposer: Option<string>): Skill {
    var meta := Parse(document).0;
    Skill(if "name" in meta then meta["name"] else name, document, hash(document),
          GetOr(meta, "description", None), GetOr(meta, "proposed-by", proposer))
  }

  function Load(hash: Hash, approved: map<string, string>, name: string): Option<Skill> {
    var key := PointerKey(name);
    if key in approved then Some(ReadSkill(hash, approved[key], name, None)) else None
  }

  predicate EndsWith(s: string, suffix: string) { |suffix| <= |s| && s[|s| - |suffix|..] == suffix }

  function FirstSegment(key: string): string { key[..IndexOf(key, '/')] }

  /** Each first segment of a live pointer's key, once, in order. There is one such list. */
  ghost predicate NameList(approved: map<string, string>, names: seq<string>) {
    && Ascending(names, StringLe)
    && forall n :: n in names <==>
         exists key | key in approved :: EndsWith(key, "/" + SKILL_FILE) && FirstSegment(key) == n
  }

  /** One skill for each listed name, in the order of the list. */
  ghost predicate LoadedFrom(hash: Hash, approved: map<string, string>, names: seq<string>, skills: seq<Skill>) {
    |skills| == |names| && forall i | 0 <= i < |names| :: Load(hash, approved, names[i]) == Some(skills[i])
  }

  /** A proposal queue's entry for a key, if the key is one `propose` writes. */
  function QueueEntry(filedBy: string, key: string): Option<ProposedSkill> {
    var parts := Split(key, '/');
    if |parts| != 2 || !EndsWith(parts[1], MD) then None
    else Some(ProposedSkill(filedBy, parts[0], parts[1][..|parts[1]| - |MD|]))
  }

  function ProposalTuple(p: ProposedSkill): seq<string> { [p.proposer, p.name, p.version] }

  predicate ProposalLe(p: ProposedSkill, q: ProposedSkill) { TupleLe(ProposalTuple(p), ProposalTuple(q)) }

  /** What is filed when a skill is refused. */
  function RejectionNote(skill: Skill, reviewer: string, reason: string): string {
    Format(skill.name, skill.description, RejectionBody(reviewer, reason, skill.body), skill.proposer)
  }

  /** A proposer's own queue; a table nobody has written to is empty. */
  function QueueIn(queues: map<string, map<string, string>>, proposer: string): map<string, string> {
    var table := PathSafe(proposer);
    if table in queues then queues[table] else map[]
  }

  /** The tables every store of the catalog shares. */
  class Library {
    var queues: map<string, map<string, string>>
    var approved: map<string, string>
    var rejected: map<string, string>

    constructor ()
      ensures queues == map[] && approved == map[] && rejected == map[]
    {
      queues, approved, rejected := map[], map[], map[];
    }

    function Queue(proposer: string): map<string, string>
      reads this
    {
      QueueIn(queues, proposer)
    }
  }

  /** `objects().list(prefix)`: the keys under a prefix, in the storage's own order. */
  method ListKeys(objects: map<string, string>, prefix: string) returns (keys: seq<string>)
    ensures forall k :: k in keys <==> k in objects && Name(prefix) <= k
    ensures Unrepeated(keys)
  {
    keys := [];
    var left := objects.Keys;
    while left != {}
      invariant left <= objects.Keys
      invariant forall k :: k in keys <==> k in objects && k !in left && Name(prefix) <= k
      invariant Unrepeated(keys)
    {
      var k :| k in left;
      left := left - {k};
      if Name(prefix) <= k {
        keys := keys + [k];
      }
    }
  }

  class SkillStore {
    const library: Library
    const hash: Hash
    const proposer: string

    constructor (library: Library, hash: Hash, proposer: string)
      ensures this.library == library && this.hash == hash && this.proposer == proposer
    {
      this.library, this.hash, this.proposer := library, hash, proposer;
    }

    method Propose(name: string, body: string, description: Option<string>) returns (skill: Skill)
      modifies library`queues
      ensures var document := Format(name, description, body, Some(proposer));
              skill == Skill(name, document, hash(document), description, Some(proposer))
              && library.queues == old(library.queues)[
                   PathSafe(proposer) := old(library.Queue(proposer))[RecordKey(name, hash(document)) := document]]
    {
      var document := Format(name, description, body, Some(proposer));
      var version := hash(document);
      var queue := library.Queue(proposer)[RecordKey(name, version) := document];
      library.queues := library.queues[PathSafe(proposer) := queue];
      skill := Skill(name, document, version, description, Some(proposer));
    }

    /** Whose queue is meant: the one asked for, else our own. */
    function FiledBy(asked: Option<string>): string { if Given(asked) then asked.value else proposer }

    /** One queue's pending versions: exactly the keys of the form name/version.md, in order. */
    method ListProposed(name: Option<string>, asked: Option<string>) returns (found: seq<ProposedSkill>)
      ensures var filedBy := if asked.Some? && asked.value != "" then asked.value else proposer;
              forall p :: p in found <==> IsPending(library.Queue(filedBy), filedBy, name, p)
      ensures Ascending(found, ProposalLe)
    {
      var filedBy := FiledBy(asked);
      var queue := library.Queue(filedBy);
      var keys := ListKeys(queue, if Given(name) then name.value + "/" else "");
      var entries := [];
      for i := 0 to |keys|
        invariant entries == QueueEntries(filedBy, keys[..i])
      {
        assert keys[..i + 1][..i] == keys[..i];
        var entry := QueueEntry(filedBy, keys[i]);
        if entry.Some? {
          entries := entries + [entry.value];
        }
      }
      assert keys[..|keys|] == keys;
      found := Sort(entries, ProposalLe);
      QueueEntriesAre(filedBy, keys);
      SortedEntries(entries);
      ListedArePending(queue, filedBy, name, keys, found);
    }

    method ReadProposed(proposed: ProposedSkill) returns (skill: Option<Skill>)
      ensures var key := RecordKey(proposed.name, proposed.version);
              skill == if key in library.Queue(proposed.proposer)
                       then Some(ReadSkill(hash, library.Queue(proposed.proposer)[key], proposed.name, Some(proposed.proposer)))
                       else None
    {
      var queue := library.Queue(proposed.proposer);
      var key := RecordKey(proposed.name, proposed.version);
      if key !in queue {
        return None;
      }
      skill := Some(ReadSkill(hash, queue[key], proposed.name, Some(proposed.proposer)));
    }

    /** Two writes: the version record, then the pointer. */
    method Approve(proposed: ProposedSkill) returns (skill: Option<Skill>)
      modifies library`approved
      ensures skill == None ==> library.approved == old(library.approved)
      ensures skill.Some? ==>
                library.approved == old(library.approved)
                  [RecordKey(skill.value.name, proposed.version) := skill.value.body]
                  [PointerKey(skill.value.name) := skill.value.body]
      ensures skill.Some? <==> RecordKey(proposed.name, proposed.version) in library.Queue(proposed.proposer)
      ensures skill.Some? ==>
                skill.value == ReadSkill(hash, library.Queue(proposed.proposer)[RecordKey(proposed.name, proposed.version)],
                                         proposed.name, Some(proposed.proposer))
    {
      skill := ReadProposed(proposed);
      if skill.Some? {
        library.approved := library.approved[RecordKey(skill.value.name, proposed.version) := skill.value.body];
        library.approved := library.approved[PointerKey(skill.value.name) := skill.value.body];
      }
    }

    method Revoke(name: string)
      modifies library`approved
      ensures library.approved == old(library.approved) - {PointerKey(name)}
    {
      library.approved := library.approved - {PointerKey(name)};
    }

    /** Names with a live pointer, sorted, each once. */
    method List() returns (names: seq<string>)
      ensures NameList(library.approved, names)
    {
      var keys := ListKeys(library.approved, "");
      var found := [];
      for i := 0 to |keys|
        invariant forall n :: n in found <==>
                    exists k | 0 <= k < i :: EndsWith(keys[k], "/" + SKILL_FILE) && FirstSegment(keys[k]) == n
      {
        if EndsWith(keys[i], "/" + SKILL_FILE) {
          found := found + [FirstSegment(keys[i])];
        }
      }
      names := Sort(Distinct(found), StringLe);
      StringOrder();
      SortDistinct(found, StringLe);
    }

    /** Every listed skill, or None when one of them cannot be loaded. */
    method LoadAll() returns (skills: Option<seq<Skill>>)
      ensures skills.Some? <==>
                forall key | key in library.approved && EndsWith(key, "/" + SKILL_FILE) ::
                  Load(hash, library.approved, FirstSegment(key)).Some?
      ensures skills.Some? ==>
                exists names :: NameList(library.approved, names) && LoadedFrom(hash, library.approved, names, skills.value)
    {
      var names := List();
      var loaded := [];
      for i := 0 to |names|
        invariant LoadedFrom(hash, library.approved, names[..i], loaded)
      {
        var s := Load(hash, library.approved, names[i]);
        if s == None {
          assert names[i] in names;
          return None;
        }
        loaded := loaded + [s.value];
      }
      assert names[..|names|] == names;
      skills := Some(loaded);
      forall key | key in library.approved && EndsWith(key, "/" + SKILL_FILE)
        ensures Load(hash, library.approved, FirstSegment(key)).Some?
      {
        assert FirstSegment(key) in names;
        var i :| 0 <= i < |names| && names[i] == FirstSegment(key);
        assert Load(hash, library.approved, names[i]) == Some(loaded[i]);
      }
    }

    /** A note saying who refused the proposal and why, with the refused document inside it. */
    method Reject(proposed: ProposedSkill, reason: string) returns (skill: Option<Skill>)
      modifies library`rejected
      ensures skill == None ==> library.rejected == old(library.rejected)
      ensures skill.Some? <==> RecordKey(proposed.name, proposed.version) in library.Queue(proposed.proposer)
      ensures skill.Some? ==>
                skill.value == ReadSkill(hash, library.Queue(proposed.proposer)[RecordKey(proposed.name, proposed.version)],
                                         proposed.name, Some(proposed.proposer))
      ensures skill.Some? ==>
                library.rejected == old(library.rejected)[
                  RecordKey(skill.value.name, proposed.version) := RejectionNote(skill.value, proposer, reason)]
    {
      skill := ReadProposed(proposed);
      if skill.Some? {
        var s := skill.value;
        library.rejected := library.rejected[RecordKey(s.name, proposed.version) := RejectionNote(s, proposer, reason)];
      }
    }
  }

  /** Letters, digits, dot, underscore, tilde, at and hyphen: nothing that could leave the table's directory. */
  lemma SafeChars(c: char)
    ensures PathSafeChar(c) <==>
            var u := c as int;
            || 0x30 <= u <= 0x39 || 0x41 <= u <= 0x5A || 0x61 <= u <= 0x7A
            || u == 0x2E || u == 0x5F || u == 0x7E || u == 0x40 || u == 0x2D
  {
  }

  /** Listings are in order of name, then of version. */
  lemma ProposalOrder(p: ProposedSkill, q: ProposedSkill)
    requires p.proposer == q.proposer
    ensures ProposalLe(p, q) <==> if p.name == q.name then StringLe(p.version, q.version) else StringLe(p.name, q.name)
  {
    var a, b := ProposalTuple(p), ProposalTuple(q);
    TupleLeIs(a, b);
    assert a[1..] == [p.name, p.version] && b[1..] == [q.name, q.version];
    TupleLeIs(a[1..], b[1..]);
    assert a[1..][1..] == [p.version] && b[1..][1..] == [q.version];
    if p.name == q.name {
      TupleLeIs([p.version], [q.version]);
      if p.version == q.version { StringSelf(p.version); }
    }
  }

  lemma {:induction false} StringSelf(s: string)
    ensures StringLe(s, s)
  {
    if s != "" { StringSelf(s[1..]); }
  }

  /** A document without a header is the skill of the name asked for, filed by the queue's owner, if any. */
  lemma ReadHeaderless(hash: Hash, document: string, name: string, proposer: Option<string>)
    requires !("---" <= document)
    ensures ReadSkill(hash, document, name, proposer) == Skill(name, document, hash(document), None, proposer)
  {
  }

  lemma TwoParts(key: string, parts: seq<string>)
    requires parts == Split(key, '/') && |parts| == 2
    ensures key == parts[0] + "/" + parts[1] && '/' !in parts[0] && '/' !in parts[1]
  {
    JoinSplit(key, '/');
    SplitFree(key, '/');
    assert parts[0] in parts && parts[1] in parts;
    assert parts == [parts[0]] + [parts[1]];
    JoinCons(parts[0], [parts[1]], '/');
    JoinOne(parts[1], '/');
  }

  lemma SplitTwo(a: string, b: string)
    requires '/' !in a && '/' !in b
    ensures Split(a + "/" + b, '/') == [a, b]
  {
    SplitCons(a, '/', b);
    SplitWhole(b, '/');
    assert a + "/" + b == a + ['/'] + b;
  }

  lemma MdStem(file: string, stem: string)
    ensures EndsWith(file, MD) && file[..|file| - |MD|] == stem <==> file == stem + MD
  {
    if EndsWith(file, MD) { assert file == file[..|file| - |MD|] + MD; }
  }

  function EntryKey(p: ProposedSkill): string { p.name + "/" + p.version + MD }

  predicate IsEntry(filedBy: string, key: string, p: ProposedSkill) {
    p.proposer == filedBy && '/' !in p.name && '/' !in p.version && key == EntryKey(p)
  }

  lemma EntryFound(filedBy: string, key: string, p: ProposedSkill)
    requires IsEntry(filedBy, key, p)
    ensures QueueEntry(filedBy, key) == Some(p)
  {
    var file := p.version + MD;
    Regroup(p.name, "/", p.version, MD);
    SplitTwo(p.name, file);
    MdStem(file, p.version);
  }

  lemma EntryMeans(filedBy: string, key: string, p: ProposedSkill)
    requires QueueEntry(filedBy, key) == Some(p)
    ensures IsEntry(filedBy, key, p)
  {
    var parts := Split(key, '/');
    TwoParts(key, parts);
    MdStem(parts[1], p.version);
    NotInFront('/', p.version, MD);
    Regroup(p.name, "/", p.version, MD);
  }

  lemma NotInFront(c: char, a: string, b: string)
    requires c !in a + b
    ensures c !in a
  {
    forall i | 0 <= i < |a| ensures a[i] != c { assert (a + b)[i] == a[i]; }
  }

  lemma Regroup(a: string, b: string, c: string, d: string)
    ensures a + b + (c + d) == a + b + c + d
  {
  }

  /** A queue key stands for one entry: the name before its only slash and the version after it. */
  lemma QueueEntryIs(filedBy: string, key: string, p: ProposedSkill)
    ensures QueueEntry(filedBy, key) == Some(p) <==> IsEntry(filedBy, key, p)
  {
    if QueueEntry(filedBy, key) == Some(p) { EntryMeans(filedBy, key, p); }
    if IsEntry(filedBy, key, p) { EntryFound(filedBy, key, p); }
  }

  /** The entries among some keys, in the order of the keys. */
  function QueueEntries(filedBy: string, keys: seq<string>): seq<ProposedSkill> {
    if keys == [] then [] else
      var entry := QueueEntry(filedBy, keys[|keys| - 1]);
      QueueEntries(filedBy, keys[..|keys| - 1]) + if entry.Some? then [entry.value] else []
  }

  lemma {:induction false} QueueEntriesAre(filedBy: string, keys: seq<string>)
    requires Unrepeated(keys)
    ensures forall p :: p in QueueEntries(filedBy, keys) <==> IsEntry(filedBy, EntryKey(p), p) && EntryKey(p) in keys
    ensures Unrepeated(QueueEntries(filedBy, keys))
  {
    if keys != [] {
      var n := |keys| - 1;
      QueueEntriesAre(filedBy, keys[..n]);
      assert keys == keys[..n] + [keys[n]];
      assert keys[n] !in keys[..n];
      forall p ensures QueueEntry(filedBy, keys[n]) == Some(p) <==> IsEntry(filedBy, EntryKey(p), p) && EntryKey(p) == keys[n] {
        QueueEntryIs(filedBy, keys[n], p);
      }
      var before, entry := QueueEntries(filedBy, keys[..n]), QueueEntry(filedBy, keys[n]);
      if entry.Some? {
        QueueEntryIs(filedBy, keys[n], entry.value);
        assert entry.value !in before;
      }
    }
  }

  /** A pending version in a queue: filed under name/version.md, and of the name asked for, if any. */
  predicate IsPending(queue: map<string, string>, filedBy: string, name: Option<string>, p: ProposedSkill) {
    && p.proposer == filedBy && '/' !in p.name && '/' !in p.version && EntryKey(p) in queue
    && (Given(name) ==> Name(name.value + "/") <= EntryKey(p))
  }

  lemma ListedArePending(queue: map<string, string>, filedBy: string, name: Option<string>, keys: seq<string>, found: seq<ProposedSkill>)
    requires forall k :: k in keys <==> k in queue && Name(if Given(name) then name.value + "/" else "") <= k
    requires forall p :: p in found <==> IsEntry(filedBy, EntryKey(p), p) && EntryKey(p) in keys
    ensures forall p :: p in found <==> IsPending(queue, filedBy, name, p)
  {
  }

  lemma SortedEntries(entries: seq<ProposedSkill>)
    requires Unrepeated(entries)
    ensures Ascending(Sort(entries, ProposalLe), ProposalLe)
    ensures forall p :: p in Sort(entries, ProposalLe) <==> p in entries
  {
    TupleOrder();
    assert forall p, q :: ProposalTuple(p) == ProposalTuple(q) ==> p == q by {
      forall p, q | ProposalTuple(p) == ProposalTuple(q) ensures p == q {
        assert ProposalTuple(p)[0] == p.proposer && ProposalTuple(p)[1] == p.name && ProposalTuple(p)[2] == p.version;
      }
    }
    SortSorts(entries, ProposalLe);
    SortContents(entries, ProposalLe);
    SameContents(Sort(entries, ProposalLe), entries);
    NoRepeats(entries, Sort(entries, ProposalLe));
  }
}
