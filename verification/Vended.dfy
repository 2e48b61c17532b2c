/** Vended storage credentials: when they lapse, and the table object that reloads them in time. */
module Vended {
  import opened Basics
  import opened Dicts

  type Props = Dict<string, string>

  /** What a load returns: the credentials' configurations and the catalog's own. */
  datatype Response = Response(location: string, creds: seq<Props>, config: Props)

  /** `OutOfRange`: the stated expiry is no date the runtime can represent. */
  datatype Failure = OutOfRange | LoadFailed | CreateFailed

  /** `int(text)`; None stands for ValueError. */
  type Reader = string -> Option<int>

  const EXPIRY_KEYS: seq<string> :=
    ["expiration-time", "s3.session-token-expires-at-ms", "gcs.oauth2.token-expires-at"]

  const ACCOUNT_PREFIX := "adls.sas-token-expires-at-ms."

  /** Milliseconds; the last is excluded. Years 1 and 10000. */
  const FIRST_INSTANT: int := -62135596800000
  const LAST_INSTANT: int := 253402300800000

  /** Milliseconds before expiry at which credentials are reloaded. */
  const MARGIN: int := 120000

  function MergeAll(creds: seq<Props>): Props {
    if creds == [] then [] else Update(MergeAll(creds[..|creds| - 1]), creds[|creds| - 1])
  }

  function Credentials(resp: Response): Props { Update(MergeAll(resp.creds), resp.config) }

  ghost predicate WellFormed(resp: Response) {
    DistinctKeys(resp.config) && forall c | c in resp.creds :: DistinctKeys(c)
  }

  lemma {:induction false} MergedValue(creds: seq<Props>, k: string, i: nat)
    requires forall c | c in creds :: DistinctKeys(c)
    requires i < |creds| && Lookup(creds[i], k).Some?
    requires forall j | i < j < |creds| :: Lookup(creds[j], k) == None
    ensures Lookup(MergeAll(creds), k) == Lookup(creds[i], k)
  {
    var n := |creds| - 1;
    LookupUpdate(MergeAll(creds[..n]), creds[n], k);
    if i < n { MergedValue(creds[..n], k, i); }
  }

  /** The catalog's configuration wins over every credential, and a later credential over an earlier one. */
  lemma CredentialValue(resp: Response, k: string)
    requires WellFormed(resp)
    ensures Lookup(resp.config, k).Some? ==> Lookup(Credentials(resp), k) == Lookup(resp.config, k)
    ensures forall i | 0 <= i < |resp.creds| && Lookup(resp.config, k) == None && Lookup(resp.creds[i], k).Some?
                       && (forall j | i < j < |resp.creds| :: Lookup(resp.creds[j], k) == None) ::
              Lookup(Credentials(resp), k) == Lookup(resp.creds[i], k)
  {
    LookupUpdate(MergeAll(resp.creds), resp.config, k);
    forall i | 0 <= i < |resp.creds| && Lookup(resp.config, k) == None && Lookup(resp.creds[i], k).Some?
               && (forall j | i < j < |resp.creds| :: Lookup(resp.creds[j], k) == None)
      ensures Lookup(Credentials(resp), k) == Lookup(resp.creds[i], k)
    {
      MergedValue(resp.creds, k, i);
    }
  }

  // ------------------------------------------------------------------------------ expiry

  predicate Stated(props: Props, key: string) { Lookup(props, key).Some? && Lookup(props, key).value != "" }

  predicate ForAccount(entry: (string, string)) { ACCOUNT_PREFIX <= entry.0 && entry.1 != "" }

  function FromKeys(props: Props, keys: seq<string>): Option<string> {
    if keys == [] then None
    else if Stated(props, keys[0]) then Lookup(props, keys[0])
    else FromKeys(props, keys[1..])
  }

  function FromAccounts(props: Props): Option<string> {
    if props == [] then None else if ForAccount(props[0]) then Some(props[0].1) else FromAccounts(props[1..])
  }

  /** The text of the expiry. */
  function ExpiryText(props: Props): Option<string> {
    var keyed := FromKeys(props, EXPIRY_KEYS);
    if keyed.Some? then keyed else FromAccounts(props)
  }

  lemma {:induction false} FromKeysIs(props: Props, keys: seq<string>)
    ensures FromKeys(props, keys) == None <==> forall k | k in keys :: !Stated(props, k)
    ensures forall i | 0 <= i < |keys| && Stated(props, keys[i]) && (forall j | 0 <= j < i :: !Stated(props, keys[j])) ::
              FromKeys(props, keys) == Lookup(props, keys[i])
  {
    if keys != [] {
      FromKeysIs(props, keys[1..]);
      assert keys == [keys[0]] + keys[1..];
      forall i | 0 <= i < |keys| && Stated(props, keys[i]) && (forall j | 0 <= j < i :: !Stated(props, keys[j]))
        ensures FromKeys(props, keys) == Lookup(props, keys[i])
      {
        if i > 0 {
          assert !Stated(props, keys[0]) && keys[1..][i - 1] == keys[i];
          forall j | 0 <= j < i - 1 ensures !Stated(props, keys[1..][j]) { assert keys[1..][j] == keys[j + 1]; }
        }
      }
    }
  }

  lemma {:induction false} FromAccountsIs(props: Props)
    ensures FromAccounts(props) == None <==> forall p | p in props :: !ForAccount(p)
    ensures forall i | 0 <= i < |props| && ForAccount(props[i]) && (forall j | 0 <= j < i :: !ForAccount(props[j])) ::
              FromAccounts(props) == Some(props[i].1)
  {
    if props != [] {
      FromAccountsIs(props[1..]);
      assert props == [props[0]] + props[1..];
      forall i | 0 <= i < |props| && ForAccount(props[i]) && (forall j | 0 <= j < i :: !ForAccount(props[j]))
        ensures FromAccounts(props) == Some(props[i].1)
      {
        if i > 0 {
          assert !ForAccount(props[0]) && props[1..][i - 1] == props[i];
          forall j | 0 <= j < i - 1 ensures !ForAccount(props[1..][j]) { assert props[1..][j] == props[j + 1]; }
        }
      }
    }
  }

  /** The two loops as they run. */
  method FindExpiry(props: Props) returns (raw: Option<string>)
    ensures raw == ExpiryText(props)
  {
    for i := 0 to |EXPIRY_KEYS|
      invariant FromKeys(props, EXPIRY_KEYS) == FromKeys(props, EXPIRY_KEYS[i..])
    {
      if Stated(props, EXPIRY_KEYS[i]) {
        return Lookup(props, EXPIRY_KEYS[i]);
      }
      assert EXPIRY_KEYS[i..][1..] == EXPIRY_KEYS[i + 1..];
    }
    for i := 0 to |props|
      invariant FromAccounts(props) == FromAccounts(props[i..])
    {
      if ForAccount(props[i]) {
        return Some(props[i].1);
      }
      assert props[i..][1..] == props[i + 1..];
    }
    raw := None;
  }

  /** Where an expiry text stands: under the `at`-th of the three keys, or in the `at`-th entry. */
  datatype Place = Place(keyed: bool, at: nat, text: string)

  /** The first of the keys that states one or, with none of them, the first account entry that does. */
  ghost predicate IsExpiry(props: Props, place: Place) {
    if place.keyed then
      place.at < |EXPIRY_KEYS| && place.text != "" && Lookup(props, EXPIRY_KEYS[place.at]) == Some(place.text)
      && forall j | 0 <= j < place.at :: Blank(Lookup(props, EXPIRY_KEYS[j]))
    else
      place.at < |props| && place.text != "" && ACCOUNT_PREFIX <= props[place.at].0 && props[place.at].1 == place.text
      && (forall j | 0 <= j < place.at :: ACCOUNT_PREFIX <= props[j].0 ==> props[j].1 == "")
      && forall k | k in EXPIRY_KEYS :: Blank(Lookup(props, k))
  }

  predicate Blank(text: Option<string>) { text == None || text == Some("") }

  lemma {:induction false} FirstStated(props: Props, keys: seq<string>) returns (i: nat)
    requires FromKeys(props, keys).Some?
    ensures i < |keys| && Stated(props, keys[i]) && forall j | 0 <= j < i :: !Stated(props, keys[j])
  {
    i := 0;
    if !Stated(props, keys[0]) {
      i := FirstStated(props, keys[1..]);
      i := i + 1;
    }
  }

  lemma {:induction false} FirstForAccount(props: Props) returns (i: nat)
    requires FromAccounts(props).Some?
    ensures i < |props| && ForAccount(props[i]) && forall j | 0 <= j < i :: !ForAccount(props[j])
  {
    i := 0;
    if !ForAccount(props[0]) {
      i := FirstForAccount(props[1..]);
      i := i + 1;
    }
  }

  /** The text found is the one at the first place that states one. */
  lemma ExpiryIs(props: Props, text: string)
    ensures ExpiryText(props) == Some(text) <==> exists place :: IsExpiry(props, place) && place.text == text
  {
    FromKeysIs(props, EXPIRY_KEYS);
    FromAccountsIs(props);
    forall place | IsExpiry(props, place) ensures ExpiryText(props) == Some(place.text) {
      if place.keyed { assert EXPIRY_KEYS[place.at] in EXPIRY_KEYS; }
    }
    if ExpiryText(props) == Some(text) {
      if FromKeys(props, EXPIRY_KEYS).Some? {
        var i := FirstStated(props, EXPIRY_KEYS);
        assert IsExpiry(props, Place(true, i, text));
      } else {
        var i := FirstForAccount(props);
        assert IsExpiry(props, Place(false, i, text));
      }
    }
  }

  /** When the credentials expire: unstated or unreadable is None. */
  function Deadline(read: Reader, resp: Response): Result<Option<int>, Failure> {
    var raw := ExpiryText(Credentials(resp));
    if raw == None || read(raw.value) == None then Ok(None)
    else
      var ms := read(raw.value).value;
      if FIRST_INSTANT <= ms < LAST_INSTANT then Ok(Some(ms)) else Err(OutOfRange)
  }

  /** The expiry stated reads as this moment, in milliseconds, between the years 1 and 9999. */
  ghost predicate LapsesAt(read: Reader, resp: Response, ms: int) {
    && (exists place :: IsExpiry(Credentials(resp), place) && read(place.text) == Some(ms))
    && -62135596800000 <= ms < 253402300800000
  }

  /** The deadline is the moment that the stated text reads as. */
  lemma DeadlineIs(read: Reader, resp: Response)
    ensures forall ms :: Deadline(read, resp) == Ok(Some(ms)) <==> LapsesAt(read, resp, ms)
  {
    var props := Credentials(resp);
    var raw := ExpiryText(props);
    if raw.Some? { ExpiryIs(props, raw.value); }
    forall place | IsExpiry(props, place) ensures raw == Some(place.text) { ExpiryIs(props, place.text); }
    if raw.Some? {
      var place :| IsExpiry(props, place) && place.text == raw.value;
      assert forall ms :: LapsesAt(read, resp, ms) <==> read(raw.value) == Some(ms) && FIRST_INSTANT <= ms < LAST_INSTANT;
    }
  }

  function ExpiresWithin(read: Reader, resp: Response, ms: int, now: int): Result<bool, Failure> {
    var deadline := Deadline(read, resp);
    if deadline.Err? then Err(deadline.error) else Ok(deadline.value.Some? && deadline.value.value <= now + ms)
  }

  // ------------------------------------------------------------------------- the cached table

  predicate NeedsLoad(read: Reader, cached: Option<Response>, now: int) {
    cached == None || ExpiresWithin(read, cached.value, MARGIN, now) == Ok(true)
  }

  /** What an access gives: the response cached or loaded, or why there is none. */
  function Outcome(read: Reader, cached: Option<Response>, now: int, loaded: Option<Response>): Result<Response, Failure> {
    if NeedsLoad(read, cached, now) then if loaded.Some? then Ok(loaded.value) else Err(LoadFailed)
    else if Deadline(read, cached.value).Err? then Err(OutOfRange)
    else Ok(cached.value)
  }

  class VendedTable {
    const read: Reader
    var cached: Option<Response>

    constructor (read: Reader)
      ensures this.read == read && cached == None
    {
      this.read, cached := read, None;
    }

    /** `loaded` is what a load would return (None: it raises); `loads` tells whether it was asked. */
    method Resp(now: int, loaded: Option<Response>) returns (r: Result<Response, Failure>, loads: bool)
      modifies this`cached
      ensures loads <==> old(cached) == None || exists ms :: LapsesAt(read, old(cached).value, ms) && ms <= now + 120000
      ensures r.Ok? ==> cached == Some(r.value)
      ensures r.Ok? ==> if loads then loaded == Some(r.value) else old(cached) == cached
      ensures r.Ok? && !loads ==> forall ms | LapsesAt(read, r.value, ms) :: now + 120000 < ms
      ensures r.Err? ==> cached == old(cached)
      ensures r.Err? <==> (loads && loaded == None) || (!loads && Deadline(read, old(cached).value).Err?)
      ensures r.Err? ==> r.error == if loads then LoadFailed else OutOfRange
      ensures r == Outcome(read, old(cached), now, loaded)
      ensures cached == Next(read, Table(old(cached), 0, 0, []), Use(now, 0, loaded)).cached
    {
      loads := cached == None;
      if cached.Some? {
        DeadlineIs(read, cached.value);
        var within := ExpiresWithin(read, cached.value, MARGIN, now);
        if within.Err? {
          return Err(within.error), false;
        }
        loads := within.value;
      }
      if loads {
        if loaded == None {
          return Err(LoadFailed), true;
        }
        cached := loaded;
      }
      r := Ok(cached.value);
    }

    method Invalidate()
      modifies this`cached
      ensures cached == None
    {
      cached := None;
    }

    /** A conflict counts as created; what is returned was loaded by this call. */
    method Ensure(created: Creation, now: int, loaded: Option<Response>) returns (r: Result<Response, Failure>)
      modifies this`cached
      ensures created.Failed? ==> r == Err(CreateFailed) && cached == old(cached)
      ensures !created.Failed? ==> cached == loaded && r == if loaded.Some? then Ok(loaded.value) else Err(LoadFailed)
    {
      if created.Failed? {
        return Err(CreateFailed);
      }
      Invalidate();
      var loads;
      r, loads := Resp(now, loaded);
    }
  }

  datatype Creation = Created | Conflict | Failed

  // ------------------------------------------------------------------------------ whole runs

  /** An access that starts at `now`, its load (if it needs one) taking `took`; or an invalidation. */
  datatype Event = Use(now: int, took: nat, loaded: Option<Response>) | Drop

  /** `loads` are the times at which loads returned. */
  datatype Table = Table(cached: Option<Response>, clock: int, drops: nat, loads: seq<int>)

  function Next(read: Reader, t: Table, e: Event): Table {
    match e
    case Drop => t.(cached := None, drops := t.drops + 1)
    case Use(now, took, loaded) =>
      if !NeedsLoad(read, t.cached, now) then t.(clock := now)
      else if loaded == None then t.(clock := now + took)
      else t.(cached := loaded, clock := now + took, loads := t.loads + [now + took])
  }

  /** A load counts when it was needed and succeeded, at the time it returned; an invalidation always. */
  lemma NextCounts(read: Reader, t: Table, e: Event)
    ensures Next(read, t, e).loads ==
            t.loads + if e.Use? && e.loaded.Some? && NeedsLoad(read, t.cached, e.now) then [e.now + e.took] else []
    ensures Next(read, t, e).drops == t.drops + if e.Drop? then 1 else 0
    ensures e.Use? ==> e.now <= Next(read, t, e).clock <= e.now + e.took
  {
  }

  function Run(read: Reader, start: int, events: seq<Event>): Table {
    if events == [] then Table(None, start, 0, [])
    else Next(read, Run(read, start, events[..|events| - 1]), events[|events| - 1])
  }

  /** Time does not run backwards, and every load that succeeds is good for `life` when it returns. */
  ghost predicate Fair(read: Reader, life: int, t: Table, e: Event) {
    e.Use? ==>
      && t.clock <= e.now
      && (e.loaded.Some? ==> forall ms | LapsesAt(read, e.loaded.value, ms) :: e.now + e.took + life <= ms)
  }

  ghost predicate FairRun(read: Reader, life: int, start: int, events: seq<Event>) {
    events == [] ||
    var before := events[..|events| - 1];
    FairRun(read, life, start, before) && Fair(read, life, Run(read, start, before), events[|events| - 1])
  }

  /** Every load but the first is paid for by an invalidation or by `life - MARGIN` of time. */
  predicate Paid(read: Reader, life: int, start: int, t: Table) {
    var n, last := |t.loads|, if t.loads == [] then start else t.loads[|t.loads| - 1];
    && start <= last <= t.clock
    && (t.cached == None ==> (n - t.drops) * (life - MARGIN) <= t.clock - start)
    && (t.cached.Some? ==>
          && n > 0 && (n - 1 - t.drops) * (life - MARGIN) <= last - start
          && var deadline := Deadline(read, t.cached.value);
             deadline.Ok? && deadline.value.Some? ==> last + life <= deadline.value.value)
  }

  lemma OneMore(k: int, gap: int, span: int)
    requires k * gap <= span
    ensures (k + 1) * gap <= span + gap && (gap >= 0 ==> (k - 1) * gap <= span)
  {
  }

  lemma NextPaid(read: Reader, life: int, start: int, t: Table, e: Event)
    requires life >= MARGIN && Paid(read, life, start, t) && Fair(read, life, t, e)
    ensures Paid(read, life, start, Next(read, t, e))
  {
    var n, gap := |t.loads|, life - MARGIN;
    if e.Use? && e.loaded.Some? { DeadlineIs(read, e.loaded.value); }
    if t.cached == None {
      OneMore(n - t.drops, gap, t.clock - start);
    } else {
      OneMore(n - 1 - t.drops, gap, t.loads[n - 1] - start);
    }
  }

  lemma {:induction false} RunPaid(read: Reader, life: int, start: int, events: seq<Event>)
    requires life >= 120000 && FairRun(read, life, start, events)
    ensures Paid(read, life, start, Run(read, start, events))
  {
    if events != [] {
      var before := events[..|events| - 1];
      RunPaid(read, life, start, before);
      NextPaid(read, life, start, Run(read, start, before), events[|events| - 1]);
    }
  }

  /** All loads but the first and one for each invalidation fit into the time passed, `gap` for each. */
  predicate Affordable(t: Table, gap: int, passed: int) { (|t.loads| - 1 - t.drops) * gap <= passed }

  /**
   * Over any run of accesses, loads beyond the first and beyond one for each invalidation are at
   * least `life - MARGIN` apart.
   */
  lemma ReloadBound(read: Reader, life: int, start: int, events: seq<Event>)
    requires life >= 120000 && FairRun(read, life, start, events)
    ensures var t := Run(read, start, events); Affordable(t, life - 120000, t.clock - start)
  {
    RunPaid(read, life, start, events);
    var t := Run(read, start, events);
    if t.cached == None { OneMore(|t.loads| - t.drops, life - MARGIN, t.clock - start); }
  }

  predicate Unreadable(read: Reader, cached: Option<Response>) { cached.Some? && Deadline(read, cached.value).Err? }

  /** The credentials state an expiry that reads as a number before the year 1 or after the year 9999. */
  ghost predicate StatesFarDate(read: Reader, props: Props) {
    exists i, ms :: IsExpiry(props, i) && read(i.text) == Some(ms) && !(-62135596800000 <= ms < 253402300800000)
  }

  /**
   * An access raises for the date of a cached response exactly when the expiry it states reads as a
   * number that is no date; nothing else about the response, the time or a load matters.
   */
  lemma RaisesIffUnreadable(read: Reader, cached: Option<Response>, now: int, loaded: Option<Response>)
    ensures Outcome(read, cached, now, loaded) == Err(OutOfRange) <==>
            cached.Some? && StatesFarDate(read, Credentials(cached.value))
    ensures Unreadable(read, cached) <==> cached.Some? && StatesFarDate(read, Credentials(cached.value))
  {
    if cached.Some? {
      var props := Credentials(cached.value);
      var raw := ExpiryText(props);
      if raw.Some? { ExpiryIs(props, raw.value); }
      forall place | IsExpiry(props, place) ensures raw == Some(place.text) { ExpiryIs(props, place.text); }
      if Unreadable(read, cached) {
        var place :| IsExpiry(props, place) && place.text == raw.value;
        assert IsExpiry(props, place) && read(place.text) == Some(read(raw.value).value);
      }
    }
  }

  /**
   * A cached response whose expiry is out of range is kept: until an invalidation nothing is
   * loaded, and every access raises, whenever it comes and whatever a load would return.
   */
  lemma {:induction false} UnreadableStays(read: Reader, start: int, before: seq<Event>, after: seq<Event>)
    requires Unreadable(read, Run(read, start, before).cached)
    requires forall e | e in after :: e.Use?
    ensures var t, t' := Run(read, start, before), Run(read, start, before + after);
            t'.cached == t.cached && t'.loads == t.loads
            && forall now, loaded :: Outcome(read, t'.cached, now, loaded) == Err(OutOfRange)
  {
    if after == [] {
      assert before + after == before;
    } else {
      var n := |after| - 1;
      UnreadableStays(read, start, before, after[..n]);
      assert (before + after)[..|before| + n] == before + after[..n];
      assert (before + after)[|before| + n] == after[n];
    }
  }

  /** The catalog states the first millisecond of the year 10000. */
  const FAR: Response := Response("s3://bucket/table", [], [("expiration-time", "253402300800000")])

  /** The first access loads it and succeeds; from then on the table is unreadable. */
  lemma UnreadableHappens(read: Reader, start: int, now: int, took: nat)
    requires read("253402300800000") == Some(253402300800000)
    ensures Outcome(read, Run(read, start, []).cached, now, Some(FAR)) == Ok(FAR)
    ensures Unreadable(read, Run(read, start, [Use(now, took, Some(FAR))]).cached)
  {
    var props := Credentials(FAR);
    assert Put([], "expiration-time", "253402300800000") == FAR.config;
    assert FAR.config[1..] == [];
    assert props == FAR.config;
    assert EXPIRY_KEYS[0] == "expiration-time";
    assert Stated(props, EXPIRY_KEYS[0]);
    assert ExpiryText(props) == Some("253402300800000");
    assert [Use(now, took, Some(FAR))][..0] == [];
  }

  // ------------------------------------------------------------------------ known answers

  /** One example for each storage: credentials that lapse a minute after 1700000000000 are due at once. */
  lemma LapseExamples(read: Reader)
    requires read("1700000060000") == Some(1700000060000)
    ensures forall key | key in ["expiration-time", "s3.session-token-expires-at-ms", "gcs.oauth2.token-expires-at",
                                 "adls.sas-token-expires-at-ms.account"] ::
              var resp := Response("s3://bucket/table", [], [(key, "1700000060000")]);
              LapsesAt(read, resp, 1700000060000)
              && NeedsLoad(read, Some(resp), 1700000000000) && !NeedsLoad(read, Some(resp), 1699999000000)
  {
    forall key | key in ["expiration-time", "s3.session-token-expires-at-ms", "gcs.oauth2.token-expires-at",
                         "adls.sas-token-expires-at-ms.account"]
      ensures var resp := Response("s3://bucket/table", [], [(key, "1700000060000")]);
              LapsesAt(read, resp, 1700000060000)
              && NeedsLoad(read, Some(resp), 1700000000000) && !NeedsLoad(read, Some(resp), 1699999000000)
    {
      var resp := Response("s3://bucket/table", [], [(key, "1700000060000")]);
      OneExpiry(resp, key, "1700000060000");
      DeadlineIs(read, resp);
    }
  }

  lemma OneExpiry(resp: Response, key: string, text: string)
    requires resp.creds == [] && resp.config == [(key, text)] && text != ""
    requires key in EXPIRY_KEYS || ACCOUNT_PREFIX <= key
    ensures exists place :: IsExpiry(Credentials(resp), place) && place.text == text
  {
    var props := Credentials(resp);
    var none: Props := [];
    assert MergeAll(resp.creds) == none && resp.config[0] == (key, text) && resp.config[1..] == none;
    assert Put(none, key, text) == [(key, text)];
    assert Update(none, resp.config) == Update(Put(none, key, text), none);
    assert props == resp.config;
    if key in EXPIRY_KEYS {
      var i :| 0 <= i < |EXPIRY_KEYS| && EXPIRY_KEYS[i] == key && forall j | 0 <= j < i :: EXPIRY_KEYS[j] != key;
      assert IsExpiry(props, Place(true, i, text));
    } else {
      assert IsExpiry(props, Place(false, 0, text));
    }
  }
}
