/** Form bodies and query strings: an ordered map printed by `encodeForm` and read by `parseQuery`. */
module Forms {
  import opened Basics
  import opened Text
  import opened Percent
  import opened Dicts

  const AMPERSAND: Byte := 0x26
  const EQUALS: Byte := 0x3D

  type Pairs = Dict<Bytes, Bytes>

  function EncodePair(p: (Bytes, Bytes)): Bytes { FormEncode(p.0) + [EQUALS] + FormEncode(p.1) }

  function EncodePairs(m: Pairs): seq<Bytes> {
    if m == [] then [] else EncodePairs(m[..|m| - 1]) + [EncodePair(m[|m| - 1])]
  }

  function EncodeForm(m: Pairs): Bytes { Join(EncodePairs(m), AMPERSAND) }

  /** The printer as it runs: a `StringJoiner` that takes one pair after another. */
  method PrintForm(m: Pairs) returns (out: Bytes)
    ensures out == EncodeForm(m)
  {
    out := [];
    for i := 0 to |m|
      invariant out == EncodeForm(m[..i])
    {
      out := if i == 0 then EncodePair(m[i]) else out + [AMPERSAND] + EncodePair(m[i]);
      PrintStep(m[..i], m[i]);
      assert m[..i + 1] == m[..i] + [m[i]];
    }
    assert m[..|m|] == m;
  }

  lemma PrintStep(m: Pairs, p: (Bytes, Bytes))
    ensures EncodeForm(m + [p]) == if m == [] then EncodePair(p) else EncodeForm(m) + [AMPERSAND] + EncodePair(p)
  {
    var longer := m + [p];
    assert longer[..|m|] == m && longer[|m|] == p;
    assert EncodePairs(longer) == EncodePairs(m) + [EncodePair(p)];
    if m != [] {
      assert EncodePairs(m) != [];
      JoinAppend(EncodePairs(m), [EncodePair(p)], AMPERSAND);
    } else {
      assert EncodePairs(longer) == [EncodePair(p)];
    }
    JoinOne(EncodePair(p), AMPERSAND);
  }

  /**
   * What reading bytes as UTF-8 makes of them (ill-formed sequences become U+FFFD). It leaves
   * well-formed texts as they are.
   */
  type Mending = Bytes -> Bytes

  predicate WellFormed(p: (Bytes, Bytes), mend: Mending) { mend(p.0) == p.0 && mend(p.1) == p.1 }

  /** `URLDecoder.decode` */
  function DecodeText(s: Bytes, mend: Mending): Option<Bytes> {
    var decoded := Decode(s, true);
    if decoded == None then None else Some(mend(decoded.value))
  }

  /** One `key=value`; without an equals sign the value is empty. */
  function DecodePair(pair: Bytes, mend: Mending): Option<(Bytes, Bytes)> {
    var eq := IndexOf(pair, EQUALS);
    var key := DecodeText(pair[..eq], mend);
    var value := DecodeText(if eq < |pair| then pair[eq + 1..] else [], mend);
    if key == None || value == None then None else Some((key.value, value.value))
  }

  function DecodePairs(parts: seq<Bytes>, mend: Mending): Option<Pairs> {
    if parts == [] then Some([]) else
      var before := DecodePairs(parts[..|parts| - 1], mend);
      var last := DecodePair(parts[|parts| - 1], mend);
      if before == None || last == None then None else Some(Put(before.value, last.value.0, last.value.1))
  }

  function Parse(raw: Bytes, mend: Mending): Option<Pairs> {
    if raw == [] then Some([]) else DecodePairs(DropTrailing(Split(raw, AMPERSAND)), mend)
  }

  /** The parser as it runs; None stands for the decoder's exception. */
  method ParseQuery(raw: Bytes, mend: Mending) returns (out: Option<Pairs>)
    ensures out == Parse(raw, mend)
  {
    var m: Pairs := [];
    if raw == [] {
      return Some(m);
    }
    var parts := DropTrailing(Split(raw, AMPERSAND));
    for i := 0 to |parts|
      invariant DecodePairs(parts[..i], mend) == Some(m)
    {
      assert parts[..i + 1][..i] == parts[..i];
      var pair := DecodePair(parts[i], mend);
      if pair == None {
        FailedPair(parts, i, mend);
        return None;
      }
      m := Put(m, pair.value.0, pair.value.1);
    }
    assert parts[..|parts|] == parts;
    out := Some(m);
  }

  lemma {:induction false} FailedPair(parts: seq<Bytes>, i: nat, mend: Mending)
    requires i < |parts| && DecodePair(parts[i], mend) == None
    ensures DecodePairs(parts, mend) == None
  {
    if i < |parts| - 1 { FailedPair(parts[..|parts| - 1], i, mend); }
  }

  lemma PairBytes(p: (Bytes, Bytes))
    ensures EQUALS !in FormEncode(p.0) && AMPERSAND !in EncodePair(p) && EncodePair(p) != []
  {
    FormEncodedBytes(p.0);
    FormEncodedBytes(p.1);
  }

  lemma PairRoundTrip(p: (Bytes, Bytes), mend: Mending)
    requires WellFormed(p, mend)
    ensures DecodePair(EncodePair(p), mend) == Some(p)
  {
    var key, value := FormEncode(p.0), FormEncode(p.1);
    var pair := key + [EQUALS] + value;
    PairBytes(p);
    IndexOfAfter(key, EQUALS, value);
    assert pair[..|key|] == key && pair[|key| + 1..] == value;
    DecodeForm(p.0);
    DecodeForm(p.1);
  }

  lemma {:induction false} PairsShape(m: Pairs)
    ensures |EncodePairs(m)| == |m| && forall part | part in EncodePairs(m) :: AMPERSAND !in part && part != []
  {
    if m != [] {
      PairsShape(m[..|m| - 1]);
      PairBytes(m[|m| - 1]);
    }
  }

  lemma DecodeSnoc(parts: seq<Bytes>, part: Bytes, mend: Mending)
    requires DecodePairs(parts, mend).Some? && DecodePair(part, mend).Some?
    ensures DecodePairs(parts + [part], mend) ==
            Some(Put(DecodePairs(parts, mend).value, DecodePair(part, mend).value.0, DecodePair(part, mend).value.1))
  {
    assert (parts + [part])[..|parts|] == parts;
  }

  lemma {:induction false} PairsRoundTrip(m: Pairs, mend: Mending)
    requires DistinctKeys(m) && forall p | p in m :: WellFormed(p, mend)
    ensures DecodePairs(EncodePairs(m), mend) == Some(m)
  {
    if m != [] {
      var n := |m| - 1;
      PutLast(m);
      assert m[n] in m;
      PairsRoundTrip(m[..n], mend);
      PairRoundTrip(m[n], mend);
      DecodeSnoc(EncodePairs(m[..n]), EncodePair(m[n]), mend);
    }
  }

  /**
   * Parsing an encoded map of well-formed texts gives the map back, in its order, whatever its keys
   * and values hold and even if some are empty.
   */
  lemma FormRoundTrip(m: Pairs, mend: Mending)
    requires DistinctKeys(m) && forall p | p in m :: WellFormed(p, mend)
    ensures Parse(EncodeForm(m), mend) == Some(m)
  {
    PairsRoundTrip(m, mend);
    PairsShape(m);
    var parts := EncodePairs(m);
    if m != [] {
      SplitJoinFree(parts, AMPERSAND);
      assert parts[|parts| - 1] in parts;
      FormNotEmpty(m);
    }
  }

  lemma FormNotEmpty(m: Pairs)
    requires m != []
    ensures EncodeForm(m) != []
  {
    var parts := EncodePairs(m);
    if |parts| == 1 {
      assert parts[0] == EncodePair(m[|m| - 1]);
      JoinOne(parts[0], AMPERSAND);
      PairBytes(m[|m| - 1]);
      assert parts == [parts[0]];
    }
  }

  lemma {:induction false} DecodedDistinct(parts: seq<Bytes>, mend: Mending)
    ensures DecodePairs(parts, mend).Some? ==> DistinctKeys(DecodePairs(parts, mend).value)
  {
    if parts != [] {
      DecodedDistinct(parts[..|parts| - 1], mend);
      var before, last := DecodePairs(parts[..|parts| - 1], mend), DecodePair(parts[|parts| - 1], mend);
      if before.Some? && last.Some? { PutDistinct(before.value, last.value.0, last.value.1); }
    }
  }

  lemma {:induction false} DecodedWellFormed(parts: seq<Bytes>, mend: Mending)
    requires forall s :: mend(mend(s)) == mend(s)
    ensures DecodePairs(parts, mend).Some? ==> forall p | p in DecodePairs(parts, mend).value :: WellFormed(p, mend)
  {
    if parts != [] {
      DecodedWellFormed(parts[..|parts| - 1], mend);
      var before, last := DecodePairs(parts[..|parts| - 1], mend), DecodePair(parts[|parts| - 1], mend);
      if before.Some? && last.Some? { PutEntries(before.value, last.value.0, last.value.1); }
    }
  }

  /** Whatever text was parsed, printing and parsing the result changes nothing. */
  lemma ReparseSame(raw: Bytes, mend: Mending)
    requires forall s :: mend(mend(s)) == mend(s)
    ensures Parse(raw, mend).Some? ==> Parse(EncodeForm(Parse(raw, mend).value), mend) == Parse(raw, mend)
  {
    if raw != [] {
      DecodedDistinct(DropTrailing(Split(raw, AMPERSAND)), mend);
      DecodedWellFormed(DropTrailing(Split(raw, AMPERSAND)), mend);
    }
    if Parse(raw, mend).Some? { FormRoundTrip(Parse(raw, mend).value, mend); }
  }
}
