/** Cohort assignment: the hashed serialisation, the bucket it gives, and the backend it selects. */
module Cohorts {
  import opened Options
  import opened Routing

  type Octet = n: nat | n < 256

  type Octets = seq<Octet>

  // ----- the length-prefixed serialisation -----

  function Power(base: nat, n: nat): nat
  {
    if n == 0 then 1 else base * Power(base, n - 1)
  }

  /** `n.to_bytes(width, "big")`, of the low bytes. */
  function BigEndian(n: nat, width: nat): (b: Octets)
    ensures |b| == width
  {
    if width == 0 then [] else BigEndian(n / 256, width - 1) + [n % 256]
  }

  /** `int.from_bytes(b, "big")`. */
  function Value(b: Octets): nat
  {
    if b == [] then 0 else Value(b[..|b| - 1]) * 256 + b[|b| - 1]
  }

  lemma {:induction false} ValueOfBigEndian(n: nat, width: nat)
    requires n < Power(256, width)
    ensures Value(BigEndian(n, width)) == n
  {
    if width > 0 {
      ValueOfBigEndian(n / 256, width - 1);
      assert BigEndian(n, width)[..width - 1] == BigEndian(n / 256, width - 1);
    }
  }

  lemma {:induction false} ValueIsBounded(b: Octets)
    ensures Value(b) < Power(256, |b|)
  {
    if b != [] {
      ValueIsBounded(b[..|b| - 1]);
    }
  }

  const PREFIX: nat := 8

  /** A field can be written when its length fits the prefix. */
  ghost predicate Writable(fields: seq<Octets>)
  {
    forall f :: f in fields ==> |f| < Power(256, PREFIX)
  }

  /** What is fed to the digest: each field after its length. */
  function Serialize(fields: seq<Octets>): Octets
  {
    if fields == [] then [] else BigEndian(|fields[0]|, PREFIX) + fields[0] + Serialize(fields[1..])
  }

  /** Reads a number of length-prefixed fields and nothing more. */
  function Parse(b: Octets, count: nat): Option<seq<Octets>>
  {
    if count == 0 then (if b == [] then Some([]) else None)
    else if |b| < PREFIX || |b| < PREFIX + Value(b[..PREFIX]) then None
    else
      var end := PREFIX + Value(b[..PREFIX]);
      var rest := Parse(b[end..], count - 1);
      if rest.None? then None else Some([b[PREFIX..end]] + rest.value)
  }

  /** The serialisation can be read back, so it forgets nothing of its fields. */
  lemma {:induction false} ParseSerialized(fields: seq<Octets>)
    requires Writable(fields)
    ensures Parse(Serialize(fields), |fields|) == Some(fields)
  {
    if fields != [] {
      var prefix, tail := BigEndian(|fields[0]|, PREFIX), Serialize(fields[1..]);
      var b := Serialize(fields);
      assert b == prefix + fields[0] + tail;
      ValueOfBigEndian(|fields[0]|, PREFIX);
      assert b[..PREFIX] == prefix;
      var end := PREFIX + |fields[0]|;
      assert b[PREFIX..end] == fields[0] && b[end..] == tail;
      ParseSerialized(fields[1..]);
      assert fields == [fields[0]] + fields[1..];
    }
  }

  /** Each field is written as eight octets that hold its length, the most significant first, and then the field itself. */
  lemma FieldLayout(f: Octets, rest: seq<Octets>)
    requires |f| < 0x1_0000_0000_0000_0000
    ensures
      var b := Serialize([f] + rest);
      && |b| == 8 + |f| + |Serialize(rest)|
      && Value(b[..8]) == |f| && b[8..8 + |f|] == f && b[8 + |f|..] == Serialize(rest)
  {
    var prefix := BigEndian(|f|, PREFIX);
    assert ([f] + rest)[1..] == rest;
    var b := Serialize([f] + rest);
    assert b == prefix + f + Serialize(rest);
    assert Power(256, 8) == 0x1_0000_0000_0000_0000 by { PowersOf256(); }
    ValueOfBigEndian(|f|, PREFIX);
    assert b[..8] == prefix;
  }

  /** Different cohort fields never give the digest the same input. */
  lemma SerializeIsInjective(a: seq<Octets>, b: seq<Octets>)
    requires Writable(a) && Writable(b) && |a| == |b| && Serialize(a) == Serialize(b)
    ensures a == b
  {
    ParseSerialized(a);
    ParseSerialized(b);
  }

  // ----- the bucket -----

  const BUCKETS: nat := 0x20_0000_0000_0000

  /** The first eight digest bytes as a number, shifted right by eleven bits. */
  function Slot(digest: Octets): nat
    requires |digest| == 32
  {
    Value(digest[..8]) / 2048
  }

  /** The slot as a fraction; both are exact in a double, having at most 53 bits. */
  function Fraction(slot: nat): real
  {
    slot as real / BUCKETS as real
  }

  /** The first octet counts most. */
  lemma {:induction false} FirstOctetCounts(first: Octet, rest: Octets)
    ensures Value([first] + rest) == first * Power(256, |rest|) + Value(rest)
    decreases |rest|
  {
    var b := [first] + rest;
    if rest == [] {
      assert b[..0] == [] && Value(b[..0]) == 0;
    } else {
      var n := |rest| - 1;
      assert b[..|b| - 1] == [first] + rest[..n];
      FirstOctetCounts(first, rest[..n]);
    }
  }

  /** The slot is the number made of the first 53 bits: each has the same share, 2048, of the first eight octets' values. */
  lemma SlotHasEqualShare(digest: Octets, k: nat)
    requires |digest| == 32
    ensures Slot(digest) == k <==> k * 2048 <= Value(digest[..8]) < (k + 1) * 2048
  {
  }

  /** No slot is out of reach. */
  lemma EverySlotIsReached(k: nat) returns (digest: Octets)
    requires k < BUCKETS
    ensures |digest| == 32 && Slot(digest) == k
  {
    var first := BigEndian(k * 2048, 8);
    digest := first + seq(24, _ => 0);
    assert Power(256, 8) == 0x1_0000_0000_0000_0000 by { PowersOf256(); }
    ValueOfBigEndian(k * 2048, 8);
    assert digest[..8] == first;
  }

  /** Every digest gives one of the 2 to the 53 slots, a fraction in [0, 1). */
  lemma SlotInRange(digest: Octets)
    requires |digest| == 32
    ensures Slot(digest) < BUCKETS && 0.0 <= Fraction(Slot(digest)) < 1.0
  {
    ValueIsBounded(digest[..8]);
    assert Power(256, 8) == 0x1_0000_0000_0000_0000 by { PowersOf256(); }
    FractionInRange(Slot(digest));
  }

  lemma PowersOf256()
    ensures Power(256, 8) == 0x1_0000_0000_0000_0000
  {
    assert Power(256, 2) == 65536;
    assert Power(256, 4) == 256 * (256 * Power(256, 2));
    assert Power(256, 6) == 256 * (256 * Power(256, 4));
    assert Power(256, 8) == 256 * (256 * Power(256, 6));
  }

  lemma FractionInRange(slot: nat)
    requires slot < BUCKETS
    ensures 0.0 <= Fraction(slot) < 1.0
  {
    assert slot as real < BUCKETS as real;
  }

  function Ceil(x: real): int
  {
    -((-x).Floor)
  }

  /** The slots that a ratio sends to v2. */
  ghost function ServedByV2(ratio: real): set<nat>
  {
    set k: nat | k < BUCKETS && Fraction(k) < ratio
  }

  ghost function Below(n: nat): set<nat>
  {
    if n == 0 then {} else Below(n - 1) + {n - 1}
  }

  lemma {:induction false} BelowIs(n: nat)
    ensures |Below(n)| == n && forall k: nat :: k in Below(n) <==> k < n
  {
    if n > 0 {
      BelowIs(n - 1);
    }
  }

  lemma FractionBelow(k: nat, ratio: real)
    ensures Fraction(k) < ratio <==> k < Ceil(ratio * BUCKETS as real)
  {
    var b := BUCKETS as real;
    var x := ratio * b;
    assert Fraction(k) * b == k as real;
    assert Fraction(k) < ratio <==> k as real < x by { Scaled(Fraction(k), ratio, b); }
    assert (-x).Floor as real <= -x < (-x).Floor as real + 1.0;
  }

  lemma Scaled(x: real, y: real, b: real)
    requires b > 0.0
    ensures x < y <==> x * b < y * b
  {
  }

  /** Exactly the ceiling of ratio times 2 to the 53 slots go to v2, namely the lowest ones. */
  lemma RatioIsExact(ratio: real)
    requires 0.0 <= ratio <= 1.0
    ensures 0 <= Ceil(ratio * BUCKETS as real) <= BUCKETS
    ensures |ServedByV2(ratio)| == Ceil(ratio * BUCKETS as real)
  {
    var n := Ceil(ratio * BUCKETS as real);
    CeilInRange(ratio);
    forall k: nat ensures Fraction(k) < ratio <==> k < n {
      FractionBelow(k, ratio);
    }
    BelowIs(n);
    assert ServedByV2(ratio) == Below(n);
  }

  lemma CeilInRange(ratio: real)
    requires 0.0 <= ratio <= 1.0
    ensures 0 <= Ceil(ratio * BUCKETS as real) <= BUCKETS
  {
    var x := ratio * BUCKETS as real;
    assert 0.0 <= x by { Ordered(0.0, ratio, BUCKETS as real); }
    assert x <= BUCKETS as real by { Ordered(ratio, 1.0, BUCKETS as real); }
    assert (-x).Floor as real <= -x < (-x).Floor as real + 1.0;
  }

  lemma Ordered(x: real, y: real, b: real)
    requires x <= y && b > 0.0
    ensures x * b <= y * b
  {
  }

  /** Raising the ratio never moves a slot from v2 back to v1. */
  lemma RaisingKeepsV2(low: real, high: real)
    requires low <= high
    ensures ServedByV2(low) <= ServedByV2(high)
  {
  }

  // ----- the assignment -----

  datatype Assignment = Assignment(v2: bool, reason: string, slot: Option<nat>)

  /** `encode` is UTF-8, undefined for lone surrogates; `digest` is SHA-256. */
  function ChooseServing(
    r: Route, identity: map<string, string>, requestKey: Option<string>,
    encode: string -> Option<Octets>, digest: Octets -> Octets): Assignment
    requires forall b :: |digest(b)| == 32
  {
    if !r.rolloutEnabled then Assignment(false, "rollout_disabled", None)
    else
      var c := r.cohort;
      var key :=
        if c.mode == "request" then requestKey
        else if c.keySource in identity then Some(identity[c.keySource]) else None;
      if key.None? || key.value == "" || encode(key.value).None? then Assignment(false, "missing_cohort_key", None)
      else
        var slot := Slot(digest(Serialize(Fields(c, encode(key.value).value, encode))));
        Assignment(Fraction(slot) < r.serveRatio, "cohort", Some(slot))
  }

  /** The five fields; the configuration's own texts were checked to be encodable. */
  function Fields(c: Cohort, key: Octets, encode: string -> Option<Octets>): (fields: seq<Octets>)
    ensures |fields| == 5
  {
    [Encoded(c.algorithm, encode), Encoded(c.serialization, encode), Encoded(c.group, encode), key, Encoded(c.salt, encode)]
  }

  function Encoded(text: string, encode: string -> Option<Octets>): Octets
  {
    var b := encode(text); if b.None? then [] else b.value
  }

  /** The key that a request has for the cohort, its own or one of the trusted identity: a text that UTF-8 can write. */
  ghost predicate HasKey(
    c: Cohort, identity: map<string, string>, requestKey: Option<string>, encode: string -> Option<Octets>, key: string)
  {
    && key != "" && encode(key).Some?
    && if c.mode == "request" then requestKey == Some(key) else c.keySource in identity && identity[c.keySource] == key
  }

  /** The texts of the cohort can be encoded, and no field is longer than the prefix can say. */
  ghost predicate Encodable(c: Cohort, encode: string -> Option<Octets>, key: string)
  {
    forall text :: text in [c.algorithm, c.serialization, c.group, key, c.salt] ==>
                     encode(text).Some? && |encode(text).value| < Power(256, PREFIX)
  }

  /** The input holds these five texts in UTF-8, each readable, and nothing else. */
  ghost predicate HoldsKey(c: Cohort, encode: string -> Option<Octets>, key: string, input: Octets)
    requires Encodable(c, encode, key)
  {
    Parse(input, 5) == Some([encode(c.algorithm).value, encode(c.serialization).value, encode(c.group).value,
                             encode(key).value, encode(c.salt).value])
  }

  /** Without rollout, or without a usable key, a request goes to v1 and has no slot. */
  lemma AssignedToV1(
    r: Route, identity: map<string, string>, requestKey: Option<string>,
    encode: string -> Option<Octets>, digest: Octets -> Octets)
    requires forall b :: |digest(b)| == 32
    ensures
      var a := ChooseServing(r, identity, requestKey, encode, digest);
      && (!r.rolloutEnabled ==> a == Assignment(false, "rollout_disabled", None))
      && (r.rolloutEnabled && (forall key :: !HasKey(r.cohort, identity, requestKey, encode, key)) ==>
            a == Assignment(false, "missing_cohort_key", None))
  {
    var c := r.cohort;
    var key := if c.mode == "request" then requestKey
               else if c.keySource in identity then Some(identity[c.keySource]) else None;
    if key.Some? {
      assert HasKey(c, identity, requestKey, encode, key.value) <==> key.value != "" && encode(key.value).Some?;
    }
  }

  /**
   With rollout and a usable key, the slot is that of the digest of an input that holds the cohort's texts
   and the key, and the request goes to v2 exactly when its slot lies below the ratio.
   */
  lemma AssignmentIsExact(
    r: Route, identity: map<string, string>, requestKey: Option<string>,
    encode: string -> Option<Octets>, digest: Octets -> Octets, key: string) returns (input: Octets)
    requires forall b :: |digest(b)| == 32
    requires r.rolloutEnabled && HasKey(r.cohort, identity, requestKey, encode, key) && Encodable(r.cohort, encode, key)
    ensures HoldsKey(r.cohort, encode, key, input)
    ensures ChooseServing(r, identity, requestKey, encode, digest) ==
              Assignment(Fraction(Slot(digest(input))) < r.serveRatio, "cohort", Some(Slot(digest(input))))
  {
    hide Slot, Fraction, Serialize, Parse, Power;
    var fields := Fields(r.cohort, encode(key).value, encode);
    input := Serialize(fields);
    assert fields == [encode(r.cohort.algorithm).value, encode(r.cohort.serialization).value,
                      encode(r.cohort.group).value, encode(key).value, encode(r.cohort.salt).value] by {
      EncodableParts(r.cohort, encode, key);
    }
    FieldsAreWritable(r.cohort, encode, key, fields);
    ParseSerialized(fields);
  }

  lemma EncodableParts(c: Cohort, encode: string -> Option<Octets>, key: string)
    requires Encodable(c, encode, key)
    ensures encode(c.algorithm).Some? && encode(c.serialization).Some? && encode(c.group).Some?
    ensures encode(key).Some? && encode(c.salt).Some?
  {
    var texts := [c.algorithm, c.serialization, c.group, key, c.salt];
    assert texts[0] in texts && texts[1] in texts && texts[2] in texts && texts[3] in texts && texts[4] in texts;
  }

  lemma FieldsAreWritable(c: Cohort, encode: string -> Option<Octets>, key: string, fields: seq<Octets>)
    requires Encodable(c, encode, key) && |fields| == 5
    requires forall i :: 0 <= i < 5 ==> encode([c.algorithm, c.serialization, c.group, key, c.salt][i]) == Some(fields[i])
    ensures Writable(fields)
  {
    hide Power;
    var texts := [c.algorithm, c.serialization, c.group, key, c.salt];
    forall f | f in fields ensures |f| < Power(256, PREFIX) {
      var i :| 0 <= i < 5 && fields[i] == f;
      assert texts[i] in texts;
    }
  }

  /** Two requests with different keys are told apart: the digest is taken of two different inputs. */
  lemma KeysAreToldApart(
    r: Route, identity: map<string, string>, requestKey: Option<string>, key: string,
    identity': map<string, string>, requestKey': Option<string>, key': string,
    encode: string -> Option<Octets>, digest: Octets -> Octets) returns (input: Octets, input': Octets)
    requires (forall b :: |digest(b)| == 32) && r.rolloutEnabled && encode(key) != encode(key')
    requires HasKey(r.cohort, identity, requestKey, encode, key) && Encodable(r.cohort, encode, key)
    requires HasKey(r.cohort, identity', requestKey', encode, key') && Encodable(r.cohort, encode, key')
    ensures ChooseServing(r, identity, requestKey, encode, digest).slot == Some(Slot(digest(input)))
    ensures ChooseServing(r, identity', requestKey', encode, digest).slot == Some(Slot(digest(input')))
    ensures input != input'
  {
    hide Slot, Fraction, Serialize, Parse, Power;
    input := AssignmentIsExact(r, identity, requestKey, encode, digest, key);
    input' := AssignmentIsExact(r, identity', requestKey', encode, digest, key');
    EncodableParts(r.cohort, encode, key);
    EncodableParts(r.cohort, encode, key');
  }

  /** Routes of one group in an accepted snapshot assign every request alike. */
  lemma GroupsAssignAlike(
    routes: seq<Route>, allowed: set<string>, a: Route, b: Route, identity: map<string, string>,
    requestKey: Option<string>, encode: string -> Option<Octets>, digest: Octets -> Octets)
    requires RoutesOk(routes, allowed) && a in routes && b in routes && a.cohort.group == b.cohort.group
    requires forall b :: |digest(b)| == 32
    ensures ChooseServing(a, identity, requestKey, encode, digest) == ChooseServing(b, identity, requestKey, encode, digest)
  {
    assert GroupPolicy(a) == GroupPolicy(b);
  }

  /** Raising a route's ratio moves no request from v2 to v1; the rest of its assignment stays. */
  lemma RaisingKeepsAssignments(
    r: Route, high: real, identity: map<string, string>, requestKey: Option<string>,
    encode: string -> Option<Octets>, digest: Octets -> Octets)
    requires r.serveRatio <= high && forall b :: |digest(b)| == 32
    ensures
      var before := ChooseServing(r, identity, requestKey, encode, digest);
      var after := ChooseServing(r.(serveRatio := high), identity, requestKey, encode, digest);
      (before.v2 ==> after.v2) && after.reason == before.reason && after.slot == before.slot
  {
  }

  /** Feeds the digest field by field, as the source does; the input it has seen is the serialisation. */
  method DigestInput(fields: seq<Octets>) returns (input: Octets)
    ensures input == Serialize(fields)
  {
    input := [];
    var n := 0;
    while n < |fields|
      invariant 0 <= n <= |fields|
      invariant input + Serialize(fields[n..]) == Serialize(fields)
    {
      assert fields[n..][0] == fields[n] && fields[n..][1..] == fields[n + 1..];
      var before := input;
      input := input + BigEndian(|fields[n]|, PREFIX) + fields[n];
      assert input + Serialize(fields[n + 1..]) == before + Serialize(fields[n..]);
      n := n + 1;
    }
    assert input + [] == input;
  }
}
