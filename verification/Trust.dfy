/** Counting who vouches for a build (trust.go): distinct trusted keys, with
    revoked keys believed for nothing and strangers kept apart. The rule of
    one signature per key is the one of TUF, section 5.4.2. */
module Trust {
  import opened Options
  import opened Sorting
  import opened Text

  const MAX_SIGNATURES := 32
  const DEFAULT_THRESHOLD := 1

  datatype Signer = Signer(name: string, key: string)

  datatype RevokedKey = RevokedKey(name: string, key: string, because: string)

  /** `keyId` is the publisher's hint; it is not covered by the signature. */
  datatype Attestation = Attestation(payload: string, sig: string, keyId: string)

  datatype TrustSet = TrustSet(signers: seq<Signer>, threshold: int, revoked: seq<RevokedKey>)

  /** The cryptography the count rests on: whether a key signed a payload that
      commits to a digest, and the identifier a key goes by. */
  datatype Crypto = Crypto(signed: (string, string, string, string) -> bool, keyId: string -> string)

  datatype Result<T> =
    | Ok(value: T)
    | EmptyTrustSet
    | TooManySignatures(count: nat)
    | TooManyReferrers

  predicate Verifies(c: Crypto, key: string, digest: string, a: Attestation) {
    c.signed(key, digest, a.payload, a.sig)
  }

  function IdOf(c: Crypto, s: Signer): string { c.keyId(s.key) }

  // ----- what one attestation amounts to -----------------------------------------

  function FirstRevoked(c: Crypto, revoked: seq<RevokedKey>, digest: string, a: Attestation): Option<RevokedKey> {
    if revoked == [] then None
    else if Verifies(c, revoked[0].key, digest, a) then Some(revoked[0])
    else FirstRevoked(c, revoked[1..], digest, a)
  }

  function FirstSigner(c: Crypto, signers: seq<Signer>, digest: string, a: Attestation): Option<Signer> {
    if signers == [] then None
    else if Verifies(c, signers[0].key, digest, a) then Some(signers[0])
    else FirstSigner(c, signers[1..], digest, a)
  }

  function FirstHinted(c: Crypto, signers: seq<Signer>, digest: string, a: Attestation): Option<Signer> {
    if signers == [] then None
    else if IdOf(c, signers[0]) == a.keyId && Verifies(c, signers[0].key, digest, a) then Some(signers[0])
    else FirstHinted(c, signers[1..], digest, a)
  }

  /** The trusted key that made a signature, the hinted one tried first. */
  function TrustedBy(c: Crypto, t: TrustSet, digest: string, a: Attestation): Option<Signer> {
    var hinted := if a.keyId != "" then FirstHinted(c, t.signers, digest, a) else None;
    if hinted.Some? then hinted else FirstSigner(c, t.signers, digest, a)
  }

  datatype Verdict = ByRevoked(key: RevokedKey) | BySigner(signer: Signer) | ByStranger

  /** Revocation is looked at first. */
  function Judge(c: Crypto, t: TrustSet, digest: string, a: Attestation): Verdict {
    var r := FirstRevoked(c, t.revoked, digest, a);
    if r.Some? then ByRevoked(r.value)
    else
      var s := TrustedBy(c, t, digest, a);
      if s.Some? then BySigner(s.value) else ByStranger
  }

  method RevokedBy(c: Crypto, t: TrustSet, digest: string, a: Attestation) returns (r: Option<RevokedKey>)
    ensures r == FirstRevoked(c, t.revoked, digest, a)
  {
    var i := 0;
    assert t.revoked[0..] == t.revoked;
    while i < |t.revoked|
      invariant 0 <= i <= |t.revoked|
      invariant FirstRevoked(c, t.revoked, digest, a) == FirstRevoked(c, t.revoked[i..], digest, a)
    {
      if Verifies(c, t.revoked[i].key, digest, a) { return Some(t.revoked[i]); }
      assert t.revoked[i..][1..] == t.revoked[i + 1..];
      i := i + 1;
    }
    return None;
  }

  method VerifyOne(c: Crypto, t: TrustSet, digest: string, a: Attestation) returns (s: Option<Signer>)
    ensures s == TrustedBy(c, t, digest, a)
  {
    var n := |t.signers|;
    assert t.signers[0..] == t.signers;
    if a.keyId != "" {
      var i := 0;
      while i < n
        invariant 0 <= i <= n
        invariant FirstHinted(c, t.signers, digest, a) == FirstHinted(c, t.signers[i..], digest, a)
      {
        if IdOf(c, t.signers[i]) == a.keyId && Verifies(c, t.signers[i].key, digest, a) { return Some(t.signers[i]); }
        assert t.signers[i..][1..] == t.signers[i + 1..];
        i := i + 1;
      }
    }
    var i := 0;
    while i < n
      invariant 0 <= i <= n
      invariant FirstSigner(c, t.signers, digest, a) == FirstSigner(c, t.signers[i..], digest, a)
    {
      if Verifies(c, t.signers[i].key, digest, a) { return Some(t.signers[i]); }
      assert t.signers[i..][1..] == t.signers[i + 1..];
      i := i + 1;
    }
    return None;
  }

  // ----- the count ----------------------------------------------------------

  /** The key ids vouching among some attestations. */
  ghost function Vouching(c: Crypto, t: TrustSet, digest: string, atts: seq<Attestation>): set<string> {
    set a | a in atts && Judge(c, t, digest, a).BySigner? :: IdOf(c, Judge(c, t, digest, a).signer)
  }

  ghost function RevokedSeen(c: Crypto, t: TrustSet, digest: string, atts: seq<Attestation>): set<string> {
    set a | a in atts && Judge(c, t, digest, a).ByRevoked? :: c.keyId(Judge(c, t, digest, a).key.key)
  }

  ghost function Strangers(c: Crypto, t: TrustSet, digest: string, atts: seq<Attestation>): nat {
    if atts == [] then 0
    else Strangers(c, t, digest, atts[..|atts| - 1])
         + (if Judge(c, t, digest, atts[|atts| - 1]).ByStranger? then 1 else 0)
  }

  /** The names counted, in order of arrival: each key id's first signer. */
  ghost function NamesCounted(c: Crypto, t: TrustSet, digest: string, atts: seq<Attestation>): seq<string> {
    if atts == [] then []
    else
      var front, v := atts[..|atts| - 1], Judge(c, t, digest, atts[|atts| - 1]);
      NamesCounted(c, t, digest, front)
      + if v.BySigner? && IdOf(c, v.signer) !in Vouching(c, t, digest, front) then [v.signer.name] else []
  }

  /** The revoked keys found, in order of arrival, each key id's first entry. */
  ghost function RevokedFound(c: Crypto, t: TrustSet, digest: string, atts: seq<Attestation>): seq<RevokedKey> {
    if atts == [] then []
    else
      var front, v := atts[..|atts| - 1], Judge(c, t, digest, atts[|atts| - 1]);
      RevokedFound(c, t, digest, front)
      + if v.ByRevoked? && c.keyId(v.key.key) !in RevokedSeen(c, t, digest, front) then [v.key] else []
  }

  lemma FoundSnoc(c: Crypto, t: TrustSet, digest: string, atts: seq<Attestation>, a: Attestation)
    ensures var v := Judge(c, t, digest, a);
      && NamesCounted(c, t, digest, atts + [a]) == NamesCounted(c, t, digest, atts)
         + (if v.BySigner? && IdOf(c, v.signer) !in Vouching(c, t, digest, atts) then [v.signer.name] else [])
      && RevokedFound(c, t, digest, atts + [a]) == RevokedFound(c, t, digest, atts)
         + (if v.ByRevoked? && c.keyId(v.key.key) !in RevokedSeen(c, t, digest, atts) then [v.key] else [])
  {
    hide Judge, Vouching, RevokedSeen;
    assert (atts + [a])[..|atts|] == atts;
  }

  /** One entry per key id. */
  ghost predicate Deduped(c: Crypto, signers: seq<Signer>) {
    forall i, j :: 0 <= i < j < |signers| ==> IdOf(c, signers[i]) != IdOf(c, signers[j])
  }

  /** The configured names of some key ids, in configured order. */
  ghost function NamesFor(c: Crypto, signers: seq<Signer>, ids: set<string>): seq<string> {
    if signers == [] then []
    else (if IdOf(c, signers[0]) in ids then [signers[0].name] else []) + NamesFor(c, signers[1..], ids)
  }

  datatype Tally = Tally(names: seq<string>, untrusted: nat, revoked: seq<RevokedKey>)

  lemma {:induction false} FirstSignerListed(c: Crypto, signers: seq<Signer>, digest: string, a: Attestation)
    ensures var s := FirstSigner(c, signers, digest, a);
      s.Some? ==> s.value in signers && Verifies(c, s.value.key, digest, a)
    ensures var s := FirstHinted(c, signers, digest, a);
      s.Some? ==> s.value in signers && Verifies(c, s.value.key, digest, a) && IdOf(c, s.value) == a.keyId
  {
    if signers == [] {
    } else {
      FirstSignerListed(c, signers[1..], digest, a);
    }
  }

  lemma NamesForCons(c: Crypto, signers: seq<Signer>, ids: set<string>)
    requires signers != []
    ensures NamesFor(c, signers, ids)
      == (if IdOf(c, signers[0]) in ids then [signers[0].name] else []) + NamesFor(c, signers[1..], ids)
  {
  }

  lemma DedupedTail(c: Crypto, signers: seq<Signer>)
    requires Deduped(c, signers) && signers != []
    ensures Deduped(c, signers[1..]) && forall s :: s in signers[1..] ==> IdOf(c, s) != IdOf(c, signers[0])
  {
    hide IdOf;
    var rest := signers[1..];
    assert forall i :: 0 <= i < |rest| ==> rest[i] == signers[i + 1];
  }

  lemma {:induction false} NamesForGrows(c: Crypto, signers: seq<Signer>, ids: set<string>, s: Signer)
    requires Deduped(c, signers) && s in signers && IdOf(c, s) !in ids
    ensures multiset(NamesFor(c, signers, ids + {IdOf(c, s)})) == multiset(NamesFor(c, signers, ids)) + multiset{s.name}
  {
    hide *;
    var head, rest := signers[0], signers[1..];
    assert signers == [head] + rest;
    DedupedTail(c, signers);
    NamesForCons(c, signers, ids);
    NamesForCons(c, signers, ids + {IdOf(c, s)});
    if s in rest {
      NamesForGrows(c, rest, ids, s);
    } else {
      NamesForApart(c, rest, ids, IdOf(c, s));
    }
  }

  lemma {:induction false} NamesForApart(c: Crypto, signers: seq<Signer>, ids: set<string>, id: string)
    requires forall s :: s in signers ==> IdOf(c, s) != id
    ensures NamesFor(c, signers, ids + {id}) == NamesFor(c, signers, ids)
  {
    if signers == [] {
    } else {
      NamesForApart(c, signers[1..], ids, id);
    }
  }

  lemma VouchingSnoc(c: Crypto, t: TrustSet, digest: string, atts: seq<Attestation>, a: Attestation)
    ensures var v := Judge(c, t, digest, a);
      Vouching(c, t, digest, atts + [a])
      == Vouching(c, t, digest, atts) + (if v.BySigner? then {IdOf(c, v.signer)} else {})
  {
    hide Judge;
  }

  lemma RevokedSnoc(c: Crypto, t: TrustSet, digest: string, atts: seq<Attestation>, a: Attestation)
    ensures var v := Judge(c, t, digest, a);
      RevokedSeen(c, t, digest, atts + [a])
      == RevokedSeen(c, t, digest, atts) + (if v.ByRevoked? then {c.keyId(v.key.key)} else {})
  {
    hide Judge;
  }

  lemma StrangersSnoc(c: Crypto, t: TrustSet, digest: string, atts: seq<Attestation>, a: Attestation)
    ensures Strangers(c, t, digest, atts + [a])
      == Strangers(c, t, digest, atts) + (if Judge(c, t, digest, a).ByStranger? then 1 else 0)
  {
    hide Judge;
    assert (atts + [a])[..|atts|] == atts;
  }

  /** What the counters hold after some attestations. */
  ghost predicate Counted(c: Crypto, t: TrustSet, digest: string, atts: seq<Attestation>,
                          counted: set<string>, names: seq<string>, untrusted: nat,
                          seenRevoked: set<string>, revoked: seq<RevokedKey>)
  {
    && counted == Vouching(c, t, digest, atts) && names == NamesCounted(c, t, digest, atts)
    && untrusted == Strangers(c, t, digest, atts)
    && seenRevoked == RevokedSeen(c, t, digest, atts) && revoked == RevokedFound(c, t, digest, atts)
  }

  lemma {:induction false} NoNames(c: Crypto, signers: seq<Signer>)
    ensures NamesFor(c, signers, {}) == []
  {
    if signers == [] {
    } else {
      NoNames(c, signers[1..]);
    }
  }

  lemma StartCounted(c: Crypto, t: TrustSet, digest: string)
    ensures Counted(c, t, digest, [], {}, [], 0, {}, [])
  {
  }

  lemma CountRevoked(c: Crypto, t: TrustSet, digest: string, atts: seq<Attestation>, a: Attestation,
                     counted: set<string>, names: seq<string>, untrusted: nat,
                     seenRevoked: set<string>, revoked: seq<RevokedKey>)
    requires Counted(c, t, digest, atts, counted, names, untrusted, seenRevoked, revoked)
    requires Judge(c, t, digest, a).ByRevoked?
    ensures var r := Judge(c, t, digest, a).key;
      if c.keyId(r.key) in seenRevoked
      then Counted(c, t, digest, atts + [a], counted, names, untrusted, seenRevoked, revoked)
      else Counted(c, t, digest, atts + [a], counted, names, untrusted, seenRevoked + {c.keyId(r.key)}, revoked + [r])
  {
    hide Judge, Vouching, RevokedSeen, Strangers, NamesCounted, RevokedFound;
    VouchingSnoc(c, t, digest, atts, a);
    RevokedSnoc(c, t, digest, atts, a);
    StrangersSnoc(c, t, digest, atts, a);
    FoundSnoc(c, t, digest, atts, a);
    var id := c.keyId(Judge(c, t, digest, a).key.key);
    assert id in seenRevoked ==> seenRevoked + {id} == seenRevoked;
  }

  lemma CountStranger(c: Crypto, t: TrustSet, digest: string, atts: seq<Attestation>, a: Attestation,
                      counted: set<string>, names: seq<string>, untrusted: nat,
                      seenRevoked: set<string>, revoked: seq<RevokedKey>)
    requires Counted(c, t, digest, atts, counted, names, untrusted, seenRevoked, revoked)
    requires Judge(c, t, digest, a).ByStranger?
    ensures Counted(c, t, digest, atts + [a], counted, names, untrusted + 1, seenRevoked, revoked)
  {
    hide Judge, Vouching, RevokedSeen, Strangers, NamesCounted, RevokedFound;
    VouchingSnoc(c, t, digest, atts, a);
    RevokedSnoc(c, t, digest, atts, a);
    StrangersSnoc(c, t, digest, atts, a);
    FoundSnoc(c, t, digest, atts, a);
  }

  lemma JudgedListed(c: Crypto, t: TrustSet, digest: string, a: Attestation)
    requires Judge(c, t, digest, a).BySigner?
    ensures Judge(c, t, digest, a).signer in t.signers
  {
    FirstSignerListed(c, t.signers, digest, a);
    hide FirstSigner, FirstHinted, FirstRevoked, Verifies;
  }

  lemma CountSigner(c: Crypto, t: TrustSet, digest: string, atts: seq<Attestation>, a: Attestation,
                    counted: set<string>, names: seq<string>, untrusted: nat,
                    seenRevoked: set<string>, revoked: seq<RevokedKey>)
    requires Counted(c, t, digest, atts, counted, names, untrusted, seenRevoked, revoked)
    requires Judge(c, t, digest, a).BySigner?
    ensures var s := Judge(c, t, digest, a).signer;
      if IdOf(c, s) in counted
      then Counted(c, t, digest, atts + [a], counted, names, untrusted, seenRevoked, revoked)
      else Counted(c, t, digest, atts + [a], counted + {IdOf(c, s)}, names + [s.name], untrusted, seenRevoked, revoked)
  {
    hide Judge, Vouching, RevokedSeen, Strangers, NamesCounted, RevokedFound, IdOf;
    VouchingSnoc(c, t, digest, atts, a);
    RevokedSnoc(c, t, digest, atts, a);
    StrangersSnoc(c, t, digest, atts, a);
    FoundSnoc(c, t, digest, atts, a);
    var id := IdOf(c, Judge(c, t, digest, a).signer);
    assert id in counted ==> counted + {id} == counted;
  }

  /** What the tally holds. */
  ghost function TallyOf(c: Crypto, t: TrustSet, digest: string, atts: seq<Attestation>): Tally {
    Tally(Sort(NamesCounted(c, t, digest, atts), Le), Strangers(c, t, digest, atts), RevokedFound(c, t, digest, atts))
  }

  /** The tally, or why none is made. */
  ghost function Tallied(c: Crypto, t: TrustSet, digest: string, atts: seq<Attestation>): Result<Tally> {
    if t.signers == [] && t.revoked == [] then EmptyTrustSet
    else if |atts| > MAX_SIGNATURES then TooManySignatures(|atts|)
    else Ok(TallyOf(c, t, digest, atts))
  }

  /** The distinct trusted keys that signed, how many signatures strangers
      made, and the revoked keys found. */
  method Count(c: Crypto, t: TrustSet, digest: string, atts: seq<Attestation>) returns (r: Result<Tally>)
    ensures r == Tallied(c, t, digest, atts)
    ensures r.EmptyTrustSet? <==> t.signers == [] && t.revoked == []
    ensures r.TooManySignatures? <==> !(t.signers == [] && t.revoked == []) && |atts| > 32
  {
    hide *;
    TalliedIs(c, t, digest, atts);
    if t.signers == [] && t.revoked == [] { return EmptyTrustSet; }
    if |atts| > MAX_SIGNATURES { return TooManySignatures(|atts|); }
    var counted: set<string>, seenRevoked: set<string> := {}, {};
    var names: seq<string>, untrusted, revoked: seq<RevokedKey> := [], 0, [];
    StartCounted(c, t, digest);
    var i := 0;
    assert atts[..0] == [];
    while i < |atts|
      invariant 0 <= i <= |atts|
      invariant Counted(c, t, digest, atts[..i], counted, names, untrusted, seenRevoked, revoked)
    {
      var a := atts[i];
      assert atts[..i + 1] == atts[..i] + [a];
      JudgeIs(c, t, digest, a);
      var gone := RevokedBy(c, t, digest, a);
      if gone.Some? {
        CountRevoked(c, t, digest, atts[..i], a, counted, names, untrusted, seenRevoked, revoked);
        if c.keyId(gone.value.key) !in seenRevoked {
          seenRevoked := seenRevoked + {c.keyId(gone.value.key)};
          revoked := revoked + [gone.value];
        }
      } else {
        var s := VerifyOne(c, t, digest, a);
        if s.None? {
          CountStranger(c, t, digest, atts[..i], a, counted, names, untrusted, seenRevoked, revoked);
          untrusted := untrusted + 1;
        } else {
          CountSigner(c, t, digest, atts[..i], a, counted, names, untrusted, seenRevoked, revoked);
          if IdOf(c, s.value) !in counted {
            counted := counted + {IdOf(c, s.value)};
            names := names + [s.value.name];
          }
        }
      }
      i := i + 1;
    }
    assert atts[..i] == atts;
    r := Ok(Tally(Sort(names, Le), untrusted, revoked));
    CountedMeans(c, t, digest, atts, counted, names, untrusted, seenRevoked, revoked);
  }

  lemma JudgeIs(c: Crypto, t: TrustSet, digest: string, a: Attestation)
    ensures var r := FirstRevoked(c, t.revoked, digest, a);
      var s := TrustedBy(c, t, digest, a);
      Judge(c, t, digest, a)
      == if r.Some? then ByRevoked(r.value) else if s.Some? then BySigner(s.value) else ByStranger
  {
    hide FirstRevoked, TrustedBy;
  }

  lemma TalliedIs(c: Crypto, t: TrustSet, digest: string, atts: seq<Attestation>)
    ensures t.signers == [] && t.revoked == [] ==> Tallied(c, t, digest, atts) == EmptyTrustSet
    ensures t.signers != [] || t.revoked != [] ==>
      Tallied(c, t, digest, atts)
      == if |atts| > MAX_SIGNATURES then TooManySignatures(|atts|) else Ok(TallyOf(c, t, digest, atts))
    ensures MAX_SIGNATURES == 32
  {
    hide TallyOf;
  }

  lemma CountedMeans(c: Crypto, t: TrustSet, digest: string, atts: seq<Attestation>,
                     counted: set<string>, names: seq<string>, untrusted: nat,
                     seenRevoked: set<string>, revoked: seq<RevokedKey>)
    requires Counted(c, t, digest, atts, counted, names, untrusted, seenRevoked, revoked)
    ensures TallyOf(c, t, digest, atts) == Tally(Sort(names, Le), untrusted, revoked)
  {
    hide Vouching, RevokedSeen, Strangers, NamesCounted, RevokedFound, Sort;
  }

  /** As many names as key ids vouch. */
  lemma {:induction false} NamesOnce(c: Crypto, t: TrustSet, digest: string, atts: seq<Attestation>)
    ensures |NamesCounted(c, t, digest, atts)| == |Vouching(c, t, digest, atts)|
  {
    hide *;
    if atts == [] {
      NothingCounted(c, t, digest);
    } else {
      var front, a := atts[..|atts| - 1], atts[|atts| - 1];
      assert atts == front + [a];
      NamesOnce(c, t, digest, front);
      VouchingSnoc(c, t, digest, front, a);
      FoundSnoc(c, t, digest, front, a);
      var v, ids := Judge(c, t, digest, a), Vouching(c, t, digest, front);
      if v.BySigner? && IdOf(c, v.signer) in ids { assert ids + {IdOf(c, v.signer)} == ids; }
    }
  }

  function RevokedIds(c: Crypto, keys: seq<RevokedKey>): set<string> { set r | r in keys :: c.keyId(r.key) }

  /** One entry per key id. */
  ghost predicate RevokedApart(c: Crypto, keys: seq<RevokedKey>) {
    forall i, j :: 0 <= i < j < |keys| ==> c.keyId(keys[i].key) != c.keyId(keys[j].key)
  }

  /** The revoked keys seen, once each. */
  lemma {:induction false} RevokedOnce(c: Crypto, t: TrustSet, digest: string, atts: seq<Attestation>)
    ensures RevokedApart(c, RevokedFound(c, t, digest, atts))
    ensures RevokedIds(c, RevokedFound(c, t, digest, atts)) == RevokedSeen(c, t, digest, atts)
  {
    hide *;
    if atts == [] {
      NothingCounted(c, t, digest);
    } else {
      var front, a := atts[..|atts| - 1], atts[|atts| - 1];
      assert atts == front + [a];
      RevokedOnce(c, t, digest, front);
      RevokedSnoc(c, t, digest, front, a);
      FoundSnoc(c, t, digest, front, a);
      var v, ids, found := Judge(c, t, digest, a), RevokedSeen(c, t, digest, front), RevokedFound(c, t, digest, front);
      assert found + [] == found && ids + {} == ids;
      if v.ByRevoked? {
        RevokedIdsSnoc(c, found, v.key);
        if c.keyId(v.key.key) in ids { assert ids + {c.keyId(v.key.key)} == ids; }
      }
    }
  }

  lemma RevokedIdsSnoc(c: Crypto, keys: seq<RevokedKey>, r: RevokedKey)
    ensures RevokedIds(c, keys + [r]) == RevokedIds(c, keys) + {c.keyId(r.key)}
    ensures RevokedApart(c, keys) && c.keyId(r.key) !in RevokedIds(c, keys) ==> RevokedApart(c, keys + [r])
  {
    forall i | 0 <= i < |keys| ensures c.keyId(keys[i].key) in RevokedIds(c, keys) { assert keys[i] in keys; }
  }

  lemma NothingCounted(c: Crypto, t: TrustSet, digest: string)
    ensures Vouching(c, t, digest, []) == {} && RevokedSeen(c, t, digest, []) == {}
    ensures NamesCounted(c, t, digest, []) == [] && RevokedFound(c, t, digest, []) == []
    ensures RevokedIds(c, []) == {} && RevokedApart(c, [])
  {
  }

  // ----- what the count depends on ------------------------------------------------

  /** Each signature verifies under keys of one identifier at most. */
  ghost predicate OneKey(c: Crypto, t: TrustSet, digest: string, a: Attestation) {
    && (forall s, u ::
          s in t.signers && u in t.signers && Verifies(c, s.key, digest, a) && Verifies(c, u.key, digest, a)
          ==> IdOf(c, s) == IdOf(c, u))
    && (forall s, r ::
          s in t.signers && r in t.revoked && Verifies(c, s.key, digest, a) && Verifies(c, r.key, digest, a)
          ==> IdOf(c, s) == c.keyId(r.key))
  }

  lemma {:induction false} HintFindsFirst(c: Crypto, signers: seq<Signer>, digest: string, a: Attestation)
    requires forall s, u ::
      s in signers && u in signers && Verifies(c, s.key, digest, a) && Verifies(c, u.key, digest, a)
      ==> IdOf(c, s) == IdOf(c, u)
    requires FirstHinted(c, signers, digest, a).Some?
    ensures FirstHinted(c, signers, digest, a) == FirstSigner(c, signers, digest, a)
  {
    FirstSignerListed(c, signers, digest, a);
    if !(IdOf(c, signers[0]) == a.keyId && Verifies(c, signers[0].key, digest, a)) {
      FirstSignerListed(c, signers[1..], digest, a);
      HintFindsFirst(c, signers[1..], digest, a);
    }
  }

  /** A key-id hint decides the order of the search and never its outcome. */
  lemma HintIrrelevant(c: Crypto, t: TrustSet, digest: string, a: Attestation, hint: string)
    requires OneKey(c, t, digest, a)
    ensures Judge(c, t, digest, a.(keyId := hint)) == Judge(c, t, digest, a)
  {
    var b := a.(keyId := hint);
    SameSearch(c, t.revoked, t.signers, digest, a, b);
    hide FirstHinted, FirstSigner, FirstRevoked;
    if FirstHinted(c, t.signers, digest, a).Some? { HintFindsFirst(c, t.signers, digest, a); }
    if FirstHinted(c, t.signers, digest, b).Some? { HintFindsFirst(c, t.signers, digest, b); }
  }

  lemma {:induction false} SameSearch(c: Crypto, revoked: seq<RevokedKey>, signers: seq<Signer>, digest: string,
                                      a: Attestation, b: Attestation)
    requires a.payload == b.payload && a.sig == b.sig
    ensures FirstRevoked(c, revoked, digest, a) == FirstRevoked(c, revoked, digest, b)
    ensures FirstSigner(c, signers, digest, a) == FirstSigner(c, signers, digest, b)
    decreases |revoked| + |signers|
  {
    if revoked == [] {
    } else {
      SameSearch(c, revoked[1..], signers, digest, a, b);
    }
    if signers == [] {
    } else {
      SameSearch(c, revoked, signers[1..], digest, a, b);
    }
  }

  lemma {:induction false} SearchComplete(c: Crypto, signers: seq<Signer>, digest: string, a: Attestation)
    ensures FirstSigner(c, signers, digest, a).None? <==> forall s :: s in signers ==> !Verifies(c, s.key, digest, a)
  {
    if signers == [] {
    } else {
      assert signers == [signers[0]] + signers[1..];
      SearchComplete(c, signers[1..], digest, a);
    }
  }

  lemma {:induction false} RevokedComplete(c: Crypto, revoked: seq<RevokedKey>, digest: string, a: Attestation)
    ensures FirstRevoked(c, revoked, digest, a).None? <==> forall r :: r in revoked ==> !Verifies(c, r.key, digest, a)
  {
    if revoked == [] {
    } else {
      assert revoked == [revoked[0]] + revoked[1..];
      RevokedComplete(c, revoked[1..], digest, a);
    }
  }

  lemma JudgedSigner(c: Crypto, t: TrustSet, digest: string, a: Attestation)
    ensures var v := Judge(c, t, digest, a);
      v.BySigner? <==> (exists s :: s in t.signers && Verifies(c, s.key, digest, a))
                       && (forall r :: r in t.revoked ==> !Verifies(c, r.key, digest, a))
    ensures var v := Judge(c, t, digest, a);
      v.BySigner? ==> v.signer in t.signers && Verifies(c, v.signer.key, digest, a)
  {
    FirstSignerListed(c, t.signers, digest, a);
    SearchComplete(c, t.signers, digest, a);
    RevokedComplete(c, t.revoked, digest, a);
    hide FirstHinted, FirstSigner, FirstRevoked, Verifies;
  }

  /** Entry `k` is the first of the revoked keys under which the attestation
      verifies. */
  ghost predicate RevokedFirst(c: Crypto, revoked: seq<RevokedKey>, digest: string, a: Attestation, k: nat) {
    && k < |revoked| && Verifies(c, revoked[k].key, digest, a)
    && forall j :: 0 <= j < k ==> !Verifies(c, revoked[j].key, digest, a)
  }

  lemma {:induction false} RevokedPlace(c: Crypto, revoked: seq<RevokedKey>, digest: string, a: Attestation)
    ensures forall k: nat :: RevokedFirst(c, revoked, digest, a, k) ==>
      FirstRevoked(c, revoked, digest, a) == Some(revoked[k])
  {
    hide Verifies;
    if revoked == [] {
    } else {
      RevokedPlace(c, revoked[1..], digest, a);
      forall k: nat | RevokedFirst(c, revoked, digest, a, k)
        ensures FirstRevoked(c, revoked, digest, a) == Some(revoked[k])
      {
        if k > 0 {
          forall j | 0 <= j < k - 1 ensures !Verifies(c, revoked[1..][j].key, digest, a) {
            assert revoked[1..][j] == revoked[j + 1];
          }
          assert RevokedFirst(c, revoked[1..], digest, a, k - 1);
        }
      }
    }
  }

  lemma {:induction false} RevokedHas(c: Crypto, revoked: seq<RevokedKey>, digest: string, a: Attestation, n: nat)
    requires n <= |revoked| && exists r :: r in revoked[..n] && Verifies(c, r.key, digest, a)
    ensures exists k: nat :: RevokedFirst(c, revoked, digest, a, k)
  {
    hide Verifies;
    if exists r :: r in revoked[..n - 1] && Verifies(c, r.key, digest, a) {
      RevokedHas(c, revoked, digest, a, n - 1);
    } else {
      assert revoked[..n] == revoked[..n - 1] + [revoked[n - 1]];
      forall j | 0 <= j < n - 1 ensures !Verifies(c, revoked[j].key, digest, a) {
        assert revoked[j] in revoked[..n - 1] by { assert revoked[..n - 1][j] == revoked[j]; }
      }
      assert RevokedFirst(c, revoked, digest, a, n - 1);
    }
  }

  /** A verdict of revocation names the first revoked key under which the
      attestation verifies, and is given exactly when there is one; a stranger is
      who verifies under no key of either kind. */
  lemma RevokedVerdict(c: Crypto, t: TrustSet, digest: string, a: Attestation)
    ensures
      var v := Judge(c, t, digest, a);
      && (v.ByRevoked? <==> exists r :: r in t.revoked && Verifies(c, r.key, digest, a))
      && (v.ByRevoked? ==> exists k: nat :: RevokedFirst(c, t.revoked, digest, a, k) && v.key == t.revoked[k])
      && (v.ByStranger? <==>
            && (forall s :: s in t.signers ==> !Verifies(c, s.key, digest, a))
            && forall r :: r in t.revoked ==> !Verifies(c, r.key, digest, a))
  {
    RevokedComplete(c, t.revoked, digest, a);
    JudgedSigner(c, t, digest, a);
    RevokedPlace(c, t.revoked, digest, a);
    JudgeIs(c, t, digest, a);
    hide Verifies, FirstRevoked, TrustedBy, Judge;
    if r :| r in t.revoked && Verifies(c, r.key, digest, a) {
      assert t.revoked[..|t.revoked|] == t.revoked;
      RevokedHas(c, t.revoked, digest, a, |t.revoked|);
    }
  }

  /** A configured key id names one key among the trusted and the revoked. */
  ghost predicate IdsNameKeys(c: Crypto, t: TrustSet) {
    forall s, r :: s in t.signers && r in t.revoked && IdOf(c, s) == c.keyId(r.key) ==> s.key == r.key
  }

  /** Some attestation verifies under the trusted key `id`. */
  ghost predicate SignedBy(c: Crypto, t: TrustSet, digest: string, atts: seq<Attestation>, id: string) {
    exists s, a :: s in t.signers && a in atts && IdOf(c, s) == id && Verifies(c, s.key, digest, a)
  }

  /** The key ids counted are exactly those of the trusted keys that are not
      revoked and under which at least one attestation verifies. */
  lemma VouchingExact(c: Crypto, t: TrustSet, digest: string, atts: seq<Attestation>, id: string)
    requires forall a :: a in atts ==> OneKey(c, t, digest, a)
    requires IdsNameKeys(c, t)
    ensures id in Vouching(c, t, digest, atts)
      <==> (SignedBy(c, t, digest, atts, id) && forall r :: r in t.revoked ==> c.keyId(r.key) != id)
  {
    hide Judge, Verifies;
    if id in Vouching(c, t, digest, atts) {
      var a :| a in atts && Judge(c, t, digest, a).BySigner? && IdOf(c, Judge(c, t, digest, a).signer) == id;
      JudgedSigner(c, t, digest, a);
      var s := Judge(c, t, digest, a).signer;
      assert s in t.signers && Verifies(c, s.key, digest, a);
    }
    if SignedBy(c, t, digest, atts, id) && forall r :: r in t.revoked ==> c.keyId(r.key) != id {
      var s, a :| s in t.signers && a in atts && IdOf(c, s) == id && Verifies(c, s.key, digest, a);
      JudgedSigner(c, t, digest, a);
      assert OneKey(c, t, digest, a);
    }
  }

  /** An attestation without its hint. */
  function Unhinted(a: Attestation): Attestation { a.(keyId := "") }

  function AllUnhinted(atts: seq<Attestation>): (r: seq<Attestation>)
    ensures |r| == |atts| && forall i :: 0 <= i < |r| ==> r[i] == Unhinted(atts[i])
  {
    seq(|atts|, i requires 0 <= i < |atts| => Unhinted(atts[i]))
  }

  ghost predicate OneKeyEach(c: Crypto, t: TrustSet, digest: string, atts: seq<Attestation>) {
    forall a :: a in atts ==> OneKey(c, t, digest, a)
  }

  /** Each attestation is among the others, hint included or, where signatures
      verify under one key at most, hint aside. */
  ghost predicate Among(c: Crypto, t: TrustSet, digest: string, atts: seq<Attestation>, more: seq<Attestation>) {
    || (forall a :: a in atts ==> a in more)
    || (OneKeyEach(c, t, digest, atts) && OneKeyEach(c, t, digest, more)
        && forall a :: a in atts ==> Unhinted(a) in AllUnhinted(more))
  }

  /** Attestations that differ in their hints only amount to the same. */
  lemma JudgedAlike(c: Crypto, t: TrustSet, digest: string, a: Attestation, b: Attestation)
    requires OneKey(c, t, digest, a) && Unhinted(a) == Unhinted(b)
    ensures Judge(c, t, digest, a) == Judge(c, t, digest, b)
  {
    hide Judge, OneKey;
    HintIrrelevant(c, t, digest, a, b.keyId);
    assert a.(keyId := b.keyId) == b;
  }

  lemma AmongFinds(c: Crypto, t: TrustSet, digest: string, atts: seq<Attestation>, more: seq<Attestation>,
                   a: Attestation)
    returns (b: Attestation)
    requires Among(c, t, digest, atts, more) && a in atts
    ensures b in more && Judge(c, t, digest, b) == Judge(c, t, digest, a)
  {
    hide Judge, OneKey;
    if a in more { return a; }
    var i :| 0 <= i < |more| && AllUnhinted(more)[i] == Unhinted(a);
    b := more[i];
    JudgedAlike(c, t, digest, a, b);
  }

  /** Among more attestations nobody's vote is lost, and no revoked key is overlooked. */
  lemma VouchingGrows(c: Crypto, t: TrustSet, digest: string, atts: seq<Attestation>, more: seq<Attestation>)
    requires Among(c, t, digest, atts, more)
    ensures Vouching(c, t, digest, atts) <= Vouching(c, t, digest, more)
    ensures |Vouching(c, t, digest, atts)| <= |Vouching(c, t, digest, more)|
    ensures RevokedSeen(c, t, digest, atts) <= RevokedSeen(c, t, digest, more)
  {
    hide Judge, Among;
    var v, w := Vouching(c, t, digest, atts), Vouching(c, t, digest, more);
    forall a | a in atts ensures exists b :: b in more && Judge(c, t, digest, b) == Judge(c, t, digest, a) {
      var b := AmongFinds(c, t, digest, atts, more, a);
    }
    assert v <= w;
    assert w == v + (w - v);
  }

  /** Arrival order, repeats and hints change nobody's vote. */
  lemma VouchingOrderFree(c: Crypto, t: TrustSet, digest: string, atts: seq<Attestation>, atts': seq<Attestation>)
    requires Among(c, t, digest, atts, atts') && Among(c, t, digest, atts', atts)
    ensures Vouching(c, t, digest, atts) == Vouching(c, t, digest, atts')
    ensures RevokedSeen(c, t, digest, atts) == RevokedSeen(c, t, digest, atts')
  {
    hide *;
    VouchingGrows(c, t, digest, atts, atts');
    VouchingGrows(c, t, digest, atts', atts);
  }

  /** The untrusted total depends on the attestations alone, not on their order
      or on their hints. */
  lemma {:induction false} StrangersOrderFree(c: Crypto, t: TrustSet, digest: string, atts: seq<Attestation>,
                                              atts': seq<Attestation>)
    requires multiset(atts) == multiset(atts')
      || (multiset(AllUnhinted(atts)) == multiset(AllUnhinted(atts'))
          && OneKeyEach(c, t, digest, atts) && OneKeyEach(c, t, digest, atts'))
    ensures Strangers(c, t, digest, atts) == Strangers(c, t, digest, atts')
  {
    hide *;
    if multiset(atts) == multiset(atts') {
      StrangersPermuted(c, t, digest, atts, atts');
    } else {
      StrangersUnhinted(c, t, digest, atts);
      StrangersUnhinted(c, t, digest, atts');
      StrangersPermuted(c, t, digest, AllUnhinted(atts), AllUnhinted(atts'));
    }
  }

  lemma {:induction false} StrangersUnhinted(c: Crypto, t: TrustSet, digest: string, atts: seq<Attestation>)
    requires OneKeyEach(c, t, digest, atts)
    ensures Strangers(c, t, digest, AllUnhinted(atts)) == Strangers(c, t, digest, atts)
  {
    hide Judge, OneKey, Strangers;
    if atts == [] {
      assert AllUnhinted(atts) == [];
    } else {
      var front, a := atts[..|atts| - 1], atts[|atts| - 1];
      assert atts == front + [a];
      assert AllUnhinted(atts) == AllUnhinted(front) + [Unhinted(a)];
      StrangersUnhinted(c, t, digest, front);
      StrangersSnoc(c, t, digest, front, a);
      StrangersSnoc(c, t, digest, AllUnhinted(front), Unhinted(a));
      JudgedAlike(c, t, digest, a, Unhinted(a));
    }
  }

  lemma {:induction false} StrangersPermuted(c: Crypto, t: TrustSet, digest: string, atts: seq<Attestation>,
                                             atts': seq<Attestation>)
    requires multiset(atts) == multiset(atts')
    ensures Strangers(c, t, digest, atts) == Strangers(c, t, digest, atts')
  {
    hide *;
    assert |multiset(atts)| == |atts| && |multiset(atts')| == |atts'|;
    if atts == [] {
      assert atts' == [];
    } else {
      var front, a := atts[..|atts| - 1], atts[|atts| - 1];
      var k := TakeOut(atts, atts');
      assert atts == front + [a];
      StrangersPermuted(c, t, digest, front, atts'[..k] + atts'[k + 1..]);
      StrangersSnoc(c, t, digest, front, a);
      StrangersSkip(c, t, digest, atts'[..k], a, atts'[k + 1..]);
    }
  }

  lemma {:induction false} StrangersSkip(c: Crypto, t: TrustSet, digest: string, pre: seq<Attestation>,
                                         a: Attestation, post: seq<Attestation>)
    ensures Strangers(c, t, digest, pre + [a] + post)
      == Strangers(c, t, digest, pre + post) + (if Judge(c, t, digest, a).ByStranger? then 1 else 0)
    decreases |post|
  {
    hide Judge, Strangers;
    if post == [] {
      assert pre + [a] + post == pre + [a] && pre + post == pre;
      StrangersSnoc(c, t, digest, pre, a);
    } else {
      var front, last := post[..|post| - 1], post[|post| - 1];
      assert pre + [a] + post == (pre + [a] + front) + [last];
      assert pre + post == (pre + front) + [last];
      StrangersSnoc(c, t, digest, pre + [a] + front, last);
      StrangersSnoc(c, t, digest, pre + front, last);
      StrangersSkip(c, t, digest, pre, a, front);
    }
  }

  // ----- the verdict ---------------------------------------------------------

  datatype SignatureReport = SignatureReport(signers: seq<string>, untrusted: nat, malformed: nat,
                                             revoked: seq<RevokedKey>, threshold: int)
  {
    function Want(): int { if threshold < 1 then DEFAULT_THRESHOLD else threshold }

    predicate OK() { |signers| >= Want() }
  }

  /** The report on one build. */
  function Report(t: TrustSet, tally: Tally, malformed: nat): SignatureReport {
    SignatureReport(tally.names, tally.untrusted, malformed, tally.revoked, t.threshold)
  }

  /** A count is made and meets the threshold. */
  ghost predicate Meets(c: Crypto, t: TrustSet, digest: string, atts: seq<Attestation>) {
    Tallied(c, t, digest, atts).Ok? && Report(t, Tallied(c, t, digest, atts).value, 0).OK()
  }

  lemma MeetsIs(c: Crypto, t: TrustSet, digest: string, atts: seq<Attestation>, malformed: nat)
    ensures Meets(c, t, digest, atts)
      <==> !(t.signers == [] && t.revoked == []) && |atts| <= MAX_SIGNATURES
           && |Vouching(c, t, digest, atts)| >= if t.threshold < 1 then DEFAULT_THRESHOLD else t.threshold
    ensures Tallied(c, t, digest, atts).Ok? ==>
      (Meets(c, t, digest, atts) <==> Report(t, Tallied(c, t, digest, atts).value, malformed).OK())
  {
    hide Vouching, NamesCounted, Strangers, RevokedFound, Sort;
    NamesOnce(c, t, digest, atts);
  }

  /** A threshold once met stays met when more is attached, up to the number of
      signatures examined and no further. Repeating signatures, under whatever
      hints, never helps to meet it. */
  lemma ThresholdMonotone(c: Crypto, t: TrustSet, digest: string, atts: seq<Attestation>, more: seq<Attestation>)
    requires Among(c, t, digest, atts, more)
    ensures Meets(c, t, digest, atts) ==> (Meets(c, t, digest, more) <==> |more| <= MAX_SIGNATURES)
    ensures Among(c, t, digest, more, atts) && |atts| <= MAX_SIGNATURES && |more| <= MAX_SIGNATURES ==>
      (Meets(c, t, digest, atts) <==> Meets(c, t, digest, more))
  {
    hide Among, Vouching, Meets;
    MeetsIs(c, t, digest, atts, 0);
    MeetsIs(c, t, digest, more, 0);
    VouchingGrows(c, t, digest, atts, more);
    if Among(c, t, digest, more, atts) { VouchingGrows(c, t, digest, more, atts); }
  }

  /** One good signature meets the threshold; with 32 strangers' signatures
      beside it nothing is counted. */
  lemma CrowdedOut()
    ensures
      var c := Crypto((key, digest, payload, sig) => key == sig, key => key);
      var t := TrustSet([Signer("a", "a")], 1, []);
      var few := [Attestation("", "a", "")];
      var many := few + seq(32, i => Attestation("", "b", ""));
      && Meets(c, t, "", few) && Among(c, t, "", few, many)
      && Tallied(c, t, "", many) == TooManySignatures(33) && !Meets(c, t, "", many)
  {
    var c := Crypto((key, digest, payload, sig) => key == sig, key => key);
    var t := TrustSet([Signer("a", "a")], 1, []);
    var few := [Attestation("", "a", "")];
    var many := few + seq(32, i => Attestation("", "b", ""));
    assert Judge(c, t, "", few[0]) == BySigner(t.signers[0]);
    hide *;
    TalliedIs(c, t, "", many);
    OneVouches(c, t, "", few[0]);
    MeetsIs(c, t, "", few, 0);
    MeetsIs(c, t, "", many, 0);
    SomeAmong(c, t, "", few, many);
  }

  lemma OneVouches(c: Crypto, t: TrustSet, digest: string, a: Attestation)
    requires Judge(c, t, digest, a).BySigner?
    ensures |Vouching(c, t, digest, [a])| == 1 == DEFAULT_THRESHOLD
  {
    hide Judge, IdOf;
    assert a in [a];
    assert Vouching(c, t, digest, [a]) == {IdOf(c, Judge(c, t, digest, a).signer)};
  }

  lemma SomeAmong(c: Crypto, t: TrustSet, digest: string, atts: seq<Attestation>, more: seq<Attestation>)
    requires atts <= more
    ensures Among(c, t, digest, atts, more)
  {
    hide OneKeyEach;
  }

  // ----- from the referrers to the verdict ------------------------------------------

  /** What is attached to a build: something else, a signature nobody can read,
      or a signature. */
  datatype Referrer = Other | Unreadable | Signature(att: Attestation)

  function Attached(refs: seq<Referrer>): (r: seq<Attestation>)
    ensures |r| <= |refs|
  {
    if refs == [] then []
    else
      var last := refs[|refs| - 1];
      Attached(refs[..|refs| - 1]) + if last.Signature? then [last.att] else []
  }

  function Malformed(refs: seq<Referrer>): nat {
    if refs == [] then 0
    else Malformed(refs[..|refs| - 1]) + if refs[|refs| - 1].Unreadable? then 1 else 0
  }

  function SignatureCount(refs: seq<Referrer>): nat { |Attached(refs)| + Malformed(refs) }

  lemma ReferrerStep(refs: seq<Referrer>, i: nat)
    requires i < |refs|
    ensures Attached(refs[..i + 1]) == Attached(refs[..i]) + if refs[i].Signature? then [refs[i].att] else []
    ensures Malformed(refs[..i + 1]) == Malformed(refs[..i]) + if refs[i].Unreadable? then 1 else 0
  {
    assert refs[..i + 1][..i] == refs[..i];
  }

  lemma {:induction false} ReferrersGrow(refs: seq<Referrer>, i: nat)
    requires i <= |refs|
    ensures SignatureCount(refs[..i]) <= SignatureCount(refs)
    decreases |refs| - i
  {
    hide Attached, Malformed;
    if i == |refs| {
      assert refs[..i] == refs;
    } else {
      ReferrerStep(refs, i);
      ReferrersGrow(refs, i + 1);
    }
  }

  /** The signatures attached and how many could not be read; more than will be
      examined are refused before the count. */
  method SignatureAttestations(refs: seq<Referrer>) returns (r: Result<(seq<Attestation>, nat)>)
    ensures r
      == if SignatureCount(refs) > MAX_SIGNATURES then TooManyReferrers else Ok((Attached(refs), Malformed(refs)))
  {
    var atts: seq<Attestation>, malformed: nat := [], 0;
    hide Attached, Malformed;
    NoReferrers();
    assert refs[..0] == [];
    var i := 0;
    while i < |refs|
      invariant 0 <= i <= |refs|
      invariant atts == Attached(refs[..i]) && malformed == Malformed(refs[..i])
      invariant |atts| + malformed <= MAX_SIGNATURES
    {
      ReferrerStep(refs, i);
      if !refs[i].Other? {
        if |atts| + malformed >= MAX_SIGNATURES {
          ReferrersGrow(refs, i + 1);
          return TooManyReferrers;
        }
        if refs[i].Unreadable? { malformed := malformed + 1; } else { atts := atts + [refs[i].att]; }
      }
      i := i + 1;
    }
    assert refs[..i] == refs;
    return Ok((atts, malformed));
  }

  lemma NoReferrers()
    ensures Attached([]) == [] && Malformed([]) == 0
  {
  }

  /** What a build's referrers say. */
  ghost function Reported(c: Crypto, t: TrustSet, digest: string, refs: seq<Referrer>): Result<SignatureReport> {
    if SignatureCount(refs) > MAX_SIGNATURES then TooManyReferrers
    else if t.signers == [] && t.revoked == [] then EmptyTrustSet
    else Ok(Report(t, TallyOf(c, t, digest, Attached(refs)), Malformed(refs)))
  }

  /** The report on a build; the count's own limit is never what refuses. */
  method SignaturesOf(c: Crypto, t: TrustSet, digest: string, refs: seq<Referrer>) returns (r: Result<SignatureReport>)
    ensures r == Reported(c, t, digest, refs)
    ensures r.Ok? ==>
      && r.value.untrusted == Strangers(c, t, digest, Attached(refs)) && r.value.malformed == Malformed(refs)
      && r.value.threshold == t.threshold
  {
    hide Attached, Malformed, TallyOf, Tallied;
    var attached := SignatureAttestations(refs);
    if !attached.Ok? { return TooManyReferrers; }
    TalliedIs(c, t, digest, attached.value.0);
    var tally := Count(c, t, digest, attached.value.0);
    if !tally.Ok? { return EmptyTrustSet; }
    StrangersReported(c, t, digest, attached.value.0);
    return Ok(Report(t, tally.value, attached.value.1));
  }

  ghost predicate Vouched(c: Crypto, t: TrustSet, digest: string, refs: seq<Referrer>) {
    Reported(c, t, digest, refs).Ok? && Reported(c, t, digest, refs).value.OK()
  }

  /** A build once vouched for stays so when more is attached exactly while all
      its signatures, the unreadable ones among them, are examined. */
  lemma VerdictKept(c: Crypto, t: TrustSet, digest: string, refs: seq<Referrer>, more: seq<Referrer>)
    requires Vouched(c, t, digest, refs) && Among(c, t, digest, Attached(refs), Attached(more))
    ensures Vouched(c, t, digest, more) <==> SignatureCount(more) <= MAX_SIGNATURES
  {
    hide Attached, Malformed, Among, Vouched;
    VouchedMeets(c, t, digest, refs);
    VouchedMeets(c, t, digest, more);
    ThresholdMonotone(c, t, digest, Attached(refs), Attached(more));
  }

  lemma VouchedMeets(c: Crypto, t: TrustSet, digest: string, refs: seq<Referrer>)
    ensures Vouched(c, t, digest, refs)
      <==> SignatureCount(refs) <= MAX_SIGNATURES && Meets(c, t, digest, Attached(refs))
  {
    hide Attached, Malformed, TallyOf, SignatureReport.OK;
    MeetsIs(c, t, digest, Attached(refs), Malformed(refs));
  }

  // ----- the trust set itself ---------------------------------------------------

  /** No earlier entry has the key id of entry `k`. */
  ghost predicate FirstOfItsKey(c: Crypto, signers: seq<Signer>, k: nat)
    requires k < |signers|
  {
    forall j :: 0 <= j < k ==> IdOf(c, signers[j]) != IdOf(c, signers[k])
  }

  function Ids(c: Crypto, signers: seq<Signer>): set<string> { set s | s in signers :: IdOf(c, s) }

  /** The first entry of every key id, in configured order. */
  function FirstOfKeys(c: Crypto, signers: seq<Signer>): seq<Signer> {
    if signers == [] then []
    else
      var front, last := signers[..|signers| - 1], signers[|signers| - 1];
      FirstOfKeys(c, front) + if IdOf(c, last) in Ids(c, front) then [] else [last]
  }

  lemma NoIds(c: Crypto)
    ensures Ids(c, []) == {} && Deduped(c, []) && FirstOfKeys(c, []) == []
  {
  }

  lemma IdsStep(c: Crypto, signers: seq<Signer>, s: Signer)
    ensures Ids(c, signers + [s]) == Ids(c, signers) + {IdOf(c, s)}
    ensures Deduped(c, signers) && IdOf(c, s) !in Ids(c, signers) ==> Deduped(c, signers + [s])
  {
    hide IdOf;
    forall t | t in signers ensures IdOf(c, t) in Ids(c, signers) {}
  }

  lemma FirstOfKeysStep(c: Crypto, signers: seq<Signer>, i: nat)
    requires i < |signers|
    ensures FirstOfKeys(c, signers[..i + 1])
      == FirstOfKeys(c, signers[..i]) + if IdOf(c, signers[i]) in Ids(c, signers[..i]) then [] else [signers[i]]
  {
    hide IdOf, Ids;
    assert signers[..i + 1][..i] == signers[..i];
  }

  /** They are one entry per key id, of the same key ids: the first of each. */
  lemma {:induction false} FirstOfKeysAre(c: Crypto, signers: seq<Signer>, i: nat)
    requires i <= |signers|
    ensures
      var out := FirstOfKeys(c, signers[..i]);
      && Deduped(c, out) && Ids(c, out) == Ids(c, signers[..i])
      && (forall s :: s in out ==> exists k :: 0 <= k < i && signers[k] == s && FirstOfItsKey(c, signers, k))
      && (forall k :: 0 <= k < i && FirstOfItsKey(c, signers, k) ==> signers[k] in out)
  {
    hide *;
    NoIds(c);
    if i == 0 {
      assert signers[..0] == [];
    } else {
      FirstOfKeysAre(c, signers, i - 1);
      FirstOfKeysStep(c, signers, i - 1);
      var s := signers[i - 1];
      assert signers[..i] == signers[..i - 1] + [s];
      NewOrSeen(c, signers, i - 1);
      IdsStep(c, signers[..i - 1], s);
      IdsStep(c, FirstOfKeys(c, signers[..i - 1]), s);
      var before, ids := FirstOfKeys(c, signers[..i - 1]), Ids(c, signers[..i - 1]);
      if IdOf(c, s) in ids { assert ids + {IdOf(c, s)} == ids && before + [] == before; }
    }
  }

  /** Keeps the first entry of every key id, in order. */
  method DedupeSigners(c: Crypto, signers: seq<Signer>) returns (out: seq<Signer>)
    ensures out == FirstOfKeys(c, signers)
    ensures Deduped(c, out)
    ensures forall s :: s in out ==> exists k :: 0 <= k < |signers| && signers[k] == s && FirstOfItsKey(c, signers, k)
    ensures forall k :: 0 <= k < |signers| && FirstOfItsKey(c, signers, k) ==> signers[k] in out
    ensures Ids(c, out) == Ids(c, signers)
  {
    hide *;
    var seen: set<string> := {};
    out := [];
    NoIds(c);
    assert signers[..0] == [];
    var i := 0;
    while i < |signers|
      invariant 0 <= i <= |signers|
      invariant seen == Ids(c, signers[..i]) && out == FirstOfKeys(c, signers[..i])
    {
      var s := signers[i];
      assert signers[..i + 1] == signers[..i] + [s];
      FirstOfKeysStep(c, signers, i);
      IdsStep(c, signers[..i], s);
      if IdOf(c, s) !in seen {
        seen := seen + {IdOf(c, s)};
        out := out + [s];
      } else {
        assert seen + {IdOf(c, s)} == seen;
      }
      i := i + 1;
    }
    FirstOfKeysAre(c, signers, |signers|);
    assert signers[..|signers|] == signers;
  }

  lemma NewOrSeen(c: Crypto, signers: seq<Signer>, i: nat)
    requires i < |signers|
    ensures FirstOfItsKey(c, signers, i) <==> IdOf(c, signers[i]) !in Ids(c, signers[..i])
  {
    hide IdOf;
    forall j | 0 <= j < i ensures IdOf(c, signers[j]) in Ids(c, signers[..i]) {
      assert signers[..i][j] == signers[j];
      assert signers[j] in signers[..i];
    }
  }

  // ----- whose names are reported --------------------------------------------------

  /** A key id stands for one key among the signers; the same key may be listed
      under several names. */
  ghost predicate KeysById(c: Crypto, signers: seq<Signer>) {
    forall s, u :: s in signers && u in signers && IdOf(c, s) == IdOf(c, u) ==> s.key == u.key
  }

  /** Who signed is found as the first entry of its key id. */
  ghost predicate FoundFirst(c: Crypto, t: TrustSet, digest: string, atts: seq<Attestation>) {
    forall a :: a in atts && Judge(c, t, digest, a).BySigner? ==>
      Judge(c, t, digest, a).signer in FirstOfKeys(c, t.signers)
  }

  lemma {:induction false} FirstSignerPlace(c: Crypto, signers: seq<Signer>, digest: string, a: Attestation)
    returns (k: nat)
    requires FirstSigner(c, signers, digest, a).Some?
    ensures k < |signers| && signers[k] == FirstSigner(c, signers, digest, a).value
    ensures Verifies(c, signers[k].key, digest, a) && forall j :: 0 <= j < k ==> !Verifies(c, signers[j].key, digest, a)
  {
    hide Verifies;
    if Verifies(c, signers[0].key, digest, a) {
      k := 0;
    } else {
      var n := FirstSignerPlace(c, signers[1..], digest, a);
      k := n + 1;
      assert forall j :: 0 < j < k ==> signers[j] == signers[1..][j - 1];
    }
  }

  lemma SignerIsFirst(c: Crypto, t: TrustSet, digest: string, a: Attestation)
    requires OneKey(c, t, digest, a) && Judge(c, t, digest, a).BySigner?
    ensures FirstSigner(c, t.signers, digest, a) == Some(Judge(c, t, digest, a).signer)
  {
    hide FirstHinted, FirstSigner, FirstRevoked, Verifies;
    if FirstHinted(c, t.signers, digest, a).Some? { HintFindsFirst(c, t.signers, digest, a); }
  }

  /** With one key per signature and per key id it always is. */
  lemma SignersFoundFirst(c: Crypto, t: TrustSet, digest: string, atts: seq<Attestation>)
    requires OneKeyEach(c, t, digest, atts) && KeysById(c, t.signers)
    ensures FoundFirst(c, t, digest, atts)
  {
    hide Judge, OneKey, Verifies, FirstSigner, IdOf, FirstOfKeys, Deduped, Ids;
    FirstOfKeysAre(c, t.signers, |t.signers|);
    assert t.signers[..|t.signers|] == t.signers;
    forall a | a in atts && Judge(c, t, digest, a).BySigner?
      ensures Judge(c, t, digest, a).signer in FirstOfKeys(c, t.signers)
    {
      SignerIsFirst(c, t, digest, a);
      var k := FirstSignerPlace(c, t.signers, digest, a);
      assert FirstOfItsKey(c, t.signers, k);
    }
  }

  /** A list without repeated key ids is its own list of first entries. */
  lemma {:induction false} DedupedFirst(c: Crypto, signers: seq<Signer>, i: nat)
    requires Deduped(c, signers) && i <= |signers|
    ensures FirstOfKeys(c, signers[..i]) == signers[..i]
  {
    hide IdOf, FirstOfKeys;
    if i == 0 {
      NoIds(c);
      assert signers[..0] == [];
    } else {
      DedupedFirst(c, signers, i - 1);
      FirstOfKeysStep(c, signers, i - 1);
      NewOrSeen(c, signers, i - 1);
      assert signers[..i] == signers[..i - 1] + [signers[i - 1]];
    }
  }

  lemma DedupedFoundFirst(c: Crypto, t: TrustSet, digest: string, atts: seq<Attestation>)
    requires Deduped(c, t.signers)
    ensures FoundFirst(c, t, digest, atts)
  {
    hide Judge, FirstOfKeys, Deduped;
    DedupedFirst(c, t.signers, |t.signers|);
    assert t.signers[..|t.signers|] == t.signers;
    forall a | a in atts && Judge(c, t, digest, a).BySigner? ensures Judge(c, t, digest, a).signer in t.signers {
      JudgedListed(c, t, digest, a);
    }
  }

  /** A key id has one name: the trust set is deduplicated, or signatures and
      key ids tell keys apart. */
  ghost predicate OneName(c: Crypto, t: TrustSet, digest: string, atts: seq<Attestation>) {
    Deduped(c, t.signers) || (OneKeyEach(c, t, digest, atts) && KeysById(c, t.signers))
  }

  lemma OneNameFoundFirst(c: Crypto, t: TrustSet, digest: string, atts: seq<Attestation>)
    requires OneName(c, t, digest, atts)
    ensures FoundFirst(c, t, digest, atts)
  {
    hide Deduped, OneKeyEach, KeysById, FoundFirst;
    if Deduped(c, t.signers) {
      DedupedFoundFirst(c, t, digest, atts);
    } else {
      SignersFoundFirst(c, t, digest, atts);
    }
  }

  lemma {:induction false} NamesCountedAre(c: Crypto, t: TrustSet, digest: string, atts: seq<Attestation>)
    requires FoundFirst(c, t, digest, atts)
    ensures multiset(NamesCounted(c, t, digest, atts))
      == multiset(NamesFor(c, FirstOfKeys(c, t.signers), Vouching(c, t, digest, atts)))
  {
    hide *;
    var firsts := FirstOfKeys(c, t.signers);
    FirstOfKeysAre(c, t.signers, |t.signers|);
    assert t.signers[..|t.signers|] == t.signers;
    if atts == [] {
      NothingCounted(c, t, digest);
      NoNames(c, firsts);
    } else {
      var front, a := atts[..|atts| - 1], atts[|atts| - 1];
      assert atts == front + [a];
      FoundFirstSnoc(c, t, digest, front, a);
      NamesCountedAre(c, t, digest, front);
      VouchingSnoc(c, t, digest, front, a);
      FoundSnoc(c, t, digest, front, a);
      var v, ids := Judge(c, t, digest, a), Vouching(c, t, digest, front);
      if v.BySigner? && IdOf(c, v.signer) !in ids {
        NamesForGrows(c, firsts, ids, v.signer);
      } else {
        assert (if v.BySigner? then ids + {IdOf(c, v.signer)} else ids + {}) == ids;
        assert NamesCounted(c, t, digest, front) + [] == NamesCounted(c, t, digest, front);
      }
    }
  }

  lemma FoundFirstSnoc(c: Crypto, t: TrustSet, digest: string, front: seq<Attestation>, a: Attestation)
    requires FoundFirst(c, t, digest, front + [a])
    ensures FoundFirst(c, t, digest, front)
    ensures Judge(c, t, digest, a).BySigner? ==> Judge(c, t, digest, a).signer in FirstOfKeys(c, t.signers)
  {
    hide Judge, FirstOfKeys;
    assert a in front + [a] && forall x :: x in front ==> x in front + [a];
  }

  /** The names reported are those of the first entries of the key ids that
      vouch, sorted: a function of who vouches alone. */
  lemma NamesReported(c: Crypto, t: TrustSet, digest: string, atts: seq<Attestation>)
    requires OneName(c, t, digest, atts)
    ensures
      var r, ids := TallyOf(c, t, digest, atts), Vouching(c, t, digest, atts);
      r.names == Sort(NamesFor(c, FirstOfKeys(c, t.signers), ids), Le) && |r.names| == |ids|
  {
    hide OneName, FoundFirst, NamesFor, FirstOfKeys, Vouching, NamesCounted, Sort, Le, Strangers, RevokedFound;
    OneNameFoundFirst(c, t, digest, atts);
    NamesCountedAre(c, t, digest, atts);
    SortStrings(NamesCounted(c, t, digest, atts), NamesFor(c, FirstOfKeys(c, t.signers), Vouching(c, t, digest, atts)));
    NamesOnce(c, t, digest, atts);
  }

  /** The revoked keys reported are those that signed, each once. */
  lemma RevokedReported(c: Crypto, t: TrustSet, digest: string, atts: seq<Attestation>)
    ensures
      var revoked := TallyOf(c, t, digest, atts).revoked;
      RevokedApart(c, revoked) && RevokedIds(c, revoked) == RevokedSeen(c, t, digest, atts)
  {
    hide RevokedFound, RevokedSeen, NamesCounted, Strangers, Sort, RevokedApart, RevokedIds;
    RevokedOnce(c, t, digest, atts);
  }

  /** Each signature verifies under revoked keys of one identifier at most. */
  ghost predicate OneRevokedEach(c: Crypto, t: TrustSet, digest: string, atts: seq<Attestation>) {
    forall a, r, q :: a in atts && BothVerify(c, t, digest, a, r, q) ==> c.keyId(r.key) == c.keyId(q.key)
  }

  ghost predicate BothVerify(c: Crypto, t: TrustSet, digest: string, a: Attestation, r: RevokedKey, q: RevokedKey) {
    r in t.revoked && q in t.revoked && Verifies(c, r.key, digest, a) && Verifies(c, q.key, digest, a)
  }

  /** A key id is reported as revoked exactly when some revoked key of that id
      signed. */
  lemma RevokedExact(c: Crypto, t: TrustSet, digest: string, atts: seq<Attestation>, id: string)
    requires OneRevokedEach(c, t, digest, atts)
    ensures id in RevokedIds(c, TallyOf(c, t, digest, atts).revoked)
      <==> exists r, a :: r in t.revoked && a in atts && c.keyId(r.key) == id && Verifies(c, r.key, digest, a)
  {
    RevokedReported(c, t, digest, atts);
    hide RevokedFound, NamesCounted, Strangers, Sort, RevokedApart, RevokedIds, Verifies, Judge, TallyOf;
    forall a ensures a in atts && Judge(c, t, digest, a).ByRevoked? ==>
      var r := Judge(c, t, digest, a).key;
      r in t.revoked && Verifies(c, r.key, digest, a)
    {
      RevokedVerdict(c, t, digest, a);
    }
    if r, a :| r in t.revoked && a in atts && c.keyId(r.key) == id && Verifies(c, r.key, digest, a) {
      RevokedVerdict(c, t, digest, a);
      var q := Judge(c, t, digest, a).key;
      assert BothVerify(c, t, digest, a, r, q);
    }
  }

  lemma {:induction false} NamesForMore(c: Crypto, signers: seq<Signer>, ids: set<string>, ids': set<string>)
    requires ids <= ids'
    ensures multiset(NamesFor(c, signers, ids)) <= multiset(NamesFor(c, signers, ids'))
  {
    hide NamesFor;
    if signers == [] {
      NoSigners(c, ids);
    } else {
      NamesForMore(c, signers[1..], ids, ids');
      NamesForCons(c, signers, ids);
      NamesForCons(c, signers, ids');
    }
  }

  lemma NoSigners(c: Crypto, ids: set<string>)
    ensures NamesFor(c, [], ids) == []
  {
  }

  /** Attaching more, under whatever hints, takes no name and no revoked key from
      the tally, up to the number of signatures examined; past it there is none. */
  lemma TallyGrows(c: Crypto, t: TrustSet, digest: string, atts: seq<Attestation>, more: seq<Attestation>)
    requires Tallied(c, t, digest, atts).Ok? && Among(c, t, digest, atts, more)
    requires OneName(c, t, digest, atts) && OneName(c, t, digest, more)
    ensures Tallied(c, t, digest, more).Ok? <==> |more| <= MAX_SIGNATURES
    ensures Tallied(c, t, digest, more).Ok? ==>
      var r, r' := Tallied(c, t, digest, atts).value, Tallied(c, t, digest, more).value;
      multiset(r.names) <= multiset(r'.names) && RevokedIds(c, r.revoked) <= RevokedIds(c, r'.revoked)
  {
    hide *;
    TalliedIs(c, t, digest, atts);
    TalliedIs(c, t, digest, more);
    NamesReported(c, t, digest, atts);
    NamesReported(c, t, digest, more);
    RevokedReported(c, t, digest, atts);
    RevokedReported(c, t, digest, more);
    VouchingGrows(c, t, digest, atts, more);
    var firsts := FirstOfKeys(c, t.signers);
    NamesForMore(c, firsts, Vouching(c, t, digest, atts), Vouching(c, t, digest, more));
    SortPermutes(NamesFor(c, firsts, Vouching(c, t, digest, atts)), Le);
    SortPermutes(NamesFor(c, firsts, Vouching(c, t, digest, more)), Le);
  }

  lemma PermutedAmong(c: Crypto, t: TrustSet, digest: string, atts: seq<Attestation>, atts': seq<Attestation>)
    requires OneKeyEach(c, t, digest, atts) && OneKeyEach(c, t, digest, atts')
    requires multiset(AllUnhinted(atts)) == multiset(AllUnhinted(atts'))
    ensures Among(c, t, digest, atts, atts')
  {
    hide OneKey, OneKeyEach;
    forall a | a in atts ensures Unhinted(a) in AllUnhinted(atts') {
      var i :| 0 <= i < |atts| && atts[i] == a;
      assert AllUnhinted(atts)[i] in multiset(AllUnhinted(atts));
      assert Unhinted(a) in multiset(AllUnhinted(atts'));
    }
  }

  /** Names, untrusted total and revoked keys are the same for the same
      signatures in any order and under any hints. */
  lemma CountOrderFree(c: Crypto, t: TrustSet, digest: string, atts: seq<Attestation>, atts': seq<Attestation>)
    requires OneKeyEach(c, t, digest, atts) && OneKeyEach(c, t, digest, atts')
    requires Deduped(c, t.signers) || KeysById(c, t.signers)
    requires multiset(AllUnhinted(atts)) == multiset(AllUnhinted(atts'))
    ensures
      var r, r' := Tallied(c, t, digest, atts), Tallied(c, t, digest, atts');
      if r.Ok? then r'.Ok? && SameTally(c, r.value, r'.value) else r == r'
  {
    hide *;
    PermutedAmong(c, t, digest, atts, atts');
    PermutedAmong(c, t, digest, atts', atts);
    VouchingOrderFree(c, t, digest, atts, atts');
    OneNameEither(c, t, digest, atts);
    OneNameEither(c, t, digest, atts');
    NamesReported(c, t, digest, atts);
    NamesReported(c, t, digest, atts');
    RevokedReported(c, t, digest, atts);
    RevokedReported(c, t, digest, atts');
    StrangersOrderFree(c, t, digest, atts, atts');
    StrangersReported(c, t, digest, atts);
    StrangersReported(c, t, digest, atts');
    SameTallyIs(c, TallyOf(c, t, digest, atts), TallyOf(c, t, digest, atts'));
    TalliedIs(c, t, digest, atts);
    TalliedIs(c, t, digest, atts');
    assert |multiset(AllUnhinted(atts))| == |atts| && |multiset(AllUnhinted(atts'))| == |atts'|;
  }

  /** Equal up to the order in which revoked keys were met. */
  ghost predicate SameTally(c: Crypto, r: Tally, r': Tally) {
    r.names == r'.names && r.untrusted == r'.untrusted && RevokedIds(c, r.revoked) == RevokedIds(c, r'.revoked)
  }

  lemma SameTallyIs(c: Crypto, r: Tally, r': Tally)
    ensures SameTally(c, r, r')
      <==> r.names == r'.names && r.untrusted == r'.untrusted && RevokedIds(c, r.revoked) == RevokedIds(c, r'.revoked)
  {
  }

  lemma OneNameEither(c: Crypto, t: TrustSet, digest: string, atts: seq<Attestation>)
    requires OneKeyEach(c, t, digest, atts) && (Deduped(c, t.signers) || KeysById(c, t.signers))
    ensures OneName(c, t, digest, atts)
  {
    hide OneKeyEach, Deduped, KeysById;
  }

  lemma StrangersReported(c: Crypto, t: TrustSet, digest: string, atts: seq<Attestation>)
    ensures TallyOf(c, t, digest, atts).untrusted == Strangers(c, t, digest, atts)
  {
    hide Strangers, NamesCounted, RevokedFound, Sort;
  }

  /** A signature attached again, under whatever hint, changes nothing but the
      untrusted total, and that only if a stranger made it; past the number of
      signatures examined it undoes the count. */
  lemma RepeatAddsNothing(c: Crypto, t: TrustSet, digest: string, atts: seq<Attestation>, a: Attestation,
                          b: Attestation)
    requires a in atts && Unhinted(a) == Unhinted(b) && OneKeyEach(c, t, digest, atts)
    requires Tallied(c, t, digest, atts).Ok?
    ensures
      var r := Tallied(c, t, digest, atts).value;
      Tallied(c, t, digest, atts + [b])
      == if |atts| == MAX_SIGNATURES then TooManySignatures(MAX_SIGNATURES + 1)
         else Ok(r.(untrusted := r.untrusted + if Judge(c, t, digest, a).ByStranger? then 1 else 0))
  {
    hide Judge, OneKey, Vouching, NamesCounted, Strangers, RevokedFound, RevokedSeen, Sort, Le, IdOf;
    JudgedAlike(c, t, digest, a, b);
    FoundSnoc(c, t, digest, atts, b);
    StrangersSnoc(c, t, digest, atts, b);
    VouchingHas(c, t, digest, atts, a);
    assert NamesCounted(c, t, digest, atts) + [] == NamesCounted(c, t, digest, atts);
    assert RevokedFound(c, t, digest, atts) + [] == RevokedFound(c, t, digest, atts);
  }

  lemma VouchingHas(c: Crypto, t: TrustSet, digest: string, atts: seq<Attestation>, a: Attestation)
    requires a in atts
    ensures Judge(c, t, digest, a).BySigner? ==> IdOf(c, Judge(c, t, digest, a).signer) in Vouching(c, t, digest, atts)
    ensures Judge(c, t, digest, a).ByRevoked? ==>
      c.keyId(Judge(c, t, digest, a).key.key) in RevokedSeen(c, t, digest, atts)
  {
    hide Judge, IdOf;
  }
}
