/** When the cached path answers what the full-sync scan answers. */
module CacheAgreement {
  import opened Results
  import opened Text
  import opened Base64
  import opened Crypto
  import opened EncStrings
  import opened Mapping
  import opened Api
  import opened Vault

  // ---------- org keys survive the cache ----------

  ghost predicate KeysValid(keys: seq<OrgKey>) { forall i :: 0 <= i < |keys| ==> keys[i].key.Valid() }

  /** The cache holds these org keys. */
  predicate SameKeys(cache: CacheData, b: Bundle) { cache.orgKeys == KeyEntries(b.orgKeys) }

  /** The cache holds these collections and these org keys. */
  predicate KeysMatch(cache: CacheData, b: Bundle) { cache.collections == b.collections && SameKeys(cache, b) }

  lemma {:induction false} CachedOrgKeyIs(keys: seq<OrgKey>, org: string)
    requires KeysValid(keys)
    ensures CachedOrgKey(KeyEntries(keys), org) == FindOrgKey(keys, org)
  {
    hide Encode, Decode;
    if keys != [] {
      assert KeyEntries(keys)[1..] == KeyEntries(keys[1..]);
      CachedOrgKeyIs(keys[1..], org);
      DecodeEncode(Standard, keys[0].key.Blob());
      From64Blob(keys[0].key);
    }
  }

  /** The cached key of an organization is that of its first entry, if that is the base64 of a
      whole key; later entries are not tried. */
  lemma {:induction false} CachedOrgKeyIff(entries: seq<OrgKeyEntry>, org: string, k: SymmetricKey)
    ensures CachedOrgKey(entries, org) == Some(k) <==>
              exists i: nat :: i < |entries| && entries[i].orgId == org && (forall j :: 0 <= j < i ==> entries[j].orgId != org)
                               && k.Valid() && entries[i].keyB64 == Encode(Standard, k.enc + k.mac)
  {
    hide Encode, Decode;
    if entries != [] {
      var t := entries[1..];
      CachedOrgKeyIff(t, org, k);
      if entries[0].orgId == org {
        DecodeIffEncoded(Standard, entries[0].keyB64, k.Blob());
        if k.Valid() { From64Blob(k); }
        if Decode(Standard, entries[0].keyB64).Some? {
          var blob := Decode(Standard, entries[0].keyB64).value;
          if From64(blob) == Ok(k) { assert k.Blob() == blob; }
        }
      } else {
        if i: nat :| i < |t| && t[i].orgId == org && (forall j :: 0 <= j < i ==> t[j].orgId != org)
                     && k.Valid() && t[i].keyB64 == Encode(Standard, k.enc + k.mac) {
          forall j | 0 <= j < i + 1 ensures entries[j].orgId != org { if j > 0 { assert entries[j] == t[j - 1]; } }
          assert entries[i + 1] == t[i];
        }
        if i: nat :| i < |entries| && entries[i].orgId == org && (forall j :: 0 <= j < i ==> entries[j].orgId != org)
                     && k.Valid() && entries[i].keyB64 == Encode(Standard, k.enc + k.mac) {
          assert i > 0 && t[i - 1] == entries[i];
          forall j | 0 <= j < i - 1 ensures t[j].orgId != org { assert t[j] == entries[j + 1]; }
        }
      }
    }
  }

  lemma {:induction false} OrgKeysValid(su: Suite, orgs: seq<Org>, privateKey: bytes)
    ensures OrgKeysOf(su, orgs, privateKey).Ok? ==> KeysValid(OrgKeysOf(su, orgs, privateKey).value)
  {
    hide Parse;
    if orgs != [] { OrgKeysValid(su, orgs[1..], privateKey); }
  }

  lemma SyncedKeysValid(su: Suite, a: Answers, userKey: SymmetricKey)
    ensures SyncAndKeys(su, a, userKey).Ok? ==> KeysValid(SyncAndKeys(su, a, userKey).value.orgKeys)
  {
    hide Open, OrgKeysOf, NamedCollections, MapApi;
    if a.sync.Ok? && Open(su, a.sync.value.privateKey, userKey).Ok? {
      OrgKeysValid(su, a.sync.value.organizations, Open(su, a.sync.value.privateKey, userKey).value);
    }
  }

  /** When the cached path has a key for a cipher, the scan uses the same one. */
  lemma WarmKeyIsCipherKey(su: Suite, c: Cipher, cache: CacheData, b: Bundle, userKey: SymmetricKey)
    requires SameKeys(cache, b) && KeysValid(b.orgKeys)
    ensures WarmKey(su, c, cache, userKey).Some? ==>
            CipherKey(su, c, b.orgKeys, userKey) == Ok(WarmKey(su, c, cache, userKey).value)
  {
    hide EffectiveKey, KeyEntries;
    if c.organizationId.Some? { CachedOrgKeyIs(b.orgKeys, c.organizationId.value); }
  }

  // ---------- the first match ----------

  ghost predicate FirstMatch(su: Suite, b: Bundle, userKey: SymmetricKey, collId: string, item: string, i: nat) {
    && i < |b.ciphers|
    && Accepts(su, b.orgKeys, userKey, collId, item, b.ciphers[i])
    && forall j :: 0 <= j < i ==> !Accepts(su, b.orgKeys, userKey, collId, item, b.ciphers[j])
  }

  function FromMapped(r: Result<Secret, CryptoError>): ScanOutcome {
    match r case Ok(s) => Found(s) case Err(e) => Broken(e)
  }

  function Tail(b: Bundle): Bundle
    requires b.ciphers != []
  {
    b.(ciphers := b.ciphers[1..])
  }

  lemma {:induction false} ScanAtFirst(su: Suite, b: Bundle, userKey: SymmetricKey, collId: string, item: string, i: nat)
    requires FirstMatch(su, b, userKey, collId, item, i)
    ensures CipherKey(su, b.ciphers[i], b.orgKeys, userKey).Ok?
    ensures Scan(su, b.orgKeys, userKey, collId, item, b.ciphers)
            == FromMapped(Mapped(su, b.ciphers[i], CipherKey(su, b.ciphers[i], b.orgKeys, userKey).value))
    decreases i
  {
    hide Mapped, Dec, CipherKey;
    if i > 0 {
      assert !Accepts(su, b.orgKeys, userKey, collId, item, b.ciphers[0]);
      assert FirstMatch(su, Tail(b), userKey, collId, item, i - 1) by {
        forall j | 0 <= j < i - 1 ensures !Accepts(su, b.orgKeys, userKey, collId, item, b.ciphers[1..][j]) {
          assert b.ciphers[1..][j] == b.ciphers[j + 1];
        }
      }
      ScanAtFirst(su, Tail(b), userKey, collId, item, i - 1);
    }
  }

  lemma {:induction false} ScanWithoutMatch(su: Suite, b: Bundle, userKey: SymmetricKey, collId: string, item: string)
    requires forall j :: 0 <= j < |b.ciphers| ==> !Accepts(su, b.orgKeys, userKey, collId, item, b.ciphers[j])
    ensures Scan(su, b.orgKeys, userKey, collId, item, b.ciphers).Missing?
    decreases |b.ciphers|
  {
    hide Mapped, Accepts, Unwrappable;
    if b.ciphers != [] {
      assert !Accepts(su, b.orgKeys, userKey, collId, item, b.ciphers[0]);
      forall j | 0 <= j < |Tail(b).ciphers| ensures !Accepts(su, b.orgKeys, userKey, collId, item, Tail(b).ciphers[j]) {
        assert Tail(b).ciphers[j] == b.ciphers[j + 1];
      }
      ScanWithoutMatch(su, Tail(b), userKey, collId, item);
    }
  }

  lemma {:induction false} MatchExists(su: Suite, b: Bundle, userKey: SymmetricKey, collId: string, item: string, k: nat)
      returns (i: nat)
    requires k < |b.ciphers| && Accepts(su, b.orgKeys, userKey, collId, item, b.ciphers[k])
    ensures FirstMatch(su, b, userKey, collId, item, i) && i <= k
    decreases k
  {
    hide Accepts;
    if j :| 0 <= j < k && Accepts(su, b.orgKeys, userKey, collId, item, b.ciphers[j]) {
      i := MatchExists(su, b, userKey, collId, item, j);
    } else {
      i := k;
    }
  }

  /** The scan answers with a secret exactly when it is that of the first match. */
  lemma ScanFound(su: Suite, b: Bundle, userKey: SymmetricKey, collId: string, item: string, s: Secret) returns (i: nat)
    requires Scan(su, b.orgKeys, userKey, collId, item, b.ciphers) == Found(s)
    ensures FirstMatch(su, b, userKey, collId, item, i)
    ensures CipherKey(su, b.ciphers[i], b.orgKeys, userKey).Ok?
    ensures Mapped(su, b.ciphers[i], CipherKey(su, b.ciphers[i], b.orgKeys, userKey).value) == Ok(s)
  {
    hide Mapped, Accepts, CipherKey, Scan;
    if forall j :: 0 <= j < |b.ciphers| ==> !Accepts(su, b.orgKeys, userKey, collId, item, b.ciphers[j]) {
      ScanWithoutMatch(su, b, userKey, collId, item);
    }
    var k :| 0 <= k < |b.ciphers| && Accepts(su, b.orgKeys, userKey, collId, item, b.ciphers[k]);
    i := MatchExists(su, b, userKey, collId, item, k);
    ScanAtFirst(su, b, userKey, collId, item, i);
  }

  /** The scan breaks off exactly at a first match that does not map. */
  lemma ScanBroken(su: Suite, b: Bundle, userKey: SymmetricKey, collId: string, item: string, e: CryptoError) returns (i: nat)
    requires Scan(su, b.orgKeys, userKey, collId, item, b.ciphers) == Broken(e)
    ensures FirstMatch(su, b, userKey, collId, item, i)
    ensures CipherKey(su, b.ciphers[i], b.orgKeys, userKey).Ok?
    ensures Mapped(su, b.ciphers[i], CipherKey(su, b.ciphers[i], b.orgKeys, userKey).value) == Err(e)
  {
    hide Mapped, Accepts, CipherKey, Scan;
    if forall j :: 0 <= j < |b.ciphers| ==> !Accepts(su, b.orgKeys, userKey, collId, item, b.ciphers[j]) {
      ScanWithoutMatch(su, b, userKey, collId, item);
    }
    var k :| 0 <= k < |b.ciphers| && Accepts(su, b.orgKeys, userKey, collId, item, b.ciphers[k]);
    i := MatchExists(su, b, userKey, collId, item, k);
    ScanAtFirst(su, b, userKey, collId, item, i);
  }

  function CountUnwrappable(su: Suite, keys: seq<OrgKey>, userKey: SymmetricKey, collId: string, ciphers: seq<Cipher>): nat {
    |set i: nat | i < |ciphers| && Unwrappable(su, keys, userKey, collId, ciphers[i])|
  }

  lemma CountHead(su: Suite, b: Bundle, userKey: SymmetricKey, collId: string)
    requires b.ciphers != []
    ensures CountUnwrappable(su, b.orgKeys, userKey, collId, b.ciphers)
            == CountUnwrappable(su, b.orgKeys, userKey, collId, Tail(b).ciphers)
               + if Unwrappable(su, b.orgKeys, userKey, collId, b.ciphers[0]) then 1 else 0
  {
    hide Unwrappable;
    var all := set i: nat | i < |b.ciphers| && Unwrappable(su, b.orgKeys, userKey, collId, b.ciphers[i]);
    var rest := set i: nat | i < |Tail(b).ciphers| && Unwrappable(su, b.orgKeys, userKey, collId, Tail(b).ciphers[i]);
    var first: set<nat> := if Unwrappable(su, b.orgKeys, userKey, collId, b.ciphers[0]) then {0} else {};
    var moved := set i: nat | i in rest :: i + 1;
    forall i: nat ensures i in all <==> i in first + moved {
      if i > 0 && i < |b.ciphers| { assert Tail(b).ciphers[i - 1] == b.ciphers[i]; }
      if i in moved { assert i - 1 in rest; }
      if i > 0 && i in all { assert i - 1 in rest; }
    }
    assert all == first + moved;
    ShiftedSize(rest, moved);
    assert |first + moved| == |first| + |moved| by { assert first !! moved; }
  }

  lemma {:induction false} ShiftedSize(s: set<nat>, t: set<nat>)
    requires t == set i: nat | i in s :: i + 1
    ensures |t| == |s|
  {
    if s != {} {
      var x :| x in s;
      var t' := set i: nat | i in s - {x} :: i + 1;
      ShiftedSize(s - {x}, t');
      forall y: nat ensures y in t <==> y in t' + {x + 1} {
        if y in t {
          var i: nat :| i in s && y == i + 1;
          if i != x { assert i in s - {x}; }
        }
      }
      assert t == t' + {x + 1} && x + 1 !in t';
    }
  }

  /** The scan comes up empty exactly when it accepts no cipher, and then it reports how many
      ciphers of the collection have a key that does not unwrap. */
  lemma {:induction false} ScanMissingIff(su: Suite, b: Bundle, userKey: SymmetricKey, collId: string, item: string, n: nat)
    ensures Scan(su, b.orgKeys, userKey, collId, item, b.ciphers) == Missing(n) <==>
            (forall j :: 0 <= j < |b.ciphers| ==> !Accepts(su, b.orgKeys, userKey, collId, item, b.ciphers[j]))
            && n == CountUnwrappable(su, b.orgKeys, userKey, collId, b.ciphers)
    decreases |b.ciphers|
  {
    hide Mapped, Accepts, Unwrappable, CountUnwrappable;
    if b.ciphers == [] {
      NoneUnwrappable(su, b.orgKeys, userKey, collId);
    } else {
      CountHead(su, b, userKey, collId);
      var extra := if Unwrappable(su, b.orgKeys, userKey, collId, b.ciphers[0]) then 1 else 0;
      if n >= extra { ScanMissingIff(su, Tail(b), userKey, collId, item, n - extra); }
      if forall j :: 0 <= j < |b.ciphers| ==> !Accepts(su, b.orgKeys, userKey, collId, item, b.ciphers[j]) {
        forall j | 0 <= j < |Tail(b).ciphers| ensures !Accepts(su, b.orgKeys, userKey, collId, item, Tail(b).ciphers[j]) {
          assert Tail(b).ciphers[j] == b.ciphers[j + 1];
        }
      }
      if (forall j :: 0 <= j < |Tail(b).ciphers| ==> !Accepts(su, b.orgKeys, userKey, collId, item, Tail(b).ciphers[j]))
         && !Accepts(su, b.orgKeys, userKey, collId, item, b.ciphers[0]) {
        forall j | 0 <= j < |b.ciphers| ensures !Accepts(su, b.orgKeys, userKey, collId, item, b.ciphers[j]) {
          if j > 0 { assert Tail(b).ciphers[j - 1] == b.ciphers[j]; }
        }
      }
    }
  }

  lemma NoneUnwrappable(su: Suite, keys: seq<OrgKey>, userKey: SymmetricKey, collId: string)
    ensures CountUnwrappable(su, keys, userKey, collId, []) == 0
  {
    var empty: seq<Cipher> := [];
    assert (set i: nat | i < |empty| && Unwrappable(su, keys, userKey, collId, empty[i])) == {};
  }

  lemma MappedId(su: Suite, c: Cipher, k: SymmetricKey)
    ensures Mapped(su, c, k).Ok? ==> Mapped(su, c, k).value.meta.id == c.id
  {
    hide Run, Writes, Dec;
  }

  // ---------- what a warm hit is ----------

  function Reported(r: Result<Secret, CryptoError>): Result<Option<Secret>, ProviderError> {
    match r case Ok(s) => Ok(Some(s)) case Err(e) => Err(CryptoFailure(e))
  }

  /** The `m`-th candidate's fetch gave `c`, which opens under `k` to the wanted name. */
  ghost predicate HitAt(su: Suite, cache: CacheData, userKey: SymmetricKey, fetch: (nat, string) -> Result<Cipher, ApiError>,
                        entries: seq<CipherEntry>, item: string, n: nat, m: nat, c: Cipher, k: SymmetricKey) {
    && m < |entries| && fetch(n + m, entries[m].id) == Ok(c)
    && WarmKey(su, c, cache, userKey) == Some(k)
    && Dec(su, c.name, k).Ok? && EqFold(Dec(su, c.name, k).value, item)
  }

  lemma {:induction false} WarmHit(su: Suite, cache: CacheData, userKey: SymmetricKey,
                                   fetch: (nat, string) -> Result<Cipher, ApiError>, n: nat, entries: seq<CipherEntry>,
                                   item: string) returns (m: nat, c: Cipher, k: SymmetricKey)
    requires WarmFrom(su, cache, userKey, fetch, n, entries, item) != Ok(None)
    ensures HitAt(su, cache, userKey, fetch, entries, item, n, m, c, k)
    ensures WarmFrom(su, cache, userKey, fetch, n, entries, item) == Reported(Mapped(su, c, k))
    decreases |entries|
  {
    hide WarmKey, Dec, Mapped;
    var f := fetch(n, entries[0].id);
    if f.Ok? && WarmKey(su, f.value, cache, userKey).Some?
       && Dec(su, f.value.name, WarmKey(su, f.value, cache, userKey).value).Ok?
       && EqFold(Dec(su, f.value.name, WarmKey(su, f.value, cache, userKey).value).value, item) {
      m, c, k := 0, f.value, WarmKey(su, f.value, cache, userKey).value;
    } else {
      m, c, k := WarmHit(su, cache, userKey, fetch, n + 1, entries[1..], item);
      m := m + 1;
    }
  }

  lemma {:induction false} CandidatesAre(entries: seq<CipherEntry>, collId: string, item: string)
    ensures forall e :: e in Candidates(entries, collId, item) ==> e in entries && Candidate(e, collId, item)
  {
    hide Candidate;
    if entries != [] { CandidatesAre(entries[1..], collId, item); }
  }

  function Ids(c: Cipher): seq<string> { if c.collectionIds.Some? then c.collectionIds.value else [] }

  /** Entries and ciphers of the same id have the same owner and collections. */
  ghost predicate Agrees(cache: CacheData, ciphers: seq<Cipher>) {
    forall e, c :: e in cache.ciphers && c in ciphers && e.id == c.id ==>
      e.orgId == c.organizationId && e.collectionIds == Ids(c)
  }

  /** A personal cipher is in no collection. */
  ghost predicate NoLooseCollections(ciphers: seq<Cipher>) {
    forall c :: c in ciphers && c.organizationId.None? ==> Ids(c) == []
  }

  lemma HitIsAccepted(su: Suite, cache: CacheData, b: Bundle, userKey: SymmetricKey, collId: string, item: string,
                      e: CipherEntry, c: Cipher, k: SymmetricKey)
    requires KeysMatch(cache, b) && KeysValid(b.orgKeys)
    requires Candidate(e, collId, item) && e.orgId == c.organizationId && e.collectionIds == Ids(c)
    requires c.organizationId.None? ==> Ids(c) == []
    requires WarmKey(su, c, cache, userKey) == Some(k)
    requires Dec(su, c.name, k).Ok? && EqFold(Dec(su, c.name, k).value, item)
    ensures Accepts(su, b.orgKeys, userKey, collId, item, c) && CipherKey(su, c, b.orgKeys, userKey) == Ok(k)
  {
    hide WarmKey, CipherKey, Dec;
    WarmKeyIsCipherKey(su, c, cache, b, userKey);
  }

  // ---------- stale caches ----------

  /** Every fetch gives the cipher of that id in the state it meets, or fails. */
  ghost predicate FetchesFrom(fetch: (nat, string) -> Result<Cipher, ApiError>, states: nat -> seq<Cipher>) {
    forall n: nat, id: string :: fetch(n, id).Ok? ==> fetch(n, id) == FetchIn(states(n), id)
  }

  /** No two ciphers of the collection answer to the name. */
  ghost predicate UniqueMatch(su: Suite, b: Bundle, userKey: SymmetricKey, collId: string, item: string) {
    forall i, j :: 0 <= i < j < |b.ciphers| ==>
      !(Accepts(su, b.orgKeys, userKey, collId, item, b.ciphers[i]) && Accepts(su, b.orgKeys, userKey, collId, item, b.ciphers[j]))
  }

  ghost predicate UniqueFor(su: Suite, b: Bundle, userKey: SymmetricKey, coll: string, item: string) {
    var r := ResolveCollection(coll, b.collections);
    r.Some? ==> UniqueMatch(su, b, userKey, r.value, item)
  }

  function AtState(b: Bundle, ciphers: seq<Cipher>): Bundle { b.(ciphers := ciphers) }

  function Lifted(r: Result<Secret, ProviderError>): Result<Option<Secret>, ProviderError> {
    match r case Ok(s) => Ok(Some(s)) case Err(e) => Err(e)
  }

  /** Every fetch may fail, or meet the server in another state. A warm answer is the scan's answer
      in one of the states the call saw. */
  lemma WarmHitIsScan(su: Suite, userKey: SymmetricKey, cache: CacheData, b: Bundle, states: nat -> seq<Cipher>,
                      fetch: (nat, string) -> Result<Cipher, ApiError>, coll: string, item: string)
    requires FetchesFrom(fetch, states)
    requires KeysMatch(cache, b) && KeysValid(b.orgKeys)
    requires forall n: nat :: Agrees(cache, states(n)) && NoLooseCollections(states(n))
                              && UniqueFor(su, AtState(b, states(n)), userKey, coll, item)
    ensures var w := Warm(su, cache, userKey, fetch, coll, item);
            w == Ok(None) || exists n: nat :: w == Lifted(ScanAnswer(su, AtState(b, states(n)), userKey, coll, item))
  {
    hide WarmFrom, Accepts, CipherKey, WarmKey, Mapped, Dec, ResolveCollection, Candidate, Scan;
    var w := Warm(su, cache, userKey, fetch, coll, item);
    if w != Ok(None) {
      var collId := ResolveCollection(coll, cache.collections).value;
      var entries := Candidates(cache.ciphers, collId, item);
      var m, c, k := WarmHit(su, cache, userKey, fetch, 0, entries, item);
      CandidatesAre(cache.ciphers, collId, item);
      var now := AtState(b, states(m));
      assert UniqueFor(su, now, userKey, coll, item);
      HitIsAccepted(su, cache, now, userKey, collId, item, entries[m], c, k);
      var i :| 0 <= i < |now.ciphers| && now.ciphers[i] == c;
      var first := MatchExists(su, now, userKey, collId, item, i);
      assert first == i;
      ScanAtFirst(su, now, userKey, collId, item, i);
    }
  }

  /** A get against a server that stands still, though fetches may fail: the cache makes no difference. */
  lemma StaleCacheAgrees(su: Suite, userKey: SymmetricKey, cache: CacheData, b: Bundle, a: Answers,
                         coll: string, item: string)
    requires SyncAndKeys(su, a, userKey) == Ok(b) && FetchesFrom(a.fetch, (n: nat) => b.ciphers)
    requires KeysMatch(cache, b) && Agrees(cache, b.ciphers) && NoLooseCollections(b.ciphers)
    requires UniqueFor(su, b, userKey, coll, item)
    ensures Get(su, userKey, Some(cache), a, coll, item).answer == Get(su, userKey, None, a, coll, item).answer
  {
    hide Warm, ScanAnswer, SyncAndKeys, UniqueFor;
    SyncedKeysValid(su, a, userKey);
    var states := (n: nat) => b.ciphers;
    assert AtState(b, b.ciphers) == b;
    WarmHitIsScan(su, userKey, cache, b, states, a.fetch, coll, item);
  }
}
