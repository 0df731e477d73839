/** Caches of the current state, failing fetches, and exactly which stale caches change an answer. */
module CacheFreshness {
  import opened Results
  import opened Text
  import opened Crypto
  import opened Mapping
  import opened Api
  import opened Vault
  import opened CacheAgreement
  import opened SampleVault

  // ---------- a cache of the current state ----------

  /** The first candidate in the index is the first cipher the scan accepts. */
  lemma {:induction false} CandidatesFollowScan(su: Suite, b: Bundle, userKey: SymmetricKey, collId: string, item: string)
    requires NoLooseCollections(b.ciphers)
    ensures var cs := Candidates(IndexOf(su, b.ciphers, b.orgKeys, userKey), collId, item);
            if cs == [] then forall j :: 0 <= j < |b.ciphers| ==> !Accepts(su, b.orgKeys, userKey, collId, item, b.ciphers[j])
            else exists i: nat :: FirstMatch(su, b, userKey, collId, item, i) && b.ciphers[i].id == cs[0].id
    decreases |b.ciphers|
  {
    hide Dec, CipherKey, EqFold;
    if b.ciphers != [] {
      var c, t := b.ciphers[0], Tail(b);
      CandidatesFollowScan(su, t, userKey, collId, item);
      HeadEntry(su, b, userKey, collId, item);
      var cs := Candidates(IndexOf(su, b.ciphers, b.orgKeys, userKey), collId, item);
      if Accepts(su, b.orgKeys, userKey, collId, item, c) {
        assert FirstMatch(su, b, userKey, collId, item, 0);
      } else if cs == [] {
        forall j | 0 <= j < |b.ciphers| ensures !Accepts(su, b.orgKeys, userKey, collId, item, b.ciphers[j]) {
          if j > 0 { assert b.ciphers[j] == t.ciphers[j - 1]; }
        }
      } else {
        var i: nat :| FirstMatch(su, t, userKey, collId, item, i) && t.ciphers[i].id == cs[0].id;
        assert b.ciphers[i + 1] == t.ciphers[i];
        forall j | 0 <= j < i + 1 ensures !Accepts(su, b.orgKeys, userKey, collId, item, b.ciphers[j]) {
          if j > 0 { assert b.ciphers[j] == t.ciphers[j - 1]; }
        }
        assert FirstMatch(su, b, userKey, collId, item, i + 1);
      }
    }
  }

  /** The head cipher leads the candidates exactly when the scan accepts it. */
  lemma HeadEntry(su: Suite, b: Bundle, userKey: SymmetricKey, collId: string, item: string)
    requires b.ciphers != [] && NoLooseCollections(b.ciphers)
    ensures NoLooseCollections(Tail(b).ciphers)
    ensures var c := b.ciphers[0];
            var cs := Candidates(IndexOf(su, b.ciphers, b.orgKeys, userKey), collId, item);
            if Accepts(su, b.orgKeys, userKey, collId, item, c) then cs != [] && cs[0].id == c.id
            else cs == Candidates(IndexOf(su, Tail(b).ciphers, b.orgKeys, userKey), collId, item)
  {
    hide Dec, CipherKey, EqFold;
    var c := b.ciphers[0];
    var k := CipherKey(su, c, b.orgKeys, userKey);
    if k.Ok? && Dec(su, c.name, k.value).Ok? {
      var rest := IndexOf(su, b.ciphers[1..], b.orgKeys, userKey);
      var e := CipherEntry(c.id, c.organizationId, Dec(su, c.name, k.value).value, Ids(c));
      assert IndexOf(su, b.ciphers, b.orgKeys, userKey) == [e] + rest;
      assert ([e] + rest)[1..] == rest;
      assert c in b.ciphers;
      assert Candidate(e, collId, item) <==> Accepts(su, b.orgKeys, userKey, collId, item, c);
      assert Candidates([e] + rest, collId, item)
             == (if Candidate(e, collId, item) then [e] else []) + Candidates(rest, collId, item);
    }
  }

  /** With a cache of the current state and fetches that agree with the sync, the cache makes
      no difference: the same secret, the same homonym, the same error of every kind. */
  lemma FreshCacheAgrees(su: Suite, userKey: SymmetricKey, account: Option<string>, b: Bundle, a: Answers,
                         coll: string, item: string)
    requires SyncAndKeys(su, a, userKey) == Ok(b) && NoLooseCollections(b.ciphers)
    requires forall n: nat, i :: 0 <= i < |b.ciphers| ==> a.fetch(n, b.ciphers[i].id) == Ok(b.ciphers[i])
    ensures var cache := CacheOf(su, b, account, userKey);
            Get(su, userKey, Some(cache), a, coll, item).answer == Get(su, userKey, None, a, coll, item).answer
  {
    hide SyncAndKeys, ResolveCollection, Accepts, CipherKey, WarmKey, Mapped, Dec, IndexOf, Candidates, Scan, EqFold, KeyEntries;
    SyncedKeysValid(su, a, userKey);
    var cache := CacheOf(su, b, account, userKey);
    var r := ResolveCollection(coll, b.collections);
    if r.Some? {
      var cs := Candidates(cache.ciphers, r.value, item);
      CandidatesFollowScan(su, b, userKey, r.value, item);
      if cs != [] {
        var i: nat :| FirstMatch(su, b, userKey, r.value, item, i) && b.ciphers[i].id == cs[0].id;
        var c := b.ciphers[i];
        WarmKeyIsCipherKey(su, c, cache, b, userKey);
        AcceptedName(su, b, userKey, r.value, item, c);
        ScanAtFirst(su, b, userKey, r.value, item, i);
        assert a.fetch(0, cs[0].id) == Ok(c);
      }
    }
  }

  /** A cache of the current state is used: when the scan would stop at a personal cipher, or one
      whose organization's key is known, the cached path answers without a sync. */
  lemma FreshCacheHits(su: Suite, userKey: SymmetricKey, account: Option<string>, b: Bundle,
                       fetch: (nat, string) -> Result<Cipher, ApiError>, coll: string, item: string, collId: string, i: nat)
    requires KeysValid(b.orgKeys) && NoLooseCollections(b.ciphers) && ResolveCollection(coll, b.collections) == Some(collId)
    requires FirstMatch(su, b, userKey, collId, item, i)
    requires forall n: nat, j :: 0 <= j < |b.ciphers| ==> fetch(n, b.ciphers[j].id) == Ok(b.ciphers[j])
    requires b.ciphers[i].organizationId.Some? ==> FindOrgKey(b.orgKeys, b.ciphers[i].organizationId.value).Some?
    ensures var k := CipherKey(su, b.ciphers[i], b.orgKeys, userKey);
            k.Ok? && Warm(su, CacheOf(su, b, account, userKey), userKey, fetch, coll, item) == Reported(Mapped(su, b.ciphers[i], k.value))
  {
    hide ResolveCollection, Mapped, Dec, IndexOf, Candidates, EqFold, KeyEntries, EffectiveKey, Accepts;
    var cache := CacheOf(su, b, account, userKey);
    var c := b.ciphers[i];
    var cs := Candidates(cache.ciphers, collId, item);
    CandidatesFollowScan(su, b, userKey, collId, item);
    AcceptedName(su, b, userKey, collId, item, c);
    if cs != [] {
      var first: nat :| FirstMatch(su, b, userKey, collId, item, first) && b.ciphers[first].id == cs[0].id;
      assert first == i;
      if c.organizationId.Some? { CachedOrgKeyIs(b.orgKeys, c.organizationId.value); }
      assert fetch(0, cs[0].id) == Ok(c);
    }
  }

  lemma AcceptedName(su: Suite, b: Bundle, userKey: SymmetricKey, collId: string, item: string, c: Cipher)
    requires Accepts(su, b.orgKeys, userKey, collId, item, c)
    ensures var k := CipherKey(su, c, b.orgKeys, userKey);
            k.Ok? && Dec(su, c.name, k.value).Ok? && EqFold(Dec(su, c.name, k.value).value, item)
  {
    hide CipherKey, Dec, EqFold;
  }

  ghost predicate DistinctIds(ciphers: seq<Cipher>) {
    forall i, j :: 0 <= i < j < |ciphers| ==> ciphers[i].id != ciphers[j].id
  }

  lemma {:induction false} IndexEntries(su: Suite, ciphers: seq<Cipher>, keys: seq<OrgKey>, userKey: SymmetricKey)
    ensures forall e :: e in IndexOf(su, ciphers, keys, userKey) ==>
              exists i :: 0 <= i < |ciphers| && e.id == ciphers[i].id && e.orgId == ciphers[i].organizationId
                          && e.collectionIds == Ids(ciphers[i])
  {
    hide CipherKey, Dec;
    if ciphers != [] {
      IndexEntries(su, ciphers[1..], keys, userKey);
      forall e | e in IndexOf(su, ciphers, keys, userKey)
        ensures exists i :: 0 <= i < |ciphers| && e.id == ciphers[i].id && e.orgId == ciphers[i].organizationId
                            && e.collectionIds == Ids(ciphers[i])
      {
        if e in IndexOf(su, ciphers[1..], keys, userKey) {
          var i :| 0 <= i < |ciphers[1..]| && e.id == ciphers[1..][i].id && e.orgId == ciphers[1..][i].organizationId
                   && e.collectionIds == Ids(ciphers[1..][i]);
          assert ciphers[i + 1] == ciphers[1..][i];
        } else {
          assert e.id == ciphers[0].id;
        }
      }
    }
  }

  lemma FreshCacheHomes(su: Suite, b: Bundle, account: Option<string>, userKey: SymmetricKey)
    requires DistinctIds(b.ciphers)
    ensures Agrees(CacheOf(su, b, account, userKey), b.ciphers)
  {
    hide IndexOf;
    IndexEntries(su, b.ciphers, b.orgKeys, userKey);
    var cache := CacheOf(su, b, account, userKey);
    forall e, c | e in cache.ciphers && c in b.ciphers && e.id == c.id
      ensures e.orgId == c.organizationId && e.collectionIds == Ids(c)
    {
      var i :| 0 <= i < |b.ciphers| && e.id == b.ciphers[i].id && e.orgId == b.ciphers[i].organizationId
               && e.collectionIds == Ids(b.ciphers[i]);
      var j :| 0 <= j < |b.ciphers| && b.ciphers[j] == c;
      assert i == j;
    }
  }

  ghost predicate AnswersAccepted(su: Suite, b: Bundle, userKey: SymmetricKey, collId: string, item: string,
                                  w: Result<Option<Secret>, ProviderError>) {
    exists i :: 0 <= i < |b.ciphers| && Accepts(su, b.orgKeys, userKey, collId, item, b.ciphers[i])
                && w == Reported(Mapped(su, b.ciphers[i], CipherKey(su, b.ciphers[i], b.orgKeys, userKey).value))
  }

  /** If fetches fail at will, whatever the cached path answers, a secret or a field that does not
      open, is still what some cipher the scan accepts maps to. */
  lemma WarmAnswerIsAcceptable(su: Suite, userKey: SymmetricKey, account: Option<string>, b: Bundle,
                               fetch: (nat, string) -> Result<Cipher, ApiError>, coll: string, item: string)
    requires KeysValid(b.orgKeys) && DistinctIds(b.ciphers) && NoLooseCollections(b.ciphers)
    requires forall n: nat, id: string :: fetch(n, id).Ok? ==> fetch(n, id).value in b.ciphers && fetch(n, id).value.id == id
    ensures var w := Warm(su, CacheOf(su, b, account, userKey), userKey, fetch, coll, item);
            var r := ResolveCollection(coll, b.collections);
            w == Ok(None) || (r.Some? && AnswersAccepted(su, b, userKey, r.value, item, w))
  {
    hide WarmFrom, Accepts, CipherKey, WarmKey, Mapped, Dec, ResolveCollection, Candidate, IndexOf, Candidates, KeyEntries, Agrees;
    var cache := CacheOf(su, b, account, userKey);
    if Warm(su, cache, userKey, fetch, coll, item) != Ok(None) {
      FreshCacheHomes(su, b, account, userKey);
      var collId := ResolveCollection(coll, cache.collections).value;
      var entries := Candidates(cache.ciphers, collId, item);
      var m, c, k := WarmHit(su, cache, userKey, fetch, 0, entries, item);
      CandidatesAre(cache.ciphers, collId, item);
      SameHome(cache, b.ciphers, entries[m], c);
      HitIsAccepted(su, cache, b, userKey, collId, item, entries[m], c, k);
      var i :| 0 <= i < |b.ciphers| && b.ciphers[i] == c;
    }
  }

  lemma SameHome(cache: CacheData, ciphers: seq<Cipher>, e: CipherEntry, c: Cipher)
    requires Agrees(cache, ciphers) && e in cache.ciphers && c in ciphers && e.id == c.id
    ensures e.orgId == c.organizationId && e.collectionIds == Ids(c)
  {}

  // ---------- when a cached get is right ----------

  /** The cached path moves on: the fetch fails, or its cipher opens to another name. */
  predicate PassedOver(su: Suite, userKey: SymmetricKey, cache: CacheData, fetched: Result<Cipher, ApiError>, item: string) {
    fetched.Ok? ==>
      var k := WarmKey(su, fetched.value, cache, userKey);
      k.Some? && Dec(su, fetched.value.name, k.value).Ok? && !EqFold(Dec(su, fetched.value.name, k.value).value, item)
  }

  /** Among these entries, the first that is not passed over is answered from: its fetch gives
      `c`, which opens under `k` to the name. */
  ghost predicate FirstHit(su: Suite, userKey: SymmetricKey, cache: CacheData, fetch: (nat, string) -> Result<Cipher, ApiError>,
                           n: nat, entries: seq<CipherEntry>, item: string, m: nat, c: Cipher, k: SymmetricKey) {
    && HitAt(su, cache, userKey, fetch, entries, item, n, m, c, k)
    && forall j :: 0 <= j < m ==> PassedOver(su, userKey, cache, fetch(n + j, entries[j].id), item)
  }

  /** The cached entries of that name and collection lead the cached path to answer from `c`. */
  ghost predicate Hits(su: Suite, userKey: SymmetricKey, cache: CacheData, fetch: (nat, string) -> Result<Cipher, ApiError>,
                       coll: string, item: string, c: Cipher, k: SymmetricKey) {
    var r := ResolveCollection(coll, cache.collections);
    r.Some? && exists m: nat :: FirstHit(su, userKey, cache, fetch, 0, Candidates(cache.ciphers, r.value, item), item, m, c, k)
  }

  lemma {:induction false} HitAnswers(su: Suite, userKey: SymmetricKey, cache: CacheData,
                                      fetch: (nat, string) -> Result<Cipher, ApiError>, n: nat, entries: seq<CipherEntry>,
                                      item: string, m: nat, c: Cipher, k: SymmetricKey)
    requires FirstHit(su, userKey, cache, fetch, n, entries, item, m, c, k)
    ensures WarmFrom(su, cache, userKey, fetch, n, entries, item) == Reported(Mapped(su, c, k))
    decreases m
  {
    hide WarmKey, Dec, Mapped, EqFold;
    if m > 0 {
      assert PassedOver(su, userKey, cache, fetch(n + 0, entries[0].id), item);
      assert FirstHit(su, userKey, cache, fetch, n + 1, entries[1..], item, m - 1, c, k) by {
        forall j | 0 <= j < m - 1 ensures PassedOver(su, userKey, cache, fetch(n + 1 + j, entries[1..][j].id), item) {
          assert PassedOver(su, userKey, cache, fetch(n + (j + 1), entries[j + 1].id), item);
        }
        assert n + 1 + (m - 1) == n + m;
      }
      HitAnswers(su, userKey, cache, fetch, n + 1, entries[1..], item, m - 1, c, k);
    }
  }

  lemma {:induction false} AnswerHasHit(su: Suite, userKey: SymmetricKey, cache: CacheData,
                                        fetch: (nat, string) -> Result<Cipher, ApiError>, n: nat, entries: seq<CipherEntry>,
                                        item: string) returns (m: nat, c: Cipher, k: SymmetricKey)
    requires WarmFrom(su, cache, userKey, fetch, n, entries, item) != Ok(None)
    ensures FirstHit(su, userKey, cache, fetch, n, entries, item, m, c, k)
    decreases |entries|
  {
    hide WarmKey, Dec, Mapped, EqFold;
    var first := fetch(n, entries[0].id);
    if PassedOver(su, userKey, cache, first, item) {
      m, c, k := AnswerHasHit(su, userKey, cache, fetch, n + 1, entries[1..], item);
      forall j | 0 <= j < m + 1 ensures PassedOver(su, userKey, cache, fetch(n + j, entries[j].id), item) {
        if j > 0 { assert PassedOver(su, userKey, cache, fetch(n + 1 + (j - 1), entries[1..][j - 1].id), item); }
      }
      m := m + 1;
    } else {
      m, c := 0, first.value;
      k := WarmKey(su, c, cache, userKey).value;
    }
  }

  function KeyOf(su: Suite, b: Bundle, userKey: SymmetricKey, i: nat): SymmetricKey
    requires i < |b.ciphers|
  {
    var k := CipherKey(su, b.ciphers[i], b.orgKeys, userKey);
    if k.Ok? then k.value else userKey
  }

  /** The collection is still there under its name, and the first cipher the scan accepts is `c`,
      and maps under today's key as under `k`; or both fail to map, alike. */
  ghost predicate ScanAgreesOn(su: Suite, userKey: SymmetricKey, b: Bundle, coll: string, item: string, c: Cipher, k: SymmetricKey) {
    var r := ResolveCollection(coll, b.collections);
    r.Some? && exists i: nat :: FirstMatch(su, b, userKey, r.value, item, i)
                                && (b.ciphers[i] == c || Mapped(su, c, k).Err?)
                                && Mapped(su, b.ciphers[i], KeyOf(su, b, userKey, i)) == Mapped(su, c, k)
  }

  lemma AgreesGivesScan(su: Suite, userKey: SymmetricKey, b: Bundle, coll: string, item: string, c: Cipher, k: SymmetricKey)
    requires ScanAgreesOn(su, userKey, b, coll, item, c, k)
    ensures Lifted(ScanAnswer(su, b, userKey, coll, item)) == Reported(Mapped(su, c, k))
  {
    hide CipherKey, Mapped, ResolveCollection, Scan, Accepts;
    var collId := ResolveCollection(coll, b.collections).value;
    var i: nat :| FirstMatch(su, b, userKey, collId, item, i)
                  && Mapped(su, b.ciphers[i], KeyOf(su, b, userKey, i)) == Mapped(su, c, k);
    ScanAtFirst(su, b, userKey, collId, item, i);
  }

  lemma ScanGivesAgrees(su: Suite, userKey: SymmetricKey, b: Bundle, coll: string, item: string, c: Cipher, k: SymmetricKey)
    requires DistinctIds(b.ciphers) && c in b.ciphers
    requires Lifted(ScanAnswer(su, b, userKey, coll, item)) == Reported(Mapped(su, c, k))
    ensures ScanAgreesOn(su, userKey, b, coll, item, c, k)
  {
    hide CipherKey, Mapped, ResolveCollection, Scan;
    var collId := ResolveCollection(coll, b.collections).value;
    MappedId(su, c, k);
    if Mapped(su, c, k).Ok? {
      var i := ScanFound(su, b, userKey, collId, item, Mapped(su, c, k).value);
      MappedId(su, b.ciphers[i], CipherKey(su, b.ciphers[i], b.orgKeys, userKey).value);
      var at :| 0 <= at < |b.ciphers| && b.ciphers[at] == c;
      assert at == i;
    } else {
      var i := ScanBroken(su, b, userKey, collId, item, Mapped(su, c, k).error);
      assert Mapped(su, b.ciphers[i], KeyOf(su, b, userKey, i)) == Mapped(su, c, k);
    }
  }

  /** A get with a cache of any age, against a server in any state, whatever it did to ciphers,
      collections and org keys, and though fetches may fail: it answers what a get without the
      cache answers exactly when the cached path has nothing to answer from, or today's scan ends
      at the same cipher. The code checks the cipher's name, but not its collections, nor that the
      collection still has its name, nor that the account still has the organization's key. */
  lemma CachedGetFaithfulIff(su: Suite, userKey: SymmetricKey, cache: CacheData, b: Bundle, a: Answers, coll: string, item: string)
    requires SyncAndKeys(su, a, userKey) == Ok(b) && FetchesFrom(a.fetch, (n: nat) => b.ciphers) && DistinctIds(b.ciphers)
    ensures Get(su, userKey, Some(cache), a, coll, item).answer == Get(su, userKey, None, a, coll, item).answer <==>
            forall c, k :: Hits(su, userKey, cache, a.fetch, coll, item, c, k) ==> ScanAgreesOn(su, userKey, b, coll, item, c, k)
  {
    hide Warm, SyncAndKeys, ScanAnswer, Hits, ScanAgreesOn, FetchesFrom;
    var w, scan := Warm(su, cache, userKey, a.fetch, coll, item), ScanAnswer(su, b, userKey, coll, item);
    assert Get(su, userKey, Some(cache), a, coll, item).answer == Get(su, userKey, None, a, coll, item).answer <==>
           w == Ok(None) || w == Lifted(scan);
    forall c, k | Hits(su, userKey, cache, a.fetch, coll, item, c, k)
      ensures w == Reported(Mapped(su, c, k)) && w != Ok(None)
      ensures ScanAgreesOn(su, userKey, b, coll, item, c, k) <==> Lifted(scan) == Reported(Mapped(su, c, k))
    {
      HitDecides(su, userKey, cache, b, a.fetch, coll, item, c, k);
    }
    if w != Ok(None) { var c, k := HitExists(su, userKey, cache, a.fetch, coll, item); }
  }

  lemma HitDecides(su: Suite, userKey: SymmetricKey, cache: CacheData, b: Bundle, fetch: (nat, string) -> Result<Cipher, ApiError>,
                   coll: string, item: string, c: Cipher, k: SymmetricKey)
    requires FetchesFrom(fetch, (n: nat) => b.ciphers) && DistinctIds(b.ciphers)
    requires Hits(su, userKey, cache, fetch, coll, item, c, k)
    ensures Warm(su, cache, userKey, fetch, coll, item) == Reported(Mapped(su, c, k))
    ensures ScanAgreesOn(su, userKey, b, coll, item, c, k)
            <==> Lifted(ScanAnswer(su, b, userKey, coll, item)) == Reported(Mapped(su, c, k))
  {
    hide WarmFrom, ScanAnswer, ScanAgreesOn, ResolveCollection, Candidates, Mapped, WarmKey, Dec, EqFold;
    var entries := Candidates(cache.ciphers, ResolveCollection(coll, cache.collections).value, item);
    var m: nat :| FirstHit(su, userKey, cache, fetch, 0, entries, item, m, c, k);
    HitAnswers(su, userKey, cache, fetch, 0, entries, item, m, c, k);
    assert c in b.ciphers;
    if ScanAgreesOn(su, userKey, b, coll, item, c, k) { AgreesGivesScan(su, userKey, b, coll, item, c, k); }
    if Lifted(ScanAnswer(su, b, userKey, coll, item)) == Reported(Mapped(su, c, k)) {
      ScanGivesAgrees(su, userKey, b, coll, item, c, k);
    }
  }

  lemma HitExists(su: Suite, userKey: SymmetricKey, cache: CacheData, fetch: (nat, string) -> Result<Cipher, ApiError>,
                  coll: string, item: string) returns (c: Cipher, k: SymmetricKey)
    requires Warm(su, cache, userKey, fetch, coll, item) != Ok(None)
    ensures Hits(su, userKey, cache, fetch, coll, item, c, k)
  {
    hide WarmFrom, ResolveCollection, Candidates, FirstHit;
    var entries := Candidates(cache.ciphers, ResolveCollection(coll, cache.collections).value, item);
    var m;
    m, c, k := AnswerHasHit(su, userKey, cache, fetch, 0, entries, item);
  }

  /** Neither maps, for the same reason. */
  predicate FailAlike(su: Suite, c: Cipher, k: SymmetricKey, c': Cipher, k': SymmetricKey) {
    Mapped(su, c, k).Err? && Mapped(su, c', k') == Mapped(su, c, k)
  }

  /** While the org keys are those of the cache, the keys need no comparing. */
  lemma AgreesUnderSameKeys(su: Suite, userKey: SymmetricKey, cache: CacheData, b: Bundle,
                            fetch: (nat, string) -> Result<Cipher, ApiError>, coll: string, item: string, c: Cipher, k: SymmetricKey)
    requires SameKeys(cache, b) && KeysValid(b.orgKeys) && Hits(su, userKey, cache, fetch, coll, item, c, k)
    ensures ScanAgreesOn(su, userKey, b, coll, item, c, k) <==>
              var r := ResolveCollection(coll, b.collections);
              r.Some? && exists i: nat :: FirstMatch(su, b, userKey, r.value, item, i)
                                          && (b.ciphers[i] == c || FailAlike(su, c, k, b.ciphers[i], KeyOf(su, b, userKey, i)))
  {
    hide ResolveCollection, Candidates, Mapped, WarmKey, CipherKey, Dec, EqFold, SameKeys, Accepts;
    WarmKeyIsCipherKey(su, c, cache, b, userKey);
  }

  // ---------- where it is wrong ----------

  const AB := [Collection("k1", "o", "A"), Collection("k2", "o", "B")]

  /** `A` is called `Z` now. */
  const ZB := [Collection("k1", "o", "Z"), Collection("k2", "o", "B")]

  /** A cache written when the item was in `A`. */
  function CacheOfA(su: Suite, x: Sample, notes: Option<string>, account: Option<string>): CacheData {
    CacheOf(su, Synced(x, Item(su, x, "k1", notes), AB), account, x.userKey)
  }

  /** Whatever collection the cipher is in now, and whatever the sync would say, it is answered from. */
  lemma StillServed(su: Suite, x: Sample, account: Option<string>, home: string, notes: Option<string>, orgKey: string,
                    collections: seq<Collection>)
    requires x.Fits(su)
    ensures var now := Item(su, x, home, notes);
            Warm(su, CacheOfA(su, x, notes, account), x.userKey, Serves(su, x, orgKey, now, collections).fetch, "A", "n")
            == Reported(Mapped(su, now, x.orgKey))
  {
    hide Dec, Mapped, CacheOf, Warm, ResolveCollection, KeyEntries, Rows, Item;
    var was, now := Synced(x, Item(su, x, "k1", notes), AB), Item(su, x, home, notes);
    var cache := CacheOf(su, was, account, x.userKey);
    var fetch := Serves(su, x, orgKey, now, collections).fetch;
    ItemIndexed(su, x, "k1", notes, AB);
    ItemOpens(su, x, home, notes);
    CachedParts(su, was, account, x.userKey);
    LetterResolves();
    CachedOrgKeyIs(was.orgKeys, "o");
    assert FindOrgKey(was.orgKeys, "o") == Some(x.orgKey);
    ItemParts(su, x, home, notes);
    assert fetch(0, "x") == Ok(now);
    WarmOne(su, x.userKey, cache, now, x.orgKey, fetch);
  }

  lemma ItemParts(su: Suite, x: Sample, home: string, notes: Option<string>)
    ensures var c := Item(su, x, home, notes); c.id == "x" && c.organizationId == Some("o") && c.key.None?
  {}

  lemma CachedParts(su: Suite, b: Bundle, account: Option<string>, userKey: SymmetricKey)
    ensures var cache := CacheOf(su, b, account, userKey);
            && cache.ciphers == IndexOf(su, b.ciphers, b.orgKeys, userKey)
            && cache.collections == b.collections && cache.orgKeys == KeyEntries(b.orgKeys)
  {}

  lemma LetterResolves()
    ensures ResolveCollection("A", AB) == Some("k1") && ResolveCollection("A", ZB) == None && ResolveCollection("A", []) == None
  {
    assert |LowerAll("A")| != |LowerAll("personal")|;
    assert LowerAll("Z")[0] == 'z' && LowerAll("A")[0] == 'a' && LowerAll("B")[0] == 'b';
    assert |LowerAll("k1")| == |LowerAll("k2")| == 2 && |LowerAll("A")| == 1;
    assert FindCollection("A", ZB[1..]) == FindCollection("A", []);
  }

  lemma WarmOne(su: Suite, userKey: SymmetricKey, cache: CacheData, now: Cipher, key: SymmetricKey,
                fetch: (nat, string) -> Result<Cipher, ApiError>)
    requires ResolveCollection("A", cache.collections) == Some("k1")
    requires cache.ciphers == [CipherEntry("x", Some("o"), "n", ["k1"])]
    requires fetch(0, "x") == Ok(now) && now.organizationId == Some("o") && now.key.None?
    requires CachedOrgKey(cache.orgKeys, "o") == Some(key) && Dec(su, now.name, key) == Ok("n")
    ensures Warm(su, cache, userKey, fetch, "A", "n") == Reported(Mapped(su, now, key))
  {
    hide Dec, Mapped, ResolveCollection;
    var e := cache.ciphers[0];
    assert cache.ciphers[1..] == [];
    assert Candidates(cache.ciphers, "k1", "n") == [e];
  }

  lemma ScanNothing(su: Suite, now: Bundle, userKey: SymmetricKey)
    requires |now.ciphers| == 1 && !Belongs(now.ciphers[0], "k1") && now.collections == AB
    ensures ScanAnswer(su, now, userKey, "A", "n") == Err(NotFound("vw://A/n"))
  {
    hide Dec, Mapped, CipherKey, ResolveCollection;
    LetterResolves();
    assert Scan(su, now.orgKeys, userKey, "k1", "n", now.ciphers[1..]) == Missing(0);
    assert "vw://" + "A" + "/" + "n" == "vw://A/n";
  }

  lemma NoCollectionA(su: Suite, now: Bundle, userKey: SymmetricKey)
    requires ResolveCollection("A", now.collections) == None
    ensures ScanAnswer(su, now, userKey, "A", "n") == Err(NotFound("collection A"))
  {
    hide ResolveCollection, Scan;
    assert "collection " + "A" == "collection A";
  }

  lemma MovedAway(su: Suite, x: Sample, notes: Option<string>)
    requires x.Fits(su)
    ensures Get(su, x.userKey, None, Serves(su, x, Wrapped(x), Item(su, x, "k2", notes), AB), "A", "n").answer
            == Err(NotFound("vw://A/n"))
  {
    hide SyncAndKeys, ScanAnswer, Wrapped;
    SyncGives(su, x, Item(su, x, "k2", notes), AB);
    ScanNothing(su, Synced(x, Item(su, x, "k2", notes), AB), x.userKey);
  }

  /** An item moved from `A` to `B` after the cache was written is still got at `A/n`, where a get
      without the cache finds nothing. */
  lemma MovedItemIsServedStale(su: Suite, x: Sample, account: Option<string>)
    requires x.Fits(su)
    ensures var now := Serves(su, x, Wrapped(x), Item(su, x, "k2", None), AB);
            var r := Get(su, x.userKey, Some(CacheOfA(su, x, None, account)), now, "A", "n").answer;
            && r.Ok? && r.value.meta.id == "x"
            && Get(su, x.userKey, None, now, "A", "n").answer == Err(NotFound("vw://A/n"))
  {
    hide Mapped, CacheOfA, Warm, Miss, Serves;
    StillServed(su, x, account, "k2", None, Wrapped(x), AB);
    ItemOpens(su, x, "k2", None);
    MovedAway(su, x, None);
  }

  /** If a note of the moved item does not open either, the get reports that, where a get without
      the cache still finds nothing. */
  lemma MovedItemFailsStale(su: Suite, x: Sample, account: Option<string>)
    requires x.Fits(su)
    ensures var now := Serves(su, x, Wrapped(x), Item(su, x, "k2", Some("garbage")), AB);
            var r := Get(su, x.userKey, Some(CacheOfA(su, x, Some("garbage"), account)), now, "A", "n").answer;
            && r.Err? && r.error.CryptoFailure?
            && Get(su, x.userKey, None, now, "A", "n").answer == Err(NotFound("vw://A/n"))
  {
    hide Mapped, CacheOfA, Warm, Miss, Serves;
    StillServed(su, x, account, "k2", Some("garbage"), Wrapped(x), AB);
    ItemOpens(su, x, "k2", Some("garbage"));
    MovedAway(su, x, Some("garbage"));
  }

  /** With a collection renamed from `A` to `Z`, its item is still got at `A/n`, where a get
      without the cache finds no collection, though no item changed. */
  lemma RenamedCollectionIsServedStale(su: Suite, x: Sample, account: Option<string>)
    requires x.Fits(su)
    ensures var now := Serves(su, x, Wrapped(x), Item(su, x, "k1", None), ZB);
            var r := Get(su, x.userKey, Some(CacheOfA(su, x, None, account)), now, "A", "n").answer;
            && r.Ok? && r.value.meta.id == "x"
            && Get(su, x.userKey, None, now, "A", "n").answer == Err(NotFound("collection A"))
  {
    hide Mapped, CacheOfA, Warm, SyncAndKeys, ScanAnswer, Serves;
    StillServed(su, x, account, "k1", None, Wrapped(x), ZB);
    ItemOpens(su, x, "k1", None);
    SyncGives(su, x, Item(su, x, "k1", None), ZB);
    LetterResolves();
    NoCollectionA(su, Synced(x, Item(su, x, "k1", None), ZB), x.userKey);
  }

  /** With the organization's key sent empty, its item is still got at `A/n` under the cached key,
      where a get without the cache has lost the collection. */
  lemma LostOrgKeyIsServedStale(su: Suite, x: Sample, account: Option<string>)
    requires x.Fits(su)
    ensures var now := Serves(su, x, "", Item(su, x, "k1", None), AB);
            var r := Get(su, x.userKey, Some(CacheOfA(su, x, None, account)), now, "A", "n").answer;
            && r.Ok? && r.value.meta.id == "x"
            && Get(su, x.userKey, None, now, "A", "n").answer == Err(NotFound("collection A"))
  {
    hide Mapped, CacheOfA, Warm, SyncAndKeys, ScanAnswer, Serves;
    StillServed(su, x, account, "k1", None, "", AB);
    ItemOpens(su, x, "k1", None);
    SyncWithoutKey(su, x, Item(su, x, "k1", None), AB);
    LetterResolves();
    NoCollectionA(su, Bundle([Item(su, x, "k1", None)], [], []), x.userKey);
  }
}
