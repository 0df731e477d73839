/** The provider's commands as they run: loops over the sync payload, and the cache file. */
module Provider {
  import opened Results
  import opened Text
  import opened Base64
  import opened Crypto
  import opened Mapping
  import opened Api
  import opened Vault
  import opened Sessions
  import Refs
  import SyncCache

  function ReadCache(su: Suite, codec: JsonCodec<CacheData>, userKey: SymmetricKey, file: Option<string>): Option<CacheData>
    requires su.Valid()
  {
    if file.None? then None
    else
      match SyncCache.Unsealed(su, userKey, file.value)
      case None => None
      case Some(payload) => (match su.text(payload) case None => None case Some(t) => codec.read(t))
  }

  function CacheLine(su: Suite, codec: JsonCodec<CacheData>, userKey: SymmetricKey, data: CacheData,
                     salt: bytes, iv: bytes): string
    requires su.Valid()
  {
    SyncCache.Sealed(su, userKey, su.utf8(codec.write(data)), salt, iv)
  }

  /** A cache that was written is read back whole. */
  lemma ReadWrittenCache(su: Suite, codec: JsonCodec<CacheData>, userKey: SymmetricKey, data: CacheData,
                         salt: bytes, iv: bytes)
    requires su.Valid() && Lossless(codec) && |iv| == 16
    ensures ReadCache(su, codec, userKey, Some(CacheLine(su, codec, userKey, data, salt, iv))) == Some(data)
  {
    hide SyncCache.Sealed, SyncCache.Unsealed;
    SyncCache.UnsealOfSeal(su, userKey, su.utf8(codec.write(data)), salt, iv);
  }

  /** The file reads as a cache exactly when it is, outer white space aside, a text that reads as it
      sealed under this user key. */
  lemma ReadCacheIff(su: Suite, codec: JsonCodec<CacheData>, userKey: SymmetricKey, line: string, data: CacheData)
    requires su.Valid()
    ensures ReadCache(su, codec, userKey, Some(line)) == Some(data) <==>
              exists text: string, salt: bytes, iv: bytes :: |iv| == 16 && codec.read(text) == Some(data)
                && Trim(line) == SyncCache.Sealed(su, userKey, su.utf8(text), salt, iv)
    ensures ReadCache(su, codec, userKey, None) == None
  {
    hide SyncCache.Sealed, SyncCache.Unsealed, Trim;
    if ReadCache(su, codec, userKey, Some(line)) == Some(data) {
      var payload := SyncCache.Unsealed(su, userKey, line).value;
      var text := su.text(payload).value;
      var salt, iv := SyncCache.SealOfUnseal(su, userKey, line, payload);
      assert codec.read(text) == Some(data) && Trim(line) == SyncCache.Sealed(su, userKey, su.utf8(text), salt, iv);
    }
    forall text: string, salt: bytes, iv: bytes
      | |iv| == 16 && codec.read(text) == Some(data) && Trim(line) == SyncCache.Sealed(su, userKey, su.utf8(text), salt, iv)
      ensures ReadCache(su, codec, userKey, Some(line)) == Some(data)
    {
      SyncCache.UnsealsIffSealed(su, userKey, line, su.utf8(text));
    }
  }

  // ---------- the loops over a sync payload ----------

  /** The scan of `get_secret`, with its counter of keys that did not unwrap. */
  method ScanCiphers(su: Suite, b: Bundle, userKey: SymmetricKey, collId: string, item: string) returns (r: ScanOutcome)
    ensures r == Scan(su, b.orgKeys, userKey, collId, item, b.ciphers)
  {
    hide Dec, EffectiveKey, Mapped;
    var unwrapFailures := 0;
    for i := 0 to |b.ciphers|
      invariant Scan(su, b.orgKeys, userKey, collId, item, b.ciphers)
                == AddFailures(Scan(su, b.orgKeys, userKey, collId, item, b.ciphers[i..]), unwrapFailures)
    {
      assert b.ciphers[i..][1..] == b.ciphers[i + 1..];
      var c := b.ciphers[i];
      if !Belongs(c, collId) { continue; }
      var k := CipherKey(su, c, b.orgKeys, userKey);
      if k.Err? {
        unwrapFailures := unwrapFailures + 1;
        continue;
      }
      var name := Dec(su, c.name, k.value);
      if name.Err? { continue; }
      if !EqFold(name.value, item) { continue; }
      match Mapped(su, c, k.value) {
        case Err(e) => return Broken(e);
        case Ok(s) => return Found(s);
      }
    }
    return Missing(unwrapFailures);
  }

  /** The loop of `list_secrets`. */
  method CollectMetas(su: Suite, b: Bundle, userKey: SymmetricKey, collId: string) returns (metas: seq<SecretMeta>)
    ensures metas == Metas(Members(su, b.orgKeys, userKey, collId, b.ciphers))
  {
    hide Dec, EffectiveKey, Mapped;
    metas := [];
    for i := 0 to |b.ciphers|
      invariant Metas(Members(su, b.orgKeys, userKey, collId, b.ciphers))
                == metas + Metas(Members(su, b.orgKeys, userKey, collId, b.ciphers[i..]))
    {
      assert b.ciphers[i..][1..] == b.ciphers[i + 1..];
      var c := b.ciphers[i];
      if !Belongs(c, collId) { continue; }
      var k := CipherKey(su, c, b.orgKeys, userKey);
      if k.Err? { continue; }
      match Mapped(su, c, k.value) {
        case Ok(s) => metas := metas + [s.meta];
        case Err(_) =>
      }
    }
  }

  /** The loop of `get_namespace_secrets`. */
  method CollectSecrets(su: Suite, b: Bundle, userKey: SymmetricKey, collId: string) returns (out: seq<Secret>)
    ensures out == Members(su, b.orgKeys, userKey, collId, b.ciphers)
  {
    hide Dec, EffectiveKey, Mapped;
    out := [];
    for i := 0 to |b.ciphers|
      invariant Members(su, b.orgKeys, userKey, collId, b.ciphers)
                == out + Members(su, b.orgKeys, userKey, collId, b.ciphers[i..])
    {
      assert b.ciphers[i..][1..] == b.ciphers[i + 1..];
      var c := b.ciphers[i];
      if !Belongs(c, collId) { continue; }
      var k := CipherKey(su, c, b.orgKeys, userKey);
      if k.Err? { continue; }
      var s := Mapped(su, c, k.value);
      if s.Ok? { out := out + [s.value]; }
    }
  }

  /** The cipher loop of `write_cache`. */
  method IndexCiphers(su: Suite, b: Bundle, userKey: SymmetricKey) returns (entries: seq<CipherEntry>)
    ensures entries == IndexOf(su, b.ciphers, b.orgKeys, userKey)
  {
    hide EntryOf;
    entries := [];
    for i := 0 to |b.ciphers|
      invariant IndexOf(su, b.ciphers, b.orgKeys, userKey) == entries + IndexOf(su, b.ciphers[i..], b.orgKeys, userKey)
    {
      assert b.ciphers[i..][1..] == b.ciphers[i + 1..];
      var entry := IndexCipher(su, b.ciphers[i], b.orgKeys, userKey);
      if entry.None? { continue; }
      entries := entries + [entry.value];
    }
  }

  method IndexCipher(su: Suite, c: Cipher, keys: seq<OrgKey>, userKey: SymmetricKey) returns (entry: Option<CipherEntry>)
    ensures entry == EntryOf(su, c, keys, userKey)
  {
    hide Dec, EffectiveKey;
    var key := EffectiveKey(su, c.key, KeyFor(c.organizationId, keys, userKey));
    if key.Err? { return None; }
    var name := Dec(su, c.name, key.value);
    if name.Err? { return None; }
    var ids := if c.collectionIds.Some? then c.collectionIds.value else [];
    return Some(CipherEntry(c.id, c.organizationId, name.value, ids));
  }

  /** The org key loop of `write_cache`: 64 bytes each, in base64. */
  method IndexKeys(orgKeys: seq<OrgKey>) returns (entries: seq<OrgKeyEntry>)
    ensures entries == KeyEntries(orgKeys)
  {
    hide Encode;
    entries := [];
    for i := 0 to |orgKeys|
      invariant entries == KeyEntries(orgKeys)[..i]
    {
      var blob := orgKeys[i].key.enc;
      blob := blob + orgKeys[i].key.mac;
      entries := entries + [OrgKeyEntry(orgKeys[i].orgId, Encode(Standard, blob))];
    }
  }

  /** The filter of `get_secret_warm`. */
  method FilterIndex(entries: seq<CipherEntry>, collId: string, item: string) returns (candidates: seq<CipherEntry>)
    ensures candidates == Candidates(entries, collId, item)
  {
    hide Candidate;
    candidates := [];
    for i := 0 to |entries|
      invariant Candidates(entries, collId, item) == candidates + Candidates(entries[i..], collId, item)
    {
      assert entries[i..][1..] == entries[i + 1..];
      if Candidate(entries[i], collId, item) { candidates := candidates + [entries[i]]; }
    }
  }

  /** The loop of `get_secret_warm`: one fetch a candidate, until one verifies. */
  method TryCandidates(su: Suite, cache: CacheData, userKey: SymmetricKey, fetch: (nat, string) -> Result<Cipher, ApiError>,
                       candidates: seq<CipherEntry>, item: string) returns (r: Result<Option<Secret>, ProviderError>)
    ensures r == WarmFrom(su, cache, userKey, fetch, 0, candidates, item)
  {
    hide Dec, WarmKey, Mapped, EqFold;
    for n := 0 to |candidates|
      invariant WarmFrom(su, cache, userKey, fetch, 0, candidates, item)
                == WarmFrom(su, cache, userKey, fetch, n, candidates[n..], item)
    {
      assert candidates[n..][1..] == candidates[n + 1..] && candidates[n..][0] == candidates[n];
      var fetched := fetch(n, candidates[n].id);
      if fetched.Err? { continue; }
      var c := fetched.value;
      var key := WarmKey(su, c, cache, userKey);
      if key.None? { return Ok(None); }
      var name := Dec(su, c.name, key.value);
      if name.Err? { return Ok(None); }
      if !EqFold(name.value, item) { continue; }
      match Mapped(su, c, key.value) {
        case Ok(s) => return Ok(Some(s));
        case Err(e) => return Err(CryptoFailure(e));
      }
    }
    return Ok(None);
  }

  /** The randomness and the disk's answer a cache write meets. */
  datatype Store = Store(salt: bytes, iv: bytes, ok: bool)

  /** The cache file after a command that may have synced. */
  function FileAfter(su: Suite, codec: JsonCodec<CacheData>, s: OpenedSession, refreshed: Option<Bundle>, st: Store,
                     before: Option<string>): Option<string>
    requires su.Valid()
  {
    if refreshed.Some? && st.ok
    then Some(CacheLine(su, codec, s.userKey, CacheOf(su, refreshed.value, s.session.account, s.userKey), st.salt, st.iv))
    else before
  }

  /** What a command answers, and the cache file it leaves. */
  datatype Served<T> = Served(answer: Result<T, ProviderError>, file: Option<string>)

  function ServeGet(su: Suite, codec: JsonCodec<CacheData>, sessions: JsonCodec<VwSession>, handle: string, ref: Refs.Ref,
                    a: Answers, st: Store, file: Option<string>): Served<Secret>
    requires su.Valid()
  {
    if ref.scheme != "vw" then Served(Err(BadRef("not a vw ref: " + Refs.Display(ref))), file)
    else
      match OpenSession(sessions, handle)
      case Err(e) => Served(Err(e), file)
      case Ok(s) =>
        var o := GetLocus(su, s.userKey, ReadCache(su, codec, s.userKey, file), a, ref.locus);
        Served(o.answer, FileAfter(su, codec, s, o.refreshed, st, file))
  }

  function ServeSecrets(su: Suite, codec: JsonCodec<CacheData>, sessions: JsonCodec<VwSession>, handle: string, a: Answers,
                        ns: Namespace, st: Store, file: Option<string>): Served<seq<Secret>>
    requires su.Valid()
  {
    match OpenSession(sessions, handle)
    case Err(e) => Served(Err(e), file)
    case Ok(s) =>
      var o := NamespaceSecrets(su, s.userKey, a, ns);
      Served(o.answer, FileAfter(su, codec, s, o.refreshed, st, file))
  }

  class VaultClient {
    /** The content of the cache file, when there is one. */
    var cacheFile: Option<string>

    constructor (file: Option<string>)
      ensures cacheFile == file
    {
      cacheFile := file;
    }

    /** `write_cache`; a failed write leaves the file as it was. */
    method WriteCache(su: Suite, codec: JsonCodec<CacheData>, account: Option<string>, userKey: SymmetricKey,
                      b: Bundle, st: Store)
      requires su.Valid()
      modifies this
      ensures cacheFile == if st.ok then Some(CacheLine(su, codec, userKey, CacheOf(su, b, account, userKey), st.salt, st.iv))
                           else old(cacheFile)
    {
      hide IndexOf, KeyEntries, CacheLine;
      var entries := IndexCiphers(su, b, userKey);
      var keys := IndexKeys(b.orgKeys);
      var data := CacheData(account, b.collections, entries, keys);
      if st.ok { cacheFile := Some(CacheLine(su, codec, userKey, data, st.salt, st.iv)); }
    }

    /** `get_secret_warm`: filter the index, then try each candidate with one fetch. */
    method GetWarm(su: Suite, cache: CacheData, userKey: SymmetricKey, a: Answers, coll: string, item: string)
        returns (r: Result<Option<Secret>, ProviderError>)
      ensures r == Warm(su, cache, userKey, a.fetch, coll, item)
    {
      hide WarmFrom, Candidates, ResolveCollection;
      var collId := ResolveCollection(coll, cache.collections);
      if collId.None? { return Ok(None); }
      var candidates := FilterIndex(cache.ciphers, collId.value, item);
      r := TryCandidates(su, cache, userKey, a.fetch, candidates, item);
    }

    /** `get_secret`: the cached path first; then one sync, a scan that counts unwrap failures,
        and a new cache only when the scan finds the item. */
    method GetSecret(su: Suite, codec: JsonCodec<CacheData>, sessions: JsonCodec<VwSession>, handle: string,
                     ref: Refs.Ref, a: Answers, st: Store)
        returns (r: Result<Secret, ProviderError>)
      requires su.Valid()
      modifies this
      ensures Served(r, cacheFile) == ServeGet(su, codec, sessions, handle, ref, a, st, old(cacheFile))
    {
      hide Dec, EffectiveKey, Mapped, CacheOf, CacheLine, ReadCache, OpenSession, SyncAndKeys, ResolveCollection, Warm;
      if ref.scheme != "vw" { return Err(BadRef("not a vw ref: " + Refs.Display(ref))); }
      var start := OpenSession(sessions, handle);
      if start.Err? { return Err(start.error); }
      var sess, userKey := start.value.session, start.value.userKey;
      var parts := SplitOnce(ref.locus, "/");
      if parts.None? { return Err(BadRef("vw locus must be collection/item: " + ref.locus)); }
      var (coll, item) := parts.value;
      var cache := ReadCache(su, codec, userKey, cacheFile);
      if cache.Some? {
        var warm := GetWarm(su, cache.value, userKey, a, coll, item);
        if warm.Err? { return Err(warm.error); }
        if warm.value.Some? { return Ok(warm.value.value); }
      }
      var synced := SyncAndKeys(su, a, userKey);
      if synced.Err? { return Err(synced.error); }
      var b := synced.value;
      var resolved := ResolveCollection(coll, b.collections);
      if resolved.None? { return Err(NotFound("collection " + coll)); }
      var outcome := ScanCiphers(su, b, userKey, resolved.value, item);
      match outcome {
        case Broken(e) => return Err(CryptoFailure(e));
        case Found(s) =>
          WriteCache(su, codec, sess.account, userKey, b, st);
          return Ok(s);
        case Missing(n) =>
          if n > 0 { return Err(UnwrapFailures(n, coll)); }
          return Err(NotFound("vw://" + coll + "/" + item));
      }
    }

    /** `list_secrets`: exactly the metadata of the exported secrets, in the same order. */
    method ListSecrets(su: Suite, codec: JsonCodec<CacheData>, sessions: JsonCodec<VwSession>, handle: string,
                       a: Answers, ns: Namespace, st: Store)
        returns (r: Result<seq<SecretMeta>, ProviderError>)
      requires su.Valid()
      modifies this
      ensures var o := ServeSecrets(su, codec, sessions, handle, a, ns, st, old(cacheFile));
              cacheFile == o.file && r == match o.answer case Err(e) => Err(e) case Ok(secrets) => Ok(Metas(secrets))
    {
      hide Dec, EffectiveKey, Mapped, CacheOf, CacheLine, OpenSession, SyncAndKeys, NamespaceId;
      var start := OpenSession(sessions, handle);
      if start.Err? { return Err(start.error); }
      var sess, userKey := start.value.session, start.value.userKey;
      var synced := SyncAndKeys(su, a, userKey);
      if synced.Err? { return Err(synced.error); }
      var b := synced.value;
      var collId := NamespaceId(ns, b.collections);
      if collId.None? { return Err(NotFound("namespace " + ns.id)); }
      var metas := CollectMetas(su, b, userKey, collId.value);
      WriteCache(su, codec, sess.account, userKey, b, st);
      return Ok(metas);
    }

    /** `get_namespace_secrets` */
    method ExportSecrets(su: Suite, codec: JsonCodec<CacheData>, sessions: JsonCodec<VwSession>, handle: string,
                       a: Answers, ns: Namespace, st: Store)
        returns (r: Result<seq<Secret>, ProviderError>)
      requires su.Valid()
      modifies this
      ensures Served(r, cacheFile) == ServeSecrets(su, codec, sessions, handle, a, ns, st, old(cacheFile))
    {
      hide Dec, EffectiveKey, Mapped, CacheOf, CacheLine, OpenSession, SyncAndKeys, NamespaceId;
      var start := OpenSession(sessions, handle);
      if start.Err? { return Err(start.error); }
      var sess, userKey := start.value.session, start.value.userKey;
      var synced := SyncAndKeys(su, a, userKey);
      if synced.Err? { return Err(synced.error); }
      var b := synced.value;
      var collId := NamespaceId(ns, b.collections);
      if collId.None? { return Err(NotFound("namespace " + ns.id)); }
      var out := CollectSecrets(su, b, userKey, collId.value);
      WriteCache(su, codec, sess.account, userKey, b, st);
      return Ok(out);
    }
  }

  function AddFailures(s: ScanOutcome, n: nat): ScanOutcome {
    if s.Missing? then Missing(s.unwrapFailures + n) else s
  }

  function Metas(secrets: seq<Secret>): seq<SecretMeta> {
    if secrets == [] then [] else [secrets[0].meta] + Metas(secrets[1..])
  }
}
