/** Resolving `collection/item`: the full-sync scan, the cached path, and the two listings. */
module Vault {
  import opened Results
  import opened Text
  import opened Base64
  import opened Crypto
  import opened EncStrings
  import opened Mapping
  import opened Api

  datatype Org = Org(id: string, key: string)

  datatype ApiCollection = ApiCollection(id: string, organizationId: string, name: string)

  datatype SyncResponse = SyncResponse(privateKey: string, organizations: seq<Org>, ciphers: seq<Cipher>)

  /** The answers one command gets; `fetch` is asked once for every candidate, in order. */
  datatype Answers = Answers(
    sync: Result<SyncResponse, ApiError>,
    collections: Result<seq<ApiCollection>, ApiError>,
    fetch: (nat, string) -> Result<Cipher, ApiError>)

  /** `get_cipher` on a server that holds these ciphers. */
  function FetchIn(ciphers: seq<Cipher>, id: string): (r: Result<Cipher, ApiError>)
    ensures r.Ok? ==> r.value in ciphers && r.value.id == id
  {
    if ciphers == [] then Err(Status(404, ""))
    else if ciphers[0].id == id then Ok(ciphers[0])
    else FetchIn(ciphers[1..], id)
  }

  /** A collection with its name in plain. */
  datatype Collection = Collection(id: string, orgId: string, name: string)

  datatype OrgKey = OrgKey(orgId: string, key: SymmetricKey)

  datatype Bundle = Bundle(ciphers: seq<Cipher>, orgKeys: seq<OrgKey>, collections: seq<Collection>)

  // ---------- sync ----------

  /** Organizations without a key are passed over; any other failure ends the sync. */
  function OrgKeysOf(su: Suite, orgs: seq<Org>, privateKey: bytes): Result<seq<OrgKey>, CryptoError> {
    if orgs == [] then Ok([])
    else if orgs[0].key == "" then OrgKeysOf(su, orgs[1..], privateKey)
    else
      match Parse(orgs[0].key)
      case Err(e) => Err(e)
      case Ok(es) =>
        match UnwrapOrgKey(su, es, privateKey)
        case Err(e) => Err(e)
        case Ok(k) =>
          match OrgKeysOf(su, orgs[1..], privateKey)
          case Err(e) => Err(e)
          case Ok(rest) => Ok([OrgKey(orgs[0].id, k)] + rest)
  }

  function FindOrgKey(keys: seq<OrgKey>, org: string): Option<SymmetricKey> {
    if keys == [] then None
    else if keys[0].orgId == org then Some(keys[0].key)
    else FindOrgKey(keys[1..], org)
  }

  /** Collections whose name does not decrypt are left out. */
  function NamedCollections(su: Suite, cs: seq<ApiCollection>, keys: seq<OrgKey>): seq<Collection> {
    if cs == [] then []
    else
      var rest := NamedCollections(su, cs[1..], keys);
      match FindOrgKey(keys, cs[0].organizationId)
      case None => rest
      case Some(k) =>
        match Dec(su, cs[0].name, k)
        case Err(_) => rest
        case Ok(name) => [Collection(cs[0].id, cs[0].organizationId, name)] + rest
  }

  function SyncAndKeys(su: Suite, a: Answers, userKey: SymmetricKey): Result<Bundle, ProviderError> {
    match a.sync
    case Err(e) => Err(MapApi(e))
    case Ok(sync) =>
      match Open(su, sync.privateKey, userKey)
      case Err(e) => Err(CryptoFailure(e))
      case Ok(privateKey) =>
        match OrgKeysOf(su, sync.organizations, privateKey)
        case Err(e) => Err(CryptoFailure(e))
        case Ok(keys) =>
          match a.collections
          case Err(e) => Err(MapApi(e))
          case Ok(cs) => Ok(Bundle(sync.ciphers, keys, NamedCollections(su, cs, keys)))
  }

  // ---------- membership and keys ----------

  const PERSONAL := "personal"

  /** The personal vault is the empty id; otherwise the first collection matching by name or id. */
  function ResolveCollection(coll: string, cs: seq<Collection>): Option<string> {
    if EqFold(coll, PERSONAL) then Some("") else FindCollection(coll, cs)
  }

  function FindCollection(coll: string, cs: seq<Collection>): Option<string> {
    if cs == [] then None
    else if EqFold(cs[0].name, coll) || EqFold(cs[0].id, coll) then Some(cs[0].id)
    else FindCollection(coll, cs[1..])
  }

  predicate Belongs(c: Cipher, collId: string) {
    if c.organizationId.None? then collId == ""
    else collId != "" && c.collectionIds.Some? && collId in c.collectionIds.value
  }

  /** An unknown organization falls back to the user key. */
  function KeyFor(org: Option<string>, keys: seq<OrgKey>, userKey: SymmetricKey): SymmetricKey {
    match org
    case None => userKey
    case Some(o) => (match FindOrgKey(keys, o) case Some(k) => k case None => userKey)
  }

  function CipherKey(su: Suite, c: Cipher, keys: seq<OrgKey>, userKey: SymmetricKey): Result<SymmetricKey, CryptoError> {
    EffectiveKey(su, c.key, KeyFor(c.organizationId, keys, userKey))
  }

  /** The scan stops at `c` for `item`: it is in the collection, its key unwraps, its name matches. */
  predicate Accepts(su: Suite, keys: seq<OrgKey>, userKey: SymmetricKey, collId: string, item: string, c: Cipher) {
    && Belongs(c, collId)
    && var k := CipherKey(su, c, keys, userKey);
       k.Ok? && Dec(su, c.name, k.value).Ok? && EqFold(Dec(su, c.name, k.value).value, item)
  }

  predicate Unwrappable(su: Suite, keys: seq<OrgKey>, userKey: SymmetricKey, collId: string, c: Cipher) {
    Belongs(c, collId) && CipherKey(su, c, keys, userKey).Err?
  }

  // ---------- the simple form: full sync, linear scan ----------

  datatype ScanOutcome = Found(secret: Secret) | Broken(error: CryptoError) | Missing(unwrapFailures: nat)

  function Scan(su: Suite, keys: seq<OrgKey>, userKey: SymmetricKey, collId: string, item: string,
                ciphers: seq<Cipher>): ScanOutcome {
    if ciphers == [] then Missing(0)
    else
      var c := ciphers[0];
      if Accepts(su, keys, userKey, collId, item, c) then
        match Mapped(su, c, CipherKey(su, c, keys, userKey).value)
        case Ok(s) => Found(s)
        case Err(e) => Broken(e)
      else
        match Scan(su, keys, userKey, collId, item, ciphers[1..])
        case Missing(n) => Missing(if Unwrappable(su, keys, userKey, collId, c) then n + 1 else n)
        case other => other
  }

  function ScanAnswer(su: Suite, b: Bundle, userKey: SymmetricKey, coll: string, item: string): Result<Secret, ProviderError> {
    match ResolveCollection(coll, b.collections)
    case None => Err(NotFound("collection " + coll))
    case Some(collId) =>
      match Scan(su, b.orgKeys, userKey, collId, item, b.ciphers)
      case Found(s) => Ok(s)
      case Broken(e) => Err(CryptoFailure(e))
      case Missing(n) => if n > 0 then Err(UnwrapFailures(n, coll)) else Err(NotFound("vw://" + coll + "/" + item))
  }

  // ---------- the cache ----------

  datatype CipherEntry = CipherEntry(id: string, orgId: Option<string>, name: string, collectionIds: seq<string>)

  datatype OrgKeyEntry = OrgKeyEntry(orgId: string, keyB64: string)

  datatype CacheData = CacheData(account: Option<string>, collections: seq<Collection>,
                                 ciphers: seq<CipherEntry>, orgKeys: seq<OrgKeyEntry>)

  /** Ciphers whose key or name does not open are left out of the index. */
  function IndexOf(su: Suite, ciphers: seq<Cipher>, keys: seq<OrgKey>, userKey: SymmetricKey): seq<CipherEntry> {
    if ciphers == [] then []
    else
      match EntryOf(su, ciphers[0], keys, userKey)
      case None => IndexOf(su, ciphers[1..], keys, userKey)
      case Some(e) => [e] + IndexOf(su, ciphers[1..], keys, userKey)
  }

  function EntryOf(su: Suite, c: Cipher, keys: seq<OrgKey>, userKey: SymmetricKey): Option<CipherEntry> {
    match CipherKey(su, c, keys, userKey)
    case Err(_) => None
    case Ok(k) =>
      match Dec(su, c.name, k)
      case Err(_) => None
      case Ok(name) =>
        Some(CipherEntry(c.id, c.organizationId, name, if c.collectionIds.Some? then c.collectionIds.value else []))
  }

  function KeyEntries(keys: seq<OrgKey>): (r: seq<OrgKeyEntry>)
    ensures |r| == |keys|
  {
    seq(|keys|, i requires 0 <= i < |keys| => OrgKeyEntry(keys[i].orgId, Encode(Standard, keys[i].key.Blob())))
  }

  /** What `write_cache` stores. */
  function CacheOf(su: Suite, b: Bundle, account: Option<string>, userKey: SymmetricKey): CacheData {
    CacheData(account, b.collections, IndexOf(su, b.ciphers, b.orgKeys, userKey), KeyEntries(b.orgKeys))
  }

  /** `CacheData::org_key` */
  function CachedOrgKey(entries: seq<OrgKeyEntry>, org: string): Option<SymmetricKey> {
    if entries == [] then None
    else if entries[0].orgId == org then
      match Decode(Standard, entries[0].keyB64)
      case None => None
      case Some(blob) => (match From64(blob) case Ok(k) => Some(k) case Err(_) => None)
    else CachedOrgKey(entries[1..], org)
  }

  predicate Candidate(e: CipherEntry, collId: string, item: string) {
    EqFold(e.name, item) && (if collId == "" then e.orgId.None? else collId in e.collectionIds)
  }

  function Candidates(entries: seq<CipherEntry>, collId: string, item: string): seq<CipherEntry> {
    if entries == [] then []
    else (if Candidate(entries[0], collId, item) then [entries[0]] else []) + Candidates(entries[1..], collId, item)
  }

  /** The key a fetched cipher is opened with on the cached path; an unknown organization is a miss. */
  function WarmKey(su: Suite, c: Cipher, cache: CacheData, userKey: SymmetricKey): Option<SymmetricKey> {
    var container := if c.organizationId.None? then Some(userKey) else CachedOrgKey(cache.orgKeys, c.organizationId.value);
    if container.None? then None
    else match EffectiveKey(su, c.key, container.value) case Ok(k) => Some(k) case Err(_) => None
  }

  /** Candidates from the `n`-th on: a failed fetch or another name moves on, a key that does
      not open is a miss, a matching name is the answer. */
  function WarmFrom(su: Suite, cache: CacheData, userKey: SymmetricKey, fetch: (nat, string) -> Result<Cipher, ApiError>,
                    n: nat, entries: seq<CipherEntry>, item: string): Result<Option<Secret>, ProviderError>
    decreases |entries|
  {
    if entries == [] then Ok(None)
    else
      match fetch(n, entries[0].id)
      case Err(_) => WarmFrom(su, cache, userKey, fetch, n + 1, entries[1..], item)
      case Ok(c) =>
        match WarmKey(su, c, cache, userKey)
        case None => Ok(None)
        case Some(k) =>
          match Dec(su, c.name, k)
          case Err(_) => Ok(None)
          case Ok(name) =>
            if !EqFold(name, item) then WarmFrom(su, cache, userKey, fetch, n + 1, entries[1..], item)
            else
              match Mapped(su, c, k)
              case Ok(s) => Ok(Some(s))
              case Err(e) => Err(CryptoFailure(e))
  }

  function Warm(su: Suite, cache: CacheData, userKey: SymmetricKey, fetch: (nat, string) -> Result<Cipher, ApiError>,
                coll: string, item: string): Result<Option<Secret>, ProviderError> {
    match ResolveCollection(coll, cache.collections)
    case None => Ok(None)
    case Some(collId) => WarmFrom(su, cache, userKey, fetch, 0, Candidates(cache.ciphers, collId, item), item)
  }

  // ---------- get ----------

  /** An answer, and the bundle a new cache is to be written from, if any. */
  datatype Outcome<T> = Outcome(answer: Result<T, ProviderError>, refreshed: Option<Bundle>)

  function Miss(su: Suite, userKey: SymmetricKey, a: Answers, coll: string, item: string): Outcome<Secret> {
    match SyncAndKeys(su, a, userKey)
    case Err(e) => Outcome(Err(e), None)
    case Ok(b) =>
      var r := ScanAnswer(su, b, userKey, coll, item);
      Outcome(r, if r.Ok? then Some(b) else None)
  }

  function Get(su: Suite, userKey: SymmetricKey, cache: Option<CacheData>, a: Answers, coll: string, item: string):
      Outcome<Secret> {
    if cache.None? then Miss(su, userKey, a, coll, item)
    else
      match Warm(su, cache.value, userKey, a.fetch, coll, item)
      case Err(e) => Outcome(Err(e), None)
      case Ok(Some(s)) => Outcome(Ok(s), None)
      case Ok(None) => Miss(su, userKey, a, coll, item)
  }

  /** The locus of a `vw` ref. */
  function GetLocus(su: Suite, userKey: SymmetricKey, cache: Option<CacheData>, a: Answers, locus: string): Outcome<Secret> {
    match SplitOnce(locus, "/")
    case None => Outcome(Err(BadRef("vw locus must be collection/item: " + locus)), None)
    case Some((coll, item)) => Get(su, userKey, cache, a, coll, item)
  }

  // ---------- list and export ----------

  datatype Namespace = Namespace(id: string, name: string)

  /** The collections in order, then the personal vault. */
  function Namespaces(b: Bundle): seq<Namespace> {
    seq(|b.collections|, i requires 0 <= i < |b.collections| => Namespace(b.collections[i].id, b.collections[i].name))
    + [Namespace("", PERSONAL)]
  }

  /** The members of a collection that map, in sync order; the others are passed over. */
  function Members(su: Suite, keys: seq<OrgKey>, userKey: SymmetricKey, collId: string, ciphers: seq<Cipher>): seq<Secret> {
    if ciphers == [] then []
    else
      var c := ciphers[0];
      var rest := Members(su, keys, userKey, collId, ciphers[1..]);
      if !Belongs(c, collId) then rest
      else
        match CipherKey(su, c, keys, userKey)
        case Err(_) => rest
        case Ok(k) => (match Mapped(su, c, k) case Ok(s) => [s] + rest case Err(_) => rest)
  }

  function NamespaceId(ns: Namespace, cs: seq<Collection>): Option<string> {
    if ns.id == "" then Some("") else ResolveCollection(ns.id, cs)
  }

  function NamespaceSecrets(su: Suite, userKey: SymmetricKey, a: Answers, ns: Namespace): Outcome<seq<Secret>> {
    match SyncAndKeys(su, a, userKey)
    case Err(e) => Outcome(Err(e), None)
    case Ok(b) =>
      match NamespaceId(ns, b.collections)
      case None => Outcome(Err(NotFound("namespace " + ns.id)), None)
      case Some(collId) => Outcome(Ok(Members(su, b.orgKeys, userKey, collId, b.ciphers)), Some(b))
  }
}
