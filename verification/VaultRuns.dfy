/** A server that changes and a client with a cache, step by step. */
module VaultRuns {
  import opened Results
  import opened Crypto
  import opened EncStrings
  import opened Mapping
  import opened Api
  import opened Vault
  import opened CacheAgreement
  import opened CacheFreshness

  /** What a run leaves alone: the user key, the org keys and the collection table. */
  datatype Account = Account(userKey: SymmetricKey, privateKey: string, organizations: seq<Org>, collections: seq<ApiCollection>)

  /** Owner and collections. */
  datatype Home = Home(org: Option<string>, collectionIds: seq<string>)

  function HomeOf(c: Cipher): Home { Home(c.organizationId, Ids(c)) }

  /** The server's ciphers in sync order, the home of every id ever used, and the client's cache. */
  datatype World = World(ciphers: seq<Cipher>, homes: map<string, Home>, cache: Option<CacheData>)

  /** The answers of a server in one state. */
  function AnswersAt(f: Account, ciphers: seq<Cipher>): Answers {
    Answers(Ok(SyncResponse(f.privateKey, f.organizations, ciphers)), Ok(f.collections),
            (n: nat, id: string) => FetchIn(ciphers, id))
  }

  function BundleAt(su: Suite, f: Account, ciphers: seq<Cipher>): Result<Bundle, ProviderError> {
    SyncAndKeys(su, AnswersAt(f, ciphers), f.userKey)
  }

  // ---------- steps ----------

  datatype Mutation = Add(at: nat, c: Cipher) | Delete(at: nat) | Edit(at: nat, c: Cipher)

  /** New ciphers have new ids; edits, renames included, keep id, owner and collections. */
  predicate Allowed(w: World, m: Mutation) {
    match m
    case Add(at, c) => at <= |w.ciphers| && c.id !in w.homes && (c.organizationId.None? ==> Ids(c) == [])
    case Delete(at) => at < |w.ciphers|
    case Edit(at, c) => at < |w.ciphers| && c.id == w.ciphers[at].id && HomeOf(c) == HomeOf(w.ciphers[at])
  }

  function Mutate(w: World, m: Mutation): World
    requires Allowed(w, m)
  {
    match m
    case Add(at, c) => w.(ciphers := w.ciphers[..at] + [c] + w.ciphers[at..], homes := w.homes[c.id := HomeOf(c)])
    case Delete(at) => w.(ciphers := w.ciphers[..at] + w.ciphers[at + 1..])
    case Edit(at, c) => w.(ciphers := w.ciphers[at := c])
  }

  /** The cache a command may leave: the old one, or one written from its own sync. */
  ghost predicate CacheAfter(su: Suite, f: Account, before: Option<CacheData>, refreshed: Option<Bundle>, after: Option<CacheData>) {
    after == before || (refreshed.Some? && WrittenFrom(su, f, refreshed.value, after))
  }

  ghost predicate WrittenFrom(su: Suite, f: Account, b: Bundle, after: Option<CacheData>) {
    exists account :: after == Some(CacheOf(su, b, account, f.userKey))
  }

  ghost predicate MutationStep(w: World, w': World) { exists m :: Allowed(w, m) && w' == Mutate(w, m) }

  ghost predicate GetStep(su: Suite, f: Account, w: World, w': World) {
    exists coll, item :: var o := Get(su, f.userKey, w.cache, AnswersAt(f, w.ciphers), coll, item);
      CacheAfter(su, f, w.cache, o.refreshed, w'.cache) && w' == w.(cache := w'.cache)
  }

  ghost predicate ListingStep(su: Suite, f: Account, w: World, w': World) {
    exists ns :: var o := NamespaceSecrets(su, f.userKey, AnswersAt(f, w.ciphers), ns);
      CacheAfter(su, f, w.cache, o.refreshed, w'.cache) && w' == w.(cache := w'.cache)
  }

  /** A slower command writes only now what it synced in a state the server has left since. */
  ghost predicate LateWrite(su: Suite, f: Account, w: World, w': World) {
    exists cs :: AtHome(cs, w.homes) && BundleAt(su, f, cs).Ok?
                 && WrittenFrom(su, f, BundleAt(su, f, cs).value, w'.cache) && w' == w.(cache := w'.cache)
  }

  ghost predicate Step(su: Suite, f: Account, w: World, w': World) {
    || MutationStep(w, w')
    || GetStep(su, f, w, w')
    || ListingStep(su, f, w, w')
    || LateWrite(su, f, w, w')
    || w' == w.(cache := None)
  }

  ghost predicate IsRun(su: Suite, f: Account, run: seq<World>) {
    && |run| > 0 && run[0] == World([], map[], None)
    && forall i :: 0 <= i < |run| - 1 ==> Step(su, f, run[i], run[i + 1])
  }

  // ---------- the invariant ----------

  ghost predicate AtHome(ciphers: seq<Cipher>, homes: map<string, Home>) {
    forall c :: c in ciphers ==> c.id in homes && homes[c.id] == HomeOf(c) && (c.organizationId.None? ==> Ids(c) == [])
  }

  ghost predicate EntriesAtHome(cache: CacheData, homes: map<string, Home>) {
    forall e :: e in cache.ciphers ==> e.id in homes && homes[e.id] == Home(e.orgId, e.collectionIds)
  }

  ghost predicate Invariant(su: Suite, f: Account, w: World) {
    && DistinctIds(w.ciphers)
    && AtHome(w.ciphers, w.homes)
    && (w.cache.Some? ==>
          && BundleAt(su, f, w.ciphers).Ok?
          && KeysMatch(w.cache.value, BundleAt(su, f, w.ciphers).value)
          && EntriesAtHome(w.cache.value, w.homes))
  }

  /** Keys and collections of the sync do not depend on the ciphers. */
  lemma BundleVaries(su: Suite, f: Account, cs: seq<Cipher>, cs': seq<Cipher>)
    ensures match BundleAt(su, f, cs)
            case Err(e) => BundleAt(su, f, cs') == Err(e)
            case Ok(b) => b.ciphers == cs && BundleAt(su, f, cs') == Ok(AtState(b, cs'))
  {
    hide Open, OrgKeysOf, NamedCollections, MapApi;
  }

  lemma MutationKeepsInvariant(su: Suite, f: Account, w: World, m: Mutation)
    requires Invariant(su, f, w) && Allowed(w, m)
    ensures Invariant(su, f, Mutate(w, m))
  {
    hide BundleAt, KeysMatch;
    var w' := Mutate(w, m);
    BundleVaries(su, f, w.ciphers, w'.ciphers);
    KeysMatchVaries(w.cache, su, f, w.ciphers, w'.ciphers);
    MutationKeepsIds(w, m);
  }

  ghost predicate KeysMatchSame(cache: Option<CacheData>, su: Suite, f: Account, cs: seq<Cipher>, cs': seq<Cipher>) {
    cache.Some? && BundleAt(su, f, cs).Ok? && KeysMatch(cache.value, BundleAt(su, f, cs).value) ==>
      BundleAt(su, f, cs').Ok? && KeysMatch(cache.value, BundleAt(su, f, cs').value)
  }

  lemma KeysMatchVaries(cache: Option<CacheData>, su: Suite, f: Account, cs: seq<Cipher>, cs': seq<Cipher>)
    ensures KeysMatchSame(cache, su, f, cs, cs')
  {
    hide BundleAt, KeyEntries;
    BundleVaries(su, f, cs, cs');
  }

  lemma MutationKeepsIds(w: World, m: Mutation)
    requires DistinctIds(w.ciphers) && AtHome(w.ciphers, w.homes) && Allowed(w, m)
    ensures DistinctIds(Mutate(w, m).ciphers) && AtHome(Mutate(w, m).ciphers, Mutate(w, m).homes)
  {
    match m
    case Add(at, c) => AddKeepsIds(w, at, c);
    case Delete(at) => DeleteKeepsIds(w, at);
    case Edit(at, c) => EditKeepsIds(w, at, c);
  }

  lemma AddKeepsIds(w: World, at: nat, c: Cipher)
    requires DistinctIds(w.ciphers) && AtHome(w.ciphers, w.homes) && Allowed(w, Add(at, c))
    ensures DistinctIds(Mutate(w, Add(at, c)).ciphers)
    ensures AtHome(Mutate(w, Add(at, c)).ciphers, Mutate(w, Add(at, c)).homes)
  {
    hide Ids;
    var cs := w.ciphers[..at] + [c] + w.ciphers[at..];
    forall i | 0 <= i < |cs| && i != at ensures cs[i] == w.ciphers[if i < at then i else i - 1] && cs[i] in w.ciphers {}
    forall i, j | 0 <= i < j < |cs| ensures cs[i].id != cs[j].id {
      assert i != at ==> cs[i].id in w.homes;
      assert j != at ==> cs[j].id in w.homes;
    }
    forall x | x in cs ensures x == c || x in w.ciphers {}
  }

  lemma DeleteKeepsIds(w: World, at: nat)
    requires DistinctIds(w.ciphers) && AtHome(w.ciphers, w.homes) && at < |w.ciphers|
    ensures DistinctIds(Mutate(w, Delete(at)).ciphers) && AtHome(Mutate(w, Delete(at)).ciphers, w.homes)
  {
    hide Ids;
    var cs := w.ciphers[..at] + w.ciphers[at + 1..];
    forall i | 0 <= i < |cs| ensures cs[i] == w.ciphers[if i < at then i else i + 1] {}
    forall x | x in cs ensures x in w.ciphers {}
  }

  lemma EditKeepsIds(w: World, at: nat, c: Cipher)
    requires DistinctIds(w.ciphers) && AtHome(w.ciphers, w.homes) && Allowed(w, Edit(at, c))
    ensures DistinctIds(Mutate(w, Edit(at, c)).ciphers) && AtHome(Mutate(w, Edit(at, c)).ciphers, w.homes)
  {
    hide Ids;
    var cs := w.ciphers[at := c];
    assert w.ciphers[at] in w.ciphers;
    forall x | x in cs ensures x == c || x in w.ciphers {}
    forall x | x in cs
      ensures x.id in w.homes && w.homes[x.id] == HomeOf(x) && (x.organizationId.None? ==> Ids(x) == [])
    {}
  }

  /** A cache written from a state whose homes are still known describes homes of now. */
  lemma WriteKeepsInvariant(su: Suite, f: Account, w: World, cs: seq<Cipher>, after: Option<CacheData>)
    requires Invariant(su, f, w) && AtHome(cs, w.homes)
    requires BundleAt(su, f, cs).Ok? && WrittenFrom(su, f, BundleAt(su, f, cs).value, after)
    ensures Invariant(su, f, w.(cache := after))
  {
    hide BundleAt, IndexOf, KeyEntries, Ids;
    BundleVaries(su, f, cs, w.ciphers);
    var b := BundleAt(su, f, cs).value;
    IndexEntries(su, cs, b.orgKeys, f.userKey);
    forall e | e in after.value.ciphers ensures e.id in w.homes && w.homes[e.id] == Home(e.orgId, e.collectionIds) {
      var i :| 0 <= i < |cs| && e.id == cs[i].id && e.orgId == cs[i].organizationId && e.collectionIds == Ids(cs[i]);
      assert cs[i] in cs;
    }
  }

  lemma RefreshKeepsInvariant(su: Suite, f: Account, w: World, refreshed: Option<Bundle>, after: Option<CacheData>)
    requires Invariant(su, f, w) && CacheAfter(su, f, w.cache, refreshed, after)
    requires refreshed.Some? ==> BundleAt(su, f, w.ciphers) == Ok(refreshed.value)
    ensures Invariant(su, f, w.(cache := after))
  {
    hide BundleAt, KeysMatch, WrittenFrom;
    if after != w.cache { WriteKeepsInvariant(su, f, w, w.ciphers, after); }
  }

  lemma GetRefreshes(su: Suite, f: Account, w: World, coll: string, item: string)
    ensures var o := Get(su, f.userKey, w.cache, AnswersAt(f, w.ciphers), coll, item);
            o.refreshed.Some? ==> BundleAt(su, f, w.ciphers) == Ok(o.refreshed.value)
  {
    hide Warm, ScanAnswer, SyncAndKeys;
  }

  lemma StepKeepsInvariant(su: Suite, f: Account, w: World, w': World)
    requires Invariant(su, f, w) && Step(su, f, w, w')
    ensures Invariant(su, f, w')
  {
    hide Invariant, Allowed, Mutate, Get, NamespaceSecrets, CacheAfter, AnswersAt, AtHome, BundleAt, WrittenFrom;
    var a := AnswersAt(f, w.ciphers);
    if MutationStep(w, w') {
      var m :| Allowed(w, m) && w' == Mutate(w, m);
      MutationKeepsInvariant(su, f, w, m);
    } else if w' == w.(cache := None) {
      DropKeepsInvariant(su, f, w);
    } else if GetStep(su, f, w, w') {
      var coll, item :| CacheAfter(su, f, w.cache, Get(su, f.userKey, w.cache, a, coll, item).refreshed, w'.cache)
                        && w' == w.(cache := w'.cache);
      GetRefreshes(su, f, w, coll, item);
      RefreshKeepsInvariant(su, f, w, Get(su, f.userKey, w.cache, a, coll, item).refreshed, w'.cache);
    } else if LateWrite(su, f, w, w') {
      var cs :| AtHome(cs, w.homes) && BundleAt(su, f, cs).Ok?
                && WrittenFrom(su, f, BundleAt(su, f, cs).value, w'.cache) && w' == w.(cache := w'.cache);
      WriteKeepsInvariant(su, f, w, cs, w'.cache);
    } else {
      var ns :| CacheAfter(su, f, w.cache, NamespaceSecrets(su, f.userKey, a, ns).refreshed, w'.cache)
                && w' == w.(cache := w'.cache);
      ListingRefreshes(su, f, w, ns);
      RefreshKeepsInvariant(su, f, w, NamespaceSecrets(su, f.userKey, a, ns).refreshed, w'.cache);
    }
  }

  lemma ListingRefreshes(su: Suite, f: Account, w: World, ns: Namespace)
    ensures var o := NamespaceSecrets(su, f.userKey, AnswersAt(f, w.ciphers), ns);
            o.refreshed.Some? ==> BundleAt(su, f, w.ciphers) == Ok(o.refreshed.value)
  {
    hide SyncAndKeys, NamespaceId, Members;
  }

  lemma DropKeepsInvariant(su: Suite, f: Account, w: World)
    requires Invariant(su, f, w)
    ensures Invariant(su, f, w.(cache := None))
  {
    hide BundleAt;
  }

  lemma {:induction false} RunKeepsInvariant(su: Suite, f: Account, run: seq<World>, i: nat)
    requires IsRun(su, f, run) && i < |run|
    ensures Invariant(su, f, run[i])
  {
    hide Step, Invariant;
    if i == 0 {
      EmptyWorld(su, f);
    } else {
      RunKeepsInvariant(su, f, run, i - 1);
      assert Step(su, f, run[i - 1], run[i - 1 + 1]);
      StepKeepsInvariant(su, f, run[i - 1], run[i]);
    }
  }

  lemma EmptyWorld(su: Suite, f: Account)
    ensures Invariant(su, f, World([], map[], None))
  {}

  // ---------- homes only grow ----------

  ghost predicate HomesKept(w: World, w': World) {
    forall id :: id in w.homes ==> id in w'.homes && w'.homes[id] == w.homes[id]
  }

  lemma StepKeepsHomes(su: Suite, f: Account, w: World, w': World)
    requires Step(su, f, w, w')
    ensures HomesKept(w, w')
  {
    hide CacheAfter, Get, NamespaceSecrets, WrittenFrom, BundleAt, AnswersAt, AtHome, Ids;
  }

  lemma {:induction false} RunKeepsHomes(su: Suite, f: Account, run: seq<World>, i: nat, j: nat)
    requires IsRun(su, f, run) && i <= j < |run|
    ensures HomesKept(run[i], run[j])
    decreases j
  {
    hide Step;
    if i < j {
      RunKeepsHomes(su, f, run, i, j - 1);
      assert Step(su, f, run[j - 1], run[j - 1 + 1]);
      StepKeepsHomes(su, f, run[j - 1], run[j]);
    }
  }

  // ---------- the theorems ----------

  /** The name is unique in the collection, in this state. */
  ghost predicate UniqueAt(su: Suite, f: Account, ciphers: seq<Cipher>, coll: string, item: string) {
    var r := BundleAt(su, f, ciphers);
    r.Ok? ==> UniqueFor(su, r.value, f.userKey, coll, item)
  }

  /** What a full sync and scan answers in this state. */
  function ScanNow(su: Suite, f: Account, ciphers: seq<Cipher>, coll: string, item: string): Result<Secret, ProviderError> {
    Get(su, f.userKey, None, AnswersAt(f, ciphers), coll, item).answer
  }

  /** The requests of one command, each lost or met by the server in some state between `i` and
      `j`: the `n`-th fetch in the state `at(n)`, the sync in the state `synced`. */
  ghost predicate AskedDuring(f: Account, run: seq<World>, i: nat, j: nat, at: nat -> nat, synced: nat, a: Answers) {
    && i <= synced <= j < |run| && (forall n: nat :: i <= at(n) <= j)
    && (a.sync.Ok? ==> a.sync == Ok(SyncResponse(f.privateKey, f.organizations, run[synced].ciphers)))
    && (a.collections.Ok? ==> a.collections == Ok(f.collections))
    && FetchesFrom(a.fetch, StatesAt(run, at))
  }

  function StatesAt(run: seq<World>, at: nat -> nat): nat -> seq<Cipher> {
    (n: nat) => if at(n) < |run| then run[at(n)].ciphers else []
  }

  /** The full sync of the command came through. */
  predicate Synced(a: Answers) { a.sync.Ok? && a.collections.Ok? }

  lemma MissIsScan(su: Suite, f: Account, ciphers: seq<Cipher>, a: Answers, coll: string, item: string)
    requires a.sync == Ok(SyncResponse(f.privateKey, f.organizations, ciphers)) && a.collections == Ok(f.collections)
    ensures Miss(su, f.userKey, a, coll, item).answer == ScanNow(su, f, ciphers, coll, item)
  {
    hide Open, OrgKeysOf, NamedCollections, MapApi, ScanAnswer;
  }

  lemma BundleScan(su: Suite, f: Account, ciphers: seq<Cipher>, coll: string, item: string)
    requires BundleAt(su, f, ciphers).Ok?
    ensures ScanNow(su, f, ciphers, coll, item) == ScanAnswer(su, BundleAt(su, f, ciphers).value, f.userKey, coll, item)
  {
    hide SyncAndKeys, ScanAnswer;
  }

  /** A get that loads its cache at some point of a run, while the server changes and other
      commands run between its requests, answers what a full sync and scan answers in one of the
      states between its start and its end; or its own sync failed, and it reports that as it would
      without a cache. */
  lemma GetDuringRun(su: Suite, f: Account, run: seq<World>, i: nat, j: nat, at: nat -> nat, synced: nat, a: Answers,
                     coll: string, item: string) returns (k: nat)
    requires IsRun(su, f, run) && AskedDuring(f, run, i, j, at, synced, a)
    requires forall t: nat :: i <= t <= j ==> UniqueAt(su, f, run[t].ciphers, coll, item)
    ensures i <= k <= j
    ensures var r := Get(su, f.userKey, run[i].cache, a, coll, item).answer;
            || r == ScanNow(su, f, run[k].ciphers, coll, item)
            || (!Synced(a) && r == Get(su, f.userKey, None, a, coll, item).answer)
  {
    hide IsRun, Warm, Miss, ScanNow, UniqueAt, Agrees, NoLooseCollections, Invariant, FetchesFrom;
    k := synced;
    if Synced(a) { MissIsScan(su, f, run[synced].ciphers, a, coll, item); }
    if run[i].cache.Some? && Warm(su, run[i].cache.value, f.userKey, a.fetch, coll, item) != Ok(None) {
      k := WarmDuringRun(su, f, run, i, j, at, synced, a, coll, item);
    }
  }

  lemma WarmDuringRun(su: Suite, f: Account, run: seq<World>, i: nat, j: nat, at: nat -> nat, synced: nat, a: Answers,
                      coll: string, item: string) returns (k: nat)
    requires IsRun(su, f, run) && AskedDuring(f, run, i, j, at, synced, a)
    requires forall t: nat :: i <= t <= j ==> UniqueAt(su, f, run[t].ciphers, coll, item)
    requires run[i].cache.Some? && Warm(su, run[i].cache.value, f.userKey, a.fetch, coll, item) != Ok(None)
    ensures i <= k <= j
    ensures Warm(su, run[i].cache.value, f.userKey, a.fetch, coll, item) == Lifted(ScanNow(su, f, run[k].ciphers, coll, item))
  {
    hide IsRun, Warm, ScanAnswer, ScanNow, UniqueFor, BundleAt, Agrees, NoLooseCollections, KeysMatch, FetchesFrom;
    var cache := run[i].cache.value;
    RunKeepsInvariant(su, f, run, i);
    var b := BundleAt(su, f, run[i].ciphers).value;
    SyncedKeys(su, f, run[i].ciphers);
    var states := StatesAt(run, at);
    forall n: nat
      ensures Agrees(cache, states(n)) && NoLooseCollections(states(n))
              && UniqueFor(su, AtState(b, states(n)), f.userKey, coll, item)
    {
      StateAgrees(su, f, run, i, at(n));
      BundleVaries(su, f, run[i].ciphers, run[at(n)].ciphers);
      assert UniqueAt(su, f, run[at(n)].ciphers, coll, item);
    }
    WarmHitIsScan(su, f.userKey, cache, b, states, a.fetch, coll, item);
    var n: nat :| Warm(su, cache, f.userKey, a.fetch, coll, item)
                  == Lifted(ScanAnswer(su, AtState(b, states(n)), f.userKey, coll, item));
    k := at(n);
    BundleVaries(su, f, run[i].ciphers, run[k].ciphers);
    BundleScan(su, f, run[k].ciphers, coll, item);
  }

  lemma SyncedKeys(su: Suite, f: Account, ciphers: seq<Cipher>)
    requires BundleAt(su, f, ciphers).Ok?
    ensures KeysValid(BundleAt(su, f, ciphers).value.orgKeys)
  {
    hide SyncAndKeys;
    SyncedKeysValid(su, AnswersAt(f, ciphers), f.userKey);
  }

  /** The cache of one state knows the homes of every later state. */
  lemma StateAgrees(su: Suite, f: Account, run: seq<World>, i: nat, k: nat)
    requires IsRun(su, f, run) && i <= k < |run| && run[i].cache.Some?
    ensures Agrees(run[i].cache.value, run[k].ciphers) && NoLooseCollections(run[k].ciphers)
  {
    hide IsRun, BundleAt, KeysMatch, DistinctIds;
    RunKeepsInvariant(su, f, run, i);
    RunKeepsInvariant(su, f, run, k);
    RunKeepsHomes(su, f, run, i, k);
    HomesAgree(run[i].cache.value, run[k].ciphers, run[k].homes);
  }

  lemma HomesAgree(cache: CacheData, ciphers: seq<Cipher>, homes: map<string, Home>)
    requires AtHome(ciphers, homes) && EntriesAtHome(cache, homes)
    ensures Agrees(cache, ciphers) && NoLooseCollections(ciphers)
  {}

  /** At every point of every run, for every ref whose name is unique in its collection then,
      a get through the cache answers exactly what a full sync and scan answers. */
  lemma CacheNeverMatters(su: Suite, f: Account, run: seq<World>, i: nat, coll: string, item: string)
    requires IsRun(su, f, run) && i < |run| && UniqueAt(su, f, run[i].ciphers, coll, item)
    ensures Get(su, f.userKey, run[i].cache, AnswersAt(f, run[i].ciphers), coll, item).answer
            == ScanNow(su, f, run[i].ciphers, coll, item)
  {
    hide Get, ScanNow, UniqueAt, IsRun;
    var k := GetDuringRun(su, f, run, i, i, (n: nat) => i, i, AnswersAt(f, run[i].ciphers), coll, item);
  }
}
