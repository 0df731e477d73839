/** What a sync, a get without the cache and a listing answer, in terms of the server's replies. */
module SyncExact {
  import opened Results
  import opened Text
  import opened Base64
  import opened Crypto
  import opened EncStrings
  import opened Mapping
  import opened SealedItems
  import opened Api
  import opened Vault
  import opened CacheAgreement

  // ---------- organization keys ----------

  /** What one organization's key opens to, or why it does not; `EncStrings.OrgKeyIff` says when. */
  function OrgKeyOf(su: Suite, key: string, privateKey: bytes): Result<SymmetricKey, CryptoError> {
    match Parse(key) case Err(e) => Err(e) case Ok(es) => UnwrapOrgKey(su, es, privateKey)
  }

  ghost predicate KeyFails(su: Suite, org: Org, privateKey: bytes) { org.key != "" && OrgKeyOf(su, org.key, privateKey).Err? }

  ghost predicate FirstFailing(su: Suite, orgs: seq<Org>, privateKey: bytes, i: nat) {
    i < |orgs| && KeyFails(su, orgs[i], privateKey) && forall j :: 0 <= j < i ==> !KeyFails(su, orgs[j], privateKey)
  }

  /** The keys fail to open exactly when some non-empty one does, and for its reason. */
  lemma {:induction false} OrgKeysFailIff(su: Suite, orgs: seq<Org>, privateKey: bytes, e: CryptoError)
    ensures OrgKeysOf(su, orgs, privateKey) == Err(e) <==>
              exists i: nat :: FirstFailing(su, orgs, privateKey, i) && OrgKeyOf(su, orgs[i].key, privateKey) == Err(e)
  {
    hide Parse, UnwrapOrgKey;
    if orgs != [] {
      var t := orgs[1..];
      OrgKeysFailIff(su, t, privateKey, e);
      if KeyFails(su, orgs[0], privateKey) {
        assert FirstFailing(su, orgs, privateKey, 0);
      } else {
        hide KeyFails, OrgKeyOf;
        if i: nat :| FirstFailing(su, t, privateKey, i) && OrgKeyOf(su, t[i].key, privateKey) == Err(e) {
          forall j | 0 <= j < i + 1 ensures !KeyFails(su, orgs[j], privateKey) { if j > 0 { assert orgs[j] == t[j - 1]; } }
          assert FirstFailing(su, orgs, privateKey, i + 1);
        }
        if i: nat :| FirstFailing(su, orgs, privateKey, i) && OrgKeyOf(su, orgs[i].key, privateKey) == Err(e) {
          forall j | 0 <= j < i - 1 ensures !KeyFails(su, t[j], privateKey) { assert t[j] == orgs[j + 1]; }
          assert FirstFailing(su, t, privateKey, i - 1);
        }
      }
    }
  }

  /** The first organization of that id that sends a key. */
  ghost predicate FirstKeyed(orgs: seq<Org>, id: string, i: nat) {
    i < |orgs| && orgs[i].id == id && orgs[i].key != "" && forall j :: 0 <= j < i ==> !(orgs[j].id == id && orgs[j].key != "")
  }

  /** The key found for an id is the one that the first organization of that id with a key sent. */
  lemma {:induction false} FoundKeyIff(su: Suite, orgs: seq<Org>, privateKey: bytes, id: string, k: SymmetricKey)
    requires OrgKeysOf(su, orgs, privateKey).Ok?
    ensures FindOrgKey(OrgKeysOf(su, orgs, privateKey).value, id) == Some(k) <==>
              exists i: nat :: FirstKeyed(orgs, id, i) && OrgKeyOf(su, orgs[i].key, privateKey) == Ok(k)
  {
    hide Parse, UnwrapOrgKey;
    if orgs != [] {
      var t := orgs[1..];
      FoundKeyIff(su, t, privateKey, id, k);
      if orgs[0].key != "" {
        var rest := OrgKeysOf(su, t, privateKey).value;
        var mine := OrgKey(orgs[0].id, OrgKeyOf(su, orgs[0].key, privateKey).value);
        assert OrgKeysOf(su, orgs, privateKey).value == [mine] + rest;
        assert ([mine] + rest)[1..] == rest;
      }
      if orgs[0].id == id && orgs[0].key != "" {
        assert FirstKeyed(orgs, id, 0);
      } else {
        hide OrgKeyOf;
        KeyedShift(orgs, id);
        if i: nat :| FirstKeyed(t, id, i) && OrgKeyOf(su, t[i].key, privateKey) == Ok(k) { assert FirstKeyed(orgs, id, i + 1); }
        if i: nat :| FirstKeyed(orgs, id, i) && OrgKeyOf(su, orgs[i].key, privateKey) == Ok(k) { assert FirstKeyed(t, id, i - 1); }
      }
    }
  }

  lemma KeyedShift(orgs: seq<Org>, id: string)
    requires orgs != [] && !(orgs[0].id == id && orgs[0].key != "")
    ensures forall i: nat :: FirstKeyed(orgs[1..], id, i) ==> FirstKeyed(orgs, id, i + 1)
    ensures forall i: nat :: FirstKeyed(orgs, id, i) ==> i > 0 && FirstKeyed(orgs[1..], id, i - 1)
  {
    var t := orgs[1..];
    forall i: nat | FirstKeyed(t, id, i) ensures FirstKeyed(orgs, id, i + 1) {
      forall j | 0 <= j < i + 1 ensures !(orgs[j].id == id && orgs[j].key != "") { if j > 0 { assert orgs[j] == t[j - 1]; } }
    }
    forall i: nat | FirstKeyed(orgs, id, i) ensures i > 0 && FirstKeyed(t, id, i - 1) {
      forall j | 0 <= j < i - 1 ensures !(t[j].id == id && t[j].key != "") { assert t[j] == orgs[j + 1]; }
    }
  }

  // ---------- collections ----------

  /** The row's organization has a key, and its name opens under it. */
  ghost predicate RowOpens(su: Suite, row: ApiCollection, keys: seq<OrgKey>, c: Collection) {
    && c.id == row.id && c.orgId == row.organizationId
    && FindOrgKey(keys, row.organizationId).Some?
    && Dec(su, row.name, FindOrgKey(keys, row.organizationId).value) == Ok(c.name)
  }

  /** `at[i]` is the row of the `i`-th collection; the order is kept, and every row that opens is there. */
  ghost predicate RowsPicked(su: Suite, rows: seq<ApiCollection>, keys: seq<OrgKey>, cs: seq<Collection>, at: seq<nat>) {
    PicksOpen(su, rows, keys, cs, at) && Increasing(at) && PicksAll(su, rows, keys, at)
  }

  ghost predicate PicksOpen(su: Suite, rows: seq<ApiCollection>, keys: seq<OrgKey>, cs: seq<Collection>, at: seq<nat>) {
    |at| == |cs| && forall i :: 0 <= i < |at| ==> at[i] < |rows| && RowOpens(su, rows[at[i]], keys, cs[i])
  }

  ghost predicate Increasing(at: seq<nat>) { forall i, j :: 0 <= i < j < |at| ==> at[i] < at[j] }

  ghost predicate PicksAll(su: Suite, rows: seq<ApiCollection>, keys: seq<OrgKey>, at: seq<nat>) {
    forall n, c :: 0 <= n < |rows| && RowOpens(su, rows[n], keys, c) ==> n in at
  }

  /** The same picks, seen from a list with one more row in front. */
  function Moved(at: seq<nat>): (r: seq<nat>)
    ensures |r| == |at| && forall i :: 0 <= i < |r| ==> r[i] == at[i] + 1
  {
    seq(|at|, i requires 0 <= i < |at| => at[i] + 1)
  }

  lemma MovedOpen(su: Suite, rows: seq<ApiCollection>, keys: seq<OrgKey>, cs: seq<Collection>, at: seq<nat>)
    requires rows != [] && PicksOpen(su, rows[1..], keys, cs, at)
    ensures PicksOpen(su, rows, keys, cs, Moved(at))
  {
    hide RowOpens;
    forall i | 0 <= i < |at| ensures RowOpens(su, rows[Moved(at)[i]], keys, cs[i]) { assert rows[at[i] + 1] == rows[1..][at[i]]; }
  }

  lemma MovedAll(su: Suite, rows: seq<ApiCollection>, keys: seq<OrgKey>, at: seq<nat>, n: nat, c: Collection)
    requires rows != [] && PicksAll(su, rows[1..], keys, at) && 0 < n < |rows| && RowOpens(su, rows[n], keys, c)
    ensures n in Moved(at)
  {
    hide RowOpens;
    assert rows[1..][n - 1] == rows[n];
    assert RowOpens(su, rows[1..][n - 1], keys, c);
    var i :| 0 <= i < |at| && at[i] == n - 1;
    assert Moved(at)[i] == n;
  }

  lemma FrontOpen(su: Suite, rows: seq<ApiCollection>, keys: seq<OrgKey>, c: Collection, cs: seq<Collection>, at: seq<nat>)
    requires rows != [] && RowOpens(su, rows[0], keys, c) && PicksOpen(su, rows, keys, cs, at)
    ensures PicksOpen(su, rows, keys, [c] + cs, [0] + at)
  {
    hide RowOpens;
    var all, picked := [0] + at, [c] + cs;
    forall i | 0 <= i < |all| ensures all[i] < |rows| && RowOpens(su, rows[all[i]], keys, picked[i]) {
      if i > 0 { assert all[i] == at[i - 1] && picked[i] == cs[i - 1]; }
    }
  }

  lemma PickFirst(su: Suite, rows: seq<ApiCollection>, keys: seq<OrgKey>, c: Collection, cs: seq<Collection>, at: seq<nat>)
    requires rows != [] && RowOpens(su, rows[0], keys, c) && RowsPicked(su, rows[1..], keys, cs, at)
    ensures RowsPicked(su, rows, keys, [c] + cs, [0] + Moved(at))
  {
    hide RowOpens, PicksOpen;
    var all := [0] + Moved(at);
    MovedOpen(su, rows, keys, cs, at);
    FrontOpen(su, rows, keys, c, cs, Moved(at));
    InFront(Moved(at));
    assert PicksAll(su, rows, keys, all) by {
      forall n, x | 0 <= n < |rows| && RowOpens(su, rows[n], keys, x) ensures n in all {
        if n > 0 { MovedAll(su, rows, keys, at, n, x); }
      }
    }
  }

  lemma SkipFirst(su: Suite, rows: seq<ApiCollection>, keys: seq<OrgKey>, cs: seq<Collection>, at: seq<nat>)
    requires rows != [] && (forall c :: !RowOpens(su, rows[0], keys, c)) && RowsPicked(su, rows[1..], keys, cs, at)
    ensures RowsPicked(su, rows, keys, cs, Moved(at))
  {
    hide RowOpens, PicksOpen;
    MovedOpen(su, rows, keys, cs, at);
    forall n, x | 0 <= n < |rows| && RowOpens(su, rows[n], keys, x) ensures n in Moved(at) {
      MovedAll(su, rows, keys, at, n, x);
    }
  }

  lemma InFront(s: seq<nat>)
    ensures 0 in [0] + s && forall n :: n in s ==> n in [0] + s
  {
    assert ([0] + s)[0] == 0;
  }

  /** The collections are, in order, exactly the rows whose organization has a key that opens the name. */
  lemma {:induction false} CollectionsAre(su: Suite, rows: seq<ApiCollection>, keys: seq<OrgKey>) returns (at: seq<nat>)
    ensures RowsPicked(su, rows, keys, NamedCollections(su, rows, keys), at)
  {
    hide Dec, FindOrgKey, RowsPicked;
    if rows == [] {
      at := [];
      NothingPicked(su, keys);
    } else {
      at := CollectionsAre(su, rows[1..], keys);
      var rest := NamedCollections(su, rows[1..], keys);
      var k := FindOrgKey(keys, rows[0].organizationId);
      if k.Some? && Dec(su, rows[0].name, k.value).Ok? {
        PickFirst(su, rows, keys, Collection(rows[0].id, rows[0].organizationId, Dec(su, rows[0].name, k.value).value), rest, at);
        at := [0] + Moved(at);
      } else {
        SkipFirst(su, rows, keys, rest, at);
        at := Moved(at);
      }
    }
  }

  lemma NothingPicked(su: Suite, keys: seq<OrgKey>)
    ensures RowsPicked(su, [], keys, [], [])
  {}

  // ---------- the sync ----------

  /** The private key of the account, as the reply carries it. */
  function PrivateKeyOf(su: Suite, a: Answers, userKey: SymmetricKey): Option<bytes> {
    if a.sync.Err? then None
    else (match Open(su, a.sync.value.privateKey, userKey) case Err(_) => None case Ok(pk) => Some(pk))
  }

  /** A sync yields the ciphers as sent; for every organization id the key of the first one that
      sends a key; and, in order, the collections whose name that key opens. */
  lemma SyncIs(su: Suite, a: Answers, userKey: SymmetricKey, b: Bundle) returns (at: seq<nat>)
    requires SyncAndKeys(su, a, userKey) == Ok(b)
    ensures a.sync.Ok? && a.collections.Ok? && PrivateKeyOf(su, a, userKey).Some?
    ensures b.ciphers == a.sync.value.ciphers
    ensures forall id, k :: FindOrgKey(b.orgKeys, id) == Some(k) <==>
              exists i: nat :: FirstKeyed(a.sync.value.organizations, id, i)
                && OrgKeyOf(su, a.sync.value.organizations[i].key, PrivateKeyOf(su, a, userKey).value) == Ok(k)
    ensures RowsPicked(su, a.collections.value, b.orgKeys, b.collections, at)
  {
    hide OrgKeysOf, NamedCollections, FindOrgKey, OrgKeyOf, RowsPicked, Open, MapApi;
    var pk := PrivateKeyOf(su, a, userKey).value;
    forall id, k ensures FindOrgKey(b.orgKeys, id) == Some(k) <==>
              exists i: nat :: FirstKeyed(a.sync.value.organizations, id, i)
                && OrgKeyOf(su, a.sync.value.organizations[i].key, pk) == Ok(k)
    {
      FoundKeyIff(su, a.sync.value.organizations, pk, id, k);
    }
    at := CollectionsAre(su, a.collections.value, b.orgKeys);
  }

  /** Why a sync fails, the first that applies: the request, the private key, some organization's
      key, the request for the collections. With none of these it succeeds. */
  lemma SyncFailsAs(su: Suite, a: Answers, userKey: SymmetricKey, e: ProviderError)
    ensures SyncAndKeys(su, a, userKey) == Err(e) <==>
              if a.sync.Err? then e == MapApi(a.sync.error)
              else
                match Open(su, a.sync.value.privateKey, userKey)
                case Err(x) => e == CryptoFailure(x)
                case Ok(pk) =>
                  if exists i: nat :: FirstFailing(su, a.sync.value.organizations, pk, i) then
                    exists i: nat, x :: FirstFailing(su, a.sync.value.organizations, pk, i)
                      && OrgKeyOf(su, a.sync.value.organizations[i].key, pk) == Err(x) && e == CryptoFailure(x)
                  else a.collections.Err? && e == MapApi(a.collections.error)
  {
    hide OrgKeysOf, NamedCollections, OrgKeyOf, KeyFails, Open, MapApi;
    if a.sync.Ok? && Open(su, a.sync.value.privateKey, userKey).Ok? {
      var orgs, pk := a.sync.value.organizations, Open(su, a.sync.value.privateKey, userKey).value;
      forall x ensures OrgKeysOf(su, orgs, pk) == Err(x) <==>
                exists i: nat :: FirstFailing(su, orgs, pk, i) && OrgKeyOf(su, orgs[i].key, pk) == Err(x)
      {
        OrgKeysFailIff(su, orgs, pk, x);
      }
      FailingHasError(su, orgs, pk);
    }
  }

  lemma FailingHasError(su: Suite, orgs: seq<Org>, pk: bytes)
    ensures forall i: nat :: FirstFailing(su, orgs, pk, i) ==> OrgKeyOf(su, orgs[i].key, pk).Err?
    ensures forall i: nat, j: nat :: FirstFailing(su, orgs, pk, i) && FirstFailing(su, orgs, pk, j) ==> i == j
  {
    hide OrgKeyOf;
    forall i: nat, j: nat | FirstFailing(su, orgs, pk, i) && FirstFailing(su, orgs, pk, j) ensures i == j {
      assert !(i < j) && !(j < i);
    }
  }

  // ---------- which collection, which key, which cipher ----------

  /** The first collection whose name or id is `coll`, ASCII case aside. */
  ghost predicate FirstCalled(cs: seq<Collection>, coll: string, i: nat) {
    i < |cs| && (EqFold(cs[i].name, coll) || EqFold(cs[i].id, coll))
    && forall j :: 0 <= j < i ==> !EqFold(cs[j].name, coll) && !EqFold(cs[j].id, coll)
  }

  lemma {:induction false} FindCollectionIff(cs: seq<Collection>, coll: string, id: string)
    ensures FindCollection(coll, cs) == Some(id) <==> exists i: nat :: FirstCalled(cs, coll, i) && cs[i].id == id
  {
    hide EqFold;
    if cs != [] {
      var t := cs[1..];
      FindCollectionIff(t, coll, id);
      if EqFold(cs[0].name, coll) || EqFold(cs[0].id, coll) {
        assert FirstCalled(cs, coll, 0);
      } else {
        if i: nat :| FirstCalled(t, coll, i) && t[i].id == id {
          forall j | 0 <= j < i + 1 ensures !EqFold(cs[j].name, coll) && !EqFold(cs[j].id, coll) { if j > 0 { assert cs[j] == t[j - 1]; } }
          assert FirstCalled(cs, coll, i + 1);
        }
        if i: nat :| FirstCalled(cs, coll, i) && cs[i].id == id {
          forall j | 0 <= j < i - 1 ensures !EqFold(t[j].name, coll) && !EqFold(t[j].id, coll) { assert t[j] == cs[j + 1]; }
          assert FirstCalled(t, coll, i - 1);
        }
      }
    }
  }

  /** `personal` is the personal vault, whatever the collections are called. */
  lemma ResolveIff(coll: string, cs: seq<Collection>, id: string)
    ensures ResolveCollection(coll, cs) == Some(id) <==>
              if EqFold(coll, "personal") then id == "" else exists i: nat :: FirstCalled(cs, coll, i) && cs[i].id == id
  {
    hide EqFold;
    FindCollectionIff(cs, coll, id);
  }

  /** A cipher opens under the key of its organization when the sync has one, else under the user
      key; a key of its own must open under that one. */
  lemma CipherKeyIff(su: Suite, c: Cipher, keys: seq<OrgKey>, userKey: SymmetricKey, k: SymmetricKey)
    ensures var found := if c.organizationId.Some? then FindOrgKey(keys, c.organizationId.value) else None;
            var container := if found.Some? then found.value else userKey;
            CipherKey(su, c, keys, userKey) == Ok(k) <==>
              if c.key.None? || c.key.value == "" then k == container
              else k.Valid() && Open(su, c.key.value, container) == Ok(k.enc + k.mac)
  {
    hide Open, EffectiveKey, FindOrgKey;
    EffectiveKeyIff(su, c.key, KeyFor(c.organizationId, keys, userKey), k);
  }

  /** The scan stops at a cipher of the personal vault without an organization, or one of a
      collection that lists it, whose name opens to the item's, ASCII case aside. */
  lemma AcceptsIff(su: Suite, keys: seq<OrgKey>, userKey: SymmetricKey, collId: string, item: string, c: Cipher)
    ensures Accepts(su, keys, userKey, collId, item, c) <==>
              && (if collId == "" then c.organizationId.None?
                  else c.organizationId.Some? && c.collectionIds.Some? && exists n :: 0 <= n < |c.collectionIds.value| && c.collectionIds.value[n] == collId)
              && exists k, name :: CipherKey(su, c, keys, userKey) == Ok(k) && Dec(su, c.name, k) == Ok(name) && EqFold(name, item)
  {
    hide CipherKey, Dec, EqFold;
  }

  // ---------- a get without the cache ----------

  /** It answers a secret exactly when the sync succeeds, the collection resolves, and the first
      cipher the scan accepts maps to it. */
  lemma GetIff(su: Suite, userKey: SymmetricKey, a: Answers, coll: string, item: string, s: Secret)
    ensures Get(su, userKey, None, a, coll, item).answer == Ok(s) <==>
              exists b, collId, i: nat, k ::
                && SyncAndKeys(su, a, userKey) == Ok(b) && ResolveCollection(coll, b.collections) == Some(collId)
                && FirstMatch(su, b, userKey, collId, item, i)
                && CipherKey(su, b.ciphers[i], b.orgKeys, userKey) == Ok(k) && Mapped(su, b.ciphers[i], k) == Ok(s)
  {
    hide SyncAndKeys, ResolveCollection, Mapped, CipherKey, Accepts, Scan;
    if Get(su, userKey, None, a, coll, item).answer == Ok(s) {
      var b := SyncAndKeys(su, a, userKey).value;
      var collId := ResolveCollection(coll, b.collections).value;
      var i := ScanFound(su, b, userKey, collId, item, s);
      assert CipherKey(su, b.ciphers[i], b.orgKeys, userKey) == Ok(CipherKey(su, b.ciphers[i], b.orgKeys, userKey).value);
    }
    forall b, collId, i: nat, k
      | && SyncAndKeys(su, a, userKey) == Ok(b) && ResolveCollection(coll, b.collections) == Some(collId)
        && FirstMatch(su, b, userKey, collId, item, i)
        && CipherKey(su, b.ciphers[i], b.orgKeys, userKey) == Ok(k) && Mapped(su, b.ciphers[i], k) == Ok(s)
      ensures Get(su, userKey, None, a, coll, item).answer == Ok(s)
    {
      ScanAtFirst(su, b, userKey, collId, item, i);
    }
  }

  /** Why it does not, given the sync: no such collection; a match that does not map; or no match,
      and then keys that did not unwrap are reported before the item is called missing. */
  lemma GetFailsAs(su: Suite, userKey: SymmetricKey, a: Answers, b: Bundle, coll: string, item: string)
    requires SyncAndKeys(su, a, userKey) == Ok(b)
    ensures var r := Get(su, userKey, None, a, coll, item).answer;
            match ResolveCollection(coll, b.collections)
            case None => r == Err(NotFound("collection " + coll))
            case Some(collId) =>
              if exists i: nat :: FirstMatch(su, b, userKey, collId, item, i) then
                r.Err? ==> r.error.CryptoFailure?
              else
                var n := CountUnwrappable(su, b.orgKeys, userKey, collId, b.ciphers);
                r == if n > 0 then Err(UnwrapFailures(n, coll)) else Err(NotFound("vw://" + coll + "/" + item))
  {
    hide SyncAndKeys, ResolveCollection, Mapped, CipherKey, Accepts, Scan, CountUnwrappable;
    match ResolveCollection(coll, b.collections)
    case None =>
    case Some(collId) =>
      if j :| 0 <= j < |b.ciphers| && Accepts(su, b.orgKeys, userKey, collId, item, b.ciphers[j]) {
        var first := MatchExists(su, b, userKey, collId, item, j);
        ScanAtFirst(su, b, userKey, collId, item, first);
      } else {
        ScanMissingIff(su, b, userKey, collId, item, CountUnwrappable(su, b.orgKeys, userKey, collId, b.ciphers));
      }
  }

  // ---------- listings ----------

  /** Every collection is a namespace, in order, and the personal vault comes last. */
  lemma NamespacesAre(b: Bundle)
    ensures |Namespaces(b)| == |b.collections| + 1 && Namespaces(b)[|b.collections|] == Namespace("", "personal")
    ensures forall i :: 0 <= i < |b.collections| ==>
              Namespaces(b)[i].id == b.collections[i].id && Namespaces(b)[i].name == b.collections[i].name
  {}

  /** A namespace is looked up by its id in today's collections, the personal vault aside; one that
      is gone is reported, and for the others the answer is what belongs and opens, in sync order. */
  lemma NamespaceSecretsIs(su: Suite, userKey: SymmetricKey, a: Answers, b: Bundle, ns: Namespace)
    requires SyncAndKeys(su, a, userKey) == Ok(b)
    ensures var r := NamespaceSecrets(su, userKey, a, ns);
            && (ns.id == "" ==> r.answer == Ok(Members(su, b.orgKeys, userKey, "", b.ciphers)))
            && (ns.id != "" ==>
                  match ResolveCollection(ns.id, b.collections)
                  case None => r.answer == Err(NotFound("namespace " + ns.id)) && r.refreshed == None
                  case Some(collId) => r.answer == Ok(Members(su, b.orgKeys, userKey, collId, b.ciphers)))
            && (r.answer.Ok? ==> r.refreshed == Some(b))
  {
    hide SyncAndKeys, ResolveCollection, Members;
  }
}
