/** The exported namespace and single gets show the same items. */
module Views {
  import opened Results
  import opened Text
  import opened Crypto
  import opened Mapping
  import opened Api
  import opened Vault
  import opened CacheAgreement
  import opened SampleVault
  import Refs

  /** The namespace a command names: the first whose name matches. */
  function NamespaceNamed(list: seq<Namespace>, name: string): Option<Namespace> {
    if list == [] then None
    else if EqFold(list[0].name, name) then Some(list[0])
    else NamespaceNamed(list[1..], name)
  }

  /** No collection passes for the personal vault, has no id, or has an id that another
      collection's name or id matches. */
  ghost predicate ClearNames(cs: seq<Collection>) {
    && (forall i :: 0 <= i < |cs| ==> cs[i].id != "" && !EqFold(cs[i].name, PERSONAL) && !EqFold(cs[i].id, PERSONAL))
    && (forall i, j :: 0 <= i < |cs| && 0 <= j < |cs| && i != j ==>
          !EqFold(cs[i].id, cs[j].id) && !EqFold(cs[i].name, cs[j].id))
  }

  lemma {:induction false} FoundByName(cs: seq<Collection>, name: string, i: nat)
    requires i < |cs| && EqFold(cs[i].name, name)
    requires forall j :: 0 <= j < i ==> !EqFold(cs[j].name, name) && !EqFold(cs[j].id, name)
    ensures FindCollection(name, cs) == Some(cs[i].id)
    decreases i
  {
    hide EqFold;
    if i > 0 {
      forall j | 0 <= j < i - 1 ensures !EqFold(cs[1..][j].name, name) && !EqFold(cs[1..][j].id, name) {
        assert cs[1..][j] == cs[j + 1];
      }
      FoundByName(cs[1..], name, i - 1);
    }
  }

  lemma {:induction false} FoundById(cs: seq<Collection>, id: string, i: nat)
    requires i < |cs| && cs[i].id == id
    requires forall j :: 0 <= j < i ==> !EqFold(cs[j].name, id) && !EqFold(cs[j].id, id)
    ensures FindCollection(id, cs) == Some(id)
    decreases i
  {
    if i > 0 {
      hide EqFold;
      forall j | 0 <= j < i - 1 ensures !EqFold(cs[1..][j].name, id) && !EqFold(cs[1..][j].id, id) {
        assert cs[1..][j] == cs[j + 1];
      }
      FoundById(cs[1..], id, i - 1);
    }
  }

  /** Where the named namespace stands in the list. */
  lemma {:induction false} NamedAt(list: seq<Namespace>, name: string) returns (i: nat)
    requires NamespaceNamed(list, name).Some?
    ensures i < |list| && NamespaceNamed(list, name) == Some(list[i]) && EqFold(list[i].name, name)
    ensures forall j :: 0 <= j < i ==> !EqFold(list[j].name, name)
  {
    hide EqFold;
    if EqFold(list[0].name, name) {
      i := 0;
    } else {
      i := NamedAt(list[1..], name);
      i := i + 1;
    }
  }

  lemma NotPersonal(cs: seq<Collection>, name: string, i: nat)
    requires ClearNames(cs) && i < |cs| && EqFold(cs[i].name, name)
    ensures !EqFold(name, PERSONAL) && forall j :: 0 <= j < |cs| && j != i ==> !EqFold(cs[j].id, name)
  {
    forall j | 0 <= j < |cs| && j != i ensures !EqFold(cs[j].id, name) {
      assert !EqFold(cs[i].name, cs[j].id);
    }
  }

  /** With clear names, a listing's namespace and a get's collection segment are the same. */
  lemma SameCollection(b: Bundle, name: string)
    requires ClearNames(b.collections) && NamespaceNamed(Namespaces(b), name).Some?
    ensures var ns := NamespaceNamed(Namespaces(b), name).value;
            && NamespaceId(ns, b.collections) == ResolveCollection(name, b.collections)
            && ResolveCollection(name, b.collections).Some?
  {
    var cs := b.collections;
    var i := NamedAt(Namespaces(b), name);
    var ns := Namespaces(b)[i];
    if i == |cs| {
      assert ns == Namespace("", PERSONAL);
    } else {
      hide EqFold;
      assert ns.id == cs[i].id && ns.name == cs[i].name;
      NotPersonal(cs, name, i);
      forall j | 0 <= j < i ensures !EqFold(cs[j].name, name) {
        assert Namespaces(b)[j].name == cs[j].name;
      }
      FoundByName(cs, name, i);
      FoundById(cs, cs[i].id, i);
    }
  }

  lemma {:induction false} MemberSource(su: Suite, b: Bundle, userKey: SymmetricKey, collId: string, n: nat) returns (i: nat)
    requires n < |Members(su, b.orgKeys, userKey, collId, b.ciphers)|
    ensures i < |b.ciphers| && Belongs(b.ciphers[i], collId) && CipherKey(su, b.ciphers[i], b.orgKeys, userKey).Ok?
    ensures Mapped(su, b.ciphers[i], CipherKey(su, b.ciphers[i], b.orgKeys, userKey).value)
            == Ok(Members(su, b.orgKeys, userKey, collId, b.ciphers)[n])
    decreases |b.ciphers|
  {
    hide Mapped, CipherKey;
    var c := b.ciphers[0];
    var rest := Members(su, b.orgKeys, userKey, collId, b.ciphers[1..]);
    var k := CipherKey(su, c, b.orgKeys, userKey);
    if Belongs(c, collId) && k.Ok? && Mapped(su, c, k.value).Ok? {
      if n == 0 {
        i := 0;
      } else {
        i := MemberSource(su, Tail(b), userKey, collId, n - 1);
        i := i + 1;
      }
    } else {
      i := MemberSource(su, Tail(b), userKey, collId, n);
      i := i + 1;
    }
  }

  /** The members of a collection are the secrets of the ciphers that belong to it and open. */
  lemma {:induction false} MembersExact(su: Suite, b: Bundle, userKey: SymmetricKey, collId: string, s: Secret)
    ensures s in Members(su, b.orgKeys, userKey, collId, b.ciphers) <==>
            exists i :: 0 <= i < |b.ciphers| && IsMember(su, b, userKey, collId, b.ciphers[i], s)
    decreases |b.ciphers|
  {
    hide Mapped, CipherKey, Belongs;
    if b.ciphers != [] {
      MembersExact(su, Tail(b), userKey, collId, s);
      if i :| 0 <= i < |Tail(b).ciphers| && IsMember(su, Tail(b), userKey, collId, Tail(b).ciphers[i], s) {
        assert IsMember(su, b, userKey, collId, b.ciphers[i + 1], s);
      }
      if i :| 0 <= i < |b.ciphers| && IsMember(su, b, userKey, collId, b.ciphers[i], s) {
        if i > 0 { assert IsMember(su, Tail(b), userKey, collId, Tail(b).ciphers[i - 1], s); }
      }
    }
  }

  predicate IsMember(su: Suite, b: Bundle, userKey: SymmetricKey, collId: string, c: Cipher, s: Secret) {
    && Belongs(c, collId) && CipherKey(su, c, b.orgKeys, userKey).Ok?
    && Mapped(su, c, CipherKey(su, c, b.orgKeys, userKey).value) == Ok(s)
  }

  lemma MappedName(su: Suite, c: Cipher, k: SymmetricKey)
    ensures Mapped(su, c, k).Ok? ==> Dec(su, c.name, k) == Ok(Mapped(su, c, k).value.meta.name)
  {
    hide Run, Writes, Dec;
  }

  lemma MemberIsAccepted(su: Suite, b: Bundle, userKey: SymmetricKey, collId: string, s: Secret, i: nat)
    requires i < |b.ciphers| && Belongs(b.ciphers[i], collId) && CipherKey(su, b.ciphers[i], b.orgKeys, userKey).Ok?
    requires Mapped(su, b.ciphers[i], CipherKey(su, b.ciphers[i], b.orgKeys, userKey).value) == Ok(s)
    ensures Accepts(su, b.orgKeys, userKey, collId, s.meta.name, b.ciphers[i])
  {
    hide Mapped, CipherKey, Dec;
    MappedName(su, b.ciphers[i], CipherKey(su, b.ciphers[i], b.orgKeys, userKey).value);
  }

  // ---------- what can be got again ----------

  /** An export of the namespace called `name` contains `s`. */
  ghost predicate Exported(su: Suite, userKey: SymmetricKey, a: Answers, b: Bundle, name: string, s: Secret) {
    && NamespaceNamed(Namespaces(b), name).Some?
    && var r := NamespaceSecrets(su, userKey, a, NamespaceNamed(Namespaces(b), name).value).answer;
       r.Ok? && s in r.value
  }

  /** `get` without a cache on the text of a ref: the secret, and the field the text asks for. */
  function GetText(su: Suite, userKey: SymmetricKey, a: Answers, text: string): Option<(Secret, string)> {
    match Refs.Parse(text)
    case Err(_) => None
    case Ok(r) =>
      if r.scheme != "vw" then None
      else (match GetLocus(su, userKey, None, a, r.locus).answer case Ok(s) => Some((s, r.field)) case Err(_) => None)
  }

  function TextOf(name: string, s: Secret, field: string): string {
    Refs.Display(Refs.Ref("vw", name + "/" + s.meta.name, field, true))
  }

  lemma ExportedHasSource(su: Suite, userKey: SymmetricKey, a: Answers, b: Bundle, name: string, s: Secret) returns (i: nat)
    requires SyncAndKeys(su, a, userKey) == Ok(b) && ClearNames(b.collections) && Exported(su, userKey, a, b, name, s)
    ensures ResolveCollection(name, b.collections).Some? && i < |b.ciphers|
    ensures IsMember(su, b, userKey, ResolveCollection(name, b.collections).value, b.ciphers[i], s)
  {
    hide SyncAndKeys, ResolveCollection, NamespaceId, Members, Mapped, CipherKey, Namespaces, NamespaceNamed;
    SameCollection(b, name);
    var collId := ResolveCollection(name, b.collections).value;
    var n :| 0 <= n < |Members(su, b.orgKeys, userKey, collId, b.ciphers)|
             && Members(su, b.orgKeys, userKey, collId, b.ciphers)[n] == s;
    i := MemberSource(su, b, userKey, collId, n);
  }

  lemma ExportedIsScanned(su: Suite, userKey: SymmetricKey, a: Answers, b: Bundle, name: string, s: Secret)
    requires SyncAndKeys(su, a, userKey) == Ok(b) && ClearNames(b.collections) && Exported(su, userKey, a, b, name, s)
    requires UniqueFor(su, b, userKey, name, s.meta.name)
    ensures Get(su, userKey, None, a, name, s.meta.name).answer == Ok(s)
  {
    hide SyncAndKeys, ResolveCollection, Mapped, CipherKey, Accepts, Scan, Exported;
    var i := ExportedHasSource(su, userKey, a, b, name, s);
    var collId := ResolveCollection(name, b.collections).value;
    MemberIsAccepted(su, b, userKey, collId, s, i);
    var first := MatchExists(su, b, userKey, collId, s.meta.name, i);
    assert first == i;
    ScanAtFirst(su, b, userKey, collId, s.meta.name, i);
  }

  /** What a get answers carries the name that was asked for. */
  lemma GotName(su: Suite, userKey: SymmetricKey, a: Answers, coll: string, item: string, s: Secret)
    requires Get(su, userKey, None, a, coll, item).answer == Ok(s)
    ensures |s.meta.name| == |item|
  {
    hide SyncAndKeys, ResolveCollection, Mapped, CipherKey, Dec, Scan;
    var b := SyncAndKeys(su, a, userKey).value;
    var collId := ResolveCollection(coll, b.collections).value;
    var i := ScanFound(su, b, userKey, collId, item, s);
    MappedName(su, b.ciphers[i], CipherKey(su, b.ciphers[i], b.orgKeys, userKey).value);
  }

  /** With a slash in the collection's name, more than the item's name is taken for it. */
  lemma SlashSplitsEarly(name: string, itemName: string)
    requires '/' in name
    ensures var r := SplitOnce(name + "/" + itemName, "/"); r.Some? && |r.value.1| > |itemName|
  {
    var locus := name + "/" + itemName;
    var i :| 0 <= i < |name| && name[i] == '/';
    assert locus[i] == '/';
    var (coll, item) := SplitOnce(locus, "/").value;
    assert |locus| == |coll| + 1 + |item|;
    assert forall j :: 0 <= j < |coll| ==> coll[j] == locus[j];
  }

  /** With clear collection names and a name that is unique in the collection, a get of
      `namespace/name` answers an exported secret exactly when the namespace has no slash. */
  lemma ExportedIsGettableIff(su: Suite, userKey: SymmetricKey, a: Answers, b: Bundle, name: string, s: Secret)
    requires SyncAndKeys(su, a, userKey) == Ok(b) && ClearNames(b.collections) && Exported(su, userKey, a, b, name, s)
    requires UniqueFor(su, b, userKey, name, s.meta.name)
    ensures GetLocus(su, userKey, None, a, name + "/" + s.meta.name).answer == Ok(s) <==> '/' !in name
  {
    hide Get, Exported, UniqueFor, SyncAndKeys;
    var locus := name + "/" + s.meta.name;
    if '/' in name {
      SlashSplitsEarly(name, s.meta.name);
      var (coll, item) := SplitOnce(locus, "/").value;
      if Get(su, userKey, None, a, coll, item).answer == Ok(s) { GotName(su, userKey, a, coll, item, s); }
    } else {
      SplitOnceAt(name, s.meta.name, "/");
      ExportedIsScanned(su, userKey, a, b, name, s);
    }
  }

  lemma VwText(locus: string, field: string)
    requires locus != "" && field != ""
    ensures var p := Refs.Parse(Refs.Display(Refs.Ref("vw", locus, field, true)));
            if '#' in locus then p.Err? || p.value.field != field else p == Ok(Refs.Ref("vw", locus, field, true))
  {
    var r := Refs.Ref("vw", locus, field, true);
    var rest := locus + "#" + field;
    Refs.DisplayParsesIff(r);
    Refs.KnownScheme("vw");
    assert Refs.Display(r) == "vw" + "://" + rest;
    SplitOnceAt("vw", rest, "://");
    assert rest[|locus|] == '#';
    var (l, f) := SplitOnce(rest, "#").value;
    assert |rest| == |l| + 1 + |f|;
    if |l| == |locus| { assert l == rest[..|l|] == locus; }
  }

  /** On the printed text of a ref: it gets the exported secret and asks for the named field
      exactly when the namespace has no slash and neither name has a `#`. */
  lemma ExportedTextIsGettableIff(su: Suite, userKey: SymmetricKey, a: Answers, b: Bundle, name: string, s: Secret, field: string)
    requires SyncAndKeys(su, a, userKey) == Ok(b) && ClearNames(b.collections) && Exported(su, userKey, a, b, name, s)
    requires UniqueFor(su, b, userKey, name, s.meta.name) && field != ""
    ensures GetText(su, userKey, a, TextOf(name, s, field)) == Some((s, field))
            <==> '/' !in name && '#' !in name && '#' !in s.meta.name
  {
    hide Refs.Parse, Refs.Display, GetLocus, Exported, UniqueFor, SyncAndKeys;
    var locus := name + "/" + s.meta.name;
    VwText(locus, field);
    assert '#' in locus <==> '#' in name || '#' in s.meta.name;
    ExportedIsGettableIff(su, userKey, a, b, name, s);
  }

  // ---------- where names get in the way ----------

  /** The item in a collection `k1` of this name. */
  function Named(su: Suite, x: Sample, name: string): Answers {
    Serves(su, x, Wrapped(x), Item(su, x, "k1", None), [Collection("k1", "o", name)])
  }

  /** The item of a nested collection `P/C` is exported, but a get looks in a collection `P`. */
  lemma NestedCollectionIsUnreachable(su: Suite, x: Sample)
    requires x.Fits(su)
    ensures var a := Named(su, x, "P/C");
            var r := NamespaceSecrets(su, x.userKey, a, Namespace("k1", "P/C")).answer;
            && r.Ok? && |r.value| == 1 && r.value[0].meta.name == "n"
            && GetLocus(su, x.userKey, None, a, "P/C/n").answer == Err(NotFound("collection P"))
  {
    hide Mapped, Dec, SyncAndKeys, ResolveCollection, Members, SplitOnce, Named;
    var a, cs := Named(su, x, "P/C"), [Collection("k1", "o", "P/C")];
    OnlyMember(su, x, "P/C");
    OneCollection(cs);
    SplitOnceAt("P", "C/n", "/");
    assert "P" + "/" + "C/n" == "P/C/n" && "collection " + "P" == "collection P";
  }

  /** The item of a collection called `personal` is exported, but a get looks in the personal vault. */
  lemma PersonalCollectionIsShadowed(su: Suite, x: Sample)
    requires x.Fits(su)
    ensures var a := Named(su, x, PERSONAL);
            var b := SyncAndKeys(su, a, x.userKey);
            && b.Ok? && NamespaceNamed(Namespaces(b.value), PERSONAL) == Some(Namespace("k1", PERSONAL))
            && var r := NamespaceSecrets(su, x.userKey, a, Namespace("k1", PERSONAL)).answer;
            && r.Ok? && |r.value| == 1 && r.value[0].meta.name == "n"
            && GetLocus(su, x.userKey, None, a, "personal/n").answer == Err(NotFound("vw://personal/n"))
  {
    hide Mapped, Dec, SyncAndKeys, ResolveCollection, Members, SplitOnce, Named, CipherKey, Scan, Namespaces, NamespaceNamed,
         NamespaceSecrets;
    var a, cs := Named(su, x, PERSONAL), [Collection("k1", "o", PERSONAL)];
    OnlyMember(su, x, PERSONAL);
    var b := SyncAndKeys(su, a, x.userKey).value;
    PersonalComesFirst(b);
    IdResolves(cs);
    SplitOnceAt(PERSONAL, "n", "/");
    NothingPersonal(su, b, x.userKey);
    assert PERSONAL + "/" + "n" == "personal/n" && "vw://" + PERSONAL + "/" + "n" == "vw://personal/n";
  }

  lemma NothingPersonal(su: Suite, b: Bundle, userKey: SymmetricKey)
    requires |b.ciphers| == 1 && b.ciphers[0].organizationId.Some?
    ensures Scan(su, b.orgKeys, userKey, "", "n", b.ciphers) == Missing(0)
  {
    hide Mapped, Dec, CipherKey;
    assert Scan(su, b.orgKeys, userKey, "", "n", b.ciphers[1..]) == Missing(0);
  }

  lemma PersonalComesFirst(b: Bundle)
    requires b.collections == [Collection("k1", "o", PERSONAL)]
    ensures NamespaceNamed(Namespaces(b), PERSONAL) == Some(Namespace("k1", PERSONAL))
  {
    assert Namespaces(b)[0] == Namespace("k1", PERSONAL);
  }

  lemma IdResolves(cs: seq<Collection>)
    requires |cs| == 1 && cs[0].id == "k1"
    ensures ResolveCollection("k1", cs) == Some("k1") && ResolveCollection(PERSONAL, cs) == Some("")
  {
    assert |LowerAll("k1")| != |LowerAll("personal")|;
  }

  /** Exporting the one collection gives the one item. */
  lemma OnlyMember(su: Suite, x: Sample, name: string)
    requires x.Fits(su)
    ensures var a := Named(su, x, name);
            && SyncAndKeys(su, a, x.userKey) == Ok(Synced(x, Item(su, x, "k1", None), [Collection("k1", "o", name)]))
            && var r := NamespaceSecrets(su, x.userKey, a, Namespace("k1", name)).answer;
               r.Ok? && |r.value| == 1 && r.value[0].meta.name == "n"
  {
    hide Mapped, Dec, SyncAndKeys, ResolveCollection, CipherKey, Serves, Wrapped, Item;
    var c, cs := Item(su, x, "k1", None), [Collection("k1", "o", name)];
    SyncGives(su, x, c, cs);
    ItemOpens(su, x, "k1", None);
    ItemIndexed(su, x, "k1", None, cs);
    IdResolves(cs);
    ItemBelongs(su, x);
    var b := Synced(x, c, cs);
    assert Members(su, b.orgKeys, x.userKey, "k1", b.ciphers[1..]) == [];
  }

  lemma ItemBelongs(su: Suite, x: Sample)
    ensures Belongs(Item(su, x, "k1", None), "k1")
  {}

  lemma OneCollection(cs: seq<Collection>)
    requires cs == [Collection("k1", "o", "P/C")]
    ensures ResolveCollection("P", cs) == None
  {
    assert |LowerAll("P")| != |LowerAll("personal")|;
    assert |LowerAll("P/C")| != |LowerAll("P")| && |LowerAll("k1")| != |LowerAll("P")|;
    assert FindCollection("P", cs[1..]) == None;
  }
}
