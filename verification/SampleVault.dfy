/** A server with one item in a collection of one organization, for the concrete cases. */
module SampleVault {
  import opened Results
  import opened Text
  import opened Base64
  import opened Crypto
  import opened EncStrings
  import opened Mapping
  import opened SealedItems
  import opened Vault
  import ToySuite

  /** The keys of the account and of organization `o`, the latter also wrapped for the former. */
  datatype Sample = Sample(userKey: SymmetricKey, orgKey: SymmetricKey, privateKey: bytes, wrapped: bytes, iv: bytes) {
    ghost predicate Fits(su: Suite) {
      && su.Valid() && orgKey.Valid() && |iv| == 16
      && su.pkcs8(privateKey) && su.rsa(privateKey, wrapped) == Some(orgKey.Blob())
    }
  }

  /** There is such a sample. */
  lemma ToySample() returns (x: Sample)
    ensures x.Fits(ToySuite.Toy())
  {
    hide ToySuite.Wide, ToySuite.Narrow, ToySuite.Shift;
    ToySuite.ToyIsValid();
    var k := SymmetricKey(seq(32, _ => 1), seq(32, _ => 2));
    x := Sample(k, k, [1], k.Blob(), seq(16, _ => 0));
  }

  /** An item called `n` in one collection, sealed under the key of organization `o`. */
  function Item(su: Suite, x: Sample, collection: string, notes: Option<string>): Cipher {
    Cipher("x", PrintType2(su, x.iv, su.utf8("n"), x.orgKey), Some("o"), Some([collection]), None, None, None, None, None, notes, [])
  }

  /** The collections as the server sends them, with sealed names. */
  function Rows(su: Suite, x: Sample, collections: seq<Collection>): seq<ApiCollection> {
    if collections == [] then []
    else
      var c := collections[0];
      [ApiCollection(c.id, c.orgId, PrintType2(su, x.iv, su.utf8(c.name), x.orgKey))] + Rows(su, x, collections[1..])
  }

  function Wrapped(x: Sample): string { "4." + Encode(Standard, x.wrapped) }

  /** The server's answers; an organization's key may be sent empty. */
  function Serves(su: Suite, x: Sample, orgKey: string, c: Cipher, collections: seq<Collection>): Answers {
    Answers(Ok(SyncResponse(PrintType2(su, x.iv, x.privateKey, x.userKey), [Org("o", orgKey)], [c])),
            Ok(Rows(su, x, collections)), (n: nat, id: string) => FetchIn([c], id))
  }

  /** What a full sync makes of them. */
  function Synced(x: Sample, c: Cipher, collections: seq<Collection>): Bundle {
    Bundle([c], [OrgKey("o", x.orgKey)], collections)
  }

  ghost predicate AllOfO(collections: seq<Collection>) { forall i :: 0 <= i < |collections| ==> collections[i].orgId == "o" }

  lemma {:induction false} RowsOpen(su: Suite, x: Sample, collections: seq<Collection>)
    requires x.Fits(su) && AllOfO(collections)
    ensures NamedCollections(su, Rows(su, x, collections), [OrgKey("o", x.orgKey)]) == collections
  {
    hide Dec, PrintType2;
    if collections != [] {
      RowsOpen(su, x, collections[1..]);
      var c, rows := collections[0], Rows(su, x, collections);
      assert rows[1..] == Rows(su, x, collections[1..]);
      NameOpens(su, x, c.name);
      assert collections == [c] + collections[1..];
    }
  }

  lemma NameOpens(su: Suite, x: Sample, name: string)
    requires x.Fits(su)
    ensures Dec(su, PrintType2(su, x.iv, su.utf8(name), x.orgKey), x.orgKey) == Ok(name)
  {
    hide Dec, PrintType2;
    var enc := PrintType2(su, x.iv, su.utf8(name), x.orgKey);
    assert SealsText(su, x.orgKey, enc, name);
    DecOfPrint(su, x.orgKey, enc, name);
  }

  lemma WrappedUnwraps(su: Suite, x: Sample)
    requires x.Fits(su)
    ensures Parse(Wrapped(x)).Ok? && UnwrapOrgKey(su, Parse(Wrapped(x)).value, x.privateKey) == Ok(x.orgKey)
  {
    hide SplitOnce, ParseUnsigned, Split, Encode, Decode;
    var e := Encode(Standard, x.wrapped);
    SplitOnceAt("4", e, ".");
    assert "4" + "." + e == Wrapped(x);
    DecimalParses(4, 255);
    assert Decimal(4) == "4";
    EncodeAlphabet(Standard, x.wrapped);
    SplitWhole(e, '|');
    DecodeEncode(Standard, x.wrapped);
    From64Blob(x.orgKey);
  }

  lemma PrivateKeyOpens(su: Suite, x: Sample)
    requires x.Fits(su)
    ensures Open(su, PrintType2(su, x.iv, x.privateKey, x.userKey), x.userKey) == Ok(x.privateKey)
  {
    TwoIsSymmetric();
    OpenOfPrint(su, "2", x.iv, x.privateKey, x.userKey);
  }

  lemma SyncGives(su: Suite, x: Sample, c: Cipher, collections: seq<Collection>)
    requires x.Fits(su) && AllOfO(collections)
    ensures SyncAndKeys(su, Serves(su, x, Wrapped(x), c, collections), x.userKey) == Ok(Synced(x, c, collections))
  {
    hide Parse, Open, UnwrapOrgKey, NamedCollections, Rows, PrintType2, Encode;
    PrivateKeyOpens(su, x);
    WrappedUnwraps(su, x);
    RowsOpen(su, x, collections);
    OneOrg(su, x);
  }

  lemma OneOrg(su: Suite, x: Sample)
    requires Parse(Wrapped(x)).Ok? && UnwrapOrgKey(su, Parse(Wrapped(x)).value, x.privateKey) == Ok(x.orgKey)
    ensures OrgKeysOf(su, [Org("o", Wrapped(x))], x.privateKey) == Ok([OrgKey("o", x.orgKey)])
  {
    hide Parse, UnwrapOrgKey;
    var orgs := [Org("o", Wrapped(x))];
    assert Wrapped(x)[0] == '4' && orgs[1..] == [];
    assert OrgKeysOf(su, orgs[1..], x.privateKey) == Ok([]);
    assert [OrgKey("o", x.orgKey)] + [] == [OrgKey("o", x.orgKey)];
  }

  /** An empty key is passed over, and the collections of its organization with it. */
  lemma SyncWithoutKey(su: Suite, x: Sample, c: Cipher, collections: seq<Collection>)
    requires x.Fits(su)
    ensures SyncAndKeys(su, Serves(su, x, "", c, collections), x.userKey) == Ok(Bundle([c], [], []))
  {
    hide Open, Rows, PrintType2;
    PrivateKeyOpens(su, x);
    NoKeysNoCollections(su, Rows(su, x, collections));
    var orgs := [Org("o", "")];
    assert orgs[1..] == [] && OrgKeysOf(su, orgs[1..], x.privateKey) == Ok([]);
    assert OrgKeysOf(su, orgs, x.privateKey) == Ok([]);
  }

  lemma {:induction false} NoKeysNoCollections(su: Suite, rows: seq<ApiCollection>)
    ensures NamedCollections(su, rows, []) == []
  {
    if rows != [] { NoKeysNoCollections(su, rows[1..]); }
  }

  lemma ItemOpens(su: Suite, x: Sample, collection: string, notes: Option<string>)
    requires x.Fits(su)
    ensures var c := Item(su, x, collection, notes);
            && Dec(su, c.name, x.orgKey) == Ok("n")
            && (notes == None ==> Mapped(su, c, x.orgKey).Ok? && Mapped(su, c, x.orgKey).value.meta.id == "x"
                                  && Mapped(su, c, x.orgKey).value.meta.name == "n")
            && (notes == Some("garbage") ==> Mapped(su, c, x.orgKey).Err?)
  {
    hide Dec, Mapped;
    var c := Item(su, x, collection, notes);
    assert SealsText(su, x.orgKey, c.name, "n");
    DecOfPrint(su, x.orgKey, c.name, "n");
    if notes == None { PlainMaps(su, c, x.orgKey); }
    if notes == Some("garbage") { UnreadableNotesFail(su, c, x.orgKey); }
  }

  lemma PlainMaps(su: Suite, c: Cipher, key: SymmetricKey)
    requires c.login.None? && c.card.None? && c.identity.None? && c.sshKey.None? && c.notes.None? && c.fields == []
    requires Dec(su, c.name, key).Ok?
    ensures Mapped(su, c, key).Ok? && Mapped(su, c, key).value.meta.id == c.id
    ensures Mapped(su, c, key).value.meta.name == Dec(su, c.name, key).value
  {
    hide Dec;
    assert Writes(c) == [];
  }

  /** With the org key at hand the item is indexed under its collection. */
  lemma ItemIndexed(su: Suite, x: Sample, collection: string, notes: Option<string>, collections: seq<Collection>)
    requires x.Fits(su)
    ensures var b := Synced(x, Item(su, x, collection, notes), collections);
            && CipherKey(su, b.ciphers[0], b.orgKeys, x.userKey) == Ok(x.orgKey)
            && IndexOf(su, b.ciphers, b.orgKeys, x.userKey) == [CipherEntry("x", Some("o"), "n", [collection])]
  {
    hide Dec, Mapped, KeyEntries;
    ItemOpens(su, x, collection, notes);
    var b := Synced(x, Item(su, x, collection, notes), collections);
    assert FindOrgKey(b.orgKeys, "o") == Some(x.orgKey);
    assert IndexOf(su, b.ciphers[1..], b.orgKeys, x.userKey) == [];
  }
}
