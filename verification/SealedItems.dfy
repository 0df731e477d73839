/** Sealing an item field by field and mapping it back. */
module SealedItems {
  import opened Results
  import opened Text
  import opened Base64
  import opened Crypto
  import opened EncStrings
  import opened Sorting
  import opened Mapping

  // ---------- sealing, as a relation (every field has its own IV) ----------

  ghost predicate IsPrint(su: Suite, k: SymmetricKey, enc: string, p: bytes) {
    exists iv: bytes :: |iv| == 16 && enc == PrintType2(su, iv, p, k)
  }

  ghost predicate SealsText(su: Suite, k: SymmetricKey, enc: string, p: string) { IsPrint(su, k, enc, su.utf8(p)) }

  /** An absent field may also be sent as an empty string. */
  ghost predicate SealsOption(su: Suite, k: SymmetricKey, enc: Option<string>, p: Option<string>) {
    if p.None? then enc.None? || enc.value == "" else enc.Some? && SealsText(su, k, enc.value, p.value)
  }

  ghost predicate SealsUris(su: Suite, k: SymmetricKey, enc: seq<Option<string>>, plain: seq<Option<string>>) {
    |enc| == |plain| && forall i :: 0 <= i < |enc| ==> SealsOption(su, k, enc[i], plain[i])
  }

  ghost predicate SealsCustom(su: Suite, k: SymmetricKey, enc: seq<CustomField>, plain: seq<CustomField>) {
    |enc| == |plain|
    && forall i :: 0 <= i < |enc| ==>
         SealsOption(su, k, enc[i].name, plain[i].name) && SealsOption(su, k, enc[i].value, plain[i].value)
  }

  ghost predicate SealsLogin(su: Suite, k: SymmetricKey, enc: Login, plain: Login) {
    && SealsOption(su, k, enc.username, plain.username)
    && SealsOption(su, k, enc.password, plain.password)
    && SealsOption(su, k, enc.totp, plain.totp)
    && SealsUris(su, k, enc.uris, plain.uris)
  }

  ghost predicate SealsCard(su: Suite, k: SymmetricKey, enc: Card, plain: Card) {
    && SealsOption(su, k, enc.cardholderName, plain.cardholderName)
    && SealsOption(su, k, enc.brand, plain.brand)
    && SealsOption(su, k, enc.number, plain.number)
    && SealsOption(su, k, enc.expMonth, plain.expMonth)
    && SealsOption(su, k, enc.expYear, plain.expYear)
    && SealsOption(su, k, enc.code, plain.code)
  }

  ghost predicate SealsIdentity(su: Suite, k: SymmetricKey, enc: Identity, plain: Identity) {
    && SealsOption(su, k, enc.title, plain.title)
    && SealsOption(su, k, enc.firstName, plain.firstName)
    && SealsOption(su, k, enc.middleName, plain.middleName)
    && SealsOption(su, k, enc.lastName, plain.lastName)
    && SealsOption(su, k, enc.address1, plain.address1)
    && SealsOption(su, k, enc.address2, plain.address2)
    && SealsOption(su, k, enc.address3, plain.address3)
    && SealsOption(su, k, enc.city, plain.city)
    && SealsOption(su, k, enc.state, plain.state)
    && SealsOption(su, k, enc.postalCode, plain.postalCode)
    && SealsOption(su, k, enc.country, plain.country)
    && SealsOption(su, k, enc.company, plain.company)
    && SealsOption(su, k, enc.email, plain.email)
    && SealsOption(su, k, enc.phone, plain.phone)
    && SealsOption(su, k, enc.ssn, plain.ssn)
    && SealsOption(su, k, enc.username, plain.username)
    && SealsOption(su, k, enc.passportNumber, plain.passportNumber)
    && SealsOption(su, k, enc.licenseNumber, plain.licenseNumber)
  }

  ghost predicate SealsSsh(su: Suite, k: SymmetricKey, enc: SshKey, plain: SshKey) {
    && SealsOption(su, k, enc.privateKey, plain.privateKey)
    && SealsOption(su, k, enc.publicKey, plain.publicKey)
    && SealsOption(su, k, enc.keyFingerprint, plain.keyFingerprint)
  }

  /** `enc` is `item` with every text field sealed under `k`. */
  ghost predicate SealsItem(su: Suite, k: SymmetricKey, enc: Cipher, item: Cipher) {
    && enc.id == item.id && enc.organizationId == item.organizationId
    && SealsText(su, k, enc.name, item.name)
    && enc.login.Some? == item.login.Some?
    && (enc.login.Some? ==> SealsLogin(su, k, enc.login.value, item.login.value))
    && enc.card.Some? == item.card.Some?
    && (enc.card.Some? ==> SealsCard(su, k, enc.card.value, item.card.value))
    && enc.identity.Some? == item.identity.Some?
    && (enc.identity.Some? ==> SealsIdentity(su, k, enc.identity.value, item.identity.value))
    && enc.sshKey.Some? == item.sshKey.Some?
    && (enc.sshKey.Some? ==> SealsSsh(su, k, enc.sshKey.value, item.sshKey.value))
    && SealsOption(su, k, enc.notes, item.notes)
    && SealsCustom(su, k, enc.fields, item.fields)
  }

  // ---------- the specified bag ----------

  type Pairs = seq<(string, string)>

  /** A named field, when it is there. */
  function Field(key: string, value: Option<string>): Pairs { if value.Some? then [(key, value.value)] else [] }

  function PlainUris(uris: seq<Option<string>>): seq<string> {
    if uris == [] then []
    else (if uris[0].Some? then [uris[0].value] else []) + PlainUris(uris[1..])
  }

  /** The first address under `uri`; all of them, one a line, under `uris` when there are several. */
  function UriPairs(uris: seq<string>): Pairs {
    (if |uris| > 0 then [("uri", uris[0])] else []) + (if |uris| > 1 then [("uris", Join(uris, '\n'))] else [])
  }

  function CustomPairs(fields: seq<CustomField>): Pairs {
    if fields == [] then []
    else
      var f := fields[0];
      (if f.name.Some? && f.value.Some? && f.name.value != "" then [(f.name.value, f.value.value)] else [])
      + CustomPairs(fields[1..])
  }

  function LoginPairs(l: Login): Pairs {
    Field("username", l.username) + Field("password", l.password) + Field("totp", l.totp) + UriPairs(PlainUris(l.uris))
  }

  function CardPairs(c: Card): Pairs {
    Field("cardholder_name", c.cardholderName) + Field("brand", c.brand) + Field("number", c.number)
    + Field("exp_month", c.expMonth) + Field("exp_year", c.expYear) + Field("code", c.code)
  }

  function IdentityPairs(i: Identity): Pairs {
    Field("title", i.title) + Field("first_name", i.firstName) + Field("middle_name", i.middleName)
    + Field("last_name", i.lastName) + Field("address1", i.address1) + Field("address2", i.address2)
    + Field("address3", i.address3) + Field("city", i.city) + Field("state", i.state)
    + Field("postal_code", i.postalCode) + Field("country", i.country) + Field("company", i.company)
    + Field("email", i.email) + Field("phone", i.phone) + Field("ssn", i.ssn) + Field("username", i.username)
    + Field("passport_number", i.passportNumber) + Field("license_number", i.licenseNumber)
  }

  function SshPairs(s: SshKey): Pairs {
    Field("private_key", s.privateKey) + Field("public_key", s.publicKey) + Field("key_fingerprint", s.keyFingerprint)
  }

  /** Every field that is there, under its name, in the order of the sections. */
  function ItemPairs(item: Cipher): Pairs {
    (if item.login.Some? then LoginPairs(item.login.value) else [])
    + (if item.card.Some? then CardPairs(item.card.value) else [])
    + (if item.identity.Some? then IdentityPairs(item.identity.value) else [])
    + (if item.sshKey.Some? then SshPairs(item.sshKey.value) else [])
    + Field("notes", item.notes) + CustomPairs(item.fields)
  }

  predicate Wrote(pairs: Pairs, key: string) { exists i :: 0 <= i < |pairs| && pairs[i].0 == key }

  predicate LastFor(pairs: Pairs, i: nat) {
    i < |pairs| && forall j :: i < j < |pairs| ==> pairs[j].0 != pairs[i].0
  }

  /** The keys are those written; each holds the value written last. */
  ghost predicate LastWriterWins(bag: Bag, pairs: Pairs) {
    && (forall key :: key in bag <==> Wrote(pairs, key))
    && (forall i: nat :: LastFor(pairs, i) ==> pairs[i].0 in bag && bag[pairs[i].0] == pairs[i].1)
  }

  // ---------- writes as pairs ----------

  function EvalAll(su: Suite, ws: seq<Write>, k: SymmetricKey): Result<Pairs, CryptoError> {
    if ws == [] then Ok([])
    else
      match (Eval(su, ws[0], k), EvalAll(su, ws[1..], k))
      case (Err(e), _) => Err(e)
      case (Ok(_), Err(e)) => Err(e)
      case (Ok(None), Ok(t)) => Ok(t)
      case (Ok(Some(kv)), Ok(t)) => Ok([kv] + t)
  }

  function PutAll(pairs: Pairs, bag: Bag): Bag {
    if pairs == [] then bag else PutAll(pairs[1..], bag[pairs[0].0 := pairs[0].1])
  }

  lemma {:induction false} RunIsPutAll(su: Suite, ws: seq<Write>, k: SymmetricKey, bag: Bag)
    ensures Run(su, ws, k, bag) ==
            match EvalAll(su, ws, k) case Err(e) => Err(e) case Ok(pairs) => Ok(PutAll(pairs, bag))
  {
    hide Eval;
    if ws != [] {
      match Eval(su, ws[0], k)
      case Err(_) =>
      case Ok(None) => RunIsPutAll(su, ws[1..], k, bag);
      case Ok(Some(kv)) =>
        RunIsPutAll(su, ws[1..], k, bag[kv.0 := kv.1]);
        match EvalAll(su, ws[1..], k)
        case Err(_) =>
        case Ok(t) => assert ([kv] + t)[1..] == t;
    }
  }

  lemma {:induction false} EvalAllAppend(su: Suite, a: seq<Write>, b: seq<Write>, k: SymmetricKey)
    ensures EvalAll(su, a + b, k) ==
            match (EvalAll(su, a, k), EvalAll(su, b, k))
            case (Err(e), _) => Err(e)
            case (Ok(_), Err(e)) => Err(e)
            case (Ok(x), Ok(y)) => Ok(x + y)
  {
    hide Eval;
    if a == [] {
      assert a + b == b;
      match EvalAll(su, b, k)
      case Err(_) =>
      case Ok(y) => assert [] + y == y;
    } else {
      assert (a + b)[1..] == a[1..] + b;
      EvalAllAppend(su, a[1..], b, k);
      match (Eval(su, a[0], k), EvalAll(su, a[1..], k), EvalAll(su, b, k))
      case (Ok(Some(kv)), Ok(x), Ok(y)) => assert [kv] + (x + y) == ([kv] + x) + y;
      case _ =>
    }
  }

  /** The bag after a run of insertions is the specified one. */
  lemma {:induction false} PutAllLastWriter(pairs: Pairs)
    ensures LastWriterWins(PutAll(pairs, map[]), pairs)
    decreases |pairs|
  {
    hide LastWriterWins, PutAll;
    if pairs == [] {
      NothingWritten();
    } else {
      var n := |pairs| - 1;
      assert pairs == pairs[..n] + [pairs[n]];
      PutAllLastWriter(pairs[..n]);
      PutAllSnoc(pairs[..n], pairs[n], map[]);
      OneMoreWritten(pairs[..n], pairs[n], PutAll(pairs[..n], map[]));
    }
  }

  lemma NothingWritten()
    ensures LastWriterWins(PutAll([], map[]), [])
  {}

  lemma WroteSnoc(front: Pairs, last: (string, string), key: string)
    ensures Wrote(front + [last], key) <==> Wrote(front, key) || key == last.0
  {
    var pairs := front + [last];
    if Wrote(front, key) {
      var i :| 0 <= i < |front| && front[i].0 == key;
      assert pairs[i].0 == key;
    }
    if key == last.0 { assert pairs[|front|].0 == key; }
    if Wrote(pairs, key) && key != last.0 {
      var i :| 0 <= i < |pairs| && pairs[i].0 == key;
      assert front[i].0 == key;
    }
  }

  lemma LastForSnoc(front: Pairs, last: (string, string), i: nat)
    requires LastFor(front + [last], i) && i < |front|
    ensures LastFor(front, i) && front[i].0 != last.0
  {
    var pairs := front + [last];
    assert pairs[|front|].0 != pairs[i].0;
    forall j | i < j < |front| ensures front[j].0 != front[i].0 {
      assert pairs[j].0 != pairs[i].0;
    }
  }

  lemma OneMoreWritten(front: Pairs, last: (string, string), bag: Bag)
    requires LastWriterWins(bag, front)
    ensures LastWriterWins(bag[last.0 := last.1], front + [last])
  {
    hide Wrote, LastFor;
    var pairs := front + [last];
    var bag' := bag[last.0 := last.1];
    forall key ensures key in bag' <==> Wrote(pairs, key) { WroteSnoc(front, last, key); }
    LastForBounds(pairs);
    forall i: nat | i < |pairs| && LastFor(pairs, i) ensures pairs[i].0 in bag' && bag'[pairs[i].0] == pairs[i].1 {
      if i < |front| {
        LastForSnoc(front, last, i);
        assert pairs[i] == front[i];
      }
    }
  }

  lemma LastForBounds(pairs: Pairs)
    ensures forall i: nat :: LastFor(pairs, i) ==> i < |pairs|
  {}

  lemma {:induction false} PutAllSnoc(front: Pairs, last: (string, string), bag: Bag)
    ensures PutAll(front + [last], bag) == PutAll(front, bag)[last.0 := last.1]
  {
    if front == [] {
      assert front + [last] == [last];
    } else {
      assert (front + [last])[1..] == front[1..] + [last];
      PutAllSnoc(front[1..], last, bag[front[0].0 := front[0].1]);
    }
  }

  // ---------- each section opens to its pairs ----------

  lemma DecOfPrint(su: Suite, k: SymmetricKey, enc: string, p: string)
    requires su.Valid() && SealsText(su, k, enc, p)
    ensures enc != "" && Dec(su, enc, k) == Ok(p)
  {
    hide Open;
    var iv :| |iv| == 16 && enc == PrintType2(su, iv, su.utf8(p), k);
    TwoIsSymmetric();
    OpenOfPrint(su, "2", iv, su.utf8(p), k);
    assert enc[0] == '2';
  }

  ghost predicate SealsSlots(su: Suite, k: SymmetricKey, enc: seq<Slot>, plain: seq<Slot>) {
    |enc| == |plain|
    && forall i :: 0 <= i < |enc| ==> enc[i].0 == plain[i].0 && SealsOption(su, k, enc[i].1, plain[i].1)
  }

  function SlotPairs(slots: seq<Slot>): Pairs {
    if slots == [] then []
    else Field(slots[0].0, slots[0].1) + SlotPairs(slots[1..])
  }

  lemma {:induction false} SlotsOpen(su: Suite, k: SymmetricKey, enc: seq<Slot>, plain: seq<Slot>)
    requires su.Valid() && SealsSlots(su, k, enc, plain)
    ensures EvalAll(su, SlotWrites(enc), k) == Ok(SlotPairs(plain))
  {
    hide Dec, SealsText;
    if enc != [] {
      SlotsOpen(su, k, enc[1..], plain[1..]);
      assert SealsOption(su, k, enc[0].1, plain[0].1);
      if plain[0].1.Some? {
        DecOfPrint(su, k, enc[0].1.value, plain[0].1.value);
        assert SlotWrites(enc)[1..] == SlotWrites(enc[1..]);
      } else {
        assert SlotWrites(enc) == SlotWrites(enc[1..]);
        assert SlotPairs(plain) == SlotPairs(plain[1..]);
      }
    }
  }

  lemma {:induction false} UrisOpen(su: Suite, k: SymmetricKey, enc: seq<Option<string>>, plain: seq<Option<string>>)
    requires su.Valid() && SealsUris(su, k, enc, plain)
    ensures |PresentUris(enc)| == |PlainUris(plain)|
    ensures DecAll(su, PresentUris(enc), k) == Ok(PlainUris(plain))
  {
    hide Dec, SealsText;
    if enc != [] {
      UrisOpen(su, k, enc[1..], plain[1..]);
      assert SealsOption(su, k, enc[0], plain[0]);
      if plain[0].Some? {
        DecOfPrint(su, k, enc[0].value, plain[0].value);
        assert PresentUris(enc)[1..] == PresentUris(enc[1..]);
      } else {
        assert PresentUris(enc) == PresentUris(enc[1..]);
        assert PlainUris(plain) == PlainUris(plain[1..]);
      }
    }
  }

  lemma LoginOpens(su: Suite, k: SymmetricKey, enc: Login, plain: Login)
    requires su.Valid() && SealsLogin(su, k, enc, plain)
    ensures EvalAll(su, LoginWrites(Some(enc)), k) == Ok(LoginPairs(plain))
  {
    LoginSeals(su, k, enc, plain);
    hide SlotWrites, SlotPairs, PresentUris, PlainUris, LoginSlots, SealsSlots, SealsLogin, SealsUris, Dec, UriPairs, Field;
    SlotsOpen(su, k, LoginSlots(enc), LoginSlots(plain));
    LoginFields(plain);
    UrisOpen(su, k, enc.uris, plain.uris);
    var e, p := PresentUris(enc.uris), PlainUris(plain.uris);
    EvalAllAppend(su, SlotWrites(LoginSlots(enc)), UriWrites(e), k);
    UriWritesOpen(su, k, e, p);
  }

  lemma LoginSeals(su: Suite, k: SymmetricKey, enc: Login, plain: Login)
    requires SealsLogin(su, k, enc, plain)
    ensures SealsSlots(su, k, LoginSlots(enc), LoginSlots(plain)) && SealsUris(su, k, enc.uris, plain.uris)
  {
    hide SealsOption, SealsUris;
  }

  lemma CardSeals(su: Suite, k: SymmetricKey, enc: Card, plain: Card)
    requires SealsCard(su, k, enc, plain)
    ensures SealsSlots(su, k, CardSlots(enc), CardSlots(plain))
  {
    hide SealsOption;
  }

  lemma IdentitySeals(su: Suite, k: SymmetricKey, enc: Identity, plain: Identity)
    requires SealsIdentity(su, k, enc, plain)
    ensures SealsSlots(su, k, IdentitySlots(enc), IdentitySlots(plain))
  {
    hide SealsOption;
  }

  lemma SshSeals(su: Suite, k: SymmetricKey, enc: SshKey, plain: SshKey)
    requires SealsSsh(su, k, enc, plain)
    ensures SealsSlots(su, k, SshSlots(enc), SshSlots(plain))
  {
    hide SealsOption;
  }

  lemma {:induction false} SlotPairsAppend(a: seq<Slot>, b: seq<Slot>)
    ensures SlotPairs(a + b) == SlotPairs(a) + SlotPairs(b)
  {
    hide Field;
    if a == [] {
      assert a + b == b;
    } else {
      assert (a + b)[1..] == a[1..] + b;
      SlotPairsAppend(a[1..], b);
    }
  }

  lemma OneField(slot: Slot)
    ensures SlotPairs([slot]) == Field(slot.0, slot.1)
  {
    hide Field;
    assert [slot][1..] == [];
  }

  lemma ThreeFields(s: seq<Slot>)
    requires |s| == 3
    ensures SlotPairs(s) == Field(s[0].0, s[0].1) + Field(s[1].0, s[1].1) + Field(s[2].0, s[2].1)
  {
    hide Field, SlotPairs;
    OneField(s[0]);
    OneField(s[1]);
    OneField(s[2]);
    assert s == [s[0]] + [s[1]] + [s[2]];
    SlotPairsAppend([s[0]] + [s[1]], [s[2]]);
    SlotPairsAppend([s[0]], [s[1]]);
  }

  lemma SixFields(s: seq<Slot>)
    requires |s| == 6
    ensures SlotPairs(s) == Field(s[0].0, s[0].1) + Field(s[1].0, s[1].1) + Field(s[2].0, s[2].1)
                            + Field(s[3].0, s[3].1) + Field(s[4].0, s[4].1) + Field(s[5].0, s[5].1)
  {
    hide Field, SlotPairs;
    ThreeFields(s[..3]);
    ThreeFields(s[3..]);
    assert s == s[..3] + s[3..];
    SlotPairsAppend(s[..3], s[3..]);
  }

  lemma LoginFields(l: Login)
    ensures SlotPairs(LoginSlots(l)) == Field("username", l.username) + Field("password", l.password) + Field("totp", l.totp)
  {
    hide Field, SlotPairs;
    ThreeFields(LoginSlots(l));
  }

  lemma CardFields(c: Card)
    ensures SlotPairs(CardSlots(c)) == CardPairs(c)
  {
    hide Field, SlotPairs;
    SixFields(CardSlots(c));
  }

  lemma IdentityFields(i: Identity)
    ensures SlotPairs(IdentitySlots(i)) == IdentityPairs(i)
  {
    var s := IdentitySlots(i);
    hide Field, SlotPairs;
    SixFields(s[..6]);
    SixFields(s[6..12]);
    SixFields(s[12..]);
    assert s == s[..6] + s[6..12] + s[12..];
    SlotPairsAppend(s[..6] + s[6..12], s[12..]);
    SlotPairsAppend(s[..6], s[6..12]);
  }

  lemma SshFields(k: SshKey)
    ensures SlotPairs(SshSlots(k)) == SshPairs(k)
  {
    hide Field, SlotPairs;
    ThreeFields(SshSlots(k));
  }

  lemma EvalOne(su: Suite, w: Write, k: SymmetricKey, kv: (string, string))
    requires Eval(su, w, k) == Ok(Some(kv))
    ensures EvalAll(su, [w], k) == Ok([kv])
  {
    hide Eval;
    assert [w][1..] == [] && [kv] + [] == [kv];
  }

  lemma UriWritesOpen(su: Suite, k: SymmetricKey, e: seq<string>, p: seq<string>)
    requires DecAll(su, e, k) == Ok(p) && |e| == |p|
    ensures EvalAll(su, UriWrites(e), k) == Ok(UriPairs(p))
  {
    hide Dec, Join;
    var first := if |e| > 0 then [Fixed("uri", e[0])] else [];
    var more := if |e| > 1 then [Uris(e)] else [];
    EvalAllAppend(su, first, more, k);
    assert EvalAll(su, [], k) == Ok([]);
    if |e| > 0 {
      EvalOne(su, Fixed("uri", e[0]), k, ("uri", p[0]));
    }
    if |e| > 1 {
      EvalOne(su, Uris(e), k, ("uris", Join(p, '\n')));
    }
  }

  lemma {:induction false} CustomOpen(su: Suite, k: SymmetricKey, enc: seq<CustomField>, plain: seq<CustomField>)
    requires su.Valid() && SealsCustom(su, k, enc, plain)
    ensures EvalAll(su, CustomWrites(enc), k) == Ok(CustomPairs(plain))
  {
    hide Dec, SealsText;
    if enc != [] {
      CustomOpen(su, k, enc[1..], plain[1..]);
      var e, p := enc[0], plain[0];
      assert SealsOption(su, k, e.name, p.name) && SealsOption(su, k, e.value, p.value);
      if p.name.Some? && p.value.Some? {
        DecOfPrint(su, k, e.name.value, p.name.value);
        DecOfPrint(su, k, e.value.value, p.value.value);
        assert CustomWrites(enc)[1..] == CustomWrites(enc[1..]);
      } else {
        assert CustomWrites(enc) == CustomWrites(enc[1..]);
      }
      if !(p.name.Some? && p.value.Some? && p.name.value != "") {
        assert CustomPairs(plain) == CustomPairs(plain[1..]);
      }
    }
  }

  lemma ItemOpens(su: Suite, k: SymmetricKey, enc: Cipher, item: Cipher)
    requires su.Valid() && SealsItem(su, k, enc, item)
    ensures EvalAll(su, Writes(enc), k) == Ok(ItemPairs(item))
  {
    hide SlotWrites, SlotPairs, LoginSlots, CardSlots, IdentitySlots, SshSlots, CustomWrites, CustomPairs, LoginPairs, CardPairs,
         IdentityPairs, SshPairs, Field, SealsSlots, SealsUris, SealsCustom, SealsLogin, SealsCard, SealsIdentity, SealsSsh,
         SealsOption, Eval, UriWrites, UriPairs, PresentUris, PlainUris;
    assert EvalAll(su, [], k) == Ok([]);
    var a, b, c, d, e, f := LoginWrites(enc.login), CardWrites(enc.card), IdentityWrites(enc.identity),
                            SshWrites(enc.sshKey), NotesWrites(enc.notes), CustomWrites(enc.fields);
    if enc.login.Some? { LoginOpens(su, k, enc.login.value, item.login.value); }
    if enc.card.Some? { CardOpens(su, k, enc.card.value, item.card.value); }
    if enc.identity.Some? { IdentityOpens(su, k, enc.identity.value, item.identity.value); }
    if enc.sshKey.Some? { SshOpens(su, k, enc.sshKey.value, item.sshKey.value); }
    NotesOpen(su, k, enc.notes, item.notes);
    CustomOpen(su, k, enc.fields, item.fields);
    EvalAllAppend(su, a, b, k);
    EvalAllAppend(su, a + b, c, k);
    EvalAllAppend(su, a + b + c, d, k);
    EvalAllAppend(su, a + b + c + d, e, k);
    EvalAllAppend(su, a + b + c + d + e, f, k);
  }

  lemma CardOpens(su: Suite, k: SymmetricKey, enc: Card, plain: Card)
    requires su.Valid() && SealsCard(su, k, enc, plain)
    ensures EvalAll(su, CardWrites(Some(enc)), k) == Ok(CardPairs(plain))
  {
    hide SlotWrites, SlotPairs, CardSlots, CardPairs, SealsSlots, SealsCard, EvalAll;
    CardSeals(su, k, enc, plain);
    SlotsOpen(su, k, CardSlots(enc), CardSlots(plain));
    CardFields(plain);
  }

  lemma IdentityOpens(su: Suite, k: SymmetricKey, enc: Identity, plain: Identity)
    requires su.Valid() && SealsIdentity(su, k, enc, plain)
    ensures EvalAll(su, IdentityWrites(Some(enc)), k) == Ok(IdentityPairs(plain))
  {
    hide SlotWrites, SlotPairs, IdentitySlots, IdentityPairs, SealsSlots, SealsIdentity, EvalAll;
    IdentitySeals(su, k, enc, plain);
    SlotsOpen(su, k, IdentitySlots(enc), IdentitySlots(plain));
    IdentityFields(plain);
  }

  lemma SshOpens(su: Suite, k: SymmetricKey, enc: SshKey, plain: SshKey)
    requires su.Valid() && SealsSsh(su, k, enc, plain)
    ensures EvalAll(su, SshWrites(Some(enc)), k) == Ok(SshPairs(plain))
  {
    hide SlotWrites, SlotPairs, SshSlots, SshPairs, SealsSlots, SealsSsh, EvalAll;
    SshSeals(su, k, enc, plain);
    SlotsOpen(su, k, SshSlots(enc), SshSlots(plain));
    SshFields(plain);
  }

  lemma NotesOpen(su: Suite, k: SymmetricKey, enc: Option<string>, plain: Option<string>)
    requires su.Valid() && SealsOption(su, k, enc, plain)
    ensures EvalAll(su, NotesWrites(enc), k) == Ok(Field("notes", plain))
  {
    hide SlotWrites, SlotPairs, EvalAll, SealsOption;
    assert SealsSlots(su, k, [("notes", enc)], [("notes", plain)]);
    SlotsOpen(su, k, [("notes", enc)], [("notes", plain)]);
    OneField(("notes", plain));
  }

  // ---------- the round trip ----------

  /** The cipher carries no key of its own, or carries `own` sealed under the container key. */
  ghost predicate KeyedBy(su: Suite, field: Option<string>, container: SymmetricKey, own: SymmetricKey) {
    if field.None? || field.value == "" then own == container
    else own.Valid() && IsPrint(su, container, field.value, own.Blob())
  }

  lemma EffectiveKeyIsOwn(su: Suite, field: Option<string>, container: SymmetricKey, own: SymmetricKey)
    requires su.Valid() && KeyedBy(su, field, container, own)
    ensures EffectiveKey(su, field, container) == Ok(own)
  {
    hide Open;
    if field.Some? && field.value != "" {
      var iv :| |iv| == 16 && field.value == PrintType2(su, iv, own.Blob(), container);
      TwoIsSymmetric();
      OpenOfPrint(su, "2", iv, own.Blob(), container);
      From64Blob(own);
    }
  }

  /** A text reads as `p` exactly when it is empty and so is `p`, or it opens to bytes that read as `p`. */
  lemma DecIff(su: Suite, enc: string, k: SymmetricKey, p: string)
    ensures Dec(su, enc, k) == Ok(p) <==>
              if enc == "" then p == "" else exists pt: bytes :: Open(su, enc, k) == Ok(pt) && su.lossy(pt) == p
  {
    hide Open;
  }

  /** The key of a cipher is the container key when it carries none, and otherwise exactly the one
      whose two halves its own field opens to; a field that does not open never falls back. */
  lemma EffectiveKeyIff(su: Suite, field: Option<string>, container: SymmetricKey, k: SymmetricKey)
    ensures EffectiveKey(su, field, container) == Ok(k) <==>
              if field.None? || field.value == "" then k == container
              else k.Valid() && Open(su, field.value, container) == Ok(k.enc + k.mac)
  {
    hide Open;
    if k.Valid() { From64Blob(k); }
    if field.Some? && field.value != "" && Open(su, field.value, container).Ok? {
      var blob := Open(su, field.value, container).value;
      if From64(blob) == Ok(k) { assert k.enc + k.mac == blob; }
    }
  }

  /** Sealing an item and mapping it back gives exactly the specified bag, its name, and the
      sorted list of its keys, directly or through a per-cipher key. */
  lemma MapOfSealedItem(su: Suite, container: SymmetricKey, own: SymmetricKey, enc: Cipher, item: Cipher)
    requires su.Valid() && KeyedBy(su, enc.key, container, own) && SealsItem(su, own, enc, item)
    ensures EffectiveKey(su, enc.key, container) == Ok(own)
    ensures var r := Mapped(su, enc, own);
            && r.Ok?
            && LastWriterWins(r.value.fields, ItemPairs(item))
            && r.value.meta.id == item.id && r.value.meta.name == item.name
            && r.value.meta.namespaceId == (if item.organizationId.Some? then item.organizationId.value else "")
            && Ascending(r.value.meta.fields)
            && (forall key :: key in r.value.meta.fields <==> Wrote(ItemPairs(item), key))
  {
    hide Writes, Run, ItemPairs, EvalAll, PutAll, Dec, Wrote;
    EffectiveKeyIsOwn(su, enc.key, container, own);
    DecOfPrint(su, own, enc.name, item.name);
    ItemOpens(su, own, enc, item);
    RunIsPutAll(su, Writes(enc), own, map[]);
    PutAllLastWriter(ItemPairs(item));
  }

  // ---------- the fields whose failure fails the whole item ----------

  /** A string that is sent and does not open. */
  predicate Unreadable(su: Suite, enc: string, k: SymmetricKey) { enc != "" && Open(su, enc, k).Err? }

  predicate OptionUnreadable(su: Suite, enc: Option<string>, k: SymmetricKey) {
    enc.Some? && Unreadable(su, enc.value, k)
  }

  predicate SlotUnreadable(su: Suite, slots: seq<Slot>, k: SymmetricKey) {
    exists i :: 0 <= i < |slots| && OptionUnreadable(su, slots[i].1, k)
  }

  predicate UriUnreadable(su: Suite, uris: seq<Option<string>>, k: SymmetricKey) {
    exists i :: 0 <= i < |uris| && OptionUnreadable(su, uris[i], k)
  }

  /** A custom field with both parts counts; one whose name opens to nothing is not read further. */
  predicate CustomUnreadable(su: Suite, f: CustomField, k: SymmetricKey) {
    && f.name.Some? && f.value.Some? && f.name.value != "" && f.value.value != ""
    && match Open(su, f.name.value, k)
       case Err(_) => true
       case Ok(name) => su.lossy(name) != "" && Open(su, f.value.value, k).Err?
  }

  predicate SomeCustomUnreadable(su: Suite, fields: seq<CustomField>, k: SymmetricKey) {
    exists i :: 0 <= i < |fields| && CustomUnreadable(su, fields[i], k)
  }

  /** Some text of the cipher that mapping reads does not open. */
  predicate SomeFieldUnreadable(su: Suite, c: Cipher, k: SymmetricKey) {
    || (c.login.Some? && (SlotUnreadable(su, LoginSlots(c.login.value), k) || UriUnreadable(su, c.login.value.uris, k)))
    || (c.card.Some? && SlotUnreadable(su, CardSlots(c.card.value), k))
    || (c.identity.Some? && SlotUnreadable(su, IdentitySlots(c.identity.value), k))
    || (c.sshKey.Some? && SlotUnreadable(su, SshSlots(c.sshKey.value), k))
    || OptionUnreadable(su, c.notes, k)
    || SomeCustomUnreadable(su, c.fields, k)
  }

  lemma {:induction false} SlotsFailIff(su: Suite, slots: seq<Slot>, k: SymmetricKey)
    ensures EvalAll(su, SlotWrites(slots), k).Err? <==> SlotUnreadable(su, slots, k)
  {
    hide Open;
    if slots != [] {
      SlotsFailIff(su, slots[1..], k);
      SlotUnreadableHead(su, slots, k);
      var head := if slots[0].1.Some? && slots[0].1.value != "" then [Fixed(slots[0].0, slots[0].1.value)] else [];
      EvalAllAppend(su, head, SlotWrites(slots[1..]), k);
      if head != [] { assert head[1..] == []; }
    }
  }

  lemma SlotUnreadableHead(su: Suite, slots: seq<Slot>, k: SymmetricKey)
    requires slots != []
    ensures SlotUnreadable(su, slots, k) <==> OptionUnreadable(su, slots[0].1, k) || SlotUnreadable(su, slots[1..], k)
  {
    hide OptionUnreadable;
    if i :| 0 <= i < |slots[1..]| && OptionUnreadable(su, slots[1..][i].1, k) {
      assert OptionUnreadable(su, slots[i + 1].1, k);
    }
    if i :| 0 <= i < |slots| && OptionUnreadable(su, slots[i].1, k) {
      if i > 0 { assert OptionUnreadable(su, slots[1..][i - 1].1, k); }
    }
  }

  lemma {:induction false} UrisFailIff(su: Suite, uris: seq<Option<string>>, k: SymmetricKey)
    ensures DecAll(su, PresentUris(uris), k).Err? <==> UriUnreadable(su, uris, k)
  {
    hide Open;
    if uris != [] {
      UrisFailIff(su, uris[1..], k);
      UriUnreadableHead(su, uris, k);
      if uris[0].Some? && uris[0].value != "" {
        assert PresentUris(uris)[1..] == PresentUris(uris[1..]);
      } else {
        assert PresentUris(uris) == PresentUris(uris[1..]);
      }
    }
  }

  lemma UriUnreadableHead(su: Suite, uris: seq<Option<string>>, k: SymmetricKey)
    requires uris != []
    ensures UriUnreadable(su, uris, k) <==> OptionUnreadable(su, uris[0], k) || UriUnreadable(su, uris[1..], k)
  {
    hide OptionUnreadable;
    if i :| 0 <= i < |uris[1..]| && OptionUnreadable(su, uris[1..][i], k) {
      assert OptionUnreadable(su, uris[i + 1], k);
    }
    if i :| 0 <= i < |uris| && OptionUnreadable(su, uris[i], k) {
      if i > 0 { assert OptionUnreadable(su, uris[1..][i - 1], k); }
    }
  }

  /** The list write adds no failure of its own: with one address it is not made, with more it
      reads the first again. */
  lemma UriWritesFailIff(su: Suite, encs: seq<string>, k: SymmetricKey)
    ensures EvalAll(su, UriWrites(encs), k).Err? <==> DecAll(su, encs, k).Err?
  {
    hide Dec, Join;
    var first := if |encs| > 0 then [Fixed("uri", encs[0])] else [];
    var more := if |encs| > 1 then [Uris(encs)] else [];
    EvalAllAppend(su, first, more, k);
    assert EvalAll(su, [], k) == Ok([]);
    assert |encs| > 0 ==> first[1..] == [];
    assert |encs| > 1 ==> more[1..] == [];
    assert |encs| == 1 ==> DecAll(su, encs[1..], k) == Ok([]);
  }

  lemma {:induction false} CustomFailsIff(su: Suite, fields: seq<CustomField>, k: SymmetricKey)
    ensures EvalAll(su, CustomWrites(fields), k).Err? <==> SomeCustomUnreadable(su, fields, k)
  {
    hide Open;
    if fields != [] {
      CustomFailsIff(su, fields[1..], k);
      CustomUnreadableHead(su, fields, k);
      var f := fields[0];
      var head := if f.name.Some? && f.value.Some? && f.name.value != "" && f.value.value != ""
                  then [Custom(f.name.value, f.value.value)] else [];
      EvalAllAppend(su, head, CustomWrites(fields[1..]), k);
      if head != [] { assert head[1..] == []; }
    }
  }

  lemma CustomUnreadableHead(su: Suite, fields: seq<CustomField>, k: SymmetricKey)
    requires fields != []
    ensures SomeCustomUnreadable(su, fields, k) <==> CustomUnreadable(su, fields[0], k) || SomeCustomUnreadable(su, fields[1..], k)
  {
    hide CustomUnreadable;
    if i :| 0 <= i < |fields[1..]| && CustomUnreadable(su, fields[1..][i], k) {
      assert CustomUnreadable(su, fields[i + 1], k);
    }
    if i :| 0 <= i < |fields| && CustomUnreadable(su, fields[i], k) {
      if i > 0 { assert CustomUnreadable(su, fields[1..][i - 1], k); }
    }
  }

  lemma NotesFailIff(su: Suite, notes: Option<string>, k: SymmetricKey)
    ensures EvalAll(su, NotesWrites(notes), k).Err? <==> OptionUnreadable(su, notes, k)
  {
    hide OptionUnreadable, SlotWrites;
    SlotsFailIff(su, [("notes", notes)], k);
    assert [("notes", notes)][0].1 == notes;
  }

  lemma LoginFailsIff(su: Suite, l: Login, k: SymmetricKey)
    ensures EvalAll(su, LoginWrites(Some(l)), k).Err? <==> SlotUnreadable(su, LoginSlots(l), k) || UriUnreadable(su, l.uris, k)
  {
    hide SlotUnreadable, UriUnreadable, SlotWrites, UriWrites, LoginSlots;
    SlotsFailIff(su, LoginSlots(l), k);
    UrisFailIff(su, l.uris, k);
    UriWritesFailIff(su, PresentUris(l.uris), k);
    EvalAllAppend(su, SlotWrites(LoginSlots(l)), UriWrites(PresentUris(l.uris)), k);
  }

  /** Mapping fails exactly when the name or some field that was sent does not open; nothing
      unreadable is skipped but the value of a custom field whose name opens to nothing. */
  lemma MappingFailsIff(su: Suite, c: Cipher, k: SymmetricKey)
    ensures Mapped(su, c, k).Err? <==> Unreadable(su, c.name, k) || SomeFieldUnreadable(su, c, k)
  {
    hide Run, EvalAll, Open, SlotUnreadable, UriUnreadable, OptionUnreadable, SomeCustomUnreadable, SlotWrites, CustomWrites,
         UriWrites, LoginSlots, CardSlots, IdentitySlots, SshSlots, SortedKeys, NotesWrites;
    RunIsPutAll(su, Writes(c), k, map[]);
    NothingFails(su, k);
    if c.login.Some? { LoginFailsIff(su, c.login.value, k); }
    if c.card.Some? { SlotsFailIff(su, CardSlots(c.card.value), k); }
    if c.identity.Some? { SlotsFailIff(su, IdentitySlots(c.identity.value), k); }
    if c.sshKey.Some? { SlotsFailIff(su, SshSlots(c.sshKey.value), k); }
    NotesFailIff(su, c.notes, k);
    CustomFailsIff(su, c.fields, k);
    SectionsFailIff(su, c, k);
  }

  lemma NothingFails(su: Suite, k: SymmetricKey)
    ensures EvalAll(su, [], k) == Ok([])
  {}

  lemma SectionsFailIff(su: Suite, c: Cipher, k: SymmetricKey)
    ensures EvalAll(su, Writes(c), k).Err? <==>
              || EvalAll(su, LoginWrites(c.login), k).Err? || EvalAll(su, CardWrites(c.card), k).Err?
              || EvalAll(su, IdentityWrites(c.identity), k).Err? || EvalAll(su, SshWrites(c.sshKey), k).Err?
              || EvalAll(su, NotesWrites(c.notes), k).Err? || EvalAll(su, CustomWrites(c.fields), k).Err?
  {
    hide EvalAll, LoginWrites, CardWrites, IdentityWrites, SshWrites, NotesWrites, CustomWrites;
    var l, d, i, s, n, f := LoginWrites(c.login), CardWrites(c.card), IdentityWrites(c.identity),
                            SshWrites(c.sshKey), NotesWrites(c.notes), CustomWrites(c.fields);
    EvalAllAppend(su, l, d, k);
    EvalAllAppend(su, l + d, i, k);
    EvalAllAppend(su, l + d + i, s, k);
    EvalAllAppend(su, l + d + i + s, n, k);
    EvalAllAppend(su, l + d + i + s + n, f, k);
  }

  /** Notes that are no EncString fail the whole item, whatever else opens. */
  lemma UnreadableNotesFail(su: Suite, c: Cipher, k: SymmetricKey)
    requires c.notes == Some("garbage")
    ensures Mapped(su, c, k).Err?
  {
    hide Mapped, DecryptSymmetric;
    MappingFailsIff(su, c, k);
    NeverSplits("garbage", ".");
  }

  // ---------- empty names ----------

  predicate NamesAField(w: Write) { w.Fixed? ==> w.key != "" }

  lemma {:induction false} RunKeepsNamesNonEmpty(su: Suite, ws: seq<Write>, k: SymmetricKey, bag: Bag)
    requires "" !in bag && forall i :: 0 <= i < |ws| ==> NamesAField(ws[i])
    ensures Run(su, ws, k, bag).Ok? ==> "" !in Run(su, ws, k, bag).value
  {
    hide Dec, DecAll;
    if ws != [] {
      assert NamesAField(ws[0]);
      match Eval(su, ws[0], k)
      case Err(_) =>
      case Ok(None) => RunKeepsNamesNonEmpty(su, ws[1..], k, bag);
      case Ok(Some(kv)) => RunKeepsNamesNonEmpty(su, ws[1..], k, bag[kv.0 := kv.1]);
    }
  }

  lemma {:induction false} SlotWritesName(slots: seq<Slot>)
    requires forall i :: 0 <= i < |slots| ==> slots[i].0 != ""
    ensures forall i :: 0 <= i < |SlotWrites(slots)| ==> NamesAField(SlotWrites(slots)[i])
  {
    if slots != [] { SlotWritesName(slots[1..]); }
  }

  lemma {:induction false} CustomWritesName(fields: seq<CustomField>)
    ensures forall i :: 0 <= i < |CustomWrites(fields)| ==> NamesAField(CustomWrites(fields)[i])
  {
    if fields != [] { CustomWritesName(fields[1..]); }
  }

  /** No mapped field has an empty name. */
  lemma MappedNamesNonEmpty(su: Suite, c: Cipher, k: SymmetricKey)
    ensures Mapped(su, c, k).Ok? ==> "" !in Mapped(su, c, k).value.fields
  {
    hide Run, Dec, SlotWrites, CustomWrites;
    if c.login.Some? { SlotWritesName(LoginSlots(c.login.value)); }
    if c.card.Some? { SlotWritesName(CardSlots(c.card.value)); }
    if c.identity.Some? { SlotWritesName(IdentitySlots(c.identity.value)); }
    if c.sshKey.Some? { SlotWritesName(SshSlots(c.sshKey.value)); }
    SlotWritesName([("notes", c.notes)]);
    CustomWritesName(c.fields);
    var ws := Writes(c);
    forall i | 0 <= i < |ws| ensures NamesAField(ws[i]) {}
    RunKeepsNamesNonEmpty(su, ws, k, map[]);
  }
}
