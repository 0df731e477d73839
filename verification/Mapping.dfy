/** From an API cipher to a bag of named fields. */
module Mapping {
  import opened Results
  import opened Text
  import opened Crypto
  import opened EncStrings
  import opened Sorting

  datatype Login = Login(username: Option<string>, password: Option<string>, totp: Option<string>,
                         uris: seq<Option<string>>)

  datatype Card = Card(cardholderName: Option<string>, brand: Option<string>, number: Option<string>,
                       expMonth: Option<string>, expYear: Option<string>, code: Option<string>)

  datatype Identity = Identity(
    title: Option<string>, firstName: Option<string>, middleName: Option<string>, lastName: Option<string>,
    address1: Option<string>, address2: Option<string>, address3: Option<string>, city: Option<string>,
    state: Option<string>, postalCode: Option<string>, country: Option<string>, company: Option<string>,
    email: Option<string>, phone: Option<string>, ssn: Option<string>, username: Option<string>,
    passportNumber: Option<string>, licenseNumber: Option<string>)

  datatype SshKey = SshKey(privateKey: Option<string>, publicKey: Option<string>, keyFingerprint: Option<string>)

  datatype CustomField = CustomField(name: Option<string>, value: Option<string>)

  /** A cipher as the server sends it. The same shape with plaintext in place of EncStrings
      describes the item that was sealed. */
  datatype Cipher = Cipher(
    id: string, name: string, organizationId: Option<string>, collectionIds: Option<seq<string>>,
    key: Option<string>, login: Option<Login>, card: Option<Card>, identity: Option<Identity>,
    sshKey: Option<SshKey>, notes: Option<string>, fields: seq<CustomField>)

  datatype SecretMeta = SecretMeta(id: string, name: string, namespaceId: string, fields: seq<string>)

  datatype Secret = Secret(meta: SecretMeta, fields: map<string, string>)

  type Bag = map<string, string>

  // ---------- decryption of single fields ----------

  /** `dec`: an empty string stays empty. */
  function Dec(su: Suite, enc: string, k: SymmetricKey): Result<string, CryptoError> {
    if enc == "" then Ok("")
    else
      match Open(su, enc, k)
      case Err(e) => Err(e)
      case Ok(pt) => Ok(su.lossy(pt))
  }

  /** `effective_key`: a cipher-level key, when there is one, is unwrapped under the container key. */
  function EffectiveKey(su: Suite, field: Option<string>, container: SymmetricKey): Result<SymmetricKey, CryptoError> {
    if field.None? || field.value == "" then Ok(container)
    else
      match Open(su, field.value, container)
      case Err(e) => Err(e)
      case Ok(blob) => From64(blob)
  }

  // ---------- what is written, in order ----------

  type Slot = (string, Option<string>)

  function LoginSlots(l: Login): seq<Slot> {
    [("username", l.username), ("password", l.password), ("totp", l.totp)]
  }

  function CardSlots(c: Card): seq<Slot> {
    [("cardholder_name", c.cardholderName), ("brand", c.brand), ("number", c.number),
     ("exp_month", c.expMonth), ("exp_year", c.expYear), ("code", c.code)]
  }

  function IdentitySlots(i: Identity): seq<Slot> {
    [("title", i.title), ("first_name", i.firstName), ("middle_name", i.middleName), ("last_name", i.lastName),
     ("address1", i.address1), ("address2", i.address2), ("address3", i.address3), ("city", i.city),
     ("state", i.state), ("postal_code", i.postalCode), ("country", i.country), ("company", i.company),
     ("email", i.email), ("phone", i.phone), ("ssn", i.ssn), ("username", i.username),
     ("passport_number", i.passportNumber), ("license_number", i.licenseNumber)]
  }

  function SshSlots(s: SshKey): seq<Slot> {
    [("private_key", s.privateKey), ("public_key", s.publicKey), ("key_fingerprint", s.keyFingerprint)]
  }

  /** One attempted insertion, still sealed. */
  datatype Write = Fixed(key: string, enc: string) | Uris(encs: seq<string>) | Custom(name: string, value: string)

  function SlotWrites(slots: seq<Slot>): seq<Write> {
    if slots == [] then []
    else
      (if slots[0].1.Some? && slots[0].1.value != "" then [Fixed(slots[0].0, slots[0].1.value)] else [])
      + SlotWrites(slots[1..])
  }

  function PresentUris(uris: seq<Option<string>>): seq<string> {
    if uris == [] then []
    else (if uris[0].Some? && uris[0].value != "" then [uris[0].value] else []) + PresentUris(uris[1..])
  }

  function UriWrites(uris: seq<string>): seq<Write> {
    (if |uris| > 0 then [Fixed("uri", uris[0])] else []) + (if |uris| > 1 then [Uris(uris)] else [])
  }

  function CustomWrites(fields: seq<CustomField>): seq<Write> {
    if fields == [] then []
    else
      var f := fields[0];
      (if f.name.Some? && f.value.Some? && f.name.value != "" && f.value.value != ""
       then [Custom(f.name.value, f.value.value)] else [])
      + CustomWrites(fields[1..])
  }

  function LoginWrites(l: Option<Login>): seq<Write> {
    if l.None? then [] else SlotWrites(LoginSlots(l.value)) + UriWrites(PresentUris(l.value.uris))
  }

  function CardWrites(c: Option<Card>): seq<Write> { if c.None? then [] else SlotWrites(CardSlots(c.value)) }

  function IdentityWrites(i: Option<Identity>): seq<Write> {
    if i.None? then [] else SlotWrites(IdentitySlots(i.value))
  }

  function SshWrites(s: Option<SshKey>): seq<Write> { if s.None? then [] else SlotWrites(SshSlots(s.value)) }

  function NotesWrites(n: Option<string>): seq<Write> { SlotWrites([("notes", n)]) }

  function Writes(c: Cipher): seq<Write> {
    LoginWrites(c.login) + CardWrites(c.card) + IdentityWrites(c.identity) + SshWrites(c.sshKey)
    + NotesWrites(c.notes) + CustomWrites(c.fields)
  }

  function DecAll(su: Suite, encs: seq<string>, k: SymmetricKey): Result<seq<string>, CryptoError> {
    if encs == [] then Ok([])
    else
      match Dec(su, encs[0], k)
      case Err(e) => Err(e)
      case Ok(p) =>
        match DecAll(su, encs[1..], k)
        case Err(e) => Err(e)
        case Ok(ps) => Ok([p] + ps)
  }

  /** The insertion a write turns into; a custom field with an empty name is none. */
  function Eval(su: Suite, w: Write, k: SymmetricKey): Result<Option<(string, string)>, CryptoError> {
    match w
    case Fixed(key, enc) =>
      (match Dec(su, enc, k)
       case Err(e) => Err(e)
       case Ok(v) => Ok(Some((key, v))))
    case Uris(encs) =>
      (match DecAll(su, encs, k)
       case Err(e) => Err(e)
       case Ok(vs) => Ok(Some(("uris", Join(vs, '\n')))))
    case Custom(name, value) =>
      match Dec(su, name, k)
      case Err(e) => Err(e)
      case Ok(n) =>
        if n == "" then Ok(None)
        else
          match Dec(su, value, k)
          case Err(e) => Err(e)
          case Ok(v) => Ok(Some((n, v)))
  }

  /** Insert in order; the first failure ends it. */
  function Run(su: Suite, ws: seq<Write>, k: SymmetricKey, bag: Bag): Result<Bag, CryptoError> {
    if ws == [] then Ok(bag)
    else
      match Eval(su, ws[0], k)
      case Err(e) => Err(e)
      case Ok(None) => Run(su, ws[1..], k, bag)
      case Ok(Some(kv)) => Run(su, ws[1..], k, bag[kv.0 := kv.1])
  }

  function Mapped(su: Suite, c: Cipher, k: SymmetricKey): Result<Secret, CryptoError> {
    match Dec(su, c.name, k)
    case Err(e) => Err(e)
    case Ok(name) =>
      match Run(su, Writes(c), k, map[])
      case Err(e) => Err(e)
      case Ok(bag) =>
        Ok(Secret(SecretMeta(c.id, name, if c.organizationId.Some? then c.organizationId.value else "",
                             SortedKeys(bag.Keys)), bag))
  }

  lemma RunNothing(su: Suite, k: SymmetricKey)
    ensures forall bag: Bag :: Run(su, [], k, bag) == Ok(bag)
  {}

  lemma {:induction false} RunAppend(su: Suite, a: seq<Write>, b: seq<Write>, k: SymmetricKey, bag: Bag)
    ensures Run(su, a + b, k, bag) ==
            match Run(su, a, k, bag) case Err(e) => Err(e) case Ok(mid) => Run(su, b, k, mid)
  {
    if a == [] {
      assert a + b == b;
    } else {
      assert (a + b)[1..] == a[1..] + b;
      match Eval(su, a[0], k)
      case Err(_) =>
      case Ok(None) => RunAppend(su, a[1..], b, k, bag);
      case Ok(Some(kv)) => RunAppend(su, a[1..], b, k, bag[kv.0 := kv.1]);
    }
  }

  // ---------- the loops of `map_cipher` ----------

  /** A run of `insert_if` calls over one section's fields. */
  method InsertSlots(su: Suite, slots: seq<Slot>, k: SymmetricKey, bag: Bag) returns (r: Result<Bag, CryptoError>)
    ensures r == Run(su, SlotWrites(slots), k, bag)
  {
    hide Dec;
    var fields := bag;
    for i := 0 to |slots|
      invariant Run(su, SlotWrites(slots), k, bag) == Run(su, SlotWrites(slots[i..]), k, fields)
    {
      assert slots[i..][1..] == slots[i + 1..];
      var (key, enc) := slots[i];
      if enc.Some? && enc.value != "" {
        var w := Fixed(key, enc.value);
        assert SlotWrites(slots[i..]) == [w] + SlotWrites(slots[i + 1..]);
        match Dec(su, enc.value, k) {
          case Err(e) => return Err(e);
          case Ok(v) => fields := fields[key := v];
        }
      } else {
        assert SlotWrites(slots[i..]) == SlotWrites(slots[i + 1..]);
      }
    }
    return Ok(fields);
  }

  method InsertUris(su: Suite, uris: seq<Option<string>>, k: SymmetricKey, bag: Bag) returns (r: Result<Bag, CryptoError>)
    ensures r == Run(su, UriWrites(PresentUris(uris)), k, bag)
  {
    hide Dec, DecAll;
    var present := PresentUris(uris);
    var fields := bag;
    ghost var ws := UriWrites(present);
    ghost var rest := if |present| > 1 then [Uris(present)] else [];
    assert ws == (if |present| > 0 then [Fixed("uri", present[0])] else []) + rest;
    assert |present| > 0 ==> ws[1..] == rest;
    if |present| > 0 {
      match Dec(su, present[0], k) {
        case Err(e) => return Err(e);
        case Ok(v) => fields := fields["uri" := v];
      }
    }
    assert Run(su, ws, k, bag) == Run(su, rest, k, fields);
    if |present| > 1 {
      assert rest[1..] == [];
      match DecAll(su, present, k) {
        case Err(e) => return Err(e);
        case Ok(vs) =>
          fields := fields["uris" := Join(vs, '\n')];
          assert Eval(su, rest[0], k) == Ok(Some(("uris", Join(vs, '\n'))));
          assert Run(su, [], k, fields) == Ok(fields);
      }
    }
    return Ok(fields);
  }

  method InsertCustom(su: Suite, custom: seq<CustomField>, k: SymmetricKey, bag: Bag) returns (r: Result<Bag, CryptoError>)
    ensures r == Run(su, CustomWrites(custom), k, bag)
  {
    hide Dec;
    var fields := bag;
    for i := 0 to |custom|
      invariant Run(su, CustomWrites(custom), k, bag) == Run(su, CustomWrites(custom[i..]), k, fields)
    {
      assert custom[i..][1..] == custom[i + 1..];
      var f := custom[i];
      if f.name.None? || f.value.None? || f.name.value == "" || f.value.value == "" {
        assert CustomWrites(custom[i..]) == CustomWrites(custom[i + 1..]);
        continue;
      }
      assert CustomWrites(custom[i..]) == [Custom(f.name.value, f.value.value)] + CustomWrites(custom[i + 1..]);
      match Dec(su, f.name.value, k) {
        case Err(e) => return Err(e);
        case Ok(name) =>
          if name != "" {
            match Dec(su, f.value.value, k) {
              case Err(e) => return Err(e);
              case Ok(v) => fields := fields[name := v];
            }
          }
      }
    }
    return Ok(fields);
  }

  method InsertLogin(su: Suite, l: Login, k: SymmetricKey, bag: Bag) returns (r: Result<Bag, CryptoError>)
    ensures r == Run(su, LoginWrites(Some(l)), k, bag)
  {
    hide Run, SlotWrites, UriWrites, LoginSlots;
    RunAppend(su, SlotWrites(LoginSlots(l)), UriWrites(PresentUris(l.uris)), k, bag);
    r := InsertSlots(su, LoginSlots(l), k, bag);
    if r.Ok? { r := InsertUris(su, l.uris, k, r.value); }
  }

  lemma WritesInOrder(su: Suite, c: Cipher, k: SymmetricKey, bag: Bag)
    ensures Run(su, Writes(c), k, bag) ==
            Bind(Bind(Bind(Bind(Bind(Run(su, LoginWrites(c.login), k, bag),
              (b: Bag) => Run(su, CardWrites(c.card), k, b)),
              (b: Bag) => Run(su, IdentityWrites(c.identity), k, b)),
              (b: Bag) => Run(su, SshWrites(c.sshKey), k, b)),
              (b: Bag) => Run(su, NotesWrites(c.notes), k, b)),
              (b: Bag) => Run(su, CustomWrites(c.fields), k, b))
  {
    hide LoginWrites, CardWrites, IdentityWrites, SshWrites, NotesWrites, CustomWrites, Run;
    var a, b, d, e, f, g := LoginWrites(c.login), CardWrites(c.card), IdentityWrites(c.identity),
                            SshWrites(c.sshKey), NotesWrites(c.notes), CustomWrites(c.fields);
    RunAppend(su, a, b, k, bag);
    RunAppend(su, a + b, d, k, bag);
    RunAppend(su, a + b + d, e, k, bag);
    RunAppend(su, a + b + d + e, f, k, bag);
    RunAppend(su, a + b + d + e + f, g, k, bag);
  }

  function Bind(r: Result<Bag, CryptoError>, next: Bag -> Result<Bag, CryptoError>): Result<Bag, CryptoError> {
    match r
    case Err(e) => Err(e)
    case Ok(b) => next(b)
  }

  method MapCipher(su: Suite, c: Cipher, k: SymmetricKey) returns (r: Result<Secret, CryptoError>)
    ensures r == Mapped(su, c, k)
  {
    hide SlotWrites, UriWrites, CustomWrites, Run, Dec, SortedKeys;
    var name := Dec(su, c.name, k);
    if name.Err? { return Err(name.error); }
    WritesInOrder(su, c, k, map[]);
    RunNothing(su, k);
    var fields: Result<Bag, CryptoError> := Ok(map[]);
    if c.login.Some? {
      fields := InsertLogin(su, c.login.value, k, map[]);
      if fields.Err? { return Err(fields.error); }
    }
    if c.card.Some? {
      fields := InsertSlots(su, CardSlots(c.card.value), k, fields.value);
      if fields.Err? { return Err(fields.error); }
    }
    if c.identity.Some? {
      fields := InsertSlots(su, IdentitySlots(c.identity.value), k, fields.value);
      if fields.Err? { return Err(fields.error); }
    }
    if c.sshKey.Some? {
      fields := InsertSlots(su, SshSlots(c.sshKey.value), k, fields.value);
      if fields.Err? { return Err(fields.error); }
    }
    fields := InsertSlots(su, [("notes", c.notes)], k, fields.value);
    if fields.Err? { return Err(fields.error); }
    fields := InsertCustom(su, c.fields, k, fields.value);
    if fields.Err? { return Err(fields.error); }
    var org := if c.organizationId.Some? then c.organizationId.value else "";
    return Ok(Secret(SecretMeta(c.id, name.value, org, SortedKeys(fields.value.Keys)), fields.value));
  }
}
