/** Bitwarden EncStrings: `<type>.<b64>[|<b64>[|<b64>]]`. */
module EncStrings {
  import opened Results
  import opened Text
  import opened Base64
  import opened Crypto

  datatype EncString = EncString(kind: nat, iv: bytes, ct: bytes, mac: Option<bytes>)

  function Parse(s: string): Result<EncString, CryptoError> {
    match SplitOnce(s, ".")
    case None => Err(MalformedEncString)
    case Some((ty, rest)) =>
      match ParseUnsigned(ty, 255)
      case None => Err(MalformedEncString)
      case Some(kind) =>
        if kind > 4 then Err(UnsupportedEncString(kind))
        else ParseParts(kind, Split(rest, '|'))
  }

  function ParseParts(kind: nat, parts: seq<string>): Result<EncString, CryptoError> {
    if kind == 0 then
      if |parts| != 2 then Err(MalformedEncString)
      else
        match (Decode(Standard, parts[0]), Decode(Standard, parts[1]))
        case (Some(iv), Some(ct)) => Ok(EncString(kind, iv, ct, None))
        case _ => Err(MalformedEncString)
    else if kind <= 2 then
      if |parts| != 3 then Err(MalformedEncString)
      else
        match (Decode(Standard, parts[0]), Decode(Standard, parts[1]), Decode(Standard, parts[2]))
        case (Some(iv), Some(ct), Some(mac)) => Ok(EncString(kind, iv, ct, Some(mac)))
        case _ => Err(MalformedEncString)
    else
      if |parts| != 1 then Err(MalformedEncString)
      else
        match Decode(Standard, parts[0])
        case Some(ct) => Ok(EncString(kind, [], ct, None))
        case None => Err(MalformedEncString)
  }

  /** The tag is checked before anything is decrypted. Types 1 and 2 are opened alike. */
  function DecryptSymmetric(su: Suite, e: EncString, k: SymmetricKey): Result<bytes, CryptoError> {
    if e.kind != 1 && e.kind != 2 then Err(UnsupportedEncString(e.kind))
    else if e.mac.None? then Err(MalformedEncString)
    else if su.hmac(k.mac, e.iv + e.ct) != e.mac.value then Err(MacMismatch)
    else DecryptCbc(su, e.iv, e.ct, k.enc)
  }

  function DecryptCbc(su: Suite, iv: bytes, ct: bytes, key: bytes): Result<bytes, CryptoError> {
    if |iv| != 16 || ct == [] || |ct| % 16 != 0 then Err(MalformedEncString)
    else
      match CbcOpen(su, key, iv, ct)
      case Some(p) => Ok(p)
      case None => Err(BadPadding)
  }

  /** `parse` then `decrypt_symmetric`, the way every caller uses them. */
  function Open(su: Suite, s: string, k: SymmetricKey): Result<bytes, CryptoError> {
    match Parse(s)
    case Err(e) => Err(e)
    case Ok(e) => DecryptSymmetric(su, e, k)
  }

  /** `unwrap_org_key`: RSA type 4 only; type 3 is refused. */
  function UnwrapOrgKey(su: Suite, e: EncString, privateKey: bytes): Result<SymmetricKey, CryptoError> {
    if !su.pkcs8(privateKey) then Err(InvalidPrivateKey)
    else if e.kind != 4 then Err(UnsupportedEncString(e.kind))
    else
      match su.rsa(privateKey, e.ct)
      case None => Err(AsymmetricDecrypt)
      case Some(pt) => From64(pt)
  }

  // ---------- the printer of the provisioning script ----------

  function Sections(su: Suite, iv: bytes, p: bytes, k: SymmetricKey): seq<string> {
    var ct := CbcSeal(su, k.enc, iv, p);
    [Encode(Standard, iv), Encode(Standard, ct), Encode(Standard, su.hmac(k.mac, iv + ct))]
  }

  /** The printed form under a type prefix; the script always prints type 2. */
  function PrintAs(su: Suite, ty: string, iv: bytes, p: bytes, k: SymmetricKey): string {
    ty + "." + Join(Sections(su, iv, p, k), '|')
  }

  function PrintType2(su: Suite, iv: bytes, p: bytes, k: SymmetricKey): string {
    PrintAs(su, "2", iv, p, k)
  }

  /** A type prefix that denotes 1 or 2; `02` and `+2` do too. */
  predicate SymmetricType(ty: string) {
    '.' !in ty && (ParseUnsigned(ty, 255) == Some(1) || ParseUnsigned(ty, 255) == Some(2))
  }

  lemma TwoIsSymmetric()
    ensures SymmetricType("2")
  {
    DecimalParses(2, 255);
    assert Decimal(2) == "2";
  }

  /** Printing opens: for every plaintext, key and IV. */
  lemma OpenOfPrint(su: Suite, ty: string, iv: bytes, p: bytes, k: SymmetricKey)
    requires su.Valid() && |iv| == 16 && SymmetricType(ty)
    ensures Open(su, PrintAs(su, ty, iv, p, k), k) == Ok(p)
  {
    hide Decode, Encode, CbcOpen, CbcSeal, Split, Join, SplitOnce, ParseUnsigned;
    var parts := Sections(su, iv, p, k);
    SplitOnceAt(ty, Join(parts, '|'), ".");
    SectionsHaveNoBar(su, iv, p, k);
    SplitOfJoin(parts, '|');
    var ct := CbcSeal(su, k.enc, iv, p);
    DecodeEncode(Standard, iv);
    DecodeEncode(Standard, ct);
    DecodeEncode(Standard, su.hmac(k.mac, iv + ct));
    CbcOpenIff(su, k.enc, iv, ct, p);
  }

  lemma SectionsHaveNoBar(su: Suite, iv: bytes, p: bytes, k: SymmetricKey)
    ensures forall x :: x in Sections(su, iv, p, k) ==> '|' !in x
  {
    forall b: bytes ensures '|' !in Encode(Standard, b) { EncodeAlphabet(Standard, b); }
  }

  /** Whatever opens was printed: the type prefix and the IV can be read off the string. */
  lemma PrintOfOpen(su: Suite, s: string, p: bytes, k: SymmetricKey) returns (ty: string, iv: bytes)
    requires su.Valid() && Open(su, s, k) == Ok(p)
    ensures |iv| == 16 && SymmetricType(ty) && s == PrintAs(su, ty, iv, p, k)
  {
    hide Decode, Encode, CbcOpen, CbcSeal, Split, Join, SplitOnce, ParseUnsigned;
    ty := SplitOnce(s, ".").value.0;
    var rest := SplitOnce(s, ".").value.1;
    var parts := Split(rest, '|');
    var e := Parse(s).value;
    iv := e.iv;
    JoinOfSplit(rest, '|');
    DecodeIffEncoded(Standard, parts[0], e.iv);
    DecodeIffEncoded(Standard, parts[1], e.ct);
    DecodeIffEncoded(Standard, parts[2], e.mac.value);
    CbcOpenIff(su, k.enc, iv, e.ct, p);
    assert parts == Sections(su, iv, p, k);
  }

  /** The strings that open to `p` under `k` are exactly the prints of `p` under `k`. */
  lemma OpensIffPrinted(su: Suite, s: string, p: bytes, k: SymmetricKey)
    requires su.Valid()
    ensures Open(su, s, k) == Ok(p) <==>
            exists ty: string, iv: bytes :: |iv| == 16 && SymmetricType(ty) && s == PrintAs(su, ty, iv, p, k)
  {
    if Open(su, s, k) == Ok(p) {
      var ty, iv := PrintOfOpen(su, s, p, k);
    }
    forall ty: string, iv: bytes | |iv| == 16 && SymmetricType(ty) && s == PrintAs(su, ty, iv, p, k)
      ensures Open(su, s, k) == Ok(p)
    {
      OpenOfPrint(su, ty, iv, p, k);
    }
  }

  predicate HeadedTwo(s: string) { |s| >= 2 && s[..2] == "2." }

  /** Among strings headed `2.`, opening to `p` and being a type-2 print of `p` are the same. */
  lemma Type2OpensIffPrinted(su: Suite, s: string, p: bytes, k: SymmetricKey)
    requires su.Valid() && HeadedTwo(s)
    ensures Open(su, s, k) == Ok(p) <==> exists iv: bytes :: |iv| == 16 && s == PrintType2(su, iv, p, k)
  {
    hide Open, Sections, SplitOnce, ParseUnsigned;
    TwoIsSymmetric();
    if Open(su, s, k) == Ok(p) {
      var ty, iv := PrintOfOpen(su, s, p, k);
      assert s == "2" + "." + s[2..];
      SplitOnceAt("2", s[2..], ".");
      SplitOnceAt(ty, Join(Sections(su, iv, p, k), '|'), ".");
    }
    forall iv: bytes | |iv| == 16 && s == PrintType2(su, iv, p, k) ensures Open(su, s, k) == Ok(p) {
      OpenOfPrint(su, "2", iv, p, k);
    }
  }

  /** Two different plaintexts never share a print under one key. */
  lemma PrintDeterminesPlaintext(su: Suite, iv: bytes, iv': bytes, p: bytes, p': bytes, k: SymmetricKey)
    requires su.Valid() && |iv| == 16 && |iv'| == 16
    requires PrintType2(su, iv, p, k) == PrintType2(su, iv', p', k)
    ensures p == p'
  {
    hide Open, PrintAs, SymmetricType;
    TwoIsSymmetric();
    OpenOfPrint(su, "2", iv, p, k);
    OpenOfPrint(su, "2", iv', p', k);
  }

  // ---------- which failure ----------

  /** Three sections that decode: a wrong tag is reported before anything else is looked at, then
      wrong sizes, then wrong padding. */
  lemma SectionsOpenAs(su: Suite, ty: string, iv: bytes, ct: bytes, mac: bytes, k: SymmetricKey)
    requires SymmetricType(ty)
    ensures var s := ty + "." + Encode(Standard, iv) + "|" + Encode(Standard, ct) + "|" + Encode(Standard, mac);
            var r := Open(su, s, k);
            if mac != su.hmac(k.mac, iv + ct) then r == Err(MacMismatch)
            else if |iv| != 16 || ct == [] || |ct| % 16 != 0 then r == Err(MalformedEncString)
            else match CbcOpen(su, k.enc, iv, ct) case Some(p) => r == Ok(p) case None => r == Err(BadPadding)
  {
    hide Decode, Encode, CbcOpen, Split, Join, SplitOnce, ParseUnsigned;
    var parts := [Encode(Standard, iv), Encode(Standard, ct), Encode(Standard, mac)];
    var s := ty + "." + Encode(Standard, iv) + "|" + Encode(Standard, ct) + "|" + Encode(Standard, mac);
    JoinThree(parts[0], parts[1], parts[2]);
    assert s == ty + "." + Join(parts, '|');
    SplitOnceAt(ty, Join(parts, '|'), ".");
    forall b: bytes ensures '|' !in Encode(Standard, b) { EncodeAlphabet(Standard, b); }
    SplitOfJoin(parts, '|');
    DecodeEncode(Standard, iv);
    DecodeEncode(Standard, ct);
    DecodeEncode(Standard, mac);
  }

  lemma JoinThree(a: string, b: string, c: string)
    ensures Join([a, b, c], '|') == a + "|" + b + "|" + c
  {
    assert [a, b, c][1..] == [b, c] && [b, c][1..] == [c];
    assert Join([b, c], '|') == b + "|" + Join([c], '|') && Join([c], '|') == c;
    assert Join([a, b, c], '|') == a + "|" + Join([b, c], '|');
    assert a + "|" + (b + "|" + c) == a + "|" + b + "|" + c;
  }

  /** An organization's key opens to `k` exactly when it is of type 4 and the private key unwraps
      what it carries to the two halves of `k`. */
  lemma OrgKeyIff(su: Suite, s: string, privateKey: bytes, k: SymmetricKey)
    ensures Parse(s).Ok? && UnwrapOrgKey(su, Parse(s).value, privateKey) == Ok(k) <==>
              && su.pkcs8(privateKey) && k.Valid()
              && exists ty: string, ct: bytes :: '.' !in ty && Spells(ty, 4) && s == ty + "." + Encode(Standard, ct)
                                                 && su.rsa(privateKey, ct) == Some(k.Blob())
  {
    hide Decode, Encode, Split, SplitOnce, ParseUnsigned, Spells;
    if k.Valid() { From64Blob(k); }
    if Parse(s).Ok? && UnwrapOrgKey(su, Parse(s).value, privateKey) == Ok(k) {
      var (ty, rest) := SplitOnce(s, ".").value;
      var ct := Parse(s).value.ct;
      ParsesIff(ty, 255, 4);
      JoinOfSplit(rest, '|');
      DecodeIffEncoded(Standard, rest, ct);
      assert k.Blob() == su.rsa(privateKey, ct).value;
    }
    forall ty: string, ct: bytes | '.' !in ty && Spells(ty, 4) && s == ty + "." + Encode(Standard, ct)
                                   && su.rsa(privateKey, ct) == Some(k.Blob()) && su.pkcs8(privateKey) && k.Valid()
      ensures Parse(s).Ok? && UnwrapOrgKey(su, Parse(s).value, privateKey) == Ok(k)
    {
      ParsesIff(ty, 255, 4);
      SplitOnceAt(ty, Encode(Standard, ct), ".");
      EncodeAlphabet(Standard, ct);
      SplitWhole(Encode(Standard, ct), '|');
      DecodeEncode(Standard, ct);
    }
  }

  /** A type number from 0 to 4 is known. One above is unsupported, whatever follows it; the known
      ones that are not for this key are unsupported once their sections decode. */
  lemma OtherTypesOpenAs(su: Suite, ty: string, rest: string, k: SymmetricKey, n: nat)
    requires '.' !in ty && Spells(ty, n) && n <= 255
    ensures n > 4 ==> Open(su, ty + "." + rest, k) == Err(UnsupportedEncString(n))
    ensures n == 0 ==> forall iv: bytes, ct: bytes :: rest == Encode(Standard, iv) + "|" + Encode(Standard, ct) ==>
              Open(su, ty + "." + rest, k) == Err(UnsupportedEncString(0))
    ensures n in {3, 4} ==> forall ct: bytes :: rest == Encode(Standard, ct) ==>
              Open(su, ty + "." + rest, k) == Err(UnsupportedEncString(n))
  {
    hide Decode, Encode, Split, SplitOnce, ParseUnsigned, Spells;
    ParsesIff(ty, 255, n);
    SplitOnceAt(ty, rest, ".");
    forall b: bytes ensures '|' !in Encode(Standard, b) && Decode(Standard, Encode(Standard, b)) == Some(b) {
      EncodeAlphabet(Standard, b);
      DecodeEncode(Standard, b);
    }
    forall iv: bytes, ct: bytes | rest == Encode(Standard, iv) + "|" + Encode(Standard, ct)
      ensures Split(rest, '|') == [Encode(Standard, iv), Encode(Standard, ct)]
    {
      SplitFirst(Encode(Standard, iv), Encode(Standard, ct), '|');
      SplitWhole(Encode(Standard, ct), '|');
    }
    forall ct: bytes | rest == Encode(Standard, ct) ensures Split(rest, '|') == [rest] { SplitWhole(rest, '|'); }
  }
}
