/** The sealed sync cache line (`crc1`), keyed from the user key. */
module SyncCache {
  import opened Results
  import opened Text
  import opened Base64
  import opened Crypto
  import SealedLine
  import Hkdf

  const MAGIC := "crc1"

  /** "cryptile-sync-cache-v1" */
  const LABEL: bytes :=
    [99, 114, 121, 112, 116, 105, 108, 101, 45, 115, 121, 110, 99, 45, 99, 97, 99, 104, 101, 45, 118, 49]

  /** HKDF-SHA256 of the user key under salt and label, split into two 32-byte keys. */
  function DeriveKeys(su: Suite, k: SymmetricKey, salt: bytes): (r: SymmetricKey)
    requires su.Valid()
    ensures r.Valid()
  {
    var okm := Hkdf.Expand(su, Hkdf.Extract(su, salt, k.Blob()), LABEL, 64);
    SymmetricKey(okm[..32], okm[32..])
  }

  function Tag(su: Suite, d: SymmetricKey, salt: bytes, iv: bytes, ct: bytes): bytes {
    su.hmac(d.mac, LABEL + salt + iv + ct)
  }

  /** `seal` on the serialised payload, with the random salt and IV as arguments. */
  function Sealed(su: Suite, k: SymmetricKey, payload: bytes, salt: bytes, iv: bytes): string
    requires su.Valid()
  {
    var d := DeriveKeys(su, k, salt);
    var ct := CbcSeal(su, d.enc, iv, payload);
    SealedLine.Write(MAGIC, SealedLine.Fields(salt, iv, ct, Tag(su, d, salt, iv, ct)))
  }

  /** `unseal` up to the payload; every failure is a cold cache. */
  function Unsealed(su: Suite, k: SymmetricKey, line: string): Option<bytes>
    requires su.Valid()
  {
    match SealedLine.Read(MAGIC, line)
    case None => None
    case Some(f) =>
      var d := DeriveKeys(su, k, f.salt);
      if Tag(su, d, f.salt, f.iv, f.ct) != f.mac then None
      else CbcOpen(su, d.enc, f.iv, f.ct)
  }

  lemma UnsealOfSeal(su: Suite, k: SymmetricKey, payload: bytes, salt: bytes, iv: bytes)
    requires su.Valid() && |iv| == 16
    ensures Unsealed(su, k, Sealed(su, k, payload, salt, iv)) == Some(payload)
  {
    hide CbcSeal, CbcOpen, SealedLine.Read, SealedLine.Write, Trim, DeriveKeys;
    var d := DeriveKeys(su, k, salt);
    var ct := CbcSeal(su, d.enc, iv, payload);
    var f := SealedLine.Fields(salt, iv, ct, Tag(su, d, salt, iv, ct));
    SealedLine.WriteIsTight(MAGIC, f);
    SealedLine.ReadIff(MAGIC, SealedLine.Write(MAGIC, f), f);
    CbcOpenIff(su, d.enc, iv, ct, payload);
  }

  lemma SealOfUnseal(su: Suite, k: SymmetricKey, line: string, payload: bytes)
      returns (salt: bytes, iv: bytes)
    requires su.Valid() && Unsealed(su, k, line) == Some(payload)
    ensures |iv| == 16 && Trim(line) == Sealed(su, k, payload, salt, iv)
  {
    hide CbcSeal, CbcOpen, SealedLine.Read, SealedLine.Write, Trim, DeriveKeys;
    var f := SealedLine.Read(MAGIC, line).value;
    SealedLine.ReadIff(MAGIC, line, f);
    CbcOpenIff(su, DeriveKeys(su, k, f.salt).enc, f.iv, f.ct, payload);
    salt, iv := f.salt, f.iv;
  }

  /** A cache file is warm with a payload exactly when, outer white space aside, it is that
      payload sealed under this user key; every other file is cold. */
  lemma UnsealsIffSealed(su: Suite, k: SymmetricKey, line: string, payload: bytes)
    requires su.Valid()
    ensures Unsealed(su, k, line) == Some(payload) <==>
            exists salt: bytes, iv: bytes :: |iv| == 16 && Trim(line) == Sealed(su, k, payload, salt, iv)
  {
    hide Unsealed, Sealed, Trim;
    if Unsealed(su, k, line) == Some(payload) {
      var salt, iv := SealOfUnseal(su, k, line, payload);
    }
    forall salt: bytes, iv: bytes | |iv| == 16 && Trim(line) == Sealed(su, k, payload, salt, iv)
      ensures Unsealed(su, k, line) == Some(payload)
    {
      UnsealOfSeal(su, k, payload, salt, iv);
      UnsealTrims(su, k, line);
    }
  }

  lemma UnsealTrims(su: Suite, k: SymmetricKey, line: string)
    requires su.Valid()
    ensures Unsealed(su, k, Trim(line)) == Unsealed(su, k, line)
  {
    hide Trim;
    TrimIsTight(line);
    TrimTight(Trim(line));
  }

  /** `seal` as the code builds it, extending the authenticated buffer piece by piece. */
  method Seal(su: Suite, k: SymmetricKey, payload: bytes, salt: bytes, iv: bytes) returns (line: string)
    requires su.Valid() && k.Valid()
    ensures line == Sealed(su, k, payload, salt, iv)
  {
    var ikm := k.enc;
    ikm := ikm + k.mac;
    var okm := Hkdf.Expand(su, su.hmac(salt, ikm), LABEL, 64);
    var encKey, macKey := okm[..32], okm[32..];
    var ct := CbcSeal(su, encKey, iv, payload);
    var aad := LABEL;
    aad := aad + salt;
    aad := aad + iv;
    aad := aad + ct;
    line := SealedLine.Write(MAGIC, SealedLine.Fields(salt, iv, ct, su.hmac(macKey, aad)));
  }

  /** The label as its ASCII text. */
  lemma LabelIs()
    ensures |LABEL| == |"cryptile-sync-cache-v1"| && forall i :: 0 <= i < |LABEL| ==> LABEL[i] == "cryptile-sync-cache-v1"[i] as int
  {}

  /** The file: its mark, the salt, the IV, the ciphertext and the tag over label, salt, IV and
      ciphertext, in base64 with dots between them. */
  lemma LineIs(su: Suite, k: SymmetricKey, payload: bytes, salt: bytes, iv: bytes)
    requires su.Valid()
    ensures var d := DeriveKeys(su, k, salt);
            var ct := CbcSeal(su, d.enc, iv, payload);
            Sealed(su, k, payload, salt, iv)
            == "crc1" + "." + Encode(Standard, salt) + "." + Encode(Standard, iv) + "." + Encode(Standard, ct)
               + "." + Encode(Standard, su.hmac(d.mac, LABEL + salt + iv + ct))
  {
    hide CbcSeal, Encode, SealedLine.Write, DeriveKeys;
    var d := DeriveKeys(su, k, salt);
    var ct := CbcSeal(su, d.enc, iv, payload);
    SealedLine.WriteIs("crc1", SealedLine.Fields(salt, iv, ct, Tag(su, d, salt, iv, ct)));
  }
}
