/** The passphrase-sealed keyring line (`crk1`). */
module Keyring {
  import opened Results
  import opened Text
  import opened Base64
  import opened Crypto
  import SealedLine

  datatype KeyringError = Format | Tamper | KdfFailure

  const MAGIC := "crk1"

  /** `seal`, with the random salt and IV as arguments. */
  function Sealed(su: Suite, plaintext: string, passphrase: string, salt: bytes, iv: bytes):
      Result<string, KeyringError> {
    match su.argon(su.utf8(passphrase), salt)
    case None => Err(KdfFailure)
    case Some(kek) =>
      if |kek| != 64 then Err(KdfFailure)
      else
        var ct := CbcSeal(su, kek[..32], iv, su.utf8(plaintext));
        Ok(SealedLine.Write(MAGIC, SealedLine.Fields(salt, iv, ct, su.hmac(kek[32..], iv + ct))))
  }

  /** `open`: the tag first, and one error for a wrong passphrase and for damage. */
  function Opened(su: Suite, line: string, passphrase: string): Result<string, KeyringError> {
    match SealedLine.Read(MAGIC, line)
    case None => Err(Format)
    case Some(f) =>
      match su.argon(su.utf8(passphrase), f.salt)
      case None => Err(KdfFailure)
      case Some(kek) =>
        if |kek| != 64 then Err(KdfFailure)
        else if su.hmac(kek[32..], f.iv + f.ct) != f.mac then Err(Tamper)
        else
          match CbcOpen(su, kek[..32], f.iv, f.ct)
          case None => Err(Tamper)
          case Some(pt) =>
            match su.text(pt)
            case None => Err(Tamper)
            case Some(t) => Ok(Trim(t))
  }

  /** What was sealed opens, with outer white space gone. */
  lemma OpenOfSeal(su: Suite, p: string, passphrase: string, salt: bytes, iv: bytes)
    requires su.Valid() && |iv| == 16 && Sealed(su, p, passphrase, salt, iv).Ok?
    ensures Opened(su, Sealed(su, p, passphrase, salt, iv).value, passphrase) == Ok(Trim(p))
  {
    hide CbcSeal, CbcOpen, SealedLine.Read, SealedLine.Write, Trim;
    var kek := su.argon(su.utf8(passphrase), salt).value;
    var ct := CbcSeal(su, kek[..32], iv, su.utf8(p));
    var f := SealedLine.Fields(salt, iv, ct, su.hmac(kek[32..], iv + ct));
    SealedLine.WriteIsTight(MAGIC, f);
    SealedLine.ReadIff(MAGIC, SealedLine.Write(MAGIC, f), f);
    CbcOpenIff(su, kek[..32], iv, ct, su.utf8(p));
  }

  /** Whatever opens was sealed, under the same passphrase. */
  lemma SealOfOpen(su: Suite, line: string, passphrase: string, q: string)
      returns (t: string, salt: bytes, iv: bytes)
    requires su.Valid() && Opened(su, line, passphrase) == Ok(q)
    ensures |iv| == 16 && q == Trim(t) && Sealed(su, t, passphrase, salt, iv) == Ok(Trim(line))
  {
    hide CbcSeal, CbcOpen, SealedLine.Read, SealedLine.Write, Trim;
    var f := SealedLine.Read(MAGIC, line).value;
    SealedLine.ReadIff(MAGIC, line, f);
    var kek := su.argon(su.utf8(passphrase), f.salt).value;
    var pt := CbcOpen(su, kek[..32], f.iv, f.ct).value;
    CbcOpenIff(su, kek[..32], f.iv, f.ct, pt);
    t, salt, iv := su.text(pt).value, f.salt, f.iv;
  }

  lemma OpenTrims(su: Suite, line: string, passphrase: string)
    ensures Opened(su, Trim(line), passphrase) == Opened(su, line, passphrase)
  {
    hide Trim;
    TrimIsTight(line);
    TrimTight(Trim(line));
  }

  /** `open` succeeds exactly on sealed lines, and then returns the trimmed plaintext. */
  lemma OpensIffSealed(su: Suite, line: string, passphrase: string, q: string)
    requires su.Valid()
    ensures Opened(su, line, passphrase) == Ok(q) <==>
            exists t: string, salt: bytes, iv: bytes ::
              |iv| == 16 && q == Trim(t) && Sealed(su, t, passphrase, salt, iv) == Ok(Trim(line))
  {
    hide Opened, Sealed, Trim;
    if Opened(su, line, passphrase) == Ok(q) {
      var t, salt, iv := SealOfOpen(su, line, passphrase, q);
    }
    forall t: string, salt: bytes, iv: bytes
      | |iv| == 16 && q == Trim(t) && Sealed(su, t, passphrase, salt, iv) == Ok(Trim(line))
      ensures Opened(su, line, passphrase) == Ok(q)
    {
      OpenOfSeal(su, t, passphrase, salt, iv);
      OpenTrims(su, line, passphrase);
    }
  }

  /** The plaintext survives unchanged exactly when it has no outer white space. */
  lemma OpenGivesBackIff(su: Suite, p: string, passphrase: string, salt: bytes, iv: bytes)
    requires su.Valid() && |iv| == 16 && Sealed(su, p, passphrase, salt, iv).Ok?
    ensures Opened(su, Sealed(su, p, passphrase, salt, iv).value, passphrase) == Ok(p) <==> Tight(p)
  {
    hide Opened, Sealed, Trim;
    OpenOfSeal(su, p, passphrase, salt, iv);
    TrimIsTight(p);
    if Tight(p) { TrimTight(p); }
  }

  /** Overwrite a plaintext copy with zeros. */
  method Clear(buf: array<byte>)
    modifies buf
    ensures forall i :: 0 <= i < buf.Length ==> buf[i] == 0
  {
    for i := 0 to buf.Length
      invariant forall j :: 0 <= j < i ==> buf[j] == 0
    {
      buf[i] := 0;
    }
  }

  /** `seal` as the code runs it: the plaintext copy is in `buf`, and is zero on return. */
  method Seal(su: Suite, plaintext: string, passphrase: string, salt: bytes, iv: bytes, buf: array<byte>)
      returns (r: Result<string, KeyringError>)
    requires su.Valid() && buf[..] == su.utf8(plaintext)
    modifies buf
    ensures r == Sealed(su, plaintext, passphrase, salt, iv)
    ensures r.Ok? ==> forall i :: 0 <= i < buf.Length ==> buf[i] == 0
  {
    var kek := su.argon(su.utf8(passphrase), salt);
    if kek.None? { return Err(KdfFailure); }
    var encKey, macKey := kek.value[..32], kek.value[32..];
    var ct := CbcSeal(su, encKey, iv, buf[..]);
    Clear(buf);
    var ivCt := iv;
    ivCt := ivCt + ct;
    var tag := su.hmac(macKey, ivCt);
    return Ok(SealedLine.Write(MAGIC, SealedLine.Fields(salt, iv, ct, tag)));
  }

  /** The key derived for the line gives its content another tag. */
  predicate TagDiffers(su: Suite, f: SealedLine.Fields, passphrase: string)
    requires su.Valid()
  {
    match su.argon(su.utf8(passphrase), f.salt)
    case None => false
    case Some(kek) => su.hmac(kek[32..], f.iv + f.ct) != f.mac
  }

  /** A line that cannot be read is a format error, a passphrase that derives no key is reported
      as that, and everything else that does not open is one error. */
  lemma OpenFailsAs(su: Suite, line: string, passphrase: string)
    requires su.Valid()
    ensures var r := Opened(su, line, passphrase);
            && (r == Err(Format) <==> forall f: SealedLine.Fields :: !(Trim(line) == SealedLine.Write("crk1", f) && f.Sized()))
            && forall f: SealedLine.Fields :: Trim(line) == SealedLine.Write("crk1", f) && f.Sized() ==>
                 && (r == Err(KdfFailure) <==> su.argon(su.utf8(passphrase), f.salt).None?)
                 && (r == Err(Tamper) <==> su.argon(su.utf8(passphrase), f.salt).Some? && r.Err?)
                 && (TagDiffers(su, f, passphrase) ==> r == Err(Tamper))
  {
    hide CbcOpen, SealedLine.Read, SealedLine.Write, Trim;
    forall f: SealedLine.Fields
      ensures SealedLine.Read(MAGIC, line) == Some(f) <==> Trim(line) == SealedLine.Write("crk1", f) && f.Sized()
    {
      SealedLine.ReadIff(MAGIC, line, f);
    }
    match SealedLine.Read(MAGIC, line)
    case None =>
    case Some(f) => assert Trim(line) == SealedLine.Write("crk1", f) && f.Sized();
  }
}
