/** The session a login leaves behind, and its serialised handle. */
module Sessions {
  import opened Results
  import opened Text
  import opened Base64
  import opened Crypto
  import opened Api

  datatype VwSession = VwSession(accessToken: string, refreshToken: Option<string>, userKeyB64: string,
                                 account: Option<string>, expiresAt: Option<nat>)

  /** A JSON codec for one type: an external library, assumed to read back what it writes. */
  datatype JsonCodec<!T> = JsonCodec(write: T -> string, read: string -> Option<T>)

  ghost predicate Lossless<T(!new)>(codec: JsonCodec<T>) {
    forall t: T :: codec.read(codec.write(t)) == Some(t)
  }

  /** A serialised object starts and ends with a brace, so it has no outer white space. */
  ghost predicate TightWriter<T(!new)>(codec: JsonCodec<T>) {
    forall t: T :: Tight(codec.write(t))
  }

  function ParseSession(codec: JsonCodec<VwSession>, handle: string): Result<VwSession, ProviderError> {
    match codec.read(handle)
    case Some(s) => Ok(s)
    case None => Err(Auth("corrupt session"))
  }

  function SessionUserKey(s: VwSession): Result<SymmetricKey, ProviderError> {
    match Decode(Standard, s.userKeyB64)
    case None => Err(AuthExpired)
    case Some(blob) => (match From64(blob) case Ok(k) => Ok(k) case Err(e) => Err(CryptoFailure(e)))
  }

  datatype OpenedSession = OpenedSession(session: VwSession, userKey: SymmetricKey)

  /** What every command does first: parse the handle, decode the user key. */
  function OpenSession(codec: JsonCodec<VwSession>, handle: string): Result<OpenedSession, ProviderError> {
    match ParseSession(codec, handle)
    case Err(e) => Err(e)
    case Ok(s) => (match SessionUserKey(s) case Err(e) => Err(e) case Ok(k) => Ok(OpenedSession(s, k)))
  }

  /** A key stored in a session comes back from it. */
  lemma SessionUserKeyOf(s: VwSession, k: SymmetricKey)
    requires k.Valid() && s.userKeyB64 == Encode(Standard, k.Blob())
    ensures SessionUserKey(s) == Ok(k)
  {
    DecodeEncode(Standard, k.Blob());
    From64Blob(k);
  }

  /** A command starts exactly with a handle that reads as a session whose key text is the base64
      of a whole user key. */
  lemma OpenSessionIff(codec: JsonCodec<VwSession>, handle: string, s: VwSession, k: SymmetricKey)
    ensures OpenSession(codec, handle) == Ok(OpenedSession(s, k)) <==>
              codec.read(handle) == Some(s) && k.Valid() && s.userKeyB64 == Encode(Standard, k.enc + k.mac)
  {
    hide Encode, Decode;
    DecodeIffEncoded(Standard, s.userKeyB64, k.Blob());
    if k.Valid() { From64Blob(k); }
    if SessionUserKey(s) == Ok(k) {
      var blob := Decode(Standard, s.userKeyB64).value;
      assert k.Blob() == blob;
    }
  }

  /** Why a command does not start. */
  lemma OpenSessionFailsAs(codec: JsonCodec<VwSession>, handle: string)
    requires OpenSession(codec, handle).Err?
    ensures var e := OpenSession(codec, handle).error;
            match codec.read(handle)
            case None => e == Auth("corrupt session")
            case Some(s) =>
              if forall b: bytes :: s.userKeyB64 != Encode(Standard, b) then e == AuthExpired
              else e == CryptoFailure(InvalidKeyLength)
  {
    hide Encode, Decode;
    match codec.read(handle)
    case None =>
    case Some(s) =>
      forall b: bytes ensures Decode(Standard, s.userKeyB64) == Some(b) <==> s.userKeyB64 == Encode(Standard, b) {
        DecodeIffEncoded(Standard, s.userKeyB64, b);
      }
      if Decode(Standard, s.userKeyB64).Some? {
        assert s.userKeyB64 == Encode(Standard, Decode(Standard, s.userKeyB64).value);
      }
  }
}
