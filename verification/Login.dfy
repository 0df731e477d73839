/** Login against a server that answers as it likes: calls made, and how challenges surface. */
module Login {
  import opened Results
  import opened Base64
  import opened Crypto
  import opened EncStrings
  import opened TwoFactor
  import opened Api
  import opened Sessions
  import Hkdf

  datatype TokenResponse = TokenResponse(accessToken: string, refreshToken: Option<string>, expiresIn: nat, key: string)

  /** A second factor on the wire: provider id and token. */
  type Answer = (nat, string)

  datatype Call = Prelogin | Token(second: Option<Answer>) | Ceremony

  datatype CeremonyError = CeremonyAuth | CeremonyTransport | CeremonyServer

  /** Everything one login meets: replies may depend on the call's number and content. */
  datatype World = World(
    prelogin: Reply,
    token: (nat, Option<Answer>) -> Reply,
    ceremony: Option<Json> -> Result<string, CeremonyError>,
    json: string -> Option<Json>,
    readToken: string -> Option<TokenResponse>,
    masterKey: (string, string, Json) -> Result<bytes, CryptoError>,  // password, account, KDF parameters
    now: Option<nat>,
    hardware: bool)                                                    // a ceremony backend is built in

  datatype SecondFactor = SecondFactor(tag: string, code: string)

  datatype Params = Params(account: string, password: string, second: Option<SecondFactor>)

  datatype Trace<T> = Trace(result: Result<T, ProviderError>, calls: seq<Call>)

  const INFO_ENC: bytes := [101, 110, 99]
  const INFO_MAC: bytes := [109, 97, 99]

  /** `unwrap_user_key`, with the stretching of the master key. */
  function UnwrapUserKey(su: Suite, enc: string, master: bytes): Result<SymmetricKey, ProviderError>
    requires su.Valid()
  {
    match Parse(enc)
    case Err(e) => Err(CryptoFailure(e))
    case Ok(es) =>
      match DecryptSymmetric(su, es, Stretched(su, master))
      case Err(e) => Err(CryptoFailure(e))
      case Ok(blob) => (match From64(blob) case Ok(k) => Ok(k) case Err(e) => Err(CryptoFailure(e)))
  }

  function Stretched(su: Suite, master: bytes): SymmetricKey
    requires su.Valid()
  {
    SymmetricKey(Hkdf.Expand(su, master, INFO_ENC, 32), Hkdf.Expand(su, master, INFO_MAC, 32))
  }

  /** The user key that was protected at registration is the one a login unwraps. */
  lemma ProtectedKeyUnwraps(su: Suite, master: bytes, iv: bytes, k: SymmetricKey)
    requires su.Valid() && |iv| == 16 && k.Valid()
    ensures UnwrapUserKey(su, PrintType2(su, iv, k.Blob(), Stretched(su, master)), master) == Ok(k)
  {
    hide Parse, DecryptSymmetric, Hkdf.Expand;
    TwoIsSymmetric();
    OpenOfPrint(su, "2", iv, k.Blob(), Stretched(su, master));
    From64Blob(k);
  }

  function Finish(su: Suite, w: World, p: Params, t: TokenResponse, master: bytes): Result<VwSession, ProviderError>
    requires su.Valid()
  {
    match UnwrapUserKey(su, t.key, master)
    case Err(e) => Err(e)
    case Ok(k) =>
      Ok(VwSession(t.accessToken, t.refreshToken, Encode(Standard, k.Blob()), Some(p.account),
                   if w.now.Some? then Some(w.now.value + t.expiresIn) else None))
  }

  function CeremonyFailure(e: CeremonyError): ProviderError {
    match e case CeremonyAuth => Auth("") case CeremonyTransport => Transport("") case CeremonyServer => Server("")
  }

  /** `answer_two_factor`: code factors pass through, provider 7 runs the ceremony, anything
      else has no answer. */
  function AnswerTwoFactor(w: World, body: Option<Json>, second: Option<Answer>): Trace<Option<Answer>> {
    match second
    case None => Trace(Ok(None), [])
    case Some((id, code)) =>
      if id == 0 || id == 1 then Trace(Ok(second), [])
      else if id == 7 && w.hardware then
        match w.ceremony(body)
        case Ok(token) => Trace(Ok(Some((7, token))), [Ceremony])
        case Err(e) => Trace(Err(CeremonyFailure(e)), [Ceremony])
      else Trace(Err(Auth("")), [])
  }

  function TokenCall(w: World, n: nat, second: Option<Answer>): Result<TokenResponse, ApiError> {
    Classify(w.json, w.readToken, w.token(n, second))
  }

  /** The first grant's second factor: a security key has no code to send. */
  function FirstAnswer(w: World, second: Option<Answer>): Option<Answer> {
    if w.hardware && second.Some? && second.value.0 == 7 then None else second
  }

  /** `login` */
  function LogIn(su: Suite, w: World, p: Params): Trace<VwSession>
    requires su.Valid()
  {
    if p.second.Some? && TagToWire(p.second.value.tag).None? then Trace(Err(Server("")), [])
    else
      var second: Option<Answer> :=
        if p.second.None? then None else Some((TagToWire(p.second.value.tag).value, p.second.value.code));
      match Classify(w.json, w.json, w.prelogin)
      case Err(e) => Trace(Err(MapApi(e)), [Prelogin])
      case Ok(kdf) =>
        match w.masterKey(p.password, p.account, kdf)
        case Err(e) => Trace(Err(CryptoFailure(e)), [Prelogin])
        case Ok(master) => Grants(su, w, p, second, master)
  }

  /** The grant, and at most one resubmission after a challenge. */
  function Grants(su: Suite, w: World, p: Params, second: Option<Answer>, master: bytes): Trace<VwSession>
    requires su.Valid()
  {
    var first := FirstAnswer(w, second);
    var calls := [Prelogin, Token(first)];
    match TokenCall(w, 0, first)
    case Ok(t) => Trace(Finish(su, w, p, t, master), calls)
    case Err(TwoFactorChallenge(body)) =>
      var answered := AnswerTwoFactor(w, body, second);
      (match answered.result
       case Err(e) => Trace(Err(e), calls + answered.calls)
       case Ok(None) => Trace(Err(MapApi(TwoFactorChallenge(body))), calls + answered.calls)
       case Ok(Some(answer)) =>
         var resubmitted := calls + answered.calls + [Token(Some(answer))];
         match TokenCall(w, 1, Some(answer))
         case Ok(t) => Trace(Finish(su, w, p, t, master), resubmitted)
         case Err(TwoFactorChallenge(_)) => Trace(Err(Auth("")), resubmitted)
         case Err(e) => Trace(Err(MapApi(e)), resubmitted))
    case Err(e) => Trace(Err(MapApi(e)), calls)
  }

  // ---------- what a login can do ----------

  function TokenCalls(calls: seq<Call>): nat {
    if calls == [] then 0 else (if calls[0].Token? then 1 else 0) + TokenCalls(calls[1..])
  }

  function Ceremonies(calls: seq<Call>): nat {
    if calls == [] then 0 else (if calls[0].Ceremony? then 1 else 0) + Ceremonies(calls[1..])
  }

  lemma {:induction false} CountsAppend(a: seq<Call>, b: seq<Call>)
    ensures TokenCalls(a + b) == TokenCalls(a) + TokenCalls(b)
    ensures Ceremonies(a + b) == Ceremonies(a) + Ceremonies(b)
  {
    if a == [] {
      assert a + b == b;
    } else {
      assert (a + b)[1..] == a[1..] + b;
      CountsAppend(a[1..], b);
    }
  }

  /** The calls of one login are one of these. */
  ghost predicate Shape(calls: seq<Call>) {
    || calls == []
    || calls == [Prelogin]
    || (exists a :: calls == [Prelogin, Token(a)])
    || (exists a :: calls == [Prelogin, Token(a), Ceremony])
    || (exists a, b :: calls == [Prelogin, Token(a), Token(b)])
    || (exists a, b :: calls == [Prelogin, Token(a), Ceremony, Token(b)])
  }

  lemma CountOne(c: Call)
    ensures TokenCalls([c]) == (if c.Token? then 1 else 0) && Ceremonies([c]) == (if c.Ceremony? then 1 else 0)
  {
    assert [c][1..] == [];
  }

  lemma CountHead(calls: seq<Call>)
    requires calls != []
    ensures TokenCalls(calls) == (if calls[0].Token? then 1 else 0) + TokenCalls(calls[1..])
    ensures Ceremonies(calls) == (if calls[0].Ceremony? then 1 else 0) + Ceremonies(calls[1..])
  {}

  lemma ShapeCounts(calls: seq<Call>)
    requires Shape(calls)
    ensures TokenCalls(calls) <= 2 && Ceremonies(calls) <= 1
  {
    if |calls| >= 1 {
      hide TokenCalls, Ceremonies;
      CountHead(calls);
      if |calls| >= 2 { CountHead(calls[1..]); assert calls[1..][1..] == calls[2..]; }
      if |calls| == 4 { CountHead(calls[2..]); assert calls[2..][1..] == [calls[3]]; }
      CountLast(calls);
    }
  }

  lemma CountLast(calls: seq<Call>)
    requires calls != []
    ensures TokenCalls([]) == 0 && Ceremonies([]) == 0
    ensures calls[|calls| - 1..] == [calls[|calls| - 1]]
    ensures var c := calls[|calls| - 1];
            TokenCalls([c]) == (if c.Token? then 1 else 0) && Ceremonies([c]) == (if c.Ceremony? then 1 else 0)
  {
    CountOne(calls[|calls| - 1]);
  }

  lemma GrantsShape(su: Suite, w: World, p: Params, second: Option<Answer>, master: bytes)
    requires su.Valid()
    ensures Shape(Grants(su, w, p, second, master).calls)
    ensures |Grants(su, w, p, second, master).calls| >= 2
    ensures Grants(su, w, p, second, master).calls[1] == Token(FirstAnswer(w, second))
  {
    hide Finish, Classify, MapApi;
    var first := FirstAnswer(w, second);
    var r := TokenCall(w, 0, first);
    var calls := [Prelogin, Token(first)];
    if r.Err? && r.error.TwoFactorChallenge? {
      var answered := AnswerTwoFactor(w, r.error.body, second);
      if answered.calls == [] { assert calls + answered.calls == calls; }
      if answered.result.Ok? && answered.result.value.Some? {
        var b := answered.result.value;
        if answered.calls == [] {
          assert calls + answered.calls + [Token(b)] == [Prelogin, Token(first), Token(b)];
        } else {
          assert calls + answered.calls + [Token(b)] == [Prelogin, Token(first), Ceremony, Token(b)];
        }
      } else if answered.calls != [] {
        assert calls + answered.calls == [Prelogin, Token(first), Ceremony];
      }
    }
  }

  /** One login makes at most two token calls and one ceremony. */
  lemma LoginIsBounded(su: Suite, w: World, p: Params)
    requires su.Valid()
    ensures var calls := LogIn(su, w, p).calls; Shape(calls) && TokenCalls(calls) <= 2 && Ceremonies(calls) <= 1
  {
    hide Grants, Classify, MapApi, TagToWire;
    var calls := LogIn(su, w, p).calls;
    var kdf := Classify(w.json, w.json, w.prelogin);
    if (p.second.Some? ==> TagToWire(p.second.value.tag).Some?)
       && kdf.Ok? && w.masterKey(p.password, p.account, kdf.value).Ok? {
      var second: Option<Answer> :=
        if p.second.None? then None else Some((TagToWire(p.second.value.tag).value, p.second.value.code));
      GrantsShape(su, w, p, second, w.masterKey(p.password, p.account, kdf.value).value);
    }
    ShapeCounts(calls);
  }

  /** A login that selects the security key sends its first grant bare. */
  lemma KeyLoginStartsBare(su: Suite, w: World, p: Params)
    requires su.Valid() && w.hardware && p.second.Some? && TagToWire(p.second.value.tag) == Some(7)
    ensures var calls := LogIn(su, w, p).calls; |calls| >= 2 ==> calls[1] == Token(None)
  {
    hide Grants, Classify, MapApi, TagToWire;
    var kdf := Classify(w.json, w.json, w.prelogin);
    if kdf.Ok? && w.masterKey(p.password, p.account, kdf.value).Ok? {
      GrantsShape(su, w, p, Some((7, p.second.value.code)), w.masterKey(p.password, p.account, kdf.value).value);
    }
  }

  /** The first grant carries the factor as it was given, a security key that can be asked aside. */
  lemma FirstGrantCarries(su: Suite, w: World, p: Params)
    requires su.Valid() && p.second.Some? && TagToWire(p.second.value.tag).Some?
    ensures var id, calls := TagToWire(p.second.value.tag).value, LogIn(su, w, p).calls;
            |calls| >= 2 && !(id == 7 && w.hardware) ==> calls[1] == Token(Some((id, p.second.value.code)))
  {
    hide Grants, Classify, MapApi, TagToWire;
    var kdf := Classify(w.json, w.json, w.prelogin);
    if kdf.Ok? && w.masterKey(p.password, p.account, kdf.value).Ok? {
      GrantsShape(su, w, p, Some((TagToWire(p.second.value.tag).value, p.second.value.code)),
                  w.masterKey(p.password, p.account, kdf.value).value);
    }
  }

  /** Only codes and, in a build that can ask it, a security key are sent again after a challenge. */
  lemma OthersAreNotResent(su: Suite, w: World, p: Params)
    requires su.Valid() && p.second.Some? && TagToWire(p.second.value.tag).Some?
    ensures var id := TagToWire(p.second.value.tag).value;
            id !in {0, 1} && !(id == 7 && w.hardware) ==> |LogIn(su, w, p).calls| <= 2
  {
    hide Classify, MapApi, TagToWire, Finish;
  }

  /** Only a challenge becomes `TwoFactorRequired`. */
  lemma ChallengeIff<T>(json: string -> Option<Json>, read: string -> Option<T>, reply: Reply)
    ensures var r := Classify(json, read, reply); IsChallenge(reply) <==> r.Err? && MapApi(r.error).TwoFactorRequired?
  {
    hide Offered;
  }

  lemma UnwrapFailsAsCrypto(su: Suite, master: bytes)
    requires su.Valid()
    ensures forall enc: string :: UnwrapUserKey(su, enc, master).Err? ==> UnwrapUserKey(su, enc, master).error.CryptoFailure?
  {
    hide Parse, DecryptSymmetric;
  }

  lemma GrantsChallengeIff(su: Suite, w: World, p: Params, second: Option<Answer>, master: bytes)
    requires su.Valid()
    ensures var r := Grants(su, w, p, second, master).result;
            r.Err? && r.error.TwoFactorRequired? <==> second.None? && IsChallenge(w.token(0, None))
  {
    hide Offered, UnwrapUserKey, IsChallenge;
    var first := FirstAnswer(w, second);
    ChallengeIff(w.json, w.readToken, w.token(0, first));
    UnwrapFailsAsCrypto(su, master);
    var r := TokenCall(w, 0, first);
    if r.Err? && r.error.TwoFactorChallenge? {
      var answered := AnswerTwoFactor(w, r.error.body, second);
      if answered.result.Ok? && answered.result.value.Some? {
        var t := TokenCall(w, 1, answered.result.value);
        assert t.Err? && !t.error.TwoFactorChallenge? ==> !MapApi(t.error).TwoFactorRequired?;
      }
      assert MapApi(r.error).TwoFactorRequired?;
    } else {
      assert r.Err? ==> !MapApi(r.error).TwoFactorRequired?;
    }
  }

  /** A login asks for a second factor exactly when prelogin was challenged, or it carried none
      and its grant was challenged. One that carries a factor asks again only because of prelogin. */
  lemma AsksForFactorIff(su: Suite, w: World, p: Params)
    requires su.Valid() && (p.second.Some? ==> TagToWire(p.second.value.tag).Some?)
    ensures var r := LogIn(su, w, p).result;
            var kdf := Classify(w.json, w.json, w.prelogin);
            r.Err? && r.error.TwoFactorRequired? <==>
              || IsChallenge(w.prelogin)
              || (kdf.Ok? && w.masterKey(p.password, p.account, kdf.value).Ok? && p.second.None? && IsChallenge(w.token(0, None)))
  {
    hide Grants, Classify, TagToWire, IsChallenge, MapApi;
    ChallengeIff(w.json, w.json, w.prelogin);
    var kdf := Classify(w.json, w.json, w.prelogin);
    if kdf.Ok? && w.masterKey(p.password, p.account, kdf.value).Ok? {
      var second: Option<Answer> :=
        if p.second.None? then None else Some((TagToWire(p.second.value.tag).value, p.second.value.code));
      GrantsChallengeIff(su, w, p, second, w.masterKey(p.password, p.account, kdf.value).value);
    }
  }

  lemma GrantsOfCode(su: Suite, w: World, p: Params, master: bytes, id: nat, code: string)
    requires su.Valid() && (id == 0 || id == 1)
    ensures Grants(su, w, p, Some((id, code)), master).calls ==
            [Prelogin, Token(Some((id, code)))] + if IsChallenge(w.token(0, Some((id, code)))) then [Token(Some((id, code)))] else []
  {
    hide Offered, UnwrapUserKey, IsChallenge;
    ChallengeIff(w.json, w.readToken, w.token(0, Some((id, code))));
    assert [Prelogin, Token(Some((id, code)))] + [] == [Prelogin, Token(Some((id, code)))];
  }

  /** The calls of every login with a code factor: the prelogin; a grant with the code if the
      prelogin gave a master key; and the same code once more, unchanged, if that was challenged. */
  lemma ChallengedCodeIsResent(su: Suite, w: World, p: Params)
    requires su.Valid() && p.second.Some? && TagToWire(p.second.value.tag) in {Some(0), Some(1)}
    ensures var sent: Answer := (TagToWire(p.second.value.tag).value, p.second.value.code);
            var kdf := Classify(w.json, w.json, w.prelogin);
            LogIn(su, w, p).calls ==
              [Prelogin]
              + (if kdf.Ok? && w.masterKey(p.password, p.account, kdf.value).Ok? then [Token(Some(sent))] else [])
              + (if kdf.Ok? && w.masterKey(p.password, p.account, kdf.value).Ok? && IsChallenge(w.token(0, Some(sent)))
                 then [Token(Some(sent))] else [])
  {
    hide Grants, Classify, MapApi, TagToWire, IsChallenge;
    var sent: Answer := (TagToWire(p.second.value.tag).value, p.second.value.code);
    var kdf := Classify(w.json, w.json, w.prelogin);
    assert [Prelogin] + [] + [] == [Prelogin];
    if kdf.Ok? && w.masterKey(p.password, p.account, kdf.value).Ok? {
      GrantsOfCode(su, w, p, w.masterKey(p.password, p.account, kdf.value).value, sent.0, sent.1);
      assert [Prelogin] + [Token(Some(sent))] == [Prelogin, Token(Some(sent))];
    }
  }

  /** A session that login returns names the account and holds a whole user key. */
  lemma LoginSession(su: Suite, w: World, p: Params)
    requires su.Valid() && LogIn(su, w, p).result.Ok?
    ensures var s := LogIn(su, w, p).result.value;
            s.account == Some(p.account) && SessionUserKey(s).Ok? && SessionUserKey(s).value.Valid()
  {
    hide Classify, MapApi, TagToWire, AnswerTwoFactor, DecryptSymmetric, Parse, Encode, Decode, SessionUserKey;
    forall t: TokenResponse, master: bytes | Finish(su, w, p, t, master).Ok?
      ensures var s := Finish(su, w, p, t, master).value; s.account == Some(p.account) && SessionUserKey(s).Ok?
                                                          && SessionUserKey(s).value.Valid()
    {
      var k := UnwrapUserKey(su, t.key, master).value;
      SessionUserKeyOf(Finish(su, w, p, t, master).value, k);
    }
  }

  // ---------- the command ----------

  datatype CliOutcome = LoggedIn(session: VwSession) | Stopped

  /** `cryptile login`: one bare login; when it is challenged, one more with the chosen factor.
      `code` is what the operator supplies for a code factor, if anything. */
  function CliLogin(su: Suite, w1: World, w2: World, account: string, password: string,
                    preference: Option<string>, code: Option<string>): (CliOutcome, seq<Call>)
    requires su.Valid()
  {
    var first := LogIn(su, w1, Params(account, password, None));
    match first.result
    case Ok(s) => (LoggedIn(s), first.calls)
    case Err(TwoFactorRequired(offered)) =>
      (match Pick(offered, preference, w1.hardware)
       case Err(_) => (Stopped, first.calls)
       case Ok(tag) =>
         if tag != "webauthn" && code.None? then (Stopped, first.calls)
         else
           var factor := SecondFactor(tag, if tag == "webauthn" then "" else code.value);
           var again := LogIn(su, w2, Params(account, password, Some(factor)));
           (match again.result case Ok(s) => LoggedIn(s) case Err(_) => Stopped, first.calls + again.calls))
    case Err(_) => (Stopped, first.calls)
  }

  lemma BareLoginCounts(su: Suite, w: World, p: Params)
    requires su.Valid() && p.second.None?
    ensures TokenCalls(LogIn(su, w, p).calls) <= 1 && Ceremonies(LogIn(su, w, p).calls) == 0
  {
    hide Classify, MapApi, UnwrapUserKey, TokenCalls, Ceremonies;
    var calls := LogIn(su, w, p).calls;
    CountOne(Prelogin);
    CountOne(Token(None));
    CountsAppend([Prelogin], [Token(None)]);
    assert [Prelogin] + [Token(None)] == [Prelogin, Token(None)];
    assert [Prelogin, Token(None)] + [] == [Prelogin, Token(None)];
    assert calls == [Prelogin] || calls == [Prelogin, Token(None)];
  }

  /** Whatever the server answers, the command makes at most three token calls and one ceremony. */
  lemma CliLoginIsBounded(su: Suite, w1: World, w2: World, account: string, password: string,
                          preference: Option<string>, code: Option<string>)
    requires su.Valid()
    ensures var calls := CliLogin(su, w1, w2, account, password, preference, code).1;
            TokenCalls(calls) <= 3 && Ceremonies(calls) <= 1
  {
    hide LogIn, Pick;
    var p := Params(account, password, None);
    BareLoginCounts(su, w1, p);
    var first := LogIn(su, w1, p);
    if first.result.Err? && first.result.error.TwoFactorRequired? {
      var tag := Pick(first.result.error.providers, preference, w1.hardware);
      if tag.Ok? && (tag.value == "webauthn" || code.Some?) {
        var factor := SecondFactor(tag.value, if tag.value == "webauthn" then "" else code.value);
        var again := Params(account, password, Some(factor));
        LoginIsBounded(su, w2, again);
        CountsAppend(first.calls, LogIn(su, w2, again).calls);
      }
    }
  }

  // ---------- what a login answers ----------

  /** Section 2.3 of RFC 5869 for one block: each half of the stretched key is one HMAC under the
      master key, over its label in ASCII and the counter 1. */
  lemma StretchedIs(su: Suite, master: bytes)
    requires su.Valid()
    ensures Stretched(su, master).enc == su.hmac(master, ['e' as int, 'n' as int, 'c' as int] + [1])
    ensures Stretched(su, master).mac == su.hmac(master, ['m' as int, 'a' as int, 'c' as int] + [1])
  {
    hide Hkdf.Blocks;
    forall info: bytes ensures Hkdf.Expand(su, master, info, 32) == su.hmac(master, info + [1]) { OneBlock(su, master, info); }
    assert INFO_ENC == ['e' as int, 'n' as int, 'c' as int] && INFO_MAC == ['m' as int, 'a' as int, 'c' as int];
  }

  lemma OneBlock(su: Suite, key: bytes, info: bytes)
    requires su.Valid()
    ensures Hkdf.Expand(su, key, info, 32) == su.hmac(key, info + [1])
  {
    hide Hkdf.Blocks, Hkdf.T;
    FirstBlock(su, key, info);
    Hkdf.BlocksPrefix(su, key, info, 1, 255);
    Hkdf.BlocksSize(su, key, info, 255);
  }

  lemma FirstBlock(su: Suite, key: bytes, info: bytes)
    requires su.Valid()
    ensures Hkdf.Blocks(su, key, info, 1) == su.hmac(key, info + [1])
  {
    assert Hkdf.T(su, key, info, 0) == [] && Hkdf.Blocks(su, key, info, 0) == [];
    assert [] + info + [1] == info + [1];
    assert Hkdf.T(su, key, info, 1) == su.hmac(key, info + [1]);
    assert [] + Hkdf.T(su, key, info, 1) == Hkdf.T(su, key, info, 1);
  }

  /** The user key is exactly what the protected key opens to under the stretched master key. */
  lemma UnwrapIff(su: Suite, enc: string, master: bytes, k: SymmetricKey)
    requires su.Valid()
    ensures UnwrapUserKey(su, enc, master) == Ok(k) <==> k.Valid() && Open(su, enc, Stretched(su, master)) == Ok(k.enc + k.mac)
  {
    hide Parse, DecryptSymmetric, Stretched;
    if k.Valid() { From64Blob(k); }
    if Open(su, enc, Stretched(su, master)).Ok? {
      var blob := Open(su, enc, Stretched(su, master)).value;
      if From64(blob) == Ok(k) { assert k.enc + k.mac == blob; }
    }
  }

  /** The master key of a login: of its password and account, and the parameters prelogin served. */
  function MasterOf(w: World, p: Params): Option<bytes> {
    match Classify(w.json, w.json, w.prelogin)
    case Err(_) => None
    case Ok(kdf) => (match w.masterKey(p.password, p.account, kdf) case Err(_) => None case Ok(m) => Some(m))
  }

  /** A session holds the tokens of a grant's reply, the user key its protected key opens to, the
      account, and the lifetime counted from now. */
  ghost predicate SessionFrom(su: Suite, w: World, p: Params, t: TokenResponse, s: VwSession)
    requires su.Valid()
  {
    && MasterOf(w, p).Some?
    && s.accessToken == t.accessToken && s.refreshToken == t.refreshToken && s.account == Some(p.account)
    && s.expiresAt == (if w.now.Some? then Some(w.now.value + t.expiresIn) else None)
    && exists k: SymmetricKey :: k.Valid() && Open(su, t.key, Stretched(su, MasterOf(w, p).value)) == Ok(k.enc + k.mac)
                                 && s.userKeyB64 == Encode(Standard, k.enc + k.mac)
  }

  lemma FinishIff(su: Suite, w: World, p: Params, t: TokenResponse, s: VwSession)
    requires su.Valid() && MasterOf(w, p).Some?
    ensures Finish(su, w, p, t, MasterOf(w, p).value) == Ok(s) <==> SessionFrom(su, w, p, t, s)
  {
    hide UnwrapUserKey, Stretched, Open, MasterOf, Encode;
    var master := MasterOf(w, p).value;
    var r := UnwrapUserKey(su, t.key, master);
    if r.Ok? { UnwrapIff(su, t.key, master, r.value); }
    forall k: SymmetricKey | k.Valid() && Open(su, t.key, Stretched(su, master)) == Ok(k.enc + k.mac)
      ensures r == Ok(k)
    {
      UnwrapIff(su, t.key, master, k);
    }
  }

  /** The reply the last grant met. */
  function LastReply(w: World, calls: seq<Call>): Reply
    requires calls != [] && calls[|calls| - 1].Token? && TokenCalls(calls) >= 1
  {
    w.token(TokenCalls(calls) - 1, calls[|calls| - 1].second)
  }

  /** A session comes of the last grant's reply: a 2xx that reads as tokens whose key opens. */
  lemma LoginSessionIs(su: Suite, w: World, p: Params)
    requires su.Valid() && LogIn(su, w, p).result.Ok?
    ensures var r := LogIn(su, w, p);
            && r.calls != [] && r.calls[|r.calls| - 1].Token?
            && TokenCalls(r.calls) >= 1
            && var reply := LastReply(w, r.calls);
            && reply.Reply? && 200 <= reply.status < 300 && w.readToken(reply.body).Some?
            && SessionFrom(su, w, p, w.readToken(reply.body).value, r.result.value)
  {
    hide Finish, Classify, MapApi, TagToWire, TokenCalls, SessionFrom, IsChallenge;
    var second: Option<Answer> :=
      if p.second.None? then None else Some((TagToWire(p.second.value.tag).value, p.second.value.code));
    var r := LogIn(su, w, p);
    assert r == Grants(su, w, p, second, MasterOf(w, p).value);
    GrantsSession(su, w, p, second);
  }

  lemma GrantsSession(su: Suite, w: World, p: Params, second: Option<Answer>)
    requires su.Valid() && MasterOf(w, p).Some? && Grants(su, w, p, second, MasterOf(w, p).value).result.Ok?
    ensures var r := Grants(su, w, p, second, MasterOf(w, p).value);
            && r.calls != [] && r.calls[|r.calls| - 1].Token? && TokenCalls(r.calls) >= 1
            && var reply := LastReply(w, r.calls);
            && reply.Reply? && 200 <= reply.status < 300 && w.readToken(reply.body).Some?
            && SessionFrom(su, w, p, w.readToken(reply.body).value, r.result.value)
  {
    hide Finish, MapApi, MasterOf, TokenCalls, SessionFrom, Classify;
    var first := FirstAnswer(w, second);
    var calls := [Prelogin, Token(first)];
    CallCounts(first);
    match TokenCall(w, 0, first)
    case Ok(t) =>
      SuccessIff(w.json, w.readToken, w.token(0, first), t);
      FinishIff(su, w, p, t, Grants(su, w, p, second, MasterOf(w, p).value).result.value);
    case Err(e) =>
      var answered := AnswerTwoFactor(w, e.body, second);
      var answer := answered.result.value.value;
      var t := TokenCall(w, 1, Some(answer)).value;
      ResubmitCounts(first, answered.calls, answer);
      SuccessIff(w.json, w.readToken, w.token(1, Some(answer)), t);
      FinishIff(su, w, p, t, Grants(su, w, p, second, MasterOf(w, p).value).result.value);
  }

  lemma CallCounts(first: Option<Answer>)
    ensures TokenCalls([Prelogin, Token(first)]) == 1
  {
    CountOne(Prelogin);
    CountOne(Token(first));
    CountsAppend([Prelogin], [Token(first)]);
    assert [Prelogin] + [Token(first)] == [Prelogin, Token(first)];
  }

  lemma ResubmitCounts(first: Option<Answer>, between: seq<Call>, answer: Answer)
    requires between == [] || between == [Ceremony]
    ensures TokenCalls([Prelogin, Token(first)] + between + [Token(Some(answer))]) == 2
  {
    hide TokenCalls, Ceremonies;
    CallCounts(first);
    CountOne(Ceremony);
    CountOne(Token(Some(answer)));
    CountsAppend([Prelogin, Token(first)], between);
    CountsAppend([Prelogin, Token(first)] + between, [Token(Some(answer))]);
    NoCalls();
  }

  lemma NoCalls()
    ensures TokenCalls([]) == 0 && Ceremonies([]) == 0
  {}

  /** The error a challenge ends in: the request for a factor when none was carried, and a refusal
      otherwise. */
  predicate ChallengeEnds(w: World, reply: Reply, second: Option<Answer>, e: ProviderError) {
    if second.None? then reply.Reply? && e == TwoFactorRequired(Offered(w.json(reply.body))) else e == Auth("")
  }

  /** The ceremony on that challenge failed, and the error is of its kind. */
  predicate CeremonyEnds(w: World, reply: Reply, e: ProviderError) {
    && reply.Reply?
    && match w.ceremony(w.json(reply.body))
       case Ok(_) => false
       case Err(CeremonyAuth) => e == Auth("")
       case Err(CeremonyTransport) => e == Transport("")
       case Err(CeremonyServer) => e == Server("")
  }

  /** What a failed grant stage reports, by its last call. */
  lemma GrantsFailAs(su: Suite, w: World, p: Params, second: Option<Answer>, master: bytes)
    requires su.Valid() && Grants(su, w, p, second, master).result.Err?
    ensures var r := Grants(su, w, p, second, master); var e := r.result.error;
            match r.calls[|r.calls| - 1]
            case Prelogin => false
            case Ceremony => CeremonyEnds(w, w.token(0, FirstAnswer(w, second)), e)
            case Token(_) =>
              && TokenCalls(r.calls) >= 1
              && var reply := LastReply(w, r.calls);
              && var c := Classify(w.json, w.readToken, reply);
              && (c.Ok? ==> e.CryptoFailure?)
              && (c.Err? && !IsChallenge(reply) ==> e == MapApi(c.error))
              && (IsChallenge(reply) ==> ChallengeEnds(w, reply, second, e))
  {
    hide Finish, TokenCalls, Offered, UnwrapUserKey, IsChallenge;
    UnwrapFailsAsCrypto(su, master);
    FinishFailsAsCrypto(su, w, p, master);
    hide Classify;
    var first := FirstAnswer(w, second);
    CallCounts(first);
    ChallengeClassified(w, w.token(0, first));
    var r := TokenCall(w, 0, first);
    if r.Err? && r.error.TwoFactorChallenge? {
      var answered := AnswerTwoFactor(w, r.error.body, second);
      var calls := [Prelogin, Token(first)];
      assert calls + [] == calls;
      if answered.result.Ok? && answered.result.value.Some? {
        ResubmitCounts(first, answered.calls, answered.result.value.value);
        ChallengeClassified(w, w.token(1, answered.result.value));
      }
    }
  }

  lemma ChallengeClassified(w: World, reply: Reply)
    ensures var c := Classify(w.json, w.readToken, reply);
            if IsChallenge(reply) then reply.Reply? && c == Err(TwoFactorChallenge(w.json(reply.body)))
            else c.Err? ==> !c.error.TwoFactorChallenge?
  {}

  lemma FinishFailsAsCrypto(su: Suite, w: World, p: Params, master: bytes)
    requires su.Valid()
    ensures forall t: TokenResponse :: Finish(su, w, p, t, master).Err? ==> Finish(su, w, p, t, master).error.CryptoFailure?
  {
    hide UnwrapUserKey;
    UnwrapFailsAsCrypto(su, master);
  }

  /** What a failed login reports, by its last call: nothing is asked for a factor without a wire
      id; a prelogin or a grant that fails is reported as its reply; a challenge as above; a key
      that does not open as such. */
  lemma LoginFailsAs(su: Suite, w: World, p: Params)
    requires su.Valid() && LogIn(su, w, p).result.Err?
    ensures var r := LogIn(su, w, p); var e := r.result.error;
            if r.calls == [] then p.second.Some? && TagToWire(p.second.value.tag).None? && e == Server("")
            else
              match r.calls[|r.calls| - 1]
              case Prelogin =>
                (match Classify(w.json, w.json, w.prelogin) case Err(x) => e == MapApi(x) case Ok(_) => e.CryptoFailure?)
              case Ceremony => p.second.Some? && CeremonyEnds(w, w.token(0, None), e)
              case Token(_) =>
                && TokenCalls(r.calls) >= 1
                && var reply := LastReply(w, r.calls);
                && var c := Classify(w.json, w.readToken, reply);
                && (c.Ok? ==> e.CryptoFailure?)
                && (c.Err? && !IsChallenge(reply) ==> e == MapApi(c.error))
                && (IsChallenge(reply) ==>
                      if p.second.None? then reply.Reply? && e == TwoFactorRequired(Offered(w.json(reply.body))) else e == Auth(""))
  {
    hide Grants, Classify, MapApi, TagToWire, IsChallenge, Offered, TokenCalls;
    var kdf := Classify(w.json, w.json, w.prelogin);
    if (p.second.Some? ==> TagToWire(p.second.value.tag).Some?)
       && kdf.Ok? && w.masterKey(p.password, p.account, kdf.value).Ok? {
      var second: Option<Answer> :=
        if p.second.None? then None else Some((TagToWire(p.second.value.tag).value, p.second.value.code));
      var master := w.masterKey(p.password, p.account, kdf.value).value;
      GrantsFailAs(su, w, p, second, master);
      GrantsShape(su, w, p, second, master);
      CeremonyIsForKeys(su, w, p, second, master);
    }
  }

  lemma CeremonyIsForKeys(su: Suite, w: World, p: Params, second: Option<Answer>, master: bytes)
    requires su.Valid()
    ensures var calls := Grants(su, w, p, second, master).calls;
            calls[|calls| - 1].Ceremony? ==> second.Some? && FirstAnswer(w, second) == None
  {
    hide Finish, Classify, MapApi;
    var first := FirstAnswer(w, second);
    assert [Prelogin, Token(first)] + [] == [Prelogin, Token(first)];
  }

  /** A security key is answered with the token of the ceremony on the challenge that came back,
      under its own wire id. */
  lemma KeyLoginSends(su: Suite, w: World, p: Params)
    requires su.Valid() && w.hardware && p.second.Some? && TagToWire(p.second.value.tag) == Some(7)
    ensures var calls := LogIn(su, w, p).calls;
            |calls| >= 3 ==>
              && IsChallenge(w.token(0, None)) && calls[..3] == [Prelogin, Token(None), Ceremony]
              && var answer := w.ceremony(w.json(w.token(0, None).body));
              && (|calls| == 4 <==> answer.Ok?) && (|calls| == 4 ==> calls[3] == Token(Some((7, answer.value))))
  {
    hide Finish, MapApi, IsChallenge;
    ChallengeIff(w.json, w.readToken, w.token(0, None));
    var calls := [Prelogin, Token(None)];
    assert calls + [Ceremony] == [Prelogin, Token(None), Ceremony];
  }

  /** The command logs in exactly when its bare login does, or was asked for a factor, one could be
      chosen and, unless it is a security key, a code was given, and the login with them succeeds. */
  lemma CliLoginIff(su: Suite, w1: World, w2: World, account: string, password: string,
                    preference: Option<string>, code: Option<string>, s: VwSession)
    requires su.Valid()
    ensures CliLogin(su, w1, w2, account, password, preference, code).0 == LoggedIn(s) <==>
              var first := LogIn(su, w1, Params(account, password, None)).result;
              || first == Ok(s)
              || exists tag, typed ::
                   && first.Err? && first.error.TwoFactorRequired?
                   && Pick(first.error.providers, preference, w1.hardware) == Ok(tag)
                   && (if tag == "webauthn" then typed == "" else code == Some(typed))
                   && LogIn(su, w2, Params(account, password, Some(SecondFactor(tag, typed)))).result == Ok(s)
  {
    hide LogIn, Pick;
    var first := LogIn(su, w1, Params(account, password, None)).result;
    if first.Err? && first.error.TwoFactorRequired? {
      var tag := Pick(first.error.providers, preference, w1.hardware);
      if tag.Ok? && (tag.value == "webauthn" || code.Some?) {
        var typed := if tag.value == "webauthn" then "" else code.value;
        assert LogIn(su, w2, Params(account, password, Some(SecondFactor(tag.value, typed)))).result == Ok(s)
               ==> CliLogin(su, w1, w2, account, password, preference, code).0 == LoggedIn(s);
      }
    }
  }
}
