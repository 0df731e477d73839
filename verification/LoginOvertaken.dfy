/** A command that began under one login reseals over the next one: a run in full. */
module LoginOvertaken {
  import opened Results
  import opened Base64
  import opened Crypto
  import opened EncStrings
  import opened TwoFactor
  import opened Mapping
  import opened Api
  import opened Vault
  import opened Sessions
  import opened Login
  import opened SessionRuns

  /** A server that asks for no factor; every account has the user key `k`. */
  function Lenient(su: Suite, k: SymmetricKey, iv: bytes): World
    requires su.Valid()
  {
    World(Reply.Reply(200, ""), (n: nat, a: Option<Answer>) => Reply.Reply(200, ""), (b: Option<Json>) => Err(CeremonyServer),
          (t: string) => Some(Json.Null), (t: string) => Some(Granted(PrintType2(su, iv, k.Blob(), Stretched(su, [])))),
          (p: string, a: string, j: Json) => Ok([]), None, false)
  }

  function Granted(key: string): TokenResponse { TokenResponse("old", Some("r"), 0, key) }

  function First(k: SymmetricKey, account: string): VwSession {
    VwSession("old", Some("r"), Encode(Standard, k.Blob()), Some(account), None)
  }

  function Renewed(k: SymmetricKey, account: string): VwSession { First(k, account).(accessToken := "new") }

  lemma LogsInAs(su: Suite, k: SymmetricKey, iv: bytes, account: string)
    requires su.Valid() && k.Valid() && |iv| == 16
    ensures CameFromLogin(su, First(k, account), account)
  {
    hide UnwrapUserKey, Stretched, PrintType2, Encode;
    var w, p := Lenient(su, k, iv), Params(account, "", None);
    ProtectedKeyUnwraps(su, [], iv, k);
    assert LogIn(su, w, p).result == Ok(First(k, account));
  }

  /** How the example's token replies are read: a new access token, no new refresh token. */
  function Renewing(): Tokens {
    Tokens((t: string) => Some(Json.Null), (t: string) => Some(TokenResponse("new", None, 0, "")))
  }

  function Item(): Secret { Secret(SecretMeta("x", "n", "", ["f"]), map["f" := "v"]) }

  /** A provider that refuses the first token and serves after a refresh. */
  function Expiring(): Ops.Backend {
    Ops.Backend((s: VwSession) => None,
                (at: nat, s: VwSession) => RefreshSession(s, Renewing().json, Renewing().read, Reply.Reply(200, ""), None),
                (at: nat, s: VwSession) => Err(AuthExpired), (at: nat, s: VwSession, ns: Namespace) => Err(AuthExpired),
                (at: nat, s: VwSession, ns: Namespace) => Err(AuthExpired),
                (at: nat, s: VwSession, locus: string) => if at == 0 then Err(AuthExpired) else Ok(Item()))
  }

  lemma GetRenews(k: SymmetricKey, account: string)
    ensures CameFromCommand(Renewing().json, Renewing().read, First(k, account), Renewed(k, account))
  {
    hide Encode;
    var p, s, s' := Expiring(), First(k, account), Renewed(k, account);
    forall at: nat, x: VwSession | p.refresh(at, x).Ok? ensures RefreshedFrom(Renewing().json, Renewing().read, x, p.refresh(at, x).value) {
      assert RefreshSession(x, Renewing().json, Renewing().read, Reply.Reply(200, ""), None) == Ok(p.refresh(at, x).value);
    }
    assert p.refresh(1, s) == Ok(s');
    assert Ops.EnsureFresh(p, 0, s) == (s, []);
    assert p.secret(0, s, "A/n") == Err(AuthExpired) && p.secret(2, s', "A/n") == Ok(Item());
    assert "f" in Item().fields && Ops.Selected(Item(), Some("f")) == Some("v");
    assert Reports(Ops.Get(p, 0, s, "A/n", Some("f")), s');
    assert RefreshesProperly(p, Renewing().json, Renewing().read) && Returned(p, s, s');
  }

  function Line(su: Suite, codec: JsonCodec<VwSession>, s: VwSession, salt: bytes, iv: bytes): string {
    match Keyring.Sealed(su, codec.write(s), "pw", salt, iv) case Ok(line) => line case Err(_) => ""
  }

  /** Login as `a`; a get begins; login as `b`; the get ends. */
  function Run(su: Suite, codec: JsonCodec<VwSession>, k: SymmetricKey, salt: bytes, iv: bytes): seq<Machine> {
    var a, b := First(k, "a"), First(k, "b");
    var loginA, loginB := Done(a.userKeyB64, "a", "pw"), Done(b.userKeyB64, "b", "pw");
    var get := Running(a, loginA);
    [Machine(None, [], None, {}),
     Machine(Some(Line(su, codec, a, salt, iv)), [loginA], Some(loginA), {}),
     Machine(Some(Line(su, codec, a, salt, iv)), [loginA], Some(loginA), {get}),
     Machine(Some(Line(su, codec, b, salt, iv)), [loginA, loginB], Some(loginB), {get}),
     Machine(Some(Line(su, codec, Renewed(k, "a"), salt, iv)), [loginA, loginB], Some(loginA), {})]
  }

  lemma Seals(su: Suite, codec: JsonCodec<VwSession>, s: VwSession, salt: bytes, iv: bytes)
    requires su.Valid() && su.argon(su.utf8("pw"), salt).Some?
    ensures Keyring.Sealed(su, codec.write(s), "pw", salt, iv) == Ok(Line(su, codec, s, salt, iv))
  {}

  lemma LoginIsStep(su: Suite, codec: JsonCodec<VwSession>, k: SymmetricKey, account: string, salt: bytes, iv: bytes,
                    m: Machine, m': Machine)
    requires su.Valid() && k.Valid() && |iv| == 16 && su.argon(su.utf8("pw"), salt).Some?
    requires var s := First(k, account);
             var login := Done(s.userKeyB64, account, "pw");
             m' == Machine(Some(Line(su, codec, s, salt, iv)), m.logins + [login], Some(login), m.running)
    ensures LoginStep(su, codec, m, m')
  {
    hide Line, Keyring.Sealed, Encode, CameFromLogin;
    LogsInAs(su, k, iv, account);
    Seals(su, codec, First(k, account), salt, iv);
    assert LogsIn(su, codec, m, m', First(k, account), account, "pw", salt, iv);
  }

  /** The account `b` logged in last, and its login reported success; yet the keyring holds a session of `a`. */
  lemma OvertakenLoginIsLost(su: Suite, codec: JsonCodec<VwSession>, k: SymmetricKey, salt: bytes, iv: bytes)
    requires su.Valid() && Lossless(codec) && TightWriter(codec)
    requires k.Valid() && |iv| == 16 && su.argon(su.utf8("pw"), salt).Some?
    ensures var run := Run(su, codec, k, salt, iv);
            && IsRun(su, codec, Renewing(), run)
            && LastLogin(run[4]) == Some(Done(Encode(Standard, k.Blob()), "b", "pw"))
            && Unsealed(su, codec, run[4].keyring, "pw") == Some(Renewed(k, "a"))
            && !Faithful(su, codec, run[4])
  {
    hide Line, Keyring.Sealed, Keyring.Opened, Encode, CameFromCommand, LoginStep, SessionUserKey, Unsealed;
    var run, tokens := Run(su, codec, k, salt, iv), Renewing();
    var a, a', b := First(k, "a"), Renewed(k, "a"), First(k, "b");
    assert [] + run[1].logins == run[1].logins && run[1].logins + [run[3].logins[1]] == run[3].logins;
    LoginIsStep(su, codec, k, "a", salt, iv, run[0], run[1]);
    LoginIsStep(su, codec, k, "b", salt, iv, run[2], run[3]);
    Seals(su, codec, a, salt, iv);
    SealedUnseals(su, codec, a, "pw", salt, iv);
    assert BeginStep(su, codec, run[1], run[2]);
    GetRenews(k, "a");
    Seals(su, codec, a', salt, iv);
    SealedUnseals(su, codec, a', "pw", salt, iv);
    assert codec.read(codec.write(a)) != codec.read(codec.write(a'));
    var r := Running(a, run[1].logins[0]);
    assert run[3].running - {r} == {};
    assert Reseals(su, codec, run[3], run[4], r, a', salt, iv);
    assert FinishStep(su, codec, tokens, run[3], run[4]);
  }
}
