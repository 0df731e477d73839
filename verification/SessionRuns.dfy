/** Token refresh, and the keyring over whole runs of logins and commands. */
module SessionRuns {
  import opened Results
  import opened Text
  import opened Base64
  import opened Crypto
  import opened TwoFactor
  import opened Api
  import opened Sessions
  import opened Login
  import opened Ops
  import Keyring

  // ---------- refresh ----------

  /** `refresh_session`: new tokens, the same user key and account; a reply without a refresh
      token keeps the old one. */
  function RefreshSession(s: VwSession, json: string -> Option<Json>, read: string -> Option<TokenResponse>,
                          reply: Reply, now: Option<nat>): Result<VwSession, ProviderError> {
    if s.refreshToken.None? then Err(AuthExpired)
    else
      match Classify(json, read, reply)
      case Err(e) => Err(MapApi(e))
      case Ok(t) =>
        Ok(VwSession(t.accessToken, if t.refreshToken.Some? then t.refreshToken else s.refreshToken, s.userKeyB64, s.account,
                     if now.Some? then Some(now.value + t.expiresIn) else None))
  }

  /** What a refresh may not touch. */
  predicate Kept(s: VwSession, s': VwSession) {
    s'.userKeyB64 == s.userKeyB64 && s'.account == s.account && (s.refreshToken.Some? ==> s'.refreshToken.Some?)
  }

  /** Each session came from the one before it by a refresh, under some reply. */
  ghost predicate RefreshChain(json: string -> Option<Json>, read: string -> Option<TokenResponse>, chain: seq<VwSession>) {
    |chain| > 0 && forall i :: 0 <= i < |chain| - 1 ==> RefreshedFrom(json, read, chain[i], chain[i + 1])
  }

  ghost predicate RefreshedFrom(json: string -> Option<Json>, read: string -> Option<TokenResponse>, s: VwSession, s': VwSession) {
    exists reply, now :: RefreshSession(s, json, read, reply, now) == Ok(s')
  }

  /** However often it is refreshed, a session keeps its user key and account and never loses
      its refresh token. */
  lemma {:induction false} ChainKeeps(json: string -> Option<Json>, read: string -> Option<TokenResponse>,
                                      chain: seq<VwSession>, i: nat)
    requires RefreshChain(json, read, chain) && i < |chain|
    ensures Kept(chain[0], chain[i])
  {
    hide Classify, MapApi;
    if i > 0 {
      ChainKeeps(json, read, chain, i - 1);
      assert RefreshedFrom(json, read, chain[i - 1], chain[i - 1 + 1]);
    }
  }

  /** A backend whose refreshes are `refresh_session` under arbitrary replies. */
  ghost predicate RefreshesProperly(p: Backend, json: string -> Option<Json>, read: string -> Option<TokenResponse>) {
    forall at: nat, s: VwSession :: p.refresh(at, s).Ok? ==> RefreshedFrom(json, read, s, p.refresh(at, s).value)
  }

  /** `s'` is the session some command returned, started from `s`. */
  ghost predicate CameFromCommand(json: string -> Option<Json>, read: string -> Option<TokenResponse>,
                                  s: VwSession, s': VwSession) {
    exists p: Backend :: RefreshesProperly(p, json, read) && Returned(p, s, s')
  }

  ghost predicate Returned(p: Backend, s: VwSession, s': VwSession) {
    || (exists now, locus, explicit :: Reports(Ops.Get(p, now, s, locus, explicit), s'))
    || (exists now, name :: Reports(Ops.List(p, now, s, name), s'))
    || (exists now, name :: Reports(Ops.Export(p, now, s, name), s'))
  }

  predicate Reports<A(!new)>(r: Attempt<A>, s: VwSession) { r.result.Ok? && r.result.value.0 == s }

  lemma CommandKeeps(json: string -> Option<Json>, read: string -> Option<TokenResponse>, s: VwSession, s': VwSession)
    requires CameFromCommand(json, read, s, s')
    ensures Kept(s, s')
  {
    hide RefreshesProperly, Ops.Get, Ops.List, Ops.Export, Disciplined, Kept;
    var p: Backend :| RefreshesProperly(p, json, read) && Returned(p, s, s');
    if now, locus, explicit :| Reports(Ops.Get(p, now, s, locus, explicit), s') {
      CommandsAreDisciplined(p, now, s, locus, explicit, "");
      CommandKeepsSession(p, json, read, s, Ops.Get(p, now, s, locus, explicit));
    } else if now, name :| Reports(Ops.List(p, now, s, name), s') {
      CommandsAreDisciplined(p, now, s, "", None, if name.Some? then name.value else "");
      CommandKeepsSession(p, json, read, s, Ops.List(p, now, s, name));
    } else {
      var now, name :| Reports(Ops.Export(p, now, s, name), s');
      CommandsAreDisciplined(p, now, s, "", None, name);
      CommandKeepsSession(p, json, read, s, Ops.Export(p, now, s, name));
    }
  }

  /** The session a command returns has the user key and account it started with. */
  lemma CommandKeepsSession<A>(p: Backend, json: string -> Option<Json>, read: string -> Option<TokenResponse>,
                               s: VwSession, r: Attempt<A>)
    requires RefreshesProperly(p, json, read) && Disciplined(p, s, r) && r.result.Ok?
    ensures Kept(s, r.result.value.0)
  {
    hide Classify, MapApi, Refreshes, Attempts;
    var s' := r.result.value.0;
    if s' != s {
      var at: nat :| p.refresh(at, s) == Ok(s');
      assert RefreshedFrom(json, read, s, s');
    }
  }

  // ---------- the keyring over a run ----------

  /** A completed login. */
  datatype Done = Done(userKeyB64: string, account: string, passphrase: string)

  /** How token replies are read. */
  datatype Tokens = Tokens(json: string -> Option<Json>, read: string -> Option<TokenResponse>)

  /** A command between its unseal and its reseal: the session it unsealed, and the login that
      session is of. */
  datatype Running = Running(session: VwSession, login: Done)

  /** The keyring file, the logins completed so far, the one whose session the file holds, and the
      commands in flight. Nothing is locked. */
  datatype Machine = Machine(keyring: Option<string>, logins: seq<Done>, holder: Option<Done>, running: set<Running>)

  function LastLogin(m: Machine): Option<Done> { if m.logins == [] then None else Some(m.logins[|m.logins| - 1]) }

  /** A completed login seals its session; one that fails to seal or save changes nothing. */
  ghost predicate LoginStep(su: Suite, codec: JsonCodec<VwSession>, m: Machine, m': Machine)
    requires su.Valid()
  {
    exists s: VwSession, account: string, pass: string, salt: bytes, iv: bytes ::
      CameFromLogin(su, s, account) && |iv| == 16 && LogsIn(su, codec, m, m', s, account, pass, salt, iv)
  }

  ghost predicate LogsIn(su: Suite, codec: JsonCodec<VwSession>, m: Machine, m': Machine, s: VwSession, account: string,
                         pass: string, salt: bytes, iv: bytes) {
    var line := Keyring.Sealed(su, codec.write(s), pass, salt, iv);
    var login := Done(s.userKeyB64, account, pass);
    line.Ok? && m' == m.(keyring := Some(line.value), logins := m.logins + [login], holder := Some(login))
  }

  ghost predicate CameFromLogin(su: Suite, s: VwSession, account: string)
    requires su.Valid()
  {
    exists w: World, p: Params :: p.account == account && LogIn(su, w, p).result == Ok(s)
  }

  function Unsealed(su: Suite, codec: JsonCodec<VwSession>, keyring: Option<string>, pass: string): Option<VwSession> {
    if keyring.None? then None
    else (match Keyring.Opened(su, keyring.value, pass) case Err(_) => None case Ok(handle) => codec.read(handle))
  }

  /** A command starts: it unseals the keyring under the passphrase it was sealed with. */
  ghost predicate BeginStep(su: Suite, codec: JsonCodec<VwSession>, m: Machine, m': Machine) {
    && m.holder.Some?
    && var s := Unsealed(su, codec, m.keyring, m.holder.value.passphrase);
    && s.Some? && m' == m.(running := m.running + {Running(s.value, m.holder.value)})
  }

  /** A command ends: it may come back with a refreshed session, and reseals only a changed
      handle, under its own passphrase, over whatever the keyring holds by now. */
  ghost predicate FinishStep(su: Suite, codec: JsonCodec<VwSession>, tokens: Tokens, m: Machine, m': Machine) {
    exists r: Running :: r in m.running
      && (m' == m.(running := m.running - {r})
          || exists s': VwSession, salt: bytes, iv: bytes ::
               |iv| == 16 && CameFromCommand(tokens.json, tokens.read, r.session, s') && Reseals(su, codec, m, m', r, s', salt, iv))
  }

  ghost predicate Reseals(su: Suite, codec: JsonCodec<VwSession>, m: Machine, m': Machine, r: Running, s': VwSession,
                          salt: bytes, iv: bytes) {
    var line := Keyring.Sealed(su, codec.write(s'), r.login.passphrase, salt, iv);
    && codec.write(s') != codec.write(r.session) && line.Ok?
    && m' == m.(keyring := Some(line.value), holder := Some(r.login), running := m.running - {r})
  }

  ghost predicate Step(su: Suite, codec: JsonCodec<VwSession>, tokens: Tokens, m: Machine, m': Machine)
    requires su.Valid()
  {
    LoginStep(su, codec, m, m') || BeginStep(su, codec, m, m') || FinishStep(su, codec, tokens, m, m')
  }

  ghost predicate IsRun(su: Suite, codec: JsonCodec<VwSession>, tokens: Tokens, run: seq<Machine>)
    requires su.Valid()
  {
    && |run| > 0 && run[0] == Machine(None, [], None, {})
    && forall i :: 0 <= i < |run| - 1 ==> Step(su, codec, tokens, run[i], run[i + 1])
  }

  // ---------- what every run keeps ----------

  /** A session with the login's account and its whole user key. */
  predicate SessionOf(s: VwSession, l: Done) {
    s.userKeyB64 == l.userKeyB64 && s.account == Some(l.account) && SessionUserKey(s).Ok?
  }

  /** Under the passphrase it was sealed with, the keyring opens to a session of a completed login. */
  ghost predicate Sound(su: Suite, codec: JsonCodec<VwSession>, m: Machine) {
    && (m.logins != [] ==> m.holder.Some?)
    && (m.holder.Some? ==>
          && m.holder.value in m.logins
          && var s := Unsealed(su, codec, m.keyring, m.holder.value.passphrase); s.Some? && SessionOf(s.value, m.holder.value))
    && forall r :: r in m.running ==> r.login in m.logins && SessionOf(r.session, r.login)
  }

  /** The keyring opens, under the last login's passphrase, to a session of that login. */
  ghost predicate Faithful(su: Suite, codec: JsonCodec<VwSession>, m: Machine) {
    var l := LastLogin(m);
    l.Some? ==> var s := Unsealed(su, codec, m.keyring, l.value.passphrase); s.Some? && SessionOf(s.value, l.value)
  }

  lemma SealedUnseals(su: Suite, codec: JsonCodec<VwSession>, s: VwSession, pass: string, salt: bytes, iv: bytes)
    requires su.Valid() && Lossless(codec) && TightWriter(codec) && |iv| == 16
    requires Keyring.Sealed(su, codec.write(s), pass, salt, iv).Ok?
    ensures Unsealed(su, codec, Some(Keyring.Sealed(su, codec.write(s), pass, salt, iv).value), pass) == Some(s)
  {
    hide Keyring.Sealed, Keyring.Opened, Trim;
    Keyring.OpenOfSeal(su, codec.write(s), pass, salt, iv);
    TrimTight(codec.write(s));
  }

  lemma SameUserKey(s: VwSession, s': VwSession)
    requires s.userKeyB64 == s'.userKeyB64
    ensures SessionUserKey(s) == SessionUserKey(s')
  {}

  lemma ResealKeepsSound(su: Suite, codec: JsonCodec<VwSession>, tokens: Tokens, m: Machine, m': Machine, r: Running,
                         s': VwSession, salt: bytes, iv: bytes)
    requires su.Valid() && Lossless(codec) && TightWriter(codec) && |iv| == 16 && Sound(su, codec, m) && r in m.running
    requires CameFromCommand(tokens.json, tokens.read, r.session, s') && Reseals(su, codec, m, m', r, s', salt, iv)
    ensures Sound(su, codec, m')
    ensures Unsealed(su, codec, m'.keyring, r.login.passphrase) == Some(s') && SessionOf(s', r.login)
  {
    hide Keyring.Sealed, Unsealed, CameFromCommand, SessionUserKey;
    CommandKeeps(tokens.json, tokens.read, r.session, s');
    SameUserKey(r.session, s');
    SealedUnseals(su, codec, s', r.login.passphrase, salt, iv);
  }

  lemma LoginKeepsSound(su: Suite, codec: JsonCodec<VwSession>, m: Machine, m': Machine)
    requires su.Valid() && Lossless(codec) && TightWriter(codec) && Sound(su, codec, m) && LoginStep(su, codec, m, m')
    ensures Sound(su, codec, m')
  {
    hide Keyring.Sealed, Unsealed, LogIn, SessionUserKey;
    var s: VwSession, account: string, pass: string, salt: bytes, iv: bytes :|
      CameFromLogin(su, s, account) && |iv| == 16 && LogsIn(su, codec, m, m', s, account, pass, salt, iv);
    var w: World, p: Params :| p.account == account && LogIn(su, w, p).result == Ok(s);
    LoginSession(su, w, p);
    SealedUnseals(su, codec, s, pass, salt, iv);
    forall r | r in m'.running ensures r.login in m'.logins { assert r.login in m.logins; }
  }

  lemma StepKeepsSound(su: Suite, codec: JsonCodec<VwSession>, tokens: Tokens, m: Machine, m': Machine)
    requires su.Valid() && Lossless(codec) && TightWriter(codec) && Sound(su, codec, m) && Step(su, codec, tokens, m, m')
    ensures Sound(su, codec, m')
  {
    hide Unsealed, LoginStep, CameFromCommand, Reseals, SessionOf;
    if LoginStep(su, codec, m, m') {
      LoginKeepsSound(su, codec, m, m');
    } else if FinishStep(su, codec, tokens, m, m') {
      var r: Running :| r in m.running
        && (m' == m.(running := m.running - {r})
            || exists s': VwSession, salt: bytes, iv: bytes ::
                 |iv| == 16 && CameFromCommand(tokens.json, tokens.read, r.session, s') && Reseals(su, codec, m, m', r, s', salt, iv));
      if m' != m.(running := m.running - {r}) {
        var s': VwSession, salt: bytes, iv: bytes :|
          |iv| == 16 && CameFromCommand(tokens.json, tokens.read, r.session, s') && Reseals(su, codec, m, m', r, s', salt, iv);
        ResealKeepsSound(su, codec, tokens, m, m', r, s', salt, iv);
      }
    }
  }

  /** At every point of every run, logins and commands overlapping as they like, the keyring opens
      to a session that carries the whole user key and the account of a completed login. */
  lemma {:induction false} KeyringHoldsALogin(su: Suite, codec: JsonCodec<VwSession>, tokens: Tokens, run: seq<Machine>, i: nat)
    requires su.Valid() && Lossless(codec) && TightWriter(codec) && IsRun(su, codec, tokens, run) && i < |run|
    ensures Sound(su, codec, run[i])
  {
    hide Step;
    if i > 0 {
      KeyringHoldsALogin(su, codec, tokens, run, i - 1);
      assert Step(su, codec, tokens, run[i - 1], run[i - 1 + 1]);
      StepKeepsSound(su, codec, tokens, run[i - 1], run[i]);
    }
  }

  predicate SameUser(a: Done, b: Done) { a.userKeyB64 == b.userKeyB64 && a.account == b.account }

  /** Where one passphrase is used, that session is of the last login exactly when whoever wrote the
      keyring last, that login or a command begun under an earlier one, was of the same user. */
  lemma KeyringIsFaithfulIff(su: Suite, codec: JsonCodec<VwSession>, tokens: Tokens, run: seq<Machine>, i: nat)
    requires su.Valid() && Lossless(codec) && TightWriter(codec) && IsRun(su, codec, tokens, run) && i < |run|
    requires run[i].holder.Some? && LastLogin(run[i]).Some?
    requires run[i].holder.value.passphrase == LastLogin(run[i]).value.passphrase
    ensures Faithful(su, codec, run[i]) <==> SameUser(run[i].holder.value, LastLogin(run[i]).value)
  {
    hide IsRun, Unsealed, SessionUserKey;
    KeyringHoldsALogin(su, codec, tokens, run, i);
  }

  /** A late reseal under the last login's passphrase leaves the keyring with that login exactly when
      the session the command had unsealed was of the same user. */
  lemma LateResealFaithfulIff(su: Suite, codec: JsonCodec<VwSession>, tokens: Tokens, m: Machine, m': Machine, r: Running,
                              s': VwSession, salt: bytes, iv: bytes)
    requires su.Valid() && Lossless(codec) && TightWriter(codec) && |iv| == 16 && Sound(su, codec, m) && r in m.running
    requires CameFromCommand(tokens.json, tokens.read, r.session, s') && Reseals(su, codec, m, m', r, s', salt, iv)
    requires LastLogin(m).Some? && r.login.passphrase == LastLogin(m).value.passphrase
    ensures Faithful(su, codec, m') <==>
              r.session.userKeyB64 == LastLogin(m).value.userKeyB64 && r.session.account == Some(LastLogin(m).value.account)
  {
    hide Unsealed, CameFromCommand, SessionUserKey, Keyring.Sealed;
    ResealKeepsSound(su, codec, tokens, m, m', r, s', salt, iv);
  }

  // ---------- logins on their own ----------

  /** No command is in flight when a login completes; commands may overlap each other. */
  ghost predicate LoginsAlone(run: seq<Machine>) {
    forall i :: 0 <= i < |run| - 1 ==> run[i + 1].logins != run[i].logins ==> run[i].running == {}
  }

  /** The keyring and everything in flight are of the last login. */
  ghost predicate AllLast(m: Machine) { m.holder == LastLogin(m) && forall r :: r in m.running ==> Some(r.login) == LastLogin(m) }

  lemma StepKeepsLast(su: Suite, codec: JsonCodec<VwSession>, tokens: Tokens, m: Machine, m': Machine)
    requires su.Valid() && Step(su, codec, tokens, m, m') && AllLast(m) && (m'.logins != m.logins ==> m.running == {})
    ensures AllLast(m')
  {
    hide Unsealed, CameFromCommand, CameFromLogin, Keyring.Sealed;
    if LoginStep(su, codec, m, m') { assert |m'.logins| == |m.logins| + 1; }
  }

  lemma {:induction false} RunKeepsLast(su: Suite, codec: JsonCodec<VwSession>, tokens: Tokens, run: seq<Machine>, i: nat)
    requires su.Valid() && IsRun(su, codec, tokens, run) && LoginsAlone(run) && i < |run|
    ensures AllLast(run[i])
  {
    hide Step, AllLast;
    if i > 0 {
      RunKeepsLast(su, codec, tokens, run, i - 1);
      assert Step(su, codec, tokens, run[i - 1], run[i - 1 + 1]);
      assert run[i - 1 + 1].logins != run[i - 1].logins ==> run[i - 1].running == {};
      StepKeepsLast(su, codec, tokens, run[i - 1], run[i]);
    } else {
      NothingYet(run[0]);
    }
  }

  lemma NothingYet(m: Machine)
    requires m == Machine(None, [], None, {})
    ensures AllLast(m)
  {}

  /** At every point of every run in which no command is in flight when a login completes, the
      keyring opens to a session with the whole user key and the account of the last login. */
  lemma KeyringIsFaithful(su: Suite, codec: JsonCodec<VwSession>, tokens: Tokens, run: seq<Machine>, i: nat)
    requires su.Valid() && Lossless(codec) && TightWriter(codec)
    requires IsRun(su, codec, tokens, run) && LoginsAlone(run) && i < |run|
    ensures Faithful(su, codec, run[i])
  {
    hide IsRun, LoginsAlone, Unsealed, SessionOf;
    KeyringHoldsALogin(su, codec, tokens, run, i);
    RunKeepsLast(su, codec, tokens, run, i);
  }

  // ---------- what a refresh brings ----------

  /** A refresh succeeds exactly with a refresh token and a 2xx reply that reads as tokens. The new
      session has the reply's access token, its refresh token or else the old one, and its lifetime
      counted from now; a rotated refresh token replaces the old one. */
  lemma RefreshIff(s: VwSession, json: string -> Option<Json>, read: string -> Option<TokenResponse>, reply: Reply,
                   now: Option<nat>, s': VwSession)
    ensures RefreshSession(s, json, read, reply, now) == Ok(s') <==>
              && s.refreshToken.Some? && reply.Reply? && 200 <= reply.status < 300 && read(reply.body).Some?
              && var t := read(reply.body).value;
              && s'.accessToken == t.accessToken
              && (t.refreshToken.Some? ==> s'.refreshToken == t.refreshToken)
              && (t.refreshToken.None? ==> s'.refreshToken == s.refreshToken)
              && s'.userKeyB64 == s.userKeyB64 && s'.account == s.account
              && (now.None? ==> s'.expiresAt.None?)
              && (now.Some? ==> s'.expiresAt == Some(now.value + t.expiresIn))
  {
    hide IsChallenge;
    if reply.Reply? && read(reply.body).Some? { SuccessIff(json, read, reply, read(reply.body).value); }
  }

  /** Without a refresh token, or when the server refuses it with a 401, the session has expired. */
  lemma RefreshExpiredIff(s: VwSession, json: string -> Option<Json>, read: string -> Option<TokenResponse>, reply: Reply,
                          now: Option<nat>)
    ensures RefreshSession(s, json, read, reply, now) == Err(AuthExpired) <==>
              s.refreshToken.None? || (reply.Reply? && reply.status == 401)
  {
    hide Classify, MapApi;
    var r := Classify(json, read, reply);
    if r.Err? { FailureIs(json, read, reply); }
    if r.Ok? { SuccessIff(json, read, reply, r.value); }
  }
}
