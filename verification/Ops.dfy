/** The commands' refresh discipline: at most one proactive and one reactive refresh, at most
    two attempts. */
module Ops {
  import opened Results
  import opened Text
  import opened Mapping
  import opened Api
  import opened Vault
  import opened Sessions
  import opened Views

  datatype Event = Refreshed(session: VwSession) | Attempted(session: VwSession)

  /** A provider that may answer differently every time it is asked: `at` is the number of
      refreshes and attempts made before. */
  datatype Backend = Backend(
    expiry: VwSession -> Option<nat>,
    refresh: (nat, VwSession) -> Result<VwSession, ProviderError>,
    namespaces: (nat, VwSession) -> Result<seq<Namespace>, ProviderError>,
    secrets: (nat, VwSession, Namespace) -> Result<seq<Secret>, ProviderError>,
    metas: (nat, VwSession, Namespace) -> Result<seq<SecretMeta>, ProviderError>,
    secret: (nat, VwSession, string) -> Result<Secret, ProviderError>)

  type Operation<!A> = (nat, VwSession) -> Result<A, ProviderError>

  /** An answer with the session it was obtained under, and what was asked on the way. */
  datatype Attempt<A> = Attempt(result: Result<(VwSession, A), ProviderError>, events: seq<Event>)

  const REFRESH_MARGIN_SECS := 300

  const HINT := "session expired and refresh failed; run `cryptile login` to re-establish"

  const U64_MAX := 0xFFFF_FFFF_FFFF_FFFF

  function SaturatingAdd(a: nat, b: nat): nat { if a + b > U64_MAX then U64_MAX else a + b }

  predicate Stale(p: Backend, now: nat, s: VwSession) {
    p.expiry(s).Some? && SaturatingAdd(now, REFRESH_MARGIN_SECS) >= p.expiry(s).value
  }

  /** `ensure_fresh`: a failing proactive refresh is ignored. */
  function EnsureFresh(p: Backend, now: nat, s: VwSession): (VwSession, seq<Event>) {
    if !Stale(p, now, s) then (s, [])
    else (match p.refresh(0, s) case Ok(renewed) => (renewed, [Refreshed(s)]) case Err(_) => (s, [Refreshed(s)]))
  }

  function MapRetry(e: ProviderError): ProviderError { if e.AuthExpired? then Auth(HINT) else e }

  /** The pattern of every command: attempt, and on `AuthExpired` refresh the session the
      command started with and attempt once more. */
  function WithRetry<A>(p: Backend, now: nat, s: VwSession, op: Operation<A>): Attempt<A> {
    var (s1, before) := EnsureFresh(p, now, s);
    var tried := before + [Attempted(s1)];
    match op(|before|, s1)
    case Ok(a) => Attempt(Ok((s1, a)), tried)
    case Err(AuthExpired) =>
      (match p.refresh(|tried|, s)
       case Err(_) => Attempt(Err(Auth(HINT)), tried + [Refreshed(s)])
       case Ok(s2) =>
         var events := tried + [Refreshed(s), Attempted(s2)];
         match op(|tried| + 1, s2)
         case Ok(a) => Attempt(Ok((s2, a)), events)
         case Err(e) => Attempt(Err(MapRetry(e)), events))
    case Err(e) => Attempt(Err(e), tried)
  }

  // ---------- the four commands ----------

  function TargetNamed(list: seq<Namespace>, name: string): Result<Namespace, ProviderError> {
    match NamespaceNamed(list, name) case Some(ns) => Ok(ns) case None => Err(NotFound("namespace " + name))
  }

  function ExportOnce(p: Backend, at: nat, s: VwSession, name: string): Result<seq<Secret>, ProviderError> {
    match p.namespaces(at, s)
    case Err(e) => Err(e)
    case Ok(list) => (match TargetNamed(list, name) case Err(e) => Err(e) case Ok(ns) => p.secrets(at, s, ns))
  }

  function ListItemsOnce(p: Backend, at: nat, s: VwSession, name: string): Result<seq<SecretMeta>, ProviderError> {
    match p.namespaces(at, s)
    case Err(e) => Err(e)
    case Ok(list) => (match TargetNamed(list, name) case Err(e) => Err(e) case Ok(ns) => p.metas(at, s, ns))
  }

  function Export(p: Backend, now: nat, s: VwSession, name: string): Attempt<seq<Secret>> {
    WithRetry(p, now, s, (at: nat, x: VwSession) => ExportOnce(p, at, x, name))
  }

  const PRIMARY_FIELD_CHAIN := ["password", "notes", "private_key", "number"]

  function Primary(fields: map<string, string>, chain: seq<string>): Option<string> {
    if chain == [] then None
    else if chain[0] in fields && fields[chain[0]] != "" then Some(fields[chain[0]])
    else Primary(fields, chain[1..])
  }

  /** The field of a ref: the explicit one, or the first non-empty of the chain. */
  function Selected(secret: Secret, explicit: Option<string>): Option<string> {
    match explicit
    case Some(f) => if f in secret.fields then Some(secret.fields[f]) else None
    case None => Primary(secret.fields, PRIMARY_FIELD_CHAIN)
  }

  function Get(p: Backend, now: nat, s: VwSession, locus: string, explicit: Option<string>): Attempt<string> {
    var r := WithRetry(p, now, s, (at: nat, x: VwSession) => p.secret(at, x, locus));
    match r.result
    case Err(e) => Attempt(Err(e), r.events)
    case Ok((s', secret)) =>
      match Selected(secret, explicit)
      case Some(v) => Attempt(Ok((s', v)), r.events)
      case None => Attempt(Err(NotFound("field not present on " + locus)), r.events)
  }

  function NsNames(list: seq<Namespace>): seq<string> {
    if list == [] then [] else [list[0].name] + NsNames(list[1..])
  }

  function MetaNames(list: seq<SecretMeta>): seq<string> {
    if list == [] then [] else [list[0].name] + MetaNames(list[1..])
  }

  function List(p: Backend, now: nat, s: VwSession, name: Option<string>): Attempt<seq<string>> {
    match name
    case None =>
      (var r := WithRetry(p, now, s, (at: nat, x: VwSession) => p.namespaces(at, x));
       match r.result
       case Err(e) => Attempt(Err(e), r.events)
       case Ok((s', list)) => Attempt(Ok((s', NsNames(list))), r.events))
    case Some(n) =>
      var r := WithRetry(p, now, s, (at: nat, x: VwSession) => ListItemsOnce(p, at, x, n));
      match r.result
      case Err(e) => Attempt(Err(e), r.events)
      case Ok((s', list)) => Attempt(Ok((s', MetaNames(list))), r.events)
  }

  // ---------- the discipline ----------

  function Refreshes(events: seq<Event>): nat {
    if events == [] then 0 else (if events[0].Refreshed? then 1 else 0) + Refreshes(events[1..])
  }

  function Attempts(events: seq<Event>): nat {
    if events == [] then 0 else (if events[0].Attempted? then 1 else 0) + Attempts(events[1..])
  }

  /** `s'` is `s`, or what one refresh of `s` returned. */
  ghost predicate SameOrRefreshed(p: Backend, s: VwSession, s': VwSession) {
    s' == s || exists at: nat :: p.refresh(at, s) == Ok(s')
  }

  /** At most two refreshes, all of the session the command started with, and at most two
      attempts; no `AuthExpired`; a success reports the session of the last attempt, which is the
      starting session or one refresh of it. */
  ghost predicate Disciplined<A>(p: Backend, s: VwSession, r: Attempt<A>) {
    && Refreshes(r.events) <= 2 && Attempts(r.events) <= 2
    && (forall i :: 0 <= i < |r.events| && r.events[i].Refreshed? ==> r.events[i].session == s)
    && (r.result.Err? ==> !r.result.error.AuthExpired?)
    && (r.result.Ok? ==>
          && r.events != [] && r.events[|r.events| - 1] == Attempted(r.result.value.0)
          && SameOrRefreshed(p, s, r.result.value.0))
  }

  lemma {:induction false} CountsAppend(a: seq<Event>, b: seq<Event>)
    ensures Refreshes(a + b) == Refreshes(a) + Refreshes(b) && Attempts(a + b) == Attempts(a) + Attempts(b)
  {
    if a == [] {
      assert a + b == b;
    } else {
      assert (a + b)[1..] == a[1..] + b;
      CountsAppend(a[1..], b);
    }
  }

  lemma CountOne(e: Event)
    ensures Refreshes([e]) == (if e.Refreshed? then 1 else 0) && Attempts([e]) == (if e.Attempted? then 1 else 0)
  {
    assert [e][1..] == [];
  }

  /** Whatever the provider does. */
  lemma RetryIsDisciplined<A>(p: Backend, now: nat, s: VwSession, op: Operation<A>)
    ensures Disciplined(p, s, WithRetry(p, now, s, op))
  {
    hide Refreshes, Attempts, Stale;
    var (s1, before) := EnsureFresh(p, now, s);
    var tried := before + [Attempted(s1)];
    NoEvents();
    CountOne(Refreshed(s));
    CountOne(Attempted(s1));
    CountsAppend(before, [Attempted(s1)]);
    CountsAppend(tried, [Refreshed(s)]);
    if op(|before|, s1) == Err(AuthExpired) && p.refresh(|tried|, s).Ok? {
      var s2 := p.refresh(|tried|, s).value;
      CountOne(Attempted(s2));
      CountsAppend([Refreshed(s)], [Attempted(s2)]);
      assert [Refreshed(s)] + [Attempted(s2)] == [Refreshed(s), Attempted(s2)];
      CountsAppend(tried, [Refreshed(s), Attempted(s2)]);
    }
  }

  lemma NoEvents()
    ensures Refreshes([]) == 0 && Attempts([]) == 0
  {}

  /** Get, list and export all keep the discipline. */
  lemma CommandsAreDisciplined(p: Backend, now: nat, s: VwSession, locus: string, explicit: Option<string>, name: string)
    ensures Disciplined(p, s, Get(p, now, s, locus, explicit))
    ensures Disciplined(p, s, List(p, now, s, None)) && Disciplined(p, s, List(p, now, s, Some(name)))
    ensures Disciplined(p, s, Export(p, now, s, name))
  {
    hide WithRetry, Refreshes, Attempts, NsNames, MetaNames, Selected, SameOrRefreshed;
    RetryIsDisciplined(p, now, s, (at: nat, x: VwSession) => p.secret(at, x, locus));
    RetryIsDisciplined(p, now, s, (at: nat, x: VwSession) => p.namespaces(at, x));
    RetryIsDisciplined(p, now, s, (at: nat, x: VwSession) => ListItemsOnce(p, at, x, name));
    RetryIsDisciplined(p, now, s, (at: nat, x: VwSession) => ExportOnce(p, at, x, name));
  }

  // ---------- what a command answers ----------

  /** How many events came before the last attempt. */
  function LastAt(r: seq<Event>): nat { if r == [] then 0 else |r| - 1 }

  /** A success is what the last attempt was answered, under the session it reports. A failure is
      that of the last attempt, unchanged, unless the session could not be renewed or was refused
      again, and then it is the hint. Only a refused attempt is repeated. */
  ghost predicate Answers<A(!new)>(p: Backend, s: VwSession, op: Operation<A>, result: Result<(VwSession, A), ProviderError>, events: seq<Event>) {
    && (result.Ok? ==> op(LastAt(events), result.value.0) == Ok(result.value.1))
    && (result.Err? ==>
          || (exists s': VwSession :: events != [] && events[|events| - 1] == Attempted(s') && op(LastAt(events), s') == Err(result.error))
          || (result.error == Auth("session expired and refresh failed; run `cryptile login` to re-establish")
              && events != []
              && (match events[|events| - 1]
                  case Refreshed(s') => s' == s && p.refresh(LastAt(events), s).Err?
                  case Attempted(s') => op(LastAt(events), s') == Err(AuthExpired))))
    && forall i :: 0 <= i < |events| - 1 && events[i].Attempted? ==> op(i, events[i].session) == Err(AuthExpired)
  }

  lemma RetryAnswers<A(!new)>(p: Backend, now: nat, s: VwSession, op: Operation<A>)
    ensures var r := WithRetry(p, now, s, op); Answers(p, s, op, r.result, r.events)
  {
    hide Stale;
  }

  /** A session is renewed beforehand exactly when its expiry is known and at most 300 seconds off. */
  lemma RenewedEarlyIff(p: Backend, now: nat, s: VwSession)
    requires now + 300 < 0x1_0000_0000_0000_0000
    ensures EnsureFresh(p, now, s).1 == (if p.expiry(s).Some? && now + 300 >= p.expiry(s).value then [Refreshed(s)] else [])
    ensures EnsureFresh(p, now, s).0
            == if p.expiry(s).Some? && now + 300 >= p.expiry(s).value && p.refresh(0, s).Ok? then p.refresh(0, s).value else s
  {}

  /** `list[i]` is the first namespace whose name is `name`, ASCII case aside. */
  ghost predicate FirstNamed(list: seq<Namespace>, name: string, i: nat) {
    i < |list| && EqFold(list[i].name, name) && forall j :: 0 <= j < i ==> !EqFold(list[j].name, name)
  }

  lemma {:induction false} NamedIff(list: seq<Namespace>, name: string, ns: Namespace)
    ensures NamespaceNamed(list, name) == Some(ns) <==> exists i: nat :: FirstNamed(list, name, i) && list[i] == ns
    ensures NamespaceNamed(list, name).None? <==> forall i :: 0 <= i < |list| ==> !EqFold(list[i].name, name)
  {
    hide EqFold;
    if list != [] {
      NamedIff(list[1..], name, ns);
      if EqFold(list[0].name, name) {
        assert FirstNamed(list, name, 0);
      } else {
        if i: nat :| FirstNamed(list[1..], name, i) && list[1..][i] == ns {
          forall j | 0 <= j < i + 1 ensures !EqFold(list[j].name, name) { if j > 0 { assert list[j] == list[1..][j - 1]; } }
          assert FirstNamed(list, name, i + 1);
        }
        if i: nat :| FirstNamed(list, name, i) && list[i] == ns {
          forall j | 0 <= j < i - 1 ensures !EqFold(list[1..][j].name, name) { assert list[1..][j] == list[j + 1]; }
          assert FirstNamed(list[1..], name, i - 1);
        }
        if forall i :: 0 <= i < |list[1..]| ==> !EqFold(list[1..][i].name, name) {
          forall i | 0 <= i < |list| ensures !EqFold(list[i].name, name) { if i > 0 { assert list[i] == list[1..][i - 1]; } }
        }
        if forall i :: 0 <= i < |list| ==> !EqFold(list[i].name, name) {
          forall i | 0 <= i < |list[1..]| ensures !EqFold(list[1..][i].name, name) { assert list[1..][i] == list[i + 1]; }
        }
      }
    }
  }

  lemma NamedExactly(list: seq<Namespace>, name: string)
    ensures forall i: nat :: FirstNamed(list, name, i) ==> NamespaceNamed(list, name) == Some(list[i])
    ensures NamespaceNamed(list, name).None? <==> forall i :: 0 <= i < |list| ==> !EqFold(list[i].name, name)
    ensures NamespaceNamed(list, name).Some? ==> exists i: nat :: FirstNamed(list, name, i)
  {
    hide EqFold, NamespaceNamed;
    forall i: nat | FirstNamed(list, name, i) ensures NamespaceNamed(list, name) == Some(list[i]) {
      NamedIff(list, name, list[i]);
    }
    var r := NamespaceNamed(list, name);
    NamedIff(list, name, if r.Some? then r.value else Namespace("", ""));
  }

  /** An export answers the secrets of the first namespace of that name, or what went wrong on the way. */
  lemma ExportOnceIs(p: Backend, at: nat, s: VwSession, name: string)
    ensures var r := ExportOnce(p, at, s, name);
            match p.namespaces(at, s)
            case Err(e) => r == Err(e)
            case Ok(list) =>
              && (forall i: nat :: FirstNamed(list, name, i) ==> r == p.secrets(at, s, list[i]))
              && ((forall i :: 0 <= i < |list| ==> !EqFold(list[i].name, name)) ==> r == Err(NotFound("namespace " + name)))
  {
    hide EqFold, NamespaceNamed;
    match p.namespaces(at, s)
    case Err(_) =>
    case Ok(list) => NamedExactly(list, name);
  }

  lemma ListItemsOnceIs(p: Backend, at: nat, s: VwSession, name: string)
    ensures var r := ListItemsOnce(p, at, s, name);
            match p.namespaces(at, s)
            case Err(e) => r == Err(e)
            case Ok(list) =>
              && (forall i: nat :: FirstNamed(list, name, i) ==> r == p.metas(at, s, list[i]))
              && ((forall i :: 0 <= i < |list| ==> !EqFold(list[i].name, name)) ==> r == Err(NotFound("namespace " + name)))
  {
    hide EqFold, NamespaceNamed;
    match p.namespaces(at, s)
    case Err(_) =>
    case Ok(list) => NamedExactly(list, name);
  }

  /** Export: the secrets of the first listed namespace whose name folds to the one asked for, as
      the provider answered them in the last attempt under the session that is returned. */
  lemma ExportAnswers(p: Backend, now: nat, s: VwSession, name: string)
    ensures var r := Export(p, now, s, name);
            && Answers(p, s, (at: nat, x: VwSession) => ExportOnce(p, at, x, name), r.result, r.events)
            && (r.result.Ok? ==>
                  var at, s' := LastAt(r.events), r.result.value.0;
                  && p.namespaces(at, s').Ok?
                  && exists i: nat :: FirstNamed(p.namespaces(at, s').value, name, i)
                                      && p.secrets(at, s', p.namespaces(at, s').value[i]) == Ok(r.result.value.1))
  {
    hide WithRetry, EqFold, Answers, ExportOnce, Stale;
    var op := (at: nat, x: VwSession) => ExportOnce(p, at, x, name);
    RetryAnswers(p, now, s, op);
    var r := WithRetry(p, now, s, op);
    assert Export(p, now, s, name) == r;
    if r.result.Ok? {
      AnswersOk(p, s, op, r);
      var at, s' := LastAt(r.events), r.result.value.0;
      ExportOnceIs(p, at, s', name);
      if p.namespaces(at, s').Ok? { NamedExactly(p.namespaces(at, s').value, name); }
    }
  }

  lemma AnswersOk<A(!new)>(p: Backend, s: VwSession, op: Operation<A>, r: Attempt<A>)
    requires Answers(p, s, op, r.result, r.events) && r.result.Ok?
    ensures op(LastAt(r.events), r.result.value.0) == Ok(r.result.value.1)
  {}

  /** List: the names of the namespaces, or of the items in the first namespace of that name, in
      the order the provider gave them in the last attempt. */
  lemma ListAnswers(p: Backend, now: nat, s: VwSession, name: Option<string>)
    requires List(p, now, s, name).result.Ok?
    ensures var r := List(p, now, s, name);
            var at, s', names := LastAt(r.events), r.result.value.0, r.result.value.1;
            && p.namespaces(at, s').Ok?
            && var list := p.namespaces(at, s').value;
            match name
            case None => |names| == |list| && forall i :: 0 <= i < |list| ==> names[i] == list[i].name
            case Some(n) =>
              exists i: nat :: FirstNamed(list, n, i) && p.metas(at, s', list[i]).Ok?
                && |names| == |p.metas(at, s', list[i]).value|
                && forall j :: 0 <= j < |names| ==> names[j] == p.metas(at, s', list[i]).value[j].name
  {
    hide WithRetry, EqFold, Answers, ListItemsOnce, NsNames, MetaNames;
    match name
    case None =>
      var op := (at: nat, x: VwSession) => p.namespaces(at, x);
      RetryAnswers(p, now, s, op);
      var r := WithRetry(p, now, s, op);
      AnswersOk(p, s, op, r);
      NsNamesAre(r.result.value.1);
    case Some(n) =>
      var op := (at: nat, x: VwSession) => ListItemsOnce(p, at, x, n);
      RetryAnswers(p, now, s, op);
      var r := WithRetry(p, now, s, op);
      AnswersOk(p, s, op, r);
      var at, s' := LastAt(r.events), r.result.value.0;
      ListItemsOnceIs(p, at, s', n);
      MetaNamesAre(r.result.value.1);
      if p.namespaces(at, s').Ok? { NamedExactly(p.namespaces(at, s').value, n); }
  }

  lemma {:induction false} NsNamesAre(list: seq<Namespace>)
    ensures |NsNames(list)| == |list| && forall i :: 0 <= i < |list| ==> NsNames(list)[i] == list[i].name
  {
    if list != [] { NsNamesAre(list[1..]); }
  }

  lemma {:induction false} MetaNamesAre(list: seq<SecretMeta>)
    ensures |MetaNames(list)| == |list| && forall i :: 0 <= i < |list| ==> MetaNames(list)[i] == list[i].name
  {
    if list != [] { MetaNamesAre(list[1..]); }
  }

  /** `v` is the value the ref asks of the secret: the named field; or without one the first
      non-empty of password, notes, private_key and number. */
  ghost predicate IsField(fields: map<string, string>, explicit: Option<string>, v: string) {
    match explicit
    case Some(f) => f in fields && fields[f] == v
    case None =>
      var chain := ["password", "notes", "private_key", "number"];
      exists i :: 0 <= i < |chain| && chain[i] in fields && fields[chain[i]] == v && v != ""
                  && forall j :: 0 <= j < i ==> chain[j] !in fields || fields[chain[j]] == ""
  }

  lemma {:induction false} PrimaryIff(fields: map<string, string>, chain: seq<string>, v: string)
    ensures Primary(fields, chain) == Some(v) <==>
              exists i :: 0 <= i < |chain| && chain[i] in fields && fields[chain[i]] == v && v != ""
                          && forall j :: 0 <= j < i ==> chain[j] !in fields || fields[chain[j]] == ""
  {
    if chain != [] {
      PrimaryIff(fields, chain[1..], v);
      var t := chain[1..];
      if !(chain[0] in fields && fields[chain[0]] != "") {
        if i :| 0 <= i < |t| && t[i] in fields && fields[t[i]] == v && v != ""
                && forall j :: 0 <= j < i ==> t[j] !in fields || fields[t[j]] == "" {
          forall j | 0 <= j < i + 1 ensures chain[j] !in fields || fields[chain[j]] == "" { if j > 0 { assert chain[j] == t[j - 1]; } }
          assert chain[i + 1] == t[i];
        }
        if i :| 0 <= i < |chain| && chain[i] in fields && fields[chain[i]] == v && v != ""
                && forall j :: 0 <= j < i ==> chain[j] !in fields || fields[chain[j]] == "" {
          assert i > 0 && t[i - 1] == chain[i];
          forall j | 0 <= j < i - 1 ensures t[j] !in fields || fields[t[j]] == "" { assert t[j] == chain[j + 1]; }
        }
      }
    }
  }

  lemma SelectedIff(secret: Secret, explicit: Option<string>, v: string)
    ensures Selected(secret, explicit) == Some(v) <==> IsField(secret.fields, explicit, v)
  {
    PrimaryIff(secret.fields, PRIMARY_FIELD_CHAIN, v);
  }

  /** Get: the field the ref asks for, of the secret the provider answered in the last attempt. */
  lemma GetAnswers(p: Backend, now: nat, s: VwSession, locus: string, explicit: Option<string>)
    requires Get(p, now, s, locus, explicit).result.Ok?
    ensures var r := Get(p, now, s, locus, explicit);
            var secret := p.secret(LastAt(r.events), r.result.value.0, locus);
            secret.Ok? && IsField(secret.value.fields, explicit, r.result.value.1)
  {
    hide WithRetry, Answers, Selected, IsField;
    var op := (at: nat, x: VwSession) => p.secret(at, x, locus);
    RetryAnswers(p, now, s, op);
    var r := WithRetry(p, now, s, op);
    AnswersOk(p, s, op, r);
    SelectedIff(r.result.value.1, explicit, Get(p, now, s, locus, explicit).result.value.1);
  }

  /** A get fails as its attempts do, or, when they succeed, only because no such field is there. */
  lemma GetFailsAs(p: Backend, now: nat, s: VwSession, locus: string, explicit: Option<string>)
    ensures var op := (at: nat, x: VwSession) => p.secret(at, x, locus);
            var tried, r := WithRetry(p, now, s, op), Get(p, now, s, locus, explicit);
            && Answers(p, s, op, tried.result, tried.events) && r.events == tried.events
            && (tried.result.Err? ==> r.result == Err(tried.result.error))
            && (tried.result.Ok? ==>
                  (r.result.Err? <==> forall v :: !IsField(tried.result.value.1.fields, explicit, v))
                  && (r.result.Err? ==> r.result.error == NotFound("field not present on " + locus)))
  {
    hide WithRetry, Answers, Selected, IsField;
    var op := (at: nat, x: VwSession) => p.secret(at, x, locus);
    RetryAnswers(p, now, s, op);
    var tried := WithRetry(p, now, s, op);
    if tried.result.Ok? { forall v { SelectedIff(tried.result.value.1, explicit, v); } }
  }
}
