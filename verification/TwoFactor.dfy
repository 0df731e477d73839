/** Two-factor providers: decoding what a challenge offers, tags and wire ids, and the choice. */
module TwoFactor {
  import opened Results
  import opened Text

  /** A parsed JSON value; object members are in iteration order. */
  datatype Json = Null | Bool(b: bool) | Integer(n: int) | Fraction | Str(s: string)
                | Arr(items: seq<Json>) | Obj(members: seq<(string, Json)>)

  const U64_MAX: nat := 0xFFFF_FFFF_FFFF_FFFF

  function Find(members: seq<(string, Json)>, key: string): Option<Json> {
    if members == [] then None
    else if members[0].0 == key then Some(members[0].1)
    else Find(members[1..], key)
  }

  /** `v.get(key)` */
  function Get(v: Json, key: string): Option<Json> { if v.Obj? then Find(v.members, key) else None }

  function Elements(v: Json, key: string): seq<Json> {
    match Get(v, key) case Some(Arr(items)) => items case _ => []
  }

  function Members(v: Json, key: string): seq<(string, Json)> {
    match Get(v, key) case Some(Obj(members)) => members case _ => []
  }

  /** An id is a number or a string of one; anything else is passed over. */
  function IdOf(item: Json): Option<nat> {
    match item
    case Integer(n) => if 0 <= n <= U64_MAX then Some(n) else None
    case Str(s) => ParseUnsigned(s, U64_MAX)
    case _ => None
  }

  function ElementIds(items: seq<Json>): seq<nat> {
    if items == [] then []
    else (match IdOf(items[|items| - 1]) case Some(n) => ElementIds(items[..|items| - 1]) + [n]
                                         case None => ElementIds(items[..|items| - 1]))
  }

  function MemberIds(members: seq<(string, Json)>): seq<nat> {
    if members == [] then []
    else (match ParseUnsigned(members[|members| - 1].0, U64_MAX)
          case Some(n) => MemberIds(members[..|members| - 1]) + [n]
          case None => MemberIds(members[..|members| - 1]))
  }

  /** Every id the body names: both casings of the array form, then both of the map form. */
  function AllIds(v: Json): seq<nat> {
    ElementIds(Elements(v, "TwoFactorProviders")) + ElementIds(Elements(v, "twoFactorProviders"))
    + MemberIds(Members(v, "TwoFactorProviders2")) + MemberIds(Members(v, "twoFactorProviders2"))
  }

  function TagOf(id: nat): string {
    if id == 0 then "totp" else if id == 1 then "email" else if id == 7 then "webauthn"
    else "unknown(" + Decimal(id) + ")"
  }

  /** `tag_to_wire_id`: the three tags, or `unknown(n)` for an `n` of one byte. */
  function TagToWire(tag: string): Option<nat> {
    if tag == "totp" then Some(0) else if tag == "email" then Some(1) else if tag == "webauthn" then Some(7)
    else if |tag| >= 9 && tag[..8] == "unknown(" && tag[|tag| - 1] == ')' then ParseUnsigned(tag[8..|tag| - 1], 255)
    else None
  }

  /** The wire id comes back from the tag exactly when it fits a byte. */
  lemma TagToWireInverts(id: nat)
    ensures TagToWire(TagOf(id)) == if id <= 255 then Some(id) else None
  {
    hide ParseUnsigned, Decimal;
    var tag := TagOf(id);
    DecimalParses(id, 255);
    if id != 0 && id != 1 && id != 7 {
      assert tag[0] == 'u' && |tag| >= 9 && tag[|tag| - 1] == ')';
      assert tag[..8] == "unknown(" && tag[8..|tag| - 1] == Decimal(id);
    }
  }

  lemma TagInjective(a: nat, b: nat)
    requires TagOf(a) == TagOf(b)
    ensures a == b
  {
    var known := {0, 1, 7};
    assert a !in known ==> TagOf(a)[0] == 'u';
    assert b !in known ==> TagOf(b)[0] == 'u';
    if a !in known && b !in known {
      var t := TagOf(a);
      assert t[8..|t| - 1] == Decimal(a);
      assert t[8..|t| - 1] == Decimal(b);
      DecimalInjective(a, b);
    }
  }

  /** Ids without repetition, each where it was first seen. */
  function FirstSeen(ids: seq<nat>): seq<nat> {
    if ids == [] then []
    else
      var front := ids[..|ids| - 1];
      var last := ids[|ids| - 1];
      if last in front then FirstSeen(front) else FirstSeen(front) + [last]
  }

  function Tags(ids: seq<nat>): (r: seq<string>)
    ensures |r| == |ids| && forall i :: 0 <= i < |ids| ==> r[i] == TagOf(ids[i])
  {
    seq(|ids|, i requires 0 <= i < |ids| => TagOf(ids[i]))
  }

  /** `decode_two_factor_providers`; a body that is not JSON offers nothing. */
  function Offered(body: Option<Json>): seq<string> {
    if body.None? then [] else Tags(FirstSeen(AllIds(body.value)))
  }

  lemma {:induction false} FirstSeenMembers(ids: seq<nat>)
    ensures forall x :: x in FirstSeen(ids) <==> x in ids
    ensures forall i, j :: 0 <= i < j < |FirstSeen(ids)| ==> FirstSeen(ids)[i] != FirstSeen(ids)[j]
  {
    if ids != [] {
      FirstSeenMembers(ids[..|ids| - 1]);
      assert ids == ids[..|ids| - 1] + [ids[|ids| - 1]];
    }
  }

  /** Where `x` first stands in `ids`. */
  function Position(ids: seq<nat>, x: nat): (i: nat)
    requires x in ids
    ensures i < |ids| && ids[i] == x && forall j :: 0 <= j < i ==> ids[j] != x
  {
    if ids[0] == x then 0 else 1 + Position(ids[1..], x)
  }

  lemma PositionUnique(ids: seq<nat>, x: nat, i: nat)
    requires i < |ids| && ids[i] == x && forall j :: 0 <= j < i ==> ids[j] != x
    ensures Position(ids, x) == i
  {
    var p := Position(ids, x);
    assert !(p < i) && !(i < p);
  }

  lemma {:induction false} FirstSeenOrder(ids: seq<nat>)
    ensures forall x :: x in FirstSeen(ids) ==> x in ids
    ensures forall i, j {:trigger FirstSeen(ids)[i], FirstSeen(ids)[j]} :: 0 <= i < j < |FirstSeen(ids)| ==>
              Position(ids, FirstSeen(ids)[i]) < Position(ids, FirstSeen(ids)[j])
  {
    FirstSeenMembers(ids);
    if ids != [] {
      var n := |ids| - 1;
      var front, last := ids[..n], ids[n];
      FirstSeenOrder(front);
      FirstSeenMembers(front);
      forall x | x in front ensures Position(ids, x) == Position(front, x) {
        var p := Position(front, x);
        assert forall j :: 0 <= j < p ==> ids[j] == front[j];
        PositionUnique(ids, x, p);
      }
      if last !in front { PositionUnique(ids, last, n); }
    }
  }

  /** The offered list has no duplicates, holds exactly the tags of the ids the body names,
      and keeps the order in which they first appear. */
  lemma OfferedExact(v: Json)
    ensures var out := Offered(Some(v)); var ids := AllIds(v);
            && (forall i, j :: 0 <= i < j < |out| ==> out[i] != out[j])
            && (forall tag :: tag in out <==> exists id :: id in ids && TagOf(id) == tag)
            && |FirstSeen(ids)| == |out|
            && (forall i :: 0 <= i < |out| ==> FirstSeen(ids)[i] in ids && out[i] == TagOf(FirstSeen(ids)[i]))
            && (forall i, j {:trigger FirstSeen(ids)[i], FirstSeen(ids)[j]} :: 0 <= i < j < |out| ==>
                  Position(ids, FirstSeen(ids)[i]) < Position(ids, FirstSeen(ids)[j]))
  {
    hide AllIds, FirstSeen, TagOf;
    var ids := AllIds(v);
    var out := Offered(Some(v));
    FirstSeenMembers(ids);
    FirstSeenOrder(ids);
    forall i, j | 0 <= i < j < |out| ensures out[i] != out[j] {
      if out[i] == out[j] { TagInjective(FirstSeen(ids)[i], FirstSeen(ids)[j]); }
    }
    forall tag ensures tag in out <==> exists id :: id in ids && TagOf(id) == tag {
      if tag in out {
        var i :| 0 <= i < |out| && out[i] == tag;
        assert FirstSeen(ids)[i] in ids;
      }
      if id :| id in ids && TagOf(id) == tag {
        var i :| 0 <= i < |FirstSeen(ids)| && FirstSeen(ids)[i] == id;
        assert out[i] == tag;
      }
    }
  }

  lemma TagsMembership(ids: seq<nat>, id: nat)
    ensures TagOf(id) in Tags(ids) <==> id in ids
  {
    hide TagOf;
    if TagOf(id) in Tags(ids) {
      var i :| 0 <= i < |ids| && Tags(ids)[i] == TagOf(id);
      TagInjective(ids[i], id);
    }
    if id in ids {
      var i :| 0 <= i < |ids| && ids[i] == id;
      assert Tags(ids)[i] == TagOf(id);
    }
  }

  // ---------- which ids a body names ----------

  /** The item is the number, or a string that spells it. */
  ghost predicate Denotes(item: Json, id: nat) {
    id < 0x1_0000_0000_0000_0000 && (item == Integer(id) || (item.Str? && Spells(item.s, id)))
  }

  lemma IdOfIff(item: Json, id: nat)
    ensures IdOf(item) == Some(id) <==> Denotes(item, id)
  {
    hide ParseUnsigned, Spells;
    if item.Str? { ParsesIff(item.s, U64_MAX, id); }
  }

  /** The first member of that name. */
  ghost predicate MemberIs(v: Json, key: string, x: Json) {
    v.Obj? && exists i: nat :: i < |v.members| && v.members[i] == (key, x) && forall j :: 0 <= j < i ==> v.members[j].0 != key
  }

  lemma {:induction false} FindIff(members: seq<(string, Json)>, key: string, x: Json)
    ensures Find(members, key) == Some(x) <==> MemberIs(Obj(members), key, x)
    decreases |members|
  {
    if members != [] {
      var t := members[1..];
      FindIff(t, key, x);
      if members[0].0 != key {
        if MemberIs(Obj(t), key, x) {
          var i: nat :| i < |t| && t[i] == (key, x) && forall j :: 0 <= j < i ==> t[j].0 != key;
          forall j | 0 <= j < i + 1 ensures members[j].0 != key { if j > 0 { assert members[j] == t[j - 1]; } }
          assert members[i + 1] == (key, x);
        }
        if MemberIs(Obj(members), key, x) {
          var i: nat :| i < |members| && members[i] == (key, x) && forall j :: 0 <= j < i ==> members[j].0 != key;
          assert i > 0 && t[i - 1] == (key, x);
          forall j | 0 <= j < i - 1 ensures t[j].0 != key { assert t[j] == members[j + 1]; }
        }
      }
    }
  }

  lemma GetIff(v: Json, key: string, x: Json)
    ensures Get(v, key) == Some(x) <==> MemberIs(v, key, x)
  {
    if v.Obj? { FindIff(v.members, key, x); }
  }

  lemma {:induction false} ElementIdsAre(items: seq<Json>, id: nat)
    ensures id in ElementIds(items) <==> exists i :: 0 <= i < |items| && Denotes(items[i], id)
  {
    hide IdOf, Denotes;
    if items != [] {
      var n := |items| - 1;
      ElementIdsAre(items[..n], id);
      IdOfIff(items[n], id);
      if i :| 0 <= i < |items[..n]| && Denotes(items[..n][i], id) { assert Denotes(items[i], id); }
      if i :| 0 <= i < |items| && Denotes(items[i], id) { if i < n { assert Denotes(items[..n][i], id); } }
    }
  }

  lemma {:induction false} MemberIdsAre(members: seq<(string, Json)>, id: nat)
    ensures id in MemberIds(members) <==> id < 0x1_0000_0000_0000_0000 && exists i :: 0 <= i < |members| && Spells(members[i].0, id)
  {
    hide ParseUnsigned, Spells;
    if members != [] {
      var n := |members| - 1;
      MemberIdsAre(members[..n], id);
      ParsesIff(members[n].0, U64_MAX, id);
      if i :| 0 <= i < |members[..n]| && Spells(members[..n][i].0, id) { assert Spells(members[i].0, id); }
      if i :| 0 <= i < |members| && Spells(members[i].0, id) { if i < n { assert Spells(members[..n][i].0, id); } }
    }
  }

  /** An element of the array under this name denotes the id. */
  ghost predicate InArray(v: Json, key: string, id: nat) {
    exists items: seq<Json> :: MemberIs(v, key, Arr(items)) && exists i :: 0 <= i < |items| && Denotes(items[i], id)
  }

  /** A member name of the object under this name spells the id. */
  ghost predicate InMap(v: Json, key: string, id: nat) {
    exists members: seq<(string, Json)> :: MemberIs(v, key, Obj(members)) && exists i :: 0 <= i < |members| && Spells(members[i].0, id)
  }

  lemma InArrayIff(v: Json, key: string, id: nat)
    ensures id in ElementIds(Elements(v, key)) <==> InArray(v, key, id)
  {
    hide ElementIds, Denotes, Get, MemberIs;
    forall x { GetIff(v, key, x); }
    ElementIdsAre(Elements(v, key), id);
  }

  lemma InMapIff(v: Json, key: string, id: nat)
    ensures id in MemberIds(Members(v, key)) <==> id < 0x1_0000_0000_0000_0000 && InMap(v, key, id)
  {
    hide MemberIds, Spells, Get, MemberIs;
    forall x { GetIff(v, key, x); }
    MemberIdsAre(Members(v, key), id);
  }

  /** The ids a body names: those in the array form or the map form, under either casing of its name. */
  lemma NamedIdsAre(v: Json, id: nat)
    ensures id in AllIds(v) <==>
              || InArray(v, "TwoFactorProviders", id) || InArray(v, "twoFactorProviders", id)
              || (id < 0x1_0000_0000_0000_0000 && (InMap(v, "TwoFactorProviders2", id) || InMap(v, "twoFactorProviders2", id)))
  {
    hide ElementIds, MemberIds, Elements, Members, InArray, InMap;
    InArrayIff(v, "TwoFactorProviders", id);
    InArrayIff(v, "twoFactorProviders", id);
    InMapIff(v, "TwoFactorProviders2", id);
    InMapIff(v, "twoFactorProviders2", id);
  }

  /** The tags that have a wire id: three names, and `unknown(n)` for a spelling of a byte. */
  lemma TagToWireIff(tag: string, id: nat)
    ensures TagToWire(tag) == Some(id) <==>
              || (tag == "totp" && id == 0) || (tag == "email" && id == 1) || (tag == "webauthn" && id == 7)
              || (id <= 255 && exists n: string :: tag == "unknown(" + n + ")" && Spells(n, id))
  {
    hide ParseUnsigned, Spells;
    forall n: string | tag == "unknown(" + n + ")" ensures tag[0] == 'u' && |tag| >= 9 && tag[..8] == "unknown(" && tag[8..|tag| - 1] == n {}
    if |tag| >= 9 && tag[..8] == "unknown(" && tag[|tag| - 1] == ')' {
      var n := tag[8..|tag| - 1];
      assert tag == "unknown(" + n + ")";
      ParsesIff(n, 255, id);
    }
  }

  /** Push the id's tag unless it is there already. */
  method Push(out: seq<string>, id: nat, ghost seen: seq<nat>) returns (r: seq<string>)
    requires out == Tags(FirstSeen(seen))
    ensures r == Tags(FirstSeen(seen + [id]))
  {
    hide TagOf;
    var tag := TagOf(id);
    TagsMembership(FirstSeen(seen), id);
    FirstSeenMembers(seen);
    assert (seen + [id])[..|seen|] == seen;
    r := out;
    if tag !in out {
      r := out + [tag];
      assert r == Tags(FirstSeen(seen) + [id]);
    }
  }

  method PushElements(out: seq<string>, list: seq<Json>, ghost seen: seq<nat>) returns (r: seq<string>)
    requires out == Tags(FirstSeen(seen))
    ensures r == Tags(FirstSeen(seen + ElementIds(list)))
  {
    hide FirstSeen, TagOf, Tags;
    r := out;
    assert seen + ElementIds(list[..0]) == seen;
    for i := 0 to |list|
      invariant r == Tags(FirstSeen(seen + ElementIds(list[..i])))
    {
      assert list[..i + 1][..i] == list[..i];
      var id := IdOf(list[i]);
      if id.Some? {
        r := Push(r, id.value, seen + ElementIds(list[..i]));
        assert (seen + ElementIds(list[..i])) + [id.value] == seen + ElementIds(list[..i + 1]);
      }
    }
    assert list[..|list|] == list;
  }

  method PushMembers(out: seq<string>, members: seq<(string, Json)>, ghost seen: seq<nat>) returns (r: seq<string>)
    requires out == Tags(FirstSeen(seen))
    ensures r == Tags(FirstSeen(seen + MemberIds(members)))
  {
    hide FirstSeen, TagOf, Tags;
    r := out;
    assert seen + MemberIds(members[..0]) == seen;
    for i := 0 to |members|
      invariant r == Tags(FirstSeen(seen + MemberIds(members[..i])))
    {
      assert members[..i + 1][..i] == members[..i];
      var id := ParseUnsigned(members[i].0, U64_MAX);
      if id.Some? {
        r := Push(r, id.value, seen + MemberIds(members[..i]));
        assert (seen + MemberIds(members[..i])) + [id.value] == seen + MemberIds(members[..i + 1]);
      }
    }
    assert members[..|members|] == members;
  }

  /** The array form under both casings, then the map form under both. */
  method DecodeProviders(body: Option<Json>) returns (out: seq<string>)
    ensures out == Offered(body)
  {
    if body.None? { return []; }
    var v := body.value;
    assert Tags(FirstSeen([])) == [];
    hide FirstSeen, Tags, Elements, Members, ElementIds, MemberIds;
    ghost var a, b := ElementIds(Elements(v, "TwoFactorProviders")), ElementIds(Elements(v, "twoFactorProviders"));
    ghost var c := MemberIds(Members(v, "TwoFactorProviders2"));
    out := PushElements([], Elements(v, "TwoFactorProviders"), []);
    assert [] + a == a;
    out := PushElements(out, Elements(v, "twoFactorProviders"), a);
    out := PushMembers(out, Members(v, "TwoFactorProviders2"), a + b);
    out := PushMembers(out, Members(v, "twoFactorProviders2"), a + b + c);
  }

  // ---------- choosing the factor ----------

  /** Only these can be answered; hardware needs a ceremony backend in the build. */
  predicate Answerable(tag: string, hardware: bool) {
    tag == "totp" || tag == "email" || (tag == "webauthn" && hardware)
  }

  datatype ChoiceError = NotOffered | NoHardware | NothingAnswerable

  function FirstAnswerable(offered: seq<string>, hardware: bool): Option<string> {
    if offered == [] then None
    else if Answerable(offered[0], hardware) then Some(offered[0])
    else FirstAnswerable(offered[1..], hardware)
  }

  /** The choice inside `resolve_second_factor`: the preference if it was offered, else the
      first answerable tag in the server's order. */
  function Pick(offered: seq<string>, preference: Option<string>, hardware: bool): Result<string, ChoiceError> {
    match preference
    case Some(p) =>
      if p !in offered then Err(NotOffered)
      else if p == "webauthn" && !hardware then Err(NoHardware)
      else Ok(p)
    case None =>
      match FirstAnswerable(offered, hardware)
      case Some(tag) => Ok(tag)
      case None => Err(NothingAnswerable)
  }

  /** The order the command line documents: webauthn, then totp, then email. */
  function Strongest(offered: seq<string>, hardware: bool): Option<string> {
    if hardware && "webauthn" in offered then Some("webauthn")
    else if "totp" in offered then Some("totp")
    else if "email" in offered then Some("email")
    else None
  }

  /** Something answerable stands before the first `tag`. */
  predicate Preceded(offered: seq<string>, tag: string, hardware: bool) {
    exists i :: 0 <= i < |offered| && Answerable(offered[i], hardware)
      && forall j :: 0 <= j <= i ==> offered[j] != tag
  }

  lemma {:induction false} FirstAnswerableIs(offered: seq<string>, hardware: bool)
    ensures match FirstAnswerable(offered, hardware)
            case None => forall i :: 0 <= i < |offered| ==> !Answerable(offered[i], hardware)
            case Some(tag) =>
              (Answerable(tag, hardware)
               && exists i :: 0 <= i < |offered| && offered[i] == tag
                              && forall j :: 0 <= j < i ==> !Answerable(offered[j], hardware))
  {
    if offered != [] && !Answerable(offered[0], hardware) {
      FirstAnswerableIs(offered[1..], hardware);
      match FirstAnswerable(offered[1..], hardware)
      case None =>
        forall i | 0 <= i < |offered| ensures !Answerable(offered[i], hardware) {
          if i > 0 { assert offered[i] == offered[1..][i - 1]; }
        }
      case Some(tag) =>
        var i :| 0 <= i < |offered[1..]| && offered[1..][i] == tag
                 && forall j :: 0 <= j < i ==> !Answerable(offered[1..][j], hardware);
        assert offered[i + 1] == tag;
        forall j | 0 <= j < i + 1 ensures !Answerable(offered[j], hardware) {
          if j > 0 { assert offered[j] == offered[1..][j - 1]; }
        }
    }
  }

  /** Without a preference the choice is the documented one exactly when the server offers
      nothing answerable ahead of it. */
  lemma PickIsDocumentedIff(offered: seq<string>, hardware: bool)
    requires Strongest(offered, hardware).Some?
    ensures Pick(offered, None, hardware) == Ok(Strongest(offered, hardware).value)
            <==> !Preceded(offered, Strongest(offered, hardware).value, hardware)
  {
    var best := Strongest(offered, hardware).value;
    FirstAnswerableIs(offered, hardware);
    var b :| 0 <= b < |offered| && offered[b] == best;
    var tag := FirstAnswerable(offered, hardware).value;
    var i :| 0 <= i < |offered| && offered[i] == tag && forall j :: 0 <= j < i ==> !Answerable(offered[j], hardware);
    if tag == best {
      assert forall j :: 0 <= j < |offered| && Answerable(offered[j], hardware) ==> i <= j;
    } else {
      assert forall j :: 0 <= j <= i ==> offered[j] != best;
    }
  }

  /** A server that lists totp first gets totp, although a security key was offered too. */
  lemma ServerOrderBeatsDocumentedOrder()
    ensures Pick(["totp", "webauthn"], None, true) == Ok("totp")
    ensures Strongest(["totp", "webauthn"], true) == Some("webauthn")
  {}

  /** With a preference it is that factor or none: refused when the server did not offer it, and a
      security key when the build cannot answer it. Without one, something answerable that was
      offered, and none exactly when there is nothing. */
  lemma PickIs(offered: seq<string>, preference: Option<string>, hardware: bool)
    ensures var r := Pick(offered, preference, hardware);
            match preference
            case Some(p) =>
              && (r == Ok(p) <==> p in offered && (p != "webauthn" || hardware))
              && (r == Err(NotOffered) <==> p !in offered)
              && (r == Err(NoHardware) <==> p in offered && p == "webauthn" && !hardware)
            case None =>
              && (r.Ok? ==> r.value in offered && r.value in {"totp", "email", "webauthn"} && (r.value == "webauthn" ==> hardware))
              && (r.Err? ==> r.error == NothingAnswerable)
              && (r.Err? <==> "totp" !in offered && "email" !in offered && (hardware ==> "webauthn" !in offered))
  {
    FirstAnswerableIs(offered, hardware);
    if preference.None? {
      match FirstAnswerable(offered, hardware)
      case None => forall tag | tag in offered ensures !Answerable(tag, hardware) {}
      case Some(tag) => assert Answerable(tag, hardware);
    }
  }
}
