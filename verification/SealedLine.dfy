/** The one-line container both sealed files share:
    `magic.<salt_b64>.<iv_b64>.<ct_b64>.<mac_b64>`. */
module SealedLine {
  import opened Results
  import opened Text
  import opened Base64

  datatype Fields = Fields(salt: bytes, iv: bytes, ct: bytes, mac: bytes) {
    predicate Sized() { |iv| == 16 && |mac| == 32 }
  }

  function Sections(magic: string, f: Fields): seq<string> {
    [magic, Encode(Standard, f.salt), Encode(Standard, f.iv), Encode(Standard, f.ct), Encode(Standard, f.mac)]
  }

  function Write(magic: string, f: Fields): string { Join(Sections(magic, f), '.') }

  function Read(magic: string, line: string): Option<Fields> {
    var parts := Split(Trim(line), '.');
    if |parts| != 5 || parts[0] != magic then None
    else
      match (Decode(Standard, parts[1]), Decode(Standard, parts[2]),
             Decode(Standard, parts[3]), Decode(Standard, parts[4]))
      case (Some(salt), Some(iv), Some(ct), Some(mac)) =>
        if |iv| == 16 && |mac| == 32 then Some(Fields(salt, iv, ct, mac)) else None
      case _ => None
  }

  predicate Magic(magic: string) { magic != [] && '.' !in magic && !IsWhite(magic[0]) }

  /** A line is read as `f` exactly when, outer white space aside, it is the writing of `f`. */
  lemma ReadIff(magic: string, line: string, f: Fields)
    requires Magic(magic)
    ensures Read(magic, line) == Some(f) <==> Trim(line) == Write(magic, f) && f.Sized()
  {
    hide Decode, Encode, Split, Join, Trim;
    var parts := Split(Trim(line), '.');
    JoinOfSplit(Trim(line), '.');
    SectionsHaveNoDot(magic, f);
    SplitOfJoin(Sections(magic, f), '.');
    if |parts| == 5 {
      DecodeIffEncoded(Standard, parts[1], f.salt);
      DecodeIffEncoded(Standard, parts[2], f.iv);
      DecodeIffEncoded(Standard, parts[3], f.ct);
      DecodeIffEncoded(Standard, parts[4], f.mac);
      if parts[0] == magic && Read(magic, line) == Some(f) { assert parts == Sections(magic, f); }
    }
  }

  lemma SectionsHaveNoDot(magic: string, f: Fields)
    requires Magic(magic)
    ensures forall x :: x in Sections(magic, f) ==> '.' !in x
  {
    forall b: bytes ensures '.' !in Encode(Standard, b) { EncodeAlphabet(Standard, b); }
  }

  /** What is written has no white space at either end. */
  lemma WriteIsTight(magic: string, f: Fields)
    requires Magic(magic) && f.Sized()
    ensures Trim(Write(magic, f)) == Write(magic, f)
  {
    hide Encode, Trim;
    var d := Encode(Standard, f.mac);
    var line := Write(magic, f);
    EncodeAlphabet(Standard, f.mac);
    assert d != [] by { DecodeEncode(Standard, f.mac); DecodeEncode(Standard, []); }
    JoinEnds(Sections(magic, f), '.');
    assert d[|d| - 1] in d;
    TrimTight(line);
  }

  /** Five sections with dots between them. */
  lemma WriteIs(magic: string, f: Fields)
    ensures Write(magic, f) == magic + "." + Encode(Standard, f.salt) + "." + Encode(Standard, f.iv)
                               + "." + Encode(Standard, f.ct) + "." + Encode(Standard, f.mac)
  {
    hide Encode, Join;
    var a, b, c, d := Encode(Standard, f.salt), Encode(Standard, f.iv), Encode(Standard, f.ct), Encode(Standard, f.mac);
    JoinStep(magic, [a, b, c, d]);
    JoinStep(a, [b, c, d]);
    JoinStep(b, [c, d]);
    JoinStep(c, [d]);
    JoinOne(d);
    assert [magic] + [a, b, c, d] == Sections(magic, f);
    assert [a] + [b, c, d] == [a, b, c, d] && [b] + [c, d] == [b, c, d] && [c] + [d] == [c, d];
  }

  lemma JoinStep(first: string, rest: seq<string>)
    requires rest != []
    ensures Join([first] + rest, '.') == first + "." + Join(rest, '.')
  {
    assert ([first] + rest)[1..] == rest;
  }

  lemma JoinOne(s: string)
    ensures Join([s], '.') == s
  {}
}
