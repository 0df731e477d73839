/** Secret references: `scheme://locus[#field]`. */
module Refs {
  import opened Results
  import opened Text

  datatype ParseRefError = MissingScheme | UnsupportedScheme(scheme: string) | EmptyLocus | EmptyField

  datatype Ref = Ref(scheme: string, locus: string, field: string, fieldExplicit: bool)

  const KNOWN_SCHEMES := ["vw", "op", "vault"]

  const DEFAULT_FIELD := "password"

  function Parse(s: string): Result<Ref, ParseRefError> {
    match SplitOnce(s, "://")
    case None => Err(MissingScheme)
    case Some((schemePart, rest)) =>
      var scheme := LowerAll(schemePart);
      if scheme !in KNOWN_SCHEMES then Err(UnsupportedScheme(schemePart))
      else
        var (locus, field, explicit) :=
          match SplitOnce(rest, "#") case Some((l, f)) => (l, f, true) case None => (rest, DEFAULT_FIELD, false);
        if locus == "" then Err(EmptyLocus)
        else if field == "" then Err(EmptyField)
        else Ok(Ref(scheme, locus, field, explicit))
  }

  function Display(r: Ref): string { r.scheme + "://" + r.locus + "#" + r.field }

  predicate Printable(r: Ref) {
    r.scheme in KNOWN_SCHEMES && r.locus != "" && '#' !in r.locus && r.field != ""
  }

  lemma KnownScheme(scheme: string)
    requires scheme in KNOWN_SCHEMES
    ensures ':' !in scheme && LowerAll(scheme) == scheme
  {
    assert scheme == "vw" || scheme == "op" || scheme == "vault";
  }

  lemma ParsedIsPrintable(s: string)
    ensures Parse(s).Ok? ==> Printable(Parse(s).value)
  {}

  /** A ref prints to text that parses back to it exactly when its scheme is a known one, its
      locus is non-empty without `#`, its field is non-empty, and the field is explicit. */
  lemma DisplayParsesIff(r: Ref)
    ensures Parse(Display(r)) == Ok(r) <==> Printable(r) && r.fieldExplicit
  {
    if Printable(r) && r.fieldExplicit {
      KnownScheme(r.scheme);
      assert Display(r) == r.scheme + "://" + (r.locus + "#" + r.field);
      SplitOnceAt(r.scheme, r.locus + "#" + r.field, "://");
      SplitOnceAt(r.locus, r.field, "#");
    }
    if Parse(Display(r)) == Ok(r) {
      ParsedIsPrintable(Display(r));
      ExplicitWhenPrinted(r);
    }
  }

  lemma ExplicitWhenPrinted(r: Ref)
    requires Parse(Display(r)) == Ok(r)
    ensures r.fieldExplicit
  {
    KnownScheme(r.scheme);
    assert Display(r) == r.scheme + "://" + (r.locus + "#" + r.field);
    SplitOnceAt(r.scheme, r.locus + "#" + r.field, "://");
    assert (r.locus + "#" + r.field)[|r.locus|] == '#';
  }

  /** Printing a parsed ref and parsing again keeps scheme, locus and field and marks the field
      explicit; a second print is the first. */
  lemma ReparseOfDisplay(s: string)
    requires Parse(s).Ok?
    ensures var r := Parse(s).value;
            Parse(Display(r)) == Ok(r.(fieldExplicit := true)) && Display(r.(fieldExplicit := true)) == Display(r)
  {
    ParsedIsPrintable(s);
    DisplayParsesIff(Parse(s).value.(fieldExplicit := true));
  }

  // ---------- which texts are refs ----------

  /** The text after the scheme, as the ref it means. */
  predicate Reads(rest: string, r: Ref) {
    if r.fieldExplicit then '#' !in r.locus && rest == r.locus + "#" + r.field
    else '#' !in rest && rest == r.locus && r.field == "password"
  }

  /** A text is the ref `r` exactly when it is a known scheme in any case, `://`, a locus without
      `#`, and then either `#` and a field or nothing, which means the password. */
  lemma ParseIff(s: string, r: Ref)
    ensures Parse(s) == Ok(r) <==>
              && r.scheme in ["vw", "op", "vault"] && r.locus != "" && r.field != ""
              && exists part, rest :: EqFold(part, r.scheme) && s == part + "://" + rest && Reads(rest, r)
  {
    if Parse(s) == Ok(r) {
      var (part, rest) := SplitOnce(s, "://").value;
      KnownScheme(r.scheme);
      assert EqFold(part, r.scheme) && s == part + "://" + rest && Reads(rest, r);
    }
    forall part, rest | r.scheme in ["vw", "op", "vault"] && r.locus != "" && r.field != "" && EqFold(part, r.scheme)
                        && s == part + "://" + rest && Reads(rest, r)
      ensures Parse(s) == Ok(r)
    {
      KnownScheme(r.scheme);
      NoColon(part, r.scheme);
      SplitOnceAt(part, rest, "://");
      if r.fieldExplicit { SplitOnceAt(r.locus, r.field, "#"); } else { NeverSplits(rest, "#"); }
    }
  }

  lemma NoColon(part: string, scheme: string)
    requires EqFold(part, scheme) && ':' !in scheme
    ensures ':' !in part
  {
    EqFoldIff(part, scheme);
    forall i | 0 <= i < |part| ensures part[i] != ':' { assert SameLetter(part[i], scheme[i]) && scheme[i] in scheme; }
  }

  /** The four ways not to be a ref, the first that applies. */
  lemma ParseFailsAs(s: string)
    requires Parse(s).Err?
    ensures match SplitOnce(s, "://")
            case None => Parse(s).error == MissingScheme
            case Some((part, rest)) =>
              if forall known :: known in ["vw", "op", "vault"] ==> !EqFold(part, known) then Parse(s).error == UnsupportedScheme(part)
              else if rest == "" || rest[0] == '#' then Parse(s).error == EmptyLocus
              else Parse(s).error == EmptyField && exists locus: string :: rest == locus + "#"
  {
    hide SplitOnce, LowerAll;
    match SplitOnce(s, "://")
    case None =>
    case Some((part, rest)) =>
      KnownScheme("vw");
      KnownScheme("op");
      KnownScheme("vault");
      EmptyHead(rest);
  }

  lemma EmptyHead(rest: string)
    ensures match SplitOnce(rest, "#")
            case None => !(rest != "" && rest[0] == '#')
            case Some((locus, field)) => (locus == "" <==> rest != "" && rest[0] == '#') && rest == locus + "#" + field
  {
    if rest != "" && rest[0] == '#' {
      assert rest == "" + "#" + rest[1..];
      SplitOnceAt("", rest[1..], "#");
    }
  }
}
