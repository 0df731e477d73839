/** The base64url strings of a security-key challenge. */
module Webauthn {
  import opened Results
  import opened Text
  import opened Base64

  /** `b64url_nopad` */
  function EncodeUrl(b: bytes): string { Encode(UrlSafeNoPad, b) }

  /** `b64url_decode`: any number of trailing `=` is tolerated. */
  function DecodeUrl(s: string): Option<bytes> { Decode(UrlSafeNoPad, DropTrailing(s, '=')) }

  function EqualSigns(n: nat): string { seq(n, _ => '=') }

  /** Decoding gives `b` exactly for the encoding of `b` followed by any number of `=`. */
  lemma DecodesIffEncoded(s: string, b: bytes)
    ensures DecodeUrl(s) == Some(b) <==> exists n: nat :: s == EncodeUrl(b) + EqualSigns(n)
  {
    hide Decode, Encode;
    DecodeIffEncoded(UrlSafeNoPad, DropTrailing(s, '='), b);
    if DecodeUrl(s) == Some(b) {
      var n := |s| - |EncodeUrl(b)|;
      TrailingOnly(s, '=');
      assert s == EncodeUrl(b) + EqualSigns(n);
    }
    forall n: nat | s == EncodeUrl(b) + EqualSigns(n) ensures DecodeUrl(s) == Some(b) {
      EncodeAlphabet(UrlSafeNoPad, b);
      assert '=' !in EncodeUrl(b);
      DropTrailingOf(EncodeUrl(b), '=', n);
    }
  }

  lemma {:induction false} TrailingOnly(s: string, c: char)
    ensures var r := DropTrailing(s, c); s == r + seq(|s| - |r|, _ => c)
  {
    if s != [] && s[|s| - 1] == c {
      TrailingOnly(s[..|s| - 1], c);
      assert s == s[..|s| - 1] + [c];
    }
  }

  function ClientDataJson(origin: string, challenge: string): string {
    "{\"type\":\"webauthn.get\",\"challenge\":\"" + challenge + "\",\"origin\":\"" + origin + "\",\"tokenBinding\":null}"
  }

  /** The client data a ceremony signs, when the served challenge decodes. */
  function ClientDataFor(origin: string, served: string): Option<string> {
    match DecodeUrl(served)
    case None => None
    case Some(raw) => Some(ClientDataJson(origin, EncodeUrl(raw)))
  }

  /** The challenge that is signed is the server's own string, padding aside; there is none exactly
      when that string is no base64url. */
  lemma SignedChallengeIsServed(origin: string, served: string)
    ensures ClientDataFor(origin, served).Some? <==> exists b: bytes, n: nat :: served == EncodeUrl(b) + EqualSigns(n)
    ensures ClientDataFor(origin, served).Some? ==>
              ClientDataFor(origin, served).value
              == "{\"type\":\"webauthn.get\",\"challenge\":\"" + DropTrailing(served, '=')
                 + "\",\"origin\":\"" + origin + "\",\"tokenBinding\":null}"
  {
    hide Decode, Encode;
    forall b: bytes ensures DecodeUrl(served) == Some(b) <==> exists n: nat :: served == EncodeUrl(b) + EqualSigns(n) {
      DecodesIffEncoded(served, b);
    }
    if DecodeUrl(served).Some? {
      DecodeIffEncoded(UrlSafeNoPad, DropTrailing(served, '='), DecodeUrl(served).value);
    }
  }

  /** The allow-list of a request: every id must decode. */
  function AllowList(ids: seq<string>): Option<seq<bytes>> {
    if ids == [] then Some([])
    else
      match (DecodeUrl(ids[0]), AllowList(ids[1..]))
      case (Some(b), Some(t)) => Some([b] + t)
      case _ => None
  }

  /** There is no request exactly when some id does not decode. */
  lemma {:induction false} AllowListFailsIff(ids: seq<string>)
    ensures AllowList(ids).None? <==> exists i :: 0 <= i < |ids| && DecodeUrl(ids[i]).None?
  {
    hide Decode;
    if ids != [] {
      AllowListFailsIff(ids[1..]);
      if i :| 0 <= i < |ids[1..]| && DecodeUrl(ids[1..][i]).None? { assert DecodeUrl(ids[i + 1]).None?; }
      if i :| 0 <= i < |ids| && DecodeUrl(ids[i]).None? {
        if i > 0 { assert DecodeUrl(ids[1..][i - 1]).None?; }
      }
    }
  }

  /** The ids a request carries are the served ones, padding aside, in order. */
  lemma {:induction false} AllowListIsServed(ids: seq<string>)
    ensures AllowList(ids).Some? ==>
              |AllowList(ids).value| == |ids|
              && forall i :: 0 <= i < |ids| ==> EncodeUrl(AllowList(ids).value[i]) == DropTrailing(ids[i], '=')
  {
    hide Decode, Encode;
    if ids != [] && AllowList(ids).Some? {
      AllowListIsServed(ids[1..]);
      DecodeIffEncoded(UrlSafeNoPad, DropTrailing(ids[0], '='), DecodeUrl(ids[0]).value);
    }
  }
}
