/** Block mode, padding and authentication as the sealed formats use them. The external
    primitives are fields of a `Suite`; `Valid` is all that is assumed of them. */
module Crypto {
  import opened Results
  import opened Base64

  datatype Suite = Suite(
    enc: (bytes, bytes) -> bytes,              // one AES-256 block: key, block
    dec: (bytes, bytes) -> bytes,
    hmac: (bytes, bytes) -> bytes,             // HMAC-SHA256: key, message
    argon: (bytes, bytes) -> Option<bytes>,    // Argon2id to 64 bytes: passphrase, salt
    utf8: string -> bytes,
    text: bytes -> Option<string>,             // String::from_utf8
    lossy: bytes -> string,                    // String::from_utf8_lossy
    pkcs8: bytes -> bool,                      // is a private key in PKCS8
    rsa: (bytes, bytes) -> Option<bytes>       // OAEP-SHA1: private key, ciphertext
  ) {
    ghost predicate Valid() {
      && (forall k: bytes, b: bytes :: |enc(k, b)| == |b|)
      && (forall k: bytes, b: bytes :: |dec(k, b)| == |b|)
      && (forall k: bytes, b: bytes :: |b| == 16 ==> dec(k, enc(k, b)) == b)
      && (forall k: bytes, m: bytes :: |hmac(k, m)| == 32)
      && (forall p: bytes, s: bytes :: argon(p, s).Some? ==> |argon(p, s).value| == 64)
      && (forall s: string :: text(utf8(s)) == Some(s))
      && (forall b: bytes :: text(b).Some? ==> utf8(text(b).value) == b)
      && (forall s: string :: lossy(utf8(s)) == s)
    }
  }

  datatype CryptoError =
    | UnsupportedEncString(ty: nat)
    | MalformedEncString
    | MacMismatch
    | BadPadding
    | InvalidKeyLength
    | AsymmetricDecrypt
    | InvalidPrivateKey

  /** 64 bytes: 32 for encryption, 32 for authentication. */
  datatype SymmetricKey = SymmetricKey(enc: bytes, mac: bytes) {
    predicate Valid() { |enc| == 32 && |mac| == 32 }

    function Blob(): bytes { enc + mac }
  }

  function From64(blob: bytes): (r: Result<SymmetricKey, CryptoError>)
    ensures r.Ok? ==> r.value.Valid()
  {
    if |blob| != 64 then Err(InvalidKeyLength)
    else Ok(SymmetricKey(blob[..32], blob[32..]))
  }

  lemma From64Blob(k: SymmetricKey)
    requires k.Valid()
    ensures |k.Blob()| == 64 && From64(k.Blob()) == Ok(k)
  {}

  // ---------- exclusive or ----------

  function Pow2(n: nat): nat { if n == 0 then 1 else 2 * Pow2(n - 1) }

  /** Exclusive or of the low `n` bits. */
  function XorBits(n: nat, a: nat, b: nat): (r: nat)
    ensures r < Pow2(n)
  {
    if n == 0 then 0 else (a + b) % 2 + 2 * XorBits(n - 1, a / 2, b / 2)
  }

  lemma LowBit(a: nat, b: nat, high: nat)
    ensures ((a + b) % 2 + 2 * high) / 2 == high
    ensures ((a + b) % 2 + 2 * high + b) % 2 == a % 2
  {
    var low := (a + b) % 2;
    assert (low + b) % 2 == a % 2;
    assert (low + 2 * high + b) % 2 == (low + b) % 2;
  }

  lemma {:induction false} XorBitsTwice(n: nat, a: nat, b: nat)
    requires a < Pow2(n)
    ensures XorBits(n, XorBits(n, a, b), b) == a
  {
    if n > 0 {
      var high := XorBits(n - 1, a / 2, b / 2);
      LowBit(a, b, high);
      XorBitsTwice(n - 1, a / 2, b / 2);
    }
  }

  function XorByte(a: byte, b: byte): byte {
    assert Pow2(8) == 256;
    XorBits(8, a, b)
  }

  function Xor(a: bytes, b: bytes): (r: bytes)
    requires |a| == |b|
    ensures |r| == |a|
  {
    seq(|a|, i requires 0 <= i < |a| => XorByte(a[i], b[i]))
  }

  lemma XorTwice(a: bytes, b: bytes)
    requires |a| == |b|
    ensures Xor(Xor(a, b), b) == a
  {
    assert Pow2(8) == 256;
    forall i | 0 <= i < |a| ensures Xor(Xor(a, b), b)[i] == a[i] {
      XorBitsTwice(8, a[i], b[i]);
    }
  }

  /** The `i`-th binary digit. */
  function Bit(x: nat, i: nat): nat { if i == 0 then x % 2 else Bit(x / 2, i - 1) }

  lemma {:induction false} XorBitsBit(n: nat, a: nat, b: nat, i: nat)
    requires i < n
    ensures Bit(XorBits(n, a, b), i) == if Bit(a, i) == Bit(b, i) then 0 else 1
  {
    var high := XorBits(n - 1, a / 2, b / 2);
    LowBit(a, b, high);
    if i == 0 {
      assert (a + b) % 2 == if a % 2 == b % 2 then 0 else 1;
      assert ((a + b) % 2 + 2 * high) % 2 == (a + b) % 2;
    } else {
      XorBitsBit(n - 1, a / 2, b / 2, i - 1);
    }
  }

  /** A bit of the result is set exactly where the two differ. */
  lemma XorBitwise(a: bytes, b: bytes, j: nat, i: nat)
    requires |a| == |b| && j < |a| && i < 8
    ensures Bit(Xor(a, b)[j], i) == if Bit(a[j], i) == Bit(b[j], i) then 0 else 1
  {
    XorBitsBit(8, a[j], b[j], i);
  }

  // ---------- a block decryption that undoes encryption is undone by it ----------

  function Cons(x: byte, t: bytes): bytes { [x] + t }

  ghost function AllStrings(n: nat): set<bytes> {
    if n == 0 then {[]}
    else set x: int, t | 0 <= x < 256 && t in AllStrings(n - 1) :: Cons(x, t)
  }

  lemma {:induction false} AllStringsComplete(n: nat, b: bytes)
    ensures b in AllStrings(n) <==> |b| == n
  {
    if n > 0 {
      if |b| == n {
        AllStringsComplete(n - 1, b[1..]);
        assert b == Cons(b[0], b[1..]);
      }
      if b in AllStrings(n) {
        var x: int, t :| 0 <= x < 256 && t in AllStrings(n - 1) && b == Cons(x, t);
        AllStringsComplete(n - 1, t);
      }
    }
  }

  lemma AllBlocks() returns (all: set<bytes>)
    ensures forall b: bytes :: b in all <==> |b| == 16
  {
    all := AllStrings(16);
    forall b: bytes { AllStringsComplete(16, b); }
  }

  ghost function Image(f: bytes -> bytes, s: set<bytes>): set<bytes> { set x | x in s :: f(x) }

  lemma {:induction false} ImageSize(f: bytes -> bytes, s: set<bytes>)
    requires forall x, y :: x in s && y in s && f(x) == f(y) ==> x == y
    ensures |Image(f, s)| == |s|
  {
    if s != {} {
      var x :| x in s;
      ImageSize(f, s - {x});
      assert Image(f, s) == Image(f, s - {x}) + {f(x)};
      assert f(x) !in Image(f, s - {x});
    } else {
      assert Image(f, s) == {};
    }
  }

  lemma SubsetSize(a: set<bytes>, b: set<bytes>)
    requires a <= b && |a| == |b|
    ensures a == b
  {
    if a != b {
      var x :| x in b && x !in a;
      SubsetSizeLe(a, b - {x});
    }
  }

  lemma {:induction false} SubsetSizeLe<T>(a: set<T>, b: set<T>)
    requires a <= b
    ensures |a| <= |b|
  {
    if a != {} {
      var x :| x in a;
      SubsetSizeLe(a - {x}, b - {x});
    }
  }

  /** Counting the 256^16 blocks: an encryption that can be undone reaches every block, so
      encrypting a decrypted block gives it back. */
  lemma EncOfDec(su: Suite, k: bytes, c: bytes)
    requires su.Valid() && |c| == 16
    ensures su.enc(k, su.dec(k, c)) == c
  {
    var f := (b: bytes) => su.enc(k, b);
    var all := AllBlocks();
    forall x, y | x in all && y in all && f(x) == f(y) ensures x == y {
      assert su.dec(k, su.enc(k, x)) == x && su.dec(k, su.enc(k, y)) == y;
    }
    ImageSize(f, all);
    SubsetSize(Image(f, all), all);
    assert c in Image(f, all);
    var b :| b in all && c == f(b);
  }

  // ---------- CBC ----------

  function CbcEncrypt(su: Suite, k: bytes, iv: bytes, pt: bytes): bytes
    decreases |pt|
  {
    if |pt| < 16 || |iv| != 16 then []
    else
      var c := su.enc(k, Xor(pt[..16], iv));
      c + CbcEncrypt(su, k, c, pt[16..])
  }

  function CbcDecrypt(su: Suite, k: bytes, iv: bytes, ct: bytes): bytes
    decreases |ct|
  {
    if |ct| < 16 || |iv| != 16 then []
    else
      var b := su.dec(k, ct[..16]);
      (if |b| == 16 then Xor(b, iv) else []) + CbcDecrypt(su, k, ct[..16], ct[16..])
  }

  lemma {:induction false} CbcUndo(su: Suite, k: bytes, iv: bytes, pt: bytes)
    requires su.Valid() && |iv| == 16 && |pt| % 16 == 0
    ensures |CbcEncrypt(su, k, iv, pt)| == |pt|
    ensures CbcDecrypt(su, k, iv, CbcEncrypt(su, k, iv, pt)) == pt
    decreases |pt|
  {
    if |pt| > 0 {
      var x := Xor(pt[..16], iv);
      var c := su.enc(k, x);
      var ct := CbcEncrypt(su, k, iv, pt);
      CbcUndo(su, k, c, pt[16..]);
      assert ct[..16] == c && ct[16..] == CbcEncrypt(su, k, c, pt[16..]);
      assert su.dec(k, c) == x;
      XorTwice(pt[..16], iv);
      assert pt == pt[..16] + pt[16..];
    }
  }

  lemma {:induction false} CbcRedo(su: Suite, k: bytes, iv: bytes, ct: bytes)
    requires su.Valid() && |iv| == 16 && |ct| % 16 == 0
    ensures |CbcDecrypt(su, k, iv, ct)| == |ct|
    ensures CbcEncrypt(su, k, iv, CbcDecrypt(su, k, iv, ct)) == ct
    decreases |ct|
  {
    if |ct| > 0 {
      var c := ct[..16];
      var b := su.dec(k, c);
      var pt := CbcDecrypt(su, k, iv, ct);
      CbcRedo(su, k, c, ct[16..]);
      assert pt[..16] == Xor(b, iv) && pt[16..] == CbcDecrypt(su, k, c, ct[16..]);
      XorTwice(b, iv);
      EncOfDec(su, k, c);
      assert ct == c + ct[16..];
    }
  }

  // ---------- PKCS7 ----------

  function Fill(n: byte): bytes { seq(n, _ => n) }

  function Pad(p: bytes): bytes { p + Fill(16 - |p| % 16) }

  function Unpad(q: bytes): Option<bytes> {
    if q == [] then None
    else
      var n := q[|q| - 1];
      if n == 0 || n > 16 || n > |q| || q[|q| - n..] != Fill(n) then None
      else Some(q[..|q| - n])
  }

  lemma UnpadOfPad(p: bytes)
    ensures Unpad(Pad(p)) == Some(p)
  {
    var n := 16 - |p| % 16;
    var q := Pad(p);
    assert q[|q| - 1] == Fill(n)[n - 1] == n;
    assert q[|q| - n..] == Fill(n) && q[..|q| - n] == p;
  }

  lemma PadOfUnpad(q: bytes, p: bytes)
    requires |q| % 16 == 0 && Unpad(q) == Some(p)
    ensures q == Pad(p)
  {
    var m := q[|q| - 1];
    assert q == q[..|q| - m] + q[|q| - m..];
    assert |p| == |q| - m;
    BlockRest(|q|, m);
  }

  lemma BlockRest(total: nat, m: nat)
    requires total % 16 == 0 && 1 <= m <= 16 && m <= total
    ensures m == 16 - (total - m) % 16
  {}

  lemma UnpadIff(q: bytes, p: bytes)
    requires |q| % 16 == 0
    ensures Unpad(q) == Some(p) <==> q == Pad(p)
  {
    hide Unpad, Pad;
    UnpadOfPad(p);
    if Unpad(q) == Some(p) { PadOfUnpad(q, p); }
  }

  /** Section 6.3 of RFC 5652: the text is filled up to the next multiple of 16, and every byte
      added says how many were added. */
  lemma PadIs(p: bytes)
    ensures p <= Pad(p) && |Pad(p)| == 16 * (|p| / 16 + 1)
    ensures forall i :: |p| <= i < |Pad(p)| ==> Pad(p)[i] == |Pad(p)| - |p|
  {}

  /** `q` is `p` with between 1 and 16 bytes added, each saying how many. */
  predicate PaddedFrom(q: bytes, p: bytes) {
    && p <= q && 1 <= |q| - |p| <= 16
    && forall i :: |p| <= i < |q| ==> q[i] == |q| - |p|
  }

  lemma UnpadIsPaddedFrom(q: bytes, p: bytes)
    ensures Unpad(q) == Some(p) <==> PaddedFrom(q, p)
  {
    if Unpad(q) == Some(p) {
      var n := q[|q| - 1];
      forall i | |p| <= i < |q| ensures q[i] == n { assert q[|q| - n..][i - |p|] == Fill(n)[i - |p|]; }
    }
    if PaddedFrom(q, p) {
      var n := q[|q| - 1];
      assert n == |q| - |p|;
      assert q[|q| - n..] == Fill(n) && q[..|q| - n] == p;
    }
  }

  // ---------- the two together ----------

  /** `encrypt_padded_vec` */
  function CbcSeal(su: Suite, k: bytes, iv: bytes, p: bytes): bytes {
    CbcEncrypt(su, k, iv, Pad(p))
  }

  /** `decrypt_padded_vec`: the ciphertext must be a positive number of whole blocks. */
  function CbcOpen(su: Suite, k: bytes, iv: bytes, ct: bytes): Option<bytes> {
    if ct == [] || |ct| % 16 != 0 then None
    else Unpad(CbcDecrypt(su, k, iv, ct))
  }

  /** A ciphertext opens to `p` exactly when it is the ciphertext of `p`. */
  lemma CbcOpenIff(su: Suite, k: bytes, iv: bytes, ct: bytes, p: bytes)
    requires su.Valid() && |iv| == 16
    ensures CbcOpen(su, k, iv, ct) == Some(p) <==> ct == CbcSeal(su, k, iv, p)
    ensures |CbcSeal(su, k, iv, p)| % 16 == 0 && CbcSeal(su, k, iv, p) != []
  {
    CbcUndo(su, k, iv, Pad(p));
    if ct != [] && |ct| % 16 == 0 {
      CbcRedo(su, k, iv, ct);
      UnpadIff(CbcDecrypt(su, k, iv, ct), p);
    }
  }

  /** Section 6.2 of NIST SP 800-38A: each block of the ciphertext encrypts the plaintext block,
      exclusive-or'ed with the ciphertext block before it or, for the first, with the IV. */
  lemma {:induction false} CbcChains(su: Suite, k: bytes, iv: bytes, pt: bytes, i: nat)
    requires su.Valid() && |iv| == 16 && |pt| % 16 == 0 && i < |pt| / 16
    ensures var ct := CbcEncrypt(su, k, iv, pt);
            && |ct| == |pt|
            && ct[16 * i..16 * i + 16]
               == su.enc(k, Xor(pt[16 * i..16 * i + 16], if i == 0 then iv else ct[16 * i - 16..16 * i]))
    decreases i
  {
    hide Xor;
    CbcUndo(su, k, iv, pt);
    var c, rest, ct := su.enc(k, Xor(pt[..16], iv)), pt[16..], CbcEncrypt(su, k, iv, pt);
    assert ct == c + CbcEncrypt(su, k, c, rest);
    if i == 0 {
      assert pt[0..16] == pt[..16] && ct[0..16] == c;
    } else {
      CbcChains(su, k, c, rest, i - 1);
      var more := CbcEncrypt(su, k, c, rest);
      assert rest[16 * (i - 1)..16 * (i - 1) + 16] == pt[16 * i..16 * i + 16];
      assert more[16 * (i - 1)..16 * (i - 1) + 16] == ct[16 * i..16 * i + 16];
      if i == 1 {
        assert ct[0..16] == c;
      } else {
        assert more[16 * (i - 1) - 16..16 * (i - 1)] == ct[16 * i - 16..16 * i];
      }
    }
  }
}
