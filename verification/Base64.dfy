/** Base64 as the two engines the repository uses define it: STANDARD with canonical
    padding (section 4 of RFC 4648) and URL_SAFE_NO_PAD (section 5). Both engines reject
    characters outside the alphabet and non-zero trailing bits (section 3.5). */
module Base64 {
  import opened Results
  import opened Text

  type byte = x: int | 0 <= x < 256

  type bytes = seq<byte>

  datatype Engine = Standard | UrlSafeNoPad

  type sextet = x: int | 0 <= x < 64

  // ---------- bytes to six-bit groups ----------

  datatype Triple = Triple(a: byte, b: byte, c: byte)

  datatype Quad = Quad(x: sextet, y: sextet, z: sextet, w: sextet)

  function Up(t: Triple): Quad {
    Quad(t.a / 4, t.a % 4 * 16 + t.b / 16, t.b % 16 * 4 + t.c / 64, t.c % 64)
  }

  function Down(q: Quad): Triple {
    Triple(q.x * 4 + q.y / 16, q.y % 16 * 16 + q.z / 4, q.z % 4 * 64 + q.w)
  }

  lemma DownOfUp(t: Triple)
    ensures Down(Up(t)) == t
    ensures t.c == 0 ==> Up(t).w == 0
    ensures t.b == 0 && t.c == 0 ==> Up(t).z == 0
  {}

  lemma UpOfDown(q: Quad)
    ensures Up(Down(q)) == q
    ensures q.z == 0 && q.w == 0 ==> Down(q).c == 0
  {
    TopBits(q.x, q.y, 4, 16);
    TopBits(q.y % 16, q.z, 16, 4);
    TopBits(q.z % 4, q.w, 64, 1);
  }

  lemma TopBits(high: nat, low: sextet, up: nat, down: nat)
    requires (up, down) in {(4, 16), (16, 4), (64, 1)}
    ensures (high * up + low / down) / up == high
    ensures (high * up + low / down) % up == low / down
  {}

  function Sextets(b: bytes): seq<sextet> {
    if |b| == 0 then []
    else if |b| == 1 then var q := Up(Triple(b[0], 0, 0)); [q.x, q.y]
    else if |b| == 2 then var q := Up(Triple(b[0], b[1], 0)); [q.x, q.y, q.z]
    else var q := Up(Triple(b[0], b[1], b[2])); [q.x, q.y, q.z, q.w] + Sextets(b[3..])
  }

  /** A last group of two or three sextets must leave no bits over. */
  function Unsextets(x: seq<sextet>): Option<bytes> {
    if |x| == 0 then Some([])
    else if |x| == 1 then None
    else if |x| == 2 then
      var t := Down(Quad(x[0], x[1], 0, 0));
      if t.b != 0 then None else Some([t.a])
    else if |x| == 3 then
      var t := Down(Quad(x[0], x[1], x[2], 0));
      if t.c != 0 then None else Some([t.a, t.b])
    else
      var t := Down(Quad(x[0], x[1], x[2], x[3]));
      match Unsextets(x[4..])
      case None => None
      case Some(rest) => Some([t.a, t.b, t.c] + rest)
  }

  lemma {:induction false} UnsextetsOf(b: bytes)
    ensures Unsextets(Sextets(b)) == Some(b)
  {
    hide Up, Down;
    if |b| == 1 {
      DownOfUp(Triple(b[0], 0, 0));
      assert b == [b[0]];
    } else if |b| == 2 {
      DownOfUp(Triple(b[0], b[1], 0));
      assert b == [b[0], b[1]];
    } else if |b| >= 3 {
      UnsextetsOf(b[3..]);
      assert Sextets(b)[4..] == Sextets(b[3..]);
      DownOfUp(Triple(b[0], b[1], b[2]));
      assert b == [b[0], b[1], b[2]] + b[3..];
    }
  }

  lemma {:induction false} SextetsOf(x: seq<sextet>, b: bytes)
    requires Unsextets(x) == Some(b)
    ensures x == Sextets(b)
  {
    hide Up, Down;
    if |x| == 2 {
      UpOfDown(Quad(x[0], x[1], 0, 0));
    } else if |x| == 3 {
      UpOfDown(Quad(x[0], x[1], x[2], 0));
    } else if |x| > 3 {
      SextetsOf(x[4..], b[3..]);
      UpOfDown(Quad(x[0], x[1], x[2], x[3]));
      assert x == [x[0], x[1], x[2], x[3]] + x[4..];
    }
  }

  // ---------- six-bit groups to characters ----------

  function Symbol(e: Engine, i: sextet): char {
    if i < 26 then (65 + i) as char
    else if i < 52 then (71 + i) as char
    else if i < 62 then (i - 4) as char
    else if i == 62 then (if e == Standard then '+' else '-')
    else (if e == Standard then '/' else '_')
  }

  function Index(e: Engine, c: char): (r: Option<int>)
    ensures r.Some? ==> 0 <= r.value < 64
  {
    var n := c as int;
    if 65 <= n <= 90 then Some(n - 65)
    else if 97 <= n <= 122 then Some(n - 71)
    else if 48 <= n <= 57 then Some(n + 4)
    else if c == (if e == Standard then '+' else '-') then Some(62)
    else if c == (if e == Standard then '/' else '_') then Some(63)
    else None
  }

  lemma SymbolIff(e: Engine, c: char, i: sextet)
    ensures c == Symbol(e, i) <==> Index(e, c) == Some(i)
  {}

  function Symbols(e: Engine, x: seq<sextet>): string {
    if x == [] then "" else [Symbol(e, x[0])] + Symbols(e, x[1..])
  }

  function Indices(e: Engine, s: string): Option<seq<sextet>> {
    if s == [] then Some([])
    else
      match (Index(e, s[0]), Indices(e, s[1..]))
      case (Some(i), Some(t)) => Some([i] + t)
      case _ => None
  }

  lemma {:induction false} IndicesIff(e: Engine, s: string, x: seq<sextet>)
    ensures Indices(e, s) == Some(x) <==> s == Symbols(e, x)
  {
    if s != [] && x != [] {
      SymbolIff(e, s[0], x[0]);
      IndicesIff(e, s[1..], x[1..]);
      assert s == [s[0]] + s[1..] && x == [x[0]] + x[1..];
      assert Symbols(e, x)[1..] == Symbols(e, x[1..]);
    }
  }

  lemma {:induction false} SymbolsSize(e: Engine, x: seq<sextet>)
    ensures |Symbols(e, x)| == |x|
    ensures '=' !in Symbols(e, x)
    ensures forall c :: c in Symbols(e, x) ==> Index(e, c).Some?
  {
    if x != [] {
      SymbolIff(e, Symbol(e, x[0]), x[0]);
      SymbolsSize(e, x[1..]);
    }
  }

  // ---------- the codec ----------

  /** The `=` signs that follow `n` symbols. */
  function Padding(e: Engine, n: nat): string {
    if e == Standard then seq((4 - n % 4) % 4, _ => '=') else ""
  }

  function Encode(e: Engine, b: bytes): string {
    var x := Sextets(b);
    Symbols(e, x) + Padding(e, |x|)
  }

  function Decode(e: Engine, s: string): Option<bytes> {
    var body := if e == Standard then DropTrailing(s, '=') else s;
    if s != body + Padding(e, |body|) then None
    else
      match Indices(e, body)
      case None => None
      case Some(x) => Unsextets(x)
  }

  /** The accepted language is exactly the printed one: decoding succeeds with `b` on the
      encoding of `b` and on nothing else. */
  lemma DecodeIffEncoded(e: Engine, s: string, b: bytes)
    ensures Decode(e, s) == Some(b) <==> s == Encode(e, b)
  {
    DecodeEncode(e, b);
    if Decode(e, s) == Some(b) {
      var body := if e == Standard then DropTrailing(s, '=') else s;
      var x := Indices(e, body).value;
      IndicesIff(e, body, x);
      SymbolsSize(e, x);
      SextetsOf(x, b);
    }
  }

  lemma DecodeEncode(e: Engine, b: bytes)
    ensures Decode(e, Encode(e, b)) == Some(b)
  {
    var x := Sextets(b);
    SymbolsSize(e, x);
    DropTrailingOf(Symbols(e, x), '=', (4 - |x| % 4) % 4);
    assert e == UrlSafeNoPad ==> Encode(e, b) == Symbols(e, x);
    IndicesIff(e, Symbols(e, x), x);
    UnsextetsOf(b);
  }

  /** Only alphabet characters and `=` are ever printed. */
  lemma EncodeAlphabet(e: Engine, b: bytes)
    ensures forall c :: c in Encode(e, b) ==> Index(e, c).Some? || (e == Standard && c == '=')
  {
    SymbolsSize(e, Sextets(b));
  }

  // ---------- against the text of RFC 4648 ----------

  /** Tables 1 and 2: the letters, the digits, and two characters more. */
  function Digit64(e: Engine, i: sextet): char {
    if i < 26 then ('A' as int + i) as char
    else if i < 52 then ('a' as int + (i - 26)) as char
    else if i < 62 then ('0' as int + (i - 52)) as char
    else if e == Standard then "+/"[i - 62] else "-_"[i - 62]
  }

  lemma SymbolIsDigit(e: Engine, i: sextet)
    ensures Symbol(e, i) == Digit64(e, i)
  {}

  /** The characters are the base-64 digits of `n`, the highest first. */
  predicate Numeral(e: Engine, s: string, n: nat) {
    if s == "" then n == 0
    else s[|s| - 1] == Digit64(e, n % 64) && Numeral(e, s[..|s| - 1], n / 64)
  }

  lemma NumeralSnoc(e: Engine, s: string, n: nat, x: sextet)
    requires Numeral(e, s, n)
    ensures Numeral(e, s + [Symbol(e, x)], n * 64 + x)
  {
    hide Symbol, Digit64;
    SymbolIsDigit(e, x);
    var t := s + [Symbol(e, x)];
    assert t[..|t| - 1] == s && (n * 64 + x) / 64 == n && (n * 64 + x) % 64 == x;
  }

  lemma Digits2(e: Engine, x: sextet, y: sextet)
    ensures Numeral(e, [Symbol(e, x), Symbol(e, y)], x * 64 + y)
  {
    assert Numeral(e, "", 0);
    hide Symbol, Numeral;
    NumeralSnoc(e, "", 0, x);
    assert "" + [Symbol(e, x)] == [Symbol(e, x)];
    NumeralSnoc(e, [Symbol(e, x)], x, y);
    assert [Symbol(e, x)] + [Symbol(e, y)] == [Symbol(e, x), Symbol(e, y)];
  }

  lemma Digits3(e: Engine, x: sextet, y: sextet, z: sextet)
    ensures Numeral(e, [Symbol(e, x), Symbol(e, y), Symbol(e, z)], (x * 64 + y) * 64 + z)
  {
    hide Symbol, Numeral;
    Digits2(e, x, y);
    NumeralSnoc(e, [Symbol(e, x), Symbol(e, y)], x * 64 + y, z);
    assert [Symbol(e, x), Symbol(e, y)] + [Symbol(e, z)] == [Symbol(e, x), Symbol(e, y), Symbol(e, z)];
  }

  lemma Digits4(e: Engine, x: sextet, y: sextet, z: sextet, w: sextet)
    ensures Numeral(e, [Symbol(e, x), Symbol(e, y), Symbol(e, z), Symbol(e, w)], ((x * 64 + y) * 64 + z) * 64 + w)
  {
    hide Symbol, Numeral;
    Digits3(e, x, y, z);
    NumeralSnoc(e, [Symbol(e, x), Symbol(e, y), Symbol(e, z)], (x * 64 + y) * 64 + z, w);
    assert [Symbol(e, x), Symbol(e, y), Symbol(e, z)] + [Symbol(e, w)] == [Symbol(e, x), Symbol(e, y), Symbol(e, z), Symbol(e, w)];
  }

  lemma UpIsNumber(t: Triple)
    ensures var q := Up(t); ((q.x * 64 + q.y) * 64 + q.z) * 64 + q.w == (t.a * 256 + t.b) * 256 + t.c
  {}

  lemma EncodeNone(e: Engine)
    ensures Encode(e, []) == ""
  {}

  /** Three bytes become the four digits of their 24-bit number. */
  lemma EncodeThree(e: Engine, b: bytes) returns (s: string)
    requires |b| >= 3
    ensures |s| == 4 && Numeral(e, s, (b[0] as int * 256 + b[1]) * 256 + b[2]) && Encode(e, b) == s + Encode(e, b[3..])
  {
    hide Symbol, Up, Numeral;
    var q := Up(Triple(b[0], b[1], b[2]));
    UpIsNumber(Triple(b[0], b[1], b[2]));
    Digits4(e, q.x, q.y, q.z, q.w);
    var head, rest := [q.x, q.y, q.z, q.w], Sextets(b[3..]);
    s := [Symbol(e, q.x), Symbol(e, q.y), Symbol(e, q.z), Symbol(e, q.w)];
    SymbolsOf(e, head);
    SymbolsAppend(e, head, rest);
    assert Padding(e, 4 + |rest|) == Padding(e, |rest|) by { assert (4 + |rest|) % 4 == |rest| % 4; }
    assert Symbols(e, head) == s;
    assert s + Symbols(e, rest) + Padding(e, |rest|) == s + (Symbols(e, rest) + Padding(e, |rest|));
  }

  /** Two bytes left over become three digits, two zero bits added, and in the standard form one `=`. */
  lemma EncodeTwo(e: Engine, b: bytes) returns (s: string)
    requires |b| == 2
    ensures |s| == 3 && Numeral(e, s, (b[0] as int * 256 + b[1]) * 4) && Encode(e, b) == s + if e == Standard then "=" else ""
  {
    hide Symbol, Up, Numeral;
    var q := Up(Triple(b[0], b[1], 0));
    UpIsNumber(Triple(b[0], b[1], 0));
    DownOfUp(Triple(b[0], b[1], 0));
    Digits3(e, q.x, q.y, q.z);
    s := [Symbol(e, q.x), Symbol(e, q.y), Symbol(e, q.z)];
    SymbolsOf(e, Sextets(b));
    assert Symbols(e, Sextets(b)) == s;
    assert Padding(Standard, 3) == "=";
  }

  /** One byte left over becomes two digits, four zero bits added, and in the standard form `==`. */
  lemma EncodeOne(e: Engine, b: bytes) returns (s: string)
    requires |b| == 1
    ensures |s| == 2 && Numeral(e, s, b[0] as int * 16) && Encode(e, b) == s + if e == Standard then "==" else ""
  {
    hide Symbol, Up, Numeral;
    var q := Up(Triple(b[0], 0, 0));
    UpIsNumber(Triple(b[0], 0, 0));
    DownOfUp(Triple(b[0], 0, 0));
    Digits2(e, q.x, q.y);
    s := [Symbol(e, q.x), Symbol(e, q.y)];
    SymbolsOf(e, Sextets(b));
    assert Symbols(e, Sextets(b)) == s;
    assert Padding(Standard, 2) == "==";
  }

  lemma {:induction false} SymbolsOf(e: Engine, x: seq<sextet>)
    ensures Symbols(e, x) == seq(|x|, i requires 0 <= i < |x| => Symbol(e, x[i]))
  {
    hide Symbol;
    if x != [] { SymbolsOf(e, x[1..]); }
  }

  lemma {:induction false} SymbolsAppend(e: Engine, a: seq<sextet>, b: seq<sextet>)
    ensures Symbols(e, a + b) == Symbols(e, a) + Symbols(e, b)
  {
    hide Symbol;
    if a == [] {
      assert a + b == b;
    } else {
      assert (a + b)[1..] == a[1..] + b;
      SymbolsAppend(e, a[1..], b);
    }
  }
}
