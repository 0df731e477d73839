/** One concrete suite: what `Crypto.Suite.Valid` assumes can be met. */
module ToySuite {
  import opened Results
  import opened Base64
  import opened Crypto

  function Shift(b: bytes, step: nat): (r: bytes)
    ensures |r| == |b|
  {
    seq(|b|, i requires 0 <= i < |b| => (b[i] + step) % 256)
  }

  function Wide(s: string): bytes {
    if s == [] then []
    else
      var n := s[0] as int;
      [n / 65536, n / 256 % 256, n % 256] + Wide(s[1..])
  }

  function Code(x: int, y: int, z: int): int { x * 65536 + y * 256 + z }

  function Narrow(b: bytes): Option<string> {
    if b == [] then Some("")
    else if |b| < 3 then None
    else
      var n := Code(b[0], b[1], b[2]);
      if n >= 0xD800 then
        if 0xE000 <= n < 0x11_0000 then Prepend(n as char, Narrow(b[3..])) else None
      else Prepend(n as char, Narrow(b[3..]))
  }

  function Prepend(c: char, s: Option<string>): Option<string> {
    if s.None? then None else Some([c] + s.value)
  }

  lemma {:induction false} NarrowWide(s: string)
    ensures Narrow(Wide(s)) == Some(s)
  {
    if s != [] {
      NarrowWide(s[1..]);
      CharCode(s[0]);
      hide Code;
      var b := Wide(s);
      assert b[3..] == Wide(s[1..]);
      assert s == [s[0]] + s[1..];
    }
  }

  lemma CharCode(c: char)
    ensures var n := c as int; Code(n / 65536, n / 256 % 256, n % 256) == n
  {
    var n := c as int;
    assert n / 256 / 256 == n / 65536;
  }

  lemma CodeDigits(x: byte, y: byte, z: byte)
    ensures var n := Code(x, y, z); n / 65536 == x && n / 256 % 256 == y && n % 256 == z
  {
    assert Code(x, y, z) / 256 == x * 256 + y;
  }

  lemma {:induction false} WideNarrow(b: bytes)
    ensures Narrow(b).Some? ==> Wide(Narrow(b).value) == b
  {
    if b != [] && Narrow(b).Some? {
      WideNarrow(b[3..]);
      CodeDigits(b[0], b[1], b[2]);
      var s := Narrow(b).value;
      assert s[0] as int == Code(b[0], b[1], b[2]) && s[1..] == Narrow(b[3..]).value;
      assert b == [b[0], b[1], b[2]] + b[3..];
    }
  }

  function Toy(): Suite {
    Suite(
      (k, b) => Shift(b, 1),
      (k, b) => Shift(b, 255),
      (k, m) => seq(32, _ => 0),
      (p, s) => if |s| < 8 then None else Some(seq(64, _ => 7)),
      s => Wide(s),
      b => Narrow(b),
      b => if Narrow(b).None? then "" else Narrow(b).value,
      k => k != [],
      (k, c) => Some(c))
  }

  lemma ShiftBack(b: bytes)
    ensures Shift(Shift(b, 1), 255) == b
  {}

  lemma ToyIsValid()
    ensures Toy().Valid()
  {
    hide Wide, Narrow, Shift;
    forall b: bytes ensures |Shift(b, 1)| == |Shift(b, 255)| == |b| && Shift(Shift(b, 1), 255) == b { ShiftBack(b); }
    forall b: bytes ensures Narrow(b).Some? ==> Wide(Narrow(b).value) == b { WideNarrow(b); }
    forall s: string ensures Narrow(Wide(s)) == Some(s) { NarrowWide(s); }
  }
}
