/** The string operations the repository takes from the Rust standard library:
    splitting, trimming, ASCII case folding, integer parsing and printing. */
module Text {
  import opened Results

  // ---------- split and join on one character ----------

  /** `s.split(sep)`: always at least one part. */
  function Split(s: string, sep: char): (parts: seq<string>)
    ensures |parts| >= 1
  {
    if s == [] then [""]
    else
      var rest := Split(s[1..], sep);
      if s[0] == sep then [""] + rest
      else [[s[0]] + rest[0]] + rest[1..]
  }

  function Join(parts: seq<string>, sep: char): string {
    if |parts| == 0 then ""
    else if |parts| == 1 then parts[0]
    else parts[0] + [sep] + Join(parts[1..], sep)
  }

  lemma {:induction false} SplitFirst(a: string, t: string, sep: char)
    requires sep !in a
    ensures Split(a + [sep] + t, sep) == [a] + Split(t, sep)
  {
    if a == [] {
      assert (a + [sep] + t)[1..] == t;
    } else {
      assert (a + [sep] + t)[1..] == a[1..] + [sep] + t;
      SplitFirst(a[1..], t, sep);
      assert [a[0]] + a[1..] == a;
    }
  }

  lemma {:induction false} SplitWhole(a: string, sep: char)
    requires sep !in a
    ensures Split(a, sep) == [a]
  {
    if a != [] {
      SplitWhole(a[1..], sep);
      assert [a[0]] + a[1..] == a;
    }
  }

  lemma {:induction false} SplitOfJoin(parts: seq<string>, sep: char)
    requires |parts| >= 1 && forall p :: p in parts ==> sep !in p
    ensures Split(Join(parts, sep), sep) == parts
  {
    if |parts| == 1 {
      SplitWhole(parts[0], sep);
    } else {
      SplitOfJoin(parts[1..], sep);
      SplitFirst(parts[0], Join(parts[1..], sep), sep);
    }
  }

  lemma {:induction false} JoinOfSplit(s: string, sep: char)
    ensures Join(Split(s, sep), sep) == s
    ensures forall p :: p in Split(s, sep) ==> sep !in p
  {
    if s != [] {
      JoinOfSplit(s[1..], sep);
      var rest := Split(s[1..], sep);
      if s[0] == sep {
        assert ([""] + rest)[1..] == rest;
      } else {
        var parts := [[s[0]] + rest[0]] + rest[1..];
        assert parts[1..] == rest[1..];
        if |rest| > 1 {
          assert Join(parts, sep) == [s[0]] + (rest[0] + [sep] + Join(rest[1..], sep));
        }
      }
    }
  }

  lemma {:induction false} JoinEnds(parts: seq<string>, sep: char)
    requires |parts| >= 1 && parts[|parts| - 1] != ""
    ensures var s := Join(parts, sep); var last := parts[|parts| - 1];
            s != "" && s[|s| - 1] == last[|last| - 1] && (parts[0] != "" ==> s[0] == parts[0][0])
  {
    if |parts| > 1 { JoinEnds(parts[1..], sep); }
  }

  // ---------- split at the first occurrence of a pattern ----------

  /** `s.split_once(pat)` */
  function SplitOnce(s: string, pat: string): (r: Option<(string, string)>)
    requires pat != []
    ensures r.Some? ==> s == r.value.0 + pat + r.value.1
    ensures r.Some? && |pat| == 1 ==> pat[0] !in r.value.0
    ensures r.None? && |pat| == 1 ==> pat[0] !in s
  {
    if |s| < |pat| then None
    else if s[..|pat|] == pat then Some(("", s[|pat|..]))
    else
      assert s == [s[0]] + s[1..];
      assert |pat| == 1 ==> s[..1] == [s[0]] && pat == [pat[0]];
      match SplitOnce(s[1..], pat)
      case None => None
      case Some((a, b)) => Some(([s[0]] + a, b))
  }

  lemma {:induction false} SplitOnceAt(a: string, b: string, pat: string)
    requires pat != [] && pat[0] !in a
    ensures SplitOnce(a + pat + b, pat) == Some((a, b))
  {
    var s := a + pat + b;
    if a == [] {
      assert s[..|pat|] == pat && s[|pat|..] == b;
    } else {
      assert s[1..] == a[1..] + pat + b;
      SplitOnceAt(a[1..], b, pat);
      assert s[0] == a[0];
      assert s[..|pat|] != pat by { assert s[..|pat|][0] == a[0]; }
      assert [s[0]] + a[1..] == a;
    }
  }

  lemma {:induction false} NeverSplits(s: string, pat: string)
    requires pat != [] && pat[0] !in s
    ensures SplitOnce(s, pat).None?
  {
    if |s| >= |pat| {
      assert s[..|pat|] != pat by { assert s[..|pat|][0] == s[0]; }
      NeverSplits(s[1..], pat);
    }
  }

  predicate OccursAt(s: string, pat: string, i: nat) { i + |pat| <= |s| && s[i..i + |pat|] == pat }

  lemma OccursInTail(s: string, pat: string, i: nat)
    requires s != [] && i > 0
    ensures OccursAt(s, pat, i) <==> OccursAt(s[1..], pat, i - 1)
  {
    if i + |pat| <= |s| { assert s[1..][i - 1..i - 1 + |pat|] == s[i..i + |pat|]; }
  }

  /** The split is at the first place where the pattern occurs, and there is none only if there
      is no such place. */
  lemma {:induction false} SplitOnceFirst(s: string, pat: string)
    requires pat != []
    ensures match SplitOnce(s, pat)
            case None => forall i: nat :: !OccursAt(s, pat, i)
            case Some((a, b)) => OccursAt(s, pat, |a|) && s == a + pat + b && forall i: nat :: i < |a| ==> !OccursAt(s, pat, i)
  {
    if |s| >= |pat| {
      assert s[0..|pat|] == s[..|pat|];
      if s[..|pat|] != pat {
        SplitOnceFirst(s[1..], pat);
        forall i: nat | i > 0 ensures OccursAt(s, pat, i) <==> OccursAt(s[1..], pat, i - 1) { OccursInTail(s, pat, i); }
      }
    }
  }

  // ---------- trimming ----------

  /** The Unicode White_Space property, as `str::trim` uses it. */
  predicate IsWhite(c: char) {
    var n := c as int;
    9 <= n <= 13 || n == 0x20 || n == 0x85 || n == 0xA0 || n == 0x1680 || 0x2000 <= n <= 0x200A
    || n == 0x2028 || n == 0x2029 || n == 0x202F || n == 0x205F || n == 0x3000
  }

  function TrimStart(s: string): string {
    if s != [] && IsWhite(s[0]) then TrimStart(s[1..]) else s
  }

  function TrimEnd(s: string): string {
    if s != [] && IsWhite(s[|s| - 1]) then TrimEnd(s[..|s| - 1]) else s
  }

  function Trim(s: string): string { TrimEnd(TrimStart(s)) }

  /** No white space at either end. */
  predicate Tight(s: string) { s != [] ==> !IsWhite(s[0]) && !IsWhite(s[|s| - 1]) }

  lemma TrimTight(s: string)
    requires Tight(s)
    ensures Trim(s) == s
  {}

  lemma {:induction false} TrimEndTight(s: string)
    ensures TrimEnd(s) != [] ==> s != [] && TrimEnd(s)[0] == s[0] && !IsWhite(TrimEnd(s)[|TrimEnd(s)| - 1])
  {
    if s != [] && IsWhite(s[|s| - 1]) { TrimEndTight(s[..|s| - 1]); }
  }

  lemma {:induction false} TrimStartTight(s: string)
    ensures TrimStart(s) != [] ==> !IsWhite(TrimStart(s)[0])
  {
    if s != [] && IsWhite(s[0]) { TrimStartTight(s[1..]); }
  }

  lemma TrimIsTight(s: string)
    ensures Tight(Trim(s))
  {
    TrimStartTight(s);
    TrimEndTight(TrimStart(s));
  }

  predicate AllWhite(s: string) { forall i :: 0 <= i < |s| ==> IsWhite(s[i]) }

  /** The white space characters, one by one. */
  lemma WhiteSpaceIs(c: char)
    ensures IsWhite(c) <==>
              c as int in {0x9, 0xA, 0xB, 0xC, 0xD, 0x20, 0x85, 0xA0, 0x1680, 0x2000, 0x2001, 0x2002, 0x2003, 0x2004, 0x2005, 0x2006,
                           0x2007, 0x2008, 0x2009, 0x200A, 0x2028, 0x2029, 0x202F, 0x205F, 0x3000}
  {}

  lemma {:induction false} TrimStartOf(a: string, t: string)
    requires AllWhite(a)
    ensures TrimStart(a + t) == TrimStart(t)
  {
    if a == [] {
      assert a + t == t;
    } else {
      assert (a + t)[1..] == a[1..] + t;
      TrimStartOf(a[1..], t);
    }
  }

  lemma {:induction false} TrimEndOf(t: string, b: string)
    requires AllWhite(b)
    ensures TrimEnd(t + b) == TrimEnd(t)
  {
    if b == [] {
      assert t + b == t;
    } else {
      assert (t + b)[..|t + b| - 1] == t + b[..|b| - 1];
      TrimEndOf(t, b[..|b| - 1]);
    }
  }

  lemma {:induction false} TrimStartParts(s: string) returns (a: string)
    ensures AllWhite(a) && s == a + TrimStart(s)
  {
    if s != [] && IsWhite(s[0]) {
      a := TrimStartParts(s[1..]);
      a := [s[0]] + a;
    } else {
      a := [];
    }
  }

  lemma {:induction false} TrimEndParts(s: string) returns (b: string)
    ensures AllWhite(b) && s == TrimEnd(s) + b
  {
    if s != [] && IsWhite(s[|s| - 1]) {
      b := TrimEndParts(s[..|s| - 1]);
      b := b + [s[|s| - 1]];
      assert s == s[..|s| - 1] + [s[|s| - 1]];
    } else {
      b := [];
    }
  }

  /** `t` is what trimming leaves exactly when it has no outer white space and only white space
      was taken off either end. */
  lemma TrimIff(s: string, t: string)
    ensures t == Trim(s) <==> Tight(t) && exists a, b :: AllWhite(a) && AllWhite(b) && s == a + t + b
  {
    TrimIsTight(s);
    var a := TrimStartParts(s);
    var b := TrimEndParts(TrimStart(s));
    assert s == a + Trim(s) + b;
    forall a, b | Tight(t) && AllWhite(a) && AllWhite(b) && s == a + t + b ensures t == Trim(s) {
      assert s == a + (t + b);
      TrimStartOf(a, t + b);
      if t == "" {
        assert t + b == b && b + "" == b;
        TrimStartOf(b, "");
      } else {
        assert (t + b)[0] == t[0];
        TrimEndOf(t, b);
      }
    }
  }

  /** `s.trim_end_matches(c)` */
  function DropTrailing(s: string, c: char): (r: string)
    ensures r != [] ==> r[|r| - 1] != c
    ensures |r| <= |s| && r == s[..|r|]
  {
    if s != [] && s[|s| - 1] == c then DropTrailing(s[..|s| - 1], c) else s
  }

  lemma {:induction false} DropTrailingOf(s: string, c: char, n: nat)
    requires c !in s
    ensures DropTrailing(s + seq(n, _ => c), c) == s
  {
    var t := s + seq(n, _ => c);
    if n > 0 {
      assert t[..|t| - 1] == s + seq(n - 1, _ => c);
      DropTrailingOf(s, c, n - 1);
    } else {
      assert t == s;
    }
  }

  // ---------- ASCII case ----------

  function Lower(c: char): char {
    if 'A' <= c <= 'Z' then (c as int + 32) as char else c
  }

  function Upper(c: char): char {
    if 'a' <= c <= 'z' then (c as int - 32) as char else c
  }

  function LowerAll(s: string): (r: string)
    ensures |r| == |s|
  {
    seq(|s|, i requires 0 <= i < |s| => Lower(s[i]))
  }

  /** `a.eq_ignore_ascii_case(b)` */
  predicate EqFold(a: string, b: string) { LowerAll(a) == LowerAll(b) }

  /** Equal, or the two cases of one ASCII letter. */
  predicate SameLetter(x: char, y: char) {
    x == y || ('A' <= x <= 'Z' && y as int == x as int + 32) || ('A' <= y <= 'Z' && x as int == y as int + 32)
  }

  lemma EqFoldIff(a: string, b: string)
    ensures EqFold(a, b) <==> |a| == |b| && forall i :: 0 <= i < |a| ==> SameLetter(a[i], b[i])
  {
    if EqFold(a, b) {
      forall i | 0 <= i < |a| ensures SameLetter(a[i], b[i]) { assert LowerAll(a)[i] == LowerAll(b)[i]; }
    }
  }

  // ---------- unsigned integers ----------

  predicate AllDigits(s: string) { forall i :: 0 <= i < |s| ==> '0' <= s[i] <= '9' }

  function Digit(d: nat): (c: char)
    requires d < 10
    ensures '0' <= c <= '9' && c as int == '0' as int + d
  {
    ('0' as int + d) as char
  }

  function Decimal(n: nat): (s: string)
    ensures s != [] && AllDigits(s)
  {
    if n < 10 then [Digit(n)] else Decimal(n / 10) + [Digit(n % 10)]
  }

  function DigitsValue(s: string): nat
    requires AllDigits(s)
  {
    if s == [] then 0
    else DigitsValue(s[..|s| - 1]) * 10 + (s[|s| - 1] as int - '0' as int)
  }

  /** `s.parse()` for an unsigned type whose largest value is `max`: an optional `+`,
      then at least one digit; overflow is a failure. */
  function ParseUnsigned(s: string, max: nat): Option<nat> {
    var digits := if s != [] && s[0] == '+' then s[1..] else s;
    if digits == [] || !AllDigits(digits) then None
    else if DigitsValue(digits) <= max then Some(DigitsValue(digits))
    else None
  }

  lemma {:induction false} DecimalValue(n: nat)
    ensures DigitsValue(Decimal(n)) == n
  {
    if n >= 10 {
      DecimalValue(n / 10);
      assert Decimal(n)[..|Decimal(n)| - 1] == Decimal(n / 10);
    }
  }

  lemma DecimalParses(n: nat, max: nat)
    ensures ParseUnsigned(Decimal(n), max) == if n <= max then Some(n) else None
  {
    DecimalValue(n);
    assert Decimal(n)[0] in Decimal(n);
  }

  lemma DecimalInjective(a: nat, b: nat)
    requires Decimal(a) == Decimal(b)
    ensures a == b
  {
    DecimalValue(a);
    DecimalValue(b);
  }

  predicate Zeros(z: string) { forall i :: 0 <= i < |z| ==> z[i] == '0' }

  /** `n` in decimal, after any number of zeros and at most one plus sign. */
  ghost predicate Spells(s: string, n: nat) {
    exists z: string :: Zeros(z) && (s == z + Decimal(n) || s == "+" + z + Decimal(n))
  }

  lemma {:induction false} DigitsAreDecimal(s: string) returns (z: string)
    requires s != "" && AllDigits(s)
    ensures Zeros(z) && s == z + Decimal(DigitsValue(s))
  {
    var front, last := s[..|s| - 1], s[|s| - 1];
    var d: nat := last as int - '0' as int;
    assert s == front + [last];
    if front == "" {
      z := "";
      assert DigitsValue(front) == 0;
    } else {
      z := DigitsAreDecimal(front);
      var m := DigitsValue(front);
      assert DigitsValue(s) / 10 == m && DigitsValue(s) % 10 == d;
      if m == 0 {
        z := z + "0";
      } else {
        assert z + Decimal(m) + [last] == z + (Decimal(m) + [last]);
      }
    }
  }

  lemma {:induction false} ZerosAddNothing(z: string, s: string)
    requires Zeros(z) && AllDigits(s)
    ensures AllDigits(z + s) && DigitsValue(z + s) == DigitsValue(s)
    decreases |s|, |z|
  {
    if s != "" {
      assert (z + s)[..|z + s| - 1] == z + s[..|s| - 1];
      ZerosAddNothing(z, s[..|s| - 1]);
    } else if z != "" {
      assert z + s == z && z[..|z| - 1] + s == z[..|z| - 1];
      ZerosAddNothing(z[..|z| - 1], s);
    }
  }

  lemma SpelledDigits(s: string, n: nat)
    requires Spells(s, n)
    ensures var digits := if s != [] && s[0] == '+' then s[1..] else s; digits != [] && AllDigits(digits) && DigitsValue(digits) == n
  {
    hide Decimal, DigitsValue;
    var z: string :| Zeros(z) && (s == z + Decimal(n) || s == "+" + z + Decimal(n));
    var d := z + Decimal(n);
    ZerosAddNothing(z, Decimal(n));
    DecimalValue(n);
    assert d[0] in d && '0' <= d[0] <= '9';
    if s != d { assert s == "+" + d && s[1..] == d; }
  }

  /** Exactly the spellings of the numbers up to `max` are read, each as its number. */
  lemma ParsesIff(s: string, max: nat, n: nat)
    ensures ParseUnsigned(s, max) == Some(n) <==> n <= max && Spells(s, n)
  {
    hide Decimal, DigitsValue;
    var digits := if s != [] && s[0] == '+' then s[1..] else s;
    if ParseUnsigned(s, max) == Some(n) {
      var z := DigitsAreDecimal(digits);
      if digits != s { assert s == "+" + z + Decimal(n); }
    }
    if n <= max && Spells(s, n) { SpelledDigits(s, n); }
  }
}
