/** `export --format env`: mangled keys, escaped values, one line each. */
module EnvExport {
  import opened Results
  import opened Text
  import opened Sorting
  import opened Crypto
  import opened Mapping
  import opened SealedItems
  import Vault

  // ---------- keys ----------

  predicate IsKeyChar(c: char) { 'A' <= c <= 'Z' || '0' <= c <= '9' || c == '_' }

  function MangleChar(c: char): (r: char)
    ensures IsKeyChar(r)
  {
    var u := Upper(c);
    if 'A' <= u <= 'Z' || '0' <= u <= '9' then u else '_'
  }

  function Base(name: string): (r: string)
    ensures |r| == |name| && forall i :: 0 <= i < |r| ==> IsKeyChar(r[i])
  {
    seq(|name|, i requires 0 <= i < |name| => MangleChar(name[i]))
  }

  /** An ASCII letter in upper case, a digit as it is, an underscore for everything else. */
  lemma BaseIs(name: string)
    ensures |Base(name)| == |name|
    ensures forall i :: 0 <= i < |name| ==>
              (('A' <= name[i] <= 'Z' || '0' <= name[i] <= '9') ==> Base(name)[i] == name[i])
              && ('a' <= name[i] <= 'z' ==> Base(name)[i] as int - 'A' as int == name[i] as int - 'a' as int)
              && (!('A' <= name[i] <= 'Z' || '0' <= name[i] <= '9' || 'a' <= name[i] <= 'z') ==> Base(name)[i] == '_')
  {}

  /** A name that is already made of upper-case letters, digits and underscores is its own base. */
  lemma BaseOfEnvName(name: string)
    requires forall i :: 0 <= i < |name| ==> 'A' <= name[i] <= 'Z' || '0' <= name[i] <= '9' || name[i] == '_'
    ensures Base(name) == name
  {}

  /** Names that differ only in ASCII case have one base. */
  lemma BaseFolds(a: string, b: string)
    requires EqFold(a, b)
    ensures Base(a) == Base(b)
  {
    EqFoldIff(a, b);
    forall i | 0 <= i < |a| ensures Base(a)[i] == Base(b)[i] { assert SameLetter(a[i], b[i]); }
  }

  /** The base itself, then `base__1`, `base__2`, … */
  function CandidateKey(base: string, n: nat): string {
    if n == 0 then base else base + "__" + Decimal(n)
  }

  lemma CandidatesDiffer(base: string, m: nat, n: nat)
    requires m != n
    ensures CandidateKey(base, m) != CandidateKey(base, n)
  {
    if m > 0 && n > 0 && CandidateKey(base, m) == CandidateKey(base, n) {
      assert CandidateKey(base, m)[|base| + 2..] == Decimal(m);
      assert CandidateKey(base, n)[|base| + 2..] == Decimal(n);
      DecimalInjective(m, n);
    }
  }

  function FirstCandidates(base: string, n: nat): (r: set<string>)
    ensures forall x :: x in r <==> exists i: nat :: i < n && x == CandidateKey(base, i)
    ensures |r| == n
  {
    if n == 0 then {}
    else
      forall i: nat | i < n - 1 ensures CandidateKey(base, i) != CandidateKey(base, n - 1) {
        CandidatesDiffer(base, i, n - 1);
      }
      FirstCandidates(base, n - 1) + {CandidateKey(base, n - 1)}
  }

  predicate TakenUpTo(base: string, taken: set<string>, n: nat) {
    forall i: nat :: i < n ==> CandidateKey(base, i) in taken
  }

  /** As many candidates can be taken as there are taken keys, no more. */
  lemma Pigeonhole(base: string, taken: set<string>, n: nat)
    requires TakenUpTo(base, taken, n)
    ensures n <= |taken|
  {
    SubsetSizeLe(FirstCandidates(base, n), taken);
  }

  ghost predicate LeastFree(base: string, taken: set<string>, n: nat) {
    TakenUpTo(base, taken, n) && CandidateKey(base, n) !in taken
  }

  lemma LeastFreeUnique(base: string, taken: set<string>, m: nat, n: nat)
    requires LeastFree(base, taken, m) && LeastFree(base, taken, n)
    ensures m == n
  {
    assert !(m < n) && !(n < m);
  }

  /** The least free candidate from the `k`-th on. */
  function FirstFree(base: string, taken: set<string>, k: nat): (n: nat)
    requires TakenUpTo(base, taken, k)
    ensures LeastFree(base, taken, n)
    decreases |taken| - k
  {
    if CandidateKey(base, k) !in taken then k
    else
      Pigeonhole(base, taken, k + 1);
      FirstFree(base, taken, k + 1)
  }

  /** `mangle_env_key`: the search stops within as many rounds as keys are taken, at the least
      free suffix, and the key is recorded under the name it stands for. */
  method MangleEnvKey(name: string, seen: map<string, string>) returns (key: string, seen': map<string, string>, ghost n: nat)
    ensures LeastFree(Base(name), seen.Keys, n) && n <= |seen|
    ensures key == CandidateKey(Base(name), n) && key !in seen
    ensures seen' == seen[key := name]
  {
    var base := Base(name);
    var candidate := base;
    var k := 0;
    while candidate in seen
      invariant candidate == CandidateKey(base, k) && TakenUpTo(base, seen.Keys, k)
      decreases |seen.Keys| - k
    {
      Pigeonhole(base, seen.Keys, k + 1);
      k := k + 1;
      candidate := base + "__" + Decimal(k);
    }
    Pigeonhole(base, seen.Keys, k);
    n := k;
    assert |seen.Keys| == |seen|;
    return candidate, seen[candidate := name], k;
  }

  predicate EnvKey(key: string) { key != "" && forall i :: 0 <= i < |key| ==> IsKeyChar(key[i]) }

  lemma CandidateIsEnvKey(name: string, n: nat)
    requires name != ""
    ensures EnvKey(CandidateKey(Base(name), n))
  {}

  function Numbered(base: string, n: nat): seq<string> {
    seq(n, i requires 0 <= i < n => if i == 0 then base else base + "__" + Decimal(i))
  }

  lemma NumberedAreLeast(base: string, n: nat)
    ensures LeastFree(base, KeySet(Numbered(base, n)), n)
  {
    hide Decimal;
    var keys := Numbered(base, n);
    forall i: nat | i < n ensures CandidateKey(base, i) in KeySet(keys) { assert keys[i] in keys; }
    forall i: nat | i < n ensures CandidateKey(base, n) != keys[i] { CandidatesDiffer(base, n, i); }
  }

  /** The first entry of a base keeps it; the ones after it get `__1`, `__2`, and so on. */
  lemma {:induction false} RepeatedBase(entries: seq<Entry>, base: string)
    requires forall i :: 0 <= i < |entries| ==> Base(entries[i].0) == base
    ensures ExportKeys(entries) == Numbered(base, |entries|)
  {
    hide Decimal, LeastFree, Base, CandidateKey;
    if entries != [] {
      var m := |entries| - 1;
      RepeatedBase(entries[..m], base);
      NumberedAreLeast(base, m);
      ExportKeysSnoc(entries, m, m);
      assert entries[..m + 1] == entries;
      CandidateIs(base, m);
      assert Numbered(base, m + 1) == Numbered(base, m) + [if m == 0 then base else base + "__" + Decimal(m)];
    }
  }

  lemma CandidateIs(base: string, n: nat)
    ensures CandidateKey(base, n) == if n == 0 then base else base + "__" + Decimal(n)
  {}

  // ---------- values ----------

  function ReplaceChar(s: string, c: char, replacement: string): string {
    if s == [] then [] else (if s[0] == c then replacement else [s[0]]) + ReplaceChar(s[1..], c, replacement)
  }

  /** `escape_env_value`: backslashes first, then newlines. */
  function Escape(v: string): string { ReplaceChar(ReplaceChar(v, '\\', "\\\\"), '\n', "\\n") }

  function EscapeChar(c: char): string {
    if c == '\\' then "\\\\" else if c == '\n' then "\\n" else [c]
  }

  function EscapeOnce(v: string): string {
    if v == [] then [] else EscapeChar(v[0]) + EscapeOnce(v[1..])
  }

  lemma {:induction false} ReplaceAppend(a: string, b: string, c: char, r: string)
    ensures ReplaceChar(a + b, c, r) == ReplaceChar(a, c, r) + ReplaceChar(b, c, r)
  {
    if a == [] {
      assert a + b == b;
    } else {
      assert (a + b)[1..] == a[1..] + b;
      ReplaceAppend(a[1..], b, c, r);
    }
  }

  /** The two passes are one map over the characters. */
  lemma {:induction false} EscapeIsOnePass(v: string)
    ensures Escape(v) == EscapeOnce(v)
  {
    if v != [] {
      EscapeIsOnePass(v[1..]);
      var head := if v[0] == '\\' then "\\\\" else [v[0]];
      ReplaceAppend(head, ReplaceChar(v[1..], '\\', "\\\\"), '\n', "\\n");
      EscapeHead(v[0]);
    }
  }

  lemma EscapeHead(c: char)
    ensures ReplaceChar(if c == '\\' then "\\\\" else [c], '\n', "\\n") == EscapeChar(c)
  {
    if c == '\\' {
      assert "\\\\"[1..] == "\\" && "\\"[1..] == "";
      assert ReplaceChar("\\", '\n', "\\n") == "\\";
    } else {
      assert [c][1..] == "";
      assert ReplaceChar("", '\n', "\\n") == "";
    }
  }

  function Unescape(s: string): Option<string> {
    if s == [] then Some("")
    else if s[0] == '\\' then
      if |s| < 2 then None
      else if s[1] == '\\' then Consed('\\', Unescape(s[2..]))
      else if s[1] == 'n' then Consed('\n', Unescape(s[2..]))
      else None
    else if s[0] == '\n' then None
    else Consed(s[0], Unescape(s[1..]))
  }

  function Consed(c: char, t: Option<string>): Option<string> {
    if t.None? then None else Some([c] + t.value)
  }

  lemma {:induction false} UnescapeOnce(v: string)
    ensures Unescape(EscapeOnce(v)) == Some(v)
    ensures '\n' !in EscapeOnce(v)
  {
    if v != [] {
      UnescapeOnce(v[1..]);
      var e := EscapeOnce(v);
      assert e[|EscapeChar(v[0])|..] == EscapeOnce(v[1..]);
      assert v == [v[0]] + v[1..];
    }
  }

  lemma {:induction false} EscapeOfUnescape(s: string)
    ensures Unescape(s).Some? ==> EscapeOnce(Unescape(s).value) == s
  {
    if s != [] && Unescape(s).Some? {
      var v := Unescape(s).value;
      if s[0] == '\\' {
        EscapeOfUnescape(s[2..]);
        assert v[1..] == Unescape(s[2..]).value;
        assert s == s[..2] + s[2..];
      } else {
        EscapeOfUnescape(s[1..]);
        assert v[1..] == Unescape(s[1..]).value;
        assert s == [s[0]] + s[1..];
      }
    }
  }

  /** A line reads as `v` exactly when it is the escape of `v`, which has no newline. */
  lemma UnescapesIffEscaped(s: string, v: string)
    ensures Unescape(s) == Some(v) <==> s == Escape(v)
    ensures '\n' !in Escape(v)
  {
    EscapeIsOnePass(v);
    UnescapeOnce(v);
    EscapeOfUnescape(s);
  }

  // ---------- the stream ----------

  type Entry = (string, string)

  /** Every field in export order: secrets in order, each one's keys ascending. */
  function Entries(secrets: seq<Secret>): seq<Entry> {
    if secrets == [] then []
    else FieldEntries(secrets[0].fields, SortedKeys(secrets[0].fields.Keys)) + Entries(secrets[1..])
  }

  function FieldEntries(fields: map<string, string>, keys: seq<string>): (r: seq<Entry>)
    ensures |r| == |keys|
  {
    seq(|keys|, i requires 0 <= i < |keys| => (keys[i], if keys[i] in fields then fields[keys[i]] else ""))
  }

  function Line(key: string, value: string): string { key + "=" + Escape(value) + "\n" }

  const NUL := '\0'

  /** The lines for the entries under their keys. */
  function Stream(keys: seq<string>, entries: seq<Entry>): string
    requires |keys| == |entries|
  {
    if keys == [] then ""
    else
      var n := |keys| - 1;
      Stream(keys[..n], entries[..n]) + Line(keys[n], entries[n].1)
  }

  function KeySet(keys: seq<string>): set<string> { set k | k in keys }

  ghost predicate KeyedAfter(name: string, taken: seq<string>, key: string) {
    exists n: nat :: LeastFree(Base(name), KeySet(taken), n) && key == CandidateKey(Base(name), n)
  }

  /** Each key is its name's least free candidate after the keys before it. */
  ghost predicate KeysFor(entries: seq<Entry>, keys: seq<string>) {
    |keys| == |entries| && forall i :: 0 <= i < |keys| ==> KeyedAfter(entries[i].0, keys[..i], keys[i])
  }

  lemma KeyedOnce(name: string, taken: seq<string>, key: string, key': string)
    requires KeyedAfter(name, taken, key) && KeyedAfter(name, taken, key')
    ensures key == key'
  {
    hide LeastFree, CandidateKey;
    var base := Base(name);
    var a: nat :| LeastFree(base, KeySet(taken), a) && key == CandidateKey(base, a);
    var b: nat :| LeastFree(base, KeySet(taken), b) && key' == CandidateKey(base, b);
    LeastFreeUnique(base, KeySet(taken), a, b);
  }

  /** The keys an export gives to these entries. */
  function ExportKeys(entries: seq<Entry>): (keys: seq<string>)
    ensures |keys| == |entries|
  {
    if entries == [] then []
    else
      var m := |entries| - 1;
      var taken := ExportKeys(entries[..m]);
      taken + [CandidateKey(Base(entries[m].0), FirstFree(Base(entries[m].0), KeySet(taken), 0))]
  }

  lemma ExportKeysSnoc(entries: seq<Entry>, m: nat, n: nat)
    requires m < |entries| && LeastFree(Base(entries[m].0), KeySet(ExportKeys(entries[..m])), n)
    ensures ExportKeys(entries[..m + 1]) == ExportKeys(entries[..m]) + [CandidateKey(Base(entries[m].0), n)]
  {
    hide LeastFree, TakenUpTo, CandidateKey;
    assert entries[..m + 1][..m] == entries[..m];
    var taken := KeySet(ExportKeys(entries[..m]));
    NoneTaken(Base(entries[m].0), taken);
    LeastFreeUnique(Base(entries[m].0), taken, n, FirstFree(Base(entries[m].0), taken, 0));
  }

  lemma NoneTaken(base: string, taken: set<string>)
    ensures TakenUpTo(base, taken, 0)
  {}

  lemma KeysForSnoc(entries: seq<Entry>, keys: seq<string>, m: nat)
    requires |keys| == |entries| == m + 1
    ensures KeysFor(entries, keys) <==> KeysFor(entries[..m], keys[..m]) && KeyedAfter(entries[m].0, keys[..m], keys[m])
  {
    hide KeyedAfter;
    assert forall i :: 0 <= i < m ==> keys[..m][..i] == keys[..i] && keys[..m][i] == keys[i] && entries[..m][i] == entries[i];
    if KeysFor(entries[..m], keys[..m]) && KeyedAfter(entries[m].0, keys[..m], keys[m]) {
      forall i | 0 <= i < |keys| ensures KeyedAfter(entries[i].0, keys[..i], keys[i]) {
        if i < m { assert KeyedAfter(entries[..m][i].0, keys[..m][..i], keys[..m][i]); }
      }
    }
    if KeysFor(entries, keys) {
      forall i | 0 <= i < m ensures KeyedAfter(entries[..m][i].0, keys[..m][..i], keys[..m][i]) {
        assert KeyedAfter(entries[i].0, keys[..i], keys[i]);
      }
    }
  }

  /** Giving every name its least free candidate is possible in exactly one way, the export's. */
  lemma {:induction false} KeysDetermined(entries: seq<Entry>, keys: seq<string>)
    ensures KeysFor(entries, keys) <==> keys == ExportKeys(entries)
  {
    hide KeysFor, KeyedAfter, LeastFree, TakenUpTo, CandidateKey;
    if |keys| != |entries| {
      WrongLength(entries, keys);
    } else if entries == [] {
      NoKeys(entries, keys);
    } else {
      var m := |entries| - 1;
      var base, own := Base(entries[m].0), ExportKeys(entries);
      KeysForSnoc(entries, keys, m);
      KeysDetermined(entries[..m], keys[..m]);
      var taken := ExportKeys(entries[..m]);
      NoneTaken(base, KeySet(taken));
      assert own[..m] == taken;
      KeyedByFirstFree(entries[m].0, taken, keys[m]);
      assert keys == keys[..m] + [keys[m]];
    }
  }

  lemma WrongLength(entries: seq<Entry>, keys: seq<string>)
    requires |keys| != |entries|
    ensures !KeysFor(entries, keys)
  {}

  lemma NoKeys(entries: seq<Entry>, keys: seq<string>)
    requires entries == [] && keys == []
    ensures KeysFor(entries, keys)
  {}

  lemma KeyedByFirstFree(name: string, taken: seq<string>, key: string)
    requires TakenUpTo(Base(name), KeySet(taken), 0)
    ensures KeyedAfter(name, taken, key) <==> key == CandidateKey(Base(name), FirstFree(Base(name), KeySet(taken), 0))
  {
    hide LeastFree, TakenUpTo, CandidateKey;
    var first := CandidateKey(Base(name), FirstFree(Base(name), KeySet(taken), 0));
    assert KeyedAfter(name, taken, first);
    if KeyedAfter(name, taken, key) { KeyedOnce(name, taken, key, first); }
  }

  lemma KeysDistinct(entries: seq<Entry>, keys: seq<string>)
    requires KeysFor(entries, keys)
    ensures forall i, j :: 0 <= i < j < |keys| ==> keys[i] != keys[j]
  {
    forall i, j | 0 <= i < j < |keys| ensures keys[i] != keys[j] {
      assert KeyedAfter(entries[j].0, keys[..j], keys[j]);
      assert keys[..j][i] in KeySet(keys[..j]);
    }
  }

  lemma KeysAreEnvKeys(entries: seq<Entry>, keys: seq<string>)
    requires KeysFor(entries, keys) && forall i :: 0 <= i < |entries| ==> entries[i].0 != ""
    ensures forall i :: 0 <= i < |keys| ==> EnvKey(keys[i])
  {
    forall i | 0 <= i < |keys| ensures EnvKey(keys[i]) {
      assert KeyedAfter(entries[i].0, keys[..i], keys[i]);
      var n: nat :| LeastFree(Base(entries[i].0), KeySet(keys[..i]), n) && keys[i] == CandidateKey(Base(entries[i].0), n);
      CandidateIsEnvKey(entries[i].0, n);
    }
  }

  // ---------- reading the stream ----------

  function ParseLine(line: string): Option<Entry> {
    match SplitOnce(line, "=")
    case None => None
    case Some((key, escaped)) => (match Unescape(escaped) case None => None case Some(v) => Some((key, v)))
  }

  function ParseLines(lines: seq<string>): Option<seq<Entry>> {
    if lines == [] then Some([])
    else
      var n := |lines| - 1;
      match (ParseLines(lines[..n]), ParseLine(lines[n]))
      case (Some(t), Some(e)) => Some(t + [e])
      case _ => None
  }

  /** Lines end with a newline; a key stands before the first `=`. */
  function ParseStream(out: string): Option<seq<Entry>> {
    var lines := Split(out, '\n');
    if lines[|lines| - 1] != "" then None else ParseLines(lines[..|lines| - 1])
  }

  function Zip(keys: seq<string>, entries: seq<Entry>): (r: seq<Entry>)
    requires |keys| == |entries|
    ensures |r| == |keys|
  {
    seq(|keys|, i requires 0 <= i < |keys| => (keys[i], entries[i].1))
  }

  lemma LineParses(key: string, v: string)
    requires EnvKey(key)
    ensures ParseLine(LineText(key, v)) == Some((key, v))
    ensures '\n' !in LineText(key, v)
  {
    hide Escape, Unescape;
    assert forall i :: 0 <= i < |key| ==> key[i] != '=' && key[i] != '\n';
    SplitOnceAt(key, Escape(v), "=");
    UnescapesIffEscaped(Escape(v), v);
  }

  lemma {:induction false} JoinSnoc(parts: seq<string>, line: string)
    ensures Join(parts + [line] + [""], '\n') == Join(parts + [""], '\n') + line + "\n"
  {
    if parts == [] {
      assert parts + [line] + [""] == [line, ""] && [line, ""][1..] == [""];
      assert parts + [""] == [""];
    } else {
      var more := parts[1..] + [line] + [""];
      assert (parts + [line] + [""])[1..] == more && (parts + [""])[1..] == parts[1..] + [""];
      JoinSnoc(parts[1..], line);
    }
  }

  function LineText(key: string, value: string): string { key + "=" + Escape(value) }

  function Lines(keys: seq<string>, entries: seq<Entry>): (r: seq<string>)
    requires |keys| == |entries|
    ensures |r| == |keys|
  {
    if keys == [] then []
    else
      var n := |keys| - 1;
      Lines(keys[..n], entries[..n]) + [LineText(keys[n], entries[n].1)]
  }

  lemma {:induction false} StreamIsJoin(keys: seq<string>, entries: seq<Entry>)
    requires |keys| == |entries|
    ensures Stream(keys, entries) == Join(Lines(keys, entries) + [""], '\n')
  {
    hide Join, LineText;
    if keys == [] {
      assert Join([""], '\n') == "" by { JoinEmpty(); }
      assert Lines(keys, entries) + [""] == [""];
    } else {
      var n := |keys| - 1;
      StreamIsJoin(keys[..n], entries[..n]);
      JoinSnoc(Lines(keys[..n], entries[..n]), LineText(keys[n], entries[n].1));
      LineIsText(keys[n], entries[n].1);
    }
  }

  lemma JoinEmpty()
    ensures Join([""], '\n') == ""
  {}

  lemma LineIsText(key: string, value: string)
    ensures forall front: string :: front + Line(key, value) == front + LineText(key, value) + "\n"
  {}

  lemma {:induction false} LinesParse(keys: seq<string>, entries: seq<Entry>)
    requires |keys| == |entries| && forall i :: 0 <= i < |keys| ==> EnvKey(keys[i])
    ensures ParseLines(Lines(keys, entries)) == Some(Zip(keys, entries))
    ensures forall x :: x in Lines(keys, entries) ==> '\n' !in x
  {
    hide LineText, ParseLine, EnvKey;
    if keys != [] {
      var n := |keys| - 1;
      LinesParse(keys[..n], entries[..n]);
      LineParses(keys[n], entries[n].1);
      var lines := Lines(keys, entries);
      assert lines[..n] == Lines(keys[..n], entries[..n]) && lines[n] == LineText(keys[n], entries[n].1);
      assert Zip(keys, entries) == Zip(keys[..n], entries[..n]) + [(keys[n], entries[n].1)];
    }
  }

  /** Splitting at newlines, then at the first `=`, then unescaping recovers exactly the printed
      keys and the original values, in order. */
  lemma StreamParses(keys: seq<string>, entries: seq<Entry>)
    requires |keys| == |entries| && forall i :: 0 <= i < |keys| ==> EnvKey(keys[i])
    ensures ParseStream(Stream(keys, entries)) == Some(Zip(keys, entries))
  {
    hide Lines, Stream, Join, ParseLines, EnvKey;
    var lines := Lines(keys, entries);
    LinesParse(keys, entries);
    StreamIsJoin(keys, entries);
    SplitOfJoin(lines + [""], '\n');
    assert (lines + [""])[..|lines|] == lines;
  }

  // ---------- the command ----------

  datatype Refusal = NulIn(field: string)

  /** How many entries stand before the first value with NUL. */
  function FirstNul(entries: seq<Entry>): (n: nat)
    ensures n <= |entries| && (forall i :: 0 <= i < n ==> '\0' !in entries[i].1)
    ensures n < |entries| ==> '\0' in entries[n].1
  {
    if entries == [] || NUL in entries[0].1 then 0 else 1 + FirstNul(entries[1..])
  }

  lemma FirstNulIs(entries: seq<Entry>, n: nat)
    requires n <= |entries| && (forall i :: 0 <= i < n ==> NUL !in entries[i].1)
    requires n < |entries| ==> NUL in entries[n].1
    ensures FirstNul(entries) == n
  {
    assert !(FirstNul(entries) < n) && !(n < FirstNul(entries));
  }

  /** The entries whose key is not their name, as key and name. */
  function Renames(keys: seq<string>, entries: seq<Entry>): seq<(string, string)>
    requires |keys| == |entries|
  {
    if keys == [] then []
    else
      var m := |keys| - 1;
      Renames(keys[..m], entries[..m]) + (if keys[m] != entries[m].0 then [(keys[m], entries[m].0)] else [])
  }

  /** What the first `m` entries leave behind: taken keys, printed text, names to note. */
  ghost predicate Progress(all: seq<Entry>, m: nat, taken: set<string>, out: string, notes: seq<(string, string)>) {
    && m <= |all| && taken == KeySet(ExportKeys(all[..m]))
    && out == Stream(ExportKeys(all[..m]), all[..m])
    && notes == Renames(ExportKeys(all[..m]), all[..m])
  }

  /** One field: its key, a note when that is not its name, and its line, unless the value has NUL. */
  method ExportField(name: string, value: string, out: string, seen: map<string, string>, notes: seq<(string, string)>,
                     ghost all: seq<Entry>, ghost at: nat, ghost own: seq<Entry>, ghost j: nat)
      returns (out': string, seen': map<string, string>, notes': seq<(string, string)>, refused: bool)
    requires OwnAt(all, at, own) && j < |own| && own[j] == (name, value) && Progress(all, at + j, seen.Keys, out, notes)
    ensures refused <==> NUL in value
    ensures Progress(all, at + j + if refused then 0 else 1, seen'.Keys, out', notes')
  {
    hide Progress, Escape, LeastFree, CandidateKey, OwnAt, Base;
    out', seen', notes' := out, seen, notes;
    var key, after, n := MangleEnvKey(name, seen);
    var noted := if key != name then notes + [(key, name)] else notes;
    if NUL in value { return out, seen, notes, true; }
    MoreProgress(all, at, own, j, seen.Keys, out, notes, key, n);
    assert after.Keys == seen.Keys + {key};
    return out + (key + "=" + Escape(value) + "\n"), after, noted, false;
  }

  /** The loop over one secret's fields, in key order. The entries printed before are the first
      `at` of `all`, and this secret's fields come next. */
  method ExportFields(fields: map<string, string>, out: string, seen: map<string, string>, notes: seq<(string, string)>,
                      ghost all: seq<Entry>, ghost at: nat, ghost rest: seq<Entry>)
      returns (out': string, seen': map<string, string>, notes': seq<(string, string)>, refusal: Option<Refusal>)
    requires at <= |all| && all == all[..at] + (FieldEntries(fields, SortedKeys(fields.Keys)) + rest)
    requires Progress(all, at, seen.Keys, out, notes)
    ensures var own := FieldEntries(fields, SortedKeys(fields.Keys));
            var n := FirstNul(own);
            && Progress(all, at + n, seen'.Keys, out', notes')
            && refusal == if n == |own| then None else Some(NulIn(own[n].0))
  {
    hide Progress, SortedKeys, Ascending, FieldEntries, FirstNul, OwnAt;
    out', seen', notes', refusal := out, seen, notes, None;
    var names := SortedKeys(fields.Keys);
    ghost var own := FieldEntries(fields, names);
    OwnEntries(all, at, own, rest);
    for j := 0 to |names|
      invariant Progress(all, at + j, seen'.Keys, out', notes')
      invariant forall i :: 0 <= i < j ==> NUL !in own[i].1
    {
      FieldEntryAt(fields, names, j);
      var refused;
      out', seen', notes', refused := ExportField(names[j], fields[names[j]], out', seen', notes', all, at, own, j);
      if refused {
        FirstNulIs(own, j);
        refusal := Some(NulIn(names[j]));
        return;
      }
    }
    FirstNulIs(own, |names|);
  }

  /** The export loop. Everything before the first value with NUL has been printed by then; the
      renamed fields are noted only at the end. */
  method ExportEnv(secrets: seq<Secret>)
      returns (out: string, refusal: Option<Refusal>, notes: seq<(string, string)>)
    ensures var all := Entries(secrets);
            var n := FirstNul(all);
            && out == Stream(ExportKeys(all[..n]), all[..n])
            && refusal == (if n == |all| then None else Some(NulIn(all[n].0)))
            && notes == (if n == |all| then Renames(ExportKeys(all), all) else [])
  {
    hide Progress, SortedKeys, FieldEntries, ExportKeys, Stream, FirstNul, Renames, Reached, Entries;
    ghost var all := Entries(secrets);
    ghost var at: nat := 0;
    var noted: seq<(string, string)> := [];
    out, refusal, notes := "", None, [];
    NoProgressYet(all);
    var seen: map<string, string> := map[];
    assert seen.Keys == {};
    assert secrets[0..] == secrets;
    NothingReached(all);
    for i := 0 to |secrets|
      invariant refusal == None
      invariant Reached(all, at, Entries(secrets[i..])) && Progress(all, at, seen.Keys, out, noted)
    {
      ghost var own, rest := FieldEntries(secrets[i].fields, SortedKeys(secrets[i].fields.Keys)), Entries(secrets[i + 1..]);
      NextEntries(secrets, i);
      ReachedMeans(all, at, own + rest);
      out, seen, noted, refusal := ExportFields(secrets[i].fields, out, seen, noted, all, at, rest);
      OwnReached(all, at, own, rest);
      at := at + FirstNul(own);
      if refusal.Some? {
        ProgressMeans(all, at, seen.Keys, out, noted);
        return;
      }
    }
    AllReached(all, at, Entries(secrets[|secrets|..]));
    NoEntries(secrets);
    ProgressMeans(all, at, seen.Keys, out, noted);
    notes := noted;
  }

  /** The first `at` entries have no NUL, and `rest` comes after them. */
  ghost predicate Reached(all: seq<Entry>, at: nat, rest: seq<Entry>) {
    at <= |all| && all == all[..at] + rest && forall j :: 0 <= j < at ==> NUL !in all[j].1
  }

  lemma NothingReached(all: seq<Entry>)
    ensures Reached(all, 0, all)
  {}

  lemma ReachedMeans(all: seq<Entry>, at: nat, rest: seq<Entry>)
    requires Reached(all, at, rest)
    ensures at <= |all| && all == all[..at] + rest
  {}

  lemma NextEntries(secrets: seq<Secret>, i: nat)
    requires i < |secrets|
    ensures Entries(secrets[i..])
         == FieldEntries(secrets[i].fields, SortedKeys(secrets[i].fields.Keys)) + Entries(secrets[i + 1..])
  {
    assert secrets[i..][1..] == secrets[i + 1..];
  }

  lemma NoEntries(secrets: seq<Secret>)
    ensures Entries(secrets[|secrets|..]) == []
  {}

  /** One secret's fields take the loop past them, or to the first NUL of all. */
  lemma OwnReached(all: seq<Entry>, at: nat, own: seq<Entry>, rest: seq<Entry>)
    requires Reached(all, at, own + rest)
    ensures var n := FirstNul(own);
            if n == |own| then Reached(all, at + n, rest)
            else at + n < |all| && FirstNul(all) == at + n && all[at + n] == own[n]
  {
    hide FirstNul, OwnAt, Reached;
    var n := FirstNul(own);
    ReachedMeans(all, at, own + rest);
    OwnEntries(all, at, own, rest);
    NoNulBefore(all, at, own, rest, n);
    if n == |own| {
      AfterOwn(all, at, own, rest);
    } else {
      OwnEntryAt(all, at, own, n);
      FirstNulIs(all, at + n);
    }
  }

  lemma NoNulBefore(all: seq<Entry>, at: nat, own: seq<Entry>, rest: seq<Entry>, n: nat)
    requires Reached(all, at, own + rest) && OwnAt(all, at, own)
    requires n <= |own| && forall j :: 0 <= j < n ==> NUL !in own[j].1
    ensures forall j :: 0 <= j < at + n ==> NUL !in all[j].1
  {
    forall j | 0 <= j < at + n ensures NUL !in all[j].1 {
      if at <= j { assert all[at + (j - at)] == own[j - at]; }
    }
  }

  lemma OwnEntryAt(all: seq<Entry>, at: nat, own: seq<Entry>, j: nat)
    requires OwnAt(all, at, own) && j < |own|
    ensures at + j < |all| && all[at + j] == own[j]
  {}

  lemma AfterOwn(all: seq<Entry>, at: nat, own: seq<Entry>, rest: seq<Entry>)
    requires at <= |all| && all == all[..at] + (own + rest)
    requires forall j :: 0 <= j < at + |own| && j < |all| ==> NUL !in all[j].1
    ensures Reached(all, at + |own|, rest)
  {
    assert all[at..] == own + rest;
    assert all[at + |own|..] == rest;
  }

  lemma AllReached(all: seq<Entry>, at: nat, rest: seq<Entry>)
    requires Reached(all, at, rest)
    ensures rest == [] ==> at == |all| && FirstNul(all) == at && all[..at] == all
  {
    if rest == [] { FirstNulIs(all, at); }
  }

  lemma NoProgressYet(all: seq<Entry>)
    ensures Progress(all, 0, {}, "", [])
  {}

  lemma ProgressMeans(all: seq<Entry>, m: nat, taken: set<string>, out: string, notes: seq<(string, string)>)
    requires Progress(all, m, taken, out, notes)
    ensures m <= |all| && out == Stream(ExportKeys(all[..m]), all[..m]) && notes == Renames(ExportKeys(all[..m]), all[..m])
  {
    hide ExportKeys, Stream, Renames;
  }

  ghost predicate OwnAt(all: seq<Entry>, at: nat, own: seq<Entry>) {
    at + |own| <= |all| && forall j :: 0 <= j < |own| ==> all[at + j] == own[j]
  }

  lemma OwnEntries(all: seq<Entry>, at: nat, own: seq<Entry>, rest: seq<Entry>)
    requires at <= |all| && all == all[..at] + (own + rest)
    ensures OwnAt(all, at, own)
  {
    forall j | 0 <= j < |own| ensures all[at + j] == own[j] {
      assert all[at + j] == (own + rest)[j];
    }
  }

  lemma FieldEntryAt(fields: map<string, string>, names: seq<string>, j: nat)
    requires j < |names| && names[j] in fields
    ensures FieldEntries(fields, names)[j] == (names[j], fields[names[j]])
  {}

  lemma MoreProgress(all: seq<Entry>, at: nat, own: seq<Entry>, j: nat, taken: set<string>, out: string,
                     notes: seq<(string, string)>, key: string, n: nat)
    requires OwnAt(all, at, own) && j < |own| && Progress(all, at + j, taken, out, notes)
    requires LeastFree(Base(own[j].0), taken, n) && key == CandidateKey(Base(own[j].0), n)
    ensures Progress(all, at + j + 1, taken + {key}, out + Line(key, own[j].1),
                     if key != own[j].0 then notes + [(key, own[j].0)] else notes)
  {
    hide Line, LeastFree, ExportKeys, CandidateKey, OwnAt;
    var m := at + j;
    OwnEntryAt(all, at, own, j);
    var keys := ExportKeys(all[..m]);
    ExportKeysSnoc(all, m, n);
    assert (keys + [key])[..m] == keys && all[..m + 1][..m] == all[..m];
    assert KeySet(keys + [key]) == KeySet(keys) + {key};
  }

  /** No field of these secrets has an empty name, as `map_cipher` guarantees. */
  predicate NamedFields(secrets: seq<Secret>) { forall i :: 0 <= i < |secrets| ==> "" !in secrets[i].fields }

  /** Exported members have no field with an empty name. */
  lemma {:induction false} MembersAreNamed(su: Suite, keys: seq<Vault.OrgKey>, userKey: SymmetricKey, collId: string,
                                           ciphers: seq<Cipher>)
    ensures NamedFields(Vault.Members(su, keys, userKey, collId, ciphers))
  {
    hide Mapped, Vault.CipherKey, Vault.Belongs;
    if ciphers != [] {
      MembersAreNamed(su, keys, userKey, collId, ciphers[1..]);
      var k := Vault.CipherKey(su, ciphers[0], keys, userKey);
      if k.Ok? { MappedNamesNonEmpty(su, ciphers[0], k.value); }
    }
  }

  lemma {:induction false} EntriesNamed(secrets: seq<Secret>)
    requires NamedFields(secrets)
    ensures forall i :: 0 <= i < |Entries(secrets)| ==> Entries(secrets)[i].0 != ""
  {
    if secrets != [] {
      EntriesNamed(secrets[1..]);
      var keys := SortedKeys(secrets[0].fields.Keys);
      forall i | 0 <= i < |keys| ensures keys[i] != "" { assert keys[i] in keys; }
    }
  }

  /** What `ExportEnv` printed, for any number of printed fields: distinct environment keys, and
      a stream that reads back as those keys with the original values, in order. */
  lemma ExportReadsBack(secrets: seq<Secret>, n: nat)
    requires NamedFields(secrets) && n <= |Entries(secrets)|
    ensures var printed := Entries(secrets)[..n];
            var keys := ExportKeys(printed);
            && (forall i :: 0 <= i < |keys| ==> EnvKey(keys[i]))
            && (forall i, j :: 0 <= i < j < |keys| ==> keys[i] != keys[j])
            && ParseStream(Stream(keys, printed)) == Some(Zip(keys, printed))
  {
    hide EnvKey, Stream, ParseStream, ExportKeys, KeysFor;
    EntriesNamed(secrets);
    var printed := Entries(secrets)[..n];
    var keys := ExportKeys(printed);
    KeysDetermined(printed, keys);
    KeysDistinct(printed, keys);
    KeysAreEnvKeys(printed, keys);
    StreamParses(keys, printed);
  }
}
