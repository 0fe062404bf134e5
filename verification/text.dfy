/**
 * Python string operations the pipeline relies on, over `string = seq<char>`
 * (one `char` per Unicode scalar value, as Python counts characters).
 * Digits are the ASCII digits `0`-`9`; see README for what that leaves out.
 */
module Text {
  import opened Wrappers

  // ---------------------------------------------------------------- digits

  predicate IsDigit(c: char) { '0' <= c <= '9' }

  function DigitValue(c: char): (n: nat)
    requires IsDigit(c)
    ensures n < 10
  {
    (c as int) - ('0' as int)
  }

  function DigitChar(n: nat): (c: char)
    requires n < 10
    ensures IsDigit(c) && DigitValue(c) == n
  {
    (('0' as int) + n) as char
  }

  predicate AllDigits(s: string) { forall i :: 0 <= i < |s| ==> IsDigit(s[i]) }

  /** Python `str.isdigit()`: false on the empty string. */
  predicate IsDigitString(s: string) { |s| > 0 && AllDigits(s) }

  /** Python `int(s)` on a string of digits. */
  function Value(s: string): nat
    requires AllDigits(s)
  {
    if s == [] then 0 else Value(s[..|s| - 1]) * 10 + DigitValue(s[|s| - 1])
  }

  function Pow10(w: nat): (p: nat)
    ensures p >= 1
  {
    if w == 0 then 1 else 10 * Pow10(w - 1)
  }

  /** Python `str(n)` / `f'{n}'` for a natural number: no leading zeros. */
  function NatStr(n: nat): (r: string)
    ensures IsDigitString(r) && Value(r) == n
    ensures n < 10 ==> r == [DigitChar(n)]
    decreases n
  {
    if n < 10 then [DigitChar(n)]
    else
      var p := NatStr(n / 10);
      var r := p + [DigitChar(n % 10)];
      assert r[..|r| - 1] == p;
      r
  }

  /** The last `w` decimal digits of `n`, left-padded with zeros. */
  function Fixed(n: nat, w: nat): (r: string)
    ensures |r| == w && AllDigits(r)
  {
    if w == 0 then [] else Fixed(n / 10, w - 1) + [DigitChar(n % 10)]
  }

  /** Two fixed digits, tens first. */
  lemma FixedTwo(n: nat)
    requires n < 100
    ensures Fixed(n, 2) == [DigitChar(n / 10), DigitChar(n % 10)]
  {
    assert Fixed(n, 2) == Fixed(n / 10, 1) + [DigitChar(n % 10)];
  }

  lemma FixedYear2025()
    ensures Fixed(2025, 4) == "2025"
  {
  }

  /** Python `f'{n:02d}'`: at least two digits, zero-padded. */
  function ZeroPad2(n: nat): (r: string)
    ensures IsDigitString(r) && Value(r) == n && |r| >= 2
    ensures n < 100 ==> r == Fixed(n, 2)
  {
    if n < 10 then
      var r := "0" + NatStr(n);
      assert r[..|r| - 1] == "0";
      r
    else
      var r := NatStr(n);
      assert r == NatStr(n / 10) + [DigitChar(n % 10)];
      if n < 100 then
        assert Fixed(n, 2) == Fixed(n / 10, 1) + [DigitChar(n % 10)];
        assert Fixed(n / 10, 1) == [DigitChar(n / 10)];
        r
      else r
  }

  /** Reading back a fixed-width rendering gives the number. */
  lemma {:induction false} ValueFixed(n: nat, w: nat)
    requires n < Pow10(w)
    ensures Value(Fixed(n, w)) == n
    decreases w
  {
    if w > 0 {
      var r := Fixed(n, w);
      assert r[..|r| - 1] == Fixed(n / 10, w - 1);
      ValueFixed(n / 10, w - 1);
    }
  }

  /** A number with exactly `w` digits is written the same with or without padding to `w`. */
  lemma {:induction false} NatStrFixed(n: nat, w: nat)
    requires 1 <= w && (w == 1 || Pow10(w - 1) <= n) && n < Pow10(w)
    ensures NatStr(n) == Fixed(n, w)
    decreases w
  {
    if w > 1 {
      NatStrFixed(n / 10, w - 1);
    }
  }

  // ------------------------------------------------------- substring tests

  /** A slice is the concatenation of its two halves. */
  lemma SliceSplit(s: string, i: nat, j: nat, k: nat)
    requires i <= j <= k <= |s|
    ensures s[i..k] == s[i..j] + s[j..k]
  {
  }

  /** Python `s.startswith(p)`. */
  predicate StartsWith(s: string, p: string) { |p| <= |s| && s[..|p|] == p }

  /** Python `sub in s`. */
  predicate Contains(s: string, sub: string)
    decreases |s|
  {
    StartsWith(s, sub) || (|s| > 0 && Contains(s[1..], sub))
  }

  lemma {:induction false} ContainsAt(s: string, sub: string, i: nat)
    requires i + |sub| <= |s| && s[i..i + |sub|] == sub
    ensures Contains(s, sub)
    decreases i
  {
    if i == 0 {
      assert s[..|sub|] == sub;
    } else {
      assert s[1..][i - 1..i - 1 + |sub|] == sub;
      ContainsAt(s[1..], sub, i - 1);
    }
  }

  lemma {:induction false} ContainsWitness(s: string, sub: string) returns (i: nat)
    requires Contains(s, sub)
    ensures i + |sub| <= |s| && s[i..i + |sub|] == sub
    decreases |s|
  {
    if StartsWith(s, sub) {
      i := 0;
    } else {
      var j := ContainsWitness(s[1..], sub);
      i := j + 1;
      assert s[i..i + |sub|] == s[1..][j..j + |sub|];
    }
  }

  /** Python `s.count(c)` for a one-character argument. */
  function CountChar(s: string, c: char): (n: nat)
    ensures n <= |s|
  {
    if s == [] then 0 else (if s[0] == c then 1 else 0) + CountChar(s[1..], c)
  }

  /** Python `c not in s`. */
  predicate Lacks(s: string, c: char) {
    forall j :: 0 <= j < |s| ==> s[j] != c
  }

  /** The position of the first `c` in `s` (Python `s.find(c)`, with None for -1). */
  function IndexOf(s: string, c: char): (r: Option<nat>)
    ensures r.None? <==> Lacks(s, c)
    ensures r.Some? ==> r.value < |s| && s[r.value] == c && Lacks(s[..r.value], c)
  {
    if s == [] then None
    else if s[0] == c then Some(0)
    else
      match IndexOf(s[1..], c)
      case None => None
      case Some(i) => assert s[..i + 1] == [s[0]] + s[1..][..i]; Some(i + 1)
  }

  lemma CountCharSplit(s: string, i: nat, c: char)
    requires i <= |s|
    ensures CountChar(s, c) == CountChar(s[..i], c) + CountChar(s[i..], c)
  {
    if i > 0 {
      assert s[..i][1..] == s[1..][..i - 1];
      CountCharSplit(s[1..], i - 1, c);
      assert s[1..][i - 1..] == s[i..];
    }
  }

  lemma CountCharAbsent(s: string, c: char)
    requires Lacks(s, c)
    ensures CountChar(s, c) == 0
  {
    if s != [] { CountCharAbsent(s[1..], c); }
  }

  /** Python `s.split(sep)` for a one-character separator: every occurrence splits, empty parts kept. */
  function Split(s: string, sep: char): (parts: seq<string>)
    ensures |parts| == CountChar(s, sep) + 1
    ensures forall k :: 0 <= k < |parts| ==> Lacks(parts[k], sep)
    decreases |s|
  {
    match IndexOf(s, sep)
    case None => CountCharAbsent(s, sep); [s]
    case Some(i) =>
      CountCharSplit(s, i, sep);
      CountCharAbsent(s[..i], sep);
      assert s[i..] == [sep] + s[i + 1..];
      [s[..i]] + Split(s[i + 1..], sep)
  }

  /** The first `c` in `s` is at `i` when `s[i]` is `c` and no `c` comes before it. */
  lemma {:induction false} IndexOfAt(s: string, c: char, i: nat)
    requires i < |s| && s[i] == c && Lacks(s[..i], c)
    ensures IndexOf(s, c) == Some(i)
  {
    if i > 0 {
      assert s[0] == s[..i][0];
      assert s[1..][..i - 1] == s[..i][1..];
      IndexOfAt(s[1..], c, i - 1);
    }
  }

  /** Two separator-free parts around one separator split back into those parts. */
  lemma SplitTwo(a: string, b: string, sep: char)
    requires Lacks(a, sep) && Lacks(b, sep)
    ensures Split(a + [sep] + b, sep) == [a, b]
  {
    var s := a + [sep] + b;
    assert s[..|a|] == a;
    IndexOfAt(s, sep, |a|);
    SplitAtFirst(s, sep, |a|);
    assert s[|a| + 1..] == b;
  }

  /** Python `sep.join(parts)`. */
  function Join(parts: seq<string>, sep: char): string {
    if |parts| <= 1 then (if parts == [] then "" else parts[0])
    else parts[0] + [sep] + Join(parts[1..], sep)
  }

  /** Joining a part in front of others puts one separator between them. */
  lemma JoinCons(x: string, rest: seq<string>, sep: char)
    requires rest != []
    ensures Join([x] + rest, sep) == x + [sep] + Join(rest, sep)
  {
    assert ([x] + rest)[1..] == rest;
  }

  /** At the first separator, `s` splits into the part before it and the parts of the rest. */
  lemma SplitAtFirst(s: string, sep: char, i: nat)
    requires IndexOf(s, sep) == Some(i)
    ensures Split(s, sep) == [s[..i]] + Split(s[i + 1..], sep)
  {
  }

  /** `s` is the text before position `i`, the character there, and the text after it. */
  lemma Around(s: string, i: nat)
    requires i < |s|
    ensures s == s[..i] + [s[i]] + s[i + 1..]
  {
    assert s == s[..i] + s[i..];
    assert s[i..] == [s[i]] + s[i + 1..];
  }

  /** Splitting and joining again gives back the original string. */
  lemma {:induction false} JoinSplit(s: string, sep: char)
    ensures Join(Split(s, sep), sep) == s
    decreases |s|
  {
    match IndexOf(s, sep)
    case None =>
    case Some(i) =>
      SplitAtFirst(s, sep, i);
      Around(s, i);
      JoinCons(s[..i], Split(s[i + 1..], sep), sep);
      JoinSplit(s[i + 1..], sep);
  }

  /** The text before the first `sep`, Python `s.split(sep)[0]`. */
  function TextBefore(s: string, sep: char): (r: string)
    ensures StartsWith(s, r) && Lacks(r, sep)
    ensures !Lacks(s, sep) ==> |r| < |s| && s[|r|] == sep
    ensures Lacks(s, sep) ==> r == s
  {
    match IndexOf(s, sep)
    case None => s
    case Some(i) => s[..i]
  }

  lemma TextBeforeIsFirstPart(s: string, sep: char)
    ensures TextBefore(s, sep) == Split(s, sep)[0]
  {
  }

  // ------------------------------------------------------ whitespace & case

  /** The characters Python's `str.strip()` removes: the Unicode white space. */
  const SpaceChars: string :=
    " \t\n\r\U{000B}\U{000C}\U{001C}\U{001D}\U{001E}\U{001F}\U{0085}\U{00A0}\U{1680}"
    + "\U{2000}\U{2001}\U{2002}\U{2003}\U{2004}\U{2005}\U{2006}\U{2007}\U{2008}\U{2009}\U{200A}"
    + "\U{2028}\U{2029}\U{202F}\U{205F}\U{3000}"

  /** `c` is one of `cs`, looked up one character at a time. */
  predicate OneOf(c: char, cs: string) {
    cs != [] && (c == cs[0] || OneOf(c, cs[1..]))
  }

  predicate IsSpace(c: char) { OneOf(c, SpaceChars) }

  lemma {:induction false} OneOfIn(c: char, cs: string)
    ensures OneOf(c, cs) <==> c in cs
  {
    if cs != [] {
      OneOfIn(c, cs[1..]);
      assert cs == [cs[0]] + cs[1..];
    }
  }

  /** No ASCII letter is white space. */
  lemma LetterNotSpace(c: char)
    requires 'a' <= c <= 'z' || 'A' <= c <= 'Z'
    ensures !IsSpace(c)
  {
    OneOfIn(c, SpaceChars);
  }

  /** The first position from `i` on that does not hold white space. */
  function SpaceEnd(s: string, i: nat): (n: nat)
    requires i <= |s|
    ensures i <= n <= |s| && (n < |s| ==> !IsSpace(s[n]))
    ensures forall k :: i <= k < n ==> IsSpace(s[k])
    decreases |s| - i
  {
    if i < |s| && IsSpace(s[i]) then SpaceEnd(s, i + 1) else i
  }

  /** The position after the last character before `j`, and not before `lo`, that is not white space. */
  function SpaceStart(s: string, lo: nat, j: nat): (m: nat)
    requires lo <= j <= |s|
    ensures lo <= m <= j && (lo < m ==> !IsSpace(s[m - 1]))
    ensures forall k :: m <= k < j ==> IsSpace(s[k])
    decreases j
  {
    if lo < j && IsSpace(s[j - 1]) then SpaceStart(s, lo, j - 1) else j
  }

  /** Everything of `s` before `i` and from `j` on is white space. */
  predicate SpaceOutside(s: string, i: nat, j: nat) {
    i <= j <= |s| && (forall k :: 0 <= k < i ==> IsSpace(s[k])) && (forall k :: j <= k < |s| ==> IsSpace(s[k]))
  }

  /** Python `s.strip()`: `s` with its leading and trailing whitespace removed. */
  function Strip(s: string): (r: string)
    ensures exists i: nat, j: nat :: SpaceOutside(s, i, j) && r == s[i..j]
    ensures r != [] ==> !IsSpace(r[0]) && !IsSpace(r[|r| - 1])
  {
    var i := SpaceEnd(s, 0);
    var j := SpaceStart(s, i, |s|);
    assert SpaceOutside(s, i, j);
    s[i..j]
  }

  /** Stripping twice is stripping once. */
  lemma StripIdempotent(s: string)
    ensures Strip(Strip(s)) == Strip(s)
  {
    var r := Strip(s);
    if r != [] {
      assert SpaceEnd(r, 0) == 0;
      assert SpaceStart(r, 0, |r|) == |r|;
      assert r[0..|r|] == r;
    }
  }

  function UpperChar(c: char): char {
    if 'a' <= c <= 'z' then ((c as int) - 32) as char else c
  }

  function LowerChar(c: char): char {
    if 'A' <= c <= 'Z' then ((c as int) + 32) as char else c
  }

  /** Python `s.upper()` on the ASCII letters. */
  function Upper(s: string): (r: string)
    ensures |r| == |s| && forall i :: 0 <= i < |s| ==> r[i] == UpperChar(s[i])
  {
    seq(|s|, i requires 0 <= i < |s| => UpperChar(s[i]))
  }

  /** Python `s.lower()` on the ASCII letters. */
  function Lower(s: string): (r: string)
    ensures |r| == |s| && forall i :: 0 <= i < |s| ==> r[i] == LowerChar(s[i])
  {
    seq(|s|, i requires 0 <= i < |s| => LowerChar(s[i]))
  }

  /** A string with no ASCII letter: lower-casing cannot create or destroy it. */
  predicate Caseless(k: string) {
    forall i :: 0 <= i < |k| ==> !('A' <= k[i] <= 'Z') && !('a' <= k[i] <= 'z')
  }

  /** A caseless prefix is found in `s.lower()` exactly when it is found in `s`. */
  lemma StartsWithLower(s: string, k: string)
    requires Caseless(k)
    ensures StartsWith(Lower(s), k) <==> StartsWith(s, k)
  {
    if |k| <= |s| {
      if StartsWith(Lower(s), k) {
        forall i | 0 <= i < |k| ensures s[i] == k[i] {
          assert Lower(s)[i] == k[i];
        }
      }
      if StartsWith(s, k) {
        forall i | 0 <= i < |k| ensures Lower(s)[i] == k[i] {
          assert s[i] == k[i];
        }
      }
    }
  }

  /** A caseless substring is found in `s.lower()` exactly when it is found in `s`. */
  lemma {:induction false} ContainsLower(s: string, k: string)
    requires Caseless(k)
    ensures Contains(Lower(s), k) <==> Contains(s, k)
    decreases |s|
  {
    StartsWithLower(s, k);
    if |s| > 0 {
      assert Lower(s)[1..] == Lower(s[1..]);
      ContainsLower(s[1..], k);
    }
  }

  /** Lower-casing leaves a string that has no ASCII letter untouched. */
  lemma LowerNoAscii(s: string)
    requires forall i :: 0 <= i < |s| ==> !('A' <= s[i] <= 'Z')
    ensures Lower(s) == s
  {
  }

  // ------------------------------------------------- lexicographic ordering

  /** Python's `a < b` on strings: code-point lexicographic order. */
  predicate Lt(a: string, b: string)
    decreases |a|
  {
    if a == [] then b != []
    else if b == [] then false
    else if a[0] != b[0] then a[0] < b[0]
    else Lt(a[1..], b[1..])
  }

  /** Python's `a <= b` on strings. */
  predicate Le(a: string, b: string) { a == b || Lt(a, b) }

  lemma {:induction false} LtIrreflexive(a: string)
    ensures !Lt(a, a)
    decreases |a|
  {
    if a != [] { LtIrreflexive(a[1..]); }
  }

  lemma {:induction false} LtAsymmetric(a: string, b: string)
    ensures !(Lt(a, b) && Lt(b, a))
    decreases |a|
  {
    if a != [] && b != [] && a[0] == b[0] { LtAsymmetric(a[1..], b[1..]); }
  }

  lemma {:induction false} LtTransitive(a: string, b: string, c: string)
    requires Lt(a, b) && Lt(b, c)
    ensures Lt(a, c)
    decreases |a|
  {
    if a != [] && a[0] == b[0] && b[0] == c[0] { LtTransitive(a[1..], b[1..], c[1..]); }
  }

  lemma {:induction false} LtTotal(a: string, b: string)
    ensures Lt(a, b) || a == b || Lt(b, a)
    decreases |a|
  {
    if a != [] && b != [] && a[0] == b[0] {
      LtTotal(a[1..], b[1..]);
      if a[1..] == b[1..] { assert a == [a[0]] + a[1..] && b == [b[0]] + b[1..]; }
    }
  }

  lemma LeTransitive(a: string, b: string, c: string)
    requires Le(a, b) && Le(b, c)
    ensures Le(a, c)
  {
    if a != b && b != c {
      LtTransitive(a, b, c);
    }
  }

  /** `Le` is a total order: reflexive, antisymmetric, transitive and total. */
  lemma LeTotalOrder()
    ensures forall a: string :: Le(a, a)
    ensures forall a: string, b: string :: Le(a, b) && Le(b, a) ==> a == b
    ensures forall a: string, b: string, c: string :: Le(a, b) && Le(b, c) ==> Le(a, c)
    ensures forall a: string, b: string :: Le(a, b) || Le(b, a)
  {
    forall a: string, b: string | Le(a, b) && Le(b, a) ensures a == b { LtAsymmetric(a, b); }
    forall a: string, b: string, c: string | Le(a, b) && Le(b, c) ensures Le(a, c) {
      if a != b && b != c { LtTransitive(a, b, c); }
    }
    forall a: string, b: string ensures Le(a, b) || Le(b, a) { LtTotal(a, b); }
  }

  /** Extending two equal prefixes: the order is decided by the suffixes. */
  lemma {:induction false} LtSamePrefix(p: string, x: string, y: string)
    requires Lt(x, y)
    ensures Lt(p + x, p + y)
    decreases |p|
  {
    if p != [] {
      assert (p + x)[1..] == p[1..] + x && (p + y)[1..] == p[1..] + y;
      LtSamePrefix(p[1..], x, y);
      assert (p + x)[0] == (p + y)[0];
      assert Lt(p + x, p + y) == Lt((p + x)[1..], (p + y)[1..]);
    } else {
      assert p + x == x && p + y == y;
    }
  }

  /** Between strings of equal length, appending anything keeps the order. */
  lemma {:induction false} LtEqualLength(a: string, b: string, x: string, y: string)
    requires |a| == |b| && Lt(a, b)
    ensures Lt(a + x, b + y)
    decreases |a|
  {
    if a[0] == b[0] {
      assert (a + x)[1..] == a[1..] + x && (b + y)[1..] == b[1..] + y;
      LtEqualLength(a[1..], b[1..], x, y);
    }
  }

  /** Fixed-width digit strings compare like the numbers they spell. */
  lemma {:induction false} FixedLt(a: nat, b: nat, w: nat)
    requires a < b < Pow10(w)
    ensures Lt(Fixed(a, w), Fixed(b, w))
    decreases w
  {
    var pa, pb := Fixed(a / 10, w - 1), Fixed(b / 10, w - 1);
    if a / 10 < b / 10 {
      FixedLt(a / 10, b / 10, w - 1);
      LtEqualLength(pa, pb, [DigitChar(a % 10)], [DigitChar(b % 10)]);
    } else {
      assert a / 10 == b / 10 && a % 10 < b % 10;
      LtSamePrefix(pa, [DigitChar(a % 10)], [DigitChar(b % 10)]);
    }
  }
}
