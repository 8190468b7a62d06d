/** The string operations the scripts share. */
module Text {

  /** Lexicographic order by code point. */
  predicate LexLe(a: string, b: string) {
    a == [] || (b != [] && (a[0] < b[0] || (a[0] == b[0] && LexLe(a[1..], b[1..]))))
  }

  lemma {:induction false} LexTotal(a: string, b: string)
    ensures LexLe(a, b) || LexLe(b, a)
  {
    if a != [] && b != [] && a[0] == b[0] {
      LexTotal(a[1..], b[1..]);
    }
  }

  lemma {:induction false} LexTransitive(a: string, b: string, c: string)
    requires LexLe(a, b) && LexLe(b, c)
    ensures LexLe(a, c)
  {
    if a != [] && a[0] == b[0] && b[0] == c[0] {
      LexTransitive(a[1..], b[1..], c[1..]);
    }
  }

  function Digit(d: nat): char
    requires d < 10
  {
    ('0' as int + d) as char
  }

  /** str(n) for a non-negative number. */
  function Decimal(n: nat): (s: string)
    ensures s != ""
  {
    (if n < 10 then "" else Decimal(n / 10)) + [Digit(n % 10)]
  }

  lemma {:induction false} DecimalInjective(a: nat, b: nat)
    requires Decimal(a) == Decimal(b)
    ensures a == b
    decreases a + b
  {
    var n := |Decimal(a)| - 1;
    assert Decimal(a)[n] == Digit(a % 10) && Decimal(b)[n] == Digit(b % 10);
    assert Decimal(a)[..n] == (if a < 10 then "" else Decimal(a / 10));
    assert Decimal(b)[..n] == (if b < 10 then "" else Decimal(b / 10));
    if a >= 10 && b >= 10 {
      DecimalInjective(a / 10, b / 10);
    }
  }

  const DIGITS := "0123456789"

  /** The number a text of digits stands for. */
  function Read(s: string): nat {
    if s == "" then 0 else 10 * Read(s[..|s| - 1]) + DigitValue(s[|s| - 1], 10)
  }

  /** The place among the first n digits. */
  function DigitValue(c: char, n: nat): nat
    requires n <= 10
  {
    if n == 0 then 0 else if DIGITS[n - 1] == c then n - 1 else DigitValue(c, n - 1)
  }

  lemma DigitIsRead(d: nat)
    requires d < 10
    ensures Digit(d) == DIGITS[d] && DigitValue(Digit(d), 10) == d
  {
    assert DigitValue(Digit(d), d + 1) == d;
    LaterDigitsDiffer(d, 10);
  }

  lemma {:induction false} LaterDigitsDiffer(d: nat, n: nat)
    requires d < n <= 10
    ensures DigitValue(Digit(d), n) == d
  {
    if d + 1 < n { LaterDigitsDiffer(d, n - 1); }
  }

  /** A number in digits reads back as the number, and starts with no zero but its own. */
  lemma {:induction false} DecimalReadsBack(n: nat)
    ensures Read(Decimal(n)) == n
    ensures n > 0 ==> Decimal(n)[0] != '0'
  {
    var last := [Digit(n % 10)];
    DigitIsRead(n % 10);
    if n < 10 {
      assert Decimal(n) == last && last[..0] == "";
    } else {
      DecimalReadsBack(n / 10);
      assert Decimal(n)[..|Decimal(n)| - 1] == Decimal(n / 10);
    }
  }

  /** ASCII lower case. */
  function LowerChar(c: char): char {
    if 'A' <= c <= 'Z' then ((c as int - 'A' as int) + 'a' as int) as char else c
  }

  function Lower(s: string): (r: string)
    ensures |r| == |s|
  {
    seq(|s|, i requires 0 <= i < |s| => LowerChar(s[i]))
  }

  const CAPITALS := "ABCDEFGHIJKLMNOPQRSTUVWXYZ"
  const SMALL := "abcdefghijklmnopqrstuvwxyz"

  lemma LowerMeans(s: string, i: nat)
    requires i < |s|
    ensures forall k :: 0 <= k < 26 && s[i] == CAPITALS[k] ==> Lower(s)[i] == SMALL[k]
    ensures s[i] !in CAPITALS ==> Lower(s)[i] == s[i]
  {
    forall k | 0 <= k < 26 ensures CAPITALS[k] as int == 'A' as int + k && SMALL[k] as int == 'a' as int + k {
      CapitalAt(k);
    }
    if 'A' <= s[i] <= 'Z' {
      assert CAPITALS[s[i] as int - 'A' as int] == s[i];
    }
  }

  lemma CapitalAt(k: nat)
    requires k < 26
    ensures CAPITALS[k] as int == 'A' as int + k && SMALL[k] as int == 'a' as int + k
  {
  }

  /** White space as str.strip() takes it. */
  predicate IsSpace(c: char) {
    || '\U{09}' <= c <= '\U{0d}' || '\U{1c}' <= c <= '\U{20}' || c == '\U{85}' || c == '\U{a0}'
    || c == '\U{1680}' || '\U{2000}' <= c <= '\U{200a}' || c == '\U{2028}' || c == '\U{2029}'
    || c == '\U{202f}' || c == '\U{205f}' || c == '\U{3000}'
  }

  /** No white space around it. */
  predicate Trimmed(s: string) {
    s == "" || (!IsSpace(s[0]) && !IsSpace(s[|s| - 1]))
  }

  /** Without leading and trailing white space. */
  function Strip(s: string): string
    decreases |s|
  {
    if s == "" then ""
    else if IsSpace(s[0]) then Strip(s[1..])
    else if IsSpace(s[|s| - 1]) then Strip(s[..|s| - 1])
    else s
  }

  /** Stripping leaves exactly the trimmed texts alone and makes trimmed texts of all. */
  lemma {:induction false} StripTrims(s: string)
    ensures Trimmed(Strip(s)) && |Strip(s)| <= |s|
    ensures Strip(s) == s <==> Trimmed(s)
    decreases |s|
  {
    if s != "" {
      if IsSpace(s[0]) { StripTrims(s[1..]); }
      else if IsSpace(s[|s| - 1]) { StripTrims(s[..|s| - 1]); }
    }
  }

  const SPACES := "\t\n\U{0b}\U{0c}\r\U{1c}\U{1d}\U{1e}\U{1f} \U{85}\U{a0}\U{1680}\U{2000}\U{2001}\U{2002}\U{2003}\U{2004}\U{2005}\U{2006}\U{2007}\U{2008}\U{2009}\U{200a}\U{2028}\U{2029}\U{202f}\U{205f}\U{3000}"

  lemma SpacesAre(c: char)
    ensures IsSpace(c) <==> c in SPACES
  {
  }

  predicate Blank(s: string) {
    forall i :: 0 <= i < |s| ==> IsSpace(s[i])
  }

  /** Stripping takes off exactly the white space around a text. */
  lemma {:induction false} StripTakesOff(a: string, s: string, b: string)
    requires Blank(a) && Blank(b) && Trimmed(s)
    ensures Strip(a + s + b) == s
    decreases |a| + |b|
  {
    var all := a + s + b;
    if a != "" {
      StripTakesOff(a[1..], s, b);
      assert all[1..] == a[1..] + s + b && all[0] == a[0];
    } else if b != "" {
      var n := |b| - 1;
      StripTakesOff(a, s, b[..n]);
      assert all[..|all| - 1] == a + s + b[..n] && all[|all| - 1] == b[n];
      if s == "" {
        StripBlank(all);
      } else {
        assert all[0] == s[0];
      }
    } else {
      assert all == s;
    }
  }

  lemma {:induction false} StripBlank(s: string)
    requires Blank(s)
    ensures Strip(s) == ""
  {
    if s != "" { StripBlank(s[1..]); }
  }

  lemma LowerKeepsSpace(s: string, i: nat)
    requires i < |s|
    ensures IsSpace(Lower(s)[i]) <==> IsSpace(s[i])
  {
  }

  predicate Contains(s: string, part: string) {
    part <= s || (s != "" && Contains(s[1..], part))
  }

  ghost predicate StandsAt(s: string, part: string, i: nat) {
    i + |part| <= |s| && s[i..i + |part|] == part
  }

  lemma {:induction false} ContainsMeans(s: string, part: string)
    ensures Contains(s, part) <==> exists i :: StandsAt(s, part, i)
  {
    if part <= s {
      assert StandsAt(s, part, 0);
    } else if s != "" {
      ContainsMeans(s[1..], part);
      if i: nat :| StandsAt(s[1..], part, i) {
        assert StandsAt(s, part, i + 1);
      }
      if i: nat :| StandsAt(s, part, i) {
        assert i > 0;
        assert StandsAt(s[1..], part, i - 1);
      }
    }
  }

  ghost predicate DiffersAt(a: string, b: string, i: nat) {
    i < |a| && i < |b| && a[..i] == b[..i] && a[i] < b[i]
  }

  lemma SameBefore(a: string, b: string, i: nat)
    requires DiffersAt(a, b, i)
    ensures i == 0 || a[0] == b[0]
  {
    if i > 0 {
      assert a[..i][0] == a[0] && b[..i][0] == b[0];
    }
  }

  lemma DiffersOneOn(a: string, b: string, i: nat)
    requires a != [] && b != [] && a[0] == b[0]
    ensures DiffersAt(a, b, i + 1) <==> DiffersAt(a[1..], b[1..], i)
  {
    if i < |a[1..]| && i < |b[1..]| {
      assert a[..i + 1] == [a[0]] + a[1..][..i] && b[..i + 1] == [b[0]] + b[1..][..i];
    }
  }

  /** One text comes before another as its beginning, or by the first difference. */
  lemma {:induction false} LexMeans(a: string, b: string)
    ensures LexLe(a, b) <==> a <= b || exists i :: DiffersAt(a, b, i)
  {
    if a != [] && b != [] {
      if a[0] == b[0] {
        LexMeans(a[1..], b[1..]);
        assert a <= b <==> a[1..] <= b[1..];
        if i: nat :| DiffersAt(a[1..], b[1..], i) {
          DiffersOneOn(a, b, i);
        }
        if i: nat :| DiffersAt(a, b, i) {
          assert i > 0;
          DiffersOneOn(a, b, i - 1);
        }
      } else {
        if a[0] < b[0] { assert DiffersAt(a, b, 0); }
        if i: nat :| DiffersAt(a, b, i) {
          SameBefore(a, b, i);
        }
      }
    }
  }
}
