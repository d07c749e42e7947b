/** The Python string operations the pipeline relies on: `str.replace`,
    the `in` and `endswith` tests, `strip`, `upper`, and the decimal rendering of
    an index in an f-string. */
module Text {

  predicate IsPrefix(p: string, s: string) {
    |p| <= |s| && s[..|p|] == p
  }

  /** Python's `p in s` for strings. */
  predicate Contains(s: string, p: string)
    decreases |s|
  {
    IsPrefix(p, s) || (|s| > 0 && Contains(s[1..], p))
  }

  /** Python's `s.endswith(suffix)`. */
  predicate EndsWith(s: string, suffix: string) {
    |suffix| <= |s| && s[|s| - |suffix|..] == suffix
  }

  /** Python's `s.replace(pat, rep)` for a non-empty `pat`: occurrences are found
      left to right and do not overlap; the replacement text is never rescanned. */
  function ReplaceAll(s: string, pat: string, rep: string): string
    requires |pat| > 0
    decreases |s|
  {
    if s == [] then []
    else if IsPrefix(pat, s) then rep + ReplaceAll(s[|pat|..], pat, rep)
    else [s[0]] + ReplaceAll(s[1..], pat, rep)
  }

  /** A string with no occurrence of the pattern comes back unchanged. */
  lemma {:induction false} ReplaceAbsent(s: string, pat: string, rep: string)
    requires |pat| > 0
    requires !Contains(s, pat)
    ensures ReplaceAll(s, pat, rep) == s
  {
    if s != [] {
      ReplaceAbsent(s[1..], pat, rep);
    }
  }

  /** Replacing by something no longer than the pattern never lengthens the string. */
  lemma {:induction false} ReplaceNoLonger(s: string, pat: string, rep: string)
    requires |pat| > 0 && |rep| <= |pat|
    ensures |ReplaceAll(s, pat, rep)| <= |s|
  {
    if s != [] {
      if IsPrefix(pat, s) {
        ReplaceNoLonger(s[|pat|..], pat, rep);
      } else {
        ReplaceNoLonger(s[1..], pat, rep);
      }
    }
  }

  /** Where the output of replacing by the single character `c` shows no `c`,
      it is a verbatim copy of the input. */
  lemma {:induction false} ReplaceCopiesPrefix(t: string, pat: string, c: char, k: nat)
    requires |pat| > 0
    ensures k <= |ReplaceAll(t, pat, [c])| && (forall j | 0 <= j < k :: ReplaceAll(t, pat, [c])[j] != c)
            ==> k <= |t| && t[..k] == ReplaceAll(t, pat, [c])[..k]
  {
    var r := ReplaceAll(t, pat, [c]);
    if k > 0 && t != [] {
      if IsPrefix(pat, t) {
        assert r == [c] + ReplaceAll(t[|pat|..], pat, [c]);
        assert r[0] == c;
      } else {
        var x := ReplaceAll(t[1..], pat, [c]);
        assert r == [t[0]] + x;
        ReplaceCopiesPrefix(t[1..], pat, c, k - 1);
        if k <= |r| && forall j | 0 <= j < k :: r[j] != c {
          forall j | 0 <= j < k - 1 ensures x[j] != c {
            assert x[j] == r[j + 1];
          }
          assert t[..k] == [t[0]] + t[1..][..k - 1];
          assert r[..k] == [t[0]] + x[..k - 1];
        }
      }
    }
  }

  /** Replacing a pattern by one character that the pattern does not contain
      leaves no occurrence of the pattern behind. */
  lemma {:induction false} ReplaceByFreshCharRemovesAll(s: string, pat: string, c: char)
    requires |pat| > 0 && c !in pat
    ensures !Contains(ReplaceAll(s, pat, [c]), pat)
  {
    var r := ReplaceAll(s, pat, [c]);
    if s != [] {
      if IsPrefix(pat, s) {
        var x := ReplaceAll(s[|pat|..], pat, [c]);
        ReplaceByFreshCharRemovesAll(s[|pat|..], pat, c);
        assert r == [c] + x && r[1..] == x;
        assert r[0] == c;
      } else {
        var x := ReplaceAll(s[1..], pat, [c]);
        ReplaceByFreshCharRemovesAll(s[1..], pat, c);
        assert r == [s[0]] + x && r[1..] == x;
        if IsPrefix(pat, r) {
          var m := |pat|;
          forall j | 0 <= j < m - 1 ensures x[j] != c {
            assert x[j] == r[j + 1] == pat[j + 1];
          }
          ReplaceCopiesPrefix(s[1..], pat, c, m - 1);
          assert false;
        }
      }
    }
  }

  /** A string that ends with the suffix is an extension of it. */
  lemma EndsWithAppended(prefix: string, suffix: string)
    ensures EndsWith(prefix + suffix, suffix)
  {
    assert (prefix + suffix)[|prefix|..] == suffix;
  }

  /** Every string is found inside any text built around it. */
  lemma {:induction false} ContainsMiddle(a: string, p: string, b: string)
    ensures Contains(a + p + b, p)
    decreases |a|
  {
    if a == [] {
      assert (a + p + b)[..|p|] == p;
    } else {
      assert (a + p + b)[1..] == a[1..] + p + b;
      ContainsMiddle(a[1..], p, b);
    }
  }

  /** Every character of a contained pattern occurs in the string. */
  lemma {:induction false} ContainsNeedsChar(s: string, p: string, i: nat)
    requires i < |p|
    ensures Contains(s, p) ==> p[i] in s
    decreases |s|
  {
    if IsPrefix(p, s) {
      assert s[..|p|][i] == p[i];
    } else if s != [] {
      ContainsNeedsChar(s[1..], p, i);
      assert forall c | c in s[1..] :: c in s;
    }
  }

  // ---- strip() and upper() ----

  /** The characters Python's `str.strip()` removes (`str.isspace`). */
  predicate IsPythonSpace(c: char) {
    c == ' ' || ('\t' <= c <= '\r') || ('\U{1C}' <= c <= '\U{1F}')
    || c == '\U{85}' || c == '\U{A0}' || c == '\U{1680}'
    || ('\U{2000}' <= c <= '\U{200A}') || c == '\U{2028}' || c == '\U{2029}'
    || c == '\U{202F}' || c == '\U{205F}' || c == '\U{3000}'
  }

  /** `s.lstrip()`: the suffix left after dropping the longest run of leading whitespace. */
  function TrimStart(s: string): (r: string)
    ensures |r| <= |s| && r == s[|s| - |r|..]
    ensures forall k | 0 <= k < |s| - |r| :: IsPythonSpace(s[k])
    ensures r == [] || !IsPythonSpace(r[0])
    decreases |s|
  {
    if s != [] && IsPythonSpace(s[0]) then TrimStart(s[1..]) else s
  }

  /** `s.rstrip()`: the prefix left after dropping the longest run of trailing whitespace. */
  function TrimEnd(s: string): (r: string)
    ensures |r| <= |s| && r == s[..|r|]
    ensures forall k | |r| <= k < |s| :: IsPythonSpace(s[k])
    ensures r == [] || !IsPythonSpace(r[|r| - 1])
    decreases |s|
  {
    if s != [] && IsPythonSpace(s[|s| - 1]) then TrimEnd(s[..|s| - 1]) else s
  }

  function Strip(s: string): string {
    TrimEnd(TrimStart(s))
  }

  /** A stripped text starts and ends with something other than whitespace. */
  lemma StripShape(s: string)
    ensures var t := Strip(s); t == [] || (!IsPythonSpace(t[0]) && !IsPythonSpace(t[|t| - 1]))
  {
    var a := TrimStart(s);
    var t := TrimEnd(a);
    if t != [] {
      assert t[0] == a[0];
    }
  }

  /** `c.upper()` for the letters the model covers (ASCII). */
  function UpperChar(c: char): char {
    if 'a' <= c <= 'z' then (c as int - 'a' as int + 'A' as int) as char else c
  }

  /** No ASCII lower-case letter survives `upper()`. */
  lemma UpperCharNotLower(c: char)
    ensures !('a' <= UpperChar(c) <= 'z')
  {
  }

  /** `s.upper()`, character by character. */
  function Upper(s: string): (r: string)
    ensures |r| == |s|
    ensures forall i | 0 <= i < |s| :: r[i] == UpperChar(s[i])
    decreases |s|
  {
    if s == [] then [] else [UpperChar(s[0])] + Upper(s[1..])
  }

  // ---- decimal rendering of a positive index ----

  predicate IsDigit(c: char) {
    '0' <= c <= '9'
  }

  function Digit(d: nat): (c: char)
    requires d < 10
  {
    ('0' as int + d) as char
  }

  /** `str(n)` for a natural number. */
  function DecimalString(n: nat): (r: string)
    ensures |r| >= 1
    ensures forall i | 0 <= i < |r| :: IsDigit(r[i])
    decreases n
  {
    if n < 10 then [Digit(n)] else DecimalString(n / 10) + [Digit(n % 10)]
  }

  /** `int(s)` for a string of decimal digits. */
  function DecimalValue(s: string): nat
    requires forall i | 0 <= i < |s| :: IsDigit(s[i])
    decreases |s|
  {
    if s == [] then 0
    else
      var d := s[|s| - 1];
      assert IsDigit(d);
      DecimalValue(s[..|s| - 1]) * 10 + (d as int - '0' as int)
  }

  /** Reading back a rendered index gives the index. */
  lemma {:induction false} DecimalRoundTrip(n: nat)
    ensures DecimalValue(DecimalString(n)) == n
    decreases n
  {
    if n >= 10 {
      var s := DecimalString(n);
      DecimalRoundTrip(n / 10);
      assert s[..|s| - 1] == DecimalString(n / 10);
    }
  }
}
