/** The few `java.lang.String` operations the gzip detection relies on:
    `trim`, `toLowerCase`, `equalsIgnoreCase` and `endsWith`. Case folding is
    modelled for the ASCII letters only. */
module JavaText {

  /** `String.trim` removes every leading and trailing char whose code is at most U+0020. */
  predicate IsTrimmable(c: char) {
    c <= ' '
  }

  predicate AllTrimmable(s: string) {
    forall i :: 0 <= i < |s| ==> IsTrimmable(s[i])
  }

  /** How many trimmable chars `s` starts with. */
  function LeadingTrimmable(s: string): (n: nat)
    ensures n <= |s|
    ensures forall i :: 0 <= i < n ==> IsTrimmable(s[i])
    ensures n < |s| ==> !IsTrimmable(s[n])
    decreases |s|
  {
    if s != [] && IsTrimmable(s[0]) then 1 + LeadingTrimmable(s[1..]) else 0
  }

  /** Drops the leading trimmable chars. */
  function TrimStart(s: string): string {
    s[LeadingTrimmable(s)..]
  }

  /** Drops the trailing trimmable chars. */
  function TrimEnd(s: string): (r: string)
    ensures |r| <= |s| && r == s[..|r|]
    ensures forall i :: |r| <= i < |s| ==> IsTrimmable(s[i])
    ensures r != [] ==> !IsTrimmable(r[|r| - 1])
    decreases |s|
  {
    if s != [] && IsTrimmable(s[|s| - 1]) then TrimEnd(s[..|s| - 1]) else s
  }

  /** `String.trim`: what is left once the trimmable chars at both ends are gone;
      it is empty exactly when every char of `s` is trimmable. */
  function Trim(s: string): (r: string)
    ensures |r| <= |s|
    ensures r == [] || (!IsTrimmable(r[0]) && !IsTrimmable(r[|r| - 1]))
    ensures r == [] <==> AllTrimmable(s)
  {
    var t := TrimStart(s);
    var r := TrimEnd(t);
    r
  }

  predicate IsUpperAscii(c: char) {
    'A' <= c <= 'Z'
  }

  predicate IsLowerAscii(c: char) {
    'a' <= c <= 'z'
  }

  function LowerChar(c: char): char {
    if IsUpperAscii(c) then (c as int + 32) as char else c
  }

  function UpperChar(c: char): char {
    if IsLowerAscii(c) then (c as int - 32) as char else c
  }

  /** `String.toLowerCase` on ASCII letters. */
  function ToLowerCase(s: string): (r: string)
    ensures |r| == |s|
  {
    seq(|s|, i requires 0 <= i < |s| => LowerChar(s[i]))
  }

  /** `String.toUpperCase` on ASCII letters (used only to state case-insensitivity). */
  function ToUpperCase(s: string): (r: string)
    ensures |r| == |s|
  {
    seq(|s|, i requires 0 <= i < |s| => UpperChar(s[i]))
  }

  /** One char of `String.regionMatches(ignoreCase = true, ...)`. */
  predicate CharEqualsIgnoreCase(c: char, d: char) {
    c == d || UpperChar(c) == UpperChar(d) || LowerChar(UpperChar(c)) == LowerChar(UpperChar(d))
  }

  /** `String.equalsIgnoreCase` (with a non-null argument). */
  predicate EqualsIgnoreCase(a: string, b: string) {
    |a| == |b| && forall i :: 0 <= i < |a| ==> CharEqualsIgnoreCase(a[i], b[i])
  }

  /** `String.endsWith`. */
  predicate EndsWith(s: string, suffix: string) {
    |suffix| <= |s| && s[|s| - |suffix|..] == suffix
  }

  /** Comparing ignoring case is the same as comparing the lower-cased strings. */
  lemma EqualsIgnoreCaseIsLowerEquality(a: string, b: string)
    ensures EqualsIgnoreCase(a, b) <==> ToLowerCase(a) == ToLowerCase(b)
  {
    if |a| == |b| {
      if ToLowerCase(a) == ToLowerCase(b) {
        forall i | 0 <= i < |a| ensures CharEqualsIgnoreCase(a[i], b[i]) {
          assert ToLowerCase(a)[i] == ToLowerCase(b)[i];
        }
      }
      if EqualsIgnoreCase(a, b) {
        forall i | 0 <= i < |a| ensures ToLowerCase(a)[i] == ToLowerCase(b)[i] {
          assert CharEqualsIgnoreCase(a[i], b[i]);
        }
      }
    } else {
      assert |ToLowerCase(a)| != |ToLowerCase(b)|;
    }
  }

  /** A string with no trimmable char at either end is its own trim. */
  lemma TrimOfTrimmed(s: string)
    requires s == [] || (!IsTrimmable(s[0]) && !IsTrimmable(s[|s| - 1]))
    ensures Trim(s) == s
  {
    assert TrimStart(s) == s;
  }

  lemma {:induction false} TrimStartOfAllTrimmable(s: string)
    requires AllTrimmable(s)
    ensures TrimStart(s) == []
  {
    if s != [] {
      TrimStartOfAllTrimmable(s[1..]);
    }
  }

  lemma {:induction false} TrimStartPadded(a: string, s: string)
    requires AllTrimmable(a)
    ensures TrimStart(a + s) == TrimStart(s)
    decreases |a|
  {
    if a != [] {
      assert (a + s)[0] == a[0];
      assert IsTrimmable((a + s)[0]);
      assert TrimStart(a + s) == TrimStart((a + s)[1..]);
      assert (a + s)[1..] == a[1..] + s;
      TrimStartPadded(a[1..], s);
    } else {
      assert a + s == s;
    }
  }

  lemma {:induction false} TrimStartAppend(s: string, b: string)
    ensures TrimStart(s + b) == if TrimStart(s) == [] then TrimStart(b) else TrimStart(s) + b
    decreases |s|
  {
    if s == [] {
      assert s + b == b;
    } else if IsTrimmable(s[0]) {
      assert (s + b)[1..] == s[1..] + b;
      TrimStartAppend(s[1..], b);
    }
  }

  lemma {:induction false} TrimEndPadded(s: string, b: string)
    requires AllTrimmable(b)
    ensures TrimEnd(s + b) == TrimEnd(s)
    decreases |b|
  {
    if b == [] {
      assert s + b == s;
    } else {
      assert (s + b)[..|s + b| - 1] == s + b[..|b| - 1];
      TrimEndPadded(s, b[..|b| - 1]);
    }
  }

  /** Trimmable padding on either side does not change the trim. */
  lemma TrimPadded(a: string, s: string, b: string)
    requires AllTrimmable(a) && AllTrimmable(b)
    ensures Trim(a + s + b) == Trim(s)
  {
    assert a + s + b == a + (s + b);
    TrimStartPadded(a, s + b);
    TrimStartAppend(s, b);
    if TrimStart(s) == [] {
      TrimStartOfAllTrimmable(b);
    } else {
      TrimEndPadded(TrimStart(s), b);
    }
  }

  /** Upper-casing keeps every char's trimmability, so it commutes with trim. */
  lemma {:induction false} TrimStartUpper(s: string)
    ensures TrimStart(ToUpperCase(s)) == ToUpperCase(TrimStart(s))
    decreases |s|
  {
    if s != [] {
      assert ToUpperCase(s)[1..] == ToUpperCase(s[1..]);
      TrimStartUpper(s[1..]);
    }
  }

  lemma {:induction false} TrimEndUpper(s: string)
    ensures TrimEnd(ToUpperCase(s)) == ToUpperCase(TrimEnd(s))
    decreases |s|
  {
    if s != [] {
      assert ToUpperCase(s)[..|s| - 1] == ToUpperCase(s[..|s| - 1]);
      TrimEndUpper(s[..|s| - 1]);
    }
  }

  lemma TrimUpper(s: string)
    ensures Trim(ToUpperCase(s)) == ToUpperCase(Trim(s))
  {
    TrimStartUpper(s);
    TrimEndUpper(TrimStart(s));
  }

  lemma LowerOfUpper(s: string)
    ensures ToLowerCase(ToUpperCase(s)) == ToLowerCase(s)
  {
  }

  lemma UpperEqualsIgnoreCase(a: string, b: string)
    ensures EqualsIgnoreCase(a, ToUpperCase(b)) <==> EqualsIgnoreCase(a, b)
  {
    EqualsIgnoreCaseIsLowerEquality(a, ToUpperCase(b));
    EqualsIgnoreCaseIsLowerEquality(a, b);
    LowerOfUpper(b);
  }
}
