/**
 * The `java.lang.String` and `java.util.regex` behaviour the core relies on,
 * restricted to ASCII case mapping: `toUpperCase`/`toLowerCase`, `trim`, the
 * regex class `\s` and the `$` anchor, `compareTo` and `hashCode`.
 */
module Strings {
  import opened Integers

  predicate IsUpper(c: char) { 'A' <= c <= 'Z' }
  predicate IsLower(c: char) { 'a' <= c <= 'z' }

  function ToUpper(c: char): (r: char)
    ensures !IsLower(r)
    ensures IsLower(c) || r == c
  {
    if IsLower(c) then (c as int - 32) as char else c
  }

  function ToLower(c: char): (r: char)
    ensures !IsUpper(r)
    ensures IsUpper(c) || r == c
  {
    if IsUpper(c) then (c as int + 32) as char else c
  }

  /** `String.toUpperCase()` on ASCII letters. */
  function UpperAll(s: string): (r: string)
  {
    seq(|s|, i requires 0 <= i < |s| => ToUpper(s[i]))
  }

  /** `String.toLowerCase()` on ASCII letters. */
  function LowerAll(s: string): (r: string)
  {
    seq(|s|, i requires 0 <= i < |s| => ToLower(s[i]))
  }

  /** After `toUpperCase` no lower-case letter is left, and doing it again changes nothing. */
  lemma UpperAllIsCanonical(s: string)
    ensures forall i :: 0 <= i < |UpperAll(s)| ==> !IsLower(UpperAll(s)[i])
    ensures UpperAll(UpperAll(s)) == UpperAll(s)
    ensures |UpperAll(s)| == |s|
  {
  }

  lemma LowerAllIdempotent(s: string)
    ensures LowerAll(LowerAll(s)) == LowerAll(s)
  {
    forall i | 0 <= i < |s| ensures LowerAll(LowerAll(s))[i] == LowerAll(s)[i] {
      CaseMappingFacts(s[i]);
    }
  }

  /** Lower-casing first does not change the upper-cased text. */
  lemma UpperAllIgnoresCase(s: string)
    ensures UpperAll(LowerAll(s)) == UpperAll(s)
  {
    forall i | 0 <= i < |s| ensures UpperAll(LowerAll(s))[i] == UpperAll(s)[i] {
      CaseMappingFacts(s[i]);
    }
  }

  /** Case mapping only touches letters, and folding first does not change the outcome. */
  lemma CaseMappingFacts(c: char)
    ensures ToUpper(ToLower(c)) == ToUpper(c) && ToLower(ToUpper(c)) == ToLower(c)
    ensures ToLower(ToLower(c)) == ToLower(c) && ToUpper(ToUpper(c)) == ToUpper(c)
    ensures (IsUpper(ToUpper(c)) || IsLower(ToLower(c))) <==> (IsUpper(c) || IsLower(c))
  {
  }

  /** The regex class `\s`: space, tab, line feed, vertical tab, form feed, carriage return. */
  predicate IsSpace(c: char)
  {
    c == ' ' || c == '\t' || c == '\n' || c == '\U{000B}' || c == '\U{000C}' || c == '\r'
  }

  /** `String.trim()` removes every character up to U+0020, a wider class than `\s`. */
  predicate IsBlank(c: char) { c <= ' ' }

  lemma SpaceIsBlank(c: char)
    ensures IsSpace(c) ==> IsBlank(c)
  {
  }

  function TrimStart(s: string): (r: string)
    ensures r == [] || !IsBlank(r[0])
    ensures |r| <= |s|
  {
    if |s| > 0 && IsBlank(s[0]) then TrimStart(s[1..]) else s
  }

  /** What `TrimStart` removes is a prefix of blanks. */
  lemma {:induction false} TrimStartIsSuffix(s: string)
    ensures TrimStart(s) == s[|s| - |TrimStart(s)|..]
    ensures forall i :: 0 <= i < |s| - |TrimStart(s)| ==> IsBlank(s[i])
  {
    if |s| > 0 && IsBlank(s[0]) {
      TrimStartIsSuffix(s[1..]);
    }
  }

  function TrimEnd(s: string): (r: string)
    ensures r == [] || !IsBlank(r[|r| - 1])
    ensures |r| <= |s| && r == s[..|r|]
    ensures forall i :: |r| <= i < |s| ==> IsBlank(s[i])
  {
    if |s| > 0 && IsBlank(s[|s| - 1]) then TrimEnd(s[..|s| - 1]) else s
  }

  /** `String.trim()`: the longest middle part that neither starts nor ends with a blank. */
  function Trim(s: string): (r: string)
    ensures r == [] || (!IsBlank(r[0]) && !IsBlank(r[|r| - 1]))
  {
    TrimEnd(TrimStart(s))
  }

  /** Trimming only removes characters, and leaves nothing exactly when every character is blank. */
  lemma TrimFacts(s: string)
    ensures forall c :: c in Trim(s) ==> c in s
    ensures Trim(s) == [] <==> forall i :: 0 <= i < |s| ==> IsBlank(s[i])
  {
    var t := TrimStart(s);
    var r := TrimEnd(t);
    TrimStartIsSuffix(s);
    assert forall c :: c in r ==> c in t;
    assert forall c :: c in t ==> c in s;
    assert r == [] ==> t == [] by {
      if t != [] { assert !IsBlank(t[0]); }
    }
  }

  /** A string with no blank at either end is left alone by `trim`. */
  lemma TrimNoBlankEdges(s: string)
    requires s == [] || (!IsBlank(s[0]) && !IsBlank(s[|s| - 1]))
    ensures Trim(s) == s
  {
  }

  lemma {:induction false} TrimStartSnoc(s: string, c: char)
    ensures TrimStart(s + [c]) == if TrimStart(s) == [] && IsBlank(c) then [] else TrimStart(s) + [c]
  {
    if |s| > 0 && IsBlank(s[0]) {
      assert (s + [c])[1..] == s[1..] + [c];
      TrimStartSnoc(s[1..], c);
    } else if s == [] {
      assert s + [c] == [c];
    }
  }

  /** Appending a blank never changes the trimmed text: the trailing separator
      that the builder loops append is removed by the final `trim`. */
  lemma TrimSnocBlank(s: string, c: char)
    requires IsBlank(c)
    ensures Trim(s + [c]) == Trim(s)
  {
    TrimStartSnoc(s, c);
    var t := TrimStart(s);
    if t != [] {
      assert (t + [c])[..|t + [c]| - 1] == t;
    }
  }

  lemma {:induction false} TrimStartLower(s: string)
    ensures TrimStart(LowerAll(s)) == LowerAll(TrimStart(s))
  {
    if |s| > 0 {
      assert LowerAll(s)[1..] == LowerAll(s[1..]);
      TrimStartLower(s[1..]);
    }
  }

  lemma {:induction false} TrimEndLower(s: string)
    ensures TrimEnd(LowerAll(s)) == LowerAll(TrimEnd(s))
  {
    if |s| > 0 {
      assert LowerAll(s)[..|s| - 1] == LowerAll(s[..|s| - 1]);
      TrimEndLower(s[..|s| - 1]);
    }
  }

  /** Lower-casing commutes with `trim`: case mapping never turns a blank into a non-blank. */
  lemma TrimLower(s: string)
    ensures Trim(LowerAll(s)) == LowerAll(Trim(s))
  {
    TrimStartLower(s);
    TrimEndLower(TrimStart(s));
  }

  /** A line terminator as `java.util.regex` recognises one (UNIX_LINES off). */
  predicate IsLineTerminator(c: char)
  {
    c == '\n' || c == '\r' || c == '\U{0085}' || c == '\U{2028}' || c == '\U{2029}'
  }

  /**
   * Whether `$` (without MULTILINE) matches in front of `rest`, the unread part of
   * the input: at the very end, or in front of one final line terminator.
   * (The anchor also refuses the gap inside "\r\n"; in the core it is only ever
   * tried right after a quote or a period, never after '\r'.)
   */
  predicate AtInputEnd(rest: string)
  {
    rest == [] || (|rest| == 1 && IsLineTerminator(rest[0])) || rest == "\r\n"
  }

  /** `String.compareTo`: the difference of the first differing characters, else of the lengths. */
  function CompareStrings(a: string, b: string): (r: int)
    ensures r == 0 <==> a == b
  {
    if a == [] || b == [] then |a| - |b|
    else if a[0] != b[0] then a[0] as int - b[0] as int
    else
      var r := CompareStrings(a[1..], b[1..]);
      assert a == [a[0]] + a[1..] && b == [b[0]] + b[1..];
      r
  }

  /** Swapping the arguments exactly negates the result. */
  lemma {:induction false} CompareStringsAntisymmetric(a: string, b: string)
    ensures CompareStrings(a, b) == -CompareStrings(b, a)
  {
    if a != [] && b != [] && a[0] == b[0] {
      CompareStringsAntisymmetric(a[1..], b[1..]);
    }
  }

  lemma {:induction false} CompareStringsLessTransitive(a: string, b: string, c: string)
    requires CompareStrings(a, b) < 0 && CompareStrings(b, c) < 0
    ensures CompareStrings(a, c) < 0
  {
    if a != [] && b != [] && c != [] && a[0] == b[0] && b[0] == c[0] {
      CompareStringsLessTransitive(a[1..], b[1..], c[1..]);
    }
  }

  /** The order is transitive (its non-strict form). */
  lemma CompareStringsTransitive(a: string, b: string, c: string)
    requires CompareStrings(a, b) <= 0 && CompareStrings(b, c) <= 0
    ensures CompareStrings(a, c) <= 0
  {
    if CompareStrings(a, b) < 0 && CompareStrings(b, c) < 0 {
      CompareStringsLessTransitive(a, b, c);
    }
  }

  /** Lexicographic order, stated directly: a proper prefix, or a smaller character at the first difference. */
  predicate LexLess(a: string, b: string)
  {
    (|a| < |b| && a == b[..|a|]) ||
    exists k :: 0 <= k < |a| && k < |b| && a[..k] == b[..k] && a[k] < b[k]
  }

  /** Two strings with the same first character are ordered by their tails. */
  lemma LexLessTails(a: string, b: string)
    requires a != [] && b != [] && a[0] == b[0]
    ensures LexLess(a, b) <==> LexLess(a[1..], b[1..])
  {
    var a', b' := a[1..], b[1..];
    if LexLess(a', b') {
      if |a'| < |b'| && a' == b'[..|a'|] {
        assert a == [a[0]] + a' && b[..|a|] == [b[0]] + b'[..|a'|];
      } else {
        var k :| 0 <= k < |a'| && k < |b'| && a'[..k] == b'[..k] && a'[k] < b'[k];
        assert a[..k + 1] == [a[0]] + a'[..k] && b[..k + 1] == [b[0]] + b'[..k];
        assert a[k + 1] < b[k + 1];
      }
    }
    if LexLess(a, b) {
      if |a| < |b| && a == b[..|a|] {
        assert a' == b'[..|a'|];
      } else {
        var k :| 0 <= k < |a| && k < |b| && a[..k] == b[..k] && a[k] < b[k];
        assert k != 0;
        assert a'[..k - 1] == a[..k][1..] && b'[..k - 1] == b[..k][1..];
        assert a'[k - 1] < b'[k - 1];
      }
    }
  }

  /** Two strings whose first characters differ are ordered by those characters. */
  lemma LexLessHeads(a: string, b: string)
    requires a != [] && b != [] && a[0] != b[0]
    ensures LexLess(a, b) <==> a[0] < b[0]
  {
    if a[0] < b[0] {
      assert a[..0] == b[..0];
    }
    forall k | 0 < k < |a| && k < |b| ensures a[..k] != b[..k] {
      assert a[..k][0] == a[0] && b[..k][0] == b[0];
    }
  }

  /** `compareTo` is negative exactly when the first string comes first lexicographically. */
  lemma {:induction false} CompareStringsIsLexicographic(a: string, b: string)
    ensures CompareStrings(a, b) < 0 <==> LexLess(a, b)
  {
    if a == [] || b == [] {
    } else if a[0] != b[0] {
      LexLessHeads(a, b);
    } else {
      CompareStringsIsLexicographic(a[1..], b[1..]);
      LexLessTails(a, b);
    }
  }

  /** `String.hashCode`: `h = 31 * h + c` over the characters, in `int` arithmetic. */
  function StringHash(s: string): (h: int)
    ensures IsInt32(h)
  {
    if s == [] then 0 else Wrap32(31 * StringHash(s[..|s| - 1]) + s[|s| - 1] as int)
  }

  function Pow31(n: nat): (p: nat)
    ensures p >= 1
  {
    if n == 0 then 1 else 31 * Pow31(n - 1)
  }

  /** The documented value `s[0]*31^(n-1) + s[1]*31^(n-2) + ... + s[n-1]`, without overflow. */
  function HashPolynomial(s: string): int
  {
    if s == [] then 0 else s[0] as int * Pow31(|s| - 1) + HashPolynomial(s[1..])
  }

  lemma {:induction false} HashPolynomialSnoc(s: string, c: char)
    ensures HashPolynomial(s + [c]) == 31 * HashPolynomial(s) + c as int
  {
    if s != [] {
      var t := s + [c];
      assert t[1..] == s[1..] + [c];
      HashPolynomialSnoc(s[1..], c);
      calc {
        HashPolynomial(t);
        t[0] as int * Pow31(|s|) + HashPolynomial(s[1..] + [c]);
        s[0] as int * (31 * Pow31(|s| - 1)) + 31 * HashPolynomial(s[1..]) + c as int;
        { assert s[0] as int * (31 * Pow31(|s| - 1)) == 31 * (s[0] as int * Pow31(|s| - 1)); }
        31 * HashPolynomial(s) + c as int;
      }
    }
  }

  /** Java's step-by-step wrapping equals wrapping the documented polynomial once. */
  lemma {:induction false} StringHashIsPolynomial(s: string)
    ensures StringHash(s) == Wrap32(HashPolynomial(s))
  {
    if s != [] {
      var init, c := s[..|s| - 1], s[|s| - 1];
      assert s == init + [c];
      StringHashIsPolynomial(init);
      HashPolynomialSnoc(init, c);
      WrapLinear(31, HashPolynomial(init), c as int);
    }
  }
}
