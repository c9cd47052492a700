/**
 * String helpers with Python's meaning: `clean`, substring tests (`t in s`),
 * `str.lower`, `str.upper`, `str.replace`, `str.strip` and `f"{n}"` for a
 * natural number. Strings are sequences of Unicode scalar values, as in Python 3.
 */
module Text {

  /** Python's `str.isspace()`, which is also the set that `\s` matches in a str pattern. */
  predicate IsSpace(c: char) {
    ('\t' <= c <= '\r') || ('\U{1C}' <= c <= ' ') || c == '\U{85}' || c == '\U{A0}'
    || c == '\U{1680}' || ('\U{2000}' <= c <= '\U{200A}') || c == '\U{2028}' || c == '\U{2029}'
    || c == '\U{202F}' || c == '\U{205F}' || c == '\U{3000}'
  }

  predicate IsDigit(c: char) {
    '0' <= c <= '9'
  }

  /** The characters the pattern `[^a-z0-9\s-]` leaves in place. */
  predicate IsCleanChar(c: char) {
    'a' <= c <= 'z' || IsDigit(c) || IsSpace(c) || c == '-'
  }

  predicate IsClean(s: string) {
    forall i :: 0 <= i < |s| ==> IsCleanChar(s[i])
  }

  /**
   * `c.lower()`. Only the characters whose lower case contains an ASCII
   * character are mapped: A-Z, the Kelvin sign and the capital I with dot
   * above (which lowers to two characters). Every other character is kept:
   * its lower case is not ASCII either, so no ASCII comparison in the model
   * can tell the difference.
   */
  function LowerChar(c: char): string {
    if 'A' <= c <= 'Z' then [(c as int + 32) as char]
    else if c == '\U{212A}' then "k"
    else if c == '\U{130}' then "i\U{307}"
    else [c]
  }

  function Lower(s: string): string {
    if s == [] then [] else LowerChar(s[0]) + Lower(s[1..])
  }

  /** `re.sub(r"[^a-z0-9\s-]", "", s)`: keeps exactly the clean characters, in order. */
  function KeepClean(s: string): (r: string)
    ensures IsClean(r)
    ensures |r| <= |s|
    ensures IsClean(s) ==> r == s
  {
    if s == [] then []
    else if IsCleanChar(s[0]) then [s[0]] + KeepClean(s[1..])
    else KeepClean(s[1..])
  }

  /** `clean(text)`: lower-case, then drop everything but a-z, 0-9, whitespace and '-'. */
  function Clean(s: string): (r: string)
    ensures IsClean(r)
  {
    KeepClean(Lower(s))
  }

  /** A single character survives cleaning exactly when it is a clean character. */
  lemma KeepCleanChar(c: char)
    ensures KeepClean([c]) == if IsCleanChar(c) then [c] else []
  {
    assert [c][1..] == [];
  }

  /**
   * Cleaning works character by character: what survives of `a + b` is what
   * survives of `a` followed by what survives of `b`. With `KeepCleanChar`
   * this fixes the result of every input, e.g. "Room G-16!" to "room g-16".
   */
  lemma {:induction false} KeepCleanAppend(a: string, b: string)
    ensures KeepClean(a + b) == KeepClean(a) + KeepClean(b)
  {
    if a == [] {
      assert a + b == b;
    } else {
      assert (a + b)[0] == a[0];
      assert (a + b)[1..] == a[1..] + b;
      KeepCleanAppend(a[1..], b);
    }
  }

  /** `clean(a + b) == clean(a) + clean(b)`. */
  lemma CleanAppend(a: string, b: string)
    ensures Clean(a + b) == Clean(a) + Clean(b)
  {
    LowerAppend(a, b);
    KeepCleanAppend(Lower(a), Lower(b));
  }

  /** Lower-casing changes no character of a cleaned string. */
  lemma {:induction false} LowerOfClean(s: string)
    requires IsClean(s)
    ensures Lower(s) == s
  {
    if s != [] {
      assert IsClean(s[1..]) by {
        forall i | 0 <= i < |s[1..]| ensures IsCleanChar(s[1..][i]) {
          assert s[1..][i] == s[i + 1];
        }
      }
      LowerOfClean(s[1..]);
      assert IsCleanChar(s[0]);
      assert LowerChar(s[0]) == [s[0]];
    }
  }

  /** Lower-casing works character by character. */
  lemma {:induction false} LowerAppend(a: string, b: string)
    ensures Lower(a + b) == Lower(a) + Lower(b)
  {
    if a == [] {
      assert a + b == b;
    } else {
      assert (a + b)[0] == a[0];
      assert (a + b)[1..] == a[1..] + b;
      LowerAppend(a[1..], b);
    }
  }

  /** Only the empty string lower-cases to the empty string. */
  lemma LowerEmptyIffEmpty(s: string)
    ensures Lower(s) == [] <==> s == []
  {
    if s != [] {
      assert |LowerChar(s[0])| >= 1;
    }
  }

  /** Lower-casing twice is lower-casing once. */
  lemma {:induction false} LowerIdempotent(s: string)
    ensures Lower(Lower(s)) == Lower(s)
  {
    if s != [] {
      LowerAppend(LowerChar(s[0]), Lower(s[1..]));
      LowerIdempotent(s[1..]);
      assert Lower(LowerChar(s[0])) == LowerChar(s[0]);
    }
  }

  /** A string that is already clean is its own cleaning. */
  lemma CleanFixesClean(s: string)
    requires IsClean(s)
    ensures Clean(s) == s
  {
    LowerOfClean(s);
  }

  /** `clean(clean(s)) == clean(s)`. */
  lemma CleanIdempotent(s: string)
    ensures Clean(Clean(s)) == Clean(s)
  {
    CleanFixesClean(Clean(s));
  }

  /** Python's `t in s` on strings (the empty string is in every string). */
  predicate Contains(s: string, t: string)
    decreases |s|
  {
    t <= s || (s != [] && Contains(s[1..], t))
  }

  /** An occurrence at any position is found. */
  lemma {:induction false} ContainsAt(s: string, t: string, i: nat)
    requires i + |t| <= |s| && s[i..i + |t|] == t
    ensures Contains(s, t)
    decreases i
  {
    if i == 0 {
      assert s[..|t|] == t;
    } else {
      assert s[1..][i - 1..i - 1 + |t|] == s[i..i + |t|];
      ContainsAt(s[1..], t, i - 1);
    }
  }

  /** Every occurrence has a position. */
  lemma {:induction false} ContainsWitness(s: string, t: string) returns (i: nat)
    requires Contains(s, t)
    ensures i + |t| <= |s| && s[i..i + |t|] == t
    decreases |s|
  {
    if t <= s {
      i := 0;
    } else {
      var j := ContainsWitness(s[1..], t);
      assert s[1..][j..j + |t|] == s[j + 1..j + 1 + |t|];
      i := j + 1;
    }
  }

  /** Containment is transitive: a string holding `t` holds every substring of `t`. */
  lemma ContainsTrans(s: string, t: string, u: string)
    requires Contains(s, t) && Contains(t, u)
    ensures Contains(s, u)
  {
    var i := ContainsWitness(s, t);
    var j := ContainsWitness(t, u);
    forall k | 0 <= k < |u| ensures s[i + j + k] == u[k] {
      assert u[k] == t[j + k] == s[i + j + k];
    }
    assert s[i + j..i + j + |u|] == u;
    ContainsAt(s, u, i + j);
  }

  /** A string lacking the first character of `t` does not contain `t`. */
  lemma {:induction false} NotContainsWithoutFirst(s: string, t: string)
    requires t != [] && forall i :: 0 <= i < |s| ==> s[i] != t[0]
    ensures !Contains(s, t)
    decreases |s|
  {
    if s != [] {
      assert forall i :: 0 <= i < |s[1..]| ==> s[1..][i] == s[i + 1];
      NotContainsWithoutFirst(s[1..], t);
      assert s[0] != t[0];
    }
  }

  /** A string lacking some character of `t` does not contain `t`. */
  lemma NotContainsWithout(s: string, t: string, i: nat)
    requires i < |t| && t[i] !in s
    ensures !Contains(s, t)
  {
    if Contains(s, t) {
      var j := ContainsWitness(s, t);
    }
  }

  /** A string in which `t[0]` is never followed by `t[1]` does not contain `t`. */
  lemma {:induction false} NotContainsPair(s: string, t: string)
    requires |t| >= 2
    requires forall i :: 0 <= i < |s| - 1 && s[i] == t[0] ==> s[i + 1] != t[1]
    ensures !Contains(s, t)
    decreases |s|
  {
    if s != [] {
      if |s| >= 2 {
        assert s[0] == t[0] ==> s[1] != t[1];
      }
      forall i | 0 <= i < |s[1..]| - 1 && s[1..][i] == t[0] ensures s[1..][i + 1] != t[1] {
        assert s[1..][i] == s[i + 1] && s[1..][i + 1] == s[i + 2];
      }
      NotContainsPair(s[1..], t);
    }
  }

  /** Python's `any(w in s for w in words)`. */
  predicate ContainsAny(s: string, words: seq<string>) {
    exists k :: 0 <= k < |words| && Contains(s, words[k])
  }

  /** No word of a list whose every word has one of its first two characters missing from `s` is in `s`. */
  lemma NoneContained(s: string, words: seq<string>)
    requires forall k :: 0 <= k < |words| ==> |words[k]| >= 2 && (words[k][0] !in s || words[k][1] !in s)
    ensures !ContainsAny(s, words)
  {
    forall k | 0 <= k < |words| ensures !Contains(s, words[k]) {
      if words[k][0] !in s {
        NotContainsWithout(s, words[k], 0);
      } else {
        NotContainsWithout(s, words[k], 1);
      }
    }
  }


  /**
   * Python's `s.replace(pat, rep)`: every non-overlapping occurrence of `pat`,
   * scanning left to right, is replaced; an empty `pat` inserts `rep` before
   * every character and at the end.
   */
  function Replace(s: string, pat: string, rep: string): string
    decreases |s|
  {
    if pat == [] then (if s == [] then rep else rep + [s[0]] + Replace(s[1..], pat, rep))
    else if pat <= s then rep + Replace(s[|pat|..], pat, rep)
    else if s == [] then []
    else [s[0]] + Replace(s[1..], pat, rep)
  }

  /** Replacing a pattern that does not occur changes nothing. */
  lemma {:induction false} ReplaceAbsent(s: string, pat: string, rep: string)
    requires pat != [] && !Contains(s, pat)
    ensures Replace(s, pat, rep) == s
    decreases |s|
  {
    if s != [] {
      ReplaceAbsent(s[1..], pat, rep);
    }
  }

  /** One step of the scan where the pattern does not start here. */
  lemma ReplaceSkip(s: string, pat: string, rep: string)
    requires pat != [] && s != [] && !(pat <= s)
    ensures Replace(s, pat, rep) == [s[0]] + Replace(s[1..], pat, rep)
  {
  }

  /** One step of the scan where the pattern starts here. */
  lemma ReplaceHit(s: string, pat: string, rep: string)
    requires pat != [] && pat <= s
    ensures Replace(s, pat, rep) == rep + Replace(s[|pat|..], pat, rep)
  {
  }

  /**
   * Replacement scans from the left: when the first occurrence of `pat` in
   * `a + pat + b` is the one after `a`, the result is `a`, then `rep`, then
   * the replacement of the rest.
   */
  lemma {:induction false} ReplaceAfterPrefix(a: string, pat: string, rep: string, b: string)
    requires pat != []
    requires forall j :: 0 <= j < |a| ==> !(pat <= (a + pat + b)[j..])
    ensures Replace(a + pat + b, pat, rep) == a + rep + Replace(b, pat, rep)
    decreases |a|
  {
    if a == [] {
      var s := a + pat + b;
      assert s == pat + b && s[|pat|..] == b;
      ReplaceHit(s, pat, rep);
    } else {
      SkipPrefixHead(a, pat, rep, b);
      ReplaceAfterPrefix(a[1..], pat, rep, b);
      ConsRegroup(a, rep, Replace(b, pat, rep));
    }
  }

  /** Putting the head of `a` back in front of `a[1..] + x + y` gives `a + x + y`. */
  lemma ConsRegroup(a: string, x: string, y: string)
    requires a != []
    ensures [a[0]] + (a[1..] + x + y) == a + x + y
  {
    assert [a[0]] + a[1..] == a;
  }

  /** The inductive step of ReplaceAfterPrefix: the first character of `a` is copied. */
  lemma SkipPrefixHead(a: string, pat: string, rep: string, b: string)
    requires pat != [] && a != []
    requires forall j :: 0 <= j < |a| ==> !(pat <= (a + pat + b)[j..])
    ensures Replace(a + pat + b, pat, rep) == [a[0]] + Replace(a[1..] + pat + b, pat, rep)
    ensures forall j :: 0 <= j < |a[1..]| ==> !(pat <= (a[1..] + pat + b)[j..])
  {
    var s := a + pat + b;
    var t := a[1..] + pat + b;
    assert s[0..] == s;
    assert s[1..] == t;
    ReplaceSkip(s, pat, rep);
    forall j | 0 <= j < |a[1..]| ensures !(pat <= t[j..]) {
      assert t[j..] == s[j + 1..];
    }
  }

  /** `c.upper()` for the characters a room number can match: a-z become A-Z. */
  function UpperChar(c: char): char {
    if 'a' <= c <= 'z' then (c as int - 32) as char else c
  }

  function Upper(s: string): (r: string)
    ensures |r| == |s|
    ensures forall i :: 0 <= i < |s| ==> r[i] == UpperChar(s[i])
  {
    if s == [] then [] else [UpperChar(s[0])] + Upper(s[1..])
  }

  predicate IsBlank(s: string) {
    forall i :: 0 <= i < |s| ==> IsSpace(s[i])
  }

  /** `s.lstrip()`: drops the leading whitespace and nothing else. */
  function TrimLeft(s: string): (r: string)
    ensures |r| <= |s| && r == s[|s| - |r|..]
    ensures IsBlank(s[..|s| - |r|])
    ensures r == [] || !IsSpace(r[0])
    decreases |s|
  {
    if s != [] && IsSpace(s[0]) then
      var r := TrimLeft(s[1..]);
      var k := |s| - |r|;
      assert r == s[k..] by {
        assert s[1..][k - 1..] == s[k..];
      }
      assert IsBlank(s[..k]) by {
        forall i | 0 <= i < k ensures IsSpace(s[..k][i]) {
          if i > 0 {
            assert s[..k][i] == s[1..][..k - 1][i - 1];
          }
        }
      }
      r
    else
      s
  }

  /** `s.rstrip()`: drops the trailing whitespace and nothing else. */
  function TrimRight(s: string): (r: string)
    ensures |r| <= |s| && r == s[..|r|]
    ensures IsBlank(s[|r|..])
    ensures r == [] || !IsSpace(r[|r| - 1])
    decreases |s|
  {
    if s != [] && IsSpace(s[|s| - 1]) then
      var r := TrimRight(s[..|s| - 1]);
      var k := |r|;
      assert r == s[..k] by {
        assert s[..|s| - 1][..k] == s[..k];
      }
      assert IsBlank(s[k..]) by {
        forall i | 0 <= i < |s| - k ensures IsSpace(s[k..][i]) {
          if i < |s| - 1 - k {
            assert s[k..][i] == s[..|s| - 1][k..][i];
          }
        }
      }
      r
    else
      s
  }

  /** `s.strip()`. */
  function Strip(s: string): string {
    TrimRight(TrimLeft(s))
  }

  /** `s.strip()` is empty exactly when `s` is all whitespace. */
  lemma StripEmptyIffBlank(s: string)
    ensures Strip(s) == [] <==> IsBlank(s)
  {
    var l := TrimLeft(s);
    var k := |s| - |l|;
    assert s == s[..k] + l;
    if Strip(s) == [] {
      assert l[0..] == l;
    }
  }

  function DigitChar(d: nat): (c: char)
    requires d < 10
    ensures IsDigit(c)
  {
    ('0' as int + d) as char
  }

  /** `f"{n}"` for a natural number: its decimal digits without leading zeros. */
  function NatToString(n: nat): (r: string)
    ensures r != [] && forall i :: 0 <= i < |r| ==> IsDigit(r[i])
    ensures n > 0 ==> r[0] != '0'
    decreases n
  {
    if n < 10 then [DigitChar(n)] else NatToString(n / 10) + [DigitChar(n % 10)]
  }

  function DigitValue(c: char): nat
    requires IsDigit(c)
  {
    c as int - '0' as int
  }

  /** Reads a decimal numeral back; the partner of NatToString. */
  function ParseDecimal(s: string): nat
    requires forall i :: 0 <= i < |s| ==> IsDigit(s[i])
  {
    if s == [] then 0 else ParseDecimal(s[..|s| - 1]) * 10 + DigitValue(s[|s| - 1])
  }

  /** The count printed in an answer reads back as the count. */
  lemma {:induction false} DecimalRoundTrip(n: nat)
    ensures ParseDecimal(NatToString(n)) == n
    decreases n
  {
    if n >= 10 {
      DecimalRoundTrip(n / 10);
      var r := NatToString(n);
      assert r[..|r| - 1] == NatToString(n / 10);
    }
  }
}
