/** The handful of Python string operations the pipeline relies on:
    str.strip, str.lower (ASCII letters), startswith/endswith, substring
    search, str.replace, str.count and str() of an integer. */
module Text {

  /** Python's str.isspace for one character: the ASCII controls 9..13 and
      28..31, the space, and the Unicode separators Python treats as white
      space. */
  predicate IsSpace(c: char)
  {
    var n := c as int;
    n == 0x20 || 0x09 <= n <= 0x0D || 0x1C <= n <= 0x1F || n == 0x85 || n == 0xA0
    || n == 0x1680 || 0x2000 <= n <= 0x200A || n == 0x2028 || n == 0x2029
    || n == 0x202F || n == 0x205F || n == 0x3000
  }

  function StripLeft(s: string): (r: string)
    ensures |r| <= |s|
    ensures r == [] || !IsSpace(r[0])
  {
    if s != [] && IsSpace(s[0]) then StripLeft(s[1..]) else s
  }

  function StripRight(s: string): (r: string)
    ensures |r| <= |s|
    ensures r == [] || !IsSpace(r[|r| - 1])
  {
    if s != [] && IsSpace(s[|s| - 1]) then StripRight(s[..|s| - 1]) else s
  }

  /** str.strip() with no argument. */
  function Strip(s: string): string
  {
    StripRight(StripLeft(s))
  }

  predicate Stripped(s: string)
  {
    s == [] || (!IsSpace(s[0]) && !IsSpace(s[|s| - 1]))
  }

  /** Stripping leaves neither leading nor trailing white space, removes
      only white space, and keeps a contiguous piece of the input. */
  lemma StripSpec(s: string)
    ensures Stripped(Strip(s))
    ensures exists i, j ::
              (0 <= i <= j <= |s| && Strip(s) == s[i..j]
               && (forall k :: 0 <= k < i ==> IsSpace(s[k]))
               && (forall k :: j <= k < |s| ==> IsSpace(s[k])))
  {
    StripLeftSkipsSpace(s);
    var l := StripLeft(s);
    var i := |s| - |l|;
    StripRightSkipsSpace(l);
    var r := StripRight(l);
    var j := i + |r|;
    assert r == l[..|r|];
    assert Strip(s) == s[i..j];
    if r != [] {
      assert r[0] == l[0];
    }
    forall k | j <= k < |s| ensures IsSpace(s[k]) {
      assert s[k] == l[k - i];
    }
  }

  lemma {:induction false} StripLeftSkipsSpace(s: string)
    ensures StripLeft(s) == s[|s| - |StripLeft(s)|..]
    ensures forall k :: 0 <= k < |s| - |StripLeft(s)| ==> IsSpace(s[k])
  {
    if s != [] && IsSpace(s[0]) {
      StripLeftSkipsSpace(s[1..]);
    }
  }

  lemma {:induction false} StripRightSkipsSpace(s: string)
    ensures StripRight(s) == s[..|StripRight(s)|]
    ensures forall k :: |StripRight(s)| <= k < |s| ==> IsSpace(s[k])
  {
    if s != [] && IsSpace(s[|s| - 1]) {
      StripRightSkipsSpace(s[..|s| - 1]);
    }
  }

  /** A string that starts with a non-space character does not strip to nothing. */
  lemma StripNonBlank(s: string)
    requires s != [] && !IsSpace(s[0])
    ensures Strip(s) != [] && Strip(s)[0] == s[0]
  {
    assert StripLeft(s) == s;
    StripRightSkipsSpace(s);
  }

  /** A string with no white space at either end is its own strip. */
  lemma StripOfStripped(s: string)
    requires Stripped(s)
    ensures Strip(s) == s
  {
  }

  function LowerChar(c: char): char
  {
    if 'A' <= c <= 'Z' then (c as int + 32) as char else c
  }

  /** str.lower(), restricted to the ASCII letters. */
  function Lower(s: string): (r: string)
    ensures |r| == |s|
  {
    if s == [] then [] else [LowerChar(s[0])] + Lower(s[1..])
  }

  /** Lower-casing works character by character. */
  lemma {:induction false} LowerAppend(a: string, b: string)
    ensures Lower(a + b) == Lower(a) + Lower(b)
    decreases |a|
  {
    if a != [] {
      LowerAppend(a[1..], b);
      assert (a + b)[1..] == a[1..] + b;
    } else {
      assert a + b == b;
    }
  }

  lemma {:induction false} LowerLast(s: string)
    requires s != []
    ensures Lower(s)[|s| - 1] == LowerChar(s[|s| - 1])
    decreases |s|
  {
    if |s| > 1 {
      LowerLast(s[1..]);
    }
  }

  predicate StartsWith(s: string, p: string)
  {
    |p| <= |s| && s[..|p|] == p
  }

  predicate EndsWith(s: string, p: string)
  {
    |p| <= |s| && s[|s| - |p|..] == p
  }

  /** A string ends with whatever was appended to it. */
  lemma EndsWithAppended(s: string, p: string)
    ensures EndsWith(s + p, p)
  {
    assert (s + p)[|s + p| - |p|..] == p;
  }

  /** `p in s` for strings. */
  predicate Contains(s: string, p: string)
    decreases |s|
  {
    StartsWith(s, p) || (s != [] && Contains(s[1..], p))
  }

  /** `any(p in s for p in ps)`. */
  predicate ContainsAny(s: string, ps: seq<string>)
  {
    exists i :: 0 <= i < |ps| && Contains(s, ps[i])
  }

  lemma {:induction false} ContainsAt(s: string, p: string, i: nat)
    requires i + |p| <= |s| && s[i..i + |p|] == p
    ensures Contains(s, p)
    decreases i
  {
    if i > 0 {
      assert s[1..][i - 1..i - 1 + |p|] == s[i..i + |p|];
      ContainsAt(s[1..], p, i - 1);
    }
  }

  lemma {:induction false} ContainsWitness(s: string, p: string) returns (i: nat)
    requires Contains(s, p)
    ensures i + |p| <= |s| && s[i..i + |p|] == p
    decreases |s|
  {
    if StartsWith(s, p) {
      i := 0;
    } else {
      var j := ContainsWitness(s[1..], p);
      assert s[1..][j..j + |p|] == s[j + 1..j + 1 + |p|];
      i := j + 1;
    }
  }

  /** A string that never holds character `c` contains no pattern holding `c`. */
  lemma NotContainsChar(s: string, p: string, c: char)
    requires c in p && c !in s
    ensures !Contains(s, p)
  {
    if Contains(s, p) {
      var i := ContainsWitness(s, p);
      assert false;
    }
  }

  /** `s.replace(c, '')` for a single character. */
  function RemoveChar(s: string, c: char): (r: string)
    ensures c !in r
    ensures forall x :: x in r ==> x in s
  {
    if s == [] then [] else (if s[0] == c then [] else [s[0]]) + RemoveChar(s[1..], c)
  }

  /** `s.replace(p, r)`: every non-overlapping occurrence of the non-empty
      pattern `p`, scanning left to right, is replaced by `r`. */
  function ReplaceAll(s: string, p: string, r: string): string
    requires p != []
    decreases |s|
  {
    if |s| < |p| then s
    else if s[..|p|] == p then r + ReplaceAll(s[|p|..], p, r)
    else [s[0]] + ReplaceAll(s[1..], p, r)
  }

  /** A string without the pattern is left as it is by replacing it. */
  lemma {:induction false} ReplaceAbsent(s: string, p: string, r: string)
    requires p != [] && !Contains(s, p)
    ensures ReplaceAll(s, p, r) == s
    decreases |s|
  {
    if |s| >= |p| {
      ReplaceAbsent(s[1..], p, r);
    }
  }

  /** A string holding `p + q` holds `p`. */
  lemma {:induction false} ContainsPrefixPattern(s: string, p: string, q: string)
    requires Contains(s, p + q)
    ensures Contains(s, p)
    decreases |s|
  {
    if !StartsWith(s, p + q) {
      ContainsPrefixPattern(s[1..], p, q);
    } else {
      assert s[..|p|] == (p + q)[..|p|];
    }
  }

  /** An occurrence of a two-character pattern in `x + y` lies in `x`, in `y`
      or across the joint. */
  lemma ContainsPairSplit(x: string, y: string, a: char, b: char)
    requires Contains(x + y, [a, b])
    ensures Contains(x, [a, b]) || Contains(y, [a, b])
            || (x != [] && y != [] && x[|x| - 1] == a && y[0] == b)
  {
    var i := ContainsWitness(x + y, [a, b]);
    var w := (x + y)[i..i + 2];
    assert w[0] == (x + y)[i] == a && w[1] == (x + y)[i + 1] == b;
    if i + 2 <= |x| {
      assert x[i..i + 2] == (x + y)[i..i + 2];
      ContainsAt(x, [a, b], i);
    } else if i >= |x| {
      assert y[i - |x|..i - |x| + 2] == (x + y)[i..i + 2];
      ContainsAt(y, [a, b], i - |x|);
    } else {
      assert x[|x| - 1] == (x + y)[i] && y[0] == (x + y)[i + 1];
    }
  }

  /** The first character after replacing is the replacement's or the original's. */
  lemma ReplaceFirst(s: string, p: string, r: string)
    requires p != [] && r != [] && s != []
    ensures ReplaceAll(s, p, r) != []
    ensures ReplaceAll(s, p, r)[0] == s[0] || (StartsWith(s, p) && ReplaceAll(s, p, r)[0] == r[0])
  {
  }

  /** Replacing a two-character pattern by text holding neither of its
      characters leaves no occurrence of it. */
  lemma {:induction false} ReplacedPairGone(s: string, a: char, b: char, r: string)
    requires r != [] && a !in r && b !in r
    ensures !Contains(ReplaceAll(s, [a, b], r), [a, b])
    decreases |s|
  {
    var t := ReplaceAll(s, [a, b], r);
    if Contains(t, [a, b]) {
      if |s| < 2 {
        var i := ContainsWitness(t, [a, b]);
      } else if s[..2] == [a, b] {
        ReplacedPairGone(s[2..], a, b, r);
        ContainsPairSplit(r, ReplaceAll(s[2..], [a, b], r), a, b);
        if Contains(r, [a, b]) {
          NotContainsChar(r, [a, b], a);
        }
      } else {
        var rest := ReplaceAll(s[1..], [a, b], r);
        ReplacedPairGone(s[1..], a, b, r);
        ContainsPairSplit([s[0]], rest, a, b);
        if Contains([s[0]], [a, b]) {
          var i := ContainsWitness([s[0]], [a, b]);
        } else {
          ReplaceFirst(s[1..], [a, b], r);
        }
      }
    }
  }

  /** `s.count(c)` for a single character. */
  function CountChar(s: string, c: char): (n: nat)
    ensures n <= |s|
    ensures n == 0 <==> c !in s
  {
    if s == [] then 0 else (if s[0] == c then 1 else 0) + CountChar(s[1..], c)
  }

  predicate IsAsciiDigit(c: char)
  {
    '0' <= c <= '9'
  }

  predicate IsAsciiAlnum(c: char)
  {
    IsAsciiDigit(c) || 'a' <= c <= 'z' || 'A' <= c <= 'Z'
  }

  function DigitChar(d: nat): (c: char)
    requires d < 10
    ensures IsAsciiDigit(c)
  {
    ('0' as int + d) as char
  }

  function DigitValue(c: char): nat
    requires IsAsciiDigit(c)
  {
    c as int - '0' as int
  }

  /** str() of a non-negative integer: its decimal digits, no leading zero. */
  function NatToString(n: nat): (s: string)
    ensures s != [] && forall k :: 0 <= k < |s| ==> IsAsciiDigit(s[k])
  {
    if n < 10 then [DigitChar(n)] else NatToString(n / 10) + [DigitChar(n % 10)]
  }

  /** int() of a string of decimal digits. */
  function DigitsValue(s: string): nat
    requires forall k :: 0 <= k < |s| ==> IsAsciiDigit(s[k])
  {
    if s == [] then 0 else 10 * DigitsValue(s[..|s| - 1]) + DigitValue(s[|s| - 1])
  }

  /** Reading back the decimal text of n yields n. */
  lemma {:induction false} NatToStringRoundTrip(n: nat)
    ensures DigitsValue(NatToString(n)) == n
  {
    var s := NatToString(n);
    if n >= 10 {
      NatToStringRoundTrip(n / 10);
      assert s[..|s| - 1] == NatToString(n / 10);
    }
  }

  /** Distinct numbers have distinct decimal texts. */
  lemma NatToStringInjective(a: nat, b: nat)
    requires NatToString(a) == NatToString(b)
    ensures a == b
  {
    NatToStringRoundTrip(a);
    NatToStringRoundTrip(b);
  }

  /** str() of an integer. */
  function IntToString(i: int): (s: string)
    ensures s != [] && forall k :: 0 <= k < |s| ==> s[k] == '-' || IsAsciiDigit(s[k])
  {
    if i < 0 then "-" + NatToString(-i) else NatToString(i)
  }
}
