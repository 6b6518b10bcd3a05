/**
 The handful of PHP value semantics the report layer leans on: an optional
 value, truthiness of a string, ASCII upper-casing (`strtoupper`) and the
 byte-wise ordering of two non-numeric strings (`<` on strings).
 */
module Php {

  datatype Option<+T> = None | Some(value: T)

  function Abs(x: int): (r: nat)
    ensures r == x || r == -x
  {
    if x < 0 then -x else x
  }

  /** `empty($s)` is false exactly when this holds: "" and "0" are falsy strings. */
  function Truthy(s: string): (b: bool)
    ensures b ==> |s| >= 1
    ensures |s| >= 2 ==> b
    ensures |s| == 1 ==> (b <==> s[0] != '0')
  {
    s != "" && s != "0"
  }

  /** `strtoupper` on one character: only the ASCII letters a-z change. */
  function UpperChar(c: char): (d: char)
    ensures !('a' <= d <= 'z')
    ensures 'a' <= c <= 'z' ==> d as int == c as int - 32
    ensures !('a' <= c <= 'z') ==> d == c
  {
    if 'a' <= c <= 'z' then (c as int - 32) as char else c
  }

  function Upper(s: string): (u: string)
    ensures |u| == |s|
    ensures forall i :: 0 <= i < |s| ==> u[i] == UpperChar(s[i])
  {
    seq(|s|, i requires 0 <= i < |s| => UpperChar(s[i]))
  }

  /** Strict lexicographic order of strings, as PHP's `<` on two non-numeric
      strings: the first differing character decides, and a proper prefix is smaller. */
  function LexLess(s: string, t: string): (b: bool)
    ensures b ==> s != t
  {
    if |s| == 0 then |t| > 0
    else if |t| == 0 then false
    else if s[0] == t[0] then LexLess(s[1..], t[1..])
    else s[0] < t[0]
  }

  /** A proper prefix sorts before the longer string. */
  lemma {:induction false} LexPrefixBefore(s: string, t: string)
    requires |s| < |t| && s == t[..|s|]
    ensures LexLess(s, t)
  {
    if |s| > 0 {
      assert s[1..] == t[1..][..|s[1..]|];
      LexPrefixBefore(s[1..], t[1..]);
    }
  }

  lemma {:induction false} LexIrreflexive(s: string)
    ensures !LexLess(s, s)
  {
    if |s| > 0 {
      LexIrreflexive(s[1..]);
    }
  }

  lemma {:induction false} LexAsymmetric(s: string, t: string)
    ensures LexLess(s, t) ==> !LexLess(t, s)
  {
    if |s| > 0 && |t| > 0 && s[0] == t[0] {
      LexAsymmetric(s[1..], t[1..]);
    }
  }

  /** Two different strings are always ordered one way or the other. */
  lemma {:induction false} LexTrichotomy(s: string, t: string)
    ensures s == t || LexLess(s, t) || LexLess(t, s)
  {
    if |s| > 0 && |t| > 0 && s[0] == t[0] {
      LexTrichotomy(s[1..], t[1..]);
      if s[1..] == t[1..] {
        assert s == [s[0]] + s[1..] && t == [t[0]] + t[1..];
      }
    }
  }

  lemma {:induction false} LexTransitive(s: string, t: string, u: string)
    requires LexLess(s, t) && LexLess(t, u)
    ensures LexLess(s, u)
  {
    if |s| > 0 && |t| > 0 && |u| > 0 && s[0] == t[0] && t[0] == u[0] {
      LexTransitive(s[1..], t[1..], u[1..]);
    }
  }
}
