/**
 * String and value helpers shared by the modules of this model: an Option type
 * for JavaScript's `undefined`/`null` results, the JavaScript whitespace class
 * (used by `String.prototype.trim` and by `\s` in regular expressions), ASCII
 * character classes, the Latin-1 part of `toLowerCase`/`toUpperCase`, and
 * substring search as `String.prototype.includes` and `indexOf` perform it.
 */
module Strings {

  datatype Option<T> = None | Some(value: T)

  /** The characters JavaScript's `trim` removes and `\s` matches
      (WhiteSpace and LineTerminator of ECMA-262). */
  predicate IsJsWhitespace(c: char)
  {
    c == '\t' || c == '\n' || c == '\U{B}' || c == '\U{C}' || c == '\r' || c == ' '
    || c == '\U{A0}' || c == '\U{1680}' || ('\U{2000}' <= c <= '\U{200A}')
    || c == '\U{2028}' || c == '\U{2029}' || c == '\U{202F}' || c == '\U{205F}'
    || c == '\U{3000}' || c == '\U{FEFF}'
  }

  predicate IsDigit(c: char) { '0' <= c <= '9' }
  predicate IsUpper(c: char) { 'A' <= c <= 'Z' }
  predicate IsLower(c: char) { 'a' <= c <= 'z' }
  predicate IsLetter(c: char) { IsUpper(c) || IsLower(c) }
  predicate IsAlnum(c: char) { IsLetter(c) || IsDigit(c) }

  /** `\w` of a JavaScript regular expression without the `u` flag. */
  predicate IsWordChar(c: char) { IsAlnum(c) || c == '_' }

  predicate AllDigits(s: string) { forall i :: 0 <= i < |s| ==> IsDigit(s[i]) }

  predicate NoWhitespace(s: string) { forall i :: 0 <= i < |s| ==> !IsJsWhitespace(s[i]) }

  /** `trimStart` */
  function TrimStart(s: string): (r: string)
    ensures |r| <= |s| && r == s[|s| - |r|..]
    ensures r == [] || !IsJsWhitespace(r[0])
    ensures forall i :: 0 <= i < |s| - |r| ==> IsJsWhitespace(s[i])
  {
    if |s| > 0 && IsJsWhitespace(s[0]) then TrimStart(s[1..]) else s
  }

  /** `trimEnd` */
  function TrimEnd(s: string): (r: string)
    ensures |r| <= |s| && r == s[..|r|]
    ensures r == [] || !IsJsWhitespace(r[|r| - 1])
    ensures forall i :: |r| <= i < |s| ==> IsJsWhitespace(s[i])
  {
    if |s| > 0 && IsJsWhitespace(s[|s| - 1]) then TrimEnd(s[..|s| - 1]) else s
  }

  /** `String.prototype.trim`: whitespace removed from both ends. */
  function Trim(s: string): (r: string)
    ensures r == [] || (!IsJsWhitespace(r[0]) && !IsJsWhitespace(r[|r| - 1]))
    ensures r == [] <==> forall i :: 0 <= i < |s| ==> IsJsWhitespace(s[i])
  {
    var t := TrimStart(s);
    var r := TrimEnd(t);
    r
  }

  /** `r` sits in `s` at `a`, with nothing but whitespace before and after. */
  predicate WhitespaceAround(s: string, a: nat, r: string)
  {
    a + |r| <= |s| && r == s[a..a + |r|]
    && (forall i :: 0 <= i < a ==> IsJsWhitespace(s[i]))
    && (forall i :: a + |r| <= i < |s| ==> IsJsWhitespace(s[i]))
  }

  /** The trimmed text is the piece of `s` between its leading whitespace
      and its trailing whitespace. */
  lemma TrimSpan(s: string)
    ensures WhitespaceAround(s, |s| - |TrimStart(s)|, Trim(s))
  {
    TrimmedInside(s, TrimStart(s), Trim(s));
  }

  /** A prefix `r` of a suffix `t` of `s` sits in `s` at `|s| - |t|`, and
      what surrounds `r` in `s` is what `s` and `t` drop around it. */
  lemma TrimmedInside(s: string, t: string, r: string)
    requires |t| <= |s| && t == s[|s| - |t|..] && |r| <= |t| && r == t[..|r|]
    requires forall i :: 0 <= i < |s| - |t| ==> IsJsWhitespace(s[i])
    requires forall i :: |r| <= i < |t| ==> IsJsWhitespace(t[i])
    ensures WhitespaceAround(s, |s| - |t|, r)
  {
    var a := |s| - |t|;
    forall i | a + |r| <= i < |s|
      ensures IsJsWhitespace(s[i])
    {
      assert s[i] == t[i - a];
    }
  }

  /** The lower-case mapping of `toLowerCase`, exact on ASCII and Latin-1. */
  function LowerChar(c: char): (r: char)
    ensures IsUpper(c) ==> IsLower(r)
    ensures !IsUpper(c) && c < '\U{80}' ==> r == c
  {
    if 'A' <= c <= 'Z' || ('\U{C0}' <= c <= '\U{DE}' && c != '\U{D7}')
    then (c as int + 32) as char
    else c
  }

  /** The upper-case mapping of `toUpperCase` on one character, exact on ASCII
      and on the Latin-1 letters whose upper case is one Latin-1 character. */
  function UpperChar(c: char): (r: char)
    ensures IsLower(c) ==> IsUpper(r)
    ensures !IsLower(c) && c < '\U{80}' ==> r == c
  {
    if 'a' <= c <= 'z' || ('\U{E0}' <= c <= '\U{FE}' && c != '\U{F7}')
    then (c as int - 32) as char
    else c
  }

  function ToLower(s: string): (r: string)
    ensures |r| == |s| && forall i :: 0 <= i < |s| ==> r[i] == LowerChar(s[i])
  {
    seq(|s|, i requires 0 <= i < |s| => LowerChar(s[i]))
  }

  function ToUpper(s: string): (r: string)
    ensures |r| == |s| && forall i :: 0 <= i < |s| ==> r[i] == UpperChar(s[i])
  {
    seq(|s|, i requires 0 <= i < |s| => UpperChar(s[i]))
  }

  /** A string of lower-case ASCII letters (and other ASCII characters that are
      not upper-case letters) is its own lower case. */
  lemma ToLowerAsciiFixed(s: string)
    requires forall i :: 0 <= i < |s| ==> s[i] < '\U{80}' && !IsUpper(s[i])
    ensures ToLower(s) == s
  {
  }

  predicate IsPrefix(p: string, s: string)
  {
    |p| <= |s| && s[..|p|] == p
  }

  /** `s.includes(p)` */
  predicate Contains(s: string, p: string)
    decreases |s|
  {
    IsPrefix(p, s) || (|s| > 0 && Contains(s[1..], p))
  }

  /** `s.indexOf(p)`, None standing for -1. */
  function IndexOf(s: string, p: string): (r: Option<nat>)
    ensures r.Some? ==> r.value + |p| <= |s| && s[r.value..r.value + |p|] == p
    ensures r.Some? ==> forall k :: 0 <= k < r.value ==> !IsPrefix(p, s[k..])
    ensures r.None? <==> !Contains(s, p)
    decreases |s|
  {
    if IsPrefix(p, s) then Some(0)
    else if |s| == 0 then None
    else match IndexOf(s[1..], p)
      case None => None
      case Some(k) =>
        NoMatchBefore(s, p, k);
        Some(k + 1)
  }

  /** No match before `k` in `s[1..]` and none at 0 means none before
      `k + 1` in `s`. */
  lemma NoMatchBefore(s: string, p: string, k: nat)
    requires |s| > 0 && !IsPrefix(p, s) && k < |s|
    requires forall j :: 0 <= j < k ==> !IsPrefix(p, s[1..][j..])
    ensures forall j :: 0 <= j < k + 1 ==> !IsPrefix(p, s[j..])
  {
    forall j | 1 <= j < k + 1
      ensures !IsPrefix(p, s[j..])
    {
      assert s[j..] == s[1..][j - 1..];
    }
  }

  /** A string none of whose characters is `p[0]` does not contain `p`. */
  lemma {:induction false} NoContains(s: string, p: string)
    requires p != [] && p[0] !in s
    ensures !Contains(s, p)
    decreases |s|
  {
    if |s| > 0 {
      assert s[0] != p[0];
      assert forall c :: c in s[1..] ==> c in s;
      NoContains(s[1..], p);
    }
  }

  /** A match at position `i` is found by `includes`. */
  lemma {:induction false} ContainsAt(s: string, p: string, i: nat)
    requires i <= |s| && IsPrefix(p, s[i..])
    ensures Contains(s, p)
    decreases i
  {
    if i > 0 {
      assert s[1..][i - 1..] == s[i..];
      ContainsAt(s[1..], p, i - 1);
    }
  }

  /** What a suffix contains, the whole string contains. */
  lemma {:induction false} ContainsSuffix(s: string, p: string, n: nat)
    requires n <= |s| && Contains(s[n..], p)
    ensures Contains(s, p)
    decreases n
  {
    if n > 0 {
      assert s[1..][n - 1..] == s[n..];
      ContainsSuffix(s[1..], p, n - 1);
    }
  }
}
