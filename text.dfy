/** The string operations the chat page relies on: `trim`, `toLowerCase` (on ASCII letters) and
    `includes`, each given a direct definition and a characterisation proved about it. */
module Text {

  /** The code points `String.prototype.trim` removes: ECMAScript WhiteSpace and LineTerminator. */
  predicate IsWhitespace(c: char)
  {
    || c == '\t' || c == '\n' || c == '\U{000B}' || c == '\U{000C}' || c == '\r'
    || c == ' ' || c == '\U{00A0}' || c == '\U{1680}' || ('\U{2000}' <= c <= '\U{200A}')
    || c == '\U{2028}' || c == '\U{2029}' || c == '\U{202F}' || c == '\U{205F}'
    || c == '\U{3000}' || c == '\U{FEFF}'
  }

  predicate AllWhitespace(s: string)
  {
    forall k :: 0 <= k < |s| ==> IsWhitespace(s[k])
  }

  /** Drops leading whitespace: the result is the suffix of `s` from its first non-whitespace character. */
  function TrimStart(s: string): (r: string)
    ensures |r| <= |s| && r == s[|s| - |r|..]
    ensures AllWhitespace(s[..|s| - |r|])
    ensures r == [] || !IsWhitespace(r[0])
  {
    if s != [] && IsWhitespace(s[0]) then
      var r := TrimStart(s[1..]);
      WhitespaceHeadStep(s, |r|);
      r
    else s
  }

  /** Drops trailing whitespace: the result is the prefix of `s` up to its last non-whitespace character. */
  function TrimEnd(s: string): (r: string)
    ensures |r| <= |s| && r == s[..|r|]
    ensures AllWhitespace(s[|r|..])
    ensures r == [] || !IsWhitespace(r[|r| - 1])
  {
    if s != [] && IsWhitespace(s[|s| - 1]) then
      var r := TrimEnd(s[..|s| - 1]);
      WhitespaceTailStep(s, |r|);
      r
    else s
  }

  /** One more leading whitespace character keeps the dropped prefix whitespace only. */
  lemma {:induction false} WhitespaceHeadStep(s: string, m: nat)
    requires s != [] && IsWhitespace(s[0]) && m <= |s| - 1 && AllWhitespace(s[1..][..|s| - 1 - m])
    ensures AllWhitespace(s[..|s| - m])
  {
    var dropped, rest := s[..|s| - m], s[1..][..|s| - 1 - m];
    forall k | 0 <= k < |dropped|
      ensures IsWhitespace(dropped[k])
    {
      if k > 0 {
        assert dropped[k] == rest[k - 1];
      }
    }
  }

  /** One more trailing whitespace character keeps the dropped tail whitespace only. */
  lemma {:induction false} WhitespaceTailStep(s: string, m: nat)
    requires s != [] && IsWhitespace(s[|s| - 1]) && m <= |s| - 1 && AllWhitespace(s[..|s| - 1][m..])
    ensures AllWhitespace(s[m..])
  {
    var dropped, rest := s[m..], s[..|s| - 1][m..];
    forall k | 0 <= k < |dropped|
      ensures IsWhitespace(dropped[k])
    {
      if k < |rest| {
        assert dropped[k] == rest[k];
      }
    }
  }

  /** `s.trim()`: a slice of `s` that neither starts nor ends with whitespace, and is empty
      exactly when `s` is whitespace only. */
  function Trim(s: string): (r: string)
    ensures r != [] ==> !IsWhitespace(r[0]) && !IsWhitespace(r[|r| - 1])
    ensures OccursAt(s, r, |s| - |TrimStart(s)|)
    ensures AllWhitespace(s[..|s| - |TrimStart(s)|]) && AllWhitespace(s[|s| - |TrimStart(s)| + |r|..])
    ensures r == [] <==> AllWhitespace(s)
  {
    TrimShape(s);
    TrimEnd(TrimStart(s))
  }

  /** Collects the facts `Trim` promises about the composition of `TrimStart` and `TrimEnd`. */
  lemma {:induction false} TrimShape(s: string)
    ensures var r := TrimEnd(TrimStart(s));
            && (r == [] <==> AllWhitespace(s))
            && (r != [] ==> !IsWhitespace(r[0]) && !IsWhitespace(r[|r| - 1]))
            && OccursAt(s, r, |s| - |TrimStart(s)|)
            && AllWhitespace(s[..|s| - |TrimStart(s)|]) && AllWhitespace(s[|s| - |TrimStart(s)| + |r|..])
  {
    TrimEmptyIffBlank(s);
    TrimEndsNotBlank(s);
    TrimTail(s);
  }

  lemma {:induction false} TrimEmptyIffBlank(s: string)
    ensures TrimEnd(TrimStart(s)) == [] <==> AllWhitespace(s)
  {
    var t := TrimStart(s);
    var n := |s| - |t|;
    if TrimEnd(t) == [] {
      assert t[0..] == t == s[n..];
      WhitespaceHalves(s, n);
    }
  }

  /** The trimmed text starts where `TrimStart` stopped and ends where `TrimEnd` stopped. */
  lemma {:induction false} TrimEndsNotBlank(s: string)
    ensures var r := TrimEnd(TrimStart(s));
            r != [] ==> !IsWhitespace(r[0]) && !IsWhitespace(r[|r| - 1])
  {
    var t := TrimStart(s);
    var r := TrimEnd(t);
    if r != [] {
      assert r[0] == t[0];
    }
  }

  /** What follows the trimmed text in `s` is the trailing whitespace `TrimEnd` dropped. */
  lemma {:induction false} TrimTail(s: string)
    ensures AllWhitespace(s[|s| - |TrimStart(s)| + |TrimEnd(TrimStart(s))|..])
  {
    var t := TrimStart(s);
    WhitespaceTailOfSuffix(s, t, |TrimEnd(t)|);
  }

  /** A whitespace-only tail of a suffix `t` of `s` is a whitespace-only tail of `s`. */
  lemma {:induction false} WhitespaceTailOfSuffix(s: string, t: string, m: nat)
    requires |t| <= |s| && t == s[|s| - |t|..] && m <= |t| && AllWhitespace(t[m..])
    ensures AllWhitespace(s[|s| - |t| + m..])
  {
    assert s[|s| - |t| + m..] == t[m..];
  }

  /** A text whose two halves are whitespace only is whitespace only. */
  lemma {:induction false} WhitespaceHalves(s: string, n: nat)
    requires n <= |s| && AllWhitespace(s[..n]) && AllWhitespace(s[n..])
    ensures AllWhitespace(s)
  {
    forall k | 0 <= k < |s|
      ensures IsWhitespace(s[k])
    {
      if k < n {
        assert s[k] == s[..n][k];
      } else {
        assert s[k] == s[n..][k - n];
      }
    }
  }

  /** `c.toLowerCase()` for ASCII letters; every other character is left as it is. */
  function LowerChar(c: char): char
  {
    if 'A' <= c <= 'Z' then (c as int + 32) as char else c
  }

  function UpperChar(c: char): char
  {
    if 'a' <= c <= 'z' then (c as int - 32) as char else c
  }

  /** `s.toLowerCase()`, character by character. */
  function ToLower(s: string): string
  {
    seq(|s|, k requires 0 <= k < |s| => LowerChar(s[k]))
  }

  /** Upper-casing of ASCII letters. The page never calls `toUpperCase`; this exists only to state
      that an upper-cased message gets the same reply. */
  function ToUpper(s: string): string
  {
    seq(|s|, k requires 0 <= k < |s| => UpperChar(s[k]))
  }

  /** Strings that agree letter for letter up to ASCII case have the same lower-case form. */
  lemma {:induction false} SameIgnoringCase(s: string, t: string)
    requires |s| == |t|
    requires forall k :: 0 <= k < |s| ==> LowerChar(s[k]) == LowerChar(t[k])
    ensures ToLower(s) == ToLower(t)
  {
  }

  /** `sub` sits in `s` at index `i`: it is the prefix of the suffix of `s` from `i`. */
  predicate OccursAt(s: string, sub: string, i: int)
  {
    0 <= i && i + |sub| <= |s| && s[i..][..|sub|] == sub
  }

  /** `s.includes(sub)`: `sub` is a prefix of `s` or of one of its suffixes. */
  predicate Includes(s: string, sub: string)
  {
    sub <= s || (s != [] && Includes(s[1..], sub))
  }

  /** `Includes` holds exactly when `sub` occurs in `s` at some index. */
  lemma {:induction false} IncludesIffOccurs(s: string, sub: string)
    ensures Includes(s, sub) <==> exists i :: OccursAt(s, sub, i)
  {
    assert OccursAt(s, sub, 0) <==> sub <= s;
    if sub <= s || s == [] {
    } else {
      IncludesIffOccurs(s[1..], sub);
      if Includes(s[1..], sub) {
        var i :| OccursAt(s[1..], sub, i);
        assert s[i + 1..] == s[1..][i..];
        assert OccursAt(s, sub, i + 1);
      }
      if exists i :: OccursAt(s, sub, i) {
        var i :| OccursAt(s, sub, i);
        assert s[1..][i - 1..] == s[i..];
        assert OccursAt(s[1..], sub, i - 1);
      }
    }
  }

  /** An occurrence at a known index is enough to establish `Includes`. */
  lemma {:induction false} IncludesAt(s: string, sub: string, i: int)
    requires OccursAt(s, sub, i)
    ensures Includes(s, sub)
  {
    IncludesIffOccurs(s, sub);
  }
}
