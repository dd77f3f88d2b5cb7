/** String helpers with the exact character sets and conventions of the two
    runtimes the system runs on: ECMAScript (front-end) and Python (API). */
module Text {
  import opened Base

  /** ECMAScript WhiteSpace and LineTerminator code points: what
      `String.prototype.trim` removes and what `parseInt` skips. */
  predicate IsJsSpace(c: char)
  {
    c == '\t' || c == '\n' || c == '\U{0B}' || c == '\U{0C}' || c == '\r' || c == ' '
    || c == '\U{A0}' || c == '\U{1680}' || ('\U{2000}' <= c <= '\U{200A}')
    || c == '\U{2028}' || c == '\U{2029}' || c == '\U{202F}' || c == '\U{205F}'
    || c == '\U{3000}' || c == '\U{FEFF}'
  }

  /** Python's `str.isspace` code points: what `str.strip()` removes and what
      the regular expression class `\s` matches on `str` patterns. */
  predicate IsPySpace(c: char)
  {
    ('\t' <= c <= '\r') || ('\U{1C}' <= c <= '\U{1F}') || c == ' ' || c == '\U{85}'
    || c == '\U{A0}' || c == '\U{1680}' || ('\U{2000}' <= c <= '\U{200A}')
    || c == '\U{2028}' || c == '\U{2029}' || c == '\U{202F}' || c == '\U{205F}'
    || c == '\U{3000}'
  }

  /** Length of the leading run of characters of `s` that satisfy `sp`. */
  function LeadCount(s: string, sp: char -> bool): (n: nat)
    ensures n <= |s|
    ensures forall i :: 0 <= i < n ==> sp(s[i])
    ensures n < |s| ==> !sp(s[n])
  {
    if s != [] && sp(s[0]) then 1 + LeadCount(s[1..], sp) else 0
  }

  /** The leading run of a prefix all of whose characters satisfy `sp`,
      followed by one that does not, is that prefix. */
  lemma {:induction false} LeadCountPrefix(u: string, rest: string, sp: char -> bool)
    requires forall i :: 0 <= i < |u| ==> sp(u[i])
    requires rest == [] || !sp(rest[0])
    ensures LeadCount(u + rest, sp) == |u|
  {
    if u == [] {
      assert u + rest == rest;
    } else {
      var s := u + rest;
      assert s[0] == u[0] && s[1..] == u[1..] + rest;
      LeadCountPrefix(u[1..], rest, sp);
    }
  }

  /** Length of the trailing run of characters of `s` that satisfy `sp`. */
  function TrailCount(s: string, sp: char -> bool): (n: nat)
    ensures n <= |s|
    ensures forall i :: |s| - n <= i < |s| ==> sp(s[i])
    ensures n < |s| ==> !sp(s[|s| - 1 - n])
  {
    if s != [] && sp(s[|s| - 1]) then 1 + TrailCount(s[..|s| - 1], sp) else 0
  }

  /** `s` without its leading characters that satisfy `sp`. */
  function TrimLeft(s: string, sp: char -> bool): string
  {
    s[LeadCount(s, sp)..]
  }

  /** Both ends trimmed, one character at a time. Its properties are stated
      by `TrimFacts`, so that they are brought into a proof only where it
      asks for them. */
  function Trim(s: string, sp: char -> bool): (r: string)
    ensures |r| <= |s|
    decreases |s|
  {
    if s != [] && sp(s[0]) then Trim(s[1..], sp)
    else if s != [] && sp(s[|s| - 1]) then Trim(s[..|s| - 1], sp)
    else s
  }

  /** The trimmed string is the slice of `s` that starts after the leading
      run, everything cut away satisfies `sp`, the result neither starts nor
      ends with such a character, and it is empty exactly when every
      character of `s` satisfies `sp`. */
  predicate Trimmed(s: string, sp: char -> bool, r: string)
  {
    var a := LeadCount(s, sp);
    a + |r| <= |s| && r == s[a..a + |r|]
    && (forall i :: a + |r| <= i < |s| ==> sp(s[i]))
    && (r != [] ==> !sp(r[0]) && !sp(r[|r| - 1]))
    && ((forall i :: 0 <= i < |s| ==> sp(s[i])) <==> r == [])
  }

  lemma {:induction false} TrimFacts(s: string, sp: char -> bool)
    ensures Trimmed(s, sp, Trim(s, sp))
    decreases |s|
  {
    if s != [] && sp(s[0]) {
      TrimFacts(s[1..], sp);
      TrimmedLead(s, sp, Trim(s, sp));
    } else if s != [] && sp(s[|s| - 1]) {
      TrimFacts(s[..|s| - 1], sp);
      TrimmedTrail(s, sp, Trim(s, sp));
    } else {
      if s != [] {
        assert LeadCount(s, sp) == 0;
      }
    }
  }

  /** Dropping a leading character that satisfies `sp` keeps `Trimmed`. */
  lemma TrimmedLead(s: string, sp: char -> bool, r: string)
    requires s != [] && sp(s[0]) && Trimmed(s[1..], sp, r)
    ensures Trimmed(s, sp, r)
  {
    var t := s[1..];
    var a := LeadCount(t, sp);
    assert LeadCount(s, sp) == a + 1;
    assert r == s[a + 1..a + 1 + |r|] by { assert t[a..a + |r|] == s[a + 1..a + 1 + |r|]; }
    forall i | a + 1 + |r| <= i < |s| ensures sp(s[i]) { assert s[i] == t[i - 1]; }
    if forall i :: 0 <= i < |t| ==> sp(t[i]) {
      forall i | 0 <= i < |s| ensures sp(s[i]) { if i > 0 { assert s[i] == t[i - 1]; } }
    }
    if forall i :: 0 <= i < |s| ==> sp(s[i]) {
      forall i | 0 <= i < |t| ensures sp(t[i]) { assert t[i] == s[i + 1]; }
    }
  }

  /** Dropping a trailing character that satisfies `sp`, when the first one
      does not, keeps `Trimmed`. */
  lemma TrimmedTrail(s: string, sp: char -> bool, r: string)
    requires s != [] && !sp(s[0]) && sp(s[|s| - 1]) && Trimmed(s[..|s| - 1], sp, r)
    ensures Trimmed(s, sp, r)
  {
    var t := s[..|s| - 1];
    assert t[0] == s[0];
    assert LeadCount(t, sp) == 0 && LeadCount(s, sp) == 0;
    assert r == s[0..|r|] by { assert t[0..|r|] == s[0..|r|]; }
    forall i | |r| <= i < |s| ensures sp(s[i]) {
      if i < |s| - 1 { assert s[i] == t[i]; }
    }
    assert !sp(t[0]);
  }

  /** ECMAScript `s.trim()`. */
  function JsTrim(s: string): string { Trim(s, IsJsSpace) }

  /** Python `s.strip()`. */
  function PyStrip(s: string): string { Trim(s, IsPySpace) }

  /** Lower-casing of the ASCII letters (`toLowerCase` / `lower` on the
      ASCII range). */
  function LowerChar(c: char): char
  {
    if 'A' <= c <= 'Z' then (c as int + 32) as char else c
  }

  function Lower(s: string): (r: string)
    ensures |r| == |s| && forall i :: 0 <= i < |s| ==> r[i] == LowerChar(s[i])
  {
    seq(|s|, i requires 0 <= i < |s| => LowerChar(s[i]))
  }

  /** Each capital becomes its small letter, 32 code points up, and every
      other character is kept; so no capital is left. */
  lemma LowerFacts(s: string)
    ensures forall i :: 0 <= i < |s| && 'A' <= s[i] <= 'Z' ==>
      'a' <= Lower(s)[i] <= 'z' && Lower(s)[i] as int == s[i] as int + 32
    ensures forall i :: 0 <= i < |s| && !('A' <= s[i] <= 'Z') ==> Lower(s)[i] == s[i]
    ensures forall i :: 0 <= i < |s| ==> !('A' <= Lower(s)[i] <= 'Z')
  {
  }

  /** Lower-casing twice is lower-casing once. */
  lemma LowerIdempotent(s: string)
    ensures Lower(Lower(s)) == Lower(s)
  {
    LowerFacts(s);
    LowerFacts(Lower(s));
  }

  /** Strings that differ only in the case of their letters lower alike. */
  lemma LowerCaseVariants(s: string, t: string)
    requires |s| == |t|
    requires forall i :: 0 <= i < |s| ==> s[i] == t[i] || LowerChar(s[i]) == t[i] || s[i] == LowerChar(t[i])
    ensures Lower(s) == Lower(t)
  {
    forall i | 0 <= i < |s| ensures Lower(s)[i] == Lower(t)[i] {
      LowerCharIdempotent(s[i]);
      LowerCharIdempotent(t[i]);
    }
  }

  lemma LowerCharIdempotent(c: char)
    ensures LowerChar(LowerChar(c)) == LowerChar(c)
  {
  }

  predicate StartsWith(s: string, prefix: string)
  {
    |prefix| <= |s| && s[..|prefix|] == prefix
  }

  /** `sub in s` for strings. */
  predicate Contains(s: string, sub: string)
  {
    StartsWith(s, sub) || (s != [] && Contains(s[1..], sub))
  }

  // ---------------------------------------------------------------------------
  // Decimal numerals

  predicate IsDigit(c: char) { '0' <= c <= '9' }

  function DigitChar(d: nat): (c: char)
    requires d < 10
    ensures IsDigit(c) && c as int - '0' as int == d
  {
    (d + '0' as int) as char
  }

  function DigitValue(c: char): nat
    requires IsDigit(c)
  {
    c as int - '0' as int
  }

  /** `String(n)` / `str(n)` for a non-negative integer. */
  function NatToString(n: nat): (r: string)
    ensures |r| > 0 && forall i :: 0 <= i < |r| ==> IsDigit(r[i])
    ensures r[0] == '0' ==> n == 0
  {
    if n < 10 then [DigitChar(n)] else NatToString(n / 10) + [DigitChar(n % 10)]
  }

  function DigitsValue(s: string): nat
    requires forall i :: 0 <= i < |s| ==> IsDigit(s[i])
  {
    if s == [] then 0 else DigitsValue(s[..|s| - 1]) * 10 + DigitValue(s[|s| - 1])
  }

  lemma {:induction false} DigitsValueOfNatToString(n: nat)
    ensures DigitsValue(NatToString(n)) == n
  {
    if n >= 10 {
      var r := NatToString(n);
      assert r[..|r| - 1] == NatToString(n / 10);
      DigitsValueOfNatToString(n / 10);
    }
  }

  /** The longest prefix of `s` made of decimal digits. */
  function DigitPrefix(s: string): (r: string)
    ensures |r| <= |s| && r == s[..|r|]
    ensures forall i :: 0 <= i < |r| ==> IsDigit(s[i])
    ensures |r| < |s| ==> !IsDigit(s[|r|])
  {
    if s != [] && IsDigit(s[0]) then [s[0]] + DigitPrefix(s[1..]) else []
  }

  /** A JavaScript number produced by `parseInt`: an integer or NaN. */
  datatype JsInt = JsInteger(v: int) | JsNaN

  /** ECMAScript `parseInt(s)` (radix 10): skip leading white space, read an
      optional sign and the longest run of decimal digits after it; no digit
      at all gives NaN. */
  function ParseIntJs(s: string): (r: JsInt)
  {
    var t := TrimLeft(s, IsJsSpace);
    var negative := t != [] && t[0] == '-';
    var body := if t != [] && (t[0] == '-' || t[0] == '+') then t[1..] else t;
    var digits := DigitPrefix(body);
    if digits == [] then JsNaN
    else
      var v: int := DigitsValue(digits);
      JsInteger(if negative then -v else v)
  }

  /** parseInt reads back what String(n) writes. */
  lemma ParseIntOfNatToString(n: nat)
    ensures ParseIntJs(NatToString(n)) == JsInteger(n)
  {
    var s := NatToString(n);
    DigitIsNotSpaceOrSign(s[0]);
    assert LeadCount(s, IsJsSpace) == 0;
    DigitPrefixAll(s);
    DigitsValueOfNatToString(n);
  }

  lemma DigitIsNotSpaceOrSign(c: char)
    requires IsDigit(c)
    ensures !IsJsSpace(c) && !IsPySpace(c) && c != '-' && c != '+'
  {
  }

  lemma {:induction false} DigitPrefixAll(s: string)
    requires forall i :: 0 <= i < |s| ==> IsDigit(s[i])
    ensures DigitPrefix(s) == s
  {
    if s != [] { DigitPrefixAll(s[1..]); }
  }

  // ---------------------------------------------------------------------------
  // Joining and splitting

  /** `parts.join(sep)` / `sep.join(parts)`. */
  function Join(parts: seq<string>, sep: string): string
  {
    if parts == [] then []
    else if |parts| == 1 then parts[0]
    else parts[0] + sep + Join(parts[1..], sep)
  }

  /** Index of the first occurrence of `c` in `s`. */
  function IndexOf(s: string, c: char): (i: nat)
    requires c in s
    ensures i < |s| && s[i] == c && c !in s[..i]
  {
    if s[0] == c then 0 else 1 + IndexOf(s[1..], c)
  }

  /** Python `s.split(sep)` for a one-character separator. */
  function Split(s: string, sep: char): (r: seq<string>)
    ensures |r| >= 1
    ensures forall k :: 0 <= k < |r| ==> sep !in r[k]
    decreases |s|
  {
    if sep !in s then [s]
    else
      var i := IndexOf(s, sep);
      [s[..i]] + Split(s[i + 1..], sep)
  }

  /** Splitting and joining back with the same separator is the identity. */
  lemma {:induction false} JoinSplit(s: string, sep: char)
    ensures Join(Split(s, sep), [sep]) == s
    decreases |s|
  {
    if sep in s {
      var i := IndexOf(s, sep);
      var rest := Split(s[i + 1..], sep);
      assert Split(s, sep) == [s[..i]] + rest;
      JoinCons(s[..i], rest, [sep]);
      JoinSplit(s[i + 1..], sep);
      assert s == s[..i] + [sep] + s[i + 1..];
    }
  }

  lemma JoinCons(p: string, ps: seq<string>, sep: string)
    requires ps != []
    ensures Join([p] + ps, sep) == p + sep + Join(ps, sep)
  {
    assert ([p] + ps)[1..] == ps;
  }
}
