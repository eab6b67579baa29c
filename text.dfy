/**
 * String helpers the TypeScript code gets from the JavaScript runtime:
 * the `\s` character class, `String.prototype.trim`, `Array.prototype.join('')`
 * and the decimal rendering of a non-negative integer in a template literal.
 */
module Text {

  /** ECMAScript WhiteSpace and LineTerminator code points: the class `\s`
      matches exactly these, and `trim` removes exactly these. */
  predicate IsJsWhitespace(c: char) {
    c == '\t' || c == '\n' || c == '\U{000B}' || c == '\U{000C}' || c == '\r' || c == ' '
    || c == '\U{00A0}' || c == '\U{1680}' || ('\U{2000}' <= c <= '\U{200A}')
    || c == '\U{2028}' || c == '\U{2029}' || c == '\U{202F}' || c == '\U{205F}'
    || c == '\U{3000}' || c == '\U{FEFF}'
  }

  /** A regular-expression `.` without the `s` flag refuses exactly these. */
  predicate IsLineTerminator(c: char) {
    c == '\n' || c == '\r' || c == '\U{2028}' || c == '\U{2029}'
  }

  /** `s.trimStart()`: the suffix left after dropping the leading whitespace. */
  function TrimStart(s: string): (r: string)
    ensures |r| <= |s|
  {
    if s != [] && IsJsWhitespace(s[0]) then TrimStart(s[1..]) else s
  }

  /** `trimStart` keeps a suffix that does not start with whitespace, and
      drops only whitespace. */
  lemma {:induction false} TrimStartSpec(s: string)
    ensures var r := TrimStart(s);
      && r == s[|s| - |r|..]
      && (forall i :: 0 <= i < |s| - |r| ==> IsJsWhitespace(s[i]))
      && (r != [] ==> !IsJsWhitespace(r[0]))
  {
    if s != [] && IsJsWhitespace(s[0]) {
      TrimStartSpec(s[1..]);
      var r := TrimStart(s[1..]);
      assert s[1..][|s| - 1 - |r|..] == s[|s| - |r|..];
      forall i | 0 <= i < |s| - |r| ensures IsJsWhitespace(s[i]) {
        if i > 0 {
          assert s[i] == s[1..][i - 1];
        }
      }
    }
  }

  /** `s.trimEnd()`: the prefix left after dropping the trailing whitespace. */
  function TrimEnd(s: string): (r: string)
    ensures |r| <= |s|
  {
    if s != [] && IsJsWhitespace(s[|s| - 1]) then TrimEnd(s[..|s| - 1]) else s
  }

  /** `trimEnd` keeps a prefix that does not end with whitespace, and drops
      only whitespace. */
  lemma {:induction false} TrimEndSpec(s: string)
    ensures var r := TrimEnd(s);
      && r == s[..|r|]
      && (forall i :: |r| <= i < |s| ==> IsJsWhitespace(s[i]))
      && (r != [] ==> !IsJsWhitespace(r[|r| - 1]))
  {
    if s != [] && IsJsWhitespace(s[|s| - 1]) {
      var init := s[..|s| - 1];
      TrimEndSpec(init);
      var r := TrimEnd(init);
      assert init[..|r|] == s[..|r|];
      forall i | |r| <= i < |s| ensures IsJsWhitespace(s[i]) {
        if i < |s| - 1 {
          assert s[i] == init[i];
        }
      }
    }
  }

  /** `s.trim()` */
  function Trim(s: string): (r: string)
  {
    TrimEnd(TrimStart(s))
  }

  /** `r` is the piece of `s` starting at `lead`, with no whitespace at
      either end, and everything cut off on either side is whitespace. */
  predicate Trimmed(s: string, lead: int, r: string) {
    && (r != [] ==> !IsJsWhitespace(r[0]) && !IsJsWhitespace(r[|r| - 1]))
    && 0 <= lead <= |s| - |r| && s[lead..lead + |r|] == r
    && (forall i :: 0 <= i < lead ==> IsJsWhitespace(s[i]))
    && (forall i :: lead + |r| <= i < |s| ==> IsJsWhitespace(s[i]))
  }

  /** The result of `trim` is a contiguous piece of its input with no whitespace
      at either end, and everything cut off on either side is whitespace. */
  lemma {:induction false} TrimSpec(s: string)
    ensures Trimmed(s, |s| - |TrimStart(s)|, Trim(s))
  {
    var t := TrimStart(s);
    TrimStartSpec(s);
    TrimEndSpec(t);
    assert Trim(s) == TrimEnd(t);
    TrimShape(s, |s| - |t|, t, Trim(s));
  }

  /** A prefix `r` of a suffix `t` of `s` sits in `s` where `t` starts, and
      what follows it in `t` follows it in `s`. */
  lemma TrimShape(s: string, lead: int, t: string, r: string)
    requires 0 <= lead <= |s| && t == s[lead..]
    requires forall i :: 0 <= i < lead ==> IsJsWhitespace(s[i])
    requires |r| <= |t| && r == t[..|r|]
    requires forall i :: |r| <= i < |t| ==> IsJsWhitespace(t[i])
    requires t != [] ==> !IsJsWhitespace(t[0])
    requires r != [] ==> !IsJsWhitespace(r[|r| - 1])
    ensures Trimmed(s, lead, r)
  {
    assert r != [] ==> r[0] == t[0];
    assert s[lead..lead + |r|] == s[lead..][..|r|];
    forall i | lead + |r| <= i < |s| ensures IsJsWhitespace(s[i]) {
      assert s[i] == t[i - lead];
    }
  }

  /** `pieces.join('')` */
  function Concat(pieces: seq<string>): (r: string)
    ensures |r| == SumLengths(pieces)
  {
    if pieces == [] then [] else Concat(pieces[..|pieces| - 1]) + pieces[|pieces| - 1]
  }

  function SumLengths(pieces: seq<string>): nat {
    if pieces == [] then 0 else SumLengths(pieces[..|pieces| - 1]) + |pieces[|pieces| - 1]|
  }

  lemma {:induction false} ConcatAppend(a: seq<string>, b: seq<string>)
    ensures Concat(a + b) == Concat(a) + Concat(b)
  {
    if b == [] {
      assert a + b == a;
    } else {
      ConcatAppend(a, b[..|b| - 1]);
      assert (a + b)[..|a + b| - 1] == a + b[..|b| - 1];
    }
  }

  /** The pieces before position `k` concatenate to a prefix of the whole. */
  lemma {:induction false} ConcatPrefix(pieces: seq<string>, k: int)
    requires 0 <= k <= |pieces|
    ensures Concat(pieces[..k]) <= Concat(pieces)
  {
    var front, back := pieces[..k], pieces[k..];
    ConcatAppend(front, back);
    assert front + back == pieces;
    var whole := Concat(front) + Concat(back);
    assert Concat(front) == whole[..|Concat(front)|];
  }


  lemma ConcatHead(pieces: seq<string>)
    requires pieces != []
    ensures Concat(pieces) == pieces[0] + Concat(pieces[1..])
  {
    ConcatAppend([pieces[0]], pieces[1..]);
    assert [pieces[0]] + pieces[1..] == pieces;
    assert [pieces[0]][..0] == [];
  }


  function DigitChar(d: nat): char
    requires d < 10
  {
    "0123456789"[d]
  }

  function DigitValue(c: char): nat {
    if '0' <= c <= '9' then (c as int - '0' as int) as nat else 0
  }

  /** The decimal digits a template literal prints for a non-negative integer. */
  function NatToDecimal(n: nat): (r: string)
    ensures r != [] && forall i :: 0 <= i < |r| ==> '0' <= r[i] <= '9'
    ensures |r| > 1 ==> r[0] != '0'
  {
    if n < 10 then [DigitChar(n)] else NatToDecimal(n / 10) + [DigitChar(n % 10)]
  }

  /** Reading a string of decimal digits back as a number. */
  function DecimalValue(s: string): nat {
    if s == [] then 0 else DecimalValue(s[..|s| - 1]) * 10 + DigitValue(s[|s| - 1])
  }

  /** Rendering a number in decimal and reading it back gives the number. */
  lemma {:induction false} DecimalRoundTrip(n: nat)
    ensures DecimalValue(NatToDecimal(n)) == n
  {
    var r := NatToDecimal(n);
    if n < 10 {
      assert r[..|r| - 1] == [];
    } else {
      DecimalRoundTrip(n / 10);
      assert r[..|r| - 1] == NatToDecimal(n / 10);
    }
  }
}
