/**
 * The JavaScript string primitives the validators rely on: `String.prototype.length`,
 * `String.prototype.trim`, an ASCII `toUpperCase` for a single character, and the
 * decimal rendering of an integer (below 2^53 in magnitude) used inside template-literal
 * messages.
 */
module Strings {

  /** ECMAScript WhiteSpace and LineTerminator code points: exactly what `trim` strips. */
  predicate IsWhitespace(c: char) {
    var n := c as int;
    n == 0x09 || n == 0x0A || n == 0x0B || n == 0x0C || n == 0x0D || n == 0x20 ||
    n == 0xA0 || n == 0x1680 || (0x2000 <= n <= 0x200A) || n == 0x2028 || n == 0x2029 ||
    n == 0x202F || n == 0x205F || n == 0x3000 || n == 0xFEFF
  }

  predicate AllWhitespace(s: string) {
    forall i | 0 <= i < |s| :: IsWhitespace(s[i])
  }

  /**
   * `trim`: strips whitespace from the front, then from the back. The result has no
   * whitespace at either end and is empty exactly when `s` is all whitespace.
   */
  function Trim(s: string): (r: string)
    ensures |r| <= |s|
    ensures r != [] ==> !IsWhitespace(r[0]) && !IsWhitespace(r[|r| - 1])
    ensures r == [] <==> AllWhitespace(s)
    decreases |s|
  {
    if |s| > 0 && IsWhitespace(s[0]) then
      assert AllWhitespace(s) <==> AllWhitespace(s[1..]) by {
        if AllWhitespace(s[1..]) {
          forall i | 1 <= i < |s| ensures IsWhitespace(s[i]) { assert s[i] == s[1..][i - 1]; }
        }
      }
      Trim(s[1..])
    else if |s| > 0 && IsWhitespace(s[|s| - 1]) then
      assert !AllWhitespace(s[..|s| - 1]) by { assert s[..|s| - 1][0] == s[0]; }
      Trim(s[..|s| - 1])
    else
      s
  }

  /**
   * `trim` removes a leading and a trailing run of whitespace and nothing else: the
   * result is the slice `s[i..j]` with only whitespace before `i` and after `j`.
   */
  lemma {:induction false} TrimIsSlice(s: string) returns (i: nat, j: nat)
    ensures i <= j <= |s|
    ensures Trim(s) == s[i..j]
    ensures AllWhitespace(s[..i]) && AllWhitespace(s[j..])
    decreases |s|
  {
    if |s| > 0 && IsWhitespace(s[0]) {
      var i', j' := TrimIsSlice(s[1..]);
      SliceAfterLeading(s, i', j');
      i, j := i' + 1, j' + 1;
    } else if |s| > 0 && IsWhitespace(s[|s| - 1]) {
      i, j := TrimIsSlice(s[..|s| - 1]);
      SliceBeforeTrailing(s, i, j);
    } else {
      i, j := 0, |s|;
      assert s[0..|s|] == s;
    }
  }

  /** A slice of `s[1..]` framed by whitespace, seen in `s` when `s[0]` is whitespace. */
  lemma SliceAfterLeading(s: string, i: nat, j: nat)
    requires |s| > 0 && IsWhitespace(s[0]) && i <= j <= |s| - 1
    requires AllWhitespace(s[1..][..i]) && AllWhitespace(s[1..][j..])
    ensures s[1..][i..j] == s[i + 1..j + 1]
    ensures AllWhitespace(s[..i + 1]) && AllWhitespace(s[j + 1..])
  {
    assert s[1..][j..] == s[j + 1..];
    assert s[..i + 1] == [s[0]] + s[1..][..i];
    WhitespaceConcat([s[0]], s[1..][..i]);
  }

  /** A slice of `s[..|s| - 1]` framed by whitespace, seen in `s` when its last character is whitespace. */
  lemma SliceBeforeTrailing(s: string, i: nat, j: nat)
    requires |s| > 0 && IsWhitespace(s[|s| - 1]) && i <= j <= |s| - 1
    requires AllWhitespace(s[..|s| - 1][..i]) && AllWhitespace(s[..|s| - 1][j..])
    ensures s[..|s| - 1][i..j] == s[i..j]
    ensures AllWhitespace(s[..i]) && AllWhitespace(s[j..])
  {
    var t := s[..|s| - 1];
    assert t[..i] == s[..i];
    assert s[j..] == t[j..] + [s[|s| - 1]];
    WhitespaceConcat(t[j..], [s[|s| - 1]]);
  }

  /** Two whitespace runs side by side form one. */
  lemma WhitespaceConcat(a: string, b: string)
    requires AllWhitespace(a) && AllWhitespace(b)
    ensures AllWhitespace(a + b)
  {
    forall k | 0 <= k < |a + b| ensures IsWhitespace((a + b)[k]) {
      if k >= |a| { assert (a + b)[k] == b[k - |a|]; }
    }
  }

  /** Leading whitespace is invisible to `trim`. */
  lemma {:induction false} TrimSkipsLeading(pre: string, t: string)
    requires AllWhitespace(pre)
    ensures Trim(pre + t) == Trim(t)
    decreases |pre|
  {
    if pre == [] {
      assert pre + t == t;
    } else {
      assert (pre + t)[0] == pre[0];
      assert (pre + t)[1..] == pre[1..] + t;
      TrimSkipsLeading(pre[1..], t);
    }
  }

  /** Trailing whitespace is invisible to `trim`. */
  lemma {:induction false} TrimSkipsTrailing(s: string, post: string)
    requires AllWhitespace(post)
    ensures Trim(s + post) == Trim(s)
    decreases |s| + |post|
  {
    var sp := s + post;
    if post == [] {
      assert sp == s;
    } else if s == [] {
      assert sp == post;
    } else if IsWhitespace(s[0]) {
      assert sp[0] == s[0];
      assert sp[1..] == s[1..] + post;
      TrimSkipsTrailing(s[1..], post);
    } else {
      assert sp[0] == s[0];
      assert sp[|sp| - 1] == post[|post| - 1];
      assert sp[..|sp| - 1] == s + post[..|post| - 1];
      TrimSkipsTrailing(s, post[..|post| - 1]);
    }
  }

  /** Surrounding whitespace never changes what `trim` yields. */
  lemma TrimIgnoresPadding(pre: string, s: string, post: string)
    requires AllWhitespace(pre) && AllWhitespace(post)
    ensures Trim(pre + s + post) == Trim(s)
  {
    assert pre + s + post == pre + (s + post);
    TrimSkipsLeading(pre, s + post);
    TrimSkipsTrailing(s, post);
  }

  /** The number of UTF-16 code units that encode `c`: two outside the Basic Multilingual Plane. */
  function Utf16Units(c: char): nat {
    if c as int < 0x1_0000 then 1 else 2
  }

  /**
   * `s.length`: JavaScript counts UTF-16 code units, so a character outside the Basic
   * Multilingual Plane (an emoji, say) counts twice.
   */
  function Utf16Length(s: string): (n: nat)
    ensures |s| <= n <= 2 * |s|
    ensures n == 0 <==> s == []
  {
    if s == [] then 0 else Utf16Units(s[0]) + Utf16Length(s[1..])
  }

  /** A one-character string has length 1, or 2 when the character is above U+FFFF. */
  lemma Utf16LengthOfChar(c: char)
    ensures Utf16Length([c]) == Utf16Units(c)
    ensures Utf16Length([c]) == 2 <==> c as int >= 0x1_0000
  {
    assert [c][1..] == [];
  }

  /** On text inside the Basic Multilingual Plane, `length` is the number of characters. */
  lemma {:induction false} Utf16LengthOfBmp(s: string)
    requires forall i | 0 <= i < |s| :: s[i] as int < 0x1_0000
    ensures Utf16Length(s) == |s|
  {
    if s != [] {
      assert forall i | 0 <= i < |s[1..]| :: s[1..][i] == s[i + 1];
      Utf16LengthOfBmp(s[1..]);
    }
  }

  /** `length` adds up over concatenation. */
  lemma {:induction false} Utf16LengthAppend(a: string, b: string)
    ensures Utf16Length(a + b) == Utf16Length(a) + Utf16Length(b)
  {
    if a == [] {
      assert a + b == b;
    } else {
      assert (a + b)[0] == a[0] && (a + b)[1..] == a[1..] + b;
      Utf16LengthAppend(a[1..], b);
    }
  }

  /** The ASCII part of `toUpperCase`: 'a'..'z' map to 'A'..'Z', every other character stays. */
  function ToUpperAscii(c: char): (u: char)
    ensures 'a' <= c <= 'z' ==> 'A' <= u <= 'Z' && u as int - c as int == 'A' as int - 'a' as int
    ensures !('a' <= c <= 'z') ==> u == c
  {
    if 'a' <= c <= 'z' then (c as int - 'a' as int + 'A' as int) as char else c
  }

  function DigitChar(d: nat): char
    requires d < 10
  {
    ('0' as int + d) as char
  }

  /**
   * The digits `String(n)` writes for a non-negative integer below 2^53, the range in
   * which a JavaScript number holds every integer exactly. There is no leading zero
   * except in "0" itself.
   */
  function NatToDecimal(n: nat): (r: string)
    ensures |r| >= 1
    ensures forall i | 0 <= i < |r| :: '0' <= r[i] <= '9'
    ensures r[0] == '0' ==> n == 0
  {
    if n < 10 then [DigitChar(n)] else NatToDecimal(n / 10) + [DigitChar(n % 10)]
  }

  /** The number a string of decimal digits spells, most significant digit first. */
  function DecimalValue(r: string): (v: nat)
    requires forall i | 0 <= i < |r| :: '0' <= r[i] <= '9'
  {
    if r == [] then 0
    else 10 * DecimalValue(r[..|r| - 1]) + (r[|r| - 1] as int - '0' as int)
  }

  /** Reading back the digits `NatToDecimal` writes gives `n`. */
  lemma {:induction false} NatToDecimalValue(n: nat)
    ensures DecimalValue(NatToDecimal(n)) == n
  {
    if n >= 10 {
      var r := NatToDecimal(n);
      assert r[..|r| - 1] == NatToDecimal(n / 10);
      NatToDecimalValue(n / 10);
    }
  }

  /**
   * `String(n)` for an integer `n` with |n| below 2^53: its decimal digits, with a
   * leading '-' when negative.
   */
  function IntToDecimal(n: int): (r: string)
    ensures |r| >= 1
    ensures (r[0] == '-') <==> n < 0
  {
    if n < 0 then "-" + NatToDecimal(-n) else NatToDecimal(n)
  }

  /** The digits after an optional '-' spell the magnitude of `n`. */
  lemma IntToDecimalValue(n: int)
    ensures n >= 0 ==> DecimalValue(IntToDecimal(n)) == n
    ensures n < 0 ==> IntToDecimal(n)[1..] == NatToDecimal(-n) && DecimalValue(IntToDecimal(n)[1..]) == -n
  {
    if n < 0 {
      assert ("-" + NatToDecimal(-n))[1..] == NatToDecimal(-n);
      NatToDecimalValue(-n);
    } else {
      NatToDecimalValue(n);
    }
  }
}
