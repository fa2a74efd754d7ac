/** String helpers that stand for the JavaScript built-ins the extension calls:
    `trim`, `split` on one character, `replace(/[^\d]/g, '')`, `String(n)`,
    `parseInt`, `toLowerCase`, `includes`, `substring` and `replace` with a
    string pattern. */
module Text {

  datatype Option<+T> = None | Some(value: T)

  /** The characters `String.prototype.trim` removes (WhiteSpace and LineTerminator). */
  predicate IsWhitespace(c: char) {
    c == ' ' || c == '\t' || c == '\n' || c == '\r' || c == '\U{000B}' || c == '\U{000C}'
    || c == '\U{00A0}' || c == '\U{1680}' || ('\U{2000}' <= c <= '\U{200A}')
    || c == '\U{2028}' || c == '\U{2029}' || c == '\U{202F}' || c == '\U{205F}'
    || c == '\U{3000}' || c == '\U{FEFF}'
  }

  /** ASCII digit, the class `\d` matches without the `u` flag. */
  predicate IsDigit(c: char) {
    '0' <= c <= '9'
  }

  predicate AllDigits(s: string) {
    forall i :: 0 <= i < |s| ==> IsDigit(s[i])
  }

  // ---------------------------------------------------------------- trim

  function TrimStart(s: string): string {
    if s != [] && IsWhitespace(s[0]) then TrimStart(s[1..]) else s
  }

  function TrimEnd(s: string): string {
    if s != [] && IsWhitespace(s[|s| - 1]) then TrimEnd(s[..|s| - 1]) else s
  }

  /** `s.trim()`. */
  function Trim(s: string): string {
    TrimEnd(TrimStart(s))
  }

  /** `TrimStart` removes a leading run of whitespace and stops at the first other character. */
  lemma {:induction false} TrimStartSpec(s: string)
    ensures var r := TrimStart(s);
            && |r| <= |s| && r == s[|s| - |r|..]
            && (forall i :: 0 <= i < |s| - |r| ==> IsWhitespace(s[i]))
            && (r == [] || !IsWhitespace(r[0]))
  {
    if s != [] && IsWhitespace(s[0]) {
      var tail := s[1..];
      TrimStartSpec(tail);
      var r := TrimStart(tail);
      assert TrimStart(s) == r;
      assert forall i :: 1 <= i < |s| - |r| ==> s[i] == tail[i - 1];
      assert tail[|tail| - |r|..] == s[|s| - |r|..];
    }
  }

  /** `TrimEnd` removes a trailing run of whitespace and stops at the last other character. */
  lemma {:induction false} TrimEndSpec(s: string)
    ensures var r := TrimEnd(s);
            && |r| <= |s| && r == s[..|r|]
            && (forall i :: |r| <= i < |s| ==> IsWhitespace(s[i]))
            && (r == [] || !IsWhitespace(r[|r| - 1]))
  {
    if s != [] && IsWhitespace(s[|s| - 1]) {
      var init := s[..|s| - 1];
      TrimEndSpec(init);
      var r := TrimEnd(init);
      assert TrimEnd(s) == r;
      assert forall i :: |r| <= i < |init| ==> s[i] == init[i];
      assert init[..|r|] == s[..|r|];
    }
  }

  /** `trim()` keeps the infix `s[k..k + |r|]` of `s`: everything before and after it is
      whitespace, and it neither starts nor ends with whitespace. */
  lemma TrimSpec(s: string)
    ensures var r, k := Trim(s), |s| - |TrimStart(s)|;
            && |TrimStart(s)| <= |s| && k + |r| <= |s| && r == s[k..k + |r|]
            && (forall i :: 0 <= i < k ==> IsWhitespace(s[i]))
            && (forall i :: k + |r| <= i < |s| ==> IsWhitespace(s[i]))
            && (r == [] || (!IsWhitespace(r[0]) && !IsWhitespace(r[|r| - 1])))
  {
    var m := TrimStart(s);
    TrimStartSpec(s);
    TrimEndSpec(m);
    var r, k := Trim(s), |s| - |m|;
    assert r == m[..|r|];
    assert forall i :: k <= i < |s| ==> s[i] == m[i - k];
    if r != [] {
      assert r[0] == m[0];
    }
  }

  lemma TrimKeepsTrimmed(s: string)
    requires s == [] || (!IsWhitespace(s[0]) && !IsWhitespace(s[|s| - 1]))
    ensures Trim(s) == s
  {
  }

  // ---------------------------------------------------------------- split

  /** Number of occurrences of `c` in `s`. */
  function Occurrences(s: string, c: char): (n: nat)
    ensures n <= |s|
  {
    if s == [] then 0 else (if s[0] == c then 1 else 0) + Occurrences(s[1..], c)
  }

  /** `s.split(sep)` for a one-character separator: the pieces between the
      separators, empty pieces included. */
  function Split(s: string, sep: char): (parts: seq<string>)
    ensures |parts| >= 1
  {
    if s == [] then [[]]
    else if s[0] == sep then [[]] + Split(s[1..], sep)
    else
      var rest := Split(s[1..], sep);
      [[s[0]] + rest[0]] + rest[1..]
  }

  /** `parts.join(sep)`, the inverse of `Split`. */
  function Join(parts: seq<string>, sep: char): string
    requires |parts| >= 1
  {
    if |parts| == 1 then parts[0] else parts[0] + [sep] + Join(parts[1..], sep)
  }

  lemma {:induction false} SplitCount(s: string, sep: char)
    ensures |Split(s, sep)| == Occurrences(s, sep) + 1
  {
    if s != [] {
      SplitCount(s[1..], sep);
    }
  }

  lemma {:induction false} SplitPartsHaveNoSeparator(s: string, sep: char)
    ensures forall k :: 0 <= k < |Split(s, sep)| ==> sep !in Split(s, sep)[k]
  {
    if s != [] {
      SplitPartsHaveNoSeparator(s[1..], sep);
      if s[0] != sep {
        var rest := Split(s[1..], sep);
        assert sep !in rest[0];
        assert sep !in [s[0]] + rest[0];
      }
    }
  }

  lemma {:induction false} JoinSplit(s: string, sep: char)
    ensures Join(Split(s, sep), sep) == s
  {
    if s != [] {
      JoinSplit(s[1..], sep);
      var rest := Split(s[1..], sep);
      if s[0] == sep {
        assert Split(s, sep) == [[]] + rest;
        assert Split(s, sep)[1..] == rest;
      } else {
        var parts := Split(s, sep);
        assert parts == [[s[0]] + rest[0]] + rest[1..];
        if |rest| == 1 {
          assert Join(parts, sep) == [s[0]] + rest[0];
        } else {
          assert parts[1..] == rest[1..];
          assert Join(parts, sep) == [s[0]] + rest[0] + [sep] + Join(rest[1..], sep);
        }
      }
    }
  }

  /** When `s` holds exactly one separator, `split` gives the text before it and the text after it. */
  lemma {:induction false} SplitAtSingleSeparator(s: string, sep: char, i: nat)
    requires i < |s| && s[i] == sep && sep !in s[..i] && sep !in s[i + 1..]
    ensures Split(s, sep) == [s[..i], s[i + 1..]]
  {
    if i == 0 {
      NoSeparatorSplit(s[1..], sep);
    } else {
      assert s[1..][..i - 1] == s[1..i];
      assert s[1..][i..] == s[i + 1..];
      SplitAtSingleSeparator(s[1..], sep, i - 1);
      assert [s[0]] + s[1..i] == s[..i];
    }
  }

  lemma {:induction false} NoSeparatorSplit(s: string, sep: char)
    requires sep !in s
    ensures Split(s, sep) == [s]
  {
    if s != [] {
      NoSeparatorSplit(s[1..], sep);
      assert [s[0]] + s[1..] == s;
    }
  }

  // ---------------------------------------------------------------- digits

  /** `s.replace(/[^\d]/g, '')`: the digits of `s`, in order. */
  function DigitsOnly(s: string): (r: string)
    ensures |r| <= |s|
    ensures AllDigits(r)
  {
    if s == [] then []
    else if IsDigit(s[0]) then [s[0]] + DigitsOnly(s[1..])
    else DigitsOnly(s[1..])
  }

  /** A string of digits is left as it is, so filtering twice is filtering once. */
  lemma {:induction false} DigitsOnlyOfDigits(s: string)
    requires AllDigits(s)
    ensures DigitsOnly(s) == s
  {
    if s != [] {
      DigitsOnlyOfDigits(s[1..]);
    }
  }

  /** The filter works character by character: a concatenation is filtered part by
      part, and a single character is kept exactly when it is a digit. So the
      result is the digits of `s`, each kept, in their order. */
  lemma {:induction false} DigitsOnlyAppend(a: string, b: string)
    ensures DigitsOnly(a + b) == DigitsOnly(a) + DigitsOnly(b)
    ensures |a| == 1 ==> DigitsOnly(a) == if IsDigit(a[0]) then a else []
  {
    if a != [] {
      assert (a + b)[0] == a[0] && (a + b)[1..] == a[1..] + b;
      DigitsOnlyAppend(a[1..], b);
      if IsDigit(a[0]) {
        assert DigitsOnly(a) == [a[0]] + DigitsOnly(a[1..]);
        assert DigitsOnly(a + b) == [a[0]] + (DigitsOnly(a[1..]) + DigitsOnly(b));
      }
    } else {
      assert a + b == b;
    }
  }

  lemma DigitsOnlyIdempotent(s: string)
    ensures DigitsOnly(DigitsOnly(s)) == DigitsOnly(s)
  {
    DigitsOnlyOfDigits(DigitsOnly(s));
  }

  // ---------------------------------------------------------------- numbers

  function DigitChar(d: nat): (c: char)
    requires d < 10
    ensures IsDigit(c)
  {
    ('0' as int + d) as char
  }

  function DigitValue(c: char): (d: nat)
    requires IsDigit(c)
    ensures d < 10 && DigitChar(d) == c
  {
    (c as int - '0' as int) as nat
  }

  lemma DigitRoundTrip(d: nat)
    requires d < 10
    ensures DigitValue(DigitChar(d)) == d
  {
  }

  /** `String(n)` for a non-negative integer: its decimal digits, no leading zero. */
  function NatToString(n: nat): string
  {
    if n < 10 then [DigitChar(n)] else NatToString(n / 10) + [DigitChar(n % 10)]
  }

  /** `String(n)` is a non-empty string of digits, with no leading zero. */
  lemma {:induction false} NatToStringDigits(n: nat)
    ensures |NatToString(n)| >= 1 && AllDigits(NatToString(n))
    ensures |NatToString(n)| > 1 ==> NatToString(n)[0] != '0'
  {
    if n >= 10 {
      var q := n / 10;
      NatToStringDigits(q);
      var s := NatToString(n);
      assert s == NatToString(q) + [DigitChar(n % 10)];
      assert s[0] == NatToString(q)[0];
      if |NatToString(q)| == 1 {
        assert NatToString(q) == [DigitChar(q)];
      }
    }
  }

  /** `parseInt(s, 10)` for a non-empty string of digits. */
  function ParseNat(s: string): nat
    requires |s| >= 1 && AllDigits(s)
  {
    if |s| == 1 then DigitValue(s[0])
    else ParseNat(s[..|s| - 1]) * 10 + DigitValue(s[|s| - 1])
  }

  lemma {:induction false} ParseNatToString(n: nat)
    ensures |NatToString(n)| >= 1 && AllDigits(NatToString(n)) && ParseNat(NatToString(n)) == n
  {
    NatToStringDigits(n);
    if n >= 10 {
      NatToStringDigits(n / 10);
      var q, d := n / 10, n % 10;
      var s := NatToString(n);
      assert s == NatToString(q) + [DigitChar(d)];
      assert s[..|s| - 1] == NatToString(q);
      DigitRoundTrip(d);
      ParseNatToString(q);
      assert ParseNat(s) == ParseNat(NatToString(q)) * 10 + d;
    } else {
      DigitRoundTrip(n);
    }
  }

  // ---------------------------------------------------------------- case

  function LowerChar(c: char): (d: char)
    ensures 'A' <= c <= 'Z' ==> 'a' <= d <= 'z' && d as int - 'a' as int == c as int - 'A' as int
    ensures !('A' <= c <= 'Z') ==> d == c
  {
    if 'A' <= c <= 'Z' then (c as int + 32) as char else c
  }

  /** `s.toLowerCase()` on ASCII letters. */
  function ToLower(s: string): (r: string)
    ensures |r| == |s|
    ensures forall i :: 0 <= i < |s| ==> r[i] == LowerChar(s[i])
  {
    seq(|s|, i requires 0 <= i < |s| => LowerChar(s[i]))
  }

  predicate EqualsIgnoreCase(a: string, b: string) {
    ToLower(a) == ToLower(b)
  }

  lemma ToLowerIdempotent(s: string)
    ensures ToLower(ToLower(s)) == ToLower(s)
  {
  }

  // ---------------------------------------------------------------- search

  predicate StartsWith(s: string, prefix: string) {
    |prefix| <= |s| && s[..|prefix|] == prefix
  }

  /** `s.indexOf(sub)`: the first position where `sub` occurs, if any. */
  function Find(s: string, sub: string): (r: Option<nat>)
    ensures r.Some? ==> r.value + |sub| <= |s| && s[r.value..r.value + |sub|] == sub
    ensures r.Some? ==> forall j :: 0 <= j < r.value ==> !StartsWith(s[j..], sub)
    ensures r.None? ==> forall j :: 0 <= j <= |s| ==> !StartsWith(s[j..], sub)
  {
    if StartsWith(s, sub) then Some(0)
    else if s == [] then None
    else
      TailSuffixes(s);
      match Find(s[1..], sub)
      case None => None
      case Some(k) => Some(k + 1)
  }

  /** The suffixes of `s` past its first character are the suffixes of its tail. */
  lemma TailSuffixes(s: string)
    requires s != []
    ensures forall j :: 1 <= j <= |s| ==> s[j..] == s[1..][j - 1..]
  {
  }

  /** `s.includes(sub)`. */
  predicate Contains(s: string, sub: string) {
    Find(s, sub).Some?
  }

  /** `s.replace(from, to)` with a one-character string pattern: only the first occurrence. */
  function ReplaceFirst(s: string, from: char, to: char): string {
    if s == [] then []
    else if s[0] == from then [to] + s[1..]
    else [s[0]] + ReplaceFirst(s[1..], from, to)
  }

  /** `replace` keeps the length, leaves a text without the pattern as it is, and
      otherwise changes exactly the first occurrence. */
  lemma {:induction false} ReplaceFirstSpec(s: string, from: char, to: char, k: nat)
    requires k <= |s| && from !in s[..k] && (k < |s| ==> s[k] == from)
    ensures ReplaceFirst(s, from, to) == if k < |s| then s[..k] + [to] + s[k + 1..] else s
  {
    if k > 0 {
      assert s[1..][..k - 1] == s[1..k];
      ReplaceFirstSpec(s[1..], from, to, k - 1);
      if k < |s| {
        assert s[..k] + [to] + s[k + 1..] == [s[0]] + (s[1..][..k - 1] + [to] + s[1..][k..]);
      } else {
        assert [s[0]] + s[1..] == s;
      }
    }
  }

  /** `s.substring(k)`: everything from position `k`, or nothing when `s` is shorter. */
  function Drop(s: string, k: nat): (r: string)
    ensures |r| == if k <= |s| then |s| - k else 0
    ensures k <= |s| ==> s[..k] + r == s
    ensures k > |s| ==> r == []
  {
    if k <= |s| then s[k..] else []
  }

  /** The longest prefix of `s` without `c` (`s.split(c)[0]`). */
  function TakeUntil(s: string, c: char): (r: string)
    ensures |r| <= |s| && r == s[..|r|] && c !in r
    ensures |r| < |s| ==> s[|r|] == c
  {
    if s == [] || s[0] == c then [] else [s[0]] + TakeUntil(s[1..], c)
  }

  /** `TakeUntil` stops at the first occurrence of `c`. */
  lemma TakeUntilPrefix(s: string, c: char, n: nat)
    requires n < |s| && s[n] == c && c !in s[..n]
    ensures TakeUntil(s, c) == s[..n]
  {
  }
}
