/**
 * The handful of Python string operations the command engine relies on:
 * `str.split(sep)`, `sep.join(parts)`, `str.strip(chars)`, `int(str)` and `str(int)`.
 * Strings are sequences of characters.
 */
module Text {
  import opened Wrappers

  /** `s.split(sep)` with an explicit one-character separator: never empty, and no part holds `sep`. */
  function Split(s: string, sep: char): (parts: seq<string>)
    ensures |parts| >= 1
  {
    if s == [] then [""]
    else
      var rest := Split(s[1..], sep);
      if s[0] == sep then [""] + rest
      else [[s[0]] + rest[0]] + rest[1..]
  }

  /** No part of a split holds the separator. */
  lemma {:induction false} SplitPartsPlain(s: string, sep: char)
    ensures forall k :: 0 <= k < |Split(s, sep)| ==> sep !in Split(s, sep)[k]
  {
    if s != [] {
      SplitPartsPlain(s[1..], sep);
    }
  }

  /** `sep.join(parts)`. */
  function Join(parts: seq<string>, sep: char): string
  {
    if |parts| == 0 then ""
    else if |parts| == 1 then parts[0]
    else parts[0] + [sep] + Join(parts[1..], sep)
  }

  /** Joining the parts of a split gives back the original string. */
  lemma {:induction false} JoinSplit(s: string, sep: char)
    ensures Join(Split(s, sep), sep) == s
  {
    if s != [] {
      JoinSplit(s[1..], sep);
      var rest := Split(s[1..], sep);
      var parts := Split(s, sep);
      if s[0] == sep {
        assert parts == [""] + rest;
        assert parts[1..] == rest;
      } else {
        assert parts == [[s[0]] + rest[0]] + rest[1..];
        if |rest| > 1 {
          assert parts[1..] == rest[1..];
        }
      }
    }
  }

  /** Splitting a string that starts with a separator-free prefix `p` glues `p` to the first part. */
  lemma {:induction false} SplitAfterPlain(p: string, sep: char, t: string)
    requires sep !in p
    ensures Split(p + t, sep) == [p + Split(t, sep)[0]] + Split(t, sep)[1..]
  {
    var parts := Split(t, sep);
    if p == [] {
      assert p + t == t;
      assert p + parts[0] == parts[0];
      assert parts == [parts[0]] + parts[1..];
    } else {
      var q := p[1..];
      SplitAfterPlain(q, sep, t);
      var rest := Split(q + t, sep);
      assert rest[0] == q + parts[0] && rest[1..] == parts[1..];
      assert (p + t)[0] == p[0] && p[0] != sep;
      assert (p + t)[1..] == q + t;
      assert Split(p + t, sep) == [[p[0]] + rest[0]] + rest[1..];
      assert [p[0]] + (q + parts[0]) == p + parts[0];
    }
  }

  /** Splitting a join of separator-free parts gives back the parts. */
  lemma {:induction false} SplitJoin(parts: seq<string>, sep: char)
    requires |parts| >= 1
    requires forall k :: 0 <= k < |parts| ==> sep !in parts[k]
    ensures Split(Join(parts, sep), sep) == parts
  {
    if |parts| == 1 {
      SplitAfterPlain(parts[0], sep, "");
      assert parts[0] + "" == parts[0];
    } else {
      var tail := Join(parts[1..], sep);
      SplitJoin(parts[1..], sep);
      var t := [sep] + tail;
      assert Join(parts, sep) == parts[0] + t;
      assert t[1..] == tail;
      assert Split(t, sep) == [""] + parts[1..];
      SplitAfterPlain(parts[0], sep, t);
      assert parts[0] + "" == parts[0];
    }
  }

  /** `s.lstrip(chars)`: the longest suffix of `s` that does not start with one of `chars`. */
  function StripLeft(s: string, chars: set<char>): string
  {
    if s != [] && s[0] in chars then StripLeft(s[1..], chars) else s
  }

  /** `s.rstrip(chars)`: the longest prefix of `s` that does not end with one of `chars`. */
  function StripRight(s: string, chars: set<char>): string
  {
    if s != [] && s[|s| - 1] in chars then StripRight(s[..|s| - 1], chars) else s
  }

  /** `s.strip(chars)`. */
  function Strip(s: string, chars: set<char>): string
  {
    StripRight(StripLeft(s, chars), chars)
  }

  /** Stripping removes padding made of the stripped characters and nothing of a clean core. */
  lemma {:induction false} StripPadded(pre: string, s: string, post: string, chars: set<char>)
    requires forall k :: 0 <= k < |pre| ==> pre[k] in chars
    requires forall k :: 0 <= k < |post| ==> post[k] in chars
    requires s != [] && s[0] !in chars && s[|s| - 1] !in chars
    ensures Strip(pre + s + post, chars) == s
  {
    StripLeftPadded(pre, s + post, chars);
    assert pre + s + post == pre + (s + post);
    StripRightPadded(s, post, chars);
  }

  lemma {:induction false} StripLeftPadded(pre: string, s: string, chars: set<char>)
    requires forall k :: 0 <= k < |pre| ==> pre[k] in chars
    requires s != [] && s[0] !in chars
    ensures StripLeft(pre + s, chars) == s
  {
    if pre != [] {
      assert (pre + s)[1..] == pre[1..] + s;
      StripLeftPadded(pre[1..], s, chars);
    } else {
      assert pre + s == s;
    }
  }

  lemma {:induction false} StripRightPadded(s: string, post: string, chars: set<char>)
    requires forall k :: 0 <= k < |post| ==> post[k] in chars
    requires s != [] && s[|s| - 1] !in chars
    ensures StripRight(s + post, chars) == s
  {
    if post != [] {
      var q := post[..|post| - 1];
      assert (s + post)[..|s + post| - 1] == s + q;
      StripRightPadded(s, q, chars);
    } else {
      assert s + post == s;
    }
  }

  /** The characters `int()` ignores around a number. */
  const Whitespace: set<char> := {' ', '\t', '\n', '\r', 11 as char, 12 as char}

  predicate IsDigit(c: char)
  {
    '0' <= c <= '9'
  }

  predicate AllDigits(s: string)
  {
    forall k :: 0 <= k < |s| ==> IsDigit(s[k])
  }

  /** The value of a run of decimal digits. */
  function DigitsValue(s: string): nat
    requires AllDigits(s)
  {
    if s == [] then 0 else 10 * DigitsValue(s[..|s| - 1]) + (s[|s| - 1] as int - '0' as int)
  }

  /** Python's `int(s)` on a string: surrounding whitespace, an optional sign, then at least one
      decimal digit; None where Python raises ValueError. */
  function ParseInt(s: string): Option<int>
  {
    var t := Strip(s, Whitespace);
    if t != [] && (t[0] == '-' || t[0] == '+') then
      var digits := t[1..];
      if digits != [] && AllDigits(digits) then
        var v: int := DigitsValue(digits);
        Some(if t[0] == '-' then -v else v)
      else None
    else if t != [] && AllDigits(t) then Some(DigitsValue(t))
    else None
  }

  function DigitChar(d: nat): char
    requires d < 10
  {
    ('0' as int + d) as char
  }

  /** The shortest decimal rendering of a natural number. */
  function NatToString(n: nat): string
  {
    if n < 10 then [DigitChar(n)] else NatToString(n / 10) + [DigitChar(n % 10)]
  }

  /** The rendering of `n` is a non-empty run of digits whose value is `n`. */
  lemma {:induction false} NatToStringDigits(n: nat)
    ensures NatToString(n) != [] && AllDigits(NatToString(n)) && DigitsValue(NatToString(n)) == n
  {
    if n >= 10 {
      NatToStringDigits(n / 10);
      var s := NatToString(n);
      assert s[..|s| - 1] == NatToString(n / 10);
    }
  }

  /** Python's `str(n)` on an integer. */
  function IntToString(n: int): string
  {
    if n < 0 then "-" + NatToString(-n) else NatToString(n)
  }

  /** A rendering holds only digits and, first, a minus sign: no dot, no whitespace. */
  lemma RenderingCharacters(n: int)
    ensures '.' !in IntToString(n) && ' ' !in IntToString(n)
    ensures forall k :: 0 <= k < |IntToString(n)| ==> IntToString(n)[k] !in Whitespace
  {
    var s := IntToString(n);
    NatToStringDigits(if n < 0 then -n else n);
    assert forall k :: 0 <= k < |s| ==> s[k] == '-' || IsDigit(s[k]);
  }

  /** `int(str(n)) == n`. */
  lemma {:induction false} ParseIntToString(n: int)
    ensures ParseInt(IntToString(n)) == Some(n)
  {
    var s := IntToString(n);
    assert Strip(s, Whitespace) == s by {
      RenderingCharacters(n);
      StripPadded("", s, "", Whitespace);
      assert "" + s + "" == s;
    }
    var digits := NatToString(if n < 0 then -n else n);
    NatToStringDigits(if n < 0 then -n else n);
    if n < 0 {
      assert s[0] == '-' && s[1..] == digits;
    } else {
      assert s == digits && IsDigit(s[0]);
      assert s[0] != '-' && s[0] != '+';
      assert AllDigits(s) && DigitsValue(s) == n;
    }
  }
}
